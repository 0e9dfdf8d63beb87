/** The emulator of src/chip8/chip8.c run in place: the global `EmulatorState`
    becomes an `Emulator` object whose fixed-size buffers are arrays and whose
    scalar registers are fields. Every method is proved to take the state
    `State()` to the value the matching function of Chip8Semantics gives. */
module Chip8 {
  import opened Chip8Header
  import opened Chip8Semantics

  class Emulator {
    const memory: array<bv8>
    const v: array<bv8>
    const key: array<bv8>
    const gfx: array<bool>
    var delayTimer: bv8
    var soundTimer: bv8
    var idx: u16
    var pc: u16
    const stack: array<u16>
    var sp: u16

    ghost predicate Valid()
    {
      memory.Length == MemorySize && v.Length == Registers && key.Length == Inputs &&
      gfx.Length == PixelCount && stack.Length == StackSize &&
      memory != v && memory != key && v != key &&
      stack as object !in {memory as object, v as object, key as object}
    }

    /** The state record these fields and arrays hold. */
    ghost function State(): Machine
      reads this, memory, v, key, gfx, stack
      requires Valid()
    {
      Machine(memory[..], v[..], key[..], gfx[..], delayTimer, soundTimer, idx, pc, stack[..], sp)
    }

    /** The frame buffer and the flag register hold what the first `k` steps
        of the sprite fold `Blit` give, starting from screen `g0` and
        registers `v0`. */
    ghost predicate Blitted(g0: Gfx, mem: Memory, v0: RegisterFile, vx: bv8, vy: bv8, n: Nibble, k: nat)
      reads this, v, gfx
      requires Valid() && DrawInBounds(idx, n) && k <= 8 * n
    {
      var (screen, hit) := Blit(g0, mem, idx, vx, vy, n, k);
      gfx[..] == screen && v[..] == v0[FlagRegister := if hit then 1 else 0]
    }

    /** `CHIP8 EmulatorState = {0}` */
    constructor ()
      ensures Valid() && State() == Zero()
      ensures fresh(memory) && fresh(v) && fresh(key) && fresh(gfx) && fresh(stack)
    {
      memory := new bv8[MemorySize](_ => 0);
      v := new bv8[Registers](_ => 0);
      key := new bv8[Inputs](_ => 0);
      gfx := new bool[PixelCount](_ => false);
      stack := new u16[StackSize](_ => 0);
      delayTimer, soundTimer := 0, 0;
      idx, pc, sp := 0, 0, 0;
    }

    method SkipInstruction()
      requires Valid()
      modifies this
      ensures State() == Skip(old(State()))
    {
      pc := (pc + 2) % 0x1_0000;
    }

    method FetchNextInstruction() returns (ins: Instruction)
      requires Valid() && pc != MemorySize - 1
      modifies this
      ensures (ins, State()) == Fetch(old(State()))
    {
      if pc + 1 > MemorySize {
        return Instruction(0, 0, false);
      }
      var byte1 := memory[pc];
      var byte2 := memory[pc + 1];
      SkipInstruction();
      return Instruction(byte1, byte2, true);
    }

    method JumpToNNN(nnn: u16)
      requires Valid()
      modifies this
      ensures State() == Jump(old(State()), nnn)
    {
      pc := nnn;
    }

    method PushToStack(nnn: u16)
      requires Valid() && sp < StackSize
      modifies this, stack
      ensures State() == Push(old(State()), nnn)
    {
      stack[sp] := nnn;
      sp := sp + 1;
    }

    method PopStack()
      requires Valid() && sp < StackSize
      modifies this, stack
      ensures State() == Pop(old(State()))
    {
      var stackAddress := stack[sp];
      JumpToNNN(stackAddress);
      stack[sp] := 0;
      sp := (sp - 1) % 0x1_0000;
    }

    method SetRegister(x: Nibble, b: bv8)
      requires Valid()
      modifies v
      ensures State() == Chip8Semantics.SetRegister(old(State()), x, b)
    {
      v[x] := b;
    }

    method GetRegister(x: Nibble) returns (b: bv8)
      requires Valid()
      ensures b == State().v[x]
    {
      b := v[x];
    }

    /** One pass of the inner sprite loop of `Draw`: pixel `w` of sprite row
        `h` is blitted, carrying the fold `Blit` one step further. */
    method DrawPixel(ghost g0: Gfx, ghost mem: Memory, ghost v0: RegisterFile,
                     spriteByte: bv8, vx: bv8, vy: bv8, n: Nibble, h: nat, w: nat)
      requires Valid() && DrawInBounds(idx, n) && h < n && w < 8
      requires spriteByte == mem[idx + h]
      requires Blitted(g0, mem, v0, vx, vy, n, 8 * h + w)
      modifies v, gfx
      ensures Blitted(g0, mem, v0, vx, vy, n, 8 * h + w + 1)
    {
      var spritePixel := (spriteByte >> (7 - w)) & 1;
      SpritePixelIsBit(spriteByte, w);
      BlitStep(g0, mem, idx, vx, vy, n, h, w);
      if spritePixel == 0 {
        return;
      }
      var sx := (vx as int + w) % ScreenWidth;
      var sy := (vy as int + h) % ScreenHeight;
      var screenIndex := Convert2DTo1D(sx, sy, ScreenWidth);
      assert screenIndex == DrawIndex(vx, vy, h, w);
      ghost var before := Blit(g0, mem, idx, vx, vy, n, 8 * h + w);
      assert gfx[..] == before.0;
      if gfx[screenIndex] {
        SetRegister(FlagRegister, 1);
      }
      gfx[screenIndex] := !gfx[screenIndex];
    }

    /** One pass of the outer sprite loop of `Draw`: the eight pixels of
        sprite row `h`, most significant bit first. */
    method DrawRow(ghost g0: Gfx, ghost mem: Memory, ghost v0: RegisterFile,
                   vx: bv8, vy: bv8, n: Nibble, h: nat)
      requires Valid() && DrawInBounds(idx, n) && h < n && mem == memory[..]
      requires Blitted(g0, mem, v0, vx, vy, n, 8 * h)
      modifies v, gfx
      ensures Blitted(g0, mem, v0, vx, vy, n, 8 * h + 8)
    {
      var spriteByte := memory[idx + h];
      for w := 0 to 8
        invariant Blitted(g0, mem, v0, vx, vy, n, 8 * h + w)
      {
        DrawPixel(g0, mem, v0, spriteByte, vx, vy, n, h, w);
      }
    }

    method Draw(x: Nibble, y: Nibble, n: Nibble)
      requires Valid() && DrawInBounds(idx, n)
      modifies v, gfx
      ensures State() == Chip8Semantics.Draw(old(State()), x, y, n)
    {
      ghost var g0: Gfx := gfx[..];
      ghost var mem: Memory := memory[..];
      ghost var v0: RegisterFile := v[..];
      var vx := GetRegister(x);
      var vy := GetRegister(y);
      SetRegister(FlagRegister, 0);
      for h := 0 to n
        invariant Blitted(g0, mem, v0, vx, vy, n, 8 * h)
      {
        DrawRow(g0, mem, v0, vx, vy, n, h);
      }
      BlitIsDraw(g0, mem, idx, vx, vy, n);
      assert gfx[..] == DrawGfx(g0, mem, idx, vx, vy, n);
      assert v[..] == v0[FlagRegister := if Collides(g0, mem, idx, vx, vy, n) then 1 else 0];
    }

    method Handle0Code(b: bv8)
      requires Valid() && (b == 0xEE ==> sp < StackSize)
      modifies this, gfx, stack
      ensures State() == Chip8Semantics.Handle0Code(old(State()), b)
    {
      if b == 0xE0 {
        forall i | 0 <= i < gfx.Length {
          gfx[i] := false;
        }
        assert gfx[..] == Blank();
      } else if b == 0xEE {
        PopStack();
      }
    }

    /** The cases 0xB and 0xD of the switch in `DecodeInstruction`: the C case
        0xB sets pc and, having no `break`, runs on into the Draw of case
        0xD. */
    method DecodeDraw(ins: Instruction)
      requires Valid() && (OpClass(ins) == 0xB || OpClass(ins) == 0xD) && DecodeDefined(State(), ins)
      modifies this, v, gfx
      ensures State() == Decode(old(State()), ins)
    {
      var nnn, x, y, n := Address(ins), XNibble(ins), YNibble(ins), NNibble(ins);
      if OpClass(ins) == 0xB {
        var v0 := GetRegister(0);
        pc := OffsetTarget(v0, nnn);
      }
      Draw(x, y, n);
    }

    /** The switch on the top nibble; classes 8, C, E and F have no case. */
    method DecodeInstruction(ins: Instruction)
      requires Valid() && DecodeDefined(State(), ins)
      modifies this, v, gfx, stack
      ensures State() == Decode(old(State()), ins)
    {
      var nnn, x, y, n, nn := Address(ins), XNibble(ins), YNibble(ins), NNibble(ins), ins.byte2;
      NarrowedOperandIsSecondByte(ins);
      match OpClass(ins)
      case 0 =>
        Handle0Code(LowByte(nnn));
      case 1 =>
        JumpToNNN(nnn);
      case 2 =>
        PushToStack(pc);
        JumpToNNN(nnn);
      case 3 =>
        var vxValue := GetRegister(x);
        if vxValue == nn {
          SkipInstruction();
        }
      case 4 =>
        var vxValue := GetRegister(x);
        if vxValue != nn {
          SkipInstruction();
        }
      case 5 =>
        var vxValue := GetRegister(x);
        var vyValue := GetRegister(y);
        if vxValue == vyValue {
          SkipInstruction();
        }
      case 6 =>
        SetRegister(x, nn);
      case 7 =>
        var vxValue := GetRegister(x);
        SetRegister(x, AddByte(vxValue, nn));
      case 9 =>
        var vxValue := GetRegister(x);
        var vyValue := GetRegister(y);
        if vxValue != vyValue {
          SkipInstruction();
        }
      case 0xA =>
        idx := nnn;
      case 0xB | 0xD =>
        DecodeDraw(ins);
      case _ =>
    }

    /** One fetch-decode cycle; the trace line the C code prints is not
        modelled. */
    method SimulateCycle()
      requires Valid() && StepDefined(State())
      modifies this, v, gfx, stack
      ensures State() == Step(old(State()))
    {
      var nextInstruction := FetchNextInstruction();
      if !nextInstruction.isValid {
        return;
      }
      DecodeInstruction(nextInstruction);
    }

    method LoadFontDataChip8()
      requires Valid()
      modifies memory
      ensures State() == LoadFont(old(State()))
    {
      forall i | 0 <= i < |FontData| {
        memory[i] := FontData[i];
      }
      assert memory[..] == FontData + old(memory[..])[|FontData|..];
    }

    /** The file read by `LoadFileData` is the parameter: None when it could
        not be read, otherwise its bytes. */
    method LoadGameIntoMemory(file: Option<seq<bv8>>) returns (status: int)
      requires Valid() && (file.Some? ==> |file.value| <= RomCapacity)
      modifies this, memory
      ensures file.None? ==> status == 1 && State() == old(State())
      ensures file.Some? ==> status == 0 && State() == LoadGame(old(State()), file.value)
    {
      if file.None? {
        return 1;
      }
      var rom := file.value;
      LoadFontDataChip8();
      ghost var fonted := memory[..];
      forall i | 0 <= i < |rom| {
        memory[ProgramStart + i] := rom[i];
      }
      assert memory[..] == fonted[..ProgramStart] + rom + fonted[ProgramStart + |rom|..];
      pc := ProgramStart;
      return 0;
    }

    /** A copy of the frame buffer for the host. */
    method GetChipGFX() returns (g: Gfx)
      requires Valid()
      ensures g == State().gfx
    {
      g := gfx[..];
    }
  }
}
