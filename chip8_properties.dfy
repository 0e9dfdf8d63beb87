/** What one cycle of the CPU does for each kind of instruction word, what a
    sprite blit does to the frame buffer and the flag register, and what
    loading a program leaves in memory. Every lemma is about the value model
    of Chip8Semantics, which the class in chip8.dfy is proved to follow. */
module Chip8Properties {
  import opened Chip8Header
  import opened Chip8Semantics

  // ---------------------------------------------------------------------
  // Fetch

  /** With pc at or beyond the end of memory the fetch fails and a cycle
      changes nothing at all. */
  lemma StepPastEndIsNoOp(m: Machine)
    requires m.pc >= MemorySize
    ensures StepDefined(m)
    ensures Step(m) == m
  {
  }

  /** Below the end, a cycle fetches the two bytes at pc and pc + 1, moves pc
      on by exactly 2 (which never wraps here), and decodes the word. */
  lemma StepFetchesWordAtPc(m: Machine)
    requires m.pc < MemorySize - 1 && StepDefined(m)
    ensures Fetch(m).0 == Instruction(m.memory[m.pc], m.memory[m.pc + 1], true)
    ensures Fetch(m).1 == m.(pc := m.pc + 2)
    ensures Step(m) == Decode(m.(pc := m.pc + 2), Current(m))
  {
  }

  // ---------------------------------------------------------------------
  // Class 0

  /** Any 0?E0 word clears every pixel (the X nibble is dropped before the
      byte reaches `Handle0Code`); only pc moves besides. */
  lemma ClearScreenWord(m: Machine)
    requires m.pc < MemorySize - 1 && OpClass(Current(m)) == 0 && m.memory[m.pc + 1] == 0xE0
    ensures StepDefined(m)
    ensures Step(m) == m.(pc := m.pc + 2, gfx := Blank())
    ensures forall p :: 0 <= p < PixelCount ==> !Step(m).gfx[p]
  {
    NarrowedOperandIsSecondByte(Current(m));
  }

  /** Any 0?EE word returns: pc := stack[sp] (the slot at sp itself), that
      slot is zeroed and sp goes down by one on 16 bits. */
  lemma ReturnWord(m: Machine)
    requires m.pc < MemorySize - 1 && OpClass(Current(m)) == 0 && m.memory[m.pc + 1] == 0xEE
    requires m.sp < StackSize
    ensures StepDefined(m)
    ensures Step(m) == m.(pc := m.stack[m.sp], stack := m.stack[m.sp := 0], sp := (m.sp - 1) % 0x1_0000)
  {
    NarrowedOperandIsSecondByte(Current(m));
  }

  /** A class-0 word whose low byte is neither E0 nor EE, and every word of
      classes 8, C, E and F, only moves pc past itself. */
  lemma IgnoredWords(m: Machine)
    requires m.pc < MemorySize - 1
    requires var ins := Current(m);
      (OpClass(ins) == 0 && ins.byte2 != 0xE0 && ins.byte2 != 0xEE) ||
      OpClass(ins) in {8, 0xC, 0xE, 0xF}
    ensures StepDefined(m)
    ensures Step(m) == m.(pc := m.pc + 2)
  {
    NarrowedOperandIsSecondByte(Current(m));
  }

  // ---------------------------------------------------------------------
  // Jumps, calls and returns

  /** 1NNN: pc := NNN and nothing else changes. */
  lemma JumpWord(m: Machine)
    requires m.pc < MemorySize - 1 && OpClass(Current(m)) == 1
    ensures StepDefined(m)
    ensures Step(m) == m.(pc := Address(Current(m)))
    ensures Step(m).pc == XNibble(Current(m)) * 256 + m.memory[m.pc + 1] as int
  {
    DecodeFieldsReassemble(Current(m));
  }

  /** 2NNN: the already advanced pc is saved at stack[sp], sp goes up by one
      and pc := NNN. */
  lemma CallWord(m: Machine)
    requires m.pc < MemorySize - 1 && OpClass(Current(m)) == 2 && m.sp < StackSize
    ensures StepDefined(m)
    ensures Step(m) == m.(stack := m.stack[m.sp := m.pc + 2], sp := m.sp + 1, pc := Address(Current(m)))
  {
  }

  /** A call followed by a return does not come back after the call: the
      return reads the slot above the saved address, so pc becomes whatever
      stack[sp + 1] held; sp is back where it was and the saved address stays
      behind in stack[sp]. */
  lemma CallThenReturn(m: Machine)
    requires m.pc < MemorySize - 1 && OpClass(Current(m)) == 2 && m.sp + 1 < StackSize
    requires var t := Address(Current(m));
      t < MemorySize - 1 && m.memory[t] >> 4 == 0 && m.memory[t + 1] == 0xEE
    ensures StepDefined(m) && StepDefined(Step(m))
    ensures Step(Step(m)).pc == m.stack[m.sp + 1]
    ensures Step(Step(m)).sp == m.sp
    ensures Step(Step(m)).stack[m.sp] == m.pc + 2
  {
    CallWord(m);
    var c := Step(m);
    assert Current(c) == Instruction(m.memory[Address(Current(m))], m.memory[Address(Current(m)) + 1], true);
    ReturnWord(c);
  }

  /** On a zeroed machine, a call at address 0 to a return at address 4
      comes back to address 0 rather than to 2. */
  lemma CallThenReturnOnFreshMachine()
    ensures var m := Zero().(memory := Zero().memory[0 := 0x20][1 := 0x04][5 := 0xEE]);
      StepDefined(m) && StepDefined(Step(m)) && Step(Step(m)).pc == 0
  {
    var m := Zero().(memory := Zero().memory[0 := 0x20][1 := 0x04][5 := 0xEE]);
    assert Current(m) == Instruction(0x20, 0x04, true);
    AddressValue(Current(m));
    CallThenReturn(m);
  }

  // ---------------------------------------------------------------------
  // Conditional skips

  /** 3XNN, 4XNN, 5XY? and 9XY? skip the next word (pc moves by 4 instead of
      2) exactly when Vx == NN, Vx != NN, Vx == Vy and Vx != Vy; nothing else
      changes and the N nibble of 5 and 9 plays no part. */
  lemma ConditionalSkips(m: Machine)
    requires m.pc < MemorySize - 1 && OpClass(Current(m)) in {3, 4, 5, 9}
    ensures StepDefined(m)
    ensures var ins := Current(m);
      var vx, vy := m.v[XNibble(ins)], m.v[YNibble(ins)];
      var skip :=
        if OpClass(ins) == 3 then vx == ins.byte2
        else if OpClass(ins) == 4 then vx != ins.byte2
        else if OpClass(ins) == 5 then vx == vy
        else vx != vy;
      Step(m) == m.(pc := if skip then m.pc + 4 else m.pc + 2)
  {
  }

  // ---------------------------------------------------------------------
  // Registers and the index register

  /** 6XNN: Vx := NN; only Vx and pc change. */
  lemma LoadImmediate(m: Machine)
    requires m.pc < MemorySize - 1 && OpClass(Current(m)) == 6
    ensures StepDefined(m)
    ensures Step(m) == m.(pc := m.pc + 2, v := m.v[XNibble(Current(m)) := m.memory[m.pc + 1]])
  {
  }

  /** 7XNN: Vx := Vx + NN on 8 bits, with no carry written to V15; only Vx
      and pc change. */
  lemma AddImmediate(m: Machine)
    requires m.pc < MemorySize - 1 && OpClass(Current(m)) == 7
    ensures StepDefined(m)
    ensures var x := XNibble(Current(m));
      Step(m) == m.(pc := m.pc + 2, v := m.v[x := AddByte(m.v[x], m.memory[m.pc + 1])])
  {
  }

  /** ANNN: I := NNN, which is always a valid memory address. */
  lemma SetIndex(m: Machine)
    requires m.pc < MemorySize - 1 && OpClass(Current(m)) == 0xA
    ensures StepDefined(m)
    ensures Step(m) == m.(pc := m.pc + 2, idx := Address(Current(m)))
    ensures Step(m).idx < MemorySize
  {
  }

  // ---------------------------------------------------------------------
  // Draw words

  /** DXYN runs the blit with pc already past the word. */
  lemma DrawWord(m: Machine)
    requires m.pc < MemorySize - 1 && OpClass(Current(m)) == 0xD && DrawInBounds(m.idx, NNibble(Current(m)))
    ensures StepDefined(m)
    ensures var ins := Current(m);
      Step(m) == Draw(m.(pc := m.pc + 2), XNibble(ins), YNibble(ins), NNibble(ins))
  {
  }

  /** BNNN sets pc := V0 + NNN and then, lacking a `break`, also runs the blit
      of DXYN with the same nibbles. */
  lemma JumpWithOffsetFallsIntoDraw(m: Machine)
    requires m.pc < MemorySize - 1 && OpClass(Current(m)) == 0xB && DrawInBounds(m.idx, NNibble(Current(m)))
    ensures StepDefined(m)
    ensures var ins := Current(m);
      Step(m) == Draw(m.(pc := m.v[0] as int + Address(ins)), XNibble(ins), YNibble(ins), NNibble(ins))
  {
  }

  // ---------------------------------------------------------------------
  // The blit

  /** Distinct sprite bits land on distinct cells: a sprite is at most 16
      rows by 8 columns and the screen 32 by 64, so wrapping never folds two
      bits onto one cell. */
  lemma DrawDestinationsDistinct(vx: bv8, vy: bv8, h1: nat, w1: nat, h2: nat, w2: nat)
    requires h1 < 16 && h2 < 16 && w1 < 8 && w2 < 8
    ensures DrawIndex(vx, vy, h1, w1) == DrawIndex(vx, vy, h2, w2) <==> h1 == h2 && w1 == w2
  {
    RowColOfDrawIndex(vx, vy, h1, w1);
    RowColOfDrawIndex(vx, vy, h2, w2);
  }

  /** Each set sprite bit (h, w) toggles the cell at
      ((Vy + h) % 32) * 64 + (Vx + w) % 64, with Vx and Vy read before V15 is
      reset; a clear bit leaves its cell alone. */
  lemma DrawTogglesSpriteCells(m: Machine, x: Nibble, y: Nibble, n: Nibble, h: nat, w: nat)
    requires DrawInBounds(m.idx, n) && h < n && w < 8
    ensures var q := Convert2DTo1D((m.v[x] as int + w) % ScreenWidth, (m.v[y] as int + h) % ScreenHeight, ScreenWidth);
      0 <= q < PixelCount &&
      Draw(m, x, y, n).gfx[q] == (m.gfx[q] != SpriteBit(m.memory[m.idx + h], w))
  {
    RowColOfDrawIndex(m.v[x], m.v[y], h, w);
  }

  /** A cell that no set sprite bit lands on keeps its colour. */
  lemma DrawLeavesOtherCells(m: Machine, x: Nibble, y: Nibble, n: Nibble, p: nat)
    requires DrawInBounds(m.idx, n) && p < PixelCount
    requires forall h, w :: 0 <= h < n && 0 <= w < 8 && SpriteBit(m.memory[m.idx + h], w) ==>
      DrawIndex(m.v[x], m.v[y], h, w) != p
    ensures Draw(m, x, y, n).gfx[p] == m.gfx[p]
  {
    DrawIndexOfRowCol(m.v[x], m.v[y], p);
  }

  /** V15 ends as 1 if some set sprite bit lands on a lit cell and as 0
      otherwise. */
  lemma DrawCollisionFlag(m: Machine, x: Nibble, y: Nibble, n: Nibble)
    requires DrawInBounds(m.idx, n)
    ensures var vx, vy := m.v[x], m.v[y];
      var hit := exists h, w :: 0 <= h < n && 0 <= w < 8 && SpriteBit(m.memory[m.idx + h], w) && m.gfx[DrawIndex(vx, vy, h, w)];
      Draw(m, x, y, n).v[FlagRegister] == if hit then 1 else 0
  {
    var vx, vy := m.v[x], m.v[y];
    assert Draw(m, x, y, n).v[FlagRegister] == if Collides(m.gfx, m.memory, m.idx, vx, vy, n) then 1 else 0;
    if Collides(m.gfx, m.memory, m.idx, vx, vy, n) {
      CollisionHasSpriteBit(m.gfx, m.memory, m.idx, vx, vy, n);
    }
    if exists h, w :: 0 <= h < n && 0 <= w < 8 && SpriteBit(m.memory[m.idx + h], w) && m.gfx[DrawIndex(vx, vy, h, w)] {
      var h, w :| 0 <= h < n && 0 <= w < 8 && SpriteBit(m.memory[m.idx + h], w) && m.gfx[DrawIndex(vx, vy, h, w)];
      SpriteBitCollides(m.gfx, m.memory, m.idx, vx, vy, n, h, w);
    }
  }

  /** A collision comes from a set sprite bit over a lit cell. */
  lemma CollisionHasSpriteBit(g: Gfx, mem: Memory, idx: u16, vx: bv8, vy: bv8, n: Nibble)
    requires DrawInBounds(idx, n) && Collides(g, mem, idx, vx, vy, n)
    ensures exists h, w :: 0 <= h < n && 0 <= w < 8 && SpriteBit(mem[idx + h], w) && g[DrawIndex(vx, vy, h, w)]
  {
    var p :| 0 <= p < PixelCount && Toggled(mem, idx, vx, vy, n, p) && g[p];
    DrawIndexOfRowCol(vx, vy, p);
    var h, w := RowOf(vy, p), ColOf(vx, p);
    assert SpriteBit(mem[idx + h], w) && g[DrawIndex(vx, vy, h, w)];
  }

  /** A set sprite bit over a lit cell is a collision. */
  lemma SpriteBitCollides(g: Gfx, mem: Memory, idx: u16, vx: bv8, vy: bv8, n: Nibble, h: nat, w: nat)
    requires DrawInBounds(idx, n) && h < n && w < 8 && SpriteBit(mem[idx + h], w) && g[DrawIndex(vx, vy, h, w)]
    ensures Collides(g, mem, idx, vx, vy, n)
  {
    RowColOfDrawIndex(vx, vy, h, w);
    assert Toggled(mem, idx, vx, vy, n, DrawIndex(vx, vy, h, w));
  }

  /** Drawing the same sprite twice, with neither coordinate register being
      V15, gives back the original frame buffer: XOR is self-inverse. */
  lemma DrawTwiceRestoresScreen(m: Machine, x: Nibble, y: Nibble, n: Nibble)
    requires DrawInBounds(m.idx, n) && x != FlagRegister && y != FlagRegister
    ensures Draw(Draw(m, x, y, n), x, y, n).gfx == m.gfx
  {
    var d := Draw(m, x, y, n);
    assert d.v[x] == m.v[x] && d.v[y] == m.v[y];
    var e := Draw(d, x, y, n);
    forall p | 0 <= p < PixelCount
      ensures e.gfx[p] == m.gfx[p]
    {
    }
  }

  /** On a second identical draw (neither coordinate register being V15),
      V15 becomes 1 exactly when the first draw lit some pixel, that is when
      some set sprite bit landed on a cell that was dark before both. */
  lemma DrawTwiceFlag(m: Machine, x: Nibble, y: Nibble, n: Nibble)
    requires DrawInBounds(m.idx, n) && x != FlagRegister && y != FlagRegister
    ensures var vx, vy := m.v[x], m.v[y];
      var litSome := exists h, w :: 0 <= h < n && 0 <= w < 8 && SpriteBit(m.memory[m.idx + h], w) && !m.gfx[DrawIndex(vx, vy, h, w)];
      Draw(Draw(m, x, y, n), x, y, n).v[FlagRegister] == if litSome then 1 else 0
  {
    var vx, vy := m.v[x], m.v[y];
    var d := Draw(m, x, y, n);
    assert d.v[x] == vx && d.v[y] == vy;
    DrawCollisionFlag(d, x, y, n);
    forall h, w | 0 <= h < n && 0 <= w < 8 && SpriteBit(m.memory[m.idx + h], w)
      ensures d.gfx[DrawIndex(vx, vy, h, w)] == !m.gfx[DrawIndex(vx, vy, h, w)]
    {
      DrawTogglesSpriteCells(m, x, y, n, h, w);
    }
  }

  // ---------------------------------------------------------------------
  // Loading

  /** Loading puts the 80 font bytes at 0..80, the program image at
      512..512 + |rom| and sets pc := 512; every other byte of memory, the
      registers, I, the stack, the timers and the screen stay as they were. */
  lemma LoadGamePlacesFontAndRom(m: Machine, rom: seq<bv8>)
    requires |rom| <= RomCapacity
    ensures var l := LoadGame(m, rom);
      l == m.(memory := l.memory, pc := ProgramStart) &&
      (forall i :: 0 <= i < |FontData| ==> l.memory[i] == FontData[i]) &&
      (forall i :: 0 <= i < |rom| ==> l.memory[ProgramStart + i] == rom[i]) &&
      (forall i :: |FontData| <= i < ProgramStart ==> l.memory[i] == m.memory[i]) &&
      (forall i :: ProgramStart + |rom| <= i < MemorySize ==> l.memory[i] == m.memory[i])
  {
    var l := LoadGame(m, rom);
    assert |FontData| == 80;
    forall i | 0 <= i < |rom|
      ensures l.memory[ProgramStart + i] == rom[i]
    {
    }
  }

  /** Loading the two-byte program 60 0A and running one cycle leaves 10 in
      V0 and pc at 514. */
  lemma LoadThenLoadImmediate(m: Machine)
    ensures var l := LoadGame(m, [0x60, 0x0A]);
      StepDefined(l) && Step(l).v[0] == 10 && Step(l).pc == ProgramStart + 2
  {
    var l := LoadGame(m, [0x60, 0x0A]);
    LoadGamePlacesFontAndRom(m, [0x60, 0x0A]);
    assert l.memory[ProgramStart] == 0x60 && l.memory[ProgramStart + 1] == 0x0A;
    assert Current(l) == Instruction(0x60, 0x0A, true);
    LoadImmediate(l);
  }
}
