/** The CHIP-8 virtual CPU of src/chip8/chip8.c as values: the emulator state
    record is the datatype `Machine`, and each operation of the C file is a
    function from the old state to the new one. The class in chip8.dfy runs
    the same operations in place and is proved against these functions; the
    lemmas here state what the operations promise.

    Out-of-bounds accesses of the C code are not given a policy: each one is
    excluded by a precondition (`StepDefined`, `DrawInBounds`, `sp < StackSize`,
    the ROM size bound). */
module Chip8Semantics {
  import opened Chip8Header

  /** `uint16_t` */
  type u16 = x: int | 0 <= x < 0x1_0000

  type Memory = s: seq<bv8> | |s| == MemorySize witness seq(MemorySize, _ => 0)
  type RegisterFile = s: seq<bv8> | |s| == Registers witness seq(Registers, _ => 0)
  type KeyState = s: seq<bv8> | |s| == Inputs witness seq(Inputs, _ => 0)
  type ReturnStack = s: seq<u16> | |s| == StackSize witness seq(StackSize, _ => 0)

  /** Where programs are loaded and where execution starts. */
  const ProgramStart: nat := 512
  /** V15 doubles as the collision flag of Draw. */
  const FlagRegister: Nibble := 15

  datatype Option<T> = None | Some(value: T)

  /** The emulator state record `CHIP8`. `key`, `delayTimer` and `soundTimer`
      are part of the record but no operation reads or writes them. */
  datatype Machine = Machine(
    memory: Memory,
    v: RegisterFile,
    key: KeyState,
    gfx: Gfx,
    delayTimer: bv8,
    soundTimer: bv8,
    idx: u16,
    pc: u16,
    stack: ReturnStack,
    sp: u16)

  /** The zero-initialised global `EmulatorState`. */
  function Zero(): Machine
  {
    Machine(seq(MemorySize, _ => 0), seq(Registers, _ => 0), seq(Inputs, _ => 0),
            seq(PixelCount, _ => false), 0, 0, 0, 0, seq(StackSize, _ => 0), 0)
  }

  /** An all-dark frame buffer. */
  function Blank(): Gfx
  {
    seq(PixelCount, _ => false)
  }

  // ---------------------------------------------------------------------
  // Instructions and their fields

  /** `CHIP8_INSTRUCTION`: the two fetched bytes and whether the fetch happened. */
  datatype Instruction = Instruction(byte1: bv8, byte2: bv8, isValid: bool)

  /** The top nibble, which selects the instruction family. */
  function OpClass(ins: Instruction): (c: nat)
    ensures c < 16
  {
    (ins.byte1 >> 4) as nat
  }

  /** The 12-bit operand NNN. */
  function Address(ins: Instruction): (a: u16)
    ensures a < MemorySize
  {
    ((((ins.byte1 & 0x0F) as bv16) << 8) | ins.byte2 as bv16) as int
  }

  function XNibble(ins: Instruction): Nibble
  {
    (ins.byte1 & 0x0F) as nat
  }

  function YNibble(ins: Instruction): Nibble
  {
    (ins.byte2 >> 4) as nat
  }

  function NNibble(ins: Instruction): Nibble
  {
    (ins.byte2 & 0x0F) as nat
  }

  lemma HighNibbleValue(b: bv8)
    ensures (b >> 4) as int == b as int / 16
  {
  }

  lemma LowNibbleValue(b: bv8)
    ensures (b & 0x0F) as int == b as int % 16
  {
  }

  lemma AddressValue(ins: Instruction)
    ensures Address(ins) == (ins.byte1 & 0x0F) as int * 256 + ins.byte2 as int
  {
  }

  /** The decoded fields put back together give the instruction word: class
      and X make up the first byte, Y and N the second, and NNN is X followed
      by the second byte. So nothing of the word is lost by decoding. */
  lemma DecodeFieldsReassemble(ins: Instruction)
    ensures ins.byte1 as int == OpClass(ins) * 16 + XNibble(ins)
    ensures ins.byte2 as int == YNibble(ins) * 16 + NNibble(ins)
    ensures Address(ins) == XNibble(ins) * 256 + ins.byte2 as int
  {
    HighNibbleValue(ins.byte1);
    LowNibbleValue(ins.byte1);
    HighNibbleValue(ins.byte2);
    LowNibbleValue(ins.byte2);
    AddressValue(ins);
  }

  lemma ByteRoundTrip(b: bv8)
    ensures (b as int) as bv8 == b
  {
  }

  /** Conversion of a `uint16_t` to a `uint8_t`: its low byte. */
  function LowByte(a: u16): bv8
  {
    (a % 256) as bv8
  }

  /** `uint8_t` addition: the sum wraps around modulo 256. */
  function AddByte(a: bv8, b: bv8): bv8
  {
    a + b
  }

  /** `Handle0Code` takes a `uint8_t`, so NNN is narrowed to its low byte:
      the X nibble of a class-0 word is dropped and only the second byte
      selects the operation. */
  lemma NarrowedOperandIsSecondByte(ins: Instruction)
    ensures LowByte(Address(ins)) == ins.byte2
  {
    DecodeFieldsReassemble(ins);
    assert Address(ins) % 256 == ins.byte2 as int;
    ByteRoundTrip(ins.byte2);
  }

  // ---------------------------------------------------------------------
  // Program counter and fetch

  /** `SkipInstruction`: pc += 2 on a 16-bit counter. */
  function Skip(m: Machine): (r: Machine)
    ensures r == m.(pc := r.pc)
    ensures (r.pc - m.pc) % 0x1_0000 == 2
  {
    m.(pc := (m.pc + 2) % 0x1_0000)
  }

  /** `FetchNextInstruction`. The guard lets pc == 4095 through, and that
      fetch reads memory[4096]; the precondition excludes it. */
  function Fetch(m: Machine): (r: (Instruction, Machine))
    requires m.pc != MemorySize - 1
    ensures r.0.isValid <==> m.pc < MemorySize - 1
    ensures r.0.isValid ==> r.0 == Current(m) && r.1 == m.(pc := m.pc + 2)
    ensures !r.0.isValid ==> r.1 == m
  {
    if m.pc + 1 > MemorySize then (Instruction(0, 0, false), m)
    else (Instruction(m.memory[m.pc], m.memory[m.pc + 1], true), Skip(m))
  }

  /** The instruction word stored at pc. */
  function Current(m: Machine): Instruction
    requires m.pc < MemorySize - 1
  {
    Instruction(m.memory[m.pc], m.memory[m.pc + 1], true)
  }

  /** `JumpToNNN` */
  function Jump(m: Machine, target: u16): (r: Machine)
    ensures r.pc == target
    ensures r.(pc := m.pc) == m
  {
    m.(pc := target)
  }

  // ---------------------------------------------------------------------
  // Return stack

  /** `PushToStack`: stores at stack[sp] and then increments sp; a push at
      sp == 16 would write stack[16]. */
  function Push(m: Machine, a: u16): (r: Machine)
    requires m.sp < StackSize
    ensures r.stack[m.sp] == a && r.sp == m.sp + 1
    ensures forall i :: 0 <= i < StackSize && i != m.sp ==> r.stack[i] == m.stack[i]
    ensures r.(stack := m.stack, sp := m.sp) == m
  {
    m.(stack := m.stack[m.sp := a], sp := m.sp + 1)
  }

  /** `PopStack`: jumps to stack[sp] (not stack[sp - 1]), zeroes that slot and
      decrements the 16-bit sp, which wraps to 65535 from 0. A pop at
      sp == 16 would read stack[16]. */
  function Pop(m: Machine): (r: Machine)
    requires m.sp < StackSize
    ensures r.pc == m.stack[m.sp] && r.stack[m.sp] == 0
    ensures (r.sp + 1) % 0x1_0000 == m.sp
    ensures forall i :: 0 <= i < StackSize && i != m.sp ==> r.stack[i] == m.stack[i]
    ensures r.(pc := m.pc, stack := m.stack, sp := m.sp) == m
  {
    Jump(m, m.stack[m.sp]).(stack := m.stack[m.sp := 0], sp := (m.sp - 1) % 0x1_0000)
  }

  // ---------------------------------------------------------------------
  // Registers

  /** `SetRegister`: Vx := b. */
  function SetRegister(m: Machine, x: Nibble, b: bv8): (r: Machine)
    ensures r.v[x] == b
    ensures forall i :: 0 <= i < Registers && i != x ==> r.v[i] == m.v[i]
    ensures r.(v := m.v) == m
  {
    m.(v := m.v[x := b])
  }

  // ---------------------------------------------------------------------
  // Draw

  /** Bit w of a sprite row counted from the most significant bit. */
  predicate SpriteBit(b: bv8, w: nat)
    requires w < 8
  {
    (b >> (7 - w)) & 1 == 1
  }

  /** The masked shift of the C loop is 0 exactly when the bit is clear. */
  lemma SpritePixelIsBit(b: bv8, w: nat)
    requires w < 8
    ensures ((b >> (7 - w)) & 1 == 0) == !SpriteBit(b, w)
  {
  }

  /** Draw reads memory[idx + h] for h < n with no bounds check. */
  predicate DrawInBounds(idx: u16, n: nat)
  {
    n == 0 || idx + n <= MemorySize
  }

  /** Where sprite bit (h, w) lands when the sprite is placed at (vx, vy):
      x wraps modulo the width, y modulo the height. */
  function DrawIndex(vx: bv8, vy: bv8, h: nat, w: nat): (p: nat)
    ensures p < PixelCount
  {
    ScreenIndexRoundTrip((vx as int + w) % ScreenWidth, (vy as int + h) % ScreenHeight);
    Convert2DTo1D((vx as int + w) % ScreenWidth, (vy as int + h) % ScreenHeight, ScreenWidth)
  }

  /** The sprite row that would land on frame-buffer cell p. */
  function RowOf(vy: bv8, p: nat): nat
  {
    (p / ScreenWidth - vy as int) % ScreenHeight
  }

  /** The sprite column that would land on frame-buffer cell p. */
  function ColOf(vx: bv8, p: nat): nat
  {
    (p % ScreenWidth - vx as int) % ScreenWidth
  }

  /** Cell p is flipped by the draw: its sprite position lies inside the
      n-row, 8-column sprite and that sprite bit is 1. */
  predicate Toggled(mem: Memory, idx: u16, vx: bv8, vy: bv8, n: nat, p: nat)
    requires DrawInBounds(idx, n)
  {
    RowOf(vy, p) < n && ColOf(vx, p) < 8 && SpriteBit(mem[idx + RowOf(vy, p)], ColOf(vx, p))
  }

  /** The frame buffer after an XOR blit. */
  function DrawGfx(g: Gfx, mem: Memory, idx: u16, vx: bv8, vy: bv8, n: nat): Gfx
    requires DrawInBounds(idx, n)
  {
    seq(PixelCount, p requires 0 <= p < PixelCount => g[p] != Toggled(mem, idx, vx, vy, n, p))
  }

  /** Some flipped cell was lit before the blit. */
  predicate Collides(g: Gfx, mem: Memory, idx: u16, vx: bv8, vy: bv8, n: nat)
    requires DrawInBounds(idx, n)
  {
    exists p :: 0 <= p < PixelCount && Toggled(mem, idx, vx, vy, n, p) && g[p]
  }

  /** `Draw(X, Y, N)`: Vx and Vy are read before V15 is reset, then the sprite
      at memory[idx..idx + n) is XOR-ed onto the screen and V15 reports a
      collision. */
  function Draw(m: Machine, x: Nibble, y: Nibble, n: Nibble): (r: Machine)
    requires DrawInBounds(m.idx, n)
    ensures r.(gfx := m.gfx, v := m.v) == m
    ensures forall i :: 0 <= i < Registers && i != FlagRegister ==> r.v[i] == m.v[i]
    ensures r.v[FlagRegister] == 0 || r.v[FlagRegister] == 1
  {
    var vx, vy := m.v[x], m.v[y];
    m.(gfx := DrawGfx(m.gfx, m.memory, m.idx, vx, vy, n),
       v := m.v[FlagRegister := if Collides(m.gfx, m.memory, m.idx, vx, vy, n) then 1 else 0])
  }

  /** Cell p is where the sprite bit (RowOf(p), ColOf(p)) lands. */
  // `{:induction false}` here and on `RowColOfDrawIndex` only keeps Dafny
  // from trying induction on the `nat` parameters, which costs solver time;
  // neither proof is inductive.
  lemma {:induction false} DrawIndexOfRowCol(vx: bv8, vy: bv8, p: nat)
    requires p < PixelCount
    ensures DrawIndex(vx, vy, RowOf(vy, p), ColOf(vx, p)) == p
  {
    RewrapRow(vy as int, p / ScreenWidth);
    RewrapColumn(vx as int, p % ScreenWidth);
    ScreenIndexOnto(p);
  }

  /** Adding the start row back to a row offset gives the row again. */
  lemma RewrapRow(a: int, t: int)
    requires 0 <= t < ScreenHeight
    ensures (a + (t - a) % ScreenHeight) % ScreenHeight == t
  {
  }

  /** Adding the start column back to a column offset gives the column again. */
  lemma RewrapColumn(a: int, t: int)
    requires 0 <= t < ScreenWidth
    ensures (a + (t - a) % ScreenWidth) % ScreenWidth == t
  {
  }

  /** An on-screen sprite position (h, w) is recovered from the cell it lands on. */
  lemma {:induction false} RowColOfDrawIndex(vx: bv8, vy: bv8, h: nat, w: nat)
    requires h < ScreenHeight && w < ScreenWidth
    ensures RowOf(vy, DrawIndex(vx, vy, h, w)) == h
    ensures ColOf(vx, DrawIndex(vx, vy, h, w)) == w
  {
    var cx, cy := (vx as int + w) % ScreenWidth, (vy as int + h) % ScreenHeight;
    ScreenIndexRoundTrip(cx, cy);
    UnwrapRow(vy as int, h);
    UnwrapColumn(vx as int, w);
  }

  /** Subtracting the start row undoes the vertical wrap. */
  lemma UnwrapRow(a: int, h: int)
    requires 0 <= h < ScreenHeight
    ensures ((a + h) % ScreenHeight - a) % ScreenHeight == h
  {
  }

  /** Subtracting the start column undoes the horizontal wrap. */
  lemma UnwrapColumn(a: int, w: int)
    requires 0 <= w < ScreenWidth
    ensures ((a + w) % ScreenWidth - a) % ScreenWidth == w
  {
  }

  /** Cell p receives sprite bit (h, w) exactly when (h, w) is p's preimage. */
  lemma SameCell(vx: bv8, vy: bv8, h: nat, w: nat, p: nat)
    requires h < ScreenHeight && w < ScreenWidth && p < PixelCount
    ensures p == DrawIndex(vx, vy, h, w) <==> RowOf(vy, p) == h && ColOf(vx, p) == w
  {
    RowColOfDrawIndex(vx, vy, h, w);
    DrawIndexOfRowCol(vx, vy, p);
  }

  /** The screen and collision flag after the loops of `Draw` have handled the
      first k sprite bits: row by row, and in a row from the most significant
      bit. Each flip reads the cell as the earlier flips left it, as the C
      code does. */
  function Blit(g: Gfx, mem: Memory, idx: u16, vx: bv8, vy: bv8, n: Nibble, k: nat): (Gfx, bool)
    requires DrawInBounds(idx, n) && k <= 8 * n
  {
    if k == 0 then (g, false)
    else
      var (screen, hit) := Blit(g, mem, idx, vx, vy, n, k - 1);
      var h, w := (k - 1) / 8, (k - 1) % 8;
      if SpriteBit(mem[idx + h], w) then
        var q := DrawIndex(vx, vy, h, w);
        (screen[q := !screen[q]], hit || screen[q])
      else (screen, hit)
  }

  /** Handling bit w of row h after the bits before it. */
  lemma BlitStep(g: Gfx, mem: Memory, idx: u16, vx: bv8, vy: bv8, n: Nibble, h: nat, w: nat)
    requires DrawInBounds(idx, n) && h < n && w < 8
    ensures var (screen, hit) := Blit(g, mem, idx, vx, vy, n, 8 * h + w);
      var q := DrawIndex(vx, vy, h, w);
      Blit(g, mem, idx, vx, vy, n, 8 * h + w + 1) ==
        if SpriteBit(mem[idx + h], w) then (screen[q := !screen[q]], hit || screen[q]) else (screen, hit)
  {
    assert (8 * h + w) / 8 == h && (8 * h + w) % 8 == w;
  }

  /** `BlitStep` cell by cell: bit w of row h changes at most its own cell. */
  lemma BlitStepCell(g: Gfx, mem: Memory, idx: u16, vx: bv8, vy: bv8, n: Nibble, h: nat, w: nat, p: nat)
    requires DrawInBounds(idx, n) && h < n && w < 8 && p < PixelCount
    ensures Blit(g, mem, idx, vx, vy, n, 8 * h + w + 1).0[p] ==
      (Blit(g, mem, idx, vx, vy, n, 8 * h + w).0[p] != (SpriteBit(mem[idx + h], w) && p == DrawIndex(vx, vy, h, w)))
  {
    BlitStep(g, mem, idx, vx, vy, n, h, w);
  }

  /** Cell p is flipped by one of the first k sprite bits. */
  predicate FlippedBefore(mem: Memory, idx: u16, vx: bv8, vy: bv8, n: Nibble, k: nat, p: nat)
    requires DrawInBounds(idx, n)
  {
    Toggled(mem, idx, vx, vy, n, p) && 8 * RowOf(vy, p) + ColOf(vx, p) < k
  }

  /** Bit w of sprite row h adds to the flipped cells at most its own cell. */
  lemma StepCell(mem: Memory, idx: u16, vx: bv8, vy: bv8, n: Nibble, h: nat, w: nat, p: nat)
    requires DrawInBounds(idx, n) && h < n && w < 8 && p < PixelCount
    ensures FlippedBefore(mem, idx, vx, vy, n, 8 * h + w + 1, p) ==
      (FlippedBefore(mem, idx, vx, vy, n, 8 * h + w, p) ||
       (SpriteBit(mem[idx + h], w) && p == DrawIndex(vx, vy, h, w)))
  {
    SameCell(vx, vy, h, w, p);
    var r, c := RowOf(vy, p), ColOf(vx, p);
    if r == h && c == w {
      assert Toggled(mem, idx, vx, vy, n, p) == SpriteBit(mem[idx + h], w);
    } else if Toggled(mem, idx, vx, vy, n, p) {
      if 8 * r + c == 8 * h + w {
        PositionUnique(r, c, h, w);
      }
    }
  }

  /** Row-major positions in an 8-wide sprite are unique. */
  lemma PositionUnique(r: int, c: int, h: int, w: int)
    requires 0 <= c < 8 && 0 <= w < 8 && 8 * r + c == 8 * h + w
    ensures r == h && c == w
  {
  }

  /** No bit before bit w of row h lands on that bit's cell. */
  lemma StepCellFresh(mem: Memory, idx: u16, vx: bv8, vy: bv8, n: Nibble, h: nat, w: nat)
    requires DrawInBounds(idx, n) && h < n && w < 8
    ensures !FlippedBefore(mem, idx, vx, vy, n, 8 * h + w, DrawIndex(vx, vy, h, w))
  {
    RowColOfDrawIndex(vx, vy, h, w);
  }

  /** After k sprite bits, the loops have flipped exactly the cells
      FlippedBefore(k). */
  lemma {:induction false} BlitScreen(g: Gfx, mem: Memory, idx: u16, vx: bv8, vy: bv8, n: Nibble, k: nat)
    requires DrawInBounds(idx, n) && k <= 8 * n
    ensures forall p :: 0 <= p < PixelCount ==>
      Blit(g, mem, idx, vx, vy, n, k).0[p] == (g[p] != FlippedBefore(mem, idx, vx, vy, n, k, p))
  {
    if k > 0 {
      var h, w := (k - 1) / 8, (k - 1) % 8;
      assert k - 1 == 8 * h + w;
      BlitScreen(g, mem, idx, vx, vy, n, 8 * h + w);
      StepCellFresh(mem, idx, vx, vy, n, h, w);
      forall p | 0 <= p < PixelCount
        ensures Blit(g, mem, idx, vx, vy, n, k).0[p] == (g[p] != FlippedBefore(mem, idx, vx, vy, n, k, p))
      {
        BlitStepCell(g, mem, idx, vx, vy, n, h, w, p);
        StepCell(mem, idx, vx, vy, n, h, w, p);
      }
    }
  }

  /** After k sprite bits, the flag says whether one of the cells flipped so
      far was lit before the draw. */
  lemma {:induction false} BlitFlag(g: Gfx, mem: Memory, idx: u16, vx: bv8, vy: bv8, n: Nibble, k: nat)
    requires DrawInBounds(idx, n) && k <= 8 * n
    ensures Blit(g, mem, idx, vx, vy, n, k).1 ==
      exists p :: 0 <= p < PixelCount && FlippedBefore(mem, idx, vx, vy, n, k, p) && g[p]
  {
    if k > 0 {
      var h, w := (k - 1) / 8, (k - 1) % 8;
      var j := 8 * h + w;
      assert k - 1 == j;
      BlitFlag(g, mem, idx, vx, vy, n, j);
      BlitScreen(g, mem, idx, vx, vy, n, j);
      BlitStep(g, mem, idx, vx, vy, n, h, w);
      StepCellFresh(mem, idx, vx, vy, n, h, w);
      var q := DrawIndex(vx, vy, h, w);
      var newHit := SpriteBit(mem[idx + h], w) && g[q];
      assert Blit(g, mem, idx, vx, vy, n, j).0[q] == g[q];
      if exists p :: 0 <= p < PixelCount && FlippedBefore(mem, idx, vx, vy, n, k, p) && g[p] {
        var p :| 0 <= p < PixelCount && FlippedBefore(mem, idx, vx, vy, n, k, p) && g[p];
        StepCell(mem, idx, vx, vy, n, h, w, p);
      }
      if Blit(g, mem, idx, vx, vy, n, j).1 {
        var p :| 0 <= p < PixelCount && FlippedBefore(mem, idx, vx, vy, n, j, p) && g[p];
        StepCell(mem, idx, vx, vy, n, h, w, p);
      }
      if newHit {
        StepCell(mem, idx, vx, vy, n, h, w, q);
      }
    }
  }

  /** The C loops compute the closed-form blit: the screen `DrawGfx` and the
      flag `Collides`. */
  lemma BlitIsDraw(g: Gfx, mem: Memory, idx: u16, vx: bv8, vy: bv8, n: Nibble)
    requires DrawInBounds(idx, n)
    ensures Blit(g, mem, idx, vx, vy, n, 8 * n).0 == DrawGfx(g, mem, idx, vx, vy, n)
    ensures Blit(g, mem, idx, vx, vy, n, 8 * n).1 == Collides(g, mem, idx, vx, vy, n)
  {
    BlitScreen(g, mem, idx, vx, vy, n, 8 * n);
    BlitFlag(g, mem, idx, vx, vy, n, 8 * n);
    forall p | 0 <= p < PixelCount
      ensures FlippedBefore(mem, idx, vx, vy, n, 8 * n, p) == Toggled(mem, idx, vx, vy, n, p)
    {
    }
  }

  // ---------------------------------------------------------------------
  // Decode and the cycle

  /** The target of `BNNN`: V0 + NNN, which stays below 4096 + 256 and so
      never wraps the 16-bit pc. */
  function OffsetTarget(v0: bv8, nnn: u16): (t: u16)
    requires nnn < MemorySize
    ensures t < MemorySize + 256
  {
    v0 as int + nnn
  }

  /** `Handle0Code`: E0 clears the screen, EE returns, anything else is ignored. */
  function Handle0Code(m: Machine, b: bv8): (r: Machine)
    requires b == 0xEE ==> m.sp < StackSize
    ensures r.memory == m.memory && r.v == m.v && r.idx == m.idx
    ensures b == 0xE0 ==> r.(gfx := m.gfx) == m && forall p :: 0 <= p < PixelCount ==> !r.gfx[p]
    ensures b == 0xEE ==> r.gfx == m.gfx && r.pc == m.stack[m.sp] && (r.sp + 1) % 0x1_0000 == m.sp
    ensures b != 0xE0 && b != 0xEE ==> r == m
  {
    if b == 0xE0 then m.(gfx := Blank())
    else if b == 0xEE then Pop(m)
    else m
  }

  /** The C accesses made by `DecodeInstruction` stay in bounds. */
  predicate DecodeDefined(m: Machine, ins: Instruction)
  {
    (OpClass(ins) == 0 && ins.byte2 == 0xEE ==> m.sp < StackSize) &&
    (OpClass(ins) == 2 ==> m.sp < StackSize) &&
    (OpClass(ins) == 0xB || OpClass(ins) == 0xD ==> DrawInBounds(m.idx, NNibble(ins)))
  }

  /** `DecodeInstruction`: the switch on the top nibble. Classes 8, C, E and F
      have no case; class B has no `break` and runs Draw after its jump. */
  function Decode(m: Machine, ins: Instruction): (r: Machine)
    requires DecodeDefined(m, ins)
    ensures OpClass(ins) in {8, 0xC, 0xE, 0xF} ==> r == m
  {
    var nnn, x, y, n, nn := Address(ins), XNibble(ins), YNibble(ins), NNibble(ins), ins.byte2;
    NarrowedOperandIsSecondByte(ins);
    match OpClass(ins)
    case 0 => Handle0Code(m, LowByte(nnn))
    case 1 => Jump(m, nnn)
    case 2 => Jump(Push(m, m.pc), nnn)
    case 3 => if m.v[x] == nn then Skip(m) else m
    case 4 => if m.v[x] != nn then Skip(m) else m
    case 5 => if m.v[x] == m.v[y] then Skip(m) else m
    case 6 => SetRegister(m, x, nn)
    case 7 => SetRegister(m, x, AddByte(m.v[x], nn))
    case 9 => if m.v[x] != m.v[y] then Skip(m) else m
    case 0xA => m.(idx := nnn)
    case 0xB => Draw(Jump(m, OffsetTarget(m.v[0], nnn)), x, y, n)
    case 0xD => Draw(m, x, y, n)
    case _ => m
  }

  /** No C access of one cycle goes out of bounds. */
  predicate StepDefined(m: Machine)
  {
    m.pc != MemorySize - 1 &&
    (m.pc < MemorySize - 1 ==> DecodeDefined(m, Current(m)))
  }

  /** `SimulateCycle`: fetch, and decode only if the fetch happened. */
  function Step(m: Machine): (r: Machine)
    requires StepDefined(m)
    ensures m.pc >= MemorySize ==> r == m
    ensures m.pc < MemorySize - 1 ==> r == Decode(m.(pc := m.pc + 2), Current(m))
  {
    var (ins, fetched) := Fetch(m);
    if !ins.isValid then m else Decode(fetched, ins)
  }

  // ---------------------------------------------------------------------
  // Loading

  /** The 16 hexadecimal digit glyphs, five rows each. */
  const FontData: seq<bv8> := [
    0xF0, 0x90, 0x90, 0x90, 0xF0, // 0
    0x20, 0x60, 0x20, 0x20, 0x70, // 1
    0xF0, 0x10, 0xF0, 0x80, 0xF0, // 2
    0xF0, 0x10, 0xF0, 0x10, 0xF0, // 3
    0x90, 0x90, 0xF0, 0x10, 0x10, // 4
    0xF0, 0x80, 0xF0, 0x10, 0xF0, // 5
    0xF0, 0x80, 0xF0, 0x90, 0xF0, // 6
    0xF0, 0x10, 0x20, 0x40, 0x40, // 7
    0xF0, 0x90, 0xF0, 0x90, 0xF0, // 8
    0xF0, 0x90, 0xF0, 0x10, 0xF0, // 9
    0xF0, 0x90, 0xF0, 0x90, 0x90, // A
    0xE0, 0x90, 0xE0, 0x90, 0xE0, // B
    0xF0, 0x80, 0x80, 0x80, 0xF0, // C
    0xE0, 0x90, 0x90, 0x90, 0xE0, // D
    0xF0, 0x80, 0xF0, 0x80, 0xF0, // E
    0xF0, 0x80, 0xF0, 0x80, 0x80  // F
  ]

  /** `LoadFontDataChip8`: memcpy of the glyphs to address 0. */
  function LoadFont(m: Machine): (r: Machine)
    ensures r.memory[..|FontData|] == FontData
    ensures r.memory[|FontData|..] == m.memory[|FontData|..]
    ensures r.(memory := m.memory) == m
  {
    m.(memory := FontData + m.memory[|FontData|..])
  }

  /** Space for a program image between ProgramStart and the end of memory. */
  const RomCapacity: nat := MemorySize - ProgramStart

  /** The copy part of `LoadGameIntoMemory`: font, then the image at
      ProgramStart, then pc := ProgramStart. The C code has no size check. */
  function LoadGame(m: Machine, rom: seq<bv8>): (r: Machine)
    requires |rom| <= RomCapacity
    ensures r.memory[..|FontData|] == FontData
    ensures r.memory[ProgramStart..ProgramStart + |rom|] == rom
    ensures r == m.(memory := r.memory, pc := ProgramStart)
  {
    var f := LoadFont(m);
    f.(memory := f.memory[..ProgramStart] + rom + f.memory[ProgramStart + |rom|..], pc := ProgramStart)
  }
}
