# CHIP-8 virtual CPU in Dafny

A verified model of the CHIP-8 virtual CPU implemented by `src/chip8/chip8.c`
and sized by `include/chip8/chip8.h`. The C program keeps a single global state
record, `EmulatorState`. It holds 4096 bytes of memory, sixteen 8-bit V
registers, a 64 x 32 boolean frame buffer, the index register I, the program
counter and a 16-slot return stack with its stack pointer. `SimulateCycle`
fetches a two-byte word at pc, moves pc on by 2 and executes the word. The
font and program loaders fill memory. `Draw` XORs a sprite onto the screen
and reports collisions in V15.

The project has four modules:

- `Chip8Header` (`chip8_header.dfy`) holds the sizes from `chip8.h`, the
  frame-buffer type `Gfx` and `Convert2DTo1D`. The type `Nibble` is the type
  of the 4-bit instruction fields, and every nibble is a valid register and
  key index.
- `Chip8Semantics` (`chip8_semantics.dfy`) is the state as a value. The
  datatype `Machine` mirrors the C record: bytes are `bv8`, and the 16-bit
  counters are `u16`, with the C wrap-around written out. Each C operation is
  a function from the old state to the new one: `Skip`, `Fetch`, `Jump`,
  `Push`, `Pop`, `SetRegister`, `Draw`, `Handle0Code`, `Decode`, `Step`,
  `LoadFont` and `LoadGame`.
  - `Draw` is given in closed form. A cell p is flipped when the sprite bit
    `(RowOf(p), ColOf(p))` is inside the sprite and set. V15 is 1 when one of
    those cells was lit.
  - `Blit` is the fold that the C loops compute, bit by bit. `BlitIsDraw`
    proves that the fold and the closed form agree.
- `Chip8` (`chip8.dfy`) is the in-place program. The class `Emulator` has an
  array for each buffer of the record and a field for each scalar. Each method
  has the name of the C function it models and is proved to take `State()` to
  the matching function of `Chip8Semantics`. `Draw` keeps the nested `h`/`w`
  loops of the C code, split into `DrawRow` and `DrawPixel`. Its invariant is
  the fold `Blit`.
- `Chip8Properties` (`chip8_properties.dfy`) gives one lemma per instruction
  kind, stated about a whole cycle `Step`, plus the geometry and collision
  facts of the blit and the effect of loading.

The model keeps the behaviour of the C code, not that of textbook CHIP-8:

- `PopStack` reads `stack[sp]`, not `stack[sp - 1]`. So a call followed by a
  return does not come back after the call (`CallThenReturn`,
  `CallThenReturnOnFreshMachine`).
- `Handle0Code` receives the 12-bit operand narrowed to its low byte. Any
  `0?E0` word therefore clears the screen and any `0?EE` word returns.
- Case `0xB` has no `break` and runs on into the `Draw` of case `0xD`.
- Classes 8, C, E and F have no case, so they only move pc past the word.
- The sprite y coordinate wraps modulo the screen height (32). Sprite bits are
  read most significant first.
- Out-of-bounds accesses in the C code are not given a policy. Each one is a
  precondition:
  - the fetch at pc == 4095, which reads `memory[4096]`;
  - sprite reads past the end of memory (`DrawInBounds`);
  - a push or pop at sp == 16;
  - a program image longer than 3584 bytes.

  A pop at sp == 0 is defined: the 16-bit stack pointer wraps to 65535.

CHIP-8 as usually described is a fuller, more defensive machine than
`chip8.c` implements. Where the two differ, the model follows `chip8.c`:

- CHIP-8 has a full opcode table. The code has no case for 8XY?, EX??, FX??
  or CXNN.
- A return should come back to the word after the call. In the code it does
  not.
- Stack and address overflow should have a defined outcome. The code has
  none, so those inputs are excluded by preconditions.

## Model

| member | source | states |
|---|---|---|
| `Chip8Header.ScreenIndexRoundTrip` | src/chip8/chip8.c:190 | On the 64 x 32 screen the row-major index of a cell is below 2048, and dividing and reducing by the width gives the cell back. |
| `Chip8Header.ScreenIndexOnto` | src/chip8/chip8.c:190 | Every frame-buffer position p below 2048 is the index of the on-screen cell (p % 64, p / 64); with the round trip, cells and positions correspond one to one. |
| `Chip8Semantics.OpClass` | src/chip8/chip8.c:116 | The instruction class is the top nibble, a value below 16. |
| `Chip8Semantics.Address` | src/chip8/chip8.c:117 | NNN is a 12-bit value, always a valid memory address. |
| `Chip8Semantics.DecodeFieldsReassemble` | src/chip8/chip8.c:116-122 | Class and X give back the first byte, Y and N the second, and NNN is X followed by the second byte, so decoding loses nothing. |
| `Chip8Semantics.NarrowedOperandIsSecondByte` | src/chip8/chip8.c:124-127 | NNN narrowed to `uint8_t` for `Handle0Code` is exactly the second byte of the word. |
| `Chip8Semantics.Skip` | src/chip8/chip8.c:38 | Only pc changes, and it moves forward by 2 modulo 65536. |
| `Chip8Semantics.Fetch` | src/chip8/chip8.c:40-52 | The fetched word is valid exactly when pc is below 4095; then it is the bytes at pc and pc + 1 and pc moves on by 2, otherwise the machine is unchanged. pc == 4095, where the C guard lets a read of memory[4096] through, is excluded. |
| `Chip8Semantics.Jump` | src/chip8/chip8.c:54 | pc becomes the target and no other field changes. |
| `Chip8Semantics.Push` | src/chip8/chip8.c:56-59 | stack[sp] holds the address and sp grows by one; the other slots and every other field are unchanged. |
| `Chip8Semantics.Pop` | src/chip8/chip8.c:60-65 | pc becomes stack[sp] itself (not stack[sp - 1]), that slot becomes 0, and the new sp plus one is the old sp modulo 65536, so 0 wraps to 65535; the other slots and every other field are unchanged. |
| `Chip8Semantics.SetRegister` | src/chip8/chip8.c:67 | Vx becomes the byte; the other registers and every other field are unchanged. |
| `Chip8Semantics.Draw` | src/chip8/chip8.c:71-100 | A blit writes only the frame buffer and V15: memory, I, pc, the stack, the timers and the other registers keep their values, and V15 ends as 0 or 1. |
| `Chip8Semantics.Handle0Code` | src/chip8/chip8.c:102-112 | Memory, the registers and I are never touched; E0 makes every pixel dark and changes nothing else; EE sets pc := stack[sp] and lowers sp by one on 16 bits, leaving the screen alone; any other byte changes nothing. |
| `Chip8Semantics.Decode` | src/chip8/chip8.c:114-188 | A word of class 8, C, E or F has no case in the switch and leaves the machine unchanged. |
| `Chip8Semantics.Step` | src/chip8/chip8.c:237-247 | With pc at or past 4096 the machine is unchanged; below 4095 the result is `Decode` of the word at pc, applied with pc already advanced by 2. |
| `Chip8Semantics.LoadFont` | src/chip8/chip8.c:192-213 | memory[0..80) becomes the glyph table; the rest of memory and every other field are unchanged. |
| `Chip8Semantics.LoadGame` | src/chip8/chip8.c:217-235 | memory[0..80) holds the glyphs, memory[512..512 + len) the image, pc is 512, and only memory and pc differ from the old machine. |
| `Chip8Semantics.DrawIndex` | src/chip8/chip8.c:87-91 | The destination of sprite bit (h, w) is always a cell of the frame buffer. |
| `Chip8Semantics.DrawIndexOfRowCol` | src/chip8/chip8.c:87-91 | Every cell p is the destination of the sprite position (RowOf(p), ColOf(p)). |
| `Chip8Semantics.RowColOfDrawIndex` | src/chip8/chip8.c:87-91 | An on-screen sprite position is recovered from the cell it lands on. |
| `Chip8Semantics.SameCell` | src/chip8/chip8.c:87-91 | Cell p receives sprite bit (h, w) if and only if (h, w) is p's row and column offset. |
| `Chip8Semantics.BlitStep` | src/chip8/chip8.c:80-98 | One pass of the inner loop flips the destination of a set bit and ORs its old value into the flag; a clear bit changes nothing. |
| `Chip8Semantics.BlitStepCell` | src/chip8/chip8.c:80-98 | Cell by cell, one pass of the inner loop changes at most its own destination cell. |
| `Chip8Semantics.StepCell` | src/chip8/chip8.c:77-98 | The cells flipped after bit w of row h are those flipped before it plus that bit's cell if the bit is set. |
| `Chip8Semantics.StepCellFresh` | src/chip8/chip8.c:77-98 | No earlier bit of the loops has flipped the cell of the current bit. |
| `Chip8Semantics.BlitScreen` | src/chip8/chip8.c:77-98 | After any number of loop passes, each cell differs from the original exactly when one of the bits handled so far flipped it. |
| `Chip8Semantics.BlitFlag` | src/chip8/chip8.c:75-98 | After any number of loop passes, the flag is set exactly when a flipped cell was lit before the draw. |
| `Chip8Semantics.BlitIsDraw` | src/chip8/chip8.c:71-100 | The nested loops, as the fold `Blit` over the 8n sprite bits, compute the closed-form blit: screen `DrawGfx` and flag `Collides`. |
| `Chip8Semantics.OffsetTarget` | src/chip8/chip8.c:183 | V0 + NNN stays below 4096 + 256, so the 16-bit pc never wraps. |
| `Chip8.Emulator.constructor` | src/chip8/chip8.c:35 | A new emulator is the zero-initialised record, with fresh arrays. |
| `Chip8.Emulator.SkipInstruction` | src/chip8/chip8.c:38 | pc grows by 2 modulo 65536; nothing else changes. |
| `Chip8.Emulator.FetchNextInstruction` | src/chip8/chip8.c:40-52 | Returns the two bytes at pc and advances pc, or returns an invalid word and changes nothing when pc is at or past 4096. |
| `Chip8.Emulator.JumpToNNN` | src/chip8/chip8.c:54 | pc becomes the target; nothing else changes. |
| `Chip8.Emulator.PushToStack` | src/chip8/chip8.c:56-59 | The address is stored at stack[sp] and sp grows by one. |
| `Chip8.Emulator.PopStack` | src/chip8/chip8.c:60-65 | pc := stack[sp], that slot is zeroed and sp drops by one modulo 65536. |
| `Chip8.Emulator.SetRegister` | src/chip8/chip8.c:67 | Only Vx changes, to the given byte. |
| `Chip8.Emulator.GetRegister` | src/chip8/chip8.c:69 | Returns Vx and changes nothing. |
| `Chip8.Emulator.DrawPixel` | src/chip8/chip8.c:80-98 | One pass of the inner loop advances the screen and flag from fold step 8h + w to 8h + w + 1. |
| `Chip8.Emulator.DrawRow` | src/chip8/chip8.c:77-99 | One pass of the outer loop advances the screen and flag over the eight bits of sprite row h. |
| `Chip8.Emulator.Draw` | src/chip8/chip8.c:71-100 | The frame buffer becomes the XOR blit of the sprite at (Vx, Vy) and V15 the collision flag, with Vx and Vy read before V15 is reset. |
| `Chip8.Emulator.Handle0Code` | src/chip8/chip8.c:102-112 | E0 clears every pixel, EE pops the stack, and any other byte changes nothing. |
| `Chip8.Emulator.DecodeDraw` | src/chip8/chip8.c:182-186 | Case B sets pc := V0 + NNN and then draws; case D draws. |
| `Chip8.Emulator.DecodeInstruction` | src/chip8/chip8.c:114-188 | The state after executing a word is `Decode` of the old state, for every class. |
| `Chip8.Emulator.SimulateCycle` | src/chip8/chip8.c:237-247 | The state after one cycle is `Step` of the old state: fetch, then decode only if the fetch happened. |
| `Chip8.Emulator.LoadFontDataChip8` | src/chip8/chip8.c:192-213 | memory[0..80) becomes the font glyphs; the rest of the state is unchanged. |
| `Chip8.Emulator.LoadGameIntoMemory` | src/chip8/chip8.c:217-235 | An unreadable file gives status 1 and changes nothing; otherwise status is 0, the font and the image are copied and pc := 512. |
| `Chip8.Emulator.GetChipGFX` | src/chip8/chip8.c:215 | Returns a copy of the frame buffer as a value and changes nothing. |
| `Chip8Properties.StepPastEndIsNoOp` | src/chip8/chip8.c:237-242 | With pc at or past 4096 a cycle changes no state at all. |
| `Chip8Properties.StepFetchesWordAtPc` | src/chip8/chip8.c:40-52 | Below the end of memory a cycle reads memory[pc] and memory[pc + 1], advances pc by exactly 2 and decodes that word. |
| `Chip8Properties.ClearScreenWord` | src/chip8/chip8.c:102-107 | Any 0?E0 word sets all 2048 pixels to false; only pc moves besides. |
| `Chip8Properties.ReturnWord` | src/chip8/chip8.c:108-110 | Any 0?EE word sets pc := stack[sp], zeroes that slot and decrements sp; nothing else changes. |
| `Chip8Properties.IgnoredWords` | src/chip8/chip8.c:124-187 | Other class-0 words and all words of classes 8, C, E and F only move pc past the word. |
| `Chip8Properties.JumpWord` | src/chip8/chip8.c:128-131 | 1NNN sets pc := NNN, which is X * 256 plus the second byte, and changes nothing else. |
| `Chip8Properties.CallWord` | src/chip8/chip8.c:132-136 | 2NNN saves the advanced pc at stack[sp], increments sp and jumps to NNN. |
| `Chip8Properties.CallThenReturn` | src/chip8/chip8.c:61 | A call followed by a return sets pc to stack[sp + 1], not to the saved address, and restores sp. |
| `Chip8Properties.CallThenReturnOnFreshMachine` | src/chip8/chip8.c:132-136 | On a zeroed machine a call at 0 to a return at 4 comes back to 0, not to 2. |
| `Chip8Properties.ConditionalSkips` | src/chip8/chip8.c:137-178 | 3XNN, 4XNN, 5XY? and 9XY? add an extra 2 to pc exactly when Vx == NN, Vx != NN, Vx == Vy and Vx != Vy; nothing else changes. |
| `Chip8Properties.LoadImmediate` | src/chip8/chip8.c:161-163 | 6XNN sets Vx := NN; only Vx and pc change. |
| `Chip8Properties.AddImmediate` | src/chip8/chip8.c:164-168 | 7XNN sets Vx to the 8-bit wrapping sum Vx + NN with no flag written; only Vx and pc change. |
| `Chip8Properties.SetIndex` | src/chip8/chip8.c:179-181 | ANNN sets I := NNN, which is below 4096; only I and pc change. |
| `Chip8Properties.DrawWord` | src/chip8/chip8.c:184-186 | DXYN runs the blit with pc already past the word. |
| `Chip8Properties.JumpWithOffsetFallsIntoDraw` | src/chip8/chip8.c:182-185 | BNNN sets pc := V0 + NNN and then also runs the blit with the same nibbles. |
| `Chip8Properties.DrawDestinationsDistinct` | src/chip8/chip8.c:87-91 | Two sprite bits of a sprite at most 16 x 8 land on the same cell if and only if they are the same bit. |
| `Chip8Properties.DrawTogglesSpriteCells` | src/chip8/chip8.c:71-100 | Each sprite bit's cell ((Vy + h) % 32) * 64 + (Vx + w) % 64 is below 2048 and is toggled exactly when the bit is set. |
| `Chip8Properties.DrawLeavesOtherCells` | src/chip8/chip8.c:71-100 | A cell that no set sprite bit lands on keeps its colour. |
| `Chip8Properties.DrawCollisionFlag` | src/chip8/chip8.c:75-95 | V15 ends as 1 if some set sprite bit lands on a lit cell and as 0 otherwise. |
| `Chip8Properties.CollisionHasSpriteBit` | src/chip8/chip8.c:93-95 | Every collision comes from a set sprite bit over a lit cell. |
| `Chip8Properties.SpriteBitCollides` | src/chip8/chip8.c:93-95 | A set sprite bit over a lit cell is a collision. |
| `Chip8Properties.DrawTwiceRestoresScreen` | src/chip8/chip8.c:97 | Drawing the same sprite twice, with X and Y not 15, restores the frame buffer. |
| `Chip8Properties.DrawTwiceFlag` | src/chip8/chip8.c:93-97 | On the second of two identical draws, V15 is 1 exactly when the first draw lit some pixel. |
| `Chip8Properties.LoadGamePlacesFontAndRom` | src/chip8/chip8.c:217-235 | Loading writes the font to 0..80 and the image to 512..512 + len and sets pc := 512; all other memory and every other field stay as they were. |
| `Chip8Properties.LoadThenLoadImmediate` | src/chip8/chip8.c:226-230 | Loading the program 60 0A and running one cycle leaves V0 == 10 and pc == 514. |

## Left out

- `src/main.c` is not part of this model. It is the raylib window, the render loop, key-driven stepping and pixel scaling, with no algorithmic content.
- Reading the ROM file (`LoadFileData`, `UnloadFileData`, the global `RomSize`) is left out because these are foreign raylib calls. `LoadGameIntoMemory` takes the file contents as a parameter, `None` when the file could not be read.
- The `printf` trace in `SimulateCycle` is left out because it is output only.
- Timers, key input and the 8, C, E and F instruction families are left out because the C code has no behaviour for them. The `key`, `delayTimer` and `soundTimer` fields exist, but no operation reads or writes them.
- The C out-of-bounds accesses are not modelled. They are preconditions instead: `StepDefined`, `DrawInBounds`, `sp < StackSize` and `|rom| <= RomCapacity`. The C behaviour there is undefined.
- AddImmediate: Vx + NN is stated as 8-bit bit-vector addition (`AddByte`), which wraps modulo 256. The same fact is not restated as an integer equation `(Vx + NN) % 256`.
