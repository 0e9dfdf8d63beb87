/** Sizes and the frame-buffer type shared by the emulator and its host
    (include/chip8/chip8.h). */
module Chip8Header {

  /** Bytes of addressable memory; valid addresses are 0 .. MemorySize - 1. */
  const MemorySize: nat := 4096
  const ScreenWidth: nat := 64
  const ScreenHeight: nat := 32
  /** Number of cells of the frame buffer. */
  const PixelCount: nat := ScreenWidth * ScreenHeight

  /** General-purpose V registers, key inputs and return-stack slots. */
  const Registers: nat := 16
  const Inputs: nat := 16
  const StackSize: nat := 16

  /** A 4-bit field of an instruction: every such value names a V register
      (and a key input). */
  type Nibble = x: nat | x < Registers

  /** The frame buffer `CHIP_8GFX`: one boolean per pixel, row by row.
      It is a value, so a copy handed to the host cannot alias the machine's own. */
  type Gfx = s: seq<bool> | |s| == PixelCount witness seq(PixelCount, _ => false)

  /** Row-major index of the cell (x, y) in a grid `xMax` cells wide. */
  function Convert2DTo1D(x: int, y: int, xMax: int): int
  {
    y * xMax + x
  }

  /** On the screen the row-major index of a cell stays below PixelCount and
      gives back its cell, so no two cells share a frame-buffer position. */
  lemma ScreenIndexRoundTrip(x: int, y: int)
    requires 0 <= x < ScreenWidth && 0 <= y < ScreenHeight
    ensures 0 <= Convert2DTo1D(x, y, ScreenWidth) < PixelCount
    ensures Convert2DTo1D(x, y, ScreenWidth) / ScreenWidth == y
    ensures Convert2DTo1D(x, y, ScreenWidth) % ScreenWidth == x
  {
  }

  /** Every frame-buffer position is the row-major index of a cell on the
      screen; with `ScreenIndexRoundTrip` the index is a bijection between
      cells and positions. */
  lemma ScreenIndexOnto(p: int)
    requires 0 <= p < PixelCount
    ensures 0 <= p % ScreenWidth < ScreenWidth && 0 <= p / ScreenWidth < ScreenHeight
    ensures Convert2DTo1D(p % ScreenWidth, p / ScreenWidth, ScreenWidth) == p
  {
  }
}
