/**
 * 32-bit cells with their signed view, bytes, and the little-endian form in
 * which a cell is stored as an operand of byte code.
 */
module Cells {
  const WORD: int := 0x1_0000_0000

  type Cell = x: int | 0 <= x < 0x1_0000_0000
  type Byte = x: int | 0 <= x < 0x100

  /** A C `long int` of any value, as the 32 bits that are stored. */
  function Wrap(x: int): Cell {
    x % 0x1_0000_0000
  }

  /** The signed (two's complement) reading of a cell. */
  function Signed(c: Cell): (x: int)
    ensures -0x8000_0000 <= x < 0x8000_0000 && Wrap(x) == c
  {
    if c < 0x8000_0000 then c else c - 0x1_0000_0000
  }

  /** A flag as a cell: all bits or none. */
  function Flag(b: bool): Cell {
    if b then 0xFFFF_FFFF else 0
  }

  predicate FitsSigned(x: int) {
    -0x8000_0000 <= x < 0x8000_0000
  }

  /** The four bytes of a cell, low byte first. */
  function ToBytes(c: Cell): (b: seq<Byte>)
    ensures |b| == 4
  {
    [c % 0x100, c / 0x100 % 0x100, c / 0x1_0000 % 0x100, c / 0x100_0000]
  }

  function FromBytes(b: seq<Byte>): Cell
    requires |b| == 4
  {
    var (b0: int, b1: int, b2: int, b3: int) := (b[0], b[1], b[2], b[3]);
    b0 + 0x100 * b1 + 0x1_0000 * b2 + 0x100_0000 * b3
  }

  lemma FromToBytes(c: Cell)
    ensures FromBytes(ToBytes(c)) == c
  {
    var q := c / 0x100;
    assert c / 0x1_0000 == q / 0x100 && c / 0x100_0000 == q / 0x100 / 0x100;
  }

  /** Adding a wrapped distance to an address reaches the address it was measured to. */
  lemma WrapDistance(base: int, at: int, to: int)
    requires 0 <= base + to < 0x1_0000_0000
    ensures Wrap(base + at + Wrap(to - at)) == base + to
  {
    var k := (to - at) / 0x1_0000_0000;
    assert Wrap(to - at) == (to - at) - k * 0x1_0000_0000;
  }

  lemma WrapCell(c: Cell)
    ensures Wrap(c) == c
  {
  }
}
