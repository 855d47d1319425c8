/**
 * Numbers of two and three cells, high cell first as they lie on the stack, and the
 * processor's widening multiplication and narrowing division.
 */
module Wide {
  import opened Cells

  const WORD2: int := 0x1_0000_0000_0000_0000
  const WORD3: int := 0x1_0000_0000_0000_0000_0000_0000

  /** The unsigned double on top of a stack. */
  function Top2(s: seq<Cell>): (x: int)
    requires |s| >= 2
    ensures 0 <= x < WORD2
  {
    s[0] * WORD + s[1]
  }

  /** The unsigned triple on top of a stack. */
  function Top3(s: seq<Cell>): (x: int)
    requires |s| >= 3
    ensures 0 <= x < WORD3
  {
    s[0] * WORD2 + s[1] * WORD + s[2]
  }

  /** The signed readings. */
  function Signed2(x: int): int {
    if x < WORD2 / 2 then x else x - WORD2
  }

  function Signed3(x: int): int {
    if x < WORD3 / 2 then x else x - WORD3
  }

  /** mull: the double product of two cells, as high and low cell. */
  function Mull(a: Cell, b: Cell): (r: (Cell, Cell))
    ensures r.0 * WORD + r.1 == a * b
  {
    ProductFits(a, b);
    (a * b / WORD, a * b % WORD)
  }

  lemma ProductFits(a: Cell, b: Cell)
    ensures 0 <= a * b <= (WORD - 1) * (WORD - 1)
  {
    assert a * b <= (WORD - 1) * b by { Grows(a, WORD - 1, b); }
  }

  lemma Grows(x: int, y: int, z: int)
    requires x <= y && 0 <= z
    ensures x * z <= y * z
  {
  }

  /** divl: the double edx:eax by ecx; the processor faults unless edx < ecx. */
  function Divl(edx: Cell, eax: Cell, ecx: Cell): (r: (Cell, Cell))
    requires edx < ecx
    ensures edx * WORD + eax == r.0 * ecx + r.1 && r.1 < ecx
  {
    QuotientFits(edx, eax, ecx);
    ((edx * WORD + eax) / ecx, (edx * WORD + eax) % ecx)
  }

  lemma QuotientFits(edx: Cell, eax: Cell, ecx: Cell)
    requires edx < ecx
    ensures 0 <= (edx * WORD + eax) / ecx < WORD
  {
    var x := edx * WORD + eax;
    var q := x / ecx;
    assert x < ecx * WORD;
    if q >= WORD { Grows(WORD, q, ecx); }
  }

  /** addl: the sum of two cells and a carry, and the new carry. */
  function Addl(a: Cell, b: Cell, carry: Cell): (r: (Cell, Cell))
    requires carry <= 1
    ensures r.0 + r.1 * WORD == a + b + carry && r.1 <= 1
  {
    var s := a + b + carry;
    if s < WORD then (s, 0) else (s - WORD, 1)
  }

  /** subl: the difference of two cells and a borrow, and the new borrow. */
  function Subl(a: Cell, b: Cell, borrow: Cell): (r: (Cell, Cell))
    requires borrow <= 1
    ensures r.0 - r.1 * WORD == a - b - borrow && r.1 <= 1
  {
    var s := a - b - borrow;
    if s >= 0 then (s, 0) else (s + WORD, 1)
  }

  /** notl */
  function Notl(a: Cell): Cell {
    WORD - 1 - a
  }

  predicate Negative(a: Cell) {
    a >= 0x8000_0000
  }
}
