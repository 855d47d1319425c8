/** Sums, differences, signs and products of doubles and triples. */
module Multiply {
  import opened Cells
  import opened Wide
  import opened Machines

  /** UDM* ( ud u -- ut ): the exact product. */
  method UdmStar(m: Machine)
    requires m.Holds(3)
    modifies m, m.stack, m.rstack
    ensures m.Rewrites(3)
    ensures Top3(m.Contents()) == old(m.Contents()[0] * Top2(m.Contents()[1..]))
  {
    hide Mull, Addl, Top2, Top3, Machine.Guarded, Machine.Contents, Machine.Others;
    ghost var g := m.Guarded();
    var ebx := m.sp + 1;
    var ecx, p := HighProduct(m);
    var lo := m.Load(ebx + 2);
    var q := Mull(ecx, lo);
    m.Put(ebx + 2, q.1);
    var mid := m.Load(ebx + 1);
    var s := Addl(mid, q.0, 0);
    m.Put(ebx + 1, s.0);
    var hi := m.Load(ebx);
    var t := Addl(hi, 0, s.1);
    m.Put(ebx, t.0);
    assert m.Guarded() == Written(g, p, q, s, t);
    ProductCells(g, p, q, s, t);
  }

  /** The high cell of the double times the single, left in place of both. */
  method HighProduct(m: Machine) returns (ecx: Cell, ghost p: (Cell, Cell))
    requires m.Holds(3)
    modifies m, m.stack, m.rstack
    ensures m.Rewrites(2) && ecx == old(m.Contents()[0]) && p == Mull(old(m.Contents()[1]), ecx)
    ensures m.Guarded() == old(m.Guarded())[OFFSET := p.0][OFFSET + 1 := p.1]
  {
    hide Mull, Machine.Guarded, Machine.Contents, Machine.Others;
    ghost var g := m.Guarded();
    var ebx := m.sp + 1;
    ecx := m.Load(ebx);
    var eax := m.Load(ebx + 1);
    var r := Mull(eax, ecx);
    m.Put(ebx, r.0);
    m.Put(ebx + 1, r.1);
    p := r;
    Two(g, p.0, p.1);
    assert m.Guarded() == Replaced2(g, p.0, p.1);
  }

  /** What UDM* writes, in its order. */
  ghost function Written(g: seq<Cell>, p: (Cell, Cell), q: (Cell, Cell), s: (Cell, Cell), t: (Cell, Cell)): seq<Cell>
    requires |g| >= OFFSET + 3
  {
    g[OFFSET := p.0][OFFSET + 1 := p.1][OFFSET + 2 := q.1][OFFSET + 1 := s.0][OFFSET := t.0]
  }

  lemma ProductCells(g: seq<Cell>, p: (Cell, Cell), q: (Cell, Cell), s: (Cell, Cell), t: (Cell, Cell))
    requires |g| >= OFFSET + 3
    requires var c := g[OFFSET..];
             && p == Mull(c[1], c[0]) && q == Mull(c[0], c[2]) && s == Addl(p.1, q.0, 0)
             && t == Addl(p.0, 0, s.1)
    ensures var (c, e) := (g[OFFSET..], Written(g, p, q, s, t)[OFFSET..]);
            && e[3..] == c[3..] && Top3(e) == c[0] * Top2(c[1..])
            && Written(g, p, q, s, t)[..OFFSET] == g[..OFFSET]
  {
    hide Mull, Addl;
    var (c, e) := (g[OFFSET..], Written(g, p, q, s, t)[OFFSET..]);
    assert e[0] == t.0 && e[1] == s.0 && e[2] == q.1;
    Product(c[0], c[1], c[2], p, q, s, t);
  }

  lemma Product(u: Cell, hi: Cell, lo: Cell, p: (Cell, Cell), q: (Cell, Cell), s: (Cell, Cell), t: (Cell, Cell))
    requires p == Mull(hi, u) && q == Mull(u, lo) && s == Addl(p.1, q.0, 0) && t == Addl(p.0, 0, s.1)
    ensures t.0 * WORD2 + s.0 * WORD + q.1 == u * (hi * WORD + lo)
  {
    hide Mull, Addl;
    ProductFits(hi, u);
    assert u * (hi * WORD + lo) == hi * u * WORD + u * lo;
    // the product of a cell and a double is below WORD3, so nothing is carried out of the top cell
    assert t.1 == 0;
  }

  // ----- sums and signs -----

  /** D+ ( d1 d2 -- d3 ) */
  method DPlus(m: Machine)
    requires m.Holds(4)
    modifies m, m.stack, m.rstack
    ensures m.Holds(2) && m.sp == old(m.sp) + 2 && m.Others() == old(m.Others())
            && m.Contents()[2..] == old(m.Contents())[4..]
    ensures Top2(m.Contents()) == old(Top2(m.Contents()[2..]) + Top2(m.Contents())) % WORD2
  {
    hide Addl, Top2, Machine.Guarded, Machine.Contents, Machine.Others;
    ghost var g := m.Guarded();
    var ebx := m.sp + 2;
    var blo := m.Load(ebx);
    var alo := m.Load(ebx + 2);
    var s := Addl(blo, alo, 0);
    m.Put(ebx + 2, s.0);
    var ahi := m.Load(ebx + 1);
    var bhi := m.Load(ebx - 1);
    var t := Addl(ahi, bhi, s.1);
    m.Put(ebx + 1, t.0);
    m.Raise(2);
    assert m.Guarded() == g[OFFSET + 3 := s.0][OFFSET + 2 := t.0][2..];
    SumCells(g, s, t);
  }

  lemma SumCells(g: seq<Cell>, s: (Cell, Cell), t: (Cell, Cell))
    requires |g| >= OFFSET + 4
    requires var c := g[OFFSET..]; s == Addl(c[1], c[3], 0) && t == Addl(c[2], c[0], s.1)
    ensures var (c, e) := (g[OFFSET..], g[OFFSET + 3 := s.0][OFFSET + 2 := t.0][2..][OFFSET..]);
            e[2..] == c[4..] && Top2(e) == (Top2(c[2..]) + Top2(c)) % WORD2
  {
    hide Addl;
    var (c, e) := (g[OFFSET..], g[OFFSET + 3 := s.0][OFFSET + 2 := t.0][2..][OFFSET..]);
    assert e[0] == t.0 && e[1] == s.0;
    assert Top2(e) + t.1 * WORD2 == Top2(c[2..]) + Top2(c);
  }

  /** D- ( d1 d2 -- d3 ) */
  method DMinus(m: Machine)
    requires m.Holds(4)
    modifies m, m.stack, m.rstack
    ensures m.Holds(2) && m.sp == old(m.sp) + 2 && m.Others() == old(m.Others())
            && m.Contents()[2..] == old(m.Contents())[4..]
    ensures Top2(m.Contents()) == old(Top2(m.Contents()[2..]) - Top2(m.Contents())) % WORD2
  {
    hide Subl, Top2, Machine.Guarded, Machine.Contents, Machine.Others;
    ghost var g := m.Guarded();
    var ebx := m.sp + 2;
    var alo := m.Load(ebx + 2);
    var blo := m.Load(ebx);
    var s := Subl(alo, blo, 0);
    m.Put(ebx + 2, s.0);
    var ahi := m.Load(ebx + 1);
    var bhi := m.Load(ebx - 1);
    var t := Subl(ahi, bhi, s.1);
    m.Put(ebx + 1, t.0);
    m.Raise(2);
    assert m.Guarded() == g[OFFSET + 3 := s.0][OFFSET + 2 := t.0][2..];
    DifferenceCells(g, s, t);
  }

  lemma DifferenceCells(g: seq<Cell>, s: (Cell, Cell), t: (Cell, Cell))
    requires |g| >= OFFSET + 4
    requires var c := g[OFFSET..]; s == Subl(c[3], c[1], 0) && t == Subl(c[2], c[0], s.1)
    ensures var (c, e) := (g[OFFSET..], g[OFFSET + 3 := s.0][OFFSET + 2 := t.0][2..][OFFSET..]);
            e[2..] == c[4..] && Top2(e) == (Top2(c[2..]) - Top2(c)) % WORD2
  {
    hide Subl;
    var (c, e) := (g[OFFSET..], g[OFFSET + 3 := s.0][OFFSET + 2 := t.0][2..][OFFSET..]);
    assert e[0] == t.0 && e[1] == s.0;
    assert Top2(e) - t.1 * WORD2 == Top2(c[2..]) - Top2(c);
  }

  /** The complement plus one, from the low cell up. */
  function Negated2(hi: Cell, lo: Cell): (r: (Cell, Cell))
    ensures r.0 * WORD + r.1 == -(hi * WORD + lo) % WORD2
  {
    var s := Addl(Notl(lo), 1, 0);
    var t := Addl(Notl(hi), 0, s.1);
    assert t.0 * WORD + s.0 + t.1 * WORD2 == WORD2 - (hi * WORD + lo);
    (t.0, s.0)
  }

  /** The complement of one less, from the low cell up. */
  function Absolute2(hi: Cell, lo: Cell): (r: (Cell, Cell))
    requires Negative(hi)
    ensures r.0 * WORD + r.1 == WORD2 - (hi * WORD + lo)
  {
    var s := Subl(lo, 1, 0);
    var t := Subl(hi, 0, s.1);
    (Notl(t.0), Notl(s.0))
  }

  /** DNEGATE ( d1 -- d2 ) */
  method DNegate(m: Machine)
    requires m.Holds(2)
    modifies m, m.stack, m.rstack
    ensures m.Rewrites(2)
    ensures Top2(m.Contents()) == -old(Top2(m.Contents())) % WORD2
  {
    hide Addl, Machine.Guarded, Machine.Contents, Machine.Others;
    ghost var g := m.Guarded();
    var ebx := m.sp + 2;
    var lo := m.Load(ebx);
    var s := Addl(Notl(lo), 1, 0);
    m.Put(ebx, s.0);
    var hi := m.Load(ebx - 1);
    var t := Addl(Notl(hi), 0, s.1);
    m.Put(ebx - 1, t.0);
    assert t.0 == Negated2(hi, lo).0 && s.0 == Negated2(hi, lo).1;
    assert m.Guarded() == Replaced2(g, t.0, s.0);
    Two(g, t.0, s.0);
  }

  /** The guarded cells with another double on top of the stack. */
  ghost function Replaced2(g: seq<Cell>, hi: Cell, lo: Cell): seq<Cell>
    requires |g| >= OFFSET + 2
  {
    g[OFFSET + 1 := lo][OFFSET := hi]
  }

  lemma Two(g: seq<Cell>, hi: Cell, lo: Cell)
    requires |g| >= OFFSET + 2
    ensures Replaced2(g, hi, lo)[OFFSET..] == [hi, lo] + g[OFFSET..][2..]
            && Replaced2(g, hi, lo)[..OFFSET] == g[..OFFSET]
  {
  }

  /** DABS ( d -- ud ) */
  method DAbs(m: Machine)
    requires m.Holds(2)
    modifies m, m.stack, m.rstack
    ensures m.Rewrites(2)
    ensures Top2(m.Contents()) == Abs(Signed2(old(Top2(m.Contents()))))
  {
    hide Subl, Machine.Guarded, Machine.Contents, Machine.Others;
    ghost var g := m.Guarded();
    var edx := m.sp;
    var ecx := m.Load(edx + 1);
    if Negative(ecx) {
      var lo := m.Load(edx + 2);
      var s := Subl(lo, 1, 0);
      m.Put(edx + 2, Notl(s.0));
      var t := Subl(ecx, 0, s.1);
      m.Put(edx + 1, Notl(t.0));
      assert Notl(t.0) == Absolute2(ecx, lo).0 && Notl(s.0) == Absolute2(ecx, lo).1;
      assert m.Guarded() == Replaced2(g, Notl(t.0), Notl(s.0));
      Two(g, Notl(t.0), Notl(s.0));
    }
    m.Raise(0);
  }

  function Abs(x: int): nat {
    if x < 0 then -x else x
  }

  /** The macro _ABS on the cell at ebx + 1, which is on the stack or the free cell's neighbour. */
  method AbsCell(m: Machine, ebx: int)
    requires m.Valid() && m.sp <= ebx < m.stack.Length - 1
    modifies m, m.stack, m.rstack
    ensures m.Valid() && m.sp == old(m.sp) && m.Others() == old(m.Others())
    ensures var i := ebx - m.sp + OFFSET; m.Guarded() == old(m.Guarded())[i := Abs(Signed(old(m.Guarded())[i]))]
  {
    var ecx := m.Load(ebx + 1);
    var mask: Cell := if Negative(ecx) then WORD - 1 else 0;
    var edx := if mask == 0 then ecx else Notl(ecx);   // xorl with the mask
    m.Put(ebx + 1, Subl(edx, mask, 0).0);
  }

  // ----- products of signed numbers -----

  /** The complement plus one, of a triple. */
  function Negated3(h: Cell, m: Cell, l: Cell): (r: seq<Cell>)
    ensures |r| == 3 && Top3(r) == -(h * WORD2 + m * WORD + l) % WORD3
  {
    var s := Addl(Notl(l), 1, 0);
    var t := Addl(Notl(m), 0, s.1);
    var u := Addl(Notl(h), 0, t.1);
    assert u.0 * WORD2 + t.0 * WORD + s.0 + u.1 * WORD3 == WORD3 - (h * WORD2 + m * WORD + l);
    [u.0, t.0, s.0]
  }

  /** The macro TNEG ( t1 -- t2 ). */
  method TNeg(m: Machine)
    requires m.Holds(3)
    modifies m, m.stack, m.rstack
    ensures m.Rewrites(3)
    ensures Top3(m.Contents()) == -old(Top3(m.Contents())) % WORD3
  {
    hide Addl, Machine.Guarded, Machine.Contents, Machine.Others;
    ghost var g := m.Guarded();
    var ebx := m.sp + 1;
    var edx := m.Load(ebx);
    var ecx := m.Load(ebx + 1);
    var eax := m.Load(ebx + 2);
    var r := Negated3(edx, ecx, eax);
    m.Put(ebx + 2, r[2]);
    m.Put(ebx + 1, r[1]);
    m.Put(ebx, r[0]);
    assert m.Guarded() == Replaced3(g, r);
    Three(g, r);
  }

  ghost function Replaced3(g: seq<Cell>, r: seq<Cell>): seq<Cell>
    requires |g| >= OFFSET + 3 && |r| == 3
  {
    g[OFFSET + 2 := r[2]][OFFSET + 1 := r[1]][OFFSET := r[0]]
  }

  lemma Three(g: seq<Cell>, r: seq<Cell>)
    requires |g| >= OFFSET + 3 && |r| == 3
    ensures Replaced3(g, r)[OFFSET..] == r + g[OFFSET..][3..] && Replaced3(g, r)[..OFFSET] == g[..OFFSET]
  {
  }

  /** The absolute values of a cell and of the double below it. */
  method Magnitudes(m: Machine)
    requires m.Holds(3)
    modifies m, m.stack, m.rstack
    ensures m.Rewrites(3, 1)
    ensures m.Contents()[0] == Abs(Signed(old(m.Contents()[0])))
    ensures Top2(m.Contents()[1..]) == Abs(Signed2(old(Top2(m.Contents()[1..]))))
  {
    hide Top2, Signed, Signed2, Abs, Machine.Guarded, Machine.Contents, Machine.Others;
    ghost var g := m.Guarded();
    AbsCell(m, m.sp);
    ghost var g1 := m.Guarded();
    m.Raise(1);
    ghost var g2 := m.Guarded();
    DAbs(m);
    ghost var g3 := m.Guarded();
    m.Lower(1);
    MagnitudeCells(g, g1, g2, g3, m.Guarded());
  }

  lemma MagnitudeCells(g: seq<Cell>, g1: seq<Cell>, g2: seq<Cell>, g3: seq<Cell>, e: seq<Cell>)
    requires |g| >= OFFSET + 3 && g1 == g[OFFSET := Abs(Signed(g[OFFSET]))] && g2 == g1[1..]
    requires |g3| == |g2| && g3[..OFFSET] == g2[..OFFSET] && g3[OFFSET..][2..] == g2[OFFSET..][2..]
    requires |e| == |g| && e[1..] == g3
    ensures e[1..OFFSET] == g[1..OFFSET] && e[OFFSET..][0] == Abs(Signed(g[OFFSET..][0]))
            && e[OFFSET..][3..] == g[OFFSET..][3..]
    ensures e[OFFSET..][1..] == g3[OFFSET..] && g2[OFFSET..] == g[OFFSET..][1..]
  {
    hide Abs, Signed;
    assert forall j :: 1 <= j < OFFSET ==> e[j] == e[1..][j - 1] == g3[..OFFSET][j - 1] == g2[j - 1];
    assert e[OFFSET] == e[1..][OFFSET - 1] == g3[..OFFSET][OFFSET - 1];
    assert e[OFFSET..][3..] == e[1..][OFFSET..][2..];
  }

  /** DS* ( d n -- t ): the exact signed product. */
  method DsStar(m: Machine)
    requires m.Holds(3)
    modifies m, m.stack, m.rstack
    ensures m.Rewrites(3, 1)
    ensures Signed3(Top3(m.Contents())) == Signed(old(m.Contents()[0])) * Signed2(old(Top2(m.Contents()[1..])))
  {
    hide Top2, Top3, Signed, Signed2, Signed3, Abs, Machine.Guarded, Machine.Contents, Machine.Others;
    ghost var (n0, d0) := (m.Contents()[0], Top2(m.Contents()[1..]));
    var n := m.Load(m.sp + 1);
    var hi := m.Load(m.sp + 2);
    HighCell(m.Contents()[1..]);
    Magnitudes(m);
    UdmStar(m);
    ghost var t := Top3(m.Contents());
    if Negative(n) != Negative(hi) { TNeg(m); }
    SignedProduct(n, d0, t);
  }

  lemma HighCell(c: seq<Cell>)
    requires |c| >= 2
    ensures Negative(c[0]) <==> Signed2(Top2(c)) < 0
  {
  }

  /** The product of the magnitudes, negated or not, is the signed product. */
  lemma SignedProduct(n: Cell, d: int, t: int)
    requires 0 <= d < WORD2 && t == Abs(Signed(n)) * Abs(Signed2(d))
    ensures Signed3(if Negative(n) != (Signed2(d) < 0) then -t % WORD3 else t) == Signed(n) * Signed2(d)
  {
    var (x, y) := (Signed(n), Signed2(d));
    assert t <= 0x8000_0000 * Abs(y) <= 0x8000_0000 * 0x8000_0000_0000_0000 by { Grows(Abs(x), 0x8000_0000, Abs(y)); }
    assert x * y == if Negative(n) != (y < 0) then -t else t;
  }
}
