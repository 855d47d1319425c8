/**
 * The division of triples by single cells: UTM/ and UTS/MOD, which share a routine
 * that puts the quotient together from partial quotients, and the
 * mixed product and quotient M-star-slash.
 */
module Divide {
  import opened Cells
  import opened Wide
  import opened Machines
  import opened Multiply

  const E_DIV_ZERO: int := 4
  const E_DIV_OVERFLOW: int := 20

  // ----- the partial quotients -----

  /** The quotients and remainders that the routine computes, for ut2, ut1 and the remainder r3 of ut3. */
  datatype Partial = Partial(q1: Cell, r1: Cell, q2: Cell, r2: Cell, q4: Cell, r4: Cell, q5: Cell, r5: Cell,
                             q6: Cell, r6: Cell, q7: Cell, r7: Cell)

  function Partials(r3: Cell, t2: Cell, t1: Cell, u: Cell): Partial
    requires r3 < u
  {
    var d2 := Divl(0, t2, u);
    var d1 := Divl(0, t1, u);
    var d4 := Divl(r3, 0, u);
    var d5 := Divl(d2.1, 0, u);
    var d6 := Divl(d4.1, 0, u);
    var s := Sum3(d1.1, d5.1, d6.1);
    CarrySmall(d1.1, d5.1, d6.1, u);
    var d7 := Divl(s.0, s.1, u);
    Partial(d1.0, d1.1, d2.0, d2.1, d4.0, d4.1, d5.0, d5.1, d6.0, d6.1, d7.0, d7.1)
  }

  /** The sum of three cells, as the counted carries and the cell that is left. */
  function Sum3(a: Cell, b: Cell, c: Cell): (r: (Cell, Cell))
    ensures r.0 * WORD + r.1 == a + b + c && r.0 <= 2
  {
    var s := Addl(a, b, 0);
    var t := Addl(s.0, c, 0);
    (s.1 + t.1, t.0)
  }

  /** The carries of three remainders are less than the divisor: the processor cannot fault. */
  lemma CarrySmall(a: Cell, b: Cell, c: Cell, u: Cell)
    requires a < u && b < u && c < u
    ensures Sum3(a, b, c).0 < u
  {
  }

  /** q1 + q5 + q6 + q7 with its carries, and q2 + q4 plus the carries. */
  function Recombined(p: Partial): (r: (Cell, Cell)) {
    var s := Sum3(p.q7, p.q6, p.q5);
    var t := Addl(s.1, p.q1, 0);
    (Wrap(p.q2 + p.q4 + s.0 + t.1), t.0)
  }

  /** Together the partial quotients are the quotient, and r7 is the remainder. */
  lemma QuotientExact(r3: Cell, t2: Cell, t1: Cell, u: Cell)
    requires r3 < u
    ensures var (p, x) := (Partials(r3, t2, t1, u), r3 * WORD2 + t2 * WORD + t1);
            var q := Recombined(p); q.0 * WORD + q.1 == x / u && p.r7 == x % u
  {
    hide Partials, Recombined;
    var p := Partials(r3, t2, t1, u);
    var x := r3 * WORD2 + t2 * WORD + t1;
    var q := (p.q2 + p.q4) * WORD + (p.q1 + p.q5 + p.q6 + p.q7);
    PartialsExact(r3, t2, t1, u);
    Regroup(p, r3, t2, t1, u);
    QuotientRemainder(x, q, p.r7, u);
    QuotientBelow(r3, t2, t1, u);
    RecombinedExact(p);
  }

  lemma PartialsExact(r3: Cell, t2: Cell, t1: Cell, u: Cell)
    requires r3 < u
    ensures var p := Partials(r3, t2, t1, u);
            && t2 == p.q2 * u + p.r2 && t1 == p.q1 * u + p.r1 && r3 * WORD == p.q4 * u + p.r4
            && p.r2 * WORD == p.q5 * u + p.r5
            && p.r4 * WORD == p.q6 * u + p.r6 && p.r1 + p.r5 + p.r6 == p.q7 * u + p.r7 && p.r7 < u
  {
    hide Divl, Sum3;
  }

  /** The carries are counted right: nothing is lost if the quotient is a double. */
  lemma RecombinedExact(p: Partial)
    requires (p.q2 + p.q4) * WORD + (p.q1 + p.q5 + p.q6 + p.q7) < WORD2
    ensures Recombined(p).0 * WORD + Recombined(p).1 == (p.q2 + p.q4) * WORD + (p.q1 + p.q5 + p.q6 + p.q7)
  {
    hide Sum3, Addl;
    var s := Sum3(p.q7, p.q6, p.q5);
    var t := Addl(s.1, p.q1, 0);
    assert (p.q2 + p.q4 + s.0 + t.1) * WORD + t.0 == (p.q2 + p.q4) * WORD + (p.q1 + p.q5 + p.q6 + p.q7);
  }

  lemma Regroup(p: Partial, r3: Cell, t2: Cell, t1: Cell, u: Cell)
    requires t2 == p.q2 * u + p.r2 && t1 == p.q1 * u + p.r1 && r3 * WORD == p.q4 * u + p.r4
             && p.r2 * WORD == p.q5 * u + p.r5
    requires p.r4 * WORD == p.q6 * u + p.r6 && p.r1 + p.r5 + p.r6 == p.q7 * u + p.r7
    ensures r3 * WORD2 + t2 * WORD + t1 == ((p.q2 + p.q4) * WORD + (p.q1 + p.q5 + p.q6 + p.q7)) * u + p.r7
  {
    assert r3 * WORD2 == (r3 * WORD) * WORD;
    Distribute(p.q2, p.q4, p.q1 + p.q5 + p.q6 + p.q7, u);
    Distribute4(p.q1, p.q5, p.q6, p.q7, u);
  }

  lemma Distribute(a: int, b: int, c: int, u: int)
    ensures ((a + b) * WORD + c) * u == a * u * WORD + b * u * WORD + c * u
  {
  }

  lemma Distribute4(a: int, b: int, c: int, d: int, u: int)
    ensures (a + b + c + d) * u == a * u + b * u + c * u + d * u
  {
  }

  lemma QuotientRemainder(x: int, q: int, r: int, u: int)
    requires 0 <= r < u && x == q * u + r
    ensures x / u == q && x % u == r
  {
    var d := x / u - q;
    assert x / u * u + x % u == x;
    assert d * u == r - x % u by { assert (q + d) * u == q * u + d * u; }
    if d >= 1 { Grows(1, d, u); } else if d <= -1 { Grows(d, -1, u); }
  }

  lemma QuotientBelow(r3: Cell, t2: Cell, t1: Cell, u: Cell)
    requires r3 < u
    ensures 0 <= (r3 * WORD2 + t2 * WORD + t1) / u < WORD2
  {
    var x := r3 * WORD2 + t2 * WORD + t1;
    var q := x / u;
    assert x < u * WORD2;
    if q >= WORD2 { Grows(WORD2, q, u); }
  }

  // ----- the routine that UTM/ and UTS/MOD share -----

  /** The guarded cell that lies j cells from the stack pointer. */
  const SP: int := OFFSET - 1

  ghost function First(g: seq<Cell>, q3: Cell, r3: Cell, p: Partial): seq<Cell>
    requires |g| >= OFFSET
  {
    g[SP - 4 := q3][SP - 5 := r3][SP - 2 := p.q2][SP - 3 := p.r2][SP := p.q1][SP - 1 := p.r1]
  }

  ghost function Cross(g: seq<Cell>, p: Partial): seq<Cell>
    requires |g| >= OFFSET
  {
    g[SP - 6 := p.q4][SP - 7 := p.r4][SP - 8 := p.q5][SP - 9 := p.r5][SP - 10 := p.q6][SP - 11 := p.r6]
  }

  ghost function Last(g: seq<Cell>, p: Partial): seq<Cell>
    requires |g| >= OFFSET
  {
    g[SP - 12 := p.q7][SP - 13 := p.r7]
  }

  method FirstQuotients(m: Machine, ecx: Cell, eax: Cell, edx: Cell, ghost p: Partial)
    requires m.Holds(4) && edx < ecx && p == Partials(edx, m.Contents()[2], m.Contents()[3], ecx)
    modifies m, m.stack, m.rstack
    ensures m.Valid() && m.sp == old(m.sp) && m.Others() == old(m.Others())
    ensures m.Guarded() == First(old(m.Guarded()), eax, edx, p)
  {
    hide Machine.Guarded, Machine.Contents, Machine.Others, Divl, Sum3;
    m.Put(m.sp - 4, eax);
    m.Put(m.sp - 5, edx);
    var t2 := m.Load(m.sp + 3);
    var d2 := Divl(0, t2, ecx);
    m.Put(m.sp - 2, d2.0);
    m.Put(m.sp - 3, d2.1);
    var t1 := m.Load(m.sp + 4);
    var d1 := Divl(0, t1, ecx);
    m.Put(m.sp, d1.0);
    m.Put(m.sp - 1, d1.1);
  }

  method CrossQuotients(m: Machine, ecx: Cell, ghost r3: Cell, ghost t2: Cell, ghost t1: Cell)
    requires m.Valid() && r3 < ecx && m.Guarded()[SP - 5] == r3 && m.Guarded()[SP - 3] == Partials(r3, t2, t1, ecx).r2
    modifies m, m.stack, m.rstack
    ensures m.Valid() && m.sp == old(m.sp) && m.Others() == old(m.Others())
    ensures m.Guarded() == Cross(old(m.Guarded()), Partials(r3, t2, t1, ecx))
  {
    hide Machine.Guarded, Machine.Contents, Machine.Others, Divl, Sum3;
    var edx := m.Load(m.sp - 5);
    var d4 := Divl(edx, 0, ecx);
    m.Put(m.sp - 6, d4.0);
    m.Put(m.sp - 7, d4.1);
    edx := m.Load(m.sp - 3);
    var d5 := Divl(edx, 0, ecx);
    m.Put(m.sp - 8, d5.0);
    m.Put(m.sp - 9, d5.1);
    edx := m.Load(m.sp - 7);
    var d6 := Divl(edx, 0, ecx);
    m.Put(m.sp - 10, d6.0);
    m.Put(m.sp - 11, d6.1);
  }

  method LastQuotient(m: Machine, ecx: Cell, ghost r3: Cell, ghost t2: Cell, ghost t1: Cell) returns (q7: Cell)
    requires m.Valid() && r3 < ecx
    requires var (p, g) := (Partials(r3, t2, t1, ecx), m.Guarded());
             && g[SP - 1] == p.r1 && g[SP - 9] == p.r5
             && g[SP - 11] == p.r6
    modifies m, m.stack, m.rstack
    ensures m.Valid() && m.sp == old(m.sp) && m.Others() == old(m.Others())
    ensures q7 == Partials(r3, t2, t1, ecx).q7 && m.Guarded() == Last(old(m.Guarded()), Partials(r3, t2, t1, ecx))
  {
    hide Machine.Guarded, Machine.Contents, Machine.Others, Divl, Sum3;
    var r1 := m.Load(m.sp - 1);
    var r5 := m.Load(m.sp - 9);
    var r6 := m.Load(m.sp - 11);
    var s := Sum3(r1, r5, r6);
    CarrySmall(r1, r5, r6, ecx);
    var d7 := Divl(s.0, s.1, ecx);
    q7 := d7.0;
    m.Put(m.sp - 12, q7);
    m.Put(m.sp - 13, d7.1);
  }

  method Recombine(m: Machine, q7: Cell, ghost p: Partial)
    requires m.Holds(4) && q7 == p.q7
    requires var g := m.Guarded();
             && g[SP - 10] == p.q6 && g[SP - 8] == p.q5 && g[SP] == p.q1 && g[SP - 2] == p.q2
             && g[SP - 6] == p.q4
    modifies m, m.stack, m.rstack
    ensures m.Valid() && m.sp == old(m.sp) + 2 && m.Others() == old(m.Others())
    ensures m.Guarded() == old(m.Guarded())[SP + 4 := Recombined(p).1][SP + 3 := Recombined(p).0][2..]
  {
    hide Machine.Guarded, Machine.Contents, Machine.Others, Sum3, Addl;
    var q6 := m.Load(m.sp - 10);
    var q5 := m.Load(m.sp - 8);
    var s := Sum3(q7, q6, q5);
    var q1 := m.Load(m.sp);
    var t := Addl(s.1, q1, 0);
    m.Put(m.sp + 4, t.0);
    var q2 := m.Load(m.sp - 2);
    var q4 := m.Load(m.sp - 6);
    m.Put(m.sp + 3, Wrap((q2 as int) + q4 + s.0 + t.1));
    m.Raise(2);
  }

  /** What the routine leaves around the new stack pointer: the double quotient, and q3 and r7 beyond the stack. */
  ghost function Shared(g: seq<Cell>, q3: Cell, r3: Cell, p: Partial): (e: seq<Cell>)
    requires |g| >= OFFSET + 4
    ensures |e| == |g| - 2
  {
    Last(Cross(First(g, q3, r3, p), p), p)[SP + 4 := Recombined(p).1][SP + 3 := Recombined(p).0][2..]
  }

  lemma SharedCells(g: seq<Cell>, q3: Cell, r3: Cell, p: Partial)
    requires |g| >= OFFSET + 4
    ensures var e := Shared(g, q3, r3, p);
            && e[OFFSET] == Recombined(p).0 && e[OFFSET + 1] == Recombined(p).1
            && e[SP - 6] == q3 && e[SP - 15] == p.r7 && e[OFFSET..][2..] == g[OFFSET..][4..]
  {
    hide Recombined;
  }

  lemma ScratchCells(g: seq<Cell>, q3: Cell, r3: Cell, p: Partial)
    requires |g| >= OFFSET
    ensures var a := First(g, q3, r3, p); a[SP - 5] == r3 && a[SP - 3] == p.r2
    ensures var b := Cross(First(g, q3, r3, p), p); b[SP - 1] == p.r1 && b[SP - 9] == p.r5 && b[SP - 11] == p.r6
    ensures var c := Last(Cross(First(g, q3, r3, p), p), p);
            c[SP - 10] == p.q6 && c[SP - 8] == p.q5 && c[SP] == p.q1 && c[SP - 2] == p.q2 && c[SP - 6] == p.q4
  {
  }

  /** utmslash1, with eax and edx the quotient and the remainder of the high cell. */
  method SharedQuotient(m: Machine, ecx: Cell, eax: Cell, edx: Cell)
    requires m.Holds(4) && edx < ecx
    modifies m, m.stack, m.rstack
    ensures m.Holds(2) && m.sp == old(m.sp) + 2 && m.Others() == old(m.Others())
            && m.Contents()[2..] == old(m.Contents())[4..]
    ensures var x := edx * WORD2 + Top2(old(m.Contents())[2..]);
            Top2(m.Contents()) == x / ecx && m.Guarded()[SP - 6] == eax && m.Guarded()[SP - 15] == x % ecx
  {
    hide Machine.Guarded, Machine.Contents, Machine.Others, Partials, First, Cross, Last, Recombined;
    ghost var g := m.Guarded();
    ghost var (t2, t1) := (m.Contents()[2], m.Contents()[3]);
    ghost var p := Partials(edx, t2, t1, ecx);
    ScratchCells(g, eax, edx, p);
    FirstQuotients(m, ecx, eax, edx, p);
    CrossQuotients(m, ecx, edx, t2, t1);
    var q7 := LastQuotient(m, ecx, edx, t2, t1);
    Recombine(m, q7, p);
    assert m.Guarded() == Shared(g, eax, edx, p);
    SharedCells(g, eax, edx, p);
    QuotientExact(edx, t2, t1, ecx);
  }

  /** UTM/ ( ut u -- ud ): divides, or reports zero or overflow and leaves everything as it was. */
  method UtmSlash(m: Machine) returns (e: int)
    requires m.Holds(4)
    modifies m, m.stack, m.rstack
    ensures var c := old(m.Contents()); var (u, ut) := (c[0], Top3(c[1..]));
            && m.Holds(2) && m.Others() == old(m.Others())
            && e == (if u == 0 then E_DIV_ZERO else if ut / u >= WORD2 then E_DIV_OVERFLOW else 0)
            && (e != 0 ==> m.sp == old(m.sp) && m.Contents() == c)
            && (e == 0 ==> m.sp == old(m.sp) + 2 && Top2(m.Contents()) == ut / u && m.Contents()[2..] == c[4..])
  {
    hide Machine.Guarded, Machine.Contents, Machine.Others, Top2, Top3, Divl;
    ghost var c := m.Contents();
    var ecx := m.Load(m.sp + 1);
    if ecx == 0 { return E_DIV_ZERO; }
    var eax := m.Load(m.sp + 2);
    var d := Divl(0, eax, ecx);
    OverflowExactly(c[1..], ecx);
    if d.0 != 0 { return E_DIV_OVERFLOW; }
    SharedQuotient(m, ecx, d.0, d.1);
    e := 0;
  }

  /** The quotient needs more than a double exactly when the high cell is not less than the divisor. */
  lemma OverflowExactly(t: seq<Cell>, u: Cell)
    requires |t| >= 3 && u > 0
    ensures Top3(t) / u >= WORD2 <==> Divl(0, t[0], u).0 != 0
    ensures Divl(0, t[0], u).0 == 0 ==> Top3(t) == Divl(0, t[0], u).1 * WORD2 + Top2(t[1..])
  {
    hide Divl;
    var d := Divl(0, t[0], u);
    if d.0 == 0 {
      QuotientBelow(d.1, t[1], t[2], u);
    } else {
      Grows(1, d.0, u);
      AtLeast(Top3(t), u, WORD2);
    }
  }

  lemma AtLeast(x: int, u: int, n: int)
    requires u > 0 && x >= n * u
    ensures x / u >= n
  {
    if x / u < n { Grows(x / u + 1, n, u); }
  }

  /** UTS/MOD ( ut1 u -- ut2 u2 ): triple quotient and remainder. */
  method UtsSlashMod(m: Machine) returns (e: int)
    requires m.Holds(4)
    modifies m, m.stack, m.rstack
    ensures m.Holds(4) && m.sp == old(m.sp) && m.Others() == old(m.Others())
    ensures var (c, r) := (old(m.Contents()), m.Contents()); var (u, ut) := (c[0], Top3(c[1..]));
            && r[4..] == c[4..]
            && (if u == 0 then e == E_DIV_ZERO && r == c else e == 0 && Top3(r) == ut / u && r[3] == ut % u)
  {
    hide Machine.Guarded, Machine.Contents, Machine.Others, Top2, Top3, Divl;
    ghost var c := m.Contents();
    var ecx := m.Load(m.sp + 1);
    if ecx == 0 { return E_DIV_ZERO; }
    var t3 := m.Load(m.sp + 2);
    var d := Divl(0, t3, ecx);
    SharedQuotient(m, ecx, d.0, d.1);
    ghost var s := m.Contents();
    MoveTriple(m);
    TripleQuotient(c, ecx, d.0, d.1);
    MovedTriple(m.Contents(), s);
    e := 0;
  }

  /** Moves the quotient up by a cell, and fetches r7 and q3 back from where they were left, 15 and 6 cells beyond. */
  method MoveTriple(m: Machine)
    requires m.Holds(2) && m.sp - 2 >= OFFSET
    modifies m, m.stack, m.rstack
    ensures m.Holds(4) && m.sp == old(m.sp) - 2 && m.Others() == old(m.Others())
    ensures m.Contents() ==
            old([m.Guarded()[SP - 6], m.Contents()[0], m.Contents()[1], m.Guarded()[SP - 15]] + m.Contents()[2..])
  {
    hide Machine.Guarded, Machine.Contents, Machine.Others;
    ghost var g := m.Guarded();
    var ebx := m.sp;
    var eax := m.Load(ebx + 1);
    m.Put(ebx, eax);
    eax := m.Load(ebx + 2);
    m.Put(ebx + 1, eax);
    eax := m.Load(ebx - 15);
    m.Put(ebx + 2, eax);
    eax := m.Load(ebx - 6);
    m.Put(ebx - 1, eax);
    assert m.Guarded() == MovedCells(g);
    m.Lower(2);
    MovedExactly(g, m.Guarded());
  }

  ghost function MovedCells(g: seq<Cell>): seq<Cell>
    requires |g| >= OFFSET + 2
  {
    g[SP := g[SP + 1]][SP + 1 := g[SP + 2]][SP + 2 := g[SP - 15]][SP - 1 := g[SP - 6]]
  }

  lemma MovedExactly(g: seq<Cell>, e: seq<Cell>)
    requires |g| >= OFFSET + 2 && |e| == |g| + 2 && e[2..] == MovedCells(g)
    ensures e[OFFSET..] == [g[SP - 6], g[OFFSET..][0], g[OFFSET..][1], g[SP - 15]] + g[OFFSET..][2..]
  {
    assert e[OFFSET..] == e[2..][OFFSET - 2..];
  }

  lemma MovedTriple(r: seq<Cell>, s: seq<Cell>)
    requires |r| >= 4 && |s| >= 2 && r[1] == s[0] && r[2] == s[1]
    ensures Top3(r) == r[0] * WORD2 + Top2(s)
  {
  }

  lemma TripleQuotient(c: seq<Cell>, u: Cell, q3: Cell, r3: Cell)
    requires |c| >= 4 && u > 0 && c[1] == q3 * u + r3 && r3 < u
    ensures var (ut, x) := (Top3(c[1..]), r3 * WORD2 + Top2(c[2..]));
            ut / u == q3 * WORD2 + x / u && ut % u == x % u
  {
    var (ut, x) := (Top3(c[1..]), r3 * WORD2 + Top2(c[2..]));
    assert x == x / u * u + x % u;
    assert (q3 * WORD2 + x / u) * u == q3 * WORD2 * u + x / u * u;
    QuotientRemainder(ut, q3 * WORD2 + x / u, x % u, u);
  }

  // ----- the mixed product and quotient -----

  /** The product of the magnitudes. */
  function Magnitude(n: Cell, d: int): int {
    Abs(Signed(n)) * Abs(Signed2(d))
  }

  predicate MixedFits(n: Cell, d: int, u: Cell) {
    u > 0 && Magnitude(n, d) / u < WORD2
  }

  /** The double that M-star-slash leaves, if the unsigned quotient fits. */
  function MixedQuotient(n: Cell, d: int, u: Cell): int
    requires MixedFits(n, d, u)
  {
    var q := Magnitude(n, d) / u;
    if (Signed(n) < 0) != (Signed2(d) < 0) then -q % WORD2 else q
  }

  /** The double it leaves otherwise: the divisor and the product's high cell, as one number, with the sign put on. */
  function LeftOver(n: Cell, d: int, u: Cell): int {
    var x := u * WORD + Magnitude(n, d) / WORD2;
    if (Signed(n) < 0) != (Signed2(d) < 0) then -x % WORD2 else x
  }

  // M*/ ( d n1 n2 -- d2 ): takes n2 as unsigned, and ignores a failure of its division,
  // which leaves n2 and the triple product on the stack.
  method MStarSlash(m: Machine)
    requires m.Holds(4)
    modifies m, m.stack, m.rstack
    ensures m.Holds(2) && m.Others() == old(m.Others())
    ensures var (c, r) := (old(m.Contents()), m.Contents()); var (n2, n1, d) := (c[0], c[1], Top2(c[2..]));
            if MixedFits(n1, d, n2) then
              m.sp == old(m.sp) + 2 && Top2(r) == MixedQuotient(n1, d, n2) && r[2..] == c[4..]
            else
              && m.sp == old(m.sp) && Top2(r) == LeftOver(n1, d, n2) && Top2(r[2..]) == Magnitude(n1, d) % WORD2
              && r[4..] == c[4..]
  {
    hide Machine.Guarded, Machine.Contents, Machine.Others, Top2, Top3, Signed, Signed2, Abs;
    ghost var c := m.Contents();
    var n1 := m.Load(m.sp + 2);
    var hi := m.Load(m.sp + 3);
    HighCell(c[2..]);
    SignedCell(n1);
    ProductOver(m);
    ghost var b := m.Contents();
    var e := UtmSlash(m);
    if e != 0 { Undivided(b); }
    ghost var r := m.Contents();
    if Negative(n1) != Negative(hi) {
      DNegate(m);
      if e != 0 { BehindTwo(m.Contents(), r); }
    }
  }

  lemma BehindTwo(s: seq<Cell>, r: seq<Cell>)
    requires |r| >= 4 && |s| == |r| && s[2..] == r[2..]
    ensures s[4..] == r[4..]
  {
    assert s[4..] == s[2..][2..];
  }

  lemma Undivided(b: seq<Cell>)
    requires |b| >= 4
    ensures Top2(b) == b[0] * WORD + Top3(b[1..]) / WORD2 && Top2(b[2..]) == Top3(b[1..]) % WORD2
  {
  }

  lemma SignedCell(n: Cell)
    ensures Negative(n) <==> Signed(n) < 0
  {
  }

  /** The product of the magnitudes, below the divisor. */
  method ProductOver(m: Machine)
    requires m.Holds(4)
    modifies m, m.stack, m.rstack
    ensures m.Holds(4) && m.sp == old(m.sp) && m.Others() == old(m.Others())
    ensures var (c, r) := (old(m.Contents()), m.Contents());
            && r[0] == c[0] && Top3(r[1..]) == Magnitude(c[1], Top2(c[2..])) && r[4..] == c[4..]
  {
    hide Machine.Guarded, Machine.Contents, Machine.Others, Top2, Top3, Signed, Signed2, Abs;
    ghost var (c, g) := (m.Contents(), m.Guarded());
    m.Raise(1);
    ghost var g1 := m.Guarded();
    Magnitudes(m);
    ghost var g2 := m.Guarded();
    UdmStar(m);
    ghost var g3 := m.Guarded();
    m.Lower(1);
    Divisor(g, g1, g2, g3, m.Guarded());
  }

  lemma Divisor(g: seq<Cell>, g1: seq<Cell>, g2: seq<Cell>, g3: seq<Cell>, e: seq<Cell>)
    requires |g| >= OFFSET + 4 && g1 == g[1..] && |g2| == |g3| == |g1| && |e| == |g|
    requires g2[1..OFFSET] == g1[1..OFFSET] && g2[OFFSET..][3..] == g1[OFFSET..][3..]
    requires g3[..OFFSET] == g2[..OFFSET] && g3[OFFSET..][3..] == g2[OFFSET..][3..] && e[1..] == g3
    ensures g1[OFFSET..] == g[OFFSET..][1..] && g[OFFSET..][1..][1..] == g[OFFSET..][2..]
    ensures e[OFFSET..][0] == g[OFFSET..][0] && e[OFFSET..][1..] == g3[OFFSET..] && e[OFFSET..][4..] == g[OFFSET..][4..]
  {
    assert e[OFFSET] == e[1..][OFFSET - 1] == g3[..OFFSET][OFFSET - 1] == g2[1..OFFSET][OFFSET - 2] == g1[OFFSET - 1];
    assert e[OFFSET..][4..] == e[1..][OFFSET..][3..];
  }

  /** The quotient truncated toward zero. */
  function Truncated(x: int, n: int): int
    requires n > 0
  {
    if x < 0 then -(-x / n) else x / n
  }

  lemma TruncatedIs(x: int, n: int)
    requires n > 0
    ensures var r := x - Truncated(x, n) * n; -n < r < n && (r != 0 ==> (r < 0 <==> x < 0))
  {
    if x < 0 {
      assert -x == -x / n * n + -x % n;
      assert Truncated(x, n) * n == -(-x / n * n);
    } else {
      assert x == x / n * n + x % n;
    }
  }

  predicate FitsSigned2(x: int) {
    -WORD2 / 2 <= x < WORD2 / 2
  }

  /** For a positive divisor the result is the truncated quotient exactly when that is a signed double. */
  lemma MixedExactly(n: Cell, d: int, n2: Cell)
    requires 0 <= d < WORD2 && 0 < Signed(n2)
    ensures var x := Truncated(Signed(n) * Signed2(d), Signed(n2));
            FitsSigned2(x) <==> MixedFits(n, d, n2) && Signed2(MixedQuotient(n, d, n2)) == x
  {
    hide Truncated, FitsSigned2, Signed, Signed2, Abs;
    var p := Magnitude(n, d);
    SignOfProduct(n, d);
    TruncatedSign(p, Signed(n2));
    PositiveCell(n2);
    SignedQuotient(p / n2, (Signed(n) < 0) != (Signed2(d) < 0));
  }

  /** 2^62 times 2 by 1 does not fit: M-star-slash leaves the lowest double there is, without an error. */
  lemma MixedUnreported()
    ensures MixedFits(2, WORD2 / 4, 1) && Signed2(MixedQuotient(2, WORD2 / 4, 1)) == -WORD2 / 2
    ensures Truncated(Signed(2) * Signed2(WORD2 / 4), Signed(1)) == WORD2 / 2
  {
  }

  lemma PositiveCell(n: Cell)
    requires Signed(n) > 0
    ensures Signed(n) == n
  {
  }

  lemma SignOfProduct(n: Cell, d: int)
    ensures Magnitude(n, d) >= 0
    ensures Signed(n) * Signed2(d) == if (Signed(n) < 0) != (Signed2(d) < 0) then -Magnitude(n, d) else Magnitude(n, d)
  {
    hide Signed, Signed2;
  }

  lemma SignedQuotient(q: int, negative: bool)
    requires q >= 0
    ensures var x := if negative then -q else q;
            FitsSigned2(x) <==> q < WORD2 && Signed2(if negative then -q % WORD2 else q) == x
  {
  }

  lemma TruncatedSign(p: int, n: int)
    requires n > 0 && p >= 0
    ensures Truncated(-p, n) == -(p / n) && Truncated(p, n) == p / n && p / n >= 0
  {
    if p > 0 { assert Truncated(-p, n) == -(-(-p) / n); }
  }
}
