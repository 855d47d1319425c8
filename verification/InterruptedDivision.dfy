/**
 * UM/MOD and FM/MOD as sequences of accesses: what they leave, which errors they report, and
 * when the processor stops at their division; with signals between all accesses.
 */
module InterruptedDivision {
  import opened Cells
  import opened Wide
  import opened Machines
  import opened Sequences
  import opened Interleaving
  import opened InterruptedWords
  import opened Divide
  import opened Multiply

  /** The processor stops at a division whose quotient is no cell. */
  const FAULT: int := -1

  // ----- UM/MOD -----

  /** UM/MOD ( ud u1 -- u2 u3 ) */
  function UmSlashMod(p: int): Word {
    (past: seq<Cell>) =>
      var k := |past|;
      if k == 0 then Load(p + 1)
      else if past[0] == 0 then Done(E_DIV_ZERO)
      else if k == 1 then Load(p + 2)
      else if Divl(0, past[1], past[0]).0 != 0 then Done(E_DIV_OVERFLOW)
      else if k == 2 then Load(p + 2)
      else if k == 3 then Load(p + 3)
      else if past[2] >= past[0] then Done(FAULT)
      else
        var d := Divl(past[2], past[3], past[0]);
        if k == 4 then Put(p + 3, d.1)
        else if k == 5 then Put(p + 2, d.0)
        else if k == 6 then MoveSp(p + 1)
        else Done(0)
  }

  /** The error and the stack: an error exactly if the divisor is 0 or the quotient is no cell. */
  function UmLeft(c: seq<Cell>): (int, seq<Cell>)
    requires |c| >= 3
  {
    var (u, ud) := (c[0], Top2(c[1..]));
    if u == 0 then (E_DIV_ZERO, c)
    else if ud / u >= WORD then (E_DIV_OVERFLOW, c)
    else (0, [ud / u, ud % u] + c[3..])
  }

  /** UM/MOD leaves the quotient and remainder, or an error and the stack as it was; never a fault. */
  lemma UmSlashModRuns(s: State, h: Height) returns (n: nat)
    requires s.Valid() && |s.Stack()| >= 3 && h == Height(s.sp + 1, s.rp)
    ensures var (error, stack) := UmLeft(s.Stack()); Ends(UmSlashMod(s.sp), s, h, n, stack, error)
  {
    hide At, Divl, Top2;
    var (p, w) := (s.sp, UmSlashMod(s.sp));
    var (u, hi, lo) := (s.ds[p + 1], s.ds[p + 2], s.ds[p + 3]);
    assert s.Stack()[0] == u && s.Stack()[1..][0] == hi && s.Stack()[1..][1] == lo;
    Start(w, s, h);
    var past := Loads(w, s, h, 0, [], s, p + 1);
    n := 1;
    if u == 0 {
      Ended(w, s, h, 1, past, s, E_DIV_ZERO);
    } else {
      past := Loads(w, s, h, 1, past, s, p + 2);
      n := 2;
      HighQuotient(s.Stack()[1..], u);
      if Divl(0, hi, u).0 != 0 {
        Ended(w, s, h, 2, past, s, E_DIV_OVERFLOW);
      } else {
        n := 7;
        UmDivides(s, h, past);
        assert s.ds[p + 4..] == s.Stack()[3..];
      }
    }
  }

  /** Quotient and remainder are cells. */
  predicate Quotients(ud: int, u: Cell) {
    u > 0 && 0 <= ud / u < WORD && 0 <= ud % u < WORD
  }

  lemma HighQuotient(t: seq<Cell>, u: Cell)
    requires |t| >= 2 && u > 0
    ensures Top2(t) / u >= WORD <==> Divl(0, t[0], u).0 != 0
    ensures Divl(0, t[0], u).0 == 0 ==>
              t[0] < u && Divl(t[0], t[1], u) == (Top2(t) / u, Top2(t) % u) && Quotients(Top2(t), u)
  {
    var d := Divl(0, t[0], u);
    if d.0 == 0 {
      QuotientFits(t[0], t[1], u);
    } else {
      Grows(1, d.0, u);
      AtLeast(Top2(t), u, WORD);
    }
  }

  /** There are three cells on the stack, the top one of which is dropped. */
  predicate HasThree(s: State, h: Height) {
    s.Valid() && s.sp + 3 < |s.ds| && h == Height(s.sp + 1, s.rp)
  }

  lemma UmDivides(s: State, h: Height, past: seq<Cell>)
    requires HasThree(s, h) && At(UmSlashMod(s.sp), s, h, 2, past, s)
    requires |past| == 2 && past[0] == s.ds[s.sp + 1] > s.ds[s.sp + 2] && Divl(0, past[1], past[0]).0 == 0
    ensures var d := Divl(s.ds[s.sp + 2], s.ds[s.sp + 3], past[0]);
            Ends(UmSlashMod(s.sp), s, h, 7, [d.0, d.1] + s.ds[s.sp + 4..], 0)
  {
    hide At, Ends, Divl, State.Stack;
    var (p, w) := (s.sp, UmSlashMod(s.sp));
    var d := Divl(s.ds[p + 2], s.ds[p + 3], past[0]);
    var more := Loads(w, s, h, 2, past, s, p + 2);
    more := Loads(w, s, h, 3, more, s, p + 3);
    var t;
    more, t := Puts(w, s, h, 4, more, s, p + 3, d.1);
    more, t := Puts(w, s, h, 5, more, t, p + 2, d.0);
    more, t := Points(w, s, h, 6, more, t, p + 1);
    Ended(w, s, h, 7, more, t, 0);
    TopTwo(s, h, t);
  }

  /** UM/MOD, under signals. */
  method UmSlashModWord(m: Machine) returns (e: int)
    requires m.Holds(3)
    modifies m, m.stack, m.rstack
    ensures var (error, stack) := UmLeft(old(m.Contents())); e == error && Leaves(m, stack)
  {
    hide Ends, UmLeft;
    ghost var (error, stack) := UmLeft(m.Contents());
    ghost var (s, h) := (Now(m), Height(m.sp + 1, m.rp));
    StackIs(m);
    ghost var n := UmSlashModRuns(s, h);
    e := Interrupted(m, UmSlashMod(m.sp), h, n, stack, error);
  }

  // ----- FM/MOD -----

  /** The quotient truncated toward zero, and the floored one. */
  function TowardZero(x: int, n: int): int
    requires n != 0
  {
    if (x < 0) == (n < 0) then Abs(x) / Abs(n) else -(Abs(x) / Abs(n))
  }

  function Floored(x: int, n: int): int
    requires n != 0
  {
    if n > 0 then x / n else -x / -n
  }

  /** idivl: the signed double edx:eax by ecx, truncated; the processor faults if the quotient is no signed cell. */
  function Idivl(edx: Cell, eax: Cell, ecx: Cell): Option<(Cell, Cell)>
    requires ecx != 0
  {
    var (x, n) := (Signed2(edx * WORD + eax), Signed(ecx));
    var q := TowardZero(x, n);
    if FitsSigned(q) then Some((Wrap(q), Wrap(x - q * n))) else None
  }

  /** The remainder has not the sign of the divisor. */
  predicate Lowers(u: Cell, r: Cell) {
    if Signed(u) > 0 then Signed(r) < 0 else Signed(r) > 0
  }

  function Less1(c: Cell): Cell {
    Wrap((c as int) - 1)
  }

  function Sum(a: Cell, b: Cell): Cell {
    Wrap((a as int) + b)
  }

  /**
   * FM/MOD ( d n1 -- n2 n3 ): the truncated quotient is made one less where the remainder has not the
   * sign of the divisor.
   */
  function FmSlashMod(p: int): Word {
    (past: seq<Cell>) =>
      var k := |past|;
      if k == 0 then MoveSp(p + 1)
      else if k == 1 then Load(p + 1)
      else if past[1] == 0 then Done(E_DIV_ZERO)
      else if k == 2 then Load(p + 2)
      else if k == 3 then Load(p + 3)
      else
        match Idivl(past[2], past[3], past[1])
        case None => Done(FAULT)
        case Some((q, r)) =>
          if k == 4 then Put(p + 3, r)
          else if k == 5 then Put(p + 2, q)
          else if !Lowers(past[1], r) then Done(0)
          else if k == 6 then Put(p + 2, Less1(q))
          else if k == 7 then Load(p + 3)
          else if k == 8 then Put(p + 3, Sum(past[7], past[1]))
          else Done(0)
  }

  /**
   * The error and the stack: an error exactly if the divisor is 0, which is dropped, and a fault
   * exactly if the truncated quotient is no signed cell.
   */
  function FmLeft(c: seq<Cell>): (int, seq<Cell>)
    requires |c| >= 3
  {
    var (u, x) := (Signed(c[0]), Signed2(Top2(c[1..])));
    if u == 0 then (E_DIV_ZERO, c[1..])
    else if !FitsSigned(TowardZero(x, u)) then (FAULT, c[1..])
    else (0, [Wrap(Floored(x, u)), Wrap(x - Floored(x, u) * u)] + c[3..])
  }

  /** FM/MOD leaves the floored quotient and its remainder as cells, or an error or a fault. */
  lemma FmSlashModRuns(s: State, h: Height) returns (n: nat)
    requires s.Valid() && |s.Stack()| >= 3 && h == Height(s.sp + 1, s.rp)
    ensures var (error, stack) := FmLeft(s.Stack()); Ends(FmSlashMod(s.sp), s, h, n, stack, error)
  {
    hide At, Ends, Idivl, Top2, Signed2, TowardZero, Floored, Lowers, Adjusted, Wrap;
    var (p, w) := (s.sp, FmSlashMod(s.sp));
    var (u, hi, lo) := (s.ds[p + 1], s.ds[p + 2], s.ds[p + 3]);
    assert s.Stack()[0] == u && s.Stack()[1..][0] == hi && s.Stack()[1..][1] == lo;
    Start(w, s, h);
    var past, t := Points(w, s, h, 0, [], s, p + 1);
    past := Loads(w, s, h, 1, past, t, p + 1);
    assert t.Stack() == s.Stack()[1..];
    n := 2;
    if u == 0 {
      Ended(w, s, h, 2, past, t, E_DIV_ZERO);
    } else {
      past := Loads(w, s, h, 2, past, t, p + 2);
      past := Loads(w, s, h, 3, past, t, p + 3);
      n := 4;
      IdivlOf(s.Stack()[1..], u);
      if Idivl(hi, lo, u) == None {
        Ended(w, s, h, 4, past, t, FAULT);
      } else {
        var (q, r) := Idivl(hi, lo, u).value;
        FlooredCells(s.Stack()[1..], u, q, r);
        n := FmDivides(s, h, past, t, q, r);
        assert s.ds[p + 4..] == s.Stack()[3..];
      }
    }
  }

  lemma IdivlOf(t: seq<Cell>, u: Cell)
    requires |t| >= 2 && u != 0
    ensures var (x, n) := (Signed2(Top2(t)), Signed(u)); var q := TowardZero(x, n);
            Idivl(t[0], t[1], u) == if FitsSigned(q) then Some((Wrap(q), Wrap(x - q * n))) else None
  {
  }

  /** What is left of quotient and remainder by a divisor. */
  function Adjusted(u: Cell, q: Cell, r: Cell): (Cell, Cell) {
    if Lowers(u, r) then (Less1(q), Sum(r, u)) else (q, r)
  }

  lemma FmDivides(s: State, h: Height, past: seq<Cell>, t: State, q: Cell, r: Cell) returns (n: nat)
    requires HasThree(s, h) && t == s.(sp := s.sp + 1) && At(FmSlashMod(s.sp), s, h, 4, past, t)
    requires |past| == 4 && past[1] == s.ds[s.sp + 1] != 0 && Idivl(past[2], past[3], past[1]) == Some((q, r))
    ensures var a := Adjusted(past[1], q, r); Ends(FmSlashMod(s.sp), s, h, n, [a.0, a.1] + s.ds[s.sp + 4..], 0)
  {
    hide At, Ends, Idivl, Lowers, Less1, Sum, State.Stack;
    var (p, w, u) := (s.sp, FmSlashMod(s.sp), past[1]);
    var more, v := Puts(w, s, h, 4, past, t, p + 3, r);
    more, v := Puts(w, s, h, 5, more, v, p + 2, q);
    n := 6;
    if Lowers(u, r) {
      more, v := FmLowers(s, h, more, v, q, r);
      n := 9;
    }
    Ended(w, s, h, n, more, v, 0);
    TopTwo(s, h, v);
  }

  lemma TopTwo(s: State, h: Height, v: State)
    requires HasThree(s, h) && v.Valid() && v.sp == s.sp + 1 && |v.ds| == |s.ds|
    requires forall i | s.sp + 4 <= i < |s.ds| :: v.ds[i] == s.ds[i]
    ensures v.Stack() == [v.ds[s.sp + 2], v.ds[s.sp + 3]] + s.ds[s.sp + 4..]
  {
  }

  function Written(ds: seq<Cell>, i: int, a: Cell, b: Cell): (es: seq<Cell>)
    requires 0 <= i < |ds| - 1
  {
    ds[i := a][i + 1 := b]
  }

  /** Both divisor and dividend have passed, and their quotient and remainder are these. */
  predicate HaveQuotient(past: seq<Cell>, q: Cell, r: Cell) {
    |past| >= 4 && past[1] != 0 && Idivl(past[2], past[3], past[1]) == Some((q, r))
  }

  lemma FmLowers(s: State, h: Height, past: seq<Cell>, t: State, q: Cell, r: Cell)
    returns (more: seq<Cell>, v: State)
    requires HasThree(s, h) && |t.ds| == |s.ds| && At(FmSlashMod(s.sp), s, h, 6, past, t) && t.ds[s.sp + 3] == r
    requires |past| == 6 && HaveQuotient(past, q, r) && Lowers(past[1], r)
    ensures |more| == 9 && HaveQuotient(more, q, r) && more[1] == past[1] && At(FmSlashMod(s.sp), s, h, 9, more, v)
    ensures v == t.(ds := Written(t.ds, s.sp + 2, Less1(q), Sum(r, past[1])))
  {
    hide At, Idivl, Lowers, Less1, Sum;
    var (p, w) := (s.sp, FmSlashMod(s.sp));
    more, v := Puts(w, s, h, 6, past, t, p + 2, Less1(q));
    more := Loads(w, s, h, 7, more, v, p + 3);
    more, v := Puts(w, s, h, 8, more, v, p + 3, Sum(r, past[1]));
  }

  /** From the truncated quotient and its remainder to the floored ones. */
  lemma FlooredCells(t: seq<Cell>, u: Cell, q: Cell, r: Cell)
    requires |t| >= 2 && u != 0 && Idivl(t[0], t[1], u) == Some((q, r))
    ensures var (x, n) := (Signed2(Top2(t)), Signed(u)); var f := Floored(x, n);
            Adjusted(u, q, r) == (Wrap(f), Wrap(x - f * n))
  {
    hide Idivl, Top2, Signed2, TowardZero, Floored, Lowers, Less1, Sum, Wrap;
    var (x, n) := (Signed2(Top2(t)), Signed(u));
    IdivlOf(t, u);
    FlooredFromTruncated(x, n);
    var (k, m) := (TowardZero(x, n), x - TowardZero(x, n) * n);
    assert (k - 1) * n == k * n - n;
    CellsOf(k, m, u);
  }

  lemma CellsOf(k: int, m: int, u: Cell)
    requires FitsSigned(m)
    ensures Less1(Wrap(k)) == Wrap(k - 1) && Sum(Wrap(m), u) == Wrap(m + Signed(u))
    ensures Lowers(u, Wrap(m)) <==> if Signed(u) > 0 then m < 0 else m > 0
  {
    WrapSmall(m);
    WrapSum(k, -1);
    WrapSum(m, u);
    WrapSigned(m, u);
    hide Wrap, Signed;
  }

  lemma WrapSum(x: int, y: int)
    ensures Wrap((Wrap(x) as int) + y) == Wrap(x + y)
  {
  }

  lemma WrapSigned(m: int, u: Cell)
    ensures Wrap(m + u) == Wrap(m + Signed(u))
  {
  }

  lemma WrapSmall(x: int)
    requires FitsSigned(x)
    ensures Signed(Wrap(x)) == x
  {
  }

  lemma FlooredFromTruncated(x: int, n: int)
    requires n != 0 && -WORD / 2 <= n < WORD / 2
    ensures var k := TowardZero(x, n); var r := x - k * n;
            && FitsSigned(r)
            && Floored(x, n) == if (if n > 0 then r < 0 else r > 0) then k - 1 else k
  {
    var a: int, b: int := Abs(x), Abs(n);
    QuotientAndRest(a, b);
    var k := TowardZero(x, n);
    var product: int := a / b * b;
    assert k * n == if x < 0 then -product else product by { Signs(a / b, n, x); }
    if n > 0 {
      FloorIs(x, n, if x - k * n < 0 then k - 1 else k);
    } else {
      FloorIs(-x, -n, if x - k * n > 0 then k - 1 else k);
    }
  }

  /** What the quotient towards zero leaves has the dividend's sign, and what the floored one leaves the divisor's. */
  lemma SignsOfRemainders(x: int, n: int)
    requires n != 0
    ensures var r := x - TowardZero(x, n) * n; Abs(r) < Abs(n) && (r != 0 ==> (r < 0 <==> x < 0))
    ensures var r := x - Floored(x, n) * n; Abs(r) < Abs(n) && (r != 0 ==> (r < 0 <==> n < 0))
  {
    TruncatedLeaves(x, n);
    FlooredLeaves(x, n);
  }

  lemma TruncatedLeaves(x: int, n: int)
    requires n != 0
    ensures var r := x - TowardZero(x, n) * n; Abs(r) < Abs(n) && (r != 0 ==> (r < 0 <==> x < 0))
  {
    var (a: int, b: int) := (Abs(x), Abs(n));
    QuotientAndRest(a, b);
    Signs(a / b, n, x);
    var q := a / b;
    assert TowardZero(x, n) == if (x < 0) == (n < 0) then q else -q;
  }

  lemma FlooredLeaves(x: int, n: int)
    requires n != 0
    ensures var r := x - Floored(x, n) * n; Abs(r) < Abs(n) && (r != 0 ==> (r < 0 <==> n < 0))
  {
    if n > 0 { FloorRest(x, n); } else { FloorRest(-x, -n); }
  }

  lemma FloorRest(x: int, n: int)
    requires n > 0
    ensures 0 <= x - x / n * n < n && x / n * -n == -(x / n * n)
  {
  }

  lemma QuotientAndRest(a: int, b: int)
    requires a >= 0 && b > 0
    ensures 0 <= a - a / b * b < b
  {
  }

  lemma Signs(q: int, n: int, x: int)
    requires n != 0
    ensures (if (x < 0) == (n < 0) then q else -q) * n == if x < 0 then -(q * Abs(n)) else q * Abs(n)
  {
  }

  lemma FloorIs(x: int, n: int, f: int)
    requires n > 0 && 0 <= x - f * n < n
    ensures x / n == f
  {
    var g := x / n;
    if g > f { Grows(f + 1, g, n); }
    if g < f { Grows(g + 1, f, n); }
  }

  /** FM/MOD, under signals. */
  method FmSlashModWord(m: Machine) returns (e: int)
    requires m.Holds(3)
    modifies m, m.stack, m.rstack
    ensures var (error, stack) := FmLeft(old(m.Contents())); e == error && Leaves(m, stack)
  {
    hide Ends, FmLeft;
    ghost var (error, stack) := FmLeft(m.Contents());
    ghost var (s, h) := (Now(m), Height(m.sp + 1, m.rp));
    StackIs(m);
    ghost var n := FmSlashModRuns(s, h);
    e := Interrupted(m, FmSlashMod(m.sp), h, n, stack, error);
  }
}
