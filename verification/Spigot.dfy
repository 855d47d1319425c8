/**
 * The pi spigot: the transformation z, kept in three numbers, its products from the left
 * and from the right, and the digits that it emits.
 */
module Spigot {
  import opened Cells
  import opened Wide
  import opened PNumbers

  /** z = (q r; 0 t), which takes x to (q x + r) / t. */
  datatype Matrix = Matrix(q: int, r: int, t: int)

  /** The product of two such matrices. */
  function Product(a: Matrix, b: Matrix): Matrix {
    Matrix(a.q * b.q, a.q * b.r + a.r * b.t, a.t * b.t)
  }

  /** Between digits: z takes 3 to a number that is not negative, and 4 to one below 10. */
  predicate Bounded(z: Matrix) {
    z.q > 0 && z.t > 0 && 3 * z.q + z.r >= 0 && 4 * z.q + z.r < 10 * z.t
  }

  /** The next matrix of the series for pi. */
  function Term(k: int): Matrix {
    Matrix(k, 4 * k + 2, 2 * k + 1)
  }

  /** The removal of digit n. */
  function Remove(n: int): Matrix {
    Matrix(10, -10 * n, 1)
  }

  /** A product acts as its factors one after the other: first the right one, then the left one. */
  lemma ProductActs(a: Matrix, b: Matrix, x: int)
    ensures var c := Product(a, b); c.q * x + c.r == a.q * (b.q * x + b.r) + a.r * b.t && c.t == a.t * b.t
  {
  }

  /** Taking out n takes it from the number, and moves the rest up by one decimal place. */
  lemma RemoveShifts(z: Matrix, n: int, x: int)
    ensures var y := Product(Remove(n), z); y.q * x + y.r == 10 * ((z.q * x + z.r) - n * z.t) && y.t == z.t
  {
    ProductActs(Remove(n), z, x);
  }

  /** Multiplying by the next term keeps the bounds. */
  lemma TermKeeps(z: Matrix, k: int)
    requires Bounded(z) && k >= 1
    ensures Bounded(Product(z, Term(k)))
  {
    var (q, r, t) := (z.q, z.r, z.t);
    Expand(q, k);
    Expand(r, k);
    Expand(t, k);
    var s := 2 * k + 1;
    Sum(3, q, r, s);
    Sum(4, q, r, s);
    Grows(0, 3 * q + r, s);
    Grows(4 * q + r + 1, 10 * t, s);
    Grows(1, k, q);
    Grows(1, t, s);
  }

  lemma Expand(x: int, k: int)
    ensures x * (2 * k + 1) == 2 * (x * k) + x && x * (4 * k + 2) == 4 * (x * k) + 2 * x && k * x == x * k
    ensures 10 * x * (2 * k + 1) == 10 * (x * (2 * k + 1))
  {
  }

  lemma Sum(c: int, q: int, r: int, s: int)
    ensures (c * q + r) * s == c * (q * s) + r * s && (c * q + r + 1) * s == c * (q * s) + r * s + s
  {
  }

  /** So does the removal of a digit that both ends agree on. */
  lemma RemoveKeeps(z: Matrix, n: int)
    requires Bounded(z) && n * z.t <= 3 * z.q + z.r && 4 * z.q + z.r < (n + 1) * z.t
    ensures Bounded(Product(Remove(n), z))
  {
    var p := Product(Remove(n), z);
    assert p.r == 10 * z.r - 10 * (n * z.t);
    assert (n + 1) * z.t == n * z.t + z.t;
  }

  /** z after n more terms of the series, the last of which had number k. */
  function Terms(z: Matrix, k: nat, n: nat): Matrix
    decreases n
  {
    if n == 0 then z else Terms(Product(z, Term(k + 1)), k + 1, n - 1)
  }

  lemma {:induction false} MoreTerms(z: Matrix, k: nat, n: nat)
    ensures Terms(z, k, n + 1) == Product(Terms(z, k, n), Term(k + n + 1))
    decreases n
  {
    hide Product, Term;
    if n > 0 { MoreTerms(Product(z, Term(k + 1)), k + 1, n - 1); }
  }

  // ----- the series -----

  function Factorial(n: nat): nat {
    if n == 0 then 1 else n * Factorial(n - 1)
  }

  /** The product of 3, 5, ..., 2 n + 1. */
  function Odds(n: nat): (t: nat)
    ensures t > 0
  {
    if n == 0 then 1 else (2 * n + 1) * Odds(n - 1)
  }

  /** The first n terms of 2 + 2 1! / 3 + 2 2! / (3 5) + 2 3! / (3 5 7) + ... */
  function PartialSum(n: nat): real {
    if n == 0 then 0.0 else PartialSum(n - 1) + 2.0 * (Factorial(n - 1) as real) / (Odds(n - 1) as real)
  }

  /** z takes x to x times n! / (3 5 ... (2 n + 1)) and the first n terms of the series together. */
  predicate Sums(z: Matrix, n: nat) {
    z.q == Factorial(n) && z.t == Odds(n) && (z.r as real) == PartialSum(n) * (z.t as real)
  }

  /** So does z after n terms from the start. */
  lemma {:induction false} SeriesIs(n: nat)
    ensures Sums(Terms(Matrix(1, 0, 1), 0, n), n)
    decreases n
  {
    hide Terms, Product, Term, Sums;
    if n == 0 {
      NoTerms(Matrix(1, 0, 1), 0);
      NoSum();
    } else {
      SeriesIs(n - 1);
      MoreTerms(Matrix(1, 0, 1), 0, n - 1);
      NextSum(n, Terms(Matrix(1, 0, 1), 0, n - 1));
    }
  }

  lemma NoSum()
    ensures Sums(Matrix(1, 0, 1), 0)
  {
  }

  lemma NextSum(n: nat, z: Matrix)
    requires n > 0 && Sums(z, n - 1)
    ensures Sums(Product(z, Term(n)), n)
  {
    hide PartialSum, Factorial, Odds;
    SumOf(n);
    var (a: real, t: real, m: real) := (z.q as real, z.t as real, (2 * n + 1) as real);
    var y := Product(z, Term(n));
    assert (y.r as real) == a * (2.0 * m) + (z.r as real) * m;
    assert (y.t as real) == t * m;
    Scaled(PartialSum(n - 1), a, t, m);
  }

  lemma SumOf(n: nat)
    requires n > 0
    ensures PartialSum(n) == PartialSum(n - 1) + 2.0 * (Factorial(n - 1) as real) / (Odds(n - 1) as real)
    ensures Factorial(n) == n * Factorial(n - 1) && Odds(n) == (2 * n + 1) * Odds(n - 1)
  {
  }

  lemma Scaled(s: real, a: real, t: real, m: real)
    requires t > 0.0
    ensures (s + 2.0 * a / t) * (t * m) == a * (2.0 * m) + s * t * m
  {
    assert 2.0 * a / t * t == 2.0 * a;
  }

  /** From the start no digit agrees before the first term, and 3 after it. */
  lemma FirstDigit()
    ensures Open(Matrix(1, 0, 1)) && Agree(Terms(Matrix(1, 0, 1), 0, 1), 3)
  {
    hide Terms, Open;
    NoneAgrees(Matrix(1, 0, 1), 3);
    FirstTerm();
  }

  lemma FirstTerm()
    ensures Terms(Matrix(1, 0, 1), 0, 1) == Matrix(1, 6, 3)
  {
    hide Terms;
    NoTerms(Matrix(1, 0, 1), 0);
    MoreTerms(Matrix(1, 0, 1), 0, 0);
  }

  /** n is the integer part of z at 3, and also of z at 4. */
  predicate Agree(z: Matrix, n: int) {
    n * z.t <= 3 * z.q + z.r && 4 * z.q + z.r < (n + 1) * z.t
  }

  /** z at 3 and z at 4 have different integer parts. */
  ghost predicate Open(z: Matrix) {
    forall n :: !Agree(z, n)
  }

  /** If z at 4 has another integer part than z at 3, no digit agrees with both. */
  lemma NoneAgrees(z: Matrix, n: int)
    requires z.t > 0 && 3 * z.q + z.r < (n + 1) * z.t <= 4 * z.q + z.r
    ensures Open(z)
  {
    forall d ensures !Agree(z, d) {
      if d <= n { Grows(d + 1, n + 1, z.t); } else { Grows(n + 1, d, z.t); }
    }
  }

  lemma NegativeValue(d: seq<Cell>)
    requires d != []
    ensures Negative(d[|d| - 1]) <==> Value(d) < 0
  {
    SignedValue(d);
  }

  class Series {
    const aq: PNumber
    const ar: PNumber
    const at: PNumber
    const here: PNumber
    var k: nat

    ghost predicate Valid()
      reads this, aq, ar, at, here
    {
      && aq != ar && aq != at && aq != here && ar != at && ar != here && at != here
      && aq.Valid() && ar.Valid() && at.Valid() && here.Valid()
    }

    ghost function Z(): Matrix
      reads this, aq, ar, at, here
      requires Valid()
    {
      Matrix(Value(aq.cells), Value(ar.cells), Value(at.cells))
    }

    constructor ()
      ensures Valid() && Z() == Matrix(1, 0, 1) && Bounded(Z()) && k == 0
      ensures fresh(aq) && fresh(ar) && fresh(at) && fresh(here)
    {
      aq := new PNumber(1);
      ar := new PNumber(0);
      at := new PNumber(1);
      here := new PNumber(0);
      k := 0;
      new;
      OneCell(1);
      OneCell(0);
    }

    /** compose< with bq, br and bt: z times their matrix. */
    method ComposeLeft(bq: Cell, br: Cell, bt: Cell)
      requires Valid()
      modifies aq, ar, at, here
      ensures Valid() && Z() == Product(old(Z()), Matrix(bq, br, bt))
    {
      hide Value;
      Times(at, bt);
      Times(ar, bt);
      here.Copy(aq);
      Times(here, br);
      Plus(here, ar);
      Times(aq, bq);
    }

    /** compose> with bt, br and bq: their matrix, with br negative, times z. */
    method ComposeRight(bt: Cell, br: Cell, bq: Cell)
      requires Valid() && Z().t > 0
      modifies aq, ar, at, here
      ensures Valid() && Z() == Product(Matrix(bq, -(br as int), bt), old(Z()))
    {
      hide Value, Difference;
      ghost var z := Z();
      Times(aq, bq);
      Times(ar, bq);
      here.Copy(at);
      Times(here, br);
      Grows(0, z.t, br);
      LessExactly(Value(ar.cells), Value(here.cells), Longer(|here.cells|, |ar.cells|));
      Less(here, ar);
      Times(at, bt);
      Commuted(z, bq, br, bt);
    }

    /** z(3): the integer part of z at 3, by repeated subtraction; the rest less one more t is left. */
    method AtThree() returns (n: Cell)
      requires Valid() && Bounded(Z())
      modifies aq, ar, at, here
      ensures Valid() && Z() == old(Z()) && n <= 9 && n * Z().t <= 3 * Z().q + Z().r
      ensures Value(here.cells) == 3 * Z().q + Z().r - (n + 1) * Z().t < 0
    {
      hide Value, Difference;
      ghost var z := Z();
      ghost var x := 3 * z.q + z.r;
      here.Copy(aq);
      Times(here, 3);
      Plus(ar, here);
      n := 0;
      TakeT(x);
      OneT(z.t);
      NegativeValue(here.cells);
      while !here.IsNegative()
        invariant Valid() && Z() == z && n <= 9 && n * z.t <= x
        invariant Value(here.cells) == x - (n + 1) * z.t && (here.IsNegative() <==> Value(here.cells) < 0)
        decreases Value(here.cells)
      {
        FewT(n, x, z);
        n := n + 1;
        TakeT(x - n * z.t);
        NegativeValue(here.cells);
      }
    }

    /** at here p-, for a here of value y. */
    method TakeT(ghost y: int)
      requires Valid() && Z().t > 0 && Value(here.cells) == y
      modifies at, here
      ensures Valid() && Z() == old(Z()) && Value(here.cells) == y - Z().t
    {
      hide Value, Difference;
      LessExactly(Value(here.cells), Value(at.cells), Longer(|at.cells|, |here.cells|));
      Less(at, here);
    }

    /** z(4)same? on what z(3) left. */
    method SameAtFour(ghost n: Cell) returns (same: bool)
      requires Valid() && Value(here.cells) == 3 * Z().q + Z().r - (n + 1) * Z().t
      modifies aq, here
      ensures Valid() && Z() == old(Z()) && (same <==> 4 * Z().q + Z().r < (n + 1) * Z().t)
    {
      hide Value;
      Plus(aq, here);
      NegativeValue(here.cells);
      same := here.IsNegative();
    }

    /** z(3) z(4)same? */
    method Look() returns (n: Cell, same: bool)
      requires Valid() && Bounded(Z())
      modifies aq, ar, at, here
      ensures Valid() && Z() == old(Z()) && n <= 9 && n * Z().t <= 3 * Z().q + Z().r
      ensures if same then 4 * Z().q + Z().r < (n + 1) * Z().t else Open(Z())
    {
      hide Value, Open;
      n := AtThree();
      same := SameAtFour(n);
      if !same { NoneAgrees(Z(), n); }
    }

    /** generate compose< */
    method NextTerm()
      requires Valid() && k + 1 < WORD / 4 && Bounded(Z())
      modifies this, aq, ar, at, here
      ensures Valid() && k == old(k) + 1 && Z() == Product(old(Z()), Term(k)) && Bounded(Z())
    {
      hide Value, Bounded, Product;
      TermKeeps(Z(), k + 1);
      k := k + 1;
      ComposeLeft(k, 4 * k + 2, 2 * k + 1);
    }

    /**
     * pidigit, with so many attempts at most: the digit that z at 3 and z at 4 agree on, after the first m
     * terms for which they do.
     */
    method Digit(attempts: nat) returns (found: bool, n: Cell, ghost m: nat)
      requires Valid() && Bounded(Z()) && k + attempts < WORD / 4
      modifies this, aq, ar, at, here
      ensures Valid() && Bounded(Z()) && m <= attempts && k == old(k) + m
      ensures found ==> n <= 9 && Agree(Terms(old(Z()), old(k), m), n)
      ensures found ==> Z() == Product(Remove(n), Terms(old(Z()), old(k), m))
      ensures !found ==> m == attempts && Z() == Terms(old(Z()), old(k), m) && Open(Z())
      ensures forall j | 0 <= j < m :: Open(Terms(old(Z()), old(k), j))
    {
      hide Value, Bounded, Product, Terms, Open;
      m := 0;
      ghost var z := Z();
      NoTerms(z, k);
      n, found := Look();
      for i := 0 to attempts
        invariant Valid() && Bounded(Z()) && m <= i && k == old(k) + m && Z() == Terms(z, old(k), m)
        invariant n <= 9 && n * Z().t <= 3 * Z().q + Z().r && (found ==> 4 * Z().q + Z().r < (n + 1) * Z().t)
        invariant !found ==> m == i && Open(Z())
        invariant forall j | 0 <= j < m :: Open(Terms(z, old(k), j))
      {
        if !found {
          MoreTerms(z, old(k), m);
          NextTerm();
          m := m + 1;
          n, found := Look();
        }
      }
      if found {
        RemoveKeeps(Z(), n);
        PositiveT(Z());
        ComposeRight(1, 10 * n, 10);
      }
    }
  }

  lemma PositiveT(z: Matrix)
    requires Bounded(z)
    ensures z.t > 0
  {
  }

  lemma NoTerms(z: Matrix, k: nat)
    ensures Terms(z, k, 0) == z
  {
  }

  lemma OneCell(c: Cell)
    requires c <= 1
    ensures Value([c]) == c
  {
    UnsignedSnoc([], c);
    assert [c] == [] + [c] && Base(0) == 1;
  }

  lemma OneT(t: int)
    ensures (0 + 1) * t == t && 0 * t == 0
  {
  }

  /** While the rest is not negative, another t was to be had. */
  lemma FewT(n: Cell, x: int, z: Matrix)
    requires Bounded(z) && x == 3 * z.q + z.r && n <= 9 && x - (n + 1) * z.t >= 0
    ensures n + 1 <= 9 && (n + 1) * z.t <= x && x - (n + 1) * z.t - z.t == x - (n + 2) * z.t
  {
  }

  lemma Commuted(z: Matrix, bq: Cell, br: Cell, bt: Cell)
    ensures Product(Matrix(bq, -(br as int), bt), z) == Matrix(z.q * bq, z.r * bq - z.t * br, z.t * bt)
  {
  }
}
