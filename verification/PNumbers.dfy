/**
 * Numbers of any length in two's complement, low cell first, with in-place
 * multiplication by a cell, addition and subtraction.
 */
module PNumbers {
  import opened Cells
  import opened Wide

  /** The power of WORD that cell k counts. */
  function Base(k: nat): (b: nat)
    ensures b >= 1
  {
    if k == 0 then 1 else WORD * Base(k - 1)
  }

  function Unsigned(d: seq<Cell>): (u: nat) {
    if d == [] then 0 else Unsigned(d[..|d| - 1]) + d[|d| - 1] * Base(|d| - 1)
  }

  /** The number that cells stand for: the last one has the sign. */
  function Value(d: seq<Cell>): int
    requires d != []
  {
    Unsigned(d) - if Negative(d[|d| - 1]) then Base(|d|) else 0
  }

  /** The flag of p0< as the number it is. */
  function Sign(d: seq<Cell>): int
    requires d != []
  {
    if Negative(d[|d| - 1]) then -1 else 0
  }

  lemma UnsignedSnoc(d: seq<Cell>, c: Cell)
    ensures Unsigned(d + [c]) == Unsigned(d) + c * Base(|d|)
  {
    assert (d + [c])[..|d|] == d;
  }

  /** One more cell of a prefix. */
  lemma UnsignedStep(d: seq<Cell>, i: nat)
    requires i < |d|
    ensures Unsigned(d[..i + 1]) == Unsigned(d[..i]) + d[i] * Base(i) && Base(i + 1) == WORD * Base(i)
  {
    assert d[..i + 1] == d[..i] + [d[i]];
    UnsignedSnoc(d[..i], d[i]);
  }

  lemma {:induction false} UnsignedBelow(d: seq<Cell>)
    ensures Unsigned(d) < Base(|d|)
    decreases |d|
  {
    if d != [] {
      var n := |d| - 1;
      UnsignedBelow(d[..n]);
      Grows(d[n], WORD - 1, Base(n));
    }
  }

  /** A value is at least minus half, and less than half, of the power. */
  lemma ValueInRange(d: seq<Cell>)
    requires d != []
    ensures 0 <= 2 * Value(d) + Base(|d|) < 2 * Base(|d|)
  {
    var n := |d| - 1;
    UnsignedBelow(d[..n]);
    var b := Base(n);
    var top := d[n];
    if Negative(top) { Grows(0x8000_0000, top, b); } else { Grows(top, 0x7FFF_FFFF, b); }
    UnsignedBelow(d);
  }

  /**
   * Cells r with a carry above them: ?carry stores it as one more cell, unless it only
   * repeats the sign. The value is what cells and carry amount to.
   */
  function Carried(r: seq<Cell>, carry: Cell): seq<Cell>
    requires r != []
  {
    if carry != Flag(Negative(r[|r| - 1])) then r + [carry] else r
  }

  lemma CarriedValue(r: seq<Cell>, carry: Cell)
    requires r != []
    ensures Value(Carried(r, carry)) == Unsigned(r) + Signed(carry) * Base(|r|)
  {
    hide Unsigned, Base, Signed;
    UnsignedSnoc(r, carry);
    NextBase(|r|);
    SignedTimes(carry, Base(|r|));
  }

  /** No cell is added exactly if the value is in the range of the cells that are there. */
  lemma CarriedShort(r: seq<Cell>, carry: Cell)
    requires r != []
    ensures var v := Unsigned(r) + Signed(carry) * Base(|r|);
            |Carried(r, carry)| == |r| <==> 0 <= 2 * v + Base(|r|) < 2 * Base(|r|)
  {
    hide Unsigned, Base;
    ValueInRange(r);
    UnsignedBelow(r);
    var (c, b) := (Signed(carry), Base(|r|));
    if c >= 1 { Grows(1, c, b); }
    if c <= -2 { Grows(c, -2, b); }
  }

  lemma NextBase(k: nat)
    ensures Base(k + 1) == WORD * Base(k)
  {
  }

  lemma SignedTimes(c: Cell, b: nat)
    ensures Signed(c) * b == c * b - if Negative(c) then WORD * b else 0
    ensures Signed(Flag(true)) * b == 0 - b && Signed(Flag(false)) * b == 0
  {
  }

  /** The count is the length of the list of cells, which has at least one. */
  class PNumber {
    var cells: seq<Cell>

    constructor (c: Cell)
      ensures cells == [c]
    {
      cells := [c];
    }

    ghost predicate Valid()
      reads this
    {
      cells != []
    }

    /** p0< */
    predicate IsNegative()
      reads this
      requires Valid()
    {
      Negative(cells[|cells| - 1])
    }

    /** pcopy, from src to here */
    method Copy(src: PNumber)
      modifies this
      ensures cells == src.cells
    {
      cells := src.cells;
    }

    /** ?carry */
    method Carry(carry: Cell)
      requires Valid()
      modifies this
      ensures Valid() && cells == Carried(old(cells), carry)
    {
      if carry != Flag(IsNegative()) { cells := cells + [carry]; }
    }

    /** extend: n more cells of the sign. */
    method Extend(n: nat)
      requires Valid()
      modifies this
      ensures Valid() && |cells| == |old(cells)| + n && Value(cells) == Value(old(cells))
    {
      hide Value;
      var sign := Flag(IsNegative());
      for i := 0 to n
        invariant Valid() && |cells| == |old(cells)| + i && Value(cells) == Value(old(cells))
                  && sign == Flag(IsNegative())
      {
        SignCell(cells);
        cells := cells + [sign];
      }
    }
  }

  /** One more cell of the sign does not change the value. */
  lemma SignCell(d: seq<Cell>)
    requires d != []
    ensures Value(d + [Flag(Negative(d[|d| - 1]))]) == Value(d)
  {
    var c := Flag(Negative(d[|d| - 1]));
    UnsignedSnoc(d, c);
    assert Base(|d| + 1) == WORD * Base(|d|);
  }

  // ----- multiplication -----

  /** p*: multiplies by n, in place. */
  method Times(p: PNumber, n: Cell)
    requires p.Valid()
    modifies p
    ensures p.Valid() && |old(p.cells)| <= |p.cells| <= |old(p.cells)| + 1
    ensures Value(p.cells) == Value(old(p.cells)) * n
  {
    hide Unsigned, Base, Value, MulAdd;
    var sign := p.IsNegative();
    var carry: Cell := 0;
    ghost var d := p.cells;
    NothingTimes(d, d, n);
    for i := 0 to |p.cells|
      invariant p.Valid() && |p.cells| == |d| && p.cells[i..] == d[i..]
      invariant Unsigned(p.cells[..i]) + carry * Base(i) == Unsigned(d[..i]) * n
    {
      ghost var e := p.cells;
      var m := MulAdd(p.cells[i], n, carry);
      p.cells := p.cells[i := m.1];
      assert p.cells[..i] == e[..i] && p.cells[i + 1..] == e[i..][1..];
      UnsignedStep(d, i);
      UnsignedStep(p.cells, i);
      TimesStep(Unsigned(e[..i]), Unsigned(d[..i]), n, carry, Base(i), d[i], m);
      carry := m.0;
    }
    ghost var r := p.cells;
    assert r[..|d|] == r && d[..|d|] == d;
    TimesCarry(d, r, n, carry);
    p.Carry(MulAdd(Flag(sign), n, carry).1);
    CarriedValue(r, MulAdd(Flag(sign), n, carry).1);
  }

  lemma NothingTimes(d: seq<Cell>, r: seq<Cell>, n: Cell)
    ensures Unsigned(r[..0]) + 0 * Base(0) == Unsigned(d[..0]) * n
  {
  }

  /** UM* and D+ of a carry: high and low cell. */
  function MulAdd(a: Cell, b: Cell, carry: Cell): (r: (Cell, Cell))
    ensures r.0 * WORD + r.1 == a * b + carry
  {
    ProductFits(a, b);
    ((a * b + carry) / WORD, (a * b + carry) % WORD)
  }

  lemma TimesStep(r: nat, u: nat, n: Cell, carry: Cell, b: nat, digit: Cell, m: (Cell, Cell))
    requires r + carry * b == u * n && m.0 * WORD + m.1 == digit * n + carry
    ensures (r + m.1 * b) + m.0 * (WORD * b) == (u + digit * b) * n
  {
    assert m.0 * (WORD * b) + m.1 * b == (m.0 * WORD + m.1) * b;
    assert (digit * n + carry) * b == digit * b * n + carry * b;
  }

  lemma TimesCarry(d: seq<Cell>, r: seq<Cell>, n: Cell, carry: Cell)
    requires d != [] && |r| == |d| && Unsigned(r) + carry * Base(|d|) == Unsigned(d) * n
    ensures var c := MulAdd(Flag(Negative(d[|d| - 1])), n, carry).1;
            Unsigned(r) + Signed(c) * Base(|d|) == Value(d) * n
  {
    hide Unsigned, Base, MulAdd;
    var b := Base(|d|);
    var exact := carry + Sign(d) * n;
    Distributes(Unsigned(d), Sign(d), b, n);
    Distributes(carry, Sign(d) * n, b, 1);
    assert Value(d) == Unsigned(d) + Sign(d) * b;
    Regroup(Sign(d), b, n);
    UnsignedBelow(r);
    ValueInRange(d);
    CarryFits(exact, Value(d), n, Unsigned(r), b);
    LowCell(Negative(d[|d| - 1]), n, carry);
  }

  lemma Distributes(x: int, s: int, b: int, n: int)
    ensures (x + s * b) * n == x * n + s * b * n && (x + s) * b == x * b + s * b
  {
  }

  lemma Regroup(s: int, b: int, n: int)
    ensures s * b * n == s * n * b
  {
  }

  /** The carry is a signed cell. */
  lemma CarryFits(c: int, v: int, n: Cell, u: int, b: int)
    requires b > 0 && u + c * b == v * n && 0 <= u < b && 0 <= 2 * v + b < 2 * b
    ensures FitsSigned(c)
  {
    Grows(2 * v, b, n);
    Grows(-b, 2 * v, n);
    assert 2 * v * n == 2 * u + 2 * c * b;
    Grows(n, WORD - 1, b);
    if c >= 0x8000_0000 { Grows(0x8000_0000, c, b); }
    if c < -0x8000_0000 { Grows(c, -0x8000_0001, b); }
  }

  /** The product of the flag, as an unsigned cell, takes n away. */
  lemma LowCell(negative: bool, n: Cell, carry: Cell)
    requires FitsSigned(carry - if negative then (n as int) else 0)
    ensures Signed(MulAdd(Flag(negative), n, carry).1) == carry - if negative then (n as int) else 0
  {
    hide Signed;
    var c := carry - if negative then (n as int) else 0;
    if negative { AddMultiple(c, n); }
    SignedOf(c);
  }

  lemma AddMultiple(c: int, n: Cell)
    ensures (WORD - 1) * n + (c + n) == c + WORD * n && (c + WORD * n) % WORD == c % WORD
  {
  }

  lemma SignedOf(c: int)
    requires FitsSigned(c)
    ensures Signed(c % WORD) == c
  {
  }

  // ----- addition and subtraction -----

  function Longer(a: nat, b: nat): nat {
    if a < b then b else a
  }

  /** ?extend: the shorter of two numbers gets as many cells as the other. */
  method ExtendBoth(p1: PNumber, p2: PNumber)
    requires p1.Valid() && p2.Valid() && p1 != p2
    modifies p1, p2
    ensures p1.Valid() && p2.Valid() && |p1.cells| == |p2.cells| == Longer(|old(p1.cells)|, |old(p2.cells)|)
    ensures Value(p1.cells) == Value(old(p1.cells)) && Value(p2.cells) == Value(old(p2.cells))
  {
    hide Unsigned, Base, Value;
    if |p1.cells| < |p2.cells| {
      p1.Extend(|p2.cells| - |p1.cells|);
    } else if |p2.cells| < |p1.cells| {
      p2.Extend(|p1.cells| - |p2.cells|);
    }
  }

  /** Adds the cells of src, or takes them away, with a carry of -1, 0 or 1, which is left. */
  method Combine(src: PNumber, p: PNumber, subtract: bool) returns (carry: int)
    requires p.Valid() && p != src && |p.cells| == |src.cells|
    modifies p
    ensures p.Valid() && |p.cells| == |old(p.cells)| && -1 <= carry <= 1
    ensures Unsigned(p.cells) + carry * Base(|p.cells|) ==
            Unsigned(old(p.cells)) + Factor(subtract) * Unsigned(src.cells)
  {
    hide Unsigned, Base, Factor;
    carry := 0;
    ghost var (d, s) := (p.cells, src.cells);
    NothingCombined(d, s, Factor(subtract));
    for i := 0 to |p.cells|
      invariant p.Valid() && |p.cells| == |d| && p.cells[i..] == d[i..] && -1 <= carry <= 1
      invariant Unsigned(p.cells[..i]) + carry * Base(i) == Unsigned(d[..i]) + Factor(subtract) * Unsigned(s[..i])
    {
      ghost var e := p.cells;
      var x := Digit(carry, p.cells[i], src.cells[i], subtract);
      p.cells := p.cells[i := x.1];
      assert p.cells[..i] == e[..i] && p.cells[i + 1..] == e[i..][1..];
      UnsignedStep(d, i);
      UnsignedStep(s, i);
      UnsignedStep(p.cells, i);
      CombineStep(Unsigned(e[..i]), Unsigned(d[..i]), Unsigned(s[..i]), Factor(subtract), carry, Base(i), d[i], s[i],
                  x);
      carry := x.0;
    }
    assert p.cells[..|d|] == p.cells && d[..|d|] == d && s[..|d|] == s;
  }

  function Factor(subtract: bool): int {
    if subtract then -1 else 1
  }

  /** The double sum of the carry, a cell and plus or minus a cell, as signed high and low cell. */
  function Digit(carry: int, a: Cell, b: Cell, subtract: bool): (r: (int, Cell))
    requires -1 <= carry <= 1
    ensures r.0 * WORD + r.1 == carry + a + Factor(subtract) * b && -1 <= r.0 <= 1
  {
    var x := carry + a + Factor(subtract) * b;
    (x / WORD, x % WORD)
  }

  lemma NothingCombined(d: seq<Cell>, s: seq<Cell>, f: int)
    ensures Unsigned(d[..0]) + 0 * Base(0) == Unsigned(d[..0]) + f * Unsigned(s[..0])
  {
  }

  lemma CombineStep(r: nat, u: nat, v: nat, f: int, carry: int, b: nat, x: Cell, y: Cell, m: (int, Cell))
    requires r + carry * b == u + f * v && m.0 * WORD + m.1 == carry + x + f * y
    ensures (r + m.1 * b) + m.0 * (WORD * b) == (u + x * b) + f * (v + y * b)
  {
    assert m.0 * (WORD * b) + m.1 * b == (m.0 * WORD + m.1) * b;
    assert (carry + x + f * y) * b == carry * b + x * b + f * (y * b);
  }

  /** p+: adds src, in place. */
  method Plus(src: PNumber, p: PNumber)
    requires p.Valid() && src.Valid() && p != src
    modifies p, src
    ensures p.Valid() && src.Valid() && Value(src.cells) == Value(old(src.cells))
    ensures |p.cells| <= Longer(|old(src.cells)|, |old(p.cells)|) + 1
    ensures Value(p.cells) == Value(old(p.cells)) + Value(old(src.cells))
  {
    hide Unsigned, Base, Value;
    ExtendBoth(src, p);
    ghost var (d, s) := (p.cells, src.cells);
    var signs := Minus1(src.IsNegative()) + Minus1(p.IsNegative());
    var carry := Combine(src, p, false);
    ghost var r := p.cells;
    p.Carry(Wrap(carry + signs));
    CarriedValue(r, Wrap(carry + signs));
    SmallCarry(carry + signs);
    SumValue(d, s, r, carry);
  }

  /** A flag as the number it is. */
  function Minus1(b: bool): int {
    if b then -1 else 0
  }

  lemma SmallCarry(c: int)
    requires -3 <= c <= 1
    ensures Signed(Wrap(c)) == c
  {
  }

  lemma SumValue(d: seq<Cell>, s: seq<Cell>, r: seq<Cell>, carry: int)
    requires d != [] && |s| == |r| == |d| && Unsigned(r) + carry * Base(|d|) == Unsigned(d) + Unsigned(s)
    ensures Unsigned(r) + (carry + Sign(s) + Sign(d)) * Base(|d|) == Value(d) + Value(s)
  {
    hide Unsigned, Base, Sign, Value;
    SignedValue(s);
    SignedValue(d);
    DistributesSum(carry, Sign(s), Sign(d), Base(|d|));
  }

  /** p-: takes src away, in place, except that the sign of src is added. */
  method Less(src: PNumber, p: PNumber)
    requires p.Valid() && src.Valid() && p != src
    modifies p, src
    ensures p.Valid() && src.Valid() && Value(src.cells) == Value(old(src.cells))
    ensures |p.cells| <= Longer(|old(src.cells)|, |old(p.cells)|) + 1
    ensures Value(p.cells) == Difference(Value(old(p.cells)), Value(old(src.cells)),
                                         Longer(|old(src.cells)|, |old(p.cells)|))
  {
    hide Unsigned, Base, Value, Difference;
    ExtendBoth(src, p);
    ghost var (d, s) := (p.cells, src.cells);
    var signs := Minus1(src.IsNegative()) + Minus1(p.IsNegative());
    var carry := Combine(src, p, true);
    ghost var r := p.cells;
    p.Carry(Wrap(carry + signs));
    CarriedValue(r, Wrap(carry + signs));
    SmallCarry(carry + signs);
    DifferenceValue(d, s, r, carry);
  }

  /** What p- leaves of numbers that have n cells together. */
  function Difference(p: int, src: int, n: nat): int {
    p - src - if src < 0 then 2 * Base(n) else 0
  }

  /** It is the difference exactly when the subtrahend is not negative. */
  lemma LessExactly(p: int, src: int, n: nat)
    ensures Difference(p, src, n) == p - src <==> src >= 0
  {
  }

  /** 0 less -1, of one cell each: p- is to leave 1, and leaves 1 - 2^33. */
  lemma LessFails()
    ensures Value([0]) == 0 && Value([WORD - 1]) == -1
    ensures Difference(Value([0]), Value([WORD - 1]), 1) == 1 - 2 * WORD
  {
    UnsignedSnoc([], 0);
    UnsignedSnoc([], WORD - 1);
    assert [0] == [] + [0] && [WORD - 1] == [] + [WORD - 1];
    assert Base(0) == 1 && Base(1) == WORD;
  }

  lemma DifferenceValue(d: seq<Cell>, s: seq<Cell>, r: seq<Cell>, carry: int)
    requires d != [] && |s| == |r| == |d| && Unsigned(r) + carry * Base(|d|) == Unsigned(d) - Unsigned(s)
    ensures Unsigned(r) + (carry + Sign(s) + Sign(d)) * Base(|d|) == Difference(Value(d), Value(s), |d|)
  {
    hide Unsigned, Base, Sign, Value;
    SignedValue(s);
    SignedValue(d);
    DistributesSum(carry, Sign(s), Sign(d), Base(|d|));
  }

  lemma DistributesSum(x: int, y: int, z: int, b: int)
    ensures (x + y + z) * b == x * b + y * b + z * b
  {
  }

  lemma SignedValue(s: seq<Cell>)
    requires s != []
    ensures Value(s) == Unsigned(s) + Sign(s) * Base(|s|) && (Value(s) < 0 <==> Sign(s) == -1)
    ensures Sign(s) * Base(|s|) == (if Sign(s) == -1 then 0 - Base(|s|) else 0)
  {
    hide Unsigned, Base;
    UnsignedBelow(s);
  }
}
