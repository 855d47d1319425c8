/**
 * The number conversion words on the machine's stack and the number buffer, proved
 * against the strings and values of Numerals.
 */
module NumberWords {
  import opened Cells
  import opened Wide
  import opened Machines
  import opened Multiply
  import opened Divide
  import opened StackWords
  import opened Numerals
  import opened Sequences

  /** NumberBuf and NumberCount: the string grows downward from the end of the buffer. */
  class NumberBuffer {
    const buf: array<Byte>
    var count: nat

    ghost predicate Valid()
      reads this
    {
      buf.Length == 256 && count <= 255
    }

    constructor ()
      ensures Valid() && fresh(buf) && Text() == []
    {
      buf, count := new Byte[256], 0;
    }

    ghost function Text(): (s: seq<Byte>)
      reads this, buf
      requires Valid()
      ensures |s| == count
    {
      buf[255 - count..255]
    }

    /** `<#` */
    method BracketSharp()
      requires Valid()
      modifies this, buf
      ensures Valid() && Text() == []
    {
      count := 0;
      buf[255] := 0;
    }

    /** HOLD's half of #: one character more in front. */
    method Hold(c: Byte)
      requires Valid() && count < 255
      modifies this, buf
      ensures Valid() && Text() == [c] + old(Text())
    {
      ghost var s := Text();
      count := count + 1;
      buf[255 - count] := c;
      assert buf[255 - count + 1..255] == s;
    }
  }

  /** TOS = v; DEC_DSP */
  method Push(m: Machine, v: Cell)
    requires m.Valid() && m.sp > OFFSET
    modifies m, m.stack, m.rstack
    ensures m.Valid() && m.sp == old(m.sp) - 1 && m.Others() == old(m.Others())
            && m.Contents() == [v] + old(m.Contents())
  {
    hide Machine.Guarded, Machine.Contents, Machine.Others;
    ghost var g := m.Guarded();
    m.Put(m.sp, v);
    m.Lower(1);
    Pushed(g, v, m.Guarded());
  }

  /** The quotient of the double on the stack by the base, put over it; returned as two cells. */
  method QuotientOver(m: Machine, base: Cell) returns (hi: Cell, lo: Cell)
    requires m.Holds(2) && m.sp - 4 >= OFFSET && IsBase(base)
    modifies m, m.stack, m.rstack
    ensures m.Valid() && m.sp == old(m.sp) - 2 && m.Others() == old(m.Others())
    ensures m.Contents() == [hi, lo] + old(m.Contents())
    ensures hi * WORD + lo == Top2(old(m.Contents())) / base
  {
    hide Machine.Guarded, Machine.Contents, Machine.Others, Top2, Top3;
    ghost var c := m.Contents();
    var x := m.Load(m.sp + 2);
    Push(m, x);
    x := m.Load(m.sp + 2);
    Push(m, x);
    Push(m, 0);
    Push(m, base);
    assert m.Contents() == [base, 0, c[0], c[1]] + c;
    Padded(m.Contents(), c, base);
    var e := UtmSlash(m);
    ghost var r := m.Contents();
    hi := m.Load(m.sp + 1);
    lo := m.Load(m.sp + 2);
    assert r == [r[0], r[1]] + r[2..];
    TopCells(r);
  }

  lemma TopCells(r: seq<Cell>)
    requires |r| >= 2
    ensures Top2(r) == r[0] * WORD + r[1]
  {
  }

  /** Below the base, the padded double divided by the base is a double. */
  lemma Padded(s: seq<Cell>, c: seq<Cell>, base: Cell)
    requires |c| >= 2 && s == [base, 0, c[0], c[1]] + c && base >= 2
    ensures Top3(s[1..]) == Top2(c) && 0 <= Top2(c) / base < WORD2 && s[4..] == c
  {
    QuotientFalls(Top2(c), base);
  }

  /** # ( ud1 -- ud2 ) */
  method Sharp(m: Machine, n: NumberBuffer, base: Cell)
    requires m.Holds(2) && m.sp - 4 >= OFFSET && n.Valid() && n.count < 255 && IsBase(base)
    modifies m, m.stack, m.rstack, n, n.buf
    ensures m.Valid() && m.sp == old(m.sp) && m.Others() == old(m.Others())
            && m.Contents()[2..] == old(m.Contents())[2..]
    ensures Top2(m.Contents()) == Top2(old(m.Contents())) / base
    ensures n.Valid() && n.Text() == [Digit(Top2(old(m.Contents())) % base)] + old(n.Text())
  {
    hide Machine.Guarded, Machine.Contents, Machine.Others, Top2, Top3, Digit;
    ghost var c := m.Contents();
    var hi, lo := QuotientOver(m, base);
    RemainderOver(m, base, hi, lo);
    ghost var r := m.Contents();
    var rem := m.Load(m.sp + 2);
    m.Put(m.sp + 1, hi);
    m.Put(m.sp + 2, lo);
    assert m.Contents() == [hi, lo] + c[2..];
    TopCells(m.Contents());
    SmallDouble(r, base);
    n.Hold(Digit(rem));
  }

  lemma SmallDouble(r: seq<Cell>, base: Cell)
    requires |r| >= 2 && Top2(r) < base
    ensures r[0] == 0 && r[1] == Top2(r)
  {
  }

  /** The double less the base times its quotient. */
  method RemainderOver(m: Machine, base: Cell, hi: Cell, lo: Cell)
    requires m.Holds(4) && m.sp > OFFSET && IsBase(base)
    requires m.Contents()[0] == hi && m.Contents()[1] == lo && hi * WORD + lo == Top2(m.Contents()[2..]) / base
    modifies m, m.stack, m.rstack
    ensures m.Holds(2) && m.sp == old(m.sp) + 2 && m.Others() == old(m.Others())
            && m.Contents()[2..] == old(m.Contents())[4..]
    ensures Top2(m.Contents()) == Top2(old(m.Contents())[2..]) % base
  {
    hide Machine.Guarded, Machine.Contents, Machine.Others, Top2, Top3;
    ghost var c := m.Contents();
    Push(m, base);
    assert m.Contents()[1..] == c;
    TopCells(c);
    UdmStar(m);
    ghost var r := m.Contents();
    assert r[3..] == c[2..];
    m.Raise(1);
    Multiple(r, c, base);
    DMinus(m);
  }

  lemma Multiple(r: seq<Cell>, c: seq<Cell>, base: Cell)
    requires |r| >= 3 && |c| >= 4 && r[3..] == c[2..] && IsBase(base) && Top3(r) == base * Top2(c)
             && Top2(c) == Top2(c[2..]) / base
    ensures r[1..][2..] == c[2..] && (Top2(r[1..][2..]) - Top2(r[1..])) % WORD2 == Top2(c[2..]) % base
  {
    assert r[1..][2..] == r[3..];
    var x := Top2(c[2..]);
    assert base * (x / base) + x % base == x;
    assert Top3(r) == r[0] * WORD2 + Top2(r[1..]);
  }

  /** # and then a look at the cells of the quotient. */
  method SharpAndLook(m: Machine, n: NumberBuffer, base: Cell) returns (u1: Cell, u2: Cell)
    requires m.Holds(2) && m.sp - 4 >= OFFSET && n.Valid() && n.count < 255 && IsBase(base)
    modifies m, m.stack, m.rstack, n, n.buf
    ensures m.Valid() && m.sp == old(m.sp) && m.Others() == old(m.Others())
            && m.Contents()[2..] == old(m.Contents())[2..]
    ensures u1 * WORD + u2 == Top2(m.Contents()) == Top2(old(m.Contents())) / base
    ensures n.Valid()
    ensures AndRest(Top2(m.Contents()), base, n.Text()) == Digits(Top2(old(m.Contents())), base) + old(n.Text())
  {
    hide Machine.Guarded, Machine.Contents, Machine.Others, Top2, Digit, Digits, AndRest;
    FirstDigit(Top2(m.Contents()), base, n.Text());
    Sharp(m, n, base);
    u1 := m.Load(m.sp + 1);
    u2 := m.Load(m.sp + 2);
    TopCells(m.Contents());
  }

  /** The digits of u that are still to come, before those that are there. */
  ghost function AndRest(u: nat, base: int, t: seq<Byte>): seq<Byte>
    requires IsBase(base)
  {
    if u == 0 then t else Digits(u, base) + t
  }

  /** #S ( ud -- 0 0 ): at least one digit, and as many as there are. */
  method Sharps(m: Machine, n: NumberBuffer, base: Cell)
    requires m.Holds(2) && m.sp - 4 >= OFFSET && n.Valid() && n.count + 64 <= 255 && IsBase(base)
    modifies m, m.stack, m.rstack, n, n.buf
    ensures m.Valid() && m.sp == old(m.sp) && m.Others() == old(m.Others())
            && m.Contents()[2..] == old(m.Contents())[2..]
    ensures Top2(m.Contents()) == 0
    ensures n.Valid() && n.Text() == Digits(Top2(old(m.Contents())), base) + old(n.Text())
  {
    hide Machine.Guarded, Machine.Contents, Machine.Others, Top2, Digit, Digits;
    ghost var u := Top2(m.Contents());
    ghost var s := Digits(u, base) + n.Text();
    DoubleDigits(u, base);
    var u1, u2 := SharpAndLook(m, n, base);
    u := u / base;
    while u1 != 0 || u2 != 0
      invariant m.Valid() && m.sp == old(m.sp) && m.Others() == old(m.Others())
      invariant |m.Contents()| == old(|m.Contents()|) && m.Contents()[2..] == old(m.Contents())[2..]
      invariant u1 * WORD + u2 == u == Top2(m.Contents())
      invariant n.Valid() && |s| <= 255 && s == AndRest(u, base, n.Text())
      decreases u
    {
      QuotientFalls(u, base);
      u1, u2 := SharpAndLook(m, n, base);
      u := u / base;
    }
  }

  /** The digits of u, with the last one taken off and put in front of t. */
  lemma FirstDigit(u: nat, base: int, t: seq<Byte>)
    requires IsBase(base)
    ensures 0 <= u / base && Digits(u, base) + t == AndRest(u / base, base, [Digit(u % base)] + t)
  {
    hide Digit, Digits;
    DigitsStep(u, base);
    if u >= base {
      Shrinks(u, base);
      Regrouped(Digits(u / base, base), [Digit(u % base)], t);
    }
  }

  // ----- reading -----

  /**
   * >NUMBER ( ud1 a1 u1 -- ud2 a2 u2 ) on the characters s at a1, with only ud1 on the stack; stops at
   * once on overflow.
   */
  method ToNumberWord(m: Machine, s: seq<Byte>, base: Cell) returns (ok: bool, rest: seq<Byte>)
    requires m.Holds(2) && m.sp - 2 >= OFFSET && IsBase(base)
    modifies m, m.stack, m.rstack
    ensures m.Holds(2) && m.sp == old(m.sp) && m.Others() == old(m.Others())
            && m.Contents()[2..] == old(m.Contents())[2..]
    ensures match ToNumber(Top2(old(m.Contents())), s, base)
            case Overflow(p) => !ok && Top2(m.Contents()) == p % WORD2
            case Converted(ud, r) => ok && rest == r && Top2(m.Contents()) == ud
  {
    hide Machine.Guarded, Machine.Contents, Machine.Others, Top2, IsBaseDigit, DigitValue;
    ghost var c := m.Contents();
    rest := s;
    while rest != [] && IsBaseDigit(rest[0], base)
      invariant m.Holds(2) && m.sp == old(m.sp) && m.Others() == old(m.Others()) && m.Contents()[2..] == c[2..]
      invariant ToNumber(Top2(m.Contents()), rest, base) == ToNumber(Top2(c), s, base)
      decreases |rest|
    {
      DigitBelow(rest[0], base);
      var fits := NextDigit(m, DigitValue(rest[0]), base);
      if !fits { return false, rest; }
      rest := rest[1..];
    }
    ok := true;
  }

  /** ud * base + v, unless the product is more than a double. */
  method NextDigit(m: Machine, v: Cell, base: Cell) returns (ok: bool)
    requires m.Holds(2) && m.sp - 2 >= OFFSET && IsBase(base)
    modifies m, m.stack, m.rstack
    ensures m.Holds(2) && m.sp == old(m.sp) && m.Others() == old(m.Others())
            && m.Contents()[2..] == old(m.Contents())[2..]
    ensures var p := Top2(old(m.Contents())) * base;
            && (ok <==> p < WORD2)
            && Top2(m.Contents()) == (if ok then p + v else p) % WORD2
  {
    hide Machine.Guarded, Machine.Contents, Machine.Others, Top2;
    ok := TimesBase(m, base);
    if !ok { return; }
    ghost var d := m.Contents();
    Push(m, v);
    Push(m, 0);
    assert m.Contents() == [0, v] + d;
    TopCells(m.Contents());
    DPlus(m);
  }

  /** ud * base, and whether it is a double. */
  method TimesBase(m: Machine, base: Cell) returns (ok: bool)
    requires m.Holds(2) && m.sp - 2 >= OFFSET && IsBase(base)
    modifies m, m.stack, m.rstack
    ensures m.Holds(2) && m.sp == old(m.sp) && m.Others() == old(m.Others())
            && m.Contents()[2..] == old(m.Contents())[2..]
    ensures var p := Top2(old(m.Contents())) * base; 0 <= p && (ok <==> p < WORD2) && Top2(m.Contents()) == p % WORD2
  {
    hide Machine.Guarded, Machine.Contents, Machine.Others, Top2, Top3;
    ghost var c := m.Contents();
    Push(m, base);
    assert m.Contents()[1..] == c;
    UdmStar(m);
    HighZero(m.Contents());
    Commutes(base, Top2(c));
    m.Raise(1);
    var top := m.Load(m.sp);
    ok := top == 0;
  }

  lemma Commutes(x: int, y: int)
    ensures x * y == y * x
  {
  }

  lemma HighZero(r: seq<Cell>)
    requires |r| >= 3
    ensures r[0] == 0 <==> Top3(r) < WORD2
    ensures Top2(r[1..]) == Top3(r) % WORD2
    ensures r[1..][2..] == r[3..]
  {
  }

  /**
   * NUMBER? ( ^str -- d b ) on the characters of the counted string. Where >NUMBER reports an overflow,
   * what it leaves is dropped and not replaced, and a sign is put on the double of the caller below.
   */
  method NumberQueryWord(m: Machine, s: seq<Byte>, base: Cell) returns (b: bool)
    requires m.Valid() && m.sp - 4 >= OFFSET && IsBase(base) && |s| <= 255
    modifies m, m.stack, m.rstack
    ensures m.Valid() && m.Others() == old(m.Others())
    ensures var (c, r) := (old(m.Contents()), m.Contents());
            match NumberQuery(s, base)
            case Number(d, ok) => b == ok && |r| >= 2 && Top2(r) == d && r[2..] == c
            case Unbalanced(ok) =>
              && b == ok
              && (s[0] != MINUS ==> r == c)
              && (s[0] == MINUS && |c| >= 2 ==> |r| == |c| && Top2(r) == -Top2(c) % WORD2 && r[2..] == c[2..])
  {
    hide Machine.Guarded, Machine.Contents, Machine.Others, Top2, ToNumber;
    ghost var c := m.Contents();
    Push(m, 0);
    Push(m, 0);
    assert m.Contents() == [0, 0] + c;
    TopCells(m.Contents());
    var negative := s != [] && s[0] == MINUS;
    var t := if negative then s[1..] else s;
    var nc := if |s| > 127 then |s| - 256 else |s|;
    if negative { nc := nc - 1; }
    b := false;
    if nc > 0 {
      var ok, rest := ToNumberWord(m, t, base);
      if ok { b := rest == []; } else {
        b := DropDouble(m, c);
        if negative && m.stack.Length - m.sp - 1 < 2 { return; }
      }
    }
    if negative { DNegate(m); }
  }

  /** DROP, a look at the dropped cell, and DROP. */
  method DropDouble(m: Machine, ghost c: seq<Cell>) returns (zero: bool)
    requires m.Holds(2) && m.Contents()[2..] == c
    modifies m, m.stack, m.rstack
    ensures m.Valid() && m.Others() == old(m.Others()) && m.Contents() == c
            && (zero <==> Top2(old(m.Contents())) < WORD)
  {
    hide Machine.Guarded, Machine.Contents, Machine.Others, Top2;
    ghost var d := m.Contents();
    TopCells(d);
    m.Raise(1);
    assert m.Contents() == d[1..];
    var top := m.Load(m.sp);
    m.Raise(1);
    assert m.Contents() == d[1..][1..] == c;
    zero := top == 0;
  }

  // ----- printing -----

  /** U. on a single cell: first the number of digits and the highest power, then digit by digit from the left. */
  method UDot0(cell: Cell, base: Cell) returns (out: seq<Byte>)
    requires IsBase(base)
    ensures out == Digits(cell, base)
  {
    hide Printed, Digit, Less;
    var ndig: nat;
    var uscale: Cell;
    ndig, uscale := Scale(cell, base);
    var u: Cell := cell;
    var i: nat := 0;
    out := [];
    PrintedNone(cell, base, ndig, uscale);
    while i < ndig
      invariant i <= ndig && Printed(cell, base, ndig, out, u, uscale, i)
    {
      PrintedStep(cell, base, ndig, out, u, uscale, i);
      var utemp := u / uscale;
      out := out + [Digit(utemp)];
      u := Less(u, utemp, uscale);
      uscale := uscale / base;
      i := i + 1;
    }
    PrintedAll(cell, base, ndig, out, u, uscale);
  }

  /** u -= utemp*uscale */
  function Less(u: Cell, utemp: int, uscale: int): Cell {
    Wrap(u - Wrap(utemp * uscale))
  }

  /** The first i of ndig digits are printed, and u is left. */
  ghost predicate Printed(cell: Cell, base: int, ndig: nat, out: seq<Byte>, u: Cell, uscale: Cell, i: nat) {
    && i <= ndig && |out| == i && IsBase(base) && AllDigits(out, base) && u < Power(base, ndig - i)
    && Value(out, base) * Power(base, ndig - i) + u == cell
    && (i < ndig ==> uscale == Power(base, ndig - i - 1))
  }

  lemma PrintedNone(cell: Cell, base: int, ndig: nat, uscale: Cell)
    requires IsBase(base) && ndig >= 1 && uscale == Power(base, ndig - 1) && cell < Power(base, ndig)
    ensures Printed(cell, base, ndig, [], cell, uscale, 0)
  {
    hide Power;
  }

  lemma PrintedStep(cell: Cell, base: Cell, ndig: nat, out: seq<Byte>, u: Cell, uscale: Cell, i: nat)
    requires i < ndig && Printed(cell, base, ndig, out, u, uscale, i)
    ensures uscale > 0 && base > 0 && 0 <= u / uscale < base <= 36 && 0 <= uscale / base <= uscale
    ensures Printed(cell, base, ndig, out + [Digit(u / uscale)], Less(u, u / uscale, uscale), uscale / base, i + 1)
  {
    hide Power, Value, Digit, AllDigits;
    NextPower(base, ndig - i);
    PowerPositive(base, ndig - i - 1);
    LeftBelow(u, uscale, base);
    LeftDigit(out, u, u / uscale, uscale, base);
    NoMore(uscale, base);
    if i + 1 < ndig { NextPower(base, ndig - i - 1); }
  }

  lemma NoMore(p: Cell, base: int)
    requires base >= 2
    ensures 0 <= p / base <= p
  {
    QuotientFalls(p, base);
  }

  lemma PrintedAll(cell: Cell, base: int, ndig: nat, out: seq<Byte>, u: Cell, uscale: Cell)
    requires ndig >= 1 && Printed(cell, base, ndig, out, u, uscale, ndig)
    requires IsBase(base) && cell < Power(base, ndig) && (ndig > 1 ==> Power(base, ndig - 1) <= cell)
    ensures out == Digits(cell, base)
  {
    hide Digits, Value, AllDigits;
    ValueOfDigits(cell, base);
    DigitsLength(cell, ndig, base);
    ValueDetermines(out, Digits(cell, base), base);
  }

  /** One digit more of the same number. */
  lemma LeftDigit(out: seq<Byte>, u: nat, d: nat, p: Cell, base: int)
    requires IsBase(base) && AllDigits(out, base) && d < base && d * p <= u < WORD
    ensures AllDigits(out + [Digit(d)], base) && Wrap(d * p) == d * p
    ensures Value(out + [Digit(d)], base) * p + (u - d * p) == Value(out, base) * (base * p) + u
  {
    hide Value, Digit, AllDigits;
    DigitValueOf(d, base);
    ValueSnoc(out, Digit(d), base);
    PowerFits(d * p, d, p);
    var v := Value(out, base);
    assert (v * base + d) * p == v * (base * p) + d * p;
  }

  lemma PowerFits(x: int, d: nat, p: nat)
    requires x == d * p < WORD
    ensures Wrap(x) == x
  {
    Grows(0, p, d);
  }

  /** How many digits there are, and the power of the base that the first one counts. */
  method Scale(u: Cell, base: Cell) returns (ndig: nat, uscale: Cell)
    requires IsBase(base)
    ensures ndig >= 1 && uscale == Power(base, ndig - 1) && (ndig > 1 ==> uscale <= u) && u < Power(base, ndig)
  {
    ndig, uscale := 1, 1;
    ScaleStart(base);
    var utemp: nat := u / base;
    while utemp != 0
      invariant ndig >= 1 && uscale == Power(base, ndig - 1) && uscale >= 1
      invariant utemp == u / (uscale * base) && (ndig > 1 ==> uscale <= u)
      decreases utemp
    {
      ScaleStep(u, base, ndig, uscale);
      Falls(utemp, base);
      ndig := ndig + 1;
      uscale := Wrap(uscale * base);
      utemp := utemp / base;
    }
    ScaleEnd(u, base, ndig, uscale);
  }

  lemma ScaleStart(base: nat)
    ensures Power(base, 0) == 1 && 1 * base == base
  {
  }

  /** The next power is still a cell, being no more than u. */
  lemma ScaleStep(u: Cell, base: Cell, ndig: nat, uscale: Cell)
    requires IsBase(base) && ndig >= 1 && uscale == Power(base, ndig - 1) && uscale >= 1 && u / (uscale * base) != 0
    ensures Wrap(uscale * base) == uscale * base == Power(base, ndig) && 1 <= uscale * base <= u
    ensures u / (uscale * base) / base == u / (uscale * base * base)
  {
    var next := uscale * base;
    Grows(1, uscale, base);
    QuotientOf(u, next);
    QuotientTwice(u, next, base);
    NextPower(base, ndig);
    Commutes(base, uscale);
  }

  lemma ScaleEnd(u: Cell, base: Cell, ndig: nat, uscale: Cell)
    requires IsBase(base) && ndig >= 1 && uscale == Power(base, ndig - 1) && uscale >= 1 && u / (uscale * base) == 0
    ensures u < Power(base, ndig)
  {
    Grows(1, uscale, base);
    QuotientOf(u, uscale * base);
    NextPower(base, ndig);
    Commutes(base, uscale);
  }

  lemma Falls(u: int, base: int)
    requires u > 0 && base >= 2
    ensures 0 <= u / base < u
  {
    QuotientFalls(u, base);
  }

  lemma QuotientOf(u: int, p: int)
    requires p > 0 && u >= 0
    ensures u / p == 0 <==> u < p
  {
  }

  lemma QuotientTwice(u: int, p: int, b: int)
    requires u >= 0 && p > 0 && b > 0
    ensures p * b > 0 && u / p / b == u / (p * b)
  {
    var (q, r) := (u / p, u % p);
    var (s, t) := (q / b, q % b);
    assert u == (s * b + t) * p + r == s * (p * b) + (t * p + r);
    assert t * p + r < p * b by { Grows(t, b - 1, p); }
    assert p * b > 0;
    QuotientRemainder(u, s, t * p + r, p * b);
  }

  const SPACE: Byte := 32

  /** UD. ( ud -- ): in one of two ways, by the high cell. */
  method UdDot(m: Machine, n: NumberBuffer, base: Cell) returns (out: seq<Byte>)
    requires m.Holds(2) && m.sp - 4 >= OFFSET && n.Valid() && IsBase(base)
    modifies m, m.stack, m.rstack, n, n.buf
    ensures m.Valid() && m.sp == old(m.sp) + 2 && m.Others() == old(m.Others())
            && m.Contents() == old(m.Contents())[2..]
    ensures out == Digits(Top2(old(m.Contents())), base) + [SPACE]
  {
    hide Machine.Guarded, Machine.Contents, Machine.Others, Top2, Digits;
    ghost var c := m.Contents();
    TopCells(c);
    var u1 := m.Load(m.sp + 1);
    if u1 == 0 {
      m.Raise(2);
      var u := m.Load(m.sp);
      var s := UDot0(u, base);
      out := s + [SPACE];
    } else {
      n.BracketSharp();
      Sharps(m, n, base);
      m.Raise(2);
      var s := n.buf[255 - n.count..255];
      assert s == Digits(Top2(c), base) + [];
      out := s + [SPACE];
    }
  }

  /** D. ( d -- ) */
  method DDot(m: Machine, n: NumberBuffer, base: Cell) returns (out: seq<Byte>)
    requires m.Holds(2) && m.sp - 4 >= OFFSET && n.Valid() && IsBase(base)
    modifies m, m.stack, m.rstack, n, n.buf
    ensures m.Valid() && m.sp == old(m.sp) + 2 && m.Others() == old(m.Others())
            && m.Contents() == old(m.Contents())[2..]
    ensures out == SignedDigits(Signed2(Top2(old(m.Contents()))), base) + [SPACE]
  {
    hide Machine.Guarded, Machine.Contents, Machine.Others, Top2, Digits;
    ghost var c := m.Contents();
    HighCell(c);
    var hi := m.Load(m.sp + 1);
    if Negative(hi) {
      DAbs(m);
      var s := UdDot(m, n, base);
      out := [MINUS] + s;
    } else {
      out := UdDot(m, n, base);
    }
  }
}
