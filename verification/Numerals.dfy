/**
 * Numbers as strings of digits: what # and #S build, what >NUMBER and NUMBER? read,
 * and that reading undoes writing.
 */
module Numerals {
  import opened Cells
  import opened Wide

  predicate IsBase(base: int) {
    2 <= base <= 36
  }

  /** 0-9 and then A-Z */
  function Digit(d: int): Byte
    requires 0 <= d < 36
  {
    if d < 10 then d + 48 else d + 55
  }

  predicate IsDecimal(c: Byte) {
    48 <= c <= 57
  }

  predicate IsLetter(c: Byte) {
    65 <= c <= 90 || 97 <= c <= 122
  }

  /** isBaseDigit; its letters are upper case for every base up to 42. */
  predicate IsBaseDigit(c: Byte, base: int) {
    (IsDecimal(c) && c - 48 < base) || (IsLetter(c) && base > 10 && c - 55 < base)
  }

  const CHARACTERS: string := "0123456789ABCDEFGHIJKLMNOPQRSTUVWXYZ"

  /** The digits are these characters, and what is accepted as a digit of a base is one of the first of them. */
  lemma DigitsAre(base: int, c: Byte)
    requires IsBase(base)
    ensures |CHARACTERS| == 36 && forall d | 0 <= d < 36 :: Digit(d) == CHARACTERS[d] as int
    ensures IsBaseDigit(c, base) <==> exists d | 0 <= d < base :: CHARACTERS[d] as int == c
  {
    CharacterIs();
    if IsBaseDigit(c, base) {
      var d := if c <= 57 then c - 48 else c - 55;
      assert CHARACTERS[d] as int == c;
    }
    if d :| 0 <= d < base && CHARACTERS[d] as int == c { assert Digit(d) == c; }
  }

  lemma CharacterIs()
    ensures |CHARACTERS| == 36 && forall d | 0 <= d < 36 :: Digit(d) == CHARACTERS[d] as int
  {
    var s := CHARACTERS;
    assert s[0] as int == 48;
    assert s[1] as int == 49;
    assert s[2] as int == 50;
    assert s[3] as int == 51;
    assert s[4] as int == 52;
    assert s[5] as int == 53;
    assert s[6] as int == 54;
    assert s[7] as int == 55;
    assert s[8] as int == 56;
    assert s[9] as int == 57;
    assert s[10] as int == 65;
    assert s[11] as int == 66;
    assert s[12] as int == 67;
    assert s[13] as int == 68;
    assert s[14] as int == 69;
    assert s[15] as int == 70;
    assert s[16] as int == 71;
    assert s[17] as int == 72;
    assert s[18] as int == 73;
    assert s[19] as int == 74;
    assert s[20] as int == 75;
    assert s[21] as int == 76;
    assert s[22] as int == 77;
    assert s[23] as int == 78;
    assert s[24] as int == 79;
    assert s[25] as int == 80;
    assert s[26] as int == 81;
    assert s[27] as int == 82;
    assert s[28] as int == 83;
    assert s[29] as int == 84;
    assert s[30] as int == 85;
    assert s[31] as int == 86;
    assert s[32] as int == 87;
    assert s[33] as int == 88;
    assert s[34] as int == 89;
    assert s[35] as int == 90;
  }

  /** The value of a digit, as >NUMBER computes it: letters without bit 5, which is 32. */
  function DigitValue(c: Byte): int {
    if c > 57 then (if c / 32 % 2 == 1 then c - 32 else c) - 65 + 10 else c - 48
  }

  lemma DigitValueOf(d: int, base: int)
    requires IsBase(base) && 0 <= d < base
    ensures IsBaseDigit(Digit(d), base) && DigitValue(Digit(d)) == d
  {
  }

  lemma DigitBelow(c: Byte, base: int)
    requires IsBase(base) && IsBaseDigit(c, base)
    ensures 0 <= DigitValue(c) < base && Digit(DigitValue(c)) == c
  {
  }

  /** The digits of u, as #S builds them from the last to the first. */
  function Digits(u: nat, base: int): (s: seq<Byte>)
    requires IsBase(base)
    ensures |s| >= 1
  {
    if u < base then [Digit(u)] else
      Shrinks(u, base);
      Digits(u / base, base) + [Digit(u % base)]
  }

  lemma DigitsStep(u: nat, base: int)
    requires IsBase(base)
    ensures u < base ==> u / base == 0 && u % base == u && Digits(u, base) == [Digit(u)]
    ensures u >= base ==> Digits(u, base) == Digits(u / base, base) + [Digit(u % base)]
  {
    hide Digit;
  }

  lemma Shrinks(u: nat, base: int)
    requires 2 <= base <= u
    ensures 0 < u / base < u
  {
    assert u / base <= u / 2 by { QuotientFalls(u, base); }
  }

  lemma QuotientFalls(u: nat, base: int)
    requires 2 <= base
    ensures u / base <= u / 2
  {
    var q := u / base;
    Grows(2, base, q);
  }

  /** The value of a string of digits. */
  function Value(s: seq<Byte>, base: int): (v: nat)
    requires IsBase(base) && AllDigits(s, base)
  {
    if s == [] then 0
    else
      DigitBelow(s[|s| - 1], base);
      Value(s[..|s| - 1], base) * base + DigitValue(s[|s| - 1])
  }

  predicate AllDigits(s: seq<Byte>, base: int) {
    forall i | 0 <= i < |s| :: IsBaseDigit(s[i], base)
  }

  /** The digits of u have the value u. */
  lemma {:induction false} ValueOfDigits(u: nat, base: int)
    requires IsBase(base)
    ensures AllDigits(Digits(u, base), base) && Value(Digits(u, base), base) == u
    decreases u
  {
    hide Digit, DigitValue, IsBaseDigit, Value, Digits, AllDigits;
    DigitsStep(u, base);
    if u < base {
      DigitValueOf(u, base);
      NoDigits(base);
      ValueSnoc([], Digit(u), base);
      assert [Digit(u)] == [] + [Digit(u)];
    } else {
      Shrinks(u, base);
      ValueOfDigits(u / base, base);
      DigitValueOf(u % base, base);
      ValueSnoc(Digits(u / base, base), Digit(u % base), base);
    }
  }

  lemma NoDigits(base: int)
    requires IsBase(base)
    ensures AllDigits([], base) && Value([], base) == 0
  {
  }

  lemma ValueSnoc(s: seq<Byte>, c: Byte, base: int)
    requires IsBase(base) && AllDigits(s, base) && IsBaseDigit(c, base)
    ensures AllDigits(s + [c], base) && Value(s + [c], base) == Value(s, base) * base + DigitValue(c)
  {
    hide DigitValue, IsBaseDigit;
    var t := s + [c];
    assert t[..|t| - 1] == s;
  }

  /** There are no leading zeros. */
  lemma {:induction false} NoLeadingZero(u: nat, base: int)
    requires IsBase(base) && u > 0
    ensures Digits(u, base)[0] != 48
    decreases u
  {
    if u >= base {
      Shrinks(u, base);
      NoLeadingZero(u / base, base);
    }
  }

  function Power(b: nat, n: nat): nat {
    if n == 0 then 1 else b * Power(b, n - 1)
  }

  lemma {:induction false} AtMost(u: nat, base: int, n: nat)
    requires IsBase(base) && n >= 1 && u < Power(2, n)
    ensures |Digits(u, base)| <= n
    decreases n
  {
    if u >= base {
      Shrinks(u, base);
      QuotientFalls(u, base);
      AtMost(u / base, base, n - 1);
    }
  }

  /** A double has at most 64 digits. */
  lemma DoubleDigits(u: nat, base: int)
    requires IsBase(base) && u < WORD2
    ensures |Digits(u, base)| <= 64
  {
    hide Digits, Power;
    PowerOfDouble();
    AtMost(u, base, 64);
  }

  lemma PowerOfDouble()
    ensures Power(2, 64) == WORD2
  {
    assert Power(2, 4) == 16;
    hide Power;
    PowerSum(2, 4, 4);
    assert Power(2, 8) == 16 * 16;
    PowerSum(2, 8, 8);
    assert Power(2, 16) == 0x100 * 0x100;
    PowerSum(2, 16, 16);
    assert Power(2, 32) == 0x1_0000 * 0x1_0000;
    PowerSum(2, 32, 32);
  }

  lemma {:induction false} PowerSum(b: nat, m: nat, n: nat)
    ensures Power(b, m + n) == Power(b, m) * Power(b, n)
    decreases m
  {
    if m > 0 {
      PowerSum(b, m - 1, n);
      assert b * Power(b, m - 1) * Power(b, n) == b * (Power(b, m - 1) * Power(b, n));
    }
  }

  // ----- digits from the left -----

  /** Strings of digits of the same length and value are the same. */
  lemma {:induction false} ValueDetermines(s: seq<Byte>, t: seq<Byte>, base: int)
    requires IsBase(base) && AllDigits(s, base) && AllDigits(t, base) && |s| == |t| && Value(s, base) == Value(t, base)
    ensures s == t
    decreases |s|
  {
    hide DigitValue, IsBaseDigit, Digit;
    if s != [] {
      var n := |s| - 1;
      DigitBelow(s[n], base);
      DigitBelow(t[n], base);
      LastDigit(Value(s[..n], base), DigitValue(s[n]), Value(t[..n], base), DigitValue(t[n]), base);
      ValueDetermines(s[..n], t[..n], base);
      assert s == s[..n] + [s[n]] && t == t[..n] + [t[n]];
    }
  }

  lemma LastDigit(x: nat, a: nat, y: nat, b: nat, base: int)
    requires a < base && b < base && x * base + a == y * base + b
    ensures a == b && x == y
  {
    if x < y { Grows(x + 1, y, base); } else if y < x { Grows(y + 1, x, base); }
  }

  lemma NextPower(b: nat, n: nat)
    requires n >= 1 && b > 0
    ensures Power(b, n) == b * Power(b, n - 1) && Power(b, n) / b == Power(b, n - 1)
  {
    Cancels(b, Power(b, n - 1));
  }

  lemma Cancels(b: nat, x: nat)
    requires b > 0
    ensures b * x / b == x
  {
    if b * x / b < x { Grows(b * x / b + 1, x, b); }
  }

  lemma {:induction false} PowerPositive(b: nat, n: nat)
    requires b > 0
    ensures Power(b, n) > 0
    decreases n
  {
    if n > 0 {
      PowerPositive(b, n - 1);
      Grows(1, b, Power(b, n - 1));
    }
  }

  lemma LeftBelow(u: nat, p: nat, base: int)
    requires p > 0 && u < base * p
    ensures 0 <= u / p < base && 0 <= u % p < p && u == u / p * p + u % p
  {
    if u / p >= base { Grows(base, u / p, p); }
  }

  /** How many digits there are. */
  lemma {:induction false} DigitsLength(u: nat, n: nat, base: int)
    requires IsBase(base) && n >= 1 && u < Power(base, n) && (n > 1 ==> Power(base, n - 1) <= u)
    ensures |Digits(u, base)| == n
    decreases n
  {
    hide Digit;
    NextPower(base, n);
    if n > 1 {
      NextPower(base, n - 1);
      PowerPositive(base, n - 2);
      Grows(1, Power(base, n - 2), base);
      Shrinks(u, base);
      Between(u, base, Power(base, n - 2), Power(base, n - 1));
      DigitsLength(u / base, n - 1, base);
    } else {
      assert Power(base, 0) == 1;
    }
  }

  lemma Between(u: nat, b: nat, lo: nat, hi: nat)
    requires b > 0 && b * lo <= u < b * hi
    ensures lo <= u / b < hi
  {
    if u / b < lo { Grows(u / b + 1, lo, b); }
    if u / b >= hi { Grows(hi, u / b, b); }
  }

  // ----- >NUMBER -----

  /** Where the check finds an overflow, the product that it is found in is left. */
  datatype Conversion = Converted(ud: int, rest: seq<Byte>) | Overflow(product: int)

  /** ( ud1 s -- ud2 s2 ): overflow is looked for after the multiplication, not after the addition. */
  function ToNumber(ud: int, s: seq<Byte>, base: int): Conversion
    decreases |s|
  {
    if s == [] || !IsBaseDigit(s[0], base) then Converted(ud, s)
    else if ud * base >= WORD2 then Overflow(ud * base)
    else ToNumber((ud * base + DigitValue(s[0])) % WORD2, s[1..], base)
  }

  /** The value of ud followed by digits. */
  function ValueFrom(ud: nat, s: seq<Byte>, base: int): (v: nat)
    requires IsBase(base) && AllDigits(s, base)
    decreases |s|
  {
    if s == [] then ud
    else
      DigitBelow(s[0], base);
      ValueFrom(ud * base + DigitValue(s[0]), s[1..], base)
  }

  lemma {:induction false} ValueFromSnoc(ud: nat, s: seq<Byte>, c: Byte, base: int)
    requires IsBase(base) && AllDigits(s, base) && IsBaseDigit(c, base)
    ensures AllDigits(s + [c], base) && ValueFrom(ud, s + [c], base) == ValueFrom(ud, s, base) * base + DigitValue(c)
    decreases |s|
  {
    var t := s + [c];
    DigitBelow(t[0], base);
    if s == [] {
      assert t[1..] == [];
    } else {
      assert t[1..] == s[1..] + [c];
      ValueFromSnoc(ud * base + DigitValue(s[0]), s[1..], c, base);
    }
  }

  lemma {:induction false} ValueFromZero(s: seq<Byte>, base: int)
    requires IsBase(base) && AllDigits(s, base)
    ensures ValueFrom(0, s, base) == Value(s, base)
    decreases |s|
  {
    if s != [] {
      var n := |s| - 1;
      ValueFromZero(s[..n], base);
      assert s == s[..n] + [s[n]];
      ValueFromSnoc(0, s[..n], s[n], base);
    }
  }

  lemma {:induction false} ValueGrows(ud: nat, s: seq<Byte>, base: int)
    requires IsBase(base) && AllDigits(s, base)
    ensures ValueFrom(ud, s, base) >= ud
    decreases |s|
  {
    hide DigitValue, IsBaseDigit;
    if s != [] {
      DigitBelow(s[0], base);
      var next := ud * base + DigitValue(s[0]);
      assert next >= ud by { Grows(1, base, ud); }
      ValueGrows(next, s[1..], base);
    }
  }

  /** A string of digits is read exactly when its value is a double. */
  lemma {:induction false} ToNumberExactly(ud: nat, s: seq<Byte>, base: int)
    requires IsBase(base) && AllDigits(s, base) && ud < WORD2
    ensures ToNumber(ud, s, base) == Converted(ValueFrom(ud, s, base), []) <==> ValueFrom(ud, s, base) < WORD2
    decreases |s|
  {
    hide DigitValue, IsBaseDigit;
    if s != [] {
      DigitBelow(s[0], base);
      var v := ud * base + DigitValue(s[0]);
      if v < WORD2 {
        NoOverflow(ud, s[0], base);
        ToNumberExactly(v, s[1..], base);
      } else {
        ValueGrows(v, s[1..], base);
        ToNumberBelow(ud, s, base);
      }
    }
  }

  lemma NoOverflow(ud: nat, c: Byte, base: int)
    requires IsBase(base) && IsBaseDigit(c, base) && ud * base + DigitValue(c) < WORD2
    ensures ud * base < WORD2 && (ud * base + DigitValue(c)) % WORD2 == ud * base + DigitValue(c)
  {
    DigitBelow(c, base);
    Grows(0, ud, base);
  }

  lemma {:induction false} ToNumberBelow(ud: nat, s: seq<Byte>, base: int)
    requires ud < WORD2
    ensures var r := ToNumber(ud, s, base); r.Converted? ==> 0 <= r.ud < WORD2
    decreases |s|
  {
    if s != [] && IsBaseDigit(s[0], base) && ud * base < WORD2 {
      ToNumberBelow((ud * base + DigitValue(s[0])) % WORD2, s[1..], base);
    }
  }

  /** What the first j digits amount to in the cells of a double. */
  function Kept(ud: nat, s: seq<Byte>, j: nat, base: int): (v: nat)
    requires IsBase(base) && AllDigits(s, base) && j <= |s|
    ensures v < WORD2
  {
    ValueFrom(ud, s[..j], base) % WORD2
  }

  /**
   * The one overflow check finds something: some digits, reduced to a double, times the base are more
   * than a double.
   */
  ghost predicate Reported(ud: nat, s: seq<Byte>, base: int)
    requires IsBase(base) && AllDigits(s, base)
  {
    exists j: nat | j < |s| :: Kept(ud, s, j, base) * base >= WORD2
  }

  /** A string of digits is reported exactly then; otherwise it is read as its value reduced to a double, to its end. */
  lemma {:induction false} ToNumberResult(ud: nat, s: seq<Byte>, base: int)
    requires IsBase(base) && AllDigits(s, base)
    ensures var r := ToNumber(ud % WORD2, s, base);
            if Reported(ud, s, base) then r.Overflow? else r == Converted(ValueFrom(ud, s, base) % WORD2, [])
    decreases |s|
  {
    hide DigitValue, IsBaseDigit;
    if s != [] {
      DigitBelow(s[0], base);
      var v := ud * base + DigitValue(s[0]);
      KeptNone(ud, s, base);
      if ud % WORD2 * base < WORD2 {
        ReducedStep(ud, base, DigitValue(s[0]));
        ToNumberResult(v, s[1..], base);
        ReportedRest(ud, s, base);
      }
    }
  }

  lemma KeptNone(ud: nat, s: seq<Byte>, base: int)
    requires IsBase(base) && AllDigits(s, base)
    ensures Kept(ud, s, 0, base) == ud % WORD2
  {
    assert s[..0] == [];
  }

  lemma ReducedStep(ud: nat, base: nat, d: nat)
    ensures (ud % WORD2 * base + d) % WORD2 == (ud * base + d) % WORD2
  {
    var (q, r) := (ud / WORD2, ud % WORD2);
    assert ud * base + d == (r * base + d) + q * base * WORD2;
    Multiples(r * base + d, q * base);
  }

  lemma Multiples(x: int, n: int)
    ensures (x + n * WORD2) % WORD2 == x % WORD2
  {
  }

  lemma KeptStep(ud: nat, s: seq<Byte>, j: nat, base: int)
    requires IsBase(base) && AllDigits(s, base) && j < |s|
    ensures 0 <= DigitValue(s[0]) < base
    ensures Kept(ud, s, j + 1, base) == Kept(ud * base + DigitValue(s[0]), s[1..], j, base)
  {
    hide DigitValue, IsBaseDigit;
    DigitBelow(s[0], base);
    assert s[..j + 1][1..] == s[1..][..j];
  }

  lemma ReportedRest(ud: nat, s: seq<Byte>, base: int)
    requires IsBase(base) && AllDigits(s, base) && s != [] && ud % WORD2 * base < WORD2
    ensures 0 <= DigitValue(s[0]) < base
    ensures Reported(ud, s, base) <==> Reported(ud * base + DigitValue(s[0]), s[1..], base)
  {
    hide DigitValue, IsBaseDigit, Kept;
    DigitBelow(s[0], base);
    KeptNone(ud, s, base);
    var v := ud * base + DigitValue(s[0]);
    if Reported(ud, s, base) {
      var j: nat :| j < |s| && Kept(ud, s, j, base) * base >= WORD2;
      KeptStep(ud, s, j - 1, base);
      assert Kept(v, s[1..], j - 1, base) * base >= WORD2;
    }
    if Reported(v, s[1..], base) {
      var j: nat :| j < |s[1..]| && Kept(v, s[1..], j, base) * base >= WORD2;
      KeptStep(ud, s, j, base);
      assert Kept(ud, s, j + 1, base) * base >= WORD2;
    }
  }

  /** A number that is no double is read wrongly without a report exactly if the check finds nothing. */
  lemma SilentExactly(ud: nat, s: seq<Byte>, base: int)
    requires IsBase(base) && AllDigits(s, base) && ud < WORD2
    ensures var r := ToNumber(ud, s, base);
            (r.Converted? && r.ud != ValueFrom(ud, s, base)) <==>
            ValueFrom(ud, s, base) >= WORD2 && !Reported(ud, s, base)
  {
    hide Reported, ValueFrom, ToNumber;
    ToNumberResult(ud, s, base);
  }

  /** `<# #S #>` and then >NUMBER from zero give back every double, and nothing of the string is left. */
  lemma SharpsToNumber(u: nat, base: int)
    requires IsBase(base) && u < WORD2
    ensures ToNumber(0, Digits(u, base), base) == Converted(u, [])
  {
    ValueOfDigits(u, base);
    ValueFromZero(Digits(u, base), base);
    ToNumberExactly(0, Digits(u, base), base);
  }

  /** 2^64 in decimal is read as 0, without a report of the overflow. */
  lemma OverflowUnreported()
    ensures var s := Digits(WORD2, 10); ToNumber(0, s, 10) == Converted(0, [])
  {
    hide ToNumber;
    var n := WORD2 / 10;
    var t := Digits(n, 10);
    SharpsToNumber(n, 10);
    ValueOfDigits(n, 10);
    ToNumberSnoc(0, t, 54, 10);
    LastStep(n);
  }

  lemma LastStep(n: nat)
    requires n == WORD2 / 10
    ensures ToNumber(n, [54], 10) == Converted(0, []) && Digits(WORD2, 10) == Digits(n, 10) + [54]
  {
    var r := ToNumber((n * 10 + 6) % WORD2, [54][1..], 10);
  }

  lemma {:induction false} ToNumberSnoc(ud: nat, s: seq<Byte>, c: Byte, base: int)
    requires AllDigits(s, base) && ToNumber(ud, s, base).Converted?
    ensures ToNumber(ud, s + [c], base) == ToNumber(ToNumber(ud, s, base).ud, [c], base)
    decreases |s|
  {
    var t := s + [c];
    if s != [] {
      assert t[1..] == s[1..] + [c];
      ToNumberSnoc((ud * base + DigitValue(s[0])) % WORD2, s[1..], c, base);
    } else {
      assert t == [c];
    }
  }

  // ----- NUMBER? and D. -----

  const MINUS: Byte := 45

  lemma MinusIs()
    ensures MINUS == '-' as int
  {
  }

  /**
   * A double, and whether the string was a number. After an overflow no double is left, and the
   * flag is what the product has in its second cell.
   */
  datatype Number = Number(d: int, ok: bool) | Unbalanced(ok: bool)

  /** NUMBER? on the characters of a counted string: a count of more than 127 is read as a negative one. */
  function NumberQuery(s: seq<Byte>, base: int): Number {
    var negative := s != [] && s[0] == MINUS;
    var t := if negative then s[1..] else s;
    if t == [] || |s| > 127 then Number(0, false)
    else
      match ToNumber(0, t, base)
      case Overflow(p) => Unbalanced(p % WORD2 < WORD)
      case Converted(ud, rest) => Number(if negative then -ud % WORD2 else ud, rest == [])
  }

  /** What D. prints. */
  function SignedDigits(d: int, base: int): seq<Byte>
    requires IsBase(base)
  {
    if d < 0 then [MINUS] + Digits(-d, base) else Digits(d, base)
  }

  /** A string with or without a sign, of digits and whatever follows them. */
  predicate IsSigned(s: seq<Byte>, negative: bool, t: seq<Byte>, rest: seq<Byte>, base: int) {
    && s == (if negative then [MINUS] else []) + t + rest
    && AllDigits(t, base) && t != [] && (rest != [] ==> !IsBaseDigit(rest[0], base))
  }

  /** Digits are read as if nothing followed them. */
  lemma {:induction false} ToNumberRest(ud: int, t: seq<Byte>, rest: seq<Byte>, base: int)
    requires AllDigits(t, base) && (rest != [] ==> !IsBaseDigit(rest[0], base))
    ensures ToNumber(ud, t + rest, base) ==
            match ToNumber(ud, t, base)
            case Overflow(p) => Overflow(p)
            case Converted(v, _) => Converted(v, rest)
    decreases |t|
  {
    hide IsBaseDigit, DigitValue;
    if t == [] {
      assert t + rest == rest;
    } else {
      assert (t + rest)[1..] == t[1..] + rest;
      if ud * base < WORD2 { ToNumberRest((ud * base + DigitValue(t[0])) % WORD2, t[1..], rest, base); }
    }
  }

  /** What NUMBER? makes of any string that begins with a digit, or with a sign and a digit. */
  lemma NumberQueryResult(s: seq<Byte>, negative: bool, t: seq<Byte>, rest: seq<Byte>, base: int)
    requires IsBase(base) && IsSigned(s, negative, t, rest, base) && |s| <= 127
    ensures var (r, u) := (NumberQuery(s, base), Value(t, base) % WORD2);
            if Reported(0, t, base) then r.Unbalanced?
            else r == Number(if negative then -u % WORD2 else u, rest == [])
  {
    hide Reported, Value, ToNumber, IsBaseDigit;
    SignTold(s, negative, t, rest, base);
    ToNumberResult(0, t, base);
    ToNumberRest(0, t, rest, base);
    ValueFromZero(t, base);
  }

  lemma SignTold(s: seq<Byte>, negative: bool, t: seq<Byte>, rest: seq<Byte>, base: int)
    requires IsSigned(s, negative, t, rest, base)
    ensures s != [] && (s[0] == MINUS <==> negative) && t + rest != [] && (if negative then s[1..] else s) == t + rest
  {
    assert IsBaseDigit(t[0], base);
    if negative { assert s == [MINUS] + (t + rest); } else { assert s == t + rest; }
  }

  /** The number that a string means. */
  function Meant(negative: bool, t: seq<Byte>, base: int): int
    requires IsBase(base) && AllDigits(t, base)
  {
    var v: int := Value(t, base);
    if negative then -v else v
  }

  /**
   * NUMBER? is right about a string exactly if nothing follows its digits, it is short enough, and it
   * means a signed double.
   */
  lemma NumberQueryExactly(s: seq<Byte>, negative: bool, t: seq<Byte>, rest: seq<Byte>, base: int)
    requires IsBase(base) && IsSigned(s, negative, t, rest, base)
    ensures var (r, x) := (NumberQuery(s, base), Meant(negative, t, base));
            (r.Number? && r.ok && Signed2(r.d) == x) <==> rest == [] && |s| <= 127 && -WORD2 / 2 <= x < WORD2 / 2
  {
    hide Reported, Value, ValueFrom, ToNumber, IsBaseDigit, AllDigits, Signed2;
    SignTold(s, negative, t, rest, base);
    if |s| <= 127 {
      NumberQueryResult(s, negative, t, rest, base);
      ToNumberResult(0, t, base);
      ToNumberExactly(0, t, base);
      ValueFromZero(t, base);
      SignedReading(Value(t, base), negative);
    }
  }

  lemma SignedReading(v: nat, negative: bool)
    ensures var (u, x) := (v % WORD2, if negative then -(v as int) else v);
            Signed2(if negative then -u % WORD2 else u) == x <==> -WORD2 / 2 <= x < WORD2 / 2
    ensures v < WORD2 || (-(v as int) < -WORD2 / 2 && v >= WORD2 / 2)
  {
  }

  /** 2^64 in decimal is a number for NUMBER?, and 0; in hexadecimal it is a number, and there is no double. */
  lemma NumberQueryWrong()
    ensures NumberQuery(Digits(WORD2, 10), 10) == Number(0, true)
    ensures NumberQuery(Digits(WORD2, 16), 16) == Unbalanced(true)
  {
    hide ToNumber;
    DecimalWrong();
    HexWrong();
  }

  lemma DecimalWrong()
    ensures NumberQuery(Digits(WORD2, 10), 10) == Number(0, true)
  {
    hide ToNumber, Digits;
    var s := Digits(WORD2, 10);
    OverflowUnreported();
    FewDigits(WORD2, 10);
    DigitsNotMinus(WORD2, 10);
  }

  lemma HexWrong()
    ensures NumberQuery(Digits(WORD2, 16), 16) == Unbalanced(true)
  {
    hide ToNumber, Digits;
    var n := WORD2 / 16;
    DigitsStep(WORD2, 16);
    SharpsToNumber(n, 16);
    ValueOfDigits(n, 16);
    ToNumberSnoc(0, Digits(n, 16), 48, 16);
    HexLast(n);
    FewDigits(WORD2, 16);
    DigitsNotMinus(WORD2, 16);
  }

  lemma HexLast(n: nat)
    requires n == WORD2 / 16
    ensures ToNumber(n, [48], 16) == Overflow(WORD2) && WORD2 / 16 == n && WORD2 % 16 == 0 && Digit(0) == 48
  {
  }

  /** One digit more than a double has. */
  lemma FewDigits(u: nat, base: int)
    requires IsBase(base) && u == WORD2
    ensures |Digits(u, base)| <= 65
  {
    hide Digits;
    DigitsStep(u, base);
    Shrinks(u, base);
    DoubleDigits(u / base, base);
  }

  lemma DigitsNotMinus(u: nat, base: int)
    requires IsBase(base)
    ensures Digits(u, base)[0] != MINUS
  {
    hide Digits;
    ValueOfDigits(u, base);
    assert IsBaseDigit(Digits(u, base)[0], base);
  }

  /** NUMBER? reads back every signed double that D. prints. */
  lemma SignedRoundTrip(d: int, base: int)
    requires IsBase(base) && -WORD2 / 2 <= d < WORD2 / 2
    ensures var r := NumberQuery(SignedDigits(d, base), base); r.Number? && r.ok && Signed2(r.d) == d
  {
    hide Digits, ToNumber, Value, DigitValue;
    var u := if d < 0 then -d else d;
    var t := Digits(u, base);
    SharpsToNumber(u, base);
    ValueOfDigits(u, base);
    DoubleDigits(u, base);
    assert IsBaseDigit(t[0], base);
    if d < 0 { assert SignedDigits(d, base)[1..] == t; }
  }
}
