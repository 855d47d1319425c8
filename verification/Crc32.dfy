/**
 * The 32-bit cyclic redundancy check: division of bits one by one, and by a table of
 * bytes, with what the remainders say about messages.
 */
module Crc32 {
  import opened Bits

  const POLYNOMIAL: bv32 := 0xEDB8_8320

  /** The bit of the reversed polynomial that stands for x to the power of n. */
  function Term(n: nat): bv32
    requires n < 32
  {
    (1 as bv32) << (31 - n)
  }

  /** POLYNOMIAL has the coefficients of the standard below the 32nd. */
  lemma Coefficients()
    ensures POLYNOMIAL == Term(26) | Term(23) | Term(22) | Term(16) | Term(12) | Term(11) | Term(10) | Term(8) | Term(7)
                          | Term(5) | Term(4) | Term(2) | Term(1) | Term(0)
  {
  }

  // ----- bits -----

  function Half(x: bv32): bv32 {
    x >> 1
  }

  predicate Odd(x: bv32) {
    x & 1 == 1
  }

  lemma HalfXor(x: bv32, y: bv32)
    ensures Half(Xor(x, y)) == Xor(Half(x), Half(y))
    ensures Odd(Xor(x, y)) <==> Odd(x) != Odd(y)
  {
  }

  // ----- the division -----

  /** The remainder moves on by one bit. */
  function Shift(crc: bv32): bv32 {
    if Odd(crc) then Xor(Half(crc), POLYNOMIAL) else Half(crc)
  }

  function Shifts(crc: bv32, n: nat): bv32
    decreases n
  {
    if n == 0 then crc else Shifts(Shift(crc), n - 1)
  }

  /** The remainder after one more byte: it is divided as 8 bits above the remainder. */
  function Update(crc: bv32, byte: bv8): bv32 {
    Shifts(Xor(crc, byte as bv32), 8)
  }

  /** The remainder after a message. */
  function Feed(crc: bv32, message: seq<bv8>): bv32
    decreases |message|
  {
    if message == [] then crc else Feed(Update(crc, message[0]), message[1..])
  }

  /** Update-CRC-by-a-Bit */
  function UpdateByBit(crc: bv32, byte: bv32): bv32 {
    var c := Shift(crc);
    if Odd(byte) then Xor(c, POLYNOMIAL) else c
  }

  lemma BitStep(crc: bv32, b: bv32)
    ensures UpdateByBit(crc, b) == Xor(Shift(Xor(crc, b)), Half(b))
  {
    hide Xor, Half, Odd;
    HalfXor(crc, b);
    var (x, y) := (Half(crc), Half(b));
    XorTwice(x, y);
    XorTwice(x, POLYNOMIAL);
    XorOrder(Xor(x, y), POLYNOMIAL, y);
  }

  lemma {:induction false} ShiftsMore(x: bv32, m: nat, n: nat)
    ensures Shifts(x, m + n) == Shifts(Shifts(x, m), n)
    decreases m
  {
    hide Shift;
    if m > 0 { ShiftsMore(Shift(x), m - 1, n); }
  }

  lemma OneShift(x: bv32)
    ensures Shifts(x, 1) == Shift(x)
  {
    hide Shift;
  }

  /** The bits of a byte that are left after i of them. */
  function Halves(b: bv32, i: nat): bv32 {
    if i == 0 then b else Half(Halves(b, i - 1))
  }

  lemma NoneLeft(b: bv8)
    ensures Halves(b as bv32, 8) == 0
  {
    var x := b as bv32;
    assert Halves(x, 1) == x >> 1;
    assert Halves(x, 2) == x >> 2;
    assert Halves(x, 3) == x >> 3;
    assert Halves(x, 4) == x >> 4;
    assert Halves(x, 5) == x >> 5;
    assert Halves(x, 6) == x >> 6;
    assert Halves(x, 7) == x >> 7;
  }

  /** Update-CRC-by-a-Byte, as it goes over the bits. */
  method UpdateByByte(oldcrc: bv32, byte: bv8) returns (crc: bv32)
    ensures crc == Update(oldcrc, byte)
  {
    hide Shift, Shifts, UpdateByBit, Xor, Half, Halves;
    crc := oldcrc;
    var b := byte as bv32;
    ghost var x := Xor(oldcrc, b);
    Start(x, b, oldcrc);
    for i := 0 to 8
      invariant x == Shifts(Xor(oldcrc, byte as bv32), i) && crc == Xor(x, b) && b == Halves(byte as bv32, i)
    {
      BitStep(crc, b);
      XorTwice(x, b);
      ShiftsMore(Xor(oldcrc, byte as bv32), i, 1);
      OneShift(x);
      HalvesStep(byte as bv32, i);
      crc := UpdateByBit(crc, b);
      x := Shift(x);
      b := Half(b);
    }
    NoneLeft(byte);
    XorZero(x);
  }

  lemma Start(x: bv32, b: bv32, c: bv32)
    requires x == Xor(c, b)
    ensures x == Shifts(x, 0) && c == Xor(x, b) && b == Halves(b, 0)
  {
    XorTwice(c, b);
  }

  lemma HalvesStep(b: bv32, i: nat)
    ensures Halves(b, i + 1) == Half(Halves(b, i))
  {
    hide Half;
  }

  method BuildTable() returns (table: array<bv32>)
    ensures fresh(table) && IsTable(table)
  {
    hide Update;
    table := new bv32[256];
    for i := 0 to 256
      invariant forall v: bv8 :: (v as int) < i ==> table[v as int] == Update(0, v)
    {
      table[i] := UpdateByByte(0, i as bv8);
    }
  }

  /** Each byte's remainder from zero. */
  ghost predicate IsTable(table: array<bv32>)
    reads table
  {
    table.Length == 256 && forall v: bv8 :: table[v as int] == Update(0, v)
  }

  // ----- the table -----

  function Ups(v: bv32, n: nat): bv32 {
    if n == 0 then v else Up(Ups(v, n - 1))
  }

  /** n places up, no bit of v is lost. */
  predicate Fits(v: bv32, n: nat) {
    n > 0 ==> Ups(v, n - 1) < 0x8000_0000 && Fits(v, n - 1)
  }

  lemma HalfUp(v: bv32)
    requires v < 0x8000_0000
    ensures Half(Up(v)) == v && !Odd(Up(v))
  {
  }

  lemma ShiftUp(x: bv32, v: bv32)
    requires v < 0x8000_0000
    ensures Shift(Xor(x, Up(v))) == Xor(Shift(x), v)
  {
    hide Xor, Half, Up, Odd;
    HalfXor(x, Up(v));
    HalfUp(v);
    XorOrder(Half(x), v, POLYNOMIAL);
  }

  /** Bits that are n places up come down in n shifts. */
  lemma {:induction false} Absorb(x: bv32, v: bv32, n: nat)
    requires Fits(v, n)
    ensures Shifts(Xor(x, Ups(v, n)), n) == Xor(Shifts(x, n), v)
    decreases n
  {
    hide Xor, Shift, Up;
    if n > 0 {
      ShiftUp(x, Ups(v, n - 1));
      Absorb(Shift(x), v, n - 1);
    }
  }

  lemma FitsByte(v: bv32)
    requires v < 0x100_0000
    ensures Fits(v, 8) && Ups(v, 8) == v << 8
  {
    assert Ups(v, 1) == v << 1 && Fits(v, 1);
    assert Ups(v, 2) == v << 2 && Fits(v, 2);
    assert Ups(v, 3) == v << 3 && Fits(v, 3);
    assert Ups(v, 4) == v << 4 && Fits(v, 4);
    assert Ups(v, 5) == v << 5 && Fits(v, 5);
    assert Ups(v, 6) == v << 6 && Fits(v, 6);
    assert Ups(v, 7) == v << 7 && Fits(v, 7);
  }

  /** CRC: the same by the table, which tells what the low byte of the sum does to the rest. */
  method Crc(table: array<bv32>, oldcrc: bv32, byte: bv8) returns (newcrc: bv32)
    requires IsTable(table)
    ensures newcrc == Update(oldcrc, byte)
  {
    hide Update, Xor, Fits, Ups;
    var sum := oldcrc ^ (byte as bv32);
    var i: bv8 := (sum & 0xFF) as bv8;
    var rest := oldcrc >> 8;
    LowByte(oldcrc, byte, i, rest);
    ByTable(oldcrc, byte, i, rest);
    newcrc := Xor(table[i as int], rest);
  }

  lemma ByTable(crc: bv32, byte: bv8, i: bv8, v: bv32)
    requires Fits(v, 8) && Xor(crc, byte as bv32) == Xor(Xor(0, i as bv32), Ups(v, 8))
    ensures Update(crc, byte) == Xor(Update(0, i), v)
  {
    hide Shifts, Xor, Fits, Ups;
    Absorb(Xor(0, i as bv32), v, 8);
  }

  lemma LowByte(crc: bv32, byte: bv8, i: bv8, v: bv32)
    requires i == ((crc ^ (byte as bv32)) & 0xFF) as bv8 && v == crc >> 8
    ensures Fits(v, 8) && Xor(crc, byte as bv32) == Xor(Xor(0, i as bv32), Ups(v, 8))
  {
    hide Fits, Ups;
    FitsByte(v);
  }

  // ----- what the check finds -----

  /** CRC32S: the check of a message. */
  method Crc32s(table: array<bv32>, message: seq<bv8>) returns (crc: bv32)
    requires IsTable(table)
    ensures crc == Check(message)
  {
    hide Update;
    crc := 0xFFFF_FFFF;
    for i := 0 to |message|
      invariant Feed(crc, message[i..]) == Feed(0xFFFF_FFFF, message)
    {
      crc := Crc(table, crc, message[i]);
    }
    crc := Invert(crc);
  }

  function Invert(x: bv32): bv32 {
    x ^ 0xFFFF_FFFF
  }

  function Check(message: seq<bv8>): bv32 {
    Invert(Feed(0xFFFF_FFFF, message))
  }

  lemma {:induction false} FeedMore(crc: bv32, s: seq<bv8>, t: seq<bv8>)
    ensures Feed(crc, s + t) == Feed(Feed(crc, s), t)
    decreases |s|
  {
    hide Update;
    if s == [] {
      assert s + t == t;
    } else {
      assert (s + t)[0] == s[0] && (s + t)[1..] == s[1..] + t;
      FeedMore(Update(crc, s[0]), s[1..], t);
    }
  }

  /** n bytes of a remainder, low byte first. */
  function Bytes(crc: bv32, n: nat): seq<bv8> {
    if n == 0 then [] else [(crc & 0xFF) as bv8] + Bytes(crc >> 8, n - 1)
  }

  /** What is above n bytes of it. */
  function Above(crc: bv32, n: nat): bv32
    decreases n
  {
    if n == 0 then crc else Above(crc >> 8, n - 1)
  }

  /** A byte that equals the low byte of the remainder moves it on without a polynomial. */
  lemma LowByteOut(crc: bv32, b: bv8)
    requires b == (crc & 0xFF) as bv8
    ensures Update(crc, b) == crc >> 8
  {
    hide Shifts, Xor, Fits, Ups;
    var v := crc >> 8;
    FitsByte(v);
    Absorb(0, v, 8);
    NothingLeft(crc, b, v);
    ZeroShifts(8);
  }

  lemma NothingLeft(crc: bv32, b: bv8, v: bv32)
    requires b == (crc & 0xFF) as bv8 && v == crc >> 8
    ensures Xor(crc, b as bv32) == Xor(0, v << 8) && Xor(0, v) == v
  {
  }

  lemma {:induction false} ZeroShifts(n: nat)
    ensures Shifts(0, n) == 0
    decreases n
  {
    if n > 0 { ZeroShifts(n - 1); }
  }

  /** The four bytes of the remainder, fed low byte first after the message, leave 0. */
  lemma Residue(message: seq<bv8>)
    ensures var c := Feed(0xFFFF_FFFF, message); Feed(0xFFFF_FFFF, message + Bytes(c, 4)) == 0
  {
    hide Update, Feed, Bytes;
    var c := Feed(0xFFFF_FFFF, message);
    FeedMore(0xFFFF_FFFF, message, Bytes(c, 4));
    BytesOut(c, 4);
    NoneAbove(c);
  }

  lemma {:induction false} BytesOut(c: bv32, n: nat)
    ensures Feed(c, Bytes(c, n)) == Above(c, n)
    decreases n
  {
    hide Update;
    if n > 0 {
      LowByteOut(c, (c & 0xFF) as bv8);
      BytesOut(c >> 8, n - 1);
    }
  }

  lemma NoneAbove(c: bv32)
    ensures Above(c, 4) == 0
  {
    assert Above(c >> 24, 1) == Above(0, 0);
  }

  // ----- differences that are always found -----

  lemma ShiftInjective(x: bv32, y: bv32)
    requires Shift(x) == Shift(y)
    ensures x == y
  {
  }

  lemma {:induction false} ShiftsInjective(x: bv32, y: bv32, n: nat)
    requires Shifts(x, n) == Shifts(y, n)
    ensures x == y
    decreases n
  {
    hide Shift;
    if n > 0 {
      ShiftsInjective(Shift(x), Shift(y), n - 1);
      ShiftInjective(x, y);
    }
  }

  lemma UpdateInjective(x: bv32, y: bv32, b: bv8)
    requires Update(x, b) == Update(y, b)
    ensures x == y
  {
    hide Shifts, Xor;
    var v := b as bv32;
    ShiftsInjective(Xor(x, v), Xor(y, v), 8);
    XorTwice(x, v);
    XorTwice(y, v);
  }

  lemma {:induction false} FeedInjective(x: bv32, y: bv32, s: seq<bv8>)
    requires Feed(x, s) == Feed(y, s)
    ensures x == y
    decreases |s|
  {
    hide Update;
    if s != [] {
      FeedInjective(Update(x, s[0]), Update(y, s[0]), s[1..]);
      UpdateInjective(x, y, s[0]);
    }
  }

  /** A byte below others. */
  function Join(b: bv8, x: bv32): bv32 {
    (b as bv32) ^ (x << 8)
  }

  /** Up to four bytes as a word, low byte first. */
  function Word(w: seq<bv8>): bv32
    decreases |w|
  {
    if w == [] then 0 else Join(w[0], Word(w[1..]))
  }

  lemma {:induction false} WordInjective(v: seq<bv8>, w: seq<bv8>)
    requires |v| == |w| <= 4 && Word(v) == Word(w)
    ensures v == w
    decreases |v|
  {
    hide Join;
    if v != [] {
      WordFits(v[1..]);
      WordFits(w[1..]);
      JoinInjective(v[0], Word(v[1..]), w[0], Word(w[1..]));
      WordInjective(v[1..], w[1..]);
      assert v == [v[0]] + v[1..] && w == [w[0]] + w[1..];
    }
  }

  lemma JoinInjective(a: bv8, x: bv32, b: bv8, y: bv32)
    requires x < 0x100_0000 && y < 0x100_0000 && Join(a, x) == Join(b, y)
    ensures a == b && x == y
  {
  }

  lemma WordFits(w: seq<bv8>)
    requires |w| <= 3
    ensures Word(w) < 0x100_0000
  {
    hide Join;
    if |w| >= 1 {
      JoinFits(w[0], Word(w[1..]));
      if |w| >= 2 {
        JoinFits(w[1], Word(w[1..][1..]));
        if |w| >= 3 { JoinFits(w[2], Word(w[1..][1..][1..])); }
      }
    }
  }

  lemma JoinFits(a: bv8, x: bv32)
    ensures x == 0 ==> Join(a, x) < 0x100
    ensures x < 0x100 ==> Join(a, x) < 0x1_0000
    ensures x < 0x1_0000 ==> Join(a, x) < 0x100_0000
  {
  }

  lemma JoinUp(crc: bv32, a: bv8, x: bv32)
    requires x < 0x100_0000
    ensures Fits(x, 8) && Xor(crc, Join(a, x)) == Xor(Xor(crc, a as bv32), Ups(x, 8))
  {
    hide Fits, Ups;
    FitsByte(x);
  }

  /** Feeding up to four bytes is shifting their word, added to the remainder. */
  lemma {:induction false} FeedWord(crc: bv32, w: seq<bv8>)
    requires |w| <= 4
    ensures Feed(crc, w) == Shifts(Xor(crc, Word(w)), 8 * |w|)
    decreases |w|
  {
    hide Xor, Shifts, Join, Fits, Ups;
    if w == [] {
      XorZero(crc);
      NoShifts(crc);
    } else {
      var v := Word(w[1..]);
      WordFits(w[1..]);
      JoinUp(crc, w[0], v);
      Absorb(Xor(crc, w[0] as bv32), v, 8);
      FeedWord(Update(crc, w[0]), w[1..]);
      ShiftsMore(Xor(crc, Word(w)), 8, 8 * |w| - 8);
    }
  }

  lemma NoShifts(x: bv32)
    ensures Shifts(x, 0) == x
  {
  }

  /** Messages of the same length that differ only within four bytes in a row have different checks. */
  lemma FindsBurst(before: seq<bv8>, v: seq<bv8>, w: seq<bv8>, after: seq<bv8>)
    requires |v| == |w| <= 4 && v != w
    ensures Check(before + v + after) != Check(before + w + after)
  {
    hide Feed, Shifts, Xor, Word;
    var c := Feed(0xFFFF_FFFF, before);
    FeedMore(0xFFFF_FFFF, before, v);
    FeedMore(0xFFFF_FFFF, before, w);
    FeedMore(0xFFFF_FFFF, before + v, after);
    FeedMore(0xFFFF_FFFF, before + w, after);
    FeedWord(c, v);
    FeedWord(c, w);
    if Check(before + v + after) == Check(before + w + after) {
      InvertInjective(Feed(0xFFFF_FFFF, before + v + after), Feed(0xFFFF_FFFF, before + w + after));
      FeedInjective(Feed(c, v), Feed(c, w), after);
      ShiftsInjective(Xor(c, Word(v)), Xor(c, Word(w)), 8 * |v|);
      XorTwice(c, Word(v));
      XorTwice(c, Word(w));
      XorTwice(Word(v), c);
      XorTwice(Word(w), c);
      WordInjective(v, w);
    }
  }

  lemma InvertInjective(x: bv32, y: bv32)
    requires Invert(x) == Invert(y)
    ensures x == y
  {
  }

  // ----- the inverted check -----

  /** Word puts together what Bytes takes apart. */
  lemma WordOfBytes(x: bv32)
    ensures |Bytes(x, 4)| == 4 && Word(Bytes(x, 4)) == x
  {
    hide Join;
    var (x1, x2, x3) := (x >> 8, x >> 8 >> 8, x >> 8 >> 8 >> 8);
    assert Bytes(x3, 1) == [LowOf(x3)] + Bytes(x3 >> 8, 0);
    assert Bytes(x2, 2) == [LowOf(x2)] + Bytes(x3, 1);
    assert Bytes(x1, 3) == [LowOf(x1)] + Bytes(x2, 2);
    assert Bytes(x, 4) == [LowOf(x)] + Bytes(x1, 3);
    assert Word(Bytes(x3, 1)) == Join(LowOf(x3), 0) by { assert Bytes(x3, 1)[1..] == []; }
    assert Word(Bytes(x2, 2)) == Join(LowOf(x2), Word(Bytes(x3, 1))) by { assert Bytes(x2, 2)[1..] == Bytes(x3, 1); }
    assert Word(Bytes(x1, 3)) == Join(LowOf(x1), Word(Bytes(x2, 2))) by { assert Bytes(x1, 3)[1..] == Bytes(x2, 2); }
    assert Word(Bytes(x, 4)) == Join(LowOf(x), Word(Bytes(x1, 3))) by { assert Bytes(x, 4)[1..] == Bytes(x1, 3); }
    JoinedBack(x);
  }

  function LowOf(x: bv32): bv8 {
    (x & 0xFF) as bv8
  }

  lemma JoinedBack(x: bv32)
    ensures var (x1, x2, x3) := (x >> 8, x >> 8 >> 8, x >> 8 >> 8 >> 8);
            Join(LowOf(x), Join(LowOf(x1), Join(LowOf(x2), Join(LowOf(x3), 0)))) == x
  {
  }

  /** The check itself, fed low byte first after the message, leaves the same residue for every message. */
  lemma CheckResidue(message: seq<bv8>)
    ensures Feed(0xFFFF_FFFF, message + Bytes(Check(message), 4)) == 0xDEBB_20E3
  {
    hide Update, Feed, Bytes, Shifts, Xor, Word;
    var c := Feed(0xFFFF_FFFF, message);
    var x := Check(message);
    FeedMore(0xFFFF_FFFF, message, Bytes(x, 4));
    WordOfBytes(x);
    FeedWord(c, Bytes(x, 4));
    AllOnes(c);
    OnesShifted();
  }

  lemma AllOnes(c: bv32)
    ensures Xor(c, Invert(c)) == 0xFFFF_FFFF
  {
  }

  lemma OnesShifted()
    ensures Shifts(0xFFFF_FFFF, 32) == 0xDEBB_20E3
  {
    hide Shift;
    EightShifts0();
    EightShifts1();
    EightShifts2();
    EightShifts3();
    hide Shifts;
    ShiftsMore(0xFFFF_FFFF, 8, 24);
    ShiftsMore(0xFFFF_FFFF, 16, 16);
    ShiftsMore(0xFFFF_FFFF, 24, 8);
    ShiftsMore(0xFFFF_FFFF, 8, 8);
    ShiftsMore(0xFFFF_FFFF, 16, 8);
  }

  lemma EightShifts0()
    ensures Shifts(0xFFFF_FFFF, 8) == 0x2DFD_1072
  {
  }

  lemma EightShifts1()
    ensures Shifts(0x2DFD_1072, 8) == 0xBE26_ED00
  {
  }

  lemma EightShifts2()
    ensures Shifts(0xBE26_ED00, 8) == 0xBE_26ED
  {
  }

  lemma EightShifts3()
    ensures Shifts(0xBE_26ED, 8) == 0xDEBB_20E3
  {
  }

  /** The example of the source: the check of "An Arbitrary String". */
  lemma Example()
    ensures Check([65, 110, 32, 65, 114, 98, 105, 116, 114, 97, 114, 121, 32, 83, 116, 114, 105, 110,
                   103]) == 0x6FBE_AAE7
  {
    hide Update, Feed;
    Steps0();
    Steps1();
    Steps2();
    Steps3();
    var s: seq<bv8> := [65, 110, 32, 65, 114, 98, 105, 116, 114, 97, 114, 121, 32, 83, 116, 114, 105, 110, 103];
    FeedRun(s, 0xFFFF_FFFF, [0x2C26_6174, 0xFD4E_DF1B, 0xB1F6_A7FB, 0x2B05_AC35, 0xE893_D19F, 0xC3E4_1D70,
                             0x64A8_4CDD, 0xAF6E_B300, 0xBEA4_7EA3, 0x75D4_07E2, 0xF07A_4743, 0xC6FC_A3F5,
                               0xF67F_DAF8, 0x41F2_05BA, 0x7C9D_1DB2, 0x9B18_5FAD, 0x9C92_1EF6, 0xFE48_8968,
                                 0x9041_5518]);
  }

  /** A message fed byte by byte, with all the remainders on the way. */
  lemma {:induction false} FeedRun(s: seq<bv8>, crc: bv32, run: seq<bv32>)
    requires |run| == |s| > 0 && Update(crc, s[0]) == run[0]
    requires forall i | 0 < i < |s| :: Update(run[i - 1], s[i]) == run[i]
    ensures Feed(crc, s) == run[|s| - 1]
    decreases |s|
  {
    hide Update;
    if |s| > 1 {
      FeedRun(s[1..], run[0], run[1..]);
    } else {
      assert s[1..] == [] && Feed(run[0], []) == run[0];
    }
  }

  lemma Steps0()
    ensures Update(0xFFFF_FFFF, 65) == 0x2C26_6174
    ensures Update(0x2C26_6174, 110) == 0xFD4E_DF1B
    ensures Update(0xFD4E_DF1B, 32) == 0xB1F6_A7FB
    ensures Update(0xB1F6_A7FB, 65) == 0x2B05_AC35
    ensures Update(0x2B05_AC35, 114) == 0xE893_D19F
  {
  }

  lemma Steps1()
    ensures Update(0xE893_D19F, 98) == 0xC3E4_1D70
    ensures Update(0xC3E4_1D70, 105) == 0x64A8_4CDD
    ensures Update(0x64A8_4CDD, 116) == 0xAF6E_B300
    ensures Update(0xAF6E_B300, 114) == 0xBEA4_7EA3
    ensures Update(0xBEA4_7EA3, 97) == 0x75D4_07E2
  {
  }

  lemma Steps2()
    ensures Update(0x75D4_07E2, 114) == 0xF07A_4743
    ensures Update(0xF07A_4743, 121) == 0xC6FC_A3F5
    ensures Update(0xC6FC_A3F5, 32) == 0xF67F_DAF8
    ensures Update(0xF67F_DAF8, 83) == 0x41F2_05BA
    ensures Update(0x41F2_05BA, 116) == 0x7C9D_1DB2
  {
  }

  lemma Steps3()
    ensures Update(0x7C9D_1DB2, 114) == 0x9B18_5FAD
    ensures Update(0x9B18_5FAD, 105) == 0x9C92_1EF6
    ensures Update(0x9C92_1EF6, 110) == 0xFE48_8968
    ensures Update(0xFE48_8968, 103) == 0x9041_5518
  {
  }
}
