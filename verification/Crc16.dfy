/**
 * The 16-bit cyclic redundancy checks of the scientific library, on the low halves of
 * cells: the bit-by-bit division, the byte-swapped table, and the conventions for strings.
 */
module Crc16 {
  import opened Bits

  const POLYNOMIAL: bv32 := 0x1021

  // ----- bits -----

  predicate Short(x: bv32) {
    x < 0x1_0000
  }

  predicate Top(x: bv32) {
    x & 0x8000 == 0x8000
  }

  function Mask(x: bv32): bv32 {
    x & 0xFFFF
  }

  /** >< swaps the two low bytes and drops the others. */
  function Swapped(n: bv32): bv32 {
    ((n & 0xFF) << 8) | ((n & 0xFF00) >> 8)
  }

  function Low(n: bv32): bv32 {
    n & 0xFF
  }

  function High(n: bv32): bv32 {
    n >> 8
  }

  /** Two bytes. */
  function Pair(hi: bv32, lo: bv32): bv32 {
    (hi << 8) | lo
  }

  // ----- the division -----

  /** One turn of the slow crc. */
  function Turn(x: bv32): bv32 {
    if Top(x) then Xor(Mask(Up(x)), POLYNOMIAL) else Up(x)
  }

  function Turns(x: bv32, n: nat): bv32
    decreases n
  {
    if n == 0 then x else Turns(Turn(x), n - 1)
  }

  /** The remainder after one more byte. */
  function Update(n: bv32, ch: bv8): bv32 {
    Turns(Xor(n, Swapped(ch as bv32)), 8)
  }

  /** The remainder after a string. */
  function Feed(n: bv32, s: seq<bv8>): bv32
    decreases |s|
  {
    if s == [] then n else Feed(Update(n, s[0]), s[1..])
  }

  /** The slow crc. */
  method SlowCrc(n: bv32, ch: bv8) returns (crc: bv32)
    ensures crc == Update(n, ch)
  {
    hide Turn, Swapped, Xor;
    crc := Xor(n, Swapped(ch as bv32));
    for i := 0 to 8
      invariant Turns(crc, 8 - i) == Update(n, ch)
    {
      crc := Turn(crc);
    }
  }

  // ----- the table -----

  /** What the table has for a byte: its remainder from zero, with the byte itself added. */
  function Entry(v: bv8): bv32 {
    Xor(Update(0, v), v as bv32)
  }

  ghost predicate IsTable(table: array<bv32>)
    reads table
  {
    table.Length == 256 && forall v: bv8 :: table[v as int] == Entry(v)
  }

  /** filltable */
  method FillTable() returns (table: array<bv32>)
    ensures fresh(table) && IsTable(table)
  {
    hide Entry;
    table := new bv32[256];
    for i := 0 to 256
      invariant forall v: bv8 :: (v as int) < i ==> table[v as int] == Entry(v)
    {
      table[i] := MakeEntry(i as bv8);
    }
  }

  method MakeEntry(v: bv8) returns (e: bv32)
    ensures e == Entry(v)
  {
    hide Update, Xor;
    var c := SlowCrc(0, v);
    e := Xor(c, v as bv32);
  }

  /** The fast crc: the same for a remainder of 16 bits. */
  method Crc(table: array<bv32>, n: bv32, ch: bv8) returns (crc: bv32)
    requires IsTable(table) && Short(n)
    ensures crc == Update(n, ch) && Short(crc)
  {
    hide Update, Xor, Swapped, Short, Entry;
    var x := Swapped(Xor(Swapped(ch as bv32), n));
    var i: bv8 := Low(x) as bv8;
    crc := Xor(x, table[i as int]);
    ByTable(n, ch, x, i);
    ShortKept(n, ch);
  }

  lemma ByTable(n: bv32, ch: bv8, x: bv32, i: bv8)
    requires Short(n) && x == Swapped(Xor(Swapped(ch as bv32), n)) && i as bv32 == Low(x)
    ensures Update(n, ch) == Xor(x, Entry(i))
  {
    hide Turns, Xor, Swapped, Short, Ups, Fits, Low, Pair;
    Index(n, ch as bv32, x, i as bv32);
    XorZero(Swapped(i as bv32));
    LowFits(n);
    Absorb(Xor(0, Swapped(i as bv32)), Low(n), 8);
    Cancels(Ups(Low(n), 8), i as bv32, Update(0, i));
  }

  /** j indexes the table, and the low byte of n moves up. */
  lemma Index(n: bv32, c: bv32, x: bv32, j: bv32)
    requires Short(n) && c < 0x100 && x == Swapped(Xor(Swapped(c), n)) && j == Low(x)
    ensures Xor(n, Swapped(c)) == Xor(Swapped(j), Low(n)) && x == Xor(Pair(Low(n), 0), j)
  {
    hide Xor, Swapped, Short, Low, High, Pair;
    var k := Xor(High(n), c);
    SwapByte(c);
    SwapSum(n, c);
    Joined(Low(n), k);
    SwapByte(k);
    UpSum(n, c);
    Bounds(n, c);
  }

  lemma Bounds(n: bv32, c: bv32)
    requires Short(n) && c < 0x100
    ensures Low(n) < 0x100 && Xor(High(n), c) < 0x100
  {
  }

  lemma SwapByte(c: bv32)
    ensures c < 0x100 ==> Swapped(c) == Pair(c, 0)
  {
  }

  lemma SwapSum(n: bv32, c: bv32)
    requires Short(n) && c < 0x100
    ensures Swapped(Xor(Pair(c, 0), n)) == Pair(Low(n), Xor(High(n), c))
  {
  }

  lemma Joined(lo: bv32, k: bv32)
    ensures lo < 0x100 && k < 0x100 ==> Low(Pair(lo, k)) == k && Pair(lo, k) == Xor(Pair(lo, 0), k)
  {
  }

  lemma UpSum(n: bv32, c: bv32)
    requires Short(n) && c < 0x100
    ensures Xor(n, Pair(c, 0)) == Xor(Pair(Xor(High(n), c), 0), Low(n))
  {
    hide Xor, Pair, High, Low;
    Split(n);
    PairXor(High(n), c);
    XorOrder(Pair(High(n), 0), Low(n), Pair(c, 0));
  }

  lemma Split(n: bv32)
    ensures n == Xor(Pair(High(n), 0), Low(n))
  {
  }

  lemma PairXor(x: bv32, y: bv32)
    ensures Pair(Xor(x, y), 0) == Xor(Pair(x, 0), Pair(y, 0))
  {
  }

  lemma LowUps(lo: bv32)
    requires lo < 0x100
    ensures Ups(lo, 8) == lo << 8 && Fits(lo, 8)
  {
    hide Up;
    UpShifts(lo);
    assert Ups(lo << 7, 1) == lo << 8 && Fits(lo << 7, 1);
    assert Ups(lo << 6, 2) == lo << 8 && Fits(lo << 6, 2);
    assert Ups(lo << 5, 3) == lo << 8 && Fits(lo << 5, 3);
    assert Ups(lo << 4, 4) == lo << 8 && Fits(lo << 4, 4);
    assert Ups(lo << 3, 5) == lo << 8 && Fits(lo << 3, 5);
    assert Ups(lo << 2, 6) == lo << 8 && Fits(lo << 2, 6);
    assert Ups(lo << 1, 7) == lo << 8 && Fits(lo << 1, 7);
  }

  lemma UpShifts(v: bv32)
    requires v < 0x100
    ensures Up(v) == v << 1 && Up(v << 1) == v << 2 && Up(v << 2) == v << 3 && Up(v << 3) == v << 4
    ensures Up(v << 4) == v << 5 && Up(v << 5) == v << 6 && Up(v << 6) == v << 7 && Up(v << 7) == v << 8
    ensures v << 1 < 0x8000 && v << 2 < 0x8000 && v << 3 < 0x8000 && v << 4 < 0x8000
    ensures v << 5 < 0x8000 && v << 6 < 0x8000 && v << 7 < 0x8000
  {
  }

  lemma LowFits(n: bv32)
    ensures Fits(Low(n), 8) && Ups(Low(n), 8) == Pair(Low(n), 0)
  {
    hide Fits, Ups;
    LowUps(Low(n));
  }

  lemma Cancels(u: bv32, i: bv32, c: bv32)
    ensures Xor(c, u) == Xor(Xor(u, i), Xor(c, i))
  {
    hide Xor;
    XorTwice(c, u);
    XorTwice(c, i);
    XorTwice(u, i);
    XorOrder(u, i, Xor(c, i));
    XorTwice(Xor(c, i), i);
    XorTwice(i, Xor(c, i));
  }

  /** v, n places up. */
  function Ups(v: bv32, n: nat): bv32
    decreases n
  {
    if n == 0 then v else Ups(Up(v), n - 1)
  }

  /** On its way no bit of v reaches the polynomial. */
  predicate Fits(v: bv32, n: nat)
    decreases n
  {
    n > 0 ==> v < 0x8000 && Fits(Up(v), n - 1)
  }

  lemma TurnXor(x: bv32, v: bv32)
    requires v < 0x8000
    ensures Turn(Xor(x, v)) == Xor(Turn(x), Up(v))
  {
    hide Xor, Up, Mask, Top;
    MaskXor(x, v);
    XorOrder(Mask(Up(x)), Up(v), POLYNOMIAL);
  }

  lemma MaskXor(x: bv32, v: bv32)
    requires v < 0x8000
    ensures Top(Xor(x, v)) == Top(x)
    ensures Mask(Up(Xor(x, v))) == Xor(Mask(Up(x)), Up(v)) && Up(Xor(x, v)) == Xor(Up(x), Up(v))
  {
    hide Xor, Up, Mask, Top;
    UpOf(x, v);
    MaskOf(Up(x), Up(v));
  }

  lemma UpOf(x: bv32, v: bv32)
    requires v < 0x8000
    ensures Up(Xor(x, v)) == Xor(Up(x), Up(v)) && Up(v) < 0x1_0000 && Top(Xor(x, v)) == Top(x)
  {
  }

  lemma MaskOf(x: bv32, v: bv32)
    requires v < 0x1_0000
    ensures Mask(Xor(x, v)) == Xor(Mask(x), v)
  {
  }

  /** Bits below the byte that is divided move up as they are. */
  lemma {:induction false} Absorb(x: bv32, v: bv32, n: nat)
    requires Fits(v, n)
    ensures Turns(Xor(x, v), n) == Xor(Turns(x, n), Ups(v, n))
    decreases n
  {
    hide Xor, Turn, Up;
    if n > 0 {
      TurnXor(x, v);
      Absorb(Turn(x), Up(v), n - 1);
    }
  }

  lemma ShortKept(n: bv32, ch: bv8)
    requires Short(n)
    ensures Short(Update(n, ch))
  {
    hide Turns, Short;
    ShortXor(n, ch);
    TurnsShort(Xor(n, Swapped(ch as bv32)), 8);
  }

  lemma ShortXor(n: bv32, ch: bv8)
    requires Short(n)
    ensures Short(Xor(n, Swapped(ch as bv32)))
  {
  }

  lemma {:induction false} TurnsShort(x: bv32, n: nat)
    requires Short(x)
    ensures Short(Turns(x, n))
    decreases n
  {
    hide Turn, Short;
    if n > 0 {
      TurnShort(x);
      TurnsShort(Turn(x), n - 1);
    }
  }

  lemma TurnShort(x: bv32)
    requires Short(x)
    ensures Short(Turn(x))
  {
  }

  // ----- strings -----

  /** >xmodem */
  method Xmodem(table: array<bv32>, s: seq<bv8>) returns (n: bv32)
    requires IsTable(table)
    ensures n == Feed(0, s)
  {
    hide Update;
    n := 0;
    for i := 0 to |s|
      invariant Short(n) && Feed(n, s[i..]) == Feed(0, s)
    {
      n := Crc(table, n, s[i]);
    }
  }

  /** rev8: the bits of a byte in reverse order, moved over one by one. */
  function Reversing(rest: bv8, done: bv8, n: nat): bv8
    decreases n
  {
    if n == 0 then done else Reversing(rest >> 1, (done << 1) | (rest & 1), n - 1)
  }

  function Rev8(b: bv8): bv8 {
    Reversing(b, 0, 8)
  }

  function Reversed(s: seq<bv8>): seq<bv8> {
    seq(|s|, i requires 0 <= i < |s| => Rev8(s[i]))
  }

  /** rev16, by the bytes of the low half. */
  function Rev16(n: bv32): bv32 {
    Pair(Rev8(Low(n) as bv8) as bv32, Rev8(Low(High(n)) as bv8) as bv32)
  }

  /** >x.25 from all bits high, and >crc-ccitt from all bits low. */
  method Reflected(table: array<bv32>, start: bv32, s: seq<bv8>) returns (n: bv32)
    requires IsTable(table) && Short(start)
    ensures n == Rev16(Feed(start, Reversed(s)))
  {
    hide Update, Rev16, Rev8;
    n := start;
    for i := 0 to |s|
      invariant Short(n) && Feed(n, Reversed(s)[i..]) == Feed(start, Reversed(s))
    {
      n := Crc(table, n, Rev8(s[i]));
    }
    n := Rev16(n);
  }

  // ----- the division from the other end -----

  const REFLECTED: bv32 := 0x8408

  /** The reflected division moves the remainder down. */
  function Fall(x: bv32): bv32 {
    if Low1(x) then Xor(Down(x), REFLECTED) else Down(x)
  }

  predicate Low1(x: bv32) {
    x & 1 == 1
  }

  function Down(x: bv32): bv32 {
    x >> 1
  }

  function Falls(x: bv32, n: nat): bv32
    decreases n
  {
    if n == 0 then x else Falls(Fall(x), n - 1)
  }

  /** The remainder of reflected division after a string. */
  function FeedReflected(n: bv32, s: seq<bv8>): bv32
    decreases |s|
  {
    if s == [] then n else FeedReflected(Falls(Xor(n, s[0] as bv32), 8), s[1..])
  }

  /** The 16 low bits in reverse order. */
  function Flip(x: bv32): bv32 {
    ((x & 1) << 15) | ((x & 2) << 13) | ((x & 4) << 11) | ((x & 8) << 9)
    | ((x & 0x10) << 7) | ((x & 0x20) << 5) | ((x & 0x40) << 3) | ((x & 0x80) << 1)
    | ((x & 0x100) >> 1) | ((x & 0x200) >> 3) | ((x & 0x400) >> 5) | ((x & 0x800) >> 7)
    | ((x & 0x1000) >> 9) | ((x & 0x2000) >> 11) | ((x & 0x4000) >> 13) | ((x & 0x8000) >> 15)
  }

  lemma FlipTurn(x: bv32)
    requires Short(x)
    ensures Flip(Turn(x)) == Fall(Flip(x))
  {
    hide Flip, Xor, Mask, Up, Top;
    FlipUp(x);
    FlipXor(Mask(Up(x)), POLYNOMIAL);
    FlipPolynomial();
    MaskShort(x);
  }

  lemma FlipUp(x: bv32)
    requires Short(x)
    ensures Flip(Mask(Up(x))) == Down(Flip(x)) && (Top(x) <==> Low1(Flip(x)))
  {
  }

  lemma FlipXor(x: bv32, y: bv32)
    ensures Flip(Xor(x, y)) == Xor(Flip(x), Flip(y))
  {
  }

  lemma FlipPolynomial()
    ensures Flip(POLYNOMIAL) == REFLECTED
  {
  }

  lemma MaskShort(x: bv32)
    requires Short(x)
    ensures !Top(x) ==> Mask(Up(x)) == Up(x)
  {
  }

  lemma Rev8Formula(b: bv8)
    ensures Rev8(b) == ((b & 1) << 7) | ((b & 2) << 5) | ((b & 4) << 3) | ((b & 8) << 1)
                       | ((b & 0x10) >> 1) | ((b & 0x20) >> 3) | ((b & 0x40) >> 5) | ((b & 0x80) >> 7)
  {
    var d1: bv8 := b & 1;
    var d2: bv8 := (d1 << 1) | ((b >> 1) & 1);
    var d3: bv8 := (d2 << 1) | ((b >> 2) & 1);
    var d4: bv8 := (d3 << 1) | ((b >> 3) & 1);
    assert Reversing(b, 0, 8) == Reversing(b >> 1, d1, 7);
    assert Reversing(b >> 1, d1, 7) == Reversing(b >> 2, d2, 6);
    assert Reversing(b >> 2, d2, 6) == Reversing(b >> 3, d3, 5);
    assert Reversing(b >> 3, d3, 5) == Reversing(b >> 4, d4, 4);
  }

  lemma {:induction false} FlipTurns(x: bv32, n: nat)
    requires Short(x)
    ensures Flip(Turns(x, n)) == Falls(Flip(x), n)
    decreases n
  {
    hide Flip, Turn, Fall, Short;
    if n > 0 {
      FlipTurn(x);
      TurnShort(x);
      FlipTurns(Turn(x), n - 1);
    }
  }

  lemma FlipByte(b: bv8)
    ensures Flip(Swapped(Rev8(b) as bv32)) == b as bv32
  {
    hide Rev8;
    Rev8Formula(b);
  }

  lemma Rev16Flip(n: bv32)
    requires Short(n)
    ensures Rev16(n) == Flip(n)
  {
    hide Rev8;
    Rev8Formula(Low(n) as bv8);
    Rev8Formula(Low(High(n)) as bv8);
  }

  lemma FlipUpdate(n: bv32, b: bv8)
    requires Short(n)
    ensures Short(Update(n, Rev8(b))) && Flip(Update(n, Rev8(b))) == Falls(Xor(Flip(n), b as bv32), 8)
  {
    hide Flip, Xor, Turns, Falls, Swapped, Rev8, Short;
    var v := Swapped(Rev8(b) as bv32);
    ShortXor(n, Rev8(b));
    ShortKept(n, Rev8(b));
    FlipTurns(Xor(n, v), 8);
    FlipXor(n, v);
    FlipByte(b);
  }

  /** >x.25 and >crc-ccitt give the remainder of the reflected division of the bytes as they are. */
  lemma ReflectedIs(n: bv32, s: seq<bv8>)
    requires Short(n)
    ensures Rev16(Feed(n, Reversed(s))) == FeedReflected(Flip(n), s)
  {
    hide Flip, Rev16, Update, Rev8, Short;
    FlipFeed(n, s);
    Rev16Flip(Feed(n, Reversed(s)));
  }

  lemma {:induction false} FlipFeed(n: bv32, s: seq<bv8>)
    requires Short(n)
    ensures Short(Feed(n, Reversed(s))) && Flip(Feed(n, Reversed(s))) == FeedReflected(Flip(n), s)
    decreases |s|
  {
    hide Flip, Falls, Update, Rev8, Short, Xor;
    if s != [] {
      FlipUpdate(n, s[0]);
      FlipFeed(Update(n, Rev8(s[0])), s[1..]);
      assert Reversed(s)[1..] == Reversed(s[1..]);
    }
  }

  lemma FlipEnds()
    ensures Flip(0xFFFF) == 0xFFFF && Flip(0) == 0
  {
  }

  lemma StartsShort()
    ensures Short(0xFFFF) && Short(0)
  {
  }

  /** >x.25: the reflected division from all bits high. */
  method X25(table: array<bv32>, s: seq<bv8>) returns (n: bv32)
    requires IsTable(table)
    ensures n == FeedReflected(0xFFFF, s)
  {
    hide Rev16, Short, Flip;
    StartsShort();
    n := Reflected(table, 0xFFFF, s);
    FlipEnds();
    ReflectedIs(0xFFFF, s);
  }

  /** >crc-ccitt: the reflected division from all bits low. */
  method CrcCcitt(table: array<bv32>, s: seq<bv8>) returns (n: bv32)
    requires IsTable(table)
    ensures n == FeedReflected(0, s)
  {
    hide Rev16, Short, Flip;
    StartsShort();
    n := Reflected(table, 0, s);
    FlipEnds();
    ReflectedIs(0, s);
  }

  // ----- the examples of the source -----

  /** The polynomial is x^16 + x^12 + x^5 + 1, and the reflected one has its coefficients in reverse order. */
  lemma Coefficients()
    ensures POLYNOMIAL == (1 << 12) | (1 << 5) | (1 << 0)
    ensures REFLECTED == (1 << (15 - 12)) | (1 << (15 - 5)) | (1 << (15 - 0))
  {
  }

  function UpdateReflected(n: bv32, b: bv8): bv32 {
    Falls(Xor(n, b as bv32), 8)
  }

  /** "An Arbitrary String" */
  const EXAMPLE: seq<bv8> := [65, 110, 32, 65, 114, 98, 105, 116, 114, 97, 114, 121, 32, 83, 116, 114, 105, 110, 103]

  /** The checks of the example by all three conventions. */
  lemma Examples()
    ensures Feed(0, EXAMPLE) == 0xDDFC
    ensures FeedReflected(0xFFFF, EXAMPLE) == 0x2364
    ensures FeedReflected(0, EXAMPLE) == 0xA5A9
  {
    XmodemExample();
    X25Example();
    CcittExample();
  }

  lemma XmodemExample()
    ensures Feed(0, EXAMPLE) == 0xDDFC
  {
    hide Update, Feed;
    XSteps0();
    XSteps1();
    XSteps2();
    XSteps3();
    FeedRun(EXAMPLE, 0, [0x58E5, 0xB395, 0x26DA, 0xC641, 0xA65F, 0xC6C8, 0x8C05, 0x6B17, 0x9418, 0xA7BA, 0x21D8,
                         0x3FD, 0xE901, 0x791, 0xDFF4, 0x9047, 0x3936, 0x1C12, 0xDDFC]);
  }

  lemma X25Example()
    ensures FeedReflected(0xFFFF, EXAMPLE) == 0x2364
  {
    hide UpdateReflected, FeedReflected;
    RSteps0();
    RSteps1();
    RSteps2();
    RSteps3();
    FeedReflectedRun(EXAMPLE, 0xFFFF, [0x5C0A, 0x257E, 0xBBDE, 0x6CC5, 0xC158, 0x9E18, 0x6290, 0xA148, 0x9E78, 0x8DDE,
                                       0x6FEB, 0xB7F4, 0x901E, 0x9971, 0x5734, 0x2765, 0xCA4B, 0x7665, 0x2364]);
  }

  lemma CcittExample()
    ensures FeedReflected(0, EXAMPLE) == 0xA5A9
  {
    hide UpdateReflected, FeedReflected;
    CSteps0();
    CSteps1();
    CSteps2();
    CSteps3();
    FeedReflectedRun(EXAMPLE, 0, [0x538D, 0xD5C6, 0x82ED, 0x6FE4, 0xF1D0, 0x9668, 0x111F, 0xDDC4, 0xD060, 0x1159,
                                  0x9FC0, 0x28D5, 0xA00A, 0xCFE4, 0x9446, 0x7733, 0xFDA8, 0xA3C7, 0xA5A9]);
  }

  /** A message fed byte by byte, with all the remainders on the way. */
  lemma {:induction false} FeedRun(s: seq<bv8>, n: bv32, run: seq<bv32>)
    requires |run| == |s| > 0 && Update(n, s[0]) == run[0]
    requires forall i | 0 < i < |s| :: Update(run[i - 1], s[i]) == run[i]
    ensures Feed(n, s) == run[|s| - 1]
    decreases |s|
  {
    hide Update;
    if |s| > 1 {
      FeedRun(s[1..], run[0], run[1..]);
    } else {
      assert s[1..] == [] && Feed(run[0], []) == run[0];
    }
  }

  lemma {:induction false} FeedReflectedRun(s: seq<bv8>, n: bv32, run: seq<bv32>)
    requires |run| == |s| > 0 && UpdateReflected(n, s[0]) == run[0]
    requires forall i | 0 < i < |s| :: UpdateReflected(run[i - 1], s[i]) == run[i]
    ensures FeedReflected(n, s) == run[|s| - 1]
    decreases |s|
  {
    hide Falls;
    if |s| > 1 {
      FeedReflectedRun(s[1..], run[0], run[1..]);
    } else {
      assert s[1..] == [] && FeedReflected(run[0], []) == run[0];
    }
  }

  lemma XSteps0()
    ensures Update(0x0, 65) == 0x58E5
    ensures Update(0x58E5, 110) == 0xB395
    ensures Update(0xB395, 32) == 0x26DA
    ensures Update(0x26DA, 65) == 0xC641
    ensures Update(0xC641, 114) == 0xA65F
  {
  }

  lemma XSteps1()
    ensures Update(0xA65F, 98) == 0xC6C8
    ensures Update(0xC6C8, 105) == 0x8C05
    ensures Update(0x8C05, 116) == 0x6B17
    ensures Update(0x6B17, 114) == 0x9418
    ensures Update(0x9418, 97) == 0xA7BA
  {
  }

  lemma XSteps2()
    ensures Update(0xA7BA, 114) == 0x21D8
    ensures Update(0x21D8, 121) == 0x3FD
    ensures Update(0x3FD, 32) == 0xE901
    ensures Update(0xE901, 83) == 0x791
    ensures Update(0x791, 116) == 0xDFF4
  {
  }

  lemma XSteps3()
    ensures Update(0xDFF4, 114) == 0x9047
    ensures Update(0x9047, 105) == 0x3936
    ensures Update(0x3936, 110) == 0x1C12
    ensures Update(0x1C12, 103) == 0xDDFC
  {
  }

  lemma RSteps0()
    ensures UpdateReflected(0xFFFF, 65) == 0x5C0A
    ensures UpdateReflected(0x5C0A, 110) == 0x257E
    ensures UpdateReflected(0x257E, 32) == 0xBBDE
    ensures UpdateReflected(0xBBDE, 65) == 0x6CC5
    ensures UpdateReflected(0x6CC5, 114) == 0xC158
  {
  }

  lemma RSteps1()
    ensures UpdateReflected(0xC158, 98) == 0x9E18
    ensures UpdateReflected(0x9E18, 105) == 0x6290
    ensures UpdateReflected(0x6290, 116) == 0xA148
    ensures UpdateReflected(0xA148, 114) == 0x9E78
    ensures UpdateReflected(0x9E78, 97) == 0x8DDE
  {
  }

  lemma RSteps2()
    ensures UpdateReflected(0x8DDE, 114) == 0x6FEB
    ensures UpdateReflected(0x6FEB, 121) == 0xB7F4
    ensures UpdateReflected(0xB7F4, 32) == 0x901E
    ensures UpdateReflected(0x901E, 83) == 0x9971
    ensures UpdateReflected(0x9971, 116) == 0x5734
  {
  }

  lemma RSteps3()
    ensures UpdateReflected(0x5734, 114) == 0x2765
    ensures UpdateReflected(0x2765, 105) == 0xCA4B
    ensures UpdateReflected(0xCA4B, 110) == 0x7665
    ensures UpdateReflected(0x7665, 103) == 0x2364
  {
  }

  lemma CSteps0()
    ensures UpdateReflected(0x0, 65) == 0x538D
    ensures UpdateReflected(0x538D, 110) == 0xD5C6
    ensures UpdateReflected(0xD5C6, 32) == 0x82ED
    ensures UpdateReflected(0x82ED, 65) == 0x6FE4
    ensures UpdateReflected(0x6FE4, 114) == 0xF1D0
  {
  }

  lemma CSteps1()
    ensures UpdateReflected(0xF1D0, 98) == 0x9668
    ensures UpdateReflected(0x9668, 105) == 0x111F
    ensures UpdateReflected(0x111F, 116) == 0xDDC4
    ensures UpdateReflected(0xDDC4, 114) == 0xD060
    ensures UpdateReflected(0xD060, 97) == 0x1159
  {
  }

  lemma CSteps2()
    ensures UpdateReflected(0x1159, 114) == 0x9FC0
    ensures UpdateReflected(0x9FC0, 121) == 0x28D5
    ensures UpdateReflected(0x28D5, 32) == 0xA00A
    ensures UpdateReflected(0xA00A, 83) == 0xCFE4
    ensures UpdateReflected(0xCFE4, 116) == 0x9446
  {
  }

  lemma CSteps3()
    ensures UpdateReflected(0x9446, 114) == 0x7733
    ensures UpdateReflected(0x7733, 105) == 0xFDA8
    ensures UpdateReflected(0xFDA8, 110) == 0xA3C7
    ensures UpdateReflected(0xA3C7, 103) == 0xA5A9
  {
  }
}
