/**
 * Extended characters in the byte form of RFC 2279, for every 32-bit value: storing,
 * fetching, sizes, and counting in strings.
 */
module XChars {
  import opened Bits
  import opened Sequences

  // ----- bits; these are hidden where only their laws are needed -----

  function LowByte(x: bv32): bv8 {
    (x & 0xFF) as bv8
  }

  function And(x: bv32, y: bv32): bv32 {
    x & y
  }

  function Or(x: bv32, y: bv32): bv32 {
    x | y
  }

  function Up6(x: bv32): bv32 {
    x << 6
  }

  function Down6(x: bv32): bv32 {
    x >> 6
  }

  function Up5(x: bv32): bv32 {
    x << 5
  }

  function Half(x: bv32): bv32 {
    x >> 1
  }

  /** The six low bits of a byte. */
  function Six(b: bv8): bv32 {
    (b as bv32) & 0x3F
  }

  // ----- storing -----

  /** A continuation byte with the six low bits of x. */
  function Continuation(x: bv32): bv8 {
    LowByte((x & 0x3F) | 0x80)
  }

  /** The first byte: as many ones as the mask has lost bits, and x. */
  function First(x: bv32, mask: bv32): bv8 {
    LowByte(((mask ^ 0x7F) << 1) | x)
  }

  /** XC!+ for a value that is not ASCII, which it takes apart from the right. */
  function Encoding(x: bv32, mask: bv32, tail: seq<bv8>): seq<bv8>
    decreases x
  {
    if x > mask then
      Smaller(x);
      Encoding(Down6(x), Half(mask), [Continuation(x)] + tail)
    else [First(x, mask)] + tail
  }

  lemma Smaller(x: bv32)
    ensures x > 0 ==> Down6(x) < x
  {
  }

  function Encode(x: bv32): seq<bv8> {
    if x < 0x80 then [LowByte(x)] else Encoding(x, 0x3F, [])
  }

  // ----- fetching -----

  /** XC@+ behind the first byte: while the bit of m is set, six more bits follow. */
  function Decoding(c: bv32, m: bv32, s: seq<bv8>): Option<(bv32, seq<bv8>)>
    decreases |s|
  {
    if And(c, m) == 0 then Some((c, s))
    else if s == [] then None
    else Decoding(Or(Up6(Xor(c, m)), Six(s[0])), Up5(m), s[1..])
  }

  /** The xchar at the start of s, and what follows it; nothing is said where s ends too early. */
  function Decode(s: seq<bv8>): Option<(bv32, seq<bv8>)> {
    if s == [] then None
    else if s[0] < 0x80 then Some((s[0] as bv32, s[1..]))
    else Decoding(And(s[0] as bv32, 0x7F), 0x40, s[1..])
  }

  // ----- sizes -----

  /** The first value that n bytes do not hold. */
  function Limit(n: nat): bv32
    requires 2 <= n <= 6
  {
    if n == 2 then 0x800 else Up5(Limit(n - 1))
  }

  /** XC-SIZE beyond ASCII: from two bytes up, until x is below the limit, or the limit has left the cell. */
  function SizeFrom(x: bv32, n: nat): nat
    requires 2 <= n <= 6
    decreases 7 - n
  {
    if x < Limit(n) then n
    else if Up5(Limit(n)) == 0 || n == 6 then n + 1
    else SizeFrom(x, n + 1)
  }

  function XcSize(x: bv32): nat {
    if x < 0x80 then 1 else SizeFrom(x, 2)
  }

  /** X-SIZE by the first byte; None is its abort. */
  function XSize(s: seq<bv8>): Option<nat> {
    if s == [] then Some(0)
    else if s[0] < 0x80 then Some(1)
    else if s[0] < 0xC0 then None
    else if s[0] < 0xE0 then Some(2)
    else if s[0] < 0xF0 then Some(3)
    else if s[0] < 0xF8 then Some(4)
    else if s[0] < 0xFC then Some(5)
    else if s[0] < 0xFE then Some(6)
    else None
  }

  // ----- the layout of section 2 of RFC 2279 -----

  /** The number of bytes; above the values of the standard there is one size more. */
  function Bytes(x: bv32): nat {
    if x < 0x80 then 1
    else if x < 0x800 then 2
    else if x < 0x1_0000 then 3
    else if x < 0x20_0000 then 4
    else if x < 0x400_0000 then 5
    else if x < 0x8000_0000 then 6
    else 7
  }

  /** The ones that a first byte begins with. */
  function Lead(n: nat): bv32 {
    if n == 1 then 0 else if n == 2 then 0xC0 else if n == 3 then 0xE0 else if n == 4 then 0xF0 else if n == 5 then 0xF8
    else if n == 6 then 0xFC else 0xFE
  }

  /** x without k groups of six bits. */
  function Sixes(x: bv32, k: nat): bv32 {
    if k == 0 then x else Down6(Sixes(x, k - 1))
  }

  /** The last k groups, each in a byte, from the left. */
  function Continuations(x: bv32, k: nat): (s: seq<bv8>)
    ensures |s| == k
  {
    if k == 0 then [] else [Continuation(Sixes(x, k - 1))] + Continuations(x, k - 1)
  }

  function Reference(x: bv32): seq<bv8> {
    var n := Bytes(x);
    [LowByte(Or(Lead(n), Sixes(x, n - 1)))] + Continuations(x, n - 1)
  }

  // ----- storing gives the layout -----

  function Mask(k: nat): bv32 {
    if k == 0 then 0x3F else Half(Mask(k - 1))
  }

  lemma Masks()
    ensures Mask(0) == 0x3F && Mask(1) == 0x1F && Mask(2) == 0xF && Mask(3) == 7 && Mask(4) == 3 && Mask(5) == 1
            && Mask(6) == 0
  {
    assert Mask(2) == 0xF;
    assert Mask(4) == 3;
  }

  lemma SixesAre(x: bv32)
    ensures Sixes(x, 0) == x && Sixes(x, 1) == x >> 6 && Sixes(x, 2) == x >> 12 && Sixes(x, 3) == x >> 18
    ensures Sixes(x, 4) == x >> 24 && Sixes(x, 5) == x >> 30 && Sixes(x, 6) == 0
  {
    assert Sixes(x, 1) == x >> 6;
    assert Sixes(x, 2) == x >> 12;
    assert Sixes(x, 3) == x >> 18;
    assert Sixes(x, 4) == x >> 24;
    assert Sixes(x, 5) == x >> 30;
  }

  /** The mask is exceeded exactly while there are more bytes. */
  lemma MaskTells(x: bv32, k: nat)
    requires x >= 0x80 && k <= 6
    ensures Sixes(x, k) > Mask(k) <==> k + 1 < Bytes(x)
  {
    hide Sixes, Mask;
    SixesAre(x);
    Masks();
  }

  lemma {:induction false} EncodingIs(x: bv32, k: nat)
    requires x >= 0x80 && k < Bytes(x)
    ensures var n := Bytes(x) - 1;
            Encoding(Sixes(x, k), Mask(k), Continuations(x, k)) == [First(Sixes(x, n), Mask(n))] + Continuations(x, n)
    decreases Bytes(x) - k
  {
    hide Continuation, First, Down6, Half, Bytes;
    AtMost7(x);
    MaskTells(x, k);
    if k + 1 < Bytes(x) { EncodingIs(x, k + 1); }
  }

  lemma AtMost7(x: bv32)
    ensures 1 <= Bytes(x) <= 7
  {
  }

  lemma FirstIs(x: bv32)
    requires x >= 0x80
    ensures var n := Bytes(x); First(Sixes(x, n - 1), Mask(n - 1)) == LowByte(Or(Lead(n), Sixes(x, n - 1)))
  {
    hide Sixes, Mask;
    Masks();
  }

  /** The bytes that the masks build from the right are the bytes of the layout. */
  lemma EncodeIsReference(x: bv32)
    ensures Encode(x) == Reference(x)
  {
    hide LowByte, Continuation, First, Or;
    if x >= 0x80 {
      EncodingIs(x, 0);
      FirstIs(x);
    } else {
      ShortIs(x);
    }
  }

  lemma ShortIs(x: bv32)
    ensures Or(0, x) == x
  {
  }

  // ----- fetching what was stored -----

  /** The marks z ask for k more bytes, at the places of m. */
  predicate Marks(z: bv32, m: bv32, k: nat)
    decreases k
  {
    if k == 0 then z == 0 else And(z, m) == m && m != 0 && Marks(Up6(Xor(z, m)), Up5(m), k - 1)
  }

  /** At none of these places is a bit of x in the way. */
  predicate Clear(x: bv32, m: bv32, k: nat)
    decreases k
  {
    And(Sixes(x, k), m) == 0 && (k > 0 ==> Clear(x, Up5(m), k - 1))
  }

  /** One more byte: the mark goes, and six more bits come. */
  lemma Round(z: bv32, m: bv32, x: bv32)
    requires And(z, m) == m && And(Down6(x), m) == 0
    ensures Or(Up6(Xor(Or(z, Down6(x)), m)), Six(Continuation(x))) == Or(Up6(Xor(z, m)), x)
    ensures And(Or(z, Down6(x)), m) == m
  {
    hide And, Or, Xor, Up6, Down6, Six, Continuation;
    Unmark(z, m, Down6(x));
    Together(Xor(z, m), x);
  }

  lemma Unmark(z: bv32, m: bv32, y: bv32)
    requires And(z, m) == m && And(y, m) == 0
    ensures Xor(Or(z, y), m) == Or(Xor(z, m), y) && And(Or(z, y), m) == m
  {
  }

  lemma Together(z: bv32, x: bv32)
    ensures Or(Up6(Or(z, Down6(x))), Six(Continuation(x))) == Or(Up6(z), x)
  {
    hide Or, Up6, Down6, Six, Continuation;
    SixBits(x);
    UpOr(z, Down6(x));
    Rejoined(x);
    OrOrder(Up6(z), Up6(Down6(x)), Low6(x));
  }

  function Low6(x: bv32): bv32 {
    x & 0x3F
  }

  lemma SixBits(x: bv32)
    ensures Six(Continuation(x)) == Low6(x)
  {
  }

  lemma UpOr(x: bv32, y: bv32)
    ensures Up6(Or(x, y)) == Or(Up6(x), Up6(y))
  {
  }

  lemma Rejoined(x: bv32)
    ensures Or(Up6(Down6(x)), Low6(x)) == x
  {
  }

  lemma OrOrder(x: bv32, y: bv32, z: bv32)
    ensures Or(Or(x, y), z) == Or(x, Or(y, z))
  {
  }

  lemma {:induction false} Fetch(x: bv32, z: bv32, m: bv32, k: nat, rest: seq<bv8>)
    requires Marks(z, m, k) && Clear(x, m, k)
    ensures Decoding(Or(z, Sixes(x, k)), m, Continuations(x, k) + rest) == Some((x, rest))
    decreases k
  {
    hide And, Or, Xor, Up6, Down6, Up5, Six, Continuation;
    if k == 0 {
      ShortIs(x);
      assert [] + rest == rest;
    } else {
      var y := Sixes(x, k - 1);
      Round(z, m, y);
      Fetch(x, Up6(Xor(z, m)), Up5(m), k - 1, rest);
      var s := Continuations(x, k) + rest;
      assert s[0] == Continuation(y) && s[1..] == Continuations(x, k - 1) + rest;
    }
  }

  /** The first byte has a mark for each other byte. */
  lemma LeadMarks()
    ensures Marks(0x40, 0x40, 1) && Marks(0x60, 0x40, 2) && Marks(0x70, 0x40, 3)
    ensures Marks(0x78, 0x40, 4) && Marks(0x7C, 0x40, 5) && Marks(0x7E, 0x40, 6)
  {
    assert Marks(0x8000_0000, 0x8000_0000, 1) && Marks(0x400_0000, 0x400_0000, 1) && Marks(0x20_0000, 0x20_0000, 1);
    assert Marks(0x1_0000, 0x1_0000, 1) && Marks(0x800, 0x800, 1);
    assert Marks(0x600_0000, 0x400_0000, 2) && Marks(0x30_0000, 0x20_0000, 2) && Marks(0x1_8000, 0x1_0000, 2)
      && Marks(0xC00, 0x800, 2);
    assert Marks(0x38_0000, 0x20_0000, 3) && Marks(0x1_C000, 0x1_0000, 3) && Marks(0xE00, 0x800, 3);
    assert Marks(0x1_E000, 0x1_0000, 4) && Marks(0xF00, 0x800, 4);
    assert Marks(0xF80, 0x800, 5);
  }

  function Place(j: nat): bv32 {
    if j == 0 then 0x40 else Up5(Place(j - 1))
  }

  lemma Places()
    ensures Place(0) == 0x40 && Place(1) == 0x800 && Place(2) == 0x1_0000 && Place(3) == 0x20_0000
    ensures Place(4) == 0x400_0000 && Place(5) == 0x8000_0000 && Place(6) == 0
  {
    assert Place(1) == 0x800;
    assert Place(2) == 0x1_0000;
    assert Place(3) == 0x20_0000;
    assert Place(4) == 0x400_0000;
    assert Place(5) == 0x8000_0000;
  }

  /** A value below the limit of its size is clear of the marks. */
  lemma PlaceClear(x: bv32, j: nat)
    requires x >= 0x80 && j < Bytes(x)
    ensures And(Sixes(x, Bytes(x) - 1 - j), Place(j)) == 0
  {
    hide Sixes, Place;
    SixesAre(x);
    Places();
  }

  lemma {:induction false} LeadClear(x: bv32, j: nat)
    requires x >= 0x80 && j < Bytes(x)
    ensures Clear(x, Place(j), Bytes(x) - 1 - j)
    decreases Bytes(x) - j
  {
    hide And, Up5, Bytes, Sixes;
    PlaceClear(x, j);
    if j + 1 < Bytes(x) { LeadClear(x, j + 1); }
  }

  lemma LeadIs(x: bv32)
    requires x >= 0x80
    ensures var n := Bytes(x);
            var b := LowByte(Or(Lead(n), Sixes(x, n - 1)));
            b >= 0x80 && And(b as bv32, 0x7F) == Or(And(Lead(n), 0x7F), Sixes(x, n - 1))
  {
    hide Sixes;
    SixesAre(x);
  }

  lemma Leads()
    ensures And(Lead(2), 0x7F) == 0x40 && And(Lead(3), 0x7F) == 0x60 && And(Lead(4), 0x7F) == 0x70
    ensures And(Lead(5), 0x7F) == 0x78 && And(Lead(6), 0x7F) == 0x7C && And(Lead(7), 0x7F) == 0x7E
  {
  }

  lemma MarksOf(x: bv32)
    requires x >= 0x80
    ensures Marks(And(Lead(Bytes(x)), 0x7F), 0x40, Bytes(x) - 1)
  {
    hide Marks, And, Lead;
    Leads();
    LeadMarks();
  }

  /** XC@+ undoes XC!+ for every cell, whatever follows. */
  lemma RoundTrip(x: bv32, rest: seq<bv8>)
    ensures Decode(Encode(x) + rest) == Some((x, rest))
  {
    hide LowByte, And, Or, Lead, Sixes, Continuations, Marks, Clear, Bytes;
    EncodeIsReference(x);
    var n := Bytes(x);
    AtMost7(x);
    var b := LowByte(Or(Lead(n), Sixes(x, n - 1)));
    var s := Encode(x) + rest;
    if x >= 0x80 {
      MoreBytes(x);
      LeadIs(x);
      MarksOf(x);
      LeadClear(x, 0);
      Places();
      assert s[0] == b && s[1..] == Continuations(x, n - 1) + rest;
      Fetch(x, And(Lead(n), 0x7F), 0x40, n - 1, rest);
    } else {
      ShortByte(x);
      assert Encode(x) == [LowByte(x)];
      assert s[0] == LowByte(x) && s[1..] == rest;
    }
  }

  lemma MoreBytes(x: bv32)
    ensures Bytes(x) >= 2 <==> x >= 0x80
  {
  }

  lemma ShortByte(x: bv32)
    requires x < 0x80
    ensures LowByte(x) < 0x80 && LowByte(x) as bv32 == x
  {
  }

  // ----- sizes agree -----

  /** XC-SIZE is the number of bytes that XC!+ writes. */
  lemma SizeWritten(x: bv32)
    ensures |Encode(x)| == XcSize(x) == Bytes(x)
  {
    hide Limit, Encode, Continuation;
    EncodeIsReference(x);
    AtMost7(x);
    Limits();
    SizeSteps(x);
  }

  lemma Limits()
    ensures Limit(2) == 0x800 && Limit(3) == 0x1_0000 && Limit(4) == 0x20_0000 && Limit(5) == 0x400_0000
            && Limit(6) == 0x8000_0000
    ensures Up5(0x800) != 0 && Up5(0x1_0000) != 0 && Up5(0x20_0000) != 0 && Up5(0x400_0000) != 0
  {
    assert Limit(3) == 0x1_0000;
    assert Limit(4) == 0x20_0000;
    assert Limit(5) == 0x400_0000;
  }

  lemma SizeSteps(x: bv32)
    requires x >= 0x80 ==>
               && Limit(2) == 0x800 && Limit(3) == 0x1_0000 && Limit(4) == 0x20_0000
               && Limit(5) == 0x400_0000 && Limit(6) == 0x8000_0000
    requires Up5(0x800) != 0 && Up5(0x1_0000) != 0 && Up5(0x20_0000) != 0 && Up5(0x400_0000) != 0
    ensures XcSize(x) == Bytes(x)
  {
    hide Limit, Up5;
    if x >= 0x800 {
      assert SizeFrom(x, 2) == SizeFrom(x, 3);
      if x >= 0x1_0000 {
        assert SizeFrom(x, 3) == SizeFrom(x, 4);
        if x >= 0x20_0000 {
          assert SizeFrom(x, 4) == SizeFrom(x, 5);
          if x >= 0x400_0000 { assert SizeFrom(x, 5) == SizeFrom(x, 6); }
        }
      }
    }
  }

  /** X-SIZE of what is stored is XC-SIZE below 2^31, and aborts above. */
  lemma XSizeAgrees(x: bv32, rest: seq<bv8>)
    ensures XSize(Encode(x) + rest) == if x < 0x8000_0000 then Some(XcSize(x)) else None
  {
    hide LowByte, Or, Lead, Sixes, Continuations, Bytes, Limit, Encode;
    EncodeIsReference(x);
    SizeWritten(x);
    AtMost7(x);
    var n := Bytes(x);
    LeadSize(x);
    assert (Encode(x) + rest)[0] == LowByte(Or(Lead(n), Sixes(x, n - 1)));
  }

  lemma LeadSize(x: bv32)
    ensures var n := Bytes(x); var b := LowByte(Or(Lead(n), Sixes(x, n - 1)));
            XSize([b]) == if x < 0x8000_0000 then Some(n) else None
  {
    hide Sixes;
    SixesAre(x);
  }

  // ----- examples and single bytes -----

  /** An example of section 4 of RFC 2279, and the first and last values of some sizes. */
  lemma Examples()
    ensures Encode(0x41) == [0x41] && Encode(0x2262) == [0xE2, 0x89, 0xA2] && Encode(0x391) == [0xCE, 0x91]
    ensures Encode(0x80) == [0xC2, 0x80] && Encode(0x1_0000) == [0xF0, 0x90, 0x80, 0x80]
    ensures Encode(0x7FFF_FFFF) == [0xFD, 0xBF, 0xBF, 0xBF, 0xBF, 0xBF]
    ensures Encode(0x8000_0000) == [0xFE, 0x82, 0x80, 0x80, 0x80, 0x80, 0x80]
  {
    hide Encode;
    EncodeIsReference(0x41);
    EncodeIsReference(0x2262);
    EncodeIsReference(0x391);
    EncodeIsReference(0x80);
    EncodeIsReference(0x1_0000);
    EncodeIsReference(0x7FFF_FFFF);
    EncodeIsReference(0x8000_0000);
    ReferenceExamples();
  }

  lemma ReferenceExamples()
    ensures Reference(0x41) == [0x41] && Reference(0x2262) == [0xE2, 0x89, 0xA2] && Reference(0x391) == [0xCE, 0x91]
    ensures Reference(0x80) == [0xC2, 0x80] && Reference(0x1_0000) == [0xF0, 0x90, 0x80, 0x80]
    ensures Reference(0x7FFF_FFFF) == [0xFD, 0xBF, 0xBF, 0xBF, 0xBF, 0xBF]
    ensures Reference(0x8000_0000) == [0xFE, 0x82, 0x80, 0x80, 0x80, 0x80, 0x80]
  {
  }

  /** X-SIZE tells by the ones that the first byte begins with. */
  lemma XSizeTells(s: seq<bv8>)
    ensures s == [] ==> XSize(s) == Some(0)
    ensures s != [] ==>
              var b := s[0];
              XSize(s) ==
              if b & 0x80 == 0 then Some(1)
              else if b & 0xE0 == 0xC0 then Some(2)
              else if b & 0xF0 == 0xE0 then Some(3)
              else if b & 0xF8 == 0xF0 then Some(4)
              else if b & 0xFC == 0xF8 then Some(5)
              else if b & 0xFE == 0xFC then Some(6)
              else None
  {
  }
}
