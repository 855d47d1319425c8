/**
 * Base64 lines: three bytes as four characters, the marks at the end of a line, and
 * decoding, which goes on reading behind the line but keeps nothing of that.
 */
module Base64 {
  import opened Sequences

  const EQUALS: bv8 := 61

  /** The alphabet, with the mark as its last character. */
  function Alphabet(v: bv32): bv8 {
    if v < 26 then 65 + LowByte(v)
    else if v < 52 then 71 + LowByte(v)
    else if v < 62 then LowByte(v) - 4
    else if v == 62 then 43
    else if v == 63 then 47
    else EQUALS
  }

  function Characters(s: seq<bv8>): string {
    seq(|s|, i requires 0 <= i < |s| => (s[i] as int) as char)
  }

  /** The alphabet is that of section 5.2 of RFC 1521, and the mark. */
  lemma AlphabetIs()
    ensures Characters([Alphabet(0), Alphabet(1), Alphabet(2), Alphabet(3), Alphabet(4), Alphabet(5), Alphabet(6),
                        Alphabet(7), Alphabet(8), Alphabet(9), Alphabet(10), Alphabet(11), Alphabet(12)])
            == "ABCDEFGHIJKLM"
    ensures Characters([Alphabet(13), Alphabet(14), Alphabet(15), Alphabet(16), Alphabet(17), Alphabet(18),
                        Alphabet(19), Alphabet(20), Alphabet(21), Alphabet(22), Alphabet(23), Alphabet(24),
                        Alphabet(25)])
            == "NOPQRSTUVWXYZ"
    ensures Characters([Alphabet(26), Alphabet(27), Alphabet(28), Alphabet(29), Alphabet(30), Alphabet(31),
                        Alphabet(32), Alphabet(33), Alphabet(34), Alphabet(35), Alphabet(36), Alphabet(37),
                        Alphabet(38)])
            == "abcdefghijklm"
    ensures Characters([Alphabet(39), Alphabet(40), Alphabet(41), Alphabet(42), Alphabet(43), Alphabet(44),
                        Alphabet(45), Alphabet(46), Alphabet(47), Alphabet(48), Alphabet(49), Alphabet(50),
                        Alphabet(51)])
            == "nopqrstuvwxyz"
    ensures Characters([Alphabet(52), Alphabet(53), Alphabet(54), Alphabet(55), Alphabet(56), Alphabet(57),
                        Alphabet(58), Alphabet(59), Alphabet(60), Alphabet(61)])
            == "0123456789"
    ensures Characters([Alphabet(62), Alphabet(63), Alphabet(64)])
            == "+/="
  {
    Alphabet0();
    Alphabet1();
    Alphabet2();
    Alphabet3();
    Alphabet4();
    Alphabet5();
  }

  lemma Alphabet0()
    ensures Characters([Alphabet(0), Alphabet(1), Alphabet(2), Alphabet(3), Alphabet(4), Alphabet(5), Alphabet(6),
                        Alphabet(7), Alphabet(8), Alphabet(9), Alphabet(10), Alphabet(11), Alphabet(12)])
            == "ABCDEFGHIJKLM"
  {
    assert Alphabet(0) == 65 && Alphabet(1) == 66 && Alphabet(2) == 67 && Alphabet(3) == 68 && Alphabet(4) == 69
      && Alphabet(5) == 70 && Alphabet(6) == 71 && Alphabet(7) == 72 && Alphabet(8) == 73 && Alphabet(9) == 74
      && Alphabet(10) == 75 && Alphabet(11) == 76 && Alphabet(12) == 77;
  }

  lemma Alphabet1()
    ensures Characters([Alphabet(13), Alphabet(14), Alphabet(15), Alphabet(16), Alphabet(17), Alphabet(18),
                        Alphabet(19), Alphabet(20), Alphabet(21), Alphabet(22), Alphabet(23), Alphabet(24),
                        Alphabet(25)])
            == "NOPQRSTUVWXYZ"
  {
    assert Alphabet(13) == 78 && Alphabet(14) == 79 && Alphabet(15) == 80 && Alphabet(16) == 81 && Alphabet(17) == 82
      && Alphabet(18) == 83 && Alphabet(19) == 84 && Alphabet(20) == 85 && Alphabet(21) == 86 && Alphabet(22) == 87
      && Alphabet(23) == 88 && Alphabet(24) == 89 && Alphabet(25) == 90;
  }

  lemma Alphabet2()
    ensures Characters([Alphabet(26), Alphabet(27), Alphabet(28), Alphabet(29), Alphabet(30), Alphabet(31),
                        Alphabet(32), Alphabet(33), Alphabet(34), Alphabet(35), Alphabet(36), Alphabet(37),
                        Alphabet(38)])
            == "abcdefghijklm"
  {
    assert Alphabet(26) == 97 && Alphabet(27) == 98 && Alphabet(28) == 99 && Alphabet(29) == 100
      && Alphabet(30) == 101 && Alphabet(31) == 102 && Alphabet(32) == 103 && Alphabet(33) == 104
      && Alphabet(34) == 105 && Alphabet(35) == 106 && Alphabet(36) == 107 && Alphabet(37) == 108
      && Alphabet(38) == 109;
  }

  lemma Alphabet3()
    ensures Characters([Alphabet(39), Alphabet(40), Alphabet(41), Alphabet(42), Alphabet(43), Alphabet(44),
                        Alphabet(45), Alphabet(46), Alphabet(47), Alphabet(48), Alphabet(49), Alphabet(50),
                        Alphabet(51)])
            == "nopqrstuvwxyz"
  {
    assert Alphabet(39) == 110 && Alphabet(40) == 111 && Alphabet(41) == 112 && Alphabet(42) == 113
      && Alphabet(43) == 114 && Alphabet(44) == 115 && Alphabet(45) == 116 && Alphabet(46) == 117
      && Alphabet(47) == 118 && Alphabet(48) == 119 && Alphabet(49) == 120 && Alphabet(50) == 121
      && Alphabet(51) == 122;
  }

  lemma Alphabet4()
    ensures Characters([Alphabet(52), Alphabet(53), Alphabet(54), Alphabet(55), Alphabet(56), Alphabet(57),
                        Alphabet(58), Alphabet(59), Alphabet(60), Alphabet(61)])
            == "0123456789"
  {
    assert Alphabet(52) == 48 && Alphabet(53) == 49 && Alphabet(54) == 50 && Alphabet(55) == 51 && Alphabet(56) == 52
      && Alphabet(57) == 53 && Alphabet(58) == 54 && Alphabet(59) == 55 && Alphabet(60) == 56 && Alphabet(61) == 57;
  }

  lemma Alphabet5()
    ensures Characters([Alphabet(62), Alphabet(63), Alphabet(64)])
            == "+/="
  {
    assert Alphabet(62) == 43 && Alphabet(63) == 47 && Alphabet(64) == 61;
  }

  /** Any other character has the value 65. */
  lemma OtherValue(c: bv8)
    ensures Value(c) <= 65 && (Value(c) <= 64 ==> Alphabet(Value(c)) == c)
  {
  }

  function LowByte(x: bv32): bv8 {
    (x & 0xFF) as bv8
  }

  /** Ascii-to-Bin: the place of a character in the alphabet, and 65 for any other. */
  function Value(c: bv8): bv32 {
    if 65 <= c <= 90 then (c as bv32) - 65
    else if 97 <= c <= 122 then (c as bv32) - 71
    else if 48 <= c <= 57 then (c as bv32) + 4
    else if c == 43 then 62
    else if c == 47 then 63
    else if c == EQUALS then 64
    else 65
  }

  lemma ValueOfAlphabet(v: bv32)
    requires v < 64
    ensures Value(Alphabet(v)) == v && Alphabet(v) != EQUALS
  {
  }

  lemma ValueSmall(c: bv8)
    ensures Value(c) < 128
  {
  }

  // ----- groups -----

  /** Six bits of three bytes, as 3Bin-to-4Ascii takes them. */
  function Sextet(a: bv8, b: bv8, c: bv8, i: nat): bv32
    requires i < 4
  {
    var x := ((a as bv32) << 16) | ((b as bv32) << 8) | (c as bv32);
    if i == 0 then (x >> 18) & 63 else if i == 1 then (x >> 12) & 63 else if i == 2 then (x >> 6) & 63 else x & 63
  }

  /** The four are the six high bits of the first byte, and so on through all three. */
  lemma SextetsAre(a: bv8, b: bv8, c: bv8)
    ensures Sextet(a, b, c, 0) == (a >> 2) as bv32
    ensures Sextet(a, b, c, 1) == (((a & 3) << 4) | (b >> 4)) as bv32
    ensures Sextet(a, b, c, 2) == (((b & 15) << 2) | (c >> 6)) as bv32
    ensures Sextet(a, b, c, 3) == (c & 63) as bv32
  {
  }

  function Four(a: bv8, b: bv8, c: bv8): (s: seq<bv8>)
    ensures |s| == 4
  {
    [Alphabet(Sextet(a, b, c, 0)), Alphabet(Sextet(a, b, c, 1)), Alphabet(Sextet(a, b, c, 2)),
     Alphabet(Sextet(a, b, c, 3))]
  }

  /** Four values, each moved to its place and joined by OR, and a byte of the result. */
  function Octet(p: bv32, q: bv32, r: bv32, s: bv32, i: nat): bv8
    requires i < 3
  {
    var x := (p << 18) | (q << 12) | (r << 6) | s;
    LowByte(if i == 0 then x >> 16 else if i == 1 then x >> 8 else x)
  }

  function Three(p: bv8, q: bv8, r: bv8, s: bv8): (t: seq<bv8>)
    ensures |t| == 3
  {
    var (v0, v1, v2, v3) := (Value(p), Value(q), Value(r), Value(s));
    [Octet(v0, v1, v2, v3, 0), Octet(v0, v1, v2, v3, 1), Octet(v0, v1, v2, v3, 2)]
  }

  lemma SextetSmall(a: bv8, b: bv8, c: bv8, i: nat)
    requires i < 4
    ensures Sextet(a, b, c, i) < 64
  {
  }

  /** The sextets give the bytes back; the first byte does not need the last two, nor the second the last. */
  lemma OctetsBack(a: bv8, b: bv8, c: bv8, r: bv32, s: bv32)
    requires r < 128 && s < 128
    ensures Octet(Sextet(a, b, c, 0), Sextet(a, b, c, 1), r, s, 0) == a
    ensures Octet(Sextet(a, b, c, 0), Sextet(a, b, c, 1), Sextet(a, b, c, 2), s, 1) == b
    ensures Octet(Sextet(a, b, c, 0), Sextet(a, b, c, 1), Sextet(a, b, c, 2), Sextet(a, b, c, 3), 2) == c
  {
  }

  // ----- lines -----

  /** A byte of a line, or a nul byte behind it. */
  function At(s: seq<bv8>, i: nat): bv8 {
    if i < |s| then s[i] else 0
  }

  function Drop3(s: seq<bv8>): seq<bv8> {
    if |s| <= 3 then [] else s[3..]
  }

  /** How often DO ... 3 +LOOP goes over a line. */
  function Rounds(len: nat): nat {
    (len + 2) / 3
  }

  /** 3Bin-to-4Ascii */
  function EncodeGroups(s: seq<bv8>): (t: seq<bv8>)
    ensures |t| == 4 * Rounds(|s|)
    decreases |s|
  {
    if s == [] then [] else Four(s[0], At(s, 1), At(s, 2)) + EncodeGroups(Drop3(s))
  }

  /** Write-Ascii-Line: the last characters of a line whose length is no multiple of three are marks. */
  function Marked(t: seq<bv8>, len: nat): seq<bv8>
    requires len % 3 != 0 ==> |t| >= 2
  {
    if len % 3 == 1 then t[..|t| - 2] + [EQUALS, EQUALS]
    else if len % 3 == 2 then t[..|t| - 1] + [EQUALS]
    else t
  }

  function Encode(s: seq<bv8>): (t: seq<bv8>)
    ensures |t| == 4 * Rounds(|s|)
  {
    Marked(EncodeGroups(s), |s|)
  }

  /** 4Ascii-to-3Bin, n times. */
  function DecodeGroups(t: seq<bv8>, n: nat): (s: seq<bv8>)
    requires 4 * n <= |t|
    ensures |s| == 3 * n
    decreases n
  {
    if n == 0 then [] else Three(t[0], t[1], t[2], t[3]) + DecodeGroups(t[4..], n - 1)
  }

  /** Save-Ascii-Line-Length: without one or two marks at the end. */
  function Span(line: seq<bv8>): (n: nat)
    ensures n <= |line|
  {
    var n := if line != [] && line[|line| - 1] == EQUALS then |line| - 1 else |line|;
    if n > 0 && line[n - 1] == EQUALS then n - 1 else n
  }

  /** What Save-Ascii-Line-Length saves of a line behind some byte: of a single mark, 0 or -1. */
  function SavedLength(before: bv8, line: seq<bv8>): int
    requires line != []
  {
    var n := if line[|line| - 1] == EQUALS then |line| - 1 else |line|;
    if (if n == 0 then before else line[n - 1]) == EQUALS then n - 1 else n
  }

  /** 3 4 star-slash, which truncates. */
  function ThreeQuarters(n: int): int {
    if n < 0 then -(-n * 3 / 4) else n * 3 / 4
  }

  /** The byte in front of a line does not matter for how many bytes are written. */
  lemma SpanBytes(before: bv8, line: seq<bv8>)
    requires line != []
    ensures ThreeQuarters(SavedLength(before, line)) == Span(line) * 3 / 4 <= 3 * Rounds(|line|)
  {
    if SavedLength(before, line) == -1 { assert Span(line) == 0; }
  }

  /**
   * Decode-a-Line of a line with other bytes behind it in memory; the loop takes steps of three over the
   * characters.
   */
  function Decode(line: seq<bv8>, beyond: seq<bv8>): seq<bv8>
    requires |line| + |beyond| >= 4 * Rounds(|line|)
  {
    DecodeGroups(line + beyond, Rounds(|line|))[..Span(line) * 3 / 4]
  }

  // ----- decoding what was encoded -----

  /** A longer line is encoded by its first three bytes and by the rest. */
  lemma EncodeStep(s: seq<bv8>)
    requires |s| > 3
    ensures Encode(s) == Four(s[0], s[1], s[2]) + Encode(s[3..])
  {
    hide Four, EncodeGroups, Marked;
    EncodeGroupsStep(s);
    MarkedStep(Four(s[0], s[1], s[2]), EncodeGroups(s[3..]), |s|);
  }

  lemma EncodeGroupsStep(s: seq<bv8>)
    requires |s| > 3
    ensures EncodeGroups(s) == Four(s[0], s[1], s[2]) + EncodeGroups(s[3..])
  {
    hide Four;
  }

  lemma MarkedStep(f: seq<bv8>, t: seq<bv8>, len: nat)
    requires |t| >= 4 && len > 3
    ensures Marked(f + t, len) == f + Marked(t, len - 3)
  {
    assert len % 3 == (len - 3) % 3;
    assert (f + t)[..|f + t| - 2] == f + t[..|t| - 2];
    assert (f + t)[..|f + t| - 1] == f + t[..|t| - 1];
  }

  /** What a group becomes when some of its characters are marks. */
  lemma GroupBack(a: bv8, b: bv8, c: bv8, t: seq<bv8>)
    requires |t| == 4 && t[..2] == Four(a, b, c)[..2]
    ensures var r := Three(t[0], t[1], t[2], t[3]);
            && r[0] == a && (t[2] == Four(a, b, c)[2] ==> r[1] == b) && (t == Four(a, b, c) ==> r == [a, b, c])
  {
    hide Sextet, Octet, Alphabet, Value;
    var f := Four(a, b, c);
    assert t[0] == t[..2][0] == f[..2][0] && t[1] == t[..2][1] == f[..2][1];
    SextetSmall(a, b, c, 0);
    SextetSmall(a, b, c, 1);
    SextetSmall(a, b, c, 2);
    SextetSmall(a, b, c, 3);
    ValueOfAlphabet(Sextet(a, b, c, 0));
    ValueOfAlphabet(Sextet(a, b, c, 1));
    ValueOfAlphabet(Sextet(a, b, c, 2));
    ValueOfAlphabet(Sextet(a, b, c, 3));
    ValueSmall(t[2]);
    ValueSmall(t[3]);
    OctetsBack(a, b, c, Value(t[2]), Value(t[3]));
  }

  /** The groups of an encoded line give its bytes, and for each mark one byte more. */
  lemma {:induction false} GroupsBack(s: seq<bv8>, beyond: seq<bv8>, n: nat)
    requires s != [] && n >= Rounds(|s|) && |Encode(s)| + |beyond| >= 4 * n
    ensures |s| <= 3 * n && DecodeGroups(Encode(s) + beyond, n)[..|s|] == s
    decreases |s|
  {
    hide Four, Three, Encode, DecodeGroups;
    var t := Encode(s) + beyond;
    if |s| <= 3 {
      assert t[..4] == Encode(s);
      LastGroup(s, t, n);
    } else {
      EncodeStep(s);
      GroupsBack(s[3..], beyond, n - 1);
      NextGroup(s, Encode(s[3..]) + beyond, t, n);
    }
  }

  lemma NextGroup(s: seq<bv8>, u: seq<bv8>, t: seq<bv8>, n: nat)
    requires |s| > 3 && n >= 1 && |u| >= 4 * (n - 1) && |s| <= 3 * n && t == Four(s[0], s[1], s[2]) + u
    requires DecodeGroups(u, n - 1)[..|s| - 3] == s[3..]
    ensures DecodeGroups(t, n)[..|s|] == s
  {
    hide Four, Three;
    var f := Four(s[0], s[1], s[2]);
    GroupBack(s[0], s[1], s[2], f);
    assert t[4..] == u && t[0] == f[0] && t[1] == f[1] && t[2] == f[2] && t[3] == f[3];
    assert DecodeGroups(t, n) == [s[0], s[1], s[2]] + DecodeGroups(u, n - 1);
    assert s == [s[0], s[1], s[2]] + s[3..];
  }

  lemma LastGroup(s: seq<bv8>, t: seq<bv8>, n: nat)
    requires 1 <= |s| <= 3 && n >= 1 && |t| >= 4 * n && t[..4] == Encode(s)
    ensures DecodeGroups(t, n)[..|s|] == s
  {
    hide Four, Three;
    var f := Four(s[0], At(s, 1), At(s, 2));
    var g := t[..4];
    assert EncodeGroups(Drop3(s)) == [] && EncodeGroups(s) == f + [] == f;
    assert g == Marked(f, |s|);
    assert g[..2] == f[..2];
    assert |s| >= 2 ==> g[2] == f[2];
    GroupBack(s[0], At(s, 1), At(s, 2), g);
    assert t[0] == g[0] && t[1] == g[1] && t[2] == g[2] && t[3] == g[3];
    assert DecodeGroups(t, n) == Three(g[0], g[1], g[2], g[3]) + DecodeGroups(t[4..], n - 1);
  }

  /** The length without marks tells the number of bytes. */
  lemma SpanTells(s: seq<bv8>)
    requires s != []
    ensures Span(Encode(s)) * 3 / 4 == |s|
  {
    hide EncodeGroups, Span, Marked;
    NoMarks(s);
    SpanOf(EncodeGroups(s), |s|);
    SpanArithmetic(|s|);
  }

  function MarksOf(len: nat): nat {
    if len % 3 == 1 then 2 else if len % 3 == 2 then 1 else 0
  }

  lemma SpanOf(t: seq<bv8>, len: nat)
    requires |t| >= 4 && t[|t| - 1] != EQUALS && t[|t| - 2] != EQUALS && t[|t| - 3] != EQUALS
    ensures Span(Marked(t, len)) == |t| - MarksOf(len)
  {
    var m := Marked(t, len);
    assert m[|m| - 3] == t[|t| - 3];
  }

  lemma SpanArithmetic(len: nat)
    requires len >= 1
    ensures 4 * Rounds(len) >= MarksOf(len) && (4 * Rounds(len) - MarksOf(len)) * 3 / 4 == len
  {
    var (q, r) := (len / 3, len % 3);
    assert len == 3 * q + r;
  }

  lemma {:induction false} NoMarks(s: seq<bv8>)
    requires s != []
    ensures var t := EncodeGroups(s); |t| >= 4 && t[|t| - 1] != EQUALS && t[|t| - 2] != EQUALS && t[|t| - 3] != EQUALS
    decreases |s|
  {
    hide Alphabet, Sextet;
    if |s| <= 3 {
      var (a, b, c) := (s[0], At(s, 1), At(s, 2));
      SextetSmall(a, b, c, 1);
      SextetSmall(a, b, c, 2);
      SextetSmall(a, b, c, 3);
      ValueOfAlphabet(Sextet(a, b, c, 1));
      ValueOfAlphabet(Sextet(a, b, c, 2));
      ValueOfAlphabet(Sextet(a, b, c, 3));
      assert EncodeGroups(Drop3(s)) == [];
    } else {
      NoMarks(s[3..]);
    }
  }

  /** The lines for M, Ma and Man are TQ==, TWE= and TWFu. */
  lemma Examples()
    ensures Encode([77]) == [84, 81, 61, 61] && Encode([77, 97]) == [84, 87, 69, 61]
    ensures Encode([77, 97, 110]) == [84, 87, 70, 117]
  {
    OneGroup(77, 0, 0, [77]);
    OneGroup(77, 97, 0, [77, 97]);
    OneGroup(77, 97, 110, [77, 97, 110]);
    SextetsAre(77, 0, 0);
    SextetsAre(77, 97, 0);
    SextetsAre(77, 97, 110);
  }

  lemma OneGroup(a: bv8, b: bv8, c: bv8, s: seq<bv8>)
    requires 1 <= |s| <= 3 && s[0] == a && At(s, 1) == b && At(s, 2) == c
    ensures EncodeGroups(s) == Four(a, b, c)
  {
    assert EncodeGroups(Drop3(s)) == [];
  }

  /** Decoding an encoded line gives its bytes, whatever lies behind it in memory. */
  lemma RoundTrip(s: seq<bv8>, beyond: seq<bv8>)
    requires s != [] && |Encode(s)| + |beyond| >= 4 * Rounds(|Encode(s)|)
    ensures Decode(Encode(s), beyond) == s
  {
    hide Encode, Span;
    SpanTells(s);
    GroupsBack(s, beyond, Rounds(|Encode(s)|));
  }

  // ----- files -----

  const BYTES_AT_A_TIME: nat := 57

  /** Encode-the-File: lines of 57 bytes, and a last one with the rest. */
  function EncodeFile(s: seq<bv8>): (lines: seq<seq<bv8>>)
    ensures forall i | 0 <= i < |lines| :: 4 <= |lines[i]| <= 76
    ensures forall i | 0 <= i < |lines| - 1 :: |lines[i]| == 76
    ensures |lines| == (|s| + 56) / 57
    decreases |s|
  {
    if s == [] then []
    else if |s| <= BYTES_AT_A_TIME then [Encode(s)]
    else [Encode(s[..BYTES_AT_A_TIME])] + EncodeFile(s[BYTES_AT_A_TIME..])
  }

  /** Each line has enough behind it in memory for the last steps of the loop. */
  predicate Followed(lines: seq<seq<bv8>>, beyond: seq<seq<bv8>>) {
    |beyond| == |lines| && forall i | 0 <= i < |lines| :: |lines[i]| + |beyond[i]| >= 4 * Rounds(|lines[i]|)
  }

  /** Decode-the-File, with what the buffer has behind each line. */
  function DecodeFile(lines: seq<seq<bv8>>, beyond: seq<seq<bv8>>): seq<bv8>
    requires Followed(lines, beyond)
    decreases |lines|
  {
    if lines == [] then [] else Decode(lines[0], beyond[0]) + DecodeFile(lines[1..], beyond[1..])
  }

  /**
   * Decoding an encoded file gives it back; the loop reads at most 28 bytes behind a line, whatever
   * they are each time.
   */
  lemma {:induction false} FileRoundTrip(s: seq<bv8>, beyond: seq<seq<bv8>>)
    requires |beyond| == |EncodeFile(s)| && forall i | 0 <= i < |beyond| :: |beyond[i]| >= 28
    ensures Followed(EncodeFile(s), beyond) && DecodeFile(EncodeFile(s), beyond) == s
    decreases |s|
  {
    hide Encode, Decode;
    var lines := EncodeFile(s);
    if s == [] {
    } else if |s| <= BYTES_AT_A_TIME {
      RoundTrip(s, beyond[0]);
      assert DecodeFile(lines[1..], beyond[1..]) == [];
    } else {
      RoundTrip(s[..BYTES_AT_A_TIME], beyond[0]);
      assert lines[1..] == EncodeFile(s[BYTES_AT_A_TIME..]);
      FileRoundTrip(s[BYTES_AT_A_TIME..], beyond[1..]);
      assert s == s[..BYTES_AT_A_TIME] + s[BYTES_AT_A_TIME..];
    }
  }

  // ----- as it runs -----

  /** PAD as a counted string. */
  class Pad {
    const data: array<bv8>
    var count: nat

    ghost predicate Valid()
      reads this
    {
      data.Length == 256 && count <= 255
    }

    constructor ()
      ensures Valid() && fresh(data) && Text() == []
    {
      data, count := new bv8[256], 0;
    }

    ghost function Text(): (s: seq<bv8>)
      reads this, data
      requires Valid()
      ensures |s| == count
    {
      data[1..1 + count]
    }

    /** 0 PAD C! */
    method Clear()
      requires Valid()
      modifies this
      ensures Valid() && Text() == []
    {
      count := 0;
    }

    /** -n PAD C+! */
    method Less(n: nat)
      requires Valid() && n <= count
      modifies this
      ensures Valid() && Text() == old(Text())[..old(count) - n]
    {
      count := count - n;
    }

    method AppendChar(c: bv8)
      requires Valid() && count < 255
      modifies this, data
      ensures Valid() && Text() == old(Text()) + [c]
    {
      count := count + 1;
      data[count] := c;
    }

    /** The characters of one group of three bytes. */
    method AppendFour(a: bv8, b: bv8, c: bv8)
      requires Valid() && count + 4 <= 255
      modifies this, data
      ensures Valid() && Text() == old(Text()) + Four(a, b, c)
    {
      hide Alphabet, Sextet;
      AppendChar(Alphabet(Sextet(a, b, c, 0)));
      AppendChar(Alphabet(Sextet(a, b, c, 1)));
      AppendChar(Alphabet(Sextet(a, b, c, 2)));
      AppendChar(Alphabet(Sextet(a, b, c, 3)));
    }

    /** The bytes of one group of four characters. */
    method AppendThree(p: bv8, q: bv8, r: bv8, s: bv8)
      requires Valid() && count + 3 <= 255
      modifies this, data
      ensures Valid() && Text() == old(Text()) + Three(p, q, r, s)
    {
      hide Value, Octet;
      var (v0, v1, v2, v3) := (Value(p), Value(q), Value(r), Value(s));
      AppendChar(Octet(v0, v1, v2, v3, 0));
      AppendChar(Octet(v0, v1, v2, v3, 1));
      AppendChar(Octet(v0, v1, v2, v3, 2));
    }

    /** 3Bin-to-4Ascii of the first len bytes of a buffer, behind which it puts two nul bytes. */
    method EncodeBytes(buf: array<bv8>, len: nat)
      requires Valid() && Text() == [] && buf != data && len + 2 <= buf.Length && len <= BYTES_AT_A_TIME
      modifies this, data, buf
      ensures Valid() && Text() == EncodeGroups(old(buf[..len]))
    {
      hide Four, EncodeGroups, Pad.Text, Tail;
      buf[len], buf[len + 1] := 0, 0;
      ghost var s := buf[..len];
      ghost var n := 0;
      var i := 0;
      TailStart(s);
      NoText(EncodeGroups(s));
      while i < len
        invariant Valid() && i == 3 * n && i <= len + 2 && count == 4 * n && buf[..len] == s && buf[len] == 0
                  && buf[len + 1] == 0
        invariant Text() + EncodeGroups(Tail(s, i)) == EncodeGroups(s)
      {
        GroupAt(s, i, buf[i], buf[i + 1], buf[i + 2], Text());
        AppendFour(buf[i], buf[i + 1], buf[i + 2]);
        i, n := i + 3, n + 1;
      }
      TailEnd(s, i, Text());
    }

    /** Encode-a-Line */
    method EncodeLine(buf: array<bv8>, len: nat)
      requires Valid() && buf != data && 1 <= len <= BYTES_AT_A_TIME && len + 2 <= buf.Length
      modifies this, data, buf
      ensures Valid() && Text() == Encode(old(buf[..len]))
    {
      hide EncodeGroups;
      Clear();
      EncodeBytes(buf, len);
      if len % 3 == 1 {
        Less(2);
        AppendChar(EQUALS);
        AppendChar(EQUALS);
      } else if len % 3 == 2 {
        Less(1);
        AppendChar(EQUALS);
      }
    }

    /** Decode-a-Line of the first len bytes of a buffer behind some byte, with what is written of it. */
    method DecodeLine(before: bv8, buf: array<bv8>, len: nat) returns (out: seq<bv8>)
      requires Valid() && buf != data && 1 <= len <= 80 && 4 * Rounds(len) <= buf.Length
      modifies this, data
      ensures Valid() && out == Decode(buf[..len], buf[len..])
    {
      hide DecodeGroups;
      var span := SaveLength(before, buf, len);
      Clear();
      DecodeAscii(buf, len);
      assert buf[..len] + buf[len..] == buf[..];
      SpanBytes(before, buf[..len]);
      out := data[1..1 + ThreeQuarters(span)];
      assert out == Text()[..ThreeQuarters(span)];
    }

    /** Save-Ascii-Line-Length: of a single mark, the byte in front of the line is looked at too. */
    method SaveLength(before: bv8, buf: array<bv8>, len: nat) returns (span: int)
      requires 1 <= len <= buf.Length
      ensures span == SavedLength(before, buf[..len])
    {
      span := len;
      if buf[span - 1] == EQUALS { span := span - 1; }
      if (if span == 0 then before else buf[span - 1]) == EQUALS { span := span - 1; }
    }

    /** 4Ascii-to-3Bin as often as the loop over len characters does it. */
    method DecodeAscii(buf: array<bv8>, len: nat)
      requires Valid() && Text() == [] && buf != data && len <= 80 && 4 * Rounds(len) <= buf.Length
      modifies this, data
      ensures Valid() && Text() == DecodeGroups(buf[..], Rounds(len))
    {
      hide Three, Rounds, DecodeGroups, Pad.Text;
      var i, at := 0, 0;
      ghost var n := 0;
      MoreRounds(len, 0);
      assert buf[0..] == buf[..];
      NoText(DecodeGroups(buf[..], Rounds(len)));
      while i < len
        invariant i == 3 * n && at == 4 * n && n <= Rounds(len) <= 28 && (i < len <==> n < Rounds(len))
        invariant Valid() && count == 3 * n
        invariant Text() + DecodeGroups(buf[at..], Rounds(len) - n) == DecodeGroups(buf[..], Rounds(len))
      {
        NextFour(buf[at..], Rounds(len) - n, Text());
        assert buf[at..][4..] == buf[at + 4..];
        AppendThree(buf[at], buf[at + 1], buf[at + 2], buf[at + 3]);
        MoreRounds(len, n + 1);
        i, at, n := i + 3, at + 4, n + 1;
      }
      NoGroups(buf[at..]);
      assert Text() + [] == Text();
    }
  }

  lemma NoText(s: seq<bv8>)
    ensures [] + s == s
  {
  }

  lemma NoGroups(t: seq<bv8>)
    ensures DecodeGroups(t, 0) == []
  {
  }

  /** There is another round exactly while characters are left. */
  lemma MoreRounds(len: nat, n: nat)
    ensures 3 * n < len <==> n < Rounds(len)
    ensures len <= 80 ==> Rounds(len) <= 28
  {
  }

  function Tail(s: seq<bv8>, i: nat): seq<bv8> {
    if i < |s| then s[i..] else []
  }

  lemma TailStart(s: seq<bv8>)
    ensures Tail(s, 0) == s
  {
  }

  lemma TailEnd(s: seq<bv8>, i: nat, t: seq<bv8>)
    requires i >= |s|
    ensures t + EncodeGroups(Tail(s, i)) == t
  {
  }

  lemma GroupAt(s: seq<bv8>, i: nat, a: bv8, b: bv8, c: bv8, t: seq<bv8>)
    requires i < |s| && a == s[i] && b == At(s, i + 1) && c == At(s, i + 2)
    ensures t + EncodeGroups(Tail(s, i)) == (t + Four(a, b, c)) + EncodeGroups(Tail(s, i + 3))
  {
    hide Four;
    var u := Tail(s, i + 3);
    assert Drop3(s[i..]) == u && At(s[i..], 1) == b && At(s[i..], 2) == c;
    Regrouped(t, Four(a, b, c), EncodeGroups(u));
  }

  lemma NextFour(t: seq<bv8>, n: nat, s: seq<bv8>)
    requires n >= 1 && |t| >= 4 * n
    ensures s + DecodeGroups(t, n) == (s + Three(t[0], t[1], t[2], t[3])) + DecodeGroups(t[4..], n - 1)
  {
    hide Three;
    Regrouped(s, Three(t[0], t[1], t[2], t[3]), DecodeGroups(t[4..], n - 1));
  }

}
