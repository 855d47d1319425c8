/** The xchar words as they work on bytes in memory, against the functions of XChars. */
module XCharWords {
  import opened Bits
  import opened Sequences
  import opened XChars

  // ----- strings of xchars -----

  function EncodeAll(xs: seq<bv32>): seq<bv8>
    decreases |xs|
  {
    if xs == [] then [] else Encode(xs[0]) + EncodeAll(xs[1..])
  }

  /**
   * XC-LEN of u bytes, with what follows them in memory: at least one xchar is counted, and the last may
   * end beyond.
   */
  function XcLen(mem: seq<bv8>, u: nat): (n: Option<nat>)
    ensures n.Some? ==> n.value >= 1
    decreases |mem|
  {
    match Decode(mem)
    case None => None
    case Some(r) =>
      Consumes(mem);
      var used := |mem| - |r.1|;
      if used >= u then Some(1)
      else
        match XcLen(r.1, u - used)
        case None => None
        case Some(n) => Some(n + 1)
  }

  lemma Consumes(s: seq<bv8>)
    ensures Decode(s).Some? ==> |Decode(s).value.1| < |s|
  {
    hide And;
    if s != [] { DecodingConsumes(And(s[0] as bv32, 0x7F), 0x40, s[1..]); }
  }

  lemma {:induction false} DecodingConsumes(c: bv32, m: bv32, s: seq<bv8>)
    ensures var r := Decoding(c, m, s);
            r.Some? ==> |r.value.1| <= |s| && r.value.1 == s[|s| - |r.value.1|..]
    decreases |s|
  {
    hide And, Or, Xor, Up6, Up5, Six;
    if And(c, m) != 0 && s != [] {
      var t := Or(Up6(Xor(c, m)), Six(s[0]));
      DecodingConsumes(t, Up5(m), s[1..]);
    }
  }

  /** XC-LEN of any string of xchars is their number exactly if there are any; of the empty string it is not 0. */
  lemma {:induction false} LengthOfAll(xs: seq<bv32>, beyond: seq<bv8>)
    ensures var s := EncodeAll(xs); XcLen(s + beyond, |s|) == Some(|xs|) <==> xs != []
    decreases |xs|
  {
    hide Encode, Decode;
    if xs != [] {
      var t := EncodeAll(xs[1..]);
      RoundTrip(xs[0], t + beyond);
      Regrouped(Encode(xs[0]), t, beyond);
      SizeWritten(xs[0]);
      if |xs| > 1 {
        LengthOfAll(xs[1..], beyond);
        SizeWritten(xs[1]);
        assert |t| >= |Encode(xs[1])|;
      }
    }
  }

  /** Of the empty string before an xchar it is 1. */
  lemma EmptyCounted(x: bv32, beyond: seq<bv8>)
    ensures XcLen(Encode(x) + beyond, 0) == Some(1)
  {
    hide Encode, Decode;
    RoundTrip(x, beyond);
  }

  // ----- storing -----

  lemma TopBit(x: bv32)
    ensures Continuation(x) >= 0x80
  {
  }

  predicate AllHigh(s: seq<bv8>) {
    forall i | 0 <= i < |s| :: s[i] >= 0x80
  }

  lemma {:induction false} ContinuationsHigh(x: bv32, k: nat)
    ensures AllHigh(Continuations(x, k))
    decreases k
  {
    hide Continuation;
    if k > 0 {
      TopBit(Sixes(x, k - 1));
      ContinuationsHigh(x, k - 1);
    }
  }

  lemma EncodeHigh(x: bv32)
    requires x >= 0x80
    ensures AllHigh(Encode(x))
  {
    hide Encode, LowByte, Or, And, Sixes, Continuations, Lead;
    EncodeIsReference(x);
    LeadIs(x);
    ContinuationsHigh(x, Bytes(x) - 1);
  }

  /** XC!+ ( xchar addr -- addr' ): the bytes go to the stack above a 0, and from there to memory. */
  method Store(buf: array<bv8>, addr: nat, xchar: bv32) returns (next: nat)
    requires addr + XcSize(xchar) <= buf.Length
    modifies buf
    ensures next == addr + XcSize(xchar) && buf[addr..next] == Encode(xchar)
    ensures buf[..addr] == old(buf[..addr]) && buf[next..] == old(buf[next..])
  {
    hide XcSize, LowByte, Encoding;
    SizeWritten(xchar);
    if xchar < 0x80 {
      next := StoreByte(buf, addr, LowByte(xchar));
    } else {
      var bytes := TakeApart(xchar);
      EncodeHigh(xchar);
      next := StoreAll(buf, addr, bytes, Encode(xchar));
    }
  }

  /** TUCK C! CHAR+ */
  method StoreByte(buf: array<bv8>, addr: nat, b: bv8) returns (next: nat)
    requires addr < buf.Length
    modifies buf
    ensures next == addr + 1 && buf[addr..next] == [b]
    ensures buf[..addr] == old(buf[..addr]) && buf[next..] == old(buf[next..])
  {
    buf[addr] := b;
    next := addr + 1;
  }

  /** The bytes of an xchar that is not ASCII, as they come to lie on the stack above the 0 at its bottom. */
  method TakeApart(xchar: bv32) returns (stack: seq<bv8>)
    requires xchar >= 0x80
    ensures stack == Encode(xchar) + [0]
  {
    hide LowByte, Encoding, First, Continuation, Down6, Half;
    var x, mask := xchar, 0x3F as bv32;
    var bytes: seq<bv8> := [];
    while x > mask
      invariant Encoding(x, mask, bytes) == Encode(xchar)
      decreases x
    {
      Smaller(x);
      EncodingStep(x, mask, bytes);
      bytes := [Continuation(x)] + bytes;
      x, mask := Down6(x), Half(mask);
    }
    EncodingStep(x, mask, bytes);
    stack := [First(x, mask)] + bytes + [0];
  }

  lemma EncodingStep(x: bv32, mask: bv32, tail: seq<bv8>)
    ensures x > mask ==> Encoding(x, mask, tail) == Encoding(Down6(x), Half(mask), [Continuation(x)] + tail)
    ensures x <= mask ==> Encoding(x, mask, tail) == [First(x, mask)] + tail
  {
  }

  /** Stores the bytes on the stack down to the one that is less than 80 hex. */
  method StoreAll(buf: array<bv8>, addr: nat, stack: seq<bv8>, ghost s: seq<bv8>) returns (next: nat)
    requires stack == s + [0] && AllHigh(s) && addr + |s| <= buf.Length
    modifies buf
    ensures next == addr + |s| && buf[addr..next] == s
    ensures buf[..addr] == old(buf[..addr]) && buf[next..] == old(buf[next..])
  {
    var bytes := stack;
    next := addr;
    while bytes[0] >= 0x80
      invariant addr <= next <= addr + |s| && bytes == stack[next - addr..]
      invariant buf[addr..next] == s[..next - addr]
      invariant buf[..addr] == old(buf[..addr]) && buf[next..] == old(buf[next..])
      decreases |bytes|
    {
      buf[next] := bytes[0];
      next := next + 1;
      bytes := bytes[1..];
    }
  }

  /** XC!+? ( xchar addr u -- addr' u' flag ): stores only what fits. */
  method StoreIfFits(buf: array<bv8>, addr: nat, u: nat, xchar: bv32) returns (next: nat, left: nat, flag: bool)
    requires addr + u <= buf.Length
    modifies buf
    ensures (flag <==> XcSize(xchar) <= u) && addr <= next <= addr + u
    ensures flag ==> buf[addr..next] == Encode(xchar) && next + left == addr + u
    ensures !flag ==> next == addr && left == u
    ensures buf[..addr] == old(buf[..addr]) && buf[next..] == old(buf[next..])
  {
    hide XcSize, Encode;
    var len := XcSize(xchar);
    if u < len { return addr, u, false; }
    next := Store(buf, addr, xchar);
    left, flag := u - len, true;
  }

  // ----- fetching -----

  /** XC@+ ( addr -- addr' xchar ): if the xchar does not end within memory, it is read beyond. */
  method FetchNext(buf: array<bv8>, addr: nat) returns (inside: bool, next: nat, xchar: bv32)
    requires addr <= buf.Length
    ensures inside <==> Decode(buf[addr..]).Some?
    ensures inside ==> addr < next <= buf.Length && Decode(buf[addr..]) == Some((xchar, buf[next..]))
  {
    hide And, Or, Xor, Up6, Up5, Six;
    if addr == buf.Length { return false, addr, 0; }
    var b := buf[addr];
    next := addr + 1;
    if b < 0x80 { return true, next, b as bv32; }
    xchar := And(b as bv32, 0x7F);
    var m: bv32 := 0x40;
    while And(xchar, m) != 0
      invariant addr < next <= buf.Length && Decoding(xchar, m, buf[next..]) == Decode(buf[addr..])
      decreases buf.Length - next
    {
      if next == buf.Length { return false, next, xchar; }
      xchar := Or(Up6(Xor(xchar, m)), Six(buf[next]));
      m := Up5(m);
      next := next + 1;
    }
    inside := true;
  }

  /** XC-LEN ( addr u -- n ) with the address at the start of the buffer. */
  method Count(buf: array<bv8>, u: nat) returns (inside: bool, n: nat)
    ensures inside <==> XcLen(buf[..], u).Some?
    ensures inside ==> Some(n) == XcLen(buf[..], u)
  {
    hide Decode;
    n := 0;
    XcLenStep(buf[..], u);
    assert buf[0..] == buf[..];
    var next, x;
    inside, next, x := FetchNext(buf, 0);
    while inside && next < u
      invariant inside ==> next <= buf.Length
      invariant XcLen(buf[..], u) == if !inside then None else if next >= u then Some(n + 1)
                else Plus(n + 1, XcLen(buf[next..], u - next))
      decreases inside, buf.Length - next
    {
      XcLenStep(buf[next..], u - next);
      n := n + 1;
      inside, next, x := FetchNext(buf, next);
    }
    n := n + 1;
  }

  function Plus(n: nat, o: Option<nat>): Option<nat> {
    match o
    case None => None
    case Some(k) => Some(n + k)
  }

  /** One step of XcLen, for proofs in which decoding is hidden. */
  lemma XcLenStep(s: seq<bv8>, u: nat)
    ensures Decode(s).None? ==> XcLen(s, u).None?
    ensures Decode(s).Some? ==>
              var used := |s| - |Decode(s).value.1|;
              used >= 0 && XcLen(s, u) == if used >= u then Some(1) else Plus(1, XcLen(Decode(s).value.1, u - used))
  {
    hide Decode;
    Consumes(s);
  }
}
