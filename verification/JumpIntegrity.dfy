/**
 * What every error-free sequence of compile words keeps, well nested or not: the
 * bytes read as whole instructions, each unresolved jump is recorded exactly
 * once, and every other jump leads to the start of an instruction or to the end.
 */
module JumpIntegrity {
  import opened Cells
  import opened ByteCode
  import opened ControlWords

  /** Reading instructions one after the other from `from` arrives exactly at `to`. */
  predicate Parses(code: seq<Byte>, from: nat, to: nat)
    decreases to - from
  {
    from == to || (from < to && from < |code| && Parses(code, from + Len(code[from]), to))
  }

  /** k is where an instruction starts, or where the code ends. */
  predicate Boundary(code: seq<Byte>, k: nat) {
    k <= |code| && Parses(code, 0, k)
  }

  predicate StartsJump(code: seq<Byte>, p: int) {
    0 <= p < |code| && Boundary(code, p) && IsJump(code[p])
  }

  predicate Resolved(code: seq<Byte>, p: nat) {
    p + 5 <= |code| && Boundary(code, Target(code, p))
  }

  /** The offsets of all unresolved operands, with how often each is recorded. */
  ghost function Open(c: Comp): multiset<int> {
    multiset(c.ifs) + multiset(c.whiles) + multiset(c.leaves) + multiset(c.ofs) + multiset(c.cases)[-1 := 0]
  }

  ghost predicate JumpsSound(code: seq<Byte>, open: multiset<int>) {
    && Boundary(code, |code|)
    && (forall h | h in open :: open[h] == 1 && StartsJump(code, h - 1))
    && (forall p: nat | StartsJump(code, p) && p + 1 !in open :: Resolved(code, p))
  }

  ghost predicate Starts(code: seq<Byte>, s: seq<nat>) {
    forall i :: 0 <= i < |s| ==> Boundary(code, s[i])
  }

  predicate IsAddr(code: seq<Byte>, p: int) {
    0 <= p < |code| && Boundary(code, p) && code[p] == OP_ADDR
  }

  ghost predicate StartsAddr(code: seq<Byte>, s: seq<nat>) {
    forall i :: 0 <= i < |s| ==> s[i] >= 1 && IsAddr(code, s[i] - 1)
  }

  predicate Increasing(s: seq<nat>) {
    forall i, j :: 0 <= i < j < |s| ==> s[i] < s[j]
  }

  /** a is obtained from b by leaving elements out. */
  predicate Subsequence(a: seq<nat>, b: seq<nat>)
    decreases |b|
  {
    a == [] || (b != [] && Subsequence(if Last(a) == Last(b) then ButLast(a) else a, ButLast(b)))
  }

  /** What is known of the offsets that are not unresolved jumps. */
  ghost predicate MarksSound(c: Comp) {
    && Starts(c.ops, c.begins) && Starts(c.ops, c.dos) && StartsAddr(c.ops, c.recs)
    && Increasing(c.dos) && Increasing(c.leaves)
    && Subsequence(c.qdos, c.dos)
  }

  /** The invariant of the compiler. */
  ghost predicate Integrity(c: Comp) {
    JumpsSound(c.ops, Open(c)) && MarksSound(c)
  }

  // ----- reading instructions -----

  lemma {:induction false} ParsesTrans(code: seq<Byte>, a: nat, b: nat, d: nat)
    requires Parses(code, a, b) && Parses(code, b, d)
    ensures Parses(code, a, d)
    decreases b - a
  {
    if a < b {
      ParsesTrans(code, a + Len(code[a]), b, d);
    }
  }

  /** No instruction starts inside another. */
  lemma {:induction false} ParsesApart(code: seq<Byte>, a: nat, x: nat, y: nat)
    requires Parses(code, a, x) && Parses(code, a, y) && x < y
    ensures x < |code| && x + Len(code[x]) <= y && Parses(code, x + Len(code[x]), y)
    decreases x - a
  {
    if a < x {
      ParsesApart(code, a + Len(code[a]), x, y);
    }
  }

  lemma {:induction false} ParsesAgree(code: seq<Byte>, code': seq<Byte>, a: nat, b: nat)
    requires Parses(code, a, b)
    requires forall i: nat | a <= i < b && Parses(code, a, i) && i < |code| :: i < |code'| && code'[i] == code[i]
    ensures Parses(code', a, b)
    decreases b - a
  {
    if a < b {
      var n := a + Len(code[a]);
      assert Parses(code, a, a);
      forall i: nat | n <= i < b && Parses(code, n, i) && i < |code|
        ensures i < |code'| && code'[i] == code[i]
      {
        assert Parses(code, a, i);
      }
      ParsesAgree(code, code', n, b);
    }
  }

  /** Every boundary stays one, with the same opcode at it. */
  ghost predicate Extends(code: seq<Byte>, code': seq<Byte>) {
    && |code| <= |code'|
    && (forall k: nat | Boundary(code, k) :: Boundary(code', k))
    && (forall k: nat | Boundary(code, k) && k < |code| :: code'[k] == code[k])
  }

  ghost predicate SameStarts(code: seq<Byte>, code': seq<Byte>) {
    Extends(code, code') && forall k: nat | k <= |code| && Boundary(code', k) :: Boundary(code, k)
  }

  lemma AppendStarts(code: seq<Byte>, x: seq<Byte>)
    ensures SameStarts(code, code + x)
  {
    forall k: nat | k <= |code| && Parses(code, 0, k) ensures Parses(code + x, 0, k) {
      ParsesAgree(code, code + x, 0, k);
    }
    forall k: nat | k <= |code| && Parses(code + x, 0, k) ensures Parses(code, 0, k) {
      ParsesAgree(code + x, code, 0, k);
    }
  }

  /** Overwriting the operand of a five-byte instruction moves no instruction. */
  lemma PatchStarts(code: seq<Byte>, p: nat, v: int)
    requires p + 5 <= |code| && Boundary(code, p) && Len(code[p]) == 5
    ensures SameStarts(code, Patch(code, p + 1, v))
  {
    var code' := Patch(code, p + 1, v);
    forall k: nat | k <= |code| && Parses(code, 0, k)
      ensures Parses(code', 0, k) && (k < |code| ==> code'[k] == code[k])
    {
      PatchAgrees(code, code', p, k);
    }
    assert code'[p] == code[p];
    forall k: nat | k <= |code| && Parses(code', 0, k) ensures Parses(code, 0, k) {
      PatchAgrees(code', code, p, k);
    }
  }

  lemma PatchAgrees(code: seq<Byte>, code': seq<Byte>, p: nat, k: nat)
    requires p + 5 <= |code| == |code'| && Parses(code, 0, p) && Len(code[p]) == 5
    requires forall i :: 0 <= i < |code| && !(p < i < p + 5) ==> code'[i] == code[i]
    requires k <= |code| && Parses(code, 0, k)
    ensures Parses(code', 0, k) && (k < |code| ==> code'[k] == code[k])
  {
    forall i: nat | i < |code| && Parses(code, 0, i) ensures code'[i] == code[i] {
      if p < i { ParsesApart(code, 0, p, i); }
    }
    ParsesAgree(code, code', 0, k);
  }

  // ----- the elementary changes of the compiler -----

  lemma ParsesOne(code: seq<Byte>, x: seq<Byte>)
    requires Boundary(code, |code|) && x != [] && |x| == Len(x[0])
    ensures Boundary(code + x, |code + x|)
    ensures forall k: nat | Boundary(code + x, k) :: k <= |code| || k == |code + x|
  {
    var e := code + x;
    AppendStarts(code, x);
    assert e[|code|] == x[0];
    assert Parses(e, |e|, |e|);
    ParsesTrans(e, 0, |code|, |e|);
    forall k: nat | Boundary(e, k) ensures k <= |code| || k == |e| {
      if |code| < k { ParsesApart(e, 0, |code|, k); }
    }
  }

  /** Appending an instruction; a jump is either recorded as open or leads to a boundary. */
  lemma AppendSound(code: seq<Byte>, open: multiset<int>, x: seq<Byte>, open': multiset<int>)
    requires JumpsSound(code, open)
    requires x != [] && |x| == Len(x[0])
    requires if IsJump(x[0]) && open' != open then open' == open + multiset{|code| + 1} else open' == open
    requires IsJump(x[0]) && open' == open ==> Boundary(code + x, Target(code + x, |code|))
    ensures JumpsSound(code + x, open') && SameStarts(code, code + x)
  {
    var e := code + x;
    AppendStarts(code, x);
    ParsesOne(code, x);
    assert e[|code|] == x[0];
    forall h | h in open ensures h <= |code| && StartsJump(e, h - 1) {
      assert StartsJump(code, h - 1);
    }
    forall p: nat | StartsJump(e, p) && p + 1 !in open' ensures Resolved(e, p) {
      if p < |code| {
        assert StartsJump(code, p) && Resolved(code, p);
        assert e[p + 1..p + 5] == code[p + 1..p + 5];
      }
    }
  }

  /** Resolving an open operand to a boundary. */
  lemma ResolveSound(code: seq<Byte>, open: multiset<int>, h: nat, t: nat)
    requires JumpsSound(code, open) && h in open && Boundary(code, t) && |code| < WORD
    ensures h >= 1 && h + 4 <= |code|
    ensures JumpsSound(Patch(code, h, t - (h - 1)), open - multiset{h})
    ensures SameStarts(code, Patch(code, h, t - (h - 1)))
  {
    hide Resolved, Patch, Target, Parses;
    assert StartsJump(code, h - 1);
    ParsesApart(code, 0, h - 1, |code|);
    var e := Patch(code, h, t - (h - 1));
    PatchStarts(code, h - 1, t - (h - 1));
    forall q: nat | StartsJump(e, q) && (q + 1 == h || q + 1 !in open) ensures Resolved(e, q) {
      PatchedResolved(code, open, h - 1, t, q);
    }
    RecordedStay(code, e, open, h);
  }

  lemma RecordedStay(code: seq<Byte>, e: seq<Byte>, open: multiset<int>, h: nat)
    requires h in open && forall g | g in open :: open[g] == 1 && StartsJump(code, g - 1)
    requires SameStarts(code, e)
    ensures h !in open - multiset{h}
    ensures forall g :: g in open && g != h ==> g in open - multiset{h}
    ensures forall g | g in open - multiset{h} :: (open - multiset{h})[g] == 1 && StartsJump(e, g - 1)
  {
    forall g | g in open - multiset{h} ensures (open - multiset{h})[g] == 1 && StartsJump(e, g - 1) {
      assert g in open && StartsJump(code, g - 1);
    }
  }

  lemma PatchedResolved(code: seq<Byte>, open: multiset<int>, p: nat, t: nat, q: nat)
    requires JumpsSound(code, open) && StartsJump(code, p) && p + 5 <= |code| < WORD && Boundary(code, t)
    requires StartsJump(Patch(code, p + 1, t - p), q) && (q == p || q + 1 !in open)
    ensures Resolved(Patch(code, p + 1, t - p), q)
  {
    hide Patch, Target;
    var e := Patch(code, p + 1, t - p);
    PatchStarts(code, p, t - p);
    if q == p {
      PatchedTarget(code, p, t);
    } else {
      assert StartsJump(code, q) && Resolved(code, q);
      OtherJumpStays(code, p, t - p, q);
    }
  }

  lemma OtherJumpStays(code: seq<Byte>, p: nat, v: int, q: nat)
    requires p + 5 <= |code| && StartsJump(code, p) && StartsJump(code, q) && q != p && q + 5 <= |code|
    ensures Target(Patch(code, p + 1, v), q) == Target(code, q) && StartsJump(Patch(code, p + 1, v), q)
  {
    PatchAgrees(code, Patch(code, p + 1, v), p, q);
    if q < p { ParsesApart(code, 0, q, p); } else { ParsesApart(code, 0, p, q); }
    assert Patch(code, p + 1, v)[q + 1..q + 5] == code[q + 1..q + 5];
  }

  // ----- every compile word keeps the invariant -----

  lemma StartsKept(code: seq<Byte>, code': seq<Byte>, s: seq<nat>)
    requires Extends(code, code')
    ensures Starts(code, s) ==> Starts(code', s)
    ensures StartsAddr(code, s) ==> StartsAddr(code', s)
  {
    if StartsAddr(code, s) {
      forall i | 0 <= i < |s| ensures s[i] >= 1 && IsAddr(code', s[i] - 1) {
        assert IsAddr(code, s[i] - 1);
      }
    }
  }

  predicate SameMarks(c: Comp, d: Comp) {
    d.begins <= c.begins && d.dos == c.dos && d.qdos == c.qdos && d.recs == c.recs && d.leaves <= c.leaves
  }

  /** A change of the code that moves no instruction keeps the marks. */
  lemma MarksKept(c: Comp, d: Comp)
    requires MarksSound(c) && Extends(c.ops, d.ops) && SameMarks(c, d)
    ensures MarksSound(d)
  {
    StartsKept(c.ops, d.ops, c.begins);
    StartsKept(c.ops, d.ops, c.dos);
    StartsKept(c.ops, d.ops, c.recs);
    assert forall i :: 0 <= i < |d.begins| ==> d.begins[i] == c.begins[i];
  }

  /** Appending an instruction that is not a jump. */
  lemma EmitKeeps(c: Comp, x: seq<Byte>)
    requires Integrity(c) && x != [] && |x| == Len(x[0]) && !IsJump(x[0])
    ensures Integrity(Emit(c, x)) && SameStarts(c.ops, c.ops + x)
  {
    AppendSound(c.ops, Open(c), x, Open(c));
    MarksKept(c, Emit(c, x));
  }

  /** Appending a jump back to a boundary. */
  lemma BackSound(code: seq<Byte>, open: multiset<int>, op: Byte, t: nat)
    requires JumpsSound(code, open) && IsJump(op) && Boundary(code, t) && |code| < WORD
    ensures JumpsSound(code + ([op] + ToBytes(Wrap(t - |code|))), open)
    ensures SameStarts(code, code + ([op] + ToBytes(Wrap(t - |code|))))
  {
    var x := [op] + ToBytes(Wrap(t - |code|));
    AppendedTarget(code, op, t);
    assert Boundary(code + x, t) by { AppendStarts(code, x); }
    AppendSound(code, open, x, open);
  }

  lemma AppendedTarget(code: seq<Byte>, op: Byte, t: nat)
    requires t < WORD
    ensures Target(code + ([op] + ToBytes(Wrap(t - |code|))), |code|) == t
  {
    var p := |code|;
    var e := code + ([op] + ToBytes(Wrap(t - p)));
    assert e[p + 1..p + 5] == ToBytes(Wrap(t - p));
    FromToBytes(Wrap(t - p));
    WrapDistance(0, p, t);
  }

  /** Appending a jump whose operand is recorded on one of the stacks. */
  lemma EmitOpenKeeps(c: Comp, op: Byte, d: Comp)
    requires Integrity(c) && IsJump(op)
    requires d.ops == EmitCell(c, op, 0).ops && Open(d) == Open(c) + multiset{|c.ops| + 1}
    requires SameMarks(c, d)
    ensures Integrity(d)
  {
    AppendSound(c.ops, Open(c), [op] + ToBytes(Wrap(0)), Open(d));
    MarksKept(c, d);
  }

  /** Taking an operand from its stack and resolving it to a boundary. */
  lemma ResolveKeeps(c: Comp, h: nat, t: nat, d: Comp)
    requires Integrity(c) && h in Open(c) && Boundary(c.ops, t) && |c.ops| < WORD
    requires d.ops == Patch(c.ops, h, t - h + 1) && Open(d) == Open(c) - multiset{h}
    requires SameMarks(c, d)
    ensures Integrity(d)
  {
    hide MarksSound, JumpsSound, Open;
    ResolveSound(c.ops, Open(c), h, t);
    MarksKept(c, d);
  }

  lemma PopMultiset<T>(s: seq<T>)
    requires s != []
    ensures multiset(s) == multiset(ButLast(s)) + multiset{Last(s)}
  {
    assert s == ButLast(s) + [Last(s)];
  }

  lemma ThenKeeps(c: Comp)
    requires Integrity(c) && c.ifs != [] && |c.ops| < WORD
    ensures Integrity(ThenStep(c).value)
  {
    PopMultiset(c.ifs);
    assert Open(ThenStep(c).value) == Open(c) - multiset{Last(c.ifs)};
    assert Boundary(c.ops, |c.ops|);
    hide Open, Integrity, Boundary;
    ResolveKeeps(c, Last(c.ifs), |c.ops|, ThenStep(c).value);
  }

  lemma IfKeeps(c: Comp)
    requires Integrity(c)
    ensures Integrity(IfStep(c))
  {
    EmitOpenKeeps(c, OP_JZ, IfStep(c));
  }

  lemma ElseOpen(c: Comp)
    requires c.ifs != []
    ensures Last(c.ifs) in Open(c)
    ensures Open(ElseStep(c).value) == Open(c) + multiset{|c.ops| + 1} - multiset{Last(c.ifs)}
  {
    var n: nat := |c.ops| + 1;
    PopMultiset(c.ifs);
    assert multiset(ElseStep(c).value.ifs) == multiset(c.ifs) - multiset{Last(c.ifs)} + multiset{n};
  }

  lemma ElseKeeps(c: Comp)
    requires Integrity(c) && c.ifs != [] && |c.ops| + 5 < WORD
    ensures Integrity(ElseStep(c).value)
  {
    hide Open, MarksSound, JumpsSound;
    var r := ElseStep(c).value;
    ElseOpen(c);
    SwapOpenSound(c.ops, Open(c), OP_JMP, Last(c.ifs));
    MarksKept(c, r);
  }

  /** A new open jump is appended, and an older one is resolved to behind it. */
  lemma SwapOpenSound(code: seq<Byte>, open: multiset<int>, op: Byte, h: nat)
    requires JumpsSound(code, open) && IsJump(op) && h in open && |code| + 5 < WORD
    ensures var e := Patch(code + ([op] + ToBytes(0)), h, |code| + 5 - h + 1);
            JumpsSound(e, open + multiset{|code| + 1} - multiset{h}) && SameStarts(code, e)
  {
    var x := [op] + ToBytes(0);
    AppendSound(code, open, x, open + multiset{|code| + 1});
    hide JumpsSound;
    JumpsEnd(code + x, open + multiset{|code| + 1});
    ResolveSound(code + x, open + multiset{|code| + 1}, h, |code| + 5);
  }

  lemma JumpsEnd(code: seq<Byte>, open: multiset<int>)
    requires JumpsSound(code, open)
    ensures Boundary(code, |code|)
  {
  }

  lemma WhileKeeps(c: Comp)
    requires Integrity(c) && c.begins != []
    ensures Integrity(WhileStep(c).value)
  {
    EmitOpenKeeps(c, OP_JZ, WhileStep(c).value);
  }

  lemma OpenSame(c: Comp, d: Comp)
    requires c.ifs == d.ifs && c.whiles == d.whiles && c.leaves == d.leaves && c.ofs == d.ofs && c.cases == d.cases
    ensures Open(c) == Open(d)
  {
  }

  lemma BackKeeps(c: Comp, op: Byte)
    requires Integrity(c) && IsJump(op) && c.begins != [] && |c.ops| < WORD
    ensures Integrity(BackStep(c, op).value)
  {
    var t := Last(c.begins);
    assert Boundary(c.ops, t);
    hide Open, MarksSound, JumpsSound;
    var d := BackStep(c, op).value;
    BackSound(c.ops, Open(c), op, t);
    OpenSame(c, d);
    MarksKept(c, d);
  }

  /** REPEAT resolves the newest WHILE to behind the jump that it is about to append. */
  lemma RepeatKeeps(c: Comp)
    requires Integrity(c) && c.begins != [] && |c.ops| + 5 < WORD
    ensures Integrity(RepeatStep(c).value)
  {
    hide Integrity, Patch;
    BackKeeps(c, OP_JMP);
    HolesInside(c);
    if c.whiles != [] && Last(c.whiles) > Last(c.begins) {
      RepeatOps(c, BackStep(c, OP_JMP).value);
      ResolveWhileKeeps(BackStep(c, OP_JMP).value, RepeatStep(c).value);
    }
  }

  lemma StackInside(c: Comp, s: seq<Mark>)
    requires JumpsSound(c.ops, Open(c)) && forall h | h in s && h != -1 :: h in Open(c)
    ensures AllInside(s, |c.ops|)
  {
    forall k | 0 <= k < |s| && s[k] != -1 ensures s[k] + 4 <= |c.ops| {
      HoleInside(c.ops, Open(c), s[k]);
    }
  }

  lemma StacksOpen(c: Comp)
    ensures forall h | h in c.ifs || h in c.whiles || h in c.ofs || h in c.leaves :: h in Open(c)
    ensures forall h | h in c.cases && h != -1 :: h in Open(c)
  {
  }

  /** No word is ever asked to patch outside the code. */
  lemma HolesInside(c: Comp)
    requires Integrity(c)
    ensures TopInside(c.ifs, |c.ops|) && TopInside(c.whiles, |c.ops|) && TopInside(c.ofs, |c.ops|)
    ensures AllInside(c.leaves, |c.ops|) && AllInside(c.cases, |c.ops|) && AllInside(c.recs, |c.ops|)
  {
    forall k | 0 <= k < |c.recs| ensures c.recs[k] + 4 <= |c.ops| {
      assert IsAddr(c.ops, c.recs[k] - 1);
      ParsesApart(c.ops, 0, c.recs[k] - 1, |c.ops|);
    }
    StacksOpen(c);
    hide JumpsSound, MarksSound, Open;
    StackInside(c, c.ifs);
    StackInside(c, c.whiles);
    StackInside(c, c.ofs);
    StackInside(c, c.leaves);
    StackInside(c, c.cases);
  }

  lemma HoleInside(code: seq<Byte>, open: multiset<int>, h: int)
    requires JumpsSound(code, open) && h in open
    ensures 1 <= h && h + 4 <= |code| && StartsJump(code, h - 1)
  {
    assert StartsJump(code, h - 1);
    ParsesApart(code, 0, h - 1, |code|);
  }

  lemma ResolveWhileKeeps(d: Comp, r: Comp)
    requires Integrity(d) && |d.ops| < WORD
    requires d.whiles != [] && r.(ops := d.ops) == d.(whiles := ButLast(d.whiles))
    requires r.ops == Patch(d.ops, Last(d.whiles), |d.ops| - Last(d.whiles) + 1)
    ensures Integrity(r)
  {
    WhileOpen(d, r);
    JumpsEnd(d.ops, Open(d));
    hide Open, Integrity, Boundary;
    ResolveKeeps(d, Last(d.whiles), |d.ops|, r);
  }

  lemma WhileOpen(d: Comp, r: Comp)
    requires d.whiles != [] && r.(ops := d.ops) == d.(whiles := ButLast(d.whiles))
    ensures Last(d.whiles) in Open(d) && Open(r) == Open(d) - multiset{Last(d.whiles)}
  {
    PopMultiset(d.whiles);
  }

  /** Patching before the jump is appended is the same as patching after it. */
  lemma RepeatOps(c: Comp, d: Comp)
    requires c.begins != [] && c.whiles != [] && Last(c.whiles) > Last(c.begins)
    requires Last(c.whiles) + 4 <= |c.ops| && d == BackStep(c, OP_JMP).value
    ensures RepeatStep(c).value.ops == Patch(d.ops, Last(c.whiles), |d.ops| - Last(c.whiles) + 1)
  {
    var x := [OP_JMP] + ToBytes(Wrap(Last(c.begins) - |c.ops|));
    assert d.ops == c.ops + x;
  }

  lemma DoKeeps(c: Comp)
    requires Integrity(c)
    ensures Integrity(DoStep(c))
  {
    DoMarks(c);
    hide Integrity;
    var c1 := Emit(c, [OP_PUSH]);
    var c2 := Emit(c1, [OP_PUSH]);
    var c3 := Emit(c2, [OP_PUSHIP]);
    EmitKeeps(c, [OP_PUSH]);
    EmitKeeps(c1, [OP_PUSH]);
    EmitKeeps(c2, [OP_PUSHIP]);
    assert c3.ops == c.ops + [OP_PUSH, OP_PUSH, OP_PUSHIP];
    MarkDo(c3);
  }

  lemma DoMarks(c: Comp)
    requires Integrity(c)
    ensures forall i :: 0 <= i < |c.dos| ==> c.dos[i] <= |c.ops|
  {
  }

  lemma MarkDo(c: Comp)
    requires Integrity(c)
    requires forall i :: 0 <= i < |c.dos| ==> c.dos[i] < |c.ops|
    ensures Integrity(c.(dos := c.dos + [|c.ops|]))
  {
    var d := c.(dos := c.dos + [|c.ops|]);
    assert ButLast(d.dos) == c.dos;
    if c.qdos != [] { SubsequenceLast(c.qdos, c.dos); }
  }

  lemma {:induction false} SubsequenceLast(a: seq<nat>, b: seq<nat>)
    requires Subsequence(a, b) && a != []
    ensures exists i :: 0 <= i < |b| && b[i] == Last(a)
    decreases |b|
  {
    if Last(a) != Last(b) {
      SubsequenceLast(a, ButLast(b));
      var i :| 0 <= i < |ButLast(b)| && ButLast(b)[i] == Last(a);
      assert b[i] == Last(a);
    }
  }

  /** The 2DUP = IF 2DROP of ?DO. */
  function QueryDoHead(c: Comp): Comp {
    Emit(IfStep(Emit(c, [OP_2DUP, OP_EQ])), [OP_2DROP])
  }

  lemma QueryDoHeadKeeps(c: Comp)
    requires Integrity(c)
    ensures Integrity(QueryDoHead(c))
  {
    var c2 := Emit(c, [OP_2DUP, OP_EQ]);
    TwoKeep(c, OP_2DUP, OP_EQ);
    hide Integrity;
    IfKeeps(c2);
    EmitKeeps(IfStep(c2), [OP_2DROP]);
  }

  lemma QueryDoEntryKeeps(c: Comp)
    requires Integrity(c) && |c.ops| + 13 < WORD
    ensures Integrity(ElseStep(QueryDoHead(c)).value)
  {
    QueryDoHeadKeeps(c);
    hide Integrity;
    ElseKeeps(QueryDoHead(c));
  }

  lemma TwoKeep(c: Comp, a: Byte, b: Byte)
    requires Integrity(c) && Len(a) == Len(b) == 1
    ensures Integrity(Emit(c, [a, b]))
  {
    var d := Emit(c, [a]);
    EmitKeeps(c, [a]);
    hide Integrity;
    EmitKeeps(d, [b]);
    assert Emit(c, [a, b]) == Emit(d, [b]);
  }

  /** ?DO is IF, ELSE and DO, and records the start of the loop once more. */
  lemma QueryDoKeeps(c: Comp)
    requires Integrity(c) && |c.ops| + 16 < WORD
    ensures Integrity(QueryDoStep(c))
  {
    QueryDoEntryKeeps(c);
    var e := ElseStep(QueryDoHead(c)).value;
    DoKeeps(e);
    assert ButLast(DoStep(e).dos) == c.dos;
    hide Integrity;
    MarkQueryDo(DoStep(e));
  }

  lemma MarkQueryDo(c: Comp)
    requires Integrity(c) && c.dos != [] && Last(c.dos) == |c.ops|
    requires Subsequence(c.qdos, ButLast(c.dos))
    ensures Integrity(c.(qdos := c.qdos + [|c.ops|]))
  {
    var d := c.(qdos := c.qdos + [|c.ops|]);
    assert ButLast(d.qdos) == c.qdos;
    OpenSame(c, d);
  }

  lemma LeaveKeeps(c: Comp)
    requires Integrity(c) && c.dos != []
    ensures Integrity(LeaveStep(c).value)
  {
    hide Integrity;
    var d := Emit(c, [OP_UNLOOP]);
    EmitKeeps(c, [OP_UNLOOP]);
    LeaveMarks(d);
    LeaveJumpKeeps(d, EmitCell(d, OP_JMP, 0).(leaves := d.leaves + [|d.ops| + 1]));
  }

  lemma LeaveJumpKeeps(d: Comp, r: Comp)
    requires Integrity(d) && r == EmitCell(d, OP_JMP, 0).(leaves := d.leaves + [|d.ops| + 1])
    requires forall i :: 0 <= i < |d.leaves| ==> d.leaves[i] <= |d.ops|
    ensures Integrity(r)
  {
    AppendSound(d.ops, Open(d), [OP_JMP] + ToBytes(Wrap(0)), Open(r));
    MarksKept(d, r.(leaves := d.leaves));
  }

  lemma LeaveMarks(c: Comp)
    requires Integrity(c)
    ensures forall i :: 0 <= i < |c.leaves| ==> c.leaves[i] <= |c.ops|
  {
    forall i | 0 <= i < |c.leaves| ensures c.leaves[i] <= |c.ops| {
      assert c.leaves[i] in Open(c);
    }
  }

  lemma OfKeeps(c: Comp)
    requires Integrity(c)
    ensures Integrity(OfStep(c))
  {
    var d := Emit(c, [OP_OVER, OP_EQ]);
    TwoKeep(c, OP_OVER, OP_EQ);
    hide Integrity;
    OfJumpKeeps(d, EmitCell(d, OP_JZ, 0).(ofs := c.ofs + [|c.ops| + 3]));
  }

  lemma OfJumpKeeps(d: Comp, e: Comp)
    requires Integrity(d) && e == EmitCell(d, OP_JZ, 0).(ofs := d.ofs + [|d.ops| + 1])
    ensures Integrity(Emit(e, [OP_DROP]))
  {
    EmitOpenKeeps(d, OP_JZ, e);
    hide Integrity;
    EmitKeeps(e, [OP_DROP]);
  }

  lemma EndOfOpen(c: Comp)
    requires c.ofs != []
    ensures Last(c.ofs) in Open(c)
    ensures Open(EndOfStep(c).value) == Open(c) + multiset{|c.ops| + 1} - multiset{Last(c.ofs)}
  {
    PopMultiset(c.ofs);
  }

  lemma EndOfKeeps(c: Comp)
    requires Integrity(c) && c.ofs != [] && |c.ops| + 5 < WORD
    ensures Integrity(EndOfStep(c).value)
  {
    hide Open, MarksSound, JumpsSound;
    EndOfOpen(c);
    SwapOpenSound(c.ops, Open(c), OP_JMP, Last(c.ofs));
    MarksKept(c, EndOfStep(c).value);
  }

  /** The open operands on cases, leaving out the marks. */
  ghost function CaseHoles(cases: seq<Mark>): multiset<int> {
    multiset(cases)[-1 := 0]
  }

  lemma {:induction false} ResolveCasesSound(ops: seq<Byte>, rest: multiset<int>, cases: seq<Mark>)
    requires JumpsSound(ops, rest + CaseHoles(cases)) && |ops| < WORD
    ensures var r := ResolveCases(ops, cases);
            JumpsSound(r.0, rest + CaseHoles(r.1)) && SameStarts(ops, r.0)
    decreases |cases|
  {
    if cases != [] {
      var h := Last(cases);
      PopMultiset(cases);
      if h == -1 {
        assert CaseHoles(ButLast(cases)) == CaseHoles(cases);
      } else {
        var open := rest + CaseHoles(cases);
        var ops' := Patch(ops, h, |ops| - h + 1);
        assert open - multiset{h} == rest + CaseHoles(ButLast(cases));
        ResolveSound(ops, open, h, |ops|);
        ResolveCasesSound(ops', rest, ButLast(cases));
      }
    }
  }

  /** One LEAVE, the newest, is resolved to the end of the code. */
  lemma ResolveOneLeave(ops: seq<Byte>, rest: multiset<int>, leaves: seq<nat>)
    requires JumpsSound(ops, rest + multiset(leaves)) && leaves != [] && |ops| < WORD
    ensures var h := Last(leaves); var e := Patch(ops, h, |ops| - h + 1);
            && 1 <= h <= |ops| - 4 && StartsJump(ops, h - 1)
            && JumpsSound(e, rest + multiset(ButLast(leaves))) && SameStarts(ops, e)
            && StartsJump(e, h - 1) && Target(e, h - 1) == |ops|
  {
    var h := Last(leaves);
    PopMultiset(leaves);
    var open := rest + multiset(leaves);
    assert open - multiset{h} == rest + multiset(ButLast(leaves));
    HoleInside(ops, open, h);
    JumpsEnd(ops, open);
    hide JumpsSound;
    ResolveSound(ops, open, h, |ops|);
    PatchedTarget(ops, h - 1, |ops|);
  }

  lemma {:induction false} ResolveLeavesSound(ops: seq<Byte>, rest: multiset<int>, leaves: seq<nat>, i: nat)
    requires JumpsSound(ops, rest + multiset(leaves)) && |ops| < WORD
    ensures var r := ResolveLeaves(ops, leaves, i);
            JumpsSound(r.0, rest + multiset(r.1)) && SameStarts(ops, r.0)
    decreases |leaves|
  {
    hide JumpsSound;
    if leaves != [] && Last(leaves) > i {
      ResolveOneLeave(ops, rest, leaves);
      ResolveLeavesSound(Patch(ops, Last(leaves), |ops| - Last(leaves) + 1), rest, ButLast(leaves), i);
    }
  }

  lemma EndCaseKeeps(c: Comp)
    requires Integrity(c) && c.cases != [] && |c.ops| + 1 < WORD
    ensures Integrity(EndCaseStep(c).value)
  {
    var d := Emit(c, [OP_DROP]);
    var r := EndCaseStep(c).value;
    EmitKeeps(c, [OP_DROP]);
    hide MarksSound, JumpsSound;
    var rest := multiset(c.ifs) + multiset(c.whiles) + multiset(c.leaves) + multiset(c.ofs);
    ResolveCasesSound(d.ops, rest, c.cases);
    MarksKept(d, r);
  }

  // LOOP

  lemma LoopLeavesKeep(c: Comp, op: Byte)
    requires Integrity(c) && c.dos != [] && Len(op) == 1 && |c.ops| + 1 < WORD
    ensures Integrity(LoopLeaves(c, op))
  {
    var d := Emit(c, [op]);
    EmitKeeps(c, [op]);
    LeavesLast(d);
    hide MarksSound, JumpsSound;
    var rest := multiset(c.ifs) + multiset(c.whiles) + multiset(c.ofs) + multiset(c.cases)[-1 := 0];
    ResolveLeavesSound(d.ops, rest, c.leaves, Last(c.dos));
    LeavesLast(LoopLeaves(c, op));
    MarksKept(d, LoopLeaves(c, op));
  }

  lemma LeavesLast(c: Comp)
    ensures Open(c) == multiset(c.ifs) + multiset(c.whiles) + multiset(c.ofs) + multiset(c.cases)[-1 := 0]
            + multiset(c.leaves)
  {
  }

  /** A loop start and its ?DO are taken off together. */
  lemma PopDo(c: Comp)
    requires Integrity(c) && c.dos != []
    ensures c.qdos != [] && Last(c.qdos) >= Last(c.dos) ==>
              Last(c.qdos) == Last(c.dos) && Integrity(c.(dos := ButLast(c.dos), qdos := ButLast(c.qdos)))
    ensures !(c.qdos != [] && Last(c.qdos) >= Last(c.dos)) ==> Integrity(c.(dos := ButLast(c.dos)))
  {
    if c.qdos != [] {
      SubsequenceLast(c.qdos, c.dos);
    }
    OpenSame(c, c.(dos := ButLast(c.dos)));
    if c.qdos != [] {
      OpenSame(c, c.(dos := ButLast(c.dos), qdos := ButLast(c.qdos)));
    }
  }

  lemma LoopKeeps(c: Comp, op: Byte)
    requires Integrity(c) && c.dos != [] && Len(op) == 1 && |c.ops| + 1 < WORD
    ensures Integrity(LoopStep(c, op).value)
  {
    var d := LoopLeaves(c, op);
    LoopLeavesKeep(c, op);
    hide Integrity;
    PopDo(d);
    if c.qdos != [] && Last(c.qdos) >= Last(c.dos) {
      var e := d.(dos := ButLast(c.dos), qdos := ButLast(c.qdos));
      if c.ifs != [] {
        ThenKeeps(e);
      }
    }
  }

  lemma {:induction false} ResolveLeavesStays(ops: seq<Byte>, rest: multiset<int>, leaves: seq<nat>, i: nat, q: nat)
    requires JumpsSound(ops, rest + multiset(leaves)) && |ops| < WORD
    requires StartsJump(ops, q) && q + 5 <= |ops| && q + 1 !in leaves
    ensures Target(ResolveLeaves(ops, leaves, i).0, q) == Target(ops, q)
    decreases |leaves|
  {
    hide JumpsSound, StartsJump, Target, SameStarts;
    if leaves != [] && Last(leaves) > i {
      var h := Last(leaves);
      ResolveOneLeave(ops, rest, leaves);
      OtherJumpStays(ops, h - 1, |ops| - h + 1, q);
      ResolveLeavesStays(Patch(ops, h, |ops| - h + 1), rest, ButLast(leaves), i, q);
    }
  }

  /** The operand at h, recorded after i, leads to the end of the code. */
  ghost predicate OwnLeave(code: seq<Byte>, h: nat, i: nat) {
    h > i && 1 <= h <= |code| - 4 && Target(code, h - 1) == |code|
  }

  ghost predicate OwnLeaves(code: seq<Byte>, leaves: seq<nat>, from: nat, i: nat) {
    forall k | from <= k < |leaves| :: OwnLeave(code, leaves[k], i)
  }

  lemma OwnLeavesSnoc(code: seq<Byte>, leaves: seq<nat>, from: nat, i: nat)
    requires leaves != [] && OwnLeaves(code, ButLast(leaves), from, i) && OwnLeave(code, Last(leaves), i)
    ensures OwnLeaves(code, leaves, from, i)
  {
    forall k | from <= k < |leaves| ensures OwnLeave(code, leaves[k], i) {
      assert k < |leaves| - 1 ==> ButLast(leaves)[k] == leaves[k];
    }
  }

  /** What ResolveLeaves takes off the stack is exactly what was recorded after i. */
  lemma {:induction false} ResolveLeavesExact(ops: seq<Byte>, rest: multiset<int>, leaves: seq<nat>, i: nat)
    requires JumpsSound(ops, rest + multiset(leaves)) && |ops| < WORD && Increasing(leaves)
    ensures var r := ResolveLeaves(ops, leaves, i); Below(r.1, i) && OwnLeaves(r.0, leaves, |r.1|, i)
    decreases |leaves|
  {
    hide JumpsSound, StartsJump, Target, SameStarts, OwnLeaves, Patch;
    var r := ResolveLeaves(ops, leaves, i);
    if leaves == [] || Last(leaves) <= i {
      assert OwnLeaves(ops, leaves, |leaves|, i) by { NoLeaves(ops, leaves, i); }
    } else {
      var h := Last(leaves);
      var e := Patch(ops, h, |ops| - h + 1);
      ResolveOneLeave(ops, rest, leaves);
      ResolveLeavesExact(e, rest, ButLast(leaves), i);
      ResolveLeavesStays(e, rest, ButLast(leaves), i, h - 1);
      OwnLeavesSnoc(r.0, leaves, |r.1|, i);
    }
  }

  lemma NoLeaves(code: seq<Byte>, leaves: seq<nat>, i: nat)
    ensures OwnLeaves(code, leaves, |leaves|, i)
  {
  }

  /**
   * LOOP resolves exactly the LEAVEs compiled since its own DO, all of them to the
   * byte behind it, and takes off a ?DO only if that was its own.
   */
  lemma LoopResolvesOwn(c: Comp, op: Byte)
    requires Integrity(c) && c.dos != [] && Len(op) == 1 && |c.ops| + 1 < WORD
    ensures var r := LoopLeaves(c, op);
            && |r.ops| == |c.ops| + 1 && r.leaves <= c.leaves && Below(r.leaves, Last(c.dos))
            && OwnLeaves(r.ops, c.leaves, |r.leaves|, Last(c.dos))
    ensures c.qdos != [] ==> Last(c.qdos) <= Last(c.dos)
  {
    var d := Emit(c, [op]);
    EmitKeeps(c, [op]);
    LeavesLast(d);
    PopDo(c);
    hide JumpsSound, OwnLeaves;
    var rest := multiset(c.ifs) + multiset(c.whiles) + multiset(c.ofs) + multiset(c.cases)[-1 := 0];
    ResolveLeavesExact(d.ops, rest, c.leaves, Last(c.dos));
  }

  // words with no jump of their own, and ABORT"

  lemma RecurseKeeps(c: Comp)
    requires Integrity(c)
    ensures Integrity(RecurseStep(c))
  {
    hide Integrity, SameStarts;
    var x := [OP_ADDR] + ToBytes(Wrap(0));
    EmitKeeps(c, x);
    MarkRecurse(c, Emit(c, x));
    EmitKeeps(Emit(c, x).(recs := c.recs + [|c.ops| + 1]), [OP_EXECUTE_BC]);
  }

  lemma MarkRecurse(c: Comp, d: Comp)
    requires Integrity(c) && Integrity(d) && SameStarts(c.ops, d.ops)
    requires d == Emit(c, [OP_ADDR] + ToBytes(Wrap(0)))
    ensures Integrity(d.(recs := c.recs + [|c.ops| + 1]))
  {
    assert Boundary(c.ops, |c.ops|) && d.ops[|c.ops|] == OP_ADDR;
    OpenSame(d, d.(recs := c.recs + [|c.ops| + 1]));
  }

  /** An open operand that already leads to a boundary need not be recorded. */
  lemma CloseSound(code: seq<Byte>, open: multiset<int>, h: nat)
    requires JumpsSound(code, open + multiset{h}) && h >= 1 && h !in open && Resolved(code, h - 1)
    ensures JumpsSound(code, open)
  {
    forall g | g in open ensures open[g] == 1 && StartsJump(code, g - 1) {
      assert g in open + multiset{h};
    }
    forall p: nat | StartsJump(code, p) && p + 1 !in open ensures Resolved(code, p) {
      assert p + 1 == h || p + 1 !in open + multiset{h};
    }
  }

  lemma PlainSound(code: seq<Byte>, open: multiset<int>, x: seq<Byte>)
    requires JumpsSound(code, open) && x != [] && |x| == Len(x[0]) && !IsJump(x[0])
    ensures JumpsSound(code + x, open) && SameStarts(code, code + x)
  {
    AppendSound(code, open, x, open);
  }

  lemma AbortQuoteKeeps(c: Comp, name: Cell, count: Cell, text: Cell)
    requires Integrity(c) && |c.ops| + 25 < WORD
    ensures Integrity(AbortQuoteStep(c, name, count, text))
  {
    hide Open, MarksSound;
    var r := AbortQuoteStep(c, name, count, text);
    AbortQuoteSound(c.ops, Open(c), name, count, text, r.ops);
    OpenSame(c, r);
    MarksKept(c, r);
  }

  /** The fixed count of ABORT" is the length of the instructions it skips. */
  lemma AbortQuoteSound(code: seq<Byte>, open: multiset<int>, name: Cell, count: Cell, text: Cell, code': seq<Byte>)
    requires JumpsSound(code, open) && |code| + 25 < WORD
    requires code' == AbortQuoteStep(EMPTY.(ops := code), name, count, text).ops
    ensures JumpsSound(code', open) && Extends(code, code')
  {
    var h := |code| + 1;
    var x := [OP_JZ] + ToBytes(Wrap(25));
    assert h in open ==> StartsJump(code, h - 1);
    AppendSound(code, open, x, open + multiset{h});
    JumpsEnd(code, open);
    hide JumpsSound;
    AbortQuoteBody(code + x, open + multiset{h}, name, count, text, code');
    AbortQuoteTarget(code, code');
    JumpsEnd(code', open + multiset{h});
    CloseSound(code', open, h);
  }

  lemma AbortQuoteTarget(code: seq<Byte>, code': seq<Byte>)
    requires |code'| == |code| + 25 < WORD
    requires code + ([OP_JZ] + ToBytes(Wrap(25))) <= code'
    ensures Target(code', |code|) == |code'|
  {
    var e := code + ([OP_JZ] + ToBytes(Wrap(25)));
    AppendedTarget(code, OP_JZ, |code| + 25);
    assert code'[|code| + 1..|code| + 5] == e[|code| + 1..|code| + 5];
  }

  lemma AbortQuoteBody(code: seq<Byte>, open: multiset<int>, name: Cell, count: Cell, text: Cell, code': seq<Byte>)
    requires JumpsSound(code, open)
    requires code' == code + ([OP_ADDR] + ToBytes(Wrap(name))) + ([OP_IVAL] + ToBytes(Wrap(count))) + [OP_TYPE]
                      + ([OP_ADDR] + ToBytes(Wrap(text))) + [OP_COUNT, OP_TYPE, OP_CR, OP_ABORT]
    ensures JumpsSound(code', open) && Extends(code, code')
  {
    var c2 := code + ([OP_ADDR] + ToBytes(Wrap(name)));
    PlainSound(code, open, [OP_ADDR] + ToBytes(Wrap(name)));
    hide JumpsSound, Boundary;
    var c3 := c2 + ([OP_IVAL] + ToBytes(Wrap(count)));
    PlainSound(c2, open, [OP_IVAL] + ToBytes(Wrap(count)));
    var c4 := c3 + [OP_TYPE];
    PlainSound(c3, open, [OP_TYPE]);
    var c5 := c4 + ([OP_ADDR] + ToBytes(Wrap(text)));
    PlainSound(c4, open, [OP_ADDR] + ToBytes(Wrap(text)));
    AbortQuoteTail(c5, open, code');
  }

  lemma AbortQuoteTail(code: seq<Byte>, open: multiset<int>, code': seq<Byte>)
    requires JumpsSound(code, open) && code' == code + [OP_COUNT, OP_TYPE, OP_CR, OP_ABORT]
    ensures JumpsSound(code', open) && Extends(code, code')
  {
    PlainSound(code, open, [OP_COUNT]);
    hide JumpsSound, Boundary;
    PlainSound(code + [OP_COUNT], open, [OP_TYPE]);
    PlainSound(code + [OP_COUNT] + [OP_TYPE], open, [OP_CR]);
    PlainSound(code + [OP_COUNT] + [OP_TYPE] + [OP_CR], open, [OP_ABORT]);
    assert code' == code + [OP_COUNT] + [OP_TYPE] + [OP_CR] + [OP_ABORT];
  }

  // ----- whole definitions -----

  lemma StepKeeps(c: Comp, t: Token)
    requires Integrity(c) && Recognised(t) && Step(c, t).Ok? && |Step(c, t).value.ops| < WORD
    ensures Integrity(Step(c, t).value) && |c.ops| <= |Step(c, t).value.ops|
  {
    hide Integrity, Parses, Patch, ResolveLeaves, ResolveCases, Wrap;
    match t
    case Op(op) => EmitKeeps(c, [op]);
    case OpCell(op, n) => EmitKeeps(c, [op] + ToBytes(Wrap(n)));
    case OpDouble(op, lo, hi) =>
      EmitKeeps(c, [op] + ToBytes(Wrap(lo)) + ToBytes(hi));
      assert Step(c, t).value == Emit(c, [op] + ToBytes(Wrap(lo)) + ToBytes(hi));
    case If => IfKeeps(c);
    case Else => ElseKeeps(c);
    case Then => ThenKeeps(c);
    case Begin => MarkBegin(c);
    case While => WhileKeeps(c);
    case Repeat => RepeatKeeps(c);
    case Until => BackKeeps(c, OP_JZ);
    case Again => BackKeeps(c, OP_JMP);
    case _ =>
      if t.Do? || t.QueryDo? || t.Loop? || t.Leave? || t.Unloop? { LoopWordsKeep(c, t); } else { CaseWordsKeep(c, t); }
  }

  lemma LoopWordsKeep(c: Comp, t: Token)
    requires Integrity(c) && Step(c, t).Ok? && |Step(c, t).value.ops| < WORD
    requires t.Do? || t.QueryDo? || t.Loop? || t.Leave? || t.Unloop?
    ensures Integrity(Step(c, t).value) && |c.ops| <= |Step(c, t).value.ops|
  {
    hide Integrity, Parses, Patch, ResolveLeaves, Wrap;
    match t
    case Do => DoKeeps(c);
    case QueryDo => QueryDoKeeps(c);
    case Loop(plus) => LoopKeeps(c, if plus then OP_PLUSLOOP else OP_LOOP);
    case Leave => LeaveKeeps(c);
    case Unloop => EmitKeeps(c, [OP_UNLOOP]);
  }

  lemma CaseWordsKeep(c: Comp, t: Token)
    requires Integrity(c) && Step(c, t).Ok? && |Step(c, t).value.ops| < WORD
    requires t.Case? || t.Of? || t.EndOf? || t.EndCase? || t.Recurse? || t.AbortQuote?
    ensures Integrity(Step(c, t).value) && |c.ops| <= |Step(c, t).value.ops|
  {
    hide Integrity, Parses, Patch, ResolveCases, Wrap;
    match t
    case Case => MarkCase(c);
    case Of => OfKeeps(c);
    case EndOf => EndOfKeeps(c);
    case EndCase => EndCaseKeeps(c);
    case Recurse => RecurseKeeps(c);
    case AbortQuote(name, count, text) => AbortQuoteKeeps(c, name, count, text);
  }

  lemma MarkBegin(c: Comp)
    requires Integrity(c)
    ensures Integrity(c.(begins := c.begins + [|c.ops|]))
  {
    OpenSame(c, c.(begins := c.begins + [|c.ops|]));
  }

  lemma MarkCase(c: Comp)
    requires Integrity(c)
    ensures Integrity(c.(cases := c.cases + [-1]))
  {
    assert CaseHoles(c.cases + [-1]) == CaseHoles(c.cases);
    assert Open(c.(cases := c.cases + [-1])) == Open(c);
  }

  /** The invariant holds after any error-free sequence of compile words, well nested or not. */
  lemma {:induction false} CompileKeeps(c: Comp, ts: seq<Token>)
    requires Integrity(c) && (forall i :: 0 <= i < |ts| ==> Recognised(ts[i]))
    requires Compile(c, ts).Ok? && |Compile(c, ts).value.ops| < WORD
    ensures Integrity(Compile(c, ts).value) && |c.ops| <= |Compile(c, ts).value.ops|
    decreases |ts|
  {
    if ts != [] {
      var d := Step(c, ts[0]).value;
      CompileGrows(d, ts[1..]);
      StepKeeps(c, ts[0]);
      CompileKeeps(d, ts[1..]);
    }
  }

  lemma StepGrows(c: Comp, t: Token)
    requires Step(c, t).Ok?
    ensures |c.ops| <= |Step(c, t).value.ops|
  {
  }

  lemma StepBounded(c: Comp, t: Token)
    ensures Step(c, t).Ok? ==> |Step(c, t).value.ops| <= |c.ops| + 26
  {
  }

  lemma {:induction false} CompileGrows(c: Comp, ts: seq<Token>)
    requires Compile(c, ts).Ok?
    ensures |c.ops| <= |Compile(c, ts).value.ops|
    decreases |ts|
  {
    hide Step;
    if ts != [] {
      StepGrows(c, ts[0]);
      CompileGrows(Step(c, ts[0]).value, ts[1..]);
    }
  }

  /** Finished code: whole instructions ending in RET, every jump to the start of one of them. */
  ghost predicate JumpsClosed(code: seq<Byte>) {
    && code != [] && Boundary(code, |code|)
    && Boundary(code, |code| - 1) && code[|code| - 1] == OP_RET
    && forall p: nat | StartsJump(code, p) ::
         p + 5 <= |code| && Target(code, p) < |code| && Boundary(code, Target(code, p))
  }

  lemma NothingOpen(c: Comp)
    requires Integrity(c) && Unfinished(c) == 0
    ensures JumpsSound(c.ops, multiset{}) && c.qdos == []
  {
    assert Open(c) == multiset{};
  }

  lemma RetCloses(ops: seq<Byte>)
    requires JumpsSound(ops, multiset{})
    ensures JumpsClosed(ops + [OP_RET]) && SameStarts(ops, ops + [OP_RET])
  {
    var code := ops + [OP_RET];
    PlainSound(ops, multiset{}, [OP_RET]);
    forall p: nat | StartsJump(code, p)
      ensures p + 5 <= |code| && Target(code, p) < |code| && Boundary(code, Target(code, p))
    {
      assert StartsJump(ops, p) && Resolved(ops, p);
      assert code[p + 1..p + 5] == ops[p + 1..p + 5];
    }
  }

  /** Writing the code address into a RECURSE changes no jump and no other operand. */
  lemma PatchRecurse(code: seq<Byte>, p: nat, cfa: Cell)
    requires JumpsClosed(code) && IsAddr(code, p)
    ensures p + 5 <= |code| && JumpsClosed(Patch(code, p + 1, cfa)) && SameStarts(code, Patch(code, p + 1, cfa))
  {
    hide Parses, Patch, FromBytes, ToBytes;
    ParsesApart(code, 0, p, |code|);
    var e := Patch(code, p + 1, cfa);
    PatchStarts(code, p, cfa);
    forall q: nat | StartsJump(e, q)
      ensures q + 5 <= |e| && Target(e, q) < |e| && Boundary(e, Target(e, q))
    {
      assert StartsJump(code, q);
      OperandStays(code, p, cfa, q);
      assert Boundary(code, Target(code, q));
    }
  }

  lemma OperandStays(code: seq<Byte>, p: nat, v: int, q: nat)
    requires p + 5 <= |code| && Boundary(code, p) && Len(code[p]) == 5
    requires q + 5 <= |code| && Boundary(code, q) && Len(code[q]) == 5 && q != p
    ensures Operand(Patch(code, p + 1, v), q) == Operand(code, q)
  {
    if q < p { ParsesApart(code, 0, q, p); } else { ParsesApart(code, 0, p, q); }
    assert Patch(code, p + 1, v)[q + 1..q + 5] == code[q + 1..q + 5];
  }

  lemma {:induction false} RecursionSound(code: seq<Byte>, recs: seq<nat>, cfa: Cell)
    requires JumpsClosed(code) && StartsAddr(code, recs)
    ensures JumpsClosed(ResolveRecursion(code, recs, cfa))
    decreases |recs|
  {
    hide JumpsClosed, IsAddr;
    if recs != [] {
      PatchRecurse(code, Last(recs) - 1, cfa);
      StartsKept(code, Patch(code, Last(recs), cfa), ButLast(recs));
      RecursionSound(Patch(code, Last(recs), cfa), ButLast(recs), cfa);
    }
  }

  /** One RECURSE is resolved: it holds the code address, and the others are as before. */
  lemma PatchOneRecurse(code: seq<Byte>, q: nat, cfa: Cell, p: nat)
    requires JumpsClosed(code) && IsAddr(code, q) && IsAddr(code, p)
    ensures p + 5 <= |code| && IsAddr(Patch(code, q + 1, cfa), p)
    ensures Operand(Patch(code, q + 1, cfa), p) == if p == q then cfa else Operand(code, p)
  {
    hide Parses, Patch, FromBytes, ToBytes, Target;
    ParsesApart(code, 0, p, |code|);
    ParsesApart(code, 0, q, |code|);
    PatchStarts(code, q, cfa);
    if q == p { PatchedOperand(code, q, cfa); } else { OperandStays(code, q, cfa, p); }
  }

  lemma PatchedOperand(code: seq<Byte>, q: nat, v: Cell)
    requires q + 5 <= |code|
    ensures Operand(Patch(code, q + 1, v), q) == v
  {
    hide FromBytes, ToBytes;
    WrapCell(v);
    FromToBytes(v);
  }

  /** A RECURSE holds the code address once resolved, whatever is resolved after it. */
  lemma {:induction false} RecursionTarget(code: seq<Byte>, recs: seq<nat>, cfa: Cell, p: nat)
    requires JumpsClosed(code) && StartsAddr(code, recs) && IsAddr(code, p)
    requires p + 1 in recs || (p + 5 <= |code| && Operand(code, p) == cfa)
    ensures p + 5 <= |code| && Operand(ResolveRecursion(code, recs, cfa), p) == cfa
    decreases |recs|
  {
    hide JumpsClosed, IsAddr, Operand;
    if recs != [] {
      var q := Last(recs) - 1;
      PatchRecurse(code, q, cfa);
      PatchOneRecurse(code, q, cfa, p);
      var e := Patch(code, q + 1, cfa);
      StartsKept(code, e, ButLast(recs));
      assert recs == ButLast(recs) + [q + 1];
      RecursionTarget(e, ButLast(recs), cfa, p);
    }
  }

  lemma StartIntegrity()
    ensures Integrity(EMPTY)
  {
    assert Open(EMPTY) == multiset{};
  }

  lemma RecursesAreAddr(c: Comp)
    requires Integrity(c)
    ensures StartsAddr(c.ops, c.recs)
  {
  }

  /** What `;` makes of a state with nothing unfinished. */
  lemma FinishSound(c: Comp, cfa: Cell)
    requires Integrity(c) && Finish(c, cfa).Ok?
    ensures JumpsClosed(Finish(c, cfa).value) && c.qdos == []
    ensures forall h | h in c.recs ::
              1 <= h <= |Finish(c, cfa).value| - 4 && Operand(Finish(c, cfa).value, h - 1) == cfa
  {
    hide Integrity, JumpsClosed, JumpsSound;
    NothingOpen(c);
    RecursesAreAddr(c);
    RetCloses(c.ops);
    StartsKept(c.ops, c.ops + [OP_RET], c.recs);
    RecursionSound(c.ops + [OP_RET], c.recs, cfa);
    forall h | h in c.recs ensures 1 <= h <= |c.ops| - 3 && Operand(Finish(c, cfa).value, h - 1) == cfa {
      RecurseTarget(c.ops + [OP_RET], c.recs, cfa, h);
    }
  }

  lemma RecurseTarget(code: seq<Byte>, recs: seq<nat>, cfa: Cell, h: nat)
    requires JumpsClosed(code) && StartsAddr(code, recs) && h in recs
    ensures 1 <= h <= |code| - 4 && Operand(ResolveRecursion(code, recs, cfa), h - 1) == cfa
  {
    assert IsAddr(code, h - 1);
    hide JumpsClosed, StartsAddr;
    RecursionTarget(code, recs, cfa, h - 1);
  }

  /**
   * A definition accepted by `;` has no open jump, jumps only to its own
   * instructions, and calls itself in every RECURSE.
   */
  lemma DefinitionSound(ts: seq<Token>, c: Comp, cfa: Cell)
    requires forall i :: 0 <= i < |ts| ==> Recognised(ts[i])
    requires Compile(EMPTY, ts) == Ok(c) && Finish(c, cfa).Ok? && |Finish(c, cfa).value| < WORD
    ensures JumpsClosed(Finish(c, cfa).value) && c.qdos == []
    ensures forall h | h in c.recs ::
              1 <= h <= |Finish(c, cfa).value| - 4 && Operand(Finish(c, cfa).value, h - 1) == cfa
  {
    hide Integrity, JumpsClosed;
    StartIntegrity();
    CompileKeeps(EMPTY, ts);
    FinishSound(c, cfa);
  }
}
