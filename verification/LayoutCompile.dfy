/**
 * Compiling the words of a well-nested statement, with forward jumps patched
 * later, lays its code out as Layout says and leaves every stack as it was, but
 * for the LEAVEs and RECURSEs it adds.
 */
module LayoutCompile {
  import opened Cells
  import opened ByteCode
  import opened ControlWords
  import opened Sequences
  import opened Structured
  import opened LayoutFrame
  import JumpIntegrity

  /** What the words of a statement find: a loop if they need one, and older marks behind them. */
  predicate Ready(c: Comp, inLoop: bool) {
    (inLoop ==> c.dos != []) && Below(c.leaves, |c.ops|) && Below(c.qdos, |c.ops|)
  }

  predicate Grown(c: Comp, d: Comp, n: nat) {
    c.ops <= d.ops && |d.ops| == |c.ops| + n
  }

  /** Only the code has grown, and the LEAVEs and RECURSEs of s have been recorded. */
  predicate Kept(c: Comp, d: Comp, s: Stmt) {
    && Grown(c, d, Size(s))
    && d == c.(ops := d.ops, leaves := c.leaves + Leaves(s, |c.ops|), recs := c.recs + Recs(s, |c.ops|))
  }

  /** Compiling s in state c gives state d. */
  predicate Built(env: seq<Cell>, c: Comp, d: Comp, s: Stmt) {
    Kept(c, d, s) && Layout(env, d.ops, s, |c.ops|)
  }

  predicate ChainKept(c: Comp, d: Comp, ch: Chain) {
    && Grown(c, d, ChainSize(ch) - 1)
    && d == c.(ops := d.ops, leaves := c.leaves + ChainLeaves(ch, |c.ops|), recs := c.recs + ChainRecs(ch, |c.ops|),
               cases := c.cases + EndOfs(ch, |c.ops|))
  }

  /** Compiling a chain gives state d; its code is complete with the DROP of ENDCASE. */
  predicate ChainBuilt(env: seq<Cell>, c: Comp, d: Comp, ch: Chain) {
    ChainKept(c, d, ch) && ChainLayout(env, d.ops + [OP_DROP], ch, |c.ops|)
  }

  // ----- words one after the other -----

  lemma {:induction false} CompileAppend(c: Comp, xs: seq<Token>, ys: seq<Token>)
    ensures Compile(c, xs + ys) == var r := Compile(c, xs); if r.Ok? then Compile(r.value, ys) else r
    decreases |xs|
  {
    if xs == [] {
      assert xs + ys == ys;
    } else {
      assert (xs + ys)[1..] == xs[1..] + ys;
      var r := Step(c, xs[0]);
      if r.Ok? { CompileAppend(r.value, xs[1..], ys); }
    }
  }

  lemma CompileOne(c: Comp, t: Token)
    ensures Compile(c, [t]) == Step(c, t)
  {
    var r := Step(c, t);
    if r.Ok? { assert Compile(r.value, []) == r; }
  }

  /** A word, then more words. */
  lemma CompileCons(c: Comp, t: Token, ys: seq<Token>)
    requires Step(c, t).Ok?
    ensures Compile(c, [t] + ys) == Compile(Step(c, t).value, ys)
  {
    hide Step;
    CompileOne(c, t);
    CompileAppend(c, [t], ys);
  }

  /** Words that compile, then one more word. */
  lemma CompileSnoc(c: Comp, xs: seq<Token>, d: Comp, t: Token)
    requires Compile(c, xs) == Ok(d)
    ensures Compile(c, xs + [t]) == Step(d, t)
  {
    hide Step;
    CompileAppend(c, xs, [t]);
    CompileOne(d, t);
  }

  // ----- layout in growing and patched code -----

  lemma LayoutAway(env: seq<Cell>, code: seq<Byte>, code': seq<Byte>, s: Stmt, p: nat)
    requires Layout(env, code, s, p) && Same(code, code', p, p + Size(s))
    ensures Layout(env, code', s, p)
  {
    LayoutSame(env, code, code', s, p, true);
  }

  lemma LayoutPrefix(env: seq<Cell>, code: seq<Byte>, code': seq<Byte>, s: Stmt, p: nat)
    requires Layout(env, code, s, p) && code <= code'
    ensures Layout(env, code', s, p)
  {
    LayoutAway(env, code, code', s, p);
  }

  /** A forward jump that has just been resolved. */
  lemma PatchedJump(code: seq<Byte>, p: nat, op: Byte, t: nat)
    requires p + 5 <= |code| && code[p] == op
    ensures JumpAt(Patch(code, p + 1, t - p), p, op, t)
  {
    FromToBytes(Wrap(t - p));
  }

  /** A jump back that has just been appended. */
  lemma AppendedCell(code: seq<Byte>, op: Byte, n: Cell)
    ensures CellAt(code + ([op] + ToBytes(n)), |code|, op, n)
  {
    var e := code + ([op] + ToBytes(n));
    assert e[|code| + 1..|code| + 5] == ToBytes(n);
    FromToBytes(n);
  }

  lemma PatchSame(code: seq<Byte>, h: nat, v: int, lo: nat, hi: nat)
    requires h + 4 <= lo || hi <= h
    ensures Same(code, Patch(code, h, v), lo, hi)
  {
  }

  lemma PrefixJump(code: seq<Byte>, code': seq<Byte>, p: nat, op: Byte, t: nat)
    requires JumpAt(code, p, op, t) && code <= code'
    ensures JumpAt(code', p, op, t)
  {
    JumpSame(code, code', p, op, t);
  }

  // ----- one statement at a time -----

  lemma BuildSeq(env: seq<Cell>, c: Comp, d: Comp, e: Comp, a: Stmt, b: Stmt)
    requires Built(env, c, d, a) && Built(env, d, e, b)
    ensures Built(env, c, e, Seq(a, b))
  {
    hide Layout, Size, Leaves, Recs;
    SizeOf(Seq(a, b));
    LeavesOf(Seq(a, b), |c.ops|);
    RecsOf(Seq(a, b), |c.ops|);
    LayoutOf(env, e.ops, Seq(a, b), |c.ops|);
    LayoutPrefix(env, d.ops, e.ops, a, |c.ops|);
  }

  lemma BuildIf(env: seq<Cell>, c: Comp, d: Comp, a: Stmt)
    requires Built(env, IfStep(c), d, a)
    ensures ThenStep(d).Ok? && Built(env, c, ThenStep(d).value, IfThen(a))
  {
    hide Layout, Size, Leaves, Recs, ThenStep, Patch, IfStep;
    IfKept(c, d, a);
    AfterIf(env, c, d, a);
    IfLayout(env, |c.ops|, d.ops, a);
  }

  lemma IfKept(c: Comp, d: Comp, a: Stmt)
    requires Kept(IfStep(c), d, a)
    ensures ThenStep(d).Ok? && Kept(c, ThenStep(d).value, IfThen(a))
    ensures ThenStep(d).value.ops == Patch(d.ops, |c.ops| + 1, |d.ops| - |c.ops|)
  {
    hide Size, Leaves, Recs, ToBytes;
    SizeOf(IfThen(a));
    LeavesOf(IfThen(a), |c.ops|);
    RecsOf(IfThen(a), |c.ops|);
  }

  lemma IfLayout(env: seq<Cell>, p: nat, x: seq<Byte>, a: Stmt)
    requires |x| == p + 5 + Size(a) && x[p] == OP_JZ && Layout(env, x, a, p + 5)
    ensures Layout(env, Patch(x, p + 1, |x| - p), IfThen(a), p)
  {
    hide Layout, Size, JumpAt;
    var r := Patch(x, p + 1, |x| - p);
    LayoutOf(env, r, IfThen(a), p);
    PatchedJump(x, p, OP_JZ, |x|);
    PatchSame(x, p + 1, |x| - p, p + 5, |x|);
    LayoutAway(env, x, r, a, p + 5);
  }

  lemma BuildIfElse(env: seq<Cell>, c: Comp, d: Comp, f: Comp, a: Stmt, b: Stmt)
    requires Built(env, IfStep(c), d, a)
    requires ElseStep(d).Ok? && Built(env, ElseStep(d).value, f, b)
    ensures ThenStep(f).Ok? && Built(env, c, ThenStep(f).value, IfThenElse(a, b))
  {
    IfElseKept(env, c, d, f, a, b);
    IfElseLayout(env, c, d, f, a, b);
  }

  lemma IfElseKept(env: seq<Cell>, c: Comp, d: Comp, f: Comp, a: Stmt, b: Stmt)
    requires Kept(IfStep(c), d, a) && ElseStep(d).Ok? && Kept(ElseStep(d).value, f, b)
    ensures ThenStep(f).Ok? && Kept(c, ThenStep(f).value, IfThenElse(a, b))
  {
    hide Size, Leaves, Recs, ToBytes;
    SizeOf(IfThenElse(a, b));
    LeavesOf(IfThenElse(a, b), |c.ops|);
    RecsOf(IfThenElse(a, b), |c.ops|);
  }

  lemma IfElseLayout(env: seq<Cell>, c: Comp, d: Comp, f: Comp, a: Stmt, b: Stmt)
    requires Built(env, IfStep(c), d, a)
    requires ElseStep(d).Ok? && Built(env, ElseStep(d).value, f, b)
    ensures ThenStep(f).Ok? && Layout(env, ThenStep(f).value.ops, IfThenElse(a, b), |c.ops|)
  {
    hide Layout, Size, Leaves, Recs, JumpAt, ToBytes, Patch;
    var e := ElseStep(d).value;
    IfElseFirst(env, c, d, a);
    assert f.ifs == e.ifs && e.ops <= f.ops;
    IfElseSecond(env, |c.ops|, e.ops, f.ops, a, b);
  }

  lemma IfElseSecond(env: seq<Cell>, p: nat, e: seq<Byte>, f: seq<Byte>, a: Stmt, b: Stmt)
    requires var m := p + 5 + Size(a);
             && |e| == m + 5 && e[m] == OP_JMP && JumpAt(e, p, OP_JZ, m + 5) && Layout(env, e, a, p + 5)
             && e <= f && |f| == m + 5 + Size(b) && Layout(env, f, b, m + 5)
    ensures var m := p + 5 + Size(a); Layout(env, Patch(f, m + 1, |f| - m), IfThenElse(a, b), p)
  {
    hide Layout, Size, JumpAt;
    var m := p + 5 + Size(a);
    var r := Patch(f, m + 1, |f| - m);
    LayoutOf(env, r, IfThenElse(a, b), p);
    assert Same(e, r, p, m);
    JumpSame(e, r, p, OP_JZ, m + 5);
    LayoutAway(env, e, r, a, p + 5);
    PatchedJump(f, m, OP_JMP, |f|);
    LayoutAway(env, f, r, b, m + 5);
  }

  /** What IF and a first branch leave. */
  lemma AfterIf(env: seq<Cell>, c: Comp, d: Comp, a: Stmt)
    requires Built(env, IfStep(c), d, a)
    ensures var p := |c.ops|;
            && |d.ops| == p + 5 + Size(a) && d.ops[p] == OP_JZ && c.ops <= d.ops && d.ifs == c.ifs + [p + 1]
            && Layout(env, d.ops, a, p + 5)
  {
    hide Layout, Size, Leaves, Recs, ToBytes;
  }

  lemma ElseIs(d: Comp, h: nat)
    requires d.ifs != [] && Last(d.ifs) == h
    ensures ElseStep(d) == Ok(d.(ops := Patch(d.ops + ([OP_JMP] + ToBytes(Wrap(0))), h, |d.ops| + 5 - h + 1),
                                 ifs := ButLast(d.ifs) + [|d.ops| + 1]))
  {
    hide Patch, ToBytes;
  }

  /** What ELSE leaves: the test and the first branch, and its own jump still open. */
  lemma IfElseFirst(env: seq<Cell>, c: Comp, d: Comp, a: Stmt)
    requires Built(env, IfStep(c), d, a)
    ensures ElseStep(d).Ok?
    ensures var e := ElseStep(d).value; var m := |d.ops|;
            && |e.ops| == m + 5 && e.ops[m] == OP_JMP && JumpAt(e.ops, |c.ops|, OP_JZ, m + 5)
            && Layout(env, e.ops, a, |c.ops| + 5) && c.ops <= e.ops && e.ifs == c.ifs + [m + 1]
  {
    hide Layout, Size, JumpAt, Built, IfStep, ElseStep, ToBytes;
    AfterIf(env, c, d, a);
    var p := |c.ops|;
    var m := |d.ops|;
    ElseIs(d, p + 1);
    var x := d.ops + ([OP_JMP] + ToBytes(Wrap(0)));
    var e := ElseStep(d).value;
    PatchedJump(x, p, OP_JZ, m + 5);
    PatchSame(x, p + 1, m + 5 - p, p + 5, m);
    LayoutAway(env, d.ops, e.ops, a, p + 5);
  }

  lemma BuildBack(env: seq<Cell>, c: Comp, d: Comp, a: Stmt, op: Byte, s: Stmt)
    requires Built(env, c.(begins := c.begins + [|c.ops|]), d, a)
    requires (op == OP_JZ && s == BeginUntil(a)) || (op == OP_JMP && s == BeginAgain(a))
    ensures BackStep(d, op).Ok? && Built(env, c, BackStep(d, op).value, s)
  {
    hide Layout, Size, Leaves, Recs, ToBytes, CellAt;
    var p := |c.ops|;
    var r := BackStep(d, op).value;
    SizeOf(s);
    LeavesOf(s, p);
    RecsOf(s, p);
    LayoutOf(env, r.ops, s, p);
    AppendedCell(d.ops, op, Wrap(p - |d.ops|));
    LayoutPrefix(env, d.ops, r.ops, a, p);
  }

  lemma BuildWhile(env: seq<Cell>, c: Comp, d: Comp, f: Comp, a: Stmt, b: Stmt)
    requires Built(env, c.(begins := c.begins + [|c.ops|]), d, a)
    requires WhileStep(d).Ok? && Built(env, WhileStep(d).value, f, b)
    ensures RepeatStep(f).Ok? && Built(env, c, RepeatStep(f).value, BeginWhile(a, b))
  {
    hide Layout, Size, Leaves, Recs, ToBytes, Patch, RepeatStep;
    WhileKept(c, d, f, a, b);
    assert WhileStep(d).value.ops[|d.ops|] == OP_JZ;
    LayoutPrefix(env, d.ops, f.ops, a, |c.ops|);
    WhileLayout(env, |c.ops|, f.ops, a, b);
  }

  lemma WhileKept(c: Comp, d: Comp, f: Comp, a: Stmt, b: Stmt)
    requires Kept(c.(begins := c.begins + [|c.ops|]), d, a)
    requires WhileStep(d).Ok? && Kept(WhileStep(d).value, f, b)
    ensures RepeatStep(f).Ok? && Kept(c, RepeatStep(f).value, BeginWhile(a, b))
    ensures RepeatStep(f).value.ops ==
            Patch(f.ops, |d.ops| + 1, |f.ops| + 5 - |d.ops|) + ([OP_JMP] + ToBytes(Wrap(|c.ops| - |f.ops|)))
  {
    hide Size, Leaves, Recs, ToBytes, Patch, Wrap;
    SizeOf(BeginWhile(a, b));
    LeavesOf(BeginWhile(a, b), |c.ops|);
    RecsOf(BeginWhile(a, b), |c.ops|);
    WhileStacks(c, d, f, a, b);
  }

  lemma WhileStacks(c: Comp, d: Comp, f: Comp, a: Stmt, b: Stmt)
    requires Kept(c.(begins := c.begins + [|c.ops|]), d, a)
    requires WhileStep(d).Ok? && Kept(WhileStep(d).value, f, b)
    ensures var (p, m) := (|c.ops|, |d.ops| + 5);
            && m == p + Size(a) + 5 && |f.ops| == m + Size(b) && c.ops <= d.ops <= f.ops
            && f == c.(ops := f.ops, begins := c.begins + [p], whiles := c.whiles + [|d.ops| + 1],
                       leaves := c.leaves + (Leaves(a, p) + Leaves(b, m)), recs := c.recs + (Recs(a, p) + Recs(b, m)))
  {
    hide Size, Leaves, Recs, ToBytes;
    var m := |d.ops| + 5;
    Regrouped(c.leaves, Leaves(a, |c.ops|), Leaves(b, m));
    Regrouped(c.recs, Recs(a, |c.ops|), Recs(b, m));
  }

  lemma WhileLayout(env: seq<Cell>, p: nat, f: seq<Byte>, a: Stmt, b: Stmt)
    requires var m := p + Size(a);
             && |f| == m + 5 + Size(b) && f[m] == OP_JZ && Layout(env, f, a, p) && Layout(env, f, b, m + 5)
    ensures var m := p + Size(a);
            Layout(env, Patch(f, m + 1, |f| + 5 - m) + ([OP_JMP] + ToBytes(Wrap(p - |f|))), BeginWhile(a, b), p)
  {
    hide Layout, Size, JumpAt;
    var m := p + Size(a);
    var x := Patch(f, m + 1, |f| + 5 - m);
    var r := x + ([OP_JMP] + ToBytes(Wrap(p - |f|)));
    LayoutOf(env, r, BeginWhile(a, b), p);
    WhileJumps(f, x, r, m, p);
    LayoutAway(env, f, r, a, p);
    LayoutAway(env, f, r, b, m + 5);
  }

  lemma WhileJumps(code: seq<Byte>, x: seq<Byte>, r: seq<Byte>, m: nat, p: nat)
    requires m + 5 <= |code| && code[m] == OP_JZ && x == Patch(code, m + 1, |code| + 5 - m)
    requires r == x + ([OP_JMP] + ToBytes(Wrap(p - |code|)))
    ensures JumpAt(r, m, OP_JZ, |code| + 5) && JumpAt(r, |code|, OP_JMP, p)
  {
    PatchedJump(code, m, OP_JZ, |code| + 5);
    PrefixJump(x, r, m, OP_JZ, |code| + 5);
    AppendedCell(x, OP_JMP, Wrap(p - |code|));
  }

  lemma BuildLeaf(env: seq<Cell>, c: Comp, s: Stmt, inLoop: bool)
    requires Legal(env, s, inLoop) && Ready(c, inLoop)
    requires s.Word? || s.Lit? || s.Call? || s.SelfCall? || s.Return? || s.DropLoop? || s.LeaveLoop?
    ensures |Tokens(env, s)| == 1
    ensures Step(c, Tokens(env, s)[0]).Ok? && Built(env, c, Step(c, Tokens(env, s)[0]).value, s)
  {
    var d := Step(c, Tokens(env, s)[0]).value;
    assert Kept(c, d, s);
    LeafLayout(env, c, s, d);
  }

  lemma LeafLayout(env: seq<Cell>, c: Comp, s: Stmt, d: Comp)
    requires s.Word? || s.Lit? || s.Call? || s.SelfCall? || s.Return? || s.DropLoop? || s.LeaveLoop?
    requires s.Call? ==> s.k < |env|
    requires Step(c, Tokens(env, s)[0]) == Ok(d)
    ensures Layout(env, d.ops, s, |c.ops|)
  {
    hide Layout, ToBytes, Wrap, Patch, FromBytes;
    LayoutOf(env, d.ops, s, |c.ops|);
    match s
    case Lit(n) => WrapCell(n); AppendedCell(c.ops, OP_IVAL, n);
    case Call(k) => WrapCell(env[k]); AppendedCell(c.ops, OP_DEFINITION, env[k]);
    case Word(op) => assert d.ops == c.ops + [op];
    case SelfCall => assert d.ops == c.ops + ([OP_ADDR] + ToBytes(Wrap(0))) + [OP_EXECUTE_BC];
    case Return => assert d.ops == c.ops + [OP_RET];
    case DropLoop => assert d.ops == c.ops + [OP_UNLOOP];
    case LeaveLoop => assert d.ops == c.ops + [OP_UNLOOP] + ([OP_JMP] + ToBytes(Wrap(0)));
  }

  // ----- operands resolved in one go -----

  /** Operands of jumps that lie one after the other in [lo, hi). */
  predicate Spaced(s: seq<nat>, lo: nat, hi: nat) {
    && (forall k :: 0 <= k < |s| ==> lo < s[k] <= hi - 4)
    && (forall j, k :: 0 <= j < k < |s| ==> s[j] + 5 <= s[k])
  }

  lemma SpacedAppend(a: seq<nat>, b: seq<nat>, lo: nat, mid: nat, mid': nat, hi: nat)
    requires lo <= mid <= mid' <= hi && Spaced(a, lo, mid) && Spaced(b, mid', hi)
    ensures Spaced(a + b, lo, hi)
  {
  }

  lemma {:induction false} LeavesSpaced(s: Stmt, p: nat)
    ensures Spaced(Leaves(s, p), p, p + Size(s))
    decreases s
  {
    hide Size, ChainSize, Leaves, ChainLeaves, Spaced;
    SizeOf(s);
    LeavesOf(s, p);
    match s
    case Seq(a, b) =>
      LeavesSpaced(a, p);
      LeavesSpaced(b, p + Size(a));
      SpacedAppend(Leaves(a, p), Leaves(b, p + Size(a)), p, p + Size(a), p + Size(a), p + Size(s));
    case IfThen(a) => LeavesSpaced(a, p + 5); SpacedWiden(Leaves(a, p + 5), p + 5, p + Size(s), p, p + Size(s));
    case IfThenElse(a, b) =>
      var m := p + 5 + Size(a);
      LeavesSpaced(a, p + 5);
      LeavesSpaced(b, m + 5);
      SpacedAppend(Leaves(a, p + 5), Leaves(b, m + 5), p + 5, m, m + 5, p + Size(s));
      SpacedWiden(Leaves(s, p), p + 5, p + Size(s), p, p + Size(s));
    case BeginUntil(a) => LeavesSpaced(a, p); SpacedWiden(Leaves(a, p), p, p + Size(a), p, p + Size(s));
    case BeginAgain(a) => LeavesSpaced(a, p); SpacedWiden(Leaves(a, p), p, p + Size(a), p, p + Size(s));
    case BeginWhile(a, b) =>
      var m := p + Size(a);
      LeavesSpaced(a, p);
      LeavesSpaced(b, m + 5);
      SpacedWiden(Leaves(b, m + 5), m + 5, m + 5 + Size(b), m + 5, p + Size(s));
      SpacedAppend(Leaves(a, p), Leaves(b, m + 5), p, m, m + 5, p + Size(s));
    case CaseOf(ch) => ChainLeavesSpaced(ch, p);
    case _ => LeafSpaced(s, p);
  }

  lemma LeafSpaced(s: Stmt, p: nat)
    requires !s.Seq? && !s.IfThen? && !s.IfThenElse? && !s.BeginUntil? && !s.BeginAgain? && !s.BeginWhile? && !s.CaseOf?
    ensures Spaced(Leaves(s, p), p, p + Size(s))
  {
  }

  lemma SpacedWiden(a: seq<nat>, lo: nat, hi: nat, lo': nat, hi': nat)
    requires Spaced(a, lo, hi) && lo' <= lo && hi <= hi'
    ensures Spaced(a, lo', hi')
  {
  }

  lemma {:induction false} ChainLeavesSpaced(ch: Chain, p: nat)
    ensures Spaced(ChainLeaves(ch, p), p, p + ChainSize(ch))
    decreases ch
  {
    hide Size, ChainSize, Leaves, ChainLeaves, Spaced;
    ChainSizeOf(ch);
    ChainLeavesOf(ch, p);
    match ch
    case Default(a) => LeavesSpaced(a, p); SpacedWiden(Leaves(a, p), p, p + Size(a), p, p + ChainSize(ch));
    case OfClause(t, a, rest) =>
      var m := p + Size(t) + 8;
      var n := m + Size(a) + 5;
      LeavesSpaced(t, p);
      LeavesSpaced(a, m);
      ChainLeavesSpaced(rest, n);
      SpacedAppend(Leaves(t, p), Leaves(a, m), p, p + Size(t), m, m + Size(a));
      SpacedAppend(Leaves(t, p) + Leaves(a, m), ChainLeaves(rest, n), p, m + Size(a), n, p + ChainSize(ch));
  }

  lemma {:induction false} EndOfsSpaced(ch: Chain, p: nat)
    ensures Spaced(EndOfs(ch, p), p, p + ChainSize(ch))
    decreases ch
  {
    hide Size, ChainSize, EndOfs, Spaced;
    ChainSizeOf(ch);
    EndOfsOf(ch, p);
    match ch
    case Default(a) => assert Spaced([], p, p + ChainSize(ch)) by { NoneSpaced(p, p + ChainSize(ch)); }
    case OfClause(t, a, rest) =>
      var n := p + Size(t) + 8 + Size(a);
      EndOfsSpaced(rest, n + 5);
      OneSpaced(n + 1, p, n + 5);
      SpacedAppend([n + 1], EndOfs(rest, n + 5), p, n + 5, n + 5, p + ChainSize(ch));
  }

  lemma NoneSpaced(lo: nat, hi: nat)
    ensures Spaced([], lo, hi)
  {
  }

  lemma OneSpaced(h: nat, lo: nat, hi: nat)
    requires lo < h <= hi - 4
    ensures Spaced([h], lo, hi)
  {
  }

  /** Nothing is changed but the operands in hs. */
  predicate SameBut(code: seq<Byte>, code': seq<Byte>, hs: seq<nat>) {
    |code'| == |code| && forall j :: 0 <= j < |code| && (forall h | h in hs :: !(h <= j < h + 4)) ==>
      code'[j] == code[j]
  }

  predicate AreJumps(code: seq<Byte>, hs: seq<nat>) {
    forall h | h in hs :: 1 <= h <= |code| && code[h - 1] == OP_JMP
  }

  /** Resolving the newest of several open jumps. */
  lemma ResolveNewest(ops: seq<Byte>, hs: seq<nat>, lo: nat)
    requires hs != [] && Spaced(hs, lo, |ops|) && AreJumps(ops, hs)
    ensures var h := Last(hs); var e := Patch(ops, h, |ops| - h + 1);
            && JumpAt(e, h - 1, OP_JMP, |ops|) && AreJumps(e, ButLast(hs)) && Spaced(ButLast(hs), lo, h - 1)
            && SameBut(ops, e, [h])
  {
    var h := Last(hs);
    assert h in hs;
    PatchedJump(ops, h - 1, OP_JMP, |ops|);
    var e := Patch(ops, h, |ops| - h + 1);
    forall g | g in ButLast(hs) ensures 1 <= g <= |e| && e[g - 1] == OP_JMP {
      assert g in hs;
    }
    assert forall j :: 0 <= j < |ops| && (forall g | g in [h] :: !(g <= j < g + 4)) ==> [h][0] in [h] && e[j] == ops[j];
  }

  /** The newest jump stays resolved while the older ones are, and then all are. */
  lemma ResolvedTogether(ops: seq<Byte>, e: seq<Byte>, r: seq<Byte>, hs: seq<nat>, t: nat, lo: nat)
    requires hs != [] && Last(hs) >= 1 && |e| == |ops| && SameBut(ops, e, [Last(hs)])
             && JumpAt(e, Last(hs) - 1, OP_JMP, t)
    requires Last(hs) + 4 <= |ops| && Spaced(ButLast(hs), lo, Last(hs) - 1)
    requires SameBut(e, r, ButLast(hs)) && AllTo(r, ButLast(hs), t)
    ensures AllTo(r, hs, t) && SameBut(ops, r, hs)
  {
    var h := Last(hs);
    assert hs == ButLast(hs) + [h];
    assert Same(e, r, h - 1, h + 4) by {
      forall j | h - 1 <= j < h + 4 ensures r[j] == e[j] {
        forall g | g in ButLast(hs) ensures !(g <= j < g + 4) {
        }
      }
    }
    JumpSame(e, r, h - 1, OP_JMP, t);
    forall j | 0 <= j < |ops| && (forall g | g in hs :: !(g <= j < g + 4)) ensures r[j] == ops[j] {
      assert h in hs && forall g | g in ButLast(hs) :: g in hs;
    }
  }

  lemma {:induction false} ResolveLeavesAll(ops: seq<Byte>, base: seq<nat>, hs: seq<nat>, i: nat, lo: nat)
    requires Spaced(hs, lo, |ops|) && AreJumps(ops, hs) && Below(base, i) && i <= lo
    ensures var r := ResolveLeaves(ops, base + hs, i);
            r.1 == base && AllTo(r.0, hs, |ops|) && SameBut(ops, r.0, hs)
    decreases |hs|
  {
    hide Patch;
    if hs == [] {
      assert base + hs == base;
    } else {
      var h := Last(hs);
      var e := Patch(ops, h, |ops| - h + 1);
      assert Last(base + hs) == h && ButLast(base + hs) == base + ButLast(hs);
      ResolveNewest(ops, hs, lo);
      SpacedWiden(ButLast(hs), lo, h - 1, lo, |e|);
      ResolveLeavesAll(e, base, ButLast(hs), i, lo);
      hide ResolveLeaves;
      ResolvedTogether(ops, e, ResolveLeaves(e, base + ButLast(hs), i).0, hs, |ops|, lo);
    }
  }

  lemma {:induction false} ResolveCasesAll(ops: seq<Byte>, base: seq<Mark>, hs: seq<nat>, lo: nat)
    requires Spaced(hs, lo, |ops|) && AreJumps(ops, hs)
    ensures var r := ResolveCases(ops, base + [-1] + hs);
            r.1 == base && AllTo(r.0, hs, |ops|) && SameBut(ops, r.0, hs)
    decreases |hs|
  {
    hide Patch;
    if hs == [] {
      assert base + [-1] + hs == base + [-1] && ButLast(base + [-1]) == base;
    } else {
      var h := Last(hs);
      var e := Patch(ops, h, |ops| - h + 1);
      assert Last(base + [-1] + hs) == h && ButLast(base + [-1] + hs) == base + [-1] + ButLast(hs);
      ResolveNewest(ops, hs, lo);
      SpacedWiden(ButLast(hs), lo, h - 1, lo, |e|);
      ResolveCasesAll(e, base, ButLast(hs), lo);
      ResolvedTogether(ops, e, ResolveCases(e, base + [-1] + ButLast(hs)).0, hs, |ops|, lo);
    }
  }

  /** A LEAVE's operand belongs to a JMP. */
  lemma {:induction false} LeaveJumps(env: seq<Cell>, code: seq<Byte>, s: Stmt, p: nat)
    requires Layout(env, code, s, p)
    ensures AreJumps(code, Leaves(s, p))
    decreases s
  {
    hide Layout, ChainLayout, Size, Leaves, ChainLeaves, AreJumps, JumpAt, AllTo;
    LayoutOf(env, code, s, p);
    LeavesOf(s, p);
    match s
    case Seq(a, b) =>
      LeaveJumps(env, code, a, p);
      LeaveJumps(env, code, b, p + Size(a));
      JumpsAppend(code, Leaves(a, p), Leaves(b, p + Size(a)));
    case IfThen(a) => LeaveJumps(env, code, a, p + 5);
    case IfThenElse(a, b) =>
      LeaveJumps(env, code, a, p + 5);
      LeaveJumps(env, code, b, p + 5 + Size(a) + 5);
      JumpsAppend(code, Leaves(a, p + 5), Leaves(b, p + 5 + Size(a) + 5));
    case BeginUntil(a) => LeaveJumps(env, code, a, p);
    case BeginAgain(a) => LeaveJumps(env, code, a, p);
    case BeginWhile(a, b) =>
      LeaveJumps(env, code, a, p);
      LeaveJumps(env, code, b, p + Size(a) + 5);
      JumpsAppend(code, Leaves(a, p), Leaves(b, p + Size(a) + 5));
    case CaseOf(ch) => ChainLeaveJumps(env, code, ch, p);
    case LeaveLoop => OneJump(code, p + 2);
    case _ => NoJumps(code);
  }

  lemma JumpsAppend(code: seq<Byte>, a: seq<nat>, b: seq<nat>)
    requires AreJumps(code, a) && AreJumps(code, b)
    ensures AreJumps(code, a + b)
  {
  }

  lemma OneJump(code: seq<Byte>, h: nat)
    requires 1 <= h <= |code| && code[h - 1] == OP_JMP
    ensures AreJumps(code, [h])
  {
  }

  lemma NoJumps(code: seq<Byte>)
    ensures AreJumps(code, [])
  {
  }

  lemma {:induction false} ChainLeaveJumps(env: seq<Cell>, code: seq<Byte>, ch: Chain, p: nat)
    requires ChainLayout(env, code, ch, p)
    ensures AreJumps(code, ChainLeaves(ch, p))
    decreases ch
  {
    hide Layout, ChainLayout, Size, Leaves, ChainLeaves, AreJumps, JumpAt, AllTo;
    ChainLayoutOf(env, code, ch, p);
    ChainLeavesOf(ch, p);
    match ch
    case Default(a) => LeaveJumps(env, code, a, p);
    case OfClause(t, a, rest) =>
      var m := p + Size(t) + 8;
      var n := m + Size(a) + 5;
      LeaveJumps(env, code, t, p);
      LeaveJumps(env, code, a, m);
      ChainLeaveJumps(env, code, rest, n);
      JumpsAppend(code, Leaves(t, p), Leaves(a, m));
      JumpsAppend(code, Leaves(t, p) + Leaves(a, m), ChainLeaves(rest, n));
  }

  /** An ENDOF's operand belongs to a JMP. */
  lemma {:induction false} EndOfJumps(env: seq<Cell>, code: seq<Byte>, ch: Chain, p: nat)
    requires ChainLayout(env, code, ch, p)
    ensures AreJumps(code, EndOfs(ch, p))
    decreases ch
  {
    hide Layout, ChainLayout, Size, EndOfs, AreJumps, JumpAt;
    ChainLayoutOf(env, code, ch, p);
    EndOfsOf(ch, p);
    match ch
    case Default(a) => NoJumps(code);
    case OfClause(t, a, rest) =>
      var n := p + Size(t) + 8 + Size(a);
      EndOfJumps(env, code, rest, n + 5);
      OneJump(code, n + 1);
      JumpsAppend(code, [n + 1], EndOfs(rest, n + 5));
  }

  // ----- loops -----

  lemma LeavesClosed(code: seq<Byte>, code': seq<Byte>, a: Stmt, m: nat)
    requires SameBut(code, code', Leaves(a, m))
    ensures SameClosed(code, code', a, m, true)
  {
    hide OpenByte, Size;
    forall i: nat | m <= i < m + Size(a) && i < |code| ensures OpenByte(a, m, i, true) || code'[i] == code[i] {
      if h :| h in Leaves(a, m) && h <= i < h + 4 {
        LeaveOpen(a, m, h);
      }
    }
  }

  /** The code of a loop, once its LEAVEs have been resolved to behind it. */
  lemma LoopLayout(env: seq<Cell>, code: seq<Byte>, r: seq<Byte>, a: Stmt, m: nat, plus: bool)
    requires var op := LoopOp(plus);
             Layout(env, code, a, m) && |code| == m + Size(a) && SameBut(code + [op], r, Leaves(a, m))
    ensures Layout(env, r, a, m) && ByteAt(r, m + Size(a), LoopOp(plus))
    ensures Same(code, r, 0, m + 1)
  {
    var op := LoopOp(plus);
    LeavesSpaced(a, m);
    hide Layout, Size, Leaves;
    LayoutPrefix(env, code, code + [op], a, m);
    LeavesClosed(code + [op], r, a, m);
    LayoutSame(env, code + [op], r, a, m, true);
  }

  lemma BuildDo(env: seq<Cell>, c: Comp, d: Comp, a: Stmt, plus: bool)
    requires Built(env, DoStep(c), d, a) && Below(c.leaves, |c.ops|) && Below(c.qdos, |c.ops|)
    ensures d.dos != [] && Built(env, c, PopLoop(LoopLeaves(d, LoopOp(plus))), DoLoop(false, a, plus))
  {
    var op := LoopOp(plus);
    var e := DoStep(c);
    hide Layout, Size, Leaves, Recs, ResolveLeaves, AllTo, SameBut, PopLoop, LoopOp;
    LoopResolved(env, c, d, a, |c.ops| + 3, op);
    var r := LoopLeaves(d, op);
    DoKept(c, e, d, op, r, a, plus);
    LoopLayout(env, d.ops, r.ops, a, |c.ops| + 3, plus);
    DoLoopLayout(env, |c.ops|, e.ops, d.ops, r.ops, a, plus);
  }

  lemma DoKept(c: Comp, e: Comp, d: Comp, op: Byte, r: Comp, a: Stmt, plus: bool)
    requires c.ops <= e.ops && |e.ops| == |c.ops| + 3 && Kept(e, d, a) && Below(c.qdos, |c.ops|)
    requires e == c.(ops := e.ops, dos := c.dos + [|c.ops| + 3])
    requires r == d.(ops := r.ops, leaves := c.leaves) && SameBut(d.ops + [op], r.ops, Leaves(a, |c.ops| + 3))
    ensures r.dos != [] && Kept(c, PopLoop(r), DoLoop(false, a, plus)) && PopLoop(r).ops == r.ops
  {
    LeavesSpaced(a, |c.ops| + 3);
    hide Size, Leaves, Recs;
    SizeOf(DoLoop(false, a, plus));
    LeavesOf(DoLoop(false, a, plus), |c.ops|);
    RecsOf(DoLoop(false, a, plus), |c.ops|);
  }

  lemma DoLoopLayout(env: seq<Cell>, p: nat, q: seq<Byte>, d: seq<Byte>, r: seq<Byte>, a: Stmt, plus: bool)
    requires |q| == p + 3 && q <= d && |d| == p + 3 + Size(a) && |r| == |d| + 1 && Same(d, r, 0, p + 4)
             && DoLayout(q, p)
    requires Layout(env, r, a, p + 3) && AllTo(r, Leaves(a, p + 3), |r|)
    requires ByteAt(r, |d|, LoopOp(plus))
    ensures Layout(env, r, DoLoop(false, a, plus), p)
  {
    hide Layout, Size, Leaves;
    LayoutOf(env, r, DoLoop(false, a, plus), p);
  }

  /** LOOP resolves exactly the LEAVEs of its body. */
  lemma LoopResolved(env: seq<Cell>, c: Comp, d: Comp, a: Stmt, m: nat, op: Byte)
    requires Below(c.leaves, m) && d.dos != [] && Last(d.dos) == m && d.leaves == c.leaves + Leaves(a, m)
    requires Layout(env, d.ops, a, m) && |d.ops| == m + Size(a)
    ensures var r := LoopLeaves(d, op);
            r.leaves == c.leaves && AllTo(r.ops, Leaves(a, m), |d.ops| + 1)
              && SameBut(d.ops + [op], r.ops, Leaves(a, m))
  {
    hide Layout, Size, Leaves, AllTo, SameBut, ResolveLeaves, Spaced;
    LeavesSpaced(a, m);
    SpacedWiden(Leaves(a, m), m, m + Size(a), m, |d.ops| + 1);
    LayoutPrefix(env, d.ops, d.ops + [op], a, m);
    LeaveJumps(env, d.ops + [op], a, m);
    ResolveLeavesAll(d.ops + [op], c.leaves, Leaves(a, m), m, m);
  }

  /** The code that ?DO puts before its loop. */
  lemma QueryHead(c: Comp)
    ensures var e := QueryDoStep(c); var p := |c.ops|;
            && c.ops <= e.ops && |e.ops| == p + 16
            && ByteAt(e.ops, p, OP_2DUP) && ByteAt(e.ops, p + 1, OP_EQ) && JumpAt(e.ops, p + 2, OP_JZ, p + 13)
            && ByteAt(e.ops, p + 7, OP_2DROP) && ByteAt(e.ops, p + 8, OP_JMP) && DoLayout(e.ops, p + 13)
    ensures QueryDoStep(c) == c.(ops := QueryDoStep(c).ops, ifs := c.ifs + [|c.ops| + 9],
                                 dos := c.dos + [|c.ops| + 16], qdos := c.qdos + [|c.ops| + 16])
  {
    hide JumpAt, ToBytes;
    var p := |c.ops|;
    var x := c.ops + [OP_2DUP, OP_EQ] + ([OP_JZ] + ToBytes(Wrap(0))) + [OP_2DROP] + ([OP_JMP] + ToBytes(Wrap(0)));
    var y := Patch(x, p + 3, |x| - (p + 3) + 1);
    assert QueryDoStep(c).ops == y + [OP_PUSH, OP_PUSH, OP_PUSHIP];
    PatchedJump(x, p + 2, OP_JZ, p + 13);
    PrefixJump(y, QueryDoStep(c).ops, p + 2, OP_JZ, p + 13);
  }

  lemma BuildQueryDo(env: seq<Cell>, c: Comp, d: Comp, a: Stmt, plus: bool)
    requires Built(env, QueryDoStep(c), d, a) && Below(c.leaves, |c.ops|)
    ensures d.dos != [] && Built(env, c, PopLoop(LoopLeaves(d, LoopOp(plus))), DoLoop(true, a, plus))
  {
    var op := LoopOp(plus);
    var e := QueryDoStep(c);
    hide Layout, Size, Leaves, Recs, QueryDoStep, JumpAt, ResolveLeaves, AllTo, SameBut, PopLoop, LoopOp, DoLayout,
      Grown;
    QueryHead(c);
    GrownIs(e, d, Size(a));
    LoopResolved(env, c, d, a, |c.ops| + 16, op);
    var r := LoopLeaves(d, op);
    QueryKept(c, e, d, op, r, a, plus);
    LoopLayout(env, d.ops, r.ops, a, |c.ops| + 16, plus);
    QueryLoopLayout(env, |c.ops|, e.ops, d.ops, r.ops, a, plus);
  }

  lemma GrownIs(c: Comp, d: Comp, n: nat)
    ensures Grown(c, d, n) ==> c.ops <= d.ops && |d.ops| == |c.ops| + n
  {
  }

  lemma QueryKept(c: Comp, e: Comp, d: Comp, op: Byte, r: Comp, a: Stmt, plus: bool)
    requires c.ops <= e.ops && |e.ops| == |c.ops| + 16 && Kept(e, d, a)
    requires e == c.(ops := e.ops, ifs := c.ifs + [|c.ops| + 9], dos := c.dos + [|c.ops| + 16],
                     qdos := c.qdos + [|c.ops| + 16])
    requires r == d.(ops := r.ops, leaves := c.leaves) && SameBut(d.ops + [op], r.ops, Leaves(a, |c.ops| + 16))
    ensures r.dos != [] && Kept(c, PopLoop(r), DoLoop(true, a, plus))
    ensures PopLoop(r).ops == Patch(r.ops, |c.ops| + 9, |d.ops| - |c.ops| - 7)
  {
    hide Size, Leaves, Recs, Patch, PopLoop, Spaced, SameBut;
    QueryGrown(c, e, d, op, r.ops, a);
    SizeOf(DoLoop(true, a, plus));
    LeavesOf(DoLoop(true, a, plus), |c.ops|);
    RecsOf(DoLoop(true, a, plus), |c.ops|);
    PopQuery(c, r);
  }

  lemma QueryGrown(c: Comp, e: Comp, d: Comp, op: Byte, r: seq<Byte>, a: Stmt)
    requires c.ops <= e.ops && |e.ops| == |c.ops| + 16 && Kept(e, d, a)
             && SameBut(d.ops + [op], r, Leaves(a, |c.ops| + 16))
    ensures c.ops <= Patch(r, |c.ops| + 9, |d.ops| - |c.ops| - 7) && |r| == |d.ops| + 1 == |c.ops| + 16 + Size(a) + 1
  {
    LeavesSpaced(a, |c.ops| + 16);
    SpacedWiden(Leaves(a, |c.ops| + 16), |c.ops| + 16, |d.ops|, |c.ops| + 16, |d.ops| + 1);
    hide Size, Leaves, Recs, Patch, Spaced;
    QueryPrefix(c.ops, d.ops + [op], r, Leaves(a, |c.ops| + 16), |d.ops| - |c.ops| - 7);
  }

  lemma PopQuery(c: Comp, e: Comp)
    requires e.ifs == c.ifs + [|c.ops| + 9] && e.dos == c.dos + [|c.ops| + 16] && e.qdos == c.qdos + [|c.ops| + 16]
    ensures PopLoop(e) == e.(ops := Patch(e.ops, |c.ops| + 9, |e.ops| - |c.ops| - 8), ifs := c.ifs, dos := c.dos,
                             qdos := c.qdos)
  {
  }

  lemma QueryPrefix(code: seq<Byte>, d: seq<Byte>, r: seq<Byte>, hs: seq<nat>, v: int)
    requires code <= d && SameBut(d, r, hs) && Spaced(hs, |code| + 16, |d|)
    ensures code <= Patch(r, |code| + 9, v)
  {
    forall j | 0 <= j < |code| ensures Patch(r, |code| + 9, v)[j] == code[j] {
      assert r[j] == d[j];
    }
  }

  lemma QueryLoopLayout(env: seq<Cell>, p: nat, q: seq<Byte>, d: seq<Byte>, r: seq<Byte>, a: Stmt, plus: bool)
    requires |q| == p + 16 && q <= d && |d| == p + 16 + Size(a) && |r| == |d| + 1 && Same(d, r, 0, p + 17)
    requires && ByteAt(q, p, OP_2DUP) && ByteAt(q, p + 1, OP_EQ) && JumpAt(q, p + 2, OP_JZ, p + 13)
             && ByteAt(q, p + 7, OP_2DROP) && ByteAt(q, p + 8, OP_JMP) && DoLayout(q, p + 13)
    requires Layout(env, r, a, p + 16) && AllTo(r, Leaves(a, p + 16), |r|)
    requires ByteAt(r, |d|, LoopOp(plus))
    ensures Layout(env, Patch(r, p + 9, |r| - (p + 8)), DoLoop(true, a, plus), p)
  {
    hide Layout, Size, Leaves, JumpAt;
    var e := Patch(r, p + 9, |r| - (p + 8));
    LayoutOf(env, e, DoLoop(true, a, plus), p);
    assert Same(q, e, 0, p + 8);
    JumpSame(q, e, p + 2, OP_JZ, p + 13);
    PatchedJump(r, p + 8, OP_JMP, |r|);
    assert Same(r, e, p + 13, |r|);
    LayoutAway(env, r, e, a, p + 16);
    LeavesBehind(r, e, a, p + 16);
    assert DoLayout(e, p + 13);
  }

  lemma LeavesBehind(r: seq<Byte>, e: seq<Byte>, a: Stmt, m: nat)
    requires AllTo(r, Leaves(a, m), |r|) && Same(r, e, m, |r|) && m + Size(a) <= |r|
    ensures AllTo(e, Leaves(a, m), |r|)
  {
    hide Size, Leaves, AllTo;
    forall h: nat | h in Leaves(a, m) ensures Same(r, e, h - 1, h + 4) {
      LeaveOpen(a, m, h);
    }
    AllToSame(r, e, Leaves(a, m), |r|);
  }

  // ----- CASE -----

  lemma BuildDefault(env: seq<Cell>, c: Comp, d: Comp, a: Stmt)
    requires Built(env, c, d, a)
    ensures ChainBuilt(env, c, d, Default(a))
  {
    hide Layout, ChainLayout, Size, ChainSize, Leaves, ChainLeaves, Recs, ChainRecs, EndOfs;
    var ch := Default(a);
    var p := |c.ops|;
    ChainSizeOf(ch);
    ChainLeavesOf(ch, p);
    ChainRecsOf(ch, p);
    EndOfsOf(ch, p);
    ChainLayoutOf(env, d.ops + [OP_DROP], ch, p);
    LayoutPrefix(env, d.ops, d.ops + [OP_DROP], a, p);
  }

  lemma BuildOf(env: seq<Cell>, c: Comp, d: Comp, f: Comp, g: Comp, t: Stmt, a: Stmt, rest: Chain)
    requires Built(env, c, d, t) && Built(env, OfStep(d), f, a)
    requires EndOfStep(f).Ok? && ChainBuilt(env, EndOfStep(f).value, g, rest)
    ensures ChainBuilt(env, c, g, OfClause(t, a, rest))
  {
    hide Kept, ChainKept, Layout, ChainLayout, OfStep, EndOfStep;
    OfKept(c, d, f, g, t, a, rest);
    OfCode(env, c, d, f, g, t, a, rest);
  }

  lemma OfKept(c: Comp, d: Comp, f: Comp, g: Comp, t: Stmt, a: Stmt, rest: Chain)
    requires Kept(c, d, t) && Kept(OfStep(d), f, a)
    requires EndOfStep(f).Ok? && ChainKept(EndOfStep(f).value, g, rest)
    ensures ChainKept(c, g, OfClause(t, a, rest))
  {
    hide Size, ChainSize, Leaves, ChainLeaves, Recs, ChainRecs, EndOfs, EndOfStep, OfStep, Kept;
    var ch := OfClause(t, a, rest);
    var p := |c.ops|;
    ChainSizeOf(ch);
    ChainLeavesOf(ch, p);
    ChainRecsOf(ch, p);
    EndOfsOf(ch, p);
    ClauseKept(c, d, f, t, a);
    var m := p + Size(t) + 8;
    Assoc(c.leaves, Leaves(t, p), Leaves(a, m), ChainLeaves(rest, m + Size(a) + 5));
    Assoc(c.recs, Recs(t, p), Recs(a, m), ChainRecs(rest, m + Size(a) + 5));
  }

  /** After one clause: its LEAVEs and RECURSEs and its own ENDOF have been recorded. */
  lemma ClauseKept(c: Comp, d: Comp, f: Comp, t: Stmt, a: Stmt)
    requires Kept(c, d, t) && Kept(OfStep(d), f, a) && EndOfStep(f).Ok?
    ensures var h := EndOfStep(f).value; var p := |c.ops|; var m := p + Size(t) + 8;
            && Grown(c, h, Size(t) + 8 + Size(a) + 5)
            && h == c.(ops := h.ops, leaves := c.leaves + Leaves(t, p) + Leaves(a, m),
                       recs := c.recs + Recs(t, p) + Recs(a, m),
                       cases := c.cases + [m + Size(a) + 1])
  {
    hide Size, Leaves, Recs, ToBytes;
  }

  lemma Assoc(a: seq<nat>, b: seq<nat>, c: seq<nat>, d: seq<nat>)
    ensures a + (b + c + d) == a + b + c + d
  {
  }

  lemma OfCode(env: seq<Cell>, c: Comp, d: Comp, f: Comp, g: Comp, t: Stmt, a: Stmt, rest: Chain)
    requires Built(env, c, d, t) && Built(env, OfStep(d), f, a)
    requires EndOfStep(f).Ok? && ChainBuilt(env, EndOfStep(f).value, g, rest)
    ensures ChainLayout(env, g.ops + [OP_DROP], OfClause(t, a, rest), |c.ops|)
  {
    hide Layout, ChainLayout, Size, ChainSize, OfLayout, ToBytes, OfStep, EndOfStep, Leaves, ChainLeaves, Recs,
      ChainRecs, EndOfs;
    OfHead(d);
    OfTail(d, OfStep(d), f);
    OfClauseLayout(env, |c.ops|, d.ops, f.ops, EndOfStep(f).value.ops, g.ops + [OP_DROP], t, a, rest);
  }

  /** What OF puts before the body of a clause. */
  predicate OfStart(m: nat, e: seq<Byte>) {
    && |e| == m + 8 && ByteAt(e, m, OP_OVER) && ByteAt(e, m + 1, OP_EQ) && ByteAt(e, m + 2, OP_JZ)
    && ByteAt(e, m + 7, OP_DROP)
  }

  lemma OfHead(d: Comp)
    ensures OfStart(|d.ops|, OfStep(d).ops) && d.ops <= OfStep(d).ops && OfStep(d).ofs == d.ofs + [|d.ops| + 3]
  {
  }

  /** ENDOF resolves the jump of its OF to behind its own jump. */
  lemma OfTail(d: Comp, e: Comp, f: Comp)
    requires OfStart(|d.ops|, e.ops) && d.ops <= e.ops <= f.ops && f.ofs == d.ofs + [|d.ops| + 3]
    ensures EndOfStep(f).Ok? && var r := EndOfStep(f).value.ops; var n := |f.ops|;
            && |r| == n + 5 && OfLayout(r, |d.ops|, n + 5) && ByteAt(r, n, OP_JMP)
            && Same(f.ops, r, |d.ops| + 8, n) && d.ops <= r
  {
    hide ToBytes, JumpAt;
    var m := |d.ops|;
    var x := f.ops + ([OP_JMP] + ToBytes(Wrap(0)));
    var r := EndOfStep(f).value.ops;
    assert r == Patch(x, m + 3, |f.ops| + 5 - (m + 2));
    PatchedJump(x, m + 2, OP_JZ, |f.ops| + 5);
  }

  lemma OfClauseLayout(env: seq<Cell>, p: nat, d: seq<Byte>, f: seq<Byte>, r: seq<Byte>, z: seq<Byte>, t: Stmt,
                       a: Stmt, rest: Chain)
    requires var m := p + Size(t); var n := m + 8 + Size(a);
             && |f| == n && |r| == n + 5 && d <= z && r <= z && Same(f, r, m + 8, n)
             && Layout(env, d, t, p) && OfLayout(r, m, n + 5) && Layout(env, f, a, m + 8)
             && ByteAt(r, n, OP_JMP) && ChainLayout(env, z, rest, n + 5)
    ensures ChainLayout(env, z, OfClause(t, a, rest), p)
  {
    hide Layout, ChainLayout, Size, ChainSize, OfLayout;
    var m := p + Size(t);
    var n := m + 8 + Size(a);
    ChainLayoutOf(env, z, OfClause(t, a, rest), p);
    LayoutPrefix(env, d, z, t, p);
    OfSame(r, z, m, n + 5);
    LayoutAway(env, f, z, a, m + 8);
  }

  lemma EndOfsOpen(code: seq<Byte>, code': seq<Byte>, ch: Chain, p: nat)
    requires SameBut(code, code', EndOfs(ch, p))
    ensures ChainSameClosed(code, code', ch, p, true, true)
  {
    hide ChainOpenByte, ChainSize;
    forall i: nat | p <= i < p + ChainSize(ch) && i < |code|
      ensures ChainOpenByte(ch, p, i, true, true) || code'[i] == code[i]
    {
      if h :| h in EndOfs(ch, p) && h <= i < h + 4 {
        EndOfOpen(ch, p, h);
      }
    }
  }

  lemma BuildCase(env: seq<Cell>, c: Comp, d: Comp, ch: Chain)
    requires ChainBuilt(env, c.(cases := c.cases + [-1]), d, ch)
    ensures EndCaseStep(d).Ok? && Built(env, c, EndCaseStep(d).value, CaseOf(ch))
  {
    hide Layout, ChainLayout, Size, ChainSize, Leaves, ChainLeaves, Recs, ChainRecs, EndOfs, AllTo, Spaced, AreJumps,
      ResolveCases;
    var s := CaseOf(ch);
    var p := |c.ops|;
    var x := d.ops + [OP_DROP];
    EndOfsSpaced(ch, p);
    EndOfJumps(env, x, ch, p);
    ResolveCasesAll(x, c.cases, EndOfs(ch, p), p);
    var r := EndCaseStep(d).value;
    CaseKept(c, d, r, ch);
    CaseLayout(env, x, r.ops, ch, p);
  }

  lemma CaseKept(c: Comp, d: Comp, r: Comp, ch: Chain)
    requires ChainKept(c.(cases := c.cases + [-1]), d, ch)
    requires r == d.(ops := r.ops, cases := c.cases) && SameBut(d.ops + [OP_DROP], r.ops, EndOfs(ch, |c.ops|))
    requires Spaced(EndOfs(ch, |c.ops|), |c.ops|, |c.ops| + ChainSize(ch))
    ensures Kept(c, r, CaseOf(ch))
  {
    hide Size, ChainSize, Leaves, ChainLeaves, Recs, ChainRecs, EndOfs;
    SizeOf(CaseOf(ch));
    LeavesOf(CaseOf(ch), |c.ops|);
    RecsOf(CaseOf(ch), |c.ops|);
  }

  lemma CaseLayout(env: seq<Cell>, x: seq<Byte>, r: seq<Byte>, ch: Chain, p: nat)
    requires ChainLayout(env, x, ch, p) && SameBut(x, r, EndOfs(ch, p)) && |x| == p + ChainSize(ch)
    requires AllTo(r, EndOfs(ch, p), |x|)
    ensures Layout(env, r, CaseOf(ch), p)
  {
    hide Layout, ChainLayout, ChainSize, EndOfs, AllTo;
    LayoutOf(env, r, CaseOf(ch), p);
    EndOfsOpen(x, r, ch, p);
    ChainLayoutSame(env, x, r, ch, p, true, true);
  }

  // ----- whole statements -----

  /** The words of a well-nested statement compile, and lay out its code. */
  lemma {:induction false} CompileStmt(env: seq<Cell>, c: Comp, s: Stmt, inLoop: bool) returns (d: Comp)
    requires Legal(env, s, inLoop) && Ready(c, inLoop)
    ensures Compile(c, Tokens(env, s)) == Ok(d) && Built(env, c, d, s)
    decreases s
  {
    hide Built, Kept, Step;
    match s
    case Nop =>
      d := c;
      BuildNop(env, c);
    case Seq(a, b) =>
      var e := CompileStmt(env, c, a, inLoop);
      ReadyAfter(env, c, e, a, inLoop);
      d := CompileStmt(env, e, b, inLoop);
      CompileAppend(c, Tokens(env, a), Tokens(env, b));
      BuildSeq(env, c, e, d, a, b);
    case IfThen(a) => d := CompileIf(env, c, a, inLoop);
    case IfThenElse(a, b) => d := CompileIfElse(env, c, a, b, inLoop);
    case BeginUntil(a) => d := CompileBack(env, c, a, inLoop, OP_JZ, Until, s);
    case BeginAgain(a) => d := CompileBack(env, c, a, inLoop, OP_JMP, Again, s);
    case BeginWhile(a, b) => d := CompileWhile(env, c, a, b, inLoop);
    case DoLoop(query, a, plus) => d := CompileDo(env, c, query, a, plus, inLoop);
    case CaseOf(ch) => d := CompileCase(env, c, ch, inLoop);
    case _ =>
      BuildLeaf(env, c, s, inLoop);
      d := Step(c, Tokens(env, s)[0]).value;
      CompileOne(c, Tokens(env, s)[0]);
      assert Tokens(env, s) == [Tokens(env, s)[0]];
  }

  lemma BuildNop(env: seq<Cell>, c: Comp)
    ensures Built(env, c, c, Nop)
  {
  }

  lemma ReadyAfter(env: seq<Cell>, c: Comp, d: Comp, s: Stmt, inLoop: bool)
    requires Ready(c, inLoop) && Built(env, c, d, s)
    ensures Ready(d, inLoop)
  {
    hide Layout, Size, Leaves, Recs;
    LeavesSpaced(s, |c.ops|);
  }

  lemma {:induction false} CompileIf(env: seq<Cell>, c: Comp, a: Stmt, inLoop: bool) returns (d: Comp)
    requires Legal(env, a, inLoop) && Ready(c, inLoop)
    ensures Compile(c, Tokens(env, IfThen(a))) == Ok(d) && Built(env, c, d, IfThen(a))
    decreases IfThen(a), 0
  {
    hide Built, Compile, Legal, ThenStep, Tokens;
    var c1 := IfStep(c);
    var e := CompileStmt(env, c1, a, inLoop);
    BuildIf(env, c, e, a);
    d := ThenStep(e).value;
    var ts := Tokens(env, a);
    CompileSnoc(c1, ts, e, Then);
    IfTokens(env, a);
    CompileCons(c, If, ts + [Then]);
  }

  lemma {:induction false} CompileIfElse(env: seq<Cell>, c: Comp, a: Stmt, b: Stmt, inLoop: bool) returns (d: Comp)
    requires Legal(env, a, inLoop) && Legal(env, b, inLoop) && Ready(c, inLoop)
    ensures Compile(c, Tokens(env, IfThenElse(a, b))) == Ok(d) && Built(env, c, d, IfThenElse(a, b))
    decreases IfThenElse(a, b), 0
  {
    hide Built, Compile, Legal, ElseStep, ThenStep, Tokens;
    var c1 := IfStep(c);
    var e := CompileStmt(env, c1, a, inLoop);
    var e2 := ElseReady(env, c, e, a, inLoop);
    var f := CompileStmt(env, e2, b, inLoop);
    BuildIfElse(env, c, e, f, a, b);
    d := ThenStep(f).value;
    CompileFive(c, If, Tokens(env, a), e, Else, Tokens(env, b), f, Then);
    IfElseTokens(env, a, b);
  }

  lemma ElseReady(env: seq<Cell>, c: Comp, e: Comp, a: Stmt, inLoop: bool) returns (e2: Comp)
    requires Ready(c, inLoop) && Built(env, IfStep(c), e, a)
    ensures ElseStep(e) == Ok(e2) && Ready(e2, inLoop)
  {
    hide Size, Leaves, Recs, Layout, Patch, ToBytes;
    ReadyAfter(env, IfStep(c), e, a, inLoop);
    e2 := ElseStep(e).value;
  }

  /** word, words, word, words, word */
  lemma CompileFive(c: Comp, t1: Token, xs: seq<Token>, d: Comp, t2: Token, ys: seq<Token>, f: Comp, t3: Token)
    requires Step(c, t1).Ok? && Compile(Step(c, t1).value, xs) == Ok(d)
    requires Step(d, t2).Ok? && Compile(Step(d, t2).value, ys) == Ok(f)
    ensures Compile(c, [t1] + xs + [t2] + ys + [t3]) == Step(f, t3)
  {
    hide Step;
    var c1 := Step(c, t1).value;
    var d1 := Step(d, t2).value;
    CompileSnoc(d1, ys, f, t3);
    CompileCons(d, t2, ys + [t3]);
    CompileAppend(c1, xs, [t2] + (ys + [t3]));
    CompileCons(c, t1, xs + ([t2] + (ys + [t3])));
    assert [t1] + xs + [t2] + ys + [t3] == [t1] + (xs + ([t2] + (ys + [t3])));
  }

  lemma {:induction false} CompileBack(env: seq<Cell>, c: Comp, a: Stmt, inLoop: bool, op: Byte, t: Token, s: Stmt)
    returns (d: Comp)
    requires Legal(env, a, inLoop) && Ready(c, inLoop)
    requires (op == OP_JZ && t == Until && s == BeginUntil(a)) || (op == OP_JMP && t == Again && s == BeginAgain(a))
    ensures Compile(c, Tokens(env, s)) == Ok(d) && Built(env, c, d, s)
    decreases s, 0
  {
    hide Built, Compile, Legal, BackStep, Tokens;
    var c1 := c.(begins := c.begins + [|c.ops|]);
    var e := CompileStmt(env, c1, a, inLoop);
    BuildBack(env, c, e, a, op, s);
    d := BackStep(e, op).value;
    var ts := Tokens(env, a);
    CompileSnoc(c1, ts, e, t);
    BackTokens(env, a);
    CompileCons(c, Begin, ts + [t]);
  }

  lemma IfTokens(env: seq<Cell>, a: Stmt)
    ensures Tokens(env, IfThen(a)) == [If] + (Tokens(env, a) + [Then])
  {
  }

  lemma IfElseTokens(env: seq<Cell>, a: Stmt, b: Stmt)
    ensures Tokens(env, IfThenElse(a, b)) == [If] + Tokens(env, a) + [Else] + Tokens(env, b) + [Then]
  {
  }

  lemma BackTokens(env: seq<Cell>, a: Stmt)
    ensures Tokens(env, BeginUntil(a)) == [Begin] + (Tokens(env, a) + [Until])
    ensures Tokens(env, BeginAgain(a)) == [Begin] + (Tokens(env, a) + [Again])
  {
  }

  lemma {:induction false} CompileWhile(env: seq<Cell>, c: Comp, a: Stmt, b: Stmt, inLoop: bool) returns (d: Comp)
    requires Legal(env, a, inLoop) && Legal(env, b, inLoop) && Ready(c, inLoop)
    ensures Compile(c, Tokens(env, BeginWhile(a, b))) == Ok(d) && Built(env, c, d, BeginWhile(a, b))
    decreases BeginWhile(a, b), 0
  {
    hide Built, Compile, Legal, WhileStep, RepeatStep, Tokens;
    var c1 := c.(begins := c.begins + [|c.ops|]);
    var e := CompileStmt(env, c1, a, inLoop);
    ReadyAfter(env, c1, e, a, inLoop);
    var e2 := WhileReady(env, c1, e, a, inLoop);
    var f := CompileStmt(env, e2, b, inLoop);
    BuildWhile(env, c, e, f, a, b);
    d := RepeatStep(f).value;
    CompileFive(c, Begin, Tokens(env, a), e, While, Tokens(env, b), f, Repeat);
    WhileTokens(env, a, b);
  }

  lemma WhileTokens(env: seq<Cell>, a: Stmt, b: Stmt)
    ensures Tokens(env, BeginWhile(a, b)) == [Begin] + Tokens(env, a) + [While] + Tokens(env, b) + [Repeat]
  {
  }

  lemma WhileReady(env: seq<Cell>, c1: Comp, e: Comp, a: Stmt, inLoop: bool) returns (e2: Comp)
    requires c1.begins != [] && Built(env, c1, e, a) && Ready(e, inLoop)
    ensures WhileStep(e) == Ok(e2) && Ready(e2, inLoop)
  {
    e2 := WhileStep(e).value;
  }

  lemma {:induction false} CompileDo(env: seq<Cell>, c: Comp, query: bool, a: Stmt, plus: bool, inLoop: bool)
    returns (d: Comp)
    requires Legal(env, a, true) && Ready(c, inLoop)
    ensures Compile(c, Tokens(env, DoLoop(query, a, plus))) == Ok(d) && Built(env, c, d, DoLoop(query, a, plus))
    decreases DoLoop(query, a, plus), 0
  {
    hide Built, Step, Compile, Legal, Tokens;
    var t := if query then QueryDo else Do;
    var c1 := DoReady(c, query, t);
    var e := CompileStmt(env, c1, a, true);
    d := DoEnd(env, c, e, query, a, plus);
    CompileSnoc(c1, Tokens(env, a), e, Loop(plus));
    DoTokens(env, query, a, plus);
    CompileCons(c, t, Tokens(env, a) + [Loop(plus)]);
  }

  lemma DoTokens(env: seq<Cell>, query: bool, a: Stmt, plus: bool)
    ensures Tokens(env, DoLoop(query, a, plus)) == [if query then QueryDo else Do] + (Tokens(env, a) + [Loop(plus)])
  {
  }

  lemma DoEnd(env: seq<Cell>, c: Comp, e: Comp, query: bool, a: Stmt, plus: bool) returns (d: Comp)
    requires Below(c.leaves, |c.ops|) && Below(c.qdos, |c.ops|)
    requires Built(env, if query then QueryDoStep(c) else DoStep(c), e, a)
    ensures Step(e, Loop(plus)) == Ok(d) && Built(env, c, d, DoLoop(query, a, plus))
  {
    hide Built;
    if query { BuildQueryDo(env, c, e, a, plus); } else { BuildDo(env, c, e, a, plus); }
    d := PopLoop(LoopLeaves(e, LoopOp(plus)));
  }

  lemma DoReady(c: Comp, query: bool, t: Token) returns (c1: Comp)
    requires Below(c.leaves, |c.ops|) && Below(c.qdos, |c.ops|) && t == if query then QueryDo else Do
    ensures c1 == (if query then QueryDoStep(c) else DoStep(c)) && Step(c, t) == Ok(c1) && Ready(c1, true)
  {
    c1 := if query then QueryDoStep(c) else DoStep(c);
  }

  lemma {:induction false} CompileCase(env: seq<Cell>, c: Comp, ch: Chain, inLoop: bool) returns (d: Comp)
    requires ChainLegal(env, ch, inLoop) && Ready(c, inLoop)
    ensures Compile(c, Tokens(env, CaseOf(ch))) == Ok(d) && Built(env, c, d, CaseOf(ch))
    decreases ch, 1
  {
    hide Built, ChainBuilt, Compile, ChainLegal, EndCaseStep, Tokens, ChainTokens;
    var c1 := c.(cases := c.cases + [-1]);
    var e := CompileChain(env, c1, ch, inLoop);
    BuildCase(env, c, e, ch);
    d := EndCaseStep(e).value;
    var ts := ChainTokens(env, ch);
    CompileSnoc(c1, ts, e, EndCase);
    CaseTokens(env, ch);
    CompileCons(c, Case, ts + [EndCase]);
  }

  lemma CaseTokens(env: seq<Cell>, ch: Chain)
    ensures Tokens(env, CaseOf(ch)) == [Case] + (ChainTokens(env, ch) + [EndCase])
  {
  }

  lemma {:induction false} CompileChain(env: seq<Cell>, c: Comp, ch: Chain, inLoop: bool) returns (d: Comp)
    requires ChainLegal(env, ch, inLoop) && Ready(c, inLoop)
    ensures Compile(c, ChainTokens(env, ch)) == Ok(d) && ChainBuilt(env, c, d, ch)
    decreases ch, 0
  {
    hide Built, ChainBuilt;
    match ch
    case Default(a) =>
      d := CompileStmt(env, c, a, inLoop);
      BuildDefault(env, c, d, a);
    case OfClause(t, a, rest) =>
      var e := CompileStmt(env, c, t, inLoop);
      ReadyAfter(env, c, e, t, inLoop);
      var f := CompileStmt(env, OfStep(e), a, inLoop);
      var f2 := EndOfReady(env, e, f, a, inLoop);
      d := CompileChain(env, f2, rest, inLoop);
      BuildOf(env, c, e, f, d, t, a, rest);
      CompileOf(c, Tokens(env, t), e, Tokens(env, a), f, f2, ChainTokens(env, rest));
  }

  lemma EndOfReady(env: seq<Cell>, e: Comp, f: Comp, a: Stmt, inLoop: bool) returns (f2: Comp)
    requires Ready(e, inLoop) && Built(env, OfStep(e), f, a)
    ensures EndOfStep(f) == Ok(f2) && Ready(f2, inLoop)
  {
    hide Size, Leaves, Recs, Layout, Patch, ToBytes;
    ReadyAfter(env, OfStep(e), f, a, inLoop);
    f2 := EndOfStep(f).value;
  }

  lemma CompileOf(c: Comp, ts: seq<Token>, e: Comp, xs: seq<Token>, f: Comp, f2: Comp, ys: seq<Token>)
    requires Compile(c, ts) == Ok(e) && Compile(OfStep(e), xs) == Ok(f) && EndOfStep(f) == Ok(f2)
    ensures Compile(c, ts + [Of] + xs + [EndOf] + ys) == Compile(f2, ys)
  {
    hide OfStep, EndOfStep, Compile;
    CompileCons(f, EndOf, ys);
    CompileAppend(OfStep(e), xs, [EndOf] + ys);
    CompileCons(e, Of, xs + ([EndOf] + ys));
    CompileAppend(c, ts, [Of] + (xs + ([EndOf] + ys)));
    assert ts + [Of] + xs + [EndOf] + ys == ts + ([Of] + (xs + ([EndOf] + ys)));
  }

  // ----- whole definitions -----

  lemma {:induction false} NoOuterLeaves(env: seq<Cell>, s: Stmt, p: nat)
    requires Legal(env, s, false)
    ensures Leaves(s, p) == []
    decreases s
  {
    match s
    case Seq(a, b) => NoOuterLeaves(env, a, p); NoOuterLeaves(env, b, p + Size(a));
    case IfThen(a) => NoOuterLeaves(env, a, p + 5);
    case IfThenElse(a, b) => NoOuterLeaves(env, a, p + 5); NoOuterLeaves(env, b, p + 5 + Size(a) + 5);
    case BeginUntil(a) => NoOuterLeaves(env, a, p);
    case BeginAgain(a) => NoOuterLeaves(env, a, p);
    case BeginWhile(a, b) => NoOuterLeaves(env, a, p); NoOuterLeaves(env, b, p + Size(a) + 5);
    case CaseOf(ch) => ChainNoOuterLeaves(env, ch, p);
    case _ =>
  }

  lemma {:induction false} ChainNoOuterLeaves(env: seq<Cell>, ch: Chain, p: nat)
    requires ChainLegal(env, ch, false)
    ensures ChainLeaves(ch, p) == []
    decreases ch
  {
    match ch
    case Default(a) => NoOuterLeaves(env, a, p);
    case OfClause(t, a, rest) =>
      NoOuterLeaves(env, t, p);
      NoOuterLeaves(env, a, p + Size(t) + 8);
      ChainNoOuterLeaves(env, rest, p + Size(t) + 8 + Size(a) + 5);
  }

  lemma {:induction false} LegalRecognised(env: seq<Cell>, s: Stmt, inLoop: bool)
    requires Legal(env, s, inLoop)
    ensures forall t | t in Tokens(env, s) :: Recognised(t)
    decreases s
  {
    match s
    case Seq(a, b) => LegalRecognised(env, a, inLoop); LegalRecognised(env, b, inLoop);
    case IfThen(a) => LegalRecognised(env, a, inLoop);
    case IfThenElse(a, b) => LegalRecognised(env, a, inLoop); LegalRecognised(env, b, inLoop);
    case BeginUntil(a) => LegalRecognised(env, a, inLoop);
    case BeginAgain(a) => LegalRecognised(env, a, inLoop);
    case BeginWhile(a, b) => LegalRecognised(env, a, inLoop); LegalRecognised(env, b, inLoop);
    case DoLoop(_, a, _) => LegalRecognised(env, a, true);
    case CaseOf(ch) => ChainLegalRecognised(env, ch, inLoop);
    case _ =>
  }

  lemma {:induction false} ChainLegalRecognised(env: seq<Cell>, ch: Chain, inLoop: bool)
    requires ChainLegal(env, ch, inLoop)
    ensures forall t | t in ChainTokens(env, ch) :: Recognised(t)
    decreases ch
  {
    match ch
    case Default(a) => LegalRecognised(env, a, inLoop);
    case OfClause(t, a, rest) =>
      LegalRecognised(env, t, inLoop);
      LegalRecognised(env, a, inLoop);
      ChainLegalRecognised(env, rest, inLoop);
  }

  lemma {:induction false} RecursionBytes(ops: seq<Byte>, recs: seq<nat>, cfa: Cell)
    ensures SameBut(ops, ResolveRecursion(ops, recs, cfa), recs)
    decreases |recs|
  {
    if recs != [] {
      var e := Patch(ops, Last(recs), cfa);
      RecursionBytes(e, ButLast(recs), cfa);
      var r := ResolveRecursion(ops, recs, cfa);
      forall j | 0 <= j < |ops| && (forall h | h in recs :: !(h <= j < h + 4)) ensures r[j] == ops[j] {
        assert Last(recs) in recs && forall h | h in ButLast(recs) :: h in recs;
      }
    }
  }

  /** The finished code of a definition with body s, allotted at cfa. */
  ghost predicate IsCode(env: seq<Cell>, code: seq<Byte>, s: Stmt, cfa: Cell) {
    && |code| == Size(s) + 1 && Layout(env, code, s, 0) && ByteAt(code, Size(s), OP_RET)
    && forall h | h in Recs(s, 0) :: 1 <= h <= |code| - 4 && Operand(code, h - 1) == cfa
  }

  /** The words of a definition with body s, up to `;`. */
  function Code(env: seq<Cell>, s: Stmt, cfa: Cell): Result<seq<Byte>> {
    var r := Compile(EMPTY, Tokens(env, s));
    if r.Err? then Err(r.code) else Finish(r.value, cfa)
  }

  lemma RecursionLayout(env: seq<Cell>, code: seq<Byte>, s: Stmt, cfa: Cell)
    requires Layout(env, code, s, 0) && |code| == Size(s) + 1 && ByteAt(code, Size(s), OP_RET)
    ensures var r := ResolveRecursion(code, Recs(s, 0), cfa);
            Layout(env, r, s, 0) && ByteAt(r, Size(s), OP_RET)
  {
    hide Layout, Size, Recs, ResolveRecursion, OpenByte;
    var r := ResolveRecursion(code, Recs(s, 0), cfa);
    RecursionBytes(code, Recs(s, 0), cfa);
    forall i: nat | i < |code| ensures OpenByte(s, 0, i, false) || r[i] == code[i] {
      if h :| h in Recs(s, 0) && h <= i < h + 4 {
        RecOpen(s, 0, h);
      }
    }
    LayoutSame(env, code, r, s, 0, false);
    assert !OpenByte(s, 0, Size(s), false);
  }

  lemma CompileBody(env: seq<Cell>, s: Stmt) returns (d: Comp)
    requires Legal(env, s, false)
    ensures Compile(EMPTY, Tokens(env, s)) == Ok(d) && d == EMPTY.(ops := d.ops, recs := Recs(s, 0))
    ensures |d.ops| == Size(s) && Layout(env, d.ops, s, 0)
  {
    d := CompileStmt(env, EMPTY, s, false);
    NoOuterLeaves(env, s, 0);
  }

  lemma FinishBody(env: seq<Cell>, s: Stmt, cfa: Cell, d: Comp)
    requires d == EMPTY.(ops := d.ops, recs := Recs(s, 0)) && |d.ops| == Size(s) && Layout(env, d.ops, s, 0)
    ensures var r := Finish(d, cfa);
            && r.Ok? && |r.value| == Size(s) + 1 && Layout(env, r.value, s, 0)
            && ByteAt(r.value, Size(s), OP_RET)
  {
    hide Layout, Size, Recs, ResolveRecursion;
    LayoutPrefix(env, d.ops, d.ops + [OP_RET], s, 0);
    RecursionLayout(env, d.ops + [OP_RET], s, cfa);
  }

  /** The words of a well-nested definition compile and `;` accepts them; this is the code they leave. */
  lemma CompileDefinition(env: seq<Cell>, s: Stmt, cfa: Cell)
    requires Legal(env, s, false) && Size(s) + 1 < WORD
    ensures Code(env, s, cfa).Ok? && IsCode(env, Code(env, s, cfa).value, s, cfa)
  {
    var ts := Tokens(env, s);
    hide Layout, Size, Recs, Tokens, Compile, Legal, Finish, Recognised;
    var d := CompileBody(env, s);
    LegalRecognised(env, s, false);
    FinishBody(env, s, cfa, d);
    JumpIntegrity.DefinitionSound(ts, d, cfa);
  }
}
