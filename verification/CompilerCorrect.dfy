/**
 * The code that the control-structure words leave for well-nested definitions,
 * run by the virtual machine, does what the definitions mean.
 */
module CompilerCorrect {
  import opened Cells
  import opened ByteCode
  import opened Structured
  import opened LayoutCompile
  import opened ByteVM
  import opened Meaning
  import opened Courses

  // ----- programs in code memory -----

  /** The code that compiling definition k leaves. */
  function BytesOf(w: World, k: nat): seq<Byte>
    requires k < |w.defs|
  {
    var r := Code(Env(w), w.defs[k].body, w.defs[k].cfa);
    if r.Ok? then r.value else []
  }

  function ImageOf(w: World, code: map<Cell, Byte>, k: nat): Image
    requires k < |w.defs|
  {
    Image(code, w.entry, BytesOf(w, k), w.defs[k].cfa)
  }

  ghost predicate DefLoaded(w: World, code: map<Cell, Byte>, k: nat)
    requires k < |w.defs|
  {
    Legal(Env(w), w.defs[k].body, false) && Size(w.defs[k].body) + 1 < WORD && ImageOf(w, code, k).Valid()
  }

  /** Every definition is well nested, and what its words compile to lies at its address. */
  ghost predicate Loaded(w: World, code: map<Cell, Byte>) {
    forall k | 0 <= k < |w.defs| :: DefLoaded(w, code, k)
  }

  // ----- a statement in its place -----

  ghost predicate SelfCalls(m: Image, recs: seq<nat>) {
    forall h | h in recs :: 1 <= h <= |m.bytes| - 4 && Operand(m.bytes, h - 1) == m.base
  }

  /** The finished code of s is at p, and its LEAVEs lead to exit. */
  ghost predicate Placed(w: World, m: Image, k: nat, s: Stmt, p: nat, exit: nat, inLoop: bool) {
    && k < |w.defs| && m == ImageOf(w, m.code, k) && m.Valid()
    && Legal(Env(w), s, inLoop) && Layout(Env(w), m.bytes, s, p)
    && p + Size(s) < |m.bytes| && exit < |m.bytes|
    && SelfCalls(m, Recs(s, p)) && AllTo(m.bytes, Leaves(s, p), exit)
  }

  ghost predicate ChainPlaced(w: World, m: Image, k: nat, ch: Chain, p: nat, exit: nat, end: nat, inLoop: bool) {
    && k < |w.defs| && m == ImageOf(w, m.code, k) && m.Valid()
    && ChainLegal(Env(w), ch, inLoop) && ChainLayout(Env(w), m.bytes, ch, p)
    && p + ChainSize(ch) <= end < |m.bytes| && exit < |m.bytes|
    && SelfCalls(m, ChainRecs(ch, p)) && AllTo(m.bytes, ChainLeaves(ch, p), exit)
    && end == p + ChainSize(ch) && AllTo(m.bytes, EndOfs(ch, p), end)
  }

  lemma BodyPlaced(w: World, code: map<Cell, Byte>, k: nat)
    requires Loaded(w, code) && k < |w.defs|
    ensures Placed(w, ImageOf(w, code, k), k, w.defs[k].body, 0, 0, false)
    ensures ByteAt(BytesOf(w, k), Size(w.defs[k].body), OP_RET)
  {
    hide Legal, Layout, Size, Recs, Leaves, Code;
    assert DefLoaded(w, code, k);
    CompileDefinition(Env(w), w.defs[k].body, w.defs[k].cfa);
    NoOuterLeaves(Env(w), w.defs[k].body, 0);
  }

  lemma SelfCallsSplit(m: Image, r: seq<nat>, t: seq<nat>)
    requires SelfCalls(m, r + t)
    ensures SelfCalls(m, r) && SelfCalls(m, t)
  {
    hide Operand;
    assert forall h | h in r :: h in r + t;
    assert forall h | h in t :: h in r + t;
  }

  lemma AllToSplit(code: seq<Byte>, r: seq<nat>, t: seq<nat>, exit: nat)
    requires AllTo(code, r + t, exit)
    ensures AllTo(code, r, exit) && AllTo(code, t, exit)
  {
    hide JumpAt;
    assert forall h | h in r :: h in r + t;
    assert forall h | h in t :: h in r + t;
  }

  lemma SeqPlaced(w: World, m: Image, k: nat, a: Stmt, b: Stmt, p: nat, exit: nat, inLoop: bool)
    requires Placed(w, m, k, Seq(a, b), p, exit, inLoop)
    ensures Placed(w, m, k, a, p, exit, inLoop) && Placed(w, m, k, b, p + Size(a), exit, inLoop)
  {
    hide Size, Layout, Leaves, Recs, JumpAt, ImageOf, SelfCalls, AllTo;
    SizeOf(Seq(a, b));
    LayoutOf(Env(w), m.bytes, Seq(a, b), p);
    LeavesOf(Seq(a, b), p);
    RecsOf(Seq(a, b), p);
    SelfCallsSplit(m, Recs(a, p), Recs(b, p + Size(a)));
    AllToSplit(m.bytes, Leaves(a, p), Leaves(b, p + Size(a)), exit);
  }

  lemma IfPlaced(w: World, m: Image, k: nat, a: Stmt, p: nat, exit: nat, inLoop: bool)
    requires Placed(w, m, k, IfThen(a), p, exit, inLoop)
    ensures Placed(w, m, k, a, p + 5, exit, inLoop)
    ensures JumpAt(m.bytes, p, OP_JZ, p + 5 + Size(a)) && p + 5 + Size(a) < |m.bytes|
  {
    hide Size, Layout, Leaves, Recs, JumpAt, ImageOf;
    SizeOf(IfThen(a));
    LayoutOf(Env(w), m.bytes, IfThen(a), p);
    LeavesOf(IfThen(a), p);
    RecsOf(IfThen(a), p);
  }

  lemma IfElsePlaced(w: World, m: Image, k: nat, a: Stmt, b: Stmt, p: nat, exit: nat, inLoop: bool)
    requires Placed(w, m, k, IfThenElse(a, b), p, exit, inLoop)
    ensures Placed(w, m, k, a, p + 5, exit, inLoop) && Placed(w, m, k, b, p + 5 + Size(a) + 5, exit, inLoop)
    ensures var q := p + 5 + Size(a); JumpAt(m.bytes, p, OP_JZ, q + 5) && JumpAt(m.bytes, q, OP_JMP, q + 5 + Size(b))
                                      && q + 5 + Size(b) < |m.bytes|
  {
    hide Size, Layout, Leaves, Recs, JumpAt, ImageOf, SelfCalls, AllTo;
    var s := IfThenElse(a, b);
    SizeOf(s);
    LayoutOf(Env(w), m.bytes, s, p);
    LeavesOf(s, p);
    RecsOf(s, p);
    SelfCallsSplit(m, Recs(a, p + 5), Recs(b, p + 5 + Size(a) + 5));
    AllToSplit(m.bytes, Leaves(a, p + 5), Leaves(b, p + 5 + Size(a) + 5), exit);
  }

  lemma BackPlaced(w: World, m: Image, k: nat, a: Stmt, until: bool, p: nat, exit: nat, inLoop: bool)
    requires Placed(w, m, k, if until then BeginUntil(a) else BeginAgain(a), p, exit, inLoop)
    ensures Placed(w, m, k, a, p, exit, inLoop) && p + Size(a) + 5 < |m.bytes|
    ensures JumpAt(m.bytes, p + Size(a), if until then OP_JZ else OP_JMP, p)
  {
    hide Size, Layout, Leaves, Recs, JumpAt, ImageOf;
    var s := if until then BeginUntil(a) else BeginAgain(a);
    SizeOf(s);
    LayoutOf(Env(w), m.bytes, s, p);
    LeavesOf(s, p);
    RecsOf(s, p);
  }

  lemma WhilePlaced(w: World, m: Image, k: nat, a: Stmt, b: Stmt, p: nat, exit: nat, inLoop: bool)
    requires Placed(w, m, k, BeginWhile(a, b), p, exit, inLoop)
    ensures Placed(w, m, k, a, p, exit, inLoop) && Placed(w, m, k, b, p + Size(a) + 5, exit, inLoop)
    ensures var q := p + Size(a) + 5;
            && JumpAt(m.bytes, q - 5, OP_JZ, q + Size(b) + 5)
            && JumpAt(m.bytes, q + Size(b), OP_JMP, p)
                                      && q + Size(b) + 5 < |m.bytes|
  {
    hide Size, Layout, Leaves, Recs, JumpAt, ImageOf, SelfCalls, AllTo;
    var s := BeginWhile(a, b);
    SizeOf(s);
    LayoutOf(Env(w), m.bytes, s, p);
    LeavesOf(s, p);
    RecsOf(s, p);
    SelfCallsSplit(m, Recs(a, p), Recs(b, p + Size(a) + 5));
    AllToSplit(m.bytes, Leaves(a, p), Leaves(b, p + Size(a) + 5), exit);
  }

  lemma DoPlaced(w: World, m: Image, k: nat, query: bool, a: Stmt, plus: bool, p: nat, exit: nat, inLoop: bool)
    requires Placed(w, m, k, DoLoop(query, a, plus), p, exit, inLoop)
    ensures var q := p + DoSize(query); var end := q + Size(a) + 1;
            && Placed(w, m, k, a, q, end, true) && (query ==> QueryLayout(m.bytes, p, end)) && DoLayout(m.bytes, q - 3)
            && ByteAt(m.bytes, q + Size(a), LoopOp(plus)) && end < |m.bytes|
  {
    hide Size, Layout, Leaves, Recs, JumpAt, ImageOf, AllTo, QueryLayout, DoLayout, ByteAt;
    var s := DoLoop(query, a, plus);
    SizeOf(s);
    LayoutOf(Env(w), m.bytes, s, p);
    RecsOf(s, p);
  }

  lemma CasePlaced(w: World, m: Image, k: nat, ch: Chain, p: nat, exit: nat, inLoop: bool)
    requires Placed(w, m, k, CaseOf(ch), p, exit, inLoop)
    ensures ChainPlaced(w, m, k, ch, p, exit, p + ChainSize(ch), inLoop) && Size(CaseOf(ch)) == ChainSize(ch)
  {
    hide Size, Layout, Leaves, Recs, JumpAt, ImageOf, AllTo, ChainSize, ChainLayout, EndOfs;
    var s := CaseOf(ch);
    SizeOf(s);
    LayoutOf(Env(w), m.bytes, s, p);
    LeavesOf(s, p);
    RecsOf(s, p);
  }

  lemma DefaultPlaced(w: World, m: Image, k: nat, a: Stmt, p: nat, exit: nat, end: nat, inLoop: bool)
    requires ChainPlaced(w, m, k, Default(a), p, exit, end, inLoop)
    ensures Placed(w, m, k, a, p, exit, inLoop) && ByteAt(m.bytes, p + Size(a), OP_DROP) && end == p + Size(a) + 1
  {
    hide Size, Layout, Leaves, Recs, JumpAt, ImageOf, AllTo, ChainSize, ChainLayout, EndOfs;
    ChainSizeOf(Default(a));
    ChainLayoutOf(Env(w), m.bytes, Default(a), p);
    ChainLeavesOf(Default(a), p);
    ChainRecsOf(Default(a), p);
  }

  lemma ClausePlaced(w: World, m: Image, k: nat, t: Stmt, a: Stmt, rest: Chain, p: nat, exit: nat, end: nat,
                     inLoop: bool)
    requires ChainPlaced(w, m, k, OfClause(t, a, rest), p, exit, end, inLoop)
    ensures var q := p + Size(t); var n := q + 8 + Size(a);
            && Placed(w, m, k, t, p, exit, inLoop) && Placed(w, m, k, a, q + 8, exit, inLoop)
            && ChainPlaced(w, m, k, rest, n + 5, exit, end, inLoop)
            && OfLayout(m.bytes, q, n + 5) && JumpAt(m.bytes, n, OP_JMP, end)
  {
    hide Size, Layout, Leaves, Recs, JumpAt, ImageOf, ChainSize, ChainLayout, OfLayout, ByteAt, SelfCalls, AllTo,
      EndOfs;
    var ch := OfClause(t, a, rest);
    var q := p + Size(t) + 8;
    var n := q + Size(a);
    ChainSizeOf(ch);
    ChainLayoutOf(Env(w), m.bytes, ch, p);
    ChainLeavesOf(ch, p);
    ChainRecsOf(ch, p);
    EndOfsOf(ch, p);
    SelfCallsSplit(m, Recs(t, p) + Recs(a, q), ChainRecs(rest, n + 5));
    SelfCallsSplit(m, Recs(t, p), Recs(a, q));
    AllToSplit(m.bytes, Leaves(t, p) + Leaves(a, q), ChainLeaves(rest, n + 5), exit);
    AllToSplit(m.bytes, Leaves(t, p), Leaves(a, q), exit);
    AllToSplit(m.bytes, [n + 1], EndOfs(rest, n + 5), end);
    AllToOne(m.bytes, n + 1, end);
  }

  lemma AllToOne(code: seq<Byte>, h: nat, t: nat)
    requires AllTo(code, [h], t)
    ensures h >= 1 && JumpAt(code, h - 1, OP_JMP, t)
  {
    assert h in [h];
  }

  // ----- the simulation -----

  ghost predicate Simulated(w: World, m: Image, k: nat, s: Stmt, p: nat, exit: nat, d: Data, fuel: nat, n: nat)
    requires k < |w.defs|
  {
    Follows(m, n, At(m, p, d), Eval(w, k, s, p, d, fuel), p + Size(s), exit, fuel)
  }

  lemma SimSeq(w: World, m: Image, k: nat, a: Stmt, b: Stmt, p: nat, exit: nat, d: Data, fuel: nat, n1: nat, n2: nat)
    returns (n: nat)
    requires k < |w.defs| && Simulated(w, m, k, a, p, exit, d, fuel, n1)
    requires var o := Eval(w, k, a, p, d, fuel); o.Norm? ==> Simulated(w, m, k, b, p + Size(a), exit, o.d, fuel, n2)
    ensures Simulated(w, m, k, Seq(a, b), p, exit, d, fuel, n)
  {
    hide Run, At, Eval, Size;
    SizeOf(Seq(a, b));
    EvalSeq(w, k, a, b, p, d, fuel);
    var o := Eval(w, k, a, p, d, fuel);
    if o.Norm? {
      var q := p + Size(a);
      FollowsAfter(m, n1, At(m, p, d), At(m, q, o.d), n2, Eval(w, k, b, q, o.d, fuel), q + Size(b), exit, fuel, fuel);
      n := n1 + n2;
    } else {
      Pass(m, n1, At(m, p, d), o, p + Size(a), p + Size(a) + Size(b), exit, fuel);
      n := n1;
    }
  }

  lemma EvalSeq(w: World, k: nat, a: Stmt, b: Stmt, p: nat, d: Data, fuel: nat)
    requires k < |w.defs|
    ensures var o := Eval(w, k, a, p, d, fuel);
            Eval(w, k, Seq(a, b), p, d, fuel) == if o.Norm? then Eval(w, k, b, p + Size(a), o.d, fuel) else o
  {
    hide Size;
  }

  lemma SimIf(w: World, m: Image, k: nat, a: Stmt, p: nat, exit: nat, d: Data, fuel: nat, n1: nat) returns (n: nat)
    requires k < |w.defs| && m.Valid() && JumpAt(m.bytes, p, OP_JZ, p + 5 + Size(a)) && p + 5 + Size(a) < |m.bytes|
    requires d.ds != [] && d.ds[0] != 0 ==> Simulated(w, m, k, a, p + 5, exit, Pop(d), fuel, n1)
    ensures Simulated(w, m, k, IfThen(a), p, exit, d, fuel, n)
  {
    hide Run, At, JumpAt, Size;
    SizeOf(IfThen(a));
    n := 1;
    if d.ds != [] {
      JzStep(m, p, p + 5 + Size(a), d);
      if d.ds[0] != 0 {
        FollowsAfter(m, 1, At(m, p, d), At(m, p + 5, Pop(d)), n1, Eval(w, k, a, p + 5, Pop(d), fuel), p + 5 + Size(a),
                     exit, fuel, fuel);
        n := 1 + n1;
      }
    } else {
      JzLost(m, p, p + 5 + Size(a), d);
    }
  }

  /** The yes-branch of IF ... ELSE, with its jump over the other branch. */
  lemma JumpOn(m: Image, n1: nat, a: Status, o: Outcome, p: nat, t: nat, exit: nat, fuel: nat) returns (n: nat)
    requires Follows(m, n1, a, o, p, exit, fuel) && m.Valid() && JumpAt(m.bytes, p, OP_JMP, t) && t <= |m.bytes|
    ensures Follows(m, n, a, o, t, exit, fuel)
  {
    hide Run, At, JumpAt;
    n := n1;
    if o.Norm? {
      JmpStep(m, p, t, o.d);
      GoesOn(m, n1, a, At(m, p, o.d), 1, At(m, t, o.d));
      n := n1 + 1;
    }
  }

  lemma SimIfElse(w: World, m: Image, k: nat, a: Stmt, b: Stmt, p: nat, exit: nat, d: Data, fuel: nat, n1: nat)
    returns (n: nat)
    requires k < |w.defs| && m.Valid() && d.ds != []
    requires var q := p + 5 + Size(a); JumpAt(m.bytes, p, OP_JZ, q + 5) && JumpAt(m.bytes, q, OP_JMP, q + 5 + Size(b))
                                       && q + 5 + Size(b) < |m.bytes|
    requires if d.ds[0] == 0 then Simulated(w, m, k, b, p + 5 + Size(a) + 5, exit, Pop(d), fuel, n1)
             else Simulated(w, m, k, a, p + 5, exit, Pop(d), fuel, n1)
    ensures Simulated(w, m, k, IfThenElse(a, b), p, exit, d, fuel, n)
  {
    hide Run, At, JumpAt, Size, Follows;
    SizeOf(IfThenElse(a, b));
    var q := p + 5 + Size(a);
    JzStep(m, p, q + 5, d);
    var r := if d.ds[0] == 0 then q + 5 else p + 5;
    var o := Eval(w, k, IfThenElse(a, b), p, d, fuel);
    var n2 := n1;
    if d.ds[0] != 0 { n2 := JumpOn(m, n1, At(m, r, Pop(d)), o, q, q + 5 + Size(b), exit, fuel); }
    FollowsAfter(m, 1, At(m, p, d), At(m, r, Pop(d)), n2, o, q + 5 + Size(b), exit, fuel, fuel);
    n := 1 + n2;
  }

  lemma SimUntil(w: World, m: Image, k: nat, a: Stmt, p: nat, exit: nat, d: Data, fuel: nat, n1: nat, n2: nat)
    returns (n: nat)
    requires k < |w.defs| && m.Valid() && p + Size(a) + 5 < |m.bytes| && JumpAt(m.bytes, p + Size(a), OP_JZ, p)
    requires Simulated(w, m, k, a, p, exit, d, fuel, n1)
    requires var o := Eval(w, k, a, p, d, fuel);
             o.Norm? && o.d.ds != [] && o.d.ds[0] == 0 && fuel > 0 ==>
               Simulated(w, m, k, BeginUntil(a), p, exit, Pop(o.d), fuel - 1, n2)
    ensures Simulated(w, m, k, BeginUntil(a), p, exit, d, fuel, n)
  {
    hide Run, At, JumpAt, Size;
    SizeOf(BeginUntil(a));
    var o := Eval(w, k, a, p, d, fuel);
    n := n1;
    if o.Norm? && o.d.ds != [] {
      JzStep(m, p + Size(a), p, o.d);
      var r := if o.d.ds[0] == 0 then p else p + Size(a) + 5;
      GoesOn(m, n1, At(m, p, d), At(m, p + Size(a), o.d), 1, At(m, r, Pop(o.d)));
      n := n1 + 1;
      if o.d.ds[0] == 0 {
        n := SimAgainAfter(w, m, k, BeginUntil(a), p, exit, d, Pop(o.d), fuel, n1 + 1, n2);
      }
    } else if o.Norm? {
      JzLost(m, p + Size(a), p, o.d);
      GoesOn(m, n1, At(m, p, d), At(m, p + Size(a), o.d), 1, Lost);
      n := n1 + 1;
    }
  }

  /** Back at the start of a loop, with one less of fuel. */
  lemma SimAgainAfter(w: World, m: Image, k: nat, s: Stmt, p: nat, exit: nat, d: Data, e: Data, fuel: nat, n1: nat,
                      n2: nat)
    returns (n: nat)
    requires k < |w.defs| && Goes(m, n1, At(m, p, d), At(m, p, e)) && n1 >= 1
    requires fuel > 0 ==> Simulated(w, m, k, s, p, exit, e, fuel - 1, n2)
    ensures Follows(m, n, At(m, p, d), if fuel == 0 then Timeout else Eval(w, k, s, p, e, fuel - 1), p + Size(s),
                    exit, fuel)
  {
    hide Run, Size, Eval;
    n := n1;
    if fuel > 0 {
      FollowsAfter(m, n1, At(m, p, d), At(m, p, e), n2, Eval(w, k, s, p, e, fuel - 1), p + Size(s), exit, fuel - 1,
                   fuel);
      n := n1 + n2;
    }
  }

  lemma SimAgain(w: World, m: Image, k: nat, a: Stmt, p: nat, exit: nat, d: Data, fuel: nat, n1: nat, n2: nat)
    returns (n: nat)
    requires k < |w.defs| && m.Valid() && p + Size(a) + 5 < |m.bytes| && JumpAt(m.bytes, p + Size(a), OP_JMP, p)
    requires Simulated(w, m, k, a, p, exit, d, fuel, n1)
    requires var o := Eval(w, k, a, p, d, fuel);
             o.Norm? && fuel > 0 ==> Simulated(w, m, k, BeginAgain(a), p, exit, o.d, fuel - 1, n2)
    ensures Simulated(w, m, k, BeginAgain(a), p, exit, d, fuel, n)
  {
    hide Run, At, JumpAt, Size;
    SizeOf(BeginAgain(a));
    var o := Eval(w, k, a, p, d, fuel);
    n := n1;
    if o.Norm? {
      JmpStep(m, p + Size(a), p, o.d);
      GoesOn(m, n1, At(m, p, d), At(m, p + Size(a), o.d), 1, At(m, p, o.d));
      n := SimAgainAfter(w, m, k, BeginAgain(a), p, exit, d, o.d, fuel, n1 + 1, n2);
    }
  }

  lemma SimWhile(w: World, m: Image, k: nat, a: Stmt, b: Stmt, p: nat, exit: nat, d: Data, fuel: nat, n1: nat,
                 n2: nat, n3: nat)
    returns (n: nat)
    requires k < |w.defs| && m.Valid()
    requires var q := p + Size(a) + 5;
             && JumpAt(m.bytes, q - 5, OP_JZ, q + Size(b) + 5)
             && JumpAt(m.bytes, q + Size(b), OP_JMP, p)
                                       && q + Size(b) + 5 < |m.bytes|
    requires Simulated(w, m, k, a, p, exit, d, fuel, n1)
    requires var o := Eval(w, k, a, p, d, fuel);
             o.Norm? && o.d.ds != [] && o.d.ds[0] != 0 ==>
               var u := Eval(w, k, b, p + Size(a) + 5, Pop(o.d), fuel);
               && Simulated(w, m, k, b, p + Size(a) + 5, exit, Pop(o.d), fuel, n2)
               && (u.Norm? && fuel > 0 ==> Simulated(w, m, k, BeginWhile(a, b), p, exit, u.d, fuel - 1, n3))
    ensures Simulated(w, m, k, BeginWhile(a, b), p, exit, d, fuel, n)
  {
    hide Run, At, JumpAt, Size;
    SizeOf(BeginWhile(a, b));
    var q := p + Size(a) + 5;
    var o := Eval(w, k, a, p, d, fuel);
    n := n1;
    if o.Norm? && o.d.ds != [] {
      JzStep(m, q - 5, q + Size(b) + 5, o.d);
      var r := if o.d.ds[0] == 0 then q + Size(b) + 5 else q;
      GoesOn(m, n1, At(m, p, d), At(m, q - 5, o.d), 1, At(m, r, Pop(o.d)));
      n := n1 + 1;
      if o.d.ds[0] != 0 {
        n := SimWhileBody(w, m, k, a, b, p, exit, d, Pop(o.d), fuel, n1 + 1, n2, n3);
      }
    } else if o.Norm? {
      JzLost(m, q - 5, q + Size(b) + 5, o.d);
      GoesOn(m, n1, At(m, p, d), At(m, q - 5, o.d), 1, Lost);
      n := n1 + 1;
    }
  }

  lemma SimWhileBody(w: World, m: Image, k: nat, a: Stmt, b: Stmt, p: nat, exit: nat, d: Data, e: Data, fuel: nat,
                     n1: nat, n2: nat, n3: nat)
    returns (n: nat)
    requires k < |w.defs| && m.Valid()
    requires var q := p + Size(a) + 5; JumpAt(m.bytes, q + Size(b), OP_JMP, p) && q + Size(b) + 5 < |m.bytes|
    requires Goes(m, n1, At(m, p, d), At(m, p + Size(a) + 5, e)) && n1 >= 1
    requires var u := Eval(w, k, b, p + Size(a) + 5, e, fuel);
             && Simulated(w, m, k, b, p + Size(a) + 5, exit, e, fuel, n2)
             && (u.Norm? && fuel > 0 ==> Simulated(w, m, k, BeginWhile(a, b), p, exit, u.d, fuel - 1, n3))
    ensures var u := Eval(w, k, b, p + Size(a) + 5, e, fuel);
            var o :=
              if !u.Norm? then u
              else if fuel == 0 then Timeout
              else Eval(w, k, BeginWhile(a, b), p, u.d, fuel - 1);
            Follows(m, n, At(m, p, d), o, p + Size(BeginWhile(a, b)), exit, fuel)
  {
    hide Run, At, JumpAt, Size, Eval;
    var q := p + Size(a) + 5;
    var u := Eval(w, k, b, q, e, fuel);
    FollowsAfter(m, n1, At(m, p, d), At(m, q, e), n2, u, q + Size(b), exit, fuel, fuel);
    n := n1 + n2;
    if u.Norm? {
      JmpStep(m, q + Size(b), p, u.d);
      GoesOn(m, n1 + n2, At(m, p, d), At(m, q + Size(b), u.d), 1, At(m, p, u.d));
      n := SimAgainAfter(w, m, k, BeginWhile(a, b), p, exit, d, u.d, fuel, n1 + n2 + 1, n3);
    }
  }

  /** DO's three words, behind the test of ?DO if there is one. */
  lemma RunDo(m: Image, q: nat, d: Data) returns (n: nat)
    requires m.Valid() && DoLayout(m.bytes, q) && |d.ds| >= 2
    ensures Goes(m, n, At(m, q, d), At(m, q + 3, EnterLoop(d, At(m, q + 2, d).ip)))
  {
    hide Run, At;
    var d1 := d.(ds := d.ds[1..], rs := [d.ds[0]] + d.rs);
    var d2 := d.(ds := d.ds[2..], rs := [d.ds[1]] + d1.rs);
    WordStep(m, q, OP_PUSH, d, d1);
    WordStep(m, q + 1, OP_PUSH, d1, d2);
    PushIpStep(m, q + 2, d2);
    SameAddress(m, q + 2, d, d2);
    var a := At(m, q + 2, d).ip;
    assert PushReturn(d2, a) == EnterLoop(d, a);
    GoesOn(m, 1, At(m, q, d), At(m, q + 1, d1), 1, At(m, q + 2, d2));
    GoesOn(m, 2, At(m, q, d), At(m, q + 2, d2), 1, At(m, q + 3, PushReturn(d2, a)));
    n := 3;
  }

  lemma SameAddress(m: Image, p: nat, d: Data, e: Data)
    ensures At(m, p, d).Running? && At(m, p, e).Running? && At(m, p, d).ip == At(m, p, e).ip
  {
  }

  /** ?DO's test: on to the DO, or past the loop. */
  lemma RunQuery(m: Image, p: nat, end: nat, d: Data) returns (n: nat)
    requires m.Valid() && QueryLayout(m.bytes, p, end) && end < |m.bytes| && p + 13 < |m.bytes| && |d.ds| >= 2
    ensures Goes(m, n, At(m, p, d), if d.ds[0] == d.ds[1] then At(m, end, d.(ds := d.ds[2..])) else At(m, p + 13, d))
  {
    hide Run, At, JumpAt, ByteAt;
    var r := if d.ds[0] == d.ds[1] then p + 7 else p + 13;
    RunCompare(m, p, d);
    n := 3;
    if r == p + 7 {
      var e := d.(ds := d.ds[2..]);
      TwoDropStep(m, p + 7, d, e);
      JmpStep(m, p + 8, end, e);
      GoesOn(m, 3, At(m, p, d), At(m, p + 7, d), 1, At(m, p + 8, e));
      GoesOn(m, 4, At(m, p, d), At(m, p + 8, e), 1, At(m, end, e));
      n := 5;
    }
  }

  /** 2DUP = JZ keeps the stack. */
  lemma RunCompare(m: Image, p: nat, d: Data)
    requires m.Valid() && ByteAt(m.bytes, p, OP_2DUP) && ByteAt(m.bytes, p + 1, OP_EQ)
             && JumpAt(m.bytes, p + 2, OP_JZ, p + 13)
    requires p + 13 < |m.bytes| && |d.ds| >= 2
    ensures Goes(m, 3, At(m, p, d), At(m, if d.ds[0] == d.ds[1] then p + 7 else p + 13, d))
  {
    hide Run, At, JumpAt, ByteAt;
    var (b, a) := (d.ds[0], d.ds[1]);
    var d1 := d.(ds := [b, a] + d.ds);
    var d2 := d.(ds := [Flag(a == b)] + d.ds);
    TwoDupStep(m, p, d, d1);
    EqualStep(m, p + 1, b, a, d1, d2);
    JzStep(m, p + 2, p + 13, d2);
    assert Pop(d2).ds == d.ds;
    GoesOn(m, 1, At(m, p, d), At(m, p + 1, d1), 1, At(m, p + 2, d2));
    GoesOn(m, 2, At(m, p, d), At(m, p + 2, d2), 1, At(m, if a == b then p + 7 else p + 13, d));
  }

  lemma TwoDupStep(m: Image, p: nat, d: Data, e: Data)
    requires m.Valid() && ByteAt(m.bytes, p, OP_2DUP) && |d.ds| >= 2 && e == d.(ds := [d.ds[0], d.ds[1]] + d.ds)
    ensures Goes(m, 1, At(m, p, d), At(m, p + 1, e))
  {
    hide Run, At;
    assert e.ds == [d.ds[0], d.ds[1], d.ds[0], d.ds[1]] + d.ds[2..];
    WordStep(m, p, OP_2DUP, d, e);
  }

  lemma TwoDropStep(m: Image, p: nat, d: Data, e: Data)
    requires m.Valid() && ByteAt(m.bytes, p, OP_2DROP) && |d.ds| >= 2 && e == d.(ds := d.ds[2..])
    ensures Goes(m, 1, At(m, p, d), At(m, p + 1, e))
  {
    hide Run, At;
    assert [] + d.ds[2..] == d.ds[2..];
    WordStep(m, p, OP_2DROP, d, e);
  }

  lemma EqualStep(m: Image, p: nat, b: Cell, a: Cell, d: Data, e: Data)
    requires m.Valid() && ByteAt(m.bytes, p, OP_EQ) && |d.ds| >= 2 && d.ds[0] == b && d.ds[1] == a
    requires e == d.(ds := [Flag(a == b)] + d.ds[2..])
    ensures Goes(m, 1, At(m, p, d), At(m, p + 1, e))
  {
    WordStep(m, p, OP_EQ, d, e);
  }

  ghost predicate LoopSimulated(w: World, m: Image, k: nat, a: Stmt, plus: bool, p: nat, exit: nat, d: Data,
                                fuel: nat, n: nat)
    requires k < |w.defs| && p >= 1
  {
    Follows(m, n, At(m, p, d), EvalLoop(w, k, a, plus, p, d, fuel), p + Size(a) + 1, exit, fuel)
  }

  lemma SimRound(w: World, m: Image, k: nat, a: Stmt, plus: bool, p: nat, exit: nat, d: Data, fuel: nat, n1: nat,
                 n2: nat)
    returns (n: nat)
    requires k < |w.defs| && p >= 1 && m.Valid() && m.base == w.defs[k].cfa && p + Size(a) + 1 < |m.bytes|
    requires ByteAt(m.bytes, p + Size(a), LoopOp(plus))
    requires Simulated(w, m, k, a, p, p + Size(a) + 1, d, fuel, n1)
    requires var o := Eval(w, k, a, p, d, fuel); o.Norm? && fuel > 0 ==>
               var l := LoopBack(plus, o.d); l.Around? ==> LoopSimulated(w, m, k, a, plus, p, exit, l.d, fuel - 1, n2)
    ensures LoopSimulated(w, m, k, a, plus, p, exit, d, fuel, n)
  {
    hide Run, At, Size, Eval, LoopBack;
    var o := Eval(w, k, a, p, d, fuel);
    n := n1;
    if o.Norm? {
      LoopStep(m, p + Size(a), plus, o.d);
      n := SimBack(w, m, k, a, plus, p, exit, d, o.d, fuel, n1, n2);
    }
  }

  /** What follows a round of the loop. */
  function AfterRound(w: World, k: nat, a: Stmt, plus: bool, p: nat, e: Data, fuel: nat): Outcome
    requires k < |w.defs| && p >= 1
  {
    match LoopBack(plus, e)
    case Over(f) => Norm(f)
    case Around(f) =>
      if e.rs[0] != Address(w, k, p - 1) then Strange
      else if fuel == 0 then Timeout
      else EvalLoop(w, k, a, plus, p, f, fuel - 1)
    case Stuck => Wrong
  }

  lemma SimBack(w: World, m: Image, k: nat, a: Stmt, plus: bool, p: nat, exit: nat, d: Data, e: Data, fuel: nat,
                n1: nat, n2: nat)
    returns (n: nat)
    requires k < |w.defs| && p >= 1 && m.Valid() && m.base == w.defs[k].cfa && p + Size(a) + 1 < |m.bytes|
    requires ByteAt(m.bytes, p + Size(a), LoopOp(plus)) && Goes(m, n1, At(m, p, d), At(m, p + Size(a), e))
    requires var l := LoopBack(plus, e); l.Around? && fuel > 0 ==>
             LoopSimulated(w, m, k, a, plus, p, exit, l.d, fuel - 1, n2)
    ensures Follows(m, n, At(m, p, d), AfterRound(w, k, a, plus, p, e, fuel), p + Size(a) + 1, exit, fuel)
  {
    hide Run, At, Size, EvalLoop;
    LoopStep(m, p + Size(a), plus, e);
    n := n1 + 1;
    var l := LoopBack(plus, e);
    if l.Over? {
      GoesOn(m, n1, At(m, p, d), At(m, p + Size(a), e), 1, At(m, p + Size(a) + 1, l.d));
    } else if l.Around? && e.rs[0] == Address(w, k, p - 1) {
      LoopStart(m, w, k, p, e, l.d);
      GoesOn(m, n1, At(m, p, d), At(m, p + Size(a), e), 1, At(m, p, l.d));
      if fuel > 0 {
        FollowsAfter(m, n1 + 1, At(m, p, d), At(m, p, l.d), n2, EvalLoop(w, k, a, plus, p, l.d, fuel - 1),
                     p + Size(a) + 1, exit, fuel - 1, fuel);
        n := n1 + 1 + n2;
      }
    } else if l.Stuck? {
      GoesOn(m, n1, At(m, p, d), At(m, p + Size(a), e), 1, Lost);
    }
  }

  lemma LoopStart(m: Image, w: World, k: nat, p: nat, e: Data, f: Data)
    requires k < |w.defs| && 1 <= p < |m.bytes| && m.Valid() && m.base == w.defs[k].cfa
    requires e.rs != [] && e.rs[0] == Address(w, k, p - 1)
    ensures Running(AfterTop(e.rs), f) == At(m, p, f)
  {
  }

  lemma SimDo(w: World, m: Image, k: nat, query: bool, a: Stmt, plus: bool, p: nat, exit: nat, d: Data, fuel: nat,
              n1: nat)
    returns (n: nat)
    requires k < |w.defs| && m.Valid() && m.base == w.defs[k].cfa
    requires var q := p + DoSize(query); var end := q + Size(a) + 1;
             (query ==> QueryLayout(m.bytes, p, end)) && DoLayout(m.bytes, q - 3) && end < |m.bytes|
    requires var q := p + DoSize(query);
             |d.ds| >= 2 && !(query && d.ds[0] == d.ds[1]) ==>
               LoopSimulated(w, m, k, a, plus, q, exit, EnterLoop(d, Address(w, k, q - 1)), fuel, n1)
    ensures Simulated(w, m, k, DoLoop(query, a, plus), p, exit, d, fuel, n)
  {
    hide Run, At, Size, EvalLoop, QueryLayout, DoLayout;
    SizeOf(DoLoop(query, a, plus));
    var q := p + DoSize(query);
    n := 0;
    if |d.ds| >= 2 {
      if query { n := RunQuery(m, p, q + Size(a) + 1, d); } else { ZeroSteps(m, At(m, p, d)); }
      if !query || d.ds[0] != d.ds[1] {
        var e := EnterLoop(d, Address(w, k, q - 1));
        var n2 := RunDo(m, q - 3, d);
        AddressAt(m, w, k, q - 1, d);
        GoesOn(m, n, At(m, p, d), At(m, q - 3, d), n2, At(m, q, e));
        FollowsAfter(m, n + n2, At(m, p, d), At(m, q, e), n1, EvalLoop(w, k, a, plus, q, e, fuel), q + Size(a) + 1,
                     exit, fuel, fuel);
        n := n + n2 + n1;
      }
    } else {
      n := DoLost(m, p, query, q + Size(a) + 1, d);
    }
  }

  /** DO and ?DO want two cells. */
  lemma DoLost(m: Image, p: nat, query: bool, end: nat, d: Data) returns (n: nat)
    requires m.Valid() && (query ==> QueryLayout(m.bytes, p, end)) && DoLayout(m.bytes, p + DoSize(query) - 3)
    requires |d.ds| < 2
    ensures Goes(m, n, At(m, p, d), Lost)
  {
    hide Run, At, JumpAt;
    n := 1;
    if query {
      WordLost(m, p, OP_2DUP, d);
    } else if d.ds == [] {
      WordLost(m, p, OP_PUSH, d);
    } else {
      var e := d.(ds := d.ds[1..], rs := [d.ds[0]] + d.rs);
      WordStep(m, p, OP_PUSH, d, e);
      WordLost(m, p + 1, OP_PUSH, e);
      GoesOn(m, 1, At(m, p, d), At(m, p + 1, e), 1, Lost);
      n := 2;
    }
  }

  lemma ZeroSteps(m: Image, a: Status)
    ensures Goes(m, 0, a, a)
  {
  }

  lemma AddressAt(m: Image, w: World, k: nat, p: nat, d: Data)
    requires k < |w.defs| && m.base == w.defs[k].cfa
    ensures At(m, p, d) == Running(Address(w, k, p), d)
  {
  }

  // ----- CASE -----

  ghost predicate ChainSimulated(w: World, m: Image, k: nat, ch: Chain, p: nat, exit: nat, end: nat, d: Data,
                                 fuel: nat, n: nat)
    requires k < |w.defs|
  {
    Follows(m, n, At(m, p, d), EvalChain(w, k, ch, p, d, fuel), end, exit, fuel)
  }

  lemma SimDefault(w: World, m: Image, k: nat, a: Stmt, p: nat, exit: nat, d: Data, fuel: nat, n1: nat) returns (n: nat)
    requires k < |w.defs| && m.Valid() && ByteAt(m.bytes, p + Size(a), OP_DROP)
             && Simulated(w, m, k, a, p, exit, d, fuel, n1)
    ensures ChainSimulated(w, m, k, Default(a), p, exit, p + Size(a) + 1, d, fuel, n)
  {
    hide Run, At, Size, Eval;
    var o := Eval(w, k, a, p, d, fuel);
    n := n1;
    if o.Norm? && o.d.ds != [] {
      DropStep(m, p + Size(a), o.d);
      GoesOn(m, n1, At(m, p, d), At(m, p + Size(a), o.d), 1, At(m, p + Size(a) + 1, Pop(o.d)));
      n := n1 + 1;
    } else if o.Norm? {
      WordLost(m, p + Size(a), OP_DROP, o.d);
      GoesOn(m, n1, At(m, p, d), At(m, p + Size(a), o.d), 1, Lost);
      n := n1 + 1;
    }
  }

  lemma DropStep(m: Image, p: nat, d: Data)
    requires m.Valid() && ByteAt(m.bytes, p, OP_DROP) && d.ds != []
    ensures Goes(m, 1, At(m, p, d), At(m, p + 1, Pop(d)))
  {
    hide Run, At;
    assert [] + d.ds[1..] == d.ds[1..];
    WordStep(m, p, OP_DROP, d, Pop(d));
  }

  /** OF: on to its body without the selector, or to the next clause with it. */
  lemma RunOf(m: Image, q: nat, next: nat, d: Data) returns (n: nat)
    requires m.Valid() && OfLayout(m.bytes, q, next) && next < |m.bytes| && |d.ds| >= 2
    ensures Goes(m, n, At(m, q, d), if d.ds[0] == d.ds[1] then At(m, q + 8, d.(ds := d.ds[2..]))
                 else At(m, next, Pop(d)))
  {
    hide Run, At, JumpAt;
    var (b, a) := (d.ds[0], d.ds[1]);
    var d1 := d.(ds := [a, b, a] + d.ds[2..]);
    var d2 := d.(ds := [Flag(a == b), a] + d.ds[2..]);
    WordStep(m, q, OP_OVER, d, d1);
    assert d1.ds[2..] == [a] + d.ds[2..];
    assert d2.ds == [Flag(b == a)] + d1.ds[2..];
    EqualStep(m, q + 1, a, b, d1, d2);
    JzStep(m, q + 2, next, d2);
    assert Pop(d2).ds == d.ds[1..];
    GoesOn(m, 1, At(m, q, d), At(m, q + 1, d1), 1, At(m, q + 2, d2));
    GoesOn(m, 2, At(m, q, d), At(m, q + 2, d2), 1, At(m, if a == b then q + 7 else next, Pop(d)));
    n := 3;
    if a == b {
      DropStep(m, q + 7, Pop(d));
      assert Pop(Pop(d)).ds == d.ds[2..];
      GoesOn(m, 3, At(m, q, d), At(m, q + 7, Pop(d)), 1, At(m, q + 8, Pop(Pop(d))));
      n := 4;
    }
  }

  lemma SimClause(w: World, m: Image, k: nat, t: Stmt, a: Stmt, rest: Chain, p: nat, exit: nat, end: nat, d: Data,
                  fuel: nat, n1: nat, n2: nat)
    returns (n: nat)
    requires k < |w.defs| && m.Valid() && end < |m.bytes|
    requires var q := p + Size(t); var r := q + 8 + Size(a);
             OfLayout(m.bytes, q, r + 5) && JumpAt(m.bytes, r, OP_JMP, end) && r + 5 < |m.bytes|
    requires Simulated(w, m, k, t, p, exit, d, fuel, n1)
    requires var o := Eval(w, k, t, p, d, fuel); o.Norm? && |o.d.ds| >= 2 ==>
               ClauseSimulated(w, m, k, t, a, rest, p, exit, end, o.d, fuel, n2)
    ensures ChainSimulated(w, m, k, OfClause(t, a, rest), p, exit, end, d, fuel, n)
  {
    hide Run, At, Size, Eval, JumpAt, OfLayout;
    var o := Eval(w, k, t, p, d, fuel);
    n := n1;
    if o.Norm? && |o.d.ds| >= 2 {
      n := SimChosen(w, m, k, t, a, rest, p, exit, end, d, o.d, fuel, n1, n2);
    } else if o.Norm? {
      OfLost(m, p + Size(t), p + Size(t) + 8 + Size(a) + 5, o.d);
      GoesOn(m, n1, At(m, p, d), At(m, p + Size(t), o.d), 1, Lost);
      n := n1 + 1;
    }
  }

  lemma OfLost(m: Image, q: nat, next: nat, d: Data)
    requires m.Valid() && OfLayout(m.bytes, q, next) && |d.ds| < 2
    ensures Goes(m, 1, At(m, q, d), Lost)
  {
    hide Run, At, JumpAt;
    WordLost(m, q, OP_OVER, d);
  }

  /** The body of the clause, or the next clauses, are simulated. */
  ghost predicate ClauseSimulated(w: World, m: Image, k: nat, t: Stmt, a: Stmt, rest: Chain, p: nat, exit: nat,
                                  end: nat, e: Data, fuel: nat, n: nat)
    requires k < |w.defs| && |e.ds| >= 2
  {
    var q := p + Size(t);
    if e.ds[0] == e.ds[1] then Simulated(w, m, k, a, q + 8, exit, e.(ds := e.ds[2..]), fuel, n)
    else ChainSimulated(w, m, k, rest, q + 8 + Size(a) + 5, exit, end, Pop(e), fuel, n)
  }

  lemma SimChosen(w: World, m: Image, k: nat, t: Stmt, a: Stmt, rest: Chain, p: nat, exit: nat, end: nat, d: Data,
                  e: Data, fuel: nat, n1: nat, n2: nat)
    returns (n: nat)
    requires k < |w.defs| && m.Valid() && end < |m.bytes| && |e.ds| >= 2
    requires var q := p + Size(t); var r := q + 8 + Size(a);
             OfLayout(m.bytes, q, r + 5) && JumpAt(m.bytes, r, OP_JMP, end) && r + 5 < |m.bytes|
    requires Goes(m, n1, At(m, p, d), At(m, p + Size(t), e))
    requires ClauseSimulated(w, m, k, t, a, rest, p, exit, end, e, fuel, n2)
    ensures var r := p + Size(t) + 8;
            var o := if e.ds[0] == e.ds[1] then Eval(w, k, a, r, e.(ds := e.ds[2..]), fuel)
                     else EvalChain(w, k, rest, r + Size(a) + 5, Pop(e), fuel);
            Follows(m, n, At(m, p, d), o, end, exit, fuel)
  {
    hide Run, At, Size, Eval, EvalChain, JumpAt, OfLayout, Follows;
    var q := p + Size(t);
    var r := q + 8 + Size(a);
    var n3 := RunOf(m, q, r + 5, e);
    if e.ds[0] == e.ds[1] {
      var f := e.(ds := e.ds[2..]);
      GoesOn(m, n1, At(m, p, d), At(m, q, e), n3, At(m, q + 8, f));
      var o := Eval(w, k, a, q + 8, f, fuel);
      var n4 := JumpOn(m, n2, At(m, q + 8, f), o, r, end, exit, fuel);
      FollowsAfter(m, n1 + n3, At(m, p, d), At(m, q + 8, f), n4, o, end, exit, fuel, fuel);
      n := n1 + n3 + n4;
    } else {
      GoesOn(m, n1, At(m, p, d), At(m, q, e), n3, At(m, r + 5, Pop(e)));
      FollowsAfter(m, n1 + n3, At(m, p, d), At(m, r + 5, Pop(e)), n2, EvalChain(w, k, rest, r + 5, Pop(e), fuel), end,
                   exit, fuel, fuel);
      n := n1 + n3 + n2;
    }
  }

  // ----- calls -----

  /** The end of a called definition leads back to behind its call. */
  lemma SimReturn(m: Image, b: Image, n1: nat, s: Status, o: Outcome, size: nat, x: nat, exit: nat, fuel: nat, p: nat,
                  a: Cell)
    returns (n: nat)
    requires m.Valid() && b.Valid() && b.code == m.code && b.entry == m.entry && p < |m.bytes| && a == m.base + p
    requires Follows(b, n1, s, o, size, x, fuel) && ByteAt(b.bytes, size, OP_RET)
    ensures Follows(m, n, s, ReturnTo(m.entry, o, a), p + 1, exit, fuel)
  {
    hide Run, At;
    n := n1;
    if (o.Norm? || o.Exited?) && |o.d.rs| > m.entry && o.d.rs[0] == a {
      var r := Run(m.code, m.entry, s, n1);
      if o.Norm? { OpcodeAt(b, size, o.d); AtIs(b, size, o.d); }
      assert AtReturn(m, r, o.d);
      RetStep(m, r, o.d);
      var e := o.d.(rs := o.d.rs[1..]);
      Behind(m, p, o.d, e);
      GoesOn(m, n1, s, r, 1, At(m, p + 1, e));
      n := n1 + 1;
    }
  }

  lemma AtIs(m: Image, p: nat, d: Data)
    ensures At(m, p, d).Running? && At(m, p, d).d == d
  {
  }

  lemma Behind(m: Image, p: nat, d: Data, e: Data)
    requires m.Valid() && p < |m.bytes| && d.rs != [] && d.rs[0] == m.base + p
    ensures Running(AfterTop(d.rs), e) == At(m, p + 1, e)
  {
  }

  lemma SimCall(w: World, m: Image, b: Image, k: nat, j: nat, s: Status, p: nat, exit: nat, d: Data, fuel: nat,
                n0: nat, n1: nat)
    returns (n: nat)
    requires k < |w.defs| && j < |w.defs| && m.Valid() && m == ImageOf(w, m.code, k) && b.Valid()
             && b == ImageOf(w, m.code, j)
    requires p < |m.bytes| && fuel > 0 && n0 >= 1
    requires ByteAt(b.bytes, Size(w.defs[j].body), OP_RET)
    requires var e := PushReturn(d, Address(w, k, p));
             Simulated(w, b, j, w.defs[j].body, 0, 0, e, fuel - 1, n1) && Goes(m, n0, s, At(b, 0, e))
    ensures var a := Address(w, k, p);
            Follows(m, n, s, ReturnTo(w.entry, Eval(w, j, w.defs[j].body, 0, PushReturn(d, a), fuel - 1), a), p + 1,
                    exit, fuel)
  {
    hide Run, At, Size, Eval, BytesOf, Follows, ReturnTo;
    var a := Address(w, k, p);
    var e := PushReturn(d, a);
    var o := Eval(w, j, w.defs[j].body, 0, e, fuel - 1);
    var n2 := SimReturn(m, b, n1, At(b, 0, e), o, Size(w.defs[j].body), 0, exit, fuel - 1, p, a);
    FollowsAfter(m, n0, s, At(b, 0, e), n2, ReturnTo(m.entry, o, a), p + 1, exit, fuel - 1, fuel);
    n := n0 + n2;
  }

  lemma BodyImage(w: World, code: map<Cell, Byte>, j: nat, d: Data)
    requires Loaded(w, code) && j < |w.defs|
    ensures ImageOf(w, code, j).Valid() && At(ImageOf(w, code, j), 0, d) == Running(w.defs[j].cfa, d)
  {
    hide Size, Legal, BytesOf;
    assert DefLoaded(w, code, j);
  }

  lemma CallPlaced(w: World, m: Image, k: nat, j: nat, p: nat, exit: nat, inLoop: bool)
    requires Placed(w, m, k, Call(j), p, exit, inLoop)
    ensures j < |w.defs| && CellAt(m.bytes, p, OP_DEFINITION, w.defs[j].cfa) && Size(Call(j)) == 5
  {
  }

  lemma SelfPlaced(w: World, m: Image, k: nat, p: nat, exit: nat, inLoop: bool)
    requires Placed(w, m, k, SelfCall, p, exit, inLoop)
    ensures CellAt(m.bytes, p, OP_ADDR, m.base) && ByteAt(m.bytes, p + 5, OP_EXECUTE_BC) && Size(SelfCall) == 6
  {
    hide Operand;
    assert p + 1 in Recs(SelfCall, p);
  }

  lemma RunSelf(m: Image, p: nat, d: Data)
    requires m.Valid() && CellAt(m.bytes, p, OP_ADDR, m.base) && ByteAt(m.bytes, p + 5, OP_EXECUTE_BC)
    ensures Goes(m, 2, At(m, p, d), Running(m.base, PushReturn(d, At(m, p + 5, d).ip)))
  {
    hide Run, At;
    var e := d.(ds := [m.base] + d.ds);
    LitStep(m, p, OP_ADDR, m.base, d);
    ExecuteStep(m, p + 5, e);
    assert Pop(e).ds == d.ds;
    SameAddress(m, p + 5, d, e);
    GoesOn(m, 1, At(m, p, d), At(m, p + 5, e), 1, Running(m.base, PushReturn(d, At(m, p + 5, d).ip)));
  }

  /** The statements without parts, other than calls. */
  lemma SimLeaf(w: World, m: Image, k: nat, s: Stmt, p: nat, exit: nat, inLoop: bool, d: Data, fuel: nat)
    returns (n: nat)
    requires Placed(w, m, k, s, p, exit, inLoop)
    requires s.Word? || s.Lit? || s.DropLoop? || s.Nop? || s.Return?
    ensures Simulated(w, m, k, s, p, exit, d, fuel, n)
  {
    hide Run, At, ImageOf, Perform, AllTo, SelfCalls;
    n := if s.Nop? || s.Return? then 0 else 1;
    match s
    case Nop => ZeroSteps(m, At(m, p, d));
    case Return => SimExit(m, p, d);
    case Lit(v) => LitStep(m, p, OP_IVAL, v, d);
    case DropLoop => if |d.rs| >= 3 { UnloopStep(m, p, d); } else { UnloopLost(m, p, d); }
    case Word(op) =>
      if Perform(op, d).Next? { WordStep(m, p, op, d, Perform(op, d).d); } else { WordLost(m, p, op, d); }
  }

  lemma SimExit(m: Image, p: nat, d: Data)
    requires m.Valid() && ByteAt(m.bytes, p, OP_RET)
    ensures AtReturn(m, Run(m.code, m.entry, At(m, p, d), 0), d)
  {
    OpcodeAt(m, p, d);
  }

  lemma UnloopStep(m: Image, p: nat, d: Data)
    requires m.Valid() && ByteAt(m.bytes, p, OP_UNLOOP) && |d.rs| >= 3
    ensures Goes(m, 1, At(m, p, d), At(m, p + 1, d.(rs := d.rs[3..])))
  {
    hide Run, At;
    WordStep(m, p, OP_UNLOOP, d, d.(rs := d.rs[3..]));
  }

  lemma UnloopLost(m: Image, p: nat, d: Data)
    requires m.Valid() && ByteAt(m.bytes, p, OP_UNLOOP) && |d.rs| < 3
    ensures Goes(m, 1, At(m, p, d), Lost)
  {
    hide Run, At;
    WordLost(m, p, OP_UNLOOP, d);
  }

  lemma SimLeave(w: World, m: Image, k: nat, p: nat, exit: nat, inLoop: bool, d: Data, fuel: nat) returns (n: nat)
    requires Placed(w, m, k, LeaveLoop, p, exit, inLoop)
    ensures Simulated(w, m, k, LeaveLoop, p, exit, d, fuel, n)
  {
    hide Run, At, ImageOf, JumpAt, SelfCalls;
    n := 2;
    assert p + 2 in Leaves(LeaveLoop, p);
    if |d.rs| >= 3 {
      var e := d.(rs := d.rs[3..]);
      UnloopStep(m, p, d);
      JmpStep(m, p + 1, exit, e);
      GoesOn(m, 1, At(m, p, d), At(m, p + 1, e), 1, At(m, exit, e));
    } else {
      UnloopLost(m, p, d);
      n := 1;
    }
  }

  /** Running the code of a statement does what the statement means. */
  lemma {:induction false} Sim(w: World, m: Image, k: nat, s: Stmt, p: nat, exit: nat, inLoop: bool, d: Data, fuel: nat)
    returns (n: nat)
    requires Loaded(w, m.code) && Placed(w, m, k, s, p, exit, inLoop)
    ensures Simulated(w, m, k, s, p, exit, d, fuel, n)
    decreases fuel, s, 1
  {
    hide Simulated, Loaded, Placed;
    match s
    case Seq(a, b) => n := SimTwo(w, m, k, a, b, p, exit, inLoop, d, fuel);
    case Call(j) => n := SimDefinition(w, m, k, j, p, exit, inLoop, d, fuel);
    case SelfCall => n := SimSelf(w, m, k, p, exit, inLoop, d, fuel);
    case LeaveLoop => n := SimLeave(w, m, k, p, exit, inLoop, d, fuel);
    case IfThen(a) => n := SimBranch(w, m, k, a, p, exit, inLoop, d, fuel);
    case IfThenElse(a, b) => n := SimBranches(w, m, k, a, b, p, exit, inLoop, d, fuel);
    case BeginUntil(a) => n := SimBackUntil(w, m, k, a, p, exit, inLoop, d, fuel);
    case BeginAgain(a) => n := SimBackAgain(w, m, k, a, p, exit, inLoop, d, fuel);
    case BeginWhile(a, b) => n := SimRepeat(w, m, k, a, b, p, exit, inLoop, d, fuel);
    case DoLoop(query, a, plus) => n := SimDoLoop(w, m, k, query, a, plus, p, exit, inLoop, d, fuel);
    case CaseOf(ch) => n := SimCase(w, m, k, ch, p, exit, inLoop, d, fuel);
    case _ => n := SimLeaf(w, m, k, s, p, exit, inLoop, d, fuel);
  }

  lemma {:induction false} SimBranch(w: World, m: Image, k: nat, a: Stmt, p: nat, exit: nat, inLoop: bool, d: Data,
                                     fuel: nat)
    returns (n: nat)
    requires Loaded(w, m.code) && Placed(w, m, k, IfThen(a), p, exit, inLoop)
    ensures Simulated(w, m, k, IfThen(a), p, exit, d, fuel, n)
    decreases fuel, IfThen(a), 0
  {
    hide Simulated, Loaded, Placed, Eval, Size;
    PlacedHere(w, m, k, IfThen(a), p, exit, inLoop);
    IfPlaced(w, m, k, a, p, exit, inLoop);
    n := 0;
    if d.ds != [] { n := Sim(w, m, k, a, p + 5, exit, inLoop, Pop(d), fuel); }
    n := SimIf(w, m, k, a, p, exit, d, fuel, n);
  }

  lemma {:induction false} SimCase(w: World, m: Image, k: nat, ch: Chain, p: nat, exit: nat, inLoop: bool, d: Data,
                                   fuel: nat)
    returns (n: nat)
    requires Loaded(w, m.code) && Placed(w, m, k, CaseOf(ch), p, exit, inLoop)
    ensures Simulated(w, m, k, CaseOf(ch), p, exit, d, fuel, n)
    decreases fuel, CaseOf(ch), 0
  {
    hide Simulated, Loaded, Placed, Eval, Size, ChainPlaced, ChainSimulated;
    PlacedHere(w, m, k, CaseOf(ch), p, exit, inLoop);
    CasePlaced(w, m, k, ch, p, exit, inLoop);
    n := SimChain(w, m, k, ch, p, exit, p + ChainSize(ch), inLoop, d, fuel);
    CaseSimulated(w, m, k, ch, p, exit, d, fuel, n);
  }

  lemma {:induction false} SimTwo(w: World, m: Image, k: nat, a: Stmt, b: Stmt, p: nat, exit: nat, inLoop: bool,
                                  d: Data, fuel: nat)
    returns (n: nat)
    requires Loaded(w, m.code) && Placed(w, m, k, Seq(a, b), p, exit, inLoop)
    ensures Simulated(w, m, k, Seq(a, b), p, exit, d, fuel, n)
    decreases fuel, Seq(a, b), 0
  {
    hide Simulated, Loaded, Placed, Eval, Size;
    PlacedHere(w, m, k, Seq(a, b), p, exit, inLoop);
    SeqPlaced(w, m, k, a, b, p, exit, inLoop);
    var n1 := Sim(w, m, k, a, p, exit, inLoop, d, fuel);
    var o := Eval(w, k, a, p, d, fuel);
    var n2 := 0;
    if o.Norm? { n2 := Sim(w, m, k, b, p + Size(a), exit, inLoop, o.d, fuel); }
    n := SimSeq(w, m, k, a, b, p, exit, d, fuel, n1, n2);
  }

  lemma {:induction false} SimDoLoop(w: World, m: Image, k: nat, query: bool, a: Stmt, plus: bool, p: nat, exit: nat,
                                     inLoop: bool, d: Data, fuel: nat)
    returns (n: nat)
    requires Loaded(w, m.code) && Placed(w, m, k, DoLoop(query, a, plus), p, exit, inLoop)
    ensures Simulated(w, m, k, DoLoop(query, a, plus), p, exit, d, fuel, n)
    decreases fuel, DoLoop(query, a, plus), 0
  {
    hide Simulated, Loaded, Placed, Eval, Size, LoopSimulated, QueryLayout, DoLayout;
    PlacedHere(w, m, k, DoLoop(query, a, plus), p, exit, inLoop);
    DoPlaced(w, m, k, query, a, plus, p, exit, inLoop);
    var q := p + DoSize(query);
    n := 0;
    if |d.ds| >= 2 { n := SimLoop(w, m, k, a, plus, q, exit, EnterLoop(d, Address(w, k, q - 1)), fuel); }
    n := SimDo(w, m, k, query, a, plus, p, exit, d, fuel, n);
  }

  lemma PlacedHere(w: World, m: Image, k: nat, s: Stmt, p: nat, exit: nat, inLoop: bool)
    requires Placed(w, m, k, s, p, exit, inLoop)
    ensures k < |w.defs| && m.Valid() && m == ImageOf(w, m.code, k) && m.base == w.defs[k].cfa
  {
  }

  lemma CaseSimulated(w: World, m: Image, k: nat, ch: Chain, p: nat, exit: nat, d: Data, fuel: nat, n: nat)
    requires k < |w.defs| && ChainSimulated(w, m, k, ch, p, exit, p + ChainSize(ch), d, fuel, n)
    ensures Simulated(w, m, k, CaseOf(ch), p, exit, d, fuel, n)
  {
    hide Follows, EvalChain;
  }

  lemma {:induction false} SimDefinition(w: World, m: Image, k: nat, j: nat, p: nat, exit: nat, inLoop: bool, d: Data,
                                         fuel: nat)
    returns (n: nat)
    requires Loaded(w, m.code) && Placed(w, m, k, Call(j), p, exit, inLoop)
    ensures Simulated(w, m, k, Call(j), p, exit, d, fuel, n)
    decreases fuel, Call(j), 0
  {
    hide Loaded, Placed, Run, At, Follows, BytesOf, Size;
    PlacedHere(w, m, k, Call(j), p, exit, inLoop);
    CallPlaced(w, m, k, j, p, exit, inLoop);
    n := 0;
    if fuel > 0 {
      var e := PushReturn(d, Address(w, k, p + 4));
      BodyPlaced(w, m.code, j);
      BodyImage(w, m.code, j, e);
      var b := ImageOf(w, m.code, j);
      var n1 := Sim(w, b, j, w.defs[j].body, 0, 0, false, e, fuel - 1);
      CallStep(m, p, w.defs[j].cfa, d);
      AddressAt(m, w, k, p + 4, d);
      n := SimCall(w, m, b, k, j, At(m, p, d), p + 4, exit, d, fuel, 1, n1);
    } else {
      OutOfFuel(m, p, d, p + 5, exit);
    }
  }

  lemma OutOfFuel(m: Image, p: nat, d: Data, q: nat, exit: nat)
    ensures Follows(m, 0, At(m, p, d), Timeout, q, exit, 0)
  {
  }

  lemma {:induction false} SimSelf(w: World, m: Image, k: nat, p: nat, exit: nat, inLoop: bool, d: Data, fuel: nat)
    returns (n: nat)
    requires Loaded(w, m.code) && Placed(w, m, k, SelfCall, p, exit, inLoop)
    ensures Simulated(w, m, k, SelfCall, p, exit, d, fuel, n)
    decreases fuel, SelfCall, 0
  {
    hide Loaded, Placed, Run, At, Follows, BytesOf, Size;
    PlacedHere(w, m, k, SelfCall, p, exit, inLoop);
    SelfPlaced(w, m, k, p, exit, inLoop);
    n := 0;
    if fuel > 0 {
      var e := PushReturn(d, Address(w, k, p + 5));
      BodyPlaced(w, m.code, k);
      BodyImage(w, m.code, k, e);
      var n1 := Sim(w, m, k, w.defs[k].body, 0, 0, false, e, fuel - 1);
      RunSelf(m, p, d);
      AddressAt(m, w, k, p + 5, d);
      n := SimCall(w, m, m, k, k, At(m, p, d), p + 5, exit, d, fuel, 2, n1);
    } else {
      OutOfFuel(m, p, d, p + 6, exit);
    }
  }

  lemma {:induction false} SimBranches(w: World, m: Image, k: nat, a: Stmt, b: Stmt, p: nat, exit: nat, inLoop: bool,
                                       d: Data, fuel: nat)
    returns (n: nat)
    requires Loaded(w, m.code) && Placed(w, m, k, IfThenElse(a, b), p, exit, inLoop)
    ensures Simulated(w, m, k, IfThenElse(a, b), p, exit, d, fuel, n)
    decreases fuel, IfThenElse(a, b), 0
  {
    hide Loaded, Placed, Follows, At, Size;
    PlacedHere(w, m, k, IfThenElse(a, b), p, exit, inLoop);
    IfElsePlaced(w, m, k, a, b, p, exit, inLoop);
    n := 0;
    if d.ds == [] {
      n := 1;
      JzLost(m, p, p + 5 + Size(a) + 5, d);
      WrongSimulated(w, m, k, IfThenElse(a, b), p, exit, d, fuel, n);
    } else if d.ds[0] == 0 {
      n := Sim(w, m, k, b, p + 5 + Size(a) + 5, exit, inLoop, Pop(d), fuel);
      n := SimIfElse(w, m, k, a, b, p, exit, d, fuel, n);
    } else {
      n := Sim(w, m, k, a, p + 5, exit, inLoop, Pop(d), fuel);
      n := SimIfElse(w, m, k, a, b, p, exit, d, fuel, n);
    }
  }

  lemma WrongSimulated(w: World, m: Image, k: nat, s: Stmt, p: nat, exit: nat, d: Data, fuel: nat, n: nat)
    requires k < |w.defs| && Eval(w, k, s, p, d, fuel) == Wrong && Goes(m, n, At(m, p, d), Lost)
    ensures Simulated(w, m, k, s, p, exit, d, fuel, n)
  {
    hide Eval;
  }

  lemma {:induction false} SimBackUntil(w: World, m: Image, k: nat, a: Stmt, p: nat, exit: nat, inLoop: bool, d: Data,
                                        fuel: nat)
    returns (n: nat)
    requires Loaded(w, m.code) && Placed(w, m, k, BeginUntil(a), p, exit, inLoop)
    ensures Simulated(w, m, k, BeginUntil(a), p, exit, d, fuel, n)
    decreases fuel, BeginUntil(a), 0
  {
    hide Loaded, Placed, Simulated, Size, Eval;
    PlacedHere(w, m, k, BeginUntil(a), p, exit, inLoop);
    BackPlaced(w, m, k, a, true, p, exit, inLoop);
    var n1 := Sim(w, m, k, a, p, exit, inLoop, d, fuel);
    var o := Eval(w, k, a, p, d, fuel);
    n := 0;
    if o.Norm? && o.d.ds != [] && fuel > 0 { n := Sim(w, m, k, BeginUntil(a), p, exit, inLoop, Pop(o.d), fuel - 1); }
    n := SimUntil(w, m, k, a, p, exit, d, fuel, n1, n);
  }

  lemma {:induction false} SimBackAgain(w: World, m: Image, k: nat, a: Stmt, p: nat, exit: nat, inLoop: bool, d: Data,
                                        fuel: nat)
    returns (n: nat)
    requires Loaded(w, m.code) && Placed(w, m, k, BeginAgain(a), p, exit, inLoop)
    ensures Simulated(w, m, k, BeginAgain(a), p, exit, d, fuel, n)
    decreases fuel, BeginAgain(a), 0
  {
    hide Loaded, Placed, Simulated, Size, Eval;
    PlacedHere(w, m, k, BeginAgain(a), p, exit, inLoop);
    BackPlaced(w, m, k, a, false, p, exit, inLoop);
    var n1 := Sim(w, m, k, a, p, exit, inLoop, d, fuel);
    var o := Eval(w, k, a, p, d, fuel);
    n := 0;
    if o.Norm? && fuel > 0 { n := Sim(w, m, k, BeginAgain(a), p, exit, inLoop, o.d, fuel - 1); }
    n := SimAgain(w, m, k, a, p, exit, d, fuel, n1, n);
  }

  lemma {:induction false} SimRepeat(w: World, m: Image, k: nat, a: Stmt, b: Stmt, p: nat, exit: nat, inLoop: bool,
                                     d: Data, fuel: nat)
    returns (n: nat)
    requires Loaded(w, m.code) && Placed(w, m, k, BeginWhile(a, b), p, exit, inLoop)
    ensures Simulated(w, m, k, BeginWhile(a, b), p, exit, d, fuel, n)
    decreases fuel, BeginWhile(a, b), 0
  {
    hide Loaded, Placed, Simulated, Size, Eval;
    PlacedHere(w, m, k, BeginWhile(a, b), p, exit, inLoop);
    WhilePlaced(w, m, k, a, b, p, exit, inLoop);
    var n1 := Sim(w, m, k, a, p, exit, inLoop, d, fuel);
    var (n2: nat, n3: nat) := (0, 0);
    var o := Eval(w, k, a, p, d, fuel);
    if o.Norm? && o.d.ds != [] {
      n2 := Sim(w, m, k, b, p + Size(a) + 5, exit, inLoop, Pop(o.d), fuel);
      var u := Eval(w, k, b, p + Size(a) + 5, Pop(o.d), fuel);
      if u.Norm? && fuel > 0 { n3 := Sim(w, m, k, BeginWhile(a, b), p, exit, inLoop, u.d, fuel - 1); }
    }
    n := SimWhile(w, m, k, a, b, p, exit, d, fuel, n1, n2, n3);
  }

  lemma {:induction false} SimLoop(w: World, m: Image, k: nat, a: Stmt, plus: bool, p: nat, exit: nat, d: Data,
                                   fuel: nat)
    returns (n: nat)
    requires Loaded(w, m.code) && p >= 1 && Placed(w, m, k, a, p, p + Size(a) + 1, true)
    requires ByteAt(m.bytes, p + Size(a), LoopOp(plus)) && p + Size(a) + 1 < |m.bytes|
    ensures LoopSimulated(w, m, k, a, plus, p, exit, d, fuel, n)
    decreases fuel, a, 2
  {
    hide Loaded, Placed, Simulated, Size, Eval, LoopSimulated, LoopBack;
    PlacedHere(w, m, k, a, p, p + Size(a) + 1, true);
    var n1 := Sim(w, m, k, a, p, p + Size(a) + 1, true, d, fuel);
    var n2 := 0;
    var o := Eval(w, k, a, p, d, fuel);
    if o.Norm? && fuel > 0 {
      var l := LoopBack(plus, o.d);
      if l.Around? { n2 := SimLoop(w, m, k, a, plus, p, exit, l.d, fuel - 1); }
    }
    n := SimRound(w, m, k, a, plus, p, exit, d, fuel, n1, n2);
  }

  lemma {:induction false} SimChain(w: World, m: Image, k: nat, ch: Chain, p: nat, exit: nat, end: nat, inLoop: bool,
                                    d: Data, fuel: nat)
    returns (n: nat)
    requires Loaded(w, m.code) && ChainPlaced(w, m, k, ch, p, exit, end, inLoop)
    ensures ChainSimulated(w, m, k, ch, p, exit, end, d, fuel, n)
    decreases fuel, ch, 1
  {
    hide Loaded, Placed, Simulated, Size, Eval, ChainPlaced, ChainSimulated;
    match ch
    case Default(a) =>
      DefaultPlaced(w, m, k, a, p, exit, end, inLoop);
      PlacedHere(w, m, k, a, p, exit, inLoop);
      n := Sim(w, m, k, a, p, exit, inLoop, d, fuel);
      n := SimDefault(w, m, k, a, p, exit, d, fuel, n);
    case OfClause(t, a, rest) => n := SimClauses(w, m, k, t, a, rest, p, exit, end, inLoop, d, fuel);
  }

  lemma {:induction false} SimClauses(w: World, m: Image, k: nat, t: Stmt, a: Stmt, rest: Chain, p: nat, exit: nat,
                                      end: nat, inLoop: bool, d: Data, fuel: nat)
    returns (n: nat)
    requires Loaded(w, m.code) && ChainPlaced(w, m, k, OfClause(t, a, rest), p, exit, end, inLoop)
    ensures ChainSimulated(w, m, k, OfClause(t, a, rest), p, exit, end, d, fuel, n)
    decreases fuel, OfClause(t, a, rest), 0
  {
    hide Loaded, Placed, Simulated, Size, Eval, ChainPlaced, ChainSimulated;
    ClausePlaced(w, m, k, t, a, rest, p, exit, end, inLoop);
    PlacedHere(w, m, k, t, p, exit, inLoop);
    ChainInside(w, m, k, rest, p + Size(t) + 8 + Size(a) + 5, exit, end, inLoop);
    var n1 := Sim(w, m, k, t, p, exit, inLoop, d, fuel);
    var n2 := 0;
    var o := Eval(w, k, t, p, d, fuel);
    if o.Norm? && |o.d.ds| >= 2 {
      if o.d.ds[0] == o.d.ds[1] {
        n2 := Sim(w, m, k, a, p + Size(t) + 8, exit, inLoop, o.d.(ds := o.d.ds[2..]), fuel);
      } else {
        n2 := SimChain(w, m, k, rest, p + Size(t) + 8 + Size(a) + 5, exit, end, inLoop, Pop(o.d), fuel);
      }
    }
    n := SimClause(w, m, k, t, a, rest, p, exit, end, d, fuel, n1, n2);
  }

  lemma ChainInside(w: World, m: Image, k: nat, ch: Chain, p: nat, exit: nat, end: nat, inLoop: bool)
    requires ChainPlaced(w, m, k, ch, p, exit, end, inLoop)
    ensures p <= end < |m.bytes|
  {
  }

  // ----- whole runs -----

  /** n steps of the machine, entered at definition k. */
  function Course(w: World, code: map<Cell, Byte>, k: nat, d: Data, n: nat): Status
    requires k < |w.defs|
  {
    Run(code, w.entry, Running(w.defs[k].cfa, d), n)
  }

  /**
   * Where the meaning is a result, the machine returns with it; where it is wrong, the machine gets lost;
   * where fuel runs out, the machine runs on.
   */
  lemma RunsAsMeant(w: World, code: map<Cell, Byte>, k: nat, d: Data, fuel: nat) returns (n: nat)
    requires Loaded(w, code) && k < |w.defs|
    ensures match Result(w, k, d, fuel)
            case Norm(e) => Course(w, code, k, d, n) == Returned(e)
            case Wrong => Course(w, code, k, d, n) == Lost
            case Timeout => n >= fuel && Course(w, code, k, d, n).Running?
            case _ => true
  {
    hide Loaded, BytesOf, Size, Eval, Run, Placed, At;
    var b := ImageOf(w, code, k);
    var s := w.defs[k].body;
    BodyPlaced(w, code, k);
    BodyImage(w, code, k, d);
    n := Sim(w, b, k, s, 0, 0, false, d, fuel);
    var o := Eval(w, k, s, 0, d, fuel);
    if (o.Norm? || o.Exited?) && |o.d.rs| <= w.entry {
      var r := Run(code, w.entry, At(b, 0, d), n);
      if o.Norm? { OpcodeAt(b, Size(s), o.d); AtIs(b, Size(s), o.d); }
      LastRetStep(b, r, o.d);
      GoesOn(b, n, At(b, 0, d), r, 1, Returned(o.d));
      n := n + 1;
    }
  }

  lemma StaysStopped(w: World, code: map<Cell, Byte>, k: nat, d: Data, n: nat, more: nat)
    requires k < |w.defs| && n <= more && !Course(w, code, k, d, n).Running?
    ensures Course(w, code, k, d, more) == Course(w, code, k, d, n)
  {
    hide Run;
    RunMore(code, w.entry, Running(w.defs[k].cfa, d), n, more - n);
    RunStopped(code, w.entry, Course(w, code, k, d, n), more - n);
  }

  /** How the machine ends is how n + 1 of fuel mean it to end. */
  ghost predicate AsMeant(o: Outcome, s: Status) {
    || o.Strange?
    || (s.Returned? && o == Norm(s.d))
    || (s == Lost && o == Wrong)
  }

  lemma EndsAsMeant(w: World, code: map<Cell, Byte>, k: nat, d: Data, n: nat)
    requires Loaded(w, code) && k < |w.defs| && !Course(w, code, k, d, n).Running?
    ensures AsMeant(Result(w, k, d, n + 1), Course(w, code, k, d, n))
  {
    hide Loaded, Course, Eval;
    var n2 := RunsAsMeant(w, code, k, d, n + 1);
    if n2 <= n && !Course(w, code, k, d, n2).Running? {
      StaysStopped(w, code, k, d, n2, n);
    } else if n <= n2 {
      StaysStopped(w, code, k, d, n, n2);
    }
  }

  lemma RunsWhileMeant(w: World, code: map<Cell, Byte>, k: nat, d: Data, n: nat)
    requires Loaded(w, code) && k < |w.defs| && Result(w, k, d, n) == Timeout
    ensures Course(w, code, k, d, n).Running?
  {
    hide Loaded, Course, Eval;
    var n2 := RunsAsMeant(w, code, k, d, n);
    if !Course(w, code, k, d, n).Running? { StaysStopped(w, code, k, d, n, n2); }
  }

  /** The return stack holds what it should at every time. */
  ghost predicate NeverStrange(w: World, k: nat, d: Data)
    requires k < |w.defs|
  {
    forall fuel: nat :: Result(w, k, d, fuel) != Strange
  }

  /**
   * The compiler is correct: a program that leaves return addresses alone returns with e exactly when its
   * meaning is e, gets lost exactly when its meaning is wrong, and runs for ever exactly when it has none.
   */
  lemma CompilerCorrect(w: World, code: map<Cell, Byte>, k: nat, d: Data, e: Data)
    requires Loaded(w, code) && k < |w.defs| && NeverStrange(w, k, d)
    ensures (exists n: nat :: Course(w, code, k, d, n) == Returned(e)) <==>
            (exists fuel: nat :: Result(w, k, d, fuel) == Norm(e))
    ensures (exists n: nat :: Course(w, code, k, d, n) == Lost) <==>
            (exists fuel: nat :: Result(w, k, d, fuel) == Wrong)
    ensures (forall n: nat :: Course(w, code, k, d, n).Running?) <==>
            (forall fuel: nat :: Result(w, k, d, fuel) == Timeout)
  {
    ReturnsAsMeant(w, code, k, d, e);
    LostAsMeant(w, code, k, d);
    RunsForever(w, code, k, d);
  }

  lemma ReturnsAsMeant(w: World, code: map<Cell, Byte>, k: nat, d: Data, e: Data)
    requires Loaded(w, code) && k < |w.defs| && NeverStrange(w, k, d)
    ensures (exists n: nat :: Course(w, code, k, d, n) == Returned(e)) <==>
            (exists fuel: nat :: Result(w, k, d, fuel) == Norm(e))
  {
    hide Loaded, Course, Result;
    if n: nat :| Course(w, code, k, d, n) == Returned(e) { EndsAsMeant(w, code, k, d, n); }
    if fuel: nat :| Result(w, k, d, fuel) == Norm(e) {
      var n := RunsAsMeant(w, code, k, d, fuel);
    }
  }

  lemma LostAsMeant(w: World, code: map<Cell, Byte>, k: nat, d: Data)
    requires Loaded(w, code) && k < |w.defs| && NeverStrange(w, k, d)
    ensures (exists n: nat :: Course(w, code, k, d, n) == Lost) <==>
            (exists fuel: nat :: Result(w, k, d, fuel) == Wrong)
  {
    hide Loaded, Course, Result;
    if n: nat :| Course(w, code, k, d, n) == Lost { EndsAsMeant(w, code, k, d, n); }
    if fuel: nat :| Result(w, k, d, fuel) == Wrong {
      var n := RunsAsMeant(w, code, k, d, fuel);
    }
  }

  lemma RunsForever(w: World, code: map<Cell, Byte>, k: nat, d: Data)
    requires Loaded(w, code) && k < |w.defs| && NeverStrange(w, k, d)
    ensures (forall n: nat :: Course(w, code, k, d, n).Running?) <==>
            (forall fuel: nat :: Result(w, k, d, fuel) == Timeout)
  {
    hide Loaded, Course, Result;
    if forall n: nat :: Course(w, code, k, d, n).Running? {
      forall fuel: nat ensures Result(w, k, d, fuel) == Timeout {
        var n := RunsAsMeant(w, code, k, d, fuel);
        assert Course(w, code, k, d, n).Running?;
      }
    }
    if forall fuel: nat :: Result(w, k, d, fuel) == Timeout {
      forall n: nat ensures Course(w, code, k, d, n).Running? {
        RunsWhileMeant(w, code, k, d, n);
      }
    }
  }
}
