/**
 * Definitions that keep the return stack in order: whatever they compute, the meaning of none of them
 * is ever strange, so that the machine does on every input exactly what they mean.
 */
module OrderlyRuns {
  import opened Cells
  import opened ByteCode
  import ControlWords
  import opened Structured
  import opened ByteVM
  import opened Meaning
  import opened CompilerCorrect

  /** How many loops have their cells on the return stack, at a place that may never be reached. */
  datatype Depth = Loops(n: nat) | Nowhere | Disorder

  /** Words that leave the return stack as it is; R@, I and J only look at it. */
  predicate LeavesReturns(op: Byte) {
    op != OP_PUSH && op != OP_POP && op != OP_UNLOOP
  }

  /** Where two ways meet. */
  function Join(x: Depth, y: Depth): Depth {
    if x.Nowhere? then y else if y.Nowhere? || x == y then x else Disorder
  }

  /** The end of s, which starts with the cells of n loops; LEAVE wants those of its own loop on top. */
  function After(s: Stmt, leave: nat, n: nat): (r: Depth)
    ensures r.Loops? ==> r.n <= n
  {
    match s
    case Word(op) => if LeavesReturns(op) then Loops(n) else Disorder
    case Seq(a, b) =>
      var x := After(a, leave, n);
      if x.Loops? then After(b, leave, x.n) else x
    case Return => if n == 0 then Nowhere else Disorder
    case DropLoop => if n > 0 then Loops(n - 1) else Disorder
    case LeaveLoop => if n == leave > 0 then Nowhere else Disorder
    case IfThen(a) => Join(After(a, leave, n), Loops(n))
    case IfThenElse(a, b) => Join(After(a, leave, n), After(b, leave, n))
    case BeginUntil(a) => Around(After(a, leave, n), n)
    case BeginAgain(a) =>
      if Around(After(a, leave, n), n).Disorder? then Disorder else Nowhere
    case BeginWhile(a, b) =>
      var x := Around(After(a, leave, n), n);
      if x.Loops? && Around(After(b, leave, n), n).Disorder? then Disorder else x
    case DoLoop(_, a, _) => if Around(After(a, n + 1, n + 1), n + 1).Disorder? then Disorder else Loops(n)
    case CaseOf(ch) => ChainAfter(ch, leave, n)
    case _ => Loops(n)
  }

  /** A part of a loop ends as it starts, or nowhere. */
  function Around(x: Depth, n: nat): (r: Depth)
    ensures r.Loops? ==> r == x == Loops(n)
  {
    if x.Loops? && x.n != n then Disorder else x
  }

  function ChainAfter(ch: Chain, leave: nat, n: nat): (r: Depth)
    ensures r.Loops? ==> r.n <= n
  {
    match ch
    case Default(a) => After(a, leave, n)
    case OfClause(t, a, rest) =>
      var x := After(t, leave, n);
      if x.Loops? then Join(After(a, leave, x.n), ChainAfter(rest, leave, x.n)) else x
  }

  /** A definition that does not move cells between the stacks, and drops the cells of its loops before an EXIT. */
  predicate Orderly(s: Stmt) {
    !After(s, 0, 0).Disorder?
  }

  ghost predicate AllOrderly(w: World) {
    forall k | 0 <= k < |w.defs| :: Legal(Env(w), w.defs[k].body, false) && Orderly(w.defs[k].body)
  }

  // ----- the return stack at the end of a statement -----

  /** Without the cells of c loops. */
  function Without(rs: seq<Cell>, c: nat): seq<Cell> {
    if 3 * c <= |rs| then rs[3 * c..] else []
  }

  lemma WithoutBoth(rs: seq<Cell>, b: nat, c: nat)
    requires 3 * (b + c) <= |rs|
    ensures Without(Without(rs, b), c) == Without(rs, b + c) && |Without(rs, b)| == |rs| - 3 * b
    ensures Without(rs, 0) == rs
  {
  }

  lemma WithoutOne(rs: seq<Cell>)
    requires |rs| >= 3
    ensures Without(rs, 1) == rs[3..]
  {
  }

  /** The statement with end x, entered with n loops' cells on rs, has dropped those it should have. */
  ghost predicate Kept(x: Depth, leave: nat, n: nat, rs: seq<Cell>, o: Outcome) {
    match o
    case Norm(e) => x.Loops? && x.n <= n && e.rs == Without(rs, n - x.n)
    case Left(e) => 1 <= leave <= n && e.rs == Without(rs, n - leave + 1)
    case Exited(e) => e.rs == Without(rs, n)
    case Strange => false
    case _ => true
  }

  /** The cells of n loops lie above what was there when the machine was entered. */
  predicate Holds(w: World, n: nat, rs: seq<Cell>) {
    |rs| >= w.entry + 3 * n
  }

  lemma Widened(x: Depth, y: Depth, leave: nat, n: nat, rs: seq<Cell>, o: Outcome)
    requires Kept(x, leave, n, rs, o) && (x.Loops? ==> y == x)
    ensures Kept(y, leave, n, rs, o)
  {
  }

  /** What follows a part that has come to its end. */
  lemma KeptAfter(x: Depth, leave: nat, n: nat, rs: seq<Cell>, m: nat, e: seq<Cell>, o: Outcome)
    requires m <= n && 3 * n <= |rs| && e == Without(rs, n - m) && Kept(x, leave, m, e, o)
    ensures Kept(x, leave, n, rs, o)
  {
    hide Without;
    if o.Norm? { WithoutBoth(rs, n - m, m - x.n); }
    if o.Left? { WithoutBoth(rs, n - m, m - leave + 1); }
    if o.Exited? { WithoutBoth(rs, n - m, m); }
  }

  lemma PerformKeeps(op: Byte, d: Data)
    requires LeavesReturns(op) && Perform(op, d).Next?
    ensures Perform(op, d).d.rs == d.rs
  {
  }

  /** Statement s, with its meaning, in an orderly program. */
  ghost predicate Fit(w: World, k: nat, s: Stmt, leave: nat, n: nat, d: Data) {
    && AllOrderly(w) && k < |w.defs| && Legal(Env(w), s, leave > 0)
    && !After(s, leave, n).Disorder? && Holds(w, n, d.rs)
  }

  ghost predicate ChainFit(w: World, k: nat, ch: Chain, leave: nat, n: nat, d: Data) {
    && AllOrderly(w) && k < |w.defs| && ChainLegal(Env(w), ch, leave > 0)
    && !ChainAfter(ch, leave, n).Disorder? && Holds(w, n, d.rs)
  }

  ghost predicate KeptBy(w: World, k: nat, s: Stmt, p: nat, d: Data, fuel: nat, leave: nat, n: nat)
    requires k < |w.defs|
  {
    Kept(After(s, leave, n), leave, n, d.rs, Eval(w, k, s, p, d, fuel))
  }

  /** No statement of an orderly definition leaves anything but the cells of its loops to be dropped. */
  lemma {:induction false} Keeps(w: World, k: nat, s: Stmt, p: nat, d: Data, fuel: nat, leave: nat, n: nat)
    requires Fit(w, k, s, leave, n, d)
    ensures KeptBy(w, k, s, p, d, fuel, leave, n)
    decreases fuel, s, 1
  {
    hide Fit, KeptBy;
    match s
    case Seq(a, b) => SeqKeeps(w, k, a, b, p, d, fuel, leave, n);
    case IfThen(a) => BranchKeeps(w, k, a, Nop, false, p, d, fuel, leave, n);
    case IfThenElse(a, b) => BranchKeeps(w, k, a, b, true, p, d, fuel, leave, n);
    case Call(j) => CallsKeep(w, k, s, p, d, fuel, leave, n);
    case SelfCall => CallsKeep(w, k, s, p, d, fuel, leave, n);
    case BeginUntil(a) => UntilKeeps(w, k, a, p, d, fuel, leave, n);
    case BeginAgain(a) => AgainKeeps(w, k, a, p, d, fuel, leave, n);
    case BeginWhile(a, b) => WhileKeeps(w, k, a, b, p, d, fuel, leave, n);
    case DoLoop(query, a, plus) => DoKeeps(w, k, query, a, plus, p, d, fuel, leave, n);
    case CaseOf(ch) => CaseKeeps(w, k, ch, p, d, fuel, leave, n);
    case _ => LeafKeeps(w, k, s, p, d, fuel, leave, n);
  }

  /** The statements without parts, other than calls. */
  lemma LeafKeeps(w: World, k: nat, s: Stmt, p: nat, d: Data, fuel: nat, leave: nat, n: nat)
    requires Fit(w, k, s, leave, n, d)
    requires s.Nop? || s.Word? || s.Lit? || s.Return? || s.DropLoop? || s.LeaveLoop?
    ensures KeptBy(w, k, s, p, d, fuel, leave, n)
  {
    hide AllOrderly, Perform;
    WithoutBoth(d.rs, 0, 0);
    if s.Word? && Perform(s.op, d).Next? { PerformKeeps(s.op, d); }
  }

  lemma {:induction false} SeqKeeps(w: World, k: nat, a: Stmt, b: Stmt, p: nat, d: Data, fuel: nat, leave: nat, n: nat)
    requires Fit(w, k, Seq(a, b), leave, n, d)
    ensures KeptBy(w, k, Seq(a, b), p, d, fuel, leave, n)
    decreases fuel, Seq(a, b), 0
  {
    hide AllOrderly, Size, Without;
    Keeps(w, k, a, p, d, fuel, leave, n);
    EvalSeq(w, k, a, b, p, d, fuel);
    var (o, x) := (Eval(w, k, a, p, d, fuel), After(a, leave, n));
    if o.Norm? {
      WithoutBoth(d.rs, n - x.n, x.n);
      Keeps(w, k, b, p + Size(a), o.d, fuel, leave, x.n);
      KeptAfter(After(b, leave, x.n), leave, n, d.rs, x.n, o.d.rs, Eval(w, k, b, p + Size(a), o.d, fuel));
    }
  }

  /** IF ... THEN and IF ... ELSE ... THEN */
  lemma {:induction false} BranchKeeps(w: World, k: nat, a: Stmt, b: Stmt, both: bool, p: nat, d: Data, fuel: nat,
                                       leave: nat, n: nat)
    requires Fit(w, k, if both then IfThenElse(a, b) else IfThen(a), leave, n, d)
    ensures KeptBy(w, k, if both then IfThenElse(a, b) else IfThen(a), p, d, fuel, leave, n)
    decreases fuel, if both then IfThenElse(a, b) else IfThen(a), 0
  {
    hide AllOrderly, Size, Without;
    WithoutBoth(d.rs, 0, 0);
    if d.ds != [] {
      if d.ds[0] != 0 { Keeps(w, k, a, p + 5, Pop(d), fuel, leave, n); }
      else if both { Keeps(w, k, b, p + 5 + Size(a) + 5, Pop(d), fuel, leave, n); }
    }
  }

  lemma {:induction false} CallsKeep(w: World, k: nat, s: Stmt, p: nat, d: Data, fuel: nat, leave: nat, n: nat)
    requires Fit(w, k, s, leave, n, d) && (s.Call? || s.SelfCall?)
    ensures KeptBy(w, k, s, p, d, fuel, leave, n)
    decreases fuel, s, 0
  {
    hide AllOrderly, Without, ReturnTo;
    WithoutBoth(d.rs, 0, 0);
    if fuel > 0 {
      match s
      case Call(j) => CallKeeps(w, j, Address(w, k, p + 4), d, fuel);
      case SelfCall => CallKeeps(w, k, Address(w, k, p + 5), d, fuel);
    }
  }

  lemma {:induction false} CaseKeeps(w: World, k: nat, ch: Chain, p: nat, d: Data, fuel: nat, leave: nat, n: nat)
    requires Fit(w, k, CaseOf(ch), leave, n, d)
    ensures KeptBy(w, k, CaseOf(ch), p, d, fuel, leave, n)
    decreases fuel, CaseOf(ch), 0
  {
    hide AllOrderly, Kept;
    ChainKeeps(w, k, ch, p, d, fuel, leave, n);
  }

  /** A called definition comes back with the return stack as it was. */
  lemma {:induction false} CallKeeps(w: World, j: nat, a: Cell, d: Data, fuel: nat)
    requires AllOrderly(w) && j < |w.defs| && Holds(w, 0, d.rs) && fuel > 0
    ensures var o := ReturnTo(w.entry, Eval(w, j, w.defs[j].body, 0, PushReturn(d, a), fuel - 1), a);
            !o.Strange? && !o.Left? && !o.Exited? && (o.Norm? ==> o.d.rs == d.rs)
    decreases fuel - 1, w.defs[j].body, 2
  {
    hide Eval, After;
    var body := w.defs[j].body;
    var e := PushReturn(d, a);
    Keeps(w, j, body, 0, e, fuel - 1, 0, 0);
    WithoutBoth(e.rs, 0, 0);
  }

  lemma {:induction false} UntilKeeps(w: World, k: nat, a: Stmt, p: nat, d: Data, fuel: nat, leave: nat, n: nat)
    requires Fit(w, k, BeginUntil(a), leave, n, d)
    ensures KeptBy(w, k, BeginUntil(a), p, d, fuel, leave, n)
    decreases fuel, BeginUntil(a), 0
  {
    hide AllOrderly, Eval, Without;
    WithoutBoth(d.rs, 0, 0);
    EvalUntil(w, k, a, p, d, fuel);
    Keeps(w, k, a, p, d, fuel, leave, n);
    var o := Eval(w, k, a, p, d, fuel);
    if o.Norm? && o.d.ds != [] && o.d.ds[0] == 0 && fuel > 0 {
      Keeps(w, k, BeginUntil(a), p, Pop(o.d), fuel - 1, leave, n);
    }
  }

  lemma EvalUntil(w: World, k: nat, a: Stmt, p: nat, d: Data, fuel: nat)
    requires k < |w.defs|
    ensures Eval(w, k, BeginUntil(a), p, d, fuel) ==
            var o := Eval(w, k, a, p, d, fuel);
            if !o.Norm? then o
            else if o.d.ds == [] then Wrong
            else if o.d.ds[0] != 0 then Norm(Pop(o.d))
            else if fuel == 0 then Timeout
            else Eval(w, k, BeginUntil(a), p, Pop(o.d), fuel - 1)
  {
  }

  lemma {:induction false} AgainKeeps(w: World, k: nat, a: Stmt, p: nat, d: Data, fuel: nat, leave: nat, n: nat)
    requires Fit(w, k, BeginAgain(a), leave, n, d)
    ensures KeptBy(w, k, BeginAgain(a), p, d, fuel, leave, n)
    decreases fuel, BeginAgain(a), 0
  {
    hide AllOrderly, Eval, Without;
    WithoutBoth(d.rs, 0, 0);
    EvalAgain(w, k, a, p, d, fuel);
    Keeps(w, k, a, p, d, fuel, leave, n);
    var o := Eval(w, k, a, p, d, fuel);
    if o.Norm? && fuel > 0 { Keeps(w, k, BeginAgain(a), p, o.d, fuel - 1, leave, n); }
  }

  lemma EvalAgain(w: World, k: nat, a: Stmt, p: nat, d: Data, fuel: nat)
    requires k < |w.defs|
    ensures Eval(w, k, BeginAgain(a), p, d, fuel) ==
            var o := Eval(w, k, a, p, d, fuel);
            if !o.Norm? then o else if fuel == 0 then Timeout else Eval(w, k, BeginAgain(a), p, o.d, fuel - 1)
  {
  }

  lemma {:induction false} WhileKeeps(w: World, k: nat, a: Stmt, b: Stmt, p: nat, d: Data, fuel: nat, leave: nat,
                                      n: nat)
    requires Fit(w, k, BeginWhile(a, b), leave, n, d)
    ensures KeptBy(w, k, BeginWhile(a, b), p, d, fuel, leave, n)
    decreases fuel, BeginWhile(a, b), 0
  {
    hide AllOrderly, Size, Without, Eval;
    WithoutBoth(d.rs, 0, 0);
    EvalWhile(w, k, a, b, p, d, fuel);
    WhileFits(w, k, a, b, leave, n, d);
    Keeps(w, k, a, p, d, fuel, leave, n);
    var o := Eval(w, k, a, p, d, fuel);
    if o.Norm? && o.d.ds != [] && o.d.ds[0] != 0 {
      Keeps(w, k, b, p + Size(a) + 5, Pop(o.d), fuel, leave, n);
      var u := Eval(w, k, b, p + Size(a) + 5, Pop(o.d), fuel);
      if u.Norm? && fuel > 0 { Keeps(w, k, BeginWhile(a, b), p, u.d, fuel - 1, leave, n); }
    }
  }

  lemma EvalWhile(w: World, k: nat, a: Stmt, b: Stmt, p: nat, d: Data, fuel: nat)
    requires k < |w.defs|
    ensures Eval(w, k, BeginWhile(a, b), p, d, fuel) ==
            var o := Eval(w, k, a, p, d, fuel);
            if !o.Norm? then o
            else if o.d.ds == [] then Wrong
            else if o.d.ds[0] == 0 then Norm(Pop(o.d))
            else
              var u := Eval(w, k, b, p + Size(a) + 5, Pop(o.d), fuel);
              if !u.Norm? then u
              else if fuel == 0 then Timeout
              else Eval(w, k, BeginWhile(a, b), p, u.d, fuel - 1)
  {
    hide Size;
  }

  lemma WhileFits(w: World, k: nat, a: Stmt, b: Stmt, leave: nat, n: nat, d: Data)
    requires Fit(w, k, BeginWhile(a, b), leave, n, d)
    ensures Fit(w, k, a, leave, n, d)
    ensures var (x, y) := (After(a, leave, n), After(b, leave, n));
            && After(BeginWhile(a, b), leave, n) == x && (x.Loops? ==> x.n == n && (y.Nowhere? || y == Loops(n)))
            && (x.Loops? ==> Fit(w, k, b, leave, n, d))
  {
    hide AllOrderly;
  }

  lemma {:induction false} DoKeeps(w: World, k: nat, query: bool, a: Stmt, plus: bool, p: nat, d: Data, fuel: nat,
                                   leave: nat, n: nat)
    requires Fit(w, k, DoLoop(query, a, plus), leave, n, d)
    ensures KeptBy(w, k, DoLoop(query, a, plus), p, d, fuel, leave, n)
    decreases fuel, DoLoop(query, a, plus), 0
  {
    hide AllOrderly, EvalLoop, Address, Without, After, Eval;
    WithoutBoth(d.rs, 0, 0);
    EvalDo(w, k, query, a, plus, p, d, fuel);
    DoFits(w, k, query, a, plus, leave, n, d);
    if |d.ds| >= 2 && !(query && d.ds[0] == d.ds[1]) {
      var m := p + DoSize(query);
      var e := EnterLoop(d, Address(w, k, m - 1));
      LoopKeeps(w, k, a, plus, m, e, fuel, n);
      assert e.rs[3..] == d.rs;
    }
  }

  lemma EvalDo(w: World, k: nat, query: bool, a: Stmt, plus: bool, p: nat, d: Data, fuel: nat)
    requires k < |w.defs|
    ensures Eval(w, k, DoLoop(query, a, plus), p, d, fuel) ==
            if |d.ds| < 2 then Wrong
            else if query && d.ds[0] == d.ds[1] then Norm(d.(ds := d.ds[2..]))
            else
              var m := p + DoSize(query);
              EvalLoop(w, k, a, plus, m, EnterLoop(d, Address(w, k, m - 1)), fuel)
  {
    hide EvalLoop, Address;
  }

  lemma DoFits(w: World, k: nat, query: bool, a: Stmt, plus: bool, leave: nat, n: nat, d: Data)
    requires Fit(w, k, DoLoop(query, a, plus), leave, n, d)
    ensures After(DoLoop(query, a, plus), leave, n) == Loops(n)
    ensures !Around(After(a, n + 1, n + 1), n + 1).Disorder?
    ensures forall e: Data :: |e.rs| == |d.rs| + 3 ==> Fit(w, k, a, n + 1, n + 1, e)
  {
    hide AllOrderly;
  }

  /** A loop drops its three cells at its end. */
  lemma {:induction false} LoopKeeps(w: World, k: nat, a: Stmt, plus: bool, p: nat, d: Data, fuel: nat, n: nat)
    requires Fit(w, k, a, n + 1, n + 1, d) && !Around(After(a, n + 1, n + 1), n + 1).Disorder? && p >= 1
    requires d.rs[0] == Address(w, k, p - 1)
    ensures var o := EvalLoop(w, k, a, plus, p, d, fuel);
            && !o.Strange? && !o.Left? && (o.Norm? ==> o.d.rs == d.rs[3..])
            && (o.Exited? ==> o.d.rs == Without(d.rs[3..], n))
    decreases fuel, a, 2
  {
    hide AllOrderly, Eval, After, LoopBack, Without;
    WithoutBoth(d.rs, 1, n);
    assert Without(d.rs, 1) == d.rs[3..] by { WithoutOne(d.rs); }
    Keeps(w, k, a, p, d, fuel, n + 1, n + 1);
    var o := Eval(w, k, a, p, d, fuel);
    if o.Norm? {
      BackKeeps(plus, o.d);
      assert o.d.rs == d.rs;
      assert EvalLoop(w, k, a, plus, p, d, fuel) == AfterRound(w, k, a, plus, p, o.d, fuel);
      var l := LoopBack(plus, o.d);
      if l.Around? && fuel > 0 { LoopKeeps(w, k, a, plus, p, l.d, fuel - 1, n); }
    }
  }

  lemma BackKeeps(plus: bool, e: Data)
    requires |e.rs| >= 3
    ensures match LoopBack(plus, e)
            case Over(f) => f.rs == e.rs[3..]
            case Around(f) => |f.rs| == |e.rs| && f.rs[0] == e.rs[0] && f.rs[3..] == e.rs[3..]
            case Stuck => true
  {
    hide PlusLoopEnds;
  }

  lemma {:induction false} ChainKeeps(w: World, k: nat, ch: Chain, p: nat, d: Data, fuel: nat, leave: nat, n: nat)
    requires ChainFit(w, k, ch, leave, n, d)
    ensures Kept(ChainAfter(ch, leave, n), leave, n, d.rs, EvalChain(w, k, ch, p, d, fuel))
    decreases fuel, ch, 1
  {
    hide AllOrderly, Size, Eval, After;
    match ch
    case Default(a) => Keeps(w, k, a, p, d, fuel, leave, n);
    case OfClause(t, a, rest) =>
      Keeps(w, k, t, p, d, fuel, leave, n);
      var (o, x) := (Eval(w, k, t, p, d, fuel), After(t, leave, n));
      if o.Norm? && |o.d.ds| >= 2 { ClauseKeeps(w, k, t, a, rest, p + Size(t) + 8, d.rs, o.d, fuel, leave, n, x.n); }
  }

  lemma {:induction false} ClauseKeeps(w: World, k: nat, t: Stmt, a: Stmt, rest: Chain, p: nat, rs: seq<Cell>, e: Data,
                                       fuel: nat, leave: nat, n: nat, m: nat)
    requires |e.ds| >= 2 && m <= n && Holds(w, n, rs) && e.rs == Without(rs, n - m)
    requires !Join(After(a, leave, m), ChainAfter(rest, leave, m)).Disorder?
    requires Fit(w, k, a, leave, m, e) && ChainFit(w, k, rest, leave, m, e)
    ensures var o := if e.ds[0] == e.ds[1] then Eval(w, k, a, p, e.(ds := e.ds[2..]), fuel)
                     else EvalChain(w, k, rest, p + Size(a) + 5, Pop(e), fuel);
            Kept(Join(After(a, leave, m), ChainAfter(rest, leave, m)), leave, n, rs, o)
    decreases fuel, OfClause(t, a, rest), 0
  {
    hide AllOrderly, Size, Eval, EvalChain, After, ChainAfter;
    var (x, y) := (After(a, leave, m), ChainAfter(rest, leave, m));
    if e.ds[0] == e.ds[1] {
      var f := e.(ds := e.ds[2..]);
      Keeps(w, k, a, p, f, fuel, leave, m);
      Widened(x, Join(x, y), leave, m, e.rs, Eval(w, k, a, p, f, fuel));
      KeptAfter(Join(x, y), leave, n, rs, m, e.rs, Eval(w, k, a, p, f, fuel));
    } else {
      var q := p + Size(a) + 5;
      ChainKeeps(w, k, rest, q, Pop(e), fuel, leave, m);
      Widened(y, Join(x, y), leave, m, e.rs, EvalChain(w, k, rest, q, Pop(e), fuel));
      KeptAfter(Join(x, y), leave, n, rs, m, e.rs, EvalChain(w, k, rest, q, Pop(e), fuel));
    }
  }

  // ----- whole runs -----

  /** An orderly program is never strange, and returns with the return stack as it was. */
  lemma OrderlyResult(w: World, k: nat, d: Data, fuel: nat)
    requires AllOrderly(w) && k < |w.defs| && |d.rs| == w.entry
    ensures var o := Result(w, k, d, fuel); !o.Strange? && (o.Norm? ==> o.d.rs == d.rs)
  {
    hide Eval, After;
    Keeps(w, k, w.defs[k].body, 0, d, fuel, 0, 0);
    WithoutBoth(d.rs, 0, 0);
  }

  /**
   * Orderly programs do what they mean, on every input: the machine returns with e exactly when the
   * meaning is e, gets lost exactly when the meaning is wrong, and runs for ever otherwise.
   */
  lemma OrderlyCorrect(w: World, code: map<Cell, Byte>, k: nat, d: Data, e: Data)
    requires Loaded(w, code) && AllOrderly(w) && k < |w.defs| && |d.rs| == w.entry
    ensures (exists n: nat :: Course(w, code, k, d, n) == Returned(e)) <==>
            (exists fuel: nat :: Result(w, k, d, fuel) == Norm(e))
    ensures (exists n: nat :: Course(w, code, k, d, n) == Lost) <==>
            (exists fuel: nat :: Result(w, k, d, fuel) == Wrong)
    ensures (forall n: nat :: Course(w, code, k, d, n).Running?) <==>
            (forall fuel: nat :: Result(w, k, d, fuel) == Timeout)
    ensures (exists n: nat :: Course(w, code, k, d, n) == Returned(e)) ==> e.rs == d.rs
  {
    hide Loaded, AllOrderly, Result, Course;
    forall fuel: nat ensures Result(w, k, d, fuel) != Strange { OrderlyResult(w, k, d, fuel); }
    CompilerCorrect.CompilerCorrect(w, code, k, d, e);
    if fuel: nat :| Result(w, k, d, fuel) == Norm(e) { OrderlyResult(w, k, d, fuel); }
  }

  // ----- which definitions are orderly -----

  /** What is well nested and ends where it starts, with the cells of n loops. */
  predicate Level(env: seq<Cell>, s: Stmt, leave: nat, n: nat) {
    Legal(env, s, leave > 0) && After(s, leave, n) == Loops(n)
  }

  /** Literals, calls and words that leave the return stack alone are level. */
  lemma LeavesLevel(env: seq<Cell>, leave: nat, n: nat, op: Byte, v: Cell, k: nat)
    ensures Level(env, Nop, leave, n) && Level(env, Lit(v), leave, n) && Level(env, SelfCall, leave, n)
    ensures k < |env| ==> Level(env, Call(k), leave, n)
    ensures ControlWords.PlainOp(op) && op !in {OP_RET, OP_EXECUTE_BC, OP_PUSH, OP_POP} ==>
            Level(env, Word(op), leave, n)
  {
  }

  /** Control structures of level parts are level, whichever they are; BEGIN ... AGAIN never ends. */
  lemma LevelParts(env: seq<Cell>, a: Stmt, b: Stmt, leave: nat, n: nat)
    requires Level(env, a, leave, n) && Level(env, b, leave, n)
    ensures Level(env, Seq(a, b), leave, n) && Level(env, IfThen(a), leave, n) && Level(env, IfThenElse(a, b), leave, n)
    ensures Level(env, BeginUntil(a), leave, n) && Level(env, BeginWhile(a, b), leave, n)
    ensures After(BeginAgain(a), leave, n) == Nowhere
  {
  }

  lemma LevelCase(env: seq<Cell>, a: Stmt, b: Stmt, rest: Chain, leave: nat, n: nat)
    requires Level(env, a, leave, n) && Level(env, b, leave, n)
    ensures Level(env, CaseOf(Default(a)), leave, n)
    ensures Level(env, CaseOf(rest), leave, n) ==> Level(env, CaseOf(OfClause(a, b, rest)), leave, n)
  {
    assert After(CaseOf(rest), leave, n) == ChainAfter(rest, leave, n);
    assert ChainAfter(OfClause(a, b, rest), leave, n) == Join(Loops(n), ChainAfter(rest, leave, n));
  }

  /** So are loops, and in them LEAVE, UNLOOP EXIT and EXIT outside of them, where they are not the only way. */
  lemma LevelLoop(env: seq<Cell>, query: bool, a: Stmt, plus: bool, leave: nat, n: nat)
    requires Level(env, a, n + 1, n + 1)
    ensures Level(env, DoLoop(query, a, plus), leave, n)
    ensures Level(env, IfThen(LeaveLoop), n + 1, n + 1) && Level(env, IfThen(Seq(DropLoop, Return)), 1, 1)
    ensures Level(env, IfThen(Return), 0, 0)
  {
  }
}
