/**
 * How often loops run: DO ... LOOP and ?DO ... LOOP by the distance of limit and
 * index, and exactly when +LOOP ends a loop where Forth 2012 says it does.
 */
module LoopCounts {
  import opened Cells
  import opened Structured
  import opened ByteVM
  import opened Meaning
  import opened ByteCode
  import opened WordLaws

  // ----- fuel -----

  /** A meaning that fuel suffices for does not depend on the fuel. */
  lemma {:induction false} EvalMore(w: World, k: nat, s: Stmt, p: nat, d: Data, fuel: nat, more: nat)
    requires k < |w.defs| && fuel <= more && !Eval(w, k, s, p, d, fuel).Timeout?
    ensures Eval(w, k, s, p, d, more) == Eval(w, k, s, p, d, fuel)
    decreases fuel, s, 1
  {
    hide Size, Perform;
    match s
    case Seq(a, b) =>
      var o := Eval(w, k, a, p, d, fuel);
      EvalMore(w, k, a, p, d, fuel, more);
      if o.Norm? { EvalMore(w, k, b, p + Size(a), o.d, fuel, more); }
    case Call(j) =>
      if j < |w.defs| {
        EvalMore(w, j, w.defs[j].body, 0, PushReturn(d, Address(w, k, p + 4)), fuel - 1, more - 1);
      }
    case SelfCall => EvalMore(w, k, w.defs[k].body, 0, PushReturn(d, Address(w, k, p + 5)), fuel - 1, more - 1);
    case IfThen(a) => if d.ds != [] && d.ds[0] != 0 { EvalMore(w, k, a, p + 5, Pop(d), fuel, more); }
    case IfThenElse(a, b) =>
      if d.ds != [] {
        if d.ds[0] == 0 { EvalMore(w, k, b, p + 5 + Size(a) + 5, Pop(d), fuel, more); }
        else { EvalMore(w, k, a, p + 5, Pop(d), fuel, more); }
      }
    case BeginUntil(a) => UntilMore(w, k, a, p, d, fuel, more);
    case BeginAgain(a) =>
      var o := Eval(w, k, a, p, d, fuel);
      EvalMore(w, k, a, p, d, fuel, more);
      if o.Norm? { EvalMore(w, k, s, p, o.d, fuel - 1, more - 1); }
    case BeginWhile(a, b) => WhileMore(w, k, a, b, p, d, fuel, more);
    case DoLoop(query, a, plus) =>
      if |d.ds| >= 2 && !(query && d.ds[0] == d.ds[1]) {
        var m := p + DoSize(query);
        LoopMore(w, k, a, plus, m, EnterLoop(d, Address(w, k, m - 1)), fuel, more);
      }
    case CaseOf(ch) => ChainMore(w, k, ch, p, d, fuel, more);
    case _ =>
  }

  lemma {:induction false} UntilMore(w: World, k: nat, a: Stmt, p: nat, d: Data, fuel: nat, more: nat)
    requires k < |w.defs| && fuel <= more && !Eval(w, k, BeginUntil(a), p, d, fuel).Timeout?
    ensures Eval(w, k, BeginUntil(a), p, d, more) == Eval(w, k, BeginUntil(a), p, d, fuel)
    decreases fuel, BeginUntil(a), 0
  {
    var o := Eval(w, k, a, p, d, fuel);
    EvalMore(w, k, a, p, d, fuel, more);
    if o.Norm? && o.d.ds != [] && o.d.ds[0] == 0 { EvalMore(w, k, BeginUntil(a), p, Pop(o.d), fuel - 1, more - 1); }
  }

  lemma {:induction false} WhileMore(w: World, k: nat, a: Stmt, b: Stmt, p: nat, d: Data, fuel: nat, more: nat)
    requires k < |w.defs| && fuel <= more && !Eval(w, k, BeginWhile(a, b), p, d, fuel).Timeout?
    ensures Eval(w, k, BeginWhile(a, b), p, d, more) == Eval(w, k, BeginWhile(a, b), p, d, fuel)
    decreases fuel, BeginWhile(a, b), 0
  {
    hide Size;
    var o := Eval(w, k, a, p, d, fuel);
    EvalMore(w, k, a, p, d, fuel, more);
    if o.Norm? && o.d.ds != [] && o.d.ds[0] != 0 {
      var u := Eval(w, k, b, p + Size(a) + 5, Pop(o.d), fuel);
      EvalMore(w, k, b, p + Size(a) + 5, Pop(o.d), fuel, more);
      if u.Norm? { EvalMore(w, k, BeginWhile(a, b), p, u.d, fuel - 1, more - 1); }
    }
  }

  lemma {:induction false} LoopMore(w: World, k: nat, a: Stmt, plus: bool, p: nat, d: Data, fuel: nat, more: nat)
    requires k < |w.defs| && p >= 1 && fuel <= more && !EvalLoop(w, k, a, plus, p, d, fuel).Timeout?
    ensures EvalLoop(w, k, a, plus, p, d, more) == EvalLoop(w, k, a, plus, p, d, fuel)
    decreases fuel, a, 2
  {
    hide Eval, LoopBack;
    var o := Eval(w, k, a, p, d, fuel);
    EvalMore(w, k, a, p, d, fuel, more);
    if o.Norm? {
      var l := LoopBack(plus, o.d);
      if l.Around? && LoopTop(plus, o.d) == Address(w, k, p - 1) {
        LoopMore(w, k, a, plus, p, l.d, fuel - 1, more - 1);
      }
    }
  }

  /** The address to go back to. */
  function LoopTop(plus: bool, d: Data): Cell
    requires LoopBack(plus, d).Around?
  {
    d.rs[0]
  }

  lemma {:induction false} ChainMore(w: World, k: nat, ch: Chain, p: nat, d: Data, fuel: nat, more: nat)
    requires k < |w.defs| && fuel <= more && !EvalChain(w, k, ch, p, d, fuel).Timeout?
    ensures EvalChain(w, k, ch, p, d, more) == EvalChain(w, k, ch, p, d, fuel)
    decreases fuel, ch, 1
  {
    hide Size, Eval;
    match ch
    case Default(a) => EvalMore(w, k, a, p, d, fuel, more);
    case OfClause(t, a, rest) =>
      var o := Eval(w, k, t, p, d, fuel);
      EvalMore(w, k, t, p, d, fuel, more);
      if o.Norm? && |o.d.ds| >= 2 {
        if o.d.ds[0] == o.d.ds[1] { EvalMore(w, k, a, p + Size(t) + 8, o.d.(ds := o.d.ds[2..]), fuel, more); }
        else { ChainMore(w, k, rest, p + Size(t) + 8 + Size(a) + 5, Pop(o.d), fuel, more); }
      }
  }

  // ----- LOOP -----

  /** How often the body of DO or ?DO ... LOOP runs. */
  function Trips(query: bool, start: Cell, limit: Cell): nat {
    var (s: int, l: int) := (start, limit);
    if s != l then Wrap(l - s) else if query then 0 else WORD
  }

  /** After a round: the index is one more. */
  function NextIndex(d: Data): Data
    requires |d.rs| >= 3
  {
    var i: int := d.rs[2];
    d.(rs := d.rs[2 := Wrap(i + 1)])
  }

  /** The body completes n times over and leaves the return stack as it was, each time with the next index. */
  ghost predicate Completes(w: World, k: nat, a: Stmt, p: nat, d: Data, n: nat, fuel: nat)
    requires k < |w.defs|
    decreases n
  {
    n > 0 ==>
      var o := Eval(w, k, a, p, d, fuel);
      o.Norm? && |d.rs| >= 3 && o.d.rs == d.rs && Completes(w, k, a, p, NextIndex(o.d), n - 1, fuel)
  }

  /** The data after n rounds. */
  ghost function Rounds(w: World, k: nat, a: Stmt, p: nat, d: Data, n: nat, fuel: nat): (e: Data)
    requires k < |w.defs| && Completes(w, k, a, p, d, n, fuel)
    ensures |e.rs| == |d.rs|
    ensures |d.rs| >= 3 ==> e.rs == d.rs[2 := Wrap((d.rs[2] as int) + n)]
    decreases n
  {
    if n == 0 then d else Rounds(w, k, a, p, NextIndex(Eval(w, k, a, p, d, fuel).d), n - 1, fuel)
  }

  lemma {:induction false} LoopRuns(w: World, k: nat, a: Stmt, p: nat, d: Data, n: nat, fuel: nat, more: nat)
    requires k < |w.defs| && p >= 1 && |d.rs| >= 3 && d.rs[0] == Address(w, k, p - 1)
    requires n == Trips(false, d.rs[2], d.rs[1]) && Completes(w, k, a, p, d, n, fuel) && more >= fuel + n
    ensures EvalLoop(w, k, a, false, p, d, more) == Norm(Rounds(w, k, a, p, d, n, fuel).(rs := d.rs[3..]))
    decreases n
  {
    hide Eval, Address, LoopBack, EvalLoop, Rounds, Completes, Trips;
    NextTrips(d.rs[2], d.rs[1]);
    CompletesStep(w, k, a, p, d, n, fuel);
    EvalMore(w, k, a, p, d, fuel, more);
    var e := Eval(w, k, a, p, d, fuel).d;
    LoopBackIs(e);
    LoopStep(w, k, a, p, d, more);
    var f := NextIndex(e);
    if n > 1 { LoopRuns(w, k, a, p, f, n - 1, fuel, more - 1); }
  }

  lemma CompletesStep(w: World, k: nat, a: Stmt, p: nat, d: Data, n: nat, fuel: nat)
    requires k < |w.defs| && n > 0 && Completes(w, k, a, p, d, n, fuel)
    ensures var o := Eval(w, k, a, p, d, fuel);
            && o.Norm? && |d.rs| >= 3 && o.d.rs == d.rs && Completes(w, k, a, p, NextIndex(o.d), n - 1, fuel)
            && Rounds(w, k, a, p, d, n, fuel) == Rounds(w, k, a, p, NextIndex(o.d), n - 1, fuel)
            && (n == 1 ==> Rounds(w, k, a, p, d, n, fuel) == NextIndex(o.d))
  {
    hide Eval;
  }

  lemma LoopBackIs(e: Data)
    requires |e.rs| >= 3
    ensures LoopBack(false, e) == if LoopEnds(e.rs[2], e.rs[1]) then Over(e.(rs := e.rs[3..])) else Around(NextIndex(e))
  {
  }

  /** One round of a loop whose body completes. */
  lemma LoopStep(w: World, k: nat, a: Stmt, p: nat, d: Data, fuel: nat)
    requires k < |w.defs| && p >= 1 && Eval(w, k, a, p, d, fuel).Norm?
    ensures var e := Eval(w, k, a, p, d, fuel).d; var l := LoopBack(false, e);
            && (l.Over? ==> EvalLoop(w, k, a, false, p, d, fuel) == Norm(l.d))
            && (l.Around? && |e.rs| >= 3 && e.rs[0] == Address(w, k, p - 1) && fuel > 0 ==>
                 EvalLoop(w, k, a, false, p, d, fuel) == EvalLoop(w, k, a, false, p, l.d, fuel - 1))
  {
    hide Eval, Address;
  }

  /** One round less is left, and the loop ends when none is. */
  lemma NextTrips(index: Cell, limit: Cell)
    ensures Trips(false, index, limit) >= 1
    ensures LoopEnds(index, limit) ==> Trips(false, index, limit) == 1
    ensures !LoopEnds(index, limit) ==>
              Trips(false, Wrap((index as int) + 1), limit) == Trips(false, index, limit) - 1 >= 1
  {
  }

  /**
   * DO and ?DO ... LOOP run their body exactly Trips times, with the indices start,
   * start + 1, ..., and leave the return stack as it was.
   */
  lemma DoRuns(w: World, k: nat, query: bool, a: Stmt, p: nat, d: Data, fuel: nat, more: nat)
    requires k < |w.defs| && |d.ds| >= 2
    requires var n := Trips(query, d.ds[0], d.ds[1]);
             && Completes(w, k, a, p + DoSize(query), EnterLoop(d, Address(w, k, p + DoSize(query) - 1)), n, fuel)
             && more >= fuel + n
    ensures var n := Trips(query, d.ds[0], d.ds[1]);
            var first := EnterLoop(d, Address(w, k, p + DoSize(query) - 1));
            Eval(w, k, DoLoop(query, a, false), p, d, more) ==
              Norm(Rounds(w, k, a, p + DoSize(query), first, n, fuel).(rs := d.rs))
  {
    hide Address, EvalLoop, Completes;
    var m := p + DoSize(query);
    var first := EnterLoop(d, Address(w, k, m - 1));
    assert first.rs[3..] == d.rs;
    if query && d.ds[0] == d.ds[1] {
      assert Rounds(w, k, a, m, first, 0, fuel) == first;
    } else {
      LoopRuns(w, k, a, m, first, Trips(query, d.ds[0], d.ds[1]), fuel, more);
    }
  }

  // ----- +LOOP -----

  /** The index moves by step one by one; on the way it goes from limit - 1 to limit or back. */
  ghost predicate Crosses(index: Cell, limit: Cell, step: Cell) {
    var (i: int, l: int, n: int) := (index, limit, Signed(step));
    if n >= 0 then exists j | 0 <= j < n :: Up(i, j) == Wrap(l - 1)
    else exists j | 0 <= j < -n :: Down(i, j) == limit
  }

  function Up(i: int, j: int): Cell {
    Wrap(i + j)
  }

  function Down(i: int, j: int): Cell {
    Wrap(i - j)
  }

  /** Limit plus step, or limit - 1 plus step, is a signed cell. */
  predicate StepFits(limit: Cell, step: Cell) {
    var l: int := limit;
    FitsSigned((if Signed(step) >= 0 then Signed(limit) else Signed(Wrap(l - 1))) + Signed(step))
  }

  /** Crossing by the distance that is left. */
  lemma CrossesByDistance(index: Cell, limit: Cell, step: Cell)
    ensures var (i: int, l: int, n: int) := (index, limit, Signed(step));
            Crosses(index, limit, step) <==> if n >= 0 then 0 < Wrap(l - i) <= n else Wrap(i - l) < -n
  {
    var (i: int, l: int, n: int) := (index, limit, Signed(step));
    if n >= 0 {
      if 0 < Wrap(l - i) <= n {
        UpTo(i, l, Wrap(l - i) - 1);
        assert Up(i, Wrap(l - i) - 1) == Wrap(l - 1);
      }
      if j :| 0 <= j < n && Up(i, j) == Wrap(l - 1) { UpFrom(i, l, j); }
    } else {
      if Wrap(i - l) < -n { DownTo(i, limit); assert Down(i, Wrap(i - l)) == limit; }
      if j :| 0 <= j < -n && Down(i, j) == limit { DownFrom(i, limit, j); }
    }
  }

  lemma UpTo(i: int, l: int, j: int)
    requires j == Wrap(l - i) - 1
    ensures Wrap(i + j) == Wrap(l - 1)
  {
    var q := (l - i) / WORD;
    assert i + j == l - 1 - q * WORD;
  }

  lemma UpFrom(i: int, l: int, j: int)
    requires 0 <= j < 0x8000_0000 && Up(i, j) == Wrap(l - 1)
    ensures Wrap(l - i) == j + 1
  {
    var (q, r) := ((i + j) / WORD, (l - 1) / WORD);
    assert l - i == j + 1 + (r - q) * WORD;
  }

  lemma DownTo(i: int, limit: Cell)
    ensures var l: int := limit; Wrap(i - Wrap(i - l)) == limit
  {
    var l: int := limit;
    var q := (i - l) / WORD;
    assert i - Wrap(i - l) == l + q * WORD;
  }

  lemma DownFrom(i: int, limit: Cell, j: int)
    requires 0 <= j < 0x8000_0000 && Down(i, j) == limit
    ensures var l: int := limit; Wrap(i - l) == j
  {
    var l: int := limit;
    var q := (i - j) / WORD;
    assert i - l == j + q * WORD;
  }

  /** +LOOP ends the loop exactly when the step crosses the boundary and its comparison does not overflow. */
  lemma PlusLoopExact(index: Cell, limit: Cell, step: Cell)
    ensures PlusLoopEnds(index, limit, step) <==> Crosses(index, limit, step) && StepFits(limit, step)
  {
    CrossesByDistance(index, limit, step);
    if Signed(step) >= 0 { PlusUp(index, limit, step); } else { PlusDown(index, limit, step); }
  }

  /** The signed reading of a sum, which may have come round. */
  function ComeRound(t: int): int {
    if t >= 0x8000_0000 then t - WORD else if t < -0x8000_0000 then t + WORD else t
  }

  lemma SignedSum(a: Cell, b: Cell)
    ensures Signed(Wrap((a as int) + b)) == ComeRound(Signed(a) + Signed(b))
  {
  }

  lemma SignedLess(a: Cell)
    ensures Signed(Wrap((a as int) - 1)) == ComeRound(Signed(a) - 1)
  {
  }

  lemma SignedDistance(a: Cell, b: Cell)
    ensures Wrap((a as int) - b) ==
            if Signed(a) >= Signed(b) then Signed(a) - Signed(b) else Signed(a) - Signed(b) + WORD
  {
  }

  lemma PlusUp(index: Cell, limit: Cell, step: Cell)
    requires Signed(step) >= 0
    ensures var (i: int, l: int, n: int) := (index, limit, Signed(step));
            PlusLoopEnds(index, limit, step) <==> 0 < Wrap(l - i) <= n && StepFits(limit, step)
  {
    hide Wrap, Signed;
    SignedSum(index, step);
    SignedSum(limit, step);
    SignedDistance(limit, index);
  }

  lemma PlusDown(index: Cell, limit: Cell, step: Cell)
    requires Signed(step) < 0
    ensures var (i: int, l: int, n: int) := (index, limit, Signed(step));
            PlusLoopEnds(index, limit, step) <==> Wrap(i - l) < -n && StepFits(limit, step)
  {
    hide Wrap, Signed;
    var l: int := limit;
    SignedSum(index, step);
    SignedLess(limit);
    SignedSum(Wrap(l - 1), step);
    LessPlus(limit, step);
    SignedDistance(index, limit);
  }

  lemma LessPlus(limit: Cell, step: Cell)
    ensures var (l: int, n: int) := (limit, step); Wrap(l - 1 + n) == Wrap(Wrap(l - 1) + n)
  {
  }

  /** For a limit and a step, +LOOP meets the standard at every index exactly when the comparison does not overflow. */
  lemma PlusLoopMeetsStandard(limit: Cell, step: Cell)
    ensures (forall index: Cell :: PlusLoopEnds(index, limit, step) <==> Crosses(index, limit, step)) <==>
            StepFits(limit, step)
  {
    hide PlusLoopEnds, Crosses;
    var (l: int, n: int) := (limit, Signed(step));
    forall index: Cell
      ensures PlusLoopEnds(index, limit, step) <==> Crosses(index, limit, step) && StepFits(limit, step)
    {
      PlusLoopExact(index, limit, step);
    }
    var bad: Cell := if n >= 0 then Wrap(l - 1) else limit;
    if !StepFits(limit, step) {
      CrossesByDistance(bad, limit, step);
      assert Crosses(bad, limit, step);
    }
  }

  /** A loop from 2147483646 by 2 with limit 2147483647 is over by the standard, but goes on. */
  lemma PlusLoopOverflow()
    ensures Crosses(0x7FFF_FFFE, 0x7FFF_FFFF, 2) && !PlusLoopEnds(0x7FFF_FFFE, 0x7FFF_FFFF, 2)
  {
    PlusLoopExact(0x7FFF_FFFE, 0x7FFF_FFFF, 2);
    CrossesByDistance(0x7FFF_FFFE, 0x7FFF_FFFF, 2);
  }

  // ----- rounds of +LOOP -----

  function Total(steps: seq<Cell>): nat
    decreases |steps|
  {
    if steps == [] then 0 else steps[0] + Total(steps[1..])
  }

  /** The index of round j of a loop that started at start. */
  function IndexAt(start: Cell, steps: seq<Cell>, j: nat): Cell
    requires j <= |steps|
  {
    (start + Total(steps[..j])) % WORD
  }

  /** By the standard the loop ends with this step, and +LOOP's comparison does not overflow. */
  ghost predicate Ends(index: Cell, limit: Cell, step: Cell) {
    Crosses(index, limit, step) && StepFits(limit, step)
  }

  /** After a round that has left its step: the step is taken off and added to the index. */
  function NextBy(d: Data): Data
    requires |d.rs| >= 3 && d.ds != []
  {
    d.(ds := d.ds[1..], rs := d.rs[2 := (d.rs[2] + d.ds[0]) % WORD])
  }

  /**
   * The body completes once for each of the steps, leaves it, and leaves the return stack as it was,
   * each time with the next index.
   */
  ghost predicate LeavesSteps(w: World, k: nat, a: Stmt, p: nat, d: Data, steps: seq<Cell>, fuel: nat)
    requires k < |w.defs|
    decreases |steps|
  {
    steps != [] ==>
      var o := Eval(w, k, a, p, d, fuel);
      && o.Norm? && |d.rs| >= 3 && o.d.rs == d.rs && o.d.ds != [] && o.d.ds[0] == steps[0]
      && LeavesSteps(w, k, a, p, NextBy(o.d), steps[1..], fuel)
  }

  /** The data after these rounds. */
  ghost function PlusRounds(w: World, k: nat, a: Stmt, p: nat, d: Data, steps: seq<Cell>, fuel: nat): (e: Data)
    requires k < |w.defs| && LeavesSteps(w, k, a, p, d, steps, fuel)
    ensures |e.rs| == |d.rs|
    decreases |steps|
  {
    if steps == [] then d else PlusRounds(w, k, a, p, NextBy(Eval(w, k, a, p, d, fuel).d), steps[1..], fuel)
  }

  /** Their number moves the index, and nothing else on the return stack. */
  lemma {:induction false} PlusIndex(w: World, k: nat, a: Stmt, p: nat, d: Data, steps: seq<Cell>, fuel: nat)
    requires k < |w.defs| && |d.rs| >= 3 && LeavesSteps(w, k, a, p, d, steps, fuel)
    ensures PlusRounds(w, k, a, p, d, steps, fuel).rs == d.rs[2 := IndexAt(d.rs[2], steps, |steps|)]
    decreases |steps|
  {
    hide Eval;
    if steps == [] {
      assert d.rs[2 := d.rs[2]] == d.rs;
    } else {
      var e := NextBy(Eval(w, k, a, p, d, fuel).d);
      PlusIndex(w, k, a, p, e, steps[1..], fuel);
      NextIndexAt(d.rs[2], steps, |steps| - 1);
    }
  }

  lemma NextIndexAt(start: Cell, steps: seq<Cell>, j: nat)
    requires j < |steps|
    ensures IndexAt((start + steps[0]) % WORD, steps[1..], j) == IndexAt(start, steps, j + 1)
    ensures IndexAt(start, steps, 0) == start
  {
    assert steps[..j + 1][1..] == steps[1..][..j];
    ModSum(start + steps[0], Total(steps[1..][..j]));
  }

  lemma ModSum(x: nat, y: nat)
    ensures (x % WORD + y) % WORD == (x + y) % WORD
  {
  }

  lemma PlusBackIs(e: Data)
    requires |e.rs| >= 3 && e.ds != []
    ensures LoopBack(true, e) ==
            if PlusLoopEnds(e.rs[2], e.rs[1], e.ds[0]) then Over(e.(ds := e.ds[1..], rs := e.rs[3..]))
              else Around(NextBy(e))
  {
    hide PlusLoopEnds;
  }

  /** One round of +LOOP whose body completes. */
  lemma PlusStep(w: World, k: nat, a: Stmt, p: nat, d: Data, fuel: nat)
    requires k < |w.defs| && p >= 1 && Eval(w, k, a, p, d, fuel).Norm?
    ensures var e := Eval(w, k, a, p, d, fuel).d; var l := LoopBack(true, e);
            && (l.Over? ==> EvalLoop(w, k, a, true, p, d, fuel) == Norm(l.d))
            && (l.Around? && |e.rs| >= 3 && e.rs[0] == Address(w, k, p - 1) && fuel > 0 ==>
                 EvalLoop(w, k, a, true, p, d, fuel) == EvalLoop(w, k, a, true, p, l.d, fuel - 1))
  {
    hide Eval, Address;
  }

  /** As long as no round ends the loop, it goes round with the index moved by the step. */
  lemma {:induction false} PlusLoopGoesOn(w: World, k: nat, a: Stmt, p: nat, d: Data, steps: seq<Cell>, fuel: nat,
                                         more: nat)
    requires k < |w.defs| && p >= 1 && |d.rs| >= 3 && d.rs[0] == Address(w, k, p - 1)
    requires LeavesSteps(w, k, a, p, d, steps, fuel) && more >= fuel + |steps|
    requires forall j | 0 <= j < |steps| :: !Ends(IndexAt(d.rs[2], steps, j), d.rs[1], steps[j])
    ensures EvalLoop(w, k, a, true, p, d, more) ==
            EvalLoop(w, k, a, true, p, PlusRounds(w, k, a, p, d, steps, fuel), more - |steps|)
    decreases |steps|
  {
    hide Eval, Address, LoopBack, EvalLoop, Ends;
    if steps != [] {
      var e := Eval(w, k, a, p, d, fuel).d;
      EvalMore(w, k, a, p, d, fuel, more);
      NextIndexAt(d.rs[2], steps, 0);
      EndsIs(d.rs[2], d.rs[1], steps[0]);
      PlusBackIs(e);
      PlusStep(w, k, a, p, d, more);
      var f := NextBy(e);
      forall j | 0 <= j < |steps[1..]| ensures !Ends(IndexAt(f.rs[2], steps[1..], j), f.rs[1], steps[1..][j]) {
        NextIndexAt(d.rs[2], steps, j);
        assert !Ends(IndexAt(d.rs[2], steps, j + 1), d.rs[1], steps[j + 1]);
      }
      PlusLoopGoesOn(w, k, a, p, f, steps[1..], fuel, more - 1);
    }
  }

  lemma EndsIs(index: Cell, limit: Cell, step: Cell)
    ensures Ends(index, limit, step) <==> PlusLoopEnds(index, limit, step)
  {
    hide Crosses, StepFits, PlusLoopEnds;
    PlusLoopExact(index, limit, step);
  }

  /**
   * DO and ?DO ... +LOOP, with a body that leaves these steps: round j has the index start plus the
   * steps before it modulo 2^32, and the loop ends after the first round whose step crosses the limit
   * without an overflow; it leaves the return stack as it was.
   */
  lemma PlusDoRuns(w: World, k: nat, query: bool, a: Stmt, p: nat, d: Data, steps: seq<Cell>, last: Cell, fuel: nat,
                   more: nat)
    requires k < |w.defs| && |d.ds| >= 2 && !(query && d.ds[0] == d.ds[1])
    requires var first := EnterLoop(d, Address(w, k, p + DoSize(query) - 1));
             LeavesSteps(w, k, a, p + DoSize(query), first, steps + [last], fuel) && more > fuel + |steps|
    requires forall j | 0 <= j < |steps| :: !Ends(IndexAt(d.ds[0], steps, j), d.ds[1], steps[j])
    requires Ends(IndexAt(d.ds[0], steps, |steps|), d.ds[1], last)
    ensures var first := EnterLoop(d, Address(w, k, p + DoSize(query) - 1));
            Eval(w, k, DoLoop(query, a, true), p, d, more) ==
            Norm(PlusRounds(w, k, a, p + DoSize(query), first, steps + [last], fuel).(rs := d.rs))
  {
    hide Address, EvalLoop, LeavesSteps, Eval, Ends, LoopBack, PlusRounds;
    var m := p + DoSize(query);
    var first := EnterLoop(d, Address(w, k, m - 1));
    assert first.rs[3..] == d.rs;
    SplitSteps(w, k, a, m, first, steps, last, fuel);
    PlusLoopGoesOn(w, k, a, m, first, steps, fuel, more);
    PlusIndex(w, k, a, m, first, steps, fuel);
    var e := PlusRounds(w, k, a, m, first, steps, fuel);
    EvalMore(w, k, a, m, e, fuel, more - |steps|);
    EndsIs(e.rs[2], e.rs[1], last);
    var f := Eval(w, k, a, m, e, fuel).d;
    PlusBackIs(f);
    PlusStep(w, k, a, m, e, more - |steps|);
    DoIs(w, k, query, a, p, d, more);
    assert f.rs[3..] == d.rs;
  }

  lemma DoIs(w: World, k: nat, query: bool, a: Stmt, p: nat, d: Data, fuel: nat)
    requires k < |w.defs| && |d.ds| >= 2 && !(query && d.ds[0] == d.ds[1])
    ensures var m := p + DoSize(query);
            Eval(w, k, DoLoop(query, a, true), p, d, fuel) ==
            EvalLoop(w, k, a, true, m, EnterLoop(d, Address(w, k, m - 1)), fuel)
  {
    hide EvalLoop, Address;
  }

  /** The last round of several. */
  lemma {:induction false} SplitSteps(w: World, k: nat, a: Stmt, p: nat, d: Data, steps: seq<Cell>, last: Cell,
                                      fuel: nat)
    requires k < |w.defs| && LeavesSteps(w, k, a, p, d, steps + [last], fuel)
    ensures LeavesSteps(w, k, a, p, d, steps, fuel)
    ensures var e := PlusRounds(w, k, a, p, d, steps, fuel); var o := Eval(w, k, a, p, e, fuel);
            && o.Norm? && |e.rs| >= 3 && o.d.rs == e.rs && o.d.ds != [] && o.d.ds[0] == last
            && PlusRounds(w, k, a, p, d, steps + [last], fuel) == NextBy(o.d)
    decreases |steps|
  {
    hide Eval;
    var all := steps + [last];
    if steps == [] {
      assert all[1..] == [];
    } else {
      assert all[1..] == steps[1..] + [last];
      SplitSteps(w, k, a, p, NextBy(Eval(w, k, a, p, d, fuel).d), steps[1..], last, fuel);
    }
  }

  /** The index that I brings after n rounds of LOOP; J brings it inside another loop. */
  lemma RoundIndex(w: World, k: nat, a: Stmt, p: nat, d: Data, n: nat, fuel: nat, inner: seq<Cell>)
    requires k < |w.defs| && |d.rs| >= 3 && Completes(w, k, a, p, d, n, fuel) && |inner| == 3
    ensures var (e, i) := (Rounds(w, k, a, p, d, n, fuel), (d.rs[2] + n) % WORD);
            && Leads(OP_I, e, e.(ds := [i] + e.ds))
            && Leads(OP_J, e.(rs := inner + e.rs), e.(ds := [i] + e.ds, rs := inner + e.rs))
  {
    hide Eval, Completes;
    var e := Rounds(w, k, a, p, d, n, fuel);
    assert e.rs == [e.rs[0], e.rs[1], e.rs[2]] + e.rs[3..];
    MovesIndex(e, e.rs[0], e.rs[1], e.rs[2], e.rs[3..]);
    assert inner == [inner[0], inner[1], inner[2]];
  }

  // ----- small loops -----

  /** A loop with nothing in it counts up to its limit and leaves nothing. */
  lemma EmptyLoop(w: World, k: nat, query: bool, p: nat, d: Data, fuel: nat)
    requires k < |w.defs| && |d.ds| >= 2 && fuel >= Trips(query, d.ds[0], d.ds[1])
    ensures Eval(w, k, DoLoop(query, Nop, false), p, d, fuel) == Norm(d.(ds := d.ds[2..]))
  {
    hide Address, Eval, Trips;
    var m := p + DoSize(query);
    var first := EnterLoop(d, Address(w, k, m - 1));
    var n := Trips(query, d.ds[0], d.ds[1]);
    NopCompletes(w, k, m, first, n);
    DoRuns(w, k, query, Nop, p, d, 0, fuel);
  }

  lemma {:induction false} NopCompletes(w: World, k: nat, p: nat, d: Data, n: nat)
    requires k < |w.defs| && |d.rs| >= 3
    ensures Completes(w, k, Nop, p, d, n, 0)
    ensures Rounds(w, k, Nop, p, d, n, 0) == d.(rs := Rounds(w, k, Nop, p, d, n, 0).rs)
    decreases n
  {
    if n > 0 { NopCompletes(w, k, p, NextIndex(d), n - 1); }
  }

  /** The body that leaves the same step each time. */
  lemma {:induction false} LiteralSteps(w: World, k: nat, p: nat, d: Data, step: Cell, n: nat)
    requires k < |w.defs| && |d.rs| >= 3
    ensures LeavesSteps(w, k, Lit(step), p, d, Same(step, n), 0)
    ensures var e := PlusRounds(w, k, Lit(step), p, d, Same(step, n), 0); e == d.(rs := e.rs)
    decreases n
  {
    if n > 0 {
      var steps := Same(step, n);
      var o := Eval(w, k, Lit(step), p, d, 0);
      assert steps[1..] == Same(step, n - 1);
      assert NextBy(o.d).ds == d.ds;
      LiteralSteps(w, k, p, NextBy(o.d), step, n - 1);
    }
  }

  function Same(step: Cell, n: nat): seq<Cell> {
    seq(n, i => step)
  }

  /** 10 0 DO 4 +LOOP runs with the indices 0, 4 and 8 and leaves nothing. */
  lemma FourByFour(w: World, k: nat, p: nat, d: Data, fuel: nat)
    requires k < |w.defs| && |d.ds| >= 2 && d.ds[0] == 0 && d.ds[1] == 10 && fuel >= 3
    ensures IndexAt(0, [4, 4], 0) == 0 && IndexAt(0, [4, 4], 1) == 4 && IndexAt(0, [4, 4], 2) == 8
    ensures Eval(w, k, DoLoop(false, Lit(4), true), p, d, fuel) == Norm(d.(ds := d.ds[2..]))
  {
    hide Address, Eval, LeavesSteps, PlusRounds, Ends;
    FourIndices();
    var first := EnterLoop(d, Address(w, k, p + 2));
    LiteralSteps(w, k, p + 3, first, 4, 3);
    assert Same(4, 3) == [4, 4] + [4];
    EndsIs(0, 10, 4);
    EndsIs(4, 10, 4);
    EndsIs(8, 10, 4);
    PlusDoRuns(w, k, false, Lit(4), p, d, [4, 4], 4, 0, fuel);
  }

  lemma FourIndices()
    ensures IndexAt(0, [4, 4], 0) == 0 && IndexAt(0, [4, 4], 1) == 4 && IndexAt(0, [4, 4], 2) == 8
  {
    assert [4, 4][..1] == [4] && [4, 4][..2] == [4, 4] && [4, 4][1..] == [4] && [4][1..] == [];
    assert Total([4]) == 4;
  }
}
