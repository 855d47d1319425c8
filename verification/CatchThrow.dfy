/**
 * CATCH and THROW, word by word, on stacks in memory whose pointers they save and
 * overwrite, in programs that nest them in any way.
 */
module CatchThrow {
  import opened Sequences

  // ----- the machine -----

  /**
   * Both stacks grow downward in memory; addresses in them are indices. sp and rp are the
   * free cells below the tops; peak is the highest that sp has been.
   */
  datatype State = State(ds: seq<int>, sp: int, rs: seq<int>, rp: int, handler: int, peak: int) {
    predicate Valid() {
      -1 <= sp <= peak < |ds| && -1 <= rp < |rs|
    }
  }

  type Valid = s: State | s.Valid() witness State([0], 0, [0], 0, 0, 0)

  function Max(a: int, b: int): int {
    if a < b then b else a
  }

  // ----- the words -----

  function Push(s: Valid, v: int): Option<Valid> {
    if s.sp < 0 then None else Some(s.(ds := s.ds[s.sp := v], sp := s.sp - 1))
  }

  function Drop(s: Valid): Option<Valid> {
    if s.sp + 1 >= |s.ds| then None else Some(s.(sp := s.sp + 1, peak := Max(s.peak, s.sp + 1)))
  }

  function PushR(s: Valid, v: int): Option<Valid> {
    if s.rp < 0 then None else Some(s.(rs := s.rs[s.rp := v], rp := s.rp - 1))
  }

  function DropR(s: Valid): Option<Valid> {
    if s.rp + 1 >= |s.rs| then None else Some(s.(rp := s.rp + 1))
  }

  /** >R */
  function ToR(s: Valid): Option<Valid> {
    var t :- Drop(s);
    PushR(t, s.ds[t.sp])
  }

  /** R> */
  function FromR(s: Valid): Option<Valid> {
    var t :- DropR(s);
    Push(t, s.rs[t.rp])
  }

  /** HANDLER ! */
  function HandlerStore(s: Valid): Option<Valid> {
    var t :- Drop(s);
    Some(t.(handler := s.ds[t.sp]))
  }

  function Swap(s: Valid): Option<Valid> {
    if s.sp + 2 >= |s.ds| then None
    else Some(s.(ds := s.ds[s.sp + 1 := s.ds[s.sp + 2]][s.sp + 2 := s.ds[s.sp + 1]]))
  }

  /** SP!: an address outside the stack is an error. */
  function SpStore(s: Valid): Option<Valid> {
    var t :- Drop(s);
    var p := s.ds[t.sp] - 1;
    if 0 <= p < |s.ds| then Some(t.(sp := p, peak := Max(t.peak, p))) else None
  }

  /** RP! */
  function RpStore(s: Valid): Option<Valid> {
    var t :- Drop(s);
    var p := s.ds[t.sp] - 1;
    if 0 <= p < |s.rs| then Some(t.(rp := p)) else None
  }

  /** CATCH up to EXECUTE: called from before ra, and executing with its own return address. */
  function EnterCatch(s: Valid, ra: int, own: int): Option<Valid> {
    var s :- PushR(s, ra);
    var s :- Push(s, s.sp + 1);   // SP@
    var s :- ToR(s);
    var s :- Push(s, s.handler);  // HANDLER A@
    var s :- ToR(s);
    var s :- Push(s, s.rp + 1);   // RP@
    var s :- HandlerStore(s);
    var s :- Drop(s);             // EXECUTE takes the xt
    PushR(s, own)
  }

  /** CATCH behind EXECUTE, up to its RET. */
  function LeaveCatch(s: Valid): Option<Valid> {
    var s :- FromR(s);
    var s :- HandlerStore(s);
    var s :- DropR(s);            // R> DROP
    Push(s, 0)
  }

  /** THROW of what is on the stack, if not 0, up to its RET. */
  function Throw(s: Valid): Option<Valid> {
    var s :- RestoreHandler(s);
    RestoreStack(s)
  }

  function RestoreHandler(s: Valid): Option<Valid> {
    var s :- Push(s, s.handler);  // HANDLER A@
    var s :- RpStore(s);
    var s :- FromR(s);
    HandlerStore(s)
  }

  function RestoreStack(s: Valid): Option<Valid> {
    var s :- FromR(s);
    var s :- Swap(s);
    var s :- ToR(s);
    var s :- SpStore(s);
    var s :- Drop(s);
    FromR(s)
  }

  // ----- programs -----

  /** Programs up to a RET. */
  datatype Prog =
    | Return
    | Words(pops: nat, pushes: seq<int>, rest: Prog)           // words on the data stack, with the values they leave
    | Save(rest: Prog)                                         // >R
    | Restore(rest: Prog)                                      // R>
    | Call(ra: int, body: Prog, rest: Prog)
    | CallThrow(rest: Prog)
    | CallCatch(ra: int, own: int, body: Prog, rest: Prog)

  /**
   * How a program ends: with its RET, with the RET of a THROW of a code to the address that it has
   * uncovered (or, with code 0, with a RET that has gone astray), or with an error.
   */
  datatype Outcome = Returns(s: Valid) | Jumps(a: int, code: int, s: Valid) | Fails

  function Drops(s: Valid, n: nat): Option<Valid>
    decreases n
  {
    if n == 0 then Some(s) else
      var t :- Drop(s);
      Drops(t, n - 1)
  }

  function Pushes(s: Valid, vs: seq<int>): Option<Valid>
    decreases |vs|
  {
    if vs == [] then Some(s) else
      var t :- Push(s, vs[0]);
      Pushes(t, vs[1..])
  }

  /** RET */
  function Ret(s: Valid): Option<(int, Valid)> {
    var t :- DropR(s);
    Some((s.rs[t.rp], t))
  }

  /** Runs a program that was entered with its return address on top of the return stack, at floor + 1. */
  function Exec(p: Prog, s: Valid, floor: int): Outcome
    decreases p, 0
  {
    match p
    case Return => if s.rp == floor then Returns(s) else Fails
    case Words(n, vs, rest) =>
      (match Drops(s, n)
       case None => Fails
       case Some(t) => match Pushes(t, vs) case None => Fails case Some(u) => Exec(rest, u, floor))
    case Save(rest) => (match ToR(s) case None => Fails case Some(t) => Exec(rest, t, floor))
    case Restore(rest) =>
      if s.rp >= floor then Fails
      else (match FromR(s) case None => Fails case Some(t) => Exec(rest, t, floor))
    case Call(ra, body, rest) =>
      (match PushR(s, ra)
       case None => Fails
       case Some(t) => Go(Back(Exec(body, t, t.rp), ra), rest, floor))
    case CallThrow(rest) => ExecThrow(rest, s, floor)
    case CallCatch(ra, own, body, rest) =>
      (match EnterCatch(s, ra, own)
       case None => Fails
       case Some(t) => Go(Caught(Exec(body, t, t.rp), ra, own, s.rp), rest, floor))
  }

  /** Goes on behind a call if that is where control comes to. */
  function Go(o: Outcome, rest: Prog, floor: int): Outcome
    decreases rest, 1
  {
    if o.Returns? then Exec(rest, o.s, floor) else o
  }

  function ExecThrow(rest: Prog, s: Valid, floor: int): Outcome
    decreases rest, 1
  {
    if s.sp + 1 >= |s.ds| then Fails
    else if s.ds[s.sp + 1] == 0 then
      (match Drop(s) case None => Fails case Some(t) => Exec(rest, t, floor))
    else
      match Throw(s)
      case None => Fails
      case Some(t) => match Ret(t) case None => Fails case Some(r) => Jumps(r.0, s.ds[s.sp + 1], r.1)
  }

  /** The end of a body that was called from before ra: it returns there, unless THROW went elsewhere. */
  function Back(o: Outcome, ra: int): Outcome {
    match o
    case Returns(s) =>
      (match Ret(s)
       case None => Fails
       case Some(r) => if r.0 == ra then Returns(r.1) else Jumps(r.0, 0, r.1))
    case _ => o
  }

  /**
   * The end of a body that CATCH executed, called with the return stack at level: the rest of
   * CATCH and its RET, or a jump to behind that call.
   */
  function Caught(o: Outcome, ra: int, own: int, level: int): Outcome {
    match o
    case Returns(s) =>
      (match Ret(s)
       case None => Fails
       case Some(r) => if r.0 != own then Jumps(r.0, 0, r.1) else Finished(r.1, ra))
    case Jumps(a, _, s) => if a == ra && s.rp == level then Returns(s) else o
    case Fails => o
  }

  function Finished(s: Valid, ra: int): Outcome {
    match LeaveCatch(s)
    case None => Fails
    case Some(t) => Back(Returns(t), ra)
  }

  // ----- what the words do -----

  /** No cell of either stack changes but those beyond the highest pointers. */
  predicate Untouched(s: Valid, t: Valid, rp: int) {
    && |t.ds| == |s.ds| && |t.rs| == |s.rs| && s.peak <= t.peak
    && (forall i | t.peak < i < |s.ds| :: t.ds[i] == s.ds[i])
    && (forall i | rp < i < |s.rs| :: 0 <= i && t.rs[i] == s.rs[i])
  }

  /** CATCH saves the data stack's address and the handler below its return address, and makes that the handler. */
  lemma EnteredCatch(s: Valid, ra: int, own: int)
    requires EnterCatch(s, ra, own).Some?
    ensures var t := EnterCatch(s, ra, own).value; var h := s.rp - 2;
            && t.handler == h && t.rp == h - 2 >= -1 && t.sp == s.sp + 1 && t.peak == Max(s.peak, s.sp + 1)
            && Untouched(s, t, s.rp)
            && s.rp < |t.rs| && t.rs[h - 1] == own && t.rs[h] == s.handler && t.rs[h + 1] == s.sp + 1
            && t.rs[h + 2] == ra
  {
  }

  lemma HandlerRestored(s: Valid)
    requires RestoreHandler(s).Some? && 0 <= s.handler < |s.rs| && s.sp + 1 < |s.ds|
    ensures var (t, h) := (RestoreHandler(s).value, s.handler);
            && t == s.(ds := t.ds, rp := h, handler := s.rs[h])
            && |t.ds| == |s.ds| && forall i | s.sp < i < |s.ds| :: t.ds[i] == s.ds[i]
  {
  }

  lemma StackRestored(s: Valid)
    requires RestoreStack(s).Some? && s.rp + 1 < |s.rs| && s.sp + 1 < |s.ds|
    ensures var (t, v) := (RestoreStack(s).value, s.rs[s.rp + 1]);
            && t.handler == s.handler && t.rp == s.rp + 1 && t.sp == v - 1
            && t.peak == Max(Max(s.peak, s.sp + 1), v) && Untouched(s, t, s.rp + 1)
            && 0 <= v < |t.ds| && t.ds[v] == s.ds[s.sp + 1]
  {
  }

  /** With the frame at h, THROW restores what CATCH saved there. */
  lemma Thrown(s: Valid)
    requires Throw(s).Some? && 0 <= s.handler && s.handler + 1 < |s.rs| && s.sp + 1 < |s.ds|
    ensures var t := Throw(s).value; var (h, v) := (s.handler, s.rs[s.handler + 1]);
            && t.handler == s.rs[h] && t.rp == h + 1 && t.sp == v - 1
            && t.peak == Max(Max(s.peak, s.sp + 1), v) && Untouched(s, t, h + 1)
            && 0 <= v < |t.ds| && t.ds[v] == s.ds[s.sp + 1]
  {
    hide RestoreHandler, RestoreStack;
    HandlerRestored(s);
    StackRestored(RestoreHandler(s).value);
  }

  // ----- whole programs -----

  /** CATCH's frame lies at the handler, above floor, and its data stack has been popped to the xt's cell. */
  predicate Framed(s: Valid, floor: int) {
    && s.rp <= floor && floor + 2 <= s.handler && 0 <= s.handler && s.handler + 2 < |s.rs|
    && 0 <= s.rs[s.handler + 1] <= s.peak
  }

  /** The program has returned, with its own part of the return stack used up. */
  predicate Returned(s: Valid, t: Valid, floor: int) {
    t.rp == floor && t.handler == s.handler && Untouched(s, t, floor)
  }

  /** THROW has gone to behind the innermost active CATCH, with the stack it had saved and its code on top. */
  predicate Threw(s: Valid, a: int, code: int, t: Valid)
    requires 0 <= s.handler && s.handler + 2 < |s.rs|
  {
    var (h, v) := (s.handler, s.rs[s.handler + 1]);
    && a == s.rs[h + 2] && t.rp == h + 2 && t.handler == s.rs[h]
    && t.sp == v - 1 && 0 <= v < |t.ds| && t.ds[v] == code != 0 && Untouched(s, t, h + 2)
  }

  predicate Ends(s: Valid, o: Outcome, floor: int)
    requires Framed(s, floor)
  {
    match o
    case Returns(t) => Returned(s, t, floor)
    case Jumps(a, code, t) => Threw(s, a, code, t)
    case Fails => true
  }

  lemma {:induction false} ExecEnds(p: Prog, s: Valid, floor: int)
    requires Framed(s, floor)
    ensures Ends(s, Exec(p, s, floor), floor)
    decreases p, 1
  {
    hide Framed, Ends, EnterCatch, Caught, Back;
    match p
    case Return => ReturnEnds(s, floor);
    case Words(n, vs, rest) =>
      if Drops(s, n).Some? {
        var t := Drops(s, n).value;
        if Pushes(t, vs).Some? {
          var u := Pushes(t, vs).value;
          WordsKeep(s, n, t, vs, u, floor);
          ExecEnds(rest, u, floor);
          EndsAfter(s, u, Exec(rest, u, floor), floor);
        } else { FailsEnds(s, floor); }
      } else { FailsEnds(s, floor); }
    case Save(rest) => 
      if ToR(s).Some? {
        SaveKeeps(s, floor);
        ExecEnds(rest, ToR(s).value, floor);
        EndsAfter(s, ToR(s).value, Exec(rest, ToR(s).value, floor), floor);
      } else { FailsEnds(s, floor); }
    case Restore(rest) =>
      if s.rp < floor && FromR(s).Some? {
        RestoreKeeps(s, floor);
        ExecEnds(rest, FromR(s).value, floor);
        EndsAfter(s, FromR(s).value, Exec(rest, FromR(s).value, floor), floor);
      } else { FailsEnds(s, floor); }
    case Call(ra, body, rest) => CallEnds(ra, body, rest, s, floor);
    case CallThrow(rest) => ThrowEnds(rest, s, floor);
    case CallCatch(ra, own, body, rest) =>
      if EnterCatch(s, ra, own).Some? {
        var t := EnterCatch(s, ra, own).value;
        var o := Caught(Exec(body, t, t.rp), ra, own, s.rp);
        CatchFramed(s, ra, own);
        ExecEnds(body, t, t.rp);
        CatchKeeps(s, Exec(body, t, t.rp), ra, own);
        if o.Returns? { ResumedKeeps(s, o.s, floor); } else { FailsEnds(s, floor); }
        GoEnds(s, o, rest, floor);
      } else { FailsEnds(s, floor); }
  }

  lemma FailsEnds(s: Valid, floor: int)
    requires Framed(s, floor)
    ensures Ends(s, Fails, floor)
  {
  }

  lemma ReturnEnds(s: Valid, floor: int)
    requires Framed(s, floor)
    ensures Ends(s, if s.rp == floor then Returns(s) else Fails, floor)
  {
  }

  /** Steps that keep the frame. */
  predicate Keeps(s: Valid, t: Valid, floor: int) {
    t.rp <= floor && t.handler == s.handler && Untouched(s, t, floor)
  }

  lemma EndsAfter(s: Valid, t: Valid, o: Outcome, floor: int)
    requires Framed(s, floor) && Keeps(s, t, floor) && Framed(t, floor) && Ends(t, o, floor)
    ensures Ends(s, o, floor)
  {
  }

  lemma {:induction false} DropsKeep(s: Valid, n: nat, t: Valid)
    requires Drops(s, n) == Some(t)
    ensures Untouched(s, t, -1) && t.handler == s.handler && t.rp == s.rp && t.rs == s.rs
    decreases n
  {
    if n > 0 { DropsKeep(Drop(s).value, n - 1, t); }
  }

  lemma {:induction false} PushesKeep(s: Valid, vs: seq<int>, t: Valid)
    requires Pushes(s, vs) == Some(t)
    ensures Untouched(s, t, -1) && t.handler == s.handler && t.rp == s.rp && t.rs == s.rs
    decreases |vs|
  {
    if vs != [] { PushesKeep(Push(s, vs[0]).value, vs[1..], t); }
  }

  lemma WordsKeep(s: Valid, n: nat, t: Valid, vs: seq<int>, u: Valid, floor: int)
    requires Framed(s, floor) && Drops(s, n) == Some(t) && Pushes(t, vs) == Some(u)
    ensures Keeps(s, u, floor) && Framed(u, floor)
  {
    DropsKeep(s, n, t);
    PushesKeep(t, vs, u);
  }

  lemma SaveKeeps(s: Valid, floor: int)
    requires Framed(s, floor) && ToR(s).Some?
    ensures Keeps(s, ToR(s).value, floor) && Framed(ToR(s).value, floor)
  {
  }

  lemma RestoreKeeps(s: Valid, floor: int)
    requires Framed(s, floor) && s.rp < floor && FromR(s).Some?
    ensures Keeps(s, FromR(s).value, floor) && Framed(FromR(s).value, floor)
  {
  }

  lemma ThrowEnds(rest: Prog, s: Valid, floor: int)
    requires Framed(s, floor)
    ensures Ends(s, ExecThrow(rest, s, floor), floor)
    decreases rest, 2
  {
    hide Framed, Ends, Throw;
    if s.sp + 1 >= |s.ds| {
      FailsEnds(s, floor);
    } else if s.ds[s.sp + 1] == 0 {
      var t := Drop(s).value;
      DropKeeps(s, floor);
      ExecEnds(rest, t, floor);
      EndsAfter(s, t, Exec(rest, t, floor), floor);
    } else {
      ThrowGoes(s, floor, ExecThrow(rest, s, floor));
    }
  }

  lemma DropKeeps(s: Valid, floor: int)
    requires Framed(s, floor) && Drop(s).Some?
    ensures Keeps(s, Drop(s).value, floor) && Framed(Drop(s).value, floor)
  {
  }

  lemma ThrowGoes(s: Valid, floor: int, o: Outcome)
    requires Framed(s, floor) && s.sp + 1 < |s.ds| && s.ds[s.sp + 1] != 0
    requires o == match Throw(s)
                  case None => Fails
                  case Some(t) => match Ret(t) case None => Fails case Some(r) => Jumps(r.0, s.ds[s.sp + 1], r.1)
    ensures Ends(s, o, floor)
  {
    hide Throw;
    if Throw(s).Some? { Thrown(s); }
  }

  lemma CallEnds(ra: int, body: Prog, rest: Prog, s: Valid, floor: int)
    requires Framed(s, floor)
    ensures Ends(s, Exec(Call(ra, body, rest), s, floor), floor)
    decreases Call(ra, body, rest), 0
  {
    hide Framed, Ends, Back;
    if PushR(s, ra).Some? {
      var t := PushR(s, ra).value;
      CallFramed(s, ra, floor);
      ExecEnds(body, t, t.rp);
      BackKeeps(s, Exec(body, t, t.rp), ra, floor);
      GoEnds(s, Back(Exec(body, t, t.rp), ra), rest, floor);
    } else { FailsEnds(s, floor); }
  }

  lemma CallFramed(s: Valid, ra: int, floor: int)
    requires Framed(s, floor) && PushR(s, ra).Some?
    ensures var t := PushR(s, ra).value; Framed(t, t.rp)
  {
  }

  /** A called body returns behind its call, or a THROW in it goes to the same place as one here. */
  lemma BackKeeps(s: Valid, o: Outcome, ra: int, floor: int)
    requires Framed(s, floor) && PushR(s, ra).Some?
    requires var t := PushR(s, ra).value; Framed(t, t.rp) && Ends(t, o, t.rp)
    ensures GoesOn(s, Back(o, ra), floor)
  {
  }

  /** What a program may do before its rest. */
  predicate GoesOn(s: Valid, o: Outcome, floor: int)
    requires Framed(s, floor)
  {
    match o
    case Returns(u) => Keeps(s, u, floor) && Framed(u, floor)
    case _ => Ends(s, o, floor)
  }

  lemma {:induction false} GoEnds(s: Valid, o: Outcome, rest: Prog, floor: int)
    requires Framed(s, floor) && GoesOn(s, o, floor)
    ensures Ends(s, Go(o, rest, floor), floor)
    decreases rest, 2
  {
    hide Framed, Ends, Keeps;
    if o.Returns? {
      ExecEnds(rest, o.s, floor);
      EndsAfter(s, o.s, Exec(rest, o.s, floor), floor);
    }
  }

  // ----- CATCH -----

  lemma CatchFramed(s: Valid, ra: int, own: int)
    requires EnterCatch(s, ra, own).Some?
    ensures var t := EnterCatch(s, ra, own).value; Framed(t, t.rp)
  {
    hide EnterCatch;
    EnteredCatch(s, ra, own);
  }

  /**
   * Behind CATCH: everything is as it was before its call, but for cells that were popped. A code
   * other than 0 lies where the xt was; without a THROW there is a 0.
   */
  predicate Resumed(s: Valid, u: Valid) {
    && u.rp == s.rp && u.handler == s.handler && Untouched(s, u, s.rp)
    && u.sp + 1 < |u.ds| && (u.ds[u.sp + 1] != 0 ==> u.sp == s.sp)
  }

  lemma ResumedKeeps(s: Valid, u: Valid, floor: int)
    requires Framed(s, floor) && Resumed(s, u)
    ensures GoesOn(s, Returns(u), floor)
  {
  }

  lemma CatchKeeps(s: Valid, o: Outcome, ra: int, own: int)
    requires EnterCatch(s, ra, own).Some?
    requires var t := EnterCatch(s, ra, own).value; Framed(t, t.rp) && Ends(t, o, t.rp)
    ensures var c := Caught(o, ra, own, s.rp); !c.Jumps? && (c.Returns? ==> Resumed(s, c.s))
    ensures var c := Caught(o, ra, own, s.rp);
            o.Returns? && c.Returns? ==> c.s.ds[c.s.sp + 1] == 0 && c.s.sp == o.s.sp - 1
    ensures o.Jumps? ==>
              var c := Caught(o, ra, own, s.rp);
              c == Returns(o.s) && c.s.sp == s.sp && c.s.ds[c.s.sp + 1] == o.code != 0
  {
    hide EnterCatch, LeaveCatch;
    EnteredCatch(s, ra, own);
    var t := EnterCatch(s, ra, own).value;
    if o.Returns? {
      var r := Ret(o.s);
      if r.Some? && LeaveCatch(r.value.1).Some? { LeftCatch(r.value.1); }
    }
  }

  /** CATCH's end takes back what it saved, and pushes 0. */
  lemma LeftCatch(s: Valid)
    requires LeaveCatch(s).Some? && s.rp + 2 < |s.rs|
    ensures var t := LeaveCatch(s).value;
            && t.handler == s.rs[s.rp + 1] && t.rp == s.rp + 2 && t.rs == s.rs
            && Untouched(s, t, s.rp) && t.sp == s.sp - 1 && t.ds[t.sp + 1] == 0
  {
  }

  /**
   * Whatever a body does, CATCH of it goes on behind its call or fails: after a THROW of a code
   * other than 0 in the body, outside the CATCHes nested in it, with the stack as deep as it was
   * and that code in place of the xt; after no THROW with 0; and always with the return stack,
   * the handler and the cells that were never popped as they were.
   */
  lemma CatchResumes(s: Valid, ra: int, own: int, body: Prog, rest: Prog, floor: int) returns (u: Option<Valid>)
    ensures Exec(CallCatch(ra, own, body, rest), s, floor) == (if u.None? then Fails else Exec(rest, u.value, floor))
    ensures u.Some? ==> Resumed(s, u.value)
    ensures EnterCatch(s, ra, own).Some? ==>
              var o := Exec(body, EnterCatch(s, ra, own).value, EnterCatch(s, ra, own).value.rp);
              && (o.Jumps? ==> u.Some? && u.value.sp == s.sp && u.value.ds[u.value.sp + 1] == o.code != 0)
              && (o.Returns? && u.Some? ==> u.value.sp == o.s.sp - 1 && u.value.ds[u.value.sp + 1] == 0)
  {
    hide EnterCatch, LeaveCatch, Ends, Framed, Caught;
    u := None;
    if EnterCatch(s, ra, own).Some? {
      var t := EnterCatch(s, ra, own).value;
      CatchFramed(s, ra, own);
      ExecEnds(body, t, t.rp);
      CatchKeeps(s, Exec(body, t, t.rp), ra, own);
      var o := Caught(Exec(body, t, t.rp), ra, own, s.rp);
      if o.Returns? { u := Some(o.s); }
    }
  }

  // ----- a THROW that is caught -----

  /** With room on both stacks, CATCH of a program that throws c goes on with c where the xt was. */
  lemma ThrownIsCaught(s: Valid, ra: int, own: int, c: int, dead: Prog, rest: Prog, floor: int) returns (u: Valid)
    requires c != 0 && 0 <= s.sp < |s.ds| - 1 && 3 <= s.rp
    ensures Exec(CallCatch(ra, own, Words(0, [c], CallThrow(dead)), rest), s, floor) == Exec(rest, u, floor)
    ensures Resumed(s, u) && u.sp == s.sp && u.ds[u.sp + 1] == c
  {
    hide EnterCatch, Exec, Resumed;
    Enters(s, ra, own);
    var t := EnterCatch(s, ra, own).value;
    EnteredCatch(s, ra, own);
    var o := ThrowsOut(t, c, dead);
    var v := CatchResumes(s, ra, own, Words(0, [c], CallThrow(dead)), rest, floor);
    u := v.value;
  }

  lemma Enters(s: Valid, ra: int, own: int)
    requires 0 <= s.sp < |s.ds| - 1 && 3 <= s.rp
    ensures EnterCatch(s, ra, own).Some?
  {
  }

  lemma ThrowsOut(t: Valid, c: int, dead: Prog) returns (o: Outcome)
    requires c != 0 && 1 <= t.sp && 1 <= t.handler && t.handler + 2 < |t.rs| && 0 < t.rs[t.handler + 1] <= t.sp
    ensures o == Exec(Words(0, [c], CallThrow(dead)), t, t.rp) && o.Jumps? && o.code == c
  {
    var s := Push(t, c).value;
    assert Drops(t, 0) == Some(t) && Pushes(t, [c]) == Some(s);
    Throws(s);
    o := ExecThrow(dead, s, t.rp);
  }

  lemma Throws(s: Valid)
    requires 0 <= s.sp < |s.ds| - 1 && 1 <= s.handler && s.handler + 2 < |s.rs| && 0 < s.rs[s.handler + 1] <= s.sp + 1
    ensures Throw(s).Some? && Ret(Throw(s).value).Some?
  {
    hide RestoreHandler, RestoreStack;
    RestoresHandler(s);
    HandlerRestored(s);
    RestoresStack(RestoreHandler(s).value);
    Thrown(s);
  }

  lemma RestoresHandler(s: Valid)
    requires 0 <= s.sp < |s.ds| - 1 && 1 <= s.handler < |s.rs|
    ensures RestoreHandler(s).Some?
  {
  }

  lemma RestoresStack(s: Valid)
    requires 0 <= s.sp < |s.ds| - 1 && s.rp + 1 < |s.rs| && 0 < s.rs[s.rp + 1] <= s.sp + 1
    ensures RestoreStack(s).Some?
  {
  }

  /** CATCH of a body that returns, with room for what CATCH pushes, goes on with a 0 above what the body has left. */
  lemma ReturnIsCaught(s: Valid, ra: int, own: int, body: Prog, rest: Prog, floor: int) returns (u: Valid)
    requires 0 <= s.sp < |s.ds| - 1 && 3 <= s.rp && EnterCatch(s, ra, own).Some?
    requires var t := EnterCatch(s, ra, own).value; var o := Exec(body, t, t.rp); o.Returns? && o.s.sp >= 0
    ensures Exec(CallCatch(ra, own, body, rest), s, floor) == Exec(rest, u, floor)
    ensures var t := EnterCatch(s, ra, own).value; var o := Exec(body, t, t.rp);
            && Resumed(s, u) && u.sp == o.s.sp - 1 && u.ds[u.sp + 1] == 0
            && |u.ds| == |o.s.ds| && forall i | o.s.sp < i < |o.s.ds| :: u.ds[i] == o.s.ds[i]
  {
    hide EnterCatch, Exec, Resumed, LeaveCatch, Framed, Ends, Caught;
    var t := EnterCatch(s, ra, own).value;
    EnteredCatch(s, ra, own);
    CatchFramed(s, ra, own);
    ExecEnds(body, t, t.rp);
    var o := Exec(body, t, t.rp);
    CatchKeeps(s, o, ra, own);
    u := LeavesCatch(s, t, o, ra, own);
    CatchIs(s, ra, own, body, rest, floor);
  }

  lemma CatchIs(s: Valid, ra: int, own: int, body: Prog, rest: Prog, floor: int)
    requires EnterCatch(s, ra, own).Some?
    ensures var t := EnterCatch(s, ra, own).value;
            Exec(CallCatch(ra, own, body, rest), s, floor) == Go(Caught(Exec(body, t, t.rp), ra, own, s.rp), rest,
                                                                 floor)
  {
    hide EnterCatch, Caught;
  }

  lemma LeavesCatch(s: Valid, t: Valid, o: Outcome, ra: int, own: int) returns (u: Valid)
    requires t.handler == s.rp - 2 && t.rp == s.rp - 4 >= -1 && Framed(t, t.rp) && Ends(t, o, t.rp) && o.Returns?
    requires s.rp < |t.rs| && t.rs[s.rp - 3] == own && t.rs[s.rp] == ra && o.s.sp >= 0
    ensures Caught(o, ra, own, s.rp) == Returns(u) && u.sp == o.s.sp - 1 && u.ds[u.sp + 1] == 0
    ensures |u.ds| == |o.s.ds| && forall i | o.s.sp < i < |o.s.ds| :: u.ds[i] == o.s.ds[i]
  {
    hide LeaveCatch;
    var r := Ret(o.s).value.1;
    Leaves(r);
    u := Ret(LeaveCatch(r).value).value.1;
  }

  lemma Leaves(s: Valid)
    requires 0 <= s.sp && s.rp + 2 < |s.rs|
    ensures LeaveCatch(s).Some?
    ensures var t := LeaveCatch(s).value;
            && t.rp == s.rp + 2 && t.rs == s.rs && t.sp == s.sp - 1 && t.ds[t.sp + 1] == 0
            && |t.ds| == |s.ds| && forall i | s.sp < i < |s.ds| :: t.ds[i] == s.ds[i]
  {
  }

  /** THROW of 0 drops it and goes on. */
  lemma ThrowsNothing(s: Valid, rest: Prog, floor: int)
    requires s.sp + 1 < |s.ds| && s.ds[s.sp + 1] == 0
    ensures Exec(CallThrow(rest), s, floor) == Exec(rest, s.(sp := s.sp + 1, peak := Max(s.peak, s.sp + 1)), floor)
  {
  }

  // ----- what the other parts of programs do -----

  /** Under an active CATCH, a call of a body that returns goes on behind it, with the return stack as it was. */
  lemma CallGoesOn(s: Valid, ra: int, body: Prog, rest: Prog, floor: int)
    requires Framed(s, floor) && 0 <= s.rp
    requires var t := PushR(s, ra).value; Exec(body, t, t.rp).Returns?
    ensures var t := PushR(s, ra).value; var e := Exec(body, t, t.rp).s;
            s.rp < |e.rs| && Exec(Call(ra, body, rest), s, floor) == Exec(rest, e.(rp := s.rp), floor)
  {
    hide Exec, Framed;
    var t := PushR(s, ra).value;
    CallFramed(s, ra, floor);
    ExecEnds(body, t, t.rp);
    CallIs(s, ra, body, rest, floor);
  }

  lemma CallIs(s: Valid, ra: int, body: Prog, rest: Prog, floor: int)
    requires 0 <= s.rp
    ensures var t := PushR(s, ra).value; Exec(Call(ra, body, rest), s, floor) == Go(Back(Exec(body, t, t.rp), ra),
        rest, floor)
  {
    hide Back;
  }

  /** Words pop their cells and leave their values, the last one on top. */
  lemma WordsGoOn(s: Valid, n: nat, vs: seq<int>, rest: Prog, floor: int) returns (u: Valid)
    requires s.sp + n < |s.ds| && |vs| <= s.sp + n + 1
    ensures Exec(Words(n, vs, rest), s, floor) == Exec(rest, u, floor)
    ensures u.sp == s.sp + n - |vs| && u.rs == s.rs && u.rp == s.rp && u.handler == s.handler && |u.ds| == |s.ds|
    ensures forall i | 0 <= i < |vs| :: u.ds[s.sp + n - i] == vs[i]
    ensures forall i | s.sp + n < i < |s.ds| :: u.ds[i] == s.ds[i]
  {
    hide Exec;
    var t := DropsAll(s, n);
    u := PushesAll(t, vs);
    WordsAre(s, n, t, vs, u, rest, floor);
  }

  lemma WordsAre(s: Valid, n: nat, t: Valid, vs: seq<int>, u: Valid, rest: Prog, floor: int)
    requires Drops(s, n) == Some(t) && Pushes(t, vs) == Some(u)
    ensures Exec(Words(n, vs, rest), s, floor) == Exec(rest, u, floor)
  {
  }

  lemma {:induction false} DropsAll(s: Valid, n: nat) returns (t: Valid)
    requires s.sp + n < |s.ds|
    ensures Drops(s, n) == Some(t) && t == s.(sp := s.sp + n, peak := t.peak)
    decreases n
  {
    if n == 0 { t := s; } else { t := DropsAll(Drop(s).value, n - 1); }
  }

  lemma {:induction false} PushesAll(s: Valid, vs: seq<int>) returns (t: Valid)
    requires |vs| <= s.sp + 1
    ensures Pushes(s, vs) == Some(t) && t == s.(ds := t.ds, sp := s.sp - |vs|) && |t.ds| == |s.ds|
    ensures forall i | 0 <= i < |vs| :: t.ds[s.sp - i] == vs[i]
    ensures forall i | s.sp < i < |s.ds| :: t.ds[i] == s.ds[i]
    decreases |vs|
  {
    if vs == [] {
      t := s;
    } else {
      var u := Push(s, vs[0]).value;
      t := PushesAll(u, vs[1..]);
      assert t.ds[s.sp] == u.ds[s.sp] == vs[0];
      forall i | 0 <= i < |vs| ensures t.ds[s.sp - i] == vs[i] {
        if i > 0 { assert t.ds[u.sp - (i - 1)] == vs[1..][i - 1]; }
      }
    }
  }

  /** >R takes the top cell to the return stack. */
  lemma Saves(s: Valid, rest: Prog, floor: int)
    requires s.sp + 1 < |s.ds| && 0 <= s.rp
    ensures Exec(Save(rest), s, floor) ==
            Exec(rest, s.(sp := s.sp + 1, rp := s.rp - 1, rs := s.rs[s.rp := s.ds[s.sp + 1]],
                          peak := Max(s.peak, s.sp + 1)), floor)
  {
  }

  /** R> brings the top cell of the return stack. */
  lemma Restores(s: Valid, rest: Prog, floor: int)
    requires 0 <= s.sp && s.rp < floor && s.rp + 1 < |s.rs|
    ensures Exec(Restore(rest), s, floor) ==
            Exec(rest, s.(ds := s.ds[s.sp := s.rs[s.rp + 1]], sp := s.sp - 1, rp := s.rp + 1), floor)
  {
  }
}
