/**
 * Any word is a sequence of accesses, each of them told by what has passed before. If
 * none of them goes 16 cells beyond the highest place of the stack pointer, signals that
 * come between them change nothing of what the word does.
 */
module Interleaving {
  import opened Cells
  import opened Machines
  import opened Sequences

  /** An access to the data stack, or to the return stack, at an index; or the end, with an error code. */
  datatype Access =
    | Load(i: int)
    | Put(i: int, v: Cell)
    | MoveSp(to: int)
    | LoadSaved(i: int)
    | PutSaved(i: int, v: Cell)
    | MoveRp(to: int)
    | Done(error: int)

  /** What a word does after these cells have passed: one for each access before. */
  type Word = seq<Cell> -> Access

  datatype State = State(ds: seq<Cell>, sp: int, rs: seq<Cell>, rp: int) {
    predicate Valid() {
      OFFSET <= sp < |ds| && OFFSET <= rp < |rs|
    }

    /** The data stack, top first. */
    function Stack(): seq<Cell>
      requires Valid()
    {
      ds[sp + 1..]
    }

    /** The return stack, top first. */
    function Saved(): seq<Cell>
      requires Valid()
    {
      rs[rp + 1..]
    }
  }

  /** How high both pointers may get in a run of a word. */
  datatype Height = Height(top: int, rtop: int)

  /** The access is to cells less than 16 beyond the greatest height, or moves a pointer no higher. */
  predicate Within(a: Access, s: State, h: Height) {
    match a
    case Load(i) => h.top - OFFSET < i < |s.ds|
    case Put(i, _) => h.top - OFFSET < i < |s.ds|
    case MoveSp(to) => OFFSET <= to <= h.top <= to + OFFSET
    case LoadSaved(i) => h.rtop - OFFSET < i < |s.rs|
    case PutSaved(i, _) => h.rtop - OFFSET < i < |s.rs|
    case MoveRp(to) => OFFSET <= to <= h.rtop <= to + OFFSET
    case Done(_) => true
  }

  predicate Below(s: State, h: Height) {
    s.Valid() && s.sp <= h.top <= s.sp + OFFSET && s.rp <= h.rtop <= s.rp + OFFSET && h.top < |s.ds| && h.rtop < |s.rs|
  }

  /** The cell that passes. */
  function Passed(a: Access, s: State, h: Height): Cell
    requires Below(s, h) && Within(a, s, h)
  {
    match a
    case Load(i) => s.ds[i]
    case LoadSaved(i) => s.rs[i]
    case Put(_, v) => v
    case PutSaved(_, v) => v
    case _ => 0
  }

  function After(a: Access, s: State, h: Height): (t: State)
    requires Below(s, h) && Within(a, s, h)
    ensures Below(t, h)
  {
    match a
    case Put(i, v) => s.(ds := s.ds[i := v])
    case MoveSp(to) => s.(sp := to)
    case PutSaved(i, v) => s.(rs := s.rs[i := v])
    case MoveRp(to) => s.(rp := to)
    case _ => s
  }

  /** What has passed, and the state, after n accesses, or at the end, if no signal interrupts and all stay within. */
  function Run(w: Word, s: State, h: Height, n: nat): (r: Option<(seq<Cell>, State)>)
    requires Below(s, h)
    ensures r.Some? ==> Below(r.value.1, h)
    decreases n
  {
    if n == 0 then Some(([], s))
    else
      var (past, t) :- Run(w, s, h, n - 1);
      var a := w(past);
      if a.Done? then Some((past, t))
      else if Within(a, t, h) then Some((past + [Passed(a, t, h)], After(a, t, h))) else None
  }

  lemma {:induction false} RunBefore(w: Word, s: State, h: Height, n: nat, k: nat)
    requires Below(s, h) && k <= n && Run(w, s, h, n).Some?
    ensures Run(w, s, h, k).Some?
    decreases n
  {
    if k < n { RunBefore(w, s, h, n - 1, k); }
  }

  lemma {:induction false} RunDone(w: Word, s: State, h: Height, n: nat, k: nat)
    requires Below(s, h) && k <= n && Run(w, s, h, k).Some? && w(Run(w, s, h, k).value.0).Done?
    ensures Run(w, s, h, n) == Run(w, s, h, k)
    decreases n
  {
    if k < n { RunDone(w, s, h, n - 1, k); }
  }

  lemma RunNone(w: Word, s: State, h: Height)
    requires Below(s, h)
    ensures Run(w, s, h, 0) == Some(([], s))
  {
  }

  lemma RunNext(w: Word, s: State, h: Height, n: nat, k: nat, past: seq<Cell>, t: State)
    requires Below(s, h) && k <= n && RunsToEnd(w, s, h, n)
    requires Run(w, s, h, k) == Some((past, t)) && !w(past).Done?
    ensures k < n && Below(t, h) && Within(w(past), t, h)
    ensures Run(w, s, h, k + 1) == Some((past + [Passed(w(past), t, h)], After(w(past), t, h)))
  {
    hide Within, Passed, After;
    RunBefore(w, s, h, n, k);
    if k < n { RunBefore(w, s, h, n, k + 1); }
  }

  /** The word ends within n accesses, all of them within the height. */
  ghost predicate RunsToEnd(w: Word, s: State, h: Height, n: nat)
    requires Below(s, h)
  {
    Run(w, s, h, n).Some? && w(Run(w, s, h, n).value.0).Done?
  }

  // ----- interruption -----

  /** The pointers are the same, and so is every cell that an access within the height can meet. */
  predicate Same(s: State, t: State, h: Height) {
    && Below(s, h) && Below(t, h) && s.sp == t.sp && s.rp == t.rp && |s.ds| == |t.ds| && |s.rs| == |t.rs|
    && s.ds[h.top + 1 - OFFSET..] == t.ds[h.top + 1 - OFFSET..]
    && s.rs[h.rtop + 1 - OFFSET..] == t.rs[h.rtop + 1 - OFFSET..]
  }

  lemma AfterSame(a: Access, s: State, t: State, h: Height)
    requires Same(s, t, h) && Within(a, s, h)
    ensures Within(a, t, h) && Passed(a, s, h) == Passed(a, t, h) && Same(After(a, s, h), After(a, t, h), h)
  {
    var (k, l) := (h.top + 1 - OFFSET, h.rtop + 1 - OFFSET);
    if a.Load? { assert s.ds[k..][a.i - k] == t.ds[k..][a.i - k]; }
    if a.LoadSaved? { assert s.rs[l..][a.i - l] == t.rs[l..][a.i - l]; }
    if a.Put? {
      assert s.ds[a.i := a.v][k..] == s.ds[k..][a.i - k := a.v] && t.ds[a.i := a.v][k..] == t.ds[k..][a.i - k := a.v];
    }
    if a.PutSaved? {
      assert s.rs[a.i := a.v][l..] == s.rs[l..][a.i - l := a.v] && t.rs[a.i := a.v][l..] == t.rs[l..][a.i - l := a.v];
    }
  }

  ghost function Now(m: Machine): State
    reads m, m.stack, m.rstack
  {
    State(m.stack[..], m.sp, m.rstack[..], m.rp)
  }

  /** A signal is not seen below the height. */
  method Interrupt(m: Machine, ghost h: Height)
    requires m.Valid() && Below(Now(m), h)
    modifies m, m.stack, m.rstack
    ensures m.Valid() && Same(old(Now(m)), Now(m), h) && m.ip == old(m.ip) && m.entry == old(m.entry)
  {
    ghost var (g, c) := (m.Guarded(), m.Others().cells);
    m.Signal();
    ghost var (k, l) := (h.top - m.sp, h.rtop - m.rp);
    assert m.stack[h.top + 1 - OFFSET..] == g[k..];
    assert m.rstack[h.rtop + 1 - OFFSET..] == c[l..];
  }

  method Perform(m: Machine, a: Access, ghost h: Height) returns (v: Cell)
    requires m.Valid() && Below(Now(m), h) && Within(a, Now(m), h)
    modifies m, m.stack, m.rstack
    ensures m.Valid() && Now(m) == After(a, old(Now(m)), h) && v == Passed(a, old(Now(m)), h)
    ensures m.ip == old(m.ip) && m.entry == old(m.entry)
  {
    v := 0;
    match a {
      case Load(i) => v := m.stack[i];
      case Put(i, x) => m.stack[i], v := x, x;
      case MoveSp(to) => m.sp := to;
      case LoadSaved(i) => v := m.rstack[i];
      case PutSaved(i, x) => m.rstack[i], v := x, x;
      case MoveRp(to) => m.rp := to;
      case Done(_) =>
    }
  }

  /**
   * A word whose uninterrupted run stays within its height ends as that run does, with signals
   * between all its accesses: same pointers, same stacks, same cells within the height.
   */
  method Execute(m: Machine, w: Word, ghost h: Height, ghost n: nat) returns (past: seq<Cell>)
    requires m.Valid() && Below(Now(m), h) && RunsToEnd(w, Now(m), h, n)
    modifies m, m.stack, m.rstack
    ensures m.Valid() && m.ip == old(m.ip) && m.entry == old(m.entry)
    ensures var (p, t) := Run(w, old(Now(m)), h, n).value;
            past == p && Same(t, Now(m), h) && m.Contents() == t.Stack() && m.Saved() == t.Saved()
  {
    hide Within, Passed, After, Same, Run;
    past := [];
    ghost var s := Now(m);
    SameSelf(s, h);
    ghost var k := 0;
    RunNone(w, s, h);
    while !w(past).Done?
      invariant k <= n && m.Valid() && Below(s, h) && Same(s, Now(m), h) && m.ip == old(m.ip) && m.entry == old(m.entry)
      invariant Run(w, old(Now(m)), h, k) == Some((past, s))
      decreases n - k
    {
      RunNext(w, old(Now(m)), h, n, k, past, s);
      s, past := Once(m, w, past, s, h);
      k := k + 1;
    }
    RunDone(w, old(Now(m)), h, n, k);
    StillSame(m, s, h);
    SameStacks(s, Now(m), h);
  }

  /** A signal, and then one access. */
  method Once(m: Machine, w: Word, past: seq<Cell>, ghost s: State, ghost h: Height)
    returns (ghost t: State, more: seq<Cell>)
    requires m.Valid() && Same(s, Now(m), h) && Below(s, h) && Within(w(past), s, h)
    modifies m, m.stack, m.rstack
    ensures m.Valid() && m.ip == old(m.ip) && m.entry == old(m.entry)
    ensures t == After(w(past), s, h) && more == past + [Passed(w(past), s, h)] && Same(t, Now(m), h)
  {
    hide Within, Passed, After, Same;
    StillSame(m, s, h);
    var a := w(past);
    AfterSame(a, s, Now(m), h);
    SameBelow(s, Now(m), h);
    var v := Perform(m, a, h);
    t, more := After(a, s, h), past + [v];
  }

  /** A signal between two accesses. */
  method StillSame(m: Machine, ghost s: State, ghost h: Height)
    requires m.Valid() && Same(s, Now(m), h)
    modifies m, m.stack, m.rstack
    ensures m.Valid() && Same(s, Now(m), h) && m.ip == old(m.ip) && m.entry == old(m.entry)
  {
    hide Same;
    ghost var t := Now(m);
    SameBelow(s, t, h);
    Interrupt(m, h);
    SameTrans(s, t, Now(m), h);
  }

  lemma SameSelf(s: State, h: Height)
    requires Below(s, h)
    ensures Same(s, s, h)
  {
  }

  lemma SameBelow(s: State, t: State, h: Height)
    requires Same(s, t, h)
    ensures Below(t, h)
  {
  }

  lemma SameTrans(s: State, t: State, u: State, h: Height)
    requires Same(s, t, h) && Same(t, u, h)
    ensures Same(s, u, h)
  {
  }

  lemma SameStacks(s: State, t: State, h: Height)
    requires Same(s, t, h)
    ensures s.Valid() && t.Valid() && s.Stack() == t.Stack() && s.Saved() == t.Saved()
  {
    var (k, l) := (h.top + 1 - OFFSET, h.rtop + 1 - OFFSET);
    assert s.ds[s.sp + 1..] == s.ds[k..][s.sp + 1 - k..] && t.ds[t.sp + 1..] == t.ds[k..][t.sp + 1 - k..];
    assert s.rs[s.rp + 1..] == s.rs[l..][s.rp + 1 - l..] && t.rs[t.rp + 1..] == t.rs[l..][t.rp + 1 - l..];
  }
}
