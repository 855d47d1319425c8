/**
 * Words that move cells and divide, as sequences of accesses: what their uninterrupted runs
 * do, and that these stay within the height where signals do not matter.
 */
module InterruptedWords {
  import opened Cells
  import opened Machines
  import opened Sequences
  import opened Interleaving

  /** The word ends without an error after n accesses, with this data stack, and the return stack as it was. */
  ghost predicate Ends(w: Word, s: State, h: Height, n: nat, stack: seq<Cell>, error: int)
    requires Below(s, h)
  {
    var r := Run(w, s, h, n);
    && r.Some?
    && w(r.value.0) == Done(error)
    && r.value.1.Stack() == stack
    && r.value.1.rs == s.rs && r.value.1.rp == s.rp
  }

  /** A run has got so far. */
  ghost predicate At(w: Word, s: State, h: Height, n: nat, past: seq<Cell>, t: State) {
    Below(s, h) && Below(t, h) && Run(w, s, h, n) == Some((past, t))
  }

  lemma Start(w: Word, s: State, h: Height)
    requires Below(s, h)
    ensures At(w, s, h, 0, [], s)
  {
  }

  lemma Loads(w: Word, s: State, h: Height, n: nat, past: seq<Cell>, t: State, i: int) returns (more: seq<Cell>)
    requires At(w, s, h, n, past, t) && w(past) == Load(i) && h.top - OFFSET < i < |t.ds|
    ensures more == past + [t.ds[i]] && At(w, s, h, n + 1, more, t)
  {
    more := past + [t.ds[i]];
  }

  lemma Puts(w: Word, s: State, h: Height, n: nat, past: seq<Cell>, t: State, i: int, v: Cell)
    returns (more: seq<Cell>, u: State)
    requires At(w, s, h, n, past, t) && w(past) == Put(i, v) && h.top - OFFSET < i < |t.ds|
    ensures more == past + [v] && u == t.(ds := t.ds[i := v]) && At(w, s, h, n + 1, more, u)
  {
    more, u := past + [v], t.(ds := t.ds[i := v]);
  }

  lemma Points(w: Word, s: State, h: Height, n: nat, past: seq<Cell>, t: State, to: int)
    returns (more: seq<Cell>, u: State)
    requires At(w, s, h, n, past, t) && w(past) == MoveSp(to) && OFFSET <= to <= h.top <= to + OFFSET
    ensures more == past + [0] && u == t.(sp := to) && At(w, s, h, n + 1, more, u)
  {
    more, u := past + [0], t.(sp := to);
  }

  lemma StackSize(s: State)
    requires s.Valid()
    ensures |s.Stack()| == |s.ds| - s.sp - 1
  {
  }

  lemma Ended(w: Word, s: State, h: Height, n: nat, past: seq<Cell>, t: State, error: int)
    requires At(w, s, h, n, past, t) && w(past) == Done(error) && t.rs == s.rs && t.rp == s.rp
    ensures Below(s, h) && t.Valid() && Ends(w, s, h, n, t.Stack(), error)
  {
  }

  /** The machine's data stack is this, and nothing else has changed. */
  twostate predicate Leaves(m: Machine, stack: seq<Cell>)
    reads m, m.stack, m.rstack
    requires old(m.Valid())
  {
    && m.Valid() && m.Contents() == stack && m.Saved() == old(m.Saved())
    && m.rp == old(m.rp) && m.ip == old(m.ip) && m.entry == old(m.entry)
  }

  /** What a word does uninterrupted it does on the machine, with signals between all its accesses. */
  method Interrupted(m: Machine, w: Word, ghost h: Height, ghost n: nat, ghost stack: seq<Cell>, ghost error: int)
    returns (e: int)
    requires m.Valid() && Below(Now(m), h) && Ends(w, Now(m), h, n, stack, error)
    modifies m, m.stack, m.rstack
    ensures Leaves(m, stack) && e == error
  {
    var past := Execute(m, w, h, n);
    e := w(past).error;
  }

  // ----- words that only move cells -----

  /** The cell at an index is read, or the cell that passed as the k-th is written at an index. */
  datatype Move = Read(i: int) | Write(i: int, k: nat)

  /** Moves in turn; at last the pointer is set. */
  function Moves(ms: seq<Move>, sp: int): Word {
    (past: seq<Cell>) =>
      if |past| < |ms| then
        match ms[|past|]
        case Read(i) => Load(i)
        case Write(i, k) => if k < |past| then Put(i, past[k]) else Done(0)
      else if |past| == |ms| then MoveSp(sp)
      else Done(0)
  }

  function MinusRot(p: int): Word {
    Moves([Read(p + 1), Write(p, 0), Read(p + 2), Write(p + 1, 2), Read(p + 3), Write(p + 2, 4), Read(p),
           Write(p + 3, 6)], p)
  }

  /** -ROT ( a b c -- c a b ): by way of the cell beyond the stack. */
  lemma MinusRotRuns(s: State, h: Height)
    requires s.Valid() && |s.Stack()| >= 3 && h == Height(s.sp, s.rp)
    ensures Ends(MinusRot(s.sp), s, h, 9, [s.Stack()[1], s.Stack()[2], s.Stack()[0]] + s.Stack()[3..], 0)
  {
    hide At;
    var (p, w) := (s.sp, MinusRot(s.sp));
    Start(w, s, h);
    var t := s;
    var past := Loads(w, s, h, 0, [], t, p + 1);
    past, t := Puts(w, s, h, 1, past, t, p, s.ds[p + 1]);
    past := Loads(w, s, h, 2, past, t, p + 2);
    past, t := Puts(w, s, h, 3, past, t, p + 1, s.ds[p + 2]);
    past := Loads(w, s, h, 4, past, t, p + 3);
    past, t := Puts(w, s, h, 5, past, t, p + 2, s.ds[p + 3]);
    past := Loads(w, s, h, 6, past, t, p);
    past, t := Puts(w, s, h, 7, past, t, p + 3, s.ds[p + 1]);
    past, t := Points(w, s, h, 8, past, t, p);
    Ended(w, s, h, 9, past, t, 0);
  }

  /** -ROT, under signals. */
  method MinusRotWord(m: Machine)
    requires m.Holds(3)
    modifies m, m.stack, m.rstack
    ensures var c := old(m.Contents()); Leaves(m, [c[1], c[2], c[0]] + c[3..])
  {
    hide Ends;
    ghost var c := m.Contents();
    ghost var (s, h) := (Now(m), Height(m.sp, m.rp));
    StackIs(m);
    MinusRotRuns(s, h);
    var e := Interrupted(m, MinusRot(m.sp), h, 9, [c[1], c[2], c[0]] + c[3..], 0);
  }

  /** 2OVER ( a b c d -- a b c d a b ) */
  function TwoOver(p: int): Word {
    Moves([Read(p + 3), Read(p + 4), Write(p, 1), Write(p - 1, 0)], p - 2)
  }

  lemma TwoOverRuns(s: State, h: Height)
    requires s.Valid() && |s.Stack()| >= 4 && h == Height(s.sp, s.rp) && s.sp - 2 >= OFFSET
    ensures Ends(TwoOver(s.sp), s, h, 5, s.Stack()[2..4] + s.Stack(), 0)
  {
    hide At;
    var (p, w) := (s.sp, TwoOver(s.sp));
    Start(w, s, h);
    var t := s;
    var past := Loads(w, s, h, 0, [], t, p + 3);
    past := Loads(w, s, h, 1, past, t, p + 4);
    past, t := Puts(w, s, h, 2, past, t, p, s.ds[p + 4]);
    past, t := Puts(w, s, h, 3, past, t, p - 1, s.ds[p + 3]);
    past, t := Points(w, s, h, 4, past, t, p - 2);
    Ended(w, s, h, 5, past, t, 0);
  }

  /** 2OVER, under signals. */
  method TwoOverWord(m: Machine)
    requires m.Holds(4) && m.sp - 2 >= OFFSET
    modifies m, m.stack, m.rstack
    ensures var c := old(m.Contents()); Leaves(m, c[2..4] + c)
  {
    hide Ends;
    ghost var c := m.Contents();
    ghost var (s, h) := (Now(m), Height(m.sp, m.rp));
    StackIs(m);
    TwoOverRuns(s, h);
    var e := Interrupted(m, TwoOver(m.sp), h, 5, c[2..4] + c, 0);
  }

  /** 2ROT ( a b c d e f -- c d e f a b ) */
  function TwoRot(p: int): Word {
    Moves([Read(p + 1), Read(p + 2), Read(p + 3), Write(p + 3, 0), Read(p + 4), Write(p + 4, 1),
           Read(p + 5), Write(p + 5, 2), Read(p + 6), Write(p + 6, 4), Write(p + 1, 6), Write(p + 2, 8)], p)
  }

  lemma TwoRotRuns(s: State, h: Height)
    requires s.Valid() && |s.Stack()| >= 6 && h == Height(s.sp, s.rp)
    ensures Ends(TwoRot(s.sp), s, h, 13, s.Stack()[4..6] + s.Stack()[..4] + s.Stack()[6..], 0)
  {
    hide At, Ends, State.Stack;
    assert s.sp + 6 < |s.ds| by { StackSize(s); }
    var (p, w) := (s.sp, TwoRot(s.sp));
    var past, t := TwoRotFirst(s, h);
    past := Loads(w, s, h, 6, past, t, p + 5);
    past, t := Puts(w, s, h, 7, past, t, p + 5, s.ds[p + 3]);
    past := Loads(w, s, h, 8, past, t, p + 6);
    past, t := TwoRotLast(s, h, past, t);
    Ended(w, s, h, 13, past, t, 0);
    Rotated(s, t);
  }

  lemma Rotated(s: State, t: State)
    requires s.Valid() && |s.Stack()| >= 6 && t.Valid() && t.sp == s.sp
    requires t.ds == var (d, p) := (s.ds, s.sp);
                     d[p + 3 := d[p + 1]][p + 4 := d[p + 2]][p + 5 := d[p + 3]][p + 6 := d[p + 4]]
                     [p + 1 := d[p + 5]][p + 2 := d[p + 6]]
    ensures t.Stack() == s.Stack()[4..6] + s.Stack()[..4] + s.Stack()[6..]
  {
  }

  lemma TwoRotFirst(s: State, h: Height) returns (past: seq<Cell>, t: State)
    requires s.Valid() && |s.Stack()| >= 6 && h == Height(s.sp, s.rp)
    ensures At(TwoRot(s.sp), s, h, 6, past, t)
            && t == s.(ds := s.ds[s.sp + 3 := s.ds[s.sp + 1]][s.sp + 4 := s.ds[s.sp + 2]])
    ensures |past| == 6 && past[2] == s.ds[s.sp + 3] && past[4] == s.ds[s.sp + 4]
  {
    hide At;
    var (p, w) := (s.sp, TwoRot(s.sp));
    Start(w, s, h);
    t := s;
    past := Loads(w, s, h, 0, [], t, p + 1);
    past := Loads(w, s, h, 1, past, t, p + 2);
    past := Loads(w, s, h, 2, past, t, p + 3);
    past, t := Puts(w, s, h, 3, past, t, p + 3, s.ds[p + 1]);
    past := Loads(w, s, h, 4, past, t, p + 4);
    past, t := Puts(w, s, h, 5, past, t, p + 4, s.ds[p + 2]);
  }

  lemma TwoRotLast(s: State, h: Height, past: seq<Cell>, t: State) returns (more: seq<Cell>, u: State)
    requires s.Valid() && |s.Stack()| >= 6 && h == Height(s.sp, s.rp) && At(TwoRot(s.sp), s, h, 9, past, t)
    requires |past| == 9 && past[4] == s.ds[s.sp + 4] && |t.ds| == |s.ds| && t.sp == s.sp
    ensures |more| == 13 && At(TwoRot(s.sp), s, h, 13, more, u)
    ensures u == t.(ds := t.ds[s.sp + 6 := s.ds[s.sp + 4]][s.sp + 1 := past[6]][s.sp + 2 := past[8]])
  {
    hide At;
    var (p, w) := (s.sp, TwoRot(s.sp));
    more, u := Puts(w, s, h, 9, past, t, p + 6, s.ds[p + 4]);
    more, u := Puts(w, s, h, 10, more, u, p + 1, past[6]);
    more, u := Puts(w, s, h, 11, more, u, p + 2, past[8]);
    more, u := Points(w, s, h, 12, more, u, p);
  }

  /** 2ROT, under signals. */
  method TwoRotWord(m: Machine)
    requires m.Holds(6)
    modifies m, m.stack, m.rstack
    ensures var c := old(m.Contents()); Leaves(m, c[4..6] + c[..4] + c[6..])
  {
    hide Ends;
    ghost var c := m.Contents();
    ghost var (s, h) := (Now(m), Height(m.sp, m.rp));
    StackIs(m);
    TwoRotRuns(s, h);
    var e := Interrupted(m, TwoRot(m.sp), h, 13, c[4..6] + c[..4] + c[6..], 0);
  }

  // ----- words that are told a place -----

  /** PICK ( xu ... x0 u -- xu ... x0 xu ) */
  function Pick(p: int): Word {
    (past: seq<Cell>) =>
      if |past| == 0 then Load(p + 1)
      else if |past| == 1 then Load(p + 2 + past[0])
      else if |past| == 2 then Put(p + 1, past[1])
      else if |past| == 3 then MoveSp(p)
      else Done(0)
  }

  lemma PickRuns(s: State, h: Height)
    requires s.Valid() && h == Height(s.sp, s.rp)
    requires |s.Stack()| >= 1 && s.Stack()[0] + 1 < |s.Stack()|
    ensures Ends(Pick(s.sp), s, h, 4, [s.Stack()[1 + s.Stack()[0]]] + s.Stack()[1..], 0)
  {
    hide At;
    var (p, w) := (s.sp, Pick(s.sp));
    var u: int := s.ds[p + 1];
    Start(w, s, h);
    var t := s;
    var past := Loads(w, s, h, 0, [], t, p + 1);
    past := Loads(w, s, h, 1, past, t, p + 2 + u);
    past, t := Puts(w, s, h, 2, past, t, p + 1, s.ds[p + 2 + u]);
    past, t := Points(w, s, h, 3, past, t, p);
    Ended(w, s, h, 4, past, t, 0);
  }

  /** PICK, under signals. */
  method PickWord(m: Machine)
    requires m.Holds(1) && m.Contents()[0] + 1 < |m.Contents()|
    modifies m, m.stack, m.rstack
    ensures var c := old(m.Contents()); Leaves(m, [c[1 + c[0]]] + c[1..])
  {
    hide Ends;
    ghost var c := m.Contents();
    ghost var (s, h) := (Now(m), Height(m.sp, m.rp));
    StackIs(m);
    PickRuns(s, h);
    var e := Interrupted(m, Pick(m.sp), h, 4, [c[1 + c[0]]] + c[1..], 0);
  }

  /** ROLL ( xu ... x0 u -- xu-1 ... x0 xu ): xu takes the place of u, and u + 1 cells are moved from the deepest on. */
  function Roll(p: int): Word {
    (past: seq<Cell>) =>
      var k := |past|;
      if k == 0 then MoveSp(p + 1)
      else if k == 1 then Load(p + 1)
      else
        var u: int := past[1];
        if k == 2 then Load(p + 2 + u)
        else if k == 3 then Put(p + 1, past[2])
        else if k >= 6 + 2 * u then Done(0)
        else if k % 2 == 0 then Load(p + 1 + u - (k - 4) / 2)
        else Put(p + 2 + u - (k - 5) / 2, past[k - 1])
  }

  /** The cell below the top that the top tells. */
  predicate Tells(s: State, u: nat) {
    s.Valid() && s.sp + 2 + u < |s.ds| && u == s.ds[s.sp + 1]
  }

  /** The cells from place m on have been moved one place up, to place u. */
  ghost predicate Shifted(ds: seq<Cell>, es: seq<Cell>, m: int, u: int) {
    && |es| == |ds| && 0 <= m <= u < |ds|
    && (forall i | 0 <= i <= m || u < i < |ds| :: es[i] == ds[i])
    && (forall i | m < i <= u :: es[i] == ds[i - 1])
  }

  lemma RollRuns(s: State, h: Height, u: nat)
    requires Tells(s, u) && h == Height(s.sp + 1, s.rp)
    ensures var c := s.Stack()[1..]; Ends(Roll(s.sp), s, h, 6 + 2 * u, [c[u]] + c[..u] + c[u + 1..], 0)
  {
    hide At, Shifted, State.Stack;
    var (p, w) := (s.sp, Roll(s.sp));
    var past, t := RollFirst(s, h, u);
    var ds := t.ds;
    NoneShifted(ds, p + 2 + u);
    var j := 0;
    while j <= u
      invariant 0 <= j <= u + 1 && |past| == 4 + 2 * j && past[1] == u && At(w, s, h, 4 + 2 * j, past, t)
      invariant |t.ds| == |s.ds| && t == s.(sp := p + 1, ds := t.ds) && Shifted(ds, t.ds, p + 2 + u - j, p + 2 + u)
      decreases u - j
    {
      past, t := RollOne(s, h, u, j, past, t, ds);
      j := j + 1;
    }
    Ended(w, s, h, 6 + 2 * u, past, t, 0);
    Rolled(s, u, t);
  }

  lemma NoneShifted(ds: seq<Cell>, m: int)
    requires 0 <= m < |ds|
    ensures Shifted(ds, ds, m, m)
  {
  }

  lemma RollFirst(s: State, h: Height, u: nat) returns (past: seq<Cell>, t: State)
    requires Tells(s, u) && h == Height(s.sp + 1, s.rp)
    ensures |past| == 4 && past[1] == u && At(Roll(s.sp), s, h, 4, past, t)
    ensures t == s.(sp := s.sp + 1, ds := s.ds[s.sp + 1 := s.ds[s.sp + 2 + u]])
  {
    hide At;
    var (p, w) := (s.sp, Roll(s.sp));
    Start(w, s, h);
    past, t := Points(w, s, h, 0, [], s, p + 1);
    past := Loads(w, s, h, 1, past, t, p + 1);
    past := Loads(w, s, h, 2, past, t, p + 2 + u);
    past, t := Puts(w, s, h, 3, past, t, p + 1, s.ds[p + 2 + u]);
  }

  lemma RollOne(s: State, h: Height, u: nat, j: nat, past: seq<Cell>, t: State, ds: seq<Cell>)
    returns (more: seq<Cell>, v: State)
    requires Tells(s, u) && h == Height(s.sp + 1, s.rp) && j <= u && |past| == 4 + 2 * j && past[1] == u
    requires At(Roll(s.sp), s, h, 4 + 2 * j, past, t) && |t.ds| == |s.ds|
             && Shifted(ds, t.ds, s.sp + 2 + u - j, s.sp + 2 + u)
    ensures |more| == 6 + 2 * j && more[1] == u && At(Roll(s.sp), s, h, 6 + 2 * j, more, v)
    ensures v == t.(ds := v.ds) && |v.ds| == |s.ds| && Shifted(ds, v.ds, s.sp + 1 + u - j, s.sp + 2 + u)
  {
    hide At, Shifted;
    var w := Roll(s.sp);
    var i := s.sp + 1 + u - j;
    more := Loads(w, s, h, 4 + 2 * j, past, t, i);
    more, v := Puts(w, s, h, 5 + 2 * j, more, t, i + 1, t.ds[i]);
    ShiftedMore(ds, t.ds, i + 1, s.sp + 2 + u);
  }

  lemma ShiftedMore(ds: seq<Cell>, es: seq<Cell>, m: int, u: int)
    requires Shifted(ds, es, m, u) && m >= 1
    ensures Shifted(ds, es[m := es[m - 1]], m - 1, u)
  {
  }

  lemma Rolled(s: State, u: nat, t: State)
    requires Tells(s, u) && t.Valid() && t.sp == s.sp + 1
    requires Shifted(s.ds[s.sp + 1 := s.ds[s.sp + 2 + u]], t.ds, s.sp + 1, s.sp + 2 + u)
    ensures |s.Stack()| >= u + 2 && var c := s.Stack()[1..]; t.Stack() == [c[u]] + c[..u] + c[u + 1..]
  {
    var c := s.Stack()[1..];
    var r := [c[u]] + c[..u] + c[u + 1..];
    var ds := s.ds[s.sp + 1 := s.ds[s.sp + 2 + u]];
    forall i | 0 <= i < |r| ensures t.Stack()[i] == r[i] {
      assert t.Stack()[i] == t.ds[s.sp + 2 + i];
      if i <= u {
        assert t.ds[s.sp + 2 + i] == ds[s.sp + 1 + i];
        if i > 0 { assert r[i] == c[i - 1] == s.ds[s.sp + 1 + i]; }
      } else {
        assert t.ds[s.sp + 2 + i] == ds[s.sp + 2 + i];
      }
    }
  }

  /** ROLL, under signals. */
  method RollWord(m: Machine)
    requires m.Holds(1) && m.Contents()[0] + 1 < |m.Contents()|
    modifies m, m.stack, m.rstack
    ensures var (u, c) := (old(m.Contents()[0]), old(m.Contents()[1..])); Leaves(m, [c[u]] + c[..u] + c[u + 1..])
  {
    hide Ends;
    ghost var (u, c) := (m.Contents()[0], m.Contents()[1..]);
    ghost var (s, h) := (Now(m), Height(m.sp + 1, m.rp));
    StackIs(m);
    RollRuns(s, h, u);
    ghost var x: nat := u;
    var e := Interrupted(m, Roll(m.sp), h, 6 + 2 * x, [c[u]] + c[..u] + c[u + 1..], 0);
  }

  lemma StackIs(m: Machine)
    requires m.Valid()
    ensures Now(m).Valid() && Now(m).Stack() == m.Contents()
  {
  }
}
