/** The type-checked machine as it runs, its four stacks in arrays, against the step function of TypedVM. */
module TypedMachine {
  import opened Cells
  import opened ByteCode
  import opened ByteVM
  import opened TypedVM
  import opened CellStacks

  datatype Outcome = Done | Nothing | Failed(code: int)

  /** How an instruction ends the run, if it does. */
  datatype End = Going | Left | Astray | Error(code: int) | Wild

  class CheckedVM {
    const code: map<Cell, Byte>
    const entry: nat
    const ds: Stack<Cell>
    const rs: Stack<Cell>
    const ts: Stack<Byte>
    const rts: Stack<Byte>
    var ip: Cell
    var mem: map<Cell, Byte>

    ghost predicate Valid()
      reads ds, rs, ts, rts
    {
      && ds != rs && ts != rts && ds.cells != rs.cells && ts.cells != rts.cells
      && ds as object != ts && ds as object != rts && rs as object != ts && rs as object != rts
      && ds.cells as object != ts.cells && ds.cells as object != rts.cells
      && rs.cells as object != ts.cells && rs.cells as object != rts.cells
      && ds.Valid() && rs.Valid() && ts.Valid() && rts.Valid()
    }

    /** No stack is full: no word pushes more than two cells, or saves more than one. */
    predicate Room()
      reads ds, rs, ts, rts
    {
      ds.sp >= 1 && ts.sp >= 1 && rs.sp >= 0 && rts.sp >= 0
    }

    constructor (code: map<Cell, Byte>, start: Cell, d: TData, size: nat)
      requires |d.v.ds| <= size && |d.v.rs| <= size && |d.ts| <= size && |d.rts| <= size
      ensures Valid() && this.code == code && ip == start && Now() == d && entry == |d.v.rs|
      ensures ds.cells.Length == rs.cells.Length == ts.cells.Length == rts.cells.Length == size
    {
      this.code, entry := code, |d.v.rs|;
      ds := new Stack<Cell>(size, d.v.ds, 0);
      rs := new Stack<Cell>(size, d.v.rs, 0);
      ts := new Stack<Byte>(size, d.ts, 0);
      rts := new Stack<Byte>(size, d.rts, 0);
      ip, mem := start, d.v.mem;
    }

    ghost function Now(): TData
      reads this, ds, ds.cells, rs, rs.cells, ts, ts.cells, rts, rts.cells
      requires Valid()
    {
      TData(Data(ds.Contents(), rs.Contents(), mem), ts.Contents(), rts.Contents())
    }

    /** A word has had effect e; a word that fails or has none has changed nothing. */
    twostate predicate Had(e: TEffect, o: Outcome)
      reads this, ds, ds.cells, rs, rs.cells, ts, ts.cells, rts, rts.cells
      requires old(Valid())
    {
      && Valid() && ip == old(ip)
      && match e
         case TNext(d) => o == Done && Now() == d
         case TUndefined => o == Nothing && Now() == old(Now())
         case TFail(c) => o == Failed(c) && Now() == old(Now())
    }

    // ----- words -----

    method PushTyped(v: Cell, t: Byte)
      requires Valid() && ds.sp >= 0 && ts.sp >= 0
      modifies ds, ds.cells, ts, ts.cells
      ensures Valid() && Now() == old(Now()).(v := old(Now()).v.(ds := [v] + old(Now()).v.ds),
                                              ts := [t] + old(Now()).ts)
      ensures ds.sp == old(ds.sp) - 1 && ts.sp == old(ts.sp) - 1
    {
      hide Stack.Contents;
      ds.Push(v);
      ts.Push(t);
    }

    method DropTyped()
      requires Valid() && |ds.Contents()| >= 1 && |ts.Contents()| >= 1
      modifies ds`sp, ts`sp
      ensures Valid() && Now() == old(Now()).(v := old(Now()).v.(ds := old(Now()).v.ds[1..]), ts := old(Now()).ts[1..])
    {
      hide Stack.Contents;
      ds.Drop(1);
      ts.Drop(1);
    }

    method SaveAddress(a: Cell)
      requires Valid() && rs.sp >= 0 && rts.sp >= 0
      modifies rs, rs.cells, rts, rts.cells
      ensures Valid() && Now() == PushAddress(old(Now()), a)
    {
      hide Stack.Contents;
      rs.Push(a);
      rts.Push(OP_ADDR);
    }

    method DropSaved()
      requires Valid() && |rs.Contents()| >= 1 && |rts.Contents()| >= 1
      modifies rs`sp, rts`sp
      ensures Valid() && Now() == old(Now()).(v := old(Now()).v.(rs := old(Now()).v.rs[1..]),
                                              rts := old(Now()).rts[1..])
    {
      hide Stack.Contents;
      rs.Drop(1);
      rts.Drop(1);
    }

    method Unloop()
      requires Valid() && |rs.Contents()| >= 3 && |rts.Contents()| >= 3
      modifies rs`sp, rts`sp
      ensures Valid() && Now() == old(Now()).(v := old(Now()).v.(rs := old(Now()).v.rs[3..]),
                                              rts := old(Now()).rts[3..])
    {
      hide Stack.Contents;
      rs.Drop(3);
      rts.Drop(3);
    }

    /** A copy of the cell at position n of the return stack, and of its type. */
    method CopySaved(n: nat) returns (o: Outcome)
      requires Valid() && Room()
      modifies ds, ds.cells, ts, ts.cells
      ensures Had(TCopy(old(Now()), n), o)
    {
      hide Stack.Contents;
      if rs.Depth() <= n || rts.Depth() <= n { return Nothing; }
      PushTyped(rs.Get(n), rts.Get(n));
      o := Done;
    }

    method Nullary(op: Byte) returns (o: Outcome)
      requires Valid() && Room()
      modifies this, ds, ds.cells, rs, rs.cells, ts, ts.cells, rts, rts.cells
      ensures Had(TNullary(op, old(Now())), o)
    {
      hide Stack.Contents;
      o := Done;
      if op == OP_FALSE { PushTyped(0, OP_IVAL); }
      else if op == OP_TRUE { PushTyped(0xFFFF_FFFF, OP_IVAL); }
      else if op == OP_POP {
        o := CopySaved(0);
        if o == Done { DropSaved(); }
      }
      else if op == OP_RFETCH { o := CopySaved(0); }
      else if op == OP_I { o := CopySaved(2); }
      else if op == OP_J { o := CopySaved(5); }
      else if op == OP_UNLOOP && rs.Depth() >= 3 && rts.Depth() >= 3 { Unloop(); }
      else { o := Nothing; }
    }

    /** @ and A@: first the type is tested and overwritten, then the cell. */
    method FetchTyped(t: Byte) returns (o: Outcome)
      requires Valid() && |ds.Contents()| >= 1 && |ts.Contents()| >= 1
      modifies ds.cells, ts.cells
      ensures Had(TFetch(old(Now()), t), o)
    {
      hide Fetch, InMemory, Stack.Contents;
      var a := ds.Get(0);
      if ts.Get(0) != OP_ADDR { return Failed(E_NOT_ADDR); }
      if !InMemory(mem, a) { return Nothing; }
      ts.Set(0, t);
      ds.Set(0, Fetch(mem, a));
      o := Done;
    }

    /** The words that compute one cell from the top one and keep its type. */
    method Compute(op: Byte)
      requires Valid() && |ds.Contents()| >= 1 && |ts.Contents()| >= 1
      requires op == OP_INC || op == OP_DEC || op == OP_NEG || op == OP_NOT
      modifies ds.cells
      ensures Had(TUnary(op, old(Now())), Done)
    {
      hide Flag, Signed, Wrap, Stack.Contents;
      var a: int := ds.Get(0);
      if op == OP_INC { ds.Set(0, Wrap(a + 1)); }
      else if op == OP_DEC { ds.Set(0, Wrap(a - 1)); }
      else if op == OP_NEG { ds.Set(0, Wrap(-a)); }
      else { ds.Set(0, WORD - 1 - a); }
    }

    /** 0= and 0< */
    method Compare(op: Byte)
      requires Valid() && |ds.Contents()| >= 1 && |ts.Contents()| >= 1
      requires op == OP_ZEROEQ || op == OP_ZEROLT
      modifies ds.cells, ts.cells
      ensures Had(TUnary(op, old(Now())), Done)
    {
      hide Flag, Signed, Wrap, Stack.Contents;
      var a: int := ds.Get(0);
      ds.Set(0, if op == OP_ZEROEQ then Flag(a == 0) else Flag(Signed(a) < 0));
      ts.Set(0, OP_IVAL);
    }

    method Unary(op: Byte) returns (o: Outcome)
      requires Valid() && Room() && |ds.Contents()| >= 1 && |ts.Contents()| >= 1
      modifies this, ds, ds.cells, rs, rs.cells, ts, ts.cells, rts, rts.cells
      ensures Had(TUnary(op, old(Now())), o)
    {
      hide TFetch, Flag, Signed, Wrap, Stack.Contents;
      var (a, t) := (ds.Get(0), ts.Get(0));
      o := Done;
      if op == OP_DROP { DropTyped(); }
      else if op == OP_DUP { PushTyped(a, t); }
      else if op == OP_QUERYDUP { if a != 0 { PushTyped(a, t); } }
      else if op == OP_INC || op == OP_DEC || op == OP_NEG || op == OP_NOT { Compute(op); }
      else if op == OP_ZEROEQ || op == OP_ZEROLT { Compare(op); }
      else if op == OP_PUSH {
        DropTyped();
        rs.Push(a);
        rts.Push(t);
      }
      else if op == OP_FETCH { o := FetchTyped(OP_IVAL); }
      else if op == OP_AFETCH { o := FetchTyped(OP_ADDR); }
      else { o := Nothing; }
    }

    /** The words that compute one cell from two: + combines the types, - and * leave the lower one. */
    method CombineTwo(op: Byte)
      requires Valid() && |ds.Contents()| >= 2 && |ts.Contents()| >= 2 && IsCombine(op) && op != OP_NIP
      modifies ds, ds.cells, ts, ts.cells
      ensures Had(TBinary(op, old(Now())), Done)
    {
      hide And, AndType, Flag, Signed, Wrap, Stack.Contents;
      var (b, a) := (ds.Get(0), ds.Get(1));
      var (u, t) := (ts.Get(0), ts.Get(1));
      ds.Combine(Combine(op, a, b));
      if op == OP_ADD { ts.Combine(AndType(u, t)); }
      else if op == OP_SUB || op == OP_MUL { ts.Drop(1); }
      else { ts.Combine(OP_IVAL); }
    }

    method StoreTyped() returns (o: Outcome)
      requires Valid() && |ds.Contents()| >= 2 && |ts.Contents()| >= 2
      modifies this, ds, ts
      ensures Had(TStore(old(Now())), o)
    {
      hide Store, InMemory, Stack.Contents;
      var (a, v) := (ds.Get(0), ds.Get(1));
      if ts.Get(0) != OP_ADDR { return Failed(E_NOT_ADDR); }
      if !InMemory(mem, a) { return Nothing; }
      ds.Drop(2);
      ts.Drop(2);
      mem := Store(mem, a, v);
      o := Done;
    }

    /** The words that move the cells and types of both stacks alike. */
    method MoveTwo(op: Byte)
      requires Valid() && Room() && |ds.Contents()| >= 2 && |ts.Contents()| >= 2
      requires op == OP_SWAP || op == OP_OVER || op == OP_NIP || op == OP_TUCK
      modifies ds, ds.cells, ts, ts.cells
      ensures Had(TBinary(op, old(Now())), Done)
    {
      hide TStore, And, AndType, Flag, Signed, Wrap, Stack.Contents;
      if op == OP_SWAP {
        ds.Swap();
        ts.Swap();
      } else if op == OP_OVER {
        ds.Over();
        ts.Over();
      } else if op == OP_NIP {
        ds.Nip();
        ts.Nip();
      } else {
        ds.Tuck();
        ts.Tuck();
      }
    }

    method TwoDup()
      requires Valid() && Room() && |ds.Contents()| >= 2 && |ts.Contents()| >= 2
      modifies ds, ds.cells, ts, ts.cells
      ensures Had(TBinary(OP_2DUP, old(Now())), Done)
    {
      hide Stack.Contents;
      ds.TwoDup();
      ts.TwoDup();
    }

    method TwoDrop()
      requires Valid() && |ds.Contents()| >= 2 && |ts.Contents()| >= 2
      modifies ds`sp, ts`sp
      ensures Had(TBinary(OP_2DROP, old(Now())), Done)
    {
      hide Stack.Contents;
      ds.Drop(2);
      ts.Drop(2);
    }

    method Binary(op: Byte) returns (o: Outcome)
      requires Valid() && Room() && |ds.Contents()| >= 2 && |ts.Contents()| >= 2
      modifies this, ds, ds.cells, ts, ts.cells
      ensures Had(TBinary(op, old(Now())), o)
    {
      hide TStore, And, AndType, Flag, Signed, Wrap, Stack.Contents;
      o := Done;
      if op == OP_SWAP || op == OP_OVER || op == OP_NIP || op == OP_TUCK { MoveTwo(op); }
      else if op == OP_2DUP { TwoDup(); }
      else if op == OP_2DROP { TwoDrop(); }
      else if IsCombine(op) { CombineTwo(op); }
      else if op == OP_STORE { o := StoreTyped(); }
      else { o := Nothing; }
    }

    method Word(op: Byte) returns (o: Outcome)
      requires Valid() && Room()
      modifies this, ds, ds.cells, rs, rs.cells, ts, ts.cells, rts, rts.cells
      ensures Had(TPerform(op, old(Now())), o)
    {
      hide TNullary, TUnary, TBinary, Stack.Contents;
      o := Nothing;
      if IsNullary(op) { o := Nullary(op); }
      else if IsUnary(op) { if ds.Depth() >= 1 && ts.Depth() >= 1 { o := Unary(op); } }
      else if op == OP_ROT {
        if ds.Depth() >= 3 && ts.Depth() >= 3 {
          ds.Rot();
          ts.Rot();
          o := Done;
        }
      }
      else if ds.Depth() >= 2 && ts.Depth() >= 2 { o := Binary(op); }
    }

    // ----- control -----

    /** The machine goes on in status s, or the run has ended so. */
    ghost predicate Is(s: TStatus, e: End)
      reads this, ds, ds.cells, rs, rs.cells, ts, ts.cells, rts, rts.cells
    {
      && Valid()
      && match s
         case TRunning(at, d) => e == Going && ip == at && Now() == d
         case TReturned(d) => e == Left && Now() == d
         case TLost => e == Astray
         case TError(c) => e == Error(c)
         case TWild => e == Wild
    }

    method CellInstruction(op: Byte, n: Cell) returns (e: End)
      requires Valid() && Room()
      modifies this, ds, ds.cells, rs, rs.cells, ts, ts.cells, rts, rts.cells
      ensures Is(TStepCell(op, n, old(ip), old(Now())), e)
    {
      hide Stack.Contents, Wrap;
      var (at: int, off: int) := (ip, n);
      e := Going;
      if op == OP_JMP { ip := Wrap(at + off); }
      else if op == OP_JZ {
        if ds.Depth() == 0 || ts.Depth() == 0 { return Astray; }
        ip := Wrap(if ds.Get(0) == 0 then at + off else at + 5);
        DropTyped();
      }
      else if op == OP_IVAL || op == OP_ADDR {
        ip := Wrap(at + 5);
        PushTyped(n, op);
      }
      else if op == OP_DEFINITION {
        SaveAddress(Wrap(at + 4));
        ip := n;
      }
      else { e := Astray; }
    }

    /** LOOP and +LOOP: the type of the loop's start is tested before anything else is done. */
    method Loop(plus: bool) returns (e: End)
      requires Valid() && Room()
      modifies this, ds, ds.cells, rs, rs.cells, ts, ts.cells, rts, rts.cells
      ensures Is(TLoop(plus, AfterTop([old(ip)]), old(Now())), e)
    {
      hide PlusLoopEnds, LoopEnds, AfterTop, Wrap, Stack.Contents;
      if rs.Depth() == 0 || rts.Depth() == 0 { return Astray; }
      if rts.Get(0) != OP_ADDR { return if plus then Wild else Error(E_RET_STK_CORRUPT); }
      if rs.Depth() < 3 || rts.Depth() < 3 || (plus && (ds.Depth() == 0 || ts.Depth() == 0)) { return Astray; }
      e := LoopTyped(plus);
    }

    method LoopTyped(plus: bool) returns (e: End)
      requires Valid() && |Now().v.rs| >= 3 && |Now().rts| >= 3 && (plus ==> Now().v.ds != [] && Now().ts != [])
      requires Now().rts[0] == OP_ADDR
      modifies this, ds, ds.cells, rs, rs.cells, ts, ts.cells, rts, rts.cells
      ensures Is(TLoop(plus, AfterTop([old(ip)]), old(Now())), e)
    {
      hide PlusLoopEnds, LoopEnds, AfterTop, Wrap, Stack.Contents;
      var (index, limit, start) := (rs.Get(2), rs.Get(1), AfterTop([rs.Get(0)]));
      AfterFirst(rs.Contents());
      var step: int := 1;
      var ends := LoopEnds(index, limit);
      if plus {
        step, ends := ds.Get(0), PlusLoopEnds(index, limit, ds.Get(0));
        DropTyped();
      }
      if ends {
        Unloop();
        ip := AfterTop([ip]);
      } else {
        rs.Set(2, Wrap((index as int) + step));
        ip := start;
      }
      e := Going;
    }

    method FlowInstruction(op: Byte) returns (e: End)
      requires Valid() && Room() && IsFlow(op)
      modifies this, ds, ds.cells, rs, rs.cells, ts, ts.cells, rts, rts.cells
      ensures Is(TStepFlow(op, entry, old(ip), old(Now())), e)
    {
      hide TLoop, AfterTop, Stack.Contents;
      e := Going;
      if op == OP_PUSHIP {
        SaveAddress(ip);
        ip := AfterTop([ip]);
      }
      else if op == OP_EXECUTE_BC {
        if ds.Depth() == 0 || ts.Depth() == 0 { return Astray; }
        SaveAddress(ip);
        ip := ds.Get(0);
        DropTyped();
      }
      else if op == OP_RET { e := Return(); }
      else { e := Loop(op == OP_PLUSLOOP); }
    }

    method Return() returns (e: End)
      requires Valid()
      modifies this, rs, rts
      ensures Is(TStepFlow(OP_RET, entry, old(ip), old(Now())), e)
    {
      hide AfterTop, Stack.Contents;
      if rs.Depth() <= entry { return Left; }
      if rs.Depth() == 0 || rts.Depth() == 0 { return Astray; }
      if rts.Get(0) != OP_ADDR { return Error(E_RET_STK_CORRUPT); }
      AfterFirst(rs.Contents());
      ip := AfterTop([rs.Get(0)]);
      DropSaved();
      e := Going;
    }

    method Instruction() returns (e: End)
      requires Valid() && Room()
      modifies this, ds, ds.cells, rs, rs.cells, ts, ts.cells, rts, rts.cells
      ensures Is(TStep(code, entry, old(ip), old(Now())), e)
    {
      hide TStepCell, TStepFlow, TPerform, OperandAt, AfterTop, Stack.Contents;
      if ip !in code { return Astray; }
      var op := code[ip];
      if TakesCell(op) {
        if !HasOperand(code, ip) { return Astray; }
        e := CellInstruction(op, OperandAt(code, ip));
      } else if IsFlow(op) {
        e := FlowInstruction(op);
      } else {
        var o := Word(op);
        match o
        case Nothing => return Astray;
        case Failed(c) => return Error(c);
        case Done =>
          ip := AfterTop([ip]);
          e := Going;
      }
    }

    /**
     * Runs until it returns, is lost or fails, or has executed n instructions, or a stack has no
     * room left for the next one: unless it fails a type test, the fast machine's run is the same,
     * and every cell has its type.
     */
    method Execute(n: nat) returns (e: End, k: nat)
      requires Valid()
      modifies this, ds, ds.cells, rs, rs.cells, ts, ts.cells, rts, rts.cells
      ensures k <= n && Is(TRun(code, entry, TRunning(old(ip), old(Now())), k), e)
      ensures k < n && e == Going ==>
                || |Now().v.ds| >= ds.cells.Length - 1 || |Now().v.rs| == rs.cells.Length
                || |Now().ts| >= ts.cells.Length - 1 || |Now().rts| == rts.cells.Length
      ensures Typed(old(Now())) ==>
                Matches(TRun(code, entry, TRunning(old(ip), old(Now())), k),
                        Run(code, entry, Running(old(ip), old(Now()).v), k))
    {
      hide TStep, Run, Stack.Contents, Typed, Matches, Is;
      ghost var start := TRunning(ip, Now());
      e, k := Going, 0;
      StartsSo();
      while k < n && e == Going && Room()
        invariant k <= n && Is(TRun(code, entry, start, k), e)
      {
        OnRunning(TRun(code, entry, start, k), e);
        TRunOne(code, entry, start, k);
        e := Instruction();
        k := k + 1;
      }
      OnRunning(TRun(code, entry, start, k), e);
      if Typed(start.d) {
        StartMatches(start);
        TypedRefinesFast(code, entry, start, Running(start.ip, start.d.v), k);
      }
    }

    lemma StartsSo()
      requires Valid()
      ensures Is(TRunning(ip, Now()), Going)
    {
    }

    lemma OnRunning(s: TStatus, e: End)
      requires Is(s, e)
      ensures Valid() && (e == Going ==> s == TRunning(ip, Now()))
    {
    }
  }

  lemma AfterFirst(rs: seq<Cell>)
    requires rs != []
    ensures AfterTop([rs[0]]) == AfterTop(rs)
  {
  }

  lemma StartMatches(s: TStatus)
    requires s.TRunning? && Typed(s.d)
    ensures Matches(s, Running(s.ip, s.d.v))
  {
  }

  /** One instruction more of a run that goes on. */
  lemma {:induction false} TRunOne(code: map<Cell, Byte>, entry: nat, s: TStatus, k: nat)
    ensures var t := TRun(code, entry, s, k);
            t.TRunning? ==> TRun(code, entry, s, k + 1) == TStep(code, entry, t.ip, t.d)
    decreases k
  {
    hide TStep;
    if s.TRunning? {
      if k > 0 {
        TRunOne(code, entry, TStep(code, entry, s.ip, s.d), k - 1);
      } else {
        assert TRun(code, entry, TStep(code, entry, s.ip, s.d), 0) == TStep(code, entry, s.ip, s.d);
      }
    }
  }
}
