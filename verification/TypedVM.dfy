/**
 * The type-checked virtual machine: beside each stack it keeps a stack of types,
 * one byte for a cell, and stops when @ or ! meets something that is not an
 * address, or RET and LOOP meet something else than a saved address. +LOOP tests
 * for that too, but does not stop properly.
 */
module TypedVM {
  import opened Cells
  import opened ByteCode
  import opened ByteVM

  const E_NOT_ADDR: int := 1
  const E_RET_STK_CORRUPT: int := 5

  /** The fast machine's data, and the type stacks. */
  datatype TData = TData(v: Data, ts: seq<Byte>, rts: seq<Byte>)

  datatype TEffect = TNext(d: TData) | TUndefined | TFail(code: int)

  datatype TStatus =
    | TRunning(ip: Cell, d: TData)
    | TReturned(d: TData)
    | TLost
    | TError(code: int)
    | TWild                       // the processor goes on inside the byte code

  /** The bitwise and by which + combines types. */
  function AndType(a: Byte, b: Byte): Byte {
    ((a as bv8) & (b as bv8)) as int
  }

  /** The top n cells are replaced by s, and the top m types by t. */
  function Put(d: TData, n: nat, s: seq<Cell>, m: nat, t: seq<Byte>): TEffect {
    if |d.v.ds| < n || |d.ts| < m then TUndefined
    else TNext(d.(v := d.v.(ds := s + d.v.ds[n..]), ts := t + d.ts[m..]))
  }

  /** @ and A@: the address must be typed as one; the value gets type t. */
  function TFetch(d: TData, t: Byte): TEffect {
    if |d.v.ds| < 1 || |d.ts| < 1 then TUndefined
    else if d.ts[0] != OP_ADDR then TFail(E_NOT_ADDR)
    else if !InMemory(d.v.mem, d.v.ds[0]) then TUndefined
    else Put(d, 1, [Fetch(d.v.mem, d.v.ds[0])], 1, [t])
  }

  function TStore(d: TData): TEffect {
    if |d.v.ds| < 2 || |d.ts| < 2 then TUndefined
    else if d.ts[0] != OP_ADDR then TFail(E_NOT_ADDR)
    else if !InMemory(d.v.mem, d.v.ds[0]) then TUndefined
    else TNext(d.(v := d.v.(ds := d.v.ds[2..], mem := Store(d.v.mem, d.v.ds[0], d.v.ds[1])), ts := d.ts[2..]))
  }

  /** The words of one operand a, of type t. */
  function TUnary(op: Byte, d: TData): TEffect
    requires |d.v.ds| >= 1 && |d.ts| >= 1
  {
    var a: int := d.v.ds[0];
    var t := d.ts[0];
    if op == OP_DROP then Put(d, 1, [], 1, [])
    else if op == OP_DUP then Put(d, 0, [a], 0, [t])
    else if op == OP_QUERYDUP then (if a == 0 then TNext(d) else Put(d, 0, [a], 0, [t]))
    else if op == OP_INC then Put(d, 1, [Wrap(a + 1)], 0, [])
    else if op == OP_DEC then Put(d, 1, [Wrap(a - 1)], 0, [])
    else if op == OP_NEG then Put(d, 1, [Wrap(-a)], 0, [])
    else if op == OP_NOT then Put(d, 1, [WORD - 1 - a], 0, [])
    else if op == OP_ZEROEQ then Put(d, 1, [Flag(a == 0)], 1, [OP_IVAL])
    else if op == OP_ZEROLT then Put(d, 1, [Flag(Signed(d.v.ds[0]) < 0)], 1, [OP_IVAL])
    else if op == OP_PUSH then
      TNext(TData(d.v.(ds := d.v.ds[1..], rs := [a] + d.v.rs), d.ts[1..], [t] + d.rts))
    else if op == OP_FETCH then TFetch(d, OP_IVAL)
    else if op == OP_AFETCH then TFetch(d, OP_ADDR)
    else TUndefined
  }

  /** The words of two operands, a of type t below b of type u. */
  function TBinary(op: Byte, d: TData): TEffect
    requires |d.v.ds| >= 2 && |d.ts| >= 2
  {
    var (b, a, u, t) := (d.v.ds[0], d.v.ds[1], d.ts[0], d.ts[1]);
    if op == OP_SWAP then Put(d, 2, [a, b], 2, [t, u])
    else if op == OP_OVER then Put(d, 0, [a], 0, [t])
    else if op == OP_NIP then Put(d, 2, [b], 2, [u])
    else if op == OP_TUCK then Put(d, 2, [b, a, b], 2, [u, t, u])
    else if op == OP_2DROP then Put(d, 2, [], 2, [])
    else if op == OP_2DUP then Put(d, 0, [b, a], 0, [u, t])
    else if op == OP_ADD then Put(d, 2, [Wrap((a as int) + b)], 2, [AndType(u, t)])
    else if op == OP_SUB then Put(d, 2, [Wrap((a as int) - b)], 1, [])
    else if op == OP_MUL then Put(d, 2, [Wrap((a as int) * b)], 1, [])
    else if op == OP_EQ then Put(d, 2, [Flag(a == b)], 2, [OP_IVAL])
    else if op == OP_LT then Put(d, 2, [Flag(Signed(a) < Signed(b))], 2, [OP_IVAL])
    else if op == OP_GT then Put(d, 2, [Flag(Signed(a) > Signed(b))], 2, [OP_IVAL])
    else if op == OP_ULT then Put(d, 2, [Flag(a < b)], 2, [OP_IVAL])
    else if op == OP_AND then Put(d, 2, [And(a, b)], 2, [OP_IVAL])
    else if op == OP_STORE then TStore(d)
    else TUndefined
  }

  /** A copy of the return stack's cell at position n, with its type. */
  function TCopy(d: TData, n: nat): TEffect {
    if |d.v.rs| <= n || |d.rts| <= n then TUndefined
    else Put(d, 0, [d.v.rs[n]], 0, [d.rts[n]])
  }

  function TNullary(op: Byte, d: TData): TEffect {
    if op == OP_FALSE then Put(d, 0, [0], 0, [OP_IVAL])
    else if op == OP_TRUE then Put(d, 0, [0xFFFF_FFFF], 0, [OP_IVAL])
    else if op == OP_POP then
      if |d.v.rs| < 1 || |d.rts| < 1 then TUndefined
      else TNext(TData(d.v.(ds := [d.v.rs[0]] + d.v.ds, rs := d.v.rs[1..]), [d.rts[0]] + d.ts, d.rts[1..]))
    else if op == OP_RFETCH then TCopy(d, 0)
    else if op == OP_I then TCopy(d, 2)
    else if op == OP_J then TCopy(d, 5)
    else if op == OP_UNLOOP then
      if |d.v.rs| < 3 || |d.rts| < 3 then TUndefined
      else TNext(d.(v := d.v.(rs := d.v.rs[3..]), rts := d.rts[3..]))
    else TUndefined
  }

  function TPerform(op: Byte, d: TData): TEffect {
    if IsNullary(op) then TNullary(op, d)
    else if IsUnary(op) then (if |d.v.ds| >= 1 && |d.ts| >= 1 then TUnary(op, d) else TUndefined)
    else if op == OP_ROT then
      if |d.v.ds| < 3 || |d.ts| < 3 then TUndefined
      else Put(d, 3, [d.v.ds[2], d.v.ds[0], d.v.ds[1]], 3, [d.ts[2], d.ts[0], d.ts[1]])
    else if |d.v.ds| >= 2 && |d.ts| >= 2 then TBinary(op, d)
    else TUndefined
  }

  // ----- control -----

  function TStepCell(op: Byte, n: Cell, at: Cell, d: TData): TStatus {
    var (ip: int, off: int) := (at, n);
    if op == OP_JMP then TRunning(Wrap(ip + off), d)
    else if op == OP_JZ then
      if d.v.ds == [] || d.ts == [] then TLost
      else TRunning(Wrap(if d.v.ds[0] == 0 then ip + off else ip + 5),
                    d.(v := d.v.(ds := d.v.ds[1..]), ts := d.ts[1..]))
    else if op == OP_IVAL || op == OP_ADDR then
      TRunning(Wrap(ip + 5), d.(v := d.v.(ds := [n] + d.v.ds), ts := [op] + d.ts))
    else if op == OP_DEFINITION then TRunning(n, PushAddress(d, Wrap(ip + 4)))
    else TLost
  }

  function PushAddress(d: TData, a: Cell): TData {
    d.(v := d.v.(rs := [a] + d.v.rs), rts := [OP_ADDR] + d.rts)
  }

  /** RET, after the test whether this run of the machine is over: the address must be typed as one. */
  function TReturn(d: TData): TStatus {
    if d.v.rs == [] || d.rts == [] then TLost
    else if d.rts[0] != OP_ADDR then TError(E_RET_STK_CORRUPT)
    else TRunning(AfterTop(d.v.rs), d.(v := d.v.(rs := d.v.rs[1..]), rts := d.rts[1..]))
  }

  /**
   * LOOP and +LOOP: the start of the loop must be typed as an address, whether or not the loop goes on.
   * +LOOP has the instruction pointer on the processor's stack when it finds that it is not, and leaves
   * it there for the return from the word.
   */
  function TLoop(plus: bool, next: Cell, d: TData): TStatus {
    if d.v.rs == [] || d.rts == [] then TLost
    else if d.rts[0] != OP_ADDR then (if plus then TWild else TError(E_RET_STK_CORRUPT))
    else if |d.v.rs| < 3 || |d.rts| < 3 || (plus && (d.v.ds == [] || d.ts == [])) then TLost
    else
      var (index: int, limit) := (d.v.rs[2], d.v.rs[1]);
      var step: int := if plus then d.v.ds[0] else 1;
      var e := if plus then d.(v := d.v.(ds := d.v.ds[1..]), ts := d.ts[1..]) else d;
      if (if plus then PlusLoopEnds(d.v.rs[2], limit, d.v.ds[0]) else LoopEnds(d.v.rs[2], limit)) then
        TRunning(next, e.(v := e.v.(rs := d.v.rs[3..]), rts := d.rts[3..]))
      else TRunning(AfterTop(d.v.rs), e.(v := e.v.(rs := d.v.rs[2 := Wrap(index + step)])))
  }

  function TStepFlow(op: Byte, entry: nat, at: Cell, d: TData): TStatus {
    var next := AfterTop([at]);
    if op == OP_PUSHIP then TRunning(next, PushAddress(d, at))
    else if op == OP_EXECUTE_BC then
      if d.v.ds == [] || d.ts == [] then TLost
      else TRunning(d.v.ds[0], PushAddress(d.(v := d.v.(ds := d.v.ds[1..]), ts := d.ts[1..]), at))
    else if op == OP_RET then
      if |d.v.rs| <= entry then TReturned(d) else TReturn(d)
    else TLoop(op == OP_PLUSLOOP, next, d)
  }

  function TStep(code: map<Cell, Byte>, entry: nat, ip: Cell, d: TData): TStatus {
    if ip !in code then TLost
    else
      var op := code[ip];
      if TakesCell(op) then
        if HasOperand(code, ip) then TStepCell(op, OperandAt(code, ip), ip, d) else TLost
      else if IsFlow(op) then TStepFlow(op, entry, ip, d)
      else
        match TPerform(op, d)
        case TNext(e) => TRunning(AfterTop([ip]), e)
        case TUndefined => TLost
        case TFail(c) => TError(c)
  }

  function TRun(code: map<Cell, Byte>, entry: nat, s: TStatus, n: nat): TStatus
    decreases n
  {
    if n == 0 || !s.TRunning? then s else TRun(code, entry, TStep(code, entry, s.ip, s.d), n - 1)
  }

  // ----- the invariant -----

  predicate IsType(t: Byte) {
    t == OP_ADDR || t == OP_IVAL
  }

  predicate AllTypes(s: seq<Byte>) {
    forall i | 0 <= i < |s| :: IsType(s[i])
  }

  /** Every cell has its type, and nothing else is a type. */
  predicate Typed(d: TData) {
    |d.ts| == |d.v.ds| && |d.rts| == |d.v.rs| && AllTypes(d.ts) && AllTypes(d.rts)
  }

  /** The sum is an address exactly when an operand is. */
  lemma SumType(a: Byte, b: Byte)
    requires IsType(a) && IsType(b)
    ensures IsType(AndType(a, b))
    ensures AndType(a, b) == OP_ADDR <==> a == OP_ADDR || b == OP_ADDR
  {
    assert (65 as bv8) & (73 as bv8) == 65 && (73 as bv8) & (65 as bv8) == 65;
    assert (65 as bv8) & (65 as bv8) == 65 && (73 as bv8) & (73 as bv8) == 73;
  }

  // ----- refinement -----

  /** A word of the typed machine fails, or does what it does on the fast machine and keeps the invariant. */
  predicate Agrees(t: TEffect, e: Effect) {
    match t
    case TNext(d) => e == Next(d.v) && Typed(d)
    case TUndefined => e == Undefined
    case TFail(_) => true
  }

  predicate Matches(t: TStatus, s: Status) {
    match t
    case TRunning(ip, d) => s == Running(ip, d.v) && Typed(d)
    case TReturned(d) => s == Returned(d.v) && Typed(d)
    case TLost => s == Lost
    case TError(_) => true
    case TWild => true
  }

  /** A type test has failed, with or without an error. */
  predicate TestFailed(t: TStatus) {
    t.TError? || t.TWild?
  }

  lemma NullaryAgrees(op: Byte, d: TData)
    requires Typed(d)
    ensures Agrees(TNullary(op, d), Nullary(op, d.v))
  {
  }

  lemma UnaryAgrees(op: Byte, d: TData)
    requires Typed(d) && |d.v.ds| >= 1
    ensures Agrees(TUnary(op, d), Unary(op, d.v))
  {
  }

  lemma CombineAgrees(op: Byte, d: TData)
    requires Typed(d) && |d.v.ds| >= 2 && IsCombine(op)
    ensures Agrees(TBinary(op, d), Binary(op, d.v))
  {
    hide AndType, And, Flag, Signed, Wrap;
    SumType(d.ts[0], d.ts[1]);
  }

  lemma BinaryAgrees(op: Byte, d: TData)
    requires Typed(d) && |d.v.ds| >= 2
    ensures Agrees(TBinary(op, d), Binary(op, d.v))
  {
    hide AndType, And, Flag, Signed, Wrap, Fetch, Store, Combine;
    if IsCombine(op) { CombineAgrees(op, d); }
  }

  lemma WordAgrees(op: Byte, d: TData)
    requires Typed(d)
    ensures Agrees(TPerform(op, d), Perform(op, d.v))
  {
    hide TNullary, TUnary, TBinary, Nullary, Unary, Binary, Agrees;
    if IsNullary(op) { NullaryAgrees(op, d); }
    else if IsUnary(op) {
      if |d.v.ds| >= 1 { UnaryAgrees(op, d); } else { NothingAgrees(); }
    }
    else if op == OP_ROT { RotAgrees(d); }
    else if |d.v.ds| >= 2 { BinaryAgrees(op, d); }
    else { NothingAgrees(); }
  }

  lemma NothingAgrees()
    ensures Agrees(TUndefined, Undefined)
  {
  }

  lemma RotAgrees(d: TData)
    requires Typed(d)
    ensures Agrees(TPerform(OP_ROT, d), Perform(OP_ROT, d.v))
  {
  }

  lemma CellAgrees(op: Byte, n: Cell, at: Cell, d: TData)
    requires Typed(d)
    ensures Matches(TStepCell(op, n, at, d), StepCell(op, n, at, d.v))
  {
  }

  lemma LoopAgrees(plus: bool, next: Cell, d: TData)
    requires Typed(d)
    ensures Matches(TLoop(plus, next, d),
                    match LoopBack(plus, d.v)
                    case Over(e) => Running(next, e)
                    case Around(e) => Running(AfterTop(d.v.rs), e)
                    case Stuck => Lost)
  {
    hide PlusLoopEnds, LoopEnds, AfterTop, Wrap;
  }

  lemma FlowAgrees(op: Byte, entry: nat, at: Cell, d: TData)
    requires Typed(d) && IsFlow(op)
    ensures Matches(TStepFlow(op, entry, at, d), StepFlow(op, entry, at, d.v))
  {
    hide TLoop, LoopBack, AfterTop;
    if op == OP_LOOP || op == OP_PLUSLOOP { LoopAgrees(op == OP_PLUSLOOP, AfterTop([at]), d); }
  }

  lemma StepAgrees(code: map<Cell, Byte>, entry: nat, ip: Cell, d: TData)
    requires Typed(d)
    ensures Matches(TStep(code, entry, ip, d), Step(code, entry, ip, d.v))
  {
    hide TPerform, Perform, TStepCell, StepCell, TStepFlow, StepFlow, OperandAt, AfterTop;
    if ip in code {
      var op := code[ip];
      if TakesCell(op) {
        if HasOperand(code, ip) { CellAgrees(op, OperandAt(code, ip), ip, d); }
      } else if IsFlow(op) {
        FlowAgrees(op, entry, ip, d);
      } else {
        WordAgrees(op, d);
      }
    }
  }

  /**
   * Every run of the typed machine fails a type test, or is the run of the fast machine:
   * same instruction pointer, stacks and memory, with a type for every cell.
   */
  lemma {:induction false} TypedRefinesFast(code: map<Cell, Byte>, entry: nat, t: TStatus, s: Status, n: nat)
    requires Matches(t, s)
    ensures Matches(TRun(code, entry, t, n), Run(code, entry, s, n))
    decreases n
  {
    hide TStep, Step;
    if n > 0 && t.TRunning? {
      StepAgrees(code, entry, t.ip, t.d);
      if TestFailed(TStep(code, entry, t.ip, t.d)) {
        FailedStays(code, entry, TStep(code, entry, t.ip, t.d), n - 1);
      } else {
        TypedRefinesFast(code, entry, TStep(code, entry, t.ip, t.d), Step(code, entry, s.ip, s.d), n - 1);
      }
    } else if TestFailed(t) {
      FailedStays(code, entry, t, n);
    } else if !t.TRunning? {
      RunStopped(code, entry, s, n);
    }
  }

  lemma FailedStays(code: map<Cell, Byte>, entry: nat, t: TStatus, n: nat)
    requires TestFailed(t)
    ensures TRun(code, entry, t, n) == t
  {
  }

  // ----- types -----

  /** A word fails exactly when it uses as an address a cell that is not typed as one. */
  lemma FailsExactly(op: Byte, d: TData)
    requires Typed(d) && !IsFlow(op) && !TakesCell(op)
    ensures TPerform(op, d).TFail? <==>
              || ((op == OP_FETCH || op == OP_AFETCH) && |d.ts| >= 1 && d.ts[0] != OP_ADDR)
              || (op == OP_STORE && |d.ts| >= 2 && d.ts[0] != OP_ADDR)
  {
    hide AndType, And, Flag, Signed, Wrap, Fetch, Store, Combine;
  }

  /**
   * RET and LOOP report an error exactly when the cell they may continue at is not typed as an address;
   * +LOOP never does.
   */
  lemma FlowFailsExactly(op: Byte, entry: nat, at: Cell, d: TData)
    requires Typed(d) && IsFlow(op)
    ensures TStepFlow(op, entry, at, d).TError? <==>
              || (op == OP_RET && |d.rts| > entry && d.rts[0] != OP_ADDR)
              || (op == OP_LOOP && d.rts != [] && d.rts[0] != OP_ADDR)
  {
    hide PlusLoopEnds, LoopEnds, AfterTop, Wrap;
  }

  /** Only +LOOP runs wild, and exactly when the start of its loop is not typed as an address. */
  lemma WildExactly(code: map<Cell, Byte>, entry: nat, ip: Cell, d: TData)
    requires Typed(d)
    ensures TStep(code, entry, ip, d).TWild? <==>
              ip in code && code[ip] == OP_PLUSLOOP && d.rts != [] && d.rts[0] != OP_ADDR
  {
    hide TPerform, PlusLoopEnds, LoopEnds, AfterTop, Wrap;
  }

  /** R> DROP 7 >R 1 +LOOP: after one instruction the machine runs wild, where the fast machine goes on in its loop. */
  lemma PlusLoopWild()
    ensures var code: map<Cell, Byte> := map[100 := OP_PLUSLOOP];
            var d := TData(Data([1], [7, 10, 0], map[]), [OP_IVAL], [OP_IVAL, OP_IVAL, OP_IVAL]);
            && Typed(d) && TStep(code, 0, 100, d) == TWild
            && Step(code, 0, 100, d.v) == Running(8, Data([], [7, 10, 1], map[]))
  {
    var d := TData(Data([1], [7, 10, 0], map[]), [OP_IVAL], [OP_IVAL, OP_IVAL, OP_IVAL]);
    assert d.v.rs[2 := 1] == [7, 10, 1];
  }

  /** The words that only move cells of the data stack. */
  predicate IsMove(op: Byte) {
    || op == OP_DROP || op == OP_DUP || op == OP_SWAP || op == OP_OVER || op == OP_ROT || op == OP_NIP || op == OP_TUCK
    || op == OP_2DROP || op == OP_2DUP
  }

  /** How they move whatever the stack holds. */
  function Moved<T>(op: Byte, s: seq<T>): seq<T>
    requires |s| >= 3
  {
    if op == OP_DROP then s[1..]
    else if op == OP_DUP then [s[0]] + s
    else if op == OP_SWAP then [s[1], s[0]] + s[2..]
    else if op == OP_OVER then [s[1]] + s
    else if op == OP_ROT then [s[2], s[0], s[1]] + s[3..]
    else if op == OP_NIP then [s[0]] + s[2..]
    else if op == OP_TUCK then [s[0], s[1], s[0]] + s[2..]
    else if op == OP_2DROP then s[2..]
    else [s[0], s[1]] + s
  }

  /** Types move with their cells. */
  lemma TypesMoveAlong(op: Byte, d: TData)
    requires Typed(d) && IsMove(op) && |d.ts| >= 3
    ensures var e := TPerform(op, d);
            e.TNext? && e.d.v.ds == Moved(op, d.v.ds) && e.d.ts == Moved(op, d.ts) && e.d.rts == d.rts
  {
  }

  /** The types of computed cells. */
  lemma ComputedTypes(op: Byte, d: TData)
    requires Typed(d) && |d.ts| >= 2 && IsCombine(op) && op != OP_NIP
    ensures var e := TPerform(op, d);
            && e.TNext? && e.d.ts[1..] == d.ts[2..]
            && (op == OP_ADD ==> (e.d.ts[0] == OP_ADDR <==> d.ts[0] == OP_ADDR || d.ts[1] == OP_ADDR))
            && (op == OP_SUB || op == OP_MUL ==> e.d.ts[0] == d.ts[1])
            && (op != OP_ADD && op != OP_SUB && op != OP_MUL ==> e.d.ts[0] == OP_IVAL)
  {
    hide AndType, And, Flag, Signed, Wrap;
    SumType(d.ts[0], d.ts[1]);
  }

  /** @ leaves an integer and A@ an address, whatever lies in memory; ! takes both types away. */
  lemma FetchedTypes(d: TData)
    requires Typed(d) && d.ts != [] && d.ts[0] == OP_ADDR && InMemory(d.v.mem, d.v.ds[0])
    ensures TPerform(OP_FETCH, d).TNext? && TPerform(OP_FETCH, d).d.ts == [OP_IVAL] + d.ts[1..]
    ensures TPerform(OP_AFETCH, d).TNext? && TPerform(OP_AFETCH, d).d.ts == [OP_ADDR] + d.ts[1..]
    ensures |d.ts| >= 2 ==> TPerform(OP_STORE, d).TNext? && TPerform(OP_STORE, d).d.ts == d.ts[2..]
  {
    hide Fetch, Store, InMemory;
  }

  /** Types go to the return stack and back with their cells; I, J and R@ copy them. */
  lemma SavedTypes(d: TData)
    requires Typed(d)
    ensures d.ts != [] ==>
              var e := TPerform(OP_PUSH, d); e.TNext? && e.d.ts == d.ts[1..] && e.d.rts == [d.ts[0]] + d.rts
    ensures d.rts != [] ==>
              var e := TPerform(OP_POP, d); e.TNext? && e.d.ts == [d.rts[0]] + d.ts && e.d.rts == d.rts[1..]
    ensures d.rts != [] ==> var e := TPerform(OP_RFETCH, d); e.TNext? && e.d.ts == [d.rts[0]] + d.ts && e.d.rts == d.rts
    ensures |d.rts| >= 3 ==> var e := TPerform(OP_I, d); e.TNext? && e.d.ts == [d.rts[2]] + d.ts && e.d.rts == d.rts
    ensures |d.rts| >= 6 ==> var e := TPerform(OP_J, d); e.TNext? && e.d.ts == [d.rts[5]] + d.ts && e.d.rts == d.rts
    ensures |d.rts| >= 3 ==> var e := TPerform(OP_UNLOOP, d); e.TNext? && e.d.ts == d.ts && e.d.rts == d.rts[3..]
  {
  }

  /**
   * Literals have the type of their opcode, and flags and constants are integers; the words of one
   * operand keep its type.
   */
  lemma LeftTypes(op: Byte, n: Cell, at: Cell, d: TData)
    requires Typed(d)
    ensures op == OP_IVAL || op == OP_ADDR ==>
              TStepCell(op, n, at, d).TRunning? && TStepCell(op, n, at, d).d.ts == [op] + d.ts
    ensures op == OP_TRUE || op == OP_FALSE ==> TPerform(op, d).TNext? && TPerform(op, d).d.ts == [OP_IVAL] + d.ts
    ensures d.ts != [] && (op == OP_ZEROEQ || op == OP_ZEROLT) ==>
              TPerform(op, d).TNext? && TPerform(op, d).d.ts == [OP_IVAL] + d.ts[1..]
    ensures d.ts != [] && (op == OP_INC || op == OP_DEC || op == OP_NEG || op == OP_NOT) ==>
              TPerform(op, d).TNext? && TPerform(op, d).d.ts == d.ts
    ensures d.ts != [] && op == OP_QUERYDUP ==>
              TPerform(op, d).TNext? && TPerform(op, d).d.ts == if d.v.ds[0] == 0 then d.ts else [d.ts[0]] + d.ts
  {
    hide Wrap, Flag, Signed;
  }

  /** What calls, DO and EXECUTE save is typed as an address. */
  lemma SavedAddresses(n: Cell, entry: nat, at: Cell, d: TData)
    requires Typed(d)
    ensures TStepCell(OP_DEFINITION, n, at, d).TRunning?
            && TStepCell(OP_DEFINITION, n, at, d).d.rts == [OP_ADDR] + d.rts
    ensures TStepFlow(OP_PUSHIP, entry, at, d).TRunning?
            && TStepFlow(OP_PUSHIP, entry, at, d).d.rts == [OP_ADDR] + d.rts
    ensures d.ts != [] ==>
              var t := TStepFlow(OP_EXECUTE_BC, entry, at, d);
              t.TRunning? && t.d.rts == [OP_ADDR] + d.rts && t.d.ts == d.ts[1..]
  {
    hide Wrap, AfterTop;
  }
}
