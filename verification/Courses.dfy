/**
 * Runs of the machine on the code of one definition: what single instructions do
 * there, and how runs are put together.
 */
module Courses {
  import opened Cells
  import opened ByteCode
  import opened Structured
  import opened ByteVM
  import opened Meaning

  /** The machine's code memory, with the bytes of one definition at base. */
  datatype Image = Image(code: map<Cell, Byte>, entry: nat, bytes: seq<Byte>, base: Cell) {
    ghost predicate Valid() {
      && base + |bytes| < WORD
      && forall i | 0 <= i < |bytes| :: base + i in code && code[base + i] == bytes[i]
    }
  }

  /** The machine about to execute the byte at offset p. */
  function At(m: Image, p: nat, d: Data): Status {
    var base: int := m.base;
    Running(Wrap(base + p), d)
  }

  /** n steps lead from a to b. */
  ghost predicate Goes(m: Image, n: nat, a: Status, b: Status) {
    Run(m.code, m.entry, a, n) == b
  }

  ghost predicate AtReturn(m: Image, a: Status, d: Data) {
    a.Running? && a.d == d && a.ip in m.code && m.code[a.ip] == OP_RET
  }

  /**
   * n steps from a do what o says: to offset p, or to offset exit for LEAVE, or to a RET, or to where
   * the machine is lost, or for at least fuel steps.
   */
  ghost predicate Follows(m: Image, n: nat, a: Status, o: Outcome, p: nat, exit: nat, fuel: nat) {
    match o
    case Norm(e) => Goes(m, n, a, At(m, p, e))
    case Left(e) => Goes(m, n, a, At(m, exit, e))
    case Exited(e) => AtReturn(m, Run(m.code, m.entry, a, n), e)
    case Wrong => Goes(m, n, a, Lost)
    case Strange => true
    case Timeout => n >= fuel && Run(m.code, m.entry, a, n).Running?
  }

  // ----- composition -----

  lemma GoesOn(m: Image, n1: nat, a: Status, b: Status, n2: nat, c: Status)
    requires Goes(m, n1, a, b) && Goes(m, n2, b, c)
    ensures Goes(m, n1 + n2, a, c)
  {
    RunMore(m.code, m.entry, a, n1, n2);
  }

  lemma FollowsAfter(m: Image, n1: nat, a: Status, b: Status, n2: nat, o: Outcome, p: nat, exit: nat, fuel1: nat,
                     fuel2: nat)
    requires Goes(m, n1, a, b) && Follows(m, n2, b, o, p, exit, fuel1) && fuel2 <= fuel1 + n1
    ensures Follows(m, n1 + n2, a, o, p, exit, fuel2)
  {
    RunMore(m.code, m.entry, a, n1, n2);
  }

  lemma Pass(m: Image, n: nat, a: Status, o: Outcome, p: nat, p2: nat, exit: nat, fuel: nat)
    requires Follows(m, n, a, o, p, exit, fuel) && !o.Norm?
    ensures Follows(m, n, a, o, p2, exit, fuel)
  {
  }

  // ----- single instructions -----

  lemma One(m: Image, a: Status)
    requires a.Running?
    ensures Goes(m, 1, a, Step(m.code, m.entry, a.ip, a.d))
  {
    assert Run(m.code, m.entry, Step(m.code, m.entry, a.ip, a.d), 0) == Step(m.code, m.entry, a.ip, a.d);
  }

  lemma OpcodeAt(m: Image, p: nat, d: Data)
    requires m.Valid() && p < |m.bytes|
    ensures At(m, p, d).ip in m.code && m.code[At(m, p, d).ip] == m.bytes[p]
    ensures At(m, p, d).ip == m.base + p
  {
  }

  lemma CellOperandAt(m: Image, p: nat, d: Data)
    requires m.Valid() && p + 5 <= |m.bytes|
    ensures HasOperand(m.code, At(m, p, d).ip) && OperandAt(m.code, At(m, p, d).ip) == Operand(m.bytes, p)
  {
    hide FromBytes;
    var ip := At(m, p, d).ip;
    OpcodeAt(m, p, d);
    OpcodeAt(m, p + 1, d);
    OpcodeAt(m, p + 2, d);
    OpcodeAt(m, p + 3, d);
    OpcodeAt(m, p + 4, d);
    assert [m.code[ip + 1], m.code[ip + 2], m.code[ip + 3], m.code[ip + 4]] == m.bytes[p + 1..p + 5];
  }

  lemma AddressPlus(m: Image, p: nat, j: nat, d: Data)
    requires m.Valid() && p + j <= |m.bytes|
    ensures Wrap((At(m, p, d).ip as int) + j) == At(m, p + j, d).ip == m.base + p + j
  {
  }

  lemma WordStep(m: Image, p: nat, op: Byte, d: Data, e: Data)
    requires m.Valid() && ByteAt(m.bytes, p, op) && !TakesCell(op) && !IsFlow(op) && Perform(op, d) == Next(e)
    ensures Goes(m, 1, At(m, p, d), At(m, p + 1, e))
  {
    hide Perform, Run;
    OpcodeAt(m, p, d);
    AddressPlus(m, p, 1, d);
    One(m, At(m, p, d));
  }

  lemma WordLost(m: Image, p: nat, op: Byte, d: Data)
    requires m.Valid() && ByteAt(m.bytes, p, op) && !TakesCell(op) && !IsFlow(op) && Perform(op, d) == Undefined
    ensures Goes(m, 1, At(m, p, d), Lost)
  {
    hide Perform, Run;
    OpcodeAt(m, p, d);
    One(m, At(m, p, d));
  }

  lemma CellStep(m: Image, p: nat, op: Byte, d: Data)
    requires m.Valid() && p + 5 <= |m.bytes| && m.bytes[p] == op && TakesCell(op)
    ensures Goes(m, 1, At(m, p, d), StepCell(op, Operand(m.bytes, p), At(m, p, d).ip, d))
  {
    hide StepCell, Operand, OperandAt, Run;
    OpcodeAt(m, p, d);
    CellOperandAt(m, p, d);
    One(m, At(m, p, d));
  }

  lemma JumpTarget(m: Image, p: nat, t: nat, d: Data, e: Data)
    requires m.Valid() && p < |m.bytes| && t <= |m.bytes|
    ensures Wrap((At(m, p, d).ip as int) + Wrap(t - p)) == At(m, t, e).ip
  {
    WrapDistance(m.base, p, t);
    AddressPlus(m, p, 0, d);
    AddressPlus(m, t, 0, e);
  }

  lemma JmpStep(m: Image, p: nat, t: nat, d: Data)
    requires m.Valid() && JumpAt(m.bytes, p, OP_JMP, t) && t <= |m.bytes|
    ensures Goes(m, 1, At(m, p, d), At(m, t, d))
  {
    hide Operand, Run, Wrap;
    CellStep(m, p, OP_JMP, d);
    JumpTarget(m, p, t, d, d);
  }

  lemma JzStep(m: Image, p: nat, t: nat, d: Data)
    requires m.Valid() && JumpAt(m.bytes, p, OP_JZ, t) && t <= |m.bytes| && d.ds != []
    ensures Goes(m, 1, At(m, p, d), At(m, if d.ds[0] == 0 then t else p + 5, Pop(d)))
  {
    hide Operand, Run, Wrap;
    CellStep(m, p, OP_JZ, d);
    JumpTarget(m, p, t, d, Pop(d));
    AddressPlus(m, p, 5, d);
  }

  lemma JzLost(m: Image, p: nat, t: nat, d: Data)
    requires m.Valid() && JumpAt(m.bytes, p, OP_JZ, t) && d.ds == []
    ensures Goes(m, 1, At(m, p, d), Lost)
  {
    hide Operand, Run, Wrap;
    CellStep(m, p, OP_JZ, d);
  }

  lemma LitStep(m: Image, p: nat, op: Byte, n: Cell, d: Data)
    requires m.Valid() && CellAt(m.bytes, p, op, n) && (op == OP_IVAL || op == OP_ADDR)
    ensures Goes(m, 1, At(m, p, d), At(m, p + 5, d.(ds := [n] + d.ds)))
  {
    hide Operand, Run, Wrap;
    CellStep(m, p, op, d);
    AddressPlus(m, p, 5, d);
  }

  lemma CallStep(m: Image, p: nat, n: Cell, d: Data)
    requires m.Valid() && CellAt(m.bytes, p, OP_DEFINITION, n)
    ensures Goes(m, 1, At(m, p, d), Running(n, PushReturn(d, At(m, p + 4, d).ip)))
  {
    hide Operand, Run, Wrap;
    CellStep(m, p, OP_DEFINITION, d);
    AddressPlus(m, p, 4, d);
  }

  lemma FlowStep(m: Image, p: nat, op: Byte, d: Data)
    requires m.Valid() && ByteAt(m.bytes, p, op) && IsFlow(op)
    ensures Goes(m, 1, At(m, p, d), StepFlow(op, m.entry, At(m, p, d).ip, d))
  {
    hide StepFlow, Run;
    OpcodeAt(m, p, d);
    One(m, At(m, p, d));
  }

  lemma PushIpStep(m: Image, p: nat, d: Data)
    requires m.Valid() && ByteAt(m.bytes, p, OP_PUSHIP)
    ensures Goes(m, 1, At(m, p, d), At(m, p + 1, PushReturn(d, At(m, p, d).ip)))
  {
    hide Run, Wrap;
    FlowStep(m, p, OP_PUSHIP, d);
    AddressPlus(m, p, 1, d);
  }

  lemma ExecuteStep(m: Image, p: nat, d: Data)
    requires m.Valid() && ByteAt(m.bytes, p, OP_EXECUTE_BC) && d.ds != []
    ensures Goes(m, 1, At(m, p, d), Running(d.ds[0], PushReturn(Pop(d), At(m, p, d).ip)))
  {
    hide Run, Wrap;
    FlowStep(m, p, OP_EXECUTE_BC, d);
  }

  lemma LoopStep(m: Image, p: nat, plus: bool, d: Data)
    requires m.Valid() && ByteAt(m.bytes, p, LoopOp(plus))
    ensures match LoopBack(plus, d)
            case Over(e) => Goes(m, 1, At(m, p, d), At(m, p + 1, e))
            case Around(e) => Goes(m, 1, At(m, p, d), Running(AfterTop(d.rs), e))
            case Stuck => Goes(m, 1, At(m, p, d), Lost)
  {
    hide Run, Wrap, LoopBack, AfterTop;
    FlowStep(m, p, LoopOp(plus), d);
    AddressPlus(m, p, 1, d);
    AfterAt(m, p, d);
  }

  lemma AfterAt(m: Image, p: nat, d: Data)
    requires m.Valid() && p < |m.bytes|
    ensures AfterTop([At(m, p, d).ip]) == At(m, p + 1, d).ip
  {
    AddressPlus(m, p, 1, d);
  }

  /** RET with a return address left on the return stack. */
  lemma RetStep(m: Image, a: Status, e: Data)
    requires AtReturn(m, a, e) && |e.rs| > m.entry
    ensures Goes(m, 1, a, Running(AfterTop(e.rs), e.(rs := e.rs[1..])))
  {
    hide Run, AfterTop;
    One(m, a);
  }

  lemma LastRetStep(m: Image, a: Status, e: Data)
    requires AtReturn(m, a, e) && |e.rs| <= m.entry
    ensures Goes(m, 1, a, Returned(e))
  {
    hide Run;
    One(m, a);
  }
}
