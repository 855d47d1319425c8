/**
 * Runs of any definition that `;` accepts, well nested or not: until it is left by a
 * return or a call, the machine only ever stands at the start of one of its instructions.
 */
module SafeRuns {
  import opened Cells
  import opened ByteCode
  import opened JumpIntegrity
  import opened ByteVM
  import opened Courses

  /** The machine has stopped, or stands at an instruction of the definition. */
  ghost predicate Inside(m: Image, s: Status) {
    s.Running? ==> exists q: nat :: InstructionAt(m, s.ip, q)
  }

  predicate InstructionAt(m: Image, ip: Cell, q: nat) {
    q < |m.bytes| && Boundary(m.bytes, q) && ip == m.base + q
  }

  /** The top of the return stack is a saved address, with an instruction of the definition behind it. */
  ghost predicate LoopSaved(m: Image, d: Data) {
    d.rs != [] ==> exists q: nat :: InstructionAt(m, AfterTop(d.rs), q)
  }

  /** What is executed does not return or call, and goes round only in loops of the definition. */
  ghost predicate Quiet(m: Image, s: Status)
    requires s.Running? && s.ip in m.code
  {
    var op := m.code[s.ip];
    && op != OP_RET && op != OP_EXECUTE_BC && op != OP_DEFINITION
    && (op == OP_LOOP || op == OP_PLUSLOOP ==> LoopSaved(m, s.d))
  }

  /** Behind an instruction other than RET there is another. */
  lemma NextInside(m: Image, p: nat, d: Data)
    requires m.Valid() && JumpsClosed(m.bytes) && p < |m.bytes| && Boundary(m.bytes, p) && m.bytes[p] != OP_RET
    ensures var q := p + Len(m.bytes[p]);
            q < |m.bytes| && Boundary(m.bytes, q) && InstructionAt(m, At(m, q, d).ip, q)
  {
    hide Parses, Len;
    var q := p + Len(m.bytes[p]);
    ParsesApart(m.bytes, 0, p, |m.bytes|);
    if p < |m.bytes| - 1 { ParsesApart(m.bytes, 0, p, |m.bytes| - 1); }
    OneInstruction(m.bytes, p);
    ParsesTrans(m.bytes, 0, p, q);
    OpcodeAt(m, q, d);
  }

  lemma OneInstruction(code: seq<Byte>, p: nat)
    requires p < |code|
    ensures Parses(code, p, p + Len(code[p]))
  {
    assert Parses(code, p + Len(code[p]), p + Len(code[p]));
  }

  /** Where a jump goes when it is taken. */
  lemma TargetInside(m: Image, p: nat, d: Data)
    requires m.Valid() && JumpsClosed(m.bytes) && StartsJump(m.bytes, p)
    ensures p + 5 <= |m.bytes|
    ensures var ip: int := At(m, p, d).ip; InstructionAt(m, Wrap(ip + Operand(m.bytes, p)), Target(m.bytes, p))
  {
    hide Parses, Operand;
    OpcodeAt(m, p, d);
  }

  lemma CellInside(m: Image, p: nat, d: Data, op: Byte)
    requires m.Valid() && JumpsClosed(m.bytes) && p < |m.bytes| && Boundary(m.bytes, p) && m.bytes[p] == op
    requires TakesCell(op) && op != OP_DEFINITION
    ensures p + 5 <= |m.bytes| && Inside(m, StepCell(op, Operand(m.bytes, p), At(m, p, d).ip, d))
  {
    hide Parses, Operand, Target, Boundary, JumpsClosed;
    NextInside(m, p, d);
    OpcodeAt(m, p, d);
    assert Len(op) == 5;
    AddressPlus(m, p, 5, d);
    if IsJump(op) { JumpHere(m, p, op); TargetInside(m, p, d); }
  }

  lemma JumpHere(m: Image, p: nat, op: Byte)
    requires p < |m.bytes| && Boundary(m.bytes, p) && m.bytes[p] == op && IsJump(op)
    ensures StartsJump(m.bytes, p)
  {
  }

  lemma FlowInside(m: Image, p: nat, d: Data, op: Byte)
    requires m.Valid() && JumpsClosed(m.bytes) && p < |m.bytes| && Boundary(m.bytes, p) && m.bytes[p] == op
    requires op == OP_PUSHIP || ((op == OP_LOOP || op == OP_PLUSLOOP) && LoopSaved(m, d))
    ensures Inside(m, StepFlow(op, m.entry, At(m, p, d).ip, d))
  {
    hide Parses, Boundary, JumpsClosed, AfterTop, PlusLoopEnds, LoopEnds;
    NextInside(m, p, d);
    AfterAt(m, p, d);
  }

  /** One instruction leads from an instruction of the definition to another. */
  lemma StepInside(m: Image, p: nat, d: Data)
    requires m.Valid() && JumpsClosed(m.bytes) && p < |m.bytes| && Boundary(m.bytes, p)
    requires var s := At(m, p, d); s.ip in m.code && Quiet(m, s)
    ensures Inside(m, Step(m.code, m.entry, At(m, p, d).ip, d))
  {
    hide Boundary, JumpsClosed, StepCell, StepFlow, Perform, Operand, OperandAt, AfterTop;
    OpcodeAt(m, p, d);
    var op := m.bytes[p];
    if TakesCell(op) {
      CellInside(m, p, d, op);
      CellOperandAt(m, p, d);
    } else if IsFlow(op) {
      FlowInside(m, p, d, op);
    } else {
      NextInside(m, p, d);
      AfterAt(m, p, d);
      WordLength(m, p, d, op);
    }
  }

  /** A word that does something has no operand. */
  lemma WordLength(m: Image, p: nat, d: Data, op: Byte)
    requires !TakesCell(op) && !IsFlow(op)
    ensures Perform(op, d).Next? ==> Len(op) == 1
  {
  }

  /** n instructions, each of them quiet. */
  ghost predicate QuietRun(m: Image, s: Status, n: nat)
    decreases n
  {
    n > 0 && s.Running? ==> s.ip in m.code && Quiet(m, s) && QuietRun(m, Step(m.code, m.entry, s.ip, s.d), n - 1)
  }

  /** Over a whole run the machine never stands within an instruction or outside the code. */
  lemma {:induction false} RunInside(m: Image, s: Status, n: nat)
    requires m.Valid() && JumpsClosed(m.bytes) && Inside(m, s) && QuietRun(m, s, n)
    ensures Inside(m, Run(m.code, m.entry, s, n))
    decreases n
  {
    hide JumpsClosed, Boundary, Step, Quiet;
    if n > 0 && s.Running? {
      var p: nat :| InstructionAt(m, s.ip, p);
      OpcodeAt(m, p, s.d);
      StepInside(m, p, s.d);
      RunInside(m, Step(m.code, m.entry, s.ip, s.d), n - 1);
    }
  }
}
