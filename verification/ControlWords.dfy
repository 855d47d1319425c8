/**
 * The control-structure words of the compiler. They append bytes to the opcode
 * vector and patch relative jump counts later, keeping the offsets of the
 * unresolved operands on separate stacks.
 */
module ControlWords {
  import opened Cells
  import opened ByteCode

  const E_V_NO_DO := 12
  const E_V_NO_BEGIN := 13
  const E_V_ELSE_NO_IF := 14
  const E_V_THEN_NO_IF := 15
  const E_V_ENDOF_NO_OF := 16
  const E_V_NO_CASE := 17
  const E_C_ENDOFDEF := 0x102
  const E_C_INCOMPLETEIF := 0x106
  const E_C_INCOMPLETEBEGIN := 0x107
  const E_C_NODO := 0x109
  const E_C_INCOMPLETELOOP := 0x10A
  const E_C_INCOMPLETECASE := 0x10B

  /** An offset, or the -1 that CASE pushes. */
  type Mark = x: int | -1 <= x

  /** The opcode vector and the control-flow stacks; the last element is the top. */
  datatype Comp = Comp(
    ops: seq<Byte>,
    ifs: seq<nat>, begins: seq<nat>, whiles: seq<nat>,
    dos: seq<nat>, qdos: seq<nat>, leaves: seq<nat>,
    recs: seq<nat>, cases: seq<Mark>, ofs: seq<nat>)

  type ErrorCode = e: int | e != 0 witness 12

  datatype Result<T> = Ok(value: T) | Err(code: ErrorCode)

  const EMPTY := Comp([], [], [], [], [], [], [], [], [], [])

  /** The words of a definition, already recognised. */
  datatype Token =
    | Op(op: Byte)                          // a word that compiles to its opcode alone
    | OpCell(op: Byte, n: Cell)             // an opcode with a 4-byte operand
    | OpDouble(op: Byte, lo: Cell, hi: Cell) // an opcode with an 8-byte operand
    | If | Else | Then
    | Begin | While | Repeat | Until | Again
    | Do | QueryDo | Loop(plus: bool) | Leave | Unloop
    | Case | Of | EndOf | EndCase
    | Recurse
    | AbortQuote(name: Cell, count: Cell, text: Cell)

  /** Opcodes that an ordinary word may compile; the rest have tokens of their own. */
  predicate PlainOp(op: Byte) {
    Len(op) == 1 && op != OP_LOOP && op != OP_PLUSLOOP && op != OP_UNLOOP && op != OP_PUSHIP
  }

  predicate Recognised(t: Token) {
    match t
    case Op(op) => PlainOp(op)
    case OpCell(op, _) => HasCell(op)
    case OpDouble(op, _, _) => HasDouble(op)
    case _ => true
  }

  function Last<T>(s: seq<T>): T
    requires s != []
  {
    s[|s| - 1]
  }

  function ButLast<T>(s: seq<T>): seq<T>
    requires s != []
  {
    s[..|s| - 1]
  }

  predicate Below(s: seq<nat>, n: nat) {
    forall i :: 0 <= i < |s| ==> s[i] <= n
  }

  /** The newest recorded operand lies inside the code. */
  predicate TopInside(s: seq<nat>, n: nat) {
    s != [] ==> Last(s) + 4 <= n
  }

  /** Every recorded operand lies inside the code. */
  predicate AllInside(s: seq<Mark>, n: nat) {
    forall k :: 0 <= k < |s| ==> s[k] == -1 || s[k] + 4 <= n
  }

  // ----- what each word does to the compiler's state -----

  function Emit(c: Comp, bytes: seq<Byte>): Comp {
    c.(ops := c.ops + bytes)
  }

  function EmitCell(c: Comp, op: Byte, n: int): Comp {
    Emit(c, [op] + ToBytes(Wrap(n)))
  }

  /** Resolves the operand at h so that its jump leads to the present end of the code. */
  function ResolveHere(c: Comp, h: nat): Comp {
    c.(ops := Patch(c.ops, h, |c.ops| - h + 1))
  }

  function IfStep(c: Comp): Comp {
    EmitCell(c, OP_JZ, 0).(ifs := c.ifs + [|c.ops| + 1])
  }

  function ElseStep(c: Comp): Result<Comp> {
    var d := EmitCell(c, OP_JMP, 0);
    if c.ifs == [] then Err(E_V_ELSE_NO_IF)
    else Ok(ResolveHere(d.(ifs := ButLast(c.ifs) + [|d.ops| - 4]), Last(c.ifs)))
  }

  function ThenStep(c: Comp): Result<Comp> {
    if c.ifs == [] then Err(E_V_THEN_NO_IF)
    else Ok(ResolveHere(c.(ifs := ButLast(c.ifs)), Last(c.ifs)))
  }

  function WhileStep(c: Comp): Result<Comp> {
    if c.begins == [] then Err(E_V_NO_BEGIN)
    else Ok(EmitCell(c, OP_JZ, 0).(whiles := c.whiles + [|c.ops| + 1]))
  }

  /** A jump back to the newest BEGIN. */
  function BackStep(c: Comp, op: Byte): Result<Comp> {
    if c.begins == [] then Err(E_V_NO_BEGIN)
    else Ok(EmitCell(c.(begins := ButLast(c.begins)), op, Last(c.begins) - |c.ops|))
  }

  function RepeatStep(c: Comp): Result<Comp> {
    if c.begins == [] then Err(E_V_NO_BEGIN)
    else if c.whiles != [] && Last(c.whiles) > Last(c.begins) then
      var j := Last(c.whiles);
      BackStep(c.(whiles := ButLast(c.whiles), ops := Patch(c.ops, j, |c.ops| - j + 6)), OP_JMP)
    else BackStep(c, OP_JMP)
  }

  function DoStep(c: Comp): Comp {
    Emit(c, [OP_PUSH, OP_PUSH, OP_PUSHIP]).(dos := c.dos + [|c.ops| + 3])
  }

  /** ?DO: the loop is entered through the ELSE part of 2DUP = IF 2DROP ELSE. */
  function QueryDoStep(c: Comp): Comp {
    var c1 := IfStep(Emit(c, [OP_2DUP, OP_EQ]));
    var c2 := ElseStep(Emit(c1, [OP_2DROP])).value;
    var c3 := DoStep(c2);
    c3.(qdos := c.qdos + [|c3.ops|])
  }

  /** Resolves, newest first, the LEAVEs recorded after the offset i of the loop's start. */
  function ResolveLeaves(ops: seq<Byte>, leaves: seq<nat>, i: nat): (r: (seq<Byte>, seq<nat>))
    ensures |r.0| == |ops| && r.1 <= leaves
    decreases |leaves|
  {
    if leaves == [] || Last(leaves) <= i then (ops, leaves)
    else ResolveLeaves(Patch(ops, Last(leaves), |ops| - Last(leaves) + 1), ButLast(leaves), i)
  }

  /** The loop's opcode is appended and its LEAVEs are resolved to behind it. */
  function LoopLeaves(c: Comp, op: Byte): Comp
    requires c.dos != []
  {
    var r := ResolveLeaves(c.ops + [op], c.leaves, Last(c.dos));
    c.(ops := r.0, leaves := r.1)
  }

  /** The loop is taken off, with its ?DO if it has one, whose jump is resolved. */
  function PopLoop(c: Comp): Comp
    requires c.dos != []
  {
    var d := c.(dos := ButLast(c.dos));
    if c.qdos != [] && Last(c.qdos) >= Last(c.dos) then
      // the error code of THEN is not looked at here
      var e := if c.ifs == [] then d else ThenStep(d).value;
      e.(qdos := ButLast(c.qdos))
    else d
  }

  /** LOOP or +LOOP. */
  function LoopStep(c: Comp, op: Byte): Result<Comp> {
    if c.dos == [] then Err(E_C_NODO) else Ok(PopLoop(LoopLeaves(c, op)))
  }

  function LeaveStep(c: Comp): Result<Comp> {
    if c.dos == [] then Err(E_V_NO_DO)
    else Ok(EmitCell(Emit(c, [OP_UNLOOP]), OP_JMP, 0).(leaves := c.leaves + [|c.ops| + 2]))
  }

  function OfStep(c: Comp): Comp {
    var d := EmitCell(Emit(c, [OP_OVER, OP_EQ]), OP_JZ, 0);
    Emit(d, [OP_DROP]).(ofs := c.ofs + [|c.ops| + 3])
  }

  function EndOfStep(c: Comp): Result<Comp> {
    var d := EmitCell(c, OP_JMP, 0).(cases := c.cases + [|c.ops| + 1]);
    if c.ofs == [] then Err(E_V_ENDOF_NO_OF)
    else Ok(ResolveHere(d.(ofs := ButLast(c.ofs)), Last(c.ofs)))
  }

  /** ENDCASE resolves the ENDOFs down to the mark that CASE left. */
  function ResolveCases(ops: seq<Byte>, cases: seq<Mark>): (r: (seq<Byte>, seq<Mark>))
    ensures |r.0| == |ops| && r.1 <= cases
    decreases |cases|
  {
    if cases == [] then (ops, cases)
    else if Last(cases) == -1 then (ops, ButLast(cases))
    else ResolveCases(Patch(ops, Last(cases), |ops| - Last(cases) + 1), ButLast(cases))
  }

  function EndCaseStep(c: Comp): Result<Comp> {
    if c.cases == [] then Err(E_V_NO_CASE)
    else
      var d := Emit(c, [OP_DROP]);
      var r := ResolveCases(d.ops, d.cases);
      Ok(d.(ops := r.0, cases := r.1))
  }

  function RecurseStep(c: Comp): Comp {
    Emit(EmitCell(c, OP_ADDR, 0), [OP_EXECUTE_BC]).(recs := c.recs + [|c.ops| + 1])
  }

  /** ABORT": a JZ over 25 bytes that print the word's name and the message, and abort. */
  function AbortQuoteStep(c: Comp, name: Cell, count: Cell, text: Cell): Comp {
    var d := EmitCell(c, OP_JZ, 25);
    var e := Emit(EmitCell(EmitCell(d, OP_ADDR, name), OP_IVAL, count), [OP_TYPE]);
    Emit(EmitCell(e, OP_ADDR, text), [OP_COUNT, OP_TYPE, OP_CR, OP_ABORT])
  }

  function Step(c: Comp, t: Token): Result<Comp> {
    match t
    case Op(op) => Ok(Emit(c, [op]))
    case OpCell(op, n) => Ok(EmitCell(c, op, n))
    case OpDouble(op, lo, hi) => Ok(Emit(EmitCell(c, op, lo), ToBytes(hi)))
    case If => Ok(IfStep(c))
    case Else => ElseStep(c)
    case Then => ThenStep(c)
    case Begin => Ok(c.(begins := c.begins + [|c.ops|]))
    case While => WhileStep(c)
    case Repeat => RepeatStep(c)
    case Until => BackStep(c, OP_JZ)
    case Again => BackStep(c, OP_JMP)
    case Do => Ok(DoStep(c))
    case QueryDo => Ok(QueryDoStep(c))
    case Loop(plus) => LoopStep(c, if plus then OP_PLUSLOOP else OP_LOOP)
    case Leave => LeaveStep(c)
    case Unloop => if c.dos == [] then Err(E_C_NODO) else Ok(Emit(c, [OP_UNLOOP]))
    case Case => Ok(c.(cases := c.cases + [-1]))
    case Of => Ok(OfStep(c))
    case EndOf => EndOfStep(c)
    case EndCase => EndCaseStep(c)
    case Recurse => Ok(RecurseStep(c))
    case AbortQuote(name, count, text) => Ok(AbortQuoteStep(c, name, count, text))
  }

  /** Compiles a list of words, stopping at the first error. */
  function Compile(c: Comp, ts: seq<Token>): Result<Comp>
    decreases |ts|
  {
    if ts == [] then Ok(c)
    else
      var r := Step(c, ts[0]);
      if r.Err? then r else Compile(r.value, ts[1..])
  }

  /** Writes the code address of the definition into each RECURSE. */
  function ResolveRecursion(ops: seq<Byte>, recs: seq<nat>, cfa: Cell): (r: seq<Byte>)
    ensures |r| == |ops|
    decreases |recs|
  {
    if recs == [] then ops
    else ResolveRecursion(Patch(ops, Last(recs), cfa), ButLast(recs), cfa)
  }

  /** The error that `;` reports; a later check overrides an earlier one. */
  function Unfinished(c: Comp): int {
    if c.cases != [] || c.ofs != [] then E_C_INCOMPLETECASE
    else if c.dos != [] || c.leaves != [] then E_C_INCOMPLETELOOP
    else if c.begins != [] || c.whiles != [] then E_C_INCOMPLETEBEGIN
    else if c.ifs != [] then E_C_INCOMPLETEIF
    else 0
  }

  /** `;` gives the finished code of the definition, or reports an open structure. */
  function Finish(c: Comp, cfa: Cell): Result<seq<Byte>> {
    if Unfinished(c) != 0 then Err(Unfinished(c))
    else Ok(ResolveRecursion(c.ops + [OP_RET], c.recs, cfa))
  }
}
