/**
 * The byte-code virtual machine (fast version) as a step function: instruction
 * pointer, data stack, return stack and byte memory.
 */
module ByteVM {
  import opened Cells
  import opened ByteCode

  /** Stacks have their top at index 0; memory holds the bytes that programs may address. */
  datatype Data = Data(ds: seq<Cell>, rs: seq<Cell>, mem: map<Cell, Byte>)

  /** What an ordinary word does: its effect, or nothing the source defines (a stack underflow, a wild address). */
  datatype Effect = Next(d: Data) | Undefined

  datatype Status =
    | Running(ip: Cell, d: Data)
    | Returned(d: Data)           // RET with nothing left of this run on the return stack
    | Lost                        // the source does not say what happens

  predicate InMemory(mem: map<Cell, Byte>, a: Cell) {
    a + 3 < WORD && a in mem && a + 1 in mem && a + 2 in mem && a + 3 in mem
  }

  function Fetch(mem: map<Cell, Byte>, a: Cell): Cell
    requires InMemory(mem, a)
  {
    FromBytes([mem[a], mem[a + 1], mem[a + 2], mem[a + 3]])
  }

  function Store(mem: map<Cell, Byte>, a: Cell, v: Cell): map<Cell, Byte>
    requires InMemory(mem, a)
  {
    var b := ToBytes(v);
    mem[a := b[0]][a + 1 := b[1]][a + 2 := b[2]][a + 3 := b[3]]
  }

  /** Replaces the top n cells of the data stack by s. */
  function Replace(d: Data, n: nat, s: seq<Cell>): Effect
    requires n <= |d.ds|
  {
    Next(d.(ds := s + d.ds[n..]))
  }

  /** The words that need one cell on the data stack. */
  function Unary(op: Byte, d: Data): Effect
    requires |d.ds| >= 1
  {
    var a: int := d.ds[0];
    if op == OP_DROP then Replace(d, 1, [])
    else if op == OP_DUP then Replace(d, 1, [a, a])
    else if op == OP_QUERYDUP then Replace(d, 1, if a == 0 then [a] else [a, a])
    else if op == OP_INC then Replace(d, 1, [Wrap(a + 1)])
    else if op == OP_DEC then Replace(d, 1, [Wrap(a - 1)])
    else if op == OP_NEG then Replace(d, 1, [Wrap(-a)])
    else if op == OP_NOT then Replace(d, 1, [WORD - 1 - a])
    else if op == OP_ZEROEQ then Replace(d, 1, [Flag(a == 0)])
    else if op == OP_ZEROLT then Replace(d, 1, [Flag(Signed(a) < 0)])
    else if op == OP_PUSH then Next(d.(ds := d.ds[1..], rs := [a] + d.rs))
    else if op == OP_FETCH || op == OP_AFETCH then
      if InMemory(d.mem, a) then Replace(d, 1, [Fetch(d.mem, a)]) else Undefined
    else Undefined
  }

  /** The words that compute one cell from two. */
  function Combine(op: Byte, a: Cell, b: Cell): Cell {
    var (x: int, y: int) := (a, b);
    if op == OP_ADD then Wrap(x + y)
    else if op == OP_SUB then Wrap(x - y)
    else if op == OP_MUL then Wrap(x * y)
    else if op == OP_EQ then Flag(x == y)
    else if op == OP_LT then Flag(Signed(a) < Signed(b))
    else if op == OP_GT then Flag(Signed(a) > Signed(b))
    else if op == OP_ULT then Flag(x < y)
    else if op == OP_NIP then b
    else And(a, b)
  }

  function And(a: Cell, b: Cell): Cell {
    Common(a, b, 32)
  }

  /** The bits that both numbers have among their n lowest. */
  function Common(a: nat, b: nat, n: nat): (c: nat)
    ensures c <= a
  {
    if n == 0 then 0 else 2 * Common(a / 2, b / 2, n - 1) + (a % 2) * (b % 2)
  }

  predicate IsCombine(op: Byte) {
    || op == OP_ADD || op == OP_SUB || op == OP_MUL || op == OP_EQ || op == OP_LT || op == OP_GT
    || op == OP_ULT || op == OP_NIP || op == OP_AND
  }

  /** The words that need two cells on the data stack, a below b. */
  function Binary(op: Byte, d: Data): Effect
    requires |d.ds| >= 2
  {
    var (b, a) := (d.ds[0], d.ds[1]);
    if IsCombine(op) then Replace(d, 2, [Combine(op, a, b)])
    else if op == OP_SWAP then Replace(d, 2, [a, b])
    else if op == OP_OVER then Replace(d, 2, [a, b, a])
    else if op == OP_TUCK then Replace(d, 2, [b, a, b])
    else if op == OP_2DROP then Replace(d, 2, [])
    else if op == OP_2DUP then Replace(d, 2, [b, a, b, a])
    else if op == OP_STORE then
      if InMemory(d.mem, b) then Next(d.(ds := d.ds[2..], mem := Store(d.mem, b, a))) else Undefined
    else Undefined
  }

  predicate IsUnary(op: Byte) {
    || op == OP_DROP || op == OP_DUP || op == OP_QUERYDUP || op == OP_INC || op == OP_DEC || op == OP_NEG
    || op == OP_NOT
    || op == OP_ZEROEQ || op == OP_ZEROLT || op == OP_PUSH || op == OP_FETCH || op == OP_AFETCH
  }

  /** The words that need only the return stack, or nothing. */
  function Nullary(op: Byte, d: Data): Effect {
    if op == OP_FALSE then Replace(d, 0, [0])
    else if op == OP_TRUE then Replace(d, 0, [0xFFFF_FFFF])
    else if op == OP_POP then
      if |d.rs| >= 1 then Next(d.(ds := [d.rs[0]] + d.ds, rs := d.rs[1..])) else Undefined
    else if op == OP_RFETCH then if |d.rs| >= 1 then Replace(d, 0, [d.rs[0]]) else Undefined
    else if op == OP_I then if |d.rs| >= 3 then Replace(d, 0, [d.rs[2]]) else Undefined
    else if op == OP_J then if |d.rs| >= 6 then Replace(d, 0, [d.rs[5]]) else Undefined
    else if op == OP_UNLOOP then if |d.rs| >= 3 then Next(d.(rs := d.rs[3..])) else Undefined
    else Undefined
  }

  predicate IsNullary(op: Byte) {
    || op == OP_FALSE || op == OP_TRUE || op == OP_POP || op == OP_RFETCH || op == OP_I || op == OP_J || op == OP_UNLOOP
  }

  /** The effect of a word that does not change the course of execution. */
  function Perform(op: Byte, d: Data): Effect {
    if IsNullary(op) then Nullary(op, d)
    else if IsUnary(op) then (if |d.ds| >= 1 then Unary(op, d) else Undefined)
    else if op == OP_ROT then
      (if |d.ds| >= 3 then Replace(d, 3, [d.ds[2], d.ds[0], d.ds[1]]) else Undefined)
    else if |d.ds| >= 2 then Binary(op, d)
    else Undefined
  }

  // ----- loops -----

  /** LOOP: one more, until the index meets the limit. */
  predicate LoopEnds(index: Cell, limit: Cell) {
    Wrap((index as int) + 1) == limit
  }

  /** +LOOP by signed comparisons with the limit and with the limit plus the step. */
  predicate PlusLoopEnds(index: Cell, limit: Cell, step: Cell) {
    var (i: int, l: int, n: int) := (index, limit, step);
    var j := Signed(Wrap(i + n));
    if Signed(step) < 0 then
      j <= Signed(Wrap(l - 1)) && j > Signed(Wrap(l - 1 + n))
    else
      j >= Signed(limit) && j < Signed(Wrap(l + n))
  }

  /** What LOOP and +LOOP do with the three cells of a loop on the return stack: its start, limit and index. */
  datatype LoopEffect = Over(d: Data) | Around(d: Data) | Stuck

  function LoopBack(plus: bool, d: Data): LoopEffect {
    if |d.rs| < 3 || (plus && d.ds == []) then Stuck
    else
      var step: int := if plus then d.ds[0] else 1;
      var e := if plus then d.(ds := d.ds[1..]) else d;
      var index: int := d.rs[2];
      if (if plus then PlusLoopEnds(d.rs[2], d.rs[1], d.ds[0]) else LoopEnds(d.rs[2], d.rs[1])) then
        Over(e.(rs := d.rs[3..]))
      else Around(e.(rs := d.rs[2 := Wrap(index + step)]))
  }

  // ----- one instruction -----

  predicate HasOperand(code: map<Cell, Byte>, a: Cell) {
    a + 4 < WORD && a + 1 in code && a + 2 in code && a + 3 in code && a + 4 in code
  }

  function OperandAt(code: map<Cell, Byte>, a: Cell): Cell
    requires HasOperand(code, a)
  {
    FromBytes([code[a + 1], code[a + 2], code[a + 3], code[a + 4]])
  }

  /** The instructions with a 4-byte operand n; at is the instruction pointer. */
  function StepCell(op: Byte, n: Cell, at: Cell, d: Data): Status {
    var (ip: int, off: int) := (at, n);
    if op == OP_JMP then Running(Wrap(ip + off), d)
    else if op == OP_JZ then
      if d.ds == [] then Lost
      else Running(Wrap(if d.ds[0] == 0 then ip + off else ip + 5), d.(ds := d.ds[1..]))
    else if op == OP_IVAL || op == OP_ADDR then Running(Wrap(ip + 5), d.(ds := [n] + d.ds))
    else if op == OP_DEFINITION then Running(n, d.(rs := [Wrap(ip + 4)] + d.rs))
    else Lost
  }

  predicate TakesCell(op: Byte) {
    op == OP_JMP || op == OP_JZ || op == OP_IVAL || op == OP_ADDR || op == OP_DEFINITION
  }

  /** The address after the one in the cell on top of the return stack. */
  function AfterTop(rs: seq<Cell>): Cell
    requires rs != []
  {
    var a: int := rs[0];
    Wrap(a + 1)
  }

  /** The one-byte instructions that change the course of execution. */
  function StepFlow(op: Byte, entry: nat, at: Cell, d: Data): Status {
    var next := AfterTop([at]);
    if op == OP_PUSHIP then Running(next, d.(rs := [at] + d.rs))
    else if op == OP_EXECUTE_BC then
      if d.ds == [] then Lost else Running(d.ds[0], d.(ds := d.ds[1..], rs := [at] + d.rs))
    else if op == OP_RET then
      if |d.rs| <= entry then Returned(d) else Running(AfterTop(d.rs), d.(rs := d.rs[1..]))
    else
      match LoopBack(op == OP_PLUSLOOP, d)
      case Over(e) => Running(next, e)
      case Around(e) => Running(AfterTop(d.rs), e)
      case Stuck => Lost
  }

  predicate IsFlow(op: Byte) {
    op == OP_PUSHIP || op == OP_EXECUTE_BC || op == OP_RET || op == OP_LOOP || op == OP_PLUSLOOP
  }

  /** Executes the instruction at ip; entry is the depth of the return stack on entry to the machine. */
  function Step(code: map<Cell, Byte>, entry: nat, ip: Cell, d: Data): Status {
    if ip !in code then Lost
    else
      var op := code[ip];
      if TakesCell(op) then
        if HasOperand(code, ip) then StepCell(op, OperandAt(code, ip), ip, d) else Lost
      else if IsFlow(op) then StepFlow(op, entry, ip, d)
      else
        match Perform(op, d)
        case Next(e) => Running(AfterTop([ip]), e)
        case Undefined => Lost
  }

  /** n instructions, or fewer if the machine stops before. */
  function Run(code: map<Cell, Byte>, entry: nat, s: Status, n: nat): Status
    decreases n
  {
    if n == 0 || !s.Running? then s else Run(code, entry, Step(code, entry, s.ip, s.d), n - 1)
  }

  lemma {:induction false} RunMore(code: map<Cell, Byte>, entry: nat, s: Status, m: nat, n: nat)
    ensures Run(code, entry, s, m + n) == Run(code, entry, Run(code, entry, s, m), n)
    decreases m
  {
    if m > 0 && s.Running? {
      RunMore(code, entry, Step(code, entry, s.ip, s.d), m - 1, n);
    }
  }

  lemma RunStopped(code: map<Cell, Byte>, entry: nat, s: Status, n: nat)
    requires !s.Running?
    ensures Run(code, entry, s, n) == s
  {
  }
}
