/**
 * Well-nested definitions as trees, the words they are written with, and the
 * layout of their code; and that the back-patching words produce that layout.
 */
module Structured {
  import opened Cells
  import opened ByteCode
  import opened ControlWords

  datatype Stmt =
    | Nop
    | Seq(first: Stmt, second: Stmt)
    | Word(op: Byte)
    | Lit(n: Cell)
    | Call(k: nat)                                 // a definition, by its number
    | SelfCall                                     // RECURSE
    | Return                                       // EXIT
    | DropLoop                                     // UNLOOP
    | LeaveLoop                                    // LEAVE
    | IfThen(yes: Stmt)
    | IfThenElse(yes: Stmt, no: Stmt)
    | BeginUntil(body: Stmt)
    | BeginAgain(body: Stmt)
    | BeginWhile(test: Stmt, body: Stmt)           // BEGIN test WHILE body REPEAT
    | DoLoop(query: bool, body: Stmt, plus: bool)  // DO or ?DO, LOOP or +LOOP
    | CaseOf(chain: Chain)

  /** test OF body ENDOF ... last ENDCASE */
  datatype Chain = Default(last: Stmt) | OfClause(test: Stmt, body: Stmt, rest: Chain)

  /** The words of a statement; env has the code addresses of the definitions. */
  function Tokens(env: seq<Cell>, s: Stmt): seq<Token> {
    match s
    case Nop => []
    case Seq(a, b) => Tokens(env, a) + Tokens(env, b)
    case Word(op) => [Op(op)]
    case Lit(n) => [OpCell(OP_IVAL, n)]
    case Call(k) => [OpCell(OP_DEFINITION, if k < |env| then env[k] else 0)]
    case SelfCall => [Recurse]
    case Return => [Op(OP_RET)]
    case DropLoop => [Unloop]
    case LeaveLoop => [Leave]
    case IfThen(a) => [If] + Tokens(env, a) + [Then]
    case IfThenElse(a, b) => [If] + Tokens(env, a) + [Else] + Tokens(env, b) + [Then]
    case BeginUntil(a) => [Begin] + Tokens(env, a) + [Until]
    case BeginAgain(a) => [Begin] + Tokens(env, a) + [Again]
    case BeginWhile(a, b) => [Begin] + Tokens(env, a) + [While] + Tokens(env, b) + [Repeat]
    case DoLoop(query, a, plus) => [if query then QueryDo else Do] + Tokens(env, a) + [Loop(plus)]
    case CaseOf(ch) => [Case] + ChainTokens(env, ch) + [EndCase]
  }

  function ChainTokens(env: seq<Cell>, ch: Chain): seq<Token> {
    match ch
    case Default(a) => Tokens(env, a)
    case OfClause(t, a, rest) => Tokens(env, t) + [Of] + Tokens(env, a) + [EndOf] + ChainTokens(env, rest)
  }

  /** Words stand for ordinary words, calls for known definitions, and LEAVE and UNLOOP are inside a loop. */
  predicate Legal(env: seq<Cell>, s: Stmt, inLoop: bool) {
    match s
    case Seq(a, b) => Legal(env, a, inLoop) && Legal(env, b, inLoop)
    case Word(op) => PlainOp(op) && op != OP_RET && op != OP_EXECUTE_BC
    case Call(k) => k < |env|
    case DropLoop => inLoop
    case LeaveLoop => inLoop
    case IfThen(a) => Legal(env, a, inLoop)
    case IfThenElse(a, b) => Legal(env, a, inLoop) && Legal(env, b, inLoop)
    case BeginUntil(a) => Legal(env, a, inLoop)
    case BeginAgain(a) => Legal(env, a, inLoop)
    case BeginWhile(a, b) => Legal(env, a, inLoop) && Legal(env, b, inLoop)
    case DoLoop(_, a, _) => Legal(env, a, true)
    case CaseOf(ch) => ChainLegal(env, ch, inLoop)
    case _ => true
  }

  predicate ChainLegal(env: seq<Cell>, ch: Chain, inLoop: bool) {
    match ch
    case Default(a) => Legal(env, a, inLoop)
    case OfClause(t, a, rest) => Legal(env, t, inLoop) && Legal(env, a, inLoop) && ChainLegal(env, rest, inLoop)
  }

  /** The number of bytes a statement compiles to. */
  function Size(s: Stmt): nat {
    match s
    case Nop => 0
    case Seq(a, b) => Size(a) + Size(b)
    case Word(_) => 1
    case Lit(_) => 5
    case Call(_) => 5
    case SelfCall => 6
    case Return => 1
    case DropLoop => 1
    case LeaveLoop => 6
    case IfThen(a) => 5 + Size(a)
    case IfThenElse(a, b) => 5 + Size(a) + 5 + Size(b)
    case BeginUntil(a) => Size(a) + 5
    case BeginAgain(a) => Size(a) + 5
    case BeginWhile(a, b) => Size(a) + 5 + Size(b) + 5
    case DoLoop(query, a, _) => DoSize(query) + Size(a) + 1
    case CaseOf(ch) => ChainSize(ch)
  }

  /** The bytes before the body of a loop. */
  function DoSize(query: bool): nat {
    if query then 16 else 3
  }

  /** With the DROP of ENDCASE. */
  function ChainSize(ch: Chain): nat {
    match ch
    case Default(a) => Size(a) + 1
    case OfClause(t, a, rest) => Size(t) + 8 + Size(a) + 5 + ChainSize(rest)
  }

  /** One step of Size, for proofs in which Size is hidden. */
  lemma SizeOf(s: Stmt)
    ensures Size(s) ==
            match s
            case Nop => 0
            case Seq(a, b) => Size(a) + Size(b)
            case Word(_) => 1
            case Lit(_) => 5
            case Call(_) => 5
            case SelfCall => 6
            case Return => 1
            case DropLoop => 1
            case LeaveLoop => 6
            case IfThen(a) => 5 + Size(a)
            case IfThenElse(a, b) => 5 + Size(a) + 5 + Size(b)
            case BeginUntil(a) => Size(a) + 5
            case BeginAgain(a) => Size(a) + 5
            case BeginWhile(a, b) => Size(a) + 5 + Size(b) + 5
            case DoLoop(query, a, _) => DoSize(query) + Size(a) + 1
            case CaseOf(ch) => ChainSize(ch)
  {
  }

  lemma ChainSizeOf(ch: Chain)
    ensures ChainSize(ch) ==
            match ch
            case Default(a) => Size(a) + 1
            case OfClause(t, a, rest) => Size(t) + 8 + Size(a) + 5 + ChainSize(rest)
  {
  }

  // ----- operands that are resolved from outside the statement -----

  /** The operands of the LEAVEs that leave the loop around a statement at p. */
  function Leaves(s: Stmt, p: nat): seq<nat> {
    match s
    case Seq(a, b) => Leaves(a, p) + Leaves(b, p + Size(a))
    case LeaveLoop => [p + 2]
    case IfThen(a) => Leaves(a, p + 5)
    case IfThenElse(a, b) => Leaves(a, p + 5) + Leaves(b, p + 5 + Size(a) + 5)
    case BeginUntil(a) => Leaves(a, p)
    case BeginAgain(a) => Leaves(a, p)
    case BeginWhile(a, b) => Leaves(a, p) + Leaves(b, p + Size(a) + 5)
    case CaseOf(ch) => ChainLeaves(ch, p)
    case _ => []
  }

  function ChainLeaves(ch: Chain, p: nat): seq<nat> {
    match ch
    case Default(a) => Leaves(a, p)
    case OfClause(t, a, rest) =>
      Leaves(t, p) + Leaves(a, p + Size(t) + 8) + ChainLeaves(rest, p + Size(t) + 8 + Size(a) + 5)
  }

  /** The operands of the RECURSEs of a statement at p. */
  function Recs(s: Stmt, p: nat): seq<nat> {
    match s
    case Seq(a, b) => Recs(a, p) + Recs(b, p + Size(a))
    case SelfCall => [p + 1]
    case IfThen(a) => Recs(a, p + 5)
    case IfThenElse(a, b) => Recs(a, p + 5) + Recs(b, p + 5 + Size(a) + 5)
    case BeginUntil(a) => Recs(a, p)
    case BeginAgain(a) => Recs(a, p)
    case BeginWhile(a, b) => Recs(a, p) + Recs(b, p + Size(a) + 5)
    case DoLoop(query, a, _) => Recs(a, p + DoSize(query))
    case CaseOf(ch) => ChainRecs(ch, p)
    case _ => []
  }

  function ChainRecs(ch: Chain, p: nat): seq<nat> {
    match ch
    case Default(a) => Recs(a, p)
    case OfClause(t, a, rest) =>
      Recs(t, p) + Recs(a, p + Size(t) + 8) + ChainRecs(rest, p + Size(t) + 8 + Size(a) + 5)
  }

  /** The operands of the ENDOFs of a chain. */
  function EndOfs(ch: Chain, p: nat): seq<nat> {
    match ch
    case Default(_) => []
    case OfClause(t, a, rest) =>
      [p + Size(t) + 8 + Size(a) + 1] + EndOfs(rest, p + Size(t) + 8 + Size(a) + 5)
  }

  // ----- the layout -----

  function LoopOp(plus: bool): Byte {
    if plus then OP_PLUSLOOP else OP_LOOP
  }

  predicate ByteAt(code: seq<Byte>, p: nat, op: Byte) {
    p < |code| && code[p] == op
  }

  predicate CellAt(code: seq<Byte>, p: nat, op: Byte, n: Cell) {
    p + 5 <= |code| && code[p] == op && Operand(code, p) == n
  }

  /** A jump at p that leads to t. */
  predicate JumpAt(code: seq<Byte>, p: nat, op: Byte, t: nat) {
    CellAt(code, p, op, Wrap(t - p))
  }

  /** Every jump whose operand is in hs leads to t. */
  predicate AllTo(code: seq<Byte>, hs: seq<nat>, t: nat) {
    forall h | h in hs :: h >= 1 && JumpAt(code, h - 1, OP_JMP, t)
  }

  /** The code of s lies at p, the operands of its own LEAVEs and RECURSEs being left open. */
  predicate Layout(env: seq<Cell>, code: seq<Byte>, s: Stmt, p: nat)
    decreases s
  {
    match s
    case Nop => true
    case Seq(a, b) => Layout(env, code, a, p) && Layout(env, code, b, p + Size(a))
    case Word(op) => ByteAt(code, p, op)
    case Lit(n) => CellAt(code, p, OP_IVAL, n)
    case Call(k) => k < |env| && CellAt(code, p, OP_DEFINITION, env[k])
    case SelfCall => ByteAt(code, p, OP_ADDR) && ByteAt(code, p + 5, OP_EXECUTE_BC)
    case Return => ByteAt(code, p, OP_RET)
    case DropLoop => ByteAt(code, p, OP_UNLOOP)
    case LeaveLoop => ByteAt(code, p, OP_UNLOOP) && ByteAt(code, p + 1, OP_JMP) && p + 6 <= |code|
    case IfThen(a) => JumpAt(code, p, OP_JZ, p + 5 + Size(a)) && Layout(env, code, a, p + 5)
    case IfThenElse(a, b) =>
      var m := p + 5 + Size(a);
      && JumpAt(code, p, OP_JZ, m + 5) && Layout(env, code, a, p + 5)
      && JumpAt(code, m, OP_JMP, m + 5 + Size(b)) && Layout(env, code, b, m + 5)
    case BeginUntil(a) => Layout(env, code, a, p) && JumpAt(code, p + Size(a), OP_JZ, p)
    case BeginAgain(a) => Layout(env, code, a, p) && JumpAt(code, p + Size(a), OP_JMP, p)
    case BeginWhile(a, b) =>
      var m := p + Size(a);
      && Layout(env, code, a, p) && JumpAt(code, m, OP_JZ, m + 5 + Size(b) + 5)
      && Layout(env, code, b, m + 5) && JumpAt(code, m + 5 + Size(b), OP_JMP, p)
    case DoLoop(query, a, plus) =>
      var m := p + DoSize(query);
      var end := m + Size(a) + 1;
      && (query ==> QueryLayout(code, p, end))
      && DoLayout(code, m - 3)
      && Layout(env, code, a, m) && AllTo(code, Leaves(a, m), end)
      && ByteAt(code, m + Size(a), LoopOp(plus))
    case CaseOf(ch) => ChainLayout(env, code, ch, p) && AllTo(code, EndOfs(ch, p), p + ChainSize(ch))
  }

  /** 2DUP = IF 2DROP ELSE, past the loop if the limits are equal. */
  predicate QueryLayout(code: seq<Byte>, p: nat, end: nat) {
    && ByteAt(code, p, OP_2DUP) && ByteAt(code, p + 1, OP_EQ) && JumpAt(code, p + 2, OP_JZ, p + 13)
    && ByteAt(code, p + 7, OP_2DROP) && JumpAt(code, p + 8, OP_JMP, end)
  }

  predicate DoLayout(code: seq<Byte>, p: nat) {
    ByteAt(code, p, OP_PUSH) && ByteAt(code, p + 1, OP_PUSH) && ByteAt(code, p + 2, OP_PUSHIP)
  }

  predicate ChainLayout(env: seq<Cell>, code: seq<Byte>, ch: Chain, p: nat)
    decreases ch
  {
    match ch
    case Default(a) => Layout(env, code, a, p) && ByteAt(code, p + Size(a), OP_DROP)
    case OfClause(t, a, rest) =>
      var m := p + Size(t);
      var n := m + 8 + Size(a);
      && Layout(env, code, t, p) && OfLayout(code, m, n + 5)
      && Layout(env, code, a, m + 8) && ByteAt(code, n, OP_JMP) && n + 5 <= |code|
      && ChainLayout(env, code, rest, n + 5)
  }

  /** OVER = JZ DROP, to the next clause if the values differ. */
  predicate OfLayout(code: seq<Byte>, m: nat, next: nat) {
    && ByteAt(code, m, OP_OVER) && ByteAt(code, m + 1, OP_EQ) && JumpAt(code, m + 2, OP_JZ, next)
    && ByteAt(code, m + 7, OP_DROP)
  }

  /** One step of Layout, for proofs in which Layout is hidden. */
  lemma LayoutOf(env: seq<Cell>, code: seq<Byte>, s: Stmt, p: nat)
    ensures Layout(env, code, s, p) <==> (
            match s
            case Nop => true
            case Seq(a, b) => Layout(env, code, a, p) && Layout(env, code, b, p + Size(a))
            case Word(op) => ByteAt(code, p, op)
            case Lit(n) => CellAt(code, p, OP_IVAL, n)
            case Call(k) => k < |env| && CellAt(code, p, OP_DEFINITION, env[k])
            case SelfCall => ByteAt(code, p, OP_ADDR) && ByteAt(code, p + 5, OP_EXECUTE_BC)
            case Return => ByteAt(code, p, OP_RET)
            case DropLoop => ByteAt(code, p, OP_UNLOOP)
            case LeaveLoop => ByteAt(code, p, OP_UNLOOP) && ByteAt(code, p + 1, OP_JMP) && p + 6 <= |code|
            case IfThen(a) => JumpAt(code, p, OP_JZ, p + 5 + Size(a)) && Layout(env, code, a, p + 5)
            case IfThenElse(a, b) =>
              var m := p + 5 + Size(a);
              && JumpAt(code, p, OP_JZ, m + 5) && Layout(env, code, a, p + 5)
              && JumpAt(code, m, OP_JMP, m + 5 + Size(b)) && Layout(env, code, b, m + 5)
            case BeginUntil(a) => Layout(env, code, a, p) && JumpAt(code, p + Size(a), OP_JZ, p)
            case BeginAgain(a) => Layout(env, code, a, p) && JumpAt(code, p + Size(a), OP_JMP, p)
            case BeginWhile(a, b) =>
              var m := p + Size(a);
              && Layout(env, code, a, p) && JumpAt(code, m, OP_JZ, m + 5 + Size(b) + 5)
              && Layout(env, code, b, m + 5) && JumpAt(code, m + 5 + Size(b), OP_JMP, p)
            case DoLoop(query, a, plus) =>
              var m := p + DoSize(query);
              var end := m + Size(a) + 1;
              && (query ==> QueryLayout(code, p, end))
              && DoLayout(code, m - 3)
              && Layout(env, code, a, m) && AllTo(code, Leaves(a, m), end)
              && ByteAt(code, m + Size(a), LoopOp(plus))
            case CaseOf(ch) => ChainLayout(env, code, ch, p) && AllTo(code, EndOfs(ch, p), p + ChainSize(ch)))
  {
    hide Size, ChainSize, JumpAt, CellAt, ByteAt, AllTo, Leaves, EndOfs;
  }

  lemma ChainLayoutOf(env: seq<Cell>, code: seq<Byte>, ch: Chain, p: nat)
    ensures ChainLayout(env, code, ch, p) <==> (
            match ch
            case Default(a) => Layout(env, code, a, p) && ByteAt(code, p + Size(a), OP_DROP)
            case OfClause(t, a, rest) =>
              var m := p + Size(t);
              var n := m + 8 + Size(a);
              && Layout(env, code, t, p) && OfLayout(code, m, n + 5)
              && Layout(env, code, a, m + 8) && ByteAt(code, n, OP_JMP) && n + 5 <= |code|
              && ChainLayout(env, code, rest, n + 5))
  {
    hide Size, ChainSize, JumpAt, CellAt, ByteAt, AllTo, Leaves, EndOfs;
  }

  lemma LeavesOf(s: Stmt, p: nat)
    ensures Leaves(s, p) == (
            match s
            case Seq(a, b) => Leaves(a, p) + Leaves(b, p + Size(a))
            case LeaveLoop => [p + 2]
            case IfThen(a) => Leaves(a, p + 5)
            case IfThenElse(a, b) => Leaves(a, p + 5) + Leaves(b, p + 5 + Size(a) + 5)
            case BeginUntil(a) => Leaves(a, p)
            case BeginAgain(a) => Leaves(a, p)
            case BeginWhile(a, b) => Leaves(a, p) + Leaves(b, p + Size(a) + 5)
            case CaseOf(ch) => ChainLeaves(ch, p)
            case _ => [])
  {
    hide Size, ChainSize;
  }

  lemma ChainLeavesOf(ch: Chain, p: nat)
    ensures ChainLeaves(ch, p) == (
            match ch
            case Default(a) => Leaves(a, p)
            case OfClause(t, a, rest) =>
              Leaves(t, p) + Leaves(a, p + Size(t) + 8) + ChainLeaves(rest, p + Size(t) + 8 + Size(a) + 5))
  {
    hide Size, ChainSize;
  }

  lemma RecsOf(s: Stmt, p: nat)
    ensures Recs(s, p) == (
            match s
            case Seq(a, b) => Recs(a, p) + Recs(b, p + Size(a))
            case SelfCall => [p + 1]
            case IfThen(a) => Recs(a, p + 5)
            case IfThenElse(a, b) => Recs(a, p + 5) + Recs(b, p + 5 + Size(a) + 5)
            case BeginUntil(a) => Recs(a, p)
            case BeginAgain(a) => Recs(a, p)
            case BeginWhile(a, b) => Recs(a, p) + Recs(b, p + Size(a) + 5)
            case DoLoop(query, a, _) => Recs(a, p + DoSize(query))
            case CaseOf(ch) => ChainRecs(ch, p)
            case _ => [])
  {
    hide Size, ChainSize;
  }

  lemma ChainRecsOf(ch: Chain, p: nat)
    ensures ChainRecs(ch, p) == (
            match ch
            case Default(a) => Recs(a, p)
            case OfClause(t, a, rest) =>
              Recs(t, p) + Recs(a, p + Size(t) + 8) + ChainRecs(rest, p + Size(t) + 8 + Size(a) + 5))
  {
    hide Size, ChainSize;
  }

  lemma EndOfsOf(ch: Chain, p: nat)
    ensures EndOfs(ch, p) == (
            match ch
            case Default(_) => []
            case OfClause(t, a, rest) =>
              [p + Size(t) + 8 + Size(a) + 1] + EndOfs(rest, p + Size(t) + 8 + Size(a) + 5))
  {
    hide Size, ChainSize;
  }
}
