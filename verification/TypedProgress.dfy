/**
 * The type-checked machine never fails a type test on the code of well-nested definitions that
 * neither access memory nor use the return stack themselves: every RET, LOOP and +LOOP finds the
 * address there that a call or DO has saved, and its type.
 */
module TypedProgress {
  import opened Cells
  import opened ByteCode
  import opened Structured
  import opened ByteVM
  import opened Meaning
  import opened Courses
  import opened CompilerCorrect
  import opened TypedVM
  import opened OrderlyRuns
  import opened Sequences

  // ----- programs -----

  /** Words that do not fail and leave the return stack alone. */
  predicate Gentle(op: Byte) {
    && !TakesCell(op) && !IsFlow(op)
    && op != OP_PUSH && op != OP_POP && op != OP_RFETCH && op != OP_UNLOOP
    && op != OP_FETCH && op != OP_AFETCH && op != OP_STORE
  }

  /** Only gentle words, no UNLOOP, and no EXIT from within a loop. */
  predicate Tame(s: Stmt, inLoop: bool) {
    match s
    case Seq(a, b) => Tame(a, inLoop) && Tame(b, inLoop)
    case Word(op) => Gentle(op)
    case Return => !inLoop
    case DropLoop => false
    case IfThen(a) => Tame(a, inLoop)
    case IfThenElse(a, b) => Tame(a, inLoop) && Tame(b, inLoop)
    case BeginUntil(a) => Tame(a, inLoop)
    case BeginAgain(a) => Tame(a, inLoop)
    case BeginWhile(a, b) => Tame(a, inLoop) && Tame(b, inLoop)
    case DoLoop(_, a, _) => Tame(a, true)
    case CaseOf(ch) => ChainTame(ch, inLoop)
    case _ => true
  }

  predicate ChainTame(ch: Chain, inLoop: bool) {
    match ch
    case Default(a) => Tame(a, inLoop)
    case OfClause(t, a, rest) => Tame(t, inLoop) && Tame(a, inLoop) && ChainTame(rest, inLoop)
  }

  // ----- what the return stack holds at each instruction -----

  /** What a definition has on the return stack, top first: an address, or any cell. */
  type Shape = seq<Option<Cell>>

  /** The shape at an instruction; self says that the definition's own address is on the data stack. */
  datatype Point = Point(shape: Shape, self: bool)

  function Plain(b: Shape): Option<Point> {
    Some(Point(b, false))
  }

  /** The three cells of a loop whose body starts at m. */
  function InLoop(w: World, k: nat, m: nat, b: Shape): Shape
    requires k < |w.defs| && m >= 1
  {
    [Some(Address(w, k, m - 1)), None, None] + b
  }

  /** The point at offset q of s at p, if an instruction starts there and s is entered with b. */
  function PointAt(w: World, k: nat, s: Stmt, p: nat, q: nat, b: Shape): Option<Point>
    requires k < |w.defs|
    decreases s
  {
    match s
    case Nop => None
    case Seq(x, y) => if q < p + Size(x) then PointAt(w, k, x, p, q, b) else PointAt(w, k, y, p + Size(x), q, b)
    case SelfCall => if q == p then Plain(b) else if q == p + 5 then Some(Point(b, true)) else None
    case LeaveLoop => if q == p then Plain(b) else if q == p + 1 && |b| >= 3 then Plain(b[3..]) else None
    case IfThen(x) => if q == p then Plain(b) else if q < p + 5 then None else PointAt(w, k, x, p + 5, q, b)
    case IfThenElse(x, y) =>
      var m := p + 5 + Size(x);
      if q == p || q == m then Plain(b)
      else if q < p + 5 || m < q < m + 5 then None
      else if q < m then PointAt(w, k, x, p + 5, q, b)
      else PointAt(w, k, y, m + 5, q, b)
    case BeginUntil(x) => BackPoint(p + Size(x), q, b, PointAt(w, k, x, p, q, b))
    case BeginAgain(x) => BackPoint(p + Size(x), q, b, PointAt(w, k, x, p, q, b))
    case BeginWhile(x, y) =>
      var m := p + Size(x);
      var n := m + 5 + Size(y);
      if q == m || q == n then Plain(b)
      else if q < m then PointAt(w, k, x, p, q, b)
      else if m + 5 <= q < n then PointAt(w, k, y, m + 5, q, b)
      else None
    case DoLoop(query, x, plus) =>
      var m := p + DoSize(query);
      var n := m + Size(x);
      if q < m then DoPoint(query, p, q, b)
      else if q < n then PointAt(w, k, x, m, q, InLoop(w, k, m, b))
      else if q == n then Plain(InLoop(w, k, m, b))
      else None
    case CaseOf(ch) => ChainPointAt(w, k, ch, p, q, b)
    case _ => if q == p then Plain(b) else None
  }

  function BackPoint(m: nat, q: nat, b: Shape, o: Option<Point>): Option<Point> {
    if q < m then o else if q == m then Plain(b) else None
  }

  /** Before the body of a loop. */
  function DoPoint(query: bool, p: nat, q: nat, b: Shape): Option<Point> {
    var m := p + DoSize(query);
    if q == m - 3 then Plain(b)
    else if q == m - 2 then Plain([None] + b)
    else if q == m - 1 then Plain([None, None] + b)
    else if query && (q == p || q == p + 1 || q == p + 2 || q == p + 7 || q == p + 8) then Plain(b)
    else None
  }

  function ChainPointAt(w: World, k: nat, ch: Chain, p: nat, q: nat, b: Shape): Option<Point>
    requires k < |w.defs|
    decreases ch
  {
    match ch
    case Default(x) => BackPoint(p + Size(x), q, b, PointAt(w, k, x, p, q, b))
    case OfClause(t, x, rest) =>
      var m := p + Size(t);
      var n := m + 8 + Size(x);
      if q == m || q == m + 1 || q == m + 2 || q == m + 7 || q == n then Plain(b)
      else if q < m then PointAt(w, k, t, p, q, b)
      else if q < m + 8 || n < q < n + 5 then None
      else if q < n then PointAt(w, k, x, m + 8, q, b)
      else ChainPointAt(w, k, rest, n + 5, q, b)
  }

  /** The point of a definition, with the RET at its end. */
  function DefPoint(w: World, k: nat, q: nat): Option<Point>
    requires k < |w.defs|
  {
    var body := w.defs[k].body;
    if q < Size(body) then PointAt(w, k, body, 0, q, []) else if q == Size(body) then Plain([]) else None
  }

  predicate To(w: World, k: nat, q: nat, b: Shape)
    requires k < |w.defs|
  {
    DefPoint(w, k, q) == Plain(b)
  }

  // ----- every instruction leads from its point to the next -----

  /** A jump to an instruction with the same shape. */
  ghost predicate JumpFine(w: World, m: Image, k: nat, q: nat, op: Byte, b: Shape)
    requires k < |w.defs|
  {
    exists t: nat :: t <= |m.bytes| && JumpAt(m.bytes, q, op, t) && To(w, k, t, b)
  }

  /** A loop whose start is the address in the shape. */
  ghost predicate LoopFine(w: World, k: nat, b: Shape)
    requires k < |w.defs|
  {
    exists t: nat :: t >= 1 && |b| >= 3 && b[0] == Some(Address(w, k, t - 1)) && b[2].None? && To(w, k, t, b)
  }

  ghost predicate CallFine(w: World, m: Image, q: nat)
    requires q + 5 <= |m.bytes|
  {
    exists j: nat :: j < |w.defs| && Operand(m.bytes, q) == w.defs[j].cfa
  }

  ghost predicate Fine(w: World, m: Image, k: nat, q: nat, pt: Point)
    requires k < |w.defs|
  {
    var b := pt.shape;
    && q < |m.bytes|
    && var op := m.bytes[q];
       if pt.self then op == OP_EXECUTE_BC && To(w, k, q + 1, b)
       else if op == OP_JMP then JumpFine(w, m, k, q, op, b)
       else if op == OP_JZ then JumpFine(w, m, k, q, op, b) && q + 5 <= |m.bytes| && To(w, k, q + 5, b)
       else if op == OP_IVAL then q + 5 <= |m.bytes| && To(w, k, q + 5, b)
       else if op == OP_ADDR then
         q + 5 <= |m.bytes| && Operand(m.bytes, q) == m.base && DefPoint(w, k, q + 5) == Some(Point(b, true))
       else if op == OP_DEFINITION then q + 5 <= |m.bytes| && CallFine(w, m, q) && To(w, k, q + 5, b)
       else if op == OP_PUSH then To(w, k, q + 1, [None] + b)
       else if op == OP_PUSHIP then To(w, k, q + 1, [Some(Address(w, k, q))] + b)
       else if op == OP_UNLOOP then |b| >= 3 && To(w, k, q + 1, b[3..])
       else if op == OP_LOOP || op == OP_PLUSLOOP then LoopFine(w, k, b) && To(w, k, q + 1, b[3..])
       else if op == OP_RET then b == []
       else Gentle(op) && To(w, k, q + 1, b)
  }

  /** The points of s are those of the definition, and behind s the shape is the same. */
  ghost predicate Agrees(w: World, k: nat, s: Stmt, p: nat, b: Shape)
    requires k < |w.defs|
  {
    && (forall q: nat | p <= q < p + Size(s) :: DefPoint(w, k, q) == PointAt(w, k, s, p, q, b))
    && To(w, k, p + Size(s), b)
  }

  ghost predicate ChainAgrees(w: World, k: nat, ch: Chain, p: nat, b: Shape)
    requires k < |w.defs|
  {
    && (forall q: nat | p <= q < p + ChainSize(ch) :: DefPoint(w, k, q) == ChainPointAt(w, k, ch, p, q, b))
    && To(w, k, p + ChainSize(ch), b)
  }

  ghost predicate Leavable(w: World, k: nat, exit: nat, inLoop: bool, b: Shape)
    requires k < |w.defs|
  {
    inLoop ==> |b| >= 3 && To(w, k, exit, b[3..])
  }

  lemma {:induction false} StartPoint(w: World, k: nat, s: Stmt, p: nat, b: Shape)
    requires k < |w.defs| && Size(s) > 0
    ensures PointAt(w, k, s, p, p, b) == Plain(b)
    decreases s
  {
    match s
    case Seq(x, y) => if Size(x) > 0 { StartPoint(w, k, x, p, b); } else { StartPoint(w, k, y, p, b); }
    case BeginUntil(x) => if Size(x) > 0 { StartPoint(w, k, x, p, b); }
    case BeginAgain(x) => if Size(x) > 0 { StartPoint(w, k, x, p, b); }
    case BeginWhile(x, y) => if Size(x) > 0 { StartPoint(w, k, x, p, b); }
    case CaseOf(ch) => ChainStart(w, k, ch, p, b);
    case _ =>
  }

  lemma {:induction false} ChainStart(w: World, k: nat, ch: Chain, p: nat, b: Shape)
    requires k < |w.defs|
    ensures ChainPointAt(w, k, ch, p, p, b) == Plain(b) && ChainSize(ch) > 0
    decreases ch
  {
    match ch
    case Default(x) => if Size(x) > 0 { StartPoint(w, k, x, p, b); }
    case OfClause(t, x, rest) => if Size(t) > 0 { StartPoint(w, k, t, p, b); }
  }

  /** Where a statement starts, the shape is the one that it is entered with, whatever its size. */
  lemma StartsPlain(w: World, k: nat, s: Stmt, p: nat, b: Shape)
    requires k < |w.defs| && Agrees(w, k, s, p, b)
    ensures To(w, k, p, b)
  {
    hide Size, PointAt, DefPoint;
    if Size(s) > 0 { StartPoint(w, k, s, p, b); }
  }

  // ----- parts of a statement -----

  /** The points of s from r on are those of a part of it, which is entered with e. */
  ghost predicate Part(w: World, k: nat, s: Stmt, p: nat, b: Shape, x: Stmt, r: nat, e: Shape)
    requires k < |w.defs|
  {
    && p <= r && r + Size(x) <= p + Size(s)
    && forall q: nat | r <= q < r + Size(x) :: PointAt(w, k, s, p, q, b) == PointAt(w, k, x, r, q, e)
  }

  lemma PartAgrees(w: World, k: nat, s: Stmt, p: nat, b: Shape, x: Stmt, r: nat, e: Shape)
    requires k < |w.defs| && Agrees(w, k, s, p, b) && Part(w, k, s, p, b, x, r, e) && To(w, k, r + Size(x), e)
    ensures Agrees(w, k, x, r, e)
  {
    hide Size, DefPoint, PointAt;
    forall q: nat | r <= q < r + Size(x) ensures DefPoint(w, k, q) == PointAt(w, k, x, r, q, e) {
      assert DefPoint(w, k, q) == PointAt(w, k, s, p, q, b);
    }
  }

  lemma SeqParts(w: World, k: nat, x: Stmt, y: Stmt, p: nat, b: Shape)
    requires k < |w.defs|
    ensures Part(w, k, Seq(x, y), p, b, x, p, b) && Part(w, k, Seq(x, y), p, b, y, p + Size(x), b)
    ensures Size(Seq(x, y)) == Size(x) + Size(y)
  {
    hide Size;
    SizeOf(Seq(x, y));
  }

  lemma SeqAgrees(w: World, k: nat, x: Stmt, y: Stmt, p: nat, b: Shape)
    requires k < |w.defs| && Agrees(w, k, Seq(x, y), p, b)
    ensures Agrees(w, k, x, p, b) && Agrees(w, k, y, p + Size(x), b)
  {
    hide Size, DefPoint, PointAt, Part, Agrees;
    SeqParts(w, k, x, y, p, b);
    AgreesEnd(w, k, Seq(x, y), p, b);
    PartAgrees(w, k, Seq(x, y), p, b, y, p + Size(x), b);
    StartsPlain(w, k, y, p + Size(x), b);
    PartAgrees(w, k, Seq(x, y), p, b, x, p, b);
  }

  lemma AgreesEnd(w: World, k: nat, s: Stmt, p: nat, b: Shape)
    requires k < |w.defs| && Agrees(w, k, s, p, b)
    ensures To(w, k, p + Size(s), b)
    ensures forall q: nat | p <= q < p + Size(s) :: DefPoint(w, k, q) == PointAt(w, k, s, p, q, b)
  {
  }

  lemma IfAgrees(w: World, k: nat, x: Stmt, p: nat, b: Shape)
    requires k < |w.defs| && Agrees(w, k, IfThen(x), p, b)
    ensures Agrees(w, k, x, p + 5, b)
  {
    hide Size, DefPoint;
    SizeOf(IfThen(x));
    forall q: nat | p + 5 <= q < p + 5 + Size(x) ensures DefPoint(w, k, q) == PointAt(w, k, x, p + 5, q, b) {
      assert DefPoint(w, k, q) == PointAt(w, k, IfThen(x), p, q, b);
    }
  }

  lemma IfElseParts(w: World, k: nat, x: Stmt, y: Stmt, p: nat, b: Shape)
    requires k < |w.defs|
    ensures var s := IfThenElse(x, y); var m := p + 5 + Size(x);
            && Part(w, k, s, p, b, x, p + 5, b) && Part(w, k, s, p, b, y, m + 5, b)
            && PointAt(w, k, s, p, m, b) == Plain(b) && Size(s) == 5 + Size(x) + 5 + Size(y)
  {
    hide Size;
    SizeOf(IfThenElse(x, y));
  }

  lemma IfElseAgrees(w: World, k: nat, x: Stmt, y: Stmt, p: nat, b: Shape)
    requires k < |w.defs| && Agrees(w, k, IfThenElse(x, y), p, b)
    ensures var m := p + 5 + Size(x); Agrees(w, k, x, p + 5, b) && Agrees(w, k, y, m + 5, b) && To(w, k, m, b)
  {
    hide Size, DefPoint, PointAt, Part, Agrees;
    var s := IfThenElse(x, y);
    var m := p + 5 + Size(x);
    IfElseParts(w, k, x, y, p, b);
    AgreesEnd(w, k, s, p, b);
    assert DefPoint(w, k, m) == PointAt(w, k, s, p, m, b);
    PartAgrees(w, k, s, p, b, x, p + 5, b);
    PartAgrees(w, k, s, p, b, y, m + 5, b);
  }

  lemma BackAgrees(w: World, k: nat, x: Stmt, until: bool, p: nat, b: Shape)
    requires k < |w.defs| && Agrees(w, k, if until then BeginUntil(x) else BeginAgain(x), p, b)
    ensures Agrees(w, k, x, p, b)
  {
    hide Size, DefPoint;
    var s := if until then BeginUntil(x) else BeginAgain(x);
    SizeOf(s);
    var m := p + Size(x);
    assert DefPoint(w, k, m) == PointAt(w, k, s, p, m, b);
    forall q: nat | p <= q < m ensures DefPoint(w, k, q) == PointAt(w, k, x, p, q, b) {
      assert DefPoint(w, k, q) == PointAt(w, k, s, p, q, b);
    }
  }

  lemma WhileParts(w: World, k: nat, x: Stmt, y: Stmt, p: nat, b: Shape)
    requires k < |w.defs|
    ensures var s := BeginWhile(x, y); var m := p + Size(x); var n := m + 5 + Size(y);
            && Part(w, k, s, p, b, x, p, b) && Part(w, k, s, p, b, y, m + 5, b)
            && PointAt(w, k, s, p, m, b) == Plain(b) && PointAt(w, k, s, p, n, b) == Plain(b) && p + Size(s) == n + 5
  {
    hide Size;
    SizeOf(BeginWhile(x, y));
  }

  lemma WhileAgrees(w: World, k: nat, x: Stmt, y: Stmt, p: nat, b: Shape)
    requires k < |w.defs| && Agrees(w, k, BeginWhile(x, y), p, b)
    ensures Agrees(w, k, x, p, b) && Agrees(w, k, y, p + Size(x) + 5, b)
  {
    hide Size, DefPoint, PointAt, Part, Agrees;
    var s := BeginWhile(x, y);
    var m := p + Size(x);
    WhileParts(w, k, x, y, p, b);
    AgreesEnd(w, k, s, p, b);
    assert DefPoint(w, k, m) == PointAt(w, k, s, p, m, b);
    assert DefPoint(w, k, m + 5 + Size(y)) == PointAt(w, k, s, p, m + 5 + Size(y), b);
    PartAgrees(w, k, s, p, b, x, p, b);
    PartAgrees(w, k, s, p, b, y, m + 5, b);
  }

  lemma DoAgrees(w: World, k: nat, query: bool, x: Stmt, plus: bool, p: nat, b: Shape)
    requires k < |w.defs| && Agrees(w, k, DoLoop(query, x, plus), p, b)
    ensures var m := p + DoSize(query); Agrees(w, k, x, m, InLoop(w, k, m, b))
    ensures var m := p + DoSize(query);
            forall q: nat | p <= q < m :: DefPoint(w, k, q) == DoPoint(query, p, q, b)
  {
    hide Size, DefPoint, Address, DoPoint;
    var s := DoLoop(query, x, plus);
    var m := p + DoSize(query);
    var n := m + Size(x);
    SizeOf(s);
    assert DefPoint(w, k, n) == PointAt(w, k, s, p, n, b);
    forall q: nat | m <= q < n ensures DefPoint(w, k, q) == PointAt(w, k, x, m, q, InLoop(w, k, m, b)) {
      assert DefPoint(w, k, q) == PointAt(w, k, s, p, q, b);
    }
    forall q: nat | p <= q < m ensures DefPoint(w, k, q) == DoPoint(query, p, q, b) {
      assert DefPoint(w, k, q) == PointAt(w, k, s, p, q, b);
    }
  }

  lemma CaseAgrees(w: World, k: nat, ch: Chain, p: nat, b: Shape)
    requires k < |w.defs| && Agrees(w, k, CaseOf(ch), p, b)
    ensures ChainAgrees(w, k, ch, p, b)
  {
    hide Size, DefPoint, ChainSize, ChainPointAt;
    SizeOf(CaseOf(ch));
    forall q: nat | p <= q < p + ChainSize(ch) ensures DefPoint(w, k, q) == ChainPointAt(w, k, ch, p, q, b) {
      assert DefPoint(w, k, q) == PointAt(w, k, CaseOf(ch), p, q, b);
    }
  }

  lemma DefaultAgrees(w: World, k: nat, x: Stmt, p: nat, b: Shape)
    requires k < |w.defs| && ChainAgrees(w, k, Default(x), p, b)
    ensures Agrees(w, k, x, p, b)
  {
    hide Size, DefPoint;
    ChainSizeOf(Default(x));
    var m := p + Size(x);
    assert DefPoint(w, k, m) == ChainPointAt(w, k, Default(x), p, m, b);
    forall q: nat | p <= q < m ensures DefPoint(w, k, q) == PointAt(w, k, x, p, q, b) {
      assert DefPoint(w, k, q) == ChainPointAt(w, k, Default(x), p, q, b);
    }
  }

  lemma ClauseAgrees(w: World, k: nat, t: Stmt, x: Stmt, rest: Chain, p: nat, b: Shape)
    requires k < |w.defs| && ChainAgrees(w, k, OfClause(t, x, rest), p, b)
    ensures var m := p + Size(t); var n := m + 8 + Size(x);
            && Agrees(w, k, t, p, b) && Agrees(w, k, x, m + 8, b) && ChainAgrees(w, k, rest, n + 5, b)
            && To(w, k, m + 1, b) && To(w, k, m + 2, b) && To(w, k, m + 7, b) && To(w, k, n + 5, b)
            && To(w, k, p + ChainSize(OfClause(t, x, rest)), b)
  {
    hide Size, DefPoint, ChainSize;
    var ch := OfClause(t, x, rest);
    ChainSizeOf(ch);
    var m := p + Size(t);
    var n := m + 8 + Size(x);
    assert DefPoint(w, k, m) == ChainPointAt(w, k, ch, p, m, b);
    assert DefPoint(w, k, m + 1) == ChainPointAt(w, k, ch, p, m + 1, b);
    assert DefPoint(w, k, m + 2) == ChainPointAt(w, k, ch, p, m + 2, b);
    assert DefPoint(w, k, m + 7) == ChainPointAt(w, k, ch, p, m + 7, b);
    assert DefPoint(w, k, n) == ChainPointAt(w, k, ch, p, n, b);
    forall q: nat | p <= q < m ensures DefPoint(w, k, q) == PointAt(w, k, t, p, q, b) {
      assert DefPoint(w, k, q) == ChainPointAt(w, k, ch, p, q, b);
    }
    forall q: nat | m + 8 <= q < n ensures DefPoint(w, k, q) == PointAt(w, k, x, m + 8, q, b) {
      assert DefPoint(w, k, q) == ChainPointAt(w, k, ch, p, q, b);
    }
    RestAgrees(w, k, ch, p, b);
    ChainStart(w, k, rest, n + 5, b);
  }

  lemma RestAgrees(w: World, k: nat, ch: Chain, p: nat, b: Shape)
    requires k < |w.defs| && ChainAgrees(w, k, ch, p, b) && ch.OfClause?
    ensures ChainAgrees(w, k, ch.rest, p + Size(ch.test) + 8 + Size(ch.body) + 5, b)
  {
    hide Size, DefPoint, ChainSize;
    ChainSizeOf(ch);
    var r := p + Size(ch.test) + 8 + Size(ch.body) + 5;
    forall q: nat | r <= q < r + ChainSize(ch.rest)
      ensures DefPoint(w, k, q) == ChainPointAt(w, k, ch.rest, r, q, b)
    {
      assert DefPoint(w, k, q) == ChainPointAt(w, k, ch, p, q, b);
    }
  }

  // ----- every instruction of a tame statement is fine -----

  lemma {:induction false} AllFine(w: World, m: Image, k: nat, s: Stmt, p: nat, exit: nat, inLoop: bool, b: Shape,
                                   q: nat)
    requires k < |w.defs| && Placed(w, m, k, s, p, exit, inLoop) && Tame(s, inLoop) && Agrees(w, k, s, p, b)
    requires Leavable(w, k, exit, inLoop, b) && (!inLoop ==> b == [])
    requires p <= q < p + Size(s) && PointAt(w, k, s, p, q, b).Some?
    ensures Fine(w, m, k, q, PointAt(w, k, s, p, q, b).value)
    decreases s, 1
  {
    hide Placed, Agrees, Fine, Size, PointAt, Leavable;
    match s
    case Nop => SizeOf(s);
    case Seq(x, y) => SeqFine(w, m, k, x, y, p, exit, inLoop, b, q);
    case IfThen(x) => IfFine(w, m, k, x, p, exit, inLoop, b, q);
    case IfThenElse(x, y) => IfElseFine(w, m, k, x, y, p, exit, inLoop, b, q);
    case BeginUntil(x) => BackFine(w, m, k, x, true, p, exit, inLoop, b, q);
    case BeginAgain(x) => BackFine(w, m, k, x, false, p, exit, inLoop, b, q);
    case BeginWhile(x, y) => WhileFine(w, m, k, x, y, p, exit, inLoop, b, q);
    case DoLoop(query, x, plus) => DoFine(w, m, k, query, x, plus, p, exit, inLoop, b, q);
    case CaseOf(ch) => CaseFine(w, m, k, ch, p, exit, inLoop, b, q);
    case _ => LeafFine(w, m, k, s, p, exit, inLoop, b, q);
  }

  lemma {:induction false} CaseFine(w: World, m: Image, k: nat, ch: Chain, p: nat, exit: nat, inLoop: bool, b: Shape,
                                    q: nat)
    requires k < |w.defs| && Placed(w, m, k, CaseOf(ch), p, exit, inLoop) && Tame(CaseOf(ch), inLoop)
    requires Agrees(w, k, CaseOf(ch), p, b) && Leavable(w, k, exit, inLoop, b) && (!inLoop ==> b == [])
    requires p <= q < p + Size(CaseOf(ch)) && PointAt(w, k, CaseOf(ch), p, q, b).Some?
    ensures Fine(w, m, k, q, PointAt(w, k, CaseOf(ch), p, q, b).value)
    decreases CaseOf(ch), 0
  {
    hide Placed, ChainPlaced, Agrees, ChainAgrees, Fine, Size, ChainSize, PointAt, ChainPointAt, Leavable;
    CasePlaced(w, m, k, ch, p, exit, inLoop);
    CaseAgrees(w, k, ch, p, b);
    CasePoint(w, k, ch, p, q, b);
    ChainFine(w, m, k, ch, p, exit, p + ChainSize(ch), inLoop, b, q);
  }

  lemma CasePoint(w: World, k: nat, ch: Chain, p: nat, q: nat, b: Shape)
    requires k < |w.defs|
    ensures PointAt(w, k, CaseOf(ch), p, q, b) == ChainPointAt(w, k, ch, p, q, b) && Size(CaseOf(ch)) == ChainSize(ch)
  {
    hide ChainSize, ChainPointAt;
  }

  /** A jump whose target is known. */
  lemma JumpsFine(w: World, m: Image, k: nat, q: nat, op: Byte, t: nat, b: Shape)
    requires k < |w.defs| && t <= |m.bytes| && JumpAt(m.bytes, q, op, t) && To(w, k, t, b)
    ensures JumpFine(w, m, k, q, op, b)
  {
  }

  lemma LeafFine(w: World, m: Image, k: nat, s: Stmt, p: nat, exit: nat, inLoop: bool, b: Shape, q: nat)
    requires k < |w.defs| && Placed(w, m, k, s, p, exit, inLoop) && Tame(s, inLoop) && Agrees(w, k, s, p, b)
    requires Leavable(w, k, exit, inLoop, b) && (!inLoop ==> b == [])
    requires s.Word? || s.Lit? || s.Call? || s.SelfCall? || s.Return? || s.DropLoop? || s.LeaveLoop?
    requires p <= q < p + Size(s) && PointAt(w, k, s, p, q, b).Some?
    ensures Fine(w, m, k, q, PointAt(w, k, s, p, q, b).value)
  {
    hide ImageOf, DefPoint;
    AgreesEnd(w, k, s, p, b);
    SizeOf(s);
    LayoutOf(Env(w), m.bytes, s, p);
    if s.SelfCall? {
      RecsOf(s, p);
      SelfFine(w, m, k, p, b);
      assert DefPoint(w, k, p + 5) == PointAt(w, k, s, p, p + 5, b);
    } else if s.LeaveLoop? {
      LeavesOf(s, p);
      AllToOne(m.bytes, p + 2, exit);
      if q == p + 1 { JumpsFine(w, m, k, p + 1, OP_JMP, exit, b[3..]); }
      if q == p { assert DefPoint(w, k, p + 1) == PointAt(w, k, s, p, p + 1, b); }
    } else if s.Call? {
      assert Operand(m.bytes, p) == w.defs[s.k].cfa;
    }
  }

  lemma SelfFine(w: World, m: Image, k: nat, p: nat, b: Shape)
    requires SelfCalls(m, [p + 1])
    ensures p + 5 <= |m.bytes| && Operand(m.bytes, p) == m.base
  {
    hide Operand;
    assert p + 1 in [p + 1];
  }

  lemma {:induction false} SeqFine(w: World, m: Image, k: nat, x: Stmt, y: Stmt, p: nat, exit: nat, inLoop: bool,
                                   b: Shape,
                                  q: nat)
    requires k < |w.defs| && Placed(w, m, k, Seq(x, y), p, exit, inLoop) && Tame(Seq(x, y), inLoop)
             && Agrees(w, k, Seq(x, y), p, b)
    requires Leavable(w, k, exit, inLoop, b) && (!inLoop ==> b == [])
    requires p <= q < p + Size(Seq(x, y)) && PointAt(w, k, Seq(x, y), p, q, b).Some?
    ensures Fine(w, m, k, q, PointAt(w, k, Seq(x, y), p, q, b).value)
    decreases Seq(x, y), 0
  {
    hide Placed, Agrees, Fine, Size, PointAt, Leavable;
    SeqPlaced(w, m, k, x, y, p, exit, inLoop);
    SeqAgrees(w, k, x, y, p, b);
    SeqParts(w, k, x, y, p, b);
    if q < p + Size(x) {
      AllFine(w, m, k, x, p, exit, inLoop, b, q);
    } else {
      AllFine(w, m, k, y, p + Size(x), exit, inLoop, b, q);
    }
  }

  lemma {:induction false} IfFine(w: World, m: Image, k: nat, x: Stmt, p: nat, exit: nat, inLoop: bool, b: Shape,
                                  q: nat)
    requires k < |w.defs| && Placed(w, m, k, IfThen(x), p, exit, inLoop) && Tame(IfThen(x), inLoop)
             && Agrees(w, k, IfThen(x), p, b)
    requires Leavable(w, k, exit, inLoop, b) && (!inLoop ==> b == [])
    requires p <= q < p + Size(IfThen(x)) && PointAt(w, k, IfThen(x), p, q, b).Some?
    ensures Fine(w, m, k, q, PointAt(w, k, IfThen(x), p, q, b).value)
    decreases IfThen(x), 0
  {
    hide Placed, Agrees, Fine, Size, DefPoint, Leavable, JumpAt;
    SizeOf(IfThen(x));
    IfPlaced(w, m, k, x, p, exit, inLoop);
    IfAgrees(w, k, x, p, b);
    AgreesEnd(w, k, IfThen(x), p, b);
    if q >= p + 5 {
      AllFine(w, m, k, x, p + 5, exit, inLoop, b, q);
    } else {
      StartsPlain(w, k, x, p + 5, b);
      JumpsFine(w, m, k, p, OP_JZ, p + 5 + Size(x), b);
      JzFine(w, m, k, p, p + 5 + Size(x), b);
    }
  }

  lemma JzFine(w: World, m: Image, k: nat, q: nat, t: nat, b: Shape)
    requires k < |w.defs| && t <= |m.bytes| && JumpAt(m.bytes, q, OP_JZ, t) && To(w, k, t, b) && To(w, k, q + 5, b)
    ensures Fine(w, m, k, q, Point(b, false))
  {
    hide DefPoint;
    JumpsFine(w, m, k, q, OP_JZ, t, b);
  }

  lemma JmpFine(w: World, m: Image, k: nat, q: nat, t: nat, b: Shape)
    requires k < |w.defs| && t <= |m.bytes| && JumpAt(m.bytes, q, OP_JMP, t) && To(w, k, t, b)
    ensures Fine(w, m, k, q, Point(b, false))
  {
    hide DefPoint;
    JumpsFine(w, m, k, q, OP_JMP, t, b);
  }

  lemma WordFine(w: World, m: Image, k: nat, q: nat, op: Byte, b: Shape)
    requires k < |w.defs| && ByteAt(m.bytes, q, op) && Gentle(op) && To(w, k, q + 1, b)
    ensures Fine(w, m, k, q, Point(b, false))
  {
    hide DefPoint;
  }

  lemma IfElseIs(w: World, k: nat, x: Stmt, y: Stmt, p: nat, q: nat, b: Shape)
    requires k < |w.defs| && PointAt(w, k, IfThenElse(x, y), p, q, b).Some? && p <= q
    ensures var o := PointAt(w, k, IfThenElse(x, y), p, q, b); var n := p + 5 + Size(x);
            if q == p || q == n then o == Plain(b)
            else if q < n then q >= p + 5 && o == PointAt(w, k, x, p + 5, q, b)
            else q >= n + 5 && o == PointAt(w, k, y, n + 5, q, b)
  {
    hide Size;
  }

  lemma WhileIs(w: World, k: nat, x: Stmt, y: Stmt, p: nat, q: nat, b: Shape)
    requires k < |w.defs| && PointAt(w, k, BeginWhile(x, y), p, q, b).Some? && p <= q
    ensures var o := PointAt(w, k, BeginWhile(x, y), p, q, b); var n := p + Size(x); var r := n + 5 + Size(y);
            if q == n || q == r then o == Plain(b)
            else if q < n then o == PointAt(w, k, x, p, q, b)
            else n + 5 <= q < r && o == PointAt(w, k, y, n + 5, q, b)
  {
    hide Size;
  }

  lemma DoIs(w: World, k: nat, query: bool, x: Stmt, plus: bool, p: nat, q: nat, b: Shape)
    requires k < |w.defs| && PointAt(w, k, DoLoop(query, x, plus), p, q, b).Some? && p <= q
    ensures var o := PointAt(w, k, DoLoop(query, x, plus), p, q, b); var n := p + DoSize(query); var e := n + Size(x);
            if q < n then o == DoPoint(query, p, q, b)
            else if q < e then o == PointAt(w, k, x, n, q, InLoop(w, k, n, b))
            else q == e && o == Plain(InLoop(w, k, n, b))
  {
    hide Size, DoPoint, Address;
  }

  lemma {:induction false} IfElseFine(w: World, m: Image, k: nat, x: Stmt, y: Stmt, p: nat, exit: nat, inLoop: bool,
                                     b: Shape, q: nat)
    requires var s := IfThenElse(x, y);
             k < |w.defs| && Placed(w, m, k, s, p, exit, inLoop) && Tame(s, inLoop) && Agrees(w, k, s, p, b)
    requires Leavable(w, k, exit, inLoop, b) && (!inLoop ==> b == [])
    requires p <= q < p + Size(IfThenElse(x, y)) && PointAt(w, k, IfThenElse(x, y), p, q, b).Some?
    ensures Fine(w, m, k, q, PointAt(w, k, IfThenElse(x, y), p, q, b).value)
    decreases IfThenElse(x, y), 0
  {
    hide Placed, Agrees, Fine, Size, DefPoint, Leavable, JumpAt, PointAt;
    var s := IfThenElse(x, y);
    var n := p + 5 + Size(x);
    SizeOf(s);
    IfElseIs(w, k, x, y, p, q, b);
    IfElsePlaced(w, m, k, x, y, p, exit, inLoop);
    IfElseAgrees(w, k, x, y, p, b);
    AgreesEnd(w, k, s, p, b);
    if q == p {
      StartsPlain(w, k, x, p + 5, b);
      StartsPlain(w, k, y, n + 5, b);
      JzFine(w, m, k, p, n + 5, b);
    } else if q < n {
      AllFine(w, m, k, x, p + 5, exit, inLoop, b, q);
    } else if q == n {
      JmpFine(w, m, k, n, n + 5 + Size(y), b);
    } else {
      AllFine(w, m, k, y, n + 5, exit, inLoop, b, q);
    }
  }

  lemma {:induction false} BackFine(w: World, m: Image, k: nat, x: Stmt, until: bool, p: nat, exit: nat, inLoop: bool,
                                   b: Shape, q: nat)
    requires var s := if until then BeginUntil(x) else BeginAgain(x);
             && k < |w.defs| && Placed(w, m, k, s, p, exit, inLoop) && Tame(s, inLoop) && Agrees(w, k, s, p, b)
             && p <= q < p + Size(s) && PointAt(w, k, s, p, q, b).Some?
    requires Leavable(w, k, exit, inLoop, b) && (!inLoop ==> b == [])
    ensures Fine(w, m, k, q, PointAt(w, k, if until then BeginUntil(x) else BeginAgain(x), p, q, b).value)
    decreases if until then BeginUntil(x) else BeginAgain(x), 0
  {
    hide Placed, Agrees, Fine, Size, DefPoint, Leavable, JumpAt;
    var s := if until then BeginUntil(x) else BeginAgain(x);
    SizeOf(s);
    BackPlaced(w, m, k, x, until, p, exit, inLoop);
    BackAgrees(w, k, x, until, p, b);
    AgreesEnd(w, k, s, p, b);
    if q < p + Size(x) {
      AllFine(w, m, k, x, p, exit, inLoop, b, q);
    } else {
      StartsPlain(w, k, s, p, b);
      if until { JzFine(w, m, k, q, p, b); } else { JmpFine(w, m, k, q, p, b); }
    }
  }

  lemma {:induction false} WhileFine(w: World, m: Image, k: nat, x: Stmt, y: Stmt, p: nat, exit: nat, inLoop: bool,
                                    b: Shape, q: nat)
    requires var s := BeginWhile(x, y);
             k < |w.defs| && Placed(w, m, k, s, p, exit, inLoop) && Tame(s, inLoop) && Agrees(w, k, s, p, b)
    requires Leavable(w, k, exit, inLoop, b) && (!inLoop ==> b == [])
    requires p <= q < p + Size(BeginWhile(x, y)) && PointAt(w, k, BeginWhile(x, y), p, q, b).Some?
    ensures Fine(w, m, k, q, PointAt(w, k, BeginWhile(x, y), p, q, b).value)
    decreases BeginWhile(x, y), 0
  {
    hide Placed, Agrees, Fine, Size, DefPoint, Leavable, JumpAt, PointAt;
    var s := BeginWhile(x, y);
    var n := p + Size(x);
    var r := n + 5 + Size(y);
    SizeOf(s);
    WhileIs(w, k, x, y, p, q, b);
    WhilePlaced(w, m, k, x, y, p, exit, inLoop);
    WhileAgrees(w, k, x, y, p, b);
    AgreesEnd(w, k, s, p, b);
    if q < n {
      AllFine(w, m, k, x, p, exit, inLoop, b, q);
    } else if q == n {
      StartsPlain(w, k, y, n + 5, b);
      JzFine(w, m, k, n, r + 5, b);
    } else if q < r {
      AllFine(w, m, k, y, n + 5, exit, inLoop, b, q);
    } else {
      StartsPlain(w, k, s, p, b);
      JmpFine(w, m, k, r, p, b);
    }
  }

  lemma {:induction false} DoFine(w: World, m: Image, k: nat, query: bool, x: Stmt, plus: bool, p: nat, exit: nat,
                                 inLoop: bool, b: Shape, q: nat)
    requires var s := DoLoop(query, x, plus);
             && k < |w.defs| && Placed(w, m, k, s, p, exit, inLoop) && Tame(s, inLoop) && Agrees(w, k, s, p, b)
             && p <= q < p + Size(s) && PointAt(w, k, s, p, q, b).Some?
    ensures Fine(w, m, k, q, PointAt(w, k, DoLoop(query, x, plus), p, q, b).value)
    decreases DoLoop(query, x, plus), 0
  {
    hide Placed, Agrees, Fine, Size, DefPoint, Leavable, Address, DoPoint, DoLayout, QueryLayout, ByteAt, PointAt;
    var s := DoLoop(query, x, plus);
    var n := p + DoSize(query);
    var e := n + Size(x);
    SizeOf(s);
    DoIs(w, k, query, x, plus, p, q, b);
    DoPlaced(w, m, k, query, x, plus, p, exit, inLoop);
    DoAgrees(w, k, query, x, plus, p, b);
    AgreesEnd(w, k, s, p, b);
    var l := InLoop(w, k, n, b);
    assert l[3..] == b;
    StartsPlain(w, k, x, n, l);
    if q < n {
      PrologFine(w, m, k, query, p, e + 1, b, q);
    } else if q < e {
      IsLeavable(w, k, e + 1, l);
      AllFine(w, m, k, x, n, e + 1, true, l, q);
    } else {
      LoopsFine(w, m, k, plus, n, e, l, b);
    }
  }

  lemma IsLeavable(w: World, k: nat, exit: nat, b: Shape)
    requires k < |w.defs| && |b| >= 3 && To(w, k, exit, b[3..])
    ensures Leavable(w, k, exit, true, b)
  {
  }

  lemma LoopsFine(w: World, m: Image, k: nat, plus: bool, n: nat, e: nat, l: Shape, b: Shape)
    requires k < |w.defs| && n >= 1 && l == InLoop(w, k, n, b) && To(w, k, n, l)
    requires ByteAt(m.bytes, e, LoopOp(plus)) && To(w, k, e + 1, b)
    ensures Fine(w, m, k, e, Point(l, false))
  {
    hide DefPoint, Address;
    assert l[3..] == b;
    assert LoopFine(w, k, l);
  }

  lemma PrologFine(w: World, m: Image, k: nat, query: bool, p: nat, end: nat, b: Shape, q: nat)
    requires k < |w.defs|
    requires var n := p + DoSize(query);
             && p <= q < n && end <= |m.bytes| && DoLayout(m.bytes, n - 3) && (query ==> QueryLayout(m.bytes, p, end))
             && To(w, k, n, InLoop(w, k, n, b)) && To(w, k, end, b)
             && (forall r: nat | p <= r < n :: DefPoint(w, k, r) == DoPoint(query, p, r, b))
    requires DoPoint(query, p, q, b).Some?
    ensures Fine(w, m, k, q, DoPoint(query, p, q, b).value)
  {
    hide DefPoint, Address, JumpAt;
    var n := p + DoSize(query);
    if q >= n - 3 {
      assert DefPoint(w, k, n - 2) == DoPoint(query, p, n - 2, b) && DefPoint(w, k, n - 1) == DoPoint(query, p, n - 1,
          b);
      assert [None] + ([None] + b) == [None, None] + b;
      assert [Some(Address(w, k, n - 1))] + ([None, None] + b) == InLoop(w, k, n, b);
    } else {
      assert DefPoint(w, k, p + 1) == DoPoint(query, p, p + 1, b);
      assert DefPoint(w, k, p + 2) == DoPoint(query, p, p + 2, b) && DefPoint(w, k, p + 7) == DoPoint(query, p, p + 7,
          b);
      assert DefPoint(w, k, p + 8) == DoPoint(query, p, p + 8, b)
        && DefPoint(w, k, p + 13) == DoPoint(query, p, p + 13, b);
      if q == p { WordFine(w, m, k, p, OP_2DUP, b); }
      else if q == p + 1 { WordFine(w, m, k, p + 1, OP_EQ, b); }
      else if q == p + 2 { JzFine(w, m, k, p + 2, p + 13, b); }
      else if q == p + 7 { WordFine(w, m, k, p + 7, OP_2DROP, b); }
      else { JmpFine(w, m, k, p + 8, end, b); }
    }
  }

  lemma {:induction false} ChainFine(w: World, m: Image, k: nat, ch: Chain, p: nat, exit: nat, end: nat, inLoop: bool,
                                    b: Shape, q: nat)
    requires k < |w.defs| && ChainPlaced(w, m, k, ch, p, exit, end, inLoop) && ChainTame(ch, inLoop)
             && ChainAgrees(w, k, ch, p, b)
    requires Leavable(w, k, exit, inLoop, b) && (!inLoop ==> b == [])
    requires p <= q < p + ChainSize(ch) && ChainPointAt(w, k, ch, p, q, b).Some?
    ensures Fine(w, m, k, q, ChainPointAt(w, k, ch, p, q, b).value)
    decreases ch, 1
  {
    hide Placed, ChainPlaced, Agrees, ChainAgrees, Fine, Size, ChainSize, DefPoint, Leavable, JumpAt, PointAt;
    match ch
    case Default(x) =>
      ChainSizeOf(ch);
      DefaultPlaced(w, m, k, x, p, exit, end, inLoop);
      DefaultAgrees(w, k, x, p, b);
      ChainEnd(w, k, ch, p, b);
      if q < p + Size(x) {
        AllFine(w, m, k, x, p, exit, inLoop, b, q);
      } else {
        WordFine(w, m, k, q, OP_DROP, b);
      }
    case OfClause(t, x, rest) => ClauseFine(w, m, k, t, x, rest, p, exit, end, inLoop, b, q);
  }

  lemma ChainEnd(w: World, k: nat, ch: Chain, p: nat, b: Shape)
    requires k < |w.defs| && ChainAgrees(w, k, ch, p, b)
    ensures To(w, k, p + ChainSize(ch), b)
  {
  }

  lemma {:induction false} ClauseFine(w: World, m: Image, k: nat, t: Stmt, x: Stmt, rest: Chain, p: nat, exit: nat,
                                     end: nat, inLoop: bool, b: Shape, q: nat)
    requires var ch := OfClause(t, x, rest);
             && k < |w.defs| && ChainPlaced(w, m, k, ch, p, exit, end, inLoop) && ChainTame(ch, inLoop)
             && ChainAgrees(w, k, ch, p, b)
             && p <= q < p + ChainSize(ch) && ChainPointAt(w, k, ch, p, q, b).Some?
    requires Leavable(w, k, exit, inLoop, b) && (!inLoop ==> b == [])
    ensures Fine(w, m, k, q, ChainPointAt(w, k, OfClause(t, x, rest), p, q, b).value)
    decreases OfClause(t, x, rest), 0
  {
    hide Placed, ChainPlaced, Agrees, ChainAgrees, Fine, Size, ChainSize, DefPoint, Leavable, JumpAt, PointAt, ByteAt,
      OfLayout;
    var ch := OfClause(t, x, rest);
    var n := p + Size(t);
    var r := n + 8 + Size(x);
    ChainSizeOf(ch);
    ClausePlaced(w, m, k, t, x, rest, p, exit, end, inLoop);
    ClauseAgrees(w, k, t, x, rest, p, b);
    PlacedInside(w, m, k, ch, p, exit, end, inLoop);
    if q < n {
      AllFine(w, m, k, t, p, exit, inLoop, b, q);
    } else if q < n + 8 {
      StartsPlain(w, k, x, n + 8, b);
      OfFine(w, m, k, n, r + 5, b, q);
    } else if q < r {
      AllFine(w, m, k, x, n + 8, exit, inLoop, b, q);
    } else if q == r {
      JmpFine(w, m, k, r, end, b);
    } else {
      ChainFine(w, m, k, rest, r + 5, exit, end, inLoop, b, q);
    }
  }

  lemma PlacedInside(w: World, m: Image, k: nat, ch: Chain, p: nat, exit: nat, end: nat, inLoop: bool)
    requires k < |w.defs| && ChainPlaced(w, m, k, ch, p, exit, end, inLoop)
    ensures end == p + ChainSize(ch) && end <= |m.bytes|
  {
  }

  lemma OfFine(w: World, m: Image, k: nat, n: nat, next: nat, b: Shape, q: nat)
    requires k < |w.defs| && OfLayout(m.bytes, n, next) && next <= |m.bytes|
    requires To(w, k, n + 1, b) && To(w, k, n + 2, b) && To(w, k, n + 7, b) && To(w, k, n + 8, b) && To(w, k, next, b)
    requires q == n || q == n + 1 || q == n + 2 || q == n + 7
    ensures Fine(w, m, k, q, Point(b, false))
  {
    hide DefPoint, JumpAt, Fine;
    if q == n { WordFine(w, m, k, n, OP_OVER, b); }
    else if q == n + 1 { WordFine(w, m, k, n + 1, OP_EQ, b); }
    else if q == n + 2 { JzFine(w, m, k, n + 2, next, b); }
    else { WordFine(w, m, k, n + 7, OP_DROP, b); }
  }

  /** Every definition is tame. */
  ghost predicate AllTame(w: World) {
    forall k | 0 <= k < |w.defs| :: Tame(w.defs[k].body, false)
  }

  lemma DefFine(w: World, code: map<Cell, Byte>, k: nat, q: nat)
    requires Loaded(w, code) && AllTame(w) && k < |w.defs| && DefPoint(w, k, q).Some?
    ensures Fine(w, ImageOf(w, code, k), k, q, DefPoint(w, k, q).value)
  {
    hide Loaded, Placed, Size, PointAt, ImageOf, Tame;
    BodyPlaced(w, code, k);
    var body := w.defs[k].body;
    var m := ImageOf(w, code, k);
    assert Agrees(w, k, body, 0, []);
    assert Leavable(w, k, 0, false, []);
    if q < Size(body) {
      AllFine(w, m, k, body, 0, 0, false, [], q);
    } else {
      EndFine(w, code, k, q);
    }
  }

  lemma EndFine(w: World, code: map<Cell, Byte>, k: nat, q: nat)
    requires k < |w.defs| && q == Size(w.defs[k].body) && ByteAt(BytesOf(w, k), q, OP_RET)
    ensures Fine(w, ImageOf(w, code, k), k, q, Point([], false))
  {
    hide Size, BytesOf;
  }

  // ----- the machine -----

  /** The cells on top are addresses with their types where the shape says so. */
  predicate Fits(b: Shape, rs: seq<Cell>, rts: seq<Byte>) {
    && |b| <= |rs| == |rts|
    && forall i | 0 <= i < |b| :: b[i].Some? ==> rs[i] == b[i].value && rts[i] == OP_ADDR
  }

  /**
   * Below a definition's own cells there is nothing of this run, or a return address to a point of a
   * caller, and so on.
   */
  ghost predicate Backed(w: World, rs: seq<Cell>, rts: seq<Byte>)
    decreases |rs|, 0
  {
    |rs| == |rts| &&
    (|rs| <= w.entry
     || (rs != [] && rts[0] == OP_ADDR
         && exists k: nat, q: nat ::
              k < |w.defs| && BackTo(w, k, q, rs) && Frame(w, DefPoint(w, k, q).value.shape, rs[1..], rts[1..])))
  }

  /** The return address leads to offset q of definition k. */
  ghost predicate BackTo(w: World, k: nat, q: nat, rs: seq<Cell>)
    requires k < |w.defs| && rs != []
  {
    AfterTop(rs) == Address(w, k, q) && DefPoint(w, k, q).Some? && !DefPoint(w, k, q).value.self
  }

  ghost predicate Frame(w: World, b: Shape, rs: seq<Cell>, rts: seq<Byte>)
    decreases |rs|, 1
  {
    Fits(b, rs, rts) && Backed(w, rs[|b|..], rts[|b|..])
  }

  /** The machine stands at offset q of definition k. */
  ghost predicate Stands(w: World, k: nat, q: nat, d: TData) {
    && k < |w.defs| && DefPoint(w, k, q).Some? && Typed(d)
    && Frame(w, DefPoint(w, k, q).value.shape, d.v.rs, d.rts)
    && (DefPoint(w, k, q).value.self ==> d.v.ds != [] && d.v.ds[0] == w.defs[k].cfa)
  }

  /** A run that goes on stands at a point of a definition. */
  ghost predicate OnPoint(w: World, t: TStatus) {
    t.TRunning? ==> exists k: nat, q: nat :: k < |w.defs| && t.ip == Address(w, k, q) && Stands(w, k, q, t.d)
  }

  ghost predicate Good(w: World, t: TStatus) {
    !TestFailed(t) && OnPoint(w, t)
  }

  // ----- one instruction -----

  lemma ArrivesAt(w: World, k: nat, q: nat, b: Shape, ip: Cell, d: TData)
    requires k < |w.defs| && To(w, k, q, b) && ip == Address(w, k, q) && Typed(d) && Frame(w, b, d.v.rs, d.rts)
    ensures Good(w, TRunning(ip, d))
  {
    hide DefPoint, Address, Frame, Typed;
    assert Stands(w, k, q, d);
  }

  /** Another definition is called from before offset q. */
  lemma CallBacked(w: World, k: nat, q: nat, b: Shape, a: Cell, rs: seq<Cell>, rts: seq<Byte>)
    requires k < |w.defs| && To(w, k, q, b) && AfterTop([a]) == Address(w, k, q) && Frame(w, b, rs, rts)
             && |rs| == |rts|
    ensures Frame(w, [], [a] + rs, [OP_ADDR] + rts)
  {
    hide DefPoint, Address;
    var (rs', rts') := ([a] + rs, [OP_ADDR] + rts);
    assert rs'[1..] == rs && rts'[1..] == rts;
    assert BackTo(w, k, q, rs');
    assert Backed(w, rs', rts');
    assert rs'[0..] == rs' && rts'[0..] == rts';
  }

  lemma StartsDef(w: World, k: nat)
    requires k < |w.defs|
    ensures To(w, k, 0, [])
  {
    hide Size, PointAt;
    if Size(w.defs[k].body) > 0 { StartPoint(w, k, w.defs[k].body, 0, []); }
  }

  /** A definition is entered with a return address to offset q. */
  lemma EntersDef(w: World, code: map<Cell, Byte>, j: nat, k: nat, q: nat, b: Shape, a: Cell, d: TData)
    requires Loaded(w, code) && j < |w.defs| && k < |w.defs| && To(w, k, q, b) && AfterTop([a]) == Address(w, k, q)
    requires Typed(d) && Frame(w, b, d.v.rs, d.rts)
    ensures Typed(PushAddress(d, a)) ==> Good(w, TRunning(w.defs[j].cfa, PushAddress(d, a)))
  {
    hide DefPoint, Address, Frame, Loaded, AfterTop;
    CallBacked(w, k, q, b, a, d.v.rs, d.rts);
    StartsDef(w, j);
    CfaIs(w, code, j);
    if Typed(PushAddress(d, a)) { ArrivesAt(w, j, 0, [], w.defs[j].cfa, PushAddress(d, a)); }
  }

  lemma CfaIs(w: World, code: map<Cell, Byte>, j: nat)
    requires Loaded(w, code) && j < |w.defs|
    ensures Address(w, j, 0) == w.defs[j].cfa
  {
  }

  /** More cells, and their types, with a shape that says nothing false of them. */
  lemma FrameMore(w: World, e: Shape, b: Shape, rs: seq<Cell>, rts: seq<Byte>, x: seq<Cell>, y: seq<Byte>)
    requires Frame(w, b, rs, rts) && |e| == |x| == |y|
    requires forall i | 0 <= i < |e| :: e[i].Some? ==> x[i] == e[i].value && y[i] == OP_ADDR
    ensures Frame(w, e + b, x + rs, y + rts)
  {
    hide Backed;
    assert (x + rs)[|e + b|..] == rs[|b|..] && (y + rts)[|e + b|..] == rts[|b|..];
  }

  /** Fewer cells. */
  lemma FrameLess(w: World, b: Shape, n: nat, rs: seq<Cell>, rts: seq<Byte>)
    requires Frame(w, b, rs, rts) && n <= |b|
    ensures Frame(w, b[n..], rs[n..], rts[n..])
  {
    hide Backed;
    assert rs[n..][|b[n..]|..] == rs[|b|..] && rts[n..][|b[n..]|..] == rts[|b|..];
  }

  /** A cell of which the shape says nothing is changed. */
  lemma FrameChanged(w: World, b: Shape, i: nat, v: Cell, rs: seq<Cell>, rts: seq<Byte>)
    requires Frame(w, b, rs, rts) && i < |b| && b[i].None?
    ensures Frame(w, b, rs[i := v], rts)
  {
    hide Backed;
    assert rs[i := v][|b|..] == rs[|b|..];
  }

  /** A gentle word does not fail, and leaves the return stack alone. */
  lemma GentleKeeps(op: Byte, d: TData)
    requires Typed(d) && Gentle(op)
    ensures !TPerform(op, d).TFail?
    ensures TPerform(op, d).TNext? ==> TPerform(op, d).d.v.rs == d.v.rs && TPerform(op, d).d.rts == d.rts
  {
    hide AndType, And, Flag, Signed, Wrap, Fetch, Store, Combine;
  }

  /** The instruction at offset q of definition k, as the machine finds it. */
  lemma Here(w: World, code: map<Cell, Byte>, k: nat, q: nat)
    requires Loaded(w, code) && k < |w.defs| && q < |BytesOf(w, k)|
    ensures var (at, bytes) := (Address(w, k, q), BytesOf(w, k));
            && at in code && code[at] == bytes[q] && AfterTop([at]) == Address(w, k, q + 1)
            && (q + 5 <= |bytes| ==>
                 && HasOperand(code, at) && OperandAt(code, at) == Operand(bytes, q)
                 && Wrap((at as int) + 5) == Address(w, k, q + 5) && AfterTop([Wrap((at as int) + 4)]) == Address(w,
                     k, q + 5))
  {
    hide BytesOf, Operand, OperandAt, Legal, Size;
    assert DefLoaded(w, code, k);
    var m := ImageOf(w, code, k);
    var d := Data([], [], map[]);
    OpcodeAt(m, q, d);
    if q + 5 <= |BytesOf(w, k)| { CellOperandAt(m, q, d); }
  }

  /** A jump from q to t. */
  lemma JumpsTo(w: World, code: map<Cell, Byte>, k: nat, q: nat, op: Byte, t: nat)
    requires Loaded(w, code) && k < |w.defs| && JumpAt(BytesOf(w, k), q, op, t) && t <= |BytesOf(w, k)|
    ensures q + 5 <= |BytesOf(w, k)|
    ensures Wrap((Address(w, k, q) as int) + Operand(BytesOf(w, k), q)) == Address(w, k, t)
  {
    hide BytesOf, Operand, Legal, Size;
    assert DefLoaded(w, code, k);
    WrapDistance(w.defs[k].cfa, q, t);
  }

  /** The status after one instruction, where the invariant of types is kept. */
  lemma StepKeepsTyped(w: World, code: map<Cell, Byte>, at: Cell, d: TData)
    requires Typed(d)
    ensures var t := TStep(code, w.entry, at, d); t.TRunning? ==> Typed(t.d)
  {
    hide TStep, Step;
    StepAgrees(code, w.entry, at, d);
  }

  lemma JumpGood(w: World, code: map<Cell, Byte>, k: nat, q: nat, b: Shape, d: TData, op: Byte)
    requires Loaded(w, code) && k < |w.defs| && q < |BytesOf(w, k)| && BytesOf(w, k)[q] == op
             && (op == OP_JMP || op == OP_JZ)
    requires JumpFine(w, ImageOf(w, code, k), k, q, op, b)
             && (op == OP_JZ ==> q + 5 <= |BytesOf(w, k)| && To(w, k, q + 5, b))
    requires Typed(d) && Frame(w, b, d.v.rs, d.rts)
    ensures Good(w, TStep(code, w.entry, Address(w, k, q), d))
  {
    hide Loaded, BytesOf, DefPoint, Address, Frame, Typed, Operand, OperandAt, HasOperand, JumpAt, AfterTop, Wrap;
    var t: nat :| t <= |BytesOf(w, k)| && JumpAt(BytesOf(w, k), q, op, t) && To(w, k, t, b);
    var at := Address(w, k, q);
    Here(w, code, k, q);
    JumpsTo(w, code, k, q, op, t);
    StepKeepsTyped(w, code, at, d);
    var s := TStep(code, w.entry, at, d);
    if s.TRunning? {
      if s.ip == Address(w, k, t) { ArrivesAt(w, k, t, b, s.ip, s.d); } else { ArrivesAt(w, k, q + 5, b, s.ip, s.d); }
    }
  }

  lemma LiteralGood(w: World, code: map<Cell, Byte>, k: nat, q: nat, b: Shape, d: TData)
    requires Loaded(w, code) && k < |w.defs| && q + 5 <= |BytesOf(w, k)|
    requires if BytesOf(w, k)[q] == OP_IVAL then To(w, k, q + 5, b)
             else BytesOf(w, k)[q] == OP_ADDR && Operand(BytesOf(w, k), q) == w.defs[k].cfa
                  && DefPoint(w, k, q + 5) == Some(Point(b, true))
    requires Typed(d) && Frame(w, b, d.v.rs, d.rts)
    ensures Good(w, TStep(code, w.entry, Address(w, k, q), d))
  {
    hide Loaded, BytesOf, DefPoint, Address, Frame, Typed, Operand, OperandAt, HasOperand, AfterTop, Wrap;
    var at := Address(w, k, q);
    Here(w, code, k, q);
    StepKeepsTyped(w, code, at, d);
    var s := TStep(code, w.entry, at, d);
    assert s.TRunning? && s.ip == Address(w, k, q + 5) && s.d.v.rs == d.v.rs && s.d.rts == d.rts;
    assert Stands(w, k, q + 5, s.d);
  }

  lemma CallGood(w: World, code: map<Cell, Byte>, k: nat, q: nat, b: Shape, d: TData)
    requires Loaded(w, code) && k < |w.defs| && q + 5 <= |BytesOf(w, k)| && BytesOf(w, k)[q] == OP_DEFINITION
    requires CallFine(w, ImageOf(w, code, k), q) && To(w, k, q + 5, b) && Typed(d) && Frame(w, b, d.v.rs, d.rts)
    ensures Good(w, TStep(code, w.entry, Address(w, k, q), d))
  {
    hide Loaded, BytesOf, DefPoint, Address, Frame, Typed, Operand, OperandAt, HasOperand, AfterTop, Wrap;
    var j: nat :| j < |w.defs| && Operand(BytesOf(w, k), q) == w.defs[j].cfa;
    var at := Address(w, k, q);
    Here(w, code, k, q);
    StepKeepsTyped(w, code, at, d);
    EntersDef(w, code, j, k, q + 5, b, Wrap((at as int) + 4), d);
  }

  lemma ExecuteGood(w: World, code: map<Cell, Byte>, k: nat, q: nat, b: Shape, d: TData)
    requires Loaded(w, code) && k < |w.defs| && q < |BytesOf(w, k)| && BytesOf(w, k)[q] == OP_EXECUTE_BC
    requires To(w, k, q + 1, b) && Typed(d) && Frame(w, b, d.v.rs, d.rts) && d.v.ds != [] && d.v.ds[0] == w.defs[k].cfa
    ensures Good(w, TStep(code, w.entry, Address(w, k, q), d))
  {
    hide Loaded, BytesOf, DefPoint, Address, Frame, AfterTop;
    var at := Address(w, k, q);
    Here(w, code, k, q);
    StepKeepsTyped(w, code, at, d);
    var e := d.(v := d.v.(ds := d.v.ds[1..]), ts := d.ts[1..]);
    EntersDef(w, code, k, k, q + 1, b, at, e);
  }

  /** An instruction of one byte that goes on to the next with shape e. */
  lemma NextGood(w: World, code: map<Cell, Byte>, k: nat, q: nat, e: Shape, d: TData, f: TData)
    requires Loaded(w, code) && k < |w.defs| && q < |BytesOf(w, k)| && To(w, k, q + 1, e) && Typed(d)
    requires TStep(code, w.entry, Address(w, k, q), d) == TRunning(AfterTop([Address(w, k, q)]), f)
    requires Frame(w, e, f.v.rs, f.rts)
    ensures Good(w, TStep(code, w.entry, Address(w, k, q), d))
  {
    hide Loaded, BytesOf, DefPoint, Address, Frame, AfterTop, TStep, Typed;
    Here(w, code, k, q);
    StepKeepsTyped(w, code, Address(w, k, q), d);
    ArrivesAt(w, k, q + 1, e, AfterTop([Address(w, k, q)]), f);
  }

  lemma SaveGood(w: World, code: map<Cell, Byte>, k: nat, q: nat, b: Shape, d: TData, op: Byte)
    requires Loaded(w, code) && k < |w.defs| && q < |BytesOf(w, k)| && BytesOf(w, k)[q] == op
    requires if op == OP_PUSH then To(w, k, q + 1, [None] + b)
             else op == OP_PUSHIP && To(w, k, q + 1, [Some(Address(w, k, q))] + b)
    requires Typed(d) && Frame(w, b, d.v.rs, d.rts)
    ensures Good(w, TStep(code, w.entry, Address(w, k, q), d))
  {
    hide Loaded, BytesOf, DefPoint, Address, Frame, AfterTop;
    var at := Address(w, k, q);
    Here(w, code, k, q);
    var s := TStep(code, w.entry, at, d);
    if op == OP_PUSHIP {
      FrameMore(w, [Some(at)], b, d.v.rs, d.rts, [at], [OP_ADDR]);
      NextGood(w, code, k, q, [Some(at)] + b, d, s.d);
    } else if d.v.ds != [] {
      FrameMore(w, [None], b, d.v.rs, d.rts, [d.v.ds[0]], [d.ts[0]]);
      NextGood(w, code, k, q, [None] + b, d, s.d);
    }
  }

  lemma UnloopGood(w: World, code: map<Cell, Byte>, k: nat, q: nat, b: Shape, d: TData)
    requires Loaded(w, code) && k < |w.defs| && q < |BytesOf(w, k)| && BytesOf(w, k)[q] == OP_UNLOOP
    requires |b| >= 3 && To(w, k, q + 1, b[3..]) && Typed(d) && Frame(w, b, d.v.rs, d.rts)
    ensures Good(w, TStep(code, w.entry, Address(w, k, q), d))
  {
    hide Loaded, BytesOf, DefPoint, Address, AfterTop, Backed;
    Here(w, code, k, q);
    var s := TStep(code, w.entry, Address(w, k, q), d);
    FrameLess(w, b, 3, d.v.rs, d.rts);
    NextGood(w, code, k, q, b[3..], d, s.d);
  }

  lemma LoopGood(w: World, code: map<Cell, Byte>, k: nat, q: nat, b: Shape, d: TData, plus: bool)
    requires Loaded(w, code) && k < |w.defs| && q < |BytesOf(w, k)| && BytesOf(w, k)[q] == LoopOp(plus)
    requires LoopFine(w, k, b) && To(w, k, q + 1, b[3..]) && Typed(d) && Frame(w, b, d.v.rs, d.rts)
    ensures Good(w, TStep(code, w.entry, Address(w, k, q), d))
  {
    hide Loaded, BytesOf, DefPoint, Address, AfterTop, Backed, PlusLoopEnds, LoopEnds, Wrap;
    var at := Address(w, k, q);
    Here(w, code, k, q);
    StepKeepsTyped(w, code, at, d);
    var s := TStep(code, w.entry, at, d);
    var t: nat :| t >= 1 && |b| >= 3 && b[0] == Some(Address(w, k, t - 1)) && b[2].None? && To(w, k, t, b);
    FrameLess(w, b, 3, d.v.rs, d.rts);
    if s.TRunning? {
      LoopLeads(w, code, at, d, plus);
      if s.d.rts == d.rts {
        FrameChanged(w, b, 2, s.d.v.rs[2], d.v.rs, d.rts);
        BehindStart(w, k, t, d.v.rs);
        ArrivesAt(w, k, t, b, s.ip, s.d);
      } else {
        NextGood(w, code, k, q, b[3..], d, s.d);
      }
    }
  }

  /** LOOP and +LOOP go round, with another index, or on, without the loop. */
  lemma LoopLeads(w: World, code: map<Cell, Byte>, at: Cell, d: TData, plus: bool)
    requires at in code && code[at] == LoopOp(plus) && Typed(d) && TStep(code, w.entry, at, d).TRunning?
    ensures var s := TStep(code, w.entry, at, d);
            && |d.v.rs| >= 3
            && if s.d.rts == d.rts then s.ip == AfterTop(d.v.rs) && s.d.v.rs == d.v.rs[2 := s.d.v.rs[2]]
               else s.ip == AfterTop([at]) && s.d.v.rs == d.v.rs[3..] && s.d.rts == d.rts[3..]
  {
    hide AfterTop, PlusLoopEnds, LoopEnds, Wrap;
    assert |d.rts[3..]| != |d.rts|;
  }

  lemma BehindStart(w: World, k: nat, t: nat, rs: seq<Cell>)
    requires k < |w.defs| && t >= 1 && rs != [] && rs[0] == Address(w, k, t - 1)
    ensures AfterTop(rs) == Address(w, k, t)
  {
  }

  lemma ReturnGood(w: World, code: map<Cell, Byte>, k: nat, q: nat, d: TData)
    requires Loaded(w, code) && k < |w.defs| && q < |BytesOf(w, k)| && BytesOf(w, k)[q] == OP_RET
    requires Typed(d) && Frame(w, [], d.v.rs, d.rts)
    ensures Good(w, TStep(code, w.entry, Address(w, k, q), d))
  {
    hide Loaded, BytesOf, DefPoint, Address, AfterTop;
    var at := Address(w, k, q);
    Here(w, code, k, q);
    StepKeepsTyped(w, code, at, d);
    assert d.v.rs[0..] == d.v.rs && d.rts[0..] == d.rts;
    if |d.v.rs| > w.entry {
      var j: nat, r: nat :| j < |w.defs| && BackTo(w, j, r, d.v.rs)
                            && Frame(w, DefPoint(w, j, r).value.shape, d.v.rs[1..], d.rts[1..]);
      ArrivesAt(w, j, r, DefPoint(w, j, r).value.shape, AfterTop(d.v.rs), TStep(code, w.entry, at, d).d);
    }
  }

  lemma GentleGood(w: World, code: map<Cell, Byte>, k: nat, q: nat, b: Shape, d: TData)
    requires Loaded(w, code) && k < |w.defs| && q < |BytesOf(w, k)| && Gentle(BytesOf(w, k)[q])
    requires To(w, k, q + 1, b) && Typed(d) && Frame(w, b, d.v.rs, d.rts)
    ensures Good(w, TStep(code, w.entry, Address(w, k, q), d))
  {
    hide Loaded, BytesOf, DefPoint, Address, AfterTop, Frame, TPerform;
    Here(w, code, k, q);
    GentleKeeps(BytesOf(w, k)[q], d);
    var s := TStep(code, w.entry, Address(w, k, q), d);
    if s.TRunning? { NextGood(w, code, k, q, b, d, s.d); }
  }

  /** One instruction from a point of a definition does not fail, and leads to a point of a definition. */
  lemma StepGood(w: World, code: map<Cell, Byte>, k: nat, q: nat, d: TData)
    requires Loaded(w, code) && AllTame(w) && Stands(w, k, q, d)
    ensures Good(w, TStep(code, w.entry, Address(w, k, q), d))
  {
    hide Loaded, AllTame, DefPoint, Address, Frame, Typed, TStep, BytesOf, JumpFine, LoopFine, CallFine, Gentle, Good;
    DefFine(w, code, k, q);
    var pt := DefPoint(w, k, q).value;
    var b := pt.shape;
    var op := BytesOf(w, k)[q];
    if pt.self { ExecuteGood(w, code, k, q, b, d); }
    else if op == OP_JMP || op == OP_JZ { JumpGood(w, code, k, q, b, d, op); }
    else if op == OP_IVAL || op == OP_ADDR { LiteralGood(w, code, k, q, b, d); }
    else if op == OP_DEFINITION { CallGood(w, code, k, q, b, d); }
    else if op == OP_PUSH || op == OP_PUSHIP { SaveGood(w, code, k, q, b, d, op); }
    else if op == OP_UNLOOP { UnloopGood(w, code, k, q, b, d); }
    else if op == OP_LOOP || op == OP_PLUSLOOP { LoopGood(w, code, k, q, b, d, op == OP_PLUSLOOP); }
    else if op == OP_RET { ReturnGood(w, code, k, q, d); }
    else { GentleGood(w, code, k, q, b, d); }
  }

  // ----- runs -----

  /**
   * A program of well-nested tame definitions never fails a type test: from the start of any of them,
   * with nothing of the run on the return stack yet, the type-checked machine is at every time still
   * running, or has returned, or has come to something undefined as a stack underflow is.
   */
  lemma {:induction false} NeverFails(w: World, code: map<Cell, Byte>, t: TStatus, n: nat)
    requires Loaded(w, code) && AllTame(w) && Good(w, t)
    ensures Good(w, TRun(code, w.entry, t, n))
    decreases n
  {
    hide Loaded, AllTame, TStep;
    if n > 0 && t.TRunning? {
      var k: nat, q: nat :| k < |w.defs| && t.ip == Address(w, k, q) && Stands(w, k, q, t.d);
      StepGood(w, code, k, q, t.d);
      NeverFails(w, code, TStep(code, w.entry, t.ip, t.d), n - 1);
    }
  }

  /** The whole run is the fast machine's, with a type for every cell. */
  lemma TameRuns(w: World, code: map<Cell, Byte>, k: nat, d: TData, n: nat)
    requires Loaded(w, code) && AllTame(w) && k < |w.defs| && Typed(d) && |d.v.rs| <= w.entry
    ensures var (t, s) := (TRunning(w.defs[k].cfa, d), Running(w.defs[k].cfa, d.v));
            && !TestFailed(TRun(code, w.entry, t, n))
            && Matches(TRun(code, w.entry, t, n), Run(code, w.entry, s, n))
  {
    hide Loaded, AllTame, TRun, Run, DefPoint;
    StartsDef(w, k);
    CfaIs(w, code, k);
    assert d.v.rs[0..] == d.v.rs && d.rts[0..] == d.rts;
    assert Frame(w, [], d.v.rs, d.rts);
    ArrivesAt(w, k, 0, [], w.defs[k].cfa, d);
    NeverFails(w, code, TRunning(w.defs[k].cfa, d), n);
    TypedRefinesFast(code, w.entry, TRunning(w.defs[k].cfa, d), Running(w.defs[k].cfa, d.v), n);
  }

  // ----- what the whole run leaves -----

  /** Tame definitions are orderly ones. */
  lemma {:induction false} TameOrderly(s: Stmt, inLoop: bool, env: seq<Cell>, n: nat)
    requires Tame(s, inLoop) && Legal(env, s, inLoop) && (inLoop <==> n > 0)
    ensures After(s, n, n) == Loops(n) || After(s, n, n).Nowhere?
    decreases s
  {
    match s
    case Seq(x, y) => TameOrderly(x, inLoop, env, n); TameOrderly(y, inLoop, env, n);
    case IfThen(x) => TameOrderly(x, inLoop, env, n);
    case IfThenElse(x, y) => TameOrderly(x, inLoop, env, n); TameOrderly(y, inLoop, env, n);
    case BeginUntil(x) => TameOrderly(x, inLoop, env, n);
    case BeginAgain(x) => TameOrderly(x, inLoop, env, n);
    case BeginWhile(x, y) => TameOrderly(x, inLoop, env, n); TameOrderly(y, inLoop, env, n);
    case DoLoop(_, x, _) => TameOrderly(x, true, env, n + 1);
    case CaseOf(ch) => ChainOrderly(ch, inLoop, env, n);
    case _ =>
  }

  lemma {:induction false} ChainOrderly(ch: Chain, inLoop: bool, env: seq<Cell>, n: nat)
    requires ChainTame(ch, inLoop) && ChainLegal(env, ch, inLoop) && (inLoop <==> n > 0)
    ensures ChainAfter(ch, n, n) == Loops(n) || ChainAfter(ch, n, n).Nowhere?
    decreases ch
  {
    match ch
    case Default(x) => TameOrderly(x, inLoop, env, n);
    case OfClause(t, x, rest) =>
      TameOrderly(t, inLoop, env, n);
      TameOrderly(x, inLoop, env, n);
      ChainOrderly(rest, inLoop, env, n);
  }

  lemma AllTameOrderly(w: World, code: map<Cell, Byte>)
    requires Loaded(w, code) && AllTame(w)
    ensures AllOrderly(w)
  {
    hide Legal, Tame, After, Size, ImageOf;
    forall k | 0 <= k < |w.defs| ensures Legal(Env(w), w.defs[k].body, false) && Orderly(w.defs[k].body) {
      assert DefLoaded(w, code, k);
      TameOrderly(w.defs[k].body, false, Env(w), 0);
    }
  }

  /** The type-checked machine, entered at definition k. */
  function TypedCourse(w: World, code: map<Cell, Byte>, k: nat, d: TData, n: nat): TStatus
    requires k < |w.defs|
  {
    TRun(code, w.entry, TRunning(w.defs[k].cfa, d), n)
  }

  /**
   * The type-checked machine does what tame programs mean: it returns with the cells e exactly when the
   * meaning is e, gets lost exactly when the meaning is wrong, and runs on for ever otherwise.
   */
  lemma TypedAsMeant(w: World, code: map<Cell, Byte>, k: nat, d: TData, e: Data)
    requires Loaded(w, code) && AllTame(w) && k < |w.defs| && Typed(d) && |d.v.rs| == w.entry
    ensures (exists n: nat :: TypedCourse(w, code, k, d, n).TReturned? && TypedCourse(w, code, k, d, n).d.v == e) <==>
            (exists fuel: nat :: Result(w, k, d.v, fuel) == Norm(e))
    ensures (exists n: nat :: TypedCourse(w, code, k, d, n) == TLost) <==>
            (exists fuel: nat :: Result(w, k, d.v, fuel) == Wrong)
    ensures (forall n: nat :: TypedCourse(w, code, k, d, n).TRunning?) <==>
            (forall fuel: nat :: Result(w, k, d.v, fuel) == Timeout)
  {
    hide Loaded, AllTame, AllOrderly, TypedCourse, Course, Result, Typed;
    AllTameOrderly(w, code);
    OrderlyCorrect(w, code, k, d.v, e);
    forall n: nat ensures SameEnd(TypedCourse(w, code, k, d, n), Course(w, code, k, d.v, n)) {
      CourseSame(w, code, k, d, n);
    }
    if n: nat :| Course(w, code, k, d.v, n) == Returned(e) {
      assert SameEnd(TypedCourse(w, code, k, d, n), Course(w, code, k, d.v, n));
    }
    if n: nat :| Course(w, code, k, d.v, n) == Lost {
      assert SameEnd(TypedCourse(w, code, k, d, n), Course(w, code, k, d.v, n));
    }
    if forall n: nat :: TypedCourse(w, code, k, d, n).TRunning? {
      forall n: nat ensures Course(w, code, k, d.v, n).Running? {
        assert TypedCourse(w, code, k, d, n).TRunning?;
      }
    }
  }

  predicate SameEnd(t: TStatus, s: Status) {
    && !TestFailed(t) && t.TRunning? == s.Running? && t.TLost? == s.Lost?
    && (t.TReturned? ==> s == Returned(t.d.v))
  }

  lemma CourseSame(w: World, code: map<Cell, Byte>, k: nat, d: TData, n: nat)
    requires Loaded(w, code) && AllTame(w) && k < |w.defs| && Typed(d) && |d.v.rs| == w.entry
    ensures SameEnd(TypedCourse(w, code, k, d, n), Course(w, code, k, d.v, n))
  {
    hide Loaded, AllTame, TRun, Run;
    TameRuns(w, code, k, d, n);
  }

  /** Tame parts make tame definitions. */
  lemma TameParts(x: Stmt, y: Stmt, inLoop: bool)
    requires Tame(x, inLoop) && Tame(y, inLoop)
    ensures Tame(Seq(x, y), inLoop) && Tame(IfThen(x), inLoop) && Tame(IfThenElse(x, y), inLoop)
    ensures Tame(BeginUntil(x), inLoop) && Tame(BeginAgain(x), inLoop) && Tame(BeginWhile(x, y), inLoop)
    ensures Tame(CaseOf(Default(x)), inLoop)
    ensures forall rest: Chain :: Tame(CaseOf(rest), inLoop) ==> Tame(CaseOf(OfClause(x, y, rest)), inLoop)
    ensures inLoop ==> forall query: bool, plus: bool :: Tame(DoLoop(query, x, plus), inLoop)
  {
  }
}
