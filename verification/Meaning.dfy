/**
 * The direct meaning of structured definitions: what each statement does to the
 * data stack, the return stack and memory, without code or jumps. Loops keep the
 * three cells of a loop on the return stack, and calls their return address, as
 * programs may look at these.
 */
module Meaning {
  import opened Cells
  import opened Structured
  import opened ByteVM

  /** A definition: its code address and its body. */
  datatype Def = Def(cfa: Cell, body: Stmt)

  /** The definitions of a program, and the depth of the return stack when the machine was entered. */
  datatype World = World(defs: seq<Def>, entry: nat)

  datatype Outcome =
    | Norm(d: Data)      // the statement is done
    | Left(d: Data)      // LEAVE: the loop around it is done
    | Exited(d: Data)    // EXIT: the definition is done
    | Wrong              // the machine gets lost: a stack underflow, a wild address
    | Strange            // a return stack that does not hold what it should: what happens then is left open
    | Timeout            // fuel does not suffice

  function Env(w: World): (env: seq<Cell>)
    ensures |env| == |w.defs| && forall k :: 0 <= k < |env| ==> env[k] == w.defs[k].cfa
  {
    seq(|w.defs|, k requires 0 <= k < |w.defs| => w.defs[k].cfa)
  }

  /** The address at offset p of definition k. */
  function Address(w: World, k: nat, p: nat): Cell
    requires k < |w.defs|
  {
    var base: int := w.defs[k].cfa;
    Wrap(base + p)
  }

  function Pop(d: Data): Data
    requires d.ds != []
  {
    d.(ds := d.ds[1..])
  }

  function PushReturn(d: Data, a: Cell): Data {
    d.(rs := [a] + d.rs)
  }

  function OfEffect(e: Effect): Outcome {
    match e
    case Next(d) => Norm(d)
    case Undefined => Wrong
  }

  /** The loop's cells are discarded. */
  function EndLoop(d: Data, leave: bool): Outcome {
    if |d.rs| < 3 then Wrong
    else
      var e := d.(rs := d.rs[3..]);
      if leave then Left(e) else Norm(e)
  }

  /** The end of a called definition, which was called with return address a. */
  function ReturnTo(entry: nat, o: Outcome, a: Cell): Outcome {
    if o.Timeout? || o.Wrong? || o.Strange? then o
    else if o.Left? || |o.d.rs| <= entry || o.d.rs[0] != a then Strange
    else Norm(o.d.(rs := o.d.rs[1..]))
  }

  /** DO: the limit and the start of the index go to the return stack, below the address of the loop. */
  function EnterLoop(d: Data, start: Cell): Data
    requires |d.ds| >= 2
  {
    d.(ds := d.ds[2..], rs := [start, d.ds[1], d.ds[0]] + d.rs)
  }

  /** The meaning of s, at offset p of definition k. Fuel is needed for calls and for going round in loops. */
  function Eval(w: World, k: nat, s: Stmt, p: nat, d: Data, fuel: nat): Outcome
    requires k < |w.defs|
    decreases fuel, s, 1
  {
    match s
    case Nop => Norm(d)
    case Seq(a, b) =>
      var o := Eval(w, k, a, p, d, fuel);
      if o.Norm? then Eval(w, k, b, p + Size(a), o.d, fuel) else o
    case Word(op) => OfEffect(Perform(op, d))
    case Lit(n) => Norm(d.(ds := [n] + d.ds))
    case Call(j) =>
      if j >= |w.defs| then Strange
      else if fuel == 0 then Timeout
      else
        var a := Address(w, k, p + 4);
        ReturnTo(w.entry, Eval(w, j, w.defs[j].body, 0, PushReturn(d, a), fuel - 1), a)
    case SelfCall =>
      if fuel == 0 then Timeout
      else
        var a := Address(w, k, p + 5);
        ReturnTo(w.entry, Eval(w, k, w.defs[k].body, 0, PushReturn(d, a), fuel - 1), a)
    case Return => Exited(d)
    case DropLoop => EndLoop(d, false)
    case LeaveLoop => EndLoop(d, true)
    case IfThen(a) =>
      if d.ds == [] then Wrong
      else if d.ds[0] == 0 then Norm(Pop(d))
      else Eval(w, k, a, p + 5, Pop(d), fuel)
    case IfThenElse(a, b) =>
      if d.ds == [] then Wrong
      else if d.ds[0] == 0 then Eval(w, k, b, p + 5 + Size(a) + 5, Pop(d), fuel)
      else Eval(w, k, a, p + 5, Pop(d), fuel)
    case BeginUntil(a) =>
      var o := Eval(w, k, a, p, d, fuel);
      if !o.Norm? then o
      else if o.d.ds == [] then Wrong
      else if o.d.ds[0] != 0 then Norm(Pop(o.d))
      else if fuel == 0 then Timeout
      else Eval(w, k, s, p, Pop(o.d), fuel - 1)
    case BeginAgain(a) =>
      var o := Eval(w, k, a, p, d, fuel);
      if !o.Norm? then o
      else if fuel == 0 then Timeout
      else Eval(w, k, s, p, o.d, fuel - 1)
    case BeginWhile(a, b) =>
      var o := Eval(w, k, a, p, d, fuel);
      if !o.Norm? then o
      else if o.d.ds == [] then Wrong
      else if o.d.ds[0] == 0 then Norm(Pop(o.d))
      else
        var u := Eval(w, k, b, p + Size(a) + 5, Pop(o.d), fuel);
        if !u.Norm? then u
        else if fuel == 0 then Timeout
        else Eval(w, k, s, p, u.d, fuel - 1)
    case DoLoop(query, a, plus) =>
      if |d.ds| < 2 then Wrong
      else if query && d.ds[0] == d.ds[1] then Norm(d.(ds := d.ds[2..]))
      else
        var m := p + DoSize(query);
        EvalLoop(w, k, a, plus, m, EnterLoop(d, Address(w, k, m - 1)), fuel)
    case CaseOf(ch) => EvalChain(w, k, ch, p, d, fuel)
  }

  /** One round of the loop with body a, which starts at offset p, and the rounds after it. */
  function EvalLoop(w: World, k: nat, a: Stmt, plus: bool, p: nat, d: Data, fuel: nat): Outcome
    requires k < |w.defs| && p >= 1
    decreases fuel, a, 2
  {
    var o := Eval(w, k, a, p, d, fuel);
    match o
    case Left(e) => Norm(e)
    case Norm(e) =>
      match LoopBack(plus, e) {
        case Over(f) => Norm(f)
        case Around(f) =>
          if e.rs[0] != Address(w, k, p - 1) then Strange
          else if fuel == 0 then Timeout
          else EvalLoop(w, k, a, plus, p, f, fuel - 1)
        case Stuck => Wrong
      }
    case _ => o
  }

  function EvalChain(w: World, k: nat, ch: Chain, p: nat, d: Data, fuel: nat): Outcome
    requires k < |w.defs|
    decreases fuel, ch, 1
  {
    match ch
    case Default(a) =>
      var o := Eval(w, k, a, p, d, fuel);
      if !o.Norm? then o
      else if o.d.ds == [] then Wrong
      else Norm(Pop(o.d))
    case OfClause(t, a, rest) =>
      var o := Eval(w, k, t, p, d, fuel);
      if !o.Norm? then o
      else if |o.d.ds| < 2 then Wrong
      else if o.d.ds[0] == o.d.ds[1] then
        Eval(w, k, a, p + Size(t) + 8, o.d.(ds := o.d.ds[2..]), fuel)
      else
        EvalChain(w, k, rest, p + Size(t) + 8 + Size(a) + 5, Pop(o.d), fuel)
  }

  /** The meaning of running definition k from a return stack of depth at most entry. */
  function Result(w: World, k: nat, d: Data, fuel: nat): (o: Outcome)
    requires k < |w.defs|
    ensures !o.Left? && !o.Exited?
  {
    var o := Eval(w, k, w.defs[k].body, 0, d, fuel);
    match o
    case Norm(e) => if |e.rs| <= w.entry then Norm(e) else Strange
    case Exited(e) => if |e.rs| <= w.entry then Norm(e) else Strange
    case Left(_) => Strange
    case _ => o
  }
}
