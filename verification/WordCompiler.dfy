/**
 * How a recognised word is appended to the code, and how an immediate word is taken off
 * again to be executed by itself.
 */
module WordCompiler {
  import opened Cells
  import opened ByteCode
  import opened ControlCompiler

  const IMMEDIATE: int := 1
  const NONDEFERRED: int := 2

  /**
   * A dictionary entry: word code, code address, parameter address, the cells at the latter,
   * the address that an intrinsic word calls, and the precedence.
   */
  datatype Entry = Entry(code: nat, cfa: Cell, pfa: Cell, first: Cell, second: Cell, called: Cell, precedence: int)

  /** A word code of more than a byte is compiled as a call. */
  function Opcode(e: Entry): Byte {
    if e.code >= 256 then OP_CALLADDR else e.code
  }

  /** COMPILE-NAME */
  function Compiled(e: Entry): seq<Byte> {
    var op := Opcode(e);
    if op == OP_CALLADDR then [op] + ToBytes(e.called)
    else if op == OP_PTR || op == OP_ADDR then [op] + ToBytes(e.pfa)
    else if op == OP_DEFINITION then [op] + ToBytes(e.cfa)
    else if op == OP_IVAL then [op] + ToBytes(e.first)
    else if op == OP_2VAL || op == OP_FVAL then [op] + ToBytes(e.first) + ToBytes(e.second)
    else [op]
  }

  /** How many bytes are taken off for an immediate word. */
  function Taken(e: Entry): nat {
    if e.code == OP_DEFINITION || e.code == OP_IVAL || e.code == OP_ADDR || e.code >= 256 then 5 else 1
  }

  datatype Execution = None | UpTo | CurrentOnly

  /** ExecutionMethod: what is executed at once, by precedence and state. */
  function Method(precedence: int, compiling: bool): Execution {
    if precedence == IMMEDIATE then CurrentOnly
    else if precedence == NONDEFERRED then (if compiling then None else UpTo)
    else if precedence == NONDEFERRED + IMMEDIATE then (if compiling then CurrentOnly else UpTo)
    else None
  }

  /** Opcodes that compile no jump, and no call but those of more than a byte. */
  predicate IsWord(e: Entry) {
    !IsJump(Opcode(e)) && e.code != OP_CALLADDR
  }

  /** Every word compiles to one whole instruction. */
  lemma OneInstruction(e: Entry)
    requires IsWord(e)
    ensures |Compiled(e)| == Len(Opcode(e)) && Compiled(e)[0] == Opcode(e)
  {
  }

  /** An immediate word leaves the code as it was exactly if it is no pointer, double or floating-point constant. */
  lemma TakenExactly(ops: seq<Byte>, e: Entry)
    requires IsWord(e)
    ensures var all := ops + Compiled(e);
            && Taken(e) <= |all|
            && (all[..|all| - Taken(e)] == ops <==> Opcode(e) != OP_PTR && Opcode(e) != OP_2VAL && Opcode(e) != OP_FVAL)
            && (all[..|all| - Taken(e)] == ops ==> all[|all| - Taken(e)..] == Compiled(e))
  {
    var all := ops + Compiled(e);
    OneInstruction(e);
    if Taken(e) == |Compiled(e)| {
      assert all[..|all| - Taken(e)] == ops;
    } else {
      assert |all[..|all| - Taken(e)]| != |ops|;
    }
  }

  /**
   * A pointer that is immediate leaves four bytes of its instruction behind, and its operand's last byte
   * is executed.
   */
  lemma PointerLeft(ops: seq<Byte>)
    ensures var e := Entry(OP_PTR, 0, 0x0102_0304, 0, 0, 0, IMMEDIATE);
            var all := ops + Compiled(e);
            Taken(e) == 1 && all[..|all| - 1] == ops + [OP_PTR, 4, 3, 2] && all[|all| - 1..] == [1]
  {
    assert ToBytes(0x0102_0304) == [4, 3, 2, 1];
  }

  method CompileName(c: Compiler, e: Entry)
    modifies c`ops
    ensures c.ops == old(c.ops) + Compiled(e)
  {
    hide ToBytes, Wrap;
    var op := Opcode(e);
    Unchanged(e);
    c.PushOp(op);
    if op == OP_CALLADDR { c.PushInt(e.called); }
    else if op == OP_PTR || op == OP_ADDR { c.PushInt(e.pfa); }
    else if op == OP_DEFINITION { c.PushInt(e.cfa); }
    else if op == OP_IVAL { c.PushInt(e.first); }
    else if op == OP_2VAL || op == OP_FVAL {
      c.PushInt(e.first);
      c.PushInt(e.second);
    }
  }

  lemma Unchanged(e: Entry)
    ensures Wrap(e.called) == e.called && Wrap(e.pfa) == e.pfa && Wrap(e.cfa) == e.cfa && Wrap(e.first) == e.first
    ensures Wrap(e.second) == e.second
  {
  }

  /** An immediate word: what was compiled for it is executed by itself, with a RET. */
  method TakeOff(c: Compiler, e: Entry) returns (single: seq<Byte>)
    requires Taken(e) <= |c.ops|
    modifies c`ops
    ensures single == old(c.ops)[|old(c.ops)| - Taken(e)..] + [OP_RET] && c.ops == old(c.ops)[..|old(c.ops)| - Taken(e)]
  {
    var i := |c.ops| - Taken(e);
    single := [];
    for j := 0 to Taken(e)
      invariant c.ops == old(c.ops) && single == c.ops[i..i + j]
    {
      single := single + [c.ops[i + j]];
    }
    single := single + [OP_RET];
    c.ops := c.ops[..i];
  }

  /** What is left of the code, and what is executed at once, for a word whose instruction has been appended. */
  function Divided(all: seq<Byte>, e: Entry, compiling: bool): (seq<Byte>, seq<Byte>)
    requires Taken(e) <= |all|
  {
    match Method(e.precedence, compiling)
    case None => (all, [])
    case UpTo => ([], all + [OP_RET])
    case CurrentOnly => (all[..|all| - Taken(e)], all[|all| - Taken(e)..] + [OP_RET])
  }

  /**
   * A word other than LOOP, +LOOP and UNLOOP: it is compiled, and by precedence and state nothing is
   * executed, or all that has been compiled, or what was compiled for the word. A word that is not
   * deferred makes the definition that it is compiled into one.
   */
  method CompileWord(c: Compiler, e: Entry) returns (run: seq<Byte>, nondeferred: bool)
    modifies c`ops
    ensures Taken(e) <= |Compiled(e)| && (c.ops, run) == Divided(old(c.ops) + Compiled(e), e, c.compiling)
    ensures var all := old(c.ops) + Compiled(e);
            if e.precedence == IMMEDIATE || (e.precedence == NONDEFERRED + IMMEDIATE && c.compiling) then
              c.ops + run == all + [OP_RET] && |c.ops| == |all| - Taken(e)
            else if (e.precedence == NONDEFERRED || e.precedence == NONDEFERRED + IMMEDIATE) && !c.compiling then
              c.ops == [] && run == all + [OP_RET]
            else
              c.ops == all && run == []
    ensures nondeferred <==> e.precedence == NONDEFERRED && c.compiling
  {
    hide Compiled, Taken;
    TakenThere(e);
    CompileName(c, e);
    run, nondeferred := [], e.precedence == NONDEFERRED && c.compiling;
    match Method(e.precedence, c.compiling) {
      case None =>
      case UpTo =>
        run := c.ops + [OP_RET];
        c.ops := [];
      case CurrentOnly =>
        run := TakeOff(c, e);
    }
  }

  /**
   * The opcode is the word code, or that of a call if the word code is more than a byte; its operand is the
   * code address of a definition, the parameter address of a pointer or an address, or the cells there
   * of an integer, a double or a floating-point constant; of a call, the address that it calls.
   */
  lemma OperandOf(e: Entry)
    requires IsWord(e)
    ensures Compiled(e)[0] == if e.code < 256 then e.code else OP_CALLADDR
    ensures e.code >= 256 ==> |Compiled(e)| == 5 && Operand(Compiled(e), 0) == e.called
    ensures e.code == OP_DEFINITION ==> |Compiled(e)| == 5 && Operand(Compiled(e), 0) == e.cfa
    ensures e.code == OP_PTR || e.code == OP_ADDR ==> |Compiled(e)| == 5 && Operand(Compiled(e), 0) == e.pfa
    ensures e.code == OP_IVAL ==> |Compiled(e)| == 5 && Operand(Compiled(e), 0) == e.first
    ensures e.code == OP_2VAL || e.code == OP_FVAL ==>
              |Compiled(e)| == 9 && Operand(Compiled(e), 0) == e.first && Operand(Compiled(e), 4) == e.second
  {
    hide ToBytes, FromBytes;
    if |Compiled(e)| == 5 {
      var n := Compiled(e)[1..5];
      CellBack([Opcode(e)], e.called);
      CellBack([Opcode(e)], e.pfa);
      CellBack([Opcode(e)], e.cfa);
      CellBack([Opcode(e)], e.first);
    } else if |Compiled(e)| == 9 {
      var c := Compiled(e);
      assert c[1..5] == ToBytes(e.first) && c[5..9] == ToBytes(e.second);
      FromToBytes(e.first);
      FromToBytes(e.second);
    }
  }

  lemma CellBack(op: seq<Byte>, n: Cell)
    requires |op| == 1
    ensures Operand(op + ToBytes(n), 0) == n
  {
    hide ToBytes, FromBytes;
    FromToBytes(n);
    assert (op + ToBytes(n))[1..5] == ToBytes(n);
  }

  lemma TakenThere(e: Entry)
    ensures Taken(e) <= |Compiled(e)|
  {
  }

  /**
   * What stays compiled and what is executed at once, by precedence and state, for a word that is taken
   * off exactly.
   */
  lemma ExecutedAtOnce(ops: seq<Byte>, e: Entry)
    requires IsWord(e) && Opcode(e) != OP_PTR && Opcode(e) != OP_2VAL && Opcode(e) != OP_FVAL
    ensures Taken(e) <= |Compiled(e)|
    ensures e.precedence == IMMEDIATE ==>
              forall compiling :: Divided(ops + Compiled(e), e, compiling) == (ops, Compiled(e) + [OP_RET])
    ensures e.precedence == NONDEFERRED + IMMEDIATE ==>
              && Divided(ops + Compiled(e), e, true) == (ops, Compiled(e) + [OP_RET])
              && Divided(ops + Compiled(e), e, false) == ([], ops + Compiled(e) + [OP_RET])
    ensures e.precedence == NONDEFERRED ==>
              && Divided(ops + Compiled(e), e, true) == (ops + Compiled(e), [])
              && Divided(ops + Compiled(e), e, false) == ([], ops + Compiled(e) + [OP_RET])
    ensures e.precedence != IMMEDIATE && e.precedence != NONDEFERRED && e.precedence != NONDEFERRED + IMMEDIATE ==>
              forall compiling :: Divided(ops + Compiled(e), e, compiling) == (ops + Compiled(e), [])
  {
    hide Compiled, Taken;
    TakenExactly(ops, e);
    TakenExactly([], e);
    assert [] + Compiled(e) == Compiled(e);
  }
}
