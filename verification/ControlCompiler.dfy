/**
 * The compiler's opcode vector and control-flow stacks as the object that the
 * control words change in place. Each word is proved against its step function.
 */
module ControlCompiler {
  import opened Cells
  import opened ByteCode
  import opened ControlWords
  import JumpIntegrity

  /** What a word that should act as r did: the new state, or r's error code. */
  predicate Did(r: Result<Comp>, e: int, c: Comp) {
    match r
    case Ok(d) => e == 0 && c == d
    case Err(code) => e == code
  }

  lemma StillInside(ops: seq<Byte>, recs: seq<nat>)
    requires AllInside(recs, |ops|)
    ensures AllInside(recs, |ops + [OP_RET]|)
  {
  }

  /** One step of ResolveCases, for proofs in which it is hidden. */
  lemma ResolveCasesOf(ops: seq<Byte>, cases: seq<Mark>)
    ensures ResolveCases(ops, cases) ==
            if cases == [] then (ops, cases)
            else
              var (i, rest) := (cases[|cases| - 1], cases[..|cases| - 1]);
              if i == -1 then (ops, rest) else ResolveCases(Patch(ops, i, |ops| - i + 1), rest)
  {
  }

  class Compiler {
    var ops: seq<Byte>
    var ifs: seq<nat>
    var begins: seq<nat>
    var whiles: seq<nat>
    var dos: seq<nat>
    var qdos: seq<nat>
    var leaves: seq<nat>
    var recs: seq<nat>
    var cases: seq<Mark>
    var ofs: seq<nat>
    var compiling: bool
    var words: seq<seq<Byte>>    // the code of the definitions in the wordlist

    function Flow(): Comp
      reads this
    {
      Comp(ops, ifs, begins, whiles, dos, qdos, leaves, recs, cases, ofs)
    }

    /** In the first definition. */
    constructor ()
      ensures Flow() == EMPTY && compiling && words == []
    {
      compiling, words := true, [];
      ops, ifs, begins, whiles, dos := [], [], [], [], [];
      qdos, leaves, recs, cases, ofs := [], [], [], [], [];
    }

    // ----- elementary writes -----

    method PushOp(op: Byte)
      modifies this`ops
      ensures ops == old(ops) + [op]
    {
      ops := ops + [op];
    }

    method PushInt(n: int)
      modifies this`ops
      ensures ops == old(ops) + ToBytes(Wrap(n))
    {
      var b := ToBytes(Wrap(n));
      for j := 0 to 4
        invariant ops == old(ops) + b[..j]
      {
        ops := ops + [b[j]];
      }
    }

    method CopyInt(offset: nat, n: int)
      requires offset + 4 <= |ops|
      modifies this`ops
      ensures ops == Patch(old(ops), offset, n)
    {
      var b := ToBytes(Wrap(n));
      for j := 0 to 4
        invariant |ops| == |old(ops)|
        invariant ops == old(ops)[..offset] + b[..j] + old(ops)[offset + j..]
      {
        ops := ops[offset + j := b[j]];
      }
    }

    // ----- IF ELSE THEN -----

    method If()
      modifies this`ops, this`ifs
      ensures Flow() == IfStep(old(Flow()))
    {
      PushOp(OP_JZ);
      ifs := ifs + [|ops|];
      PushInt(0);
    }

    method Else() returns (e: int)
      requires TopInside(ifs, |ops|)
      modifies this`ops, this`ifs
      ensures Did(ElseStep(old(Flow())), e, Flow())
    {
      hide ToBytes, Wrap, Patch;
      PushOp(OP_JMP);
      PushInt(0);
      if ifs == [] { return E_V_ELSE_NO_IF; }
      var i := ifs[|ifs| - 1];
      ifs := ifs[..|ifs| - 1];
      ifs := ifs + [|ops| - 4];
      CopyInt(i, |ops| - i + 1);
      e := 0;
    }

    method Then() returns (e: int)
      requires TopInside(ifs, |ops|)
      modifies this`ops, this`ifs
      ensures Did(ThenStep(old(Flow())), e, Flow())
    {
      if ifs == [] { return E_V_THEN_NO_IF; }
      var i := ifs[|ifs| - 1];
      ifs := ifs[..|ifs| - 1];
      CopyInt(i, |ops| - i + 1);
      e := 0;
    }

    // ----- BEGIN WHILE REPEAT UNTIL AGAIN -----

    method Begin()
      modifies this`begins
      ensures Flow() == old(Flow()).(begins := old(begins) + [|ops|])
    {
      begins := begins + [|ops|];
    }

    method While() returns (e: int)
      modifies this`ops, this`whiles
      ensures Did(WhileStep(old(Flow())), e, Flow())
    {
      if begins == [] { return E_V_NO_BEGIN; }
      PushOp(OP_JZ);
      whiles := whiles + [|ops|];
      PushInt(0);
      e := 0;
    }

    method Repeat() returns (e: int)
      requires TopInside(whiles, |ops|)
      modifies this`ops, this`begins, this`whiles
      ensures Did(RepeatStep(old(Flow())), e, Flow())
    {
      hide Patch, ToBytes, Wrap;
      if begins == [] { return E_V_NO_BEGIN; }
      var i := begins[|begins| - 1];
      begins := begins[..|begins| - 1];
      if |whiles| > 0 {
        var j := whiles[|whiles| - 1];
        if j > i {
          whiles := whiles[..|whiles| - 1];
          CopyInt(j, |ops| - j + 4 + 2);
        }
      }
      var n := i - |ops|;
      PushOp(OP_JMP);
      PushInt(n);
      e := 0;
    }

    /** UNTIL with OP_JZ and AGAIN with OP_JMP. */
    method Back(op: Byte) returns (e: int)
      modifies this`ops, this`begins
      ensures Did(BackStep(old(Flow()), op), e, Flow())
    {
      if begins == [] { return E_V_NO_BEGIN; }
      var i := begins[|begins| - 1];
      begins := begins[..|begins| - 1];
      var n := i - |ops|;
      PushOp(op);
      PushInt(n);
      e := 0;
    }

    // ----- DO ?DO LOOP +LOOP LEAVE -----

    method Do()
      modifies this`ops, this`dos
      ensures Flow() == DoStep(old(Flow()))
    {
      PushOp(OP_PUSH);
      PushOp(OP_PUSH);
      PushOp(OP_PUSHIP);
      dos := dos + [|ops|];
    }

    method QueryDo()
      modifies this
      ensures Flow() == QueryDoStep(old(Flow()))
    {
      ghost var c := Flow();
      PushOp(OP_2DUP);
      PushOp(OP_EQ);
      If();
      PushOp(OP_2DROP);
      assert Flow() == Emit(IfStep(Emit(c, [OP_2DUP, OP_EQ])), [OP_2DROP]);
      var e := Else();
      Do();
      qdos := qdos + [|ops|];
    }

    method Leave() returns (e: int)
      modifies this`ops, this`leaves
      ensures Did(LeaveStep(old(Flow())), e, Flow())
    {
      if dos == [] { return E_V_NO_DO; }
      PushOp(OP_UNLOOP);
      PushOp(OP_JMP);
      leaves := leaves + [|ops|];
      PushInt(0);
      e := 0;
    }

    /** The compiler's own action on LOOP (or +LOOP) once its opcode is to be appended. */
    method Loop(op: Byte) returns (e: int)
      requires TopInside(ifs, |ops|) && AllInside(leaves, |ops|)
      modifies this
      ensures Did(LoopStep(old(Flow()), op), e, Flow())
    {
      if dos == [] {
        PushOp(op);
        return E_C_NODO;
      }
      hide Patch, ResolveLeaves;
      PushOp(op);
      var i := dos[|dos| - 1];
      ResolveLeavesAfter(i);
      assert Flow() == LoopLeaves(old(Flow()), op);
      EndLoop(i);
      e := 0;
    }

    method EndLoop(i: nat)
      requires dos != [] && i == Last(dos) && TopInside(ifs, |ops|)
      modifies this`ops, this`ifs, this`dos, this`qdos
      ensures Flow() == PopLoop(old(Flow()))
    {
      hide Patch;
      dos := dos[..|dos| - 1];
      if |qdos| > 0 {
        var j := qdos[|qdos| - 1];
        if j >= i {
          if ifs != [] {
            var e := Then();
          }
          qdos := qdos[..|qdos| - 1];
        }
      }
    }

    method ResolveLeavesAfter(i: nat)
      requires AllInside(leaves, |ops|)
      modifies this`ops, this`leaves
      ensures (ops, leaves) == ResolveLeaves(old(ops), old(leaves), i)
    {
      hide Patch;
      while |leaves| > 0 && leaves[|leaves| - 1] > i
        invariant AllInside(leaves, |ops|)
        invariant ResolveLeaves(ops, leaves, i) == ResolveLeaves(old(ops), old(leaves), i)
        decreases |leaves|
      {
        var j := leaves[|leaves| - 1];
        CopyInt(j, |ops| - j + 1);
        leaves := leaves[..|leaves| - 1];
      }
    }

    // ----- CASE OF ENDOF ENDCASE -----

    method Case()
      modifies this`cases
      ensures Flow() == old(Flow()).(cases := old(cases) + [-1])
    {
      cases := cases + [-1];
    }

    method Of()
      modifies this`ops, this`ofs
      ensures Flow() == OfStep(old(Flow()))
    {
      PushOp(OP_OVER);
      PushOp(OP_EQ);
      PushOp(OP_JZ);
      ofs := ofs + [|ops|];
      PushInt(0);
      PushOp(OP_DROP);
    }

    method EndOf() returns (e: int)
      requires TopInside(ofs, |ops|)
      modifies this`ops, this`cases, this`ofs
      ensures Did(EndOfStep(old(Flow())), e, Flow())
    {
      hide Patch, ToBytes, Wrap;
      PushOp(OP_JMP);
      cases := cases + [|ops|];
      PushInt(0);
      if ofs == [] { return E_V_ENDOF_NO_OF; }
      var i := ofs[|ofs| - 1];
      ofs := ofs[..|ofs| - 1];
      CopyInt(i, |ops| - i + 1);
      e := 0;
    }

    /** Takes one mark off; what is left to do is the same. */
    method EndOne() returns (more: bool)
      requires cases != [] && AllInside(cases, |ops|)
      modifies this`ops, this`cases
      ensures |cases| == |old(cases)| - 1 && |ops| == |old(ops)| && AllInside(cases, |ops|) && (more ==> cases != [])
      ensures ResolveCases(old(ops), old(cases)) == if more then ResolveCases(ops, cases) else (ops, cases)
    {
      hide Patch, ResolveCases;
      ResolveCasesOf(ops, cases);
      var i := cases[|cases| - 1];
      cases := cases[..|cases| - 1];
      if i == -1 { return false; }
      CopyInt(i, |ops| - i + 1);
      more := |cases| > 0;
      ResolveCasesOf(ops, []);
    }

    method EndCase() returns (e: int)
      requires AllInside(cases, |ops|)
      modifies this`ops, this`cases
      ensures Did(EndCaseStep(old(Flow())), e, Flow())
    {
      if cases == [] { return E_V_NO_CASE; }
      hide Patch, ResolveCases;
      PushOp(OP_DROP);
      ghost var start := ops;
      var more := true;
      while more
        invariant (more ==> cases != []) && AllInside(cases, |ops|)
        invariant ResolveCases(start, old(cases)) == if more then ResolveCases(ops, cases) else (ops, cases)
        decreases |cases|
      {
        more := EndOne();
      }
      e := 0;
    }

    // ----- RECURSE and ; -----

    method Recurse()
      modifies this`ops, this`recs
      ensures Flow() == RecurseStep(old(Flow()))
    {
      PushOp(OP_ADDR);
      recs := recs + [|ops|];
      PushInt(0);
      PushOp(OP_EXECUTE_BC);
    }

    /** `;` with the definition allotted at cfa: an error that changes nothing but a RET, or one more word. */
    method Semicolon(cfa: Cell) returns (e: int)
      requires AllInside(recs, |ops|)
      modifies this
      ensures match (if old(compiling) then Finish(old(Flow()), cfa) else Err(E_C_ENDOFDEF))
              case Err(err) =>
                e == err && Flow() == old(Flow().(ops := ops + [OP_RET])) && compiling == old(compiling)
                  && words == old(words)
              case Ok(done) =>
                e == 0 && words == old(words) + [done] && !compiling && Flow() == old(Flow()).(ops := [], recs := [])
    {
      hide ResolveRecursion, AllInside;
      e := 0;
      PushOp(OP_RET);
      StillInside(old(ops), recs);
      if !compiling { return E_C_ENDOFDEF; }
      if |ifs| > 0 { e := E_C_INCOMPLETEIF; }
      if |begins| > 0 || |whiles| > 0 { e := E_C_INCOMPLETEBEGIN; }
      if |dos| > 0 || |leaves| > 0 { e := E_C_INCOMPLETELOOP; }
      if |cases| > 0 || |ofs| > 0 { e := E_C_INCOMPLETECASE; }
      if e != 0 { return; }
      ResolveSelf(cfa);
      words := words + [ops];
      ops, compiling := [], false;
    }

    method ResolveSelf(cfa: Cell)
      requires AllInside(recs, |ops|)
      modifies this`ops, this`recs
      ensures ops == ResolveRecursion(old(ops), old(recs), cfa) && recs == []
    {
      hide Patch;
      while |recs| > 0
        invariant AllInside(recs, |ops|)
        invariant ResolveRecursion(ops, recs, cfa) == ResolveRecursion(old(ops), old(recs), cfa)
        decreases |recs|
      {
        var i := recs[|recs| - 1];
        CopyInt(i, cfa);
        recs := recs[..|recs| - 1];
      }
    }

    // ----- the compiler's loop over the words of a definition -----

    method DotQuote(text: Cell)
      modifies this`ops
      ensures ops == old(ops) + ([OP_ADDR] + ToBytes(Wrap(text)) + [OP_COUNT, OP_TYPE])
    {
      PushOp(OP_ADDR);
      PushInt(text);
      PushOp(OP_COUNT);
      PushOp(OP_TYPE);
    }

    method AbortQuote(name: Cell, count: Cell, text: Cell)
      modifies this`ops
      ensures Flow() == AbortQuoteStep(old(Flow()), name, count, text)
    {
      hide ToBytes, Wrap, Len;
      PushOp(OP_JZ);
      PushInt(4 * 4 + 9);
      PushOp(OP_ADDR);
      PushInt(name);
      PushOp(OP_IVAL);
      PushInt(count);
      PushOp(OP_TYPE);
      DotQuote(text);
      PushOp(OP_CR);
      PushOp(OP_ABORT);
    }

    method PlainWord(t: Token) returns (e: int)
      requires t.Op? || t.OpCell? || t.OpDouble? || t.Unloop? || t.AbortQuote?
      modifies this`ops
      ensures Did(Step(old(Flow()), t), e, Flow())
    {
      hide ToBytes, Wrap;
      match t {
        case Op(op) => PushOp(op);
        case OpCell(op, n) => PushOp(op); PushInt(n);
        case OpDouble(op, lo, hi) => PushOp(op); PushInt(lo); PushInt(hi); WrapCell(hi);
        case Unloop => PushOp(OP_UNLOOP); if dos == [] { return E_C_NODO; }
        case AbortQuote(name, count, text) => AbortQuote(name, count, text);
      }
      e := 0;
    }

    method Word(t: Token) returns (e: int)
      requires TopInside(ifs, |ops|) && TopInside(whiles, |ops|) && TopInside(ofs, |ops|)
      requires AllInside(leaves, |ops|) && AllInside(cases, |ops|)
      modifies this
      ensures Did(Step(old(Flow()), t), e, Flow())
    {
      hide IfStep, ElseStep, ThenStep, WhileStep, RepeatStep, BackStep, DoStep, QueryDoStep, LoopStep,
        LeaveStep, OfStep, EndOfStep, EndCaseStep, RecurseStep, TopInside, AllInside;
      e := 0;
      match t {
        case If => If();
        case Else => e := Else();
        case Then => e := Then();
        case Begin => Begin();
        case While => e := While();
        case Repeat => e := Repeat();
        case Until => e := Back(OP_JZ);
        case Again => e := Back(OP_JMP);
        case Do => Do();
        case QueryDo => QueryDo();
        case Loop(plus) => e := Loop(if plus then OP_PLUSLOOP else OP_LOOP);
        case Leave => e := Leave();
        case Case => Case();
        case Of => Of();
        case EndOf => e := EndOf();
        case EndCase => e := EndCase();
        case Recurse => Recurse();
        case _ => e := PlainWord(t);
      }
    }

    /** Compiles the words in turn up to the first error; the invariant is kept throughout. */
    method Words(ts: seq<Token>) returns (e: int)
      requires JumpIntegrity.Integrity(Flow()) && |ops| + 32 * |ts| < WORD
      requires forall i :: 0 <= i < |ts| ==> Recognised(ts[i])
      modifies this
      ensures Did(Compile(old(Flow()), ts), e, Flow())
      ensures e == 0 ==> JumpIntegrity.Integrity(Flow())
    {
      hide JumpIntegrity.Integrity, Step, Recognised;
      var n := 0;
      while n < |ts|
        invariant 0 <= n <= |ts| && JumpIntegrity.Integrity(Flow()) && |ops| + 32 * (|ts| - n) < WORD
        invariant Compile(Flow(), ts[n..]) == Compile(old(Flow()), ts)
      {
        ghost var c := Flow();
        JumpIntegrity.HolesInside(c);
        JumpIntegrity.StepBounded(c, ts[n]);
        e := Word(ts[n]);
        assert ts[n..][0] == ts[n] && ts[n..][1..] == ts[n + 1..];
        if e != 0 { return; }
        JumpIntegrity.StepKeeps(c, ts[n]);
        n := n + 1;
      }
      e := 0;
    }
  }
}
