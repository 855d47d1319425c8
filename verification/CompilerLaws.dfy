/**
 * When compile words and `;` report an error, and which; and what the code of ABORT" prints.
 */
module CompilerLaws {
  import opened Cells
  import opened ByteCode
  import opened ControlWords
  import opened JumpIntegrity

  /** The error of a word, by the stack that it finds empty; 0 if there is none. */
  function ErrorOf(c: Comp, t: Token): int {
    if (t.While? || t.Repeat? || t.Until? || t.Again?) && c.begins == [] then 13
    else if t.Else? && c.ifs == [] then 14
    else if t.Then? && c.ifs == [] then 15
    else if t.EndOf? && c.ofs == [] then 16
    else if t.EndCase? && c.cases == [] then 17
    else if t.Leave? && c.dos == [] then 12
    else if (t.Loop? || t.Unloop?) && c.dos == [] then 0x109
    else 0
  }

  /** A word fails exactly if the structure that it continues is not open, with the error of that structure. */
  lemma StepFailsExactly(c: Comp, t: Token)
    ensures Step(c, t).Ok? <==> ErrorOf(c, t) == 0
    ensures Step(c, t).Err? ==> Step(c, t).code == ErrorOf(c, t)
  {
    hide Emit, EmitCell, Patch, ResolveLeaves, ResolveCases, ResolveHere, PopLoop, LoopLeaves, QueryDoStep;
  }

  /** `;` succeeds exactly if all seven stacks of open structures are empty, and tells the last kind that is not. */
  lemma FinishExactly(c: Comp, cfa: Cell)
    ensures Finish(c, cfa).Ok? <==>
              && c.ifs == [] && c.begins == [] && c.whiles == [] && c.dos == [] && c.leaves == [] && c.cases == []
              && c.ofs == []
    ensures Finish(c, cfa).Err? ==>
              Finish(c, cfa).code ==
              if c.cases != [] || c.ofs != [] then 0x10B
              else if c.dos != [] || c.leaves != [] then 0x10A
              else if c.begins != [] || c.whiles != [] then 0x107
              else 0x106
  {
    hide ResolveRecursion;
  }

  // ----- what words do to the stacks, and where the jumps that they resolve lead -----

  /** The control stacks after each word; LOOP takes off its LEAVEs, and ENDCASE its ENDOFs with the mark. */
  lemma StacksAfter(c: Comp, t: Token)
    requires Step(c, t).Ok?
    ensures var r := Step(c, t).value; var n := |c.ops|;
            match t
            case If => r == c.(ops := r.ops, ifs := c.ifs + [n + 1])
            case Else => r == c.(ops := r.ops, ifs := ButLast(c.ifs) + [n + 1])
            case Then => r == c.(ops := r.ops, ifs := ButLast(c.ifs))
            case Begin => r == c.(begins := c.begins + [n])
            case While => r == c.(ops := r.ops, whiles := c.whiles + [n + 1])
            case Repeat =>
              r == c.(ops := r.ops, begins := ButLast(c.begins),
                      whiles := if c.whiles != [] && Last(c.whiles) > Last(c.begins) then ButLast(c.whiles)
                        else c.whiles)
            case Until => r == c.(ops := r.ops, begins := ButLast(c.begins))
            case Again => r == c.(ops := r.ops, begins := ButLast(c.begins))
            case Do => r == c.(ops := r.ops, dos := c.dos + [n + 3])
            case QueryDo =>
              r == c.(ops := r.ops, ifs := c.ifs + [n + 9], dos := c.dos + [n + 16], qdos := c.qdos + [n + 16])
            case Leave => r == c.(ops := r.ops, leaves := c.leaves + [n + 2])
            case Case => r == c.(cases := c.cases + [-1])
            case Of => r == c.(ops := r.ops, ofs := c.ofs + [n + 3])
            case EndOf => r == c.(ops := r.ops, ofs := ButLast(c.ofs), cases := c.cases + [n + 1])
            case EndCase => r == c.(ops := r.ops, cases := r.cases) && UpToMark(c.cases, r.cases)
            case Recurse => r == c.(ops := r.ops, recs := c.recs + [n + 1])
            case Loop(_) =>
              var own := c.qdos != [] && Last(c.qdos) >= Last(c.dos);
              r == c.(ops := r.ops, dos := ButLast(c.dos), leaves := r.leaves,
                      qdos := if own then ButLast(c.qdos) else c.qdos,
                      ifs := if own && c.ifs != [] then ButLast(c.ifs) else c.ifs)
            case _ => r == c.(ops := r.ops)
  {
    hide ToBytes, Patch, ResolveLeaves, ResolveCases;
    if t.EndCase? { CasesTakenOff(c.ops + [OP_DROP], c.cases); }
    if t.QueryDo? { QueryDoAfter(c); }
  }

  lemma QueryDoAfter(c: Comp)
    ensures var (r, n) := (QueryDoStep(c), |c.ops|);
            r == c.(ops := r.ops, ifs := c.ifs + [n + 9], dos := c.dos + [n + 16], qdos := c.qdos + [n + 16])
  {
    hide ToBytes, Patch;
    var c1 := IfStep(Emit(c, [OP_2DUP, OP_EQ]));
    assert ButLast(c1.ifs) == c.ifs;
  }

  /** All is taken off down to the newest mark, and the mark too. */
  predicate UpToMark(cases: seq<Mark>, r: seq<Mark>) {
    && r <= cases
    && (forall i | |r| < i < |cases| :: cases[i] != -1)
    && (|r| < |cases| ==> cases[|r|] == -1 || r == [])
  }

  lemma {:induction false} CasesTakenOff(ops: seq<Byte>, cases: seq<Mark>)
    ensures UpToMark(cases, ResolveCases(ops, cases).1)
    decreases |cases|
  {
    hide Patch;
    if cases != [] && Last(cases) != -1 {
      CasesTakenOff(Patch(ops, Last(cases), |ops| - Last(cases) + 1), ButLast(cases));
    }
  }

  /** The operand at h is that of a jump to t. */
  predicate HoleLeads(code: seq<Byte>, h: nat, t: nat) {
    1 <= h && h + 4 <= |code| && Target(code, h - 1) == t
  }

  lemma Resolved(code: seq<Byte>, h: nat, t: nat)
    requires 1 <= h && h + 4 <= |code| && t < WORD
    ensures HoleLeads(Patch(code, h, t - h + 1), h, t)
  {
    hide Patch;
    PatchedTarget(code, h - 1, t);
  }

  /** ELSE, THEN and ENDOF resolve the newest jump of their kind to behind what they compile. */
  lemma ForwardAfter(c: Comp, t: Token)
    requires Integrity(c) && |c.ops| + 5 < WORD && Step(c, t).Ok?
    ensures var code := Step(c, t).value.ops;
            && (t.Else? || t.Then? ==> c.ifs != [] && HoleLeads(code, Last(c.ifs), |code|))
            && (t.EndOf? ==> c.ofs != [] && HoleLeads(code, Last(c.ofs), |code|))
  {
    hide Integrity, Patch, ToBytes, HoleLeads;
    HolesStart(c);
    if t.Else? { Resolved(c.ops + ([OP_JMP] + ToBytes(Wrap(0))), Last(c.ifs), |c.ops| + 5); }
    if t.Then? { Resolved(c.ops, Last(c.ifs), |c.ops|); }
    if t.EndOf? { Resolved(c.ops + ([OP_JMP] + ToBytes(Wrap(0))), Last(c.ofs), |c.ops| + 5); }
  }

  /** UNTIL and AGAIN jump back to the newest BEGIN. */
  lemma BackAfter(c: Comp, t: Token)
    requires Integrity(c) && |c.ops| + 5 < WORD && Step(c, t).Ok? && (t.Until? || t.Again?)
    ensures var code := Step(c, t).value.ops;
            && c.begins != [] && |code| == |c.ops| + 5 && code[..|c.ops|] == c.ops
            && code[|c.ops|] == (if t.Until? then OP_JZ else OP_JMP) && HoleLeads(code, |c.ops| + 1, Last(c.begins))
  {
    hide Integrity, ToBytes, HoleLeads;
    BeginsInside(c);
    BackLeads(c.ops, if t.Until? then OP_JZ else OP_JMP, Last(c.begins));
  }

  /** REPEAT too, and it resolves the newest WHILE to behind that jump if it is newer than the BEGIN. */
  lemma RepeatAfter(c: Comp)
    requires Integrity(c) && |c.ops| + 5 < WORD && RepeatStep(c).Ok?
    ensures var code := RepeatStep(c).value.ops;
            && c.begins != [] && |code| == |c.ops| + 5 && code[|c.ops|] == OP_JMP
            && HoleLeads(code, |c.ops| + 1, Last(c.begins))
            && (c.whiles != [] && Last(c.whiles) > Last(c.begins) ==> HoleLeads(code, Last(c.whiles), |code|))
  {
    hide Integrity, ToBytes, Patch, HoleLeads;
    var n := |c.ops|;
    BeginsInside(c);
    HolesStart(c);
    if c.whiles != [] && Last(c.whiles) > Last(c.begins) {
      var ops := Patch(c.ops, Last(c.whiles), n - Last(c.whiles) + 6);
      Resolved(c.ops, Last(c.whiles), n + 5);
      BackLeads(ops, OP_JMP, Last(c.begins));
      StillLeads(ops, ops + ([OP_JMP] + ToBytes(Wrap(Last(c.begins) - n))), Last(c.whiles), n + 5);
    } else {
      BackLeads(c.ops, OP_JMP, Last(c.begins));
    }
  }

  predicate TopHole(s: seq<nat>, n: nat) {
    s != [] ==> 1 <= Last(s) && Last(s) + 4 <= n
  }

  lemma HolesStart(c: Comp)
    requires Integrity(c)
    ensures TopHole(c.ifs, |c.ops|) && TopHole(c.whiles, |c.ops|) && TopHole(c.ofs, |c.ops|)
  {
    hide JumpsSound, Open;
    StacksOpen(c);
    if c.ifs != [] { HoleInside(c.ops, Open(c), Last(c.ifs)); }
    if c.whiles != [] { HoleInside(c.ops, Open(c), Last(c.whiles)); }
    if c.ofs != [] { HoleInside(c.ops, Open(c), Last(c.ofs)); }
  }

  lemma BeginsInside(c: Comp)
    requires Integrity(c)
    ensures c.begins != [] ==> Last(c.begins) <= |c.ops|
  {
    hide JumpsSound;
  }

  lemma BackLeads(ops: seq<Byte>, op: Byte, t: nat)
    requires t <= |ops| && |ops| + 5 < WORD
    ensures HoleLeads(ops + ([op] + ToBytes(Wrap(t - |ops|))), |ops| + 1, t)
  {
    hide ToBytes, FromBytes;
    OperandIn(ops, op, Wrap(t - |ops|), ops + ([op] + ToBytes(Wrap(t - |ops|))));
    WrapDistance(0, |ops|, t);
  }

  lemma StillLeads(code: seq<Byte>, longer: seq<Byte>, h: nat, t: nat)
    requires HoleLeads(code, h, t) && code <= longer
    ensures HoleLeads(longer, h, t)
  {
    hide FromBytes;
    assert longer[h..h + 4] == code[h..h + 4];
  }

  // ----- ABORT" -----

  /** What a piece of code prints: strings by address and count, counted strings, and ends of lines. */
  datatype Piece = Text(a: Cell, u: Cell) | Counted(a: Cell) | Line

  datatype Value = Number(n: Cell) | Address(a: Cell) | First(a: Cell) | Count(a: Cell)

  /** Runs straight code from p on values, up to an ABORT; nothing, if it does anything else. */
  function Prints(code: seq<Byte>, p: nat, stack: seq<Value>): (r: Result<seq<Piece>>)
    requires p <= |code|
    decreases |code| - p
  {
    if p == |code| then Err(1)
    else
      var op := code[p];
      if op == OP_ABORT then Ok([])
      else if op == OP_CR then After([Line], Prints(code, p + 1, stack))
      else if (op == OP_ADDR || op == OP_IVAL) && p + 5 <= |code| then
        var n := Operand(code, p);
        Prints(code, p + 5, [if op == OP_ADDR then Address(n) else Number(n)] + stack)
      else if op == OP_COUNT && stack != [] && stack[0].Address? then
        Prints(code, p + 1, [Count(stack[0].a), First(stack[0].a)] + stack[1..])
      else if op == OP_TYPE && |stack| >= 2 && stack[0].Number? && stack[1].Address? then
        After([Text(stack[1].a, stack[0].n)], Prints(code, p + 1, stack[2..]))
      else if op == OP_TYPE && |stack| >= 2 && stack[0].Count? && stack[1] == First(stack[0].a) then
        After([Counted(stack[0].a)], Prints(code, p + 1, stack[2..]))
      else Err(1)
  }

  function After(s: seq<Piece>, r: Result<seq<Piece>>): Result<seq<Piece>> {
    if r.Ok? then Ok(s + r.value) else r
  }

  /**
   * The jump of ABORT" leads behind its code, and what it skips prints the name, the message and an end
   * of line, and aborts.
   */
  lemma AbortQuotePrints(c: Comp, name: Cell, count: Cell, text: Cell)
    requires |c.ops| + 25 < WORD
    ensures var code := AbortQuoteStep(c, name, count, text).ops; var n := |c.ops|;
            && |code| == n + 25 && code[..n] == c.ops && code[n] == OP_JZ && Target(code, n) == |code|
            && Prints(code, n + 5, []) == Ok([Text(name, count), Counted(text), Line])
  {
    hide ToBytes, FromBytes;
    var code := AbortQuoteStep(c, name, count, text).ops;
    var n := |c.ops|;
    WrapCell(name);
    WrapCell(count);
    WrapCell(text);
    assert code == c.ops + ([OP_JZ] + ToBytes(25)) + ([OP_ADDR] + ToBytes(name)) + ([OP_IVAL] + ToBytes(count))
      + [OP_TYPE]
                   + ([OP_ADDR] + ToBytes(text)) + [OP_COUNT, OP_TYPE, OP_CR, OP_ABORT];
    OperandIn(c.ops, OP_JZ, 25, code);
    var (c1, c2) := (c.ops + ([OP_JZ] + ToBytes(25)), c.ops + ([OP_JZ] + ToBytes(25)) + ([OP_ADDR] + ToBytes(name)));
    OperandIn(c1, OP_ADDR, name, code);
    OperandIn(c2, OP_IVAL, count, code);
    OperandIn(c2 + ([OP_IVAL] + ToBytes(count)) + [OP_TYPE], OP_ADDR, text, code);
    MessagePrints(code, n, name, count, text);
  }

  /** The code that is skipped, read byte by byte. */
  lemma MessagePrints(code: seq<Byte>, n: nat, name: Cell, count: Cell, text: Cell)
    requires |code| == n + 25 && code[n + 5] == OP_ADDR && Operand(code, n + 5) == name
    requires code[n + 10] == OP_IVAL && Operand(code, n + 10) == count && code[n + 15] == OP_TYPE
    requires code[n + 16] == OP_ADDR && Operand(code, n + 16) == text && code[n + 21] == OP_COUNT
    requires code[n + 22] == OP_TYPE && code[n + 23] == OP_CR && code[n + 24] == OP_ABORT
    ensures Prints(code, n + 5, []) == Ok([Text(name, count), Counted(text), Line])
  {
    hide Operand;
    var none: seq<Piece> := [];
    assert [Line] + none == [Line] && [Counted(text)] + [Line] == [Counted(text), Line];
    assert [Text(name, count)] + [Counted(text), Line] == [Text(name, count), Counted(text), Line];
    assert Prints(code, n + 24, []) == Ok([]);
    assert Prints(code, n + 23, []) == Ok([Line]);
    assert [Count(text), First(text)][2..] == [];
    assert Prints(code, n + 22, [Count(text), First(text)]) == Ok([Counted(text), Line]);
    assert [Count(text), First(text)] + [Address(text)][1..] == [Count(text), First(text)];
    assert Prints(code, n + 21, [Address(text)]) == Ok([Counted(text), Line]);
    assert [Address(text)] + [] == [Address(text)];
    assert Prints(code, n + 16, []) == Ok([Counted(text), Line]);
    assert [Number(count), Address(name)][2..] == [];
    assert Prints(code, n + 15, [Number(count), Address(name)]) == Ok([Text(name, count), Counted(text), Line]);
    assert [Number(count)] + [Address(name)] == [Number(count), Address(name)];
    assert Prints(code, n + 10, [Address(name)]) == Ok([Text(name, count), Counted(text), Line]);
    assert [Address(name)] + [] == [Address(name)];
  }

  /** An operand within code. */
  lemma OperandIn(before: seq<Byte>, op: Byte, n: Cell, code: seq<Byte>)
    requires before + ([op] + ToBytes(n)) <= code
    ensures |before| + 5 <= |code| && Operand(code, |before|) == n && code[|before|] == op
  {
    hide ToBytes, FromBytes;
    FromToBytes(n);
    var p := |before|;
    assert code[p + 1..p + 5] == (before + ([op] + ToBytes(n)))[p + 1..p + 5] == ToBytes(n);
  }
}
