/** The machine as it runs, its stacks in arrays, changed access by access, against the step function of ByteVM. */
module ByteMachine {
  import opened Cells
  import opened ByteCode
  import opened ByteVM
  import opened CellStacks

  class FastVM {
    const code: map<Cell, Byte>
    const entry: nat
    const ds: Stack<Cell>
    const rs: Stack<Cell>
    var ip: Cell
    var mem: map<Cell, Byte>

    ghost predicate Valid()
      reads ds, rs
    {
      ds != rs && ds.cells != rs.cells && ds.Valid() && rs.Valid()
    }

    /** The stacks are not full: no word pushes more than two cells, or saves more than one. */
    predicate Room()
      reads ds, rs
    {
      ds.sp >= 1 && rs.sp >= 0
    }

    constructor (code: map<Cell, Byte>, start: Cell, d: Data, size: nat)
      requires |d.ds| <= size && |d.rs| <= size
      ensures Valid() && this.code == code && ip == start && Now() == d && entry == |d.rs|
      ensures ds.cells.Length == rs.cells.Length == size
    {
      this.code, entry := code, |d.rs|;
      ds := new Stack<Cell>(size, d.ds, 0);
      rs := new Stack<Cell>(size, d.rs, 0);
      ip, mem := start, d.mem;
    }

    ghost function Now(): Data
      reads this, ds, ds.cells, rs, rs.cells
      requires Valid()
    {
      Data(ds.Contents(), rs.Contents(), mem)
    }

    /** A word has had effect e, or nothing has changed because it has none. */
    twostate predicate Had(e: Effect, ok: bool)
      reads this, ds, ds.cells, rs, rs.cells
      requires old(Valid())
    {
      Valid() && ok == e.Next? && ip == old(ip) && Now() == if ok then e.d else old(Now())
    }

    // ----- words -----

    method CopySaved(i: nat) returns (ok: bool)
      requires Valid() && Room()
      modifies ds, ds.cells
      ensures Valid() && (ok <==> i < |Now().rs|)
      ensures Now() == if ok then old(Now()).(ds := [old(Now()).rs[i]] + old(Now()).ds) else old(Now())
    {
      ok := i < rs.Depth();
      if ok { ds.Push(rs.Get(i)); }
    }

    /** The words of no operand. */
    method Nullary(op: Byte) returns (ok: bool)
      requires Valid() && Room()
      modifies this, ds, ds.cells, rs, rs.cells
      ensures Had(ByteVM.Nullary(op, old(Now())), ok)
    {
      hide Stack.Contents;
      ok := true;
      if op == OP_FALSE { ds.Push(0); }
      else if op == OP_TRUE { ds.Push(0xFFFF_FFFF); }
      else if op == OP_POP {
        ok := CopySaved(0);
        if ok { rs.Drop(1); }
      }
      else if op == OP_RFETCH { ok := CopySaved(0); }
      else if op == OP_I { ok := CopySaved(2); }
      else if op == OP_J { ok := CopySaved(5); }
      else if op == OP_UNLOOP && rs.Depth() >= 3 { rs.Drop(3); }
      else { ok := false; }
    }

    /** The words that compute one cell from the top one. */
    method Compute(op: Byte)
      requires Valid() && |ds.Contents()| >= 1
      requires op == OP_INC || op == OP_DEC || op == OP_NEG || op == OP_NOT || op == OP_ZEROEQ || op == OP_ZEROLT
      modifies ds.cells
      ensures Had(ByteVM.Unary(op, old(Now())), true)
    {
      hide Flag, Signed, Wrap, Stack.Contents;
      var a: int := ds.Get(0);
      if op == OP_INC { ds.Set(0, Wrap(a + 1)); }
      else if op == OP_DEC { ds.Set(0, Wrap(a - 1)); }
      else if op == OP_NEG { ds.Set(0, Wrap(-a)); }
      else if op == OP_NOT { ds.Set(0, WORD - 1 - a); }
      else if op == OP_ZEROEQ { ds.Set(0, Flag(a == 0)); }
      else { ds.Set(0, Flag(Signed(a) < 0)); }
    }

    /** The words of one operand. */
    method Unary(op: Byte) returns (ok: bool)
      requires Valid() && Room() && |ds.Contents()| >= 1
      modifies this, ds, ds.cells, rs, rs.cells
      ensures Had(ByteVM.Unary(op, old(Now())), ok)
    {
      hide Flag, Signed, Fetch, InMemory, Wrap, Stack.Contents;
      var a := ds.Get(0);
      ok := true;
      if op == OP_DROP { ds.Drop(1); }
      else if op == OP_DUP { ds.Push(a); }
      else if op == OP_QUERYDUP { if a != 0 { ds.Push(a); } }
      else if op == OP_INC || op == OP_DEC || op == OP_NEG || op == OP_NOT || op == OP_ZEROEQ || op == OP_ZEROLT {
        Compute(op);
      }
      else if op == OP_PUSH {
        ds.Drop(1);
        rs.Push(a);
      }
      else if (op == OP_FETCH || op == OP_AFETCH) && InMemory(mem, a) { ds.Set(0, Fetch(mem, a)); }
      else { ok := false; }
    }

    /** The words that only move and copy two cells. */
    method Shuffle(op: Byte)
      requires Valid() && Room() && |ds.Contents()| >= 2
      requires op == OP_SWAP || op == OP_OVER || op == OP_TUCK || op == OP_2DROP || op == OP_2DUP
      modifies this, ds, ds.cells
      ensures Had(ByteVM.Binary(op, old(Now())), true) && rs.Valid()
    {
      hide Combine, Store, InMemory, Stack.Contents;
      if op == OP_SWAP { ds.Swap(); }
      else if op == OP_OVER { ds.Over(); }
      else if op == OP_TUCK { ds.Tuck(); }
      else if op == OP_2DROP { ds.Drop(2); }
      else { ds.TwoDup(); }
    }

    /** The words of two operands. */
    method Binary(op: Byte) returns (ok: bool)
      requires Valid() && Room() && |ds.Contents()| >= 2
      modifies this, ds, ds.cells, rs, rs.cells
      ensures Had(ByteVM.Binary(op, old(Now())), ok)
    {
      hide Combine, Store, InMemory, Stack.Contents;
      var (b, a) := (ds.Get(0), ds.Get(1));
      ok := true;
      if op == OP_NIP {
        ds.Nip();
        NipIs(a, b);
      }
      else if IsCombine(op) { ds.Combine(Combine(op, a, b)); }
      else if op == OP_SWAP || op == OP_OVER || op == OP_TUCK || op == OP_2DROP || op == OP_2DUP { Shuffle(op); }
      else if op == OP_STORE && InMemory(mem, b) {
        ds.Drop(2);
        mem := Store(mem, b, a);
      }
      else { ok := false; }
    }

    /** A word that does not change the course of execution. */
    method Word(op: Byte) returns (ok: bool)
      requires Valid() && Room()
      modifies this, ds, ds.cells, rs, rs.cells
      ensures Had(Perform(op, old(Now())), ok)
    {
      hide ByteVM.Nullary, ByteVM.Unary, ByteVM.Binary, Stack.Contents;
      ok := false;
      if IsNullary(op) { ok := Nullary(op); }
      else if IsUnary(op) { if ds.Depth() >= 1 { ok := Unary(op); } }
      else if op == OP_ROT {
        ok := ds.Depth() >= 3;
        if ok { ds.Rot(); }
      }
      else if ds.Depth() >= 2 { ok := Binary(op); }
    }

    // ----- control -----

    /** The machine is in status s. */
    ghost predicate Is(s: Status)
      reads this, ds, ds.cells, rs, rs.cells
    {
      Valid() && (s.Running? ==> ip == s.ip && Now() == s.d)
    }

    /** An instruction with a cell behind its opcode. */
    method CellInstruction(op: Byte, n: Cell) returns (ghost s: Status, on: bool)
      requires Valid() && Room()
      modifies this, ds, ds.cells, rs, rs.cells
      ensures s == StepCell(op, n, old(ip), old(Now())) && Is(s) && (on <==> s.Running?)
    {
      hide Stack.Contents, Wrap;
      var (at: int, off: int) := (ip, n);
      s, on := Lost, true;
      if op == OP_JMP { ip := Wrap(at + off); }
      else if op == OP_JZ {
        if ds.Depth() == 0 { return Lost, false; }
        ip := Wrap(if ds.Get(0) == 0 then at + off else at + 5);
        ds.Drop(1);
      }
      else if op == OP_IVAL || op == OP_ADDR {
        ip := Wrap(at + 5);
        ds.Push(n);
      }
      else if op == OP_DEFINITION {
        rs.Push(Wrap(at + 4));
        ip := n;
      }
      else { return Lost, false; }
      s := Running(ip, Now());
    }

    /** LOOP and +LOOP. */
    method Loop(plus: bool) returns (ghost s: Status, on: bool)
      requires Valid() && Room()
      modifies this, ds, ds.cells, rs, rs.cells
      ensures s == StepFlow(if plus then OP_PLUSLOOP else OP_LOOP, entry, old(ip), old(Now())) && Is(s)
              && (on <==> s.Running?)
    {
      hide PlusLoopEnds, LoopEnds, AfterTop, Wrap, Stack.Contents;
      if rs.Depth() < 3 || (plus && ds.Depth() == 0) { return Lost, false; }
      var (index, limit, start) := (rs.Get(2), rs.Get(1), AfterTop([rs.Get(0)]));
      AfterFirst(rs.Contents());
      var step: int := 1;
      var ends := LoopEnds(index, limit);
      if plus {
        step, ends := ds.Get(0), PlusLoopEnds(index, limit, ds.Get(0));
        ds.Drop(1);
      }
      if ends {
        rs.Drop(3);
        ip := AfterTop([ip]);
      } else {
        rs.Set(2, Wrap((index as int) + step));
        ip := start;
      }
      s, on := Running(ip, Now()), true;
    }

    /** A one-byte instruction that changes the course of execution. */
    method FlowInstruction(op: Byte) returns (ghost s: Status, on: bool)
      requires Valid() && Room() && IsFlow(op)
      modifies this, ds, ds.cells, rs, rs.cells
      ensures s == StepFlow(op, entry, old(ip), old(Now())) && Is(s) && (on <==> s.Running?)
    {
      hide LoopBack, AfterTop, Stack.Contents;
      if op == OP_PUSHIP {
        rs.Push(ip);
        ip := AfterTop([ip]);
      }
      else if op == OP_EXECUTE_BC {
        if ds.Depth() == 0 { return Lost, false; }
        rs.Push(ip);
        ip := ds.Get(0);
        ds.Drop(1);
      }
      else if op == OP_RET {
        if rs.Depth() <= entry { return Returned(Now()), false; }
        AfterFirst(rs.Contents());
        ip := AfterTop([rs.Get(0)]);
        rs.Drop(1);
      }
      else {
        s, on := Loop(op == OP_PLUSLOOP);
        return;
      }
      s, on := Running(ip, Now()), true;
    }

    method Instruction() returns (ghost s: Status, on: bool)
      requires Valid() && Room()
      modifies this, ds, ds.cells, rs, rs.cells
      ensures s == Step(code, entry, old(ip), old(Now())) && Is(s) && (on <==> s.Running?)
    {
      hide StepCell, StepFlow, Perform, OperandAt, AfterTop, Stack.Contents;
      if ip !in code { return Lost, false; }
      var op := code[ip];
      if TakesCell(op) {
        if !HasOperand(code, ip) { return Lost, false; }
        s, on := CellInstruction(op, OperandAt(code, ip));
      } else if IsFlow(op) {
        s, on := FlowInstruction(op);
      } else {
        var ok := Word(op);
        if !ok { return Lost, false; }
        ip := AfterTop([ip]);
        s, on := Running(ip, Now()), true;
      }
    }

    /**
     * Runs until it returns, or is lost, or has executed n instructions, or a stack has no room left
     * for the next one.
     */
    method Execute(n: nat) returns (ghost s: Status, k: nat)
      requires Valid()
      modifies this, ds, ds.cells, rs, rs.cells
      ensures k <= n && s == Run(code, entry, Running(old(ip), old(Now())), k) && Is(s)
      ensures k < n && s.Running? ==> |Now().ds| >= ds.cells.Length - 1 || |Now().rs| == rs.cells.Length
    {
      hide Step, Stack.Contents;
      s, k := Running(ip, Now()), 0;
      ghost var start := s;
      var on := true;
      while k < n && on && Room()
        invariant k <= n && Is(s) && (on <==> s.Running?) && s == Run(code, entry, start, k)
      {
        RunOne(code, entry, start, k);
        s, on := Instruction();
        k := k + 1;
      }
    }
  }

  lemma NipIs(a: Cell, b: Cell)
    ensures Combine(OP_NIP, a, b) == b
  {
  }

  lemma AfterFirst(rs: seq<Cell>)
    requires rs != []
    ensures AfterTop([rs[0]]) == AfterTop(rs)
  {
  }

  /** One instruction more of a run that goes on. */
  lemma RunOne(code: map<Cell, Byte>, entry: nat, s: Status, k: nat)
    ensures var t := Run(code, entry, s, k); t.Running? ==> Run(code, entry, s, k + 1) == Step(code, entry, t.ip, t.d)
  {
    hide Step;
    RunMore(code, entry, s, k, 1);
  }
}
