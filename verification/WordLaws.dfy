/**
 * What each instruction of the machine does, said of one step and without the functions that
 * the step is defined by: results by arithmetic modulo 2^32, by order, bit by bit and byte by byte.
 */
module WordLaws {
  import opened Cells
  import opened ByteCode
  import opened ByteVM

  /** An instruction of one byte leads from d to e. */
  ghost predicate Leads(op: Byte, d: Data, e: Data) {
    forall code: map<Cell, Byte>, entry: nat, ip: Cell | ip in code && code[ip] == op ::
      Step(code, entry, ip, d) == Running((ip + 1) % WORD, e)
  }

  // ----- arithmetic -----

  lemma Adds(d: Data, a: Cell, b: Cell, rest: seq<Cell>) returns (c: Cell)
    requires d.ds == [b, a] + rest
    ensures Leads(OP_ADD, d, d.(ds := [c] + rest)) && c == (a + b) % WORD
  {
    c := (a + b) % WORD;
  }

  /** a b -- a-b */
  lemma Subtracts(d: Data, a: Cell, b: Cell, rest: seq<Cell>) returns (c: Cell)
    requires d.ds == [b, a] + rest
    ensures Leads(OP_SUB, d, d.(ds := [c] + rest)) && (c + b) % WORD == a
  {
    c := (a - b) % WORD;
  }

  lemma Multiplies(d: Data, a: Cell, b: Cell, rest: seq<Cell>) returns (c: Cell)
    requires d.ds == [b, a] + rest
    ensures Leads(OP_MUL, d, d.(ds := [c] + rest)) && c == a * b % WORD
  {
    c := a * b % WORD;
  }

  /** 1+, 1- and NEGATE */
  lemma Counts(d: Data, a: Cell, rest: seq<Cell>) returns (up: Cell, down: Cell, minus: Cell)
    requires d.ds == [a] + rest
    ensures Leads(OP_INC, d, d.(ds := [up] + rest)) && up == (a + 1) % WORD
    ensures Leads(OP_DEC, d, d.(ds := [down] + rest)) && (down + 1) % WORD == a
    ensures Leads(OP_NEG, d, d.(ds := [minus] + rest)) && (minus + a) % WORD == 0
  {
    up, down, minus := (a + 1) % WORD, (a - 1) % WORD, -(a as int) % WORD;
  }

  // ----- comparisons -----

  /** All bits or none. */
  predicate IsFlag(c: Cell, b: bool) {
    c == if b then WORD - 1 else 0
  }

  /** Signed order is the order of the cells with the sign bit turned over. */
  function Biased(a: Cell): int {
    (a + 0x8000_0000) % WORD
  }

  /** A word of two operands, a below b, that leaves a flag. */
  ghost predicate Tells(op: Byte, d: Data, rest: seq<Cell>, b: bool) {
    exists c: Cell :: IsFlag(c, b) && Leads(op, d, d.(ds := [c] + rest))
  }

  lemma Compares(d: Data, a: Cell, b: Cell, rest: seq<Cell>)
    requires d.ds == [b, a] + rest
    ensures Tells(OP_EQ, d, rest, a == b) && Tells(OP_ULT, d, rest, a < b)
    ensures Tells(OP_LT, d, rest, Biased(a) < Biased(b)) && Tells(OP_GT, d, rest, Biased(a) > Biased(b))
  {
    hide Leads;
    FlagLeft(OP_EQ, d, a, b, rest, a == b);
    FlagLeft(OP_ULT, d, a, b, rest, a < b);
    FlagLeft(OP_LT, d, a, b, rest, Biased(a) < Biased(b));
    FlagLeft(OP_GT, d, a, b, rest, Biased(a) > Biased(b));
  }

  lemma FlagLeft(op: Byte, d: Data, a: Cell, b: Cell, rest: seq<Cell>, t: bool)
    requires d.ds == [b, a] + rest && (op == OP_EQ || op == OP_ULT || op == OP_LT || op == OP_GT)
    requires t == if op == OP_EQ then a == b else if op == OP_ULT then a < b
                  else if op == OP_LT then Biased(a) < Biased(b) else Biased(a) > Biased(b)
    ensures Tells(op, d, rest, t)
  {
    var c: Cell := if t then WORD - 1 else 0;
    assert IsFlag(c, t) && Leads(op, d, d.(ds := [c] + rest));
  }

  /** 0= and 0< */
  lemma ComparesZero(d: Data, a: Cell, rest: seq<Cell>)
    requires d.ds == [a] + rest
    ensures Tells(OP_ZEROEQ, d, rest, a == 0) && Tells(OP_ZEROLT, d, rest, a >= 0x8000_0000)
  {
    var (c: Cell, e: Cell) := (if a == 0 then WORD - 1 else 0, if a >= 0x8000_0000 then WORD - 1 else 0);
    assert IsFlag(c, a == 0) && Leads(OP_ZEROEQ, d, d.(ds := [c] + rest));
    assert IsFlag(e, a >= 0x8000_0000) && Leads(OP_ZEROLT, d, d.(ds := [e] + rest));
  }

  lemma PushesFlags(d: Data)
    ensures Leads(OP_TRUE, d, d.(ds := [WORD - 1] + d.ds)) && Leads(OP_FALSE, d, d.(ds := [0] + d.ds))
  {
  }

  // ----- bits -----

  predicate Bit(x: nat, i: nat) {
    if i == 0 then x % 2 == 1 else Bit(x / 2, i - 1)
  }

  lemma {:induction false} CommonBits(a: nat, b: nat, n: nat, i: nat)
    requires i < n
    ensures Bit(Common(a, b, n), i) <==> Bit(a, i) && Bit(b, i)
    decreases n
  {
    var c := Common(a / 2, b / 2, n - 1);
    assert Common(a, b, n) / 2 == c && Common(a, b, n) % 2 == (a % 2) * (b % 2) by { Lowest(c, a % 2, b % 2); }
    if i > 0 { CommonBits(a / 2, b / 2, n - 1, i - 1); }
  }

  lemma Lowest(c: nat, x: nat, y: nat)
    requires x <= 1 && y <= 1
    ensures (2 * c + x * y) / 2 == c && (2 * c + x * y) % 2 == x * y
    ensures x * y == if x == 1 && y == 1 then 1 else 0
  {
  }

  /** The largest number of n bits. */
  function Ones(n: nat): nat {
    if n == 0 then 0 else 2 * Ones(n - 1) + 1
  }

  lemma {:induction false} OtherBits(a: nat, c: nat, n: nat, i: nat)
    requires a + c == Ones(n) && i < n
    ensures Bit(c, i) <==> !Bit(a, i)
    decreases n
  {
    assert a / 2 + c / 2 == Ones(n - 1) && a % 2 + c % 2 == 1;
    if i > 0 { OtherBits(a / 2, c / 2, n - 1, i - 1); }
  }

  lemma OnesOfCell()
    ensures Ones(32) == WORD - 1
  {
    assert Ones(8) == 0xFF;
    assert Ones(16) == 0xFFFF;
    assert Ones(24) == 0xFF_FFFF;
  }

  /** AND keeps the bits that both cells have, and NOT turns every bit over. */
  lemma WorksOnBits(d: Data, a: Cell, b: Cell, rest: seq<Cell>) returns (both: Cell, other: Cell)
    requires d.ds == [b, a] + rest
    ensures Leads(OP_AND, d, d.(ds := [both] + rest))
    ensures Leads(OP_NOT, d, d.(ds := [other, a] + rest))
    ensures forall i: nat | i < 32 :: Bit(both, i) <==> Bit(a, i) && Bit(b, i)
    ensures forall i: nat | i < 32 :: Bit(other, i) <==> !Bit(b, i)
  {
    hide Bit, Common, Ones;
    both, other := And(a, b), WORD - 1 - b;
    OnesOfCell();
    forall i: nat | i < 32
      ensures (Bit(both, i) <==> Bit(a, i) && Bit(b, i)) && (Bit(other, i) <==> !Bit(b, i))
    {
      CommonBits(a, b, 32, i);
      OtherBits(b, other, 32, i);
    }
    assert d.ds[1..] == [a] + rest;
  }

  // ----- memory -----

  /** The cell at an address is v, low byte first. */
  predicate Holds(mem: map<Cell, Byte>, a: Cell, v: Cell) {
    && a + 3 < WORD && a in mem && a + 1 in mem && a + 2 in mem && a + 3 in mem
    && var (b0: int, b1: int, b2: int, b3: int) := (mem[a], mem[a + 1], mem[a + 2], mem[a + 3]);
       b0 + 0x100 * b1 + 0x1_0000 * b2 + 0x100_0000 * b3 == v
  }

  /** ! leaves the cell at the address, low byte first, and every other byte as it was. */
  lemma Stores(d: Data, v: Cell, a: Cell, rest: seq<Cell>) returns (mem: map<Cell, Byte>)
    requires d.ds == [a, v] + rest && InMemory(d.mem, a)
    ensures Leads(OP_STORE, d, d.(ds := rest, mem := mem)) && Holds(mem, a, v)
    ensures mem.Keys == d.mem.Keys && forall x | x in mem && !(a <= x < a + 4) :: mem[x] == d.mem[x]
  {
    hide ToBytes;
    mem := Store(d.mem, a, v);
    FromToBytes(v);
    assert d.ds[2..] == rest;
  }

  /** @ and A@ bring the cell at the address. */
  lemma Fetches(d: Data, a: Cell, rest: seq<Cell>, v: Cell)
    requires d.ds == [a] + rest && Holds(d.mem, a, v)
    ensures Leads(OP_FETCH, d, d.(ds := [v] + rest)) && Leads(OP_AFETCH, d, d.(ds := [v] + rest))
  {
    assert d.ds[1..] == rest;
  }

  // ----- words that move cells -----

  lemma MovesOne(d: Data, a: Cell, rest: seq<Cell>)
    requires d.ds == [a] + rest
    ensures Leads(OP_DROP, d, d.(ds := rest)) && Leads(OP_DUP, d, d.(ds := [a, a] + rest))
    ensures Leads(OP_QUERYDUP, d, if a == 0 then d else d.(ds := [a, a] + rest))
    ensures Leads(OP_PUSH, d, d.(ds := rest, rs := [a] + d.rs))
  {
    assert d.ds[1..] == rest;
  }

  lemma MovesTwo(d: Data, a: Cell, b: Cell, rest: seq<Cell>)
    requires d.ds == [b, a] + rest
    ensures Leads(OP_SWAP, d, d.(ds := [a, b] + rest)) && Leads(OP_OVER, d, d.(ds := [a, b, a] + rest))
    ensures Leads(OP_NIP, d, d.(ds := [b] + rest)) && Leads(OP_TUCK, d, d.(ds := [b, a, b] + rest))
  {
    hide Flag, Signed, And;
    assert d.ds[2..] == rest;
  }

  lemma MovesPair(d: Data, a: Cell, b: Cell, rest: seq<Cell>)
    requires d.ds == [b, a] + rest
    ensures Leads(OP_2DROP, d, d.(ds := rest)) && Leads(OP_2DUP, d, d.(ds := [b, a, b, a] + rest))
  {
    hide Flag, Signed, And;
    assert d.ds[2..] == rest;
  }

  lemma MovesThree(d: Data, a: Cell, b: Cell, c: Cell, rest: seq<Cell>)
    requires d.ds == [c, b, a] + rest
    ensures Leads(OP_ROT, d, d.(ds := [a, c, b] + rest))
  {
    assert d.ds[3..] == rest;
  }

  /** R>, R@ and UNLOOP; >R and then R> change nothing. */
  lemma MovesBack(d: Data, a: Cell, rest: seq<Cell>)
    requires d.rs == [a] + rest
    ensures Leads(OP_POP, d, d.(ds := [a] + d.ds, rs := rest)) && Leads(OP_RFETCH, d, d.(ds := [a] + d.ds))
    ensures d.ds != [] ==>
              var e := d.(ds := d.ds[1..], rs := [d.ds[0]] + d.rs);
              Leads(OP_PUSH, d, e) && Leads(OP_POP, e, d)
  {
    assert d.rs[1..] == rest;
    if d.ds != [] {
      var e := d.(ds := d.ds[1..], rs := [d.ds[0]] + d.rs);
      assert [d.ds[0]] + d.ds[1..] == d.ds && e.rs[1..] == d.rs;
    }
  }

  /**
   * The index is the third cell of its loop on the return stack; I is the inner one, J the outer, UNLOOP
   * ends the inner.
   */
  lemma MovesIndex(d: Data, start: Cell, limit: Cell, index: Cell, rest: seq<Cell>)
    requires d.rs == [start, limit, index] + rest
    ensures Leads(OP_I, d, d.(ds := [index] + d.ds)) && Leads(OP_UNLOOP, d, d.(rs := rest))
    ensures forall start2, limit2, index2 ::
              var e := d.(rs := [start2, limit2, index2] + d.rs);
              Leads(OP_I, e, e.(ds := [index2] + e.ds)) && Leads(OP_J, e, e.(ds := [index] + e.ds))
  {
    assert d.rs[3..] == rest;
  }

  // ----- instructions with an operand, and control -----

  /** A cell behind the opcode, low byte first. */
  predicate Operates(code: map<Cell, Byte>, ip: Cell, op: Byte, n: Cell) {
    ip + 4 < WORD && ip in code && code[ip] == op && Holds(code, ip + 1, n)
  }

  lemma OperandIs(code: map<Cell, Byte>, ip: Cell, op: Byte, n: Cell)
    requires Operates(code, ip, op, n)
    ensures HasOperand(code, ip) && OperandAt(code, ip) == n
  {
  }

  /**
   * Literals push their operand; JMP goes to its own address plus the operand, JZ only if the cell that
   * it takes is 0.
   */
  lemma Branches(code: map<Cell, Byte>, entry: nat, ip: Cell, n: Cell, d: Data)
    ensures Operates(code, ip, OP_IVAL, n) || Operates(code, ip, OP_ADDR, n) ==>
              Step(code, entry, ip, d) == Running((ip + 5) % WORD, d.(ds := [n] + d.ds))
    ensures Operates(code, ip, OP_JMP, n) ==> Step(code, entry, ip, d) == Running((ip + n) % WORD, d)
    ensures Operates(code, ip, OP_JZ, n) && d.ds != [] ==>
              Step(code, entry, ip, d) ==
              Running(if d.ds[0] == 0 then (ip + n) % WORD else (ip + 5) % WORD, d.(ds := d.ds[1..]))
  {
    hide OperandAt, HasOperand;
    if Operates(code, ip, OP_IVAL, n) { OperandIs(code, ip, OP_IVAL, n); }
    if Operates(code, ip, OP_ADDR, n) { OperandIs(code, ip, OP_ADDR, n); }
    if Operates(code, ip, OP_JMP, n) { OperandIs(code, ip, OP_JMP, n); }
    if Operates(code, ip, OP_JZ, n) { OperandIs(code, ip, OP_JZ, n); }
  }

  /**
   * A call goes to its operand, and a RET then to behind the call; with nothing saved since the entry,
   * RET ends the run.
   */
  lemma Calls(code: map<Cell, Byte>, entry: nat, ip: Cell, n: Cell, d: Data) returns (back: Cell)
    requires Operates(code, ip, OP_DEFINITION, n) && |d.rs| >= entry
    ensures Step(code, entry, ip, d) == Running(n, d.(rs := [back] + d.rs))
    ensures forall at: Cell, e: Data | at in code && code[at] == OP_RET && e.rs == [back] + d.rs ::
              Step(code, entry, at, e) == Running((ip + 5) % WORD, e.(rs := d.rs))
    ensures forall at: Cell, e: Data | at in code && code[at] == OP_RET && |e.rs| <= entry ::
            Step(code, entry, at, e) == Returned(e)
  {
    hide OperandAt, HasOperand;
    OperandIs(code, ip, OP_DEFINITION, n);
    back := (ip + 4) % WORD;
  }

  /** EXECUTE of an address likewise. */
  lemma Executes(code: map<Cell, Byte>, entry: nat, ip: Cell, d: Data, a: Cell, rest: seq<Cell>)
    requires ip in code && code[ip] == OP_EXECUTE_BC && d.ds == [a] + rest && |d.rs| >= entry
    ensures Step(code, entry, ip, d) == Running(a, d.(ds := rest, rs := [ip] + d.rs))
    ensures forall at: Cell, e: Data | at in code && code[at] == OP_RET && e.rs == [ip] + d.rs ::
              Step(code, entry, at, e) == Running((ip + 1) % WORD, e.(rs := d.rs))
  {
    assert d.ds[1..] == rest;
  }
}
