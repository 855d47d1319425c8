/** The byte codes of src/fbc.h that the model uses, and the length of an instruction. */
module ByteCode {
  import opened Cells

  const OP_FALSE: Byte := 0
  const OP_TRUE: Byte := 1
  const OP_EXECUTE_BC: Byte := 25
  const OP_CR: Byte := 30
  const OP_STORE: Byte := 33
  const OP_AND: Byte := 38
  const OP_MUL: Byte := 42
  const OP_ADD: Byte := 43
  const OP_SUB: Byte := 45
  const OP_LT: Byte := 60
  const OP_EQ: Byte := 61
  const OP_GT: Byte := 62
  const OP_FETCH: Byte := 64
  const OP_ADDR: Byte := 65
  const OP_DEFINITION: Byte := 68
  const OP_FVAL: Byte := 70
  const OP_CALLADDR: Byte := 71
  const OP_IVAL: Byte := 73
  const OP_PTR: Byte := 78
  const OP_COUNT: Byte := 99
  const OP_I: Byte := 105
  const OP_J: Byte := 106
  const OP_TYPE: Byte := 116
  const OP_2VAL: Byte := 121
  const OP_NOT: Byte := 126
  const OP_INC: Byte := 160
  const OP_DEC: Byte := 161
  const OP_NEG: Byte := 163
  const OP_AFETCH: Byte := 225
  const OP_DROP: Byte := 200
  const OP_DUP: Byte := 201
  const OP_SWAP: Byte := 202
  const OP_OVER: Byte := 203
  const OP_ROT: Byte := 204
  const OP_NIP: Byte := 206
  const OP_TUCK: Byte := 207
  const OP_2DROP: Byte := 210
  const OP_2DUP: Byte := 211
  const OP_QUERYDUP: Byte := 216
  const OP_PUSH: Byte := 220
  const OP_POP: Byte := 221
  const OP_PUSHIP: Byte := 222
  const OP_RFETCH: Byte := 223
  const OP_JZ: Byte := 230
  const OP_JMP: Byte := 232
  const OP_LOOP: Byte := 233
  const OP_PLUSLOOP: Byte := 234
  const OP_UNLOOP: Byte := 235
  const OP_RET: Byte := 238
  const OP_ABORT: Byte := 239
  const OP_ZEROEQ: Byte := 244
  const OP_ZEROLT: Byte := 246
  const OP_ULT: Byte := 248

  predicate IsJump(op: Byte) {
    op == OP_JZ || op == OP_JMP
  }

  /** Opcodes followed by one 4-byte operand, other than the jumps. */
  predicate HasCell(op: Byte) {
    op == OP_ADDR || op == OP_IVAL || op == OP_PTR || op == OP_DEFINITION || op == OP_CALLADDR
  }

  /** Opcodes followed by eight bytes of operand. */
  predicate HasDouble(op: Byte) {
    op == OP_FVAL || op == OP_2VAL
  }

  /** The length in bytes of the instruction that starts with op. */
  function Len(op: Byte): nat {
    if IsJump(op) || HasCell(op) then 5 else if HasDouble(op) then 9 else 1
  }

  /** The operand of the five-byte instruction at p. */
  function Operand(code: seq<Byte>, p: nat): Cell
    requires p + 5 <= |code|
  {
    FromBytes(code[p + 1..p + 5])
  }

  /** Where the JZ or JMP at p leads: the address of the opcode plus its operand. */
  function Target(code: seq<Byte>, p: nat): Cell
    requires p + 5 <= |code|
  {
    Wrap(p + Operand(code, p))
  }

  /**
   * The code with the four bytes at offset h replaced by those of v (OpsCopyInt).
   * No offset outside the code is ever recorded (see JumpIntegrity).
   */
  function Patch(code: seq<Byte>, h: nat, v: int): (r: seq<Byte>)
    ensures |r| == |code|
    ensures h + 4 <= |code| ==> r[h..h + 4] == ToBytes(Wrap(v))
    ensures forall i :: 0 <= i < |code| && !(h <= i < h + 4) ==> r[i] == code[i]
  {
    if h + 4 <= |code| then code[..h] + ToBytes(Wrap(v)) + code[h + 4..] else code
  }

  /** After patching the operand of the jump at p with t - p, that jump leads to t. */
  lemma PatchedTarget(code: seq<Byte>, p: nat, t: nat)
    requires p + 5 <= |code| && t < WORD
    ensures Operand(Patch(code, p + 1, t - p), p) == Wrap(t - p)
    ensures Target(Patch(code, p + 1, t - p), p) == t
  {
    FromToBytes(Wrap(t - p));
    WrapDistance(0, p, t);
  }
}
