/** bpf/instructions.go and bpf/asm.go: BPF instructions and their machine encoding. */
module BpfAsm {
  import opened Common

  type Uint8 = x: int | 0 <= x < 0x100
  type Uint16 = bv16
  type Uint32 = x: int | 0 <= x < 0x1_0000_0000

  const REG_A: Uint16 := 0
  const REG_X: Uint16 := 1

  const ALU_ADD: Uint16 := 0x00
  const ALU_SUB: Uint16 := 0x10
  const ALU_MUL: Uint16 := 0x20
  const ALU_DIV: Uint16 := 0x30
  const ALU_OR: Uint16 := 0x40
  const ALU_AND: Uint16 := 0x50
  const ALU_SHIFT_LEFT: Uint16 := 0x60
  const ALU_SHIFT_RIGHT: Uint16 := 0x70
  const ALU_NEG: Uint16 := 0x80
  const ALU_MOD: Uint16 := 0x90
  const ALU_XOR: Uint16 := 0xa0

  const JUMP_EQUAL: Uint16 := 0
  const JUMP_NOT_EQUAL: Uint16 := 1
  const JUMP_GREATER_THAN: Uint16 := 2
  const JUMP_LESS_THAN: Uint16 := 3
  const JUMP_GREATER_OR_EQUAL: Uint16 := 4
  const JUMP_LESS_OR_EQUAL: Uint16 := 5
  const JUMP_BITS_SET: Uint16 := 6
  const JUMP_BITS_NOT_SET: Uint16 := 7

  const EXT_LEN := 1

  /** Loads from here on stand for extensions. */
  const EXT_BASE: Uint32 := 0xffff_f000

  datatype Raw = Raw(op: Uint16, jt: Uint8, jf: Uint8, k: Uint32)

  datatype Instruction =
    | LoadConstant(dst: Uint16, val: Uint32)
    | LoadScratch(dst: Uint16, n: int)
    | LoadAbsolute(off: Uint32, size: int)
    | LoadIndirect(off: Uint32, size: int)
    | LoadMemShift(off: Uint32)
    | LoadExtension(num: int)
    | StoreScratch(src: Uint16, n: int)
    | ALUOpConstant(op: Uint16, val: Uint32)
    | ALUOpX(op: Uint16)
    | NegateA
    | Jump(skip: Uint32)
    | JumpIf(cond: Uint16, val: Uint32, skipTrue: Uint8, skipFalse: Uint8)
    | JumpIfX(cond: Uint16, skipTrue: Uint8, skipFalse: Uint8)
    | RetA
    | RetConstant(val: Uint32)
    | TXA
    | TAX
    | RawInstruction(raw: Raw)

  // ----- Opcode fields -----

  const CLS_LOAD_A: Uint16 := 0
  const CLS_LOAD_X: Uint16 := 1
  const CLS_STORE_A: Uint16 := 2
  const CLS_STORE_X: Uint16 := 3
  const CLS_ALU: Uint16 := 4
  const CLS_JUMP: Uint16 := 5
  const CLS_RETURN: Uint16 := 6
  const CLS_MISC: Uint16 := 7

  const MODE_IMMEDIATE: Uint16 := 0x00
  const MODE_ABSOLUTE: Uint16 := 0x20
  const MODE_INDIRECT: Uint16 := 0x40
  const MODE_SCRATCH: Uint16 := 0x60
  const MODE_PACKET_LEN: Uint16 := 0x80
  const MODE_MEM_SHIFT: Uint16 := 0xa0

  const OPERAND_CONSTANT: Uint16 := 0x00
  const OPERAND_X: Uint16 := 0x08

  const OP_JUMP_ALWAYS: Uint16 := 0x00
  const OP_JUMP_EQUAL: Uint16 := 0x10
  const OP_JUMP_GT: Uint16 := 0x20
  const OP_JUMP_GE: Uint16 := 0x30
  const OP_JUMP_SET: Uint16 := 0x40

  const RET_SRC_A: Uint16 := 0x10
  const MISC_TAX: Uint16 := 0x00
  const MISC_TXA: Uint16 := 0x80

  // ----- Assembling -----

  function AssembleLoad(dst: Uint16, size: int, mode: Uint16, k: Uint32): (r: Option<Raw>) {
    if dst != REG_A && dst != REG_X then None
    else
      var cls := if dst == REG_A then CLS_LOAD_A else CLS_LOAD_X;
      if size == 4 then Some(Raw(cls | 0x00 | mode, 0, 0, k))
      else if size == 2 then Some(Raw(cls | 0x08 | mode, 0, 0, k))
      else if size == 1 then Some(Raw(cls | 0x10 | mode, 0, 0, k))
      else None
  }

  /** The machine knows four tests; the other four are those with the skips swapped. */
  function JumpToRaw(test: Uint16, operand: Uint16, k: Uint32, skipTrue: Uint8, skipFalse: Uint8): (r: Option<Raw>) {
    if test == JUMP_EQUAL then Some(Raw(CLS_JUMP | OP_JUMP_EQUAL | operand, skipTrue, skipFalse, k))
    else if test == JUMP_NOT_EQUAL then Some(Raw(CLS_JUMP | OP_JUMP_EQUAL | operand, skipFalse, skipTrue, k))
    else if test == JUMP_GREATER_THAN then Some(Raw(CLS_JUMP | OP_JUMP_GT | operand, skipTrue, skipFalse, k))
    else if test == JUMP_LESS_THAN then Some(Raw(CLS_JUMP | OP_JUMP_GE | operand, skipFalse, skipTrue, k))
    else if test == JUMP_GREATER_OR_EQUAL then Some(Raw(CLS_JUMP | OP_JUMP_GE | operand, skipTrue, skipFalse, k))
    else if test == JUMP_LESS_OR_EQUAL then Some(Raw(CLS_JUMP | OP_JUMP_GT | operand, skipFalse, skipTrue, k))
    else if test == JUMP_BITS_SET then Some(Raw(CLS_JUMP | OP_JUMP_SET | operand, skipTrue, skipFalse, k))
    else if test == JUMP_BITS_NOT_SET then Some(Raw(CLS_JUMP | OP_JUMP_SET | operand, skipFalse, skipTrue, k))
    else None
  }

  /** Go's conversion of an int to uint32. */
  function ToUint32(x: int): (r: Uint32) {
    x % 0x1_0000_0000
  }

  function Assemble(ins: Instruction): (r: Option<Raw>) {
    match ins
    case LoadConstant(dst, val) => AssembleLoad(dst, 4, MODE_IMMEDIATE, val)
    case LoadScratch(dst, n) => if n < 0 || n > 15 then None else AssembleLoad(dst, 4, MODE_SCRATCH, n)
    case LoadAbsolute(off, size) => AssembleLoad(REG_A, size, MODE_ABSOLUTE, off)
    case LoadIndirect(off, size) => AssembleLoad(REG_A, size, MODE_INDIRECT, off)
    case LoadMemShift(off) => AssembleLoad(REG_X, 1, MODE_MEM_SHIFT, off)
    case LoadExtension(num) =>
      if num == EXT_LEN then AssembleLoad(REG_A, 4, MODE_PACKET_LEN, 0)
      else AssembleLoad(REG_A, 4, MODE_ABSOLUTE, ToUint32(-0x1000 + num))
    case StoreScratch(src, n) =>
      if n < 0 || n > 15 then None
      else if src == REG_A then Some(Raw(CLS_STORE_A, 0, 0, n))
      else if src == REG_X then Some(Raw(CLS_STORE_X, 0, 0, n))
      else None
    case ALUOpConstant(op, val) => Some(Raw(CLS_ALU | OPERAND_CONSTANT | op, 0, 0, val))
    case ALUOpX(op) => Some(Raw(CLS_ALU | OPERAND_X | op, 0, 0, 0))
    case NegateA => Some(Raw(CLS_ALU | ALU_NEG, 0, 0, 0))
    case Jump(skip) => Some(Raw(CLS_JUMP | OP_JUMP_ALWAYS, 0, 0, skip))
    case JumpIf(cond, val, skipTrue, skipFalse) => JumpToRaw(cond, OPERAND_CONSTANT, val, skipTrue, skipFalse)
    case JumpIfX(cond, skipTrue, skipFalse) => JumpToRaw(cond, OPERAND_X, 0, skipTrue, skipFalse)
    case RetA => Some(Raw(CLS_RETURN | RET_SRC_A, 0, 0, 0))
    case RetConstant(val) => Some(Raw(CLS_RETURN, 0, 0, val))
    case TXA => Some(Raw(CLS_MISC | MISC_TXA, 0, 0, 0))
    case TAX => Some(Raw(CLS_MISC | MISC_TAX, 0, 0, 0))
    case RawInstruction(raw) => Some(raw)
  }

  // ----- Disassembling -----

  predicate ExportedALUOp(op: Uint16) {
    op in {ALU_ADD, ALU_SUB, ALU_MUL, ALU_DIV, ALU_OR, ALU_AND, ALU_SHIFT_LEFT, ALU_SHIFT_RIGHT, ALU_MOD, ALU_XOR}
  }

  /** A machine test that never skips when true is read as the opposite test. */
  function JumpOpToTest(op: Uint16, skipTrue: Uint8, skipFalse: Uint8): (r: (Uint16, Uint8, Uint8)) {
    if skipTrue == 0 then
      ((if op == OP_JUMP_EQUAL then JUMP_NOT_EQUAL
        else if op == OP_JUMP_GT then JUMP_LESS_OR_EQUAL
        else if op == OP_JUMP_GE then JUMP_LESS_THAN
        else JUMP_BITS_NOT_SET), skipFalse, 0)
    else
      ((if op == OP_JUMP_EQUAL then JUMP_EQUAL
        else if op == OP_JUMP_GT then JUMP_GREATER_THAN
        else if op == OP_JUMP_GE then JUMP_GREATER_OR_EQUAL
        else JUMP_BITS_SET), skipTrue, skipFalse)
  }

  function DisassembleLoad(ri: Raw): (ins: Instruction) {
    var reg := ri.op & 0x01;
    var width := ri.op & 0x18;
    var mode := ri.op & 0xe0;
    if width == 0x18 then RawInstruction(ri)
    else
      var size := if width == 0x00 then 4 else if width == 0x08 then 2 else 1;
      if mode == MODE_IMMEDIATE then if size != 4 then RawInstruction(ri) else LoadConstant(reg, ri.k)
      else if mode == MODE_SCRATCH then if size != 4 || ri.k > 15 then RawInstruction(ri) else LoadScratch(reg, ri.k)
      else if mode == MODE_ABSOLUTE then
        if ri.k > 0xffff_efff then LoadExtension(ToUint32(ri.k + 0x1000)) else LoadAbsolute(ri.k, size)
      else if mode == MODE_INDIRECT then LoadIndirect(ri.k, size)
      else if mode == MODE_PACKET_LEN then if size != 4 then RawInstruction(ri) else LoadExtension(EXT_LEN)
      else if mode == MODE_MEM_SHIFT then LoadMemShift(ri.k)
      else RawInstruction(ri)
  }

  function DisassembleALU(ri: Raw): (ins: Instruction) {
    var op := ri.op & 0xf0;
    if ExportedALUOp(op) then
      if ri.op & 0x08 == OPERAND_X then ALUOpX(op) else ALUOpConstant(op, ri.k)
    else if op == ALU_NEG then NegateA
    else RawInstruction(ri)
  }

  function DisassembleJump(ri: Raw): (ins: Instruction) {
    var op := ri.op & 0xf0;
    if op == OP_JUMP_ALWAYS then Jump(ri.k)
    else if op in {OP_JUMP_EQUAL, OP_JUMP_GT, OP_JUMP_GE, OP_JUMP_SET} then
      var (cond, skipTrue, skipFalse) := JumpOpToTest(op, ri.jt, ri.jf);
      if ri.op & 0x08 == OPERAND_X then JumpIfX(cond, skipTrue, skipFalse)
      else JumpIf(cond, ri.k, skipTrue, skipFalse)
    else RawInstruction(ri)
  }

  function Disassemble(ri: Raw): (ins: Instruction) {
    var cls := ri.op & 0x7;
    if cls == CLS_LOAD_A || cls == CLS_LOAD_X then DisassembleLoad(ri)
    else if cls == CLS_STORE_A then
      if ri.op != CLS_STORE_A || ri.k > 15 then RawInstruction(ri) else StoreScratch(REG_A, ri.k)
    else if cls == CLS_STORE_X then
      if ri.op != CLS_STORE_X || ri.k > 15 then RawInstruction(ri) else StoreScratch(REG_X, ri.k)
    else if cls == CLS_ALU then DisassembleALU(ri)
    else if cls == CLS_JUMP then DisassembleJump(ri)
    else if cls == CLS_RETURN then
      if ri.op == CLS_RETURN | RET_SRC_A then RetA
      else if ri.op == CLS_RETURN then RetConstant(ri.k)
      else RawInstruction(ri)
    else
      if ri.op == CLS_MISC | MISC_TAX then TAX
      else if ri.op == CLS_MISC | MISC_TXA then TXA
      else RawInstruction(ri)
  }
}
