/** bpf/vm.go and bpf/vm_instructions.go: the program checker and the virtual machine. */
module BpfVm {
  import opened Common
  import opened BpfAsm

  type Packet = Bytes
  type Scratch = m: seq<Uint32> | |m| == 16 witness seq(16, _ => 0)

  datatype Registers = Registers(a: Uint32, x: Uint32, m: Scratch)

  /** What one instruction does; Panic is a Go run-time panic. */
  datatype Effect = Next(regs: Registers, skip: nat) | Stop | Return(n: nat) | Unknown | Panic

  /** How a run ends. RanOff is leaving the program other than by a return instruction. */
  datatype Outcome = Returned(n: nat) | Stopped | UnknownAt(i: nat) | RanOff | Panicked

  // ----- Instruction semantics -----

  predicate Divides(op: Uint16) {
    op == ALU_DIV || op == ALU_MOD
  }

  function Pow2(n: nat): (p: nat)
    ensures p > 0
  {
    if n == 0 then 1 else 2 * Pow2(n - 1)
  }

  predicate Bit(x: nat, i: nat) {
    x / Pow2(i) % 2 == 1
  }

  datatype BitOp = And | Or | Xor {
    predicate Of(p: bool, q: bool) {
      match this
      case And => p && q
      case Or => p || q
      case Xor => p != q
    }
  }

  /** The n low bits of a and b combined, each with its like. */
  function Bitwise(op: BitOp, a: nat, b: nat, n: nat): (r: nat)
    ensures r < Pow2(n)
  {
    if n == 0 then 0
    else 2 * Bitwise(op, a / 2, b / 2, n - 1) + if op.Of(a % 2 == 1, b % 2 == 1) then 1 else 0
  }

  function BitwiseWord(op: BitOp, a: Uint32, b: Uint32): (r: Uint32) {
    WordSize();
    Bitwise(op, a, b, 32)
  }

  lemma WordSize()
    ensures Pow2(32) == 0x1_0000_0000
  {
    assert Pow2(8) == 0x100;
    assert Pow2(16) == 0x1_0000;
    assert Pow2(24) == 0x100_0000;
  }

  function AluResult(op: Uint16, a: Uint32, value: Uint32): (r: Uint32)
    requires !(Divides(op) && value == 0)
  {
    if op == ALU_ADD then ToUint32(a + value)
    else if op == ALU_SUB then ToUint32(a - value)
    else if op == ALU_MUL then ToUint32(a * value)
    else if op == ALU_DIV then Quotient(a, value)
    else if op == ALU_OR then BitwiseWord(Or, a, value)
    else if op == ALU_AND then BitwiseWord(And, a, value)
    else if op == ALU_SHIFT_LEFT then if value >= 32 then 0 else ToUint32(a * Pow2(value))
    else if op == ALU_SHIFT_RIGHT then if value >= 32 then 0 else Quotient(a, Pow2(value))
    else if op == ALU_MOD then a % value
    else if op == ALU_XOR then BitwiseWord(Xor, a, value)
    else a
  }

  function Quotient(a: Uint32, d: nat): (q: Uint32)
    requires d > 0
    ensures q * d <= a < q * d + d
  {
    a / d
  }

  predicate Holds(cond: Uint16, a: Uint32, value: Uint32) {
    if cond == JUMP_EQUAL then a == value
    else if cond == JUMP_NOT_EQUAL then a != value
    else if cond == JUMP_GREATER_THAN then a > value
    else if cond == JUMP_LESS_THAN then a < value
    else if cond == JUMP_GREATER_OR_EQUAL then a >= value
    else if cond == JUMP_LESS_OR_EQUAL then a <= value
    else if cond == JUMP_BITS_SET then BitwiseWord(And, a, value) != 0
    else if cond == JUMP_BITS_NOT_SET then BitwiseWord(And, a, value) == 0
    else false
  }

  function BigEndian(bytes: Packet): (r: nat)
    ensures |bytes| == 0 ==> r == 0
    ensures |bytes| <= 1 ==> r < 0x100
    ensures |bytes| <= 2 ==> r < 0x1_0000
    ensures |bytes| <= 3 ==> r < 0x100_0000
    ensures |bytes| <= 4 ==> r < 0x1_0000_0000
  {
    if bytes == [] then 0 else BigEndian(bytes[..|bytes| - 1]) * 0x100 + bytes[|bytes| - 1]
  }

  /** A load of size bytes at offset; Panic for a size the machine does not know. */
  function Load(input: Packet, offset: nat, size: int, regs: Registers): (r: Effect) {
    if offset + size > |input| then Stop
    else if size == 1 || size == 2 || size == 4 then
      Next(regs.(a := BigEndian(input[offset..offset + size])), 0)
    else Panic
  }

  function WithRegister(regs: Registers, dst: Uint16, value: Uint32): (r: Registers) {
    if dst == REG_A then regs.(a := value) else if dst == REG_X then regs.(x := value) else regs
  }

  function AluEffect(op: Uint16, regs: Registers, value: Uint32): (r: Effect) {
    if Divides(op) && value == 0 then Panic else Next(regs.(a := AluResult(op, regs.a, value)), 0)
  }

  function Step(ins: Instruction, regs: Registers, input: Packet): (r: Effect) {
    match ins
    case ALUOpConstant(op, val) => AluEffect(op, regs, val)
    case ALUOpX(op) => if regs.x == 0 && Divides(op) then Stop else AluEffect(op, regs, regs.x)
    case Jump(skip) => Next(regs, skip)
    case JumpIf(cond, val, t, f) => Next(regs, if Holds(cond, regs.a, val) then t else f)
    case JumpIfX(cond, t, f) => Next(regs, if Holds(cond, regs.a, regs.x) then t else f)
    case LoadAbsolute(off, size) => Load(input, off, size, regs)
    case LoadConstant(dst, val) => Next(WithRegister(regs, dst, val), 0)
    case LoadExtension(num) => if num == EXT_LEN then Next(regs.(a := ToUint32(|input|)), 0) else Panic
    case LoadIndirect(off, size) => Load(input, off + regs.x, size, regs)
    case LoadMemShift(off) =>
      if off + 1 > |input| then Stop
      else Next(regs.(x := input[off] % 0x10 * 4), 0)
    case LoadScratch(dst, n) =>
      if 0 <= n < 16 then Next(WithRegister(regs, dst, regs.m[n]), 0)
      else if dst == REG_A || dst == REG_X then Panic else Next(regs, 0)
    case RetA => Return(regs.a)
    case RetConstant(val) => Return(val)
    case StoreScratch(src, n) =>
      if src != REG_A && src != REG_X then Next(regs, 0)
      else if 0 <= n < 16 then Next(regs.(m := regs.m[n := if src == REG_A then regs.a else regs.x]), 0)
      else Panic
    case TAX => Next(regs.(x := regs.a), 0)
    case TXA => Next(regs.(a := regs.x), 0)
    case NegateA => Unknown
    case RawInstruction(_) => Unknown
  }

  // ----- Runs -----

  /** The end of the run of filter on input from instruction i. */
  function Exec(filter: seq<Instruction>, input: Packet, i: nat, regs: Registers): (r: Outcome)
    decreases |filter| - i
  {
    if i >= |filter| then RanOff
    else
      match Step(filter[i], regs, input)
      case Next(regs', skip) => Exec(filter, input, i + 1 + skip, regs')
      case Stop => Stopped
      case Return(n) => Returned(n)
      case Unknown => UnknownAt(i)
      case Panic => Panicked
  }

  /** The instructions that run executes, in order. */
  function Trace(filter: seq<Instruction>, input: Packet, i: nat, regs: Registers): (t: seq<nat>)
    decreases |filter| - i
  {
    if i >= |filter| then []
    else
      [i] + match Step(filter[i], regs, input)
            case Next(regs', skip) => Trace(filter, input, i + 1 + skip, regs')
            case _ => []
  }

  lemma OneStep(filter: seq<Instruction>, input: Packet, i: nat, regs: Registers)
    requires i < |filter|
    ensures var e := Step(filter[i], regs, input);
            var t, r := Trace(filter, input, i, regs), Exec(filter, input, i, regs);
            match e
            case Next(regs', skip) =>
              t == [i] + Trace(filter, input, i + 1 + skip, regs') && r == Exec(filter, input, i + 1 + skip, regs')
            case Stop => t == [i] && r == Stopped
            case Return(n) => t == [i] && r == Returned(n)
            case Unknown => t == [i] && r == UnknownAt(i)
            case Panic => t == [i] && r == Panicked
  {
    hide Step;
    var none: seq<nat> := [];
    assert [i] + none == [i];
  }

  /** Increasing indices from i on and below n. */
  predicate Increasing(t: seq<nat>, i: nat, n: nat) {
    && (forall k :: 0 <= k < |t| ==> i <= t[k] < n)
    && (forall j, k :: 0 <= j < k < |t| ==> t[j] < t[k])
  }

  lemma IncreasingMore(t: seq<nat>, i: nat, i': nat, n: nat)
    requires Increasing(t, i', n) && i < i' && i < n
    ensures Increasing([i] + t, i, n)
  {
  }

  /** Every run visits increasing indices inside the program, so at most as many as it has. */
  lemma {:induction false} TraceInside(filter: seq<Instruction>, input: Packet, i: nat, regs: Registers)
    requires i <= |filter|
    ensures var t := Trace(filter, input, i, regs); Increasing(t, i, |filter|) && |t| <= |filter| - i
    decreases |filter| - i
  {
    hide Step, Trace, Exec, Increasing;
    if i == |filter| {
      NoTrace(filter, input, i, regs);
    } else {
      OneStep(filter, input, i, regs);
      var e := Step(filter[i], regs, input);
      if e.Next? && i + 1 + e.skip < |filter| {
        TraceInside(filter, input, i + 1 + e.skip, e.regs);
        IncreasingMore(Trace(filter, input, i + 1 + e.skip, e.regs), i, i + 1 + e.skip, |filter|);
      } else {
        LoneIndex(filter, input, i, regs);
      }
    }
  }

  lemma NoTrace(filter: seq<Instruction>, input: Packet, i: nat, regs: Registers)
    requires i >= |filter|
    ensures Trace(filter, input, i, regs) == [] && Increasing([], i, |filter|)
  {
  }

  lemma LoneIndex(filter: seq<Instruction>, input: Packet, i: nat, regs: Registers)
    requires i < |filter|
    requires var e := Step(filter[i], regs, input); e.Next? ==> i + 1 + e.skip >= |filter|
    ensures Trace(filter, input, i, regs) == [i] && Increasing([i], i, |filter|)
  {
    hide Step;
    var none: seq<nat> := [];
    assert [i] + none == [i];
  }

  const START := Registers(0, 0, seq(16, _ => 0))

  // ----- The checker -----

  /** The checks NewVM makes of one instruction that has rest instructions after it. */
  predicate Checked(ins: Instruction, rest: nat) {
    match ins
    case Jump(skip) => rest > skip
    case JumpIf(_, _, t, f) => rest > t && rest > f
    case JumpIfX(_, t, f) => rest > t && rest > f
    case ALUOpConstant(op, val) => val != 0 || !Divides(op)
    case LoadExtension(num) => num == EXT_LEN
    case _ => true
  }

  predicate Returns(ins: Instruction) {
    ins.RetA? || ins.RetConstant?
  }

  predicate WellFormed(filter: seq<Instruction>) {
    && filter != []
    && (forall i :: 0 <= i < |filter| ==> Checked(filter[i], |filter| - (i + 1)))
    && Returns(filter[|filter| - 1])
  }

  predicate Assembles(filter: seq<Instruction>) {
    forall i :: 0 <= i < |filter| ==> Assemble(filter[i]).Some?
  }

  /** NewVM returns a nil error. */
  predicate Accepted(filter: seq<Instruction>) {
    WellFormed(filter) && Assembles(filter)
  }

  /** The package's Assemble: the raw form of every instruction, or none if one has no raw form. */
  method AssembleAll(insts: seq<Instruction>) returns (raw: Option<seq<Raw>>)
    ensures raw.Some? <==> Assembles(insts)
    ensures raw.Some? ==> |raw.value| == |insts|
    ensures raw.Some? ==> forall i :: 0 <= i < |insts| ==> Assemble(insts[i]) == Some(raw.value[i])
  {
    var out := [];
    for i := 0 to |insts|
      invariant |out| == i
      invariant forall k :: 0 <= k < i ==> Assemble(insts[k]) == Some(out[k])
    {
      var r := Assemble(insts[i]);
      if r.None? {
        return None;
      }
      out := out + [r.value];
    }
    return Some(out);
  }

  lemma NonEmpty(filter: seq<Instruction>)
    requires Accepted(filter)
    ensures 0 < |filter|
  {
  }

  class VM {
    const filter: seq<Instruction>

    constructor (filter: seq<Instruction>)
      ensures this.filter == filter
    {
      this.filter := filter;
    }

    /** The run of the program on one packet: the value returned, or the index of an unknown instruction. */
    method Run(input: Packet) returns (n: nat, unknown: Option<nat>)
      requires Accepted(filter)
      ensures match Exec(filter, input, 0, START)
              case Returned(v) => n == v && unknown.None?
              case UnknownAt(i) => n == 0 && unknown == Some(i)
              case _ => n == 0 && unknown.None?
    {
      hide Step, Accepted;
      NonEmpty(filter);
      var i, regs, ok := 0, START, true;
      while i < |filter| && ok
        invariant 0 <= i <= |filter|
        invariant ok ==> i < |filter| && Exec(filter, input, i, regs) == Exec(filter, input, 0, START)
        invariant !ok ==> Exec(filter, input, 0, START) == Stopped
        decreases |filter| - i, ok
      {
        AcceptedStep(filter, input, i, regs);
        match Step(filter[i], regs, input) {
          case Next(regs', skip) =>
            regs, i := regs', i + skip + 1;
          case Stop =>
            ok := false;
          case Return(v) =>
            return v, None;
          case Unknown =>
            return 0, Some(i);
        }
      }
      return 0, None;
    }
  }

  /** The checker. A program that passes the checks but does not assemble still yields a machine. */
  method NewVM(filter: seq<Instruction>) returns (vm: VM?, failed: bool)
    ensures vm != null <==> WellFormed(filter)
    ensures vm != null ==> vm.filter == filter
    ensures !failed <==> Accepted(filter)
  {
    if |filter| == 0 {
      return null, true;
    }
    for i := 0 to |filter|
      invariant forall k :: 0 <= k < i ==> Checked(filter[k], |filter| - (k + 1))
    {
      if !Checked(filter[i], |filter| - (i + 1)) {
        return null, true;
      }
    }
    if !Returns(filter[|filter| - 1]) {
      return null, true;
    }
    var raw := AssembleAll(filter);
    vm := new VM(filter);
    failed := raw.None?;
  }

  // ----- Soundness of the checker -----

  lemma AssembledSizes(ins: Instruction)
    requires Assemble(ins).Some?
    ensures ins.LoadAbsolute? || ins.LoadIndirect? ==> ins.size == 1 || ins.size == 2 || ins.size == 4
    ensures ins.LoadScratch? || ins.StoreScratch? ==> 0 <= ins.n < 16
  {
  }

  ghost predicate ReadsPacket(ins: Instruction) {
    ins.LoadAbsolute? || ins.LoadIndirect? || ins.LoadMemShift?
  }

  /** A load from the packet stops the run or goes on to the next instruction. */
  lemma SafeLoad(ins: Instruction, regs: Registers, input: Packet)
    requires ReadsPacket(ins)
    requires !ins.LoadMemShift? ==> ins.size == 1 || ins.size == 2 || ins.size == 4
    ensures var e := Step(ins, regs, input); e.Stop? || (e.Next? && e.skip == 0)
  {
    hide BigEndian, AluResult, Holds, ToUint32;
  }

  lemma SafeStep(ins: Instruction, rest: nat, regs: Registers, input: Packet)
    requires Assemble(ins).Some? && Checked(ins, rest)
    requires Returns(ins) || rest > 0
    ensures var e := Step(ins, regs, input);
            && !e.Panic?
            && (e.Unknown? <==> ins.NegateA? || ins.RawInstruction?)
            && (e.Return? <==> Returns(ins))
            && (e.Next? ==> e.skip < rest)
  {
    hide Assemble, AluResult, Holds, WithRegister, Load, ToUint32, Step;
    AssembledSizes(ins);
    if ReadsPacket(ins) {
      SafeLoad(ins, regs, input);
    } else {
      SafeOther(ins, rest, regs, input);
    }
  }

  lemma SafeOther(ins: Instruction, rest: nat, regs: Registers, input: Packet)
    requires !ReadsPacket(ins) && Checked(ins, rest)
    requires ins.LoadScratch? || ins.StoreScratch? ==> 0 <= ins.n < 16
    requires Returns(ins) || rest > 0
    ensures var e := Step(ins, regs, input);
            && !e.Panic?
            && (e.Unknown? <==> ins.NegateA? || ins.RawInstruction?)
            && (e.Return? <==> Returns(ins))
            && (e.Next? ==> e.skip < rest)
  {
    hide AluEffect, Divides, Holds, WithRegister, ToUint32;
    if ins.ALUOpConstant? {
      SafeAlu(ins.op, regs, ins.val);
    } else if ins.ALUOpX? && !(regs.x == 0 && Divides(ins.op)) {
      SafeAlu(ins.op, regs, regs.x);
    }
  }

  lemma SafeAlu(op: Uint16, regs: Registers, value: Uint32)
    requires value != 0 || !Divides(op)
    ensures AluEffect(op, regs, value).Next? && AluEffect(op, regs, value).skip == 0
  {
    hide AluResult;
  }

  /** One step of an accepted program is safe and stays inside it. */
  lemma AcceptedStep(filter: seq<Instruction>, input: Packet, i: nat, regs: Registers)
    requires Accepted(filter) && i < |filter|
    ensures var e := Step(filter[i], regs, input);
            && !e.Panic?
            && (e.Unknown? <==> filter[i].NegateA? || filter[i].RawInstruction?)
            && (e.Return? <==> Returns(filter[i]))
            && (e.Next? ==> i + 1 + e.skip < |filter|)
  {
    hide Step, Assemble, Checked;
    assert Assemble(filter[i]).Some?;
    assert Checked(filter[i], |filter| - (i + 1));
    SafeStep(filter[i], |filter| - (i + 1), regs, input);
  }

  /** No accepted program panics or runs off its end, on any packet. */
  lemma {:induction false} AcceptedRuns(filter: seq<Instruction>, input: Packet, i: nat, regs: Registers)
    requires Accepted(filter) && i < |filter|
    ensures var r := Exec(filter, input, i, regs);
            && (r.Returned? || r.Stopped? || r.UnknownAt?)
            && (r.UnknownAt? ==> i <= r.i < |filter| && (filter[r.i].NegateA? || filter[r.i].RawInstruction?))
    decreases |filter| - i
  {
    hide Step, Accepted;
    AcceptedStep(filter, input, i, regs);
    var e := Step(filter[i], regs, input);
    if e.Next? {
      AcceptedRuns(filter, input, i + 1 + e.skip, e.regs);
    }
  }

  /** The run ends where its trace does: at a return, a stop, or an unknown instruction. */
  lemma {:induction false} TraceEnds(filter: seq<Instruction>, input: Packet, i: nat, regs: Registers)
    requires Accepted(filter) && i < |filter|
    ensures EndsAt(filter, Trace(filter, input, i, regs), Exec(filter, input, i, regs))
    decreases |filter| - i
  {
    hide Step, Accepted, Trace, Exec;
    AcceptedStep(filter, input, i, regs);
    OneStep(filter, input, i, regs);
    var e := Step(filter[i], regs, input);
    if e.Next? {
      TraceEnds(filter, input, i + 1 + e.skip, e.regs);
    }
  }

  /** The last instruction of the trace t decides the outcome r. */
  predicate EndsAt(filter: seq<Instruction>, t: seq<nat>, r: Outcome) {
    && t != [] && t[|t| - 1] < |filter|
    && (r.Returned? <==> Returns(filter[t[|t| - 1]]))
    && (r.UnknownAt? ==> r.i == t[|t| - 1])
  }

  // ----- Assembling and disassembling preserve meaning -----

  function Reassembled(ins: Instruction): (r: Instruction)
    requires Assemble(ins).Some?
  {
    Disassemble(Assemble(ins).value)
  }

  function ReassembledAll(filter: seq<Instruction>): (r: seq<Instruction>)
    requires Assembles(filter)
    ensures |r| == |filter|
    ensures forall i :: 0 <= i < |r| ==> r[i] == Reassembled(filter[i])
  {
    seq(|filter|, i requires 0 <= i < |filter| => Reassembled(filter[i]))
  }

  /** Instructions whose raw form stands for nothing else. */
  predicate Representable(ins: Instruction) {
    match ins
    case ALUOpConstant(op, _) => ExportedALUOp(op)
    case ALUOpX(op) => ExportedALUOp(op)
    case LoadAbsolute(off, _) => off < EXT_BASE
    case _ => true
  }

  /** The same conditional jump, perhaps with the test negated and the skips exchanged. */
  predicate SameJump(ins: Instruction, other: Instruction) {
    || (&& ins.JumpIf? && other.JumpIf? && ins.val == other.val
        && Turned(ins.cond, ins.skipTrue, ins.skipFalse, other.cond, other.skipTrue, other.skipFalse))
    || (&& ins.JumpIfX? && other.JumpIfX?
        && Turned(ins.cond, ins.skipTrue, ins.skipFalse, other.cond, other.skipTrue, other.skipFalse))
  }

  predicate Turned(cond: Uint16, t: Uint8, f: Uint8, cond': Uint16, t': Uint8, f': Uint8) {
    || (cond' == cond && t' == t && f' == f)
    || (cond' == Negation(cond) && t' == f && f' == t && cond < 8)
  }

  function Negation(cond: Uint16): (r: Uint16) {
    if cond == JUMP_EQUAL then JUMP_NOT_EQUAL
    else if cond == JUMP_NOT_EQUAL then JUMP_EQUAL
    else if cond == JUMP_GREATER_THAN then JUMP_LESS_OR_EQUAL
    else if cond == JUMP_LESS_OR_EQUAL then JUMP_GREATER_THAN
    else if cond == JUMP_LESS_THAN then JUMP_GREATER_OR_EQUAL
    else if cond == JUMP_GREATER_OR_EQUAL then JUMP_LESS_THAN
    else if cond == JUMP_BITS_SET then JUMP_BITS_NOT_SET
    else JUMP_BITS_SET
  }

  lemma ReassembledLoad(dst: Uint16, size: int, mode: Uint16, k: Uint32)
    requires AssembleLoad(dst, size, mode, k).Some?
    requires IsMode(mode)
    ensures var ri := AssembleLoad(dst, size, mode, k).value;
            && ri.op & 0x7 == dst && ri.op & 0x01 == dst && ri.op & 0xe0 == mode && ri.k == k
            && (size == 1 || size == 2 || size == 4)
            && ri.op & 0x18 == if size == 4 then 0 else if size == 2 then 8 else 16
  {
    LoadFields(dst, if size == 4 then 0 else if size == 2 then 8 else 16, mode);
    hide IsMode;
  }

  predicate IsMode(mode: Uint16) {
    || mode == MODE_IMMEDIATE || mode == MODE_ABSOLUTE || mode == MODE_INDIRECT || mode == MODE_SCRATCH
    || mode == MODE_PACKET_LEN || mode == MODE_MEM_SHIFT
  }

  /** The fields of a load's opcode do not overlap. */
  lemma LoadFields(dst: Uint16, width: Uint16, mode: Uint16)
    requires dst == REG_A || dst == REG_X
    requires width == 0 || width == 8 || width == 16
    requires IsMode(mode)
    ensures var op := dst | width | mode;
            op & 0x7 == dst && op & 0x01 == dst && op & 0x18 == width && op & 0xe0 == mode
  {
    assert mode & 0xe0 == mode;
    assert width & 0x18 == width;
  }

  /** Reassembling a load gives it back, unless it is an absolute load in the extension area. */
  lemma ReassembledLoads(ins: Instruction)
    requires Assemble(ins).Some?
    requires || ins.LoadConstant? || ins.LoadScratch? || ins.LoadAbsolute? || ins.LoadIndirect?
             || ins.LoadMemShift? || (ins.LoadExtension? && ins.num == EXT_LEN)
    ensures Reassembled(ins) == ins <==> Representable(ins)
  {
    hide AssembleLoad, ToUint32, ExportedALUOp, JumpToRaw, DisassembleALU, DisassembleJump;
    match ins
    case LoadConstant(dst, val) => ReassembledLoad(dst, 4, MODE_IMMEDIATE, val);
    case LoadScratch(dst, n) =>
      ReassembledLoad(dst, 4, MODE_SCRATCH, n);
    case LoadAbsolute(off, size) => ReassembledLoad(REG_A, size, MODE_ABSOLUTE, off);
    case LoadIndirect(off, size) => ReassembledLoad(REG_A, size, MODE_INDIRECT, off);
    case LoadMemShift(off) => ReassembledLoad(REG_X, 1, MODE_MEM_SHIFT, off);
    case LoadExtension(num) => ReassembledLoad(REG_A, 4, MODE_PACKET_LEN, 0);
  }

  lemma ReassembledALU(ins: Instruction)
    requires ins.ALUOpConstant? || ins.ALUOpX? || ins.NegateA?
    ensures Reassembled(ins) == ins <==> Representable(ins)
  {
    hide AssembleLoad, ToUint32, JumpToRaw, JumpOpToTest;
  }

  /** The raw form of a conditional jump holds its operand and, read back, the same jump. */
  lemma JumpBack(test: Uint16, operand: Uint16, k: Uint32, t: Uint8, f: Uint8)
    requires JumpToRaw(test, operand, k, t, f).Some?
    requires operand == OPERAND_CONSTANT || operand == OPERAND_X
    ensures var ri := JumpToRaw(test, operand, k, t, f).value;
            var back := JumpOpToTest(ri.op & 0xf0, ri.jt, ri.jf);
            && ri.op & 0x7 == CLS_JUMP && ri.op & 0x08 == operand && ri.k == k
            && ri.op & 0xf0 in {OP_JUMP_EQUAL, OP_JUMP_GT, OP_JUMP_GE, OP_JUMP_SET}
            && Turned(test, t, f, back.0, back.1, back.2)
  {
  }

  /** A jump comes back as itself or turned round. */
  lemma ReassembledJump(ins: Instruction)
    requires Assemble(ins).Some?
    requires ins.Jump? || ins.JumpIf? || ins.JumpIfX?
    ensures Reassembled(ins) == ins || SameJump(ins, Reassembled(ins))
  {
    hide AssembleLoad, ToUint32, ExportedALUOp, DisassembleLoad, DisassembleALU, JumpToRaw, JumpOpToTest, Turned;
    match ins
    case JumpIf(cond, val, t, f) => JumpBack(cond, OPERAND_CONSTANT, val, t, f);
    case JumpIfX(cond, t, f) => JumpBack(cond, OPERAND_X, 0, t, f);
    case Jump(_) =>
  }

  /** Reassembling gives back the instruction, or the same jump turned round, exactly for representable ones. */
  lemma ReassembledSame(ins: Instruction)
    requires Assemble(ins).Some? && !ins.RawInstruction?
    requires ins.LoadExtension? ==> ins.num == EXT_LEN
    ensures Reassembled(ins) == ins || SameJump(ins, Reassembled(ins)) <==> Representable(ins)
  {
    hide Reassembled, ExportedALUOp;
    if ins.ALUOpConstant? || ins.ALUOpX? || ins.NegateA? {
      ReassembledALU(ins);
    } else if ins.Jump? || ins.JumpIf? || ins.JumpIfX? {
      ReassembledJump(ins);
    } else if ins.RetA? || ins.RetConstant? || ins.TXA? || ins.TAX? || ins.StoreScratch? {
      ReassembledRest(ins);
    } else {
      ReassembledLoads(ins);
    }
  }

  lemma ReassembledRest(ins: Instruction)
    requires Assemble(ins).Some?
    requires ins.RetA? || ins.RetConstant? || ins.TXA? || ins.TAX? || ins.StoreScratch?
    ensures Reassembled(ins) == ins
  {
    hide AssembleLoad, ToUint32, ExportedALUOp, JumpToRaw, DisassembleLoad, DisassembleALU, DisassembleJump;
  }

  lemma NegationHolds(cond: Uint16, a: Uint32, value: Uint32)
    requires cond < 8
    ensures Holds(Negation(cond), a, value) <==> !Holds(cond, a, value)
  {
    if cond == JUMP_EQUAL {
    } else if cond == JUMP_NOT_EQUAL {
    } else if cond == JUMP_GREATER_THAN {
    } else if cond == JUMP_LESS_THAN {
    } else if cond == JUMP_GREATER_OR_EQUAL {
    } else if cond == JUMP_LESS_OR_EQUAL {
    } else if cond == JUMP_BITS_SET {
    } else {
      assert cond == JUMP_BITS_NOT_SET;
    }
  }

  lemma SameJumpSteps(ins: Instruction, other: Instruction, regs: Registers, input: Packet)
    requires SameJump(ins, other)
    ensures Step(other, regs, input) == Step(ins, regs, input)
  {
    hide Holds, Negation, AluResult, BigEndian;
    if ins.cond < 8 {
      NegationHolds(ins.cond, regs.a, if ins.JumpIf? then ins.val else regs.x);
    }
  }

  lemma SameJumpChecked(ins: Instruction, other: Instruction, rest: nat)
    requires SameJump(ins, other) && Checked(ins, rest) && Assemble(ins).Some?
    ensures Checked(other, rest) && Assemble(other).Some?
  {
  }

  lemma ExtensionChecked(ins: Instruction, rest: nat)
    requires Checked(ins, rest)
    ensures ins.LoadExtension? ==> ins.num == EXT_LEN
  {
  }

  lemma ReturnKept(ins: Instruction, other: Instruction)
    requires other == ins || SameJump(ins, other)
    ensures Returns(ins) ==> Returns(other)
  {
  }

  predicate Plain(filter: seq<Instruction>) {
    forall i :: 0 <= i < |filter| ==> !filter[i].RawInstruction? && Representable(filter[i])
  }

  lemma {:induction false} SameRuns(filter: seq<Instruction>, input: Packet, i: nat, regs: Registers)
    requires Accepted(filter) && Plain(filter)
    ensures Exec(ReassembledAll(filter), input, i, regs) == Exec(filter, input, i, regs)
    decreases |filter| - i
  {
    hide Step, Assemble, Checked, Representable, SameJump, Reassembled;
    if i < |filter| {
      var ins := filter[i];
      assert Assemble(ins).Some? && Checked(ins, |filter| - (i + 1)) && Representable(ins);
      ExtensionChecked(ins, |filter| - (i + 1));
      ReassembledSame(ins);
      var other := ReassembledAll(filter)[i];
      if other != ins {
        SameJumpSteps(ins, other, regs, input);
      }
      var e := Step(ins, regs, input);
      if e.Next? {
        SameRuns(filter, input, i + 1 + e.skip, e.regs);
      }
    }
  }

  /** What NewVM accepts it accepts again after reassembly, and every run is the same. */
  lemma MeaningPreserved(filter: seq<Instruction>)
    requires Accepted(filter) && Plain(filter)
    ensures Accepted(ReassembledAll(filter))
    ensures forall input :: Exec(ReassembledAll(filter), input, 0, START) == Exec(filter, input, 0, START)
  {
    hide Step, Exec, Assemble, Checked, Representable, SameJump, Reassembled;
    var again := ReassembledAll(filter);
    forall i | 0 <= i < |filter|
      ensures Checked(again[i], |filter| - (i + 1)) && Assemble(again[i]).Some?
      ensures Returns(filter[i]) ==> Returns(again[i])
    {
      var ins := filter[i];
      assert Assemble(ins).Some? && Checked(ins, |filter| - (i + 1)) && Representable(ins);
      ExtensionChecked(ins, |filter| - (i + 1));
      ReassembledSame(ins);
      if again[i] != ins {
        SameJumpChecked(ins, again[i], |filter| - (i + 1));
      }
      ReturnKept(ins, again[i]);
    }
    forall input {
      SameRuns(filter, input, 0, START);
    }
  }

  // ----- Where reassembly changes a program -----

  /** As Plain, but absolute loads may have any offset. */
  predicate Ordinary(filter: seq<Instruction>) {
    forall i :: 0 <= i < |filter| ==>
      !filter[i].RawInstruction? && (filter[i].LoadAbsolute? || Representable(filter[i]))
  }

  /** The absolute load that reads back as the packet-length extension, the only one NewVM knows. */
  const LENGTH_OFFSET: Uint32 := EXT_BASE + 1

  predicate Reloadable(ins: Instruction) {
    ins.LoadAbsolute? ==> ins.off < EXT_BASE || ins.off == LENGTH_OFFSET
  }

  lemma ExtensionNumber(k: Uint32)
    ensures ToUint32(k + 0x1000) == EXT_LEN <==> k == LENGTH_OFFSET
  {
  }

  /** An absolute load in the extension area comes back as an extension. */
  lemma ReassembledExtension(off: Uint32, size: int)
    requires size == 1 || size == 2 || size == 4
    requires off >= EXT_BASE
    ensures Reassembled(LoadAbsolute(off, size)) == LoadExtension(ToUint32(off + 0x1000))
  {
    hide AssembleLoad, ToUint32, ExportedALUOp, JumpToRaw, DisassembleALU, DisassembleJump;
    assert AssembleLoad(REG_A, size, MODE_ABSOLUTE, off).Some? by {
      AssembledLoad(off, size);
    }
    ReassembledLoad(REG_A, size, MODE_ABSOLUTE, off);
  }

  lemma AssembledLoad(off: Uint32, size: int)
    ensures AssembleLoad(REG_A, size, MODE_ABSOLUTE, off).Some? <==> size == 1 || size == 2 || size == 4
  {
  }

  lemma ExtensionAssembles(num: int)
    ensures Assemble(LoadExtension(num)).Some?
  {
  }

  lemma ExtensionChecks(off: Uint32, size: int, rest: nat)
    requires size == 1 || size == 2 || size == 4
    requires off >= EXT_BASE
    ensures Checked(Reassembled(LoadAbsolute(off, size)), rest) <==> off == LENGTH_OFFSET
    ensures Assemble(Reassembled(LoadAbsolute(off, size))).Some?
  {
    hide Assemble, Reassembled;
    ReassembledExtension(off, size);
    ExtensionNumber(off);
    ExtensionAssembles(ToUint32(off + 0x1000));
  }

  lemma RepresentableLoad(ins: Instruction)
    requires ins.LoadAbsolute?
    ensures Representable(ins) <==> ins.off < EXT_BASE
  {
  }

  lemma ReassembledCheck(ins: Instruction, rest: nat)
    requires Assemble(ins).Some? && Checked(ins, rest)
    requires !ins.RawInstruction? && (ins.LoadAbsolute? || Representable(ins))
    ensures Checked(Reassembled(ins), rest) <==> Reloadable(ins)
    ensures Assemble(Reassembled(ins)).Some?
    ensures Returns(ins) ==> Returns(Reassembled(ins))
  {
    hide Assemble, Reassembled, SameJump, Checked, Representable;
    ExtensionChecked(ins, rest);
    if ins.LoadAbsolute? {
      RepresentableLoad(ins);
      AssembledSizes(ins);
    }
    if ins.LoadAbsolute? && ins.off >= EXT_BASE {
      ExtensionChecks(ins.off, ins.size, rest);
    } else {
      ReassembledSame(ins);
      var other := Reassembled(ins);
      if other != ins {
        SameJumpChecked(ins, other, rest);
      }
      ReturnKept(ins, other);
    }
  }

  /** Exactly when an accepted program is accepted again after reassembly. */
  lemma ReassembledAccepted(filter: seq<Instruction>)
    requires Accepted(filter) && Ordinary(filter)
    ensures Accepted(ReassembledAll(filter)) <==> forall i :: 0 <= i < |filter| ==> Reloadable(filter[i])
  {
    hide Assemble, Checked, Representable, Reassembled, Reloadable, Returns;
    var again := ReassembledAll(filter);
    forall i | 0 <= i < |filter|
      ensures Checked(again[i], |filter| - (i + 1)) <==> Reloadable(filter[i])
      ensures Assemble(again[i]).Some? && (Returns(filter[i]) ==> Returns(again[i]))
    {
      assert Assemble(filter[i]).Some? && Checked(filter[i], |filter| - (i + 1));
      ReassembledCheck(filter[i], |filter| - (i + 1));
    }
  }

  /** Programs accepted on both sides that nevertheless disagree. */
  lemma LengthOffsetChangesMeaning(size: int, val: Uint32)
    requires size == 1 || size == 2 || size == 4
    ensures var filter := [LoadAbsolute(LENGTH_OFFSET, size), RetConstant(val)];
            && Accepted(filter) && Ordinary(filter) && Accepted(ReassembledAll(filter))
            && Exec(filter, [], 0, START) == Stopped
            && Exec(ReassembledAll(filter), [], 0, START) == Returned(val)
  {
    hide ExportedALUOp, ToUint32, AssembleLoad, Disassemble, Step, Exec;
    var load, ret := LoadAbsolute(LENGTH_OFFSET, size), RetConstant(val);
    var filter := [load, ret];
    AssembledLoad(LENGTH_OFFSET, size);
    assert Assemble(load).Some? && Assemble(ret).Some?;
    assert Checked(load, 1) && Checked(ret, 0);
    assert Assembles(filter) && WellFormed(filter);
    ReassembledAccepted(filter);
    ReassembledExtension(LENGTH_OFFSET, size);
    ExtensionNumber(LENGTH_OFFSET);
    ReassembledRest(ret);
    assert ReassembledAll(filter) == [LoadExtension(EXT_LEN), ret];
    BothRuns(size, val);
  }

  lemma BothRuns(size: int, val: Uint32)
    requires size == 1 || size == 2 || size == 4
    ensures Exec([LoadAbsolute(LENGTH_OFFSET, size), RetConstant(val)], [], 0, START) == Stopped
    ensures Exec([LoadExtension(EXT_LEN), RetConstant(val)], [], 0, START) == Returned(val)
  {
    hide ToUint32, AluResult, BigEndian, Holds;
    var again := [LoadExtension(EXT_LEN), RetConstant(val)];
    var regs := Step(again[0], START, []).regs;
    assert Exec(again, [], 1, regs) == Returned(val);
  }
}
