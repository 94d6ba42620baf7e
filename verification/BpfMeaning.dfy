/**
  * What BPF instructions compute, in numbers: opcodes, tests and registers as the machine
  * numbers them, values as unbounded integers.
  */
module BpfMeaning {
  import opened Common
  import opened BpfAsm
  import opened BpfVm

  // ----- Powers of two and bits -----

  lemma {:induction false} Pow2Sum(m: nat, n: nat)
    ensures Pow2(m + n) == Pow2(m) * Pow2(n)
  {
    hide Pow2;
    Pow2Next(m);
    Pow2Next(m + n);
    if m > 0 {
      Pow2Sum(m - 1, n);
      assert m - 1 + n == m + n - 1;
      Twice(Pow2(m - 1), Pow2(n));
    }
  }

  lemma Pow2Next(n: nat)
    ensures Pow2(n) == if n == 0 then 1 else 2 * Pow2(n - 1)
  {
  }

  lemma Twice(a: nat, b: nat)
    ensures 2 * a * b == 2 * (a * b)
  {
  }

  lemma HalfThenDivide(x: nat, p: nat)
    requires p > 0
    ensures x / (2 * p) == x / 2 / p
  {
    var q := x / 2 / p;
    assert x == 2 * (x / 2) + x % 2 && x / 2 == q * p + x / 2 % p;
    assert 2 * (q * p) == q * (2 * p);
    DividesInto(x, 2 * p, q, 2 * (x / 2 % p) + x % 2);
  }

  lemma DividesInto(x: nat, d: nat, q: nat, r: nat)
    requires d > 0 && r < d && x == q * d + r
    ensures x / d == q && x % d == r
  {
    var k := x / d - q;
    assert x == x / d * d + x % d;
    assert (x / d - q) * d == x / d * d - q * d;
    if k >= 1 {
      AtLeast(k, d);
    } else if k <= -1 {
      AtLeast(-k, d);
    }
  }

  lemma AtLeast(k: nat, d: nat)
    requires k >= 1
    ensures k * d >= d
  {
    assert k * d == (k - 1) * d + d && (k - 1) * d >= 0;
  }

  /** A bit of x above the lowest is a bit of the half of x. */
  lemma BitOfHalf(x: nat, i: nat)
    requires i > 0
    ensures Bit(x, i) == Bit(x / 2, i - 1)
  {
    HalfThenDivide(x, Pow2(i - 1));
  }

  lemma BitsOfSum(r: nat, b: bool, i: nat)
    ensures var x := 2 * r + if b then 1 else 0; Bit(x, i) == if i == 0 then b else Bit(r, i - 1)
  {
    var x := 2 * r + if b then 1 else 0;
    if i > 0 {
      BitOfHalf(x, i);
      assert x / 2 == r;
    } else {
      assert x / Pow2(0) == x;
    }
  }

  lemma {:induction false} BitwiseBit(op: BitOp, a: nat, b: nat, n: nat, i: nat)
    requires i < n
    ensures Bit(Bitwise(op, a, b, n), i) == op.Of(Bit(a, i), Bit(b, i))
  {
    hide Bit;
    BitsOfSum(Bitwise(op, a / 2, b / 2, n - 1), op.Of(a % 2 == 1, b % 2 == 1), i);
    if i == 0 {
      LowBit(a);
      LowBit(b);
    } else {
      BitOfHalf(a, i);
      BitOfHalf(b, i);
      BitwiseBit(op, a / 2, b / 2, n - 1, i - 1);
    }
  }

  lemma LowBit(x: nat)
    ensures Bit(x, 0) == (x % 2 == 1)
  {
    assert x / Pow2(0) == x;
  }

  /** A number of n bits of which none is set is zero. */
  lemma {:induction false} NoBits(x: nat, n: nat)
    requires x < Pow2(n) && forall i: nat :: i < n ==> !Bit(x, i)
    ensures x == 0
  {
    hide Bit;
    if n > 0 {
      LowBit(x);
      forall i: nat | i < n - 1 ensures !Bit(x / 2, i) {
        BitOfHalf(x, i + 1);
      }
      NoBits(x / 2, n - 1);
    }
  }

  lemma {:induction false} ZeroBits(i: nat)
    ensures !Bit(0, i)
  {
    DividesInto(0, Pow2(i), 0, 0);
  }

  // ----- The ten operations -----

  lemma ArithmeticMeans(a: Uint32, v: Uint32)
    ensures AluResult(0x00, a, v) == (a + v) % 0x1_0000_0000
    ensures AluResult(0x10, a, v) == (a - v) % 0x1_0000_0000
    ensures AluResult(0x20, a, v) == (a * v) % 0x1_0000_0000
    ensures v != 0 ==> var q, r := AluResult(0x30, a, v), AluResult(0x90, a, v); a == q * v + r && r < v
  {
    hide Bitwise, Pow2;
  }

  lemma BitsMean(a: Uint32, v: Uint32, i: nat)
    requires i < 32
    ensures Bit(AluResult(0x40, a, v), i) <==> Bit(a, i) || Bit(v, i)
    ensures Bit(AluResult(0x50, a, v), i) <==> Bit(a, i) && Bit(v, i)
    ensures Bit(AluResult(0xa0, a, v), i) <==> (Bit(a, i) <==> !Bit(v, i))
  {
    hide Bit, Bitwise;
    BitwiseBit(Or, a, v, 32, i);
    BitwiseBit(And, a, v, 32, i);
    BitwiseBit(Xor, a, v, 32, i);
  }

  /** A shift multiplies or divides by a power of two, also by 32 and more. */
  lemma ShiftsMean(a: Uint32, v: Uint32)
    ensures AluResult(0x60, a, v) == (a * Pow2(v)) % 0x1_0000_0000
    ensures var r := AluResult(0x70, a, v); r * Pow2(v) <= a < (r + 1) * Pow2(v)
  {
    hide Bitwise, Pow2;
    if v >= 32 {
      WordSize();
      Pow2Sum(32, v - 32);
      var p := Pow2(v - 32);
      assert a * (0x1_0000_0000 * p) == (a * p) * 0x1_0000_0000;
      DividesInto(a * Pow2(v), 0x1_0000_0000, a * p, 0);
      AtLeast(p, 0x1_0000_0000);
    } else {
      var r := AluResult(0x70, a, v);
      assert (r + 1) * Pow2(v) == r * Pow2(v) + Pow2(v);
    }
  }

  // ----- The eight tests -----

  lemma TestsMean(a: Uint32, v: Uint32)
    ensures Holds(0, a, v) <==> a == v
    ensures Holds(1, a, v) <==> a != v
    ensures Holds(2, a, v) <==> a > v
    ensures Holds(3, a, v) <==> a < v
    ensures Holds(4, a, v) <==> a >= v
    ensures Holds(5, a, v) <==> a <= v
    ensures Holds(6, a, v) <==> exists i: nat :: i < 32 && Bit(a, i) && Bit(v, i)
    ensures Holds(7, a, v) <==> forall i: nat :: i < 32 ==> !(Bit(a, i) && Bit(v, i))
  {
    hide Bit, BitwiseWord;
    CommonBits(a, v);
  }

  lemma CommonBits(a: Uint32, v: Uint32)
    ensures BitwiseWord(And, a, v) == 0 <==> forall i: nat :: i < 32 ==> !(Bit(a, i) && Bit(v, i))
  {
    hide Bit, Bitwise, Pow2;
    var both := Bitwise(And, a, v, 32);
    if both == 0 {
      forall i: nat | i < 32 ensures !(Bit(a, i) && Bit(v, i)) {
        ZeroBits(i);
        BitwiseBit(And, a, v, 32, i);
      }
    } else if forall i: nat :: i < 32 ==> !(Bit(a, i) && Bit(v, i)) {
      forall i: nat | i < 32 ensures !Bit(both, i) {
        BitwiseBit(And, a, v, 32, i);
      }
      NoBits(both, 32);
    }
  }

  // ----- Loads, stores and moves -----

  /** The number that size bytes of the packet spell from offset on, most significant first. */
  ghost function Spelt(input: Packet, offset: nat, size: nat): (n: nat)
    requires (size == 1 || size == 2 || size == 4) && offset + size <= |input|
  {
    var b0: int := input[offset];
    if size == 1 then b0
    else
      var b1: int := input[offset + 1];
      if size == 2 then 256 * b0 + b1
      else
        var b2: int, b3: int := input[offset + 2], input[offset + 3];
        16777216 * b0 + 65536 * b1 + 256 * b2 + b3
  }

  lemma BytesMean(input: Packet, offset: nat, size: nat)
    requires (size == 1 || size == 2 || size == 4) && offset + size <= |input|
    ensures BigEndian(input[offset..offset + size]) == Spelt(input, offset, size)
  {
    hide BigEndian;
    var s := input[offset..offset + size];
    LastByte(s);
    LastByte(s[..1]);
    assert s[..1][..0] == [];
    if size == 2 {
      assert s[..size - 1] == s[..1];
    } else if size == 4 {
      assert s[..size - 1][..2] == s[..2] && s[..2][..1] == s[..1];
      LastByte(s[..size - 1]);
      LastByte(s[..2]);
    }
  }

  lemma LastByte(s: Packet)
    requires s != []
    ensures BigEndian(s) == 256 * BigEndian(s[..|s| - 1]) + s[|s| - 1]
  {
  }

  lemma LoadsMean(off: Uint32, size: int, regs: Registers, input: Packet)
    requires size == 1 || size == 2 || size == 4
    ensures Step(LoadAbsolute(off, size), regs, input) ==
            if off + size > |input| then Stop else Next(Registers(Spelt(input, off, size), regs.x, regs.m), 0)
    ensures Step(LoadIndirect(off, size), regs, input) ==
            if off + regs.x + size > |input| then Stop
            else Next(Registers(Spelt(input, off + regs.x, size), regs.x, regs.m), 0)
    ensures Step(LoadMemShift(off), regs, input) ==
            if off >= |input| then Stop else Next(Registers(regs.a, 4 * (input[off] % 16), regs.m), 0)
    ensures Step(LoadExtension(1), regs, input) == Next(Registers(|input| % 0x1_0000_0000, regs.x, regs.m), 0)
  {
    hide BigEndian, Spelt, Bitwise, AluResult, Holds;
    if off + size <= |input| {
      BytesMean(input, off, size);
    }
    if off + regs.x + size <= |input| {
      BytesMean(input, off + regs.x, size);
    }
  }

  /** Register 0 is A and register 1 is X. */
  lemma RegistersMean(v: Uint32, n: nat, regs: Registers, input: Packet)
    requires n < 16
    ensures Step(LoadConstant(0, v), regs, input) == Next(Registers(v, regs.x, regs.m), 0)
    ensures Step(LoadConstant(1, v), regs, input) == Next(Registers(regs.a, v, regs.m), 0)
    ensures Step(LoadScratch(0, n), regs, input) == Next(Registers(regs.m[n], regs.x, regs.m), 0)
    ensures Step(LoadScratch(1, n), regs, input) == Next(Registers(regs.a, regs.m[n], regs.m), 0)
    ensures Step(StoreScratch(0, n), regs, input) == Next(Registers(regs.a, regs.x, regs.m[n := regs.a]), 0)
    ensures Step(StoreScratch(1, n), regs, input) == Next(Registers(regs.a, regs.x, regs.m[n := regs.x]), 0)
    ensures Step(TAX, regs, input) == Next(Registers(regs.a, regs.a, regs.m), 0)
    ensures Step(TXA, regs, input) == Next(Registers(regs.x, regs.x, regs.m), 0)
    ensures Step(RetA, regs, input) == Return(regs.a) && Step(RetConstant(v), regs, input) == Return(v)
  {
    hide BigEndian, Bitwise, AluResult, Holds;
  }

  /** What is stored in a scratch word is read back, and the other words keep theirs. */
  lemma StoredIsLoaded(n: nat, k: nat, regs: Registers, input: Packet)
    requires n < 16 && k < 16
    ensures var stored := Step(StoreScratch(1, n), regs, input).regs;
            Step(LoadScratch(0, k), stored, input) == Next(stored.(a := if k == n then regs.x else regs.m[k]), 0)
  {
    hide Step;
    RegistersMean(0, n, regs, input);
    RegistersMean(0, k, Step(StoreScratch(1, n), regs, input).regs, input);
  }

  lemma OperationsMean(op: Uint16, v: Uint32, t: Uint8, f: Uint8, regs: Registers, input: Packet)
    ensures !(v == 0 && (op == 0x30 || op == 0x90)) ==>
              Step(ALUOpConstant(op, v), regs, input) == Next(Registers(AluResult(op, regs.a, v), regs.x, regs.m), 0)
    ensures Step(ALUOpX(op), regs, input) ==
            if regs.x == 0 && (op == 0x30 || op == 0x90) then Stop
            else Next(Registers(AluResult(op, regs.a, regs.x), regs.x, regs.m), 0)
    ensures Step(Jump(v), regs, input) == Next(regs, v)
    ensures Step(JumpIf(op, v, t, f), regs, input) == Next(regs, if Holds(op, regs.a, v) then t else f)
    ensures Step(JumpIfX(op, t, f), regs, input) == Next(regs, if Holds(op, regs.a, regs.x) then t else f)
  {
    hide BigEndian, Bitwise, AluResult, Holds;
  }

  // ----- Small programs -----

  /** Loads u, combines it with v and returns the result. */
  method Calculate(u: Uint32, op: Uint16, v: Uint32, input: Packet) returns (n: nat)
    requires op == 0x30 || op == 0x90 ==> v != 0
    ensures op == 0x00 ==> n == (u + v) % 0x1_0000_0000
    ensures op == 0x10 ==> n == (u - v) % 0x1_0000_0000
    ensures op == 0x20 ==> n == (u * v) % 0x1_0000_0000
    ensures op == 0x30 ==> n * v <= u < n * v + v
    ensures op == 0x90 ==> n < v && (u - n) % v == 0
    ensures op == 0x40 ==> forall i: nat :: i < 32 ==> (Bit(n, i) <==> Bit(u, i) || Bit(v, i))
    ensures op == 0x50 ==> forall i: nat :: i < 32 ==> (Bit(n, i) <==> Bit(u, i) && Bit(v, i))
    ensures op == 0xa0 ==> forall i: nat :: i < 32 ==> (Bit(n, i) <==> (Bit(u, i) <==> !Bit(v, i)))
    ensures op == 0x60 ==> n == (u * Pow2(v)) % 0x1_0000_0000
    ensures op == 0x70 ==> n * Pow2(v) <= u < (n + 1) * Pow2(v)
  {
    hide Step, Exec, AluResult, Pow2, Bit;
    var vm, failed := NewVM([LoadConstant(0, u), ALUOpConstant(op, v), RetA]);
    CalculationAccepted(u, op, v);
    var unknown;
    n, unknown := vm.Run(input);
    CalculationRuns(u, op, v, input);
    ArithmeticMeans(u, v);
    Remainder(op, u, v, n);
    ShiftsMean(u, v);
    forall i: nat | i < 32
      ensures Bit(AluResult(0x40, u, v), i) <==> Bit(u, i) || Bit(v, i)
      ensures Bit(AluResult(0x50, u, v), i) <==> Bit(u, i) && Bit(v, i)
      ensures Bit(AluResult(0xa0, u, v), i) <==> (Bit(u, i) <==> !Bit(v, i))
    {
      BitsMean(u, v, i);
    }
  }

  lemma Remainder(op: Uint16, u: Uint32, v: Uint32, n: nat)
    requires op == 0x90 ==> v != 0 && exists q :: u == q * v + n && n < v
    ensures op == 0x90 ==> (u - n) % v == 0
  {
    if op == 0x90 {
      var q :| u == q * v + n && n < v;
      DividesInto(u - n, v, q, 0);
    }
  }

  lemma CalculationAccepted(u: Uint32, op: Uint16, v: Uint32)
    requires op == 0x30 || op == 0x90 ==> v != 0
    ensures Accepted([LoadConstant(0, u), ALUOpConstant(op, v), RetA])
  {
  }

  lemma CalculationRuns(u: Uint32, op: Uint16, v: Uint32, input: Packet)
    requires op == 0x30 || op == 0x90 ==> v != 0
    ensures Exec([LoadConstant(0, u), ALUOpConstant(op, v), RetA], input, 0, START) == Returned(AluResult(op, u, v))
  {
    hide Step, AluResult;
    RegistersMean(u, 0, START, input);
    var one := Registers(u, 0, START.m);
    OperationsMean(op, v, 0, 0, one, input);
    var two := Registers(AluResult(op, u, v), 0, START.m);
    RegistersMean(u, 0, two, input);
    var p := [LoadConstant(0, u), ALUOpConstant(op, v), RetA];
    assert Exec(p, input, 2, two) == Returned(two.a);
    assert Exec(p, input, 1, one) == Exec(p, input, 2, two);
  }

  /** Compares bytes of the packet with a number: one answer or the other, or zero if the packet is too short. */
  method Classify(off: Uint32, size: int, cond: Uint16, v: Uint32, yes: Uint32, no: Uint32, input: Packet) returns (n: nat)
    requires (size == 1 || size == 2 || size == 4) && cond < 8
    ensures off + size > |input| ==> n == 0
    ensures off + size <= |input| ==>
              var w := Spelt(input, off, size);
              n == if (cond == 0 && w == v) || (cond == 1 && w != v) || (cond == 2 && w > v) || (cond == 3 && w < v)
                      || (cond == 4 && w >= v) || (cond == 5 && w <= v)
                      || (cond == 6 && exists i: nat :: i < 32 && Bit(w, i) && Bit(v, i))
                      || (cond == 7 && forall i: nat :: i < 32 ==> !(Bit(w, i) && Bit(v, i)))
                   then yes else no
  {
    hide Step, Exec, Holds, Spelt, Bit;
    var vm, failed := NewVM([LoadAbsolute(off, size), JumpIf(cond, v, 0, 1), RetConstant(yes), RetConstant(no)]);
    ClassificationAccepted(off, size, cond, v, yes, no);
    var unknown;
    n, unknown := vm.Run(input);
    ClassificationRuns(off, size, cond, v, yes, no, input);
    if off + size <= |input| {
      TestsMean(Word(input, off, size), v);
    }
  }

  ghost function Word(input: Packet, offset: nat, size: nat): (n: Uint32)
    requires (size == 1 || size == 2 || size == 4) && offset + size <= |input|
    ensures n == Spelt(input, offset, size)
  {
    Spelt(input, offset, size)
  }

  lemma ClassificationAccepted(off: Uint32, size: int, cond: Uint16, v: Uint32, yes: Uint32, no: Uint32)
    requires (size == 1 || size == 2 || size == 4) && cond < 8
    ensures Accepted([LoadAbsolute(off, size), JumpIf(cond, v, 0, 1), RetConstant(yes), RetConstant(no)])
  {
  }

  lemma ClassificationRuns(off: Uint32, size: int, cond: Uint16, v: Uint32, yes: Uint32, no: Uint32, input: Packet)
    requires size == 1 || size == 2 || size == 4
    ensures Exec([LoadAbsolute(off, size), JumpIf(cond, v, 0, 1), RetConstant(yes), RetConstant(no)], input, 0, START) ==
            if off + size > |input| then Stopped
            else Returned(if Holds(cond, Word(input, off, size), v) then yes else no)
  {
    hide Step, Holds, Spelt;
    var p := [LoadAbsolute(off, size), JumpIf(cond, v, 0, 1), RetConstant(yes), RetConstant(no)];
    LoadsMean(off, size, START, input);
    if off + size <= |input| {
      var one := Registers(Word(input, off, size), 0, START.m);
      OperationsMean(cond, v, 0, 1, one, input);
      RegistersMean(yes, 0, one, input);
      RegistersMean(no, 0, one, input);
      assert Exec(p, input, 2, one) == Returned(yes) && Exec(p, input, 3, one) == Returned(no);
      assert Exec(p, input, 0, START) == Exec(p, input, 1, one);
    }
  }

  // ----- Raw forms in numbers -----

  ghost predicate IsRaw(ins: Instruction, op: Uint16, jt: Uint8, jf: Uint8, k: Uint32) {
    Assemble(ins) == Some(Raw(op, jt, jf, k))
  }

  lemma RawLoads(v: Uint32, n: nat)
    requires n < 16
    ensures IsRaw(LoadConstant(0, v), 0x00, 0, 0, v) && IsRaw(LoadConstant(1, v), 0x01, 0, 0, v)
    ensures IsRaw(LoadAbsolute(v, 4), 0x20, 0, 0, v)
    ensures IsRaw(LoadAbsolute(v, 2), 0x28, 0, 0, v)
    ensures IsRaw(LoadAbsolute(v, 1), 0x30, 0, 0, v)
    ensures IsRaw(LoadIndirect(v, 4), 0x40, 0, 0, v)
    ensures IsRaw(LoadIndirect(v, 2), 0x48, 0, 0, v)
    ensures IsRaw(LoadIndirect(v, 1), 0x50, 0, 0, v)
    ensures IsRaw(LoadMemShift(v), 0xb1, 0, 0, v) && IsRaw(LoadExtension(1), 0x80, 0, 0, 0)
    ensures IsRaw(LoadScratch(0, n), 0x60, 0, 0, n) && IsRaw(LoadScratch(1, n), 0x61, 0, 0, n)
    ensures IsRaw(StoreScratch(0, n), 0x02, 0, 0, n) && IsRaw(StoreScratch(1, n), 0x03, 0, 0, n)
  {
  }

  /** The other extensions are absolute loads counted back from the end of the address space. */
  lemma RawExtensions(num: nat)
    requires num < 0x1000 && num != 1
    ensures IsRaw(LoadExtension(num), 0x20, 0, 0, 0x1_0000_0000 - 0x1000 + num)
  {
  }

  lemma RawOperations(v: Uint32)
    ensures IsRaw(ALUOpConstant(0x00, v), 0x04, 0, 0, v) && IsRaw(ALUOpX(0x00), 0x0c, 0, 0, 0)
    ensures IsRaw(ALUOpConstant(0x10, v), 0x14, 0, 0, v) && IsRaw(ALUOpX(0x10), 0x1c, 0, 0, 0)
    ensures IsRaw(ALUOpConstant(0x20, v), 0x24, 0, 0, v) && IsRaw(ALUOpX(0x20), 0x2c, 0, 0, 0)
    ensures IsRaw(ALUOpConstant(0x30, v), 0x34, 0, 0, v) && IsRaw(ALUOpX(0x30), 0x3c, 0, 0, 0)
    ensures IsRaw(ALUOpConstant(0x40, v), 0x44, 0, 0, v) && IsRaw(ALUOpX(0x40), 0x4c, 0, 0, 0)
    ensures IsRaw(ALUOpConstant(0x50, v), 0x54, 0, 0, v) && IsRaw(ALUOpX(0x50), 0x5c, 0, 0, 0)
    ensures IsRaw(ALUOpConstant(0x60, v), 0x64, 0, 0, v) && IsRaw(ALUOpX(0x60), 0x6c, 0, 0, 0)
    ensures IsRaw(ALUOpConstant(0x70, v), 0x74, 0, 0, v) && IsRaw(ALUOpX(0x70), 0x7c, 0, 0, 0)
    ensures IsRaw(ALUOpConstant(0x90, v), 0x94, 0, 0, v) && IsRaw(ALUOpX(0x90), 0x9c, 0, 0, 0)
    ensures IsRaw(ALUOpConstant(0xa0, v), 0xa4, 0, 0, v) && IsRaw(ALUOpX(0xa0), 0xac, 0, 0, 0)
    ensures IsRaw(NegateA, 0x84, 0, 0, 0)
  {
  }

  /** Four tests have a code of their own; the others are those with the skips exchanged. */
  lemma RawJumps(v: Uint32, t: Uint8, f: Uint8)
    ensures IsRaw(Jump(v), 0x05, 0, 0, v)
    ensures IsRaw(JumpIf(0, v, t, f), 0x15, t, f, v) && IsRaw(JumpIf(1, v, t, f), 0x15, f, t, v)
    ensures IsRaw(JumpIf(2, v, t, f), 0x25, t, f, v) && IsRaw(JumpIf(5, v, t, f), 0x25, f, t, v)
    ensures IsRaw(JumpIf(4, v, t, f), 0x35, t, f, v) && IsRaw(JumpIf(3, v, t, f), 0x35, f, t, v)
    ensures IsRaw(JumpIf(6, v, t, f), 0x45, t, f, v) && IsRaw(JumpIf(7, v, t, f), 0x45, f, t, v)
    ensures IsRaw(JumpIfX(0, t, f), 0x1d, t, f, 0) && IsRaw(JumpIfX(1, t, f), 0x1d, f, t, 0)
    ensures IsRaw(JumpIfX(2, t, f), 0x2d, t, f, 0) && IsRaw(JumpIfX(5, t, f), 0x2d, f, t, 0)
    ensures IsRaw(JumpIfX(4, t, f), 0x3d, t, f, 0) && IsRaw(JumpIfX(3, t, f), 0x3d, f, t, 0)
    ensures IsRaw(JumpIfX(6, t, f), 0x4d, t, f, 0) && IsRaw(JumpIfX(7, t, f), 0x4d, f, t, 0)
  {
  }

  lemma RawReturns(v: Uint32)
    ensures IsRaw(RetA, 0x16, 0, 0, 0) && IsRaw(RetConstant(v), 0x06, 0, 0, v)
    ensures IsRaw(TAX, 0x07, 0, 0, 0) && IsRaw(TXA, 0x87, 0, 0, 0)
  {
  }

  /** Every raw form is read back as the instruction it is the form of, or as the same jump turned round. */
  lemma RawBack(ins: Instruction, op: Uint16, jt: Uint8, jf: Uint8, k: Uint32)
    requires IsRaw(ins, op, jt, jf, k) && Representable(ins) && !ins.RawInstruction?
    requires ins.LoadExtension? ==> ins.num == 1
    ensures var back := Disassemble(Raw(op, jt, jf, k)); back == ins || SameJump(ins, back)
  {
    hide Assemble, Disassemble, Representable, SameJump;
    ReassembledSame(ins);
  }
}
