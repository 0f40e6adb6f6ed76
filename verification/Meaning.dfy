/** What one instruction does (code/machine/mipssim.cc, OneInstruction), stated on the registers
    and the memory before and after, in arithmetic: the reference that the simulator's bit
    fiddling is proved to meet. */
module Meanings {
  import Bits
  import opened Bytes
  import opened Paging
  import opened UserMemory
  import opened Cpu
  import opened Multiplier
  import opened DelaySlots
  import opened InstructionSet

  /* ------------------------------ numbers ------------------------------ */

  /** Equal modulo 2 to the 32. */
  predicate Same32(x: int, y: int) { (x - y) % 0x1_0000_0000 == 0 }

  /** A 32-bit pattern and the number it has in two's complement. */
  lemma {:induction false} SignedNumber(x: word)
    ensures Same32(S(x), x) && -0x8000_0000 <= S(x) < 0x8000_0000
  {}

  predicate FitsInt(x: int) { -0x8000_0000 <= x < 0x8000_0000 }

  /** Rounded down: v is a divided by 2 to the k. */
  predicate ShiftedRight(v: int, a: int, k: nat) {
    v * Bits.Pow2(k) <= a < (v + 1) * Bits.Pow2(k)
  }

  /* ------------------------------ the registers after ------------------------------ */

  /** The address of the instruction after the next, unless it branches. */
  function Next(r: Regs): int {
    var next: int := r[NextPCReg];
    next + 4
  }

  function Sum32(x: int, y: int): word { (x + y) % 0x1_0000_0000 }

  /** Completed, with the program counters moved on; the pending load has arrived; of the other
      general registers only d (none, if 0) may have changed. */
  ghost predicate Retires(r: Regs, r': Regs, d: nat, next: int)
    requires ValidRegs(r)
  {
    && r'[PrevPCReg] == r[PCReg] && r'[PCReg] == r[NextPCReg] && Same32(r'[NextPCReg], next)
    && r'[BadVAddrReg] == r[BadVAddrReg] && r'[0] == 0
    && (r[LoadReg] != 0 ==> r'[r[LoadReg]] == r[LoadValueReg])
    && forall x :: 1 <= x < 32 && x != r[LoadReg] && x != d ==> r'[x] == r[x]
  }

  /** A direct write to d can be seen: it is not register 0, and the pending load does not go there. */
  predicate Shows(r: Regs, d: nat) { d != 0 && d != r[LoadReg] }

  ghost predicate NoLoad(r': Regs) { r'[LoadReg] == 0 && r'[LoadValueReg] == 0 }

  ghost predicate SameHiLo(r: Regs, r': Regs) { r'[HiReg] == r[HiReg] && r'[LoReg] == r[LoReg] }

  /** Completed without a load and without touching memory, HI or LO. */
  ghost predicate Plain(r: Regs, m: Mem, o: Cpu.Outcome, d: nat, next: int)
    requires ValidRegs(r)
  {
    o.Completed? && o.mem == m && Retires(r, o.regs, d, next) && NoLoad(o.regs) && SameHiLo(r, o.regs)
  }

  /** Completed without a load and without touching memory, other than for HI and LO. */
  ghost predicate HiLoOnly(r: Regs, m: Mem, o: Cpu.Outcome)
    requires ValidRegs(r)
  {
    o.Completed? && o.mem == m && Retires(r, o.regs, 0, Next(r)) && NoLoad(o.regs)
  }

  /** On entry to the kernel the pending load has arrived; else only BadVAddr has changed. */
  ghost predicate Entered(r: Regs, r': Regs, addr: word)
    requires ValidRegs(r)
  {
    && r'[0] == 0 && NoLoad(r') && SameHiLo(r, r') && r'[BadVAddrReg] == addr
    && r'[PCReg] == r[PCReg] && r'[NextPCReg] == r[NextPCReg] && r'[PrevPCReg] == r[PrevPCReg]
    && (r[LoadReg] != 0 ==> r'[r[LoadReg]] == r[LoadValueReg])
    && forall x :: 1 <= x < 32 && x != r[LoadReg] ==> r'[x] == r[x]
  }

  ghost predicate Traps(r: Regs, o: Cpu.Outcome, which: ExceptionType, addr: word)
    requires ValidRegs(r)
  {
    o.Trapped? && o.which == which && Entered(r, o.regs, addr)
  }

  /** The page at `addr` is not resident. */
  ghost predicate Faults(r: Regs, o: Cpu.Outcome, addr: word)
    requires ValidRegs(r)
  {
    o.Faulted? && Entered(r, o.regs, addr)
  }

  /* ------------------------------ what is computed ------------------------------ */

  /** a is rs, b is rt, k the shift amount. OR, SRL and SRLV as the simulator has them. */
  ghost predicate AluIs(op: AluOp, a: word, b: word, k: nat, v: word) {
    match op
    case ADD => S(v) == S(a) + S(b)
    case ADDU => Same32(v, a + b)
    case SUB => S(v) == S(a) - S(b)
    case SUBU => Same32(v, a - b)
    case AND => forall j: nat :: j < 32 ==> (Bits.Bit(v, j) <==> Bits.Bit(a, j) && Bits.Bit(b, j))
    case NOR => forall j: nat :: j < 32 ==> (Bits.Bit(v, j) <==> !Bits.Bit(a, j) && !Bits.Bit(b, j))
    case XOR => forall j: nat :: j < 32 ==> (Bits.Bit(v, j) <==> Bits.Bit(a, j) != Bits.Bit(b, j))
    case OR => v == a
    case SLL => Same32(v, b * Bits.Pow2(k))
    case SLLV => Same32(v, b * Bits.Pow2(a % 32))
    case SRA => ShiftedRight(S(v), S(b), k)
    case SRL => ShiftedRight(S(v), S(b), k)
    case SRAV => ShiftedRight(S(v), S(b), a % 32)
    case SRLV => ShiftedRight(S(v), S(b), a % 32)
    case SLT => v == if S(a) < S(b) then 1 else 0
    case SLTU => v == if a < b then 1 else 0
  }

  /** imm is the immediate with its sign extended. */
  ghost predicate ImmIs(op: ImmOp, a: word, imm: word, v: word) {
    match op
    case ADDI => S(v) == S(a) + S(imm)
    case ADDIU => Same32(v, a + S(imm))
    case ANDI => forall j: nat :: j < 32 ==> (Bits.Bit(v, j) <==> j < 16 && Bits.Bit(a, j) && Bits.Bit(imm, j))
    case ORI => forall j: nat :: j < 32 ==> (Bits.Bit(v, j) <==> Bits.Bit(a, j) || (j < 16 && Bits.Bit(imm, j)))
    case XORI => forall j: nat :: j < 32 ==> (Bits.Bit(v, j) <==> Bits.Bit(a, j) != (j < 16 && Bits.Bit(imm, j)))
    case LUI => v == imm % 0x1_0000 * 0x1_0000
    case SLTI => v == if S(a) < S(imm) then 1 else 0
    case SLTIU => v == if a < imm then 1 else 0
  }

  predicate Holds(op: BranchOp, a: int, b: int) {
    match op
    case BEQ => a == b
    case BNE => a != b
    case BGEZ => a >= 0
    case BGTZ => a > 0
    case BLEZ => a <= 0
    case BLTZ => a < 0
  }

  /** A product in two words. */
  predicate ProductIs(product: int, hi: int, lo: word) { hi * 0x1_0000_0000 + lo == product }

  /** The one quotient that does not fit an int, which C leaves undefined. */
  predicate QuotientTooBig(a: int, b: int) { a == -0x8000_0000 && b == -1 }

  /** Quotient and remainder; the remainder has the sign of a. */
  predicate DividesTowardZero(a: int, b: int, q: int, rem: int) {
    && a == q * b + rem && rem < Magnitude(b) && -rem < Magnitude(b)
    && (rem > 0 ==> a > 0) && (rem < 0 ==> a < 0)
  }

  /* ------------------------------ loads and stores ------------------------------ */

  function Width(op: Op): AccessSize {
    match op
    case Ld(LB) => 1 case Ld(LBU) => 1 case St(SB) => 1
    case Ld(LH) => 2 case Ld(LHU) => 2 case St(SH) => 2
    case _ => 4
  }

  /** The little-endian numbers at an address. */
  function ByteAt(flat: seq<byte>, a: nat): int
    requires a < |flat|
  {
    flat[a]
  }

  function HalfAt(flat: seq<byte>, a: nat): int
    requires a + 2 <= |flat|
  {
    ByteAt(flat, a) + 0x100 * ByteAt(flat, a + 1)
  }

  function WordAt(flat: seq<byte>, a: nat): int
    requires a + 4 <= |flat|
  {
    HalfAt(flat, a) + 0x1_0000 * HalfAt(flat, a + 2)
  }

  /** v is the value that the load of address a leaves for the delay slot; `past` is what its target
      would have held. LWR keeps the upper three bytes of that. */
  ghost predicate LoadIs(op: LoadOp, flat: seq<byte>, a: nat, past: word, v: word) {
    && a + Width(Ld(op)) <= |flat|
    && match op
       case LB => S(v) == if ByteAt(flat, a) < 0x80 then ByteAt(flat, a) else ByteAt(flat, a) - 0x100
       case LBU => v == ByteAt(flat, a)
       case LH => S(v) == if HalfAt(flat, a) < 0x8000 then HalfAt(flat, a) else HalfAt(flat, a) - 0x1_0000
       case LHU => v == HalfAt(flat, a)
       case LWR => v / 0x100 == past / 0x100 && v % 0x100 == ByteAt(flat, a + 3)
       case _ => v == WordAt(flat, a)
  }

  /** Byte k of a word. */
  function ByteOf(x: int, k: nat): int
    requires k < 4
  {
    match k
    case 0 => x % 0x100
    case 1 => x / 0x100 % 0x100
    case 2 => x / 0x1_0000 % 0x100
    case _ => x / 0x100_0000 % 0x100
  }

  /** The memory after the store of b at a: SWR writes the last byte of the word alone. */
  ghost predicate StoreIs(op: StoreOp, flat: seq<byte>, a: nat, b: word, flat': seq<byte>) {
    && a + Width(St(op)) <= |flat| == |flat'|
    && forall x :: 0 <= x < |flat| ==>
         ByteAt(flat', x) == if op == SWR then (if x == a + 3 then ByteOf(b, 0) else ByteAt(flat, x))
                             else if a <= x < a + Width(St(op)) then ByteOf(b, x - a) else ByteAt(flat, x)
  }

  /** The target of a load once the pending one has arrived. */
  function Past(r: Regs, t: RegNo): word { if r[LoadReg] == t then r[LoadValueReg] else r[t] }

  predicate Unreachable(m: Mem, a: word, size: nat)
    requires size > 0
  {
    a % size != 0 || a / PageSize >= m.numPages
  }

  ghost predicate LoadMeans(op: LoadOp, t: RegNo, a: word, r: Regs, m: Mem, resident: set<nat>, o: Cpu.Outcome)
    requires ValidRegs(r)
  {
    if (op == LWL || op == LWR) && a % 4 != 0 then o.Stopped?
    else if Unreachable(m, a, Width(Ld(op))) then Traps(r, o, AddressErrorException, a)
    else if a / PageSize !in resident then Faults(r, o, a)
    else
      && o.Completed? && o.mem == m && Retires(r, o.regs, 0, Next(r)) && SameHiLo(r, o.regs)
      && o.regs[LoadReg] == t && LoadIs(op, m.flat, a, Past(r, t), o.regs[LoadValueReg])
  }

  ghost predicate StoreMeans(op: StoreOp, b: word, a: word, r: Regs, m: Mem, resident: set<nat>, o: Cpu.Outcome)
    requires ValidRegs(r)
  {
    if (op == SWL || op == SWR) && a % 4 != 0 then o.Stopped?
    else if Unreachable(m, a, Width(St(op))) then Traps(r, o, AddressErrorException, a)
    else if a / PageSize !in resident then Faults(r, o, a)
    else
      && o.Completed? && Plain(r, o.mem, o, 0, Next(r))
      && o.mem.numPages == m.numPages && StoreIs(op, m.flat, a, b, o.mem.flat)
  }

  /* ------------------------------ every instruction ------------------------------ */

  /** A jump stays within the 256 MB of the instruction after the next. */
  function Region(r: Regs): int {
    var pc4 := Next(r) % 0x1_0000_0000;
    pc4 - pc4 % 0x1000_0000
  }

  ghost predicate AluMeans(i: Instruction, r: Regs, m: Mem, o: Cpu.Outcome)
    requires ValidRegs(r) && i.op.Alu?
  {
    var op, a, b := i.op.alu, r[i.rs], r[i.rt];
    if (op == ADD && !FitsInt(S(a) + S(b))) || (op == SUB && !FitsInt(S(a) - S(b))) then
      Traps(r, o, OverflowException, 0)
    else Plain(r, m, o, i.rd, Next(r)) && (Shows(r, i.rd) ==> AluIs(op, a, b, i.extra, o.regs[i.rd]))
  }

  ghost predicate ImmMeans(i: Instruction, r: Regs, m: Mem, o: Cpu.Outcome)
    requires ValidRegs(r) && i.op.Imm?
  {
    var op, a := i.op.imm, r[i.rs];
    if op == ADDI && !FitsInt(S(a) + S(i.extra)) then Traps(r, o, OverflowException, 0)
    else Plain(r, m, o, i.rt, Next(r)) && (Shows(r, i.rt) ==> ImmIs(op, a, i.extra, o.regs[i.rt]))
  }

  /** What a branch with link tests: rs, read after the link register is written. */
  function AfterLink(i: Instruction, r: Regs): word { if i.rs == R31 then Sum32(Next(r), 0) else r[i.rs] }

  /** Where a branch goes; the offset counts instructions from the one in the delay slot. */
  function BranchTo(op: BranchOp, a: int, b: int, r: Regs, offset: int): int {
    if Holds(op, a, b) then Next(r) - 4 + 4 * offset else Next(r)
  }

  /** Register d (written before rs is read) gets the return address, and the program goes on there. */
  ghost predicate Links(r: Regs, m: Mem, o: Cpu.Outcome, d: nat, next: int)
    requires ValidRegs(r) && d < 32
  {
    Plain(r, m, o, d, next) && (Shows(r, d) ==> Same32(o.regs[d], Next(r)))
  }

  /** HI and LO after a product or a quotient; by zero, both are zero. */
  ghost predicate MulDivMeans(op: Op, a: word, b: word, hi: word, lo: word) {
    match op
    case MULT => ProductIs(S(a) * S(b), S(hi), lo)
    case MULTU => ProductIs(a * b, hi, lo)
    case DIV =>
      if b == 0 then hi == lo == 0 else QuotientTooBig(S(a), S(b)) || DividesTowardZero(S(a), S(b), S(lo), S(hi))
    case DIVU => if b == 0 then hi == lo == 0 else DividesTowardZero(a, b, lo, hi)
    case _ => true
  }

  ghost predicate Means(i: Instruction, r: Regs, m: Mem, resident: set<nat>, o: Cpu.Outcome)
    requires ValidRegs(r)
  {
    var a, b := r[i.rs], r[i.rt];
    match i.op
    case Alu(_) => AluMeans(i, r, m, o)
    case Imm(_) => ImmMeans(i, r, m, o)
    case Branch(op) => Plain(r, m, o, 0, BranchTo(op, S(a), S(b), r, S(i.extra)))
    case BranchLink(op) =>
      Links(r, m, o, R31, BranchTo(op, S(AfterLink(i, r)), S(b), r, S(i.extra)))
    case J => Plain(r, m, o, 0, Region(r) + 4 * i.extra)
    case JAL => Links(r, m, o, R31, Region(r) + 4 * i.extra)
    case JR => Plain(r, m, o, 0, a)
    case JALR => Links(r, m, o, i.rd, if i.rs == i.rd then Next(r) else a)
    case MFHI => Plain(r, m, o, i.rd, Next(r)) && (Shows(r, i.rd) ==> o.regs[i.rd] == r[HiReg])
    case MFLO => Plain(r, m, o, i.rd, Next(r)) && (Shows(r, i.rd) ==> o.regs[i.rd] == r[LoReg])
    case MTHI => HiLoOnly(r, m, o) && o.regs[HiReg] == a && o.regs[LoReg] == r[LoReg]
    case MTLO => HiLoOnly(r, m, o) && o.regs[LoReg] == a && o.regs[HiReg] == r[HiReg]
    case Ld(op) => LoadMeans(op, i.rt, Sum32(a, i.extra), r, m, resident, o)
    case St(op) => StoreMeans(op, b, Sum32(a, i.extra), r, m, resident, o)
    case SYSCALL => Traps(r, o, SyscallException, 0)
    case UNIMP => Traps(r, o, IllegalInstrException, 0)
    case RES => Traps(r, o, IllegalInstrException, 0)
    case _ => HiLoOnly(r, m, o) && MulDivMeans(i.op, a, b, o.regs[HiReg], o.regs[LoReg])
  }

  /* ------------------------------ how effects end ------------------------------ */

  lemma {:induction false} Trapped(r: Regs, which: ExceptionType, addr: word)
    requires ValidRegs(r)
    ensures if which == PageFaultException then Faults(r, Conclude(r, Raise(which, addr)), addr)
            else Traps(r, Conclude(r, Raise(which, addr)), which, addr)
  {}

  lemma {:induction false} Finished(r: Regs, e: Effect, d: nat, next: int)
    requires ValidRegs(r) && e.Ok? && GoodEffect(e) && Same32(e.pcAfter, next)
    requires forall x :: 1 <= x < 32 && x != d ==> Apply(r, e.writes)[x] == r[x]
    ensures var o := Conclude(r, e);
      && o.Completed? && o.mem == e.mem && Retires(r, o.regs, d, next)
      && o.regs[LoadReg] == e.loadReg && o.regs[LoadValueReg] == e.loadValue
      && o.regs[HiReg] == Apply(r, e.writes)[HiReg] && o.regs[LoReg] == Apply(r, e.writes)[LoReg]
      && (d < 32 && Shows(r, d) ==> o.regs[d] == Apply(r, e.writes)[d])
  {
    WritesKeep(r, e.writes);
  }

  lemma {:induction false} NoWriteEnds(r: Regs, pc: word, m: Mem, next: int)
    requires ValidRegs(r) && Same32(pc, next)
    ensures Plain(r, m, Conclude(r, Ok([], 0, 0, pc, m)), 0, next)
  {
    Finished(r, Ok([], 0, 0, pc, m), 0, next);
  }

  lemma {:induction false} WriteEnds(r: Regs, d: RegNo, v: word, pc: word, m: Mem, next: int)
    requires ValidRegs(r) && Same32(pc, next)
    ensures Plain(r, m, Conclude(r, Ok([(d, v)], 0, 0, pc, m)), d, next)
    ensures Shows(r, d) ==> Conclude(r, Ok([(d, v)], 0, 0, pc, m)).regs[d] == v
  {
    var e := Ok([(d, v)], 0, 0, pc, m);
    assert e.writes[1..] == [];
    assert Apply(r, e.writes) == r[d := v];
    Finished(r, e, d, next);
  }

  lemma {:induction false} HiLoEnds(r: Regs, writes: seq<(nat, word)>, hi: word, lo: word, pc: word, m: Mem)
    requires ValidRegs(r) && Apply(r, writes) == r[HiReg := hi][LoReg := lo]
    requires forall k :: 0 <= k < |writes| ==> writes[k].0 <= LoReg
    requires Same32(pc, Next(r))
    ensures var o := Conclude(r, Ok(writes, 0, 0, pc, m));
      HiLoOnly(r, m, o) && o.regs[HiReg] == hi && o.regs[LoReg] == lo
  {
    Finished(r, Ok(writes, 0, 0, pc, m), 0, Next(r));
  }

  /* ------------------------------ arithmetic ------------------------------ */

  lemma {:induction false} Wraps(x: int)
    ensures Same32(W32(x), x)
    ensures FitsInt(x) ==> S(W32(x)) == x
  {}

  lemma {:induction false} AddOverflows(a: word, b: word)
    ensures var sum := W32(a + b);
      && (!Negative(Xor(a, b)) && Negative(Xor(a, sum)) <==> !FitsInt(S(a) + S(b)))
      && (!Negative(Xor(a, b)) && Negative(Xor(b, sum)) <==> !FitsInt(S(a) + S(b)))
      && (FitsInt(S(a) + S(b)) ==> S(sum) == S(a) + S(b))
  {
    var sum := W32(a + b);
    Bits.XorSign(a, b);
    Bits.XorSign(a, sum);
    Bits.XorSign(b, sum);
    SumSigns(a, b);
  }

  lemma {:induction false} SumSigns(a: word, b: word)
    ensures var sum := W32(a + b);
      && (Negative(a) == Negative(b) && Negative(a) != Negative(sum) <==> !FitsInt(S(a) + S(b)))
      && (FitsInt(S(a) + S(b)) ==> S(sum) == S(a) + S(b))
  {
    assert a + b < 0x1_0000_0000 ==> W32(a + b) == a + b;
    assert a + b >= 0x1_0000_0000 ==> W32(a + b) == a + b - 0x1_0000_0000;
  }

  lemma {:induction false} SubOverflows(a: word, b: word)
    ensures var diff := W32(a - b);
      && (Negative(Xor(a, b)) && Negative(Xor(a, diff)) <==> !FitsInt(S(a) - S(b)))
      && (FitsInt(S(a) - S(b)) ==> S(diff) == S(a) - S(b))
  {
    Bits.XorSign(a, b);
    Bits.XorSign(a, W32(a - b));
    DifferenceSigns(a, b);
  }

  lemma {:induction false} DifferenceSigns(a: word, b: word)
    ensures var diff := W32(a - b);
      && (Negative(a) != Negative(b) && Negative(a) != Negative(diff) <==> !FitsInt(S(a) - S(b)))
      && (FitsInt(S(a) - S(b)) ==> S(diff) == S(a) - S(b))
  {
    assert W32(a - b) == if a >= b then a - b else a - b + 0x1_0000_0000;
  }

  lemma {:induction false} Floor(a: int, p: nat)
    requires p > 0
    ensures a / p * p <= a < (a / p + 1) * p
    ensures FitsInt(a) ==> FitsInt(a / p)
  {
    var q := a / p;
    assert (q + 1) * p == q * p + p;
    Grows(q, p);
  }

  lemma {:induction false} Grows(q: int, p: int)
    requires p > 0
    ensures if q >= 0 then q <= q * p else q * p <= q
  {
    assert q * p == q + q * (p - 1);
    assert q >= 0 ==> q * (p - 1) >= 0;
    assert q < 0 ==> q * (p - 1) <= 0;
  }

  lemma {:induction false} ShiftIs(b: word, k: nat)
    ensures ShiftedRight(S(ShiftRightSigned(b, k)), S(b), k)
  {
    Floor(S(b), Bits.Pow2(k));
    Wraps(S(b) / Bits.Pow2(k));
  }

  lemma {:induction false} NotIs(x: word, j: nat)
    requires j < 32
    ensures Bits.Bit(Not(x), j) <==> !Bits.Bit(x, j)
  {
    Bits.WordRange();
    Bits.NotBits(32, x, j);
  }

  lemma {:induction false} LogicIs(op: AluOp, a: word, b: word, k: word)
    requires op == AND || op == NOR || op == XOR || op == OR
    ensures AluValue(op, a, b, k).Word? && AluIs(op, a, b, k, AluValue(op, a, b, k).w)
  {
    Bits.OrSelf(a);
    forall j: nat | j < 32
      ensures Bits.Bit(And(a, b), j) <==> Bits.Bit(a, j) && Bits.Bit(b, j)
      ensures Bits.Bit(Xor(a, b), j) <==> Bits.Bit(a, j) != Bits.Bit(b, j)
      ensures Bits.Bit(Not(Or(a, b)), j) <==> !Bits.Bit(a, j) && !Bits.Bit(b, j)
    {
      Bits.AndBits(a, b, j);
      Bits.XorBits(a, b, j);
      Bits.OrBits(a, b, j);
      NotIs(Or(a, b), j);
    }
  }

  lemma {:induction false} AluComputes(op: AluOp, a: word, b: word, k: word)
    ensures AluValue(op, a, b, k).Overflow? <==>
      (op == ADD && !FitsInt(S(a) + S(b))) || (op == SUB && !FitsInt(S(a) - S(b)))
    ensures AluValue(op, a, b, k).Word? ==> AluIs(op, a, b, k, AluValue(op, a, b, k).w)
  {
    match op
    case ADD => AddOverflows(a, b);
    case SUB => SubOverflows(a, b);
    case SLT =>
    case SLTU =>
    case AND => LogicIs(op, a, b, k);
    case NOR => LogicIs(op, a, b, k);
    case XOR => LogicIs(op, a, b, k);
    case OR => LogicIs(op, a, b, k);
    case _ => ModularIs(op, a, b, k);
  }

  /** Sums without overflow, and shifts. */
  lemma {:induction false} ModularIs(op: AluOp, a: word, b: word, k: word)
    requires op in {ADDU, SUBU, SLL, SLLV, SRA, SRL, SRAV, SRLV}
    ensures AluValue(op, a, b, k).Word? && AluIs(op, a, b, k, AluValue(op, a, b, k).w)
  {
    var x: int, y: int := a, b;
    match op
    case ADDU => Wraps(x + y);
    case SUBU => Wraps(x - y);
    case SLL => Wraps(y * Bits.Pow2(k));
    case SLLV => Wraps(y * Bits.Pow2(a % 32));
    case SRA => ShiftIs(b, k);
    case SRL => ShiftIs(b, k);
    case SRAV => ShiftIs(b, a % 32);
    case SRLV => ShiftIs(b, a % 32);
  }

  lemma {:induction false} AluStep(i: Instruction, r: Regs, m: Mem, resident: set<nat>)
    requires ValidRegs(r) && i.op.Alu?
    ensures AluMeans(i, r, m, Ended(r, i, m, resident))
  {
    var v := AluValue(i.op.alu, r[i.rs], r[i.rt], i.extra);
    AluComputes(i.op.alu, r[i.rs], r[i.rt], i.extra);
    assert Execute(r, i, m, resident) == Computed(v, i.rd, Pc4(r), m);
    ComputedEnds(r, v, i.rd, m);
  }

  lemma {:induction false} ComputedEnds(r: Regs, v: AluResult, d: RegNo, m: Mem)
    requires ValidRegs(r)
    ensures var o := Conclude(r, Computed(v, d, Pc4(r), m));
      match v
      case Word(w) => Plain(r, m, o, d, Next(r)) && (Shows(r, d) ==> o.regs[d] == w)
      case Overflow => Traps(r, o, OverflowException, 0)
  {
    match v
    case Word(w) => WriteEnds(r, d, w, Pc4(r), m, Next(r));
    case Overflow => Trapped(r, OverflowException, 0);
  }

  lemma {:induction false} LowHalf(x: word, j: nat)
    ensures Bits.Bit(x % 0x1_0000, j) <==> j < 16 && Bits.Bit(x, j)
  {
    assert Bits.Pow2(8) == 0x100;
    assert Bits.Pow2(16) == 0x1_0000;
    Bits.ModBits(x, 16, j);
  }

  lemma {:induction false} ImmLogicIs(op: ImmOp, a: word, imm: word)
    requires op == ANDI || op == ORI || op == XORI
    ensures ImmValue(op, a, imm).Word? && ImmIs(op, a, imm, ImmValue(op, a, imm).w)
  {
    var low: word := imm % 0x1_0000;
    forall j: nat | j < 32
      ensures Bits.Bit(And(a, low), j) <==> j < 16 && Bits.Bit(a, j) && Bits.Bit(imm, j)
      ensures Bits.Bit(Or(a, low), j) <==> Bits.Bit(a, j) || (j < 16 && Bits.Bit(imm, j))
      ensures Bits.Bit(Xor(a, low), j) <==> Bits.Bit(a, j) != (j < 16 && Bits.Bit(imm, j))
    {
      LowHalf(imm, j);
      Bits.AndBits(a, low, j);
      Bits.OrBits(a, low, j);
      Bits.XorBits(a, low, j);
    }
  }

  lemma {:induction false} UpperHalf(x: word)
    ensures ShiftLeft(x, 16) == x % 0x1_0000 * 0x1_0000
  {
    assert Bits.Pow2(8) == 0x100;
    assert Bits.Pow2(16) == 0x1_0000;
    var q, r := x / 0x1_0000, x % 0x1_0000;
    Bits.QuotientUnique(x * 0x1_0000, q, 0x1_0000_0000, r * 0x1_0000);
  }

  lemma {:induction false} ImmComputes(op: ImmOp, a: word, imm: word)
    ensures ImmValue(op, a, imm).Overflow? <==> op == ADDI && !FitsInt(S(a) + S(imm))
    ensures ImmValue(op, a, imm).Word? ==> ImmIs(op, a, imm, ImmValue(op, a, imm).w)
  {
    match op
    case ADDI => AddOverflows(a, imm);
    case ADDIU =>
    case LUI => UpperHalf(imm);
    case SLTI =>
    case SLTIU =>
    case _ => ImmLogicIs(op, a, imm);
  }

  lemma {:induction false} ImmStep(i: Instruction, r: Regs, m: Mem, resident: set<nat>)
    requires ValidRegs(r) && i.op.Imm?
    ensures ImmMeans(i, r, m, Ended(r, i, m, resident))
  {
    var v := ImmValue(i.op.imm, r[i.rs], i.extra);
    ImmComputes(i.op.imm, r[i.rs], i.extra);
    assert Execute(r, i, m, resident) == Computed(v, i.rt, Pc4(r), m);
    ComputedEnds(r, v, i.rt, m);
  }

  /* ------------------------------ branches and jumps ------------------------------ */

  lemma {:induction false} Shift2(x: word)
    ensures Same32(ShiftLeft(x, 2), 4 * S(x))
    ensures x < 0x400_0000 ==> ShiftLeft(x, 2) == 4 * x
  {
    assert Bits.Pow2(2) == 4;
  }

  lemma {:induction false} TakenHolds(op: BranchOp, a: word, b: word)
    ensures Taken(op, a, b) <==> Holds(op, S(a), S(b))
  {}

  lemma {:induction false} SameSum(x: int, y: int, z: int)
    requires Same32(y, z)
    ensures Same32(W32(x + y), x + z)
  {}

  lemma {:induction false} BranchGoes(op: BranchOp, a: word, b: word, r: Regs, x: word)
    ensures Same32(BranchTarget(r, x, Taken(op, a, b)), BranchTo(op, S(a), S(b), r, S(x)))
  {
    TakenHolds(op, a, b);
    if Taken(op, a, b) {
      TakenGoes(r, x);
    } else {
      GoesOn(r);
    }
  }

  lemma {:induction false} TakenGoes(r: Regs, x: word)
    ensures Same32(W32(Next(r) - 4 + ShiftLeft(x, 2)), Next(r) - 4 + 4 * S(x))
  {
    Shift2(x);
    SameSum(Next(r) - 4, ShiftLeft(x, 2), 4 * S(x));
  }

  lemma {:induction false} GoesOn(r: Regs)
    ensures Same32(Pc4(r), Next(r))
  {}

  function BranchTarget(r: Regs, x: word, taken: bool): word {
    if taken then W32(Next(r) - 4 + ShiftLeft(x, 2)) else Pc4(r)
  }

  lemma {:induction false} BranchEffect(i: Instruction, r: Regs, m: Mem, resident: set<nat>)
    requires i.op.Branch?
    ensures Execute(r, i, m, resident)
         == Ok([], 0, 0, BranchTarget(r, i.extra, Taken(i.op.br, r[i.rs], r[i.rt])), m)
  {}

  lemma {:induction false} BranchStep(i: Instruction, r: Regs, m: Mem, resident: set<nat>)
    requires ValidRegs(r) && i.op.Branch?
    ensures Plain(r, m, Ended(r, i, m, resident), 0, BranchTo(i.op.br, S(r[i.rs]), S(r[i.rt]), r, S(i.extra)))
  {
    BranchEffect(i, r, m, resident);
    BranchGoes(i.op.br, r[i.rs], r[i.rt], r, i.extra);
    NoWriteEnds(r, BranchTarget(r, i.extra, Taken(i.op.br, r[i.rs], r[i.rt])), m,
                BranchTo(i.op.br, S(r[i.rs]), S(r[i.rt]), r, S(i.extra)));
  }

  lemma {:induction false} LinkEffect(i: Instruction, r: Regs, m: Mem, resident: set<nat>)
    requires i.op.BranchLink?
    ensures Execute(r, i, m, resident)
         == Ok([(R31, Pc4(r))], 0, 0, BranchTarget(r, i.extra, Taken(i.op.brl, AfterLink(i, r), r[i.rt])), m)
  {}

  lemma {:induction false} LinkStep(i: Instruction, r: Regs, m: Mem, resident: set<nat>)
    requires ValidRegs(r) && i.op.BranchLink?
    ensures Links(r, m, Ended(r, i, m, resident), R31,
                  BranchTo(i.op.brl, S(AfterLink(i, r)), S(r[i.rt]), r, S(i.extra)))
  {
    LinkEffect(i, r, m, resident);
    BranchGoes(i.op.brl, AfterLink(i, r), r[i.rt], r, i.extra);
    LinkEnds(r, R31, BranchTarget(r, i.extra, Taken(i.op.brl, AfterLink(i, r), r[i.rt])), m,
             BranchTo(i.op.brl, S(AfterLink(i, r)), S(r[i.rt]), r, S(i.extra)));
  }

  lemma {:induction false} LinkEnds(r: Regs, d: RegNo, pc: word, m: Mem, next: int)
    requires ValidRegs(r) && Same32(pc, next)
    ensures Links(r, m, Conclude(r, Ok([(d, Pc4(r))], 0, 0, pc, m)), d, next)
  {
    WriteEnds(r, d, Pc4(r), pc, m, next);
  }

  lemma {:induction false} JumpTarget(r: Regs, x: word)
    requires x < 0x400_0000
    ensures Or(And(Pc4(r), 0xf000_0000), ShiftLeft(x, 2)) == Region(r) + 4 * x
  {
    Shift2(x);
    TopNibble(Pc4(r), 4 * x);
  }

  lemma {:induction false} TopNibble(x: word, low: word)
    requires low < 0x1000_0000
    ensures Or(And(x, 0xf000_0000), low) == x - x % 0x1000_0000 + low
  {
    Pow28();
    assert Bits.Pow2(4) == 16;
    var top := x / 0x1000_0000;
    Bits.DownIs(x, 28);
    Bits.UpIs(15, 28);
    Bits.UpIs(top, 28);
    Bits.AndHigh(x, 15, 28);
    Bits.AndOnes(top, 4);
    Bits.OrDisjoint(top, 28, low);
  }

  lemma {:induction false} Pow28()
    ensures Bits.Pow2(28) == 0x1000_0000 && Bits.Pow2(24) == 0x100_0000
  {
    assert Bits.Pow2(8) == 0x100;
    assert Bits.Pow2(16) == 0x1_0000;
    assert Bits.Pow2(24) == 0x100_0000;
  }

  lemma {:induction false} JumpStep(i: Instruction, r: Regs, m: Mem, resident: set<nat>)
    requires ValidRegs(r) && (i.op.J? || i.op.JAL?) && i.extra < 0x400_0000
    ensures i.op.J? ==> Plain(r, m, Ended(r, i, m, resident), 0, Region(r) + 4 * i.extra)
    ensures i.op.JAL? ==> Links(r, m, Ended(r, i, m, resident), R31, Region(r) + 4 * i.extra)
  {
    JumpTarget(r, i.extra);
    var pc := Or(And(Pc4(r), 0xf000_0000), ShiftLeft(i.extra, 2));
    if i.op.J? {
      assert Execute(r, i, m, resident) == Ok([], 0, 0, pc, m);
      NoWriteEnds(r, pc, m, pc);
    } else {
      assert Execute(r, i, m, resident) == Ok([(R31, Pc4(r))], 0, 0, pc, m);
      LinkEnds(r, R31, pc, m, pc);
    }
  }

  lemma {:induction false} RegisterJumpStep(i: Instruction, r: Regs, m: Mem, resident: set<nat>)
    requires ValidRegs(r) && (i.op.JR? || i.op.JALR?)
    ensures i.op.JR? ==> Plain(r, m, Ended(r, i, m, resident), 0, r[i.rs])
    ensures i.op.JALR? ==> Links(r, m, Ended(r, i, m, resident), i.rd, if i.rs == i.rd then Next(r) else r[i.rs])
  {
    if i.op.JR? {
      assert Execute(r, i, m, resident) == Ok([], 0, 0, r[i.rs], m);
      NoWriteEnds(r, r[i.rs], m, r[i.rs]);
    } else {
      var pc := if i.rs == i.rd then Pc4(r) else r[i.rs];
      assert Execute(r, i, m, resident) == Ok([(i.rd, Pc4(r))], 0, 0, pc, m);
      LinkEnds(r, i.rd, pc, m, if i.rs == i.rd then Next(r) else r[i.rs]);
    }
  }

  /* ------------------------------ HI and LO ------------------------------ */

  lemma {:induction false} MoveStep(i: Instruction, r: Regs, m: Mem, resident: set<nat>)
    requires ValidRegs(r) && (i.op.MFHI? || i.op.MFLO?)
    ensures var o := Ended(r, i, m, resident);
      Plain(r, m, o, i.rd, Next(r))
      && (Shows(r, i.rd) ==> o.regs[i.rd] == if i.op.MFHI? then r[HiReg] else r[LoReg])
  {
    var v := if i.op.MFHI? then r[HiReg] else r[LoReg];
    assert Execute(r, i, m, resident) == Ok([(i.rd, v)], 0, 0, Pc4(r), m);
    WriteEnds(r, i.rd, v, Pc4(r), m, Next(r));
  }

  lemma {:induction false} MoveToStep(i: Instruction, r: Regs, m: Mem, resident: set<nat>)
    requires ValidRegs(r) && (i.op.MTHI? || i.op.MTLO?)
    ensures var o := Ended(r, i, m, resident);
      && HiLoOnly(r, m, o)
      && o.regs[HiReg] == (if i.op.MTHI? then r[i.rs] else r[HiReg])
      && o.regs[LoReg] == (if i.op.MTHI? then r[LoReg] else r[i.rs])
  {
    GoesOn(r);
    var d := if i.op.MTHI? then HiReg else LoReg;
    var writes: seq<(nat, word)> := [(d, r[i.rs])];
    assert Execute(r, i, m, resident) == Ok(writes, 0, 0, Pc4(r), m);
    OneOfPair(r, d, r[i.rs]);
    HiLoEnds(r, writes, if i.op.MTHI? then r[i.rs] else r[HiReg], if i.op.MTHI? then r[LoReg] else r[i.rs], Pc4(r), m);
  }

  lemma {:induction false} OneOfPair(r: Regs, d: nat, v: word)
    requires d == HiReg || d == LoReg
    ensures Apply(r, [(d, v)])
         == r[HiReg := if d == HiReg then v else r[HiReg]][LoReg := if d == LoReg then v else r[LoReg]]
  {
    var writes: seq<(nat, word)> := [(d, v)];
    assert writes[1..] == [];
  }

  lemma {:induction false} ProductBounds(a: word, b: word)
    ensures -0x4000_0000_0000_0000 <= S(a) * S(b) <= 0x4000_0000_0000_0000
    ensures 0 <= a * b < 0x1_0000_0000 * 0x1_0000_0000
  {
    ProductBound(Magnitude(S(a)), Magnitude(S(b)), 0x8000_0000);
    SignedProduct(S(a), S(b));
    ProductBound(a, b, 0xffff_ffff);
  }

  lemma {:induction false} TwoWords(x: int)
    requires -0x8000_0000_0000_0000 <= x < 0x1_0000_0000 * 0x1_0000_0000
    ensures var p := x % (0x1_0000_0000 * 0x1_0000_0000);
      var hi: word, lo: word := p / 0x1_0000_0000, p % 0x1_0000_0000;
      && (x >= 0 ==> ProductIs(x, hi, lo))
      && (x < 0x8000_0000_0000_0000 ==> ProductIs(x, S(hi), lo))
  {}

  lemma {:induction false} ProductComputes(a: word, b: word)
    ensures ProductIs(S(a) * S(b), S(Product(a, b, true).0), Product(a, b, true).1)
    ensures ProductIs(a * b, Product(a, b, false).0, Product(a, b, false).1)
  {
    ProductBounds(a, b);
    TwoWords(S(a) * S(b));
    TwoWords(a * b);
  }

  lemma {:induction false} SizeOfQuotient(x: nat, y: nat)
    requires y > 0
    ensures x == x / y * y + x % y && x / y <= x
    ensures y >= 2 && x > 0 ==> x / y < x
  {
    Grows(x / y, y);
    assert y >= 2 ==> x / y * y == x / y * 2 + x / y * (y - 2);
  }

  lemma {:induction false} QuotientIs(a: int, b: int)
    requires b != 0
    ensures DividesTowardZero(a, b, Quotient(a, b), a - Quotient(a, b) * b)
  {
    var x, y := Magnitude(a), Magnitude(b);
    QuotientParts(x, y);
    RoundsTowardZero(a, b, x / y, x % y);
  }

  lemma {:induction false} QuotientParts(x: nat, y: nat)
    requires y > 0
    ensures x == (x / y) * y + x % y && x % y < y
  {}

  lemma {:induction false} RoundsTowardZero(a: int, b: int, q: int, rem: int)
    requires q >= 0 && Magnitude(a) == q * Magnitude(b) + rem && 0 <= rem < Magnitude(b)
    ensures DividesTowardZero(a, b, if (a < 0) != (b < 0) then -q else q, if a < 0 then -rem else rem)
    ensures a - (if (a < 0) != (b < 0) then -q else q) * b == if a < 0 then -rem else rem
  {
    Signs(q, b);
  }

  lemma {:induction false} Signs(q: int, b: int)
    ensures q * Magnitude(b) == if b < 0 then -(q * b) else q * b
    ensures -q * b == -(q * b)
  {}

  lemma {:induction false} QuotientSize(a: int, b: int)
    requires b != 0
    ensures Magnitude(Quotient(a, b)) == Magnitude(a) / Magnitude(b)
    ensures Magnitude(Quotient(a, b)) <= Magnitude(a)
    ensures Magnitude(b) >= 2 && a != 0 ==> Magnitude(Quotient(a, b)) < Magnitude(a)
  {
    SizeOfQuotient(Magnitude(a), Magnitude(b));
  }

  lemma {:induction false} QuotientFits(a: word, b: word)
    requires b != 0 && !QuotientTooBig(S(a), S(b))
    ensures FitsInt(Quotient(S(a), S(b))) && FitsInt(S(a) - Quotient(S(a), S(b)) * S(b))
  {
    QuotientIs(S(a), S(b));
    QuotientSize(S(a), S(b));
  }

  lemma {:induction false} DivisionComputes(a: word, b: word)
    requires b != 0
    ensures var v := Divided(a, b, true);
      QuotientTooBig(S(a), S(b)) || DividesTowardZero(S(a), S(b), S(v.1), S(v.0))
    ensures DividesTowardZero(a, b, Divided(a, b, false).1, Divided(a, b, false).0)
  {
    SizeOfQuotient(a, b);
    if !QuotientTooBig(S(a), S(b)) {
      var q := Quotient(S(a), S(b));
      QuotientIs(S(a), S(b));
      QuotientFits(a, b);
      Wraps(q);
      Wraps(S(a) - q * S(b));
    }
  }

  lemma {:induction false} MulDivComputes(op: Op, a: word, b: word)
    requires op.MULT? || op.MULTU? || op.DIV? || op.DIVU?
    ensures MulDivMeans(op, a, b, MulDivValue(op, a, b).0, MulDivValue(op, a, b).1)
  {
    ProductComputes(a, b);
    if b != 0 { DivisionComputes(a, b); }
  }

  lemma {:induction false} MulDivStep(i: Instruction, r: Regs, m: Mem, resident: set<nat>)
    requires ValidRegs(r) && (i.op.MULT? || i.op.MULTU? || i.op.DIV? || i.op.DIVU?)
    ensures var o := Ended(r, i, m, resident);
      HiLoOnly(r, m, o) && MulDivMeans(i.op, r[i.rs], r[i.rt], o.regs[HiReg], o.regs[LoReg])
  {
    var v := MulDivValue(i.op, r[i.rs], r[i.rt]);
    MulDivComputes(i.op, r[i.rs], r[i.rt]);
    MulDivEffect(i, r, m, resident);
    PairEnds(r, v, m);
  }

  lemma {:induction false} MulDivEffect(i: Instruction, r: Regs, m: Mem, resident: set<nat>)
    requires MulDiv(i.op)
    ensures Execute(r, i, m, resident) == HiLo(MulDivValue(i.op, r[i.rs], r[i.rt]), Pc4(r), m)
  {}

  lemma {:induction false} PairEnds(r: Regs, v: (word, word), m: Mem)
    requires ValidRegs(r)
    ensures var o := Conclude(r, HiLo(v, Pc4(r), m)); HiLoOnly(r, m, o) && o.regs[HiReg] == v.0 && o.regs[LoReg] == v.1
  {
    GoesOn(r);
    WordPair(r, v.0, v.1);
    HiLoEnds(r, [(HiReg, v.0), (LoReg, v.1)], v.0, v.1, Pc4(r), m);
  }

  lemma {:induction false} WordPair(r: Regs, hi: word, lo: word)
    ensures Apply(r, [(HiReg, hi), (LoReg, lo)]) == r[HiReg := hi][LoReg := lo]
  {
    var writes: seq<(nat, word)> := [(HiReg, hi), (LoReg, lo)];
    assert writes[1..] == [(LoReg, lo)];
    assert writes[1..][1..] == [];
    assert Apply(r[HiReg := hi], writes[1..]) == r[HiReg := hi][LoReg := lo];
  }

  /* ------------------------------ loads ------------------------------ */

  lemma {:induction false} InReach(m: Mem, a: word, size: AccessSize)
    ensures BadAddress(a, size, m.numPages) <==> Unreachable(m, a, size)
    ensures Vpn(a) == a / PageSize && U32(a) == a
    ensures !Unreachable(m, a, size) ==> a + size <= |m.flat|
  {
    assert U32(a) == a;
    if !Unreachable(m, a, size) { InRange(a, size, m.numPages); }
  }

  /** What ReadMem returns, as a 32-bit pattern: bytes with their sign, shorts without. */
  function NumberAt(flat: seq<byte>, a: nat, size: AccessSize): word
    requires a + size <= |flat|
  {
    if size == 1 then (if ByteAt(flat, a) < 0x80 then ByteAt(flat, a) else ByteAt(flat, a) + 0xffff_ff00)
    else if size == 2 then HalfAt(flat, a)
    else WordAt(flat, a)
  }

  lemma {:induction false} FromOne(bs: seq<byte>)
    requires |bs| == 1
    ensures FromBytes(bs) == ByteAt(bs, 0)
  {
    assert bs[1..] == [];
  }

  lemma {:induction false} FromTwo(bs: seq<byte>)
    requires |bs| == 2
    ensures FromBytes(bs) == HalfAt(bs, 0)
  {
    FromOne(bs[1..]);
  }

  lemma {:induction false} FromFour(bs: seq<byte>)
    requires |bs| == 4
    ensures FromBytes(bs) == WordAt(bs, 0)
  {
    FromTwo(bs[1..][1..]);
    assert FromBytes(bs[1..]) == ByteAt(bs, 1) + 0x100 * FromBytes(bs[1..][1..]);
  }

  lemma {:induction false} DecodeIs(flat: seq<byte>, a: nat, size: AccessSize)
    requires a + size <= |flat|
    ensures W32(Decode(flat[a..a + size])) == NumberAt(flat, a, size)
  {
    var bs := flat[a..a + size];
    if size == 1 {
      FromOne(bs);
    } else if size == 2 {
      FromTwo(bs);
    } else {
      FromFour(bs);
    }
  }

  lemma {:induction false} ReadIs(m: Mem, resident: set<nat>, a: word, size: AccessSize)
    requires !Unreachable(m, a, size) && a / PageSize in resident
    ensures a + size <= |m.flat| && ReadMem(m, resident, a, size) == Got(NumberAt(m.flat, a, size))
  {
    InReach(m, a, size);
    DecodeIs(m.flat, a, size);
  }

  lemma {:induction false} KeepsUpperBytes(past: word, b: word)
    requires b < 0x100
    ensures Or(And(past, 0xffff_ff00), b) == past / 0x100 * 0x100 + b
  {
    var top := past / 0x100;
    assert Bits.Pow2(8) == 0x100;
    Pow28();
    Bits.DownIs(past, 8);
    Bits.UpIs(0xff_ffff, 8);
    Bits.UpIs(top, 8);
    Bits.AndHigh(past, 0xff_ffff, 8);
    Bits.AndOnes(top, 24);
    Bits.OrDisjoint(top, 8, b);
  }

  lemma {:induction false} LoadComputes(op: LoadOp, flat: seq<byte>, a: nat, past: word)
    requires a + Width(Ld(op)) <= |flat|
    ensures LoadIs(op, flat, a, past, LoadedValue(op, NumberAt(flat, a, Width(Ld(op))), past))
  {
    if op == LWR { KeepsUpperBytes(past, ByteAt(flat, a + 3)); }
  }

  lemma {:induction false} LoadEffect(op: LoadOp, a: word, past: word, t: RegNo, pc4: word, m: Mem, resident: set<nat>)
    ensures var e, size := ExecuteLoad(op, a, past, t, pc4, m, resident), Width(Ld(op));
      if (op == LWL || op == LWR) && a % 4 != 0 then e == AssertFailed
      else if Unreachable(m, a, size) then e == Raise(AddressErrorException, a)
      else if a / PageSize !in resident then e == Raise(PageFaultException, a)
      else a + size <= |m.flat| && e == Ok([], t, LoadedValue(op, NumberAt(m.flat, a, size), past), pc4, m)
  {
    var size := Width(Ld(op));
    InReach(m, a, size);
    if !Unreachable(m, a, size) && a / PageSize in resident { ReadIs(m, resident, a, size); }
  }

  lemma {:induction false} LoadArm(i: Instruction, r: Regs, m: Mem, resident: set<nat>)
    requires i.op.Ld?
    ensures Execute(r, i, m, resident)
         == ExecuteLoad(i.op.ld, Sum32(r[i.rs], i.extra), Past(r, i.rt), i.rt, Pc4(r), m, resident)
  {}

  lemma {:induction false} LoadStep(i: Instruction, r: Regs, m: Mem, resident: set<nat>)
    requires ValidRegs(r) && i.op.Ld?
    ensures LoadMeans(i.op.ld, i.rt, Sum32(r[i.rs], i.extra), r, m, resident, Ended(r, i, m, resident))
  {
    var op, a, past := i.op.ld, Sum32(r[i.rs], i.extra), Past(r, i.rt);
    LoadArm(i, r, m, resident);
    LoadEffect(op, a, past, i.rt, Pc4(r), m, resident);
    var e := ExecuteLoad(op, a, past, i.rt, Pc4(r), m, resident);
    assert Execute(r, i, m, resident) == e;
    LoadEnds(op, i.rt, a, r, m, resident, e);
  }

  lemma {:induction false} LoadEnds(op: LoadOp, t: RegNo, a: word, r: Regs, m: Mem, resident: set<nat>, e: Effect)
    requires ValidRegs(r) && e == ExecuteLoad(op, a, Past(r, t), t, Pc4(r), m, resident) && (e.Ok? ==> GoodEffect(e))
    ensures LoadMeans(op, t, a, r, m, resident, Conclude(r, e))
  {
    LoadEffect(op, a, Past(r, t), t, Pc4(r), m, resident);
    match e
    case Raise(which, _) => Trapped(r, which, a);
    case Ok(_, _, _, _, _) => LoadCompletes(op, t, a, r, m, e);
    case AssertFailed =>
  }

  lemma {:induction false} LoadCompletes(op: LoadOp, t: RegNo, a: word, r: Regs, m: Mem, e: Effect)
    requires ValidRegs(r) && a + Width(Ld(op)) <= |m.flat|
    requires e == Ok([], t, LoadedValue(op, NumberAt(m.flat, a, Width(Ld(op))), Past(r, t)), Pc4(r), m)
    ensures var o := Conclude(r, e);
      && o.Completed? && o.mem == m && Retires(r, o.regs, 0, Next(r)) && SameHiLo(r, o.regs)
      && o.regs[LoadReg] == t && LoadIs(op, m.flat, a, Past(r, t), o.regs[LoadValueReg])
  {
    GoesOn(r);
    LoadComputes(op, m.flat, a, Past(r, t));
    Finished(r, e, 0, Next(r));
  }

  /* ------------------------------ stores ------------------------------ */

  lemma {:induction false} EncodeIs(x: word, size: AccessSize, k: nat)
    requires k < size
    ensures Encode(x, size)[k] == ByteOf(x, k)
  {
    assert U32(x) == x;
    ToBytesIs(x, size, k);
  }

  lemma {:induction false} ToBytesIs(x: nat, n: nat, k: nat)
    requires k < n && k < 4
    ensures ToBytes(x, n)[k] == ByteOf(x, k)
  {
    if k > 0 {
      ToBytesIs(x / 0x100, n - 1, k - 1);
      Bits.DivideBoth(x, 0x100, 0x100);
      Bits.DivideBoth(x, 0x100, 0x1_0000);
    }
  }

  lemma {:induction false} WriteIs(m: Mem, resident: set<nat>, a: word, size: AccessSize, x: word)
    requires !Unreachable(m, a, size) && a / PageSize in resident
    ensures var res := WriteMem(m, resident, a, size, x);
      && res.Wrote? && res.mem.numPages == m.numPages && |res.mem.flat| == |m.flat| && a + size <= |m.flat|
      && forall y :: 0 <= y < |m.flat| ==>
           ByteAt(res.mem.flat, y) == if a <= y < a + size then ByteOf(x, y - a) else ByteAt(m.flat, y)
  {
    InReach(m, a, size);
    var flat' := Splice(m.flat, a, Encode(x, size));
    forall y: nat | y < |m.flat|
      ensures ByteAt(flat', y) == if a <= y < a + size then ByteOf(x, y - a) else ByteAt(m.flat, y)
    {
      if a <= y < a + size { EncodeIs(x, size, y - a); }
    }
  }

  /** A word whose three low bytes are those of the word there, and whose last is the low one of b. */
  function LastReplaced(flat: seq<byte>, a: nat, b: word): int
    requires a + 4 <= |flat|
  {
    HalfAt(flat, a) + 0x1_0000 * ByteAt(flat, a + 2) + 0x100_0000 * ByteOf(b, 0)
  }

  lemma {:induction false} LastByte(flat: seq<byte>, a: nat, b: word)
    requires a + 4 <= |flat|
    ensures Or(NumberAt(flat, a, 4) % 0x100_0000, ShiftLeft(b, 24)) == LastReplaced(flat, a, b)
  {
    LowThree(flat[a], flat[a + 1], flat[a + 2], flat[a + 3]);
    TopOnly(b);
    JoinTop(NumberAt(flat, a, 4) % 0x100_0000, b % 0x100);
  }

  lemma {:induction false} JoinTop(low: word, top: word)
    requires low < 0x100_0000 && top < 0x100
    ensures Or(low, top * 0x100_0000) == low + top * 0x100_0000
  {
    Pow28();
    Bits.UpIs(top, 24);
    Bits.OrDisjoint(top, 24, low);
  }

  lemma {:induction false} TopOnly(b: word)
    ensures ShiftLeft(b, 24) == b % 0x100 * 0x100_0000
  {
    Pow28();
    Bits.QuotientUnique(b * 0x100_0000, b / 0x100, 0x1_0000_0000, b % 0x100 * 0x100_0000);
  }

  lemma {:induction false} LowThree(b0: byte, b1: byte, b2: byte, b3: byte)
    ensures Four(b0, b1, b2, b3) % 0x100_0000 == Four(b0, b1, b2, 0)
  {}

  function Four(b0: int, b1: int, b2: int, b3: int): int { b0 + 0x100 * b1 + 0x1_0000 * b2 + 0x100_0000 * b3 }

  lemma {:induction false} BytesOf(b0: byte, b1: byte, b2: byte, b3: byte)
    ensures ByteOf(Four(b0, b1, b2, b3), 0) == b0 && ByteOf(Four(b0, b1, b2, b3), 1) == b1
    ensures ByteOf(Four(b0, b1, b2, b3), 2) == b2 && ByteOf(Four(b0, b1, b2, b3), 3) == b3
  {
    var x := Four(b0, b1, b2, b3);
    Bits.QuotientUnique(x, b1 + 0x100 * b2 + 0x1_0000 * b3, 0x100, b0);
    Bits.QuotientUnique(x, b2 + 0x100 * b3, 0x1_0000, b0 + 0x100 * b1);
    Bits.QuotientUnique(x, b3, 0x100_0000, b0 + 0x100 * b1 + 0x1_0000 * b2);
  }

  lemma {:induction false} ReplacedBytes(flat: seq<byte>, a: nat, b: word, k: nat)
    requires a + 4 <= |flat| && k < 4
    ensures ByteOf(LastReplaced(flat, a, b), k) == if k == 3 then ByteOf(b, 0) else ByteAt(flat, a + k)
  {
    BytesOf(flat[a], flat[a + 1], flat[a + 2], ByteOf(b, 0));
  }

  /** The value that SWL, SWR or a plain store writes. */
  function Written(op: StoreOp, flat: seq<byte>, a: nat, b: word): int
    requires a + Width(St(op)) <= |flat|
  {
    if op == SWR then LastReplaced(flat, a, b) else b
  }

  lemma {:induction false} StoreEffect(op: StoreOp, a: word, b: word, pc4: word, m: Mem, resident: set<nat>)
    requires !Unreachable(m, a, Width(St(op))) && a / PageSize in resident
    ensures a + Width(St(op)) <= |m.flat| && 0 <= Written(op, m.flat, a, b) < 0x1_0000_0000
    ensures var res := WriteMem(m, resident, a, Width(St(op)), Written(op, m.flat, a, b));
      res.Wrote? && ExecuteStore(op, a, b, pc4, m, resident) == Ok([], 0, 0, pc4, res.mem)
  {
    InReach(m, a, Width(St(op)));
    if op == SWR { LastByte(m.flat, a, b); }
    if op == SWR || op == SWL { ReadIs(m, resident, a, 4); }
    WriteIs(m, resident, a, Width(St(op)), Written(op, m.flat, a, b));
  }

  lemma {:induction false} StoreComputes(op: StoreOp, a: word, b: word, m: Mem, resident: set<nat>)
    requires !Unreachable(m, a, Width(St(op))) && a / PageSize in resident
    requires a + Width(St(op)) <= |m.flat| && 0 <= Written(op, m.flat, a, b) < 0x1_0000_0000
    ensures var res := WriteMem(m, resident, a, Width(St(op)), Written(op, m.flat, a, b));
      res.Wrote? && res.mem.numPages == m.numPages && StoreIs(op, m.flat, a, b, res.mem.flat)
  {
    WriteIs(m, resident, a, Width(St(op)), Written(op, m.flat, a, b));
    if op == SWR {
      forall k: nat | k < 4
        ensures ByteOf(LastReplaced(m.flat, a, b), k) == if k == 3 then ByteOf(b, 0) else ByteAt(m.flat, a + k)
      {
        ReplacedBytes(m.flat, a, b, k);
      }
    }
  }

  lemma {:induction false} StoreRefused(op: StoreOp, a: word, b: word, pc4: word, m: Mem, resident: set<nat>)
    requires Unreachable(m, a, Width(St(op))) || a / PageSize !in resident
    ensures var e := ExecuteStore(op, a, b, pc4, m, resident);
      if (op == SWL || op == SWR) && a % 4 != 0 then e == AssertFailed
      else if Unreachable(m, a, Width(St(op))) then e == Raise(AddressErrorException, a)
      else e == Raise(PageFaultException, a)
  {
    InReach(m, a, Width(St(op)));
  }

  lemma {:induction false} StoreEnds(op: StoreOp, b: word, a: word, r: Regs, m: Mem, resident: set<nat>, e: Effect)
    requires ValidRegs(r) && e == ExecuteStore(op, a, b, Pc4(r), m, resident) && (e.Ok? ==> GoodEffect(e))
    ensures StoreMeans(op, b, a, r, m, resident, Conclude(r, e))
  {
    if Unreachable(m, a, Width(St(op))) || a / PageSize !in resident {
      StoreRefused(op, a, b, Pc4(r), m, resident);
      if e.Raise? { Trapped(r, e.which, a); }
    } else {
      StoreCompletes(op, b, a, r, m, resident);
    }
  }

  lemma {:induction false} StoreCompletes(op: StoreOp, b: word, a: word, r: Regs, m: Mem, resident: set<nat>)
    requires ValidRegs(r) && !Unreachable(m, a, Width(St(op))) && a / PageSize in resident
    ensures var e := ExecuteStore(op, a, b, Pc4(r), m, resident);
      && e == Ok([], 0, 0, Pc4(r), e.mem) && Plain(r, e.mem, Conclude(r, e), 0, Next(r))
      && e.mem.numPages == m.numPages && StoreIs(op, m.flat, a, b, e.mem.flat)
  {
    StoreEffect(op, a, b, Pc4(r), m, resident);
    StoreComputes(op, a, b, m, resident);
    GoesOn(r);
    NoWriteEnds(r, Pc4(r), ExecuteStore(op, a, b, Pc4(r), m, resident).mem, Next(r));
  }

  lemma {:induction false} StoreStep(i: Instruction, r: Regs, m: Mem, resident: set<nat>)
    requires ValidRegs(r) && i.op.St?
    ensures StoreMeans(i.op.st, r[i.rt], Sum32(r[i.rs], i.extra), r, m, resident, Ended(r, i, m, resident))
  {
    StoreArm(i, r, m, resident);
    StoreEnds(i.op.st, r[i.rt], Sum32(r[i.rs], i.extra), r, m, resident, Execute(r, i, m, resident));
  }

  lemma {:induction false} StoreArm(i: Instruction, r: Regs, m: Mem, resident: set<nat>)
    requires i.op.St?
    ensures var e := Execute(r, i, m, resident);
      && e == ExecuteStore(i.op.st, Sum32(r[i.rs], i.extra), r[i.rt], Pc4(r), m, resident)
      && (e.Ok? ==> GoodEffect(e))
  {
    ExecuteGood(r, i, m, resident);
    DelaySlots.StoreEffect(r, i, m, resident);
  }

  /* ------------------------------ one instruction ------------------------------ */

  /** Every decoded instruction does what it means. */
  lemma {:induction false} EveryInstruction(i: Instruction, r: Regs, m: Mem, resident: set<nat>)
    requires ValidRegs(r) && (Implemented(i.op) ==> WellFormed(i))
    ensures Means(i, r, m, resident, Ended(r, i, m, resident))
  {
    match i.op
    case Alu(_) => AluStep(i, r, m, resident);
    case Imm(_) => ImmStep(i, r, m, resident);
    case Branch(_) => BranchStep(i, r, m, resident);
    case BranchLink(_) => LinkStep(i, r, m, resident);
    case Ld(_) => LoadStep(i, r, m, resident);
    case St(_) => StoreStep(i, r, m, resident);
    case _ => OtherInstruction(i, r, m, resident);
  }

  lemma {:induction false} OtherInstruction(i: Instruction, r: Regs, m: Mem, resident: set<nat>)
    requires ValidRegs(r) && (i.op.J? || i.op.JAL? ==> i.extra < 0x400_0000)
    requires !i.op.Alu? && !i.op.Imm? && !i.op.Branch? && !i.op.BranchLink? && !i.op.Ld? && !i.op.St?
    ensures Means(i, r, m, resident, Ended(r, i, m, resident))
  {
    match i.op
    case J => JumpStep(i, r, m, resident);
    case JAL => JumpStep(i, r, m, resident);
    case JR => RegisterJumpStep(i, r, m, resident);
    case JALR => RegisterJumpStep(i, r, m, resident);
    case MFHI => MoveStep(i, r, m, resident);
    case MFLO => MoveStep(i, r, m, resident);
    case MTHI => MoveToStep(i, r, m, resident);
    case MTLO => MoveToStep(i, r, m, resident);
    case SYSCALL => Trapped(r, SyscallException, 0);
    case UNIMP => Trapped(r, IllegalInstrException, 0);
    case RES => Trapped(r, IllegalInstrException, 0);
    case _ => MulDivStep(i, r, m, resident);
  }

  /** OneInstruction: the word at the PC is fetched; if it stands for an instruction, the outcome is
      what that means, and otherwise an illegal-instruction trap. */
  lemma {:induction false} OneInstructionMeans(r: Regs, m: Mem, resident: set<nat>)
    requires ValidRegs(r)
    ensures var pc, o := r[PCReg], OneInstruction(r, m, resident);
      if Unreachable(m, pc, 4) then Traps(r, o, AddressErrorException, pc)
      else if pc / PageSize !in resident then Faults(r, o, pc)
      else
        && pc + 4 <= |m.flat|
        && (forall i: Instruction :: WellFormed(i) && Assemble(i) == WordAt(m.flat, pc) ==> Means(i, r, m, resident, o))
        && ((forall i: Instruction :: WellFormed(i) ==> Assemble(i) != WordAt(m.flat, pc)) ==>
              Traps(r, o, IllegalInstrException, 0))
  {
    var pc, o := r[PCReg], OneInstruction(r, m, resident);
    InReach(m, pc, 4);
    if Unreachable(m, pc, 4) {
      Trapped(r, AddressErrorException, pc);
    } else if pc / PageSize !in resident {
      Trapped(r, PageFaultException, pc);
    } else {
      ReadIs(m, resident, pc, 4);
      Fetched(r, NumberAt(m.flat, pc, 4), m, resident);
    }
  }

  lemma {:induction false} Fetched(r: Regs, v: word, m: Mem, resident: set<nat>)
    requires ValidRegs(r)
    ensures var o := Ended(r, DecodeInstruction(v), m, resident);
      && (forall i: Instruction :: WellFormed(i) && Assemble(i) == v ==> Means(i, r, m, resident, o))
      && ((forall i: Instruction :: WellFormed(i) ==> Assemble(i) != v) ==> Traps(r, o, IllegalInstrException, 0))
  {
    var i := DecodeInstruction(v);
    if Implemented(i.op) { AssembleDecoded(v); }
    EveryInstruction(i, r, m, resident);
    forall j: Instruction | WellFormed(j) && Assemble(j) == v ensures j == i { DecodeAssembled(j); }
    DecodeIsWell(v);
  }
}
