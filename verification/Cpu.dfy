/** The CPU core of code/machine/mipssim.cc over the flat memory of UserMemory: decoding,
    every instruction, the load-delay slot, and the trap taken by a page fault
    (RaiseException of machine.cc, the page-fault arm of exception.cc). The register file is
    a value; registers hold 32-bit patterns. */
module Cpu {
  import opened Wrappers
  import Bits
  import opened Bytes
  import opened Paging
  import opened UserMemory
  import opened Multiplier

  type word = Bits.word

  const NumTotalRegs: nat := 40
  const R31: nat := 31
  const HiReg: nat := 32
  const LoReg: nat := 33
  const PCReg: nat := 34
  const NextPCReg: nat := 35
  const PrevPCReg: nat := 36
  const LoadReg: nat := 37
  const LoadValueReg: nat := 38
  const BadVAddrReg: nat := 39

  type Regs = r: seq<word> | |r| == NumTotalRegs witness seq(NumTotalRegs, _ => 0)

  type RegNo = n: nat | n < 32

  // ---- Words ---------------------------------------------------------------

  function W32(x: int): word { x % 0x1_0000_0000 }

  function S(x: word): int { if x >= 0x8000_0000 then x - 0x1_0000_0000 else x }

  function And(a: word, b: word): word { Bits.WordOps(a, b); Bits.And(a, b) }

  function Or(a: word, b: word): word { Bits.WordOps(a, b); Bits.Or(a, b) }

  function Xor(a: word, b: word): word { Bits.WordOps(a, b); Bits.Xor(a, b) }

  function Not(a: word): word { 0xffff_ffff - a }

  function ShiftLeft(a: word, n: nat): word { W32(a * Bits.Pow2(n)) }

  /** `>>` on an int is arithmetic. */
  function ShiftRightSigned(a: word, n: nat): word { W32(S(a) / Bits.Pow2(n)) }

  predicate Negative(x: word) { x >= 0x8000_0000 }

  /** Signed division and remainder, rounding toward zero. */
  function Quotient(a: int, b: int): int
    requires b != 0
  {
    var q := (if a < 0 then -a else a) / (if b < 0 then -b else b);
    if (a < 0) != (b < 0) then -q else q
  }

  // ---- Instructions --------------------------------------------------------

  datatype AluOp =
    | ADD | ADDU | AND | NOR | OR | SLL | SLLV | SLT | SLTU | SRA | SRAV | SRL | SRLV | SUB | SUBU | XOR

  datatype ImmOp = ADDI | ADDIU | ANDI | LUI | ORI | SLTI | SLTIU | XORI

  datatype BranchOp = BEQ | BNE | BGEZ | BGTZ | BLEZ | BLTZ

  datatype LoadOp = LB | LBU | LH | LHU | LW | LWL | LWR

  datatype StoreOp = SB | SH | SW | SWL | SWR

  datatype Op =
    | Alu(alu: AluOp)               // rd := rs op rt
    | Imm(imm: ImmOp)               // rt := rs op extra
    | Branch(br: BranchOp)
    | BranchLink(brl: BranchOp)     // BGEZAL, BLTZAL
    | DIV | DIVU | MULT | MULTU
    | J | JAL | JALR | JR
    | Ld(ld: LoadOp)
    | St(st: StoreOp)
    | MFHI | MFLO | MTHI | MTLO
    | SYSCALL | UNIMP | RES

  datatype Instruction = Instruction(op: Op, rs: RegNo, rt: RegNo, rd: RegNo, extra: word)

  datatype Format = IFMT | JFMT | RFMT

  datatype Opcode = Special | Bcond | Direct(op: Op)

  /** opTable of mipssim.h, indexed by bits 31..26. */
  function OpInfo(k: nat): (Opcode, Format) {
    match k
    case 0 => (Special, RFMT)   case 1 => (Bcond, IFMT)
    case 2 => (Direct(J), JFMT) case 3 => (Direct(JAL), JFMT)
    case 4 => (Direct(Branch(BEQ)), IFMT)  case 5 => (Direct(Branch(BNE)), IFMT)
    case 6 => (Direct(Branch(BLEZ)), IFMT) case 7 => (Direct(Branch(BGTZ)), IFMT)
    case 8 => (Direct(Imm(ADDI)), IFMT)  case 9 => (Direct(Imm(ADDIU)), IFMT)
    case 10 => (Direct(Imm(SLTI)), IFMT) case 11 => (Direct(Imm(SLTIU)), IFMT)
    case 12 => (Direct(Imm(ANDI)), IFMT) case 13 => (Direct(Imm(ORI)), IFMT)
    case 14 => (Direct(Imm(XORI)), IFMT) case 15 => (Direct(Imm(LUI)), IFMT)
    case 32 => (Direct(Ld(LB)), IFMT)  case 33 => (Direct(Ld(LH)), IFMT)
    case 34 => (Direct(Ld(LWL)), IFMT) case 35 => (Direct(Ld(LW)), IFMT)
    case 36 => (Direct(Ld(LBU)), IFMT) case 37 => (Direct(Ld(LHU)), IFMT)
    case 38 => (Direct(Ld(LWR)), IFMT)
    case 40 => (Direct(St(SB)), IFMT) case 41 => (Direct(St(SH)), IFMT)
    case 42 => (Direct(St(SWL)), IFMT) case 43 => (Direct(St(SW)), IFMT)
    case 46 => (Direct(St(SWR)), IFMT)
    case _ => (Direct(if 16 <= k < 20 || 48 <= k < 52 || 56 <= k < 60 then UNIMP else RES), IFMT)
  }

  /** specialTable of mipssim.h, indexed by bits 5..0. */
  function SpecialOp(k: nat): Op {
    match k
    case 0 => Alu(SLL) case 2 => Alu(SRL) case 3 => Alu(SRA) case 4 => Alu(SLLV)
    case 6 => Alu(SRLV) case 7 => Alu(SRAV)
    case 8 => JR case 9 => JALR case 12 => SYSCALL case 13 => UNIMP
    case 16 => MFHI case 17 => MTHI case 18 => MFLO case 19 => MTLO
    case 24 => MULT case 25 => MULTU case 26 => DIV case 27 => DIVU
    case 32 => Alu(ADD) case 33 => Alu(ADDU) case 34 => Alu(SUB) case 35 => Alu(SUBU)
    case 36 => Alu(AND) case 37 => Alu(OR) case 38 => Alu(XOR) case 39 => Alu(NOR)
    case 42 => Alu(SLT) case 43 => Alu(SLTU)
    case _ => RES
  }

  /** The second field of a BCOND instruction, bits 20..16. */
  function BcondOp(k: nat): Op {
    match k
    case 0 => Branch(BLTZ) case 1 => Branch(BGEZ)
    case 16 => BranchLink(BLTZ) case 17 => BranchLink(BGEZ)
    case _ => UNIMP
  }

  /** Instruction::Decode. */
  function DecodeInstruction(v: word): Instruction {
    var rs, rt, rd := (v / 0x20_0000) % 32, (v / 0x1_0000) % 32, (v / 0x800) % 32;
    var (code, format) := OpInfo(v / 0x400_0000);
    var extra: word := match format
      case IFMT => (if v % 0x1_0000 >= 0x8000 then v % 0x1_0000 + 0xffff_0000 else v % 0x1_0000)
      case RFMT => (v / 64) % 32
      case JFMT => v % 0x400_0000;
    var op := match code
      case Special => SpecialOp(v % 64)
      case Bcond => BcondOp(rt)
      case Direct(o) => o;
    Instruction(op, rs, rt, rd, extra)
  }

  // ---- Memory --------------------------------------------------------------

  datatype Memory = Memory(flat: seq<byte>, numPages: nat)

  type Mem = m: Memory | |m.flat| == m.numPages * PageSize witness Memory([], 0)

  datatype ReadResult = Got(value: word) | ReadFailed(e: ExceptionType)

  datatype WriteResult = Wrote(mem: Mem) | WriteFailed(e: ExceptionType)

  /** Machine::ReadMem with `resident` the pages that translate. */
  function ReadMem(m: Mem, resident: set<nat>, addr: word, size: AccessSize): ReadResult {
    if BadAddress(addr, size, m.numPages) then ReadFailed(AddressErrorException)
    else if Vpn(addr) !in resident then ReadFailed(PageFaultException)
    else
      var out := FlatStep(m.flat, m.numPages, Access.Load(addr, size)).0;
      if out.Value? then Got(W32(out.v)) else ReadFailed(AddressErrorException)
  }

  function WriteMem(m: Mem, resident: set<nat>, addr: word, size: AccessSize, value: word): WriteResult {
    if BadAddress(addr, size, m.numPages) then WriteFailed(AddressErrorException)
    else if Vpn(addr) !in resident then WriteFailed(PageFaultException)
    else Wrote(Memory(FlatStep(m.flat, m.numPages, Access.Store(addr, size, value)).1, m.numPages))
  }

  // ---- What the operations compute -----------------------------------------

  datatype AluResult = Word(w: word) | Overflow

  function AluValue(op: AluOp, rs: word, rt: word, extra: word): AluResult {
    match op
    case ADD =>
      var sum := W32(rs + rt);
      if !Negative(Xor(rs, rt)) && Negative(Xor(rs, sum)) then Overflow else Word(sum)
    case ADDU => Word(W32(rs + rt))
    case AND => Word(And(rs, rt))
    case NOR => Word(Not(Or(rs, rt)))
    case OR => Word(Or(rs, rs))   // sic
    case SLL => Word(ShiftLeft(rt, extra))
    case SLLV => Word(ShiftLeft(rt, rs % 32))
    case SLT => Word(if S(rs) < S(rt) then 1 else 0)
    case SLTU => Word(if rs < rt then 1 else 0)
    case SRA => Word(ShiftRightSigned(rt, extra))
    case SRAV => Word(ShiftRightSigned(rt, rs % 32))
    case SRL => Word(ShiftRightSigned(rt, extra))   // sic
    case SRLV => Word(ShiftRightSigned(rt, rs % 32))   // sic
    case SUB =>
      var diff := W32(rs - rt);
      if Negative(Xor(rs, rt)) && Negative(Xor(rs, diff)) then Overflow else Word(diff)
    case SUBU => Word(W32(rs - rt))
    case XOR => Word(Xor(rs, rt))
  }

  function ImmValue(op: ImmOp, rs: word, extra: word): AluResult {
    match op
    case ADDI =>
      var sum := W32(rs + extra);
      if !Negative(Xor(rs, extra)) && Negative(Xor(extra, sum)) then Overflow else Word(sum)
    case ADDIU => Word(W32(rs + extra))
    case ANDI => Word(And(rs, extra % 0x1_0000))
    case LUI => Word(ShiftLeft(extra, 16))
    case ORI => Word(Or(rs, extra % 0x1_0000))
    case SLTI => Word(if S(rs) < S(extra) then 1 else 0)
    case SLTIU => Word(if rs < extra then 1 else 0)
    case XORI => Word(Xor(rs, extra % 0x1_0000))
  }

  predicate Taken(op: BranchOp, rs: word, rt: word) {
    match op
    case BEQ => rs == rt
    case BNE => rs != rt
    case BGEZ => !Negative(rs)
    case BGTZ => S(rs) > 0
    case BLEZ => S(rs) <= 0
    case BLTZ => Negative(rs)
  }

  function LoadSize(op: LoadOp): AccessSize {
    match op
    case LB => 1 case LBU => 1 case LH => 2 case LHU => 2
    case _ => 4
  }

  /** What a load leaves for its delay slot; `old_` is the target's value, for LWR. */
  function LoadedValue(op: LoadOp, v: word, old_: word): word {
    match op
    case LB => (if v % 256 >= 0x80 then v % 256 + 0xffff_ff00 else v % 256)
    case LBU => v % 256
    case LH => (if v % 0x1_0000 >= 0x8000 then v % 0x1_0000 + 0xffff_0000 else v % 0x1_0000)
    case LHU => v % 0x1_0000
    case LW => v
    case LWL => v
    case LWR => Or(And(old_, 0xffff_ff00), v / 0x100_0000)
  }

  function StoreSize(op: StoreOp): AccessSize {
    match op
    case SB => 1 case SH => 2
    case _ => 4
  }

  /** The 64-bit product, as hi and lo words. */
  function Product(rs: word, rt: word, signed: bool): (word, word) {
    var p := (if signed then S(rs) * S(rt) else rs * rt) % (0x1_0000_0000 * 0x1_0000_0000);
    (p / 0x1_0000_0000, p % 0x1_0000_0000)
  }

  /** Remainder and quotient, for HI and LO; zero if the divisor is. */
  function Divided(rs: word, rt: word, signed: bool): (word, word) {
    if rt == 0 then (0, 0)
    else if signed then
      var q := Quotient(S(rs), S(rt));
      (W32(S(rs) - q * S(rt)), W32(q))
    else (rs % rt, rs / rt)
  }

  /** The Mult of the source computes this product. */
  method MultInstruction(rs: word, rt: word, signed: bool) returns (hi: word, lo: word)
    ensures (hi, lo) == Product(rs, rt, signed)
  {
    var h, l := Mult(S(rs), S(rt), signed);
    hi, lo := W32(h), W32(l);
    ProductWords(rs, rt, signed, h, l);
  }

  lemma ProductWords(rs: word, rt: word, signed: bool, h: sint, l: sint)
    requires if signed then h * W + Unsigned(l) == S(rs) * S(rt) else Wide(Unsigned(h), Unsigned(l)) == rs * rt
    ensures (W32(h), W32(l)) == Product(rs, rt, signed)
  {
    var x := if signed then S(rs) * S(rt) else rs * rt;
    WideModulus(x, h, l);
    WideSplit(Unsigned(h), Unsigned(l));
  }

  lemma WideSplit(h: uint, l: uint)
    ensures Wide(h, l) / 0x1_0000_0000 == h && Wide(h, l) % 0x1_0000_0000 == l
  {}

  lemma WideModulus(x: int, h: sint, l: sint)
    requires x == h * W + Unsigned(l) || x == Wide(Unsigned(h), Unsigned(l))
    ensures x % (0x1_0000_0000 * 0x1_0000_0000) == Wide(Unsigned(h), Unsigned(l))
    ensures W32(h) == Unsigned(h) && W32(l) == Unsigned(l)
  {
    var p: int := Wide(Unsigned(h), Unsigned(l));
    assert p < 0x1_0000_0000 * 0x1_0000_0000;
    assert x == p || x == p - 0x1_0000_0000 * 0x1_0000_0000;
  }

  // ---- One instruction -----------------------------------------------------

  /** What an instruction asks for: register writes, a delayed load, the next-but-one PC and
      a memory; or an exception; or one of the simulator's ASSERTs has failed. */
  datatype Effect =
    | Ok(writes: seq<(nat, word)>, loadReg: nat, loadValue: word, pcAfter: word, mem: Mem)
    | Raise(which: ExceptionType, addr: word)
    | AssertFailed

  /** A value goes to register d, unless there was an overflow. */
  function Computed(v: AluResult, d: RegNo, pc4: word, m: Mem): Effect {
    match v
    case Word(w) => Ok([(d, w)], 0, 0, pc4, m)
    case Overflow => Raise(OverflowException, 0)
  }

  function HiLo(v: (word, word), pc4: word, m: Mem): Effect {
    Ok([(HiReg, v.0), (LoReg, v.1)], 0, 0, pc4, m)
  }

  /** The target of a load, seen past the pending one. */
  function Pending(r: Regs, rt: RegNo): word {
    if r[LoadReg] == rt then r[LoadValueReg] else r[rt]
  }

  /** The switch of OneInstruction. */
  function Execute(r: Regs, i: Instruction, m: Mem, resident: set<nat>): Effect {
    ExecuteOn(i, r[i.rs], r[i.rt], r[NextPCReg], r[HiReg], r[LoReg], Pending(r, i.rt), m, resident)
  }

  /** ... on the values of its operands; `past` is the load target's. */
  function ExecuteOn(i: Instruction, rs: word, rt: word, next: word, hi: word, lo: word, past: word,
                     m: Mem, resident: set<nat>): Effect {
    var pc4 := W32(next + 4);
    var target := W32(next + ShiftLeft(i.extra, 2));
    match i.op
    case Alu(op) => Computed(AluValue(op, rs, rt, i.extra), i.rd, pc4, m)
    case Imm(op) => Computed(ImmValue(op, rs, i.extra), i.rt, pc4, m)
    case Branch(op) => Ok([], 0, 0, if Taken(op, rs, rt) then target else pc4, m)
    case BranchLink(op) =>
      // the link register is written before rs is read
      Ok([(R31, pc4)], 0, 0, if Taken(op, if i.rs == R31 then pc4 else rs, rt) then target else pc4, m)
    case DIV => HiLo(Divided(rs, rt, true), pc4, m)
    case DIVU => HiLo(Divided(rs, rt, false), pc4, m)
    case MULT => HiLo(Product(rs, rt, true), pc4, m)
    case MULTU => HiLo(Product(rs, rt, false), pc4, m)
    case J => Ok([], 0, 0, Or(And(pc4, 0xf000_0000), ShiftLeft(i.extra, 2)), m)
    case JAL => Ok([(R31, pc4)], 0, 0, Or(And(pc4, 0xf000_0000), ShiftLeft(i.extra, 2)), m)
    case JALR => Ok([(i.rd, pc4)], 0, 0, if i.rs == i.rd then pc4 else rs, m)
    case JR => Ok([], 0, 0, rs, m)
    case Ld(op) => ExecuteLoad(op, W32(rs + i.extra), past, i.rt, pc4, m, resident)
    case St(op) => ExecuteStore(op, W32(rs + i.extra), rt, pc4, m, resident)
    case MFHI => Ok([(i.rd, hi)], 0, 0, pc4, m)
    case MFLO => Ok([(i.rd, lo)], 0, 0, pc4, m)
    case MTHI => Ok([(HiReg, rs)], 0, 0, pc4, m)
    case MTLO => Ok([(LoReg, rs)], 0, 0, pc4, m)
    case SYSCALL => Raise(SyscallException, 0)
    case UNIMP => Raise(IllegalInstrException, 0)
    case RES => Raise(IllegalInstrException, 0)
  }

  function ExecuteLoad(op: LoadOp, addr: word, old_: word, rt: RegNo, pc4: word, m: Mem, resident: set<nat>): Effect {
    if (op.LWL? || op.LWR?) && addr % 4 != 0 then AssertFailed
    else
      match ReadMem(m, resident, addr, LoadSize(op))
      case ReadFailed(e) => Raise(e, addr)
      case Got(v) => Ok([], rt, LoadedValue(op, v, old_), pc4, m)
  }

  /** SWL and SWR read the word first, then write; at an aligned address SWL writes rt and
      SWR its low byte on top. */
  function ExecuteStore(op: StoreOp, addr: word, rt: word, pc4: word, m: Mem, resident: set<nat>): Effect {
    if (op.SWL? || op.SWR?) && addr % 4 != 0 then AssertFailed
    else if op.SWL? || op.SWR? then
      match ReadMem(m, resident, addr, 4)
      case ReadFailed(e) => Raise(e, addr)
      case Got(v) => StoreWord(addr, 4, if op.SWL? then rt else Or(v % 0x100_0000, ShiftLeft(rt, 24)), pc4, m, resident)
    else StoreWord(addr, StoreSize(op), rt, pc4, m, resident)
  }

  function StoreWord(addr: word, size: AccessSize, v: word, pc4: word, m: Mem, resident: set<nat>): Effect {
    match WriteMem(m, resident, addr, size, v)
    case WriteFailed(e) => Raise(e, addr)
    case Wrote(m') => Ok([], 0, 0, pc4, m')
  }

  function Apply(r: Regs, writes: seq<(nat, word)>): Regs
    decreases |writes|
  {
    if writes == [] then r
    else Apply(if writes[0].0 < NumTotalRegs then r[writes[0].0 := writes[0].1] else r, writes[1..])
  }

  /** Machine::DelayedLoad. */
  function DelayedLoad(r: Regs, nextReg: nat, nextValue: word): Regs
    requires r[LoadReg] < NumTotalRegs && nextReg < NumTotalRegs
  {
    r[r[LoadReg] := r[LoadValueReg]][LoadReg := nextReg][LoadValueReg := nextValue][0 := 0]
  }

  /** The end of OneInstruction: writes, delayed load, program counters. */
  function Finish(r: Regs, e: Effect): Regs
    requires e.Ok? && Apply(r, e.writes)[LoadReg] < NumTotalRegs && e.loadReg < NumTotalRegs
  {
    var d := DelayedLoad(Apply(r, e.writes), e.loadReg, e.loadValue);
    d[PrevPCReg := d[PCReg]][PCReg := d[NextPCReg]][NextPCReg := e.pcAfter]
  }

  datatype Outcome =
    | Completed(regs: Regs, mem: Mem)
    | Faulted(regs: Regs)                    // a page fault was taken and handled
    | Trapped(which: ExceptionType, regs: Regs)  // any other exception, on entry to the kernel
    | Stopped                                // a simulator ASSERT failed

  /** RaiseException up to the call of the handler. */
  function Trap(r: Regs, addr: word): Regs
    requires r[LoadReg] < NumTotalRegs
  {
    DelayedLoad(r[BadVAddrReg := addr], 0, 0)
  }

  /** The handler adds 4 to the PC on entry and takes it off again for a page fault. */
  function PageFaultArm(r: Regs): Regs {
    var pc: int := r[PCReg];
    var pcAfter: int := W32(pc + 4);
    r[PCReg := W32(pcAfter)][PCReg := W32(pcAfter - 4)]
  }

  function Conclude(r: Regs, e: Effect): Outcome
    requires ValidRegs(r) && (e.Ok? ==> GoodEffect(e))
  {
    match e
    case Ok(_, _, _, _, m) =>
      WritesKeep(r, e.writes);
      Completed(Finish(r, e), m)
    case Raise(which, addr) =>
      if which == PageFaultException then Faulted(PageFaultArm(Trap(r, addr))) else Trapped(which, Trap(r, addr))
    case AssertFailed => Stopped
  }

  /** The invariant of the register file: R0 is zero, the pending load names a general
      register. */
  predicate ValidRegs(r: Regs) { r[0] == 0 && r[LoadReg] < 32 }

  predicate GoodEffect(e: Effect)
    requires e.Ok?
  {
    e.loadReg < 32 && forall k :: 0 <= k < |e.writes| ==> e.writes[k].0 <= LoReg
  }

  /** Direct writes touch neither the program counters nor the pending load. */
  lemma {:induction false} WritesKeep(r: Regs, writes: seq<(nat, word)>)
    requires forall k :: 0 <= k < |writes| ==> writes[k].0 <= LoReg
    ensures forall x :: LoReg < x < NumTotalRegs ==> Apply(r, writes)[x] == r[x]
    decreases |writes|
  {
    if writes != [] {
      WritesKeep(r[writes[0].0 := writes[0].1], writes[1..]);
    }
  }

  lemma ExecuteGood(r: Regs, i: Instruction, m: Mem, resident: set<nat>)
    ensures Execute(r, i, m, resident).Ok? ==> GoodEffect(Execute(r, i, m, resident))
  {
    var e := Execute(r, i, m, resident);
    match i.op
    case Alu(_) => assert e.Ok? ==> e.writes == [(i.rd, e.writes[0].1)];
    case Imm(_) => assert e.Ok? ==> e.writes == [(i.rt, e.writes[0].1)];
    case _ =>
  }

  /** How an instruction that has been fetched ends. */
  function Ended(r: Regs, i: Instruction, m: Mem, resident: set<nat>): Outcome
    requires ValidRegs(r)
  {
    ExecuteGood(r, i, m, resident);
    Conclude(r, Execute(r, i, m, resident))
  }

  /** Machine::OneInstruction, with the page-fault handler behind RaiseException. */
  function OneInstruction(r: Regs, m: Mem, resident: set<nat>): Outcome
    requires ValidRegs(r)
  {
    match ReadMem(m, resident, r[PCReg], 4)
    case ReadFailed(e) => Conclude(r, Raise(e, r[PCReg]))
    case Got(raw) => Ended(r, DecodeInstruction(raw), m, resident)
  }

  // ---- Precise restart -----------------------------------------------------

  /** General registers an instruction reads (for LWL and LWR not the load target, which is
      read past the pending load). */
  function Reads(i: Instruction): set<nat> {
    match i.op
    case Alu(OR) => {i.rs}          // sic
    case Alu(SLL) => {i.rt} case Alu(SRA) => {i.rt} case Alu(SRL) => {i.rt}
    case Alu(_) => {i.rs, i.rt}
    case Imm(LUI) => {}
    case Imm(_) => {i.rs}
    case Branch(op) => Compared(op, i)
    case BranchLink(op) => Compared(op, i) - {R31}  // R31 is written before it is read
    case DIV => {i.rs, i.rt} case DIVU => {i.rs, i.rt} case MULT => {i.rs, i.rt} case MULTU => {i.rs, i.rt}
    case JALR => {i.rs} - {i.rd}    // so is rd
    case JR => {i.rs}
    case Ld(_) => {i.rs}
    case St(_) => {i.rs, i.rt}
    case MTHI => {i.rs} case MTLO => {i.rs}
    case _ => {}
  }

  /** What a branch compares: two registers, or rs with zero. */
  function Compared(op: BranchOp, i: Instruction): set<nat> {
    if op == BEQ || op == BNE then {i.rs, i.rt} else {i.rs}
  }

  /** General registers it writes at once, as opposed to through the delay slot. */
  function DirectWrites(i: Instruction): set<nat> {
    match i.op
    case Alu(_) => {i.rd}
    case Imm(_) => {i.rt}
    case BranchLink(_) => {R31}
    case JAL => {R31} case JALR => {i.rd}
    case MFHI => {i.rd} case MFLO => {i.rd}
    case _ => {}
  }

  /** The instruction leaves the register of the pending load alone. */
  predicate Avoids(i: Instruction, pending: nat) {
    pending != 0 ==> pending !in Reads(i) && pending !in DirectWrites(i)
  }

  /** f is r with the pending load applied early: PC, NextPC and all other registers are as
      before, and no load is pending. */
  ghost predicate Flushed(r: Regs, f: Regs) {
    && ValidRegs(r) && ValidRegs(f) && f[LoadReg] == 0 && f[LoadValueReg] == 0
    && (r[LoadReg] != 0 ==> f[r[LoadReg]] == r[LoadValueReg])
    && forall x :: 0 <= x < LoadReg && (x != r[LoadReg] || x == 0) ==> f[x] == r[x]
  }

  /** A handled page fault has applied the pending load and set BadVAddr, and nothing else. */
  lemma AfterFault(r: Regs, addr: word)
    requires ValidRegs(r)
    ensures Flushed(r, PageFaultArm(Trap(r, addr))) && PageFaultArm(Trap(r, addr))[BadVAddrReg] == addr
  {}

  /** A second fault in a row changes nothing more. */
  lemma FlushedAgain(r: Regs, f: Regs, g: Regs)
    requires Flushed(r, f) && Flushed(f, g)
    ensures Flushed(r, g)
  {}

  /** Equal effects, up to the value of a load to register 0. */
  predicate SameEffects(a: Effect, b: Effect) {
    a == b || (a.Ok? && b.Ok? && a.loadReg == b.loadReg == 0 && b == a.(loadValue := b.loadValue))
  }

  /** An instruction that avoids the pending register has the same effect before and after
      the early load. */
  lemma SameEffect(r: Regs, f: Regs, i: Instruction, m: Mem, resident: set<nat>)
    requires Flushed(r, f) && Avoids(i, r[LoadReg])
    ensures SameEffects(Execute(r, i, m, resident), Execute(f, i, m, resident))
  {
    assert i.rs in Reads(i) ==> f[i.rs] == r[i.rs];
    assert i.rt in Reads(i) ==> f[i.rt] == r[i.rt];
  }

  lemma {:induction false} WritesCommute(r: Regs, f: Regs, writes: seq<(nat, word)>, p: nat)
    requires forall k :: 0 <= k < |writes| ==> writes[k].0 <= LoReg && writes[k].0 != p
    requires forall x :: 0 <= x < LoadReg && x != p ==> f[x] == r[x]
    ensures forall x :: 0 <= x < LoadReg && x != p ==> Apply(f, writes)[x] == Apply(r, writes)[x]
    ensures p < NumTotalRegs ==> Apply(f, writes)[p] == f[p]
    decreases |writes|
  {
    if writes != [] {
      WritesCommute(r[writes[0].0 := writes[0].1], f[writes[0].0 := writes[0].1], writes[1..], p);
    }
  }

  /** Equal up to BadVAddr, which only the kernel looks at, and the value of a pending load to
      register 0, which is none. */
  ghost predicate SameRegs(a: Regs, b: Regs) {
    && (forall x :: 0 <= x < LoadValueReg ==> a[x] == b[x])
    && (a[LoadReg] != 0 ==> a[LoadValueReg] == b[LoadValueReg])
  }

  /** The same end of the instruction. */
  ghost predicate SameOutcome(a: Outcome, b: Outcome) {
    match (a, b)
    case (Completed(ra, ma), Completed(rb, mb)) => SameRegs(ra, rb) && ma == mb
    case (Faulted(ra), Faulted(rb)) => SameRegs(ra, rb)
    case (Trapped(wa, ra), Trapped(wb, rb)) => wa == wb && SameRegs(ra, rb)
    case (Stopped, Stopped) => true
    case _ => false
  }

  lemma WritesAvoid(r: Regs, i: Instruction, m: Mem, resident: set<nat>)
    requires Execute(r, i, m, resident).Ok?
    ensures forall k :: 0 <= k < |Execute(r, i, m, resident).writes| ==>
      Execute(r, i, m, resident).writes[k].0 in DirectWrites(i) + {HiReg, LoReg}
  {
    var e := Execute(r, i, m, resident);
    match i.op
    case Alu(_) => assert e.writes == [(i.rd, e.writes[0].1)];
    case Imm(_) => assert e.writes == [(i.rt, e.writes[0].1)];
    case _ =>
  }

  /** Completing commutes with the early load. */
  lemma SameFinish(r: Regs, f: Regs, a: Effect, b: Effect)
    requires Flushed(r, f) && a.Ok? && GoodEffect(a) && b.Ok? && GoodEffect(b) && SameEffects(a, b)
    requires r[LoadReg] != 0 ==> forall k :: 0 <= k < |a.writes| ==> a.writes[k].0 != r[LoadReg]
    ensures SameOutcome(Conclude(r, a), Conclude(f, b))
  {
    WritesKeep(r, a.writes);
    WritesKeep(f, a.writes);
    var p := if r[LoadReg] == 0 then BadVAddrReg else r[LoadReg];
    WritesCommute(r, f, a.writes, p);
  }

  lemma SameConclusion(r: Regs, f: Regs, i: Instruction, m: Mem, resident: set<nat>)
    requires Flushed(r, f) && Avoids(i, r[LoadReg])
    requires var a, b := Execute(r, i, m, resident), Execute(f, i, m, resident);
      (a.Ok? ==> GoodEffect(a)) && (b.Ok? ==> GoodEffect(b)) && SameEffects(a, b)
    ensures SameOutcome(Conclude(r, Execute(r, i, m, resident)), Conclude(f, Execute(f, i, m, resident)))
  {
    var a := Execute(r, i, m, resident);
    if a.Ok? {
      WritesAvoid(r, i, m, resident);
      SameFinish(r, f, a, Execute(f, i, m, resident));
    }
  }

  /** The instruction that the PC points at. */
  function Current(r: Regs, m: Mem): Option<Instruction> {
    match ReadMem(m, {Vpn(r[PCReg])}, r[PCReg], 4)
    case Got(v) => Some(DecodeInstruction(v))
    case ReadFailed(_) => None
  }

  /** One attempt from the registers a fault has left ends as the same attempt from the
      original registers would. */
  lemma RestartedAttempt(r: Regs, f: Regs, m: Mem, resident: set<nat>)
    requires Flushed(r, f) && (Current(r, m).Some? ==> Avoids(Current(r, m).value, r[LoadReg]))
    ensures SameOutcome(OneInstruction(r, m, resident), OneInstruction(f, m, resident))
  {
    match ReadMem(m, resident, r[PCReg], 4)
    case ReadFailed(_) => RestartedFetch(r, f, m, resident);
    case Got(raw) =>
      var i := DecodeInstruction(raw);
      assert Current(r, m) == Some(i);
      RestartedExecute(r, f, i, m, resident);
  }

  lemma RestartedFetch(r: Regs, f: Regs, m: Mem, resident: set<nat>)
    requires Flushed(r, f) && ReadMem(m, resident, r[PCReg], 4).ReadFailed?
    ensures SameOutcome(OneInstruction(r, m, resident), OneInstruction(f, m, resident))
  {}

  lemma RestartedExecute(r: Regs, f: Regs, i: Instruction, m: Mem, resident: set<nat>)
    requires Flushed(r, f) && Avoids(i, r[LoadReg])
    ensures SameOutcome(Ended(r, i, m, resident), Ended(f, i, m, resident))
  {
    ExecuteGood(r, i, m, resident);
    ExecuteGood(f, i, m, resident);
    SameEffect(r, f, i, m, resident);
    SameConclusion(r, f, i, m, resident);
  }

  /** The registers after attempts under the given residencies, all of which fault. */
  ghost predicate FaultsThrough(r: Regs, m: Mem, attempts: seq<set<nat>>, f: Regs)
    requires ValidRegs(r)
    decreases |attempts|
  {
    if attempts == [] then f == r
    else
      var o := OneInstruction(r, m, attempts[0]);
      o.Faulted? && ValidRegs(o.regs) && FaultsThrough(o.regs, m, attempts[1..], f)
  }

  lemma {:induction false} FaultsFlush(r: Regs, m: Mem, attempts: seq<set<nat>>, f: Regs)
    requires ValidRegs(r) && FaultsThrough(r, m, attempts, f)
    ensures f == r || Flushed(r, f)
    decreases |attempts|
  {
    if attempts != [] {
      var o := OneInstruction(r, m, attempts[0]);
      FaultIsFlush(r, m, attempts[0]);
      FaultsFlush(o.regs, m, attempts[1..], f);
      if f != o.regs { FlushedAgain(r, o.regs, f); }
    }
  }

  lemma FaultIsFlush(r: Regs, m: Mem, resident: set<nat>)
    requires ValidRegs(r) && OneInstruction(r, m, resident).Faulted?
    ensures Flushed(r, OneInstruction(r, m, resident).regs)
  {
    match ReadMem(m, resident, r[PCReg], 4)
    case ReadFailed(_) => AfterFault(r, r[PCReg]);
    case Got(raw) =>
      var e := Execute(r, DecodeInstruction(raw), m, resident);
      assert Ended(r, DecodeInstruction(raw), m, resident) == Conclude(r, e);
      AfterFault(r, e.addr);
  }

  /** Faulting instructions restart precisely: after any number of page faults, at fetch or at
      data, whatever is resident at each attempt, an instruction that avoids the register of
      the pending load ends as it would have ended without them. */
  lemma PreciseRestart(r: Regs, m: Mem, attempts: seq<set<nat>>, f: Regs, resident: set<nat>)
    requires ValidRegs(r) && FaultsThrough(r, m, attempts, f)
    requires Current(r, m).Some? ==> Avoids(Current(r, m).value, r[LoadReg])
    ensures ValidRegs(f) && SameOutcome(OneInstruction(r, m, resident), OneInstruction(f, m, resident))
  {
    FaultsFlush(r, m, attempts, f);
    if f != r { RestartedAttempt(r, f, m, resident); }
  }

  /** The condition matters. An ADDU that reads the pending register computes from the old
      value without a fault and from the loaded one after it. */
  lemma DelaySlotRead(r: Regs, f: Regs, i: Instruction, m: Mem, resident: set<nat>)
    requires Flushed(r, f) && i.op == Alu(ADDU) && i.rs == r[LoadReg] != 0 && i.rt != i.rs
    ensures Execute(f, i, m, resident) == Execute(r, i, m, resident) <==> r[LoadValueReg] == r[i.rs]
  {
    AdduEffect(r, i, m, resident);
    AdduEffect(f, i, m, resident);
    AddInjective(r[i.rs], r[LoadValueReg], r[i.rt]);
  }

  lemma AdduEffect(r: Regs, i: Instruction, m: Mem, resident: set<nat>)
    requires ValidRegs(r) && i.op == Alu(ADDU)
    ensures Execute(r, i, m, resident) == Ok([(i.rd, AddWords(r[i.rs], r[i.rt]))], 0, 0, AddWords(r[NextPCReg], 4), m)
  {}

  function AddWords(x: word, y: word): word { W32(x + y) }

  lemma AddInjective(x: word, y: word, z: word)
    ensures AddWords(x, z) == AddWords(y, z) <==> x == y
  {}

  /** And a direct write to the pending register is lost to the load without a fault, but
      survives after one: the two agree only if both write the same value. */
  lemma DelaySlotWrite(r: Regs, f: Regs, target: nat, v: word, e: Effect)
    requires Flushed(r, f) && target == r[LoadReg] != 0 && e.Ok? && GoodEffect(e) && e.writes == [(target, v)]
    ensures var a, b := Conclude(r, e), Conclude(f, e);
      a.regs[target] == r[LoadValueReg] && b.regs[target] == v && (SameOutcome(a, b) <==> v == r[LoadValueReg])
  {
    WritesKeep(r, e.writes);
    WritesKeep(f, e.writes);
    assert Apply(r, e.writes) == r[target := v] && Apply(f, e.writes) == f[target := v];
  }
}
