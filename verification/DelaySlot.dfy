/** Which instructions restart precisely whatever the registers hold: the exact condition on the
    instruction and the register of the pending load (code/machine/mipssim.cc). */
module DelaySlots {
  import Bits
  import opened Bytes
  import opened Paging
  import opened UserMemory
  import opened Cpu

  /** With a load to register p pending, instruction i ends the same whether or not a page fault
      applies the load early, for all registers and memories. */
  ghost predicate RestartsPrecisely(i: Instruction, p: nat) {
    forall r: Regs, f: Regs, m: Mem, resident: set<nat> ::
      Flushed(r, f) && r[LoadReg] == p ==> SameOutcome(Ended(r, i, m, resident), Ended(f, i, m, resident))
  }

  /* ------------------------------ instructions that agree anyway ------------------------------ */

  /** The value does not depend on the registers read. */
  predicate AluConstant(op: AluOp, i: Instruction) {
    match op
    case SUB => i.rs == i.rt case SUBU => i.rs == i.rt case XOR => i.rs == i.rt
    case SLT => i.rs == i.rt
    case SLTU => i.rs == i.rt || i.rt == 0
    case AND => i.rs == 0 || i.rt == 0
    case SLLV => i.rt == 0 case SRAV => i.rt == 0 case SRLV => i.rt == 0
    case _ => false
  }

  /** The value is what register p holds. */
  predicate AluCopies(op: AluOp, i: Instruction, p: nat) {
    match op
    case ADD => (i.rs == p && i.rt == 0) || (i.rs == 0 && i.rt == p)
    case ADDU => (i.rs == p && i.rt == 0) || (i.rs == 0 && i.rt == p)
    case XOR => (i.rs == p && i.rt == 0) || (i.rs == 0 && i.rt == p)
    case SUB => i.rs == p && i.rt == 0 case SUBU => i.rs == p && i.rt == 0
    case AND => i.rs == p && i.rt == p
    case OR => i.rs == p
    case SLL => i.rt == p && i.extra == 0 case SRA => i.rt == p && i.extra == 0 case SRL => i.rt == p && i.extra == 0
    case SLLV => i.rt == p && i.rs == 0 case SRAV => i.rt == p && i.rs == 0 case SRLV => i.rt == p && i.rs == 0
    case _ => false
  }

  /** It may overflow. */
  predicate AluTraps(op: AluOp, i: Instruction) {
    (op == ADD && i.rs != 0 && i.rt != 0) || (op == SUB && i.rt != 0 && i.rs != i.rt)
  }

  predicate ImmConstant(op: ImmOp, i: Instruction) {
    (op == ANDI && i.extra % 0x1_0000 == 0) || (op == SLTIU && i.extra == 0) || op == LUI
  }

  predicate ImmCopies(op: ImmOp, i: Instruction, p: nat) {
    && i.rs == p
    && (((op == ADDI || op == ADDIU) && i.extra == 0) || ((op == ORI || op == XORI) && i.extra % 0x1_0000 == 0))
  }

  /** Taken or not, the branch goes to the next instruction but one. */
  predicate GoesNowhere(i: Instruction) { ShiftLeft(i.extra, 2) == 4 }

  /** Instructions that touch the pending register and yet end the same: what they compute does
      not depend on it or goes to register 0, they copy it onto itself, or they never get as far. */
  predicate Degenerate(i: Instruction, p: nat) {
    match i.op
    case Alu(op) =>
      if i.rd == p then AluCopies(op, i, p) else AluConstant(op, i) || (i.rd == 0 && !AluTraps(op, i))
    case Imm(op) =>
      if i.rt == p then ImmCopies(op, i, p) else ImmConstant(op, i) || (i.rt == 0 && !(op == ADDI && i.extra != 0))
    case Branch(op) => GoesNowhere(i) || ((op == BEQ || op == BNE) && i.rs == i.rt)
    case BranchLink(_) => p != R31 && GoesNowhere(i)
    case DIV => i.rs == 0 || i.rt == 0 case DIVU => i.rs == 0 || i.rt == 0
    case MULT => i.rs == 0 || i.rt == 0 case MULTU => i.rs == 0 || i.rt == 0
    case St(op) => i.rs == 0 && i.extra % StoreSize(op) != 0
    case _ => false
  }

  /* ------------------------------ how effects show ------------------------------ */

  /** One direct write, exactly: the written register shows, unless it is register 0; in the
      register of the pending load it is lost without the fault. */
  predicate WriteAgrees(d: nat, p: nat, loaded: word, v: word, w: word) {
    d == 0 || (if d == p then w == loaded else v == w)
  }

  lemma {:induction false} OneWrite(r: Regs, f: Regs, d: nat, v: word, w: word, pc: word, pc': word, m: Mem)
    requires Flushed(r, f) && r[LoadReg] != 0 && d <= LoReg
    ensures var a, b := Ok([(d, v)], 0, 0, pc, m), Ok([(d, w)], 0, 0, pc', m);
      SameOutcome(Conclude(r, a), Conclude(f, b))
      <==> pc == pc' && WriteAgrees(d, r[LoadReg], r[LoadValueReg], v, w)
  {
    var a, b := Ok([(d, v)], 0, 0, pc, m), Ok([(d, w)], 0, 0, pc', m);
    WritesKeep(r, a.writes);
    WritesKeep(f, b.writes);
    assert Apply(r, a.writes) == r[d := v] && Apply(f, b.writes) == f[d := w];
    var x, y := Conclude(r, a).regs, Conclude(f, b).regs;
    var p := r[LoadReg];
    assert x[NextPCReg] == pc && y[NextPCReg] == pc';
    assert d != 0 ==> y[d] == w && x[d] == if d == p then r[LoadValueReg] else v;
    assert d != p ==> x[p] == r[LoadValueReg] == y[p];
  }

  lemma {:induction false} NoWrite(r: Regs, f: Regs, pc: word, pc': word, m: Mem, m': Mem)
    requires Flushed(r, f) && r[LoadReg] != 0
    ensures SameOutcome(Conclude(r, Ok([], 0, 0, pc, m)), Conclude(f, Ok([], 0, 0, pc', m'))) <==> pc == pc' && m == m'
  {
    var x, y := Conclude(r, Ok([], 0, 0, pc, m)).regs, Conclude(f, Ok([], 0, 0, pc', m')).regs;
    assert x[NextPCReg] == pc && y[NextPCReg] == pc';
  }

  lemma {:induction false} TwoWrites(r: Regs, f: Regs, v: (word, word), w: (word, word), pc: word, m: Mem)
    requires Flushed(r, f) && r[LoadReg] != 0
    ensures SameOutcome(Conclude(r, HiLo(v, pc, m)), Conclude(f, HiLo(w, pc, m))) <==> v == w
  {
    var a, b := HiLo(v, pc, m), HiLo(w, pc, m);
    WritesKeep(r, a.writes);
    WritesKeep(f, b.writes);
    assert a.writes[1..] == [(LoReg, v.1)] && b.writes[1..] == [(LoReg, w.1)];
    assert a.writes[1..][1..] == [] && b.writes[1..][1..] == [];
    assert Apply(r[HiReg := v.0], a.writes[1..]) == r[HiReg := v.0][LoReg := v.1];
    assert Apply(f[HiReg := w.0], b.writes[1..]) == f[HiReg := w.0][LoReg := w.1];
    assert Apply(r, a.writes) == r[HiReg := v.0][LoReg := v.1] && Apply(f, b.writes) == f[HiReg := w.0][LoReg := w.1];
    var x, y := Conclude(r, a).regs, Conclude(f, b).regs;
    assert x[HiReg] == v.0 && x[LoReg] == v.1 && y[HiReg] == w.0 && y[LoReg] == w.1;
  }

  /** Exceptions show by their kind. */
  lemma {:induction false} Raised(r: Regs, f: Regs, which: ExceptionType, addr: word, which': ExceptionType,
                                  addr': word)
    requires Flushed(r, f)
    ensures SameOutcome(Conclude(r, Raise(which, addr)), Conclude(f, Raise(which', addr'))) <==> which == which'
  {
  }

  /** A computed value, exactly. */
  predicate ResultAgrees(d: nat, p: nat, loaded: word, a: AluResult, b: AluResult) {
    match (a, b)
    case (Word(v), Word(w)) => WriteAgrees(d, p, loaded, v, w)
    case (Overflow, Overflow) => true
    case _ => false
  }

  lemma {:induction false} ComputedAgrees(r: Regs, f: Regs, d: RegNo, a: AluResult, b: AluResult, pc: word, m: Mem)
    requires Flushed(r, f) && r[LoadReg] != 0
    ensures SameOutcome(Conclude(r, Computed(a, d, pc, m)), Conclude(f, Computed(b, d, pc, m)))
       <==> ResultAgrees(d, r[LoadReg], r[LoadValueReg], a, b)
  {
    if a.Word? && b.Word? {
      OneWrite(r, f, d, a.w, b.w, pc, pc, m);
    } else if a.Overflow? && b.Overflow? {
      Raised(r, f, OverflowException, 0, OverflowException, 0);
    }
  }

  /** The address of the instruction after the next. */
  function Address(r: Regs, i: Instruction): word {
    var base: int := r[i.rs];
    W32(base + i.extra)
  }

  function Pc4(r: Regs): word {
    var next: int := r[NextPCReg];
    W32(next + 4)
  }

  lemma {:induction false} AluOutcome(r: Regs, f: Regs, i: Instruction, m: Mem, resident: set<nat>)
    requires Flushed(r, f) && r[LoadReg] != 0 && i.op.Alu?
    ensures SameOutcome(Ended(r, i, m, resident), Ended(f, i, m, resident))
       <==> ResultAgrees(i.rd, r[LoadReg], r[LoadValueReg],
              AluValue(i.op.alu, r[i.rs], r[i.rt], i.extra), AluValue(i.op.alu, f[i.rs], f[i.rt], i.extra))
  {
    ComputedAgrees(r, f, i.rd, AluValue(i.op.alu, r[i.rs], r[i.rt], i.extra),
                   AluValue(i.op.alu, f[i.rs], f[i.rt], i.extra), Pc4(r), m);
  }

  lemma {:induction false} ImmOutcome(r: Regs, f: Regs, i: Instruction, m: Mem, resident: set<nat>)
    requires Flushed(r, f) && r[LoadReg] != 0 && i.op.Imm?
    ensures SameOutcome(Ended(r, i, m, resident), Ended(f, i, m, resident))
       <==> ResultAgrees(i.rt, r[LoadReg], r[LoadValueReg],
              ImmValue(i.op.imm, r[i.rs], i.extra), ImmValue(i.op.imm, f[i.rs], i.extra))
  {
    ComputedAgrees(r, f, i.rt, ImmValue(i.op.imm, r[i.rs], i.extra), ImmValue(i.op.imm, f[i.rs], i.extra), Pc4(r), m);
  }

  /** Where a branch goes. */
  function Branches(r: Regs, i: Instruction, taken: bool): word {
    var next: int := r[NextPCReg];
    if taken then W32(next + ShiftLeft(i.extra, 2)) else Pc4(r)
  }

  lemma {:induction false} BranchOutcome(r: Regs, f: Regs, i: Instruction, m: Mem, resident: set<nat>)
    requires Flushed(r, f) && r[LoadReg] != 0 && i.op.Branch?
    ensures SameOutcome(Ended(r, i, m, resident), Ended(f, i, m, resident))
       <==> Branches(r, i, Taken(i.op.br, r[i.rs], r[i.rt])) == Branches(r, i, Taken(i.op.br, f[i.rs], f[i.rt]))
  {
    NoWrite(r, f, Branches(r, i, Taken(i.op.br, r[i.rs], r[i.rt])),
            Branches(r, i, Taken(i.op.br, f[i.rs], f[i.rt])), m, m);
  }

  /** What a link-and-branch tests: R31 is written first. */
  function Tested(r: Regs, i: Instruction): word { if i.rs == R31 then Pc4(r) else r[i.rs] }

  lemma {:induction false} LinkOutcome(r: Regs, f: Regs, i: Instruction, m: Mem, resident: set<nat>)
    requires Flushed(r, f) && r[LoadReg] != 0 && i.op.BranchLink? && (i.op.brl == BGEZ || i.op.brl == BLTZ)
    ensures SameOutcome(Ended(r, i, m, resident), Ended(f, i, m, resident))
       <==> && Branches(r, i, Taken(i.op.brl, Tested(r, i), 0)) == Branches(r, i, Taken(i.op.brl, Tested(f, i), 0))
            && WriteAgrees(R31, r[LoadReg], r[LoadValueReg], Pc4(r), Pc4(r))
  {
    OneWrite(r, f, R31, Pc4(r), Pc4(r), Branches(r, i, Taken(i.op.brl, Tested(r, i), 0)),
             Branches(r, i, Taken(i.op.brl, Tested(f, i), 0)), m);
  }

  predicate MulDiv(op: Op) { op == DIV || op == DIVU || op == MULT || op == MULTU }

  function MulDivValue(op: Op, a: word, b: word): (word, word)
    requires MulDiv(op)
  {
    match op
    case DIV => Divided(a, b, true)
    case DIVU => Divided(a, b, false)
    case MULT => Product(a, b, true)
    case MULTU => Product(a, b, false)
  }

  lemma {:induction false} MulDivOutcome(r: Regs, f: Regs, i: Instruction, m: Mem, resident: set<nat>)
    requires Flushed(r, f) && r[LoadReg] != 0 && MulDiv(i.op)
    ensures SameOutcome(Ended(r, i, m, resident), Ended(f, i, m, resident))
       <==> MulDivValue(i.op, r[i.rs], r[i.rt]) == MulDivValue(i.op, f[i.rs], f[i.rt])
  {
    TwoWrites(r, f, MulDivValue(i.op, r[i.rs], r[i.rt]), MulDivValue(i.op, f[i.rs], f[i.rt]), Pc4(r), m);
  }

  /* ------------------------------ witness register files ------------------------------ */

  const NoMemory: Mem := Memory([], 0)

  /** What register k holds: x in the pending one, 0 in register 0, y in the others. */
  function Holds(k: nat, p: nat, x: word, y: word): word { if k == 0 then 0 else if k == p then x else y }

  function Before(p: RegNo, x: word, loaded: word, y: word): (r: Regs) {
    seq(NumTotalRegs, k requires 0 <= k < NumTotalRegs =>
      if k < 32 then Holds(k, p, x, y) else if k == LoadReg then p else if k == LoadValueReg then loaded else 0)
  }

  function After(p: RegNo, loaded: word, y: word): (f: Regs) {
    seq(NumTotalRegs, k requires 0 <= k < NumTotalRegs => if k < 32 then Holds(k, p, loaded, y) else 0)
  }

  lemma {:induction false} WitnessFlushed(p: RegNo, x: word, loaded: word, y: word)
    requires p != 0
    ensures Flushed(Before(p, x, loaded, y), After(p, loaded, y))
  {
  }

  lemma {:induction false} Refuted(i: Instruction, p: RegNo, x: word, loaded: word, y: word, m: Mem, resident: set<nat>)
    requires p != 0 && Flushed(Before(p, x, loaded, y), After(p, loaded, y))
    requires !SameOutcome(Ended(Before(p, x, loaded, y), i, m, resident), Ended(After(p, loaded, y), i, m, resident))
    ensures !RestartsPrecisely(i, p)
  {
    var r, f := Before(p, x, loaded, y), After(p, loaded, y);
    assert r[LoadReg] == p;
  }

  /* ------------------------------ three-operand instructions ------------------------------ */

  /** The value computed with x in the pending register and y in all others. */
  function AluAt(i: Instruction, p: nat, x: word, y: word): AluResult
    requires i.op.Alu?
  {
    AluValue(i.op.alu, Holds(i.rs, p, x, y), Holds(i.rt, p, x, y), i.extra)
  }

  /** A witness that the instruction does not restart precisely. */
  predicate AluDiffers(i: Instruction, p: nat, x: word, loaded: word, y: word)
    requires i.op.Alu?
  {
    !ResultAgrees(i.rd, p, loaded, AluAt(i, p, x, y), AluAt(i, p, loaded, y))
  }

  /** The instruction touches p, and is none of the degenerate ones. */
  predicate Touches(i: Instruction, p: nat) { p != 0 && !Avoids(i, p) && !Degenerate(i, p) }

  lemma {:induction false} AddsDiffer(i: Instruction, p: nat)
    requires i.op == Alu(ADDU) || i.op == Alu(SUBU) || i.op == Alu(SLTU)
    requires Touches(i, p)
    ensures AluDiffers(i, p, 0, 7, 1)
  {
  }

  lemma {:induction false} SltDiffers(i: Instruction, p: nat)
    requires i.op == Alu(SLT) && Touches(i, p)
    ensures AluDiffers(i, p, 0xffff_ffff, 7, 1)
  {
  }

  lemma {:induction false} AndDiffers(i: Instruction, p: nat)
    requires i.op == Alu(AND) && Touches(i, p)
    ensures AluDiffers(i, p, 0, 7, 1)
  {
    Bits.AndSelf(7);
    Bits.AndBelow(7, 1);
    Bits.AndBelow(1, 7);
    Bits.AndBelow(1, 1);
    assert Bits.And(7, 1) % 2 == 1 && Bits.And(1, 7) % 2 == 1;
  }

  lemma {:induction false} OrDiffers(i: Instruction, p: nat)
    requires i.op == Alu(OR) && Touches(i, p)
    ensures AluDiffers(i, p, 0, 7, 1)
  {
    Bits.OrSelf(7);
    Bits.OrSelf(1);
    Bits.OrSelf(0);
  }

  lemma {:induction false} NorDiffers(i: Instruction, p: nat)
    requires i.op == Alu(NOR) && Touches(i, p)
    ensures AluDiffers(i, p, 0, 7, 1)
  {
    SmallOrs();
  }

  lemma {:induction false} SmallOrs()
    ensures Bits.Or(7, 7) == 7 && Bits.Or(7, 1) == 7 && Bits.Or(1, 7) == 7 && Bits.Or(1, 1) == 1 && Bits.Or(7, 0) == 7
    ensures Bits.Or(0, 7) == 7 && Bits.Or(1, 0) == 1 && Bits.Or(0, 1) == 1 && Bits.Or(0, 0) == 0
  {
    Bits.OrSelf(7);
    Bits.OrSelf(1);
    Bits.OrZero(7);
    Bits.OrZero(1);
    Bits.OrZero(3);
  }

  lemma {:induction false} XorDiffers(i: Instruction, p: nat)
    requires i.op == Alu(XOR) && Touches(i, p)
    ensures AluDiffers(i, p, 0, 7, 1)
  {
    Bits.XorSelf(7);
    Bits.XorSelf(1);
    Bits.XorZero(7);
    Bits.XorZero(1);
    Bits.XorZero(3);
  }

  /** ADD and SUB, their overflow tests by signs. */
  function Sum(a: word, b: word): AluResult {
    if Negative(a) == Negative(b) != Negative(W32(a + b)) then Overflow else Word(W32(a + b))
  }

  function Difference(a: word, b: word): AluResult {
    if Negative(a) != Negative(b) && Negative(a) != Negative(W32(a - b)) then Overflow else Word(W32(a - b))
  }

  lemma {:induction false} AddValue(a: word, b: word, e: word)
    ensures AluValue(ADD, a, b, e) == Sum(a, b)
  {
    Bits.XorSign(a, b);
    Bits.XorSign(a, W32(a + b));
  }

  lemma {:induction false} SubValue(a: word, b: word, e: word)
    ensures AluValue(SUB, a, b, e) == Difference(a, b)
  {
    Bits.XorSign(a, b);
    Bits.XorSign(a, W32(a - b));
  }

  function SumAt(i: Instruction, p: nat, x: word, y: word): AluResult {
    Sum(Holds(i.rs, p, x, y), Holds(i.rt, p, x, y))
  }

  function DifferenceAt(i: Instruction, p: nat, x: word, y: word): AluResult {
    Difference(Holds(i.rs, p, x, y), Holds(i.rt, p, x, y))
  }

  lemma {:induction false} SumsDiffer(i: Instruction, p: nat)
    requires i.op == Alu(ADD) && Touches(i, p)
    ensures p in Reads(i) && AluTraps(ADD, i)
        ==> !ResultAgrees(i.rd, p, 0, SumAt(i, p, 0x7fff_ffff, 1), SumAt(i, p, 0, 1))
    ensures !(p in Reads(i) && AluTraps(ADD, i)) ==> !ResultAgrees(i.rd, p, 7, SumAt(i, p, 0, 1), SumAt(i, p, 7, 1))
  {
  }

  lemma {:induction false} DifferencesDiffer(i: Instruction, p: nat)
    requires i.op == Alu(SUB) && Touches(i, p)
    ensures p in Reads(i) && AluTraps(SUB, i)
        ==> !ResultAgrees(i.rd, p, 0, DifferenceAt(i, p, 0x8000_0000, 1), DifferenceAt(i, p, 0, 1))
    ensures !(p in Reads(i) && AluTraps(SUB, i))
        ==> !ResultAgrees(i.rd, p, 7, DifferenceAt(i, p, 0, 1), DifferenceAt(i, p, 7, 1))
  {
  }

  /** ADD and SUB: an overflow with the old value and none with the loaded one, if there can be. */
  lemma {:induction false} AddDiffers(i: Instruction, p: nat) returns (x: word, loaded: word)
    requires i.op == Alu(ADD) && Touches(i, p)
    ensures AluDiffers(i, p, x, loaded, 1)
  {
    SumsDiffer(i, p);
    x, loaded := if p in Reads(i) && AluTraps(ADD, i) then 0x7fff_ffff else 0,
                 if p in Reads(i) && AluTraps(ADD, i) then 0 else 7;
    AddValue(Holds(i.rs, p, x, 1), Holds(i.rt, p, x, 1), i.extra);
    AddValue(Holds(i.rs, p, loaded, 1), Holds(i.rt, p, loaded, 1), i.extra);
  }

  lemma {:induction false} SubDiffers(i: Instruction, p: nat) returns (x: word, loaded: word)
    requires i.op == Alu(SUB) && Touches(i, p)
    ensures AluDiffers(i, p, x, loaded, 1)
  {
    DifferencesDiffer(i, p);
    x, loaded := if p in Reads(i) && AluTraps(SUB, i) then 0x8000_0000 else 0,
                 if p in Reads(i) && AluTraps(SUB, i) then 0 else 7;
    SubValue(Holds(i.rs, p, x, 1), Holds(i.rt, p, x, 1), i.extra);
    SubValue(Holds(i.rs, p, loaded, 1), Holds(i.rt, p, loaded, 1), i.extra);
  }

  /** Shifts of 0, 1 and -1. */
  lemma {:induction false} Shifts(n: nat)
    requires n < 32
    ensures ShiftLeft(0, n) == 0 && ShiftRightSigned(0, n) == 0
    ensures ShiftLeft(1, n) == Bits.Pow2(n) && (n > 0 ==> Bits.Pow2(n) >= 2) && Bits.Pow2(n) <= 0x8000_0000
    ensures ShiftRightSigned(0xffff_ffff, n) == 0xffff_ffff
    ensures n > 0 ==> ShiftRightSigned(1, n) == 0
  {
    Bits.HalfWord();
    if n < 31 { Bits.Pow2Monotone(n, 31); }
    if n > 0 { assert Bits.Pow2(n) == 2 * Bits.Pow2(n - 1); }
    Quotients(Bits.Pow2(n));
  }

  lemma {:induction false} Quotients(q: nat)
    requires q >= 1
    ensures 0 / q == 0 && 0 % q == 0 && (q >= 2 ==> 1 / q == 0)
    ensures var minus: int := -1; minus / q == -1
  {
    var minus: int := -1;
    var d, m := minus / q, minus % q;
    assert minus == d * q + m;
  }

  lemma {:induction false} NoShift(a: word)
    ensures ShiftLeft(a, 0) == a && ShiftRightSigned(a, 0) == a
  {
    assert Bits.Pow2(0) == 1 && S(a) / 1 == S(a);
  }

  lemma {:induction false} ShiftDiffers(i: Instruction, p: nat)
    requires (i.op == Alu(SLL) || i.op == Alu(SRA) || i.op == Alu(SRL)) && i.extra < 32 && Touches(i, p)
    ensures AluDiffers(i, p, 0, if i.rd == p || i.op == Alu(SLL) then 1 else 0xffff_ffff, 0)
  {
    Shifts(i.extra);
    NoShift(0);
    NoShift(1);
  }

  lemma {:induction false} SmallShifts()
    ensures ShiftLeft(0, 0) == 0 && ShiftLeft(0, 1) == 0 && ShiftLeft(1, 0) == 1 && ShiftLeft(1, 1) == 2
    ensures ShiftRightSigned(0, 0) == 0 && ShiftRightSigned(0, 1) == 0 && ShiftRightSigned(0, 2) == 0
    ensures ShiftRightSigned(1, 0) == 1 && ShiftRightSigned(1, 1) == 0 && ShiftRightSigned(1, 2) == 0
    ensures ShiftRightSigned(2, 0) == 2 && ShiftRightSigned(2, 1) == 1 && ShiftRightSigned(2, 2) == 0
    ensures ShiftRightSigned(32, 0) == 32
  {
    assert Bits.Pow2(0) == 1 && Bits.Pow2(1) == 2 && Bits.Pow2(2) == 4;
  }

  lemma {:induction false} SllvDiffers(i: Instruction, p: nat)
    requires i.op == Alu(SLLV) && Touches(i, p)
    ensures AluDiffers(i, p, 0, 1, if p in Reads(i) then 1 else 0)
  {
    SmallShifts();
  }

  lemma {:induction false} SravDiffers(i: Instruction, p: nat)
    requires (i.op == Alu(SRAV) || i.op == Alu(SRLV)) && Touches(i, p)
    ensures AluDiffers(i, p, 0, if i.rs == i.rt == p != i.rd then 32 else 2, 1)
  {
    SmallShifts();
  }

  /** A witness for every three-operand instruction. */
  lemma {:induction false} AluNeeded(i: Instruction, p: nat) returns (x: word, loaded: word, y: word)
    requires i.op.Alu? && i.extra < 32 && Touches(i, p)
    ensures AluDiffers(i, p, x, loaded, y)
  {
    x, loaded, y := 0, 7, 1;
    match i.op.alu
    case ADD => x, loaded := AddDiffers(i, p);
    case SUB => x, loaded := SubDiffers(i, p);
    case AND => AndDiffers(i, p);
    case NOR => NorDiffers(i, p);
    case OR => OrDiffers(i, p);
    case XOR => XorDiffers(i, p);
    case SLT => x := 0xffff_ffff; SltDiffers(i, p);
    case SLLV => loaded, y := 1, if p in Reads(i) then 1 else 0; SllvDiffers(i, p);
    case SRAV => loaded := if i.rs == i.rt == p != i.rd then 32 else 2; SravDiffers(i, p);
    case SRLV => loaded := if i.rs == i.rt == p != i.rd then 32 else 2; SravDiffers(i, p);
    case SLL => loaded, y := 1, 0; ShiftDiffers(i, p);
    case SRA => loaded, y := if i.rd == p then 1 else 0xffff_ffff, 0; ShiftDiffers(i, p);
    case SRL => loaded, y := if i.rd == p then 1 else 0xffff_ffff, 0; ShiftDiffers(i, p);
    case _ => AddsDiffer(i, p);
  }

  lemma {:induction false} AluRefuted(i: Instruction, p: RegNo)
    requires i.op.Alu? && i.extra < 32 && Touches(i, p)
    ensures !RestartsPrecisely(i, p)
  {
    var x, loaded, y := AluNeeded(i, p);
    var r, f := Before(p, x, loaded, y), After(p, loaded, y);
    WitnessFlushed(p, x, loaded, y);
    AluOutcome(r, f, i, NoMemory, {});
    Refuted(i, p, x, loaded, y, NoMemory, {});
  }

  /** The degenerate ones do agree: values first. Operands a and b become c and d. */
  lemma {:induction false} ConstantValue(op: AluOp, i: Instruction, a: word, b: word, c: word, d: word)
    requires AluConstant(op, i)
    requires (i.rs == i.rt ==> a == b && c == d) && (i.rs == 0 ==> a == c == 0) && (i.rt == 0 ==> b == d == 0)
    ensures AluValue(op, a, b, i.extra) == AluValue(op, c, d, i.extra) && AluValue(op, a, b, i.extra).Word?
  {
    match op
    case XOR =>
      Bits.XorSelf(a);
      Bits.XorSelf(c);
    case SUB =>
      SubValue(a, b, i.extra);
      SubValue(c, d, i.extra);
    case SLLV => ZeroShift(a % 32); ZeroShift(c % 32);
    case SRAV => ZeroShift(a % 32); ZeroShift(c % 32);
    case SRLV => ZeroShift(a % 32); ZeroShift(c % 32);
    case _ =>
  }

  lemma {:induction false} ZeroShift(n: nat)
    ensures ShiftLeft(0, n) == 0 && ShiftRightSigned(0, n) == 0
  {
    Quotients(Bits.Pow2(n));
  }

  lemma {:induction false} CopiedValue(op: AluOp, i: Instruction, p: nat, a: word, b: word, v: word)
    requires AluCopies(op, i, p) && p != 0
    requires (i.rs == p ==> a == v) && (i.rt == p ==> b == v) && (i.rs == 0 ==> a == 0) && (i.rt == 0 ==> b == 0)
    ensures AluValue(op, a, b, i.extra) == Word(v)
  {
    match op
    case ADD => AddValue(a, b, i.extra);
    case SUB => SubValue(a, b, i.extra);
    case XOR => Bits.XorZero(v);
    case AND => Bits.AndSelf(v);
    case OR => Bits.OrSelf(v);
    case _ => NoShift(v);
  }

  lemma {:induction false} NoTrap(op: AluOp, i: Instruction, a: word, b: word)
    requires !AluTraps(op, i)
    requires (i.rs == i.rt ==> a == b) && (i.rs == 0 ==> a == 0) && (i.rt == 0 ==> b == 0)
    ensures AluValue(op, a, b, i.extra).Word?
  {
    AddValue(a, b, i.extra);
    SubValue(a, b, i.extra);
  }

  lemma {:induction false} AluDegenerate(r: Regs, f: Regs, i: Instruction)
    requires Flushed(r, f) && r[LoadReg] != 0 && i.op.Alu? && Degenerate(i, r[LoadReg])
    ensures ResultAgrees(i.rd, r[LoadReg], r[LoadValueReg],
              AluValue(i.op.alu, r[i.rs], r[i.rt], i.extra), AluValue(i.op.alu, f[i.rs], f[i.rt], i.extra))
  {
    var op, p := i.op.alu, r[LoadReg];
    if i.rd == p {
      CopiedValue(op, i, p, f[i.rs], f[i.rt], r[LoadValueReg]);
      CopiedValue(op, i, p, r[i.rs], r[i.rt], r[p]);
    } else if AluConstant(op, i) {
      ConstantValue(op, i, r[i.rs], r[i.rt], f[i.rs], f[i.rt]);
    } else {
      NoTrap(op, i, r[i.rs], r[i.rt]);
      NoTrap(op, i, f[i.rs], f[i.rt]);
    }
  }

  /* ------------------------------ immediate operands ------------------------------ */

  /** The extra field of an instruction with an immediate operand: 16 bits, sign-extended. */
  predicate Short(e: word) { e < 0x8000 || e >= 0xffff_8000 }

  lemma {:induction false} AddiValue(a: word, e: word)
    ensures ImmValue(ADDI, a, e) == Sum(a, e)
  {
    Bits.XorSign(a, e);
    Bits.XorSign(e, W32(a + e));
  }

  predicate ImmDiffers(i: Instruction, p: nat, x: word, loaded: word, y: word)
    requires i.op.Imm?
  {
    !ResultAgrees(i.rt, p, loaded, ImmValue(i.op.imm, Holds(i.rs, p, x, y), i.extra),
                  ImmValue(i.op.imm, Holds(i.rs, p, loaded, y), i.extra))
  }

  /** The pending register is overwritten with something that does not depend on it. */
  lemma {:induction false} OverwriteDiffers(i: Instruction, p: nat) returns (loaded: word)
    requires i.op.Imm? && i.rt == p != 0 && p !in Reads(i) && Short(i.extra)
    ensures ImmDiffers(i, p, 0, loaded, 0)
  {
    var v := ImmValue(i.op.imm, 0, i.extra);
    AddiValue(0, i.extra);
    loaded := if v == Word(0) then 1 else 0;
  }

  lemma {:induction false} AddiDiffers(i: Instruction, p: nat) returns (x: word, loaded: word)
    requires i.op == Imm(ADDI) && Touches(i, p) && i.rs == p && Short(i.extra)
    ensures ImmDiffers(i, p, x, loaded, 0)
  {
    x, loaded := AddiSums(i, p);
    AddiValue(x, i.extra);
    AddiValue(loaded, i.extra);
  }

  lemma {:induction false} AddiSums(i: Instruction, p: nat) returns (x: word, loaded: word)
    requires i.op == Imm(ADDI) && Touches(i, p) && i.rs == p && Short(i.extra)
    ensures !ResultAgrees(i.rt, p, loaded, Sum(x, i.extra), Sum(loaded, i.extra))
  {
    if i.extra == 0 {
      x, loaded := 0, 1;
    } else {
      x, loaded := if i.extra < 0x8000 then 0x7fff_ffff else 0x8000_0000, 0;
    }
  }

  lemma {:induction false} AndiDiffers(i: Instruction, p: nat) returns (loaded: word)
    requires i.op == Imm(ANDI) && Touches(i, p) && i.rs == p
    ensures ImmDiffers(i, p, 0, loaded, 0)
  {
    var e := i.extra % 0x1_0000;
    Bits.AndSelf(e);
    Bits.AndBelow(0x1_0000, e);
    loaded := if i.rt == p then 0x1_0000 else e;
  }

  lemma {:induction false} OriDiffers(i: Instruction, p: nat) returns (loaded: word)
    requires i.op == Imm(ORI) && Touches(i, p) && i.rs == p
    ensures ImmDiffers(i, p, 0, loaded, 0)
  {
    var e := i.extra % 0x1_0000;
    Bits.OrZero(e);
    Bits.OrAbove(0x1_0000, e);
    loaded := if i.rt == p then 0 else 0x1_0000;
  }

  lemma {:induction false} XoriDiffers(i: Instruction, p: nat) returns (loaded: word)
    requires i.op == Imm(XORI) && Touches(i, p) && i.rs == p
    ensures ImmDiffers(i, p, 0, loaded, 0)
  {
    var e := i.extra % 0x1_0000;
    Bits.XorZero(e);
    loaded := if i.rt == p then 0 else 1;
    assert Bits.Xor(1, e) % 2 != e % 2;
  }

  lemma {:induction false} CompareDiffers(i: Instruction, p: nat) returns (x: word, loaded: word)
    requires (i.op == Imm(ADDIU) || i.op == Imm(SLTI) || i.op == Imm(SLTIU)) && Touches(i, p) && i.rs == p
    requires Short(i.extra)
    ensures ImmDiffers(i, p, x, loaded, 0)
  {
    x, loaded := 0, 7;
    if i.op == Imm(SLTI) && i.rt != p {
      x, loaded := 0x8000_0000, 0x7fff_ffff;
    } else if i.op == Imm(SLTIU) && i.rt != p {
      loaded := 0xffff_ffff;
    }
  }

  lemma {:induction false} ImmNeeded(i: Instruction, p: nat) returns (x: word, loaded: word)
    requires i.op.Imm? && Short(i.extra) && Touches(i, p)
    ensures ImmDiffers(i, p, x, loaded, 0)
  {
    x := 0;
    if p !in Reads(i) {
      loaded := OverwriteDiffers(i, p);
    } else {
      match i.op.imm
      case ADDI => x, loaded := AddiDiffers(i, p);
      case ANDI => loaded := AndiDiffers(i, p);
      case ORI => loaded := OriDiffers(i, p);
      case XORI => loaded := XoriDiffers(i, p);
      case _ => x, loaded := CompareDiffers(i, p);
    }
  }

  lemma {:induction false} ImmRefuted(i: Instruction, p: RegNo)
    requires i.op.Imm? && Short(i.extra) && Touches(i, p)
    ensures !RestartsPrecisely(i, p)
  {
    var x, loaded := ImmNeeded(i, p);
    var r, f := Before(p, x, loaded, 0), After(p, loaded, 0);
    WitnessFlushed(p, x, loaded, 0);
    ImmOutcome(r, f, i, NoMemory, {});
    Refuted(i, p, x, loaded, 0, NoMemory, {});
  }

  lemma {:induction false} ImmCopied(op: ImmOp, i: Instruction, p: nat, v: word)
    requires ImmCopies(op, i, p)
    ensures ImmValue(op, v, i.extra) == Word(v)
  {
    match op
    case ADDI => AddiValue(v, i.extra);
    case ORI => Bits.OrZero(v);
    case XORI => Bits.XorZero(v);
    case _ =>
  }

  lemma {:induction false} ImmNoTrap(op: ImmOp, i: Instruction, v: word)
    requires op == ADDI ==> i.extra == 0
    ensures ImmValue(op, v, i.extra).Word?
  {
    if op == ADDI { AddiValue(v, 0); }
  }

  lemma {:induction false} ImmDegenerate(r: Regs, f: Regs, i: Instruction)
    requires Flushed(r, f) && r[LoadReg] != 0 && i.op.Imm? && Degenerate(i, r[LoadReg])
    ensures ResultAgrees(i.rt, r[LoadReg], r[LoadValueReg],
              ImmValue(i.op.imm, r[i.rs], i.extra), ImmValue(i.op.imm, f[i.rs], i.extra))
  {
    if i.rt == r[LoadReg] {
      ImmCopied(i.op.imm, i, i.rt, r[i.rs]);
      ImmCopied(i.op.imm, i, i.rt, f[i.rs]);
    } else if ImmConstant(i.op.imm, i) {
      assert ImmValue(i.op.imm, r[i.rs], i.extra) == ImmValue(i.op.imm, f[i.rs], i.extra);
    } else {
      ImmNoTrap(i.op.imm, i, r[i.rs]);
      ImmNoTrap(i.op.imm, i, f[i.rs]);
    }
  }

  /* ------------------------------ branches and jumps ------------------------------ */

  lemma {:induction false} BranchNeeded(i: Instruction, p: nat) returns (x: word, loaded: word)
    requires i.op.Branch? && Touches(i, p)
    ensures Taken(i.op.br, Holds(i.rs, p, x, 0), Holds(i.rt, p, x, 0))
         != Taken(i.op.br, Holds(i.rs, p, loaded, 0), Holds(i.rt, p, loaded, 0))
  {
    match i.op.br
    case BEQ => x, loaded := 0, 1;
    case BNE => x, loaded := 0, 1;
    case BGTZ => x, loaded := 0, 1;
    case BLEZ => x, loaded := 0, 1;
    case _ => x, loaded := 0, 0x8000_0000;
  }

  lemma {:induction false} BranchRefuted(i: Instruction, p: RegNo)
    requires i.op.Branch? && Touches(i, p)
    ensures !RestartsPrecisely(i, p)
  {
    var x, loaded := BranchNeeded(i, p);
    var r, f := Before(p, x, loaded, 0), After(p, loaded, 0);
    WitnessFlushed(p, x, loaded, 0);
    BranchOutcome(r, f, i, NoMemory, {});
    Refuted(i, p, x, loaded, 0, NoMemory, {});
  }

  lemma {:induction false} LinkRefuted(i: Instruction, p: RegNo)
    requires i.op.BranchLink? && (i.op.brl == BGEZ || i.op.brl == BLTZ) && Touches(i, p)
    ensures !RestartsPrecisely(i, p)
  {
    var loaded: word := if p == R31 then 5 else 0x8000_0000;
    var r, f := Before(p, 0, loaded, 0), After(p, loaded, 0);
    WitnessFlushed(p, 0, loaded, 0);
    assert Pc4(r) == 4 == Pc4(f) && r[i.rs] == Holds(i.rs, p, 0, 0) && f[i.rs] == Holds(i.rs, p, loaded, 0);
    LinkOutcome(r, f, i, NoMemory, {});
    Refuted(i, p, 0, loaded, 0, NoMemory, {});
  }

  /** Jumps that link, and moves from and to HI and LO: the register written, its value, and
      where execution goes on. */
  function Moved(r: Regs, i: Instruction): (nat, word, word)
    requires i.op == JAL || i.op == JALR || i.op == MFHI || i.op == MFLO || i.op == MTHI || i.op == MTLO
  {
    match i.op
    case JAL => (R31, Pc4(r), Or(And(Pc4(r), 0xf000_0000), ShiftLeft(i.extra, 2)))
    case JALR => (i.rd, Pc4(r), if i.rs == i.rd then Pc4(r) else r[i.rs])
    case MFHI => (i.rd, r[HiReg], Pc4(r))
    case MFLO => (i.rd, r[LoReg], Pc4(r))
    case MTHI => (HiReg, r[i.rs], Pc4(r))
    case MTLO => (LoReg, r[i.rs], Pc4(r))
  }

  lemma {:induction false} MoveOutcome(r: Regs, f: Regs, i: Instruction, m: Mem, resident: set<nat>)
    requires Flushed(r, f) && r[LoadReg] != 0
    requires i.op == JAL || i.op == JALR || i.op == MFHI || i.op == MFLO || i.op == MTHI || i.op == MTLO
    ensures SameOutcome(Ended(r, i, m, resident), Ended(f, i, m, resident))
       <==> && Moved(r, i).2 == Moved(f, i).2
            && WriteAgrees(Moved(r, i).0, r[LoadReg], r[LoadValueReg], Moved(r, i).1, Moved(f, i).1)
  {
    var a, b := Moved(r, i), Moved(f, i);
    assert Execute(r, i, m, resident) == Ok([(a.0, a.1)], 0, 0, a.2, m);
    assert Execute(f, i, m, resident) == Ok([(b.0, b.1)], 0, 0, b.2, m);
    OneWrite(r, f, a.0, a.1, b.1, a.2, b.2, m);
  }

  lemma {:induction false} MoveRefuted(i: Instruction, p: RegNo)
    requires i.op == JAL || i.op == JALR || i.op == MFHI || i.op == MFLO || i.op == MTHI || i.op == MTLO
    requires Touches(i, p)
    ensures !RestartsPrecisely(i, p)
  {
    var r, f := Before(p, 0, 8, 0), After(p, 8, 0);
    WitnessFlushed(p, 0, 8, 0);
    assert Pc4(r) == 4 == Pc4(f) && r[HiReg] == f[HiReg] == r[LoReg] == f[LoReg] == 0;
    assert r[i.rs] == Holds(i.rs, p, 0, 0) && f[i.rs] == Holds(i.rs, p, 8, 0);
    MoveOutcome(r, f, i, NoMemory, {});
    Refuted(i, p, 0, 8, 0, NoMemory, {});
  }

  lemma {:induction false} JrRefuted(i: Instruction, p: RegNo)
    requires i.op == JR && Touches(i, p)
    ensures !RestartsPrecisely(i, p)
  {
    var r, f, m := Before(p, 0, 8, 0), After(p, 8, 0), Memory([], 0);
    WitnessFlushed(p, 0, 8, 0);
    assert r[i.rs] == 0 && f[i.rs] == 8;
    NoWrite(r, f, 0, 8, m, m);
    Refuted(i, p, 0, 8, 0, m, {});
  }

  /* ------------------------------ multiplication and division ------------------------------ */

  lemma {:induction false} SmallProduct(a: word, b: word, signed: bool)
    requires a <= 1 && b <= 1
    ensures Product(a, b, signed) == (0, a * b)
  {
    var n: nat := a * b;
    assert n <= 1 && S(a) * S(b) == n;
    assert n % (0x1_0000_0000 * 0x1_0000_0000) == n;
  }

  lemma {:induction false} SmallQuotient(a: word, b: word, signed: bool)
    requires a <= 1 && b <= 1
    ensures Divided(a, b, signed) == (0, a * b)
  {
  }

  lemma {:induction false} MulDivRefuted(i: Instruction, p: RegNo)
    requires MulDiv(i.op) && Touches(i, p)
    ensures !RestartsPrecisely(i, p)
  {
    var r, f := Before(p, 0, 1, 1), After(p, 1, 1);
    WitnessFlushed(p, 0, 1, 1);
    assert r[i.rs] == Holds(i.rs, p, 0, 1) && r[i.rt] == Holds(i.rt, p, 0, 1) && f[i.rs] == 1 && f[i.rt] == 1;
    MulDivShows(i.op, r[i.rs], r[i.rt]);
    MulDivOutcome(r, f, i, NoMemory, {});
    Refuted(i, p, 0, 1, 1, NoMemory, {});
  }

  /** 1 and 1 give another result than a 0 among them. */
  lemma {:induction false} MulDivShows(op: Op, a: word, b: word)
    requires MulDiv(op) && a <= 1 && b <= 1 && (a == 0 || b == 0)
    ensures MulDivValue(op, a, b) != MulDivValue(op, 1, 1)
  {
    SmallProduct(a, b, op == MULT);
    SmallQuotient(a, b, op == DIV);
    SmallProduct(1, 1, op == MULT);
    SmallQuotient(1, 1, op == DIV);
  }

  lemma {:induction false} ZeroProduct(a: word, b: word, signed: bool)
    requires a == 0 || b == 0
    ensures Product(a, b, signed) == (0, 0)
  {
    assert a * b == 0 && S(a) * S(b) == 0;
  }

  lemma {:induction false} ZeroDivided(b: word, signed: bool)
    ensures Divided(0, b, signed) == (0, 0)
  {
    if b != 0 {
      Quotients(b);
      Quotients(if S(b) < 0 then -S(b) else S(b));
      assert Quotient(0, S(b)) == 0;
    }
  }

  lemma {:induction false} MulDivZero(op: Op, a: word, b: word)
    requires MulDiv(op) && (a == 0 || b == 0)
    ensures MulDivValue(op, a, b) == (0, 0)
  {
    match op
    case MULT => ZeroProduct(a, b, true);
    case MULTU => ZeroProduct(a, b, false);
    case DIV => ZeroDivided(b, true);
    case DIVU => ZeroDivided(b, false);
  }

  /* ------------------------------ loads and stores ------------------------------ */

  const OnePage: Mem := Memory(Zeros(PageSize), 1)

  /** Address 0 is good there, the middle of the address space is out of range. */
  lemma {:induction false} TwoAddresses(size: AccessSize)
    ensures !BadAddress(0, size, 1) && Vpn(0) == 0 && BadAddress(0x8000_0000, size, 1)
  {
    assert U32(0) == 0 && U32(0x8000_0000) == 0x8000_0000;
    assert 0 / PageSize == 0 && 0x8000_0000 / PageSize >= 1;
  }

  /** The register that makes the address a. */
  function Reach(a: word, extra: word): word { W32(a - extra) }

  lemma {:induction false} Reached(a: word, extra: word)
    ensures W32(Reach(a, extra) + extra) == a
  {
  }

  lemma {:induction false} AddressRefuted(i: Instruction, p: RegNo)
    requires (i.op.Ld? || i.op.St?) && i.rs == p != 0
    ensures !RestartsPrecisely(i, p)
  {
    var x, loaded := Reach(0, i.extra), Reach(0x8000_0000, i.extra);
    Reached(0, i.extra);
    Reached(0x8000_0000, i.extra);
    var r, f := Before(p, x, loaded, 0), After(p, loaded, 0);
    WitnessFlushed(p, x, loaded, 0);
    if i.op.Ld? {
      LoadsAt(r, f, i);
    } else {
      StoresAt(r, f, i);
    }
    Refuted(i, p, x, loaded, 0, OnePage, {0});
  }

  /** One address is good and the other is not: a load completes, or traps. */
  lemma {:induction false} LoadsAt(r: Regs, f: Regs, i: Instruction)
    requires ValidRegs(r) && ValidRegs(f) && i.op.Ld?
    requires W32(r[i.rs] + i.extra) == 0 && W32(f[i.rs] + i.extra) == 0x8000_0000
    ensures Ended(r, i, OnePage, {0}).Completed? && Ended(f, i, OnePage, {0}).Trapped?
  {
    TwoAddresses(LoadSize(i.op.ld));
  }

  lemma {:induction false} StoresAt(r: Regs, f: Regs, i: Instruction)
    requires ValidRegs(r) && ValidRegs(f) && i.op.St?
    requires Address(r, i) == 0 && Address(f, i) == 0x8000_0000
    ensures Ended(r, i, OnePage, {0}).Completed? && Ended(f, i, OnePage, {0}).Trapped?
  {
    TwoAddresses(StoreSize(i.op.st));
    StoreEffect(r, i, OnePage, {0});
    StoreEffect(f, i, OnePage, {0});
    StoreInPage(i.op.st, r[i.rt], Pc4(r));
    StoreInPage(i.op.st, f[i.rt], Pc4(f));
  }

  lemma {:induction false} StoreInPage(op: StoreOp, rt: word, pc4: word)
    ensures ExecuteStore(op, 0, rt, pc4, OnePage, {0}).Ok?
    ensures ExecuteStore(op, 0x8000_0000, rt, pc4, OnePage, {0}) == Raise(AddressErrorException, 0x8000_0000)
  {
    TwoAddresses(StoreSize(op));
  }

  /** A memory with every address in range. */
  const Whole: Mem := Memory(Zeros(0x1_0000_0000 * PageSize), 0x1_0000_0000)

  lemma {:induction false} AllInRange(a: word, size: AccessSize)
    requires a % size == 0
    ensures !BadAddress(a, size, 0x1_0000_0000)
  {
    AddressSplit(a, 0x1_0000_0000, PageSize);
  }

  lemma {:induction false} EncodeDiffers(v: word, w: word, size: AccessSize)
    requires if size == 4 then v != w else v == 0 && w == 1
    ensures Encode(v, size) != Encode(w, size)
  {
    assert U32(v) == v && U32(w) == w;
    if size == 4 {
      assert Pow256(4) == 0x1_0000_0000;
      BytesRoundTrip(v, 4);
      BytesRoundTrip(w, 4);
    } else {
      assert Encode(v, size)[0] == 0 && Encode(w, size)[0] == 1;
    }
  }

  lemma {:induction false} StoredDiffers(m: Mem, resident: set<nat>, a: word, size: AccessSize, v: word, w: word)
    requires !BadAddress(a, size, m.numPages) && Vpn(a) in resident && Encode(v, size) != Encode(w, size)
    ensures WriteMem(m, resident, a, size, v).Wrote? && WriteMem(m, resident, a, size, w).Wrote?
    ensures WriteMem(m, resident, a, size, v).mem != WriteMem(m, resident, a, size, w).mem
  {
    InRange(a, size, m.numPages);
    var x, y := Splice(m.flat, a, Encode(v, size)), Splice(m.flat, a, Encode(w, size));
    assert x[a..a + size] == Encode(v, size) && y[a..a + size] == Encode(w, size);
  }

  /** What a store puts at its address: SWR merges the register into the word there. */
  function ValueStored(op: StoreOp, there: word, rt: word): word {
    if op == SWR then Or(there % 0x100_0000, ShiftLeft(rt, 24)) else rt
  }

  lemma {:induction false} ValuesDiffer(op: StoreOp, there: word)
    ensures Encode(ValueStored(op, there, 0), StoreSize(op)) != Encode(ValueStored(op, there, 1), StoreSize(op))
  {
    var low := there % 0x100_0000;
    assert Bits.Pow2(24) == 0x100_0000 by { assert Bits.Pow2(8) == 256; assert Bits.Pow2(16) == 65536; }
    assert ShiftLeft(0, 24) == 0 && ShiftLeft(1, 24) == 0x100_0000;
    Bits.OrZero(low);
    Bits.OrAbove(low, 0x100_0000);
    EncodeDiffers(ValueStored(op, there, 0), ValueStored(op, there, 1), StoreSize(op));
  }

  lemma {:induction false} StoreExecutes(op: StoreOp, a: word, rt: word, pc4: word, resident: set<nat>)
    requires a % StoreSize(op) == 0 && Vpn(a) in resident
    ensures var there := ReadMem(Whole, resident, a, 4);
      var v := ValueStored(op, if there.Got? then there.value else 0, rt);
      && WriteMem(Whole, resident, a, StoreSize(op), v).Wrote?
      && ExecuteStore(op, a, rt, pc4, Whole, resident)
         == Ok([], 0, 0, pc4, WriteMem(Whole, resident, a, StoreSize(op), v).mem)
  {
    AllInRange(a, StoreSize(op));
  }

  lemma {:induction false} StoresDiffer(op: StoreOp, a: word, pc4: word, resident: set<nat>)
    requires a % StoreSize(op) == 0 && Vpn(a) in resident
    ensures var e, e' := ExecuteStore(op, a, 0, pc4, Whole, resident), ExecuteStore(op, a, 1, pc4, Whole, resident);
      && e.Ok? && e'.Ok? && e == Ok([], 0, 0, pc4, e.mem) && e' == Ok([], 0, 0, pc4, e'.mem) && e.mem != e'.mem
  {
    StoreExecutes(op, a, 0, pc4, resident);
    StoreExecutes(op, a, 1, pc4, resident);
    var there := ReadMem(Whole, resident, a, 4);
    var old_: word := if there.Got? then there.value else 0;
    ValuesDiffer(op, old_);
    AllInRange(a, StoreSize(op));
    StoredDiffers(Whole, resident, a, StoreSize(op), ValueStored(op, old_, 0), ValueStored(op, old_, 1));
  }

  /** The stored register shows in memory. */
  lemma {:induction false} StoreShows(r: Regs, f: Regs, i: Instruction, a: word)
    requires Flushed(r, f) && r[LoadReg] != 0 && i.op.St? && a % StoreSize(i.op.st) == 0
    requires Address(r, i) == a == Address(f, i) && r[i.rt] == 0 && f[i.rt] == 1
    ensures !SameOutcome(Ended(r, i, Whole, {Vpn(a)}), Ended(f, i, Whole, {Vpn(a)}))
  {
    var resident, pc := {Vpn(a)}, Pc4(r);
    StoreOutcome(r, i, a, 0, pc, Whole, resident);
    StoreOutcome(f, i, a, 1, pc, Whole, resident);
    StoresDiffer(i.op.st, a, pc, resident);
    var e, e' := Execute(r, i, Whole, resident), Execute(f, i, Whole, resident);
    MemoryShows(r, f, i, Whole, resident, pc, e.mem, e'.mem);
  }

  lemma {:induction false} StoreOutcome(r: Regs, i: Instruction, a: word, v: word, pc: word, m: Mem, resident: set<nat>)
    requires i.op.St? && Address(r, i) == a && r[i.rt] == v && Pc4(r) == pc
    ensures Execute(r, i, m, resident) == ExecuteStore(i.op.st, a, v, pc, m, resident)
  {
    StoreEffect(r, i, m, resident);
  }

  lemma {:induction false} StoreEffect(r: Regs, i: Instruction, m: Mem, resident: set<nat>)
    requires i.op.St?
    ensures Execute(r, i, m, resident) == ExecuteStore(i.op.st, Address(r, i), r[i.rt], Pc4(r), m, resident)
  {}

  lemma {:induction false} MemoryShows(r: Regs, f: Regs, i: Instruction, m: Mem, resident: set<nat>, pc: word,
                                       m1: Mem, m2: Mem)
    requires Flushed(r, f) && r[LoadReg] != 0 && m1 != m2
    requires Execute(r, i, m, resident) == Ok([], 0, 0, pc, m1) && Execute(f, i, m, resident) == Ok([], 0, 0, pc, m2)
    ensures !SameOutcome(Ended(r, i, m, resident), Ended(f, i, m, resident))
  {
    NoWrite(r, f, pc, pc, m1, m2);
  }

  lemma {:induction false} StoreRefuted(i: Instruction, p: RegNo)
    requires i.op.St? && i.rs != p && Touches(i, p)
    ensures !RestartsPrecisely(i, p)
  {
    var a: word, y := if i.rs == 0 then i.extra else 0, Reach(0, i.extra);
    Reached(0, i.extra);
    var r, f := Before(p, 0, 1, y), After(p, 1, y);
    WitnessFlushed(p, 0, 1, y);
    StoreShows(r, f, i, a);
    Refuted(i, p, 0, 1, y, Whole, {Vpn(a)});
  }

  /** In a misaligned store to a constant address the register never counts. */
  lemma {:induction false} StoreDegenerate(r: Regs, f: Regs, i: Instruction, m: Mem, resident: set<nat>)
    requires Flushed(r, f) && i.op.St? && i.rs == 0 && i.extra % StoreSize(i.op.st) != 0
    ensures SameOutcome(Ended(r, i, m, resident), Ended(f, i, m, resident))
  {
    var op, a := i.op.st, i.extra;
    assert Address(r, i) == a && Address(f, i) == a;
    StoreEffect(r, i, m, resident);
    StoreEffect(f, i, m, resident);
    MisalignedStore(op, a, r[i.rt], Pc4(r), m, resident);
    MisalignedStore(op, a, f[i.rt], Pc4(f), m, resident);
    FailsAlike(r, f, i, m, resident);
  }

  lemma {:induction false} FailsAlike(r: Regs, f: Regs, i: Instruction, m: Mem, resident: set<nat>)
    requires Flushed(r, f) && Execute(r, i, m, resident) == Execute(f, i, m, resident)
    requires !Execute(r, i, m, resident).Ok?
    ensures SameOutcome(Ended(r, i, m, resident), Ended(f, i, m, resident))
  {}

  lemma {:induction false} MisalignedStore(op: StoreOp, a: word, rt: word, pc4: word, m: Mem, resident: set<nat>)
    requires a % StoreSize(op) != 0
    ensures ExecuteStore(op, a, rt, pc4, m, resident)
         == if op == SWL || op == SWR then AssertFailed else Raise(AddressErrorException, a)
  {
  }

  /* ------------------------------ the exact condition ------------------------------ */

  /** What decoding guarantees. */
  predicate WellDecoded(i: Instruction) {
    && (i.op.Alu? ==> i.extra < 32) && (i.op.Imm? ==> Short(i.extra))
    && (i.op.BranchLink? ==> i.op.brl == BGEZ || i.op.brl == BLTZ)
  }

  lemma {:induction false} DecodeIsWell(v: word)
    ensures WellDecoded(DecodeInstruction(v))
  {
  }

  lemma {:induction false} DegenerateAgrees(r: Regs, f: Regs, i: Instruction, m: Mem, resident: set<nat>)
    requires Flushed(r, f) && r[LoadReg] != 0 && WellDecoded(i) && Degenerate(i, r[LoadReg])
    ensures SameOutcome(Ended(r, i, m, resident), Ended(f, i, m, resident))
  {
    if i.op.Alu? {
      AluDegenerate(r, f, i);
      AluOutcome(r, f, i, m, resident);
    } else if i.op.Imm? {
      ImmDegenerate(r, f, i);
      ImmOutcome(r, f, i, m, resident);
    } else if i.op.Branch? {
      BranchOutcome(r, f, i, m, resident);
    } else if i.op.BranchLink? {
      LinkOutcome(r, f, i, m, resident);
    } else if i.op.St? {
      StoreDegenerate(r, f, i, m, resident);
    } else {
      MulDivZero(i.op, r[i.rs], r[i.rt]);
      MulDivZero(i.op, f[i.rs], f[i.rt]);
      MulDivOutcome(r, f, i, m, resident);
    }
  }

  lemma {:induction false} TouchesRefuted(i: Instruction, p: RegNo)
    requires WellDecoded(i) && Touches(i, p)
    ensures !RestartsPrecisely(i, p)
  {
    match i.op
    case Alu(_) => AluRefuted(i, p);
    case Imm(_) => ImmRefuted(i, p);
    case Branch(_) => BranchRefuted(i, p);
    case BranchLink(_) => LinkRefuted(i, p);
    case DIV => MulDivRefuted(i, p);
    case DIVU => MulDivRefuted(i, p);
    case MULT => MulDivRefuted(i, p);
    case MULTU => MulDivRefuted(i, p);
    case JR => JrRefuted(i, p);
    case Ld(_) => AddressRefuted(i, p);
    case St(_) => if i.rs == p { AddressRefuted(i, p); } else { StoreRefuted(i, p); }
    case _ => MoveRefuted(i, p);
  }

  /** The condition of PreciseRestart is exact. With a load to register p pending, an instruction
      restarts precisely for all registers and memories if and only if it neither reads nor
      directly writes p, or is one of the degenerate ones. */
  lemma {:induction false} RestartIff(v: word, p: RegNo)
    requires p != 0
    ensures var i := DecodeInstruction(v); RestartsPrecisely(i, p) <==> Avoids(i, p) || Degenerate(i, p)
  {
    var i := DecodeInstruction(v);
    DecodeIsWell(v);
    if Touches(i, p) {
      TouchesRefuted(i, p);
    } else {
      forall r: Regs, f: Regs, m: Mem, resident: set<nat> | Flushed(r, f) && r[LoadReg] == p
        ensures SameOutcome(Ended(r, i, m, resident), Ended(f, i, m, resident))
      {
        if Avoids(i, p) {
          RestartedExecute(r, f, i, m, resident);
        } else {
          DegenerateAgrees(r, f, i, m, resident);
        }
      }
    }
  }
}
