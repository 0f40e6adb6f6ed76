/** What the instructions of code/machine/mipssim.cc mean, apart from how the simulator computes
    it: the words that stand for each, and for each the registers and the memory it leaves, in
    arithmetic on the numbers before. */
module InstructionSet {
  import Bits
  import opened Bytes
  import opened Paging
  import opened UserMemory
  import opened Cpu

  /* ------------------------------ the words ------------------------------ */

  predicate Implemented(op: Op) {
    !op.UNIMP? && !op.RES? && (op.BranchLink? ==> op.brl == BGEZ || op.brl == BLTZ)
  }

  function FormatOf(op: Op): Format {
    match op
    case Alu(_) => RFMT
    case DIV => RFMT case DIVU => RFMT case MULT => RFMT case MULTU => RFMT
    case JALR => RFMT case JR => RFMT case SYSCALL => RFMT
    case MFHI => RFMT case MFLO => RFMT case MTHI => RFMT case MTLO => RFMT
    case J => JFMT case JAL => JFMT
    case _ => IFMT
  }

  /** Bits 31..26. */
  function Major(op: Op): nat {
    match op
    case J => 2 case JAL => 3
    case Branch(BEQ) => 4 case Branch(BNE) => 5 case Branch(BLEZ) => 6 case Branch(BGTZ) => 7
    case Branch(_) => 1 case BranchLink(_) => 1
    case Imm(ADDI) => 8 case Imm(ADDIU) => 9 case Imm(SLTI) => 10 case Imm(SLTIU) => 11
    case Imm(ANDI) => 12 case Imm(ORI) => 13 case Imm(XORI) => 14 case Imm(LUI) => 15
    case Ld(LB) => 32 case Ld(LH) => 33 case Ld(LWL) => 34 case Ld(LW) => 35
    case Ld(LBU) => 36 case Ld(LHU) => 37 case Ld(LWR) => 38
    case St(SB) => 40 case St(SH) => 41 case St(SWL) => 42 case St(SW) => 43 case St(SWR) => 46
    case _ => 0
  }

  /** Bits 5..0 where the major opcode is 0. */
  function Funct(op: Op): nat {
    match op
    case Alu(SLL) => 0 case Alu(SRL) => 2 case Alu(SRA) => 3
    case Alu(SLLV) => 4 case Alu(SRLV) => 6 case Alu(SRAV) => 7
    case JR => 8 case JALR => 9 case SYSCALL => 12
    case MFHI => 16 case MTHI => 17 case MFLO => 18 case MTLO => 19
    case MULT => 24 case MULTU => 25 case DIV => 26 case DIVU => 27
    case Alu(ADD) => 32 case Alu(ADDU) => 33 case Alu(SUB) => 34 case Alu(SUBU) => 35
    case Alu(AND) => 36 case Alu(OR) => 37 case Alu(XOR) => 38 case Alu(NOR) => 39
    case Alu(SLT) => 42 case Alu(SLTU) => 43
    case _ => 0
  }

  /** The rt field where the major opcode is 1. */
  function Condition(op: Op): nat {
    match op
    case Branch(BGEZ) => 1 case BranchLink(BLTZ) => 16 case BranchLink(BGEZ) => 17
    case _ => 0
  }

  /** A 16-bit number with its sign extended to 32 bits. */
  predicate Extended(x: word) { x < 0x8000 || 0xffff_8000 <= x }

  /** The fields fit their places; those that share bits agree. */
  predicate WellFormed(i: Instruction) {
    && Implemented(i.op)
    && match FormatOf(i.op)
       case RFMT => i.extra < 32
       case IFMT =>
         Extended(i.extra) && i.rd == (i.extra % 0x1_0000) / 0x800 && (Major(i.op) == 1 ==> i.rt == Condition(i.op))
       case JFMT => i.extra < 0x400_0000 && i.extra / 0x800 == i.rs * 0x400 + i.rt * 0x20 + i.rd
  }

  /** The word that stands for an instruction. */
  function Assemble(i: Instruction): (v: nat) {
    match FormatOf(i.op)
    case RFMT => i.rs * 0x20_0000 + i.rt * 0x1_0000 + i.rd * 0x800 + i.extra * 0x40 + Funct(i.op)
    case IFMT => Major(i.op) * 0x400_0000 + i.rs * 0x20_0000 + i.rt * 0x1_0000 + i.extra % 0x1_0000
    case JFMT => Major(i.op) * 0x400_0000 + i.extra
  }

  lemma {:induction false} Fields(v: word, major: nat, rs: nat, rt: nat, low: nat)
    requires v == major * 0x400_0000 + rs * 0x20_0000 + rt * 0x1_0000 + low
    requires rs < 32 && rt < 32 && low < 0x1_0000
    ensures v / 0x400_0000 == major && (v / 0x20_0000) % 32 == rs && (v / 0x1_0000) % 32 == rt
    ensures v % 0x1_0000 == low && v % 0x400_0000 == rs * 0x20_0000 + rt * 0x1_0000 + low
  {
    Bits.QuotientUnique(v, major, 0x400_0000, rs * 0x20_0000 + rt * 0x1_0000 + low);
    Bits.QuotientUnique(v, major * 32 + rs, 0x20_0000, rt * 0x1_0000 + low);
    Bits.QuotientUnique(major * 32 + rs, major, 32, rs);
    var top := major * 0x400 + rs * 32 + rt;
    Bits.QuotientUnique(v, top, 0x1_0000, low);
    Bits.QuotientUnique(top, major * 32 + rs, 32, rt);
  }

  lemma {:induction false} LowFields(v: word, top: nat, rd: nat, sh: nat, funct: nat)
    requires v == top * 0x1_0000 + rd * 0x800 + sh * 0x40 + funct && rd < 32 && sh < 32 && funct < 64
    ensures (v / 0x800) % 32 == rd && (v / 64) % 32 == sh && v % 64 == funct
  {
    Bits.QuotientUnique(v, top * 32 + rd, 0x800, sh * 0x40 + funct);
    Bits.QuotientUnique(top * 32 + rd, top, 32, rd);
    var above := (top * 32 + rd) * 32 + sh;
    Bits.QuotientUnique(v, above, 64, funct);
    Bits.QuotientUnique(above, top * 32 + rd, 32, sh);
  }

  lemma {:induction false} OpTables(op: Op)
    requires Implemented(op)
    ensures var k := Major(op);
      && OpInfo(k).1 == FormatOf(op)
      && OpInfo(k).0 == if k == 0 then Special else if k == 1 then Bcond else Direct(op)
    ensures Major(op) == 0 ==> SpecialOp(Funct(op)) == op
    ensures Major(op) == 1 ==> BcondOp(Condition(op)) == op
    ensures Funct(op) < 64 && Major(op) < 64 && Condition(op) < 32
  {}

  /** Every instruction is what its word is decoded to. */
  lemma {:induction false} DecodeAssembled(i: Instruction)
    requires WellFormed(i)
    ensures Assemble(i) < 0x1_0000_0000 && DecodeInstruction(Assemble(i)) == i
  {
    OpTables(i.op);
    match FormatOf(i.op)
    case RFMT => DecodeRegister(i);
    case IFMT => DecodeImmediate(i);
    case JFMT => DecodeJump(i);
  }

  lemma {:induction false} DecodeRegister(i: Instruction)
    requires WellFormed(i) && FormatOf(i.op) == RFMT && OpInfo(0) == (Special, RFMT) && SpecialOp(Funct(i.op)) == i.op
    ensures Assemble(i) < 0x1_0000_0000 && DecodeInstruction(Assemble(i)) == i
  {
    var v := Assemble(i);
    Fields(v, 0, i.rs, i.rt, i.rd * 0x800 + i.extra * 0x40 + Funct(i.op));
    LowFields(v, i.rs * 32 + i.rt, i.rd, i.extra, Funct(i.op));
  }

  lemma {:induction false} SignExtended(x: word)
    requires Extended(x)
    ensures x == if x % 0x1_0000 >= 0x8000 then x % 0x1_0000 + 0xffff_0000 else x % 0x1_0000
    ensures x % 0x1_0000 == (x % 0x1_0000 / 0x800) * 0x800 + (x % 0x1_0000 / 64) % 32 * 64 + x % 0x1_0000 % 64
    ensures x % 0x1_0000 / 0x800 < 32
  {}

  lemma {:induction false} DecodeImmediate(i: Instruction)
    requires WellFormed(i) && FormatOf(i.op) == IFMT && Major(i.op) < 64 && OpInfo(Major(i.op)).1 == IFMT
    requires if Major(i.op) == 1 then OpInfo(1).0 == Bcond && BcondOp(Condition(i.op)) == i.op
             else OpInfo(Major(i.op)).0 == Direct(i.op)
    ensures Assemble(i) < 0x1_0000_0000 && DecodeInstruction(Assemble(i)) == i
  {
    var v, imm := Assemble(i), i.extra % 0x1_0000;
    SignExtended(i.extra);
    Fields(v, Major(i.op), i.rs, i.rt, imm);
    LowFields(v, Major(i.op) * 0x400 + i.rs * 32 + i.rt, i.rd, (imm / 64) % 32, imm % 64);
  }

  lemma {:induction false} DecodeJump(i: Instruction)
    requires WellFormed(i) && FormatOf(i.op) == JFMT && OpInfo(Major(i.op)) == (Direct(i.op), JFMT)
    ensures Assemble(i) < 0x1_0000_0000 && DecodeInstruction(Assemble(i)) == i
  {
    var v, low := Assemble(i), i.extra % 0x800;
    Fields(v, Major(i.op), i.rs, i.rt, i.rd * 0x800 + low);
    LowFields(v, Major(i.op) * 0x400 + i.rs * 32 + i.rt, i.rd, low / 64, low % 64);
  }

  /** The number of 16 bits with its sign extended. */
  lemma {:induction false} Extends(imm: nat)
    requires imm < 0x1_0000
    ensures var x: word := if imm >= 0x8000 then imm + 0xffff_0000 else imm;
      Extended(x) && x % 0x1_0000 == imm
  {}

  lemma {:induction false} HighParts(v: word)
    ensures v == v / 0x400_0000 * 0x400_0000 + (v / 0x20_0000) % 32 * 0x20_0000 + (v / 0x1_0000) % 32 * 0x1_0000
                 + v % 0x1_0000
    ensures v / 0x400_0000 < 64
  {
    var q, low := v / 0x1_0000, v % 0x1_0000;
    var p := q / 32;
    Bits.QuotientUnique(v, p, 0x20_0000, q % 32 * 0x1_0000 + low);
    Bits.QuotientUnique(v, p / 32, 0x400_0000, p % 32 * 0x20_0000 + q % 32 * 0x1_0000 + low);
  }

  lemma {:induction false} LowParts(v: word)
    ensures v % 0x1_0000 == (v / 0x800) % 32 * 0x800 + (v / 64) % 32 * 64 + v % 64
  {
    var q, f := v / 64, v % 64;
    var top := q / 32;
    Bits.QuotientUnique(v, top, 0x800, q % 32 * 64 + f);
    Bits.QuotientUnique(v, top / 32, 0x1_0000, top % 32 * 0x800 + q % 32 * 64 + f);
  }

  lemma {:induction false} SpecialOps(k: nat)
    requires k < 64
    ensures Implemented(SpecialOp(k)) ==>
      Major(SpecialOp(k)) == 0 && FormatOf(SpecialOp(k)) == RFMT && Funct(SpecialOp(k)) == k
    ensures OpInfo(0) == (Special, RFMT)
  {}

  lemma {:induction false} BcondOps(k: nat)
    requires k < 32
    ensures Implemented(BcondOp(k)) ==>
      Major(BcondOp(k)) == 1 && FormatOf(BcondOp(k)) == IFMT && Condition(BcondOp(k)) == k
    ensures OpInfo(1) == (Bcond, IFMT)
  {}

  lemma {:induction false} DirectOps(k: nat)
    requires 2 <= k < 64
    ensures OpInfo(k).0.Direct?
    ensures Implemented(OpInfo(k).0.op) ==>
      Major(OpInfo(k).0.op) == k && FormatOf(OpInfo(k).0.op) == OpInfo(k).1 != RFMT
  {}

  /** Every word that decodes to an implemented instruction stands for that instruction. */
  lemma {:induction false} AssembleDecoded(v: word)
    requires Implemented(DecodeInstruction(v).op)
    ensures WellFormed(DecodeInstruction(v)) && Assemble(DecodeInstruction(v)) == v
  {
    HighParts(v);
    LowParts(v);
    Extends(v % 0x1_0000);
    var k := v / 0x400_0000;
    if k == 0 {
      SpecialOps(v % 64);
    } else if k == 1 {
      BcondOps((v / 0x1_0000) % 32);
    } else {
      DirectOps(k);
      JumpField(v);
    }
  }

  lemma {:induction false} JumpField(v: word)
    ensures v % 0x400_0000 == (v / 0x20_0000) % 32 * 0x20_0000 + (v / 0x1_0000) % 32 * 0x1_0000 + v % 0x1_0000
    ensures v % 0x400_0000 / 0x800 == (v / 0x20_0000) % 32 * 0x400 + (v / 0x1_0000) % 32 * 0x20 + (v / 0x800) % 32
  {
    HighParts(v);
    LowParts(v);
    var rs, rt, low := (v / 0x20_0000) % 32, (v / 0x1_0000) % 32, v % 0x1_0000;
    Bits.QuotientUnique(v, v / 0x400_0000, 0x400_0000, rs * 0x20_0000 + rt * 0x1_0000 + low);
    Bits.QuotientUnique(v % 0x400_0000, rs * 0x400 + rt * 0x20 + (v / 0x800) % 32, 0x800, (v / 64) % 32 * 64 + v % 64);
  }

  /** The illegal words are those that stand for no instruction. */
  lemma {:induction false} IllegalIff(v: word)
    ensures Implemented(DecodeInstruction(v).op) <==> exists i: Instruction :: WellFormed(i) && Assemble(i) == v
  {
    if Implemented(DecodeInstruction(v).op) {
      AssembleDecoded(v);
    }
    if i: Instruction :| WellFormed(i) && Assemble(i) == v {
      DecodeAssembled(i);
    }
  }
}
