/** A whole user program on the paged machine, against the same program on flat memory: the
    instructions of `Cpu` with page faults and restarts in between. */
module Programs {
  import opened Wrappers
  import opened UserMemory
  import opened Cpu
  import opened DelaySlots

  /* ------------------------------ registers that look the same ------------------------------ */

  /** An instruction does not tell such registers apart. */
  lemma {:induction false} SameRegsEffect(a: Regs, b: Regs, i: Instruction, m: Mem, resident: set<nat>)
    requires ValidRegs(a) && ValidRegs(b) && SameRegs(a, b)
    ensures SameEffects(Execute(a, i, m, resident), Execute(b, i, m, resident))
  {
    assert a[i.rs] == b[i.rs] && a[i.rt] == b[i.rt] && a[NextPCReg] == b[NextPCReg];
    assert a[HiReg] == b[HiReg] && a[LoReg] == b[LoReg] && a[LoadReg] == b[LoadReg];
    if Pending(a, i.rt) != Pending(b, i.rt) {
      assert i.rt == 0;
      PastMatters(i, a[i.rs], a[i.rt], a[NextPCReg], a[HiReg], a[LoReg], Pending(a, 0), Pending(b, 0), m, resident);
    }
  }

  /** The old value of the load target matters to a load only. */
  lemma {:induction false} PastMatters(i: Instruction, rs: word, rt: word, next: word, hi: word, lo: word,
                                       past: word, past': word, m: Mem, resident: set<nat>)
    requires i.rt == 0
    ensures SameEffects(ExecuteOn(i, rs, rt, next, hi, lo, past, m, resident),
                        ExecuteOn(i, rs, rt, next, hi, lo, past', m, resident))
  {
  }

  lemma {:induction false} SameRegsWrites(a: Regs, b: Regs, writes: seq<(nat, word)>)
    requires SameRegs(a, b) && forall k :: 0 <= k < |writes| ==> writes[k].0 <= LoReg
    ensures SameRegs(Apply(a, writes), Apply(b, writes))
    decreases |writes|
  {
    if writes != [] {
      SameRegsWrites(a[writes[0].0 := writes[0].1], b[writes[0].0 := writes[0].1], writes[1..]);
    }
  }

  lemma {:induction false} SameRegsConclude(a: Regs, b: Regs, e: Effect, e': Effect)
    requires ValidRegs(a) && ValidRegs(b) && SameRegs(a, b) && SameEffects(e, e')
    requires (e.Ok? ==> GoodEffect(e)) && (e'.Ok? ==> GoodEffect(e'))
    ensures SameOutcome(Conclude(a, e), Conclude(b, e'))
  {
    if e.Ok? {
      WritesKeep(a, e.writes);
      WritesKeep(b, e.writes);
      SameRegsWrites(a, b, e.writes);
    }
  }

  lemma {:induction false} SameRegsEnded(a: Regs, b: Regs, i: Instruction, m: Mem, resident: set<nat>)
    requires ValidRegs(a) && ValidRegs(b) && SameRegs(a, b)
    ensures SameOutcome(Ended(a, i, m, resident), Ended(b, i, m, resident))
  {
    ExecuteGood(a, i, m, resident);
    ExecuteGood(b, i, m, resident);
    SameRegsEffect(a, b, i, m, resident);
    SameRegsConclude(a, b, Execute(a, i, m, resident), Execute(b, i, m, resident));
  }

  lemma {:induction false} SameRegsStep(a: Regs, b: Regs, m: Mem, resident: set<nat>)
    requires ValidRegs(a) && ValidRegs(b) && SameRegs(a, b)
    ensures SameOutcome(OneInstruction(a, m, resident), OneInstruction(b, m, resident))
  {
    match ReadMem(m, resident, a[PCReg], 4)
    case Got(raw) => SameRegsEnded(a, b, DecodeInstruction(raw), m, resident);
    case ReadFailed(e) => SameRegsConclude(a, b, Raise(e, a[PCReg]), Raise(e, b[PCReg]));
  }

  lemma {:induction false} SameOutcomeTrans(a: Cpu.Outcome, b: Cpu.Outcome, c: Cpu.Outcome)
    requires SameOutcome(a, b) && SameOutcome(b, c)
    ensures SameOutcome(a, c)
  {
  }

  /* ------------------------------ enough pages resident ------------------------------ */

  predicate IsPage(m: Mem, p: nat) { p < m.numPages }

  function Pages(m: Mem): (s: set<nat>) { set p: nat | p < m.numPages && IsPage(m, p) }

  lemma {:induction false} ReadResident(m: Mem, resident: set<nat>, addr: word, size: AccessSize)
    ensures ReadMem(m, resident, addr, size) == ReadFailed(PageFaultException)
         || ReadMem(m, resident, addr, size) == ReadMem(m, Pages(m), addr, size)
    ensures ReadMem(m, Pages(m), addr, size) != ReadFailed(PageFaultException)
  {
  }

  lemma {:induction false} WriteResident(m: Mem, resident: set<nat>, addr: word, size: AccessSize, v: word)
    ensures WriteMem(m, resident, addr, size, v) == WriteFailed(PageFaultException)
         || WriteMem(m, resident, addr, size, v) == WriteMem(m, Pages(m), addr, size, v)
    ensures WriteMem(m, Pages(m), addr, size, v) != WriteFailed(PageFaultException)
  {
  }

  predicate PageFaults(e: Effect) { e.Raise? && e.which == PageFaultException }

  lemma {:induction false} StoreResident(op: StoreOp, addr: word, rt: word, pc4: word, m: Mem, resident: set<nat>)
    ensures var e, all := ExecuteStore(op, addr, rt, pc4, m, resident), ExecuteStore(op, addr, rt, pc4, m, Pages(m));
      (PageFaults(e) || e == all) && !PageFaults(all)
  {
    ReadResident(m, resident, addr, 4);
    var there := ReadMem(m, Pages(m), addr, 4);
    var old_: word := if there.Got? then there.value else 0;
    var v := if op.SWL? || !op.SWR? then rt else Or(old_ % 0x100_0000, ShiftLeft(rt, 24));
    WriteResident(m, resident, addr, StoreSize(op), v);
  }

  lemma {:induction false} LoadResident(
    op: LoadOp, addr: word, past: word, rt: RegNo, pc4: word, m: Mem, resident: set<nat>)
    ensures var e := ExecuteLoad(op, addr, past, rt, pc4, m, resident);
      var all := ExecuteLoad(op, addr, past, rt, pc4, m, Pages(m));
      (PageFaults(e) || e == all) && !PageFaults(all)
  {
    ReadResident(m, resident, addr, LoadSize(op));
  }

  lemma {:induction false} LoadEffect(r: Regs, i: Instruction, m: Mem, resident: set<nat>)
    requires i.op.Ld?
    ensures Execute(r, i, m, resident)
      == ExecuteLoad(i.op.ld, Address(r, i), Pending(r, i.rt), i.rt, Pc4(r), m, resident)
  {
  }

  lemma {:induction false} EffectResident(r: Regs, i: Instruction, m: Mem, resident: set<nat>)
    ensures var e, all := Execute(r, i, m, resident), Execute(r, i, m, Pages(m));
      (PageFaults(e) || e == all) && !PageFaults(all)
  {
    if i.op.Ld? {
      LoadEffect(r, i, m, resident);
      LoadEffect(r, i, m, Pages(m));
      LoadResident(i.op.ld, Address(r, i), Pending(r, i.rt), i.rt, Pc4(r), m, resident);
    } else if i.op.St? {
      StoreEffect(r, i, m, resident);
      StoreEffect(r, i, m, Pages(m));
      StoreResident(i.op.st, Address(r, i), r[i.rt], Pc4(r), m, resident);
    } else {
      NoMemoryEffect(r, i, m, resident);
      NoMemoryEffect(r, i, m, Pages(m));
    }
  }

  /** Other instructions do not look at memory. */
  lemma {:induction false} NoMemoryEffect(r: Regs, i: Instruction, m: Mem, resident: set<nat>)
    requires !i.op.Ld? && !i.op.St?
    ensures var e, e0 := Execute(r, i, m, resident), Execute(r, i, NoMemory, {});
      !PageFaults(e) && (if e.Ok? then e0.Ok? && e == e0.(mem := m) else e == e0)
  {
  }

  /** The outcome of an attempt that does not fault is that with every page resident; and with
      every page resident there is no fault. */
  lemma {:induction false} EnoughResident(r: Regs, m: Mem, resident: set<nat>)
    requires ValidRegs(r)
    ensures OneInstruction(r, m, resident).Faulted? || OneInstruction(r, m, resident) == OneInstruction(r, m, Pages(m))
    ensures !OneInstruction(r, m, Pages(m)).Faulted?
  {
    ReadResident(m, resident, r[PCReg], 4);
    match ReadMem(m, Pages(m), r[PCReg], 4)
    case Got(raw) => EffectResident(r, DecodeInstruction(raw), m, resident);
    case ReadFailed(_) =>
  }

  /* ------------------------------ the flat machine and the paged one ------------------------------ */

  /** n instructions on flat memory, unless one traps or stops the machine. */
  datatype Flat = Flat(regs: Regs, mem: Mem) | Over(end: Cpu.Outcome)

  function FlatInstruction(s: Flat): (s': Flat) {
    if s.Over? || !ValidRegs(s.regs) then s
    else
      var o := OneInstruction(s.regs, s.mem, Pages(s.mem));
      if o.Completed? then Flat(o.regs, o.mem) else Over(o)
  }

  /** The instruction under way restarts precisely, should it fault. */
  ghost predicate Restartable(r: Regs, m: Mem) {
    r[LoadReg] != 0 && Current(r, m).Some? ==> RestartsPrecisely(Current(r, m).value, r[LoadReg])
  }

  /** The paged machine's registers p while the flat machine's are f: the same, or the same with
      the pending load applied early by faults of the instruction under way. */
  ghost predicate Behind(f: Regs, p: Regs, m: Mem) {
    && ValidRegs(f) && ValidRegs(p)
    && (SameRegs(f, p) || exists r: Regs :: SameRegs(f, r) && Flushed(r, p) && Restartable(r, m))
  }

  lemma {:induction false} RestartedSame(r: Regs, p: Regs, m: Mem, resident: set<nat>)
    requires Flushed(r, p) && Restartable(r, m)
    ensures SameOutcome(OneInstruction(r, m, resident), OneInstruction(p, m, resident))
  {
    match ReadMem(m, resident, r[PCReg], 4)
    case ReadFailed(e) =>
    case Got(raw) =>
      var i := DecodeInstruction(raw);
      assert Current(r, m) == Some(i);
      if r[LoadReg] == 0 {
        RestartedExecute(r, p, i, m, resident);
      }
  }

  /** An attempt of the paged machine that does not fault is the next step of the flat one. */
  lemma {:induction false} AttemptGoesOn(f: Regs, p: Regs, m: Mem, resident: set<nat>)
    requires Behind(f, p, m) && !OneInstruction(p, m, resident).Faulted?
    ensures SameOutcome(OneInstruction(f, m, Pages(m)), OneInstruction(p, m, resident))
  {
    var r: Regs := p;
    if !SameRegs(f, p) {
      r :| SameRegs(f, r) && Flushed(r, p) && Restartable(r, m);
      RestartedSame(r, p, m, resident);
    }
    assert ValidRegs(r);
    SameRegsStep(f, r, m, resident);
    var a, b, c := OneInstruction(f, m, resident), OneInstruction(r, m, resident), OneInstruction(p, m, resident);
    if r != p { SameOutcomeTrans(a, b, c); }
    EnoughResident(f, m, resident);
  }

  /** One that faults leaves the flat machine where it is. */
  lemma {:induction false} AttemptFaults(f: Regs, p: Regs, m: Mem, resident: set<nat>)
    requires Behind(f, p, m) && OneInstruction(p, m, resident).Faulted? && Restartable(p, m)
    ensures Behind(f, OneInstruction(p, m, resident).regs, m)
  {
    var g := OneInstruction(p, m, resident).regs;
    FaultIsFlush(p, m, resident);
    if SameRegs(f, p) {
      assert SameRegs(f, p) && Flushed(p, g) && Restartable(p, m);
    } else {
      var r: Regs :| SameRegs(f, r) && Flushed(r, p) && Restartable(r, m);
      FlushedAgain(r, p, g);
      assert SameRegs(f, r) && Flushed(r, g) && Restartable(r, m);
    }
  }

  /* ------------------------------ whole programs ------------------------------ */

  /** One attempt. */
  function Try(p: Regs, m: Mem, resident: set<nat>): (o: Cpu.Outcome) {
    if ValidRegs(p) then OneInstruction(p, m, resident) else Stopped
  }

  type Attempt = (Regs, Mem, set<nat>) -> Cpu.Outcome

  const Paged: Attempt := (p: Regs, m: Mem, resident: set<nat>) => Try(p, m, resident)

  /** The paged machine makes one attempt after another, each with some pages resident, and each
      of which completes or faults. */
  ghost predicate RunsTo(step: Attempt, p: Regs, m: Mem, rs: seq<set<nat>>, p': Regs, m': Mem)
    decreases |rs|
  {
    if rs == [] then p' == p && m' == m
    else
      match step(p, m, rs[0])
      case Completed(q, m1) => RunsTo(step, q, m1, rs[1..], p', m')
      case Faulted(q) => RunsTo(step, q, m, rs[1..], p', m')
      case _ => false
  }

  /** Every instruction that faults on the way restarts precisely. */
  ghost predicate FaultsRestart(step: Attempt, p: Regs, m: Mem, rs: seq<set<nat>>)
    decreases |rs|
  {
    if rs == [] then true
    else
      match step(p, m, rs[0])
      case Completed(q, m1) => FaultsRestart(step, q, m1, rs[1..])
      case Faulted(q) => Restartable(p, m) && FaultsRestart(step, q, m, rs[1..])
      case _ => true
  }

  /** How many instructions complete. */
  ghost function Completions(step: Attempt, p: Regs, m: Mem, rs: seq<set<nat>>): (n: nat)
    decreases |rs|
  {
    if rs == [] then 0
    else
      match step(p, m, rs[0])
      case Completed(q, m1) => 1 + Completions(step, q, m1, rs[1..])
      case Faulted(q) => Completions(step, q, m, rs[1..])
      case _ => 0
  }

  lemma {:induction false} CompletedValid(r: Regs, m: Mem, resident: set<nat>)
    requires ValidRegs(r) && OneInstruction(r, m, resident).Completed?
    ensures ValidRegs(OneInstruction(r, m, resident).regs)
  {
    match ReadMem(m, resident, r[PCReg], 4)
    case Got(raw) =>
      var i := DecodeInstruction(raw);
      ExecuteGood(r, i, m, resident);
      WritesKeep(r, Execute(r, i, m, resident).writes);
  }

  /** The two kinds of attempt, as steps of the flat machine. */
  lemma {:induction false} CompletedStep(f: Regs, p: Regs, m: Mem, resident: set<nat>)
    requires Behind(f, p, m) && OneInstruction(p, m, resident).Completed?
    ensures var s, o := FlatInstruction(Flat(f, m)), OneInstruction(p, m, resident);
      s.Flat? && s.mem == o.mem && Behind(s.regs, o.regs, o.mem)
  {
    AttemptGoesOn(f, p, m, resident);
    CompletedValid(f, m, Pages(m));
    CompletedValid(p, m, resident);
  }

  type Relation = (Regs, Regs, Mem) -> bool
  type Machine = Flat -> Flat

  ghost function Steps(flat: Machine, s: Flat, n: nat): (s': Flat)
    decreases n
  {
    if n == 0 then s else Steps(flat, flat(s), n - 1)
  }

  /** An attempt that completes is a step of the flat machine, one that faults leaves it alone. */
  ghost predicate Matches(step: Attempt, flat: Machine, rel: Relation, f: Regs, p: Regs, m: Mem, res: set<nat>) {
    var s, o := flat(Flat(f, m)), step(p, m, res);
    && (o.Completed? ==> s.Flat? && s.mem == o.mem && rel(s.regs, o.regs, o.mem))
    && (o.Faulted? && Restartable(p, m) ==> rel(f, o.regs, m))
  }

  ghost predicate Simulates(step: Attempt, flat: Machine, rel: Relation) {
    forall f: Regs, p: Regs, m: Mem, res: set<nat> {:trigger Matches(step, flat, rel, f, p, m, res)} ::
      rel(f, p, m) ==> Matches(step, flat, rel, f, p, m, res)
  }

  lemma {:induction false} Simulation(step: Attempt, flat: Machine, rel: Relation,
                                      f: Regs, p: Regs, m: Mem, rs: seq<set<nat>>, p': Regs, m': Mem)
    requires Simulates(step, flat, rel) && rel(f, p, m) && RunsTo(step, p, m, rs, p', m')
    requires FaultsRestart(step, p, m, rs)
    ensures var s := Steps(flat, Flat(f, m), Completions(step, p, m, rs));
      s.Flat? && s.mem == m' && rel(s.regs, p', m')
    decreases |rs|
  {
    if rs != [] {
      var o := step(p, m, rs[0]);
      assert Matches(step, flat, rel, f, p, m, rs[0]);
      if o.Faulted? {
        Simulation(step, flat, rel, f, o.regs, m, rs[1..], p', m');
      } else {
        var s := flat(Flat(f, m));
        Simulation(step, flat, rel, s.regs, o.regs, o.mem, rs[1..], p', m');
      }
    }
  }

  const FlatCpu: Machine := (s: Flat) => FlatInstruction(s)

  /** n instructions of the flat machine. */
  ghost function FlatProgram(s: Flat, n: nat): (s': Flat) { Steps(FlatCpu, s, n) }

  lemma {:induction false} OneCompleted(f: Regs, p: Regs, m: Mem, res: set<nat>, o: Cpu.Outcome, s: Flat)
    requires Behind(f, p, m) && o == Paged(p, m, res) && o.Completed? && s == FlatCpu(Flat(f, m))
    ensures s.Flat? && s.mem == o.mem && Behind(s.regs, o.regs, o.mem)
  {
    CompletedStep(f, p, m, res);
  }

  lemma {:induction false} OneFaulted(f: Regs, p: Regs, m: Mem, res: set<nat>, o: Cpu.Outcome)
    requires Behind(f, p, m) && o == Paged(p, m, res) && o.Faulted? && Restartable(p, m)
    ensures Behind(f, o.regs, m)
  {
    AttemptFaults(f, p, m, res);
  }

  ghost const StaysBehind: Relation := (f: Regs, p: Regs, m: Mem) => Behind(f, p, m)

  lemma {:induction false} PagedMatches(f: Regs, p: Regs, m: Mem, res: set<nat>)
    requires Behind(f, p, m)
    ensures Matches(Paged, FlatCpu, StaysBehind, f, p, m, res)
  {
    var s, o := FlatCpu(Flat(f, m)), Paged(p, m, res);
    if o.Completed? { OneCompleted(f, p, m, res, o, s); }
    if o.Faulted? && Restartable(p, m) { OneFaulted(f, p, m, res, o); }
  }

  lemma {:induction false} PagedSimulates()
    ensures Simulates(Paged, FlatCpu, StaysBehind)
  {
    forall f: Regs, p: Regs, m: Mem, res: set<nat> | StaysBehind(f, p, m)
      ensures Matches(Paged, FlatCpu, StaysBehind, f, p, m, res)
    {
      PagedMatches(f, p, m, res);
    }
  }

  /** Paging does not show in a program, up to the delay slot of instructions that fault: after any
      attempts, the flat machine has executed as many instructions as completed, memory is the
      same, and so are the registers but for a pending load applied early. */
  lemma {:induction false} PagedIsFlat(f: Regs, p: Regs, m: Mem, rs: seq<set<nat>>, p': Regs, m': Mem)
    requires Behind(f, p, m) && RunsTo(Paged, p, m, rs, p', m') && FaultsRestart(Paged, p, m, rs)
    ensures var s := FlatProgram(Flat(f, m), Completions(Paged, p, m, rs));
      s.Flat? && s.mem == m' && Behind(s.regs, p', m')
  {
    PagedSimulates();
    Simulation(Paged, FlatCpu, StaysBehind, f, p, m, rs, p', m');
  }

  /** And the program ends on the paged machine as on the flat one. */
  lemma {:induction false} PagedEnds(f: Regs, p: Regs, m: Mem, resident: set<nat>)
    requires Behind(f, p, m) && (OneInstruction(p, m, resident).Trapped? || OneInstruction(p, m, resident).Stopped?)
    ensures var s := FlatInstruction(Flat(f, m)); s.Over? && SameOutcome(s.end, OneInstruction(p, m, resident))
  {
    AttemptGoesOn(f, p, m, resident);
  }
}
