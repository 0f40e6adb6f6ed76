/** User programs on the paged machine: Machine::Run with every fetch, load and store going through
    the address space, page faults handled and instructions restarted. */
module UserPrograms {
  import opened Wrappers
  import opened Bytes
  import opened Paging
  import opened UserMemory
  import opened Cpu
  import opened DelaySlots
  import opened Programs
  import opened AddrSpaces

  /** The pages that translate. */
  ghost function Valids(s: VM): (r: set<nat>) { set p: nat | p < |s.pt| && s.pt[p].valid }

  /** The flat memory of a program of n pages. */
  ghost function MemOf(flat: seq<byte>, n: nat): (m: Mem)
    requires |flat| == n * PageSize
  {
    Memory(flat, n)
  }

  /* ------------------------------ one access ------------------------------ */

  lemma {:induction false} GotAgrees(s0: VM, s1: VM, exe: Executable, addr: word, size: AccessSize, value: int,
                                     flat: seq<byte>)
    requires Inv(s0) && Inv(s1) && !BadAddress(addr, size, |s0.pt|) && Off(addr) + size <= PageSize
    requires s0.pt[Vpn(addr)].valid && s1 == Touch(s0, Vpn(addr), false) && Agrees(s1, exe, flat)
    requires value == Decode(Contents(s1, Vpn(addr))[Off(addr)..Off(addr) + size])
    ensures Agrees(s0, exe, flat) && Valids(s1) == Valids(s0)
    ensures ReadMem(MemOf(flat, |s0.pt|), Valids(s0), addr, size) == Got(W32(value))
  {
    InRange(addr, size, |s0.pt|);
    TouchInv(s0, Vpn(addr), false);
    ReadAgrees(s1, exe, flat, Vpn(addr), Off(addr), size);
  }

  lemma {:induction false} PutAgrees(s0: VM, s1: VM, exe: Executable, addr: word, size: AccessSize, value: word,
                                     after: seq<byte>)
    requires Inv(s0) && Inv(s1) && !BadAddress(addr, size, |s0.pt|) && Off(addr) + size <= PageSize
    requires s0.pt[Vpn(addr)].valid && Agrees(s1, exe, after)
    requires s1 == Poke(Touch(s0, Vpn(addr), true), Vpn(addr), Off(addr), Encode(value, size))
    ensures addr + size <= |after|
    ensures var flat := Splice(after, addr, Contents(s0, Vpn(addr))[Off(addr)..Off(addr) + size]);
      && Agrees(s0, exe, flat)
      && WriteMem(MemOf(flat, |s0.pt|), Valids(s0), addr, size, value) == Wrote(MemOf(after, |s0.pt|))
  {
    StoreAgrees(s0, s0, s1, exe, addr, size, value, after);
    WordItself(addr);
    var flat := Splice(after, addr, Contents(s0, Vpn(addr))[Off(addr)..Off(addr) + size]);
    WriteLands(flat, |s0.pt|, Valids(s0), addr, size, value, after);
  }

  lemma {:induction false} WordItself(addr: word)
    ensures U32(addr) == addr
  {}

  lemma {:induction false} WriteLands(flat: seq<byte>, n: nat, resident: set<nat>, addr: word, size: AccessSize,
                                      value: word, after: seq<byte>)
    requires |flat| == n * PageSize && |after| == n * PageSize && !BadAddress(addr, size, n) && Vpn(addr) in resident
    requires FlatStep(flat, n, Access.Store(addr, size, value)).1 == after
    ensures WriteMem(MemOf(flat, n), resident, addr, size, value) == Wrote(MemOf(after, n))
  {}

  /** A read by the machine, with the page-fault handler. */
  method Get(space: AddrSpace, addr: word, size: AccessSize) returns (res: ReadResult)
    requires space.Valid()
    modifies space`clockHand, space.pageTable, space.backing.file, space.memmanage.bmap.words, space.machine.mainMemory
    ensures space.Valid()
    ensures res.Got? ==> Valids(space.State()) == old(Valids(space.State()))
    ensures forall flat :: Agrees(space.State(), space.exe, flat) ==>
      && old(Agrees(space.State(), space.exe, flat)) && |flat| == space.numPages * PageSize
      && ReadMem(MemOf(flat, space.numPages), old(Valids(space.State())), addr, size) == res
  {
    ghost var s0 := space.State();
    var exception, value := space.ReadMem(addr, size);
    ghost var s1 := space.State();
    if exception.NoException? {
      res := Got(W32(value));
      forall flat | Agrees(s1, space.exe, flat)
        ensures Agrees(s0, space.exe, flat) && Valids(s1) == Valids(s0)
        ensures ReadMem(MemOf(flat, |s0.pt|), Valids(s0), addr, size) == res
      {
        GotAgrees(s0, s1, space.exe, addr, size, value, flat);
      }
      ghost var flat := SomeFlat(s1, space.exe);
      assert Valids(s1) == Valids(s0);
    } else {
      res := ReadFailed(exception);
    }
  }

  /** What a store overwrote: the bytes at an address, or nothing. */
  datatype Undo = Nothing | Bytes(at: nat, bytes: seq<byte>)

  ghost predicate CanUndo(u: Undo, flat: seq<byte>) { u.Bytes? ==> u.at + |u.bytes| <= |flat| }

  /** The flat memory before, from the one after. */
  ghost function Undone(u: Undo, flat: seq<byte>): (r: seq<byte>)
    requires CanUndo(u, flat)
    ensures |r| == |flat|
  {
    if u.Nothing? then flat else Splice(flat, u.at, u.bytes)
  }

  /** A write by the machine, with the page-fault handler. */
  method Put(space: AddrSpace, addr: word, size: AccessSize, value: word)
    returns (exception: ExceptionType, ghost u: Undo)
    requires space.Valid()
    modifies space`clockHand, space.pageTable, space.backing.file, space.memmanage.bmap.words, space.machine.mainMemory
    ensures space.Valid() && (!exception.NoException? ==> u == Nothing)
    ensures forall after :: Agrees(space.State(), space.exe, after) ==>
      && |after| == space.numPages * PageSize && CanUndo(u, after)
      && old(Agrees(space.State(), space.exe, Undone(u, after)))
      && WriteMem(MemOf(Undone(u, after), space.numPages), old(Valids(space.State())), addr, size, value)
         == if exception.NoException? then Wrote(MemOf(after, space.numPages)) else WriteFailed(exception)
  {
    ghost var s0 := space.State();
    exception := space.WriteMem(addr, size, value);
    ghost var s1 := space.State();
    u := Nothing;
    if exception.NoException? {
      u := Bytes(addr, Contents(s0, Vpn(addr))[Off(addr)..Off(addr) + size]);
      PutDone(s0, s1, space.exe, addr, size, value, u);
    } else {
      PutFailed(s0, s1, space.exe, addr, size, value, exception);
    }
  }

  /** What the flat arrays that fit afterwards say of the state before a write. */
  ghost predicate WasPut(s0: VM, s1: VM, exe: Executable, addr: word, size: AccessSize, value: word, u: Undo,
                         res: ExceptionType)
    requires Inv(s0) && Inv(s1) && |s1.pt| == |s0.pt|
  {
    forall after :: Agrees(s1, exe, after) ==>
      && |after| == |s0.pt| * PageSize && CanUndo(u, after) && Agrees(s0, exe, Undone(u, after))
      && WriteMem(MemOf(Undone(u, after), |s0.pt|), Valids(s0), addr, size, value)
         == if res.NoException? then Wrote(MemOf(after, |s0.pt|)) else WriteFailed(res)
  }

  lemma {:induction false} PutDone(s0: VM, s1: VM, exe: Executable, addr: word, size: AccessSize, value: word, u: Undo)
    requires Inv(s0) && Inv(s1) && !BadAddress(addr, size, |s0.pt|) && Off(addr) + size <= PageSize
    requires s0.pt[Vpn(addr)].valid
    requires s1 == Poke(Touch(s0, Vpn(addr), true), Vpn(addr), Off(addr), Encode(value, size))
    requires u == Bytes(addr, Contents(s0, Vpn(addr))[Off(addr)..Off(addr) + size])
    ensures WasPut(s0, s1, exe, addr, size, value, u, NoException)
  {
    forall after | Agrees(s1, exe, after)
      ensures CanUndo(u, after) && Agrees(s0, exe, Undone(u, after))
      ensures WriteMem(MemOf(Undone(u, after), |s0.pt|), Valids(s0), addr, size, value) == Wrote(MemOf(after, |s0.pt|))
    {
      PutAgrees(s0, s1, exe, addr, size, value, after);
    }
  }

  lemma {:induction false} PutFailed(s0: VM, s1: VM, exe: Executable, addr: word, size: AccessSize, value: word,
                                     res: ExceptionType)
    requires Inv(s0) && Inv(s1) && |s1.pt| == |s0.pt| && (res.AddressErrorException? || res.PageFaultException?)
    requires res.AddressErrorException? <==> BadAddress(addr, size, |s0.pt|)
    requires res.AddressErrorException? ==> s1 == s0
    requires res.PageFaultException? ==> !s0.pt[Vpn(addr)].valid && PagedIn(s0, s1, exe, Vpn(addr))
    ensures WasPut(s0, s1, exe, addr, size, value, Nothing, res)
  {
    forall after | Agrees(s1, exe, after) ensures Agrees(s0, exe, after) {
      if res.PageFaultException? { PagedInAgrees(s0, s1, exe, Vpn(addr), after); }
    }
  }

  /* ------------------------------ one instruction ------------------------------ */

  /** The effect e with memory m, if it completes. */
  function WithMem(e: Effect, m: Mem): Effect { if e.Ok? then e.(mem := m) else e }

  /** Loads, on the address space. The memory in the effect returned is a placeholder. */
  method DoLoad(space: AddrSpace, op: LoadOp, addr: word, past: word, rt: RegNo, pc4: word) returns (e: Effect)
    requires space.Valid()
    modifies space`clockHand, space.pageTable, space.backing.file, space.memmanage.bmap.words, space.machine.mainMemory
    ensures space.Valid() && (e.Ok? ==> GoodEffect(e))
    ensures forall flat :: Agrees(space.State(), space.exe, flat) ==>
      && old(Agrees(space.State(), space.exe, flat)) && |flat| == space.numPages * PageSize
      && ExecuteLoad(op, addr, past, rt, pc4, MemOf(flat, space.numPages), old(Valids(space.State())))
         == WithMem(e, MemOf(flat, space.numPages))
  {
    if (op.LWL? || op.LWR?) && addr % 4 != 0 {
      return AssertFailed;
    }
    var res := Get(space, addr, LoadSize(op));
    match res {
      case Got(v) => e := Ok([], rt, LoadedValue(op, v, past), pc4, NoMemory);
      case ReadFailed(x) => e := Raise(x, addr);
    }
  }

  method DoStore(space: AddrSpace, op: StoreOp, addr: word, rt: word, pc4: word) returns (e: Effect, ghost u: Undo)
    requires space.Valid()
    modifies space`clockHand, space.pageTable, space.backing.file, space.memmanage.bmap.words, space.machine.mainMemory
    ensures space.Valid() && (if e.Ok? then GoodEffect(e) else u == Nothing)
    ensures forall after :: Agrees(space.State(), space.exe, after) ==>
      && |after| == space.numPages * PageSize && CanUndo(u, after)
      && old(Agrees(space.State(), space.exe, Undone(u, after)))
      && ExecuteStore(op, addr, rt, pc4, MemOf(Undone(u, after), space.numPages), old(Valids(space.State())))
         == WithMem(e, MemOf(after, space.numPages))
  {
    u := Nothing;
    var value := rt;
    if op.SWL? || op.SWR? {
      if addr % 4 != 0 {
        return AssertFailed, u;
      }
      var there := Get(space, addr, 4);
      if there.ReadFailed? {
        return Raise(there.e, addr), u;
      }
      if op.SWR? {
        value := Or(there.value % 0x100_0000, ShiftLeft(rt, 24));
      }
    }
    var exception;
    exception, u := Put(space, addr, StoreSize(op), value);
    e := if exception.NoException? then Ok([], 0, 0, pc4, NoMemory) else Raise(exception, addr);
  }

  method DoExecute(space: AddrSpace, r: Regs, i: Instruction) returns (e: Effect, ghost u: Undo)
    requires space.Valid() && ValidRegs(r)
    modifies space`clockHand, space.pageTable, space.backing.file, space.memmanage.bmap.words, space.machine.mainMemory
    ensures space.Valid() && (if e.Ok? then GoodEffect(e) else u == Nothing)
    ensures forall after :: Agrees(space.State(), space.exe, after) ==>
      && |after| == space.numPages * PageSize && CanUndo(u, after)
      && old(Agrees(space.State(), space.exe, Undone(u, after)))
      && Execute(r, i, MemOf(Undone(u, after), space.numPages), old(Valids(space.State())))
         == WithMem(e, MemOf(after, space.numPages))
  {
    u := Nothing;
    ghost var resident := Valids(space.State());
    if i.op.Ld? {
      e := DoLoad(space, i.op.ld, Address(r, i), Pending(r, i.rt), i.rt, Pc4(r));
      forall m: Mem ensures Execute(r, i, m, resident)
        == ExecuteLoad(i.op.ld, Address(r, i), Pending(r, i.rt), i.rt, Pc4(r), m, resident)
      {
        LoadEffect(r, i, m, resident);
      }
    } else if i.op.St? {
      e, u := DoStore(space, i.op.st, Address(r, i), r[i.rt], Pc4(r));
      forall m: Mem ensures Execute(r, i, m, resident)
        == ExecuteStore(i.op.st, Address(r, i), r[i.rt], Pc4(r), m, resident)
      {
        StoreEffect(r, i, m, resident);
      }
    } else {
      e := Execute(r, i, NoMemory, {});
      ExecuteGood(r, i, NoMemory, {});
      forall m: Mem ensures Execute(r, i, m, resident) == WithMem(e, m) {
        NoMemoryEffect(r, i, m, resident);
      }
    }
  }

  /** How an attempt ends, without the memory. */
  datatype End = Went(regs: Regs) | FaultTaken(regs: Regs) | TrapTaken(which: ExceptionType, regs: Regs) | Halted

  function EndOf(o: Cpu.Outcome): End {
    match o
    case Completed(r, _) => Went(r)
    case Faulted(r) => FaultTaken(r)
    case Trapped(x, r) => TrapTaken(x, r)
    case Stopped => Halted
  }

  ghost predicate Is(o: Cpu.Outcome, e: End, m: Mem) { EndOf(o) == e && (o.Completed? ==> o.mem == m) }

  lemma {:induction false} ConcludeMem(r: Regs, e: Effect, m: Mem)
    requires ValidRegs(r) && (e.Ok? ==> GoodEffect(e))
    ensures WithMem(e, m).Ok? ==> GoodEffect(WithMem(e, m))
    ensures Is(Conclude(r, WithMem(e, m)), EndOf(Conclude(r, e)), m)
  {
  }

  lemma {:induction false} ConcludeValid(r: Regs, e: Effect)
    requires ValidRegs(r) && (e.Ok? ==> GoodEffect(e))
    ensures var o := Conclude(r, e); o.Completed? || o.Faulted? ==> ValidRegs(o.regs)
  {
    if e.Ok? { WritesKeep(r, e.writes); }
  }

  /** One attempt at the instruction that the PC points at, as a step of `Cpu` on flat memory. */
  method Attempt(space: AddrSpace, r: Regs) returns (end: End, ghost u: Undo)
    requires space.Valid() && ValidRegs(r)
    modifies space`clockHand, space.pageTable, space.backing.file, space.memmanage.bmap.words, space.machine.mainMemory
    ensures space.Valid() && (!end.Went? ==> u == Nothing) && (end.Went? || end.FaultTaken? ==> ValidRegs(end.regs))
    ensures forall after :: Agrees(space.State(), space.exe, after) ==>
      && |after| == space.numPages * PageSize && CanUndo(u, after)
      && old(Agrees(space.State(), space.exe, Undone(u, after)))
      && Is(OneInstruction(r, MemOf(Undone(u, after), space.numPages), old(Valids(space.State()))), end,
            MemOf(after, space.numPages))
  {
    ghost var resident := Valids(space.State());
    u := Nothing;
    var fetched := Get(space, r[PCReg], 4);
    if fetched.ReadFailed? {
      end := EndOf(Conclude(r, Raise(fetched.e, r[PCReg])));
      ConcludeValid(r, Raise(fetched.e, r[PCReg]));
      return;
    }
    var i := DecodeInstruction(fetched.value);
    var e;
    e, u := DoExecute(space, r, i);
    end := EndOf(Conclude(r, e));
    ConcludeValid(r, e);
    forall m: Mem ensures Is(Conclude(r, WithMem(e, m)), end, m) { ConcludeMem(r, e, m); }
  }

  /* ------------------------------ a whole program ------------------------------ */

  /** One more attempt in front of a run. */
  lemma {:induction false} RunFurther(r: Regs, m: Mem, resident: set<nat>, q: Regs, m1: Mem, rs: seq<set<nat>>,
                                      r': Regs, m': Mem)
    requires ValidRegs(r) && RunsTo(Paged, q, m1, rs, r', m')
    requires Is(OneInstruction(r, m, resident), Went(q), m1)
          || (Is(OneInstruction(r, m, resident), FaultTaken(q), m1) && m1 == m)
    ensures RunsTo(Paged, r, m, [resident] + rs, r', m')
  {
    assert ([resident] + rs)[1..] == rs;
  }

  /** Machine::Run for some number of attempts. `rs` are the pages resident at each, `flat` and
      `flat'` the flat memory at the start and at the end; `last` says how the program ended, if
      it did, with `lastResident` resident then. */
  method Run(space: AddrSpace, r: Regs, attempts: nat)
    returns (r': Regs, last: Option<End>, ghost rs: seq<set<nat>>, ghost flat: seq<byte>, ghost flat': seq<byte>,
             ghost lastResident: set<nat>)
    requires space.Valid() && ValidRegs(r)
    modifies space`clockHand, space.pageTable, space.backing.file, space.memmanage.bmap.words, space.machine.mainMemory
    ensures space.Valid() && ValidRegs(r')
    ensures |flat| == |flat'| == space.numPages * PageSize
    ensures old(Agrees(space.State(), space.exe, flat)) && Agrees(space.State(), space.exe, flat')
    ensures RunsTo(Paged, r, MemOf(flat, space.numPages), rs, r', MemOf(flat', space.numPages))
    ensures if last.Some? then |rs| < attempts else |rs| == attempts
    ensures last.Some? ==>
      && (last.value.TrapTaken? || last.value.Halted?)
      && EndOf(OneInstruction(r', MemOf(flat', space.numPages), lastResident)) == last.value
    decreases attempts
  {
    r', last, rs, lastResident := r, None, [], {};
    if attempts == 0 {
      flat' := SomeFlat(space.State(), space.exe);
      flat := flat';
      return;
    }
    ghost var resident, n := Valids(space.State()), space.numPages;
    var end; ghost var u;
    end, u := Attempt(space, r);
    if end.Went? || end.FaultTaken? {
      ghost var rest;
      r', last, rest, flat, flat', lastResident := Run(space, end.regs, attempts - 1);
      RunFurther(r, MemOf(Undone(u, flat), n), resident, end.regs, MemOf(flat, n), rest, r', MemOf(flat', n));
      rs, flat := [resident] + rest, Undone(u, flat);
    } else {
      flat' := SomeFlat(space.State(), space.exe);
      flat, last, lastResident := flat', Some(end), resident;
    }
  }

  lemma {:induction false} SelfBehind(r: Regs, m: Mem)
    requires ValidRegs(r)
    ensures Behind(r, r, m)
  {
  }

  /** A whole user program on the paged machine -- fetch, load and store through the page table,
      with faults, evictions and restarts -- does what it does on flat memory: after any number of
      attempts there is a flat memory at the start on which the flat machine, having executed as
      many instructions as completed, has the same memory and registers, up to a load pending in
      the instruction under way. And it ends alike. The one condition is that the instructions
      that fault restart precisely, which RestartIff decides. */
  method RunProgram(space: AddrSpace, r: Regs, attempts: nat)
    returns (r': Regs, last: Option<End>, ghost rs: seq<set<nat>>, ghost flat: seq<byte>, ghost flat': seq<byte>)
    requires space.Valid() && ValidRegs(r)
    modifies space`clockHand, space.pageTable, space.backing.file, space.memmanage.bmap.words, space.machine.mainMemory
    ensures space.Valid() && ValidRegs(r')
    ensures |flat| == |flat'| == space.numPages * PageSize
    ensures old(Agrees(space.State(), space.exe, flat)) && Agrees(space.State(), space.exe, flat')
    ensures if last.Some? then |rs| < attempts else |rs| == attempts
    ensures FaultsRestart(Paged, r, MemOf(flat, space.numPages), rs) ==>
      var m, m' := MemOf(flat, space.numPages), MemOf(flat', space.numPages);
      var s := FlatProgram(Flat(r, m), Completions(Paged, r, m, rs));
      && s.Flat? && s.mem == m' && Behind(s.regs, r', m')
      && (last.Some? ==> FlatInstruction(s).Over? && SameEnd(EndOf(FlatInstruction(s).end), last.value))
  {
    ghost var lastResident;
    r', last, rs, flat, flat', lastResident := Run(space, r, attempts);
    ghost var m, m' := MemOf(flat, space.numPages), MemOf(flat', space.numPages);
    if FaultsRestart(Paged, r, m, rs) {
      SelfBehind(r, m);
      PagedIsFlat(r, r, m, rs, r', m');
      ghost var s := FlatProgram(Flat(r, m), Completions(Paged, r, m, rs));
      if last.Some? {
        PagedEnds(s.regs, r', m', lastResident);
      }
    }
  }

  /** The same kind of end, with registers that look the same. */
  ghost predicate SameEnd(a: End, b: End) {
    match (a, b)
    case (TrapTaken(x, r), TrapTaken(y, q)) => x == y && SameRegs(r, q)
    case (Halted, Halted) => true
    case _ => false
  }
}
