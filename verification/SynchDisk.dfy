/** SynchDisk (code/filesys/synchdisk.cc) over the asynchronous disk of code/machine/disk.cc:
    any number of threads reading and writing sectors through one lock and one semaphore,
    with the disk interrupt arriving at any moment. */
module SynchDisks {
  import opened Wrappers
  import opened Synch

  const LOCK: Id := 0
  const SEM: Id := 0

  type Sector = nat
  type Data = seq<int>

  datatype Request = Read(sector: Sector) | Write(sector: Sector, data: Data)

  datatype Pc =
    | Idle
    | Have(r: Request)                      // in, or past, lock->Acquire()
    | Issued(n: nat, r: Request, d: Data)   // request number n handed to the disk, before P
    | Waiting(n: nat, r: Request, d: Data)  // in, or past, semaphore->P()

  /** A completed call: its request, its number and the data it saw or wrote. */
  datatype Answer = Answer(n: nat, r: Request, d: Data)

  datatype System = System(
    k: Kernel, pc: map<Tid, Pc>,
    active: bool,                 // Disk::active
    inFlight: nat,                // the number of the last request issued
    issued: nat,                  // how many requests were issued
    done: set<nat>,               // requests whose interrupt has fired
    disk: map<Sector, Data>,
    log: seq<Answer>)             // calls that returned, in order

  datatype Event =
    | Call(t: Tid, r: Request, pos: nat)
    | Local(t: Tid, pos: nat)
    | Resume(t: Tid, pos: nat)
    | Interrupt                   // Disk::HandleInterrupt

  function Contents(disk: map<Sector, Data>, s: Sector): Data {
    if s in disk then disk[s] else []
  }

  predicate CanStep(m: System, t: Tid) {
    t in m.pc && m.pc[t] != Idle && Running(m.k, t)
  }

  /** The ASSERTs that the next step of t runs into. */
  predicate Safe(m: System, t: Tid)
    requires t in m.pc
  {
    && SEM in m.k.sems && LOCK in m.k.locks
    && (m.pc[t].Have? ==> !m.active)              // ASSERT(!active) in Read/WriteRequest
    && (m.pc[t].Waiting? ==> Holds(m.k, t, LOCK)) // ASSERT in Lock::Release
  }

  function LocalStep(m: System, t: Tid, pos: nat): System
    requires CanStep(m, t) && Safe(m, t)
  {
    match m.pc[t]
    case Have(r) =>
      var d := if r.Read? then Contents(m.disk, r.sector) else r.data;
      m.(active := true, inFlight := m.issued, issued := m.issued + 1,
         disk := if r.Read? then m.disk else m.disk[r.sector := r.data],
         pc := m.pc[t := Issued(m.issued, r, d)])
    case Issued(n, r, d) => m.(k := TryP(m.k, t, SEM, pos), pc := m.pc[t := Waiting(n, r, d)])
    case Waiting(n, r, d) =>
      m.(k := Release(m.k, LOCK), pc := m.pc[t := Idle], log := m.log + [Answer(n, r, d)])
  }

  predicate Possible(m: System, e: Event) {
    match e
    case Call(t, _, pos) => t in m.pc && m.pc[t] == Idle && Enabled(m.k, OpAcquire(t, LOCK, pos))
    case Local(t, _) => CanStep(m, t) && Safe(m, t)
    case Resume(t, pos) => Enabled(m.k, OpResume(t, pos))
    case Interrupt => m.active && SEM in m.k.sems
  }

  function Next(m: System, e: Event): System
    requires Possible(m, e)
  {
    match e
    case Call(t, r, pos) => m.(k := TryAcquire(m.k, t, LOCK, pos), pc := m.pc[t := Have(r)])
    case Local(t, pos) => LocalStep(m, t, pos)
    case Resume(t, pos) => m.(k := Step(m.k, OpResume(t, pos)))
    case Interrupt => m.(active := false, done := m.done + {m.inFlight}, k := V(m.k, SEM))
  }

  predicate Initially(m: System) {
    && Initial(m.k) && m.k.conds == map[]
    && m.k.locks == map[LOCK := Lock(false, None, [])] && m.k.sems == map[SEM := Semaphore(0, 0, [], 0, 0)]
    && m.pc.Keys == m.k.st.Keys && (forall t :: t in m.pc ==> m.pc[t] == Idle)
    && !m.active && m.issued == 0 && m.done == {} && m.log == []
  }

  // ---- The invariant -------------------------------------------------------

  /** The thread inside, if any. */
  ghost function Holder(m: System): Option<Tid>
    requires LOCK in m.k.locks
  {
    m.k.locks[LOCK].currThread
  }

  /** What a thread at point p with status x implies when it is (not) the lock's owner. */
  predicate Consistent(m: System, x: Status, p: Pc, holds: bool)
    requires SEM in m.k.sems
  {
    match p
    case Idle => x == Runnable && !holds
    case Have(_) => (holds && x == Runnable) || (!holds && (x == LockQueued(LOCK) || x == LockWoken(LOCK)))
    case Issued(n, _, _) => holds && x == Runnable && n == m.inFlight
    case Waiting(n, _, _) => holds && n == m.inFlight && (x == Runnable || x == SemQueued(SEM) || x == SemWoken(SEM))
  }

  /** Semaphore value and disk activity, as seen from the thread inside. */
  ghost predicate Handshake(m: System)
    requires LOCK in m.k.locks && SEM in m.k.sems && m.k.st.Keys == m.pc.Keys
  {
    var v := m.k.sems[SEM].value;
    if Holder(m).None? || Holder(m).value !in m.pc || m.pc[Holder(m).value].Idle? || m.pc[Holder(m).value].Have? then
      !m.active && v == 0
    else if m.pc[Holder(m).value].Issued? || m.k.st[Holder(m).value] == SemQueued(SEM)
            || m.k.st[Holder(m).value] == SemWoken(SEM) then
      && v == (if m.active then 0 else 1) && (!m.active ==> m.inFlight in m.done)
      && (m.k.st[Holder(m).value] == SemQueued(SEM) ==> m.active)
      && (m.k.st[Holder(m).value] == SemWoken(SEM) ==> !m.active)
    else
      !m.active && v == 0 && m.inFlight in m.done
  }

  ghost predicate Shape(m: System) {
    && m.pc.Keys == m.k.st.Keys
    && m.k.locks.Keys == {LOCK} && m.k.sems.Keys == {SEM} && m.k.conds == map[]
    && forall t :: t in m.pc ==> Consistent(m, m.k.st[t], m.pc[t], Holds(m.k, t, LOCK))
  }

  /** Numbers below `issued` name requests; every returned call had its own interrupt. */
  ghost predicate Numbered(m: System) {
    && (m.issued > 0 ==> m.inFlight == m.issued - 1)
    && (forall n :: n in m.done ==> n < m.issued)
    && (forall i :: 0 <= i < |m.log| ==> m.log[i].n in m.done)
    && (forall i, j :: 0 <= i < j < |m.log| ==> m.log[i].n < m.log[j].n)
    && (forall t :: t in m.pc && (m.pc[t].Issued? || m.pc[t].Waiting?) ==>
          m.pc[t].n < m.issued && forall i :: 0 <= i < |m.log| ==> m.log[i].n < m.pc[t].n)
    && (m.active ==> m.inFlight !in m.done && m.issued > 0)
  }

  ghost predicate DInv(m: System) {
    Shape(m) && Handshake(m) && Numbered(m)
  }

  ghost predicate Inv(m: System) { KInv(m.k) && DInv(m) }

  lemma InitInv(m: System)
    requires Initially(m)
    ensures Inv(m)
  {
    RunInv(m.k, [], m.k);
  }

  /** The disk's ASSERT(!active) and the lock's ASSERT never fail. */
  lemma AlwaysSafe(m: System, t: Tid)
    requires DInv(m) && CanStep(m, t)
    ensures Safe(m, t)
  {
    assert Consistent(m, m.k.st[t], m.pc[t], Holds(m.k, t, LOCK));
  }

  lemma AllSafe(m: System)
    requires DInv(m)
    ensures forall t :: CanStep(m, t) ==> Safe(m, t)
  {
    forall t | CanStep(m, t) ensures Safe(m, t) { AlwaysSafe(m, t); }
  }

  lemma CallInv(m: System, t: Tid, r: Request, pos: nat)
    requires DInv(m) && Possible(m, Call(t, r, pos)) && LockInv(m.k, LOCK)
    ensures DInv(Next(m, Call(t, r, pos)))
  {
    CallShape(m, t, r, pos);
    CallRest(m, t, r, pos);
  }

  lemma CallShape(m: System, t: Tid, r: Request, pos: nat)
    requires Shape(m) && Possible(m, Call(t, r, pos)) && LockInv(m.k, LOCK)
    ensures Shape(Next(m, Call(t, r, pos)))
  {
    var m' := Next(m, Call(t, r, pos));
    AcquireEffect(m.k, t, LOCK, pos);
    assert Consistent(m, m.k.st[t], m.pc[t], Holds(m.k, t, LOCK));
    forall u | u in m'.pc ensures Consistent(m', m'.k.st[u], m'.pc[u], Holds(m'.k, u, LOCK)) {
      assert Consistent(m, m.k.st[u], m.pc[u], Holds(m.k, u, LOCK));
    }
  }

  lemma CallRest(m: System, t: Tid, r: Request, pos: nat)
    requires DInv(m) && Possible(m, Call(t, r, pos)) && LockInv(m.k, LOCK) && Shape(Next(m, Call(t, r, pos)))
    ensures Handshake(Next(m, Call(t, r, pos))) && Numbered(Next(m, Call(t, r, pos)))
  {
    var m' := Next(m, Call(t, r, pos));
    AcquireEffect(m.k, t, LOCK, pos);
    assert Consistent(m, m.k.st[t], m.pc[t], Holds(m.k, t, LOCK));
  }

  lemma ResumeInLock(m: System, t: Tid, pos: nat)
    requires DInv(m) && t in m.k.st && m.k.st[t] == LockWoken(LOCK) && LockInv(m.k, LOCK)
    ensures DInv(m.(k := TryAcquire(m.k, t, LOCK, pos)))
  {
    ResumeInLockShape(m, t, pos);
    ResumeInLockRest(m, t, pos);
  }

  lemma ResumeInLockShape(m: System, t: Tid, pos: nat)
    requires Shape(m) && t in m.k.st && m.k.st[t] == LockWoken(LOCK) && LockInv(m.k, LOCK)
    ensures Shape(m.(k := TryAcquire(m.k, t, LOCK, pos)))
  {
    var m' := m.(k := TryAcquire(m.k, t, LOCK, pos));
    assert Consistent(m, m.k.st[t], m.pc[t], Holds(m.k, t, LOCK));
    AcquireEffect(m.k, t, LOCK, pos);
    forall u | u in m'.pc ensures Consistent(m', m'.k.st[u], m'.pc[u], Holds(m'.k, u, LOCK)) {
      assert Consistent(m, m.k.st[u], m.pc[u], Holds(m.k, u, LOCK));
    }
  }

  lemma ResumeInLockRest(m: System, t: Tid, pos: nat)
    requires DInv(m) && t in m.k.st && m.k.st[t] == LockWoken(LOCK) && LockInv(m.k, LOCK)
    requires Shape(m.(k := TryAcquire(m.k, t, LOCK, pos)))
    ensures Handshake(m.(k := TryAcquire(m.k, t, LOCK, pos))) && Numbered(m.(k := TryAcquire(m.k, t, LOCK, pos)))
  {
    var m' := m.(k := TryAcquire(m.k, t, LOCK, pos));
    assert Consistent(m, m.k.st[t], m.pc[t], Holds(m.k, t, LOCK));
    AcquireEffect(m.k, t, LOCK, pos);
  }

  lemma ResumeInP(m: System, t: Tid, pos: nat)
    requires DInv(m) && t in m.k.st && m.k.st[t] == SemWoken(SEM)
    ensures DInv(m.(k := TryP(m.k, t, SEM, pos)))
  {
    var m' := m.(k := TryP(m.k, t, SEM, pos));
    assert Consistent(m, m.k.st[t], m.pc[t], Holds(m.k, t, LOCK));
    forall u | u in m'.pc ensures Consistent(m', m'.k.st[u], m'.pc[u], Holds(m'.k, u, LOCK)) {
      assert Consistent(m, m.k.st[u], m.pc[u], Holds(m.k, u, LOCK));
    }
  }

  lemma IssueInv(m: System, t: Tid, pos: nat)
    requires DInv(m) && CanStep(m, t) && Safe(m, t) && m.pc[t].Have?
    ensures DInv(LocalStep(m, t, pos))
  {
    var m' := LocalStep(m, t, pos);
    assert Consistent(m, m.k.st[t], m.pc[t], Holds(m.k, t, LOCK));
    forall u | u in m'.pc ensures Consistent(m', m'.k.st[u], m'.pc[u], Holds(m'.k, u, LOCK)) {
      assert Consistent(m, m.k.st[u], m.pc[u], Holds(m.k, u, LOCK));
    }
    forall i | 0 <= i < |m.log| ensures m.log[i].n < m.issued {
      assert m.log[i].n in m.done;
    }
  }

  lemma PInv(m: System, t: Tid, pos: nat)
    requires DInv(m) && CanStep(m, t) && Safe(m, t) && m.pc[t].Issued?
    ensures DInv(LocalStep(m, t, pos))
  {
    var m' := LocalStep(m, t, pos);
    assert Consistent(m, m.k.st[t], m.pc[t], Holds(m.k, t, LOCK));
    forall u | u in m'.pc ensures Consistent(m', m'.k.st[u], m'.pc[u], Holds(m'.k, u, LOCK)) {
      assert Consistent(m, m.k.st[u], m.pc[u], Holds(m.k, u, LOCK));
    }
  }

  lemma ReturnInv(m: System, t: Tid, pos: nat)
    requires DInv(m) && CanStep(m, t) && Safe(m, t) && m.pc[t].Waiting? && LockInv(m.k, LOCK)
    ensures DInv(LocalStep(m, t, pos))
  {
    ReturnShape(m, t, pos);
    ReturnRest(m, t, pos);
  }

  lemma ReturnShape(m: System, t: Tid, pos: nat)
    requires Shape(m) && CanStep(m, t) && Safe(m, t) && m.pc[t].Waiting? && LockInv(m.k, LOCK)
    ensures Shape(LocalStep(m, t, pos))
  {
    var m' := LocalStep(m, t, pos);
    assert Consistent(m, m.k.st[t], m.pc[t], Holds(m.k, t, LOCK));
    ReleaseEffect(m.k, LOCK);
    forall u | u in m'.pc ensures Consistent(m', m'.k.st[u], m'.pc[u], Holds(m'.k, u, LOCK)) {
      assert Consistent(m, m.k.st[u], m.pc[u], Holds(m.k, u, LOCK));
    }
  }

  lemma ReturnRest(m: System, t: Tid, pos: nat)
    requires DInv(m) && CanStep(m, t) && Safe(m, t) && m.pc[t].Waiting? && LockInv(m.k, LOCK)
    requires Shape(LocalStep(m, t, pos))
    ensures Handshake(LocalStep(m, t, pos)) && Numbered(LocalStep(m, t, pos))
  {
    var m' := LocalStep(m, t, pos);
    assert Consistent(m, m.k.st[t], m.pc[t], Holds(m.k, t, LOCK));
    ReleaseEffect(m.k, LOCK);
  }

  lemma InterruptInv(m: System)
    requires DInv(m) && Possible(m, Interrupt) && SemInv(m.k, SEM) && LockInv(m.k, LOCK)
    ensures DInv(Next(m, Interrupt))
  {
    InterruptShape(m);
    InterruptRest(m);
  }

  lemma InterruptShape(m: System)
    requires Shape(m) && Possible(m, Interrupt) && SemInv(m.k, SEM) && LockInv(m.k, LOCK)
    ensures Shape(Next(m, Interrupt))
  {
    var m' := Next(m, Interrupt);
    var q := m.k.sems[SEM].queue;
    if q != [] { assert q[0] in q; }
    forall u | u in m'.pc ensures Consistent(m', m'.k.st[u], m'.pc[u], Holds(m'.k, u, LOCK)) {
      assert Consistent(m, m.k.st[u], m.pc[u], Holds(m.k, u, LOCK));
    }
  }

  lemma InterruptRest(m: System)
    requires DInv(m) && Possible(m, Interrupt) && SemInv(m.k, SEM) && LockInv(m.k, LOCK) && Shape(Next(m, Interrupt))
    ensures Handshake(Next(m, Interrupt)) && Numbered(Next(m, Interrupt))
  {
    var m' := Next(m, Interrupt);
    var q := m.k.sems[SEM].queue;
    if q != [] { assert q[0] in q; }
  }

  // ---- The disk as one object that is read and written in order ------------

  function Effect(disk: map<Sector, Data>, r: Request): map<Sector, Data> {
    if r.Write? then disk[r.sector := r.data] else disk
  }

  /** The disk after the logged calls, executed one after the other. */
  function Replay(disk: map<Sector, Data>, log: seq<Answer>): map<Sector, Data> {
    if log == [] then disk else Effect(Replay(disk, log[..|log| - 1]), log[|log| - 1].r)
  }

  /** d is what a call of r on this disk sees (or writes). */
  predicate Sees(disk: map<Sector, Data>, r: Request, d: Data) {
    d == if r.Read? then Contents(disk, r.sector) else r.data
  }

  /** Every logged call saw exactly the effects of the calls logged before it. */
  ghost predicate Sequential(disk0: map<Sector, Data>, log: seq<Answer>) {
    forall i :: 0 <= i < |log| ==> Sees(Replay(disk0, log[..i]), log[i].r, log[i].d)
  }

  predicate HasRequest(p: Pc) { p.Issued? || p.Waiting? }

  /** The physical disk is the replay of the log, plus the request under way. */
  ghost predicate Atomic(m: System, disk0: map<Sector, Data>)
    requires LOCK in m.k.locks
  {
    && Sequential(disk0, m.log)
    && (if Holder(m).Some? && Holder(m).value in m.pc && HasRequest(m.pc[Holder(m).value]) then
          var p := m.pc[Holder(m).value];
          Sees(Replay(disk0, m.log), p.r, p.d) && m.disk == Effect(Replay(disk0, m.log), p.r)
        else m.disk == Replay(disk0, m.log))
  }

  lemma InitAtomic(m: System)
    requires Initially(m)
    ensures Atomic(m, m.disk)
  {}

  lemma LocalAtomic(m: System, t: Tid, pos: nat, disk0: map<Sector, Data>)
    requires Shape(m) && CanStep(m, t) && Safe(m, t) && Atomic(m, disk0) && LockInv(m.k, LOCK)
    ensures Atomic(LocalStep(m, t, pos), disk0)
  {
    assert Consistent(m, m.k.st[t], m.pc[t], Holds(m.k, t, LOCK));
    if m.pc[t].Waiting? { ReturnAtomic(m, t, pos, disk0); } else { IssueAtomic(m, t, pos, disk0); }
  }

  /** The request is handed to the disk, or the thread comes to P. */
  lemma IssueAtomic(m: System, t: Tid, pos: nat, disk0: map<Sector, Data>)
    requires CanStep(m, t) && Safe(m, t) && Atomic(m, disk0) && Holds(m.k, t, LOCK) && !m.pc[t].Waiting?
    ensures Atomic(LocalStep(m, t, pos), disk0)
  {
  }

  /** The call returns and is logged. */
  lemma ReturnAtomic(m: System, t: Tid, pos: nat, disk0: map<Sector, Data>)
    requires CanStep(m, t) && Safe(m, t) && Atomic(m, disk0) && Holds(m.k, t, LOCK) && m.pc[t].Waiting?
    requires LockInv(m.k, LOCK)
    ensures Atomic(LocalStep(m, t, pos), disk0)
  {
    ReleaseEffect(m.k, LOCK);
    var m' := LocalStep(m, t, pos);
    SequentialMore(disk0, m.log, m'.log[|m.log|]);
  }

  lemma SequentialMore(disk0: map<Sector, Data>, log: seq<Answer>, a: Answer)
    requires Sequential(disk0, log) && Sees(Replay(disk0, log), a.r, a.d)
    ensures Sequential(disk0, log + [a]) && Replay(disk0, log + [a]) == Effect(Replay(disk0, log), a.r)
  {
    var more := log + [a];
    assert more[..|log|] == log;
    forall i | 0 <= i < |more| ensures Sees(Replay(disk0, more[..i]), more[i].r, more[i].d) {
      assert i < |log| ==> more[..i] == log[..i];
    }
  }

  /** Trying the lock adds no request. */
  lemma EnterAtomic(m: System, t: Tid, pos: nat, p: Pc, disk0: map<Sector, Data>)
    requires LOCK in m.k.locks && Atomic(m, disk0) && LockInv(m.k, LOCK)
    requires t in m.k.st && t in m.pc && !Holds(m.k, t, LOCK)
    requires !HasRequest(p)
    ensures Atomic(m.(k := TryAcquire(m.k, t, LOCK, pos), pc := m.pc[t := p]), disk0)
  {
    AcquireEffect(m.k, t, LOCK, pos);
  }

  lemma NextAtomic(m: System, e: Event, disk0: map<Sector, Data>)
    requires Shape(m) && Possible(m, e) && Atomic(m, disk0) && LockInv(m.k, LOCK)
    requires LOCK in Next(m, e).k.locks
    ensures Atomic(Next(m, e), disk0)
  {
    match e
    case Local(t, pos) => LocalAtomic(m, t, pos, disk0);
    case Call(t, r, pos) => EnterAtomic(m, t, pos, Have(r), disk0);
    case Resume(t, pos) => ResumeAtomic(m, t, pos, disk0);
    case Interrupt =>
  }

  lemma ResumeAtomic(m: System, t: Tid, pos: nat, disk0: map<Sector, Data>)
    requires Shape(m) && Possible(m, Resume(t, pos)) && Atomic(m, disk0) && LockInv(m.k, LOCK)
    requires LOCK in Next(m, Resume(t, pos)).k.locks
    ensures Atomic(Next(m, Resume(t, pos)), disk0)
  {
    assert Consistent(m, m.k.st[t], m.pc[t], Holds(m.k, t, LOCK));
    if m.k.st[t].LockWoken? {
      EnterAtomic(m, t, pos, m.pc[t], disk0);
      assert m.pc[t := m.pc[t]] == m.pc;
    }
  }

  // ---- Every reachable state -----------------------------------------------

  lemma NextDInv(m: System, e: Event)
    requires DInv(m) && Possible(m, e) && LockInv(m.k, LOCK) && SemInv(m.k, SEM)
    ensures DInv(Next(m, e))
  {
    match e
    case Call(t, r, pos) => CallInv(m, t, r, pos);
    case Interrupt => InterruptInv(m);
    case Resume(t, pos) =>
      assert Consistent(m, m.k.st[t], m.pc[t], Holds(m.k, t, LOCK));
      if m.k.st[t].LockWoken? { ResumeInLock(m, t, pos); } else { ResumeInP(m, t, pos); }
    case Local(t, pos) =>
      if m.pc[t].Have? {
        IssueInv(m, t, pos);
      } else if m.pc[t].Issued? {
        PInv(m, t, pos);
      } else {
        ReturnInv(m, t, pos);
      }
  }

  lemma NextKInv(m: System, e: Event)
    requires KInv(m.k) && Possible(m, e)
    ensures KInv(Next(m, e).k)
  {
    match e
    case Call(t, _, pos) => StepInv(m.k, OpAcquire(t, LOCK, pos));
    case Resume(t, pos) => StepInv(m.k, OpResume(t, pos));
    case Interrupt => StepInv(m.k, OpV(SEM));
    case Local(t, pos) =>
      if m.pc[t].Issued? {
        StepInv(m.k, OpP(t, SEM, pos));
      } else if m.pc[t].Waiting? {
        StepInv(m.k, OpRelease(t, LOCK));
      }
  }

  ghost predicate Reachable(m: System, events: seq<Event>, m': System)
    decreases |events|
  {
    if events == [] then m' == m
    else Possible(m, events[0]) && Reachable(Next(m, events[0]), events[1..], m')
  }

  lemma {:induction false} ReachableInv(m: System, events: seq<Event>, m': System, disk0: map<Sector, Data>)
    requires Inv(m) && Atomic(m, disk0) && Reachable(m, events, m')
    ensures Inv(m') && Atomic(m', disk0)
    decreases |events|
  {
    if events != [] {
      var e := events[0];
      assert LockInv(m.k, LOCK) && SemInv(m.k, SEM);
      NextKInv(m, e);
      NextDInv(m, e);
      NextAtomic(m, e, disk0);
      ReachableInv(Next(m, e), events[1..], m', disk0);
    }
  }

  /** SynchDisk makes the disk synchronous. In every reachable state the ASSERTs ahead of
      every running thread hold; every call that returned had the interrupt of its own
      request; and the calls behave as if executed one at a time in the order they return. */
  lemma Synchronous(m0: System, events: seq<Event>, m: System)
    requires Initially(m0) && Reachable(m0, events, m)
    ensures forall t :: CanStep(m, t) ==> Safe(m, t)
    ensures forall i :: 0 <= i < |m.log| ==> m.log[i].n in m.done
    ensures forall i, j :: 0 <= i < j < |m.log| ==> m.log[i].n < m.log[j].n
    ensures Sequential(m0.disk, m.log)
  {
    InitInv(m0);
    InitAtomic(m0);
    ReachableInv(m0, events, m, m0.disk);
    AllSafe(m);
  }

  // ---- From the calls alone ------------------------------------------------

  /** A call under way: its request, and how many own steps its thread has made in it. */
  datatype Progress = Progress(r: Request, steps: nat)

  /** The requests whose calls return in a run, in that order, from the events alone: a call returns
      with the third own step of its thread. */
  function Returns(calls: map<Tid, Progress>, events: seq<Event>): (requests: seq<Request>)
    decreases |events|
  {
    if events == [] then [] else Returning(calls, events[0]) + Returns(After(calls, events[0]), events[1..])
  }

  function Returning(calls: map<Tid, Progress>, e: Event): (requests: seq<Request>) {
    if e.Local? && e.t in calls && calls[e.t].steps == 2 then [calls[e.t].r] else []
  }

  function After(calls: map<Tid, Progress>, e: Event): (calls': map<Tid, Progress>) {
    match e
    case Call(t, r, _) => calls[t := Progress(r, 0)]
    case Local(t, _) =>
      if t !in calls then calls
      else if calls[t].steps == 2 then calls - {t}
      else calls[t := Progress(calls[t].r, calls[t].steps + 1)]
    case _ => calls
  }

  predicate AtStep(p: Pc, c: Progress) {
    match p
    case Have(r) => c == Progress(r, 0)
    case Issued(_, r, _) => c == Progress(r, 1)
    case Waiting(_, r, _) => c == Progress(r, 2)
    case Idle => false
  }

  ghost predicate Tracks(m: System, calls: map<Tid, Progress>) {
    forall t :: t in m.pc ==> (t in calls <==> m.pc[t] != Idle) && (t in calls ==> AtStep(m.pc[t], calls[t]))
  }

  function Requests(log: seq<Answer>): (rs: seq<Request>)
    ensures |rs| == |log| && forall i :: 0 <= i < |log| ==> rs[i] == log[i].r
  {
    seq(|log|, i requires 0 <= i < |log| => log[i].r)
  }

  lemma LogStep(m: System, calls: map<Tid, Progress>, e: Event)
    requires Tracks(m, calls) && Possible(m, e)
    ensures Tracks(Next(m, e), After(calls, e)) && Requests(Next(m, e).log) == Requests(m.log) + Returning(calls, e)
  {
    match e
    case Local(t, _) => assert AtStep(m.pc[t], calls[t]);
    case _ =>
  }

  lemma {:induction false} LogIsReturns(m: System, calls: map<Tid, Progress>, events: seq<Event>, m': System)
    requires Tracks(m, calls) && Reachable(m, events, m')
    ensures Requests(m'.log) == Requests(m.log) + Returns(calls, events)
    decreases |events|
  {
    if events != [] {
      var e := events[0];
      LogStep(m, calls, e);
      LogIsReturns(Next(m, e), After(calls, e), events[1..], m');
      Regroup(Requests(m.log), Returning(calls, e), Returns(After(calls, e), events[1..]));
    }
  }

  /** In every run the logged answers are to the requests that were made, one for each call that
      has returned, in the order they returned. */
  lemma AnswersTheCalls(m0: System, events: seq<Event>, m: System)
    requires Initially(m0) && Reachable(m0, events, m)
    ensures Requests(m.log) == Returns(map[], events)
  {
    LogIsReturns(m0, map[], events, m);
  }

  // ---- Calls go forward ----------------------------------------------------

  function Ahead(p: Pc): nat {
    match p
    case Idle => 0
    case Have(_) => 3 case Issued(_, _, _) => 2 case Waiting(_, _, _) => 1
  }

  /** A call takes three own steps: hand the request to the disk, wait for the interrupt, return. */
  lemma StepsForward(m: System, t: Tid, pos: nat)
    requires CanStep(m, t) && Safe(m, t)
    ensures var m' := LocalStep(m, t, pos);
      && t in m'.pc && Ahead(m'.pc[t]) == Ahead(m.pc[t]) - 1
      && (forall u :: u in m.pc && u != t ==> u in m'.pc && m'.pc[u] == m.pc[u])
      && m'.active == (m.active || m.pc[t].Have?)
  {}

  /** The interrupt ends the request: the disk is free, and a thread asleep on it is woken. */
  lemma InterruptEnds(m: System, t: Tid)
    requires DInv(m) && Possible(m, Interrupt) && SemInv(m.k, SEM)
    ensures !Next(m, Interrupt).active && m.inFlight in Next(m, Interrupt).done
    ensures t in m.k.st && m.k.st[t] == SemQueued(SEM) ==> Next(m, Interrupt).k.st[t] == SemWoken(SEM)
  {
    if t in m.k.st && m.k.st[t] == SemQueued(SEM) {
      var q := m.k.sems[SEM].queue;
      assert t in q && q[0] in q;
      assert Consistent(m, m.k.st[t], m.pc[t], Holds(m.k, t, LOCK));
      assert Consistent(m, m.k.st[q[0]], m.pc[q[0]], Holds(m.k, q[0], LOCK));
    }
  }
}
