/** Semaphores, locks and condition variables (code/threads/synch.cc) as a step system.

    Each primitive runs with interrupts off up to its next Sleep, so each is one step. A
    thread that Sleep has blocked sits in one wait queue; a thread that was woken is ready
    but has not re-checked its condition yet, and any other thread may run before it. The
    place at which a sleeper enters a queue depends on thread priorities; it is left open
    (`pos`), so what is proved holds for every assignment of priorities. */
module Synch {
  import opened Wrappers

  type Tid = nat
  type Id = nat

  datatype Status =
    | Runnable                      // executing its own code
    | SemQueued(sem: Id)            // asleep in Semaphore::P
    | SemWoken(sem: Id)             // woken in P, value not re-checked
    | LockQueued(lock: Id)          // asleep in Lock::Acquire
    | LockWoken(lock: Id)           // woken in Acquire, isLocked not re-checked
    | CondQueued(cond: Id, mon: Id) // asleep in Condition::Wait, monitor lock mon released
    | CondWoken(mon: Id)            // signalled, about to re-acquire mon

  datatype Semaphore = Semaphore(initial: nat, value: nat, queue: seq<Tid>, ups: nat, downs: nat)

  datatype Lock = Lock(isLocked: bool, currThread: Option<Tid>, queue: seq<Tid>)

  datatype Kernel = Kernel(
    sems: map<Id, Semaphore>, locks: map<Id, Lock>, conds: map<Id, seq<Tid>>, st: map<Tid, Status>)

  function Insert(q: seq<Tid>, pos: nat, t: Tid): (r: seq<Tid>)
    ensures |r| == |q| + 1
    ensures forall u :: u in r <==> u == t || u in q
  {
    if pos <= |q| then
      assert q == q[..pos] + q[pos..];
      q[..pos] + [t] + q[pos..]
    else q + [t]
  }

  // ---- The primitives ------------------------------------------------------

  /** One pass of the loop of P: take the value, or go to sleep. */
  function TryP(k: Kernel, t: Tid, s: Id, pos: nat): Kernel
    requires s in k.sems
  {
    var m := k.sems[s];
    if m.value == 0 then
      k.(sems := k.sems[s := m.(queue := Insert(m.queue, pos, t))], st := k.st[t := SemQueued(s)])
    else
      k.(sems := k.sems[s := m.(value := m.value - 1, downs := m.downs + 1)], st := k.st[t := Runnable])
  }

  function V(k: Kernel, s: Id): Kernel
    requires s in k.sems
  {
    var m := k.sems[s];
    var m' := m.(value := m.value + 1, ups := m.ups + 1);
    if m.queue == [] then k.(sems := k.sems[s := m'])
    else k.(sems := k.sems[s := m'.(queue := m.queue[1..])], st := k.st[m.queue[0] := SemWoken(s)])
  }

  /** One pass of the loop of Acquire. */
  function TryAcquire(k: Kernel, t: Tid, l: Id, pos: nat): Kernel
    requires l in k.locks
  {
    var m := k.locks[l];
    if m.isLocked then
      k.(locks := k.locks[l := m.(queue := Insert(m.queue, pos, t))], st := k.st[t := LockQueued(l)])
    else
      k.(locks := k.locks[l := m.(isLocked := true, currThread := Some(t))], st := k.st[t := Runnable])
  }

  function Release(k: Kernel, l: Id): Kernel
    requires l in k.locks
  {
    var m := k.locks[l];
    if m.queue == [] then k.(locks := k.locks[l := Lock(false, None, [])])
    else k.(locks := k.locks[l := Lock(false, None, m.queue[1..])], st := k.st[m.queue[0] := LockWoken(l)])
  }

  /** Release and go to sleep on c, in one atomic step. */
  function Wait(k: Kernel, t: Tid, c: Id, l: Id, pos: nat): Kernel
    requires l in k.locks && c in k.conds
  {
    var k1 := Release(k, l);
    k1.(conds := k1.conds[c := Insert(k1.conds[c], pos, t)], st := k1.st[t := CondQueued(c, l)])
  }

  /** A waiter that was woken re-acquires the lock it gave up itself. */
  function AfterWait(x: Status): Status {
    if x.CondQueued? then CondWoken(x.mon) else x
  }

  function Signal(k: Kernel, c: Id): Kernel
    requires c in k.conds
  {
    var q := k.conds[c];
    if q == [] || q[0] !in k.st then k
    else k.(conds := k.conds[c := q[1..]], st := k.st[q[0] := AfterWait(k.st[q[0]])])
  }

  /** Broadcast wakes waiters one by one until the queue is empty. */
  function Broadcast(k: Kernel, c: Id): Kernel
    requires c in k.conds
    decreases |k.conds[c]|
  {
    if k.conds[c] == [] || k.conds[c][0] !in k.st then k else Broadcast(Signal(k, c), c)
  }

  datatype Op =
    | OpP(t: Tid, s: Id, pos: nat)
    | OpV(s: Id)                       // by a thread or by an interrupt handler
    | OpAcquire(t: Tid, l: Id, pos: nat)
    | OpRelease(t: Tid, l: Id)
    | OpWait(t: Tid, c: Id, l: Id, pos: nat)
    | OpSignal(t: Tid, c: Id, l: Id)
    | OpBroadcast(t: Tid, c: Id, l: Id)
    | OpResume(t: Tid, pos: nat)       // the scheduler runs a woken thread

  predicate Running(k: Kernel, t: Tid) { t in k.st && k.st[t] == Runnable }

  predicate Holds(k: Kernel, t: Tid, l: Id) {
    l in k.locks && k.locks[l].currThread == Some(t)
  }

  /** Every thread waiting on c gave up lock l: so it is for a condition variable that its users
      keep to one lock, which the kernel does not demand. */
  predicate UsesLock(k: Kernel, c: Id, l: Id) {
    c in k.conds && forall t :: t in k.conds[c] && t in k.st ==> k.st[t] == CondQueued(c, l)
  }

  /** When a step can be taken: the ASSERTs of the source, and the thread is not asleep. */
  predicate Enabled(k: Kernel, op: Op) {
    match op
    case OpP(t, s, _) => Running(k, t) && s in k.sems
    case OpV(s) => s in k.sems
    case OpAcquire(t, l, _) => Running(k, t) && l in k.locks && !Holds(k, t, l)
    case OpRelease(t, l) => Running(k, t) && Holds(k, t, l)
    case OpWait(t, c, l, _) => Running(k, t) && Holds(k, t, l) && c in k.conds
    case OpSignal(t, c, l) => Running(k, t) && Holds(k, t, l) && c in k.conds
    case OpBroadcast(t, c, l) => Running(k, t) && Holds(k, t, l) && c in k.conds
    case OpResume(t, _) => t in k.st && Resumable(k, k.st[t])
  }

  predicate Resumable(k: Kernel, x: Status) {
    match x
    case SemWoken(s) => s in k.sems
    case LockWoken(l) => l in k.locks
    case CondWoken(l) => l in k.locks
    case _ => false
  }

  function Step(k: Kernel, op: Op): Kernel
    requires Enabled(k, op)
  {
    match op
    case OpP(t, s, pos) => TryP(k, t, s, pos)
    case OpV(s) => V(k, s)
    case OpAcquire(t, l, pos) => TryAcquire(k, t, l, pos)
    case OpRelease(t, l) => Release(k, l)
    case OpWait(t, c, l, pos) => Wait(k, t, c, l, pos)
    case OpSignal(t, c, l) => Signal(k, c)
    case OpBroadcast(t, c, l) => Broadcast(k, c)
    case OpResume(t, pos) =>
      match k.st[t]
      case SemWoken(s) => TryP(k, t, s, pos)
      case LockWoken(l) => TryAcquire(k, t, l, pos)
      case CondWoken(l) => TryAcquire(k, t, l, pos)
  }

  // ---- Invariants ----------------------------------------------------------

  /** The threads with a given status. */
  ghost function With(k: Kernel, x: Status): set<Tid> {
    set t | t in k.st && k.st[t] == x
  }

  /** A wait queue lists each sleeper with status x once, and nobody else. */
  ghost predicate Queues(k: Kernel, q: seq<Tid>, x: Status) {
    NoDup(q) && forall t :: t in q <==> t in k.st && k.st[t] == x
  }

  /** No wakeup is lost: sleepers on a semaphore with value v have at least v woken
      threads ahead of them. And the value counts V's minus completed P's. */
  ghost predicate SemInv(k: Kernel, s: Id)
    requires s in k.sems
  {
    var m := k.sems[s];
    && Queues(k, m.queue, SemQueued(s))
    && m.value + m.downs == m.initial + m.ups
    && (m.queue != [] ==> m.value <= |With(k, SemWoken(s))|)
  }

  /** A thread that is inside Acquire or Wait for lock l. */
  predicate Outside(x: Status, l: Id) {
    x == LockQueued(l) || x == LockWoken(l) || x == CondWoken(l) || (x.CondQueued? && x.mon == l)
  }

  /** The owner field is consistent, the owner is not waiting for the lock itself, and a
      free lock with sleepers has a woken thread about to take it. */
  ghost predicate LockInv(k: Kernel, l: Id)
    requires l in k.locks
  {
    var m := k.locks[l];
    && Queues(k, m.queue, LockQueued(l))
    && (m.isLocked <==> m.currThread.Some?)
    && (m.currThread.Some? ==> m.currThread.value in k.st && !Outside(k.st[m.currThread.value], l))
    && (!m.isLocked && m.queue != [] ==> exists t :: t in k.st && k.st[t] == LockWoken(l))
  }

  ghost predicate CondInv(k: Kernel, c: Id)
    requires c in k.conds
  {
    NoDup(k.conds[c]) && forall t :: t in k.conds[c] <==> t in k.st && k.st[t].CondQueued? && k.st[t].cond == c
  }

  ghost predicate KInv(k: Kernel) {
    && (forall s :: s in k.sems ==> SemInv(k, s))
    && (forall l :: l in k.locks ==> LockInv(k, l))
    && (forall c :: c in k.conds ==> CondInv(k, c))
  }

  // ---- Preservation --------------------------------------------------------

  ghost predicate SemsInv(k: Kernel) { forall s :: s in k.sems ==> SemInv(k, s) }

  ghost predicate LocksInv(k: Kernel) { forall l :: l in k.locks ==> LockInv(k, l) }

  ghost predicate CondsInv(k: Kernel) { forall c :: c in k.conds ==> CondInv(k, c) }

  /** k' is k with a new status for thread t (and possibly other objects). */
  ghost predicate Moves(k: Kernel, k': Kernel, t: Tid) {
    t in k.st && t in k'.st && k'.st == k.st[t := k'.st[t]]
  }

  predicate AboutSem(x: Status) { x.SemQueued? || x.SemWoken? }

  lemma SemFrame(k: Kernel, k': Kernel, t: Tid, s: Id)
    requires Moves(k, k', t) && s in k.sems && SemInv(k, s) && s in k'.sems && k'.sems[s] == k.sems[s]
    requires k.st[t] != SemQueued(s) && k'.st[t] != SemQueued(s)
    requires k.st[t] != SemWoken(s) && k'.st[t] != SemWoken(s)
    ensures SemInv(k', s)
  {
    assert With(k', SemWoken(s)) == With(k, SemWoken(s));
  }

  lemma SemsFrame(k: Kernel, k': Kernel, t: Tid)
    requires SemsInv(k) && k'.sems == k.sems && Moves(k, k', t)
    requires !AboutSem(k.st[t]) && !AboutSem(k'.st[t])
    ensures SemsInv(k')
  {
    forall s | s in k'.sems ensures SemInv(k', s) { SemFrame(k, k', t, s); }
  }

  lemma LockFrame(k: Kernel, k': Kernel, t: Tid, l: Id)
    requires Moves(k, k', t) && l in k.locks && LockInv(k, l) && l in k'.locks && k'.locks[l] == k.locks[l]
    requires k.st[t] != LockQueued(l) && k'.st[t] != LockQueued(l) && k.st[t] != LockWoken(l)
    requires Holds(k, t, l) ==> !Outside(k'.st[t], l)
    ensures LockInv(k', l)
  {
    var m := k.locks[l];
    if !m.isLocked && m.queue != [] {
      var u :| u in k.st && k.st[u] == LockWoken(l);
      assert k'.st[u] == LockWoken(l);
    }
  }

  lemma LocksFrame(k: Kernel, k': Kernel, t: Tid)
    requires LocksInv(k) && k'.locks == k.locks && Moves(k, k', t)
    requires !k.st[t].LockQueued? && !k'.st[t].LockQueued? && !k.st[t].LockWoken?
    requires forall l :: Holds(k, t, l) ==> !Outside(k'.st[t], l)
    ensures LocksInv(k')
  {
    forall l | l in k'.locks ensures LockInv(k', l) { LockFrame(k, k', t, l); }
  }

  lemma CondsFrame(k: Kernel, k': Kernel, t: Tid)
    requires CondsInv(k) && k'.conds == k.conds && Moves(k, k', t)
    requires !k.st[t].CondQueued? && !k'.st[t].CondQueued?
    ensures CondsInv(k')
  {
    forall c | c in k'.conds ensures CondInv(k', c) { assert CondInv(k, c); }
  }

  lemma SemsSame(k: Kernel, k': Kernel, except: set<Id>)
    requires SemsInv(k) && k'.st == k.st && k'.sems.Keys == k.sems.Keys
    requires forall s :: s in k.sems && s !in except ==> k'.sems[s] == k.sems[s]
    ensures forall s :: s in k'.sems && s !in except ==> SemInv(k', s)
  {
    forall s | s in k'.sems && s !in except ensures SemInv(k', s) {
      assert SemInv(k, s);
      assert With(k', SemWoken(s)) == With(k, SemWoken(s));
    }
  }

  lemma LocksSame(k: Kernel, k': Kernel, except: set<Id>)
    requires LocksInv(k) && k'.st == k.st && k'.locks.Keys == k.locks.Keys
    requires forall l :: l in k.locks && l !in except ==> k'.locks[l] == k.locks[l]
    ensures forall l :: l in k'.locks && l !in except ==> LockInv(k', l)
  {
    forall l | l in k'.locks && l !in except ensures LockInv(k', l) { assert LockInv(k, l); }
  }

  lemma CondsSame(k: Kernel, k': Kernel)
    requires CondsInv(k) && k'.st == k.st && k'.conds == k.conds
    ensures CondsInv(k')
  {
    forall c | c in k'.conds ensures CondInv(k', c) { assert CondInv(k, c); }
  }

  /** The semaphores other than s, when thread t moves within P or V on s. */
  lemma OtherSems(k: Kernel, k': Kernel, t: Tid, s: Id)
    requires SemsInv(k) && Moves(k, k', t) && s in k.sems && s in k'.sems && k'.sems == k.sems[s := k'.sems[s]]
    requires (AboutSem(k.st[t]) ==> k.st[t].sem == s) && (AboutSem(k'.st[t]) ==> k'.st[t].sem == s)
    ensures forall s2 :: s2 in k'.sems && s2 != s ==> SemInv(k', s2)
  {
    forall s2 | s2 in k'.sems && s2 != s ensures SemInv(k', s2) { SemFrame(k, k', t, s2); }
  }

  /** The locks other than l, when thread t moves within an operation on l. */
  lemma OtherLocks(k: Kernel, k': Kernel, t: Tid, l: Id)
    requires LocksInv(k) && Moves(k, k', t) && l in k.locks && l in k'.locks && k'.locks == k.locks[l := k'.locks[l]]
    requires forall l2 :: l2 in k.locks && l2 != l ==>
      k.st[t] != LockQueued(l2) && k.st[t] != LockWoken(l2) && !Outside(k'.st[t], l2)
    ensures forall l2 :: l2 in k'.locks && l2 != l ==> LockInv(k', l2)
  {
    forall l2 | l2 in k'.locks && l2 != l ensures LockInv(k', l2) { LockFrame(k, k', t, l2); }
  }

  lemma InsertNoDup(q: seq<Tid>, pos: nat, t: Tid)
    requires NoDup(q) && t !in q
    ensures NoDup(Insert(q, pos, t))
  {
    var r := Insert(q, pos, t);
    var at := if pos <= |q| then pos else |q|;
    forall i, j | 0 <= i < j < |r|
      ensures r[i] != r[j]
    {
      assert r[i] == if i < at then q[i] else if i == at then t else q[i - 1];
      assert r[j] == if j < at then q[j] else if j == at then t else q[j - 1];
    }
  }

  lemma PopNoDup(q: seq<Tid>)
    requires NoDup(q) && q != []
    ensures NoDup(q[1..]) && forall t :: t in q[1..] <==> t in q && t != q[0]
    ensures q[0] in q
  {
    forall t | t in q && t != q[0]
      ensures t in q[1..]
    {
      var i :| 0 <= i < |q| && q[i] == t;
      assert q[1..][i - 1] == t;
    }
  }

  lemma TryPSem(k: Kernel, t: Tid, s: Id, pos: nat)
    requires s in k.sems && SemInv(k, s) && t in k.st && (k.st[t] == Runnable || k.st[t] == SemWoken(s))
    ensures SemInv(TryP(k, t, s, pos), s)
  {
    if k.sems[s].value == 0 { TryPSleeps(k, t, s, pos); } else { TryPTakes(k, t, s, pos); }
  }

  lemma TryPSleeps(k: Kernel, t: Tid, s: Id, pos: nat)
    requires s in k.sems && SemInv(k, s) && t in k.st && (k.st[t] == Runnable || k.st[t] == SemWoken(s))
    requires k.sems[s].value == 0
    ensures SemInv(TryP(k, t, s, pos), s)
  {
    assert t !in k.sems[s].queue;
    InsertNoDup(k.sems[s].queue, pos, t);
  }

  lemma TryPTakes(k: Kernel, t: Tid, s: Id, pos: nat)
    requires s in k.sems && SemInv(k, s) && t in k.st && (k.st[t] == Runnable || k.st[t] == SemWoken(s))
    requires k.sems[s].value > 0
    ensures SemInv(TryP(k, t, s, pos), s)
  {
    var k' := TryP(k, t, s, pos);
    assert With(k', SemWoken(s)) == With(k, SemWoken(s)) - {t};
  }

  lemma TryPInv(k: Kernel, t: Tid, s: Id, pos: nat)
    requires KInv(k) && s in k.sems && t in k.st && (k.st[t] == Runnable || k.st[t] == SemWoken(s))
    ensures KInv(TryP(k, t, s, pos))
  {
    var k' := TryP(k, t, s, pos);
    TryPSems(k, t, s, pos);
    assert Moves(k, k', t);
    LocksFrame(k, k', t);
    CondsFrame(k, k', t);
  }

  lemma TryPSems(k: Kernel, t: Tid, s: Id, pos: nat)
    requires SemsInv(k) && s in k.sems && t in k.st && (k.st[t] == Runnable || k.st[t] == SemWoken(s))
    ensures SemsInv(TryP(k, t, s, pos))
  {
    TryPSem(k, t, s, pos);
    OtherSems(k, TryP(k, t, s, pos), t, s);
  }

  lemma VSem(k: Kernel, s: Id)
    requires s in k.sems && SemInv(k, s)
    ensures SemInv(V(k, s), s)
  {
    var k' := V(k, s);
    var m := k.sems[s];
    if m.queue != [] {
      PopNoDup(m.queue);
      assert With(k', SemWoken(s)) == With(k, SemWoken(s)) + {m.queue[0]};
    }
  }

  lemma VInv(k: Kernel, s: Id)
    requires KInv(k) && s in k.sems
    ensures KInv(V(k, s))
  {
    VSem(k, s);
    if k.sems[s].queue == [] { VNobody(k, s); } else { VWakes(k, s); }
  }

  lemma VNobody(k: Kernel, s: Id)
    requires KInv(k) && s in k.sems && k.sems[s].queue == [] && SemInv(V(k, s), s)
    ensures KInv(V(k, s))
  {
    SemsSame(k, V(k, s), {s});
    LocksSame(k, V(k, s), {});
    CondsSame(k, V(k, s));
  }

  lemma VWakes(k: Kernel, s: Id)
    requires KInv(k) && s in k.sems && k.sems[s].queue != [] && SemInv(V(k, s), s)
    ensures KInv(V(k, s))
  {
    var k', t := V(k, s), k.sems[s].queue[0];
    assert t in k.sems[s].queue && SemInv(k, s);
    OtherSems(k, k', t, s);
    LocksFrame(k, k', t);
    CondsFrame(k, k', t);
  }

  lemma TryAcquireLock(k: Kernel, t: Tid, l: Id, pos: nat)
    requires l in k.locks && LockInv(k, l) && t in k.st && !Holds(k, t, l)
    requires k.st[t] == Runnable || k.st[t] == LockWoken(l) || k.st[t] == CondWoken(l)
    ensures LockInv(TryAcquire(k, t, l, pos), l)
  {
    var m := k.locks[l];
    assert t !in m.queue;
    if m.isLocked { InsertNoDup(m.queue, pos, t); }
  }

  lemma TryAcquireInv(k: Kernel, t: Tid, l: Id, pos: nat)
    requires KInv(k) && l in k.locks && t in k.st && !Holds(k, t, l)
    requires k.st[t] == Runnable || k.st[t] == LockWoken(l) || k.st[t] == CondWoken(l)
    ensures KInv(TryAcquire(k, t, l, pos))
  {
    var k' := TryAcquire(k, t, l, pos);
    TryAcquireLocks(k, t, l, pos);
    assert Moves(k, k', t);
    SemsFrame(k, k', t);
    CondsFrame(k, k', t);
  }

  lemma TryAcquireLocks(k: Kernel, t: Tid, l: Id, pos: nat)
    requires LocksInv(k) && l in k.locks && t in k.st && !Holds(k, t, l)
    requires k.st[t] == Runnable || k.st[t] == LockWoken(l) || k.st[t] == CondWoken(l)
    ensures LocksInv(TryAcquire(k, t, l, pos))
  {
    TryAcquireLock(k, t, l, pos);
    OtherLocks(k, TryAcquire(k, t, l, pos), t, l);
  }

  lemma ReleaseLock(k: Kernel, l: Id)
    requires l in k.locks && LockInv(k, l)
    ensures LockInv(Release(k, l), l)
  {
    var m := k.locks[l];
    if m.queue != [] {
      PopNoDup(m.queue);
      assert Release(k, l).st[m.queue[0]] == LockWoken(l);
    }
  }

  lemma ReleaseInv(k: Kernel, l: Id)
    requires KInv(k) && l in k.locks
    ensures KInv(Release(k, l))
  {
    ReleaseLock(k, l);
    if k.locks[l].queue == [] { ReleaseNobody(k, l); } else { ReleaseWakes(k, l); }
  }

  lemma ReleaseNobody(k: Kernel, l: Id)
    requires KInv(k) && l in k.locks && k.locks[l].queue == [] && LockInv(Release(k, l), l)
    ensures KInv(Release(k, l))
  {
    SemsSame(k, Release(k, l), {});
    LocksSame(k, Release(k, l), {l});
    CondsSame(k, Release(k, l));
  }

  lemma ReleaseWakes(k: Kernel, l: Id)
    requires KInv(k) && l in k.locks && k.locks[l].queue != [] && LockInv(Release(k, l), l)
    ensures KInv(Release(k, l))
  {
    var k', t := Release(k, l), k.locks[l].queue[0];
    assert t in k.locks[l].queue && LockInv(k, l);
    OtherLocks(k, k', t, l);
    SemsFrame(k, k', t);
    CondsFrame(k, k', t);
  }

  lemma CondOps(k: Kernel, k': Kernel, t: Tid, c: Id)
    requires CondsInv(k) && Moves(k, k', t) && c in k.conds && c in k'.conds
    requires k'.conds == k.conds[c := k'.conds[c]] && NoDup(k'.conds[c])
    requires k.st[t].CondQueued? ==> k.st[t].cond == c
    requires k'.st[t].CondQueued? ==> k'.st[t].cond == c
    requires forall u :: u in k'.conds[c] <==> if u == t then k'.st[t].CondQueued? else u in k.conds[c]
    ensures CondsInv(k')
  {
    forall d | d in k'.conds ensures CondInv(k', d) { assert CondInv(k, d); }
  }

  lemma WaitInv(k: Kernel, t: Tid, c: Id, l: Id, pos: nat)
    requires KInv(k) && Running(k, t) && Holds(k, t, l) && c in k.conds
    ensures KInv(Wait(k, t, c, l, pos))
  {
    ReleaseInv(k, l);
    var k1 := Release(k, l);
    assert Running(k1, t);
    var k' := Wait(k, t, c, l, pos);
    assert CondInv(k1, c);
    InsertNoDup(k1.conds[c], pos, t);
    SemsFrame(k1, k', t);
    LocksFrame(k1, k', t);
    CondOps(k1, k', t, c);
  }

  lemma SignalInv(k: Kernel, c: Id)
    requires KInv(k) && c in k.conds
    ensures KInv(Signal(k, c))
    ensures k.conds[c] != [] ==> k.conds[c][0] in k.st
  {
    var q := k.conds[c];
    if q != [] {
      var k' := Signal(k, c);
      assert CondInv(k, c);
      PopNoDup(q);
      SemsFrame(k, k', q[0]);
      assert forall l2 :: Holds(k, q[0], l2) ==> LockInv(k, l2);
      LocksFrame(k, k', q[0]);
      CondOps(k, k', q[0], c);
    }
  }

  lemma {:induction false} BroadcastInv(k: Kernel, c: Id)
    requires KInv(k) && c in k.conds
    ensures KInv(Broadcast(k, c)) && c in Broadcast(k, c).conds && Broadcast(k, c).conds[c] == []
    ensures Broadcast(k, c).locks == k.locks
    decreases |k.conds[c]|
  {
    if k.conds[c] != [] {
      SignalInv(k, c);
      BroadcastInv(Signal(k, c), c);
    }
  }

  /** Every step of every thread keeps the invariant. */
  lemma StepInv(k: Kernel, op: Op)
    requires KInv(k) && Enabled(k, op)
    ensures KInv(Step(k, op))
  {
    match op
    case OpP(t, s, pos) => TryPInv(k, t, s, pos);
    case OpV(s) => VInv(k, s);
    case OpAcquire(t, l, pos) => TryAcquireInv(k, t, l, pos);
    case OpRelease(t, l) => ReleaseInv(k, l);
    case OpWait(t, c, l, pos) => WaitInv(k, t, c, l, pos);
    case OpSignal(t, c, l) => SignalInv(k, c);
    case OpBroadcast(t, c, l) => BroadcastInv(k, c);
    case OpResume(t, pos) => ResumeInv(k, t, pos);
  }

  lemma ResumeInv(k: Kernel, t: Tid, pos: nat)
    requires KInv(k) && Enabled(k, OpResume(t, pos))
    ensures KInv(Step(k, OpResume(t, pos)))
  {
    match k.st[t]
    case SemWoken(s) => TryPInv(k, t, s, pos);
    case LockWoken(l) =>
      assert LockInv(k, l);
      TryAcquireInv(k, t, l, pos);
    case CondWoken(l) =>
      assert LockInv(k, l);
      TryAcquireInv(k, t, l, pos);
  }

  // ---- What the lock and condition steps change, for users of one monitor ---

  /** What one pass of Acquire by t does. */
  lemma AcquireEffect(k: Kernel, t: Tid, l: Id, pos: nat)
    requires l in k.locks && LockInv(k, l) && t in k.st && !Holds(k, t, l)
    ensures var k' := TryAcquire(k, t, l, pos);
      && k'.st.Keys == k.st.Keys && k'.locks.Keys == k.locks.Keys
      && k'.conds == k.conds && k'.sems == k.sems
      && (forall u :: u in k.st && u != t ==> k'.st[u] == k.st[u] && (Holds(k', u, l) <==> Holds(k, u, l)))
      && (if k.locks[l].isLocked then k'.st[t] == LockQueued(l) && !Holds(k', t, l)
            && k'.locks[l].currThread == k.locks[l].currThread
          else k'.st[t] == Runnable && k'.locks[l].currThread == Some(t) && k.locks[l].currThread == None)
  {}

  /** Releasing changes the status of at most one thread, a sleeper on the lock. */
  lemma ReleaseEffect(k: Kernel, l: Id)
    requires l in k.locks && LockInv(k, l)
    ensures var k' := Release(k, l);
      && k'.st.Keys == k.st.Keys && k'.locks.Keys == k.locks.Keys
      && k'.conds == k.conds && k'.sems == k.sems && k'.locks[l].currThread == None
      && forall u :: u in k.st ==> k'.st[u] == k.st[u] || (k.st[u] == LockQueued(l) && k'.st[u] == LockWoken(l))
  {
    var q := k.locks[l].queue;
    if q != [] { assert q[0] in q; }
  }

  lemma WaitEffect(k: Kernel, t: Tid, c: Id, l: Id, pos: nat)
    requires l in k.locks && LockInv(k, l) && c in k.conds && Running(k, t)
    ensures var k' := Wait(k, t, c, l, pos);
      && k'.st.Keys == k.st.Keys && k'.locks.Keys == k.locks.Keys && k'.conds.Keys == k.conds.Keys
      && k'.sems == k.sems && k'.locks[l].currThread == None && k'.st[t] == CondQueued(c, l)
      && forall u :: u in k.st && u != t ==>
           k'.st[u] == k.st[u] || (k.st[u] == LockQueued(l) && k'.st[u] == LockWoken(l))
  {
    ReleaseEffect(k, l);
  }

  /** Signal wakes the first waiter, if there is one, and nobody else. */
  lemma SignalEffect(k: Kernel, c: Id)
    requires c in k.conds && CondInv(k, c)
    ensures var k', q := Signal(k, c), k.conds[c];
      && k'.st.Keys == k.st.Keys && k'.locks == k.locks && k'.conds.Keys == k.conds.Keys && k'.sems == k.sems
      && k'.conds[c] == (if q == [] then [] else q[1..])
      && (forall d :: d in k.conds && d != c ==> k'.conds[d] == k.conds[d])
      && forall u :: u in k.st ==>
           k'.st[u] == if q != [] && u == q[0] then CondWoken(k.st[u].mon) else k.st[u]
    ensures forall u :: u in k.st && k.conds[c] != [] && u == k.conds[c][0] ==>
      k.st[u].CondQueued? && k.st[u].cond == c
  {
    if k.conds[c] != [] { assert k.conds[c][0] in k.conds[c]; }
  }

  lemma SignalCond(k: Kernel, c: Id)
    requires c in k.conds && CondInv(k, c)
    ensures CondInv(Signal(k, c), c)
  {
    if k.conds[c] != [] { PopNoDup(k.conds[c]); }
  }

  /** Broadcast wakes every waiter, each for the lock it gave up, and touches nothing else. */
  lemma {:induction false} BroadcastEffect(k: Kernel, c: Id)
    requires c in k.conds && CondInv(k, c)
    ensures var k' := Broadcast(k, c);
      && k'.sems == k.sems && k'.locks == k.locks && k'.conds == k.conds[c := []] && k'.st.Keys == k.st.Keys
      && forall u :: u in k.st ==>
           k'.st[u] == if k.st[u].CondQueued? && k.st[u].cond == c then CondWoken(k.st[u].mon) else k.st[u]
    decreases |k.conds[c]|
  {
    if k.conds[c] != [] {
      assert k.conds[c][0] in k.conds[c];
      SignalEffect(k, c);
      SignalCond(k, c);
      BroadcastEffect(Signal(k, c), c);
    }
  }

  function B(b: bool): int { if b then 1 else 0 }

  /** Two sets that agree outside u differ in size by u alone. */
  lemma SwapOne(a: set<Tid>, b: set<Tid>, u: Tid)
    requires forall t :: t != u ==> (t in a <==> t in b)
    ensures |b| == |a| - B(u in a) + B(u in b)
  {
    assert a - {u} == b - {u};
    assert |a - {u}| == |a| - B(u in a);
    assert |b - {u}| == |b| - B(u in b);
  }

  // ---- Whole runs ----------------------------------------------------------

  /** A boot state: queues empty, locks free, threads executing. */
  predicate Initial(k: Kernel) {
    && (forall s :: s in k.sems ==>
          k.sems[s] == Semaphore(k.sems[s].initial, k.sems[s].initial, [], 0, 0))
    && (forall l :: l in k.locks ==> k.locks[l] == Lock(false, None, []))
    && (forall c :: c in k.conds ==> k.conds[c] == [])
    && (forall t :: t in k.st ==> k.st[t] == Runnable)
  }

  /** The step sequence ops leads from k to k'. */
  ghost predicate Reaches(k: Kernel, ops: seq<Op>, k': Kernel)
    decreases |ops|
  {
    if ops == [] then k' == k
    else Enabled(k, ops[0]) && Reaches(Step(k, ops[0]), ops[1..], k')
  }

  lemma {:induction false} RunInv(k: Kernel, ops: seq<Op>, k': Kernel)
    requires KInv(k) && Reaches(k, ops, k')
    ensures KInv(k')
    decreases |ops|
  {
    if ops != [] {
      StepInv(k, ops[0]);
      RunInv(Step(k, ops[0]), ops[1..], k');
    }
  }

  // ---- The life of a thread ------------------------------------------------

  /** How one step can change the status of a thread. Whoever leaves P, Acquire or Wait does so
      by its own step, and never without having been woken. */
  predicate MayBecome(x: Status, y: Status, own: bool) {
    || y == x
    || (own && match x
          case Runnable => y.SemQueued? || y.LockQueued? || y.CondQueued?
          case SemWoken(s) => y == SemQueued(s) || y == Runnable
          case LockWoken(l) => y == LockQueued(l) || y == Runnable
          case CondWoken(l) => y == LockQueued(l) || y == Runnable
          case _ => false)
    || (!own && match x
          case SemQueued(s) => y == SemWoken(s)
          case LockQueued(l) => y == LockWoken(l)
          case CondQueued(_, l) => y == CondWoken(l)
          case _ => false)
  }

  predicate By(op: Op, t: Tid) { !op.OpV? && op.t == t }

  lemma LifeCycle(k: Kernel, op: Op, t: Tid)
    requires KInv(k) && Enabled(k, op) && t in k.st
    ensures t in Step(k, op).st && MayBecome(k.st[t], Step(k, op).st[t], By(op, t))
  {
    match op
    case OpV(s) =>
      assert SemInv(k, s);
      WokenByV(k, s, t);
    case OpRelease(_, l) =>
      assert LockInv(k, l);
      ReleaseEffect(k, l);
    case OpWait(u, c, l, pos) =>
      assert LockInv(k, l);
      WaitEffect(k, u, c, l, pos);
    case OpSignal(_, c, _) =>
      assert CondInv(k, c);
      SignalEffect(k, c);
    case OpBroadcast(_, c, _) =>
      assert CondInv(k, c);
      BroadcastEffect(k, c);
    case _ => OwnStep(k, op, t);
  }

  lemma OwnStep(k: Kernel, op: Op, t: Tid)
    requires Enabled(k, op) && t in k.st && (op.OpP? || op.OpAcquire? || op.OpResume?)
    ensures t in Step(k, op).st && MayBecome(k.st[t], Step(k, op).st[t], By(op, t))
  {}

  lemma WokenByV(k: Kernel, s: Id, t: Tid)
    requires s in k.sems && SemInv(k, s) && t in k.st
    ensures V(k, s).st.Keys == k.st.Keys
    ensures V(k, s).st[t] == k.st[t] || (k.st[t] == SemQueued(s) && V(k, s).st[t] == SemWoken(s))
  {
    var q := k.sems[s].queue;
    if q != [] { assert q[0] in q; }
  }

  /** What becomes of the thread that takes a step: P returns exactly if the value is positive, and
      Acquire, called or resumed, exactly if the lock is free; else the thread sleeps. */
  lemma OwnOutcome(k: Kernel, op: Op)
    requires Enabled(k, op) && (op.OpP? || op.OpAcquire? || op.OpWait? || op.OpResume?)
    ensures op.t in k.st && op.t in Step(k, op).st
    ensures var x, y := k.st[op.t], Step(k, op).st[op.t];
      && (op.OpP? ==> y == if k.sems[op.s].value > 0 then Runnable else SemQueued(op.s))
      && (op.OpResume? && x.SemWoken? ==> y == if k.sems[x.sem].value > 0 then Runnable else SemQueued(x.sem))
      && (op.OpAcquire? ==> y == if k.locks[op.l].isLocked then LockQueued(op.l) else Runnable)
      && (op.OpResume? && x.LockWoken? ==> y == if k.locks[x.lock].isLocked then LockQueued(x.lock) else Runnable)
      && (op.OpResume? && x.CondWoken? ==> y == if k.locks[x.mon].isLocked then LockQueued(x.mon) else Runnable)
      && (op.OpWait? ==> y == CondQueued(op.c, op.l))
  {}

  predicate Becomes(k: Kernel, k': Kernel, t: Tid, x: Status) { t in k.st && t in k'.st && k'.st[t] == x }

  /** V, Release and Wait wake the first sleeper, if there is one; Release and Wait free the lock. */
  lemma Wakeup(k: Kernel, op: Op)
    requires KInv(k) && Enabled(k, op) && (op.OpV? || op.OpRelease? || op.OpWait?)
    ensures var q := if op.OpV? then k.sems[op.s].queue else k.locks[op.l].queue;
      q != [] ==> Becomes(k, Step(k, op), q[0], if op.OpV? then SemWoken(op.s) else LockWoken(op.l))
    ensures !op.OpV? ==> op.l in Step(k, op).locks && !Step(k, op).locks[op.l].isLocked
  {
    if op.OpV? {
      assert SemInv(k, op.s);
      if k.sems[op.s].queue != [] { assert k.sems[op.s].queue[0] in k.sems[op.s].queue; }
    } else {
      assert LockInv(k, op.l);
      if k.locks[op.l].queue != [] { assert k.locks[op.l].queue[0] in k.locks[op.l].queue; }
    }
  }

  /** Signal wakes the first waiter and Broadcast all of them, each for the lock it gave up; they
      leave the queue, and nobody else moves. */
  lemma Notified(k: Kernel, op: Op)
    requires KInv(k) && Enabled(k, op) && (op.OpSignal? || op.OpBroadcast?)
    ensures var k', q := Step(k, op), k.conds[op.c];
      && k'.locks == k.locks && k'.sems == k.sems && k'.st.Keys == k.st.Keys
      && op.c in k'.conds && k'.conds[op.c] == (if op.OpBroadcast? || q == [] then [] else q[1..])
      && forall u :: u in k.st ==>
           k'.st[u] == if u in q && (op.OpBroadcast? || u == q[0]) then CondWoken(k.st[u].mon) else k.st[u]
    ensures forall u :: u in k.conds[op.c] ==> u in k.st && k.st[u].CondQueued? && k.st[u].cond == op.c
  {
    assert CondInv(k, op.c);
    if op.OpSignal? { SignalEffect(k, op.c); } else { BroadcastEffect(k, op.c); }
  }

  /** A thread that comes back from Acquire, or from Wait, has the lock. */
  lemma ReturnsWithLock(k: Kernel, op: Op, t: Tid, l: Id)
    requires KInv(k) && Enabled(k, op) && t in k.st && Outside(k.st[t], l) && Returned(Step(k, op), t)
    ensures Holds(Step(k, op), t, l) && (l in k.locks && !k.locks[l].isLocked)
  {
    LifeCycle(k, op, t);
  }

  /** The threads that come back from P on s in this step. */
  ghost function Passing(k: Kernel, op: Op, s: Id): (ts: set<Tid>)
    requires Enabled(k, op)
  {
    set t | t in k.st && Returned(Step(k, op), t)
            && (k.st[t] == SemQueued(s) || k.st[t] == SemWoken(s) || (op.OpP? && op.t == t && op.s == s))
  }

  /** How many calls of P on s returned in a run, and how many V's there were. */
  ghost function Passed(k: Kernel, ops: seq<Op>, s: Id): (n: nat)
    decreases |ops|
  {
    if ops == [] || !Enabled(k, ops[0]) then 0 else |Passing(k, ops[0], s)| + Passed(Step(k, ops[0]), ops[1..], s)
  }

  function Raised(ops: seq<Op>, s: Id): (n: nat) {
    if ops == [] then 0 else Raised(ops[1..], s) + if ops[0] == OpV(s) then 1 else 0
  }

  /** One step: each return from P takes one from the value, each V adds one. */
  lemma ValueMoves(k: Kernel, op: Op, s: Id)
    requires KInv(k) && Enabled(k, op) && s in k.sems
    ensures s in Step(k, op).sems
    ensures Step(k, op).sems[s].value + |Passing(k, op, s)| == k.sems[s].value + if op == OpV(s) then 1 else 0
    ensures Step(k, op).sems[s].initial == k.sems[s].initial
  {
    var passing := Passing(k, op, s);
    forall t | t in passing ensures By(op, t) { LifeCycle(k, op, t); }
    match op
    case OpV(_) => assert passing == {};
    case OpBroadcast(t, c, _) =>
      assert CondInv(k, c);
      BroadcastEffect(k, c);
      NonePasses(k, op, s);
    case OpP(t, _, _) => ValueTaken(k, op, s);
    case OpResume(t, _) => ValueTaken(k, op, s);
    case _ => NonePasses(k, op, s);
  }

  lemma ValueTaken(k: Kernel, op: Op, s: Id)
    requires Enabled(k, op) && s in k.sems && (op.OpP? || op.OpResume?)
    requires forall t :: t in Passing(k, op, s) ==> By(op, t)
    ensures s in Step(k, op).sems && Step(k, op).sems[s].value + |Passing(k, op, s)| == k.sems[s].value
    ensures Step(k, op).sems[s].initial == k.sems[s].initial
  {
    PasserOnly(k, op, s);
  }

  lemma PasserOnly(k: Kernel, op: Op, s: Id)
    requires Enabled(k, op) && (op.OpP? || op.OpResume?) && forall t :: t in Passing(k, op, s) ==> By(op, t)
    ensures |Passing(k, op, s)| == if op.t in Passing(k, op, s) then 1 else 0
  {
    assert Passing(k, op, s) == if op.t in Passing(k, op, s) then {op.t} else {};
  }

  lemma NonePasses(k: Kernel, op: Op, s: Id)
    requires Enabled(k, op) && (op.OpBroadcast? || op.OpSignal? || op.OpAcquire? || op.OpRelease? || op.OpWait?)
    requires forall t :: t in Passing(k, op, s) ==> By(op, t)
    ensures Passing(k, op, s) == {}
  {
    assert op.t !in Passing(k, op, s);
  }

  lemma {:induction false} ValueCounts(k: Kernel, ops: seq<Op>, k': Kernel, s: Id)
    requires KInv(k) && Reaches(k, ops, k') && s in k.sems
    ensures s in k'.sems && k'.sems[s].value + Passed(k, ops, s) == k.sems[s].value + Raised(ops, s)
    decreases |ops|
  {
    if ops != [] {
      StepInv(k, ops[0]);
      ValueMoves(k, ops[0], s);
      ValueCounts(Step(k, ops[0]), ops[1..], k', s);
    }
  }

  /** In every run no more calls of P have returned than the initial value and the V's allow. */
  lemma SemaphoreCounts(k: Kernel, ops: seq<Op>, k': Kernel, s: Id)
    requires Initial(k) && Reaches(k, ops, k') && s in k.sems
    ensures s in k'.sems && k'.sems[s].value == k.sems[s].initial + Raised(ops, s) - Passed(k, ops, s)
  {
    ValueCounts(k, ops, k', s);
  }

  // ---- Mutual exclusion ----------------------------------------------------

  /** The critical sections under way, kept from what the threads do alone: a thread is inside l
      from the return of Acquire or Wait to its Release or its next Wait. */
  type Sections = set<(Tid, Id)>

  predicate Returned(k: Kernel, t: Tid) { t in k.st && k.st[t] == Runnable }

  /** Everybody who was in Acquire or Wait before and runs its own code after, whatever the step. */
  ghost function Returns(k: Kernel, k': Kernel): (h: Sections) {
    set t, l | t in k.st && l in k.locks && Outside(k.st[t], l) && Returned(k', t) :: (t, l)
  }

  ghost function Entered(h: Sections, k: Kernel, op: Op): (h': Sections)
    requires Enabled(k, op)
  {
    var back := h + Returns(k, Step(k, op));
    match op
    case OpAcquire(t, l, _) => if Returned(Step(k, op), t) then back + {(t, l)} else back
    case OpRelease(t, l) => back - {(t, l)}
    case OpWait(t, _, l, _) => back - {(t, l)}
    case _ => back
  }

  ghost function CriticalSections(h: Sections, k: Kernel, ops: seq<Op>): (h': Sections)
    decreases |ops|
  {
    if ops == [] || !Enabled(k, ops[0]) then h
    else CriticalSections(Entered(h, k, ops[0]), Step(k, ops[0]), ops[1..])
  }

  ghost predicate MatchesOwners(h: Sections, k: Kernel) {
    forall t: Tid, l: Id :: (t, l) in h <==> Holds(k, t, l)
  }

  /** How a step changes the owners. */
  lemma OwnersMove(k: Kernel, op: Op, t: Tid, l: Id)
    requires KInv(k) && Enabled(k, op)
    ensures Holds(Step(k, op), t, l) <==>
      || (t, l) in Returns(k, Step(k, op))
      || (op.OpAcquire? && op.t == t && op.l == l && Returned(Step(k, op), t))
      || (Holds(k, t, l) && !((op.OpRelease? || op.OpWait?) && op.t == t && op.l == l))
  {
    if (t, l) in Returns(k, Step(k, op)) { ReturnsWithLock(k, op, t, l); }
    match op
    case OpResume(_, _) => ResumedOwner(k, op, t, l);
    case OpBroadcast(_, c, _) =>
      assert CondInv(k, c);
      BroadcastEffect(k, c);
    case OpAcquire(_, m, _) => LockOwners(k, op, t, l);
    case OpRelease(_, m) => LockOwners(k, op, t, l);
    case OpWait(_, _, m, _) => LockOwners(k, op, t, l);
    case _ => assert Step(k, op).locks == k.locks;
  }

  lemma LockOwners(k: Kernel, op: Op, t: Tid, l: Id)
    requires Enabled(k, op) && (op.OpAcquire? || op.OpRelease? || op.OpWait?) && LockInv(k, op.l)
    requires (t, l) in Returns(k, Step(k, op)) ==> Holds(Step(k, op), t, l)
    ensures Holds(Step(k, op), t, l) <==>
      || (t, l) in Returns(k, Step(k, op))
      || (op.OpAcquire? && op.t == t && op.l == l && Returned(Step(k, op), t))
      || (Holds(k, t, l) && !((op.OpRelease? || op.OpWait?) && op.t == t && op.l == l))
  {
    if op.OpAcquire? { AcquiredOwner(k, op.t, op.l, op.pos, t, l); }
  }

  /** One pass of Acquire by u. */
  lemma AcquiredOwner(k: Kernel, u: Tid, m: Id, pos: nat, t: Tid, l: Id)
    requires m in k.locks && LockInv(k, m) && u in k.st
    ensures Holds(TryAcquire(k, u, m, pos), t, l)
       <==> (t == u && l == m && Returned(TryAcquire(k, u, m, pos), u)) || Holds(k, t, l)
  {}

  lemma ResumedOwner(k: Kernel, op: Op, t: Tid, l: Id)
    requires LocksInv(k) && Enabled(k, op) && op.OpResume?
    ensures Holds(Step(k, op), t, l) <==> (t, l) in Returns(k, Step(k, op)) || Holds(k, t, l)
  {
    match k.st[op.t]
    case LockWoken(m) => RelockedOwner(k, op, m, t, l);
    case CondWoken(m) => RelockedOwner(k, op, m, t, l);
    case SemWoken(s) => PassedOwner(k, op, s, t, l);
  }

  lemma PassedOwner(k: Kernel, op: Op, s: Id, t: Tid, l: Id)
    requires Enabled(k, op) && op.OpResume? && k.st[op.t] == SemWoken(s)
    ensures Step(k, op).locks == k.locks && (t, l) !in Returns(k, Step(k, op))
  {}

  lemma RelockedOwner(k: Kernel, op: Op, m: Id, t: Tid, l: Id)
    requires Enabled(k, op) && op.OpResume? && m in k.locks && LockInv(k, m)
    requires k.st[op.t] == LockWoken(m) || k.st[op.t] == CondWoken(m)
    ensures Holds(Step(k, op), t, l) <==> (t, l) in Returns(k, Step(k, op)) || Holds(k, t, l)
  {
    AcquiredOwner(k, op.t, m, op.pos, t, l);
    AcquiredReturns(k, op.t, m, op.pos, t, l);
  }

  lemma AcquiredReturns(k: Kernel, u: Tid, m: Id, pos: nat, t: Tid, l: Id)
    requires m in k.locks && u in k.st && (k.st[u] == LockWoken(m) || k.st[u] == CondWoken(m))
    ensures (t, l) in Returns(k, TryAcquire(k, u, m, pos))
       <==> t == u && l == m && Returned(TryAcquire(k, u, m, pos), u)
  {}

  lemma EnteredMatches(h: Sections, k: Kernel, op: Op)
    requires KInv(k) && Enabled(k, op) && MatchesOwners(h, k)
    ensures MatchesOwners(Entered(h, k, op), Step(k, op))
  {
    forall t: Tid, l: Id ensures (t, l) in Entered(h, k, op) <==> Holds(Step(k, op), t, l) {
      OwnersMove(k, op, t, l);
    }
  }

  lemma {:induction false} InsideMatches(h: Sections, k: Kernel, ops: seq<Op>, k': Kernel)
    requires KInv(k) && Reaches(k, ops, k') && MatchesOwners(h, k)
    ensures MatchesOwners(CriticalSections(h, k, ops), k')
    decreases |ops|
  {
    if ops != [] {
      StepInv(k, ops[0]);
      EnteredMatches(h, k, ops[0]);
      InsideMatches(Entered(h, k, ops[0]), Step(k, ops[0]), ops[1..], k');
    }
  }

  /** In every run at most one thread is between the return of Acquire and its Release or Wait,
      for each lock, and it is the one the lock's owner field names. */
  lemma MutualExclusion(k: Kernel, ops: seq<Op>, k': Kernel)
    requires Initial(k) && Reaches(k, ops, k')
    ensures forall t: Tid, l: Id :: (t, l) in CriticalSections({}, k, ops) <==> Holds(k', t, l)
    ensures forall t: Tid, u: Tid, l: Id ::
      (t, l) in CriticalSections({}, k, ops) && (u, l) in CriticalSections({}, k, ops) ==> t == u
    ensures forall l: Id :: l in k'.locks ==>
      (k'.locks[l].isLocked <==> exists t: Tid :: (t, l) in CriticalSections({}, k, ops))
  {
    InsideMatches({}, k, ops, k');
    RunInv(k, ops, k');
    forall l: Id | l in k'.locks
      ensures k'.locks[l].isLocked <==> exists t: Tid :: (t, l) in CriticalSections({}, k, ops)
    {
      assert LockInv(k', l);
      if k'.locks[l].isLocked { assert Holds(k', k'.locks[l].currThread.value, l); }
    }
  }

  /** No wakeup is lost in any run of any threads under any interleaving. */
  lemma NoLostWakeup(k: Kernel, ops: seq<Op>, k': Kernel)
    requires Initial(k) && Reaches(k, ops, k')
    ensures forall s :: s in k'.sems ==>
      && (k'.sems[s].queue != [] ==> k'.sems[s].value <= |With(k', SemWoken(s))|)
      && k'.sems[s].value == k'.sems[s].initial + k'.sems[s].ups - k'.sems[s].downs
    ensures forall l :: l in k'.locks ==>
      (!k'.locks[l].isLocked && k'.locks[l].queue != [] ==> exists t :: t in k'.st && k'.st[t] == LockWoken(l))
    ensures forall l, t :: Holds(k', t, l) ==>
      k'.locks[l].isLocked && t in k'.st && !Outside(k'.st[t], l)
    ensures forall t: Tid, u: Tid, l: Id ::
      (t, l) in CriticalSections({}, k, ops) && (u, l) in CriticalSections({}, k, ops) ==> t == u
  {
    MutualExclusion(k, ops, k');
    RunInv(k, ops, k');
    assert forall s :: s in k'.sems ==> SemInv(k', s);
    assert forall l :: l in k'.locks ==> LockInv(k', l);
  }

  /** When nobody is left to run, a sleeper on a semaphore means its value is zero, and a
      sleeper on a lock means some thread holds it. */
  lemma QuiescentSleepers(k: Kernel, ops: seq<Op>, k': Kernel)
    requires Initial(k) && Reaches(k, ops, k')
    requires forall t :: t in k'.st ==> !k'.st[t].SemWoken? && !k'.st[t].LockWoken?
    ensures forall t :: t in k'.st && k'.st[t].SemQueued? && k'.st[t].sem in k'.sems ==>
      k'.sems[k'.st[t].sem].value == 0
    ensures forall t :: t in k'.st && k'.st[t].LockQueued? && k'.st[t].lock in k'.locks ==>
      k'.locks[k'.st[t].lock].isLocked
  {
    RunInv(k, ops, k');
    forall t | t in k'.st && k'.st[t].SemQueued? && k'.st[t].sem in k'.sems
      ensures k'.sems[k'.st[t].sem].value == 0
    {
      var s := k'.st[t].sem;
      assert SemInv(k', s);
      assert With(k', SemWoken(s)) == {};
      assert t in k'.sems[s].queue;
    }
    forall t | t in k'.st && k'.st[t].LockQueued? && k'.st[t].lock in k'.locks
      ensures k'.locks[k'.st[t].lock].isLocked
    {
      assert LockInv(k', k'.st[t].lock);
      assert t in k'.locks[k'.st[t].lock].queue;
    }
  }
}
