/** SynchList (code/threads/synchlist.cc): a list that any number of threads append to and
    remove from, blocking while it is empty. */
module SynchLists {
  import opened Wrappers
  import opened Synch

  const LOCK: Id := 0
  const EMPTY: Id := 0   // listEmpty

  datatype Pc<T> =
    | Idle
    | AHave(item: T)  // Append: in, or past, lock->Acquire()
    | ASignal         // Append: item is on the list, about to signal
    | AExit
    | RHave           // Remove: in, or past, lock->Acquire()
    | RAgain          // Remove: waiting for a non-empty list, or woken to look again
    | RExit(item: T)

  datatype SynchList<T> = SynchList(
    k: Kernel, pc: map<Tid, Pc<T>>, list: seq<T>,
    appended: seq<T>, removed: seq<T>)  // histories

  datatype Event<T> =
    | CallAppend(t: Tid, item: T, pos: nat)
    | CallRemove(t: Tid, pos: nat)
    | Local(t: Tid, pos: nat)
    | Resume(t: Tid, pos: nat)

  predicate CanStep<T(==)>(m: SynchList<T>, t: Tid) {
    t in m.pc && !m.pc[t].Idle? && Running(m.k, t)
  }

  /** The kernel step behind the next step of t's own code, if any. */
  function KernelOp<T>(m: SynchList<T>, t: Tid, pos: nat): Option<Op>
    requires t in m.pc
  {
    match m.pc[t]
    case ASignal => Some(OpSignal(t, EMPTY, LOCK))
    case AExit => Some(OpRelease(t, LOCK))
    case RHave => if m.list == [] then Some(OpWait(t, EMPTY, LOCK, pos)) else None
    case RAgain => if m.list == [] then Some(OpWait(t, EMPTY, LOCK, pos)) else None
    case RExit(_) => Some(OpRelease(t, LOCK))
    case _ => None
  }

  /** The lock's ASSERTs hold for the next step of t. */
  predicate Safe<T>(m: SynchList<T>, t: Tid, pos: nat)
    requires t in m.pc
  {
    KernelOp(m, t, pos).Some? ==> Enabled(m.k, KernelOp(m, t, pos).value)
  }

  function LocalStep<T>(m: SynchList<T>, t: Tid, pos: nat): SynchList<T>
    requires t in m.pc && !m.pc[t].Idle? && Safe(m, t, pos)
  {
    var op := KernelOp(m, t, pos);
    var k' := if op.Some? then Step(m.k, op.value) else m.k;
    match m.pc[t]
    case AHave(x) => m.(list := m.list + [x], appended := m.appended + [x], pc := m.pc[t := ASignal])
    case ASignal => m.(k := k', pc := m.pc[t := AExit])
    case AExit => m.(k := k', pc := m.pc[t := Idle])
    case RHave => if m.list == [] then m.(k := k', pc := m.pc[t := RAgain]) else Take(m, t)
    case RAgain => if m.list == [] then m.(k := k') else Take(m, t)
    case RExit(_) => m.(k := k', pc := m.pc[t := Idle])
  }

  function Take<T>(m: SynchList<T>, t: Tid): SynchList<T>
    requires m.list != []
  {
    m.(list := m.list[1..], removed := m.removed + [m.list[0]], pc := m.pc[t := RExit(m.list[0])])
  }

  predicate Possible<T(==)>(m: SynchList<T>, e: Event<T>) {
    match e
    case CallAppend(t, _, pos) => t in m.pc && m.pc[t].Idle? && Enabled(m.k, OpAcquire(t, LOCK, pos))
    case CallRemove(t, pos) => t in m.pc && m.pc[t].Idle? && Enabled(m.k, OpAcquire(t, LOCK, pos))
    case Local(t, pos) => CanStep(m, t) && Safe(m, t, pos)
    case Resume(t, pos) => Enabled(m.k, OpResume(t, pos))
  }

  function Next<T(==)>(m: SynchList<T>, e: Event<T>): SynchList<T>
    requires Possible(m, e)
  {
    match e
    case CallAppend(t, x, pos) => Enter(m, t, pos, AHave(x))
    case CallRemove(t, pos) => Enter(m, t, pos, RHave)
    case Local(t, pos) => LocalStep(m, t, pos)
    case Resume(t, pos) => m.(k := Step(m.k, OpResume(t, pos)))
  }

  function Enter<T>(m: SynchList<T>, t: Tid, pos: nat, p: Pc<T>): SynchList<T>
    requires LOCK in m.k.locks
  {
    m.(k := TryAcquire(m.k, t, LOCK, pos), pc := m.pc[t := p])
  }

  predicate Initially<T(==)>(m: SynchList<T>) {
    && Initial(m.k) && m.k.sems == map[]
    && m.k.locks == map[LOCK := Lock(false, None, [])] && m.k.conds == map[EMPTY := []]
    && m.pc.Keys == m.k.st.Keys && (forall t :: t in m.pc ==> m.pc[t].Idle?)
    && m.list == [] && m.appended == [] && m.removed == []
  }

  // ---- The invariant -------------------------------------------------------

  predicate Consistent<T>(x: Status, p: Pc<T>, holds: bool) {
    && (holds <==> x == Runnable && !p.Idle?)
    && match p
       case AHave(_) => x == Runnable || x == LockQueued(LOCK) || x == LockWoken(LOCK)
       case RHave => x == Runnable || x == LockQueued(LOCK) || x == LockWoken(LOCK)
       case RAgain => x == Runnable || x == CondQueued(EMPTY, LOCK) || x == CondWoken(LOCK)
                      || x == LockQueued(LOCK) || x == LockWoken(LOCK)
       case _ => x == Runnable
  }

  ghost predicate Shape<T>(m: SynchList<T>) {
    && m.pc.Keys == m.k.st.Keys
    && m.k.locks.Keys == {LOCK} && m.k.conds.Keys == {EMPTY} && m.k.sems == map[]
    && forall t :: t in m.pc ==> Consistent(m.k.st[t], m.pc[t], Holds(m.k, t, LOCK))
  }

  /** Waiters asleep on listEmpty. */
  ghost function Asleep<T>(m: SynchList<T>): set<Tid> {
    set t | t in m.pc && t in m.k.st && m.pc[t].RAgain? && m.k.st[t].CondQueued?
  }

  /** Waiters that were signalled and have not looked at the list again yet. */
  ghost function Woken<T>(m: SynchList<T>): set<Tid> {
    set t | t in m.pc && t in m.k.st && m.pc[t].RAgain? && !m.k.st[t].CondQueued?
  }

  /** An appender has put its item on the list and not signalled yet. */
  ghost predicate Signalling<T>(m: SynchList<T>) {
    exists t :: t in m.pc && m.pc[t].ASignal?
  }

  ghost predicate LInv<T>(m: SynchList<T>) {
    && Shape(m)
    && m.removed + m.list == m.appended
    && (Asleep(m) != {} ==> |m.list| <= |Woken(m)| + if Signalling(m) then 1 else 0)
  }

  ghost predicate Inv<T>(m: SynchList<T>) { KInv(m.k) && LInv(m) }

  lemma InitInv<T>(m: SynchList<T>)
    requires Initially(m)
    ensures Inv(m)
  {
    assert Asleep(m) == {};
    RunInv(m.k, [], m.k);
  }

  lemma WaitersUseLock<T>(m: SynchList<T>)
    requires Shape(m) && CondInv(m.k, EMPTY)
    ensures UsesLock(m.k, EMPTY, LOCK)
    ensures forall u :: u in m.k.conds[EMPTY] <==> u in Asleep(m)
  {
    assert forall u :: u in m.pc ==> Consistent(m.k.st[u], m.pc[u], Holds(m.k, u, LOCK));
  }

  lemma AlwaysSafe<T>(m: SynchList<T>, t: Tid, pos: nat)
    requires Shape(m) && CanStep(m, t) && CondInv(m.k, EMPTY)
    ensures Safe(m, t, pos)
  {
    assert Consistent(m.k.st[t], m.pc[t], Holds(m.k, t, LOCK));
    WaitersUseLock(m);
  }

  /** Only the thread inside the monitor is at ASignal, so t being elsewhere decides. */
  lemma OneInside<T>(m: SynchList<T>, t: Tid)
    requires Shape(m) && CanStep(m, t)
    ensures Holds(m.k, t, LOCK) && (Signalling(m) <==> m.pc[t].ASignal?)
  {
    assert Consistent(m.k.st[t], m.pc[t], Holds(m.k, t, LOCK));
    forall u | u in m.pc && m.pc[u].ASignal?
      ensures u == t
    {
      assert Consistent(m.k.st[u], m.pc[u], Holds(m.k, u, LOCK));
    }
  }

  /** If only u may change between asleep and awake, the set sizes change by u alone. */
  lemma OneMoves<T>(m: SynchList<T>, m': SynchList<T>, u: Tid)
    requires m'.pc.Keys == m.pc.Keys && m'.k.st.Keys == m.k.st.Keys == m.pc.Keys
    requires forall t :: t in m.pc && t != u ==>
      m'.pc[t].RAgain? == m.pc[t].RAgain? && m'.k.st[t].CondQueued? == m.k.st[t].CondQueued?
    ensures Asleep(m') - {u} == Asleep(m) - {u}
    ensures |Woken(m')| == |Woken(m)| - B(u in Woken(m)) + B(u in Woken(m'))
  {
    SwapOne(Woken(m), Woken(m'), u);
  }

  // ---- Preservation --------------------------------------------------------

  predicate MayEnter<T(==)>(m: SynchList<T>, t: Tid, p: Pc<T>) {
    && t in m.pc && t in m.k.st && LOCK in m.k.locks && !Holds(m.k, t, LOCK)
    && (if m.pc[t].Idle? then p.AHave? || p.RHave?
        else p == m.pc[t] && (m.k.st[t] == LockWoken(LOCK) || m.k.st[t] == CondWoken(LOCK)))
  }

  lemma EnterInv<T>(m: SynchList<T>, t: Tid, pos: nat, p: Pc<T>)
    requires LInv(m) && MayEnter(m, t, p) && LockInv(m.k, LOCK)
    ensures LInv(Enter(m, t, pos, p))
  {
    var m' := Enter(m, t, pos, p);
    AcquireEffect(m.k, t, LOCK, pos);
    assert Consistent(m.k.st[t], m.pc[t], Holds(m.k, t, LOCK));
    forall u | u in m.pc ensures Consistent(m'.k.st[u], m'.pc[u], Holds(m'.k, u, LOCK)) {
      assert Consistent(m.k.st[u], m.pc[u], Holds(m.k, u, LOCK));
    }
    OneMoves(m, m', t);
    assert forall u :: u in m.pc && m.pc[u].ASignal? ==> m'.pc[u].ASignal?;
  }

  lemma WaitStepInv<T>(m: SynchList<T>, t: Tid, pos: nat)
    requires LInv(m) && CanStep(m, t) && Safe(m, t, pos) && LockInv(m.k, LOCK)
    requires (m.pc[t].RHave? || m.pc[t].RAgain?) && m.list == []
    ensures LInv(LocalStep(m, t, pos))
  {
    var m' := LocalStep(m, t, pos);
    WaitEffect(m.k, t, EMPTY, LOCK, pos);
    forall u | u in m.pc ensures Consistent(m'.k.st[u], m'.pc[u], Holds(m'.k, u, LOCK)) {
      assert Consistent(m.k.st[u], m.pc[u], Holds(m.k, u, LOCK));
    }
  }

  lemma SignalStepInv<T>(m: SynchList<T>, t: Tid, pos: nat)
    requires LInv(m) && CanStep(m, t) && Safe(m, t, pos) && m.pc[t].ASignal? && CondInv(m.k, EMPTY)
    ensures LInv(LocalStep(m, t, pos))
  {
    var m' := LocalStep(m, t, pos);
    SignalEffect(m.k, EMPTY);
    WaitersUseLock(m);
    OneInside(m, t);
    forall u | u in m.pc ensures Consistent(m'.k.st[u], m'.pc[u], Holds(m'.k, u, LOCK)) {
      assert Consistent(m.k.st[u], m.pc[u], Holds(m.k, u, LOCK));
    }
    SignalStepSets(m, t, pos);
  }

  lemma SignalStepSets<T>(m: SynchList<T>, t: Tid, pos: nat)
    requires Shape(m) && CanStep(m, t) && Safe(m, t, pos) && m.pc[t].ASignal? && CondInv(m.k, EMPTY)
    ensures var m' := LocalStep(m, t, pos);
      && Asleep(m') <= Asleep(m)
      && |Woken(m')| == |Woken(m)| + if Asleep(m) != {} then 1 else 0
  {
    var m' := LocalStep(m, t, pos);
    WaitersUseLock(m);
    var q := m.k.conds[EMPTY];
    if q == [] {
      assert Woken(m') == Woken(m);
    } else {
      assert q[0] in q;
      OneMoves(m, m', q[0]);
    }
  }

  lemma ExitStepInv<T>(m: SynchList<T>, t: Tid, pos: nat)
    requires LInv(m) && CanStep(m, t) && Safe(m, t, pos) && LockInv(m.k, LOCK)
    requires m.pc[t].AExit? || m.pc[t].RExit?
    ensures LInv(LocalStep(m, t, pos))
  {
    var m' := LocalStep(m, t, pos);
    OneInside(m, t);
    ReleaseEffect(m.k, LOCK);
    forall u | u in m.pc ensures Consistent(m'.k.st[u], m'.pc[u], Holds(m'.k, u, LOCK)) {
      assert Consistent(m.k.st[u], m.pc[u], Holds(m.k, u, LOCK));
    }
    assert Asleep(m') == Asleep(m) && Woken(m') == Woken(m);
  }

  lemma DataStepInv<T>(m: SynchList<T>, t: Tid, pos: nat)
    requires LInv(m) && CanStep(m, t) && Safe(m, t, pos)
    requires m.pc[t].AHave? || ((m.pc[t].RHave? || m.pc[t].RAgain?) && m.list != [])
    ensures LInv(LocalStep(m, t, pos))
  {
    var m' := LocalStep(m, t, pos);
    OneInside(m, t);
    OneMoves(m, m', t);
    assert m.pc[t].AHave? ==> m'.pc[t].ASignal?;
  }

  lemma NextLInv<T>(m: SynchList<T>, e: Event<T>)
    requires LInv(m) && Possible(m, e) && LockInv(m.k, LOCK) && CondInv(m.k, EMPTY)
    ensures LInv(Next(m, e))
  {
    match e
    case CallAppend(t, x, pos) => EnterInv(m, t, pos, AHave(x));
    case CallRemove(t, pos) => EnterInv(m, t, pos, RHave);
    case Resume(t, pos) =>
      assert Consistent(m.k.st[t], m.pc[t], Holds(m.k, t, LOCK));
      assert m.pc[t := m.pc[t]] == m.pc;
      EnterInv(m, t, pos, m.pc[t]);
    case Local(t, pos) => LocalInv(m, t, pos);
  }

  lemma LocalInv<T>(m: SynchList<T>, t: Tid, pos: nat)
    requires LInv(m) && CanStep(m, t) && Safe(m, t, pos) && LockInv(m.k, LOCK) && CondInv(m.k, EMPTY)
    ensures LInv(LocalStep(m, t, pos))
  {
    match m.pc[t]
    case AHave(_) => DataStepInv(m, t, pos);
    case ASignal => SignalStepInv(m, t, pos);
    case AExit => ExitStepInv(m, t, pos);
    case RExit(_) => ExitStepInv(m, t, pos);
    case _ => if m.list == [] { WaitStepInv(m, t, pos); } else { DataStepInv(m, t, pos); }
  }

  lemma NextKInv<T>(m: SynchList<T>, e: Event<T>)
    requires KInv(m.k) && Possible(m, e)
    ensures KInv(Next(m, e).k)
  {
    match e
    case CallAppend(t, _, pos) => StepInv(m.k, OpAcquire(t, LOCK, pos));
    case CallRemove(t, pos) => StepInv(m.k, OpAcquire(t, LOCK, pos));
    case Resume(t, pos) => StepInv(m.k, OpResume(t, pos));
    case Local(t, pos) =>
      if KernelOp(m, t, pos).Some? { StepInv(m.k, KernelOp(m, t, pos).value); }
  }

  // ---- Every reachable state -----------------------------------------------

  ghost predicate Reachable<T>(m: SynchList<T>, events: seq<Event<T>>, m': SynchList<T>)
    decreases |events|
  {
    if events == [] then m' == m
    else Possible(m, events[0]) && Reachable(Next(m, events[0]), events[1..], m')
  }

  lemma {:induction false} ReachableInv<T>(m: SynchList<T>, events: seq<Event<T>>, m': SynchList<T>)
    requires Inv(m) && Reachable(m, events, m')
    ensures Inv(m')
    decreases |events|
  {
    if events != [] {
      assert LockInv(m.k, LOCK) && CondInv(m.k, EMPTY);
      NextKInv(m, events[0]);
      NextLInv(m, events[0]);
      ReachableInv(Next(m, events[0]), events[1..], m');
    }
  }

  /** SynchList is a blocking FIFO queue: in every reachable state, what was removed
      followed by what is on the list is what was appended; outside an Append that has not
      signalled yet, no waiter sleeps while the list holds more items than there are woken
      waiters; and the lock's ASSERTs hold. */
  lemma BlockingQueue<T>(m0: SynchList<T>, events: seq<Event<T>>, m: SynchList<T>)
    requires Initially(m0) && Reachable(m0, events, m)
    ensures m.removed + m.list == m.appended
    ensures Asleep(m) != {} && !Signalling(m) ==> |m.list| <= |Woken(m)|
    ensures forall t, pos :: CanStep(m, t) ==> Safe(m, t, pos)
  {
    InitInv(m0);
    ReachableInv(m0, events, m);
    assert CondInv(m.k, EMPTY);
    forall t, pos | CanStep(m, t) ensures Safe(m, t, pos) { AlwaysSafe(m, t, pos); }
  }

  // ---- From the calls alone ------------------------------------------------

  /** The items that a run puts on the list, from the events alone: a thread's first own step after
      CallAppend appends the item of that call. */
  function Appends<T>(calling: map<Tid, T>, events: seq<Event<T>>): (items: seq<T>)
    decreases |events|
  {
    if events == [] then [] else Appended(calling, events[0]) + Appends(StillCalling(calling, events[0]), events[1..])
  }

  function Appended<T>(calling: map<Tid, T>, e: Event<T>): (items: seq<T>) {
    if e.Local? && e.t in calling then [calling[e.t]] else []
  }

  function StillCalling<T>(calling: map<Tid, T>, e: Event<T>): (calling': map<Tid, T>) {
    match e
    case CallAppend(t, x, _) => calling[t := x]
    case Local(t, _) => calling - {t}
    case _ => calling
  }

  ghost predicate Calling<T>(m: SynchList<T>, calling: map<Tid, T>) {
    forall t :: t in m.pc ==> (t in calling <==> m.pc[t].AHave?) && (t in calling ==> m.pc[t] == AHave(calling[t]))
  }

  lemma AppendsStep<T>(m: SynchList<T>, calling: map<Tid, T>, e: Event<T>)
    requires Calling(m, calling) && Possible(m, e)
    ensures Calling(Next(m, e), StillCalling(calling, e)) && Next(m, e).appended == m.appended + Appended(calling, e)
  {
    match e
    case Local(t, pos) => assert m.pc[t].AHave? <==> t in calling;
    case _ =>
  }

  lemma {:induction false} AppendsInOrder<T>(m: SynchList<T>, calling: map<Tid, T>, events: seq<Event<T>>,
                                             m': SynchList<T>)
    requires Calling(m, calling) && Reachable(m, events, m')
    ensures m'.appended == m.appended + Appends(calling, events)
    decreases |events|
  {
    if events != [] {
      var e := events[0];
      AppendsStep(m, calling, e);
      AppendsInOrder(Next(m, e), StillCalling(calling, e), events[1..], m');
      Regroup(m.appended, Appended(calling, e), Appends(StillCalling(calling, e), events[1..]));
    }
  }

  /** What the callers of Remove get back in a run: the item with which each call returns. */
  ghost function Returned<T>(m: SynchList<T>, events: seq<Event<T>>): (items: seq<T>)
    decreases |events|
  {
    if events == [] || !Possible(m, events[0]) then []
    else Returning(m, events[0]) + Returned(Next(m, events[0]), events[1..])
  }

  function Returning<T>(m: SynchList<T>, e: Event<T>): (items: seq<T>) {
    if e.Local? && e.t in m.pc && m.pc[e.t].RExit? then [m.pc[e.t].item] else []
  }

  /** The item that was taken and whose call has not returned yet. */
  ghost function InHand<T>(m: SynchList<T>): (items: seq<T>)
    requires LOCK in m.k.locks
  {
    var h := m.k.locks[LOCK].currThread;
    if h.Some? && h.value in m.pc && m.pc[h.value].RExit? then [m.pc[h.value].item] else []
  }

  lemma HandMoves<T>(m: SynchList<T>, e: Event<T>, before: seq<T>)
    requires Shape(m) && Possible(m, e) && LockInv(m.k, LOCK) && Shape(Next(m, e)) && m.removed == before + InHand(m)
    ensures Next(m, e).removed == before + Returning(m, e) + InHand(Next(m, e))
  {
    match e
    case Local(t, pos) => HandByLocal(m, t, pos, before);
    case Resume(t, pos) => HandByResume(m, t, pos);
    case CallAppend(t, x, pos) => HandByEnter(m, t, pos, AHave(x));
    case CallRemove(t, pos) => HandByEnter(m, t, pos, RHave);
  }

  lemma HandByResume<T>(m: SynchList<T>, t: Tid, pos: nat)
    requires Shape(m) && Possible(m, Resume(t, pos)) && LockInv(m.k, LOCK)
    ensures Next(m, Resume(t, pos)).removed == m.removed && InHand(Next(m, Resume(t, pos))) == InHand(m)
  {
    assert Consistent(m.k.st[t], m.pc[t], Holds(m.k, t, LOCK));
    assert m.pc[t := m.pc[t]] == m.pc;
    HandByEnter(m, t, pos, m.pc[t]);
  }

  lemma HandByEnter<T>(m: SynchList<T>, t: Tid, pos: nat, p: Pc<T>)
    requires Shape(m) && MayEnter(m, t, p) && LockInv(m.k, LOCK) && t in m.k.st
    ensures InHand(Enter(m, t, pos, p)) == InHand(m)
  {
    AcquireEffect(m.k, t, LOCK, pos);
    assert Consistent(m.k.st[t], m.pc[t], Holds(m.k, t, LOCK));
  }

  lemma HandByLocal<T>(m: SynchList<T>, t: Tid, pos: nat, before: seq<T>)
    requires Shape(m) && CanStep(m, t) && Safe(m, t, pos) && LockInv(m.k, LOCK) && Shape(LocalStep(m, t, pos))
    requires m.removed == before + InHand(m)
    ensures LocalStep(m, t, pos).removed == before + Returning(m, Local(t, pos)) + InHand(LocalStep(m, t, pos))
  {
    OneInside(m, t);
    assert m.k.locks[LOCK].currThread == Some(t);
    if m.pc[t].ASignal? { SignalEffectOnOwner(m); }
  }

  lemma SignalEffectOnOwner<T>(m: SynchList<T>)
    requires EMPTY in m.k.conds
    ensures Signal(m.k, EMPTY).locks == m.k.locks
  {}

  lemma HandStep<T>(m: SynchList<T>, e: Event<T>, before: seq<T>)
    requires Inv(m) && Possible(m, e) && m.removed == before + InHand(m)
    ensures Inv(Next(m, e)) && Next(m, e).removed == before + Returning(m, e) + InHand(Next(m, e))
  {
    assert LockInv(m.k, LOCK) && CondInv(m.k, EMPTY);
    NextKInv(m, e);
    NextLInv(m, e);
    HandMoves(m, e, before);
  }

  lemma {:induction false} RemovedAreReturned<T>(m: SynchList<T>, events: seq<Event<T>>, m': SynchList<T>,
                                                 before: seq<T>)
    requires Inv(m) && Reachable(m, events, m') && m.removed == before + InHand(m)
    ensures Inv(m') && m'.removed == before + Returned(m, events) + InHand(m')
    decreases |events|
  {
    if events != [] {
      var e, r := events[0], Returning(m, events[0]);
      HandStep(m, e, before);
      RemovedAreReturned(Next(m, e), events[1..], m', before + r);
      assert Returned(m, events) == r + Returned(Next(m, e), events[1..]);
      Regroup(before, r, Returned(Next(m, e), events[1..]));
    }
  }

  /** In every run: what the calls of Remove returned, followed by the item of the one about to
      return and by the list, is what the calls of Append passed, in the order they got in. */
  lemma CallsAccountedFor<T>(m0: SynchList<T>, events: seq<Event<T>>, m: SynchList<T>)
    requires Initially(m0) && Reachable(m0, events, m)
    ensures LOCK in m.k.locks && Returned(m0, events) + InHand(m) + m.list == Appends(map[], events)
  {
    InitInv(m0);
    AppendsInOrder(m0, map[], events, m);
    RemovedAreReturned(m0, events, m, []);
    assert [] + Returned(m0, events) == Returned(m0, events);
  }

  // ---- Calls go forward ----------------------------------------------------

  /** Own steps that a call still has ahead of it, apart from waiting. */
  function Ahead<T>(p: Pc<T>): nat {
    match p
    case Idle => 0
    case AHave(_) => 3 case ASignal => 2 case AExit => 1
    case RHave => 2 case RAgain => 2 case RExit(_) => 1
  }

  /** Each own step brings a call one step nearer to its return, unless it is a Remove that finds the
      list empty and goes to sleep. No other thread moves in its call. */
  lemma StepsForward<T>(m: SynchList<T>, t: Tid, pos: nat)
    requires CanStep(m, t) && Safe(m, t, pos) && LOCK in m.k.locks && LockInv(m.k, LOCK)
    ensures var m' := LocalStep(m, t, pos);
      && t in m'.pc && (forall u :: u in m.pc && u != t ==> u in m'.pc && m'.pc[u] == m.pc[u])
      && (if (m.pc[t].RHave? || m.pc[t].RAgain?) && m.list == [] then
            m'.pc[t].RAgain? && t in m'.k.st && m'.k.st[t] == CondQueued(EMPTY, LOCK)
          else Ahead(m'.pc[t]) == Ahead(m.pc[t]) - 1)
  {
    if (m.pc[t].RHave? || m.pc[t].RAgain?) && m.list == [] { WaitEffect(m.k, t, EMPTY, LOCK, pos); }
  }
}
