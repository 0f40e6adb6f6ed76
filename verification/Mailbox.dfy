/** Mailbox (code/threads/synch.cc): any number of threads calling Send and Receive, built
    on the lock and condition steps of Synch. Interrupts may switch threads between any two
    steps; the lock is what keeps the counters consistent. */
module Mailboxes {
  import opened Wrappers
  import opened Synch

  const LOCK: Id := 0
  const SND: Id := 0   // mailSnd
  const RCV: Id := 1   // mailRcv

  /** Where a thread is; "Have" and "Check" also cover the time spent blocked there. */
  datatype Pc =
    | Idle
    | SHave(msg: int)  // Send: in, or past, lock->Acquire()
    | SCheck           // Send: at the test of the while loop, or waiting inside it
    | SSignal          // Send: about to signal mailRcv
    | SExit            // Send: about to do numPendingRecs-- and release
    | RHave
    | RCheck
    | RSignal
    | RExit

  datatype Mailbox = Mailbox(
    k: Kernel, pc: map<Tid, Pc>,
    sends: nat, recs: nat,      // numPendingSends, numPendingRecs
    buffer: seq<int>,
    sent: seq<int>, received: seq<int>,  // messages appended and taken so far
    sendsDone: nat, recsDone: nat)       // completed calls

  datatype Event =
    | CallSend(t: Tid, msg: int, pos: nat)
    | CallReceive(t: Tid, pos: nat)
    | Local(t: Tid, pos: nat)            // the next step of the thread's own code
    | Resume(t: Tid, pos: nat)           // a woken thread is scheduled

  /** A thread can take its next step: it is running and in the middle of a call. */
  predicate CanStep(m: Mailbox, t: Tid) {
    t in m.pc && m.pc[t] != Idle && Running(m.k, t)
  }

  /** The next step of t goes wrong in no way: the ASSERTs of the lock and the condition
      variables hold, the counters stay non-negative, and Remove finds a message. */
  predicate Safe(m: Mailbox, t: Tid)
    requires t in m.pc
  {
    match m.pc[t]
    case SCheck => m.recs == 0 ==> Holds(m.k, t, LOCK) && SND in m.k.conds
    case SSignal => Holds(m.k, t, LOCK) && RCV in m.k.conds
    case SExit => Holds(m.k, t, LOCK) && m.recs > 0
    case RCheck => if m.sends == 0 then Holds(m.k, t, LOCK) && RCV in m.k.conds else m.buffer != []
    case RSignal => Holds(m.k, t, LOCK) && SND in m.k.conds
    case RExit => Holds(m.k, t, LOCK) && m.sends > 0
    case _ => true
  }

  // The four ways in which a step acts on the threads.

  function Move(m: Mailbox, t: Tid, p: Pc): Mailbox { m.(pc := m.pc[t := p]) }

  function DoWait(m: Mailbox, t: Tid, c: Id, pos: nat): Mailbox
    requires LOCK in m.k.locks && c in m.k.conds
  {
    m.(k := Wait(m.k, t, c, LOCK, pos))
  }

  function DoSignal(m: Mailbox, t: Tid, c: Id, p: Pc): Mailbox
    requires c in m.k.conds
  {
    m.(k := Signal(m.k, c), pc := m.pc[t := p])
  }

  function DoLeave(m: Mailbox, t: Tid): Mailbox
    requires LOCK in m.k.locks
  {
    m.(k := Release(m.k, LOCK), pc := m.pc[t := Idle])
  }

  /** The next step of t's own code. */
  function LocalStep(m: Mailbox, t: Tid, pos: nat): Mailbox
    requires CanStep(m, t) && Safe(m, t)
  {
    match m.pc[t]
    case SHave(msg) => Move(m, t, SCheck).(sends := m.sends + 1, buffer := m.buffer + [msg], sent := m.sent + [msg])
    case SCheck => if m.recs == 0 then DoWait(m, t, SND, pos) else Move(m, t, SSignal)
    case SSignal => DoSignal(m, t, RCV, SExit)
    case SExit => DoLeave(m, t).(recs := m.recs - 1, sendsDone := m.sendsDone + 1)
    case RHave => Move(m, t, RCheck).(recs := m.recs + 1)
    case RCheck =>
      if m.sends == 0 then DoWait(m, t, RCV, pos)
      else Move(m, t, RSignal).(buffer := m.buffer[1..], received := m.received + [m.buffer[0]])
    case RSignal => DoSignal(m, t, SND, RExit)
    case RExit => DoLeave(m, t).(sends := m.sends - 1, recsDone := m.recsDone + 1)
  }

  predicate Possible(m: Mailbox, e: Event) {
    match e
    case CallSend(t, _, pos) => t in m.pc && m.pc[t] == Idle && Enabled(m.k, OpAcquire(t, LOCK, pos))
    case CallReceive(t, pos) => t in m.pc && m.pc[t] == Idle && Enabled(m.k, OpAcquire(t, LOCK, pos))
    case Local(t, _) => CanStep(m, t) && Safe(m, t)
    case Resume(t, pos) => Enabled(m.k, OpResume(t, pos))
  }

  function Next(m: Mailbox, e: Event): Mailbox
    requires Possible(m, e)
  {
    match e
    case CallSend(t, msg, pos) => m.(k := Step(m.k, OpAcquire(t, LOCK, pos)), pc := m.pc[t := SHave(msg)])
    case CallReceive(t, pos) => m.(k := Step(m.k, OpAcquire(t, LOCK, pos)), pc := m.pc[t := RHave])
    case Local(t, pos) => LocalStep(m, t, pos)
    case Resume(t, pos) => m.(k := Step(m.k, OpResume(t, pos)))
  }

  predicate Initially(m: Mailbox) {
    && Initial(m.k) && m.k.sems == map[]
    && m.k.locks == map[LOCK := Lock(false, None, [])] && m.k.conds == map[SND := [], RCV := []]
    && m.pc.Keys == m.k.st.Keys && (forall t :: t in m.pc ==> m.pc[t] == Idle)
    && m.sends == 0 && m.recs == 0 && m.buffer == [] && m.sent == [] && m.received == []
    && m.sendsDone == 0 && m.recsDone == 0
  }

  // ---- The invariant -------------------------------------------------------

  /** Which blocking states each program point allows, and who holds the lock. */
  predicate Consistent(x: Status, p: Pc, holds: bool) {
    && (holds <==> x == Runnable && p != Idle)
    && match p
       case Idle => x == Runnable
       case SHave(_) => x == Runnable || x == LockQueued(LOCK) || x == LockWoken(LOCK)
       case RHave => x == Runnable || x == LockQueued(LOCK) || x == LockWoken(LOCK)
       case SCheck => x == Runnable || x == CondQueued(SND, LOCK) || x == CondWoken(LOCK)
                      || x == LockQueued(LOCK) || x == LockWoken(LOCK)
       case RCheck => x == Runnable || x == CondQueued(RCV, LOCK) || x == CondWoken(LOCK)
                      || x == LockQueued(LOCK) || x == LockWoken(LOCK)
       case _ => x == Runnable
  }

  ghost predicate Shape(m: Mailbox) {
    && m.pc.Keys == m.k.st.Keys
    && m.k.locks.Keys == {LOCK} && m.k.conds.Keys == {SND, RCV} && m.k.sems == map[]
    && forall t :: t in m.pc ==> Consistent(m.k.st[t], m.pc[t], Holds(m.k, t, LOCK))
  }

  predicate Sending(p: Pc) { p == SCheck || p == SSignal || p == SExit }

  predicate Receiving(p: Pc) { p == RCheck || p == RSignal || p == RExit }

  /** Senders asleep on mailSnd. */
  ghost function QS(m: Mailbox): set<Tid> {
    set t | t in m.pc && t in m.k.st && Sending(m.pc[t]) && m.k.st[t].CondQueued?
  }

  /** Senders past their increment and not asleep: woken, or about to (re-)check. */
  ghost function WS(m: Mailbox): set<Tid> {
    set t | t in m.pc && t in m.k.st && Sending(m.pc[t]) && !m.k.st[t].CondQueued?
  }

  ghost function QR(m: Mailbox): set<Tid> {
    set t | t in m.pc && t in m.k.st && Receiving(m.pc[t]) && m.k.st[t].CondQueued?
  }

  ghost function WR(m: Mailbox): set<Tid> {
    set t | t in m.pc && t in m.k.st && Receiving(m.pc[t]) && !m.k.st[t].CondQueued?
  }

  /** The program point of the thread inside the monitor; Idle if there is none. */
  ghost function Inside(m: Mailbox): Pc {
    if LOCK in m.k.locks && m.k.locks[LOCK].currThread.Some? && m.k.locks[LOCK].currThread.value in m.pc
    then m.pc[m.k.locks[LOCK].currThread.value] else Idle
  }

  /** What the counters promise, given how many senders and receivers sleep (q) or are
      awake (w), and where the thread inside the monitor is. */
  predicate CountInv(sends: nat, recs: nat, qs: nat, ws: nat, qr: nat, wr: nat, at: Pc) {
    && sends + recs == qs + ws + qr + wr
    && sends >= qs + (if at == RExit then 1 else 0) && (at == RSignal ==> sends >= 1)
    && recs >= qr + (if at == SExit then 1 else 0) && (at == SSignal ==> recs >= 1)
    && (qs > 0 ==> recs <= ws + if at == RCheck || at == RSignal then 1 else 0)
    && (qr > 0 ==> sends <= wr + if at == SCheck || at == SSignal then 1 else 0)
  }

  /** Messages are neither lost nor doubled, and the counters count them and the calls. */
  predicate DataOk(sent: seq<int>, received: seq<int>, buffer: seq<int>, sends: nat, recs: nat,
                   sendsDone: nat, recsDone: nat, receivers: nat, at: Pc) {
    var taken := if at == RSignal || at == RExit then 1 else 0;
    && received + buffer == sent
    && |buffer| + taken == sends
    && |sent| == sends + recsDone
    && |received| == recsDone + taken
    && recsDone + receivers == recs + sendsDone
  }

  ghost predicate DataInv(m: Mailbox) {
    DataOk(m.sent, m.received, m.buffer, m.sends, m.recs, m.sendsDone, m.recsDone, |WR(m)| + |QR(m)|, Inside(m))
  }

  ghost predicate Counts(m: Mailbox) {
    CountInv(m.sends, m.recs, |QS(m)|, |WS(m)|, |QR(m)|, |WR(m)|, Inside(m))
  }

  ghost predicate MInv(m: Mailbox) {
    Shape(m) && Counts(m) && DataInv(m)
  }

  ghost predicate Inv(m: Mailbox) {
    KInv(m.k) && MInv(m)
  }

  lemma InitInv(m: Mailbox)
    requires Initially(m)
    ensures Inv(m)
  {
    assert QS(m) == WS(m) == QR(m) == WR(m) == {};
    RunInv(m.k, [], m.k);
  }

  /** Whoever sleeps on a condition variable of the mailbox gave up its lock. */
  lemma WaitersUseLock(m: Mailbox, c: Id)
    requires Shape(m) && c in m.k.conds && CondInv(m.k, c)
    ensures UsesLock(m.k, c, LOCK)
  {}

  /** The thread that can step is the one inside the monitor. */
  lemma StepperInside(m: Mailbox, t: Tid)
    requires Shape(m) && CanStep(m, t)
    ensures Holds(m.k, t, LOCK) && Inside(m) == m.pc[t]
  {
    assert Consistent(m.k.st[t], m.pc[t], Holds(m.k, t, LOCK));
  }

  /** The ASSERTs and the implicit conditions of the source never fail. */
  lemma AlwaysSafe(m: Mailbox, t: Tid)
    requires MInv(m) && CanStep(m, t) && CondInv(m.k, SND) && CondInv(m.k, RCV)
    ensures Safe(m, t)
  {
    StepperInside(m, t);
  }

  /** Steps that change nobody's class leave the four sets alone. */
  lemma SameSets(m: Mailbox, m': Mailbox)
    requires m'.pc.Keys == m.pc.Keys && m'.k.st.Keys == m.k.st.Keys == m.pc.Keys
    requires forall t :: t in m.pc ==>
      && Sending(m'.pc[t]) == Sending(m.pc[t]) && Receiving(m'.pc[t]) == Receiving(m.pc[t])
      && m'.k.st[t].CondQueued? == m.k.st[t].CondQueued?
    ensures QS(m') == QS(m) && WS(m') == WS(m) && QR(m') == QR(m) && WR(m') == WR(m)
  {}

  /** Thread t tries the lock and will be at p once it has it. */
  function Enter(m: Mailbox, t: Tid, pos: nat, p: Pc): Mailbox
    requires LOCK in m.k.locks
  {
    m.(k := TryAcquire(m.k, t, LOCK, pos), pc := m.pc[t := p])
  }

  /** t is outside the monitor and p is where it may be inside. */
  predicate MayEnter(m: Mailbox, t: Tid, p: Pc) {
    && t in m.pc && t in m.k.st && LOCK in m.k.locks && !Holds(m.k, t, LOCK)
    && (if m.pc[t] == Idle then p.SHave? || p.RHave?
        else p == m.pc[t] && (m.k.st[t] == LockWoken(LOCK) || m.k.st[t] == CondWoken(LOCK)))
  }

  lemma EnterShape(m: Mailbox, t: Tid, pos: nat, p: Pc)
    requires Shape(m) && MayEnter(m, t, p) && LockInv(m.k, LOCK)
    ensures Shape(Enter(m, t, pos, p))
    ensures var m' := Enter(m, t, pos, p);
      || Inside(m') == Inside(m)
      || (Inside(m) == Idle && Inside(m') == p && p != SSignal && p != SExit && p != RSignal && p != RExit)
  {
    AcquireEffect(m.k, t, LOCK, pos);
    assert Consistent(m.k.st[t], m.pc[t], Holds(m.k, t, LOCK));
  }

  lemma EnterSets(m: Mailbox, t: Tid, pos: nat, p: Pc)
    requires Shape(m) && MayEnter(m, t, p) && LockInv(m.k, LOCK)
    ensures var m' := Enter(m, t, pos, p);
      QS(m') == QS(m) && WS(m') == WS(m) && QR(m') == QR(m) && WR(m') == WR(m)
  {
    AcquireEffect(m.k, t, LOCK, pos);
    assert Consistent(m.k.st[t], m.pc[t], Holds(m.k, t, LOCK));
    SameSets(m, Enter(m, t, pos, p));
  }

  /** Entering the monitor, or queueing for it, keeps the invariant. */
  lemma EnterInv(m: Mailbox, t: Tid, pos: nat, p: Pc)
    requires MInv(m) && MayEnter(m, t, p) && LockInv(m.k, LOCK)
    ensures MInv(Enter(m, t, pos, p))
  {
    EnterShape(m, t, pos, p);
    EnterSets(m, t, pos, p);
  }

  /** If only u changes its class, the set sizes change by u alone. */
  lemma OneMoves(m: Mailbox, m': Mailbox, u: Tid)
    requires m'.pc.Keys == m.pc.Keys && m'.k.st.Keys == m.k.st.Keys == m.pc.Keys
    requires forall t :: t in m.pc && t != u ==>
      && Sending(m'.pc[t]) == Sending(m.pc[t]) && Receiving(m'.pc[t]) == Receiving(m.pc[t])
      && m'.k.st[t].CondQueued? == m.k.st[t].CondQueued?
    ensures |QS(m')| == |QS(m)| - B(u in QS(m)) + B(u in QS(m'))
    ensures |WS(m')| == |WS(m)| - B(u in WS(m)) + B(u in WS(m'))
    ensures |QR(m')| == |QR(m)| - B(u in QR(m)) + B(u in QR(m'))
    ensures |WR(m')| == |WR(m)| - B(u in WR(m)) + B(u in WR(m'))
  {
    SwapOne(QS(m), QS(m'), u);
    SwapOne(WS(m), WS(m'), u);
    SwapOne(QR(m), QR(m'), u);
    SwapOne(WR(m), WR(m'), u);
  }

  // ---- Moving on inside the monitor ----------------------------------------

  lemma MoveShape(m: Mailbox, t: Tid, p: Pc)
    requires Shape(m) && CanStep(m, t) && p != Idle
    ensures Shape(Move(m, t, p)) && Inside(Move(m, t, p)) == p
  {
    StepperInside(m, t);
    var m' := Move(m, t, p);
    forall u | u in m'.pc ensures Consistent(m'.k.st[u], m'.pc[u], Holds(m'.k, u, LOCK)) {
      assert Consistent(m.k.st[u], m.pc[u], Holds(m.k, u, LOCK));
    }
  }

  lemma MoveSets(m: Mailbox, t: Tid, p: Pc)
    requires Shape(m) && CanStep(m, t) && p != Idle
    ensures var m' := Move(m, t, p);
      && |QS(m')| == |QS(m)| && |WS(m')| == |WS(m)| - B(Sending(m.pc[t])) + B(Sending(p))
      && |QR(m')| == |QR(m)| && |WR(m')| == |WR(m)| - B(Receiving(m.pc[t])) + B(Receiving(p))
  {
    OneMoves(m, Move(m, t, p), t);
  }

  // ---- Waiting -------------------------------------------------------------

  /** t is inside, at the loop test that makes it wait on c. */
  predicate AtLoop(m: Mailbox, t: Tid, c: Id) {
    CanStep(m, t) && ((m.pc[t] == SCheck && c == SND) || (m.pc[t] == RCheck && c == RCV))
  }

  lemma WaitShape(m: Mailbox, t: Tid, c: Id, pos: nat)
    requires Shape(m) && AtLoop(m, t, c) && LockInv(m.k, LOCK)
    ensures Shape(DoWait(m, t, c, pos)) && Inside(DoWait(m, t, c, pos)) == Idle
  {
    StepperInside(m, t);
    WaitEffect(m.k, t, c, LOCK, pos);
    var m' := DoWait(m, t, c, pos);
    forall u | u in m'.pc ensures Consistent(m'.k.st[u], m'.pc[u], Holds(m'.k, u, LOCK)) {
      assert Consistent(m.k.st[u], m.pc[u], Holds(m.k, u, LOCK));
    }
  }

  lemma WaitSets(m: Mailbox, t: Tid, c: Id, pos: nat)
    requires Shape(m) && AtLoop(m, t, c) && LockInv(m.k, LOCK)
    ensures var m' := DoWait(m, t, c, pos);
      && |QS(m')| == |QS(m)| + B(c == SND) && |WS(m')| == |WS(m)| - B(c == SND)
      && |QR(m')| == |QR(m)| + B(c == RCV) && |WR(m')| == |WR(m)| - B(c == RCV)
  {
    WaitEffect(m.k, t, c, LOCK, pos);
    OneMoves(m, DoWait(m, t, c, pos), t);
  }

  // ---- Signalling ----------------------------------------------------------

  /** t is inside, about to signal c and then be at p. */
  predicate AtSignal(m: Mailbox, t: Tid, c: Id, p: Pc) {
    && CanStep(m, t)
    && ((m.pc[t] == SSignal && c == RCV && p == SExit) || (m.pc[t] == RSignal && c == SND && p == RExit))
  }

  lemma SignalShape(m: Mailbox, t: Tid, c: Id, p: Pc)
    requires Shape(m) && AtSignal(m, t, c, p) && CondInv(m.k, c)
    ensures Shape(DoSignal(m, t, c, p)) && Inside(DoSignal(m, t, c, p)) == p
  {
    StepperInside(m, t);
    SignalEffect(m.k, c);
    var m' := DoSignal(m, t, c, p);
    forall u | u in m'.pc ensures Consistent(m'.k.st[u], m'.pc[u], Holds(m'.k, u, LOCK)) {
      assert Consistent(m.k.st[u], m.pc[u], Holds(m.k, u, LOCK));
    }
  }

  /** The queue of a condition variable lists the sleeping senders (receivers). */
  lemma SleepersAreQueued(m: Mailbox, c: Id)
    requires Shape(m) && c in m.k.conds && CondInv(m.k, c)
    ensures forall u :: u in m.k.conds[c] <==> u in if c == SND then QS(m) else QR(m)
  {
    assert forall u :: u in m.pc ==> Consistent(m.k.st[u], m.pc[u], Holds(m.k, u, LOCK));
  }

  /** Signal moves one sleeper, if there is one, from asleep to awake. */
  lemma SignalSets(m: Mailbox, t: Tid, c: Id, p: Pc)
    requires Shape(m) && AtSignal(m, t, c, p) && CondInv(m.k, c)
    ensures var m' := DoSignal(m, t, c, p);
      && |QS(m')| == |QS(m)| - B(c == SND && |QS(m)| > 0) && |WS(m')| == |WS(m)| + B(c == SND && |QS(m)| > 0)
      && |QR(m')| == |QR(m)| - B(c == RCV && |QR(m)| > 0) && |WR(m')| == |WR(m)| + B(c == RCV && |QR(m)| > 0)
  {
    var m' := DoSignal(m, t, c, p);
    SleepersAreQueued(m, c);
    if m.k.conds[c] == [] {
      assert (if c == SND then QS(m) else QR(m)) == {};
      SameSets(m, m');
    } else {
      SignalSetsAwake(m, t, c, p);
    }
  }

  lemma SignalSetsAwake(m: Mailbox, t: Tid, c: Id, p: Pc)
    requires Shape(m) && AtSignal(m, t, c, p) && CondInv(m.k, c) && m.k.conds[c] != []
    requires m.k.conds[c][0] in if c == SND then QS(m) else QR(m)
    ensures var m' := DoSignal(m, t, c, p);
      && |QS(m')| == |QS(m)| - B(c == SND) && |WS(m')| == |WS(m)| + B(c == SND)
      && |QR(m')| == |QR(m)| - B(c == RCV) && |WR(m')| == |WR(m)| + B(c == RCV)
  {
    var m', u := DoSignal(m, t, c, p), m.k.conds[c][0];
    assert u != t;
    if c == SND { SenderWakes(m, m', u); } else { ReceiverWakes(m, m', u); }
  }

  lemma SenderWakes(m: Mailbox, m': Mailbox, u: Tid)
    requires m'.pc.Keys == m.pc.Keys && m'.k.st.Keys == m.k.st.Keys == m.pc.Keys
    requires forall t :: t in m.pc && t != u ==>
      && Sending(m'.pc[t]) == Sending(m.pc[t]) && Receiving(m'.pc[t]) == Receiving(m.pc[t])
      && m'.k.st[t].CondQueued? == m.k.st[t].CondQueued?
    requires u in QS(m) && m'.pc[u] == m.pc[u] && !m'.k.st[u].CondQueued?
    ensures |QS(m')| == |QS(m)| - 1 && |WS(m')| == |WS(m)| + 1 && |QR(m')| == |QR(m)| && |WR(m')| == |WR(m)|
  {
    OneMoves(m, m', u);
  }

  lemma ReceiverWakes(m: Mailbox, m': Mailbox, u: Tid)
    requires m'.pc.Keys == m.pc.Keys && m'.k.st.Keys == m.k.st.Keys == m.pc.Keys
    requires forall t :: t in m.pc && t != u ==>
      && Sending(m'.pc[t]) == Sending(m.pc[t]) && Receiving(m'.pc[t]) == Receiving(m.pc[t])
      && m'.k.st[t].CondQueued? == m.k.st[t].CondQueued?
    requires u in QR(m) && m'.pc[u] == m.pc[u] && !m'.k.st[u].CondQueued?
    ensures |QS(m')| == |QS(m)| && |WS(m')| == |WS(m)| && |QR(m')| == |QR(m)| - 1 && |WR(m')| == |WR(m)| + 1
  {
    OneMoves(m, m', u);
  }

  // ---- Leaving -------------------------------------------------------------

  predicate AtExit(m: Mailbox, t: Tid) {
    CanStep(m, t) && (m.pc[t] == SExit || m.pc[t] == RExit)
  }

  lemma LeaveShape(m: Mailbox, t: Tid)
    requires Shape(m) && AtExit(m, t) && LockInv(m.k, LOCK)
    ensures Shape(DoLeave(m, t)) && Inside(DoLeave(m, t)) == Idle
  {
    StepperInside(m, t);
    ReleaseEffect(m.k, LOCK);
    var m' := DoLeave(m, t);
    forall u | u in m'.pc ensures Consistent(m'.k.st[u], m'.pc[u], Holds(m'.k, u, LOCK)) {
      assert Consistent(m.k.st[u], m.pc[u], Holds(m.k, u, LOCK));
    }
  }

  lemma LeaveSets(m: Mailbox, t: Tid)
    requires Shape(m) && AtExit(m, t) && LockInv(m.k, LOCK)
    ensures var m' := DoLeave(m, t);
      && |QS(m')| == |QS(m)| && |WS(m')| == |WS(m)| - B(m.pc[t] == SExit)
      && |QR(m')| == |QR(m)| && |WR(m')| == |WR(m)| - B(m.pc[t] == RExit)
  {
    ReleaseEffect(m.k, LOCK);
    OneMoves(m, DoLeave(m, t), t);
  }

  // ---- The counters --------------------------------------------------------

  /** Shape, sets and the thread inside depend on the threads only, not on the data. */
  lemma SameView(m: Mailbox, m': Mailbox)
    requires m'.k == m.k && m'.pc == m.pc
    ensures QS(m') == QS(m) && WS(m') == WS(m) && QR(m') == QR(m) && WR(m') == WR(m)
    ensures Inside(m') == Inside(m) && (Shape(m) ==> Shape(m'))
  {}

  /** m' has the threads of m except that the one inside has moved to p, and ws and wr have
      changed by the given numbers. */
  ghost predicate MovedOn(m: Mailbox, m': Mailbox, p: Pc, senders: int, receivers: int) {
    && Shape(m') && Inside(m') == p
    && |QS(m')| == |QS(m)| && |WS(m')| == |WS(m)| + senders
    && |QR(m')| == |QR(m)| && |WR(m')| == |WR(m)| + receivers
  }

  lemma StepMovesOn(m: Mailbox, m': Mailbox, t: Tid, p: Pc)
    requires Shape(m) && CanStep(m, t) && p != Idle && m'.k == m.k && m'.pc == m.pc[t := p]
    ensures MovedOn(m, m', p, B(Sending(p)) - B(Sending(m.pc[t])), B(Receiving(p)) - B(Receiving(m.pc[t])))
  {
    MoveShape(m, t, p);
    MoveSets(m, t, p);
    SameView(Move(m, t, p), m');
  }

  /** numPendingSends++ (and the message buffered), or numPendingRecs++. */
  lemma LocalHave(m: Mailbox, t: Tid, pos: nat)
    requires MInv(m) && CanStep(m, t) && (m.pc[t].SHave? || m.pc[t].RHave?)
    ensures MInv(LocalStep(m, t, pos))
  {
    var p := if m.pc[t].SHave? then SCheck else RCheck;
    StepperInside(m, t);
    StepMovesOn(m, LocalStep(m, t, pos), t, p);
    HaveCounts(m, LocalStep(m, t, pos), t, pos);
  }

  lemma HaveCounts(m: Mailbox, m': Mailbox, t: Tid, pos: nat)
    requires CanStep(m, t) && Inside(m) == m.pc[t] && (m.pc[t].SHave? || m.pc[t].RHave?)
    requires Counts(m) && DataInv(m) && m' == LocalStep(m, t, pos)
    requires MovedOn(m, m', if m.pc[t].SHave? then SCheck else RCheck, B(m.pc[t].SHave?), B(m.pc[t].RHave?))
    ensures Counts(m') && DataInv(m')
  {
  }

  /** The loop test fails: a sender goes on to signal, a receiver takes the first message. */
  lemma LocalPass(m: Mailbox, t: Tid, pos: nat)
    requires MInv(m) && CanStep(m, t) && Safe(m, t)
    requires (m.pc[t] == SCheck && m.recs > 0) || (m.pc[t] == RCheck && m.sends > 0)
    ensures MInv(LocalStep(m, t, pos))
  {
    var p := if m.pc[t] == SCheck then SSignal else RSignal;
    StepperInside(m, t);
    StepMovesOn(m, LocalStep(m, t, pos), t, p);
    PassCounts(m.sends, m.recs, |QS(m)|, |WS(m)|, |QR(m)|, |WR(m)|, m.pc[t]);
    if m.pc[t] == RCheck {
      TakeData(m.sent, m.received, m.buffer, m.sends, m.recs, m.sendsDone, m.recsDone, |WR(m)| + |QR(m)|);
    }
  }

  lemma PassCounts(sends: nat, recs: nat, qs: nat, ws: nat, qr: nat, wr: nat, at: Pc)
    requires CountInv(sends, recs, qs, ws, qr, wr, at)
    requires (at == SCheck && recs > 0) || (at == RCheck && sends > 0)
    ensures CountInv(sends, recs, qs, ws, qr, wr, if at == SCheck then SSignal else RSignal)
  {
  }

  lemma TakeData(sent: seq<int>, received: seq<int>, buffer: seq<int>, sends: nat, recs: nat,
                 sendsDone: nat, recsDone: nat, receivers: nat)
    requires DataOk(sent, received, buffer, sends, recs, sendsDone, recsDone, receivers, RCheck) && sends > 0
    ensures buffer != []
    ensures DataOk(sent, received + [buffer[0]], buffer[1..], sends, recs, sendsDone, recsDone, receivers, RSignal)
  {
    assert buffer == [buffer[0]] + buffer[1..];
    assert received + [buffer[0]] + buffer[1..] == received + buffer;
  }

  lemma LocalWait(m: Mailbox, t: Tid, c: Id, pos: nat)
    requires MInv(m) && AtLoop(m, t, c) && LockInv(m.k, LOCK) && (if c == SND then m.recs else m.sends) == 0
    ensures MInv(DoWait(m, t, c, pos))
  {
    StepperInside(m, t);
    WaitShape(m, t, c, pos);
    WaitSets(m, t, c, pos);
  }

  lemma LocalSignal(m: Mailbox, t: Tid, c: Id, p: Pc)
    requires MInv(m) && AtSignal(m, t, c, p) && CondInv(m.k, c)
    ensures MInv(DoSignal(m, t, c, p))
  {
    StepperInside(m, t);
    SignalShape(m, t, c, p);
    SignalSets(m, t, c, p);
  }

  lemma LocalLeave(m: Mailbox, t: Tid, pos: nat)
    requires MInv(m) && AtExit(m, t) && Safe(m, t) && LockInv(m.k, LOCK)
    ensures MInv(LocalStep(m, t, pos))
  {
    StepperInside(m, t);
    LeaveShape(m, t);
    LeaveSets(m, t);
    SameView(DoLeave(m, t), LocalStep(m, t, pos));
  }

  // ---- Every reachable state -----------------------------------------------

  lemma NextInv(m: Mailbox, e: Event)
    requires Inv(m) && Possible(m, e)
    ensures Inv(Next(m, e))
  {
    NextKernelInv(m, e);
    assert LockInv(m.k, LOCK) && CondInv(m.k, SND) && CondInv(m.k, RCV);
    NextMailboxInv(m, e);
  }

  lemma NextKernelInv(m: Mailbox, e: Event)
    requires KInv(m.k) && Possible(m, e)
    ensures KInv(Next(m, e).k)
  {
    match e
    case CallSend(t, _, pos) => StepInv(m.k, OpAcquire(t, LOCK, pos));
    case CallReceive(t, pos) => StepInv(m.k, OpAcquire(t, LOCK, pos));
    case Resume(t, pos) => StepInv(m.k, OpResume(t, pos));
    case Local(t, pos) =>
      match m.pc[t]
      case SCheck => if m.recs == 0 { StepInv(m.k, OpWait(t, SND, LOCK, pos)); }
      case RCheck => if m.sends == 0 { StepInv(m.k, OpWait(t, RCV, LOCK, pos)); }
      case SSignal => StepInv(m.k, OpSignal(t, RCV, LOCK));
      case RSignal => StepInv(m.k, OpSignal(t, SND, LOCK));
      case SExit => StepInv(m.k, OpRelease(t, LOCK));
      case RExit => StepInv(m.k, OpRelease(t, LOCK));
      case _ =>
  }

  lemma NextMailboxInv(m: Mailbox, e: Event)
    requires MInv(m) && Possible(m, e)
    requires LockInv(m.k, LOCK) && CondInv(m.k, SND) && CondInv(m.k, RCV)
    ensures MInv(Next(m, e))
  {
    match e
    case CallSend(t, msg, pos) => EnterInv(m, t, pos, SHave(msg));
    case CallReceive(t, pos) => EnterInv(m, t, pos, RHave);
    case Resume(t, pos) =>
      ResumeEnters(m, t, pos);
      EnterInv(m, t, pos, m.pc[t]);
    case Local(t, pos) => LocalInv(m, t, pos);
  }

  /** A woken thread that is scheduled tries the lock again. */
  lemma ResumeEnters(m: Mailbox, t: Tid, pos: nat)
    requires Shape(m) && Possible(m, Resume(t, pos))
    ensures t in m.pc && MayEnter(m, t, m.pc[t]) && Next(m, Resume(t, pos)) == Enter(m, t, pos, m.pc[t])
  {
    assert Consistent(m.k.st[t], m.pc[t], Holds(m.k, t, LOCK));
    assert m.pc[t := m.pc[t]] == m.pc;
  }

  lemma LocalInv(m: Mailbox, t: Tid, pos: nat)
    requires MInv(m) && CanStep(m, t) && Safe(m, t)
    requires LockInv(m.k, LOCK) && CondInv(m.k, SND) && CondInv(m.k, RCV)
    ensures MInv(LocalStep(m, t, pos))
  {
    match m.pc[t]
    case SHave(_) => LocalHave(m, t, pos);
    case RHave => LocalHave(m, t, pos);
    case SCheck =>
      if m.recs == 0 { LocalWait(m, t, SND, pos); } else { LocalPass(m, t, pos); }
    case RCheck =>
      if m.sends == 0 { LocalWait(m, t, RCV, pos); } else { LocalPass(m, t, pos); }
    case SSignal => LocalSignal(m, t, RCV, SExit);
    case RSignal => LocalSignal(m, t, SND, RExit);
    case SExit => LocalLeave(m, t, pos);
    case RExit => LocalLeave(m, t, pos);
  }

  ghost predicate Reachable(m: Mailbox, events: seq<Event>, m': Mailbox)
    decreases |events|
  {
    if events == [] then m' == m
    else Possible(m, events[0]) && Reachable(Next(m, events[0]), events[1..], m')
  }

  lemma {:induction false} ReachableInv(m: Mailbox, events: seq<Event>, m': Mailbox)
    requires Inv(m) && Reachable(m, events, m')
    ensures Inv(m')
    decreases |events|
  {
    if events != [] {
      NextInv(m, events[0]);
      ReachableInv(Next(m, events[0]), events[1..], m');
    }
  }

  /** The mailbox never strands a matching pair. In every reachable state with no woken thread
      left to run -- whoever may just be calling -- blocked senders and blocked receivers do not
      both exist. */
  lemma NeverStranded(m0: Mailbox, events: seq<Event>, m: Mailbox)
    requires Initially(m0) && Reachable(m0, events, m) && WS(m) == {} && WR(m) == {}
    ensures QS(m) == {} || QR(m) == {}
    ensures m.sendsDone == m.recsDone == |m.received|
    ensures |m.buffer| == m.sends == |QS(m)| && m.recs == |QR(m)|
  {
    InitInv(m0);
    ReachableInv(m0, events, m);
    assert LockInv(m.k, LOCK);
    NobodyWoken(m);
  }

  lemma NobodyWoken(m: Mailbox)
    requires MInv(m) && LockInv(m.k, LOCK) && WS(m) == {} && WR(m) == {}
    ensures QS(m) == {} || QR(m) == {}
    ensures m.sendsDone == m.recsDone == |m.received|
    ensures |m.buffer| == m.sends == |QS(m)| && m.recs == |QR(m)|
  {
    NobodyPastIncrement(m);
  }

  /** With nobody awake past its increment, the thread inside, if any, is before it. */
  lemma NobodyPastIncrement(m: Mailbox)
    requires Shape(m) && WS(m) == {} && WR(m) == {}
    ensures Inside(m) == Idle || Inside(m).SHave? || Inside(m).RHave?
  {
    if m.k.locks[LOCK].currThread.Some? && m.k.locks[LOCK].currThread.value in m.pc {
      var t := m.k.locks[LOCK].currThread.value;
      assert Consistent(m.k.st[t], m.pc[t], Holds(m.k, t, LOCK));
      assert t !in WS(m) && t !in WR(m);
    }
  }

  /** Nobody is left to run: every thread is between calls or asleep in the mailbox. */
  predicate Quiescent(m: Mailbox) {
    forall t :: t in m.pc && t in m.k.st ==> m.pc[t] == Idle || m.k.st[t].CondQueued?
  }

  lemma QuiescentAwake(m: Mailbox)
    requires Quiescent(m)
    ensures WS(m) == {} && WR(m) == {}
  {
  }

  /** A reachable state is quiescent exactly when no thread can go on, by its own code or by being
      resumed; then, too, no pair is stranded. */
  lemma StuckIsQuiescent(m0: Mailbox, events: seq<Event>, m: Mailbox)
    requires Initially(m0) && Reachable(m0, events, m)
    ensures Quiescent(m) <==> forall t, pos :: !Possible(m, Local(t, pos)) && !Possible(m, Resume(t, pos))
    ensures Quiescent(m) ==> QS(m) == {} || QR(m) == {}
  {
    InitInv(m0);
    ReachableInv(m0, events, m);
    assert LockInv(m.k, LOCK) && CondInv(m.k, SND) && CondInv(m.k, RCV);
    if Quiescent(m) {
      QuiescentStuck(m);
      QuiescentAwake(m);
      NeverStranded(m0, events, m);
    } else if forall t, pos :: !Possible(m, Local(t, pos)) && !Possible(m, Resume(t, pos)) {
      StuckQuiescent(m);
    }
  }

  lemma QuiescentStuck(m: Mailbox)
    requires Shape(m) && Quiescent(m)
    ensures forall t, pos :: !Possible(m, Local(t, pos)) && !Possible(m, Resume(t, pos))
  {
    forall t, pos ensures !Possible(m, Local(t, pos)) && !Possible(m, Resume(t, pos)) {
      if t in m.pc { assert Consistent(m.k.st[t], m.pc[t], Holds(m.k, t, LOCK)); }
    }
  }

  lemma StuckQuiescent(m: Mailbox)
    requires MInv(m) && LockInv(m.k, LOCK) && CondInv(m.k, SND) && CondInv(m.k, RCV)
    requires forall t, pos :: !Possible(m, Local(t, pos)) && !Possible(m, Resume(t, pos))
    ensures Quiescent(m)
  {
    forall t | t in m.pc && t in m.k.st ensures m.pc[t] == Idle || m.k.st[t].CondQueued? {
      if m.pc[t] != Idle && !m.k.st[t].CondQueued? { Progress(m, t); }
    }
  }

  /** Whoever is in a call and not asleep on a condition can go on, or somebody ahead of it can. */
  lemma Progress(m: Mailbox, t: Tid)
    requires MInv(m) && LockInv(m.k, LOCK) && CondInv(m.k, SND) && CondInv(m.k, RCV)
    requires t in m.pc && m.pc[t] != Idle && t in m.k.st && !m.k.st[t].CondQueued?
    ensures exists u :: Possible(m, Local(u, 0)) || Possible(m, Resume(u, 0))
  {
    assert Consistent(m.k.st[t], m.pc[t], Holds(m.k, t, LOCK));
    var u := t;
    if m.k.st[t] == LockQueued(LOCK) { u := SomeoneAhead(m, t); }
    if CanStep(m, u) {
      AlwaysSafe(m, u);
      assert Possible(m, Local(u, 0));
    } else {
      assert Possible(m, Resume(u, 0));
    }
  }

  /** A thread queued on the lock means that another one can go on. */
  lemma SomeoneAhead(m: Mailbox, t: Tid) returns (u: Tid)
    requires Shape(m) && LockInv(m.k, LOCK) && t in m.k.st && m.k.st[t] == LockQueued(LOCK)
    ensures CanStep(m, u) || Possible(m, Resume(u, 0))
  {
    assert t in m.k.locks[LOCK].queue;
    if m.k.locks[LOCK].isLocked {
      u := m.k.locks[LOCK].currThread.value;
      assert Consistent(m.k.st[u], m.pc[u], Holds(m.k, u, LOCK));
    } else {
      u :| u in m.k.st && m.k.st[u] == LockWoken(LOCK);
    }
  }

  /** In every reachable state messages are taken in the order they were sent, none lost or
      duplicated, and the next step of every running thread passes the source's ASSERTs. */
  lemma DeliversInOrder(m0: Mailbox, events: seq<Event>, m: Mailbox)
    requires Initially(m0) && Reachable(m0, events, m)
    ensures m.received + m.buffer == m.sent
    ensures forall t :: CanStep(m, t) ==> Safe(m, t)
  {
    InitInv(m0);
    ReachableInv(m0, events, m);
    forall t | CanStep(m, t) ensures Safe(m, t) { AlwaysSafe(m, t); }
  }

  // ---- From the calls alone ------------------------------------------------

  /** The messages that Send puts into the mailbox in a run, from the events alone: a thread's first
      own step after CallSend appends the message of that call. `calling` are the calls whose
      first step is still to come. */
  function Sends(calling: map<Tid, int>, events: seq<Event>): (messages: seq<int>)
    decreases |events|
  {
    if events == [] then [] else Appended(calling, events[0]) + Sends(StillCalling(calling, events[0]), events[1..])
  }

  function Appended(calling: map<Tid, int>, e: Event): (messages: seq<int>) {
    if e.Local? && e.t in calling then [calling[e.t]] else []
  }

  function StillCalling(calling: map<Tid, int>, e: Event): (calling': map<Tid, int>) {
    match e
    case CallSend(t, msg, _) => calling[t := msg]
    case Local(t, _) => calling - {t}
    case _ => calling
  }

  ghost predicate Calling(m: Mailbox, calling: map<Tid, int>) {
    forall t :: t in m.pc ==> (t in calling <==> m.pc[t].SHave?) && (t in calling ==> m.pc[t] == SHave(calling[t]))
  }

  lemma SendsStep(m: Mailbox, calling: map<Tid, int>, e: Event)
    requires Calling(m, calling) && Possible(m, e)
    ensures Calling(Next(m, e), StillCalling(calling, e)) && Next(m, e).sent == m.sent + Appended(calling, e)
  {
    match e
    case Local(t, pos) => assert m.pc[t].SHave? <==> t in calling;
    case _ =>
  }

  lemma {:induction false} SendsAppend(m: Mailbox, calling: map<Tid, int>, events: seq<Event>, m': Mailbox)
    requires Calling(m, calling) && Reachable(m, events, m')
    ensures m'.sent == m.sent + Sends(calling, events)
    decreases |events|
  {
    if events != [] {
      var e := events[0];
      SendsStep(m, calling, e);
      SendsAppend(Next(m, e), StillCalling(calling, e), events[1..], m');
      Regroup(m.sent, Appended(calling, e), Sends(StillCalling(calling, e), events[1..]));
    }
  }

  function SendCalls(events: seq<Event>): (n: nat) {
    if events == [] then 0 else SendCalls(events[1..]) + if events[0].CallSend? then 1 else 0
  }

  function ReceiveCalls(events: seq<Event>): (n: nat) {
    if events == [] then 0 else ReceiveCalls(events[1..]) + if events[0].CallReceive? then 1 else 0
  }

  /** The threads inside Send, and inside Receive. */
  ghost function Senders(m: Mailbox): set<Tid> { set t | t in m.pc && (m.pc[t].SHave? || Sending(m.pc[t])) }

  ghost function Receivers(m: Mailbox): set<Tid> { set t | t in m.pc && (m.pc[t].RHave? || Receiving(m.pc[t])) }

  lemma CallsMove(m: Mailbox, e: Event)
    requires Possible(m, e)
    ensures var m' := Next(m, e);
      && m'.sendsDone + |Senders(m')| == m.sendsDone + |Senders(m)| + (if e.CallSend? then 1 else 0)
      && m'.recsDone + |Receivers(m')| == m.recsDone + |Receivers(m)| + (if e.CallReceive? then 1 else 0)
  {
    SendersMove(m, e);
    ReceiversMove(m, e);
  }

  lemma SendersMove(m: Mailbox, e: Event)
    requires Possible(m, e)
    ensures Next(m, e).sendsDone + |Senders(Next(m, e))|
         == m.sendsDone + |Senders(m)| + (if e.CallSend? then 1 else 0)
  {
    SwapOne(Senders(m), Senders(Next(m, e)), e.t);
  }

  lemma ReceiversMove(m: Mailbox, e: Event)
    requires Possible(m, e)
    ensures Next(m, e).recsDone + |Receivers(Next(m, e))|
         == m.recsDone + |Receivers(m)| + (if e.CallReceive? then 1 else 0)
  {
    SwapOne(Receivers(m), Receivers(Next(m, e)), e.t);
  }

  lemma {:induction false} CallsCount(m: Mailbox, events: seq<Event>, m': Mailbox)
    requires Reachable(m, events, m')
    ensures m'.sendsDone + |Senders(m')| == m.sendsDone + |Senders(m)| + SendCalls(events)
    ensures m'.recsDone + |Receivers(m')| == m.recsDone + |Receivers(m)| + ReceiveCalls(events)
    decreases |events|
  {
    if events != [] {
      CallsMove(m, events[0]);
      CallsCount(Next(m, events[0]), events[1..], m');
    }
  }

  /** In every run: what was sent is what the calls of Send passed, in the order they got in, and
      every call has returned or its thread is still inside. */
  lemma CallsAccountedFor(m0: Mailbox, events: seq<Event>, m: Mailbox)
    requires Initially(m0) && Reachable(m0, events, m)
    ensures m.received + m.buffer == Sends(map[], events)
    ensures m.sendsDone + |Senders(m)| == SendCalls(events)
    ensures m.recsDone + |Receivers(m)| == ReceiveCalls(events)
  {
    DeliversInOrder(m0, events, m);
    SendsAppend(m0, map[], events, m);
    CallsCount(m0, events, m);
    assert Senders(m0) == {} && Receivers(m0) == {};
  }

  // ---- Calls go forward ----------------------------------------------------

  /** Own steps that a call still has ahead of it, apart from waiting. */
  function Ahead(p: Pc): nat {
    match p
    case Idle => 0
    case SHave(_) => 4 case SCheck => 3 case SSignal => 2 case SExit => 1
    case RHave => 4 case RCheck => 3 case RSignal => 2 case RExit => 1
  }

  /** t finds no partner and goes to sleep. */
  predicate Unmatched(m: Mailbox, t: Tid) {
    t in m.pc && ((m.pc[t] == SCheck && m.recs == 0) || (m.pc[t] == RCheck && m.sends == 0))
  }

  /** Each own step brings a call one step nearer to its return, unless it puts the thread to sleep
      on the condition, for want of a partner. No other thread moves in its call. */
  lemma StepsForward(m: Mailbox, t: Tid, pos: nat)
    requires CanStep(m, t) && Safe(m, t) && LOCK in m.k.locks && LockInv(m.k, LOCK)
    ensures var m' := LocalStep(m, t, pos);
      && t in m'.pc && (forall u :: u in m.pc && u != t ==> u in m'.pc && m'.pc[u] == m.pc[u])
      && (!Unmatched(m, t) ==> Ahead(m'.pc[t]) == Ahead(m.pc[t]) - 1)
      && (Sending(m'.pc[t]) ==> m.pc[t].SHave? || Sending(m.pc[t]))
      && (Receiving(m'.pc[t]) ==> m.pc[t].RHave? || Receiving(m.pc[t]))
    ensures Unmatched(m, t) ==> Waits(m, LocalStep(m, t, pos), t)
  {
    if Unmatched(m, t) { WaitEffect(m.k, t, if m.pc[t] == SCheck then SND else RCV, LOCK, pos); }
  }

  predicate Waits(m: Mailbox, m': Mailbox, t: Tid) {
    && t in m.pc && t in m'.pc && m'.pc[t] == m.pc[t]
    && t in m'.k.st && m'.k.st[t] == CondQueued(if m.pc[t] == SCheck then SND else RCV, LOCK)
  }
}
