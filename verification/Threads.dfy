/** Threads, the dispatcher and Join (code/threads/thread.cc, code/threads/scheduler.cc) as a step
    system. A step runs with interrupts off. Where a thread enters the ready list or a wait queue
    depends on priorities; the place is left open (`pos`). */
module Threads {
  import opened Wrappers
  import opened Synch

  /** The wait queues: those of a joinable thread's two semaphores, and all others. */
  datatype WaitId = Other(n: nat) | JoinSignal(of: Tid) | MayDie(of: Tid)

  /** Waiting and Finished are both BLOCKED in the source. */
  datatype Place = JustCreated | OnCpu | InReadyList | Waiting(w: WaitId) | Finished | Destroyed

  /** currentThread and what the scheduler knows. `sleeping`: the current thread is in the loop of
      Sleep, looking for a thread to run; idle-time interrupts happen there. A thread that has not
      `started` begins at its root and not inside Run. */
  datatype Dispatcher = Dispatcher(
    current: Tid, sleeping: bool, ready: seq<Tid>, queues: map<WaitId, seq<Tid>>,
    place: map<Tid, Place>, started: set<Tid>, toBeDestroyed: Option<Tid>)

  function ReadyToRun(d: Dispatcher, t: Tid, pos: nat): (d': Dispatcher) {
    d.(place := d.place[t := InReadyList], ready := Insert(d.ready, pos, t))
  }

  /** Wake the first thread of a queue, as V, Release and Signal do, or an interrupt handler. */
  function Wake(d: Dispatcher, w: WaitId, pos: nat): (d': Dispatcher)
    requires w in d.queues
  {
    var q := d.queues[w];
    if q == [] then d else ReadyToRun(d.(queues := d.queues[w := q[1..]]), q[0], pos)
  }

  /** The current thread queues itself and goes to sleep. */
  function SleepOn(d: Dispatcher, w: WaitId, pos: nat): (d': Dispatcher)
    requires w in d.queues
  {
    d.(queues := d.queues[w := Insert(d.queues[w], pos, d.current)],
       place := d.place[d.current := Waiting(w)], sleeping := true)
  }

  /** The head of the ready list becomes the current thread. */
  function Switch(d: Dispatcher): (d': Dispatcher)
    requires d.ready != []
  {
    d.(current := d.ready[0], sleeping := false, ready := d.ready[1..], place := d.place[d.ready[0] := OnCpu],
       started := d.started + {d.ready[0]})
  }

  /** Scheduler::Run for the head of the ready list: what Sleep does once it finds one. A thread
      that comes back out of Run deletes the carcass left behind. */
  function RunNext(d: Dispatcher): (d': Dispatcher)
    requires d.ready != []
  {
    var d1 := Switch(d);
    if d.ready[0] in d.started && d.toBeDestroyed.Some?
    then d1.(place := d1.place[d.toBeDestroyed.value := Destroyed], toBeDestroyed := None)
    else d1
  }

  /** Yield takes the next thread before it queues the current one. */
  function Yield(d: Dispatcher, pos: nat): (d': Dispatcher)
    requires d.current in d.place
  {
    if d.ready == [] then d
    else RunNext(d.(sleeping := true, place := d.place[d.current := InReadyList],
                    ready := [d.ready[0]] + Insert(d.ready[1..], pos, d.current)))
  }

  /** The last act of Finish. */
  function End(d: Dispatcher): (d': Dispatcher) {
    d.(toBeDestroyed := Some(d.current), place := d.place[d.current := Finished], sleeping := true)
  }

  function Create(d: Dispatcher, t: Tid): (d': Dispatcher) {
    d.(place := d.place[t := JustCreated], queues := d.queues[JoinSignal(t) := []][MayDie(t) := []])
  }

  /* ------------------------------ everyone in one place ------------------------------ */

  /** A list holds each thread that belongs there once, and nobody else. */
  ghost predicate Lists(d: Dispatcher, q: seq<Tid>, p: Place) {
    NoDup(q) && forall t :: t in q <==> t in d.place && d.place[t] == p
  }

  ghost predicate QueuesInv(d: Dispatcher) {
    && (forall w :: w in d.queues ==> Lists(d, d.queues[w], Waiting(w)))
    && (forall t :: t in d.place && d.place[t].Waiting? ==> d.place[t].w in d.queues)
  }

  ghost predicate CpuInv(d: Dispatcher) {
    && d.current in d.place && d.place[d.current] != JustCreated && d.place[d.current] != Destroyed
    && (forall t :: t in d.place ==> (d.place[t] == OnCpu <==> t == d.current && !d.sleeping))
    && (d.toBeDestroyed.Some? ==> d.toBeDestroyed.value in d.place && d.place[d.toBeDestroyed.value] == Finished)
  }

  ghost predicate PlaceInv(d: Dispatcher) {
    CpuInv(d) && Lists(d, d.ready, InReadyList) && QueuesInv(d)
  }

  /** The places a thread is found at, read off the data structures. */
  datatype Spot = Cpu | Ready | Queue(w: WaitId) | Carcass

  ghost predicate FoundAt(d: Dispatcher, t: Tid, x: Spot) {
    match x
    case Cpu => t == d.current && !d.sleeping
    case Ready => t in d.ready
    case Queue(w) => w in d.queues && t in d.queues[w]
    case Carcass => t in d.place && d.place[t] == Finished
  }

  /** Every thread that was forked and not destroyed is at exactly one spot, and listed once there. */
  lemma {:induction false} OnePlace(d: Dispatcher, t: Tid)
    requires PlaceInv(d) && t in d.place && d.place[t] != JustCreated && d.place[t] != Destroyed
    ensures exists x :: FoundAt(d, t, x) && forall y :: FoundAt(d, t, y) ==> y == x
    ensures NoDup(d.ready) && forall w :: w in d.queues ==> NoDup(d.queues[w])
  {
    var x := match d.place[t]
      case OnCpu => Cpu
      case InReadyList => Ready
      case Waiting(w) => Queue(w)
      case _ => Carcass;
    assert FoundAt(d, t, x);
    forall y | FoundAt(d, t, y) ensures y == x {
      if y.Queue? { assert Lists(d, d.queues[y.w], Waiting(y.w)); }
    }
  }

  lemma {:induction false} TailLists(q: seq<Tid>)
    requires q != [] && NoDup(q)
    ensures NoDup(q[1..]) && forall t :: t in q[1..] <==> t in q && t != q[0]
  {
    assert q == [q[0]] + q[1..];
  }

  /** The lists of places other than t's old and new one do not notice that t moves. */
  lemma {:induction false} ListsFrame(d: Dispatcher, d': Dispatcher, t: Tid, q: seq<Tid>, p: Place)
    requires Lists(d, q, p) && t in d'.place && d'.place == d.place[t := d'.place[t]]
    requires d'.place[t] != p && (t in d.place ==> d.place[t] != p)
    ensures Lists(d', q, p)
  {
  }

  lemma {:induction false} ListsInsert(d: Dispatcher, d': Dispatcher, t: Tid, q: seq<Tid>, p: Place, pos: nat)
    requires Lists(d, q, p) && d'.place == d.place[t := p] && (t in d.place ==> d.place[t] != p)
    ensures Lists(d', Insert(q, pos, t), p)
  {
    InsertNoDup(q, pos, t);
  }

  lemma {:induction false} ListsTail(d: Dispatcher, d': Dispatcher, q: seq<Tid>, p: Place)
    requires q != [] && Lists(d, q, p) && q[0] in d'.place
    requires d'.place == d.place[q[0] := d'.place[q[0]]] && d'.place[q[0]] != p
    ensures Lists(d', q[1..], p)
  {
    TailLists(q);
  }

  /** Queues when t moves between places that are not in a queue, or all queues but w. */
  lemma {:induction false} QueuesFrame(d: Dispatcher, d': Dispatcher, t: Tid, w: WaitId)
    requires QueuesInv(d) && t in d'.place && d'.place == d.place[t := d'.place[t]]
    requires forall x :: x in d.queues && x != w ==> x in d'.queues && d'.queues[x] == d.queues[x]
    requires forall x :: x in d'.queues && x != w ==> x in d.queues
    requires d'.place[t].Waiting? ==> d'.place[t].w == w
    requires t in d.place && d.place[t].Waiting? ==> d.place[t].w == w
    requires w in d.queues ==> w in d'.queues
    requires w in d'.queues ==> Lists(d', d'.queues[w], Waiting(w))
    requires d'.place[t].Waiting? ==> w in d'.queues
    ensures QueuesInv(d')
  {
    forall x | x in d'.queues && x != w ensures Lists(d', d'.queues[x], Waiting(x)) {
      ListsFrame(d, d', t, d.queues[x], Waiting(x));
    }
  }

  lemma {:induction false} ReadyToRunInv(d: Dispatcher, t: Tid, pos: nat)
    requires PlaceInv(d) && t in d.place && d.place[t] == JustCreated
    ensures PlaceInv(ReadyToRun(d, t, pos))
  {
    var d' := ReadyToRun(d, t, pos);
    ListsInsert(d, d', t, d.ready, InReadyList, pos);
    forall w | w in d'.queues ensures Lists(d', d'.queues[w], Waiting(w)) {
      ListsFrame(d, d', t, d.queues[w], Waiting(w));
    }
  }

  /** Also when the sleeper is still currentThread, in the idle loop of Sleep. */
  lemma {:induction false} WakeInv(d: Dispatcher, w: WaitId, pos: nat)
    requires PlaceInv(d) && w in d.queues
    ensures PlaceInv(Wake(d, w, pos))
  {
    var q := d.queues[w];
    if q != [] {
      var d', t := Wake(d, w, pos), q[0];
      assert Lists(d, q, Waiting(w)) && t in q;
      ListsInsert(d, d', t, d.ready, InReadyList, pos);
      ListsTail(d, d', q, Waiting(w));
      QueuesFrame(d, d', t, w);
    }
  }

  lemma {:induction false} SleepOnInv(d: Dispatcher, w: WaitId, pos: nat)
    requires PlaceInv(d) && w in d.queues && !d.sleeping
    ensures PlaceInv(SleepOn(d, w, pos))
  {
    var d', t := SleepOn(d, w, pos), d.current;
    assert d.place[t] == OnCpu;
    ListsInsert(d, d', t, d.queues[w], Waiting(w), pos);
    ListsFrame(d, d', t, d.ready, InReadyList);
    QueuesFrame(d, d', t, w);
  }

  lemma {:induction false} SwitchInv(d: Dispatcher)
    requires PlaceInv(d) && d.sleeping && d.ready != []
    ensures PlaceInv(Switch(d))
  {
    var d', t := Switch(d), d.ready[0];
    assert t in d.ready;
    ListsTail(d, d', d.ready, InReadyList);
    forall w | w in d'.queues ensures Lists(d', d'.queues[w], Waiting(w)) {
      ListsFrame(d, d', t, d.queues[w], Waiting(w));
    }
  }

  /** The destructor's ASSERT(this != currentThread) holds: the carcass is not the thread that runs. */
  lemma {:induction false} RunNextInv(d: Dispatcher)
    requires PlaceInv(d) && d.sleeping && d.ready != []
    ensures PlaceInv(RunNext(d))
    ensures d.toBeDestroyed.Some? ==> d.toBeDestroyed.value != RunNext(d).current
  {
    var d1 := Switch(d);
    SwitchInv(d);
    assert d.ready[0] in d.ready;
    if d.ready[0] in d.started && d.toBeDestroyed.Some? {
      var d', t := RunNext(d), d.toBeDestroyed.value;
      ListsFrame(d1, d', t, d1.ready, InReadyList);
      forall w | w in d'.queues ensures Lists(d', d'.queues[w], Waiting(w)) {
        ListsFrame(d1, d', t, d1.queues[w], Waiting(w));
      }
    }
  }

  lemma {:induction false} NoDupCons(t: Tid, q: seq<Tid>)
    requires NoDup(q) && t !in q
    ensures NoDup([t] + q)
  {
  }

  lemma {:induction false} YieldInv(d: Dispatcher, pos: nat)
    requires PlaceInv(d) && !d.sleeping
    ensures PlaceInv(Yield(d, pos))
  {
    if d.ready != [] {
      var t := d.current;
      var d1 := d.(sleeping := true, place := d.place[t := InReadyList],
                   ready := [d.ready[0]] + Insert(d.ready[1..], pos, t));
      assert d.place[t] == OnCpu;
      TailLists(d.ready);
      InsertNoDup(d.ready[1..], pos, t);
      NoDupCons(d.ready[0], Insert(d.ready[1..], pos, t));
      forall w | w in d1.queues ensures Lists(d1, d1.queues[w], Waiting(w)) {
        ListsFrame(d, d1, t, d.queues[w], Waiting(w));
      }
      RunNextInv(d1);
    }
  }

  lemma {:induction false} EndInv(d: Dispatcher)
    requires PlaceInv(d) && !d.sleeping
    ensures PlaceInv(End(d))
  {
    var d', t := End(d), d.current;
    assert d.place[t] == OnCpu;
    ListsFrame(d, d', t, d.ready, InReadyList);
    forall w | w in d'.queues ensures Lists(d', d'.queues[w], Waiting(w)) {
      ListsFrame(d, d', t, d.queues[w], Waiting(w));
    }
  }

  lemma {:induction false} CreateInv(d: Dispatcher, t: Tid)
    requires PlaceInv(d) && t !in d.place && JoinSignal(t) !in d.queues && MayDie(t) !in d.queues
    ensures PlaceInv(Create(d, t))
  {
    var d' := Create(d, t);
    ListsFrame(d, d', t, d.ready, InReadyList);
    forall w | w in d'.queues ensures Lists(d', d'.queues[w], Waiting(w)) {
      if w in d.queues { ListsFrame(d, d', t, d.queues[w], Waiting(w)); }
    }
  }

  /* ------------------------------ Join and Finish ------------------------------ */

  /** What a thread is doing: its own code, or one of the stages of Join(t) and Finish. */
  datatype Pc =
    | Code
    | JoinWait(t: Tid)    // in joinSignal->P()
    | JoinRead(t: Tid)    // about to copy the exit status
    | JoinRelease(t: Tid) // about to do mayDie->V()
    | FinishWait          // in mayDie->P()
    | Dead

  /** A thread's part in the protocol. `final` is the exit status it had when Finish began, `seen`
      what its joiner read, `released` whether the joiner has done its V on mayDie. */
  datatype Control = Control(
    pc: Pc, joinable: bool, exit: int, final: Option<int>, joinSignal: nat, mayDie: nat,
    joiner: Option<Tid>, seen: Option<int>, released: bool)

  datatype System = System(d: Dispatcher, th: map<Tid, Control>)

  /** One pass of the loop of joinSignal->P(), for the current thread. */
  function TryJoin(s: System, t: Tid, pos: nat): (s': System)
    requires t in s.th && s.d.current in s.th && JoinSignal(t) in s.d.queues
  {
    var me := s.d.current;
    if s.th[t].joinSignal == 0 then
      System(SleepOn(s.d, JoinSignal(t), pos), s.th[me := s.th[me].(pc := JoinWait(t))])
    else
      s.(th := s.th[t := s.th[t].(joinSignal := s.th[t].joinSignal - 1)][me := s.th[me].(pc := JoinRead(t))])
  }

  /** One pass of the loop of mayDie->P() in Finish, and what follows it. */
  function TryDie(s: System, pos: nat): (s': System)
    requires s.d.current in s.th && MayDie(s.d.current) in s.d.queues
  {
    var me := s.d.current;
    if s.th[me].mayDie == 0 then
      System(SleepOn(s.d, MayDie(me), pos), s.th[me := s.th[me].(pc := FinishWait)])
    else
      System(End(s.d), s.th[me := s.th[me].(pc := Dead, mayDie := s.th[me].mayDie - 1)])
  }

  /** Finish of a joinable thread does joinSignal->V() and comes to mayDie->P(). */
  function Signalled(s: System, pos: nat): (s': System)
    requires s.d.current in s.th && JoinSignal(s.d.current) in s.d.queues
  {
    System(Wake(s.d, JoinSignal(s.d.current), pos), s.th[s.d.current := Signals(s.th[s.d.current])])
  }

  function Signals(x: Control): (x': Control) {
    x.(final := Some(x.exit), joinSignal := x.joinSignal + 1, pc := FinishWait)
  }

  function Finish(s: System, pos: nat, pos2: nat): (s': System)
    requires s.d.current in s.th && JoinSignal(s.d.current) in s.d.queues && MayDie(s.d.current) in s.d.queues
  {
    var me := s.d.current;
    if s.th[me].joinable then TryDie(Signalled(s, pos), pos2)
    else System(End(s.d), s.th[me := s.th[me].(final := Some(s.th[me].exit), pc := Dead)])
  }

  /** Join copies the exit status of t into the current thread. */
  function CopyExit(s: System, t: Tid): (s': System)
    requires t in s.th && s.d.current in s.th
  {
    var me, v := s.d.current, s.th[t].exit;
    s.(th := s.th[t := s.th[t].(seen := Some(v))][me := s.th[me].(exit := v, pc := JoinRelease(t))])
  }

  /** The V on mayDie that ends Join. */
  function Released(s: System, t: Tid, pos: nat): (s': System)
    requires t in s.th && s.d.current in s.th && MayDie(t) in s.d.queues
  {
    var me := s.d.current;
    System(Wake(s.d, MayDie(t), pos),
           s.th[t := s.th[t].(mayDie := s.th[t].mayDie + 1, released := true)][me := s.th[me].(pc := Code)])
  }

  /** What happens between threads and the dispatcher. */
  datatype Scheduling =
    | Fork(t: Tid, pos: nat)
    | YieldCpu(pos: nat)
    | Block(n: nat, pos: nat)      // the current thread sleeps on some other queue
    | WakeOther(n: nat, pos: nat)  // a thread or an interrupt handler wakes a sleeper
    | Dispatch                     // Sleep finds a ready thread

  datatype Event =
    | Schedules(what: Scheduling)
    | New(t: Tid, joinable: bool)
    | SetExit(v: int)
    | Join(t: Tid, pos: nat)
    | Recheck(pos: nat)            // a woken thread goes round the loop of P again
    | ReadExit
    | LetDie(pos: nat)
    | FinishNow(pos: nat, pos2: nat)

  /** The current thread is on the CPU, doing whatever its `pc` says. */
  predicate Running(s: System) { !s.d.sleeping && s.d.current in s.th }

  predicate InCode(s: System) { Running(s) && s.th[s.d.current].pc == Code }

  /** When an event can happen: the source's ASSERTs, and each joinable thread is joined once. */
  predicate CanSchedule(s: System, e: Scheduling) {
    match e
    case Fork(t, _) => InCode(s) && t in s.d.place && s.d.place[t] == JustCreated
    case YieldCpu(_) => Running(s)
    case Block(n, _) => InCode(s) && Other(n) in s.d.queues
    case WakeOther(n, _) => Other(n) in s.d.queues
    case Dispatch => s.d.sleeping && s.d.ready != []
  }

  predicate Enabled(s: System, e: Event) {
    match e
    case Schedules(x) => CanSchedule(s, x)
    case New(t, _) => InCode(s) && t !in s.th
    case SetExit(_) => InCode(s)
    case Join(t, _) =>
      InCode(s) && t in s.th && t != s.d.current && s.th[t].joinable && s.th[t].joiner == None
    case Recheck(_) => Running(s) && (s.th[s.d.current].pc.JoinWait? || s.th[s.d.current].pc.FinishWait?)
    case ReadExit => Running(s) && s.th[s.d.current].pc.JoinRead?
    case LetDie(_) => Running(s) && s.th[s.d.current].pc.JoinRelease?
    case FinishNow(_, _) => InCode(s)
  }

  /** The semaphores of every thread exist, and the joins name threads. */
  ghost predicate Named(s: System) {
    && s.th.Keys == s.d.place.Keys && s.d.current in s.th && QueuesNamed(s.d)
    && (forall u :: u in s.th && Joining(s.th[u].pc) ==> s.th[u].pc.t in s.th)
  }

  ghost predicate QueuesNamed(d: Dispatcher) {
    && (forall t :: t in d.place <==> JoinSignal(t) in d.queues)
    && (forall t :: t in d.place <==> MayDie(t) in d.queues)
  }

  predicate Joining(pc: Pc) { pc.JoinWait? || pc.JoinRead? || pc.JoinRelease? }

  function Scheduled(s: System, e: Scheduling): (d': Dispatcher)
    requires CanSchedule(s, e) && s.d.current in s.d.place
  {
    match e
    case Fork(t, pos) => ReadyToRun(s.d, t, pos)
    case YieldCpu(pos) => Yield(s.d, pos)
    case Block(n, pos) => SleepOn(s.d, Other(n), pos)
    case WakeOther(n, pos) => Wake(s.d, Other(n), pos)
    case Dispatch => RunNext(s.d)
  }

  function Created(s: System, t: Tid, joinable: bool): (s': System) {
    System(Create(s.d, t),
           s.th[t := Control(Code, joinable, 0, None, 0, if joinable then 0 else 1, None, None, false)])
  }

  function Step(s: System, e: Event): (s': System)
    requires Named(s) && Enabled(s, e)
  {
    var me := s.d.current;
    match e
    case Schedules(x) => s.(d := Scheduled(s, x))
    case New(t, joinable) => Created(s, t, joinable)
    case SetExit(v) => s.(th := s.th[me := s.th[me].(exit := v)])
    case Join(t, pos) => TryJoin(s.(th := s.th[t := s.th[t].(joiner := Some(me))]), t, pos)
    case Recheck(pos) => if s.th[me].pc.JoinWait? then TryJoin(s, s.th[me].pc.t, pos) else TryDie(s, pos)
    case ReadExit => CopyExit(s, s.th[me].pc.t)
    case LetDie(pos) => Released(s, s.th[me].pc.t, pos)
    case FinishNow(pos, pos2) => Finish(s, pos, pos2)
  }

  /* ------------------------------ the protocol's invariant ------------------------------ */

  /** Place and stage agree. */
  predicate Fits(t: Tid, x: Control, p: Place) {
    && (p == Finished || p == Destroyed <==> x.pc == Dead)
    && (p == JustCreated ==> x.pc == Code)
    && (p.Waiting? ==> match p.w
        case Other(_) => x.pc == Code
        case JoinSignal(u) => x.pc == JoinWait(u)
        case MayDie(u) => u == t && x.pc == FinishWait && !x.released)
  }

  /** The counters of one thread follow its stage. */
  predicate Counts(x: Control) {
    && (x.final.Some? <==> x.pc == FinishWait || x.pc == Dead)
    && (x.final.Some? ==> x.final == Some(x.exit))
    && (x.pc == FinishWait ==> x.joinable)
    && (x.joinable && x.final.None? ==> x.joinSignal == 0 && x.mayDie == 0 && !x.released && x.seen == None)
    && (x.joinable && x.final.Some? ==> x.mayDie + (if x.pc == Dead then 1 else 0) == if x.released then 1 else 0)
    && (x.joinable && x.released ==> x.seen == x.final)
    && (x.joinable && x.joiner.None? && x.final.Some? ==> x.joinSignal == 1 && !x.released)
  }

  /** A joiner u with control y, at place p, and the thread t with control x it joins. */
  predicate Pairs(u: Tid, y: Control, p: Place, t: Tid, x: Control) {
    && t != u && x.joinable && x.joiner == Some(u) && !x.released
    && (y.pc.JoinWait? ==> x.final.Some? ==> x.joinSignal == 1 && p != Waiting(JoinSignal(t)))
    && (y.pc.JoinRead? ==> x.final.Some? && x.joinSignal == 0)
    && (y.pc.JoinRelease? ==> x.final.Some? && x.joinSignal == 0 && x.seen == x.final == Some(y.exit))
  }

  ghost predicate FitsInv(s: System)
    requires Named(s)
  {
    forall t :: t in s.th ==> Fits(t, s.th[t], s.d.place[t])
  }

  ghost predicate CountsInv(s: System) { forall t :: t in s.th ==> Counts(s.th[t]) }

  ghost predicate PairsInv(s: System)
    requires Named(s)
  {
    forall u :: u in s.th && Joining(s.th[u].pc) ==>
      Pairs(u, s.th[u], s.d.place[u], s.th[u].pc.t, s.th[s.th[u].pc.t])
  }

  ghost predicate ProtocolInv(s: System) { Named(s) && FitsInv(s) && CountsInv(s) && PairsInv(s) }

  ghost predicate Inv(s: System) { PlaceInv(s.d) && ProtocolInv(s) }

  /** Moves of the dispatcher that the protocol does not notice. */
  predicate Harmless(pc: Pc, p: Place, p': Place) {
    || p' == p
    || (p != Finished && p != Destroyed
        && (p' == OnCpu || p' == InReadyList || (p'.Waiting? && p'.w.Other? && pc == Code)))
    || (p == Finished && p' == Destroyed)
  }

  lemma {:induction false} DispatcherMoves(s: System, d': Dispatcher)
    requires ProtocolInv(s) && d'.place.Keys == s.d.place.Keys && d'.queues.Keys == s.d.queues.Keys
    requires d'.current in d'.place
    requires forall t :: t in s.th ==> Harmless(s.th[t].pc, s.d.place[t], d'.place[t])
    ensures ProtocolInv(s.(d := d'))
  {
    var s' := s.(d := d');
    assert Named(s');
    forall t | t in s'.th ensures Fits(t, s'.th[t], d'.place[t]) { assert Fits(t, s.th[t], s.d.place[t]); }
    forall u | u in s'.th && Joining(s'.th[u].pc)
      ensures Pairs(u, s'.th[u], d'.place[u], s'.th[u].pc.t, s'.th[s'.th[u].pc.t])
    {
      assert Pairs(u, s.th[u], s.d.place[u], s.th[u].pc.t, s.th[s.th[u].pc.t]);
    }
  }

  /** A switch moves the old and the new thread, and may bury the carcass. */
  lemma {:induction false} RunNextPlaces(d: Dispatcher)
    requires PlaceInv(d) && d.ready != []
    ensures var d' := RunNext(d);
      && d'.place.Keys == d.place.Keys && d'.queues == d.queues
      && (forall t :: t in d.place ==>
            d'.place[t] == d.place[t] || (d.place[t] == InReadyList && d'.place[t] == OnCpu)
            || (d.place[t] == Finished && d'.place[t] == Destroyed))
  {
    assert d.ready[0] in d.ready;
  }

  lemma {:induction false} YieldPlaces(d: Dispatcher, pos: nat)
    requires PlaceInv(d) && !d.sleeping
    ensures var d' := Yield(d, pos);
      && d'.place.Keys == d.place.Keys && d'.queues == d.queues
      && (forall t :: t in d.place ==>
            d'.place[t] == d.place[t] || (d.place[t] == Finished && d'.place[t] == Destroyed)
            || ((d.place[t] == InReadyList || d.place[t] == OnCpu)
                && (d'.place[t] == InReadyList || d'.place[t] == OnCpu)))
  {
    if d.ready != [] {
      assert d.ready[0] in d.ready;
    }
  }

  /** A wake-up moves the front of the queue, if there is one, to the ready list. */
  ghost predicate WokeFront(d: Dispatcher, d': Dispatcher, w: WaitId)
    requires w in d.queues
  {
    var q := d.queues[w];
    && d'.place.Keys == d.place.Keys && d'.queues.Keys == d.queues.Keys
    && d'.current == d.current && d'.sleeping == d.sleeping
    && (q == [] ==> d'.place == d.place)
    && (q != [] ==> q[0] in d.place && d.place[q[0]] == Waiting(w) && d'.place == d.place[q[0] := InReadyList])
  }

  lemma {:induction false} WakePlaces(d: Dispatcher, w: WaitId, pos: nat)
    requires PlaceInv(d) && w in d.queues
    ensures WokeFront(d, Wake(d, w, pos), w)
  {
    assert Lists(d, d.queues[w], Waiting(w));
    if d.queues[w] != [] {
      assert d.queues[w][0] in d.queues[w];
    }
  }

  /** What a scheduling event does to the places, seen from the protocol. */
  lemma {:induction false} ScheduledPlaces(s: System, e: Scheduling)
    requires PlaceInv(s.d) && CanSchedule(s, e) && s.th.Keys == s.d.place.Keys
    ensures var d' := Scheduled(s, e);
      && d'.place.Keys == s.d.place.Keys && d'.queues.Keys == s.d.queues.Keys
      && (forall t :: t in s.th ==> Harmless(s.th[t].pc, s.d.place[t], d'.place[t]))
  {
    match e
    case Fork(t, pos) =>
    case YieldCpu(pos) => YieldPlaces(s.d, pos);
    case Block(n, pos) =>
    case WakeOther(n, pos) => WakePlaces(s.d, Other(n), pos);
    case Dispatch => RunNextPlaces(s.d);
  }

  lemma {:induction false} ScheduledPlaceInv(s: System, e: Scheduling)
    requires PlaceInv(s.d) && CanSchedule(s, e)
    ensures PlaceInv(Scheduled(s, e))
  {
    match e
    case Fork(t, pos) => ReadyToRunInv(s.d, t, pos);
    case YieldCpu(pos) => YieldInv(s.d, pos);
    case Block(n, pos) => SleepOnInv(s.d, Other(n), pos);
    case WakeOther(n, pos) => WakeInv(s.d, Other(n), pos);
    case Dispatch => RunNextInv(s.d);
  }

  lemma {:induction false} SchedulingInv(s: System, e: Scheduling)
    requires Inv(s) && CanSchedule(s, e)
    ensures Inv(s.(d := Scheduled(s, e)))
  {
    ScheduledPlaceInv(s, e);
    ScheduledPlaces(s, e);
    DispatcherMoves(s, Scheduled(s, e));
  }

  lemma {:induction false} CreatedInv(s: System, t: Tid, joinable: bool)
    requires Inv(s) && t !in s.th
    ensures Inv(Created(s, t, joinable))
  {
    CreateInv(s.d, t);
    CreatedProtocol(s, t, joinable);
  }

  lemma {:induction false} CreatedProtocol(s: System, t: Tid, joinable: bool)
    requires ProtocolInv(s) && t !in s.th
    ensures ProtocolInv(Created(s, t, joinable))
  {
    var s' := Created(s, t, joinable);
    forall u | u in s'.th ensures Fits(u, s'.th[u], s'.d.place[u]) && Counts(s'.th[u]) {
      if u != t { assert Fits(u, s.th[u], s.d.place[u]) && Counts(s.th[u]); }
    }
    forall u | u in s'.th && Joining(s'.th[u].pc) ensures Partner(s', u) { assert Partner(s, u); }
  }

  ghost predicate Partner(s: System, u: Tid)
    requires u in s.th && Joining(s.th[u].pc)
  {
    && u in s.d.place && s.th[u].pc.t in s.th
    && Pairs(u, s.th[u], s.d.place[u], s.th[u].pc.t, s.th[s.th[u].pc.t])
  }

  /** The dispatcher moves threads other than a and b harmlessly. */
  ghost predicate OthersKeep(s: System, d': Dispatcher, a: Tid, b: Tid)
    requires Named(s)
  {
    && d'.place.Keys == s.d.place.Keys && d'.queues.Keys == s.d.queues.Keys && d'.current in d'.place
    && forall u :: u in s.th && u != a && u != b ==> Harmless(s.th[u].pc, s.d.place[u], d'.place[u])
  }

  lemma {:induction false} StillPairs(u: Tid, y: Control, p: Place, p': Place, t: Tid, x: Control)
    requires Pairs(u, y, p, t, x) && Harmless(y.pc, p, p') && (y.pc == JoinWait(t) || !y.pc.JoinWait?)
    ensures Pairs(u, y, p', t, x)
  {
  }

  /** The control of one thread that is not inside Join changes. */
  lemma {:induction false} OneChange(s: System, s': System, me: Tid)
    requires ProtocolInv(s) && OthersKeep(s, s'.d, me, me) && me in s.th && s'.th.Keys == s.th.Keys
    requires forall u :: u in s.th && u != me ==> s'.th[u] == s.th[u]
    requires Fits(me, s'.th[me], s'.d.place[me]) && Counts(s'.th[me]) && !Joining(s'.th[me].pc)
    requires forall u :: u in s.th && u != me && Joining(s.th[u].pc) && s.th[u].pc.t == me
               ==> Pairs(u, s.th[u], s'.d.place[u], me, s'.th[me])
    ensures ProtocolInv(s')
  {
    assert forall u :: u in s'.d.place <==> u in s.d.place.Keys;
    assert forall w :: w in s'.d.queues <==> w in s.d.queues.Keys;
    assert QueuesNamed(s'.d);
    assert Named(s');
    forall u | u in s'.th ensures Fits(u, s'.th[u], s'.d.place[u]) && Counts(s'.th[u]) {
      if u != me { OtherFits(s, s'.d, me, me, u); }
    }
    forall u | u in s'.th && Joining(s'.th[u].pc) ensures Partner(s', u) {
      OnePartner(s, s', me, u);
    }
  }

  lemma {:induction false} OnePartner(s: System, s': System, me: Tid, u: Tid)
    requires ProtocolInv(s) && OthersKeep(s, s'.d, me, me) && s'.th.Keys == s.th.Keys
    requires forall v :: v in s.th && v != me ==> s'.th[v] == s.th[v]
    requires u in s.th && u != me && me in s.th && Joining(s.th[u].pc)
    requires s.th[u].pc.t == me ==> Pairs(u, s.th[u], s'.d.place[u], me, s'.th[me])
    ensures Partner(s', u)
  {
    var t := s.th[u].pc.t;
    assert Pairs(u, s.th[u], s.d.place[u], t, s.th[t]);
    if t != me { StillPairs(u, s.th[u], s.d.place[u], s'.d.place[u], t, s.th[t]); }
  }

  /** What a thread's own joiner depends on. */
  predicate SameForJoiner(x: Control, x': Control) {
    && x'.joinable == x.joinable && x'.joiner == x.joiner && x'.released == x.released
    && x'.final == x.final && x'.joinSignal == x.joinSignal && x'.seen == x.seen
  }

  /** The control of me, the joiner of t, and of t itself have changed together. */
  ghost predicate TogetherOk(s: System, s': System, me: Tid, t: Tid)
    requires Named(s)
  {
    && OthersKeep(s, s'.d, me, t) && me in s.th && t in s.th && me != t && s'.th.Keys == s.th.Keys
    && (forall u :: u in s.th && u != me && u != t ==> s'.th[u] == s.th[u])
    && var y, x, p, q := s'.th[me], s'.th[t], s'.d.place[me], s'.d.place[t];
       && s.th[t].joiner == Some(me) && SameForJoiner(s.th[me], y)
       && ((x == s.th[t] && Harmless(x.pc, s.d.place[t], q)) || !Joining(x.pc))
       && Fits(me, y, p) && Counts(y) && Fits(t, x, q) && Counts(x)
       && (Joining(y.pc) ==> y.pc.t == t && Pairs(me, y, p, t, x))
  }

  lemma {:induction false} TwoChange(s: System, s': System, me: Tid, t: Tid)
    requires ProtocolInv(s) && TogetherOk(s, s', me, t)
    ensures ProtocolInv(s')
  {
    TwoNamed(s, s', me, t);
    forall u | u in s'.th ensures Fits(u, s'.th[u], s'.d.place[u]) && Counts(s'.th[u]) {
      if u != me && u != t { OtherFits(s, s'.d, me, t, u); }
    }
    forall u | u in s'.th && Joining(s'.th[u].pc) ensures Partner(s', u) {
      if u != me { OtherPartner(s, s', me, t, u); }
    }
  }

  lemma {:induction false} TwoNamed(s: System, s': System, me: Tid, t: Tid)
    requires Named(s) && TogetherOk(s, s', me, t)
    ensures Named(s')
  {
    assert forall u :: u in s'.d.place <==> u in s.d.place.Keys;
    assert forall w :: w in s'.d.queues <==> w in s.d.queues.Keys;
    assert QueuesNamed(s'.d);
  }

  lemma {:induction false} OtherFits(s: System, d': Dispatcher, me: Tid, t: Tid, u: Tid)
    requires ProtocolInv(s) && OthersKeep(s, d', me, t) && u in s.th && u != me && u != t
    ensures Fits(u, s.th[u], d'.place[u]) && Counts(s.th[u])
  {
    assert Fits(u, s.th[u], s.d.place[u]);
  }

  lemma {:induction false} OtherPartner(s: System, s': System, me: Tid, t: Tid, u: Tid)
    requires ProtocolInv(s) && TogetherOk(s, s', me, t) && u in s.th && u != me && Joining(s'.th[u].pc)
    ensures Partner(s', u)
  {
    assert s'.th[u] == s.th[u];
    var w := s.th[u].pc.t;
    assert Pairs(u, s.th[u], s.d.place[u], w, s.th[w]);
    StillPairs(u, s.th[u], s.d.place[u], s'.d.place[u], w, s.th[w]);
  }

  lemma {:induction false} SetExitProtocol(s: System, v: int)
    requires ProtocolInv(s) && InCode(s)
    ensures ProtocolInv(s.(th := s.th[s.d.current := s.th[s.d.current].(exit := v)]))
  {
    var me := s.d.current;
    var x := s.th[me].(exit := v);
    assert Fits(me, s.th[me], s.d.place[me]) && Counts(s.th[me]);
    forall u | u in s.th && u != me && Joining(s.th[u].pc) && s.th[u].pc.t == me
      ensures Pairs(u, s.th[u], s.d.place[u], me, x)
    {
      assert Pairs(u, s.th[u], s.d.place[u], me, s.th[me]);
    }
    OneChange(s, s.(th := s.th[me := x]), me);
  }

  /** The state TryJoin starts from: the current thread is t's joiner and t's signal is up exactly
      if its Finish has begun. */
  ghost predicate MayTry(s: System, t: Tid) {
    && Running(s) && t in s.th && t != s.d.current && s.th[t].joinable && s.th[t].joiner == Some(s.d.current)
    && !s.th[t].released && (s.th[s.d.current].pc == Code || s.th[s.d.current].pc == JoinWait(t))
    && s.th[t].joinSignal == if s.th[t].final.Some? then 1 else 0
  }

  lemma {:induction false} TryJoinProtocol(s: System, t: Tid, pos: nat)
    requires ProtocolInv(s) && MayTry(s, t) && s.d.place[s.d.current] == OnCpu
    ensures ProtocolInv(TryJoin(s, t, pos))
  {
    var me := s.d.current;
    var x := s.th[t];
    assert Counts(s.th[me]) && Counts(x) && Fits(t, x, s.d.place[t]) && Fits(me, s.th[me], s.d.place[me]);
    TryJoinTogether(s, t, pos);
    TwoChange(s, TryJoin(s, t, pos), me, t);
  }

  lemma {:induction false} TryJoinTogether(s: System, t: Tid, pos: nat)
    requires Named(s) && MayTry(s, t) && s.d.place[s.d.current] == OnCpu
    requires Counts(s.th[s.d.current]) && Counts(s.th[t])
    requires Fits(t, s.th[t], s.d.place[t]) && Fits(s.d.current, s.th[s.d.current], s.d.place[s.d.current])
    ensures TogetherOk(s, TryJoin(s, t, pos), s.d.current, t)
  {
    if s.th[t].joinSignal == 0 { JoinSleeps(s, t, pos); } else { JoinTakes(s, t, pos); }
  }

  lemma {:induction false} JoinSleeps(s: System, t: Tid, pos: nat)
    requires Named(s) && MayTry(s, t) && Counts(s.th[s.d.current]) && Counts(s.th[t]) && s.th[t].joinSignal == 0
    requires Fits(t, s.th[t], s.d.place[t])
    ensures TogetherOk(s, TryJoin(s, t, pos), s.d.current, t)
  {
    var s', me := TryJoin(s, t, pos), s.d.current;
    assert s'.d.place.Keys == s.d.place.Keys && s'.d.queues.Keys == s.d.queues.Keys && s'.th.Keys == s.th.Keys;
    assert s'.th[me] == s.th[me].(pc := JoinWait(t)) && s'.d.place[me] == Waiting(JoinSignal(t));
  }

  lemma {:induction false} JoinTakes(s: System, t: Tid, pos: nat)
    requires Named(s) && MayTry(s, t) && Counts(s.th[s.d.current]) && Counts(s.th[t]) && s.th[t].joinSignal != 0
    requires Fits(t, s.th[t], s.d.place[t]) && s.d.place[s.d.current] == OnCpu
    ensures TogetherOk(s, TryJoin(s, t, pos), s.d.current, t)
  {
    var s', me := TryJoin(s, t, pos), s.d.current;
    assert s'.th.Keys == s.th.Keys && s'.th[me] == s.th[me].(pc := JoinRead(t));
    assert s'.th[t] == s.th[t].(joinSignal := 0) && Counts(s'.th[t]);
  }

  lemma {:induction false} TryJoinInv(s: System, t: Tid, pos: nat)
    requires Inv(s) && MayTry(s, t)
    ensures Inv(TryJoin(s, t, pos))
  {
    TryJoinProtocol(s, t, pos);
    SleepOnInv(s.d, JoinSignal(t), pos);
  }

  lemma {:induction false} JoinInv(s: System, t: Tid, pos: nat)
    requires Inv(s) && InCode(s) && t in s.th && t != s.d.current && s.th[t].joinable && s.th[t].joiner == None
    ensures Inv(TryJoin(s.(th := s.th[t := s.th[t].(joiner := Some(s.d.current))]), t, pos))
  {
    var s1 := s.(th := s.th[t := s.th[t].(joiner := Some(s.d.current))]);
    assert Counts(s.th[t]);
    JoinerSet(s, t);
    assert MayTry(s1, t);
    TryJoinInv(s1, t, pos);
  }

  lemma {:induction false} JoinerSet(s: System, t: Tid)
    requires ProtocolInv(s) && t in s.th && s.th[t].joinable && s.th[t].joiner == None
    ensures ProtocolInv(s.(th := s.th[t := s.th[t].(joiner := Some(s.d.current))]))
  {
    var x := s.th[t].(joiner := Some(s.d.current));
    var s' := s.(th := s.th[t := x]);
    assert Fits(t, s.th[t], s.d.place[t]) && Counts(s.th[t]);
    forall u | u in s'.th ensures Fits(u, s'.th[u], s'.d.place[u]) && Counts(s'.th[u]) {
      assert Fits(u, s.th[u], s.d.place[u]) && Counts(s.th[u]);
    }
    forall u | u in s'.th && Joining(s'.th[u].pc) ensures Partner(s', u) { assert Partner(s, u); }
  }

  lemma {:induction false} NobodyJoins(s: System, t: Tid)
    requires ProtocolInv(s) && t in s.th && (s.th[t].released || !s.th[t].joinable)
    ensures forall u :: u in s.th && Joining(s.th[u].pc) ==> s.th[u].pc.t != t
  {
  }

  lemma {:induction false} TryDieProtocol(s: System, pos: nat)
    requires ProtocolInv(s) && s.th[s.d.current].pc == FinishWait
    ensures ProtocolInv(TryDie(s, pos))
  {
    var me := s.d.current;
    assert Counts(s.th[me]) && Fits(me, s.th[me], s.d.place[me]);
    if s.th[me].mayDie == 0 {
      var d', x := SleepOn(s.d, MayDie(me), pos), s.th[me];
      forall u | u in s.th && u != me && Joining(s.th[u].pc) && s.th[u].pc.t == me
        ensures Pairs(u, s.th[u], d'.place[u], me, x)
      {
        assert Pairs(u, s.th[u], s.d.place[u], me, s.th[me]);
      }
      OneChange(s, TryDie(s, pos), me);
    } else {
      var x := s.th[me].(pc := Dead, mayDie := s.th[me].mayDie - 1);
      NobodyJoins(s, me);
      OneChange(s, TryDie(s, pos), me);
    }
  }

  lemma {:induction false} TryDieInv(s: System, pos: nat)
    requires Inv(s) && !s.d.sleeping && s.th[s.d.current].pc == FinishWait
    ensures Inv(TryDie(s, pos))
  {
    TryDieProtocol(s, pos);
    SleepOnInv(s.d, MayDie(s.d.current), pos);
    EndInv(s.d);
  }

  lemma {:induction false} CopyExitProtocol(s: System)
    requires ProtocolInv(s) && s.th[s.d.current].pc.JoinRead?
    ensures ProtocolInv(CopyExit(s, s.th[s.d.current].pc.t))
  {
    var me, t := s.d.current, s.th[s.d.current].pc.t;
    assert Partner(s, me) && Counts(s.th[me]) && Counts(s.th[t]);
    assert Fits(t, s.th[t], s.d.place[t]) && Fits(me, s.th[me], s.d.place[me]);
    TwoChange(s, CopyExit(s, t), me, t);
  }

  lemma {:induction false} ReleasedProtocol(s: System, s': System, t: Tid)
    requires ProtocolInv(s) && s.th[s.d.current].pc == JoinRelease(t) && OthersKeep(s, s'.d, t, t) && t in s.th
    requires s'.d.place[t] == if s.d.place[t] == Waiting(MayDie(t)) then InReadyList else s.d.place[t]
    requires s'.th == s.th[t := s.th[t].(mayDie := s.th[t].mayDie + 1, released := true)]
                          [s.d.current := s.th[s.d.current].(pc := Code)]
    ensures ProtocolInv(s')
  {
    var me, x := s.d.current, s.th[t];
    assert Partner(s, me) && Counts(x) && Counts(s.th[me]);
    assert Fits(t, x, s.d.place[t]) && Fits(me, s.th[me], s.d.place[me]);
    ReleasedTogether(s, s', t);
    TwoChange(s, s', me, t);
  }

  lemma {:induction false} ReleasedTogether(s: System, s': System, t: Tid)
    requires Named(s) && s.th[s.d.current].pc == JoinRelease(t) && OthersKeep(s, s'.d, t, t) && t in s.th
    requires s'.d.place[t] == if s.d.place[t] == Waiting(MayDie(t)) then InReadyList else s.d.place[t]
    requires s'.th == s.th[t := s.th[t].(mayDie := s.th[t].mayDie + 1, released := true)]
                          [s.d.current := s.th[s.d.current].(pc := Code)]
    requires Partner(s, s.d.current) && Counts(s.th[t]) && Counts(s.th[s.d.current])
    requires Fits(t, s.th[t], s.d.place[t]) && Fits(s.d.current, s.th[s.d.current], s.d.place[s.d.current])
    ensures TogetherOk(s, s', s.d.current, t)
  {
    var me := s.d.current;
    ReleasedControls(me, s.th[me], s.d.place[me], t, s.th[t], s.d.place[t], s'.d.place[t]);
  }

  lemma {:induction false} ReleasedControls(me: Tid, y: Control, p: Place, t: Tid, x: Control, q: Place, q': Place)
    requires y.pc == JoinRelease(t) && Pairs(me, y, p, t, x) && Counts(x) && Counts(y) && Fits(t, x, q)
    requires Fits(me, y, p)
    requires q' == if q == Waiting(MayDie(t)) then InReadyList else q
    ensures Counts(x.(mayDie := x.mayDie + 1, released := true)) && Counts(y.(pc := Code))
    ensures Fits(me, y.(pc := Code), p)
    ensures Fits(t, x.(mayDie := x.mayDie + 1, released := true), q')
  {}

  lemma {:induction false} MayDieWoken(s: System, t: Tid, pos: nat)
    requires PlaceInv(s.d) && Named(s) && FitsInv(s) && t in s.th && MayDie(t) in s.d.queues
    ensures OthersKeep(s, Wake(s.d, MayDie(t), pos), t, t)
    ensures Wake(s.d, MayDie(t), pos).place[t]
         == if s.d.place[t] == Waiting(MayDie(t)) then InReadyList else s.d.place[t]
  {
    WakePlaces(s.d, MayDie(t), pos);
    MayDieQueue(s, t);
    WokenFromMayDie(s, Wake(s.d, MayDie(t), pos), t);
  }

  lemma {:induction false} ReleasedInv(s: System, t: Tid, pos: nat)
    requires Inv(s) && s.th[s.d.current].pc == JoinRelease(t) && t in s.th && MayDie(t) in s.d.queues
    ensures Inv(Released(s, t, pos))
  {
    WakeInv(s.d, MayDie(t), pos);
    MayDieWoken(s, t, pos);
    ReleasedProtocol(s, Released(s, t, pos), t);
  }

  /** Only t itself waits on its mayDie, and a V there ends the wait. */
  lemma {:induction false} MayDieQueue(s: System, t: Tid)
    requires Named(s) && FitsInv(s) && QueuesInv(s.d) && t in s.th && MayDie(t) in s.d.queues
    ensures var q := s.d.queues[MayDie(t)];
      (q == [] || q[0] == t) && (q != [] <==> s.d.place[t] == Waiting(MayDie(t)))
  {
    var q := s.d.queues[MayDie(t)];
    assert Lists(s.d, q, Waiting(MayDie(t)));
    if q != [] {
      assert q[0] in q;
      assert Fits(q[0], s.th[q[0]], s.d.place[q[0]]);
    } else {
      assert t !in q;
    }
  }

  lemma {:induction false} WokenFromMayDie(s: System, d': Dispatcher, t: Tid)
    requires Named(s) && t in s.th && MayDie(t) in s.d.queues && WokeFront(s.d, d', MayDie(t))
    requires s.d.queues[MayDie(t)] == [] || s.d.queues[MayDie(t)][0] == t
    requires s.d.queues[MayDie(t)] != [] <==> s.d.place[t] == Waiting(MayDie(t))
    ensures OthersKeep(s, d', t, t)
    ensures d'.place[t] == if s.d.place[t] == Waiting(MayDie(t)) then InReadyList else s.d.place[t]
  {
  }

  /** Only its joiner waits on t's joinSignal, and a V there ends the wait. */
  lemma {:induction false} JoinQueue(s: System, t: Tid)
    requires ProtocolInv(s) && QueuesInv(s.d) && t in s.th && JoinSignal(t) in s.d.queues
    ensures var q := s.d.queues[JoinSignal(t)];
      forall u :: u in s.th ==> (s.d.place[u] == Waiting(JoinSignal(t)) <==> q != [] && u == q[0])
  {
    var q := s.d.queues[JoinSignal(t)];
    assert Lists(s.d, q, Waiting(JoinSignal(t)));
    forall u | u in s.th ensures s.d.place[u] == Waiting(JoinSignal(t)) <==> q != [] && u == q[0] {
      if u in q {
        OnlyJoinerWaits(s, t, u);
        assert q[0] in q;
        OnlyJoinerWaits(s, t, q[0]);
      }
    }
  }

  lemma {:induction false} WokenFromJoin(s: System, d': Dispatcher, t: Tid)
    requires Named(s) && t in s.th && JoinSignal(t) in s.d.queues
    requires WokeFront(s.d, d', JoinSignal(t)) && s.d.place[t] == OnCpu
    requires forall u :: u in s.th ==>
      (s.d.place[u] == Waiting(JoinSignal(t)) <==> s.d.queues[JoinSignal(t)] != [] && u == s.d.queues[JoinSignal(t)][0])
    ensures OthersKeep(s, d', t, t) && d'.place[t] == OnCpu
    ensures forall u :: u in s.th ==> d'.place[u] != Waiting(JoinSignal(t))
  {
  }

  lemma {:induction false} OnlyJoinerWaits(s: System, t: Tid, u: Tid)
    requires ProtocolInv(s) && u in s.th && s.d.place[u] == Waiting(JoinSignal(t))
    ensures t in s.th && s.th[t].joiner == Some(u)
  {
    assert Fits(u, s.th[u], s.d.place[u]);
    assert Joining(s.th[u].pc);
  }

  lemma {:induction false} SignalledProtocol(s: System, s': System)
    requires ProtocolInv(s) && InCode(s) && s.th[s.d.current].joinable && OthersKeep(s, s'.d, s.d.current, s.d.current)
    requires s'.th == s.th[s.d.current := Signals(s.th[s.d.current])]
    requires s'.d.place[s.d.current] == s.d.place[s.d.current] == OnCpu
    requires forall u :: u in s.th ==> s'.d.place[u] != Waiting(JoinSignal(s.d.current))
    ensures ProtocolInv(s')
  {
    var me := s.d.current;
    var x := Signals(s.th[me]);
    assert Counts(s.th[me]) && Fits(me, s.th[me], s.d.place[me]);
    forall u | u in s.th && u != me && Joining(s.th[u].pc) && s.th[u].pc.t == me
      ensures Pairs(u, s.th[u], s'.d.place[u], me, x)
    {
      assert Pairs(u, s.th[u], s.d.place[u], me, s.th[me]);
    }
    OneChange(s, s', me);
  }

  lemma {:induction false} JoinerWoken(s: System, t: Tid, pos: nat)
    requires PlaceInv(s.d) && ProtocolInv(s) && t in s.th && JoinSignal(t) in s.d.queues && s.d.place[t] == OnCpu
    ensures OthersKeep(s, Wake(s.d, JoinSignal(t), pos), t, t) && Wake(s.d, JoinSignal(t), pos).place[t] == OnCpu
    ensures forall u :: u in s.th ==> Wake(s.d, JoinSignal(t), pos).place[u] != Waiting(JoinSignal(t))
  {
    WakePlaces(s.d, JoinSignal(t), pos);
    JoinQueue(s, t);
    WokenFromJoin(s, Wake(s.d, JoinSignal(t), pos), t);
  }


  lemma {:induction false} SignalledInv(s: System, pos: nat)
    requires Inv(s) && InCode(s) && s.th[s.d.current].joinable
    ensures Inv(Signalled(s, pos))
  {
    WakeInv(s.d, JoinSignal(s.d.current), pos);
    JoinerWoken(s, s.d.current, pos);
    SignalledProtocol(s, Signalled(s, pos));
  }

  lemma {:induction false} FinishProtocol(s: System)
    requires ProtocolInv(s) && InCode(s) && !s.th[s.d.current].joinable
    ensures ProtocolInv(System(End(s.d),
      s.th[s.d.current := s.th[s.d.current].(final := Some(s.th[s.d.current].exit), pc := Dead)]))
  {
    var me := s.d.current;
    assert Counts(s.th[me]) && Fits(me, s.th[me], s.d.place[me]);
    NobodyJoins(s, me);
    OneChange(s, System(End(s.d), s.th[me := s.th[me].(final := Some(s.th[me].exit), pc := Dead)]), me);
  }

  lemma {:induction false} FinishInv(s: System, pos: nat, pos2: nat)
    requires Inv(s) && InCode(s)
    ensures Inv(Finish(s, pos, pos2))
  {
    if s.th[s.d.current].joinable {
      SignalledInv(s, pos);
      WakePlaces(s.d, JoinSignal(s.d.current), pos);
      TryDieInv(Signalled(s, pos), pos2);
    } else {
      FinishProtocol(s);
      EndInv(s.d);
    }
  }

  lemma {:induction false} RecheckInv(s: System, pos: nat)
    requires Inv(s) && Enabled(s, Recheck(pos))
    ensures s.th[s.d.current].pc.JoinWait? ==>
      var t := s.th[s.d.current].pc.t; t in s.th && JoinSignal(t) in s.d.queues && Inv(TryJoin(s, t, pos))
    ensures s.th[s.d.current].pc.FinishWait? ==> Inv(TryDie(s, pos))
  {
    var me := s.d.current;
    if s.th[me].pc.JoinWait? {
      assert Joining(s.th[me].pc) && Counts(s.th[s.th[me].pc.t]);
      TryJoinInv(s, s.th[me].pc.t, pos);
    } else {
      TryDieInv(s, pos);
    }
  }

  lemma {:induction false} StepInv(s: System, e: Event)
    requires Inv(s) && Enabled(s, e)
    ensures Inv(Step(s, e))
  {
    match e
    case Schedules(x) => SchedulingInv(s, x);
    case New(t, joinable) => CreatedInv(s, t, joinable);
    case SetExit(v) => SetExitProtocol(s, v);
    case Join(t, pos) => JoinInv(s, t, pos);
    case Recheck(pos) => RecheckInv(s, pos);
    case ReadExit => CopyExitProtocol(s);
    case LetDie(pos) => ReleasedInv(s, s.th[s.d.current].pc.t, pos);
    case FinishNow(pos, pos2) => FinishInv(s, pos, pos2);
  }

  /* ------------------------------ whole runs ------------------------------ */

  /** The main thread alone, and some empty wait queues. */
  ghost predicate Initial(s: System) {
    && s.d.current == 0 && !s.d.sleeping && s.d.ready == [] && s.d.toBeDestroyed == None
    && s.d.place == map[0 := OnCpu] && s.d.started == {0}
    && (forall w :: w in s.d.queues ==> s.d.queues[w] == [] && (w.Other? || w.of == 0))
    && JoinSignal(0) in s.d.queues && MayDie(0) in s.d.queues
    && s.th == map[0 := Control(Code, false, 0, None, 0, 1, None, None, false)]
  }

  ghost predicate Next(s: System, e: Event, s': System) {
    Named(s) && Enabled(s, e) && s' == Step(s, e)
  }

  /** s is where a run with these events can end. */
  ghost predicate Reaches(events: seq<Event>, s: System) {
    if events == [] then Initial(s)
    else
      var last := events[|events| - 1];
      exists s0 :: Reaches(events[..|events| - 1], s0) && Next(s0, last, s)
  }

  lemma {:induction false} InitialInv(s: System)
    requires Initial(s)
    ensures Inv(s)
  {
    InitialPlaces(s.d);
    InitialProtocol(s);
  }

  lemma {:induction false} InitialPlaces(d: Dispatcher)
    requires d.current == 0 && !d.sleeping && d.ready == [] && d.toBeDestroyed == None
    requires d.place == map[0 := OnCpu] && d.started == {0} && forall w :: w in d.queues ==> d.queues[w] == []
    ensures PlaceInv(d)
  {}

  lemma {:induction false} InitialProtocol(s: System)
    requires Initial(s)
    ensures ProtocolInv(s)
  {}

  lemma {:induction false} NextInv(s: System, e: Event, s': System)
    requires Inv(s) && Next(s, e, s')
    ensures Inv(s')
  {
    StepInv(s, e);
  }

  lemma {:induction false} RunInv(events: seq<Event>, s: System)
    requires Reaches(events, s)
    ensures Inv(s)
  {
    if events == [] {
      InitialInv(s);
    } else {
      var last := events[|events| - 1];
      var s0 :| Reaches(events[..|events| - 1], s0) && Next(s0, last, s);
      RunInv(events[..|events| - 1], s0);
      NextInv(s0, last, s);
    }
  }

  /** In every run every forked thread is on the CPU, in the ready list, in one wait queue or
      finished, and in only one of these places. */
  lemma {:induction false} AlwaysOnePlace(events: seq<Event>, s: System, t: Tid)
    requires Reaches(events, s)
    requires t in s.d.place && s.d.place[t] != JustCreated && s.d.place[t] != Destroyed
    ensures exists x :: FoundAt(s.d, t, x) && forall y :: FoundAt(s.d, t, y) ==> y == x
    ensures NoDup(s.d.ready) && forall w :: w in s.d.queues ==> NoDup(s.d.queues[w])
  {
    RunInv(events, s);
    OnePlace(s.d, t);
  }

  /** In every run a joinable thread dies only after its joiner has read its exit status and let
      it go; nobody is still inside a Join on a thread that is dead. */
  lemma {:induction false} NotDestroyedEarly(events: seq<Event>, s: System, t: Tid)
    requires Reaches(events, s) && t in s.th && s.th[t].joinable
    requires t in s.d.place && (s.d.place[t] == Finished || s.d.place[t] == Destroyed)
    ensures var x := s.th[t]; x.joiner.Some? && x.released && x.final.Some? && x.seen == x.final
    ensures forall u :: u in s.th && Joining(s.th[u].pc) ==> s.th[u].pc.t != t
  {
    RunInv(events, s);
    assert Fits(t, s.th[t], s.d.place[t]) && Counts(s.th[t]);
    NobodyJoins(s, t);
  }

  /** In every run a Join returns only after the Finish of the thread it waited for has begun, and
      hands over the exit status that thread had then. */
  lemma {:induction false} JoinReturnsAfterFinish(events: seq<Event>, s: System, pos: nat)
    requires Reaches(events, s) && Enabled(s, LetDie(pos))
    ensures var y := s.th[s.d.current]; y.pc.t in s.th && s.th[y.pc.t].final == Some(y.exit)
  {
    RunInv(events, s);
    assert Partner(s, s.d.current);
  }

  /** No wakeup of the protocol is lost: a joiner does not sleep on a thread whose Finish has
      begun, nor a finishing thread once its joiner has let it go. */
  lemma {:induction false} NoLostJoin(events: seq<Event>, s: System, u: Tid, t: Tid)
    requires Reaches(events, s) && u in s.th && t in s.th && u in s.d.place && t in s.d.place
    ensures s.d.place[u] == Waiting(JoinSignal(t)) ==> s.th[t].final.None?
    ensures s.d.place[t] == Waiting(MayDie(t)) ==> !s.th[t].released
  {
    RunInv(events, s);
    assert Fits(u, s.th[u], s.d.place[u]) && Fits(t, s.th[t], s.d.place[t]);
    if s.d.place[u] == Waiting(JoinSignal(t)) { assert Partner(s, u); }
  }
}
