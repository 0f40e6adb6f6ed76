/** What the steps of Threads do to each thread (code/threads/thread.cc, code/threads/scheduler.cc):
    the moves from place to place, the stages of Join and Finish, and the exit status. */
module ThreadMoves {
  import opened Wrappers
  import Synch
  import opened Threads

  /* ------------------------------ places ------------------------------ */

  /** Created, ready, running, waiting, ready again; in the end finished, and destroyed. */
  predicate MayMove(p: Place, p': Place) {
    || p' == p
    || (p.JustCreated? && p'.InReadyList?)
    || (p.InReadyList? && p'.OnCpu?)
    || (p.OnCpu? && (p'.InReadyList? || p'.Waiting? || p'.Finished?))
    || (p.Waiting? && p'.InReadyList?)
    || (p.Finished? && p'.Destroyed?)
  }

  ghost predicate AllMove(d: Dispatcher, d': Dispatcher) {
    d.place.Keys <= d'.place.Keys && forall t :: t in d.place ==> MayMove(d.place[t], d'.place[t])
  }

  /** Only the threads in `who` can have moved. */
  ghost predicate OnlyMove(d: Dispatcher, d': Dispatcher, who: set<nat>) {
    d'.place.Keys == d.place.Keys && forall t :: t in d.place && t !in who ==> d'.place[t] == d.place[t]
  }

  function Carcass(d: Dispatcher): set<nat> {
    if d.toBeDestroyed.Some? then {d.toBeDestroyed.value} else {}
  }

  /** n, so far in the ready list, is the running thread. */
  predicate Runs(d: Dispatcher, n: nat) {
    d.current == n && !d.sleeping && n in d.place && d.place[n] == OnCpu
  }

  /** What each scheduling step does: Fork makes the thread ready; Yield puts the running thread
      behind and runs the first ready one, if there is one; Block puts it into the wait queue;
      a wakeup makes the first waiter ready; Dispatch runs the first ready thread. */
  ghost predicate Effect(d: Dispatcher, e: Scheduling, d': Dispatcher) {
    match e
    case Fork(t, _) =>
      && t in d'.place && d'.place[t] == InReadyList && d'.current == d.current && d'.sleeping == d.sleeping
      && OnlyMove(d, d', {t})
    case YieldCpu(_) =>
      if d.ready == [] then d' == d
      else
        && Runs(d', d.ready[0]) && d.current in d'.place && d'.place[d.current] == InReadyList
        && OnlyMove(d, d', {d.current, d.ready[0]} + Carcass(d))
    case Block(n, _) =>
      && d.current in d'.place && d'.place[d.current] == Waiting(Other(n)) && d'.sleeping
      && OnlyMove(d, d', {d.current})
    case WakeOther(n, _) =>
      Other(n) in d.queues && Wakes(d, Other(n), d')
    case Dispatch => d.ready != [] && Runs(d', d.ready[0]) && OnlyMove(d, d', {d.ready[0]} + Carcass(d))
  }

  ghost predicate Wakes(d: Dispatcher, w: WaitId, d': Dispatcher)
    requires w in d.queues
  {
    if d.queues[w] == [] then d' == d
    else
      var t := d.queues[w][0];
      && t in d'.place && d'.place[t] == InReadyList && OnlyMove(d, d', {t})
      && d'.current == d.current && d'.sleeping == d.sleeping
  }

  /** The head of the queue waits there. */
  predicate HeadWaits(d: Dispatcher, w: WaitId) {
    w in d.queues && (d.queues[w] != [] ==> d.queues[w][0] in d.place && d.place[d.queues[w][0]] == Waiting(w))
  }

  lemma {:induction false} WakeEffect(d: Dispatcher, w: WaitId, pos: nat)
    requires HeadWaits(d, w)
    ensures Wakes(d, w, Wake(d, w, pos)) && AllMove(d, Wake(d, w, pos))
  {}

  lemma {:induction false} FirstWaits(d: Dispatcher, w: WaitId)
    requires PlaceInv(d) && w in d.queues
    ensures HeadWaits(d, w)
  {
    if d.queues[w] != [] { assert Lists(d, d.queues[w], Waiting(w)) && d.queues[w][0] in d.queues[w]; }
  }

  lemma {:induction false} FirstReady(d: Dispatcher)
    requires PlaceInv(d) && d.ready != []
    ensures d.ready[0] in d.place && d.place[d.ready[0]] == InReadyList
    ensures d.toBeDestroyed.Some? ==>
      d.toBeDestroyed.value in d.place && d.place[d.toBeDestroyed.value] == Finished
  {
    assert d.ready[0] in d.ready;
  }

  lemma {:induction false} RunNextEffect(d: Dispatcher)
    requires d.ready != [] && d.ready[0] in d.place && d.place[d.ready[0]] == InReadyList
    requires d.toBeDestroyed.Some? ==>
      d.toBeDestroyed.value in d.place && d.place[d.toBeDestroyed.value] == Finished
    ensures Runs(RunNext(d), d.ready[0]) && OnlyMove(d, RunNext(d), {d.ready[0]} + Carcass(d))
    ensures AllMove(d, RunNext(d))
  {}

  lemma {:induction false} YieldEffect(d: Dispatcher, pos: nat)
    requires PlaceInv(d) && !d.sleeping
    ensures Effect(d, YieldCpu(pos), Yield(d, pos)) && AllMove(d, Yield(d, pos))
  {
    if d.ready != [] {
      FirstReady(d);
      assert d.place[d.current] == OnCpu;
      RunNextEffect(d.(sleeping := true, place := d.place[d.current := InReadyList],
                       ready := [d.ready[0]] + Synch.Insert(d.ready[1..], pos, d.current)));
    }
  }

  lemma {:induction false} SchedulingEffect(s: System, e: Scheduling)
    requires PlaceInv(s.d) && CanSchedule(s, e)
    ensures Effect(s.d, e, Scheduled(s, e)) && AllMove(s.d, Scheduled(s, e))
  {
    match e
    case Fork(t, pos) =>
    case YieldCpu(pos) => YieldEffect(s.d, pos);
    case Block(n, pos) => assert s.d.place[s.d.current] == OnCpu;
    case WakeOther(n, pos) =>
      FirstWaits(s.d, Other(n));
      WakeEffect(s.d, Other(n), pos);
    case Dispatch =>
      FirstReady(s.d);
      RunNextEffect(s.d);
  }

  /* ------------------------------ stages ------------------------------ */

  /** How an event can change the stage of a thread: only its own events do, and Join, Finish and
      their parts come in order. */
  predicate MayAdvance(t: nat, x: Pc, x': Pc, current: nat, e: Event) {
    || x' == x
    || (t == current && match e
          case Join(u, _) => x.Code? && (x' == JoinWait(u) || x' == JoinRead(u))
          case Recheck(_) => (x.JoinWait? && x' == JoinRead(x.t)) || (x.FinishWait? && x'.Dead?)
          case ReadExit => x.JoinRead? && x' == JoinRelease(x.t)
          case LetDie(_) => x.JoinRelease? && x'.Code?
          case FinishNow(_, _) => x.Code? && (x'.FinishWait? || x'.Dead?)
          case _ => false)
  }

  lemma {:induction false} StageMoves(s: System, e: Event, t: nat)
    requires Named(s) && Enabled(s, e) && t in s.th
    ensures t in Step(s, e).th && MayAdvance(t, s.th[t].pc, Step(s, e).th[t].pc, s.d.current, e)
  {}

  /** The joining parts do happen: reading the status, and letting the other die. */
  lemma {:induction false} JoinAdvances(s: System, e: Event)
    requires Named(s) && Enabled(s, e) && (e.ReadExit? || e.LetDie?)
    ensures s.d.current in Step(s, e).th && Step(s, e).th[s.d.current].pc
         == if e.ReadExit? then JoinRelease(s.th[s.d.current].pc.t) else Code
  {}

  /** A thread at P of joinSignal of t: it gets on exactly if the Finish of t has begun. */
  ghost predicate JoinOutcome(s: System, s': System, t: nat)
    requires t in s.th
  {
    var me := s.d.current;
    && me in s'.th && me in s'.d.place
    && if s.th[t].final.Some? then s'.th[me].pc == JoinRead(t) && s'.d == s.d
       else s'.th[me].pc == JoinWait(t) && s'.d.place[me] == Waiting(JoinSignal(t)) && s'.d.sleeping
  }

  /** A finishing thread at P of its mayDie: it dies exactly if its joiner has let it go. */
  ghost predicate DieOutcome(s: System, s': System) {
    var me := s.d.current;
    && me in s.th && me in s'.th && me in s'.d.place && s'.d.sleeping
    && if s.th[me].released then s'.th[me].pc.Dead? && s'.d.place[me] == Finished
       else s'.th[me].pc.FinishWait? && s'.d.place[me] == Waiting(MayDie(me))
  }

  lemma {:induction false} JoinGets(s: System, t: nat, pos: nat)
    requires Inv(s) && Enabled(s, Join(t, pos))
    ensures JoinOutcome(s, Step(s, Join(t, pos)), t)
  {
    assert Counts(s.th[t]);
  }

  lemma {:induction false} RecheckGets(s: System, pos: nat)
    requires Inv(s) && Enabled(s, Recheck(pos))
    ensures var x, s' := s.th[s.d.current].pc, Step(s, Recheck(pos));
      if x.JoinWait? then x.t in s.th && JoinOutcome(s, s', x.t) else DieOutcome(s, s')
  {
    var me := s.d.current;
    assert Counts(s.th[me]);
    if s.th[me].pc.JoinWait? {
      assert Partner(s, me) && Counts(s.th[s.th[me].pc.t]);
    }
  }

  /** Finish of a thread nobody can join ends it; a joinable one signals its joiner and waits. */
  lemma {:induction false} FinishGets(s: System, pos: nat, pos2: nat)
    requires Inv(s) && Enabled(s, FinishNow(pos, pos2))
    ensures var me, s' := s.d.current, Step(s, FinishNow(pos, pos2));
      if s.th[me].joinable then DieOutcome(s, s')
      else me in s'.th && me in s'.d.place && s'.th[me].pc.Dead? && s'.d.place[me] == Finished
  {
    assert Counts(s.th[s.d.current]);
    FirstWaits(s.d, JoinSignal(s.d.current));
  }

  /* ------------------------------ the exit status ------------------------------ */

  /** Who sets a thread's exit status: it itself, by a system call, or its own Join, which takes over
      the status that the joined thread finished with. */
  function ExitAfter(s: System, e: Event, t: nat): int
    requires t in s.th
  {
    if t != s.d.current then s.th[t].exit
    else match e
      case SetExit(v) => v
      case ReadExit =>
        if s.th[t].pc.JoinRead? && s.th[t].pc.t in s.th && s.th[s.th[t].pc.t].final.Some?
        then s.th[s.th[t].pc.t].final.value else s.th[t].exit
      case _ => s.th[t].exit
  }

  /** The status a thread finishes with is the one it has when Finish begins; it stays. */
  function FinalAfter(s: System, e: Event, t: nat): Option<int>
    requires t in s.th
  {
    if t == s.d.current && e.FinishNow? then Some(s.th[t].exit) else s.th[t].final
  }

  lemma {:induction false} ExitMoves(s: System, e: Event, t: nat)
    requires Inv(s) && Enabled(s, e) && t in s.th
    ensures t in Step(s, e).th && Step(s, e).th[t].exit == ExitAfter(s, e, t)
    ensures Step(s, e).th[t].final == FinalAfter(s, e, t)
  {
    if e.ReadExit? {
      assert Partner(s, s.d.current);
      assert Counts(s.th[s.th[s.d.current].pc.t]);
    }
    ExitOfStep(s, e, t);
  }

  lemma {:induction false} ExitOfStep(s: System, e: Event, t: nat)
    requires Named(s) && Enabled(s, e) && t in s.th
    requires e.ReadExit? ==> Partner(s, s.d.current) && Counts(s.th[s.th[s.d.current].pc.t])
    ensures t in Step(s, e).th && Step(s, e).th[t].exit == ExitAfter(s, e, t)
    ensures Step(s, e).th[t].final == FinalAfter(s, e, t)
  {
    match e
    case ReadExit => ExitRead(s, t);
    case FinishNow(_, _) => ExitAtFinish(s, e, t);
    case _ => ExitStays(s, e, t);
  }

  lemma {:induction false} ExitStays(s: System, e: Event, t: nat)
    requires Named(s) && Enabled(s, e) && t in s.th && !e.ReadExit? && !e.FinishNow?
    ensures t in Step(s, e).th && Step(s, e).th[t].exit == ExitAfter(s, e, t)
    ensures Step(s, e).th[t].final == s.th[t].final
  {}

  lemma {:induction false} ExitRead(s: System, t: nat)
    requires Named(s) && Enabled(s, ReadExit) && t in s.th
    requires Partner(s, s.d.current) && Counts(s.th[s.th[s.d.current].pc.t])
    ensures t in Step(s, ReadExit).th && Step(s, ReadExit).th[t].exit == ExitAfter(s, ReadExit, t)
    ensures Step(s, ReadExit).th[t].final == FinalAfter(s, ReadExit, t)
  {}

  lemma {:induction false} ExitAtFinish(s: System, e: Event, t: nat)
    requires Named(s) && Enabled(s, e) && t in s.th && e.FinishNow?
    ensures t in Step(s, e).th && Step(s, e).th[t].exit == ExitAfter(s, e, t)
    ensures Step(s, e).th[t].final == FinalAfter(s, e, t)
  {}

  lemma {:induction false} NewThread(s: System, t: nat, joinable: bool)
    requires Named(s) && Enabled(s, New(t, joinable))
    ensures var s' := Step(s, New(t, joinable));
      && t in s'.th && s'.th[t].exit == 0 && s'.th[t].final.None? && s'.th[t].joinable == joinable && s'.th[t].pc.Code?
      && t in s'.d.place && s'.d.place[t] == JustCreated && OnlyMoveBut(s.d, s'.d, t)
  {}

  ghost predicate OnlyMoveBut(d: Dispatcher, d': Dispatcher, t: nat) {
    d'.place.Keys == d.place.Keys + {t} && forall u :: u in d.place && u != t ==> d'.place[u] == d.place[u]
  }

  /* ------------------------------ all events ------------------------------ */

  lemma {:induction false} AllMoveTrans(d: Dispatcher, m: Dispatcher, d': Dispatcher, me: nat)
    requires AllMove(d, m) && AllMove(m, d') && me in d.place && m.place[me] == d.place[me]
    requires forall t :: t in m.place && t != me ==> t in d'.place && d'.place[t] == m.place[t]
    ensures AllMove(d, d')
  {}

  lemma {:induction false} DieMoves(s: System, pos: nat)
    requires s.d.current in s.th && MayDie(s.d.current) in s.d.queues
    requires s.d.current in s.d.place && s.d.place[s.d.current] == OnCpu
    ensures AllMove(s.d, TryDie(s, pos).d)
    ensures forall t :: t in s.d.place && t != s.d.current ==>
      t in TryDie(s, pos).d.place && TryDie(s, pos).d.place[t] == s.d.place[t]
  {}

  lemma {:induction false} FinishMoves(s: System, pos: nat, pos2: nat)
    requires Named(s) && InCode(s) && s.d.place[s.d.current] == OnCpu && HeadWaits(s.d, JoinSignal(s.d.current))
    ensures AllMove(s.d, Finish(s, pos, pos2).d)
  {
    var me := s.d.current;
    if s.th[me].joinable {
      WakeEffect(s.d, JoinSignal(me), pos);
      WokenStays(s, pos);
      DieMoves(Signalled(s, pos), pos2);
      AllMoveTrans(s.d, Signalled(s, pos).d, Finish(s, pos, pos2).d, me);
    }
  }

  lemma {:induction false} WokenStays(s: System, pos: nat)
    requires Named(s) && s.d.place[s.d.current] == OnCpu && HeadWaits(s.d, JoinSignal(s.d.current))
    ensures var s', me := Signalled(s, pos), s.d.current;
      && s'.d.current == me && me in s'.th && MayDie(me) in s'.d.queues
      && me in s'.d.place && s'.d.place[me] == OnCpu
  {}

  /** In every state with the invariant, every event moves each thread along the allowed ways only. */
  lemma {:induction false} PlaceMoves(s: System, e: Event)
    requires Inv(s) && Enabled(s, e)
    ensures AllMove(s.d, Step(s, e).d)
  {
    CurrentRuns(s.d);
    match e
    case Schedules(x) => SchedulingEffect(s, x);
    case FinishNow(pos, pos2) =>
      FirstWaits(s.d, JoinSignal(s.d.current));
      FinishMoves(s, pos, pos2);
    case LetDie(pos) =>
      FirstWaits(s.d, MayDie(s.th[s.d.current].pc.t));
      WakeEffect(s.d, MayDie(s.th[s.d.current].pc.t), pos);
    case _ => OtherMoves(s, e);
  }

  lemma {:induction false} CurrentRuns(d: Dispatcher)
    requires PlaceInv(d)
    ensures d.current in d.place && (!d.sleeping ==> d.place[d.current] == OnCpu)
  {}

  lemma {:induction false} OtherMoves(s: System, e: Event)
    requires Named(s) && Enabled(s, e) && !e.Schedules? && !e.FinishNow? && !e.LetDie?
    requires s.d.place[s.d.current] == OnCpu
    ensures AllMove(s.d, Step(s, e).d)
  {
    match e
    case Recheck(pos) => RecheckMoves(s, pos);
    case Join(t, pos) => JoinMoves(s, t, pos);
    case _ =>
  }

  lemma {:induction false} JoinMoves(s: System, t: nat, pos: nat)
    requires Named(s) && Enabled(s, Join(t, pos)) && s.d.place[s.d.current] == OnCpu
    ensures AllMove(s.d, Step(s, Join(t, pos)).d)
  {}

  lemma {:induction false} RecheckMoves(s: System, pos: nat)
    requires Named(s) && Enabled(s, Recheck(pos)) && s.d.place[s.d.current] == OnCpu
    ensures AllMove(s.d, Step(s, Recheck(pos)).d)
  {}

  /** All this holds in every run. */
  lemma {:induction false} EveryRunMoves(events: seq<Event>, s: System, e: Event)
    requires Reaches(events, s) && Enabled(s, e)
    ensures Inv(s) && AllMove(s.d, Step(s, e).d)
    ensures e.Schedules? ==> Effect(s.d, e.what, Step(s, e).d)
    ensures forall t :: t in s.th ==>
      && t in Step(s, e).th && Step(s, e).th[t].exit == ExitAfter(s, e, t)
      && Step(s, e).th[t].final == FinalAfter(s, e, t)
      && MayAdvance(t, s.th[t].pc, Step(s, e).th[t].pc, s.d.current, e)
  {
    RunInv(events, s);
    PlaceMoves(s, e);
    if e.Schedules? { SchedulingEffect(s, e.what); }
    forall t | t in s.th
      ensures t in Step(s, e).th && Step(s, e).th[t].exit == ExitAfter(s, e, t)
      ensures Step(s, e).th[t].final == FinalAfter(s, e, t)
      ensures MayAdvance(t, s.th[t].pc, Step(s, e).th[t].pc, s.d.current, e)
    {
      ExitMoves(s, e, t);
      StageMoves(s, e, t);
    }
  }
}
