/** What becomes of a thread that has finished (code/threads/thread.cc, code/threads/scheduler.cc):
    Finish leaves it to Scheduler::Run to delete it, which does not always happen. */
module Carcasses {
  import opened Wrappers
  import Synch
  import opened Threads

  /* ------------------------------ what becomes of the carcass ------------------------------ */

  /** A switch deletes the carcass exactly when the thread switched to has run before. */
  lemma {:induction false} BuriedIff(d: Dispatcher)
    requires PlaceInv(d) && d.sleeping && d.ready != [] && d.toBeDestroyed.Some?
    ensures d.toBeDestroyed.value in RunNext(d).place
    ensures RunNext(d).place[d.toBeDestroyed.value] == Destroyed <==> d.ready[0] in d.started
  {
    assert d.ready[0] in d.ready;
  }

  /** The current thread dies in this step. */
  predicate Dies(s: System, e: Event) {
    && Running(s)
    && var x := s.th[s.d.current];
       if e.FinishNow? then !x.joinable else e.Recheck? && x.pc.FinishWait? && x.mayDie > 0
  }

  /** This step switches to a thread that has run before. */
  predicate SwitchesBack(s: System, e: Event) {
    && e.Schedules? && (e.what.Dispatch? || e.what.YieldCpu?)
    && s.d.ready != [] && s.d.ready[0] in s.d.started
  }

  /** The carcass t is where it was. */
  predicate Left(d: Dispatcher, t: nat) {
    t in d.place && d.place[t] == Finished && d.toBeDestroyed == Some(t)
  }

  /** It is there, but Run has been told of another. */
  predicate Forgotten(d: Dispatcher, t: nat) {
    t in d.place && d.place[t] == Finished && d.toBeDestroyed != Some(t)
  }

  predicate Gone(d: Dispatcher, t: nat) { t in d.place && d.place[t] == Destroyed }

  /** What a step makes of the carcass t. */
  predicate Fate(s: System, e: Event, d': Dispatcher, t: nat) {
    if SwitchesBack(s, e) then Gone(d', t) else if Dies(s, e) then Forgotten(d', t) else Left(d', t)
  }

  lemma {:induction false} LeftWake(d: Dispatcher, w: WaitId, pos: nat, t: nat)
    requires w in d.queues && Lists(d, d.queues[w], Waiting(w)) && Left(d, t)
    ensures Left(Wake(d, w, pos), t)
  {
    if d.queues[w] != [] { assert d.queues[w][0] in d.queues[w]; }
  }

  lemma {:induction false} LeftScheduled(s: System, e: Scheduling, t: nat)
    requires PlaceInv(s.d) && CanSchedule(s, e) && Left(s.d, t)
    ensures Fate(s, Schedules(e), Scheduled(s, e), t)
  {
    match e
    case Fork(u, pos) =>
    case YieldCpu(pos) => if s.d.ready != [] { assert s.d.ready[0] in s.d.ready; }
    case Block(n, pos) =>
    case WakeOther(n, pos) => LeftWake(s.d, Other(n), pos, t);
    case Dispatch => BuriedIff(s.d);
  }

  lemma {:induction false} LeftTryJoin(s: System, u: nat, pos: nat, t: nat)
    requires u in s.th && s.d.current in s.th && JoinSignal(u) in s.d.queues && Left(s.d, t) && t != s.d.current
    ensures Left(TryJoin(s, u, pos).d, t)
  {
  }

  lemma {:induction false} LeftTryDie(s: System, pos: nat, t: nat)
    requires s.d.current in s.th && MayDie(s.d.current) in s.d.queues && Left(s.d, t) && t != s.d.current
    ensures if s.th[s.d.current].mayDie > 0 then Forgotten(TryDie(s, pos).d, t) else Left(TryDie(s, pos).d, t)
  {
  }

  lemma {:induction false} LeftFinish(s: System, pos: nat, pos2: nat, t: nat)
    requires s.d.current in s.th && JoinSignal(s.d.current) in s.d.queues && MayDie(s.d.current) in s.d.queues
    requires Lists(s.d, s.d.queues[JoinSignal(s.d.current)], Waiting(JoinSignal(s.d.current)))
    requires Left(s.d, t) && t != s.d.current && (s.th[s.d.current].joinable ==> s.th[s.d.current].mayDie == 0)
    ensures if s.th[s.d.current].joinable then Left(Finish(s, pos, pos2).d, t)
            else Forgotten(Finish(s, pos, pos2).d, t)
  {
    if s.th[s.d.current].joinable {
      LeftWake(s.d, JoinSignal(s.d.current), pos, t);
      SignalledQueues(s, pos);
      LeftTryDie(Signalled(s, pos), pos2, t);
    }
  }

  lemma {:induction false} SignalledQueues(s: System, pos: nat)
    requires s.d.current in s.th && JoinSignal(s.d.current) in s.d.queues && MayDie(s.d.current) in s.d.queues
    ensures var s' := Signalled(s, pos);
      && s'.d.current == s.d.current && s'.d.current in s'.th && MayDie(s.d.current) in s'.d.queues
      && s'.th[s.d.current].mayDie == s.th[s.d.current].mayDie
  {
  }

  /** The carcass t left for Run is deleted exactly by a switch to a thread that has run before,
      and forgotten exactly when another thread dies first. */
  lemma {:induction false} CarcassFate(s: System, e: Event, t: nat)
    requires Inv(s) && Enabled(s, e) && s.d.toBeDestroyed == Some(t)
    ensures Fate(s, e, Step(s, e).d, t)
  {
    assert Counts(s.th[s.d.current]);
    assert Left(s.d, t) && (!s.d.sleeping ==> t != s.d.current);
    match e
    case Schedules(_) => ScheduleFate(s, e, t);
    case FinishNow(_, _) =>
      QueueListed(s.d, JoinSignal(s.d.current));
      FinishFate(s, e, t);
    case Recheck(_) => RecheckFate(s, e, t);
    case LetDie(_) =>
      QueueListed(s.d, MayDie(s.th[s.d.current].pc.t));
      LetDieFate(s, e, t);
    case Join(_, _) => JoinFate(s, e, t);
    case _ => QuietFate(s, e, t);
  }

  lemma {:induction false} QueueListed(d: Dispatcher, w: WaitId)
    requires PlaceInv(d) && w in d.queues
    ensures Lists(d, d.queues[w], Waiting(w))
  {}

  lemma {:induction false} ScheduleFate(s: System, e: Event, t: nat)
    requires PlaceInv(s.d) && Named(s) && Enabled(s, e) && Left(s.d, t) && e.Schedules?
    ensures Fate(s, e, Step(s, e).d, t)
  {
    LeftScheduled(s, e.what, t);
  }

  lemma {:induction false} FinishFate(s: System, e: Event, t: nat)
    requires Named(s) && Enabled(s, e) && Left(s.d, t) && e.FinishNow? && t != s.d.current
    requires Lists(s.d, s.d.queues[JoinSignal(s.d.current)], Waiting(JoinSignal(s.d.current)))
    requires s.th[s.d.current].joinable ==> s.th[s.d.current].mayDie == 0
    ensures Fate(s, e, Step(s, e).d, t)
  {
    LeftFinish(s, e.pos, e.pos2, t);
  }

  lemma {:induction false} RecheckFate(s: System, e: Event, t: nat)
    requires Named(s) && Enabled(s, e) && Left(s.d, t) && e.Recheck? && t != s.d.current
    ensures Fate(s, e, Step(s, e).d, t)
  {
    if s.th[s.d.current].pc.JoinWait? {
      LeftTryJoin(s, s.th[s.d.current].pc.t, e.pos, t);
    } else {
      LeftTryDie(s, e.pos, t);
    }
  }

  lemma {:induction false} LetDieFate(s: System, e: Event, t: nat)
    requires Named(s) && Enabled(s, e) && Left(s.d, t) && e.LetDie?
    requires var u := s.th[s.d.current].pc.t; Lists(s.d, s.d.queues[MayDie(u)], Waiting(MayDie(u)))
    ensures Fate(s, e, Step(s, e).d, t)
  {
    LeftWake(s.d, MayDie(s.th[s.d.current].pc.t), e.pos, t);
  }

  lemma {:induction false} JoinFate(s: System, e: Event, t: nat)
    requires Named(s) && Enabled(s, e) && Left(s.d, t) && e.Join? && t != s.d.current
    ensures Fate(s, e, Step(s, e).d, t)
  {
    LeftTryJoin(s.(th := s.th[e.t := s.th[e.t].(joiner := Some(s.d.current))]), e.t, e.pos, t);
  }

  lemma {:induction false} QuietFate(s: System, e: Event, t: nat)
    requires Named(s) && Enabled(s, e) && Left(s.d, t) && (e.New? || e.SetExit? || e.ReadExit?)
    ensures Fate(s, e, Step(s, e).d, t)
  {
    QuietStep(s, e);
  }

  /** The dispatcher hardly notices these. */
  lemma {:induction false} QuietStep(s: System, e: Event)
    requires Named(s) && Enabled(s, e) && (e.New? || e.SetExit? || e.ReadExit?)
    ensures e.New? ==> e.t !in s.d.place && Step(s, e).d == Create(s.d, e.t)
    ensures !e.New? ==> Step(s, e).d == s.d
  {
  }

  /** Once forgotten, a carcass stays for good. */
  lemma {:induction false} ForgottenForGood(s: System, e: Event, t: nat)
    requires Inv(s) && Enabled(s, e) && Forgotten(s.d, t)
    ensures Forgotten(Step(s, e).d, t)
  {
    assert Counts(s.th[s.d.current]);
    assert !s.d.sleeping ==> t != s.d.current;
    match e
    case Schedules(_) => ForgottenSchedule(s, e, t);
    case FinishNow(_, _) =>
      QueueListed(s.d, JoinSignal(s.d.current));
      ForgottenAtFinish(s, e, t);
    case Recheck(_) => ForgottenRecheck(s, e, t);
    case LetDie(_) =>
      QueueListed(s.d, MayDie(s.th[s.d.current].pc.t));
      ForgottenLetDie(s, e, t);
    case Join(_, _) => ForgottenJoin(s, e, t);
    case _ => ForgottenQuietly(s, e, t);
  }

  lemma {:induction false} ForgottenSchedule(s: System, e: Event, t: nat)
    requires PlaceInv(s.d) && Named(s) && Enabled(s, e) && Forgotten(s.d, t) && e.Schedules?
    ensures Forgotten(Step(s, e).d, t)
  {
    ForgottenScheduled(s, e.what, t);
  }

  lemma {:induction false} ForgottenAtFinish(s: System, e: Event, t: nat)
    requires Named(s) && Enabled(s, e) && Forgotten(s.d, t) && e.FinishNow? && t != s.d.current
    requires Lists(s.d, s.d.queues[JoinSignal(s.d.current)], Waiting(JoinSignal(s.d.current)))
    ensures Forgotten(Step(s, e).d, t)
  {
    ForgottenFinish(s, e.pos, e.pos2, t);
  }

  lemma {:induction false} ForgottenRecheck(s: System, e: Event, t: nat)
    requires Named(s) && Enabled(s, e) && Forgotten(s.d, t) && e.Recheck? && t != s.d.current
    ensures Forgotten(Step(s, e).d, t)
  {
    if s.th[s.d.current].pc.JoinWait? {
      ForgottenTryJoin(s, s.th[s.d.current].pc.t, e.pos, t);
    } else {
      ForgottenTryDie(s, e.pos, t);
    }
  }

  lemma {:induction false} ForgottenLetDie(s: System, e: Event, t: nat)
    requires Named(s) && Enabled(s, e) && Forgotten(s.d, t) && e.LetDie?
    requires var u := s.th[s.d.current].pc.t; Lists(s.d, s.d.queues[MayDie(u)], Waiting(MayDie(u)))
    ensures Forgotten(Step(s, e).d, t)
  {
    ForgottenWake(s.d, MayDie(s.th[s.d.current].pc.t), e.pos, t);
  }

  lemma {:induction false} ForgottenJoin(s: System, e: Event, t: nat)
    requires Named(s) && Enabled(s, e) && Forgotten(s.d, t) && e.Join? && t != s.d.current
    ensures Forgotten(Step(s, e).d, t)
  {
    ForgottenTryJoin(s.(th := s.th[e.t := s.th[e.t].(joiner := Some(s.d.current))]), e.t, e.pos, t);
  }

  lemma {:induction false} ForgottenQuietly(s: System, e: Event, t: nat)
    requires Named(s) && Enabled(s, e) && Forgotten(s.d, t) && (e.New? || e.SetExit? || e.ReadExit?)
    ensures Forgotten(Step(s, e).d, t)
  {
    QuietStep(s, e);
  }

  lemma {:induction false} ForgottenTryJoin(s: System, u: nat, pos: nat, t: nat)
    requires u in s.th && s.d.current in s.th && JoinSignal(u) in s.d.queues && Forgotten(s.d, t) && t != s.d.current
    ensures Forgotten(TryJoin(s, u, pos).d, t)
  {
  }

  lemma {:induction false} ForgottenWake(d: Dispatcher, w: WaitId, pos: nat, t: nat)
    requires w in d.queues && Lists(d, d.queues[w], Waiting(w)) && Forgotten(d, t)
    ensures Forgotten(Wake(d, w, pos), t)
  {
    if d.queues[w] != [] { assert d.queues[w][0] in d.queues[w]; }
  }

  lemma {:induction false} ForgottenScheduled(s: System, e: Scheduling, t: nat)
    requires PlaceInv(s.d) && CanSchedule(s, e) && Forgotten(s.d, t)
    ensures Forgotten(Scheduled(s, e), t)
  {
    if s.d.ready != [] { assert s.d.ready[0] in s.d.ready; }
    match e
    case WakeOther(n, pos) => ForgottenWake(s.d, Other(n), pos, t);
    case _ =>
  }

  lemma {:induction false} ForgottenTryDie(s: System, pos: nat, t: nat)
    requires s.d.current in s.th && MayDie(s.d.current) in s.d.queues && Forgotten(s.d, t) && t != s.d.current
    ensures Forgotten(TryDie(s, pos).d, t)
  {
  }

  lemma {:induction false} ForgottenFinish(s: System, pos: nat, pos2: nat, t: nat)
    requires s.d.current in s.th && JoinSignal(s.d.current) in s.d.queues && MayDie(s.d.current) in s.d.queues
    requires Lists(s.d, s.d.queues[JoinSignal(s.d.current)], Waiting(JoinSignal(s.d.current)))
    requires Forgotten(s.d, t) && t != s.d.current
    ensures Forgotten(Finish(s, pos, pos2).d, t)
  {
    if s.th[s.d.current].joinable {
      ForgottenWake(s.d, JoinSignal(s.d.current), pos, t);
      SignalledQueues(s, pos);
      ForgottenTryDie(Signalled(s, pos), pos2, t);
    }
  }

  /** s' can follow s by these events. */
  ghost predicate Follows(s: System, events: seq<Event>, s': System) {
    if events == [] then s' == s
    else
      var last := events[|events| - 1];
      exists s0 :: Follows(s, events[..|events| - 1], s0) && Next(s0, last, s')
  }

  /** However the run goes on. */
  lemma {:induction false} ForgottenForever(s: System, events: seq<Event>, s': System, t: nat)
    requires Inv(s) && Forgotten(s.d, t) && Follows(s, events, s')
    ensures Inv(s') && Forgotten(s'.d, t)
  {
    if events != [] {
      var last := events[|events| - 1];
      var s0 :| Follows(s, events[..|events| - 1], s0) && Next(s0, last, s');
      ForgottenForever(s, events[..|events| - 1], s0, t);
      NextInv(s0, last, s');
      ForgottenForGood(s0, last, t);
    }
  }

  /* ------------------------------ it does happen ------------------------------ */

  const C: Control := Control(Code, false, 0, None, 0, 1, None, None, false)
  const D: Control := C.(final := Some(0), pc := Dead)

  const Q0: map<WaitId, seq<nat>> := map[JoinSignal(0) := [], MayDie(0) := []]
  const Q1: map<WaitId, seq<nat>> := Q0[JoinSignal(1) := []][MayDie(1) := []]
  const Q2: map<WaitId, seq<nat>> := Q1[JoinSignal(2) := []][MayDie(2) := []]

  /** Main forks two threads and yields. The first runs and finishes; the second, which is new,
      runs and finishes too. */
  function Moment(k: nat): (s: System) {
    match k
    case 0 => System(Dispatcher(0, false, [], Q0, map[0 := OnCpu], {0}, None), map[0 := C])
    case 1 => System(Dispatcher(0, false, [], Q1, map[0 := OnCpu, 1 := JustCreated], {0}, None), map[0 := C, 1 := C])
    case 2 => System(Dispatcher(0, false, [1], Q1, map[0 := OnCpu, 1 := InReadyList], {0}, None), map[0 := C, 1 := C])
    case 3 =>
      System(Dispatcher(0, false, [1], Q2, map[0 := OnCpu, 1 := InReadyList, 2 := JustCreated], {0}, None),
             map[0 := C, 1 := C, 2 := C])
    case 4 =>
      System(Dispatcher(0, false, [1, 2], Q2, map[0 := OnCpu, 1 := InReadyList, 2 := InReadyList], {0}, None),
             map[0 := C, 1 := C, 2 := C])
    case 5 =>
      System(Dispatcher(1, false, [2, 0], Q2, map[0 := InReadyList, 1 := OnCpu, 2 := InReadyList], {0, 1}, None),
             map[0 := C, 1 := C, 2 := C])
    case 6 =>
      System(Dispatcher(1, true, [2, 0], Q2, map[0 := InReadyList, 1 := Finished, 2 := InReadyList], {0, 1}, Some(1)),
             map[0 := C, 1 := D, 2 := C])
    case 7 =>
      System(Dispatcher(2, false, [0], Q2, map[0 := InReadyList, 1 := Finished, 2 := OnCpu], {0, 1, 2}, Some(1)),
             map[0 := C, 1 := D, 2 := C])
    case _ =>
      System(Dispatcher(2, true, [0], Q2, map[0 := InReadyList, 1 := Finished, 2 := Finished], {0, 1, 2}, Some(2)),
             map[0 := C, 1 := D, 2 := D])
  }

  function Happens(k: nat): (e: Event) {
    match k
    case 0 => New(1, false)
    case 1 => Schedules(Fork(1, 0))
    case 2 => New(2, false)
    case 3 => Schedules(Fork(2, 1))
    case 4 => Schedules(YieldCpu(1))
    case 5 => FinishNow(0, 0)
    case 6 => Schedules(Dispatch)
    case _ => FinishNow(0, 0)
  }

  lemma {:induction false} Creations(k: nat)
    requires k == 0 || k == 2
    ensures Enabled(Moment(k), Happens(k)) && Created(Moment(k), if k == 0 then 1 else 2, false) == Moment(k + 1)
  {
  }

  lemma {:induction false} Forks(k: nat)
    requires k == 1 || k == 3
    ensures Enabled(Moment(k), Happens(k))
    ensures ReadyToRun(Moment(k).d, if k == 1 then 1 else 2, if k == 1 then 0 else 1) == Moment(k + 1).d
    ensures Moment(k + 1).th == Moment(k).th
  {
    assert Synch.Insert([], 0, 1) == [1] && Synch.Insert([1], 1, 2) == [1, 2];
  }

  lemma {:induction false} Yields()
    ensures Enabled(Moment(4), Happens(4)) && Yield(Moment(4).d, 1) == Moment(5).d && Moment(5).th == Moment(4).th
  {
    assert [1, 2][1..] == [2] && Synch.Insert([2], 1, 0) == [2, 0];
    assert [1] + [2, 0] == [1, 2, 0] && [1, 2, 0][1..] == [2, 0];
  }

  lemma {:induction false} Finishes(k: nat)
    requires k == 5 || k == 7
    ensures Enabled(Moment(k), Happens(k)) && Moment(k).d.current in Moment(k).th
    ensures !Moment(k).th[Moment(k).d.current].joinable
    ensures End(Moment(k).d) == Moment(k + 1).d && Moment(k + 1).th == Moment(k).th[Moment(k).d.current := D]
  {
  }

  lemma {:induction false} Dispatches()
    ensures Enabled(Moment(6), Happens(6)) && RunNext(Moment(6).d) == Moment(7).d && Moment(7).th == Moment(6).th
  {
    assert [2, 0][1..] == [0];
  }

  lemma {:induction false} OneMoment(k: nat)
    requires k < 8 && Named(Moment(k))
    ensures Enabled(Moment(k), Happens(k)) && Step(Moment(k), Happens(k)) == Moment(k + 1)
  {
    if k == 0 || k == 2 {
      Creations(k);
    } else if k == 1 || k == 3 {
      Forks(k);
    } else if k == 4 {
      Yields();
    } else if k == 6 {
      Dispatches();
    } else {
      Finishes(k);
    }
  }

  function Story(k: nat): (events: seq<Event>)
    ensures |events| == k
  {
    if k == 0 then [] else Story(k - 1) + [Happens(k - 1)]
  }

  lemma {:induction false} Extend(events: seq<Event>, s: System, e: Event, s': System)
    requires Reaches(events, s) && Inv(s) && Next(s, e, s')
    ensures Reaches(events + [e], s') && Inv(s')
  {
    NextInv(s, e, s');
    var more := events + [e];
    assert more[..|more| - 1] == events;
    var last := more[|more| - 1];
    assert last == e;
    assert Next(s, last, s');
  }

  ghost predicate ToldUpTo(k: nat) { Reaches(Story(k), Moment(k)) && Inv(Moment(k)) }

  lemma {:induction false} StoryBegins()
    ensures ToldUpTo(0)
  {
    assert Initial(Moment(0));
    InitialInv(Moment(0));
  }

  lemma {:induction false} StoryGoesOn(k: nat, s: System, s': System)
    requires k < 8 && Reaches(Story(k), s) && Inv(s) && s == Moment(k) && s' == Moment(k + 1)
    ensures Reaches(Story(k + 1), s') && Inv(s')
  {
    NextMoment(k);
    Extend(Story(k), s, Happens(k), s');
  }

  lemma {:induction false} StoryHappens(k: nat)
    requires k <= 8
    ensures ToldUpTo(k)
  {
    if k == 0 {
      StoryBegins();
    } else {
      StoryHappens(k - 1);
      StoryGoesOn(k - 1, Moment(k - 1), Moment(k));
    }
  }

  lemma {:induction false} NextMoment(k: nat)
    requires k < 8 && Inv(Moment(k))
    ensures Next(Moment(k), Happens(k), Moment(k + 1))
  {
    OneMoment(k);
  }

  /** There is a run after which a thread that has finished is never deleted. */
  lemma {:induction false} FirstIsForgotten()
    ensures Reaches(Story(8), Moment(8)) && Inv(Moment(8)) && Forgotten(Moment(8).d, 1)
  {
    StoryHappens(8);
    LastMoment();
  }

  lemma {:induction false} LastMoment()
    ensures Forgotten(Moment(8).d, 1)
  {
  }
}
