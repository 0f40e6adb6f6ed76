/** code/machine/interrupt.cc: simulated time and the queue of pending interrupts. */
module Interrupts {
  import opened Lists

  const UserTick := 1
  const SystemTick := 10

  datatype IntStatus = IntOff | IntOn
  datatype MachineStatus = IdleMode | SystemMode | UserMode
  datatype IntType = TimerInt | DiskInt | ConsoleWriteInt | ConsoleReadInt | NetworkSendInt | NetworkRecvInt

  datatype PendingInterrupt = PendingInterrupt(handler: int, arg: int, kind: IntType)
  type Pending = Entry<PendingInterrupt>

  /** Schedule insists on a delay greater than zero. */
  type Delay = d: int | d > 0 witness 1
  datatype Request = Request(what: PendingInterrupt, fromNow: Delay)

  /** What a handler does to this component: it may schedule interrupts and ask for a yield. The
      number of firings so far is an argument, so that a handler may behave differently each time. */
  datatype Effects = Effects(requests: seq<Request>, wantsYield: bool)
  type Handlers = (nat, PendingInterrupt) -> Effects

  function Respond(h: Handlers, calls: nat, p: PendingInterrupt): (fx: Effects) { h(calls, p) }

  /** One handler call: the entry, and the time it happened. */
  datatype Firing = Firing(entry: Pending, at: int)

  datatype Clock = Clock(
    pending: seq<Pending>, level: IntStatus, status: MachineStatus, yieldOnReturn: bool,
    totalTicks: int, idleTicks: int, systemTicks: int, userTicks: int,
    log: seq<Firing>, scheduled: multiset<Pending>)

  /* ------------------------------ the operations, on values ------------------------------ */

  /** A request made now, as an entry of the queue. */
  function Timely(r: Request, now: int): (e: Pending)
    ensures e.key > now
  {
    Entry(r.what, now + r.fromNow)
  }

  function Scheduled(c: Clock, r: Request): (c': Clock) {
    var e := Timely(r, c.totalTicks);
    c.(pending := InsertSorted(c.pending, e), scheduled := c.scheduled + multiset{e})
  }

  /** The queue after several requests, and the entries they made. */
  function InsertAll(s: seq<Pending>, rs: seq<Request>, now: int): (s': seq<Pending>) {
    if rs == [] then s else InsertSorted(InsertAll(s, rs[..|rs| - 1], now), Timely(rs[|rs| - 1], now))
  }

  function EntriesMade(rs: seq<Request>, now: int): (m: multiset<Pending>) {
    if rs == [] then multiset{} else EntriesMade(rs[..|rs| - 1], now) + multiset{Timely(rs[|rs| - 1], now)}
  }

  function ScheduledAll(c: Clock, rs: seq<Request>): (c': Clock) {
    c.(pending := InsertAll(c.pending, rs, c.totalTicks), scheduled := c.scheduled + EntriesMade(rs, c.totalTicks))
  }

  /** A handler call is noted. */
  function Called(c: Clock, e: Pending, wantsYield: bool): (c': Clock) {
    c.(log := c.log + [Firing(e, c.totalTicks)], yieldOnReturn := c.yieldOnReturn || wantsYield)
  }

  function HandlerDone(c: Clock, e: Pending, fx: Effects): (c': Clock) {
    ScheduledAll(Called(c, e, fx.wantsYield), fx.requests)
  }

  /** The handler of an entry just taken off the queue runs, in system mode. */
  function Fired(c: Clock, e: Pending, h: Handlers): (c': Clock) {
    HandlerDone(c.(status := SystemMode), e, Respond(h, |c.log|, e.item)).(status := c.status)
  }

  /** The clock jumps ahead to the time of the next interrupt. */
  function Advanced(c: Clock, when: int): (c': Clock) {
    if when > c.totalTicks then c.(idleTicks := c.idleTicks + (when - c.totalTicks), totalTicks := when) else c
  }

  /** Is e, just taken off the queue of c, fired or put back? */
  predicate HeadFires(c: Clock, e: Pending, advanceClock: bool) {
    && (advanceClock || e.key <= c.totalTicks)
    && !(c.status == IdleMode && e.item.kind == TimerInt && c.pending == [])
  }

  function Settled(c: Clock, e: Pending, advanceClock: bool, h: Handlers): (c': Clock) {
    var c1 := if advanceClock then Advanced(c, e.key) else c;
    if HeadFires(c, e, advanceClock) then Fired(c1, e, h) else c1.(pending := InsertSorted(c.pending, e))
  }

  /** Does CheckIfDue fire the head of the queue? */
  predicate Fires(c: Clock, advanceClock: bool) {
    c.pending != [] && HeadFires(c.(pending := c.pending[1..]), c.pending[0], advanceClock)
  }

  function Checked(c: Clock, advanceClock: bool, h: Handlers): (c': Clock) {
    if c.pending == [] then c else Settled(c.(pending := c.pending[1..]), c.pending[0], advanceClock, h)
  }

  /** The number of entries that are due. */
  function Due(s: seq<Pending>, now: int): (n: nat) {
    if s == [] then 0 else (if s[0].key <= now then 1 else 0) + Due(s[1..], now)
  }

  /** `while (CheckIfDue(FALSE))`: a handler schedules only into the future, so each round leaves
      one entry less that is due. */
  function Drained(c: Clock, h: Handlers): (c': Clock)
    ensures c'.totalTicks == c.totalTicks && c'.status == c.status && c'.level == c.level
    ensures c'.idleTicks == c.idleTicks && c'.systemTicks == c.systemTicks && c'.userTicks == c.userTicks
    decreases Due(c.pending, c.totalTicks)
  {
    CheckedKeeps(c, false, h);
    if Fires(c, false) then
      CheckedLessDue(c, h);
      Drained(Checked(c, false, h), h)
    else Checked(c, false, h)
  }

  /** Time passes: the cost of enabling interrupts, or of a user instruction. */
  function Timed(c: Clock): (c': Clock) {
    if c.status == SystemMode
    then c.(totalTicks := c.totalTicks + SystemTick, systemTicks := c.systemTicks + SystemTick)
    else c.(totalTicks := c.totalTicks + UserTick, userTicks := c.userTicks + UserTick)
  }

  function Ticked(c: Clock, h: Handlers): (c': Clock) {
    Drained(Timed(c).(level := IntOff), h).(level := IntOn, yieldOnReturn := false)
  }

  /** Idle halts the machine when CheckIfDue finds nothing to call. */
  predicate Halts(c: Clock) { !Fires(c.(status := IdleMode), true) }

  function Idled(c: Clock, h: Handlers): (c': Clock) {
    var c1 := Checked(c.(status := IdleMode), true, h);
    if Halts(c) then c1 else Drained(c1, h).(yieldOnReturn := false, status := SystemMode)
  }

  /** SetLevel: time passes when interrupts are turned on. */
  function Levelled(c: Clock, now: IntStatus, h: Handlers): (c': Clock) {
    if now == IntOn && c.level == IntOff then Ticked(c.(level := now), h) else c.(level := now)
  }

  /* ------------------------------ termination of the loop ------------------------------ */

  lemma {:induction false} DueInsert(s: seq<Pending>, e: Pending, now: int)
    ensures Due(InsertSorted(s, e), now) == Due(s, now) + if e.key <= now then 1 else 0
  {
    var r := InsertSorted(s, e);
    if s == [] || e.key < s[0].key {
      assert r == [e] + s;
    } else {
      DueInsert(s[1..], e, now);
      assert r == [s[0]] + InsertSorted(s[1..], e);
    }
  }

  /** A handler does not change the number of due entries. */
  lemma {:induction false} InsertAllDue(s: seq<Pending>, rs: seq<Request>, now: int)
    ensures Due(InsertAll(s, rs, now), now) == Due(s, now)
  {
    if rs != [] {
      InsertAllDue(s, rs[..|rs| - 1], now);
      DueInsert(InsertAll(s, rs[..|rs| - 1], now), Timely(rs[|rs| - 1], now), now);
    }
  }

  lemma {:induction false} CheckedKeeps(c: Clock, advanceClock: bool, h: Handlers)
    ensures var c' := Checked(c, advanceClock, h);
      && c'.status == c.status && c'.level == c.level
      && c'.systemTicks == c.systemTicks && c'.userTicks == c.userTicks
      && c'.totalTicks - c'.idleTicks == c.totalTicks - c.idleTicks && c'.totalTicks >= c.totalTicks
      && (!advanceClock ==> c'.totalTicks == c.totalTicks)
  {
    if Fires(c, advanceClock) {
      var e, rest := c.pending[0], c.pending[1..];
      var c1 := (if advanceClock then Advanced(c, e.key) else c).(pending := rest);
      FiredKeeps(c1, e, h);
    }
  }

  lemma {:induction false} FiredKeeps(c: Clock, e: Pending, h: Handlers)
    ensures var c' := Fired(c, e, h);
      && Due(c'.pending, c.totalTicks) == Due(c.pending, c.totalTicks)
      && c' == c.(pending := c'.pending, scheduled := c'.scheduled, yieldOnReturn := c'.yieldOnReturn,
                  log := c.log + [Firing(e, c.totalTicks)])
  {
    InsertAllDue(c.pending, Respond(h, |c.log|, e.item).requests, c.totalTicks);
  }

  lemma {:induction false} CheckedLessDue(c: Clock, h: Handlers)
    requires Fires(c, false)
    ensures Due(Checked(c, false, h).pending, c.totalTicks) == Due(c.pending, c.totalTicks) - 1
  {
    FiredKeeps(c.(pending := c.pending[1..]), c.pending[0], h);
  }

  lemma {:induction false} DrainedStep(c: Clock, h: Handlers)
    ensures Drained(c, h) == if Fires(c, false) then Drained(Checked(c, false, h), h) else Checked(c, false, h)
    ensures Fires(c, false) ==>
      Due(Checked(c, false, h).pending, Checked(c, false, h).totalTicks) < Due(c.pending, c.totalTicks)
    ensures Checked(c, false, h).level == c.level
  {
    CheckedKeeps(c, false, h);
    if Fires(c, false) {
      CheckedLessDue(c, h);
    }
  }

  /* ------------------------------ what every operation keeps ------------------------------ */

  ghost function Entries(log: seq<Firing>): (s: seq<Pending>)
    ensures |s| == |log| && forall i :: 0 <= i < |s| ==> s[i] == log[i].entry
  {
    seq(|log|, i requires 0 <= i < |log| => log[i].entry)
  }

  /** Handlers were called in non-decreasing due time and none before its time. */
  ghost predicate InOrder(log: seq<Firing>, now: int) {
    && (forall i, j :: 0 <= i < j < |log| ==> log[i].entry.key <= log[j].entry.key)
    && (forall i, j :: 0 <= i < j < |log| ==> log[i].at <= log[j].at)
    && (forall i :: 0 <= i < |log| ==> log[i].entry.key <= log[i].at <= now)
  }

  /** No entry still waiting is due before one that fired. */
  ghost predicate NoneOvertaken(log: seq<Firing>, pending: seq<Pending>) {
    forall i, j :: 0 <= i < |log| && 0 <= j < |pending| ==> log[i].entry.key <= pending[j].key
  }

  /** The queue is sorted, nothing in it was overtaken, and every interrupt ever scheduled is
      either in it or was called, once. */
  ghost predicate QueueInv(pending: seq<Pending>, log: seq<Firing>, now: int, scheduled: multiset<Pending>) {
    && Sorted(pending) && InOrder(log, now) && NoneOvertaken(log, pending)
    && scheduled == multiset(Entries(log)) + multiset(pending)
  }

  ghost predicate Inv(c: Clock) {
    && c.totalTicks == c.idleTicks + c.systemTicks + c.userTicks
    && QueueInv(c.pending, c.log, c.totalTicks, c.scheduled)
  }

  lemma {:induction false} QueueInsert(pending: seq<Pending>, log: seq<Firing>, now: int,
                                       scheduled: multiset<Pending>, e: Pending)
    requires QueueInv(pending, log, now, scheduled) && e.key > now
    ensures QueueInv(InsertSorted(pending, e), log, now, scheduled + multiset{e})
  {
    InsertSortedOrder(pending, e);
    InsertSortedEntries(pending, e);
    InsertNotOvertaken(log, pending, e);
  }

  lemma {:induction false} InsertNotOvertaken(log: seq<Firing>, pending: seq<Pending>, e: Pending)
    requires NoneOvertaken(log, pending) && forall i :: 0 <= i < |log| ==> log[i].entry.key <= e.key
    ensures NoneOvertaken(log, InsertSorted(pending, e))
  {
    var r, p := InsertSorted(pending, e), Position(pending, e.key);
    forall i, j | 0 <= i < |log| && 0 <= j < |r| ensures log[i].entry.key <= r[j].key {
      assert r[j] == if j < p then pending[j] else if j == p then e else pending[j - 1];
    }
  }

  /** The head of the queue moves to the log. */
  lemma {:induction false} QueueTake(pending: seq<Pending>, log: seq<Firing>, now: int, scheduled: multiset<Pending>)
    requires QueueInv(pending, log, now, scheduled) && pending != [] && pending[0].key <= now
    ensures QueueInv(pending[1..], log + [Firing(pending[0], now)], now, scheduled)
  {
    TakeOrder(pending, log, now);
    TakeEntries(pending, log, now);
  }

  lemma {:induction false} TakeOrder(pending: seq<Pending>, log: seq<Firing>, now: int)
    requires Sorted(pending) && InOrder(log, now) && NoneOvertaken(log, pending)
    requires pending != [] && pending[0].key <= now
    ensures Sorted(pending[1..]) && InOrder(log + [Firing(pending[0], now)], now)
    ensures NoneOvertaken(log + [Firing(pending[0], now)], pending[1..])
  {
  }

  lemma {:induction false} TakeEntries(pending: seq<Pending>, log: seq<Firing>, now: int)
    requires pending != []
    ensures multiset(Entries(log + [Firing(pending[0], now)])) + multiset(pending[1..])
         == multiset(Entries(log)) + multiset(pending)
  {
    var e := pending[0];
    assert Entries(log + [Firing(e, now)]) == Entries(log) + [e];
    assert pending == [e] + pending[1..];
  }

  /** The head of the queue is put back, behind the entries with the same due time. */
  lemma {:induction false} QueuePutBack(pending: seq<Pending>, log: seq<Firing>, now: int, scheduled: multiset<Pending>)
    requires QueueInv(pending, log, now, scheduled) && pending != []
    ensures QueueInv(InsertSorted(pending[1..], pending[0]), log, now, scheduled)
  {
    var e, rest := pending[0], pending[1..];
    assert Sorted(rest);
    InsertSortedOrder(rest, e);
    assert NoneOvertaken(log, rest);
    InsertNotOvertaken(log, rest, e);
    PutBackEntries(pending);
  }

  lemma {:induction false} PutBackEntries(pending: seq<Pending>)
    requires pending != []
    ensures multiset(InsertSorted(pending[1..], pending[0])) == multiset(pending)
  {
    assert pending == [pending[0]] + pending[1..];
    InsertSortedEntries(pending[1..], pending[0]);
  }

  lemma {:induction false} ScheduledInv(c: Clock, r: Request)
    requires Inv(c)
    ensures Inv(Scheduled(c, r))
  {
    QueueInsert(c.pending, c.log, c.totalTicks, c.scheduled, Timely(r, c.totalTicks));
  }

  lemma {:induction false} QueueInsertAll(
    pending: seq<Pending>, log: seq<Firing>, now: int, scheduled: multiset<Pending>, rs: seq<Request>)
    requires QueueInv(pending, log, now, scheduled)
    ensures QueueInv(InsertAll(pending, rs, now), log, now, scheduled + EntriesMade(rs, now))
  {
    if rs != [] {
      var before, r := rs[..|rs| - 1], rs[|rs| - 1];
      QueueInsertAll(pending, log, now, scheduled, before);
      QueueInsert(InsertAll(pending, before, now), log, now, scheduled + EntriesMade(before, now), Timely(r, now));
      assert scheduled + EntriesMade(rs, now) == scheduled + EntriesMade(before, now) + multiset{Timely(r, now)};
    } else {
      assert scheduled + EntriesMade(rs, now) == scheduled;
    }
  }

  lemma {:induction false} FiredInv(c: Clock, h: Handlers)
    requires Inv(c) && c.pending != [] && c.pending[0].key <= c.totalTicks
    ensures Inv(Fired(c.(pending := c.pending[1..]), c.pending[0], h))
  {
    QueueTake(c.pending, c.log, c.totalTicks, c.scheduled);
    QueueInsertAll(c.pending[1..], c.log + [Firing(c.pending[0], c.totalTicks)], c.totalTicks, c.scheduled,
                   Respond(h, |c.log|, c.pending[0].item).requests);
  }

  lemma {:induction false} AdvancedInv(c: Clock, when: int)
    requires Inv(c)
    ensures Inv(Advanced(c, when))
  {
  }

  lemma {:induction false} CheckedInv(c: Clock, advanceClock: bool, h: Handlers)
    requires Inv(c)
    ensures Inv(Checked(c, advanceClock, h))
  {
    if c.pending != [] {
      var c1 := if advanceClock then Advanced(c, c.pending[0].key) else c;
      AdvancedInv(c, c.pending[0].key);
      CheckedCases(c, advanceClock, h);
      if Fires(c, advanceClock) {
        FiredInv(c1, h);
      } else {
        PutBackInv(c1);
      }
    }
  }

  lemma {:induction false} PutBackInv(c: Clock)
    requires Inv(c) && c.pending != []
    ensures Inv(c.(pending := InsertSorted(c.pending[1..], c.pending[0])))
  {
    QueuePutBack(c.pending, c.log, c.totalTicks, c.scheduled);
  }

  lemma {:induction false} CheckedCases(c: Clock, advanceClock: bool, h: Handlers)
    requires c.pending != []
    ensures var c1 := if advanceClock then Advanced(c, c.pending[0].key) else c;
      Checked(c, advanceClock, h)
      == if Fires(c, advanceClock) then Fired(c1.(pending := c1.pending[1..]), c.pending[0], h)
         else c1.(pending := InsertSorted(c1.pending[1..], c1.pending[0]))
  {
  }

  lemma {:induction false} DrainedInv(c: Clock, h: Handlers)
    requires Inv(c)
    ensures Inv(Drained(c, h))
    decreases Due(c.pending, c.totalTicks)
  {
    CheckedInv(c, false, h);
    if Fires(c, false) {
      CheckedKeeps(c, false, h);
      CheckedLessDue(c, h);
      DrainedInv(Checked(c, false, h), h);
    }
  }

  lemma {:induction false} TimedInv(c: Clock)
    requires Inv(c)
    ensures Inv(Timed(c))
  {
  }

  lemma {:induction false} TickedInv(c: Clock, h: Handlers)
    requires Inv(c)
    ensures Inv(Ticked(c, h))
  {
    TimedInv(c);
    DrainedInv(Timed(c).(level := IntOff), h);
  }

  lemma {:induction false} IdledInv(c: Clock, h: Handlers)
    requires Inv(c)
    ensures Inv(Idled(c, h))
  {
    var c0 := c.(status := IdleMode);
    CheckedInv(c0, true, h);
    DrainedInv(Checked(c0, true, h), h);
  }

  /* ------------------------------ what one tick does ------------------------------ */

  /** In a sorted queue the due entries are a prefix. */
  lemma {:induction false} DuePrefix(s: seq<Pending>, now: int)
    requires Sorted(s)
    ensures Due(s, now) <= |s|
    ensures forall i :: 0 <= i < |s| ==> (s[i].key <= now <==> i < Due(s, now))
  {
    if s != [] {
      DuePrefix(s[1..], now);
      forall i | 0 <= i < |s| ensures s[i].key <= now <==> i < Due(s, now) {
        if i > 0 {
          assert s[i] == s[1..][i - 1] && s[0].key <= s[i].key;
        } else if s[0].key > now && |s| > 1 {
          assert s[1..][0].key > now;
        }
      }
    }
  }

  /** Two queues with the same due entries in front. */
  ghost predicate SameDue(s: seq<Pending>, s': seq<Pending>, now: int) {
    var n := Due(s, now);
    Due(s', now) == n && n <= |s| && n <= |s'| && s'[..n] == s[..n]
  }

  /** New entries go behind everything that is due. */
  lemma {:induction false} InsertBehindDue(s: seq<Pending>, e: Pending, now: int)
    requires Sorted(s) && e.key > now
    ensures SameDue(s, InsertSorted(s, e), now) && Sorted(InsertSorted(s, e))
  {
    InsertSortedOrder(s, e);
    DueInsert(s, e, now);
    DuePrefix(s, now);
    var p := Position(s, e.key);
    assert p < |s| ==> s[p].key > now;
    assert forall i :: 0 <= i < p ==> InsertSorted(s, e)[i] == s[i];
  }

  lemma {:induction false} InsertAllBehindDue(s: seq<Pending>, rs: seq<Request>, now: int)
    requires Sorted(s)
    ensures SameDue(s, InsertAll(s, rs, now), now) && Sorted(InsertAll(s, rs, now))
  {
    if rs == [] {
      DuePrefix(s, now);
    } else {
      var before, r := InsertAll(s, rs[..|rs| - 1], now), rs[|rs| - 1];
      InsertAllBehindDue(s, rs[..|rs| - 1], now);
      InsertBehindDue(before, Timely(r, now), now);
      SameDueTrans(s, before, InsertAll(s, rs, now), now);
    }
  }

  lemma {:induction false} SameDueTrans(s: seq<Pending>, t: seq<Pending>, u: seq<Pending>, now: int)
    requires SameDue(s, t, now) && SameDue(t, u, now)
    ensures SameDue(s, u, now)
  {
  }

  ghost function FiringsAt(s: seq<Pending>, now: int): (log: seq<Firing>)
    ensures |log| == |s| && forall i :: 0 <= i < |s| ==> log[i] == Firing(s[i], now)
  {
    seq(|s|, i requires 0 <= i < |s| => Firing(s[i], now))
  }

  /** c' is c after exactly the handlers of its due entries were called, once each and in queue
      order; nothing stays due. */
  ghost predicate FiredTheDue(c: Clock, c': Clock) {
    var n := Due(c.pending, c.totalTicks);
    && n <= |c.pending|
    && c'.log == c.log + FiringsAt(c.pending[..n], c.totalTicks)
    && Due(c'.pending, c.totalTicks) == 0
  }

  /** That is what the loop does outside idle mode. */
  lemma {:induction false} DrainFiresTheDue(c: Clock, h: Handlers)
    requires Sorted(c.pending) && c.status != IdleMode
    ensures FiredTheDue(c, Drained(c, h))
    decreases Due(c.pending, c.totalTicks)
  {
    DrainedStep(c, h);
    if Fires(c, false) {
      FiresOne(c, h);
      DrainFiresTheDue(Checked(c, false, h), h);
      FirstOfTheDue(c, Checked(c, false, h), Drained(c, h));
    } else {
      NoneOfTheDue(c, h);
    }
  }

  lemma {:induction false} NoneOfTheDue(c: Clock, h: Handlers)
    requires Sorted(c.pending) && c.status != IdleMode && !Fires(c, false)
    ensures FiredTheDue(c, Checked(c, false, h))
  {
    DuePrefix(c.pending, c.totalTicks);
    if c.pending != [] {
      DueInsert(c.pending[1..], c.pending[0], c.totalTicks);
    }
    assert FiringsAt(c.pending[..0], c.totalTicks) == [];
  }

  lemma {:induction false} FirstOfTheDue(c: Clock, c1: Clock, c': Clock)
    requires c.pending != [] && c.pending[0].key <= c.totalTicks == c1.totalTicks
    requires SameDue(c.pending[1..], c1.pending, c.totalTicks) && FiredTheDue(c1, c')
    requires c1.log == c.log + [Firing(c.pending[0], c.totalTicks)]
    ensures FiredTheDue(c, c')
  {
    FirstFiring(c.pending, c1.pending, c.totalTicks);
  }

  /** A round of the loop that calls a handler. */
  lemma {:induction false} FiresOne(c: Clock, h: Handlers)
    requires Sorted(c.pending) && Fires(c, false)
    ensures var c', now := Checked(c, false, h), c.totalTicks;
      && c'.totalTicks == now && c'.status == c.status && c'.log == c.log + [Firing(c.pending[0], now)]
      && Sorted(c'.pending) && SameDue(c.pending[1..], c'.pending, now)
      && Due(c'.pending, now) == Due(c.pending, now) - 1
  {
    CheckedLessDue(c, h);
    FiredKeeps(c.(pending := c.pending[1..]), c.pending[0], h);
    FiredBehindDue(c.(pending := c.pending[1..]), c.pending[0], h);
  }

  /** The head fires first, then the rest of the due entries. */
  lemma {:induction false} FirstFiring(s: seq<Pending>, s': seq<Pending>, now: int)
    requires s != [] && s[0].key <= now && SameDue(s[1..], s', now)
    ensures Due(s, now) == 1 + Due(s', now) && Due(s, now) <= |s|
    ensures FiringsAt(s[..Due(s, now)], now) == [Firing(s[0], now)] + FiringsAt(s'[..Due(s', now)], now)
  {
    var n := Due(s', now);
    assert s[..n + 1] == [s[0]] + s'[..n];
  }

  lemma {:induction false} FiredBehindDue(c: Clock, e: Pending, h: Handlers)
    requires Sorted(c.pending)
    ensures SameDue(c.pending, Fired(c, e, h).pending, c.totalTicks) && Sorted(Fired(c, e, h).pending)
  {
    InsertAllBehindDue(c.pending, Respond(h, |c.log|, e.item).requests, c.totalTicks);
  }

  /** What the loop leaves: something is still due exactly when the machine is idle and the one
      entry left is the time-slice timer, due by now. */
  lemma {:induction false} DrainStops(c: Clock, h: Handlers)
    requires Sorted(c.pending)
    ensures Due(Drained(c, h).pending, c.totalTicks) != 0 <==> OnlyTimerDue(Drained(c, h))
    decreases Due(c.pending, c.totalTicks)
  {
    DrainedStep(c, h);
    CheckedKeeps(c, false, h);
    if Fires(c, false) {
      FiredBehindDue(c.(pending := c.pending[1..]), c.pending[0], h);
      DrainStops(Checked(c, false, h), h);
    } else if c.pending != [] {
      PutBackDue(c.pending, c.totalTicks);
    }
  }

  predicate OnlyTimerDue(c: Clock) {
    && c.status == IdleMode && |c.pending| == 1
    && c.pending[0].item.kind == TimerInt && c.pending[0].key <= c.totalTicks
  }

  lemma {:induction false} PutBackDue(s: seq<Pending>, now: int)
    requires s != [] && Sorted(s)
    ensures Due(InsertSorted(s[1..], s[0]), now) == Due(s, now)
    ensures Due(s, now) == 0 <==> s[0].key > now
    ensures |s| == 1 ==> InsertSorted(s[1..], s[0]) == s
  {
    DuePrefix(s, now);
    DueInsert(s[1..], s[0], now);
  }

  /** So it is for Idle: unless it halts, it returns with something due exactly when that is the
      timer alone. */
  lemma {:induction false} IdleStops(c: Clock, h: Handlers)
    requires Inv(c) && !Halts(c)
    ensures var c' := Idled(c, h);
      Due(c'.pending, c'.totalTicks) != 0
      <==> |c'.pending| == 1 && c'.pending[0].item.kind == TimerInt && c'.pending[0].key <= c'.totalTicks
  {
    var c0 := c.(status := IdleMode);
    CheckedInv(c0, true, h);
    CheckedKeeps(c0, true, h);
    DrainStops(Checked(c0, true, h), h);
  }

  /** Idle does return with the timer due: a disk interrupt and the timer both come at time 5, and
      the disk's handler schedules nothing. */
  lemma {:induction false} IdleLeavesTheTimer()
    ensures var disk, timer := Entry(PendingInterrupt(1, 0, DiskInt), 5), Entry(PendingInterrupt(2, 0, TimerInt), 5);
      var c := Clock([disk, timer], IntOff, SystemMode, false, 0, 0, 0, 0, [], multiset{disk, timer});
      var c' := Idled(c, (n, p) => Effects([], false));
      Inv(c) && !Halts(c) && c'.log == [Firing(disk, 5)] && c'.pending == [timer] && c'.totalTicks == 5
  {
    var disk, timer := Entry(PendingInterrupt(1, 0, DiskInt), 5), Entry(PendingInterrupt(2, 0, TimerInt), 5);
    var c := Clock([disk, timer], IntOff, SystemMode, false, 0, 0, 0, 0, [], multiset{disk, timer});
    var h: Handlers := (n, p) => Effects([], false);
    var c0 := c.(status := IdleMode);
    var c1 := Checked(c0, true, h);
    assert c0.pending[1..] == [timer];
    assert c1.pending == [timer] && c1.log == [Firing(disk, 5)] && c1.totalTicks == 5;
    assert !Fires(c1, false);
    PutBackDue([timer], 5);
    assert Entries([]) == [];
  }

  /* ------------------------------ whole runs ------------------------------ */

  datatype Event = Tick | Idle | Ask(r: Request) | SetLevel(now: IntStatus) | SetStatus(s: MachineStatus)

  /** Aborted: the level was on when Idle looked for interrupts, which CheckIfDue asserts against. */
  datatype Machine = Running(clock: Clock) | Halted(clock: Clock) | Aborted(clock: Clock)

  function Step(m: Machine, e: Event, h: Handlers): (m': Machine) {
    if !m.Running? then m
    else match e
      case Tick => Running(Ticked(m.clock, h))
      case Idle =>
        if m.clock.level == IntOn then Aborted(m.clock)
        else if Halts(m.clock) then Halted(Idled(m.clock, h)) else Running(Idled(m.clock, h))
      case Ask(r) => Running(Scheduled(m.clock, r))
      case SetLevel(now) => Running(Levelled(m.clock, now, h))
      case SetStatus(s) => Running(m.clock.(status := s))
  }

  const Start := Running(Clock([], IntOff, SystemMode, false, 0, 0, 0, 0, [], multiset{}))

  function Run(events: seq<Event>, h: Handlers): (m: Machine) {
    if events == [] then Start else Step(Run(events[..|events| - 1], h), events[|events| - 1], h)
  }

  lemma {:induction false} LevelledInv(c: Clock, now: IntStatus, h: Handlers)
    requires Inv(c)
    ensures Inv(Levelled(c, now, h))
  {
    TickedInv(c.(level := now), h);
  }

  lemma {:induction false} StepInv(m: Machine, e: Event, h: Handlers)
    requires Inv(m.clock)
    ensures Inv(Step(m, e, h).clock)
  {
    match e
    case Tick => TickedInv(m.clock, h);
    case Idle => IdledInv(m.clock, h);
    case Ask(r) => ScheduledInv(m.clock, r);
    case SetLevel(now) => LevelledInv(m.clock, now, h);
    case SetStatus(s) =>
  }

  /** In every run, whatever the handlers schedule: handlers are called in non-decreasing due
      time and never early, every scheduled interrupt is either still pending or was called
      exactly once, and total time is the sum of idle, system and user time. */
  lemma {:induction false} RunInv(events: seq<Event>, h: Handlers)
    ensures Inv(Run(events, h).clock)
  {
    if events == [] {
      assert Entries([]) == [];
    } else {
      RunInv(events[..|events| - 1], h);
      StepInv(Run(events[..|events| - 1], h), events[|events| - 1], h);
    }
  }

  /** What one OneTick means, outside idle mode: time moves on by the mode's tick, exactly the
      interrupts due by then are called, and none stays due. */
  lemma {:induction false} TickFiresTheDue(c: Clock, h: Handlers)
    requires Inv(c) && c.status != IdleMode
    ensures Ticked(c, h).totalTicks == c.totalTicks + if c.status == SystemMode then SystemTick else UserTick
    ensures FiredTheDue(Timed(c), Ticked(c, h))
  {
    var c1 := Timed(c).(level := IntOff);
    DrainFiresTheDue(c1, h);
    assert FiredTheDue(c1, Drained(c1, h));
  }

  /** Idle halts the machine exactly when nothing but the time-slice timer can ever happen;
      otherwise the clock jumps to the earliest due time, if that lies ahead, and that interrupt
      is the first one called. */
  lemma {:induction false} IdleJumpsToTheEarliest(c: Clock, h: Handlers)
    requires Inv(c)
    ensures Halts(c) <==> c.pending == [] || (|c.pending| == 1 && c.pending[0].item.kind == TimerInt)
    ensures !Halts(c) ==>
      var c', first := Idled(c, h), c.pending[0];
      && (forall i :: 0 <= i < |c.pending| ==> first.key <= c.pending[i].key)
      && c'.totalTicks == (if first.key > c.totalTicks then first.key else c.totalTicks)
      && |c'.log| > |c.log| && c'.log[..|c.log| + 1] == c.log + [Firing(first, c'.totalTicks)]
  {
    var c0 := c.(status := IdleMode);
    if Fires(c0, true) {
      IdleFirst(c0, h);
      DrainedExtends(Checked(c0, true, h), h);
    }
  }

  lemma {:induction false} IdleFirst(c: Clock, h: Handlers)
    requires Fires(c, true)
    ensures var c', first := Checked(c, true, h), c.pending[0];
      && c'.totalTicks == (if first.key > c.totalTicks then first.key else c.totalTicks)
      && c'.log == c.log + [Firing(first, c'.totalTicks)]
  {
    FiredKeeps(Advanced(c, c.pending[0].key).(pending := c.pending[1..]), c.pending[0], h);
  }

  lemma {:induction false} DrainedExtends(c: Clock, h: Handlers)
    ensures |Drained(c, h).log| >= |c.log| && Drained(c, h).log[..|c.log|] == c.log
    decreases Due(c.pending, c.totalTicks)
  {
    DrainedStep(c, h);
    CheckedExtends(c, h);
    if Fires(c, false) {
      var l, l1, l' := c.log, Checked(c, false, h).log, Drained(c, h).log;
      DrainedExtends(Checked(c, false, h), h);
      assert l'[..|l|] == l'[..|l1|][..|l|];
    }
  }

  lemma {:induction false} CheckedExtends(c: Clock, h: Handlers)
    ensures Checked(c, false, h).log == if Fires(c, false) then c.log + [Firing(c.pending[0], c.totalTicks)] else c.log
  {
    if Fires(c, false) {
      FiredKeeps(c.(pending := c.pending[1..]), c.pending[0], h);
    }
  }

  /* ------------------------------ what handlers ask for ------------------------------ */

  /** Some call from number n on asked for a yield. */
  ghost predicate Wanted(log: seq<Firing>, n: nat, h: Handlers) {
    exists k: nat :: n <= k < |log| && h(k, log[k].entry.item).wantsYield
  }

  /** The entries that requests made at time `now` are for. */
  ghost function Entered(rs: seq<Request>, now: int): (m: multiset<Pending>) {
    multiset(seq(|rs|, j requires 0 <= j < |rs| => Entry(rs[j].what, now + rs[j].fromNow)))
  }

  /** Everything that the calls from number n on have scheduled. */
  ghost function Requested(log: seq<Firing>, n: nat, h: Handlers): (m: multiset<Pending>) {
    if |log| <= n then multiset{}
    else
      var k := |log| - 1;
      Requested(log[..k], n, h) + Entered(h(k, log[k].entry.item).requests, log[k].at)
  }

  /** From c to c' the handlers of the new calls got what they asked for: a yield is due if it was
      before or one of them wished it, and their interrupts, and no others, were scheduled. */
  ghost predicate Granted(c: Clock, c': Clock, h: Handlers) {
    && |c'.log| >= |c.log| && c'.log[..|c.log|] == c.log
    && (c'.yieldOnReturn <==> c.yieldOnReturn || Wanted(c'.log, |c.log|, h))
    && c'.scheduled == c.scheduled + Requested(c'.log, |c.log|, h)
  }

  lemma {:induction false} EnteredIsMade(rs: seq<Request>, now: int)
    ensures EntriesMade(rs, now) == Entered(rs, now)
  {
    if rs != [] {
      var n := |rs| - 1;
      EnteredIsMade(rs[..n], now);
      var all := seq(|rs|, j requires 0 <= j < |rs| => Entry(rs[j].what, now + rs[j].fromNow));
      assert all == seq(n, j requires 0 <= j < n => Entry(rs[..n][j].what, now + rs[..n][j].fromNow))
                    + [Timely(rs[n], now)];
    }
  }

  lemma {:induction false} FiredGrants(c: Clock, e: Pending, h: Handlers)
    ensures Granted(c, Fired(c, e, h), h)
  {
    var c', k := Fired(c, e, h), |c.log|;
    FiredKeeps(c, e, h);
    EnteredIsMade(h(k, e.item).requests, c.totalTicks);
    assert c'.log[k] == Firing(e, c.totalTicks) && c'.log[..k] == c.log;
    assert c'.yieldOnReturn == (c.yieldOnReturn || h(k, e.item).wantsYield);
  }

  lemma {:induction false} NothingGranted(c: Clock, c': Clock, h: Handlers)
    requires c'.log == c.log && c'.yieldOnReturn == c.yieldOnReturn && c'.scheduled == c.scheduled
    ensures Granted(c, c', h)
  {}

  lemma {:induction false} CheckedGrants(c: Clock, advanceClock: bool, h: Handlers)
    ensures Granted(c, Checked(c, advanceClock, h), h)
  {
    if Fires(c, advanceClock) {
      var rest := c.(pending := c.pending[1..]);
      FiredGrants(if advanceClock then Advanced(rest, c.pending[0].key) else rest, c.pending[0], h);
    } else {
      NothingGranted(c, Checked(c, advanceClock, h), h);
    }
  }

  lemma {:induction false} RequestedTogether(l: seq<Firing>, n: nat, m: nat, h: Handlers)
    requires n <= m <= |l|
    ensures Requested(l, n, h) == Requested(l[..m], n, h) + Requested(l, m, h)
    decreases |l|
  {
    if m == |l| {
      assert l[..m] == l;
    } else {
      var k := |l| - 1;
      var last := Entered(h(k, l[k].entry.item).requests, l[k].at);
      assert Requested(l, n, h) == Requested(l[..k], n, h) + last;
      assert Requested(l, m, h) == Requested(l[..k], m, h) + last;
      assert l[..k][..m] == l[..m];
      RequestedTogether(l[..k], n, m, h);
    }
  }

  lemma {:induction false} GrantedTrans(a: Clock, b: Clock, c: Clock, h: Handlers)
    requires Granted(a, b, h) && Granted(b, c, h)
    ensures Granted(a, c, h)
  {
    assert c.log[..|a.log|] == c.log[..|b.log|][..|a.log|];
    RequestedTogether(c.log, |a.log|, |b.log|, h);
    WantedTogether(c.log, |a.log|, |b.log|, h);
  }

  lemma {:induction false} WantedTogether(l: seq<Firing>, n: nat, m: nat, h: Handlers)
    requires n <= m <= |l|
    ensures Wanted(l, n, h) <==> Wanted(l[..m], n, h) || Wanted(l, m, h)
  {
    if k: nat :| n <= k < |l| && h(k, l[k].entry.item).wantsYield {
      assert k < m ==> l[..m][k] == l[k];
    }
    if k: nat :| n <= k < m && h(k, l[..m][k].entry.item).wantsYield {
      assert l[..m][k] == l[k];
    }
  }

  lemma {:induction false} DrainedGrants(c: Clock, h: Handlers)
    ensures Granted(c, Drained(c, h), h)
    decreases Due(c.pending, c.totalTicks)
  {
    DrainedStep(c, h);
    CheckedGrants(c, false, h);
    if Fires(c, false) {
      DrainedGrants(Checked(c, false, h), h);
      GrantedTrans(c, Checked(c, false, h), Drained(c, h), h);
    }
  }

  /** One tick: the time goes to the counter of the mode, a yield is due if it was before or a
      handler called wished it, their requests are scheduled, and interrupts are on. */
  ghost predicate TickDone(c: Clock, c': Clock, yieldNow: bool, h: Handlers) {
    && |c'.log| >= |c.log| && c'.log[..|c.log|] == c.log
    && c'.scheduled == c.scheduled + Requested(c'.log, |c.log|, h)
    && (yieldNow <==> c.yieldOnReturn || Wanted(c'.log, |c.log|, h))
    && c'.level == IntOn && !c'.yieldOnReturn && c'.status == c.status && c'.idleTicks == c.idleTicks
    && c'.systemTicks == c.systemTicks + (if c.status == SystemMode then 10 else 0)
    && c'.userTicks == c.userTicks + (if c.status == SystemMode then 0 else 1)
    && c'.totalTicks == c.totalTicks + (if c.status == SystemMode then 10 else 1)
  }

  lemma {:induction false} TickGrants(c: Clock, h: Handlers)
    ensures TickDone(c, Ticked(c, h), YieldAfter(c, h), h)
  {
    DrainedGrants(Timed(c).(level := IntOff), h);
  }

  /** The flag that OneTick finds after its loop. */
  function YieldAfter(c: Clock, h: Handlers): bool { Drained(Timed(c).(level := IntOff), h).yieldOnReturn }

  /** Idle, unless it halts: whatever yields were wished for are dropped, the machine is back in
      system mode, only idle time has passed, and what handlers asked for is scheduled. */
  ghost predicate IdleDone(c: Clock, c': Clock, h: Handlers) {
    && |c'.log| >= |c.log| && c'.log[..|c.log|] == c.log
    && c'.scheduled == c.scheduled + Requested(c'.log, |c.log|, h)
    && c'.level == c.level && c'.systemTicks == c.systemTicks && c'.userTicks == c.userTicks
    && c'.totalTicks - c.totalTicks == c'.idleTicks - c.idleTicks
    && (!Halts(c) ==> !c'.yieldOnReturn && c'.status == SystemMode)
  }

  lemma {:induction false} IdleGrants(c: Clock, h: Handlers)
    ensures IdleDone(c, Idled(c, h), h)
  {
    var c0 := c.(status := IdleMode);
    var c1 := Checked(c0, true, h);
    CheckedKeeps(c0, true, h);
    CheckedGrants(c0, true, h);
    DrainedGrants(c1, h);
    GrantedTrans(c0, c1, Drained(c1, h), h);
  }

  /** What each event of a run does to a running machine. */
  ghost predicate Does(c: Clock, e: Event, m': Machine, h: Handlers) {
    match e
    case Tick =>
      && m'.Running? && TickDone(c, m'.clock, YieldAfter(c, h), h)
      && (c.status != IdleMode ==> FiredTheDue(Timed(c), m'.clock))
    case Idle => m'.Aborted? || (IdleDone(c, m'.clock, h) && (m'.Halted? <==> Halts(c)))
    case Ask(r) =>
      m'.Running? && m'.clock.scheduled == c.scheduled + multiset{Entry(r.what, c.totalTicks + r.fromNow)}
    case SetLevel(now) =>
      && m'.Running? && m'.clock.level == now
      && (now == IntOn && c.level == IntOff ==> TickDone(c, m'.clock, YieldAfter(c.(level := now), h), h))
    case SetStatus(s) => m' == Running(c.(status := s))
  }

  lemma {:induction false} EventDoes(m: Machine, e: Event, h: Handlers)
    requires m.Running? && Inv(m.clock)
    ensures Does(m.clock, e, Step(m, e, h), h)
  {
    match e
    case Tick => TickDoes(m.clock, h);
    case Idle => IdleGrants(m.clock, h);
    case SetLevel(now) => LevelDoes(m.clock, now, h);
    case _ =>
  }

  lemma {:induction false} LevelDoes(c: Clock, now: IntStatus, h: Handlers)
    ensures var c' := Levelled(c, now, h);
      && c'.level == now
      && (now == IntOn && c.level == IntOff ==> TickDone(c, c', YieldAfter(c.(level := now), h), h))
  {
    TickGrants(c.(level := now), h);
  }

  lemma {:induction false} TickDoes(c: Clock, h: Handlers)
    requires Inv(c)
    ensures TickDone(c, Ticked(c, h), YieldAfter(c, h), h)
    ensures c.status != IdleMode ==> FiredTheDue(Timed(c), Ticked(c, h))
  {
    TickGrants(c, h);
    if c.status != IdleMode { TickFiresTheDue(c, h); }
  }

  /** The entry that an event asks for itself. */
  ghost function Asked(m: Machine, e: Event): (made: multiset<Pending>) {
    if m.Running? && e.Ask? then multiset{Entry(e.r.what, m.clock.totalTicks + e.r.fromNow)} else multiset{}
  }

  /** The requests made from outside in a run, as entries. */
  ghost function AskedFor(events: seq<Event>, h: Handlers): (made: multiset<Pending>) {
    if events == [] then multiset{}
    else
      var before := events[..|events| - 1];
      AskedFor(before, h) + Asked(Run(before, h), events[|events| - 1])
  }

  /** From c to c' what handlers asked for was scheduled, and besides it `more`. */
  ghost predicate Grew(c: Clock, c': Clock, more: multiset<Pending>, h: Handlers) {
    && |c'.log| >= |c.log| && c'.log[..|c.log|] == c.log
    && c'.scheduled == c.scheduled + Requested(c'.log, |c.log|, h) + more
  }

  /** In every run, what was scheduled is what was asked for: from outside, or by a handler when it
      was called. With RunInv, each of these is pending or was called once. */
  lemma {:induction false} RunSchedules(events: seq<Event>, h: Handlers)
    ensures var c := Run(events, h).clock; c.scheduled == AskedFor(events, h) + Requested(c.log, 0, h)
  {
    if events != [] {
      var before, e := events[..|events| - 1], events[|events| - 1];
      var m, m' := Run(before, h), Run(events, h);
      RunSchedules(before, h);
      assert m' == Step(m, e, h);
      StepSchedules(m, e, h);
      GrewFrom(m.clock, m'.clock, AskedFor(before, h), Asked(m, e), h);
    }
  }

  lemma {:induction false} GrewFrom(c: Clock, c': Clock, asked: multiset<Pending>, more: multiset<Pending>, h: Handlers)
    requires Grew(c, c', more, h) && c.scheduled == asked + Requested(c.log, 0, h)
    ensures c'.scheduled == asked + more + Requested(c'.log, 0, h)
  {
    RequestedTogether(c'.log, 0, |c.log|, h);
  }

  lemma {:induction false} StepSchedules(m: Machine, e: Event, h: Handlers)
    ensures Grew(m.clock, Step(m, e, h).clock, Asked(m, e), h)
  {
    if !m.Running? {
      GrewNot(m.clock, m.clock, h);
    } else {
      match e
      case Tick => TickSchedules(m.clock, h);
      case Idle => if m.clock.level == IntOn { GrewNot(m.clock, m.clock, h); } else { IdleSchedules(m.clock, h); }
      case Ask(r) => AskSchedules(m.clock, r, h);
      case SetLevel(now) => LevelSchedules(m.clock, now, h);
      case SetStatus(s) => GrewNot(m.clock, m.clock.(status := s), h);
    }
  }

  lemma {:induction false} GrewNot(c: Clock, c': Clock, h: Handlers)
    requires c'.log == c.log && c'.scheduled == c.scheduled
    ensures Grew(c, c', multiset{}, h)
  {}

  lemma {:induction false} TickSchedules(c: Clock, h: Handlers)
    ensures Grew(c, Ticked(c, h), multiset{}, h)
  {
    TickGrants(c, h);
  }

  lemma {:induction false} IdleSchedules(c: Clock, h: Handlers)
    ensures Grew(c, Idled(c, h), multiset{}, h)
  {
    IdleGrants(c, h);
  }

  lemma {:induction false} AskSchedules(c: Clock, r: Request, h: Handlers)
    ensures Grew(c, Scheduled(c, r), multiset{Entry(r.what, c.totalTicks + r.fromNow)}, h)
  {}

  lemma {:induction false} LevelSchedules(c: Clock, now: IntStatus, h: Handlers)
    ensures Grew(c, Levelled(c, now, h), multiset{}, h)
  {
    if now == IntOn && c.level == IntOff {
      TickSchedules(c.(level := now), h);
    } else {
      GrewNot(c, c.(level := now), h);
    }
  }

  /* ------------------------------ the component itself ------------------------------ */

  class Interrupt {
    const pending: List<PendingInterrupt>
    var level: IntStatus
    var status: MachineStatus
    var inHandler: bool
    var yieldOnReturn: bool
    var totalTicks: int
    var idleTicks: int
    var systemTicks: int
    var userTicks: int
    var calls: nat  // stands for what handlers remember: how many calls there were
    ghost var log: seq<Firing>
    ghost var scheduled: multiset<Pending>

    ghost predicate Valid()
      reads this, pending, pending.footprint
    {
      pending.Valid() && calls == |log|
    }

    ghost function State(): (c: Clock)
      reads this, pending
    {
      Clock(pending.Contents(), level, status, yieldOnReturn, totalTicks, idleTicks, systemTicks, userTicks,
            log, scheduled)
    }

    constructor ()
      ensures Valid() && Running(State()) == Start && !inHandler
      ensures fresh(pending) && pending.footprint == {}
    {
      pending := new List();
      level, status, inHandler, yieldOnReturn := IntOff, SystemMode, false, false;
      totalTicks, idleTicks, systemTicks, userTicks := 0, 0, 0, 0;
      calls, log, scheduled := 0, [], multiset{};
    }

    method ChangeLevel(now: IntStatus)
      requires Valid()
      modifies this`level
      ensures Valid() && State() == old(State()).(level := now)
    {
      level := now;
    }

    method ChangeStatus(s: MachineStatus)
      requires Valid()
      modifies this`status
      ensures Valid() && State() == old(State()).(status := s)
    {
      status := s;
    }

    method ClearYield() returns (was: bool)
      requires Valid()
      modifies this`yieldOnReturn
      ensures Valid() && State() == old(State()).(yieldOnReturn := false) && was == old(yieldOnReturn)
    {
      was := yieldOnReturn;
      yieldOnReturn := false;
    }

    method Schedule(r: Request)
      requires Valid()
      modifies this`scheduled, pending, pending.footprint
      ensures Valid() && State() == Scheduled(old(State()), r)
      ensures fresh(pending.footprint - old(pending.footprint))
    {
      var when := totalTicks + r.fromNow;
      pending.SortedInsert(r.what, when);
      scheduled := scheduled + multiset{Timely(r, totalTicks)};
    }

    /** What a handler asks of this component. */
    method MakeRequests(requests: seq<Request>)
      requires Valid()
      modifies this`scheduled, pending, pending.footprint
      ensures Valid() && State() == ScheduledAll(old(State()), requests)
      ensures fresh(pending.footprint - old(pending.footprint))
    {
      var i := 0;
      while i < |requests|
        invariant 0 <= i <= |requests| && Valid()
        invariant pending.Contents() == InsertAll(old(pending.Contents()), requests[..i], totalTicks)
        invariant scheduled == old(scheduled) + EntriesMade(requests[..i], totalTicks)
        invariant fresh(pending.footprint - old(pending.footprint))
      {
        assert requests[..i + 1][..i] == requests[..i];
        Schedule(requests[i]);
        i := i + 1;
      }
      assert requests[..i] == requests;
    }

    method Record(e: Pending, wantsYield: bool)
      requires Valid()
      modifies this`yieldOnReturn, this`calls, this`log
      ensures Valid() && State() == Called(old(State()), e, wantsYield)
    {
      calls, log := calls + 1, log + [Firing(e, totalTicks)];
      if wantsYield { yieldOnReturn := true; }
    }

    method Handle(e: Pending, fx: Effects)
      requires Valid()
      modifies this`yieldOnReturn, this`calls, this`log, this`scheduled, pending, pending.footprint
      ensures Valid() && State() == HandlerDone(old(State()), e, fx)
      ensures fresh(pending.footprint - old(pending.footprint))
    {
      Record(e, fx.wantsYield);
      MakeRequests(fx.requests);
    }

    /** The call of a handler: it runs in system mode with inHandler set. */
    method Invoke(e: Pending, h: Handlers)
      requires Valid()
      modifies this, pending, pending.footprint
      ensures Valid() && State() == Fired(old(State()), e, h) && !inHandler
      ensures fresh(pending.footprint - old(pending.footprint))
    {
      var oldStatus := status;
      inHandler := true;
      ChangeStatus(SystemMode);
      var fx := Respond(h, calls, e.item);
      Handle(e, fx);
      inHandler := false;
      ChangeStatus(oldStatus);
    }

    /** CheckIfDue, once the head e is off the queue. */
    method Settle(e: Pending, advanceClock: bool, h: Handlers) returns (fired: bool)
      requires Valid() && !inHandler
      modifies this, pending, pending.footprint
      ensures Valid() && State() == Settled(old(State()), e, advanceClock, h)
      ensures fired == HeadFires(old(State()), e, advanceClock) && !inHandler
      ensures fresh(pending.footprint - old(pending.footprint))
    {
      if !advanceClock && e.key > totalTicks {
        PutBack(e);
        return false;
      }
      if advanceClock {
        Advance(e.key);
      }
      var alone := pending.IsEmpty();
      if status == IdleMode && e.item.kind == TimerInt && alone {
        PutBack(e);
        return false;
      }
      Invoke(e, h);
      return true;
    }

    method Advance(when: int)
      requires Valid()
      modifies this`idleTicks, this`totalTicks
      ensures Valid() && State() == Advanced(old(State()), when)
    {
      if when > totalTicks {
        idleTicks := idleTicks + (when - totalTicks);
        totalTicks := when;
      }
    }

    method PutBack(e: Pending)
      requires Valid()
      modifies pending, pending.footprint
      ensures Valid() && State() == old(State()).(pending := InsertSorted(old(State()).pending, e))
      ensures fresh(pending.footprint - old(pending.footprint))
    {
      pending.SortedInsert(e.item, e.key);
    }

    method CheckIfDue(advanceClock: bool, h: Handlers) returns (fired: bool)
      requires Valid() && level == IntOff && !inHandler
      modifies this, pending, pending.footprint
      ensures Valid() && State() == Checked(old(State()), advanceClock, h) && fired == Fires(old(State()), advanceClock)
      ensures fresh(pending.footprint - old(pending.footprint)) && !inHandler
    {
      ghost var c := State();
      var taken := pending.SortedRemove();
      if taken.None? {
        return false;
      }
      assert State() == c.(pending := c.pending[1..]);
      fired := Settle(taken.value, advanceClock, h);
    }

    /** `while (CheckIfDue(FALSE))`. */
    method Drain(h: Handlers)
      requires Valid() && level == IntOff && !inHandler
      modifies this, pending, pending.footprint
      ensures Valid() && State() == Drained(old(State()), h) && !inHandler
      ensures fresh(pending.footprint - old(pending.footprint))
    {
      var more := true;
      while more
        invariant Valid() && level == IntOff && !inHandler
        invariant Drained(old(State()), h) == if more then Drained(State(), h) else State()
        invariant fresh(pending.footprint - old(pending.footprint))
        decreases more, Due(State().pending, State().totalTicks)
      {
        ghost var c := State();
        more := CheckIfDue(false, h);
        DrainedStep(c, h);
      }
    }

    method PassTime()
      requires Valid()
      modifies this`totalTicks, this`systemTicks, this`userTicks
      ensures Valid() && State() == Timed(old(State()))
    {
      if status == SystemMode {
        totalTicks := totalTicks + SystemTick;
        systemTicks := systemTicks + SystemTick;
      } else {
        totalTicks := totalTicks + UserTick;
        userTicks := userTicks + UserTick;
      }
    }

    /** The result says whether the current thread is to yield now. */
    method OneTick(h: Handlers) returns (yieldNow: bool)
      requires Valid() && !inHandler
      modifies this, pending, pending.footprint
      ensures Valid() && State() == Ticked(old(State()), h) && !inHandler
      ensures TickDone(old(State()), State(), yieldNow, h)
      ensures fresh(pending.footprint - old(pending.footprint))
    {
      TickGrants(State(), h);
      PassTime();
      ChangeLevel(IntOff);
      Drain(h);
      ChangeLevel(IntOn);
      yieldNow := ClearYield();
    }

    /** The result says whether the machine halts. */
    method Idle(h: Handlers) returns (halt: bool)
      requires Valid() && level == IntOff && !inHandler
      modifies this, pending, pending.footprint
      ensures Valid() && State() == Idled(old(State()), h) && halt == Halts(old(State())) && !inHandler
      ensures IdleDone(old(State()), State(), h)
      ensures fresh(pending.footprint - old(pending.footprint))
    {
      IdleGrants(State(), h);
      var fired := StartIdle(h);
      if fired {
        FinishIdle(h);
      }
      halt := !fired;
    }

    method StartIdle(h: Handlers) returns (fired: bool)
      requires Valid() && level == IntOff && !inHandler
      modifies this, pending, pending.footprint
      ensures Valid() && level == IntOff && !inHandler
      ensures State() == Checked(old(State()).(status := IdleMode), true, h) && fired == !Halts(old(State()))
      ensures fresh(pending.footprint - old(pending.footprint))
    {
      ChangeStatus(IdleMode);
      CheckedKeeps(State(), true, h);
      fired := CheckIfDue(true, h);
    }

    method FinishIdle(h: Handlers)
      requires Valid() && level == IntOff && !inHandler
      modifies this, pending, pending.footprint
      ensures Valid() && State() == Drained(old(State()), h).(yieldOnReturn := false, status := SystemMode)
      ensures !inHandler && fresh(pending.footprint - old(pending.footprint))
    {
      Drain(h);
      var _ := ClearYield();
      ChangeStatus(SystemMode);
    }

    method SetLevel(now: IntStatus, h: Handlers) returns (was: IntStatus, yieldNow: bool)
      requires Valid() && !inHandler
      modifies this, pending, pending.footprint
      ensures Valid() && State() == Levelled(old(State()), now, h) && was == old(level) && level == now
      ensures now == IntOn && was == IntOff ==> TickDone(old(State()), State(), yieldNow, h)
      ensures now == IntOff || was == IntOn ==> !yieldNow && State() == old(State()).(level := now)
      ensures fresh(pending.footprint - old(pending.footprint))
    {
      was, yieldNow := level, false;
      ChangeLevel(now);
      if now == IntOn && was == IntOff {
        yieldNow := OneTick(h);
      }
    }
  }
}
