/** code/machine/disk.cc: how long a disk request takes, and when the track buffer answers it.

    Time is cut into slots of RotationTime ticks; during slot k the sectors whose number is
    k modulo SectorsPerTrack pass under the head, on whatever track the head is. */
module DiskTiming {
  const RotationTime := 500
  const SeekTime := 500
  const SectorsPerTrack := 32
  const NumSectors := 1024

  type Sector = s: int | 0 <= s < NumSectors

  function Track(s: Sector): (t: nat) { s / SectorsPerTrack }

  function Abs(x: int): (r: nat) { if x < 0 then -x else x }

  /** The state that the simulation keeps, and the time the outstanding request is due. `moves`
      is the history of the arm, for the statements only. */
  datatype Move = Move(arrival: int, track: nat)
  datatype Disk = Disk(lastSector: Sector, bufferInit: int, active: bool, due: int, moves: seq<Move>)

  function SeekTicks(d: Disk, s: Sector): (seek: nat) { Abs(Track(s) - Track(d.lastSector)) * SeekTime }

  /** Ticks to the next slot boundary. */
  function ToBoundary(t: nat): (r: nat)
    ensures r < RotationTime && (t + r) % RotationTime == 0
  {
    if t % RotationTime > 0 then RotationTime - t % RotationTime else 0
  }

  function ModuloDiff(to: nat, from: nat): (r: nat)
    ensures r < SectorsPerTrack && (from + r) % SectorsPerTrack == to % SectorsPerTrack
  {
    var f, t := from % SectorsPerTrack, to % SectorsPerTrack;
    var r := ((t - f) + SectorsPerTrack) % SectorsPerTrack;
    Congruent(from / SectorsPerTrack, f, r, t);
    r
  }

  lemma {:induction false} Congruent(q: nat, f: nat, r: nat, t: nat)
    requires t < SectorsPerTrack && (f + r == t || f + r == t + SectorsPerTrack)
    ensures (q * SectorsPerTrack + f + r) % SectorsPerTrack == t
  {
    assert f + r == t + SectorsPerTrack ==> q * SectorsPerTrack + f + r == (q + 1) * SectorsPerTrack + t;
  }

  /** The next slot boundary after the seek. */
  function TimeAfter(d: Disk, s: Sector, now: nat): (t: nat)
    ensures t % RotationTime == 0 && now + SeekTicks(d, s) <= t < now + SeekTicks(d, s) + RotationTime
  {
    now + SeekTicks(d, s) + ToBoundary(now + SeekTicks(d, s))
  }

  predicate BufferHit(d: Disk, s: Sector, writing: bool, now: nat)
    requires 0 <= d.bufferInit <= now
  {
    && !writing && SeekTicks(d, s) == 0
    && (TimeAfter(d, s, now) - d.bufferInit) / RotationTime > ModuloDiff(s, d.bufferInit / RotationTime)
  }

  function ComputeLatency(d: Disk, s: Sector, writing: bool, now: nat): (ticks: nat)
    requires 0 <= d.bufferInit <= now
    ensures ticks >= RotationTime
  {
    if BufferHit(d, s, writing, now) then RotationTime
    else
      var rotation := ToBoundary(now + SeekTicks(d, s))
                    + ModuloDiff(s, TimeAfter(d, s, now) / RotationTime) * RotationTime;
      SeekTicks(d, s) + rotation + RotationTime
  }

  /** UpdateLast: after a seek the buffer starts anew, at the next slot boundary. */
  function Updated(d: Disk, s: Sector, now: nat): (d': Disk) {
    d.(lastSector := s,
       bufferInit := if SeekTicks(d, s) != 0 then TimeAfter(d, s, now) else d.bufferInit,
       moves := d.moves + [Move(now + SeekTicks(d, s), Track(s))])
  }

  /* ------------------------------ what the times mean ------------------------------ */

  predicate PassesIn(s: Sector, k: nat) { k % SectorsPerTrack == s % SectorsPerTrack }

  /** Slot k begins at or after `from` and has ended by `to`. */
  predicate SlotWithin(k: nat, from: int, to: int) { from <= k * RotationTime && (k + 1) * RotationTime <= to }

  /** A read without a seek is answered from the buffer exactly when the sector's slot has fully
      passed between the start of the buffer and the next boundary. */
  lemma {:induction false} HitIff(d: Disk, s: Sector, now: nat)
    requires 0 <= d.bufferInit <= now && d.bufferInit % RotationTime == 0 && Track(s) == Track(d.lastSector)
    ensures BufferHit(d, s, false, now)
       <==> exists k: nat :: PassesIn(s, k) && SlotWithin(k, d.bufferInit, TimeAfter(d, s, now))
  {
    var b, a := d.bufferInit / RotationTime, TimeAfter(d, s, now) / RotationTime;
    var k := b + ModuloDiff(s, b);
    assert PassesIn(s, k);
    if BufferHit(d, s, false, now) {
      assert SlotWithin(k, d.bufferInit, TimeAfter(d, s, now));
    }
    forall j: nat | PassesIn(s, j) && SlotWithin(j, d.bufferInit, TimeAfter(d, s, now)) ensures k <= j < a {
      EarliestSlot(s, b, j);
    }
  }

  /** The slot at distance ModuloDiff is the first one for s. */
  lemma {:induction false} EarliestSlot(s: Sector, from: nat, j: nat)
    requires from <= j && PassesIn(s, j)
    ensures from + ModuloDiff(s, from) <= j
  {
  }

  /** Any other request ends exactly at the end of its sector's slot, the first such slot that
      begins after the seek. */
  lemma {:induction false} MissEndsWithItsSlot(d: Disk, s: Sector, writing: bool, now: nat)
    requires 0 <= d.bufferInit <= now && !BufferHit(d, s, writing, now)
    ensures EndsWithFirst(s, now + SeekTicks(d, s), now + ComputeLatency(d, s, writing, now))
  {
    var a := TimeAfter(d, s, now) / RotationTime;
    var k := a + ModuloDiff(s, a);
    assert PassesIn(s, k);
    forall j: nat | PassesIn(s, j) && now + SeekTicks(d, s) <= j * RotationTime ensures k <= j {
      EarliestSlot(s, a, j);
    }
    assert FirstSlot(s, now + SeekTicks(d, s), k);
  }

  /** The buffer never makes a request slower. */
  lemma {:induction false} HitIsNoSlower(d: Disk, s: Sector, now: nat)
    requires 0 <= d.bufferInit <= now
    ensures ComputeLatency(d, s, false, now) <= ComputeLatency(d, s, true, now)
  {
  }

  /* ------------------------------ in sectors and ticks ------------------------------ */

  /** The tracks of two sectors are k apart. */
  predicate Apart(a: Sector, b: Sector, k: nat) { a / 32 + k == b / 32 || b / 32 + k == a / 32 }

  /** Slot j is the first one of sector s that begins at time t or later. */
  ghost predicate FirstSlot(s: Sector, t: int, j: nat) {
    PassesIn(s, j) && t <= j * RotationTime && forall i: nat :: PassesIn(s, i) && t <= i * RotationTime ==> j <= i
  }

  /** `finish` is when the first slot of s from time t on ends. */
  ghost predicate EndsWithFirst(s: Sector, t: int, finish: int) {
    exists j: nat :: FirstSlot(s, t, j) && finish == (j + 1) * RotationTime
  }

  /** b is the first boundary between slots at time t or later. */
  predicate Boundary(t: int, b: int) { b % RotationTime == 0 && t <= b < t + RotationTime }

  /** The buffer that began at `init` holds s: a slot of s has passed since, by the first boundary
      from `now` on. */
  ghost predicate Buffered(s: Sector, init: int, now: int) {
    exists j: nat, b :: PassesIn(s, j) && Boundary(now, b) && SlotWithin(j, init, b)
  }

  /** A request for s at `now`, k tracks away, takes `ticks`: one sector's time if it is a read of
      what the buffer holds; else it ends with the first slot of s after the arm has arrived, which
      takes SeekTime a track. */
  ghost predicate Timing(s: Sector, writing: bool, init: int, now: int, k: nat, ticks: int) {
    if !writing && k == 0 && Buffered(s, init, now) then ticks == RotationTime
    else EndsWithFirst(s, now + k * SeekTime, now + ticks)
  }

  /** The arm arrives k * SeekTime later; if it moved, the buffer restarts at the next boundary. */
  predicate ArmMoved(d: Disk, d': Disk, s: Sector, now: int, k: nat) {
    && d'.lastSector == s && d'.moves == d.moves + [Move(now + k * SeekTime, s / 32)]
    && if k == 0 then d'.bufferInit == d.bufferInit else Boundary(now + k * SeekTime, d'.bufferInit)
  }

  lemma {:induction false} SeekIs(d: Disk, s: Sector, k: nat)
    requires Apart(d.lastSector, s, k)
    ensures SeekTicks(d, s) == k * SeekTime
  {}

  lemma {:induction false} UpdateMoves(d: Disk, s: Sector, now: nat, k: nat)
    requires Apart(d.lastSector, s, k)
    ensures ArmMoved(d, Updated(d, s, now), s, now, k)
  {
    SeekIs(d, s, k);
  }

  lemma {:induction false} BoundaryUnique(t: int, a: int, b: int)
    requires Boundary(t, a) && Boundary(t, b)
    ensures a == b
  {}

  lemma {:induction false} LatencyIs(d: Disk, s: Sector, writing: bool, now: nat, k: nat)
    requires Apart(d.lastSector, s, k) && 0 <= d.bufferInit <= now && d.bufferInit % RotationTime == 0
    ensures Timing(s, writing, d.bufferInit, now, k, ComputeLatency(d, s, writing, now))
  {
    SeekIs(d, s, k);
    if !writing && k == 0 {
      SameTrack(d, s);
      HitIff(d, s, now);
      BufferedIff(d, s, now);
    }
    if !BufferHit(d, s, writing, now) {
      MissEndsWithItsSlot(d, s, writing, now);
    }
  }

  lemma {:induction false} SameTrack(d: Disk, s: Sector)
    requires Apart(d.lastSector, s, 0)
    ensures Track(s) == Track(d.lastSector)
  {}

  lemma {:induction false} BufferedIff(d: Disk, s: Sector, now: nat)
    requires SeekTicks(d, s) == 0
    ensures Buffered(s, d.bufferInit, now)
       <==> exists j: nat :: PassesIn(s, j) && SlotWithin(j, d.bufferInit, TimeAfter(d, s, now))
  {
    var b := TimeAfter(d, s, now);
    assert Boundary(now, b);
    if j: nat :| PassesIn(s, j) && SlotWithin(j, d.bufferInit, b) {
      assert Boundary(now, b) && PassesIn(s, j);
    }
    forall c | Boundary(now, c) ensures c == b { BoundaryUnique(now, b, c); }
  }

  /* ------------------------------ whole runs ------------------------------ */

  /** Where the arm is at time t: the track it last arrived at. */
  function TrackAt(moves: seq<Move>, t: int): (track: nat) {
    if moves == [] then 0
    else if moves[|moves| - 1].arrival <= t then moves[|moves| - 1].track
    else TrackAt(moves[..|moves| - 1], t)
  }

  /** Since the buffer began the arm has not left the track of the last request. */
  ghost predicate OnTrack(d: Disk) {
    forall t :: d.bufferInit <= t ==> TrackAt(d.moves, t) == Track(d.lastSector)
  }

  ghost predicate Inv(d: Disk, now: nat) {
    && 0 <= d.bufferInit <= (if d.active then d.due else now)
    && d.bufferInit % RotationTime == 0
    && OnTrack(d)
  }

  datatype Event = Request(sector: Sector, writing: bool, at: nat) | Done(at: nat)

  /** Time does not run backwards, one request at a time, and its interrupt is never early. */
  ghost predicate Legal(d: Disk, e: Event, now: nat) {
    now <= e.at && (if e.Request? then !d.active else d.active && d.due <= e.at)
  }

  function Step(d: Disk, e: Event): (d': Disk)
    requires e.Request? ==> 0 <= d.bufferInit <= e.at
  {
    match e
    case Request(s, writing, at) =>
      Updated(d, s, at).(active := true, due := at + ComputeLatency(d, s, writing, at))
    case Done(at) => d.(active := false)
  }

  const Fresh := Disk(0, 0, false, 0, [])

  lemma {:induction false} StepInv(d: Disk, e: Event, now: nat)
    requires Inv(d, now) && Legal(d, e, now)
    ensures e.Request? ==> 0 <= d.bufferInit <= e.at
    ensures Inv(Step(d, e), e.at)
  {
    if e.Request? {
      UpdatedOnTrack(d, e.sector, e.at);
      if SeekTicks(d, e.sector) != 0 {
        assert !BufferHit(d, e.sector, e.writing, e.at);
      }
    }
  }

  lemma {:induction false} UpdatedOnTrack(d: Disk, s: Sector, now: nat)
    requires OnTrack(d)
    ensures OnTrack(Updated(d, s, now))
  {
    var d' := Updated(d, s, now);
    forall t | d'.bufferInit <= t ensures TrackAt(d'.moves, t) == Track(s) {
      assert d'.moves[..|d'.moves| - 1] == d.moves;
    }
  }

  /** A run: the states it goes through, one event after another. That a request never comes
      before the buffer began is not demanded of a run; RunInv shows it. */
  ghost predicate Run(states: seq<Disk>, events: seq<Event>) {
    && |states| == |events| + 1 && states[0] == Fresh
    && forall i :: 0 <= i < |events| ==> StepsAt(states, events, i)
  }

  ghost predicate StepsAt(states: seq<Disk>, events: seq<Event>, i: nat)
    requires |states| == |events| + 1 && i < |events|
  {
    && Legal(states[i], events[i], TimeBefore(events, i))
    && ((events[i].Request? ==> 0 <= states[i].bufferInit <= events[i].at)
        ==> states[i + 1] == Step(states[i], events[i]))
  }

  function TimeBefore(events: seq<Event>, n: nat): (t: nat)
    requires n <= |events|
  {
    if n == 0 then 0 else events[n - 1].at
  }

  lemma {:induction false} RunStep(states: seq<Disk>, events: seq<Event>, n: nat)
    requires Run(states, events) && n < |events| && Inv(states[n], TimeBefore(events, n))
    ensures Inv(states[n + 1], TimeBefore(events, n + 1))
    ensures events[n].Request? ==> 0 <= states[n].bufferInit <= events[n].at
  {
    var e := events[n];
    assert StepsAt(states, events, n);
    StepInv(states[n], e, TimeBefore(events, n));
  }

  lemma {:induction false} ReachedInv(states: seq<Disk>, events: seq<Event>, n: nat)
    requires Run(states, events) && n <= |events|
    ensures Inv(states[n], TimeBefore(events, n))
  {
    if n > 0 {
      ReachedInv(states, events, n - 1);
      RunStep(states, events, n - 1);
    }
  }

  lemma {:induction false} RunInv(states: seq<Disk>, events: seq<Event>, n: nat)
    requires Run(states, events) && n <= |events|
    ensures Inv(states[n], TimeBefore(events, n))
    ensures n < |events| && events[n].Request? ==> 0 <= states[n].bufferInit <= events[n].at
  {
    ReachedInv(states, events, n);
    if n < |events| {
      RunStep(states, events, n);
    }
  }

  /** In every run, a read of the current track is answered from the buffer exactly when the
      sector has passed completely under the head since the buffer began, with the arm on the
      sector's track all that time. */
  lemma {:induction false} RunHits(states: seq<Disk>, events: seq<Event>, n: nat)
    requires Run(states, events) && n < |events| && events[n].Request? && !events[n].writing
    requires Track(events[n].sector) == Track(states[n].lastSector)
    ensures 0 <= states[n].bufferInit <= events[n].at
    ensures var d, s, now := states[n], events[n].sector, events[n].at;
      && (BufferHit(d, s, false, now)
          <==> exists k: nat :: PassesIn(s, k) && SlotWithin(k, d.bufferInit, TimeAfter(d, s, now)))
      && (forall k: nat, t :: SlotWithin(k, d.bufferInit, TimeAfter(d, s, now)) && k * RotationTime <= t
            ==> TrackAt(d.moves, t) == Track(s))
  {
    RunInv(states, events, n);
    HitIff(states[n], events[n].sector, events[n].at);
  }

  /** The device: the platter's contents, and the three fields of the timing. */
  class Device<Data> {
    var platter: seq<Data>
    var lastSector: Sector
    var bufferInit: int
    var active: bool
    ghost var due: int
    ghost var moves: seq<Move>

    ghost predicate Valid() reads this { |platter| == NumSectors }

    ghost function State(): (d: Disk) reads this { Disk(lastSector, bufferInit, active, due, moves) }

    constructor (platter: seq<Data>)
      requires |platter| == NumSectors
      ensures Valid() && State() == Fresh && this.platter == platter
    {
      this.platter := platter;
      lastSector, bufferInit, active, due, moves := 0, 0, false, 0, [];
    }

    method Latency(s: Sector, writing: bool, now: nat) returns (ticks: int)
      requires 0 <= bufferInit <= now
      ensures ticks == ComputeLatency(State(), s, writing, now)
    {
      var seek := Abs(s / SectorsPerTrack - lastSector / SectorsPerTrack) * SeekTime;
      var rotation := ToBoundary(now + seek);
      var timeAfter := now + seek + rotation;
      if !writing && seek == 0
         && (timeAfter - bufferInit) / RotationTime > ModuloDiff(s, bufferInit / RotationTime)
      {
        return RotationTime;
      }
      rotation := rotation + ModuloDiff(s, timeAfter / RotationTime) * RotationTime;
      return seek + rotation + RotationTime;
    }

    method UpdateLast(s: Sector, now: nat)
      modifies this`lastSector, this`bufferInit, this`moves
      ensures State() == Updated(old(State()), s, now)
      ensures forall k: nat :: Apart(old(lastSector), s, k) ==> ArmMoved(old(State()), State(), s, now, k)
    {
      ghost var d := State();
      forall k: nat | Apart(lastSector, s, k) ensures ArmMoved(d, Updated(d, s, now), s, now, k) {
        UpdateMoves(d, s, now, k);
      }
      var seek := Abs(s / SectorsPerTrack - lastSector / SectorsPerTrack) * SeekTime;
      moves := moves + [Move(now + seek, Track(s))];
      if seek != 0 {
        bufferInit := now + seek + ToBoundary(now + seek);
      }
      lastSector := s;
    }

    /** The interrupt is to come after `ticks`. */
    method ReadRequest(s: Sector, now: nat) returns (data: Data, ticks: int)
      requires Valid() && !active && 0 <= bufferInit <= now
      modifies this`lastSector, this`bufferInit, this`active, this`due, this`moves
      ensures Valid() && data == platter[s]
      ensures State() == Step(old(State()), Request(s, false, now)) && due == now + ticks && ticks > 0
      ensures forall k: nat :: Apart(old(lastSector), s, k) ==> ArmMoved(old(State()), State(), s, now, k)
      ensures old(bufferInit) % RotationTime == 0 ==> forall k: nat :: Apart(old(lastSector), s, k) ==>
        Timing(s, false, old(bufferInit), now, k, ticks)
    {
      ghost var d := State();
      if bufferInit % RotationTime == 0 {
        forall k: nat | Apart(lastSector, s, k)
          ensures Timing(s, false, bufferInit, now, k, ComputeLatency(d, s, false, now))
        {
          LatencyIs(d, s, false, now, k);
        }
      }
      ticks := Latency(s, false, now);
      data := platter[s];
      active := true;
      UpdateLast(s, now);
      due := now + ticks;
    }

    method WriteRequest(s: Sector, data: Data, now: nat) returns (ticks: int)
      requires Valid() && !active && 0 <= bufferInit <= now
      modifies this
      ensures Valid() && platter == old(platter)[s := data]
      ensures State() == Step(old(State()), Request(s, true, now)) && due == now + ticks && ticks > 0
      ensures forall k: nat :: Apart(old(lastSector), s, k) ==> ArmMoved(old(State()), State(), s, now, k)
      ensures old(bufferInit) % RotationTime == 0 ==> forall k: nat :: Apart(old(lastSector), s, k) ==>
        Timing(s, true, old(bufferInit), now, k, ticks)
    {
      ghost var d := State();
      if bufferInit % RotationTime == 0 {
        forall k: nat | Apart(lastSector, s, k)
          ensures Timing(s, true, bufferInit, now, k, ComputeLatency(d, s, true, now))
        {
          LatencyIs(d, s, true, now, k);
        }
      }
      ticks := Latency(s, true, now);
      platter := platter[s := data];
      active := true;
      UpdateLast(s, now);
      due := now + ticks;
    }

    method HandleInterrupt(now: nat)
      requires Valid()
      modifies this`active
      ensures Valid() && State() == Step(old(State()), Done(now))
    {
      active := false;
    }
  }
}
