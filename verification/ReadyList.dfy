/** code/threads/scheduler.cc: the ready list, and what its order means over whole runs. */
module ReadyLists {
  import opened Wrappers
  import opened Lists

  /** A thread made ready, with the moment that happened (the number of calls before it). */
  datatype Stamped<T> = Stamped(thread: T, when: nat)

  datatype Event<T> = MadeReady(thread: T, priority: int) | Dispatch

  /** ReadyToRun and FindNextToRun on the list's contents. `picked` is what FindNextToRun
      returned so far, None when it found the list empty. */
  datatype Queue<T> = Queue(list: seq<Entry<Stamped<T>>>, picked: seq<Option<Entry<Stamped<T>>>>)

  function QueueStep<T>(q: Queue<T>, e: Event<T>, now: nat): (r: Queue<T>) {
    match e
    case MadeReady(thread, priority) => q.(list := InsertSorted(q.list, Entry(Stamped(thread, now), priority)))
    case Dispatch =>
      if q.list == [] then q.(picked := q.picked + [None])
      else Queue(q.list[1..], q.picked + [Some(q.list[0])])
  }

  function QueueRun<T>(events: seq<Event<T>>): (r: Queue<T>) {
    if events == [] then Queue([], [])
    else QueueStep(QueueRun(events[..|events| - 1]), events[|events| - 1], |events| - 1)
  }

  /** The reference: an unordered pool from which the most urgent thread is taken, the one made
      ready first among those of equal priority. */
  ghost predicate Before<T>(x: Entry<Stamped<T>>, y: Entry<Stamped<T>>) {
    x.key < y.key || (x.key == y.key && x.item.when < y.item.when)
  }

  ghost predicate Next<T(!new)>(pool: set<Entry<Stamped<T>>>, x: Entry<Stamped<T>>) {
    x in pool && forall y :: y in pool && y != x ==> Before(x, y)
  }

  datatype Pool<T(==)> = Pool(waiting: set<Entry<Stamped<T>>>, picked: seq<Option<Entry<Stamped<T>>>>)

  ghost predicate PoolStep<T(!new)>(p: Pool<T>, e: Event<T>, now: nat, p': Pool<T>) {
    match e
    case MadeReady(thread, priority) =>
      && Entry(Stamped(thread, now), priority) !in p.waiting
      && p' == p.(waiting := p.waiting + {Entry(Stamped(thread, now), priority)})
    case Dispatch =>
      if p.waiting == {} then p' == p.(picked := p.picked + [None])
      else exists x {:trigger Next(p.waiting, x)} ::
        Next(p.waiting, x) && p' == Pool(p.waiting - {x}, p.picked + [Some(x)])
  }

  /** Strictly ordered by priority, then by arrival; nothing from the future. */
  ghost predicate InOrder<T(!new)>(list: seq<Entry<Stamped<T>>>, now: nat) {
    && (forall i, j :: 0 <= i < j < |list| ==> Before(list[i], list[j]))
    && (forall i :: 0 <= i < |list| ==> list[i].item.when < now)
  }

  ghost function Members<T>(list: seq<Entry<Stamped<T>>>): (s: set<Entry<Stamped<T>>>) { set x | x in list }

  lemma InsertInOrder<T(!new)>(list: seq<Entry<Stamped<T>>>, e: Entry<Stamped<T>>)
    requires InOrder(list, e.item.when)
    ensures InOrder(InsertSorted(list, e), e.item.when + 1)
  {
    var r, p := InsertSorted(list, e), Position(list, e.key);
    forall j | p <= j < |list| ensures e.key < list[j].key {
      assert j > p ==> Before(list[p], list[j]);
    }
    forall i, j | 0 <= i < j < |r| ensures Before(r[i], r[j]) {
      InsertedAt(list, e, i);
      InsertedAt(list, e, j);
    }
    forall i | 0 <= i < |r| ensures r[i].item.when < e.item.when + 1 {
      InsertedAt(list, e, i);
    }
  }

  lemma InsertedAt<T>(list: seq<Entry<T>>, e: Entry<T>, i: nat)
    requires i <= |list|
    ensures InsertSorted(list, e)[i]
         == var p := Position(list, e.key); if i < p then list[i] else if i == p then e else list[i - 1]
  {
  }

  lemma InsertMembers<T>(list: seq<Entry<Stamped<T>>>, e: Entry<Stamped<T>>)
    ensures Members(InsertSorted(list, e)) == Members(list) + {e}
  {
    InsertSortedEntries(list, e);
    forall x ensures x in InsertSorted(list, e) <==> x in list || x == e {
      assert x in InsertSorted(list, e) <==> x in multiset(InsertSorted(list, e));
    }
  }

  /** One call on the list is one step of the pool. */
  lemma StepRefines<T(!new)>(q: Queue<T>, e: Event<T>, now: nat)
    requires InOrder(q.list, now)
    ensures InOrder(QueueStep(q, e, now).list, now + 1)
    ensures PoolStep(Pool(Members(q.list), q.picked), e, now,
                     Pool(Members(QueueStep(q, e, now).list), QueueStep(q, e, now).picked))
  {
    match e
    case MadeReady(thread, priority) =>
      InsertInOrder(q.list, Entry(Stamped(thread, now), priority));
      InsertMembers(q.list, Entry(Stamped(thread, now), priority));
    case Dispatch =>
      if q.list != [] {
        var x := q.list[0];
        assert x in Members(q.list);
        forall y | y in Members(q.list) && y != x ensures Before(x, y) {
          var j :| 0 <= j < |q.list| && q.list[j] == y;
        }
        assert Next(Members(q.list), x);
        assert Members(q.list[1..]) == Members(q.list) - {x} by {
          assert q.list == [x] + q.list[1..];
          forall j | 1 <= j < |q.list| ensures q.list[j] != x {
            assert Before(q.list[0], q.list[j]);
          }
        }
      }
  }

  ghost predicate PoolRun<T(!new)>(states: seq<Pool<T>>, events: seq<Event<T>>) {
    && |states| == |events| + 1 && states[0] == Pool({}, [])
    && forall i :: 0 <= i < |events| ==> PoolStep(states[i], events[i], i, states[i + 1])
  }

  ghost function Abstraction<T>(q: Queue<T>): (p: Pool<T>) { Pool(Members(q.list), q.picked) }

  /** Over every run the ready list hands out threads lowest key first and first come first
      served among equals: it is the pool, call by call. */
  lemma {:induction false} ReadyListIsPriorityPool<T(!new)>(events: seq<Event<T>>)
    ensures InOrder(QueueRun(events).list, |events|)
    ensures PoolRun(seq(|events| + 1, i requires 0 <= i <= |events| => Abstraction(QueueRun(events[..i]))), events)
  {
    var states := seq(|events| + 1, i requires 0 <= i <= |events| => Abstraction(QueueRun(events[..i])));
    forall i | 0 <= i <= |events| ensures InOrder(QueueRun(events[..i]).list, i) {
      RunInOrder(events[..i]);
    }
    assert events[..|events|] == events && events[..0] == [];
    assert states[0] == Pool({}, []);
    forall i | 0 <= i < |events| ensures PoolStep(states[i], events[i], i, states[i + 1]) {
      assert events[..i + 1][..i] == events[..i];
      StepRefines(QueueRun(events[..i]), events[i], i);
    }
  }

  lemma {:induction false} RunInOrder<T(!new)>(events: seq<Event<T>>)
    ensures InOrder(QueueRun(events).list, |events|)
  {
    if events != [] {
      RunInOrder(events[..|events| - 1]);
      StepRefines(QueueRun(events[..|events| - 1]), events[|events| - 1], |events| - 1);
    }
  }

  /** The pool leaves no choice: a dispatch has exactly one possible outcome. */
  lemma NextUnique<T(!new)>(pool: set<Entry<Stamped<T>>>, x: Entry<Stamped<T>>, y: Entry<Stamped<T>>)
    requires Next(pool, x) && Next(pool, y)
    ensures x == y
  {
    if x.key < y.key || (x.key == y.key && x.item.when < y.item.when) {
      assert !Before(y, x);
    } else {
      assert !Before(x, y);
    }
  }

  /** What the list really stores: the threads, without the moments they came. */
  ghost function Erase<T>(list: seq<Entry<Stamped<T>>>): (s: seq<Entry<T>>)
    ensures |s| == |list| && forall i :: 0 <= i < |s| ==> s[i] == Entry(list[i].item.thread, list[i].key)
  {
    seq(|list|, i requires 0 <= i < |list| => Entry(list[i].item.thread, list[i].key))
  }

  lemma InsertErased<T>(list: seq<Entry<Stamped<T>>>, e: Entry<Stamped<T>>)
    ensures Erase(InsertSorted(list, e)) == InsertSorted(Erase(list), Entry(e.item.thread, e.key))
  {
    PlaceFound(Erase(list), e.key, Position(list, e.key));
  }

  lemma RunAppend<T>(events: seq<Event<T>>, e: Event<T>)
    ensures QueueRun(events + [e]) == QueueStep(QueueRun(events), e, |events|)
  {
    assert (events + [e])[..|events|] == events;
  }

  class Scheduler<T> {
    const readyList: List<T>
    ghost var events: seq<Event<T>>

    /** The list holds what the calls so far left in it. */
    ghost predicate Valid()
      reads this, readyList, readyList.footprint
    {
      readyList.Valid() && readyList.Contents() == Erase(QueueRun(events).list)
    }

    constructor ()
      ensures Valid() && events == []
      ensures fresh(readyList) && readyList.footprint == {}
    {
      readyList := new List();
      events := [];
    }

    method ReadyToRun(thread: T, priority: int)
      requires Valid()
      modifies this, readyList, readyList.footprint
      ensures Valid() && events == old(events) + [MadeReady(thread, priority)]
      ensures fresh(readyList.footprint - old(readyList.footprint))
    {
      RunAppend(events, MadeReady(thread, priority));
      InsertErased(QueueRun(events).list, Entry(Stamped(thread, |events|), priority));
      events := events + [MadeReady(thread, priority)];
      readyList.SortedInsert(thread, priority);
    }

    /** The thread returned is the one the pool would pick, NULL for an empty pool. */
    method FindNextToRun() returns (e: Option<Entry<T>>)
      requires Valid()
      modifies this, readyList
      ensures Valid() && events == old(events) + [Dispatch]
      ensures |QueueRun(events).picked| > 0
      ensures match QueueRun(events).picked[|QueueRun(events).picked| - 1]
              case None => e == None
              case Some(x) => e == Some(Entry(x.item.thread, x.key))
      ensures readyList.footprint == old(readyList.footprint)
    {
      RunAppend(events, Dispatch);
      ghost var list := QueueRun(events).list;
      assert list != [] ==> Erase(list[1..]) == Erase(list)[1..];
      events := events + [Dispatch];
      e := readyList.SortedRemove();
    }
  }
}
