/** Fetchers that wait for the same slot: what becomes of their records. */
module PipelineRaces {
  import opened Machine
  import opened Wrappers
  import opened RingBuffer
  import opened Pipeline
  import opened PipelineProgress
  import opened PipelineLimits
  import opened PipelineDeadlock
  import opened PipelineComplete

  function SourceTo(n: nat): (source: map<int, seq<byte>>)
    ensures forall o :: o in source <==> 0 <= o < n
    ensures forall o :: o in source ==> source[o] == []
  {
    if n == 0 then map[] else SourceTo(n - 1)[n - 1 := []]
  }

  /** A range from 0 without gaps, one offset to a fetcher. */
  function Singles(n: nat, capacity: int): Config {
    Config(capacity, 0, n, SourceTo(n), seq(n, i => Segment(i, i + 1)))
  }

  /** Fetcher f of a range of singles has not begun, waits, has passed the wait, or has put. */
  datatype Stand = Before | Waiting | Passed | After

  function StandOf(c: Config, o: int, stand: Stand): Fetcher
    requires o in c.source
  {
    match stand
    case Before => Fetcher(o, Poll)
    case Waiting => Fetcher(o, Wait(Rec(c, o)))
    case Passed => Fetcher(o, SlowWrite(Rec(c, o)))
    case After => Fetcher(o + 1, Poll)
  }

  ghost predicate Stands(n: nat, capacity: int, s: State, stands: seq<Stand>)
    requires |stands| == n && capacity > 0
  {
    var c := Singles(n, capacity);
    && Shape(c, s) && Reachable(c, s) && Resting(s)
    && forall f :: 0 <= f < n ==> s.fetchers[f] == StandOf(c, f, stands[f])
  }

  lemma Residue(o: nat, capacity: int)
    requires capacity > 0
    ensures SlotIndex(o, capacity) == o % capacity
  {
  }

  /** Fetcher f finds its slot filled and waits. */
  lemma Waits(n: nat, capacity: int, s: State, stands: seq<Stand>, f: nat) returns (s': State)
    requires |stands| == n && capacity > 0 && Stands(n, capacity, s, stands) && f < n && stands[f] == Before
    requires s.slots[f % capacity].state == Filled
    ensures Stands(n, capacity, s', stands[f := Waiting]) && s' == s.(fetchers := s'.fetchers)
  {
    hide SlotIndex, Reachable;
    var c := Singles(n, capacity);
    Residue(f, capacity);
    ReachStep(c, s, Deliver(f, f));
    s' := Apply(c, s, Deliver(f, f));
    ReachStep(c, s', Put(f));
    s' := Apply(c, s', Put(f));
  }

  /** It finds the slot empty and goes on to write. */
  lemma Passes(n: nat, capacity: int, s: State, stands: seq<Stand>, f: nat) returns (s': State)
    requires |stands| == n && capacity > 0 && Stands(n, capacity, s, stands) && f < n && stands[f] == Waiting
    requires s.slots[f % capacity].state == Empty
    ensures Stands(n, capacity, s', stands[f := Passed]) && s' == s.(fetchers := s'.fetchers)
  {
    hide SlotIndex, Reachable;
    var c := Singles(n, capacity);
    Residue(f, capacity);
    ReachStep(c, s, Put(f));
    s' := Apply(c, s, Put(f));
    ReachStep(c, s', Put(f));
    s' := Apply(c, s', Put(f));
  }

  /** It writes and stores, whatever is in the slot by now. */
  lemma Stores(n: nat, capacity: int, s: State, stands: seq<Stand>, f: nat) returns (s': State)
    requires |stands| == n && capacity > 0 && Stands(n, capacity, s, stands) && f < n && stands[f] == Passed
    ensures Stands(n, capacity, s', stands[f := After])
    ensures s' == s.(fetchers := s'.fetchers,
                     slots := s.slots[f % capacity := Slot(Filled, Some(Record(f, [])), f)])
  {
    hide SlotIndex, Reachable;
    var c := Singles(n, capacity);
    Residue(f, capacity);
    ReachStep(c, s, Put(f));
    s' := Apply(c, s, Put(f));
    ReachStep(c, s', Put(f));
    s' := Apply(c, s', Put(f));
    assert s'.slots == s.slots[f % capacity := Slot(Filled, Some(Record(f, [])), f)];
  }

  lemma Puts(n: nat, capacity: int, s: State, stands: seq<Stand>, f: nat) returns (s': State)
    requires |stands| == n && capacity > 0 && Stands(n, capacity, s, stands) && f < n && stands[f] == Before
    requires s.slots[f % capacity].state == Empty
    ensures Stands(n, capacity, s', stands[f := After])
    ensures s' == s.(fetchers := s'.fetchers,
                     slots := s.slots[f % capacity := Slot(Filled, Some(Record(f, [])), f)])
  {
    hide SlotIndex, Reachable;
    Residue(f, capacity);
    s' := PutNow(Singles(n, capacity), s, f, f);
  }

  lemma Drains(n: nat, capacity: int, s: State, stands: seq<Stand>) returns (s': State)
    requires |stands| == n && capacity > 0 && Stands(n, capacity, s, stands) && s.Next() >= 0
    requires s.slots[s.Next() % capacity].state == Filled
    ensures Stands(n, capacity, s', stands)
    ensures var i := s.Next() % capacity;
            && s'.Next() == s.Next() + 1 && s'.Output() == s.Output() + [s.slots[i].record]
            && s'.slots == s.slots[i := s.slots[i].(record := None, state := Empty)]
  {
    hide SlotIndex, Reachable;
    Residue(s.Next(), capacity);
    s' := TakesNext(Singles(n, capacity), s);
  }

  lemma SinglesFormed(n: nat, capacity: int)
    requires n > 0 && capacity > 0
    ensures WellFormed(Singles(n, capacity)) && Contiguous(Singles(n, capacity))
  {
  }

  lemma Begins(n: nat, capacity: int) returns (s: State)
    requires n > 0 && capacity > 0
    ensures Stands(n, capacity, s, seq(n, _ => Before)) && s.Next() == 0 && s.Output() == [] && |s.slots| == capacity
    ensures forall i :: 0 <= i < capacity ==> s.slots[i].state == Empty
  {
    hide Reachable;
    SinglesFormed(n, capacity);
    s := RestFirst(Singles(n, capacity));
  }

  lemma Settles(n: nat, capacity: int, s: State, stands: seq<Stand>) returns (s': State)
    requires |stands| == n && capacity > 0 && Stands(n, capacity, s, stands) && s.Next() >= 0
    requires s.slots[s.Next() % capacity].state == Empty
    ensures Stands(n, capacity, s', stands) && s'.drainer == Blocked && s'.slots == s.slots
    ensures s'.Next() == s.Next() && s'.emitted == s.Output()
  {
    hide SlotIndex, Reachable;
    Residue(s.Next(), capacity);
    s' := s;
    if s.drainer == Scan {
      s' := BatchEnds(Singles(n, capacity), s);
    }
  }

  // ---------------------------------------------------------------- a record is lost

  /** Two fetchers wait for the slot of offset 0, pass the wait together and store one after the other:
      the record of offset 1 is overwritten, and the pipeline stops of itself, without a failure, having
      emitted the other two. */
  lemma RaceLoses() returns (s: State)
    ensures var c := Singles(3, 1);
            && WellFormed(c) && Contiguous(c) && Shape(c, s) && Reachable(c, s) && StoppedByItself(s)
            && s.emitted == [Some(Record(0, c.source[0])), Some(Record(2, c.source[2]))]
  {
    hide Reachable, SlotIndex, Stands, Exact;
    SinglesFormed(3, 1);
    var stands := seq(3, _ => Before);
    s := Begins(3, 1);
    s := Puts(3, 1, s, stands, 0);
    stands := stands[0 := After];
    s := Waits(3, 1, s, stands, 1);
    stands := stands[1 := Waiting];
    s := Waits(3, 1, s, stands, 2);
    stands := stands[2 := Waiting];
    s := Drains(3, 1, s, stands);
    s := Passes(3, 1, s, stands, 1);
    stands := stands[1 := Passed];
    s := Passes(3, 1, s, stands, 2);
    stands := stands[2 := Passed];
    s := Stores(3, 1, s, stands, 1);
    stands := stands[1 := After];
    s := Stores(3, 1, s, stands, 2);
    stands := stands[2 := After];
    s := Drains(3, 1, s, stands);
    s := Settles(3, 1, s, stands);
    s := AllAfterStops(3, 1, s, stands);
  }

  lemma AllAfterStops(n: nat, capacity: int, s: State, stands: seq<Stand>) returns (s': State)
    requires |stands| == n > 0 && capacity > 0 && Stands(n, capacity, s, stands) && s.drainer == Blocked
    requires forall f :: 0 <= f < n ==> stands[f] == After
    requires forall i :: 0 <= i < capacity ==> s.slots[i].state == Empty
    ensures var c := Singles(n, capacity);
            Shape(c, s') && Reachable(c, s') && StoppedByItself(s') && s'.emitted == s.emitted
  {
    hide Reachable, SlotIndex;
    SinglesFormed(n, capacity);
    s' := SpentStops(Singles(n, capacity), s);
  }

  // ---------------------------------------------------------------- a deadlock without a gap

  /** Three fetchers pass the same wait, so that two records are lost and the drainer, four offsets
      from the end, looks into a slot that nobody will fill again, while the last fetcher waits for the
      other slot: without any gap in the source, a deadlock. */
  lemma LossDeadlocks()
    ensures var c := Singles(8, 2); WellFormed(c) && Contiguous(c) && CanDeadlock(c)
  {
    hide Reachable, SlotIndex, Stands, Deadlocked;
    SinglesFormed(8, 2);
    var s, stands := AfterTheRace();
    s := Puts(8, 2, s, stands, 1);
    stands := stands[1 := After];
    s := Drains(8, 2, s, stands);
    s := Drains(8, 2, s, stands);
    s := Puts(8, 2, s, stands, 3);
    stands := stands[3 := After];
    s := Drains(8, 2, s, stands);
    s := Puts(8, 2, s, stands, 5);
    stands := stands[5 := After];
    s := Waits(8, 2, s, stands, 7);
    stands := stands[7 := Waiting];
    s := Settles(8, 2, s, stands);
    s := LastWaits(8, 2, s, stands);
  }

  /** Offset 0 is drained and the records of 2, 4 and 6 are all in its slot, the last on top. */
  lemma AfterTheRace() returns (s: State, stands: seq<Stand>)
    ensures stands == [After, Before, After, Before, After, Before, After, Before]
    ensures Stands(8, 2, s, stands) && s.Next() == 1 && |s.slots| == 2
    ensures s.slots[0].state == Filled && s.slots[1].state == Empty
  {
    hide Reachable, SlotIndex, Stands;
    stands := seq(8, _ => Before);
    s := Begins(8, 2);
    s := Puts(8, 2, s, stands, 0);
    stands := stands[0 := After];
    s := Waits(8, 2, s, stands, 2);
    stands := stands[2 := Waiting];
    s := Waits(8, 2, s, stands, 4);
    stands := stands[4 := Waiting];
    s := Waits(8, 2, s, stands, 6);
    stands := stands[6 := Waiting];
    s := Drains(8, 2, s, stands);
    s := Passes(8, 2, s, stands, 2);
    stands := stands[2 := Passed];
    s := Passes(8, 2, s, stands, 4);
    stands := stands[4 := Passed];
    s := Passes(8, 2, s, stands, 6);
    stands := stands[6 := Passed];
    s := Stores(8, 2, s, stands, 2);
    stands := stands[2 := After];
    s := Stores(8, 2, s, stands, 4);
    stands := stands[4 := After];
    s := Stores(8, 2, s, stands, 6);
    stands := stands[6 := After];
  }

  /** All fetchers but the last leave, and nothing ordinary is left to do. */
  lemma LastWaits(n: nat, capacity: int, s: State, stands: seq<Stand>) returns (s': State)
    requires |stands| == n > 0 && capacity > 0 && Stands(n, capacity, s, stands)
    requires s.drainer == Blocked && s.Next() >= 0
    requires stands[n - 1] == Waiting && forall f :: 0 <= f < n - 1 ==> stands[f] == After
    requires s.slots[s.Next() % capacity].state == Empty && s.slots[(n - 1) % capacity].state == Filled
    ensures var c := Singles(n, capacity); Shape(c, s') && Reachable(c, s') && Deadlocked(c, s')
  {
    hide Reachable, SlotIndex;
    Residue(s.Next(), capacity);
    Residue(n - 1, capacity);
    s' := LeaveAll(Singles(n, capacity), s, n - 1);
    assert s'.fetchers[n - 1].pc.Wait?;
  }
}
