/** Exactly when a pipeline over a source without gaps emits all of it. */
module PipelineComplete {
  import opened Machine
  import opened Wrappers
  import opened RingBuffer
  import opened Pipeline
  import opened PipelineOrder
  import opened PipelineProgress
  import opened PipelineLimits

  /** No nil record among these; drainPartition cannot produce one. */
  ghost predicate NoNil(out: seq<Option<Record>>) {
    forall r :: r in out ==> r.Some?
  }

  /** Whatever the interleaving, a pipeline that stops of itself has emitted exactly the range. */
  ghost predicate AlwaysComplete(c: Config)
    requires c.capacity > 0
  {
    forall s :: Reachable(c, s) && StoppedByItself(s) && NoNil(s.emitted) ==>
      |s.emitted| == c.end - c.start && Exact(c, s.emitted, c.start)
  }

  lemma ExactNoNil(c: Config, out: seq<Option<Record>>)
    requires Exact(c, out, c.start)
    ensures NoNil(out)
  {
    forall r | r in out
      ensures r.Some?
    {
      var k :| 0 <= k < |out| && out[k] == r;
      assert out[c.start + k - c.start] == Some(Rec(c, c.start + k));
    }
  }

  // ---------------------------------------------------------------- macro steps

  /** The drainer is between two records, or waits for the first. */
  predicate Resting(s: State) {
    && !s.closed && !s.cancelled
    && ((s.drainer == Blocked && s.batch == []) || (s.drainer == Scan && s.batch != []))
  }

  ghost predicate SameFetchers(s: State, s': State) {
    s'.fetchers == s.fetchers && s'.closed == s.closed && s'.cancelled == s.cancelled
  }

  /** The drainer takes whatever fills its next slot. */
  lemma TakesNext(c: Config, s: State) returns (s': State)
    requires c.capacity > 0 && Shape(c, s) && Reachable(c, s) && Resting(s) && !Free(c, s, s.Next())
    ensures Shape(c, s') && Reachable(c, s') && Resting(s') && SameFetchers(s, s')
    ensures var i := At(c, s.Next());
            && s'.Next() == s.Next() + 1 && s'.Output() == s.Output() + [s.slots[i].record]
            && s'.slots == s.slots[i := s.slots[i].(record := None, state := Empty)]
  {
    hide SlotIndex, Reachable;
    s' := s;
    if s'.drainer == Scan && |s'.batch| >= DRAIN_BATCH {
      ReachStep(c, s', Drain);
      s' := DrainStep(c, s');
      ReachStep(c, s', Drain);
      s' := DrainStep(c, s');
    }
    if s'.drainer == Blocked {
      s' := TakesHead(c, s');
    } else {
      s' := TakesOn(c, s');
    }
  }

  lemma TakesOn(c: Config, s: State) returns (s': State)
    requires c.capacity > 0 && Shape(c, s) && Reachable(c, s) && s.drainer == Scan && |s.batch| < DRAIN_BATCH
    requires !Free(c, s, s.Next())
    ensures Shape(c, s') && Reachable(c, s')
    ensures var i := At(c, s.Next());
            s' == s.(batch := s.batch + [s.slots[i].record],
                     slots := s.slots[i := s.slots[i].(record := None, state := Empty)])
  {
    hide SlotIndex, Reachable;
    var i := At(c, s.Next());
    ReachStep(c, s, Drain);
    s' := DrainStep(c, s);
    ReachStep(c, s', Drain);
    s' := DrainStep(c, s');
    assert s'.slots == s.slots[i := s.slots[i].(record := None, state := Empty)];
  }

  /** A fetcher puts its next record into an empty slot. */
  lemma PutNow(c: Config, s: State, f: nat, x: int) returns (s': State)
    requires c.capacity > 0 && Shape(c, s) && Reachable(c, s) && f < |s.fetchers|
    requires s.fetchers[f] == Fetcher(x, Poll) && x in c.source && x < c.segments[f].to && Free(c, s, x)
    ensures Shape(c, s') && Reachable(c, s')
    ensures s' == Move(s, f, Fetcher(x + 1, Poll)).(slots := s.slots[At(c, x) := Slot(Filled, Some(Rec(c, x)), x)])
  {
    hide SlotIndex, Reachable;
    DeliverAndLoad(c, s, f, x, x);
    s' := Move(s, f, Fetcher(x, FastWrite(Rec(c, x))));
    WriteAndPublish(c, s', f, Rec(c, x));
    s' := Move(s', f, Fetcher(x + 1, Poll)).(slots := s.slots[At(c, x) := Slot(Filled, Some(Rec(c, x)), x)]);
    assert s'.fetchers == s.fetchers[f := Fetcher(x + 1, Poll)];
  }

  // ---------------------------------------------------------------- from the meeting to the end

  ghost predicate StandAt(c: Config, s: State, g: nat, n: int, q: int)
    requires Shape(c, s)
  {
    forall f :: 0 <= f < |s.fetchers| ==>
      s.fetchers[f] == Fetcher(Standing(c.segments[f], if f == g then q + 1 else n), Poll)
  }

  /** The drainer is about to take a record for `n`; put are all records before `n` and those that
      fetcher g reads up to `q`, and the latter say which slots are filled. What the slots hold may be
      one lap behind. */
  ghost predicate Stage(c: Config, s: State, g: nat, n: int, q: int)
    requires g < |c.segments|
  {
    && Shape(c, s) && Resting(s) && s.Next() == n && |s.Output()| == n - c.start
    && StandAt(c, s, g, n, q)
    && (forall i :: 0 <= i < c.capacity && s.slots[i].state == Filled ==> ParkedAt(c, c.segments[g], i, n, q + 1))
    && (forall p :: n <= p <= q && In(c.segments[g], p) && p in c.source ==> !Free(c, s, p))
  }

  /** No slot and no output holds a nil record. */
  ghost predicate Sound(s: State) {
    NoNil(s.Output()) && forall i :: 0 <= i < |s.slots| && s.slots[i].state == Filled ==> s.slots[i].record.Some?
  }

  /** A record has been taken for `n`; the other slots stay. */
  ghost predicate Took(c: Config, s: State, s': State, n: int)
    requires Shape(c, s) && Shape(c, s')
  {
    && |s'.Output()| == |s.Output()| + 1 && s'.Output()[..|s.Output()|] == s.Output()
    && (!Free(c, s, n) ==> s'.Output()[|s.Output()|] == s.slots[At(c, n)].record)
    && (forall i :: 0 <= i < c.capacity && i != At(c, n) ==> s'.slots[i] == s.slots[i])
    && (Sound(s) ==> Sound(s'))
  }

  lemma OwnersMove(c: Config, s: State, s': State, g: nat, h: nat, n: int, q: int)
    requires WellFormed(c) && Shape(c, s) && Shape(c, s') && g < |c.segments| && h < |c.segments| && h != g
    requires StandAt(c, s, g, n, q) && In(c.segments[h], n)
    requires s'.fetchers == s.fetchers[h := Fetcher(n + 1, Poll)]
    ensures StandAt(c, s', g, n + 1, q)
  {
    forall f | 0 <= f < |s'.fetchers|
      ensures s'.fetchers[f] == Fetcher(Standing(c.segments[f], if f == g then q + 1 else n + 1), Poll)
    {
      if f != h && In(c.segments[f], n) {
        SegmentsDisjoint(c, f, h, n);
      }
    }
  }

  /** If g has put `n`, its slot is filled, and taking it leaves g's later records. */
  lemma StageOwn(c: Config, s: State, g: nat, n: int, q: int) returns (s': State)
    requires WellFormed(c) && g < |c.segments| && c.start <= n <= q && In(c.segments[g], n) && n in c.source
    requires Stage(c, s, g, n, q) && Reachable(c, s) && Apart(c, c.segments[g], n, q + 1)
    ensures Stage(c, s', g, n + 1, q) && Reachable(c, s') && Took(c, s, s', n)
  {
    hide SlotIndex, Reachable;
    s' := TakesNext(c, s);
    forall f | 0 <= f < |s'.fetchers| && f != g
      ensures Standing(c.segments[f], n + 1) == Standing(c.segments[f], n)
    {
      if In(c.segments[f], n) {
        SegmentsDisjoint(c, f, g, n);
      }
    }
  }

  /** Otherwise its owner puts it: before the take into an empty slot, or after it where another record
      had the slot. */
  lemma StageOther(c: Config, s: State, g: nat, h: nat, n: int, q: int) returns (s': State)
    requires WellFormed(c) && g < |c.segments| && h < |c.segments| && h != g
    requires c.start <= n <= q && In(c.segments[h], n) && !In(c.segments[g], n) && n in c.source
    requires Stage(c, s, g, n, q) && Reachable(c, s)
    ensures Stage(c, s', g, n + 1, q) && Reachable(c, s') && Took(c, s, s', n)
  {
    hide SlotIndex, Reachable, Tiles;
    if Free(c, s, n) {
      s' := PutNow(c, s, h, n);
      s' := TakesNext(c, s');
    } else {
      s' := TakesNext(c, s);
      s' := PutNow(c, s', h, n);
    }
    OwnersMove(c, s, s', g, h, n, q);
    forall i | 0 <= i < c.capacity && s'.slots[i].state == Filled
      ensures ParkedAt(c, c.segments[g], i, n + 1, q + 1)
    {
      assert ParkedAt(c, c.segments[g], i, n, q + 1);
    }
  }

  lemma StageNext(c: Config, s: State, g: nat, n: int, q: int) returns (s': State)
    requires WellFormed(c) && Contiguous(c) && g < |c.segments| && c.start <= n <= q && In(c.segments[g], q)
    requires Stage(c, s, g, n, q) && Reachable(c, s) && Apart(c, c.segments[g], n, q + 1)
    ensures Stage(c, s', g, n + 1, q) && Reachable(c, s') && Took(c, s, s', n)
  {
    SegmentsDisjoint(c, g, g, q);
    var h := Owner(c, n);
    if h == g {
      s' := StageOwn(c, s, g, n, q);
    } else {
      if In(c.segments[g], n) {
        SegmentsDisjoint(c, g, h, n);
      }
      s' := StageOther(c, s, g, h, n, q);
    }
  }

  lemma {:induction false} StageTo(c: Config, s: State, g: nat, n: int, m: int, q: int) returns (s': State)
    requires WellFormed(c) && Contiguous(c) && g < |c.segments| && In(c.segments[g], q)
    requires c.start <= n <= m <= q + 1 && Stage(c, s, g, n, q) && Reachable(c, s)
    requires Apart(c, c.segments[g], n, q + 1)
    ensures Stage(c, s', g, m, q) && Reachable(c, s')
    ensures s.Output() <= s'.Output() && (Sound(s) ==> Sound(s'))
    ensures forall i :: 0 <= i < c.capacity && (forall p :: n <= p < m ==> At(c, p) != i) ==>
      s'.slots[i] == s.slots[i]
    decreases m - n
  {
    hide SlotIndex, Reachable, Tiles, ParkedAt, Sound;
    s' := s;
    if n < m {
      s' := StageNext(c, s, g, n, q);
      s' := StageTo(c, s', g, n + 1, m, q);
    }
  }

  /** Beyond `q` everything is as if nothing had happened. */
  lemma StageRests(c: Config, s: State, g: nat, q: int) returns (s': State)
    requires WellFormed(c) && g < |c.segments| && Stage(c, s, g, q + 1, q) && Reachable(c, s)
    ensures Rest(c, s', q + 1) && Reachable(c, s') && s'.emitted == s.Output()
  {
    hide SlotIndex, Reachable, Tiles;
    forall i | 0 <= i < c.capacity
      ensures s.slots[i].state == Empty
    {
      assert !ParkedAt(c, c.segments[g], i, q + 1, q + 1);
    }
    s' := s;
    if s.drainer == Scan {
      s' := BatchEnds(c, s);
    }
  }

  lemma {:induction false} RestTo(c: Config, s: State, o: int) returns (s': State)
    requires WellFormed(c) && Contiguous(c) && c.start <= o <= c.end && Rest(c, s, o) && Reachable(c, s)
    ensures Rest(c, s', c.end) && Reachable(c, s')
    ensures s.emitted <= s'.emitted && (NoNil(s.emitted) ==> NoNil(s'.emitted))
    decreases c.end - o
  {
    hide SlotIndex, Reachable, Tiles, Rest;
    s' := s;
    if o < c.end {
      s' := RestNext(c, s, o);
      s' := RestTo(c, s', o + 1);
    }
  }

  /** The first n fetchers, having read their segments, leave. */
  lemma {:induction false} LeaveAll(c: Config, s: State, n: nat) returns (s': State)
    requires WellFormed(c) && Shape(c, s) && Reachable(c, s) && n <= |s.fetchers|
    requires forall f :: 0 <= f < n ==> s.fetchers[f] == Fetcher(c.segments[f].to, Poll)
    ensures Shape(c, s') && Reachable(c, s') && s' == s.(fetchers := s'.fetchers)
    ensures forall f :: 0 <= f < |s.fetchers| ==>
      s'.fetchers[f] == if f < n then s.fetchers[f].(pc := Finished) else s.fetchers[f]
  {
    hide SlotIndex, Reachable;
    s' := s;
    if n > 0 {
      s' := LeaveAll(c, s, n - 1);
      ReachStep(c, s', Leave(n - 1));
      s' := Apply(c, s', Leave(n - 1));
    }
  }

  /** All has been read and the slots are empty. */
  ghost predicate Spent(c: Config, s: State) {
    && Shape(c, s) && s.drainer == Blocked && s.batch == [] && !s.closed && !s.cancelled
    && (forall i :: 0 <= i < c.capacity ==> s.slots[i].state == Empty)
    && (forall f :: 0 <= f < |s.fetchers| ==> s.fetchers[f] == Fetcher(c.segments[f].to, Poll))
  }

  lemma RestIsSpent(c: Config, s: State)
    requires WellFormed(c) && Rest(c, s, c.end)
    ensures Spent(c, s)
  {
    forall f | 0 <= f < |s.fetchers|
      ensures s.fetchers[f] == Fetcher(c.segments[f].to, Poll)
    {
      SegmentsDisjoint(c, f, f, c.segments[f].to - 1);
    }
  }

  /** Then the fetchers leave, the buffer is closed and the drainer stops. */
  lemma SpentStops(c: Config, s: State) returns (s': State)
    requires WellFormed(c) && Spent(c, s) && Reachable(c, s)
    ensures Shape(c, s') && Reachable(c, s') && StoppedByItself(s') && s'.emitted == s.emitted
  {
    s' := LeaveAll(c, s, |s.fetchers|);
    hide SlotIndex, Reachable;
    ReachStep(c, s', CloseAll);
    s' := Apply(c, s', CloseAll);
    ReachStep(c, s', Drain);
    s' := DrainStep(c, s');
    ReachStep(c, s', Drain);
    s' := DrainStep(c, s');
  }

  lemma StageStops(c: Config, s: State, g: nat, n: int, q: int) returns (s': State)
    requires WellFormed(c) && Contiguous(c) && g < |c.segments| && In(c.segments[g], q) && c.start <= n <= q + 1
    requires Stage(c, s, g, n, q) && Reachable(c, s) && Apart(c, c.segments[g], n, q + 1)
    ensures Shape(c, s') && Reachable(c, s') && StoppedByItself(s')
    ensures s.Output() <= s'.emitted && (Sound(s) ==> NoNil(s'.emitted))
  {
    SegmentsDisjoint(c, g, g, q);
    s' := StageTo(c, s, g, n, q + 1, q);
    s' := StageRests(c, s', g, q);
    s' := RestTo(c, s', q + 1);
    RestIsSpent(c, s');
    s' := SpentStops(c, s');
  }

  // ---------------------------------------------------------------- exactly when nothing is lost

  /** Everything before `o` drained and g's records up to `x` parked: g can go on to `q`. */
  lemma ParkedStage(c: Config, rest: State, s: State, g: nat, o: int, q: int)
    requires WellFormed(c) && Contiguous(c) && Rest(c, rest, o) && g < |rest.fetchers| && In(c.segments[g], q)
    requires c.start <= o <= q && Parked(c, rest, s, g, o, q + 1) && NoNil(rest.emitted)
    ensures Stage(c, s, g, o, q) && Sound(s)
  {
    hide SlotIndex, Tiles, ParkedAt;
    SegmentsDisjoint(c, g, g, q);
    assert q in c.source;
  }

  /** The fetcher of `q` has parked `q` in the slot of `o`. */
  lemma MeetingStage(c: Config, o: int, q: int) returns (g: nat, s: State)
    requires WellFormed(c) && Contiguous(c) && Meeting(c, o, q)
    ensures g < |c.segments| && In(c.segments[g], q) && Apart(c, c.segments[g], o, q + 1)
    ensures Stage(c, s, g, o, q) && Reachable(c, s) && Sound(s)
    ensures !Free(c, s, o) && s.slots[At(c, o)].record == Some(Rec(c, q))
  {
    hide Reachable, SlotIndex;
    var rest := RestAt(c, o);
    g := Owner(c, q);
    s := ParkUpTo(c, rest, g, o, q);
    s := ParkOne(c, rest, s, g, o, q);
    ExactNoNil(c, rest.emitted);
    ParkedStage(c, rest, s, g, o, q);
  }

  /** Two records that can meet make some run stop of itself, nil-free, without the one it displaced:
      from `o` to `q` every record is put and drained, possibly a lap late, and the rest as usual. */
  lemma MeetingSpoils(c: Config, o: int, q: int) returns (s: State)
    requires WellFormed(c) && Contiguous(c) && Meeting(c, o, q)
    ensures Shape(c, s) && Reachable(c, s) && StoppedByItself(s) && NoNil(s.emitted)
    ensures !Exact(c, s.emitted, c.start)
  {
    hide Reachable, SlotIndex, Tiles;
    var g;
    g, s := MeetingStage(c, o, q);
    s := StageNext(c, s, g, o, q);
    var out := s.Output();
    assert out[o - c.start] == Some(Rec(c, q));
    s := StageStops(c, s, g, o + 1, q);
    assert s.emitted[o - c.start] == out[o - c.start];
    assert Rec(c, o) != Rec(c, q);
  }

  /** Over a source without gaps: what every pipeline that stops of itself has emitted is exactly the
      range if and only if no two records can meet at the head. */
  lemma CompleteIff(c: Config)
    requires WellFormed(c) && Contiguous(c)
    ensures AlwaysComplete(c) <==> NoMeeting(c)
  {
    if NoMeeting(c) {
      forall s | Reachable(c, s) && StoppedByItself(s)
        ensures |s.emitted| == c.end - c.start && Exact(c, s.emitted, c.start)
      {
        var run :| Legal(c, Init(c), run) && Exec(c, Init(c), run) == s;
        CompleteIfOrderly(c, run);
      }
    } else {
      var o, q :| Meeting(c, o, q);
      var s := MeetingSpoils(c, o, q);
    }
  }

  // ---------------------------------------------------------------- nil records

  /** Two fetchers find the same slot empty; one publishes its record, the drainer takes what the other
      has meanwhile written over it and clears the slot, and the other's compare-and-swap then fills the
      cleared slot. */
  lemma RaceLeavesNil(c: Config, s: State, h: nat, g: nat, o: int, q: int) returns (s': State)
    requires c.capacity > 0 && Shape(c, s) && Reachable(c, s) && Resting(s) && s.Next() == o && Free(c, s, o)
    requires h < |s.fetchers| && g < |s.fetchers| && h != g && At(c, o) == At(c, q)
    requires s.fetchers[h] == Fetcher(o, Poll) && o in c.source && o < c.segments[h].to
    requires s.fetchers[g] == Fetcher(q, Poll) && q in c.source && q < c.segments[g].to
    ensures Shape(c, s') && Reachable(c, s') && Resting(s')
    ensures s'.Next() == o + 1 && s'.Output() == s.Output() + [Some(Rec(c, q))]
    ensures s'.fetchers == s.fetchers[h := Fetcher(o + 1, Poll)][g := Fetcher(q + 1, Poll)]
    ensures s'.slots == s.slots[At(c, o) := Slot(Filled, None, q)]
  {
    hide SlotIndex, Reachable;
    var i := At(c, o);
    DeliverAndLoad(c, s, h, o, o);
    s' := Move(s, h, Fetcher(o, FastWrite(Rec(c, o))));
    DeliverAndLoad(c, s', g, q, q);
    s' := Move(s', g, Fetcher(q, FastWrite(Rec(c, q))));
    WriteAndPublish(c, s', h, Rec(c, o));
    s' := Move(s', h, Fetcher(o + 1, Poll)).(slots := s'.slots[i := Slot(Filled, Some(Rec(c, o)), o)]);
    ReachStep(c, s', Put(g));
    s' := PutStep(c, s', g);
    assert s'.slots[i] == Slot(Filled, Some(Rec(c, q)), q);
    s' := TakesNext(c, s');
    assert s'.slots[i] == Slot(Empty, None, q);
    ReachStep(c, s', Put(g));
    s' := PutStep(c, s', g);
  }

  lemma OneLapOn(c: Config, o: int, q: int)
    requires c.capacity > 0 && o < q && At(c, o) == At(c, q)
    ensures o + c.capacity <= q && At(c, o + c.capacity) == At(c, o)
    ensures forall p :: o < p < o + c.capacity ==> At(c, p) != At(c, o)
  {
    SlotNextLap(o, c.capacity);
    forall p | o < p < o + c.capacity
      ensures At(c, p) != At(c, o)
    {
      if At(c, p) == At(c, o) {
        SlotInjective(p, o, c.capacity);
      }
    }
  }

  lemma NilStage(c: Config, o: int, q: int) returns (g: nat, s: State)
    requires WellFormed(c) && Contiguous(c) && Meeting(c, o, q)
    ensures g < |c.segments| && In(c.segments[g], q) && Apart(c, c.segments[g], o, q + 1)
    ensures Stage(c, s, g, o + 1, q) && Reachable(c, s)
    ensures s.slots[At(c, o)].state == Filled && s.slots[At(c, o)].record == None
  {
    hide Reachable, SlotIndex;
    var rest := RestAt(c, o);
    g := Owner(c, q);
    var h := Owner(c, o);
    s := ParkUpTo(c, rest, g, o, q);
    var t := s;
    SegmentsDisjoint(c, g, g, q);
    assert q in c.source && o in c.source;
    assert !In(c.segments[g], o);
    assert !ParkedAt(c, c.segments[g], At(c, q), o, q);
    var pos := s.fetchers[g].pos;
    assert c.segments[g].from <= Standing(c.segments[g], o) <= pos <= q;
    assert c.start <= c.segments[g].from;
    assert pos in c.source;
    assert s.fetchers[h] == Fetcher(o, Poll);
    s := RaceLeavesNil(c, s, h, g, o, q);
    OwnersMove(c, t.(fetchers := t.fetchers[g := Fetcher(q + 1, Poll)]), s, g, h, o, q);
    forall i | 0 <= i < c.capacity && s.slots[i].state == Filled
      ensures ParkedAt(c, c.segments[g], i, o + 1, q + 1)
    {
      if i != At(c, o) {
        assert ParkedAt(c, c.segments[g], i, o, q);
      }
    }
  }

  /** Some interleaving hands the drainer a nil record. */
  ghost predicate CanTakeNil(c: Config)
    requires c.capacity > 0
  {
    exists s :: Reachable(c, s) && !NoNil(s.Output())
  }

  lemma MeetingTakesNil(c: Config, o: int, q: int)
    requires WellFormed(c) && Contiguous(c) && Meeting(c, o, q)
    ensures CanTakeNil(c)
  {
    hide Reachable, SlotIndex, Tiles;
    var g, s := NilStage(c, o, q);
    var n := o + c.capacity;
    OneLapOn(c, o, q);
    s := StageTo(c, s, g, o + 1, n, q);
    s := TakesNext(c, s);
    assert s.Output()[|s.Output()| - 1] == None;
  }

  /** Over a source without gaps the drainer can be handed a nil record if and only if two records can
      meet at the head. */
  lemma NilIff(c: Config)
    requires WellFormed(c) && Contiguous(c)
    ensures CanTakeNil(c) <==> !NoMeeting(c)
  {
    if NoMeeting(c) {
      InOrderIff(c);
      forall s | Reachable(c, s)
        ensures NoNil(s.Output())
      {
        assert Exact(c, s.Output(), c.start);
        ExactNoNil(c, s.Output());
      }
    } else {
      var o, q :| Meeting(c, o, q);
      MeetingTakesNil(c, o, q);
    }
  }

  // ---------------------------------------------------------------- settings

  /** The pipeline that catchUpPartitionPipelined sets up over a source without gaps always emits
      exactly the range, and is never handed a nil record, if and only if the range fits the configured
      ring or a single fetcher is launched. */
  lemma PlanCompleteIff(start: int, end: int, workers: int, ring: int, source: map<int, seq<byte>>)
    requires start < end && workers >= 1 && ring > 0
    requires Contiguous(Plan(start, end, workers, ring, source))
    ensures AlwaysComplete(Plan(start, end, workers, ring, source)) <==>
      end - start <= ring || Effective(start, end, workers) == 1
    ensures CanTakeNil(Plan(start, end, workers, ring, source)) <==>
      !AlwaysComplete(Plan(start, end, workers, ring, source))
  {
    var c := Plan(start, end, workers, ring, source);
    hide AlwaysComplete, AlwaysInOrder, CanTakeNil, NoMeeting;
    CompleteIff(c);
    NilIff(c);
    InOrderIff(c);
    GaplessInOrderIff(start, end, workers, ring, source);
  }

  /** The settings that the engine starts a catch-up with are on the other side of that condition. */
  lemma DefaultsIncomplete(start: int, end: int, workers: int, source: map<int, seq<byte>>)
    requires end - start > 100000 && 2 <= workers <= 100
    requires Contiguous(Plan(start, end, workers, 16384, source))
    ensures !AlwaysComplete(Plan(start, end, workers, 16384, source))
    ensures CanTakeNil(Plan(start, end, workers, 16384, source))
  {
    var c := Plan(start, end, workers, 16384, source);
    hide AlwaysComplete, AlwaysInOrder, CanTakeNil, NoMeeting;
    DefaultsOvertake(start, end, workers, source);
    InOrderIff(c);
    CompleteIff(c);
    NilIff(c);
  }
}
