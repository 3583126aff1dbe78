/** Exactly when the pipeline keeps order in every interleaving. */
module PipelineLimits {
  import opened Machine
  import opened Wrappers
  import opened RingBuffer
  import opened Pipeline
  import opened PipelineOrder

  ghost predicate Reachable(c: Config, s: State)
    requires c.capacity > 0
  {
    exists run :: Legal(c, Init(c), run) && Exec(c, Init(c), run) == s
  }

  /** In no interleaving is a record taken out of order. */
  ghost predicate AlwaysInOrder(c: Config)
    requires c.capacity > 0
  {
    forall s :: Reachable(c, s) ==> Exact(c, s.Output(), c.start)
  }

  lemma ReachInit(c: Config)
    requires c.capacity > 0
    ensures Reachable(c, Init(c))
  {
    assert Legal(c, Init(c), []) && Exec(c, Init(c), []) == Init(c);
  }

  lemma ReachStep(c: Config, s: State, a: Action)
    requires c.capacity > 0 && Shape(c, s) && Reachable(c, s) && Enabled(c, s, a)
    ensures Reachable(c, Apply(c, s, a))
  {
    var run :| Legal(c, Init(c), run) && Exec(c, Init(c), run) == s;
    ExecOne(c, s, a);
    ExecJoin(c, Init(c), run, [a]);
  }

  // ---------------------------------------------------------------- everything before an offset

  lemma DeliverAndLoad(c: Config, s: State, f: nat, pos: int, o: int)
    requires c.capacity > 0 && Shape(c, s) && Reachable(c, s) && f < |s.fetchers|
    requires s.fetchers[f] == Fetcher(pos, Poll) && o in c.source && pos <= o < c.segments[f].to
    requires Free(c, s, o) && forall p :: pos <= p < o ==> p !in c.source
    ensures Reachable(c, Move(s, f, Fetcher(pos, FastWrite(Rec(c, o)))))
  {
    ReachStep(c, s, Deliver(f, o));
    var s1 := Apply(c, s, Deliver(f, o));
    assert s1 == Move(s, f, Fetcher(pos, Load(Rec(c, o))));
    ReachStep(c, s1, Put(f));
    assert Apply(c, s1, Put(f)) == Move(s, f, Fetcher(pos, FastWrite(Rec(c, o))));
  }

  lemma WriteAndPublish(c: Config, s: State, f: nat, r: Record)
    requires c.capacity > 0 && Shape(c, s) && Reachable(c, s) && f < |s.fetchers|
    requires s.fetchers[f].pc == FastWrite(r) && Free(c, s, r.offset)
    ensures Reachable(c, Move(s, f, Fetcher(r.offset + 1, Poll)).(
                           slots := s.slots[At(c, r.offset) := Slot(Filled, Some(r), r.offset)]))
  {
    var i := At(c, r.offset);
    ReachStep(c, s, Put(f));
    var s1 := Apply(c, s, Put(f));
    assert s1.slots[i] == Slot(Empty, Some(r), r.offset);
    ReachStep(c, s1, Put(f));
    var s2 := Apply(c, s1, Put(f));
    assert s2.slots == s.slots[i := Slot(Filled, Some(r), r.offset)];
    assert s2.fetchers == s.fetchers[f := Fetcher(r.offset + 1, Poll)];
  }

  /** The drainer takes whatever record fills its next slot. */
  lemma TakesHead(c: Config, s: State) returns (s': State)
    requires c.capacity > 0 && Shape(c, s) && Reachable(c, s) && s.drainer == Blocked && s.batch == []
    requires !s.cancelled && !Free(c, s, s.drainOffset)
    ensures var i := At(c, s.drainOffset);
            s' == s.(drainer := Scan, batch := [s.slots[i].record],
                     slots := s.slots[i := s.slots[i].(record := None, state := Empty)])
    ensures Reachable(c, s')
  {
    hide SlotIndex, Reachable;
    ReachStep(c, s, Drain);
    s' := s.(drainer := Checking);
    ReachStep(c, s', Drain);
    s' := s.(drainer := Scan);
    s' := TakesScanned(c, s');
  }

  lemma TakesScanned(c: Config, s: State) returns (s': State)
    requires c.capacity > 0 && Shape(c, s) && Reachable(c, s) && s.drainer == Scan && s.batch == []
    requires !Free(c, s, s.drainOffset)
    ensures var i := At(c, s.drainOffset);
            s' == s.(drainer := Scan, batch := [s.slots[i].record],
                     slots := s.slots[i := s.slots[i].(record := None, state := Empty)])
    ensures Reachable(c, s')
  {
    hide SlotIndex, Reachable;
    var i := At(c, s.drainOffset);
    ReachStep(c, s, Drain);
    s' := DrainStep(c, s);
    ReachStep(c, s', Drain);
    s' := DrainStep(c, s');
    assert s'.slots == s.slots[i := s.slots[i].(record := None, state := Empty)];
    assert s'.batch == [s.slots[i].record];
  }

  lemma BatchEnds(c: Config, s: State) returns (s': State)
    requires c.capacity > 0 && Shape(c, s) && Reachable(c, s) && s.drainer == Scan && s.batch != []
    requires !s.cancelled && Free(c, s, s.Next())
    ensures s' == s.(drainer := Blocked, drainOffset := s.Next(), emitted := s.emitted + s.batch, batch := [])
    ensures Reachable(c, s')
  {
    hide SlotIndex, Reachable;
    ReachStep(c, s, Drain);
    s' := DrainStep(c, s);
    ReachStep(c, s', Drain);
    s' := DrainStep(c, s');
  }

  /** Where fetcher f stands when exactly the offsets below `o` have been read. */
  function Standing(seg: Segment, o: int): int {
    if o <= seg.from then seg.from else if o >= seg.to then seg.to else o
  }

  /** Everything before `o` has been put and drained, and nothing else has happened. */
  ghost predicate Rest(c: Config, s: State, o: int) {
    && Shape(c, s)
    && s == State(s.slots, o, [], s.emitted, Blocked, s.fetchers, false, false)
    && |s.emitted| == o - c.start
    && (forall i :: 0 <= i < c.capacity ==> s.slots[i].state == Empty)
    && (forall f :: 0 <= f < |s.fetchers| ==> s.fetchers[f] == Fetcher(Standing(c.segments[f], o), Poll))
  }

  lemma RestFirst(c: Config) returns (s: State)
    requires WellFormed(c)
    ensures Rest(c, s, c.start) && Reachable(c, s)
  {
    hide Reachable;
    ReachInit(c);
    ReachStep(c, Init(c), Drain);
    s := DrainStep(c, Init(c));
    forall f | 0 <= f < |s.fetchers|
      ensures s.fetchers[f] == Fetcher(Standing(c.segments[f], c.start), Poll)
    {
      SegmentsDisjoint(c, f, f, c.segments[f].from);
    }
  }

  lemma RestNext(c: Config, s: State, o: int) returns (s': State)
    requires WellFormed(c) && c.start <= o < c.end && o in c.source && Rest(c, s, o) && Reachable(c, s)
    ensures Rest(c, s', o + 1) && Reachable(c, s') && s'.emitted == s.emitted + [Some(Rec(c, o))]
  {
    hide SlotIndex, Reachable;
    var f := Owner(c, o);
    var i := At(c, o);
    DeliverAndLoad(c, s, f, o, o);
    s' := Move(s, f, Fetcher(o, FastWrite(Rec(c, o))));
    WriteAndPublish(c, s', f, Rec(c, o));
    s' := Move(s', f, Fetcher(o + 1, Poll)).(slots := s.slots[i := Slot(Filled, Some(Rec(c, o)), o)]);
    s' := TakesHead(c, s');
    s' := BatchEnds(c, s');
    forall g | 0 <= g < |s'.fetchers|
      ensures s'.fetchers[g] == Fetcher(Standing(c.segments[g], o + 1), Poll)
    {
      if g != f && In(c.segments[g], o) {
        SegmentsDisjoint(c, f, g, o);
      }
    }
  }

  lemma {:induction false} RestAt(c: Config, o: int) returns (s: State)
    requires WellFormed(c) && c.start <= o <= c.end && forall p :: c.start <= p < o ==> p in c.source
    ensures Rest(c, s, o) && Reachable(c, s) && Exact(c, s.emitted, c.start)
    decreases o - c.start
  {
    if o == c.start {
      s := RestFirst(c);
    } else {
      s := RestAt(c, o - 1);
      s := RestNext(c, s, o - 1);
    }
  }

  // ---------------------------------------------------------------- parking beyond an offset

  /** From the rest at `o` fetcher f has put its records below `x`, each in a slot of its own. */
  ghost predicate Parked(c: Config, rest: State, s: State, f: nat, o: int, x: int)
    requires Shape(c, rest) && f < |rest.fetchers|
  {
    && Shape(c, s)
    && s == rest.(slots := s.slots, fetchers := rest.fetchers[f := Fetcher(s.fetchers[f].pos, Poll)])
    && rest.fetchers[f].pos <= s.fetchers[f].pos
    && (s.fetchers[f].pos <= x || s.fetchers[f].pos == rest.fetchers[f].pos)
    && (forall p :: s.fetchers[f].pos <= p < x ==> p !in c.source)
    && (forall i :: 0 <= i < c.capacity && s.slots[i].state == Filled ==>
          ParkedAt(c, c.segments[f], i, o, x) && s.slots[i].record.Some?)
    && (forall p :: o <= p < x && In(c.segments[f], p) && p in c.source ==> !Free(c, s, p))
  }

  ghost predicate ParkedAt(c: Config, seg: Segment, i: int, o: int, x: int)
    requires c.capacity > 0
  {
    exists p :: o <= p < x && In(seg, p) && p in c.source && At(c, p) == i
  }

  /** The next record of the fetcher is put if no parked one has its slot. */
  lemma ParkOne(c: Config, rest: State, s: State, f: nat, o: int, x: int) returns (s': State)
    requires WellFormed(c) && Rest(c, rest, o) && f < |rest.fetchers| && o <= x && In(c.segments[f], x) && x in c.source
    requires Parked(c, rest, s, f, o, x) && Reachable(c, s) && Apart(c, c.segments[f], o, x + 1)
    ensures Parked(c, rest, s', f, o, x + 1) && Reachable(c, s')
    ensures s'.slots[At(c, x)] == Slot(Filled, Some(Rec(c, x)), x)
  {
    hide SlotIndex, Reachable, Tiles;
    var i, pos := At(c, x), s.fetchers[f].pos;
    assert !ParkedAt(c, c.segments[f], i, o, x);
    DeliverAndLoad(c, s, f, pos, x);
    s' := Move(s, f, Fetcher(pos, FastWrite(Rec(c, x))));
    WriteAndPublish(c, s', f, Rec(c, x));
    s' := Move(s', f, Fetcher(x + 1, Poll)).(slots := s.slots[i := Slot(Filled, Some(Rec(c, x)), x)]);
    assert s'.fetchers == rest.fetchers[f := Fetcher(x + 1, Poll)];
    forall j | 0 <= j < c.capacity && s'.slots[j].state == Filled
      ensures ParkedAt(c, c.segments[f], j, o, x + 1) && s'.slots[j].record.Some?
    {
      assert j != i ==> ParkedAt(c, c.segments[f], j, o, x);
    }
  }

  lemma ApartBelow(c: Config, seg: Segment, lo: int, mid: int, hi: int)
    requires c.capacity > 0 && mid <= hi && Apart(c, seg, lo, hi)
    ensures Apart(c, seg, lo, mid)
  {
  }

  lemma {:induction false} ParkUpTo(c: Config, rest: State, f: nat, o: int, x: int) returns (s: State)
    requires WellFormed(c) && Rest(c, rest, o) && Reachable(c, rest) && f < |rest.fetchers|
    requires o <= x <= c.segments[f].to && Apart(c, c.segments[f], o, x)
    ensures Parked(c, rest, s, f, o, x) && Reachable(c, s)
    decreases x - o
  {
    hide SlotIndex, Reachable, Tiles, Apart;
    if x == o {
      s := rest;
      assert rest.fetchers[f := rest.fetchers[f]] == rest.fetchers;
    } else {
      ApartBelow(c, c.segments[f], o, x - 1, x);
      s := ParkUpTo(c, rest, f, o, x - 1);
      if x - 1 in c.source && In(c.segments[f], x - 1) {
        s := ParkOne(c, rest, s, f, o, x - 1);
      } else {
        forall i | ParkedAt(c, c.segments[f], i, o, x - 1)
          ensures ParkedAt(c, c.segments[f], i, o, x)
        {
        }
      }
    }
  }

  // ---------------------------------------------------------------- exactly when order is kept

  /** Two records that can meet at the head do so in some interleaving: everything before `o` is
      drained, the fetcher of `q` parks all it has up to `q`, and the drainer takes `q` for `o`. */
  lemma MeetingOvertakes(c: Config, o: int, q: int)
    requires WellFormed(c) && Meeting(c, o, q)
    ensures !AlwaysInOrder(c)
  {
    hide Reachable;
    var rest := RestAt(c, o);
    var f := Owner(c, q);
    var s := ParkUpTo(c, rest, f, o, q);
    s := ParkOne(c, rest, s, f, o, q);
    s := TakesHead(c, s);
    assert s.Output()[o - c.start] == Some(Rec(c, q));
    assert !Exact(c, s.Output(), c.start) by {
      assert o in c.source ==> Rec(c, o) != Rec(c, q);
    }
  }

  /** With any number of fetchers, any segments and any gaps, the pipeline emits in order in every
      interleaving if and only if no two records can meet at the head. */
  lemma InOrderIff(c: Config)
    requires WellFormed(c)
    ensures AlwaysInOrder(c) <==> NoMeeting(c)
  {
    if NoMeeting(c) {
      forall s | Reachable(c, s)
        ensures Exact(c, s.Output(), c.start)
      {
        var run :| Legal(c, Init(c), run) && Exec(c, Init(c), run) == s;
        OrderedIfOrderly(c, run);
      }
    } else {
      var o, q :| Meeting(c, o, q);
      MeetingOvertakes(c, o, q);
    }
  }

  // ---------------------------------------------------------------- one fetcher

  /** After the first gap `o` the record of `q` is one or more laps on, and the records in between
      have slots of their own. */
  ghost predicate LapsGap(c: Config, o: int, q: int)
    requires c.capacity > 0
  {
    && c.start <= o < q < c.end && (forall p :: c.start <= p < o ==> p in c.source)
    && o !in c.source && q in c.source && At(c, o) == At(c, q)
    && forall p, p' :: o < p < p' < q && p in c.source && p' in c.source ==> At(c, p) != At(c, p')
  }

  lemma {:induction false} FirstInSlot(c: Config, o: int, q: int) returns (r: int)
    requires c.capacity > 0 && o < q && q in c.source && At(c, o) == At(c, q)
    ensures o < r <= q && r in c.source && At(c, r) == At(c, o)
    ensures forall p :: o < p < r && p in c.source ==> At(c, p) != At(c, o)
    decreases q - o
  {
    hide SlotIndex;
    if p :| o < p < q && p in c.source && At(c, p) == At(c, o) {
      r := FirstInSlot(c, o, p);
    } else {
      r := q;
    }
  }

  /** A single fetcher keeps order if and only if no record laps the first gap. */
  lemma SingleInOrderIff(c: Config)
    requires WellFormed(c) && |c.segments| == 1
    ensures AlwaysInOrder(c) <==> forall o, q :: !LapsGap(c, o, q)
  {
    InOrderIff(c);
    hide SlotIndex, AlwaysInOrder;
    if o, q :| Meeting(c, o, q) {
      assert In(c.segments[0], q) && In(c.segments[0], o);
      assert forall p :: o < p < q ==> In(c.segments[0], p);
      assert LapsGap(c, o, q);
    }
    if o, q :| LapsGap(c, o, q) {
      var r := FirstInSlot(c, o, q);
      assert Apart(c, c.segments[0], o, r + 1);
      assert Meeting(c, o, r);
    }
  }

  /** With the first offset missing and a full lap of records behind it, one fetcher overtakes. */
  lemma GapOvertakes(start: int, end: int, workers: int, ring: int, source: map<int, seq<byte>>)
    requires start < end && workers >= 1 && ring > 0 && end - start > ring
    requires Effective(start, end, workers) == 1
    requires start !in source && forall o :: start < o <= start + ring ==> o in source
    ensures !AlwaysInOrder(Plan(start, end, workers, ring, source))
  {
    var c := Plan(start, end, workers, ring, source);
    SlotNextLap(start, ring);
    forall p, q | start < p < q < start + ring && At(c, p) == At(c, q)
      ensures false
    {
      SlotInjective(p, q, ring);
    }
    assert LapsGap(c, start, start + ring);
    SingleInOrderIff(c);
  }

  // ---------------------------------------------------------------- sources without gaps

  lemma ApartInWindow(c: Config, seg: Segment, lo: int, hi: int)
    requires c.capacity > 0 && hi - seg.from <= c.capacity
    ensures Apart(c, seg, lo, hi)
  {
    forall p, q | lo <= p < q < hi && In(seg, p) && In(seg, q) && At(c, p) == At(c, q)
      ensures false
    {
      SlotInjective(p, q, c.capacity);
    }
  }

  lemma MeetsStart(c: Config, f: nat, q: int, laps: int)
    requires WellFormed(c) && Contiguous(c) && f < |c.segments| && In(c.segments[f], q)
    requires c.start < q == c.start + laps * c.capacity && q < c.segments[f].from + c.capacity
    ensures Meeting(c, c.start, q)
  {
    SegmentsDisjoint(c, f, f, q);
    SameSlot(q, c.start, c.capacity);
    hide SlotIndex;
    forall g | 0 <= g < |c.segments| && In(c.segments[g], q)
      ensures Apart(c, c.segments[g], c.start, q + 1)
    {
      SegmentsDisjoint(c, f, g, q);
      ApartInWindow(c, c.segments[f], c.start, q + 1);
    }
  }

  /** With several fetchers and a range beyond the ring some record can meet the first one. */
  lemma WideMeets(start: int, end: int, workers: int, ring: int, source: map<int, seq<byte>>)
    requires start < end && workers >= 1 && ring > 0 && end - start > ring
    requires Effective(start, end, workers) > 1
    requires Contiguous(Plan(start, end, workers, ring, source))
    ensures !NoMeeting(Plan(start, end, workers, ring, source))
  {
    hide SlotIndex;
    var c := Plan(start, end, workers, ring, source);
    var size := SegmentSize(start, end, workers);
    SegmentFits(start, end, workers, 1);
    assert c.segments[1].from == start + size;
    if size < ring {
      var q := start + ring;
      var f := Owner(c, q);
      if f > 1 {
        SegmentsAscend(c.segments, start, end, 1, f);
      }
      MeetsStart(c, f, q, 1);
    } else {
      var q := NextLap(start + size, start, ring);
      var laps := (q - start) / ring;
      DivMod(q - start, ring);
      assert c.segments[1].to >= start + size + size;
      MeetsStart(c, 1, q, laps);
    }
  }

  lemma NextLap(from: int, start: int, ring: int) returns (q: int)
    requires ring > 0
    ensures from <= q < from + ring && (q - start) % ring == 0
  {
    DivMod(start - from, ring);
    q := from + (start - from) % ring;
    var k := (start - from) / ring;
    assert q - start == (-k) * ring;
    DivMod(q - start, ring);
    var d := (q - start) / ring;
    assert (q - start) % ring == (-k - d) * ring;
    MulApart(-k - d, ring);
  }

  lemma GaplessNoMeeting(c: Config)
    requires WellFormed(c) && (FitsRing(c) || SingleContiguous(c))
    ensures NoMeeting(c)
  {
    forall o, q
      ensures !Meeting(c, o, q)
    {
      if c.start <= o < q < c.end && At(c, o) == At(c, q) {
        if FitsRing(c) {
          SlotInjective(o, q, c.capacity);
        } else {
          assert In(c.segments[0], o) && In(c.segments[0], q) && o in c.source;
        }
      }
    }
  }

  /** Over a source without gaps the pipeline that catchUpPartitionPipelined sets up keeps order in
      every interleaving if and only if the range fits the configured ring or a single fetcher is
      launched. */
  lemma GaplessInOrderIff(start: int, end: int, workers: int, ring: int, source: map<int, seq<byte>>)
    requires start < end && workers >= 1 && ring > 0
    requires Contiguous(Plan(start, end, workers, ring, source))
    ensures AlwaysInOrder(Plan(start, end, workers, ring, source)) <==>
      end - start <= ring || Effective(start, end, workers) == 1
  {
    var c := Plan(start, end, workers, ring, source);
    InOrderIff(c);
    hide SlotIndex, AlwaysInOrder, NoMeeting;
    if end - start <= ring || Effective(start, end, workers) == 1 {
      GaplessNoMeeting(c);
    } else {
      WideMeets(start, end, workers, ring, source);
    }
  }

  /** The settings that the engine starts a catch-up with, a range of more than 100000 offsets, the
      default ring of 16384 slots and 2 to 100 workers, are on the other side of that condition. */
  lemma DefaultsOvertake(start: int, end: int, workers: int, source: map<int, seq<byte>>)
    requires end - start > 100000 && 2 <= workers <= 100
    requires Contiguous(Plan(start, end, workers, 16384, source))
    ensures !AlwaysInOrder(Plan(start, end, workers, 16384, source))
  {
    DivMod(end - start, workers);
    var size := SegmentSize(start, end, workers);
    MulLe(if size < MIN_SEGMENT then size else 0, MIN_SEGMENT - 1, workers);
    GaplessInOrderIff(start, end, workers, 16384, source);
  }
}
