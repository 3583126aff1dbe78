/** Order of the pipeline: what every interleaving keeps while no two records meet at the drainer. */
module PipelineOrder {
  import opened Wrappers
  import opened RingBuffer
  import opened Pipeline

  // ---------------------------------------------------------------- segments

  ghost predicate In(seg: Segment, o: int) {
    seg.from <= o < seg.to
  }

  lemma {:induction false} OwnerUpTo(segments: seq<Segment>, start: int, end: int, o: int, n: nat) returns (f: nat)
    requires Tiles(segments, start, end) && 0 < n <= |segments| && start <= o < segments[n - 1].to
    ensures f < n && In(segments[f], o)
  {
    if segments[n - 1].from <= o {
      f := n - 1;
    } else {
      f := OwnerUpTo(segments, start, end, o, n - 1);
    }
  }

  lemma Owner(c: Config, o: int) returns (f: nat)
    requires WellFormed(c) && c.start <= o < c.end
    ensures f < |c.segments| && In(c.segments[f], o)
  {
    f := OwnerUpTo(c.segments, c.start, c.end, o, |c.segments|);
  }

  lemma {:induction false} SegmentsAscend(segments: seq<Segment>, start: int, end: int, f: nat, g: nat)
    requires Tiles(segments, start, end) && f < g < |segments|
    ensures segments[f].to <= segments[g].from
    decreases g
  {
    if f + 1 < g {
      SegmentsAscend(segments, start, end, f, g - 1);
    }
  }

  /** Segments are disjoint and lie in the range. */
  lemma SegmentsDisjoint(c: Config, f: nat, g: nat, o: int)
    requires WellFormed(c) && f < |c.segments| && g < |c.segments|
    requires In(c.segments[f], o)
    ensures c.start <= o < c.end
    ensures In(c.segments[g], o) ==> f == g
  {
    var last := |c.segments| - 1;
    if f < last {
      SegmentsAscend(c.segments, c.start, c.end, f, last);
    }
    if 0 < f {
      SegmentsAscend(c.segments, c.start, c.end, 0, f);
    }
    if f < g {
      SegmentsAscend(c.segments, c.start, c.end, f, g);
    }
    if g < f {
      SegmentsAscend(c.segments, c.start, c.end, g, f);
    }
  }

  // ---------------------------------------------------------------- which records can meet

  /** The source records of a segment at offsets in [lo, hi) have slots of their own. */
  ghost predicate Apart(c: Config, seg: Segment, lo: int, hi: int)
    requires c.capacity > 0
  {
    forall p, q :: lo <= p < q < hi && In(seg, p) && In(seg, q) && p in c.source && q in c.source ==>
      At(c, p) != At(c, q)
  }

  /** The drainer can get as far as `o` and then find the record of `q` in the slot of `o`: the source
      has no gap before `o`, the two share a slot, and the fetcher of `q` can park everything it reads
      from `o` to `q`. A condition on the source, the ring and the segments alone. */
  ghost predicate Meeting(c: Config, o: int, q: int)
    requires c.capacity > 0
  {
    && c.start <= o < q < c.end && q in c.source && At(c, o) == At(c, q)
    && (forall p :: c.start <= p < o ==> p in c.source)
    && forall f :: 0 <= f < |c.segments| && In(c.segments[f], q) ==> Apart(c, c.segments[f], o, q + 1)
  }

  ghost predicate NoMeeting(c: Config)
    requires c.capacity > 0
  {
    forall o, q :: !Meeting(c, o, q)
  }

  // ---------------------------------------------------------------- the invariant

  /** The offset has been put by the fetcher of its segment. */
  ghost predicate IsPut(c: Config, s: State, o: int)
    requires Shape(c, s)
  {
    forall f :: 0 <= f < |s.fetchers| && In(c.segments[f], o) ==> o < s.fetchers[f].pos
  }

  /** A put, undrained record that belongs into slot i. */
  ghost predicate PutAt(c: Config, s: State, i: int, o: int)
    requires Shape(c, s)
  {
    s.Next() <= o && o in c.source && c.start <= o < c.end && IsPut(c, s, o) && At(c, o) == i
  }

  /** The fetcher of `q` has come as far as `q` and has not put another record into its slot. */
  ghost predicate Reached(c: Config, s: State, q: int)
    requires Shape(c, s)
  {
    && q in c.source && c.start <= q < c.end
    && forall f :: 0 <= f < |s.fetchers| && In(c.segments[f], q) ==>
         && (forall p :: s.fetchers[f].pos <= p < q ==> p !in c.source)
         && Apart(c, c.segments[f], s.Next(), q + 1)
  }

  /** What has been written into slot i, by whichever fetcher was last, is an undrained record. */
  ghost predicate ContentOk(c: Config, s: State, i: int)
    requires Shape(c, s) && 0 <= i < c.capacity
  {
    var slot := s.slots[i];
    && At(c, slot.offset) == i && s.Next() <= slot.offset && Reached(c, s, slot.offset)
    && slot.record == if s.drainer.Taken? && i == At(c, s.Next()) then None else Some(Rec(c, slot.offset))
  }

  ghost predicate FetcherOk(c: Config, s: State, f: nat)
    requires Shape(c, s) && f < |s.fetchers|
  {
    var me, seg := s.fetchers[f], c.segments[f];
    && seg.from <= me.pos <= seg.to
    && (s.Next() <= me.pos || seg.to <= me.pos || s.Next() <= seg.from)
    && Apart(c, seg, s.Next(), me.pos)
    && (me.pc.Pending() ==>
          && me.pos <= me.pc.r.offset < seg.to
          && me.pc.r.offset in c.source && me.pc.r == Rec(c, me.pc.r.offset)
          && forall p :: me.pos <= p < me.pc.r.offset ==> p !in c.source)
    && (me.pc.Writing() || (me.pc.Check? && !s.closed && !s.cancelled) ==>
          Apart(c, seg, s.Next(), me.pc.r.offset + 1))
    && (me.pc.Written() ==> ContentOk(c, s, At(c, me.pc.r.offset)))
  }

  ghost predicate SlotOk(c: Config, s: State, i: int)
    requires Shape(c, s) && 0 <= i < c.capacity
  {
    s.slots[i].state == Filled ==> ContentOk(c, s, i) && exists o :: PutAt(c, s, i, o)
  }

  /** The slot of a put, undrained record is filled. */
  ghost predicate Buffered(c: Config, s: State, o: int)
    requires Shape(c, s)
  {
    PutAt(c, s, At(c, o), o) ==> !Free(c, s, o)
  }

  ghost predicate DrainerOk(c: Config, s: State)
    requires Shape(c, s)
  {
    && c.start <= s.Next() <= c.end
    && |s.Output()| == s.Next() - c.start
    && Exact(c, s.Output(), c.start)
    && (s.drainer.Taken? ==>
          && |s.batch| < DRAIN_BATCH && !Free(c, s, s.Next())
          && s.Next() in c.source && s.drainer.rec == Some(Rec(c, s.Next())))
    && (!s.drainer.Taken? && s.drainer != Scan ==> s.batch == [])
    && (s.drainer == Checking ==> !Free(c, s, s.Next()) || s.closed || s.cancelled)
    && (s.drainer == Scan && s.batch == [] ==> !Free(c, s, s.Next()))
  }

  ghost predicate Inv(c: Config, s: State) {
    && WellFormed(c) && Shape(c, s)
    && (forall f :: 0 <= f < |s.fetchers| ==> FetcherOk(c, s, f))
    && (forall i :: 0 <= i < c.capacity ==> SlotOk(c, s, i))
    && (forall o :: c.start <= o < c.end ==> Buffered(c, s, o))
    && DrainerOk(c, s)
  }

  /** Nobody has put, is writing or has written any other record into the slot of the drainer's next
      offset than the record of that offset. */
  ghost predicate Clean(c: Config, s: State)
    requires Shape(c, s)
  {
    && (forall f :: 0 <= f < |s.fetchers| && s.fetchers[f].pc.Writing() ==>
          At(c, s.fetchers[f].pc.r.offset) == At(c, s.Next()) ==> s.fetchers[f].pc.r.offset == s.Next())
    && (forall o :: PutAt(c, s, At(c, s.Next()), o) ==> o == s.Next())
    && (!Free(c, s, s.Next()) ==> s.slots[At(c, s.Next())].offset == s.Next())
  }

  lemma InvInit(c: Config)
    requires WellFormed(c)
    ensures Inv(c, Init(c))
  {
    var s := Init(c);
    forall o | c.start <= o < c.end
      ensures Buffered(c, s, o)
    {
      var f := Owner(c, o);
      assert !(o < s.fetchers[f].pos);
    }
    forall f | 0 <= f < |s.fetchers|
      ensures FetcherOk(c, s, f)
    {
      SegmentsDisjoint(c, f, f, c.segments[f].from);
    }
  }

  lemma PendingAhead(c: Config, s: State, f: nat)
    requires Inv(c, s) && f < |s.fetchers| && s.fetchers[f].pc.Pending()
    ensures s.Next() <= s.fetchers[f].pc.r.offset && c.start <= s.fetchers[f].pc.r.offset < c.end
    ensures In(c.segments[f], s.fetchers[f].pc.r.offset)
  {
    assert FetcherOk(c, s, f);
    SegmentsDisjoint(c, f, f, s.fetchers[f].pc.r.offset);
  }

  /** An offset below its fetcher's position has been put. */
  lemma PutIfPassed(c: Config, s: State, f: nat, o: int)
    requires WellFormed(c) && Shape(c, s) && f < |s.fetchers| && In(c.segments[f], o) && o < s.fetchers[f].pos
    ensures c.start <= o < c.end && IsPut(c, s, o)
  {
    forall g | 0 <= g < |s.fetchers| && In(c.segments[g], o)
      ensures o < s.fetchers[g].pos
    {
      SegmentsDisjoint(c, f, g, o);
    }
    SegmentsDisjoint(c, f, f, o);
  }

  /** A pending record that finds its slot empty shares it with no record its fetcher has put. */
  lemma FreeIsApart(c: Config, s: State, f: nat)
    requires Inv(c, s) && f < |s.fetchers| && s.fetchers[f].pc.Pending() && Free(c, s, s.fetchers[f].pc.r.offset)
    ensures Apart(c, c.segments[f], s.Next(), s.fetchers[f].pc.r.offset + 1)
  {
    hide SlotIndex;
    var me, seg := s.fetchers[f], c.segments[f];
    var o := me.pc.r.offset;
    assert FetcherOk(c, s, f);
    forall p, q | s.Next() <= p < q < o + 1 && In(seg, p) && In(seg, q) && p in c.source && q in c.source
      ensures At(c, p) != At(c, q)
    {
      assert p < me.pos;
      PutIfPassed(c, s, f, p);
      assert Buffered(c, s, p);
    }
  }

  // ---------------------------------------------------------------- what later states keep

  /** The drainer and the fetchers only move on. */
  ghost predicate Later(c: Config, s: State, s': State)
    requires Shape(c, s) && Shape(c, s')
  {
    && s.Next() <= s'.Next()
    && forall f :: 0 <= f < |s.fetchers| ==> s.fetchers[f].pos <= s'.fetchers[f].pos
  }

  lemma ReachedStays(c: Config, s: State, s': State, q: int)
    requires Shape(c, s) && Shape(c, s') && Later(c, s, s') && Reached(c, s, q)
    ensures Reached(c, s', q)
  {
    hide SlotIndex;
  }

  lemma ContentStays(c: Config, s: State, s': State, i: int)
    requires Shape(c, s) && Shape(c, s') && Later(c, s, s') && 0 <= i < c.capacity && ContentOk(c, s, i)
    requires s'.slots[i].record == s.slots[i].record && s'.slots[i].offset == s.slots[i].offset
    requires s'.Next() == s.Next() && s'.drainer.Taken? == s.drainer.Taken?
    ensures ContentOk(c, s', i)
  {
    hide SlotIndex;
    ReachedStays(c, s, s', s.slots[i].offset);
  }

  lemma PutStays(c: Config, s: State, s': State, i: int)
    requires Shape(c, s) && Shape(c, s') && Later(c, s, s') && s'.Next() == s.Next()
    ensures (exists o :: PutAt(c, s, i, o)) ==> exists o :: PutAt(c, s', i, o)
  {
    hide SlotIndex;
    if o :| PutAt(c, s, i, o) {
      assert PutAt(c, s', i, o);
    }
  }

  /** While Next stays, whatever is written into a slot stays good, and so do all fetchers but one
      that moves, if any does. */
  lemma OthersStay(c: Config, s: State, f: int, s': State)
    requires Inv(c, s) && Shape(c, s') && Later(c, s, s')
    requires s'.Next() == s.Next() && s'.drainer.Taken? == s.drainer.Taken?
    requires s'.slots == s.slots && (s.closed ==> s'.closed) && (s.cancelled ==> s'.cancelled)
    requires forall g :: 0 <= g < |s.fetchers| && g != f ==> s'.fetchers[g] == s.fetchers[g]
    ensures forall g :: 0 <= g < |s.fetchers| && g != f ==> FetcherOk(c, s', g)
    ensures forall i :: 0 <= i < c.capacity ==> SlotOk(c, s', i)
  {
    hide SlotIndex;
    forall g | 0 <= g < |s.fetchers| && g != f
      ensures FetcherOk(c, s', g)
    {
      assert FetcherOk(c, s, g);
      if s.fetchers[g].pc.Written() {
        ContentStays(c, s, s', At(c, s.fetchers[g].pc.r.offset));
      }
    }
    forall i | 0 <= i < c.capacity
      ensures SlotOk(c, s', i)
    {
      assert SlotOk(c, s, i);
      if s.slots[i].state == Filled {
        ContentStays(c, s, s', i);
        PutStays(c, s, s', i);
      }
    }
  }

  // ---------------------------------------------------------------- one lemma per kind of step

  /** Flags only go up and one fetcher moves on, skipping no source record. */
  lemma KeptByMove(c: Config, s: State, f: nat, me: Fetcher, s': State)
    requires Inv(c, s) && f < |s.fetchers|
    requires s.fetchers[f].pos <= me.pos <= c.segments[f].to
    requires forall p :: s.fetchers[f].pos <= p < me.pos ==> p !in c.source
    requires s' == Move(s, f, me).(closed := s'.closed, cancelled := s'.cancelled)
    requires (s.closed ==> s'.closed) && (s.cancelled ==> s'.cancelled)
    requires FetcherOk(c, s', f)
    ensures Inv(c, s')
  {
    hide SlotIndex;
    OthersStay(c, s, f, s');
    assert s'.Output() == s.Output();
    forall o | c.start <= o < c.end
      ensures Buffered(c, s', o)
    {
      assert Buffered(c, s, o);
      if PutAt(c, s', At(c, o), o) {
        forall g | 0 <= g < |s.fetchers| && In(c.segments[g], o)
          ensures o < s.fetchers[g].pos
        {
          assert o < s'.fetchers[g].pos;
        }
      }
    }
  }

  lemma KeptByFlags(c: Config, s: State, s': State)
    requires Inv(c, s) && s' == s.(closed := s'.closed, cancelled := s'.cancelled)
    requires (s.closed ==> s'.closed) && (s.cancelled ==> s'.cancelled)
    ensures Inv(c, s')
  {
    hide SlotIndex;
    OthersStay(c, s, -1, s');
    assert Move(s, 0, s.fetchers[0]) == s;
    assert FetcherOk(c, s, 0);
    KeptByMove(c, s, 0, s.fetchers[0], s');
  }

  /** If the drainer's next slot is filled, then by the next record, which is put. */
  lemma HeadIsNext(c: Config, s: State)
    requires Inv(c, s) && Clean(c, s) && !Free(c, s, s.Next())
    ensures PutAt(c, s, At(c, s.Next()), s.Next())
    ensures !s.drainer.Taken? ==> s.slots[At(c, s.Next())].record == Some(Rec(c, s.Next()))
  {
    hide SlotIndex;
    var i := At(c, s.Next());
    assert SlotOk(c, s, i);
    var o :| PutAt(c, s, i, o);
    assert o == s.Next();
  }

  /** Whoever is writing into the drainer's next slot while it is filled has nothing left to write. */
  lemma NobodyAtHead(c: Config, s: State, f: nat)
    requires Inv(c, s) && Clean(c, s) && !Free(c, s, s.Next()) && f < |s.fetchers| && s.fetchers[f].pc.Writing()
    ensures At(c, s.fetchers[f].pc.r.offset) != At(c, s.Next())
  {
    hide SlotIndex;
    HeadIsNext(c, s);
    PendingAhead(c, s, f);
    assert FetcherOk(c, s, f);
  }

  lemma KeptByWrite(c: Config, s: State, f: nat)
    requires Inv(c, s) && Clean(c, s) && f < |s.fetchers|
    requires s.fetchers[f].pc.FastWrite? || s.fetchers[f].pc.SlowWrite?
    ensures Inv(c, PutStep(c, s, f))
  {
    hide SlotIndex, Apart, Reached, ContentOk;
    var s' := PutStep(c, s, f);
    var o := s.fetchers[f].pc.r.offset;
    assert s'.Output() == s.Output();
    WrittenContent(c, s, f);
    forall g | 0 <= g < |s'.fetchers|
      ensures FetcherOk(c, s', g)
    {
      assert FetcherOk(c, s, g);
      if g != f && s.fetchers[g].pc.Written() && At(c, s.fetchers[g].pc.r.offset) != At(c, o) {
        ContentStays(c, s, s', At(c, s.fetchers[g].pc.r.offset));
      }
    }
    forall i | 0 <= i < c.capacity
      ensures SlotOk(c, s', i)
    {
      assert SlotOk(c, s, i);
      PutStays(c, s, s', i);
      if i != At(c, o) && s.slots[i].state == Filled {
        ContentStays(c, s, s', i);
      }
    }
    forall p | c.start <= p < c.end
      ensures Buffered(c, s', p)
    {
      assert Buffered(c, s, p);
    }
  }

  lemma WrittenContent(c: Config, s: State, f: nat)
    requires Inv(c, s) && Clean(c, s) && f < |s.fetchers|
    requires s.fetchers[f].pc.FastWrite? || s.fetchers[f].pc.SlowWrite?
    ensures ContentOk(c, PutStep(c, s, f), At(c, s.fetchers[f].pc.r.offset))
  {
    hide SlotIndex;
    var s' := PutStep(c, s, f);
    var o := s.fetchers[f].pc.r.offset;
    PendingAhead(c, s, f);
    assert FetcherOk(c, s, f);
    if s.drainer.Taken? {
      NobodyAtHead(c, s, f);
    }
    forall g | 0 <= g < |s.fetchers| && In(c.segments[g], o)
      ensures g == f
    {
      SegmentsDisjoint(c, f, g, o);
    }
    assert Reached(c, s', o);
  }

  /** Publishing puts exactly the pending record. */
  lemma PutByPublish(c: Config, s: State, f: nat, p: int)
    requires Inv(c, s) && f < |s.fetchers| && s.fetchers[f].pc.Written() && p in c.source
    ensures var o := s.fetchers[f].pc.r.offset;
            IsPut(c, Move(s, f, Fetcher(o + 1, Poll)), p) ==> IsPut(c, s, p) || p == o
  {
    assert FetcherOk(c, s, f);
    var t := Move(s, f, Fetcher(s.fetchers[f].pc.r.offset + 1, Poll));
    if IsPut(c, t, p) && p != s.fetchers[f].pc.r.offset {
      forall g | 0 <= g < |s.fetchers| && In(c.segments[g], p)
        ensures p < s.fetchers[g].pos
      {
        assert p < t.fetchers[g].pos;
      }
    }
  }

  lemma KeptByPublish(c: Config, s: State, f: nat, s': State)
    requires Inv(c, s) && f < |s.fetchers| && s.fetchers[f].pc.Written()
    requires var r := s.fetchers[f].pc.r; var i := At(c, r.offset);
             s' == Move(s, f, Fetcher(r.offset + 1, Poll)).(slots := s.slots[i := s.slots[i].(state := Filled)])
    ensures Inv(c, s')
  {
    hide SlotIndex, Apart, Reached, ContentOk;
    var o := s.fetchers[f].pc.r.offset;
    var t := Move(s, f, Fetcher(o + 1, Poll));
    PendingAhead(c, s, f);
    assert FetcherOk(c, s, f);
    OthersStay(c, s, f, t);
    assert s'.Output() == s.Output();
    PutIfPassed(c, s', f, o);
    assert PutAt(c, s', At(c, o), o);
    forall i | 0 <= i < c.capacity
      ensures SlotOk(c, s', i)
    {
      assert SlotOk(c, t, i);
      PutStays(c, t, s', i);
      if i == At(c, o) {
        ContentStays(c, s, s', i);
      } else if s.slots[i].state == Filled {
        ContentStays(c, t, s', i);
      }
    }
    forall g | 0 <= g < |s'.fetchers|
      ensures FetcherOk(c, s', g)
    {
      if g != f {
        assert FetcherOk(c, t, g);
        if t.fetchers[g].pc.Written() {
          ContentStays(c, t, s', At(c, t.fetchers[g].pc.r.offset));
        }
      }
    }
    forall p | c.start <= p < c.end
      ensures Buffered(c, s', p)
    {
      assert Buffered(c, s, p);
      if PutAt(c, s', At(c, p), p) {
        assert IsPut(c, t, p);
        PutByPublish(c, s, f, p);
      }
    }
  }

  lemma KeptByTake(c: Config, s: State)
    requires Inv(c, s) && Clean(c, s) && s.drainer == Scan
    requires |s.batch| < DRAIN_BATCH && !Free(c, s, s.Next())
    ensures Inv(c, DrainStep(c, s))
  {
    hide SlotIndex;
    var s' := DrainStep(c, s);
    HeadIsNext(c, s);
    assert s'.Output() == s.Output();
    forall g | 0 <= g < |s'.fetchers|
      ensures FetcherOk(c, s', g)
    {
      assert FetcherOk(c, s, g);
      if s.fetchers[g].pc.Written() {
        NobodyAtHead(c, s, g);
        ReachedStays(c, s, s', s.slots[At(c, s.fetchers[g].pc.r.offset)].offset);
      }
    }
    forall i | 0 <= i < c.capacity
      ensures SlotOk(c, s', i)
    {
      assert SlotOk(c, s, i);
      PutStays(c, s, s', i);
      if s.slots[i].state == Filled {
        ReachedStays(c, s, s', s.slots[i].offset);
      }
    }
    forall p | c.start <= p < c.end
      ensures Buffered(c, s', p)
    {
      assert Buffered(c, s, p);
    }
  }

  /** What is in another slot than the drained one is still undrained afterwards. */
  lemma ContentAfterRelease(c: Config, s: State, i: int)
    requires Inv(c, s) && Clean(c, s) && s.drainer.Taken?
    requires 0 <= i < c.capacity && i != At(c, s.Next()) && ContentOk(c, s, i)
    ensures ContentOk(c, DrainStep(c, s), i)
    ensures forall o :: PutAt(c, s, i, o) ==> PutAt(c, DrainStep(c, s), i, o)
  {
    hide SlotIndex;
    ReachedStays(c, s, DrainStep(c, s), s.slots[i].offset);
  }

  lemma KeptByRelease(c: Config, s: State)
    requires Inv(c, s) && Clean(c, s) && s.drainer.Taken?
    ensures Inv(c, DrainStep(c, s))
  {
    hide SlotIndex;
    var s' := DrainStep(c, s);
    HeadIsNext(c, s);
    assert s'.Output() == s.Output() + [s.drainer.rec];
    forall g | 0 <= g < |s'.fetchers|
      ensures FetcherOk(c, s', g)
    {
      assert FetcherOk(c, s, g);
      if s.fetchers[g].pc.Written() {
        NobodyAtHead(c, s, g);
        ContentAfterRelease(c, s, At(c, s.fetchers[g].pc.r.offset));
      }
    }
    forall i | 0 <= i < c.capacity
      ensures SlotOk(c, s', i)
    {
      assert SlotOk(c, s, i);
      if i != At(c, s.Next()) && s.slots[i].state == Filled {
        ContentAfterRelease(c, s, i);
      }
    }
    forall p | c.start <= p < c.end
      ensures Buffered(c, s', p)
    {
      assert Buffered(c, s, p);
      if PutAt(c, s', At(c, p), p) {
        assert PutAt(c, s, At(c, p), p);
      }
    }
  }

  lemma KeptByDrainControl(c: Config, s: State)
    requires Inv(c, s) && Enabled(c, s, Drain)
    requires s.drainer == Scan ==> |s.batch| >= DRAIN_BATCH || Free(c, s, s.Next())
    requires !s.drainer.Taken?
    ensures Inv(c, DrainStep(c, s))
  {
    hide SlotIndex, FetcherOk, SlotOk;
    var s' := DrainStep(c, s);
    assert s'.Output() == s.Output();
    OthersStay(c, s, -1, s');
    forall p | c.start <= p < c.end
      ensures Buffered(c, s', p)
    {
      assert Buffered(c, s, p);
    }
  }

  lemma KeptByPut(c: Config, s: State, f: nat)
    requires Inv(c, s) && Clean(c, s) && Enabled(c, s, Put(f))
    ensures Inv(c, PutStep(c, s, f))
  {
    var s' := PutStep(c, s, f);
    assert FetcherOk(c, s, f);
    hide SlotIndex, Reached, ContentOk, SlotOk, Buffered, DrainerOk;
    if s.fetchers[f].pc.FastWrite? || s.fetchers[f].pc.SlowWrite? {
      KeptByWrite(c, s, f);
    } else if s.fetchers[f].pc.SlowStore?
           || (s.fetchers[f].pc.FastCas? && Free(c, s, s.fetchers[f].pc.r.offset)) {
      KeptByPublish(c, s, f, s');
    } else {
      if Free(c, s, s.fetchers[f].pc.r.offset) {
        FreeIsApart(c, s, f);
      }
      KeptByMove(c, s, f, s'.fetchers[f], s');
    }
  }

  lemma KeptByDrain(c: Config, s: State)
    requires Inv(c, s) && Clean(c, s) && Enabled(c, s, Drain)
    ensures Inv(c, DrainStep(c, s))
  {
    if s.drainer.Taken? {
      KeptByRelease(c, s);
    } else if s.drainer == Scan && |s.batch| < DRAIN_BATCH && !Free(c, s, s.Next()) {
      KeptByTake(c, s);
    } else {
      KeptByDrainControl(c, s);
    }
  }

  lemma KeptByPoll(c: Config, s: State, a: Action)
    requires Inv(c, s) && Enabled(c, s, a) && (a.Deliver? || a.Leave? || a.Fail? || a.Report?)
    ensures Inv(c, Apply(c, s, a))
  {
    hide SlotIndex, ContentOk, Reached, SlotOk, Buffered, DrainerOk;
    var s' := Apply(c, s, a);
    assert FetcherOk(c, s, a.f);
    KeptByMove(c, s, a.f, s'.fetchers[a.f], s');
  }

  /** Every step of every thread keeps the invariant from a state in which no other record is in the
      slot of the drainer's next offset, whatever races there are elsewhere. */
  lemma InvStep(c: Config, s: State, a: Action)
    requires Inv(c, s) && Clean(c, s) && Enabled(c, s, a)
    ensures Inv(c, Apply(c, s, a))
  {
    match a
    case Put(f) => KeptByPut(c, s, f);
    case Drain => KeptByDrain(c, s);
    case CloseAll => KeptByFlags(c, s, Apply(c, s, a));
    case Cancel => KeptByFlags(c, s, Apply(c, s, a));
    case _ => KeptByPoll(c, s, a);
  }

  // ---------------------------------------------------------------- clean for want of a meeting

  /** Where no two records can meet at the head, none do. */
  lemma NoMeetingIsClean(c: Config, s: State)
    requires Inv(c, s) && NoMeeting(c)
    ensures Clean(c, s)
  {
    hide SlotIndex;
    forall q | s.Next() <= q && At(c, q) == At(c, s.Next()) && Reached(c, s, q)
      ensures q == s.Next()
    {
      assert !Meeting(c, s.Next(), q);
    }
    forall f | 0 <= f < |s.fetchers| && s.fetchers[f].pc.Writing()
      ensures Reached(c, s, s.fetchers[f].pc.r.offset) && s.Next() <= s.fetchers[f].pc.r.offset
    {
      WritingReached(c, s, f);
    }
    forall o | PutAt(c, s, At(c, s.Next()), o)
      ensures Reached(c, s, o)
    {
      PutReached(c, s, o);
    }
    assert SlotOk(c, s, At(c, s.Next()));
  }

  lemma WritingReached(c: Config, s: State, f: nat)
    requires Inv(c, s) && f < |s.fetchers| && s.fetchers[f].pc.Writing()
    ensures Reached(c, s, s.fetchers[f].pc.r.offset) && s.Next() <= s.fetchers[f].pc.r.offset
  {
    var o := s.fetchers[f].pc.r.offset;
    PendingAhead(c, s, f);
    assert FetcherOk(c, s, f);
    forall g | 0 <= g < |s.fetchers| && In(c.segments[g], o)
      ensures g == f
    {
      SegmentsDisjoint(c, f, g, o);
    }
  }

  lemma PutReached(c: Config, s: State, o: int)
    requires Inv(c, s) && PutAt(c, s, At(c, o), o)
    ensures Reached(c, s, o)
  {
    hide SlotIndex;
    forall f | 0 <= f < |s.fetchers| && In(c.segments[f], o)
      ensures Apart(c, c.segments[f], s.Next(), o + 1)
    {
      assert FetcherOk(c, s, f);
    }
  }

  // ---------------------------------------------------------------- clean by the window discipline

  /** All that is put, undrained or written into a slot lies in the window of the ring. */
  ghost predicate InWindow(c: Config, s: State)
    requires Shape(c, s)
  {
    && (forall o :: PutAt(c, s, At(c, o), o) ==> o < s.Next() + c.capacity)
    && ContentsInWindow(c, s)
  }

  ghost predicate ContentsInWindow(c: Config, s: State)
    requires Shape(c, s)
  {
    && (forall i :: 0 <= i < c.capacity && s.slots[i].state == Filled ==> s.slots[i].offset < s.Next() + c.capacity)
    && (forall f :: 0 <= f < |s.fetchers| && s.fetchers[f].pc.Written() ==>
          s.slots[At(c, s.fetchers[f].pc.r.offset)].offset < s.Next() + c.capacity)
  }

  lemma WindowIsClean(c: Config, s: State)
    requires Inv(c, s) && InWindow(c, s) && Disciplined(c, s)
    ensures Clean(c, s)
  {
    forall o | s.Next() <= o < s.Next() + c.capacity && At(c, o) == At(c, s.Next())
      ensures o == s.Next()
    {
      SlotInjective(o, s.Next(), c.capacity);
    }
    hide SlotIndex;
    forall f | 0 <= f < |s.fetchers| && s.fetchers[f].pc.Writing()
      ensures s.Next() <= s.fetchers[f].pc.r.offset
    {
      PendingAhead(c, s, f);
    }
    assert SlotOk(c, s, At(c, s.Next()));
  }

  /** Inside the window the slot of a pending record is empty, so the compare-and-swap succeeds and the
      slow path's plain store overwrites nothing. */
  lemma PendingSlotFree(c: Config, s: State, f: nat)
    requires Inv(c, s) && InWindow(c, s) && f < |s.fetchers| && s.fetchers[f].pc.Pending()
    requires s.fetchers[f].pc.r.offset < s.Next() + c.capacity
    ensures Free(c, s, s.fetchers[f].pc.r.offset)
  {
    var o := s.fetchers[f].pc.r.offset;
    PendingAhead(c, s, f);
    assert FetcherOk(c, s, f) && SlotOk(c, s, At(c, o));
    if p :| PutAt(c, s, At(c, o), p) {
      SlotInjective(p, o, c.capacity);
    }
  }

  /** A step of Put writes into the slot of its record or fills it, and touches no other. */
  lemma PutChanges(c: Config, s: State, f: nat)
    requires Shape(c, s) && Enabled(c, s, Put(f))
    ensures var r := s.fetchers[f].pc.r; var s' := Apply(c, s, Put(f));
            && s' == Move(s, f, s'.fetchers[f]).(slots := s'.slots)
            && (forall i :: 0 <= i < c.capacity && i != At(c, r.offset) ==> s'.slots[i] == s.slots[i])
            && (s'.slots[At(c, r.offset)].offset == s.slots[At(c, r.offset)].offset
                || (s.fetchers[f].pc.Writing() && s'.slots[At(c, r.offset)].offset == r.offset))
            && (s'.slots[At(c, r.offset)].state == s.slots[At(c, r.offset)].state || s.fetchers[f].pc.Written())
            && (s'.fetchers[f].pc.Written() ==>
                  && s'.fetchers[f].pc.r == r && s.fetchers[f].pc.Writing()
                  && s'.slots[At(c, r.offset)].offset == r.offset)
  {
    hide SlotIndex;
  }

  lemma ContentsStep(c: Config, s: State, a: Action)
    requires Shape(c, s) && ContentsInWindow(c, s) && Disciplined(c, s) && Enabled(c, s, a)
    ensures ContentsInWindow(c, Apply(c, s, a)) && s.Next() <= Apply(c, s, a).Next()
  {
    hide SlotIndex;
    var s' := Apply(c, s, a);
    if a.Put? {
      PutChanges(c, s, a.f);
      hide Apply, PutStep, Enabled;
      assert s'.Next() == s.Next();
    } else if a == Drain {
      assert s'.fetchers == s.fetchers;
      assert forall i :: 0 <= i < c.capacity ==> s'.slots[i].offset == s.slots[i].offset;
    } else {
      assert s'.slots == s.slots && s'.Next() == s.Next();
    }
  }

  lemma WindowStep(c: Config, s: State, a: Action)
    requires Inv(c, s) && InWindow(c, s) && Disciplined(c, s) && Enabled(c, s, a)
    ensures Inv(c, Apply(c, s, a)) && InWindow(c, Apply(c, s, a))
  {
    hide Apply, Enabled, SlotOk, FetcherOk, Buffered, DrainerOk, PutAt, ContentsInWindow, Clean;
    WindowIsClean(c, s);
    InvStep(c, s, a);
    ContentsStep(c, s, a);
    var s' := Apply(c, s, a);
    forall o | PutAt(c, s', At(c, o), o)
      ensures o < s.Next() + c.capacity
    {
      NewlyPut(c, s, a, o);
    }
  }

  /** A step puts at most the record it publishes. */
  lemma NewlyPut(c: Config, s: State, a: Action, o: int)
    requires Inv(c, s) && Enabled(c, s, a) && PutAt(c, Apply(c, s, a), At(c, o), o)
    ensures PutAt(c, s, At(c, o), o)
         || (a.Put? && a.f < |s.fetchers| && s.fetchers[a.f].pc.Written() && s.fetchers[a.f].pc.r.offset == o
             && (s.fetchers[a.f].pc.FastCas? ==> Free(c, s, o)))
  {
    hide SlotIndex, SlotOk, Buffered, DrainerOk, Apart, ContentOk;
    var s' := Apply(c, s, a);
    var g := Owner(c, o);
    assert FetcherOk(c, s, g);
    if o < s.fetchers[g].pos {
      PutIfPassed(c, s, g, o);
    } else {
      assert o < s'.fetchers[g].pos;
    }
  }

  // ---------------------------------------------------------------- where the discipline comes from

  ghost predicate FitsRing(c: Config) {
    c.end - c.start <= c.capacity
  }

  ghost predicate SingleContiguous(c: Config) {
    |c.segments| == 1 && Contiguous(c)
  }

  /** With one fetcher and no offset gaps, a pending record beyond the window finds its slot filled,
      so it waits. */
  lemma SingleWaits(c: Config, s: State)
    requires Inv(c, s) && SingleContiguous(c) && s.fetchers[0].pc.Pending()
    requires s.fetchers[0].pc.r.offset >= s.Next() + c.capacity
    ensures !Free(c, s, s.fetchers[0].pc.r.offset)
  {
    var o := s.fetchers[0].pc.r.offset;
    assert FetcherOk(c, s, 0);
    var p := Place(o, s.Next(), c.capacity);
    PlaceExact(o, s.Next(), c.capacity);
    hide SlotIndex;
    assert p in c.source && p < s.fetchers[0].pos by {
      assert o in c.source && o - 1 in c.source;
    }
    PutIfPassed(c, s, 0, p);
    assert Buffered(c, s, p);
  }

  /** Whoever has got past the wait was refused or is inside the window. */
  ghost predicate Admitted(c: Config, s: State) {
    forall f :: 0 <= f < |s.fetchers| && (s.fetchers[f].pc.Writing() || s.fetchers[f].pc.Check?) ==>
      || s.fetchers[f].pc.r.offset < s.Next() + c.capacity
      || (s.fetchers[f].pc.Check? && (s.closed || s.cancelled))
  }

  lemma AdmittedFits(c: Config, s: State)
    requires Inv(c, s) && FitsRing(c)
    ensures Admitted(c, s)
  {
    forall f | 0 <= f < |s.fetchers| && s.fetchers[f].pc.Pending()
      ensures s.fetchers[f].pc.r.offset < s.Next() + c.capacity
    {
      PendingAhead(c, s, f);
    }
  }

  lemma AdmittedSingle(c: Config, s: State, a: Action)
    requires Inv(c, s) && Admitted(c, s) && Enabled(c, s, a) && SingleContiguous(c)
    ensures Admitted(c, Apply(c, s, a))
  {
    hide SlotIndex, FetcherOk, SlotOk, Buffered, DrainerOk;
    if a.Put? {
      if s.fetchers[0].pc.r.offset >= s.Next() + c.capacity {
        SingleWaits(c, s);
      }
    }
  }

  /** A whole range that fits the ring, or a single fetcher on a source without gaps, keeps the
      discipline of itself. */
  lemma AdmittedStep(c: Config, s: State, a: Action)
    requires Inv(c, s) && InWindow(c, s) && Admitted(c, s) && Enabled(c, s, a)
    requires FitsRing(c) || SingleContiguous(c)
    ensures var s' := Apply(c, s, a); Inv(c, s') && InWindow(c, s') && Admitted(c, s')
  {
    WindowStep(c, s, a);
    if FitsRing(c) {
      AdmittedFits(c, Apply(c, s, a));
    } else {
      AdmittedSingle(c, s, a);
    }
  }

  // ---------------------------------------------------------------- whole runs

  /** The discipline holds in every state a run passes through. */
  ghost predicate DisciplinedRun(c: Config, s: State, run: seq<Action>)
    requires Legal(c, s, run)
    decreases |run|
  {
    Disciplined(c, s) && (run == [] || DisciplinedRun(c, Apply(c, s, run[0]), run[1..]))
  }

  ghost predicate CleanRun(c: Config, s: State, run: seq<Action>)
    requires Legal(c, s, run)
    decreases |run|
  {
    Clean(c, s) && (run == [] || CleanRun(c, Apply(c, s, run[0]), run[1..]))
  }

  lemma {:induction false} InvRun(c: Config, s: State, run: seq<Action>)
    requires Inv(c, s) && Legal(c, s, run) && CleanRun(c, s, run)
    ensures Inv(c, Exec(c, s, run))
    decreases |run|
  {
    if run != [] {
      InvStep(c, s, run[0]);
      InvRun(c, Apply(c, s, run[0]), run[1..]);
    }
  }

  lemma {:induction false} NoMeetingRun(c: Config, s: State, run: seq<Action>)
    requires Inv(c, s) && NoMeeting(c) && Legal(c, s, run)
    ensures CleanRun(c, s, run)
    decreases |run|
  {
    NoMeetingIsClean(c, s);
    if run != [] {
      InvStep(c, s, run[0]);
      NoMeetingRun(c, Apply(c, s, run[0]), run[1..]);
    }
  }

  lemma {:induction false} WindowRun(c: Config, s: State, run: seq<Action>)
    requires Inv(c, s) && InWindow(c, s) && Legal(c, s, run) && DisciplinedRun(c, s, run)
    ensures CleanRun(c, s, run)
    decreases |run|
  {
    WindowIsClean(c, s);
    if run != [] {
      WindowStep(c, s, run[0]);
      WindowRun(c, Apply(c, s, run[0]), run[1..]);
    }
  }

  /** Runs that keep the window discipline, and all runs of a pipeline without meeting records. */
  ghost predicate Orderly(c: Config, run: seq<Action>)
    requires c.capacity > 0 && Legal(c, Init(c), run)
  {
    NoMeeting(c) || DisciplinedRun(c, Init(c), run)
  }

  lemma OrderlyIsClean(c: Config, run: seq<Action>)
    requires WellFormed(c) && Legal(c, Init(c), run) && Orderly(c, run)
    ensures Inv(c, Init(c)) && CleanRun(c, Init(c), run) && Inv(c, Exec(c, Init(c), run))
  {
    InvInit(c);
    if NoMeeting(c) {
      NoMeetingRun(c, Init(c), run);
    } else {
      NothingPutYet(c);
      WindowRun(c, Init(c), run);
    }
    InvRun(c, Init(c), run);
  }

  lemma NothingPutYet(c: Config)
    requires WellFormed(c)
    ensures InWindow(c, Init(c))
  {
    var s := Init(c);
    forall o | c.start <= o < c.end
      ensures !IsPut(c, s, o)
    {
      var f := Owner(c, o);
      assert !(o < s.fetchers[f].pos);
    }
  }

  /** Order, in every interleaving that keeps the discipline or of a pipeline without meeting records,
      with failures, closing and cancellation at any point and with or without gaps in the source: the
      output is the source from the start offset on, without gap, repeat or reorder. */
  lemma OrderedIfOrderly(c: Config, run: seq<Action>)
    requires WellFormed(c) && Legal(c, Init(c), run) && Orderly(c, run)
    ensures Exact(c, Exec(c, Init(c), run).Output(), c.start)
  {
    OrderlyIsClean(c, run);
  }

  lemma {:induction false} AdmittedRun(c: Config, s: State, run: seq<Action>)
    requires Inv(c, s) && InWindow(c, s) && Admitted(c, s) && Legal(c, s, run)
    requires FitsRing(c) || SingleContiguous(c)
    ensures DisciplinedRun(c, s, run)
    decreases |run|
  {
    if run != [] {
      AdmittedStep(c, s, run[0]);
      AdmittedRun(c, Apply(c, s, run[0]), run[1..]);
    }
  }

  /** Every run of a pipeline whose range fits the ring, or that has one fetcher and no gaps, keeps
      the discipline, so its output is in order. */
  lemma OrderedAlways(c: Config, run: seq<Action>)
    requires WellFormed(c) && Legal(c, Init(c), run)
    requires FitsRing(c) || SingleContiguous(c)
    ensures DisciplinedRun(c, Init(c), run)
    ensures Exact(c, Exec(c, Init(c), run).Output(), c.start)
  {
    InvInit(c);
    NothingPutYet(c);
    AdmittedRun(c, Init(c), run);
    OrderedIfOrderly(c, run);
  }
}
