/** The pipeline's atomic steps put together again: what one call of Put or DrainBatch does when no other
    thread comes in between. */
module PipelineCalls {
  import opened Wrappers
  import opened RingBuffer
  import opened Pipeline

  /** Repeating action `a` leads from s to t. */
  ghost predicate Alone(c: Config, s: State, a: Action, t: State) {
    exists run :: (forall b :: b in run ==> b == a) && Legal(c, s, run) && Exec(c, s, run) == t
  }

  lemma AloneStart(c: Config, s: State, a: Action)
    requires Shape(c, s)
    ensures Alone(c, s, a, s)
  {
    assert Legal(c, s, []) && Exec(c, s, []) == s;
  }

  lemma AloneStep(c: Config, s: State, a: Action, t: State)
    requires Alone(c, s, a, t) && Shape(c, t) && Enabled(c, t, a)
    ensures Alone(c, s, a, Apply(c, t, a))
  {
    var run :| (forall b :: b in run ==> b == a) && Legal(c, s, run) && Exec(c, s, run) == t;
    ExecOne(c, t, a);
    ExecJoin(c, s, run, [a]);
  }

  /** Nothing is assumed of the surroundings: a fetcher that polls may receive its next record, and may
      fail instead; the pipeline may be cancelled at any time. */
  lemma AnythingMayHappen(c: Config, s: State, f: nat, o: int)
    requires Shape(c, s) && f < |s.fetchers|
    ensures s.fetchers[f].pc == Poll && s.fetchers[f].pos < c.segments[f].to && s.fetchers[f].pos <= o
            && o in c.source && (forall p :: s.fetchers[f].pos <= p < o ==> p !in c.source) ==>
      Enabled(c, s, Deliver(f, o))
    ensures s.fetchers[f].pc == Poll <==> Enabled(c, s, Fail(f))
    ensures !s.cancelled <==> Enabled(c, s, Cancel)
  {
  }

  // ---------------------------------------------------------------- Put

  function Stored(c: Config, s: State, f: nat, r: Record): State
    requires Shape(c, s) && f < |s.fetchers|
  {
    Move(s, f, Fetcher(r.offset + 1, Poll)).(slots := s.slots[At(c, r.offset) := Slot(Filled, Some(r), r.offset)])
  }

  /** An empty slot is filled at once, whatever `closed` says; at a filled one the call waits. */
  lemma PutCall(c: Config, s: State, f: nat, r: Record)
    requires Shape(c, s) && f < |s.fetchers| && s.fetchers[f].pc == Load(r)
    ensures Free(c, s, r.offset) ==> Alone(c, s, Put(f), Stored(c, s, f, r))
    ensures !Free(c, s, r.offset) ==> Alone(c, s, Put(f), Move(s, f, s.fetchers[f].(pc := Wait(r))))
  {
    hide SlotIndex, Alone;
    AloneStart(c, s, Put(f));
    AloneStep(c, s, Put(f), s);
    var t := Apply(c, s, Put(f));
    if Free(c, s, r.offset) {
      AloneStep(c, s, Put(f), t);
      t := Apply(c, t, Put(f));
      AloneStep(c, s, Put(f), t);
      t := Apply(c, t, Put(f));
      assert t.slots == Stored(c, s, f, r).slots;
      assert t.fetchers == Stored(c, s, f, r).fetchers;
    }
  }

  /** A call that waits is stuck while the slot is filled and the buffer is neither closed nor cancelled;
      otherwise it gives up if it is either, and fills the slot if it is neither. */
  lemma WaitCall(c: Config, s: State, f: nat, r: Record)
    requires Shape(c, s) && f < |s.fetchers| && s.fetchers[f].pc == Wait(r)
    ensures Enabled(c, s, Put(f)) <==> Free(c, s, r.offset) || s.closed || s.cancelled
    ensures s.closed || s.cancelled ==> Alone(c, s, Put(f), Move(s, f, s.fetchers[f].(pc := Finished)))
    ensures Free(c, s, r.offset) && !s.closed && !s.cancelled ==> Alone(c, s, Put(f), Stored(c, s, f, r))
  {
    hide SlotIndex, Alone;
    if Enabled(c, s, Put(f)) {
      AloneStart(c, s, Put(f));
      AloneStep(c, s, Put(f), s);
      var t := Apply(c, s, Put(f));
      AloneStep(c, s, Put(f), t);
      t := Apply(c, t, Put(f));
      if s.closed || s.cancelled {
        assert t.fetchers == Move(s, f, s.fetchers[f].(pc := Finished)).fetchers;
      } else {
        AloneStep(c, s, Put(f), t);
        t := Apply(c, t, Put(f));
        AloneStep(c, s, Put(f), t);
        t := Apply(c, t, Put(f));
        assert t.slots == Stored(c, s, f, r).slots;
        assert t.fetchers == Stored(c, s, f, r).fetchers;
      }
    }
  }

  // ---------------------------------------------------------------- DrainBatch

  /** The first n slots from the drain offset on, all filled before, have been emptied into the batch. */
  ghost predicate Swept(c: Config, s: State, t: State, n: nat, out: seq<Option<Record>>)
    requires Shape(c, s) && Shape(c, t)
  {
    && n <= c.capacity && |out| == n
    && (forall o :: s.drainOffset <= o < s.drainOffset + n ==>
          !Free(c, s, o) && Free(c, t, o) && out[o - s.drainOffset] == s.slots[At(c, o)].record)
    && (forall i :: 0 <= i < c.capacity && Beyond(c, s, n, i) ==> t.slots[i] == s.slots[i])
  }

  /** Slot i is none of the first n from the drain offset on. */
  ghost predicate Beyond(c: Config, s: State, n: nat, i: int)
    requires c.capacity > 0
  {
    forall o :: s.drainOffset <= o < s.drainOffset + n ==> At(c, o) != i
  }

  lemma SweptOne(c: Config, s: State, t: State, n: nat, out: seq<Option<Record>>, t': State)
    requires Shape(c, s) && Shape(c, t) && Shape(c, t') && Swept(c, s, t, n, out)
    requires !Free(c, t, s.drainOffset + n)
    requires var i := At(c, s.drainOffset + n); t'.slots == t.slots[i := Slot(Empty, None, t.slots[i].offset)]
    ensures Swept(c, s, t', n + 1, out + [s.slots[At(c, s.drainOffset + n)].record])
  {
    var o, out' := s.drainOffset, out + [s.slots[At(c, s.drainOffset + n)].record];
    SlotNextLap(o, c.capacity);
    assert n > 0 ==> Free(c, t, o);
    assert n < c.capacity;
    hide SlotIndex;
    assert Beyond(c, s, n, At(c, o + n));
    forall p | o <= p < o + n + 1
      ensures !Free(c, s, p) && Free(c, t', p) && out'[p - o] == s.slots[At(c, p)].record
    {
    }
    forall i | 0 <= i < c.capacity && Beyond(c, s, n + 1, i)
      ensures t'.slots[i] == s.slots[i]
    {
      assert At(c, o + n) != i && Beyond(c, s, n, i);
    }
  }

  /** Having begun to scan, the drainer takes on until the batch is full or the next slot is empty. */
  lemma {:induction false} ScanCall(c: Config, s: State, t: State) returns (n: nat, t': State)
    requires Shape(c, s) && s.batch == [] && Shape(c, t) && Alone(c, s, Drain, t)
    requires t == s.(drainer := Scan, batch := t.batch, slots := t.slots) && |t.batch| <= 512
    requires Swept(c, s, t, |t.batch|, t.batch) && (t.batch == [] ==> !Free(c, t, s.drainOffset))
    ensures Shape(c, t') && Alone(c, s, Drain, t') && 1 <= n <= 512
    ensures s.emitted <= t'.emitted && |t'.emitted| == |s.emitted| + n
    ensures t' == s.(drainer := Outer, drainOffset := s.drainOffset + n, emitted := t'.emitted, slots := t'.slots)
    ensures Swept(c, s, t', n, t'.emitted[|s.emitted|..]) && (n == 512 || Free(c, t', s.drainOffset + n))
    decreases 512 - |t.batch|
  {
    hide SlotIndex, Alone, Swept;
    AloneStep(c, s, Drain, t);
    t' := Apply(c, t, Drain);
    if t'.drainer.Taken? {
      AloneStep(c, s, Drain, t');
      t' := Apply(c, t', Drain);
      var i := At(c, t.Next());
      assert t'.slots == t.slots[i := Slot(Empty, None, t.slots[i].offset)];
      SweptRecord(c, s, t, |t.batch|, t.batch);
      SweptOne(c, s, t, |t.batch|, t.batch, t');
      n, t' := ScanCall(c, s, t');
    } else {
      n := |t.batch|;
      assert t'.emitted[|s.emitted|..] == t.batch;
      SweptSlots(c, s, t, t', n, t.batch);
    }
  }

  lemma SweptRecord(c: Config, s: State, t: State, n: nat, out: seq<Option<Record>>)
    requires Shape(c, s) && Shape(c, t) && Swept(c, s, t, n, out) && !Free(c, t, s.drainOffset + n)
    ensures t.slots[At(c, s.drainOffset + n)] == s.slots[At(c, s.drainOffset + n)]
  {
    hide SlotIndex;
  }

  lemma SweptSlots(c: Config, s: State, t: State, t': State, n: nat, out: seq<Option<Record>>)
    requires Shape(c, s) && Shape(c, t) && Shape(c, t') && Swept(c, s, t, n, out) && t'.slots == t.slots
    ensures Swept(c, s, t', n, out)
  {
    hide SlotIndex;
  }

  /** Between two batches the drainer looks at the context. */
  lemma NextBatch(c: Config, s: State)
    requires Shape(c, s) && s.drainer == Outer
    ensures Enabled(c, s, Drain) && Apply(c, s, Drain) == s.(drainer := if s.cancelled then Stopped else Blocked)
  {
  }

  /** One DrainBatch(512): stuck while the head slot is empty and the buffer open; ends the drainer if
      cancelled, or closed with an empty head slot; otherwise emits exactly the longest filled run from
      the drain offset on, up to 512 records, and empties its slots. */
  lemma DrainCall(c: Config, s: State) returns (n: nat, t: State)
    requires Shape(c, s) && s.drainer == Blocked && s.batch == []
    ensures Enabled(c, s, Drain) <==> !Free(c, s, s.drainOffset) || s.closed || s.cancelled
    ensures s.cancelled || (s.closed && Free(c, s, s.drainOffset)) ==> Alone(c, s, Drain, s.(drainer := Stopped))
    ensures !s.cancelled && !Free(c, s, s.drainOffset) ==>
      && Shape(c, t) && Alone(c, s, Drain, t) && 1 <= n <= 512
      && s.emitted <= t.emitted && |t.emitted| == |s.emitted| + n
      && t == s.(drainer := Outer, drainOffset := s.drainOffset + n, emitted := t.emitted, slots := t.slots)
      && Swept(c, s, t, n, t.emitted[|s.emitted|..]) && (n == 512 || Free(c, t, s.drainOffset + n))
  {
    hide SlotIndex, Alone;
    n, t := 0, s;
    if Enabled(c, s, Drain) {
      AloneStart(c, s, Drain);
      AloneStep(c, s, Drain, s);
      t := Apply(c, s, Drain);
      AloneStep(c, s, Drain, t);
      t := Apply(c, t, Drain);
      if !s.cancelled && !Free(c, s, s.drainOffset) {
        n, t := ScanCall(c, s, t);
      }
    }
  }
}
