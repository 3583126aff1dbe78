/** The 64 slots against the full history of syncs they stand for. */
module SyncHistory {
  import opened Machine
  import opened SyncStore

  // ---------------------------------------------------------------- runs and their histories

  datatype Event = Sync(sync: OffsetSync) | ReadToEnd

  function Replay(events: seq<Event>): Store {
    if events == [] then Store(map[], false)
    else
      var st := Replay(events[..|events| - 1]);
      match events[|events| - 1]
      case Sync(sync) => Handle(st, sync)
      case ReadToEnd => st.(ready := true)
  }

  function Last<T>(s: seq<T>): T
    requires s != []
  {
    s[|s| - 1]
  }

  /** All syncs of `tp` since the last one that restarted its history, oldest first: a sync restarts
      it when it is the first, when it rewinds upstream, or when the initial read is still going on. */
  function Since(events: seq<Event>, tp: TopicPartition): seq<OffsetSync> {
    if events == [] then []
    else
      var before := events[..|events| - 1];
      var h := Since(before, tp);
      match Last(events)
      case ReadToEnd => h
      case Sync(sync) =>
        if sync.tp == tp then Extend(h, sync, ReadToEnd in before) else h
  }

  function Extend(h: seq<OffsetSync>, sync: OffsetSync, ready: bool): seq<OffsetSync> {
    if h == [] || sync.upstream < Last(h).upstream || !ready then [sync] else h + [sync]
  }

  ghost predicate Ascending(h: seq<OffsetSync>) {
    forall i, j :: 0 <= i < j < |h| ==> h[i].upstream <= h[j].upstream
  }

  /** The slots after a history: filled by its first sync, updated by every later one. */
  function Compress(h: seq<OffsetSync>): Slots
    requires h != []
  {
    if |h| == 1 then Fill(h[0]) else Updated(Compress(h[..|h| - 1]), Last(h))
  }

  lemma {:induction false} ReadyExact(events: seq<Event>)
    ensures Replay(events).ready <==> ReadToEnd in events
  {
    if events != [] {
      ReadyExact(events[..|events| - 1]);
      assert events == events[..|events| - 1] + [Last(events)];
    }
  }

  lemma HandleExtends(st: Store, h: seq<OffsetSync>, sync: OffsetSync)
    requires sync.tp in st.syncs <==> h != []
    requires h != [] ==> st.syncs[sync.tp] == Compress(h)
    ensures Handle(st, sync).syncs == st.syncs[sync.tp := Compress(Extend(h, sync, st.ready))]
  {
    if h != [] {
      LatestFirst(h);
      assert (h + [sync])[..|h|] == h;
    }
  }

  lemma HandleElsewhere(st: Store, tp: TopicPartition, sync: OffsetSync)
    requires sync.tp != tp
    ensures tp in Handle(st, sync).syncs <==> tp in st.syncs
    ensures tp in st.syncs ==> Handle(st, sync).syncs[tp] == st.syncs[tp]
  {
  }

  /** A history is ascending and made of the partition's own syncs. */
  lemma {:induction false} SinceExact(events: seq<Event>, tp: TopicPartition)
    ensures Ascending(Since(events, tp))
    ensures forall s :: s in Since(events, tp) ==> s.tp == tp && Sync(s) in events
  {
    if events != [] {
      var before := events[..|events| - 1];
      assert events == before + [Last(events)];
      SinceExact(before, tp);
    }
  }

  /** A store, whatever it has been through, holds for each partition the compressed history. */
  lemma {:induction false} StoreHoldsHistory(events: seq<Event>, tp: TopicPartition)
    ensures tp in Replay(events).syncs <==> Since(events, tp) != []
    ensures tp in Replay(events).syncs ==> Replay(events).syncs[tp] == Compress(Since(events, tp))
    ensures Ascending(Since(events, tp))
    ensures forall s :: s in Since(events, tp) ==> s.tp == tp && Sync(s) in events
  {
    SinceExact(events, tp);
    hide Ascending, Compress, Handle;
    if events != [] {
      var before, e := events[..|events| - 1], Last(events);
      StoreHoldsHistory(before, tp);
      ReadyExact(before);
      if e.Sync? {
        if e.sync.tp == tp {
          HandleExtends(Replay(before), Since(before, tp), e.sync);
        } else {
          HandleElsewhere(Replay(before), tp, e.sync);
        }
      }
    }
  }

  /** Invariant A: slot 0 is the latest sync. */
  lemma LatestFirst(h: seq<OffsetSync>)
    requires h != []
    ensures Compress(h)[0] == Last(h)
  {
  }

  // ---------------------------------------------------------------- the repair check

  lemma BoundExact(upstream: int64, i: nat)
    requires 1 <= i < SLOTS
    ensures Pow2(i - 1) <= TWO_62
    ensures Bound(upstream, i) == Wrap64(upstream + Pow2(i - 1))
  {
    Pow2Top();
    Pow2Monotone(i - 1, 62);
    Wrap64Sum(Pow2(i), upstream);
    Wrap64Sum(upstream + Pow2(i), 0 - Pow2(i - 1));
    Wrap64Id(Pow2(i - 1));
  }

  /** For every pair of int64 offsets the wrapped check is the mathematical one, except that it also
      fails when the bound leaves the non-negative int64 range. */
  lemma SpacedExact(newer: int64, older: int64, i: nat)
    requires 1 <= i < SLOTS
    ensures Spaced(newer, older, i) <==> newer <= older + Pow2(i - 1) && 0 <= older + Pow2(i - 1) < TWO_63
  {
    BoundExact(older, i);
    var b := older + Pow2(i - 1);
    if b < TWO_63 {
      Wrap64Id(b);
    } else {
      Wrap64Periodic(b - TWO_64, 1);
      Wrap64Id(b - TWO_64);
    }
  }

  // ---------------------------------------------------------------- invariants of every run

  ghost predicate Descending(slots: Slots) {
    forall i, j :: 0 <= i < j < SLOTS ==> slots[j].upstream <= slots[i].upstream
  }

  /** Invariant B between neighbours. */
  ghost predicate StepBounded(slots: Slots) {
    forall i :: 1 <= i < SLOTS ==> slots[i - 1].upstream <= slots[i].upstream + Pow2(i - 1)
  }

  ghost predicate Drawn(slots: Slots, h: seq<OffsetSync>) {
    forall i :: 0 <= i < SLOTS ==> slots[i] in h
  }

  lemma UpdateDescends(slots: Slots, sync: OffsetSync)
    requires Descending(slots) && slots[0].upstream <= sync.upstream
    ensures Descending(Updated(slots, sync))
  {
    assert forall j :: 0 <= j < SLOTS ==> slots[j].upstream <= slots[0].upstream;
  }

  lemma UpdateKeepsSteps(slots: Slots, sync: OffsetSync)
    requires StepBounded(slots)
    ensures StepBounded(Updated(slots, sync))
  {
    var r := Updated(slots, sync);
    var k := StopSlot(slots, sync.upstream, 1);
    forall i | 1 <= i < SLOTS
      ensures r[i - 1].upstream <= r[i].upstream + Pow2(i - 1)
    {
      if i == k {
        SpacedExact(sync.upstream, slots[k].upstream, k);
      } else if i > k {
        assert r[i - 1] == slots[i - 1] && r[i] == slots[i];
      }
    }
  }

  /** Every history, of any int64 offsets, leaves slots that are non-increasing, step-bounded and
      taken from the history. */
  lemma {:induction false} SlotsOrdered(h: seq<OffsetSync>)
    requires h != [] && Ascending(h)
    ensures Descending(Compress(h)) && StepBounded(Compress(h)) && Drawn(Compress(h), h)
  {
    if |h| > 1 {
      var g := h[..|h| - 1];
      SlotsOrdered(g);
      LatestFirst(g);
      UpdateDescends(Compress(g), Last(h));
      UpdateKeepsSteps(Compress(g), Last(h));
    }
  }

  /** Invariant B for every pair of slots, telescoped from neighbours. */
  lemma {:induction false} BoundBetween(slots: Slots, i: nat, j: nat)
    requires StepBounded(slots) && i <= j < SLOTS
    ensures slots[i].upstream <= slots[j].upstream + Pow2(j) - Pow2(i)
    decreases j
  {
    if i < j {
      BoundBetween(slots, i, j - 1);
    }
  }

  // ---------------------------------------------------------------- separation

  /** Offsets as Kafka assigns them. */
  ghost predicate NonNegative(h: seq<OffsetSync>) {
    forall s :: s in h ==> 0 <= s.upstream
  }

  ghost predicate Plausible(h: seq<OffsetSync>) {
    forall s :: s in h ==> 0 <= s.upstream < TWO_62
  }

  /** Distinct slots from 1 on are exponentially far apart. */
  ghost predicate Separated(slots: Slots) {
    forall i, j :: 1 <= i < j < SLOTS ==>
      slots[i].upstream == slots[j].upstream || slots[i].upstream > slots[j].upstream + Pow2(i - 1)
  }

  /** A repaired slot is far ahead of every slot the pass keeps, even if its own check failed only by
      wrap-around: then the bound of the stop slot, which did not wrap, lies far below. */
  lemma RepairedFarAhead(slots: Slots, sync: OffsetSync, i: nat, j: nat)
    requires Descending(slots) && slots[0].upstream <= sync.upstream
    requires 1 <= i < StopSlot(slots, sync.upstream, 1) <= j < SLOTS && 0 <= slots[i].upstream
    ensures sync.upstream > slots[j].upstream + Pow2(i - 1)
  {
    hide Bound, Spaced;
    var k := StopSlot(slots, sync.upstream, 1);
    SpacedExact(sync.upstream, slots[i].upstream, i);
    SpacedExact(sync.upstream, slots[k].upstream, k);
    Pow2Monotone(i, k - 1);
    assert slots[i].upstream <= slots[0].upstream && slots[j].upstream <= slots[i].upstream;
    assert k == j || slots[j].upstream <= slots[k].upstream;
    FarAhead(sync.upstream, slots[i].upstream, slots[k].upstream, slots[j].upstream, Pow2(i - 1), Pow2(k - 1));
  }

  lemma FarAhead(newer: int64, repaired: int64, stop: int64, kept: int64, p: nat, q: nat)
    requires 0 <= repaired <= newer && kept <= stop && kept <= repaired && 2 * p <= q
    requires newer > repaired + p || repaired + p >= TWO_63
    requires newer <= stop + q < TWO_63
    ensures newer > kept + p
  {
  }

  lemma UpdateSeparates(slots: Slots, sync: OffsetSync)
    requires Descending(slots) && Separated(slots) && slots[0].upstream <= sync.upstream
    requires forall i :: 0 <= i < SLOTS ==> 0 <= slots[i].upstream
    ensures Separated(Updated(slots, sync))
  {
    var k := StopSlot(slots, sync.upstream, 1);
    var r := Updated(slots, sync);
    forall i, j | 1 <= i < j < SLOTS
      ensures r[i].upstream == r[j].upstream || r[i].upstream > r[j].upstream + Pow2(i - 1)
    {
      if i < k <= j {
        RepairedFarAhead(slots, sync, i, j);
      }
    }
  }

  lemma UpdateKeepsFirst(slots: Slots, sync: OffsetSync)
    requires 0 <= slots[SLOTS - 1].upstream && sync.upstream < TWO_62 && slots[SLOTS - 1].upstream < TWO_62
    ensures Updated(slots, sync)[SLOTS - 1] == slots[SLOTS - 1]
  {
    Pow2Top();
    SpacedExact(sync.upstream, slots[SLOTS - 1].upstream, SLOTS - 1);
  }

  /** The slots are separated, and on offsets below 2^62 slot 63 stays the first sync. */
  lemma {:induction false} SlotsSeparated(h: seq<OffsetSync>)
    requires h != [] && Ascending(h) && NonNegative(h)
    ensures Separated(Compress(h))
    ensures Plausible(h) ==> Compress(h)[SLOTS - 1] == h[0]
  {
    hide Updated, Separated, StopSlot;
    if |h| > 1 {
      var g := h[..|h| - 1];
      SlotsSeparated(g);
      SlotsOrdered(g);
      LatestFirst(g);
      assert forall i :: 0 <= i < SLOTS ==> Compress(g)[i] in g;
      UpdateSeparates(Compress(g), Last(h));
      if Plausible(h) {
        assert Compress(g)[SLOTS - 1] in h && Last(h) in h;
        UpdateKeepsFirst(Compress(g), Last(h));
      }
    } else {
      FilledSeparated(h[0]);
    }
  }

  lemma FilledSeparated(sync: OffsetSync)
    ensures Separated(Fill(sync))
  {
  }

  /** The spacing up[i] >= up[j] + 2^(i-2) of the design notes, times four. */
  ghost predicate SpacedAsDesigned(slots: Slots, i: nat, j: nat)
    requires i < j < SLOTS
  {
    4 * slots[i].upstream >= 4 * slots[j].upstream + Pow2(i)
  }

  /** Invariant C of the design notes holds of exactly those pairs of slots that hold different
      offsets. */
  lemma DesignSpacingIff(h: seq<OffsetSync>, i: nat, j: nat)
    requires h != [] && Ascending(h) && NonNegative(h) && i < j < SLOTS
    ensures SpacedAsDesigned(Compress(h), i, j) <==> Compress(h)[i].upstream != Compress(h)[j].upstream
  {
    SlotsOrdered(h);
    SlotsSeparated(h);
  }

  /** It fails for every pair once the store has seen one sync. */
  lemma DesignSpacingFails(sync: OffsetSync, i: nat, j: nat)
    requires i < j < SLOTS
    ensures !SpacedAsDesigned(Compress([sync]), i, j)
  {
    var slots := Compress([sync]);
    assert slots[i] == slots[j];
  }

  // ---------------------------------------------------------------- larger offsets

  /** A normal update keeps the sync of slot 63 exactly when it repeats it or the check passes at
      some slot as it stood before the update. */
  lemma FirstKeptIff(slots: Slots, sync: OffsetSync)
    ensures Updated(slots, sync)[SLOTS - 1] == slots[SLOTS - 1] <==>
      sync == slots[SLOTS - 1] || exists i :: 1 <= i < SLOTS && Spaced(sync.upstream, slots[i].upstream, i)
  {
    if i :| 1 <= i < SLOTS && Spaced(sync.upstream, slots[i].upstream, i) {
      assert StopSlot(slots, sync.upstream, 1) <= i;
    }
  }

  /** From 2^62 on a jump can fail every check, the last one by wrap-around: the first sync is lost
      and its own offset is no longer translated. */
  lemma FirstLost(first: OffsetSync, next: OffsetSync)
    requires first.upstream == TWO_62 && next.upstream == TWO_63 - 1
    ensures Compress([first, next]) == Fill(next)
    ensures Find(Compress([first, next]), first.upstream) == SLOTS
  {
    var slots := Fill(first);
    assert [first, next][..1] == [first];
    forall i | 1 <= i < SLOTS
      ensures !Spaced(next.upstream, slots[i].upstream, i)
    {
      Pow2Top();
      SpacedExact(next.upstream, first.upstream, i);
      if i < SLOTS - 1 {
        Pow2Monotone(i - 1, 61);
      }
    }
    assert StopSlot(slots, next.upstream, 1) == SLOTS;
  }

  // ---------------------------------------------------------------- the early break

  /** The repair pass without its break: every slot from `i` on is checked and repaired if need be. */
  function Pass(slots: Slots, i: nat): Slots
    requires 1 <= i <= SLOTS
    decreases SLOTS - i
  {
    if i == SLOTS then slots
    else Pass(if Spaced(slots[i - 1].upstream, slots[i].upstream, i) then slots else slots[i := slots[i - 1]], i + 1)
  }

  lemma {:induction false} PassIdle(slots: Slots, i: nat)
    requires 1 <= i <= SLOTS && StepBounded(slots)
    requires forall j :: i <= j < SLOTS ==> 0 <= slots[j].upstream < TWO_62
    ensures Pass(slots, i) == slots
    decreases SLOTS - i
  {
    if i < SLOTS {
      BoundExact(slots[i].upstream, i);
      SpacedExact(slots[i - 1].upstream, slots[i].upstream, i);
      PassIdle(slots, i + 1);
    }
  }

  lemma {:induction false} PassRepairs(now: Slots, slots: Slots, sync: OffsetSync, i: nat)
    requires 1 <= i <= StopSlot(slots, sync.upstream, 1) && StepBounded(slots)
    requires forall j :: 0 <= j < SLOTS ==> 0 <= slots[j].upstream < TWO_62
    requires forall j :: 0 <= j < SLOTS ==> now[j] == if j < i then sync else slots[j]
    ensures Pass(now, i) == Updated(slots, sync)
    decreases SLOTS - i
  {
    if i == StopSlot(slots, sync.upstream, 1) {
      assert now == Updated(slots, sync);
      UpdateKeepsSteps(slots, sync);
      PassIdle(now, i);
    } else {
      assert !Spaced(now[i - 1].upstream, now[i].upstream, i);
      PassRepairs(now[i := sync], slots, sync, i + 1);
    }
  }

  /** The break loses nothing: on offsets in [0, 2^62) the loop that stops at the first slot whose
      check holds computes the same slots as the loop that checks all 63. */
  lemma BreakIsSound(h: seq<OffsetSync>, sync: OffsetSync)
    requires h != [] && Ascending(h) && Plausible(h)
    ensures Pass(Compress(h)[0 := sync], 1) == Updated(Compress(h), sync)
  {
    SlotsOrdered(h);
    assert forall j :: 0 <= j < SLOTS ==> Compress(h)[j] in h;
    PassRepairs(Compress(h)[0 := sync], Compress(h), sync, 1);
  }
}
