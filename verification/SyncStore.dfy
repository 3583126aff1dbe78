/** Offset syncs of one replication flow and the 64-slot store that translates offsets. */
module SyncStore {
  import opened Machine

  datatype TopicPartition = TopicPartition(topic: seq<byte>, partition: int32)

  datatype OffsetSync = OffsetSync(tp: TopicPartition, upstream: int64, downstream: int64)

  const SLOTS: nat := 64

  type Slots = s: seq<OffsetSync> | |s| == SLOTS
    witness Fill(OffsetSync(TopicPartition([], 0), 0, 0))

  function Fill(sync: OffsetSync): (slots: seq<OffsetSync>)
    ensures |slots| == SLOTS && forall j :: 0 <= j < SLOTS ==> slots[j] == sync
  {
    seq(SLOTS, _ => sync)
  }

  /** The bound of the repair check at slot `i`, with int64 wrap-around at every operation. */
  function Bound(upstream: int64, i: nat): int64
    requires 1 <= i < SLOTS
  {
    Wrap64(Wrap64(upstream + Shl1(i)) - Shl1(i - 1))
  }

  /** The test on which the repair loop stops at slot `i`. */
  predicate Spaced(newer: int64, older: int64, i: nat)
    requires 1 <= i < SLOTS
  {
    Bound(older, i) >= 0 && newer <= Bound(older, i)
  }

  /** First slot from `i` on whose old sync is near enough to `upstream`; SLOTS if there is none. */
  function StopSlot(slots: Slots, upstream: int64, i: nat): (k: nat)
    requires 1 <= i <= SLOTS
    ensures i <= k <= SLOTS
    ensures forall j :: i <= j < k ==> !Spaced(upstream, slots[j].upstream, j)
    ensures k < SLOTS ==> Spaced(upstream, slots[k].upstream, k)
    decreases SLOTS - i
  {
    if i == SLOTS || Spaced(upstream, slots[i].upstream, i) then i
    else StopSlot(slots, upstream, i + 1)
  }

  lemma StopSlotStep(slots: Slots, upstream: int64, i: nat)
    requires 1 <= i < SLOTS
    ensures StopSlot(slots, upstream, i) ==
      if Bound(slots[i].upstream, i) >= 0 && upstream <= Bound(slots[i].upstream, i) then i
      else StopSlot(slots, upstream, i + 1)
  {
  }

  /** What a normal update leaves: copies of the new sync, then the old slots untouched. */
  function Updated(slots: Slots, sync: OffsetSync): (r: Slots)
    ensures var k := StopSlot(slots, sync.upstream, 1);
            forall j :: 0 <= j < SLOTS ==> r[j] == if j < k then sync else slots[j]
  {
    var k := StopSlot(slots, sync.upstream, 1);
    Fill(sync)[..k] + slots[k..]
  }

  /** The abstract value of a store. */
  datatype Store = Store(syncs: map<TopicPartition, Slots>, ready: bool)

  function Handle(st: Store, sync: OffsetSync): Store {
    var keep := sync.tp in st.syncs && st.ready && st.syncs[sync.tp][0].upstream <= sync.upstream;
    st.(syncs := st.syncs[sync.tp := if keep then Updated(st.syncs[sync.tp], sync) else Fill(sync)])
  }

  /** First slot whose sync is at or below `upstream`; SLOTS if every slot is ahead of it. */
  function Find(slots: Slots, upstream: int64): (j: nat)
    ensures j <= SLOTS
    ensures forall i :: 0 <= i < j ==> slots[i].upstream > upstream
    ensures j < SLOTS ==> slots[j].upstream <= upstream
  {
    FindFrom(slots, upstream, 0)
  }

  function FindFrom(slots: Slots, upstream: int64, i: nat): (j: nat)
    requires i <= SLOTS
    ensures i <= j <= SLOTS
    ensures forall k :: i <= k < j ==> slots[k].upstream > upstream
    ensures j < SLOTS ==> slots[j].upstream <= upstream
    decreases SLOTS - i
  {
    if i == SLOTS || slots[i].upstream <= upstream then i else FindFrom(slots, upstream, i + 1)
  }

  /** The downstream offset that one sync gives for `upstream`. */
  function Answer(sync: OffsetSync, upstream: int64): int64 {
    Wrap64(sync.downstream + if sync.upstream < upstream then 1 else 0)
  }

  function TranslateSlots(slots: Slots, upstream: int64): int64 {
    var j := Find(slots, upstream);
    if j == SLOTS then -1 else Answer(slots[j], upstream)
  }

  function Translate(st: Store, tp: TopicPartition, upstream: int64): (int64, bool) {
    if st.ready && tp in st.syncs then (TranslateSlots(st.syncs[tp], upstream), true) else (-1, false)
  }

  /** Slot j is the first one at or below `upstream`; j is SLOTS if there is none. */
  ghost predicate FirstAtOrBelow(slots: Slots, upstream: int64, j: int) {
    && 0 <= j <= SLOTS && (j < SLOTS ==> slots[j].upstream <= upstream)
    && forall i :: 0 <= i < j ==> slots[i].upstream > upstream
  }

  lemma FirstIsFound(slots: Slots, upstream: int64, j: int)
    requires FirstAtOrBelow(slots, upstream, j)
    ensures j == Find(slots, upstream)
  {
  }

  lemma FoundFirst(slots: Slots, upstream: int64, j: int)
    requires 0 <= j <= SLOTS && (j < SLOTS ==> slots[j].upstream <= upstream)
    requires forall i :: 0 <= i < j ==> slots[i].upstream > upstream
    ensures FirstAtOrBelow(slots, upstream, j)
    ensures forall i :: FirstAtOrBelow(slots, upstream, i) ==> i == j
  {
  }

  /** Translation, offset by offset: the first slot at or below the position answers, with its own
      downstream offset or the next one. */
  lemma TranslateExact(st: Store, tp: TopicPartition, upstream: int64, j: int)
    ensures !(st.ready && tp in st.syncs) ==> Translate(st, tp, upstream) == (-1, false)
    ensures st.ready && tp in st.syncs && FirstAtOrBelow(st.syncs[tp], upstream, j) ==>
      Translate(st, tp, upstream) ==
        (if j == SLOTS then -1
         else if st.syncs[tp][j].upstream == upstream then st.syncs[tp][j].downstream
         else Wrap64(st.syncs[tp][j].downstream + 1), true)
  {
    hide FindFrom, FirstAtOrBelow;
    if st.ready && tp in st.syncs && FirstAtOrBelow(st.syncs[tp], upstream, j) {
      FirstIsFound(st.syncs[tp], upstream, j);
    }
  }

  /** What one sync does to a store, slot by slot: a first, rewinding or early one fills all slots; any
      other is copied into the slots before the first one, from slot 1 on, whose old sync is near
      enough. */
  lemma HandleExact(st: Store, sync: OffsetSync) returns (k: nat)
    ensures var st' := Handle(st, sync);
            && st'.ready == st.ready && st'.syncs.Keys == st.syncs.Keys + {sync.tp}
            && (forall tp :: tp in st.syncs && tp != sync.tp ==> st'.syncs[tp] == st.syncs[tp])
            && k <= SLOTS && forall j :: 0 <= j < k ==> st'.syncs[sync.tp][j] == sync
    ensures k < SLOTS ==> sync.tp in st.syncs && Handle(st, sync).syncs[sync.tp][k..] == st.syncs[sync.tp][k..]
    ensures sync.tp !in st.syncs || !st.ready || sync.upstream < st.syncs[sync.tp][0].upstream ==> k == SLOTS
    ensures sync.tp in st.syncs && st.ready && sync.upstream >= st.syncs[sync.tp][0].upstream ==>
      && 1 <= k && (forall j :: 1 <= j < k ==> !Spaced(sync.upstream, st.syncs[sync.tp][j].upstream, j))
      && (k < SLOTS ==> Spaced(sync.upstream, st.syncs[sync.tp][k].upstream, k))
  {
    k := SLOTS;
    if sync.tp in st.syncs && st.ready && sync.upstream >= st.syncs[sync.tp][0].upstream {
      k := StopSlot(st.syncs[sync.tp], sync.upstream, 1);
    }
    hide StopSlot, Spaced;
  }

  /** The store object; its mutex makes every method atomic. */
  class SyncStore {
    var syncs: map<TopicPartition, Slots>
    var initialized: bool
    var readToEnd: bool

    ghost function View(): Store
      reads this
    {
      Store(syncs, readToEnd)
    }

    constructor ()
      ensures View() == Store(map[], false) && !initialized
    {
      syncs, initialized, readToEnd := map[], false, false;
    }

    method MarkReadToEnd()
      modifies this
      ensures View() == old(View()).(ready := true) && initialized
    {
      readToEnd := true;
      initialized := true;
    }

    /** The in-place repair pass over a copy of the slots. */
    static method Repair(existing: Slots, sync: OffsetSync) returns (updated: Slots)
      ensures updated == Updated(existing, sync)
    {
      hide Bound, Updated, Fill, StopSlot, Spaced;
      updated := existing[0 := sync];
      var i := 1;
      while i < SLOTS
        invariant 1 <= i <= SLOTS
        invariant forall j :: 0 <= j < i ==> updated[j] == sync
        invariant forall j :: i <= j < SLOTS ==> updated[j] == existing[j]
        invariant StopSlot(existing, sync.upstream, 1) == StopSlot(existing, sync.upstream, i)
      {
        StopSlotStep(existing, sync.upstream, i);
        var prev := i - 1;
        var bound := Bound(updated[i].upstream, i);
        if bound >= 0 && updated[prev].upstream <= bound {
          break;
        }
        updated := updated[i := updated[prev]];
        i := i + 1;
      }
    }

    method HandleSync(sync: OffsetSync)
      modifies this`syncs
      ensures View() == Handle(old(View()), sync)
    {
      var tp := sync.tp;
      if tp !in syncs {
        syncs := syncs[tp := Fill(sync)];
        return;
      }
      var existing := syncs[tp];
      if sync.upstream < existing[0].upstream {
        syncs := syncs[tp := Fill(sync)];
        return;
      }
      if !readToEnd {
        syncs := syncs[tp := Fill(sync)];
        return;
      }
      var updated := Repair(existing, sync);
      syncs := syncs[tp := updated];
    }

    /** The first slot at or below `upstream` answers: with its downstream offset if it is that very
        offset, with the next one if it lies before it. */
    method TranslateDownstream(tp: TopicPartition, upstream: int64) returns (offset: int64, ok: bool)
      ensures (offset, ok) == Translate(View(), tp, upstream)
      ensures ok <==> readToEnd && tp in syncs
      ensures !ok ==> offset == -1
      ensures ok ==> forall j :: FirstAtOrBelow(syncs[tp], upstream, j) ==>
        offset == if j == SLOTS then -1
                  else if syncs[tp][j].upstream == upstream then syncs[tp][j].downstream
                  else Wrap64(syncs[tp][j].downstream + 1)
    {
      hide Translate, FirstAtOrBelow, Wrap64;
      TranslateExact(View(), tp, upstream, 0);
      if !readToEnd {
        return -1, false;
      }
      if tp !in syncs {
        return -1, false;
      }
      var slots := syncs[tp];
      var i := 0;
      while i < SLOTS
        invariant 0 <= i <= SLOTS
        invariant forall j :: 0 <= j < i ==> slots[j].upstream > upstream
      {
        if slots[i].upstream <= upstream {
          var step := 0;
          if slots[i].upstream < upstream {
            step := 1;
          }
          FoundFirst(slots, upstream, i);
          Wrap64Id(slots[i].downstream);
          TranslateExact(View(), tp, upstream, i);
          return Wrap64(slots[i].downstream + step), true;
        }
        i := i + 1;
      }
      FoundFirst(slots, upstream, i);
      TranslateExact(View(), tp, upstream, i);
      return -1, true;
    }
  }
}
