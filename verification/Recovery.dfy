/** Rebuilding the store from the offset-syncs topic. */
module Recovery {
  import opened Machine
  import opened SyncStore
  import opened Wire

  /** A record of the offset-syncs topic. */
  datatype Raw = Raw(key: seq<byte>, value: seq<byte>)

  /** What one PollFetches returns. */
  datatype Poll = Fetched(records: seq<Raw>, failed: bool) | TimedOut | Cancelled

  datatype Outcome = Ready | Aborted | Panicked | StillReading

  function Encode(sync: OffsetSync): Raw {
    Raw(KeyBytes(sync.tp), ValueBytes(sync))
  }

  function EncodeAll(syncs: seq<OffsetSync>): (log: seq<Raw>)
    ensures |log| == |syncs|
  {
    if syncs == [] then [] else [Encode(syncs[0])] + EncodeAll(syncs[1..])
  }

  function Decode(r: Raw): Decoded {
    Deserialize(r.key, r.value)
  }

  predicate Panics(log: seq<Raw>) {
    exists i :: 0 <= i < |log| && Decode(log[i]) == Panic
  }

  function FeedOne(st: Store, r: Raw): Store {
    match Decode(r)
    case Ok(sync) => Handle(st, sync)
    case _ => st
  }

  /** The store after a batch of records: malformed ones are skipped, a panic ends the process. */
  function Feed(st: Store, log: seq<Raw>): Store
    decreases |log|
  {
    if log == [] || Decode(log[0]) == Panic then st else Feed(FeedOne(st, log[0]), log[1..])
  }

  /** How the initial read ends, and the records it has fed to the store by then. */
  function ReadOutcome(polls: seq<Poll>): Outcome {
    if polls == [] then StillReading
    else match polls[0]
      case TimedOut => Ready
      case Cancelled => Aborted
      case Fetched(records, failed) =>
        if Panics(records) then Panicked
        else if records == [] && !failed then Ready
        else ReadOutcome(polls[1..])
  }

  function ReadRecords(polls: seq<Poll>): seq<Raw> {
    if polls == [] || !polls[0].Fetched? then []
    else if Panics(polls[0].records) || (polls[0].records == [] && !polls[0].failed) then polls[0].records
    else polls[0].records + ReadRecords(polls[1..])
  }

  /** The store the initial read leaves. */
  function AfterReading(st: Store, polls: seq<Poll>): Store {
    Feed(st, ReadRecords(polls)).(ready := st.ready || ReadOutcome(polls) == Ready)
  }

  /** Poll i ends the read: every poll before it brought records, all readable or malformed but none
      that makes the reader panic, or failed; and this one did not. */
  ghost predicate DecidesAt(polls: seq<Poll>, i: int) {
    && 0 <= i < |polls|
    && (forall k :: 0 <= k < i ==>
          polls[k].Fetched? && !Panics(polls[k].records) && (polls[k].records != [] || polls[k].failed))
    && !(polls[i].Fetched? && !Panics(polls[i].records) && (polls[i].records != [] || polls[i].failed))
  }

  /** The initial read is over at the first poll that times out, is cancelled, comes back empty without
      errors or makes the reader panic; only the first and third of these leave the store ready. */
  lemma {:induction false} OutcomeExact(polls: seq<Poll>)
    ensures forall i :: DecidesAt(polls, i) ==>
      && (ReadOutcome(polls) == Ready <==> polls[i] == TimedOut || polls[i] == Fetched([], false))
      && (ReadOutcome(polls) == Aborted <==> polls[i] == Cancelled)
      && (ReadOutcome(polls) == Panicked <==> polls[i].Fetched? && Panics(polls[i].records))
    ensures ReadOutcome(polls) == StillReading <==> forall i :: 0 <= i < |polls| ==> !DecidesAt(polls, i)
  {
    if polls != [] {
      var rest := polls[1..];
      if polls[0].Fetched? && !Panics(polls[0].records) && (polls[0].records != [] || polls[0].failed) {
        OutcomeExact(rest);
        DecidesLater(polls);
      } else {
        assert DecidesAt(polls, 0);
      }
    }
  }

  lemma DecidesLater(polls: seq<Poll>)
    requires polls != []
    requires polls[0].Fetched? && !Panics(polls[0].records) && (polls[0].records != [] || polls[0].failed)
    ensures forall i :: DecidesAt(polls, i) ==> 0 < i && DecidesAt(polls[1..], i - 1)
    ensures forall i :: DecidesAt(polls[1..], i) ==> DecidesAt(polls, i + 1)
  {
    var rest := polls[1..];
    forall i | DecidesAt(polls, i)
      ensures 0 < i && DecidesAt(rest, i - 1)
    {
      assert forall k :: 0 <= k < i - 1 ==> rest[k] == polls[k + 1];
    }
    forall i | DecidesAt(rest, i)
      ensures DecidesAt(polls, i + 1)
    {
      assert forall k :: 1 <= k < i + 1 ==> polls[k] == rest[k - 1];
    }
  }

  function RecordsOf(p: Poll): seq<Raw> {
    if p.Fetched? then p.records else []
  }

  /** The records fed are those of the polls up to the one that ends the read, end to end. */
  lemma {:induction false} RecordsExact(polls: seq<Poll>, i: nat, k: nat)
    requires DecidesAt(polls, i) && k <= i
    ensures ReadRecords(polls[..0]) == []
    ensures ReadRecords(polls[..k + 1]) == ReadRecords(polls[..k]) + RecordsOf(polls[k])
    decreases i
  {
    if k == 0 {
      RecordsOne(polls);
    } else {
      RecordsHead(polls, i);
      RecordsPrefix(polls, k + 1);
      RecordsPrefix(polls, k);
      hide ReadRecords, RecordsOf, DecidesAt;
      RecordsExact(polls[1..], i - 1, k - 1);
      assert polls[1..][k - 1] == polls[k];
    }
  }

  /** No later poll contributes. */
  lemma {:induction false} RecordsStop(polls: seq<Poll>, i: nat)
    requires DecidesAt(polls, i)
    ensures ReadRecords(polls) == ReadRecords(polls[..i + 1])
    decreases i
  {
    if i == 0 {
      RecordsOne(polls);
    } else {
      RecordsHead(polls, i);
      RecordsPrefix(polls, i + 1);
      hide ReadRecords, RecordsOf, DecidesAt;
      RecordsStop(polls[1..], i - 1);
    }
  }

  lemma RecordsOne(polls: seq<Poll>)
    requires polls != []
    ensures ReadRecords(polls[..0]) == [] && ReadRecords(polls[..1]) == RecordsOf(polls[0])
    ensures DecidesAt(polls, 0) ==> ReadRecords(polls) == RecordsOf(polls[0])
  {
    assert polls[..1][0] == polls[0] && polls[..1][1..] == [];
  }

  /** The first poll goes on, so it contributes its records whatever follows. */
  lemma RecordsHead(polls: seq<Poll>, i: nat)
    requires DecidesAt(polls, i) && i > 0
    ensures DecidesAt(polls[1..], i - 1)
    ensures polls[0].Fetched? && !Panics(polls[0].records) && (polls[0].records != [] || polls[0].failed)
  {
    assert forall k :: 0 <= k < i ==> polls[1..][k] == polls[k + 1];
  }

  lemma RecordsPrefix(polls: seq<Poll>, n: nat)
    requires 0 < n <= |polls|
    requires polls[0].Fetched? && !Panics(polls[0].records) && (polls[0].records != [] || polls[0].failed)
    ensures ReadRecords(polls[..n]) == RecordsOf(polls[0]) + ReadRecords(polls[1..][..n - 1])
    ensures ReadRecords(polls) == RecordsOf(polls[0]) + ReadRecords(polls[1..])
  {
    assert polls[..n][0] == polls[0] && polls[..n][1..] == polls[1..][..n - 1];
  }

  lemma {:induction false} FeedJoin(st: Store, a: seq<Raw>, b: seq<Raw>)
    ensures Feed(st, a + b) == if Panics(a) then Feed(st, a) else Feed(Feed(st, a), b)
    decreases |a|
  {
    if a == [] {
      assert a + b == b;
    } else {
      assert (a + b)[1..] == a[1..] + b;
      if Decode(a[0]) != Panic {
        FeedJoin(FeedOne(st, a[0]), a[1..], b);
        assert Panics(a) <==> Panics(a[1..]) by {
          if i :| 0 <= i < |a| && Decode(a[i]) == Panic {
            assert Decode(a[1..][i - 1]) == Panic;
          }
          if i :| 0 <= i < |a[1..]| && Decode(a[1..][i]) == Panic {
            assert Decode(a[i + 1]) == Panic;
          }
        }
      }
    }
  }

  /** One record within a log: a readable one is handled after those before it, a malformed one changes
      nothing, and at one that makes the reader panic the rest is not fed. */
  lemma FeedExact(st: Store, a: seq<Raw>, r: Raw, b: seq<Raw>)
    requires !Panics(a)
    ensures Decode(r).Ok? ==> Feed(st, a + [r] + b) == Feed(Handle(Feed(st, a), Decode(r).sync), b)
    ensures !Decode(r).Ok? && Decode(r) != Panic ==> Feed(st, a + [r] + b) == Feed(st, a + b)
    ensures Decode(r) == Panic ==> Feed(st, a + [r] + b) == Feed(st, a)
  {
    assert a + [r] + b == a + ([r] + b);
    FeedJoin(st, a, [r] + b);
    FeedJoin(st, a, b);
    assert ([r] + b)[1..] == b;
  }

  /** The record loop shared by ReadToEnd and Follow. */
  method HandleRecords(store: SyncStore, records: seq<Raw>) returns (panicked: bool)
    modifies store
    ensures panicked == Panics(records)
    ensures store.View() == Feed(old(store.View()), records)
  {
    panicked := false;
    var i := 0;
    while i < |records|
      invariant 0 <= i <= |records|
      invariant !Panics(records[..i])
      invariant Feed(old(store.View()), records) == Feed(store.View(), records[i..])
    {
      assert records[i..][0] == records[i] && records[i..][1..] == records[i + 1..];
      match Deserialize(records[i].key, records[i].value) {
        case Panic =>
          return true;
        case Ok(sync) =>
          store.HandleSync(sync);
        case _ =>
      }
      i := i + 1;
    }
    assert records[..i] == records;
  }

  /** The poll loop of the initial read. */
  method ReadToEnd(store: SyncStore, polls: seq<Poll>) returns (r: Outcome)
    modifies store
    ensures r == ReadOutcome(polls)
    ensures store.View() == AfterReading(old(store.View()), polls)
    ensures forall i :: DecidesAt(polls, i) ==>
      && (r == Ready <==> polls[i] == TimedOut || polls[i] == Fetched([], false))
      && (r == Aborted <==> polls[i] == Cancelled)
      && (r == Panicked <==> polls[i].Fetched? && Panics(polls[i].records))
    ensures r == StillReading <==> forall i :: 0 <= i < |polls| ==> !DecidesAt(polls, i)
  {
    OutcomeExact(polls);
    hide DecidesAt;
    var i := 0;
    while i < |polls|
      invariant 0 <= i <= |polls|
      invariant ReadOutcome(polls) == ReadOutcome(polls[i..])
      invariant Feed(old(store.View()), ReadRecords(polls)) == Feed(store.View(), ReadRecords(polls[i..]))
      invariant store.View().ready == old(store.View()).ready
    {
      assert polls[i..][0] == polls[i] && polls[i..][1..] == polls[i + 1..];
      match polls[i] {
        case TimedOut =>
          store.MarkReadToEnd();
          return Ready;
        case Cancelled =>
          return Aborted;
        case Fetched(records, failed) =>
          FeedJoin(store.View(), records, ReadRecords(polls[i + 1..]));
          ReadyFed(store.View(), records);
          var panicked := HandleRecords(store, records);
          if panicked {
            return Panicked;
          }
          if |records| == 0 && !failed {
            store.MarkReadToEnd();
            return Ready;
          }
      }
      i := i + 1;
    }
    r := StillReading;
  }

  lemma {:induction false} ReadyFed(st: Store, log: seq<Raw>)
    ensures Feed(st, log).ready == st.ready
    decreases |log|
  {
    if log != [] && Decode(log[0]) != Panic {
      ReadyFed(FeedOne(st, log[0]), log[1..]);
    }
  }

  // ---------------------------------------------------------------- writer-produced logs

  predicate Writable(syncs: seq<OffsetSync>) {
    forall i :: 0 <= i < |syncs| ==> |syncs[i].tp.topic| <= 65533
  }

  /** The slots that hold each partition's last sync and nothing else. */
  function LastOnly(syncs: seq<OffsetSync>): map<TopicPartition, Slots> {
    if syncs == [] then map[] else map[syncs[0].tp := Fill(syncs[0])] + LastOnly(syncs[1..])
  }

  lemma FeedOneUnready(st: Store, sync: OffsetSync)
    requires !st.ready && |sync.tp.topic| <= 65533
    ensures Decode(Encode(sync)) == Ok(sync)
    ensures FeedOne(st, Encode(sync)) == st.(syncs := st.syncs[sync.tp := Fill(sync)])
  {
    RoundTripIff(sync);
  }

  lemma {:induction false} WrittenReadable(syncs: seq<OffsetSync>)
    requires Writable(syncs)
    ensures !Panics(EncodeAll(syncs))
  {
    if syncs != [] {
      RoundTripIff(syncs[0]);
      WrittenReadable(syncs[1..]);
      var log, rest := EncodeAll(syncs), EncodeAll(syncs[1..]);
      forall i | 0 <= i < |log|
        ensures Decode(log[i]) != Panic
      {
        assert log[i] == if i == 0 then Encode(syncs[0]) else rest[i - 1];
      }
    }
  }

  lemma OverrideLater<K, V>(m: map<K, V>, k: K, v: V, rest: map<K, V>)
    ensures m[k := v] + rest == m + (map[k := v] + rest)
  {
  }

  lemma {:induction false} FeedUnready(st: Store, syncs: seq<OffsetSync>)
    requires !st.ready && Writable(syncs)
    ensures Feed(st, EncodeAll(syncs)).syncs == st.syncs + LastOnly(syncs)
    decreases |syncs|
  {
    if syncs != [] {
      var s := syncs[0];
      FeedOneUnready(st, s);
      var log := EncodeAll(syncs);
      assert log[0] == Encode(s) && log[1..] == EncodeAll(syncs[1..]);
      hide Encode, Decode, FeedOne, Fill, Handle, EncodeAll;
      FeedUnready(st.(syncs := st.syncs[s.tp := Fill(s)]), syncs[1..]);
      OverrideLater(st.syncs, s.tp, Fill(s), LastOnly(syncs[1..]));
    }
  }

  /** LastOnly holds, for each partition of the log, 64 copies of its last sync. */
  lemma {:induction false} LastOnlyExact(syncs: seq<OffsetSync>, tp: TopicPartition)
    ensures tp in LastOnly(syncs) <==> exists i :: 0 <= i < |syncs| && syncs[i].tp == tp
    ensures forall i :: 0 <= i < |syncs| && syncs[i].tp == tp && (forall j :: i < j < |syncs| ==> syncs[j].tp != tp) ==>
      LastOnly(syncs)[tp] == Fill(syncs[i])
  {
    if syncs != [] {
      var rest := syncs[1..];
      LastOnlyExact(rest, tp);
      assert forall i :: 1 <= i < |syncs| ==> syncs[i] == rest[i - 1];
      if i :| 0 <= i < |rest| && rest[i].tp == tp {
        assert syncs[i + 1].tp == tp;
      }
      forall i | 0 <= i < |syncs| && syncs[i].tp == tp && forall j :: i < j < |syncs| ==> syncs[j].tp != tp
        ensures LastOnly(syncs)[tp] == Fill(syncs[i])
      {
        if i > 0 {
          assert rest[i - 1].tp == tp;
          assert forall j :: i - 1 < j < |rest| ==> rest[j] == syncs[j + 1];
        } else {
          assert forall j :: 0 <= j < |rest| ==> rest[j] == syncs[j + 1];
        }
      }
    }
  }

  // ---------------------------------------------------------------- compaction

  predicate HasKey(log: seq<Raw>, key: seq<byte>) {
    exists i :: 0 <= i < |log| && log[i].key == key
  }

  /** `kept` is `log` after any amount of log compaction: records may go that have a later record
      with the same key. */
  predicate Compaction(log: seq<Raw>, kept: seq<Raw>) {
    if log == [] then kept == []
    else
      || (kept != [] && kept[0] == log[0] && Compaction(log[1..], kept[1..]))
      || (HasKey(log[1..], log[0].key) && Compaction(log[1..], kept))
  }

  /** `kept` is the part of `log` at the ascending positions `at`. */
  ghost predicate PartOf(log: seq<Raw>, kept: seq<Raw>, at: seq<nat>) {
    && |at| == |kept|
    && (forall k :: 0 <= k < |at| ==> at[k] < |log| && kept[k] == log[at[k]])
    && (forall j, k :: 0 <= j < k < |at| ==> at[j] < at[k])
  }

  /** The record at i is the latest of its key. */
  ghost predicate Latest(log: seq<Raw>, i: nat)
    requires i < |log|
  {
    !HasKey(log[i + 1..], log[i].key)
  }

  /** From `lo` on all latest records are among those at `at`. */
  ghost predicate KeepsLatest(log: seq<Raw>, at: seq<nat>, lo: nat) {
    forall i: nat :: lo <= i < |log| && Latest(log, i) ==> i in at
  }

  function Shift(at: seq<nat>, d: int): (r: seq<nat>)
    requires forall k :: 0 <= k < |at| ==> at[k] + d >= 0
    ensures |r| == |at| && forall k :: 0 <= k < |at| ==> r[k] == at[k] + d
  {
    seq(|at|, k requires 0 <= k < |at| => at[k] + d)
  }

  lemma PartOfRest(log: seq<Raw>, kept: seq<Raw>, at: seq<nat>)
    requires log != [] && forall k :: 0 <= k < |at| ==> at[k] > 0
    ensures PartOf(log, kept, at) <==> PartOf(log[1..], kept, Shift(at, -1))
  {
    var rest, down := log[1..], Shift(at, -1);
    assert forall k :: 0 <= k < |at| && at[k] < |log| ==> rest[down[k]] == log[at[k]];
    assert forall k :: 0 <= k < |at| ==> at[k] == down[k] + 1;
  }

  lemma InShift(at: seq<nat>, i: int)
    requires forall k :: 0 <= k < |at| ==> at[k] > 0
    ensures i in Shift(at, -1) <==> i + 1 in at
  {
    var down := Shift(at, -1);
    if i + 1 in at {
      var k :| 0 <= k < |at| && at[k] == i + 1;
      assert down[k] == i;
    }
    if i in down {
      var k :| 0 <= k < |down| && down[k] == i;
      assert at[k] == i + 1;
    }
  }

  lemma LatestLater(log: seq<Raw>, i: nat)
    requires i + 1 < |log|
    ensures Latest(log[1..], i) <==> Latest(log, i + 1)
  {
    assert log[1..][i + 1..] == log[i + 2..];
  }

  lemma LatestOfRest(log: seq<Raw>, at: seq<nat>)
    requires log != [] && forall k :: 0 <= k < |at| ==> at[k] > 0
    ensures KeepsLatest(log[1..], Shift(at, -1), 0) <==> KeepsLatest(log, at, 1)
  {
    hide Latest, Shift;
    var rest, down := log[1..], Shift(at, -1);
    if KeepsLatest(log, at, 1) {
      forall i: nat | i < |rest| && Latest(rest, i)
        ensures i in down
      {
        LatestLater(log, i);
        InShift(at, i);
      }
    }
    if KeepsLatest(rest, down, 0) {
      forall i: nat | 1 <= i < |log| && Latest(log, i)
        ensures i in at
      {
        LatestLater(log, i - 1);
        InShift(at, i - 1);
      }
    }
  }

  lemma PartOfCons(log: seq<Raw>, kept: seq<Raw>, at: seq<nat>)
    requires log != [] && PartOf(log, kept, at) && forall k :: 0 <= k < |at| ==> at[k] > 0
    ensures PartOf(log, [log[0]] + kept, [0] + at)
  {
    var all, here := [log[0]] + kept, [0] + at;
    forall k | 0 <= k < |here|
      ensures here[k] < |log| && all[k] == log[here[k]]
    {
    }
  }

  lemma PartOfTail(log: seq<Raw>, kept: seq<Raw>, at: seq<nat>)
    requires PartOf(log, kept, at) && at != []
    ensures PartOf(log, kept[1..], at[1..]) && forall k :: 0 <= k < |at| - 1 ==> at[1..][k] > 0
  {
    var later, part := at[1..], kept[1..];
    forall k | 0 <= k < |later|
      ensures at[0] < later[k] < |log| && part[k] == log[later[k]]
    {
      assert later[k] == at[k + 1] && part[k] == kept[k + 1];
    }
    assert forall k :: 0 <= k < |later| ==> later[k] == at[k + 1];
  }

  /** Every part of a log that keeps the latest record of each key counts as compacted from it. */
  lemma {:induction false} CompactionCovers(log: seq<Raw>, kept: seq<Raw>, at: seq<nat>)
    requires PartOf(log, kept, at) && KeepsLatest(log, at, 0)
    ensures Compaction(log, kept)
    decreases |log|
  {
    if log != [] {
      assert log[0 + 1..] == log[1..];
      if at != [] && at[0] == 0 {
        assert at == [0] + at[1..];
        PartOfTail(log, kept, at);
        assert KeepsLatest(log, at[1..], 1);
        PartOfRest(log, kept[1..], at[1..]);
        LatestOfRest(log, at[1..]);
        CompactionCovers(log[1..], kept[1..], Shift(at[1..], -1));
      } else {
        assert !Latest(log, 0);
        PartOfRest(log, kept, at);
        LatestOfRest(log, at);
        CompactionCovers(log[1..], kept, Shift(at, -1));
      }
    }
  }

  /** And nothing else does. */
  lemma {:induction false} CompactionIsPart(log: seq<Raw>, kept: seq<Raw>) returns (at: seq<nat>)
    requires Compaction(log, kept)
    ensures PartOf(log, kept, at) && KeepsLatest(log, at, 0)
    decreases |log|
  {
    at := [];
    if log != [] {
      assert log[0 + 1..] == log[1..];
      if kept != [] && kept[0] == log[0] && Compaction(log[1..], kept[1..]) {
        var low := CompactionIsPart(log[1..], kept[1..]);
        at := BackUp(log, kept[1..], low);
        assert kept == [log[0]] + kept[1..];
        PartOfCons(log, kept[1..], at);
        at := [0] + at;
      } else {
        var low := CompactionIsPart(log[1..], kept);
        at := BackUp(log, kept, low);
      }
    }
  }

  lemma BackUp(log: seq<Raw>, kept: seq<Raw>, low: seq<nat>) returns (at: seq<nat>)
    requires log != [] && PartOf(log[1..], kept, low) && KeepsLatest(log[1..], low, 0)
    ensures (forall k :: 0 <= k < |at| ==> at[k] > 0) && PartOf(log, kept, at) && KeepsLatest(log, at, 1)
  {
    at := Shift(low, 1);
    assert Shift(at, -1) == low;
    hide PartOf, KeepsLatest;
    PartOfRest(log, kept, at);
    LatestOfRest(log, at);
  }

  lemma KeyMeansPartition(syncs: seq<OffsetSync>, tp: TopicPartition)
    requires HasKey(EncodeAll(syncs), KeyBytes(tp))
    ensures tp in LastOnly(syncs)
  {
    var log := EncodeAll(syncs);
    var i :| 0 <= i < |log| && log[i].key == KeyBytes(tp);
    if syncs != [] {
      assert log[0] == Encode(syncs[0]) && log[1..] == EncodeAll(syncs[1..]);
      if i == 0 {
        KeyInjective(syncs[0].tp, tp);
      } else {
        assert log[1..][i - 1].key == KeyBytes(tp);
        KeyMeansPartition(syncs[1..], tp);
      }
    }
  }

  lemma ConsSync(sync: OffsetSync, g: seq<OffsetSync>)
    ensures EncodeAll([sync] + g) == [Encode(sync)] + EncodeAll(g)
    ensures LastOnly([sync] + g) == map[sync.tp := Fill(sync)] + LastOnly(g)
    ensures Writable([sync] + g) <==> |sync.tp.topic| <= 65533 && Writable(g)
  {
    var all := [sync] + g;
    assert all[0] == sync && all[1..] == g;
    assert Writable(all) ==> forall i :: 0 <= i < |g| ==> g[i] == all[i + 1];
  }

  /** Compaction by serialised key drops no partition's last sync. */
  lemma {:induction false} CompactionKeepsLast(syncs: seq<OffsetSync>, kept: seq<Raw>) returns (g: seq<OffsetSync>)
    requires Writable(syncs) && Compaction(EncodeAll(syncs), kept)
    ensures kept == EncodeAll(g) && Writable(g) && LastOnly(g) == LastOnly(syncs)
  {
    var log := EncodeAll(syncs);
    if syncs == [] {
      g := [];
    } else {
      var sync, rest := syncs[0], syncs[1..];
      assert syncs == [sync] + rest;
      ConsSync(sync, rest);
      assert log[0] == Encode(sync) && log[1..] == EncodeAll(rest);
      hide EncodeAll, Encode, LastOnly, Writable, Fill, HasKey, KeyBytes;
      if kept != [] && kept[0] == log[0] && Compaction(log[1..], kept[1..]) {
        g := CompactionKeepsLast(rest, kept[1..]);
        ConsSync(sync, g);
        g := [sync] + g;
        assert kept == [kept[0]] + kept[1..];
      } else {
        g := CompactionKeepsLast(rest, kept);
        assert log[0].key == KeyBytes(sync.tp) by {
          EncodedKey(sync);
        }
        KeyMeansPartition(rest, sync.tp);
        assert LastOnly(syncs) == LastOnly(rest);
      }
    }
  }

  lemma EncodedKey(sync: OffsetSync)
    ensures Encode(sync).key == KeyBytes(sync.tp)
  {
  }

  /** Recovery: however compacted the topic is and however its records are split into polls, a fresh
      store that has read it holds for each partition 64 copies of the last sync written. */
  lemma RecoversLast(syncs: seq<OffsetSync>, kept: seq<Raw>, polls: seq<Poll>)
    requires Writable(syncs) && Compaction(EncodeAll(syncs), kept) && ReadRecords(polls) == kept
    ensures Feed(Store(map[], false), ReadRecords(polls)).syncs == LastOnly(syncs)
    ensures !Panics(kept)
  {
    var g := CompactionKeepsLast(syncs, kept);
    FeedUnready(Store(map[], false), g);
    WrittenReadable(g);
    assert map[] + LastOnly(g) == LastOnly(g);
  }

  lemma FilledAnswers(st: Store, last: OffsetSync, upstream: int64)
    requires st.ready && last.tp in st.syncs && st.syncs[last.tp] == Fill(last)
    ensures Translate(st, last.tp, upstream) ==
      (if upstream < last.upstream then -1
       else if upstream == last.upstream then last.downstream else Wrap64(last.downstream + 1), true)
  {
  }

  /** After recovery, which is over at the first poll that times out or comes back empty without errors:
      a position before its partition's last written sync is reported as too old, that sync's own offset
      is answered with its downstream offset, and any later one with the offset after that. */
  lemma RecoveredAnswers(syncs: seq<OffsetSync>, kept: seq<Raw>, polls: seq<Poll>, end: nat, i: nat, upstream: int64)
    requires Writable(syncs) && Compaction(EncodeAll(syncs), kept) && ReadRecords(polls) == kept
    requires DecidesAt(polls, end) && (polls[end] == TimedOut || polls[end] == Fetched([], false))
    requires i < |syncs| && forall j :: i < j < |syncs| ==> syncs[j].tp != syncs[i].tp
    ensures Translate(AfterReading(Store(map[], false), polls), syncs[i].tp, upstream) ==
      (if upstream < syncs[i].upstream then -1
       else if upstream == syncs[i].upstream then syncs[i].downstream
       else Wrap64(syncs[i].downstream + 1), true)
  {
    RecoversLast(syncs, kept, polls);
    LastOnlyExact(syncs, syncs[i].tp);
    OutcomeExact(polls);
    FilledAnswers(AfterReading(Store(map[], false), polls), syncs[i], upstream);
  }
}
