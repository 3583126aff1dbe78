/** The replication loop: asynchronous produces, commit boundaries, crashes and restarts. */
module Replication {

  /** A source record, by partition and offset. */
  datatype Id = Id(partition: int, offset: int)

  type Offsets = map<int, int>

  datatype Config = Config(partitions: set<int>, source: set<Id>, begin: Offsets, commitBatch: int)

  /** Where the loop is: between polls, after a batch was handed to the producer, waiting at a commit
      boundary, committing, waiting during shutdown; Down is a stopped or crashed process. */
  datatype Loop = Polling | Polled | Draining | Committing | Stopping | Down

  /** The process and the two clusters: `committed` survives on the source cluster and `acked` on the
      target; the other fields above the line die with the process. Below the line is history that no
      step reads: what this process polled (`polled`, from `resumed` on) and saw acknowledged, whose
      retries ran out since the last boundary (`window`) or before it (`forgotten`, the failures whose
      count a boundary has cleared) or at any time (`exhausted`), and `lost`, to which a commit adds
      the forgotten records that no process ever got acknowledged. */
  datatype State = State(
    loop: Loop, position: Offsets, inflight: set<Id>, produceErrors: int, sinceCommit: int,
    committed: Offsets, acked: set<Id>,
    resumed: Offsets, polled: set<Id>, ackedNow: set<Id>, window: set<Id>, forgotten: set<Id>,
    exhausted: set<Id>, lost: set<Id>)

  datatype Action =
    | Poll(to: Offsets)            // records up to these offsets arrive and are produced
    | AfterBatch(timeDue: bool)    // the commit test after a batch
    | Ack(id: Id)                  // a produce, or one of its retries, succeeds
    | Exhaust(id: Id)              // a produce and all its retries fail
    | Boundary                     // the wait is over: errors are swapped out and examined
    | Commit(ok: bool)
    | Quit                         // the context is cancelled between polls
    | FinalCommit(ok: bool)
    | Crash
    | Start

  /** The source records of the half-open ranges [lo, hi). */
  function Range(c: Config, lo: Offsets, hi: Offsets): set<Id>
    requires c.partitions <= lo.Keys && c.partitions <= hi.Keys
  {
    set id | id in c.source && id.partition in c.partitions && lo[id.partition] <= id.offset < hi[id.partition]
  }

  predicate WellFormed(c: Config) {
    c.partitions <= c.begin.Keys
  }

  predicate Shape(c: Config, s: State) {
    c.partitions <= s.position.Keys && c.partitions <= s.committed.Keys && c.partitions <= s.resumed.Keys
  }

  function Init(c: Config): State {
    State(Down, c.begin, {}, 0, 0, c.begin, {}, c.begin, {}, {}, {}, {}, {}, {})
  }

  predicate Enabled(c: Config, s: State, a: Action)
    requires Shape(c, s)
  {
    match a
    case Poll(to) =>
      && s.loop == Polling && c.partitions <= to.Keys
      && (forall p :: p in c.partitions ==> s.position[p] <= to[p])
      && Range(c, s.position, to) != {}
    case AfterBatch(_) => s.loop == Polled
    case Ack(id) => id in s.inflight
    case Exhaust(id) => id in s.inflight
    case Boundary => s.loop == Draining && s.inflight == {}
    case Commit(_) => s.loop == Committing
    case Quit => s.loop == Polling
    case FinalCommit(_) => s.loop == Stopping && s.inflight == {}
    case Crash => s.loop != Down
    case Start => s.loop == Down
  }

  function Committed(s: State): State {
    s.(committed := s.position, lost := s.lost + (s.forgotten - s.acked), sinceCommit := 0)
  }

  function Apply(c: Config, s: State, a: Action): (r: State)
    requires Shape(c, s) && Enabled(c, s, a)
    ensures Shape(c, r)
  {
    match a
    case Poll(to) =>
      var batch := Range(c, s.position, to);
      s.(loop := Polled, position := to, inflight := s.inflight + batch, polled := s.polled + batch,
         sinceCommit := s.sinceCommit + |batch|)
    case AfterBatch(timeDue) =>
      s.(loop := if s.sinceCommit >= c.commitBatch || timeDue then Draining else Polling)
    case Ack(id) =>
      s.(inflight := s.inflight - {id}, acked := s.acked + {id}, ackedNow := s.ackedNow + {id})
    case Exhaust(id) =>
      s.(inflight := s.inflight - {id}, produceErrors := s.produceErrors + 1,
         window := s.window + {id}, exhausted := s.exhausted + {id})
    case Boundary =>
      s.(loop := if s.produceErrors > 0 then Polling else Committing, produceErrors := 0,
         forgotten := s.forgotten + s.window, window := {})
    case Commit(ok) => (if ok then Committed(s) else s).(loop := Polling)
    case Quit => s.(loop := Stopping)
    case FinalCommit(ok) => (if s.produceErrors == 0 && ok then Committed(s) else s).(loop := Down, inflight := {})
    case Crash => s.(loop := Down, inflight := {})
    case Start =>
      s.(loop := Polling, position := s.committed, inflight := {}, produceErrors := 0, sinceCommit := 0,
         resumed := s.committed, polled := {}, ackedNow := {}, window := {}, forgotten := {})
  }

  /** A run is a sequence of actions from the first start of the first process on. */
  predicate Legal(c: Config, run: seq<Action>)
    decreases |run|, 0
  {
    && WellFormed(c)
    && (run == [] || (Legal(c, run[..|run| - 1]) && Enabled(c, Exec(c, run[..|run| - 1]), run[|run| - 1])))
  }

  function Exec(c: Config, run: seq<Action>): (s: State)
    requires Legal(c, run)
    ensures Shape(c, s)
    decreases |run|, 1
  {
    if run == [] then Init(c) else Apply(c, Exec(c, run[..|run| - 1]), run[|run| - 1])
  }

  // ---------------------------------------------------------------- the invariant

  predicate Below(c: Config, lo: Offsets, hi: Offsets)
    requires c.partitions <= lo.Keys && c.partitions <= hi.Keys
  {
    forall p :: p in c.partitions ==> lo[p] <= hi[p]
  }

  /** Source records below the committed offsets that no process ever got acknowledged. */
  function Unacked(c: Config, s: State): set<Id>
    requires WellFormed(c) && Shape(c, s)
  {
    Range(c, c.begin, s.committed) - s.acked
  }

  /** `whole` is split into four parts. */
  predicate Parts(whole: set<Id>, a: set<Id>, b: set<Id>, x: set<Id>, y: set<Id>) {
    && whole == a + b + x + y
    && a !! b && a !! x && a !! y && b !! x && b !! y && x !! y
  }

  lemma PartsMove(whole: set<Id>, a: set<Id>, b: set<Id>, x: set<Id>, y: set<Id>, id: Id)
    requires Parts(whole, a, b, x, y) && id in a
    ensures Parts(whole, a - {id}, b + {id}, x, y)
  {
  }

  lemma PartsSwap(whole: set<Id>, a: set<Id>, b: set<Id>, x: set<Id>, y: set<Id>)
    requires Parts(whole, a, b, x, y)
    ensures Parts(whole, a, x, b, y)
  {
  }

  lemma PartsGrow(whole: set<Id>, a: set<Id>, b: set<Id>, x: set<Id>, y: set<Id>, more: set<Id>)
    requires Parts(whole, a, b, x, y) && whole !! more
    ensures Parts(whole + more, a + more, b, x, y)
  {
  }

  lemma PartsMerge(whole: set<Id>, a: set<Id>, b: set<Id>, x: set<Id>, y: set<Id>)
    requires Parts(whole, a, b, x, y)
    ensures Parts(whole, a, b, {}, y + x)
  {
  }

  /** While a process is up, what it polled is in flight, acknowledged, or exhausted before or after
      the last boundary, and only one of these; the error counter counts the latter. */
  predicate Accounted(c: Config, s: State)
    requires Shape(c, s)
  {
    && s.polled == Range(c, s.resumed, s.position)
    && Parts(s.polled, s.inflight, s.ackedNow, s.window, s.forgotten)
    && s.produceErrors == |s.window|
  }

  /** The three cursors never cross, and the commit counter counts what is uncommitted. */
  predicate Cursors(c: Config, s: State)
    requires Shape(c, s)
  {
    && Below(c, s.resumed, s.committed) && Below(c, s.committed, s.position)
    && s.sinceCommit == |Range(c, s.committed, s.position)|
    && s.inflight <= Range(c, s.committed, s.position)
  }

  /** What is lost is exactly what is committed but was never acknowledged, and all of it had its
      retries exhausted. */
  predicate Losses(c: Config, s: State)
    requires WellFormed(c) && Shape(c, s)
  {
    && Below(c, c.begin, s.committed) && Below(c, c.begin, s.resumed)
    && s.lost == Unacked(c, s) && s.lost <= s.exhausted
    && s.window + s.forgotten <= s.exhausted
    && s.ackedNow <= s.acked
  }

  predicate Inv(c: Config, s: State) {
    && WellFormed(c) && Shape(c, s)
    && (s.loop != Down ==> Cursors(c, s) && Accounted(c, s))
    && (s.loop == Down ==> s.inflight == {})
    && (s.loop == Committing ==> s.inflight == {} && s.window == {})
    && Losses(c, s)
  }

  lemma InvInit(c: Config)
    requires WellFormed(c)
    ensures Inv(c, Init(c))
  {
  }

  lemma RangeSplit(c: Config, lo: Offsets, mid: Offsets, hi: Offsets)
    requires c.partitions <= lo.Keys && c.partitions <= mid.Keys && c.partitions <= hi.Keys
    requires Below(c, lo, mid) && Below(c, mid, hi)
    ensures Range(c, lo, hi) == Range(c, lo, mid) + Range(c, mid, hi)
    ensures Range(c, lo, mid) !! Range(c, mid, hi)
    ensures |Range(c, lo, hi)| == |Range(c, lo, mid)| + |Range(c, mid, hi)|
  {
    assert Range(c, lo, hi) == Range(c, lo, mid) + Range(c, mid, hi);
  }

  lemma BelowChain(c: Config, lo: Offsets, mid: Offsets, hi: Offsets)
    requires c.partitions <= lo.Keys && c.partitions <= mid.Keys && c.partitions <= hi.Keys
    requires Below(c, lo, mid) && Below(c, mid, hi)
    ensures Below(c, lo, hi)
  {
  }

  /** Losses depend on the committed offsets and the acknowledgements alone. */
  lemma LossesKept(c: Config, s: State, t: State)
    requires WellFormed(c) && Shape(c, s) && Shape(c, t) && Losses(c, s) && Below(c, c.begin, t.resumed)
    requires t.committed == s.committed && t.acked == s.acked && t.lost == s.lost
    requires s.exhausted <= t.exhausted && t.window + t.forgotten <= t.exhausted && t.ackedNow <= t.acked
    ensures Losses(c, t)
  {
    hide Range, Below;
  }

  lemma PollCounts(c: Config, s: State, to: Offsets)
    requires Inv(c, s) && Enabled(c, s, Poll(to))
    ensures Cursors(c, Apply(c, s, Poll(to)))
  {
    assert Below(c, s.position, to);
    BelowChain(c, s.committed, s.position, to);
    RangeSplit(c, s.committed, s.position, to);
    hide Range, Below, Parts, Accounted, Losses;
  }

  lemma PollAccounts(c: Config, s: State, to: Offsets)
    requires Inv(c, s) && Enabled(c, s, Poll(to))
    ensures Accounted(c, Apply(c, s, Poll(to)))
  {
    assert Below(c, s.position, to);
    BelowChain(c, s.resumed, s.committed, s.position);
    RangeSplit(c, s.resumed, s.position, to);
    hide Range, Below, Parts, Cursors, Losses;
    PartsGrow(s.polled, s.inflight, s.ackedNow, s.window, s.forgotten, Range(c, s.position, to));
  }

  lemma KeptByPoll(c: Config, s: State, to: Offsets)
    requires Inv(c, s) && Enabled(c, s, Poll(to))
    ensures Inv(c, Apply(c, s, Poll(to)))
  {
    PollCounts(c, s, to);
    PollAccounts(c, s, to);
    hide Cursors, Accounted, Range, Below, Unacked;
    LossesKept(c, s, Apply(c, s, Poll(to)));
  }

  lemma KeptByAck(c: Config, s: State, id: Id)
    requires Inv(c, s) && id in s.inflight
    ensures Inv(c, Apply(c, s, Ack(id)))
  {
    assert id !in Range(c, c.begin, s.committed) by {
      assert id in Range(c, s.committed, s.position);
    }
    hide Range, Below, Parts;
    var t := Apply(c, s, Ack(id));
    assert Unacked(c, t) == Unacked(c, s);
    assert Losses(c, t);
    assert Cursors(c, t);
    hide Losses, Cursors, Unacked;
    PartsMove(s.polled, s.inflight, s.ackedNow, s.window, s.forgotten, id);
  }

  lemma ExhaustAccounts(c: Config, s: State, id: Id)
    requires Inv(c, s) && id in s.inflight
    ensures Accounted(c, Apply(c, s, Exhaust(id)))
  {
    assert id !in s.window;
    hide Range, Below, Parts, Losses, Cursors;
    var t := Apply(c, s, Exhaust(id));
    PartsSwap(s.polled, s.inflight, s.ackedNow, s.window, s.forgotten);
    PartsMove(s.polled, s.inflight, s.window, s.ackedNow, s.forgotten, id);
    PartsSwap(s.polled, t.inflight, t.window, t.ackedNow, t.forgotten);
  }

  lemma KeptByExhaust(c: Config, s: State, id: Id)
    requires Inv(c, s) && id in s.inflight
    ensures Inv(c, Apply(c, s, Exhaust(id)))
  {
    ExhaustAccounts(c, s, id);
    hide Range, Below, Accounted, Unacked;
    LossesKept(c, s, Apply(c, s, Exhaust(id)));
    hide Losses;
  }

  lemma KeptByBoundary(c: Config, s: State)
    requires Inv(c, s) && Enabled(c, s, Boundary)
    ensures Inv(c, Apply(c, s, Boundary))
  {
    hide Range, Below, Parts, Unacked;
    var t := Apply(c, s, Boundary);
    LossesKept(c, s, t);
    assert Cursors(c, t);
    hide Losses, Cursors;
    PartsMerge(s.polled, s.inflight, s.ackedNow, s.window, s.forgotten);
  }

  lemma StartAccounts(c: Config, s: State)
    requires Inv(c, s) && Enabled(c, s, Start)
    ensures Cursors(c, Apply(c, s, Start)) && Accounted(c, Apply(c, s, Start))
  {
    assert Range(c, s.committed, s.committed) == {};
    assert Below(c, s.committed, s.committed);
    hide Range, Below, Losses;
  }

  lemma StartLosses(c: Config, s: State)
    requires Inv(c, s) && Enabled(c, s, Start)
    ensures Losses(c, Apply(c, s, Start))
  {
    hide Range, Below, Unacked, Cursors, Accounted;
    LossesKept(c, s, Apply(c, s, Start));
  }

  lemma KeptByStart(c: Config, s: State)
    requires Inv(c, s) && Enabled(c, s, Start)
    ensures Inv(c, Apply(c, s, Start))
  {
    var t := Apply(c, s, Start);
    assert t.loop == Polling;
    hide Apply, Enabled, Range, Below, Unacked, Cursors, Accounted, Losses;
    StartAccounts(c, s);
    StartLosses(c, s);
  }

  /** A commit loses exactly the forgotten, never acknowledged records: what it moves past was
      acknowledged or forgotten, since nothing is in flight and the last window had no failure. */
  lemma CommitLoses(c: Config, s: State)
    requires Inv(c, s) && s.loop != Down && s.inflight == {} && s.window == {}
    ensures Unacked(c, Committed(s)) == s.lost + (s.forgotten - s.acked)
  {
    BelowChain(c, s.resumed, s.committed, s.position);
    RangeSplit(c, c.begin, s.committed, s.position);
    RangeSplit(c, s.resumed, s.committed, s.position);
    RangeSplit(c, c.begin, s.resumed, s.position);
    assert s.polled == s.ackedNow + s.forgotten;
    PassedUnacked(Range(c, c.begin, s.committed), Range(c, s.committed, s.position),
                  Range(c, c.begin, s.resumed), s.polled, s.ackedNow, s.forgotten, s.acked);
  }

  lemma PassedUnacked(before: set<Id>, passed: set<Id>, early: set<Id>, polled: set<Id>,
                      ackedNow: set<Id>, forgotten: set<Id>, acked: set<Id>)
    requires passed <= polled == ackedNow + forgotten && ackedNow <= acked
    requires before + passed == early + polled
    ensures (before + passed) - acked == (before - acked) + (forgotten - acked)
  {
  }

  lemma KeptByCommit(c: Config, s: State)
    requires Inv(c, s) && s.loop != Down && s.inflight == {} && s.window == {}
    ensures Inv(c, Committed(s).(loop := Polling)) && Inv(c, Committed(s).(loop := Down))
  {
    var s' := Committed(s);
    CommitLoses(c, s);
    BelowChain(c, c.begin, s.committed, s.position);
    BelowChain(c, s.resumed, s.committed, s.position);
    assert Range(c, s.position, s.position) == {};
    assert Below(c, s.position, s.position);
    hide Range, Below;
    assert Unacked(c, s'.(loop := Polling)) == Unacked(c, s') == Unacked(c, s'.(loop := Down));
  }

  /** Control steps move no record. */
  lemma KeptByControl(c: Config, s: State, a: Action)
    requires Inv(c, s) && Enabled(c, s, a)
    requires a.AfterBatch? || a.Quit? || a.Crash? || (a.Commit? && !a.ok)
          || (a.FinalCommit? && (s.produceErrors > 0 || !a.ok))
    ensures Inv(c, Apply(c, s, a))
  {
    var t := Apply(c, s, a);
    hide Range, Below, Parts, Unacked, Cursors, Accounted, Losses;
    assert t == s.(loop := t.loop, inflight := t.inflight);
    assert t.loop != Committing && (t.loop == Down ==> t.inflight == {});
    assert t.loop != Down ==> t.inflight == s.inflight && s.loop != Down;
    hide Apply, Enabled;
    ControlKeeps(c, s, t);
  }

  lemma ControlKeeps(c: Config, s: State, t: State)
    requires WellFormed(c) && Shape(c, s) && t == s.(loop := t.loop, inflight := t.inflight) && Losses(c, s)
    requires t.loop != Down ==> t.inflight == s.inflight && Cursors(c, s) && Accounted(c, s)
    ensures Losses(c, t) && (t.loop != Down ==> Cursors(c, t) && Accounted(c, t))
  {
    hide Range, Below, Parts;
  }

  /** Every action of the loop, the producer, the operator and the machine keeps the invariant. */
  lemma InvStep(c: Config, s: State, a: Action)
    requires Inv(c, s) && Enabled(c, s, a)
    ensures Inv(c, Apply(c, s, a))
  {
    hide Cursors, Losses, Range, Parts, Below;
    match a
    case Poll(to) => KeptByPoll(c, s, to);
    case Ack(id) => KeptByAck(c, s, id);
    case Exhaust(id) => KeptByExhaust(c, s, id);
    case Boundary => KeptByBoundary(c, s);
    case Start => KeptByStart(c, s);
    case Commit(ok) =>
      if ok { KeptByCommit(c, s); } else { KeptByControl(c, s, a); }
    case FinalCommit(ok) =>
      if s.produceErrors == 0 && ok {
        assert s.window == {};
        KeptByCommit(c, s);
      } else {
        KeptByControl(c, s, a);
      }
    case _ => KeptByControl(c, s, a);
  }

  // ---------------------------------------------------------------- at least once

  lemma {:induction false} InvRun(c: Config, run: seq<Action>)
    requires Legal(c, run)
    ensures Inv(c, Exec(c, run))
  {
    if run == [] {
      InvInit(c);
    } else {
      var before := run[..|run| - 1];
      InvRun(c, before);
      InvStep(c, Exec(c, before), run[|run| - 1]);
    }
  }

  /** Over any run of polls, callbacks in any order, boundaries, crashes and restarts, every source
      record is acknowledged, still to be polled by whoever resumes from the committed offsets, or
      lost; and the lost ones are exactly the committed, never acknowledged ones, each of which ran out
      of retries. */
  lemma NothingSkipped(c: Config, run: seq<Action>, id: Id)
    requires Legal(c, run)
    requires id in c.source && id.partition in c.partitions && c.begin[id.partition] <= id.offset
    ensures var s := Exec(c, run);
            && (id in s.lost <==> id !in s.acked && id.offset < s.committed[id.partition])
            && (id in s.lost ==> id in s.exhausted)
  {
    InvRun(c, run);
  }

  /** While a process is up its polled records are in flight, acknowledged or exhausted, and nothing
      is in flight when it commits. */
  lemma PolledAccounted(c: Config, run: seq<Action>)
    requires Legal(c, run) && Exec(c, run).loop != Down
    ensures var s := Exec(c, run);
            && Range(c, s.resumed, s.position) == s.inflight + s.ackedNow + s.window + s.forgotten
            && s.inflight !! s.ackedNow + s.window + s.forgotten
            && s.ackedNow !! s.window + s.forgotten
            && (s.loop == Committing ==> s.inflight == {} && s.window == {})
  {
    InvRun(c, run);
  }

  /** A boundary goes on to commit exactly when no record ran out of retries since the last one. */
  lemma BoundaryIff(c: Config, s: State)
    requires Inv(c, s) && Enabled(c, s, Boundary)
    ensures Apply(c, s, Boundary).loop == Committing <==> s.window == {}
    ensures Apply(c, s, Boundary).committed == s.committed
  {
  }

  /** A batch leads to a commit boundary exactly when the interval is over or at least commitBatch
      records are polled and not committed. */
  lemma BatchIff(c: Config, s: State, timeDue: bool)
    requires Inv(c, s) && Enabled(c, s, AfterBatch(timeDue))
    ensures var t := Apply(c, s, AfterBatch(timeDue));
            && (t.loop == Draining <==> timeDue || |Range(c, s.committed, s.position)| >= c.commitBatch)
            && (t.loop == Polling <==> !timeDue && |Range(c, s.committed, s.position)| < c.commitBatch)
            && t == s.(loop := t.loop)
  {
    hide Range, Accounted, Losses;
  }

  /** Since the last start or successful commit a boundary was skipped or a commit failed. */
  predicate Overdue(c: Config, run: seq<Action>)
    requires Legal(c, run)
    decreases |run|
  {
    run != [] &&
    var before, a := run[..|run| - 1], run[|run| - 1];
    match a
    case Start => false
    case Commit(ok) => !ok
    case Boundary => Overdue(c, before) || Exec(c, before).window != {}
    case _ => Overdue(c, before)
  }

  lemma FewStep(c: Config, s: State, a: Action)
    requires Inv(c, s) && Enabled(c, s, a) && c.commitBatch >= 1
    requires a == Commit(false) || (a == Boundary && s.window != {})
          || a == Start || a == Commit(true) || (s.loop == Polling ==> s.sinceCommit < c.commitBatch)
    ensures var t := Apply(c, s, a);
            || a == Commit(false) || (a == Boundary && s.window != {})
            || (t.loop == Polling ==> t.sinceCommit < c.commitBatch)
  {
    hide Range, Below, Losses, Parts;
    if a == Boundary {
      BoundaryIff(c, s);
    }
  }

  lemma {:induction false} FewSinceCommit(c: Config, run: seq<Action>)
    requires Legal(c, run) && c.commitBatch >= 1 && !Overdue(c, run)
    ensures Exec(c, run).loop == Polling ==> Exec(c, run).sinceCommit < c.commitBatch
    decreases |run|
  {
    if run != [] {
      var before, a := run[..|run| - 1], run[|run| - 1];
      InvRun(c, before);
      if a != Start && a != Commit(true) {
        FewSinceCommit(c, before);
      }
      hide Inv, Enabled, Apply;
      FewStep(c, Exec(c, before), a);
    }
  }

  /** Over runs: between polls, unless a boundary was skipped or a commit failed, fewer than commitBatch
      records are polled and not committed. */
  lemma FewUncommitted(c: Config, run: seq<Action>)
    requires Legal(c, run) && c.commitBatch >= 1 && !Overdue(c, run)
    ensures var s := Exec(c, run);
            s.loop == Polling ==> |Range(c, s.committed, s.position)| < c.commitBatch
  {
    FewSinceCommit(c, run);
    InvRun(c, run);
  }

  /** Nothing is assumed of the surroundings: between polls any non-empty advance may arrive, a record in
      flight may end either way, and the process may crash whenever it is up. */
  lemma AnythingMayHappen(c: Config, s: State, to: Offsets, id: Id)
    requires Shape(c, s)
    ensures s.loop == Polling && c.partitions <= to.Keys && Below(c, s.position, to) ==>
      id in Range(c, s.position, to) ==> Enabled(c, s, Poll(to))
    ensures id in s.inflight <==> Enabled(c, s, Ack(id))
    ensures id in s.inflight <==> Enabled(c, s, Exhaust(id))
    ensures s.loop != Down <==> Enabled(c, s, Crash)
    ensures s.loop == Down <==> Enabled(c, s, Start)
    ensures s.loop == Polling <==> Enabled(c, s, Quit)
  {
  }

  /** Shutdown waits: nothing in flight is given up, and the final commit comes when nothing is left. */
  lemma QuitDrains(c: Config, s: State)
    requires Shape(c, s) && Enabled(c, s, Quit)
    ensures var t := Apply(c, s, Quit);
            && t.inflight == s.inflight && t.committed == s.committed && t.loop != Down
            && (Enabled(c, t, FinalCommit(true)) <==> t.inflight == {})
            && !Enabled(c, t, Quit) && (forall to :: !Enabled(c, t, Poll(to)))
  {
  }

  /** Shutdown commits everything polled exactly when no record is exhausted since the last boundary and
      the commit succeeds, and otherwise commits nothing. */
  lemma FinalCommitIff(c: Config, s: State, ok: bool)
    requires Inv(c, s) && Enabled(c, s, FinalCommit(ok))
    ensures Apply(c, s, FinalCommit(ok)).committed == if ok && s.window == {} then s.position else s.committed
    ensures Apply(c, s, FinalCommit(ok)).loop == Down
  {
    assert s.loop != Down;
  }

  lemma LostIsUnacked(c: Config, s: State)
    requires Inv(c, s)
    ensures s.lost == Unacked(c, s)
  {
  }

  lemma LostBy(c: Config, s: State, a: Action)
    requires Shape(c, s) && Enabled(c, s, a)
    ensures Apply(c, s, a).lost == if Commits(s, a) then s.lost + (s.forgotten - s.acked) else s.lost
  {
  }

  predicate Commits(s: State, a: Action) {
    a == Commit(true) || (a == FinalCommit(true) && s.produceErrors == 0)
  }

  /** At-least-once is kept by every step but a commit, and by a commit exactly when every failure
      whose count an earlier boundary of this process cleared was acknowledged to some process. */
  lemma AtLeastOnceStep(c: Config, s: State, a: Action)
    requires Inv(c, s) && Enabled(c, s, a) && Unacked(c, s) == {}
    ensures Unacked(c, Apply(c, s, a)) == {} <==> (Commits(s, a) ==> s.forgotten <= s.acked)
  {
    InvStep(c, s, a);
    LostIsUnacked(c, s);
    LostIsUnacked(c, Apply(c, s, a));
    LostBy(c, s, a);
    hide *;
    assert s.forgotten <= s.acked <==> s.forgotten - s.acked == {};
  }

  /** Whenever the run committed, every failure whose count an earlier boundary of that process had
      cleared was acknowledged to some process. */
  ghost predicate CommitsCovered(c: Config, run: seq<Action>)
    requires Legal(c, run)
    decreases |run|
  {
    run == [] ||
    var before := run[..|run| - 1];
    var s := Exec(c, before);
    CommitsCovered(c, before) && (Commits(s, run[|run| - 1]) ==> s.forgotten <= s.acked)
  }

  /** At-least-once over whole runs, whatever fails or crashes: every committed record has been
      acknowledged if and only if every commit was covered. */
  lemma {:induction false} AtLeastOnceIff(c: Config, run: seq<Action>)
    requires Legal(c, run)
    ensures Unacked(c, Exec(c, run)) == {} <==> CommitsCovered(c, run)
  {
    InvRun(c, run);
    hide Inv, Unacked, Apply, Enabled, Commits;
    if run == [] {
      LostIsUnacked(c, Init(c));
    } else {
      var before := run[..|run| - 1];
      var s, a := Exec(c, before), run[|run| - 1];
      InvRun(c, before);
      AtLeastOnceIff(c, before);
      if Unacked(c, s) == {} {
        AtLeastOnceStep(c, s, a);
      } else {
        LostIsUnacked(c, s);
        LostIsUnacked(c, Exec(c, run));
        LostBy(c, s, a);
      }
    }
  }

  lemma ExhaustedByStep(c: Config, s: State, a: Action, id: Id)
    requires Shape(c, s) && Enabled(c, s, a) && id in Apply(c, s, a).exhausted
    ensures id in s.exhausted || a == Exhaust(id)
  {
  }

  lemma {:induction false} ExhaustedByRun(c: Config, run: seq<Action>, id: Id)
    requires Legal(c, run) && id in Exec(c, run).exhausted
    ensures Exhaust(id) in run
  {
    hide Apply, Enabled;
    if run != [] {
      var before := run[..|run| - 1];
      ExhaustedByStep(c, Exec(c, before), run[|run| - 1], id);
      if id in Exec(c, before).exhausted {
        ExhaustedByRun(c, before, id);
      }
    }
  }

  /** Without an exhausted record, whatever crashes, every source record below the committed offset
      has been acknowledged. */
  lemma AtLeastOnce(c: Config, run: seq<Action>)
    requires Legal(c, run) && forall id :: Exhaust(id) !in run
    ensures Unacked(c, Exec(c, run)) == {}
  {
    InvRun(c, run);
    var s := Exec(c, run);
    forall id | id in s.exhausted
      ensures false
    {
      ExhaustedByRun(c, run, id);
    }
  }

  // ---------------------------------------------------------------- a failure that is forgotten

  lemma Extend(c: Config, run: seq<Action>, a: Action) returns (longer: seq<Action>)
    requires Legal(c, run) && Enabled(c, Exec(c, run), a)
    ensures Legal(c, longer) && Exec(c, longer) == Apply(c, Exec(c, run), a)
  {
    longer := run + [a];
    assert longer[..|longer| - 1] == run;
  }

  function TwoRecords(): Config {
    Config({0}, {Id(0, 0), Id(0, 1)}, map[0 := 0], 1)
  }

  /** A process that has polled the first record. */
  function FirstPolled(): State {
    State(Polled, map[0 := 1], {Id(0, 0)}, 0, 1, map[0 := 0], {}, map[0 := 0], {Id(0, 0)}, {}, {}, {}, {}, {})
  }

  /** The first record failed, the boundary skipped its commit and cleared the count; the second
      record is in flight. */
  function Forgetting(): State {
    State(Polled, map[0 := 2], {Id(0, 1)}, 0, 2, map[0 := 0], {}, map[0 := 0],
          {Id(0, 0), Id(0, 1)}, {}, {}, {Id(0, 0)}, {Id(0, 0)}, {})
  }

  lemma ReachFirstPolled() returns (run: seq<Action>)
    ensures Legal(TwoRecords(), run) && Exec(TwoRecords(), run) == FirstPolled()
  {
    var c := TwoRecords();
    run := Extend(c, [], Start);
    assert Range(c, map[0 := 0], map[0 := 1]) == {Id(0, 0)};
    run := Extend(c, run, Poll(map[0 := 1]));
  }

  lemma ReachForgetting() returns (run: seq<Action>)
    ensures Legal(TwoRecords(), run) && Exec(TwoRecords(), run) == Forgetting()
  {
    hide Legal, Exec;
    var c := TwoRecords();
    run := ReachFirstPolled();
    run := Extend(c, run, AfterBatch(true));
    var s := FirstPolled().(loop := Draining);
    assert Exec(c, run) == s;
    run := Extend(c, run, Exhaust(Id(0, 0)));
    s := s.(inflight := {}, produceErrors := 1, window := {Id(0, 0)}, exhausted := {Id(0, 0)});
    assert Exec(c, run) == s;
    run := Extend(c, run, Boundary);
    s := s.(loop := Polling, produceErrors := 0, window := {}, forgotten := {Id(0, 0)});
    assert Exec(c, run) == s;
    assert Range(c, map[0 := 1], map[0 := 2]) == {Id(0, 1)};
    hide Range;
    run := Extend(c, run, Poll(map[0 := 2]));
  }

  /** A boundary that skips its commit clears the error count, so the next clean boundary commits
      past the failed record, which is then neither acknowledged nor polled again. */
  lemma ForgottenFailure() returns (run: seq<Action>, id: Id)
    ensures Legal(TwoRecords(), run) && id in Unacked(TwoRecords(), Exec(TwoRecords(), run))
  {
    var c := TwoRecords();
    id := Id(0, 0);
    run := ReachForgetting();
    run := Extend(c, run, AfterBatch(true));
    run := Extend(c, run, Ack(Id(0, 1)));
    assert Exec(c, run).inflight == {};
    run := Extend(c, run, Boundary);
    run := Extend(c, run, Commit(true));
  }
}
