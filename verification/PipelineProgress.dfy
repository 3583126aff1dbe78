/** Termination of every run of the pipeline, why it stops, and what an orderly run has emitted then. */
module PipelineProgress {
  import opened RingBuffer
  import opened Pipeline
  import opened PipelineOrder

  // ---------------------------------------------------------------- termination

  function PcRank(pc: Pc): nat {
    match pc
    case Poll => 9
    case Failing => 1
    case Load(_) => 8
    case FastWrite(_) => 7
    case FastCas(_) => 6
    case Wait(_) => 5
    case Check(_) => 4
    case SlowWrite(_) => 3
    case SlowStore(_) => 2
    case _ => 0
  }

  function FetcherWork(to: int, me: Fetcher): int {
    if me.pc.Done() then 0 else 17 * (to - me.pos) + PcRank(me.pc) + 1
  }

  function DrainRank(d: Drainer, started: bool): nat {
    match d
    case Stopped => 0
    case Taken(_) => 1
    case Scan => if started then 6 else 2
    case Checking => 3
    case Blocked => 4
    case Outer => 5
  }

  function Flag(b: bool): nat {
    if b then 0 else 1
  }

  function FetchWork(segments: seq<Segment>, fetchers: seq<Fetcher>): int
    requires |segments| == |fetchers|
  {
    if segments == [] then 0
    else
      FetchWork(segments[..|segments| - 1], fetchers[..|segments| - 1])
      + FetcherWork(segments[|segments| - 1].to, fetchers[|segments| - 1])
  }

  function Unit(slot: Slot): nat {
    if slot.state == Filled then 1 else 0
  }

  /** How many slots are filled. */
  function Occupancy(slots: seq<Slot>): nat {
    if slots == [] then 0 else Occupancy(slots[..|slots| - 1]) + Unit(slots[|slots| - 1])
  }

  /** Work left: offsets not yet put and slots not yet emptied, refined by program counters. */
  function Measure(c: Config, s: State): int
    requires Shape(c, s)
  {
    FetchWork(c.segments, s.fetchers) + 7 * Occupancy(s.slots)
    + DrainRank(s.drainer, s.batch != []) + Flag(s.closed) + Flag(s.cancelled)
  }

  /** What every state of every run satisfies, whatever has been lost or overtaken. */
  ghost predicate Bounded(c: Config, s: State) {
    && Shape(c, s)
    && (forall f :: 0 <= f < |s.fetchers| ==> Within(c, s, f))
    && (s.batch != [] ==> s.drainer == Scan || s.drainer.Taken?)
    && (s.drainer.Taken? || (s.drainer == Scan && s.batch == []) ==> !Free(c, s, s.Next()))
    && (s.drainer == Checking ==> !Free(c, s, s.Next()) || s.closed || s.cancelled)
  }

  ghost predicate Within(c: Config, s: State, f: nat)
    requires Shape(c, s) && f < |s.fetchers|
  {
    && c.segments[f].from <= s.fetchers[f].pos <= c.segments[f].to
    && (s.fetchers[f].pc.Pending() ==> s.fetchers[f].pos <= s.fetchers[f].pc.r.offset < c.segments[f].to)
  }

  lemma BoundedInit(c: Config)
    requires WellFormed(c)
    ensures Bounded(c, Init(c))
  {
    forall f | 0 <= f < |c.segments|
      ensures Within(c, Init(c), f)
    {
      SegmentsDisjoint(c, f, f, c.segments[f].from);
    }
  }

  lemma {:induction false} FetchWorkMoves(segments: seq<Segment>, fetchers: seq<Fetcher>, f: nat, me: Fetcher)
    requires |segments| == |fetchers| && f < |fetchers|
    ensures FetchWork(segments, fetchers[f := me]) ==
      FetchWork(segments, fetchers) - FetcherWork(segments[f].to, fetchers[f]) + FetcherWork(segments[f].to, me)
  {
    var n := |segments| - 1;
    if f < n {
      FetchWorkMoves(segments[..n], fetchers[..n], f, me);
      assert fetchers[f := me][..n] == fetchers[..n][f := me];
    } else {
      assert fetchers[f := me][..n] == fetchers[..n];
    }
  }

  lemma {:induction false} OccupancyMoves(slots: seq<Slot>, i: nat, slot: Slot)
    requires i < |slots|
    ensures Occupancy(slots[i := slot]) == Occupancy(slots) - Unit(slots[i]) + Unit(slot)
  {
    var n := |slots| - 1;
    if i < n {
      OccupancyMoves(slots[..n], i, slot);
      assert slots[i := slot][..n] == slots[..n][i := slot];
    } else {
      assert slots[i := slot][..n] == slots[..n];
    }
  }

  /** A step inside Put uses up the fetcher's own work, and pays for the slot it may fill. */
  lemma PutWork(c: Config, s: State, f: nat)
    requires Bounded(c, s) && Enabled(c, s, Put(f))
    ensures var s', i, to := Apply(c, s, Put(f)), At(c, s.fetchers[f].pc.r.offset), c.segments[f].to;
            && s' == Move(s, f, s'.fetchers[f]).(slots := s.slots[i := s'.slots[i]])
            && Within(c, s', f) && (s.slots[i].state == Filled ==> s'.slots[i].state == Filled)
            && FetcherWork(to, s'.fetchers[f]) + 7 * Unit(s'.slots[i])
                 < FetcherWork(to, s.fetchers[f]) + 7 * Unit(s.slots[i])
  {
    hide SlotIndex;
    assert Within(c, s, f);
  }

  predicate AtPoll(a: Action) {
    a.Deliver? || a.Leave? || a.Fail? || a.Report?
  }

  lemma PollWork(c: Config, s: State, a: Action)
    requires Bounded(c, s) && Enabled(c, s, a) && AtPoll(a)
    ensures var s', to := Apply(c, s, a), c.segments[a.f].to;
            && s' == Move(s, a.f, s'.fetchers[a.f]).(closed := s'.closed) && (s.closed ==> s'.closed)
            && Within(c, s', a.f) && FetcherWork(to, s'.fetchers[a.f]) < FetcherWork(to, s.fetchers[a.f])
  {
    hide SlotIndex;
    assert Within(c, s, a.f);
  }

  lemma OthersWithin(c: Config, s: State, s': State, f: nat)
    requires Bounded(c, s) && Shape(c, s') && f < |s.fetchers| && Within(c, s', f)
    requires s'.fetchers == s.fetchers[f := s'.fetchers[f]]
    ensures forall g :: 0 <= g < |s'.fetchers| ==> Within(c, s', g)
  {
    forall g | 0 <= g < |s'.fetchers|
      ensures Within(c, s', g)
    {
      assert Within(c, s, g);
    }
  }

  lemma FetcherDecreases(c: Config, s: State, a: Action)
    requires Bounded(c, s) && Enabled(c, s, a) && (a.Put? || AtPoll(a))
    ensures Bounded(c, Apply(c, s, a)) && Measure(c, Apply(c, s, a)) < Measure(c, s)
  {
    hide SlotIndex, FetchWork, FetcherWork, Occupancy;
    var s' := Apply(c, s, a);
    if a.Put? {
      PutWork(c, s, a.f);
      var i := At(c, s.fetchers[a.f].pc.r.offset);
      OccupancyMoves(s.slots, i, s'.slots[i]);
    } else {
      PollWork(c, s, a);
    }
    hide Apply, Enabled, Within;
    OthersWithin(c, s, s', a.f);
    FetchWorkMoves(c.segments, s.fetchers, a.f, s'.fetchers[a.f]);
  }

  lemma DrainDecreases(c: Config, s: State)
    requires Bounded(c, s) && Enabled(c, s, Drain)
    ensures Bounded(c, DrainStep(c, s)) && Measure(c, DrainStep(c, s)) < Measure(c, s)
  {
    hide SlotIndex, FetchWork, Occupancy;
    var s' := DrainStep(c, s);
    var i := At(c, s.Next());
    forall g | 0 <= g < |s'.fetchers|
      ensures Within(c, s', g)
    {
      assert Within(c, s, g);
    }
    OccupancyMoves(s.slots, i, s'.slots[i]);
    assert s'.slots == s.slots[i := s'.slots[i]];
  }

  /** Every step of every thread, failures and cancellation included, uses up work. */
  lemma StepDecreases(c: Config, s: State, a: Action)
    requires Bounded(c, s) && Enabled(c, s, a)
    ensures Bounded(c, Apply(c, s, a)) && Measure(c, Apply(c, s, a)) < Measure(c, s)
  {
    if a == Drain {
      DrainDecreases(c, s);
    } else if a.CloseAll? || a.Cancel? {
      forall g | 0 <= g < |s.fetchers|
        ensures Within(c, Apply(c, s, a), g)
      {
        assert Within(c, s, g);
      }
    } else {
      FetcherDecreases(c, s, a);
    }
  }

  lemma {:induction false} FetchWorkNonNegative(segments: seq<Segment>, fetchers: seq<Fetcher>)
    requires |segments| == |fetchers|
    requires forall f :: 0 <= f < |fetchers| ==> fetchers[f].pos <= segments[f].to
    ensures FetchWork(segments, fetchers) >= 0
  {
    if segments != [] {
      FetchWorkNonNegative(segments[..|segments| - 1], fetchers[..|segments| - 1]);
    }
  }

  lemma MeasureNonNegative(c: Config, s: State)
    requires Bounded(c, s)
    ensures Measure(c, s) >= 0
  {
    forall f | 0 <= f < |s.fetchers|
      ensures s.fetchers[f].pos <= c.segments[f].to
    {
      assert Within(c, s, f);
    }
    FetchWorkNonNegative(c.segments, s.fetchers);
  }

  lemma {:induction false} RunUsesWork(c: Config, s: State, run: seq<Action>)
    requires Bounded(c, s) && Legal(c, s, run)
    ensures Bounded(c, Exec(c, s, run)) && |run| <= Measure(c, s)
    decreases |run|
  {
    if run == [] {
      MeasureNonNegative(c, s);
    } else {
      StepDecreases(c, s, run[0]);
      RunUsesWork(c, Apply(c, s, run[0]), run[1..]);
    }
  }

  lemma {:induction false} InitWork(segments: seq<Segment>, fetchers: seq<Fetcher>, start: int)
    requires |segments| == |fetchers| > 0
    requires Tiles(segments, start, segments[|segments| - 1].to)
    requires forall f :: 0 <= f < |fetchers| ==> fetchers[f] == Fetcher(segments[f].from, Poll)
    ensures FetchWork(segments, fetchers) == 17 * (segments[|segments| - 1].to - start) + 10 * |segments|
  {
    var n := |segments| - 1;
    if n > 0 {
      InitWork(segments[..n], fetchers[..n], start);
    } else {
      assert FetchWork(segments[..0], fetchers[..0]) == 0;
    }
  }

  lemma {:induction false} EmptyOccupancy(slots: seq<Slot>)
    requires forall i :: 0 <= i < |slots| ==> slots[i].state == Empty
    ensures Occupancy(slots) == 0
  {
    if slots != [] {
      EmptyOccupancy(slots[..|slots| - 1]);
    }
  }

  /** Termination: no run of any pipeline, in order or not, takes more than 17 steps per offset, 10 per
      fetcher and 7 more; in particular nothing spins. */
  lemma RunsEnd(c: Config, run: seq<Action>)
    requires WellFormed(c) && Legal(c, Init(c), run)
    ensures |run| <= 17 * (c.end - c.start) + 10 * |c.segments| + 7
  {
    BoundedInit(c);
    RunUsesWork(c, Init(c), run);
    InitWork(c.segments, Init(c).fetchers, c.start);
    EmptyOccupancy(Init(c).slots);
  }

  // ---------------------------------------------------------------- why things end

  ghost predicate AnyFailed(s: State) {
    exists f :: 0 <= f < |s.fetchers| && s.fetchers[f].pc == Failed
  }

  ghost predicate AllDone(s: State) {
    forall f :: 0 <= f < |s.fetchers| ==> s.fetchers[f].pc.Done()
  }

  /** Why a buffer is closed, a fetcher has finished or the drainer has stopped. */
  ghost predicate Reasons(c: Config, s: State)
    requires Shape(c, s)
  {
    && (s.closed ==> AnyFailed(s) || AllDone(s))
    && (AnyFailed(s) ==> s.closed)
    && (forall f :: 0 <= f < |s.fetchers| && s.fetchers[f].pc == Finished ==>
          s.fetchers[f].pos == c.segments[f].to || s.cancelled || AnyFailed(s))
    && (s.drainer == Stopped ==> s.cancelled || AnyFailed(s) || (AllDone(s) && Free(c, s, s.Next())))
  }

  lemma FailureStays(c: Config, s: State, a: Action)
    requires Shape(c, s) && Enabled(c, s, a) && AnyFailed(s)
    ensures AnyFailed(Apply(c, s, a))
  {
    var f :| 0 <= f < |s.fetchers| && s.fetchers[f].pc == Failed;
    assert Apply(c, s, a).fetchers[f] == s.fetchers[f];
  }

  /** A fetcher's own step changes nothing but that fetcher and the slots. */
  lemma OwnStep(c: Config, s: State, a: Action)
    requires Bounded(c, s) && Enabled(c, s, a) && (a.Deliver? || a.Leave? || a.Put?)
    ensures var s' := Apply(c, s, a);
            && s' == Move(s, a.f, s'.fetchers[a.f]).(slots := s'.slots)
            && s'.fetchers[a.f].pc != Failed
            && (s'.fetchers[a.f].pc == Finished ==>
                  s'.fetchers[a.f].pos == c.segments[a.f].to || s.cancelled || s.closed)
  {
    hide SlotIndex;
    assert Within(c, s, a.f);
  }

  lemma ReasonsByFetcher(c: Config, s: State, a: Action)
    requires Bounded(c, s) && Reasons(c, s) && Enabled(c, s, a) && (a.Deliver? || a.Leave? || a.Put?)
    ensures Reasons(c, Apply(c, s, a))
  {
    var s' := Apply(c, s, a);
    OwnStep(c, s, a);
    hide Apply, PutStep, SlotIndex, Within;
    assert !AllDone(s) by {
      assert !s.fetchers[a.f].pc.Done();
    }
    assert AnyFailed(s') ==> AnyFailed(s) by {
      if g :| 0 <= g < |s'.fetchers| && s'.fetchers[g].pc == Failed {
        assert s.fetchers[g].pc == Failed;
      }
    }
    assert AnyFailed(s) ==> AnyFailed(s') by {
      if AnyFailed(s) {
        FailureStays(c, s, a);
      }
    }
  }

  lemma FailureNotYet(c: Config, s: State, a: Action)
    requires Shape(c, s) && Enabled(c, s, a) && a.Fail?
    ensures AnyFailed(Apply(c, s, a)) == AnyFailed(s) && !AllDone(s) && !AllDone(Apply(c, s, a))
  {
    var s' := Apply(c, s, a);
    if AnyFailed(s) {
      FailureStays(c, s, a);
    }
    assert forall g :: 0 <= g < |s.fetchers| && s'.fetchers[g].pc == Failed ==> s.fetchers[g].pc == Failed;
    assert !s.fetchers[a.f].pc.Done() && !s'.fetchers[a.f].pc.Done();
  }

  lemma ReasonsByOther(c: Config, s: State, a: Action)
    requires Bounded(c, s) && Reasons(c, s) && Enabled(c, s, a) && !(a.Deliver? || a.Leave? || a.Put?)
    ensures Reasons(c, Apply(c, s, a))
  {
    var s' := Apply(c, s, a);
    if a.Report? {
      assert s'.fetchers[a.f].pc == Failed;
    } else if a.Fail? {
      FailureNotYet(c, s, a);
    } else {
      assert s'.fetchers == s.fetchers;
      assert AnyFailed(s') == AnyFailed(s) && AllDone(s') == AllDone(s);
    }
  }

  lemma ReasonsStep(c: Config, s: State, a: Action)
    requires Bounded(c, s) && Reasons(c, s) && Enabled(c, s, a)
    ensures Reasons(c, Apply(c, s, a))
  {
    if a.Deliver? || a.Leave? || a.Put? {
      ReasonsByFetcher(c, s, a);
    } else {
      ReasonsByOther(c, s, a);
    }
  }

  lemma {:induction false} ReasonsRun(c: Config, s: State, run: seq<Action>)
    requires Bounded(c, s) && Reasons(c, s) && Legal(c, s, run)
    ensures Reasons(c, Exec(c, s, run))
    decreases |run|
  {
    if run != [] {
      StepDecreases(c, s, run[0]);
      ReasonsStep(c, s, run[0]);
      ReasonsRun(c, Apply(c, s, run[0]), run[1..]);
    }
  }

  lemma ReasonsInit(c: Config)
    requires WellFormed(c)
    ensures Reasons(c, Init(c))
  {
    assert !Init(c).fetchers[0].pc.Done();
  }

  /** In every state of every run, whatever has been lost or overtaken. */
  lemma ReasonsAlways(c: Config, run: seq<Action>)
    requires WellFormed(c) && Legal(c, Init(c), run)
    ensures Bounded(c, Exec(c, Init(c), run)) && Reasons(c, Exec(c, Init(c), run))
  {
    BoundedInit(c);
    RunUsesWork(c, Init(c), run);
    ReasonsInit(c);
    ReasonsRun(c, Init(c), run);
  }

  // ---------------------------------------------------------------- completeness

  /** What the results about single states ask for, after every orderly run. */
  lemma OrderlyReasons(c: Config, run: seq<Action>)
    requires WellFormed(c) && Legal(c, Init(c), run) && Orderly(c, run)
    ensures Inv(c, Exec(c, Init(c), run)) && Bounded(c, Exec(c, Init(c), run)) && Reasons(c, Exec(c, Init(c), run))
  {
    OrderlyIsClean(c, run);
    ReasonsAlways(c, run);
  }

  /** The run has stopped of itself: nobody failed and nothing was cancelled. */
  ghost predicate StoppedByItself(s: State) {
    s.drainer == Stopped && !s.cancelled && !AnyFailed(s)
  }

  /** When an orderly run has stopped without failure or cancellation, every filled slot has been
      drained: the emitted records are the whole range, or all of it before its first offset gap. */
  lemma CompleteIfOrderly(c: Config, run: seq<Action>)
    requires WellFormed(c) && Legal(c, Init(c), run) && Orderly(c, run)
    requires StoppedByItself(Exec(c, Init(c), run))
    ensures var s := Exec(c, Init(c), run);
            var stop := c.start + |s.emitted|;
            Exact(c, s.emitted, c.start) && stop <= c.end && (stop == c.end || stop !in c.source)
  {
    var s := Exec(c, Init(c), run);
    OrderlyReasons(c, run);
    hide SlotIndex;
    assert s.Output() == s.emitted;
    var o := s.Next();
    assert c.start <= o < c.end ==> Buffered(c, s, o);
    if o < c.end {
      var f := Owner(c, o);
      assert FetcherOk(c, s, f);
      PutIfPassed(c, s, f, o);
    }
  }
}
