/** When the pipeline can get stuck, and what becomes of it at the first gap of its source. */
module PipelineDeadlock {
  import opened Machine
  import opened RingBuffer
  import opened Pipeline
  import opened PipelineOrder
  import opened PipelineProgress
  import opened PipelineLimits

  /** Steps that need neither an error nor a cancellation. */
  predicate Ordinary(a: Action) {
    !a.Fail? && !a.Cancel?
  }

  ghost predicate Halted(c: Config, s: State)
    requires Shape(c, s)
  {
    s.drainer != Stopped && forall a :: Enabled(c, s, a) ==> !Ordinary(a)
  }

  /** The drainer has not stopped, a fetcher waits for a slot, and nothing can be done about it. */
  ghost predicate Deadlocked(c: Config, s: State)
    requires Shape(c, s)
  {
    Halted(c, s) && exists f :: 0 <= f < |s.fetchers| && s.fetchers[f].pc.Wait?
  }

  ghost predicate CanDeadlock(c: Config)
    requires c.capacity > 0
  {
    exists s :: Shape(c, s) && Reachable(c, s) && Deadlocked(c, s)
  }

  /** The first offset of the range without a record. */
  ghost predicate FirstGap(c: Config, o: int) {
    c.start <= o < c.end && o !in c.source && forall p :: c.start <= p < o ==> p in c.source
  }

  /** Two records beyond the first gap share a slot. */
  ghost predicate Clash(c: Config, o: int, p: int, q: int)
    requires c.capacity > 0
  {
    FirstGap(c, o) && o < p < q < c.end && p in c.source && q in c.source && At(c, p) == At(c, q)
  }

  ghost predicate NoClash(c: Config)
    requires c.capacity > 0
  {
    forall o, p, q :: !Clash(c, o, p, q)
  }

  // ---------------------------------------------------------------- why nothing moves

  /** The first source record from `pos` on. */
  lemma {:induction false} NextRecord(c: Config, pos: int, x: int) returns (o: int)
    requires x in c.source && pos <= x
    ensures pos <= o <= x && o in c.source && forall p :: pos <= p < o ==> p !in c.source
    decreases x - pos
  {
    if p :| pos <= p < x && p in c.source {
      o := NextRecord(c, pos, p);
    } else {
      o := x;
    }
  }

  /** What holds of fetcher f when nothing ordinary can be done. */
  ghost predicate Idle(c: Config, s: State, f: nat)
    requires Shape(c, s) && f < |s.fetchers|
  {
    var me, to := s.fetchers[f], c.segments[f].to;
    || (me.pc == Finished && me.pos == to)
    || (me.pc.Wait? && !Free(c, s, me.pc.r.offset))
    || (me.pc == Poll && me.pos < to && forall p :: p in c.source ==> p < me.pos)
  }

  lemma PollMoves(c: Config, s: State, f: nat, x: int)
    requires Shape(c, s) && f < |s.fetchers| && s.fetchers[f].pc == Poll
    requires x in c.source && s.fetchers[f].pos <= x
    ensures exists a :: Enabled(c, s, a) && Ordinary(a)
  {
    var o := NextRecord(c, s.fetchers[f].pos, x);
    assert Enabled(c, s, Deliver(f, o)) || Enabled(c, s, Leave(f));
  }

  lemma HaltedFetcher(c: Config, s: State, f: nat)
    requires Inv(c, s) && Reasons(c, s) && Halted(c, s) && f < |s.fetchers| && !s.closed && !s.cancelled
    ensures Idle(c, s, f)
  {
    hide SlotIndex;
    var me := s.fetchers[f];
    assert FetcherOk(c, s, f);
    assert !Enabled(c, s, Put(f)) && !Enabled(c, s, Report(f)) && !Enabled(c, s, Leave(f));
    if me.pc == Poll {
      if x :| x in c.source && me.pos <= x {
        PollMoves(c, s, f, x);
      }
    }
  }

  /** Nothing ordinary can be done exactly when the drainer waits for a slot that nobody will fill. */
  lemma HaltedDrainer(c: Config, s: State)
    requires Inv(c, s) && Reasons(c, s) && Halted(c, s)
    ensures s.drainer == Blocked && Free(c, s, s.Next()) && !s.closed && !s.cancelled && !AllDone(s)
  {
    hide SlotIndex;
    assert !Enabled(c, s, Drain) && !Enabled(c, s, CloseAll);
  }

  /** The fetcher of the drainer's next offset has not come by a record there. */
  lemma HaltedAtGap(c: Config, s: State)
    requires Inv(c, s) && Reasons(c, s) && Halted(c, s) && s.Next() < c.end
    ensures FirstGap(c, s.Next())
  {
    hide SlotIndex;
    HaltedDrainer(c, s);
    var o := s.Next();
    assert Buffered(c, s, o);
    if o in c.source {
      var g := Owner(c, o);
      HaltedFetcher(c, s, g);
      assert FetcherOk(c, s, g);
      if o < s.fetchers[g].pos {
        PutIfPassed(c, s, g, o);
      }
    }
  }

  /** A waiting fetcher then waits for the slot of another record beyond the gap. */
  lemma WaitingClash(c: Config, s: State, f: nat)
    requires Inv(c, s) && Reasons(c, s) && Halted(c, s) && f < |s.fetchers| && s.fetchers[f].pc.Wait?
    ensures !NoClash(c)
  {
    hide SlotIndex;
    HaltedDrainer(c, s);
    HaltedFetcher(c, s, f);
    PendingAhead(c, s, f);
    var r, o := s.fetchers[f].pc.r.offset, s.Next();
    assert FetcherOk(c, s, f);
    assert SlotOk(c, s, At(c, r));
    var p :| PutAt(c, s, At(c, r), p);
    assert !IsPut(c, s, r);
    HaltedAtGap(c, s);
    assert Clash(c, o, if p < r then p else r, if p < r then r else p);
  }

  /** A fetcher has read all that the source holds and polls for the rest of its segment. */
  ghost predicate Starving(c: Config, s: State, f: nat)
    requires Shape(c, s) && f < |s.fetchers|
  {
    var me := s.fetchers[f];
    me.pc == Poll && me.pos < c.segments[f].to && forall p :: p in c.source ==> p < me.pos
  }

  ghost predicate Starved(c: Config, s: State)
    requires Shape(c, s)
  {
    exists f :: 0 <= f < |s.fetchers| && Starving(c, s, f)
  }

  /** Until the drainer has stopped, a fetcher, the drainer or the closing can step, unless two records
      beyond a gap share a slot or a fetcher waits for the source itself to grow. */
  lemma NoDeadlock(c: Config, s: State)
    requires Inv(c, s) && Reasons(c, s) && NoClash(c) && s.drainer != Stopped
    ensures !Halted(c, s) || Starved(c, s)
  {
    if Halted(c, s) {
      HaltedDrainer(c, s);
      var f :| 0 <= f < |s.fetchers| && !s.fetchers[f].pc.Done();
      HaltedFetcher(c, s, f);
      if s.fetchers[f].pc.Wait? {
        WaitingClash(c, s, f);
      } else {
        assert Starving(c, s, f);
      }
    }
  }

  /** No deadlock over whole runs: an orderly run whose drainer has not stopped can be continued
      without failure or cancellation, unless the source has to grow first. */
  lemma RunCanContinue(c: Config, run: seq<Action>)
    requires WellFormed(c) && Legal(c, Init(c), run) && Orderly(c, run) && NoClash(c)
    requires Exec(c, Init(c), run).drainer != Stopped
    ensures Starved(c, Exec(c, Init(c), run)) || exists a :: Ordinary(a) && Legal(c, Init(c), run + [a])
    ensures Grown(c) ==> !Starved(c, Exec(c, Init(c), run))
  {
    OrderlyReasons(c, run);
    var s := Exec(c, Init(c), run);
    NoDeadlock(c, s);
    if Grown(c) {
      GrownNotStarved(c, s);
    }
    if a :| Enabled(c, s, a) && Ordinary(a) {
      ExecOne(c, s, a);
      ExecJoin(c, Init(c), run, [a]);
    }
  }

  // ---------------------------------------------------------------- after cancellation or failure

  /** After a cancellation something can be done until every fetcher has returned, the buffer is closed
      and the drainer has stopped; since no run goes on for ever, that is how it ends. */
  lemma CancelEnds(c: Config, s: State)
    requires Shape(c, s) && s.cancelled && forall a :: Enabled(c, s, a) ==> !Ordinary(a)
    ensures AllDone(s) && s.closed && s.drainer == Stopped
  {
    hide SlotIndex;
    assert !Enabled(c, s, Drain) && !Enabled(c, s, CloseAll);
    forall f: nat | f < |s.fetchers|
      ensures s.fetchers[f].pc.Done()
    {
      assert !Enabled(c, s, Put(f)) && !Enabled(c, s, Report(f)) && !Enabled(c, s, Leave(f));
    }
  }

  /** After a failure has closed the buffer: until the drainer has stopped and no fetcher waits or holds
      a record; only polls for records the source does not have may then be left. */
  lemma FailureEnds(c: Config, s: State)
    requires Bounded(c, s) && s.closed && forall a :: Enabled(c, s, a) ==> !Ordinary(a)
    ensures s.drainer == Stopped
    ensures forall f :: 0 <= f < |s.fetchers| ==> s.fetchers[f].pc.Done() || Starving(c, s, f)
  {
    hide SlotIndex;
    assert !Enabled(c, s, Drain);
    forall f: nat | f < |s.fetchers|
      ensures s.fetchers[f].pc.Done() || Starving(c, s, f)
    {
      assert !Enabled(c, s, Put(f)) && !Enabled(c, s, Report(f)) && !Enabled(c, s, Leave(f));
      if s.fetchers[f].pc == Poll {
        if x :| x in c.source && s.fetchers[f].pos <= x {
          PollMoves(c, s, f, x);
        }
      }
    }
  }

  // ---------------------------------------------------------------- a source that ends early

  /** The source has a record at the last offset of the range or beyond it. */
  ghost predicate Grown(c: Config) {
    exists x :: x in c.source && c.end - 1 <= x
  }

  /** Fetcher f stands behind a record it has seen. */
  ghost predicate Fed(c: Config, s: State, f: nat)
    requires Shape(c, s) && f < |s.fetchers|
  {
    s.fetchers[f].pos == c.segments[f].from || exists x :: x in c.source && s.fetchers[f].pos - 1 <= x
  }

  ghost predicate AllFed(c: Config, s: State) {
    Shape(c, s) && forall f :: 0 <= f < |s.fetchers| ==> Fed(c, s, f) && Real(c, s, f)
  }

  ghost predicate Real(c: Config, s: State, f: nat)
    requires Shape(c, s) && f < |s.fetchers|
  {
    s.fetchers[f].pc.Pending() ==> s.fetchers[f].pc.r.offset in c.source
  }

  lemma FedStep(c: Config, s: State, a: Action)
    requires AllFed(c, s) && Enabled(c, s, a)
    ensures AllFed(c, Apply(c, s, a))
  {
    hide SlotIndex;
    var s' := Apply(c, s, a);
    forall f | 0 <= f < |s.fetchers|
      ensures Fed(c, s', f) && Real(c, s', f)
    {
      assert Fed(c, s, f) && Real(c, s, f);
      if s'.fetchers[f].pos != s.fetchers[f].pos {
        assert a.Deliver? ==> a.o in c.source;
        assert a.Put? ==> s.fetchers[f].pc.r.offset in c.source;
      }
    }
  }

  lemma {:induction false} FedRun(c: Config, s: State, run: seq<Action>)
    requires AllFed(c, s) && Legal(c, s, run)
    ensures AllFed(c, Exec(c, s, run))
    decreases |run|
  {
    if run != [] {
      FedStep(c, s, run[0]);
      FedRun(c, Apply(c, s, run[0]), run[1..]);
    }
  }

  /** No run of any pipeline stops of itself on a source that has nothing at the last offset of the
      range or beyond. */
  lemma ShortSourceNeverStops(c: Config, run: seq<Action>)
    requires WellFormed(c) && Legal(c, Init(c), run) && !Grown(c)
    ensures !StoppedByItself(Exec(c, Init(c), run))
  {
    var s := Exec(c, Init(c), run);
    assert AllFed(c, Init(c));
    FedRun(c, Init(c), run);
    ReasonsAlways(c, run);
    var last := |c.segments| - 1;
    assert Fed(c, s, last);
    assert c.segments[last].from < c.segments[last].to == c.end;
  }

  lemma GrownNotStarved(c: Config, s: State)
    requires WellFormed(c) && Bounded(c, s) && Grown(c)
    ensures !Starved(c, s)
  {
    forall f | 0 <= f < |s.fetchers|
      ensures !Starving(c, s, f)
    {
      SegmentsDisjoint(c, f, f, c.segments[f].to - 1);
    }
  }

  // ---------------------------------------------------------------- running into a deadlock

  /** Beyond a gap at `o`, with everything before it drained: nobody has taken the slow path beyond
      the wait, and the records put so far have slots of their own. */
  ghost predicate Parking(c: Config, s: State, o: int) {
    && Inv(c, s) && Bounded(c, s) && Reasons(c, s) && FirstGap(c, o)
    && s.drainer == Blocked && s.Next() == o && Free(c, s, o) && !s.closed && !s.cancelled
    && (forall f :: 0 <= f < |s.fetchers| ==> Eager(c, s, f))
    && (forall p, q :: PutAt(c, s, At(c, p), p) && PutAt(c, s, At(c, q), q) && At(c, p) == At(c, q) ==> p == q)
  }

  ghost predicate Eager(c: Config, s: State, f: nat)
    requires Shape(c, s) && f < |s.fetchers|
  {
    var pc := s.fetchers[f].pc;
    && (pc.Poll? || pc.Load? || pc.FastWrite? || pc.FastCas? || pc.Wait? || pc.Finished?)
    && (pc.Wait? ==> !Free(c, s, pc.r.offset))
  }

  /** The slot of the gap stays free: a record in it would have met the drainer. */
  lemma GapStaysFree(c: Config, s: State)
    requires Inv(c, s) && NoMeeting(c) && FirstGap(c, s.Next())
    ensures Free(c, s, s.Next())
  {
    NoMeetingIsClean(c, s);
    if !Free(c, s, s.Next()) {
      HeadIsNext(c, s);
    }
  }

  lemma RestParks(c: Config, s: State, o: int)
    requires WellFormed(c) && NoMeeting(c) && FirstGap(c, o) && Rest(c, s, o) && Reachable(c, s)
    ensures Parking(c, s, o)
  {
    var run :| Legal(c, Init(c), run) && Exec(c, Init(c), run) == s;
    OrderlyReasonsAt(c, s);
    hide SlotIndex, Reachable;
    forall p
      ensures !PutAt(c, s, At(c, p), p)
    {
      assert c.start <= p < c.end ==> Buffered(c, s, p);
    }
  }

  lemma OrderlyReasonsAt(c: Config, s: State)
    requires WellFormed(c) && NoMeeting(c) && Reachable(c, s)
    ensures Shape(c, s) && Inv(c, s) && Bounded(c, s) && Reasons(c, s)
  {
    var run :| Legal(c, Init(c), run) && Exec(c, Init(c), run) == s;
    OrderlyReasons(c, run);
  }

  /** Once two records beyond the gap share a slot not all fetchers can finish, so the buffer stays
      open and the drainer stays blocked. */
  lemma SomeoneLeft(c: Config, s: State, o: int, p: int, q: int) returns (f: nat)
    requires Parking(c, s, o) && Clash(c, o, p, q)
    ensures f < |s.fetchers| && (In(c.segments[f], p) || In(c.segments[f], q))
    ensures s.fetchers[f].pc != Finished
    ensures s.fetchers[f].pos <= if In(c.segments[f], p) && s.fetchers[f].pos <= p then p else q
  {
    hide SlotIndex;
    f := Owner(c, p);
    var g := Owner(c, q);
    if p < s.fetchers[f].pos {
      PutIfPassed(c, s, f, p);
      if q < s.fetchers[g].pos {
        PutIfPassed(c, s, g, q);
        assert !(PutAt(c, s, At(c, p), p) && PutAt(c, s, At(c, q), q));
      }
      f := g;
    }
    assert !AnyFailed(s);
  }

  /** So only fetchers that do not wait can do anything ordinary. */
  lemma OnlyFetchers(c: Config, s: State, o: int, a: Action, p: int, q: int)
    requires Parking(c, s, o) && Clash(c, o, p, q) && Enabled(c, s, a) && Ordinary(a)
    ensures (a.Deliver? || a.Leave? || a.Put?) && !s.fetchers[a.f].pc.Wait?
  {
    hide SlotIndex;
    var left := SomeoneLeft(c, s, o, p, q);
    assert Eager(c, s, left);
    if a.Put? || a.Report? {
      assert Eager(c, s, a.f);
    }
  }

  lemma EagerStep(c: Config, s: State, a: Action)
    requires Shape(c, s) && Enabled(c, s, a) && (a.Deliver? || a.Leave? || a.Put?) && !s.fetchers[a.f].pc.Wait?
    requires forall f :: 0 <= f < |s.fetchers| ==> Eager(c, s, f)
    ensures forall f :: 0 <= f < |s.fetchers| ==> Eager(c, Apply(c, s, a), f)
  {
    hide SlotIndex;
    var s' := Apply(c, s, a);
    assert Eager(c, s, a.f);
    assert forall i :: 0 <= i < c.capacity && s'.slots[i].state == Empty ==> s.slots[i].state == Empty;
    forall f | 0 <= f < |s.fetchers| && f != a.f
      ensures Eager(c, s', f)
    {
      assert Eager(c, s, f);
      assert s'.fetchers[f] == s.fetchers[f];
    }
    if !a.Put? {
      assert !s'.fetchers[a.f].pc.Wait?;
    }
  }

  lemma ParkingStep(c: Config, s: State, o: int, a: Action, p: int, q: int)
    requires Parking(c, s, o) && NoMeeting(c) && Clash(c, o, p, q) && Enabled(c, s, a) && Ordinary(a)
    ensures Parking(c, Apply(c, s, a), o) && Measure(c, Apply(c, s, a)) < Measure(c, s)
  {
    hide SlotIndex, FetcherOk, SlotOk, DrainerOk;
    var s' := Apply(c, s, a);
    OnlyFetchers(c, s, o, a, p, q);
    NoMeetingIsClean(c, s);
    InvStep(c, s, a);
    ReasonsStep(c, s, a);
    StepDecreases(c, s, a);
    EagerStep(c, s, a);
    OwnStep(c, s, a);
    GapStaysFree(c, s');
    forall x, y | PutAt(c, s', At(c, x), x) && PutAt(c, s', At(c, y), y) && At(c, x) == At(c, y)
      ensures x == y
    {
      NewlyPut(c, s, a, x);
      NewlyPut(c, s, a, y);
      assert Eager(c, s, a.f);
      assert Buffered(c, s, x) && Buffered(c, s, y);
    }
  }

  /** Left to themselves the fetchers run into the deadlock. */
  lemma {:induction false} ParksForEver(c: Config, s: State, o: int, p: int, q: int) returns (t: State)
    requires Parking(c, s, o) && NoMeeting(c) && Clash(c, o, p, q) && Reachable(c, s)
    ensures Shape(c, t) && Reachable(c, t) && Deadlocked(c, t)
    decreases Measure(c, s)
  {
    hide Apply, Enabled, Reachable, Measure;
    if a :| Enabled(c, s, a) && Ordinary(a) {
      MeasureNonNegative(c, s);
      ParkingStep(c, s, o, a, p, q);
      ReachStep(c, s, a);
      t := ParksForEver(c, Apply(c, s, a), o, p, q);
    } else {
      t := s;
      var f := SomeoneLeft(c, s, o, p, q);
      HaltedFetcher(c, s, f);
    }
  }

  // ---------------------------------------------------------------- exactly when it can deadlock

  /** A pipeline that keeps order, with any number of fetchers, can deadlock if and only if two records
      beyond the first gap share a slot. */
  lemma DeadlockIff(c: Config)
    requires WellFormed(c) && AlwaysInOrder(c)
    ensures CanDeadlock(c) <==> !NoClash(c)
  {
    InOrderIff(c);
    hide AlwaysInOrder, NoMeeting, Reachable;
    if s :| Shape(c, s) && Reachable(c, s) && Deadlocked(c, s) {
      OrderlyReasonsAt(c, s);
      var f :| 0 <= f < |s.fetchers| && s.fetchers[f].pc.Wait?;
      WaitingClash(c, s, f);
    }
    if o, p, q :| Clash(c, o, p, q) {
      var s := RestAt(c, o);
      RestParks(c, s, o);
      s := ParksForEver(c, s, o, p, q);
    }
  }

  // ---------------------------------------------------------------- one fetcher at the first gap

  /** With one fetcher a clash is not only possible but certain: no run stops of itself. */
  lemma SingleNeverStops(c: Config, run: seq<Action>, o: int, p: int, q: int)
    requires WellFormed(c) && |c.segments| == 1 && NoMeeting(c) && Clash(c, o, p, q) && Legal(c, Init(c), run)
    ensures !StoppedByItself(Exec(c, Init(c), run))
  {
    hide SlotIndex;
    var s := Exec(c, Init(c), run);
    OrderlyReasons(c, run);
    assert FetcherOk(c, s, 0);
    assert In(c.segments[0], p) && In(c.segments[0], q);
    assert o < s.Next() ==> o in c.source;
  }

  /** The fate of one fetcher at the first gap `o` of its source. A record that can meet the drainer
      there: it is taken for the missing one in some interleaving. None, but two records that share a
      slot: order is kept, the pipeline can deadlock, and no run stops of itself. Neither: it cannot
      deadlock, and a run that stops of itself has emitted exactly what precedes the gap. */
  lemma SingleAtGap(c: Config, o: int, run: seq<Action>)
    requires WellFormed(c) && |c.segments| == 1 && FirstGap(c, o) && Legal(c, Init(c), run)
    ensures AlwaysInOrder(c) <==> forall q :: !Meeting(c, o, q)
    ensures AlwaysInOrder(c) && !NoClash(c) ==> CanDeadlock(c) && !StoppedByItself(Exec(c, Init(c), run))
    ensures AlwaysInOrder(c) && NoClash(c) ==> !CanDeadlock(c)
    ensures AlwaysInOrder(c) && NoClash(c) && StoppedByItself(Exec(c, Init(c), run)) ==>
      var out := Exec(c, Init(c), run).emitted;
      |out| == o - c.start && Exact(c, out, c.start)
  {
    InOrderIff(c);
    hide AlwaysInOrder, CanDeadlock;
    forall p, q | Meeting(c, p, q)
      ensures p == o
    {
      assert In(c.segments[0], p) && In(c.segments[0], q);
    }
    if NoMeeting(c) {
      DeadlockIff(c);
      if a, p, q :| Clash(c, a, p, q) {
        SingleNeverStops(c, run, a, p, q);
      } else if StoppedByItself(Exec(c, Init(c), run)) {
        CompleteIfOrderly(c, run);
      }
    }
  }

  /** The drainer has not stopped and only a cancellation can change anything. */
  ghost predicate OnlyCancel(c: Config, s: State)
    requires Shape(c, s)
  {
    s.drainer != Stopped && forall a :: Enabled(c, s, a) ==> a == Cancel
  }

  /** The first offset is missing, the second is there and the next record is one lap further on. */
  ghost predicate OneLapApart(c: Config)
    requires c.capacity > 0
  {
    && c.capacity >= 2 && c.start + 1 + c.capacity < c.end
    && c.start !in c.source && c.start + 1 in c.source && c.start + 1 + c.capacity in c.source
    && forall o :: c.start + 1 < o < c.start + 1 + c.capacity ==> o !in c.source
  }

  lemma OneLapClashes(c: Config)
    requires WellFormed(c) && |c.segments| == 1 && OneLapApart(c)
    ensures NoMeeting(c) && Clash(c, c.start, c.start + 1, c.start + 1 + c.capacity)
  {
    SlotNextLap(c.start + 1, c.capacity);
    forall o, q
      ensures !Meeting(c, o, q)
    {
      if c.start == o < q < c.start + c.capacity && At(c, o) == At(c, q) {
        SlotInjective(o, q, c.capacity);
      }
      assert In(c.segments[0], c.start + 1) && In(c.segments[0], c.start + 1 + c.capacity);
      assert c.start <= q < c.end ==> In(c.segments[0], q);
    }
  }

  lemma LastResort(c: Config, s: State)
    requires Shape(c, s) && |c.segments| == 1 && Deadlocked(c, s)
    ensures OnlyCancel(c, s)
  {
  }

  /** For instance: order is kept, but the drainer waits for the first slot and the fetcher for the
      second, for ever. */
  lemma GapDeadlocks(start: int, end: int, workers: int, ring: int, source: map<int, seq<byte>>) returns (s: State)
    requires start < end && workers >= 1 && ring > 0
    requires Effective(start, end, workers) == 1
    requires OneLapApart(Plan(start, end, workers, ring, source))
    ensures var c := Plan(start, end, workers, ring, source);
            AlwaysInOrder(c) && Shape(c, s) && Reachable(c, s) && OnlyCancel(c, s)
  {
    var c := Plan(start, end, workers, ring, source);
    hide SlotIndex, Reachable, AlwaysInOrder, OneLapApart;
    OneLapClashes(c);
    InOrderIff(c);
    DeadlockIff(c);
    s :| Shape(c, s) && Reachable(c, s) && Deadlocked(c, s);
    hide Deadlocked, OnlyCancel;
    LastResort(c, s);
  }
}
