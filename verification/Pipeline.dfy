/** The catch-up pipeline of one partition: fetchers, ring buffer and drainer as interleaved steps. */
module Pipeline {
  import opened Machine
  import opened Wrappers
  import opened RingBuffer

  /** The offsets [from, to) one fetcher is responsible for. */
  datatype Segment = Segment(from: int, to: int)

  datatype Config = Config(capacity: int, start: int, end: int, source: map<int, seq<byte>>, segments: seq<Segment>)

  const MIN_SEGMENT := 1000
  const DRAIN_BATCH := 512

  // ---------------------------------------------------------------- planning

  function SegmentSize(start: int, end: int, workers: int): int
    requires start < end && workers >= 1
  {
    (end - start) / workers
  }

  /** How many fetchers are launched: one if segments would be tiny. */
  function Effective(start: int, end: int, workers: int): (w: int)
    requires start < end && workers >= 1
    ensures 1 <= w <= workers
  {
    if SegmentSize(start, end, workers) < MIN_SEGMENT then 1 else workers
  }

  function SegmentAt(start: int, end: int, workers: int, i: int): Segment
    requires start < end && workers >= 1
  {
    var w := Effective(start, end, workers);
    var size := if w == 1 then end - start else SegmentSize(start, end, workers);
    Segment(start + i * size, if i == w - 1 then end else start + i * size + size)
  }

  function RingCapacity(start: int, end: int, ring: int): int {
    if end - start < ring then end - start + 1 else ring
  }

  /** The launch loop: the segments handed to fetchers, in order. */
  method PlanSegments(start: int, end: int, workers: int) returns (segments: seq<Segment>)
    requires start < end && workers >= 1
    ensures |segments| == if (end - start) / workers < 1000 then 1 else workers
    ensures forall i :: 0 <= i < |segments| ==>
      && segments[i].from == start + i * ((end - start) / |segments|)
      && segments[i].to == if i == |segments| - 1 then end else start + (i + 1) * ((end - start) / |segments|)
    ensures Tiles(segments, start, end) && segments == Plan(start, end, workers, 1, map[]).segments
  {
    var effective := workers;
    var size := (end - start) / effective;
    if size < MIN_SEGMENT {
      effective := 1;
      size := end - start;
    }
    segments := [];
    var i := 0;
    while i < effective
      invariant 0 <= i == |segments| <= effective
      invariant forall k :: 0 <= k < i ==> segments[k] == SegmentAt(start, end, workers, k)
    {
      SegmentFits(start, end, workers, i);
      var from := start + i * size;
      var to := from + size;
      if i == effective - 1 {
        to := end;
      }
      if from >= end {
        break;
      }
      segments := segments + [Segment(from, to)];
      i := i + 1;
    }
    SegmentsTile(start, end, workers, segments);
    EqualSegments(start, end, workers, segments);
  }

  /** Segments of equal size, the last one taking the remainder. */
  lemma EqualSegments(start: int, end: int, workers: int, segments: seq<Segment>)
    requires start < end && workers >= 1 && |segments| == Effective(start, end, workers)
    requires forall i :: 0 <= i < |segments| ==> segments[i] == SegmentAt(start, end, workers, i)
    ensures |segments| == if (end - start) / workers < 1000 then 1 else workers
    ensures forall i :: 0 <= i < |segments| ==>
      && segments[i].from == start + i * ((end - start) / |segments|)
      && segments[i].to == if i == |segments| - 1 then end else start + (i + 1) * ((end - start) / |segments|)
    ensures segments == Plan(start, end, workers, 1, map[]).segments
  {
    var n := |segments|;
    var size := (end - start) / n;
    assert n == 1 ==> size == end - start;
    forall i | 0 <= i < n
      ensures segments[i].from == start + i * size
      ensures segments[i].to == if i == n - 1 then end else start + (i + 1) * size
    {
      assert (i + 1) * size == i * size + size;
    }
  }

  ghost predicate Tiles(segments: seq<Segment>, start: int, end: int) {
    && segments != []
    && segments[0].from == start && segments[|segments| - 1].to == end
    && (forall i :: 0 <= i < |segments| ==> segments[i].from < segments[i].to)
    && (forall i :: 0 < i < |segments| ==> segments[i].from == segments[i - 1].to)
  }

  lemma SegmentFits(start: int, end: int, workers: int, i: int)
    requires start < end && workers >= 1 && 0 <= i < Effective(start, end, workers)
    ensures start <= SegmentAt(start, end, workers, i).from < SegmentAt(start, end, workers, i).to <= end
  {
    var w := Effective(start, end, workers);
    if w > 1 {
      var size := SegmentSize(start, end, workers);
      DivMod(end - start, workers);
      assert workers * size <= end - start;
      assert i * size + size == (i + 1) * size <= workers * size by {
        MulLe(i + 1, workers, size);
      }
      MulLe(0, i, size);
    }
  }

  lemma SegmentsTile(start: int, end: int, workers: int, segments: seq<Segment>)
    requires start < end && workers >= 1 && |segments| == Effective(start, end, workers)
    requires forall i :: 0 <= i < |segments| ==> segments[i] == SegmentAt(start, end, workers, i)
    ensures Tiles(segments, start, end)
  {
    forall i | 0 <= i < |segments|
      ensures segments[i].from < segments[i].to
    {
      SegmentFits(start, end, workers, i);
    }
    forall i | 0 < i < |segments|
      ensures segments[i].from == segments[i - 1].to
    {
      var size := SegmentSize(start, end, workers);
      assert i * size == (i - 1) * size + size;
    }
  }

  /** The pipeline that catchUpPartitionPipelined sets up. */
  function Plan(start: int, end: int, workers: int, ring: int, source: map<int, seq<byte>>): (c: Config)
    requires start < end && workers >= 1 && ring > 0
    ensures WellFormed(c) && c.start == start && c.end == end && c.source == source
    ensures c.capacity <= ring && c.capacity <= end - start + 1 && (c.capacity == ring || c.capacity > end - start)
  {
    var segments := seq(Effective(start, end, workers), i => SegmentAt(start, end, workers, i));
    SegmentsTile(start, end, workers, segments);
    Config(RingCapacity(start, end, ring), start, end, source, segments)
  }

  ghost predicate WellFormed(c: Config) {
    c.capacity > 0 && c.start < c.end && Tiles(c.segments, c.start, c.end)
  }

  function Rec(c: Config, o: int): Record
    requires o in c.source
  {
    Record(o, c.source[o])
  }

  // ---------------------------------------------------------------- states

  /** Where a fetcher is. Put is split at its atomic accesses: load, plain writes, compare-and-swap
      on the fast path; wait, re-check, plain writes, store on the slow path. A failing fetcher has
      returned its error but not yet closed the buffer. */
  datatype Pc =
    | Poll
    | Load(r: Record) | FastWrite(r: Record) | FastCas(r: Record)
    | Wait(r: Record) | Check(r: Record) | SlowWrite(r: Record) | SlowStore(r: Record)
    | Failing | Finished | Failed
  {
    predicate Done() { Finished? || Failed? }
    predicate Pending() { !Done() && !Poll? && !Failing? }
    predicate Writing() { FastWrite? || FastCas? || SlowWrite? || SlowStore? }
    predicate Written() { FastCas? || SlowStore? }
  }

  /** `pos` is the next source offset still to be delivered to this fetcher. */
  datatype Fetcher = Fetcher(pos: int, pc: Pc)

  /** Where the drainer is; Taken holds a record whose slot is not yet released. */
  datatype Drainer = Outer | Blocked | Checking | Scan | Taken(rec: Option<Record>) | Stopped

  datatype State = State(
    slots: seq<Slot>, drainOffset: int, batch: seq<Option<Record>>, emitted: seq<Option<Record>>,
    drainer: Drainer, fetchers: seq<Fetcher>, closed: bool, cancelled: bool)
  {
    /** The next offset the drainer will take. */
    function Next(): int { drainOffset + |batch| }

    /** Everything taken for production so far, in order. */
    function Output(): seq<Option<Record>> { emitted + batch }
  }

  function Init(c: Config): State
    requires c.capacity > 0
  {
    State(seq(c.capacity, _ => Slot(Empty, None, 0)), c.start, [], [], Outer,
          seq(|c.segments|, i requires 0 <= i < |c.segments| => Fetcher(c.segments[i].from, Poll)), false, false)
  }

  ghost predicate Shape(c: Config, s: State) {
    c.capacity > 0 && |s.slots| == c.capacity && |s.fetchers| == |c.segments|
  }

  function At(c: Config, o: int): (i: int)
    requires c.capacity > 0
    ensures 0 <= i < c.capacity
  {
    SlotIndex(o, c.capacity)
  }

  predicate Free(c: Config, s: State, o: int)
    requires Shape(c, s)
  {
    s.slots[At(c, o)].state == Empty
  }

  // ---------------------------------------------------------------- steps

  datatype Action =
    | Deliver(f: nat, o: int)  // the next source record reaches fetcher f
    | Leave(f: nat)            // fetcher f returns: segment finished or context cancelled
    | Put(f: nat)              // fetcher f takes one step inside Put
    | Fail(f: nat)             // fetcher f returns an error
    | Report(f: nat)           // the buffer is closed for the error of fetcher f
    | Drain                    // one step of the drainer
    | CloseAll                 // every fetcher has returned: the buffer is closed
    | Cancel

  ghost predicate Enabled(c: Config, s: State, a: Action)
    requires Shape(c, s)
  {
    match a
    case Deliver(f, o) =>
      && f < |s.fetchers| && s.fetchers[f].pc == Poll
      && s.fetchers[f].pos < c.segments[f].to && s.fetchers[f].pos <= o && o in c.source
      && forall p :: p in c.source && s.fetchers[f].pos <= p ==> o <= p
    case Leave(f) =>
      && f < |s.fetchers| && s.fetchers[f].pc == Poll
      && (s.fetchers[f].pos >= c.segments[f].to || s.cancelled)
    case Put(f) =>
      && f < |s.fetchers| && s.fetchers[f].pc.Pending()
      && (s.fetchers[f].pc.Wait? ==> Free(c, s, s.fetchers[f].pc.r.offset) || s.closed || s.cancelled)
    case Fail(f) => f < |s.fetchers| && s.fetchers[f].pc == Poll
    case Report(f) => f < |s.fetchers| && s.fetchers[f].pc == Failing
    case Drain =>
      && s.drainer != Stopped
      && (s.drainer == Blocked ==> !Free(c, s, s.drainOffset) || s.closed || s.cancelled)
    case CloseAll => !s.closed && forall f :: 0 <= f < |s.fetchers| ==> s.fetchers[f].pc.Done()
    case Cancel => !s.cancelled
  }

  function Move(s: State, f: nat, fetcher: Fetcher): State
    requires f < |s.fetchers|
  {
    s.(fetchers := s.fetchers[f := fetcher])
  }

  function PutStep(c: Config, s: State, f: nat): (r: State)
    requires Shape(c, s) && f < |s.fetchers| && s.fetchers[f].pc.Pending()
    ensures Shape(c, r)
  {
    var me := s.fetchers[f];
    var r := me.pc.r;
    var i := At(c, r.offset);
    match me.pc
    case Load(_) => Move(s, f, me.(pc := if s.slots[i].state == Empty then FastWrite(r) else Wait(r)))
    case FastWrite(_) =>
      Move(s, f, me.(pc := FastCas(r))).(slots := s.slots[i := s.slots[i].(record := Some(r), offset := r.offset)])
    case FastCas(_) =>
      if s.slots[i].state == Empty
      then Move(s, f, Fetcher(r.offset + 1, Poll)).(slots := s.slots[i := s.slots[i].(state := Filled)])
      else Move(s, f, me.(pc := Wait(r)))
    case Wait(_) => Move(s, f, me.(pc := Check(r)))
    case Check(_) => Move(s, f, me.(pc := if s.closed || s.cancelled then Finished else SlowWrite(r)))
    case SlowWrite(_) =>
      Move(s, f, me.(pc := SlowStore(r))).(slots := s.slots[i := s.slots[i].(record := Some(r), offset := r.offset)])
    case SlowStore(_) =>
      Move(s, f, Fetcher(r.offset + 1, Poll)).(slots := s.slots[i := s.slots[i].(state := Filled)])
  }

  function DrainStep(c: Config, s: State): (r: State)
    requires Shape(c, s) && s.drainer != Stopped
    ensures Shape(c, r)
  {
    var i := At(c, s.Next());
    match s.drainer
    case Outer => s.(drainer := if s.cancelled then Stopped else Blocked)
    case Blocked => s.(drainer := Checking)
    case Checking =>
      s.(drainer := if (s.closed && s.slots[i].state != Filled) || s.cancelled then Stopped else Scan)
    case Scan =>
      if |s.batch| < DRAIN_BATCH && s.slots[i].state == Filled then
        s.(drainer := Taken(s.slots[i].record), slots := s.slots[i := s.slots[i].(record := None)])
      else
        s.(drainer := if s.batch == [] then Stopped else Outer,
           drainOffset := s.Next(), emitted := s.emitted + s.batch, batch := [])
    case Taken(rec) =>
      s.(drainer := Scan, slots := s.slots[i := s.slots[i].(state := Empty)], batch := s.batch + [rec])
  }

  function Apply(c: Config, s: State, a: Action): (r: State)
    requires Shape(c, s) && Enabled(c, s, a)
    ensures Shape(c, r)
  {
    match a
    case Deliver(f, o) =>
      if o >= c.segments[f].to then Move(s, f, Fetcher(c.segments[f].to, Finished))
      else Move(s, f, s.fetchers[f].(pc := Load(Rec(c, o))))
    case Leave(f) => Move(s, f, s.fetchers[f].(pc := Finished))
    case Put(f) => PutStep(c, s, f)
    case Fail(f) => Move(s, f, s.fetchers[f].(pc := Failing))
    case Report(f) => Move(s, f, s.fetchers[f].(pc := Failed)).(closed := true)
    case Drain => DrainStep(c, s)
    case CloseAll => s.(closed := true)
    case Cancel => s.(cancelled := true)
  }

  // ---------------------------------------------------------------- runs

  ghost predicate Legal(c: Config, s: State, run: seq<Action>)
    decreases |run|
  {
    && Shape(c, s)
    && (run == [] || (Enabled(c, s, run[0]) && Legal(c, Apply(c, s, run[0]), run[1..])))
  }

  ghost function Exec(c: Config, s: State, run: seq<Action>): (r: State)
    requires Legal(c, s, run)
    ensures Shape(c, r)
    decreases |run|
  {
    if run == [] then s else Exec(c, Apply(c, s, run[0]), run[1..])
  }

  lemma ExecOne(c: Config, s: State, a: Action)
    requires Shape(c, s) && Enabled(c, s, a)
    ensures Legal(c, s, [a]) && Exec(c, s, [a]) == Apply(c, s, a)
  {
    var t := Apply(c, s, a);
    assert [a][1..] == [];
    assert Legal(c, t, []) && Exec(c, t, []) == t;
  }

  lemma {:induction false} ExecJoin(c: Config, s: State, a: seq<Action>, b: seq<Action>)
    requires Legal(c, s, a) && Legal(c, Exec(c, s, a), b)
    ensures Legal(c, s, a + b) && Exec(c, s, a + b) == Exec(c, Exec(c, s, a), b)
    decreases |a|
  {
    if a == [] {
      assert a + b == b;
    } else {
      assert (a + b)[1..] == a[1..] + b;
      ExecJoin(c, Apply(c, s, a[0]), a[1..], b);
    }
  }

  // ---------------------------------------------------------------- what the pipeline is for

  /** `out` is the source's records at lo, lo + 1, ... with no gap, repeat or reorder. */
  ghost predicate Exact(c: Config, out: seq<Option<Record>>, lo: int) {
    forall o :: lo <= o < lo + |out| ==> o in c.source && out[o - lo] == Some(Record(o, c.source[o]))
  }

  /** The source has a record at every offset of the range. */
  ghost predicate Contiguous(c: Config) {
    forall o :: c.start <= o < c.end ==> o in c.source
  }

  /** The window discipline: whoever is writing a slot writes an offset below Next + capacity. */
  ghost predicate Disciplined(c: Config, s: State) {
    forall f :: 0 <= f < |s.fetchers| && s.fetchers[f].pc.Writing() ==>
      s.fetchers[f].pc.r.offset < s.Next() + c.capacity
  }
}
