/** What a translated offset means, against the full history and against the true mapping. */
module SyncTranslation {
  import opened Machine
  import opened Wrappers
  import opened SyncStore
  import opened SyncHistory

  /** The answer an unbounded store would give: the latest sync at or below `upstream`. */
  function Best(h: seq<OffsetSync>, upstream: int64): Option<OffsetSync> {
    if h == [] then None
    else if Last(h).upstream <= upstream then Some(Last(h))
    else Best(h[..|h| - 1], upstream)
  }

  lemma {:induction false} BestExact(h: seq<OffsetSync>, upstream: int64)
    requires Ascending(h)
    ensures Best(h, upstream).None? <==> forall s :: s in h ==> s.upstream > upstream
    ensures Best(h, upstream).Some? ==>
      Best(h, upstream).value in h && Best(h, upstream).value.upstream <= upstream
    ensures forall s :: s in h && s.upstream <= upstream ==>
      Best(h, upstream).Some? && s.upstream <= Best(h, upstream).value.upstream
  {
    if h != [] {
      var g := h[..|h| - 1];
      assert h == g + [Last(h)];
      BestExact(g, upstream);
    }
  }

  /** Against the whole history since the last reset, for all int64 offsets: slot 0 answers as the
      ideal store does; slot j >= 1 answers with a sync less than 2^(j-1) upstream offsets behind the
      ideal one; the ideal store has no answer exactly below the first sync, and then no slot answers.
      On offsets in [0, 2^62) some slot answers wherever the ideal store does. */
  lemma AnswersNearHistory(h: seq<OffsetSync>, upstream: int64)
    requires h != [] && Ascending(h)
    ensures Find(Compress(h), upstream) == 0 ==> Best(h, upstream) == Some(Compress(h)[0])
    ensures var j := Find(Compress(h), upstream);
            1 <= j < SLOTS ==>
              && Best(h, upstream).Some?
              && 0 <= Best(h, upstream).value.upstream - Compress(h)[j].upstream < Pow2(j - 1)
    ensures Best(h, upstream).None? <==> upstream < h[0].upstream
    ensures Best(h, upstream).None? ==> Find(Compress(h), upstream) == SLOTS
    ensures Plausible(h) && Find(Compress(h), upstream) == SLOTS ==> Best(h, upstream).None?
  {
    var slots := Compress(h);
    var j := Find(slots, upstream);
    SlotsOrdered(h);
    LatestFirst(h);
    BestExact(h, upstream);
    if j < SLOTS {
      assert slots[j] in h;
    }
    if 1 <= j < SLOTS {
      assert slots[j - 1].upstream <= slots[j].upstream + Pow2(j - 1);
    }
    assert h[0] in h;
    if Plausible(h) {
      SlotsSeparated(h);
    }
  }

  /** Translation in a store that has been through any events is unavailable until the initial read
      is over and for partitions without syncs, and otherwise answers from the compressed history. */
  lemma TranslateByHistory(events: seq<Event>, tp: TopicPartition, upstream: int64)
    ensures var h := Since(events, tp);
            Translate(Replay(events), tp, upstream) ==
              if ReadToEnd in events && h != [] then (TranslateSlots(Compress(h), upstream), true) else (-1, false)
  {
    ReadyExact(events);
    StoreHoldsHistory(events, tp);
  }

  // ---------------------------------------------------------------- one increasing mapping

  /** Where upstream records really went: upstream offset to downstream offset. */
  ghost predicate Increasing(m: map<int, int>) {
    forall u, v :: u in m && v in m && u < v ==> m[u] < m[v]
  }

  ghost predicate Storable(m: map<int, int>) {
    forall u :: u in m ==> 0 <= m[u] < TWO_63 - 1
  }

  ghost predicate From(m: map<int, int>, h: seq<OffsetSync>) {
    forall s :: s in h ==> s.upstream in m && m[s.upstream] == s.downstream
  }

  /** Every sync of `tp` that ever arrived, in whatever order and by whatever path, is true. */
  ghost predicate Truthful(m: map<int, int>, events: seq<Event>, tp: TopicPartition) {
    forall s :: Sync(s) in events && s.tp == tp ==> s.upstream in m && m[s.upstream] == s.downstream
  }

  lemma AnswerNoSkip(m: map<int, int>, sync: OffsetSync, upstream: int64, v: int)
    requires Increasing(m) && Storable(m)
    requires sync.upstream in m && m[sync.upstream] == sync.downstream && sync.upstream <= upstream
    requires v in m && upstream <= v
    ensures Answer(sync, upstream) <= m[v]
  {
    if sync.upstream < upstream {
      assert m[sync.upstream] < m[v];
    }
  }

  /** Never skip: after any run of direct syncs, echoes, rewinds and initial reads, if every sync is
      true of one increasing mapping then a translated offset is at most the downstream offset of
      every record at or after the position asked for; a consumer resuming there misses none. */
  lemma NeverSkip(events: seq<Event>, tp: TopicPartition, m: map<int, int>, upstream: int64, v: int)
    requires Increasing(m) && Storable(m) && Truthful(m, events, tp)
    requires v in m && upstream <= v
    ensures Translate(Replay(events), tp, upstream).0 <= m[v]
  {
    var st := Replay(events);
    StoreHoldsHistory(events, tp);
    if st.ready && tp in st.syncs {
      var h := Since(events, tp);
      SlotsOrdered(h);
      var j := Find(Compress(h), upstream);
      if j < SLOTS {
        assert Compress(h)[j] in h;
        AnswerNoSkip(m, Compress(h)[j], upstream, v);
      }
    }
  }

  /** Where a consumer resumes: some sync of the history at or before the position answers; at its very
      offset the answer is its downstream offset, past it the next one. So the answer lies strictly
      beyond everything up to that sync, and at or before everything from the position on. */
  lemma ResumesPastSync(events: seq<Event>, tp: TopicPartition, m: map<int, int>, upstream: int64)
    returns (sync: OffsetSync)
    requires Increasing(m) && Storable(m) && Truthful(m, events, tp)
    requires Translate(Replay(events), tp, upstream).1 && Translate(Replay(events), tp, upstream).0 != -1
    ensures sync in Since(events, tp) && sync.upstream <= upstream
    ensures Translate(Replay(events), tp, upstream).0 ==
      sync.downstream + if sync.upstream == upstream then 0 else 1
    ensures forall v :: v in m && v <= sync.upstream && v < upstream ==>
      m[v] < Translate(Replay(events), tp, upstream).0
    ensures forall v :: v in m && upstream <= v ==> Translate(Replay(events), tp, upstream).0 <= m[v]
  {
    hide Replay, Since, Translate, Answer;
    var answer := Translate(Replay(events), tp, upstream).0;
    sync := AnsweringSync(events, tp, m, upstream);
    AnswerInDownstream(m, sync, upstream);
    forall v | v in m && upstream <= v
      ensures answer <= m[v]
    {
      NeverSkip(events, tp, m, upstream, v);
    }
    hide Truthful, Storable;
    forall v | v in m && v <= sync.upstream && v < upstream
      ensures m[v] < answer
    {
      assert v < sync.upstream ==> m[v] < m[sync.upstream];
    }
  }

  lemma AnsweringSync(events: seq<Event>, tp: TopicPartition, m: map<int, int>, upstream: int64)
    returns (sync: OffsetSync)
    requires Truthful(m, events, tp)
    requires Translate(Replay(events), tp, upstream).1 && Translate(Replay(events), tp, upstream).0 != -1
    ensures sync in Since(events, tp) && sync.upstream <= upstream
    ensures Translate(Replay(events), tp, upstream).0 == Answer(sync, upstream)
    ensures sync.upstream in m && m[sync.upstream] == sync.downstream
  {
    hide Replay, Since, Updated, StopSlot, FindFrom, Answer;
    var h := Since(events, tp);
    StoreHoldsHistory(events, tp);
    SlotsOrdered(h);
    hide Compress, Descending, StepBounded;
    sync := Compress(h)[Find(Compress(h), upstream)];
    assert sync in h;
  }

  lemma AnswerInDownstream(m: map<int, int>, sync: OffsetSync, upstream: int64)
    requires Storable(m) && sync.upstream in m && m[sync.upstream] == sync.downstream && sync.upstream <= upstream
    ensures Answer(sync, upstream) == sync.downstream + if sync.upstream == upstream then 0 else 1
  {
  }

  lemma AnswerMonotone(m: map<int, int>, s: OffsetSync, u: int64, t: OffsetSync, v: int64)
    requires Increasing(m) && Storable(m)
    requires s.upstream in m && m[s.upstream] == s.downstream
    requires t.upstream in m && m[t.upstream] == t.downstream
    requires s.upstream <= t.upstream && s.upstream <= u && t.upstream <= v && u <= v
    ensures 0 <= Answer(s, u) <= Answer(t, v)
  {
    if s.upstream < t.upstream {
      assert m[s.upstream] < m[t.upstream];
    }
  }

  ghost predicate TrueOf(m: map<int, int>, slots: Slots) {
    forall i :: 0 <= i < SLOTS ==> slots[i].upstream in m && m[slots[i].upstream] == slots[i].downstream
  }

  lemma SlotsMonotone(slots: Slots, m: map<int, int>, u: int64, v: int64)
    requires Descending(slots) && TrueOf(m, slots) && Increasing(m) && Storable(m)
    requires u <= v
    ensures -1 <= TranslateSlots(slots, u) <= TranslateSlots(slots, v)
  {
    hide Updated, FindFrom, StopSlot, Answer;
    var i, j := Find(slots, u), Find(slots, v);
    if i < SLOTS {
      assert j <= i;
      AnswerMonotone(m, slots[i], u, slots[j], v);
    } else if j < SLOTS {
      AnswerMonotone(m, slots[j], v, slots[j], v);
    }
  }

  lemma SlotsTrue(h: seq<OffsetSync>, m: map<int, int>)
    requires h != [] && Ascending(h) && From(m, h)
    ensures TrueOf(m, Compress(h))
  {
    SlotsOrdered(h);
    assert forall i :: 0 <= i < SLOTS ==> Compress(h)[i] in h;
  }

  /** Translation is monotone in the offset asked for. */
  lemma TranslationMonotone(h: seq<OffsetSync>, m: map<int, int>, u: int64, v: int64)
    requires h != [] && Ascending(h) && From(m, h) && Increasing(m) && Storable(m)
    requires u <= v
    ensures -1 <= TranslateSlots(Compress(h), u) <= TranslateSlots(Compress(h), v)
  {
    SlotsOrdered(h);
    SlotsTrue(h, m);
    SlotsMonotone(Compress(h), m, u, v);
  }

  /** The store never answers beyond the ideal store, and -1 wherever the ideal store has nothing; on
      offsets in [0, 2^62) only there. */
  lemma NeverBeyondIdeal(h: seq<OffsetSync>, m: map<int, int>, upstream: int64)
    requires h != [] && Ascending(h) && From(m, h) && Increasing(m) && Storable(m)
    ensures Best(h, upstream).Some? ==>
      var best := Best(h, upstream).value;
      -1 <= TranslateSlots(Compress(h), upstream) <= best.downstream + if best.upstream == upstream then 0 else 1
    ensures upstream < h[0].upstream ==> TranslateSlots(Compress(h), upstream) == -1
    ensures Plausible(h) && upstream >= h[0].upstream ==> TranslateSlots(Compress(h), upstream) >= 0
  {
    var j := Find(Compress(h), upstream);
    AnswersNearHistory(h, upstream);
    SlotsOrdered(h);
    BestExact(h, upstream);
    hide Compress, FindFrom, Answer, Best;
    if Best(h, upstream).Some? {
      var best := Best(h, upstream).value;
      AnswerInDownstream(m, best, upstream);
      AnswerMonotone(m, best, upstream, best, upstream);
      if j < SLOTS {
        assert Compress(h)[j] in h;
        AnswerMonotone(m, Compress(h)[j], upstream, best, upstream);
      }
    }
  }

  lemma LoweredByAhead(slots: Slots, sync: OffsetSync, m: map<int, int>, upstream: int64)
    requires Descending(slots) && TrueOf(m, slots) && Increasing(m) && Storable(m)
    requires upstream < sync.upstream
    ensures -1 <= TranslateSlots(Updated(slots, sync), upstream) <= TranslateSlots(slots, upstream)
  {
    hide Updated, FindFrom, StopSlot, Answer;
    var now := Updated(slots, sync);
    var i, j := Find(slots, upstream), Find(now, upstream);
    if i < SLOTS {
      AnswerMonotone(m, slots[i], upstream, slots[i], upstream);
    }
    if j < SLOTS {
      assert now[j] == slots[j];
      assert i <= j;
      AnswerMonotone(m, slots[j], upstream, slots[i], upstream);
    }
  }

  lemma RaisedByBehind(slots: Slots, sync: OffsetSync, m: map<int, int>, upstream: int64)
    requires Descending(slots) && TrueOf(m, slots) && Increasing(m) && Storable(m)
    requires sync.upstream in m && m[sync.upstream] == sync.downstream
    requires slots[0].upstream <= sync.upstream <= upstream
    ensures TranslateSlots(slots, upstream) <= TranslateSlots(Updated(slots, sync), upstream)
  {
    hide Updated, FindFrom, StopSlot, Answer;
    var now := Updated(slots, sync);
    assert now[0] == sync;
    assert Find(slots, upstream) == 0 == Find(now, upstream);
    AnswerMonotone(m, slots[0], upstream, sync, upstream);
  }

  /** A normal update with a sync ahead of `upstream` can only lower the translation of `upstream`;
      one at or behind it can only raise it. */
  lemma UpdateDirection(h: seq<OffsetSync>, sync: OffsetSync, m: map<int, int>, upstream: int64)
    requires h != [] && Ascending(h) && From(m, h) && Increasing(m) && Storable(m)
    requires From(m, [sync]) && Last(h).upstream <= sync.upstream
    ensures sync.upstream > upstream ==>
      TranslateSlots(Compress(h + [sync]), upstream) <= TranslateSlots(Compress(h), upstream)
    ensures sync.upstream <= upstream ==>
      TranslateSlots(Compress(h + [sync]), upstream) >= TranslateSlots(Compress(h), upstream)
  {
    assert (h + [sync])[..|h|] == h;
    assert Compress(h + [sync]) == Updated(Compress(h), sync);
    SlotsOrdered(h);
    LatestFirst(h);
    SlotsTrue(h, m);
    assert sync in [sync];
    if sync.upstream > upstream {
      LoweredByAhead(Compress(h), sync, m, upstream);
    } else {
      RaisedByBehind(Compress(h), sync, m, upstream);
    }
  }

  // ---------------------------------------------------------------- closed form

  /** The low `i` bits of `n`. */
  function Low(n: nat, i: nat): (low: nat)
    ensures low <= n
  {
    if i == 0 then 0 else n % 2 + 2 * Low(n / 2, i - 1)
  }

  function TrailingOnes(n: nat): nat {
    if n % 2 == 0 then 0 else 1 + TrailingOnes(n / 2)
  }

  lemma {:induction false} LowIsMod(n: nat, i: nat)
    ensures Low(n, i) == n % Pow2(i)
  {
    if i > 0 {
      LowIsMod(n / 2, i - 1);
      ModOfDouble(n, Pow2(i - 1));
    }
  }

  lemma ModOfDouble(n: nat, p: nat)
    requires p > 0
    ensures n % (2 * p) == n % 2 + 2 * (n / 2 % p)
  {
    var q, r := n / 2 / p, n / 2 % p;
    DivMod(n / 2, p);
    assert q * (2 * p) == 2 * (q * p);
    ModUnique(n, 2 * p, q, n % 2 + 2 * r);
  }

  /** Counting up by one clears the trailing ones and carries into the bit above them. */
  lemma {:induction false} LowOfNext(n: nat, i: nat)
    ensures i <= TrailingOnes(n) ==> Low(n, i) == Pow2(i) - 1 && Low(n + 1, i) == 0
    ensures i > TrailingOnes(n) ==> Low(n + 1, i) == Low(n, i) + 1
    ensures i == TrailingOnes(n) + 1 ==> Low(n, i) == Pow2(i - 1) - 1
  {
    if i > 0 {
      LowOfNext(n / 2, i - 1);
      if n % 2 == 1 {
        assert (n + 1) / 2 == n / 2 + 1;
      } else {
        assert (n + 1) / 2 == n / 2;
      }
    }
  }

  lemma {:induction false} TrailingOnesSmall(n: nat)
    ensures Pow2(TrailingOnes(n)) <= n + 1
  {
    if n % 2 == 1 {
      TrailingOnesSmall(n / 2);
    }
  }

  ghost predicate Consecutive(h: seq<OffsetSync>, b: int) {
    && h != [] && 0 <= b && b + |h| <= TWO_62
    && forall k :: 0 <= k < |h| ==> h[k].upstream == b + k
  }

  ghost predicate Closed(slots: Slots, h: seq<OffsetSync>)
    requires h != []
  {
    forall i :: 0 <= i < SLOTS ==> slots[i] == h[|h| - 1 - Low(|h| - 1, i)]
  }

  /** What the trailing ones of `n` are: below the first zero bit there are only ones. */
  lemma TrailingOnesExact(n: nat)
    ensures n % Pow2(TrailingOnes(n) + 1) == Pow2(TrailingOnes(n)) - 1
  {
    LowOfNext(n, TrailingOnes(n) + 1);
    LowIsMod(n, TrailingOnes(n) + 1);
  }

  lemma CheckByOnes(n: nat, b: nat, i: nat, next: int64, older: int64)
    requires 1 <= i < SLOTS && next == b + n + 1 < TWO_62 && older == b + n - Low(n, i)
    requires i <= TrailingOnes(n) + 1
    ensures Spaced(next, older, i) <==> i == TrailingOnes(n) + 1
  {
    LowOfNext(n, i);
    BoundExact(older, i);
    SpacedExact(next, older, i);
  }

  lemma TrailingOnesFit(n: nat)
    requires n + 1 < TWO_62
    ensures TrailingOnes(n) < 62
  {
    TrailingOnesSmall(n);
    Pow2Top();
    if TrailingOnes(n) >= 62 {
      Pow2Monotone(62, TrailingOnes(n));
    }
  }

  /** After `n` further consecutive syncs the next repair pass stops one slot past the trailing one
      bits of `n`. */
  lemma StopsAfterTrailingOnes(slots: Slots, h: seq<OffsetSync>, b: int, next: int64)
    requires Consecutive(h, b) && Closed(slots, h) && next == b + |h| < TWO_62
    ensures StopSlot(slots, next, 1) == TrailingOnes(|h| - 1) + 1 < SLOTS
  {
    hide StopSlot, Spaced, Low, TrailingOnes;
    var n, k := |h| - 1, StopSlot(slots, next, 1);
    TrailingOnesFit(n);
    var stop := TrailingOnes(n) + 1;
    CheckByOnes(n, b, stop, next, slots[stop].upstream);
    if k < stop {
      CheckByOnes(n, b, k, next, slots[k].upstream);
    }
  }

  lemma {:induction false} ConsecutiveLow(h: seq<OffsetSync>, b: int)
    requires Consecutive(h, b)
    ensures Closed(Compress(h), h)
  {
    hide Updated, StopSlot, Spaced, Low, TrailingOnes;
    if |h| == 1 {
      var n := |h| - 1;
      forall i | 0 <= i < SLOTS
        ensures Low(n, i) == 0
      {
        LowOfZero(i);
      }
    } else {
      var g := h[..|h| - 1];
      var n := |g| - 1;
      ConsecutiveLow(g, b);
      StopsAfterTrailingOnes(Compress(g), g, b, Last(h).upstream);
      forall i | 0 <= i < SLOTS
        ensures Compress(h)[i] == h[|h| - 1 - Low(n + 1, i)]
      {
        LowOfNext(n, i);
      }
    }
  }

  /** Closed form: after consecutive syncs b, b+1, .., b+n, slot i holds the sync whose upstream is
      b plus n with its low i bits cleared. */
  lemma ClosedForm(h: seq<OffsetSync>, b: int, n: nat, i: nat)
    requires Consecutive(h, b) && n == |h| - 1 && i < SLOTS
    ensures 0 <= n - n % Pow2(i) <= n && Compress(h)[i] == h[n - n % Pow2(i)]
  {
    hide Low, Compress, Pow2;
    ConsecutiveLow(h, b);
    LowIsMod(n, i);
  }

  lemma {:induction false} LowOfPow2(k: nat, i: nat)
    ensures Low(Pow2(k), i) == if i <= k then 0 else Pow2(k)
  {
    if i > 0 && k > 0 {
      LowOfPow2(k - 1, i - 1);
    } else if i > 0 {
      LowOfZero(i - 1);
    }
  }

  lemma {:induction false} LowOfZero(i: nat)
    ensures Low(0, i) == 0
  {
    if i > 0 {
      LowOfZero(i - 1);
    }
  }

  lemma LagSlot(h: seq<OffsetSync>, b: int, k: nat, i: nat)
    requires Consecutive(h, b) && k <= 61 && |h| == Pow2(k) + 1 && i <= k + 1
    ensures Compress(h)[i].upstream == if i <= k then b + Pow2(k) else b
  {
    ConsecutiveLow(h, b);
    LowOfPow2(k, i);
  }

  /** The lag bound of AnswersNearHistory is attained: 2^k consecutive syncs past the first, asked
      for the offset just before the latest, slot k+1 answers 2^k - 1 upstream offsets behind. */
  lemma LagIsTight(h: seq<OffsetSync>, b: int, k: nat)
    requires Consecutive(h, b) && k <= 61 && |h| == Pow2(k) + 1
    ensures var u := h[|h| - 2].upstream;
            && Find(Compress(h), u) == k + 1
            && Best(h, u) == Some(h[|h| - 2])
            && u - Compress(h)[k + 1].upstream == Pow2(k) - 1
  {
    var u := h[|h| - 2].upstream;
    assert h[..|h| - 1][|h| - 2] == h[|h| - 2];
    assert Best(h[..|h| - 1], u) == Some(h[|h| - 2]);
    LagSlot(h, b, k, k + 1);
    var j := Find(Compress(h), u);
    if j <= k {
      LagSlot(h, b, k, j);
    }
  }
}
