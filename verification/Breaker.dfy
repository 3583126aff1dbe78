/** The circuit breaker over event histories, and the retry loop. */
module Breaker {

  datatype Circuit = Closed | HalfOpen | Open

  datatype Limits = Limits(failureThreshold: int, resetTimeout: int, probes: int)

  datatype Event = Ask(now: int) | Success | Failure(now: int) | Reset

  datatype Model = Model(state: Circuit, failures: int, successes: int, lastFailure: int)

  // ---------------------------------------------------------------- one event at a time

  function Elapse(lim: Limits, m: Model, now: int): Model {
    if m.state == Open && now - m.lastFailure >= lim.resetTimeout then m.(state := HalfOpen, successes := 0) else m
  }

  function Next(lim: Limits, m: Model, e: Event): Model {
    match e
    case Ask(now) => Elapse(lim, m, now)
    case Success =>
      (match m.state
       case Closed => m.(failures := 0)
       case HalfOpen =>
         if m.successes + 1 >= lim.probes then m.(state := Closed, failures := 0, successes := 0)
         else m.(successes := m.successes + 1)
       case Open => m)
    case Failure(now) =>
      var n := m.(lastFailure := now, failures := m.failures + 1);
      (match m.state
       case Closed => if n.failures >= lim.failureThreshold then n.(state := Open) else n
       case HalfOpen => n.(state := Open, successes := 0)
       case Open => n)
    case Reset => m.(state := Closed, failures := 0, successes := 0)
  }

  /** The breaker object; time is a parameter of the calls that read the clock. */
  class CircuitBreaker {
    var state: Circuit
    var failures: int
    var successes: int
    var lastFailureTime: int
    const lim: Limits

    ghost function View(): Model
      reads this
    {
      Model(state, failures, successes, lastFailureTime)
    }

    constructor (lim: Limits)
      ensures this.lim == lim && View() == Model(Closed, 0, 0, 0)
    {
      this.lim := lim;
      state, failures, successes, lastFailureTime := Closed, 0, 0, 0;
    }

    method CheckStateTransition(now: int)
      modifies this
      ensures View() == Elapse(lim, old(View()), now)
    {
      if state == Open && now - lastFailureTime >= lim.resetTimeout {
        state := HalfOpen;
        successes := 0;
      }
    }

    method Allow(now: int) returns (ok: bool)
      modifies this
      ensures View() == Next(lim, old(View()), Ask(now))
      ensures ok <==> View().state != Open
    {
      CheckStateTransition(now);
      match state {
        case Closed => ok := true;
        case HalfOpen => ok := true;
        case Open => ok := false;
      }
    }

    method RecordSuccess()
      modifies this
      ensures View() == Next(lim, old(View()), Success)
    {
      match state {
        case Closed =>
          failures := 0;
        case HalfOpen =>
          successes := successes + 1;
          if successes >= lim.probes {
            state := Closed;
            failures := 0;
            successes := 0;
          }
        case Open =>
      }
    }

    method RecordFailure(now: int)
      modifies this
      ensures View() == Next(lim, old(View()), Failure(now))
    {
      lastFailureTime := now;
      failures := failures + 1;
      match state {
        case Closed =>
          if failures >= lim.failureThreshold {
            state := Open;
          }
        case HalfOpen =>
          state := Open;
          successes := 0;
        case Open =>
      }
    }

    method ForceReset()
      modifies this
      ensures View() == Next(lim, old(View()), Reset)
    {
      state := Closed;
      failures := 0;
      successes := 0;
    }
  }

  // ---------------------------------------------------------------- histories

  function After(lim: Limits, h: seq<Event>): Model {
    if h == [] then Model(Closed, 0, 0, 0) else Next(lim, After(lim, h[..|h| - 1]), h[|h| - 1])
  }

  /** The failures since the last success or reset, read off the events alone. */
  function FailureRun(h: seq<Event>): nat {
    if h == [] then 0
    else match h[|h| - 1]
      case Failure(_) => FailureRun(h[..|h| - 1]) + 1
      case Ask(_) => FailureRun(h[..|h| - 1])
      case _ => 0
  }

  /** The time of the last failure, if any. */
  function LastFailure(h: seq<Event>): int {
    if h == [] then 0
    else if h[|h| - 1].Failure? then h[|h| - 1].now
    else LastFailure(h[..|h| - 1])
  }

  ghost predicate Sensible(lim: Limits) {
    lim.failureThreshold >= 1 && lim.probes >= 1
  }

  /** After every history: the breaker is closed only with fewer consecutive failures than the
      threshold, counted exactly; open or half-open only after at least that many; and it remembers
      the last failure. */
  lemma {:induction false} CountsFailures(lim: Limits, h: seq<Event>)
    requires Sensible(lim)
    ensures var m := After(lim, h);
            && (m.state == Closed ==> m.failures == FailureRun(h) < lim.failureThreshold)
            && (m.state != HalfOpen ==> m.successes == 0)
            && (m.state != Closed ==> m.failures >= lim.failureThreshold)
            && (m.state == HalfOpen ==> 0 <= m.successes < lim.probes)
            && m.lastFailure == LastFailure(h)
  {
    if h != [] {
      CountsFailures(lim, h[..|h| - 1]);
    }
  }

  /** It trips exactly when the failures since the last success or reset reach the threshold. */
  lemma TripsIff(lim: Limits, h: seq<Event>, now: int)
    requires Sensible(lim) && After(lim, h).state == Closed
    ensures After(lim, h + [Failure(now)]).state == Open <==> FailureRun(h) + 1 == lim.failureThreshold
  {
    CountsFailures(lim, h);
    assert (h + [Failure(now)])[..|h|] == h;
  }

  // ---------------------------------------------------------------- while open

  /** Every question in `g` comes less than the timeout after the last failure before it. */
  ghost predicate TooEarly(lim: Limits, h: seq<Event>, g: seq<Event>) {
    forall i :: 0 <= i < |g| ==>
      match g[i]
      case Ask(now) => now - LastFailure(h + g[..i]) < lim.resetTimeout
      case Reset => false
      case _ => true
  }

  /** An open breaker stays open, refusing every operation, through any successes and failures, until
      someone asks at least the timeout after the last recorded failure. */
  lemma {:induction false} StaysOpen(lim: Limits, h: seq<Event>, g: seq<Event>)
    requires Sensible(lim) && After(lim, h).state == Open && TooEarly(lim, h, g)
    ensures After(lim, h + g).state == Open
  {
    if g == [] {
      assert h + g == h;
    } else {
      var n := |g| - 1;
      assert TooEarly(lim, h, g[..n]) by {
        forall i | 0 <= i < n
          ensures g[..n][i] == g[i] && h + g[..n][..i] == h + g[..i]
        {
        }
      }
      StaysOpen(lim, h, g[..n]);
      assert (h + g)[..|h| + n] == h + g[..n];
      CountsFailures(lim, h + g[..n]);
    }
  }

  /** The first question after that is allowed, and only then. */
  lemma AllowedIff(lim: Limits, h: seq<Event>, now: int)
    requires Sensible(lim) && After(lim, h).state == Open
    ensures After(lim, h + [Ask(now)]).state != Open <==> now - LastFailure(h) >= lim.resetTimeout
    ensures After(lim, h + [Ask(now)]).state == HalfOpen ==> After(lim, h + [Ask(now)]).successes == 0
  {
    CountsFailures(lim, h);
    assert (h + [Ask(now)])[..|h|] == h;
  }

  // ---------------------------------------------------------------- while half-open

  function Successes(g: seq<Event>): nat {
    if g == [] then 0 else Successes(g[..|g| - 1]) + if g[|g| - 1].Success? then 1 else 0
  }

  ghost predicate Undisturbed(g: seq<Event>) {
    forall e :: e in g ==> e.Ask? || e.Success?
  }

  /** From the moment it turns half-open, and with neither failure nor reset, the breaker is closed
      exactly from the success that completes the required number of probes on. */
  lemma {:induction false} ClosesIff(lim: Limits, h: seq<Event>, g: seq<Event>)
    requires Sensible(lim) && Undisturbed(g)
    requires After(lim, h).state == HalfOpen && After(lim, h).successes == 0
    ensures var m := After(lim, h + g);
            if Successes(g) >= lim.probes then m.state == Closed
            else m.state == HalfOpen && m.successes == Successes(g)
  {
    if g == [] {
      assert h + g == h;
    } else {
      var n := |g| - 1;
      assert forall e :: e in g[..n] ==> e in g;
      ClosesIff(lim, h, g[..n]);
      assert (h + g)[..|h| + n] == h + g[..n];
      assert g[n] in g;
    }
  }

  /** One failure before that re-opens it. */
  lemma FailureReopens(lim: Limits, h: seq<Event>, g: seq<Event>, now: int)
    requires Sensible(lim) && Undisturbed(g) && Successes(g) < lim.probes
    requires After(lim, h).state == HalfOpen && After(lim, h).successes == 0
    ensures After(lim, h + g + [Failure(now)]).state == Open
  {
    ClosesIff(lim, h, g);
    assert (h + g + [Failure(now)])[..|h + g|] == h + g;
  }

  // ---------------------------------------------------------------- reset

  /** A reset, whatever the breaker has been through, makes it a new one: from then on it is in the same
      state with the same counts as a breaker that has seen only what came after. */
  lemma {:induction false} ResetRenews(lim: Limits, h: seq<Event>, g: seq<Event>)
    requires Sensible(lim)
    ensures var m, k := After(lim, h + [Reset] + g), After(lim, g);
            m.state == k.state && m.failures == k.failures && m.successes == k.successes
    ensures After(lim, h + [Reset]).state == Closed
  {
    assert (h + [Reset])[..|h|] == h;
    if g == [] {
      assert h + [Reset] + g == h + [Reset];
    } else {
      var n := |g| - 1;
      ResetRenews(lim, h, g[..n]);
      assert (h + [Reset] + g)[..|h| + 1 + n] == h + [Reset] + g[..n];
      SameLastFailure(lim, h, g[..n]);
    }
  }

  /** A breaker that is open has failed since, and both remember that failure. */
  lemma {:induction false} SameLastFailure(lim: Limits, h: seq<Event>, g: seq<Event>)
    requires Sensible(lim)
    ensures After(lim, g).state == Open ==>
      After(lim, h + [Reset] + g).lastFailure == After(lim, g).lastFailure
    ensures After(lim, g).failures > 0 ==> After(lim, h + [Reset] + g).lastFailure == After(lim, g).lastFailure
  {
    CountsFailures(lim, g);
    if g != [] {
      var n := |g| - 1;
      SameLastFailure(lim, h, g[..n]);
      assert (h + [Reset] + g)[..|h| + 1 + n] == h + [Reset] + g[..n];
      CountsFailures(lim, h + [Reset] + g);
      CountsFailures(lim, h + [Reset] + g[..n]);
      CountsFailures(lim, g[..n]);
    }
  }

  // ---------------------------------------------------------------- the retry loop

  datatype RetryResult = Done | CancelledBefore(attempt: int) | CancelledInBackoff(attempt: int) | Exhausted

  /** `succeeds(k)` is the outcome of attempt k; `cancelledAt` counts the looks at the context, two
      per failed attempt, after which it is found cancelled. */
  method Retry(maxRetries: int, succeeds: int -> bool, cancelledAt: nat) returns (r: RetryResult, attempts: nat)
    ensures r == Done ==>
      && 0 < attempts <= maxRetries + 1 && succeeds(attempts - 1) && 2 * (attempts - 1) < cancelledAt
    ensures forall k :: 0 <= k < attempts - (if r == Done then 1 else 0) ==> !succeeds(k)
    ensures r == Exhausted ==>
      && (attempts == if maxRetries < 0 then 0 else maxRetries + 1) && (maxRetries < 0 || 2 * maxRetries < cancelledAt)
    ensures r.CancelledBefore? ==> 0 <= attempts == r.attempt <= maxRetries && cancelledAt == 2 * attempts
    ensures r.CancelledInBackoff? ==>
      0 <= r.attempt && attempts == r.attempt + 1 <= maxRetries && cancelledAt == 2 * r.attempt + 1
  {
    attempts := 0;
    var attempt := 0;
    while attempt <= maxRetries
      invariant 0 <= attempt == attempts
      invariant attempt <= maxRetries || maxRetries < 0 == attempt
      invariant forall k :: 0 <= k < attempts ==> !succeeds(k)
      invariant attempt > 0 ==> 2 * attempt - 1 < cancelledAt
      decreases maxRetries - attempt
    {
      if cancelledAt <= 2 * attempt {
        return CancelledBefore(attempt), attempts;
      }
      attempts := attempts + 1;
      if succeeds(attempt) {
        return Done, attempts;
      }
      if attempt == maxRetries {
        break;
      }
      if cancelledAt <= 2 * attempt + 1 {
        return CancelledInBackoff(attempt), attempts;
      }
      attempt := attempt + 1;
    }
    r := Exhausted;
  }
}
