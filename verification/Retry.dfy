/** Retrying an action that may fail: attempt counting combined with a clock bound. */
module Retry {

  import opened Options

  /** What one call of the action does: return, raise an exception of the caught types, or raise
      any other. */
  datatype Attempt<V, E> = Success(value: V) | Listed(error: E) | Unlisted(error: E)

  datatype RetrySpec = RetrySpec(interval: real, attempts: Option<int>, timeout: Option<real>) {

    /** The check made on construction. */
    predicate Valid() { attempts.Some? || timeout.Some? }

    /** The latest clock reading at which another attempt is made; a zero timeout is none. */
    function Limit(start: real): Option<real> {
      if timeout.Some? && timeout.value != 0.0 then Some(start + timeout.value) else None
    }
  }

  /** The surroundings of a run: what the k-th call does, the clock when the run starts, and the
      clock as it is read after the k-th call has failed. */
  datatype World<V, E> = World(attempt: nat -> Attempt<V, E>, start: real, clock: nat -> real)

  /** The clock never runs back, and a sleep advances it by at least its length. */
  ghost predicate FairClock<V(!new), E(!new)>(w: World<V, E>, interval: real) {
    && w.start <= w.clock(0)
    && forall j: nat, k: nat :: k == j + 1 ==> w.clock(j) <= w.clock(k) && w.clock(j) + interval <= w.clock(k)
  }

  datatype Result<V, E> = Returned(value: V) | Raised(error: E) | BadAttempts | BadSleep

  datatype Action = Call | Sleep(seconds: real)

  // -------------------------------------------------------------------------------------------
  // The specification
  // -------------------------------------------------------------------------------------------

  /** No call follows the k-th. */
  predicate Stops<V, E>(spec: RetrySpec, w: World<V, E>, k: nat) {
    var limit := spec.Limit(w.start);
    || !w.attempt(k).Listed?
    || spec.attempts == Some(k + 1)
    || (limit.Some? && limit.value < w.clock(k))
  }

  ghost predicate Halts<V, E>(spec: RetrySpec, w: World<V, E>) {
    exists k: nat :: Stops(spec, w, k)
  }

  ghost predicate LastCall<V, E>(spec: RetrySpec, w: World<V, E>, k: nat) {
    Stops(spec, w, k) && forall j: nat :: j < k ==> !Stops(spec, w, j)
  }

  /** `calls` calls with a sleep between any two. */
  function Alternation(interval: real, calls: nat): seq<Action>
    requires calls > 0
  {
    if calls == 1 then [Call] else Alternation(interval, calls - 1) + [Sleep(interval), Call]
  }

  function Outcome<V, E>(a: Attempt<V, E>): Result<V, E> {
    match a
    case Success(v) => Returned(v)
    case Listed(e) => Raised(e)
    case Unlisted(e) => Raised(e)
  }

  /** A run that made its last call at `k`, whatever its end. */
  ghost predicate EndsAt<V, E>(spec: RetrySpec, w: World<V, E>, k: nat, result: Result<V, E>, log: seq<Action>) {
    && LastCall(spec, w, k)
    && log == Alternation(spec.interval, k + 1)
    && result == Outcome(w.attempt(k))
  }

  ghost predicate TooFewAttempts(spec: RetrySpec) { spec.attempts.Some? && spec.attempts.value < 1 }

  ghost predicate RetryRun<V, E>(spec: RetrySpec, w: World<V, E>, result: Result<V, E>, log: seq<Action>) {
    if TooFewAttempts(spec) then result == BadAttempts && log == []
    else if spec.interval < 0.0 && !Stops(spec, w, 0) then result == BadSleep && log == [Call]
    else exists k: nat :: EndsAt(spec, w, k, result, log)
  }

  ghost predicate ARetryRun<V, E>(spec: RetrySpec, w: World<V, E>, result: Result<V, E>, log: seq<Action>) {
    if TooFewAttempts(spec) then result == BadAttempts && log == []
    else exists k: nat :: EndsAt(spec, w, k, result, log)
  }

  // -------------------------------------------------------------------------------------------
  // The loops
  // -------------------------------------------------------------------------------------------

  /** `RetrySpec.retry`. The precondition is that the run ends at all; see `TerminatesExactlyWhen` and
      `RunsForever`. `time.sleep` raises on a negative length. */
  method Retry<V, E>(spec: RetrySpec, w: World<V, E>) returns (result: Result<V, E>, log: seq<Action>)
    requires TooFewAttempts(spec) || spec.interval < 0.0 || Halts(spec, w)
    ensures RetryRun(spec, w, result, log)
  {
    log := [];
    if spec.attempts.Some? && spec.attempts.value < 1 { return BadAttempts, log; }
    var limit := spec.Limit(w.start);
    var i := 0;
    ghost var end := if Halts(spec, w) then var k: nat :| Stops(spec, w, k); k else 0;
    while spec.attempts.None? || i < spec.attempts.value - 1
      invariant 0 <= i && (spec.attempts.Some? ==> i < spec.attempts.value)
      invariant i > 0 ==> spec.interval >= 0.0
      invariant forall j: nat :: j < i ==> !Stops(spec, w, j)
      invariant log + [Call] == Alternation(spec.interval, i + 1)
      decreases end - i
    {
      log := log + [Call];
      match w.attempt(i) {
        case Success(v) => assert EndsAt(spec, w, i, Returned(v), log); return Returned(v), log;
        case Unlisted(e) => assert EndsAt(spec, w, i, Raised(e), log); return Raised(e), log;
        case Listed(e) =>
          if limit.Some? && w.clock(i) > limit.value {
            assert EndsAt(spec, w, i, Raised(e), log);
            return Raised(e), log;
          }
      }
      assert !Stops(spec, w, i);
      if spec.interval < 0.0 { return BadSleep, log; }
      assert log + [Sleep(spec.interval), Call] == (log + [Sleep(spec.interval)]) + [Call];
      log := log + [Sleep(spec.interval)];
      i := i + 1;
    }
    log := log + [Call];
    assert EndsAt(spec, w, i, Outcome(w.attempt(i)), log);
    return Outcome(w.attempt(i)), log;
  }

  /** `RetrySpec.aretry`. `asyncio.sleep` accepts a negative length. */
  method ARetry<V, E>(spec: RetrySpec, w: World<V, E>) returns (result: Result<V, E>, log: seq<Action>)
    requires TooFewAttempts(spec) || Halts(spec, w)
    ensures ARetryRun(spec, w, result, log)
  {
    log := [];
    if spec.attempts.Some? && spec.attempts.value < 1 { return BadAttempts, log; }
    var limit := spec.Limit(w.start);
    var i := 0;
    ghost var end: nat :| Stops(spec, w, end);
    while spec.attempts.None? || i < spec.attempts.value - 1
      invariant 0 <= i && (spec.attempts.Some? ==> i < spec.attempts.value)
      invariant forall j: nat :: j < i ==> !Stops(spec, w, j)
      invariant log + [Call] == Alternation(spec.interval, i + 1)
      decreases end - i
    {
      log := log + [Call];
      match w.attempt(i) {
        case Success(v) => assert EndsAt(spec, w, i, Returned(v), log); return Returned(v), log;
        case Unlisted(e) => assert EndsAt(spec, w, i, Raised(e), log); return Raised(e), log;
        case Listed(e) =>
          if limit.Some? && w.clock(i) > limit.value {
            assert EndsAt(spec, w, i, Raised(e), log);
            return Raised(e), log;
          }
      }
      assert !Stops(spec, w, i);
      assert log + [Sleep(spec.interval), Call] == (log + [Sleep(spec.interval)]) + [Call];
      log := log + [Sleep(spec.interval)];
      i := i + 1;
    }
    log := log + [Call];
    assert EndsAt(spec, w, i, Outcome(w.attempt(i)), log);
    return Outcome(w.attempt(i)), log;
  }

  // -------------------------------------------------------------------------------------------
  // What the specification promises
  // -------------------------------------------------------------------------------------------

  function Count(log: seq<Action>, sleeps: bool): nat {
    if log == [] then 0 else Count(log[..|log| - 1], sleeps) + if log[|log| - 1].Sleep? == sleeps then 1 else 0
  }

  lemma {:induction false} AlternationCounts(interval: real, calls: nat)
    requires calls > 0
    ensures Count(Alternation(interval, calls), false) == calls
    ensures Count(Alternation(interval, calls), true) == calls - 1
    decreases calls
  {
    if calls == 1 {
      assert [Call][..0] == [];
    } else {
      AlternationCounts(interval, calls - 1);
      var init := Alternation(interval, calls - 1);
      var log := init + [Sleep(interval), Call];
      assert log[..|log| - 1] == init + [Sleep(interval)];
      assert (init + [Sleep(interval)])[..|init|] == init;
    }
  }

  lemma {:induction false} AlternationPlaces(interval: real, calls: nat)
    requires calls > 0
    ensures |Alternation(interval, calls)| == 2 * calls - 1
    ensures forall i :: 0 <= i < 2 * calls - 1 ==>
              Alternation(interval, calls)[i] == if i % 2 == 0 then Call else Sleep(interval)
    decreases calls
  {
    if calls > 1 { AlternationPlaces(interval, calls - 1); }
  }

  /** There is a limit, and the clock is past it after the k-th call has failed; a zero timeout is
      none. */
  predicate Late<V, E>(spec: RetrySpec, w: World<V, E>, k: nat) {
    spec.timeout.Some? && spec.timeout.value != 0.0 && w.clock(k) > w.start + spec.timeout.value
  }

  /** The loops refuse to run exactly with less than one attempt. */
  lemma RefusedExactlyWhen<V, E>(spec: RetrySpec, w: World<V, E>, result: Result<V, E>, log: seq<Action>)
    requires RetryRun(spec, w, result, log) || ARetryRun(spec, w, result, log)
    ensures result == BadAttempts <==> spec.attempts.Some? && spec.attempts.value < 1
    ensures result == BadAttempts ==> log == []
  {
  }

  /** `retry` fails in a sleep exactly if a negative one comes due, after its first call. */
  lemma BadSleepExactlyWhen<V, E>(spec: RetrySpec, w: World<V, E>, result: Result<V, E>, log: seq<Action>)
    requires !TooFewAttempts(spec) && RetryRun(spec, w, result, log)
    ensures result == BadSleep
            <==> spec.interval < 0.0 && w.attempt(0).Listed? && spec.attempts != Some(1) && !Late(spec, w, 0)
    ensures result == BadSleep ==> log == [Call]
  {
  }

  /** The end of a run that halts is unique, and is the first success, the first unlisted exception
      or the last listed one; calls and sleeps of the given length alternate, and there are never more
      calls than attempts. A run goes on from a listed exception exactly while there are attempts left
      and the clock is not past the limit. */
  lemma RunResult<V, E>(spec: RetrySpec, w: World<V, E>, result: Result<V, E>, log: seq<Action>)
    requires !TooFewAttempts(spec)
    requires ARetryRun(spec, w, result, log) || (RetryRun(spec, w, result, log) && result != BadSleep)
    ensures var calls := Count(log, false);
            && calls >= 1 && Count(log, true) == calls - 1
            && (spec.attempts.Some? ==> calls <= spec.attempts.value)
            && |log| == 2 * calls - 1
            && (forall i :: 0 <= i < |log| ==> log[i] == if i % 2 == 0 then Call else Sleep(spec.interval))
            && (forall j: nat :: j < calls - 1 ==> w.attempt(j).Listed? && !Late(spec, w, j))
            && match w.attempt(calls - 1)
               case Success(v) => result == Returned(v)
               case Unlisted(e) => result == Raised(e)
               case Listed(e) => result == Raised(e) && (spec.attempts == Some(calls) || Late(spec, w, calls - 1))
  {
    var k: nat :| EndsAt(spec, w, k, result, log);
    AlternationCounts(spec.interval, k + 1);
    AlternationPlaces(spec.interval, k + 1);
    forall j: nat | j < k ensures w.attempt(j).Listed? && !Late(spec, w, j) { assert !Stops(spec, w, j); }
    if spec.attempts.Some? {
      assert Stops(spec, w, spec.attempts.value - 1);
    }
  }

  lemma RunUnique<V, E>(spec: RetrySpec, w: World<V, E>, r1: Result<V, E>, log1: seq<Action>,
                        r2: Result<V, E>, log2: seq<Action>)
    requires ARetryRun(spec, w, r1, log1) && ARetryRun(spec, w, r2, log2)
    ensures r1 == r2 && log1 == log2
  {
    if !TooFewAttempts(spec) {
      var j: nat :| EndsAt(spec, w, j, r1, log1);
      var k: nat :| EndsAt(spec, w, k, r2, log2);
      assert j == k;
    }
  }

  /** The two loops make the same run exactly when no negative sleep is ever due. */
  lemma SameRun<V, E>(spec: RetrySpec, w: World<V, E>, r1: Result<V, E>, log1: seq<Action>,
                      r2: Result<V, E>, log2: seq<Action>)
    requires RetryRun(spec, w, r1, log1) && ARetryRun(spec, w, r2, log2)
    ensures (r1 == r2 && log1 == log2)
            <==> TooFewAttempts(spec) || spec.interval >= 0.0 || Stops(spec, w, 0)
  {
    if TooFewAttempts(spec) || spec.interval >= 0.0 || Stops(spec, w, 0) {
      RunUnique(spec, w, r1, log1, r2, log2);
    }
  }

  /** They do differ: two attempts, the first a listed failure, and a negative interval. */
  lemma NegativeSleepDiffers<E>(e: E) returns (spec: RetrySpec, w: World<int, E>)
    ensures spec.Valid() && !TooFewAttempts(spec)
    ensures RetryRun(spec, w, BadSleep, [Call])
    ensures ARetryRun(spec, w, Returned(1), [Call, Sleep(-1.0), Call])
  {
    spec := RetrySpec(-1.0, Some(2), None);
    w := World((k: nat) => if k == 0 then Listed(e) else Success(k), 0.0, (k: nat) => 0.0);
    assert Alternation(-1.0, 1) == [Call];
    assert Alternation(-1.0, 2) == [Call, Sleep(-1.0), Call];
    assert EndsAt(spec, w, 1, Returned(1), [Call, Sleep(-1.0), Call]);
  }

  /** With a positive interval and timeout every run halts, within floor(timeout / interval) + 2
      calls. */
  lemma CallBound<V(!new), E(!new)>(spec: RetrySpec, w: World<V, E>) returns (last: nat)
    requires !TooFewAttempts(spec)
    requires spec.interval > 0.0 && spec.timeout.Some? && spec.timeout.value > 0.0
    requires FairClock(w, spec.interval)
    ensures LastCall(spec, w, last)
    ensures last + 1 <= (spec.timeout.value / spec.interval).Floor + 2
  {
    var n := (spec.timeout.value / spec.interval).Floor + 1;
    ClockAfter(w, spec.interval, n);
    Product(spec.timeout.value, spec.interval, n as real);
    assert Stops(spec, w, n);
    last := FirstStop(spec, w, n);
  }

  /** Such a run of either loop returns, and calls at most that often. */
  lemma CallsWithinTimeout<V(!new), E(!new)>(spec: RetrySpec, w: World<V, E>, result: Result<V, E>, log: seq<Action>)
    requires !TooFewAttempts(spec)
    requires spec.interval > 0.0 && spec.timeout.Some? && spec.timeout.value > 0.0
    requires FairClock(w, spec.interval)
    requires RetryRun(spec, w, result, log) || ARetryRun(spec, w, result, log)
    ensures Halts(spec, w)
    ensures Count(log, false) <= (spec.timeout.value / spec.interval).Floor + 2
  {
    var last := CallBound(spec, w);
    var k: nat :| EndsAt(spec, w, k, result, log);
    assert k == last;
    AlternationCounts(spec.interval, k + 1);
  }

  lemma Product(t: real, i: real, n: real)
    requires i > 0.0 && t / i < n
    ensures t < n * i
  {
    var q := t / i;
    assert (n - q) * i > 0.0;
    assert q * i == t;
  }

  function Elapsed(interval: real, k: nat): real { k as real * interval }

  lemma ElapsedNext(interval: real, k: nat)
    ensures Elapsed(interval, k + 1) == Elapsed(interval, k) + interval
  {
    assert (k + 1) as real == k as real + 1.0;
    assert (k as real + 1.0) * interval == k as real * interval + interval;
  }

  lemma {:induction false} ClockAfter<V(!new), E(!new)>(w: World<V, E>, interval: real, k: nat)
    requires FairClock(w, interval)
    ensures w.clock(k) >= w.start + Elapsed(interval, k)
    decreases k
  {
    if k > 0 {
      ClockAfter(w, interval, k - 1);
      ElapsedNext(interval, k - 1);
    }
  }

  lemma {:induction false} FirstStop<V, E>(spec: RetrySpec, w: World<V, E>, bound: nat) returns (k: nat)
    requires Stops(spec, w, bound)
    ensures k <= bound && LastCall(spec, w, k)
    decreases bound
  {
    if j: nat :| j < bound && Stops(spec, w, j) {
      k := FirstStop(spec, w, j);
    } else {
      k := bound;
    }
  }

  /** The settings that bound a run: a number of attempts, or a timeout that sleeping uses up, or one
      that is over before it starts. */
  predicate Bounded(spec: RetrySpec) {
    || spec.attempts.Some?
    || (spec.timeout.Some? && spec.timeout.value < 0.0)
    || (spec.timeout.Some? && spec.timeout.value > 0.0 && spec.interval > 0.0)
  }

  lemma BoundedHalts<V(!new), E(!new)>(spec: RetrySpec, w: World<V, E>)
    requires !TooFewAttempts(spec) && FairClock(w, spec.interval) && Bounded(spec)
    ensures Halts(spec, w)
  {
    if spec.attempts.Some? {
      assert Stops(spec, w, spec.attempts.value - 1);
    } else if spec.timeout.value < 0.0 {
      assert Stops(spec, w, 0);
    } else {
      var k := CallBound(spec, w);
    }
  }

  /** Surroundings in which any other specification never ends: every call fails with a listed
      exception, and the clock advances by the sleeps alone. */
  lemma UnboundedRunsOn<V(!new), E(!new)>(spec: RetrySpec, e: E) returns (w: World<V, E>)
    requires spec.Valid() && !Bounded(spec)
    ensures FairClock(w, spec.interval) && !Halts(spec, w)
  {
    var pause := if spec.interval > 0.0 then spec.interval else 0.0;
    w := World((k: nat) => Listed(e), 0.0, (k: nat) => Elapsed(pause, k));
    forall j: nat, k: nat | k == j + 1 ensures w.clock(j) <= w.clock(k) && w.clock(j) + spec.interval <= w.clock(k) {
      ElapsedNext(pause, j);
    }
  }

  /** The loops end whatever the action does, on any fair clock, exactly for the bounded settings.
      (A negative interval ends `retry`, besides, with the error of its first sleep.) */
  lemma TerminatesExactlyWhen<V(!new), E(!new)>(spec: RetrySpec, e: E)
    requires spec.Valid() && !TooFewAttempts(spec)
    ensures (forall w: World<V, E> :: FairClock(w, spec.interval) ==> Halts(spec, w)) <==> Bounded(spec)
  {
    if Bounded(spec) {
      forall w: World<V, E> | FairClock(w, spec.interval) ensures Halts(spec, w) { BoundedHalts(spec, w); }
    } else {
      var w: World<V, E> := UnboundedRunsOn(spec, e);
    }
  }

  /** A zero timeout is no timeout: without attempts, an action that keeps failing with a listed
      exception is called for ever. */
  lemma RunsForever<V, E>(spec: RetrySpec, w: World<V, E>)
    requires spec.attempts.None? && spec.timeout == Some(0.0)
    ensures spec.Valid()
    ensures Halts(spec, w) <==> exists k: nat :: !w.attempt(k).Listed?
  {
    if k: nat :| !w.attempt(k).Listed? {
      assert Stops(spec, w, k);
    }
    if Halts(spec, w) {
      var k: nat :| Stops(spec, w, k);
      assert !w.attempt(k).Listed?;
    }
  }
}
