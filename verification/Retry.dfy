/** Retrying with backoff. The environment (calls, clock, cancellation, jittered waits) is a sequence
    with one element per attempt; timers fire exactly when due. Durations are whole nanoseconds. */
module Retry {
  import opened Common

  type Error(==, !new)

  /** What the environment does around attempt `i`: whether the context is already cancelled, how long
      the call takes and what it returns, the jittered backoff that follows, and when the context is
      cancelled during the sleep, if it is: that many nanoseconds into it, or at its very end. */
  datatype Attempt = Attempt(cancelled: bool, took: nat, failure: Option<Error>, wait: int, interrupt: Option<nat>)

  type Environment = seq<Attempt>

  datatype Config = Config(maxAttempts: nat, retryable: Error -> bool, budget: int)

  datatype Outcome =
    | Success
    | Permanent(err: Error)
    | Cancelled
    | OutOfTime(err: Error)
    | OutOfAttempts(err: Error)

  /** One call of the function: when it started, what it returned, and the sleep after it. */
  datatype Call = Call(start: nat, failure: Option<Error>, slept: nat)

  predicate Retryable(c: Config, call: Call)
  {
    call.failure.Some? && c.retryable(call.failure.value)
  }

  function TotalSleep(trace: seq<Call>): nat
  {
    if |trace| == 0 then 0 else TotalSleep(trace[..|trace| - 1]) + trace[|trace| - 1].slept
  }

  /** The sleep after a failed call that ended at `now`: the wait, cut to what is left of the budget. */
  function SleepAfter(c: Config, start: nat, now: nat, wait: int): nat
    requires start <= now && (c.budget > 0 ==> now - start < c.budget)
  {
    var w := if c.budget > 0 && wait > c.budget - (now - start) then c.budget - (now - start) else wait;
    if w < 0 then 0 else w
  }

  ghost predicate Made(env: Environment, start: nat, i: nat, call: Call)
    requires i < |env|
  {
    !env[i].cancelled && call.failure == env[i].failure && start <= call.start && (i == 0 ==> call.start == start)
  }

  /** Call `i` was slept off as the environment and the budget dictate, until `until`. */
  ghost predicate Slept(c: Config, env: Environment, start: nat, i: nat, call: Call, until: nat)
    requires start <= call.start && i < |env|
  {
    var end := call.start + env[i].took;
    && (c.budget > 0 ==> end - start < c.budget)
    && env[i].interrupt.None?
    && call.slept == SleepAfter(c, start, end, env[i].wait)
    && until == end + call.slept
  }

  /** The call after call `i` starts when the sleep ends. */
  ghost predicate Follows(c: Config, env: Environment, start: nat, trace: seq<Call>, i: nat)
    requires i < |trace| - 1 && i < |env| && start <= trace[i].start
  {
    Slept(c, env, start, i, trace[i], trace[i + 1].start)
  }

  /** The trace is what the environment dictates: calls follow one another with the dictated results
      and the dictated sleeps. */
  ghost predicate Dictated(c: Config, env: Environment, start: nat, trace: seq<Call>)
    requires |trace| <= |env|
  {
    && (forall i :: 0 <= i < |trace| ==> Made(env, start, i, trace[i]))
    && (forall i :: 0 <= i < |trace| - 1 ==> Follows(c, env, start, trace, i))
  }

  /** Before attempt `|trace|`, at time `now`: every call so far failed retryably and was slept off
      within the budget. */
  ghost predicate Between(c: Config, env: Environment, start: nat, trace: seq<Call>, now: nat)
    requires |trace| <= |env|
  {
    && Dictated(c, env, start, trace)
    && start <= now && TotalSleep(trace) <= now - start
    && (c.budget > 0 ==> now <= start + c.budget)
    && (forall i :: 0 <= i < |trace| ==> Retryable(c, trace[i]) && (c.budget > 0 ==> trace[i].start <= start + c.budget))
    && if |trace| == 0 then now == start else Slept(c, env, start, |trace| - 1, trace[|trace| - 1], now)
  }

  /** After the call that follows, whatever it returned and however long the sleep is. */
  ghost predicate After(c: Config, env: Environment, start: nat, trace: seq<Call>)
    requires |trace| <= |env|
  {
    && |trace| > 0 && Dictated(c, env, start, trace)
    && (forall i :: 0 <= i < |trace| - 1 ==> Retryable(c, trace[i]))
    && (c.budget > 0 ==>
          && TotalSleep(trace[..|trace| - 1]) <= c.budget
          && forall i :: 0 <= i < |trace| ==> trace[i].start <= start + c.budget)
  }

  lemma {:induction false} CallMade(c: Config, env: Environment, start: nat, trace: seq<Call>, now: nat, slept: nat)
    requires |trace| < |env| && Between(c, env, start, trace, now) && !env[|trace|].cancelled
    ensures After(c, env, start, trace + [Call(now, env[|trace|].failure, slept)])
    ensures TotalSleep(trace + [Call(now, env[|trace|].failure, slept)]) == TotalSleep(trace) + slept
  {
    var t := trace + [Call(now, env[|trace|].failure, slept)];
    assert t[..|t| - 1] == trace;
    forall i | 0 <= i < |t|
      ensures Made(env, start, i, t[i])
    {
      if i < |trace| {
        assert Made(env, start, i, trace[i]);
      }
    }
    forall i | 0 <= i < |t| - 1
      ensures Follows(c, env, start, t, i)
    {
      if i < |trace| - 1 {
        assert Follows(c, env, start, trace, i);
      }
    }
  }

  lemma {:induction false} SleptOff(c: Config, env: Environment, start: nat, trace: seq<Call>, now: nat, slept: nat)
    requires |trace| < |env| && Between(c, env, start, trace, now)
    requires var e := env[|trace|];
             && !e.cancelled && e.failure.Some? && c.retryable(e.failure.value) && e.interrupt.None?
             && (c.budget > 0 ==> now + e.took - start < c.budget)
             && slept == SleepAfter(c, start, now + e.took, e.wait)
    ensures var e := env[|trace|];
            Between(c, env, start, trace + [Call(now, e.failure, slept)], now + e.took + slept)
  {
    CallMade(c, env, start, trace, now, slept);
  }

  /** The context was found cancelled before the next call, after the last one was slept off. */
  ghost predicate CancelledBefore(c: Config, env: Environment, start: nat, trace: seq<Call>)
    requires |trace| <= |env| && Dictated(c, env, start, trace)
  {
    var n := |trace|;
    && n < |env| && n < c.maxAttempts && env[n].cancelled
    && (n > 0 ==>
          var last := trace[n - 1];
          Slept(c, env, start, n - 1, last, last.start + env[n - 1].took + last.slept))
  }

  /** The time slept until the interruption. */
  function Interrupted(e: Attempt, sleep: nat): nat
    requires e.interrupt.Some?
  {
    if e.interrupt.value < sleep then e.interrupt.value else sleep
  }

  /** The context was cancelled during the sleep after the last call, which the budget had allowed. */
  ghost predicate CancelledAsleep(c: Config, env: Environment, start: nat, trace: seq<Call>)
    requires |trace| <= |env| && Dictated(c, env, start, trace)
  {
    var n := |trace|;
    && n > 0 && n < c.maxAttempts && env[n - 1].interrupt.Some?
    && (var e, last := env[n - 1], trace[n - 1];
        && (c.budget > 0 ==> last.start + e.took < start + c.budget)
        && last.slept == Interrupted(e, SleepAfter(c, start, last.start + e.took, e.wait)))
  }

  /** The kind of result is determined by the last call and the number of calls. */
  predicate Told(c: Config, r: Outcome, n: nat, last: Call)
  {
    && (r == Success <==> last.failure == None)
    && (r.Permanent? <==> last.failure.Some? && !Retryable(c, last))
    && (r.OutOfAttempts? <==> n == c.maxAttempts && Retryable(c, last))
    && (r.Permanent? || r.OutOfAttempts? || r.OutOfTime? ==> last.failure == Some(r.err))
    && (!r.Cancelled? ==> last.slept == 0)
  }

  /** The budget bounds the total sleep and the start of every call. */
  ghost predicate WithinBudget(c: Config, start: nat, trace: seq<Call>)
  {
    c.budget > 0 ==>
      && TotalSleep(trace) <= c.budget
      && forall i :: 0 <= i < |trace| ==> trace[i].start <= start + c.budget
  }

  /** How long the retrier sleeps: the whole wait if there is no budget or it fits, up to the end of the
      budget if it does not, no time for a negative wait; and an interruption ends the sleep at its own
      time or with the sleep, whichever comes first. */
  lemma SleepMeans(c: Config, start: nat, now: nat, wait: int, e: Attempt)
    requires start <= now && (c.budget > 0 ==> now - start < c.budget)
    ensures var sleep := SleepAfter(c, start, now, wait);
            && (0 <= wait && (c.budget <= 0 || now + wait <= start + c.budget) ==> sleep == wait)
            && (c.budget > 0 && now + wait > start + c.budget ==> now + sleep == start + c.budget)
            && (wait < 0 ==> sleep == 0)
            && (e.interrupt.Some? ==>
                  && Interrupted(e, sleep) <= sleep && Interrupted(e, sleep) <= e.interrupt.value
                  && (Interrupted(e, sleep) == sleep || Interrupted(e, sleep) == e.interrupt.value))
  {
  }

  /** What a result and a trace tell about a run: the calls are those the environment dictates, every
      call but the last is a retryable failure, the kind of result is determined by the trace, and the
      budget bounds both the total sleep and the start of every call. */
  ghost predicate Explained(c: Config, env: Environment, start: nat, r: Outcome, trace: seq<Call>)
  {
    var n := |trace|;
    && n <= c.maxAttempts && n <= |env| && Dictated(c, env, start, trace)
    && (forall i :: 0 <= i < n - 1 ==> Retryable(c, trace[i]))
    && WithinBudget(c, start, trace)
    && (if n == 0 then r == Cancelled else Told(c, r, n, trace[n - 1]))
    && (r.OutOfTime? ==> c.budget > 0 && trace[n - 1].start + env[n - 1].took >= start + c.budget)
    && (r.Cancelled? ==> CancelledBefore(c, env, start, trace) || CancelledAsleep(c, env, start, trace))
  }

  /** How attempt `k`, started at `now`, ends the run. */
  predicate Ends(c: Config, e: Attempt, start: nat, k: nat, now: nat, r: Outcome)
    requires start <= now
  {
    match r
    case Success => e.failure.None?
    case Permanent(err) => e.failure == Some(err) && !c.retryable(err)
    case OutOfAttempts(err) => e.failure == Some(err) && c.retryable(err) && k + 1 == c.maxAttempts
    case OutOfTime(err) =>
      && e.failure == Some(err) && c.retryable(err) && k + 1 < c.maxAttempts
      && c.budget > 0 && now + e.took - start >= c.budget
    case Cancelled => false
  }

  lemma {:induction false} ExplainEnd(c: Config, env: Environment, start: nat, trace: seq<Call>, now: nat, r: Outcome)
    requires |trace| < |env| && |trace| < c.maxAttempts && Between(c, env, start, trace, now) && !env[|trace|].cancelled
    requires Ends(c, env[|trace|], start, |trace|, now, r)
    ensures Explained(c, env, start, r, trace + [Call(now, env[|trace|].failure, 0)])
  {
    CallMade(c, env, start, trace, now, 0);
  }

  lemma {:induction false} ExplainInterrupted(c: Config, env: Environment, start: nat, trace: seq<Call>, now: nat, slept: nat)
    requires |trace| < |env| && |trace| + 1 < c.maxAttempts && Between(c, env, start, trace, now)
    requires var e := env[|trace|];
             && !e.cancelled && e.failure.Some? && c.retryable(e.failure.value) && e.interrupt.Some?
             && (c.budget > 0 ==> now + e.took - start < c.budget)
             && slept == Interrupted(e, SleepAfter(c, start, now + e.took, e.wait))
    ensures Explained(c, env, start, Cancelled, trace + [Call(now, env[|trace|].failure, slept)])
  {
    CallMade(c, env, start, trace, now, slept);
  }

  lemma ExplainCancelled(c: Config, env: Environment, start: nat, trace: seq<Call>, now: nat)
    requires |trace| < |env| && |trace| < c.maxAttempts && Between(c, env, start, trace, now) && env[|trace|].cancelled
    ensures Explained(c, env, start, Cancelled, trace)
  {
  }

  /** The total-wait check: None when the budget is used up. A negative wait sleeps no time at all. */
  method CutToBudget(c: Config, start: nat, now: nat, wait: int) returns (sleep: Option<nat>)
    requires start <= now
    ensures sleep.None? <==> c.budget > 0 && now - start >= c.budget
    ensures sleep.Some? ==> sleep.value == SleepAfter(c, start, now, wait)
  {
    var w := wait;
    if c.budget > 0 {
      var remaining := c.budget - (now - start);
      if remaining <= 0 {
        return None;
      }
      if w > remaining {
        w := remaining;
      }
    }
    return Some(if w < 0 then 0 else w);
  }

  method Do(c: Config, env: Environment, start: nat) returns (r: Outcome, trace: seq<Call>)
    requires 1 <= c.maxAttempts <= |env|
    ensures Explained(c, env, start, r, trace)
  {
    trace := [];
    var now: nat := start;
    var attempt := 0;
    var last: Option<Error> := None;
    while attempt < c.maxAttempts
      invariant attempt == |trace| && (attempt > 0 ==> attempt < c.maxAttempts)
      invariant Between(c, env, start, trace, now)
    {
      var e := env[attempt];
      if e.cancelled {
        ExplainCancelled(c, env, start, trace, now);
        return Cancelled, trace;
      }
      if e.failure.None? {
        ExplainEnd(c, env, start, trace, now, Success);
        return Success, trace + [Call(now, e.failure, 0)];
      }
      if !c.retryable(e.failure.value) {
        ExplainEnd(c, env, start, trace, now, Permanent(e.failure.value));
        return Permanent(e.failure.value), trace + [Call(now, e.failure, 0)];
      }
      if attempt == c.maxAttempts - 1 {
        last := e.failure;
        ExplainEnd(c, env, start, trace, now, OutOfAttempts(last.value));
        trace := trace + [Call(now, e.failure, 0)];
        break;
      }
      var end := now + e.took;
      var sleep := CutToBudget(c, start, end, e.wait);
      if sleep.None? {
        ExplainEnd(c, env, start, trace, now, OutOfTime(e.failure.value));
        return OutOfTime(e.failure.value), trace + [Call(now, e.failure, 0)];
      }
      if e.interrupt.Some? {
        var cut := Interrupted(e, sleep.value);
        ExplainInterrupted(c, env, start, trace, now, cut);
        return Cancelled, trace + [Call(now, e.failure, cut)];
      }
      var slept := sleep.value;
      SleptOff(c, env, start, trace, now, slept);
      trace := trace + [Call(now, e.failure, slept)];
      now := end + slept;
      attempt := attempt + 1;
    }
    return OutOfAttempts(last.value), trace;
  }

  // ------------------------------------------------------------------------
  // Exponential backoff
  // ------------------------------------------------------------------------

  datatype Backoff = Backoff(initial: int, factor: real, max: int)

  /** Conversion of a float to a duration truncates toward zero. */
  function Trunc(x: real): int
  {
    if x >= 0.0 then x.Floor else -((-x).Floor)
  }

  function Pow(x: real, n: nat): real
  {
    if n == 0 then 1.0 else Pow(x, n - 1) * x
  }

  function Raw(b: Backoff, n: nat): real
  {
    b.initial as real * Pow(b.factor, n)
  }

  function Cap(b: Backoff, d: int): int
  {
    if b.max > 0 && d > b.max then b.max else d
  }

  /** The delay, for any factor: a cap met on the way is final. */
  function Delay(b: Backoff, attempt: nat): int
  {
    if b.max > 0 && exists j :: 1 <= j <= attempt && Trunc(Raw(b, j)) > b.max then b.max
    else Cap(b, Trunc(Raw(b, attempt)))
  }

  lemma CapMet(b: Backoff, attempt: nat, j: nat)
    requires b.max > 0 && 1 <= j <= attempt && Trunc(Raw(b, j)) > b.max
    ensures Delay(b, attempt) == b.max
  {
  }

  lemma CapNotMet(b: Backoff, attempt: nat)
    requires NotCapped(b, attempt)
    ensures Delay(b, attempt) == Cap(b, Trunc(Raw(b, attempt)))
  {
  }

  /** No multiplication up to the `i`-th met the cap. */
  ghost predicate NotCapped(b: Backoff, i: nat)
  {
    b.max > 0 ==> forall j :: 1 <= j <= i ==> Trunc(Raw(b, j)) <= b.max
  }

  lemma StillNotCapped(b: Backoff, i: nat)
    requires i > 0 && NotCapped(b, i - 1) && (b.max > 0 ==> Trunc(Raw(b, i)) <= b.max)
    ensures NotCapped(b, i)
  {
  }

  lemma {:induction false} RawStep(b: Backoff, i: nat)
    ensures Raw(b, i + 1) == Raw(b, i) * b.factor
  {
    assert Pow(b.factor, i + 1) == Pow(b.factor, i) * b.factor;
  }

  lemma {:induction false} RawNext(b: Backoff, i: nat, d: real)
    requires d == Raw(b, i)
    ensures d * b.factor == Raw(b, i + 1)
  {
    RawStep(b, i);
  }

  method ComputeDelay(b: Backoff, attempt: int) returns (r: int)
    ensures r == Delay(b, if attempt < 0 then 0 else attempt)
  {
    var d := b.initial as real;
    var i := 0;
    while i < attempt
      invariant 0 <= i && (i <= attempt || i == 0) && d == Raw(b, i)
      invariant NotCapped(b, i)
    {
      RawNext(b, i, d);
      d := d * b.factor;
      i := i + 1;
      if b.max > 0 && Trunc(d) > b.max {
        CapMet(b, attempt, i);
        return b.max;
      }
      StillNotCapped(b, i);
    }
    CapNotMet(b, i);
    if b.max > 0 && Trunc(d) > b.max {
      return b.max;
    }
    return Trunc(d);
  }

  lemma FloorMono(x: real, y: real)
    requires x <= y
    ensures x.Floor <= y.Floor
  {
  }

  lemma {:induction false} RawMono(b: Backoff, m: nat, n: nat)
    requires b.factor >= 1.0 && b.initial >= 0 && m <= n
    ensures 0.0 <= Raw(b, m) <= Raw(b, n)
    decreases n
  {
    PowAtLeastOne(b.factor, m);
    if m < n {
      RawMono(b, m, n - 1);
      var x := Raw(b, n - 1);
      assert Raw(b, n) == x * b.factor;
      assert x * (b.factor - 1.0) >= 0.0;
    } else {
      assert b.initial as real * Pow(b.factor, m) >= 0.0;
    }
  }

  lemma {:induction false} PowAtLeastOne(x: real, n: nat)
    requires x >= 1.0
    ensures Pow(x, n) >= 1.0
  {
    if n > 0 {
      PowAtLeastOne(x, n - 1);
      assert (Pow(x, n - 1) - 1.0) * x >= 0.0;
    }
  }

  /** For a factor of at least 1 the early exit changes nothing: the delay is the documented
      min(floor(initial * factor^attempt), max), and it never decreases with the attempt. */
  lemma {:induction false} DelayIsCappedPower(b: Backoff, m: nat, n: nat)
    requires b.factor >= 1.0 && b.initial >= 0 && m <= n
    ensures Delay(b, n) == Cap(b, Raw(b, n).Floor)
    ensures Delay(b, m) <= Delay(b, n)
  {
    RawMono(b, m, n);
    FloorMono(Raw(b, m), Raw(b, n));
    CapFinal(b, m);
    CapFinal(b, n);
  }

  lemma {:induction false} CapFinal(b: Backoff, n: nat)
    requires b.factor >= 1.0 && b.initial >= 0
    ensures Raw(b, n) >= 0.0 && Delay(b, n) == Cap(b, Raw(b, n).Floor)
  {
    RawMono(b, n, n);
    if b.max > 0 && exists j :: 1 <= j <= n && Trunc(Raw(b, j)) > b.max {
      var j :| 1 <= j <= n && Trunc(Raw(b, j)) > b.max;
      RawMono(b, j, n);
      FloorMono(Raw(b, j), Raw(b, n));
    }
  }

  lemma {:induction false} PowNonNegative(x: real, n: nat)
    requires x >= 0.0
    ensures Pow(x, n) >= 0.0
  {
    if n > 0 {
      PowNonNegative(x, n - 1);
    }
  }

  lemma {:induction false} RawNonNegative(b: Backoff, n: nat)
    requires b.factor >= 0.0 && b.initial >= 0
    ensures Raw(b, n) >= 0.0
  {
    PowNonNegative(b.factor, n);
  }

  lemma {:induction false} OneShrink(b: Backoff, n: nat)
    requires 0.0 <= b.factor < 1.0 && b.initial >= 0
    ensures 0.0 <= Raw(b, n + 1) <= Raw(b, n)
  {
    var x, y := Raw(b, n), Raw(b, n + 1);
    RawNonNegative(b, n);
    RawStep(b, n);
    assert y == x * b.factor;
    ScaleDown(x, b.factor);
  }

  lemma {:induction false} RawShrinks(b: Backoff, m: nat, n: nat)
    requires 0.0 <= b.factor < 1.0 && b.initial >= 0 && m <= n
    ensures 0.0 <= Raw(b, n) <= Raw(b, m)
    decreases n
  {
    if m < n {
      RawShrinks(b, m, n - 1);
      OneShrink(b, n - 1);
    } else {
      RawNonNegative(b, m);
    }
  }

  /** Without a cap the delay is floor(initial * factor^attempt); with one it never exceeds it, and a
      delay below the cap is not cut. */
  lemma {:induction false} CapMeans(b: Backoff, n: nat)
    requires b.factor >= 1.0 && b.initial >= 0
    ensures b.max <= 0 ==> Delay(b, n) == Raw(b, n).Floor
    ensures b.max > 0 ==> Delay(b, n) <= b.max
    ensures b.max > 0 && Raw(b, n).Floor <= b.max ==>
              Delay(b, n) == Raw(b, n).Floor
    ensures b.max > 0 && Raw(b, n).Floor >= b.max ==> Delay(b, n) == b.max
  {
    CapFinal(b, n);
  }

  /** Where the early exit departs from the documented formula: only for a factor below 1, when the
      first multiplication still exceeds the cap and the last one has fallen below it. */
  lemma {:induction false} FormulaHoldsIff(b: Backoff, n: nat)
    requires b.factor >= 0.0 && b.initial >= 0
    ensures Delay(b, n) == Cap(b, Trunc(Raw(b, n))) <==>
            || b.factor >= 1.0 || n == 0 || b.max <= 0
            || Trunc(b.initial as real * b.factor) <= b.max || b.max <= Trunc(Raw(b, n))
  {
    RawStep(b, 0);
    assert Raw(b, 0) == b.initial as real;
    if b.factor >= 1.0 {
      CapFinal(b, n);
    } else if n > 0 && b.max > 0 {
      if Trunc(Raw(b, 1)) > b.max {
        CapMet(b, n, 1);
      } else {
        forall j | 1 <= j <= n
          ensures Trunc(Raw(b, j)) <= b.max
        {
          RawShrinks(b, 1, j);
          FloorMono(Raw(b, j), Raw(b, 1));
        }
      }
    }
  }

  /** A backoff built without a factor has factor 0: it waits once and then not at all. */
  lemma {:induction false} ZeroFactorNeverWaits(b: Backoff, n: nat)
    requires b.factor == 0.0 && b.initial >= 0 && n >= 1
    ensures Delay(b, 0) == Cap(b, b.initial) && Delay(b, n) == 0
  {
    forall j | j >= 1
      ensures Raw(b, j) == 0.0
    {
      assert Pow(b.factor, j) == Pow(b.factor, j - 1) * 0.0;
    }
    assert Raw(b, 0) == b.initial as real;
  }

  /** Below 1 the early exit is not the documented formula: 100 ns halved once is 50, capped at 40 on
      the way although the second halving gives 25. */
  lemma {:induction false} ShrinkingFactorDiffers()
    ensures var b := Backoff(100, 0.5, 40);
            Delay(b, 2) == 40 && Cap(b, Trunc(Raw(b, 2))) == 25
  {
    var b := Backoff(100, 0.5, 40);
    assert Pow(0.5, 1) == 0.5 && Pow(0.5, 2) == 0.25;
    assert Raw(b, 1) == 50.0 && Raw(b, 2) == 25.0;
    assert Trunc(Raw(b, 1)) > b.max;
  }

  // ------------------------------------------------------------------------
  // Jitter
  // ------------------------------------------------------------------------

  lemma {:induction false} ScaleDown(d: real, u: real)
    requires d >= 0.0 && 0.0 <= u <= 1.0
    ensures 0.0 <= d * u <= d
  {
    var v := 1.0 - u;
    assert d * v >= 0.0;
    assert d * u + d * v == d;
  }

  /** A random share of a duration. */
  function Share(d: real, draw: real): (x: real)
    requires d >= 0.0 && 0.0 <= draw < 1.0
    ensures 0.0 <= x <= d
  {
    ScaleDown(d, draw);
    d * draw
  }

  function FullJitter(delay: nat, draw: real): (r: int)
    requires 0.0 <= draw < 1.0
    ensures 0 <= r <= delay
  {
    Trunc(Share(delay as real, draw))
  }

  function EqualJitter(delay: nat, draw: real): (r: int)
    requires 0.0 <= draw < 1.0
    ensures delay / 2 <= r <= delay
  {
    delay / 2 + FullJitter(delay / 2, draw)
  }

  lemma {:induction false} ShareOf(delay: nat, k: nat)
    requires k < delay
    ensures 0.0 <= k as real / delay as real < 1.0
    ensures delay as real * (k as real / delay as real) == k as real
  {
    QuotientBelow(k as real, delay as real, 0.0);
    QuotientBelow(k as real, delay as real, 1.0);
  }

  /** Jitter reaches every duration of its range: full jitter all of [0, delay), equal jitter all of
      [half, 2 * half). */
  lemma {:induction false} JitterReaches(delay: nat, k: nat)
    requires k < delay
    ensures FullJitter(delay, k as real / delay as real) == k
    ensures EqualJitter(2 * delay, k as real / delay as real) == delay + k
  {
    ShareOf(delay, k);
  }
}
