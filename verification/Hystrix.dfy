/** The Hystrix-style circuit breaker: a three-state machine over the bucket ring.

    Every clock reading is a parameter. Nothing below needs the readings to be monotone.
  */
module Hystrix {
  import opened Common
  import R = Ring

  datatype Phase = Closed | Open | HalfOpen

  datatype Config = Config(errorThreshold: real, volume: nat, sleepWindow: nat, window: nat, bucketCount: nat)
  {
    /** What the option setters guarantee; a window shorter than one nanosecond per bucket
        gives a zero bucket length, on which the source divides. */
    predicate Valid() {
      && 0.0 < errorThreshold <= 1.0
      && volume > 0
      && 0 < bucketCount <= window
    }

    function BucketLength(): (d: nat)
      requires Valid()
      ensures d > 0
    {
      window / bucketCount
    }
  }

  /** The mutable fields of the breaker; `trial` is `halfOpenIn`, `shut` is set by `Close`. */
  datatype Core = Core(ring: seq<R.Bucket>, lastRotate: nat, state: Phase, openedAt: nat, trial: bool, shut: bool)

  function Fresh(c: Config, now: nat): Core
  {
    Core(seq(c.bucketCount, _ => R.EMPTY), now, Closed, 0, false, false)
  }

  /** Enough volume and a high enough error rate. */
  predicate TripsOn(c: Config, reqs: nat, errs: nat)
  {
    reqs >= c.volume && reqs > 0 && errs as real / reqs as real >= c.errorThreshold
  }

  predicate Trips(c: Config, ring: seq<R.Bucket>)
  {
    TripsOn(c, R.Requests(ring), R.Errors(ring))
  }

  /** The thresholds as the options describe them: at least `volume` requests, of which at least the
      fraction `errorThreshold` failed. */
  predicate Exceeds(c: Config, reqs: nat, errs: nat)
  {
    reqs >= c.volume && errs as real >= c.errorThreshold * reqs as real
  }

  /** The division in the source decides exactly these thresholds. */
  lemma {:induction false} TripsMeans(c: Config, reqs: nat, errs: nat)
    requires c.Valid()
    ensures TripsOn(c, reqs, errs) <==> Exceeds(c, reqs, errs)
  {
    if reqs > 0 {
      QuotientBelow(errs as real, reqs as real, c.errorThreshold);
    }
  }

  // ------------------------------------------------------------------------
  // The operations as functions on the fields
  // ------------------------------------------------------------------------

  function AllowSpec(c: Config, s: Core, now: nat): (Core, bool)
  {
    if s.shut then (s, false)
    else
      match s.state
      case Closed => (s, true)
      case Open =>
        if now - s.openedAt >= c.sleepWindow then (s.(state := HalfOpen, trial := true), false) else (s, false)
      case HalfOpen => if s.trial then (s, false) else (s.(trial := true), true)
  }

  function Evaluated(c: Config, s: Core, later: nat): Core
  {
    if s.state == Closed && Trips(c, s.ring) then s.(state := Open, openedAt := later) else s
  }

  function MarkSpec(c: Config, s: Core, now: nat, later: nat, failed: bool): Core
    requires c.Valid() && |s.ring| == c.bucketCount
  {
    var d := c.BucketLength();
    var t := s.(ring := R.Rotate(s.ring, now, s.lastRotate, d), lastRotate := R.Rotated(now, s.lastRotate, d));
    if t.state == HalfOpen then
      if failed then t.(state := Open, openedAt := now, trial := false)
      else t.(state := Closed, trial := false, ring := seq(|t.ring|, _ => R.EMPTY))
    else
      var i := (now / d) % |t.ring|;
      Evaluated(c, t.(ring := t.ring[i := R.Hit(t.ring[i], failed)]), later)
  }

  function StateSpec(c: Config, s: Core, now: nat): Core
  {
    if s.state == Open && now - s.openedAt >= c.sleepWindow then s.(state := HalfOpen) else s
  }

  // ------------------------------------------------------------------------
  // The breaker object
  // ------------------------------------------------------------------------

  class Breaker {
    const cfg: Config
    const bucketLength: nat
    const buckets: array<R.Bucket>
    var lastRotate: nat
    var state: Phase
    var openedAt: nat
    var trial: bool
    var shut: bool

    ghost predicate Valid()
      reads this, buckets
    {
      cfg.Valid() && bucketLength == cfg.BucketLength() && buckets.Length == cfg.bucketCount
    }

    ghost function Fields(): Core
      reads this, buckets
    {
      Core(buckets[..], lastRotate, state, openedAt, trial, shut)
    }

    constructor (c: Config, now: nat)
      requires c.Valid()
      ensures Valid() && cfg == c && fresh(buckets) && Fields() == Fresh(c, now)
    {
      cfg, bucketLength := c, c.window / c.bucketCount;
      buckets := new R.Bucket[c.bucketCount](_ => R.EMPTY);
      lastRotate, state, openedAt, trial, shut := now, Closed, 0, false, false;
    }

    method Allow(now: nat) returns (ok: bool)
      requires Valid()
      modifies this
      ensures Valid() && (Fields(), ok) == AllowSpec(cfg, old(Fields()), now)
    {
      if shut {
        return false;
      }
      if state == Open {
        if now - openedAt >= cfg.sleepWindow {
          state := HalfOpen;
          trial := true;
        } else {
          return false;
        }
      }
      if state == HalfOpen {
        if trial {
          return false;
        }
        trial := true;
      }
      return true;
    }

    method EvaluateLocked(later: nat)
      requires Valid()
      modifies this
      ensures Valid() && Fields() == Evaluated(cfg, old(Fields()), later)
    {
      if state != Closed {
        return;
      }
      var reqs, errs := 0, 0;
      for i := 0 to buckets.Length
        invariant reqs == R.Requests(buckets[..i]) && errs == R.Errors(buckets[..i])
      {
        assert buckets[..i + 1][..i] == buckets[..i];
        reqs, errs := reqs + buckets[i].requests, errs + buckets[i].errors;
      }
      assert buckets[..buckets.Length] == buckets[..];
      if reqs < cfg.volume || reqs == 0 {
        return;
      }
      if errs as real / reqs as real >= cfg.errorThreshold {
        state := Open;
        openedAt := later;
      }
    }

    method Mark(now: nat, later: nat, failed: bool)
      requires Valid()
      modifies this, buckets
      ensures Valid() && Fields() == MarkSpec(cfg, old(Fields()), now, later, failed)
    {
      lastRotate := R.RotateInPlace(buckets, now, lastRotate, bucketLength);
      if state == HalfOpen {
        if failed {
          state, openedAt := Open, now;
        } else {
          state := Closed;
          for i := 0 to buckets.Length
            invariant forall j :: 0 <= j < i ==> buckets[j] == R.EMPTY
            modifies buckets
          {
            buckets[i] := R.EMPTY;
          }
        }
        trial := false;
        return;
      }
      var i := (now / bucketLength) % buckets.Length;
      buckets[i] := R.Hit(buckets[i], failed);
      EvaluateLocked(later);
    }

    method State(now: nat) returns (st: Phase)
      requires Valid()
      modifies this
      ensures Valid() && Fields() == StateSpec(cfg, old(Fields()), now) && st == state
    {
      if state == Open && now - openedAt >= cfg.sleepWindow {
        state := HalfOpen;
      }
      return state;
    }

    /** `failed` is what the protected function returned, had it run. */
    method Execute(call: Call) returns (ok: bool)
      requires Valid()
      modifies this, buckets
      ensures Valid() && (Fields(), ok) == ExecuteSpec(cfg, old(Fields()), call)
    {
      ok := Allow(call.allowAt);
      if ok {
        Mark(call.markAt, call.later, call.failed);
      }
    }
  }

  // ------------------------------------------------------------------------
  // Runs
  // ------------------------------------------------------------------------

  datatype Event =
    | Allow(now: nat)
    | Mark(now: nat, later: nat, failed: bool)
    | Query(now: nat)
    | Shut

  ghost predicate Shaped(c: Config, s: Core)
  {
    c.Valid() && |s.ring| == c.bucketCount
  }

  function Step(c: Config, s: Core, e: Event): (s': Core)
    requires Shaped(c, s)
    ensures Shaped(c, s')
  {
    match e
    case Allow(now) => AllowSpec(c, s, now).0
    case Mark(now, later, failed) => MarkSpec(c, s, now, later, failed)
    case Query(now) => StateSpec(c, s, now)
    case Shut => s.(shut := true)
  }

  function Run(c: Config, s: Core, es: seq<Event>): (s': Core)
    requires Shaped(c, s)
    ensures Shaped(c, s')
  {
    if |es| == 0 then s else Step(c, Run(c, s, es[..|es| - 1]), es[|es| - 1])
  }

  /** Event `k` of the run is an `Allow` that lets its caller through. */
  ghost predicate Admits(c: Config, s: Core, es: seq<Event>, k: nat)
    requires Shaped(c, s) && k < |es|
  {
    es[k].Allow? && AllowSpec(c, Run(c, s, es[..k]), es[k].now).1
  }

  lemma {:induction false} RunStep(c: Config, s: Core, es: seq<Event>, k: nat)
    requires Shaped(c, s) && k < |es|
    ensures Run(c, s, es[..k + 1]) == Step(c, Run(c, s, es[..k]), es[k])
  {
    assert es[..k + 1][..k] == es[..k];
  }

  // ------------------------------------------------------------------------
  // What every reachable state satisfies
  // ------------------------------------------------------------------------

  ghost predicate Inv(c: Config, s: Core)
  {
    && Shaped(c, s)
    && R.WellFormed(s.ring)
    && (s.trial ==> s.state == HalfOpen)
    && (s.state == Closed ==> !Trips(c, s.ring))
  }

  lemma {:induction false} StepKeepsInv(c: Config, s: Core, e: Event)
    requires Inv(c, s)
    ensures Inv(c, Step(c, s, e))
  {
    if e.Mark? && s.state == HalfOpen && !e.failed {
      R.TotalsOfEmpty(Step(c, s, e).ring);
    }
  }

  /** In every reachable state: a closed breaker's totals do not meet the trip condition, the trial
      flag is set only in HalfOpen, and every bucket has at most as many errors as requests. */
  lemma {:induction false} ReachableInv(c: Config, start: nat, es: seq<Event>)
    requires c.Valid()
    ensures Inv(c, Run(c, Fresh(c, start), es))
  {
    if |es| == 0 {
      R.TotalsOfEmpty(Fresh(c, start).ring);
    } else {
      ReachableInv(c, start, es[..|es| - 1]);
      StepKeepsInv(c, Run(c, Fresh(c, start), es[..|es| - 1]), es[|es| - 1]);
    }
  }

  /** A closed breaker changes state on a mark alone, and then exactly when the totals after the mark
      exceed the thresholds; so in a reachable closed state they never do. */
  lemma {:induction false} ClosedNext(c: Config, start: nat, es: seq<Event>, e: Event)
    requires c.Valid() && Run(c, Fresh(c, start), es).state == Closed
    ensures var s := Run(c, Fresh(c, start), es);
            var s' := Step(c, s, e);
            && !Exceeds(c, R.Requests(s.ring), R.Errors(s.ring))
            && s'.state == (if e.Mark? && Exceeds(c, R.Requests(s'.ring), R.Errors(s'.ring)) then Open else Closed)
            && (s'.state == Open ==> s'.openedAt == e.later)
            && (!e.Mark? ==> s' == s.(shut := s.shut || e.Shut?))
  {
    var s := Run(c, Fresh(c, start), es);
    ReachableInv(c, start, es);
    TripsMeans(c, R.Requests(s.ring), R.Errors(s.ring));
    TripsMeans(c, R.Requests(Step(c, s, e).ring), R.Errors(Step(c, s, e).ring));
  }

  /** An open breaker is half-opened exactly by `State`, or by an `Allow` before it is shut, once the
      sleep window has passed since it opened; nothing else changes its state. */
  lemma OpenNext(c: Config, s: Core, e: Event)
    requires Shaped(c, s) && s.state == Open
    ensures var s' := Step(c, s, e);
            && s'.state == (if (e.Query? || (e.Allow? && !s.shut)) && e.now - s.openedAt >= c.sleepWindow then HalfOpen else Open)
            && s'.openedAt == s.openedAt
            && (!e.Mark? ==> s'.ring == s.ring && s'.lastRotate == s.lastRotate)
  {
  }

  /** A half-open breaker is settled by the first mark: a success closes it with an empty ring, a
      failure opens it from that moment; nothing else changes its state. */
  lemma HalfOpenNext(c: Config, s: Core, e: Event)
    requires Shaped(c, s) && s.state == HalfOpen
    ensures var s' := Step(c, s, e);
            && (!e.Mark? ==> s'.state == HalfOpen && s'.ring == s.ring && s'.lastRotate == s.lastRotate)
            && (e.Mark? && e.failed ==> s'.state == Open && s'.openedAt == e.now && !s'.trial)
            && (e.Mark? && !e.failed ==>
                  s'.state == Closed && !s'.trial && forall i :: 0 <= i < |s'.ring| ==> s'.ring[i] == R.EMPTY)
  {
  }

  /** Event `e` opens the breaker: an outcome that meets the trip condition on the ring of that moment,
      or the failure of a half-open trial. `openedAt` is set accordingly. */
  predicate OpensBy(c: Config, before: Core, e: Event, after: Core)
  {
    && e.Mark?
    && if before.state == HalfOpen then e.failed && after.openedAt == e.now
       else before.state == Closed && Trips(c, after.ring) && after.openedAt == e.later
  }

  /** Event `e` half-opens the breaker: an `Allow` or `State` at least a sleep window after it opened. */
  predicate HalfOpensBy(c: Config, before: Core, e: Event)
  {
    (e.Allow? || e.Query?) && before.state == Open && e.now - before.openedAt >= c.sleepWindow
  }

  ghost predicate Opens(c: Config, s: Core, es: seq<Event>, k: nat)
    requires Shaped(c, s) && k < |es|
  {
    var before := Run(c, s, es[..k]);
    OpensBy(c, before, es[k], Step(c, before, es[k]))
  }

  ghost predicate HalfOpens(c: Config, s: Core, es: seq<Event>, k: nat)
    requires Shaped(c, s) && k < |es|
  {
    HalfOpensBy(c, Run(c, s, es[..k]), es[k])
  }

  predicate SameEpisode(a: Core, b: Core)
  {
    a.state == b.state && a.openedAt == b.openedAt
  }

  /** From event `k` on, the state and `openedAt` are those at the end of the run. */
  ghost predicate SteadySince(c: Config, s: Core, es: seq<Event>, k: nat)
    requires Shaped(c, s) && k < |es|
  {
    forall j :: k < j <= |es| ==> SameEpisode(Run(c, s, es[..j]), Run(c, s, es))
  }

  lemma {:induction false} CausePersists(c: Config, s: Core, es: seq<Event>, k: nat)
    requires Shaped(c, s) && |es| > 0 && k < |es| - 1
    ensures Opens(c, s, es[..|es| - 1], k) ==> Opens(c, s, es, k)
    ensures HalfOpens(c, s, es[..|es| - 1], k) ==> HalfOpens(c, s, es, k)
  {
    var pre := es[..|es| - 1];
    assert pre[..k] == es[..k];
  }

  lemma {:induction false} PrefixRun(c: Config, s: Core, es: seq<Event>, j: nat)
    requires Shaped(c, s) && |es| > 0 && j < |es|
    ensures Run(c, s, es[..|es| - 1][..j]) == Run(c, s, es[..j])
  {
    assert es[..|es| - 1][..j] == es[..j];
  }

  lemma {:induction false} SteadyOne(c: Config, s: Core, es: seq<Event>, k: nat, j: nat)
    requires Shaped(c, s) && |es| > 0 && k < |es| - 1 && k < j <= |es| && SteadySince(c, s, es[..|es| - 1], k)
    requires SameEpisode(Run(c, s, es[..|es| - 1]), Run(c, s, es))
    ensures SameEpisode(Run(c, s, es[..j]), Run(c, s, es))
  {
    if j < |es| {
      PrefixRun(c, s, es, j);
      assert SameEpisode(Run(c, s, es[..|es| - 1][..j]), Run(c, s, es[..|es| - 1]));
    } else {
      assert es[..j] == es;
    }
  }

  lemma {:induction false} SteadyAtEnd(c: Config, s: Core, es: seq<Event>)
    requires Shaped(c, s) && |es| > 0
    ensures SteadySince(c, s, es, |es| - 1)
  {
    assert es[..|es|] == es;
  }

  lemma StepCauses(c: Config, s: Core, e: Event)
    requires Shaped(c, s)
    ensures var t := Step(c, s, e);
            && (t.state == Open != s.state ==> OpensBy(c, s, e, t))
            && (t.state == HalfOpen != s.state ==> HalfOpensBy(c, s, e))
            && (t.state == s.state != Closed ==> SameEpisode(s, t))
  {
  }

  lemma {:induction false} OpensNow(c: Config, s: Core, es: seq<Event>)
    requires Shaped(c, s) && |es| > 0 && Run(c, s, es[..|es| - 1]).state != Open && Run(c, s, es).state == Open
    ensures Opens(c, s, es, |es| - 1)
  {
    StepCauses(c, Run(c, s, es[..|es| - 1]), es[|es| - 1]);
  }

  lemma {:induction false} HalfOpensNow(c: Config, s: Core, es: seq<Event>)
    requires Shaped(c, s) && |es| > 0 && Run(c, s, es[..|es| - 1]).state != HalfOpen && Run(c, s, es).state == HalfOpen
    ensures HalfOpens(c, s, es, |es| - 1)
  {
    StepCauses(c, Run(c, s, es[..|es| - 1]), es[|es| - 1]);
  }

  /** A run that ends open has its cause: the mark that opened the breaker, after which nothing left
      the open state. */
  lemma {:induction false} OpenHasCause(c: Config, start: nat, es: seq<Event>)
    requires c.Valid() && Run(c, Fresh(c, start), es).state == Open
    ensures exists k :: 0 <= k < |es| && Opens(c, Fresh(c, start), es, k) && SteadySince(c, Fresh(c, start), es, k)
  {
    var s0, m := Fresh(c, start), |es| - 1;
    var pre := es[..m];
    if Run(c, s0, pre).state == Open {
      OpenHasCause(c, start, pre);
      var k :| 0 <= k < m && Opens(c, s0, pre, k) && SteadySince(c, s0, pre, k);
      CausePersists(c, s0, es, k);
      SteadyStep(c, s0, es, k);
    } else {
      OpensNow(c, s0, es);
      SteadyAtEnd(c, s0, es);
    }
  }

  /** A run that ends half-open was half-opened at least a sleep window after the breaker opened, and
      nothing left the half-open state since. */
  lemma {:induction false} HalfOpenHasCause(c: Config, start: nat, es: seq<Event>)
    requires c.Valid() && Run(c, Fresh(c, start), es).state == HalfOpen
    ensures exists k :: 0 <= k < |es| && HalfOpens(c, Fresh(c, start), es, k) && SteadySince(c, Fresh(c, start), es, k)
  {
    var s0, m := Fresh(c, start), |es| - 1;
    var pre := es[..m];
    if Run(c, s0, pre).state == HalfOpen {
      HalfOpenHasCause(c, start, pre);
      var k :| 0 <= k < m && HalfOpens(c, s0, pre, k) && SteadySince(c, s0, pre, k);
      CausePersists(c, s0, es, k);
      SteadyStep(c, s0, es, k);
    } else {
      HalfOpensNow(c, s0, es);
      SteadyAtEnd(c, s0, es);
    }
  }

  lemma {:induction false} SteadyStep(c: Config, s: Core, es: seq<Event>, k: nat)
    requires Shaped(c, s) && |es| > 0 && k < |es| - 1 && SteadySince(c, s, es[..|es| - 1], k)
    requires Run(c, s, es).state == Run(c, s, es[..|es| - 1]).state != Closed
    ensures SteadySince(c, s, es, k)
  {
    StepCauses(c, Run(c, s, es[..|es| - 1]), es[|es| - 1]);
    forall j | k < j <= |es|
      ensures SameEpisode(Run(c, s, es[..j]), Run(c, s, es))
    {
      SteadyOne(c, s, es, k, j);
    }
  }

  // ------------------------------------------------------------------------
  // Conservation of counts
  // ------------------------------------------------------------------------

  function Totals(ring: seq<R.Bucket>): R.Bucket
  {
    R.Bucket(R.Requests(ring), R.Errors(ring))
  }

  function Plus(a: R.Bucket, b: R.Bucket): R.Bucket
  {
    R.Bucket(a.requests + b.requests, a.errors + b.errors)
  }

  /** The counts thrown away by one event. */
  function ClearedBy(c: Config, s: Core, e: Event): R.Bucket
    requires Shaped(c, s)
  {
    if !e.Mark? then R.EMPTY
    else if s.state == HalfOpen && !e.failed then Totals(s.ring)
    else Totals(R.Dropped(s.ring, R.Rotate(s.ring, e.now, s.lastRotate, c.BucketLength())))
  }

  function ClearedIn(c: Config, s: Core, es: seq<Event>): R.Bucket
    requires Shaped(c, s)
  {
    if |es| == 0 then R.EMPTY
    else
      var pre := es[..|es| - 1];
      Plus(ClearedIn(c, s, pre), ClearedBy(c, Run(c, s, pre), es[|es| - 1]))
  }

  /** The outcomes the breaker counts: every mark that does not settle a half-open trial. */
  function RecordedIn(c: Config, s: Core, es: seq<Event>): R.Bucket
    requires Shaped(c, s)
  {
    if |es| == 0 then R.EMPTY
    else
      var pre, e := es[..|es| - 1], es[|es| - 1];
      var sofar := RecordedIn(c, s, pre);
      if e.Mark? && Run(c, s, pre).state != HalfOpen then R.Hit(sofar, e.failed) else sofar
  }

  lemma {:induction false} RotationConserves(b: seq<R.Bucket>, now: nat, last: nat, d: nat)
    requires d > 0 && |b| > 0
    ensures var r := R.Rotate(b, now, last, d); Plus(Totals(r), Totals(R.Dropped(b, r))) == Totals(b)
  {
    R.ThinningConserves(b, R.Rotate(b, now, last, d));
  }

  lemma {:induction false} CountingConserves(r: seq<R.Bucket>, i: nat, failed: bool)
    requires i < |r|
    ensures Totals(r[i := R.Hit(r[i], failed)]) == R.Hit(Totals(r), failed)
  {
    R.TotalsOfUpdate(r, i, R.Hit(r[i], failed));
  }

  lemma {:induction false} StepConserves(c: Config, s: Core, e: Event)
    requires Shaped(c, s)
    ensures Plus(Totals(Step(c, s, e).ring), ClearedBy(c, s, e)) ==
            if e.Mark? && s.state != HalfOpen then R.Hit(Totals(s.ring), e.failed) else Totals(s.ring)
  {
    if e.Mark? {
      var d := c.BucketLength();
      var r := R.Rotate(s.ring, e.now, s.lastRotate, d);
      RotationConserves(s.ring, e.now, s.lastRotate, d);
      if s.state == HalfOpen {
        R.TotalsOfEmpty(seq(|r|, _ => R.EMPTY));
      } else {
        CountingConserves(r, (e.now / d) % |r|, e.failed);
      }
    }
  }

  /** `held`, `cleared` and `recorded` balance. */
  predicate Balanced(held: R.Bucket, cleared: R.Bucket, recorded: R.Bucket)
  {
    Plus(held, cleared) == recorded
  }

  lemma BalanceStep(held: R.Bucket, cleared: R.Bucket, recorded: R.Bucket,
                    held': R.Bucket, cleared': R.Bucket, counted: bool, failed: bool)
    requires Balanced(held, cleared, recorded)
    requires Plus(held', cleared') == if counted then R.Hit(held, failed) else held
    ensures Balanced(held', Plus(cleared, cleared'), if counted then R.Hit(recorded, failed) else recorded)
  {
  }

  ghost predicate LedgerBalanced(c: Config, s0: Core, es: seq<Event>)
    requires Shaped(c, s0)
  {
    Balanced(Totals(Run(c, s0, es).ring), ClearedIn(c, s0, es), RecordedIn(c, s0, es))
  }

  lemma {:induction false} LedgerStart(c: Config, s0: Core)
    requires Shaped(c, s0) && R.Requests(s0.ring) == 0 && R.Errors(s0.ring) == 0
    ensures LedgerBalanced(c, s0, [])
  {
    assert Run(c, s0, []) == s0;
    assert ClearedIn(c, s0, []) == R.EMPTY && RecordedIn(c, s0, []) == R.EMPTY;
  }

  lemma {:induction false} LedgerStep(c: Config, s0: Core, es: seq<Event>)
    requires Shaped(c, s0) && |es| > 0
    requires LedgerBalanced(c, s0, es[..|es| - 1])
    ensures LedgerBalanced(c, s0, es)
  {
    var pre, e := es[..|es| - 1], es[|es| - 1];
    var s := Run(c, s0, pre);
    StepConserves(c, s, e);
    BalanceStep(Totals(s.ring), ClearedIn(c, s0, pre), RecordedIn(c, s0, pre),
                Totals(Step(c, s, e).ring), ClearedBy(c, s, e),
                e.Mark? && s.state != HalfOpen, e.Mark? && e.failed);
  }

  /** Over every run, counts held plus counts cleared equal outcomes recorded. */
  lemma {:induction false} CountsConserved(c: Config, start: nat, es: seq<Event>)
    requires c.Valid()
    ensures LedgerBalanced(c, Fresh(c, start), es)
  {
    var s0 := Fresh(c, start);
    if |es| == 0 {
      R.TotalsOfEmpty(s0.ring);
      LedgerStart(c, s0);
      assert es == [];
    } else {
      CountsConserved(c, start, es[..|es| - 1]);
      LedgerStep(c, s0, es);
    }
  }

  // ------------------------------------------------------------------------
  // What a trip is decided on
  // ------------------------------------------------------------------------

  /** The breaker's ring, with a history that starts now. */
  function RingOf(s: Core): R.State
  {
    R.State(s.ring, s.lastRotate, [])
  }

  /** A successful trial closes the breaker and empties its ring. */
  predicate Resets(s: Core, e: Event)
  {
    s.state == HalfOpen && e.Mark? && !e.failed
  }

  /** What any other event does to the ring: a failed trial only rotates, other marks are recorded. */
  function RingOp(s: Core, e: Event): seq<R.Op>
  {
    if !e.Mark? then [] else if s.state == HalfOpen then [R.Touch(e.now)] else [R.Record(e.now, e.failed)]
  }

  function RingOps(c: Config, s: Core, es: seq<Event>): seq<R.Op>
    requires Shaped(c, s)
  {
    if |es| == 0 then []
    else RingOps(c, s, es[..|es| - 1]) + RingOp(Run(c, s, es[..|es| - 1]), es[|es| - 1])
  }

  predicate NoReset(c: Config, s: Core, es: seq<Event>)
    requires Shaped(c, s)
  {
    |es| == 0 || (NoReset(c, s, es[..|es| - 1]) && !Resets(Run(c, s, es[..|es| - 1]), es[|es| - 1]))
  }

  predicate SameRing(s: Core, r: R.State)
  {
    s.ring == r.ring && s.lastRotate == r.last
  }

  lemma StepDrivesRing(c: Config, s: Core, r: R.State, e: Event)
    requires Shaped(c, s) && SameRing(s, r) && !Resets(s, e)
    ensures var ops := RingOp(s, e);
            SameRing(Step(c, s, e), if ops == [] then r else R.Apply(r, ops[0], c.BucketLength()))
  {
  }

  /** Between resets, any run drives the ring through the operations of the bucket ring. */
  lemma {:induction false} RunDrivesRing(c: Config, s: Core, es: seq<Event>)
    requires Shaped(c, s) && NoReset(c, s, es)
    ensures SameRing(Run(c, s, es), R.Run(RingOf(s), RingOps(c, s, es), c.BucketLength()))
  {
    if |es| > 0 {
      var pre, e := es[..|es| - 1], es[|es| - 1];
      RunDrivesRing(c, s, pre);
      var all, before := RingOps(c, s, es), RingOps(c, s, pre);
      if RingOp(Run(c, s, pre), e) == [] {
        assert all == before;
      } else {
        assert all[..|all| - 1] == before;
      }
      StepDrivesRing(c, Run(c, s, pre), R.Run(RingOf(s), before, c.BucketLength()), e);
    }
  }

  lemma {:induction false} FreshIsReady(c: Config, start: nat)
    requires c.Valid()
    ensures R.Ready(RingOf(Fresh(c, start)), start, c.BucketLength())
  {
    R.FreshIsReady(c.bucketCount, start, c.BucketLength());
  }

  /** After a reset the ring is ready for a new history, if the clock has not run backwards. */
  lemma {:induction false} ResetIsReady(c: Config, s: Core, e: Event)
    requires Shaped(c, s) && Resets(s, e) && s.lastRotate <= e.now
    ensures R.Ready(RingOf(Step(c, s, e)), e.now, c.BucketLength())
  {
    R.RotatedIsLatest(e.now, s.lastRotate, c.BucketLength());
    R.EmptyIsReady(RingOf(Step(c, s, e)), e.now, c.BucketLength());
  }

  lemma {:induction false} CleanIsExact(r: R.State, t: nat, ops: seq<R.Op>, d: nat)
    requires d > 0 && |r.ring| > 0 && R.Ready(r, t, d) && R.Forward(t, ops) && R.CleanRun(r, t, ops, d)
    ensures var u := R.Run(r, ops, d); R.TotalsExact(u.history, u.ring, R.Slot(R.Now(t, ops), d))
  {
    R.SlidingWindowIff(r, t, ops, d);
  }

  lemma MarkTripsIff(c: Config, s: Core, e: Event)
    requires Shaped(c, s) && s.state == Closed && e.Mark?
    ensures Step(c, s, e).state == Open <==> Trips(c, Step(c, s, e).ring)
  {
  }

  /** Take a closed breaker whose ring was ready at time `t`, new or after a reset, and whose marks
      since are clean ring operations. The next mark trips it if and only if the outcomes recorded
      since then in the last `bucketCount` slots meet the volume and the error rate. */
  lemma {:induction false} TripsOnWindow(c: Config, s: Core, t: nat, es: seq<Event>, e: Event)
    requires Shaped(c, s) && R.Ready(RingOf(s), t, c.BucketLength()) && NoReset(c, s, es)
    requires e.Mark? && Run(c, s, es).state == Closed
    requires var ops := RingOps(c, s, es) + [R.Record(e.now, e.failed)];
             R.Forward(t, ops) && R.CleanRun(RingOf(s), t, ops, c.BucketLength())
    ensures var ops, slot := RingOps(c, s, es) + [R.Record(e.now, e.failed)], R.Slot(e.now, c.BucketLength());
            var w := R.Within(R.Run(RingOf(s), ops, c.BucketLength()).history, slot - c.bucketCount, slot);
            Step(c, Run(c, s, es), e).state == Open <==> Exceeds(c, w.requests, w.errors)
  {
    var d, before := c.BucketLength(), RingOps(c, s, es);
    var ops := before + [R.Record(e.now, e.failed)];
    RunDrivesRing(c, s, es);
    StepDrivesRing(c, Run(c, s, es), R.Run(RingOf(s), before, d), e);
    assert ops[..|ops| - 1] == before;
    CleanIsExact(RingOf(s), t, ops, d);
    MarkTripsIff(c, Run(c, s, es), e);
    var after := Step(c, Run(c, s, es), e).ring;
    TripsMeans(c, R.Requests(after), R.Errors(after));
  }

  // ------------------------------------------------------------------------
  // Admission
  // ------------------------------------------------------------------------

  lemma {:induction false} TrialSticks(c: Config, s: Core, es: seq<Event>, i: nat, k: nat)
    requires Shaped(c, s) && i <= k <= |es|
    requires Run(c, s, es[..i]).trial
    requires forall m :: i <= m <= k ==> Run(c, s, es[..m]).state == HalfOpen
    ensures Run(c, s, es[..k]).trial
    decreases k
  {
    if i < k {
      TrialSticks(c, s, es, i, k - 1);
      RunStep(c, s, es, k - 1);
    }
  }

  lemma {:induction false} AdmissionSetsTrial(c: Config, s: Core, es: seq<Event>, i: nat)
    requires Shaped(c, s) && i < |es| && Admits(c, s, es, i)
    ensures Run(c, s, es[..i]).state != Open
    ensures Run(c, s, es[..i]).state == HalfOpen ==> !Run(c, s, es[..i]).trial && Run(c, s, es[..i + 1]).trial
  {
    RunStep(c, s, es, i);
  }

  /** An open breaker admits nobody, and between two admissions in HalfOpen the breaker left
      HalfOpen: at most one request is admitted per half-open episode. */
  lemma {:induction false} OneTrialPerEpisode(c: Config, s: Core, es: seq<Event>, i: nat, j: nat)
    requires Shaped(c, s) && i < j < |es|
    requires Admits(c, s, es, i) && Admits(c, s, es, j)
    ensures Run(c, s, es[..i]).state != Open && Run(c, s, es[..j]).state != Open
    ensures !(forall k :: i <= k <= j ==> Run(c, s, es[..k]).state == HalfOpen)
  {
    AdmissionSetsTrial(c, s, es, i);
    AdmissionSetsTrial(c, s, es, j);
    if forall k :: i <= k <= j ==> Run(c, s, es[..k]).state == HalfOpen {
      TrialSticks(c, s, es, i + 1, j);
      assert false;
    }
  }

  /** Event `i` is the `State()` call that opened the episode containing position `j`. */
  ghost predicate EnteredByQuery(c: Config, s: Core, es: seq<Event>, i: nat, j: nat)
    requires Shaped(c, s) && i < j <= |es|
  {
    && es[i].Query?
    && Run(c, s, es[..i]).state == Open
    && (forall k :: i < k <= j ==> Run(c, s, es[..k]).state == HalfOpen)
    && (forall k :: i < k < j ==> !Admits(c, s, es, k))
  }

  /** An untried half-open state comes from an untried one, by an event that admits nobody, or from an
      open one by `State()`. */
  lemma StepUntried(c: Config, s: Core, e: Event)
    requires Inv(c, s) && Step(c, s, e).state == HalfOpen && !Step(c, s, e).trial
    ensures if s.state == HalfOpen then !s.trial && !(e.Allow? && AllowSpec(c, s, e.now).1) else s.state == Open && e.Query?
  {
  }

  /** Conversely, such an event leaves the trial open. */
  lemma StepLeavesUntried(c: Config, s: Core, e: Event)
    requires Inv(c, s) && Step(c, s, e).state == HalfOpen
    requires if s.state == HalfOpen then !s.trial && !(e.Allow? && AllowSpec(c, s, e.now).1) else s.state == Open && e.Query?
    ensures !Step(c, s, e).trial
  {
  }

  lemma {:induction false} EpisodeExtends(c: Config, s: Core, es: seq<Event>, i: nat, j: nat)
    requires Shaped(c, s) && i < j < |es| && EnteredByQuery(c, s, es, i, j)
    requires Run(c, s, es[..j + 1]).state == HalfOpen && !Admits(c, s, es, j)
    ensures EnteredByQuery(c, s, es, i, j + 1)
  {
  }

  lemma {:induction false} EpisodeShortens(c: Config, s: Core, es: seq<Event>, i: nat, j: nat)
    requires Shaped(c, s) && i < j < |es| && EnteredByQuery(c, s, es, i, j + 1)
    ensures EnteredByQuery(c, s, es, i, j) && !Admits(c, s, es, j) && Run(c, s, es[..j]).state == HalfOpen
  {
  }

  lemma {:induction false} UntriedMeansQueried(c: Config, start: nat, es: seq<Event>, j: nat)
    requires c.Valid() && j <= |es|
    requires var s := Run(c, Fresh(c, start), es[..j]); s.state == HalfOpen && !s.trial
    ensures exists i :: 0 <= i < j && EnteredByQuery(c, Fresh(c, start), es, i, j)
  {
    var s0 := Fresh(c, start);
    if j > 0 {
      var k := j - 1;
      RunStep(c, s0, es, k);
      ReachableInv(c, start, es[..k]);
      StepUntried(c, Run(c, s0, es[..k]), es[k]);
      if Run(c, s0, es[..k]).state == HalfOpen {
        UntriedMeansQueried(c, start, es, k);
        var i :| 0 <= i < k && EnteredByQuery(c, s0, es, i, k);
        EpisodeExtends(c, s0, es, i, k);
      } else {
        assert EnteredByQuery(c, s0, es, k, j);
      }
    }
  }

  /** A half-open admission happens only in an episode entered through `State()`, and is its first:
      an episode entered by `Allow` admits none. */
  lemma {:induction false} TrialNeedsQuery(c: Config, start: nat, es: seq<Event>, j: nat)
    requires c.Valid() && j < |es|
    requires Run(c, Fresh(c, start), es[..j]).state == HalfOpen
    ensures Admits(c, Fresh(c, start), es, j) ==>
              exists i :: 0 <= i < j && EnteredByQuery(c, Fresh(c, start), es, i, j)
  {
    if Admits(c, Fresh(c, start), es, j) {
      UntriedMeansQueried(c, start, es, j);
    }
  }

  /** Conversely an episode entered through `State()` admits the first `Allow` that follows. */
  lemma {:induction false} QueryOpensOneTrial(c: Config, start: nat, es: seq<Event>, i: nat, j: nat)
    requires c.Valid() && i < j < |es|
    requires EnteredByQuery(c, Fresh(c, start), es, i, j)
    requires es[j].Allow?
    ensures Admits(c, Fresh(c, start), es, j) <==> !Run(c, Fresh(c, start), es[..j]).shut
  {
    StillUntried(c, start, es, i, j);
  }

  lemma {:induction false} StillUntried(c: Config, start: nat, es: seq<Event>, i: nat, j: nat)
    requires c.Valid() && i < j <= |es|
    requires EnteredByQuery(c, Fresh(c, start), es, i, j)
    ensures !Run(c, Fresh(c, start), es[..j]).trial
    decreases j
  {
    var s0, k := Fresh(c, start), j - 1;
    RunStep(c, s0, es, k);
    ReachableInv(c, start, es[..k]);
    if i < k {
      EpisodeShortens(c, s0, es, i, k);
      StillUntried(c, start, es, i, k);
    }
    StepLeavesUntried(c, Run(c, s0, es[..k]), es[k]);
  }

  ghost predicate WasShut(es: seq<Event>)
  {
    exists k :: 0 <= k < |es| && es[k].Shut?
  }

  lemma {:induction false} ShutMeans(c: Config, start: nat, es: seq<Event>)
    requires c.Valid()
    ensures Run(c, Fresh(c, start), es).shut <==> WasShut(es)
  {
    if |es| > 0 {
      var pre, e := es[..|es| - 1], es[|es| - 1];
      ShutMeans(c, start, pre);
      StepShuts(c, Run(c, Fresh(c, start), pre), e);
      if WasShut(pre) {
        var k :| 0 <= k < |pre| && pre[k].Shut?;
        assert es[k].Shut?;
      }
    }
  }

  lemma StepShuts(c: Config, s: Core, e: Event)
    requires Shaped(c, s)
    ensures Step(c, s, e).shut == (s.shut || e.Shut?)
  {
  }

  lemma AllowDecides(c: Config, s: Core, now: nat)
    ensures AllowSpec(c, s, now).1 <==> !s.shut && (s.state == Closed || (s.state == HalfOpen && !s.trial))
    ensures s.state == Closed ==> AllowSpec(c, s, now).0 == s
  {
  }

  /** Who is let through, over every run: exactly those who ask before the breaker is shut, while it is
      closed or in a half-open episode that `State` opened and that has admitted nobody yet. An
      `Allow` on a closed breaker changes nothing. */
  lemma {:induction false} AdmittedIff(c: Config, start: nat, es: seq<Event>, j: nat)
    requires c.Valid() && j < |es| && es[j].Allow?
    ensures var s := Run(c, Fresh(c, start), es[..j]);
            && (Admits(c, Fresh(c, start), es, j) <==>
                && !WasShut(es[..j])
                && (s.state == Closed || exists i :: 0 <= i < j && EnteredByQuery(c, Fresh(c, start), es, i, j)))
            && (s.state == Closed ==> Step(c, s, es[j]) == s)
  {
    var s0 := Fresh(c, start);
    var s := Run(c, s0, es[..j]);
    ShutMeans(c, start, es[..j]);
    AllowDecides(c, s, es[j].now);
    if s.state == HalfOpen && !s.trial {
      UntriedMeansQueried(c, start, es, j);
    }
    if exists i :: 0 <= i < j && EnteredByQuery(c, s0, es, i, j) {
      var i :| 0 <= i < j && EnteredByQuery(c, s0, es, i, j);
      StillUntried(c, start, es, i, j);
    }
  }

  // ------------------------------------------------------------------------
  // Runs made of Execute calls only
  // ------------------------------------------------------------------------

  datatype Call = Call(allowAt: nat, markAt: nat, later: nat, failed: bool)

  function ExecuteSpec(c: Config, s: Core, call: Call): (r: (Core, bool))
    requires Shaped(c, s)
    ensures Shaped(c, r.0)
  {
    var (t, ok) := AllowSpec(c, s, call.allowAt);
    if ok then (MarkSpec(c, t, call.markAt, call.later, call.failed), true) else (t, false)
  }

  function RunCalls(c: Config, s: Core, calls: seq<Call>): (s': Core)
    requires Shaped(c, s)
    ensures Shaped(c, s')
  {
    if |calls| == 0 then s else ExecuteSpec(c, RunCalls(c, s, calls[..|calls| - 1]), calls[|calls| - 1]).0
  }

  /** A call on a closed breaker that was not shut runs, and the ring counts it and its own outcome; a
      refused call leaves the ring alone. */
  lemma {:induction false} ExecuteCounts(c: Config, s: Core, call: Call)
    requires Shaped(c, s)
    ensures var (s', ok) := ExecuteSpec(c, s, call);
            && (s.state == Closed && !s.shut ==> ok)
            && (ok && s.state == Closed ==>
                  var cleared := ClearedBy(c, s, Mark(call.markAt, call.later, call.failed));
                  && R.Requests(s'.ring) + cleared.requests == R.Requests(s.ring) + 1
                  && R.Errors(s'.ring) + cleared.errors == R.Errors(s.ring) + (if call.failed then 1 else 0))
            && (!ok ==> s'.ring == s.ring && s'.lastRotate == s.lastRotate)
  {
    if s.state == Closed {
      StepConserves(c, s, Mark(call.markAt, call.later, call.failed));
    }
  }

  predicate Stuck(s: Core)
  {
    s.state == Open || (s.state == HalfOpen && s.trial)
  }

  lemma {:induction false} ClosedOrStuck(c: Config, start: nat, calls: seq<Call>)
    requires c.Valid()
    ensures var s := RunCalls(c, Fresh(c, start), calls); s.state == Closed || Stuck(s)
  {
    if |calls| > 0 {
      ClosedOrStuck(c, start, calls[..|calls| - 1]);
    }
  }

  lemma {:induction false} StuckStays(c: Config, s: Core, calls: seq<Call>)
    requires Shaped(c, s) && Stuck(s)
    ensures Stuck(RunCalls(c, s, calls))
    ensures forall call :: !ExecuteSpec(c, RunCalls(c, s, calls), call).1
  {
    if |calls| > 0 {
      StuckStays(c, s, calls[..|calls| - 1]);
    }
  }

  lemma {:induction false} RunCallsSplit(c: Config, s: Core, a: seq<Call>, b: seq<Call>)
    requires Shaped(c, s)
    ensures RunCalls(c, s, a + b) == RunCalls(c, RunCalls(c, s, a), b)
  {
    if |b| == 0 {
      assert a + b == a;
    } else {
      assert (a + b)[..|a + b| - 1] == a + b[..|b| - 1];
      RunCallsSplit(c, s, a, b[..|b| - 1]);
    }
  }

  /** When the breaker is driven by non-overlapping `Execute` calls alone, nothing is ever admitted
      again after the first trip, however long the caller waits. */
  lemma {:induction false} NoRecoveryByExecute(c: Config, start: nat, before: seq<Call>, after: seq<Call>, call: Call)
    requires c.Valid()
    requires RunCalls(c, Fresh(c, start), before).state != Closed
    ensures !ExecuteSpec(c, RunCalls(c, Fresh(c, start), before + after), call).1
  {
    var s0 := Fresh(c, start);
    ClosedOrStuck(c, start, before);
    StuckStays(c, RunCalls(c, s0, before), after);
    RunCallsSplit(c, s0, before, after);
  }
}
