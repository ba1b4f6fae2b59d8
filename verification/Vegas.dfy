/** The TCP-Vegas-inspired breaker. Latencies are whole nanoseconds; the smoothing expression
    `0.875 * current + 0.125 * rtt` is exact in float64 for latencies up to 30 s, so truncating it
    is integer division of `7 * current + rtt` by 8. The inflation ratio is a real.
  */
module Vegas {
  import opened Common

  const MIN_RTT: nat := 1_000_000
  const MAX_RTT: nat := 30_000_000_000

  datatype Phase = Closed | Open | HalfOpen

  datatype Config = Config(alpha: real, beta: real, warmup: nat)
  {
    predicate Valid() {
      alpha > 0.0 && beta > 0.0 && warmup > 0
    }
  }

  datatype Core = Core(base: nat, current: nat, samples: nat, state: Phase, shut: bool)

  const FRESH := Core(0, 0, 0, Closed, false)

  predicate InRange(rtt: int)
  {
    MIN_RTT <= rtt <= MAX_RTT
  }

  function Updated(s: Core, rtt: int): Core
  {
    if !InRange(rtt) then s
    else
      s.(samples := s.samples + 1,
         current := if s.current == 0 then rtt else (7 * s.current + rtt) / 8,
         base := if s.base == 0 || rtt < s.base then rtt else s.base)
  }

  function Inflation(s: Core): real
    requires s.base != 0
  {
    (s.current as real - s.base as real) / s.base as real
  }

  function Evaluated(c: Config, s: Core): Core
  {
    if s.samples < c.warmup || s.base == 0 then s
    else
      var x := Inflation(s);
      match s.state
      case Closed => if x > c.alpha then s.(state := Open) else s
      case Open => if x < c.beta then s.(state := HalfOpen) else s
      case HalfOpen => if x < c.beta then s.(state := Closed) else if x > c.alpha then s.(state := Open) else s
  }

  function RecordSpec(c: Config, s: Core, rtt: int): Core
  {
    Evaluated(c, Updated(if s.state == HalfOpen then s.(state := Closed) else s, rtt))
  }

  function FailSpec(c: Config, s: Core): Core
  {
    if s.state == HalfOpen then s.(state := Open) else Evaluated(c, Updated(s, MAX_RTT))
  }

  class Breaker {
    const cfg: Config
    var base: nat
    var current: nat
    var samples: nat
    var state: Phase
    var shut: bool

    ghost function Fields(): Core
      reads this
    {
      Core(base, current, samples, state, shut)
    }

    constructor (c: Config)
      ensures cfg == c && Fields() == FRESH
    {
      cfg, base, current, samples, state, shut := c, 0, 0, 0, Closed, false;
    }

    method UpdateLocked(rtt: int)
      modifies this
      ensures Fields() == Updated(old(Fields()), rtt)
    {
      if rtt < MIN_RTT || rtt > MAX_RTT {
        return;
      }
      samples := samples + 1;
      if current == 0 {
        current := rtt;
      } else {
        current := (7 * current + rtt) / 8;
      }
      if base == 0 || rtt < base {
        base := rtt;
      }
    }

    method EvaluateLocked()
      modifies this
      ensures Fields() == Evaluated(cfg, old(Fields()))
    {
      if samples < cfg.warmup || base == 0 {
        return;
      }
      var inflation := (current as real - base as real) / base as real;
      match state {
        case Closed =>
          if inflation > cfg.alpha {
            state := Open;
          }
        case Open =>
          if inflation < cfg.beta {
            state := HalfOpen;
          }
        case HalfOpen =>
          if inflation < cfg.beta {
            state := Closed;
          } else if inflation > cfg.alpha {
            state := Open;
          }
      }
    }

    method RecordLatency(rtt: int)
      modifies this
      ensures Fields() == RecordSpec(cfg, old(Fields()), rtt)
    {
      if state == HalfOpen {
        state := Closed;
      }
      UpdateLocked(rtt);
      EvaluateLocked();
    }

    method MarkFailure()
      modifies this
      ensures Fields() == FailSpec(cfg, old(Fields()))
    {
      if state == HalfOpen {
        state := Open;
        return;
      }
      UpdateLocked(MAX_RTT);
      EvaluateLocked();
    }

    /** `call` says how long the protected function took and whether it failed, had it run. */
    method Execute(call: Call) returns (ok: bool)
      modifies this
      ensures (Fields(), ok) == ExecuteSpec(cfg, old(Fields()), call)
    {
      if shut || state == Open {
        return false;
      }
      if call.failed {
        MarkFailure();
      } else {
        RecordLatency(call.elapsed);
      }
      return true;
    }
  }

  // ------------------------------------------------------------------------
  // Runs and what every reachable state satisfies
  // ------------------------------------------------------------------------

  datatype Event = Record(rtt: int) | Fail | Shut

  function Step(c: Config, s: Core, e: Event): Core
  {
    match e
    case Record(rtt) => RecordSpec(c, s, rtt)
    case Fail => FailSpec(c, s)
    case Shut => s.(shut := true)
  }

  function Run(c: Config, es: seq<Event>): Core
  {
    if |es| == 0 then FRESH else Step(c, Run(c, es[..|es| - 1]), es[|es| - 1])
  }

  /** The sample an event contributes in state `s`, if it passes the outlier filter; a failure counts
      as a sample of MAX_RTT unless it settles a half-open trial. */
  function Taken(s: Core, e: Event): seq<nat>
  {
    match e
    case Record(rtt) => if InRange(rtt) then [rtt] else []
    case Fail => if s.state == HalfOpen then [] else [MAX_RTT]
    case Shut => []
  }

  function Accepted(c: Config, es: seq<Event>): seq<nat>
  {
    if |es| == 0 then []
    else
      var pre := es[..|es| - 1];
      Accepted(c, pre) + Taken(Run(c, pre), es[|es| - 1])
  }

  ghost predicate IsMin(x: nat, xs: seq<nat>)
  {
    x in xs && forall i :: 0 <= i < |xs| ==> x <= xs[i]
  }

  ghost predicate Inv(c: Config, s: Core, accepted: seq<nat>)
  {
    && s.samples == |accepted|
    && (accepted == [] ==> s.base == 0 && s.current == 0)
    && (accepted != [] ==> IsMin(s.base, accepted) && MIN_RTT <= s.base <= s.current <= MAX_RTT)
    && (s.state != Closed ==> s.samples >= c.warmup)
  }

  lemma {:induction false} UpdateKeepsInv(c: Config, s: Core, accepted: seq<nat>, rtt: nat)
    requires Inv(c, s, accepted) && InRange(rtt)
    ensures Inv(c, Updated(s, rtt), accepted + [rtt])
  {
    var s' := Updated(s, rtt);
    var a := accepted + [rtt];
    assert a[|accepted|] == rtt;
    if accepted != [] {
      var i :| 0 <= i < |accepted| && accepted[i] == s.base;
      assert a[i] == s.base;
    }
  }

  lemma EvaluationKeepsInv(c: Config, s: Core, accepted: seq<nat>)
    requires Inv(c, s, accepted)
    ensures Inv(c, Evaluated(c, s), accepted)
  {
  }

  lemma {:induction false} StepKeepsInv(c: Config, s: Core, accepted: seq<nat>, e: Event)
    requires Inv(c, s, accepted)
    ensures Inv(c, Step(c, s, e), accepted + Taken(s, e))
  {
    var t := if e.Record? && s.state == HalfOpen then s.(state := Closed) else s;
    assert Inv(c, t, accepted);
    if Taken(s, e) == [] {
      assert accepted + Taken(s, e) == accepted;
      EvaluationKeepsInv(c, t, accepted);
    } else {
      var rtt := Taken(s, e)[0];
      UpdateKeepsInv(c, t, accepted, rtt);
      EvaluationKeepsInv(c, Updated(t, rtt), accepted + [rtt]);
    }
  }

  /** In every reachable state after an accepted sample, MIN_RTT <= base <= current <= MAX_RTT and
      base is the least accepted sample, so the zero sentinels never recur. */
  lemma {:induction false} ReachableInv(c: Config, es: seq<Event>)
    requires c.Valid()
    ensures Inv(c, Run(c, es), Accepted(c, es))
  {
    if |es| > 0 {
      var pre := es[..|es| - 1];
      ReachableInv(c, pre);
      StepKeepsInv(c, Run(c, pre), Accepted(c, pre), es[|es| - 1]);
    }
  }

  /** The evaluation without its HalfOpen arm. */
  function EvaluatedTwoArms(c: Config, s: Core): Core
  {
    if s.state == HalfOpen then s else Evaluated(c, s)
  }

  function StepTwoArms(c: Config, s: Core, e: Event): Core
  {
    match e
    case Record(rtt) => EvaluatedTwoArms(c, Updated(if s.state == HalfOpen then s.(state := Closed) else s, rtt))
    case Fail => if s.state == HalfOpen then s.(state := Open) else EvaluatedTwoArms(c, Updated(s, MAX_RTT))
    case Shut => s.(shut := true)
  }

  function RunTwoArms(c: Config, es: seq<Event>): Core
  {
    if |es| == 0 then FRESH else StepTwoArms(c, RunTwoArms(c, es[..|es| - 1]), es[|es| - 1])
  }

  /** The HalfOpen arm of the evaluation is dead code: deleting it changes no run. */
  lemma {:induction false} HalfOpenArmUnreachable(c: Config, es: seq<Event>)
    ensures RunTwoArms(c, es) == Run(c, es)
  {
    if |es| > 0 {
      HalfOpenArmUnreachable(c, es[..|es| - 1]);
    }
  }

  // ------------------------------------------------------------------------
  // Failures only, and failures followed by a success
  // ------------------------------------------------------------------------

  /** A run of failures alone pins both averages at MAX_RTT and never opens the breaker. */
  lemma {:induction false} FailuresNeverOpen(c: Config, es: seq<Event>)
    requires c.Valid() && forall i :: 0 <= i < |es| ==> es[i].Fail?
    ensures Run(c, es) == Core(if es == [] then 0 else MAX_RTT, if es == [] then 0 else MAX_RTT, |es|, Closed, false)
  {
    if |es| > 0 {
      FailuresNeverOpen(c, es[..|es| - 1]);
    }
  }

  lemma {:induction false} FirstGap(s: Core, rtt: nat)
    requires s.base == s.current == MAX_RTT && InRange(rtt)
    ensures Updated(s, rtt).base == rtt
    ensures Inflation(Updated(s, rtt)) == (7 * (MAX_RTT - rtt) / 8) as real / rtt as real
  {
    assert (7 * MAX_RTT + rtt) / 8 - rtt == 7 * (MAX_RTT - rtt) / 8;
  }

  /** The first success after failures opens the breaker exactly when warm-up is over and the
      smoothed average, still near MAX_RTT, inflates the new baseline beyond alpha. */
  lemma {:induction false} SuccessAfterFailures(c: Config, es: seq<Event>, rtt: nat)
    requires c.Valid() && es != [] && forall i :: 0 <= i < |es| ==> es[i].Fail?
    requires InRange(rtt)
    ensures Run(c, es + [Record(rtt)]).state == Open <==>
            |es| + 1 >= c.warmup && (7 * (MAX_RTT - rtt) / 8) as real / rtt as real > c.alpha
  {
    FailuresNeverOpen(c, es);
    assert (es + [Record(rtt)])[..|es|] == es;
    FirstGap(Run(c, es), rtt);
  }

  // ------------------------------------------------------------------------
  // Healing
  // ------------------------------------------------------------------------

  /** The state after `k` further samples equal to the baseline. */
  function Heal(c: Config, s: Core, k: nat): Core
  {
    if k == 0 then s else RecordSpec(c, Heal(c, s, k - 1), s.base)
  }

  ghost predicate Sick(c: Config, s: Core)
  {
    && c.Valid() && s.state == Open && s.samples >= c.warmup
    && MIN_RTT <= s.base <= s.current <= MAX_RTT
  }

  /** Still Open after each of the first `k` baseline samples. */
  ghost predicate OpenThrough(c: Config, s: Core, k: nat)
  {
    forall i :: 0 <= i <= k ==> Heal(c, s, i).state == Open
  }

  /** One baseline sample keeps the baseline, contracts the queueing delay by at least 7/8, and
      leaves Open exactly when the remaining delay is below beta. */
  lemma {:induction false} BaselineSampleContracts(c: Config, s: Core)
    requires Sick(c, s)
    ensures var s' := RecordSpec(c, s, s.base);
            && s'.base == s.base <= s'.current && s'.samples == s.samples + 1
            && 8 * (s'.current - s'.base) <= 7 * (s.current - s.base)
            && (s'.state == Open || s'.state == HalfOpen)
            && (s'.state == HalfOpen <==> (s'.current - s'.base) as real < c.beta * s'.base as real)
            && (s'.state == Open ==> s'.current > s'.base)
  {
    var u := Updated(s, s.base);
    QuotientBelow(u.current as real - u.base as real, u.base as real, c.beta);
    assert c.beta * s.base as real > 0.0;
  }

  lemma {:induction false} StillSick(c: Config, s: Core, k: nat)
    requires Sick(c, s)
    requires OpenThrough(c, s, k)
    ensures Sick(c, Heal(c, s, k)) && Heal(c, s, k).base == s.base
    ensures Heal(c, s, k).current <= s.current
  {
    if k > 0 {
      StillSick(c, s, k - 1);
      BaselineSampleContracts(c, Heal(c, s, k - 1));
    }
  }

  lemma {:induction false} SixSamplesHalve(c: Config, s: Core, k: nat)
    requires Sick(c, s)
    requires OpenThrough(c, s, k + 6)
    ensures 2 * (Heal(c, s, k + 6).current - s.base) <= Heal(c, s, k).current - s.base
  {
    forall i | 0 <= i <= k + 6
      ensures Sick(c, Heal(c, s, i)) && Heal(c, s, i).base == s.base
    {
      StillSick(c, s, i);
    }
    forall i | 0 <= i < k + 6
      ensures 8 * (Heal(c, s, i + 1).current - s.base) <= 7 * (Heal(c, s, i).current - s.base)
    {
      BaselineSampleContracts(c, Heal(c, s, i));
    }
    assert Heal(c, s, k + 5 + 1) == Heal(c, s, k + 6);
    assert Heal(c, s, k + 4 + 1) == Heal(c, s, k + 5);
    assert Heal(c, s, k + 3 + 1) == Heal(c, s, k + 4);
    assert Heal(c, s, k + 2 + 1) == Heal(c, s, k + 3);
    assert Heal(c, s, k + 1 + 1) == Heal(c, s, k + 2);
  }

  function Pow2(j: nat): nat
  {
    if j == 0 then 1 else 2 * Pow2(j - 1)
  }

  lemma {:induction false} HalveScaled(p: nat, q: nat, g: int, g': int, total: int)
    requires q == 2 * p && p * g <= total && 2 * g' <= g
    ensures q * g' <= total
  {
    assert p * (2 * g') <= p * g;
    assert q * g' == p * (2 * g');
  }

  predicate Halves(gap: nat -> int, k: nat)
  {
    2 * gap(k + 6) <= gap(k)
  }

  /** A quantity that halves every six steps shrinks geometrically. */
  lemma {:induction false} HalvesOften(gap: nat -> int, j: nat)
    requires forall k: nat :: k + 6 <= 6 * j ==> Halves(gap, k)
    ensures Pow2(j) * gap(6 * j) <= gap(0)
  {
    if j > 0 {
      var k := 6 * (j - 1);
      HalvesOften(gap, j - 1);
      assert Halves(gap, k);
      HalveScaled(Pow2(j - 1), Pow2(j), gap(k), gap(k + 6), gap(0));
    }
  }

  /** The queueing delay after `k` baseline samples. */
  function Gap(c: Config, s: Core): nat -> int
  {
    (k: nat) => Heal(c, s, k).current - s.base
  }

  lemma OpenSooner(c: Config, s: Core, k: nat, m: nat)
    requires k <= m && OpenThrough(c, s, m)
    ensures OpenThrough(c, s, k)
  {
  }

  lemma {:induction false} GapHalves(c: Config, s: Core, k: nat)
    requires Sick(c, s) && OpenThrough(c, s, k + 6)
    ensures Halves(Gap(c, s), k)
  {
    SixSamplesHalve(c, s, k);
  }

  lemma {:induction false} GapShrinks(c: Config, s: Core, j: nat)
    requires Sick(c, s) && OpenThrough(c, s, 6 * j)
    ensures Pow2(j) * Gap(c, s)(6 * j) <= Gap(c, s)(0)
  {
    forall k: nat | k + 6 <= 6 * j
      ensures Halves(Gap(c, s), k)
    {
      OpenSooner(c, s, k + 6, 6 * j);
      GapHalves(c, s, k);
    }
    HalvesOften(Gap(c, s), j);
  }

  lemma {:induction false} Pow2Of35()
    ensures Pow2(35) == 34_359_738_368
  {
    assert Pow2(10) == 1024;
    assert Pow2(20) == 1_048_576;
    assert Pow2(30) == 1_073_741_824;
  }

  lemma {:induction false} NotOpenForever(c: Config, s: Core)
    requires Sick(c, s)
    ensures !OpenThrough(c, s, 210)
  {
    if OpenThrough(c, s, 210) {
      GapShrinks(c, s, 35);
      Pow2Of35();
      GapStaysPositive(c, s, 210);
    }
  }

  lemma {:induction false} GapStaysPositive(c: Config, s: Core, k: nat)
    requires Sick(c, s) && k > 0 && OpenThrough(c, s, k)
    ensures Heal(c, s, k).current > s.base
  {
    StillSick(c, s, k - 1);
    BaselineSampleContracts(c, Heal(c, s, k - 1));
  }

  lemma {:induction false} FirstLeave(c: Config, s: Core, i: nat, k: nat) returns (m: nat)
    requires OpenThrough(c, s, i) && i <= k && !OpenThrough(c, s, k)
    ensures i <= m < k && OpenThrough(c, s, m) && Heal(c, s, m + 1).state != Open
    decreases k - i
  {
    if Heal(c, s, i + 1).state != Open {
      m := i;
    } else {
      m := FirstLeave(c, s, i + 1, k);
    }
  }

  /** The smoothed average stays within alpha of the baseline at the next baseline sample. */
  predicate Settles(c: Config, t: Core)
  {
    ((7 * t.current + t.base) / 8 - t.base) as real <= c.alpha * t.base as real
  }

  /** Open through sample `m`, HalfOpen after the next; the one that follows closes the breaker if and
      only if the average settles, and reopens it otherwise. */
  ghost predicate HealsAt(c: Config, s: Core, m: nat)
  {
    && OpenThrough(c, s, m) && Heal(c, s, m + 1).state == HalfOpen
    && Heal(c, s, m + 2).state == if Settles(c, Heal(c, s, m + 1)) then Closed else Open
  }

  lemma HealStep(c: Config, s: Core, k: nat)
    ensures Heal(c, s, k + 1) == RecordSpec(c, Heal(c, s, k), s.base)
  {
  }

  lemma {:induction false} QuotientAbove(g: real, b: real, x: real)
    requires b > 0.0
    ensures g / b > x <==> g > x * b
  {
    QuotientBelow(-g, b, -x);
    assert (-g) / b == -(g / b) && (-x) * b == -(x * b);
  }

  /** A half-open breaker is closed by the next baseline sample if and only if the average settles. */
  lemma {:induction false} ClosesIff(c: Config, t: Core)
    requires c.Valid() && t.state == HalfOpen && t.samples >= c.warmup && MIN_RTT <= t.base <= t.current <= MAX_RTT
    ensures RecordSpec(c, t, t.base).state == if Settles(c, t) then Closed else Open
  {
    var u := Updated(t.(state := Closed), t.base);
    assert u.base == t.base && u.current == (7 * t.current + t.base) / 8;
    QuotientAbove(u.current as real - u.base as real, u.base as real, c.alpha);
  }

  /** With `beta <= alpha` a state that left Open always settles. */
  lemma {:induction false} LowBetaSettles(c: Config, t: Core)
    requires c.Valid() && c.beta <= c.alpha && MIN_RTT <= t.base <= t.current
    requires (t.current - t.base) as real < c.beta * t.base as real
    ensures Settles(c, t)
  {
    assert (7 * t.current + t.base) / 8 <= t.current;
    assert (c.alpha - c.beta) * t.base as real >= 0.0;
  }

  lemma {:induction false} LeaveThenClose(c: Config, u: Core)
    requires Sick(c, u) && RecordSpec(c, u, u.base).state != Open
    ensures var t := RecordSpec(c, u, u.base);
            && t.state == HalfOpen && t.base == u.base
            && RecordSpec(c, t, u.base).state == (if Settles(c, t) then Closed else Open)
            && (c.beta <= c.alpha ==> Settles(c, t))
  {
    BaselineSampleContracts(c, u);
    var t := RecordSpec(c, u, u.base);
    ClosesIff(c, t);
    if c.beta <= c.alpha {
      LowBetaSettles(c, t);
    }
  }

  lemma {:induction false} LeavesThroughHalfOpen(c: Config, s: Core, m: nat)
    requires Sick(c, s) && OpenThrough(c, s, m) && Heal(c, s, m + 1).state != Open
    ensures HealsAt(c, s, m)
    ensures c.beta <= c.alpha ==> Settles(c, Heal(c, s, m + 1))
  {
    StillSick(c, s, m);
    HealStep(c, s, m);
    HealStep(c, s, m + 1);
    LeaveThenClose(c, Heal(c, s, m));
  }

  /** From every reachable Open state, repeated baseline samples reach HalfOpen within 210 samples. The
      next sample closes the breaker if and only if the average settles within alpha of the baseline,
      which with `beta <= alpha` it always does. */
  lemma {:induction false} Heals(c: Config, es: seq<Event>)
    requires c.Valid() && Run(c, es).state == Open
    ensures exists m :: 0 <= m < 210 && HealsAt(c, Run(c, es), m)
                        && (c.beta <= c.alpha ==> Settles(c, Heal(c, Run(c, es), m + 1)))
  {
    ReachableInv(c, es);
    var s := Run(c, es);
    NotOpenForever(c, s);
    assert Heal(c, s, 0) == s;
    var m := FirstLeave(c, s, 0, 210);
    LeavesThroughHalfOpen(c, s, m);
  }

  // ------------------------------------------------------------------------
  // One sample
  // ------------------------------------------------------------------------

  /** A sample outside 1 ms to 30 s is ignored; any other counts, moves the average by an eighth of the
      way (the first one sets it), and lowers the baseline if it is smaller. */
  lemma {:induction false} SampleTaken(c: Config, es: seq<Event>, rtt: int)
    requires c.Valid()
    ensures var s := Run(c, es);
            var t := RecordSpec(c, s, rtt);
            if 1_000_000 <= rtt <= 30_000_000_000 then
              && t.samples == s.samples + 1
              && t.current == (if s.samples == 0 then rtt else s.current + FloorEighth(rtt - s.current))
              && t.base == (if s.samples == 0 || rtt < s.base then rtt else s.base)
            else t.samples == s.samples && t.current == s.current && t.base == s.base
  {
    ReachableInv(c, es);
    var s := Run(c, es);
    assert (7 * s.current + rtt) / 8 == s.current + FloorEighth(rtt - s.current);
  }

  /** An eighth, rounded down. */
  function FloorEighth(x: int): (y: int)
    ensures 8 * y <= x < 8 * y + 8
  {
    x / 8
  }

  /** The queueing delay exceeds alpha times the baseline, or is below beta times it. */
  predicate Inflated(c: Config, current: nat, base: nat)
  {
    (current - base) as real > c.alpha * base as real
  }

  predicate Deflated(c: Config, current: nat, base: nat)
  {
    (current - base) as real < c.beta * base as real
  }

  /** How the state follows from the state before and the averages after an evaluation. */
  predicate Decided(c: Config, before: Phase, t: Core)
  {
    if t.samples < c.warmup then t.state == before
    else if before == Open then t.state == if Deflated(c, t.current, t.base) then HalfOpen else Open
    else t.state == if Inflated(c, t.current, t.base) then Open else Closed
  }

  /** What a sample decides: nothing new during warm-up, except that a half-open breaker is closed;
      after it, a closed or half-open breaker is open exactly when the new average is inflated and
      closed otherwise, and an open one is half-open exactly when it is deflated. */
  lemma {:induction false} SampleDecides(c: Config, es: seq<Event>, rtt: int)
    requires c.Valid()
    ensures var s := Run(c, es);
            Decided(c, if s.state == HalfOpen then Closed else s.state, RecordSpec(c, s, rtt))
  {
    ReachableInv(c, es);
    StepDecides(c, Run(c, es), Accepted(c, es), rtt);
  }

  lemma {:induction false} StepDecides(c: Config, s: Core, accepted: seq<nat>, rtt: int)
    requires c.Valid() && Inv(c, s, accepted)
    ensures Decided(c, if s.state == HalfOpen then Closed else s.state, RecordSpec(c, s, rtt))
  {
    var u := Updated(if s.state == HalfOpen then s.(state := Closed) else s, rtt);
    SampledBase(c, s, accepted, u, rtt);
    EvaluationDecides(c, u);
  }

  lemma {:induction false} EvaluationDecides(c: Config, u: Core)
    requires u.state != HalfOpen && (u.samples >= c.warmup ==> u.base > 0)
    ensures Decided(c, u.state, Evaluated(c, u))
  {
    if u.samples >= c.warmup {
      QuotientAbove(u.current as real - u.base as real, u.base as real, c.alpha);
      QuotientBelow(u.current as real - u.base as real, u.base as real, c.beta);
    }
  }

  lemma SampledBase(c: Config, s: Core, accepted: seq<nat>, u: Core, rtt: int)
    requires c.Valid() && Inv(c, s, accepted) && u == Updated(if s.state == HalfOpen then s.(state := Closed) else s, rtt)
    ensures u.samples >= c.warmup ==> u.base > 0
  {
  }

  /** A failure reopens a half-open breaker and is otherwise a sample of 30 s. */
  lemma FailureMeans(c: Config, s: Core)
    ensures FailSpec(c, s) == if s.state == HalfOpen then s.(state := Open) else RecordSpec(c, s, 30_000_000_000)
  {
  }

  // ------------------------------------------------------------------------
  // Runs made of Execute calls only
  // ------------------------------------------------------------------------

  datatype Call = Call(elapsed: int, failed: bool)

  function ExecuteSpec(c: Config, s: Core, call: Call): (Core, bool)
  {
    if s.shut || s.state == Open then (s, false)
    else if call.failed then (FailSpec(c, s), true)
    else (RecordSpec(c, s, call.elapsed), true)
  }

  function RunCalls(c: Config, s: Core, calls: seq<Call>): Core
  {
    if |calls| == 0 then s else ExecuteSpec(c, RunCalls(c, s, calls[..|calls| - 1]), calls[|calls| - 1]).0
  }

  /** A call is refused exactly while the breaker is open or shut, and then changes nothing; an admitted
      one records its failure if it failed and its latency if it did not. */
  lemma ExecuteMeans(c: Config, s: Core, call: Call)
    ensures var (t, ok) := ExecuteSpec(c, s, call);
            && (ok <==> s.state != Open && !s.shut)
            && (!ok ==> t == s)
            && (ok && call.failed ==> t == Step(c, s, Fail))
            && (ok && !call.failed ==> t == Step(c, s, Record(call.elapsed)))
  {
  }

  /** Healing needs samples and an open breaker lets none through: when driven by non-overlapping
      `Execute` calls alone, an open breaker never changes again and admits nobody. */
  lemma {:induction false} OpenIsAbsorbing(c: Config, s: Core, calls: seq<Call>)
    requires s.state == Open
    ensures RunCalls(c, s, calls) == s
    ensures forall call :: !ExecuteSpec(c, RunCalls(c, s, calls), call).1
  {
    if |calls| > 0 {
      OpenIsAbsorbing(c, s, calls[..|calls| - 1]);
    }
  }
}
