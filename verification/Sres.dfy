/** The Google-SRE-style breaker: a probabilistic acceptance over the bucket ring. Rates are reals. */
module Sres {
  import R = Ring

  datatype Phase = Closed | Open | HalfOpen

  datatype Config = Config(k: real, window: nat, bucketCount: nat)
  {
    predicate Valid() {
      k > 0.0 && 0 < bucketCount <= window
    }

    function BucketLength(): (d: nat)
      requires Valid()
      ensures d > 0
    {
      window / bucketCount
    }
  }

  datatype Core = Core(ring: seq<R.Bucket>, lastRotate: nat, shut: bool)

  function Ratio(k: real, reqs: nat, errs: nat): real
  {
    (reqs as real - k * errs as real) / (reqs as real + 1.0)
  }

  /** The acceptance probability computed by `Allow`. */
  function Accept(k: real, reqs: nat, errs: nat): real
  {
    if reqs == 0 then 1.0 else Clamp(Ratio(k, reqs, errs))
  }

  function Clamp(x: real): real
  {
    if x < 0.0 then 0.0 else x
  }

  function AcceptOf(k: real, ring: seq<R.Bucket>): real
  {
    Accept(k, R.Requests(ring), R.Errors(ring))
  }

  function RotateSpec(c: Config, s: Core, now: nat): Core
    requires c.Valid() && |s.ring| > 0
  {
    var d := c.BucketLength();
    s.(ring := R.Rotate(s.ring, now, s.lastRotate, d), lastRotate := R.Rotated(now, s.lastRotate, d))
  }

  /** `draw` is the random number in [0, 1). */
  function AllowSpec(c: Config, s: Core, now: nat, draw: real): (Core, bool)
    requires c.Valid() && |s.ring| > 0
  {
    if s.shut then (s, false)
    else
      var t := RotateSpec(c, s, now);
      var p := AcceptOf(c.k, t.ring);
      (t, p >= 1.0 || draw < p)
  }

  function MarkSpec(c: Config, s: Core, now: nat, failed: bool): Core
    requires c.Valid() && |s.ring| > 0
  {
    var t := RotateSpec(c, s, now);
    var i := (now / c.BucketLength()) % |t.ring|;
    t.(ring := t.ring[i := R.Hit(t.ring[i], failed)])
  }

  function Reported(k: real, ring: seq<R.Bucket>): Phase
  {
    var reqs, errs := R.Requests(ring), R.Errors(ring);
    if reqs == 0 then Closed else Graded(Ratio(k, reqs, errs))
  }

  function Graded(x: real): Phase
  {
    if x <= 0.0 then Open else if x < 1.0 then HalfOpen else Closed
  }

  class Breaker {
    const cfg: Config
    const bucketLength: nat
    const buckets: array<R.Bucket>
    var lastRotate: nat
    var shut: bool

    ghost predicate Valid()
      reads this, buckets
    {
      cfg.Valid() && bucketLength == cfg.BucketLength() && buckets.Length == cfg.bucketCount
    }

    ghost function Fields(): Core
      reads this, buckets
    {
      Core(buckets[..], lastRotate, shut)
    }

    constructor (c: Config, now: nat)
      requires c.Valid()
      ensures Valid() && cfg == c && fresh(buckets)
      ensures Fields() == Fresh(c, now)
    {
      cfg, bucketLength := c, c.window / c.bucketCount;
      buckets := new R.Bucket[c.bucketCount](_ => R.EMPTY);
      lastRotate, shut := now, false;
    }

    method Stats() returns (reqs: nat, errs: nat)
      requires Valid()
      ensures reqs == R.Requests(buckets[..]) && errs == R.Errors(buckets[..])
    {
      reqs, errs := 0, 0;
      for i := 0 to buckets.Length
        invariant reqs == R.Requests(buckets[..i]) && errs == R.Errors(buckets[..i])
      {
        assert buckets[..i + 1][..i] == buckets[..i];
        reqs, errs := reqs + buckets[i].requests, errs + buckets[i].errors;
      }
      assert buckets[..buckets.Length] == buckets[..];
    }

    method Allow(now: nat, draw: real) returns (ok: bool)
      requires Valid()
      modifies this, buckets
      ensures Valid() && (Fields(), ok) == AllowSpec(cfg, old(Fields()), now, draw)
    {
      if shut {
        return false;
      }
      lastRotate := R.RotateInPlace(buckets, now, lastRotate, bucketLength);
      var reqs, errs := Stats();
      var accept := 1.0;
      if reqs > 0 {
        accept := Ratio(cfg.k, reqs, errs);
      }
      if accept < 0.0 {
        accept := 0.0;
      }
      if accept >= 1.0 {
        return true;
      }
      return draw < accept;
    }

    method Mark(now: nat, failed: bool)
      requires Valid()
      modifies this, buckets
      ensures Valid() && Fields() == MarkSpec(cfg, old(Fields()), now, failed)
    {
      lastRotate := R.RotateInPlace(buckets, now, lastRotate, bucketLength);
      var i := (now / bucketLength) % buckets.Length;
      buckets[i] := R.Hit(buckets[i], failed);
    }

    method State() returns (st: Phase)
      requires Valid()
      ensures st == Reported(cfg.k, buckets[..])
    {
      var reqs, errs := Stats();
      if reqs == 0 {
        return Closed;
      }
      var accept := Ratio(cfg.k, reqs, errs);
      if accept <= 0.0 {
        return Open;
      }
      if accept < 1.0 {
        return HalfOpen;
      }
      return Closed;
    }
  }

  // ------------------------------------------------------------------------
  // The acceptance formula
  // ------------------------------------------------------------------------

  lemma {:induction false} ScaleOrder(x: real, y: real, m: real)
    requires m > 0.0
    ensures x <= y <==> x * m <= y * m
  {
    if x <= y {
      assert (y - x) * m >= 0.0;
    } else {
      assert (x - y) * m > 0.0;
    }
  }

  /** Comparing two acceptance ratios is comparing cross products. */
  lemma {:induction false} RatioOrder(k: real, r: nat, e: nat, k': real, r': nat, e': nat)
    ensures Ratio(k, r, e) <= Ratio(k', r', e') <==>
            (r as real - k * e as real) * (r' as real + 1.0) <= (r' as real - k' * e' as real) * (r as real + 1.0)
  {
    var b, d := r as real + 1.0, r' as real + 1.0;
    var x, y := Ratio(k, r, e), Ratio(k', r', e');
    assert x * b == r as real - k * e as real && y * d == r' as real - k' * e' as real;
    assert (x * b) * d == x * (b * d) && (y * d) * b == y * (b * d);
    ScaleOrder(x, y, b * d);
  }

  lemma {:induction false} RatioSign(k: real, r: nat, e: nat)
    ensures Ratio(k, r, e) <= 0.0 <==> r as real <= k * e as real
    ensures k >= 0.0 ==> Ratio(k, r, e) < 1.0
  {
    var b, x := r as real + 1.0, Ratio(k, r, e);
    assert x * b == r as real - k * e as real;
    ScaleOrder(x, 0.0, b);
    ScaleOrder(1.0, x, b);
    if k >= 0.0 {
      assert k * e as real >= 0.0;
    }
  }

  /** On a non-empty window the acceptance lies in [0, 1); it is 0 exactly when requests do not
      exceed K times errors, which is exactly when `State` reports Open on the same buckets. */
  lemma {:induction false} AcceptanceRange(k: real, ring: seq<R.Bucket>)
    requires k > 0.0 && R.Requests(ring) > 0
    ensures 0.0 <= AcceptOf(k, ring) < 1.0
    ensures AcceptOf(k, ring) == 0.0 <==> R.Requests(ring) as real <= k * R.Errors(ring) as real
    ensures AcceptOf(k, ring) == 0.0 <==> Reported(k, ring) == Open
    ensures Reported(k, ring) != Closed
  {
    RatioSign(k, R.Requests(ring), R.Errors(ring));
  }

  /** The draw is one the acceptance of `r` requests and `e` errors admits. */
  predicate Drawn(k: real, r: nat, e: nat, draw: real)
  {
    r == 0 || draw * (r as real + 1.0) < r as real - k * e as real
  }

  lemma {:induction false} DrawDecides(k: real, r: nat, e: nat, draw: real)
    requires k > 0.0 && 0.0 <= draw < 1.0
    ensures Accept(k, r, e) >= 1.0 || draw < Accept(k, r, e) <==> Drawn(k, r, e, draw)
  {
    if r > 0 {
      DrawBelow(k, r, e, draw);
    }
  }

  /** Who is let through: nobody once the breaker is shut; everybody on an empty window; and otherwise
      exactly the draws below the acceptance, that is those with
      `draw * (requests + 1) < requests - K * errors`. */
  lemma {:induction false} AllowDecides(c: Config, s: Core, now: nat, draw: real)
    requires c.Valid() && |s.ring| > 0 && 0.0 <= draw < 1.0
    ensures var (s', ok) := AllowSpec(c, s, now, draw);
            && (s.shut ==> !ok && s' == s)
            && (!s.shut ==> (ok <==> Drawn(c.k, R.Requests(s'.ring), R.Errors(s'.ring), draw)))
  {
    if !s.shut {
      var ring := RotateSpec(c, s, now).ring;
      DrawDecides(c.k, R.Requests(ring), R.Errors(ring), draw);
    }
  }

  lemma {:induction false} DrawBelow(k: real, r: nat, e: nat, draw: real)
    requires k > 0.0 && 0.0 <= draw < 1.0 && r > 0
    ensures Accept(k, r, e) < 1.0
    ensures draw < Accept(k, r, e) <==> draw * (r as real + 1.0) < r as real - k * e as real
  {
    var b, x := r as real + 1.0, Ratio(k, r, e);
    RatioSign(k, r, e);
    assert x * b == r as real - k * e as real;
    ScaleOrder(x, draw, b);
  }

  /** What `State` reports: Closed exactly on an empty window, Open exactly when requests do not exceed
      K times errors. */
  lemma {:induction false} ReportMeans(k: real, ring: seq<R.Bucket>)
    requires k > 0.0
    ensures Reported(k, ring) == Closed <==> R.Requests(ring) == 0
    ensures Reported(k, ring) == Open <==> R.Requests(ring) > 0 && R.Requests(ring) as real <= k * R.Errors(ring) as real
  {
    RatioSign(k, R.Requests(ring), R.Errors(ring));
  }

  lemma {:induction false} SuccessRaises(k: real, r: nat, e: nat)
    requires k > 0.0 && r > 0
    ensures Accept(k, r, e) <= Accept(k, r + 1, e)
  {
    var a, n := r as real - k * e as real, r as real;
    assert k * e as real >= 0.0;
    assert a * (n + 2.0) <= (a + 1.0) * (n + 1.0);
    RatioOrder(k, r, e, k, r + 1, e);
  }

  lemma ClampOrder(x: real, y: real)
    ensures Clamp(x) <= Clamp(y) <==> x <= 0.0 || x <= y
  {
  }

  lemma {:induction false} FailureCross(a: real, k: real, n: real)
    ensures (a + 1.0 - k) * (n + 1.0) <= a * (n + 2.0) <==> (1.0 - k) * (n + 1.0) <= a
  {
    assert (a + 1.0 - k) * (n + 1.0) == a * (n + 1.0) + (1.0 - k) * (n + 1.0);
    assert a * (n + 2.0) == a * (n + 1.0) + a;
  }

  lemma {:induction false} FailureOrder(k: real, r: nat, e: nat)
    ensures Ratio(k, r + 1, e + 1) <= Ratio(k, r, e) <==>
            (1.0 - k) * (r as real + 1.0) <= r as real - k * e as real
  {
    var a, n := r as real - k * e as real, r as real;
    assert k * (e + 1) as real == k * e as real + k;
    RatioOrder(k, r + 1, e + 1, k, r, e);
    FailureCross(a, k, n);
  }

  lemma {:induction false} LenientHalf(a: real, k: real, n: real)
    requires k >= 1.0 && n >= 0.0
    ensures a + 1.0 - k <= 0.0 || (1.0 - k) * (n + 1.0) <= a
  {
    ScaleOrder(1.0 - k, 0.0, n + 1.0);
  }

  /** A failure does not raise the acceptance exactly when it leaves it at zero or
      `(1 - K) * (requests + 1) <= requests - K * errors`; for `K >= 1` that is always. */
  lemma {:induction false} FailureLowersIff(k: real, r: nat, e: nat)
    requires k > 0.0 && r > 0
    ensures Accept(k, r + 1, e + 1) <= Accept(k, r, e) <==>
            || r as real + 1.0 <= k * (e + 1) as real
            || (1.0 - k) * (r as real + 1.0) <= r as real - k * e as real
    ensures k >= 1.0 ==> Accept(k, r + 1, e + 1) <= Accept(k, r, e)
  {
    ClampOrder(Ratio(k, r + 1, e + 1), Ratio(k, r, e));
    RatioSign(k, r + 1, e + 1);
    FailureOrder(k, r, e);
    if k >= 1.0 {
      assert k * (e + 1) as real == k * e as real + k;
      LenientHalf(r as real - k * e as real, k, r as real);
    }
  }

  /** Raising K never raises the acceptance, so a higher K is the more aggressive setting. */
  lemma {:induction false} HigherKIsStricter(k: real, k': real, r: nat, e: nat)
    requires 0.0 < k <= k'
    ensures Accept(k', r, e) <= Accept(k, r, e)
  {
    assert k * e as real <= k' * e as real;
    var b := r as real + 1.0;
    assert (r as real - k' * e as real) * b <= (r as real - k * e as real) * b;
    RatioOrder(k', r, e, k, r, e);
  }

  /** With no rotation on a non-empty window, recording a success never lowers the acceptance and,
      for `K >= 1`, recording a failure never raises it. */
  lemma {:induction false} MarkMovesAcceptance(c: Config, s: Core, now: nat, failed: bool)
    requires c.Valid() && |s.ring| > 0
    requires R.Steps(now, s.lastRotate, c.BucketLength()) <= 0 && R.Requests(s.ring) > 0
    ensures !failed ==> AcceptOf(c.k, s.ring) <= AcceptOf(c.k, MarkSpec(c, s, now, failed).ring)
    ensures failed && c.k >= 1.0 ==> AcceptOf(c.k, MarkSpec(c, s, now, failed).ring) <= AcceptOf(c.k, s.ring)
  {
    var i := (now / c.BucketLength()) % |s.ring|;
    R.TotalsOfUpdate(s.ring, i, R.Hit(s.ring[i], failed));
    if failed {
      FailureLowersIff(c.k, R.Requests(s.ring), R.Errors(s.ring));
    } else {
      SuccessRaises(c.k, R.Requests(s.ring), R.Errors(s.ring));
    }
  }

  /** For `K < 1` a failure can raise the acceptance: one failure out of one request at K = 1/2. */
  lemma {:induction false} FailureCanRaise()
    ensures Accept(0.5, 2, 2) > Accept(0.5, 1, 1)
  {
    assert Ratio(0.5, 2, 2) == 1.0 / 3.0 && Ratio(0.5, 1, 1) == 0.25;
  }

  // ------------------------------------------------------------------------
  // Runs
  // ------------------------------------------------------------------------

  datatype Event = Allow(now: nat, draw: real) | Mark(now: nat, failed: bool) | Close

  function Step(c: Config, s: Core, e: Event): (s': Core)
    requires c.Valid() && |s.ring| > 0
    ensures |s'.ring| == |s.ring|
  {
    match e
    case Allow(now, draw) => AllowSpec(c, s, now, draw).0
    case Mark(now, failed) => MarkSpec(c, s, now, failed)
    case Close => s.(shut := true)
  }

  function Run(c: Config, s: Core, es: seq<Event>): (s': Core)
    requires c.Valid() && |s.ring| > 0
    ensures |s'.ring| == |s.ring|
  {
    if |es| == 0 then s else Step(c, Run(c, s, es[..|es| - 1]), es[|es| - 1])
  }

  function Fresh(c: Config, now: nat): Core
  {
    Core(seq(c.bucketCount, _ => R.EMPTY), now, false)
  }

  predicate Shut(es: seq<Event>)
  {
    |es| > 0 && (es[|es| - 1].Close? || Shut(es[..|es| - 1]))
  }

  /** What event `e` does to the ring: nothing when it is a Close, or an Allow after one. */
  function RingOp(e: Event, shut: bool): seq<R.Op>
  {
    match e
    case Allow(now, _) => if shut then [] else [R.Touch(now)]
    case Mark(now, failed) => [R.Record(now, failed)]
    case Close => []
  }

  function RingOps(es: seq<Event>): seq<R.Op>
  {
    if |es| == 0 then []
    else
      var pre := es[..|es| - 1];
      RingOps(pre) + RingOp(es[|es| - 1], Shut(pre))
  }

  predicate SameRing(s: Core, r: R.State)
  {
    s.ring == r.ring && s.lastRotate == r.last
  }

  lemma StepDrivesRing(c: Config, s: Core, r: R.State, e: Event)
    requires c.Valid() && |s.ring| > 0 && SameRing(s, r)
    ensures Step(c, s, e).shut == (s.shut || e.Close?)
    ensures var ops := RingOp(e, s.shut);
            SameRing(Step(c, s, e), if ops == [] then r else R.Apply(r, ops[0], c.BucketLength()))
  {
  }

  /** Any run, closed or not, drives its ring through the operations of the bucket ring. */
  lemma {:induction false} RunDrivesRing(c: Config, start: nat, es: seq<Event>)
    requires c.Valid()
    ensures Run(c, Fresh(c, start), es).shut == Shut(es)
    ensures SameRing(Run(c, Fresh(c, start), es), R.Run(R.Fresh(c.bucketCount, start), RingOps(es), c.BucketLength()))
  {
    if |es| > 0 {
      var pre, e := es[..|es| - 1], es[|es| - 1];
      RunDrivesRing(c, start, pre);
      var ops := RingOp(e, Shut(pre));
      if ops == [] {
        assert RingOps(es) == RingOps(pre);
      } else {
        assert RingOps(es)[..|RingOps(es)| - 1] == RingOps(pre);
      }
      StepDrivesRing(c, Run(c, Fresh(c, start), pre),
                     R.Run(R.Fresh(c.bucketCount, start), RingOps(pre), c.BucketLength()), e);
    }
  }

  /** The acceptance of `ring` is the documented formula of the outcomes of the last `|ring|` slots
      ending at slot `slot`. */
  predicate AcceptsWindow(k: real, ring: seq<R.Bucket>, slot: nat, history: seq<R.Outcome>)
  {
    var w := R.Within(history, slot - |ring|, slot);
    AcceptOf(k, ring) == Accept(k, w.requests, w.errors)
  }

  lemma ExactTotalsAccept(k: real, h: seq<R.Outcome>, ring: seq<R.Bucket>, slot: nat)
    requires R.TotalsExact(h, ring, slot)
    ensures AcceptsWindow(k, ring, slot, h)
  {
  }

  /** In every run of clean ring operations, which are exactly those that keep the totals exact at
      every call, the acceptance is the documented formula of exactly the outcomes recorded in the
      last `bucketCount` slots ending at the latest call's. */
  lemma {:induction false} AcceptanceOfWindow(c: Config, start: nat, es: seq<Event>)
    requires c.Valid() && R.Forward(start, RingOps(es))
    ensures var r0 := R.Fresh(c.bucketCount, start);
            && (R.AlwaysExact(r0, start, RingOps(es), c.BucketLength()) <==>
                R.CleanRun(r0, start, RingOps(es), c.BucketLength()))
            && (R.CleanRun(r0, start, RingOps(es), c.BucketLength()) ==>
                  var h := R.Run(r0, RingOps(es), c.BucketLength()).history;
                  AcceptsWindow(c.k, Run(c, Fresh(c, start), es).ring,
                                R.Slot(R.Now(start, RingOps(es)), c.BucketLength()), h))
  {
    var r0, ops, d := R.Fresh(c.bucketCount, start), RingOps(es), c.BucketLength();
    RunDrivesRing(c, start, es);
    R.FreshIsReady(c.bucketCount, start, d);
    R.SlidingWindowIff(r0, start, ops, d);
    if R.CleanRun(r0, start, ops, d) {
      var r := R.Run(r0, ops, d);
      ExactTotalsAccept(c.k, r.history, r.ring, R.Slot(R.Now(start, ops), d));
    }
  }
}
