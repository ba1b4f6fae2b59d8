/** The ring of time buckets shared by the Hystrix and SRE circuit breakers.

    Time is cut into absolute slots of length `d`; slot `s` lives at ring position `s % n`.
    `Rotate` is called before every write and forgets positions that are about to be reused.
  */
module Ring {
  import opened Common

  datatype Bucket = Bucket(requests: nat, errors: nat)

  const EMPTY := Bucket(0, 0)

  /** The absolute slot of a time. */
  function Slot(t: nat, d: nat): nat
    requires d > 0
  {
    t / d
  }

  /** Go's integer division truncates toward zero, so a clock behind `last` gives no positive step. */
  function Steps(now: nat, last: nat, d: nat): int
    requires d > 0
  {
    if now >= last then (now - last) / d else -((last - now) / d)
  }

  /** How many slots ring position `i` lies behind absolute slot `s`. */
  function Behind(s: int, i: int, n: nat): (r: nat)
    requires n > 0
    ensures r < n
  {
    (s - i) % n
  }

  /** The ring after a rotation at time `now`, as a function of the ring before. */
  function Rotate(b: seq<Bucket>, now: nat, last: nat, d: nat): (r: seq<Bucket>)
    requires d > 0 && |b| > 0
    ensures |r| == |b|
  {
    Sweep(b, Slot(now, d), Steps(now, last, d))
  }

  /** The ring after clearing the `steps` consecutive slots ending at slot `c`. */
  function Sweep(b: seq<Bucket>, c: nat, steps: int): (r: seq<Bucket>)
    requires |b| > 0
    ensures |r| == |b|
  {
    if steps <= 0 then b
    else if steps >= |b| then seq(|b|, _ => EMPTY)
    else seq(|b|, i requires 0 <= i < |b| => if Behind(c, i, |b|) < steps then EMPTY else b[i])
  }

  /** The new value of `lastRotate`. */
  function Rotated(now: nat, last: nat, d: nat): nat
    requires d > 0
  {
    if Steps(now, last, d) <= 0 then last else now
  }

  // ------------------------------------------------------------------------
  // Modular arithmetic
  // ------------------------------------------------------------------------

  /** Two slots less than a full turn apart never share a ring position. */
  lemma {:induction false} SamePosition(a: int, b: int, n: nat)
    requires n > 0 && a % n == b % n && -(n as int) < a - b < n
    ensures a == b
  {
    var qa, qb := a / n, b / n;
    assert a == qa * n + a % n && b == qb * n + b % n;
    assert (qa + 1) * n == qa * n + n && (qb + 1) * n == qb * n + n;
    MulCancel(qa, qb + 1, n);
    MulCancel(qb, qa + 1, n);
  }

  lemma {:induction false} BehindCases(s: int, i: int, n: nat)
    requires n > 0 && 0 <= i < n
    ensures Behind(s, i, n) == if s % n >= i then s % n - i else s % n - i + n
  {
    var q, r := s / n, s % n;
    assert s == q * n + r;
    if r >= i {
      assert s - i == q * n + (r - i);
      Quotient(s - i, q, r - i, n);
    } else {
      assert s - i == (q - 1) * n + (r - i + n);
      Quotient(s - i, q - 1, r - i + n, n);
    }
  }

  /** Position `i` is `e` behind slot `s` exactly when slot `s - e` lives there. */
  lemma {:induction false} BehindIsSlot(s: int, i: int, e: nat, n: nat)
    requires n > 0 && 0 <= i < n && e < n
    ensures Behind(s, i, n) == e <==> (s - e) % n == i
  {
    BehindCases(s, i, n);
    BehindCases(s, e, n);
  }

  /** The index expression of the clearing loop names the slot `steps - 1 - k` behind the current one. */
  lemma {:induction false} LoopIndex(s: nat, steps: nat, k: nat, n: nat)
    requires 0 <= k < steps < n
    ensures 0 <= (s % n - steps + k + 1 + n) % n < n
    ensures forall i :: 0 <= i < n ==> ((s % n - steps + k + 1 + n) % n == i <==> Behind(s, i, n) == steps - 1 - k)
  {
    var e := steps - 1 - k;
    var r := s % n;
    var idx := (r - e + n) % n;
    if r >= e {
      assert r - e + n == 1 * n + (r - e);
      Quotient(r - e + n, 1, r - e, n);
    } else {
      Quotient(r - e + n, 0, r - e + n, n);
    }
    forall i | 0 <= i < n
      ensures idx == i <==> Behind(s, i, n) == e
    {
      BehindCases(s, i, n);
    }
  }

  // ------------------------------------------------------------------------
  // The loop in place
  // ------------------------------------------------------------------------

  method RotateInPlace(a: array<Bucket>, now: nat, last: nat, d: nat) returns (last': nat)
    requires d > 0 && a.Length > 0
    modifies a
    ensures a[..] == Rotate(old(a[..]), now, last, d)
    ensures last' == Rotated(now, last, d)
  {
    var steps := Steps(now, last, d);
    if steps <= 0 {
      return last;
    }
    var n := a.Length;
    if steps >= n {
      for i := 0 to n
        invariant forall j :: 0 <= j < i ==> a[j] == EMPTY
      {
        a[i] := EMPTY;
      }
    } else {
      for i := 0 to steps
        invariant forall j :: 0 <= j < n ==>
                    a[j] == if steps - i <= Behind(Slot(now, d), j, n) < steps then EMPTY else old(a[j])
      {
        LoopIndex(Slot(now, d), steps, i, n);
        var idx := (Slot(now, d) % n - steps + i + 1 + n) % n;
        a[idx] := EMPTY;
      }
    }
    last' := now;
  }

  // ------------------------------------------------------------------------
  // What a rotation forgets and what it keeps
  // ------------------------------------------------------------------------

  /** A rotation is aligned when it does not skip a slot boundary in the rounding of `elapsed / d`. */
  predicate Aligned(now: nat, last: nat, d: nat)
    requires d > 0 && last <= now
  {
    last % d + (now - last) % d < d
  }

  /** The number of slots entered since `last` is the number of steps, or one more. */
  lemma {:induction false} SlotsEntered(now: nat, last: nat, d: nat)
    requires d > 0 && last <= now
    ensures Slot(now, d) - Slot(last, d) == Steps(now, last, d) + (if Aligned(now, last, d) then 0 else 1)
  {
    var q, r := Slot(last, d), last % d;
    var p, e := (now - last) / d, (now - last) % d;
    assert now == (q + p) * d + (r + e) by {
      assert last == q * d + r && now - last == p * d + e;
      assert (q + p) * d == q * d + p * d;
    }
    if r + e < d {
      Quotient(now, q + p, r + e, d);
    } else {
      assert (q + p + 1) * d == (q + p) * d + d;
      Quotient(now, q + p + 1, r + e - d, d);
    }
  }

  lemma {:induction false} LaterSlot(t: nat, now: nat, d: nat)
    requires d > 0 && t <= now
    ensures Slot(t, d) <= Slot(now, d)
  {
    SlotsEntered(now, t, d);
  }

  /** Absolute slot `a` began after `last`'s slot and no later than the current one. */
  predicate Entered(a: int, now: nat, last: nat, d: nat)
    requires d > 0
  {
    Slot(last, d) < a <= Slot(now, d)
  }

  /** Absolute slot `a` is one of the `steps` consecutive slots ending at the current one. */
  predicate Swept(a: int, now: nat, last: nat, d: nat)
    requires d > 0
  {
    Slot(now, d) - Steps(now, last, d) < a <= Slot(now, d)
  }

  /** For `steps < n` the emptied positions are exactly those of the swept slots, and the swept
      slots live at pairwise different positions; for `steps >= n` the ring is all zero. */
  lemma {:induction false} RotateClearsExactly(b: seq<Bucket>, now: nat, last: nat, d: nat, i: nat)
    requires d > 0 && i < |b| && last <= now
    ensures Rotate(b, now, last, d)[i] ==
            if exists a :: Swept(a, now, last, d) && a % |b| == i then EMPTY else b[i]
    ensures Steps(now, last, d) < |b| ==>
              forall a, a' :: Swept(a, now, last, d) && Swept(a', now, last, d) && a != a' ==> a % |b| != a' % |b|
    ensures Steps(now, last, d) >= |b| ==> Rotate(b, now, last, d) == seq(|b|, _ => EMPTY)
  {
    var n, s, k := |b|, Slot(now, d), Steps(now, last, d);
    var e := Behind(s, i, n);
    BehindIsSlot(s, i, e, n);
    if e < k {
      assert Swept(s - e, now, last, d);
    } else if exists a :: Swept(a, now, last, d) && a % n == i {
      var a :| Swept(a, now, last, d) && a % n == i;
      BehindIsSlot(s, i, s - a, n);
    }
    if k < n {
      forall a, a' | Swept(a, now, last, d) && Swept(a', now, last, d) && a != a'
        ensures a % n != a' % n
      {
        if a % n == a' % n {
          SamePosition(a, a', n);
        }
      }
    }
  }

  /** Every swept slot was entered since `last`; of the entered slots only the first can be missed. */
  lemma {:induction false} SweptWereEntered(now: nat, last: nat, d: nat, a: int)
    requires d > 0 && last <= now
    ensures Swept(a, now, last, d) ==> Entered(a, now, last, d)
    ensures Entered(a, now, last, d) && !Swept(a, now, last, d) ==> a == Slot(last, d) + 1
  {
    SlotsEntered(now, last, d);
  }

  /** All entered slots are swept exactly when the rotation is aligned. */
  lemma {:induction false} SweepsAllEnteredIff(now: nat, last: nat, d: nat)
    requires d > 0 && last <= now
    ensures (forall a :: Entered(a, now, last, d) ==> Swept(a, now, last, d)) <==> Aligned(now, last, d)
  {
    SlotsEntered(now, last, d);
    if !Aligned(now, last, d) {
      assert Entered(Slot(last, d) + 1, now, last, d) && !Swept(Slot(last, d) + 1, now, last, d);
    }
  }

  /** A slot no later than `last`'s and still within the last `n` slots keeps its counts. */
  lemma {:induction false} RecentSurvives(b: seq<Bucket>, now: nat, last: nat, d: nat, a: int)
    requires d > 0 && |b| > 0 && last <= now
    requires Slot(now, d) - |b| < a <= Slot(last, d)
    ensures Rotate(b, now, last, d)[a % |b|] == b[a % |b|]
  {
    SlotsEntered(now, last, d);
    var n, s := |b|, Slot(now, d);
    BehindIsSlot(s, a % n, s - a, n);
  }

  // ------------------------------------------------------------------------
  // Totals and conservation
  // ------------------------------------------------------------------------

  function Requests(b: seq<Bucket>): nat
  {
    if |b| == 0 then 0 else Requests(b[..|b| - 1]) + b[|b| - 1].requests
  }

  function Errors(b: seq<Bucket>): nat
  {
    if |b| == 0 then 0 else Errors(b[..|b| - 1]) + b[|b| - 1].errors
  }

  /** What a change from `b` to `b'` threw away, position by position. */
  function Dropped(b: seq<Bucket>, b': seq<Bucket>): (r: seq<Bucket>)
    requires |b| == |b'|
    ensures |r| == |b|
  {
    seq(|b|, i requires 0 <= i < |b| => if b'[i] == EMPTY then b[i] else EMPTY)
  }

  /** A ring in which some positions were emptied and the others left alone. */
  predicate Thinned(b: seq<Bucket>, b': seq<Bucket>)
  {
    |b| == |b'| && forall i :: 0 <= i < |b| ==> b'[i] == b[i] || b'[i] == EMPTY
  }

  lemma {:induction false} ThinningConserves(b: seq<Bucket>, b': seq<Bucket>)
    requires Thinned(b, b')
    ensures Requests(b') + Requests(Dropped(b, b')) == Requests(b)
    ensures Errors(b') + Errors(Dropped(b, b')) == Errors(b)
  {
    if |b| > 0 {
      var m := |b| - 1;
      assert Dropped(b, b')[..m] == Dropped(b[..m], b'[..m]);
      ThinningConserves(b[..m], b'[..m]);
    }
  }

  lemma {:induction false} TotalsOfUpdate(b: seq<Bucket>, i: nat, x: Bucket)
    requires i < |b|
    ensures Requests(b[i := x]) == Requests(b) - b[i].requests + x.requests
    ensures Errors(b[i := x]) == Errors(b) - b[i].errors + x.errors
  {
    var m := |b| - 1;
    if i == m {
      assert b[i := x][..m] == b[..m];
    } else {
      assert b[i := x][..m] == b[..m][i := x];
      TotalsOfUpdate(b[..m], i, x);
    }
  }

  lemma {:induction false} TotalsOfEmpty(b: seq<Bucket>)
    requires forall i :: 0 <= i < |b| ==> b[i] == EMPTY
    ensures Requests(b) == 0 && Errors(b) == 0
  {
    if |b| > 0 {
      TotalsOfEmpty(b[..|b| - 1]);
    }
  }

  predicate WellFormed(b: seq<Bucket>)
  {
    |b| > 0 && forall i :: 0 <= i < |b| ==> b[i].errors <= b[i].requests
  }

  lemma {:induction false} ErrorsAtMostRequests(b: seq<Bucket>)
    requires forall i :: 0 <= i < |b| ==> b[i].errors <= b[i].requests
    ensures Errors(b) <= Requests(b)
  {
    if |b| > 0 {
      ErrorsAtMostRequests(b[..|b| - 1]);
    }
  }

  function Hit(x: Bucket, failed: bool): Bucket
  {
    Bucket(x.requests + 1, x.errors + if failed then 1 else 0)
  }

  // ------------------------------------------------------------------------
  // The sliding window over whole runs
  // ------------------------------------------------------------------------

  datatype Op = Record(at: nat, failed: bool) | Touch(at: nat)

  datatype Outcome = Outcome(slot: nat, failed: bool)

  datatype State = State(ring: seq<Bucket>, last: nat, history: seq<Outcome>)

  /** One breaker operation on the ring: rotate, then perhaps count an outcome in the current slot. */
  function Apply(s: State, op: Op, d: nat): (s': State)
    requires d > 0 && |s.ring| > 0
    ensures |s'.ring| == |s.ring|
  {
    var c := Slot(op.at, d);
    State(Counted(Rotate(s.ring, op.at, s.last, d), c, op), Rotated(op.at, s.last, d), Extended(s.history, c, op))
  }

  function Counted(b: seq<Bucket>, c: nat, op: Op): (r: seq<Bucket>)
    requires |b| > 0
    ensures |r| == |b|
  {
    var i := c % |b|;
    if op.Record? then b[i := Hit(b[i], op.failed)] else b
  }

  function Extended(h: seq<Outcome>, c: nat, op: Op): seq<Outcome>
  {
    if op.Record? then h + [Outcome(c, op.failed)] else h
  }

  function Run(s: State, ops: seq<Op>, d: nat): (s': State)
    requires d > 0 && |s.ring| > 0
    ensures |s'.ring| == |s.ring|
  {
    if |ops| == 0 then s else Apply(Run(s, ops[..|ops| - 1], d), ops[|ops| - 1], d)
  }

  function Fresh(n: nat, now: nat): State
  {
    State(seq(n, _ => EMPTY), now, [])
  }

  /** The outcomes recorded in absolute slot `a`. */
  function Tally(h: seq<Outcome>, a: int): Bucket
  {
    if |h| == 0 then EMPTY
    else
      var t := Tally(h[..|h| - 1], a);
      if h[|h| - 1].slot == a then Hit(t, h[|h| - 1].failed) else t
  }

  lemma {:induction false} TallyOfOld(h: seq<Outcome>, a: int)
    requires forall k :: 0 <= k < |h| ==> h[k].slot != a
    ensures Tally(h, a) == EMPTY
  {
    if |h| > 0 {
      TallyOfOld(h[..|h| - 1], a);
    }
  }

  lemma {:induction false} TallyPositive(h: seq<Outcome>, a: int)
    ensures Tally(h, a) == EMPTY || Tally(h, a).requests > 0
  {
    if |h| > 0 {
      TallyPositive(h[..|h| - 1], a);
    }
  }

  /** The outcomes recorded in slots later than `lo` and no later than `hi`. */
  function Within(h: seq<Outcome>, lo: int, hi: int): Bucket
  {
    if |h| == 0 then EMPTY
    else
      var t := Within(h[..|h| - 1], lo, hi);
      var o := h[|h| - 1];
      if lo < o.slot <= hi then Hit(t, o.failed) else t
  }

  /** The positions of the outcomes in that range, all of them or only the failures. */
  function Picked(h: seq<Outcome>, lo: int, hi: int, onlyFailed: bool): set<nat>
  {
    set k: nat | k < |h| && lo < h[k].slot <= hi && (onlyFailed ==> h[k].failed)
  }

  /** `Within` counts outcomes and failures, each once. */
  lemma {:induction false} WithinCounts(h: seq<Outcome>, lo: int, hi: int)
    ensures Within(h, lo, hi).requests == |Picked(h, lo, hi, false)|
    ensures Within(h, lo, hi).errors == |Picked(h, lo, hi, true)|
  {
    if |h| > 0 {
      WithinCounts(h[..|h| - 1], lo, hi);
      PickedStep(h, lo, hi, false);
      PickedStep(h, lo, hi, true);
    }
  }

  lemma {:induction false} PickedStep(h: seq<Outcome>, lo: int, hi: int, onlyFailed: bool)
    requires |h| > 0
    ensures var o := h[|h| - 1];
            |Picked(h, lo, hi, onlyFailed)| ==
            |Picked(h[..|h| - 1], lo, hi, onlyFailed)| + if lo < o.slot <= hi && (onlyFailed ==> o.failed) then 1 else 0
  {
    var m, o := |h| - 1, h[|h| - 1];
    var before := Picked(h[..m], lo, hi, onlyFailed);
    assert Picked(h, lo, hi, onlyFailed) ==
           if lo < o.slot <= hi && (onlyFailed ==> o.failed) then before + {m} else before;
  }

  /** The ring a true sliding window ending at slot `c` would show: every position holds exactly the
      outcomes of the one slot among the last `n` that lives there. */
  function Ideal(h: seq<Outcome>, c: nat, n: nat): (r: seq<Bucket>)
    requires n > 0
    ensures |r| == n
  {
    seq(n, i requires 0 <= i < n => Tally(h, c - Behind(c, i, n)))
  }

  lemma {:induction false} SlotAt(c: nat, a: int, i: nat, n: nat)
    requires i < n
    ensures c - Behind(c, i, n) == a <==> c - n < a <= c && i == a % n
  {
    BehindIsSlot(c, i, Behind(c, i, n), n);
    if c - n < a <= c {
      BehindIsSlot(c, i, c - a, n);
    }
  }

  lemma {:induction false} IdealAt(h: seq<Outcome>, c: nat, n: nat, a: int)
    requires n > 0 && c - n < a <= c
    ensures Ideal(h, c, n)[a % n] == Tally(h, a)
  {
    SlotAt(c, a, a % n, n);
  }

  lemma {:induction false} IdealStep(pre: seq<Outcome>, o: Outcome, c: nat, n: nat)
    requires n > 0
    ensures var before, p := Ideal(pre, c, n), o.slot % n;
            Ideal(pre + [o], c, n) ==
            if c - n < o.slot <= c then before[p := Hit(before[p], o.failed)] else before
  {
    assert (pre + [o])[..|pre|] == pre;
    forall i | 0 <= i < n
      ensures c - Behind(c, i, n) == o.slot <==> c - n < o.slot <= c && i == o.slot % n
    {
      SlotAt(c, o.slot, i, n);
    }
  }

  /** One more outcome adds one hit to the totals if it lies in the window. */
  lemma {:induction false} IdealTotalsStep(pre: seq<Outcome>, o: Outcome, c: nat, n: nat)
    requires n > 0
    ensures var b, b', inside := Ideal(pre, c, n), Ideal(pre + [o], c, n), c - n < o.slot <= c;
            && Requests(b') == Requests(b) + (if inside then 1 else 0)
            && Errors(b') == Errors(b) + (if inside && o.failed then 1 else 0)
  {
    IdealStep(pre, o, c, n);
    var before, p := Ideal(pre, c, n), o.slot % n;
    TotalsOfUpdate(before, p, Hit(before[p], o.failed));
  }

  lemma {:induction false} IdealTotals(h: seq<Outcome>, c: nat, n: nat)
    requires n > 0
    ensures Requests(Ideal(h, c, n)) == Within(h, c - n, c).requests
    ensures Errors(Ideal(h, c, n)) == Within(h, c - n, c).errors
  {
    if |h| == 0 {
      TotalsOfEmpty(Ideal(h, c, n));
    } else {
      var pre, o := h[..|h| - 1], h[|h| - 1];
      IdealTotals(pre, c, n);
      IdealTotalsStep(pre, o, c, n);
      assert pre + [o] == h;
    }
  }

  /** The history goes up to slot `c`, and the ring is its true sliding window ending there. */
  ghost predicate Window(h: seq<Outcome>, b: seq<Bucket>, c: nat)
    requires |b| > 0
  {
    (forall k :: 0 <= k < |h| ==> h[k].slot <= c) && b == Ideal(h, c, |b|)
  }

  /** The ring's totals are the outcomes recorded in the last `n` slots ending at slot `c`. */
  predicate TotalsExact(h: seq<Outcome>, b: seq<Bucket>, c: nat)
  {
    var w := Within(h, c - |b|, c);
    Requests(b) == w.requests && Errors(b) == w.errors
  }

  // ------------------------------------------------------------------------
  // When one operation keeps the window
  // ------------------------------------------------------------------------

  /** The latest call was at time `t`, and it left nothing to rotate. */
  predicate Latest(s: State, t: nat, d: nat)
    requires d > 0
  {
    s.last <= t && Steps(t, s.last, d) == 0
  }

  /** What an operation at `now` must meet, `t` being the time of the call before it. */
  predicate Clean(s: State, t: nat, now: nat, d: nat)
    requires d > 0 && |s.ring| > 0
  {
    CleanSweep(s.ring, Slot(s.last, d), Slot(t, d), Slot(now, d), Steps(now, s.last, d))
  }

  /** The same in slots: `l` is `lastRotate`'s slot, `c` that of the call before, `c'` the current one.
      Trouble comes only from slot `l + 1`, and only if its position is not empty. Without a rotation
      the window must not move into that slot. A rotation misses the slot when misaligned, that is
      when `c' - l != steps`, which leaves stale counts unless it clears the whole ring; but if calls
      were already made in that slot, an aligned rotation wipes their counts, unless the slot has
      left the window. */
  predicate CleanSweep(b: seq<Bucket>, l: nat, c: nat, c': nat, steps: int)
    requires |b| > 0
  {
    || b[(l + 1) % |b|] == EMPTY
    || if steps == 0 then c' == c
       else if c == l then c' - l == steps || steps >= |b|
       else c' - l != steps || steps > |b|
  }

  /** The slots are in order and the steps miss at most one boundary. */
  predicate Paced(l: nat, c: nat, c': nat, steps: int)
  {
    l <= c <= l + 1 && c <= c' && 0 <= steps <= c' - l <= steps + 1
  }

  lemma {:induction false} LatestPaced(s: State, t: nat, now: nat, d: nat)
    requires d > 0 && Latest(s, t, d) && t <= now
    ensures Paced(Slot(s.last, d), Slot(t, d), Slot(now, d), Steps(now, s.last, d))
  {
    SlotsEntered(t, s.last, d);
    SlotsEntered(now, s.last, d);
    LaterSlot(t, now, d);
    LaterSlot(s.last, now, d);
  }

  lemma {:induction false} SweepAt(b: seq<Bucket>, c: nat, steps: int, a: int)
    requires |b| > 0 && c - |b| < a <= c
    ensures Sweep(b, c, steps)[a % |b|] ==
            if steps > 0 && (steps >= |b| || c - a < steps) then EMPTY else b[a % |b|]
  {
    BehindIsSlot(c, a % |b|, c - a, |b|);
  }

  lemma {:induction false} PlainSlot(h: seq<Outcome>, b: seq<Bucket>, l: nat, c: nat, c': nat, steps: int, a: int)
    requires |b| > 0 && Paced(l, c, c', steps) && Window(h, b, c)
    requires c' - |b| < a <= c' && a != l + 1
    ensures Sweep(b, c', steps)[a % |b|] == Tally(h, a)
  {
    SweepAt(b, c', steps, a);
    if a <= l {
      IdealAt(h, c, |b|, a);
    } else {
      TallyOfOld(h, a);
    }
  }

  lemma {:induction false} SamePlace(a: int, n: nat)
    requires n > 0
    ensures (a - n) % n == a % n
  {
    var q, r := a / n, a % n;
    assert a == q * n + r;
    assert a - n == (q - 1) * n + r;
    Quotient(a - n, q - 1, r, n);
  }

  /** What slot `l + 1`'s position held before the operation. */
  lemma {:induction false} EdgeBefore(h: seq<Outcome>, b: seq<Bucket>, l: nat, c: nat)
    requires |b| > 0 && l <= c <= l + 1 && Window(h, b, c)
    ensures c == l ==> Tally(h, l + 1) == EMPTY
    ensures c == l + 1 ==> b[(l + 1) % |b|] == Tally(h, l + 1)
    ensures b[(l + 1) % |b|] == EMPTY || b[(l + 1) % |b|].requests > 0
  {
    var n, a := |b|, l + 1;
    if c == l {
      TallyOfOld(h, a);
      SamePlace(a, n);
      IdealAt(h, c, n, a - n);
      TallyPositive(h, a - n);
    } else {
      IdealAt(h, c, n, a);
      TallyPositive(h, a);
    }
  }

  lemma {:induction false} EdgeSlot(h: seq<Outcome>, b: seq<Bucket>, l: nat, c: nat, c': nat, steps: int)
    requires |b| > 0 && Paced(l, c, c', steps) && Window(h, b, c)
    requires c' - |b| < l + 1 <= c'
    ensures var x := Sweep(b, c', steps)[(l + 1) % |b|];
            if CleanSweep(b, l, c, c', steps) then x == Tally(h, l + 1) else x.requests != Tally(h, l + 1).requests
  {
    SweepAt(b, c', steps, l + 1);
    EdgeBefore(h, b, l, c);
  }

  /** `r` differs from `ideal` at most at position `p`, and if not clean in the requests counted there. */
  predicate Deviates(r: seq<Bucket>, ideal: seq<Bucket>, p: nat, clean: bool)
    requires |r| == |ideal| && p < |r|
  {
    && (forall i :: 0 <= i < |r| && i != p ==> r[i] == ideal[i])
    && if clean then r[p] == ideal[p] else r[p].requests != ideal[p].requests
  }

  lemma {:induction false} SweepPosition(h: seq<Outcome>, b: seq<Bucket>, l: nat, c: nat, c': nat, steps: int, i: nat)
    requires i < |b| && Paced(l, c, c', steps) && Window(h, b, c)
    ensures var x, y, p := Sweep(b, c', steps)[i], Ideal(h, c', |b|)[i], (l + 1) % |b|;
            if i != p || CleanSweep(b, l, c, c', steps) then x == y else x.requests != y.requests
  {
    var a := c' - Behind(c', i, |b|);
    SlotAt(c', a, i, |b|);
    SlotAt(c', l + 1, i, |b|);
    if a == l + 1 {
      EdgeSlot(h, b, l, c, c', steps);
    } else {
      PlainSlot(h, b, l, c, c', steps, a);
    }
  }

  lemma {:induction false} SweepDeviates(h: seq<Outcome>, b: seq<Bucket>, l: nat, c: nat, c': nat, steps: int)
    requires |b| > 0 && Paced(l, c, c', steps) && Window(h, b, c)
    ensures Deviates(Sweep(b, c', steps), Ideal(h, c', |b|), (l + 1) % |b|, CleanSweep(b, l, c, c', steps))
  {
    forall i | 0 <= i < |b|
      ensures var x, y, p := Sweep(b, c', steps)[i], Ideal(h, c', |b|)[i], (l + 1) % |b|;
              if i != p || CleanSweep(b, l, c, c', steps) then x == y else x.requests != y.requests
    {
      SweepPosition(h, b, l, c, c', steps, i);
    }
  }

  lemma {:induction false} CountedDeviates(h: seq<Outcome>, b: seq<Bucket>, c: nat, p: nat, clean: bool, op: Op)
    requires p < |b| && Deviates(b, Ideal(h, c, |b|), p, clean)
    ensures Deviates(Counted(b, c, op), Ideal(Extended(h, c, op), c, |b|), p, clean)
  {
    if op.Record? {
      IdealStep(h, Outcome(c, op.failed), c, |b|);
    }
  }

  lemma {:induction false} DeviationCounts(r: seq<Bucket>, ideal: seq<Bucket>, p: nat, clean: bool)
    requires |r| == |ideal| && p < |r| && Deviates(r, ideal, p, clean)
    ensures r == ideal <==> clean
    ensures Requests(r) == Requests(ideal) && Errors(r) == Errors(ideal) <==> clean
  {
    if clean {
      assert r == ideal;
    } else {
      assert r == ideal[p := r[p]];
      TotalsOfUpdate(ideal, p, r[p]);
    }
  }

  lemma {:induction false} DeviationShows(h: seq<Outcome>, b: seq<Bucket>, c: nat, p: nat, clean: bool)
    requires p < |b| && Deviates(b, Ideal(h, c, |b|), p, clean)
    requires forall k :: 0 <= k < |h| ==> h[k].slot <= c
    ensures Window(h, b, c) <==> clean
    ensures TotalsExact(h, b, c) <==> clean
  {
    DeviationCounts(b, Ideal(h, c, |b|), p, clean);
    IdealTotals(h, c, |b|);
  }

  lemma {:induction false} SweepKeepsIff(h: seq<Outcome>, b: seq<Bucket>, l: nat, c: nat, c': nat, steps: int, op: Op)
    requires |b| > 0 && Paced(l, c, c', steps) && Window(h, b, c)
    ensures var h', b' := Extended(h, c', op), Counted(Sweep(b, c', steps), c', op);
            && (Window(h', b', c') <==> CleanSweep(b, l, c, c', steps))
            && (TotalsExact(h', b', c') <==> CleanSweep(b, l, c, c', steps))
  {
    var r, p, clean := Sweep(b, c', steps), (l + 1) % |b|, CleanSweep(b, l, c, c', steps);
    SweepDeviates(h, b, l, c, c', steps);
    CountedDeviates(h, r, c', p, clean, op);
    DeviationShows(Extended(h, c', op), Counted(r, c', op), c', p, clean);
  }

  /** From a true sliding window, one operation gives a true sliding window ending at its own slot,
      and exact totals, if and only if it is clean. */
  lemma {:induction false} WindowKeptIff(s: State, t: nat, op: Op, d: nat)
    requires d > 0 && |s.ring| > 0 && Latest(s, t, d) && t <= op.at && Window(s.history, s.ring, Slot(t, d))
    ensures var s' := Apply(s, op, d);
            && (Window(s'.history, s'.ring, Slot(op.at, d)) <==> Clean(s, t, op.at, d))
            && (TotalsExact(s'.history, s'.ring, Slot(op.at, d)) <==> Clean(s, t, op.at, d))
  {
    LatestPaced(s, t, op.at, d);
    var c, steps := Slot(op.at, d), Steps(op.at, s.last, d);
    SweepKeepsIff(s.history, s.ring, Slot(s.last, d), Slot(t, d), c, steps, op);
    assert Apply(s, op, d).ring == Counted(Sweep(s.ring, c, steps), c, op);
    assert Apply(s, op, d).history == Extended(s.history, c, op);
  }

  lemma {:induction false} RotatedIsLatest(now: nat, last: nat, d: nat)
    requires d > 0 && last <= now
    ensures Rotated(now, last, d) <= now && Steps(now, Rotated(now, last, d), d) == 0
  {
    Quotient(0, 0, 0, d);
    SlotsEntered(now, last, d);
    LaterSlot(last, now, d);
  }

  lemma {:induction false} LatestKept(s: State, t: nat, op: Op, d: nat)
    requires d > 0 && |s.ring| > 0 && Latest(s, t, d) && t <= op.at
    ensures Latest(Apply(s, op, d), op.at, d)
  {
    RotatedIsLatest(op.at, s.last, d);
  }

  // ------------------------------------------------------------------------
  // The sliding window over whole runs
  // ------------------------------------------------------------------------

  /** The time of the latest call. */
  function Now(t: nat, ops: seq<Op>): nat
  {
    if |ops| == 0 then t else ops[|ops| - 1].at
  }

  /** The clock never runs backwards. */
  predicate Forward(t: nat, ops: seq<Op>)
  {
    |ops| == 0 || (Forward(t, ops[..|ops| - 1]) && Now(t, ops[..|ops| - 1]) <= ops[|ops| - 1].at)
  }

  predicate CleanStep(s0: State, t: nat, ops: seq<Op>, op: Op, d: nat)
    requires d > 0 && |s0.ring| > 0
  {
    var s := Run(s0, ops, d);
    s.last <= op.at && Clean(s, Now(t, ops), op.at, d)
  }

  /** Every operation of the run, which starts from `s0` after a call at `t`, is clean at its moment. */
  predicate CleanRun(s0: State, t: nat, ops: seq<Op>, d: nat)
    requires d > 0 && |s0.ring| > 0
  {
    |ops| == 0 ||
    (CleanRun(s0, t, ops[..|ops| - 1], d) && CleanStep(s0, t, ops[..|ops| - 1], ops[|ops| - 1], d))
  }

  /** At the start and after every operation the ring is a true sliding window. */
  ghost predicate AlwaysWindow(s0: State, t: nat, ops: seq<Op>, d: nat)
    requires d > 0 && |s0.ring| > 0
  {
    && (var s := Run(s0, ops, d); Window(s.history, s.ring, Slot(Now(t, ops), d)))
    && (|ops| == 0 || AlwaysWindow(s0, t, ops[..|ops| - 1], d))
  }

  /** At the start and after every operation the totals are those of the last `n` slots. */
  predicate AlwaysExact(s0: State, t: nat, ops: seq<Op>, d: nat)
    requires d > 0 && |s0.ring| > 0
  {
    && (var s := Run(s0, ops, d); TotalsExact(s.history, s.ring, Slot(Now(t, ops), d)))
    && (|ops| == 0 || AlwaysExact(s0, t, ops[..|ops| - 1], d))
  }

  /** A ring that shows its history, with nothing left to rotate at time `t`. */
  ghost predicate Ready(s: State, t: nat, d: nat)
    requires d > 0 && |s.ring| > 0
  {
    Latest(s, t, d) && Window(s.history, s.ring, Slot(t, d))
  }

  /** An empty ring without a history is ready, whether it is new or was reset. */
  lemma {:induction false} EmptyIsReady(s: State, t: nat, d: nat)
    requires d > 0 && |s.ring| > 0 && s.history == [] && s.ring == seq(|s.ring|, _ => EMPTY) && Latest(s, t, d)
    ensures Ready(s, t, d)
  {
    assert s.ring == Ideal([], Slot(t, d), |s.ring|);
  }

  lemma {:induction false} FreshIsReady(n: nat, start: nat, d: nat)
    requires d > 0 && n > 0
    ensures Ready(Fresh(n, start), start, d)
  {
    Quotient(0, 0, 0, d);
    EmptyIsReady(Fresh(n, start), start, d);
  }

  lemma {:induction false} RunLatest(s0: State, t: nat, ops: seq<Op>, d: nat)
    requires d > 0 && |s0.ring| > 0 && Latest(s0, t, d) && Forward(t, ops)
    ensures Latest(Run(s0, ops, d), Now(t, ops), d)
  {
    if |ops| > 0 {
      var pre := ops[..|ops| - 1];
      RunLatest(s0, t, pre, d);
      LatestKept(Run(s0, pre, d), Now(t, pre), ops[|ops| - 1], d);
    }
  }

  lemma {:induction false} ReadyIsExact(s0: State, t: nat, d: nat)
    requires d > 0 && |s0.ring| > 0 && Ready(s0, t, d)
    ensures TotalsExact(s0.history, s0.ring, Slot(t, d))
  {
    IdealTotals(s0.history, Slot(t, d), |s0.ring|);
  }

  /** Over every run from a ready ring whose clock does not run backwards: the ring is a true sliding
      window at every call, and its totals are exact at every call, if and only if every operation is
      clean. */
  lemma {:induction false} SlidingWindowIff(s0: State, t: nat, ops: seq<Op>, d: nat)
    requires d > 0 && |s0.ring| > 0 && Ready(s0, t, d) && Forward(t, ops)
    ensures AlwaysWindow(s0, t, ops, d) <==> CleanRun(s0, t, ops, d)
    ensures AlwaysExact(s0, t, ops, d) <==> CleanRun(s0, t, ops, d)
  {
    if |ops| == 0 {
      ReadyIsExact(s0, t, d);
    } else {
      var pre, op := ops[..|ops| - 1], ops[|ops| - 1];
      SlidingWindowIff(s0, t, pre, d);
      if CleanRun(s0, t, pre, d) {
        AlwaysNow(s0, t, pre, d);
        RunLatest(s0, t, pre, d);
        WindowKeptIff(Run(s0, pre, d), Now(t, pre), op, d);
      }
    }
  }

  lemma AlwaysNow(s0: State, t: nat, ops: seq<Op>, d: nat)
    requires d > 0 && |s0.ring| > 0 && AlwaysWindow(s0, t, ops, d)
    ensures var s := Run(s0, ops, d); Window(s.history, s.ring, Slot(Now(t, ops), d))
  {
  }

  // ------------------------------------------------------------------------
  // What a position counts in every run, clean or not
  // ------------------------------------------------------------------------

  /** An operation at `now` clears position `i`. */
  predicate Clears(s: State, now: nat, d: nat, i: nat)
    requires d > 0 && i < |s.ring|
  {
    var n, steps := |s.ring|, Steps(now, s.last, d);
    steps > 0 && (steps >= n || Behind(Slot(now, d), i, n) < steps)
  }

  /** The last operation of the run that cleared position `i`, or 0 if none did. */
  function LastClear(n: nat, start: nat, ops: seq<Op>, d: nat, i: nat): (m: nat)
    requires d > 0 && i < n
    ensures m < |ops| || m == 0
  {
    if |ops| == 0 then 0
    else
      var e := |ops| - 1;
      if Clears(Run(Fresh(n, start), ops[..e], d), ops[e].at, d, i) then e
      else LastClear(n, start, ops[..e], d, i)
  }

  /** The outcomes that `ops` record at times whose slot lives at position `i`. */
  function Landed(ops: seq<Op>, i: nat, n: nat, d: nat): Bucket
    requires d > 0 && i < n
  {
    if |ops| == 0 then EMPTY
    else
      var op, x := ops[|ops| - 1], Landed(ops[..|ops| - 1], i, n, d);
      if op.Record? && (Slot(op.at, d)) % n == i then Hit(x, op.failed) else x
  }

  /** One operation at one position. */
  function Struck(x: Bucket, clears: bool, op: Op, i: nat, n: nat, d: nat): Bucket
    requires d > 0 && i < n
  {
    var y := if clears then EMPTY else x;
    if op.Record? && (Slot(op.at, d)) % n == i then Hit(y, op.failed) else y
  }

  lemma ApplyAt(s: State, op: Op, d: nat, i: nat)
    requires d > 0 && i < |s.ring|
    ensures Apply(s, op, d).ring[i] == Struck(s.ring[i], Clears(s, op.at, d, i), op, i, |s.ring|, d)
  {
  }

  lemma {:induction false} LandedFrom(ops: seq<Op>, m: nat, i: nat, n: nat, d: nat)
    requires d > 0 && i < n && m < |ops|
    ensures Landed(ops[m..], i, n, d) ==
            Struck(Landed(ops[..|ops| - 1][m..], i, n, d), false, ops[|ops| - 1], i, n, d)
  {
    assert ops[m..][..|ops[m..]| - 1] == ops[..|ops| - 1][m..];
  }

  /** Position `i` counts the outcomes that landed there from operation `m` onwards. */
  predicate CountsFrom(n: nat, start: nat, ops: seq<Op>, d: nat, i: nat, m: nat)
    requires d > 0 && i < n && m <= |ops|
  {
    Run(Fresh(n, start), ops, d).ring[i] == Landed(ops[m..], i, n, d)
  }

  lemma {:induction false} CountsStep(n: nat, start: nat, ops: seq<Op>, d: nat, i: nat, m: nat)
    requires d > 0 && i < n && m < |ops|
    requires var e := |ops| - 1;
             if Clears(Run(Fresh(n, start), ops[..e], d), ops[e].at, d, i) then m == e
             else CountsFrom(n, start, ops[..e], d, i, m)
    ensures CountsFrom(n, start, ops, d, i, m)
  {
    var e := |ops| - 1;
    ApplyAt(Run(Fresh(n, start), ops[..e], d), ops[e], d, i);
    LandedFrom(ops, m, i, n, d);
  }

  /** In every run, whatever its clock does, a position counts exactly the outcomes recorded at slots
      that live there from the last operation that cleared it (or from the start) onwards. */
  lemma {:induction false} PositionCounts(n: nat, start: nat, ops: seq<Op>, d: nat, i: nat)
    requires d > 0 && i < n
    ensures CountsFrom(n, start, ops, d, i, LastClear(n, start, ops, d, i))
  {
    if |ops| > 0 {
      PositionCounts(n, start, ops[..|ops| - 1], d, i);
      CountsStep(n, start, ops, d, i, LastClear(n, start, ops, d, i));
    }
  }

  /** A schedule of calls whose misaligned rotations always skip ring position 1 of a 3-ring. */
  function SkippingOps(turns: nat): seq<Op>
  {
    if turns == 0 then [Record(18, true)]
    else SkippingOps(turns - 1) + [Touch(30 * turns - 10), Touch(30 * turns + 9)]
  }

  /** A rotation of one step into a slot that does not live at position 1 leaves position 1 alone. */
  lemma {:induction false} OneStepAway(s: State, now: nat)
    requires |s.ring| == 3 && s.last <= now && Steps(now, s.last, 10) == 1 && Slot(now, 10) % 3 != 1
    ensures var s' := Apply(s, Touch(now), 10);
            s'.ring[1] == s.ring[1] && s'.last == now && s'.history == s.history
  {
    BehindCases(Slot(now, 10), 1, 3);
    ApplyAt(s, Touch(now), 10, 1);
  }

  /** One turn: two misaligned rotations of one step each, whose cleared positions are 2 and 0. */
  lemma {:induction false} SkippingTurn(s: State, t: nat)
    requires |s.ring| == 3 && s.last == 30 * t + 9
    ensures var s' := Apply(Apply(s, Touch(30 * t + 20), 10), Touch(30 * t + 39), 10);
            s'.ring[1] == s.ring[1] && s'.last == 30 * t + 39 && s'.history == s.history
  {
    OneStepAway(s, 30 * t + 20);
    OneStepAway(Apply(s, Touch(30 * t + 20), 10), 30 * t + 39);
  }

  lemma {:induction false} FirstFailure()
    ensures Run(Fresh(3, 9), [Record(18, true)], 10) == State([EMPTY, Bucket(1, 1), EMPTY], 9, [Outcome(1, true)])
  {
    var s := Fresh(3, 9);
    assert s.ring == [EMPTY, EMPTY, EMPTY];
    assert [Record(18, true)][..0] == [];
    assert Run(s, [Record(18, true)], 10) == Apply(s, Record(18, true), 10);
  }

  lemma {:induction false} RunTwo(s: State, ops: seq<Op>, a: Op, b: Op, d: nat)
    requires d > 0 && |s.ring| > 0
    ensures Run(s, ops + [a, b], d) == Apply(Apply(Run(s, ops, d), a, d), b, d)
  {
    var all := ops + [a, b];
    assert all[..|all| - 1] == ops + [a];
    assert (ops + [a])[..|ops|] == ops;
  }

  /** The only outcome ever recorded is that of time 18, the time is `30 * turns + 9`, and it counts. */
  predicate StillCounted(s: State, turns: nat)
  {
    |s.ring| == 3 && s.ring[1] == Bucket(1, 1) && s.last == 30 * turns + 9 && s.history == [Outcome(1, true)]
  }

  /** Without alignment the window promise fails without bound: for any number of turns there is a
      run in which an outcome recorded at time 18 is still counted more than `turns` windows later. */
  lemma {:induction false} StaleWithoutBound(turns: nat)
    ensures StillCounted(Run(Fresh(3, 9), SkippingOps(turns), 10), turns)
  {
    var s0 := Fresh(3, 9);
    if turns == 0 {
      FirstFailure();
    } else {
      StaleWithoutBound(turns - 1);
      var prev := SkippingOps(turns - 1);
      RunTwo(s0, prev, Touch(30 * turns - 10), Touch(30 * turns + 9), 10);
      SkippingTurn(Run(s0, prev, 10), turns - 1);
    }
  }

  /** The other half of the misalignment: an outcome recorded at `t` without a rotation is wiped by
      the next rotation, however soon, exactly when its slot was already a new one and that rotation
      is aligned. */
  lemma {:induction false} UnrotatedRecordSweptIff(t: nat, now: nat, last: nat, d: nat)
    requires d > 0 && last <= t <= now && Steps(t, last, d) == 0
    ensures Swept(Slot(t, d), now, last, d) <==> Slot(t, d) != Slot(last, d) && Aligned(now, last, d)
  {
    SlotsEntered(t, last, d);
    SlotsEntered(now, last, d);
    LaterSlot(t, now, d);
  }

  /** One nanosecond is enough: a failure recorded at 18 is gone at 19, still inside its own slot. */
  lemma {:induction false} CurrentSlotWiped()
    ensures var s := Run(Fresh(3, 9), [Record(18, true), Touch(19)], 10);
            s.ring == [EMPTY, EMPTY, EMPTY] && s.history == [Outcome(19 / 10, true)]
  {
    var ops := [Record(18, true), Touch(19)];
    FirstFailure();
    assert ops[..1] == [Record(18, true)];
    var s := Run(Fresh(3, 9), ops[..1], 10);
    assert Run(Fresh(3, 9), ops, 10) == Apply(s, Touch(19), 10);
    BehindCases(1, 0, 3);
    BehindCases(1, 1, 3);
    BehindCases(1, 2, 3);
    assert Rotate(s.ring, 19, 9, 10) == [EMPTY, EMPTY, EMPTY];
  }
}
