/** Client-side round robin over a snapshot of instances. */
module Selector {
  import opened Common

  const TWO64 := 0x1_0000_0000_0000_0000

  /** Unsigned 64-bit arithmetic wraps. */
  function Wrap(x: nat): (y: nat)
    ensures y < TWO64 && (x < TWO64 ==> y == x) && (x == TWO64 ==> y == 0)
  {
    x % TWO64
  }

  /** The position chosen when the counter stands at `counter`. */
  function Position(counter: nat, n: nat): (p: nat)
    requires n > 0
    ensures p < n
  {
    counter % n
  }

  class RoundRobin {
    var counter: nat

    constructor ()
      ensures counter == 0
    {
      counter := 0;
    }

    /** The atomic counter is 64-bit unsigned and wraps. */
    method Pick<T>(instances: seq<T>) returns (r: Option<T>)
      requires counter < TWO64
      modifies this
      ensures counter < TWO64
      ensures r.None? <==> instances == []
      ensures instances == [] ==> counter == old(counter)
      ensures instances != [] ==>
                r == Some(instances[Position(old(counter), |instances|)]) && counter == Wrap(old(counter) + 1)
    {
      if |instances| == 0 {
        return None;
      }
      counter := Wrap(counter + 1);
      var ticket := if counter == 0 then TWO64 - 1 else counter - 1;
      return Some(instances[ticket % |instances|]);
    }

    /** `m` consecutive picks on an unchanged snapshot, as positions. They are spread evenly if the
        counter does not wrap meanwhile, or if the number of instances divides 2^64. */
    method PickMany(n: nat, m: nat) returns (chosen: seq<nat>)
      requires n > 0 && counter < TWO64
      modifies this
      ensures counter == Wrap(old(counter) + m)
      ensures chosen == Picks(old(counter), m, n)
      ensures old(counter) + m <= TWO64 || TWO64 % n == 0 ==> Even(chosen, n)
    {
      chosen := [];
      var snapshot := seq(n, i => i);
      for k := 0 to m
        invariant counter == Wrap(old(counter) + k) && chosen == Picks(old(counter), k, n)
      {
        WrapStep(old(counter) + k);
        var r := Pick(snapshot);
        chosen := chosen + [r.value];
      }
      if old(counter) + m <= TWO64 || TWO64 % n == 0 {
        PicksEven(old(counter), m, n);
      }
    }
  }

  /** The positions of `m` consecutive picks from a counter at `start`, wrapping at 2^64. */
  function Picks(start: nat, m: nat, n: nat): (s: seq<nat>)
    requires n > 0
    ensures |s| == m && forall i :: 0 <= i < m ==> s[i] == Position(Wrap(start + i), n)
  {
    if m == 0 then [] else Picks(start, m - 1, n) + [Position(Wrap(start + m - 1), n)]
  }

  /** Every position is chosen floor(m/n) or ceil(m/n) times out of m. */
  ghost predicate Even(chosen: seq<nat>, n: nat)
    requires n > 0
  {
    forall p :: 0 <= p < n ==> |chosen| / n <= Count(chosen, p) <= (|chosen| + n - 1) / n
  }

  function Count(chosen: seq<nat>, p: nat): nat
  {
    if |chosen| == 0 then 0
    else Count(chosen[..|chosen| - 1], p) + if chosen[|chosen| - 1] == p then 1 else 0
  }

  /** How many numbers in [0, x) are congruent to `p` modulo `n`. */
  function Below(x: nat, p: nat, n: nat): nat
    requires p < n
  {
    (x + n - 1 - p) / n
  }

  lemma {:induction false} DivStep(y: nat, n: nat)
    requires n > 0
    ensures (y + 1) / n == y / n + if (y + 1) % n == 0 then 1 else 0
    ensures (y + n) / n == y / n + 1
  {
    var q, r := y / n, y % n;
    assert y == q * n + r && (q + 1) * n == q * n + n;
    if r + 1 < n {
      Quotient(y + 1, q, r + 1, n);
    } else {
      Quotient(y + 1, q + 1, 0, n);
    }
    Quotient(y + n, q + 1, r, n);
  }

  lemma {:induction false} BelowStep(x: nat, p: nat, n: nat)
    requires p < n
    ensures Below(x + 1, p, n) == Below(x, p, n) + if x % n == p then 1 else 0
  {
    var y := x + n - 1 - p;
    DivStep(y, n);
    var q, r := x / n, x % n;
    assert x == q * n + r;
    assert (q + 1) * n == q * n + n;
    if r == p {
      Quotient(y + 1, q + 1, 0, n);
    } else if r > p {
      Quotient(y + 1, q + 1, r - p, n);
    } else {
      Quotient(y + 1, q, r - p + n, n);
    }
  }

  lemma {:induction false} CountIsDifference(start: nat, chosen: seq<nat>, n: nat, p: nat)
    requires p < n && forall i :: 0 <= i < |chosen| ==> chosen[i] == Position(start + i, n)
    ensures Count(chosen, p) == Below(start + |chosen|, p, n) - Below(start, p, n)
  {
    if |chosen| > 0 {
      CountIsDifference(start, chosen[..|chosen| - 1], n, p);
      BelowStep(start + |chosen| - 1, p, n);
    }
  }

  lemma {:induction false} QuotientOfSum(a: nat, m: nat, n: nat)
    requires n > 0
    ensures (a + m) / n == a / n + m / n + if a % n + m % n < n then 0 else 1
  {
    var qa, ra, qm, rm := a / n, a % n, m / n, m % n;
    var k := qa + qm;
    assert a == qa * n + ra && m == qm * n + rm;
    assert k * n == qa * n + qm * n;
    assert (k + 1) * n == k * n + n;
    if ra + rm < n {
      Quotient(a + m, k, ra + rm, n);
    } else {
      Quotient(a + m, k + 1, ra + rm - n, n);
    }
  }

  lemma {:induction false} CeilingQuotient(m: nat, n: nat)
    requires n > 0
    ensures (m + n - 1) / n == m / n + if m % n == 0 then 0 else 1
  {
    var q, r := m / n, m % n;
    assert m == q * n + r;
    assert (q + 1) * n == q * n + n;
    if r == 0 {
      Quotient(m + n - 1, q, n - 1, n);
    } else {
      Quotient(m + n - 1, q + 1, r - 1, n);
    }
  }

  /** Over any consecutive picks from any counter value, each position is chosen floor(m/n) or
      ceil(m/n) times. */
  lemma {:induction false} Fair(start: nat, chosen: seq<nat>, n: nat, p: nat)
    requires p < n && forall i :: 0 <= i < |chosen| ==> chosen[i] == Position(start + i, n)
    ensures |chosen| / n <= Count(chosen, p) <= (|chosen| + n - 1) / n
  {
    CountIsDifference(start, chosen, n, p);
    QuotientOfSum(start + n - 1 - p, |chosen|, n);
    CeilingQuotient(|chosen|, n);
  }

  // ------------------------------------------------------------------------
  // The counter wraps
  // ------------------------------------------------------------------------

  lemma WrapStep(x: nat)
    ensures Wrap(Wrap(x) + 1) == Wrap(x + 1)
  {
  }

  /** Wrapping is invisible modulo a divisor of 2^64. */
  lemma {:induction false} WrapInvisible(x: nat, n: nat)
    requires n > 0 && TWO64 % n == 0
    ensures Wrap(x) % n == x % n
  {
    var k, w := TWO64 / n, x / TWO64;
    var y := Wrap(x);
    var q, r := y / n, y % n;
    assert TWO64 == k * n && y == q * n + r;
    assert x == (w * k + q) * n + r by {
      assert x == w * TWO64 + y;
      assert w * (k * n) == (w * k) * n;
      assert (w * k + q) * n == (w * k) * n + q * n;
    }
    Quotient(x, w * k + q, r, n);
  }

  lemma {:induction false} PickAt(start: nat, m: nat, n: nat, i: nat)
    requires n > 0 && start < TWO64 && (start + m <= TWO64 || TWO64 % n == 0) && i < m
    ensures Picks(start, m, n)[i] == Position(start + i, n)
  {
    if start + m <= TWO64 {
      assert Wrap(start + i) == start + i;
    } else {
      WrapInvisible(start + i, n);
    }
  }

  lemma {:induction false} PicksEven(start: nat, m: nat, n: nat)
    requires n > 0 && start < TWO64 && (start + m <= TWO64 || TWO64 % n == 0)
    ensures Even(Picks(start, m, n), n)
  {
    var chosen := Picks(start, m, n);
    forall i | 0 <= i < m
      ensures chosen[i] == Position(start + i, n)
    {
      PickAt(start, m, n, i);
    }
    forall p | 0 <= p < n
      ensures m / n <= Count(chosen, p) <= (m + n - 1) / n
    {
      Fair(start, chosen, n, p);
    }
  }

  lemma {:induction false} CountOne(s: seq<nat>, i: nat, p: nat)
    requires i < |s| && s[i] == p
    ensures Count(s, p) >= 1
  {
    if i < |s| - 1 {
      CountOne(s[..|s| - 1], i, p);
    }
  }

  lemma {:induction false} CountTwo(s: seq<nat>, i: nat, j: nat, p: nat)
    requires i < j < |s| && s[i] == p && s[j] == p
    ensures Count(s, p) >= 2
  {
    var t := s[..|s| - 1];
    if j < |s| - 1 {
      CountTwo(t, i, j, p);
    } else {
      CountOne(t, i, p);
    }
  }

  lemma {:induction false} LessRemainder(x: nat, n: nat)
    requires n > 0
    ensures (x - x % n) % n == 0
  {
    var q, r := x / n, x % n;
    assert x - r == q * n + 0;
    Quotient(x - r, q, 0, n);
  }

  lemma {:induction false} OneRound(n: nat)
    requires n > 0
    ensures (n + n - 1) / n == 1
  {
    assert n + n - 1 == 1 * n + (n - 1);
    Quotient(n + n - 1, 1, n - 1, n);
  }

  lemma {:induction false} ZeroTwice(start: nat, r: nat, n: nat)
    requires 0 < r < n && start + r == TWO64 && start % n == 0
    ensures Count(Picks(start, n, n), 0) >= 2
  {
    var s := Picks(start, n, n);
    assert s[0] == Position(Wrap(start + 0), n);
    assert s[r] == Position(Wrap(start + r), n);
    assert Wrap(start + 0) == start && Wrap(start + r) == 0;
    Quotient(0, 0, 0, n);
    CountTwo(s, 0, r, 0);
  }

  lemma {:induction false} Uneven(start: nat, r: nat, n: nat)
    requires 0 < r < n && start + r == TWO64 && start % n == 0
    ensures !Even(Picks(start, n, n), n)
  {
    ZeroTwice(start, r, n);
    OneRound(n);
  }

  /** If n does not divide 2^64, some round of n picks across the wrap takes position 0 twice. */
  lemma {:induction false} WrapRepeats(n: nat)
    requires 0 < n <= TWO64 && TWO64 % n != 0
    ensures !Even(Picks(TWO64 - TWO64 % n, n, n), n)
  {
    var r := TWO64 % n;
    LessRemainder(TWO64, n);
    Uneven(TWO64 - r, r, n);
  }

  /** Round robin is fair from every counter value if and only if the number of instances divides
      2^64; the only unfair picks are those that span the wrap. */
  lemma {:induction false} AlwaysEvenIff(n: nat)
    requires 0 < n <= TWO64
    ensures (forall start: nat, m: nat :: start < TWO64 ==> Even(Picks(start, m, n), n)) <==> TWO64 % n == 0
  {
    if TWO64 % n == 0 {
      forall start: nat, m: nat | start < TWO64
        ensures Even(Picks(start, m, n), n)
      {
        PicksEven(start, m, n);
      }
    } else {
      WrapRepeats(n);
    }
  }
}
