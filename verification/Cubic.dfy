/** The CUBIC curve of main/tcp_congestion.c in exact integer arithmetic (sections 4.2 and 4.3 of
    RFC 9438): cube root, inflection time, and the target window as a function of time. */
module Cubic {
  import opened Common

  const U32: nat := 0xffff_ffff
  const U64: nat := 0xffff_ffff_ffff_ffff
  const ROOT_MAX: nat := 2642245
  const SCALE: nat := 5_000_000_000
  const MAX_OFFSET: nat := 600000

  function Cube(x: nat): nat { x * x * x }

  /** tcp_ca_saturating_add. */
  function SatAdd(a: nat, b: nat): nat { Min(a + b, U32) }

  // ---------------------------------------------------------------- the cube root

  lemma {:induction false} MulMono(a: nat, b: nat, c: nat)
    requires a <= b
    ensures a * c <= b * c
  {
  }

  lemma {:induction false} CubeMono(a: nat, b: nat)
    requires a <= b
    ensures Cube(a) <= Cube(b)
  {
    MulMono(a, b, a);
    MulMono(a, b, b);
    MulMono(a * a, b * b, a);
    MulMono(a, b, b * b);
  }

  /** Dividing is comparing with a product. */
  lemma {:induction false} DivCompare(v: nat, m: nat, k: nat)
    requires m > 0
    ensures k <= v / m <==> k * m <= v
  {
    var q := v / m;
    assert v == q * m + v % m;
    if k <= q { MulMono(k, q, m); } else { MulMono(q + 1, k, m); assert (q + 1) * m == q * m + m; }
  }

  lemma {:induction false} FitsIff(v: nat, m: nat)
    requires m > 0
    ensures m <= v / m / m <==> Cube(m) <= v
  {
    DivCompare(v / m, m, m);
    DivCompare(v, m, m * m);
  }

  predicate IsRoot(r: nat, value: nat) { Cube(r) <= value < Cube(r + 1) }

  /** tcp_cubic_root: the exact floor of the cube root of every 64-bit value. */
  method Root(value: nat) returns (r: nat)
    requires value <= U64
    ensures IsRoot(r, value) && r <= ROOT_MAX
  {
    var low, high := 0, ROOT_MAX;
    assert Cube(ROOT_MAX + 1) > U64;
    while low < high
      invariant 0 <= low <= high <= ROOT_MAX && Cube(low) <= value < Cube(high + 1)
    {
      var mid := low + (high - low + 1) / 2;
      FitsIff(value, mid);
      if mid == 0 || mid <= value / mid / mid { low := mid; } else { high := mid - 1; }
    }
    r := low;
  }

  /** There is only one. */
  lemma {:induction false} RootUnique(r: nat, s: nat, value: nat)
    requires IsRoot(r, value) && IsRoot(s, value)
    ensures r == s
  {
    if r < s { CubeMono(r + 1, s); } else if s < r { CubeMono(s + 1, r); }
  }

  // ---------------------------------------------------------------- inflection time and curve

  /** The value whose cube root is K, in ms: distance / C, saturated to 64 bits, with C = 2/5. */
  function KValue(distance: nat): nat {
    (if distance > U64 / SCALE then U64 else distance * SCALE) / 2
  }

  /** tcp_cubic_k_ms. */
  method KMs(distance: nat) returns (k: nat)
    ensures IsRoot(k, KValue(distance)) && k <= ROOT_MAX
  {
    if distance <= U64 / SCALE { DivCompare(U64, SCALE, distance); }
    k := Root(KValue(distance));
  }

  /** tcp_cubic_delta. */
  function Delta(offset: nat): nat {
    Min(2 * Cube(Min(offset, MAX_OFFSET)) / SCALE, U32)
  }

  /** The target of tcp_cubic_update `elapsed` ms into an epoch. */
  function Target(elapsed: nat, k: nat, origin: nat): nat {
    var delta := Delta(if elapsed > k then elapsed - k else k - elapsed);
    if elapsed < k then (if delta >= origin then 1 else origin - delta) else SatAdd(origin, delta)
  }

  lemma {:induction false} DivMono(a: nat, b: nat)
    requires a <= b
    ensures a / SCALE <= b / SCALE
  {
  }

  /** The products fit 64 bits and the result fits 32: no branch for larger values is ever taken. */
  lemma {:induction false} DeltaFits(offset: nat)
    ensures 2 * Cube(Min(offset, MAX_OFFSET)) <= U64
    ensures Delta(offset) == 2 * Cube(Min(offset, MAX_OFFSET)) / SCALE <= 86_400_000
  {
    CubeMono(Min(offset, MAX_OFFSET), MAX_OFFSET);
    DivMono(2 * Cube(Min(offset, MAX_OFFSET)), 2 * Cube(MAX_OFFSET));
  }

  lemma {:induction false} DeltaMono(a: nat, b: nat)
    requires a <= b
    ensures Delta(a) <= Delta(b)
  {
    var x, y := Min(a, MAX_OFFSET), Min(b, MAX_OFFSET);
    CubeMono(x, y);
    DivMono(2 * Cube(x), 2 * Cube(y));
  }

  /** The curve at its start lies no further below the origin than the window did. */
  lemma {:induction false} DeltaAtK(distance: nat, k: nat)
    requires IsRoot(k, KValue(distance))
    ensures Delta(k) <= distance
  {
    assert 2 * KValue(distance) <= distance * SCALE by {
      if distance > U64 / SCALE { DivCompare(U64, SCALE, distance); }
    }
    CubeMono(Min(k, MAX_OFFSET), k);
    Quotient(2 * Cube(Min(k, MAX_OFFSET)), distance);
  }

  lemma {:induction false} Quotient(a: nat, d: nat)
    requires a <= d * SCALE
    ensures a / SCALE <= d
  {
  }

  /** How an epoch starts: the previous maximum above the window with K from their distance, or the
      window itself with K zero. */
  predicate EpochAt(cwnd: nat, origin: nat, k: nat) {
    1 <= cwnd <= origin <= U32 && (if origin == cwnd then k == 0 else IsRoot(k, KValue(origin - cwnd)))
  }

  /** Within an epoch the target never falls below the window the epoch started with, and the fallback
      to 1 is never taken. */
  lemma {:induction false} TargetAboveStart(cwnd: nat, origin: nat, k: nat, elapsed: nat)
    requires EpochAt(cwnd, origin, k)
    ensures elapsed < k ==> Delta(k - elapsed) < origin
    ensures cwnd <= Target(elapsed, k, origin) <= U32
  {
    if elapsed < k {
      DeltaAtK(origin - cwnd, k);
      DeltaMono(k - elapsed, k);
    }
  }

  /** It does not decrease with time. */
  lemma {:induction false} TargetMono(cwnd: nat, origin: nat, k: nat, e1: nat, e2: nat)
    requires EpochAt(cwnd, origin, k) && e1 <= e2
    ensures Target(e1, k, origin) <= Target(e2, k, origin)
  {
    TargetAboveStart(cwnd, origin, k, e1);
    TargetAboveStart(cwnd, origin, k, e2);
    if e2 < k {
      DeltaMono(k - e2, k - e1);
    } else if e1 >= k {
      DeltaMono(e1 - k, e2 - k);
    }
  }

  /** The curve itself: at a distance of d ms from K the target lies x packets from the origin, with x the
      floor of C * d^3 in the units of the code, below it before K and above it after. */
  lemma {:induction false} TargetOnCurve(cwnd: nat, origin: nat, k: nat, elapsed: nat)
    requires EpochAt(cwnd, origin, k)
    ensures elapsed < k && k - elapsed <= MAX_OFFSET ==>
              && Target(elapsed, k, origin) <= origin
              && OnCurve(origin - Target(elapsed, k, origin), k - elapsed)
    ensures k <= elapsed <= k + MAX_OFFSET ==>
              && origin <= Target(elapsed, k, origin)
              && (Target(elapsed, k, origin) < U32 ==> OnCurve(Target(elapsed, k, origin) - origin, elapsed - k))
  {
    TargetAboveStart(cwnd, origin, k, elapsed);
    var d := if elapsed > k then elapsed - k else k - elapsed;
    DeltaFits(d);
    FloorIs(2 * Cube(d));
  }

  predicate OnCurve(x: nat, d: nat) { x * SCALE <= 2 * Cube(d) < (x + 1) * SCALE }

  lemma {:induction false} FloorIs(v: nat)
    ensures v / SCALE * SCALE <= v < (v / SCALE + 1) * SCALE
  {
  }

  /** K is the longest whole number of ms at which the curve has not passed the distance. */
  lemma {:induction false} KBounds(distance: nat, k: nat)
    requires IsRoot(k, KValue(distance)) && distance <= U64 / SCALE
    ensures 2 * Cube(k) <= distance * SCALE < 2 * Cube(k + 1)
  {
  }

  /** At K it equals the origin; before, it is at most the origin; after, at least. */
  lemma {:induction false} TargetAtK(cwnd: nat, origin: nat, k: nat)
    requires EpochAt(cwnd, origin, k)
    ensures Target(k, k, origin) == origin
  {
    assert Cube(0) == 0;
  }

  // ---------------------------------------------------------------- the Reno-friendly estimate

  /** The loop the closed form stands for: one step per `threshold` acknowledged packets. */
  function Steps(acks: nat, threshold: nat): (nat, nat)
    requires threshold > 0
    decreases acks
  {
    if acks > threshold then var r := Steps(acks - threshold, threshold); (r.0, r.1 + 1) else (acks, 0)
  }

  lemma {:induction false} StepsSplit(acks: nat, threshold: nat)
    requires threshold > 0 && acks > 0
    ensures var r := Steps(acks, threshold); acks == r.1 * threshold + r.0 && 1 <= r.0 <= threshold
    decreases acks
  {
    if acks > threshold {
      StepsSplit(acks - threshold, threshold);
      var r := Steps(acks - threshold, threshold);
      assert (r.1 + 1) * threshold == r.1 * threshold + threshold;
    }
  }

  /** The closed form is the loop. */
  lemma {:induction false} StepsClosed(acks: nat, threshold: nat)
    requires threshold > 0 && acks > 0
    ensures var n := (acks - 1) / threshold;
            n * threshold < acks && Steps(acks, threshold) == (acks - n * threshold, n)
  {
    StepsSplit(acks, threshold);
    var r := Steps(acks, threshold);
    QuotientIs(acks - 1, threshold, r.1);
  }

  lemma {:induction false} QuotientIs(x: nat, t: nat, n: nat)
    requires t > 0 && n * t <= x < n * t + t
    ensures x / t == n
  {
    DivCompare(x, t, n);
    DivCompare(x, t, n + 1);
    assert (n + 1) * t == n * t + t;
  }
}
