/** The cumulative latency histogram of `telemetry.py` and its quantile estimate. */
module Telemetry {
  import opened Wrappers

  /** A bucket's upper bound. */
  datatype Bound = Finite(value: real) | Infinite

  predicate AtMost(x: real, b: Bound) {
    b.Infinite? || x <= b.value
  }

  predicate BoundLeq(a: Bound, b: Bound) {
    b.Infinite? || (a.Finite? && a.value <= b.value)
  }

  ghost predicate NonDecreasing(buckets: seq<Bound>) {
    forall i, j :: 0 <= i <= j < |buckets| ==> BoundLeq(buckets[i], buckets[j])
  }

  // ---- the specification: counting observations ------------------------------------

  /** How many observations lie at or under a bound. */
  function CountAtMost(observed: seq<real>, b: Bound): nat {
    if observed == [] then 0
    else CountAtMost(observed[..|observed| - 1], b) + (if AtMost(observed[|observed| - 1], b) then 1 else 0)
  }

  function CountBelow(observed: seq<real>, x: real): nat {
    if observed == [] then 0
    else CountBelow(observed[..|observed| - 1], x) + (if observed[|observed| - 1] < x then 1 else 0)
  }

  function Total(observed: seq<real>): real {
    if observed == [] then 0.0 else Total(observed[..|observed| - 1]) + observed[|observed| - 1]
  }

  function Counts(observed: seq<real>, buckets: seq<Bound>): (counts: seq<nat>)
    ensures |counts| == |buckets|
  {
    seq(|buckets|, j requires 0 <= j < |buckets| => CountAtMost(observed, buckets[j]))
  }

  /** The first index whose count reaches the target rank. */
  function Landing(cumulative: seq<nat>, target: real): (n: nat)
    ensures n <= |cumulative|
  {
    if cumulative == [] then 0
    else
      var before := Landing(cumulative[..|cumulative| - 1], target);
      if before < |cumulative| - 1 || cumulative[before] as real >= target then before else before + 1
  }

  /** The finite bound last passed before bucket `n`, and zero before the first. */
  function EdgeBelow(buckets: seq<Bound>, n: nat): real
    requires n <= |buckets|
  {
    if n == 0 then 0.0
    else if buckets[n - 1].Finite? then buckets[n - 1].value
    else EdgeBelow(buckets, n - 1)
  }

  function CountBefore(cumulative: seq<nat>, n: nat): nat
    requires n <= |cumulative|
  {
    if n == 0 then 0 else cumulative[n - 1]
  }

  /** The estimate inside one bucket: its upper bound, the edge below it, or a linear interpolation. */
  function Interpolate(lower: real, upper: Bound, countBefore: nat, count: nat, target: real): real {
    if upper.Infinite? then lower
    else if count <= countBefore then upper.value
    else lower + (target - countBefore as real) / (count - countBefore) as real * (upper.value - lower)
  }

  function Inside(buckets: seq<Bound>, cumulative: seq<nat>, target: real, n: nat): real
    requires n < |buckets| && n < |cumulative|
  {
    Interpolate(EdgeBelow(buckets, n), buckets[n], CountBefore(cumulative, n), cumulative[n], target)
  }

  function Min(a: nat, b: nat): nat {
    if a <= b then a else b
  }

  /** The estimate for a target rank: inside the first bucket reaching it, or the last bound. */
  function AtRank(buckets: seq<Bound>, cumulative: seq<nat>, target: real): Option<real> {
    var paired := cumulative[..Min(|buckets|, |cumulative|)];
    var n := Landing(paired, target);
    if n < |paired| then Some(Inside(buckets, cumulative, target, n))
    else if buckets != [] && buckets[|buckets| - 1].Finite? then Some(buckets[|buckets| - 1].value)
    else None
  }

  function LastCount(cumulative: seq<nat>): nat {
    if cumulative == [] then 0 else cumulative[|cumulative| - 1]
  }

  function Target(q: real, total: nat): real {
    q * total as real
  }

  function Quantile(buckets: seq<Bound>, cumulative: seq<nat>, q: real): Option<real> {
    if LastCount(cumulative) == 0 then None else AtRank(buckets, cumulative, Target(q, LastCount(cumulative)))
  }

  method EstimateInBucket(upper: Bound, count: nat, countBefore: nat, lower: real, target: real) returns (r: real)
    ensures r == Interpolate(lower, upper, countBefore, count, target)
  {
    var within := count - countBefore;
    if within <= 0 || upper.Infinite? {
      return if upper.Finite? then upper.value else lower;
    }
    var frac := (target - countBefore as real) / within as real;
    var span := upper.value - lower;
    return lower + frac * span;
  }

  method EstimateAtRank(buckets: seq<Bound>, cumulative: seq<nat>, target: real) returns (r: Option<real>)
    ensures r == AtRank(buckets, cumulative, target)
  {
    var prevCount, prevBound := 0, 0.0;
    ghost var paired := cumulative[..Min(|buckets|, |cumulative|)];
    for i := 0 to Min(|buckets|, |cumulative|)
      invariant prevCount == CountBefore(cumulative, i) && prevBound == EdgeBelow(buckets, i)
      invariant forall k :: 0 <= k < i ==> (paired[k] as real) < target
    {
      var upper, count := buckets[i], cumulative[i];
      if count as real >= target {
        LandingIs(paired, target, i);
        var estimate := EstimateInBucket(upper, count, prevCount, prevBound, target);
        return Some(estimate);
      }
      prevCount := count;
      prevBound := if upper.Finite? then upper.value else prevBound;
    }
    LandingIs(paired, target, |paired|);
    return if buckets != [] && buckets[|buckets| - 1].Finite? then Some(buckets[|buckets| - 1].value) else None;
  }

  method QuantileFromCumulative(buckets: seq<Bound>, cumulative: seq<nat>, q: real) returns (r: Option<real>)
    ensures r == Quantile(buckets, cumulative, q)
  {
    var total := LastCount(cumulative);
    if total == 0 { return None; }
    r := EstimateAtRank(buckets, cumulative, Target(q, total));
  }

  lemma {:induction false} LandingMeaning(cumulative: seq<nat>, target: real)
    ensures var n := Landing(cumulative, target);
            && (n < |cumulative| ==> cumulative[n] as real >= target)
            && (forall k :: 0 <= k < n ==> (cumulative[k] as real) < target)
  {
    if cumulative != [] { LandingMeaning(cumulative[..|cumulative| - 1], target); }
  }

  lemma LandingIs(cumulative: seq<nat>, target: real, n: nat)
    requires n <= |cumulative| && forall k :: 0 <= k < n ==> (cumulative[k] as real) < target
    requires n < |cumulative| ==> cumulative[n] as real >= target
    ensures Landing(cumulative, target) == n
  {
    LandingMeaning(cumulative, target);
  }

  // ---- the histogram ---------------------------------------------------------------

  datatype Snapshot = Snapshot(name: string, count: nat, sum: real, buckets: seq<Bound>, bucketCounts: seq<nat>,
                               p50: Option<real>, p95: Option<real>, p99: Option<real>)

  datatype BucketError = NoBuckets | DecreasingBuckets

  /** The validated buckets, always ending in the catch-all. */
  function CheckBuckets(buckets: seq<Bound>): Result<seq<Bound>, BucketError> {
    if buckets == [] then Failure(NoBuckets)
    else if exists i :: 0 <= i < |buckets| - 1 && !BoundLeq(buckets[i], buckets[i + 1]) then Failure(DecreasingBuckets)
    else Success(if buckets[|buckets| - 1].Infinite? then buckets else buckets + [Infinite])
  }

  /**
   * Exactly the non-empty, non-decreasing lists pass the check; the catch-all is added where it is missing,
   * and nothing else changes.
   */
  lemma CheckedBuckets(buckets: seq<Bound>)
    ensures CheckBuckets(buckets).Success? <==> buckets != [] && NonDecreasing(buckets)
    ensures CheckBuckets(buckets) == Failure(NoBuckets) <==> buckets == []
    ensures CheckBuckets(buckets).Success? ==>
              var checked := CheckBuckets(buckets).value;
              && NonDecreasing(checked) && checked[|checked| - 1].Infinite?
              && checked == if buckets[|buckets| - 1].Infinite? then buckets else buckets + [Infinite]
  {
    if CheckBuckets(buckets).Success? {
      forall i, j | 0 <= i <= j < |buckets| ensures BoundLeq(buckets[i], buckets[j]) { StepsCompose(buckets, i, j); }
    }
  }

  lemma {:induction false} StepsCompose(buckets: seq<Bound>, i: nat, j: nat)
    requires forall k :: 0 <= k < |buckets| - 1 ==> BoundLeq(buckets[k], buckets[k + 1])
    requires i <= j < |buckets|
    ensures BoundLeq(buckets[i], buckets[j])
    decreases j - i
  {
    if i < j { StepsCompose(buckets, i, j - 1); }
  }

  /** Every count from an index on, plus one. */
  function Bumped(cumulative: seq<nat>, index: nat): seq<nat> {
    seq(|cumulative|, j requires 0 <= j < |cumulative| => cumulative[j] + (if j >= index then 1 else 0))
  }

  class LatencyHistogram {
    const name: string
    const buckets: seq<Bound>
    var count: nat
    var sum: real
    var cumulative: seq<nat>
    /** The non-negative observations since the last reset, in order. */
    ghost var observed: seq<real>

    ghost predicate Valid()
      reads this
    {
      && |buckets| > 0 && NonDecreasing(buckets) && buckets[|buckets| - 1].Infinite?
      && (forall i :: 0 <= i < |observed| ==> observed[i] >= 0.0)
      && count == |observed| && sum == Total(observed) && cumulative == Counts(observed, buckets)
    }

    constructor (name: string, buckets: seq<Bound>)
      requires CheckBuckets(buckets).Success?
      ensures Valid() && observed == [] && this.buckets == CheckBuckets(buckets).value && this.name == name
    {
      this.name, count, sum, observed := name, 0, 0.0, [];
      this.buckets := CheckBuckets(buckets).value;
      cumulative := seq(|CheckBuckets(buckets).value|, _ => 0);
      CheckedBuckets(buckets);
    }

    method IncrementFrom(index: nat)
      requires index <= |cumulative|
      modifies this`cumulative
      ensures cumulative == Bumped(old(cumulative), index)
    {
      for j := index to |cumulative|
        invariant |cumulative| == |old(cumulative)|
        invariant forall k :: 0 <= k < |cumulative| ==>
                  cumulative[k] == old(cumulative)[k] + (if index <= k < j then 1 else 0)
      {
        cumulative := cumulative[j := cumulative[j] + 1];
      }
    }

    method Observe(seconds: real)
      requires Valid()
      modifies this
      ensures Valid() && observed == if seconds < 0.0 then old(observed) else old(observed) + [seconds]
    {
      if seconds < 0.0 { return; }
      count := count + 1;
      sum := sum + seconds;
      for index := 0 to |buckets|
        invariant cumulative == Counts(observed, buckets)
        invariant forall k :: 0 <= k < index ==> !AtMost(seconds, buckets[k])
      {
        if AtMost(seconds, buckets[index]) {
          IncrementFrom(index);
          BumpCounts(observed, buckets, seconds, index);
          break;
        }
      }
      observed := observed + [seconds];
      assert observed[..|observed| - 1] == old(observed);
    }

    method Reset()
      requires Valid()
      modifies this
      ensures Valid() && observed == []
    {
      count, sum, observed := 0, 0.0, [];
      cumulative := seq(|buckets|, _ => 0);
    }

    method TakeSnapshot() returns (s: Snapshot)
      requires Valid()
      ensures s == SnapshotOf(name, observed, buckets)
    {
      var p50 := QuantileFromCumulative(buckets, cumulative, 0.5);
      var p95 := QuantileFromCumulative(buckets, cumulative, 0.95);
      var p99 := QuantileFromCumulative(buckets, cumulative, 0.99);
      return Snapshot(name, count, sum, buckets, cumulative, p50, p95, p99);
    }
  }

  /** Construction as callers see it: bad bucket lists are refused. */
  method NewHistogram(name: string, buckets: seq<Bound>) returns (r: Result<LatencyHistogram, BucketError>)
    ensures r.Success? <==> CheckBuckets(buckets).Success?
    ensures r.Failure? ==> r.error == CheckBuckets(buckets).error
    ensures r.Success? ==>
            fresh(r.value) && r.value.Valid() && r.value.observed == []
                && r.value.buckets == CheckBuckets(buckets).value
  {
    var checked := CheckBuckets(buckets);
    if checked.Failure? { return Failure(checked.error); }
    var h := new LatencyHistogram(name, buckets);
    return Success(h);
  }

  /** What a snapshot says about the observations themselves. */
  function SnapshotOf(name: string, observed: seq<real>, buckets: seq<Bound>): Snapshot
    requires |buckets| > 0
  {
    var counts := Counts(observed, buckets);
    Snapshot(name, |observed|, Total(observed), buckets, counts,
             Quantile(buckets, counts, 0.5), Quantile(buckets, counts, 0.95), Quantile(buckets, counts, 0.99))
  }

  lemma CountOne(observed: seq<real>, x: real, b: Bound)
    ensures CountAtMost(observed + [x], b) == CountAtMost(observed, b) + (if AtMost(x, b) then 1 else 0)
  {
    assert (observed + [x])[..|observed|] == observed;
  }

  /** An observation counts in the bucket it lands in and in all above. */
  lemma BumpCounts(observed: seq<real>, buckets: seq<Bound>, x: real, index: nat)
    requires NonDecreasing(buckets) && index < |buckets| && AtMost(x, buckets[index])
    requires forall k :: 0 <= k < index ==> !AtMost(x, buckets[k])
    ensures Bumped(Counts(observed, buckets), index) == Counts(observed + [x], buckets)
  {
    forall j | 0 <= j < |buckets|
      ensures Bumped(Counts(observed, buckets), index)[j] == Counts(observed + [x], buckets)[j]
    {
      CountOne(observed, x, buckets[j]);
      if j >= index { assert BoundLeq(buckets[index], buckets[j]); }
    }
  }
}
