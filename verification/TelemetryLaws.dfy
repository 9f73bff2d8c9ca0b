/** What the quantile estimate means for the observations behind the histogram. */
module TelemetryLaws {
  import opened Wrappers
  import opened Telemetry

  ghost predicate NonNegative(observed: seq<real>) {
    forall i :: 0 <= i < |observed| ==> observed[i] >= 0.0
  }

  /** `x` is the ceil(target)-th smallest observation: fewer than `target` are under it, at least `target` up to it. */
  ghost predicate OfRank(observed: seq<real>, x: real, target: real) {
    x in observed && CountBelow(observed, x) as real < target <= CountAtMost(observed, Finite(x)) as real
  }

  /** `x` lies in bucket `n`: at or under its bound, and over the bound before it. */
  ghost predicate InBucket(buckets: seq<Bound>, n: nat, x: real) {
    n < |buckets| && AtMost(x, buckets[n]) && (n > 0 ==> !AtMost(x, buckets[n - 1]))
  }

  // ---- counting --------------------------------------------------------------------

  lemma {:induction false} CountAtMostGrows(observed: seq<real>, a: Bound, b: Bound)
    requires BoundLeq(a, b)
    ensures CountAtMost(observed, a) <= CountAtMost(observed, b) <= |observed|
  {
    if observed != [] { CountAtMostGrows(observed[..|observed| - 1], a, b); }
  }

  /** What lies under a bound lies below every value over it. */
  lemma {:induction false} AtMostIsBelow(observed: seq<real>, b: Bound, x: real)
    requires !AtMost(x, b)
    ensures CountAtMost(observed, b) <= CountBelow(observed, x)
  {
    if observed != [] { AtMostIsBelow(observed[..|observed| - 1], b, x); }
  }

  lemma {:induction false} AllAtMostInfinity(observed: seq<real>)
    ensures CountAtMost(observed, Infinite) == |observed|
  {
    if observed != [] { AllAtMostInfinity(observed[..|observed| - 1]); }
  }

  // ---- every rank is taken by some observation -------------------------------------

  lemma {:induction false} LargestBelow(observed: seq<real>, x: real) returns (y: real)
    requires CountBelow(observed, x) > 0
    ensures y in observed && y < x && CountAtMost(observed, Finite(y)) >= CountBelow(observed, x)
    ensures CountBelow(observed, y) < CountBelow(observed, x)
  {
    var init, last := observed[..|observed| - 1], observed[|observed| - 1];
    assert observed == init + [last];
    if CountBelow(init, x) == 0 {
      y := last;
      BelowIsMonotone(init, y, x);
    } else {
      y := LargestBelow(init, x);
      if y < last < x {
        BelowAtMost(init, y, last);
        BelowIsMonotone(init, last, x);
        AtMostCovers(init, y, last, x);
        y := last;
      }
    }
  }

  lemma {:induction false} BelowIsMonotone(observed: seq<real>, a: real, b: real)
    requires a <= b
    ensures CountBelow(observed, a) <= CountBelow(observed, b)
  {
    if observed != [] { BelowIsMonotone(observed[..|observed| - 1], a, b); }
  }

  lemma {:induction false} BelowAtMost(observed: seq<real>, a: real, b: real)
    requires a < b
    ensures CountAtMost(observed, Finite(a)) <= CountBelow(observed, b)
  {
    if observed != [] { BelowAtMost(observed[..|observed| - 1], a, b); }
  }

  lemma AtMostCovers(observed: seq<real>, a: real, b: real, x: real)
    requires a <= b && CountAtMost(observed, Finite(a)) >= CountBelow(observed, x)
    ensures CountAtMost(observed, Finite(b)) >= CountBelow(observed, x)
  {
    CountAtMostGrows(observed, Finite(a), Finite(b));
  }

  lemma {:induction false} AllBelow(observed: seq<real>) returns (x: real)
    ensures CountBelow(observed, x) == |observed|
  {
    if observed == [] {
      x := 0.0;
    } else {
      var init, last := observed[..|observed| - 1], observed[|observed| - 1];
      var y := AllBelow(init);
      x := if y <= last then last + 1.0 else y;
      BelowIsMonotone(init, y, x);
      BelowAtMostAll(init, x);
    }
  }

  lemma {:induction false} BelowAtMostAll(observed: seq<real>, x: real)
    ensures CountBelow(observed, x) <= |observed|
  {
    if observed != [] { BelowAtMostAll(observed[..|observed| - 1], x); }
  }

  lemma {:induction false} Descend(observed: seq<real>, y: real, target: real) returns (x: real)
    requires y in observed && 0.0 < target <= CountAtMost(observed, Finite(y)) as real
    ensures OfRank(observed, x, target)
    decreases CountBelow(observed, y)
  {
    if (CountBelow(observed, y) as real) < target {
      x := y;
    } else {
      var z := LargestBelow(observed, y);
      x := Descend(observed, z, target);
    }
  }

  /** Every rank up to the number of observations is some observation's. */
  lemma RankIsTaken(observed: seq<real>, target: real) returns (x: real)
    requires 0.0 < target <= |observed| as real
    ensures OfRank(observed, x, target)
  {
    var top := AllBelow(observed);
    var y := LargestBelow(observed, top);
    CountAtMostGrows(observed, Finite(y), Infinite);
    x := Descend(observed, y, target);
  }

  // ---- the landing bucket ----------------------------------------------------------

  ghost predicate Checked(buckets: seq<Bound>) {
    |buckets| > 0 && NonDecreasing(buckets) && buckets[|buckets| - 1].Infinite?
  }

  /** The target rank is always reached. */
  lemma RankIsReached(observed: seq<real>, buckets: seq<Bound>, target: real)
    requires Checked(buckets) && target <= |observed| as real
    ensures Landing(Counts(observed, buckets), target) < |buckets|
  {
    AllAtMostInfinity(observed);
    LandingMeaning(Counts(observed, buckets), target);
    assert Counts(observed, buckets)[|buckets| - 1] == |observed|;
  }

  /** The observation of the target rank lies in the bucket the estimate lands in. */
  lemma RankLandsInBucket(observed: seq<real>, buckets: seq<Bound>, x: real, target: real)
    requires Checked(buckets) && target <= |observed| as real && OfRank(observed, x, target)
    ensures InBucket(buckets, Landing(Counts(observed, buckets), target), x)
  {
    var counts := Counts(observed, buckets);
    var n := Landing(counts, target);
    RankIsReached(observed, buckets, target);
    LandingMeaning(counts, target);
    assert counts[n] == CountAtMost(observed, buckets[n]);
    if !AtMost(x, buckets[n]) { AtMostIsBelow(observed, buckets[n], x); }
    if n > 0 && AtMost(x, buckets[n - 1]) {
      assert counts[n - 1] == CountAtMost(observed, buckets[n - 1]);
      CountAtMostGrows(observed, Finite(x), buckets[n - 1]);
    }
  }

  lemma FractionOfSpan(fraction: real, span: real)
    requires 0.0 <= fraction <= 1.0 && span >= 0.0
    ensures 0.0 <= fraction * span <= span
    ensures fraction > 0.0 && span > 0.0 ==> fraction * span > 0.0
  {
  }

  lemma FractionBounds(part: real, whole: real)
    requires 0.0 < part <= whole
    ensures 0.0 < part / whole <= 1.0
  {
  }

  lemma InterpolationStaysInside(lower: real, upper: real, countBefore: nat, count: nat, target: real)
    requires (countBefore as real) < target <= count as real && lower <= upper
    ensures lower <= Interpolate(lower, Finite(upper), countBefore, count, target) <= upper
    ensures lower < upper ==> lower < Interpolate(lower, Finite(upper), countBefore, count, target)
  {
    FractionBounds(target - countBefore as real, (count - countBefore) as real);
    FractionOfSpan((target - countBefore as real) / (count - countBefore) as real, upper - lower);
  }

  /** The edge below a bucket, for buckets that some non-negative observation reaches. */
  lemma EdgesEnclose(observed: seq<real>, buckets: seq<Bound>, x: real, n: nat)
    requires Checked(buckets) && x >= 0.0 && InBucket(buckets, n, x) && buckets[n].Finite?
    ensures EdgeBelow(buckets, n) <= buckets[n].value
    ensures n > 0 ==> buckets[n - 1] == Finite(EdgeBelow(buckets, n)) && EdgeBelow(buckets, n) < buckets[n].value
  {
    if n > 0 { assert BoundLeq(buckets[n - 1], buckets[n]); }
  }

  /** At the landing bucket the target lies over the count before it and within the count up to it. */
  lemma LandingCounts(observed: seq<real>, buckets: seq<Bound>, target: real)
    requires Checked(buckets) && 0.0 < target <= |observed| as real
    ensures var counts, n := Counts(observed, buckets), Landing(Counts(observed, buckets), target);
            n < |buckets| && (CountBefore(counts, n) as real) < target <= counts[n] as real
  {
    RankIsReached(observed, buckets, target);
    LandingMeaning(Counts(observed, buckets), target);
  }

  function EstimateAt(observed: seq<real>, buckets: seq<Bound>, target: real): real
    requires Landing(Counts(observed, buckets), target) < |buckets|
  {
    Inside(buckets, Counts(observed, buckets), target, Landing(Counts(observed, buckets), target))
  }

  lemma EstimateStaysInBucket(observed: seq<real>, buckets: seq<Bound>, target: real)
    requires Checked(buckets) && NonNegative(observed) && 0.0 < target <= |observed| as real
    ensures var n := Landing(Counts(observed, buckets), target);
            && n < |buckets|
            && (buckets[n].Finite? ==> InBucket(buckets, n, EstimateAt(observed, buckets, target)))
            && (buckets[n].Finite? ==>
                EdgeBelow(buckets, n) <= EstimateAt(observed, buckets, target) <= buckets[n].value)
            && (buckets[n].Infinite? ==> EstimateAt(observed, buckets, target) == EdgeBelow(buckets, n))
  {
    var counts, n := Counts(observed, buckets), Landing(Counts(observed, buckets), target);
    LandingCounts(observed, buckets, target);
    if buckets[n].Finite? {
      var x := RankIsTaken(observed, target);
      RankLandsInBucket(observed, buckets, x, target);
      EdgesEnclose(observed, buckets, x, n);
      InterpolationStaysInside(EdgeBelow(buckets, n), buckets[n].value, CountBefore(counts, n), counts[n], target);
    }
  }

  lemma QuantileIsEstimate(observed: seq<real>, buckets: seq<Bound>, q: real)
    requires Checked(buckets) && observed != [] && 0.0 < q <= 1.0
    ensures var target := Target(q, |observed|);
            && 0.0 < target <= |observed| as real
            && Landing(Counts(observed, buckets), target) < |buckets|
            && Quantile(buckets, Counts(observed, buckets), q) == Some(EstimateAt(observed, buckets, target))
  {
    var counts := Counts(observed, buckets);
    AllAtMostInfinity(observed);
    assert LastCount(counts) == |observed|;
    TargetInRange(q, |observed|);
    RankIsReached(observed, buckets, Target(q, |observed|));
    assert counts[..Min(|buckets|, |counts|)] == counts;
  }

  lemma TargetInRange(q: real, total: nat)
    requires 0.0 < q <= 1.0 && total > 0
    ensures 0.0 < Target(q, total) <= total as real
  {
  }

  /**
   * For any observations and valid buckets, the estimate of a quantile lies in the same finite bucket as
   * the observation of rank ceil(q * n), or is the last finite edge when that one lies above all of them.
   */
  lemma QuantileSharesTheRanksBucket(observed: seq<real>, buckets: seq<Bound>, q: real, x: real)
    requires Checked(buckets) && NonNegative(observed) && observed != [] && 0.0 < q <= 1.0
    requires OfRank(observed, x, q * |observed| as real)
    ensures Quantile(buckets, Counts(observed, buckets), q).Some?
    ensures var estimate := Quantile(buckets, Counts(observed, buckets), q).value;
            exists n: nat :: InBucket(buckets, n, x) &&
                             if buckets[n].Finite? then InBucket(buckets, n, estimate)
                             else estimate == EdgeBelow(buckets, n)
  {
    var target := Target(q, |observed|);
    QuantileIsEstimate(observed, buckets, q);
    RankLandsInBucket(observed, buckets, x, target);
    EstimateStaysInBucket(observed, buckets, target);
    assert InBucket(buckets, Landing(Counts(observed, buckets), target), x);
  }

  // ---- the estimate is linear in the rank ------------------------------------------

  lemma NotInLaterBucket(buckets: seq<Bound>, n: nat, m: nat, x: real)
    requires NonDecreasing(buckets) && InBucket(buckets, n, x) && n < m
    ensures !InBucket(buckets, m, x)
  {
    if m < |buckets| { assert BoundLeq(buckets[n], buckets[m - 1]); }
  }

  lemma BucketIsUnique(buckets: seq<Bound>, n: nat, m: nat, x: real)
    requires NonDecreasing(buckets) && InBucket(buckets, n, x)
    ensures InBucket(buckets, m, x) <==> n == m
  {
    if n < m { NotInLaterBucket(buckets, n, m, x); }
    if m < n && InBucket(buckets, m, x) { NotInLaterBucket(buckets, m, n, x); }
  }

  /** Where a finite bucket starts: at the bound before it, and at zero for the first. */
  function LowerEdge(buckets: seq<Bound>, n: nat): real
    requires n <= |buckets| && (n > 0 ==> buckets[n - 1].Finite?)
  {
    if n == 0 then 0.0 else buckets[n - 1].value
  }

  /** How many observations lie below bucket `n`. */
  function ObservedBefore(observed: seq<real>, buckets: seq<Bound>, n: nat): nat
    requires n <= |buckets|
  {
    if n == 0 then 0 else CountAtMost(observed, buckets[n - 1])
  }

  /** The estimate divides `lower` to `upper` as the rank divides the counts `before` to `upTo`. */
  predicate Divides(estimate: real, lower: real, upper: real, rank: real, before: nat, upTo: nat) {
    (estimate - lower) * (upTo as real - before as real) == (rank - before as real) * (upper - lower)
  }

  lemma FractionTimesWhole(part: real, whole: real, span: real)
    requires whole > 0.0
    ensures part / whole * span * whole == part * span
  {
  }

  lemma InterpolationDivides(lower: real, upper: real, before: nat, upTo: nat, rank: real)
    requires before < upTo
    ensures Divides(Interpolate(lower, Finite(upper), before, upTo, rank), lower, upper, rank, before, upTo)
  {
    FractionTimesWhole(rank - before as real, (upTo - before) as real, upper - lower);
  }

  lemma EstimateDivides(observed: seq<real>, buckets: seq<Bound>, rank: real, x: real, n: nat)
    requires Checked(buckets) && NonNegative(observed) && 0.0 < rank <= |observed| as real
    requires OfRank(observed, x, rank) && InBucket(buckets, n, x) && buckets[n].Finite?
    ensures n == Landing(Counts(observed, buckets), rank) && (n > 0 ==> buckets[n - 1].Finite?)
    ensures (ObservedBefore(observed, buckets, n) as real) < rank <= CountAtMost(observed, buckets[n]) as real
    ensures Divides(EstimateAt(observed, buckets, rank), LowerEdge(buckets, n), buckets[n].value, rank,
                    ObservedBefore(observed, buckets, n), CountAtMost(observed, buckets[n]))
  {
    RankLandsInBucket(observed, buckets, x, rank);
    BucketIsUnique(buckets, n, Landing(Counts(observed, buckets), rank), x);
    LandingCounts(observed, buckets, rank);
    EdgesEnclose(observed, buckets, x, n);
    InterpolationDivides(LowerEdge(buckets, n), buckets[n].value, ObservedBefore(observed, buckets, n),
                         CountAtMost(observed, buckets[n]), rank);
  }

  /** `estimate` is what the histogram answers for the quantile that asks for that rank. */
  ghost predicate Answers(observed: seq<real>, buckets: seq<Bound>, q: real, rank: real, estimate: real) {
    && observed != [] && 0.0 < q <= 1.0 && rank == q * |observed| as real
    && Quantile(buckets, Counts(observed, buckets), q) == Some(estimate)
  }

  lemma AnswerIsEstimate(observed: seq<real>, buckets: seq<Bound>, q: real, rank: real, estimate: real)
    requires Checked(buckets) && Answers(observed, buckets, q, rank, estimate)
    ensures 0.0 < rank <= |observed| as real && Landing(Counts(observed, buckets), rank) < |buckets|
    ensures estimate == EstimateAt(observed, buckets, rank)
  {
    QuantileIsEstimate(observed, buckets, q);
  }

  /**
   * When the observation of rank `q * n` lies in a finite bucket, the estimate divides that bucket as the rank
   * divides the observations in it.
   */
  lemma EstimateIsProportional(observed: seq<real>, buckets: seq<Bound>, q: real, rank: real, estimate: real, x: real,
                               n: nat)
    requires Checked(buckets) && NonNegative(observed) && Answers(observed, buckets, q, rank, estimate)
    requires OfRank(observed, x, rank) && InBucket(buckets, n, x) && buckets[n].Finite?
    ensures n > 0 ==> buckets[n - 1].Finite?
    ensures Divides(estimate, LowerEdge(buckets, n), buckets[n].value, rank, ObservedBefore(observed, buckets, n),
                    CountAtMost(observed, buckets[n]))
    ensures ObservedBefore(observed, buckets, n) < CountAtMost(observed, buckets[n])
  {
    AnswerIsEstimate(observed, buckets, q, rank, estimate);
    EstimateDivides(observed, buckets, rank, x, n);
  }

  /** Estimates step as ranks do, and the last rank up to a bound gets that bound. */
  predicate StepsLike(e1: real, e2: real, r1: real, r2: real, lower: real, upper: real, before: nat, upTo: nat) {
    && (e2 - e1) * (upTo as real - before as real) == (r2 - r1) * (upper - lower)
    && (r2 == upTo as real ==> e2 == upper)
  }

  lemma StepsAreEqual(e1: real, e2: real, r1: real, r2: real, lower: real, upper: real, before: nat, upTo: nat)
    requires Divides(e1, lower, upper, r1, before, upTo) && Divides(e2, lower, upper, r2, before, upTo)
    requires before < upTo
    ensures StepsLike(e1, e2, r1, r2, lower, upper, before, upTo)
  {
    var width := upTo as real - before as real;
    DifferenceOfProducts(e2 - lower, e1 - lower, width);
    DifferenceOfProducts(r2 - before as real, r1 - before as real, upper - lower);
    if r2 == upTo as real { SameProduct(e2 - lower, upper - lower, width); }
  }

  lemma DifferenceOfProducts(a: real, b: real, c: real)
    ensures (a - b) * c == a * c - b * c
  {
  }

  lemma SameProduct(a: real, b: real, width: real)
    requires a * width == width * b && width > 0.0
    ensures a == b
  {
  }

  lemma EqualStepsAtRank(observed: seq<real>, buckets: seq<Bound>, r1: real, x1: real, r2: real, x2: real, n: nat)
    requires Checked(buckets) && NonNegative(observed)
    requires 0.0 < r1 <= |observed| as real && 0.0 < r2 <= |observed| as real
    requires OfRank(observed, x1, r1) && InBucket(buckets, n, x1)
    requires OfRank(observed, x2, r2) && InBucket(buckets, n, x2) && buckets[n].Finite?
    ensures n > 0 ==> buckets[n - 1].Finite?
    ensures Landing(Counts(observed, buckets), r1) == Landing(Counts(observed, buckets), r2) == n
    ensures StepsLike(EstimateAt(observed, buckets, r1), EstimateAt(observed, buckets, r2), r1, r2,
                      LowerEdge(buckets, n), buckets[n].value, ObservedBefore(observed, buckets, n),
                      CountAtMost(observed, buckets[n]))
  {
    EstimateDivides(observed, buckets, r1, x1, n);
    EstimateDivides(observed, buckets, r2, x2, n);
    StepsAreEqual(EstimateAt(observed, buckets, r1), EstimateAt(observed, buckets, r2), r1, r2, LowerEdge(buckets, n),
                  buckets[n].value, ObservedBefore(observed, buckets, n), CountAtMost(observed, buckets[n]));
  }

  /**
   * Equal steps of rank inside a finite bucket give equal steps of the estimate, which reaches the bucket's
   * bound when the rank reaches the bucket's last observation.
   */
  lemma EqualStepsOfRank(observed: seq<real>, buckets: seq<Bound>, q1: real, r1: real, e1: real, x1: real,
                         q2: real, r2: real, e2: real, x2: real, n: nat)
    requires Checked(buckets) && NonNegative(observed)
    requires Answers(observed, buckets, q1, r1, e1) && OfRank(observed, x1, r1) && InBucket(buckets, n, x1)
    requires Answers(observed, buckets, q2, r2, e2) && OfRank(observed, x2, r2) && InBucket(buckets, n, x2)
    requires buckets[n].Finite?
    ensures n > 0 ==> buckets[n - 1].Finite?
    ensures StepsLike(e1, e2, r1, r2, LowerEdge(buckets, n), buckets[n].value, ObservedBefore(observed, buckets, n),
                      CountAtMost(observed, buckets[n]))
  {
    AnswerIsEstimate(observed, buckets, q1, r1, e1);
    AnswerIsEstimate(observed, buckets, q2, r2, e2);
    EqualStepsAtRank(observed, buckets, r1, x1, r2, x2, n);
  }

  // ---- quantiles are ordered -------------------------------------------------------

  lemma InterpolationIsMonotone(lower: real, upper: Bound, countBefore: nat, count: nat, t1: real, t2: real)
    requires (countBefore as real) < t1 <= t2 <= count as real && (upper.Finite? ==> lower <= upper.value)
    ensures Interpolate(lower, upper, countBefore, count, t1) <= Interpolate(lower, upper, countBefore, count, t2)
  {
    if upper.Finite? {
      QuotientGrows(t1 - countBefore as real, t2 - countBefore as real, (count - countBefore) as real);
      ProductGrows((t1 - countBefore as real) / (count - countBefore) as real,
                   (t2 - countBefore as real) / (count - countBefore) as real, upper.value - lower);
    }
  }

  lemma QuotientGrows(a: real, b: real, d: real)
    requires a <= b && d > 0.0
    ensures a / d <= b / d
  {
  }

  lemma ProductGrows(a: real, b: real, span: real)
    requires a <= b && span >= 0.0
    ensures a * span <= b * span
  {
  }

  lemma {:induction false} EdgeAtLeast(buckets: seq<Bound>, n: nat, m: nat)
    requires NonDecreasing(buckets) && n < m <= |buckets| && buckets[n].Finite?
    ensures buckets[n].value <= EdgeBelow(buckets, m)
    decreases m
  {
    if buckets[m - 1].Finite? {
      assert BoundLeq(buckets[n], buckets[m - 1]);
    } else {
      EdgeAtLeast(buckets, n, m - 1);
    }
  }

  lemma SameBucketOrdered(observed: seq<real>, buckets: seq<Bound>, t1: real, t2: real)
    requires Checked(buckets) && NonNegative(observed) && 0.0 < t1 <= t2 <= |observed| as real
    requires Landing(Counts(observed, buckets), t1) == Landing(Counts(observed, buckets), t2) < |buckets|
    ensures EstimateAt(observed, buckets, t1) <= EstimateAt(observed, buckets, t2)
  {
    var counts, n := Counts(observed, buckets), Landing(Counts(observed, buckets), t1);
    LandingCounts(observed, buckets, t1);
    LandingCounts(observed, buckets, t2);
    EstimateStaysInBucket(observed, buckets, t1);
    InterpolationIsMonotone(EdgeBelow(buckets, n), buckets[n], CountBefore(counts, n), counts[n], t1, t2);
  }

  lemma LandingGrows(cumulative: seq<nat>, t1: real, t2: real)
    requires t1 <= t2
    ensures Landing(cumulative, t1) <= Landing(cumulative, t2)
  {
    LandingMeaning(cumulative, t1);
    LandingMeaning(cumulative, t2);
  }

  /** A later landing means the earlier bucket is finite: the catch-all holds everything. */
  lemma EarlierIsFinite(observed: seq<real>, buckets: seq<Bound>, t1: real, t2: real)
    requires Checked(buckets) && t2 <= |observed| as real
    requires Landing(Counts(observed, buckets), t1) < Landing(Counts(observed, buckets), t2)
    ensures buckets[Landing(Counts(observed, buckets), t1)].Finite?
  {
    var counts, n := Counts(observed, buckets), Landing(Counts(observed, buckets), t1);
    LandingMeaning(counts, t2);
    AllAtMostInfinity(observed);
    assert counts[n] == CountAtMost(observed, buckets[n]);
  }

  lemma EstimatesAreOrdered(observed: seq<real>, buckets: seq<Bound>, t1: real, t2: real)
    requires Checked(buckets) && NonNegative(observed) && 0.0 < t1 <= t2 <= |observed| as real
    requires Landing(Counts(observed, buckets), t1) < |buckets| && Landing(Counts(observed, buckets), t2) < |buckets|
    ensures EstimateAt(observed, buckets, t1) <= EstimateAt(observed, buckets, t2)
  {
    var n, m := Landing(Counts(observed, buckets), t1), Landing(Counts(observed, buckets), t2);
    LandingGrows(Counts(observed, buckets), t1, t2);
    if n == m {
      SameBucketOrdered(observed, buckets, t1, t2);
    } else {
      EarlierIsFinite(observed, buckets, t1, t2);
      EstimateStaysInBucket(observed, buckets, t1);
      EstimateStaysInBucket(observed, buckets, t2);
      EdgeAtLeast(buckets, n, m);
    }
  }

  lemma TargetGrows(q1: real, q2: real, total: nat)
    requires q1 <= q2
    ensures Target(q1, total) <= Target(q2, total)
  {
  }

  /** A larger quantile never has a smaller estimate. */
  lemma QuantilesAreOrdered(observed: seq<real>, buckets: seq<Bound>, q1: real, q2: real)
    requires Checked(buckets) && NonNegative(observed) && observed != [] && 0.0 < q1 <= q2 <= 1.0
    ensures var counts := Counts(observed, buckets);
            && Quantile(buckets, counts, q1).Some? && Quantile(buckets, counts, q2).Some?
            && Quantile(buckets, counts, q1).value <= Quantile(buckets, counts, q2).value
  {
    QuantileIsEstimate(observed, buckets, q1);
    QuantileIsEstimate(observed, buckets, q2);
    TargetGrows(q1, q2, |observed|);
    EstimatesAreOrdered(observed, buckets, Target(q1, |observed|), Target(q2, |observed|));
  }

  /** A snapshot's percentiles are ordered, and absent exactly when nothing was observed. */
  lemma SnapshotIsOrdered(name: string, observed: seq<real>, buckets: seq<Bound>)
    requires Checked(buckets) && NonNegative(observed)
    ensures var s := SnapshotOf(name, observed, buckets);
            && (observed == [] <==> s.p50 == None) && (observed == [] <==> s.p95 == None)
               && (observed == [] <==> s.p99 == None)
            && (observed != [] ==> s.p50.value <= s.p95.value <= s.p99.value)
            && s.bucketCounts[|buckets| - 1] == s.count
  {
    AllAtMostInfinity(observed);
    if observed != [] {
      QuantilesAreOrdered(observed, buckets, 0.5, 0.95);
      QuantilesAreOrdered(observed, buckets, 0.95, 0.99);
    }
  }

  /** A snapshot counts the observations, up to each bound and in all, and answers for its three quantiles. */
  lemma SnapshotAnswers(name: string, observed: seq<real>, buckets: seq<Bound>)
    requires Checked(buckets) && NonNegative(observed) && observed != []
    ensures var s, n := SnapshotOf(name, observed, buckets), |observed| as real;
            && s.count == |observed| && s.sum == Total(observed)
            && s.buckets == buckets && |s.bucketCounts| == |buckets|
            && (forall j :: 0 <= j < |buckets| ==> s.bucketCounts[j] == CountAtMost(observed, buckets[j]))
            && s.p50.Some? && Answers(observed, buckets, 0.5, 0.5 * n, s.p50.value)
            && s.p95.Some? && Answers(observed, buckets, 0.95, 0.95 * n, s.p95.value)
            && s.p99.Some? && Answers(observed, buckets, 0.99, 0.99 * n, s.p99.value)
  {
    QuantileIsEstimate(observed, buckets, 0.5);
    QuantileIsEstimate(observed, buckets, 0.95);
    QuantileIsEstimate(observed, buckets, 0.99);
  }
}
