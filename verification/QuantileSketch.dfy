/** The quantile sketch as the source keeps it: an object whose methods update the two
    bucket stores, the counters and the extrema in place and check every counter. */
module QuantileSketch {
  import opened Prelude
  import opened Gamma
  import opened SketchAlgebra

  /** A double as the sketch sees it: exact, or one of the values it ignores or refuses. */
  datatype Double = Finite(value: real) | NotFinite

  // ----- the bucket mapping -----

  function BucketOf(alpha: real): Bucketing
    requires ValidAlpha(alpha)
  {
    (v: real) =>
      if v > 0.0 then Pos(Key(GammaOf(alpha), v))
      else if v < 0.0 then Neg(Key(GammaOf(alpha), -v))
      else Zero
  }

  /** Buckets in increasing order of the values they hold. */
  predicate Before(a: Bucket, b: Bucket) {
    match a
    case Neg(i) => b.Neg? ==> i > b.index
    case Zero => b.Pos?
    case Pos(i) => b.Pos? && i < b.index
  }

  function Representative(alpha: real, b: Bucket): real
    requires ValidAlpha(alpha)
  {
    match b
    case Neg(i) => -BucketValue(GammaOf(alpha), i)
    case Zero => 0.0
    case Pos(i) => BucketValue(GammaOf(alpha), i)
  }

  lemma RepresentativeIncreases(alpha: real, a: Bucket, b: Bucket)
    requires ValidAlpha(alpha) && Before(a, b)
    ensures Representative(alpha, a) < Representative(alpha, b)
  {
    if a.Neg? && b.Neg? { BucketValueIncreases(GammaOf(alpha), b.index, a.index); }
    if a.Pos? && b.Pos? { BucketValueIncreases(GammaOf(alpha), a.index, b.index); }
  }

  lemma BucketsFollowValues(alpha: real, v: real, w: real)
    requires ValidAlpha(alpha) && v <= w
    ensures !Before(BucketOf(alpha)(w), BucketOf(alpha)(v))
  {
    if v > 0.0 { KeyMonotone(GammaOf(alpha), v, w); }
    if w < 0.0 { KeyMonotone(GammaOf(alpha), -w, -v); }
  }

  /** A bucket stands for each of its values within the relative accuracy. */
  lemma RepresentativeAccurate(alpha: real, v: real)
    requires ValidAlpha(alpha)
    ensures Abs(Representative(alpha, BucketOf(alpha)(v)) - v) <= alpha * Abs(v)
  {
    hide Key, BucketValue, Pow;
    var g := GammaOf(alpha);
    if v != 0.0 {
      var m := Abs(v);
      KeyBrackets(g, m);
      BucketAccuracy(alpha, Key(g, m), m);
      RelativeError(alpha, BucketValue(g, Key(g, m)), m);
    }
  }

  // ----- quantiles -----

  ghost function Under(alpha: real, b: Bucket): iset<real>
    requires ValidAlpha(alpha)
  {
    iset v: real | Before(BucketOf(alpha)(v), b)
  }

  ghost function UpTo(alpha: real, b: Bucket): iset<real>
    requires ValidAlpha(alpha)
  {
    iset v: real | !Before(b, BucketOf(alpha)(v))
  }

  /** The bucket at which the cumulative weight first reaches a rank. */
  ghost predicate HoldsRank(alpha: real, ss: seq<Sample>, rank: real, b: Bucket)
    requires ValidAlpha(alpha)
  {
    Weight(ss, Under(alpha, b)) as real < rank <= Weight(ss, UpTo(alpha, b)) as real
  }

  ghost function Rank(ss: seq<Sample>, q: real): real { q * TotalWeight(ss) as real }

  ghost predicate IsQuantile(alpha: real, ss: seq<Sample>, q: real, r: real)
    requires ValidAlpha(alpha)
  {
    exists b :: HoldsRank(alpha, ss, Rank(ss, q), b) && r == Representative(alpha, b)
  }

  predicate Exceeds(v: real, x: real) { v > x }

  ghost function LessThan(x: real): iset<real> { iset v: real | Exceeds(x, v) }

  ghost function AtMost(x: real): iset<real> { iset v: real | !Exceeds(v, x) }

  ghost function MoreThan(x: real): iset<real> { iset v: real | Exceeds(v, x) }

  function Ceil(x: real): int { -((-x).Floor) }

  /** x is the k-th smallest of the samples, counting repetitions. */
  ghost predicate IsOrderStatistic(ss: seq<Sample>, k: int, x: real) {
    Weight(ss, LessThan(x)) < k <= Weight(ss, AtMost(x))
  }

  /** The samples of plain values, once each. */
  function Plain(vs: seq<real>): (ss: seq<Sample>)
    ensures |ss| == |vs| && ValidSamples(ss)
  {
    seq(|vs|, i requires 0 <= i < |vs| => Sample(vs[i], 1))
  }

  lemma {:induction false} WeightOfPrefix(vs: seq<real>, m: nat, s: iset<real>)
    requires m <= |vs|
    ensures (forall i | 0 <= i < m :: vs[i] in s) ==> Weight(Plain(vs), s) >= m
    ensures (forall i | m <= i < |vs| :: vs[i] !in s) ==> Weight(Plain(vs), s) <= m
  {
    if vs == [] {
    } else {
      var n := |vs| - 1;
      assert Plain(vs)[..n] == Plain(vs[..n]);
      WeightOfPrefix(vs[..n], if m == |vs| then n else m, s);
      WeightNonNegative(Plain(vs[..n]), s);
    }
  }

  /** Sorting the values puts the k-th order statistic at position k, however they
      arrived. */
  lemma {:induction false} SortedPositionIsOrderStatistic(arrived: seq<real>, sorted: seq<real>, k: nat)
    requires multiset(Plain(arrived)) == multiset(Plain(sorted))
    requires forall i, j | 0 <= i <= j < |sorted| :: sorted[i] <= sorted[j]
    requires 0 < k <= |sorted|
    ensures IsOrderStatistic(Plain(arrived), k, sorted[k - 1])
  {
    var x := sorted[k - 1];
    WeightOfPrefix(sorted, k - 1, LessThan(x));
    WeightOfPrefix(sorted, k, AtMost(x));
    WeightIgnoresOrder(Plain(arrived), Plain(sorted), LessThan(x));
    WeightIgnoresOrder(Plain(arrived), Plain(sorted), AtMost(x));
  }

  /** The accuracy guarantee: a quantile is within alpha * |x| of the ceil(q * n)-th
      smallest value x. */
  lemma {:induction false} QuantileIsAccurate(alpha: real, ss: seq<Sample>, q: real, r: real, x: real)
    requires ValidAlpha(alpha) && ValidSamples(ss)
    requires IsQuantile(alpha, ss, q, r)
    requires IsOrderStatistic(ss, Ceil(Rank(ss, q)), x)
    ensures Abs(r - x) <= alpha * Abs(x)
  {
    var b :| HoldsRank(alpha, ss, Rank(ss, q), b) && r == Representative(alpha, b);
    var home := BucketOf(alpha)(x);
    if Before(home, b) {
      forall s | s in ss && s.value in AtMost(x) ensures s.value in Under(alpha, b) {
        BucketsFollowValues(alpha, s.value, x);
      }
      WeightMonotone(ss, AtMost(x), Under(alpha, b));
      assert false;
    }
    if Before(b, home) {
      forall s | s in ss && s.value in UpTo(alpha, b) ensures s.value in LessThan(x) {
        if s.value >= x { BucketsFollowValues(alpha, x, s.value); }
      }
      WeightMonotone(ss, UpTo(alpha, b), LessThan(x));
      assert false;
    }
    assert home == b;
    RepresentativeAccurate(alpha, x);
  }

  /** Larger q never gives a smaller quantile. */
  lemma {:induction false} QuantileIsMonotone(alpha: real, ss: seq<Sample>, q1: real, q2: real, r1: real, r2: real)
    requires ValidAlpha(alpha) && ValidSamples(ss) && q1 <= q2
    requires IsQuantile(alpha, ss, q1, r1) && IsQuantile(alpha, ss, q2, r2)
    ensures r1 <= r2
  {
    var b1 :| HoldsRank(alpha, ss, Rank(ss, q1), b1) && r1 == Representative(alpha, b1);
    var b2 :| HoldsRank(alpha, ss, Rank(ss, q2), b2) && r2 == Representative(alpha, b2);
    if Before(b2, b1) {
      WeightMonotone(ss, UpTo(alpha, b2), Under(alpha, b1));
      RankIsMonotone(ss, q1, q2);
      assert false;
    }
    if Before(b1, b2) { RepresentativeIncreases(alpha, b1, b2); }
  }

  lemma {:induction false} RankIsMonotone(ss: seq<Sample>, q1: real, q2: real)
    requires ValidSamples(ss) && q1 <= q2
    ensures Rank(ss, q1) <= Rank(ss, q2)
  {
    TotalNonNegative(ss);
    hide TotalWeight, ValidSamples;
    Ordered(TotalWeight(ss) as real, q1, q2);
  }

  lemma Ordered(c: real, x: real, y: real)
    requires c >= 0.0 && x <= y
    ensures x * c <= y * c
  {
    assert y * c - x * c == (y - x) * c;
  }

  lemma {:induction false} TotalNonNegative(ss: seq<Sample>)
    requires ValidSamples(ss)
    ensures TotalWeight(ss) >= 0
  {
    if ss != [] { TotalNonNegative(ss[..|ss| - 1]); }
  }

  // ----- one bucket store absorbing another -----

  function Bump(bins: map<int, int>, index: int, count: int): map<int, int> {
    bins[index := Get(bins, index) + count]
  }

  /** Adds to one bucket, refusing a 1025th bucket and a bin beyond a signed 64-bit
      counter. */
  method StoreAdd(bins: map<int, int>, index: int, count: int) returns (outcome: Outcome, r: map<int, int>)
    requires BinsFit(bins) && count > 0
    ensures outcome.Done? <==> BinsFit(Bump(bins, index, count))
    ensures outcome.Done? ==> r == Bump(bins, index, count) && BinsFit(r)
  {
    ghost var next := Bump(bins, index, count);
    assert next.Keys == bins.Keys + {index};
    assert index in bins ==> next.Keys == bins.Keys;
    if index !in bins && |bins| >= MAX_BINS {
      assert |next.Keys| == |bins.Keys| + 1;
      return Raised(InvalidArgument), bins;
    }
    if MAX_INT64 - Get(bins, index) < count {
      assert next[index] > MAX_INT64;
      return Raised(OverflowError), bins;
    }
    return Done, Bump(bins, index, count);
  }

  /** What a store holds once the bins of another, except those in rest, are added. */
  ghost predicate PartlyMerged(into: map<int, int>, from: map<int, int>, rest: set<int>, bins: map<int, int>) {
    && (forall i :: i in bins <==> i in into || (i in from && i !in rest))
    && (forall i | i in bins :: bins[i] == Get(into, i) + if i in rest then 0 else Get(from, i))
  }

  lemma MergeOneMore(into: map<int, int>, from: map<int, int>, rest: set<int>, bins: map<int, int>, k: int)
    requires PartlyMerged(into, from, rest, bins) && k in rest && k in from
    ensures PartlyMerged(into, from, rest - {k}, Bump(bins, k, from[k]))
  {
  }

  lemma MergedSoFarFits(into: map<int, int>, from: map<int, int>, rest: set<int>, bins: map<int, int>)
    requires PartlyMerged(into, from, rest, bins) && Positive(from)
    ensures BinsFit(AddBins(into, from)) ==> BinsFit(bins)
  {
    var all := AddBins(into, from);
    forall i | i in bins.Keys ensures i in all.Keys { assert i in bins; }
    SubsetCardinality(bins.Keys, all.Keys);
    forall i | i in bins ensures bins[i] <= all[i] { }
  }

  /** Adds the bins of one store to another, in index order. */
  method MergeStore(into: map<int, int>, from: map<int, int>) returns (outcome: Outcome, bins: map<int, int>)
    requires Positive(into) && Positive(from) && BinsFit(into)
    ensures outcome.Done? <==> BinsFit(AddBins(into, from))
    ensures outcome.Done? ==> bins == AddBins(into, from)
  {
    outcome, bins := Done, into;
    var rest := from.Keys;
    while rest != {}
      invariant outcome.Done? && BinsFit(bins)
      invariant rest <= from.Keys && PartlyMerged(into, from, rest, bins)
    {
      ghost var least := LeastInt(rest);
      var k :| k in rest && forall j | j in rest :: k <= j;
      MergeOneMore(into, from, rest, bins, k);
      rest := rest - {k};
      MergedSoFarFits(into, from, rest, Bump(bins, k, from[k]));
      outcome, bins := StoreAdd(bins, k, from[k]);
      if outcome.Raised? { return; }
    }
    AllMerged(into, from, bins);
  }

  lemma AllMerged(into: map<int, int>, from: map<int, int>, bins: map<int, int>)
    requires PartlyMerged(into, from, {}, bins)
    ensures bins == AddBins(into, from)
  {
    var all := AddBins(into, from);
    forall i ensures i in bins.Keys <==> i in all.Keys { assert i in bins <==> i in bins.Keys; }
    assert bins.Keys == all.Keys;
    assert forall i | i in bins :: bins[i] == all[i];
  }

  // ----- walking the buckets -----

  /** The walk has passed exactly the buckets before b, and stops at b. */
  lemma {:induction false} WalkStops(alpha: real, ss: seq<Sample>, passed: set<Bucket>, b: Bucket, rank: real)
    requires ValidAlpha(alpha) && ValidSamples(ss) && b !in passed
    requires forall s | s in ss :: BucketOf(alpha)(s.value) in passed <==> Before(BucketOf(alpha)(s.value), b)
    requires Weight(ss, InBuckets(BucketOf(alpha), passed)) as real < rank
    requires rank <= Weight(ss, InBuckets(BucketOf(alpha), passed + {b})) as real
    ensures HoldsRank(alpha, ss, rank, b)
  {
    WeightAgrees(ss, InBuckets(BucketOf(alpha), passed), Under(alpha, b));
    WeightAgrees(ss, InBuckets(BucketOf(alpha), passed + {b}), UpTo(alpha, b));
  }

  /** What count_greater_than answers: everything below the minimum, nothing from the
      maximum on, all positive values at zero, and in between the values above the
      threshold together with those that share its bucket. */
  ghost function GreaterOrIndistinct(alpha: real, ss: seq<Sample>, e: Extrema, t: real): int
    requires ValidAlpha(alpha)
  {
    if t >= e.max then 0
    else if t < e.min then TotalWeight(ss)
    else Weight(ss, MoreThan(t)) + Weight(ss, Indistinct(alpha, t))
  }

  /** The values up to t that the sketch cannot tell from values above it. */
  ghost function Indistinct(alpha: real, t: real): iset<real>
    requires ValidAlpha(alpha)
  {
    iset v: real | BucketOf(alpha)(v) == BucketOf(alpha)(t) && t != 0.0 && !Exceeds(v, t)
  }

  /** A conservative count: never below the true one, and exact at zero, below the
      minimum and from the maximum on. */
  lemma {:induction false} CountIsConservative(alpha: real, ss: seq<Sample>, e: Extrema, t: real)
    requires ValidAlpha(alpha) && ValidSamples(ss) && AreExtrema(ss, e)
    ensures GreaterOrIndistinct(alpha, ss, e, t) >= Weight(ss, MoreThan(t))
    ensures t == 0.0 || t >= e.max || t < e.min ==> GreaterOrIndistinct(alpha, ss, e, t) == Weight(ss, MoreThan(t))
  {
    WeightNonNegative(ss, Indistinct(alpha, t));
    if t >= e.max { WeightOfNone(ss, MoreThan(t)); }
    if t < e.min { WeightOfAll(ss, MoreThan(t)); }
    if t == 0.0 { WeightOfNone(ss, Indistinct(alpha, t)); }
  }

  /** ... and never above what lies within the accuracy of the threshold or above it. */
  lemma {:induction false} CountIsTight(alpha: real, ss: seq<Sample>, e: Extrema, t: real, near: iset<real>)
    requires ValidAlpha(alpha) && ValidSamples(ss) && AreExtrema(ss, e)
    requires forall v :: v in near <==> if t > 0.0 then (1.0 + alpha) * v > (1.0 - alpha) * t else (1.0 - alpha) * v > (1.0 + alpha) * t
    ensures GreaterOrIndistinct(alpha, ss, e, t) <= Weight(ss, near)
  {
    hide Weight, BucketOf;
    forall v | v > t ensures v in near { AboveIsNear(alpha, t, v); }
    if t >= e.max {
      WeightNonNegative(ss, near);
    } else if t < e.min {
      WeightOfAll(ss, near);
    } else {
      CountedWeight(alpha, ss, e, t);
      forall v | v in Counted(alpha, t) ensures v in near {
        if v <= t { SharedIsNear(alpha, t, v); }
      }
      WeightMonotone(ss, Counted(alpha, t), near);
    }
  }

  lemma AboveIsNear(alpha: real, t: real, v: real)
    requires ValidAlpha(alpha) && v > t
    ensures if t > 0.0 then (1.0 + alpha) * v > (1.0 - alpha) * t else (1.0 - alpha) * v > (1.0 + alpha) * t
  {
    if t > 0.0 { Widened(1.0 - alpha, 1.0 + alpha, t, v); } else { Widened(1.0 - alpha, 1.0 + alpha, -v, -t); }
  }

  lemma Widened(less: real, more: real, x: real, y: real)
    requires 0.0 < less < more && x < y && y >= 0.0
    ensures less * x < more * y
  {
    Scales(less, x, y);
    assert more * y - less * y == (more - less) * y >= 0.0;
  }

  /** Magnitudes of one bucket are within the accuracy of each other. */
  lemma OneBucketIsNear(alpha: real, i: int, v: real, w: real)
    requires ValidAlpha(alpha) && Brackets(GammaOf(alpha), v, i) && Brackets(GammaOf(alpha), w, i)
    ensures (1.0 - alpha) * w < (1.0 + alpha) * v
  {
    hide BucketValue, Pow;
    BucketAccuracy(alpha, i, v);
    BucketAccuracy(alpha, i, w);
  }

  lemma SharedIsNear(alpha: real, t: real, v: real)
    requires ValidAlpha(alpha) && v <= t != 0.0 && BucketOf(alpha)(v) == BucketOf(alpha)(t)
    ensures if t > 0.0 then (1.0 + alpha) * v > (1.0 - alpha) * t else (1.0 - alpha) * v > (1.0 + alpha) * t
  {
    hide Key, Pow;
    var g := GammaOf(alpha);
    KeyBrackets(g, Abs(v));
    KeyBrackets(g, Abs(t));
    if t > 0.0 { OneBucketIsNear(alpha, Key(g, t), v, t); } else { OneBucketIsNear(alpha, Key(g, -t), -t, -v); }
  }

  /** Values in the threshold's bucket or a later one, as the walk collects them. */
  ghost function FromBucket(alpha: real, t: real): iset<real>
    requires ValidAlpha(alpha)
  {
    iset v: real | !Before(BucketOf(alpha)(v), BucketOf(alpha)(t))
  }

  lemma BetweenSharesBucket(alpha: real, v: real, t: real, u: real)
    requires ValidAlpha(alpha) && v <= t <= u && BucketOf(alpha)(v) == BucketOf(alpha)(u)
    ensures BucketOf(alpha)(v) == BucketOf(alpha)(t)
  {
    BucketsFollowValues(alpha, v, t);
    BucketsFollowValues(alpha, t, u);
  }

  /** The values a threshold strictly inside the range counts. */
  ghost function Counted(alpha: real, t: real): iset<real>
    requires ValidAlpha(alpha)
  {
    MoreThan(t) + Indistinct(alpha, t)
  }

  lemma CountedShrinks(alpha: real, t: real, u: real)
    requires ValidAlpha(alpha) && t <= u
    ensures Counted(alpha, u) <= Counted(alpha, t)
  {
    forall v | v in Counted(alpha, u) ensures v in Counted(alpha, t) {
      if v <= t < u { BetweenSharesBucket(alpha, v, t, u); }
    }
  }

  lemma {:induction false} FromBucketWeight(alpha: real, ss: seq<Sample>, t: real)
    requires ValidAlpha(alpha) && ValidSamples(ss) && t != 0.0
    ensures Weight(ss, FromBucket(alpha, t)) == Weight(ss, Counted(alpha, t))
  {
    forall s | s in ss
      ensures s.value in FromBucket(alpha, t) <==> s.value in Counted(alpha, t)
    {
      if s.value > t { BucketsFollowValues(alpha, t, s.value); } else { BucketsFollowValues(alpha, s.value, t); }
    }
    WeightAgrees(ss, FromBucket(alpha, t), Counted(alpha, t));
  }

  lemma {:induction false} CountedWeight(alpha: real, ss: seq<Sample>, e: Extrema, t: real)
    requires ValidAlpha(alpha) && ValidSamples(ss) && e.min <= t < e.max
    ensures GreaterOrIndistinct(alpha, ss, e, t) == Weight(ss, Counted(alpha, t))
  {
    WeightUnion(ss, MoreThan(t), Indistinct(alpha, t));
  }

  lemma {:induction false} WeightOfSubset(ss: seq<Sample>, vs: iset<real>, ws: iset<real>)
    requires ValidSamples(ss) && vs <= ws
    ensures 0 <= Weight(ss, vs) <= Weight(ss, ws) <= TotalWeight(ss)
  {
    WeightNonNegative(ss, vs);
    WeightMonotone(ss, vs, ws);
    var all := ws + iset s | s in ss :: s.value;
    WeightMonotone(ss, ws, all);
    WeightOfAll(ss, all);
  }

  /** A higher threshold never counts more, across sign changes too. */
  lemma {:induction false} CountIsAntitone(alpha: real, ss: seq<Sample>, e: Extrema, t: real, u: real)
    requires ValidAlpha(alpha) && ValidSamples(ss) && AreExtrema(ss, e) && t <= u
    ensures GreaterOrIndistinct(alpha, ss, e, t) >= GreaterOrIndistinct(alpha, ss, e, u)
  {
    CountedShrinks(alpha, t, u);
    WeightOfSubset(ss, Counted(alpha, u), Counted(alpha, t));
    if e.min <= t < e.max { CountedWeight(alpha, ss, e, t); }
    if e.min <= u < e.max { CountedWeight(alpha, ss, e, u); }
  }

  // ----- adding one sample -----

  /** Adding one sample touches one counter, the count and the extrema. */
  function Plus(s: Sketch, b: Bucket, x: Sample): Sketch {
    Sketch(if b.Pos? then Bump(s.positive, b.index, x.weight) else s.positive,
           if b.Neg? then Bump(s.negative, b.index, x.weight) else s.negative,
           if b.Zero? then s.zeroCount + x.weight else s.zeroCount,
           s.count + x.weight,
           JoinExtrema(s.extrema, Some(Extrema(x.value, x.value))))
  }

  lemma AddOneBin(bins: map<int, int>, i: int, count: int)
    ensures AddBins(bins, map[i := count]) == Bump(bins, i, count)
  {
    SameBins(AddBins(bins, map[i := count]), Bump(bins, i, count));
  }

  lemma AddNoBins(bins: map<int, int>)
    ensures AddBins(bins, map[]) == bins
  {
    SameBins(AddBins(bins, map[]), bins);
  }

  lemma PlusIsCombine(s: Sketch, bucket: Bucketing, x: Sample)
    ensures Plus(s, bucket(x.value), x) == Combine(s, Single(bucket, x))
  {
    var one := Single(bucket, x);
    match bucket(x.value)
    case Neg(i) => AddOneBin(s.negative, i, x.weight); AddNoBins(s.positive);
    case Zero => AddNoBins(s.negative); AddNoBins(s.positive);
    case Pos(i) => AddOneBin(s.positive, i, x.weight); AddNoBins(s.negative);
  }

  lemma BeyondAnyBin(s: Sketch, b: Bucket, x: Sample)
    requires WellFormed(s) && x.weight > MAX_INT64
    ensures !Fits(Plus(s, b, x))
  {
    assert BinCount(Plus(s, b, x), b) > MAX_INT64;
  }

  lemma {:induction false} SamplesGrow(bucket: Bucketing, ss: seq<Sample>, x: Sample)
    ensures OfSamples(bucket, ss + [x]) == Plus(OfSamples(bucket, ss), bucket(x.value), x)
  {
    assert (ss + [x])[..|ss|] == ss;
    PlusIsCombine(OfSamples(bucket, ss), bucket, x);
  }

  /** What is rejected at some value of a batch rejects the batch. */
  lemma {:induction false} RejectedFrom(alpha: real, before: seq<Sample>, values: seq<Double>, i: nat)
    requires ValidAlpha(alpha) && ValidSamples(before) && i <= |values|
    requires !Fits(OfSamples(BucketOf(alpha), before + Observations(values[..i])))
    ensures !Fits(OfSamples(BucketOf(alpha), before + Observations(values)))
  {
    hide OfSamples, Fits, BucketOf, Observations;
    var next, rest := before + Observations(values[..i]), Observations(values[i..]);
    StillRejected(alpha, next, rest);
    ObservationsSplit(values, i);
    assert next + rest == before + Observations(values);
  }

  // ----- the sketch object -----

  lemma {:induction false} EmptyHasNoWeight(alpha: real, ss: seq<Sample>)
    requires ValidAlpha(alpha) && ValidSamples(ss) && OfSamples(BucketOf(alpha), ss).count == 0
    ensures ss == [] && OfSamples(BucketOf(alpha), ss) == Empty()
  {
    OfSamplesWellFormed(BucketOf(alpha), ss);
    if ss != [] { ExtremaAreExact(BucketOf(alpha), ss); }
  }

  lemma {:induction false} NothingWalked(alpha: real, ss: seq<Sample>)
    requires ValidAlpha(alpha)
    ensures Weight(ss, InBuckets(BucketOf(alpha), {})) == 0
  {
    WeightOfNone(ss, InBuckets(BucketOf(alpha), {}));
  }

  lemma {:induction false} TotalIsPositive(ss: seq<Sample>)
    requires ValidSamples(ss) && ss != []
    ensures TotalWeight(ss) > 0
  {
    TotalNonNegative(ss[..|ss| - 1]);
  }

  lemma {:induction false} RankBelowTotal(ss: seq<Sample>, q: real)
    requires q < 1.0 && TotalWeight(ss) > 0
    ensures Rank(ss, q) < TotalWeight(ss) as real
  {
    var n := TotalWeight(ss) as real;
    Scales(n, q, 1.0);
    assert q * n == n * q;
  }

  lemma SignOfBucket(alpha: real, v: real)
    requires ValidAlpha(alpha)
    ensures var b := BucketOf(alpha)(v); (b.Pos? <==> v > 0.0) && (b.Zero? <==> v == 0.0) && (b.Neg? <==> v < 0.0)
  {
    hide Key;
  }

  lemma {:induction false} CollectedAbove(alpha: real, ss: seq<Sample>, passed: set<Bucket>, t: real)
    requires ValidAlpha(alpha) && ValidSamples(ss)
    requires forall s | s in ss :: BucketOf(alpha)(s.value) in passed <==>
      if t == 0.0 then Before(BucketOf(alpha)(t), BucketOf(alpha)(s.value))
      else !Before(BucketOf(alpha)(s.value), BucketOf(alpha)(t))
    ensures Weight(ss, InBuckets(BucketOf(alpha), passed)) == Weight(ss, Counted(alpha, t))
  {
    hide Key;
    if t == 0.0 {
      WeightAgrees(ss, InBuckets(BucketOf(alpha), passed), Counted(alpha, t));
    } else {
      WeightAgrees(ss, InBuckets(BucketOf(alpha), passed), FromBucket(alpha, t));
      FromBucketWeight(alpha, ss, t);
    }
  }

  class DDSketch {
    const alpha: real
    var positive: map<int, int>
    var negative: map<int, int>
    var zeroCount: int
    var count: int
    var minValue: real
    var maxValue: real
    ghost var samples: seq<Sample>  // everything accepted so far, merges included

    ghost function Value(): Sketch
      reads this
    {
      Sketch(positive, negative, zeroCount, count, if count == 0 then None else Some(Extrema(minValue, maxValue)))
    }

    ghost predicate Valid()
      reads this
    {
      && ValidAlpha(alpha) && ValidSamples(samples)
      && Value() == OfSamples(BucketOf(alpha), samples) && Fits(Value())
    }

    lemma EmptyWhenUncounted()
      requires Valid()
      ensures WellFormed(Value()) && (count == 0 ==> Value() == Empty() && samples == [])
    {
      OfSamplesWellFormed(BucketOf(alpha), samples);
      if count == 0 { EmptyHasNoWeight(alpha, samples); }
    }

    /** The tracked extrema are exactly the least and greatest value accepted. */
    lemma {:induction false} ExtremaAreTracked()
      requires Valid() && count > 0
      ensures AreExtrema(samples, Extrema(minValue, maxValue))
    {
      ExtremaAreExact(BucketOf(alpha), samples);
    }

    constructor (alpha: real)
      requires ValidAlpha(alpha)
      ensures Valid() && samples == [] && this.alpha == alpha
    {
      this.alpha := alpha;
      positive, negative, zeroCount, count, minValue, maxValue := map[], map[], 0, 0, 0.0, 0.0;
      samples := [];
    }

    constructor Copy(other: DDSketch)
      requires other.Valid()
      ensures Valid() && alpha == other.alpha && samples == other.samples
    {
      alpha := other.alpha;
      positive, negative, zeroCount, count := other.positive, other.negative, other.zeroCount, other.count;
      minValue, maxValue := other.minValue, other.maxValue;
      samples := other.samples;
    }

    ghost predicate Accepts(ss: seq<Sample>)
      requires ValidAlpha(alpha)
    {
      Fits(OfSamples(BucketOf(alpha), ss))
    }

    /** Adds an observation with a repetition count. Values that are not finite and empty
        repetitions change nothing; a failed addition changes nothing either. */
    method Add(value: Double, repetitions: int) returns (outcome: Outcome)
      requires Valid() && 0 <= repetitions <= MAX_UINT64
      modifies this
      ensures Valid()
      ensures value.NotFinite? || repetitions == 0 ==> outcome.Done? && samples == old(samples)
      ensures value.Finite? && repetitions > 0 ==>
        var more := old(samples) + [Sample(value.value, repetitions)];
        && (outcome.Done? <==> Accepts(more))
        && samples == if outcome.Done? then more else old(samples)
    {
      if value.NotFinite? || repetitions == 0 { return Done; }
      outcome := AddFinite(value.value, repetitions);
    }

    method AddFinite(v: real, repetitions: int) returns (outcome: Outcome)
      requires Valid() && 0 < repetitions
      modifies this
      ensures Valid()
      ensures outcome.Done? <==> Accepts(old(samples) + [Sample(v, repetitions)])
      ensures samples == if outcome.Done? then old(samples) + [Sample(v, repetitions)] else old(samples)
    {
      hide OfSamples, Key;
      AccuracyHolds(v);
      if v != 0.0 && MissesAccuracy(alpha, Abs(v)) { assert false; }
      SamplesGrow(BucketOf(alpha), samples, Sample(v, repetitions));
      EmptyWhenUncounted();
      outcome := Record(BucketOf(alpha)(v), v, repetitions);
      if outcome.Done? { samples := samples + [Sample(v, repetitions)]; }
    }

    lemma AccuracyHolds(v: real)
      requires ValidAlpha(alpha)
      ensures v != 0.0 ==> !MissesAccuracy(alpha, Abs(v))
    {
      if v != 0.0 { AccuracyTestNeverFires(alpha, Abs(v)); }
    }

    /** Updates the counter of one bucket, the count and the extrema, or nothing at all. */
    method Record(b: Bucket, v: real, repetitions: int) returns (outcome: Outcome)
      requires WellFormed(Value()) && Fits(Value()) && repetitions > 0
      modifies this`positive, this`negative, this`zeroCount, this`count, this`minValue, this`maxValue
      ensures outcome.Done? <==> Fits(Plus(old(Value()), b, Sample(v, repetitions)))
      ensures Value() == if outcome.Done? then Plus(old(Value()), b, Sample(v, repetitions)) else old(Value())
    {
      hide BinsFit, Bump, Positive;
      outcome := Done;
      if MAX_UINT64 - count < repetitions { return Raised(OverflowError); }
      if repetitions > MAX_INT64 {
        BeyondAnyBin(Value(), b, Sample(v, repetitions));
        return Raised(OverflowError);
      }
      var pos, neg, zero := positive, negative, zeroCount;
      match b {
        case Pos(i) => outcome, pos := StoreAdd(positive, i, repetitions);
        case Neg(i) => outcome, neg := StoreAdd(negative, i, repetitions);
        case Zero =>
          if MAX_INT64 - zeroCount < repetitions { outcome := Raised(OverflowError); }
          zero := zeroCount + repetitions;
      }
      assert outcome.Done? <==> Fits(Plus(Value(), b, Sample(v, repetitions)));
      if outcome.Raised? { return; }
      if count == 0 {
        minValue, maxValue := v, v;
      } else {
        if v < minValue { minValue := v; }
        if v > maxValue { maxValue := v; }
      }
      count := count + repetitions;
      positive, negative, zeroCount := pos, neg, zero;
    }

    /** Applies a batch to a copy and commits it only when every value was accepted. */
    method AddBatch(values: seq<Double>) returns (outcome: Outcome)
      requires Valid()
      modifies this
      ensures Valid()
      ensures outcome.Done? <==> Accepts(old(samples) + Observations(values))
      ensures samples == if outcome.Done? then old(samples) + Observations(values) else old(samples)
    {
      hide OfSamples, Key, Fits, Observations;
      var temp := new DDSketch.Copy(this);
      outcome := temp.AddEach(values);
      if outcome.Done? {
        positive, negative, zeroCount, count := temp.positive, temp.negative, temp.zeroCount, temp.count;
        minValue, maxValue := temp.minValue, temp.maxValue;
        samples := temp.samples;
      }
    }

    /** Adds values one by one up to the first that is refused. */
    method AddEach(values: seq<Double>) returns (outcome: Outcome)
      requires Valid()
      modifies this
      ensures Valid()
      ensures outcome.Done? <==> Accepts(old(samples) + Observations(values))
      ensures outcome.Done? ==> samples == old(samples) + Observations(values)
    {
      hide OfSamples, Key, Fits, Observations, BucketOf;
      NoObservations(values);
      outcome := Done;
      for i := 0 to |values|
        invariant Valid() && samples == old(samples) + Observations(values[..i])
      {
        ObservationsGrow(values, i);
        ghost var next := old(samples) + Observations(values[..i + 1]);
        assert values[i].Finite? ==> next == samples + [Sample(values[i].value, 1)];
        outcome := Add(values[i], 1);
        if outcome.Raised? {
          RejectedFrom(alpha, old(samples), values, i + 1);
          return;
        }
      }
      assert values[..|values|] == values;
      outcome := Done;
    }

    /** Adds another sketch's contents to a copy and commits it only when every counter
        held. */
    method Merge(other: DDSketch) returns (outcome: Outcome)
      requires Valid() && other.Valid()
      modifies this
      ensures Valid()
      ensures outcome.Done? <==> alpha == other.alpha && Accepts(old(samples + other.samples))
      ensures samples == if outcome.Done? then old(samples + other.samples) else old(samples)
    {
      hide OfSamples, Key, Combine, Fits, WellFormed;
      if alpha != other.alpha { return Raised(InvalidArgument); }
      EmptyWhenUncounted();
      other.EmptyWhenUncounted();
      MergeIsConcatenation(BucketOf(alpha), samples, other.samples);
      if other.count == 0 {
        assert samples + other.samples == samples;
        return Done;
      }
      outcome := Absorb(other);
      if outcome.Done? { samples := samples + old(other.samples); }
    }

    lemma WalkOne(passed: set<Bucket>, b: Bucket)
      requires Valid() && b !in passed
      ensures Weight(samples, InBuckets(BucketOf(alpha), passed + {b}))
           == Weight(samples, InBuckets(BucketOf(alpha), passed)) + BinCount(Value(), b)
    {
      WalkOneBucket(BucketOf(alpha), samples, passed, b);
    }

    ghost function Walked(passed: set<Bucket>): int
      requires ValidAlpha(alpha)
      reads this
    {
      Weight(samples, InBuckets(BucketOf(alpha), passed))
    }

    /** Every accepted value has a bin, so a walk over the bins meets every bucket. */
    lemma EveryBucketHasABin(s: Sample)
      requires Valid() && s in samples
      ensures match BucketOf(alpha)(s.value)
              case Neg(i) => i in negative
              case Zero => true
              case Pos(i) => i in positive
    {
      SampleHasBin(BucketOf(alpha), samples, s);
    }

    /** The walk stops at b once it has met the rank, provided it passed exactly the
        buckets that precede b. */
    lemma StopsAt(passed: set<Bucket>, b: Bucket, q: real)
      requires Valid() && b !in passed
      requires forall s | s in samples :: BucketOf(alpha)(s.value) in passed <==> Before(BucketOf(alpha)(s.value), b)
      requires Walked(passed) as real < Rank(samples, q) <= Walked(passed + {b}) as real
      ensures IsQuantile(alpha, samples, q, Representative(alpha, b))
    {
      WalkStops(alpha, samples, passed, b, Rank(samples, q));
    }

    lemma WalkedEverything(passed: set<Bucket>, q: real)
      requires Valid() && q < 1.0 && samples != []
      requires forall s | s in samples :: BucketOf(alpha)(s.value) in passed
      ensures Walked(passed) as real > Rank(samples, q)
    {
      WeightOfAll(samples, InBuckets(BucketOf(alpha), passed));
      TotalIsPositive(samples);
      RankBelowTotal(samples, q);
    }

    /** The value at quantile q: the extrema at or beyond the ends of [0, 1], and inside
        the representative of the bucket where the cumulative count reaches q * count. */
    method Quantile(q: Double) returns (r: Option<real>)
      requires Valid()
      ensures r.None? <==> q.NotFinite?
      ensures q.Finite? && count == 0 ==> r == Some(0.0)
      ensures q.Finite? && count > 0 && q.value <= 0.0 ==> r == Some(minValue)
      ensures q.Finite? && count > 0 && q.value >= 1.0 ==> r == Some(maxValue)
      ensures q.Finite? && count > 0 && 0.0 < q.value < 1.0 ==> IsQuantile(alpha, samples, q.value, r.value)
    {
      hide OfSamples, Key, Weight, BucketOf, Fits, IsQuantile, BucketValue;
      if q.NotFinite? { return None; }
      EmptyWhenUncounted();
      CountersMeanWeights(BucketOf(alpha), samples, Zero);
      if count == 0 { return Some(0.0); }
      if q.value <= 0.0 { return Some(minValue); }
      if q.value >= 1.0 { return Some(maxValue); }

      var rank := q.value * count as real;
      ghost var passed: set<Bucket> := {};
      NothingWalked(alpha, samples);
      var rest := negative.Keys;
      while rest != {}
        invariant rest <= negative.Keys
        invariant forall i, j | i in negative && i !in rest && j in rest :: i > j
        invariant forall b :: b in passed <==> b.Neg? && b.index in negative && b.index !in rest
        invariant rank == Rank(samples, q.value) - Walked(passed) as real && rank > 0.0
      {
        ghost var greatest := GreatestInt(rest);
        var k :| k in rest && forall j | j in rest :: j <= k;
        WalkOne(passed, Neg(k));
        rank := rank - negative[k] as real;
        if rank <= 0.0 {
          forall s | s in samples ensures BucketOf(alpha)(s.value) in passed <==> Before(BucketOf(alpha)(s.value), Neg(k)) {
            EveryBucketHasABin(s);
          }
          StopsAt(passed, Neg(k), q.value);
          return Some(-BucketValue(GammaOf(alpha), k));
        }
        passed, rest := passed + {Neg(k)}, rest - {k};
      }

      WalkOne(passed, Zero);
      rank := rank - zeroCount as real;
      if rank <= 0.0 {
        forall s | s in samples ensures BucketOf(alpha)(s.value) in passed <==> Before(BucketOf(alpha)(s.value), Zero) {
          EveryBucketHasABin(s);
        }
        StopsAt(passed, Zero, q.value);
        return Some(0.0);
      }
      passed := passed + {Zero};

      rest := positive.Keys;
      while rest != {}
        invariant rest <= positive.Keys
        invariant forall i, j | i in positive && i !in rest && j in rest :: i < j
        invariant forall b :: b in passed <==>
          if b.Neg? then b.index in negative else if b.Pos? then b.index in positive && b.index !in rest else true
        invariant rank == Rank(samples, q.value) - Walked(passed) as real && rank > 0.0
      {
        ghost var least := LeastInt(rest);
        var k :| k in rest && forall j | j in rest :: k <= j;
        WalkOne(passed, Pos(k));
        rank := rank - positive[k] as real;
        if rank <= 0.0 {
          forall s | s in samples ensures BucketOf(alpha)(s.value) in passed <==> Before(BucketOf(alpha)(s.value), Pos(k)) {
            EveryBucketHasABin(s);
          }
          StopsAt(passed, Pos(k), q.value);
          return Some(BucketValue(GammaOf(alpha), k));
        }
        passed, rest := passed + {Pos(k)}, rest - {k};
      }

      // The fallback to the maximum is never reached.
      r := Some(maxValue);
      forall s | s in samples ensures BucketOf(alpha)(s.value) in passed { EveryBucketHasABin(s); }
      WalkedEverything(passed, q.value);
      assert false;
    }

    /** The number of values above a threshold, counting the threshold's own bucket whole. */
    method CountGreaterThan(threshold: real) returns (above: int)
      requires Valid()
      ensures count == 0 ==> above == 0
      ensures count > 0 ==> above == GreaterOrIndistinct(alpha, samples, Extrema(minValue, maxValue), threshold)
    {
      hide OfSamples, Key, Weight, BucketOf, Fits;
      EmptyWhenUncounted();
      CountersMeanWeights(BucketOf(alpha), samples, Zero);
      if count == 0 || threshold >= maxValue { return 0; }
      if threshold < minValue { return count; }
      NothingWalked(alpha, samples);
      var home := BucketOf(alpha)(threshold);
      SignOfBucket(alpha, threshold);
      ghost var passed: set<Bucket> := {};
      above := 0;
      if threshold < 0.0 {
        var rest := negative.Keys;
        while rest != {}
          invariant rest <= negative.Keys
          invariant forall b :: b in passed <==> b.Neg? && b.index in negative && b.index !in rest && b.index <= home.index
          invariant above == Walked(passed)
        {
          ghost var least := LeastInt(rest);
          var k :| k in rest && forall j | j in rest :: k <= j;
          WalkOne(passed, Neg(k));
          if k <= home.index { above, passed := above + negative[k], passed + {Neg(k)}; }
          rest := rest - {k};
        }
        WalkOne(passed, Zero);
        above, passed := above + zeroCount, passed + {Zero};
      }
      var from := if threshold > 0.0 then Some(home.index) else None;
      var rest := positive.Keys;
      while rest != {}
        invariant rest <= positive.Keys
        invariant forall b :: b in passed <==>
          if b.Pos? then b.index in positive && b.index !in rest && (from.Some? ==> b.index >= from.value)
          else threshold < 0.0 && (b.Neg? ==> b.index in negative && b.index <= home.index)
        invariant above == Walked(passed)
      {
        ghost var least := LeastInt(rest);
        var k :| k in rest && forall j | j in rest :: k <= j;
        WalkOne(passed, Pos(k));
        if from.None? || k >= from.value { above, passed := above + positive[k], passed + {Pos(k)}; }
        rest := rest - {k};
      }
      forall s | s in samples
        ensures BucketOf(alpha)(s.value) in passed <==>
          if threshold == 0.0 then Before(home, BucketOf(alpha)(s.value)) else !Before(BucketOf(alpha)(s.value), home)
      {
        EveryBucketHasABin(s);
      }
      CollectedAbove(alpha, samples, passed, threshold);
      CountedWeight(alpha, samples, Extrema(minValue, maxValue), threshold);
    }

    method Absorb(other: DDSketch) returns (outcome: Outcome)
      requires WellFormed(Value()) && Fits(Value()) && WellFormed(other.Value()) && other.count > 0
      modifies this`positive, this`negative, this`zeroCount, this`count, this`minValue, this`maxValue
      ensures outcome.Done? <==> Fits(old(Combine(Value(), other.Value())))
      ensures Value() == if outcome.Done? then old(Combine(Value(), other.Value())) else old(Value())
    {
      hide BinsFit, AddBins;
      if MAX_UINT64 - count < other.count { return Raised(OverflowError); }
      if MAX_INT64 - zeroCount < other.zeroCount { return Raised(OverflowError); }
      var low, high := other.minValue, other.maxValue;
      if count != 0 {
        if minValue < low { low := minValue; }
        if maxValue > high { high := maxValue; }
      }
      var pos, neg;
      outcome, pos := MergeStore(positive, other.positive);
      if outcome.Raised? { return; }
      outcome, neg := MergeStore(negative, other.negative);
      if outcome.Raised? { return; }
      positive, negative := pos, neg;
      zeroCount, count := zeroCount + other.zeroCount, count + other.count;
      minValue, maxValue := low, high;
    }
  }

  function Observations(values: seq<Double>): (ss: seq<Sample>)
    ensures ValidSamples(ss)
  {
    if values == [] then []
    else
      var front := Observations(values[..|values| - 1]);
      match values[|values| - 1]
      case Finite(v) => front + [Sample(v, 1)]
      case NotFinite => front
  }

  lemma {:induction false} NoObservations(values: seq<Double>)
    ensures values[..0] == [] && Observations(values[..0]) == []
  {
  }

  lemma {:induction false} ObservationsGrow(values: seq<Double>, i: nat)
    requires i < |values|
    ensures Observations(values[..i + 1]) == Observations(values[..i])
      + if values[i].Finite? then [Sample(values[i].value, 1)] else []
  {
    assert values[..i + 1][..i] == values[..i];
  }

  lemma {:induction false} ObservationsSplit(values: seq<Double>, i: nat)
    requires i <= |values|
    ensures Observations(values) == Observations(values[..i]) + Observations(values[i..])
  {
    if i == |values| {
      assert values[..i] == values;
    } else {
      var front := values[..|values| - 1];
      ObservationsSplit(front, i);
      assert front[..i] == values[..i];
      assert values[i..][..|values| - i - 1] == front[i..];
    }
  }

  /** A stream that was refused stays refused however it goes on. */
  lemma {:induction false} StillRejected(alpha: real, ss: seq<Sample>, more: seq<Sample>)
    requires ValidAlpha(alpha) && ValidSamples(ss) && ValidSamples(more)
    requires !Fits(OfSamples(BucketOf(alpha), ss))
    ensures !Fits(OfSamples(BucketOf(alpha), ss + more))
  {
    hide OfSamples, Key;
    MergeIsConcatenation(BucketOf(alpha), ss, more);
    OfSamplesWellFormed(BucketOf(alpha), ss);
    OfSamplesWellFormed(BucketOf(alpha), more);
    if Fits(OfSamples(BucketOf(alpha), ss + more)) {
      FitsDown(OfSamples(BucketOf(alpha), ss), OfSamples(BucketOf(alpha), more));
    }
  }
}
