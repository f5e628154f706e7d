/** Sums and extreme indices of bucket stores, and what they are for the sketches of sample
    streams. */
module BucketStores {
  import opened Prelude
  import opened Gamma
  import opened SketchAlgebra
  import opened QuantileSketch

  // ----- sums -----

  lemma NonEmpty(s: set<int>)
    requires s != {}
    ensures exists x :: x in s
  {
    var x := Pick(s);
  }

  /** Sum of the counters of some indices. */
  ghost function SumOn(indices: set<int>, bins: map<int, int>): int {
    if indices == {} then 0
    else
      NonEmpty(indices);
      var i :| i in indices;
      Get(bins, i) + SumOn(indices - {i}, bins)
  }

  ghost function SumOf(bins: map<int, int>): int { SumOn(bins.Keys, bins) }

  /** The order in which the indices are taken does not matter. */
  lemma {:induction false} SumOnRemove(indices: set<int>, bins: map<int, int>, i: int)
    requires i in indices
    ensures SumOn(indices, bins) == Get(bins, i) + SumOn(indices - {i}, bins)
  {
    NonEmpty(indices);
    var first :| first in indices && SumOn(indices, bins) == Get(bins, first) + SumOn(indices - {first}, bins);
    if i != first {
      SumOnRemove(indices - {first}, bins, i);
      SumOnRemove(indices - {i}, bins, first);
      assert indices - {first} - {i} == indices - {i} - {first};
    }
  }

  lemma {:induction false} SumOnAdds(indices: set<int>, a: map<int, int>, b: map<int, int>)
    ensures SumOn(indices, AddBins(a, b)) == SumOn(indices, a) + SumOn(indices, b)
  {
    if indices != {} {
      var i := Pick(indices);
      SumOnAdds(indices - {i}, a, b);
      SumOnRemove(indices, a, i);
      SumOnRemove(indices, b, i);
      SumOnRemove(indices, AddBins(a, b), i);
    }
  }

  /** Indices without a counter add nothing. */
  lemma {:induction false} SumOnMore(indices: set<int>, more: set<int>, bins: map<int, int>)
    requires indices !! more && bins.Keys !! more
    ensures SumOn(indices + more, bins) == SumOn(indices, bins)
  {
    if more != {} {
      var i := Pick(more);
      SumOnMore(indices, more - {i}, bins);
      SumOnRemove(indices + more, bins, i);
      assert indices + more - {i} == indices + (more - {i});
    } else {
      assert indices + more == indices;
    }
  }

  lemma SumOfAdds(a: map<int, int>, b: map<int, int>)
    ensures SumOf(AddBins(a, b)) == SumOf(a) + SumOf(b)
  {
    var all := AddBins(a, b).Keys;
    SumOnAdds(all, a, b);
    SumOnMore(a.Keys, all - a.Keys, a);
    SumOnMore(b.Keys, all - b.Keys, b);
    assert a.Keys + (all - a.Keys) == all == b.Keys + (all - b.Keys);
  }

  lemma SumOfNone()
    ensures SumOf(map[]) == 0
  {
  }

  lemma SumOfOne(i: int, n: int)
    ensures SumOf(map[i := n]) == n
  {
    SumOnRemove({i}, map[i := n], i);
    assert {i} - {i} == {} && map[i := n].Keys == {i};
  }

  /** The counters of a sketch of samples add up to its count. */
  lemma {:induction false} BucketsAddUp(bucket: Bucketing, ss: seq<Sample>)
    ensures var s := OfSamples(bucket, ss); s.count == s.zeroCount + SumOf(s.positive) + SumOf(s.negative)
  {
    hide SumOf;
    SumOfNone();
    if ss != [] {
      var front, last := ss[..|ss| - 1], ss[|ss| - 1];
      BucketsAddUp(bucket, front);
      var s, one := OfSamples(bucket, front), Single(bucket, last);
      SumOfAdds(s.positive, one.positive);
      SumOfAdds(s.negative, one.negative);
      match bucket(last.value)
      case Neg(i) => SumOfOne(i, last.weight);
      case Zero =>
      case Pos(i) => SumOfOne(i, last.weight);
    }
  }

  // ----- extreme indices -----

  ghost predicate IsGreatest(bins: map<int, int>, k: int) { k in bins && forall i | i in bins :: i <= k }

  ghost predicate IsLeast(bins: map<int, int>, k: int) { k in bins && forall i | i in bins :: k <= i }

  /** The extrema of a sketch fall into its outermost buckets, and say which kinds of
      buckets there are. */
  ghost predicate ExtremaMatch(alpha: real, s: Sketch, e: Extrema)
    requires ValidAlpha(alpha)
  {
    && e.min <= e.max
    && (s.positive != map[] ==> e.max > 0.0 && IsGreatest(s.positive, Key(GammaOf(alpha), e.max)))
    && (s.positive != map[] && e.min > 0.0 ==> IsLeast(s.positive, Key(GammaOf(alpha), e.min)))
    && (s.negative != map[] ==> e.min < 0.0 && IsGreatest(s.negative, Key(GammaOf(alpha), -e.min)))
    && (s.negative != map[] && e.max < 0.0 ==> IsLeast(s.negative, Key(GammaOf(alpha), -e.max)))
    && (s.zeroCount > 0 ==> e.min <= 0.0 <= e.max)
    && (s.positive == map[] ==> e.max <= 0.0) && (s.negative == map[] ==> e.min >= 0.0)
    && (e.max == 0.0 || e.min == 0.0 ==> s.zeroCount > 0)
  }

  lemma StoresArePositive(s: Sketch)
    requires WellFormed(s)
    ensures forall i | i in s.positive :: BinCount(s, Pos(i)) > 0
    ensures forall i | i in s.negative :: BinCount(s, Neg(i)) > 0
  {
  }

  lemma {:induction false} PositiveBins(alpha: real, ss: seq<Sample>, e: Extrema)
    requires ValidAlpha(alpha) && ValidSamples(ss) && AreExtrema(ss, e)
    ensures var bins := OfSamples(BucketOf(alpha), ss).positive;
      && (bins != map[] ==> e.max > 0.0 && IsGreatest(bins, Key(GammaOf(alpha), e.max)))
      && (bins != map[] && e.min > 0.0 ==> IsLeast(bins, Key(GammaOf(alpha), e.min)))
      && (bins == map[] ==> e.max <= 0.0)
  {
    hide Key, OfSamples, WellFormed;
    var bucket, g := BucketOf(alpha), GammaOf(alpha);
    var bins := OfSamples(bucket, ss).positive;
    OfSamplesWellFormed(bucket, ss);
    StoresArePositive(OfSamples(bucket, ss));
    var high :| high in ss && high.value == e.max;
    var low :| low in ss && low.value == e.min;
    if e.max > 0.0 { SampleHasBin(bucket, ss, high); }
    if e.min > 0.0 { SampleHasBin(bucket, ss, low); }
    forall i | i in bins
      ensures e.max > 0.0 && i <= Key(g, e.max) && (e.min > 0.0 ==> Key(g, e.min) <= i)
    {
      var s := BinHasSample(bucket, ss, Pos(i));
      KeyMonotone(g, s.value, e.max);
      if e.min > 0.0 { KeyMonotone(g, e.min, s.value); }
    }
    if bins != map[] {
      var i := Pick(bins.Keys);
      assert i in bins;
    }
  }

  lemma {:induction false} NegativeBins(alpha: real, ss: seq<Sample>, e: Extrema)
    requires ValidAlpha(alpha) && ValidSamples(ss) && AreExtrema(ss, e)
    ensures var bins := OfSamples(BucketOf(alpha), ss).negative;
      && (bins != map[] ==> e.min < 0.0 && IsGreatest(bins, Key(GammaOf(alpha), -e.min)))
      && (bins != map[] && e.max < 0.0 ==> IsLeast(bins, Key(GammaOf(alpha), -e.max)))
      && (bins == map[] ==> e.min >= 0.0)
  {
    hide Key, OfSamples, WellFormed;
    var bucket, g := BucketOf(alpha), GammaOf(alpha);
    var bins := OfSamples(bucket, ss).negative;
    OfSamplesWellFormed(bucket, ss);
    StoresArePositive(OfSamples(bucket, ss));
    var high :| high in ss && high.value == e.max;
    var low :| low in ss && low.value == e.min;
    if e.min < 0.0 { SampleHasBin(bucket, ss, low); }
    if e.max < 0.0 { SampleHasBin(bucket, ss, high); }
    forall i | i in bins
      ensures e.min < 0.0 && i <= Key(g, -e.min) && (e.max < 0.0 ==> Key(g, -e.max) <= i)
    {
      var s := BinHasSample(bucket, ss, Neg(i));
      KeyMonotone(g, -s.value, -e.min);
      if e.max < 0.0 { KeyMonotone(g, -e.max, -s.value); }
    }
    if bins != map[] {
      var i := Pick(bins.Keys);
      assert i in bins;
    }
  }

  lemma {:induction false} ZeroBin(alpha: real, ss: seq<Sample>, e: Extrema)
    requires ValidAlpha(alpha) && ValidSamples(ss) && AreExtrema(ss, e)
    ensures var zeros := OfSamples(BucketOf(alpha), ss).zeroCount;
      && (zeros > 0 ==> e.min <= 0.0 <= e.max)
      && (e.max == 0.0 || e.min == 0.0 ==> zeros > 0)
  {
    hide Key, OfSamples, WellFormed;
    var high :| high in ss && high.value == e.max;
    var low :| low in ss && low.value == e.min;
    SampleHasBin(BucketOf(alpha), ss, high);
    SampleHasBin(BucketOf(alpha), ss, low);
    if OfSamples(BucketOf(alpha), ss).zeroCount > 0 {
      var s := BinHasSample(BucketOf(alpha), ss, Zero);
    }
  }

  lemma {:induction false} ReachableExtremaMatch(alpha: real, ss: seq<Sample>)
    requires ValidAlpha(alpha) && ValidSamples(ss) && ss != []
    ensures OfSamples(BucketOf(alpha), ss).extrema.Some?
    ensures ExtremaMatch(alpha, OfSamples(BucketOf(alpha), ss), OfSamples(BucketOf(alpha), ss).extrema.value)
  {
    hide Key, OfSamples, BucketOf, IsGreatest, IsLeast;
    ExtremaAreExact(BucketOf(alpha), ss);
    var e := OfSamples(BucketOf(alpha), ss).extrema.value;
    PositiveBins(alpha, ss, e);
    NegativeBins(alpha, ss, e);
    ZeroBin(alpha, ss, e);
  }

  /** Every bucket of a sketch holds a value, whose magnitude bounds its index. */
  lemma {:induction false} IndicesInRange(alpha: real, ss: seq<Sample>, low: real, high: real)
    requires ValidAlpha(alpha) && ValidSamples(ss) && 0.0 < low <= high
    requires forall s | s in ss && s.value != 0.0 :: low <= Abs(s.value) <= high
    ensures forall i | i in OfSamples(BucketOf(alpha), ss).positive :: Key(GammaOf(alpha), low) <= i <= Key(GammaOf(alpha), high)
    ensures forall i | i in OfSamples(BucketOf(alpha), ss).negative :: Key(GammaOf(alpha), low) <= i <= Key(GammaOf(alpha), high)
  {
    hide Key, OfSamples, WellFormed;
    var g := GammaOf(alpha);
    OfSamplesWellFormed(BucketOf(alpha), ss);
    StoresArePositive(OfSamples(BucketOf(alpha), ss));
    forall i | i in OfSamples(BucketOf(alpha), ss).positive ensures Key(g, low) <= i <= Key(g, high) {
      var s := BinHasSample(BucketOf(alpha), ss, Pos(i));
      KeyMonotone(g, low, s.value);
      KeyMonotone(g, s.value, high);
    }
    forall i | i in OfSamples(BucketOf(alpha), ss).negative ensures Key(g, low) <= i <= Key(g, high) {
      var s := BinHasSample(BucketOf(alpha), ss, Neg(i));
      KeyMonotone(g, low, -s.value);
      KeyMonotone(g, -s.value, high);
    }
  }
}
