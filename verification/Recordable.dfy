/** Which sketches a restore accepts, in terms of recording: those some samples leave, and a
    few that none can leave. */
module Recordable {
  import opened Prelude
  import opened Gamma
  import opened SketchAlgebra
  import opened QuantileSketch
  import opened BucketStores
  import opened StreamLogs
  import opened Documents
  import opened Restore
  import CountMin
  import Cardinality

  // ----- samples for given counters -----

  /** Samples lie at the values of some buckets ... */
  ghost predicate LieAt(ss: seq<Sample>, bs: set<Bucket>, value: Bucket -> real) {
    forall s | s in ss :: exists b :: b in bs && s.value == value(b)
  }

  /** ... and each of the buckets has one. */
  ghost predicate HasOneAt(ss: seq<Sample>, b: Bucket, value: Bucket -> real) { exists s :: s in ss && s.value == value(b) }

  /** One sample for each of some buckets, at a value of the bucket. */
  lemma {:induction false} Fill(bucket: Bucketing, bs: set<Bucket>, weight: Bucket -> int, value: Bucket -> real) returns (ss: seq<Sample>)
    requires forall b | b in bs :: weight(b) > 0 && bucket(value(b)) == b
    ensures ValidSamples(ss)
    ensures LieAt(ss, bs, value) && forall b | b in bs :: HasOneAt(ss, b, value)
    ensures forall b :: BinCount(OfSamples(bucket, ss), b) == if b in bs then weight(b) else 0
  {
    hide OfSamples;
    if bs == {} {
      ss := [];
      assert OfSamples(bucket, ss) == Empty() by { NoSample(bucket); }
    } else {
      var b := Pick(bs);
      var rest := Fill(bucket, bs - {b}, weight, value);
      var one := Sample(value(b), weight(b));
      ss := rest + [one];
      assert one in ss && forall s :: s in ss <==> s in rest || s == one;
      forall c | c in bs ensures HasOneAt(ss, c, value) {
        if c != b {
          var s :| s in rest && s.value == value(c);
          assert s in ss;
        }
      }
      forall c ensures BinCount(OfSamples(bucket, ss), c) == if c in bs then weight(c) else 0 { OneMoreSample(bucket, rest, one, c); }
    }
  }

  lemma NoSample(bucket: Bucketing)
    ensures OfSamples(bucket, []) == Empty()
  {
  }

  lemma {:induction false} OneMoreSample(bucket: Bucketing, ss: seq<Sample>, x: Sample, b: Bucket)
    ensures BinCount(OfSamples(bucket, ss + [x]), b) == BinCount(OfSamples(bucket, ss), b) + if bucket(x.value) == b then x.weight else 0
  {
    assert (ss + [x])[..|ss|] == ss;
    CountersAdd(OfSamples(bucket, ss), Single(bucket, x), b);
    SingleCounter(bucket, x, b);
  }

  /** Sketches that agree on every counter and on the extrema are one. */
  lemma SameCounters(s: Sketch, t: Sketch)
    requires Positive(s.positive) && Positive(s.negative) && Positive(t.positive) && Positive(t.negative)
    requires s.count == s.zeroCount + SumOf(s.positive) + SumOf(s.negative)
    requires t.count == t.zeroCount + SumOf(t.positive) + SumOf(t.negative)
    requires (forall b :: BinCount(s, b) == BinCount(t, b)) && s.extrema == t.extrema
    ensures s == t
  {
    hide SumOf;
    assert BinCount(s, Zero) == BinCount(t, Zero);
    forall i ensures Get(s.positive, i) == Get(t.positive, i) && Get(s.negative, i) == Get(t.negative, i) {
      assert BinCount(s, Pos(i)) == BinCount(t, Pos(i)) && BinCount(s, Neg(i)) == BinCount(t, Neg(i));
    }
    SamePositive(s.positive, t.positive);
    SamePositive(s.negative, t.negative);
  }

  lemma SamePositive(a: map<int, int>, b: map<int, int>)
    requires Positive(a) && Positive(b) && forall i :: Get(a, i) == Get(b, i)
    ensures a == b
  {
    forall i ensures i in a <==> i in b { assert Get(a, i) == Get(b, i); }
    forall i | i in a ensures a[i] == b[i] { assert Get(a, i) == Get(b, i); }
  }

  // ----- where the values of a bucket lie -----

  lemma EdgeKey(g: real, i: int)
    requires g > 1.0
    ensures Key(g, Pow(g, i)) == i
  {
    hide Key, Pow;
    KeyIsLeast(g, Pow(g, i), i);
    KeyIsLeast(g, Pow(g, i), i - 1);
    PowIncreases(g, i - 1, i);
  }

  /** The value of a bucket farthest from zero. */
  function Edge(alpha: real, b: Bucket): real
    requires ValidAlpha(alpha)
  {
    match b
    case Neg(i) => -Pow(GammaOf(alpha), i)
    case Zero => 0.0
    case Pos(i) => Pow(GammaOf(alpha), i)
  }

  lemma EdgeIsInside(alpha: real, b: Bucket)
    requires ValidAlpha(alpha)
    ensures BucketOf(alpha)(Edge(alpha, b)) == b
  {
    hide Key, Pow;
    match b
    case Neg(i) => EdgeKey(GammaOf(alpha), i);
    case Zero =>
    case Pos(i) => EdgeKey(GammaOf(alpha), i);
  }

  function Buckets(s: Sketch): set<Bucket> {
    (set i | i in s.positive :: Pos(i)) + (set i | i in s.negative :: Neg(i)) + if s.zeroCount > 0 then {Zero} else {}
  }

  lemma BucketsAre(s: Sketch, b: Bucket)
    requires Positive(s.positive) && Positive(s.negative) && s.zeroCount >= 0
    ensures b in Buckets(s) <==> BinCount(s, b) > 0
    ensures b !in Buckets(s) ==> BinCount(s, b) == 0
  {
  }

  /** The extrema lie in buckets of the sketch. */
  lemma ExtremaInBuckets(alpha: real, s: Sketch, e: Extrema)
    requires ValidAlpha(alpha) && ExtremaMatch(alpha, s, e) && s.zeroCount >= 0
    ensures BucketOf(alpha)(e.min) in Buckets(s) && BucketOf(alpha)(e.max) in Buckets(s)
  {
    hide Key;
  }

  /** The edge of any other bucket lies between the extrema. */
  lemma EdgeBetween(alpha: real, s: Sketch, e: Extrema, b: Bucket)
    requires ValidAlpha(alpha) && ExtremaMatch(alpha, s, e) && b in Buckets(s)
    requires b != BucketOf(alpha)(e.min) && b != BucketOf(alpha)(e.max)
    ensures e.min <= Edge(alpha, b) <= e.max
  {
    hide Key, Pow;
    var g := GammaOf(alpha);
    match b
    case Zero =>
    case Pos(i) =>
      assert i in s.positive;
      KeyIsLeast(g, e.max, i);
      if e.min > 0.0 { KeyIsLeast(g, e.min, i); }
    case Neg(i) =>
      assert i in s.negative;
      KeyIsLeast(g, -e.min, i);
      if e.max < 0.0 { KeyIsLeast(g, -e.max, i); }
  }

  // ----- samples that leave a sketch -----

  /** The value recorded for a bucket: an extremum if it lies there, else the bucket's edge. */
  function ValueIn(alpha: real, e: Extrema): Bucket -> real
    requires ValidAlpha(alpha)
  {
    (b: Bucket) => if b == BucketOf(alpha)(e.max) then e.max else if b == BucketOf(alpha)(e.min) then e.min else Edge(alpha, b)
  }

  /** Whether two samples are needed in one bucket, for extrema that share it. */
  predicate Shared(alpha: real, e: Extrema)
    requires ValidAlpha(alpha)
  {
    e.min < e.max && BucketOf(alpha)(e.min) == BucketOf(alpha)(e.max)
  }

  function WeightIn(alpha: real, s: Sketch, e: Extrema): Bucket -> int
    requires ValidAlpha(alpha)
  {
    (b: Bucket) => BinCount(s, b) - if Shared(alpha, e) && b == BucketOf(alpha)(e.min) then 1 else 0
  }

  lemma ValuesFit(alpha: real, s: Sketch, e: Extrema, b: Bucket)
    requires ValidAlpha(alpha) && ExtremaMatch(alpha, s, e) && b in Buckets(s)
    ensures e.min <= ValueIn(alpha, e)(b) <= e.max && BucketOf(alpha)(ValueIn(alpha, e)(b)) == b
  {
    hide Edge, BucketOf, Buckets;
    assert e.min <= e.max;
    EdgeIsInside(alpha, b);
    if b != BucketOf(alpha)(e.min) && b != BucketOf(alpha)(e.max) { EdgeBetween(alpha, s, e, b); }
  }

  /** A sketch that passes the checks and is not crowded is left by some samples. */
  lemma {:induction false} Record(alpha: real, s: Sketch, e: Extrema) returns (ss: seq<Sample>)
    requires RestorableSketch(alpha, s) && s.extrema == Some(e)
    requires Shared(alpha, e) ==> BinCount(s, BucketOf(alpha)(e.min)) != 1
    ensures ValidSamples(ss) && OfSamples(BucketOf(alpha), ss) == s
  {
    hide OfSamples, BucketOf, BinCount, Buckets, ExtremaMatch, SumOf, ValueIn, WeightIn, Shared, LowIndex, HighIndex, LieAt, HasOneAt;
    var bucket := BucketOf(alpha);
    assert Positive(s.positive) && Positive(s.negative);
    ExtremaInBuckets(alpha, s, e);
    forall b | b in Buckets(s) ensures WeightIn(alpha, s, e)(b) > 0 && bucket(ValueIn(alpha, e)(b)) == b {
      WeightsFit(alpha, s, e, b);
      ValuesFit(alpha, s, e, b);
    }
    var most := Fill(bucket, Buckets(s), WeightIn(alpha, s, e), ValueIn(alpha, e));
    ss := if Shared(alpha, e) then most + [Sample(e.min, 1)] else most;
    forall b ensures BinCount(OfSamples(bucket, ss), b) == BinCount(s, b) {
      WeightsFit(alpha, s, e, b);
      OneMoreSample(bucket, most, Sample(e.min, 1), b);
    }
    assert s.zeroCount >= 0 && ExtremaMatch(alpha, s, e);
    HasExtrema(alpha, s, e, most, ss);
    ExtremaAreExact(bucket, ss);
    SameExtrema(ss, e, OfSamples(bucket, ss).extrema.value);
    BucketsAddUp(bucket, ss);
    OfSamplesWellFormed(bucket, ss);
    SameCounters(OfSamples(bucket, ss), s);
  }

  lemma WeightsFit(alpha: real, s: Sketch, e: Extrema, b: Bucket)
    requires RestorableSketch(alpha, s) && s.extrema == Some(e)
    requires Shared(alpha, e) ==> BinCount(s, BucketOf(alpha)(e.min)) != 1
    ensures b in Buckets(s) ==> WeightIn(alpha, s, e)(b) > 0
    ensures b !in Buckets(s) ==> BinCount(s, b) == 0
    ensures WeightIn(alpha, s, e)(b) == BinCount(s, b) - if Shared(alpha, e) && b == BucketOf(alpha)(e.min) then 1 else 0
  {
    hide BucketOf, ExtremaMatch, SumOf, LowIndex, HighIndex;
    BucketsAre(s, b);
  }

  lemma ExtremaAreValues(alpha: real, s: Sketch, e: Extrema)
    requires ValidAlpha(alpha) && ExtremaMatch(alpha, s, e) && s.zeroCount >= 0
    ensures ValueIn(alpha, e)(BucketOf(alpha)(e.max)) == e.max && BucketOf(alpha)(e.max) in Buckets(s)
    ensures BucketOf(alpha)(e.min) in Buckets(s) && (!Shared(alpha, e) ==> ValueIn(alpha, e)(BucketOf(alpha)(e.min)) == e.min)
  {
    ExtremaInBuckets(alpha, s, e);
    assert e.min <= e.max;
    hide BucketOf, Buckets, Edge, ExtremaMatch;
  }

  lemma {:induction false} SampleAt(ss: seq<Sample>, b: Bucket, value: Bucket -> real) returns (x: Sample)
    requires HasOneAt(ss, b, value)
    ensures x in ss && x.value == value(b)
  {
    x :| x in ss && x.value == value(b);
  }

  lemma {:induction false} HasExtrema(alpha: real, s: Sketch, e: Extrema, most: seq<Sample>, ss: seq<Sample>)
    requires ValidAlpha(alpha) && ExtremaMatch(alpha, s, e) && s.zeroCount >= 0
    requires LieAt(most, Buckets(s), ValueIn(alpha, e)) && forall b | b in Buckets(s) :: HasOneAt(most, b, ValueIn(alpha, e))
    requires ss == if Shared(alpha, e) then most + [Sample(e.min, 1)] else most
    ensures AreExtrema(ss, e) && ss != []
  {
    hide *;
    ExtremaAreValues(alpha, s, e);
    AllBetween(alpha, s, e, most);
    var high := SampleAt(most, BucketOf(alpha)(e.max), ValueIn(alpha, e));
    if Shared(alpha, e) {
      WithOneMore(most, Sample(e.min, 1), e);
    } else {
      var low := SampleAt(most, BucketOf(alpha)(e.min), ValueIn(alpha, e));
      BothAttained(most, low, high, e);
    }
  }

  lemma {:induction false} BothAttained(ss: seq<Sample>, low: Sample, high: Sample, e: Extrema)
    requires (forall s | s in ss :: e.min <= s.value <= e.max) && low in ss && high in ss && low.value == e.min && high.value == e.max
    ensures AreExtrema(ss, e)
  {
  }

  lemma {:induction false} AllBetween(alpha: real, s: Sketch, e: Extrema, ss: seq<Sample>)
    requires ValidAlpha(alpha) && ExtremaMatch(alpha, s, e) && LieAt(ss, Buckets(s), ValueIn(alpha, e))
    ensures forall x | x in ss :: e.min <= x.value <= e.max
  {
    hide BucketOf, Buckets, ValueIn, ExtremaMatch;
    forall x | x in ss ensures e.min <= x.value <= e.max {
      var b :| b in Buckets(s) && x.value == ValueIn(alpha, e)(b);
      ValuesFit(alpha, s, e, b);
    }
  }

  lemma {:induction false} WithOneMore(ss: seq<Sample>, x: Sample, e: Extrema)
    requires (forall s | s in ss :: e.min <= s.value <= e.max) && (exists s :: s in ss && s.value == e.max) && x.value == e.min
    ensures AreExtrema(ss + [x], e)
  {
    var all := ss + [x];
    var high :| high in ss && high.value == e.max;
    assert high in all && x in all && forall s | s in all :: s in ss || s == x;
  }

  lemma {:induction false} SameExtrema(ss: seq<Sample>, e: Extrema, f: Extrema)
    requires AreExtrema(ss, e) && AreExtrema(ss, f)
    ensures e == f
  {
  }

  lemma {:induction false} WeightHas(ss: seq<Sample>, vs: iset<real>, s: Sample)
    requires ValidSamples(ss) && s in ss && s.value in vs
    ensures Weight(ss, vs) >= 1
  {
    var front, last := ss[..|ss| - 1], ss[|ss| - 1];
    assert ss == front + [last];
    WeightNonNegative(front, vs);
    if s != last { WeightHas(front, vs, s); }
  }

  /** Samples with different extrema in one bucket are at least two. */
  lemma {:induction false} TwoExtremaTwoSamples(alpha: real, ss: seq<Sample>, e: Extrema)
    requires ValidAlpha(alpha) && ValidSamples(ss) && AreExtrema(ss, e) && Shared(alpha, e)
    ensures BinCount(OfSamples(BucketOf(alpha), ss), BucketOf(alpha)(e.min)) >= 2
  {
    hide OfSamples, BucketOf, Weight;
    var b := BucketOf(alpha)(e.min);
    var low :| low in ss && low.value == e.min;
    var high :| high in ss && high.value == e.max;
    CountersMeanWeights(BucketOf(alpha), ss, b);
    WeightHas(ss, iset{e.min}, low);
    WeightHas(ss, iset{e.max}, high);
    WeightUnion(ss, iset{e.min}, iset{e.max});
    WeightMonotone(ss, iset{e.min} + iset{e.max}, InBucket(BucketOf(alpha), b));
  }

  /** A sketch passes the checks of the restore, and is not one whose extrema differ within the
      bucket of a single sample, if and only if it is within the limits of the counters and
      stores, has only indices doubles can have, and is left by some samples. */
  lemma {:induction false} RestorableIsRecordable(alpha: real, s: Sketch)
    requires ValidAlpha(alpha)
    ensures var crowded := s.extrema.Some? && var e := s.extrema.value;
        e.min < e.max && BucketOf(alpha)(e.min) == BucketOf(alpha)(e.max) && BinCount(s, BucketOf(alpha)(e.min)) == 1;
      var inRange := forall i | i in s.positive || i in s.negative :: LowIndex(alpha) <= i <= HighIndex(alpha);
      RestorableSketch(alpha, s) && !crowded <==> Fits(s) && inRange && exists ss :: ValidSamples(ss) && OfSamples(BucketOf(alpha), ss) == s
  {
    hide OfSamples, BucketOf, BinCount, ExtremaMatch, SumOf, LowIndex, HighIndex;
    if RestorableSketch(alpha, s) && !(s.extrema.Some? && Shared(alpha, s.extrema.value) && BinCount(s, BucketOf(alpha)(s.extrema.value.min)) == 1) {
      if s.extrema.Some? {
        var ss := Record(alpha, s, s.extrema.value);
      } else {
        NothingRecorded(alpha, s);
        assert ValidSamples([]) && OfSamples(BucketOf(alpha), []) == s;
      }
    }
    var inRange := forall i | i in s.positive || i in s.negative :: LowIndex(alpha) <= i <= HighIndex(alpha);
    if Fits(s) && inRange && exists ss :: ValidSamples(ss) && OfSamples(BucketOf(alpha), ss) == s {
      var ss :| ValidSamples(ss) && OfSamples(BucketOf(alpha), ss) == s;
      RecordedPasses(alpha, s, ss);
    }
  }

  lemma NothingRecorded(alpha: real, s: Sketch)
    requires RestorableSketch(alpha, s) && s.extrema.None?
    ensures OfSamples(BucketOf(alpha), []) == s && Fits(s)
  {
    hide SumOf, ExtremaMatch, LowIndex, HighIndex;
    NoSample(BucketOf(alpha));
    SumIsPositive(s.positive);
    SumIsPositive(s.negative);
  }

  lemma SumIsPositive(bins: map<int, int>)
    requires Positive(bins)
    ensures SumOf(bins) >= 0 && (bins != map[] ==> SumOf(bins) > 0)
  {
    SumOnIsPositive(bins.Keys, bins);
    if bins != map[] { assert bins.Keys != {} by { var i :| i in bins; } }
  }

  lemma {:induction false} SumOnIsPositive(indices: set<int>, bins: map<int, int>)
    requires Positive(bins) && indices <= bins.Keys
    ensures SumOn(indices, bins) >= 0 && (indices != {} ==> SumOn(indices, bins) > 0)
  {
    if indices != {} {
      var i := Pick(indices);
      SumOnRemove(indices, bins, i);
      SumOnIsPositive(indices - {i}, bins);
    }
  }

  lemma {:induction false} RecordedPasses(alpha: real, s: Sketch, ss: seq<Sample>)
    requires ValidAlpha(alpha) && ValidSamples(ss) && OfSamples(BucketOf(alpha), ss) == s && Fits(s)
    requires forall i | i in s.positive || i in s.negative :: LowIndex(alpha) <= i <= HighIndex(alpha)
    ensures RestorableSketch(alpha, s)
    ensures s.extrema.Some? && Shared(alpha, s.extrema.value) ==> BinCount(s, BucketOf(alpha)(s.extrema.value.min)) != 1
  {
    hide OfSamples, BucketOf, BinCount, ExtremaMatch, SumOf, LowIndex, HighIndex, Shared;
    OfSamplesWellFormed(BucketOf(alpha), ss);
    BucketsAddUp(BucketOf(alpha), ss);
    if ss == [] {
      NoSamples(alpha);
      SumOfNone();
    } else {
      ReachableExtremaMatch(alpha, ss);
      ExtremaAreExact(BucketOf(alpha), ss);
      WeighsSomething(alpha, ss);
      if Shared(alpha, s.extrema.value) { TwoExtremaTwoSamples(alpha, ss, s.extrema.value); }
    }
  }

  // ----- an example of a sketch nothing can leave -----

  /** One sample, with two extrema: gamma is 2 and both lie in (1/2, 1]. */
  function OneSampleTwoExtrema(): Sketch { Sketch(map[0 := 1], map[], 0, 1, Some(Extrema(0.75, 1.0))) }

  lemma {:induction false} AcceptedThoughUnrecordable()
    ensures var alpha, s := 1.0 / 3.0, OneSampleTwoExtrema();
      RestorableSketch(alpha, s) && forall ss | ValidSamples(ss) :: OfSamples(BucketOf(alpha), ss) != s
  {
    hide OfSamples, BucketOf, RestorableSketch, OneSampleTwoExtrema;
    ExampleIsRestorable();
    ExampleIsCrowded();
    RestorableIsRecordable(1.0 / 3.0, OneSampleTwoExtrema());
  }

  lemma ExampleKeys()
    ensures GammaOf(1.0 / 3.0) == 2.0 && Key(2.0, 0.75) == 0 && Key(2.0, 1.0) == 0
  {
  }

  lemma ExampleIsRestorable()
    ensures RestorableSketch(1.0 / 3.0, OneSampleTwoExtrema()) && Fits(OneSampleTwoExtrema())
    ensures LowIndex(1.0 / 3.0) <= 0 <= HighIndex(1.0 / 3.0)
  {
    hide LowIndex, HighIndex, Key, SumOf;
    ExampleKeys();
    OneIsInRange();
    SumOfOne(0, 1);
    SumOfNone();
  }

  lemma ExampleIsCrowded()
    ensures var s := OneSampleTwoExtrema();
      && BucketOf(1.0 / 3.0)(0.75) == BucketOf(1.0 / 3.0)(1.0) && BinCount(s, BucketOf(1.0 / 3.0)(0.75)) == 1
      && s.extrema == Some(Extrema(0.75, 1.0)) && s.positive.Keys == {0} && s.negative == map[]
  {
    hide Key;
    ExampleKeys();
  }

  lemma OneIsInRange()
    ensures LowIndex(1.0 / 3.0) <= 0 <= HighIndex(1.0 / 3.0)
  {
    hide Key, Pow;
    assert GammaOf(1.0 / 3.0) == 2.0;
    TinyBelowHuge();
    assert Pow(2.0, 0) == 1.0 by { PowZero(); }
    PowIncreases(2.0, -1074, 0);
    KeyIsLeast(2.0, Tiny(), 0);
    KeyIsLeast(2.0, Huge(), -1);
    PowIncreases(2.0, -1, 0);
    PowIncreases(2.0, 0, 1023);
    PowIncreases(2.0, -52, 0);
    var p, h := Pow(2.0, -52), Pow(2.0, 1023);
    assert (2.0 - p) * h - h == (1.0 - p) * h;
  }

  // ----- what is restored, in plain terms -----

  /** Where the extrema of a sketch lie: max in the greatest of the positive buckets, or
      zero or below when there are none, and so on. */
  lemma {:induction false} ExtremaLieOutermost(alpha: real, g: real, s: Sketch, e: Extrema)
    requires ValidAlpha(alpha) && g == GammaOf(alpha)
    ensures ExtremaMatch(alpha, s, e) <==>
        && e.min <= e.max
        && (s.positive == map[] <==> e.max <= 0.0) && (s.negative == map[] <==> e.min >= 0.0)
        && (s.zeroCount > 0 ==> e.min <= 0.0 <= e.max) && (e.min == 0.0 || e.max == 0.0 ==> s.zeroCount > 0)
        && (e.max > 0.0 ==> exists k :: k in s.positive && Brackets(g, e.max, k) && forall i | i in s.positive :: i <= k)
        && (e.min > 0.0 ==> exists k :: k in s.positive && Brackets(g, e.min, k) && forall i | i in s.positive :: k <= i)
        && (e.min < 0.0 ==> exists k :: k in s.negative && Brackets(g, -e.min, k) && forall i | i in s.negative :: i <= k)
        && (e.max < 0.0 ==> exists k :: k in s.negative && Brackets(g, -e.max, k) && forall i | i in s.negative :: k <= i)
  {
    hide Key, Pow;
    if e.max > 0.0 { OneBracket(g, e.max); }
    if e.min > 0.0 { OneBracket(g, e.min); }
    if e.min < 0.0 { OneBracket(g, -e.min); }
    if e.max < 0.0 { OneBracket(g, -e.max); }
  }

  lemma OneBracket(g: real, v: real)
    requires g > 1.0 && v > 0.0
    ensures forall k :: Brackets(g, v, k) <==> k == Key(g, v)
  {
    hide Key, Pow;
    forall k ensures Brackets(g, v, k) <==> k == Key(g, v) {
      KeyIsLeast(g, v, k);
      KeyIsLeast(g, v, k - 1);
    }
  }

  /** An index is one that a double's magnitude can have. */
  lemma DoubleIndex(alpha: real, g: real, i: int)
    requires ValidAlpha(alpha) && g == GammaOf(alpha)
    ensures LowIndex(alpha) <= i <= HighIndex(alpha) <==> Tiny() <= Pow(g, i) && Pow(g, i - 1) < Huge()
  {
    hide Key, Pow, Huge, Tiny;
    TinyBelowHuge();
    KeyIsLeast(g, Tiny(), i);
    KeyIsLeast(g, Huge(), i - 1);
  }

  lemma {:induction false} BinsMean(alpha: real, g: real, bins: map<int, int>)
    requires ValidAlpha(alpha) && g == GammaOf(alpha)
    ensures BinsInBounds(alpha, bins) <==>
      |bins| <= 1024 && forall i | i in bins :: 0 < bins[i] <= MAX_INT64 && Tiny() <= Pow(g, i) && Pow(g, i - 1) < Huge()
  {
    hide Pow, Huge, Tiny, LowIndex, HighIndex;
    if BinsInBounds(alpha, bins) {
      forall i | i in bins ensures Tiny() <= Pow(g, i) && Pow(g, i - 1) < Huge() { DoubleIndex(alpha, g, i); }
    }
    if forall i | i in bins :: 0 < bins[i] <= MAX_INT64 && Tiny() <= Pow(g, i) && Pow(g, i - 1) < Huge() {
      forall i | i in bins ensures LowIndex(alpha) <= i <= HighIndex(alpha) {
        assert Tiny() <= Pow(g, i) && Pow(g, i - 1) < Huge();
        DoubleIndex(alpha, g, i);
      }
    }
  }

  /** The sketches a restore returns, condition by condition. */
  lemma {:induction false} RestorableSketchMeans(alpha: real, s: Sketch)
    requires ValidAlpha(alpha)
    ensures RestorableSketch(alpha, s) <==>
      && BinsInBounds(alpha, s.positive) && BinsInBounds(alpha, s.negative) && 0 <= s.zeroCount <= MAX_INT64
      && s.count == s.zeroCount + SumOf(s.positive) + SumOf(s.negative) <= MAX_UINT64
      && (s.extrema.Some? <==> s.count > 0) && (s.extrema.Some? ==> ExtremaMatch(alpha, s, s.extrema.value))
  {
    hide SumOf, ExtremaMatch, LowIndex, HighIndex;
    if BinsInBounds(alpha, s.positive) { SumIsPositive(s.positive); }
    if BinsInBounds(alpha, s.negative) { SumIsPositive(s.negative); }
  }

  /** The tables and registers a restore returns: as many cells and registers as the dimensions
      say, within their bounds, and every row summing to the total. */
  lemma {:induction false} RestorableCountsMean(c: CountMin.Counts)
    ensures RestorableCounts(c) <==>
      && c.width >= 1 && c.depth >= 1 && c.width * c.depth <= 1_000_000 && |c.table| == c.depth * c.width
      && 0 <= c.total <= MAX_INT64 && (forall i | 0 <= i < |c.table| :: 0 <= c.table[i] <= MAX_INT64)
      && forall r | 0 <= r < c.depth :: CountMin.Sum(CountMin.Row(c, r)) == c.total
  {
    hide CountMin.Sum, CountMin.Row;
    if c.depth >= 1 { CellLimit(c.width, c.depth); }
  }

  lemma CellLimit(w: nat, d: nat)
    requires d >= 1
    ensures w <= MAX_CMS_CELLS / d <==> w * d <= 1_000_000
  {
    var q := MAX_CMS_CELLS / d;
    assert q * d <= MAX_CMS_CELLS < q * d + d;
    if w <= q {
      if w < q { CountMin.RowGap(w, q, d); }
    } else {
      CountMin.RowGap(q, w, d);
    }
  }

  lemma {:induction false} RestorableRegistersMean(precision: int, registers: seq<int>)
    ensures RestorableRegisters(precision, registers) <==>
      && 4 <= precision <= 18 && |registers| == Cardinality.Pow2(precision)
      && forall i | 0 <= i < |registers| :: 0 <= registers[i] <= 65 - precision
  {
  }

  /** Whatever is restored is as sound as what counting and merging leave. */
  lemma {:induction false} RestoredIsSound(l: Log)
    requires Restorable(l)
    ensures WellFormedLog(l) && FitsLog(l) && 0.000001 <= l.config.alpha < 1.0 && l.config.width * l.config.depth <= 1_000_000
    ensures l.total == l.latency.count + l.events.total
    ensures RestorableSketch(l.config.alpha, l.latency) && RestorableCounts(l.events) && RestorableRegisters(l.config.precision, l.registers)
  {
    hide SumOf, ExtremaMatch, LowIndex, HighIndex, CountMin.Sum, CountMin.Row, Cardinality.Pow2;
    RestorableSketchMeans(l.config.alpha, l.latency);
    SumIsPositive(l.latency.positive);
    SumIsPositive(l.latency.negative);
    RestorableCountsMean(l.events);
  }

  // ----- what an accepted document says -----

  /** A document that is read as a log is of version 1 and spells its numbers out; it may leave
      out whether the log is deterministic, which then it is not. */
  lemma {:induction false} AcceptedDocument(doc: Value, l: Log, deterministic: bool)
    requires Describes(doc, l, deterministic)
    ensures doc.Dict? && Text("version") in doc.entries && doc.entries[Text("version")] == Int(1)
    ensures Text("total") in doc.entries && doc.entries[Text("total")] == Int(l.total)
    ensures if Text("deterministic") in doc.entries then doc.entries[Text("deterministic")] == Bool(deterministic) else !deterministic
    ensures forall k | k in ["latency", "uniques", "events"] :: Text(k) in doc.entries && doc.entries[Text(k)].Dict?
  {
    assert ["latency", "uniques", "events"][0] == "latency" && ["latency", "uniques", "events"][1] == "uniques";
    hide DescribesBins, DescribesRows, Ints;
  }

  /** Leaving it out of a saved document says that the log is not deterministic. */
  lemma {:induction false} MissingFlag(l: Log, asText: bool)
    requires |l.events.table| == l.events.depth * l.events.width
    requires l.events.width == l.config.width && l.events.depth == l.config.depth
    ensures Describes(Dict(ToDict(l, false, asText).entries - {Text("deterministic")}), l, false)
  {
    hide DescribesSketch, DescribesRegisters, DescribesCounts, SavedSketch, SavedCounts, SavedRegisters;
    SavedDescribes(l, false, asText);
    var doc := ToDict(l, false, asText);
    var less := Dict(doc.entries - {Text("deterministic")});
    OtherNames();
    assert forall k | k in ["version", "total", "latency", "uniques", "events"] :: Field(less, k) == Field(doc, k);
    var names := ["version", "total", "latency", "uniques", "events"];
    assert names[0] == "version" && names[1] == "total" && names[2] == "latency" && names[3] == "uniques" && names[4] == "events";
  }

  /** An extremum is a number, whole or not, within the range of doubles. */
  lemma NumberMeans(v: Value)
    ensures Number(Some(v)) == match v
      case Num(r) => Some(r)
      case Int(i) =>
        var huge := (2.0 - Pow(2.0, -52)) * Pow(2.0, 1023);
        if -huge <= i as real <= huge then Some(i as real) else None
      case _ => None
  {
    hide Pow;
  }

  lemma OtherNames()
    ensures "deterministic" !in ["version", "total", "latency", "uniques", "events"]
  {
    assert "deterministic"[0] != "version"[0] && "deterministic"[0] != "total"[0] && "deterministic"[0] != "latency"[0];
    assert "deterministic"[0] != "uniques"[0] && "deterministic"[0] != "events"[0];
  }

  lemma {:induction false} AcceptedLatency(v: Value, alpha: real, s: Sketch)
    requires DescribesSketch(Some(v), alpha, s)
    ensures v.Dict? && forall k | k in ["alpha", "zero_count", "count", "positive", "negative"] :: Text(k) in v.entries
    ensures v.entries[Text("alpha")] == Num(alpha)
    ensures v.entries[Text("zero_count")] == Int(s.zeroCount) && v.entries[Text("count")] == Int(s.count)
    ensures v.entries[Text("positive")].Dict? && v.entries[Text("negative")].Dict?
    ensures s.extrema.None? ==> forall k | k in ["min", "max"] :: Text(k) !in v.entries || v.entries[Text(k)] == Null
    ensures s.extrema.Some? ==> Text("min") in v.entries && v.entries[Text("min")] in {Num(s.extrema.value.min), Int(s.extrema.value.min.Floor)}
    ensures s.extrema.Some? ==> Text("max") in v.entries && v.entries[Text("max")] in {Num(s.extrema.value.max), Int(s.extrema.value.max.Floor)}
  {
    hide ReadInto, Huge;
  }
}
