/** The cumulative distribution of a latency sketch: the bucket representatives in order,
    each with the share of the samples reported at or below it. */
module LatencyCdf {
  import opened Prelude
  import opened Gamma
  import opened SketchAlgebra
  import opened QuantileSketch
  import opened Distances

  /** A reported value and how many samples report it. */
  datatype Mass = Mass(value: real, count: int)

  function TotalMass(ms: seq<Mass>): int {
    if ms == [] then 0 else TotalMass(ms[..|ms| - 1]) + ms[|ms| - 1].count
  }

  ghost function MassUpTo(ms: seq<Mass>, x: real): int {
    if ms == [] then 0
    else MassUpTo(ms[..|ms| - 1], x) + if ms[|ms| - 1].value <= x then ms[|ms| - 1].count else 0
  }

  ghost predicate PositiveMass(ms: seq<Mass>) { forall m | m in ms :: m.count > 0 }

  ghost predicate DistinctValues(ms: seq<Mass>) { forall i, j | 0 <= i < j < |ms| :: ms[i].value != ms[j].value }

  predicate SortedMass(ms: seq<Mass>) { forall i, j | 0 <= i < j < |ms| :: ms[i].value < ms[j].value }

  // ----- sorting by value -----

  function InsertMass(ms: seq<Mass>, m: Mass): seq<Mass> {
    if ms == [] || ms[|ms| - 1].value < m.value then ms + [m]
    else InsertMass(ms[..|ms| - 1], m) + [ms[|ms| - 1]]
  }

  function SortByValue(ms: seq<Mass>): seq<Mass> {
    if ms == [] then [] else InsertMass(SortByValue(ms[..|ms| - 1]), ms[|ms| - 1])
  }

  lemma {:induction false} InsertMassAdds(ms: seq<Mass>, m: Mass, x: real)
    ensures TotalMass(InsertMass(ms, m)) == TotalMass(ms) + m.count
    ensures MassUpTo(InsertMass(ms, m), x) == MassUpTo(ms, x) + if m.value <= x then m.count else 0
  {
    if ms == [] || ms[|ms| - 1].value < m.value {
      assert (ms + [m])[..|ms|] == ms;
    } else {
      var front, last := ms[..|ms| - 1], ms[|ms| - 1];
      InsertMassAdds(front, m, x);
      var r := InsertMass(front, m);
      assert (r + [last])[..|r|] == r;
    }
  }

  lemma {:induction false} InsertMassSorts(ms: seq<Mass>, m: Mass)
    requires SortedMass(ms) && forall k | k in ms :: k.value != m.value
    ensures SortedMass(InsertMass(ms, m))
    ensures forall k :: k in InsertMass(ms, m) <==> k in ms || k == m
  {
    if ms != [] && ms[|ms| - 1].value >= m.value {
      var front, last := ms[..|ms| - 1], ms[|ms| - 1];
      assert ms == front + [last];
      assert last in ms;
      InsertMassSorts(front, m);
      var r := InsertMass(front, m);
      forall k | 0 <= k < |r| ensures r[k].value < last.value { assert r[k] in r; }
    }
  }

  lemma {:induction false} SortKeepsMass(ms: seq<Mass>, x: real)
    ensures TotalMass(SortByValue(ms)) == TotalMass(ms)
    ensures MassUpTo(SortByValue(ms), x) == MassUpTo(ms, x)
  {
    if ms != [] {
      SortKeepsMass(ms[..|ms| - 1], x);
      InsertMassAdds(SortByValue(ms[..|ms| - 1]), ms[|ms| - 1], x);
    }
  }

  lemma {:induction false} SortSorts(ms: seq<Mass>)
    requires DistinctValues(ms)
    ensures SortedMass(SortByValue(ms))
    ensures forall k :: k in SortByValue(ms) <==> k in ms
  {
    if ms != [] {
      var front, last := ms[..|ms| - 1], ms[|ms| - 1];
      assert ms == front + [last];
      SortSorts(front);
      InsertMassSorts(SortByValue(front), last);
    }
  }

  // ----- collecting the buckets -----

  /** Values of the given buckets that are reported at or below x. */
  ghost function ReportedAtMost(alpha: real, bs: set<Bucket>, x: real): iset<real>
    requires ValidAlpha(alpha)
  {
    iset v: real | BucketOf(alpha)(v) in bs && Representative(alpha, BucketOf(alpha)(v)) <= x
  }

  /** Values of any bucket that are reported at or below x. */
  ghost function Reported(alpha: real, x: real): iset<real>
    requires ValidAlpha(alpha)
  {
    iset v: real | Representative(alpha, BucketOf(alpha)(v)) <= x
  }

  /** The points gathered so far stand for exactly the buckets bs of the samples. */
  ghost predicate Gathered(alpha: real, ss: seq<Sample>, bs: set<Bucket>, ms: seq<Mass>)
    requires ValidAlpha(alpha)
  {
    && PositiveMass(ms) && DistinctValues(ms)
    && (forall m | m in ms :: exists b :: b in bs && m.value == Representative(alpha, b))
    && TotalMass(ms) == Weight(ss, InBuckets(BucketOf(alpha), bs))
    && (forall x :: MassUpTo(ms, x) == Weight(ss, ReportedAtMost(alpha, bs, x)))
  }

  lemma DistinctRepresentatives(alpha: real, a: Bucket, b: Bucket)
    requires ValidAlpha(alpha) && a != b
    ensures Representative(alpha, a) != Representative(alpha, b)
  {
    hide Representative;
    if Before(a, b) { RepresentativeIncreases(alpha, a, b); } else { RepresentativeIncreases(alpha, b, a); }
  }

  lemma {:induction false} ReportedOneMore(alpha: real, ss: seq<Sample>, bs: set<Bucket>, b: Bucket, x: real)
    requires ValidAlpha(alpha) && ValidSamples(ss) && b !in bs
    ensures Weight(ss, ReportedAtMost(alpha, bs + {b}, x)) == Weight(ss, ReportedAtMost(alpha, bs, x))
      + if Representative(alpha, b) <= x then BinCount(OfSamples(BucketOf(alpha), ss), b) else 0
  {
    hide Representative, BucketOf;
    var before, after := ReportedAtMost(alpha, bs, x), ReportedAtMost(alpha, bs + {b}, x);
    if Representative(alpha, b) <= x {
      assert after == before + InBucket(BucketOf(alpha), b);
      WeightUnion(ss, before, InBucket(BucketOf(alpha), b));
      CountersMeanWeights(BucketOf(alpha), ss, b);
    } else {
      assert after == before;
    }
  }

  lemma {:induction false} GatherOne(alpha: real, ss: seq<Sample>, bs: set<Bucket>, ms: seq<Mass>, b: Bucket)
    requires ValidAlpha(alpha) && ValidSamples(ss) && Gathered(alpha, ss, bs, ms) && b !in bs
    requires BinCount(OfSamples(BucketOf(alpha), ss), b) > 0
    ensures Gathered(alpha, ss, bs + {b}, ms + [Mass(Representative(alpha, b), BinCount(OfSamples(BucketOf(alpha), ss), b))])
  {
    hide Representative, BucketOf, OfSamples, BinCount, Weight;
    var m := Mass(Representative(alpha, b), BinCount(OfSamples(BucketOf(alpha), ss), b));
    assert (ms + [m])[..|ms|] == ms;
    WalkOneBucket(BucketOf(alpha), ss, bs, b);
    forall x ensures MassUpTo(ms + [m], x) == Weight(ss, ReportedAtMost(alpha, bs + {b}, x)) {
      ReportedOneMore(alpha, ss, bs, b, x);
    }
    forall i | 0 <= i < |ms| ensures ms[i].value != m.value {
      assert ms[i] in ms;
      var a :| a in bs && ms[i].value == Representative(alpha, a);
      DistinctRepresentatives(alpha, a, b);
    }
    forall k | k in ms + [m] ensures exists a :: a in bs + {b} && k.value == Representative(alpha, a) {
      if k in ms {
        var a :| a in bs && k.value == Representative(alpha, a);
        assert a in bs + {b};
      } else {
        assert b in bs + {b};
      }
    }
  }

  lemma {:induction false} GatherNothing(alpha: real, ss: seq<Sample>)
    requires ValidAlpha(alpha)
    ensures Gathered(alpha, ss, {}, [])
  {
    hide Representative, BucketOf;
    WeightOfNone(ss, InBuckets(BucketOf(alpha), {}));
    forall x ensures MassUpTo([], x) == Weight(ss, ReportedAtMost(alpha, {}, x)) {
      WeightOfNone(ss, ReportedAtMost(alpha, {}, x));
    }
  }

  /** An empty bucket can be counted as gathered without a point. */
  lemma {:induction false} GatherEmptyBucket(alpha: real, ss: seq<Sample>, bs: set<Bucket>, ms: seq<Mass>, b: Bucket)
    requires ValidAlpha(alpha) && ValidSamples(ss) && Gathered(alpha, ss, bs, ms) && b !in bs
    requires BinCount(OfSamples(BucketOf(alpha), ss), b) == 0
    ensures Gathered(alpha, ss, bs + {b}, ms)
  {
    hide Representative, BucketOf, OfSamples, BinCount, Weight;
    WalkOneBucket(BucketOf(alpha), ss, bs, b);
    forall x ensures MassUpTo(ms, x) == Weight(ss, ReportedAtMost(alpha, bs + {b}, x)) {
      ReportedOneMore(alpha, ss, bs, b, x);
    }
    forall k | k in ms ensures exists a :: a in bs + {b} && k.value == Representative(alpha, a) {
      var a :| a in bs && k.value == Representative(alpha, a);
      assert a in bs + {b};
    }
  }

  // ----- from sorted masses to cumulative probabilities -----

  lemma {:induction false} PrefixMass(ms: seq<Mass>, i: nat)
    requires i <= |ms| && PositiveMass(ms)
    ensures 0 <= TotalMass(ms[..i]) <= TotalMass(ms)
    ensures i > 0 ==> TotalMass(ms[..i]) > 0
    decreases |ms| - i, i
  {
    if i < |ms| {
      PrefixMass(ms, i + 1);
      assert ms[..i + 1][..i] == ms[..i] && ms[i] in ms;
      PrefixNonNegative(ms[..i]);
    } else {
      assert ms[..i] == ms;
      PrefixNonNegative(ms);
    }
  }

  lemma {:induction false} PrefixNonNegative(ms: seq<Mass>)
    requires PositiveMass(ms)
    ensures TotalMass(ms) >= |ms|
  {
    if ms != [] { PrefixNonNegative(ms[..|ms| - 1]); }
  }

  lemma {:induction false} AllMassBelow(ms: seq<Mass>, x: real)
    requires forall m | m in ms :: m.value <= x
    ensures MassUpTo(ms, x) == TotalMass(ms)
  {
    if ms != [] { AllMassBelow(ms[..|ms| - 1], x); }
  }

  function Share(part: int, n: int): real
    requires n > 0
  {
    part as real / n as real
  }

  /** The probabilities of a sorted mass list, as shares of n. */
  ghost predicate AreShares(cdf: seq<Point>, ms: seq<Mass>, n: int)
    requires n > 0
  {
    |cdf| == |ms| && forall k | 0 <= k < |ms| ::
      cdf[k].value == ms[k].value && cdf[k].p == Share(TotalMass(ms[..k + 1]), n)
  }

  lemma {:induction false} SharesReadBack(cdf: seq<Point>, ms: seq<Mass>, n: int, x: real)
    requires n > 0 && SortedMass(ms) && AreShares(cdf, ms, n)
    ensures At(cdf, x) == Share(MassUpTo(ms, x), n)
  {
    hide Share;
    NoShare(n);
    if ms != [] {
      var k := |ms| - 1;
      if ms[k].value <= x {
        AllMassBelow(ms, x);
        assert ms[..k + 1] == ms;
      } else {
        var front := ms[..k];
        forall j | 0 <= j < k ensures cdf[j].p == Share(TotalMass(front[..j + 1]), n) {
          assert front[..j + 1] == ms[..j + 1];
        }
        SharesReadBack(cdf[..k], front, n, x);
      }
    }
  }

  lemma Quotients(a: int, b: int, n: int)
    requires 0 < a <= b <= n
    ensures 0.0 < Share(a, n) <= Share(b, n) <= 1.0 && Share(n, n) == 1.0
  {
  }

  lemma {:induction false} SharesAreCdf(cdf: seq<Point>, ms: seq<Mass>)
    requires SortedMass(ms) && PositiveMass(ms) && ms != [] && TotalMass(ms) > 0 && AreShares(cdf, ms, TotalMass(ms))
    ensures IsCdf(cdf)
  {
    hide TotalMass, Share;
    var n := TotalMass(ms);
    forall i, j | 0 <= i <= j < |cdf| ensures 0.0 < cdf[i].p <= cdf[j].p <= 1.0 {
      PrefixMass(ms, i + 1);
      PrefixMass(ms, j + 1);
      assert ms[..j + 1][..i + 1] == ms[..i + 1];
      assert PositiveMass(ms[..j + 1]);
      PrefixMass(ms[..j + 1], i + 1);
      Quotients(TotalMass(ms[..i + 1]), TotalMass(ms[..j + 1]), n);
    }
    assert ms[..|ms|] == ms;
    Quotients(n, n, n);
  }

  /** Reads the distribution off a sketch: no point for an empty sketch, and otherwise a
      cumulative function whose value at x is the share of the samples whose bucket is
      reported at or below x. */
  method GetCdf(alpha: real, s: Sketch, ghost ss: seq<Sample>) returns (cdf: seq<Point>)
    requires ValidAlpha(alpha) && ValidSamples(ss) && s == OfSamples(BucketOf(alpha), ss)
    ensures IsCdf(cdf)
    ensures cdf == [] <==> s.count == 0
    ensures s.count > 0 ==> forall x :: At(cdf, x) == Share(Weight(ss, Reported(alpha, x)), s.count)
  {
    hide OfSamples, BucketOf, Representative, Weight, At, TotalMass, MassUpTo, Gathered, WellFormed, SortByValue, Share;
    OfSamplesWellFormed(BucketOf(alpha), ss);
    NonNegativeCount(s);
    if s.count == 0 { return []; }
    var points, bs := Points(alpha, s, ss);
    var sorted := SortByValue(points);
    assert DistinctValues(points) && PositiveMass(points) && TotalMass(points) == s.count
        && (forall x :: MassUpTo(points, x) == Weight(ss, Reported(alpha, x))) by {
      EverythingGathered(alpha, s, ss, bs, points);
    }
    SortSorts(points);
    SortKeepsMass(points, 0.0);
    cdf := [];
    var cum := 0;
    assert sorted[..0] == [];
    NoMass();
    for i := 0 to |sorted|
      invariant cum == TotalMass(sorted[..i])
      invariant |cdf| == i && forall k | 0 <= k < i ::
        cdf[k].value == sorted[k].value && cdf[k].p == Share(TotalMass(sorted[..k + 1]), s.count)
    {
      MassGrows(sorted, i);
      cum := cum + sorted[i].count;
      cdf := cdf + [Point(sorted[i].value, Share(cum, s.count))];
    }
    NonEmptyMass(sorted);
    SharesAreCdf(cdf, sorted);
    forall x ensures At(cdf, x) == Share(Weight(ss, Reported(alpha, x)), s.count) {
      SharesReadBack(cdf, sorted, s.count, x);
      SortKeepsMass(points, x);
    }
  }

  lemma NonNegativeCount(s: Sketch)
    requires WellFormed(s)
    ensures s.count >= 0
  {
  }

  lemma NoShare(n: int)
    requires n > 0
    ensures Share(0, n) == 0.0
  {
  }

  lemma NoMass()
    ensures TotalMass([]) == 0
  {
  }

  lemma {:induction false} NonEmptyMass(ms: seq<Mass>)
    requires TotalMass(ms) > 0
    ensures ms != []
  {
  }

  lemma {:induction false} MassGrows(ms: seq<Mass>, i: nat)
    requires i < |ms|
    ensures TotalMass(ms[..i + 1]) == TotalMass(ms[..i]) + ms[i].count
  {
    assert ms[..i + 1][..i] == ms[..i];
  }

  /** One point a non-empty bucket, in the order the three stores list them. */
  method Points(alpha: real, s: Sketch, ghost ss: seq<Sample>) returns (points: seq<Mass>, ghost bs: set<Bucket>)
    requires ValidAlpha(alpha) && ValidSamples(ss) && s == OfSamples(BucketOf(alpha), ss)
    ensures Gathered(alpha, ss, bs, points)
    ensures Zero in bs && (forall i | i in s.negative :: Neg(i) in bs) && (forall i | i in s.positive :: Pos(i) in bs)
  {
    hide OfSamples, BucketOf, Weight, Gathered, BucketValue;
    OfSamplesWellFormed(BucketOf(alpha), ss);
    points, bs := [], {};
    GatherNothing(alpha, ss);
    var rest := s.negative.Keys;
    while rest != {}
      invariant rest <= s.negative.Keys && Gathered(alpha, ss, bs, points)
      invariant forall b :: b in bs <==> b.Neg? && b.index in s.negative && b.index !in rest
    {
      ghost var some := Pick(rest);
      var k :| k in rest;
      GatherOne(alpha, ss, bs, points, Neg(k));
      points, bs := points + [Mass(-BucketValue(GammaOf(alpha), k), s.negative[k])], bs + {Neg(k)};
      rest := rest - {k};
    }
    if s.zeroCount > 0 {
      GatherOne(alpha, ss, bs, points, Zero);
      points := points + [Mass(0.0, s.zeroCount)];
    } else {
      GatherEmptyBucket(alpha, ss, bs, points, Zero);
    }
    bs := bs + {Zero};
    rest := s.positive.Keys;
    while rest != {}
      invariant rest <= s.positive.Keys && Gathered(alpha, ss, bs, points)
      invariant forall b :: b in bs <==>
        if b.Neg? then b.index in s.negative else if b.Pos? then b.index in s.positive && b.index !in rest else true
    {
      ghost var some := Pick(rest);
      var k :| k in rest;
      GatherOne(alpha, ss, bs, points, Pos(k));
      points, bs := points + [Mass(BucketValue(GammaOf(alpha), k), s.positive[k])], bs + {Pos(k)};
      rest := rest - {k};
    }
  }

  lemma {:induction false} EverythingGathered(alpha: real, s: Sketch, ss: seq<Sample>, bs: set<Bucket>, ms: seq<Mass>)
    requires ValidAlpha(alpha) && ValidSamples(ss) && s == OfSamples(BucketOf(alpha), ss) && Gathered(alpha, ss, bs, ms)
    requires Zero in bs && (forall i | i in s.negative :: Neg(i) in bs) && (forall i | i in s.positive :: Pos(i) in bs)
    ensures DistinctValues(ms) && PositiveMass(ms) && TotalMass(ms) == s.count
    ensures forall x :: MassUpTo(ms, x) == Weight(ss, Reported(alpha, x))
  {
    hide OfSamples, BucketOf, Weight, Representative, MassUpTo, TotalMass;
    forall v | v in ss ensures BucketOf(alpha)(v.value) in bs { SampleHasBin(BucketOf(alpha), ss, v); }
    WeightOfAll(ss, InBuckets(BucketOf(alpha), bs));
    CountersMeanWeights(BucketOf(alpha), ss, Zero);
    forall x ensures MassUpTo(ms, x) == Weight(ss, Reported(alpha, x)) {
      WeightAgrees(ss, ReportedAtMost(alpha, bs, x), Reported(alpha, x));
    }
  }
}
