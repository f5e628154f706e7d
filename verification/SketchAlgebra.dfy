/** The quantile sketch as a value: what a stream of weighted samples leaves behind, and
    the algebra of bucket-wise addition that merging relies on. */
module SketchAlgebra {
  import opened Prelude

  const MAX_BINS := 1024

  /** One accepted observation, repeated weight times. */
  datatype Sample = Sample(value: real, weight: int)

  datatype Bucket = Neg(index: int) | Zero | Pos(index: int)

  datatype Extrema = Extrema(min: real, max: real)

  datatype Sketch = Sketch(
    positive: map<int, int>,
    negative: map<int, int>,
    zeroCount: int,
    count: int,
    extrema: Option<Extrema>)

  /** How values map to buckets; the sketch's own mapping is one such function. */
  type Bucketing = real -> Bucket

  function BinCount(s: Sketch, b: Bucket): int {
    match b
    case Neg(i) => Get(s.negative, i)
    case Zero => s.zeroCount
    case Pos(i) => Get(s.positive, i)
  }

  // ----- the commutative monoid of sketches -----

  function Empty(): Sketch { Sketch(map[], map[], 0, 0, None) }

  function Single(bucket: Bucketing, s: Sample): Sketch {
    var extrema := Some(Extrema(s.value, s.value));
    match bucket(s.value)
    case Neg(i) => Sketch(map[], map[i := s.weight], 0, s.weight, extrema)
    case Zero => Sketch(map[], map[], s.weight, s.weight, extrema)
    case Pos(i) => Sketch(map[i := s.weight], map[], 0, s.weight, extrema)
  }

  function AddBins(a: map<int, int>, b: map<int, int>): (r: map<int, int>)
    ensures r.Keys == a.Keys + b.Keys
  {
    map i | i in a.Keys + b.Keys :: Get(a, i) + Get(b, i)
  }

  lemma SameBins(a: map<int, int>, b: map<int, int>)
    requires a.Keys == b.Keys && forall i :: Get(a, i) == Get(b, i)
    ensures a == b
  {
    forall i | i in a ensures a[i] == b[i] { assert Get(a, i) == Get(b, i); }
  }

  function JoinExtrema(a: Option<Extrema>, b: Option<Extrema>): Option<Extrema> {
    if a.None? then b
    else if b.None? then a
    else Some(Extrema(Min(a.value.min, b.value.min), Max(a.value.max, b.value.max)))
  }

  /** Merging without any limit on the counters. */
  function Combine(a: Sketch, b: Sketch): Sketch {
    Sketch(AddBins(a.positive, b.positive), AddBins(a.negative, b.negative),
           a.zeroCount + b.zeroCount, a.count + b.count, JoinExtrema(a.extrema, b.extrema))
  }

  lemma {:induction false} CombineCommutes(a: Sketch, b: Sketch)
    ensures Combine(a, b) == Combine(b, a)
  {
    SameBins(AddBins(a.positive, b.positive), AddBins(b.positive, a.positive));
    SameBins(AddBins(a.negative, b.negative), AddBins(b.negative, a.negative));
  }

  lemma {:induction false} CombineAssociates(a: Sketch, b: Sketch, c: Sketch)
    ensures Combine(Combine(a, b), c) == Combine(a, Combine(b, c))
  {
    AddBinsAssociates(a.positive, b.positive, c.positive);
    AddBinsAssociates(a.negative, b.negative, c.negative);
  }

  lemma AddBinsAssociates(a: map<int, int>, b: map<int, int>, c: map<int, int>)
    ensures AddBins(AddBins(a, b), c) == AddBins(a, AddBins(b, c))
  {
    SameBins(AddBins(AddBins(a, b), c), AddBins(a, AddBins(b, c)));
  }

  lemma CombineEmpty(a: Sketch)
    ensures Combine(a, Empty()) == a == Combine(Empty(), a)
  {
    SameBins(AddBins(a.positive, map[]), a.positive);
    SameBins(AddBins(map[], a.positive), a.positive);
    SameBins(AddBins(a.negative, map[]), a.negative);
    SameBins(AddBins(map[], a.negative), a.negative);
  }

  // ----- the 64-bit counters and the bounded stores -----

  predicate Positive(bins: map<int, int>) { forall i | i in bins :: bins[i] > 0 }

  predicate WellFormed(s: Sketch) {
    && Positive(s.positive) && Positive(s.negative) && s.zeroCount >= 0 && s.count >= 0
    && (s.count == 0 ==> s == Empty()) && (s.count > 0 ==> s.extrema.Some?)
  }

  predicate BinsFit(bins: map<int, int>) {
    |bins| <= MAX_BINS && forall i | i in bins :: bins[i] <= MAX_INT64
  }

  predicate Fits(s: Sketch) {
    && BinsFit(s.positive) && BinsFit(s.negative)
    && s.zeroCount <= MAX_INT64 && s.count <= MAX_UINT64
  }

  lemma BinsFitDown(a: map<int, int>, b: map<int, int>)
    requires Positive(a) && Positive(b) && BinsFit(AddBins(a, b))
    ensures BinsFit(a)
  {
    SubsetCardinality(a.Keys, AddBins(a, b).Keys);
    forall i | i in a ensures a[i] <= MAX_INT64 { assert AddBins(a, b)[i] == a[i] + Get(b, i); }
  }

  /** Nothing that fits becomes representable only after more is merged in. */
  lemma {:induction false} FitsDown(a: Sketch, b: Sketch)
    requires WellFormed(a) && WellFormed(b) && Fits(Combine(a, b))
    ensures Fits(a) && Fits(b)
  {
    BinsFitDown(a.positive, b.positive);
    BinsFitDown(a.negative, b.negative);
    CombineCommutes(a, b);
    BinsFitDown(b.positive, a.positive);
    BinsFitDown(b.negative, a.negative);
  }

  lemma CombineWellFormed(a: Sketch, b: Sketch)
    requires WellFormed(a) && WellFormed(b)
    ensures WellFormed(Combine(a, b))
  {
    CombineEmpty(a);
    CombineEmpty(b);
  }

  // ----- sketches of sample sequences -----

  predicate ValidSamples(ss: seq<Sample>) { forall s | s in ss :: s.weight > 0 }

  function OfSamples(bucket: Bucketing, ss: seq<Sample>): Sketch
  {
    if ss == [] then Empty()
    else Combine(OfSamples(bucket, ss[..|ss| - 1]), Single(bucket, ss[|ss| - 1]))
  }

  lemma {:induction false} OfSamplesWellFormed(bucket: Bucketing, ss: seq<Sample>)
    requires ValidSamples(ss)
    ensures WellFormed(OfSamples(bucket, ss))
  {
    if ss != [] {
      OfSamplesWellFormed(bucket, ss[..|ss| - 1]);
      CombineWellFormed(OfSamples(bucket, ss[..|ss| - 1]), Single(bucket, ss[|ss| - 1]));
    }
  }

  /** Merging the sketches of two streams gives the sketch of the joined stream. */
  lemma {:induction false} MergeIsConcatenation(bucket: Bucketing, xs: seq<Sample>, ys: seq<Sample>)
    ensures OfSamples(bucket, xs + ys) == Combine(OfSamples(bucket, xs), OfSamples(bucket, ys))
  {
    if ys == [] {
      assert xs + ys == xs;
      CombineEmpty(OfSamples(bucket, xs));
    } else {
      var front, last := ys[..|ys| - 1], ys[|ys| - 1];
      assert (xs + ys)[..|xs + ys| - 1] == xs + front;
      MergeIsConcatenation(bucket, xs, front);
      CombineAssociates(OfSamples(bucket, xs), OfSamples(bucket, front), Single(bucket, last));
    }
  }

  /** The sketch of a stream does not depend on the order of its samples. */
  lemma {:induction false} OrderIsIrrelevant(bucket: Bucketing, xs: seq<Sample>, ys: seq<Sample>)
    requires multiset(xs) == multiset(ys)
    ensures OfSamples(bucket, xs) == OfSamples(bucket, ys)
    decreases |xs|
  {
    if xs == [] {
      assert |ys| == |multiset(ys)| == 0;
    } else {
      var front, last := xs[..|xs| - 1], xs[|xs| - 1];
      var a, b := SplitAtLast(xs, ys);
      OrderIsIrrelevant(bucket, front, a + b);
      MoveToEnd(bucket, a, last, b);
    }
  }

  lemma {:induction false} MoveToEnd(bucket: Bucketing, a: seq<Sample>, x: Sample, b: seq<Sample>)
    ensures OfSamples(bucket, a + ([x] + b)) == OfSamples(bucket, (a + b) + [x])
  {
    var sa, sx, sb := OfSamples(bucket, a), OfSamples(bucket, [x]), OfSamples(bucket, b);
    MergeIsConcatenation(bucket, a, [x] + b);
    MergeIsConcatenation(bucket, [x], b);
    MergeIsConcatenation(bucket, a + b, [x]);
    MergeIsConcatenation(bucket, a, b);
    CombineCommutes(sx, sb);
    CombineAssociates(sa, sb, sx);
  }

  // ----- what the counters of a sketch mean -----

  /** Total weight of the samples whose value lies in vs. */
  ghost function Weight(ss: seq<Sample>, vs: iset<real>): int {
    if ss == [] then 0
    else Weight(ss[..|ss| - 1], vs) + if ss[|ss| - 1].value in vs then ss[|ss| - 1].weight else 0
  }

  ghost function TotalWeight(ss: seq<Sample>): int {
    if ss == [] then 0 else TotalWeight(ss[..|ss| - 1]) + ss[|ss| - 1].weight
  }

  ghost function InBucket(bucket: Bucketing, b: Bucket): iset<real> {
    iset v: real | bucket(v) == b
  }

  ghost function InBuckets(bucket: Bucketing, bs: set<Bucket>): iset<real> {
    iset v: real | bucket(v) in bs
  }

  lemma CountersAdd(x: Sketch, y: Sketch, b: Bucket)
    ensures BinCount(Combine(x, y), b) == BinCount(x, b) + BinCount(y, b)
  {
  }

  lemma SingleCounter(bucket: Bucketing, s: Sample, b: Bucket)
    ensures BinCount(Single(bucket, s), b) == if bucket(s.value) == b then s.weight else 0
  {
  }

  /** Every counter is the weight of the samples its bucket covers. */
  lemma {:induction false} CountersMeanWeights(bucket: Bucketing, ss: seq<Sample>, b: Bucket)
    ensures BinCount(OfSamples(bucket, ss), b) == Weight(ss, InBucket(bucket, b))
    ensures OfSamples(bucket, ss).count == TotalWeight(ss)
  {
    if ss != [] {
      var front, last := ss[..|ss| - 1], ss[|ss| - 1];
      CountersMeanWeights(bucket, front, b);
      CountersAdd(OfSamples(bucket, front), Single(bucket, last), b);
      SingleCounter(bucket, last, b);
    }
  }

  lemma CountersAreNatural(s: Sketch, b: Bucket)
    requires WellFormed(s)
    ensures BinCount(s, b) >= 0
  {
  }

  lemma {:induction false} SampleIsCounted(bucket: Bucketing, ss: seq<Sample>, s: Sample)
    requires ValidSamples(ss) && s in ss
    ensures BinCount(OfSamples(bucket, ss), bucket(s.value)) > 0
  {
    hide BinCount, Combine, Single, WellFormed;
    var front, last := ss[..|ss| - 1], ss[|ss| - 1];
    var b := bucket(s.value);
    assert ss == front + [last];
    OfSamplesWellFormed(bucket, front);
    CountersAreNatural(OfSamples(bucket, front), b);
    CountersAdd(OfSamples(bucket, front), Single(bucket, last), b);
    SingleCounter(bucket, last, b);
    if s != last { SampleIsCounted(bucket, front, s); }
  }

  lemma {:induction false} SampleHasBin(bucket: Bucketing, ss: seq<Sample>, s: Sample)
    requires ValidSamples(ss) && s in ss
    ensures match bucket(s.value)
            case Neg(i) => i in OfSamples(bucket, ss).negative
            case Zero => OfSamples(bucket, ss).zeroCount > 0
            case Pos(i) => i in OfSamples(bucket, ss).positive
  {
    hide OfSamples;
    SampleIsCounted(bucket, ss, s);
  }

  lemma {:induction false} BinHasSample(bucket: Bucketing, ss: seq<Sample>, b: Bucket) returns (s: Sample)
    requires ValidSamples(ss)
    requires BinCount(OfSamples(bucket, ss), b) > 0
    ensures s in ss && bucket(s.value) == b
  {
    hide BinCount, Combine, Single;
    NothingCounted(bucket, b);
    var front, last := ss[..|ss| - 1], ss[|ss| - 1];
    CountersAdd(OfSamples(bucket, front), Single(bucket, last), b);
    SingleCounter(bucket, last, b);
    if bucket(last.value) == b {
      s := last;
    } else {
      s := BinHasSample(bucket, front, b);
    }
  }

  lemma NothingCounted(bucket: Bucketing, b: Bucket)
    ensures BinCount(OfSamples(bucket, []), b) == 0
  {
  }

  function PositiveIndices(bucket: Bucketing, ss: seq<Sample>): set<int> { set s | s in ss && bucket(s.value).Pos? :: bucket(s.value).index }

  function NegativeIndices(bucket: Bucketing, ss: seq<Sample>): set<int> { set s | s in ss && bucket(s.value).Neg? :: bucket(s.value).index }

  lemma {:induction false} StoresHaveIndices(bucket: Bucketing, ss: seq<Sample>)
    requires ValidSamples(ss)
    ensures OfSamples(bucket, ss).positive.Keys == PositiveIndices(bucket, ss)
    ensures OfSamples(bucket, ss).negative.Keys == NegativeIndices(bucket, ss)
  {
    hide OfSamples;
    var all := OfSamples(bucket, ss);
    OfSamplesWellFormed(bucket, ss);
    forall i | i in all.positive ensures i in PositiveIndices(bucket, ss) { var s := BinHasSample(bucket, ss, Pos(i)); }
    forall i | i in all.negative ensures i in NegativeIndices(bucket, ss) { var s := BinHasSample(bucket, ss, Neg(i)); }
    forall s | s in ss
      ensures bucket(s.value).Pos? ==> bucket(s.value).index in all.positive
      ensures bucket(s.value).Neg? ==> bucket(s.value).index in all.negative
    {
      SampleHasBin(bucket, ss, s);
    }
  }

  /** Samples are within the limits of a sketch exactly when each sign has at most 1024 buckets,
      no bucket's weight exceeds a signed 64-bit counter, nor all weight an unsigned one. */
  lemma {:induction false} FitsMeans(bucket: Bucketing, ss: seq<Sample>)
    requires ValidSamples(ss)
    ensures Fits(OfSamples(bucket, ss)) <==>
      && |set s | s in ss && bucket(s.value).Pos? :: bucket(s.value).index| <= 1024
      && |set s | s in ss && bucket(s.value).Neg? :: bucket(s.value).index| <= 1024
      && (forall b :: Weight(ss, InBucket(bucket, b)) <= 0x7fff_ffff_ffff_ffff) && TotalWeight(ss) <= 0xffff_ffff_ffff_ffff
  {
    hide OfSamples, Weight, TotalWeight;
    var all := OfSamples(bucket, ss);
    StoresHaveIndices(bucket, ss);
    OfSamplesWellFormed(bucket, ss);
    assert |all.positive.Keys| == |all.positive| && |all.negative.Keys| == |all.negative|;
    forall b ensures BinCount(all, b) == Weight(ss, InBucket(bucket, b)) && all.count == TotalWeight(ss) { CountersMeanWeights(bucket, ss, b); }
    CountersMeanWeights(bucket, ss, Zero);
    assert (forall b :: BinCount(all, b) <= MAX_INT64) <==> CountersFit(all) by { CountersFitMeans(all); }
  }

  predicate CountersFit(s: Sketch) {
    && (forall i | i in s.positive :: s.positive[i] <= MAX_INT64) && (forall i | i in s.negative :: s.negative[i] <= MAX_INT64)
    && s.zeroCount <= MAX_INT64
  }

  lemma CountersFitMeans(s: Sketch)
    ensures CountersFit(s) <==> forall b :: BinCount(s, b) <= MAX_INT64
  {
    if forall b :: BinCount(s, b) <= MAX_INT64 {
      forall i | i in s.positive ensures s.positive[i] <= MAX_INT64 { assert BinCount(s, Pos(i)) <= MAX_INT64; }
      forall i | i in s.negative ensures s.negative[i] <= MAX_INT64 { assert BinCount(s, Neg(i)) <= MAX_INT64; }
      assert BinCount(s, Zero) <= MAX_INT64;
    }
  }

  ghost predicate AreExtrema(ss: seq<Sample>, e: Extrema) {
    && (forall s | s in ss :: e.min <= s.value <= e.max)
    && (exists s | s in ss :: s.value == e.min)
    && (exists s | s in ss :: s.value == e.max)
  }

  lemma {:induction false} ExtendExtrema(ss: seq<Sample>, e: Extrema, last: Sample)
    requires AreExtrema(ss, e)
    ensures AreExtrema(ss + [last], Extrema(Min(e.min, last.value), Max(e.max, last.value)))
  {
    var all := ss + [last];
    var low :| low in ss && low.value == e.min;
    var high :| high in ss && high.value == e.max;
    assert low in all && high in all && last in all;
  }

  /** The extrema are attained and bound every sample. */
  lemma {:induction false} ExtremaAreExact(bucket: Bucketing, ss: seq<Sample>)
    requires ss != []
    ensures OfSamples(bucket, ss).extrema.Some?
    ensures AreExtrema(ss, OfSamples(bucket, ss).extrema.value)
  {
    var front, last := ss[..|ss| - 1], ss[|ss| - 1];
    assert ss == front + [last];
    var single := Single(bucket, last);
    assert single.extrema == Some(Extrema(last.value, last.value));
    if front == [] {
      assert last in ss;
    } else {
      ExtremaAreExact(bucket, front);
      ExtendExtrema(front, OfSamples(bucket, front).extrema.value, last);
    }
  }

  lemma {:induction false} WeightNonNegative(ss: seq<Sample>, vs: iset<real>)
    requires ValidSamples(ss)
    ensures Weight(ss, vs) >= 0
  {
    if ss != [] { WeightNonNegative(ss[..|ss| - 1], vs); }
  }

  lemma {:induction false} WeightUnion(ss: seq<Sample>, vs: iset<real>, ws: iset<real>)
    requires vs !! ws
    ensures Weight(ss, vs + ws) == Weight(ss, vs) + Weight(ss, ws)
  {
    if ss != [] { WeightUnion(ss[..|ss| - 1], vs, ws); }
  }

  lemma {:induction false} WeightMonotone(ss: seq<Sample>, vs: iset<real>, ws: iset<real>)
    requires ValidSamples(ss)
    requires forall s | s in ss && s.value in vs :: s.value in ws
    ensures Weight(ss, vs) <= Weight(ss, ws)
  {
    if ss != [] { WeightMonotone(ss[..|ss| - 1], vs, ws); }
  }

  /** Adding one more bucket to a walk adds that bucket's counter. */
  lemma {:induction false} WalkOneBucket(bucket: Bucketing, ss: seq<Sample>, bs: set<Bucket>, b: Bucket)
    requires b !in bs
    ensures Weight(ss, InBuckets(bucket, bs + {b}))
         == Weight(ss, InBuckets(bucket, bs)) + BinCount(OfSamples(bucket, ss), b)
  {
    assert InBuckets(bucket, bs + {b}) == InBuckets(bucket, bs) + InBucket(bucket, b);
    WeightUnion(ss, InBuckets(bucket, bs), InBucket(bucket, b));
    CountersMeanWeights(bucket, ss, b);
  }

  lemma {:induction false} WeightOfNone(ss: seq<Sample>, vs: iset<real>)
    requires forall s | s in ss :: s.value !in vs
    ensures Weight(ss, vs) == 0
  {
    if ss != [] { WeightOfNone(ss[..|ss| - 1], vs); }
  }

  lemma {:induction false} WeightOfAll(ss: seq<Sample>, vs: iset<real>)
    requires forall s | s in ss :: s.value in vs
    ensures Weight(ss, vs) == TotalWeight(ss)
  {
    if ss != [] { WeightOfAll(ss[..|ss| - 1], vs); }
  }

  lemma {:induction false} WeightAgrees(ss: seq<Sample>, vs: iset<real>, ws: iset<real>)
    requires ValidSamples(ss)
    requires forall s | s in ss :: s.value in vs <==> s.value in ws
    ensures Weight(ss, vs) == Weight(ss, ws)
  {
    WeightMonotone(ss, vs, ws);
    WeightMonotone(ss, ws, vs);
  }

  lemma {:induction false} WeightOfConcatenation(xs: seq<Sample>, ys: seq<Sample>, vs: iset<real>)
    ensures Weight(xs + ys, vs) == Weight(xs, vs) + Weight(ys, vs)
  {
    if ys == [] {
      assert xs + ys == xs;
    } else {
      assert (xs + ys)[..|xs + ys| - 1] == xs + ys[..|ys| - 1];
      WeightOfConcatenation(xs, ys[..|ys| - 1], vs);
    }
  }

  lemma {:induction false} WeightIgnoresOrder(xs: seq<Sample>, ys: seq<Sample>, vs: iset<real>)
    requires multiset(xs) == multiset(ys)
    ensures Weight(xs, vs) == Weight(ys, vs)
    decreases |xs|
  {
    if xs == [] {
      assert |ys| == |multiset(ys)| == 0;
    } else {
      var a, b := SplitAtLast(xs, ys);
      var last := [xs[|xs| - 1]];
      WeightIgnoresOrder(xs[..|xs| - 1], a + b, vs);
      WeightOfConcatenation(a, last + b, vs);
      WeightOfConcatenation(last, b, vs);
      WeightOfConcatenation(a, b, vs);
    }
  }
}
