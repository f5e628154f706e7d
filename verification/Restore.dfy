/** Saving a log as a document and restoring it: which documents are accepted, and that every
    log reached by counting and merging survives the trip. */
module Restore {
  import opened Prelude
  import opened Gamma
  import opened SketchAlgebra
  import opened QuantileSketch
  import opened StreamLogs
  import opened Documents
  import opened BucketStores
  import CountMin
  import Cardinality

  const MAX_CMS_CELLS := 1_000_000

  // The smallest and the largest positive double, exactly.
  function Tiny(): (t: real)
    ensures t > 0.0
  {
    Pow(2.0, -1074)
  }

  function Huge(): (h: real) { (2.0 - Pow(2.0, -52)) * Pow(2.0, 1023) }

  lemma TinyBelowHuge()
    ensures 0.0 < Tiny() <= Huge()
  {
    hide Pow;
    PowIncreases(2.0, -1074, 1023);
    PowIncreases(2.0, -52, 0);
    assert Pow(2.0, 0) == 1.0 by { PowZero(); }
    var p, h := Pow(2.0, -52), Pow(2.0, 1023);
    assert (2.0 - p) * h - h == (1.0 - p) * h;
  }

  lemma PowZero()
    ensures Pow(2.0, 0) == 1.0
  {
  }

  // ===== which states can be restored =====

  /** The bucket indices of the smallest and the largest double. */
  function LowIndex(alpha: real): int
    requires ValidAlpha(alpha)
  {
    Key(GammaOf(alpha), Tiny())
  }

  function HighIndex(alpha: real): int
    requires ValidAlpha(alpha)
  {
    TinyBelowHuge();
    Key(GammaOf(alpha), Huge())
  }

  predicate BinsInBounds(alpha: real, bins: map<int, int>)
    requires ValidAlpha(alpha)
  {
    && |bins| <= MAX_BINS
    && forall i | i in bins ::
      && 0 < bins[i] <= MAX_INT64
      && LowIndex(alpha) <= i <= HighIndex(alpha)
  }

  ghost predicate RestorableSketch(alpha: real, s: Sketch) {
    && ValidAlpha(alpha)
    && BinsInBounds(alpha, s.positive) && BinsInBounds(alpha, s.negative)
    && 0 <= s.zeroCount <= MAX_INT64 && 0 <= s.count <= MAX_UINT64
    && s.count == s.zeroCount + SumOf(s.positive) + SumOf(s.negative)
    && (s.count == 0 <==> s.extrema.None?)
    && (s.count > 0 ==> ExtremaMatch(alpha, s, s.extrema.value))
  }

  ghost predicate RestorableCounts(c: CountMin.Counts) {
    && c.width >= 1 && c.depth >= 1 && c.width <= MAX_CMS_CELLS / c.depth && |c.table| == c.depth * c.width
    && 0 <= c.total <= MAX_INT64
    && (forall i | 0 <= i < |c.table| :: 0 <= c.table[i] <= MAX_INT64)
    && (forall r | 0 <= r < c.depth :: CountMin.Sum(CountMin.Row(c, r)) == c.total)
  }

  ghost predicate RestorableRegisters(precision: int, registers: seq<int>) {
    && 4 <= precision <= 18 && |registers| == Cardinality.Pow2(precision)
    && forall i | 0 <= i < |registers| :: 0 <= registers[i] <= 64 - precision + 1
  }

  /** The conditions the restore checks, and the ones a new log of that configuration
      imposes. */
  ghost predicate Restorable(l: Log) {
    && l.config.alpha >= 0.000001 && RestorableSketch(l.config.alpha, l.latency)
    && RestorableCounts(l.events) && l.events.width == l.config.width && l.events.depth == l.config.depth
    && RestorableRegisters(l.config.precision, l.registers)
    && l.total == l.latency.count + l.events.total && 0 <= l.total <= MAX_UINT64
  }

  /** Finite observations are doubles: zero or of a magnitude doubles can have. */
  ghost predicate DoubleMagnitudes(ss: seq<Sample>) {
    forall s | s in ss && s.value != 0.0 :: Tiny() <= Abs(s.value) <= Huge()
  }

  lemma {:induction false} ReachableSketch(alpha: real, ss: seq<Sample>)
    requires ValidAlpha(alpha) && ValidSamples(ss) && DoubleMagnitudes(ss) && Fits(OfSamples(BucketOf(alpha), ss))
    ensures RestorableSketch(alpha, OfSamples(BucketOf(alpha), ss))
  {
    hide OfSamples, BucketOf, Key, Tiny, Huge, SumOf, ExtremaMatch;
    var s := OfSamples(BucketOf(alpha), ss);
    OfSamplesWellFormed(BucketOf(alpha), ss);
    BucketsAddUp(BucketOf(alpha), ss);
    TinyBelowHuge();
    IndicesInRange(alpha, ss, Tiny(), Huge());
    SumOfNone();
    if ss == [] { NoSamples(alpha); } else {
      ReachableExtremaMatch(alpha, ss);
      WeighsSomething(alpha, ss);
    }
  }

  lemma NoSamples(alpha: real)
    requires ValidAlpha(alpha)
    ensures OfSamples(BucketOf(alpha), []) == Empty()
  {
  }

  lemma {:induction false} WeighsSomething(alpha: real, ss: seq<Sample>)
    requires ValidAlpha(alpha) && ValidSamples(ss) && ss != []
    ensures OfSamples(BucketOf(alpha), ss).count > 0
  {
    OfSamplesWellFormed(BucketOf(alpha), ss[..|ss| - 1]);
  }

  /** Every log reached by counting and merging passes all checks. */
  lemma {:induction false} ReachableIsRestorable(c: Config, h: CountMin.Hash, es: seq<Event>)
    requires ValidConfig(c) && RunAccepts(c, h, es) && DoubleMagnitudes(SamplesOf(es))
    requires c.alpha >= 0.000001 && c.width <= MAX_CMS_CELLS / c.depth
    ensures Restorable(OfEvents(c, h, es))
  {
    hide RunAccepts, DoubleMagnitudes, OfSamples, BucketOf, RestorableSketch, CountMin.OfStream, Cardinality.OfHashes, Cardinality.Pow2, Fits;
    AcceptanceIsFinal(c, h, es);
    OfEventsWellFormed(c, h, es);
    var l := OfEvents(c, h, es);
    ReachableSketch(c.alpha, SamplesOf(es));
    forall i | 0 <= i < |l.registers| ensures 0 <= l.registers[i] <= 64 - c.precision + 1 {
      Cardinality.RegistersInRange(c.precision, HashesOf(es), i);
    }
    forall i | 0 <= i < |l.events.table| ensures 0 <= l.events.table[i] <= MAX_INT64 {
      CountMin.CellAtMostTotal(l.events, i);
    }
  }

  // ===== what a document says =====

  /** Some names of a dictionary of buckets, read into a store: every name stands for one
      index of the store, every index has a name, and no two names stand for the same one. */
  ghost predicate ReadInto(entries: map<Name, Value>, names: set<Name>, bins: map<int, int>) {
    && (forall n | n in names :: n in entries && Stands(n, entries[n], bins))
    && (forall i | i in bins :: exists n :: n in names && BucketIndex(n) == Some(i))
    && (forall m, n | m in names && n in names && BucketIndex(m) == BucketIndex(n) :: m == n)
  }

  ghost predicate Stands(n: Name, v: Value, bins: map<int, int>) {
    BucketIndex(n).Some? && BucketIndex(n).value in bins && v == Int(bins[BucketIndex(n).value])
  }

  ghost predicate DescribesBins(v: Option<Value>, bins: map<int, int>) {
    v.Some? && v.value.Dict? && ReadInto(v.value.entries, v.value.entries.Keys, bins)
  }

  /** A finite number, whole or not; whole numbers beyond all doubles do not convert. */
  function Number(v: Option<Value>): Option<real> {
    match v
    case Some(Num(r)) => Some(r)
    case Some(Int(i)) => if -Huge() <= i as real <= Huge() then Some(i as real) else None
    case _ => None
  }

  predicate Missing(v: Option<Value>) { v.None? || v.value.Null? }

  ghost predicate DescribesSketch(v: Option<Value>, alpha: real, s: Sketch) {
    && v.Some? && v.value.Dict? && Field(v.value, "alpha") == Some(Num(alpha))
    && Field(v.value, "zero_count") == Some(Int(s.zeroCount)) && Field(v.value, "count") == Some(Int(s.count))
    && DescribesBins(Field(v.value, "positive"), s.positive) && DescribesBins(Field(v.value, "negative"), s.negative)
    && (s.extrema.None? ==> Missing(Field(v.value, "min")) && Missing(Field(v.value, "max")))
    && (s.extrema.Some? ==> Number(Field(v.value, "min")) == Some(s.extrema.value.min))
    && (s.extrema.Some? ==> Number(Field(v.value, "max")) == Some(s.extrema.value.max))
  }

  ghost predicate DescribesRegisters(v: Option<Value>, precision: int, registers: seq<int>) {
    && v.Some? && Field(v.value, "precision") == Some(Int(precision))
    && Field(v.value, "registers") == Some(List(Ints(registers)))
  }

  ghost predicate DescribesCounts(v: Option<Value>, c: CountMin.Counts) {
    && v.Some? && Field(v.value, "width") == Some(Int(c.width)) && Field(v.value, "depth") == Some(Int(c.depth))
    && Field(v.value, "total") == Some(Int(c.total)) && |c.table| == c.depth * c.width
    && DescribesRows(Field(v.value, "table"), c)
  }

  ghost predicate DescribesRows(v: Option<Value>, c: CountMin.Counts)
    requires |c.table| == c.depth * c.width
  {
    && v.Some? && v.value.List? && |v.value.items| == c.depth
    && forall r | 0 <= r < c.depth :: v.value.items[r] == List(Ints(CountMin.Row(c, r)))
  }

  /** What the restore reads out of a document; everything else in it is ignored. */
  ghost predicate Describes(doc: Value, l: Log, deterministic: bool) {
    && Field(doc, "version") == Some(Int(1)) && Field(doc, "total") == Some(Int(l.total))
    && (Field(doc, "deterministic") == Some(Bool(deterministic)) || (Field(doc, "deterministic").None? && !deterministic))
    && DescribesSketch(Field(doc, "latency"), l.config.alpha, l.latency)
    && DescribesRegisters(Field(doc, "uniques"), l.config.precision, l.registers)
    && DescribesCounts(Field(doc, "events"), l.events)
    && l.events.width == l.config.width && l.events.depth == l.config.depth
  }

  lemma BinsAreDetermined(v: Option<Value>, a: map<int, int>, b: map<int, int>)
    requires DescribesBins(v, a) && DescribesBins(v, b)
    ensures a == b
  {
    forall i | i in a ensures i in b && a[i] == b[i] {
      var n :| n in v.value.entries.Keys && BucketIndex(n) == Some(i);
      assert Stands(n, v.value.entries[n], a) && Stands(n, v.value.entries[n], b);
    }
    forall i | i in b ensures i in a {
      var n :| n in v.value.entries.Keys && BucketIndex(n) == Some(i);
      assert Stands(n, v.value.entries[n], a);
    }
  }

  lemma SameRowsSameTable(a: CountMin.Counts, b: CountMin.Counts)
    requires a.width == b.width && a.depth == b.depth && a.width > 0
    requires |a.table| == |b.table| == a.depth * a.width
    requires forall r | 0 <= r < a.depth :: CountMin.Row(a, r) == CountMin.Row(b, r)
    ensures a.table == b.table
  {
    forall i | 0 <= i < |a.table| ensures a.table[i] == b.table[i] {
      CountMin.RowOf(a.width, a.depth, i);
      var r, c := i / a.width, i % a.width;
      hide CountMin.Row;
      InRow(a, r, c);
      InRow(b, r, c);
    }
  }

  lemma InRow(a: CountMin.Counts, r: nat, c: nat)
    requires |a.table| == a.depth * a.width && r < a.depth && c < a.width
    ensures |CountMin.Row(a, r)| == a.width && 0 <= r * a.width + c < |a.table|
    ensures CountMin.Row(a, r)[c] == a.table[r * a.width + c]
  {
    CountMin.InRange(a.width, a.depth, r, c);
  }

  lemma TablesAreDetermined(v: Option<Value>, a: CountMin.Counts, b: CountMin.Counts)
    requires DescribesCounts(v, a) && DescribesCounts(v, b) && a.width > 0
    ensures a == b
  {
    hide CountMin.Row, Ints;
    forall r | 0 <= r < a.depth ensures CountMin.Row(a, r) == CountMin.Row(b, r) {
      IntsAreInjective(CountMin.Row(a, r), CountMin.Row(b, r));
    }
    SameRowsSameTable(a, b);
  }

  /** A document describes at most one log. */
  lemma {:induction false} DescriptionIsDetermined(doc: Value, k: Log, l: Log, d: bool, e: bool)
    requires Describes(doc, k, d) && Describes(doc, l, e) && k.config.width > 0
    ensures k == l && d == e
  {
    hide DescribesBins, DescribesRows, Ints;
    BinsAreDetermined(Field(Field(doc, "latency").value, "positive"), k.latency.positive, l.latency.positive);
    BinsAreDetermined(Field(Field(doc, "latency").value, "negative"), k.latency.negative, l.latency.negative);
    TablesAreDetermined(Field(doc, "events"), k.events, l.events);
    IntsAreInjective(k.registers, l.registers);
  }

  // ===== saving =====

  function BinName(i: int, asText: bool): Name { if asText then Text(Decimal(i)) else Index(i) }

  lemma NamesAreDistinct()
    ensures forall i, j, asText | BinName(i, asText) == BinName(j, asText) :: i == j
  {
    forall i, j, asText | BinName(i, asText) == BinName(j, asText) ensures i == j {
      BinNameReads(i, asText);
      BinNameReads(j, asText);
    }
  }

  lemma BinNameReads(i: int, asText: bool)
    ensures BucketIndex(BinName(i, asText)) == Some(i)
  {
    hide CanonicalInt, Decimal;
    CanonicalTextOnly(Decimal(i), i);
  }

  function SavedBins(bins: map<int, int>, asText: bool): Value {
    NamesAreDistinct();
    Dict(map i | i in bins :: BinName(i, asText) := Int(bins[i]))
  }

  function SavedRows(c: CountMin.Counts): Value
    requires |c.table| == c.depth * c.width
  {
    List(seq(c.depth, r requires 0 <= r < c.depth => List(Ints(CountMin.Row(c, r)))))
  }

  function SavedSketch(alpha: real, s: Sketch, asText: bool): Value {
    var e := s.extrema;
    Dict(map[
      Text("alpha") := Num(alpha),
      Text("positive") := SavedBins(s.positive, asText),
      Text("negative") := SavedBins(s.negative, asText),
      Text("zero_count") := Int(s.zeroCount),
      Text("count") := Int(s.count),
      Text("min") := if e.Some? then Num(e.value.min) else Null,
      Text("max") := if e.Some? then Num(e.value.max) else Null])
  }

  function SavedRegisters(precision: int, registers: seq<int>): Value {
    Dict(map[Text("precision") := Int(precision), Text("registers") := List(Ints(registers))])
  }

  function SavedCounts(c: CountMin.Counts): Value
    requires |c.table| == c.depth * c.width
  {
    Dict(map[
      Text("width") := Int(c.width),
      Text("depth") := Int(c.depth),
      Text("table") := SavedRows(c),
      Text("total") := Int(c.total)])
  }

  /** The document of a log. Bucket keys are integers, or decimal text once the document has
      been through JSON. */
  function ToDict(l: Log, deterministic: bool, asText: bool): Value
    requires |l.events.table| == l.events.depth * l.events.width
  {
    Dict(map[
      Text("version") := Int(1),
      Text("total") := Int(l.total),
      Text("deterministic") := Bool(deterministic),
      Text("latency") := SavedSketch(l.config.alpha, l.latency, asText),
      Text("uniques") := SavedRegisters(l.config.precision, l.registers),
      Text("events") := SavedCounts(l.events)])
  }

  lemma SavedBinsDescribe(bins: map<int, int>, asText: bool)
    ensures DescribesBins(Some(SavedBins(bins, asText)), bins)
  {
    hide BinName, BucketIndex;
    var entries := SavedBins(bins, asText).entries;
    forall i ensures BucketIndex(BinName(i, asText)) == Some(i) { BinNameReads(i, asText); }
    forall n | n in entries ensures Stands(n, entries[n], bins) && n == BinName(BucketIndex(n).value, asText) {
      var i :| i in bins && n == BinName(i, asText);
    }
    forall i | i in bins ensures exists n :: n in entries && BucketIndex(n) == Some(i) {
      assert BinName(i, asText) in entries;
    }
  }

  lemma FieldNamesDiffer()
    ensures "alpha" != "count" && "positive" != "negative" && "min" != "max"
  {
    assert "alpha"[0] != "count"[0] && "positive"[0] != "negative"[0] && "min"[1] != "max"[1];
  }

  lemma SavedSketchFields(alpha: real, s: Sketch, asText: bool)
    ensures var v := SavedSketch(alpha, s, asText);
      && Field(v, "alpha") == Some(Num(alpha))
      && Field(v, "positive") == Some(SavedBins(s.positive, asText))
      && Field(v, "negative") == Some(SavedBins(s.negative, asText))
      && Field(v, "zero_count") == Some(Int(s.zeroCount)) && Field(v, "count") == Some(Int(s.count))
      && Field(v, "min") == Some(if s.extrema.Some? then Num(s.extrema.value.min) else Null)
      && Field(v, "max") == Some(if s.extrema.Some? then Num(s.extrema.value.max) else Null)
  {
    hide SavedBins;
    FieldNamesDiffer();
    assert |"alpha"| == 5 && |"positive"| == 8 && |"min"| == 3 && |"zero_count"| == 10;
  }

  lemma SavedSketchDescribes(alpha: real, s: Sketch, asText: bool)
    ensures DescribesSketch(Some(SavedSketch(alpha, s, asText)), alpha, s)
  {
    hide DescribesBins, SavedBins, Field;
    SavedSketchFields(alpha, s, asText);
    SavedBinsDescribe(s.positive, asText);
    SavedBinsDescribe(s.negative, asText);
  }

  lemma SavedCountsDescribe(c: CountMin.Counts)
    requires |c.table| == c.depth * c.width
    ensures DescribesCounts(Some(SavedCounts(c)), c)
  {
    hide Ints, CountMin.Row;
  }

  /** A saved document describes the log it was made of. */
  lemma {:induction false} SavedDescribes(l: Log, deterministic: bool, asText: bool)
    requires |l.events.table| == l.events.depth * l.events.width
    requires l.events.width == l.config.width && l.events.depth == l.config.depth
    ensures Describes(ToDict(l, deterministic, asText), l, deterministic)
  {
    hide DescribesSketch, DescribesCounts, SavedSketch, SavedCounts, Ints;
    SavedSketchDescribes(l.config.alpha, l.latency, asText);
    SavedCountsDescribe(l.events);
  }

  // ===== restoring =====

  predicate InBounds(alpha: real, i: int, n: int)
    requires ValidAlpha(alpha)
  {
    0 < n <= MAX_INT64 && LowIndex(alpha) <= i <= HighIndex(alpha)
  }

  /** No store that fits the bounds is described. */
  ghost predicate NoBins(v: Option<Value>, alpha: real)
    requires ValidAlpha(alpha)
  {
    forall bins | DescribesBins(v, bins) :: !BinsInBounds(alpha, bins)
  }

  lemma BadEntry(v: Option<Value>, alpha: real, n: Name)
    requires ValidAlpha(alpha) && v.Some? && v.value.Dict? && n in v.value.entries
    requires BucketIndex(n).None? || !v.value.entries[n].Int? || !InBounds(alpha, BucketIndex(n).value, v.value.entries[n].whole)
    ensures NoBins(v, alpha)
  {
    hide BucketIndex, LowIndex, HighIndex;
    forall bins | DescribesBins(v, bins) ensures !BinsInBounds(alpha, bins) {
      assert Stands(n, v.value.entries[n], bins);
    }
  }

  lemma SameIndexTwice(v: Option<Value>, alpha: real, m: Name, n: Name)
    requires ValidAlpha(alpha) && v.Some? && v.value.Dict? && m in v.value.entries && n in v.value.entries
    requires m != n && BucketIndex(m) == BucketIndex(n)
    ensures NoBins(v, alpha)
  {
    hide BucketIndex, LowIndex, HighIndex;
  }

  lemma ReadOneMore(entries: map<Name, Value>, names: set<Name>, bins: map<int, int>, n: Name)
    requires ReadInto(entries, names, bins) && n in entries && n !in names
    requires BucketIndex(n).Some? && BucketIndex(n).value !in bins && entries[n].Int?
    ensures ReadInto(entries, names + {n}, bins[BucketIndex(n).value := entries[n].whole])
  {
    hide BucketIndex;
    var i := BucketIndex(n).value;
    var more := bins[i := entries[n].whole];
    forall m | m in names ensures Stands(m, entries[m], more) && BucketIndex(m) != Some(i) {
      assert Stands(m, entries[m], bins);
    }
    forall j | j in more ensures exists m :: m in names + {n} && BucketIndex(m) == Some(j) {
      if j != i {
        var m :| m in names && BucketIndex(m) == Some(j);
        assert m in names + {n};
      } else {
        assert n in names + {n};
      }
    }
  }

  lemma SumGrows(bins: map<int, int>, i: int, n: int)
    requires i !in bins
    ensures SumOf(bins[i := n]) == SumOf(bins) + n
  {
    SumOfOne(i, n);
    SumOfAdds(bins, map[i := n]);
    SameBins(AddBins(bins, map[i := n]), bins[i := n]);
  }

  datatype Store = Store(bins: map<int, int>, sum: int)

  /** Reads a dictionary of buckets: canonical distinct indices, positive 64-bit counts,
      indices a double can have, and no more buckets than a store holds. */
  method ReadBins(v: Option<Value>, alpha: real) returns (r: Option<Store>)
    requires ValidAlpha(alpha)
    ensures r.Some? ==> DescribesBins(v, r.value.bins) && BinsInBounds(alpha, r.value.bins) && r.value.sum == SumOf(r.value.bins)
    ensures r.None? ==> NoBins(v, alpha)
  {
    hide BucketIndex, LowIndex, HighIndex, SumOf, ReadInto, NoBins;
    if v.None? || !v.value.Dict? {
      NoDictionary(v, alpha);
      return None;
    }
    var entries := v.value.entries;
    var todo := entries.Keys;
    var bins, sum := map[], 0;
    SumOfNone();
    NothingRead(entries);
    while todo != {}
      invariant todo <= entries.Keys
      invariant ReadInto(entries, entries.Keys - todo, bins)
      invariant forall i | i in bins :: InBounds(alpha, i, bins[i])
      invariant sum == SumOf(bins)
    {
      ghost var some := Pick(todo);
      var n :| n in todo;
      var i := BucketIndex(n);
      if i.None? || !entries[n].Int? || !InBounds(alpha, i.value, entries[n].whole) {
        BadEntry(v, alpha, n);
        return None;
      }
      if i.value in bins {
        ghost var m := ReadFrom(entries, entries.Keys - todo, bins, i.value);
        SameIndexTwice(v, alpha, m, n);
        return None;
      }
      ReadOneMore(entries, entries.Keys - todo, bins, n);
      SumGrows(bins, i.value, entries[n].whole);
      assert entries.Keys - todo + {n} == entries.Keys - (todo - {n});
      bins, sum, todo := bins[i.value := entries[n].whole], sum + entries[n].whole, todo - {n};
    }
    assert entries.Keys - todo == entries.Keys;
    if |bins| > MAX_BINS {
      TooManyBins(v, alpha, bins);
      return None;
    }
    r := Some(Store(bins, sum));
  }

  lemma NoDictionary(v: Option<Value>, alpha: real)
    requires ValidAlpha(alpha) && (v.None? || !v.value.Dict?)
    ensures NoBins(v, alpha)
  {
  }

  lemma NothingRead(entries: map<Name, Value>)
    ensures ReadInto(entries, entries.Keys - entries.Keys, map[])
  {
  }

  lemma ReadFrom(entries: map<Name, Value>, names: set<Name>, bins: map<int, int>, i: int) returns (n: Name)
    requires ReadInto(entries, names, bins) && i in bins
    ensures n in names && n in entries && BucketIndex(n) == Some(i)
  {
    hide BucketIndex;
    n :| n in names && BucketIndex(n) == Some(i);
  }

  lemma TooManyBins(v: Option<Value>, alpha: real, bins: map<int, int>)
    requires ValidAlpha(alpha) && DescribesBins(v, bins) && |bins| > MAX_BINS
    ensures NoBins(v, alpha)
  {
    hide DescribesBins, LowIndex, HighIndex;
    forall other | DescribesBins(v, other) ensures !BinsInBounds(alpha, other) {
      BinsAreDetermined(v, bins, other);
    }
  }

  /** The greatest and the least index of a store. */
  method Extremes(bins: map<int, int>) returns (least: int, greatest: int)
    requires bins != map[]
    ensures IsLeast(bins, least) && IsGreatest(bins, greatest)
  {
    ghost var some := Pick(bins.Keys);
    var todo := bins.Keys;
    var first :| first in todo;
    least, greatest := first, first;
    while todo != {}
      invariant todo <= bins.Keys && least in bins && greatest in bins
      invariant forall i | i in bins && i !in todo :: least <= i <= greatest
    {
      ghost var one := Pick(todo);
      var i :| i in todo;
      if i < least { least := i; }
      if greatest < i { greatest := i; }
      todo := todo - {i};
    }
  }

  lemma OneGreatest(bins: map<int, int>, greatest: int, least: int)
    requires IsGreatest(bins, greatest) && IsLeast(bins, least)
    ensures forall k :: IsGreatest(bins, k) <==> k == greatest
    ensures forall k :: IsLeast(bins, k) <==> k == least
  {
  }

  method ExtremaAgree(alpha: real, s: Sketch, e: Extrema) returns (agree: bool)
    requires ValidAlpha(alpha) && s.zeroCount >= 0
    ensures agree <==> ExtremaMatch(alpha, s, e)
  {
    hide Key, IsGreatest, IsLeast;
    var g := GammaOf(alpha);
    if e.min > e.max { return false; }
    if s.positive != map[] {
      if e.max <= 0.0 { return false; }
      var least, greatest := Extremes(s.positive);
      OneGreatest(s.positive, greatest, least);
      if Key(g, e.max) != greatest { return false; }
      if e.min > 0.0 && Key(g, e.min) != least { return false; }
    }
    if s.negative != map[] {
      if e.min >= 0.0 { return false; }
      var least, greatest := Extremes(s.negative);
      OneGreatest(s.negative, greatest, least);
      if Key(g, -e.min) != greatest { return false; }
      if e.max < 0.0 && Key(g, -e.max) != least { return false; }
    }
    if s.zeroCount > 0 && (e.min > 0.0 || e.max < 0.0) { return false; }
    if s.positive == map[] && e.max > 0.0 { return false; }
    if s.negative == map[] && e.min < 0.0 { return false; }
    if e.max == 0.0 && s.zeroCount == 0 { return false; }
    if e.min == 0.0 && s.zeroCount == 0 { return false; }
    agree := true;
  }

  method ReadWhole(v: Option<Value>, low: int, high: int) returns (n: Option<int>)
    ensures n.Some? <==> v.Some? && v.value.Int? && low <= v.value.whole <= high
    ensures n.Some? ==> v == Some(Int(n.value)) && low <= n.value <= high
  {
    n := if v.Some? && v.value.Int? && low <= v.value.whole <= high then Some(v.value.whole) else None;
  }

  datatype Reading = Reading(alpha: real, sketch: Sketch)

  ghost predicate NoSketch(v: Option<Value>) {
    forall alpha, s | DescribesSketch(v, alpha, s) :: !RestorableSketch(alpha, s)
  }

  /** Reads the quantile sketch. */
  method ReadSketch(v: Option<Value>) returns (r: Option<Reading>)
    ensures r.Some? ==> DescribesSketch(v, r.value.alpha, r.value.sketch) && RestorableSketch(r.value.alpha, r.value.sketch)
    ensures r.None? ==> NoSketch(v)
  {
    hide DescribesBins, BinsInBounds, ExtremaMatch, Key, SumOf, Huge;
    if v.None? || !v.value.Dict? { return None; }
    var alpha := Field(v.value, "alpha");
    if alpha.None? || !alpha.value.Num? || !(0.0 < alpha.value.num < 1.0) { return None; }
    var a := alpha.value.num;
    var zeroCount := ReadWhole(Field(v.value, "zero_count"), 0, MAX_INT64);
    if zeroCount.None? { return None; }
    var count := ReadWhole(Field(v.value, "count"), 0, MAX_UINT64);
    if count.None? { return None; }
    var positive := ReadBins(Field(v.value, "positive"), a);
    if positive.None? { return None; }
    var negative := ReadBins(Field(v.value, "negative"), a);
    if negative.None? { return None; }
    ghost var pv, nv := Field(v.value, "positive"), Field(v.value, "negative");
    forall p, n | DescribesBins(pv, p) && DescribesBins(nv, n) ensures p == positive.value.bins && n == negative.value.bins {
      BinsAreDetermined(pv, p, positive.value.bins);
      BinsAreDetermined(nv, n, negative.value.bins);
    }
    if count.value != zeroCount.value + positive.value.sum + negative.value.sum { return None; }
    var min, max := Field(v.value, "min"), Field(v.value, "max");
    var s := Sketch(positive.value.bins, negative.value.bins, zeroCount.value, count.value, None);
    if count.value > 0 {
      if Number(min).None? || Number(max).None? { return None; }
      var e := Extrema(Number(min).value, Number(max).value);
      s := s.(extrema := Some(e));
      var agree := ExtremaAgree(a, s, e);
      if !agree { return None; }
    } else if !Missing(min) || !Missing(max) {
      return None;
    }
    r := Some(Reading(a, s));
  }

  ghost predicate NoRegisters(v: Option<Value>) {
    forall precision, registers | DescribesRegisters(v, precision, registers) :: !RestorableRegisters(precision, registers)
  }

  datatype Registers = Registers(precision: nat, values: seq<int>)

  /** Reads the registers: as many as the precision says, each within its bound. */
  method ReadRegisters(v: Option<Value>) returns (r: Option<Registers>)
    ensures r.Some? ==> DescribesRegisters(v, r.value.precision, r.value.values)
    ensures r.Some? ==> RestorableRegisters(r.value.precision, r.value.values)
    ensures r.None? ==> NoRegisters(v)
  {
    hide Cardinality.Pow2, Ints;
    if v.None? || !v.value.Dict? { return None; }
    var p := ReadWhole(Field(v.value, "precision"), 4, 18);
    if p.None? { return None; }
    var list := Field(v.value, "registers");
    if list.None? { return None; }
    var values := ReadInts(list.value);
    if values.None? {
      NotInts(list.value);
      return None;
    }
    OneReading(list.value, values.value);
    if |values.value| != Cardinality.Pow2(p.value) { return None; }
    for i := 0 to |values.value|
      invariant forall j | 0 <= j < i :: 0 <= values.value[j] <= 64 - p.value + 1
    {
      if values.value[i] < 0 || values.value[i] > 64 - p.value + 1 { return None; }
    }
    r := Some(Registers(p.value, values.value));
  }

  lemma NotInts(v: Value)
    requires !OnlyInts(v)
    ensures forall s :: v != List(Ints(s))
  {
  }

  lemma {:induction false} OneReading(v: Value, s: seq<int>)
    requires v == List(Ints(s))
    ensures forall t | v == List(Ints(t)) :: t == s
  {
    forall t | v == List(Ints(t)) ensures t == s { IntsAreInjective(s, t); }
  }

  ghost predicate NoCounts(v: Option<Value>) {
    forall c | DescribesCounts(v, c) :: !RestorableCounts(c)
  }

  /** Rows read so far, laid out one after the other. */
  ghost predicate RowsRead(items: seq<Value>, width: nat, total: int, n: nat, flat: seq<int>) {
    && n <= |items| && |flat| == n * width
    && (forall i | 0 <= i < |flat| :: 0 <= flat[i] <= MAX_INT64)
    && forall r | 0 <= r < n :: RowRead(items[r], width, total, flat, r)
  }

  ghost predicate RowRead(v: Value, width: nat, total: int, flat: seq<int>, r: nat) {
    && 0 <= r * width <= r * width + width <= |flat|
    && v == List(Ints(flat[r * width..r * width + width]))
    && CountMin.Sum(flat[r * width..r * width + width]) == total
  }

  lemma {:induction false} RowAdded(items: seq<Value>, width: nat, total: int, n: nat, flat: seq<int>, row: seq<int>)
    requires RowsRead(items, width, total, n, flat) && n < |items|
    requires |row| == width && items[n] == List(Ints(row)) && CountMin.Sum(row) == total
    requires forall i | 0 <= i < |row| :: 0 <= row[i] <= MAX_INT64
    ensures RowsRead(items, width, total, n + 1, flat + row)
  {
    hide Ints, CountMin.Sum;
    assert (n + 1) * width == n * width + width;
    assert (flat + row)[n * width..n * width + width] == row;
    forall r | 0 <= r < n ensures RowRead(items[r], width, total, flat + row, r) {
      assert RowRead(items[r], width, total, flat, r);
      assert (flat + row)[r * width..r * width + width] == flat[r * width..r * width + width];
    }
  }

  lemma {:induction false} NoRowsRead(items: seq<Value>, width: nat, total: int)
    ensures RowsRead(items, width, total, 0, [])
  {
  }

  lemma {:induction false} RowsMakeTable(items: seq<Value>, c: CountMin.Counts)
    requires |items| == c.depth && RowsRead(items, c.width, c.total, c.depth, c.table)
    ensures |c.table| == c.depth * c.width && DescribesRows(Some(List(items)), c)
    ensures forall r | 0 <= r < c.depth :: CountMin.Sum(CountMin.Row(c, r)) == c.total
  {
    hide Ints, CountMin.Sum;
    forall r | 0 <= r < c.depth
      ensures items[r] == List(Ints(CountMin.Row(c, r))) && CountMin.Sum(CountMin.Row(c, r)) == c.total
    {
      assert RowRead(items[r], c.width, c.total, c.table, r);
    }
  }

  /** A row that is not a list of the width, holds a cell that is no counter or does not sum
      to the total is no row of any restorable table. */
  lemma {:induction false} BadRow(v: Option<Value>, items: seq<Value>, width: int, depth: int, total: int, r: nat)
    requires v.Some? && Field(v.value, "table") == Some(List(items)) && |items| == depth && r < depth
    requires Field(v.value, "width") == Some(Int(width)) && Field(v.value, "depth") == Some(Int(depth))
    requires Field(v.value, "total") == Some(Int(total))
    requires forall row | items[r] == List(Ints(row)) :: !GoodRow(row, width, total)
    ensures NoCounts(v)
  {
    hide Ints, CountMin.Sum, CountMin.Row;
    forall c | DescribesCounts(v, c) ensures !RestorableCounts(c) {
      if RestorableCounts(c) {
        RowIsGood(c, r);
      }
    }
  }

  predicate GoodRow(row: seq<int>, width: int, total: int) {
    |row| == width && CountMin.Sum(row) == total && forall i | 0 <= i < |row| :: 0 <= row[i] <= MAX_INT64
  }

  lemma RowIsGood(c: CountMin.Counts, r: nat)
    requires RestorableCounts(c) && r < c.depth
    ensures GoodRow(CountMin.Row(c, r), c.width, c.total)
  {
    CountMin.RowBounds(c, r);
  }

  method ReadRow(v: Value, width: nat, total: int) returns (row: Option<seq<int>>)
    ensures row.Some? ==> v == List(Ints(row.value)) && GoodRow(row.value, width, total)
    ensures row.None? ==> forall s | v == List(Ints(s)) :: !GoodRow(s, width, total)
  {
    hide Ints;
    row := ReadInts(v);
    if row.None? {
      NotInts(v);
      return;
    }
    OneReading(v, row.value);
    var sum := 0;
    if |row.value| != width { return None; }
    for i := 0 to |row.value|
      invariant forall j | 0 <= j < i :: 0 <= row.value[j] <= MAX_INT64
      invariant sum == CountMin.Sum(row.value[..i])
    {
      if row.value[i] < 0 || row.value[i] > MAX_INT64 { return None; }
      sum := sum + row.value[i];
      assert row.value[..i + 1][..i] == row.value[..i];
    }
    assert row.value[..|row.value|] == row.value;
    if sum != total { return None; }
  }

  /** Reads the frequency table row by row. */
  method ReadCounts(v: Option<Value>) returns (c: Option<CountMin.Counts>)
    ensures c.Some? ==> DescribesCounts(v, c.value) && RestorableCounts(c.value)
    ensures c.None? ==> NoCounts(v)
  {
    hide Ints, CountMin.Sum, CountMin.Row, RowsRead, GoodRow, DescribesRows;
    if v.None? || !v.value.Dict? { return None; }
    var w, d := Field(v.value, "width"), Field(v.value, "depth");
    if w.None? || !w.value.Int? || w.value.whole < 1 { return None; }
    if d.None? || !d.value.Int? || d.value.whole < 1 { return None; }
    var width, depth := w.value.whole, d.value.whole;
    if width > MAX_CMS_CELLS / depth { return None; }
    var total := ReadWhole(Field(v.value, "total"), 0, MAX_INT64);
    if total.None? { return None; }
    var table := Field(v.value, "table");
    if table.None? || !table.value.List? || |table.value.items| != depth {
      NoTable(v, width, depth);
      return None;
    }
    var items, flat := table.value.items, [];
    NoRowsRead(items, width, total.value);
    for r := 0 to depth
      invariant RowsRead(items, width, total.value, r, flat)
    {
      var row := ReadRow(items[r], width, total.value);
      if row.None? {
        BadRow(v, items, width, depth, total.value, r);
        return None;
      }
      assert GoodRow(row.value, width, total.value);
      AddGoodRow(items, width, total.value, r, flat, row.value);
      flat := flat + row.value;
    }
    var counts := CountMin.Counts(width, depth, flat, total.value);
    RowsMakeTable(items, counts);
    CellsInRange(items, width, total.value, depth, flat);
    c := Some(counts);
  }

  lemma {:induction false} CellsInRange(items: seq<Value>, width: nat, total: int, n: nat, flat: seq<int>)
    requires RowsRead(items, width, total, n, flat)
    ensures forall i | 0 <= i < |flat| :: 0 <= flat[i] <= MAX_INT64
  {
  }

  lemma {:induction false} AddGoodRow(items: seq<Value>, width: nat, total: int, n: nat, flat: seq<int>, row: seq<int>)
    requires RowsRead(items, width, total, n, flat) && n < |items| && items[n] == List(Ints(row)) && GoodRow(row, width, total)
    ensures RowsRead(items, width, total, n + 1, flat + row)
  {
    RowAdded(items, width, total, n, flat, row);
  }

  lemma NoTable(v: Option<Value>, width: int, depth: int)
    requires v.Some? && Field(v.value, "width") == Some(Int(width)) && Field(v.value, "depth") == Some(Int(depth))
    requires var table := Field(v.value, "table"); table.None? || !table.value.List? || |table.value.items| != depth
    ensures NoCounts(v)
  {
  }

  datatype Restored = Restored(log: Log, deterministic: bool)

  /** Restores a log: exactly the documents that describe a restorable log are accepted, and
      the log is the one described. */
  method FromDict(doc: Value) returns (r: Option<Restored>)
    ensures r.Some? ==> Describes(doc, r.value.log, r.value.deterministic) && Restorable(r.value.log)
    ensures r.None? ==> forall l, d | Describes(doc, l, d) :: !Restorable(l)
  {
    hide DescribesSketch, DescribesRegisters, DescribesCounts, RestorableSketch, RestorableCounts, RestorableRegisters;
    if Field(doc, "version") != Some(Int(1)) { return None; }
    var total := ReadWhole(Field(doc, "total"), 0, MAX_UINT64);
    if total.None? { return None; }
    var deterministic := Field(doc, "deterministic");
    if deterministic.Some? && !deterministic.value.Bool? { return None; }
    var sketch := ReadSketch(Field(doc, "latency"));
    if sketch.None? { return None; }
    var registers := ReadRegisters(Field(doc, "uniques"));
    if registers.None? { return None; }
    var counts := ReadCounts(Field(doc, "events"));
    if counts.None? { return None; }
    var c := Config(sketch.value.alpha, registers.value.precision, counts.value.width, counts.value.depth);
    var l := Log(c, sketch.value.sketch, counts.value, registers.value.values, total.value);
    var flag := deterministic.Some? && deterministic.value.flag;
    assert Describes(doc, l, flag);
    WidthIsPositive(counts.value);
    forall k, d | Describes(doc, k, d) ensures k == l { DescriptionIsDetermined(doc, l, k, flag, d); }
    if total.value != l.latency.count + l.events.total { return None; }
    if c.alpha < 0.000001 { return None; }
    r := Some(Restored(l, flag));
  }

  lemma WidthIsPositive(c: CountMin.Counts)
    requires RestorableCounts(c)
    ensures c.width > 0
  {
  }

  /** Saving and restoring gives the log back, whether its bucket keys stayed integers or
      became text. */
  method SaveAndRestore(l: Log, deterministic: bool, asText: bool) returns (r: Option<Restored>)
    requires Shaped(l)
    ensures r == if Restorable(l) then Some(Restored(l, deterministic)) else None
  {
    hide Describes, Restorable;
    var doc := ToDict(l, deterministic, asText);
    SavedDescribes(l, deterministic, asText);
    r := FromDict(doc);
    if r.Some? { DescriptionIsDetermined(doc, l, r.value.log, deterministic, r.value.deterministic); }
    assert Restorable(l) ==> r.Some?;
  }
}
