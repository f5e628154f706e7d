/** The log of a stream: one quantile sketch, one frequency table and one register array
    that share a configuration, together with the total number of events. */
module StreamLogs {
  import opened Prelude
  import opened Gamma
  import opened SketchAlgebra
  import opened QuantileSketch
  import CountMin
  import Cardinality

  datatype Config = Config(alpha: real, precision: nat, width: nat, depth: nat)

  predicate ValidConfig(c: Config) {
    ValidAlpha(c.alpha) && Cardinality.ValidPrecision(c.precision) && c.width > 0 && c.depth > 0
  }

  datatype Log = Log(config: Config, latency: Sketch, events: CountMin.Counts, registers: seq<int>, total: int)

  // ----- the partial commutative monoid of logs -----

  predicate Shaped(l: Log) {
    && ValidConfig(l.config)
    && l.events.width == l.config.width && l.events.depth == l.config.depth
    && |l.events.table| == l.config.depth * l.config.width
    && |l.registers| == Cardinality.Pow2(l.config.precision)
  }

  /** What holds of every log that was counted, merged or restored. */
  ghost predicate WellFormedLog(l: Log) {
    && Shaped(l) && WellFormed(l.latency) && CountMin.WellFormed(l.events)
    && (forall i | 0 <= i < |l.registers| :: l.registers[i] >= 0)
    && l.total == l.latency.count + l.events.total
  }

  function EmptyLog(c: Config): Log
    requires ValidConfig(c)
  {
    Log(c, Empty(), CountMin.EmptyCounts(c.width, c.depth), Cardinality.EmptyRegisters(c.precision), 0)
  }

  /** Merging without any limit on the counters. */
  function Join(a: Log, b: Log): (l: Log)
    requires Shaped(a) && Shaped(b) && a.config == b.config
    ensures Shaped(l) && l.config == a.config
  {
    Log(a.config, Combine(a.latency, b.latency), CountMin.Combine(a.events, b.events),
        Cardinality.MaxRegisters(a.registers, b.registers), a.total + b.total)
  }

  predicate FitsLog(l: Log) {
    Fits(l.latency) && l.events.total <= MAX_INT64 && l.total <= MAX_UINT64
  }

  /** What the checked merge returns: the joined log when the configurations agree and
      every counter holds, a refusal otherwise. */
  function CheckedMerge(a: Log, b: Log): Option<Log>
    requires Shaped(a) && Shaped(b)
  {
    if a.config == b.config && FitsLog(Join(a, b)) then Some(Join(a, b)) else None
  }

  lemma {:induction false} JoinCommutes(a: Log, b: Log)
    requires Shaped(a) && Shaped(b) && a.config == b.config
    ensures Join(a, b) == Join(b, a)
  {
    hide Combine, CountMin.Combine, Cardinality.MaxRegisters;
    CombineCommutes(a.latency, b.latency);
    CountMin.CombineCommutes(a.events, b.events);
    Cardinality.MaxCommutes(a.registers, b.registers);
  }

  lemma {:induction false} JoinAssociates(a: Log, b: Log, c: Log)
    requires Shaped(a) && Shaped(b) && Shaped(c) && a.config == b.config == c.config
    ensures Join(Join(a, b), c) == Join(a, Join(b, c))
  {
    hide Combine, Cardinality.MaxRegisters;
    CombineAssociates(a.latency, b.latency, c.latency);
    CountMin.CombineAssociates(a.events, b.events, c.events);
    Cardinality.MaxAssociates(a.registers, b.registers, c.registers);
  }

  lemma JoinEmpty(a: Log)
    requires WellFormedLog(a)
    ensures Join(a, EmptyLog(a.config)) == a
  {
    hide Combine;
    CombineEmpty(a.latency);
    assert CountMin.Combine(a.events, CountMin.EmptyCounts(a.config.width, a.config.depth)) == a.events;
    assert Cardinality.MaxRegisters(a.registers, Cardinality.EmptyRegisters(a.config.precision)) == a.registers;
  }

  lemma JoinWellFormed(a: Log, b: Log)
    requires WellFormedLog(a) && WellFormedLog(b) && a.config == b.config
    ensures WellFormedLog(Join(a, b))
  {
    hide Combine, WellFormed, CountMin.WellFormed;
    CombineWellFormed(a.latency, b.latency);
    CountMin.CombineWellFormed(a.events, b.events);
    CountsAdd(a.latency, b.latency);
  }

  lemma CountsAdd(a: Sketch, b: Sketch)
    ensures Combine(a, b).count == a.count + b.count
  {
  }

  /** A log that fits stays the sum of parts that fit: a refused merge stays refused
      whatever else is merged in. */
  lemma {:induction false} JoinFitsDown(a: Log, b: Log)
    requires WellFormedLog(a) && WellFormedLog(b) && a.config == b.config && FitsLog(Join(a, b))
    ensures FitsLog(a) && FitsLog(b)
  {
    FitsDown(a.latency, b.latency);
  }

  // ----- logs of event histories -----

  /** One call on the log: a latency, count occurrences of a key, or a hashed item. */
  datatype Event = Latency(value: Double) | Occurred(key: int, count: int) | Seen(hash: nat)

  function SamplesOf(es: seq<Event>): (ss: seq<Sample>)
    ensures ValidSamples(ss)
  {
    if es == [] then []
    else
      var front, last := SamplesOf(es[..|es| - 1]), es[|es| - 1];
      if last.Latency? && last.value.Finite? then front + [Sample(last.value.value, 1)] else front
  }

  function StreamOf(es: seq<Event>): seq<CountMin.Occurrence> {
    if es == [] then []
    else
      var front, last := StreamOf(es[..|es| - 1]), es[|es| - 1];
      if last.Occurred? then front + [CountMin.Occurrence(last.key, last.count)] else front
  }

  function HashesOf(es: seq<Event>): seq<nat> {
    if es == [] then []
    else
      var front, last := HashesOf(es[..|es| - 1]), es[|es| - 1];
      if last.Seen? then front + [last.hash] else front
  }

  function OfContents(c: Config, h: CountMin.Hash, ss: seq<Sample>, os: seq<CountMin.Occurrence>, hashes: seq<nat>): (l: Log)
    requires ValidConfig(c)
    ensures Shaped(l) && l.config == c
  {
    var latency := OfSamples(BucketOf(c.alpha), ss);
    var events := CountMin.OfStream(h, c.width, c.depth, os);
    Log(c, latency, events, Cardinality.OfHashes(c.precision, hashes), latency.count + events.total)
  }

  function OfEvents(c: Config, h: CountMin.Hash, es: seq<Event>): (l: Log)
    requires ValidConfig(c)
    ensures Shaped(l) && l.config == c
  {
    OfContents(c, h, SamplesOf(es), StreamOf(es), HashesOf(es))
  }

  predicate ValidEvents(es: seq<Event>) { forall e | e in es && e.Occurred? :: e.count > 0 }

  lemma {:induction false} ContentsJoin(c: Config, h: CountMin.Hash, ss1: seq<Sample>, os1: seq<CountMin.Occurrence>, hs1: seq<nat>,
    ss2: seq<Sample>, os2: seq<CountMin.Occurrence>, hs2: seq<nat>)
    requires ValidConfig(c)
    ensures OfContents(c, h, ss1 + ss2, os1 + os2, hs1 + hs2)
         == Join(OfContents(c, h, ss1, os1, hs1), OfContents(c, h, ss2, os2, hs2))
  {
    hide OfSamples, BucketOf, CountMin.OfStream, Cardinality.OfHashes, Cardinality.MaxRegisters;
    MergeIsConcatenation(BucketOf(c.alpha), ss1, ss2);
    CountMin.StreamsJoin(h, c.width, c.depth, os1, os2);
    Cardinality.HashesJoin(c.precision, hs1, hs2);
    CountsAdd(OfSamples(BucketOf(c.alpha), ss1), OfSamples(BucketOf(c.alpha), ss2));
  }

  lemma {:induction false} HistoriesSplit(xs: seq<Event>, ys: seq<Event>)
    ensures SamplesOf(xs + ys) == SamplesOf(xs) + SamplesOf(ys)
    ensures StreamOf(xs + ys) == StreamOf(xs) + StreamOf(ys)
    ensures HashesOf(xs + ys) == HashesOf(xs) + HashesOf(ys)
  {
    if ys == [] {
      assert xs + ys == xs;
    } else {
      assert (xs + ys)[..|xs + ys| - 1] == xs + ys[..|ys| - 1];
      HistoriesSplit(xs, ys[..|ys| - 1]);
    }
  }

  /** Merging the logs of two histories gives the log of the joined history. */
  lemma {:induction false} HistoriesJoin(c: Config, h: CountMin.Hash, xs: seq<Event>, ys: seq<Event>)
    requires ValidConfig(c)
    ensures OfEvents(c, h, xs + ys) == Join(OfEvents(c, h, xs), OfEvents(c, h, ys))
  {
    hide OfContents, Join;
    HistoriesSplit(xs, ys);
    ContentsJoin(c, h, SamplesOf(xs), StreamOf(xs), HashesOf(xs), SamplesOf(ys), StreamOf(ys), HashesOf(ys));
  }

  lemma {:induction false} ValidEventsGiveValidStream(es: seq<Event>)
    requires ValidEvents(es)
    ensures CountMin.ValidStream(StreamOf(es))
  {
    if es != [] { ValidEventsGiveValidStream(es[..|es| - 1]); }
  }

  lemma {:induction false} OfEventsWellFormed(c: Config, h: CountMin.Hash, es: seq<Event>)
    requires ValidConfig(c) && ValidEvents(es)
    ensures WellFormedLog(OfEvents(c, h, es))
  {
    hide OfSamples, BucketOf, CountMin.OfStream, Cardinality.OfHashes, WellFormed, CountMin.WellFormed;
    ValidEventsGiveValidStream(es);
    OfSamplesWellFormed(BucketOf(c.alpha), SamplesOf(es));
    CountMin.OfStreamWellFormed(h, c.width, c.depth, StreamOf(es));
    var registers := Cardinality.OfHashes(c.precision, HashesOf(es));
    forall i | 0 <= i < |registers| ensures registers[i] >= 0 {
      Cardinality.RegistersInRange(c.precision, HashesOf(es), i);
    }
  }

  /** Whether a log accepts one more call: occurrences must be positive and every counter
      must hold. */
  predicate StepAccepts(c: Config, h: CountMin.Hash, es: seq<Event>, e: Event)
    requires ValidConfig(c)
  {
    (e.Occurred? ==> e.count > 0) && FitsLog(OfEvents(c, h, es + [e]))
  }

  /** Whether a run of calls on an empty log succeeds at every call. */
  predicate RunAccepts(c: Config, h: CountMin.Hash, es: seq<Event>)
    requires ValidConfig(c)
  {
    es == [] || (RunAccepts(c, h, es[..|es| - 1]) && StepAccepts(c, h, es[..|es| - 1], es[|es| - 1]))
  }

  lemma EmptyLogFits(c: Config, h: CountMin.Hash)
    requires ValidConfig(c)
    ensures FitsLog(OfEvents(c, h, []))
  {
  }

  /** Acceptance is a property of the whole history: no call fails exactly when the
      final log is representable, so the order of the calls cannot matter. */
  lemma {:induction false} AcceptanceIsFinal(c: Config, h: CountMin.Hash, es: seq<Event>)
    requires ValidConfig(c)
    ensures RunAccepts(c, h, es) <==> ValidEvents(es) && FitsLog(OfEvents(c, h, es))
  {
    hide OfEvents, FitsLog;
    if es == [] {
      EmptyLogFits(c, h);
    } else {
      var front, last := es[..|es| - 1], es[|es| - 1];
      assert es == front + [last];
      AcceptanceIsFinal(c, h, front);
      if ValidEvents(es) && FitsLog(OfEvents(c, h, es)) {
        HistoriesJoin(c, h, front, [last]);
        OfEventsWellFormed(c, h, front);
        OfEventsWellFormed(c, h, [last]);
        JoinFitsDown(OfEvents(c, h, front), OfEvents(c, h, [last]));
      }
    }
  }

  function CountOf(es: seq<Event>): int {
    if es == [] then 0 else CountOf(es[..|es| - 1]) + if es[|es| - 1].Occurred? then es[|es| - 1].count else 0
  }

  lemma {:induction false} TotalIsCount(c: Config, h: CountMin.Hash, es: seq<Event>)
    requires ValidConfig(c)
    ensures OfEvents(c, h, es).events.total == CountOf(es)
  {
    hide OfSamples, BucketOf, Cardinality.OfHashes, CountMin.AddCells, CountMin.Column;
    if es != [] { TotalIsCount(c, h, es[..|es| - 1]); }
  }

  /** In terms of what was recorded: every count is positive; the latencies of each sign lie in
      at most 1024 buckets; no bucket holds more than a signed 64-bit counter can; nor do the
      occurrences exceed one, nor everything together an unsigned one. */
  lemma {:induction false} AcceptanceMeans(c: Config, h: CountMin.Hash, es: seq<Event>)
    requires ValidConfig(c)
    ensures var ss, bucket := SamplesOf(es), BucketOf(c.alpha);
      RunAccepts(c, h, es) <==>
        && (forall e | e in es && e.Occurred? :: e.count > 0)
        && |set s | s in ss && bucket(s.value).Pos? :: bucket(s.value).index| <= 1024
        && |set s | s in ss && bucket(s.value).Neg? :: bucket(s.value).index| <= 1024
        && (forall b :: Weight(ss, InBucket(bucket, b)) <= 0x7fff_ffff_ffff_ffff)
        && CountOf(es) <= 0x7fff_ffff_ffff_ffff && TotalWeight(ss) + CountOf(es) <= 0xffff_ffff_ffff_ffff
  {
    hide OfSamples, BucketOf, Weight, Fits, RunAccepts;
    AcceptanceIsFinal(c, h, es);
    FitsMeans(BucketOf(c.alpha), SamplesOf(es));
    TotalIsCount(c, h, es);
    CountersMeanWeights(BucketOf(c.alpha), SamplesOf(es), Zero);
    if ValidEvents(es) { CountIsNatural(es); }
  }

  lemma {:induction false} CountIsNatural(es: seq<Event>)
    requires ValidEvents(es)
    ensures CountOf(es) >= 0
  {
    if es != [] { CountIsNatural(es[..|es| - 1]); }
  }

  /** Merging the logs of two accepted histories is accepted exactly when counting the
      second history after the first would be, and then gives the same log. */
  lemma {:induction false} MergeIsReplay(c: Config, h: CountMin.Hash, xs: seq<Event>, ys: seq<Event>)
    requires ValidConfig(c) && RunAccepts(c, h, xs) && RunAccepts(c, h, ys)
    ensures CheckedMerge(OfEvents(c, h, xs), OfEvents(c, h, ys))
         == if RunAccepts(c, h, xs + ys) then Some(OfEvents(c, h, xs + ys)) else None
  {
    hide OfEvents, FitsLog, Join, RunAccepts;
    AcceptanceIsFinal(c, h, xs);
    AcceptanceIsFinal(c, h, ys);
    AcceptanceIsFinal(c, h, xs + ys);
    HistoriesJoin(c, h, xs, ys);
  }

  /** Neither acceptance nor the resulting log depends on the order of the calls. */
  lemma {:induction false} OrderOfCallsIsIrrelevant(c: Config, h: CountMin.Hash, xs: seq<Event>, ys: seq<Event>)
    requires ValidConfig(c) && multiset(xs) == multiset(ys)
    ensures OfEvents(c, h, xs) == OfEvents(c, h, ys)
    ensures RunAccepts(c, h, xs) <==> RunAccepts(c, h, ys)
    decreases |xs|
  {
    hide OfEvents, Join, RunAccepts, FitsLog;
    if xs == [] {
      assert |ys| == |multiset(ys)| == 0;
    } else {
      var front, last := xs[..|xs| - 1], xs[|xs| - 1];
      var a, b := SplitAtLast(xs, ys);
      assert xs == front + [last];
      OrderOfCallsIsIrrelevant(c, h, front, a + b);
      MoveCallToEnd(c, h, a, last, b);
      assert OfEvents(c, h, xs) == OfEvents(c, h, (a + b) + [last]) by {
        HistoriesJoin(c, h, front, [last]);
        HistoriesJoin(c, h, a + b, [last]);
      }
    }
    AcceptanceIsFinal(c, h, xs);
    AcceptanceIsFinal(c, h, ys);
    assert forall e :: e in xs <==> e in multiset(xs);
    assert forall e :: e in ys <==> e in multiset(ys);
  }

  lemma {:induction false} MoveCallToEnd(c: Config, h: CountMin.Hash, a: seq<Event>, x: Event, b: seq<Event>)
    requires ValidConfig(c)
    ensures OfEvents(c, h, a + ([x] + b)) == OfEvents(c, h, (a + b) + [x])
  {
    hide OfEvents, Join;
    var la, lx, lb := OfEvents(c, h, a), OfEvents(c, h, [x]), OfEvents(c, h, b);
    HistoriesJoin(c, h, a, [x] + b);
    HistoriesJoin(c, h, [x], b);
    HistoriesJoin(c, h, a + b, [x]);
    HistoriesJoin(c, h, a, b);
    JoinCommutes(lx, lb);
    JoinAssociates(la, lb, lx);
  }

  // ----- the log object -----

  class StreamLog {
    const config: Config
    const hash: CountMin.Hash
    var latency: DDSketch
    var events: CountMin.CountMinSketch
    var uniques: Cardinality.HyperLogLog
    var totalEvents: int
    ghost var history: seq<Event>  // the accepted calls, merges included

    ghost predicate Valid()
      reads this, latency, events, events.table, uniques, uniques.registers
    {
      && ValidConfig(config) && ValidEvents(history)
      && latency.Valid() && latency.alpha == config.alpha && latency.samples == SamplesOf(history)
      && events.Valid() && events.width == config.width && events.depth == config.depth && events.hash == hash
      && events.stream == StreamOf(history)
      && uniques.Valid() && uniques.precision == config.precision && uniques.hashes == HashesOf(history)
      && events.table != uniques.registers
      && totalEvents == latency.count + events.totalCount <= MAX_UINT64
    }

    /** The object's fields are the log of its history, and that log is representable. */
    lemma {:induction false} HoldsItsHistory()
      requires Valid()
      ensures OfEvents(config, hash, history)
           == Log(config, latency.Value(), events.Value(), uniques.registers[..], totalEvents)
      ensures FitsLog(OfEvents(config, hash, history)) && RunAccepts(config, hash, history)
      ensures WellFormedLog(OfEvents(config, hash, history))
    {
      hide OfSamples, BucketOf, CountMin.OfStream, Cardinality.OfHashes, RunAccepts, Fits;
      AcceptanceIsFinal(config, hash, history);
      OfEventsWellFormed(config, hash, history);
    }

    constructor (config: Config, hash: CountMin.Hash)
      requires ValidConfig(config)
      ensures Valid() && history == [] && this.config == config && this.hash == hash
      ensures fresh(latency) && fresh(events) && fresh(events.table) && fresh(uniques) && fresh(uniques.registers)
    {
      this.config, this.hash := config, hash;
      latency := new DDSketch(config.alpha);
      events := new CountMin.CountMinSketch(config.width, config.depth, hash);
      uniques := new Cardinality.HyperLogLog(config.precision);
      totalEvents := 0;
      history := [];
    }

    /** Records a latency; values that are not finite are ignored. */
    method AddLatency(value: Double) returns (outcome: Outcome)
      requires Valid()
      modifies this`totalEvents, this`history, latency
      ensures Valid()
      ensures outcome.Done? <==> StepAccepts(config, hash, old(history), Latency(value))
      ensures history == if outcome.Done? then old(history) + [Latency(value)] else old(history)
    {
      hide OfSamples, BucketOf, CountMin.OfStream, Cardinality.OfHashes, Fits, OfEvents, FitsLog, WellFormedLog, RunAccepts;
      hide SamplesOf, StreamOf, HashesOf, CountMin.CountMinSketch.Valid, Cardinality.HyperLogLog.Valid;
      HoldsItsHistory();
      ghost var more := history + [Latency(value)];
      LatencyAccepted(config, hash, history, value);
      if value.NotFinite? {
        outcome := latency.Add(value, 1);
        history := more;
        return;
      }
      if MAX_UINT64 - totalEvents < 1 { return Raised(OverflowError); }
      outcome := latency.Add(value, 1);
      if outcome.Done? {
        totalEvents := totalEvents + 1;
        history := more;
      }
    }

    /** Records a batch of latencies, all of them or none. */
    method AddBatch(values: seq<Double>) returns (outcome: Outcome)
      requires Valid()
      modifies this`totalEvents, this`history, latency
      ensures Valid()
      ensures outcome.Done? <==> RunAccepts(config, hash, old(history) + Latencies(values))
      ensures history == if outcome.Done? then old(history) + Latencies(values) else old(history)
    {
      hide OfSamples, BucketOf, CountMin.OfStream, Cardinality.OfHashes, Fits, RunAccepts, Latencies, Observations;
      HoldsItsHistory();
      ghost var more := history + Latencies(values);
      BatchContents(history, values);
      ObservationsAreCounted(config, history, values);
      AcceptanceIsFinal(config, hash, more);
      var validCount := 0;
      NoObservations(values);
      for i := 0 to |values|
        invariant validCount == |Observations(values[..i])|
        modifies {}
      {
        ObservationsGrow(values, i);
        if values[i].Finite? { validCount := validCount + 1; }
      }
      assert values[..|values|] == values;
      if MAX_UINT64 - totalEvents < validCount { return Raised(OverflowError); }
      outcome := latency.AddBatch(values);
      if outcome.Done? {
        totalEvents := totalEvents + validCount;
        history := more;
      }
    }

    /** Records occurrences of a key; a count that is not positive is refused. */
    method AddEvent(key: int, count: int) returns (outcome: Outcome)
      requires Valid()
      modifies this`totalEvents, this`history, events, events.table
      ensures Valid()
      ensures outcome.Done? <==> StepAccepts(config, hash, old(history), Occurred(key, count))
      ensures history == if outcome.Done? then old(history) + [Occurred(key, count)] else old(history)
    {
      hide OfSamples, BucketOf, CountMin.OfStream, Cardinality.OfHashes, Fits;
      HoldsItsHistory();
      ghost var more := history + [Occurred(key, count)];
      HistoryGrows(history, Occurred(key, count));
      OccurrenceStep(config, hash, history, key, count);
      if count <= 0 { return Raised(InvalidArgument); }
      if MAX_UINT64 - totalEvents < count { return Raised(OverflowError); }
      outcome := events.Add(key, count);
      if outcome.Done? {
        totalEvents := totalEvents + count;
        history := more;
      }
    }

    /** Records a hashed item. It never fails and leaves the total alone. */
    method AddUnique(item: nat)
      requires Valid() && item < Cardinality.HASHES
      modifies this`history, uniques, uniques.registers
      ensures Valid()
      ensures history == old(history) + [Seen(item)] && totalEvents == old(totalEvents)
    {
      hide OfSamples, BucketOf, CountMin.OfStream, Cardinality.OfHashes, Fits;
      HistoryGrows(history, Seen(item));
      uniques.Add(item);
      history := history + [Seen(item)];
    }

    /** Merges another log into copies of the three sketches and commits them together. */
    method Merge(other: StreamLog) returns (outcome: Outcome)
      requires Valid() && other.Valid() && other.hash == hash
      modifies this
      ensures Valid()
      ensures outcome.Done? <==> config == other.config && RunAccepts(config, hash, old(history + other.history))
      ensures history == if outcome.Done? then old(history + other.history) else old(history)
    {
      hide OfEvents, RunAccepts, OfSamples, BucketOf, CountMin.OfStream, Fits, SamplesOf, StreamOf, HashesOf;
      hide DDSketch.Valid, CountMin.CountMinSketch.Valid, Cardinality.HyperLogLog.Valid;
      HoldsItsHistory();
      other.HoldsItsHistory();
      HistoriesSplit(history, other.history);
      if config == other.config { MergeConditions(config, hash, history, other.history); }
      if MAX_UINT64 - totalEvents < other.totalEvents { return Raised(OverflowError); }
      outcome := MergeParts(other);
    }

    method MergeParts(other: StreamLog) returns (outcome: Outcome)
      requires Valid() && other.Valid() && other.hash == hash && totalEvents + other.totalEvents <= MAX_UINT64
      modifies this
      ensures Valid()
      ensures outcome.Done? <==>
        && config == other.config
        && old(events.totalCount + other.events.totalCount) <= MAX_INT64
        && old(latency.Accepts(latency.samples + other.latency.samples))
      ensures history == if outcome.Done? then old(history + other.history) else old(history)
    {
      hide OfSamples, BucketOf, CountMin.OfStream, Fits, SamplesOf, StreamOf, HashesOf;
      hide DDSketch.Valid, CountMin.CountMinSketch.Valid, Cardinality.HyperLogLog.Valid;
      var l, e, u;
      outcome, l := MergedLatency(latency, other.latency);
      if outcome.Raised? { return; }
      outcome, e := MergedEvents(events, other.events);
      if outcome.Raised? { return; }
      outcome, u := MergedUniques(uniques, other.uniques);
      if outcome.Raised? { return; }
      assert config == other.config;
      HistoriesSplit(history, other.history);
      ghost var joined := history + other.history;
      totalEvents := totalEvents + other.totalEvents;
      latency, events, uniques := l, e, u;
      history := joined;
    }
  }

  method MergedLatency(mine: DDSketch, theirs: DDSketch) returns (outcome: Outcome, l: DDSketch)
    requires mine.Valid() && theirs.Valid()
    ensures outcome.Done? <==> mine.alpha == theirs.alpha && mine.Accepts(mine.samples + theirs.samples)
    ensures outcome.Done? ==> l.Valid() && l.alpha == mine.alpha && l.samples == mine.samples + theirs.samples
    ensures outcome.Done? ==> l.count == mine.count + theirs.count
  {
    hide OfSamples, BucketOf, Fits;
    if mine.alpha == theirs.alpha { CountsJoin(mine.alpha, mine.samples, theirs.samples); }
    l := new DDSketch.Copy(mine);
    outcome := l.Merge(theirs);
  }

  method MergedEvents(mine: CountMin.CountMinSketch, theirs: CountMin.CountMinSketch)
    returns (outcome: Outcome, e: CountMin.CountMinSketch)
    requires mine.Valid() && theirs.Valid() && theirs.hash == mine.hash
    ensures outcome.Done? <==>
      && mine.width == theirs.width && mine.depth == theirs.depth
      && mine.totalCount + theirs.totalCount <= MAX_INT64
    ensures outcome.Done? ==>
      && e.Valid() && e.width == mine.width && e.depth == mine.depth && e.hash == mine.hash
      && e.stream == mine.stream + theirs.stream && fresh(e.table) && e.totalCount == mine.totalCount + theirs.totalCount
  {
    hide CountMin.OfStream;
    if mine.width == theirs.width && mine.depth == theirs.depth {
      CountMin.TotalsJoin(mine.hash, mine.width, mine.depth, mine.stream, theirs.stream);
    }
    e := new CountMin.CountMinSketch.Copy(mine);
    outcome := e.Merge(theirs);
  }

  method MergedUniques(mine: Cardinality.HyperLogLog, theirs: Cardinality.HyperLogLog)
    returns (outcome: Outcome, u: Cardinality.HyperLogLog)
    requires mine.Valid() && theirs.Valid()
    ensures outcome.Done? <==> mine.precision == theirs.precision
    ensures outcome.Done? ==>
      u.Valid() && u.precision == mine.precision && u.hashes == mine.hashes + theirs.hashes && fresh(u.registers)
  {
    hide Cardinality.OfHashes;
    u := new Cardinality.HyperLogLog.Copy(mine);
    outcome := u.Merge(theirs);
  }

  /** When two accepted histories can be merged, counter by counter. */
  lemma {:induction false} MergeConditions(c: Config, h: CountMin.Hash, xs: seq<Event>, ys: seq<Event>)
    requires ValidConfig(c) && RunAccepts(c, h, xs) && RunAccepts(c, h, ys)
    ensures RunAccepts(c, h, xs + ys) <==>
      && OfEvents(c, h, xs).total + OfEvents(c, h, ys).total <= MAX_UINT64
      && OfEvents(c, h, xs).events.total + OfEvents(c, h, ys).events.total <= MAX_INT64
      && Fits(OfSamples(BucketOf(c.alpha), SamplesOf(xs) + SamplesOf(ys)))
    ensures ValidEvents(xs + ys)
  {
    hide OfSamples, BucketOf, CountMin.OfStream, Cardinality.OfHashes, Fits, RunAccepts;
    AcceptanceIsFinal(c, h, xs);
    AcceptanceIsFinal(c, h, ys);
    AcceptanceIsFinal(c, h, xs + ys);
    HistoriesJoin(c, h, xs, ys);
    HistoriesSplit(xs, ys);
  }

  lemma {:induction false} CountsJoin(alpha: real, xs: seq<Sample>, ys: seq<Sample>)
    requires ValidAlpha(alpha)
    ensures OfSamples(BucketOf(alpha), xs + ys).count
         == OfSamples(BucketOf(alpha), xs).count + OfSamples(BucketOf(alpha), ys).count
  {
    hide BucketOf, OfSamples;
    MergeIsConcatenation(BucketOf(alpha), xs, ys);
    CountsAdd(OfSamples(BucketOf(alpha), xs), OfSamples(BucketOf(alpha), ys));
  }

  /** The calls a batch stands for. */
  function Latencies(values: seq<Double>): seq<Event> {
    seq(|values|, i requires 0 <= i < |values| => Latency(values[i]))
  }

  lemma {:induction false} LatenciesAreObservations(values: seq<Double>)
    ensures SamplesOf(Latencies(values)) == Observations(values)
    ensures StreamOf(Latencies(values)) == [] && HashesOf(Latencies(values)) == []
  {
    if values != [] {
      var n := |values| - 1;
      assert Latencies(values)[..n] == Latencies(values[..n]);
      LatenciesAreObservations(values[..n]);
    }
  }

  lemma {:induction false} BatchContents(es: seq<Event>, values: seq<Double>)
    ensures SamplesOf(es + Latencies(values)) == SamplesOf(es) + Observations(values)
    ensures StreamOf(es + Latencies(values)) == StreamOf(es)
    ensures HashesOf(es + Latencies(values)) == HashesOf(es)
    ensures ValidEvents(es) ==> ValidEvents(es + Latencies(values))
  {
    HistoriesSplit(es, Latencies(values));
    LatenciesAreObservations(values);
  }

  lemma {:induction false} UnitWeights(bucket: Bucketing, values: seq<Double>)
    ensures OfSamples(bucket, Observations(values)).count == |Observations(values)|
  {
    if values != [] {
      var front := values[..|values| - 1];
      UnitWeights(bucket, front);
      if values[|values| - 1].Finite? {
        SamplesGrow(bucket, Observations(front), Sample(values[|values| - 1].value, 1));
      }
    }
  }

  lemma {:induction false} ObservationsAreCounted(c: Config, es: seq<Event>, values: seq<Double>)
    requires ValidConfig(c)
    ensures OfSamples(BucketOf(c.alpha), SamplesOf(es) + Observations(values)).count
         == OfSamples(BucketOf(c.alpha), SamplesOf(es)).count + |Observations(values)|
  {
    hide BucketOf, OfSamples;
    MergeIsConcatenation(BucketOf(c.alpha), SamplesOf(es), Observations(values));
    CountsAdd(OfSamples(BucketOf(c.alpha), SamplesOf(es)), OfSamples(BucketOf(c.alpha), Observations(values)));
    UnitWeights(BucketOf(c.alpha), values);
  }

  lemma {:induction false} OccurrenceStep(c: Config, h: CountMin.Hash, es: seq<Event>, key: int, count: int)
    requires ValidConfig(c)
    ensures OfEvents(c, h, es + [Occurred(key, count)]).total == OfEvents(c, h, es).total + count
    ensures OfEvents(c, h, es + [Occurred(key, count)]).events.total == OfEvents(c, h, es).events.total + count
  {
    HistoryGrows(es, Occurred(key, count));
    CountMin.StreamGrows(h, c.width, c.depth, StreamOf(es), CountMin.Occurrence(key, count));
  }

  lemma {:induction false} HistoryGrows(es: seq<Event>, e: Event)
    ensures SamplesOf(es + [e]) == SamplesOf(es) + if e.Latency? && e.value.Finite? then [Sample(e.value.value, 1)] else []
    ensures StreamOf(es + [e]) == StreamOf(es) + if e.Occurred? then [CountMin.Occurrence(e.key, e.count)] else []
    ensures HashesOf(es + [e]) == HashesOf(es) + if e.Seen? then [e.hash] else []
  {
    assert (es + [e])[..|es|] == es;
  }

  /** One more latency is accepted exactly when the sketch and the total can hold it. */
  lemma {:induction false} LatencyAccepted(c: Config, h: CountMin.Hash, es: seq<Event>, value: Double)
    requires ValidConfig(c) && FitsLog(OfEvents(c, h, es))
    ensures value.NotFinite? ==> FitsLog(OfEvents(c, h, es + [Latency(value)]))
    ensures StreamOf(es + [Latency(value)]) == StreamOf(es) && HashesOf(es + [Latency(value)]) == HashesOf(es)
    ensures SamplesOf(es + [Latency(value)]) == if value.Finite? then SamplesOf(es) + [Sample(value.value, 1)] else SamplesOf(es)
    ensures value.Finite? ==>
      var bucket := BucketOf(c.alpha);
      OfSamples(bucket, SamplesOf(es) + [Sample(value.value, 1)]).count == OfSamples(bucket, SamplesOf(es)).count + 1
    ensures value.Finite? ==>
      (FitsLog(OfEvents(c, h, es + [Latency(value)]))
       <==> Fits(OfSamples(BucketOf(c.alpha), SamplesOf(es) + [Sample(value.value, 1)])) && OfEvents(c, h, es).total < MAX_UINT64)
  {
    hide OfSamples, BucketOf, CountMin.OfStream, Cardinality.OfHashes, Fits, SamplesOf, StreamOf, HashesOf;
    HistoryGrows(es, Latency(value));
    assert StreamOf(es) + [] == StreamOf(es) && HashesOf(es) + [] == HashesOf(es) && SamplesOf(es) + [] == SamplesOf(es);
    if value.Finite? { SamplesGrow(BucketOf(c.alpha), SamplesOf(es), Sample(value.value, 1)); }
  }
}
