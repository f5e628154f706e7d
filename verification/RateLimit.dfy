/** Per-namespace admission: the quotas are charged first, then the token bucket, and a
    request the bucket turns away is taken off the quotas again. */
module RateLimit {
  import opened Prelude
  import TB = TokenBuckets
  import QC = QuotaCounters
  import opened Admission

  datatype Config = Config(quotas: seq<Quota>, rate: real, burst: int, hourly: int, daily: int)

  ghost predicate ValidConfig(c: Config) {
    && (forall i | 0 <= i < |c.quotas| :: ValidQuota(c.quotas[i]))
    && c.rate > 0.0 && c.burst >= 1 && c.hourly >= 0 && c.daily >= 0
  }

  const WILDCARD := "*"

  ghost predicate NamedFirst(quotas: seq<Quota>, name: string, i: nat) {
    i < |quotas| && quotas[i].namespace == name && forall j | 0 <= j < i :: quotas[j].namespace != name
  }

  ghost predicate NamedLast(quotas: seq<Quota>, name: string, i: nat) {
    i < |quotas| && quotas[i].namespace == name && forall j | i < j < |quotas| :: quotas[j].namespace != name
  }

  predicate Names(quotas: seq<Quota>, name: string) { exists i :: 0 <= i < |quotas| && quotas[i].namespace == name }

  function Fallback(c: Config, namespace: string): Quota { Quota(namespace, c.rate, c.burst, c.hourly, c.daily) }

  /** The quota that governs a namespace: the first one of its name, else the last wildcard,
      else the defaults, which may not make a valid quota. */
  ghost predicate Governs(c: Config, namespace: string, q: Option<Quota>) {
    if Names(c.quotas, namespace) then exists i: nat :: NamedFirst(c.quotas, namespace, i) && q == Some(c.quotas[i])
    else if Names(c.quotas, WILDCARD) then exists i: nat :: NamedLast(c.quotas, WILDCARD, i) && q == Some(c.quotas[i])
    else q == if ValidQuota(Fallback(c, namespace)) then Some(Fallback(c, namespace)) else None
  }

  /** The first quota of a namespace's name governs it, and the last wildcard one governs every
      namespace that none names. */
  lemma {:induction false} ListedGoverns(c: Config, namespace: string, i: nat, q: Option<Quota>)
    requires i < |c.quotas|
    requires
      || (c.quotas[i].namespace == namespace && forall j | 0 <= j < i :: c.quotas[j].namespace != namespace)
      || ((forall j | 0 <= j < |c.quotas| :: c.quotas[j].namespace != namespace)
          && c.quotas[i].namespace == "*" && forall j | i < j < |c.quotas| :: c.quotas[j].namespace != "*")
    ensures Governs(c, namespace, q) <==> q == Some(c.quotas[i])
  {
    if Names(c.quotas, namespace) {
      assert NamedFirst(c.quotas, namespace, i);
      if Governs(c, namespace, q) { OneQuotaGoverns(c, namespace, q, Some(c.quotas[i])); }
    } else {
      assert NamedLast(c.quotas, WILDCARD, i);
      if Governs(c, namespace, q) { OneQuotaGoverns(c, namespace, q, Some(c.quotas[i])); }
    }
  }

  /** A namespace that no quota names, in a list without a wildcard, has the default rate, burst
      and quotas, provided they make a valid quota. */
  lemma {:induction false} DefaultsGovern(c: Config, namespace: string, q: Quota)
    requires forall i | 0 <= i < |c.quotas| :: c.quotas[i].namespace != namespace && c.quotas[i].namespace != WILDCARD
    ensures Governs(c, namespace, Some(q)) <==>
      && q.namespace == namespace && q.rate == c.rate && q.burst == c.burst && q.hourly == c.hourly && q.daily == c.daily
      && (exists i :: 0 <= i < |namespace| && !IsSpace(namespace[i]))
      && c.rate > 0.0 && c.burst >= 1 && c.hourly >= 0 && c.daily >= 0 && (c.hourly == 0 || c.daily == 0 || c.hourly <= c.daily)
  {
    hide IsSpace;
  }

  lemma {:induction false} OneQuotaGoverns(c: Config, namespace: string, q1: Option<Quota>, q2: Option<Quota>)
    requires Governs(c, namespace, q1) && Governs(c, namespace, q2)
    ensures q1 == q2
  {
    if Names(c.quotas, namespace) {
      var i: nat :| NamedFirst(c.quotas, namespace, i) && q1 == Some(c.quotas[i]);
      var j: nat :| NamedFirst(c.quotas, namespace, j) && q2 == Some(c.quotas[j]);
      assert i == j;
    } else if Names(c.quotas, WILDCARD) {
      var i: nat :| NamedLast(c.quotas, WILDCARD, i) && q1 == Some(c.quotas[i]);
      var j: nat :| NamedLast(c.quotas, WILDCARD, j) && q2 == Some(c.quotas[j]);
      assert i == j;
    }
  }

  method GetQuota(c: Config, namespace: string) returns (q: Option<Quota>)
    requires ValidConfig(c)
    ensures Governs(c, namespace, q)
    ensures q.Some? ==> ValidQuota(q.value)
  {
    hide ValidQuota;
    ghost var at := 0;
    var wildcard: Option<Quota> := None;
    for i := 0 to |c.quotas|
      invariant forall j | 0 <= j < i :: c.quotas[j].namespace != namespace
      invariant wildcard.None? ==> forall j | 0 <= j < i :: c.quotas[j].namespace != WILDCARD
      invariant wildcard.Some? ==> 0 <= at < i && wildcard.value == c.quotas[at] && c.quotas[at].namespace == WILDCARD
      invariant wildcard.Some? ==> forall j | at < j < i :: c.quotas[j].namespace != WILDCARD
    {
      if c.quotas[i].namespace == namespace {
        assert NamedFirst(c.quotas, namespace, i);
        return Some(c.quotas[i]);
      }
      if c.quotas[i].namespace == WILDCARD {
        wildcard, at := Some(c.quotas[i]), i;
      }
    }
    if wildcard.Some? {
      assert NamedLast(c.quotas, WILDCARD, at);
      return wildcard;
    }
    var fallback := Fallback(c, namespace);
    return if ValidQuota(fallback) then Some(fallback) else None;
  }

  // ===== decisions =====

  ghost predicate KeepsAll(q: Quota, hourMade: real, dayMade: real, rs: seq<QC.Request>) {
    QC.Keeps(QC.HOUR, q.hourly, hourMade, rs) && QC.Keeps(QC.DAY, q.daily, dayMade, rs)
  }

  /** A bucket and a counter that have kept to a quota until some moment. */
  ghost predicate Kept(q: Quota, b: TB.TokenBucket, c: QC.QuotaCounter, latest: real)
    reads b, c
  {
    && ValidQuota(q) && b.rate == q.rate && b.burst == q.burst
    && b.Valid() && b.last <= latest
    && c.Valid() && c.latest <= latest && KeepsAll(q, c.hourMade, c.dayMade, c.requests)
  }

  lemma {:induction false} KeepsExtends(period: real, quota: int, made: real, rs: seq<QC.Request>, r: QC.Request)
    requires QC.Keeps(period, quota, made, rs)
    requires r.counted ==> QC.Free(period, quota, made, rs, r.time)
    ensures QC.Keeps(period, quota, made, rs + [r])
  {
    hide QC.Free;
    var more := rs + [r];
    forall k | 0 <= k < |more| && more[k].counted ensures QC.Free(period, quota, made, more[..k], more[k].time) {
      assert more[..k] == rs[..k];
    }
    assert rs[..|rs|] == rs;
  }

  /** Both windows keep their quotas when a request is counted only if neither refuses. */
  lemma {:induction false} BothExtend(q: Quota, hourMade: real, dayMade: real, rs: seq<QC.Request>, r: QC.Request)
    requires ValidQuota(q) && KeepsAll(q, hourMade, dayMade, rs)
    requires r.counted ==> Refusal(QC.CounterAfter(hourMade, dayMade, rs), q, r.time).None?
    ensures KeepsAll(q, hourMade, dayMade, rs + [r])
  {
    hide QC.Keeps;
    KeepsExtends(QC.HOUR, q.hourly, hourMade, rs, r);
    KeepsExtends(QC.DAY, q.daily, dayMade, rs, r);
  }

  lemma CounterIsItsHistory(c: QC.QuotaCounter)
    requires c.Valid()
    ensures c.Value() == QC.CounterAfter(c.hourMade, c.dayMade, c.requests)
  {
  }

  lemma {:induction false} HistoryExtends(q: Quota, hourMade: real, dayMade: real, rs: seq<QC.Request>, v: Verdict, at: Readings)
    requires ValidQuota(q) && KeepsAll(q, hourMade, dayMade, rs)
    requires v.Allowed? ==> Refusal(QC.CounterAfter(hourMade, dayMade, rs), q, at.counted).None?
    ensures KeepsAll(q, hourMade, dayMade, rs + RequestsOf(v, at))
  {
    hide KeepsAll, ValidQuota, Refusal;
    var first, second, third := QC.Request(at.counted, v.Allowed?), QC.Request(at.hourly, false), QC.Request(at.daily, false);
    BothExtend(q, hourMade, dayMade, rs, first);
    BothExtend(q, hourMade, dayMade, rs + [first], second);
    BothExtend(q, hourMade, dayMade, rs + [first] + [second], third);
    assert rs + [first] + [second] + [third] == rs + RequestsOf(v, at);
  }

  /** What a decision says of the quotas and of the traffic rule. */
  ghost predicate Justified(v: Verdict, q: Quota, counter: QC.Counter, takes: seq<TB.Take>, tokens: int, at: Readings) {
    match v
    case QuotaExceeded(why) => Refusal(counter, q, at.counted) == Some(why)
    case RateLimited => Refusal(counter, q, at.counted).None? && !TB.Conforms(q.rate, q.burst, takes, at.taken, tokens as real)
    case Allowed => Refusal(counter, q, at.counted).None? && TB.Conforms(q.rate, q.burst, takes, at.taken, tokens as real)
  }

  /** What a decision leaves on record with the bucket. */
  function TakesOf(v: Verdict, tokens: int, at: Readings): seq<TB.Take> {
    (if v.QuotaExceeded? then [] else [TB.Take(at.taken, tokens, v.Allowed?)]) + [TB.Take(at.left, 0, false)]
  }

  /** ... and with the counter: only an allowed request counts. */
  function RequestsOf(v: Verdict, at: Readings): seq<QC.Request> {
    [QC.Request(at.counted, v.Allowed?), QC.Request(at.hourly, false), QC.Request(at.daily, false)]
  }

  ghost predicate Decided(v: Verdict, config: Config, namespace: string, counter: QC.Counter, takes: seq<TB.Take>, tokens: int,
    at: Readings)
  {
    exists q :: Governs(config, namespace, Some(q)) && Justified(v, q, counter, takes, tokens, at)
  }

  /** The ruling of the quota that governs a namespace. */
  ghost predicate RuledBy(config: Config, namespace: string, s: Option<Standing>, tokens: int, at: Readings, r: Ruling) {
    exists q :: Governs(config, namespace, Some(q)) && ValidQuota(q) && r == Ruled(q, s, tokens, at)
  }

  ghost predicate Separate<T>(m: map<string, T>) {
    forall j, k | j in m && k in m && j != k :: m[j] != m[k]
  }

  lemma SeparateGrows<T>(m: map<string, T>, k: string, v: T)
    requires Separate(m) && v !in m.Values
    ensures Separate(m[k := v])
  {
  }

  class RateLimitEnforcer {
    const config: Config
    var buckets: map<string, TB.TokenBucket>
    var counters: map<string, QC.QuotaCounter>
    ghost var latest: real

    ghost predicate Serves(namespace: string)
      requires namespace in buckets && namespace in counters
      reads this, buckets[namespace], counters[namespace]
    {
      ServesUntil(namespace, latest)
    }

    /** Every namespace has its own bucket and counter, which have kept to its quota. */
    ghost predicate Valid()
      reads this, buckets.Values, counters.Values
    {
      && ValidConfig(config) && buckets.Keys == counters.Keys && Separate(buckets) && Separate(counters)
      && forall n | n in buckets :: Serves(n)
    }

    constructor (config: Config, now: real)
      requires ValidConfig(config)
      ensures Valid() && this.config == config && buckets == map[] && latest == now
    {
      this.config, latest := config, now;
      buckets, counters := map[], map[];
    }

    ghost function Own(namespace: string): set<object>
      reads this
    {
      (if namespace in buckets then {buckets[namespace] as object} else {})
      + if namespace in counters then {counters[namespace] as object} else {}
    }

    ghost function Takes(namespace: string, at: Readings): seq<TB.Take>
      reads this, Own(namespace)
    {
      if namespace in buckets then buckets[namespace].takes else [TB.Take(at.bucketMade, 0, false)]
    }

    ghost function Requests(namespace: string): seq<QC.Request>
      reads this, Own(namespace)
    {
      if namespace in counters then counters[namespace].requests else []
    }

    /** What a namespace has, once it has anything. */
    ghost function Now(namespace: string): Standing
      requires namespace in buckets && namespace in counters
      reads this, buckets[namespace], counters[namespace]
    {
      Standing(buckets[namespace].Value(), counters[namespace].Value())
    }

    ghost function StandingOf(namespace: string): Option<Standing>
      reads this, Own(namespace)
    {
      if namespace in buckets && namespace in counters then Some(Now(namespace)) else None
    }

    ghost function Usage(namespace: string, at: Readings): QC.Counter
      reads this, Own(namespace)
    {
      if namespace in counters then counters[namespace].Value()
      else QC.Counter(QC.Window(0, at.hourMade), QC.Window(0, at.dayMade))
    }

    /** Charges a request to the quotas, then to the bucket, and takes the charge back when
        the bucket turns it away. */
    static method Decide(q: Quota, b: TB.TokenBucket, c: QC.QuotaCounter, tokens: int, at: Readings) returns (verdict: Verdict)
      requires Ordered(at, at.bucketMade) && Kept(q, b, c, at.dayMade)
      modifies b, c
      ensures b.Valid() && c.Valid() && b.last <= at.taken && c.latest <= at.counted
      ensures Justified(verdict, q, old(c.Value()), old(b.takes), tokens, at)
      ensures b.takes == old(b.takes) + if verdict.QuotaExceeded? then [] else [TB.Take(at.taken, tokens, verdict.Allowed?)]
      ensures c.requests == old(c.requests) + [QC.Request(at.counted, verdict.Allowed?)]
      ensures var refusal := Refusal(old(c.Value()), q, at.counted);
        var full := TB.Refilled(q.rate, q.burst, old(b.Value()), at.taken);
        var rolled := QC.Reset(old(c.Value()), at.counted);
        && verdict == (if refusal.Some? then QuotaExceeded(refusal.value) else if full.tokens >= tokens as real then Allowed else RateLimited)
        && b.Value() == (if refusal.Some? then old(b.Value()) else if verdict.Allowed? then full.(tokens := full.tokens - tokens as real) else full)
        && c.Value() == (if verdict.Allowed? then QC.Counting(rolled) else rolled)
    {
      hide TB.Conforms, TB.TokenBucket.Valid, QC.QuotaCounter.Valid, ValidQuota, KeepsAll, QC.Reset, TB.Refilled, QC.Refused, QC.AtQuota;
      var refused := c.CheckAndIncrement(q.hourly, q.daily, at.counted);
      if refused.Some? { return QuotaExceeded(refused.value); }
      var granted := b.Consume(tokens, at.taken);
      verdict := Allowed;
      if !granted {
        verdict := RateLimited;
        c.Decrement();
      }
    }

    /** Decides a request and reads off what is reported of it. */
    static method Charge(q: Quota, b: TB.TokenBucket, c: QC.QuotaCounter, tokens: int, at: Readings) returns (d: Decision)
      requires Ordered(at, at.bucketMade) && Kept(q, b, c, at.dayMade)
      modifies b, c
      ensures Kept(q, b, c, at.daily)
      ensures Justified(d.verdict, q, old(c.Value()), old(b.takes), tokens, at)
      ensures b.takes == old(b.takes) + TakesOf(d.verdict, tokens, at)
      ensures c.requests == old(c.requests) + RequestsOf(d.verdict, at)
      ensures Ruling(d, Standing(b.Value(), c.Value())) == Ruled(q, Some(Standing(old(b.Value()), old(c.Value()))), tokens, at)
    {
      hide TB.TokenBucket.Valid, QC.QuotaCounter.Valid, ValidQuota, KeepsAll, QC.Rolled, TB.Refilled, Refusal, QC.Counting, TB.Level;
      CounterIsItsHistory(c);
      ghost var rs, counter := c.requests, c.Value();
      var verdict := Decide(q, b, c, tokens, at);
      assert verdict.Allowed? ==> Refusal(counter, q, at.counted).None?;
      hide Justified;
      HistoryExtends(q, c.hourMade, c.dayMade, rs, verdict, at);
      var left := b.Available(at.left);
      var hourly, _ := c.Usage(at.hourly);
      var _, daily := c.Usage(at.daily);
      assert c.requests == rs + RequestsOf(verdict, at);
      d := Decision(verdict, left, hourly, daily);
    }

    /** Gives a new namespace its bucket and counter. */
    method Create(namespace: string, q: Quota, at: Readings)
      requires Valid() && namespace !in buckets && Ordered(at, latest) && Governs(config, namespace, Some(q)) && ValidQuota(q)
      modifies this
      ensures Valid() && latest == at.dayMade
      ensures namespace in buckets && buckets == old(buckets)[namespace := buckets[namespace]] && fresh(buckets[namespace])
      ensures namespace in counters && counters == old(counters)[namespace := counters[namespace]] && fresh(counters[namespace])
      ensures Kept(q, buckets[namespace], counters[namespace], latest)
      ensures buckets[namespace].takes == [TB.Take(at.bucketMade, 0, false)]
      ensures counters[namespace].requests == []
      ensures Now(namespace) == Opened(q, None, at)
    {
      hide ValidConfig, Governs, Kept, TB.TokenBucket.Valid, QC.QuotaCounter.Valid, ValidQuota, Separate;
      QuotaIsPositive(q);
      StillServes(at.dayMade);
      latest := at.dayMade;
      var b := new TB.TokenBucket(q.rate, q.burst, at.bucketMade);
      var c := new QC.QuotaCounter(at.hourMade, at.dayMade);
      FreshIsKept(q, b, c, at.dayMade);
      SeparateGrows(buckets, namespace, b);
      SeparateGrows(counters, namespace, c);
      buckets, counters := buckets[namespace := b], counters[namespace := c];
      assert ServesUntil(namespace, latest);
      hide ServesUntil;
      forall n | n in buckets ensures Serves(n) {
        if n != namespace { assert old(ServesUntil(n, at.dayMade)); }
      }
    }

    /** Gives a namespace a bucket and a counter unless it has them. */
    method Acquire(namespace: string, q: Quota, at: Readings)
      requires Valid() && Ordered(at, latest) && Governs(config, namespace, Some(q)) && ValidQuota(q)
      modifies this
      ensures Valid() && latest == at.dayMade
      ensures namespace in buckets && buckets == old(buckets)[namespace := buckets[namespace]]
      ensures namespace in counters && counters == old(counters)[namespace := counters[namespace]]
      ensures namespace in old(buckets) ==> buckets == old(buckets) && counters == old(counters)
      ensures namespace !in old(buckets) ==> fresh(buckets[namespace]) && fresh(counters[namespace])
      ensures Kept(q, buckets[namespace], counters[namespace], latest)
      ensures buckets[namespace].takes == old(Takes(namespace, at))
      ensures counters[namespace].requests == old(Requests(namespace))
      ensures Now(namespace) == Opened(q, old(StandingOf(namespace)), at) && counters[namespace].Value() == old(Usage(namespace, at))
    {
      hide ValidConfig, Governs, Kept, ValidQuota, Separate;
      if namespace in buckets {
        ServesWell(namespace, q);
        StillServes(at.dayMade);
        KeptIsKept(q, buckets[namespace], counters[namespace], latest, at.dayMade);
        latest := at.dayMade;
        assert buckets[namespace := buckets[namespace]] == buckets && counters[namespace := counters[namespace]] == counters;
      } else {
        Create(namespace, q, at);
      }
    }

    /** Charges a request to a namespace's own bucket and counter, and touches no other. */
    method Serve(namespace: string, q: Quota, tokens: int, at: Readings) returns (d: Decision)
      requires Valid() && namespace in buckets && latest == at.dayMade && Ordered(at, at.bucketMade)
      requires Governs(config, namespace, Some(q)) && Kept(q, buckets[namespace], counters[namespace], latest)
      modifies this`latest, buckets[namespace], counters[namespace]
      ensures Valid() && latest == at.daily
      ensures Justified(d.verdict, q, old(counters[namespace].Value()), old(buckets[namespace].takes), tokens, at)
      ensures buckets[namespace].takes == old(buckets[namespace].takes) + TakesOf(d.verdict, tokens, at)
      ensures counters[namespace].requests == old(counters[namespace].requests) + RequestsOf(d.verdict, at)
      ensures Ruling(d, Now(namespace)) == Ruled(q, Some(old(Now(namespace))), tokens, at)
    {
      hide ValidConfig, Governs, ValidQuota, Kept, Justified, Ruled, Separate, TakesOf, RequestsOf;
      StillServes(at.daily);
      var b, c := buckets[namespace], counters[namespace];
      d := Charge(q, b, c, tokens, at);
      assert forall n | n in buckets && n != namespace :: buckets[n] != b && counters[n] != c by { Others(namespace); }
      forall n | n in buckets ensures ServesUntil(n, at.daily) {
        if n != namespace { assert old(ServesUntil(n, at.daily)); }
      }
      latest := at.daily;
    }

    /** Decides one request. A namespace whose quota is invalid raises; any other decision is
        justified by the namespace's own history, which it extends, and touches no other. */
    method Check(namespace: string, tokens: int, at: Readings) returns (d: Option<Decision>)
      requires Valid() && Ordered(at, latest)
      modifies this, Own(namespace)
      ensures Valid()
      ensures d.None? ==> Governs(config, namespace, None) && unchanged(this)
      ensures d.Some? ==> namespace in buckets && buckets == old(buckets)[namespace := buckets[namespace]]
      ensures d.Some? ==> namespace in counters && counters == old(counters)[namespace := counters[namespace]]
      ensures d.Some? ==> Decided(d.value.verdict, config, namespace, old(Usage(namespace, at)), old(Takes(namespace, at)), tokens, at)
      ensures d.Some? ==> buckets[namespace].takes == old(Takes(namespace, at)) + TakesOf(d.value.verdict, tokens, at)
      ensures d.Some? ==> counters[namespace].requests == old(Requests(namespace)) + RequestsOf(d.value.verdict, at)
      ensures d.Some? ==> latest == at.daily
      ensures fresh(Own(namespace) - old(Own(namespace)))
      ensures d.Some? ==> RuledBy(config, namespace, old(StandingOf(namespace)), tokens, at, Ruling(d.value, Now(namespace)))
    {
      hide ValidConfig, Governs, ValidQuota, Kept, Justified, Ruled, Separate, TakesOf, RequestsOf, Valid, Takes, Requests, Usage, Opened;
      assert ValidConfig(config) by { ConfigIsValid(); }
      var quota := GetQuota(config, namespace);
      if quota.None? { return None; }
      OpenedFirst(quota.value, StandingOf(namespace), tokens, at);
      Acquire(namespace, quota.value, at);
      var decision := Serve(namespace, quota.value, tokens, at);
      d := Some(decision);
    }

    /** A sequence of checks on a namespace is told what its standing says. */
    method CheckAll(namespace: string, ghost q: Quota, calls: seq<Call>) returns (ds: seq<Decision>)
      requires Valid() && InOrder(latest, calls) && Governs(config, namespace, Some(q))
      modifies this, Own(namespace)
      ensures Valid() && ds == Told(q, old(StandingOf(namespace)), calls)
      ensures fresh(Own(namespace) - old(Own(namespace)))
      decreases |calls|
    {
      hide Governs, Valid, Ruled, RuledBy;
      if calls == [] { return []; }
      ghost var before := StandingOf(namespace);
      var d := Check(namespace, calls[0].tokens, calls[0].at);
      if d.None? { OneQuotaGoverns(config, namespace, None, Some(q)); }
      RulingIsOne(config, namespace, q, before, calls[0].tokens, calls[0].at, Ruling(d.value, Now(namespace)));
      var rest := CheckAll(namespace, q, calls[1..]);
      ds := [d.value] + rest;
    }

    lemma ConfigIsValid()
      requires Valid()
      ensures ValidConfig(config)
    {
    }

    ghost predicate ServesUntil(namespace: string, later: real)
      requires namespace in buckets && namespace in counters
      reads this, buckets[namespace], counters[namespace]
    {
      exists q :: Governs(config, namespace, Some(q)) && Kept(q, buckets[namespace], counters[namespace], later)
    }

    /** Serving does not wear off. */
    lemma StillServes(later: real)
      requires latest <= later && buckets.Keys == counters.Keys && forall n | n in buckets :: Serves(n)
      ensures forall n | n in buckets :: ServesUntil(n, later)
    {
      hide Governs, Kept;
      forall n | n in buckets ensures ServesUntil(n, later) {
        assert Serves(n);
        var q :| Governs(config, n, Some(q)) && Kept(q, buckets[n], counters[n], latest);
        KeptIsKept(q, buckets[n], counters[n], latest, later);
      }
    }

    lemma Others(namespace: string)
      requires buckets.Keys == counters.Keys && namespace in buckets && Separate(buckets) && Separate(counters)
      ensures forall n | n in buckets && n != namespace :: buckets[n] != buckets[namespace] && counters[n] != counters[namespace]
    {
    }

    lemma ServesWell(namespace: string, q: Quota)
      requires Valid() && Governs(config, namespace, Some(q))
      ensures namespace in buckets ==> Kept(q, buckets[namespace], counters[namespace], latest)
    {
      hide Governs, Kept;
      if namespace in buckets {
        assert Serves(namespace);
        var p :| Governs(config, namespace, Some(p)) && Kept(p, buckets[namespace], counters[namespace], latest);
        OneQuotaGoverns(config, namespace, Some(p), Some(q));
      }
    }
  }

  /** Over every run of checks: the tokens a namespace was given in any interval of length d
      are at most burst + rate * d. */
  lemma {:induction false} TokensAreBounded(e: RateLimitEnforcer, namespace: string, q: Quota, i: nat, j: nat)
    requires e.Valid() && namespace in e.buckets && Governs(e.config, namespace, Some(q))
    requires i <= j < |e.buckets[namespace].takes|
    ensures var takes := e.buckets[namespace].takes;
      TB.Spent(takes[..j + 1], i) as real <= q.burst as real + (takes[j].time - takes[i].time) * q.rate
  {
    hide Governs, QC.QuotaCounter.Valid, RateLimitEnforcer.Valid, ValidQuota, TB.Spent, TB.Lawful, TB.Sorted;
    e.ServesWell(namespace, q);
    TB.RateIsBounded(q.rate, q.burst, e.buckets[namespace].takes, i, j);
  }

  /** ... a window never counts more requests than its quota, and an interval shorter than an
      hour or a day at most twice the quota. */
  lemma {:induction false} RequestsAreBounded(e: RateLimitEnforcer, namespace: string, q: Quota, i: nat, j: nat)
    requires e.Valid() && namespace in e.buckets && Governs(e.config, namespace, Some(q))
    requires i < j <= |e.counters[namespace].requests|
    ensures var c := e.counters[namespace];
      && (q.hourly > 0 ==> c.hourlyCount <= q.hourly)
      && (q.daily > 0 ==> c.dailyCount <= q.daily)
      && (q.hourly > 0 && c.requests[j - 1].time - c.requests[i].time < QC.HOUR ==> QC.Counted(c.requests, i, j) <= 2 * q.hourly)
      && (q.daily > 0 && c.requests[j - 1].time - c.requests[i].time < QC.DAY ==> QC.Counted(c.requests, i, j) <= 2 * q.daily)
  {
    var c := e.counters[namespace];
    hide Governs, TB.TokenBucket.Valid, RateLimitEnforcer.Valid, QC.Counted, QC.Keeps, QC.Sorted;
    e.ServesWell(namespace, q);
    if q.hourly > 0 { PeriodIsBounded(QC.HOUR, q.hourly, c.hourMade, c.requests, i, j); }
    if q.daily > 0 { PeriodIsBounded(QC.DAY, q.daily, c.dayMade, c.requests, i, j); }
  }

  lemma {:induction false} PeriodIsBounded(period: real, quota: int, made: real, rs: seq<QC.Request>, i: nat, j: nat)
    requires period > 0.0 && quota > 0 && QC.Sorted(rs, made) && QC.Keeps(period, quota, made, rs) && i < j <= |rs|
    ensures QC.WindowAfter(period, made, rs).count <= quota
    ensures rs[j - 1].time - rs[i].time < period ==> QC.Counted(rs, i, j) <= 2 * quota
  {
    hide QC.Counted, QC.Keeps, QC.Sorted;
    QC.WindowWithinQuota(period, quota, made, rs);
    QC.KeepsPrefix(period, quota, made, rs, j);
    QC.CountedOfPrefix(rs, j, i, j);
    if rs[j - 1].time - rs[i].time < period { QC.ShortIntervalWithinTwice(period, quota, made, rs[..j], i); }
  }

  /** Keeping to a quota does not wear off. */
  lemma KeptIsKept(q: Quota, b: TB.TokenBucket, c: QC.QuotaCounter, sooner: real, later: real)
    requires Kept(q, b, c, sooner) && sooner <= later
    ensures Kept(q, b, c, later)
  {
  }

  lemma RulingIsOne(config: Config, namespace: string, q: Quota, s: Option<Standing>, tokens: int, at: Readings, r: Ruling)
    requires Governs(config, namespace, Some(q)) && RuledBy(config, namespace, s, tokens, at, r)
    ensures r == Ruled(q, s, tokens, at)
  {
    hide Governs, Ruled;
    var p :| Governs(config, namespace, Some(p)) && r == Ruled(p, s, tokens, at);
    OneQuotaGoverns(config, namespace, Some(p), Some(q));
  }

  /** When the windows of a namespace's counter were made: by the check, if it is its first. */
  ghost function HourMade(e: RateLimitEnforcer, namespace: string, at: Readings): real
    reads e, e.Own(namespace)
  {
    if namespace in e.counters then e.counters[namespace].hourMade else at.hourMade
  }

  ghost function DayMade(e: RateLimitEnforcer, namespace: string, at: Readings): real
    reads e, e.Own(namespace)
  {
    if namespace in e.counters then e.counters[namespace].dayMade else at.dayMade
  }

  /** What a check starts from is what the namespace's own history leaves. */
  lemma StandingIsHistory(e: RateLimitEnforcer, namespace: string, q: Quota, at: Readings)
    requires e.Valid() && Governs(e.config, namespace, Some(q)) && ValidQuota(q) && Ordered(at, e.latest)
    ensures var hourMade, dayMade := HourMade(e, namespace, at), DayMade(e, namespace, at);
      var takes, rs := e.Takes(namespace, at), e.Requests(namespace);
      Histories(q, hourMade, dayMade, takes, rs, at.dayMade)
      && Opened(q, e.StandingOf(namespace), at) == StandingAfter(q, hourMade, dayMade, takes, rs)
  {
    hide Governs, TB.Lawful, TB.Sorted, TB.Level, QC.Sorted, KeepsAll, ValidQuota;
    QuotaIsPositive(q);
    if namespace in e.buckets {
      e.ServesWell(namespace, q);
    } else {
      NewHistories(q, at);
    }
  }

  lemma NewHistories(q: Quota, at: Readings)
    requires ValidQuota(q) && Ordered(at, at.bucketMade)
    ensures Histories(q, at.hourMade, at.dayMade, [TB.Take(at.bucketMade, 0, false)], [], at.dayMade)
    ensures Opened(q, None, at) == StandingAfter(q, at.hourMade, at.dayMade, [TB.Take(at.bucketMade, 0, false)], [])
  {
  }

  /** Over every run of checks: a request is refused if and only if its namespace's quota for
      the hour, or else for the day, had been used up since that window opened; any other is
      allowed if and only if no interval up to it would get more than burst + rate * d tokens. */
  lemma {:induction false} CheckIsExact(e: RateLimitEnforcer, namespace: string, q: Quota, tokens: int, at: Readings)
    requires e.Valid() && Governs(e.config, namespace, Some(q)) && ValidQuota(q) && Ordered(at, e.latest)
    ensures var takes, all := e.Takes(namespace, at), e.Requests(namespace) + [QC.Request(at.counted, false)];
      var hour := QC.Counted(all, QC.Opening(QC.HOUR, HourMade(e, namespace, at), all), |all|);
      var day := QC.Counted(all, QC.Opening(QC.DAY, DayMade(e, namespace, at), all), |all|);
      Ruled(q, e.StandingOf(namespace), tokens, at).decision.verdict
      == if q.hourly > 0 && hour >= q.hourly then QuotaExceeded(QC.HourlyExceeded)
         else if q.daily > 0 && day >= q.daily then QuotaExceeded(QC.DailyExceeded)
         else if tokens <= q.burst && forall i | 0 <= i < |takes| ::
           TB.Spent(takes, i) as real + tokens as real <= q.burst as real + (at.taken - takes[i].time) * q.rate then Allowed
         else RateLimited
  {
    hide Governs, ValidQuota, RateLimitEnforcer.Valid, Histories, StandingAfter, Ruled, Opened, QC.Counted, QC.Opening, TB.Spent;
    StandingIsHistory(e, namespace, q, at);
    OpenedFirst(q, e.StandingOf(namespace), tokens, at);
    VerdictIsExact(q, HourMade(e, namespace, at), DayMade(e, namespace, at), e.Takes(namespace, at), e.Requests(namespace), tokens, at);
  }

  /** ... and reports the most the namespace could still be given, and what it had counted,
      the request included, in the windows open when the use is read. */
  lemma {:induction false} CheckReportsExactly(e: RateLimitEnforcer, namespace: string, q: Quota, tokens: int, at: Readings, n: real)
    requires e.Valid() && Governs(e.config, namespace, Some(q)) && ValidQuota(q) && Ordered(at, e.latest)
    ensures var d := Ruled(q, e.StandingOf(namespace), tokens, at).decision;
      var takes := e.Takes(namespace, at);
      var spent := if d.verdict.QuotaExceeded? then takes else takes + [TB.Take(at.taken, tokens, d.verdict.Allowed?)];
      var hour := e.Requests(namespace) + [QC.Request(at.counted, d.verdict.Allowed?), QC.Request(at.hourly, false)];
      var day := hour + [QC.Request(at.daily, false)];
      && (n <= d.tokensLeft <==> n <= q.burst as real && forall i | 0 <= i < |spent| ::
           TB.Spent(spent, i) as real + n <= q.burst as real + (at.left - spent[i].time) * q.rate)
      && d.hourlyUsed == QC.Counted(hour, QC.Opening(QC.HOUR, HourMade(e, namespace, at), hour), |hour|)
      && d.dailyUsed == QC.Counted(day, QC.Opening(QC.DAY, DayMade(e, namespace, at), day), |day|)
  {
    hide Governs, ValidQuota, RateLimitEnforcer.Valid, Histories, StandingAfter, Ruled, Opened, QC.Counted, QC.Opening, TB.Spent;
    StandingIsHistory(e, namespace, q, at);
    OpenedFirst(q, e.StandingOf(namespace), tokens, at);
    ReportIsExact(q, HourMade(e, namespace, at), DayMade(e, namespace, at), e.Takes(namespace, at), e.Requests(namespace), tokens, at, n);
  }

  /** What a namespace has in a running enforcer meets the assumptions under which a turned
      away request goes unnoticed exactly when no window had run out. */
  lemma StandingIsSettled(e: RateLimitEnforcer, namespace: string)
    requires e.Valid()
    ensures Settled(e.StandingOf(namespace), e.latest)
  {
    hide Governs, ValidQuota;
    if namespace in e.buckets {
      assert e.Serves(namespace);
      var q :| Governs(e.config, namespace, Some(q)) && Kept(q, e.buckets[namespace], e.counters[namespace], e.latest);
      var c := e.counters[namespace];
      QC.CountsAreNatural(QC.HOUR, c.hourMade, c.requests);
      QC.CountsAreNatural(QC.DAY, c.dayMade, c.requests);
    }
  }

  /** A check of a running enforcer that the bucket turns away is invisible to every later
      sequence of checks exactly when its namespace had a counter and no window of it had run
      out by the last reading. */
  lemma {:induction false} RefusalIsUnnoticed(e: RateLimitEnforcer, namespace: string, q: Quota, tokens: int, at: Readings)
    requires e.Valid() && Governs(e.config, namespace, Some(q)) && ValidQuota(q) && Ordered(at, e.latest)
    requires Ruled(q, e.StandingOf(namespace), tokens, at).decision.verdict.RateLimited?
    ensures var s := e.StandingOf(namespace);
      Unnoticed(q, s, tokens, at) <==> namespace in e.counters && !Crosses(s.value.counter, at.daily)
  {
    hide Governs, ValidQuota, Ruled, Unnoticed, Crosses;
    assert e.buckets.Keys == e.counters.Keys;
    StandingIsSettled(e, namespace);
    TurnedAwayIsUnnoticed(q, e.StandingOf(namespace), tokens, at);
  }

  lemma QuotaIsPositive(q: Quota)
    requires ValidQuota(q)
    ensures q.rate > 0.0 && q.burst >= 1 && q.hourly >= 0 && q.daily >= 0
  {
  }

  lemma FreshIsKept(q: Quota, b: TB.TokenBucket, c: QC.QuotaCounter, latest: real)
    requires ValidQuota(q) && b.rate == q.rate && b.burst == q.burst && b.Valid() && b.last <= latest
    requires c.Valid() && c.latest <= latest && c.requests == []
    ensures Kept(q, b, c, latest)
  {
  }
}
