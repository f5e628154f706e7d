/** How one request of a namespace is decided, as a value: the quotas are charged first, then
    the bucket, and a request the bucket turns away is taken off the quotas again. */
module Admission {
  import opened Prelude
  import TB = TokenBuckets
  import QC = QuotaCounters

  datatype Quota = Quota(namespace: string, rate: real, burst: int, hourly: int, daily: int)

  /** White space as the name check sees it. */
  predicate IsSpace(c: char) {
    var n := c as int;
    || 9 <= n <= 13 || 28 <= n <= 32 || n == 0x85 || n == 0xa0 || n == 0x1680 || 0x2000 <= n <= 0x200a
    || n == 0x2028 || n == 0x2029 || n == 0x202f || n == 0x205f || n == 0x3000
  }

  lemma {:induction false} SpacesAre(c: char)
    ensures IsSpace(c) <==> c as int in {
      0x09, 0x0a, 0x0b, 0x0c, 0x0d, 0x1c, 0x1d, 0x1e, 0x1f, 0x20, 0x85, 0xa0, 0x1680, 0x2000, 0x2001, 0x2002, 0x2003, 0x2004, 0x2005,
      0x2006, 0x2007, 0x2008, 0x2009, 0x200a, 0x2028, 0x2029, 0x202f, 0x205f, 0x3000}
  {
  }

  predicate ValidQuota(q: Quota) {
    && (exists i :: 0 <= i < |q.namespace| && !IsSpace(q.namespace[i]))
    && q.rate > 0.0 && q.burst >= 1 && q.hourly >= 0 && q.daily >= 0
    && !(q.hourly > 0 && q.daily > 0 && q.hourly > q.daily)
  }

  datatype Verdict = Allowed | RateLimited | QuotaExceeded(why: QC.Refusal)

  datatype Decision = Decision(verdict: Verdict, tokensLeft: real, hourlyUsed: int, dailyUsed: int)

  /** The clock readings one check takes, in order. */
  datatype Readings = Readings(bucketMade: real, hourMade: real, dayMade: real, counted: real, taken: real, left: real,
                               hourly: real, daily: real)

  predicate Ordered(at: Readings, since: real) {
    since <= at.bucketMade <= at.hourMade <= at.dayMade <= at.counted <= at.taken <= at.left <= at.hourly <= at.daily
  }

  /** Whether a namespace's quotas refuse a request at a moment. */
  function Refusal(c: QC.Counter, q: Quota, now: real): Option<QC.Refusal> {
    QC.Refused(QC.Reset(c, now), q.hourly, q.daily)
  }

  /** What a namespace has: its bucket and its counter. */
  datatype Standing = Standing(bucket: TB.Bucket, counter: QC.Counter)

  /** The first request of a namespace creates both, its windows opening at once. */
  function Opened(q: Quota, s: Option<Standing>, at: Readings): Standing {
    if s.Some? then s.value
    else Standing(TB.Bucket(q.burst as real, at.bucketMade),
                  QC.Counter(QC.Window(0, at.hourMade), QC.Window(0, at.dayMade)))
  }

  datatype Ruling = Ruling(decision: Decision, standing: Standing)

  /** What is decided, and what the namespace has afterwards. Reading the use that is reported
      moves windows that have run out, too. */
  function Ruled(q: Quota, s: Option<Standing>, tokens: int, at: Readings): Ruling {
    var before := Opened(q, s, at);
    var refusal := Refusal(before.counter, q, at.counted);
    var full := TB.Refilled(q.rate, q.burst, before.bucket, at.taken);
    var verdict := if refusal.Some? then QuotaExceeded(refusal.value) else if full.tokens >= tokens as real then Allowed else RateLimited;
    var bucket :=
      match verdict
      case QuotaExceeded(_) => before.bucket
      case RateLimited => full
      case Allowed => full.(tokens := full.tokens - tokens as real);
    var left := TB.Refilled(q.rate, q.burst, bucket, at.left);
    var rolled := QC.Reset(before.counter, at.counted);
    var charged := if verdict.Allowed? then QC.Counting(rolled) else rolled;
    var hourly := QC.Reset(charged, at.hourly);
    var daily := QC.Reset(hourly, at.daily);
    Ruling(Decision(verdict, left.tokens, hourly.hour.count, daily.day.count), Standing(left, daily))
  }

  /** What a namespace has after these takes and requests. */
  function StandingAfter(q: Quota, hourMade: real, dayMade: real, takes: seq<TB.Take>, rs: seq<QC.Request>): Standing
    requires takes != []
  {
    Standing(TB.Bucket(TB.Left(q.rate, q.burst, takes), takes[|takes| - 1].time), QC.CounterAfter(hourMade, dayMade, rs))
  }

  /** Histories that a check may extend from a moment on. */
  ghost predicate Histories(q: Quota, hourMade: real, dayMade: real, takes: seq<TB.Take>, rs: seq<QC.Request>, now: real) {
    && q.rate > 0.0 && q.burst >= 1
    && takes != [] && TB.Left(q.rate, q.burst, takes) >= 0.0 && takes[|takes| - 1].time <= now
    && QC.Sorted(rs, hourMade) && QC.Sorted(rs, dayMade) && QC.EndsBy(rs, hourMade, now) && QC.EndsBy(rs, dayMade, now)
  }

  /** A request is refused exactly at a quota; else it is allowed exactly when no interval
      would get more than burst + rate * d tokens. */
  lemma {:induction false} VerdictIsExact(q: Quota, hourMade: real, dayMade: real, takes: seq<TB.Take>,
    rs: seq<QC.Request>, tokens: int, at: Readings)
    requires Ordered(at, at.bucketMade) && Histories(q, hourMade, dayMade, takes, rs, at.dayMade)
    ensures var all := rs + [QC.Request(at.counted, false)];
      var hour := QC.Counted(all, QC.Opening(QC.HOUR, hourMade, all), |all|);
      var day := QC.Counted(all, QC.Opening(QC.DAY, dayMade, all), |all|);
      Ruled(q, Some(StandingAfter(q, hourMade, dayMade, takes, rs)), tokens, at).decision.verdict
      == if q.hourly > 0 && hour >= q.hourly then QuotaExceeded(QC.HourlyExceeded)
         else if q.daily > 0 && day >= q.daily then QuotaExceeded(QC.DailyExceeded)
         else if tokens <= q.burst && forall i | 0 <= i < |takes| ::
           TB.Spent(takes, i) as real + tokens as real <= q.burst as real + (at.taken - takes[i].time) * q.rate then Allowed
         else RateLimited
  {
    hide QC.Sorted, QC.Opening, QC.Counted, QC.WindowAfter, QC.Rolled, QC.Reset, QC.Refused, TB.Spent, TB.Level, TB.Left, TB.Conforms, TB.Refill;
    QC.RefusedExactly(hourMade, dayMade, rs, q.hourly, q.daily, at.counted);
    TB.ConformsMeans(q.rate, q.burst, takes, at.taken, tokens as real);
    TB.LevelIsWhatTheRuleLeaves(q.rate, q.burst, takes, at.taken, tokens as real);
    RefilledIsLevel(q, takes, at.taken);
  }

  /** The reported rest is the most that could still be given, the reported use what was
      counted, this request included, since the windows at the time of reporting opened. */
  lemma {:induction false} ReportIsExact(q: Quota, hourMade: real, dayMade: real, takes: seq<TB.Take>,
    rs: seq<QC.Request>, tokens: int, at: Readings, n: real)
    requires Ordered(at, at.bucketMade) && Histories(q, hourMade, dayMade, takes, rs, at.dayMade)
    ensures var d := Ruled(q, Some(StandingAfter(q, hourMade, dayMade, takes, rs)), tokens, at).decision;
      var spent := if d.verdict.QuotaExceeded? then takes else takes + [TB.Take(at.taken, tokens, d.verdict.Allowed?)];
      var hour := rs + [QC.Request(at.counted, d.verdict.Allowed?), QC.Request(at.hourly, false)];
      var day := hour + [QC.Request(at.daily, false)];
      && (n <= d.tokensLeft <==> n <= q.burst as real && forall i | 0 <= i < |spent| ::
           TB.Spent(spent, i) as real + n <= q.burst as real + (at.left - spent[i].time) * q.rate)
      && d.hourlyUsed == QC.Counted(hour, QC.Opening(QC.HOUR, hourMade, hour), |hour|)
      && d.dailyUsed == QC.Counted(day, QC.Opening(QC.DAY, dayMade, day), |day|)
  {
    hide QC.Sorted, QC.Opening, QC.Counted, QC.WindowAfter, QC.Rolled, TB.Spent, TB.Level, TB.Left, TB.Conforms, TB.Refill, Ruled;
    var d := Ruled(q, Some(StandingAfter(q, hourMade, dayMade, takes, rs)), tokens, at).decision;
    LeftIsLevel(q, hourMade, dayMade, takes, rs, tokens, at);
    var spent := if d.verdict.QuotaExceeded? then takes else takes + [TB.Take(at.taken, tokens, d.verdict.Allowed?)];
    TB.LevelIsWhatTheRuleLeaves(q.rate, q.burst, spent, at.left, n);
    TB.ConformsMeans(q.rate, q.burst, spent, at.left, n);
    UseIsCounted(q, hourMade, dayMade, takes, rs, tokens, at);
  }

  lemma {:induction false} LeftIsLevel(q: Quota, hourMade: real, dayMade: real, takes: seq<TB.Take>,
    rs: seq<QC.Request>, tokens: int, at: Readings)
    requires Ordered(at, at.bucketMade) && Histories(q, hourMade, dayMade, takes, rs, at.dayMade)
    ensures var d := Ruled(q, Some(StandingAfter(q, hourMade, dayMade, takes, rs)), tokens, at).decision;
      var spent := if d.verdict.QuotaExceeded? then takes else takes + [TB.Take(at.taken, tokens, d.verdict.Allowed?)];
      d.tokensLeft == TB.Level(q.rate, q.burst, spent, at.left)
  {
    hide TB.Level, TB.Refill, Refusal, QC.Reset, QC.CounterAfter;
    var d := Ruled(q, Some(StandingAfter(q, hourMade, dayMade, takes, rs)), tokens, at).decision;
    RefilledIsLevel(q, takes, at.left);
    if !d.verdict.QuotaExceeded? {
      var t := TB.Take(at.taken, tokens, d.verdict.Allowed?);
      assert (takes + [t])[..|takes|] == takes;
      RefilledIsLevel(q, takes, at.taken);
      RefilledIsLevel(q, takes + [t], at.left);
    }
  }

  lemma {:induction false} UseIsCounted(q: Quota, hourMade: real, dayMade: real, takes: seq<TB.Take>,
    rs: seq<QC.Request>, tokens: int, at: Readings)
    requires Ordered(at, at.bucketMade) && Histories(q, hourMade, dayMade, takes, rs, at.dayMade)
    ensures var d := Ruled(q, Some(StandingAfter(q, hourMade, dayMade, takes, rs)), tokens, at).decision;
      var hour := rs + [QC.Request(at.counted, d.verdict.Allowed?), QC.Request(at.hourly, false)];
      var day := hour + [QC.Request(at.daily, false)];
      && d.hourlyUsed == QC.Counted(hour, QC.Opening(QC.HOUR, hourMade, hour), |hour|)
      && d.dailyUsed == QC.Counted(day, QC.Opening(QC.DAY, dayMade, day), |day|)
  {
    hide TB.Refilled, TB.Left, QC.Sorted, QC.Opening, QC.Counted, QC.WindowAfter, QC.Reset, QC.EndsBy;
    var verdict := Ruled(q, Some(StandingAfter(q, hourMade, dayMade, takes, rs)), tokens, at).decision.verdict;
    var first, second, third := QC.Request(at.counted, verdict.Allowed?), QC.Request(at.hourly, false), QC.Request(at.daily, false);
    QC.Push(hourMade, dayMade, rs, first);
    QC.Push(hourMade, dayMade, rs + [first], second);
    QC.Push(hourMade, dayMade, rs + [first] + [second], third);
    assert rs + [first] + [second] == rs + [first, second];
    QC.CountIsWindowContent(QC.HOUR, hourMade, rs + [first] + [second]);
    QC.CountIsWindowContent(QC.DAY, dayMade, rs + [first] + [second] + [third]);
  }

  lemma {:induction false} RefilledIsLevel(q: Quota, takes: seq<TB.Take>, now: real)
    requires takes != [] && takes[|takes| - 1].time <= now
    ensures TB.Refilled(q.rate, q.burst, TB.Bucket(TB.Left(q.rate, q.burst, takes), takes[|takes| - 1].time), now).tokens
         == TB.Level(q.rate, q.burst, takes, now)
  {
    hide TB.Left, TB.Refill;
  }

  lemma OpenedFirst(q: Quota, s: Option<Standing>, tokens: int, at: Readings)
    ensures Ruled(q, s, tokens, at) == Ruled(q, Some(Opened(q, s, at)), tokens, at)
  {
    hide TB.Refilled, QC.Reset;
  }

  // ===== requests that are turned away by the bucket =====

  /** Some window of a counter has run out by a moment. */
  predicate Crosses(c: QC.Counter, now: real) { now - c.hour.start >= QC.HOUR || now - c.day.start >= QC.DAY }

  datatype Call = Call(tokens: int, at: Readings)

  /** Calls one after the other, from a moment on. */
  ghost predicate InOrder(since: real, calls: seq<Call>)
    decreases |calls|
  {
    calls == [] || (Ordered(calls[0].at, since) && InOrder(calls[0].at.daily, calls[1..]))
  }

  /** What the callers of a sequence of checks are told. */
  function Told(q: Quota, s: Option<Standing>, calls: seq<Call>): seq<Decision>
    decreases |calls|
  {
    if calls == [] then []
    else
      var r := Ruled(q, s, calls[0].tokens, calls[0].at);
      [r.decision] + Told(q, Some(r.standing), calls[1..])
  }

  /** No later sequence of checks tells that a check took place. */
  ghost predicate Unnoticed(q: Quota, s: Option<Standing>, tokens: int, at: Readings) {
    forall calls | InOrder(at.daily, calls) :: Told(q, Some(Ruled(q, s, tokens, at).standing), calls) == Told(q, s, calls)
  }

  /** Nothing in it lies beyond a moment, and no count or level is negative. */
  predicate Settled(s: Option<Standing>, now: real) {
    s.Some? ==>
      && s.value.bucket.tokens >= 0.0 && s.value.bucket.last <= now
      && s.value.counter.hour.count >= 0 && s.value.counter.day.count >= 0
  }

  // ----- when it goes unnoticed -----

  /** Two standings that no check from a moment on can tell apart. */
  ghost predicate Alike(q: Quota, x: Standing, y: Standing, since: real) {
    x.counter == y.counter && forall now | now >= since ::
      TB.Refilled(q.rate, q.burst, x.bucket, now) == TB.Refilled(q.rate, q.burst, y.bucket, now)
  }

  lemma {:induction false} AlikeIsTold(q: Quota, x: Standing, y: Standing, since: real, calls: seq<Call>)
    requires Alike(q, x, y, since) && InOrder(since, calls)
    ensures Told(q, Some(x), calls) == Told(q, Some(y), calls)
  {
    hide TB.Refilled, QC.Reset;
    if calls != [] {
      var at := calls[0].at;
      assert TB.Refilled(q.rate, q.burst, x.bucket, at.taken) == TB.Refilled(q.rate, q.burst, y.bucket, at.taken);
      assert TB.Refilled(q.rate, q.burst, x.bucket, at.left) == TB.Refilled(q.rate, q.burst, y.bucket, at.left);
      assert Ruled(q, Some(x), calls[0].tokens, at) == Ruled(q, Some(y), calls[0].tokens, at);
    }
  }

  lemma NotCrossed(c: QC.Counter, now: real, later: real)
    requires !Crosses(c, later) && now <= later
    ensures QC.Reset(c, now) == c
  {
  }

  /** A turned away request only refills the bucket, once at each reading. */
  lemma TurnedAwayIsAlike(q: Quota, s: Standing, tokens: int, at: Readings)
    requires ValidQuota(q) && Ordered(at, at.bucketMade) && Settled(Some(s), at.bucketMade)
    requires Ruled(q, Some(s), tokens, at).decision.verdict.RateLimited? && !Crosses(s.counter, at.daily)
    ensures Alike(q, Ruled(q, Some(s), tokens, at).standing, s, at.daily)
  {
    hide TB.Refilled, QC.Reset, ValidQuota, Crosses, Refusal;
    var after := Ruled(q, Some(s), tokens, at).standing;
    assert q.rate > 0.0 by { PositiveRate(q); }
    NotCrossed(s.counter, at.counted, at.daily);
    NotCrossed(s.counter, at.hourly, at.daily);
    NotCrossed(s.counter, at.daily, at.daily);
    TB.RefillingTwice(q.rate, q.burst, s.bucket, at.taken, at.left);
    assert after.bucket == TB.Refilled(q.rate, q.burst, s.bucket, at.left);
    forall now | now >= at.daily
      ensures TB.Refilled(q.rate, q.burst, after.bucket, now) == TB.Refilled(q.rate, q.burst, s.bucket, now)
    {
      TB.RefillingTwice(q.rate, q.burst, s.bucket, at.left, now);
    }
  }

  lemma PositiveRate(q: Quota)
    requires ValidQuota(q)
    ensures q.rate > 0.0 && q.burst >= 1 && q.hourly >= 0 && q.daily >= 0
  {
  }

  // ----- when it is noticed -----

  /** A check for no tokens whose readings all show one moment. */
  function Probe(now: real): Call { Call(0, Readings(now, now, now, now, now, now, now, now)) }

  predicate HasRoom(c: QC.Counter, q: Quota) { QC.Refused(c, q.hourly, q.daily).None? }

  /** The use a probe finds, before it is charged itself. */
  function Found(q: Quota, s: Option<Standing>, now: real): QC.Counter { QC.Reset(Opened(q, s, Probe(now).at).counter, now) }

  /** A probe is allowed exactly when the quotas have room, and reports the use it found and
      itself. */
  lemma ProbeReports(q: Quota, s: Option<Standing>, now: real)
    requires ValidQuota(q) && (s.Some? ==> s.value.bucket.tokens >= 0.0)
    ensures var r, c := Ruled(q, s, 0, Probe(now).at), Found(q, s, now);
      && (r.decision.verdict.Allowed? <==> HasRoom(c, q))
      && r.standing.counter == (if HasRoom(c, q) then QC.Counting(c) else c)
      && r.decision.hourlyUsed == r.standing.counter.hour.count && r.decision.dailyUsed == r.standing.counter.day.count
      && r.standing.bucket.tokens >= 0.0
  {
    hide TB.Refilled, ValidQuota;
    PositiveRate(q);
    var b := Opened(q, s, Probe(now).at).bucket;
    TB.RefillIsPositive(q.rate, q.burst, b, now);
    TB.RefillIsPositive(q.rate, q.burst, TB.Refilled(q.rate, q.burst, b, now), now);
  }

  /** Room on the quotas at one moment is room at any later one. */
  lemma RoomLasts(q: Quota, c: QC.Counter, now: real, later: real)
    requires ValidQuota(q) && HasRoom(QC.Reset(c, now), q) && now <= later
    ensures HasRoom(QC.Reset(c, later), q) && HasRoom(QC.Reset(QC.Reset(c, now), later), q)
  {
  }

  /** A window that was opened anew before a moment, and read until then. */
  lemma ReadUntil(period: real, w: QC.Window, counted: real, hourly: real, daily: real)
    requires period > 0.0 && counted <= hourly <= daily
    requires daily - w.start >= period || (w.count == 0 && w.start <= counted)
    ensures var r := QC.Rolled(period, QC.Rolled(period, QC.Rolled(period, w, counted), hourly), daily);
      r.count == 0 && 0.0 <= daily - r.start < period
  {
  }

  /** Two probes: the first falls after the window that the turned away request opened and
      opens the window of the one who never saw it; the second falls when only the former has
      run out. */
  lemma HourTells(q: Quota, x: Standing, s: Option<Standing>, first: real, opening: real)
    requires ValidQuota(q) && x.bucket.tokens >= 0.0 && (s.Some? ==> s.value.bucket.tokens >= 0.0)
    requires x.counter.hour == QC.Window(0, opening) && opening < first < opening + QC.HOUR
    requires Found(q, s, first).hour == QC.Window(0, first)
    requires HasRoom(Found(q, Some(x), first), q) && HasRoom(Found(q, s, first), q)
    ensures var calls := [Probe(first), Probe(opening + QC.HOUR)]; Told(q, Some(x), calls) != Told(q, s, calls)
  {
    hide Ruled, HasRoom, ValidQuota;
    var second := opening + QC.HOUR;
    ProbeReports(q, Some(x), first);
    ProbeReports(q, s, first);
    var x', y' := Some(Ruled(q, Some(x), 0, Probe(first).at).standing), Some(Ruled(q, s, 0, Probe(first).at).standing);
    ProbeReports(q, x', second);
    ProbeReports(q, y', second);
    assert Found(q, x', second).hour.count == 0 && Found(q, y', second).hour.count == 1;
    TwoTold(q, Some(x), Probe(first), Probe(second));
    TwoTold(q, s, Probe(first), Probe(second));
  }

  lemma DayTells(q: Quota, x: Standing, s: Option<Standing>, first: real, opening: real)
    requires ValidQuota(q) && x.bucket.tokens >= 0.0 && (s.Some? ==> s.value.bucket.tokens >= 0.0)
    requires x.counter.day == QC.Window(0, opening) && opening < first < opening + QC.DAY
    requires Found(q, s, first).day == QC.Window(0, first)
    requires HasRoom(Found(q, Some(x), first), q) && HasRoom(Found(q, s, first), q)
    ensures var calls := [Probe(first), Probe(opening + QC.DAY)]; Told(q, Some(x), calls) != Told(q, s, calls)
  {
    hide Ruled, HasRoom, ValidQuota;
    var second := opening + QC.DAY;
    ProbeReports(q, Some(x), first);
    ProbeReports(q, s, first);
    var x', y' := Some(Ruled(q, Some(x), 0, Probe(first).at).standing), Some(Ruled(q, s, 0, Probe(first).at).standing);
    ProbeReports(q, x', second);
    ProbeReports(q, y', second);
    assert Found(q, x', second).day.count == 0 && Found(q, y', second).day.count == 1;
    TwoTold(q, Some(x), Probe(first), Probe(second));
    TwoTold(q, s, Probe(first), Probe(second));
  }

  lemma TwoTold(q: Quota, s: Option<Standing>, first: Call, second: Call)
    ensures var r := Ruled(q, s, first.tokens, first.at);
      Told(q, s, [first, second]) == [r.decision, Ruled(q, Some(r.standing), second.tokens, second.at).decision]
  {
    hide Ruled;
    var r := Ruled(q, s, first.tokens, first.at);
    assert [first, second][1..] == [second] && [second][1..] == [];
    assert Told(q, Some(Ruled(q, Some(r.standing), second.tokens, second.at).standing), []) == [];
    assert Told(q, Some(r.standing), [second]) == [Ruled(q, Some(r.standing), second.tokens, second.at).decision];
  }

  /** What a turned away request leaves. */
  lemma TurnedAwayLeaves(q: Quota, s: Option<Standing>, tokens: int, at: Readings)
    requires ValidQuota(q) && Ordered(at, at.bucketMade) && Settled(s, at.bucketMade)
    requires Ruled(q, s, tokens, at).decision.verdict.RateLimited?
    ensures var x, c := Ruled(q, s, tokens, at).standing, Opened(q, s, at).counter;
      && x.bucket.tokens >= 0.0 && HasRoom(QC.Reset(c, at.counted), q)
      && x.counter == QC.Reset(QC.Reset(QC.Reset(c, at.counted), at.hourly), at.daily)
  {
    hide TB.Refilled, ValidQuota, QC.Reset;
    PositiveRate(q);
    var b := Opened(q, s, at).bucket;
    TB.RefillIsPositive(q.rate, q.burst, b, at.taken);
    TB.RefillIsPositive(q.rate, q.burst, TB.Refilled(q.rate, q.burst, b, at.taken), at.left);
  }

  lemma TurnedAwayIsNoticed(q: Quota, s: Option<Standing>, tokens: int, at: Readings)
    requires ValidQuota(q) && Ordered(at, at.bucketMade) && Settled(s, at.bucketMade)
    requires Ruled(q, s, tokens, at).decision.verdict.RateLimited?
    requires s.None? || Crosses(s.value.counter, at.daily)
    ensures !Unnoticed(q, s, tokens, at)
  {
    hide Ruled, ValidQuota, HasRoom, Told;
    TurnedAwayLeaves(q, s, tokens, at);
    var x, c := Ruled(q, s, tokens, at).standing, Opened(q, s, at).counter;
    var hour := s.None? || at.daily - s.value.counter.hour.start >= QC.HOUR;
    if hour { ReadUntil(QC.HOUR, c.hour, at.counted, at.hourly, at.daily); } else { ReadUntil(QC.DAY, c.day, at.counted, at.hourly, at.daily); }
    var opening := if hour then x.counter.hour.start else x.counter.day.start;
    var first := if opening < at.daily then at.daily else at.daily + 1.0;
    RoomLasts(q, c, at.counted, at.hourly);
    RoomAfterReads(q, c, at, first);
    if s.Some? { RoomLasts(q, c, at.counted, first); } else { FreshHasRoom(q, first); }
    if hour { HourTells(q, x, s, first, opening); } else { DayTells(q, x, s, first, opening); }
    var calls := [Probe(first), Probe(opening + if hour then QC.HOUR else QC.DAY)];
    assert InOrder(at.daily, calls) by { TwoInOrder(at.daily, calls[0], calls[1]); }
  }

  lemma TwoInOrder(since: real, first: Call, second: Call)
    requires Ordered(first.at, since) && Ordered(second.at, first.at.daily)
    ensures InOrder(since, [first, second])
  {
    assert [first, second][1..] == [second] && [second][1..] == [];
    assert InOrder(second.at.daily, []);
    assert InOrder(first.at.daily, [second]);
  }

  lemma FreshHasRoom(q: Quota, now: real)
    requires ValidQuota(q)
    ensures HasRoom(Found(q, None, now), q) && Found(q, None, now).hour == QC.Window(0, now) && Found(q, None, now).day == QC.Window(0, now)
  {
  }

  lemma RoomAfterReads(q: Quota, c: QC.Counter, at: Readings, first: real)
    requires ValidQuota(q) && Ordered(at, at.bucketMade) && at.daily <= first && HasRoom(QC.Reset(c, at.counted), q)
    ensures HasRoom(QC.Reset(QC.Reset(QC.Reset(QC.Reset(c, at.counted), at.hourly), at.daily), first), q)
  {
    hide HasRoom, ValidQuota, QC.Reset;
    RoomLasts(q, c, at.counted, at.hourly);
    RoomLasts(q, QC.Reset(c, at.counted), at.hourly, at.daily);
    RoomLasts(q, QC.Reset(QC.Reset(c, at.counted), at.hourly), at.daily, first);
  }

  /** A check that the bucket turns away leaves a namespace as if it had never taken place,
      for every later sequence of checks, exactly when the namespace had a counter and no
      window of it had run out by the last reading. */
  lemma {:induction false} TurnedAwayIsUnnoticed(q: Quota, s: Option<Standing>, tokens: int, at: Readings)
    requires ValidQuota(q) && Ordered(at, at.bucketMade) && Settled(s, at.bucketMade)
    requires Ruled(q, s, tokens, at).decision.verdict.RateLimited?
    ensures Unnoticed(q, s, tokens, at) <==> s.Some? && !Crosses(s.value.counter, at.daily)
  {
    hide Ruled, Told, ValidQuota, Crosses, InOrder;
    if s.Some? && !Crosses(s.value.counter, at.daily) {
      TurnedAwayIsAlike(q, s.value, tokens, at);
      var x := Ruled(q, s, tokens, at).standing;
      forall calls | InOrder(at.daily, calls) ensures Told(q, Some(x), calls) == Told(q, s, calls) {
        AlikeIsTold(q, x, s.value, at.daily, calls);
      }
    } else {
      TurnedAwayIsNoticed(q, s, tokens, at);
    }
  }

  // ----- one example of each way to be noticed -----

  function OneAnHour(): Quota { Quota("n", 1.0, 1, 1, 0) }

  function At(now: real): Readings { Probe(now).at }

  lemma OneAnHourIsValid()
    ensures ValidQuota(OneAnHour())
  {
    assert !IsSpace(OneAnHour().namespace[0]);
  }

  /** The first request of a namespace asks for more than its bucket holds. It opens the
      windows, and a request an hour later is admitted that would have been refused. */
  lemma {:induction false} FirstRequestIsNoticed()
    ensures var q := OneAnHour();
      var calls := [Call(0, At(1800.0)), Call(0, At(3600.0))];
      var turned := Ruled(q, None, 2, At(0.0));
      && turned.decision.verdict.RateLimited?
      && TwoVerdicts(q, Some(turned.standing), calls[0], calls[1]) == (Allowed, Allowed)
      && TwoVerdicts(q, None, calls[0], calls[1]) == (Allowed, QuotaExceeded(QC.HourlyExceeded))
  {
  }

  function TwoVerdicts(q: Quota, s: Option<Standing>, first: Call, second: Call): (Verdict, Verdict) {
    var r := Ruled(q, s, first.tokens, first.at);
    (r.decision.verdict, Ruled(q, Some(r.standing), second.tokens, second.at).decision.verdict)
  }

  /** The window has not run out when the request is counted, but when its use is reported. */
  lemma {:induction false} LateReadingIsNoticed()
    ensures var q := OneAnHour();
      var s := Some(Standing(TB.Bucket(1.0, 0.0), QC.Counter(QC.Window(0, 0.0), QC.Window(0, 0.0))));
      var at := Readings(3599.0, 3599.0, 3599.0, 3599.0, 3599.0, 3599.0, 3600.0, 3600.0);
      var calls := [Call(0, At(3601.0)), Call(0, At(7200.0))];
      var turned := Ruled(q, s, 2, at);
      && turned.decision.verdict.RateLimited? && !Crosses(s.value.counter, at.counted)
      && TwoVerdicts(q, Some(turned.standing), calls[0], calls[1]) == (Allowed, Allowed)
      && TwoVerdicts(q, s, calls[0], calls[1]) == (Allowed, QuotaExceeded(QC.HourlyExceeded))
  {
    var q := OneAnHour();
    var s := Standing(TB.Bucket(1.0, 0.0), QC.Counter(QC.Window(0, 0.0), QC.Window(0, 0.0)));
    var at := Readings(3599.0, 3599.0, 3599.0, 3599.0, 3599.0, 3599.0, 3600.0, 3600.0);
    var turned := Ruled(q, Some(s), 2, at);
    assert turned.decision.verdict.RateLimited?;
    assert turned.standing.bucket.tokens == 1.0 && turned.standing.counter.hour == QC.Window(0, 3600.0);
    SecondVerdict(turned.standing, 3601.0, 7200.0);
    SecondVerdict(s, 3601.0, 7200.0);
  }

  /** With one request an hour a second probe is admitted exactly when the window of the first
      has run out. */
  lemma SecondVerdict(s: Standing, first: real, second: real)
    requires s.bucket.tokens >= 0.0 && (s.counter.hour.count == 0 || first - s.counter.hour.start >= QC.HOUR)
    ensures var opening := if first - s.counter.hour.start >= QC.HOUR then first else s.counter.hour.start;
      TwoVerdicts(OneAnHour(), Some(s), Probe(first), Probe(second))
      == (Allowed, if second - opening >= QC.HOUR then Allowed else QuotaExceeded(QC.HourlyExceeded))
  {
    hide TB.Refilled;
    var q := OneAnHour();
    OneAnHourIsValid();
    ProbeReports(q, Some(s), first);
    var r := Ruled(q, Some(s), 0, Probe(first).at);
    ProbeReports(q, Some(r.standing), second);
  }

  /** The window has run out when the request is counted. */
  lemma {:induction false} ExpiredWindowIsNoticed()
    ensures var q := OneAnHour();
      var s := Some(Standing(TB.Bucket(1.0, 0.0), QC.Counter(QC.Window(1, 0.0), QC.Window(1, 0.0))));
      var calls := [Call(0, At(3601.0)), Call(0, At(7200.0))];
      var turned := Ruled(q, s, 2, At(3600.0));
      && turned.decision.verdict.RateLimited?
      && TwoVerdicts(q, Some(turned.standing), calls[0], calls[1]) == (Allowed, Allowed)
      && TwoVerdicts(q, s, calls[0], calls[1]) == (Allowed, QuotaExceeded(QC.HourlyExceeded))
  {
    var q := OneAnHour();
    var s := Standing(TB.Bucket(1.0, 0.0), QC.Counter(QC.Window(1, 0.0), QC.Window(1, 0.0)));
    var turned := Ruled(q, Some(s), 2, At(3600.0));
    assert turned.decision.verdict.RateLimited?;
    assert turned.standing.bucket.tokens == 1.0 && turned.standing.counter.hour == QC.Window(0, 3600.0);
    SecondVerdict(turned.standing, 3601.0, 7200.0);
    SecondVerdict(s, 3601.0, 7200.0);
  }
}
