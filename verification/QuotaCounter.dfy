/** Hourly and daily request counters over windows that restart on first use after they
    have run out. */
module QuotaCounters {
  import opened Prelude

  const HOUR := 3600.0
  const DAY := 86400.0

  /** One call on a counter: when, and whether it counted a request. */
  datatype Request = Request(time: real, counted: bool)

  datatype Window = Window(count: int, start: real)

  function Rolled(period: real, w: Window, now: real): Window {
    if now - w.start >= period then Window(0, now) else w
  }

  /** The window after a history of calls. */
  function WindowAfter(period: real, made: real, rs: seq<Request>): Window {
    if rs == [] then Window(0, made)
    else
      var last := rs[|rs| - 1];
      var w := Rolled(period, WindowAfter(period, made, rs[..|rs| - 1]), last.time);
      if last.counted then w.(count := w.count + 1) else w
  }

  /** Where in the history the current window opened. */
  function Opening(period: real, made: real, rs: seq<Request>): (s: nat)
    ensures s <= |rs|
    ensures rs != [] ==> s < |rs|
  {
    if rs == [] then 0
    else
      var front, last := rs[..|rs| - 1], rs[|rs| - 1];
      if last.time - WindowAfter(period, made, front).start >= period then |front|
      else if front == [] then 0 else Opening(period, made, front)
  }

  /** Requests counted between two positions of the history. */
  function Counted(rs: seq<Request>, i: nat, j: nat): (c: nat)
    requires i <= j <= |rs|
    decreases j
  {
    if i == j then 0 else Counted(rs, i, j - 1) + if rs[j - 1].counted then 1 else 0
  }

  ghost predicate Sorted(rs: seq<Request>, made: real) {
    && (forall i | 0 <= i < |rs| :: made <= rs[i].time)
    && forall i, j | 0 <= i <= j < |rs| :: rs[i].time <= rs[j].time
  }

  /** No request was counted beyond a quota; a quota of 0 is none. */
  ghost predicate Keeps(period: real, quota: int, made: real, rs: seq<Request>) {
    forall k | 0 <= k < |rs| && rs[k].counted :: Free(period, quota, made, rs[..k], rs[k].time)
  }

  ghost predicate Free(period: real, quota: int, made: real, rs: seq<Request>, now: real) {
    quota == 0 || Rolled(period, WindowAfter(period, made, rs), now).count < quota
  }

  lemma {:induction false} CountedOfPrefix(rs: seq<Request>, n: nat, i: nat, j: nat)
    requires i <= j <= n <= |rs|
    ensures Counted(rs[..n], i, j) == Counted(rs, i, j)
    decreases j
  {
    if i < j { CountedOfPrefix(rs, n, i, j - 1); }
  }

  lemma {:induction false} CountedSplits(rs: seq<Request>, i: nat, j: nat, k: nat)
    requires i <= j <= k <= |rs|
    ensures Counted(rs, i, k) == Counted(rs, i, j) + Counted(rs, j, k)
    decreases k
  {
    if j < k { CountedSplits(rs, i, j, k - 1); }
  }

  /** The positions between two, where a request was counted. */
  lemma {:induction false} CountedIs(rs: seq<Request>, i: nat, j: nat)
    requires i <= j <= |rs|
    ensures Counted(rs, i, j) == |set k | i <= k < j && rs[k].counted|
    decreases j
  {
    var all := set k | i <= k < j && rs[k].counted;
    if i < j {
      CountedIs(rs, i, j - 1);
      var front := set k | i <= k < j - 1 && rs[k].counted;
      assert all == front + if rs[j - 1].counted then {j - 1} else {};
    } else {
      assert all == {};
    }
  }

  /** A counter reads the number of requests counted since its window opened, the window
      starts at the call that opened it, and every call since falls inside it. */
  lemma {:induction false} CountIsWindowContent(period: real, made: real, rs: seq<Request>)
    requires period > 0.0 && Sorted(rs, made)
    ensures var w, s := WindowAfter(period, made, rs), Opening(period, made, rs);
      && w.count == Counted(rs, s, |rs|)
      && (w.start == made || (s < |rs| && w.start == rs[s].time))
      && (s > 0 ==> w.start == rs[s].time)
      && (s == 0 && w.start != made ==> w.start - made >= period)
      && (rs != [] ==> rs[|rs| - 1].time - w.start < period)
      && (forall i | s <= i < |rs| :: w.start <= rs[i].time)
  {
    if rs != [] {
      var front := rs[..|rs| - 1];
      assert Sorted(front, made);
      CountIsWindowContent(period, made, front);
      var s := Opening(period, made, rs);
      CountedOfPrefix(rs, |front|, if s < |front| then s else |front|, |front|);
      if front == [] { assert Counted(rs, 0, 1) == if rs[0].counted then 1 else 0; }
    }
  }

  lemma {:induction false} KeepsPrefix(period: real, quota: int, made: real, rs: seq<Request>, n: nat)
    requires Keeps(period, quota, made, rs) && Sorted(rs, made) && n <= |rs|
    ensures Keeps(period, quota, made, rs[..n]) && Sorted(rs[..n], made)
  {
    hide Free;
    forall k | 0 <= k < n && rs[..n][k].counted ensures Free(period, quota, made, rs[..n][..k], rs[..n][k].time) {
      assert rs[..n][..k] == rs[..k];
    }
  }

  /** Requests counted in one window never exceed the quota. */
  lemma {:induction false} WindowWithinQuota(period: real, quota: int, made: real, rs: seq<Request>)
    requires quota > 0 && Sorted(rs, made) && Keeps(period, quota, made, rs)
    ensures WindowAfter(period, made, rs).count <= quota
  {
    if rs != [] {
      var n := |rs| - 1;
      KeepsPrefix(period, quota, made, rs, n);
      WindowWithinQuota(period, quota, made, rs[..n]);
    }
  }

  lemma {:induction false} CountedGrows(rs: seq<Request>, i: nat, j: nat, k: nat)
    requires i <= j <= k <= |rs|
    ensures Counted(rs, j, k) <= Counted(rs, i, k)
  {
    CountedSplits(rs, i, j, k);
  }

  /** What was counted from a position on, when the current window opened no later. */
  lemma {:induction false} TailWithinQuota(period: real, quota: int, made: real, rs: seq<Request>, i: nat)
    requires period > 0.0 && quota > 0 && Sorted(rs, made) && Keeps(period, quota, made, rs)
    requires Opening(period, made, rs) <= i <= |rs|
    ensures Counted(rs, i, |rs|) <= quota
  {
    hide Keeps, Sorted, WindowAfter;
    WindowWithinQuota(period, quota, made, rs);
    CountIsWindowContent(period, made, rs);
    CountedGrows(rs, Opening(period, made, rs), i, |rs|);
  }

  /** An interval shorter than the period counts at most twice the quota. */
  lemma {:induction false} ShortIntervalWithinTwice(period: real, quota: int, made: real, rs: seq<Request>, i: nat)
    requires period > 0.0 && quota > 0 && Sorted(rs, made) && Keeps(period, quota, made, rs)
    requires i < |rs| && rs[|rs| - 1].time - rs[i].time < period
    ensures Counted(rs, i, |rs|) <= 2 * quota
  {
    hide Keeps, WindowAfter, Opening;
    var s := Opening(period, made, rs);
    CountIsWindowContent(period, made, rs);
    if s <= i {
      TailWithinQuota(period, quota, made, rs, i);
    } else {
      TailWithinQuota(period, quota, made, rs, s);
      CountedSplits(rs, i, s, |rs|);
      var before := rs[..s];
      KeepsPrefix(period, quota, made, rs, s);
      CountIsWindowContent(period, made, before);
      CountedOfPrefix(rs, s, i, s);
      OpeningIsLate(period, made, rs);
      if Opening(period, made, before) <= i {
        TailWithinQuota(period, quota, made, before, i);
      } else {
        assert false;
      }
    }
  }

  /** A window that is not the first opens a full period after the one before. */
  lemma {:induction false} OpeningIsLate(period: real, made: real, rs: seq<Request>)
    requires Opening(period, made, rs) > 0
    ensures var s := Opening(period, made, rs);
      s < |rs| && rs[s].time - WindowAfter(period, made, rs[..s]).start >= period
  {
    var front := rs[..|rs| - 1];
    if Opening(period, made, rs) < |front| {
      OpeningIsLate(period, made, front);
      assert front[..Opening(period, made, front)] == rs[..Opening(period, made, rs)];
    }
  }

  /** So many requests counted at one moment. */
  function Burst(n: nat, time: real): seq<Request> { seq(n, i => Request(time, true)) }

  /** A quota's worth of requests shortly before a window runs out, and another at its
      expiry. */
  function Straddle(period: real, quota: nat, gap: real, n: nat): seq<Request> { Burst(quota, period - gap) + Burst(n, period) }

  lemma {:induction false} StraddleCounts(period: real, quota: nat, gap: real, n: nat)
    requires 0.0 < gap < period && n <= quota && quota > 0
    ensures WindowAfter(period, 0.0, Straddle(period, quota, gap, n))
         == if n == 0 then Window(quota, 0.0) else Window(n, period)
    decreases n
  {
    if n == 0 {
      FirstBurst(period, quota, period - gap, quota);
      assert Straddle(period, quota, gap, 0) == Burst(quota, period - gap);
    } else {
      StraddleCounts(period, quota, gap, n - 1);
      var rs := Straddle(period, quota, gap, n);
      assert rs[..|rs| - 1] == Straddle(period, quota, gap, n - 1);
    }
  }

  lemma {:induction false} FirstBurst(period: real, quota: nat, time: real, n: nat)
    requires 0.0 <= time < period && n <= quota
    ensures WindowAfter(period, 0.0, Burst(n, time)) == Window(n, 0.0)
    decreases n
  {
    if n > 0 {
      FirstBurst(period, quota, time, n - 1);
      assert Burst(n, time)[..n - 1] == Burst(n - 1, time);
    }
  }

  lemma {:induction false} AllCounted(rs: seq<Request>, n: nat)
    requires n <= |rs| && forall i | 0 <= i < |rs| :: rs[i].counted
    ensures Counted(rs, 0, n) == n
    decreases n
  {
    if n > 0 { AllCounted(rs, n - 1); }
  }

  /** ... which every quota and period can reach, within an interval as short as one likes. */
  lemma {:induction false} TwiceIsReached(period: real, quota: nat, gap: real)
    requires 0.0 < gap < period && quota > 0
    ensures var rs := Straddle(period, quota, gap, quota);
      && Sorted(rs, 0.0) && Keeps(period, quota, 0.0, rs) && |rs| == 2 * quota
      && rs[|rs| - 1].time - rs[0].time == gap && Counted(rs, 0, |rs|) == 2 * quota
  {
    hide Free, WindowAfter;
    var rs := Straddle(period, quota, gap, quota);
    AllCounted(rs, |rs|);
    forall k | 0 <= k < |rs| && rs[k].counted ensures Free(period, quota, 0.0, rs[..k], rs[k].time) {
      StraddleIsFree(period, quota, gap, k);
    }
  }

  lemma StraddleIsFree(period: real, quota: nat, gap: real, k: nat)
    requires 0.0 < gap < period && quota > 0 && k < |Straddle(period, quota, gap, quota)|
    ensures var rs := Straddle(period, quota, gap, quota); Free(period, quota, 0.0, rs[..k], rs[k].time)
  {
    hide WindowAfter;
    var rs := Straddle(period, quota, gap, quota);
    if k < quota {
      assert rs[..k] == Burst(k, period - gap);
      FirstBurst(period, quota, period - gap, k);
    } else {
      assert rs[..k] == Straddle(period, quota, gap, k - quota);
      StraddleCounts(period, quota, gap, k - quota);
    }
  }

  // ===== the counter =====

  datatype Counter = Counter(hour: Window, day: Window)

  datatype Refusal = HourlyExceeded | DailyExceeded

  function Reset(c: Counter, now: real): Counter { Counter(Rolled(HOUR, c.hour, now), Rolled(DAY, c.day, now)) }

  function Refused(c: Counter, hourly: int, daily: int): Option<Refusal> {
    if hourly > 0 && c.hour.count >= hourly then Some(HourlyExceeded)
    else if daily > 0 && c.day.count >= daily then Some(DailyExceeded)
    else None
  }

  /** The quota that the requests counted since its window opened have used up, the hourly one
      before the daily one. */
  ghost function AtQuota(hourMade: real, dayMade: real, all: seq<Request>, hourly: int, daily: int): Option<Refusal> {
    if hourly > 0 && Counted(all, Opening(HOUR, hourMade, all), |all|) >= hourly then Some(HourlyExceeded)
    else if daily > 0 && Counted(all, Opening(DAY, dayMade, all), |all|) >= daily then Some(DailyExceeded)
    else None
  }

  /** A request is refused exactly at a quota: the hourly one when as many requests were
      counted since the hour's window opened, else the daily one when as many were counted
      since the day's window opened. A quota of 0 refuses nothing. */
  lemma {:induction false} RefusedExactly(hourMade: real, dayMade: real, rs: seq<Request>, hourly: int, daily: int, now: real)
    requires Sorted(rs, hourMade) && Sorted(rs, dayMade) && EndsBy(rs, hourMade, now) && EndsBy(rs, dayMade, now)
    ensures var all := rs + [Request(now, false)];
      var hour, day := Counted(all, Opening(HOUR, hourMade, all), |all|), Counted(all, Opening(DAY, dayMade, all), |all|);
      && Reset(CounterAfter(hourMade, dayMade, rs), now).hour.count == hour
      && Reset(CounterAfter(hourMade, dayMade, rs), now).day.count == day
      && Refused(Reset(CounterAfter(hourMade, dayMade, rs), now), hourly, daily)
         == if hourly > 0 && hour >= hourly then Some(HourlyExceeded) else if daily > 0 && day >= daily then Some(DailyExceeded) else None
  {
    hide Sorted, WindowAfter, Opening, Counted, Rolled, EndsBy;
    var all := rs + [Request(now, false)];
    Push(hourMade, dayMade, rs, Request(now, false));
    CountIsWindowContent(HOUR, hourMade, all);
    CountIsWindowContent(DAY, dayMade, all);
  }

  function Counting(c: Counter): Counter {
    Counter(c.hour.(count := c.hour.count + 1), c.day.(count := c.day.count + 1))
  }

  function CounterAfter(hourMade: real, dayMade: real, rs: seq<Request>): Counter {
    Counter(WindowAfter(HOUR, hourMade, rs), WindowAfter(DAY, dayMade, rs))
  }

  class QuotaCounter {
    var hourlyCount: int
    var dailyCount: int
    var hourStart: real
    var dayStart: real
    ghost const hourMade: real
    ghost const dayMade: real
    ghost var latest: real
    ghost var requests: seq<Request>

    function Value(): Counter
      reads this
    {
      Counter(Window(hourlyCount, hourStart), Window(dailyCount, dayStart))
    }

    ghost predicate Valid()
      reads this
    {
      && Value() == CounterAfter(hourMade, dayMade, requests)
      && Sorted(requests, hourMade) && Sorted(requests, dayMade)
      && EndsBy(requests, hourMade, latest) && EndsBy(requests, dayMade, latest)
    }

    constructor (hourMade: real, dayMade: real)
      requires hourMade <= dayMade
      ensures Valid() && requests == [] && latest == dayMade
      ensures Value() == Counter(Window(0, hourMade), Window(0, dayMade))
      ensures this.hourMade == hourMade && this.dayMade == dayMade
    {
      hourlyCount, dailyCount := 0, 0;
      hourStart, dayStart := hourMade, dayMade;
      this.hourMade, this.dayMade := hourMade, dayMade;
      latest, requests := dayMade, [];
    }

    method ResetIfNeeded(now: real)
      modifies this`hourlyCount, this`hourStart, this`dailyCount, this`dayStart
      ensures Value() == Reset(old(Value()), now)
    {
      if now - hourStart >= HOUR { hourlyCount, hourStart := 0, now; }
      if now - dayStart >= DAY { dailyCount, dayStart := 0, now; }
    }

    /** What the counters read at a moment. */
    method Usage(now: real) returns (hourly: int, daily: int)
      requires Valid() && now >= latest
      modifies this
      ensures Valid() && latest == now && requests == old(requests) + [Request(now, false)]
      ensures Value() == Reset(old(Value()), now)
      ensures hourly == Rolled(HOUR, old(Value()).hour, now).count
      ensures daily == Rolled(DAY, old(Value()).day, now).count
    {
      hide Sorted, EndsBy, CounterAfter;
      ResetIfNeeded(now);
      Push(hourMade, dayMade, requests, Request(now, false));
      requests, latest := requests + [Request(now, false)], now;
      hourly, daily := hourlyCount, dailyCount;
    }

    /** Counts a request unless it is beyond a quota. */
    method CheckAndIncrement(hourly: int, daily: int, now: real) returns (refused: Option<Refusal>)
      requires Valid() && now >= latest
      modifies this
      ensures Valid() && latest == now && requests == old(requests) + [Request(now, refused.None?)]
      ensures refused == Refused(Reset(old(Value()), now), hourly, daily)
      ensures refused == AtQuota(hourMade, dayMade, old(requests) + [Request(now, false)], hourly, daily)
      ensures refused.None? ==> Value() == Counting(Reset(old(Value()), now))
      ensures refused.Some? ==> Value() == Reset(old(Value()), now)
    {
      hide Sorted, EndsBy, CounterAfter, Opening, Counted;
      RefusedAt(hourly, daily, now);
      ResetIfNeeded(now);
      latest := now;
      refused := None;
      if hourly > 0 && hourlyCount >= hourly {
        refused := Some(HourlyExceeded);
      } else if daily > 0 && dailyCount >= daily {
        refused := Some(DailyExceeded);
      } else {
        hourlyCount, dailyCount := hourlyCount + 1, dailyCount + 1;
      }
      Push(hourMade, dayMade, requests, Request(now, refused.None?));
      requests := requests + [Request(now, refused.None?)];
    }

    lemma RefusedAt(hourly: int, daily: int, now: real)
      requires Valid() && now >= latest
      ensures Refused(Reset(Value(), now), hourly, daily) == AtQuota(hourMade, dayMade, requests + [Request(now, false)], hourly, daily)
    {
      hide Sorted, CounterAfter, Refused, Opening, Counted;
      RefusedExactly(hourMade, dayMade, requests, hourly, daily, now);
    }

    /** Lowers both counts, but not below zero. Right after a counted request the counter is
        as if that call had counted nothing. */
    method Decrement()
      requires Valid()
      modifies this
      ensures Value() == Lowered(old(Value())) && latest == old(latest)
      ensures hourlyCount == if old(hourlyCount) > 0 then old(hourlyCount) - 1 else old(hourlyCount)
      ensures dailyCount == if old(dailyCount) > 0 then old(dailyCount) - 1 else old(dailyCount)
      ensures hourStart == old(hourStart) && dayStart == old(dayStart)
      ensures old(LastCounted(requests)) ==> Valid() && old(Value()) == Counting(Value())
      ensures old(LastCounted(requests)) ==> requests == old(LastUncounted(requests))
      ensures !old(LastCounted(requests)) ==> requests == old(requests)
    {
      ghost var before := Value();
      if hourlyCount > 0 { hourlyCount := hourlyCount - 1; }
      if dailyCount > 0 { dailyCount := dailyCount - 1; }
      if LastCounted(requests) {
        ghost var n := |requests| - 1;
        ghost var front, last := requests[..n], requests[n];
        assert requests == front + [last];
        CountsAreNatural(HOUR, hourMade, front);
        CountsAreNatural(DAY, dayMade, front);
        Push(hourMade, dayMade, front, Request(last.time, false));
        requests := front + [Request(last.time, false)];
      }
    }
  }

  ghost predicate LastCounted(rs: seq<Request>) { rs != [] && rs[|rs| - 1].counted }

  /** The history in which the last call counted nothing. */
  ghost function LastUncounted(rs: seq<Request>): seq<Request>
    requires rs != []
  {
    rs[..|rs| - 1] + [Request(rs[|rs| - 1].time, false)]
  }

  function Lowered(c: Counter): Counter {
    Counter(c.hour.(count := if c.hour.count > 0 then c.hour.count - 1 else c.hour.count),
            c.day.(count := if c.day.count > 0 then c.day.count - 1 else c.day.count))
  }

  lemma {:induction false} CountsAreNatural(period: real, made: real, rs: seq<Request>)
    ensures WindowAfter(period, made, rs).count >= 0
  {
    if rs != [] { CountsAreNatural(period, made, rs[..|rs| - 1]); }
  }

  ghost predicate EndsBy(rs: seq<Request>, made: real, now: real) {
    made <= now && forall i | 0 <= i < |rs| :: rs[i].time <= now
  }

  lemma {:induction false} Push(hourMade: real, dayMade: real, rs: seq<Request>, r: Request)
    ensures var c := Reset(CounterAfter(hourMade, dayMade, rs), r.time);
      CounterAfter(hourMade, dayMade, rs + [r]) == if r.counted then Counting(c) else c
    ensures forall made, latest | Sorted(rs, made) && EndsBy(rs, made, latest) && latest <= r.time ::
      Sorted(rs + [r], made) && EndsBy(rs + [r], made, r.time)
  {
    assert (rs + [r])[..|rs|] == rs;
  }
}
