/** A token bucket refilled at a steady rate, against the traffic rule it enforces. */
module TokenBuckets {
  import opened Prelude

  /** One reading of the bucket: when, how many tokens were asked for, and whether they were
      given. A bucket's history starts with its creation, which takes nothing. */
  datatype Take = Take(time: real, asked: int, granted: bool)

  function Given(t: Take): int { if t.granted then t.asked else 0 }

  /** Tokens given from the i-th take on. */
  function Spent(takes: seq<Take>, i: nat): int
    requires i <= |takes|
  {
    if i == |takes| then 0 else Spent(takes[..|takes| - 1], i) + Given(takes[|takes| - 1])
  }

  /** What was asked for is spent when it was granted, and only then. */
  lemma {:induction false} SpentIs(takes: seq<Take>, t: Take, i: nat)
    requires i <= |takes|
    ensures Spent(takes, |takes|) == 0
    ensures Spent(takes + [t], i) == Spent(takes, i) + if t.granted then t.asked else 0
  {
    assert (takes + [t])[..|takes|] == takes;
  }

  function Refill(rate: real, elapsed: real): real { elapsed * rate }

  /** What may be given from one moment to another: a full bucket and what flows in. */
  function Allowance(rate: real, burst: int, since: real, now: real): real {
    burst as real + Refill(rate, now - since)
  }

  /** The traffic rule: n more tokens keep every interval that ends now within its allowance. */
  ghost predicate Conforms(rate: real, burst: int, takes: seq<Take>, now: real, n: real) {
    && n <= burst as real
    && forall i | 0 <= i < |takes| :: Spent(takes, i) as real + n <= Allowance(rate, burst, takes[i].time, now)
  }

  /** ... that is, it leaves no more than burst + rate * d for any interval of length d. */
  lemma {:induction false} ConformsMeans(rate: real, burst: int, takes: seq<Take>, now: real, n: real)
    ensures Conforms(rate, burst, takes, now, n) <==>
      n <= burst as real && forall i | 0 <= i < |takes| :: Spent(takes, i) as real + n <= burst as real + (now - takes[i].time) * rate
  {
    hide Spent;
  }

  ghost predicate Sorted(takes: seq<Take>) {
    forall i, j | 0 <= i <= j < |takes| :: takes[i].time <= takes[j].time
  }

  /** What the bucket holds once refilled at a moment. */
  function Level(rate: real, burst: int, takes: seq<Take>, now: real): real
    decreases |takes|
  {
    if takes == [] then burst as real
    else Min(burst as real, Left(rate, burst, takes) + Refill(rate, now - takes[|takes| - 1].time))
  }

  /** What the last take left. */
  function Left(rate: real, burst: int, takes: seq<Take>): real
    requires takes != []
    decreases |takes|, 0
  {
    var front, last := takes[..|takes| - 1], takes[|takes| - 1];
    Level(rate, burst, front, last.time) - Given(last) as real
  }

  /** The bucket holds n tokens exactly when giving them obeys the rule. */
  lemma {:induction false} LevelIsWhatTheRuleLeaves(rate: real, burst: int, takes: seq<Take>, now: real, n: real)
    ensures n <= Level(rate, burst, takes, now) <==> Conforms(rate, burst, takes, now, n)
  {
    hide Refill, Allowance;
    if takes != [] {
      var k := |takes| - 1;
      var front, last := takes[..k], takes[k];
      var m := n + Given(last) as real - Refill(rate, now - last.time);
      LevelIsWhatTheRuleLeaves(rate, burst, front, last.time, m);
      forall i | 0 <= i <= k
        ensures Allowance(rate, burst, takes[i].time, now)
             == Allowance(rate, burst, takes[i].time, last.time) + Refill(rate, now - last.time)
      {
        Allowances(rate, burst, takes[i].time, last.time, now);
      }
      Immediate(rate, burst, last.time);
      assert Spent(takes, k) == Given(last) by { assert Spent(front, k) == 0; }
      assert forall i | 0 <= i < k :: Spent(takes, i) == Spent(front, i) + Given(last) && front[i] == takes[i];
      assert n <= Level(rate, burst, takes, now) <==> n <= burst as real && m <= Level(rate, burst, front, last.time);
    }
  }

  lemma Allowances(rate: real, burst: int, a: real, b: real, c: real)
    ensures Allowance(rate, burst, a, c) == Allowance(rate, burst, a, b) + Refill(rate, c - b)
  {
    assert (c - a) * rate == (b - a) * rate + (c - b) * rate;
  }

  lemma Immediate(rate: real, burst: int, now: real)
    ensures Allowance(rate, burst, now, now) == burst as real
  {
    assert (now - now) * rate == 0.0;
  }

  /** Every take was granted exactly when the rule allowed it. */
  ghost predicate Lawful(rate: real, burst: int, takes: seq<Take>) {
    forall k | 0 <= k < |takes| :: takes[k].granted ==> Conforms(rate, burst, takes[..k], takes[k].time, takes[k].asked as real)
  }

  /** The tokens given in any interval of length d are at most burst + rate * d. */
  lemma {:induction false} RateIsBounded(rate: real, burst: int, takes: seq<Take>, i: nat, j: nat)
    requires rate >= 0.0 && burst >= 0 && Sorted(takes) && Lawful(rate, burst, takes) && i <= j < |takes|
    ensures Spent(takes[..j + 1], i) as real <= burst as real + (takes[j].time - takes[i].time) * rate
    decreases j
  {
    hide Conforms, Sorted, Lawful;
    assert takes[..j + 1][..j] == takes[..j] && takes[..j + 1][j] == takes[j];
    assert takes[i].time <= takes[j].time by { TimesGrow(takes, i, j); }
    assert (takes[j].time - takes[i].time) * rate >= 0.0;
    if takes[j].granted {
      Granted(rate, burst, takes, i, j);
    } else if i < j {
      RateIsBounded(rate, burst, takes, i, j - 1);
      TimesGrow(takes, j - 1, j);
      assert (takes[j].time - takes[i].time) * rate
          == (takes[j - 1].time - takes[i].time) * rate + (takes[j].time - takes[j - 1].time) * rate;
    }
  }

  lemma {:induction false} TimesGrow(takes: seq<Take>, i: nat, j: nat)
    requires Sorted(takes) && i <= j < |takes|
    ensures takes[i].time <= takes[j].time
  {
  }

  lemma {:induction false} Granted(rate: real, burst: int, takes: seq<Take>, i: nat, j: nat)
    requires Lawful(rate, burst, takes) && i <= j < |takes| && takes[j].granted
    ensures Spent(takes[..j], i) as real + takes[j].asked as real <= Allowance(rate, burst, takes[i].time, takes[j].time)
  {
    assert Conforms(rate, burst, takes[..j], takes[j].time, takes[j].asked as real);
    if i < j { assert takes[..j][i] == takes[i]; } else { Immediate(rate, burst, takes[j].time); }
  }

  // ===== the bucket as a value =====

  datatype Bucket = Bucket(tokens: real, last: real)

  function Refilled(rate: real, burst: int, b: Bucket, now: real): Bucket {
    Bucket(Min(burst as real, b.tokens + Refill(rate, Max(0.0, now - b.last))), now)
  }

  /** Refilling twice is refilling once, at the later moment. */
  lemma RefillingTwice(rate: real, burst: int, b: Bucket, t1: real, t2: real)
    requires rate > 0.0 && b.last <= t1 <= t2
    ensures Refilled(rate, burst, Refilled(rate, burst, b, t1), t2) == Refilled(rate, burst, b, t2)
  {
    var a, c := t1 - b.last, t2 - t1;
    InflowAdds(rate, a, c);
    assert t2 - b.last == a + c;
    hide Refill;
  }

  lemma InflowAdds(rate: real, a: real, c: real)
    requires rate > 0.0 && a >= 0.0 && c >= 0.0
    ensures Refill(rate, a + c) == Refill(rate, a) + Refill(rate, c) && Refill(rate, a) >= 0.0 && Refill(rate, c) >= 0.0
  {
  }

  lemma RefillIsPositive(rate: real, burst: int, b: Bucket, now: real)
    requires rate > 0.0 && burst >= 1 && b.tokens >= 0.0
    ensures Refilled(rate, burst, b, now).tokens >= 0.0
  {
    assert Max(0.0, now - b.last) * rate >= 0.0;
  }

  class TokenBucket {
    const rate: real
    const burst: int
    var tokens: real
    var last: real
    ghost var takes: seq<Take>

    function Value(): Bucket
      reads this
    {
      Bucket(tokens, last)
    }

    ghost predicate Valid()
      reads this
    {
      && rate > 0.0 && burst >= 1 && tokens >= 0.0
      && takes != [] && Sorted(takes) && Lawful(rate, burst, takes)
      && last == takes[|takes| - 1].time
      && tokens == Left(rate, burst, takes)
    }

    constructor (rate: real, burst: int, now: real)
      requires rate > 0.0 && burst >= 1
      ensures Valid() && this.rate == rate && this.burst == burst
      ensures takes == [Take(now, 0, false)] && last == now && tokens == burst as real
    {
      this.rate, this.burst := rate, burst;
      tokens, last := burst as real, now;
      takes := [Take(now, 0, false)];
    }

    method Refresh(now: real)
      requires Valid() && now >= last
      modifies this`tokens, this`last
      ensures tokens == Level(rate, burst, takes, now) && last == now
      ensures Value() == Refilled(rate, burst, old(Value()), now)
    {
      var elapsed := if now - last > 0.0 then now - last else 0.0;
      tokens := Min(burst as real, tokens + elapsed * rate);
      last := now;
    }

    /** Gives n tokens exactly when the traffic rule allows them at that moment. */
    method Consume(n: int, now: real) returns (granted: bool)
      requires Valid() && now >= last
      modifies this
      ensures Valid()
      ensures granted <==> Conforms(rate, burst, old(takes), now, n as real)
      ensures takes == old(takes) + [Take(now, n, granted)] && last == now
      ensures var full := Refilled(rate, burst, old(Value()), now);
        && (granted <==> full.tokens >= n as real)
        && Value() == if granted then full.(tokens := full.tokens - n as real) else full
    {
      hide Conforms, Level, Left, Lawful, Sorted;
      LevelIsWhatTheRuleLeaves(rate, burst, takes, now, n as real);
      LevelIsPositive(rate, burst, takes, now);
      Refresh(now);
      granted := tokens >= n as real;
      Extend(rate, burst, takes, Take(now, n, granted));
      if granted { tokens := tokens - n as real; }
      takes := takes + [Take(now, n, granted)];
    }

    /** Refills, and takes nothing. */
    method Available(now: real) returns (r: real)
      requires Valid() && now >= last
      modifies this
      ensures Valid() && r == Level(rate, burst, old(takes), now)
      ensures takes == old(takes) + [Take(now, 0, false)] && last == now
      ensures Value() == Refilled(rate, burst, old(Value()), now) && r == tokens
    {
      hide Conforms, Level, Left, Lawful, Sorted;
      LevelIsPositive(rate, burst, takes, now);
      Refresh(now);
      Extend(rate, burst, takes, Take(now, 0, false));
      takes := takes + [Take(now, 0, false)];
      r := tokens;
    }
  }

  lemma {:induction false} LevelIsPositive(rate: real, burst: int, takes: seq<Take>, now: real)
    requires rate > 0.0 && burst >= 1
    requires takes != [] && Left(rate, burst, takes) >= 0.0 && now >= takes[|takes| - 1].time
    ensures Level(rate, burst, takes, now) >= 0.0
  {
    assert (now - takes[|takes| - 1].time) * rate >= 0.0;
  }

  lemma {:induction false} Extend(rate: real, burst: int, takes: seq<Take>, t: Take)
    requires takes != [] && Sorted(takes) && Lawful(rate, burst, takes) && t.time >= takes[|takes| - 1].time
    requires t.granted ==> Conforms(rate, burst, takes, t.time, t.asked as real)
    ensures Sorted(takes + [t]) && Lawful(rate, burst, takes + [t])
    ensures Left(rate, burst, takes + [t]) == Level(rate, burst, takes, t.time) - Given(t) as real
  {
    hide Conforms;
    var more := takes + [t];
    assert more[..|takes|] == takes;
    forall k | 0 <= k < |more|
      ensures more[k].granted ==> Conforms(rate, burst, more[..k], more[k].time, more[k].asked as real)
    {
      if k < |takes| { assert more[..k] == takes[..k]; }
    }
  }
}
