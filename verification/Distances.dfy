/** Distances between two latency distributions: cumulative step functions read off the
    buckets, the Kolmogorov-Smirnov statistic and the Wasserstein distance, both computed
    by one sweep with two indices over the sorted breakpoints. */
module Distances {
  import opened Prelude

  datatype Point = Point(value: real, p: real)

  predicate Increasing(vs: seq<real>) { forall i, j | 0 <= i < j < |vs| :: vs[i] < vs[j] }

  predicate IncreasingValues(c: seq<Point>) { forall i, j | 0 <= i < j < |c| :: c[i].value < c[j].value }

  /** What get_cdf produces: breakpoints in strictly increasing order, probabilities in
      (0, 1] that never fall, and the last one exactly 1. */
  predicate IsCdf(c: seq<Point>) {
    && IncreasingValues(c)
    && (forall i | 0 <= i < |c| :: 0.0 < c[i].p <= 1.0)
    && (forall i, j | 0 <= i < j < |c| :: c[i].p <= c[j].p)
    && (c != [] ==> c[|c| - 1].p == 1.0)
  }

  /** The step function itself: the probability of the last breakpoint not above x. */
  ghost function At(c: seq<Point>, x: real): real {
    if c == [] then 0.0
    else if c[|c| - 1].value <= x then c[|c| - 1].p
    else At(c[..|c| - 1], x)
  }

  ghost predicate SameFunction(c1: seq<Point>, c2: seq<Point>) { forall x :: At(c1, x) == At(c2, x) }

  ghost function Gap(c1: seq<Point>, c2: seq<Point>, x: real): (g: real)
    ensures g >= 0.0
  {
    Abs(At(c1, x) - At(c2, x))
  }

  // ----- reading the step function -----

  function Level(c: seq<Point>, i: nat): real
    requires i <= |c|
  {
    if i == 0 then 0.0 else c[i - 1].p
  }

  lemma {:induction false} LevelIsAt(c: seq<Point>, i: nat, x: real)
    requires i <= |c|
    requires forall k | 0 <= k < i :: c[k].value <= x
    requires forall k | i <= k < |c| :: c[k].value > x
    ensures At(c, x) == Level(c, i) == if i == 0 then 0.0 else c[i - 1].p
  {
    if i < |c| { LevelIsAt(c[..|c| - 1], i, x); }
  }

  lemma {:induction false} AtIsConstant(c: seq<Point>, low: real, x: real)
    requires low <= x
    requires forall k | 0 <= k < |c| :: c[k].value <= low || c[k].value > x
    ensures At(c, low) == At(c, x)
  {
    if c != [] { AtIsConstant(c[..|c| - 1], low, x); }
  }

  lemma {:induction false} AtBelow(c: seq<Point>, x: real)
    requires forall k | 0 <= k < |c| :: c[k].value > x
    ensures At(c, x) == 0.0
  {
    if c != [] { AtBelow(c[..|c| - 1], x); }
  }

  lemma {:induction false} AtRange(c: seq<Point>, x: real)
    requires forall i | 0 <= i < |c| :: 0.0 < c[i].p <= 1.0
    ensures 0.0 <= At(c, x) <= 1.0
  {
    if c != [] { AtRange(c[..|c| - 1], x); }
  }

  // ----- the sorted breakpoints of two step functions -----

  function Values(c: seq<Point>): set<real> { set q | q in c :: q.value }

  /** All breakpoints of both functions, sorted and without repetition. */
  method SortedValues(c1: seq<Point>, c2: seq<Point>) returns (vs: seq<real>)
    ensures Increasing(vs)
    ensures forall v :: v in vs <==> v in Values(c1) + Values(c2)
  {
    var rest := Values(c1) + Values(c2);
    vs := [];
    while rest != {}
      invariant Increasing(vs)
      invariant forall v :: v in Values(c1) + Values(c2) <==> v in vs || v in rest
      invariant forall v, w | v in vs && w in rest :: v < w
    {
      ghost var least := LeastReal(rest);
      var v :| v in rest && forall w | w in rest :: v <= w;
      forall k | 0 <= k < |vs| ensures vs[k] < v { assert vs[k] in vs; }
      vs := vs + [v];
      rest := rest - {v};
    }
  }

  lemma {:induction false} ValueOf(c: seq<Point>, k: nat)
    requires k < |c|
    ensures c[k].value in Values(c)
  {
    assert c[k] in c;
  }

  /** vs has every breakpoint of c. */
  ghost predicate Covers(vs: seq<real>, c: seq<Point>) { forall k | 0 <= k < |c| :: c[k].value in vs }

  /** A sweep has passed the first i breakpoints, none above v, and sits at level p. */
  ghost predicate Passed(c: seq<Point>, i: nat, p: real, v: real) {
    i <= |c| && p == Level(c, i) && forall k | 0 <= k < i :: c[k].value <= v
  }

  /** The inner loop of both sweeps: advance past the breakpoints not above v. */
  method Advance(c: seq<Point>, i: nat, p: real, v: real) returns (i': nat, p': real)
    requires IncreasingValues(c) && Passed(c, i, p, v)
    ensures Passed(c, i', p', v) && p' == At(c, v)
  {
    i', p' := i, p;
    while i' < |c| && c[i'].value <= v
      invariant Passed(c, i', p', v)
    {
      p' := c[i'].p;
      i' := i' + 1;
    }
    LevelIsAt(c, i', v);
  }

  // ----- the Kolmogorov-Smirnov statistic -----

  /** d is the supremum of |F1 - F2| over all reals, and it is attained. */
  ghost predicate IsSupremum(c1: seq<Point>, c2: seq<Point>, d: real) {
    && (forall x :: Gap(c1, c2, x) <= d)
    && (exists x :: Gap(c1, c2, x) == d)
  }

  /** Any real sees the same two levels as some breakpoint, or none at all. */
  lemma {:induction false} GapIsCovered(c1: seq<Point>, c2: seq<Point>, vs: seq<real>, x: real)
    requires Increasing(vs) && Covers(vs, c1) && Covers(vs, c2)
    ensures Gap(c1, c2, x) == 0.0 || exists v | v in vs :: Gap(c1, c2, x) == Gap(c1, c2, v)
  {
    var t := |vs|;
    while t > 0 && vs[t - 1] > x
      invariant 0 <= t <= |vs| && forall k | t <= k < |vs| :: vs[k] > x
    {
      t := t - 1;
    }
    if t == 0 {
      AtBelow(c1, x);
      AtBelow(c2, x);
    } else {
      AtIsConstant(c1, vs[t - 1], x);
      AtIsConstant(c2, vs[t - 1], x);
      assert Gap(c1, c2, x) == Gap(c1, c2, vs[t - 1]);
    }
  }

  method KsStatistic(c1: seq<Point>, c2: seq<Point>) returns (d: real)
    requires IsCdf(c1) && IsCdf(c2)
    ensures IsSupremum(c1, c2, d)
  {
    if c1 == [] && c2 == [] {
      assert Gap(c1, c2, 0.0) == 0.0;
      return 0.0;
    }
    if c1 == [] || c2 == [] {
      OneIsEmpty(c1, c2);
      return 1.0;
    }
    var all := SortedValues(c1, c2);
    CoversBoth(c1, c2, all);
    assert all != [] by { ValueOf(c1, 0); }
    var i: nat, j: nat := 0, 0;
    var p1, p2 := 0.0, 0.0;
    d := 0.0;
    ghost var prev := all[0];
    ghost var attainedAt := GapBelow(c1, c2, all);
    for t := 0 to |all|
      invariant Passed(c1, i, p1, prev) && Passed(c2, j, p2, prev)
      invariant forall k | t <= k < |all| :: prev <= all[k]
      invariant d >= 0.0 && Gap(c1, c2, attainedAt) == d
      invariant forall k | 0 <= k < t :: Gap(c1, c2, all[k]) <= d
    {
      var v := all[t];
      prev := v;
      i, p1 := Advance(c1, i, p1, v);
      j, p2 := Advance(c2, j, p2, v);
      var diff := Abs(p1 - p2);
      assert diff == Gap(c1, c2, v);
      if diff > d { d, attainedAt := diff, v; }
    }
    forall x ensures Gap(c1, c2, x) <= d { GapIsCovered(c1, c2, all, x); }
  }

  lemma {:induction false} CoversBoth(c1: seq<Point>, c2: seq<Point>, vs: seq<real>)
    requires forall v :: v in vs <==> v in Values(c1) + Values(c2)
    ensures Covers(vs, c1) && Covers(vs, c2)
  {
    forall k | 0 <= k < |c1| ensures c1[k].value in vs { ValueOf(c1, k); }
    forall k | 0 <= k < |c2| ensures c2[k].value in vs { ValueOf(c2, k); }
  }

  lemma {:induction false} GapBelow(c1: seq<Point>, c2: seq<Point>, vs: seq<real>) returns (x: real)
    requires Increasing(vs) && Covers(vs, c1) && Covers(vs, c2)
    ensures Gap(c1, c2, x) == 0.0
  {
    x := if vs == [] then 0.0 else vs[0] - 1.0;
    AtBelow(c1, x);
    AtBelow(c2, x);
  }

  /** The special case for one empty side agrees with the supremum because the other
      function reaches exactly 1. */
  lemma {:induction false} OneIsEmpty(c1: seq<Point>, c2: seq<Point>)
    requires IsCdf(c1) && IsCdf(c2) && (c1 == [] <==> c2 != [])
    ensures IsSupremum(c1, c2, 1.0)
  {
    var c := if c1 == [] then c2 else c1;
    var x := c[|c| - 1].value;
    assert Gap(c1, c2, x) == 1.0;
    forall y ensures Gap(c1, c2, y) <= 1.0 { AtRange(c1, y); AtRange(c2, y); }
  }

  /** The statistic lies in [0, 1] and is zero exactly for equal step functions. */
  lemma {:induction false} KsRangeAndZero(c1: seq<Point>, c2: seq<Point>, d: real)
    requires IsCdf(c1) && IsCdf(c2) && IsSupremum(c1, c2, d)
    ensures 0.0 <= d <= 1.0
    ensures d == 0.0 <==> SameFunction(c1, c2)
  {
    var w :| Gap(c1, c2, w) == d;
    AtRange(c1, w);
    AtRange(c2, w);
    if d == 0.0 {
      forall x ensures At(c1, x) == At(c2, x) { assert Gap(c1, c2, x) <= d; }
    }
  }

  lemma {:induction false} KsSymmetric(c1: seq<Point>, c2: seq<Point>, d: real, e: real)
    requires IsSupremum(c1, c2, d) && IsSupremum(c2, c1, e)
    ensures d == e
  {
    var x :| Gap(c1, c2, x) == d;
    var y :| Gap(c2, c1, y) == e;
    assert Gap(c2, c1, x) == d && Gap(c1, c2, y) == e;
  }

  lemma {:induction false} KsTriangle(c1: seq<Point>, c2: seq<Point>, c3: seq<Point>, d12: real, d23: real, d13: real)
    requires IsSupremum(c1, c2, d12) && IsSupremum(c2, c3, d23) && IsSupremum(c1, c3, d13)
    ensures d13 <= d12 + d23
  {
    var x :| Gap(c1, c3, x) == d13;
    assert Gap(c1, c2, x) <= d12 && Gap(c2, c3, x) <= d23;
  }

  // ----- the Wasserstein distance -----

  /** The integral of |F1 - F2| over [vs[0], vs[last]] for breakpoints vs between which
      both functions are constant. */
  ghost function StepIntegral(c1: seq<Point>, c2: seq<Point>, vs: seq<real>): real {
    if |vs| < 2 then 0.0
    else StepIntegral(c1, c2, vs[..|vs| - 1]) + Area(Gap(c1, c2, vs[|vs| - 2]), vs[|vs| - 1] - vs[|vs| - 2])
  }

  function Area(height: real, width: real): real { height * width }

  lemma NoArea(height: real)
    ensures Area(height, 0.0) == 0.0 && Area(0.0, height) == 0.0
  {
  }

  /** Every further breakpoint adds the gap up to it times its distance from the one before. */
  lemma {:induction false} IntegralGrows(c1: seq<Point>, c2: seq<Point>, vs: seq<real>, low: real, high: real)
    ensures StepIntegral(c1, c2, vs + [low] + [high])
         == StepIntegral(c1, c2, vs + [low]) + Abs(At(c1, low) - At(c2, low)) * (high - low)
  {
    var all := vs + [low] + [high];
    assert all[..|all| - 1] == vs + [low];
  }

  lemma {:induction false} OneInterval(c1: seq<Point>, c2: seq<Point>, low: real, high: real)
    ensures StepIntegral(c1, c2, [low, high]) == Abs(At(c1, low) - At(c2, low)) * (high - low)
  {
    hide At;
    IntegralGrows(c1, c2, [], low, high);
    NoIntegral(c1, c2, low);
    assert [] + [low] + [high] == [low, high] && [] + [low] == [low];
  }

  /** The distance of two distributions concentrated in one value each is that of the values. */
  lemma {:induction false} PointMasses(x: real, y: real, w: real)
    requires IsWasserstein([Point(x, 1.0)], [Point(y, 1.0)], w)
    ensures w == if x <= y then y - x else x - y
  {
    hide StepIntegral, At, Increasing;
    var c1, c2 := [Point(x, 1.0)], [Point(y, 1.0)];
    var vs :| AreBreakpoints(vs, c1, c2) && w == StepIntegral(c1, c2, vs);
    OneValue(x);
    OneValue(y);
    var low, high := if x <= y then x else y, if x <= y then y else x;
    OnlyThose(vs, low, high);
    hide AreBreakpoints;
    if x == y {
      NoIntegral(c1, c2, x);
    } else {
      LevelIsAt(c1, if x == low then 1 else 0, low);
      LevelIsAt(c2, if y == low then 1 else 0, low);
      OneInterval(c1, c2, low, high);
    }
  }

  lemma OneValue(x: real)
    ensures Values([Point(x, 1.0)]) == {x}
  {
    assert [Point(x, 1.0)][0] in [Point(x, 1.0)];
  }

  lemma {:induction false} OnlyThose(vs: seq<real>, low: real, high: real)
    requires Increasing(vs) && low <= high && forall v :: v in vs <==> v == low || v == high
    ensures vs == if low == high then [low] else [low, high]
  {
    assert low in vs && high in vs;
    assert vs[0] in vs && vs[|vs| - 1] in vs;
    forall i, j | 0 <= i < j < |vs| ensures vs[i] == low && vs[j] == high { assert vs[i] in vs && vs[j] in vs; }
    var second := if |vs| > 1 then vs[1] else vs[0];
  }

  lemma {:induction false} NoIntegral(c1: seq<Point>, c2: seq<Point>, x: real)
    ensures StepIntegral(c1, c2, []) == 0.0 && StepIntegral(c1, c2, [x]) == 0.0
  {
  }

  ghost predicate AreBreakpoints(vs: seq<real>, c1: seq<Point>, c2: seq<Point>) {
    Increasing(vs) && forall v :: v in vs <==> v in Values(c1) + Values(c2)
  }

  /** w integrates |F1 - F2| over the breakpoints of the two functions. */
  ghost predicate IsWasserstein(c1: seq<Point>, c2: seq<Point>, w: real) {
    exists vs :: AreBreakpoints(vs, c1, c2) && w == StepIntegral(c1, c2, vs)
  }

  method WassersteinDistance(c1: seq<Point>, c2: seq<Point>) returns (w: real)
    requires IncreasingValues(c1) && IncreasingValues(c2)
    ensures IsWasserstein(c1, c2, w)
  {
    hide StepIntegral, At, Area;
    NoIntegral(c1, c2, 0.0);
    if c1 == [] && c2 == [] {
      assert AreBreakpoints([], c1, c2);
      return 0.0;
    }
    var vs := SortedValues(c1, c2);
    assert AreBreakpoints(vs, c1, c2);
    if vs == [] { return 0.0; }
    var i: nat, j: nat := 0, 0;
    var p1, p2 := 0.0, 0.0;
    w := 0.0;
    var prev := vs[0];
    assert vs[..0] == [];
    for t := 0 to |vs|
      invariant Passed(c1, i, p1, prev) && Passed(c2, j, p2, prev)
      invariant prev == vs[if t == 0 then 0 else t - 1]
      invariant t > 0 ==> p1 == At(c1, prev) && p2 == At(c2, prev)
      invariant w == StepIntegral(c1, c2, vs[..t])
    {
      var v := vs[t];
      assert vs[..t + 1] == vs[..t] + [v];
      AppendStep(c1, c2, vs[..t], v);
      if t == 0 { NoArea(Abs(p1 - p2)); }
      w := w + Area(Abs(p1 - p2), v - prev);
      i, p1 := Advance(c1, i, p1, v);
      j, p2 := Advance(c2, j, p2, v);
      prev := v;
    }
    assert vs[..|vs|] == vs;
  }

  // ----- the sum is the integral: extra breakpoints change nothing -----

  /** |F1 - F2| is zero before vs and constant between its members. */
  ghost predicate Steps(c1: seq<Point>, c2: seq<Point>, vs: seq<real>) {
    && (forall t, x | 0 <= t < |vs| - 1 && vs[t] <= x < vs[t + 1] :: Gap(c1, c2, x) == Gap(c1, c2, vs[t]))
    && (forall x | vs != [] && x < vs[0] :: Gap(c1, c2, x) == 0.0)
  }

  lemma {:induction false} CoveringSteps(c1: seq<Point>, c2: seq<Point>, vs: seq<real>)
    requires Increasing(vs) && Covers(vs, c1) && Covers(vs, c2)
    ensures Steps(c1, c2, vs)
  {
    forall t, x | 0 <= t < |vs| - 1 && vs[t] <= x < vs[t + 1] ensures Gap(c1, c2, x) == Gap(c1, c2, vs[t]) {
      AtIsConstant(c1, vs[t], x);
      AtIsConstant(c2, vs[t], x);
    }
    forall x | vs != [] && x < vs[0] ensures Gap(c1, c2, x) == 0.0 {
      AtBelow(c1, x);
      AtBelow(c2, x);
    }
  }

  /** Past every breakpoint two distributions agree: both have reached 1. */
  lemma {:induction false} NoGapAtEnd(c1: seq<Point>, c2: seq<Point>, vs: seq<real>)
    requires IsCdf(c1) && IsCdf(c2) && c1 != [] && c2 != []
    requires Increasing(vs) && Covers(vs, c1) && Covers(vs, c2)
    ensures vs != [] && Gap(c1, c2, vs[|vs| - 1]) == 0.0
  {
    assert c1[0].value in vs;
    LevelIsAt(c1, |c1|, vs[|vs| - 1]);
    LevelIsAt(c2, |c2|, vs[|vs| - 1]);
  }

  function Insert(vs: seq<real>, x: real): seq<real> {
    if vs == [] || vs[|vs| - 1] < x then vs + [x]
    else Insert(vs[..|vs| - 1], x) + [vs[|vs| - 1]]
  }

  lemma {:induction false} InsertSorts(vs: seq<real>, x: real)
    requires Increasing(vs) && x !in vs
    ensures Increasing(Insert(vs, x)) && |Insert(vs, x)| == |vs| + 1
    ensures forall v :: v in Insert(vs, x) <==> v in vs || v == x
  {
    if vs != [] && x < vs[|vs| - 1] {
      var front, last := vs[..|vs| - 1], vs[|vs| - 1];
      InsertSorts(front, x);
      assert vs == front + [last];
      forall k | 0 <= k < |front| + 1 ensures Insert(front, x)[k] < last {
        assert Insert(front, x)[k] in Insert(front, x);
      }
    }
  }

  lemma {:induction false} StepsOfFront(c1: seq<Point>, c2: seq<Point>, vs: seq<real>, x: real)
    requires Increasing(vs) && vs != [] && Steps(c1, c2, vs)
    ensures var n := |vs| - 1;
      && Increasing(vs[..n]) && Steps(c1, c2, vs[..n])
      && (n > 0 && vs[n - 1] <= x < vs[n] ==> Gap(c1, c2, x) == Gap(c1, c2, vs[n - 1]))
      && (x < vs[0] ==> Gap(c1, c2, x) == 0.0)
  {
    hide Gap;
  }

  lemma {:induction false} InsertKeepsIntegral(c1: seq<Point>, c2: seq<Point>, vs: seq<real>, x: real)
    requires Increasing(vs) && vs != [] && x !in vs && Steps(c1, c2, vs)
    requires x > vs[|vs| - 1] ==> Gap(c1, c2, vs[|vs| - 1]) == 0.0
    ensures StepIntegral(c1, c2, Insert(vs, x)) == StepIntegral(c1, c2, vs)
  {
    hide At, Area, StepIntegral, Insert, Gap, Steps;
    var n := |vs| - 1;
    var front, last := vs[..n], vs[n];
    assert vs == front + [last];
    StepsOfFront(c1, c2, vs, x);
    InsertCases(vs, x);
    if x > last {
      AppendStep(c1, c2, vs, x);
      NoArea(x - last);
    } else if n == 0 {
      InsertCases(front, x);
      NoIntegral(c1, c2, x);
      NoIntegral(c1, c2, last);
      assert front + [x] == [x] && vs == [last];
      AppendStep(c1, c2, [x], last);
      NoArea(last - x);
    } else {
      InsertCases(front, x);
      if x > front[n - 1] {
        InsertStep(c1, c2, front, x, last);
      } else {
        InsertKeepsIntegral(c1, c2, front, x);
        AppendStep(c1, c2, front, last);
        AppendStep(c1, c2, Insert(front, x), last);
      }
    }
  }

  lemma {:induction false} InsertCases(vs: seq<real>, x: real)
    ensures vs == [] || vs[|vs| - 1] < x ==> Insert(vs, x) == vs + [x]
    ensures vs != [] && vs[|vs| - 1] >= x ==> Insert(vs, x) == Insert(vs[..|vs| - 1], x) + [vs[|vs| - 1]]
  {
  }

  lemma {:induction false} InsertStep(c1: seq<Point>, c2: seq<Point>, vs: seq<real>, x: real, last: real)
    requires vs != [] && Gap(c1, c2, x) == Gap(c1, c2, vs[|vs| - 1])
    ensures StepIntegral(c1, c2, vs + [x] + [last]) == StepIntegral(c1, c2, vs + [last])
  {
    hide At, Area, StepIntegral;
    AppendStep(c1, c2, vs, last);
    AppendStep(c1, c2, vs, x);
    AppendStep(c1, c2, vs + [x], last);
    SplitArea(Gap(c1, c2, x), vs[|vs| - 1], x, last);
  }

  lemma {:induction false} AppendStep(c1: seq<Point>, c2: seq<Point>, vs: seq<real>, x: real)
    ensures StepIntegral(c1, c2, vs + [x])
         == StepIntegral(c1, c2, vs) + if vs == [] then 0.0 else Area(Gap(c1, c2, vs[|vs| - 1]), x - vs[|vs| - 1])
  {
    assert (vs + [x])[..|vs|] == vs;
  }

  lemma SplitArea(g: real, a: real, b: real, c: real)
    ensures Area(g, b - a) + Area(g, c - b) == Area(g, c - a)
  {
  }

  lemma {:induction false} LastIsGreatest(a: seq<real>)
    requires Increasing(a) && a != []
    ensures var front, last := a[..|a| - 1], a[|a| - 1];
      && last in a && (forall v | v in a :: v <= last)
      && (forall v :: v in front <==> v in a && v != last)
  {
  }

  lemma {:induction false} SameMembersSameOrder(a: seq<real>, b: seq<real>)
    requires Increasing(a) && Increasing(b) && forall v :: v in a <==> v in b
    ensures a == b
  {
    if a == [] {
      assert forall k | 0 <= k < |b| :: b[k] in b;
    } else {
      LastIsGreatest(a);
      assert a[|a| - 1] in b;
      LastIsGreatest(b);
      SameMembersSameOrder(a[..|a| - 1], b[..|b| - 1]);
      assert a == a[..|a| - 1] + [a[|a| - 1]] && b == b[..|b| - 1] + [b[|b| - 1]];
    }
  }

  function Members(vs: seq<real>): set<real> { set v | v in vs }

  /** Any finer partition gives the same sum, so the sum is the integral of |F1 - F2|. */
  lemma {:induction false} RefinementKeepsIntegral(c1: seq<Point>, c2: seq<Point>, coarse: seq<real>, fine: seq<real>)
    requires IsCdf(c1) && IsCdf(c2) && c1 != [] && c2 != []
    requires Increasing(coarse) && Covers(coarse, c1) && Covers(coarse, c2)
    requires Increasing(fine) && forall v | v in coarse :: v in fine
    ensures StepIntegral(c1, c2, fine) == StepIntegral(c1, c2, coarse)
    decreases Members(fine) - Members(coarse)
  {
    hide StepIntegral, At, Insert;
    if x :| x in fine && x !in coarse {
      CoveringSteps(c1, c2, coarse);
      NoGapAtEnd(c1, c2, coarse);
      InsertSorts(coarse, x);
      InsertKeepsIntegral(c1, c2, coarse, x);
      assert x in Members(fine) - Members(coarse) && x in Members(Insert(coarse, x));
      RefinementKeepsIntegral(c1, c2, Insert(coarse, x), fine);
    } else {
      SameMembersSameOrder(coarse, fine);
    }
  }

  lemma {:induction false} DistanceIsIntegral(c1: seq<Point>, c2: seq<Point>, w: real, vs: seq<real>)
    requires IsCdf(c1) && IsCdf(c2) && c1 != [] && c2 != [] && IsWasserstein(c1, c2, w)
    requires Increasing(vs) && Covers(vs, c1) && Covers(vs, c2)
    ensures w == StepIntegral(c1, c2, vs)
  {
    var all :| AreBreakpoints(all, c1, c2) && w == StepIntegral(c1, c2, all);
    CoversBoth(c1, c2, all);
    forall v | v in all ensures v in vs {
      if v in Values(c1) {
        var q :| q in c1 && q.value == v;
        var k :| 0 <= k < |c1| && c1[k] == q;
      } else {
        var q :| q in c2 && q.value == v;
        var k :| 0 <= k < |c2| && c2[k] == q;
      }
    }
    RefinementKeepsIntegral(c1, c2, all, vs);
  }

  // ----- the Wasserstein distance is a metric -----

  lemma {:induction false} CommonRefinement(a: seq<real>, b: seq<real>) returns (vs: seq<real>)
    requires Increasing(a)
    ensures Increasing(vs) && forall v :: v in vs <==> v in a || v in b
  {
    if b == [] {
      vs := a;
    } else {
      vs := CommonRefinement(a, b[..|b| - 1]);
      var x := b[|b| - 1];
      assert b == b[..|b| - 1] + [x];
      if x !in vs {
        InsertSorts(vs, x);
        vs := Insert(vs, x);
      }
    }
  }

  lemma {:induction false} IntegralSymmetric(c1: seq<Point>, c2: seq<Point>, vs: seq<real>)
    ensures StepIntegral(c1, c2, vs) == StepIntegral(c2, c1, vs)
  {
    hide At, Area;
    if |vs| >= 2 { IntegralSymmetric(c1, c2, vs[..|vs| - 1]); }
  }

  lemma {:induction false} IntegralTriangle(c1: seq<Point>, c2: seq<Point>, c3: seq<Point>, vs: seq<real>)
    requires Increasing(vs)
    ensures StepIntegral(c1, c3, vs) <= StepIntegral(c1, c2, vs) + StepIntegral(c2, c3, vs)
  {
    hide At, Area;
    if |vs| >= 2 {
      var n := |vs| - 1;
      IntegralTriangle(c1, c2, c3, vs[..n]);
      var x, d := vs[n - 1], vs[n] - vs[n - 1];
      assert Gap(c1, c3, x) <= Gap(c1, c2, x) + Gap(c2, c3, x);
      ScaledTriangle(Gap(c1, c3, x), Gap(c1, c2, x), Gap(c2, c3, x), d);
    }
  }

  lemma ScaledTriangle(a: real, b: real, c: real, d: real)
    requires a <= b + c && d > 0.0
    ensures Area(a, d) <= Area(b, d) + Area(c, d)
  {
    Scales(d, a, b + c);
  }

  /** A zero integral leaves no gap on any step. */
  lemma {:induction false} ZeroIntegral(c1: seq<Point>, c2: seq<Point>, vs: seq<real>)
    requires Increasing(vs)
    ensures StepIntegral(c1, c2, vs) >= 0.0
    ensures StepIntegral(c1, c2, vs) == 0.0 ==> forall t | 0 <= t < |vs| - 1 :: Gap(c1, c2, vs[t]) == 0.0
  {
    hide At, Area;
    if |vs| >= 2 {
      var n := |vs| - 1;
      ZeroIntegral(c1, c2, vs[..n]);
      ZeroProduct(Gap(c1, c2, vs[n - 1]), vs[n] - vs[n - 1]);
    }
  }

  lemma ZeroProduct(g: real, d: real)
    requires g >= 0.0 && d > 0.0
    ensures Area(g, d) >= 0.0 && (Area(g, d) == 0.0 ==> g == 0.0)
  {
  }

  lemma {:induction false} NoGapNoIntegral(c1: seq<Point>, c2: seq<Point>, vs: seq<real>)
    requires forall x :: Gap(c1, c2, x) == 0.0
    ensures StepIntegral(c1, c2, vs) == 0.0
  {
    hide At, Area;
    if |vs| >= 2 {
      NoGapNoIntegral(c1, c2, vs[..|vs| - 1]);
      NoArea(vs[|vs| - 1] - vs[|vs| - 2]);
    }
  }

  lemma {:induction false} WassersteinSymmetric(c1: seq<Point>, c2: seq<Point>, w: real, u: real)
    requires IsWasserstein(c1, c2, w) && IsWasserstein(c2, c1, u)
    ensures w == u
  {
    var a :| AreBreakpoints(a, c1, c2) && w == StepIntegral(c1, c2, a);
    var b :| AreBreakpoints(b, c2, c1) && u == StepIntegral(c2, c1, b);
    SameMembersSameOrder(a, b);
    IntegralSymmetric(c1, c2, a);
  }

  /** Two step functions with no integral between them agree everywhere. */
  lemma {:induction false} NoIntegralNoGap(c1: seq<Point>, c2: seq<Point>, vs: seq<real>, x: real)
    requires IsCdf(c1) && IsCdf(c2) && c1 != [] && c2 != []
    requires Increasing(vs) && Covers(vs, c1) && Covers(vs, c2) && StepIntegral(c1, c2, vs) == 0.0
    ensures Gap(c1, c2, x) == 0.0
  {
    hide StepIntegral, At;
    ZeroIntegral(c1, c2, vs);
    NoGapAtEnd(c1, c2, vs);
    GapIsCovered(c1, c2, vs, x);
    if v :| v in vs && Gap(c1, c2, x) == Gap(c1, c2, v) {
      var t :| 0 <= t < |vs| && vs[t] == v;
      assert Gap(c1, c2, vs[t]) == 0.0;
    }
  }

  /** The distance is never negative, and zero exactly for equal step functions. */
  lemma {:induction false} WassersteinZero(c1: seq<Point>, c2: seq<Point>, w: real)
    requires IsCdf(c1) && IsCdf(c2) && c1 != [] && c2 != [] && IsWasserstein(c1, c2, w)
    ensures w >= 0.0
    ensures w == 0.0 <==> SameFunction(c1, c2)
  {
    hide StepIntegral;
    var vs :| AreBreakpoints(vs, c1, c2) && w == StepIntegral(c1, c2, vs);
    CoversBoth(c1, c2, vs);
    ZeroIntegral(c1, c2, vs);
    if w == 0.0 {
      forall x ensures At(c1, x) == At(c2, x) {
        NoIntegralNoGap(c1, c2, vs, x);
      }
    } else if SameFunction(c1, c2) {
      forall x ensures Gap(c1, c2, x) == 0.0 { assert At(c1, x) == At(c2, x); }
      NoGapNoIntegral(c1, c2, vs);
    }
  }

  lemma {:induction false} WassersteinTriangle(c1: seq<Point>, c2: seq<Point>, c3: seq<Point>, w12: real, w23: real, w13: real)
    requires IsCdf(c1) && IsCdf(c2) && IsCdf(c3) && c1 != [] && c2 != [] && c3 != []
    requires IsWasserstein(c1, c2, w12) && IsWasserstein(c2, c3, w23) && IsWasserstein(c1, c3, w13)
    ensures w13 <= w12 + w23
  {
    hide StepIntegral, At;
    var a :| AreBreakpoints(a, c1, c2);
    var b :| AreBreakpoints(b, c2, c3);
    var vs := CommonRefinement(a, b);
    CoversBoth(c1, c2, a);
    CoversBoth(c2, c3, b);
    DistanceIsIntegral(c1, c2, w12, vs);
    DistanceIsIntegral(c2, c3, w23, vs);
    DistanceIsIntegral(c1, c3, w13, vs);
    IntegralTriangle(c1, c2, c3, vs);
  }
}
