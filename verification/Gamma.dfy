/** The logarithmic index mapping of the quantile sketch, in exact arithmetic:
    bucket i holds the magnitudes in (gamma^(i-1), gamma^i], and its representative is
    2 * gamma^i / (1 + gamma) with gamma = (1 + alpha) / (1 - alpha). */
module Gamma {
  import opened Prelude

  predicate ValidAlpha(alpha: real) { 0.0 < alpha < 1.0 }

  function GammaOf(alpha: real): (g: real)
    requires ValidAlpha(alpha)
    ensures g > 1.0
  {
    (1.0 + alpha) / (1.0 - alpha)
  }

  function NatPow(g: real, n: nat): (p: real)
    requires g > 0.0
    ensures p > 0.0
  {
    if n == 0 then 1.0 else g * NatPow(g, n - 1)
  }

  /** g to an integer power, negative powers included. */
  function Pow(g: real, i: int): (p: real)
    requires g > 1.0
    ensures p > 0.0
  {
    if i >= 0 then NatPow(g, i) else NatPow(1.0 / g, -i)
  }

  lemma PowStep(g: real, i: int)
    requires g > 1.0
    ensures Pow(g, i + 1) == g * Pow(g, i)
  {
    if i < 0 {
      var h := 1.0 / g;
      assert g * h == 1.0;
      var p := NatPow(h, -i - 1);
      assert Pow(g, i) == h * p;
      Regroup(g, h, p);
    }
  }

  lemma Regroup(a: real, b: real, c: real)
    ensures a * (b * c) == (a * b) * c
  {
  }

  lemma PowGrows(g: real, i: int)
    requires g > 1.0
    ensures Pow(g, i) < Pow(g, i + 1)
  {
    hide Pow;
    PowStep(g, i);
    Multiplies(g, Pow(g, i));
  }

  lemma Multiplies(g: real, p: real)
    requires g > 1.0 && p > 0.0
    ensures p < g * p
  {
    assert g * p - p == (g - 1.0) * p > 0.0;
  }

  lemma {:induction false} PowIncreases(g: real, i: int, j: int)
    requires g > 1.0 && i < j
    ensures Pow(g, i) < Pow(g, j)
    decreases j - i
  {
    PowGrows(g, j - 1);
    if i < j - 1 { PowIncreases(g, i, j - 1); }
  }

  /** How far v is from the home bucket (1/g, 1]; bounds the search for its index. */
  ghost function Distance(g: real, v: real): (d: real)
    requires g > 1.0 && v > 0.0
    ensures d >= 0.0
  {
    if v > 1.0 then v * (g / (g - 1.0)) else if v * g <= 1.0 then (1.0 / v) * (g / (g - 1.0)) else 0.0
  }

  lemma DistanceShrinks(g: real, v: real)
    requires g > 1.0 && v > 0.0
    ensures v > 1.0 ==> v / g > 0.0 && Distance(g, v / g) <= Distance(g, v) - 1.0
    ensures v * g <= 1.0 ==> v * g > 0.0 && Distance(g, v * g) <= Distance(g, v) - 1.0
  {
    var c := g / (g - 1.0);
    assert c * (g - 1.0) == g;
    assert c > 1.0;
    if v > 1.0 {
      var w := v / g;
      assert w * g == v;
      assert w > 0.0;
      assert v * c - w * c == v by { assert v * c - w * c == w * (c * (g - 1.0)); }
      assert v * c > v > 1.0;
    } else if v * g <= 1.0 {
      var w := v * g;
      assert w > 0.0;
      var u := 1.0 / v;
      var x := 1.0 / w;
      assert u * v == 1.0 && x * w == 1.0;
      assert x * g == u by { assert x * g * v == 1.0; assert (x * g - u) * v == 0.0; }
      assert u * c - x * c == u by { assert u * c - x * c == x * (c * (g - 1.0)); }
      assert u >= g > 1.0 by { assert u * v >= g * v; }
    }
  }

  /** The bucket index of a magnitude: the source rounds log(v)/log(gamma) up; in exact
      arithmetic that index moves by one each time v is scaled by gamma. */
  function Key(g: real, v: real): int
    requires g > 1.0 && v > 0.0
    decreases Distance(g, v)
  {
    DistanceShrinks(g, v);
    if v > 1.0 then Key(g, v / g) + 1
    else if v * g <= 1.0 then Key(g, v * g) - 1
    else 0
  }

  ghost predicate Brackets(g: real, v: real, i: int)
    requires g > 1.0
  {
    Pow(g, i - 1) < v <= Pow(g, i)
  }

  lemma BracketScales(g: real, w: real, i: int)
    requires g > 1.0 && w > 0.0
    ensures Brackets(g, w, i) <==> Brackets(g, g * w, i + 1)
  {
    PowStep(g, i - 1);
    PowStep(g, i);
    Rescale(g, Pow(g, i - 1), w, Pow(g, i), g * w, Pow(g, i + 1));
  }

  lemma Rescale(g: real, low: real, w: real, mid: real, v: real, high: real)
    requires g > 0.0 && mid == g * low && v == g * w && high == g * mid
    ensures low < w <= mid <==> mid < v <= high
  {
    Scales(g, low, w);
    Scales(g, w, mid);
  }

  /** Key is the logarithm rounded up: v lies in (g^(i-1), g^i] for i = Key(v). */
  lemma {:induction false} KeyBrackets(g: real, v: real)
    requires g > 1.0 && v > 0.0
    ensures Pow(g, Key(g, v) - 1) < v <= Pow(g, Key(g, v))
    decreases Distance(g, v)
  {
    hide Pow, Key, Distance;
    DistanceShrinks(g, v);
    KeySteps(g, v);
    if v > 1.0 {
      Divides(g, v);
      KeyBrackets(g, v / g);
      BracketScales(g, v / g, Key(g, v / g));
    } else if v * g <= 1.0 {
      Commutes(g, v);
      KeyBrackets(g, v * g);
      BracketScales(g, v, Key(g, v * g) - 1);
    } else {
      Commutes(g, v);
      PowOfZero(g);
      PowStep(g, -1);
      Scales(g, Pow(g, -1), v);
    }
  }

  lemma KeySteps(g: real, v: real)
    requires g > 1.0 && v > 0.0
    ensures v > 1.0 ==> v / g > 0.0 && Key(g, v) == Key(g, v / g) + 1
    ensures v <= 1.0 && v * g <= 1.0 ==> v * g > 0.0 && Key(g, v) == Key(g, v * g) - 1
    ensures v <= 1.0 && v * g > 1.0 ==> Key(g, v) == 0
  {
    DistanceShrinks(g, v);
  }

  lemma Divides(g: real, v: real)
    requires g != 0.0
    ensures g * (v / g) == v
  {
  }

  lemma Commutes(g: real, v: real)
    ensures v * g == g * v
  {
  }

  lemma PowOfZero(g: real)
    requires g > 1.0
    ensures Pow(g, 0) == 1.0
  {
  }

  /** ... and the only such index, so it is the least i with v <= g^i. */
  lemma {:induction false} KeyIsLeast(g: real, v: real, i: int)
    requires g > 1.0 && v > 0.0
    ensures v <= Pow(g, i) <==> Key(g, v) <= i
  {
    KeyBrackets(g, v);
    hide Key, Pow;
    if i < Key(g, v) - 1 { PowIncreases(g, i, Key(g, v) - 1); }
    if Key(g, v) < i { PowIncreases(g, Key(g, v), i); }
  }

  lemma {:induction false} KeyMonotone(g: real, v: real, w: real)
    requires g > 1.0 && 0.0 < v <= w
    ensures Key(g, v) <= Key(g, w)
  {
    KeyBrackets(g, w);
    KeyIsLeast(g, v, Key(g, w));
  }

  /** The value a bucket is reported as. */
  function BucketValue(g: real, i: int): (r: real)
    requires g > 1.0
    ensures r > 0.0
  {
    2.0 / (1.0 + g) * Pow(g, i)
  }

  lemma {:induction false} BucketValueIncreases(g: real, i: int, j: int)
    requires g > 1.0 && i < j
    ensures BucketValue(g, i) < BucketValue(g, j)
  {
    hide Pow;
    PowIncreases(g, i, j);
    var c := 2.0 / (1.0 + g);
    assert c > 0.0;
    Scales(c, Pow(g, i), Pow(g, j));
  }

  /** Any index that brackets v represents it within the accuracy, one side strictly. */
  lemma {:induction false} BucketAccuracy(alpha: real, i: int, v: real)
    requires ValidAlpha(alpha)
    requires Pow(GammaOf(alpha), i - 1) < v <= Pow(GammaOf(alpha), i)
    ensures (1.0 - alpha) * v <= BucketValue(GammaOf(alpha), i) < (1.0 + alpha) * v
  {
    hide Pow, GammaOf;
    var g := GammaOf(alpha);
    RepresentativeFactor(alpha);
    PowStep(g, i - 1);
    Between(1.0 - alpha, 1.0 + alpha, g, Pow(g, i - 1), Pow(g, i), v);
  }

  lemma Between(less: real, more: real, g: real, low: real, high: real, v: real)
    requires less > 0.0 && more > 0.0 && less * g == more && high == g * low && low < v <= high
    ensures less * v <= less * high < more * v
  {
    Scales(less, v, high);
    Scales(more, low, v);
    Regroup(less, g, low);
  }

  lemma RepresentativeFactor(alpha: real)
    requires ValidAlpha(alpha)
    ensures (1.0 - alpha) * GammaOf(alpha) == 1.0 + alpha
    ensures 2.0 / (1.0 + GammaOf(alpha)) == 1.0 - alpha
  {
    var g := GammaOf(alpha);
    assert (1.0 - alpha) * g == 1.0 + alpha;
    assert (1.0 + g) * (1.0 - alpha) == 2.0;
  }

  /** The test `add` makes before accepting a magnitude. */
  predicate MissesAccuracy(alpha: real, magnitude: real)
    requires ValidAlpha(alpha) && magnitude > 0.0
  {
    var g := GammaOf(alpha);
    Abs(BucketValue(g, Key(g, magnitude)) - magnitude) / magnitude > alpha
  }

  /** In exact arithmetic that test never rejects a value. */
  lemma {:induction false} AccuracyTestNeverFires(alpha: real, magnitude: real)
    requires ValidAlpha(alpha) && magnitude > 0.0
    ensures !MissesAccuracy(alpha, magnitude)
  {
    hide Key, BucketValue, Pow;
    var g := GammaOf(alpha);
    KeyBrackets(g, magnitude);
    BucketAccuracy(alpha, Key(g, magnitude), magnitude);
    RelativeError(alpha, BucketValue(g, Key(g, magnitude)), magnitude);
  }

  lemma RelativeError(alpha: real, r: real, v: real)
    requires v > 0.0 && (1.0 - alpha) * v <= r <= (1.0 + alpha) * v
    ensures Abs(r - v) <= alpha * v && Abs(r - v) / v <= alpha
  {
    assert (1.0 - alpha) * v == v - alpha * v && (1.0 + alpha) * v == v + alpha * v;
    QuotientAtMost(Abs(r - v), v, alpha);
  }

  lemma QuotientAtMost(d: real, v: real, alpha: real)
    requires v > 0.0 && d <= alpha * v
    ensures d / v <= alpha
  {
    var e := d / v;
    assert v * e == d <= v * alpha;
    Scales(v, alpha, e);
  }
}
