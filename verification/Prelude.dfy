/** Shared vocabulary: optional values, the integer widths of the counters and the
    least element of a finite set (the order in which ordered containers iterate). */
module Prelude {
  datatype Option<+T> = None | Some(value: T)

  /** How an update that may be refused ends. */
  datatype Outcome = Done | Raised(error: Error)

  datatype Error = InvalidArgument | OverflowError

  // Counters are kept in signed or unsigned 64-bit integers.
  const MAX_INT64: int := 0x7fff_ffff_ffff_ffff
  const MAX_UINT64: int := 0xffff_ffff_ffff_ffff

  function Max(x: real, y: real): real { if x >= y then x else y }

  function Min(x: real, y: real): real { if x <= y then x else y }

  function Abs(x: real): real { if x < 0.0 then -x else x }

  function Get<K>(m: map<K, int>, k: K): int { if k in m then m[k] else 0 }

  /** Scaling by a positive factor keeps both orders. */
  lemma Scales(c: real, x: real, y: real)
    requires c > 0.0
    ensures x < y <==> c * x < c * y
    ensures x <= y <==> c * x <= c * y
  {
    assert c * y - c * x == c * (y - x);
  }

  lemma SubsetCardinality<T>(a: set<T>, b: set<T>)
    requires a <= b
    ensures |a| <= |b|
  {
    assert b == a + (b - a);
  }

  /** In a rearrangement ys of xs, the last element of xs sits between two pieces that
      together rearrange the rest. */
  lemma {:induction false} SplitAtLast<T>(xs: seq<T>, ys: seq<T>) returns (a: seq<T>, b: seq<T>)
    requires xs != [] && multiset(xs) == multiset(ys)
    ensures ys == a + ([xs[|xs| - 1]] + b)
    ensures multiset(a + b) == multiset(xs[..|xs| - 1])
  {
    var front, last := xs[..|xs| - 1], xs[|xs| - 1];
    assert xs == front + [last];
    assert last in multiset(ys);
    var k :| 0 <= k < |ys| && ys[k] == last;
    a, b := ys[..k], ys[k + 1..];
    assert ys == a + ([last] + b);
    calc {
      multiset(a + b);
      multiset(a) + multiset(b);
      multiset(a) + multiset([last]) + multiset(b) - multiset([last]);
      multiset(ys) - multiset([last]);
      multiset(front);
    }
  }

  lemma Pick<T>(s: set<T>) returns (x: T)
    requires s != {}
    ensures x in s
  {
    x :| x in s;
  }

  lemma {:induction false} LeastInt(s: set<int>) returns (least: int)
    requires s != {}
    ensures least in s && forall x | x in s :: least <= x
  {
    least := Pick(s);
    if s != {least} {
      var other := LeastInt(s - {least});
      forall x | x in s ensures (if other < least then other else least) <= x {
        if x != least { assert x in s - {least}; }
      }
      if other < least { least := other; }
    }
  }

  lemma {:induction false} GreatestInt(s: set<int>) returns (greatest: int)
    requires s != {}
    ensures greatest in s && forall x | x in s :: x <= greatest
  {
    greatest := Pick(s);
    if s != {greatest} {
      var other := GreatestInt(s - {greatest});
      forall x | x in s ensures x <= (if other > greatest then other else greatest) {
        if x != greatest { assert x in s - {greatest}; }
      }
      if other > greatest { greatest := other; }
    }
  }

  lemma {:induction false} LeastReal(s: set<real>) returns (least: real)
    requires s != {}
    ensures least in s && forall x | x in s :: least <= x
  {
    least := Pick(s);
    if s != {least} {
      var other := LeastReal(s - {least});
      forall x | x in s ensures (if other < least then other else least) <= x {
        if x != least { assert x in s - {least}; }
      }
      if other < least { least := other; }
    }
  }
}
