/** The cardinality registers: the top p bits of a hash choose a register, which keeps the
    greatest position of the leading 1-bit seen among the remaining bits. */
module Cardinality {
  import opened Prelude

  function Pow2(n: nat): (p: nat)
    ensures p > 0
  {
    if n == 0 then 1 else 2 * Pow2(n - 1)
  }

  const HASHES := 0x1_0000_0000_0000_0000  // one more than the largest 64-bit hash

  predicate ValidPrecision(p: nat) { 4 <= p <= 18 }

  function BitLength(x: nat): nat { if x == 0 then 0 else 1 + BitLength(x / 2) }

  /** Leading zeros of a 64-bit word. */
  function CountLeadingZeros(w: nat): int { 64 - BitLength(w) }

  function Quotient(x: nat, m: nat): nat
    requires m > 0
  {
    x / m
  }

  function Index(p: nat, hash: nat): nat
    requires ValidPrecision(p)
  {
    Quotient(hash, Pow2(64 - p))
  }

  /** The register of a 64-bit hash is its top p bits. */
  lemma {:induction false} IndexIsTopBits(p: nat, hash: nat)
    requires ValidPrecision(p) && hash < HASHES
    ensures Index(p, hash) * Pow2(64 - p) <= hash < (Index(p, hash) + 1) * Pow2(64 - p)
    ensures Index(p, hash) < Pow2(p)
  {
    hide Pow2;
    SixtyFour();
    Pow2Adds(p, 64 - p);
    QuotientIs(hash, Pow2(64 - p), Pow2(p));
  }

  lemma QuotientIs(x: nat, m: nat, n: nat)
    requires m > 0 && x < n * m
    ensures Quotient(x, m) * m <= x < (Quotient(x, m) + 1) * m && Quotient(x, m) < n
  {
    var i := Quotient(x, m);
    assert x == m * i + x % m;
    if i > n { Gap(m, n, i); }
  }

  /** The position the source computes: shift the index bits out, then count leading
      zeros and one. */
  function Rho(p: nat, hash: nat): int
    requires ValidPrecision(p)
  {
    var w := hash * Pow2(p) % HASHES;
    if w == 0 then 64 - p + 1 else CountLeadingZeros(w) + 1
  }

  lemma {:induction false} Pow2Adds(a: nat, b: nat)
    ensures Pow2(a + b) == Pow2(a) * Pow2(b)
  {
    if a > 0 {
      Pow2Adds(a - 1, b);
      Doubles(Pow2(a - 1), Pow2(b));
    }
  }

  lemma Doubles(x: int, y: int)
    ensures 2 * (x * y) == (2 * x) * y
  {
  }

  lemma {:induction false} BitLengthBrackets(x: nat)
    requires x > 0
    ensures BitLength(x) > 0 && Pow2(BitLength(x) - 1) <= x < Pow2(BitLength(x))
  {
    if x > 1 { BitLengthBrackets(x / 2); }
  }

  lemma {:induction false} BitLengthShifts(x: nat, p: nat)
    requires x > 0
    ensures x * Pow2(p) > 0 && BitLength(x * Pow2(p)) == BitLength(x) + p
  {
    if p > 0 {
      BitLengthShifts(x, p - 1);
      var y := x * Pow2(p - 1);
      assert x * Pow2(p) == 2 * y by { Doubles(Pow2(p - 1), x); }
      assert BitLength(2 * y) == 1 + BitLength(y);
    }
  }

  lemma SixtyFour()
    ensures Pow2(64) == HASHES
  {
    assert Pow2(4) == 16;
    Pow2Adds(4, 4);
    Pow2Adds(8, 8);
    Pow2Adds(16, 16);
    Pow2Adds(32, 32);
  }

  /** Shifting left by p inside 64 bits keeps exactly the low 64 - p bits. */
  lemma ShiftKeepsLowBits(p: nat, hash: nat)
    requires ValidPrecision(p)
    ensures hash * Pow2(p) % HASHES == hash % Pow2(64 - p) * Pow2(p)
  {
    SixtyFour();
    Pow2Adds(64 - p, p);
    var m, s := Pow2(64 - p), Pow2(p);
    ScaleRemainder(hash, m, s);
  }

  lemma ScaleRemainder(x: nat, m: nat, s: nat)
    requires m > 0 && s > 0
    ensures m * s > 0 && x * s % (m * s) == x % m * s
  {
    var q, r := x / m, x % m;
    assert x == m * q + r;
    assert m * s > 0 by { Positive(m, s); }
    assert x * s == (m * s) * q + r * s by { Expand(m, q, r, s); }
    assert 0 <= r * s < m * s by { Below(r, m, s); }
    RemainderUnique(m * s, x * s, q, r * s);
  }

  lemma Positive(a: int, b: int)
    requires a > 0 && b > 0
    ensures a * b > 0
  {
  }

  lemma Expand(m: int, q: int, r: int, s: int)
    ensures (m * q + r) * s == (m * s) * q + r * s
  {
  }

  lemma Below(r: int, m: int, s: int)
    requires 0 <= r < m && s > 0
    ensures 0 <= r * s < m * s
  {
    assert (m - r) * s > 0;
  }

  lemma RemainderUnique(d: int, x: int, q: int, r: int)
    requires d > 0 && x == d * q + r && 0 <= r < d
    ensures x % d == r
  {
    var q', r' := x / d, x % d;
    assert x == d * q' + r';
    if q' < q { Gap(d, q', q); }
    if q < q' { Gap(d, q, q'); }
  }

  lemma {:induction false} Gap(d: int, a: int, b: int)
    requires d > 0 && a < b
    ensures d * a + d <= d * b
    decreases b - a
  {
    assert d * b == d * (b - 1) + d;
    if a < b - 1 { Gap(d, a, b - 1); }
  }

  /** Rho is the 1-indexed position of the leftmost 1-bit among the 64 - p bits below the
      index, and 64 - p + 1 when they are all zero; every register value is in range. */
  lemma {:induction false} RhoIsLeadingPosition(p: nat, hash: nat)
    requires ValidPrecision(p)
    ensures 1 <= Rho(p, hash) <= 64 - p + 1
    ensures var low := hash % Pow2(64 - p);
      if low == 0 then Rho(p, hash) == 64 - p + 1
      else Rho(p, hash) <= 64 - p && Pow2(64 - p - Rho(p, hash)) <= low < Pow2(64 - p - Rho(p, hash) + 1)
  {
    hide BitLength;
    var low := hash % Pow2(64 - p);
    ShiftKeepsLowBits(p, hash);
    if low == 0 {
      assert hash * Pow2(p) % HASHES == 0 * Pow2(p) == 0;
    } else {
      BitLengthShifts(low, p);
      BitLengthBrackets(low);
      assert Rho(p, hash) == 64 - p - BitLength(low) + 1;
      if BitLength(low) > 64 - p { Pow2Monotone(64 - p, BitLength(low) - 1); }
    }
  }

  lemma {:induction false} Pow2Monotone(a: nat, b: nat)
    requires a <= b
    ensures Pow2(a) <= Pow2(b)
  {
    if a < b { Pow2Monotone(a, b - 1); }
  }

  // ----- registers as values -----

  function EmptyRegisters(p: nat): seq<int>
    requires ValidPrecision(p)
  {
    seq(Pow2(p), i => 0)
  }

  /** The registers after one hash alone. */
  function Marks(p: nat, hash: nat): seq<int>
    requires ValidPrecision(p)
  {
    seq(Pow2(p), i requires 0 <= i < Pow2(p) => if i == Index(p, hash) then Rho(p, hash) else 0)
  }

  function Larger(x: int, y: int): int { if x > y then x else y }

  function MaxRegisters(a: seq<int>, b: seq<int>): (r: seq<int>)
    requires |a| == |b|
    ensures |r| == |a|
  {
    seq(|a|, i requires 0 <= i < |a| => Larger(a[i], b[i]))
  }

  function OfHashes(p: nat, hashes: seq<nat>): (r: seq<int>)
    requires ValidPrecision(p)
    ensures |r| == Pow2(p)
  {
    if hashes == [] then EmptyRegisters(p)
    else MaxRegisters(OfHashes(p, hashes[..|hashes| - 1]), Marks(p, hashes[|hashes| - 1]))
  }

  lemma {:induction false} MaxAssociates(a: seq<int>, b: seq<int>, c: seq<int>)
    requires |a| == |b| == |c|
    ensures MaxRegisters(MaxRegisters(a, b), c) == MaxRegisters(a, MaxRegisters(b, c))
  {
  }

  lemma {:induction false} MaxCommutes(a: seq<int>, b: seq<int>)
    requires |a| == |b|
    ensures MaxRegisters(a, b) == MaxRegisters(b, a)
  {
  }

  /** Every register holds a value in [0, 64 - p + 1]. */
  lemma {:induction false} RegistersInRange(p: nat, hashes: seq<nat>, i: nat)
    requires ValidPrecision(p) && i < Pow2(p)
    ensures 0 <= OfHashes(p, hashes)[i] <= 64 - p + 1
  {
    hide Rho, Index;
    if hashes != [] {
      RegistersInRange(p, hashes[..|hashes| - 1], i);
      RhoIsLeadingPosition(p, hashes[|hashes| - 1]);
    }
  }

  lemma {:induction false} HashesJoin(p: nat, xs: seq<nat>, ys: seq<nat>)
    requires ValidPrecision(p)
    ensures OfHashes(p, xs + ys) == MaxRegisters(OfHashes(p, xs), OfHashes(p, ys))
  {
    hide Rho, Index;
    if ys == [] {
      assert xs + ys == xs;
      forall i | 0 <= i < Pow2(p) ensures OfHashes(p, xs)[i] >= 0 { RegistersInRange(p, xs, i); }
      assert MaxRegisters(OfHashes(p, xs), EmptyRegisters(p)) == OfHashes(p, xs);
    } else {
      var front, last := ys[..|ys| - 1], ys[|ys| - 1];
      assert (xs + ys)[..|xs + ys| - 1] == xs + front;
      HashesJoin(p, xs, front);
      MaxAssociates(OfHashes(p, xs), OfHashes(p, front), Marks(p, last));
    }
  }

  lemma {:induction false} OneMoreHash(p: nat, hashes: seq<nat>, i: nat)
    requires ValidPrecision(p) && i < Pow2(p) && hashes != []
    ensures var n := |hashes| - 1;
      OfHashes(p, hashes)[i] == Larger(OfHashes(p, hashes[..n])[i], if Index(p, hashes[n]) == i then Rho(p, hashes[n]) else 0)
  {
    hide Rho, Index, Pow2;
  }

  /** A register is the maximum over the hashes it was chosen by. */
  lemma {:induction false} RegisterIsMaximum(p: nat, hashes: seq<nat>, i: nat)
    requires ValidPrecision(p) && i < Pow2(p)
    ensures forall h | h in hashes && Index(p, h) == i :: Rho(p, h) <= OfHashes(p, hashes)[i]
    ensures OfHashes(p, hashes)[i] == 0
         || exists h | h in hashes && Index(p, h) == i :: OfHashes(p, hashes)[i] == Rho(p, h)
  {
    hide Rho, Index, Pow2, OfHashes;
    if hashes == [] {
      NoHashes(p, i);
    } else {
      var front, last := hashes[..|hashes| - 1], hashes[|hashes| - 1];
      RegisterIsMaximum(p, front, i);
      OneMoreHash(p, hashes, i);
      assert hashes == front + [last];
      assert last in hashes;
      if h :| h in front && Index(p, h) == i && OfHashes(p, front)[i] == Rho(p, h) {
        assert h in hashes;
      }
    }
  }

  lemma NoHashes(p: nat, i: nat)
    requires ValidPrecision(p) && i < Pow2(p)
    ensures OfHashes(p, [])[i] == 0
  {
  }

  /** Repetitions and order leave no trace: equal sets of hashes give equal registers. */
  lemma {:induction false} OnlyTheSetMatters(p: nat, xs: seq<nat>, ys: seq<nat>)
    requires ValidPrecision(p) && forall h :: h in xs <==> h in ys
    ensures OfHashes(p, xs) == OfHashes(p, ys)
  {
    hide Rho, Index, OfHashes;
    forall i | 0 <= i < Pow2(p) ensures OfHashes(p, xs)[i] == OfHashes(p, ys)[i] {
      RegisterIsMaximum(p, xs, i);
      RegisterIsMaximum(p, ys, i);
      RegistersInRange(p, xs, i);
      RegistersInRange(p, ys, i);
    }
  }

  // ----- the register object -----

  class HyperLogLog {
    const precision: nat
    const registers: array<int>
    ghost var hashes: seq<nat>  // everything added so far, merges included

    ghost predicate Valid()
      reads this, registers
    {
      && ValidPrecision(precision) && registers[..] == OfHashes(precision, hashes)
      && forall h | h in hashes :: h < HASHES
    }

    constructor (precision: nat)
      requires ValidPrecision(precision)
      ensures Valid() && hashes == [] && this.precision == precision && fresh(registers)
    {
      this.precision := precision;
      registers := new int[Pow2(precision)](_ => 0);
      hashes := [];
      new;
      assert registers[..] == EmptyRegisters(precision);
    }

    constructor Copy(other: HyperLogLog)
      requires other.Valid()
      ensures Valid() && hashes == other.hashes && precision == other.precision && fresh(registers)
    {
      precision := other.precision;
      registers := new int[other.registers.Length](i requires 0 <= i < other.registers.Length reads other.registers => other.registers[i]);
      hashes := other.hashes;
      new;
      assert registers[..] == other.registers[..];
    }

    method Add(hash: nat)
      requires Valid() && hash < HASHES
      modifies this`hashes, registers
      ensures Valid() && hashes == old(hashes) + [hash]
    {
      hide Rho, Index, OfHashes;
      IndexInRange(precision, hash);
      var index, r := Index(precision, hash), Rho(precision, hash);
      ghost var was := registers[..];
      forall i | 0 <= i < |was| ensures was[i] >= 0 { RegistersInRange(precision, hashes, i); }
      if r > registers[index] { registers[index] := r; }
      assert registers[..] == MaxRegisters(was, Marks(precision, hash));
      HashesGrow(precision, hashes, hash);
      hashes := hashes + [hash];
    }

    /** Takes the register-wise maximum; refused on a different precision. */
    method Merge(other: HyperLogLog) returns (outcome: Outcome)
      requires Valid() && other.Valid() && (other != this ==> other.registers != registers)
      modifies this`hashes, registers
      ensures Valid()
      ensures outcome == if precision != other.precision then Raised(InvalidArgument) else Done
      ensures hashes == if outcome.Done? then old(hashes + other.hashes) else old(hashes)
    {
      hide OfHashes;
      if precision != other.precision { return Raised(InvalidArgument); }
      ghost var mine, theirs := registers[..], other.registers[..];
      for i := 0 to registers.Length
        invariant forall k | 0 <= k < registers.Length :: registers[k] == if k < i then Larger(mine[k], theirs[k]) else mine[k]
        invariant other != this ==> other.registers[..] == theirs
        modifies registers
      {
        if other.registers[i] > registers[i] { registers[i] := other.registers[i]; }
      }
      assert registers[..] == MaxRegisters(mine, theirs);
      HashesJoin(precision, hashes, other.hashes);
      hashes := hashes + other.hashes;
      outcome := Done;
    }
  }

  lemma {:induction false} HashesGrow(p: nat, hashes: seq<nat>, hash: nat)
    requires ValidPrecision(p)
    ensures OfHashes(p, hashes + [hash]) == MaxRegisters(OfHashes(p, hashes), Marks(p, hash))
  {
    hide Rho, Index;
    assert (hashes + [hash])[..|hashes|] == hashes;
  }

  lemma IndexInRange(p: nat, hash: nat)
    requires ValidPrecision(p) && hash < HASHES
    ensures Index(p, hash) < Pow2(p)
  {
    SixtyFour();
    Pow2Adds(64 - p, p);
    QuotientBelow(hash, Pow2(64 - p), Pow2(p));
  }

  lemma QuotientBelow(x: nat, m: nat, n: nat)
    requires m > 0 && x < m * n
    ensures x / m < n
  {
    var q := x / m;
    assert x == m * q + x % m;
    if n < q { Gap(m, n, q); }
  }
}
