/** The Count-Min frequency table: a flat table of depth rows of width counters, one
    hashed counter a row for each key. The hash functions are arbitrary. */
module CountMin {
  import opened Prelude

  /** count more occurrences of a key. */
  datatype Occurrence = Occurrence(key: int, count: int)

  type Hash = (nat, int) -> nat

  datatype Counts = Counts(width: nat, depth: nat, table: seq<int>, total: int)

  // ----- positions in the flat table -----

  lemma {:induction false} RowGap(a: int, b: int, w: nat)
    requires a < b
    ensures a * w + w <= b * w
    decreases b - a
  {
    assert b * w == (b - 1) * w + w;
    if a < b - 1 { RowGap(a, b - 1, w); }
  }

  lemma DivModUnique(w: nat, i: int, r: int, c: int)
    requires 0 <= c < w && i == r * w + c
    ensures i / w == r && i % w == c
  {
    var q, m := i / w, i % w;
    assert q * w + m == i;
    if q < r { RowGap(q, r, w); }
    if q > r { RowGap(r, q, w); }
  }

  lemma InRange(w: nat, d: nat, r: nat, c: nat)
    requires c < w && r < d
    ensures 0 <= r * w + c < d * w && 0 <= r * w <= r * w + w <= d * w
  {
    if r > 0 { RowGap(0, r, w); }
    RowGap(r, d, w);
  }

  lemma RowOf(w: nat, d: nat, i: nat)
    requires w > 0 && i < d * w
    ensures 0 <= i / w < d && i == (i / w) * w + i % w
  {
    var r := i / w;
    assert i == r * w + i % w;
    if d < r { RowGap(d, r, w); }
    if r < 0 { RowGap(r, 0, w); }
  }

  // ----- tables as values -----

  function Column(h: Hash, w: nat, row: nat, key: int): (c: nat)
    requires w > 0
    ensures c < w
  {
    h(row, key) % w
  }

  function EmptyCounts(w: nat, d: nat): Counts { Counts(w, d, seq(d * w, i => 0), 0) }

  /** One key counted once in every row. */
  function Hits(h: Hash, w: nat, d: nat, o: Occurrence): Counts
    requires w > 0
  {
    Counts(w, d, seq(d * w, i requires 0 <= i < d * w => if i % w == Column(h, w, i / w, o.key) then o.count else 0), o.count)
  }

  predicate SameShape(a: Counts, b: Counts) {
    a.width == b.width && a.depth == b.depth && |a.table| == |b.table|
  }

  function AddCells(a: seq<int>, b: seq<int>): (r: seq<int>)
    requires |a| == |b|
    ensures |r| == |a|
  {
    seq(|a|, i requires 0 <= i < |a| => a[i] + b[i])
  }

  function Combine(a: Counts, b: Counts): Counts
    requires SameShape(a, b)
  {
    Counts(a.width, a.depth, AddCells(a.table, b.table), a.total + b.total)
  }

  function Sum(s: seq<int>): int {
    if s == [] then 0 else Sum(s[..|s| - 1]) + s[|s| - 1]
  }

  function Row(c: Counts, r: nat): seq<int>
    requires r < c.depth && |c.table| == c.depth * c.width
  {
    RowBounds(c, r);
    c.table[r * c.width..r * c.width + c.width]
  }

  lemma RowBounds(c: Counts, r: nat)
    requires r < c.depth
    ensures 0 <= r * c.width <= r * c.width + c.width <= c.depth * c.width
  {
    if r > 0 { RowGap(0, r, c.width); }
    RowGap(r, c.depth, c.width);
  }

  /** What every table reached by counting and merging satisfies: no negative counter, and
      every row sums to the total. */
  ghost predicate WellFormed(c: Counts) {
    && c.width > 0 && c.depth > 0 && |c.table| == c.depth * c.width && c.total >= 0
    && (forall i | 0 <= i < |c.table| :: c.table[i] >= 0)
    && (forall r | 0 <= r < c.depth :: Sum(Row(c, r)) == c.total)
  }

  lemma {:induction false} SumAdds(a: seq<int>, b: seq<int>)
    requires |a| == |b|
    ensures Sum(AddCells(a, b)) == Sum(a) + Sum(b)
  {
    if a != [] {
      var n := |a| - 1;
      assert AddCells(a, b)[..n] == AddCells(a[..n], b[..n]);
      SumAdds(a[..n], b[..n]);
    }
  }

  lemma {:induction false} CellAtMostSum(s: seq<int>, k: nat)
    requires k < |s| && forall i | 0 <= i < |s| :: s[i] >= 0
    ensures 0 <= s[k] <= Sum(s)
  {
    var n := |s| - 1;
    if k < n { CellAtMostSum(s[..n], k); } else { SumNonNegative(s[..n]); }
  }

  lemma {:induction false} SumNonNegative(s: seq<int>)
    requires forall i | 0 <= i < |s| :: s[i] >= 0
    ensures Sum(s) >= 0
  {
    if s != [] { SumNonNegative(s[..|s| - 1]); }
  }

  lemma {:induction false} SumOneHot(s: seq<int>, k: nat, x: int)
    requires forall i | 0 <= i < |s| :: s[i] == if i == k then x else 0
    ensures Sum(s) == if k < |s| then x else 0
  {
    if s != [] { SumOneHot(s[..|s| - 1], k, x); }
  }

  lemma {:induction false} SumOfZeros(s: seq<int>)
    requires forall i | 0 <= i < |s| :: s[i] == 0
    ensures Sum(s) == 0
  {
    if s != [] { SumOfZeros(s[..|s| - 1]); }
  }

  lemma CombineWellFormed(a: Counts, b: Counts)
    requires WellFormed(a) && WellFormed(b) && SameShape(a, b)
    ensures WellFormed(Combine(a, b))
  {
    var c := Combine(a, b);
    forall r | 0 <= r < c.depth ensures Sum(Row(c, r)) == c.total {
      RowBounds(c, r);
      assert Row(c, r) == AddCells(Row(a, r), Row(b, r));
      SumAdds(Row(a, r), Row(b, r));
    }
  }

  lemma EmptyWellFormed(w: nat, d: nat)
    requires w > 0 && d > 0
    ensures WellFormed(EmptyCounts(w, d))
  {
    var c := EmptyCounts(w, d);
    forall r | 0 <= r < d ensures Sum(Row(c, r)) == 0 {
      RowBounds(c, r);
      SumOfZeros(Row(c, r));
    }
  }

  lemma HitsWellFormed(h: Hash, w: nat, d: nat, o: Occurrence)
    requires w > 0 && d > 0 && o.count > 0
    ensures WellFormed(Hits(h, w, d, o))
  {
    var c := Hits(h, w, d, o);
    forall r | 0 <= r < d ensures Sum(Row(c, r)) == o.count {
      RowBounds(c, r);
      var row := Row(c, r);
      forall k | 0 <= k < w ensures row[k] == if k == Column(h, w, r, o.key) then o.count else 0 {
        DivModUnique(w, r * w + k, r, k);
        assert row[k] == c.table[r * w + k];
      }
      SumOneHot(row, Column(h, w, r, o.key), o.count);
    }
  }

  /** No counter exceeds the total, so a counter overflows only when the total does. */
  lemma {:induction false} CellAtMostTotal(c: Counts, i: nat)
    requires WellFormed(c) && i < |c.table|
    ensures 0 <= c.table[i] <= c.total
  {
    RowOf(c.width, c.depth, i);
    var r := i / c.width;
    RowBounds(c, r);
    assert Row(c, r)[i % c.width] == c.table[i];
    CellAtMostSum(Row(c, r), i % c.width);
  }

  // ----- the table of a stream -----

  predicate ValidStream(os: seq<Occurrence>) { forall o | o in os :: o.count > 0 }

  function OfStream(h: Hash, w: nat, d: nat, os: seq<Occurrence>): (c: Counts)
    requires w > 0
    ensures c.width == w && c.depth == d && |c.table| == d * w
  {
    if os == [] then EmptyCounts(w, d)
    else Combine(OfStream(h, w, d, os[..|os| - 1]), Hits(h, w, d, os[|os| - 1]))
  }

  lemma {:induction false} OfStreamWellFormed(h: Hash, w: nat, d: nat, os: seq<Occurrence>)
    requires w > 0 && d > 0 && ValidStream(os)
    ensures WellFormed(OfStream(h, w, d, os))
  {
    if os == [] {
      EmptyWellFormed(w, d);
    } else {
      OfStreamWellFormed(h, w, d, os[..|os| - 1]);
      HitsWellFormed(h, w, d, os[|os| - 1]);
      CombineWellFormed(OfStream(h, w, d, os[..|os| - 1]), Hits(h, w, d, os[|os| - 1]));
    }
  }

  function Frequency(os: seq<Occurrence>, key: int): int {
    if os == [] then 0
    else Frequency(os[..|os| - 1], key) + if os[|os| - 1].key == key then os[|os| - 1].count else 0
  }

  /** The counter a key hashes to is never below the key's true frequency. */
  lemma {:induction false} CellCoversFrequency(h: Hash, w: nat, d: nat, os: seq<Occurrence>, row: nat, key: int)
    requires w > 0 && row < d && ValidStream(os)
    ensures 0 <= row * w + Column(h, w, row, key) < d * w
    ensures Frequency(os, key) <= OfStream(h, w, d, os).table[row * w + Column(h, w, row, key)]
  {
    InRange(w, d, row, Column(h, w, row, key));
    if os != [] {
      CellCoversFrequency(h, w, d, os[..|os| - 1], row, key);
      DivModUnique(w, row * w + Column(h, w, row, key), row, Column(h, w, row, key));
    }
  }

  /** The total count of the occurrences whose keys fall on one counter of a row with a key,
      its own among them. */
  function Sharing(h: Hash, w: nat, row: nat, os: seq<Occurrence>, key: int): int
    requires w > 0
  {
    if os == [] then 0
    else
      var last := os[|os| - 1];
      Sharing(h, w, row, os[..|os| - 1], key) + if h(row, last.key) % w == h(row, key) % w then last.count else 0
  }

  /** The counter of a key is what it shares with the keys of its remainder. */
  lemma {:induction false} CounterIsShared(h: Hash, w: nat, d: nat, os: seq<Occurrence>, row: nat, key: int)
    requires w > 0 && row < d
    ensures 0 <= row * w + h(row, key) % w < d * w
    ensures OfStream(h, w, d, os).table[row * w + h(row, key) % w] == Sharing(h, w, row, os, key)
  {
    InRange(w, d, row, h(row, key) % w);
    if os != [] {
      CounterIsShared(h, w, d, os[..|os| - 1], row, key);
      DivModUnique(w, row * w + h(row, key) % w, row, h(row, key) % w);
    }
  }

  /** A key shares its counter with no other exactly when that counter is its frequency. */
  lemma {:induction false} SharingIsExact(h: Hash, w: nat, row: nat, os: seq<Occurrence>, key: int)
    requires w > 0 && ValidStream(os)
    ensures Sharing(h, w, row, os, key) >= Frequency(os, key)
    ensures Sharing(h, w, row, os, key) == Frequency(os, key) <==>
      forall o | o in os && o.key != key :: h(row, o.key) % w != h(row, key) % w
  {
    if os != [] {
      var front, last := os[..|os| - 1], os[|os| - 1];
      assert os == front + [last];
      SharingIsExact(h, w, row, front, key);
    }
  }

  /** No other counted key has the key's remainder in a row. */
  ghost predicate NoneShares(h: Hash, w: nat, row: nat, os: seq<Occurrence>, key: int)
    requires w > 0
  {
    forall o | o in os && o.key != key :: h(row, o.key) % w != h(row, key) % w
  }

  lemma {:induction false} NoneSharesIs(h: Hash, w: nat, row: nat, os: seq<Occurrence>, key: int)
    requires w > 0
    ensures NoneShares(h, w, row, os, key) <==> forall o | o in os && o.key != key :: h(row, o.key) % w != h(row, key) % w
  {
  }

  // ----- the table object -----

  class CountMinSketch {
    const width: nat
    const depth: nat
    const hash: Hash
    const table: array<int>
    var totalCount: int
    ghost var stream: seq<Occurrence>  // everything counted so far, merges included

    ghost function Value(): Counts
      reads this, table
    {
      Counts(width, depth, table[..], totalCount)
    }

    ghost predicate Valid()
      reads this, table
    {
      && width > 0 && depth > 0 && ValidStream(stream)
      && Value() == OfStream(hash, width, depth, stream) && totalCount <= MAX_INT64
    }

    constructor (width: nat, depth: nat, hash: Hash)
      requires width > 0 && depth > 0
      ensures Valid() && stream == [] && fresh(table)
      ensures this.width == width && this.depth == depth && this.hash == hash
    {
      this.width, this.depth, this.hash := width, depth, hash;
      assert depth * width >= 0 by { InRange(width, depth, 0, 0); }
      table := new int[depth * width](_ => 0);
      totalCount := 0;
      stream := [];
      new;
      assert table[..] == seq(depth * width, i => 0);
    }

    constructor Copy(other: CountMinSketch)
      requires other.Valid()
      ensures Valid() && stream == other.stream && fresh(table)
      ensures width == other.width && depth == other.depth && hash == other.hash
    {
      width, depth, hash := other.width, other.depth, other.hash;
      table := new int[other.table.Length](i requires 0 <= i < other.table.Length reads other.table => other.table[i]);
      totalCount := other.totalCount;
      stream := other.stream;
      new;
      assert table[..] == other.table[..];
    }

    lemma {:induction false} Sound()
      requires Valid()
      ensures WellFormed(Value())
    {
      OfStreamWellFormed(hash, width, depth, stream);
    }

    /** Counts a key. It fails exactly on a count that is not positive or a total beyond a
        signed 64-bit counter, and then changes nothing; no single counter can overflow. */
    method Add(key: int, count: int) returns (outcome: Outcome)
      requires Valid()
      modifies this, table
      ensures Valid()
      ensures outcome == if count <= 0 then Raised(InvalidArgument)
                         else if old(totalCount) + count > MAX_INT64 then Raised(OverflowError) else Done
      ensures stream == if outcome.Done? then old(stream) + [Occurrence(key, count)] else old(stream)
    {
      hide OfStream, AddCells, Frequency;
      if count <= 0 { return Raised(InvalidArgument); }
      if MAX_INT64 - totalCount < count { return Raised(OverflowError); }
      var columns := Columns(key, count);
      StreamGrows(hash, width, depth, stream, Occurrence(key, count));
      ghost var was := table[..];
      assert Value().table == was;
      Increment(columns, key, count);
      assert table[..] == AddCells(was, Hits(hash, width, depth, Occurrence(key, count)).table);
      totalCount := totalCount + count;
      stream := stream + [Occurrence(key, count)];
      outcome := Done;
    }

    /** The column a key hits in every row, having checked each counter for overflow. */
    method Columns(key: int, count: int) returns (columns: seq<nat>)
      requires Valid() && totalCount + count <= MAX_INT64
      ensures |columns| == depth && forall r | 0 <= r < depth :: columns[r] == Column(hash, width, r, key)
    {
      hide OfStream, Column;
      Sound();
      columns := [];
      for row := 0 to depth
        invariant |columns| == row && forall r | 0 <= r < row :: columns[r] == Column(hash, width, r, key)
      {
        var column := Column(hash, width, row, key);
        InRange(width, depth, row, column);
        CellAtMostTotal(Value(), row * width + column);
        if MAX_INT64 - table[row * width + column] < count { assert false; }
        columns := columns + [column];
      }
    }

    method Increment(columns: seq<nat>, key: int, count: int)
      requires width > 0 && table.Length == depth * width
      requires |columns| == depth && forall r | 0 <= r < depth :: columns[r] == Column(hash, width, r, key)
      modifies table
      ensures table[..] == AddCells(old(table[..]), Hits(hash, width, depth, Occurrence(key, count)).table)
    {
      hide Column;
      ghost var was := table[..];
      for row := 0 to depth
        invariant forall i | 0 <= i < table.Length ::
          table[i] == was[i] + if i / width < row && i % width == Column(hash, width, i / width, key) then count else 0
      {
        var column := columns[row];
        InRange(width, depth, row, column);
        DivModUnique(width, row * width + column, row, column);
        forall i | 0 <= i < table.Length && i / width == row && i % width == column ensures i == row * width + column {
          RowOf(width, depth, i);
        }
        table[row * width + column] := table[row * width + column] + count;
      }
      forall i | 0 <= i < table.Length ensures 0 <= i / width < depth { RowOf(width, depth, i); }
    }

    /** The least, over the rows, of what the keys with the key's remainder were counted: at
        least its true frequency, at most the total, and exact if and only if in some row no
        other counted key has its remainder. */
    method Estimate(key: int) returns (least: int)
      requires Valid()
      ensures Frequency(stream, key) <= least <= totalCount
      ensures exists r: nat | r < depth :: least == Sharing(hash, width, r, stream, key)
      ensures forall r: nat | r < depth :: least <= Sharing(hash, width, r, stream, key)
      ensures least == Frequency(stream, key) <==>
        exists r: nat | r < depth :: NoneShares(hash, width, r, stream, key)
    {
      hide OfStream, Sharing, NoneShares, Frequency, WellFormed;
      Sound();
      least := MAX_INT64;
      for row := 0 to depth
        invariant row > 0 ==> Frequency(stream, key) <= least <= totalCount
        invariant row > 0 ==> exists r: nat | r < row :: least == Sharing(hash, width, r, stream, key)
        invariant forall r: nat | r < row :: least <= Sharing(hash, width, r, stream, key)
      {
        var column := Column(hash, width, row, key);
        InRange(width, depth, row, column);
        CellAtMostTotal(Value(), row * width + column);
        CounterIsShared(hash, width, depth, stream, row, key);
        SharingIsExact(hash, width, row, stream, key);
        var cell := table[row * width + column];
        if row == 0 || cell < least { least := cell; }
      }
      Exactly(key, least);
    }

    lemma Exactly(key: int, least: int)
      requires Valid() && Frequency(stream, key) <= least
      requires exists r: nat | r < depth :: least == Sharing(hash, width, r, stream, key)
      requires forall r: nat | r < depth :: least <= Sharing(hash, width, r, stream, key)
      ensures least == Frequency(stream, key) <==>
        exists r: nat | r < depth :: NoneShares(hash, width, r, stream, key)
    {
      hide OfStream, Sharing, Frequency, NoneShares;
      forall r: nat | r < depth
        ensures Sharing(hash, width, r, stream, key) == Frequency(stream, key) <==> NoneShares(hash, width, r, stream, key)
      {
        SharingIsExact(hash, width, r, stream, key);
        NoneSharesIs(hash, width, r, stream, key);
      }
    }

    /** Adds another table cell by cell. Tables of one process share their hash seeds. It
        fails exactly on different dimensions or an overflowing total. */
    method Merge(other: CountMinSketch) returns (outcome: Outcome)
      requires Valid() && other.Valid() && other.hash == hash && (other != this ==> other.table != table)
      modifies this, table
      ensures Valid()
      ensures outcome == if width != other.width || depth != other.depth then Raised(InvalidArgument)
                         else if old(totalCount + other.totalCount) > MAX_INT64 then Raised(OverflowError) else Done
      ensures stream == if outcome.Done? then old(stream + other.stream) else old(stream)
    {
      hide OfStream, AddCells, WellFormed;
      if width != other.width || depth != other.depth { return Raised(InvalidArgument); }
      if MAX_INT64 - totalCount < other.totalCount { return Raised(OverflowError); }
      Sound();
      other.Sound();
      for i := 0 to table.Length
        modifies {}
      {
        CellAtMostTotal(Value(), i);
        CellAtMostTotal(other.Value(), i);
        if MAX_INT64 - table[i] < other.table[i] { assert false; }
      }
      StreamsJoin(hash, width, depth, stream, other.stream);
      ghost var joined := Combine(Value(), other.Value());
      ghost var mine, theirs := table[..], other.table[..];
      assert joined.table == AddCells(mine, theirs);
      AddInPlace(table, other.table);
      assert table[..] == joined.table;
      totalCount := totalCount + other.totalCount;
      stream := stream + other.stream;
      assert Value() == joined;
      outcome := Done;
    }
  }

  method AddInPlace(into: array<int>, from: array<int>)
    requires into.Length == from.Length
    modifies into
    ensures into[..] == AddCells(old(into[..]), old(from[..]))
  {
    ghost var mine, theirs := into[..], from[..];
    for i := 0 to into.Length
      invariant forall k | 0 <= k < into.Length :: into[k] == if k < i then mine[k] + theirs[k] else mine[k]
      invariant from != into ==> from[..] == theirs
    {
      into[i] := into[i] + from[i];
    }
  }

  lemma {:induction false} StreamGrows(h: Hash, w: nat, d: nat, os: seq<Occurrence>, o: Occurrence)
    requires w > 0
    ensures OfStream(h, w, d, os + [o]) == Combine(OfStream(h, w, d, os), Hits(h, w, d, o))
  {
    assert (os + [o])[..|os|] == os;
  }

  /** The table of two streams counted one after the other is the sum of their tables. */
  lemma {:induction false} StreamsJoin(h: Hash, w: nat, d: nat, xs: seq<Occurrence>, ys: seq<Occurrence>)
    requires w > 0
    ensures OfStream(h, w, d, xs + ys) == Combine(OfStream(h, w, d, xs), OfStream(h, w, d, ys))
  {
    if ys == [] {
      assert xs + ys == xs;
      assert AddCells(OfStream(h, w, d, xs).table, EmptyCounts(w, d).table) == OfStream(h, w, d, xs).table;
    } else {
      var front, last := ys[..|ys| - 1], ys[|ys| - 1];
      assert (xs + ys)[..|xs + ys| - 1] == xs + front;
      StreamsJoin(h, w, d, xs, front);
      CombineAssociates(OfStream(h, w, d, xs), OfStream(h, w, d, front), Hits(h, w, d, last));
    }
  }

  lemma {:induction false} TotalsJoin(h: Hash, w: nat, d: nat, xs: seq<Occurrence>, ys: seq<Occurrence>)
    requires w > 0
    ensures OfStream(h, w, d, xs + ys).total == OfStream(h, w, d, xs).total + OfStream(h, w, d, ys).total
  {
    StreamsJoin(h, w, d, xs, ys);
  }

  lemma {:induction false} CombineAssociates(a: Counts, b: Counts, c: Counts)
    requires SameShape(a, b) && SameShape(b, c)
    ensures Combine(Combine(a, b), c) == Combine(a, Combine(b, c))
  {
  }

  lemma {:induction false} CombineCommutes(a: Counts, b: Counts)
    requires SameShape(a, b)
    ensures Combine(a, b) == Combine(b, a)
  {
  }
}
