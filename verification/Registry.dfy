/** The stream registry: a bounded write-back cache over storage, kept in ordered
    dictionaries of namespaces and streams. */
module Registry {
  import opened Prelude

  // ===== ordered dictionaries =====

  /** A dictionary with its insertion order. */
  datatype Dict<V> = Dict(order: seq<string>, items: map<string, V>)

  ghost predicate Ordered<V>(d: Dict<V>) {
    && (forall k :: k in d.order <==> k in d.items)
    && Distinct(d.order)
  }

  ghost predicate Distinct(order: seq<string>) { forall i, j | 0 <= i < j < |order| :: order[i] != order[j] }

  function NoItems<V>(): Dict<V> { Dict([], map[]) }

  function Without(order: seq<string>, k: string): seq<string> {
    if order == [] then []
    else
      var front, last := order[..|order| - 1], order[|order| - 1];
      Without(front, k) + if last == k then [] else [last]
  }

  function Put<V>(d: Dict<V>, k: string, v: V): Dict<V> {
    Dict(if k in d.items then d.order else d.order + [k], d.items[k := v])
  }

  function Remove<V>(d: Dict<V>, k: string): Dict<V> { Dict(Without(d.order, k), d.items - {k}) }

  function MoveToEnd<V>(d: Dict<V>, k: string): Dict<V> { Dict(Without(d.order, k) + [k], d.items) }

  /** Elements stand in increasing order of some rank. */
  ghost predicate Ascending(order: seq<string>, rank: string -> int) {
    forall i, j | 0 <= i < j < |order| :: rank(order[i]) < rank(order[j])
  }

  lemma {:induction false} WithoutKeepsOrder(order: seq<string>, k: string, rank: string -> int)
    requires Ascending(order, rank)
    ensures Ascending(Without(order, k), rank)
    ensures forall x :: x in Without(order, k) <==> x in order && x != k
  {
    if order != [] {
      var front, last := order[..|order| - 1], order[|order| - 1];
      assert order == front + [last];
      WithoutKeepsOrder(front, k, rank);
      forall i | 0 <= i < |Without(front, k)| ensures rank(Without(front, k)[i]) < rank(last) {
        assert Without(front, k)[i] in front;
      }
    }
  }

  // ===== the cache =====

  datatype Key = Key(namespace: string, stream: string)

  type Cache<S> = Dict<Dict<S>>

  predicate Resident<S>(c: Cache<S>, k: Key) { k.namespace in c.items && k.stream in c.items[k.namespace].items }

  function StateIn<S>(c: Cache<S>, k: Key): S
    requires Resident(c, k)
  {
    c.items[k.namespace].items[k.stream]
  }

  function Keys<S>(c: Cache<S>): set<Key> {
    set n, s | n in c.items && s in c.items[n].items :: Key(n, s)
  }

  function Size<S>(c: Cache<S>, namespace: string): nat {
    if namespace in c.items then |c.items[namespace].items| else 0
  }

  /** When each stream was last asked for. */
  type Uses = map<Key, int>

  ghost function RankIn(uses: Uses, namespace: string): string -> int {
    s => if Key(namespace, s) in uses then uses[Key(namespace, s)] else -1
  }

  /** A namespace lists its streams from the least to the most recently asked for. */
  ghost predicate Lists<S>(d: Dict<S>, namespace: string, uses: Uses, now: int) {
    && (forall s :: s in d.order <==> s in d.items)
    && Ascending(d.order, RankIn(uses, namespace))
    && forall s | s in d.items :: Key(namespace, s) in uses && 0 <= uses[Key(namespace, s)] < now
  }

  /** ... and none is empty. */
  ghost predicate WellFormed<S>(c: Cache<S>, uses: Uses, now: int) {
    && Ordered(c)
    && forall n | n in c.items :: c.items[n].items != map[] && Lists(c.items[n], n, uses, now)
  }

  function Insert<S>(c: Cache<S>, k: Key, s: S): Cache<S> {
    Put(c, k.namespace, Put(if k.namespace in c.items then c.items[k.namespace] else NoItems(), k.stream, s))
  }

  function Drop<S>(c: Cache<S>, k: Key): Cache<S>
    requires Resident(c, k)
  {
    var rest := Remove(c.items[k.namespace], k.stream);
    if rest.items == map[] then Remove(c, k.namespace) else Put(c, k.namespace, rest)
  }

  function Touch<S>(c: Cache<S>, k: Key): Cache<S>
    requires Resident(c, k)
  {
    Put(c, k.namespace, MoveToEnd(c.items[k.namespace], k.stream))
  }

  lemma KeysAreResident<S>(c: Cache<S>)
    ensures forall k :: k in Keys(c) <==> Resident(c, k)
  {
    forall k ensures k in Keys(c) <==> Resident(c, k) {
      if Resident(c, k) { assert Key(k.namespace, k.stream) in Keys(c); }
    }
  }

  lemma {:induction false} WithoutKeepsDistinct(order: seq<string>, k: string)
    requires Distinct(order)
    ensures Distinct(Without(order, k))
    ensures forall x :: x in Without(order, k) <==> x in order && x != k
  {
    if order != [] {
      var front, last := order[..|order| - 1], order[|order| - 1];
      assert order == front + [last];
      WithoutKeepsDistinct(front, k);
      forall i | 0 <= i < |Without(front, k)| ensures Without(front, k)[i] != last {
        assert Without(front, k)[i] in front;
      }
    }
  }

  lemma PutIsOrdered<V>(d: Dict<V>, k: string, v: V)
    requires Ordered(d)
    ensures Ordered(Put(d, k, v))
  {
    assert forall x :: x in Put(d, k, v).order <==> x in d.order || x == k;
  }

  lemma RemoveIsOrdered<V>(d: Dict<V>, k: string)
    requires Ordered(d)
    ensures Ordered(Remove(d, k))
  {
    WithoutKeepsDistinct(d.order, k);
  }

  lemma Listed<S>(d: Dict<S>, k: Key, s: S, uses: Uses, now: int)
    requires Lists(d, k.namespace, uses, now) && k.stream !in d.items && now >= 0
    ensures Lists(Put(d, k.stream, s), k.namespace, uses[k := now], now + 1)
  {
    Newest(d.order, k, uses, now);
    assert forall x :: x in d.order + [k.stream] <==> x in d.order || x == k.stream;
  }

  /** Using a stream makes it the most recent of its namespace. */
  lemma {:induction false} Newest(order: seq<string>, k: Key, uses: Uses, now: int)
    requires Ascending(order, RankIn(uses, k.namespace)) && k.stream !in order
    requires forall s | s in order :: Key(k.namespace, s) in uses && uses[Key(k.namespace, s)] < now
    ensures Ascending(order + [k.stream], RankIn(uses[k := now], k.namespace))
  {
    var more := order + [k.stream];
    forall i, j | 0 <= i < j < |more|
      ensures RankIn(uses[k := now], k.namespace)(more[i]) < RankIn(uses[k := now], k.namespace)(more[j])
    {
      assert more[i] in order && (j < |order| ==> more[j] in order);
    }
  }

  lemma Unlisted<S>(d: Dict<S>, k: Key, uses: Uses, now: int)
    requires Lists(d, k.namespace, uses, now)
    ensures Lists(Remove(d, k.stream), k.namespace, uses, now)
  {
    WithoutKeepsOrder(d.order, k.stream, RankIn(uses, k.namespace));
  }

  lemma Relisted<S>(d: Dict<S>, k: Key, uses: Uses, now: int)
    requires Lists(d, k.namespace, uses, now) && k.stream in d.items && now >= 0
    ensures Lists(MoveToEnd(d, k.stream), k.namespace, uses[k := now], now + 1)
  {
    hide Ascending;
    var rest := Remove(d, k.stream);
    Unlisted(d, k, uses, now);
    Listed(rest, k, d.items[k.stream], uses, now);
    assert Put(rest, k.stream, d.items[k.stream]).order == MoveToEnd(d, k.stream).order;
    assert Put(rest, k.stream, d.items[k.stream]).items == d.items;
  }

  /** Other namespaces do not notice. */
  lemma OtherNamespaces<S>(c: Cache<S>, k: Key, uses: Uses, now: int)
    requires WellFormed(c, uses, now)
    ensures forall n | n in c.items && n != k.namespace :: Lists(c.items[n], n, uses[k := now], now + 1)
  {
  }

  lemma InsertEffect<S>(c: Cache<S>, k: Key, s: S, uses: Uses, now: int)
    requires WellFormed(c, uses, now) && !Resident(c, k) && now >= 0
    ensures WellFormed(Insert(c, k, s), uses[k := now], now + 1)
    ensures forall k' :: Resident(Insert(c, k, s), k') <==> Resident(c, k') || k' == k
    ensures forall k' | Resident(Insert(c, k, s), k') :: StateIn(Insert(c, k, s), k') == if k' == k then s else StateIn(c, k')
    ensures forall n :: Size(Insert(c, k, s), n) == Size(c, n) + if n == k.namespace then 1 else 0
  {
    hide Lists, Ordered;
    OtherNamespaces(c, k, uses, now);
    var before := if k.namespace in c.items then c.items[k.namespace] else NoItems();
    if k.namespace !in c.items { NothingListed<S>(k.namespace, uses, now); }
    Listed(before, k, s, uses, now);
    PutIsOrdered(c, k.namespace, Put(before, k.stream, s));
    assert k.stream in Put(before, k.stream, s).items;
  }

  lemma NothingListed<S>(n: string, uses: Uses, now: int)
    ensures Lists<S>(NoItems(), n, uses, now)
  {
  }

  lemma OneFewer<S>(m: map<string, S>, k: string)
    requires k in m
    ensures |m - {k}| == |m| - 1
  {
    assert (m - {k}).Keys == m.Keys - {k};
    assert |m.Keys| == |m| && |(m - {k}).Keys| == |m - {k}|;
  }

  lemma DropEffect<S>(c: Cache<S>, k: Key, uses: Uses, now: int)
    requires WellFormed(c, uses, now) && Resident(c, k)
    ensures WellFormed(Drop(c, k), uses, now)
    ensures forall k' :: Resident(Drop(c, k), k') <==> Resident(c, k') && k' != k
    ensures forall k' | Resident(Drop(c, k), k') :: StateIn(Drop(c, k), k') == StateIn(c, k')
    ensures forall n :: Size(Drop(c, k), n) == Size(c, n) - if n == k.namespace then 1 else 0
  {
    hide Lists, Ordered, Without;
    var before := c.items[k.namespace];
    var rest := Remove(before, k.stream);
    Unlisted(before, k, uses, now);
    PutIsOrdered(c, k.namespace, rest);
    RemoveIsOrdered(c, k.namespace);
    OneFewer(before.items, k.stream);
    if rest.items == map[] { assert forall x | x in before.items && x != k.stream :: x in rest.items; }
  }

  lemma TouchEffect<S>(c: Cache<S>, k: Key, uses: Uses, now: int)
    requires WellFormed(c, uses, now) && Resident(c, k) && now >= 0
    ensures WellFormed(Touch(c, k), uses[k := now], now + 1)
    ensures forall k' :: Resident(Touch(c, k), k') <==> Resident(c, k')
    ensures forall k' | Resident(c, k') :: StateIn(Touch(c, k), k') == StateIn(c, k')
    ensures forall n :: Size(Touch(c, k), n) == Size(c, n)
  {
    hide Lists, Ordered, Without;
    OtherNamespaces(c, k, uses, now);
    Relisted(c.items[k.namespace], k, uses, now);
    PutIsOrdered(c, k.namespace, MoveToEnd(c.items[k.namespace], k.stream));
  }

  // ===== the registry =====

  /** How an operation ends: with a result, or with the failure of a storage call. */
  datatype Reply<T> = Returned(result: T) | Failed

  /** Which storage calls of an operation fail. */
  datatype Faults = Faults(load: bool, save: bool, delete: bool)

  function AtLeastOne(limit: int): int { if limit > 1 then limit else 1 }

  /** Neither limit is exceeded; a limit below one still lets one stream in. */
  ghost predicate Fits<S>(c: Cache<S>, perNamespace: int, total: int) {
    (forall n :: Size(c, n) <= AtLeastOne(perNamespace)) && |Keys(c)| <= AtLeastOne(total)
  }

  /** The least recently asked for stream of its namespace. */
  ghost predicate Oldest<S>(c: Cache<S>, uses: Uses, k: Key) {
    && Resident(c, k) && k in uses
    && forall k' | Resident(c, k') && k'.namespace == k.namespace && k' != k :: k' in uses && uses[k] < uses[k']
  }

  lemma {:induction false} FirstIsOldest<S>(c: Cache<S>, uses: Uses, now: int, namespace: string)
    requires WellFormed(c, uses, now) && namespace in c.items
    ensures c.items[namespace].order != [] && Oldest(c, uses, Key(namespace, c.items[namespace].order[0]))
  {
    var d := c.items[namespace];
    var some := Pick(d.items.Keys);
    assert some in d.order;
    var k := Key(namespace, d.order[0]);
    assert d.order[0] in d.order;
    forall k' | Resident(c, k') && k'.namespace == namespace && k' != k ensures k' in uses && uses[k] < uses[k'] {
      var j :| 0 <= j < |d.order| && d.order[j] == k'.stream;
      assert RankIn(uses, namespace)(d.order[0]) < RankIn(uses, namespace)(d.order[j]);
    }
  }

  /** Requests: record into a stream, look at one, erase one. */
  datatype Op<!S> = Record(key: Key, change: S -> S) | Look(key: Key) | Erase(key: Key)

  datatype Answer<S> = State(state: Option<S>) | Found(found: bool)

  function Lookup<S>(m: map<Key, S>, k: Key): Option<S> { if k in m then Some(m[k]) else None }

  function Recorded<S>(m: map<Key, S>, blank: S, k: Key, change: S -> S): S { change(if k in m then m[k] else blank) }

  /** What a request makes of an unbounded map ... */
  function Served<S>(m: map<Key, S>, blank: S, op: Op<S>): map<Key, S> {
    match op
    case Record(k, change) => m[k := Recorded(m, blank, k, change)]
    case Look(_) => m
    case Erase(k) => m - {k}
  }

  /** ... and answers. */
  /** An unbounded map serves a change by applying it to the state it has, or to a blank one;
      a look changes nothing, and an erased stream is gone. */
  lemma {:induction false} ServedMeans<S>(m: map<Key, S>, blank: S, op: Op<S>, k: Key)
    ensures Lookup(Served(m, blank, op), k) ==
      if op.key != k || op.Look? then Lookup(m, k)
      else if op.Erase? then None
      else Some(op.change(match Lookup(m, k) case Some(s) => s case None => blank))
    ensures Reported(m, blank, op) == match op
      case Record(j, change) => State(Lookup(Served(m, blank, op), j))
      case Look(j) => State(Lookup(m, j))
      case Erase(j) => Found(Lookup(m, j).Some?)
  {
  }

  function Reported<S>(m: map<Key, S>, blank: S, op: Op<S>): Answer<S> {
    match op
    case Record(k, change) => State(Some(Recorded(m, blank, k, change)))
    case Look(k) => State(Lookup(m, k))
    case Erase(k) => Found(k in m)
  }

  function AfterAll<S>(m: map<Key, S>, blank: S, ops: seq<Op<S>>, rs: seq<Reply<Answer<S>>>): map<Key, S>
    requires |ops| == |rs|
  {
    if ops == [] then m
    else
      var front := AfterAll(m, blank, ops[..|ops| - 1], rs[..|rs| - 1]);
      if rs[|rs| - 1].Failed? then front else Served(front, blank, ops[|ops| - 1])
  }

  class StreamRegistry<S> {
    const maxPerNamespace: int
    const maxStreams: int
    const durable: bool
    const blank: S
    var namespaces: Cache<S>
    var saved: map<Key, S>
    ghost var uses: Uses
    ghost var now: int

    ghost predicate Valid()
      reads this
    {
      && WellFormed(namespaces, uses, now) && now >= 0
      && Fits(namespaces, maxPerNamespace, maxStreams)
      && (!durable ==> saved == map[])
    }

    /** The state of a stream as its callers see it, wherever it is kept. */
    ghost function StateOf(k: Key): Option<S>
      reads this
    {
      if Resident(namespaces, k) then Some(StateIn(namespaces, k))
      else if k in saved then Some(saved[k])
      else None
    }

    constructor (maxPerNamespace: int, maxStreams: int, durable: bool, blank: S, saved: map<Key, S>)
      requires !durable ==> saved == map[]
      ensures Valid() && forall k :: StateOf(k) == if k in saved then Some(saved[k]) else None
      ensures this.durable == durable && this.blank == blank
      ensures this.maxPerNamespace == maxPerNamespace && this.maxStreams == maxStreams && uses == map[]
    {
      this.maxPerNamespace, this.maxStreams, this.durable, this.blank := maxPerNamespace, maxStreams, durable, blank;
      this.namespaces, this.saved := NoItems(), saved;
      this.uses, this.now := map[], 0;
      new;
      assert Keys(namespaces) == {};
    }

    method CountLocked() returns (count: nat)
      requires Valid()
      ensures count == |Keys(namespaces)|
    {
      hide WellFormed, Fits, KeysOf;
      assert Ordered(namespaces) by { Well(namespaces, uses, now); }
      count := 0;
      NoKeys(namespaces);
      for i := 0 to |namespaces.order|
        invariant count == |KeysOf(namespaces, namespaces.order[..i])|
      {
        MoreKeys(namespaces, i);
        count := count + |namespaces.items[namespaces.order[i]].items|;
      }
      AllKeys(namespaces);
    }

    /** The stream to make room with: the oldest of a full namespace, or the oldest of the
        first namespace when the registry is full. */
    method Victim(namespace: string) returns (victim: Option<Key>)
      requires Valid()
      ensures victim.Some? ==> Oldest(namespaces, uses, victim.value)
      ensures Size(namespaces, namespace) > 0 && Size(namespaces, namespace) >= maxPerNamespace ==>
        victim.Some? && victim.value.namespace == namespace
      ensures victim.Some? <==> Full(namespace)
      ensures victim.Some? ==>
        Resident(namespaces, victim.value) && forall k | Resident(namespaces, k) && k.namespace == victim.value.namespace && k != victim.value ::
          k in uses && victim.value in uses && uses[victim.value] < uses[k]
      ensures victim.Some? && !(Size(namespaces, namespace) > 0 && Size(namespaces, namespace) >= maxPerNamespace) ==>
        namespaces.order != [] && victim.value.namespace == namespaces.order[0]
    {
      hide Lists, Fits, Oldest;
      KeysAreResident(namespaces);
      victim := None;
      var count := CountLocked();
      if namespace in namespaces.items && |namespaces.items[namespace].items| > 0
        && |namespaces.items[namespace].items| >= maxPerNamespace
      {
        FirstIsOldest(namespaces, uses, now, namespace);
        victim := Some(Key(namespace, namespaces.items[namespace].order[0]));
      } else if count >= maxStreams {
        if namespaces.order != [] {
          // No namespace is empty, so the first has a stream to offer.
          var n := namespaces.order[0];
          FirstIsOldest(namespaces, uses, now, n);
          victim := Some(Key(n, namespaces.items[n].order[0]));
          OldestIsResident(namespaces, uses, victim.value);
          assert Keys(namespaces) != {};
        }
      }
    }

    /** A new stream in the namespace needs an old one to go. */
    ghost predicate Full(namespace: string)
      reads this
    {
      || (Size(namespaces, namespace) > 0 && Size(namespaces, namespace) >= maxPerNamespace)
      || (|Keys(namespaces)| > 0 && |Keys(namespaces)| >= maxStreams)
    }

    /** That is when the namespace has as many streams as it may, or all namespaces together. */
    lemma {:induction false} FullMeans(namespace: string)
      requires Valid()
      ensures Full(namespace) <==>
        || (namespace in namespaces.items && |namespaces.items[namespace].items| >= if maxPerNamespace >= 1 then maxPerNamespace else 1)
        || |set n, s | n in namespaces.items && s in namespaces.items[n].items :: Key(n, s)| >= if maxStreams >= 1 then maxStreams else 1
    {
      assert Keys(namespaces) == set n, s | n in namespaces.items && s in namespaces.items[n].items :: Key(n, s);
    }

    /** Saves the victim before removing it. A failed save leaves everything as it was. */
    method EvictIfNeeded(namespace: string, saveFails: bool) returns (ok: bool)
      requires Valid()
      modifies this`namespaces, this`saved
      ensures Valid()
      ensures !ok <==> durable && saveFails && old(Full(namespace))
      ensures !ok ==> namespaces == old(namespaces) && saved == old(saved)
      ensures durable ==> forall k :: StateOf(k) == old(StateOf(k))
      ensures ok ==> Size(namespaces, namespace) < AtLeastOne(maxPerNamespace) && |Keys(namespaces)| < AtLeastOne(maxStreams)
      ensures forall k | Resident(namespaces, k) :: old(Resident(namespaces, k)) && StateIn(namespaces, k) == old(StateIn(namespaces, k))
      ensures forall k | old(Resident(namespaces, k)) && !Resident(namespaces, k) :: old(Oldest(namespaces, uses, k) && Full(namespace))
      ensures forall j, k | old(Resident(namespaces, j) && Resident(namespaces, k)) && j.namespace == k.namespace && j != k && !Resident(namespaces, j) ::
        j in uses && k in uses && uses[j] < uses[k]
      ensures forall j, k | old(Resident(namespaces, j) && Resident(namespaces, k)) :: Resident(namespaces, j) || Resident(namespaces, k) || j == k
    {
      hide WellFormed, Oldest, Drop, Size, Keys, Full;
      ok := true;
      var victim := Victim(namespace);
      if victim.None? {
        RoomUnlessFull(namespace);
        return;
      }
      var k := victim.value;
      OldestIsResident(namespaces, uses, k);
      if durable {
        if saveFails { return false; }
        saved := saved[k := StateIn(namespaces, k)];
      }
      RoomAfterDrop(k, namespace);
      DropEffect(namespaces, k, uses, now);
      namespaces := Drop(namespaces, k);
    }

    lemma RoomAfterDrop(k: Key, namespace: string)
      requires Valid() && Resident(namespaces, k)
      requires Size(namespaces, namespace) > 0 && Size(namespaces, namespace) >= maxPerNamespace ==> k.namespace == namespace
      ensures var c := Drop(namespaces, k);
        && Fits(c, maxPerNamespace, maxStreams)
        && Size(c, namespace) < AtLeastOne(maxPerNamespace) && |Keys(c)| < AtLeastOne(maxStreams)
    {
      hide WellFormed, Size, Keys, Drop;
      DropEffect(namespaces, k, uses, now);
      KeysAreResident(namespaces);
      KeysAreResident(Drop(namespaces, k));
      assert Keys(Drop(namespaces, k)) == Keys(namespaces) - {k};
    }

    lemma RoomUnlessFull(namespace: string)
      requires Valid() && !Full(namespace)
      ensures Size(namespaces, namespace) < AtLeastOne(maxPerNamespace) && |Keys(namespaces)| < AtLeastOne(maxStreams)
    {
    }

    lemma FitsAfterInsert(k: Key, s: S)
      requires Valid() && !Resident(namespaces, k)
      requires Size(namespaces, k.namespace) < AtLeastOne(maxPerNamespace) && |Keys(namespaces)| < AtLeastOne(maxStreams)
      ensures Fits(Insert(namespaces, k, s), maxPerNamespace, maxStreams)
    {
      hide WellFormed, Size, Keys, Insert;
      InsertEffect(namespaces, k, s, uses, now);
      KeysAreResident(namespaces);
      KeysAreResident(Insert(namespaces, k, s));
      assert Keys(Insert(namespaces, k, s)) == Keys(namespaces) + {k};
    }

    /** Brings a stream in that is not resident, as the most recent of its namespace. */
    method BringIn(k: Key, s: S)
      requires Valid() && !Resident(namespaces, k)
      requires Size(namespaces, k.namespace) < AtLeastOne(maxPerNamespace) && |Keys(namespaces)| < AtLeastOne(maxStreams)
      modifies this`namespaces, this`uses, this`now
      ensures Valid() && namespaces == Insert(old(namespaces), k, s)
      ensures uses == old(uses)[k := old(now)] && now == old(now) + 1
      ensures Resident(namespaces, k) && forall k' :: StateOf(k') == if k' == k then Some(s) else old(StateOf(k'))
      ensures forall k' | k' != k :: Resident(namespaces, k') <==> old(Resident(namespaces, k'))
    {
      hide WellFormed, Size, Keys, Insert, Fits;
      InsertEffect(namespaces, k, s, uses, now);
      FitsAfterInsert(k, s);
      namespaces, uses, now := Insert(namespaces, k, s), uses[k := now], now + 1;
    }

    /** Marks a resident stream as the most recent of its namespace. */
    method Refresh(k: Key)
      requires Valid() && Resident(namespaces, k)
      modifies this`namespaces, this`uses, this`now
      ensures Valid() && Resident(namespaces, k)
      ensures uses == old(uses)[k := old(now)] && now == old(now) + 1
      ensures forall k' :: StateOf(k') == old(StateOf(k'))
      ensures forall k' :: Resident(namespaces, k') <==> old(Resident(namespaces, k'))
      ensures forall k' | Resident(namespaces, k') :: StateIn(namespaces, k') == old(StateIn(namespaces, k'))
    {
      hide WellFormed, Size, Keys, Touch;
      TouchEffect(namespaces, k, uses, now);
      KeysAreResident(namespaces);
      KeysAreResident(Touch(namespaces, k));
      assert Keys(Touch(namespaces, k)) == Keys(namespaces);
      namespaces, uses, now := Touch(namespaces, k), uses[k := now], now + 1;
    }

    /** Finds a stream wherever it is kept, or starts a blank one. */
    method GetOrCreate(k: Key, faults: Faults) returns (r: Reply<S>)
      requires Valid()
      modifies this
      ensures Valid()
      ensures r.Failed? <==> durable && !old(Resident(namespaces, k)) && (faults.load || (faults.save && old(Full(k.namespace))))
      ensures r.Failed? ==> namespaces == old(namespaces) && saved == old(saved)
      ensures r.Returned? ==> Resident(namespaces, k) && StateIn(namespaces, k) == r.result
      ensures r.Returned? && durable ==>
        r.result == (if old(StateOf(k)).Some? then old(StateOf(k)).value else blank)
      ensures r.Returned? && durable ==> forall k' | k' != k :: StateOf(k') == old(StateOf(k'))
      ensures !durable ==> r.result == (if old(Resident(namespaces, k)) then old(StateIn(namespaces, k)) else blank)
      ensures forall k' | k' != k && Resident(namespaces, k') :: old(Resident(namespaces, k')) && StateIn(namespaces, k') == old(StateIn(namespaces, k'))
      ensures forall k' | old(Resident(namespaces, k')) && !Resident(namespaces, k') :: old(Oldest(namespaces, uses, k') && Full(k.namespace))
      ensures if r.Returned? then uses == old(uses)[k := old(now)] && now == old(now) + 1 else uses == old(uses) && now == old(now)
    {
      hide WellFormed, Fits, Full;
      if Resident(namespaces, k) {
        Refresh(k);
        assert StateOf(k) == old(StateOf(k));
        return Returned(StateIn(namespaces, k));
      }
      var stream: Option<S> := None;
      if durable {
        if faults.load { return Failed; }
        if k in saved { stream := Some(saved[k]); }
      }
      var ok := EvictIfNeeded(k.namespace, faults.save);
      if !ok { return Failed; }
      var s := if stream.Some? then stream.value else blank;
      BringIn(k, s);
      r := Returned(s);
    }

    /** Finds a stream wherever it is kept. */
    method Get(k: Key, faults: Faults) returns (r: Reply<Option<S>>)
      requires Valid()
      modifies this
      ensures Valid()
      ensures r.Failed? <==> durable && !old(Resident(namespaces, k)) && (faults.load || (k in old(saved) && faults.save && old(Full(k.namespace))))
      ensures r.Failed? ==> namespaces == old(namespaces) && saved == old(saved)
      ensures r.Returned? ==> r.result == old(StateOf(k))
      ensures durable ==> forall k' :: StateOf(k') == old(StateOf(k'))
      ensures r.Returned? && r.result.Some? ==> Resident(namespaces, k) && StateIn(namespaces, k) == r.result.value
      ensures if r.Returned? && r.result.Some? then uses == old(uses)[k := old(now)] && now == old(now) + 1 else uses == old(uses) && now == old(now)
    {
      hide WellFormed, Fits, Full;
      if Resident(namespaces, k) {
        Refresh(k);
        return Returned(Some(StateIn(namespaces, k)));
      }
      r := Returned(None);
      if durable {
        if faults.load { return Failed; }
        if k in saved {
          var s := saved[k];
          var ok := EvictIfNeeded(k.namespace, faults.save);
          if !ok { return Failed; }
          BringIn(k, s);
          r := Returned(Some(s));
        }
      }
    }

    /** Deletes a stream from memory and, unless told not to, from storage. */
    method Delete(k: Key, deleteStorage: bool, faults: Faults) returns (r: Reply<bool>)
      requires Valid()
      modifies this
      ensures Valid()
      ensures r.Failed? <==> durable && deleteStorage && faults.delete
      ensures r.Failed? ==> namespaces == old(namespaces) && saved == old(saved)
      ensures r.Returned? ==> !Resident(namespaces, k)
      ensures r.Returned? ==> saved == if deleteStorage then old(saved) - {k} else old(saved)
      ensures r.Returned? && deleteStorage ==> r.result == old(StateOf(k)).Some?
      ensures r.Returned? && !deleteStorage ==> r.result == old(Resident(namespaces, k))
      ensures forall k' | k' != k :: StateOf(k') == old(StateOf(k'))
      ensures uses == old(uses) && now == old(now)
    {
      hide WellFormed, Drop, Keys, Size;
      var found := false;
      if durable && deleteStorage {
        if faults.delete { return Failed; }
        found := k in saved;
        saved := saved - {k};
      }
      if Resident(namespaces, k) {
        DropEffect(namespaces, k, uses, now);
        KeysAreResident(namespaces);
        KeysAreResident(Drop(namespaces, k));
        assert Keys(Drop(namespaces, k)) == Keys(namespaces) - {k};
        namespaces := Drop(namespaces, k);
        found := true;
      }
      r := Returned(found);
    }

    /** A caller changes the state of a stream it was handed. */
    method Update(k: Key, s: S)
      requires Valid() && Resident(namespaces, k)
      modifies this`namespaces
      ensures Valid() && forall k' :: StateOf(k') == if k' == k then Some(s) else old(StateOf(k'))
      ensures Resident(namespaces, k)
    {
      hide WellFormed, Keys, Size, Overwrite;
      OverwriteEffect(namespaces, k, s, uses, now);
      KeysAreResident(namespaces);
      KeysAreResident(Overwrite(namespaces, k, s));
      assert Keys(Overwrite(namespaces, k, s)) == Keys(namespaces);
      namespaces := Overwrite(namespaces, k, s);
    }

    /** Callers cannot tell the registry from an unbounded map. */
    ghost predicate Shows(m: map<Key, S>)
      reads this
    {
      forall k :: StateOf(k) == Lookup(m, k)
    }

    /** One request, answered as the unbounded map would answer it; a failed storage call
        fails the request and changes nothing. */
    method Perform(op: Op<S>, faults: Faults, ghost m: map<Key, S>) returns (r: Reply<Answer<S>>)
      requires Valid() && durable && Shows(m)
      modifies this
      ensures Valid()
      ensures r.Failed? ==> Shows(m) && namespaces == old(namespaces) && saved == old(saved)
      ensures r.Failed? ==> Faulty(faults)
      ensures r.Returned? ==> Shows(Served(m, blank, op)) && r.result == Reported(m, blank, op)
    {
      hide Valid;
      match op
      case Record(k, change) =>
        var got := GetOrCreate(k, faults);
        if got.Failed? { return Failed; }
        Update(k, change(got.result));
        r := Returned(State(Some(change(got.result))));
      case Look(k) =>
        var got := Get(k, faults);
        if got.Failed? { return Failed; }
        r := Returned(State(got.result));
      case Erase(k) =>
        var got := Delete(k, true, faults);
        if got.Failed? { return Failed; }
        r := Returned(Found(got.result));
    }

    /** What is in memory stays within both limits, each taken as 1 if it is less. */
    lemma {:induction false} WithinLimits(n: string)
      requires Valid()
      ensures n in namespaces.items ==> |namespaces.items[n].items| <= if maxPerNamespace >= 1 then maxPerNamespace else 1
      ensures |set n, s | n in namespaces.items && s in namespaces.items[n].items :: Key(n, s)| <= if maxStreams >= 1 then maxStreams else 1
    {
      hide WellFormed;
      assert Size(namespaces, n) <= AtLeastOne(maxPerNamespace);
      assert Keys(namespaces) == set n, s | n in namespaces.items && s in namespaces.items[n].items :: Key(n, s);
    }

    /** Whole runs: every request is answered from the map that results from the requests
        before it that did not fail, however small the limits and whatever fails. */
    method Run(ops: seq<Op<S>>, faults: seq<Faults>, ghost m: map<Key, S>) returns (rs: seq<Reply<Answer<S>>>)
      requires Valid() && durable && Shows(m) && |faults| == |ops|
      modifies this
      ensures Valid() && |rs| == |ops|
      ensures Shows(AfterAll(m, blank, ops, rs))
      ensures forall i | 0 <= i < |ops| :: Faithful(m, blank, ops, rs, i) && (rs[i].Failed? ==> Faulty(faults[i]))
    {
      hide Valid, Shows, AfterAll, Faithful;
      rs := [];
      NothingServed(m, blank, ops);
      for i := 0 to |ops|
        invariant Valid() && |rs| == i
        invariant Shows(AfterAll(m, blank, ops[..i], rs))
        invariant forall j | 0 <= j < i :: Faithful(m, blank, ops, rs, j) && (rs[j].Failed? ==> Faulty(faults[j]))
      {
        var r := Perform(ops[i], faults[i], AfterAll(m, blank, ops[..i], rs));
        OneMoreServed(m, blank, ops, rs, r);
        forall j | 0 <= j < i ensures Faithful(m, blank, ops, rs + [r], j) { StaysFaithful(m, blank, ops, rs, r, j); }
        rs := rs + [r];
      }
      assert ops[..|ops|] == ops;
    }
  }

  predicate Faulty(f: Faults) { f.load || f.save || f.delete }

  /** An answer that did not fail is the one the unbounded map gives at that point. */
  ghost predicate Faithful<S>(m: map<Key, S>, blank: S, ops: seq<Op<S>>, rs: seq<Reply<Answer<S>>>, i: nat)
    requires i < |rs| <= |ops|
  {
    rs[i].Returned? ==> rs[i].result == Reported(AfterAll(m, blank, ops[..i], rs[..i]), blank, ops[i])
  }

  lemma {:induction false} NothingServed<S>(m: map<Key, S>, blank: S, ops: seq<Op<S>>)
    ensures AfterAll(m, blank, ops[..0], []) == m
  {
  }

  lemma {:induction false} OneMoreServed<S>(m: map<Key, S>, blank: S, ops: seq<Op<S>>, rs: seq<Reply<Answer<S>>>, r: Reply<Answer<S>>)
    requires |rs| < |ops|
    ensures var i := |rs|;
      && var before := AfterAll(m, blank, ops[..i], rs);
      && AfterAll(m, blank, ops[..i + 1], rs + [r]) == (if r.Failed? then before else Served(before, blank, ops[i]))
      && (r.Returned? && r.result == Reported(before, blank, ops[i]) ==> Faithful(m, blank, ops, rs + [r], i))
      && (r.Failed? ==> Faithful(m, blank, ops, rs + [r], i))
  {
    var i := |rs|;
    assert ops[..i + 1][..i] == ops[..i] && (rs + [r])[..i] == rs;
  }

  lemma {:induction false} StaysFaithful<S>(m: map<Key, S>, blank: S, ops: seq<Op<S>>, rs: seq<Reply<Answer<S>>>,
    r: Reply<Answer<S>>, j: nat)
    requires j < |rs| < |ops| && Faithful(m, blank, ops, rs, j)
    ensures Faithful(m, blank, ops, rs + [r], j)
  {
    assert (rs + [r])[..j] == rs[..j];
  }

  function Overwrite<S>(c: Cache<S>, k: Key, s: S): Cache<S>
    requires Resident(c, k)
  {
    Put(c, k.namespace, Put(c.items[k.namespace], k.stream, s))
  }

  lemma OverwriteEffect<S>(c: Cache<S>, k: Key, s: S, uses: Uses, now: int)
    requires WellFormed(c, uses, now) && Resident(c, k)
    ensures WellFormed(Overwrite(c, k, s), uses, now)
    ensures forall k' :: Resident(Overwrite(c, k, s), k') <==> Resident(c, k')
    ensures forall k' | Resident(c, k') :: StateIn(Overwrite(c, k, s), k') == if k' == k then s else StateIn(c, k')
    ensures forall n :: Size(Overwrite(c, k, s), n) == Size(c, n)
  {
    hide Ordered, Ascending;
    PutIsOrdered(c, k.namespace, Put(c.items[k.namespace], k.stream, s));
    assert c.items[k.namespace].items.Keys == c.items[k.namespace].items[k.stream := s].Keys;
    assert |c.items[k.namespace].items.Keys| == |c.items[k.namespace].items|;
    assert |c.items[k.namespace].items[k.stream := s].Keys| == |c.items[k.namespace].items[k.stream := s]|;
  }

  lemma OldestIsResident<S>(c: Cache<S>, uses: Uses, k: Key)
    requires Oldest(c, uses, k)
    ensures Resident(c, k)
  {
  }

  function KeysOf<S>(c: Cache<S>, names: seq<string>): set<Key> { set k | k in Keys(c) && k.namespace in names }

  lemma Well<S>(c: Cache<S>, uses: Uses, now: int)
    requires WellFormed(c, uses, now)
    ensures Ordered(c)
  {
  }

  lemma NoKeys<S>(c: Cache<S>)
    ensures KeysOf(c, c.order[..0]) == {}
  {
  }

  lemma AllKeys<S>(c: Cache<S>)
    requires Ordered(c)
    ensures KeysOf(c, c.order[..|c.order|]) == Keys(c)
  {
    KeysAreResident(c);
    assert c.order[..|c.order|] == c.order;
  }

  lemma MoreKeys<S>(c: Cache<S>, i: nat)
    requires Ordered(c) && i < |c.order|
    ensures c.order[i] in c.items
    ensures |KeysOf(c, c.order[..i + 1])| == |KeysOf(c, c.order[..i])| + |c.items[c.order[i]].items|
  {
    var n := c.order[i];
    var own := set s | s in c.items[n].items :: Key(n, s);
    KeysAreResident(c);
    OwnKeys(n, c.items[n].items);
    assert c.order[..i + 1] == c.order[..i] + [n];
    assert n !in c.order[..i];
    assert KeysOf(c, c.order[..i + 1]) == KeysOf(c, c.order[..i]) + own;
    assert KeysOf(c, c.order[..i]) !! own;
  }

  lemma OwnKeys<S>(n: string, items: map<string, S>)
    ensures |set s | s in items :: Key(n, s)| == |items|
  {
    Image(n, items.Keys);
    assert (set s | s in items :: Key(n, s)) == set s | s in items.Keys :: Key(n, s);
    assert |items.Keys| == |items|;
  }

  lemma {:induction false} Image(n: string, names: set<string>)
    ensures |set s | s in names :: Key(n, s)| == |names|
  {
    if names != {} {
      var x := Pick(names);
      var rest := names - {x};
      Image(n, rest);
      assert (set s | s in names :: Key(n, s)) == (set s | s in rest :: Key(n, s)) + {Key(n, x)};
    }
  }
}
