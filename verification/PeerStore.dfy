/** What a mesh node remembers of its peers: for each stream and origin either the latest
    snapshot or a tombstone, in two nested dictionaries that share one version space. */
module PeerStore {
  import opened Prelude
  import opened StreamLogs
  import Json

  type NodeId = string

  /** A stream key on the wire. Pair stands for the canonical JSON text of a two-element
      list of strings, Other for any other text. */
  datatype StreamKey = Pair(namespace: string, stream: string) | Other(text: string)

  const MAX_PEER_STREAMS := 10_000
  const MAX_ORIGINS_PER_STREAM := 50
  const MAX_IDENTIFIER_LENGTH := 255
  const MAX_KEY_LENGTH := 1024

  predicate ValidName(s: string) { 0 < |s| <= MAX_IDENTIFIER_LENGTH }

  /** Length of the canonical text ["a", "b"] of a pair. */
  function KeyLength(a: string, b: string): int { Json.StringSize(a) + Json.StringSize(b) + 4 }

  predicate ValidStreamKey(k: StreamKey) {
    k.Pair? && ValidName(k.namespace) && ValidName(k.stream) && KeyLength(k.namespace, k.stream) <= MAX_KEY_LENGTH
  }

  /** The state an origin published for one of its streams at a version. */
  datatype Entry = Snapshot(log: Log, version: real) | Tombstone(version: real)

  datatype Versioned = Versioned(log: Log, version: real)

  datatype Peers = Peers(
    snapshots: map<StreamKey, map<NodeId, Versioned>>,
    tombstones: map<StreamKey, map<NodeId, real>>)

  // ----- nested dictionaries -----

  predicate Has<V>(m: map<StreamKey, map<NodeId, V>>, k: StreamKey, o: NodeId) { k in m && o in m[k] }

  function Inner<V>(m: map<StreamKey, map<NodeId, V>>, k: StreamKey): map<NodeId, V> {
    if k in m then m[k] else map[]
  }

  function SetInner<V>(m: map<StreamKey, map<NodeId, V>>, k: StreamKey, o: NodeId, v: V): map<StreamKey, map<NodeId, V>> {
    m[k := Inner(m, k)[o := v]]
  }

  /** Removes one origin, and the stream with it once nothing is left. */
  function RemoveInner<V>(m: map<StreamKey, map<NodeId, V>>, k: StreamKey, o: NodeId): map<StreamKey, map<NodeId, V>> {
    var rest := Inner(m, k) - {o};
    if rest == map[] then m - {k} else m[k := rest]
  }

  // ----- versions and entries -----

  function SnapshotVersion(ps: Peers, k: StreamKey, o: NodeId): real {
    if Has(ps.snapshots, k, o) then ps.snapshots[k][o].version else 0.0
  }

  function TombstoneVersion(ps: Peers, k: StreamKey, o: NodeId): real {
    if Has(ps.tombstones, k, o) then ps.tombstones[k][o] else 0.0
  }

  /** The version a node knows of an origin's stream, 0 when it knows nothing. */
  function Known(ps: Peers, k: StreamKey, o: NodeId): real {
    Max(SnapshotVersion(ps, k, o), TombstoneVersion(ps, k, o))
  }

  /** What a node holds for an origin's stream. */
  function EntryAt(ps: Peers, k: StreamKey, o: NodeId): Option<Entry> {
    if Has(ps.snapshots, k, o) then Some(Snapshot(ps.snapshots[k][o].log, ps.snapshots[k][o].version))
    else if Has(ps.tombstones, k, o) then Some(Tombstone(ps.tombstones[k][o]))
    else None
  }

  function KnownStreams(ps: Peers): set<StreamKey> { ps.snapshots.Keys + ps.tombstones.Keys }

  function KnownOrigins(ps: Peers, k: StreamKey): set<NodeId> {
    Inner(ps.snapshots, k).Keys + Inner(ps.tombstones, k).Keys
  }

  /** Room for the entry under the two size limits. */
  predicate Admits(ps: Peers, k: StreamKey, o: NodeId) {
    && (k in KnownStreams(ps) || |KnownStreams(ps)| < MAX_PEER_STREAMS)
    && (o in KnownOrigins(ps, k) || |KnownOrigins(ps, k)| < MAX_ORIGINS_PER_STREAM)
  }

  /** A snapshot and a tombstone never coexist, and every version held is positive. */
  ghost predicate ValidPeers(ps: Peers) {
    && (forall k, o :: !(Has(ps.snapshots, k, o) && Has(ps.tombstones, k, o)))
    && (forall k, o | Has(ps.snapshots, k, o) :: ps.snapshots[k][o].version > 0.0)
    && (forall k, o | Has(ps.tombstones, k, o) :: ps.tombstones[k][o] > 0.0)
  }

  function NoPeers(): Peers { Peers(map[], map[]) }

  // ----- receiving one entry -----

  /** The locked region of receiving: an entry is installed when there is room for it and
      its version is newer than anything known, and replaces its counterpart. */
  function Install(ps: Peers, k: StreamKey, o: NodeId, e: Entry): Peers {
    if !Admits(ps, k, o) || e.version <= Known(ps, k, o) then ps
    else if e.Tombstone? then Peers(RemoveInner(ps.snapshots, k, o), SetInner(ps.tombstones, k, o, e.version))
    else Peers(SetInner(ps.snapshots, k, o, Versioned(e.log, e.version)), RemoveInner(ps.tombstones, k, o))
  }

  predicate Accepts(ps: Peers, k: StreamKey, o: NodeId, e: Entry) { Admits(ps, k, o) && e.version > Known(ps, k, o) }

  lemma SetInnerHas<V>(m: map<StreamKey, map<NodeId, V>>, k: StreamKey, o: NodeId, v: V, k': StreamKey, o': NodeId)
    ensures var r := SetInner(m, k, o, v);
      && (Has(r, k', o') <==> Has(m, k', o') || (k' == k && o' == o))
      && (Has(r, k', o') ==> r[k'][o'] == if k' == k && o' == o then v else m[k'][o'])
  {
  }

  lemma RemoveInnerHas<V>(m: map<StreamKey, map<NodeId, V>>, k: StreamKey, o: NodeId, k': StreamKey, o': NodeId)
    ensures var r := RemoveInner(m, k, o);
      && (Has(r, k', o') <==> Has(m, k', o') && !(k' == k && o' == o))
      && (Has(r, k', o') ==> r[k'][o'] == m[k'][o'])
  {
    var rest := Inner(m, k) - {o};
    if k' == k && Has(m, k', o') && o' != o { assert o' in rest; }
  }

  /** Receiving changes exactly the entry it is about, and only when it is accepted. */
  lemma {:induction false} InstallChangesOneEntry(ps: Peers, k: StreamKey, o: NodeId, e: Entry, k': StreamKey, o': NodeId)
    ensures EntryAt(Install(ps, k, o, e), k', o')
         == if k' == k && o' == o && Accepts(ps, k, o, e) then Some(e) else EntryAt(ps, k', o')
  {
    hide SetInner, RemoveInner, Admits, Known;
    if Accepts(ps, k, o, e) {
      if e.Tombstone? {
        RemoveInnerHas(ps.snapshots, k, o, k', o');
        SetInnerHas(ps.tombstones, k, o, e.version, k', o');
      } else {
        SetInnerHas(ps.snapshots, k, o, Versioned(e.log, e.version), k', o');
        RemoveInnerHas(ps.tombstones, k, o, k', o');
      }
    }
  }

  /** An entry is taken in exactly when the stream is known or there are fewer than 10000, the
      origin is known for it or there are fewer than 50, and it is newer than what is held. */
  lemma {:induction false} InstallMeans(ps: Peers, k: StreamKey, o: NodeId, e: Entry)
    requires ValidPeers(ps)
    ensures var streams := ps.snapshots.Keys + ps.tombstones.Keys;
      var origins := (if k in ps.snapshots then ps.snapshots[k].Keys else {}) + if k in ps.tombstones then ps.tombstones[k].Keys else {};
      var newer := match EntryAt(ps, k, o) case Some(held) => e.version > held.version case None => e.version > 0.0;
      EntryAt(Install(ps, k, o, e), k, o)
      == if (k in streams || |streams| < 10_000) && (o in origins || |origins| < 50) && newer then Some(e) else EntryAt(ps, k, o)
  {
    hide Install, SetInner, RemoveInner;
    InstallChangesOneEntry(ps, k, o, e, k, o);
    KnownIsEntryVersion(ps, k, o);
  }

  /** A node never comes to hold more than 10000 streams, nor 50 origins of one. */
  lemma {:induction false} InstallKeepsLimits(ps: Peers, k: StreamKey, o: NodeId, e: Entry, j: StreamKey)
    ensures |KnownStreams(ps)| <= 10_000 ==> |KnownStreams(Install(ps, k, o, e))| <= 10_000
    ensures |KnownOrigins(ps, j)| <= 50 ==> |KnownOrigins(Install(ps, k, o, e), j)| <= 50
  {
    hide KnownStreams, KnownOrigins, Install;
    InstallAddsAtMostOne(ps, k, o, e, j);
    if Accepts(ps, k, o, e) {
      SubsetCardinality(KnownStreams(Install(ps, k, o, e)), KnownStreams(ps) + {k});
      SubsetCardinality(KnownOrigins(Install(ps, k, o, e), j), KnownOrigins(ps, j) + if j == k then {o} else {});
      AtMostOneMore(KnownStreams(ps), k);
      AtMostOneMore(KnownOrigins(ps, j), o);
    } else {
      Refused(ps, k, o, e);
    }
  }

  /** Receiving leaves no stream without an origin behind. */
  lemma InstallLeavesNoEmptyStream(ps: Peers, k: StreamKey, o: NodeId, e: Entry)
    requires (forall j | j in ps.snapshots :: ps.snapshots[j] != map[]) && (forall j | j in ps.tombstones :: ps.tombstones[j] != map[])
    ensures var r := Install(ps, k, o, e);
      (forall j | j in r.snapshots :: r.snapshots[j] != map[]) && (forall j | j in r.tombstones :: r.tombstones[j] != map[])
  {
    hide Admits, Known;
    if e.Tombstone? {
      NoneEmptySet(ps.tombstones, k, o, e.version);
      NoneEmptyRemove(ps.snapshots, k, o);
    } else {
      NoneEmptySet(ps.snapshots, k, o, Versioned(e.log, e.version));
      NoneEmptyRemove(ps.tombstones, k, o);
    }
  }

  lemma NoneEmptySet<V>(m: map<StreamKey, map<NodeId, V>>, k: StreamKey, o: NodeId, v: V)
    requires forall j | j in m :: m[j] != map[]
    ensures forall j | j in SetInner(m, k, o, v) :: SetInner(m, k, o, v)[j] != map[]
  {
    assert o in Inner(m, k)[o := v];
  }

  lemma NoneEmptyRemove<V>(m: map<StreamKey, map<NodeId, V>>, k: StreamKey, o: NodeId)
    requires forall j | j in m :: m[j] != map[]
    ensures forall j | j in RemoveInner(m, k, o) :: RemoveInner(m, k, o)[j] != map[]
  {
  }

  lemma AtMostOneMore<T>(s: set<T>, x: T)
    ensures |s + {x}| == if x in s then |s| else |s| + 1
  {
    if x in s { assert s + {x} == s; }
  }

  lemma Refused(ps: Peers, k: StreamKey, o: NodeId, e: Entry)
    requires !Accepts(ps, k, o, e)
    ensures Install(ps, k, o, e) == ps
  {
  }

  lemma KnownIsEntryVersion(ps: Peers, k: StreamKey, o: NodeId)
    requires ValidPeers(ps)
    ensures Known(ps, k, o) == match EntryAt(ps, k, o) case Some(e) => e.version case None => 0.0
    ensures EntryAt(ps, k, o).Some? ==> EntryAt(ps, k, o).value.version > 0.0
  {
  }

  lemma {:induction false} InstallKeepsValid(ps: Peers, k: StreamKey, o: NodeId, e: Entry)
    requires ValidPeers(ps)
    ensures ValidPeers(Install(ps, k, o, e))
  {
    hide SetInner, RemoveInner, Admits;
    var r := Install(ps, k, o, e);
    KnownIsEntryVersion(ps, k, o);
    if Accepts(ps, k, o, e) {
      forall k', o'
        ensures !(Has(r.snapshots, k', o') && Has(r.tombstones, k', o'))
        ensures Has(r.snapshots, k', o') ==> r.snapshots[k'][o'].version > 0.0
        ensures Has(r.tombstones, k', o') ==> r.tombstones[k'][o'] > 0.0
      {
        if e.Tombstone? {
          RemoveInnerHas(ps.snapshots, k, o, k', o');
          SetInnerHas(ps.tombstones, k, o, e.version, k', o');
        } else {
          SetInnerHas(ps.snapshots, k, o, Versioned(e.log, e.version), k', o');
          RemoveInnerHas(ps.tombstones, k, o, k', o');
        }
      }
    }
  }

  /** The known version of an entry only grows. */
  lemma {:induction false} InstallIsMonotone(ps: Peers, k: StreamKey, o: NodeId, e: Entry, k': StreamKey, o': NodeId)
    requires ValidPeers(ps)
    ensures Known(ps, k', o') <= Known(Install(ps, k, o, e), k', o')
  {
    hide Install, Known, EntryAt;
    InstallKeepsValid(ps, k, o, e);
    InstallChangesOneEntry(ps, k, o, e, k', o');
    KnownIsEntryVersion(ps, k', o');
    KnownIsEntryVersion(Install(ps, k, o, e), k', o');
  }

  // ----- messages -----

  datatype WireVersion = Missing | Invalid | Number(value: real)

  /** What a payload carries for one origin. A state that cannot be restored is None. */
  datatype Wire = NotAnObject | Wire(version: WireVersion, tombstone: bool, state: Option<Log>)

  datatype Incoming = Incoming(stream: StreamKey, origin: NodeId, data: Wire)

  /** A valid entry about an origin's stream. */
  datatype Fact = Fact(stream: StreamKey, origin: NodeId, entry: Entry)

  function WireEntry(timestamp: real, w: Wire): Option<Entry> {
    if w.NotAnObject? then None
    else
      var version := if w.version.Missing? then Number(timestamp) else w.version;
      if version.Invalid? || version.value < 0.0 then None
      else if w.tombstone then Some(Tombstone(version.value))
      else if w.state.None? then None
      else Some(Snapshot(w.state.value, version.value))
  }

  /** What a node makes of one item: nothing when the key, the origin, the version or the
      state is invalid, or when its own data is echoed back. */
  function Parse(self: NodeId, timestamp: real, m: Incoming): Option<Fact> {
    if !ValidStreamKey(m.stream) || !ValidName(m.origin) || m.origin == self then None
    else match WireEntry(timestamp, m.data)
      case None => None
      case Some(e) => Some(Fact(m.stream, m.origin, e))
  }

  /** An item counts when its key is the text of at most 1024 characters of two names, both and
      the origin's name have 1 to 255 characters, the origin is another node, and its version,
      the payload's time if it has none, is a number of at least 0. A tombstone needs no state,
      a snapshot one that can be restored. */
  lemma {:induction false} ParseMeans(self: NodeId, timestamp: real, k: StreamKey, o: NodeId, version: WireVersion,
    tombstone: bool, state: Option<Log>)
    ensures var named := k.Pair? && 1 <= |k.namespace| <= 255 && 1 <= |k.stream| <= 255 && KeyLength(k.namespace, k.stream) <= 1024
        && 1 <= |o| <= 255 && o != self;
      var at := match version case Missing => timestamp case Number(v) => v case Invalid => -1.0;
      Parse(self, timestamp, Incoming(k, o, Wire(version, tombstone, state)))
      == if !named || at < 0.0 || (!tombstone && state.None?) then None
         else Some(Fact(k, o, if tombstone then Tombstone(at) else Snapshot(state.value, at)))
    ensures Parse(self, timestamp, Incoming(k, o, NotAnObject)).None?
  {
    hide KeyLength;
  }

  function Facts(self: NodeId, timestamp: real, ms: seq<Incoming>): seq<Fact> {
    if ms == [] then []
    else
      var front := Facts(self, timestamp, ms[..|ms| - 1]);
      match Parse(self, timestamp, ms[|ms| - 1])
      case None => front
      case Some(f) => front + [f]
  }

  function InstallAll(ps: Peers, fs: seq<Fact>): Peers {
    if fs == [] then ps
    else
      var last := fs[|fs| - 1];
      Install(InstallAll(ps, fs[..|fs| - 1]), last.stream, last.origin, last.entry)
  }

  // ----- the result of a run of deliveries -----

  function StreamsIn(fs: seq<Fact>): set<StreamKey> { set f | f in fs :: f.stream }

  function OriginsIn(fs: seq<Fact>, k: StreamKey): set<NodeId> { set f | f in fs && f.stream == k :: f.origin }

  /** Every stream and origin the facts mention fits beside what a node already knows. */
  ghost predicate Room(ps: Peers, fs: seq<Fact>) {
    && |KnownStreams(ps) + StreamsIn(fs)| <= MAX_PEER_STREAMS
    && forall k :: |KnownOrigins(ps, k) + OriginsIn(fs, k)| <= MAX_ORIGINS_PER_STREAM
  }

  lemma InstallAddsAtMostOne(ps: Peers, k: StreamKey, o: NodeId, e: Entry, k': StreamKey)
    ensures KnownStreams(Install(ps, k, o, e)) <= KnownStreams(ps) + {k}
    ensures KnownOrigins(Install(ps, k, o, e), k') <= KnownOrigins(ps, k') + if k' == k then {o} else {}
  {
    hide Admits, Known;
  }

  lemma {:induction false} ImagesGrow(fs: seq<Fact>, f: Fact, k: StreamKey)
    ensures StreamsIn(fs) + {f.stream} == StreamsIn(fs + [f])
    ensures OriginsIn(fs, k) + (if f.stream == k then {f.origin} else {}) == OriginsIn(fs + [f], k)
  {
    var all := fs + [f];
    assert f in all && (forall g | g in fs :: g in all) && forall g | g in all :: g in fs || g == f;
  }

  lemma {:induction false} KnownWasDelivered(ps: Peers, fs: seq<Fact>, k: StreamKey)
    ensures KnownStreams(InstallAll(ps, fs)) <= KnownStreams(ps) + StreamsIn(fs)
    ensures KnownOrigins(InstallAll(ps, fs), k) <= KnownOrigins(ps, k) + OriginsIn(fs, k)
  {
    hide Install, StreamsIn, OriginsIn, KnownStreams, KnownOrigins;
    if fs != [] {
      var front, last := fs[..|fs| - 1], fs[|fs| - 1];
      assert fs == front + [last];
      KnownWasDelivered(ps, front, k);
      InstallAddsAtMostOne(InstallAll(ps, front), last.stream, last.origin, last.entry, k);
      ImagesGrow(front, last, k);
    }
  }

  lemma ProperSubset<T>(a: set<T>, b: set<T>, x: T)
    requires a <= b && x in b && x !in a
    ensures |a| < |b|
  {
    assert b == a + (b - a);
    assert x in b - a;
  }

  /** With room for all facts there is always room for the next one. */
  lemma {:induction false} AlwaysRoom(ps: Peers, fs: seq<Fact>, f: Fact)
    requires Room(ps, fs + [f])
    ensures Admits(InstallAll(ps, fs), f.stream, f.origin) && Room(ps, fs)
  {
    hide StreamsIn, OriginsIn, KnownStreams, KnownOrigins;
    var now := InstallAll(ps, fs);
    KnownWasDelivered(ps, fs, f.stream);
    ImagesGrow(fs, f, f.stream);
    var streams := KnownStreams(ps) + StreamsIn(fs + [f]);
    var origins := KnownOrigins(ps, f.stream) + OriginsIn(fs + [f], f.stream);
    if f.stream !in KnownStreams(now) { ProperSubset(KnownStreams(now), streams, f.stream); }
    if f.origin !in KnownOrigins(now, f.stream) { ProperSubset(KnownOrigins(now, f.stream), origins, f.origin); }
    SubsetCardinality(KnownStreams(ps) + StreamsIn(fs), streams);
    forall k ensures |KnownOrigins(ps, k) + OriginsIn(fs, k)| <= MAX_ORIGINS_PER_STREAM {
      ImagesGrow(fs, f, k);
      SubsetCardinality(KnownOrigins(ps, k) + OriginsIn(fs, k), KnownOrigins(ps, k) + OriginsIn(fs + [f], k));
    }
  }

  /** e is a newest entry among what a node held and what it was delivered. */
  ghost predicate IsNewest(ps: Peers, fs: seq<Fact>, k: StreamKey, o: NodeId, e: Entry) {
    && (EntryAt(ps, k, o) == Some(e) || (Fact(k, o, e) in fs && e.version > Known(ps, k, o)))
    && Known(ps, k, o) <= e.version
    && forall f | f in fs && f.stream == k && f.origin == o :: f.entry.version <= e.version
  }

  ghost predicate PositiveVersions(fs: seq<Fact>) { forall f | f in fs :: f.entry.version > 0.0 }

  /** What a node holds after some deliveries is a newest entry, or nothing of nothing. */
  ghost predicate HeldAfter(ps: Peers, fs: seq<Fact>, k: StreamKey, o: NodeId, held: Option<Entry>) {
    match held
    case Some(e) => IsNewest(ps, fs, k, o, e)
    case None => EntryAt(ps, k, o).None? && forall f | f in fs :: !(f.stream == k && f.origin == o)
  }

  function VersionOf(held: Option<Entry>): real { if held.Some? then held.value.version else 0.0 }

  lemma {:induction false} HeldGrows(ps: Peers, fs: seq<Fact>, f: Fact, k: StreamKey, o: NodeId, held: Option<Entry>)
    requires HeldAfter(ps, fs, k, o, held) && f.entry.version > 0.0
    requires Known(ps, k, o) == VersionOf(EntryAt(ps, k, o))
    ensures HeldAfter(ps, fs + [f], k, o,
      if f.stream == k && f.origin == o && f.entry.version > VersionOf(held) then Some(f.entry) else held)
  {
    hide Known, EntryAt;
    var more := fs + [f];
    assert f in more && (forall g | g in fs :: g in more) && forall g | g in more :: g in fs || g == f;
    assert f.stream == k && f.origin == o ==> Fact(k, o, f.entry) == f;
  }

  /** After a run of deliveries a node holds a newest entry of everything it held or was
      delivered, and nothing else. */
  lemma {:induction false} HoldsNewest(ps: Peers, fs: seq<Fact>, k: StreamKey, o: NodeId)
    requires ValidPeers(ps) && Room(ps, fs) && PositiveVersions(fs)
    ensures ValidPeers(InstallAll(ps, fs))
    ensures match EntryAt(InstallAll(ps, fs), k, o)
      case Some(e) => IsNewest(ps, fs, k, o, e)
      case None => EntryAt(ps, k, o).None? && forall f | f in fs :: !(f.stream == k && f.origin == o)
  {
    HoldsNewestOrNothing(ps, fs, k, o);
  }

  lemma {:induction false} HoldsNewestOrNothing(ps: Peers, fs: seq<Fact>, k: StreamKey, o: NodeId)
    requires ValidPeers(ps) && Room(ps, fs) && PositiveVersions(fs)
    ensures ValidPeers(InstallAll(ps, fs)) && HeldAfter(ps, fs, k, o, EntryAt(InstallAll(ps, fs), k, o))
  {
    hide Install, Known, EntryAt, Admits, Room, ValidPeers, HeldAfter;
    KnownIsEntryVersion(ps, k, o);
    if fs == [] {
      HoldsAtFirst(ps, k, o);
    } else {
      var front, last := fs[..|fs| - 1], fs[|fs| - 1];
      assert fs == front + [last];
      AlwaysRoom(ps, front, last);
      assert last in fs && forall f | f in front :: f in fs;
      HoldsNewestOrNothing(ps, front, k, o);
      var now := InstallAll(ps, front);
      InstallChangesOneEntry(now, last.stream, last.origin, last.entry, k, o);
      InstallKeepsValid(now, last.stream, last.origin, last.entry);
      KnownIsEntryVersion(now, k, o);
      HeldGrows(ps, front, last, k, o, EntryAt(now, k, o));
    }
  }

  lemma HoldsAtFirst(ps: Peers, k: StreamKey, o: NodeId)
    requires ValidPeers(ps)
    ensures HeldAfter(ps, [], k, o, EntryAt(ps, k, o))
  {
    KnownIsEntryVersion(ps, k, o);
  }

  lemma NothingHeld(k: StreamKey, o: NodeId)
    ensures ValidPeers(NoPeers()) && EntryAt(NoPeers(), k, o).None?
  {
  }

  /** A version identifies what its origin published. */
  ghost predicate Coherent(fs: seq<Fact>) {
    forall f, g | f in fs && g in fs && f.stream == g.stream && f.origin == g.origin
      && f.entry.version == g.entry.version :: f == g
  }

  /** Convergence: two nodes that were delivered the same facts about third parties, in any
      order and any number of times, hold the same entry for every third party. */
  lemma {:induction false} SameDeliveriesSameEntries(a: NodeId, b: NodeId, xs: seq<Fact>, ys: seq<Fact>, k: StreamKey, o: NodeId)
    requires Room(NoPeers(), xs) && Room(NoPeers(), ys)
    requires PositiveVersions(xs) && PositiveVersions(ys) && Coherent(xs)
    requires forall f: Fact | f.origin != a && f.origin != b :: f in xs <==> f in ys
    requires o != a && o != b
    ensures EntryAt(InstallAll(NoPeers(), xs), k, o) == EntryAt(InstallAll(NoPeers(), ys), k, o)
  {
    hide InstallAll, EntryAt, Room;
    NothingHeld(k, o);
    HoldsNewest(NoPeers(), xs, k, o);
    HoldsNewest(NoPeers(), ys, k, o);
    var x, y := EntryAt(InstallAll(NoPeers(), xs), k, o), EntryAt(InstallAll(NoPeers(), ys), k, o);
    if x.Some? { assert Fact(k, o, x.value) in ys; }
    if y.Some? { assert Fact(k, o, y.value) in xs; }
    if x.Some? && y.Some? {
      assert Fact(k, o, x.value) == Fact(k, o, y.value);
    }
  }
}
