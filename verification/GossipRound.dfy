/** One gossip round between two nodes, run on the node objects themselves, carries out the
    exchange whose convergence is proved on values. */
module GossipRounds {
  import opened Prelude
  import opened StreamLogs
  import opened PeerStore
  import opened Mesh
  import opened Exchange
  import opened Digests
  import opened BoundedDigests
  import opened KeyTexts
  import opened ReplySizes
  import GB = GossipBudget
  import Json
  import opened ClusterManagers

  /** A fact as a payload carries it. */
  function WireOf(f: Fact): Incoming {
    Incoming(f.stream, f.origin, Wire(Number(f.entry.version), f.entry.Tombstone?, if f.entry.Snapshot? then Some(f.entry.log) else None))
  }

  function WiresOf(fs: seq<Fact>): (ms: seq<Incoming>)
    ensures |ms| == |fs|
  {
    seq(|fs|, i requires 0 <= i < |fs| => WireOf(fs[i]))
  }

  ghost predicate NaturalVersions(fs: seq<Fact>) { forall f | f in fs :: f.entry.version >= 0.0 }

  /** A payload is read back as the facts the receiver may act on. */
  lemma {:induction false} WiresReadBack(n: Node, timestamp: real, fs: seq<Fact>)
    requires NaturalVersions(fs)
    ensures Facts(n.id, timestamp, WiresOf(fs)) == Accepted(n, fs)
  {
    hide ValidStreamKey, ValidName;
    if fs != [] {
      var front, last := fs[..|fs| - 1], fs[|fs| - 1];
      assert WiresOf(fs)[..|fs| - 1] == WiresOf(front);
      assert last in fs && forall f | f in front :: f in fs;
      WiresReadBack(n, timestamp, front);
      assert Parse(n.id, timestamp, WireOf(last)) == if Acceptable(n, last) then Some(last) else None;
    }
  }

  /** Receiving keeps a node sound. */
  lemma {:induction false} ReceivingIsSound(n: Node, fs: seq<Fact>)
    requires ValidPeers(n.peers) && (forall k :: EntryAt(n.peers, k, n.id).None?) && forall k | k in KnownStreams(n.peers) :: k.Pair?
    ensures var ps := InstallAll(n.peers, Accepted(n, fs));
      ValidPeers(ps) && (forall k :: EntryAt(ps, k, n.id).None?) && forall k | k in KnownStreams(ps) :: k.Pair?
  {
    hide Install, EntryAt, ValidPeers, KnownStreams, KnownOrigins;
    if fs != [] {
      var front, last := fs[..|fs| - 1], fs[|fs| - 1];
      ReceivingIsSound(n, front);
      if Acceptable(n, last) {
        var held := InstallAll(n.peers, Accepted(n, front));
        assert (Accepted(n, front) + [last])[..|Accepted(n, front)|] == Accepted(n, front);
        InstallKeepsValid(held, last.stream, last.origin, last.entry);
        InstallAddsAtMostOne(held, last.stream, last.origin, last.entry, last.stream);
        forall k ensures EntryAt(Install(held, last.stream, last.origin, last.entry), k, n.id).None? {
          InstallChangesOneEntry(held, last.stream, last.origin, last.entry, k, n.id);
        }
      }
    }
  }

  lemma {:induction false} AnswersAre(n: Node, ws: seq<Want>, f: Fact)
    ensures f in AnswersTo(n, ws) <==>
      && Want(f.stream, f.origin) in ws && ValidStreamKey(f.stream) && ValidName(f.origin)
      && f.entry == Answer(n, f.stream, f.origin)
  {
    hide ValidStreamKey, ValidName, Answer;
    if ws != [] {
      var front, last := ws[..|ws| - 1], ws[|ws| - 1];
      assert ws == front + [last];
      AnswersAre(n, front, f);
    }
  }

  /** The receiver of a payload ends up where the exchange says. */
  method Receive(to: ClusterManager, sender: NodeId, fs: seq<Fact>, timestamp: real)
    requires to.Sound() && ValidName(sender) && NaturalVersions(fs)
    modifies to`peerSnapshots, to`peerTombstones
    ensures to.AsNode() == ReceiveAll(old(to.AsNode()), fs) && to.Sound()
  {
    hide InstallAll, Accepted, ReceiveAll, Facts, ValidPeers, PositiveOwn, EntryAt;
    ghost var before := to.AsNode();
    ReceivingInstalls(before, fs);
    ReceivingIsSound(before, fs);
    WiresReadBack(before, timestamp, fs);
    OwnStateKept(before, InstallAll(before.peers, Accepted(before, fs)));
    var outcome := to.ReceiveSnapshot(sender, WiresOf(fs), timestamp);
  }

  lemma OwnStateKept(n: Node, peers: Peers)
    ensures PositiveOwn(n) ==> PositiveOwn(n.(peers := peers))
    ensures PairsOnly(n) && (forall k | k in KnownStreams(peers) :: k.Pair?) ==> PairsOnly(n.(peers := peers))
  {
  }

  lemma {:induction false} OffersAreNatural(b: Node, seen: (StreamKey, NodeId) -> real, fs: seq<Fact>)
    requires (forall f | f in fs :: Offers(b, seen, f)) && forall k, o :: seen(k, o) >= 0.0
    ensures NaturalVersions(fs)
  {
  }

  lemma {:induction false} AnswersAreNatural(n: Node, ws: seq<Want>)
    requires ValidPeers(n.peers) && PositiveOwn(n)
    ensures NaturalVersions(AnswersTo(n, ws))
  {
    hide Answer, ValidPeers, PositiveOwn, AnswersTo, Known;
    forall f | f in AnswersTo(n, ws) ensures f.entry.version >= 0.0 {
      AnswersAre(n, ws, f);
      if f.origin == n.id {
        AnswerVersion(n, f.stream);
      } else {
        AnswerAboutPeer(n, f.stream, f.origin);
        KnownIsEntryVersion(n.peers, f.stream, f.origin);
      }
    }
  }

  /** What the receiver of a digest sees: the versions of the streams it carries. */
  ghost function SeenOf(n: Node, dead: set<NodeId>, streams: set<StreamKey>): (StreamKey, NodeId) -> real {
    (k, o) => if k in streams then DigestVersion(n, dead, k, o) else 0.0
  }

  /** A listing of a node's version vector, in some order. */
  ghost predicate Lists(n: Node, dead: set<NodeId>, vv: Versions, listing: seq<DigestItem>) {
    && (forall k, o :: VersionIn(vv, k, o) == DigestVersion(n, dead, k, o))
    && vv.Keys == ListedStreams(n) && (forall k | k in vv :: vv[k].Keys == ListedOrigins(n, dead, k))
    && ListsVersions(listing, vv) && |listing| == |vv|
  }

  lemma {:induction false} ListingIsOfPairs(n: Node, dead: set<NodeId>, vv: Versions, listing: seq<DigestItem>)
    requires Lists(n, dead, vv, listing) && PairsOnly(n)
    ensures DistinctStreams(listing) && PairStreams(listing)
  {
    hide DigestVersion, ListedStreams, ListedOrigins;
    forall item | item in listing ensures item.stream.Pair? {
      var i :| 0 <= i < |listing| && listing[i] == item;
      assert ListsItem(listing[i], vv);
    }
  }

  /** The part of a vector a bounded digest carries, as items. */
  ghost predicate Carries(nodeId: NodeId, max: nat, spell: Spelling, listing: seq<DigestItem>, cursor: nat,
    sent: seq<Json.Field>, next: nat, items: seq<DigestItem>)
  {
    GB.IsCall(nodeId, max, FieldsOf(spell, listing), cursor, sent, next) && items == ItemsFor(spell, listing, sent)
  }

  lemma {:induction false} CarriesPart(n: Node, dead: set<NodeId>, max: nat, spell: Spelling, vv: Versions,
    listing: seq<DigestItem>, cursor: nat,
    sent: seq<Json.Field>, next: nat, items: seq<DigestItem>)
    requires Lists(n, dead, vv, listing) && PairsOnly(n) && Carries(n.id, max, spell, listing, cursor, sent, next, items)
    ensures Selection(spell, listing, sent)
    ensures ListsVersions(items, Restrict(vv, Listed(items))) && |items| == |Restrict(vv, Listed(items))|
  {
    hide PairsOnly, GB.IsCall, FieldsOf, ItemsFor, DigestVersion, ListedStreams, ListedOrigins, DistinctStreams, PairStreams;
    ListingIsOfPairs(n, dead, vv, listing);
    FieldsAreDistinct(spell, listing);
    CallSelects(n.id, max, FieldsOf(spell, listing), cursor, sent, next);
    SelectionLists(spell, listing, vv, sent);
  }

  /** A clean digest within the limits of a receiver is seen as it was meant. */
  lemma {:induction false} DigestIsSeen(n: Node, dead: set<NodeId>, vv: Versions, listing: seq<DigestItem>, items: seq<DigestItem>)
    requires Lists(n, dead, vv, listing) && SoundNode(n) && CleanNode(n) && SmallNode(n, dead)
    requires ListsVersions(items, Restrict(vv, Listed(items))) && |items| == |Restrict(vv, Listed(items))|
    ensures Clean(vv)
    ensures forall k, o :: SeenIn(KeptStreams(items))(k, o) == SeenOf(n, dead, Listed(items))(k, o) >= 0.0
  {
    hide SoundNode, CleanNode, SmallNode, ListsVersions, KeptStreams, DigestVersion, ListedStreams, ListedOrigins;
    CleanDigest(n, dead, vv);
    SmallDigest(n, dead, vv);
    var part := Restrict(vv, Listed(items));
    SubsetCardinality(part.Keys, vv.Keys);
    assert |part.Keys| == |part| && |vv.Keys| == |vv|;
    assert Small(part);
    PartIsClean(vv, Listed(items));
    forall k, o ensures SeenIn(KeptStreams(items))(k, o) == SeenOf(n, dead, Listed(items))(k, o) >= 0.0 {
      DigestIsNatural(n, dead, k, o);
      SmallDigestsArrive(items, part, k, o);
      assert VersionIn(vv, k, o) == DigestVersion(n, dead, k, o);
    }
  }

  lemma PartIsClean(vv: Versions, streams: set<StreamKey>)
    requires Clean(vv)
    ensures Clean(Restrict(vv, streams))
  {
    hide ValidStreamKey, ValidName;
    forall k, o | Has(Restrict(vv, streams), k, o) ensures ValidStreamKey(k) && ValidName(o) && vv[k][o] >= 0.0 { assert Has(vv, k, o); }
  }

  /** The pieces of a round make up an exchange. */
  lemma {:induction false} RoundIsExchange(a: Node, dead: set<NodeId>, b: Node, vv: Versions, items: seq<DigestItem>,
    ws: seq<Want>, offers: seq<Fact>, a': Node, b': Node)
    requires Clean(vv) && forall k, o :: VersionIn(vv, k, o) == DigestVersion(a, dead, k, o)
    requires forall k, o :: SeenIn(KeptStreams(items))(k, o) == DigestVersion(a, dead, k, o)
    requires forall k, o :: Want(k, o) in ws <==> Wants(b, SeenIn(KeptStreams(items)), k, o)
    requires forall f :: f in offers <==> Offers(b, SeenIn(KeptStreams(items)), f)
    requires ValidPeers(b.peers)
    requires a' == ReceiveAll(a, offers) && b' == ReceiveAll(b, AnswersTo(a', ws))
    requires Room(a.peers, Accepted(a, offers)) && Room(b.peers, Accepted(b, AnswersTo(a', ws)))
    ensures Exchanged(a, dead, b, offers, AnswersTo(a', ws), a', b')
  {
    hide KeptStreams, DigestVersion, Answer, ReceiveAll, Accepted, Room, AnswersTo, Known, ValidStreamKey, ValidName, ValidPeers;
    var seen := (k, o) => DigestVersion(a, dead, k, o);
    var kept := SeenIn(KeptStreams(items));
    forall f ensures f in offers <==> Offers(b, seen, f) {
      assert kept(f.stream, f.origin) == seen(f.stream, f.origin);
    }
    forall f
      ensures f in AnswersTo(a', ws) <==> Wants(b, seen, f.stream, f.origin) && f.entry == Answer(a', f.stream, f.origin)
    {
      AnswersAre(a', ws, f);
      assert kept(f.stream, f.origin) == seen(f.stream, f.origin);
      if Wants(b, seen, f.stream, f.origin) { WantedIsListed(b, seen, vv, f.stream, f.origin); }
    }
  }

  lemma WantedIsListed(b: Node, seen: (StreamKey, NodeId) -> real, vv: Versions, k: StreamKey, o: NodeId)
    requires Wants(b, seen, k, o) && seen(k, o) == VersionIn(vv, k, o) && Clean(vv) && ValidPeers(b.peers)
    ensures ValidStreamKey(k) && ValidName(o)
  {
    hide ValidStreamKey, ValidName;
    KnownIsEntryVersion(b.peers, k, o);
  }

  // ----- when a round is complete, as its partners can tell beforehand -----

  /** All names a node knows are valid. */
  ghost predicate CleanNode(n: Node) {
    && ValidName(n.id) && (forall k | k in n.local || k in n.tombstones :: ValidStreamKey(k))
    && forall k, o | EntryAt(n.peers, k, o).Some? :: ValidStreamKey(k) && ValidName(o)
  }

  /** Its digest lists no more than a receiver reads. */
  ghost predicate SmallNode(n: Node, dead: set<NodeId>) {
    |ListedStreams(n)| <= MAX_PEER_STREAMS && forall k :: |ListedOrigins(n, dead, k)| <= MAX_ORIGINS_PER_STREAM
  }

  /** How an answer travels in a sync payload. */
  function UpdateFor(write: Writer, f: Fact): GB.Update { GB.Update(KeyText(f.stream), f.origin, write(f.entry)) }

  function UpdatesFor(write: Writer, fs: seq<Fact>): (us: seq<GB.Update>)
    ensures |us| == |fs|
  {
    seq(|fs|, i requires 0 <= i < |fs| => UpdateFor(write, fs[i]))
  }

  /** The answers that fit a sync payload alone. */
  function Fitting(nodeId: NodeId, max: nat, write: Writer, fs: seq<Fact>): seq<Fact> {
    if fs == [] then []
    else
      var front, last := Fitting(nodeId, max, write, fs[..|fs| - 1]), fs[|fs| - 1];
      if GB.SyncFitsAlone(nodeId, max, UpdateFor(write, last)) then front + [last] else front
  }

  /** Facts that take the room of the wanted ones. */
  function PlaceHolders(ws: seq<Want>): (fs: seq<Fact>)
    ensures |fs| == |ws|
  {
    seq(|ws|, i requires 0 <= i < |ws| => Fact(ws[i].stream, ws[i].origin, Tombstone(0.0)))
  }

  /** A node starts a round when it has anything to list and an empty digest fits. */
  predicate Starts(a: Node, max: nat) { ListedStreams(a) != {} && GB.EmptyDigestSize(a.id) <= max }

  /** The whole version vector fits one digest, in whatever order. */
  ghost predicate VectorFits(n: Node, dead: set<NodeId>, max: nat, spell: Spelling) {
    forall vv, listing | Lists(n, dead, vv, listing) :: Json.Size(GB.DigestJson(n.id, FieldsOf(spell, listing))) <= max
  }

  /** What both partners' states and the limit must be like for a round to leave nothing out:
      all names are valid, there is something to list, the digest fits the limit and is no
      larger than a receiver reads, all requests fit a quarter of the limit and the whole
      reply the limit, every answer fits a payload, and both nodes have room. */
  ghost predicate RoundFits(a: Node, dead: set<NodeId>, b: Node, max: nat, spell: Spelling, write: Writer, ws: seq<Want>, fs: seq<Fact>) {
    && CleanNode(a) && SmallNode(a, dead) && ListedStreams(a) != {} && VectorFits(a, dead, max, spell)
    && Whole(b, SeenOf(a, dead, ListedStreams(a)), ws, fs)
    && ReplySize(b.id, write, [], ws) <= max / 4 && ReplySize(b.id, write, fs, ws) <= max
    && (forall w | w in ws :: GB.SyncFitsAlone(a.id, max, UpdateFor(write, Fact(w.stream, w.origin, Answer(a, w.stream, w.origin)))))
    && Room(a.peers, Accepted(a, fs)) && Room(b.peers, PlaceHolders(ws))
  }

  /** A sound node as a value. */
  ghost predicate SoundNode(n: Node) {
    ValidPeers(n.peers) && PositiveOwn(n) && (forall k :: EntryAt(n.peers, k, n.id).None?) && PairsOnly(n)
  }

  lemma CleanDigest(n: Node, dead: set<NodeId>, vv: Versions)
    requires CleanNode(n) && SoundNode(n) && (forall k, o :: VersionIn(vv, k, o) == DigestVersion(n, dead, k, o))
    requires vv.Keys == ListedStreams(n) && forall k | k in vv :: vv[k].Keys == ListedOrigins(n, dead, k)
    ensures Clean(vv)
  {
    hide ValidStreamKey, ValidName, ValidPeers;
    forall k, o | Has(vv, k, o) ensures ValidStreamKey(k) && ValidName(o) && vv[k][o] >= 0.0 {
      assert o in ListedOrigins(n, dead, k);
      DigestIsNatural(n, dead, k, o);
      assert vv[k][o] == VersionIn(vv, k, o);
      if o in Inner(n.peers.snapshots, k) || o in Inner(n.peers.tombstones, k) { assert EntryAt(n.peers, k, o).Some?; }
    }
  }

  lemma DigestIsNatural(n: Node, dead: set<NodeId>, k: StreamKey, o: NodeId)
    requires SoundNode(n)
    ensures DigestVersion(n, dead, k, o) >= 0.0
  {
    AnswerVersion(n, k);
  }

  lemma SmallDigest(n: Node, dead: set<NodeId>, vv: Versions)
    requires SmallNode(n, dead) && vv.Keys == ListedStreams(n) && forall k | k in vv :: vv[k].Keys == ListedOrigins(n, dead, k)
    ensures Small(vv)
  {
    hide ListedStreams, ListedOrigins;
    assert |vv.Keys| == |vv|;
    forall k | k in vv ensures |vv[k]| <= MAX_ORIGINS_PER_STREAM { assert |vv[k].Keys| == |vv[k]|; }
  }

  /** Wants and offers depend on the digest only through the versions it lists. */
  lemma {:induction false} SameSeen(n: Node, s: (StreamKey, NodeId) -> real, t: (StreamKey, NodeId) -> real, ws: seq<Want>, fs: seq<Fact>)
    requires forall k, o :: s(k, o) == t(k, o)
    ensures Whole(n, s, ws, fs) <==> Whole(n, t, ws, fs)
  {
    hide Answer, Known;
    forall k, o ensures Wants(n, s, k, o) <==> Wants(n, t, k, o) { assert s(k, o) == t(k, o); }
    forall f ensures Offers(n, s, f) <==> Offers(n, t, f) { assert s(f.stream, f.origin) == t(f.stream, f.origin); }
  }

  lemma OfferIsPair(n: Node, seen: (StreamKey, NodeId) -> real, f: Fact)
    requires SoundNode(n) && Offers(n, seen, f) && seen(f.stream, f.origin) >= 0.0
    ensures f.stream.Pair? && f.entry == Answer(n, f.stream, f.origin)
  {
    hide EntryAt, ValidPeers;
    if f.origin == n.id {
      AnswerVersion(n, f.stream);
    } else {
      AnswerAboutPeer(n, f.stream, f.origin);
      KnownIsEntryVersion(n.peers, f.stream, f.origin);
    }
  }

  lemma {:induction false} NotToldStays(ps: Peers, fs: seq<Fact>, k: StreamKey, o: NodeId)
    requires forall f | f in fs :: !(f.stream == k && f.origin == o)
    ensures EntryAt(InstallAll(ps, fs), k, o) == EntryAt(ps, k, o)
  {
    hide Install, EntryAt;
    if fs != [] {
      var front, last := fs[..|fs| - 1], fs[|fs| - 1];
      assert last in fs && forall f | f in front :: f in fs;
      NotToldStays(ps, front, k, o);
      InstallChangesOneEntry(InstallAll(ps, front), last.stream, last.origin, last.entry, k, o);
    }
  }

  /** What the responder wants, its reply says nothing about. */
  lemma {:induction false} WantedStays(a: Node, b: Node, seen: (StreamKey, NodeId) -> real, offers: seq<Fact>, k: StreamKey, o: NodeId)
    requires SoundNode(a) && SoundNode(b) && Wants(b, seen, k, o) && forall f | f in offers :: Offers(b, seen, f)
    ensures Answer(ReceiveAll(a, offers), k, o) == Answer(a, k, o)
  {
    hide InstallAll, Accepted, EntryAt, Known, ValidPeers, PositiveOwn, PairsOnly;
    ReceivingInstalls(a, offers);
    if o != a.id {
      AnswerAboutPeer(b, k, o);
      forall f | f in Accepted(a, offers) ensures !(f.stream == k && f.origin == o) { AcceptedKeeps(a, offers, f); }
      NotToldStays(a.peers, Accepted(a, offers), k, o);
      ReceivingIsSound(a, offers) by { assert PairsOnly(a); PeerKeysArePairs(a); }
      AnswerAboutPeer(a, k, o);
      AnswerAboutPeer(ReceiveAll(a, offers), k, o);
    }
  }

  lemma PeerKeysArePairs(n: Node)
    requires PairsOnly(n)
    ensures forall k | k in KnownStreams(n.peers) :: k.Pair?
  {
  }

  /** Fewer streams and origins need no more room. */
  lemma {:induction false} RoomShrinks(ps: Peers, fs: seq<Fact>, gs: seq<Fact>)
    requires Room(ps, gs) && forall f | f in fs :: exists g :: g in gs && g.stream == f.stream && g.origin == f.origin
    ensures Room(ps, fs)
  {
    hide KnownStreams, KnownOrigins;
    assert StreamsIn(fs) <= StreamsIn(gs);
    SubsetCardinality(KnownStreams(ps) + StreamsIn(fs), KnownStreams(ps) + StreamsIn(gs));
    forall k ensures |KnownOrigins(ps, k) + OriginsIn(fs, k)| <= MAX_ORIGINS_PER_STREAM {
      assert OriginsIn(fs, k) <= OriginsIn(gs, k);
      SubsetCardinality(KnownOrigins(ps, k) + OriginsIn(fs, k), KnownOrigins(ps, k) + OriginsIn(gs, k));
    }
  }

  lemma {:induction false} AllFit(nodeId: NodeId, max: nat, write: Writer, fs: seq<Fact>)
    requires forall f | f in fs :: GB.SyncFitsAlone(nodeId, max, UpdateFor(write, f))
    ensures Fitting(nodeId, max, write, fs) == fs
  {
    hide GB.SyncFitsAlone, UpdateFor;
    if fs != [] {
      var front, last := fs[..|fs| - 1], fs[|fs| - 1];
      assert last in fs && forall f | f in front :: f in fs;
      AllFit(nodeId, max, write, front);
      assert fs == front + [last];
    }
  }

  lemma {:induction false} FittingIsPart(nodeId: NodeId, max: nat, write: Writer, fs: seq<Fact>)
    ensures forall f | f in Fitting(nodeId, max, write, fs) :: f in fs
    ensures UpdatesFor(write, Fitting(nodeId, max, write, fs)) == GB.SyncFitting(nodeId, max, UpdatesFor(write, fs))
  {
    hide GB.SyncFitsAlone, UpdateFor;
    if fs != [] {
      var front, last := fs[..|fs| - 1], fs[|fs| - 1];
      assert last in fs && forall f | f in front :: f in fs;
      FittingIsPart(nodeId, max, write, front);
      assert UpdatesFor(write, fs)[..|fs| - 1] == UpdatesFor(write, front);
      var kept := Fitting(nodeId, max, write, front);
      assert UpdatesFor(write, kept + [last]) == UpdatesFor(write, kept) + [UpdateFor(write, last)];
    }
  }

  // ----- requests of a reply make grouped answers -----

  lemma {:induction false} KeptIsValid(items: seq<DigestItem>)
    ensures forall k, o | Has(KeptStreams(items), k, o) :: ValidStreamKey(k) && ValidName(o)
  {
    hide ValidStreamKey, Kept, ValidName;
    if items != [] {
      KeptIsValid(items[..|items| - 1]);
      var last := items[|items| - 1];
      if last.origins.Some? { KeptNames(last.origins.value); }
      var before := KeptStreams(items[..|items| - 1]);
      forall k, o | Has(KeptStreams(items), k, o) ensures ValidStreamKey(k) && ValidName(o) {
        assert Has(before, k, o) || (k == last.stream && ValidStreamKey(k) && last.origins.Some? && o in Kept(last.origins.value));
      }
    }
  }

  lemma {:induction false} KeptNames(ls: seq<Listing>)
    ensures forall o | o in Kept(ls) :: ValidName(o)
  {
    hide ValidName;
    if ls != [] { KeptNames(ls[..|ls| - 1]); }
  }

  lemma {:induction false} WantedIsValid(b: Node, items: seq<DigestItem>, k: StreamKey, o: NodeId)
    requires ValidPeers(b.peers) && Wants(b, SeenIn(KeptStreams(items)), k, o)
    ensures ValidStreamKey(k) && ValidName(o)
  {
    hide ValidStreamKey, ValidName, KeptStreams;
    KeptIsValid(items);
    KnownIsEntryVersion(b.peers, k, o);
  }

  /** Valid requests are answered one for one. */
  lemma {:induction false} AnswersMatch(n: Node, ws: seq<Want>)
    requires forall w | w in ws :: ValidStreamKey(w.stream) && ValidName(w.origin)
    ensures |AnswersTo(n, ws)| == |ws|
    ensures forall i | 0 <= i < |ws| :: AnswersTo(n, ws)[i] == Fact(ws[i].stream, ws[i].origin, Answer(n, ws[i].stream, ws[i].origin))
  {
    hide ValidStreamKey, ValidName, Answer;
    if ws != [] {
      var front, last := ws[..|ws| - 1], ws[|ws| - 1];
      assert last in ws && forall w | w in front :: w in ws;
      AnswersMatch(n, front);
    }
  }

  /** The answers to the requests of a reply come stream by stream and name no origin of a
      stream twice. */
  lemma {:induction false} RequestsAreGrouped(n: Node, write: Writer, ws: seq<Want>)
    requires GroupedWants(ws) && forall w | w in ws :: ValidStreamKey(w.stream) && ValidName(w.origin)
    ensures GB.Grouped(UpdatesFor(write, AnswersTo(n, ws)))
  {
    hide Answer, KeyText;
    AnswersMatch(n, ws);
    var us := UpdatesFor(write, AnswersTo(n, ws));
    forall i, j | 0 <= i < |ws| && 0 <= j < |ws| && us[i].stream == us[j].stream ensures ws[i].stream == ws[j].stream {
      assert ws[i] in ws && ws[j] in ws;
      TextsDiffer(ws[i].stream, ws[j].stream);
    }
    forall i, j | 0 <= i < j < |us| ensures us[i].stream != us[j].stream || us[i].origin != us[j].origin {
      assert ws[i] != ws[j];
    }
  }

  // ----- the round -----

  datatype Round = Round(
    digest: Versions,
    listing: seq<DigestItem>,
    cursor: nat,
    sent: seq<Json.Field>,
    next: nat,
    items: seq<DigestItem>,
    wants: seq<Want>,
    offers: seq<Fact>,
    answers: seq<Fact>,
    payloads: seq<seq<Json.Field>>)

  /** What the digest of a round is: a bounded part of what a's state says. */
  ghost predicate IsDigest(a: Node, dead: set<NodeId>, max: nat, spell: Spelling, r: Round) {
    && Lists(a, dead, r.digest, r.listing)
    && Carries(a.id, max, spell, r.listing, r.cursor, r.sent, r.next, r.items)
  }

  /** What the rest of a round is: the reply leaves out only what does not fit, and the
      payloads carry every answer that fits one. */
  ghost predicate IsTraffic(a: Node, b: Node, max: nat, write: Writer, r: Round, a': Node, b': Node) {
    && Replies(b, SeenIn(KeptStreams(r.items)), max, write, r.wants, r.offers)
    && a' == ReceiveAll(a, r.offers)
    && r.answers == Fitting(a.id, max, write, AnswersTo(a', r.wants))
    && (forall p | p in r.payloads :: GB.IsUpdates(p) && p != [] && Json.Size(GB.SyncJson(a.id, p)) <= max)
    && GB.FlattenAll(r.payloads) == UpdatesFor(write, r.answers)
    && b' == ReceiveAll(b, r.answers)
  }

  ghost predicate IsRound(a: Node, dead: set<NodeId>, b: Node, max: nat, spell: Spelling, write: Writer, r: Round, a': Node, b': Node) {
    && IsDigest(a, dead, max, spell, r)
    && if Starts(a, max) then IsTraffic(a, b, max, write, r, a', b') else a' == a && b' == b
  }

  /** What the receiver sees of the digest of a round. */
  lemma {:induction false} DigestArrives(a: Node, dead: set<NodeId>, max: nat, spell: Spelling, r: Round)
    requires IsDigest(a, dead, max, spell, r) && SoundNode(a) && CleanNode(a) && SmallNode(a, dead)
    ensures Clean(r.digest) && Selection(spell, r.listing, r.sent)
    ensures forall k, o :: SeenIn(KeptStreams(r.items))(k, o) == SeenOf(a, dead, Listed(r.items))(k, o) >= 0.0
  {
    hide SoundNode, CleanNode, SmallNode, Lists, Carries, SeenIn, SeenOf, Listed, Restrict, Selection;
    assert PairsOnly(a) by { SoundIsPairs(a); }
    CarriesPart(a, dead, max, spell, r.digest, r.listing, r.cursor, r.sent, r.next, r.items);
    DigestIsSeen(a, dead, r.digest, r.listing, r.items);
  }

  lemma SoundIsPairs(n: Node)
    requires SoundNode(n)
    ensures PairsOnly(n)
  {
  }

  /** A vector that fits goes out whole. */
  lemma WholeVectorIsSeen(a: Node, dead: set<NodeId>, max: nat, spell: Spelling, r: Round)
    requires IsDigest(a, dead, max, spell, r) && SoundNode(a) && VectorFits(a, dead, max, spell)
    ensures Listed(r.items) == ListedStreams(a) && GB.EmptyDigestSize(a.id) <= max
  {
    hide SoundNode, GB.DigestJson, Json.Size, FieldsOf, ItemsFor, ListedStreams, ListedOrigins, DigestVersion, ListsItem, PairStreams;
    GB.DigestAtLeastEmpty(a.id, FieldsOf(spell, r.listing));
    ListingIsOfPairs(a, dead, r.digest, r.listing) by { SoundIsPairs(a); }
    WholeSelection(spell, r.listing);
    assert r.items == r.listing;
    forall k ensures k in Listed(r.items) <==> k in r.digest {
      if k in Listed(r.items) {
        var i :| 0 <= i < |r.listing| && r.listing[i].stream == k;
        ItemInVector(r.listing[i], r.digest);
      }
    }
  }

  lemma ItemInVector(item: DigestItem, vv: Versions)
    requires ListsItem(item, vv)
    ensures item.stream in vv
  {
  }

  lemma {:induction false} WholeIsAnswers(b: Node, seen: (StreamKey, NodeId) -> real, ws: seq<Want>, fs: seq<Fact>)
    requires SoundNode(b) && Whole(b, seen, ws, fs) && forall k, o :: seen(k, o) >= 0.0
    ensures AnswersOf(b, fs)
  {
    hide SoundNode, Answer, Offers, Wants;
    forall f | f in fs ensures f.stream.Pair? && f.entry == Answer(b, f.stream, f.origin) { OfferIsPair(b, seen, f); }
  }

  /** The reply of such a round leaves nothing out. */
  lemma {:induction false} ReplyIsWhole(a: Node, dead: set<NodeId>, b: Node, max: nat, spell: Spelling, write: Writer,
    r: Round, a': Node, b': Node, ws: seq<Want>, fs: seq<Fact>)
    requires IsRound(a, dead, b, max, spell, write, r, a', b') && SoundNode(a) && SoundNode(b)
    requires RoundFits(a, dead, b, max, spell, write, ws, fs)
    ensures Whole(b, SeenIn(KeptStreams(r.items)), r.wants, r.offers) && Whole(b, SeenOf(a, dead, ListedStreams(a)), r.wants, r.offers)
  {
    hide SoundNode, CleanNode, SmallNode, KeptStreams, DigestVersion, Answer, Whole, Replies, IsDigest, VectorFits, SeenOf, SeenIn;
    hide Room, ReplySize, Accepted, Listed, ListedStreams;
    DigestArrives(a, dead, max, spell, r);
    WholeVectorIsSeen(a, dead, max, spell, r);
    var seen := SeenIn(KeptStreams(r.items));
    SameSeen(b, seen, SeenOf(a, dead, ListedStreams(a)), ws, fs);
    WholeIsAnswers(b, seen, ws, fs);
    WholeReplyWhenItFits(b, seen, max, write, r.wants, r.offers, ws, fs);
    SameSeen(b, seen, SeenOf(a, dead, ListedStreams(a)), r.wants, r.offers);
  }

  /** Every answer of such a round fits a payload. */
  lemma {:induction false} AnswersAllFit(a: Node, dead: set<NodeId>, b: Node, max: nat, spell: Spelling,
    write: Writer, r: Round, a': Node, b': Node, ws: seq<Want>, fs: seq<Fact>)
    requires IsRound(a, dead, b, max, spell, write, r, a', b') && SoundNode(a) && SoundNode(b)
    requires RoundFits(a, dead, b, max, spell, write, ws, fs) && Whole(b, SeenOf(a, dead, ListedStreams(a)), r.wants, r.offers)
    ensures r.answers == AnswersTo(a', r.wants)
  {
    hide SoundNode, CleanNode, SmallNode, KeptStreams, DigestVersion, Answer, Replies, IsDigest, VectorFits, SeenOf, Room, ReplySize;
    hide Accepted, UpdateFor, ListedStreams;
    WholeVectorIsSeen(a, dead, max, spell, r);
    hide GB.SyncFitsAlone, Wants, Offers, AnswersTo, ReceiveAll, ValidStreamKey, ValidName;
    forall f | f in AnswersTo(a', r.wants) ensures GB.SyncFitsAlone(a.id, max, UpdateFor(write, f)) {
      AnswersAre(a', r.wants, f);
      var w := Want(f.stream, f.origin);
      assert w in r.wants && Wants(b, SeenOf(a, dead, ListedStreams(a)), w.stream, w.origin);
      assert w in ws;
      WantedStays(a, b, SeenOf(a, dead, ListedStreams(a)), r.offers, w.stream, w.origin);
    }
    AllFit(a.id, max, write, AnswersTo(a', r.wants));
  }

  lemma {:induction false} RoomForRound(a: Node, dead: set<NodeId>, b: Node, max: nat, spell: Spelling, write: Writer,
    ws: seq<Want>, fs: seq<Fact>,
    wants: seq<Want>, offers: seq<Fact>, a': Node)
    requires RoundFits(a, dead, b, max, spell, write, ws, fs) && Whole(b, SeenOf(a, dead, ListedStreams(a)), wants, offers)
    ensures Room(a.peers, Accepted(a, offers)) && Room(b.peers, Accepted(b, AnswersTo(a', wants)))
  {
    hide CleanNode, SmallNode, DigestVersion, Answer, SeenOf, Room, ReplySize, Accepted, UpdateFor, AnswersTo, Wants, Offers, VectorFits;
    hide ListedStreams;
    forall f | f in Accepted(a, offers) ensures exists g :: g in Accepted(a, fs) && g.stream == f.stream && g.origin == f.origin {
      AcceptedKeeps(a, offers, f);
      AcceptedKeeps(a, fs, f);
    }
    RoomShrinks(a.peers, Accepted(a, offers), Accepted(a, fs));
    forall f | f in Accepted(b, AnswersTo(a', wants)) ensures exists g :: g in PlaceHolders(ws) && g.stream == f.stream && g.origin == f.origin {
      AcceptedKeeps(b, AnswersTo(a', wants), f);
      AnswersAre(a', wants, f);
      var w := Want(f.stream, f.origin);
      assert Wants(b, SeenOf(a, dead, ListedStreams(a)), w.stream, w.origin);
      var i :| 0 <= i < |ws| && ws[i] == w;
      assert PlaceHolders(ws)[i] == Fact(f.stream, f.origin, Tombstone(0.0));
    }
    RoomShrinks(b.peers, Accepted(b, AnswersTo(a', wants)), PlaceHolders(ws));
  }

  /** A round whose partners fit is the complete exchange. */
  lemma {:induction false} RoundIsComplete(a: Node, dead: set<NodeId>, b: Node, max: nat, spell: Spelling,
    write: Writer, r: Round, a': Node, b': Node, ws: seq<Want>, fs: seq<Fact>)
    requires IsRound(a, dead, b, max, spell, write, r, a', b') && SoundNode(a) && SoundNode(b)
    requires RoundFits(a, dead, b, max, spell, write, ws, fs)
    ensures Exchanged(a, dead, b, r.offers, r.answers, a', b')
  {
    hide SoundNode, CleanNode, SmallNode, KeptStreams, DigestVersion, Answer, Whole, Replies, IsDigest, VectorFits, SeenOf, SeenIn, Room;
    hide ReplySize, Accepted, Clean, Exchanged, AnswersTo, ReceiveAll, Fitting, UpdatesFor, Listed, ListedStreams;
    WholeVectorIsSeen(a, dead, max, spell, r);
    ReplyIsWhole(a, dead, b, max, spell, write, r, a', b', ws, fs);
    AnswersAllFit(a, dead, b, max, spell, write, r, a', b', ws, fs);
    RoomForRound(a, dead, b, max, spell, write, ws, fs, r.wants, r.offers, a');
    WholeIsExact(b, SeenIn(KeptStreams(r.items)), r.wants, r.offers);
    assert ValidPeers(b.peers) by { PeersAreValid(b); }
    WholeVectorArrives(a, dead, max, spell, r);
    RoundIsExchange(a, dead, b, r.digest, r.items, r.wants, r.offers, a', b');
  }

  lemma WholeVectorArrives(a: Node, dead: set<NodeId>, max: nat, spell: Spelling, r: Round)
    requires IsDigest(a, dead, max, spell, r) && SoundNode(a) && CleanNode(a) && SmallNode(a, dead) && VectorFits(a, dead, max, spell)
    ensures Clean(r.digest) && forall k, o :: VersionIn(r.digest, k, o) == DigestVersion(a, dead, k, o)
    ensures forall k, o :: SeenIn(KeptStreams(r.items))(k, o) == DigestVersion(a, dead, k, o)
  {
    hide SoundNode, CleanNode, SmallNode, KeptStreams, DigestVersion, VectorFits, SeenIn, Clean, Carries, Listed, ListedStreams, Selection;
    DigestArrives(a, dead, max, spell, r);
    WholeVectorIsSeen(a, dead, max, spell, r);
    forall k, o ensures SeenIn(KeptStreams(r.items))(k, o) == DigestVersion(a, dead, k, o) { UnlistedIsUnknown(a, dead, k, o); }
  }

  lemma UnlistedIsUnknown(n: Node, dead: set<NodeId>, k: StreamKey, o: NodeId)
    ensures k !in ListedStreams(n) ==> DigestVersion(n, dead, k, o) == 0.0
  {
  }

  lemma PeersAreValid(n: Node)
    requires SoundNode(n)
    ensures ValidPeers(n.peers)
  {
  }

  lemma {:induction false} WholeIsExact(b: Node, seen: (StreamKey, NodeId) -> real, ws: seq<Want>, fs: seq<Fact>)
    requires Whole(b, seen, ws, fs)
    ensures forall k, o :: Want(k, o) in ws <==> Wants(b, seen, k, o)
    ensures forall f :: f in fs <==> Offers(b, seen, f)
  {
  }

  /** A gossip round from a to b on the node objects: a bounded digest, the reply, and the
      sync. When both partners' states and the limit are such that everything fits, it is the
      complete exchange. */
  method GossipRound(a: ClusterManager, digests: GB.DigestCursor, b: ClusterManager, spell: Spelling, write: Writer, t1: real, t2: real)
    returns (r: Round)
    requires a != b && a.Sound() && b.Sound() && ValidName(a.nodeId) && ValidName(b.nodeId) && digests.nodeId == a.nodeId
    modifies digests, a`peerSnapshots, a`peerTombstones, b`peerSnapshots, b`peerTombstones
    ensures a.Sound() && b.Sound() && r.cursor == old(digests.cursor) && r.next == digests.cursor
    ensures IsRound(old(a.AsNode()), old(a.Dead()), old(b.AsNode()), digests.maxPayload, spell, write, r, a.AsNode(), b.AsNode())
    ensures forall ws, fs | RoundFits(old(a.AsNode()), old(a.Dead()), old(b.AsNode()), digests.maxPayload, spell, write, ws, fs) ::
      Exchanged(old(a.AsNode()), old(a.Dead()), old(b.AsNode()), r.offers, r.answers, a.AsNode(), b.AsNode())
  {
    hide IsDigest, IsTraffic, Starts, Exchanged, RoundFits, SoundNode, ClusterManager.Sound, ItemsFor, FieldsOf, GB.IsCall, Json.Size;
    hide ListsVersions, DigestVersion, ListedStreams, ListedOrigins, VersionIn, GB.DigestJson, GB.EmptyDigestSize;
    ghost var na, nb, dead, max := a.AsNode(), b.AsNode(), a.Dead(), digests.maxPayload;
    assert SoundNode(na) && SoundNode(nb) by { SoundIsNode(a); SoundIsNode(b); }
    var vv := a.BuildVersionVector();
    var listing := ListDigest(vv);
    r := Round(vv, listing, digests.cursor, [], digests.cursor, [], [], [], [], []);
    var sent := digests.BoundedVersionVector(FieldsOf(spell, listing));
    r := r.(sent := sent, next := digests.cursor, items := ItemsFor(spell, listing, sent));
    StartsWhen(na, max, r);
    // Nothing is sent without anything to list, and a digest beyond the limit is refused.
    if vv != map[] && Json.Size(GB.DigestJson(a.nodeId, sent)) <= digests.maxPayload {
      r := Traffic(a, b, r, digests.maxPayload, write, t1, t2);
    }
    IsDigestOf(na, dead, max, spell, r);
    forall ws, fs | RoundFits(na, dead, nb, max, spell, write, ws, fs)
      ensures Exchanged(na, dead, nb, r.offers, r.answers, a.AsNode(), b.AsNode())
    {
      RoundIsComplete(na, dead, nb, max, spell, write, r, a.AsNode(), b.AsNode(), ws, fs);
    }
  }

  /** Reply and sync, once the digest is sent. */
  method Traffic(a: ClusterManager, b: ClusterManager, digest: Round, maxPayload: nat, write: Writer, t1: real, t2: real) returns (r: Round)
    requires a != b && a.Sound() && b.Sound() && ValidName(a.nodeId) && ValidName(b.nodeId)
    modifies a`peerSnapshots, a`peerTombstones, b`peerSnapshots, b`peerTombstones
    ensures a.Sound() && b.Sound()
    ensures r == digest.(wants := r.wants, offers := r.offers, answers := r.answers, payloads := r.payloads)
    ensures IsTraffic(old(a.AsNode()), old(b.AsNode()), maxPayload, write, r, a.AsNode(), b.AsNode())
  {
    hide KeptStreams, ReceiveAll, AnswersTo, ValidStreamKey, ValidName, ValidPeers, PositiveOwn, PairsOnly;
    hide NaturalVersions, Wants, Offers, Replies, Fitting, UpdatesFor, GroupedWants, GB.FlattenAll;
    hide GB.SyncFitting, GB.Truthful, GB.Covering, GB.IsUpdates, Json.Size;
    ghost var nb := b.AsNode();
    assert SoundNode(nb);
    var items := digest.items;
    var reply := b.HandleGossipDigest(items, maxPayload, write);
    var wants, offers := reply.requests, reply.updates;
    RepliesAreNatural(nb, items, maxPayload, write, wants, offers);
    Receive(a, b.nodeId, offers, t1);
    var found := a.FulfilRequests(wants);
    AnswersAreNatural(a.AsNode(), wants);
    var answers := Fitting(a.nodeId, maxPayload, write, found);
    FittingIsPart(a.nodeId, maxPayload, write, found);
    FittingIsNatural(found, answers);
    forall w | w in wants ensures ValidStreamKey(w.stream) && ValidName(w.origin) { RequestIsValid(nb, items, maxPayload, write, wants, offers, w); }
    RequestsAreGrouped(a.AsNode(), write, wants);
    var payloads := GB.SendRequested(a.nodeId, maxPayload, UpdatesFor(write, found));
    Receive(b, a.nodeId, answers, t2);
    r := digest.(wants := wants, offers := offers, answers := answers, payloads := payloads);
  }

  lemma SoundIsNode(n: ClusterManager)
    requires n.Sound()
    ensures SoundNode(n.AsNode())
  {
  }

  lemma IsDigestOf(a: Node, dead: set<NodeId>, max: nat, spell: Spelling, r: Round)
    requires forall k, o :: VersionIn(r.digest, k, o) == DigestVersion(a, dead, k, o)
    requires r.digest.Keys == ListedStreams(a) && (forall k | k in r.digest :: r.digest[k].Keys == ListedOrigins(a, dead, k))
    requires ListsVersions(r.listing, r.digest) && |r.listing| == |r.digest|
    requires GB.IsCall(a.id, max, FieldsOf(spell, r.listing), r.cursor, r.sent, r.next) && r.items == ItemsFor(spell, r.listing, r.sent)
    ensures IsDigest(a, dead, max, spell, r)
  {
    hide DigestVersion, ListedStreams, ListedOrigins, ListsVersions, GB.IsCall, FieldsOf, ItemsFor;
  }

  lemma StartsWhen(a: Node, max: nat, r: Round)
    requires r.digest.Keys == ListedStreams(a) && (Json.Size(GB.DigestJson(a.id, r.sent)) <= max <==> GB.EmptyDigestSize(a.id) <= max)
    ensures Starts(a, max) <==> r.digest != map[] && Json.Size(GB.DigestJson(a.id, r.sent)) <= max
  {
    hide Json.Size, GB.DigestJson;
  }

  lemma {:induction false} RepliesAreNatural(b: Node, items: seq<DigestItem>, max: nat, write: Writer, ws: seq<Want>, fs: seq<Fact>)
    requires Replies(b, SeenIn(KeptStreams(items)), max, write, ws, fs)
    ensures NaturalVersions(fs)
  {
    hide KeptStreams, Answer, Wants;
    SeenIsNatural(items);
    OffersAreNatural(b, SeenIn(KeptStreams(items)), fs);
  }

  lemma {:induction false} FittingIsNatural(fs: seq<Fact>, gs: seq<Fact>)
    requires NaturalVersions(fs) && forall g | g in gs :: g in fs
    ensures NaturalVersions(gs)
  {
  }

  lemma {:induction false} RequestIsValid(b: Node, items: seq<DigestItem>, max: nat, write: Writer, ws: seq<Want>, fs: seq<Fact>, w: Want)
    requires SoundNode(b) && Replies(b, SeenIn(KeptStreams(items)), max, write, ws, fs) && w in ws
    ensures ValidStreamKey(w.stream) && ValidName(w.origin)
  {
    hide KeptStreams, Answer, Wants, Offers, ValidStreamKey, ValidName;
    WantedIsValid(b, items, w.stream, w.origin);
  }

  /** A node that publishes a stream and holds it from fifty live peers, as many as it may,
      lists fifty-one origins, and the receiver of its digest misses one of them. */
  lemma {:induction false} FiftyOneOriginsDoNotArrive(n: Node, dead: set<NodeId>, vv: Versions,
    items: seq<DigestItem>, k: StreamKey) returns (o: NodeId)
    requires forall k, o :: VersionIn(vv, k, o) == DigestVersion(n, dead, k, o)
    requires ListsVersions(items, vv) && |items| <= MAX_PEER_STREAMS && ValidStreamKey(k)
    requires ValidPeers(n.peers) && Published(n, k) > 0.0
    requires |KnownOrigins(n.peers, k)| == MAX_ORIGINS_PER_STREAM && n.id !in KnownOrigins(n.peers, k) && KnownOrigins(n.peers, k) !! dead
    ensures DigestVersion(n, dead, k, o) > 0.0 && VersionIn(KeptStreams(items), k, o) == 0.0
  {
    hide Kept, KeptStreams, ListsRow, ValidStreamKey, DigestVersion, KnownOrigins, ValidPeers, Published;
    KeptStreamsAre(items, k);
    var listed := KnownOrigins(n.peers, k) + {n.id};
    forall p | p in listed ensures DigestVersion(n, dead, k, p) > 0.0 { HeldIsListed(n, dead, k, p); }
    var read := if k in KeptStreams(items) then KeptStreams(items)[k].Keys else {};
    assert |read| <= MAX_ORIGINS_PER_STREAM;
    if listed <= read {
      SubsetCardinality(listed, read);
      assert false;
    }
    o :| o in listed && o !in read;
  }

  lemma HeldIsListed(n: Node, dead: set<NodeId>, k: StreamKey, o: NodeId)
    requires ValidPeers(n.peers) && Published(n, k) > 0.0 && KnownOrigins(n.peers, k) !! dead
    requires o in KnownOrigins(n.peers, k) + {n.id}
    ensures DigestVersion(n, dead, k, o) > 0.0
  {
  }
}
