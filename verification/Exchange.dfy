/** One anti-entropy exchange between two nodes: a digest of everything the first knows, a
    reply with what the second has newer and a list of what it wants, and a sync with the
    answers. */
module Exchange {
  import opened Prelude
  import opened StreamLogs
  import opened PeerStore
  import opened Mesh

  /** The version a node's digest carries for an origin's stream, 0 when it carries none.
      Snapshots of origins it holds for dead are left out; tombstones are not. */
  function DigestVersion(n: Node, dead: set<NodeId>, k: StreamKey, o: NodeId): real {
    if o == n.id then Published(n, k)
    else Max(if o in dead then 0.0 else SnapshotVersion(n.peers, k, o), TombstoneVersion(n.peers, k, o))
  }

  /** What the receiver of a digest asks for. */
  predicate Wants(b: Node, seen: (StreamKey, NodeId) -> real, k: StreamKey, o: NodeId) {
    o != b.id && seen(k, o) > Known(b.peers, k, o)
  }

  /** What the receiver of a digest sends back. */
  predicate Offers(b: Node, seen: (StreamKey, NodeId) -> real, f: Fact) {
    f.entry == Answer(b, f.stream, f.origin) && f.entry.version > seen(f.stream, f.origin)
  }

  function ReceiveAll(n: Node, fs: seq<Fact>): Node {
    if fs == [] then n else Receive(ReceiveAll(n, fs[..|fs| - 1]), fs[|fs| - 1])
  }

  /** The facts a node acts on among those it receives. */
  function Accepted(n: Node, fs: seq<Fact>): seq<Fact> {
    if fs == [] then []
    else
      var front, last := Accepted(n, fs[..|fs| - 1]), fs[|fs| - 1];
      if Acceptable(n, last) then front + [last] else front
  }

  lemma {:induction false} ReceivingInstalls(n: Node, fs: seq<Fact>)
    ensures ReceiveAll(n, fs) == n.(peers := InstallAll(n.peers, Accepted(n, fs)))
  {
    hide Install;
    if fs != [] {
      var front, last := fs[..|fs| - 1], fs[|fs| - 1];
      ReceivingInstalls(n, front);
      if Acceptable(n, last) {
        assert (Accepted(n, front) + [last])[..|Accepted(n, front)|] == Accepted(n, front);
      }
    }
  }

  lemma {:induction false} AcceptedKeeps(n: Node, fs: seq<Fact>, f: Fact)
    ensures f in Accepted(n, fs) <==> f in fs && Acceptable(n, f)
  {
    hide Acceptable;
    if fs != [] {
      var front, last := fs[..|fs| - 1], fs[|fs| - 1];
      AcceptedKeeps(n, front, f);
      assert fs == front + [last];
    }
  }

  /** A complete exchange from a to b: b sees the whole digest and sends every offer, a
      answers every request after taking the offers in, and nothing is refused for lack
      of room. */
  ghost predicate Exchanged(a: Node, dead: set<NodeId>, b: Node, offers: seq<Fact>, answers: seq<Fact>, a': Node, b': Node) {
    var seen := (k, o) => DigestVersion(a, dead, k, o);
    && (forall f :: f in offers <==> Offers(b, seen, f))
    && a' == ReceiveAll(a, offers) && Room(a.peers, Accepted(a, offers))
    && (forall f :: f in answers <==> Wants(b, seen, f.stream, f.origin) && f.entry == Answer(a', f.stream, f.origin))
    && b' == ReceiveAll(b, answers) && Room(b.peers, Accepted(b, answers))
  }

  /** A node told one entry about an origin's stream holds it afterwards if it is newer;
      otherwise, and when told nothing, it holds what it held. */
  lemma {:induction false} ReceivesExactly(n: Node, fs: seq<Fact>, k: StreamKey, o: NodeId, e: Entry)
    requires ValidPeers(n.peers) && Room(n.peers, Accepted(n, fs)) && PositiveVersions(Accepted(n, fs))
    requires o != n.id && ValidStreamKey(k) && ValidName(o)
    requires forall f | f in fs && f.stream == k && f.origin == o :: f.entry == e
    ensures ValidPeers(ReceiveAll(n, fs).peers)
    ensures EntryAt(ReceiveAll(n, fs).peers, k, o)
         == if Fact(k, o, e) in fs && e.version > Known(n.peers, k, o) then Some(e) else EntryAt(n.peers, k, o)
  {
    hide InstallAll, EntryAt, Known, ValidPeers, Room, Accepted;
    ReceivingInstalls(n, fs);
    HoldsNewest(n.peers, Accepted(n, fs), k, o);
    KnownIsEntryVersion(n.peers, k, o);
    AcceptedKeeps(n, fs, Fact(k, o, e));
    forall f | f in Accepted(n, fs) && f.stream == k && f.origin == o ensures f.entry == e { AcceptedKeeps(n, fs, f); }
    var r := EntryAt(InstallAll(n.peers, Accepted(n, fs)), k, o);
    if r.Some? && EntryAt(n.peers, k, o) != r {
      AcceptedKeeps(n, fs, Fact(k, o, r.value));
    }
  }

  /** Two different nodes of a reachable state. */
  ghost predicate Partners(s: State, a: NodeId, b: NodeId) { Inv(s) && a in s.nodes && b in s.nodes && a != b }

  /** a holds a snapshot of the origin but takes the origin for dead. */
  predicate Withheld(a: Node, dead: set<NodeId>, k: StreamKey, o: NodeId) { o in dead && Has(a.peers.snapshots, k, o) }

  lemma SeenIsKnown(s: State, a: NodeId, dead: set<NodeId>, b: NodeId, k: StreamKey, o: NodeId)
    requires Partners(s, a, b)
    ensures o != a && !Withheld(s.nodes[a], dead, k, o) ==>
      DigestVersion(s.nodes[a], dead, k, o) == Known(s.nodes[a].peers, k, o)
    ensures o != a && Withheld(s.nodes[a], dead, k, o) ==> DigestVersion(s.nodes[a], dead, k, o) == 0.0
    ensures DigestVersion(s.nodes[a], dead, k, o) >= 0.0
  {
    AnswerVersion(s.nodes[a], k);
  }

  lemma {:induction false} OffersArePositive(s: State, a: NodeId, dead: set<NodeId>, b: NodeId, offers: seq<Fact>,
    answers: seq<Fact>, a': Node, b': Node)
    requires Partners(s, a, b) && Exchanged(s.nodes[a], dead, s.nodes[b], offers, answers, a', b')
    ensures PositiveVersions(Accepted(s.nodes[a], offers))
  {
    hide DigestVersion, Accepted, Room, ReceiveAll, Inv;
    forall f | f in Accepted(s.nodes[a], offers) ensures f.entry.version > 0.0 {
      AcceptedKeeps(s.nodes[a], offers, f);
      SeenIsKnown(s, a, dead, b, f.stream, f.origin);
    }
  }

  /** What a holds about any origin but itself once the reply is taken in. */
  lemma {:induction false} AfterReply(s: State, a: NodeId, dead: set<NodeId>, b: NodeId, offers: seq<Fact>,
    answers: seq<Fact>, a': Node, b': Node,
    k: StreamKey, o: NodeId)
    requires Partners(s, a, b) && Exchanged(s.nodes[a], dead, s.nodes[b], offers, answers, a', b')
    requires ValidStreamKey(k) && ValidName(o) && o != a
    ensures ValidPeers(a'.peers)
    ensures var theirs := Answer(s.nodes[b], k, o);
      EntryAt(a'.peers, k, o)
      == if theirs.version > Known(s.nodes[a].peers, k, o) then Some(theirs) else EntryAt(s.nodes[a].peers, k, o)
  {
    hide DigestVersion, Accepted, Room, ReceiveAll, Answer, EntryAt, Known, ValidPeers, OwnIsPublished, HistoryIsCoherent;
    OffersArePositive(s, a, dead, b, offers, answers, a', b');
    SeenIsKnown(s, a, dead, b, k, o);
    var theirs := Answer(s.nodes[b], k, o);
    assert Fact(k, o, theirs) in offers <==> theirs.version > DigestVersion(s.nodes[a], dead, k, o);
    KnownIsEntryVersion(s.nodes[a].peers, k, o);
    ReceivesExactly(s.nodes[a], offers, k, o, theirs);
  }

  /** Taking the reply in never loses a version, so a answers at least what its digest
      promised. */
  lemma {:induction false} AnswersKeepPromises(s: State, a: NodeId, dead: set<NodeId>, b: NodeId, offers: seq<Fact>,
    answers: seq<Fact>, a': Node, b': Node,
    k: StreamKey, o: NodeId)
    requires Partners(s, a, b) && Exchanged(s.nodes[a], dead, s.nodes[b], offers, answers, a', b')
    ensures a'.id == a && Answer(a', k, a) == Answer(s.nodes[a], k, a)
    ensures Answer(a', k, o).version >= DigestVersion(s.nodes[a], dead, k, o)
  {
    hide DigestVersion, Accepted, Room, InstallAll, EntryAt, Known, ValidPeers, HistoryIsCoherent;
    OffersArePositive(s, a, dead, b, offers, answers, a', b');
    ReceivingInstalls(s.nodes[a], offers);
    SeenIsKnown(s, a, dead, b, k, o);
    HoldsNewest(s.nodes[a].peers, Accepted(s.nodes[a], offers), k, o);
    if o == a {
      AnswerVersion(s.nodes[a], k);
      assert DigestVersion(s.nodes[a], dead, k, a) == Published(s.nodes[a], k) by { OwnDigest(s.nodes[a], dead, k); }
    } else {
      KnownIsEntryVersion(s.nodes[a].peers, k, o);
      KnownIsEntryVersion(a'.peers, k, o);
      AnswerAboutPeer(a', k, o);
    }
  }

  lemma OwnDigest(n: Node, dead: set<NodeId>, k: StreamKey)
    ensures DigestVersion(n, dead, k, n.id) == Published(n, k)
  {
  }

  lemma {:induction false} AnswersArePositive(s: State, a: NodeId, dead: set<NodeId>, b: NodeId, offers: seq<Fact>,
    answers: seq<Fact>, a': Node, b': Node)
    requires Partners(s, a, b) && Exchanged(s.nodes[a], dead, s.nodes[b], offers, answers, a', b')
    ensures PositiveVersions(Accepted(s.nodes[b], answers))
  {
    hide DigestVersion, Accepted, Room, ReceiveAll, Answer, EntryAt, Known, ValidPeers, OwnIsPublished, HistoryIsCoherent;
    forall f | f in Accepted(s.nodes[b], answers) ensures f.entry.version > 0.0 {
      AcceptedKeeps(s.nodes[b], answers, f);
      AnswersKeepPromises(s, a, dead, b, offers, answers, a', b', f.stream, f.origin);
      KnownIsEntryVersion(s.nodes[b].peers, f.stream, f.origin);
    }
  }

  /** What b holds about any origin but itself once the sync is taken in. */
  lemma {:induction false} AfterSync(s: State, a: NodeId, dead: set<NodeId>, b: NodeId, offers: seq<Fact>,
    answers: seq<Fact>, a': Node, b': Node,
    k: StreamKey, o: NodeId)
    requires Partners(s, a, b) && Exchanged(s.nodes[a], dead, s.nodes[b], offers, answers, a', b')
    requires ValidStreamKey(k) && ValidName(o) && o != b
    ensures ValidPeers(b'.peers)
    ensures EntryAt(b'.peers, k, o)
      == if DigestVersion(s.nodes[a], dead, k, o) > Known(s.nodes[b].peers, k, o) then Some(Answer(a', k, o))
         else EntryAt(s.nodes[b].peers, k, o)
  {
    hide DigestVersion, Accepted, Room, ReceiveAll, Answer, EntryAt, Known, ValidPeers, OwnIsPublished, HistoryIsCoherent;
    var bn := s.nodes[b];
    AnswersArePositive(s, a, dead, b, offers, answers, a', b');
    KnownIsEntryVersion(bn.peers, k, o);
    AnswersKeepPromises(s, a, dead, b, offers, answers, a', b', k, o);
    assert Fact(k, o, Answer(a', k, o)) in answers <==> DigestVersion(s.nodes[a], dead, k, o) > Known(bn.peers, k, o);
    ReceivesExactly(bn, answers, k, o, Answer(a', k, o));
  }

  /** Entries two nodes of a reachable state hold at one version are the same entry. */
  lemma SameVersionSameEntry(s: State, a: NodeId, b: NodeId, k: StreamKey, o: NodeId)
    requires Inv(s) && a in s.nodes && b in s.nodes && a != o && b != o
    requires Known(s.nodes[a].peers, k, o) == Known(s.nodes[b].peers, k, o)
    ensures EntryAt(s.nodes[a].peers, k, o) == EntryAt(s.nodes[b].peers, k, o)
  {
    hide EntryAt, Known, ValidPeers, OwnIsPublished;
    KnownIsEntryVersion(s.nodes[a].peers, k, o);
    KnownIsEntryVersion(s.nodes[b].peers, k, o);
    var x, y := EntryAt(s.nodes[a].peers, k, o), EntryAt(s.nodes[b].peers, k, o);
    if x.Some? && y.Some? { assert Fact(k, o, x.value) == Fact(k, o, y.value); }
  }

  /** A complete exchange leaves both nodes with the newer of their two entries for a third
      party exactly when the first node's digest did not withhold a newer snapshot of an
      origin it takes for dead. */
  lemma {:induction false} ExchangeAgreesOnThirdParties(s: State, a: NodeId, dead: set<NodeId>, b: NodeId,
    offers: seq<Fact>, answers: seq<Fact>,
    a': Node, b': Node, k: StreamKey, o: NodeId)
    requires Partners(s, a, b) && Exchanged(s.nodes[a], dead, s.nodes[b], offers, answers, a', b')
    requires ValidStreamKey(k) && ValidName(o) && o != a && o != b
    ensures Known(a'.peers, k, o) == Max(Known(s.nodes[a].peers, k, o), Known(s.nodes[b].peers, k, o))
    ensures EntryAt(a'.peers, k, o) == EntryAt(b'.peers, k, o) <==>
      !Withheld(s.nodes[a], dead, k, o) || Known(s.nodes[a].peers, k, o) <= Known(s.nodes[b].peers, k, o)
  {
    hide Exchanged, EntryAt, Known, ValidPeers, OwnIsPublished, HistoryIsCoherent, Answer, DigestVersion, Withheld;
    AfterReply(s, a, dead, b, offers, answers, a', b', k, o);
    AfterSync(s, a, dead, b, offers, answers, a', b', k, o);
    AnswersKeepPromises(s, a, dead, b, offers, answers, a', b', k, o);
    SeenIsKnown(s, a, dead, b, k, o);
    AnswerAboutPeer(s.nodes[b], k, o);
    AnswerAboutPeer(a', k, o);
    KnownIsEntryVersion(s.nodes[a].peers, k, o);
    KnownIsEntryVersion(s.nodes[b].peers, k, o);
    KnownIsEntryVersion(a'.peers, k, o);
    KnownIsEntryVersion(b'.peers, k, o);
    if Known(s.nodes[a].peers, k, o) == Known(s.nodes[b].peers, k, o) { SameVersionSameEntry(s, a, b, k, o); }
  }

  /** What a node holds of an origin that has published is at most that origin's state, and
      at the same version it is that state. */
  lemma HeldIsAtMostPublished(s: State, n: NodeId, k: StreamKey, o: NodeId)
    requires Inv(s) && n in s.nodes && o in s.nodes && n != o
    ensures Known(s.nodes[n].peers, k, o) <= Published(s.nodes[o], k)
    ensures Known(s.nodes[n].peers, k, o) == Published(s.nodes[o], k) > 0.0 ==>
      EntryAt(s.nodes[n].peers, k, o) == Some(Answer(s.nodes[o], k, o))
  {
    hide EntryAt, Known, ValidPeers, Answer, Published;
    KnownIsEntryVersion(s.nodes[n].peers, k, o);
    AnswerVersion(s.nodes[o], k);
    var x := EntryAt(s.nodes[n].peers, k, o);
    if x.Some? {
      assert Fact(k, o, x.value) in s.history;
      if x.value.version == Published(s.nodes[o], k) {
        assert Fact(k, o, x.value) == Fact(k, o, Answer(s.nodes[o], k, o));
      }
    }
  }

  /** ... and each of them holds the other's current state, snapshot or tombstone, of
      every stream the other published. */
  lemma {:induction false} ExchangeSharesOwnState(s: State, a: NodeId, dead: set<NodeId>, b: NodeId, offers: seq<Fact>, answers: seq<Fact>,
    a': Node, b': Node, k: StreamKey)
    requires Partners(s, a, b) && Exchanged(s.nodes[a], dead, s.nodes[b], offers, answers, a', b')
    requires ValidStreamKey(k) && ValidName(a) && ValidName(b)
    ensures EntryAt(a'.peers, k, b) == if Published(s.nodes[b], k) > 0.0 then Some(Answer(s.nodes[b], k, b)) else None
    ensures EntryAt(b'.peers, k, a) == if Published(s.nodes[a], k) > 0.0 then Some(Answer(s.nodes[a], k, a)) else None
  {
    hide Exchanged, EntryAt, Known, ValidPeers, HistoryIsCoherent, Answer, Published;
    AfterReply(s, a, dead, b, offers, answers, a', b', k, b);
    AfterSync(s, a, dead, b, offers, answers, a', b', k, a);
    AnswersKeepPromises(s, a, dead, b, offers, answers, a', b', k, a);
    OwnDigest(s.nodes[a], dead, k);
    AnswerVersion(s.nodes[a], k);
    AnswerVersion(s.nodes[b], k);
    HeldIsAtMostPublished(s, a, k, b);
    HeldIsAtMostPublished(s, b, k, a);
    KnownIsEntryVersion(s.nodes[a].peers, k, b);
    KnownIsEntryVersion(s.nodes[b].peers, k, a);
  }

  // ----- an example of a withheld snapshot -----

  function Origin(k: StreamKey, log: Log, version: real): Node { Node("x", map[k := Versioned(log, version)], map[], NoPeers()) }

  function Holder(k: StreamKey, log: Log, version: real): Node {
    Node("a", map[], map[], Peers(map[k := map["x" := Versioned(log, version)]], map[]))
  }

  function Blank(): Node { Node("b", map[], map[], NoPeers()) }

  function Example(k: StreamKey, log: Log, version: real): State {
    State(map["x" := Origin(k, log, version), "a" := Holder(k, log, version), "b" := Blank()], {},
          {Fact(k, "x", Snapshot(log, version))})
  }

  /** a holds the state of an origin it takes for dead, b holds nothing of it, and a complete
      exchange moves nothing. */
  lemma {:induction false} WithheldStaysBehind(k: StreamKey, log: Log, version: real)
    requires ValidStreamKey(k) && version > 0.0
    ensures var a, b := Holder(k, log, version), Blank();
      && Partners(Example(k, log, version), "a", "b") && Withheld(a, {"x"}, k, "x") && Exchanged(a, {"x"}, b, [], [], a, b)
      && EntryAt(a.peers, k, "x") == Some(Snapshot(log, version)) && EntryAt(b.peers, k, "x").None?
  {
    hide ValidStreamKey, Exchanged, Inv;
    NamesDiffer();
    HoldsOnlyOne(k, log, version);
    ExampleInv(k, log, version);
    NothingMoves(k, log, version);
  }

  lemma NamesDiffer()
    ensures "x" != "a" && "a" != "b" && "x" != "b"
  {
    assert "x"[0] != "a"[0] && "a"[0] != "b"[0] && "x"[0] != "b"[0];
  }

  lemma NothingListed(k: StreamKey, log: Log, version: real, k': StreamKey, o: NodeId)
    requires version > 0.0
    ensures DigestVersion(Holder(k, log, version), {"x"}, k', o) == 0.0 && Answer(Blank(), k', o).version == 0.0
    ensures Known(Blank().peers, k', o) == 0.0
  {
  }

  lemma NothingMoves(k: StreamKey, log: Log, version: real)
    requires version > 0.0
    ensures Exchanged(Holder(k, log, version), {"x"}, Blank(), [], [], Holder(k, log, version), Blank())
  {
    hide DigestVersion, Answer, Known, Room, Holder, Blank;
    var a, b := Holder(k, log, version), Blank();
    var seen := (k', o) => DigestVersion(a, {"x"}, k', o);
    forall f ensures !Offers(b, seen, f) && !Wants(b, seen, f.stream, f.origin) {
      NothingListed(k, log, version, f.stream, f.origin);
    }
    assert Accepted(a, []) == [] && Accepted(b, []) == [];
    RoomForNone(k, log, version);
  }

  lemma RoomForNone(k: StreamKey, log: Log, version: real)
    ensures Room(Holder(k, log, version).peers, []) && Room(Blank().peers, [])
  {
    hide KnownStreams, KnownOrigins, StreamsIn, OriginsIn;
    var ps := Holder(k, log, version).peers;
    OnlyOneKnown(k, log, version, k);
    forall k'
      ensures |KnownOrigins(ps, k') + OriginsIn([], k')| <= 1 && KnownOrigins(NoPeers(), k') + OriginsIn([], k') == {}
    {
      OnlyOneKnown(k, log, version, k');
    }
  }

  lemma OnlyOneKnown(k: StreamKey, log: Log, version: real, k': StreamKey)
    ensures var ps := Holder(k, log, version).peers;
      && KnownStreams(ps) + StreamsIn([]) == {k} && KnownStreams(NoPeers()) + StreamsIn([]) == {}
      && KnownOrigins(ps, k') + OriginsIn([], k') == (if k' == k then {"x"} else {})
      && KnownOrigins(NoPeers(), k') + OriginsIn([], k') == {}
  {
  }

  lemma HoldsOnlyOne(k: StreamKey, log: Log, version: real)
    requires version > 0.0
    ensures var ps := Holder(k, log, version).peers;
      && ValidPeers(ps) && ValidPeers(NoPeers())
      && (forall k', o :: EntryAt(ps, k', o) == if k' == k && o == "x" then Some(Snapshot(log, version)) else None)
      && (forall k', o :: EntryAt(NoPeers(), k', o).None?)
  {
  }

  lemma ExampleInv(k: StreamKey, log: Log, version: real)
    requires ValidStreamKey(k) && version > 0.0
    ensures Inv(Example(k, log, version))
  {
    hide ValidStreamKey, EntryAt, ValidPeers;
    NamesDiffer();
    HoldsOnlyOne(k, log, version);
    assert ValidName("x");
  }
}
