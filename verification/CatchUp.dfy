/** Consecutive bounded rounds of one node with another: however little one digest, one reply
    and one payload carry, the partner catches up on every stream that fits a digest alone. */
module CatchUps {
  import opened Prelude
  import opened PeerStore
  import opened Mesh
  import opened Exchange
  import opened Digests
  import opened BoundedDigests
  import opened Learning
  import GB = GossipBudget
  import Json
  import opened ClusterManagers
  import GR = GossipRounds

  /** What stays the same over the rounds one node starts with another: whom it takes for
      dead, the payload limit, how versions and entries are spelled out, and the order in
      which it lists what it knows. */
  datatype Link = Link(dead: set<NodeId>, max: nat, spell: Spelling, write: Writer, order: Node -> seq<DigestItem>)

  ghost predicate IsOneRound(c: Link, a: Node, b: Node, r: GR.Round, a': Node, b': Node) {
    GR.IsRound(a, c.dead, b, c.max, c.spell, c.write, r, a', b') && r.listing == c.order(a)
  }

  /** Consecutive rounds from a to b; each digest goes on where the one before stopped. */
  ghost predicate IsRounds(c: Link, xs: seq<Node>, ys: seq<Node>, rs: seq<GR.Round>) {
    && |xs| == |ys| == |rs| + 1
    && (forall i | 0 <= i < |rs| :: IsOneRound(c, xs[i], ys[i], rs[i], xs[i + 1], ys[i + 1]))
    && forall i | 0 < i < |rs| :: rs[i].cursor == rs[i - 1].next
  }

  // ----- what must fit -----

  function StreamsOf(ws: seq<Want>, self: NodeId): set<StreamKey> { set w | w in ws && w.origin != self :: w.stream }

  function OriginsOf(ws: seq<Want>, self: NodeId, k: StreamKey): set<NodeId> { set w | w in ws && w.origin != self && w.stream == k :: w.origin }

  /** A digest of a node that learns about some streams lists no more than a receiver reads. */
  ghost predicate StaysSmall(a: Node, ws: seq<Want>, n: nat) {
    && |ListedStreams(a) + StreamsOf(ws, a.id)| <= n <= MAX_PEER_STREAMS
    && forall k :: |ListedOrigins(a, {}, k) + OriginsOf(ws, a.id, k)| <= MAX_ORIGINS_PER_STREAM
  }

  /** A node has room for some streams beside what it knows. */
  ghost predicate RoomFor(b: Node, ws: seq<Want>) {
    && |KnownStreams(b.peers) + StreamsOf(ws, b.id)| <= MAX_PEER_STREAMS
    && forall k :: |KnownOrigins(b.peers, k) + OriginsOf(ws, b.id, k)| <= MAX_ORIGINS_PER_STREAM
  }

  /** Any one of these can be asked for and sent on its own. */
  ghost predicate EachFits(c: Link, a: Node, b: Node, ws: seq<Want>) {
    forall w | w in ws ::
      && ReplySize(b.id, c.write, [], [w]) <= c.max / 4
      && AnswerFits(c, a.id, w, Answer(a, w.stream, w.origin)) && AnswerFits(c, a.id, w, Answer(b, w.stream, w.origin))
  }

  ghost predicate AnswerFits(c: Link, sender: NodeId, w: Want, e: Entry) {
    GB.SyncFitsAlone(sender, c.max, GR.UpdateFor(c.write, Fact(w.stream, w.origin, e)))
  }

  /** What two nodes and the limit must be like for the second to catch up with the first:
      an empty digest fits; whatever they differ in can be asked for and sent one by one; it
      is never more than a receiver reads or has room for. */
  ghost predicate CanCatchUp(c: Link, a: Node, b: Node, ws: seq<Want>, n: nat) {
    && a.id != b.id && GR.SoundNode(a) && GR.SoundNode(b) && GR.CleanNode(a) && GB.EmptyDigestSize(a.id) <= c.max
    && AllApart(a, b, ws) && EachFits(c, a, b, ws) && StaysSmall(a, ws, n) && RoomFor(b, ws)
  }

  // ----- what a round keeps -----

  lemma {:induction false} KnownOnlyGrows(ps: Peers, fs: seq<Fact>, k: StreamKey, o: NodeId)
    requires ValidPeers(ps)
    ensures ValidPeers(InstallAll(ps, fs)) && Known(ps, k, o) <= Known(InstallAll(ps, fs), k, o)
  {
    hide Install, Known, ValidPeers;
    if fs != [] {
      var last := fs[|fs| - 1];
      KnownOnlyGrows(ps, fs[..|fs| - 1], k, o);
      InstallKeepsValid(InstallAll(ps, fs[..|fs| - 1]), last.stream, last.origin, last.entry);
      InstallIsMonotone(InstallAll(ps, fs[..|fs| - 1]), last.stream, last.origin, last.entry, k, o);
    }
  }

  /** Every fact that is news to a node is about one of these. */
  ghost predicate NewsIn(ps: Peers, fs: seq<Fact>, ws: seq<Want>, self: NodeId) {
    forall f | f in fs && f.entry.version > Known(ps, f.stream, f.origin) :: Want(f.stream, f.origin) in ws && f.origin != self
  }

  /** A node comes to hold streams and origins only through news. */
  lemma {:induction false} OnlyNewsAdds(ps: Peers, fs: seq<Fact>, ws: seq<Want>, self: NodeId, k: StreamKey)
    requires ValidPeers(ps) && NewsIn(ps, fs, ws, self)
    ensures KnownStreams(InstallAll(ps, fs)) <= KnownStreams(ps) + StreamsOf(ws, self)
    ensures KnownOrigins(InstallAll(ps, fs), k) <= KnownOrigins(ps, k) + OriginsOf(ws, self, k)
  {
    hide Install, Known, ValidPeers, KnownStreams, KnownOrigins, Admits;
    if fs != [] {
      var front, last := fs[..|fs| - 1], fs[|fs| - 1];
      assert last in fs && forall f | f in front :: f in fs;
      OnlyNewsAdds(ps, front, ws, self, k);
      var now := InstallAll(ps, front);
      KnownOnlyGrows(ps, front, last.stream, last.origin);
      InstallAddsAtMostOne(now, last.stream, last.origin, last.entry, k);
      if Accepts(now, last.stream, last.origin, last.entry) {
        assert Want(last.stream, last.origin) in ws;
      } else {
        NotAccepted(now, last);
      }
    }
  }

  lemma NotAccepted(ps: Peers, f: Fact)
    requires !Accepts(ps, f.stream, f.origin, f.entry)
    ensures Install(ps, f.stream, f.origin, f.entry) == ps
  {
  }

  /** Answers of another node are news only where the two are apart. */
  lemma {:induction false} AnswersAreNewsIn(x: Node, y: Node, fs: seq<Fact>, ws: seq<Want>)
    requires GR.SoundNode(x) && AnswersAll(y, fs) && AllApart(x, y, ws)
    ensures NewsIn(x.peers, Accepted(x, fs), ws, x.id)
  {
    hide Answer, Known, ValidPeers, PositiveOwn, EntryAt, PairsOnly, ValidStreamKey, ValidName, Accepted;
    forall f | f in Accepted(x, fs) && f.entry.version > Known(x.peers, f.stream, f.origin)
      ensures Want(f.stream, f.origin) in ws && f.origin != x.id
    {
      AcceptedKeeps(x, fs, f);
      AnswerAboutPeer(x, f.stream, f.origin);
    }
  }

  lemma {:induction false} ReceivingKeepsSound(x: Node, fs: seq<Fact>)
    requires GR.SoundNode(x)
    ensures GR.SoundNode(ReceiveAll(x, fs)) && ReceiveAll(x, fs).id == x.id
  {
    hide InstallAll, Accepted, ValidPeers, PositiveOwn, EntryAt, ListedStreams;
    ReceivingInstalls(x, fs);
    assert forall k | k in KnownStreams(x.peers) :: k.Pair? by { GR.PeerKeysArePairs(x); }
    GR.ReceivingIsSound(x, fs);
    GR.OwnStateKept(x, InstallAll(x.peers, Accepted(x, fs)));
  }

  lemma {:induction false} ReceivingKeepsClean(x: Node, fs: seq<Fact>)
    requires GR.CleanNode(x)
    ensures GR.CleanNode(ReceiveAll(x, fs))
  {
    hide InstallAll, Accepted, ValidStreamKey, ValidName, EntryAt;
    ReceivingInstalls(x, fs);
    var ps := InstallAll(x.peers, Accepted(x, fs));
    forall k, o | EntryAt(ps, k, o).Some? ensures ValidStreamKey(k) && ValidName(o) {
      if !(exists f :: f in Accepted(x, fs) && f.stream == k && f.origin == o) {
        GR.NotToldStays(x.peers, Accepted(x, fs), k, o);
      } else {
        var f :| f in Accepted(x, fs) && f.stream == k && f.origin == o;
        AcceptedKeeps(x, fs, f);
      }
    }
  }

  /** What a node lists and knows, together with what it may learn, does not grow. */
  lemma {:induction false} NothingBeyond(x: Node, y: Node, fs: seq<Fact>, ws: seq<Want>, k: StreamKey)
    requires GR.SoundNode(x) && AnswersAll(y, fs) && AllApart(x, y, ws)
    ensures var x' := ReceiveAll(x, fs);
      && x'.id == x.id
      && ListedStreams(x') + StreamsOf(ws, x.id) <= ListedStreams(x) + StreamsOf(ws, x.id)
      && KnownStreams(x'.peers) + StreamsOf(ws, x.id) <= KnownStreams(x.peers) + StreamsOf(ws, x.id)
      && ListedOrigins(x', {}, k) + OriginsOf(ws, x.id, k) <= ListedOrigins(x, {}, k) + OriginsOf(ws, x.id, k)
      && KnownOrigins(x'.peers, k) + OriginsOf(ws, x.id, k) <= KnownOrigins(x.peers, k) + OriginsOf(ws, x.id, k)
  {
    hide InstallAll, Accepted, AnswersAll, AllApart, StreamsOf, OriginsOf, NewsIn, ValidPeers, PositiveOwn, PairsOnly, EntryAt;
    ReceivingInstalls(x, fs);
    AnswersAreNewsIn(x, y, fs, ws);
    OnlyNewsAdds(x.peers, Accepted(x, fs), ws, x.id, k);
  }

  lemma {:induction false} StaysSmallStill(x: Node, y: Node, fs: seq<Fact>, ws: seq<Want>, n: nat)
    requires GR.SoundNode(x) && AnswersAll(y, fs) && AllApart(x, y, ws) && StaysSmall(x, ws, n)
    ensures StaysSmall(ReceiveAll(x, fs), ws, n)
  {
    hide GR.SoundNode, AnswersAll, AllApart, ListedStreams, ListedOrigins, StreamsOf, OriginsOf;
    var x' := ReceiveAll(x, fs);
    NothingBeyond(x, y, fs, ws, Other(""));
    SubsetCardinality(ListedStreams(x') + StreamsOf(ws, x.id), ListedStreams(x) + StreamsOf(ws, x.id));
    forall k ensures |ListedOrigins(x', {}, k) + OriginsOf(ws, x.id, k)| <= MAX_ORIGINS_PER_STREAM {
      NothingBeyond(x, y, fs, ws, k);
      SubsetCardinality(ListedOrigins(x', {}, k) + OriginsOf(ws, x.id, k), ListedOrigins(x, {}, k) + OriginsOf(ws, x.id, k));
    }
  }

  lemma {:induction false} RoomStill(x: Node, y: Node, fs: seq<Fact>, ws: seq<Want>)
    requires GR.SoundNode(x) && AnswersAll(y, fs) && AllApart(x, y, ws) && RoomFor(x, ws)
    ensures RoomFor(ReceiveAll(x, fs), ws)
  {
    hide GR.SoundNode, AnswersAll, AllApart, KnownStreams, KnownOrigins, StreamsOf, OriginsOf;
    var x' := ReceiveAll(x, fs);
    NothingBeyond(x, y, fs, ws, Other(""));
    SubsetCardinality(KnownStreams(x'.peers) + StreamsOf(ws, x.id), KnownStreams(x.peers) + StreamsOf(ws, x.id));
    forall k ensures |KnownOrigins(x'.peers, k) + OriginsOf(ws, x.id, k)| <= MAX_ORIGINS_PER_STREAM {
      NothingBeyond(x, y, fs, ws, k);
      SubsetCardinality(KnownOrigins(x'.peers, k) + OriginsOf(ws, x.id, k), KnownOrigins(x.peers, k) + OriginsOf(ws, x.id, k));
    }
  }

  // ----- one round -----

  /** What the two sides of a round send each other are answers. */
  lemma RoundAnswers(c: Link, a: Node, b: Node, r: GR.Round, a': Node, b': Node)
    requires IsOneRound(c, a, b, r, a', b') && GR.Starts(a, c.max)
    ensures AnswersAll(b, r.offers) && a' == ReceiveAll(a, r.offers)
    ensures AnswersAll(a', r.answers) && b' == ReceiveAll(b, r.answers)
  {
    hide GR.IsDigest, GR.Starts, KeptStreams, Answer, Wants, RequestedOrTooMuch, CarriedOrTooMuch, Json.Size, GB.FlattenAll, ReceiveAll;
    hide GR.Fitting, AnswersTo, GR.UpdatesFor;
    GR.FittingIsPart(a.id, c.max, c.write, AnswersTo(a', r.wants));
    forall f | f in r.answers ensures f.entry == Answer(a', f.stream, f.origin) { GR.AnswersAre(a', r.wants, f); }
  }

  /** A round leaves the two able to go on, and apart on nothing new. */
  lemma {:induction false} RoundKeeps(c: Link, a: Node, b: Node, r: GR.Round, a': Node, b': Node, ws: seq<Want>, n: nat)
    requires CanCatchUp(c, a, b, ws, n) && IsOneRound(c, a, b, r, a', b')
    ensures CanCatchUp(c, a', b', ws, n) && Learns(a, b, a') && Learns(b, a', b')
    ensures Apart(a', b', ws) <= Apart(a, b, ws)
  {
    hide GR.IsDigest, GR.IsTraffic, GR.Starts, GR.SoundNode, GR.CleanNode, ReceiveAll, Answer, StaysSmall, RoomFor, AllApart, EachFits;
    hide GB.EmptyDigestSize, AnswersAll, Learns;
    if GR.Starts(a, c.max) {
      RoundAnswers(c, a, b, r, a', b');
      SoundIsValid(a);
      SoundIsValid(b);
      ReceivingLearns(a, b, r.offers);
      ReceivingLearns(b, a', r.answers);
      ReceivingKeepsSound(a, r.offers);
      ReceivingKeepsSound(b, r.answers);
      ReceivingKeepsClean(a, r.offers);
      StaysSmallStill(a, b, r.offers, ws, n);
      ApartOneWay(a, b, a', ws);
      RoomStill(b, a', r.answers, ws);
    } else {
      LearnsNothing(a, b);
      LearnsNothing(b, a);
    }
    LearningAgrees(a, b, a', b', ws);
    EachFitsStill(c, a, b, a', b', ws);
  }

  lemma SoundIsValid(n: Node)
    requires GR.SoundNode(n)
    ensures ValidPeers(n.peers)
  {
  }

  lemma LearnsNothing(x: Node, y: Node)
    ensures Learns(x, y, x)
  {
  }

  lemma {:induction false} ApartOneWay(a: Node, b: Node, a': Node, ws: seq<Want>)
    requires Learns(a, b, a') && AllApart(a, b, ws)
    ensures AllApart(b, a', ws)
  {
    hide Answer;
  }

  lemma {:induction false} EachFitsStill(c: Link, a: Node, b: Node, a': Node, b': Node, ws: seq<Want>)
    requires Learns(a, b, a') && Learns(b, a', b') && EachFits(c, a, b, ws)
    ensures EachFits(c, a', b', ws)
  {
    hide Answer, AnswerFits, ReplySize;
  }

  /** A round in which the initiator learns brings the two closer. */
  lemma {:induction false} LearningIsProgress(c: Link, a: Node, b: Node, r: GR.Round, a': Node, b': Node, ws: seq<Want>, n: nat)
    requires CanCatchUp(c, a, b, ws, n) && IsOneRound(c, a, b, r, a', b') && a' != a
    ensures |Apart(a', b', ws)| < |Apart(a, b, ws)|
  {
    hide GR.IsDigest, GR.IsTraffic, GR.Starts, GR.SoundNode, GR.CleanNode, ReceiveAll, Answer, StaysSmall, RoomFor, AllApart, EachFits;
    hide GB.EmptyDigestSize, AnswersAll, Learns, Apart;
    RoundKeeps(c, a, b, r, a', b', ws, n);
    RoundAnswers(c, a, b, r, a', b');
    SoundIsValid(a);
    var w := ChangeIsNews(a, b, r.offers);
    NewsAgrees(a, b, a', b', ws, w);
  }

  /** The first node's digests promise more of an origin's stream than the second knows. */
  ghost predicate Missing(c: Link, a: Node, b: Node, k: StreamKey, o: NodeId) {
    o != b.id && DigestVersion(a, c.dead, k, o) > Known(b.peers, k, o)
  }

  lemma {:induction false} MissingIsApart(c: Link, a: Node, b: Node, ws: seq<Want>, k: StreamKey, o: NodeId)
    requires GR.SoundNode(a) && GR.SoundNode(b) && AllApart(a, b, ws) && Missing(c, a, b, k, o)
    ensures Answer(a, k, o).version >= DigestVersion(a, c.dead, k, o) > Answer(b, k, o).version == Known(b.peers, k, o) >= 0.0
    ensures Want(k, o) in ws && Want(k, o) in Apart(a, b, ws) && k in ListedStreams(a)
  {
    hide PairsOnly, EntryAt;
    DigestAtMostAnswer(a, c.dead, k, o);
    AnswerAboutPeer(b, k, o);
    GR.UnlistedIsUnknown(a, c.dead, k, o);
  }

  lemma DigestAtMostAnswer(a: Node, dead: set<NodeId>, k: StreamKey, o: NodeId)
    requires ValidPeers(a.peers) && PositiveOwn(a)
    ensures Answer(a, k, o).version >= DigestVersion(a, dead, k, o)
  {
    if o == a.id { AnswerVersion(a, k); } else { AnswerAboutPeer(a, k, o); }
  }

  lemma {:induction false} SmallEnough(a: Node, dead: set<NodeId>, ws: seq<Want>, n: nat)
    requires StaysSmall(a, ws, n)
    ensures GR.SmallNode(a, dead)
  {
    hide ListedStreams, StreamsOf, OriginsOf;
    SubsetCardinality(ListedStreams(a), ListedStreams(a) + StreamsOf(ws, a.id));
    forall k ensures |ListedOrigins(a, dead, k)| <= MAX_ORIGINS_PER_STREAM {
      SubsetCardinality(ListedOrigins(a, dead, k), ListedOrigins(a, {}, k) + OriginsOf(ws, a.id, k));
    }
  }

  lemma {:induction false} FittingHas(nodeId: NodeId, max: nat, write: Writer, fs: seq<Fact>, f: Fact)
    requires f in fs && GB.SyncFitsAlone(nodeId, max, GR.UpdateFor(write, f))
    ensures f in GR.Fitting(nodeId, max, write, fs)
  {
    hide GB.SyncFitsAlone, GR.UpdateFor;
    var front, last := fs[..|fs| - 1], fs[|fs| - 1];
    assert fs == front + [last];
    if f != last { FittingHas(nodeId, max, write, front, f); }
  }

  /** There is room for facts about these. */
  lemma {:induction false} RoomForFacts(b: Node, ws: seq<Want>, fs: seq<Fact>)
    requires RoomFor(b, ws) && forall f | f in fs :: Want(f.stream, f.origin) in ws && f.origin != b.id
    ensures Room(b.peers, fs)
  {
    hide KnownStreams, KnownOrigins;
    forall k ensures OriginsIn(fs, k) <= OriginsOf(ws, b.id, k) {
      forall f | f in fs && f.stream == k ensures f.origin in OriginsOf(ws, b.id, k) { assert Want(f.stream, f.origin) in ws; }
    }
    forall f | f in fs ensures f.stream in StreamsOf(ws, b.id) { assert Want(f.stream, f.origin) in ws; }
    assert StreamsIn(fs) <= StreamsOf(ws, b.id);
    SubsetCardinality(KnownStreams(b.peers) + StreamsIn(fs), KnownStreams(b.peers) + StreamsOf(ws, b.id));
    forall k ensures |KnownOrigins(b.peers, k) + OriginsIn(fs, k)| <= MAX_ORIGINS_PER_STREAM {
      SubsetCardinality(KnownOrigins(b.peers, k) + OriginsIn(fs, k), KnownOrigins(b.peers, k) + OriginsOf(ws, b.id, k));
    }
  }

  /** Newer facts a node has room for are known to it afterwards. */
  lemma {:induction false} IsToldOf(b: Node, ws: seq<Want>, fs: seq<Fact>, f: Fact)
    requires GR.SoundNode(b) && RoomFor(b, ws) && f in fs && ValidStreamKey(f.stream) && ValidName(f.origin)
    requires forall g | g in fs :: Want(g.stream, g.origin) in ws && g.origin != b.id && g.entry.version > 0.0
    ensures Answer(ReceiveAll(b, fs), f.stream, f.origin).version >= f.entry.version
  {
    hide InstallAll, Accepted, EntryAt, Known, PositiveOwn, PairsOnly, ValidPeers, RoomFor, Room, ValidStreamKey, ValidName;
    var told := Accepted(b, fs);
    forall g | g in told ensures Want(g.stream, g.origin) in ws && g.origin != b.id && g.entry.version > 0.0 { AcceptedKeeps(b, fs, g); }
    AcceptedKeeps(b, fs, f);
    RoomForFacts(b, ws, told);
    ReceivingInstalls(b, fs);
    HoldsNewest(b.peers, told, f.stream, f.origin);
    AnswerAboutPeer(ReceiveAll(b, fs), f.stream, f.origin);
  }

  /** What the second node asks for, the two are apart on, and is among the answers. */
  lemma {:induction false} AskedIsAnswered(c: Link, a: Node, b: Node, r: GR.Round, a': Node, b': Node, ws: seq<Want>, n: nat, w: Want)
    requires CanCatchUp(c, a, b, ws, n) && IsOneRound(c, a, b, r, a', b') && GR.Starts(a, c.max) && w in r.wants
    ensures w in ws && w.origin != b.id && ValidStreamKey(w.stream) && ValidName(w.origin)
    ensures Answer(a', w.stream, w.origin).version >= Answer(a, w.stream, w.origin).version > Answer(b, w.stream, w.origin).version >= 0.0
    ensures Fact(w.stream, w.origin, Answer(a', w.stream, w.origin)) in r.answers
  {
    hide GR.Starts, GR.CleanNode, Answer, StaysSmall, RoomFor, AllApart, KeptStreams, ReceiveAll, AnswersTo, GR.Fitting, GR.UpdatesFor;
    hide GB.EmptyDigestSize, AnswersAll, Learns, GR.SoundNode, GR.IsDigest, ValidStreamKey, ValidName, DigestVersion, Known;
    hide GB.FlattenAll, Json.Size, GB.SyncFitsAlone, ReplySize, Listed, GB.IsUpdates;
    RoundKeeps(c, a, b, r, a', b', ws, n);
    SmallEnough(a, c.dead, ws, n);
    GR.DigestArrives(a, c.dead, c.max, c.spell, r);
    GR.RequestIsValid(b, r.items, c.max, c.write, r.wants, r.offers, w);
    assert Wants(b, SeenIn(KeptStreams(r.items)), w.stream, w.origin);
    AskedIsMissing(c, a, b, r, w.stream, w.origin);
    MissingIsApart(c, a, b, ws, w.stream, w.origin);
    LearnsMore(a, b, a', w.stream, w.origin);
    var f := Fact(w.stream, w.origin, Answer(a', w.stream, w.origin));
    GR.AnswersAre(a', r.wants, f);
    FittingHas(a.id, c.max, c.write, AnswersTo(a', r.wants), f);
  }

  /** The second node asks for what it misses of the streams in the digest. */
  lemma AskedIsMissing(c: Link, a: Node, b: Node, r: GR.Round, k: StreamKey, o: NodeId)
    requires GR.SoundNode(b) && SeenIn(KeptStreams(r.items))(k, o) == GR.SeenOf(a, c.dead, Listed(r.items))(k, o)
    ensures Wants(b, SeenIn(KeptStreams(r.items)), k, o) <==> k in Listed(r.items) && Missing(c, a, b, k, o)
  {
    hide KeptStreams, DigestVersion, Listed, EntryAt, PositiveOwn, PairsOnly;
    KnownIsEntryVersion(b.peers, k, o);
  }

  lemma LearnsMore(x: Node, y: Node, x': Node, k: StreamKey, o: NodeId)
    requires Learns(x, y, x')
    ensures Answer(x', k, o).version >= Answer(x, k, o).version
    ensures Answer(x', k, o) == Answer(x, k, o) || Answer(x', k, o) == Answer(y, k, o)
  {
    hide Answer;
  }

  /** A round whose digest carries a stream of which something is missing brings the two
      closer, whatever else it has to leave out. */
  lemma {:induction false} ListingIsProgress(c: Link, a: Node, b: Node, r: GR.Round, a': Node, b': Node,
    ws: seq<Want>, n: nat, k: StreamKey, o: NodeId)
    requires CanCatchUp(c, a, b, ws, n) && IsOneRound(c, a, b, r, a', b') && k in Listed(r.items) && Missing(c, a, b, k, o)
    ensures |Apart(a', b', ws)| < |Apart(a, b, ws)|
  {
    hide GR.CleanNode, Answer, StaysSmall, RoomFor, AllApart, KeptStreams, ReceiveAll, AnswersTo, GR.Fitting, GR.UpdatesFor, ListedStreams;
    hide AnswersAll, Learns, GR.SoundNode, GR.IsDigest, ValidStreamKey, ValidName, DigestVersion, Known, Wants, AnswerFits;
    hide GB.FlattenAll, Json.Size, GB.SyncFitsAlone, ReplySize, Listed, GB.IsUpdates, Missing, Apart, GB.EmptyDigestSize;
    MissingIsApart(c, a, b, ws, k, o);
    assert GR.Starts(a, c.max);
    RoundKeeps(c, a, b, r, a', b', ws, n);
    RoundAnswers(c, a, b, r, a', b');
    SmallEnough(a, c.dead, ws, n);
    GR.DigestArrives(a, c.dead, c.max, c.spell, r);
    AskedIsMissing(c, a, b, r, k, o);
    assert [] + [Want(k, o)] == [Want(k, o)];
    assert RequestedOrTooMuch(b.id, c.max, c.write, r.wants, Want(k, o));
    assert r.wants != [];
    var w := r.wants[0];
    AskedIsAnswered(c, a, b, r, a', b', ws, n, w);
    forall g | g in r.answers ensures Want(g.stream, g.origin) in ws && g.origin != b.id && g.entry.version > 0.0 {
      GR.FittingIsPart(a.id, c.max, c.write, AnswersTo(a', r.wants));
      GR.AnswersAre(a', r.wants, g);
      AskedIsAnswered(c, a, b, r, a', b', ws, n, Want(g.stream, g.origin));
    }
    IsToldOf(b, ws, r.answers, Fact(w.stream, w.origin, Answer(a', w.stream, w.origin)));
    NewsAgrees(a, b, a', b', ws, w);
  }

  lemma SameAnswerSameDigest(a: Node, a': Node, dead: set<NodeId>, k: StreamKey, o: NodeId)
    requires GR.SoundNode(a) && GR.SoundNode(a') && a'.id == a.id && Answer(a', k, o) == Answer(a, k, o)
    ensures DigestVersion(a', dead, k, o) == DigestVersion(a, dead, k, o)
  {
    hide PairsOnly;
    if o == a.id {
      AnswerVersion(a, k);
      AnswerVersion(a', k);
    } else {
      AnswerAboutPeer(a, k, o);
      AnswerAboutPeer(a', k, o);
      KnownIsEntryVersion(a.peers, k, o);
      KnownIsEntryVersion(a'.peers, k, o);
    }
  }

  /** What is missing after a round was missing before it. */
  lemma {:induction false} MissingBefore(c: Link, a: Node, b: Node, r: GR.Round, a': Node, b': Node, ws: seq<Want>,
    n: nat, k: StreamKey, o: NodeId)
    requires CanCatchUp(c, a, b, ws, n) && IsOneRound(c, a, b, r, a', b') && Missing(c, a', b', k, o)
    ensures Missing(c, a, b, k, o)
  {
    hide GR.IsRound, GR.SoundNode, GR.CleanNode, Answer, StaysSmall, RoomFor, EachFits, AllApart, GB.EmptyDigestSize, Apart, Learns;
    hide DigestVersion, Known, ListedStreams;
    RoundKeeps(c, a, b, r, a', b', ws, n);
    SoundIsValid(b);
    assert a'.id == a.id && b'.id == b.id by { LearnsKeepsId(a, b, a'); LearnsKeepsId(b, a', b'); }
    MissingIsApart(c, a', b', ws, k, o);
    LearnsMore(a, b, a', k, o);
    LearnsMore(b, a', b', k, o);
    SameAnswerSameDigest(a, a', c.dead, k, o);
    AnswerAboutPeer(b, k, o);
  }

  lemma LearnsKeepsId(x: Node, y: Node, x': Node)
    requires Learns(x, y, x')
    ensures x'.id == x.id
  {
  }

  // ----- consecutive rounds -----

  ghost predicate Catching(c: Link, xs: seq<Node>, ys: seq<Node>, rs: seq<GR.Round>, ws: seq<Want>, n: nat) {
    IsRounds(c, xs, ys, rs) && CanCatchUp(c, xs[0], ys[0], ws, n)
  }

  lemma {:induction false} RoundAt(c: Link, xs: seq<Node>, ys: seq<Node>, rs: seq<GR.Round>, ws: seq<Want>, n: nat, i: nat)
    requires Catching(c, xs, ys, rs, ws, n) && i < |rs|
    ensures |xs| == |ys| == |rs| + 1 && IsOneRound(c, xs[i], ys[i], rs[i], xs[i + 1], ys[i + 1])
  {
    hide IsOneRound, CanCatchUp;
  }

  lemma {:induction false} AlwaysCanCatchUp(c: Link, xs: seq<Node>, ys: seq<Node>, rs: seq<GR.Round>, ws: seq<Want>, n: nat, i: nat)
    requires Catching(c, xs, ys, rs, ws, n) && i <= |rs|
    ensures |xs| == |ys| == |rs| + 1 && CanCatchUp(c, xs[i], ys[i], ws, n)
  {
    hide IsOneRound, CanCatchUp, Apart, Learns;
    if i > 0 {
      AlwaysCanCatchUp(c, xs, ys, rs, ws, n, i - 1);
      RoundKeeps(c, xs[i - 1], ys[i - 1], rs[i - 1], xs[i], ys[i], ws, n);
    }
  }

  /** The two are apart on ever less; while on no less, the first has not learned a thing. */
  lemma {:induction false} ApartOnLess(c: Link, xs: seq<Node>, ys: seq<Node>, rs: seq<GR.Round>, ws: seq<Want>, n: nat, i: nat, j: nat)
    requires Catching(c, xs, ys, rs, ws, n) && i <= j <= |rs|
    ensures |xs| == |ys| == |rs| + 1 && |Apart(xs[j], ys[j], ws)| <= |Apart(xs[i], ys[i], ws)|
    ensures |Apart(xs[j], ys[j], ws)| == |Apart(xs[i], ys[i], ws)| ==> xs[j] == xs[i]
    decreases j
  {
    hide IsOneRound, CanCatchUp, Apart, Learns;
    if i < j {
      ApartOnLess(c, xs, ys, rs, ws, n, i, j - 1);
      AlwaysCanCatchUp(c, xs, ys, rs, ws, n, j - 1);
      RoundKeeps(c, xs[j - 1], ys[j - 1], rs[j - 1], xs[j], ys[j], ws, n);
      SubsetCardinality(Apart(xs[j], ys[j], ws), Apart(xs[j - 1], ys[j - 1], ws));
      if xs[j] != xs[j - 1] { LearningIsProgress(c, xs[j - 1], ys[j - 1], rs[j - 1], xs[j], ys[j], ws, n); }
    }
  }

  lemma {:induction false} MissingSince(c: Link, xs: seq<Node>, ys: seq<Node>, rs: seq<GR.Round>, ws: seq<Want>, n: nat,
    i: nat, j: nat, k: StreamKey, o: NodeId)
    requires Catching(c, xs, ys, rs, ws, n) && i <= j <= |rs| == |xs| - 1 == |ys| - 1 && Missing(c, xs[j], ys[j], k, o)
    ensures Missing(c, xs[i], ys[i], k, o)
    decreases j
  {
    hide IsOneRound, CanCatchUp, Missing;
    if i < j {
      AlwaysCanCatchUp(c, xs, ys, rs, ws, n, j - 1);
      MissingBefore(c, xs[j - 1], ys[j - 1], rs[j - 1], xs[j], ys[j], ws, n, k, o);
      MissingSince(c, xs, ys, rs, ws, n, i, j - 1, k, o);
    }
  }

  /** Whenever a digest could list a stream, its versions fit a digest alone. */
  ghost predicate FitsThroughout(c: Link, xs: seq<Node>, k: StreamKey) {
    forall x, item | x in xs && item in c.order(x) && item.stream == k :: Json.Size(GB.DigestJson(x.id, [ItemField(c.spell, item)])) <= c.max
  }

  /** Rounds of a node that learns nothing carry one vector, window after window. */
  ghost predicate OneVector(c: Link, a: Node, rs: seq<GR.Round>, listing: seq<DigestItem>) {
    && (forall r | r in rs :: r.listing == listing && GB.IsCall(a.id, c.max, FieldsOf(c.spell, listing), r.cursor, r.sent, r.next))
    && forall j | 0 < j < |rs| :: rs[j].cursor == rs[j - 1].next
  }

  function CursorsOf(rs: seq<GR.Round>): (cs: seq<nat>)
    requires rs != []
    ensures |cs| == |rs| + 1
  {
    seq<nat>(|rs| + 1, j requires 0 <= j <= |rs| => if j < |rs| then rs[j].cursor else rs[|rs| - 1].next)
  }

  function DigestsOf(rs: seq<GR.Round>): (ds: seq<seq<Json.Field>>)
    ensures |ds| == |rs|
  {
    seq(|rs|, j requires 0 <= j < |rs| => rs[j].sent)
  }

  lemma {:induction false} VectorGoesRound(c: Link, a: Node, rs: seq<GR.Round>, listing: seq<DigestItem>, p: nat) returns (q: nat)
    requires OneVector(c, a, rs, listing) && |rs| == |listing| && p < |listing|
    requires Json.Size(GB.DigestJson(a.id, [ItemField(c.spell, listing[p])])) <= c.max
    ensures q < |rs| && ItemField(c.spell, listing[p]) in rs[q].sent
  {
    hide GB.IsCall, Json.Size, GB.DigestJson, ItemField;
    var fields := FieldsOf(c.spell, listing);
    var cursors, digests := CursorsOf(rs), DigestsOf(rs);
    forall j | 0 <= j < |digests| ensures GB.IsCall(a.id, c.max, fields, cursors[j], digests[j], cursors[j + 1]) {
      assert rs[j] in rs;
    }
    GB.EveryStreamIsSent(a.id, c.max, fields, cursors, digests, p);
    q :| 0 <= q < |digests| && fields[p] in digests[q];
  }

  /** Where a node's listing has a stream. */
  lemma {:induction false} PlaceOf(c: Link, a: Node, r: GR.Round, ws: seq<Want>, n: nat, k: StreamKey) returns (p: nat)
    requires GR.IsDigest(a, c.dead, c.max, c.spell, r) && StaysSmall(a, ws, n) && k in ListedStreams(a)
    ensures p < |r.listing| <= n && r.listing[p].stream == k
  {
    hide DigestVersion, ListedStreams, ListedOrigins, StreamsOf, OriginsOf, GR.Carries;
    SubsetCardinality(ListedStreams(a), ListedStreams(a) + StreamsOf(ws, a.id));
    assert |r.digest.Keys| == |r.digest|;
    p :| 0 <= p < |r.listing| && r.listing[p].stream == k;
  }

  lemma SentIsListed(c: Link, a: Node, r: GR.Round, item: DigestItem)
    requires GR.IsDigest(a, c.dead, c.max, c.spell, r) && GR.SoundNode(a) && item in r.listing && ItemField(c.spell, item) in r.sent
    ensures item.stream in Listed(r.items)
  {
    hide ItemField, GR.SoundNode, GR.Lists, GB.IsCall, Selection, Listed, ItemsFor;
    GR.SoundIsPairs(a);
    GR.CarriesPart(a, c.dead, c.max, c.spell, r.digest, r.listing, r.cursor, r.sent, r.next, r.items);
    ListedIsSelected(c.spell, r.listing, r.sent, item);
  }

  lemma {:induction false} MissingIsListed(c: Link, a: Node, b: Node, ws: seq<Want>, n: nat, k: StreamKey, o: NodeId)
    requires CanCatchUp(c, a, b, ws, n) && Missing(c, a, b, k, o)
    ensures k in ListedStreams(a) && n > 0
  {
    hide GR.SoundNode, GR.CleanNode, EachFits, RoomFor, AllApart, Missing, GB.EmptyDigestSize, Apart, ListedStreams, ListedOrigins, OriginsOf;
    MissingIsApart(c, a, b, ws, k, o);
  }

  lemma {:induction false} PlaceAt(c: Link, xs: seq<Node>, ys: seq<Node>, rs: seq<GR.Round>, ws: seq<Want>, n: nat,
    i: nat, k: StreamKey) returns (p: nat)
    requires Catching(c, xs, ys, rs, ws, n) && i < |rs| == |xs| - 1 && k in ListedStreams(xs[i])
    ensures rs[i].listing == c.order(xs[i]) && p < |c.order(xs[i])| <= n && c.order(xs[i])[p].stream == k
  {
    hide CanCatchUp, GR.IsDigest, ListedStreams, GR.Starts, GR.IsTraffic;
    RoundAt(c, xs, ys, rs, ws, n, i);
    AlwaysCanCatchUp(c, xs, ys, rs, ws, n, i);
    assert StaysSmall(xs[i], ws, n) by { CanStaySmall(c, xs[i], ys[i], ws, n); }
    p := PlaceOf(c, xs[i], rs[i], ws, n, k);
  }

  lemma {:induction false} CanStaySmall(c: Link, a: Node, b: Node, ws: seq<Want>, n: nat)
    requires CanCatchUp(c, a, b, ws, n)
    ensures StaysSmall(a, ws, n) && GR.SoundNode(a)
  {
  }

  lemma {:induction false} SentAt(c: Link, xs: seq<Node>, ys: seq<Node>, rs: seq<GR.Round>, ws: seq<Want>, n: nat, j: nat, item: DigestItem)
    requires Catching(c, xs, ys, rs, ws, n) && j < |rs| == |xs| - 1 && item in c.order(xs[j]) && ItemField(c.spell, item) in rs[j].sent
    ensures item.stream in Listed(rs[j].items)
  {
    hide CanCatchUp, GR.IsDigest, GR.Starts, GR.IsTraffic, Listed, GR.SoundNode;
    RoundAt(c, xs, ys, rs, ws, n, j);
    AlwaysCanCatchUp(c, xs, ys, rs, ws, n, j);
    CanStaySmall(c, xs[j], ys[j], ws, n);
    SentIsListed(c, xs[j], rs[j], item);
  }

  /** While the two stay apart on as much, the first sends one vector. */
  lemma {:induction false} StuckIsOneVector(c: Link, xs: seq<Node>, ys: seq<Node>, rs: seq<GR.Round>, ws: seq<Want>, n: nat, i: nat)
    requires Catching(c, xs, ys, rs, ws, n) && i + n <= |rs| == |xs| - 1 == |ys| - 1 && |c.order(xs[i])| <= n
    requires |Apart(xs[i + n], ys[i + n], ws)| == |Apart(xs[i], ys[i], ws)|
    ensures OneVector(c, xs[i], rs[i..i + |c.order(xs[i])|], c.order(xs[i]))
  {
    hide CanCatchUp, Apart, GB.IsCall, GR.Lists, GR.Starts, GR.IsTraffic, FieldsOf, ItemsFor;
    var a, listing := xs[i], c.order(xs[i]);
    var some := rs[i..i + |listing|];
    forall j | 0 <= j < |listing|
      ensures some[j] == rs[i + j] && some[j].listing == listing
      ensures GB.IsCall(a.id, c.max, FieldsOf(c.spell, listing), some[j].cursor, some[j].sent, some[j].next)
    {
      ApartOnLess(c, xs, ys, rs, ws, n, i, i + j);
      ApartOnLess(c, xs, ys, rs, ws, n, i + j, i + n);
      RoundAt(c, xs, ys, rs, ws, n, i + j);
    }
    forall j | 0 < j < |some| ensures some[j].cursor == some[j - 1].next { assert some[j] == rs[i + j] && some[j - 1] == rs[i + j - 1]; }
  }

  /** While the two stay apart on as much, some digest of a cycle carries the stream. */
  lemma {:induction false} CycleLists(c: Link, xs: seq<Node>, ys: seq<Node>, rs: seq<GR.Round>, ws: seq<Want>, n: nat,
    i: nat, k: StreamKey) returns (q: nat)
    requires Catching(c, xs, ys, rs, ws, n) && 0 < n && i + n <= |rs| == |xs| - 1 == |ys| - 1 && k in ListedStreams(xs[i])
    requires |Apart(xs[i + n], ys[i + n], ws)| == |Apart(xs[i], ys[i], ws)| && FitsThroughout(c, xs, k)
    ensures i <= q < i + n && k in Listed(rs[q].items)
    ensures |Apart(xs[q], ys[q], ws)| == |Apart(xs[i], ys[i], ws)|
  {
    hide Catching, Apart, ListedStreams, Json.Size, GB.DigestJson, OneVector, ItemField, Listed;
    var a := xs[i];
    var p := PlaceAt(c, xs, ys, rs, ws, n, i, k);
    StuckIsOneVector(c, xs, ys, rs, ws, n, i);
    var listing := c.order(a);
    assert a in xs && listing[p] in listing;
    var d := VectorGoesRound(c, a, rs[i..i + |listing|], listing, p);
    q := i + d;
    ApartOnLess(c, xs, ys, rs, ws, n, i, q);
    ApartOnLess(c, xs, ys, rs, ws, n, q, i + n);
    SentAt(c, xs, ys, rs, ws, n, q, listing[p]);
  }

  /** As long as something of a stream is missing, one cycle of rounds brings the two closer. */
  lemma {:induction false} CycleIsProgress(c: Link, xs: seq<Node>, ys: seq<Node>, rs: seq<GR.Round>, ws: seq<Want>,
    n: nat, i: nat, k: StreamKey, o: NodeId)
    requires Catching(c, xs, ys, rs, ws, n) && i + n <= |rs| == |xs| - 1 == |ys| - 1
    requires Missing(c, xs[i + n], ys[i + n], k, o) && FitsThroughout(c, xs, k)
    ensures |Apart(xs[i + n], ys[i + n], ws)| < |Apart(xs[i], ys[i], ws)|
  {
    hide Catching, IsOneRound, CanCatchUp, Missing, Apart, ListedStreams, FitsThroughout, Listed;
    MissingSince(c, xs, ys, rs, ws, n, i, i + n, k, o);
    AlwaysCanCatchUp(c, xs, ys, rs, ws, n, i);
    MissingIsListed(c, xs[i], ys[i], ws, n, k, o);
    ApartOnLess(c, xs, ys, rs, ws, n, i, i + n);
    if |Apart(xs[i + n], ys[i + n], ws)| == |Apart(xs[i], ys[i], ws)| {
      var q := CycleLists(c, xs, ys, rs, ws, n, i, k);
      MissingSince(c, xs, ys, rs, ws, n, q, i + n, k, o);
      AlwaysCanCatchUp(c, xs, ys, rs, ws, n, q);
      RoundAt(c, xs, ys, rs, ws, n, q);
      ListingIsProgress(c, xs[q], ys[q], rs[q], xs[q + 1], ys[q + 1], ws, n, k, o);
      ApartOnLess(c, xs, ys, rs, ws, n, q + 1, i + n);
    }
  }

  lemma Cycles(t: nat, n: nat)
    ensures t > 0 ==> (t - 1) * n + n == t * n && 0 <= (t - 1) * n
    ensures t == 0 ==> t * n == 0
  {
  }

  /** After t cycles with something still missing, the two are apart on t less. */
  lemma {:induction false} Countdown(c: Link, xs: seq<Node>, ys: seq<Node>, rs: seq<GR.Round>, ws: seq<Want>, n: nat, t: nat, at: nat,
    k: StreamKey, o: NodeId)
    requires at == t * n && Catching(c, xs, ys, rs, ws, n) && at <= |rs| == |xs| - 1 == |ys| - 1
    requires Missing(c, xs[at], ys[at], k, o) && FitsThroughout(c, xs, k)
    ensures |Apart(xs[at], ys[at], ws)| + t <= |Apart(xs[0], ys[0], ws)|
    decreases t
  {
    hide Catching, Missing, Apart, FitsThroughout;
    Cycles(t, n);
    if t > 0 {
      var i: nat := (t - 1) * n;
      assert at == i + n;
      MissingSince(c, xs, ys, rs, ws, n, i, i + n, k, o);
      CycleIsProgress(c, xs, ys, rs, ws, n, i, k, o);
      Countdown(c, xs, ys, rs, ws, n, t - 1, i, k, o);
    }
  }

  /** Nothing is missing after one cycle for each entry. */
  lemma {:induction false} NothingMissing(c: Link, xs: seq<Node>, ys: seq<Node>, rs: seq<GR.Round>, ws: seq<Want>,
    n: nat, k: StreamKey, o: NodeId)
    requires Catching(c, xs, ys, rs, ws, n) && |rs| >= |ws| * n && FitsThroughout(c, xs, k)
    ensures |xs| == |ys| == |rs| + 1 && !Missing(c, xs[|rs|], ys[|rs|], k, o)
  {
    hide Catching, CanCatchUp, Missing, Apart, FitsThroughout;
    AlwaysCanCatchUp(c, xs, ys, rs, ws, n, |rs|);
    if Missing(c, xs[|rs|], ys[|rs|], k, o) {
      var at: nat := |ws| * n;
      MissingSince(c, xs, ys, rs, ws, n, at, |rs|, k, o);
      Countdown(c, xs, ys, rs, ws, n, |ws|, at, k, o);
      ApartIsBounded(xs[0], ys[0], ws);
      AlwaysCanCatchUp(c, xs, ys, rs, ws, n, at);
      StillApart(c, xs[at], ys[at], ws, n, k, o);
    }
  }

  lemma {:induction false} StillApart(c: Link, a: Node, b: Node, ws: seq<Want>, n: nat, k: StreamKey, o: NodeId)
    requires CanCatchUp(c, a, b, ws, n) && Missing(c, a, b, k, o)
    ensures |Apart(a, b, ws)| > 0
  {
    hide GR.SoundNode, GR.CleanNode, EachFits, RoomFor, AllApart, Missing, GB.EmptyDigestSize, Apart, ListedStreams, StaysSmall;
    MissingIsApart(c, a, b, ws, k, o);
  }

  /** While the second node knows less than the first one's digests promised at the start, the
      first one's answer is the one it gave then. */
  lemma {:induction false} SameWhileBehind(c: Link, xs: seq<Node>, ys: seq<Node>, rs: seq<GR.Round>, ws: seq<Want>, n: nat, j: nat,
    k: StreamKey, o: NodeId)
    requires Catching(c, xs, ys, rs, ws, n) && j <= |rs| == |xs| - 1 == |ys| - 1
    requires o != ys[j].id && Known(ys[j].peers, k, o) < DigestVersion(xs[0], c.dead, k, o)
    ensures Answer(xs[j], k, o) == Answer(xs[0], k, o) && xs[j].id == xs[0].id
  {
    hide IsOneRound, CanCatchUp, Answer, Known, DigestVersion, Learns, Apart, ValidPeers;
    if j > 0 {
      var a, b, a', b' := xs[j - 1], ys[j - 1], xs[j], ys[j];
      AlwaysCanCatchUp(c, xs, ys, rs, ws, n, j - 1);
      AlwaysCanCatchUp(c, xs, ys, rs, ws, n, 0);
      RoundKeeps(c, a, b, rs[j - 1], a', b', ws, n);
      CanIsValid(c, a, b, ws, n);
      CanIsValid(c, a', b', ws, n);
      CanIsValid(c, xs[0], ys[0], ws, n);
      LearnsKeepsId(b, a', b');
      LearnsKeepsId(a, b, a');
      LearnsMore(b, a', b', k, o);
      AnswerAboutPeer(b, k, o);
      AnswerAboutPeer(b', k, o);
      SameWhileBehind(c, xs, ys, rs, ws, n, j - 1, k, o);
      DigestAtMostAnswer(xs[0], c.dead, k, o);
      if Answer(a', k, o) != Answer(a, k, o) { LearnsOnlyNews(a, b, a', k, o); }
    }
  }

  lemma {:induction false} CanIsValid(c: Link, a: Node, b: Node, ws: seq<Want>, n: nat)
    requires CanCatchUp(c, a, b, ws, n)
    ensures ValidPeers(a.peers) && ValidPeers(b.peers) && PositiveOwn(a) && PositiveOwn(b) && GR.SoundNode(a)
  {
  }

  lemma LearnsOnlyNews(x: Node, y: Node, x': Node, k: StreamKey, o: NodeId)
    requires Learns(x, y, x') && Answer(x', k, o) != Answer(x, k, o)
    ensures Answer(y, k, o).version > Answer(x, k, o).version
  {
    hide Answer;
  }

  /** Catching up: after one cycle of bounded rounds for each entry the two differed in, the
      second node knows of every origin's stream whatever the first one's digests promised and
      promise, provided the stream's versions fit a digest alone; how much of it any digest,
      reply or payload carried does not matter. */
  lemma {:induction false} CatchesUp(c: Link, xs: seq<Node>, ys: seq<Node>, rs: seq<GR.Round>, ws: seq<Want>, n: nat,
    k: StreamKey, o: NodeId)
    requires IsRounds(c, xs, ys, rs) && CanCatchUp(c, xs[0], ys[0], ws, n) && |rs| >= |ws| * n
    requires FitsThroughout(c, xs, k) && o != ys[|rs|].id
    ensures Known(ys[|rs|].peers, k, o) >= DigestVersion(xs[0], c.dead, k, o)
    ensures Known(ys[|rs|].peers, k, o) >= DigestVersion(xs[|rs|], c.dead, k, o)
  {
    hide IsOneRound, CanCatchUp, Answer, Known, DigestVersion, FitsThroughout, GR.SoundNode;
    NothingMissing(c, xs, ys, rs, ws, n, k, o);
    if Known(ys[|rs|].peers, k, o) < DigestVersion(xs[0], c.dead, k, o) {
      SameWhileBehind(c, xs, ys, rs, ws, n, |rs|, k, o);
      AlwaysCanCatchUp(c, xs, ys, rs, ws, n, |rs|);
      CanIsValid(c, xs[|rs|], ys[|rs|], ws, n);
      CanIsValid(c, xs[0], ys[0], ws, n);
      SameAnswerSameDigest(xs[0], xs[|rs|], c.dead, k, o);
    }
  }
}
