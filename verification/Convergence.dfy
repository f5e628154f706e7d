/** What two nodes show once each has caught up with the other. */
module Convergence {
  import opened Prelude
  import opened StreamLogs
  import opened PeerStore
  import opened Mesh
  import opened Exchange
  import opened MergedView
  import opened Digests
  import opened Learning
  import opened CatchUps
  import GR = GossipRounds

  /** Enough consecutive rounds from one node to another for the second to catch up. */
  datatype Phase = Phase(link: Link, xs: seq<Node>, ys: seq<Node>, rounds: seq<GR.Round>, apart: seq<Want>, streams: nat)

  ghost predicate Completes(p: Phase) {
    && Catching(p.link, p.xs, p.ys, p.rounds, p.apart, p.streams)
    && |p.xs| == |p.ys| == |p.rounds| + 1 && |p.rounds| >= |p.apart| * p.streams
  }

  function Initiator(p: Phase): Node
    requires p.xs != []
  {
    p.xs[|p.xs| - 1]
  }

  function Partner(p: Phase): Node
    requires p.ys != []
  {
    p.ys[|p.ys| - 1]
  }

  /** What two nodes that talked to each other made of two nodes as they were. */
  ghost predicate CameFrom(a: Node, b: Node, a': Node, b': Node, k: StreamKey, o: NodeId) {
    && a'.id == a.id && b'.id == b.id
    && (Answer(a', k, o) == Answer(a, k, o) || Answer(a', k, o) == Answer(b, k, o))
    && (Answer(b', k, o) == Answer(a, k, o) || Answer(b', k, o) == Answer(b, k, o))
    && (o == a.id ==> Answer(a', k, o) == Answer(a, k, o)) && (o == b.id ==> Answer(b', k, o) == Answer(b, k, o))
    && (Answer(a, k, o).version >= Answer(b, k, o).version ==> Answer(a', k, o).version >= Answer(b', k, o).version)
  }

  lemma OneStep(a: Node, b: Node, x: Node, y: Node, x': Node, y': Node, k: StreamKey, o: NodeId)
    requires CameFrom(a, b, x, y, k, o) && Learns(x, y, x') && Learns(y, x', y')
    ensures CameFrom(a, b, x', y', k, o)
  {
    hide Answer;
    LearnsKeepsId(x, y, x');
    LearnsKeepsId(y, x', y');
  }

  lemma {:induction false} AnswersStay(c: Link, xs: seq<Node>, ys: seq<Node>, rs: seq<GR.Round>, ws: seq<Want>, n: nat, j: nat,
    k: StreamKey, o: NodeId)
    requires Catching(c, xs, ys, rs, ws, n) && j <= |rs| == |xs| - 1 == |ys| - 1
    ensures CameFrom(xs[0], ys[0], xs[j], ys[j], k, o)
  {
    hide IsOneRound, CanCatchUp, Learns, Apart, Answer;
    if j > 0 {
      AlwaysCanCatchUp(c, xs, ys, rs, ws, n, j - 1);
      RoundKeeps(c, xs[j - 1], ys[j - 1], rs[j - 1], xs[j], ys[j], ws, n);
      AnswersStay(c, xs, ys, rs, ws, n, j - 1, k, o);
      OneStep(xs[0], ys[0], xs[j - 1], ys[j - 1], xs[j], ys[j], k, o);
    }
  }

  /** What a node that takes nobody for dead promises is what it answers with. */
  lemma PromisesAll(n: Node, k: StreamKey, o: NodeId)
    requires ValidPeers(n.peers) && PositiveOwn(n)
    ensures DigestVersion(n, {}, k, o) == Answer(n, k, o).version
  {
    if o == n.id { AnswerVersion(n, k); } else { AnswerAboutPeer(n, k, o); }
  }

  /** The effect of one phase on one origin's stream. */
  lemma PhaseSettles(p: Phase, k: StreamKey, o: NodeId)
    requires Completes(p) && p.link.dead == {} && FitsThroughout(p.link, p.xs, k)
    ensures CameFrom(p.xs[0], p.ys[0], Initiator(p), Partner(p), k, o)
    ensures GR.SoundNode(Initiator(p)) && GR.SoundNode(Partner(p))
    ensures o != Partner(p).id ==> Answer(Partner(p), k, o).version >= Answer(Initiator(p), k, o).version
  {
    hide Catching, CanCatchUp, FitsThroughout, Answer, DigestVersion, Known, GR.SoundNode;
    AnswersStay(p.link, p.xs, p.ys, p.rounds, p.apart, p.streams, |p.rounds|, k, o);
    AlwaysCanCatchUp(p.link, p.xs, p.ys, p.rounds, p.apart, p.streams, |p.rounds|);
    CanIsSound(p.link, Initiator(p), Partner(p), p.apart, p.streams);
    CanIsValid(p.link, Initiator(p), Partner(p), p.apart, p.streams);
    PromisesAll(Initiator(p), k, o);
    if o != Partner(p).id {
      NothingMissing(p.link, p.xs, p.ys, p.rounds, p.apart, p.streams, k, o);
      AnswerAboutPeer(Partner(p), k, o);
    }
  }

  lemma {:induction false} CanIsSound(c: Link, a: Node, b: Node, ws: seq<Want>, n: nat)
    requires CanCatchUp(c, a, b, ws, n)
    ensures GR.SoundNode(a) && GR.SoundNode(b)
  {
  }

  /** First a starts rounds with b, then b with a. */
  ghost predicate BothWays(s: State, a: NodeId, b: NodeId, p: Phase, q: Phase) {
    && Partners(s, a, b) && Completes(p) && Completes(q) && p.link.dead == {} == q.link.dead
    && p.xs[0] == s.nodes[a] && p.ys[0] == s.nodes[b] && q.xs[0] == Partner(p) && q.ys[0] == Initiator(p)
  }

  /** Both answer alike about everyone. */
  lemma {:induction false} AnswerAlike(s: State, a: NodeId, b: NodeId, p: Phase, q: Phase, k: StreamKey, o: NodeId)
    requires BothWays(s, a, b, p, q) && FitsThroughout(p.link, p.xs, k) && FitsThroughout(q.link, q.xs, k)
    ensures GR.SoundNode(Partner(q)) && GR.SoundNode(Initiator(q)) && Partner(q).id == a && Initiator(q).id == b
    ensures Answer(Partner(q), k, o) == Answer(Initiator(q), k, o)
    ensures o == a ==> Answer(Partner(q), k, o) == Answer(s.nodes[a], k, o)
    ensures o == b ==> Answer(Initiator(q), k, o) == Answer(s.nodes[b], k, o)
  {
    hide Completes, FitsThroughout, Answer, GR.SoundNode, HoldsPublished, OwnIsPublished, HistoryIsCoherent, Published, Known, EntryAt;
    assert p.xs != [] && p.ys != [] && q.xs != [] && q.ys != [] by { CompletesSome(p); CompletesSome(q); }
    PhaseSettles(p, k, o);
    PhaseSettles(q, k, o);
    OneAnswerEach(s, a, b, k, o);
  }

  lemma CompletesSome(p: Phase)
    requires Completes(p)
    ensures p.xs != [] && p.ys != []
  {
  }

  /** Answers of two nodes of a reachable state that have one version are one, and nobody
      knows an origin's stream better than the origin. */
  lemma OneAnswerEach(s: State, a: NodeId, b: NodeId, k: StreamKey, o: NodeId)
    requires Partners(s, a, b)
    ensures Answer(s.nodes[a], k, o).version == Answer(s.nodes[b], k, o).version ==> Answer(s.nodes[a], k, o) == Answer(s.nodes[b], k, o)
    ensures o == a ==> Answer(s.nodes[b], k, o).version <= Answer(s.nodes[a], k, o).version
    ensures o == b ==> Answer(s.nodes[a], k, o).version <= Answer(s.nodes[b], k, o).version
  {
    hide EntryAt, Known, ValidPeers, Answer, Published, OwnIsPublished, HistoryIsCoherent;
    var n, m := s.nodes[a], s.nodes[b];
    KnownIsEntryVersion(n.peers, k, o);
    KnownIsEntryVersion(m.peers, k, o);
    if o == a {
      OwnAgainstHeld(s, b, k, a);
    } else if o == b {
      OwnAgainstHeld(s, a, k, b);
    } else {
      AnswerAboutPeer(n, k, o);
      AnswerAboutPeer(m, k, o);
      if Known(n.peers, k, o) == Known(m.peers, k, o) { SameVersionSameEntry(s, a, b, k, o); }
    }
  }

  lemma OwnAgainstHeld(s: State, n: NodeId, k: StreamKey, o: NodeId)
    requires Inv(s) && n in s.nodes && o in s.nodes && n != o
    ensures Answer(s.nodes[n], k, o).version <= Answer(s.nodes[o], k, o).version
    ensures Answer(s.nodes[n], k, o).version == Answer(s.nodes[o], k, o).version ==> Answer(s.nodes[n], k, o) == Answer(s.nodes[o], k, o)
  {
    hide EntryAt, Known, ValidPeers, HistoryIsCoherent;
    HeldIsAtMostPublished(s, n, k, o);
    AnswerVersion(s.nodes[o], k);
    AnswerAboutPeer(s.nodes[n], k, o);
    KnownIsEntryVersion(s.nodes[n].peers, k, o);
  }

  /** Two nodes that answer alike about everyone are up to date with each other. */
  lemma AlikeIsUpToDate(n: Node, m: Node, k: StreamKey)
    requires GR.SoundNode(n) && GR.SoundNode(m) && n.id != m.id && forall o :: Answer(n, k, o) == Answer(m, k, o)
    ensures UpToDate(n, m, k)
  {
    hide Answer, EntryAt, ValidPeers, Published, PositiveOwn, Known;
    SoundParts(n);
    SoundParts(m);
    AnswerVersion(n, k);
    AnswerVersion(m, k);
    forall o
      ensures o != n.id && o != m.id ==> EntryAt(n.peers, k, o) == EntryAt(m.peers, k, o)
      ensures o == m.id ==> EntryAt(n.peers, k, o) == Current(m, k)
      ensures o == n.id ==> EntryAt(m.peers, k, o) == Current(n, k)
    {
      assert Answer(n, k, o) == Answer(m, k, o);
      KnownIsEntryVersion(n.peers, k, o);
      KnownIsEntryVersion(m.peers, k, o);
      if o != n.id { AnswerAboutPeer(n, k, o); }
      if o != m.id { AnswerAboutPeer(m, k, o); }
    }
  }

  lemma SoundParts(n: Node)
    requires GR.SoundNode(n)
    ensures ValidPeers(n.peers) && PositiveOwn(n) && forall k :: EntryAt(n.peers, k, n.id).None?
  {
  }

  /** Convergence of bounded gossip: when each of two nodes has started enough bounded rounds
      with the other, they are up to date with each other on every stream that fits a digest
      alone, and so show one view of it unless it is one-sided. */
  lemma {:induction false} BothWaysBringUpToDate(s: State, a: NodeId, b: NodeId, p: Phase, q: Phase, k: StreamKey)
    requires BothWays(s, a, b, p, q) && FitsThroughout(p.link, p.xs, k) && FitsThroughout(q.link, q.xs, k)
    ensures p.xs != [] && q.xs != [] && q.ys != [] && UpToDate(Partner(q), Initiator(q), k)
    ensures forall ra, rb | IsView(Partner(q), k, ra) && IsView(Initiator(q), k, rb) ::
      ra == rb <==> !OneSided(Partner(q), Initiator(q), k)
  {
    hide BothWays, FitsThroughout, Answer, GR.SoundNode, UpToDate, IsView, OneSided;
    BothWaysSome(s, a, b, p, q);
    forall o ensures Answer(Partner(q), k, o) == Answer(Initiator(q), k, o) { AnswerAlike(s, a, b, p, q, k, o); }
    AnswerAlike(s, a, b, p, q, k, a);
    AlikeIsUpToDate(Partner(q), Initiator(q), k);
    forall ra, rb | IsView(Partner(q), k, ra) && IsView(Initiator(q), k, rb) ensures ra == rb <==> !OneSided(Partner(q), Initiator(q), k) {
      UpToDateGivesOneView(Partner(q), Initiator(q), k, ra, rb);
    }
  }

  lemma BothWaysSome(s: State, a: NodeId, b: NodeId, p: Phase, q: Phase)
    requires BothWays(s, a, b, p, q)
    ensures p.xs != [] && p.ys != [] && q.xs != [] && q.ys != [] && a != b
  {
    hide Catching, Inv;
  }
}
