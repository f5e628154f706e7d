/** The mesh as a transition system. Each locked region of a node and each deletion is one
    step; the network keeps everything ever sent, so it may deliver a message late, twice,
    out of order or never. */
module Mesh {
  import opened Prelude
  import opened StreamLogs
  import opened PeerStore

  /** A node: its own streams and tombstones, and what it holds of its peers. */
  datatype Node = Node(id: NodeId, local: map<StreamKey, Versioned>, tombstones: map<StreamKey, real>, peers: Peers)

  function LocalVersion(n: Node, k: StreamKey): real { if k in n.local then n.local[k].version else 0.0 }

  function LocalTombstone(n: Node, k: StreamKey): real { if k in n.tombstones then n.tombstones[k] else 0.0 }

  /** The latest version a node published of one of its own streams. */
  function Published(n: Node, k: StreamKey): real { Max(LocalVersion(n, k), LocalTombstone(n, k)) }

  /** What a node answers when asked for an origin of a stream: its own state or what it
      holds of a peer, a tombstone winning ties. A stream it never heard of is answered by
      a tombstone of version 0. */
  function Answer(n: Node, k: StreamKey, o: NodeId): Entry {
    if o == n.id then
      if LocalTombstone(n, k) >= LocalVersion(n, k) then Tombstone(LocalTombstone(n, k))
      else if k in n.local then Snapshot(n.local[k].log, n.local[k].version)
      else Tombstone(0.0)
    else if TombstoneVersion(n.peers, k, o) >= SnapshotVersion(n.peers, k, o) then Tombstone(TombstoneVersion(n.peers, k, o))
    else if Has(n.peers.snapshots, k, o) then Snapshot(n.peers.snapshots[k][o].log, n.peers.snapshots[k][o].version)
    else Tombstone(0.0)
  }

  /** Receiving one fact: ignored when its names are invalid or it echoes the node's own
      data, installed otherwise. */
  predicate Acceptable(n: Node, f: Fact) { ValidStreamKey(f.stream) && ValidName(f.origin) && f.origin != n.id }

  function Receive(n: Node, f: Fact): Node {
    if Acceptable(n, f) then n.(peers := Install(n.peers, f.stream, f.origin, f.entry)) else n
  }

  /** A node publishes a new state of one of its own streams: an update replaces the
      stream, a deletion removes it and leaves a tombstone. */
  function Announce(n: Node, k: StreamKey, e: Entry): Node {
    if e.Snapshot? then n.(local := n.local[k := Versioned(e.log, e.version)])
    else n.(local := n.local - {k}, tombstones := n.tombstones[k := e.version])
  }

  // ----- states and steps -----

  datatype State = State(nodes: map<NodeId, Node>, flight: set<Fact>, history: set<Fact>)

  datatype Step =
    | Update(node: NodeId, stream: StreamKey, log: Log, version: real)
    | Delete(node: NodeId, stream: StreamKey, version: real)
    | Send(node: NodeId, stream: StreamKey, origin: NodeId)
    | Deliver(node: NodeId, fact: Fact)

  ghost predicate Initial(s: State) {
    && s.flight == {} && s.history == {}
    && forall n | n in s.nodes :: s.nodes[n] == Node(n, map[], map[], NoPeers())
  }

  /** When a step can happen. An update or deletion of an origin takes a version above
      everything that origin published of the stream. */
  ghost predicate Enabled(s: State, step: Step) {
    step.node in s.nodes && match step
      case Update(n, k, _, v) => v > Published(s.nodes[n], k)
      case Delete(n, k, v) => v > Published(s.nodes[n], k)
      case Send(_, _, _) => true
      case Deliver(_, f) => f in s.flight
  }

  ghost function Publish(s: State, n: NodeId, k: StreamKey, e: Entry): State
    requires n in s.nodes
  {
    State(s.nodes[n := Announce(s.nodes[n], k, e)], s.flight, s.history + {Fact(k, n, e)})
  }

  ghost function After(s: State, step: Step): State
    requires Enabled(s, step)
  {
    var node := s.nodes[step.node];
    match step
    case Update(n, k, log, v) => Publish(s, n, k, Snapshot(log, v))
    case Delete(n, k, v) => Publish(s, n, k, Tombstone(v))
    case Send(n, k, o) => s.(flight := s.flight + {Fact(k, o, Answer(node, k, o))})
    case Deliver(n, f) => s.(nodes := s.nodes[n := Receive(node, f)])
  }

  // ----- the invariant -----

  /** Everything a node holds of a peer was published by that peer at that version. */
  ghost predicate HoldsPublished(s: State, n: Node) {
    && ValidPeers(n.peers)
    && forall k, o | EntryAt(n.peers, k, o).Some? ::
      o != n.id && ValidStreamKey(k) && ValidName(o) && Fact(k, o, EntryAt(n.peers, k, o).value) in s.history
  }

  /** A stream in memory is newer than its last tombstone, and versions are positive. */
  ghost predicate PositiveOwn(n: Node) {
    && (forall k | k in n.local :: n.local[k].version > LocalTombstone(n, k))
    && (forall k | k in n.tombstones :: n.tombstones[k] > 0.0)
  }

  /** A node's own latest state is on record, with a positive version. */
  ghost predicate OwnIsPublished(s: State, n: Node) {
    && PositiveOwn(n)
    && (forall k | Published(n, k) > 0.0 :: Fact(k, n.id, Answer(n, k, n.id)) in s.history)
  }

  ghost predicate HistoryIsCoherent(s: State) {
    && (forall f, g | f in s.history && g in s.history && f.stream == g.stream && f.origin == g.origin
          && f.entry.version == g.entry.version :: f == g)
    && (forall f | f in s.history ::
          f.origin in s.nodes && 0.0 < f.entry.version <= Published(s.nodes[f.origin], f.stream))
  }

  ghost predicate Inv(s: State) {
    && (forall n | n in s.nodes :: s.nodes[n].id == n && HoldsPublished(s, s.nodes[n]) && OwnIsPublished(s, s.nodes[n]))
    && (forall f | f in s.flight :: f in s.history || f.entry == Tombstone(0.0))
    && HistoryIsCoherent(s)
  }

  lemma InitialInv(s: State)
    requires Initial(s)
    ensures Inv(s)
  {
    forall n, k: StreamKey, o: NodeId | n in s.nodes ensures ValidPeers(s.nodes[n].peers) && EntryAt(s.nodes[n].peers, k, o).None? {
      NothingHeld(k, o);
    }
  }

  lemma AnswerVersion(n: Node, k: StreamKey)
    requires PositiveOwn(n)
    ensures Answer(n, k, n.id).version == Published(n, k) >= 0.0
  {
  }

  /** What a node answers about its own stream is the stream in memory if that is newer than its
      last deletion, and otherwise that deletion, ties included. */
  lemma {:induction false} AnswerAboutOwn(n: Node, k: StreamKey)
    requires k in n.tombstones ==> n.tombstones[k] >= 0.0
    ensures var deleted := if k in n.tombstones then n.tombstones[k] else 0.0;
      Answer(n, k, n.id) == if k in n.local && n.local[k].version > deleted then Snapshot(n.local[k].log, n.local[k].version) else Tombstone(deleted)
  {
  }

  /** What a node answers about a peer is what it holds, or a tombstone of version 0. */
  lemma {:induction false} AnswerAboutPeer(n: Node, k: StreamKey, o: NodeId)
    requires ValidPeers(n.peers) && o != n.id
    ensures match EntryAt(n.peers, k, o) case Some(e) => Answer(n, k, o) == e case None => Answer(n, k, o) == Tombstone(0.0)
    ensures Answer(n, k, o).version == Known(n.peers, k, o)
  {
  }

  /** A node answers with what the origin published exactly when it has published the stream
      itself, or holds an entry of it; otherwise it answers with the tombstone of version 0,
      which nobody publishes. */
  lemma {:induction false} AnswerIsPublished(s: State, n: NodeId, k: StreamKey, o: NodeId)
    requires Inv(s) && n in s.nodes
    ensures Fact(k, o, Answer(s.nodes[n], k, o)) in s.history <==>
      if o == n then Published(s.nodes[n], k) > 0.0 else EntryAt(s.nodes[n].peers, k, o).Some?
    ensures Fact(k, o, Answer(s.nodes[n], k, o)) in s.history <==> Answer(s.nodes[n], k, o) != Tombstone(0.0)
  {
    var node := s.nodes[n];
    if o == n {
      AnswerVersion(node, k);
    } else {
      AnswerAboutPeer(node, k, o);
      KnownIsEntryVersion(node.peers, k, o);
    }
  }

  /** An example: a node that has just started is asked for any stream of anyone, and sends a
      tombstone that nobody published. */
  lemma {:induction false} UnheardIsAnswered(s: State, n: NodeId, k: StreamKey, o: NodeId)
    requires Initial(s) && n in s.nodes
    ensures Inv(s) && Enabled(s, Send(n, k, o))
    ensures Fact(k, o, Tombstone(0.0)) in After(s, Send(n, k, o)).flight && Fact(k, o, Tombstone(0.0)) !in After(s, Send(n, k, o)).history
  {
    InitialInv(s);
    NothingHeld(k, o);
  }

  lemma {:induction false} StepKeepsInv(s: State, step: Step)
    requires Inv(s) && Enabled(s, step)
    ensures Inv(After(s, step))
  {
    hide Inv, Publish, Receive, Answer, Published;
    match step
    case Update(n, k, log, v) => PublishKeepsInv(s, n, k, Snapshot(log, v));
    case Delete(n, k, v) => PublishKeepsInv(s, n, k, Tombstone(v));
    case Send(n, k, o) => SendKeepsInv(s, n, k, o);
    case Deliver(n, f) => DeliverKeepsInv(s, n, f);
  }

  lemma SendKeepsInv(s: State, n: NodeId, k: StreamKey, o: NodeId)
    requires Inv(s) && n in s.nodes
    ensures Inv(s.(flight := s.flight + {Fact(k, o, Answer(s.nodes[n], k, o))}))
  {
    hide ValidPeers, Answer, Published, EntryAt;
    AnswerIsPublished(s, n, k, o);
  }

  lemma AnnounceEffect(n: Node, k: StreamKey, e: Entry, k': StreamKey)
    requires PositiveOwn(n) && e.version > Published(n, k)
    ensures var r := Announce(n, k, e);
      && PositiveOwn(r) && r.id == n.id && r.peers == n.peers
      && Published(r, k') == (if k' == k then e.version else Published(n, k'))
      && Answer(r, k', n.id) == if k' == k then e else Answer(n, k', n.id)
  {
  }

  lemma PublishKeepsInv(s: State, n: NodeId, k: StreamKey, e: Entry)
    requires Inv(s) && n in s.nodes && e.version > Published(s.nodes[n], k)
    ensures Inv(Publish(s, n, k, e))
  {
    hide HoldsPublished, OwnIsPublished, HistoryIsCoherent, Published, Announce;
    var t := Publish(s, n, k, e);
    assert PositiveOwn(s.nodes[n]) by { OwnIsPositive(s, s.nodes[n]); }
    AnnounceEffect(s.nodes[n], k, e, k);
    PublisherOnRecord(s, n, k, e);
    forall m | m in t.nodes ensures HoldsPublished(t, t.nodes[m]) && OwnIsPublished(t, t.nodes[m]) {
      HoldsStill(s, t, s.nodes[m], t.nodes[m]);
      if m != n { OwnStill(s, t, t.nodes[m]); }
    }
    HistoryStaysCoherent(s, n, k, e);
  }

  lemma OwnIsPositive(s: State, n: Node)
    requires OwnIsPublished(s, n)
    ensures PositiveOwn(n)
  {
  }

  /** What a node holds of its peers stays published when the history grows. */
  lemma HoldsStill(s: State, t: State, before: Node, after: Node)
    requires HoldsPublished(s, before) && s.history <= t.history && after.id == before.id && after.peers == before.peers
    ensures HoldsPublished(t, after)
  {
    hide EntryAt, ValidPeers;
  }

  lemma OwnStill(s: State, t: State, n: Node)
    requires OwnIsPublished(s, n) && s.history <= t.history
    ensures OwnIsPublished(t, n)
  {
    hide PositiveOwn, Answer, Published;
  }

  lemma PublisherOnRecord(s: State, n: NodeId, k: StreamKey, e: Entry)
    requires n in s.nodes && s.nodes[n].id == n && OwnIsPublished(s, s.nodes[n]) && e.version > Published(s.nodes[n], k)
    ensures OwnIsPublished(Publish(s, n, k, e), Announce(s.nodes[n], k, e))
  {
    hide Announce, Answer, Published, PositiveOwn;
    var after := Announce(s.nodes[n], k, e);
    AnnounceEffect(s.nodes[n], k, e, k);
    forall k' | Published(after, k') > 0.0 ensures Fact(k', n, Answer(after, k', n)) in Publish(s, n, k, e).history {
      AnnounceEffect(s.nodes[n], k, e, k');
    }
  }

  lemma HistoryStaysCoherent(s: State, n: NodeId, k: StreamKey, e: Entry)
    requires HistoryIsCoherent(s) && n in s.nodes && OwnIsPublished(s, s.nodes[n]) && e.version > Published(s.nodes[n], k)
    ensures HistoryIsCoherent(Publish(s, n, k, e))
  {
    hide Announce, Answer, Published, PositiveOwn;
    var t := Publish(s, n, k, e);
    AnswerVersion(s.nodes[n], k);
    forall f | f in t.history
      ensures f.origin in t.nodes && 0.0 < f.entry.version <= Published(t.nodes[f.origin], f.stream)
    {
      AnnounceEffect(s.nodes[n], k, e, f.stream);
    }
  }

  lemma DeliverKeepsInv(s: State, n: NodeId, f: Fact)
    requires Inv(s) && Enabled(s, Deliver(n, f))
    ensures Inv(After(s, Deliver(n, f)))
  {
    hide Install, EntryAt, ValidPeers, Answer, Published, PositiveOwn;
    var t := After(s, Deliver(n, f));
    var node := s.nodes[n];
    if Acceptable(node, f) {
      InstallKeepsValid(node.peers, f.stream, f.origin, f.entry);
      forall k, o | EntryAt(t.nodes[n].peers, k, o).Some?
        ensures o != n && ValidStreamKey(k) && ValidName(o) && Fact(k, o, EntryAt(t.nodes[n].peers, k, o).value) in s.history
      {
        InstallChangesOneEntry(node.peers, f.stream, f.origin, f.entry, k, o);
        KnownIsEntryVersion(node.peers, k, o);
      }
    }
    forall k ensures Published(t.nodes[n], k) == Published(node, k) && Answer(t.nodes[n], k, n) == Answer(node, k, n) {
      OwnStateUntouched(node, f, k);
    }
    assert PositiveOwn(t.nodes[n]) by { assert PositiveOwn(node); OwnStateUntouched(node, f, f.stream); }
  }

  lemma OwnStateUntouched(n: Node, f: Fact, k: StreamKey)
    ensures Published(Receive(n, f), k) == Published(n, k) && Answer(Receive(n, f), k, n.id) == Answer(n, k, n.id)
    ensures PositiveOwn(n) ==> PositiveOwn(Receive(n, f))
    ensures Receive(n, f).id == n.id
  {
    hide Install;
  }

  // ----- runs -----

  ghost predicate Next(s: State, t: State) { exists step :: Enabled(s, step) && t == After(s, step) }

  ghost predicate IsRun(run: seq<State>) {
    run != [] && Initial(run[0]) && forall i | 0 < i < |run| :: Next(run[i - 1], run[i])
  }

  lemma {:induction false} NextStep(run: seq<State>, j: nat)
    requires IsRun(run) && 0 < j < |run|
    ensures Next(run[j - 1], run[j])
  {
    hide Next, Initial;
  }

  /** In every reachable state everything stored or in flight was published by its origin
      at its version, except for tombstones of version 0, which no node ever installs. */
  lemma {:induction false} RunKeepsInv(run: seq<State>, i: nat)
    requires IsRun(run) && i < |run|
    ensures Inv(run[i])
  {
    if i == 0 {
      InitialInv(run[0]);
    } else {
      hide *;
      RunKeepsInv(run, i - 1);
      NextStep(run, i);
      NextKeepsInv(run[i - 1], run[i]);
    }
  }

  lemma NextKeepsInv(s: State, t: State)
    requires Inv(s) && Next(s, t)
    ensures Inv(t)
  {
    hide Inv, Enabled, After;
    var step :| Enabled(s, step) && t == After(s, step);
    StepKeepsInv(s, step);
  }

  lemma NextIsMonotone(s: State, t: State, n: NodeId, k: StreamKey, o: NodeId)
    requires Inv(s) && Next(s, t) && n in s.nodes
    ensures n in t.nodes && Known(s.nodes[n].peers, k, o) <= Known(t.nodes[n].peers, k, o) && s.history <= t.history
  {
    hide Inv, Enabled, After, Known;
    var step :| Enabled(s, step) && t == After(s, step);
    StepIsMonotone(s, step, n, k, o);
  }

  lemma StepIsMonotone(s: State, step: Step, n: NodeId, k: StreamKey, o: NodeId)
    requires Inv(s) && Enabled(s, step) && n in s.nodes
    ensures n in After(s, step).nodes
    ensures Known(s.nodes[n].peers, k, o) <= Known(After(s, step).nodes[n].peers, k, o)
    ensures s.history <= After(s, step).history
  {
    hide Install, Known, ValidPeers, Published, Answer, OwnIsPublished, HistoryIsCoherent;
    if step.Deliver? && step.node == n {
      InstallIsMonotone(s.nodes[n].peers, step.fact.stream, step.fact.origin, step.fact.entry, k, o);
    }
  }

  lemma {:induction false} RunIsMonotone(run: seq<State>, i: nat, j: nat, n: NodeId, k: StreamKey, o: NodeId)
    requires IsRun(run) && i <= j < |run| && n in run[i].nodes
    ensures n in run[j].nodes
    ensures Known(run[i].nodes[n].peers, k, o) <= Known(run[j].nodes[n].peers, k, o)
    ensures run[i].history <= run[j].history
    decreases j
  {
    hide *;
    if i < j {
      RunIsMonotone(run, i, j - 1, n, k, o);
      RunKeepsInv(run, j - 1);
      NextStep(run, j);
      NextIsMonotone(run[j - 1], run[j], n, k, o);
    }
  }

  /** Deletion safety: once a node holds a tombstone at version v, it never again holds a
      snapshot of version v or less for that origin and stream, whatever is resent. */
  lemma {:induction false} DeletedStaysDeleted(run: seq<State>, i: nat, j: nat, n: NodeId, k: StreamKey, o: NodeId, v: real)
    requires IsRun(run) && i <= j < |run| && n in run[i].nodes
    requires EntryAt(run[i].nodes[n].peers, k, o) == Some(Tombstone(v))
    ensures n in run[j].nodes && EntryAt(run[j].nodes[n].peers, k, o).Some?
    ensures var e := EntryAt(run[j].nodes[n].peers, k, o).value; e.version >= v && (e.Snapshot? ==> e.version > v)
  {
    hide EntryAt, Known, IsRun, ValidPeers;
    RunIsMonotone(run, i, j, n, k, o);
    RunKeepsInv(run, i);
    RunKeepsInv(run, j);
    var before, after := run[i].nodes[n].peers, run[j].nodes[n].peers;
    KnownIsEntryVersion(before, k, o);
    KnownIsEntryVersion(after, k, o);
    assert Fact(k, o, Tombstone(v)) in run[j].history;
    if EntryAt(after, k, o).value.version == v {
      assert Fact(k, o, EntryAt(after, k, o).value) == Fact(k, o, Tombstone(v));
    }
  }
}
