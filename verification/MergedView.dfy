/** The merged view of a stream: the node's own log and every peer log it holds, merged in
    whatever order the dictionary lists them. */
module MergedView {
  import opened Prelude
  import opened StreamLogs
  import opened PeerStore
  import opened Mesh
  import opened Exchange
  import CountMin

  /** The logs that make up a node's view of a stream, one per origin. */
  function Contributions(n: Node, k: StreamKey): map<NodeId, Log> {
    var held := Inner(n.peers.snapshots, k);
    var peers := map o | o in held :: held[o].log;
    if k in n.local then peers[n.id := n.local[k].log] else peers
  }

  /** Logs that can take part in a merge: well formed, representable, of one configuration. */
  ghost predicate Mergeable(c: Config, logs: map<NodeId, Log>) {
    ValidConfig(c) && forall o | o in logs :: logs[o].config == c && WellFormedLog(logs[o]) && FitsLog(logs[o])
  }

  function JoinAll(c: Config, logs: map<NodeId, Log>, order: seq<NodeId>): (l: Log)
    requires Mergeable(c, logs) && forall o | o in order :: o in logs
    ensures Shaped(l) && l.config == c
  {
    if order == [] then EmptyLog(c)
    else Join(JoinAll(c, logs, order[..|order| - 1]), logs[order[|order| - 1]])
  }

  /** Merging one after the other with every check; the first refusal ends it. */
  function MergeInOrder(c: Config, logs: map<NodeId, Log>, order: seq<NodeId>): (r: Option<Log>)
    requires Mergeable(c, logs) && forall o | o in order :: o in logs
    ensures r.Some? ==> Shaped(r.value) && r.value.config == c
  {
    if order == [] then Some(EmptyLog(c))
    else
      match MergeInOrder(c, logs, order[..|order| - 1])
      case None => None
      case Some(l) => CheckedMerge(l, logs[order[|order| - 1]])
  }

  lemma {:induction false} JoinAllWellFormed(c: Config, logs: map<NodeId, Log>, order: seq<NodeId>)
    requires Mergeable(c, logs) && forall o | o in order :: o in logs
    ensures WellFormedLog(JoinAll(c, logs, order))
  {
    hide WellFormedLog, Join, FitsLog;
    if order == [] {
      EmptyIsWellFormed(c);
    } else {
      JoinAllWellFormed(c, logs, order[..|order| - 1]);
      JoinWellFormed(JoinAll(c, logs, order[..|order| - 1]), logs[order[|order| - 1]]);
    }
  }

  lemma EmptyIsWellFormed(c: Config)
    requires ValidConfig(c)
    ensures WellFormedLog(EmptyLog(c)) && FitsLog(EmptyLog(c))
  {
    CountMin.EmptyWellFormed(c.width, c.depth);
  }

  /** The merge succeeds exactly when the unbounded sum of all logs is representable. */
  lemma {:induction false} MergeSucceedsWhenSumFits(c: Config, logs: map<NodeId, Log>, order: seq<NodeId>)
    requires Mergeable(c, logs) && forall o | o in order :: o in logs
    ensures MergeInOrder(c, logs, order)
         == if FitsLog(JoinAll(c, logs, order)) then Some(JoinAll(c, logs, order)) else None
  {
    hide WellFormedLog, Join, FitsLog;
    if order == [] {
      EmptyIsWellFormed(c);
    } else {
      var front, last := order[..|order| - 1], order[|order| - 1];
      MergeSucceedsWhenSumFits(c, logs, front);
      JoinAllWellFormed(c, logs, front);
      if FitsLog(JoinAll(c, logs, order)) {
        JoinFitsDown(JoinAll(c, logs, front), logs[last]);
      }
    }
  }

  lemma {:induction false} JoinAllAppends(c: Config, logs: map<NodeId, Log>, a: seq<NodeId>, b: seq<NodeId>)
    requires Mergeable(c, logs) && forall o | o in a + b :: o in logs
    ensures (forall o | o in a :: o in logs) && (forall o | o in b :: o in logs)
    ensures JoinAll(c, logs, a + b) == Join(JoinAll(c, logs, a), JoinAll(c, logs, b))
  {
    hide WellFormedLog, Join, FitsLog;
    assert (forall o | o in a :: o in a + b) && (forall o | o in b :: o in a + b);
    if b == [] {
      assert a + b == a;
      JoinAllWellFormed(c, logs, a);
      JoinEmpty(JoinAll(c, logs, a));
    } else {
      var front, last := b[..|b| - 1], b[|b| - 1];
      assert (a + b)[..|a + b| - 1] == a + front;
      assert forall o | o in a + front :: o in a + b;
      JoinAllAppends(c, logs, a, front);
      ShapedLog(c, logs, last);
      JoinAssociates(JoinAll(c, logs, a), JoinAll(c, logs, front), logs[last]);
    }
  }

  lemma ShapedLog(c: Config, logs: map<NodeId, Log>, o: NodeId)
    requires Mergeable(c, logs) && o in logs
    ensures Shaped(logs[o]) && logs[o].config == c
  {
  }

  lemma EmptyMerge(c: Config, logs: map<NodeId, Log>)
    requires Mergeable(c, logs)
    ensures MergeInOrder(c, logs, []) == Some(EmptyLog(c))
  {
  }

  lemma OneLog(c: Config, logs: map<NodeId, Log>, o: NodeId)
    requires Mergeable(c, logs) && o in logs
    ensures MergeInOrder(c, logs, [o]) == Some(logs[o])
  {
    hide Join, FitsLog, WellFormedLog;
    ShapedLog(c, logs, o);
    EmptyMerge(c, logs);
    JoinEmpty(logs[o]);
    JoinCommutes(logs[o], EmptyLog(c));
    assert [o][..0] == [];
  }

  /** The order in which a dictionary lists the origins does not matter. */
  lemma {:induction false} JoinAllIgnoresOrder(c: Config, logs: map<NodeId, Log>, xs: seq<NodeId>, ys: seq<NodeId>)
    requires Mergeable(c, logs) && (forall o | o in xs :: o in logs) && (forall o | o in ys :: o in logs)
    requires multiset(xs) == multiset(ys)
    ensures JoinAll(c, logs, xs) == JoinAll(c, logs, ys)
    decreases |xs|
  {
    hide WellFormedLog, Join, FitsLog;
    if xs == [] {
      assert |ys| == |multiset(ys)| == 0;
    } else {
      var last := [xs[|xs| - 1]];
      var a, b := SplitAtLast(xs, ys);
      assert xs == xs[..|xs| - 1] + last;
      assert (forall o | o in a + b :: o in ys) && (forall o | o in last + b :: o in ys) && (forall o | o in (a + b) + last :: o in ys);
      JoinAllIgnoresOrder(c, logs, xs[..|xs| - 1], a + b);
      JoinAllAppends(c, logs, xs[..|xs| - 1], last);
      JoinAllAppends(c, logs, a, last + b);
      JoinAllAppends(c, logs, last, b);
      JoinAllAppends(c, logs, a, b);
      JoinCommutes(JoinAll(c, logs, last), JoinAll(c, logs, b));
      JoinAssociates(JoinAll(c, logs, a), JoinAll(c, logs, b), JoinAll(c, logs, last));
    }
  }

  /** order lists every key of the logs exactly once. */
  ghost predicate Enumerates(order: seq<NodeId>, logs: map<NodeId, Log>) {
    (forall i, j | 0 <= i < j < |order| :: order[i] != order[j]) && forall o :: o in order <==> o in logs
  }

  lemma {:induction false} OnceEach(order: seq<NodeId>, o: NodeId)
    requires forall i, j | 0 <= i < j < |order| :: order[i] != order[j]
    ensures multiset(order)[o] == if o in order then 1 else 0
  {
    if order != [] {
      var front, last := order[..|order| - 1], order[|order| - 1];
      assert order == front + [last];
      OnceEach(front, o);
    }
  }

  lemma {:induction false} AnyOrderGivesTheSameView(c: Config, logs: map<NodeId, Log>, xs: seq<NodeId>, ys: seq<NodeId>)
    requires Mergeable(c, logs) && Enumerates(xs, logs) && Enumerates(ys, logs)
    ensures MergeInOrder(c, logs, xs) == MergeInOrder(c, logs, ys)
  {
    hide Mergeable, MergeInOrder, JoinAll, FitsLog;
    forall o ensures multiset(xs)[o] == multiset(ys)[o] { OnceEach(xs, o); OnceEach(ys, o); }
    assert multiset(xs) == multiset(ys);
    MergeSucceedsWhenSumFits(c, logs, xs);
    MergeSucceedsWhenSumFits(c, logs, ys);
    JoinAllIgnoresOrder(c, logs, xs, ys);
  }

  // ----- one view for both partners of an exchange -----

  lemma ContributionOfPeer(n: Node, k: StreamKey, o: NodeId)
    requires o != n.id
    ensures o in Contributions(n, k) <==> EntryAt(n.peers, k, o).Some? && EntryAt(n.peers, k, o).value.Snapshot?
    ensures o in Contributions(n, k) ==> Contributions(n, k)[o] == EntryAt(n.peers, k, o).value.log
  {
  }

  lemma ContributionOfSelf(n: Node, k: StreamKey)
    requires PositiveOwn(n) && !Has(n.peers.snapshots, k, n.id)
    ensures n.id in Contributions(n, k) <==> Published(n, k) > 0.0 && Answer(n, k, n.id).Snapshot?
    ensures n.id in Contributions(n, k) ==> Contributions(n, k)[n.id] == Answer(n, k, n.id).log
  {
  }

  /** The state an origin currently shows of its stream, if it ever published it. */
  function Current(n: Node, k: StreamKey): Option<Entry> {
    if Published(n, k) > 0.0 then Some(Answer(n, k, n.id)) else None
  }

  /** Two nodes that hold the same of every third party, and each the other's current state. */
  ghost predicate UpToDate(n: Node, m: Node, k: StreamKey) {
    && n.id != m.id && PositiveOwn(n) && PositiveOwn(m)
    && EntryAt(n.peers, k, n.id).None? && EntryAt(m.peers, k, m.id).None?
    && EntryAt(n.peers, k, m.id) == Current(m, k) && EntryAt(m.peers, k, n.id) == Current(n, k)
    && forall o | o != n.id && o != m.id :: EntryAt(n.peers, k, o) == EntryAt(m.peers, k, o)
  }

  lemma SameContribution(n: Node, m: Node, k: StreamKey, o: NodeId)
    requires UpToDate(n, m, k)
    ensures o in Contributions(n, k) <==> o in Contributions(m, k)
    ensures o in Contributions(n, k) ==> Contributions(n, k)[o] == Contributions(m, k)[o]
  {
    hide Contributions, Answer, Published, PositiveOwn;
    if o == n.id {
      NothingOfOneself(n, k);
      ContributionOfSelf(n, k);
      ContributionOfPeer(m, k, o);
    } else if o == m.id {
      NothingOfOneself(m, k);
      ContributionOfSelf(m, k);
      ContributionOfPeer(n, k, o);
    } else {
      ContributionOfPeer(n, k, o);
      ContributionOfPeer(m, k, o);
    }
  }

  lemma NothingOfOneself(n: Node, k: StreamKey)
    requires EntryAt(n.peers, k, n.id).None?
    ensures !Has(n.peers.snapshots, k, n.id)
  {
  }

  /** Two such nodes hold the same logs of the stream, each origin once. */
  lemma {:induction false} UpToDateSharesLogs(n: Node, m: Node, k: StreamKey)
    requires UpToDate(n, m, k)
    ensures Contributions(n, k) == Contributions(m, k)
  {
    hide UpToDate, Contributions;
    forall o
      ensures o in Contributions(n, k) <==> o in Contributions(m, k)
      ensures o in Contributions(n, k) ==> Contributions(n, k)[o] == Contributions(m, k)[o]
    {
      SameContribution(n, m, k, o);
    }
  }

  // ----- what a node shows -----

  const DEFAULT_CONFIG := Config(0.01, 10, 2048, 5)

  /** The configuration a node's view of a stream starts from: that of its own log, or the
      default one when it has no such stream. */
  function ViewConfig(n: Node, k: StreamKey): Config { if k in n.local then n.local[k].log.config else DEFAULT_CONFIG }

  /** Logs as they are counted, merged and restored, of whatever configuration. */
  ghost predicate SaneLogs(logs: map<NodeId, Log>) { forall o | o in logs :: WellFormedLog(logs[o]) && FitsLog(logs[o]) }

  ghost predicate Uniform(c: Config, logs: map<NodeId, Log>) { forall o | o in logs :: logs[o].config == c }

  /** What a node shows of a stream: refused when some log has another configuration than the
      one the view starts from, else the merge of its logs in every order. */
  ghost predicate IsView(n: Node, k: StreamKey, r: Option<Log>) {
    var c, logs := ViewConfig(n, k), Contributions(n, k);
    if Uniform(c, logs)
    then Mergeable(c, logs) && forall order | Enumerates(order, logs) :: r == MergeInOrder(c, logs, order)
    else r.None?
  }

  /** Logs of one configuration whose sum is representable. */
  ghost predicate SumFits(c: Config, logs: map<NodeId, Log>) {
    && Uniform(c, logs) && Mergeable(c, logs)
    && forall order | Enumerates(order, logs) :: FitsLog(JoinAll(c, logs, order))
  }

  /** One node has the stream itself and the other has not, and all logs have its configuration,
      which is not the default one, and a representable sum. */
  ghost predicate OneSided(n: Node, m: Node, k: StreamKey) {
    && (k in n.local) != (k in m.local)
    && var c := ViewConfig(if k in n.local then n else m, k);
      c != DEFAULT_CONFIG && SumFits(c, Contributions(n, k))
  }

  lemma {:induction false} SomeOrder(keys: set<NodeId>) returns (order: seq<NodeId>)
    ensures (forall i, j | 0 <= i < j < |order| :: order[i] != order[j]) && forall o :: o in order <==> o in keys
  {
    if keys == {} {
      order := [];
    } else {
      var last := Pick(keys);
      var front := SomeOrder(keys - {last});
      order := front + [last];
    }
  }

  /** A view is shown exactly when all logs have the configuration it starts from and a
      representable sum, which is then shown. */
  lemma {:induction false} ViewIsShown(n: Node, k: StreamKey, r: Option<Log>)
    requires IsView(n, k, r)
    ensures r.Some? <==> SumFits(ViewConfig(n, k), Contributions(n, k))
  {
    hide Contributions, Mergeable, MergeInOrder, JoinAll, FitsLog, ViewConfig;
    var c, logs := ViewConfig(n, k), Contributions(n, k);
    if Uniform(c, logs) {
      var xs := SomeOrder(logs.Keys);
      assert Enumerates(xs, logs);
      forall order | Enumerates(order, logs) ensures r.Some? <==> FitsLog(JoinAll(c, logs, order)) {
        MergeSucceedsWhenSumFits(c, logs, order);
      }
    }
  }

  /** A node's own log is of the configuration its view starts from. */
  lemma OwnConfig(n: Node, k: StreamKey)
    requires k in n.local
    ensures n.id in Contributions(n, k) && Contributions(n, k)[n.id].config == ViewConfig(n, k)
  {
  }

  /** Views that start from one configuration and are of the same logs are the same. */
  lemma SameStartSameView(n: Node, m: Node, k: StreamKey, rn: Option<Log>, rm: Option<Log>)
    requires Contributions(n, k) == Contributions(m, k) && ViewConfig(n, k) == ViewConfig(m, k)
    requires IsView(n, k, rn) && IsView(m, k, rm)
    ensures rn == rm
  {
    hide Contributions, Mergeable, MergeInOrder, ViewConfig;
    var xs := SomeOrder(Contributions(n, k).Keys);
    assert Enumerates(xs, Contributions(n, k));
  }

  /** A configuration the logs do not share leaves nothing to show. */
  lemma OtherStartNoView(n: Node, k: StreamKey, o: NodeId, r: Option<Log>)
    requires IsView(n, k, r) && o in Contributions(n, k) && Contributions(n, k)[o].config != ViewConfig(n, k)
    ensures r.None?
  {
    hide Contributions, ViewConfig;
  }

  /** Convergence of the merged view: two nodes that hold the same of every third party, and
      each the other's current state, show the same, whether a log or a refusal, if and only if
      the stream is not one-sided between them. */
  lemma {:induction false} UpToDateGivesOneView(n: Node, m: Node, k: StreamKey, rn: Option<Log>, rm: Option<Log>)
    requires UpToDate(n, m, k) && IsView(n, k, rn) && IsView(m, k, rm)
    ensures rn == rm <==> !OneSided(n, m, k)
  {
    hide UpToDate, Contributions, IsView, SumFits, ViewConfig;
    UpToDateSharesLogs(n, m, k);
    ViewIsShown(n, k, rn);
    ViewIsShown(m, k, rm);
    if k in n.local { OwnConfig(n, k); }
    if k in m.local { OwnConfig(m, k); }
    Starts(n, k);
    Starts(m, k);
    if ViewConfig(n, k) == ViewConfig(m, k) {
      SameStartSameView(n, m, k, rn, rm);
    } else {
      if k in n.local { OtherStartNoView(m, k, n.id, rm); }
      if k in m.local { OtherStartNoView(n, k, m.id, rn); }
    }
  }

  lemma Starts(n: Node, k: StreamKey)
    ensures k !in n.local ==> ViewConfig(n, k) == DEFAULT_CONFIG
  {
  }

  /** An example: an empty stream of another configuration, at the node that has it and at one
      that holds its snapshot. */
  function FewBuckets(): Log { EmptyLog(Config(0.5, 4, 1, 1)) }

  function Holder(k: StreamKey): Node { Node("a", map[k := Versioned(FewBuckets(), 1.0)], map[], NoPeers()) }

  function Follower(k: StreamKey): Node {
    Node("b", map[], map[], Peers(map[k := map["a" := Versioned(FewBuckets(), 1.0)]], map[]))
  }

  /** The two are up to date, and one of them shows the stream while the other refuses to. */
  lemma {:induction false} OneSidedView(k: StreamKey)
    ensures UpToDate(Holder(k), Follower(k), k) && OneSided(Holder(k), Follower(k), k)
    ensures IsView(Holder(k), k, Some(FewBuckets())) && IsView(Follower(k), k, None)
  {
    hide MergeInOrder, JoinAll, FitsLog, WellFormedLog;
    var n, m, c := Holder(k), Follower(k), FewBuckets().config;
    var logs := Contributions(n, k);
    assert logs == map["a" := FewBuckets()] && Contributions(m, k) == logs;
    EmptyIsWellFormed(c);
    assert Uniform(c, logs) && Mergeable(c, logs);
    forall order | Enumerates(order, logs)
      ensures MergeInOrder(c, logs, order) == Some(FewBuckets()) && FitsLog(JoinAll(c, logs, order))
    {
      OnlyOne(order, "a", logs);
      OneLog(c, logs, "a");
      MergeSucceedsWhenSumFits(c, logs, order);
    }
    assert logs["a"].config != DEFAULT_CONFIG;
  }

  lemma {:induction false} OnlyOne(order: seq<NodeId>, o: NodeId, logs: map<NodeId, Log>)
    requires Enumerates(order, logs) && logs.Keys == {o}
    ensures order == [o]
  {
    assert o in logs && o in order;
    forall i | 0 <= i < |order| ensures order[i] == o { assert order[i] in order; }
    assert order[0] == order[|order| - 1];
  }

  // ----- after any deliveries -----

  /** Among the facts a node was delivered, an origin's current state is the newest one. */
  ghost predicate DeliveredCurrent(fs: seq<Fact>, origin: Node, k: StreamKey) {
    match Current(origin, k)
    case None => forall f | f in fs :: !(f.stream == k && f.origin == origin.id)
    case Some(e) =>
      && Fact(k, origin.id, e) in fs
      && forall f | f in fs && f.stream == k && f.origin == origin.id :: f.entry == e || f.entry.version < e.version
  }

  lemma {:induction false} DeliveredIsHeld(fs: seq<Fact>, origin: Node, k: StreamKey)
    requires Room(NoPeers(), fs) && PositiveVersions(fs) && DeliveredCurrent(fs, origin, k)
    ensures EntryAt(InstallAll(NoPeers(), fs), k, origin.id) == Current(origin, k)
  {
    hide InstallAll, EntryAt, Room, Current, ValidPeers;
    NothingHeld(k, origin.id);
    HoldsNewest(NoPeers(), fs, k, origin.id);
    var r := EntryAt(InstallAll(NoPeers(), fs), k, origin.id);
    if r.Some? { assert Fact(k, origin.id, r.value) in fs; }
  }

  lemma {:induction false} NotDelivered(fs: seq<Fact>, k: StreamKey, o: NodeId)
    requires Room(NoPeers(), fs) && PositiveVersions(fs) && forall f | f in fs :: f.origin != o
    ensures EntryAt(InstallAll(NoPeers(), fs), k, o).None?
  {
    hide InstallAll, EntryAt, Room, ValidPeers;
    NothingHeld(k, o);
    HoldsNewest(NoPeers(), fs, k, o);
  }

  /** Two nodes were delivered the same facts about third parties, in any order and any number
      of times, and nothing about themselves. */
  ghost predicate DeliveredAlike(a: NodeId, b: NodeId, fs: seq<Fact>, gs: seq<Fact>) {
    && Room(NoPeers(), fs) && Room(NoPeers(), gs) && PositiveVersions(fs) && PositiveVersions(gs) && Coherent(fs)
    && (forall f | f in fs :: f.origin != a) && (forall g | g in gs :: g.origin != b)
    && forall f: Fact | f.origin != a && f.origin != b :: f in fs <==> f in gs
  }

  lemma {:induction false} DeliveriesBringUpToDate(n: Node, m: Node, fs: seq<Fact>, gs: seq<Fact>, k: StreamKey)
    requires n.id != m.id && PositiveOwn(n) && PositiveOwn(m)
    requires n.peers == InstallAll(NoPeers(), fs) && m.peers == InstallAll(NoPeers(), gs)
    requires DeliveredAlike(n.id, m.id, fs, gs) && DeliveredCurrent(fs, m, k) && DeliveredCurrent(gs, n, k)
    ensures UpToDate(n, m, k)
  {
    hide InstallAll, EntryAt, Room, Current, DeliveredCurrent, PositiveOwn, Coherent;
    DeliveredIsHeld(fs, m, k);
    DeliveredIsHeld(gs, n, k);
    NotDelivered(fs, k, n.id);
    NotDelivered(gs, k, m.id);
    forall o | o != n.id && o != m.id ensures EntryAt(n.peers, k, o) == EntryAt(m.peers, k, o) {
      SameDeliveriesSameEntries(n.id, m.id, fs, gs, k, o);
    }
  }

  /** ... and show one view once each was also delivered the other's current state, unless the
      stream is one-sided. */
  lemma {:induction false} DeliveriesGiveOneView(n: Node, m: Node, fs: seq<Fact>, gs: seq<Fact>, k: StreamKey,
    rn: Option<Log>, rm: Option<Log>)
    requires n.id != m.id && PositiveOwn(n) && PositiveOwn(m)
    requires n.peers == InstallAll(NoPeers(), fs) && m.peers == InstallAll(NoPeers(), gs)
    requires DeliveredAlike(n.id, m.id, fs, gs) && DeliveredCurrent(fs, m, k) && DeliveredCurrent(gs, n, k)
    requires IsView(n, k, rn) && IsView(m, k, rm)
    ensures rn == rm <==> !OneSided(n, m, k)
  {
    hide InstallAll, DeliveredAlike, DeliveredCurrent, PositiveOwn, UpToDate, IsView, OneSided;
    DeliveriesBringUpToDate(n, m, fs, gs, k);
    UpToDateGivesOneView(n, m, k, rn, rm);
  }

  // ----- after an exchange -----

  /** After an exchange a node holds nothing under an invalid origin name. */
  lemma {:induction false} OnlyValidOrigins(s: State, n: NodeId, fs: seq<Fact>, k: StreamKey, o: NodeId)
    requires Inv(s) && n in s.nodes && Room(s.nodes[n].peers, Accepted(s.nodes[n], fs))
    requires PositiveVersions(Accepted(s.nodes[n], fs)) && (!ValidName(o) || o == n)
    ensures EntryAt(ReceiveAll(s.nodes[n], fs).peers, k, o).None?
  {
    hide InstallAll, EntryAt, Known, ValidPeers, Room, Accepted, ValidName;
    var node := s.nodes[n];
    ReceivingInstalls(node, fs);
    HoldsNewest(node.peers, Accepted(node, fs), k, o);
    var r := EntryAt(InstallAll(node.peers, Accepted(node, fs)), k, o);
    if r.Some? && EntryAt(node.peers, k, o) != r { AcceptedKeeps(node, fs, Fact(k, o, r.value)); }
  }

  /** Receiving leaves a node's own state alone. */
  lemma {:induction false} OwnStateKept(n: Node, fs: seq<Fact>, k: StreamKey)
    ensures var n' := ReceiveAll(n, fs);
      n'.id == n.id && Current(n', k) == Current(n, k) && (PositiveOwn(n) ==> PositiveOwn(n'))
  {
    hide InstallAll, Accepted;
    ReceivingInstalls(n, fs);
  }

  /** Partners of a complete exchange that withheld nothing of the stream are up to date. */
  lemma {:induction false} ExchangeBringsUpToDate(s: State, a: NodeId, dead: set<NodeId>, b: NodeId, offers: seq<Fact>, answers: seq<Fact>,
    a': Node, b': Node, k: StreamKey)
    requires Partners(s, a, b) && Exchanged(s.nodes[a], dead, s.nodes[b], offers, answers, a', b')
    requires ValidStreamKey(k) && ValidName(a) && ValidName(b) && forall o :: !Withheld(s.nodes[a], dead, k, o)
    ensures UpToDate(a', b', k)
  {
    hide EntryAt, Known, ValidPeers, Answer, Published, Withheld, HistoryIsCoherent, Room, Accepted, ReceiveAll, PositiveOwn, DigestVersion;
    OffersArePositive(s, a, dead, b, offers, answers, a', b');
    AnswersArePositive(s, a, dead, b, offers, answers, a', b');
    OwnStateKept(s.nodes[a], offers, k);
    OwnStateKept(s.nodes[b], answers, k);
    ExchangeSharesOwnState(s, a, dead, b, offers, answers, a', b', k);
    OnlyValidOrigins(s, a, offers, k, a);
    OnlyValidOrigins(s, b, answers, k, b);
    forall o | o != a && o != b ensures EntryAt(a'.peers, k, o) == EntryAt(b'.peers, k, o) {
      if ValidName(o) {
        ExchangeAgreesOnThirdParties(s, a, dead, b, offers, answers, a', b', k, o);
      } else {
        OnlyValidOrigins(s, a, offers, k, o);
        OnlyValidOrigins(s, b, answers, k, o);
      }
    }
  }

  /** ... so they show one view of it, unless it is one-sided. */
  lemma {:induction false} ExchangeGivesOneView(s: State, a: NodeId, dead: set<NodeId>, b: NodeId, offers: seq<Fact>, answers: seq<Fact>,
    a': Node, b': Node, k: StreamKey, ra: Option<Log>, rb: Option<Log>)
    requires Partners(s, a, b) && Exchanged(s.nodes[a], dead, s.nodes[b], offers, answers, a', b')
    requires ValidStreamKey(k) && ValidName(a) && ValidName(b) && forall o :: !Withheld(s.nodes[a], dead, k, o)
    requires IsView(a', k, ra) && IsView(b', k, rb)
    ensures ra == rb <==> !OneSided(a', b', k)
  {
    hide Exchanged, Inv, UpToDate, Withheld, IsView, OneSided;
    ExchangeBringsUpToDate(s, a, dead, b, offers, answers, a', b', k);
    UpToDateGivesOneView(a', b', k, ra, rb);
  }

  // ----- what the view counts -----

  function AllEvents(histories: map<NodeId, seq<Event>>, order: seq<NodeId>): seq<Event>
    requires forall o | o in order :: o in histories
  {
    if order == [] then [] else AllEvents(histories, order[..|order| - 1]) + histories[order[|order| - 1]]
  }

  /** The view of origins that each counted their own events is the log of all their
      events together, every origin's counted exactly once; it is refused exactly when one
      node counting them all would have refused one. */
  lemma {:induction false} ViewCountsEveryEventOnce(c: Config, h: CountMin.Hash, logs: map<NodeId, Log>,
    histories: map<NodeId, seq<Event>>, order: seq<NodeId>)
    requires Mergeable(c, logs) && (forall o | o in order :: o in logs && o in histories)
    requires forall o | o in order :: RunAccepts(c, h, histories[o]) && logs[o] == OfEvents(c, h, histories[o])
    ensures MergeInOrder(c, logs, order)
         == if RunAccepts(c, h, AllEvents(histories, order)) then Some(OfEvents(c, h, AllEvents(histories, order))) else None
  {
    hide RunAccepts, OfEvents, CheckedMerge, FitsLog, WellFormedLog;
    if order == [] {
      EmptyHistory(c, h);
    } else {
      var front, last := order[..|order| - 1], order[|order| - 1];
      ViewCountsEveryEventOnce(c, h, logs, histories, front);
      var es := AllEvents(histories, front);
      if RunAccepts(c, h, es) {
        MergeIsReplay(c, h, es, histories[last]);
      } else {
        RefusedStaysRefused(c, h, es, histories[last]);
      }
    }
  }

  lemma EmptyHistory(c: Config, h: CountMin.Hash)
    requires ValidConfig(c)
    ensures RunAccepts(c, h, []) && OfEvents(c, h, []) == EmptyLog(c)
  {
  }

  lemma {:induction false} RefusedStaysRefused(c: Config, h: CountMin.Hash, xs: seq<Event>, ys: seq<Event>)
    requires ValidConfig(c) && !RunAccepts(c, h, xs) && RunAccepts(c, h, ys)
    ensures !RunAccepts(c, h, xs + ys)
  {
    hide RunAccepts, OfEvents, FitsLog, Join;
    AcceptanceIsFinal(c, h, xs);
    AcceptanceIsFinal(c, h, ys);
    AcceptanceIsFinal(c, h, xs + ys);
    if RunAccepts(c, h, xs + ys) {
      assert forall e | e in xs :: e in xs + ys;
      HistoriesJoin(c, h, xs, ys);
      OfEventsWellFormed(c, h, xs);
      OfEventsWellFormed(c, h, ys);
      JoinFitsDown(OfEvents(c, h, xs), OfEvents(c, h, ys));
    }
  }
}
