/** One node of the mesh as the object it is: membership, peer state, deletions and the
    digest exchange, each method tied to the value it computes. */
module ClusterManagers {
  import opened Prelude
  import opened StreamLogs
  import opened PeerStore
  import opened Mesh
  import opened Exchange
  import opened MergedView
  import opened Digests
  import opened KeyTexts
  import opened ReplySizes
  import GB = GossipBudget
  import MB = Membership

  // ----- how large a digest is -----

  /** The streams a node's digest lists. */
  function ListedStreams(n: Node): set<StreamKey> { n.local.Keys + n.tombstones.Keys + KnownStreams(n.peers) }

  /** The origins it lists of a stream. */
  function ListedOrigins(n: Node, dead: set<NodeId>, k: StreamKey): set<NodeId> {
    (if k in n.local || k in n.tombstones then {n.id} else {}) + (Inner(n.peers.snapshots, k).Keys - dead) + Inner(n.peers.tombstones, k).Keys
  }

  // What a version vector lists while some streams are still to be visited.

  function OwnListed(n: Node, todo: set<StreamKey>, k: StreamKey, o: NodeId): real {
    if o != n.id then 0.0 else if k in todo then LocalVersion(n, k) else Published(n, k)
  }

  ghost predicate OwnSoFar(n: Node, todo: set<StreamKey>, vv: Versions) {
    && vv.Keys == n.local.Keys + (n.tombstones.Keys - todo)
    && (forall k | k in vv :: vv[k].Keys == {n.id})
    && forall k, o :: VersionIn(vv, k, o) == OwnListed(n, todo, k, o)
  }

  lemma OwnStart(n: Node, vv: Versions)
    requires PositiveOwn(n) && vv == map k | k in n.local :: map[n.id := n.local[k].version]
    ensures OwnSoFar(n, n.tombstones.Keys, vv)
  {
  }

  lemma OwnStep(n: Node, todo: set<StreamKey>, vv: Versions, k: StreamKey)
    requires OwnSoFar(n, todo, vv) && k in todo && todo <= n.tombstones.Keys
    ensures var version := Max(n.tombstones[k], VersionIn(vv, k, n.id));
      OwnSoFar(n, todo - {k}, vv[k := (if k in vv then vv[k] else map[])[n.id := version]])
  {
    var version := Max(n.tombstones[k], VersionIn(vv, k, n.id));
    var row := (if k in vv then vv[k] else map[])[n.id := version];
    forall k', o ensures VersionIn(vv[k := row], k', o) == OwnListed(n, todo - {k}, k', o) {
      OneRow(vv, k, row, k', o);
      assert VersionIn(vv, k', o) == OwnListed(n, todo, k', o);
      assert VersionIn(vv, k, n.id) == OwnListed(n, todo, k, n.id);
    }
  }

  function PeersListed(n: Node, dead: set<NodeId>, todo: set<StreamKey>, left: set<StreamKey>, k: StreamKey, o: NodeId): real {
    if o == n.id then Published(n, k)
    else Max(if k in todo || o in dead then 0.0 else SnapshotVersion(n.peers, k, o), if k in left then 0.0 else TombstoneVersion(n.peers, k, o))
  }

  function RowAt(n: Node, dead: set<NodeId>, todo: set<StreamKey>, left: set<StreamKey>, k: StreamKey): set<NodeId> {
    (if k in n.local || k in n.tombstones then {n.id} else {})
    + (if k in todo then {} else Inner(n.peers.snapshots, k).Keys - dead) + if k in left then {} else Inner(n.peers.tombstones, k).Keys
  }

  /** Snapshots of some streams and tombstones of some are still to be listed. */
  ghost predicate PeersSoFar(n: Node, dead: set<NodeId>, todo: set<StreamKey>, left: set<StreamKey>, vv: Versions) {
    && vv.Keys == n.local.Keys + n.tombstones.Keys + (n.peers.snapshots.Keys - todo) + (n.peers.tombstones.Keys - left)
    && (forall k | k in vv :: vv[k].Keys == RowAt(n, dead, todo, left, k))
    && forall k, o :: VersionIn(vv, k, o) == PeersListed(n, dead, todo, left, k, o)
  }

  lemma PeersStart(n: Node, dead: set<NodeId>, vv: Versions)
    requires OwnSoFar(n, {}, vv)
    ensures PeersSoFar(n, dead, n.peers.snapshots.Keys, n.peers.tombstones.Keys, vv)
  {
    hide Published, OwnListed, PeersListed, VersionIn, RowAt;
    var todo, left := n.peers.snapshots.Keys, n.peers.tombstones.Keys;
    forall k ensures RowAt(n, dead, todo, left, k) == if k in n.local || k in n.tombstones then {n.id} else {} { NoRows(n, dead, k); }
    forall k, o ensures PeersListed(n, dead, todo, left, k, o) == OwnListed(n, {}, k, o) { NothingOfPeers(n, dead, k, o); }
  }

  lemma NoRows(n: Node, dead: set<NodeId>, k: StreamKey)
    ensures RowAt(n, dead, n.peers.snapshots.Keys, n.peers.tombstones.Keys, k) == if k in n.local || k in n.tombstones then {n.id} else {}
  {
  }

  lemma NothingOfPeers(n: Node, dead: set<NodeId>, k: StreamKey, o: NodeId)
    ensures PeersListed(n, dead, n.peers.snapshots.Keys, n.peers.tombstones.Keys, k, o) == OwnListed(n, {}, k, o)
  {
    hide Published;
  }

  /** A row of the snapshots of one stream laid over what was listed of it. */
  ghost predicate SnapshotRow(n: Node, dead: set<NodeId>, vv: Versions, k: StreamKey, row: map<NodeId, real>) {
    && (forall o :: o in row <==> (k in vv && o in vv[k]) || (Has(n.peers.snapshots, k, o) && o !in dead))
    && forall o | o in row ::
      row[o] == if Has(n.peers.snapshots, k, o) && o !in dead then n.peers.snapshots[k][o].version else VersionIn(vv, k, o)
  }

  lemma SnapshotStep(n: Node, dead: set<NodeId>, todo: set<StreamKey>, vv: Versions, k: StreamKey, row: map<NodeId, real>)
    requires PeersSoFar(n, dead, todo, n.peers.tombstones.Keys, vv) && k in todo && todo <= n.peers.snapshots.Keys
    requires !Has(n.peers.snapshots, k, n.id) && forall o :: SnapshotVersion(n.peers, k, o) >= 0.0
    requires SnapshotRow(n, dead, vv, k, row)
    ensures PeersSoFar(n, dead, todo - {k}, n.peers.tombstones.Keys, vv[k := row])
  {
    hide PeersListed, RowAt, SnapshotRow, VersionIn;
    var more, left := vv[k := row], n.peers.tombstones.Keys;
    forall k', o ensures VersionIn(more, k', o) == PeersListed(n, dead, todo - {k}, left, k', o) {
      assert VersionIn(vv, k', o) == PeersListed(n, dead, todo, left, k', o);
      SnapshotListed(n, dead, todo, left, vv, k, row, k', o);
    }
    forall k' | k' in more ensures more[k'].Keys == RowAt(n, dead, todo - {k}, left, k') {
      if k' == k { SnapshotRowKeys(n, dead, todo, left, vv, k, row); } else { OtherRow(n, dead, todo, left, k, k'); }
    }
  }

  lemma SnapshotListed(n: Node, dead: set<NodeId>, todo: set<StreamKey>, left: set<StreamKey>, vv: Versions, k: StreamKey,
    row: map<NodeId, real>, k': StreamKey, o: NodeId)
    requires VersionIn(vv, k', o) == PeersListed(n, dead, todo, left, k', o)
    requires k in todo && !Has(n.peers.snapshots, k, n.id) && SnapshotVersion(n.peers, k, o) >= 0.0
    requires left == n.peers.tombstones.Keys && SnapshotRow(n, dead, vv, k, row)
    ensures VersionIn(vv[k := row], k', o) == PeersListed(n, dead, todo - {k}, left, k', o)
  {
    hide Published;
    OneRow(vv, k, row, k', o);
    if k' == k { assert o in row <==> (k in vv && o in vv[k]) || (Has(n.peers.snapshots, k, o) && o !in dead); }
  }

  lemma SnapshotRowKeys(n: Node, dead: set<NodeId>, todo: set<StreamKey>, left: set<StreamKey>, vv: Versions, k: StreamKey, row: map<NodeId, real>)
    requires (k in vv ==> vv[k].Keys == RowAt(n, dead, todo, left, k)) && k in todo && k in n.peers.snapshots
    requires k !in vv ==> k !in n.local && k !in n.tombstones && (k in n.peers.tombstones ==> k in left)
    requires SnapshotRow(n, dead, vv, k, row)
    ensures row.Keys == RowAt(n, dead, todo - {k}, left, k)
  {
    assert forall o :: o in row.Keys <==> (k in vv && o in vv[k].Keys) || (Has(n.peers.snapshots, k, o) && o !in dead);
  }

  lemma OtherRow(n: Node, dead: set<NodeId>, todo: set<StreamKey>, left: set<StreamKey>, k: StreamKey, k': StreamKey)
    requires k' != k
    ensures RowAt(n, dead, todo - {k}, left, k') == RowAt(n, dead, todo, left, k') == RowAt(n, dead, todo, left - {k}, k')
  {
  }

  /** A row of the tombstones of one stream laid over what was listed of it. */
  ghost predicate TombstoneRow(n: Node, vv: Versions, k: StreamKey, row: map<NodeId, real>) {
    && (forall o :: o in row <==> (k in vv && o in vv[k]) || Has(n.peers.tombstones, k, o))
    && forall o | o in row ::
      row[o] == if Has(n.peers.tombstones, k, o) then Max(n.peers.tombstones[k][o], VersionIn(vv, k, o)) else VersionIn(vv, k, o)
  }

  lemma TombstoneStep(n: Node, dead: set<NodeId>, left: set<StreamKey>, vv: Versions, k: StreamKey, row: map<NodeId, real>)
    requires PeersSoFar(n, dead, {}, left, vv) && k in left && left <= n.peers.tombstones.Keys
    requires !Has(n.peers.tombstones, k, n.id)
    requires forall o :: SnapshotVersion(n.peers, k, o) >= 0.0 && TombstoneVersion(n.peers, k, o) >= 0.0
    requires TombstoneRow(n, vv, k, row)
    ensures PeersSoFar(n, dead, {}, left - {k}, vv[k := row])
  {
    hide PeersListed, RowAt, TombstoneRow, VersionIn;
    var more := vv[k := row];
    forall k', o ensures VersionIn(more, k', o) == PeersListed(n, dead, {}, left - {k}, k', o) {
      assert VersionIn(vv, k', o) == PeersListed(n, dead, {}, left, k', o);
      TombstoneListed(n, dead, left, vv, k, row, k', o);
    }
    forall k' | k' in more ensures more[k'].Keys == RowAt(n, dead, {}, left - {k}, k') {
      if k' == k { TombstoneRowKeys(n, dead, left, vv, k, row); } else { OtherRow(n, dead, {}, left, k, k'); }
    }
  }

  lemma TombstoneListed(n: Node, dead: set<NodeId>, left: set<StreamKey>, vv: Versions, k: StreamKey,
    row: map<NodeId, real>, k': StreamKey, o: NodeId)
    requires VersionIn(vv, k', o) == PeersListed(n, dead, {}, left, k', o)
    requires k in left && !Has(n.peers.tombstones, k, n.id)
    requires SnapshotVersion(n.peers, k, o) >= 0.0 && TombstoneVersion(n.peers, k, o) >= 0.0
    requires TombstoneRow(n, vv, k, row)
    ensures VersionIn(vv[k := row], k', o) == PeersListed(n, dead, {}, left - {k}, k', o)
  {
    hide Published;
    OneRow(vv, k, row, k', o);
    if k' == k { assert o in row <==> (k in vv && o in vv[k]) || Has(n.peers.tombstones, k, o); }
  }

  lemma TombstoneRowKeys(n: Node, dead: set<NodeId>, left: set<StreamKey>, vv: Versions, k: StreamKey, row: map<NodeId, real>)
    requires (k in vv ==> vv[k].Keys == RowAt(n, dead, {}, left, k)) && k in left && k in n.peers.tombstones
    requires k !in vv ==> k !in n.local && k !in n.tombstones && k !in n.peers.snapshots
    requires TombstoneRow(n, vv, k, row)
    ensures row.Keys == RowAt(n, dead, {}, left - {k}, k)
  {
    assert forall o :: o in row.Keys <==> (k in vv && o in vv[k].Keys) || Has(n.peers.tombstones, k, o);
  }

  lemma PeersEnd(n: Node, dead: set<NodeId>, vv: Versions)
    requires PeersSoFar(n, dead, {}, {}, vv)
    ensures forall k, o :: VersionIn(vv, k, o) == DigestVersion(n, dead, k, o)
    ensures vv.Keys == ListedStreams(n) && forall k | k in vv :: vv[k].Keys == ListedOrigins(n, dead, k)
  {
    hide Published;
  }

  function Get0(row: map<NodeId, real>, o: NodeId): real { if o in row then row[o] else 0.0 }

  /** Drops an origin from every stream; streams left empty stay listed. */
  function WithoutOrigins(m: map<StreamKey, map<NodeId, Versioned>>, gone: set<NodeId>): map<StreamKey, map<NodeId, Versioned>> {
    map k | k in m :: m[k] - gone
  }

  lemma WithoutNone(m: map<StreamKey, map<NodeId, Versioned>>)
    ensures WithoutOrigins(m, {}) == m
  {
    forall k | k in m ensures m[k] - {} == m[k] { }
  }

  lemma WithoutIs(m: map<StreamKey, map<NodeId, Versioned>>, gone: set<NodeId>, k: StreamKey, o: NodeId)
    ensures var r := WithoutOrigins(m, gone);
      && (Has(r, k, o) <==> Has(m, k, o) && o !in gone)
      && (Has(r, k, o) ==> r[k][o] == m[k][o])
  {
  }

  lemma WithoutOneMore(m: map<StreamKey, map<NodeId, Versioned>>, gone: set<NodeId>, o: NodeId)
    ensures WithoutOrigins(WithoutOrigins(m, gone), {o}) == WithoutOrigins(m, gone + {o})
  {
    forall k | k in m ensures (m[k] - gone) - {o} == m[k] - (gone + {o}) { }
  }

  class ClusterManager {
    const nodeId: NodeId
    const allowed: set<string>
    const maxLocalTombstones: nat
    const heartbeatTimeout: real
    var incarnation: int
    var members: map<NodeId, MB.Member>
    var streams: map<StreamKey, Versioned>  // what the registry holds
    var peerSnapshots: map<StreamKey, map<NodeId, Versioned>>
    var peerTombstones: map<StreamKey, map<NodeId, real>>
    var localTombstones: map<StreamKey, real>

    function Table(): MB.Table
      reads this
    {
      MB.Table(nodeId, allowed, incarnation, members)
    }

    function AsNode(): Node
      reads this
    {
      Node(nodeId, streams, localTombstones, Peers(peerSnapshots, peerTombstones))
    }

    constructor (nodeId: NodeId, address: string, allowed: set<string>, maxLocalTombstones: nat, heartbeatTimeout: real, now: real)
      ensures AsNode() == Node(nodeId, map[], map[], NoPeers())
      ensures Table() == MB.Table(nodeId, allowed, 0, map[nodeId := MB.Member(address, MB.Alive, 0, now, false)])
      ensures MB.ListsItself(Table())
      ensures this.maxLocalTombstones == maxLocalTombstones && this.heartbeatTimeout == heartbeatTimeout
    {
      this.nodeId, this.allowed := nodeId, allowed;
      this.maxLocalTombstones, this.heartbeatTimeout := maxLocalTombstones, heartbeatTimeout;
      incarnation := 0;
      members := map[nodeId := MB.Member(address, MB.Alive, 0, now, false)];
      streams, peerSnapshots, peerTombstones, localTombstones := map[], map[], map[], map[];
    }

    // ----- membership -----

    /** Takes in a list of rumours one by one. */
    method MergeMembership(incoming: seq<MB.Rumour>, now: real)
      requires nodeId in members
      modifies this`incarnation, this`members
      ensures Table() == MB.Merged(old(Table()), incoming, now)
    {
      hide MB.MergeOne;
      ghost var before := Table();
      for i := 0 to |incoming|
        invariant nodeId in members
        invariant Table() == MB.Merged(before, incoming[..i], now)
      {
        assert incoming[..i + 1][..i] == incoming[..i];
        MergeRumour(incoming[i], now);
      }
      assert incoming[..|incoming|] == incoming;
    }

    method MergeRumour(r: MB.Rumour, now: real)
      requires nodeId in members
      modifies this`incarnation, this`members
      ensures Table() == MB.MergeOne(old(Table()), r, now) && nodeId in members
    {
      var nid, info := r.about, r.report;
      if !ValidName(nid) || info.NotAnObject? || info.status.None? || info.incarnation.None? || info.incarnation.value < 0 {
        return;
      }
      var status, number := info.status.value, info.incarnation.value;
      if nid == nodeId {
        if !status.Alive? && number >= incarnation {
          incarnation := number + 1;
          members := members[nodeId := members[nodeId].(incarnation := incarnation, lastUpdated := now)];
        }
        return;
      }
      if info.address.None? || (info.address.value != "" && info.address.value !in allowed) { return; }
      var record := MB.Member(info.address.value, status, number, now, info.isSeed);
      if nid !in members {
        if |members| < MB.MAX_MEMBERS { members := members[nid := record]; }
      } else if number > members[nid].incarnation {
        members := members[nid := record];
      } else if number == members[nid].incarnation && members[nid].status.Alive? && !status.Alive? {
        members := members[nid := members[nid].(status := status, lastUpdated := now)];
      } else {
        assert members[nid := members[nid]] == members;
      }
    }

    method PingFailed(nid: NodeId, now: real)
      modifies this`members
      ensures Table() == MB.Suspected(old(Table()), nid, now)
      ensures members.Keys == old(members.Keys)
      ensures forall n | n in members && n != nid :: members[n] == old(members)[n]
      ensures nid in members ==>
        var m := old(members)[nid];
        members[nid] == if m.status == MB.Alive then m.(status := MB.Suspect, lastUpdated := now) else m
    {
      if nid in members && members[nid].status.Alive? {
        members := members[nid := members[nid].(status := MB.Suspect, lastUpdated := now)];
      }
    }

    /** Lets time pass: what is dropped from the table is forgotten with its snapshots, while
        its tombstones stay. */
    method CheckTimeouts(now: real)
      modifies this`members, this`peerSnapshots
      ensures Table() == MB.TimedOut(old(Table()), now, heartbeatTimeout)
      ensures heartbeatTimeout >= 0.0 ==> forall n | n in old(members) && n != nodeId :: PassedOver(old(members)[n], n, now)
      ensures nodeId in old(members) ==> nodeId in members && members[nodeId] == old(members)[nodeId]
      ensures members.Keys <= old(members.Keys)
      ensures forall k, o :: Has(peerSnapshots, k, o) <==> Has(old(peerSnapshots), k, o) && !(o in old(members) && o !in members)
      ensures forall k, o | Has(peerSnapshots, k, o) && Has(old(peerSnapshots), k, o) :: peerSnapshots[k][o] == old(peerSnapshots)[k][o]
      ensures peerSnapshots == WithoutOrigins(old(peerSnapshots), old(members.Keys) - members.Keys)
    {
      hide MB.TimedOut, WithoutOrigins, PassedOver;
      ghost var before, snapshots := Table(), peerSnapshots;
      var todo := members.Keys;
      ghost var gone: set<NodeId> := {};
      WithoutNone(snapshots);
      while todo != {}
        invariant todo <= members.Keys <= before.members.Keys
        invariant forall n | n in todo :: members[n] == before.members[n]
        invariant forall n | n in before.members && n !in todo ::
          if MB.Drops(before, now, heartbeatTimeout, n) then n !in members
          else n in members && members[n] == if n == nodeId then before.members[n] else MB.Aged(before.members[n], now, heartbeatTimeout)
        invariant gone == before.members.Keys - members.Keys
        invariant peerSnapshots == WithoutOrigins(snapshots, gone)
      {
        ghost var some := Pick(todo);
        var nid :| nid in todo;
        todo := todo - {nid};
        if nid == nodeId { continue; }
        var info := members[nid];
        if info.status.Suspect? && now - info.lastUpdated > heartbeatTimeout {
          info := info.(status := MB.Dead, lastUpdated := now);
          members := members[nid := info];
        }
        if info.status.Dead? && now - info.lastUpdated > heartbeatTimeout * 5.0 {
          members := members - {nid};
          WithoutOneMore(snapshots, gone, nid);
          ForgetOrigin(nid);
          gone := gone + {nid};
        }
      }
      PassIsOver(before, now);
      forall k, o
        ensures Has(peerSnapshots, k, o) <==> Has(snapshots, k, o) && o !in gone
        ensures Has(peerSnapshots, k, o) ==> peerSnapshots[k][o] == snapshots[k][o]
      {
        WithoutIs(snapshots, gone, k, o);
      }
    }

    /** What a pass left of another member's record: dead as of now after more than the timeout
        under suspicion, gone after more than five timeouts dead, and else unchanged. */
    ghost predicate PassedOver(m: MB.Member, n: NodeId, now: real)
      reads this
    {
      if m.status == MB.Suspect && now - m.lastUpdated > heartbeatTimeout
      then n in members && members[n] == m.(status := MB.Dead, lastUpdated := now)
      else if m.status == MB.Dead && now - m.lastUpdated > heartbeatTimeout * 5.0 then n !in members
      else n in members && members[n] == m
    }

    lemma PassIsOver(before: MB.Table, now: real)
      requires before.id == nodeId && members.Keys <= before.members.Keys
      requires before.allowed == allowed && before.incarnation == incarnation
      requires forall n | n in before.members ::
        if MB.Drops(before, now, heartbeatTimeout, n) then n !in members
        else n in members && members[n] == if n == nodeId then before.members[n] else MB.Aged(before.members[n], now, heartbeatTimeout)
      ensures Table() == MB.TimedOut(before, now, heartbeatTimeout)
      ensures heartbeatTimeout >= 0.0 ==> forall n | n in before.members && n != nodeId :: PassedOver(before.members[n], n, now)
      ensures nodeId in before.members ==> nodeId in members && members[nodeId] == before.members[nodeId]
    {
      hide MB.Aged, MB.Drops;
      assert members == MB.TimedOut(before, now, heartbeatTimeout).members;
      hide MB.TimedOut;
      forall n | n in before.members && n != nodeId && heartbeatTimeout >= 0.0 ensures PassedOver(before.members[n], n, now) {
        MB.PassIsExact(before, now, heartbeatTimeout, n);
      }
      if nodeId in before.members { MB.PassIsExact(before, now, heartbeatTimeout, nodeId); }
    }

    method ForgetOrigin(nid: NodeId)
      modifies this`peerSnapshots
      ensures peerSnapshots == WithoutOrigins(old(peerSnapshots), {nid})
    {
      ghost var before := peerSnapshots;
      var todo := peerSnapshots.Keys;
      while todo != {}
        invariant todo <= peerSnapshots.Keys == before.Keys
        invariant forall k | k in before :: peerSnapshots[k] == if k in todo then before[k] else before[k] - {nid}
      {
        ghost var some := Pick(todo);
        var k :| k in todo;
        todo := todo - {k};
        if nid in peerSnapshots[k] {
          peerSnapshots := peerSnapshots[k := peerSnapshots[k] - {nid}];
        } else {
          assert before[k] - {nid} == before[k];
        }
      }
    }

    // ----- receiving peer state -----

    function Held(): Peers
      reads this
    {
      Peers(peerSnapshots, peerTombstones)
    }

    /** Replaces an origin's snapshot by a tombstone; a stream left without snapshots goes. */
    method StoreTombstone(k: StreamKey, nid: NodeId, version: real)
      modifies this`peerSnapshots, this`peerTombstones
      ensures peerSnapshots == RemoveInner(old(peerSnapshots), k, nid)
      ensures peerTombstones == SetInner(old(peerTombstones), k, nid, version)
    {
      hide SetInner, RemoveInner;
      var existing := if k in peerSnapshots then peerSnapshots[k] else map[];
      var tombstones := if k in peerTombstones then peerTombstones[k] else map[];
      Rows(peerSnapshots, k, nid, existing);
      Cell(peerTombstones, k, nid, tombstones, version);
      existing := existing - {nid};
      peerSnapshots := if existing == map[] then peerSnapshots - {k} else peerSnapshots[k := existing];
      peerTombstones := peerTombstones[k := tombstones[nid := version]];
    }

    /** Stores an origin's snapshot in place of what was held of it. */
    method StoreSnapshot(k: StreamKey, nid: NodeId, v: Versioned)
      modifies this`peerSnapshots, this`peerTombstones
      ensures peerSnapshots == SetInner(old(peerSnapshots), k, nid, v)
      ensures peerTombstones == RemoveInner(old(peerTombstones), k, nid)
    {
      hide SetInner, RemoveInner;
      var existing := if k in peerSnapshots then peerSnapshots[k] else map[];
      var tombstones := if k in peerTombstones then peerTombstones[k] else map[];
      Cell(peerSnapshots, k, nid, existing, v);
      Rows(peerTombstones, k, nid, tombstones);
      peerSnapshots := peerSnapshots[k := existing[nid := v]];
      tombstones := tombstones - {nid};
      peerTombstones := if tombstones == map[] then peerTombstones - {k} else peerTombstones[k := tombstones];
    }

    /** The locked region of receiving one entry. */
    method ReceiveOne(k: StreamKey, nid: NodeId, e: Entry)
      modifies this`peerSnapshots, this`peerTombstones
      ensures Held() == Install(old(Held()), k, nid, e)
    {
      hide SetInner, RemoveInner, Admits, Known;
      var knownStreams := peerSnapshots.Keys + peerTombstones.Keys;
      var existing := if k in peerSnapshots then peerSnapshots[k] else map[];
      var tombstones := if k in peerTombstones then peerTombstones[k] else map[];
      var knownOrigins := existing.Keys + tombstones.Keys;
      Conditions(Held(), k, nid, existing, tombstones);
      if k !in knownStreams && |knownStreams| >= MAX_PEER_STREAMS { return; }
      if nid !in knownOrigins && |knownOrigins| >= MAX_ORIGINS_PER_STREAM { return; }
      var snapshotVersion := if nid in existing then existing[nid].version else 0.0;
      var tombstoneVersion := if nid in tombstones then tombstones[nid] else 0.0;
      if e.version <= Max(snapshotVersion, tombstoneVersion) { return; }
      Installed(Held(), k, nid, e);
      if e.Tombstone? {
        StoreTombstone(k, nid, e.version);
      } else {
        StoreSnapshot(k, nid, Versioned(e.log, e.version));
      }
    }

    /** Receives a payload item by item. Only an invalid sender name refuses it; an invalid
        item is skipped. */
    method ReceiveSnapshot(sender: NodeId, items: seq<Incoming>, timestamp: real) returns (outcome: Outcome)
      modifies this`peerSnapshots, this`peerTombstones
      ensures outcome.Done? <==> ValidName(sender)
      ensures Held() == if outcome.Done? then InstallAll(old(Held()), Facts(nodeId, timestamp, items)) else old(Held())
    {
      hide Install, Parse;
      if !ValidName(sender) { return Raised(InvalidArgument); }
      ghost var before := Held();
      for i := 0 to |items|
        invariant Held() == InstallAll(before, Facts(nodeId, timestamp, items[..i]))
      {
        ghost var fs := Facts(nodeId, timestamp, items[..i]);
        assert items[..i + 1][..i] == items[..i];
        var parsed := Parse(nodeId, timestamp, items[i]);
        if parsed.Some? {
          var f := parsed.value;
          assert (fs + [f])[..|fs|] == fs;
          ReceiveOne(f.stream, f.origin, f.entry);
        }
      }
      assert items[..|items|] == items;
      outcome := Done;
    }

    // ----- the digest -----

    /** What holds of every node of the mesh: see the mesh invariant. */
    ghost predicate Sound()
      reads this
    {
      && ValidPeers(Held()) && PositiveOwn(AsNode()) && (forall k :: EntryAt(Held(), k, nodeId).None?)
      && PairsOnly(AsNode())
    }

    function Dead(): set<NodeId>
      reads this
    {
      set n | n in members && members[n].status.Dead?
    }

    /** One stream's snapshots of origins that are not dead. */
    method ListSnapshots(k: StreamKey, row: map<NodeId, real>) returns (r: map<NodeId, real>)
      requires k in peerSnapshots
      ensures forall o :: o in r <==> o in row || (o in peerSnapshots[k] && o !in Dead())
      ensures forall o | o in r :: r[o] == if o in peerSnapshots[k] && o !in Dead() then peerSnapshots[k][o].version else row[o]
    {
      r := row;
      var todo := peerSnapshots[k].Keys;
      while todo != {}
        invariant todo <= peerSnapshots[k].Keys
        invariant forall o :: o in r <==> o in row || (o in peerSnapshots[k] && o !in todo && o !in Dead())
        invariant forall o | o in r ::
          r[o] == if o in peerSnapshots[k] && o !in todo && o !in Dead() then peerSnapshots[k][o].version else row[o]
      {
        ghost var some := Pick(todo);
        var o :| o in todo;
        if !(o in members && members[o].status.Dead?) { r := r[o := peerSnapshots[k][o].version]; }
        todo := todo - {o};
      }
    }

    method ListTombstones(k: StreamKey, row: map<NodeId, real>) returns (r: map<NodeId, real>)
      requires k in peerTombstones
      ensures forall o :: o in r <==> o in row || o in peerTombstones[k]
      ensures forall o | o in r :: r[o] == if o in peerTombstones[k] then Max(peerTombstones[k][o], Get0(row, o)) else row[o]
    {
      r := row;
      var todo := peerTombstones[k].Keys;
      while todo != {}
        invariant todo <= peerTombstones[k].Keys
        invariant forall o :: o in r <==> o in row || (o in peerTombstones[k] && o !in todo)
        invariant forall o | o in r ::
          r[o] == if o in peerTombstones[k] && o !in todo then Max(peerTombstones[k][o], Get0(row, o)) else row[o]
      {
        ghost var some := Pick(todo);
        var o :| o in todo;
        r := r[o := Max(peerTombstones[k][o], Get0(r, o))];
        todo := todo - {o};
      }
    }

    method OwnVersions() returns (vv: Versions)
      requires PositiveOwn(AsNode())
      ensures OwnSoFar(AsNode(), {}, vv)
    {
      hide OwnSoFar, PositiveOwn;
      vv := map k | k in streams :: map[nodeId := streams[k].version];
      OwnStart(AsNode(), vv);
      var todo := localTombstones.Keys;
      while todo != {}
        invariant todo <= localTombstones.Keys && OwnSoFar(AsNode(), todo, vv)
      {
        ghost var some := Pick(todo);
        var k :| k in todo;
        OwnStep(AsNode(), todo, vv, k);
        var version := Max(localTombstones[k], VersionIn(vv, k, nodeId));
        var row := (if k in vv then vv[k] else map[])[nodeId := version];
        vv, todo := vv[k := row], todo - {k};
      }
    }

    /** The version vector of a gossip round lists, for every stream and origin, the version
        the digest is meant to carry. */
    method BuildVersionVector() returns (vv: Versions)
      requires Sound()
      ensures forall k, o :: VersionIn(vv, k, o) == DigestVersion(AsNode(), Dead(), k, o)
      ensures vv.Keys == ListedStreams(AsNode()) && forall k | k in vv :: vv[k].Keys == ListedOrigins(AsNode(), Dead(), k)
      ensures forall k, o | o != nodeId && Has(peerSnapshots, k, o) && !Has(peerTombstones, k, o) ::
        VersionIn(vv, k, o) == if o in members && members[o].status == MB.Dead then 0.0 else peerSnapshots[k][o].version
    {
      hide Dead, PositiveOwn, Published, OwnSoFar, PeersSoFar, Sound;
      assert PositiveOwn(AsNode()) by { SoundIsPositive(); }
      vv := OwnVersions();
      PeersStart(AsNode(), Dead(), vv);
      var todo := peerSnapshots.Keys;
      while todo != {}
        invariant todo <= peerSnapshots.Keys && PeersSoFar(AsNode(), Dead(), todo, peerTombstones.Keys, vv)
      {
        ghost var some := Pick(todo);
        var k :| k in todo;
        var row := ListSnapshots(k, if k in vv then vv[k] else map[]);
        NothingOwn(k);
        SnapshotStep(AsNode(), Dead(), todo, vv, k, row);
        vv, todo := vv[k := row], todo - {k};
      }
      todo := peerTombstones.Keys;
      while todo != {}
        invariant todo <= peerTombstones.Keys && PeersSoFar(AsNode(), Dead(), {}, todo, vv)
      {
        ghost var some := Pick(todo);
        var k :| k in todo;
        var row := ListTombstones(k, if k in vv then vv[k] else map[]);
        NothingOwn(k);
        TombstoneStep(AsNode(), Dead(), todo, vv, k, row);
        vv, todo := vv[k := row], todo - {k};
      }
      PeersEnd(AsNode(), Dead(), vv);
      forall k, o | o != nodeId && Has(peerSnapshots, k, o) && !Has(peerTombstones, k, o)
        ensures VersionIn(vv, k, o) == if o in members && members[o].status == MB.Dead then 0.0 else peerSnapshots[k][o].version
      {
        WithholdsTheDead(k, o);
      }
    }

    /** A digest lists a held snapshot unless the table has its origin for dead. */
    lemma WithholdsTheDead(k: StreamKey, o: NodeId)
      requires Sound() && o != nodeId && Has(peerSnapshots, k, o) && !Has(peerTombstones, k, o)
      ensures DigestVersion(AsNode(), Dead(), k, o) == if o in members && members[o].status == MB.Dead then 0.0 else peerSnapshots[k][o].version
    {
    }

    lemma SoundIsPositive()
      requires Sound()
      ensures PositiveOwn(AsNode())
    {
    }

    lemma NothingOwn(k: StreamKey)
      requires Sound()
      ensures !Has(peerSnapshots, k, nodeId) && !Has(peerTombstones, k, nodeId)
      ensures forall o :: SnapshotVersion(AsNode().peers, k, o) >= 0.0 && TombstoneVersion(AsNode().peers, k, o) >= 0.0
    {
      assert EntryAt(Held(), k, nodeId).None?;
    }

    // ----- answering a digest -----

    function KnownVersion(k: StreamKey, o: NodeId): real
      reads this
    {
      Max(if k in peerSnapshots && o in peerSnapshots[k] then peerSnapshots[k][o].version else 0.0,
          if k in peerTombstones && o in peerTombstones[k] then peerTombstones[k][o] else 0.0)
    }

    /** Asks for the newer origins of one stream of a digest, as far as they fit. */
    method RequestOrigins(seen: Versions, k: StreamKey, reply: Reply)
      requires k in seen && reply.Valid() && reply.updates == [] && reply.builder.nodeId == nodeId
      requires GroupedWants(reply.requests) && forall w | w in reply.requests :: w.stream != k
      modifies reply`requests, reply.builder`requests, reply.builder`responseSize
      ensures reply.Valid() && reply.updates == [] && GroupedWants(reply.requests)
      ensures forall w | w in old(reply.requests) :: w in reply.requests
      ensures forall w | w in reply.requests && w !in old(reply.requests) ::
        w.stream == k && Wants(AsNode(), SeenIn(seen), w.stream, w.origin)
      ensures forall o | o in seen[k] && Wants(AsNode(), SeenIn(seen), k, o) ::
        RequestedOrTooMuch(nodeId, reply.builder.maxPayload, reply.write, reply.requests, Want(k, o))
    {
      hide RequestedOrTooMuch, GroupedWants, ReplySize, RequestsOf, Reply.Valid, Wants;
      ghost var max, write := reply.builder.maxPayload, reply.write;
      var todo := seen[k].Keys;
      while todo != {}
        invariant todo <= seen[k].Keys && reply.Valid() && reply.updates == [] && GroupedWants(reply.requests)
        invariant forall w | w in old(reply.requests) :: w in reply.requests
        invariant forall w | w in reply.requests && w !in old(reply.requests) ::
          w.stream == k && w.origin !in todo && Wants(AsNode(), SeenIn(seen), w.stream, w.origin)
        invariant reply.requests == old(reply.requests) || EndsWith(reply.requests, k)
        invariant forall o | o in seen[k] && o !in todo && Wants(AsNode(), SeenIn(seen), k, o) ::
          RequestedOrTooMuch(nodeId, max, write, reply.requests, Want(k, o))
      {
        ghost var some := Pick(todo);
        var o :| o in todo;
        WantedIsNewer(seen, k, o);
        if o != nodeId && seen[k][o] > KnownVersion(k, o) {
          ghost var before := reply.requests;
          GroupGrows(before, Want(k, o));
          var ok := reply.Request(Want(k, o));
          AskingGrows(nodeId, max, write, before, reply.requests, Want(k, o), ok);
        }
        todo := todo - {o};
      }
    }

    lemma WantedIsNewer(seen: Versions, k: StreamKey, o: NodeId)
      requires Has(seen, k, o)
      ensures Wants(AsNode(), SeenIn(seen), k, o) <==> o != nodeId && seen[k][o] > KnownVersion(k, o)
    {
    }

    /** Asks for everything a digest lists that is newer than what the node holds: whatever is
        left out would take the reply beyond a quarter of the limit. */
    method RequestNewer(seen: Versions, reply: Reply)
      requires Sound() && reply.Valid() && reply.requests == [] && reply.updates == [] && reply.builder.nodeId == nodeId
      modifies reply`requests, reply.builder`requests, reply.builder`responseSize
      ensures reply.Valid() && reply.updates == [] && GroupedWants(reply.requests)
      ensures forall w | w in reply.requests :: Wants(AsNode(), SeenIn(seen), w.stream, w.origin)
      ensures forall k, o | Wants(AsNode(), SeenIn(seen), k, o) ::
        RequestedOrTooMuch(nodeId, reply.builder.maxPayload, reply.write, reply.requests, Want(k, o))
    {
      hide Wants, RequestedOrTooMuch, GroupedWants;
      ghost var max, write := reply.builder.maxPayload, reply.write;
      NoWants();
      var todo := seen.Keys;
      while todo != {}
        invariant todo <= seen.Keys && reply.Valid() && reply.updates == [] && GroupedWants(reply.requests)
        invariant forall w | w in reply.requests :: w.stream !in todo && Wants(AsNode(), SeenIn(seen), w.stream, w.origin)
        invariant forall k, o | k in seen && k !in todo && o in seen[k] && Wants(AsNode(), SeenIn(seen), k, o) ::
          RequestedOrTooMuch(nodeId, max, write, reply.requests, Want(k, o))
      {
        ghost var some := Pick(todo);
        var k :| k in todo;
        ghost var before := reply.requests;
        RequestOrigins(seen, k, reply);
        AskedStaysAsked(nodeId, max, write, before, reply.requests);
        todo := todo - {k};
      }
      forall k, o | Wants(AsNode(), SeenIn(seen), k, o) ensures Has(seen, k, o) { OnlyListedIsWanted(seen, k, o); }
    }

    lemma OnlyListedIsWanted(seen: Versions, k: StreamKey, o: NodeId)
      requires Sound() && Wants(AsNode(), SeenIn(seen), k, o)
      ensures Has(seen, k, o)
    {
      NothingOwn(k);
    }

    /** A reply under way: it carries only what the node answers, and only what is newer than
        what the digest lists. */
    ghost predicate Offering(seen: Versions, reply: Reply)
      reads this, reply, reply.builder
    {
      reply.Valid() && reply.builder.nodeId == nodeId && forall f | f in reply.updates :: Offers(AsNode(), SeenIn(seen), f)
    }

    /** Whether some entry on offer is in the reply, or one that comes with it did not fit. */
    ghost predicate Settled(seen: Versions, reply: Reply, f: Fact)
      reads this, reply, reply.builder
    {
      CarriedOrTooMuch(AsNode(), SeenIn(seen), reply.builder.maxPayload, reply.write, reply.updates, reply.requests, f)
    }

    /** Adds one entry the node answers with, if it is newer than what the digest lists, unless
        the reply would exceed the limit. */
    method OfferOne(seen: Versions, f: Fact, reply: Reply) returns (ok: bool)
      requires Sound() && Offering(seen, reply) && f.entry == Answer(AsNode(), f.stream, f.origin)
      requires forall k, o :: VersionIn(seen, k, o) >= 0.0
      modifies reply`updates, reply.builder`updates, reply.builder`responseSize
      ensures Offering(seen, reply) && reply.requests == old(reply.requests)
      ensures forall g | old(Settled(seen, reply, g)) :: Settled(seen, reply, g)
      ensures ok && Offers(AsNode(), SeenIn(seen), f) ==> Settled(seen, reply, f)
      ensures !ok ==> forall g | ComesWith(nodeId, f, g) :: Settled(seen, reply, g)
    {
      hide Sound, ValidPeers, PositiveOwn, CarriedOrTooMuch;
      ok := true;
      ghost var n, max, write, before, ws := AsNode(), reply.builder.maxPayload, reply.write, reply.updates, reply.requests;
      if f.entry.version > VersionIn(seen, f.stream, f.origin) {
        assert Offers(n, SeenIn(seen), f);
        ok := reply.Update(f);
        OffersArePairs(seen, before + [f]);
        OfferSettles(n, SeenIn(seen), max, write, before, ws, f);
      }
    }

    lemma {:induction false} OffersArePairs(seen: Versions, fs: seq<Fact>)
      requires Sound() && (forall k, o :: VersionIn(seen, k, o) >= 0.0) && forall f | f in fs :: Offers(AsNode(), SeenIn(seen), f)
      ensures AnswersOf(AsNode(), fs)
    {
      hide Offers;
      forall f | f in fs ensures f.stream.Pair? && f.entry == Answer(AsNode(), f.stream, f.origin) {
        OffersAreCovered(seen, f);
        OfferIsAnswer(AsNode(), SeenIn(seen), f);
        HeldIsPair(f.stream, f.origin);
      }
    }

    lemma HeldIsPair(k: StreamKey, o: NodeId)
      requires Sound()
      ensures k in streams || k in localTombstones || EntryAt(Held(), k, o).Some? ==> k.Pair?
    {
      assert PairsOnly(AsNode());
    }

    function LocalFact(k: StreamKey): Fact
      requires k in streams
      reads this
    {
      Fact(k, nodeId, Snapshot(streams[k].log, streams[k].version))
    }

    /** Offers the node's own streams; the first that does not fit ends it. */
    method OfferStreams(seen: Versions, reply: Reply)
      requires Sound() && Offering(seen, reply) && forall k, o :: VersionIn(seen, k, o) >= 0.0
      modifies reply`updates, reply.builder`updates, reply.builder`responseSize
      ensures Offering(seen, reply) && reply.requests == old(reply.requests)
      ensures forall g | old(Settled(seen, reply, g)) :: Settled(seen, reply, g)
      ensures forall k | k in streams && Offers(AsNode(), SeenIn(seen), LocalFact(k)) :: Settled(seen, reply, LocalFact(k))
    {
      hide Offers, Answer, Sound, Settled;
      var todo := streams.Keys;
      while todo != {}
        invariant todo <= streams.Keys && Offering(seen, reply) && reply.requests == old(reply.requests)
        invariant forall g | old(Settled(seen, reply, g)) :: Settled(seen, reply, g)
        invariant forall k | k in streams && k !in todo && Offers(AsNode(), SeenIn(seen), LocalFact(k)) :: Settled(seen, reply, LocalFact(k))
      {
        ghost var some := Pick(todo);
        var k :| k in todo;
        OwnAnswers(k);
        var ok := OfferOne(seen, LocalFact(k), reply);
        if !ok {
          assert forall j | j in streams :: ComesWith(nodeId, LocalFact(k), LocalFact(j));
          return;
        }
        todo := todo - {k};
      }
    }

    lemma OwnAnswers(k: StreamKey)
      requires Sound()
      ensures k in streams ==> Answer(AsNode(), k, nodeId) == LocalFact(k).entry
      ensures k in localTombstones && (k !in streams || streams[k].version <= localTombstones[k]) ==>
        Answer(AsNode(), k, nodeId) == Tombstone(localTombstones[k])
      ensures k !in streams && k !in localTombstones ==> Answer(AsNode(), k, nodeId) == Tombstone(0.0)
    {
    }

    function OwnTombstone(k: StreamKey): Fact
      requires k in localTombstones
      reads this
    {
      Fact(k, nodeId, Tombstone(localTombstones[k]))
    }

    /** Offers the node's own tombstones, unless the stream was started again since. */
    method OfferOwnTombstones(seen: Versions, reply: Reply)
      requires Sound() && Offering(seen, reply) && forall k, o :: VersionIn(seen, k, o) >= 0.0
      modifies reply`updates, reply.builder`updates, reply.builder`responseSize
      ensures Offering(seen, reply) && reply.requests == old(reply.requests)
      ensures forall g | old(Settled(seen, reply, g)) :: Settled(seen, reply, g)
      ensures forall k | k in localTombstones && k !in streams && Offers(AsNode(), SeenIn(seen), OwnTombstone(k)) ::
        Settled(seen, reply, OwnTombstone(k))
    {
      hide Offers, Answer, Sound, Settled;
      var todo := localTombstones.Keys;
      while todo != {}
        invariant todo <= localTombstones.Keys && Offering(seen, reply) && reply.requests == old(reply.requests)
        invariant forall g | old(Settled(seen, reply, g)) :: Settled(seen, reply, g)
        invariant forall k | k in localTombstones && k !in todo && k !in streams && Offers(AsNode(), SeenIn(seen), OwnTombstone(k)) ::
          Settled(seen, reply, OwnTombstone(k))
      {
        ghost var some := Pick(todo);
        var k :| k in todo;
        todo := todo - {k};
        if k in streams && streams[k].version > localTombstones[k] { continue; }
        OwnAnswers(k);
        var ok := OfferOne(seen, OwnTombstone(k), reply);
        if !ok {
          assert forall j | j in localTombstones :: ComesWith(nodeId, OwnTombstone(k), OwnTombstone(j));
          return;
        }
      }
    }

    /** What the node holds of an origin, as a fact. */
    function PeerFact(k: StreamKey, o: NodeId): Fact
      requires EntryAt(Held(), k, o).Some?
      reads this
    {
      Fact(k, o, EntryAt(Held(), k, o).value)
    }

    /** Offers some origins of a stream; the first that does not fit ends the stream. */
    method OfferOrigins(seen: Versions, k: StreamKey, origins: set<NodeId>, reply: Reply)
      requires Sound() && Offering(seen, reply) && forall k, o :: VersionIn(seen, k, o) >= 0.0
      requires forall o | o in origins :: EntryAt(Held(), k, o).Some?
      requires forall o, p | o in origins && p in origins :: PeerFact(k, o).entry.Snapshot? == PeerFact(k, p).entry.Snapshot?
      modifies reply`updates, reply.builder`updates, reply.builder`responseSize
      ensures Offering(seen, reply) && reply.requests == old(reply.requests)
      ensures forall g | old(Settled(seen, reply, g)) :: Settled(seen, reply, g)
      ensures forall o | o in origins && Offers(AsNode(), SeenIn(seen), PeerFact(k, o)) :: Settled(seen, reply, PeerFact(k, o))
    {
      hide Offers, Answer, EntryAt, Sound, Settled;
      var todo := origins;
      while todo != {}
        invariant todo <= origins && Offering(seen, reply) && reply.requests == old(reply.requests)
        invariant forall g | old(Settled(seen, reply, g)) :: Settled(seen, reply, g)
        invariant forall o | o in origins && o !in todo && Offers(AsNode(), SeenIn(seen), PeerFact(k, o)) :: Settled(seen, reply, PeerFact(k, o))
      {
        ghost var some := Pick(todo);
        var o :| o in todo;
        PeerAnswers(k, o);
        var ok := OfferOne(seen, PeerFact(k, o), reply);
        if !ok {
          forall p | p in origins ensures ComesWith(nodeId, PeerFact(k, o), PeerFact(k, p)) { PeerAnswers(k, p); }
          return;
        }
        todo := todo - {o};
      }
    }

    lemma PeerAnswers(k: StreamKey, o: NodeId)
      requires Sound() && EntryAt(Held(), k, o).Some?
      ensures o != nodeId && PeerFact(k, o).entry == Answer(AsNode(), k, o)
      ensures PeerFact(k, o).entry.Snapshot? <==> Has(peerSnapshots, k, o)
    {
      hide Answer;
      AnswerAboutPeer(AsNode(), k, o);
    }

    /** Offers what the node holds of its peers, stream by stream: snapshots, then
        tombstones. */
    method OfferPeers(seen: Versions, reply: Reply)
      requires Sound() && Offering(seen, reply) && forall k, o :: VersionIn(seen, k, o) >= 0.0
      modifies reply`updates, reply.builder`updates, reply.builder`responseSize
      ensures Offering(seen, reply) && reply.requests == old(reply.requests)
      ensures forall g | old(Settled(seen, reply, g)) :: Settled(seen, reply, g)
      ensures forall k, o | EntryAt(Held(), k, o).Some? && Offers(AsNode(), SeenIn(seen), PeerFact(k, o)) :: Settled(seen, reply, PeerFact(k, o))
    {
      hide Offers, Answer, Sound, Settled;
      var todo := peerSnapshots.Keys;
      while todo != {}
        invariant todo <= peerSnapshots.Keys && Offering(seen, reply) && reply.requests == old(reply.requests)
        invariant forall g | old(Settled(seen, reply, g)) :: Settled(seen, reply, g)
        invariant forall k, o | Has(peerSnapshots, k, o) && k !in todo && Offers(AsNode(), SeenIn(seen), PeerFact(k, o)) ::
          Settled(seen, reply, PeerFact(k, o))
      {
        ghost var some := Pick(todo);
        var k :| k in todo;
        forall o | o in peerSnapshots[k] ensures EntryAt(Held(), k, o).Some? && PeerFact(k, o).entry.Snapshot? { }
        OfferOrigins(seen, k, peerSnapshots[k].Keys, reply);
        todo := todo - {k};
      }
      todo := peerTombstones.Keys;
      while todo != {}
        invariant todo <= peerTombstones.Keys && Offering(seen, reply) && reply.requests == old(reply.requests)
        invariant forall g | old(Settled(seen, reply, g)) :: Settled(seen, reply, g)
        invariant forall k, o | Has(peerSnapshots, k, o) && Offers(AsNode(), SeenIn(seen), PeerFact(k, o)) ::
          Settled(seen, reply, PeerFact(k, o))
        invariant forall k, o | Has(peerTombstones, k, o) && k !in todo && Offers(AsNode(), SeenIn(seen), PeerFact(k, o)) ::
          Settled(seen, reply, PeerFact(k, o))
      {
        ghost var some := Pick(todo);
        var k :| k in todo;
        forall o | o in peerTombstones[k] ensures EntryAt(Held(), k, o).Some? && !PeerFact(k, o).entry.Snapshot? { NotBoth(k, o); }
        OfferOrigins(seen, k, peerTombstones[k].Keys, reply);
        todo := todo - {k};
      }
    }

    lemma NotBoth(k: StreamKey, o: NodeId)
      requires Sound()
      ensures !(Has(peerSnapshots, k, o) && Has(peerTombstones, k, o))
    {
    }

    /** Everything on offer is a stream of the node's own, one of its tombstones or something
        it holds of a peer. */
    lemma OffersAreCovered(seen: Versions, f: Fact)
      requires Sound() && Offers(AsNode(), SeenIn(seen), f) && VersionIn(seen, f.stream, f.origin) >= 0.0
      ensures f.origin == nodeId && f.stream in streams ==> f == LocalFact(f.stream)
      ensures f.origin == nodeId && f.stream !in streams ==>
        f.stream in localTombstones && f == Fact(f.stream, nodeId, Tombstone(localTombstones[f.stream]))
      ensures f.origin != nodeId ==> EntryAt(Held(), f.stream, f.origin).Some? && f == PeerFact(f.stream, f.origin)
    {
      hide EntryAt;
      OwnAnswers(f.stream);
      if f.origin != nodeId { AnswerAboutPeer(AsNode(), f.stream, f.origin); }
    }

    /** Answers a digest within the payload limit. It asks only for what the digest lists newer
        and sends only what the digest lists older or not at all. A request is left out only if
        it would take the reply beyond a quarter of the limit; an entry only if it, or one that
        is offered in the same sweep, would take the reply beyond the limit. */
    method HandleGossipDigest(items: seq<DigestItem>, maxPayload: nat, write: Writer) returns (reply: Reply)
      requires Sound()
      ensures fresh(reply) && fresh(reply.builder) && reply.Valid()
      ensures reply.builder.maxPayload == maxPayload && reply.builder.nodeId == nodeId && reply.write == write
      ensures GroupedWants(reply.requests)
      ensures Replies(AsNode(), SeenIn(KeptStreams(items)), maxPayload, write, reply.requests, reply.updates)
    {
      hide Wants, Offers, KeptStreams, Sound, GroupedWants, RequestedOrTooMuch, CarriedOrTooMuch, AnswersOf;
      var versions := NormalizeVersions(items);
      SeenIsNatural(items);
      reply := new Reply(nodeId, maxPayload, write);
      RequestNewer(versions, reply);
      OfferStreams(versions, reply);
      OfferOwnTombstones(versions, reply);
      OfferPeers(versions, reply);
      forall f | Offers(AsNode(), SeenIn(versions), f) ensures Settled(versions, reply, f) { OffersAreCovered(versions, f); }
    }

    /** Looks every requested origin up; malformed requests are skipped. */
    method FulfilRequests(ws: seq<Want>) returns (answers: seq<Fact>)
      requires Sound()
      ensures answers == AnswersTo(AsNode(), ws)
    {
      hide Answer, ValidStreamKey, ValidName;
      answers := [];
      for i := 0 to |ws|
        invariant answers == AnswersTo(AsNode(), ws[..i])
      {
        assert ws[..i + 1][..i] == ws[..i];
        var k, o := ws[i].stream, ws[i].origin;
        if !ValidStreamKey(k) || !ValidName(o) { continue; }
        var entry: Entry;
        if o == nodeId {
          var streamVersion := if k in streams then streams[k].version else 0.0;
          var tombstoneVersion := if k in localTombstones then localTombstones[k] else 0.0;
          entry := if tombstoneVersion >= streamVersion then Tombstone(tombstoneVersion)
                   else Snapshot(streams[k].log, streamVersion);
          OwnAnswers(k);
          PositiveVersionsOf(k);
        } else {
          var snapshotVersion := if Has(peerSnapshots, k, o) then peerSnapshots[k][o].version else 0.0;
          var tombstoneVersion := if Has(peerTombstones, k, o) then peerTombstones[k][o] else 0.0;
          entry := if tombstoneVersion >= snapshotVersion then Tombstone(tombstoneVersion)
                   else Snapshot(peerSnapshots[k][o].log, snapshotVersion);
          AnswerAboutPeer(AsNode(), k, o);
          HeldVersions(k, o);
        }
        answers := answers + [Fact(k, o, entry)];
      }
      assert ws[..|ws|] == ws;
    }

    lemma PositiveVersionsOf(k: StreamKey)
      requires Sound()
      ensures k in streams ==> streams[k].version > 0.0 && (k in localTombstones ==> streams[k].version > localTombstones[k])
    {
    }

    lemma HeldVersions(k: StreamKey, o: NodeId)
      requires Sound()
      ensures Has(peerSnapshots, k, o) ==> !Has(peerTombstones, k, o) && peerSnapshots[k][o].version > 0.0
      ensures Has(peerTombstones, k, o) ==> peerTombstones[k][o] > 0.0
    {
    }

    // ----- deletions of the node's own streams -----

    /** Reserves a tombstone above the last one of the stream, if there is room for one. */
    method BeginDeletion(k: StreamKey, time: real) returns (r: Option<Reservation>)
      modifies this`localTombstones
      ensures r.None? <==> k !in old(localTombstones) && |old(localTombstones)| >= maxLocalTombstones
      ensures r.None? ==> localTombstones == old(localTombstones)
      ensures r.Some? ==> r.value.version > old(LocalTombstone(AsNode(), k)) && r.value.version >= time
      ensures r.Some? ==> r.value.version == time || r.value.version == old(LocalTombstone(AsNode(), k)) + 0.000001
      ensures r.Some? ==> Begun(old(localTombstones), k, time, r.value) && localTombstones == old(localTombstones)[k := r.value.version]
    {
      var previous: Option<real> := if k in localTombstones then Some(localTombstones[k]) else None;
      if previous.None? && |localTombstones| >= maxLocalTombstones { return None; }
      var committed := Max(time, (if previous.Some? then previous.value else 0.0) + 0.000001);
      localTombstones := localTombstones[k := committed];
      r := Some(Reservation(committed, previous));
    }

    /** Takes a reservation back unless a later one replaced it. */
    method RollbackDeletion(k: StreamKey, r: Reservation)
      modifies this`localTombstones
      ensures localTombstones == RolledBack(old(localTombstones), k, r)
    {
      if k !in localTombstones || localTombstones[k] != r.version { return; }
      if r.previous.None? {
        localTombstones := localTombstones - {k};
      } else {
        localTombstones := localTombstones[k := r.previous.value];
      }
    }

    /** Takes the durable tombstones in at startup. Invalid ones are skipped, and a version
        never falls. It raises exactly when some stored stream is new and all streams together
        are beyond the capacity; what came before the first one without room is then restored,
        and nothing after it. */
    method RestoreLocalTombstones(items: seq<Stored>) returns (outcome: Outcome)
      modifies this`localTombstones
      ensures outcome.Raised? <==>
        !(StoredStreams(items) <= old(localTombstones.Keys)) && |old(localTombstones.Keys) + StoredStreams(items)| > maxLocalTombstones
      ensures outcome.Done? ==> localTombstones == AfterStored(old(localTombstones), items)
      ensures outcome.Raised? ==> StoppedEarly(old(localTombstones), items, maxLocalTombstones, localTombstones)
      ensures forall k | k in old(localTombstones) :: k in localTombstones && localTombstones[k] >= old(localTombstones)[k]
      ensures outcome.Done? ==> forall i | 0 <= i < |items| :: Covers(localTombstones, items[i])
      ensures forall k | k in localTombstones :: FromStored(old(localTombstones), items, k, localTombstones[k])
      ensures |localTombstones| <= maxLocalTombstones || localTombstones.Keys == old(localTombstones).Keys
    {
      hide Restored, StoredVersion, StoredStreams, StoppedEarly, AfterStored;
      ghost var before := localTombstones;
      NothingRestored(before, items, maxLocalTombstones);
      NoneStored(before, items);
      for i := 0 to |items|
        invariant Restored(before, items, i, maxLocalTombstones, localTombstones)
        invariant localTombstones == AfterStored(before, items[..i])
        invariant forall j | 0 <= j < i :: !StopsAt(before, items, j, maxLocalTombstones)
      {
        var stored := StoredVersion(items[i]);
        var k := items[i].stream;
        if stored.Some? && k !in localTombstones && |localTombstones| >= maxLocalTombstones {
          RestoredIs(before, items, i, maxLocalTombstones, localTombstones);
          Stopped(before, items, i, maxLocalTombstones);
          return Raised(OverflowError);
        }
        RestoreOne(before, items, i, maxLocalTombstones, localTombstones);
        OneMoreStored(before, items, i);
        if stored.Some? {
          localTombstones := localTombstones[k := Max(stored.value, if k in localTombstones then localTombstones[k] else 0.0)];
        }
      }
      RestoredIs(before, items, |items|, maxLocalTombstones, localTombstones);
      assert items[..|items|] == items;
      StoredKeys(before, items);
      NeverStopped(before, items, maxLocalTombstones, localTombstones);
      outcome := Done;
    }

    // ----- the merged view -----

    /** The view of a stream: its local log, or an empty one of the default configuration,
        merged with every peer log in whatever order the dictionary lists them. It is refused
        when some log has another configuration; otherwise any order gives the same answer. */
    method GetMergedStream(k: StreamKey) returns (r: Option<Log>)
      requires SaneLogs(Contributions(AsNode(), k)) && !Has(peerSnapshots, k, nodeId)
      ensures IsView(AsNode(), k, r)
    {
      hide Merging, CheckedMerge, AsNode, Contributions, SaneLogs, IsView, ViewConfig;
      ghost var logs, c := Contributions(AsNode(), k), ViewConfig(AsNode(), k);
      ghost var order: seq<NodeId> := if k in streams then [nodeId] else [];
      var peers := if k in peerSnapshots then peerSnapshots[k] else map[];
      LogsAre(k);
      ViewStarts(k);
      r := Some(if k in streams then streams[k].log else EmptyLog(DEFAULT_CONFIG));
      MergingStarts(c, logs, order, r);
      var todo := peers.Keys;
      while todo != {}
        invariant todo <= peers.Keys && nodeId !in todo
        invariant forall o :: o in order <==> o in logs && o !in todo
        invariant forall i, j | 0 <= i < j < |order| :: order[i] != order[j]
        invariant Merging(c, logs, order, r)
      {
        ghost var some := Pick(todo);
        var o :| o in todo;
        MergesNext(c, logs, order, o, r);
        // A refused merge raises and ends the loop.
        if r.Some? { r := CheckedMerge(r.value, peers[o].log); }
        todo, order := todo - {o}, order + [o];
      }
      Merges(AsNode(), k, order, r);
    }

    /** The view starts from a well formed log of its configuration, and if some log has
        another, it is a peer's. */
    lemma ViewStarts(k: StreamKey)
      requires SaneLogs(Contributions(AsNode(), k)) && !Has(peerSnapshots, k, nodeId)
      ensures ValidConfig(DEFAULT_CONFIG) && ValidConfig(ViewConfig(AsNode(), k))
      ensures ViewConfig(AsNode(), k) == if k in streams then streams[k].log.config else DEFAULT_CONFIG
      ensures k in streams ==> Shaped(streams[k].log)
      ensures nodeId in Contributions(AsNode(), k) ==> Contributions(AsNode(), k)[nodeId].config == ViewConfig(AsNode(), k)
    {
      LogsAre(k);
    }

    lemma LogsAre(k: StreamKey)
      ensures var logs, held := Contributions(AsNode(), k), Inner(peerSnapshots, k);
        && logs.Keys == held.Keys + (if k in streams then {nodeId} else {})
        && (k in streams ==> logs[nodeId] == streams[k].log)
        && forall o | o in held && (o != nodeId || k !in streams) :: logs[o] == held[o].log
    {
    }

    /** Deleting a stream at the endpoint: it is looked up in memory and then in storage, its
        tombstone reserved, its durable deletion tried, and the stream taken from memory. A
        failed deletion takes the reservation back. */
    method DeleteStream(k: StreamKey, time: real, stored: Option<Versioned>, loadFails: bool, deleteFails: bool)
      returns (r: Deletion)
      modifies this`localTombstones, this`streams
      ensures r.NotFound? <==> k !in old(streams) && !loadFails && stored.None?
      ensures var looked := if k in old(streams) || loadFails || stored.None? then old(streams) else old(streams)[k := stored.value];
        streams == if r.Deleted? then looked - {k} else looked
      ensures localTombstones == if r.Deleted? then old(localTombstones)[k := r.version] else old(localTombstones)
      ensures var before, found := old(AsNode()), Found(old(AsNode()), k, stored, loadFails);
        var room := k in before.tombstones || |before.tombstones| < maxLocalTombstones;
        && (r.NotFound? <==> k !in found.local && !loadFails)
        && (r.NoCapacity? <==> k in found.local && !room)
        && (r.StorageFailed? <==> if k in found.local then room && deleteFails else loadFails)
        && AsNode() == (if r.Deleted? then Announce(found, k, Tombstone(r.version)) else found)
        && (r.Deleted? ==> r.version > LocalTombstone(before, k) && r.version >= time)
        && (r.Deleted? && PositiveOwn(found) ==>
             (r.version > Published(found, k) <==> Max(time, LocalTombstone(before, k) + 0.000001) > LocalVersion(found, k)))
    {
      if k !in streams {
        if loadFails { return StorageFailed; }
        if stored.None? { return NotFound; }
        streams := streams[k := stored.value];
      }
      var found := streams;
      var reserved := BeginDeletion(k, time);
      if reserved.None? { return NoCapacity; }
      if deleteFails {
        RollbackUndoes(old(localTombstones), k, time, reserved.value);
        RollbackDeletion(k, reserved.value);
        return StorageFailed;
      }
      streams := streams - {k};
      r := Deleted(reserved.value.version);
    }
  }

  // ===== deletions of a node's own streams =====

  datatype Deletion = NotFound | NoCapacity | StorageFailed | Deleted(version: real)

  /** The node once it looked a stream up, in memory and then in storage. */
  function Found(n: Node, k: StreamKey, stored: Option<Versioned>, loadFails: bool): Node {
    if k in n.local || loadFails || stored.None? then n else n.(local := n.local[k := stored.value])
  }

  // ===== what a reply leaves out =====

  /** Every stream of a node is keyed by a pair of names. */
  ghost predicate PairsOnly(n: Node) {
    forall k | k in ListedStreams(n) :: k.Pair?
  }

  /** Entries a node answers with, about pairs. */
  ghost predicate AnswersOf(n: Node, fs: seq<Fact>) {
    forall f | f in fs :: f.stream.Pair? && f.entry == Answer(n, f.stream, f.origin)
  }

  lemma {:induction false} AnswersAreOneEach(n: Node, fs: seq<Fact>)
    requires AnswersOf(n, fs)
    ensures OneEach(fs)
  {
    hide KeyText, Answer;
    forall f, g | f in fs && g in fs && KeyText(f.stream) == KeyText(g.stream) && f.origin == g.origin ensures f == g {
      TextsDiffer(f.stream, g.stream);
    }
  }

  lemma OfferIsAnswer(n: Node, seen: (StreamKey, NodeId) -> real, f: Fact)
    requires Offers(n, seen, f)
    ensures f.entry == Answer(n, f.stream, f.origin)
  {
  }

  /** Requests come stream by stream, each origin of a stream once. */
  ghost predicate GroupedWants(ws: seq<Want>) {
    && (forall i, j | 0 <= i < j < |ws| :: ws[i] != ws[j])
    && forall i, j, k | 0 <= i <= j <= k < |ws| && ws[i].stream == ws[k].stream :: ws[j].stream == ws[i].stream
  }

  ghost predicate EndsWith(ws: seq<Want>, k: StreamKey) { ws != [] && ws[|ws| - 1].stream == k }

  lemma NoWants()
    ensures GroupedWants([])
  {
  }

  lemma {:induction false} GroupGrows(ws: seq<Want>, w: Want)
    requires GroupedWants(ws) && w !in ws && (EndsWith(ws, w.stream) || forall v | v in ws :: v.stream != w.stream)
    ensures GroupedWants(ws + [w]) && EndsWith(ws + [w], w.stream)
  {
    var more := ws + [w];
    forall i, j, k | 0 <= i <= j <= k < |more| && more[i].stream == more[k].stream ensures more[j].stream == more[i].stream {
      if k == |ws| && i < |ws| {
        assert more[i] in ws;
        assert more[|ws| - 1] == ws[|ws| - 1];
        if j < |ws| { assert ws[i].stream == ws[|ws| - 1].stream; }
      }
    }
    forall i, j | 0 <= i < j < |more| ensures more[i] != more[j] {
      if j == |ws| { assert more[i] in ws; }
    }
  }

  /** A wanted origin is asked for, or asking for it as well would take the reply beyond a
      quarter of the limit. */
  ghost predicate RequestedOrTooMuch(nodeId: NodeId, max: nat, write: Writer, ws: seq<Want>, w: Want) {
    w in ws || ReplySize(nodeId, write, [], ws + [w]) > max / 4
  }

  lemma NoFacts()
    ensures OneEach([])
  {
  }

  lemma {:induction false} AskedStaysAsked(nodeId: NodeId, max: nat, write: Writer, vs: seq<Want>, ws: seq<Want>)
    requires forall v | v in vs :: v in ws
    ensures forall w | RequestedOrTooMuch(nodeId, max, write, vs, w) :: RequestedOrTooMuch(nodeId, max, write, ws, w)
  {
    hide ReplySize;
    NoFacts();
    forall w | RequestedOrTooMuch(nodeId, max, write, vs, w) ensures RequestedOrTooMuch(nodeId, max, write, ws, w) {
      assert (forall v :: v in vs + [w] <==> v in vs || v == w) && forall v :: v in ws + [w] <==> v in ws || v == w;
      ReplyGrows(nodeId, write, [], [], vs + [w], ws + [w]);
    }
  }

  lemma {:induction false} AskingGrows(nodeId: NodeId, max: nat, write: Writer, vs: seq<Want>, ws: seq<Want>, w: Want, ok: bool)
    requires ws == if ok then vs + [w] else vs
    requires !ok ==> ReplySize(nodeId, write, [], vs + [w]) > max / 4
    ensures forall v | RequestedOrTooMuch(nodeId, max, write, vs, v) :: RequestedOrTooMuch(nodeId, max, write, ws, v)
    ensures RequestedOrTooMuch(nodeId, max, write, ws, w)
    ensures forall v :: v in ws <==> v in vs || (ok && v == w)
  {
    hide RequestedOrTooMuch, ReplySize;
    assert forall v | v in vs :: v in ws;
    AskedStaysAsked(nodeId, max, write, vs, ws);
    assert RequestedOrTooMuch(nodeId, max, write, ws, w) by { AskedNow(nodeId, max, write, ws, w, ok); }
  }

  lemma {:induction false} AskedNow(nodeId: NodeId, max: nat, write: Writer, ws: seq<Want>, w: Want, ok: bool)
    requires (ok ==> w in ws) && (!ok ==> ReplySize(nodeId, write, [], ws + [w]) > max / 4)
    ensures RequestedOrTooMuch(nodeId, max, write, ws, w)
  {
  }

  /** Entries offered in one sweep, which ends at the first that does not fit: a node's own
      streams, its own tombstones, the snapshots or the tombstones it holds of one stream. */
  predicate ComesWith(nodeId: NodeId, f: Fact, g: Fact) {
    && (f.origin == nodeId <==> g.origin == nodeId) && (f.entry.Snapshot? <==> g.entry.Snapshot?)
    && (f.origin != nodeId ==> f.stream == g.stream)
  }

  /** An entry is in the reply, or one of its sweep would take the reply beyond the limit. */
  ghost predicate CarriedOrTooMuch(n: Node, seen: (StreamKey, NodeId) -> real, max: nat, write: Writer, fs: seq<Fact>, ws: seq<Want>, f: Fact) {
    f in fs || exists g ::
      ComesWith(n.id, f, g) && Offers(n, seen, g) && g.stream.Pair? && ReplySize(n.id, write, fs + [g], ws) > max
  }

  lemma {:induction false} CarriedStaysCarried(n: Node, seen: (StreamKey, NodeId) -> real, max: nat, write: Writer,
    fs: seq<Fact>, gs: seq<Fact>, ws: seq<Want>, f: Fact)
    requires AnswersOf(n, gs) && (forall g | g in fs :: g in gs) && CarriedOrTooMuch(n, seen, max, write, fs, ws, f)
    ensures CarriedOrTooMuch(n, seen, max, write, gs, ws, f)
  {
    hide ReplySize, Answer;
    if f !in fs {
      var g :| ComesWith(n.id, f, g) && Offers(n, seen, g) && g.stream.Pair? && ReplySize(n.id, write, fs + [g], ws) > max;
      assert (forall x :: x in fs + [g] <==> x in fs || x == g) && forall x :: x in gs + [g] <==> x in gs || x == g;
      AnswersAreOneEach(n, gs + [g]);
      ReplyGrows(n.id, write, fs + [g], gs + [g], ws, ws);
    }
  }

  /** What trying to add one more entry settles. */
  lemma {:induction false} OfferSettles(n: Node, seen: (StreamKey, NodeId) -> real, max: nat, write: Writer,
    fs: seq<Fact>, ws: seq<Want>, f: Fact)
    requires AnswersOf(n, fs + [f]) && Offers(n, seen, f)
    ensures forall g :: g in fs + [f] <==> g in fs || g == f
    ensures forall g | CarriedOrTooMuch(n, seen, max, write, fs, ws, g) :: CarriedOrTooMuch(n, seen, max, write, fs + [f], ws, g)
    ensures CarriedOrTooMuch(n, seen, max, write, fs + [f], ws, f)
    ensures ReplySize(n.id, write, fs + [f], ws) > max ==>
      forall g | ComesWith(n.id, f, g) :: CarriedOrTooMuch(n, seen, max, write, fs, ws, g)
  {
    hide ReplySize, Answer, Offers;
    assert forall g :: g in fs + [f] <==> g in fs || g == f;
    assert f in fs + [f];
    forall g | CarriedOrTooMuch(n, seen, max, write, fs, ws, g) ensures CarriedOrTooMuch(n, seen, max, write, fs + [f], ws, g) {
      CarriedStaysCarried(n, seen, max, write, fs, fs + [f], ws, g);
    }
    if ReplySize(n.id, write, fs + [f], ws) > max {
      forall g | ComesWith(n.id, f, g) ensures CarriedOrTooMuch(n, seen, max, write, fs, ws, g) {
        assert ComesWith(n.id, g, f) && Offers(n, seen, f) && f.stream.Pair? && ReplySize(n.id, write, fs + [f], ws) > max;
      }
    }
  }

  /** What a reply to a digest asks for and carries. */
  ghost predicate Replies(n: Node, seen: (StreamKey, NodeId) -> real, max: nat, write: Writer, ws: seq<Want>, fs: seq<Fact>) {
    && (forall w | w in ws :: Wants(n, seen, w.stream, w.origin)) && (forall f | f in fs :: Offers(n, seen, f))
    && (forall k, o | Wants(n, seen, k, o) :: RequestedOrTooMuch(n.id, max, write, ws, Want(k, o)))
    && (forall f | Offers(n, seen, f) :: CarriedOrTooMuch(n, seen, max, write, fs, ws, f))
  }

  /** The whole of what could be asked for and sent, in some order. */
  ghost predicate Whole(n: Node, seen: (StreamKey, NodeId) -> real, ws: seq<Want>, fs: seq<Fact>) {
    && (forall k, o :: Want(k, o) in ws <==> Wants(n, seen, k, o))
    && (forall f :: f in fs <==> Offers(n, seen, f))
  }

  /** When all requests fit a quarter of the limit and everything fits the limit, nothing is
      left out. */
  lemma {:induction false} WholeReplyWhenItFits(n: Node, seen: (StreamKey, NodeId) -> real, max: nat, write: Writer,
    ws: seq<Want>, fs: seq<Fact>,
    all: seq<Want>, everything: seq<Fact>)
    requires Replies(n, seen, max, write, ws, fs) && Whole(n, seen, all, everything) && AnswersOf(n, everything)
    requires ReplySize(n.id, write, [], all) <= max / 4 && ReplySize(n.id, write, everything, all) <= max
    ensures Whole(n, seen, ws, fs)
  {
    hide ReplySize, Answer, Wants, Offers;
    NoFacts();
    AnswersAreOneEach(n, everything);
    forall k, o | Wants(n, seen, k, o) ensures Want(k, o) in ws {
      assert forall v :: v in ws + [Want(k, o)] <==> v in ws || v == Want(k, o);
      assert forall v | v in ws :: v == Want(v.stream, v.origin);
      assert RequestedOrTooMuch(n.id, max, write, ws, Want(k, o));
      ReplyGrows(n.id, write, [], [], ws + [Want(k, o)], all);
    }
    forall f | Offers(n, seen, f) ensures f in fs {
      assert CarriedOrTooMuch(n, seen, max, write, fs, ws, f);
      if f !in fs {
        var g :| ComesWith(n.id, f, g) && Offers(n, seen, g) && g.stream.Pair? && ReplySize(n.id, write, fs + [g], ws) > max;
        assert forall x :: x in fs + [g] <==> x in fs || x == g;
        assert forall v | v in ws :: v == Want(v.stream, v.origin);
        ReplyGrows(n.id, write, fs + [g], everything, ws, all);
        assert false;
      }
    }
  }

  /** The facts that answer a list of requests. */
  function AnswersTo(n: Node, ws: seq<Want>): seq<Fact> {
    if ws == [] then []
    else
      var front, last := AnswersTo(n, ws[..|ws| - 1]), ws[|ws| - 1];
      if ValidStreamKey(last.stream) && ValidName(last.origin)
      then front + [Fact(last.stream, last.origin, Answer(n, last.stream, last.origin))] else front
  }

  datatype Reservation = Reservation(version: real, previous: Option<real>)

  /** A reservation made at a moment: above the previous tombstone and not before the clock. */
  ghost predicate Begun(m: map<StreamKey, real>, k: StreamKey, time: real, r: Reservation) {
    && r.previous == (if k in m then Some(m[k]) else None)
    && r.version == Max(time, (if k in m then m[k] else 0.0) + 0.000001)
  }

  function RolledBack(m: map<StreamKey, real>, k: StreamKey, r: Reservation): map<StreamKey, real> {
    if k !in m || m[k] != r.version then m
    else if r.previous.None? then m - {k}
    else m[k := r.previous.value]
  }

  lemma AllMergeable(c: Config, logs: map<NodeId, Log>)
    requires SaneLogs(logs) && Uniform(c, logs) && ValidConfig(c)
    ensures Mergeable(c, logs)
  {
  }

  lemma SaneIsShaped(logs: map<NodeId, Log>, o: NodeId)
    requires SaneLogs(logs) && o in logs
    ensures Shaped(logs[o])
  {
  }

  lemma MergeKeepsConfig(a: Log, b: Log)
    requires Shaped(a) && Shaped(b)
    ensures var r := CheckedMerge(a, b);
      && (r.Some? ==> Shaped(r.value) && r.value.config == a.config)
      && (b.config != a.config ==> r.None?)
  {
  }

  /** Where the merge of some logs stands: as expected if all logs have the configuration, and
      refused once it met one that has not. */
  ghost predicate Merging(c: Config, logs: map<NodeId, Log>, order: seq<NodeId>, r: Option<Log>) {
    && (forall o | o in order :: o in logs)
    && (r.Some? ==> Shaped(r.value) && r.value.config == c)
    && (Uniform(c, logs) ==> Mergeable(c, logs) && r == MergeInOrder(c, logs, order))
    && ((exists o :: o in order && logs[o].config != c) ==> r.None?)
  }

  lemma {:induction false} MergingStarts(c: Config, logs: map<NodeId, Log>, order: seq<NodeId>, r: Option<Log>)
    requires SaneLogs(logs) && ValidConfig(c) && r.Some? && Shaped(r.value) && r.value.config == c
    requires order == [] ==> r.value == EmptyLog(c)
    requires order != [] ==> |order| == 1 && order[0] in logs && r.value == logs[order[0]]
    ensures Merging(c, logs, order, r)
  {
    hide MergeInOrder, Mergeable, SaneLogs;
    if Uniform(c, logs) {
      AllMergeable(c, logs);
      EmptyMerge(c, logs);
      if order != [] {
        OneLog(c, logs, order[0]);
        assert order == [order[0]];
      }
    }
  }

  lemma {:induction false} MergesNext(c: Config, logs: map<NodeId, Log>, order: seq<NodeId>, o: NodeId, r: Option<Log>)
    requires SaneLogs(logs) && o in logs && Merging(c, logs, order, r)
    ensures Shaped(logs[o]) && (r.Some? ==> Shaped(r.value))
    ensures Merging(c, logs, order + [o], if r.Some? then CheckedMerge(r.value, logs[o]) else None)
  {
    hide MergeInOrder, Mergeable, CheckedMerge;
    SaneIsShaped(logs, o);
    if r.Some? { MergeKeepsConfig(r.value, logs[o]); }
    if Uniform(c, logs) { OneMoreLog(c, logs, order, o); }
    assert forall p :: p in order + [o] <==> p in order || p == o;
  }

  lemma {:induction false} Merges(n: Node, k: StreamKey, order: seq<NodeId>, r: Option<Log>)
    requires Merging(ViewConfig(n, k), Contributions(n, k), order, r) && Enumerates(order, Contributions(n, k))
    ensures IsView(n, k, r)
  {
    hide MergeInOrder, Mergeable, Contributions, ViewConfig;
    var c, logs := ViewConfig(n, k), Contributions(n, k);
    if Uniform(c, logs) {
      forall full | Enumerates(full, logs) ensures r == MergeInOrder(c, logs, full) {
        AnyOrderGivesTheSameView(c, logs, order, full);
      }
    }
  }

  lemma {:induction false} OneMoreLog(c: Config, logs: map<NodeId, Log>, order: seq<NodeId>, o: NodeId)
    requires Mergeable(c, logs) && o in logs && forall p | p in order :: p in logs
    ensures MergeInOrder(c, logs, order + [o])
         == match MergeInOrder(c, logs, order) case None => None case Some(l) => CheckedMerge(l, logs[o])
  {
    assert (order + [o])[..|order|] == order;
  }

  datatype Stored = Stored(stream: StreamKey, version: WireVersion)

  /** The version a stored tombstone is restored with, when it is valid. */
  function StoredVersion(s: Stored): Option<real> {
    if ValidStreamKey(s.stream) && s.version.Number? && s.version.value >= 0.0 then Some(s.version.value) else None
  }

  /** A stored tombstone counts when its key is the text of at most 1024 characters of two names
      of 1 to 255 characters and its version a number of at least 0. */
  lemma {:induction false} StoredVersionMeans(s: Stored, v: real)
    ensures StoredVersion(s) == Some(v) <==>
      && s.stream.Pair? && 1 <= |s.stream.namespace| <= 255 && 1 <= |s.stream.stream| <= 255
      && |KeyText(s.stream)| <= 1024 && s.version == Number(v) && v >= 0.0
  {
    hide KeyText, KeyLength;
    if s.stream.Pair? { KeyLengthIs(s.stream.namespace, s.stream.stream); }
  }

  /** A version a stream had before, or one that is stored for it. */
  ghost predicate FromStored(before: map<StreamKey, real>, items: seq<Stored>, k: StreamKey, v: real) {
    || (k in before && before[k] == v)
    || exists i :: 0 <= i < |items| && items[i].stream == k && StoredVersion(items[i]) == Some(v)
  }

  /** A stored version has been taken in. */
  ghost predicate Covers(m: map<StreamKey, real>, s: Stored) {
    StoredVersion(s).Some? ==> s.stream in m && m[s.stream] >= StoredVersion(s).value
  }

  /** Tombstones after the first i stored ones: none fell, all stored ones are covered, and
      none was made up. */
  ghost predicate Restored(before: map<StreamKey, real>, items: seq<Stored>, i: nat, capacity: nat, m: map<StreamKey, real>)
    requires i <= |items|
  {
    && (forall k | k in before :: k in m && m[k] >= before[k])
    && (forall j | 0 <= j < i :: Covers(m, items[j]))
    && (forall k | k in m :: FromStored(before, items, k, m[k]))
    && (|m| <= capacity || m.Keys == before.Keys)
  }

  lemma {:induction false} RestoredIs(before: map<StreamKey, real>, items: seq<Stored>, i: nat, capacity: nat, m: map<StreamKey, real>)
    requires i <= |items| && Restored(before, items, i, capacity, m)
    ensures forall k | k in before :: k in m && m[k] >= before[k]
    ensures forall j | 0 <= j < i :: Covers(m, items[j])
    ensures forall k | k in m :: FromStored(before, items, k, m[k])
    ensures |m| <= capacity || m.Keys == before.Keys
  {
    hide Covers, FromStored;
  }

  lemma {:induction false} NothingRestored(before: map<StreamKey, real>, items: seq<Stored>, capacity: nat)
    ensures Restored(before, items, 0, capacity, before)
  {
    hide Covers, StoredVersion;
  }

  lemma {:induction false} RestoreOne(before: map<StreamKey, real>, items: seq<Stored>, i: nat, capacity: nat, m: map<StreamKey, real>)
    requires i < |items| && Restored(before, items, i, capacity, m)
    requires StoredVersion(items[i]).Some? ==> items[i].stream in m || |m| < capacity
    ensures var v, k := StoredVersion(items[i]), items[i].stream;
      Restored(before, items, i + 1, capacity, if v.Some? then m[k := Max(v.value, if k in m then m[k] else 0.0)] else m)
  {
    hide Covers, FromStored, StoredVersion;
    var v, k := StoredVersion(items[i]), items[i].stream;
    StoredIs(before, items, i);
    if v.Some? {
      var newest := Max(v.value, if k in m then m[k] else 0.0);
      var more := m[k := newest];
      IsCovered(more, items[i]);
      forall j | 0 <= j < i ensures Covers(more, items[j]) { StaysCovered(m, k, newest, items[j]); }
      assert more.Keys == m.Keys + {k};
      assert |more.Keys| == |more| && |m.Keys| == |m|;
    } else {
      IsCovered(m, items[i]);
    }
  }

  /** All valid stored tombstones taken in, without a capacity. */
  function AfterStored(m: map<StreamKey, real>, items: seq<Stored>): map<StreamKey, real> {
    if items == [] then m
    else
      var front, last := AfterStored(m, items[..|items| - 1]), items[|items| - 1];
      if StoredVersion(last).None? then front
      else front[last.stream := Max(StoredVersion(last).value, if last.stream in front then front[last.stream] else 0.0)]
  }

  /** After all of them a stream has the greatest of its version before and those stored for it. */
  lemma {:induction false} AfterStoredMeans(m: map<StreamKey, real>, items: seq<Stored>, k: StreamKey)
    requires forall j | j in m :: m[j] >= 0.0
    ensures var r := AfterStored(m, items);
      && (k in r <==> k in m || exists i :: 0 <= i < |items| && items[i].stream == k && StoredVersion(items[i]).Some?)
      && (forall i | 0 <= i < |items| && items[i].stream == k && StoredVersion(items[i]).Some? :: r[k] >= StoredVersion(items[i]).value)
      && (k in m ==> r[k] >= m[k])
      && (k in r ==> (k in m && r[k] == m[k]) || exists i :: 0 <= i < |items| && items[i].stream == k && StoredVersion(items[i]) == Some(r[k]))
  {
    hide StoredVersion;
    if items != [] {
      var n := |items| - 1;
      var front, last := items[..n], items[n];
      AfterStoredMeans(m, front, k);
      StoredIsNatural(last);
      AfterStoredIsNatural(m, front, k);
      assert forall i | 0 <= i < n :: items[i] == front[i];
    }
  }

  lemma StoredIsNatural(s: Stored)
    ensures StoredVersion(s).Some? ==> StoredVersion(s).value >= 0.0
  {
  }

  lemma {:induction false} AfterStoredIsNatural(m: map<StreamKey, real>, items: seq<Stored>, k: StreamKey)
    requires forall j | j in m :: m[j] >= 0.0
    ensures k in AfterStored(m, items) ==> AfterStored(m, items)[k] >= 0.0
  {
    hide StoredVersion;
    if items != [] { AfterStoredIsNatural(m, items[..|items| - 1], k); }
  }

  function StoredStreams(items: seq<Stored>): set<StreamKey> { set s | s in items && StoredVersion(s).Some? :: s.stream }

  /** The i-th stored tombstone is valid, its stream is new and there is no room for it. */
  ghost predicate StopsAt(m: map<StreamKey, real>, items: seq<Stored>, i: nat, capacity: nat)
    requires i < |items|
  {
    var now := AfterStored(m, items[..i]);
    StoredVersion(items[i]).Some? && items[i].stream !in now && |now| >= capacity
  }

  /** What was restored is all before the first stored tombstone without room. */
  ghost predicate StoppedEarly(m: map<StreamKey, real>, items: seq<Stored>, capacity: nat, now: map<StreamKey, real>) {
    exists i | 0 <= i < |items| ::
      StopsAt(m, items, i, capacity) && now == AfterStored(m, items[..i]) && forall j | 0 <= j < i :: !StopsAt(m, items, j, capacity)
  }

  lemma {:induction false} NoneStored(m: map<StreamKey, real>, items: seq<Stored>)
    ensures AfterStored(m, items[..0]) == m
  {
  }

  lemma {:induction false} OneMoreStored(m: map<StreamKey, real>, items: seq<Stored>, i: nat)
    requires i < |items|
    ensures var front, s := AfterStored(m, items[..i]), items[i];
      AfterStored(m, items[..i + 1])
      == if StoredVersion(s).None? then front
         else front[s.stream := Max(StoredVersion(s).value, if s.stream in front then front[s.stream] else 0.0)]
  {
    assert items[..i + 1][..i] == items[..i];
  }

  lemma {:induction false} StoredKeys(m: map<StreamKey, real>, items: seq<Stored>)
    ensures AfterStored(m, items).Keys == m.Keys + StoredStreams(items)
  {
    hide StoredVersion;
    if items != [] {
      var front, last := items[..|items| - 1], items[|items| - 1];
      assert items == front + [last];
      StoredKeys(m, front);
      assert forall s :: s in items <==> s in front || s == last;
    }
  }

  lemma {:induction false} Stopped(m: map<StreamKey, real>, items: seq<Stored>, i: nat, capacity: nat)
    requires i < |items| && StopsAt(m, items, i, capacity) && forall j | 0 <= j < i :: !StopsAt(m, items, j, capacity)
    ensures StoppedEarly(m, items, capacity, AfterStored(m, items[..i]))
    ensures !(StoredStreams(items) <= m.Keys) && |m.Keys + StoredStreams(items)| > capacity
  {
    hide StoredVersion, AfterStored;
    StoredKeys(m, items[..i]);
    var now := AfterStored(m, items[..i]);
    assert items[i] in items && forall s | s in items[..i] :: s in items;
    assert StoredStreams(items[..i]) <= StoredStreams(items) && items[i].stream in StoredStreams(items);
    ProperSubset(now.Keys, m.Keys + StoredStreams(items), items[i].stream);
    assert |now.Keys| == |now|;
  }

  /** Without a stop everything fits, or nothing was new. */
  lemma {:induction false} NeverStopped(m: map<StreamKey, real>, items: seq<Stored>, capacity: nat, now: map<StreamKey, real>)
    requires now.Keys == m.Keys + StoredStreams(items) && (|now| <= capacity || now.Keys == m.Keys)
    ensures StoredStreams(items) <= m.Keys || |m.Keys + StoredStreams(items)| <= capacity
  {
    hide StoredStreams;
    assert |now.Keys| == |now|;
  }

  lemma IsCovered(m: map<StreamKey, real>, s: Stored)
    ensures s.stream in m && StoredVersion(s).Some? && m[s.stream] >= StoredVersion(s).value ==> Covers(m, s)
    ensures StoredVersion(s).None? ==> Covers(m, s)
  {
  }

  lemma StaysCovered(m: map<StreamKey, real>, k: StreamKey, v: real, s: Stored)
    requires Covers(m, s) && (k in m ==> v >= m[k])
    ensures Covers(m[k := v], s)
  {
    hide StoredVersion;
  }

  lemma {:induction false} StoredIs(before: map<StreamKey, real>, items: seq<Stored>, i: nat)
    requires i < |items|
    ensures StoredVersion(items[i]).Some? ==>
      FromStored(before, items, items[i].stream, StoredVersion(items[i]).value) && StoredVersion(items[i]).value >= 0.0
  {
  }

  /** Undoing a reservation at once restores the tombstones as they were. */
  lemma {:induction false} RollbackUndoes(m: map<StreamKey, real>, k: StreamKey, time: real, r: Reservation)
    requires Begun(m, k, time, r)
    ensures RolledBack(m[k := r.version], k, r) == m
  {
  }

  /** Two reservations of one stream that both fail are undone when the later is rolled back
      first; the other way round, the earlier tombstone stays. */
  lemma {:induction false} RollbacksNest(m: map<StreamKey, real>, k: StreamKey, t1: real, r1: Reservation, t2: real, r2: Reservation)
    requires Begun(m, k, t1, r1) && Begun(m[k := r1.version], k, t2, r2)
    ensures var both := m[k := r1.version][k := r2.version];
      && RolledBack(RolledBack(both, k, r2), k, r1) == m
      && RolledBack(RolledBack(both, k, r1), k, r2) == m[k := r1.version] != m
  {
    assert m[k := r1.version][k := r2.version][k := r1.version] == m[k := r1.version];
    assert k in m ==> m[k := r1.version][k] != m[k];
  }

  /** A node reserves a tombstone for a live stream, a peer takes it in, and the reservation is
      rolled back. The node answers with its stream again; the peer shows that answer, or any
      later state of the stream, exactly when it is newer than the tombstone. */
  lemma {:induction false} RollbackLeavesPeersBehind(n: Node, k: StreamKey, time: real, r: Reservation, ps: Peers, later: Entry)
    requires PositiveOwn(n) && k in n.local && Begun(n.tombstones, k, time, r)
    requires ValidPeers(ps) && Accepts(ps, k, n.id, Tombstone(r.version))
    requires later.Snapshot? && (later == Answer(n, k, n.id) || later.version > Published(n, k))
    ensures var told := Install(ps, k, n.id, Tombstone(r.version));
      var back := n.(tombstones := RolledBack(n.tombstones[k := r.version], k, r));
      && EntryAt(told, k, n.id) == Some(Tombstone(r.version))
      && back == n && Answer(back, k, n.id) == Snapshot(n.local[k].log, n.local[k].version)
      && (EntryAt(Install(told, k, n.id, later), k, n.id) == Some(later) <==> later.version > r.version)
  {
    hide Install, EntryAt, Known, ValidPeers, Admits;
    var told := Install(ps, k, n.id, Tombstone(r.version));
    RollbackUndoes(n.tombstones, k, time, r);
    InstallChangesOneEntry(ps, k, n.id, Tombstone(r.version), k, n.id);
    InstallKeepsValid(ps, k, n.id, Tombstone(r.version));
    InstallChangesOneEntry(told, k, n.id, later, k, n.id);
    KnownIsEntryVersion(told, k, n.id);
    HeldIsAdmitted(told, k, n.id);
  }

  /** An example of a clock behind the stream: a deletion at time 1 of a stream last updated at
      time 2 is published below it, and peers that hold the stream go on showing it. */
  lemma {:induction false} LateClockLosesDeletion(o: NodeId, k: StreamKey, log: Log)
    ensures var n := Node(o, map[k := Versioned(log, 2.0)], map[], NoPeers());
      var r := Reservation(1.0, None);
      var ps := Peers(map[k := map[o := Versioned(log, 2.0)]], map[]);
      && PositiveOwn(n) && Begun(n.tombstones, k, 1.0, r) && r.version < Published(n, k)
      && Install(ps, k, o, Tombstone(r.version)) == ps && EntryAt(ps, k, o) == Some(Snapshot(log, 2.0))
  {
  }

  lemma HeldIsAdmitted(ps: Peers, k: StreamKey, o: NodeId)
    requires EntryAt(ps, k, o).Some?
    ensures Admits(ps, k, o)
  {
  }

  // What the nested dictionary updates of the receiving code amount to.

  lemma Installed(ps: Peers, k: StreamKey, o: NodeId, e: Entry)
    requires Accepts(ps, k, o, e)
    ensures Install(ps, k, o, e)
         == if e.Tombstone? then Peers(RemoveInner(ps.snapshots, k, o), SetInner(ps.tombstones, k, o, e.version))
            else Peers(SetInner(ps.snapshots, k, o, Versioned(e.log, e.version)), RemoveInner(ps.tombstones, k, o))
  {
  }

  lemma Conditions(ps: Peers, k: StreamKey, o: NodeId, existing: map<NodeId, Versioned>, tombstones: map<NodeId, real>)
    requires existing == Inner(ps.snapshots, k) && tombstones == Inner(ps.tombstones, k)
    ensures Admits(ps, k, o) <==>
      && (k in ps.snapshots.Keys + ps.tombstones.Keys || |ps.snapshots.Keys + ps.tombstones.Keys| < MAX_PEER_STREAMS)
      && (o in existing.Keys + tombstones.Keys || |existing.Keys + tombstones.Keys| < MAX_ORIGINS_PER_STREAM)
    ensures Known(ps, k, o)
         == Max(if o in existing then existing[o].version else 0.0, if o in tombstones then tombstones[o] else 0.0)
  {
  }

  lemma Rows<V>(m: map<StreamKey, map<NodeId, V>>, k: StreamKey, o: NodeId, row: map<NodeId, V>)
    requires row == Inner(m, k)
    ensures RemoveInner(m, k, o) == if row - {o} == map[] then m - {k} else m[k := row - {o}]
  {
  }

  lemma Cell<V>(m: map<StreamKey, map<NodeId, V>>, k: StreamKey, o: NodeId, row: map<NodeId, V>, v: V)
    requires row == Inner(m, k)
    ensures SetInner(m, k, o, v) == m[k := row[o := v]]
  {
  }
}
