/** Membership by rumour. Each node keeps a table of members with a status and an
    incarnation number; only the member itself raises its incarnation, to refute rumours of
    its own death. */
module Membership {
  import opened Prelude
  import opened PeerStore

  datatype Status = Alive | Suspect | Dead

  datatype Member = Member(address: string, status: Status, incarnation: int, lastUpdated: real, isSeed: bool)

  /** What one node knows: its own incarnation and the table, in which it lists itself. */
  datatype Table = Table(id: NodeId, allowed: set<string>, incarnation: int, members: map<NodeId, Member>)

  const MAX_MEMBERS := 256

  /** A record on the wire. None stands for a status, number or address that does not parse;
      an address that does is in canonical form, "" when the sender gave none. */
  datatype Report = NotAnObject | Report(status: Option<Status>, incarnation: Option<int>, address: Option<string>, isSeed: bool)

  datatype Rumour = Rumour(about: NodeId, report: Report)

  ghost predicate ListsItself(t: Table) {
    && t.id in t.members && t.members[t.id].incarnation == t.incarnation && t.members[t.id].status == Alive
    && t.incarnation >= 0
  }

  predicate Usable(r: Rumour) {
    ValidName(r.about) && r.report.Report? && r.report.status.Some? && r.report.incarnation.Some? && r.report.incarnation.value >= 0
  }

  /** The address is missing or allowed. */
  predicate Reachable(t: Table, r: Rumour)
    requires Usable(r)
  {
    r.report.address.Some? && (r.report.address.value == "" || r.report.address.value in t.allowed)
  }

  predicate Accuses(r: Rumour)
    requires Usable(r)
  {
    !r.report.status.value.Alive?
  }

  function IncarnationOf(r: Rumour): int
    requires Usable(r)
  {
    r.report.incarnation.value
  }

  function Refute(t: Table, incarnation: int, now: real): Table
    requires t.id in t.members
  {
    t.(incarnation := incarnation,
       members := t.members[t.id := t.members[t.id].(incarnation := incarnation, lastUpdated := now)])
  }

  function Recorded(r: Rumour, now: real): Member
    requires Usable(r) && r.report.address.Some?
  {
    Member(r.report.address.value, r.report.status.value, r.report.incarnation.value, now, r.report.isSeed)
  }

  /** A rumour replaces a record of a lower incarnation, and casts doubt on a live record of
      its own incarnation. */
  function Revised(m: Member, r: Rumour, now: real): Member
    requires Usable(r) && r.report.address.Some?
  {
    if IncarnationOf(r) > m.incarnation then Recorded(r, now)
    else if IncarnationOf(r) == m.incarnation && m.status.Alive? && Accuses(r) then m.(status := r.report.status.value, lastUpdated := now)
    else m
  }

  function MergeOne(t: Table, r: Rumour, now: real): Table
    requires t.id in t.members
  {
    if !Usable(r) then t
    else if r.about == t.id then
      if Accuses(r) && IncarnationOf(r) >= t.incarnation then Refute(t, IncarnationOf(r) + 1, now) else t
    else if !Reachable(t, r) then t
    else if r.about in t.members then t.(members := t.members[r.about := Revised(t.members[r.about], r, now)])
    else if |t.members| >= MAX_MEMBERS then t
    else t.(members := t.members[r.about := Recorded(r, now)])
  }

  /** A rumour that lacks a part, or whose name, incarnation or address is not acceptable, says
      nothing. One about the node itself is refuted when it accuses at its incarnation or a
      later one. Any other is recorded as it stands when its subject is new and there are fewer
      than 256 members, or when its incarnation is higher; at the same incarnation it only turns
      a live record to what it is accused of. */
  lemma {:induction false} RumourMeans(t: Table, about: NodeId, status: Status, incarnation: int, address: string, isSeed: bool, now: real)
    requires t.id in t.members
    ensures var r := Rumour(about, Report(Some(status), Some(incarnation), Some(address), isSeed));
      var own := t.members[t.id].(incarnation := incarnation + 1, lastUpdated := now);
      var record := Member(address, status, incarnation, now, isSeed);
      MergeOne(t, r, now) ==
        if !(1 <= |about| <= 255 && incarnation >= 0) then t
        else if about == t.id && status != Alive && incarnation >= t.incarnation
          then Table(t.id, t.allowed, incarnation + 1, t.members[t.id := own])
        else if about == t.id || (address != "" && address !in t.allowed) then t
        else if about !in t.members then if |t.members| < 256 then t.(members := t.members[about := record]) else t
        else if incarnation > t.members[about].incarnation then t.(members := t.members[about := record])
        else if incarnation == t.members[about].incarnation && t.members[about].status == Alive && status != Alive
          then t.(members := t.members[about := t.members[about].(status := status, lastUpdated := now)])
        else t
  {
    if about in t.members { assert t.members[about := t.members[about]] == t.members; }
  }

  lemma {:induction false} IncompleteRumour(t: Table, r: Rumour, now: real)
    requires t.id in t.members
    requires match r.report
      case NotAnObject => true
      case Report(status, incarnation, address, _) => status.None? || incarnation.None? || (address.None? && r.about != t.id)
    ensures MergeOne(t, r, now) == t
  {
  }

  function Merged(t: Table, rs: seq<Rumour>, now: real): (u: Table)
    requires t.id in t.members
    ensures u.id == t.id && u.allowed == t.allowed && t.members.Keys <= u.members.Keys
  {
    if rs == [] then t else MergeOne(Merged(t, rs[..|rs| - 1], now), rs[|rs| - 1], now)
  }

  /** A failed ping turns a live record into a suspect one. */
  function Suspected(t: Table, nid: NodeId, now: real): Table {
    if nid in t.members && t.members[nid].status.Alive?
    then t.(members := t.members[nid := t.members[nid].(status := Suspect, lastUpdated := now)])
    else t
  }

  /** What the passing of time makes of a record: a long suspect one is dead. */
  function Aged(m: Member, now: real, timeout: real): Member {
    if m.status.Suspect? && now - m.lastUpdated > timeout then m.(status := Dead, lastUpdated := now) else m
  }

  /** A record that has been dead for five times as long is dropped. */
  predicate Expired(m: Member, now: real, timeout: real) {
    Aged(m, now, timeout).status.Dead? && now - Aged(m, now, timeout).lastUpdated > timeout * 5.0
  }

  predicate Drops(t: Table, now: real, timeout: real, nid: NodeId)
    requires nid in t.members
  {
    nid != t.id && Expired(t.members[nid], now, timeout)
  }

  function TimedOut(t: Table, now: real, timeout: real): Table {
    t.(members := map nid | nid in t.members && !Drops(t, now, timeout, nid) ::
         if nid == t.id then t.members[nid] else Aged(t.members[nid], now, timeout))
  }

  /** What a pass makes of a record: a suspect silent for longer than the timeout is dead as of
      now, one dead for more than five timeouts is gone, and any other is as it was; a node's
      own record is left alone. Only with a negative timeout would a suspect be gone at once. */
  lemma {:induction false} PassIsExact(t: Table, now: real, timeout: real, nid: NodeId)
    requires nid in t.members
    ensures var m, after := t.members[nid], TimedOut(t, now, timeout).members;
      var late := m.status == Suspect && now - m.lastUpdated > timeout;
      && (nid !in after <==> nid != t.id && ((m.status == Dead && now - m.lastUpdated > timeout * 5.0) || (late && timeout < 0.0)))
      && (nid in after ==> after[nid] == if nid != t.id && late then m.(status := Dead, lastUpdated := now) else m)
    ensures TimedOut(t, now, timeout) == t.(members := TimedOut(t, now, timeout).members)
    ensures TimedOut(t, now, timeout).members.Keys <= t.members.Keys
  {
  }

  /** One pass never drops a record that was not dead before it: a record goes exactly when
      it has been dead for more than five timeouts. */
  lemma {:induction false} OnlyTheDeadAreDropped(t: Table, now: real, timeout: real, nid: NodeId)
    requires nid in t.members && nid != t.id && timeout >= 0.0
    ensures nid !in TimedOut(t, now, timeout).members <==>
      t.members[nid].status.Dead? && now - t.members[nid].lastUpdated > timeout * 5.0
  {
  }

  function Announcement(nid: NodeId, m: Member): Rumour {
    Rumour(nid, Report(Some(m.status), Some(m.incarnation), Some(m.address), m.isSeed))
  }

  // ----- what a list of rumours adds up to -----

  /** Rumours about one member that a table takes in. */
  predicate Counts(t: Table, nid: NodeId, r: Rumour) { Usable(r) && r.about == nid && Reachable(t, r) }

  /** The sources of a record: the record held before and every rumour taken in. */
  ghost predicate Source(t: Table, rs: seq<Rumour>, nid: NodeId, incarnation: int, accused: bool) {
    || (nid in t.members && t.members[nid].incarnation == incarnation && !t.members[nid].status.Alive? == accused)
    || (exists r :: r in rs && Counts(t, nid, r) && IncarnationOf(r) == incarnation && Accuses(r) == accused)
  }

  /** A record has the highest incarnation of all its sources, and is live exactly when no
      source of that incarnation accuses. */
  ghost predicate Verdict(t: Table, rs: seq<Rumour>, nid: NodeId, m: Member) {
    && Source(t, rs, nid, m.incarnation, !m.status.Alive?)
    && (forall i, a :: Source(t, rs, nid, i, a) ==> i <= m.incarnation)
    && (Source(t, rs, nid, m.incarnation, true) ==> !m.status.Alive?)
  }

  ghost predicate Heard(t: Table, rs: seq<Rumour>, nid: NodeId) { exists i, a :: Source(t, rs, nid, i, a) }

  lemma {:induction false} HeardGrows(t: Table, rs: seq<Rumour>, r: Rumour, nid: NodeId)
    ensures Heard(t, rs + [r], nid) <==> Heard(t, rs, nid) || Counts(t, nid, r)
  {
    hide Source;
    forall i, a ensures Source(t, rs + [r], nid, i, a)
      <==> Source(t, rs, nid, i, a) || (Counts(t, nid, r) && IncarnationOf(r) == i && Accuses(r) == a)
    {
      SourceGrows(t, rs, r, nid, i, a);
    }
    if Heard(t, rs, nid) {
      var i, a :| Source(t, rs, nid, i, a);
      assert Source(t, rs + [r], nid, i, a);
    }
    if Counts(t, nid, r) { assert Source(t, rs + [r], nid, IncarnationOf(r), Accuses(r)); }
  }

  lemma {:induction false} SourceGrows(t: Table, rs: seq<Rumour>, r: Rumour, nid: NodeId, i: int, a: bool)
    ensures Source(t, rs + [r], nid, i, a)
       <==> Source(t, rs, nid, i, a) || (Counts(t, nid, r) && IncarnationOf(r) == i && Accuses(r) == a)
  {
    hide Counts, IncarnationOf, Accuses;
    assert r in rs + [r] && forall x :: x in rs + [r] <==> x in rs || x == r;
  }

  lemma {:induction false} VerdictIsRevised(t: Table, rs: seq<Rumour>, r: Rumour, nid: NodeId, m: Member, now: real)
    requires Counts(t, nid, r) && Verdict(t, rs, nid, m)
    ensures Verdict(t, rs + [r], nid, Revised(m, r, now))
  {
    hide Source;
    forall i, a ensures Source(t, rs + [r], nid, i, a) <==> Source(t, rs, nid, i, a) || (IncarnationOf(r) == i && Accuses(r) == a) {
      SourceGrows(t, rs, r, nid, i, a);
    }
  }

  lemma {:induction false} VerdictIsKept(t: Table, rs: seq<Rumour>, r: Rumour, nid: NodeId, m: Member)
    requires !Counts(t, nid, r) && Verdict(t, rs, nid, m)
    ensures Verdict(t, rs + [r], nid, m)
  {
    hide Source;
    forall i, a ensures Source(t, rs + [r], nid, i, a) <==> Source(t, rs, nid, i, a) {
      SourceGrows(t, rs, r, nid, i, a);
    }
  }

  lemma {:induction false} FirstVerdict(t: Table, rs: seq<Rumour>, r: Rumour, nid: NodeId, now: real)
    requires Counts(t, nid, r) && !Heard(t, rs, nid)
    ensures Verdict(t, rs + [r], nid, Recorded(r, now))
  {
    hide Source;
    forall i, a ensures Source(t, rs + [r], nid, i, a) <==> IncarnationOf(r) == i && Accuses(r) == a {
      SourceGrows(t, rs, r, nid, i, a);
    }
  }

  /** The members the rumours mention fit in the table. */
  ghost predicate RoomForAll(t: Table, rs: seq<Rumour>) { |t.members.Keys + Subjects(rs)| <= MAX_MEMBERS }

  ghost function Subjects(rs: seq<Rumour>): set<NodeId> { set r | r in rs :: r.about }

  lemma {:induction false} MergedMembers(t: Table, rs: seq<Rumour>, now: real)
    requires t.id in t.members
    ensures Merged(t, rs, now).members.Keys <= t.members.Keys + Subjects(rs)
  {
    hide Usable, Reachable, Revised, Recorded, Refute, Accuses;
    if rs != [] {
      var front, last := rs[..|rs| - 1], rs[|rs| - 1];
      MergedMembers(t, front, now);
      assert last in rs && forall r | r in front :: r in rs;
      MergeOneMembers(Merged(t, front, now), last, now);
    }
  }

  lemma MergeOneMembers(t: Table, r: Rumour, now: real)
    requires t.id in t.members
    ensures MergeOne(t, r, now).members.Keys <= t.members.Keys + {r.about}
  {
  }

  lemma {:induction false} RoomForNext(t: Table, rs: seq<Rumour>, now: real)
    requires t.id in t.members && rs != [] && RoomForAll(t, rs)
    ensures RoomForAll(t, rs[..|rs| - 1])
    ensures var u := Merged(t, rs[..|rs| - 1], now);
      rs[|rs| - 1].about !in u.members ==> |u.members| < MAX_MEMBERS
  {
    hide Merged;
    var front, last := rs[..|rs| - 1], rs[|rs| - 1];
    var u := Merged(t, front, now);
    MergedMembers(t, front, now);
    assert last in rs && forall r | r in front :: r in rs;
    assert Subjects(front) <= Subjects(rs) && last.about in Subjects(rs);
    SubsetCardinality(t.members.Keys + Subjects(front), t.members.Keys + Subjects(rs));
    if last.about !in u.members {
      var all := t.members.Keys + Subjects(rs);
      ProperSubset(u.members.Keys, all, last.about);
      assert |u.members.Keys| == |u.members|;
    }
  }

  /** Whatever the order of the rumours, a record ends with the highest incarnation heard of,
      and is live exactly when nothing of that incarnation accuses the member. */
  lemma {:induction false} RumoursAddUp(t: Table, rs: seq<Rumour>, now: real, nid: NodeId)
    requires t.id in t.members && nid != t.id && RoomForAll(t, rs)
    ensures nid in Merged(t, rs, now).members <==> Heard(t, rs, nid)
    ensures nid in Merged(t, rs, now).members ==> Verdict(t, rs, nid, Merged(t, rs, now).members[nid])
  {
    hide Usable, Reachable, Revised, Recorded, Refute, RoomForAll, Accuses, IncarnationOf, Verdict, Source, Heard;
    if rs == [] {
      NothingHeard(t, nid);
    } else {
      var front, last := rs[..|rs| - 1], rs[|rs| - 1];
      assert rs == front + [last];
      RoomForNext(t, rs, now);
      RumoursAddUp(t, front, now, nid);
      var u := Merged(t, front, now);
      if Usable(last) { SameReach(t, u, last); }
      if !Counts(t, nid, last) { OtherRumour(u, last, nid, now); }
      HeardGrows(t, front, last, nid);
      if Counts(t, nid, last) {
        if nid in u.members {
          VerdictIsRevised(t, front, last, nid, u.members[nid], now);
        } else {
          FirstVerdict(t, front, last, nid, now);
        }
      } else if nid in u.members {
        VerdictIsKept(t, front, last, nid, u.members[nid]);
      }
    }
  }

  lemma OtherRumour(t: Table, r: Rumour, nid: NodeId, now: real)
    requires t.id in t.members && nid != t.id && !Counts(t, nid, r)
    ensures nid in MergeOne(t, r, now).members <==> nid in t.members
    ensures nid in t.members ==> MergeOne(t, r, now).members[nid] == t.members[nid]
  {
  }

  lemma SameReach(t: Table, u: Table, r: Rumour)
    requires t.allowed == u.allowed && Usable(r)
    ensures Reachable(t, r) == Reachable(u, r)
  {
  }

  lemma NothingHeard(t: Table, nid: NodeId)
    ensures nid in t.members <==> Heard(t, [], nid)
    ensures nid in t.members ==> Verdict(t, [], nid, t.members[nid])
  {
    if nid in t.members { assert Source(t, [], nid, t.members[nid].incarnation, !t.members[nid].status.Alive?); }
  }

  /** Two nodes that take in the same rumours about a member they did not know, in any order
      and any number of times, agree on its incarnation and on whether it is accused. */
  lemma {:induction false} SameRumoursSameVerdict(t: Table, u: Table, xs: seq<Rumour>, ys: seq<Rumour>, now: real, later: real, nid: NodeId)
    requires t.id in t.members && u.id in u.members && nid != t.id && nid != u.id
    requires RoomForAll(t, xs) && RoomForAll(u, ys)
    requires nid !in t.members && nid !in u.members
    requires forall r :: r in xs && Counts(t, nid, r) <==> r in ys && Counts(u, nid, r)
    ensures nid in Merged(t, xs, now).members <==> nid in Merged(u, ys, later).members
    ensures nid in Merged(t, xs, now).members ==>
      && Merged(t, xs, now).members[nid].incarnation == Merged(u, ys, later).members[nid].incarnation
      && Merged(t, xs, now).members[nid].status.Alive? == Merged(u, ys, later).members[nid].status.Alive?
  {
    hide Merged, RoomForAll, Counts, Accuses, IncarnationOf;
    RumoursAddUp(t, xs, now, nid);
    RumoursAddUp(u, ys, later, nid);
    forall i, a ensures Source(t, xs, nid, i, a) <==> Source(u, ys, nid, i, a) { }
  }

  // ----- how badly a member is accused -----

  /** The first of all sources to accuse a member at an incarnation: the record held before,
      then the rumours in their order. */
  function FirstAccusation(t: Table, rs: seq<Rumour>, nid: NodeId, incarnation: int): Option<Status> {
    if rs == [] then HeldAccusation(t, nid, incarnation)
    else
      var front, last := FirstAccusation(t, rs[..|rs| - 1], nid, incarnation), rs[|rs| - 1];
      if front.None? && AccusesAt(t, nid, incarnation, last) then last.report.status else front
  }

  function HeldAccusation(t: Table, nid: NodeId, incarnation: int): Option<Status> {
    if nid in t.members && t.members[nid].incarnation == incarnation && !t.members[nid].status.Alive?
    then Some(t.members[nid].status) else None
  }

  predicate AccusesAt(t: Table, nid: NodeId, incarnation: int, r: Rumour) {
    Counts(t, nid, r) && IncarnationOf(r) == incarnation && Accuses(r)
  }

  /** The status a record of an incarnation ends with. */
  function FinalStatus(t: Table, rs: seq<Rumour>, nid: NodeId, incarnation: int): Status {
    match FirstAccusation(t, rs, nid, incarnation) case Some(status) => status case None => Alive
  }

  predicate AccusesAs(t: Table, nid: NodeId, incarnation: int, r: Rumour, status: Status) {
    AccusesAt(t, nid, incarnation, r) && r.report.status == Some(status)
  }

  /** A rumour of a status at an incarnation is taken in. */
  ghost predicate HeardAs(t: Table, rs: seq<Rumour>, nid: NodeId, incarnation: int, status: Status) {
    exists r :: r in rs && AccusesAs(t, nid, incarnation, r, status)
  }

  /** An accusation comes from the record held before or from a rumour that is taken in. */
  lemma {:induction false} AccusationHasSource(t: Table, rs: seq<Rumour>, nid: NodeId, incarnation: int)
    ensures match FirstAccusation(t, rs, nid, incarnation)
      case Some(status) =>
        && !status.Alive?
        && (HeldAccusation(t, nid, incarnation) == Some(status)
            || (HeldAccusation(t, nid, incarnation).None?
                && HeardAs(t, rs, nid, incarnation, status)))
      case None => HeldAccusation(t, nid, incarnation).None? && forall r | r in rs :: !AccusesAt(t, nid, incarnation, r)
  {
    hide Reachable;
    if rs != [] {
      var front, last := rs[..|rs| - 1], rs[|rs| - 1];
      AccusationHasSource(t, front, nid, incarnation);
      assert rs == front + [last];
      assert forall r :: r in rs <==> r in front || r == last;
      if AccusesAt(t, nid, incarnation, last) { assert AccusesAs(t, nid, incarnation, last, last.report.status.value); }
    }
  }

  /** ... and it counts among the sources of the record. */
  lemma {:induction false} AccusationIsSource(t: Table, rs: seq<Rumour>, nid: NodeId, incarnation: int)
    ensures Source(t, rs, nid, incarnation, true) <==> FirstAccusation(t, rs, nid, incarnation).Some?
  {
    hide FirstAccusation, Reachable;
    AccusationHasSource(t, rs, nid, incarnation);
    if Source(t, rs, nid, incarnation, true) && HeldAccusation(t, nid, incarnation).None? {
      var r :| r in rs && Counts(t, nid, r) && IncarnationOf(r) == incarnation && Accuses(r);
      assert AccusesAt(t, nid, incarnation, r);
    }
  }

  /** Revising a record keeps to its first accusation. */
  lemma {:induction false} RevisionKeepsFirst(t: Table, rs: seq<Rumour>, r: Rumour, nid: NodeId, m: Member, now: real)
    requires Counts(t, nid, r) && Verdict(t, rs, nid, m) && m.status == FinalStatus(t, rs, nid, m.incarnation)
    ensures Revised(m, r, now).status == FinalStatus(t, rs + [r], nid, Revised(m, r, now).incarnation)
  {
    hide Source;
    assert (rs + [r])[..|rs|] == rs;
    AccusationIsSource(t, rs, nid, IncarnationOf(r));
    AccusationHasSource(t, rs, nid, m.incarnation);
    if IncarnationOf(r) > m.incarnation {
      assert FirstAccusation(t, rs, nid, IncarnationOf(r)).None?;
    }
  }

  lemma {:induction false} FirstKept(t: Table, rs: seq<Rumour>, r: Rumour, nid: NodeId, incarnation: int)
    requires !Counts(t, nid, r)
    ensures FirstAccusation(t, rs + [r], nid, incarnation) == FirstAccusation(t, rs, nid, incarnation)
  {
    assert (rs + [r])[..|rs|] == rs;
  }

  lemma {:induction false} FirstOfUnheard(t: Table, rs: seq<Rumour>, r: Rumour, nid: NodeId)
    requires Counts(t, nid, r) && !Heard(t, rs, nid)
    ensures r.report.status.value == FinalStatus(t, rs + [r], nid, IncarnationOf(r))
  {
    hide Source;
    assert (rs + [r])[..|rs|] == rs;
    AccusationIsSource(t, rs, nid, IncarnationOf(r));
  }

  /** A record ends with the status of the first source that accuses its subject at the
      highest incarnation heard of, and live when none does. */
  lemma {:induction false} FirstAccusationStays(t: Table, rs: seq<Rumour>, now: real, nid: NodeId)
    requires t.id in t.members && nid != t.id && RoomForAll(t, rs) && nid in Merged(t, rs, now).members
    ensures var m := Merged(t, rs, now).members[nid];
      Verdict(t, rs, nid, m) && m.status == FinalStatus(t, rs, nid, m.incarnation)
  {
    hide Usable, Reachable, Revised, Recorded, Refute, RoomForAll, Accuses, IncarnationOf, Verdict, Source, Heard, FinalStatus;
    RumoursAddUp(t, rs, now, nid);
    if rs == [] {
      HeldStatus(t, nid);
    } else {
      var front, last := rs[..|rs| - 1], rs[|rs| - 1];
      assert rs == front + [last];
      RoomForNext(t, rs, now);
      RumoursAddUp(t, front, now, nid);
      var u := Merged(t, front, now);
      if Usable(last) { SameReach(t, u, last); }
      if !Counts(t, nid, last) { OtherRumour(u, last, nid, now); }
      HeardGrows(t, front, last, nid);
      if nid in u.members {
        FirstAccusationStays(t, front, now, nid);
        StatusGrows(t, front, last, nid, u.members[nid], now);
      } else {
        FirstOfUnheard(t, front, last, nid);
        CountsIsReachable(t, nid, last);
        RecordedAsHeard(last, now);
      }
    }
  }

  lemma HeldStatus(t: Table, nid: NodeId)
    requires nid in t.members
    ensures t.members[nid].status == FinalStatus(t, [], nid, t.members[nid].incarnation)
  {
  }

  lemma {:induction false} StatusGrows(t: Table, rs: seq<Rumour>, r: Rumour, nid: NodeId, m: Member, now: real)
    requires Verdict(t, rs, nid, m) && m.status == FinalStatus(t, rs, nid, m.incarnation)
    ensures var after := if Counts(t, nid, r) then Revised(m, r, now) else m;
      after.status == FinalStatus(t, rs + [r], nid, after.incarnation)
  {
    if Counts(t, nid, r) { RevisionKeepsFirst(t, rs, r, nid, m, now); } else { FirstKept(t, rs, r, nid, m.incarnation); }
  }

  lemma CountsIsReachable(t: Table, nid: NodeId, r: Rumour)
    requires Counts(t, nid, r)
    ensures Usable(r) && r.report.address.Some?
  {
  }

  lemma RecordedAsHeard(r: Rumour, now: real)
    requires Usable(r) && r.report.address.Some?
    ensures Recorded(r, now).status == r.report.status.value && Recorded(r, now).incarnation == IncarnationOf(r)
  {
  }

  /** Two tables whose records of a member reached one incarnation show one status exactly
      when the same kind of accusation came first to both, or none to either. */
  lemma {:induction false} SameStatusExactly(t: Table, u: Table, xs: seq<Rumour>, ys: seq<Rumour>, now: real,
    later: real, nid: NodeId, incarnation: int)
    requires t.id in t.members && u.id in u.members && nid != t.id && nid != u.id && RoomForAll(t, xs) && RoomForAll(u, ys)
    requires nid in Merged(t, xs, now).members && Merged(t, xs, now).members[nid].incarnation == incarnation
    requires nid in Merged(u, ys, later).members && Merged(u, ys, later).members[nid].incarnation == incarnation
    ensures Merged(t, xs, now).members[nid].status == Merged(u, ys, later).members[nid].status
       <==> FirstAccusation(t, xs, nid, incarnation) == FirstAccusation(u, ys, nid, incarnation)
  {
    hide Merged, RoomForAll, Verdict, HeldAccusation, AccusesAt, FirstAccusation;
    FirstAccusationStays(t, xs, now, nid);
    FirstAccusationStays(u, ys, later, nid);
    AccusationHasSource(t, xs, nid, incarnation);
    AccusationHasSource(u, ys, nid, incarnation);
  }

  /** Every order of the rumours gives a member the status this order gives it. */
  ghost predicate OrderIsIrrelevant(t: Table, rs: seq<Rumour>, now: real, nid: NodeId)
    requires t.id in t.members && nid in Merged(t, rs, now).members
  {
    forall ys | multiset(ys) == multiset(rs) ::
      nid in Merged(t, ys, now).members && Merged(t, ys, now).members[nid].status == Merged(t, rs, now).members[nid].status
  }

  lemma {:induction false} Rearranged(t: Table, xs: seq<Rumour>, ys: seq<Rumour>)
    requires multiset(xs) == multiset(ys)
    ensures (forall r :: r in xs <==> r in ys) && (RoomForAll(t, xs) <==> RoomForAll(t, ys))
  {
    assert forall r :: r in xs <==> r in multiset(xs);
    assert forall r :: r in ys <==> r in multiset(ys);
    assert Subjects(xs) == Subjects(ys);
  }

  /** Rearranging the rumours changes neither whether a member is known nor its
      incarnation. */
  lemma {:induction false} RearrangedIncarnation(t: Table, xs: seq<Rumour>, ys: seq<Rumour>, now: real, nid: NodeId)
    requires t.id in t.members && nid != t.id && RoomForAll(t, xs) && multiset(xs) == multiset(ys)
    ensures nid in Merged(t, xs, now).members <==> nid in Merged(t, ys, now).members
    ensures nid in Merged(t, xs, now).members ==>
      Merged(t, xs, now).members[nid].incarnation == Merged(t, ys, now).members[nid].incarnation
  {
    hide Merged, RoomForAll, Counts, Accuses, IncarnationOf;
    Rearranged(t, xs, ys);
    RumoursAddUp(t, xs, now, nid);
    RumoursAddUp(t, ys, now, nid);
    forall i, a ensures Source(t, xs, nid, i, a) <==> Source(t, ys, nid, i, a) { }
  }

  /** A rumour moved to the front. */
  lemma {:induction false} MovedToFront(rs: seq<Rumour>, r: Rumour) returns (ys: seq<Rumour>)
    requires r in rs
    ensures multiset(ys) == multiset(rs) && ys != [] && ys[0] == r
  {
    var i :| 0 <= i < |rs| && rs[i] == r;
    ys := [r] + (rs[..i] + rs[i + 1..]);
    assert rs == rs[..i] + ([r] + rs[i + 1..]);
  }

  lemma {:induction false} FrontComesFirst(t: Table, rs: seq<Rumour>, nid: NodeId, incarnation: int)
    requires rs != [] && AccusesAt(t, nid, incarnation, rs[0]) && HeldAccusation(t, nid, incarnation).None?
    ensures FirstAccusation(t, rs, nid, incarnation) == rs[0].report.status
  {
    hide Reachable;
    if |rs| > 1 {
      FrontComesFirst(t, rs[..|rs| - 1], nid, incarnation);
    } else {
      assert FirstAccusation(t, rs[..0], nid, incarnation) == None;
    }
  }

  /** The order of the rumours decides a member's status exactly when both suspicion and
      death are heard of it at its final incarnation, and no accusation of that incarnation
      was on record before. */
  lemma {:induction false} OrderMattersExactly(t: Table, rs: seq<Rumour>, now: real, nid: NodeId, incarnation: int)
    requires t.id in t.members && nid != t.id && RoomForAll(t, rs)
    requires nid in Merged(t, rs, now).members && Merged(t, rs, now).members[nid].incarnation == incarnation
    ensures OrderIsIrrelevant(t, rs, now, nid) <==>
      !(HeldAccusation(t, nid, incarnation).None? && HeardAs(t, rs, nid, incarnation, Suspect) && HeardAs(t, rs, nid, incarnation, Dead))
  {
    hide Merged, RoomForAll, HeldAccusation, FirstAccusation;
    if HeldAccusation(t, nid, incarnation).None? && HeardAs(t, rs, nid, incarnation, Suspect) && HeardAs(t, rs, nid, incarnation, Dead) {
      var s :| s in rs && AccusesAs(t, nid, incarnation, s, Suspect);
      var d :| d in rs && AccusesAs(t, nid, incarnation, d, Dead);
      var xs := MovedToFront(rs, s);
      var ys := MovedToFront(rs, d);
      StatusOfOrder(t, rs, xs, now, nid, incarnation);
      StatusOfOrder(t, rs, ys, now, nid, incarnation);
      FrontComesFirst(t, xs, nid, incarnation);
      FrontComesFirst(t, ys, nid, incarnation);
      assert Merged(t, xs, now).members[nid].status != Merged(t, ys, now).members[nid].status;
    } else {
      forall ys | multiset(ys) == multiset(rs)
        ensures nid in Merged(t, ys, now).members && Merged(t, ys, now).members[nid].status == Merged(t, rs, now).members[nid].status
      {
        StatusOfOrder(t, rs, ys, now, nid, incarnation);
        StatusOfOrder(t, rs, rs, now, nid, incarnation);
        Rearranged(t, rs, ys);
        OneKindOfAccusation(t, rs, ys, nid, incarnation);
      }
    }
  }

  lemma {:induction false} StatusOfOrder(t: Table, rs: seq<Rumour>, ys: seq<Rumour>, now: real, nid: NodeId, incarnation: int)
    requires t.id in t.members && nid != t.id && RoomForAll(t, rs) && multiset(ys) == multiset(rs)
    requires nid in Merged(t, rs, now).members && Merged(t, rs, now).members[nid].incarnation == incarnation
    ensures nid in Merged(t, ys, now).members
    ensures Merged(t, ys, now).members[nid].status == FinalStatus(t, ys, nid, incarnation)
  {
    hide Merged, RoomForAll, FinalStatus, Verdict;
    Rearranged(t, rs, ys);
    RearrangedIncarnation(t, rs, ys, now, nid);
    FirstAccusationStays(t, ys, now, nid);
  }

  lemma {:induction false} OneKindOfAccusation(t: Table, xs: seq<Rumour>, ys: seq<Rumour>, nid: NodeId, incarnation: int)
    requires forall r :: r in xs <==> r in ys
    requires HeldAccusation(t, nid, incarnation).Some? || !HeardAs(t, xs, nid, incarnation, Suspect) || !HeardAs(t, xs, nid, incarnation, Dead)
    ensures FirstAccusation(t, xs, nid, incarnation) == FirstAccusation(t, ys, nid, incarnation)
  {
    hide FirstAccusation, AccusesAt, HeldAccusation;
    forall status ensures HeardAs(t, xs, nid, incarnation, status) <==> HeardAs(t, ys, nid, incarnation, status) { }
    AccusationHasSource(t, xs, nid, incarnation);
    AccusationHasSource(t, ys, nid, incarnation);
  }

  // ----- growth of one record -----

  function Severity(s: Status): int { match s case Alive => 0 case Suspect => 1 case Dead => 2 }

  /** The record grew in the order of incarnation first, severity second. */
  predicate Grown(m: Member, m': Member) {
    m.incarnation < m'.incarnation || (m.incarnation == m'.incarnation && Severity(m.status) <= Severity(m'.status))
  }

  lemma MergeOneGrows(t: Table, r: Rumour, now: real, nid: NodeId)
    requires ListsItself(t) && nid in t.members
    ensures ListsItself(MergeOne(t, r, now)) && nid in MergeOne(t, r, now).members
    ensures Grown(t.members[nid], MergeOne(t, r, now).members[nid])
    ensures t.incarnation <= MergeOne(t, r, now).incarnation
  {
  }

  lemma {:induction false} MergedGrows(t: Table, rs: seq<Rumour>, now: real, nid: NodeId)
    requires ListsItself(t) && nid in t.members
    ensures ListsItself(Merged(t, rs, now)) && Grown(t.members[nid], Merged(t, rs, now).members[nid])
    ensures t.incarnation <= Merged(t, rs, now).incarnation
  {
    hide MergeOne;
    if rs != [] {
      MergedGrows(t, rs[..|rs| - 1], now, nid);
      MergeOneGrows(Merged(t, rs[..|rs| - 1], now), rs[|rs| - 1], now, nid);
    }
  }

  /** An accusation at incarnation i leaves its subject above i. */
  lemma {:induction false} AccusationIsRefuted(t: Table, rs: seq<Rumour>, now: real, r: Rumour)
    requires ListsItself(t) && r in rs && r.about == t.id && Usable(r) && Accuses(r)
    ensures Merged(t, rs, now).incarnation > IncarnationOf(r)
  {
    hide MergeOne, Usable, Accuses, IncarnationOf;
    var front, last := rs[..|rs| - 1], rs[|rs| - 1];
    MergedGrows(t, front, now, t.id);
    var u := Merged(t, front, now);
    MergeOneGrows(u, last, now, t.id);
    if r == last { RefutesAtOnce(u, r, now); } else { AccusationIsRefuted(t, front, now, r); }
  }

  lemma RefutesAtOnce(t: Table, r: Rumour, now: real)
    requires ListsItself(t) && r.about == t.id && Usable(r) && Accuses(r)
    ensures MergeOne(t, r, now).incarnation > IncarnationOf(r)
  {
  }

  // ----- the mesh -----

  datatype State = State(nodes: map<NodeId, Table>, flight: set<Rumour>)

  datatype Step =
    | Merge(node: NodeId, rumours: seq<Rumour>, now: real)
    | PingFails(node: NodeId, member: NodeId, now: real)
    | Tick(node: NodeId, now: real, timeout: real)
    | Forget(node: NodeId, member: NodeId)
    | Touch(node: NodeId, now: real)
    | Send(node: NodeId, members: set<NodeId>)

  /** At the start a node knows itself and placeholders for seeds, which are no nodes. */
  ghost predicate Initial(s: State) {
    && s.flight == {}
    && forall n | n in s.nodes ::
      && s.nodes[n].id == n && ListsItself(s.nodes[n]) && s.nodes[n].incarnation == 0
      && forall m | m in s.nodes[n].members :: m == n || m !in s.nodes
  }

  /** A node merges what was sent, suspects and forgets only others, and may say anything
      that is in its table. */
  ghost predicate Enabled(s: State, step: Step) {
    step.node in s.nodes && match step
      case Merge(_, rs, _) => forall r | r in rs :: r in s.flight
      case PingFails(n, m, _) => m != n
      case Tick(_, _, _) => true
      case Forget(n, m) => m != n
      case Touch(_, _) => true
      case Send(n, ms) => ms <= s.nodes[n].members.Keys
  }

  ghost function TableAfter(t: Table, step: Step): Table
    requires t.id in t.members
  {
    match step
    case Merge(_, rs, now) => Merged(t, rs, now)
    case PingFails(_, m, now) => Suspected(t, m, now)
    case Tick(_, now, timeout) => TimedOut(t, now, timeout)
    case Forget(_, m) => t.(members := t.members - {m})
    case Touch(_, now) => t.(members := t.members[t.id := t.members[t.id].(lastUpdated := now)])
    case Send(_, _) => t
  }

  ghost function Sent(t: Table, step: Step): set<Rumour>
    requires step.Send? ==> step.members <= t.members.Keys
  {
    if step.Send? then set m | m in step.members :: Announcement(m, t.members[m]) else {}
  }

  ghost function After(s: State, step: Step): State
    requires Enabled(s, step) && s.nodes[step.node].id in s.nodes[step.node].members
  {
    var t := s.nodes[step.node];
    State(s.nodes[step.node := TableAfter(t, step)], s.flight + Sent(t, step))
  }

  /** The incarnation a node has reached, which no record about it may exceed. */
  ghost predicate Bounded(s: State, about: NodeId, incarnation: int) {
    about in s.nodes ==> incarnation <= s.nodes[about].incarnation
  }

  ghost predicate TableIsBounded(s: State, t: Table) {
    forall m | m in t.members :: Bounded(s, m, t.members[m].incarnation)
  }

  ghost predicate RumourIsBounded(s: State, r: Rumour) { Usable(r) ==> Bounded(s, r.about, IncarnationOf(r)) }

  ghost predicate Inv(s: State) {
    && (forall n | n in s.nodes :: s.nodes[n].id == n && ListsItself(s.nodes[n]) && TableIsBounded(s, s.nodes[n]))
    && (forall r | r in s.flight :: RumourIsBounded(s, r))
  }

  lemma TableSteps(t: Table, step: Step, nid: NodeId)
    requires ListsItself(t) && (step.PingFails? || step.Forget? ==> step.member != t.id)
    ensures ListsItself(TableAfter(t, step)) && TableAfter(t, step).id == t.id
    ensures t.incarnation <= TableAfter(t, step).incarnation
    ensures nid in t.members && nid in TableAfter(t, step).members ==> Grown(t.members[nid], TableAfter(t, step).members[nid])
  {
    hide Merged;
    if step.Merge? {
      MergedGrows(t, step.rumours, step.now, t.id);
      if nid in t.members { MergedGrows(t, step.rumours, step.now, nid); }
    }
  }

  ghost predicate OthersAreBounded(s: State, t: Table) {
    forall m | m in t.members && m != t.id :: Bounded(s, m, t.members[m].incarnation)
  }

  /** Merging adds no incarnation that neither the table nor a rumour had. */
  lemma {:induction false} MergedIsBounded(s: State, t: Table, rs: seq<Rumour>, now: real)
    requires t.id in t.members && OthersAreBounded(s, t)
    requires forall r | r in rs :: RumourIsBounded(s, r)
    ensures OthersAreBounded(s, Merged(t, rs, now))
  {
    hide MergeOne, RumourIsBounded, OthersAreBounded;
    if rs != [] {
      var front, last := rs[..|rs| - 1], rs[|rs| - 1];
      assert last in rs && forall r | r in front :: r in rs;
      MergedIsBounded(s, t, front, now);
      MergeOneIsBounded(s, Merged(t, front, now), last, now);
    }
  }

  lemma MergeOneIsBounded(s: State, t: Table, r: Rumour, now: real)
    requires t.id in t.members && OthersAreBounded(s, t) && RumourIsBounded(s, r)
    ensures OthersAreBounded(s, MergeOne(t, r, now))
  {
    hide Bounded, Reachable;
  }

  lemma TableStaysBounded(s: State, step: Step)
    requires Inv(s) && Enabled(s, step)
    ensures OthersAreBounded(s, TableAfter(s.nodes[step.node], step))
  {
    hide Bounded, Merged, RumourIsBounded, Usable;
    var t := s.nodes[step.node];
    assert OthersAreBounded(s, t);
    if step.Merge? { MergedIsBounded(s, t, step.rumours, step.now); }
  }

  lemma {:induction false} StepKeepsInv(s: State, step: Step)
    requires Inv(s) && Enabled(s, step)
    ensures Inv(After(s, step))
  {
    hide TableAfter, ListsItself;
    ItselfAtItsIncarnation(s.nodes[step.node]);
    var n, t, u := step.node, s.nodes[step.node], After(s, step);
    TableSteps(t, step, n);
    TableStaysBounded(s, step);
    assert u.nodes[n].members[n].incarnation == u.nodes[n].incarnation by { ItselfAtItsIncarnation(u.nodes[n]); }
    forall m, i ensures Bounded(s, m, i) ==> Bounded(u, m, i) { }
    forall m | m in u.nodes ensures TableIsBounded(u, u.nodes[m]) { }
    forall r | r in u.flight ensures RumourIsBounded(u, r) {
      if r !in s.flight {
        var m :| m in step.members && r == Announcement(m, t.members[m]);
        assert Bounded(s, m, t.members[m].incarnation);
      }
    }
  }

  lemma ItselfAtItsIncarnation(t: Table)
    requires ListsItself(t)
    ensures t.id in t.members && t.members[t.id].incarnation == t.incarnation
  {
  }

  // ----- runs -----

  ghost predicate IsRun(run: seq<State>) {
    run != [] && Initial(run[0]) && forall i | 0 < i < |run| :: Follows(run[i - 1], run[i])
  }

  /** One step; a state in which a node lost itself would have none, and none is reachable. */
  ghost predicate Follows(s: State, t: State) {
    exists step ::
      && Enabled(s, step) && s.nodes[step.node].id in s.nodes[step.node].members
      && t == After(s, step)
  }

  /** In every reachable state each node is live in its own table at its own incarnation,
      and nothing stored or in flight gives it a higher one. */
  lemma {:induction false} RunKeepsInv(run: seq<State>, i: nat)
    requires IsRun(run) && i < |run|
    ensures Inv(run[i])
  {
    if i > 0 {
      hide Initial, Inv, Enabled, After;
      RunKeepsInv(run, i - 1);
      FollowsKeepsInv(run[i - 1], run[i]);
    }
  }

  lemma FollowsKeepsInv(s: State, t: State)
    requires Inv(s) && Follows(s, t)
    ensures Inv(t)
  {
    var step :| Enabled(s, step) && s.nodes[step.node].id in s.nodes[step.node].members && t == After(s, step);
    hide Inv, Enabled, After;
    StepKeepsInv(s, step);
  }

  lemma StepGrows(s: State, t: State, n: NodeId, nid: NodeId)
    requires Inv(s) && Follows(s, t) && n in s.nodes
    ensures n in t.nodes && s.nodes[n].incarnation <= t.nodes[n].incarnation
    ensures nid in s.nodes[n].members && nid in t.nodes[n].members ==> Grown(s.nodes[n].members[nid], t.nodes[n].members[nid])
  {
    hide TableAfter, TableIsBounded, RumourIsBounded;
    var step :| Enabled(s, step) && s.nodes[step.node].id in s.nodes[step.node].members && t == After(s, step);
    TableSteps(s.nodes[step.node], step, nid);
  }

  /** A record that is not dropped on the way only grows, and so does a node's incarnation. */
  lemma {:induction false} RecordsGrow(run: seq<State>, i: nat, j: nat, n: NodeId, nid: NodeId)
    requires IsRun(run) && i <= j < |run| && n in run[i].nodes
    requires forall k | i <= k <= j :: n in run[k].nodes ==> nid in run[k].nodes[n].members
    ensures n in run[j].nodes && run[i].nodes[n].incarnation <= run[j].nodes[n].incarnation
    ensures Grown(run[i].nodes[n].members[nid], run[j].nodes[n].members[nid])
    decreases j
  {
    hide Initial, Inv, Follows;
    if i < j {
      RecordsGrow(run, i, j - 1, n, nid);
      RunKeepsInv(run, j - 1);
      StepGrows(run[j - 1], run[j], n, nid);
    }
  }

  // ----- how much a node has to refute -----

  /** Among honest nodes one message costs a node at most one incarnation, and none unless
      it is accused at its present one. */
  lemma {:induction false} RefutesOnce(s: State, n: NodeId, rs: seq<Rumour>, now: real)
    requires Inv(s) && n in s.nodes && forall r | r in rs :: r in s.flight
    ensures var before, after := s.nodes[n].incarnation, Merged(s.nodes[n], rs, now).incarnation;
      after == if exists r :: r in rs && AccusesNow(s.nodes[n], r) then before + 1 else before
  {
    hide Inv, AccusesNow, MergeOne;
    assert ListsItself(s.nodes[n]) && s.nodes[n].id == n by { Listed(s, n); }
    if rs != [] {
      var front, last := rs[..|rs| - 1], rs[|rs| - 1];
      assert last in rs && (forall r :: r in rs <==> r in front || r == last) by { assert rs == front + [last]; }
      RefutesOnce(s, n, front, now);
      MergedGrows(s.nodes[n], front, now, n);
      OwnIncarnation(s, n, Merged(s.nodes[n], front, now), last, now);
    }
  }

  predicate AccusesNow(t: Table, r: Rumour) { Usable(r) && r.about == t.id && Accuses(r) && IncarnationOf(r) == t.incarnation }

  lemma Listed(s: State, n: NodeId)
    requires Inv(s) && n in s.nodes
    ensures ListsItself(s.nodes[n]) && s.nodes[n].id == n
  {
  }

  lemma OwnIncarnation(s: State, n: NodeId, u: Table, r: Rumour, now: real)
    requires Inv(s) && n in s.nodes && r in s.flight && u.id == n && ListsItself(u)
    requires s.nodes[n].incarnation <= u.incarnation
    ensures MergeOne(u, r, now).incarnation
         == if u.incarnation == s.nodes[n].incarnation && AccusesNow(s.nodes[n], r) then u.incarnation + 1 else u.incarnation
  {
    assert RumourIsBounded(s, r);
  }

  // ----- what a refutation settles -----

  /** The rumours without those about a member that are older than an incarnation. */
  function Since(rs: seq<Rumour>, nid: NodeId, incarnation: int): seq<Rumour> {
    if rs == [] then []
    else
      var front, last := Since(rs[..|rs| - 1], nid, incarnation), rs[|rs| - 1];
      if last.about == nid && Usable(last) && IncarnationOf(last) < incarnation then front else front + [last]
  }

  lemma {:induction false} SinceKeeps(rs: seq<Rumour>, nid: NodeId, incarnation: int, r: Rumour)
    ensures r in Since(rs, nid, incarnation) <==> r in rs && !(r.about == nid && Usable(r) && IncarnationOf(r) < incarnation)
  {
    hide Usable, IncarnationOf;
    if rs != [] {
      var front, last := rs[..|rs| - 1], rs[|rs| - 1];
      assert rs == front + [last];
      SinceKeeps(front, nid, incarnation, r);
    }
  }

  /** Two tables have one record of a member, from an incarnation on. */
  ghost predicate AlikeFrom(t: Table, u: Table, nid: NodeId, incarnation: int) {
    || (nid in t.members && nid in u.members && t.members[nid] == u.members[nid] && t.members[nid].incarnation >= incarnation)
    || ((nid in t.members ==> t.members[nid].incarnation < incarnation) && (nid in u.members ==> u.members[nid].incarnation < incarnation))
  }

  /** Taking a rumour in on both sides, or an older one on one side, keeps them so. */
  lemma OneMoreAlike(t: Table, u: Table, r: Rumour, now: real, nid: NodeId, incarnation: int)
    requires t.id in t.members && u.id in u.members && t.id == u.id != nid && t.allowed == u.allowed
    requires AlikeFrom(t, u, nid, incarnation)
    requires r.about == nid ==> (nid in t.members || |t.members| < MAX_MEMBERS) && (nid in u.members || |u.members| < MAX_MEMBERS)
    ensures var older := r.about == nid && Usable(r) && IncarnationOf(r) < incarnation;
      AlikeFrom(MergeOne(t, r, now), if older then u else MergeOne(u, r, now), nid, incarnation)
  {
  }

  lemma {:induction false} SinceIsAlike(t: Table, rs: seq<Rumour>, now: real, nid: NodeId, incarnation: int)
    requires t.id in t.members && nid != t.id && RoomForAll(t, rs)
    ensures AlikeFrom(Merged(t, rs, now), Merged(t, Since(rs, nid, incarnation), now), nid, incarnation)
  {
    hide MergeOne, RoomForAll, Usable, IncarnationOf, AlikeFrom;
    if rs == [] {
      LikeItself(t, nid, incarnation);
    } else {
      var front, last := rs[..|rs| - 1], rs[|rs| - 1];
      RoomForNext(t, rs, now);
      SinceIsAlike(t, front, now, nid, incarnation);
      var kept := Since(front, nid, incarnation);
      assert (kept + [last])[..|kept|] == kept;
      if last.about == nid { RoomForKept(t, rs, kept, now, nid, incarnation); }
      OneMoreAlike(Merged(t, front, now), Merged(t, kept, now), last, now, nid, incarnation);
    }
  }

  lemma LikeItself(t: Table, nid: NodeId, incarnation: int)
    ensures AlikeFrom(t, t, nid, incarnation)
  {
  }

  /** The kept rumours leave room for a member the next rumour is about. */
  lemma {:induction false} RoomForKept(t: Table, rs: seq<Rumour>, kept: seq<Rumour>, now: real, nid: NodeId, incarnation: int)
    requires t.id in t.members && rs != [] && RoomForAll(t, rs) && rs[|rs| - 1].about == nid
    requires kept == Since(rs[..|rs| - 1], nid, incarnation)
    ensures nid in Merged(t, kept, now).members || |Merged(t, kept, now).members| < MAX_MEMBERS
  {
    hide Merged, Since, Usable, IncarnationOf;
    var u := Merged(t, kept, now);
    MergedMembers(t, kept, now);
    forall r | r in kept ensures r in rs { SinceKeeps(rs[..|rs| - 1], nid, incarnation, r); }
    assert Subjects(kept) <= Subjects(rs) && rs[|rs| - 1] in rs;
    assert nid in Subjects(rs);
    if nid !in u.members {
      ProperSubset(u.members.Keys, t.members.Keys + Subjects(rs), nid);
      assert |u.members.Keys| == |u.members|;
    }
  }

  /** Once an announcement at some incarnation is among the rumours, in whatever place, the
      final record is the very one that results when no older rumour about its subject, however
      many there were, had ever been heard. */
  lemma {:induction false} RefutationPrevails(t: Table, rs: seq<Rumour>, now: real, nid: NodeId, refutation: Rumour)
    requires t.id in t.members && nid != t.id && RoomForAll(t, rs)
    requires refutation in rs && Counts(t, nid, refutation)
    ensures var all, recent := Merged(t, rs, now).members, Merged(t, Since(rs, nid, IncarnationOf(refutation)), now).members;
      nid in all && nid in recent && all[nid].incarnation >= IncarnationOf(refutation) && all[nid] == recent[nid]
  {
    hide Merged, RoomForAll, Since, FirstAccusation, Usable, Reachable;
    var from := IncarnationOf(refutation);
    var ks := Since(rs, nid, from);
    forall r ensures r in ks <==> r in rs && !(r.about == nid && Usable(r) && IncarnationOf(r) < from) { SinceKeeps(rs, nid, from, r); }
    SinceHasRoom(t, rs, nid, from);
    assert Source(t, rs, nid, from, Accuses(refutation)) && Source(t, ks, nid, from, Accuses(refutation));
    RumoursAddUp(t, rs, now, nid);
    RumoursAddUp(t, ks, now, nid);
    SinceIsAlike(t, rs, now, nid, from);
  }

  lemma {:induction false} SinceHasRoom(t: Table, rs: seq<Rumour>, nid: NodeId, incarnation: int)
    requires RoomForAll(t, rs)
    ensures RoomForAll(t, Since(rs, nid, incarnation))
  {
    hide Since, Usable, IncarnationOf;
    var ks := Since(rs, nid, incarnation);
    forall r | r in ks ensures r in rs { SinceKeeps(rs, nid, incarnation, r); }
    assert Subjects(ks) <= Subjects(rs);
    SubsetCardinality(t.members.Keys + Subjects(ks), t.members.Keys + Subjects(rs));
  }
}
