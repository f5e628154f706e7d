/** The byte budget of the mesh: which part of a version vector a bounded digest carries,
    how a digest reply accounts for its own size while it grows, and how requested updates
    are cut into bounded sync payloads. */
module GossipBudget {
  import opened Json

  // ===== the bounded digest =====

  /** One stream of a version vector: its key text and its origins' versions. */
  function DigestJson(nodeId: string, versions: seq<Field>): Json {
    Obj([Field("node_id", Str(nodeId)), Field("versions", Obj(versions))])
  }

  function EmptyDigestSize(nodeId: string): nat { Size(DigestJson(nodeId, [])) }

  /** What a stream adds to a digest beyond a separating comma. */
  function Contribution(f: Field): nat { StringSize(f.key) + 1 + Size(f.value) }

  predicate FitsAlone(nodeId: string, max: nat, f: Field) { EmptyDigestSize(nodeId) + Contribution(f) <= max }

  lemma PairSize(k1: string, v1: Json, k2: string, v2: Json)
    ensures Size(Obj([Field(k1, v1), Field(k2, v2)])) == StringSize(k1) + Size(v1) + StringSize(k2) + Size(v2) + 5
  {
    var none: seq<Field> := [];
    ObjectGrows(none, Field(k1, v1));
    ObjectGrows([Field(k1, v1)], Field(k2, v2));
    assert none + [Field(k1, v1)] == [Field(k1, v1)];
    assert [Field(k1, v1)] + [Field(k2, v2)] == [Field(k1, v1), Field(k2, v2)];
  }

  /** Appending a stream to a digest costs its contribution and a comma. */
  lemma {:induction false} DigestGrows(nodeId: string, versions: seq<Field>, f: Field)
    ensures Size(DigestJson(nodeId, versions + [f]))
         == Size(DigestJson(nodeId, versions)) + Contribution(f) + if versions == [] then 0 else 1
  {
    hide Size, StringSize;
    PairSize("node_id", Str(nodeId), "versions", Obj(versions));
    PairSize("node_id", Str(nodeId), "versions", Obj(versions + [f]));
    ObjectGrows(versions, f);
  }

  /** A digest that carries one stream costs what the loop reckons with. */
  lemma {:induction false} FitsAloneIs(nodeId: string, max: nat, f: Field)
    ensures FitsAlone(nodeId, max, f) <==> Size(DigestJson(nodeId, [f])) <= max
  {
    hide Size, StringSize, DigestJson;
    DigestGrows(nodeId, [], f);
    assert [] + [f] == [f];
  }

  /** Part of a digest is no larger than the digest. */
  lemma {:induction false} DigestAtLeastOne(nodeId: string, versions: seq<Field>, f: Field)
    requires f in versions
    ensures Size(DigestJson(nodeId, versions)) >= Size(DigestJson(nodeId, [f]))
  {
    hide Size, StringSize, DigestJson;
    var front, last := versions[..|versions| - 1], versions[|versions| - 1];
    assert versions == front + [last];
    DigestGrows(nodeId, front, last);
    if f == last {
      DigestGrows(nodeId, [], f);
      assert [] + [f] == [f];
      DigestAtLeastEmpty(nodeId, front);
    } else {
      DigestAtLeastOne(nodeId, front, f);
    }
  }

  /** The m streams from position start on, wrapping around. */
  function Window(items: seq<Field>, start: nat, m: nat): seq<Field>
    requires start < |items| && m <= |items|
  {
    seq(m, i requires 0 <= i < m => items[(start + i) % |items|])
  }

  function Fitting(nodeId: string, max: nat, fs: seq<Field>): seq<Field> {
    if fs == [] then []
    else
      var front, last := Fitting(nodeId, max, fs[..|fs| - 1]), fs[|fs| - 1];
      if FitsAlone(nodeId, max, last) then front + [last] else front
  }

  /** One call on a vector too large for one payload: it takes a window of at least one
      stream, sends those that fit at all, stops only before a stream that would overflow
      the payload, and moves the cursor past the window. */
  ghost predicate IsBoundedStep(nodeId: string, max: nat, items: seq<Field>, cursor: nat, selected: seq<Field>, next: nat)
    requires items != []
  {
    exists m | 1 <= m <= |items| ::
      && selected == Fitting(nodeId, max, Window(items, cursor % |items|, m))
      && (m < |items| ==> selected != [] && Size(DigestJson(nodeId, selected + [items[(cursor % |items| + m) % |items|]])) > max)
      && next == (cursor % |items| + m) % |items|
  }

  ghost predicate IsCall(nodeId: string, max: nat, items: seq<Field>, cursor: nat, selected: seq<Field>, next: nat) {
    if Size(DigestJson(nodeId, items)) <= max then selected == items && next == cursor
    else if items == [] then selected == [] && next == cursor
    else IsBoundedStep(nodeId, max, items, cursor, selected, next)
  }

  class DigestCursor {
    const nodeId: string
    const maxPayload: nat
    var cursor: nat

    constructor (nodeId: string, maxPayload: nat)
      ensures this.nodeId == nodeId && this.maxPayload == maxPayload && cursor == 0
    {
      this.nodeId, this.maxPayload, cursor := nodeId, maxPayload, 0;
    }

    /** The part of a version vector that one digest carries. The whole vector goes out
        when it fits; otherwise a window from the cursor on, within the limit whenever an
        empty digest is. */
    method BoundedVersionVector(items: seq<Field>) returns (selected: seq<Field>)
      modifies this
      ensures IsCall(nodeId, maxPayload, items, old(cursor), selected, cursor)
      ensures Size(DigestJson(nodeId, selected)) <= maxPayload <==> EmptyDigestSize(nodeId) <= maxPayload
    {
      hide Size, StringSize, Fitting, Window, DigestJson;
      DigestAtLeastEmpty(nodeId, items);
      if Size(DigestJson(nodeId, items)) <= maxPayload { return items; }
      if items == [] { return []; }
      selected := [];
      var used := EmptyDigestSize(nodeId);
      var start := cursor % |items|;
      var considered: nat := 0;
      NoWindow(nodeId, maxPayload, items, start);
      while considered < |items|
        invariant considered <= |items|
        invariant selected == Fitting(nodeId, maxPayload, Window(items, start, considered))
        invariant used == Size(DigestJson(nodeId, selected))
        invariant selected != [] ==> used <= maxPayload
        invariant considered == 0 ==> selected == []
      {
        var f := items[(start + considered) % |items|];
        var contribution := (if selected == [] then 0 else 1) + Contribution(f);
        WindowGrows(nodeId, maxPayload, items, start, considered);
        DigestGrows(nodeId, selected, f);
        DigestAtLeastEmpty(nodeId, selected);
        if used + contribution <= maxPayload {
          selected := selected + [f];
          used := used + contribution;
          considered := considered + 1;
          continue;
        }
        if selected == [] {
          // Too large even alone: reported and skipped.
          considered := considered + 1;
          continue;
        }
        assert Size(DigestJson(nodeId, selected + [f])) > maxPayload;
        break;
      }
      DigestAtLeastEmpty(nodeId, selected);
      cursor := (start + considered) % |items|;
    }
  }

  lemma {:induction false} DigestAtLeastEmpty(nodeId: string, versions: seq<Field>)
    ensures Size(DigestJson(nodeId, versions)) >= EmptyDigestSize(nodeId)
  {
    PairSize("node_id", Str(nodeId), "versions", Obj(versions));
    PairSize("node_id", Str(nodeId), "versions", Obj([]));
  }

  lemma {:induction false} NoWindow(nodeId: string, max: nat, items: seq<Field>, start: nat)
    requires start < |items|
    ensures Fitting(nodeId, max, Window(items, start, 0)) == []
  {
  }

  lemma {:induction false} WindowGrows(nodeId: string, max: nat, items: seq<Field>, start: nat, m: nat)
    requires start < |items| && m < |items|
    ensures var f := items[(start + m) % |items|];
      Fitting(nodeId, max, Window(items, start, m + 1))
      == Fitting(nodeId, max, Window(items, start, m)) + if FitsAlone(nodeId, max, f) then [f] else []
  {
    hide FitsAlone, Window;
    OneMorePlace(items, start, m);
    FittingAppends(nodeId, max, Window(items, start, m), items[(start + m) % |items|]);
  }

  lemma {:induction false} OneMorePlace(items: seq<Field>, start: nat, m: nat)
    requires start < |items| && m < |items|
    ensures Window(items, start, m + 1) == Window(items, start, m) + [items[(start + m) % |items|]]
  {
  }

  lemma {:induction false} FittingAppends(nodeId: string, max: nat, fs: seq<Field>, f: Field)
    ensures Fitting(nodeId, max, fs + [f]) == Fitting(nodeId, max, fs) + if FitsAlone(nodeId, max, f) then [f] else []
  {
    hide FitsAlone;
    assert (fs + [f])[..|fs|] == fs;
  }

  /** A vector that fits goes out whole, and the cursor stays. Otherwise a call carries every
      stream with which alone a digest is within the limit, or it stops before a stream that
      would take what it carries beyond it, and the cursor is there. */
  lemma {:induction false} CallMeans(nodeId: string, max: nat, items: seq<Field>, cursor: nat, selected: seq<Field>, next: nat)
    requires IsCall(nodeId, max, items, cursor, selected, next)
    ensures Size(DigestJson(nodeId, items)) <= max ==> selected == items && next == cursor
    ensures Size(DigestJson(nodeId, items)) > max && items != [] ==>
      || (forall f | f in items && Size(DigestJson(nodeId, [f])) <= max :: f in selected)
      || (next < |items| && selected != [] && Size(DigestJson(nodeId, selected + [items[next]])) > max)
  {
    hide Size, DigestJson, FitsAlone, Fitting;
    if Size(DigestJson(nodeId, items)) > max && items != [] {
      var start := cursor % |items|;
      var m :| 1 <= m <= |items| && selected == Fitting(nodeId, max, Window(items, start, m))
        && (m < |items| ==> selected != [] && Size(DigestJson(nodeId, selected + [items[(start + m) % |items|]])) > max)
        && next == (start + m) % |items|;
      if m == |items| {
        forall f | f in items && Size(DigestJson(nodeId, [f])) <= max ensures f in selected {
          FitsAloneIs(nodeId, max, f);
          WindowIsAll(items, start, f);
          FittingKeeps(nodeId, max, Window(items, start, m), f);
        }
      }
    }
  }

  lemma {:induction false} WindowIsAll(items: seq<Field>, start: nat, f: Field)
    requires start < |items| && f in items
    ensures f in Window(items, start, |items|)
  {
    var n := |items|;
    var j :| 0 <= j < n && items[j] == f;
    var d := if j >= start then j - start else j + n - start;
    Wrap(start + d, n);
    assert Window(items, start, n)[d] == f;
  }

  // ----- fairness over consecutive calls -----

  /** Consecutive calls on an unchanged vector. */
  ghost predicate IsRun(nodeId: string, max: nat, items: seq<Field>, cursors: seq<nat>, digests: seq<seq<Field>>)
    requires items != []
  {
    && |cursors| == |digests| + 1
    && forall k | 0 <= k < |digests| :: IsCall(nodeId, max, items, cursors[k], digests[k], cursors[k + 1])
  }

  lemma {:induction false} FittingKeeps(nodeId: string, max: nat, fs: seq<Field>, f: Field)
    ensures f in Fitting(nodeId, max, fs) <==> f in fs && FitsAlone(nodeId, max, f)
  {
    hide FitsAlone;
    if fs != [] {
      var front, last := fs[..|fs| - 1], fs[|fs| - 1];
      FittingKeeps(nodeId, max, front, f);
      assert fs == front + [last];
    }
  }

  lemma Wrap(a: nat, n: nat)
    requires n > 0 && a < 2 * n
    ensures a % n == if a < n then a else a - n
  {
  }

  /** A stream d places after the cursor goes out within d + 1 calls. */
  lemma {:induction false} ReachedWithin(nodeId: string, max: nat, items: seq<Field>, cursors: seq<nat>,
    digests: seq<seq<Field>>, k: nat, d: nat) returns (at: nat)
    requires items != [] && IsRun(nodeId, max, items, cursors, digests)
    requires Size(DigestJson(nodeId, items)) > max && d < |items| && k + d < |digests|
    requires FitsAlone(nodeId, max, items[(cursors[k] % |items| + d) % |items|])
    ensures k <= at <= k + d && items[(cursors[k] % |items| + d) % |items|] in digests[at]
    decreases d
  {
    hide FitsAlone, Size, Fitting;
    var n := |items|;
    var start := cursors[k] % n;
    var f := items[(start + d) % n];
    assert IsCall(nodeId, max, items, cursors[k], digests[k], cursors[k + 1]);
    var m :| 1 <= m <= n && digests[k] == Fitting(nodeId, max, Window(items, start, m)) && cursors[k + 1] == (start + m) % n;
    if d < m {
      assert Window(items, start, m)[d] == f;
      FittingKeeps(nodeId, max, Window(items, start, m), f);
      at := k;
    } else {
      Wrap(start + m, n);
      Wrap(start + d, n);
      var next := cursors[k + 1];
      Wrap(next, n);
      Wrap(next + (d - m), n);
      assert (next % n + (d - m)) % n == (start + d) % n;
      at := ReachedWithin(nodeId, max, items, cursors, digests, k + 1, d - m);
    }
  }

  /** Round-robin fairness: among any n consecutive calls on an unchanged vector of n streams,
      some call sends a stream if and only if a digest with that stream alone is within the
      limit. */
  lemma {:induction false} EveryStreamIsSent(nodeId: string, max: nat, items: seq<Field>, cursors: seq<nat>,
    digests: seq<seq<Field>>, j: nat)
    requires items != [] && IsRun(nodeId, max, items, cursors, digests) && |digests| == |items| && j < |items|
    ensures (exists k | 0 <= k < |digests| :: items[j] in digests[k]) <==> Size(DigestJson(nodeId, [items[j]])) <= max
  {
    hide FitsAlone, Size, Fitting, IsBoundedStep, DigestJson;
    FitsAloneIs(nodeId, max, items[j]);
    forall k | 0 <= k < |digests| && items[j] in digests[k] ensures Size(DigestJson(nodeId, [items[j]])) <= max {
      OversizedIsNeverSent(nodeId, max, items, cursors[k], digests[k], cursors[k + 1], items[j]);
    }
    if Size(DigestJson(nodeId, items)) <= max {
      assert IsCall(nodeId, max, items, cursors[0], digests[0], cursors[1]);
      assert items[j] in digests[0];
    } else if FitsAlone(nodeId, max, items[j]) {
      var n := |items|;
      var start := cursors[0] % n;
      var d := if j >= start then j - start else j + n - start;
      Wrap(start + d, n);
      var at := ReachedWithin(nodeId, max, items, cursors, digests, 0, d);
    }
  }

  /** Whatever a call sends is of the vector, and a digest with it alone is within the limit. */
  lemma {:induction false} OversizedIsNeverSent(nodeId: string, max: nat, items: seq<Field>, cursor: nat,
    selected: seq<Field>, next: nat, f: Field)
    requires IsCall(nodeId, max, items, cursor, selected, next) && f in selected
    ensures f in items && Size(DigestJson(nodeId, [f])) <= max
  {
    hide FitsAlone, Fitting, Size, DigestJson;
    if Size(DigestJson(nodeId, items)) <= max {
      DigestAtLeastOne(nodeId, items, f);
    } else {
      var m :| 1 <= m <= |items| && selected == Fitting(nodeId, max, Window(items, cursor % |items|, m));
      FittingKeeps(nodeId, max, Window(items, cursor % |items|, m), f);
      FitsAloneIs(nodeId, max, f);
    }
  }

  lemma {:induction false} EscapesAddUp(s: string)
    ensures |EscapeAll(s)| >= |s|
  {
    if s != [] { EscapesAddUp(s[..|s| - 1]); }
  }

  /** A node whose name alone reaches the limit sends digests beyond it, even empty ones. */
  lemma {:induction false} LongNameExceedsLimit(nodeId: string, max: nat)
    requires |nodeId| >= max
    ensures EmptyDigestSize(nodeId) > max
  {
    hide Size, StringSize;
    EscapesAddUp(nodeId);
    NameSize(nodeId);
    PairSize("node_id", Str(nodeId), "versions", Obj([]));
  }

  lemma NameSize(nodeId: string)
    ensures Size(Str(nodeId)) >= |EscapeAll(nodeId)|
  {
  }

  // ===== the digest reply and its running size =====

  function ReplyJson(nodeId: string, updates: seq<Field>, requests: seq<Field>): Json {
    Obj([Field("node_id", Str(nodeId)), Field("updates", Obj(updates)), Field("requests", Obj(requests))])
  }

  lemma {:induction false} TripleSize(nodeId: string, updates: seq<Field>, requests: seq<Field>)
    ensures Size(ReplyJson(nodeId, updates, requests))
         == Size(ReplyJson(nodeId, [], [])) + Size(Obj(updates)) + Size(Obj(requests)) - 2 * Size(Obj([]))
  {
    hide Size, StringSize;
    ReplyPartsSize(nodeId, updates, requests);
    ReplyPartsSize(nodeId, [], []);
  }

  lemma {:induction false} ReplyPartsSize(nodeId: string, updates: seq<Field>, requests: seq<Field>)
    ensures Size(ReplyJson(nodeId, updates, requests)) == StringSize("node_id") + Size(Str(nodeId))
      + StringSize("updates") + Size(Obj(updates)) + StringSize("requests") + Size(Obj(requests)) + 7
  {
    hide Size, StringSize;
    var f1, f2, f3 := Field("node_id", Str(nodeId)), Field("updates", Obj(updates)), Field("requests", Obj(requests));
    PairSize("node_id", Str(nodeId), "updates", Obj(updates));
    ObjectGrows([f1, f2], f3);
    assert [f1, f2] + [f3] == [f1, f2, f3];
  }

  /** The updates of a reply: one non-empty object of origins a stream. */
  predicate IsUpdates(fs: seq<Field>) {
    DistinctKeys(fs) && forall f | f in fs :: f.value.Obj? && f.value.fields != [] && DistinctKeys(f.value.fields)
  }

  /** The requests of a reply: one non-empty list of origin names a stream. */
  predicate IsRequests(fs: seq<Field>) {
    DistinctKeys(fs) && forall f | f in fs :: f.value.Arr? && f.value.items != []
  }

  function Origins(updates: seq<Field>, stream: string): seq<Field>
    requires IsUpdates(updates)
  {
    if HasKey(updates, stream) then ValueAt(updates, stream).fields else []
  }

  function Requested(requests: seq<Field>, stream: string): seq<Json>
    requires IsRequests(requests)
  {
    if HasKey(requests, stream) then ValueAt(requests, stream).items else []
  }

  class ReplyBuilder {
    const nodeId: string
    const maxPayload: nat
    var updates: seq<Field>
    var requests: seq<Field>
    var responseSize: int

    /** The running size is the exact size of the reply built so far, and a reply that
        carries anything is within the payload limit. */
    ghost predicate Valid()
      reads this
    {
      && IsUpdates(updates) && IsRequests(requests)
      && responseSize == Size(ReplyJson(nodeId, updates, requests))
      && ((updates == [] && requests == []) || responseSize <= maxPayload)
    }

    constructor (nodeId: string, maxPayload: nat)
      ensures Valid() && updates == [] && requests == []
      ensures this.nodeId == nodeId && this.maxPayload == maxPayload
    {
      this.nodeId, this.maxPayload := nodeId, maxPayload;
      updates, requests := [], [];
      responseSize := Size(ReplyJson(nodeId, [], []));
    }

    /** Asks for an origin of a stream unless that would take the reply beyond a quarter
        of the payload limit. */
    method AddRequest(stream: string, nid: string) returns (ok: bool)
      requires Valid()
      modifies this`requests, this`responseSize
      ensures Valid()
      ensures var current := Requested(old(requests), stream);
        var more := Put(old(requests), stream, Arr(current + [Str(nid)]));
        if Str(nid) in current then ok && requests == old(requests)
        else && (ok <==> Size(ReplyJson(nodeId, updates, more)) <= maxPayload / 4)
             && requests == if ok then more else old(requests)
    {
      hide Size, StringSize, IndexOf;
      var current := Requested(requests, stream);
      if Str(nid) in current { return true; }
      var candidate := current + [Str(nid)];
      var delta: int := Size(Arr(candidate));
      if current != [] {
        delta := delta - Size(Arr(current));
      } else {
        delta := delta + (if requests != [] then 1 else 0) + StringSize(stream) + 1;
      }
      RequestsGrow(requests, stream, candidate);
      PutSize(requests, stream, Arr(candidate));
      TripleSize(nodeId, updates, requests);
      TripleSize(nodeId, updates, Put(requests, stream, Arr(candidate)));
      assert responseSize + delta == Size(ReplyJson(nodeId, updates, Put(requests, stream, Arr(candidate))));
      if responseSize + delta > maxPayload / 4 { return false; }
      requests := Put(requests, stream, Arr(candidate));
      responseSize := responseSize + delta;
      ok := true;
    }

    /** Sends an origin's data for a stream, replacing what was there, unless that would
        take the reply beyond the payload limit. */
    method AddUpdate(stream: string, nid: string, data: Json) returns (ok: bool)
      requires Valid()
      modifies this`updates, this`responseSize
      ensures Valid()
      ensures var more := Put(old(updates), stream, Obj(Put(Origins(old(updates), stream), nid, data)));
        && (ok <==> Size(ReplyJson(nodeId, more, requests)) <= maxPayload)
        && updates == if ok then more else old(updates)
    {
      hide Size, StringSize, IndexOf;
      var current := Origins(updates, stream);
      var candidate := Put(current, nid, data);
      var delta: int := Size(Obj(candidate));
      if current != [] {
        delta := delta - Size(Obj(current));
      } else {
        delta := delta + (if updates != [] then 1 else 0) + StringSize(stream) + 1;
      }
      UpdatesGrow(updates, stream, nid, data);
      PutSize(updates, stream, Obj(candidate));
      TripleSize(nodeId, updates, requests);
      TripleSize(nodeId, Put(updates, stream, Obj(candidate)), requests);
      assert responseSize + delta == Size(ReplyJson(nodeId, Put(updates, stream, Obj(candidate)), requests));
      if responseSize + delta > maxPayload { return false; }
      updates := Put(updates, stream, Obj(candidate));
      responseSize := responseSize + delta;
      ok := true;
    }
  }

  lemma {:induction false} RequestsGrow(requests: seq<Field>, stream: string, candidate: seq<Json>)
    requires IsRequests(requests) && candidate != []
    ensures IsRequests(Put(requests, stream, Arr(candidate)))
    ensures HasKey(requests, stream) ==> ValueAt(requests, stream).Arr? && ValueAt(requests, stream).items != []
  {
    hide IndexOf;
    PutKeepsDistinct(requests, stream, Arr(candidate), stream);
    if HasKey(requests, stream) {
      assert requests[IndexOf(requests, stream)] in requests;
    }
  }

  lemma {:induction false} UpdatesGrow(updates: seq<Field>, stream: string, nid: string, data: Json)
    requires IsUpdates(updates)
    ensures IsUpdates(Put(updates, stream, Obj(Put(Origins(updates, stream), nid, data))))
    ensures HasKey(updates, stream) ==> ValueAt(updates, stream).Obj? && ValueAt(updates, stream).fields != []
  {
    hide IndexOf;
    if HasKey(updates, stream) {
      assert updates[IndexOf(updates, stream)] in updates;
    }
    var current := Origins(updates, stream);
    assert DistinctKeys(current);
    PutKeepsDistinct(current, nid, data, nid);
    PutKeepsDistinct(updates, stream, Obj(Put(current, nid, data)), stream);
  }

  // ===== cutting requested updates into sync payloads =====

  datatype Update = Update(stream: string, origin: string, data: Json)

  function SyncJson(nodeId: string, streams: seq<Field>): Json {
    Obj([Field("node_id", Str(nodeId)), Field("streams", Obj(streams))])
  }

  predicate SyncFitsAlone(nodeId: string, max: nat, u: Update) {
    Size(SyncJson(nodeId, [Field(u.stream, Obj([Field(u.origin, u.data)]))])) <= max
  }

  function GroupUpdates(stream: string, origins: seq<Field>): seq<Update> {
    seq(|origins|, i requires 0 <= i < |origins| => Update(stream, origins[i].key, origins[i].value))
  }

  /** The updates a payload carries, in order. */
  function Flatten(streams: seq<Field>): seq<Update>
    requires IsUpdates(streams)
  {
    if streams == [] then []
    else
      var last := streams[|streams| - 1];
      Flatten(streams[..|streams| - 1]) + GroupUpdates(last.key, last.value.fields)
  }

  function FlattenAll(payloads: seq<seq<Field>>): seq<Update>
    requires forall p | p in payloads :: IsUpdates(p)
  {
    if payloads == [] then [] else FlattenAll(payloads[..|payloads| - 1]) + Flatten(payloads[|payloads| - 1])
  }

  function SyncFitting(nodeId: string, max: nat, us: seq<Update>): seq<Update> {
    if us == [] then []
    else
      var front, last := SyncFitting(nodeId, max, us[..|us| - 1]), us[|us| - 1];
      if SyncFitsAlone(nodeId, max, last) then front + [last] else front
  }

  /** Requests arrive stream by stream, each origin of a stream once. */
  ghost predicate Grouped(us: seq<Update>) {
    && (forall i, j | 0 <= i < j < |us| :: us[i].stream != us[j].stream || us[i].origin != us[j].origin)
    && (forall i, j, k | 0 <= i <= j <= k < |us| && us[i].stream == us[k].stream :: us[j].stream == us[i].stream)
  }

  lemma {:induction false} FlattenHas(streams: seq<Field>, k: nat, i: nat)
    requires IsUpdates(streams) && k < |streams|
    requires streams[k].value.Obj? && i < |streams[k].value.fields|
    ensures Update(streams[k].key, streams[k].value.fields[i].key, streams[k].value.fields[i].value) in Flatten(streams)
  {
    var n := |streams| - 1;
    if k < n {
      FlattenHas(streams[..n], k, i);
    } else {
      assert GroupUpdates(streams[n].key, streams[n].value.fields)[i] in Flatten(streams);
    }
  }

  /** Queueing for a stream not in the payload yet appends to it. */
  lemma {:induction false} AppendNewStream(streams: seq<Field>, u: Update)
    requires IsUpdates(streams) && !HasKey(streams, u.stream)
    ensures var more := Put(streams, u.stream, Obj([Field(u.origin, u.data)]));
      IsUpdates(more) && Flatten(more) == Flatten(streams) + [u] && more[|more| - 1].key == u.stream
  {
    var group := [Field(u.origin, u.data)];
    var more := Put(streams, u.stream, Obj(group));
    PutKeepsDistinct(streams, u.stream, Obj(group), u.stream);
    assert more[..|streams|] == streams;
    assert GroupUpdates(u.stream, group) == [u];
  }

  /** Queueing a further origin of the last stream appends to it too. */
  lemma {:induction false} AppendToLastStream(streams: seq<Field>, u: Update)
    requires IsUpdates(streams) && streams != [] && streams[|streams| - 1].key == u.stream
    requires !HasKey(Origins(streams, u.stream), u.origin)
    ensures var more := Put(streams, u.stream, Obj(Put(Origins(streams, u.stream), u.origin, u.data)));
      IsUpdates(more) && Flatten(more) == Flatten(streams) + [u] && more[|more| - 1].key == u.stream
  {
    hide IndexOf, Flatten, GroupUpdates;
    var n := |streams| - 1;
    IndexIsUnique(streams, n);
    UpdatesGrow(streams, u.stream, u.origin, u.data);
    var group := streams[n].value.fields;
    assert Origins(streams, u.stream) == group;
    var wider := group + [Field(u.origin, u.data)];
    var more := streams[n := Field(u.stream, Obj(wider))];
    assert Put(streams, u.stream, Obj(Put(group, u.origin, u.data))) == more;
    assert more[..n] == streams[..n];
    FlattenLast(streams);
    FlattenLast(more);
    GroupAppends(u.stream, group, u);
    assert Flatten(streams[..n]) + (GroupUpdates(u.stream, group) + [u]) == Flatten(streams[..n]) + GroupUpdates(u.stream, group) + [u];
  }

  lemma {:induction false} FlattenLast(streams: seq<Field>)
    requires IsUpdates(streams) && streams != []
    ensures var n := |streams| - 1;
      Flatten(streams) == Flatten(streams[..n]) + GroupUpdates(streams[n].key, streams[n].value.fields)
  {
  }

  lemma {:induction false} GroupAppends(stream: string, group: seq<Field>, u: Update)
    requires u.stream == stream
    ensures GroupUpdates(stream, group + [Field(u.origin, u.data)]) == GroupUpdates(stream, group) + [u]
  {
  }

  class SyncQueue {
    const nodeId: string
    const maxPayload: nat
    var current: seq<Field>
    var sent: seq<seq<Field>>

    ghost predicate Valid()
      reads this
    {
      && IsUpdates(current)
      && (current != [] ==> Size(SyncJson(nodeId, current)) <= maxPayload)
      && (forall p | p in sent :: IsUpdates(p) && p != [] && Size(SyncJson(nodeId, p)) <= maxPayload)
    }

    /** Everything queued so far, sent or still waiting. */
    ghost function Queued(): seq<Update>
      requires Valid()
      reads this
    {
      FlattenAll(sent) + Flatten(current)
    }

    constructor (nodeId: string, maxPayload: nat)
      ensures Valid() && Queued() == [] && current == [] && sent == []
      ensures this.nodeId == nodeId && this.maxPayload == maxPayload
    {
      this.nodeId, this.maxPayload := nodeId, maxPayload;
      current, sent := [], [];
    }

    method Flush()
      requires Valid()
      modifies this
      ensures Valid() && current == [] && Queued() == old(Queued())
      ensures sent == old(if current == [] then sent else sent + [current])
    {
      hide Size;
      if current != [] {
        assert (sent + [current])[..|sent|] == sent;
        sent := sent + [current];
        current := [];
      }
    }

    /** Queues one update: into the open payload when it fits there, in place of what that
        carries of the same origin; into a fresh one when it fits alone; nowhere otherwise. */
    method Queue(u: Update)
      requires Valid()
      modifies this
      ensures Valid()
      ensures sent == SentAfter(nodeId, maxPayload, old(sent), old(current), u)
      ensures current == OpenAfter(nodeId, maxPayload, old(current), u)
      ensures old(Appends(current, u)) ==> Queued() == old(Queued()) + if SyncFitsAlone(nodeId, maxPayload, u) then [u] else []
    {
      hide Size, IndexOf, Flatten, FlattenAll, Candidate, HasKey, IsUpdates, Appends;
      CandidateIsUpdates(nodeId, current, u);
      if Appends(current, u) { CandidateAppends(nodeId, current, u); }
      AloneIsUpdate(u);
      NothingWaits();
      var candidate := Candidate(current, u);
      if Size(SyncJson(nodeId, candidate)) > maxPayload {
        Flush();
        candidate := Alone(u);
        if Size(SyncJson(nodeId, candidate)) > maxPayload { return; }
      }
      ghost var before := Flatten(current);
      current := candidate;
      assert FlattenAll(sent) + (before + [u]) == FlattenAll(sent) + before + [u];
    }
  }

  function Alone(u: Update): seq<Field> { [Field(u.stream, Obj([Field(u.origin, u.data)]))] }

  function OpenAfter(nodeId: string, max: nat, current: seq<Field>, u: Update): seq<Field>
    requires IsUpdates(current)
  {
    if Size(SyncJson(nodeId, Candidate(current, u))) <= max then Candidate(current, u)
    else if SyncFitsAlone(nodeId, max, u) then Alone(u) else []
  }

  function SentAfter(nodeId: string, max: nat, sent: seq<seq<Field>>, current: seq<Field>, u: Update): seq<seq<Field>>
    requires IsUpdates(current)
  {
    if Size(SyncJson(nodeId, Candidate(current, u))) <= max || current == [] then sent else sent + [current]
  }

  /** The open payload lacks the update's stream, or ends with it and lacks its origin. */
  predicate Appends(current: seq<Field>, u: Update)
    requires IsUpdates(current)
  {
    HasKey(current, u.stream) ==> current[|current| - 1].key == u.stream && !HasKey(Origins(current, u.stream), u.origin)
  }

  /** The open payload with one more update. */
  function Candidate(current: seq<Field>, u: Update): seq<Field>
    requires IsUpdates(current)
  {
    Put(current, u.stream, Obj(Put(Origins(current, u.stream), u.origin, u.data)))
  }

  lemma {:induction false} CandidateIsUpdates(nodeId: string, current: seq<Field>, u: Update)
    requires IsUpdates(current)
    ensures IsUpdates(Candidate(current, u)) && Candidate(current, u) != []
    ensures Size(SyncJson(nodeId, Candidate(current, u))) >= Size(SyncJson(nodeId, Alone(u)))
  {
    hide Size, IndexOf;
    UpdatesGrow(current, u.stream, u.origin, u.data);
    AloneIsLeast(nodeId, current, u);
  }

  lemma {:induction false} CandidateAppends(nodeId: string, current: seq<Field>, u: Update)
    requires IsUpdates(current) && Appends(current, u)
    ensures var more := Candidate(current, u);
      IsUpdates(more) && Flatten(more) == Flatten(current) + [u] && more != [] && more[|more| - 1].key == u.stream
  {
    hide Size, IndexOf, Flatten;
    PutFirst(u.origin, u.data);
    if HasKey(current, u.stream) { AppendToLastStream(current, u); } else { AppendNewStream(current, u); }
  }

  lemma AloneIsUpdate(u: Update)
    ensures IsUpdates(Alone(u)) && Flatten(Alone(u)) == [u] && Alone(u) != []
  {
    hide Flatten;
    PutFirst(u.stream, Obj([Field(u.origin, u.data)]));
    AppendNewStream([], u);
    NothingWaits();
  }

  lemma PutFirst(key: string, v: Json)
    ensures Put([], key, v) == [Field(key, v)]
  {
  }

  lemma NothingWaits()
    ensures Flatten([]) == []
  {
  }

  lemma {:induction false} SyncSize(nodeId: string, streams: seq<Field>)
    ensures Size(SyncJson(nodeId, streams)) == StringSize("node_id") + Size(Str(nodeId)) + StringSize("streams") + Size(Obj(streams)) + 5
  {
    hide Size, StringSize;
    PairSize("node_id", Str(nodeId), "streams", Obj(streams));
  }

  lemma {:induction false} EntrySize(fields: seq<Field>, i: nat)
    requires i < |fields|
    ensures Size(Obj(fields)) >= StringSize(fields[i].key) + Size(fields[i].value) + 3
  {
    hide Size, StringSize;
    var n := |fields| - 1;
    ObjectGrows(fields[..n], fields[n]);
    assert fields[..n] + [fields[n]] == fields;
    EmptyObject();
    if i < n { EntrySize(fields[..n], i); } else { ObjectAtLeastEmpty(fields[..n]); }
  }

  lemma {:induction false} ObjectAtLeastEmpty(fields: seq<Field>)
    ensures Size(Obj(fields)) >= 2
  {
    assert Encode(Obj(fields)) == "{" + EncodeFields(fields) + "}";
  }

  lemma EmptyObject()
    ensures Size(Obj([])) == 2
  {
  }

  lemma SingletonSize(f: Field)
    ensures Size(Obj([f])) == StringSize(f.key) + Size(f.value) + 3
  {
    hide Size, StringSize;
    EmptyObject();
    ObjectGrows([], f);
    assert [] + [f] == [f];
  }

  /** A payload with an update is at least as large as one with that update alone. */
  lemma {:induction false} AloneIsLeast(nodeId: string, streams: seq<Field>, u: Update)
    requires IsUpdates(streams)
    ensures Size(SyncJson(nodeId, Candidate(streams, u))) >= Size(SyncJson(nodeId, Alone(u)))
  {
    hide Size, StringSize, IndexOf;
    var f := Field(u.origin, u.data);
    var group := Put(Origins(streams, u.stream), u.origin, u.data);
    var k := if HasKey(Origins(streams, u.stream), u.origin) then IndexOf(Origins(streams, u.stream), u.origin) else |group| - 1;
    assert group[k] == f;
    EntrySize(group, k);
    SingletonSize(f);
    var more := Put(streams, u.stream, Obj(group));
    var at := if HasKey(streams, u.stream) then IndexOf(streams, u.stream) else |streams|;
    assert more[at] == Field(u.stream, Obj(group));
    EntrySize(more, at);
    SingletonSize(Field(u.stream, Obj([f])));
    SyncSize(nodeId, more);
    SyncSize(nodeId, Alone(u));
  }

  // ----- what the payloads carry -----

  /** A payload holds an update's data under its stream and origin. */
  ghost predicate Carries(payload: seq<Field>, u: Update)
    requires IsUpdates(payload)
  {
    var group := Origins(payload, u.stream);
    HasKey(group, u.origin) && ValueAt(group, u.origin) == u.data
  }

  predicate SameKey(u: Update, v: Update) { u.stream == v.stream && u.origin == v.origin }

  lemma {:induction false} CandidateCarries(current: seq<Field>, u: Update, v: Update)
    requires IsUpdates(current)
    ensures IsUpdates(Candidate(current, u))
    ensures Carries(Candidate(current, u), v) <==> if SameKey(u, v) then u == v else Carries(current, v)
  {
    hide IndexOf, Put, HasKey;
    UpdatesGrow(current, u.stream, u.origin, u.data);
    var group := Origins(current, u.stream);
    GroupKeys(current, u.stream);
    PutKeepsDistinct(group, u.origin, u.data, v.origin);
    PutKeepsDistinct(current, u.stream, Obj(Put(group, u.origin, u.data)), v.stream);
  }

  lemma {:induction false} GroupKeys(updates: seq<Field>, stream: string)
    requires IsUpdates(updates)
    ensures DistinctKeys(Origins(updates, stream))
  {
    hide IndexOf;
    if HasKey(updates, stream) { assert updates[IndexOf(updates, stream)] in updates; }
  }

  lemma AloneCarries(u: Update, v: Update)
    ensures IsUpdates(Alone(u)) && IsUpdates([])
    ensures (Carries(Alone(u), v) <==> u == v) && !Carries([], v)
  {
    hide IndexOf;
    PutFirst(u.origin, u.data);
    PutFirst(u.stream, Obj([Field(u.origin, u.data)]));
    assert !HasKey([], v.stream) && !HasKey([], v.origin);
    CandidateCarries([], u, v);
    assert Candidate([], u) == Alone(u);
  }

  ghost predicate AllUpdates(payloads: seq<seq<Field>>) { forall p | p in payloads :: IsUpdates(p) }

  /** Some payload, sent or open, carries an update. */
  ghost predicate Carried(payloads: seq<seq<Field>>, current: seq<Field>, u: Update)
    requires AllUpdates(payloads) && IsUpdates(current)
  {
    Carries(current, u) || exists p | p in payloads :: Carries(p, u)
  }

  /** Whatever is carried was queued and fits alone. */
  ghost predicate Truthful(nodeId: string, max: nat, payloads: seq<seq<Field>>, current: seq<Field>, us: seq<Update>)
    requires AllUpdates(payloads) && IsUpdates(current)
  {
    forall u | Carried(payloads, current, u) :: u in us && SyncFitsAlone(nodeId, max, u)
  }

  /** Everything that fits alone is carried, or a later update for the same origin is. */
  ghost predicate Covering(nodeId: string, max: nat, payloads: seq<seq<Field>>, current: seq<Field>, us: seq<Update>)
    requires AllUpdates(payloads) && IsUpdates(current)
  {
    forall i | 0 <= i < |us| && SyncFitsAlone(nodeId, max, us[i]) :: CarriedFrom(payloads, current, us, i)
  }

  ghost predicate CarriedFrom(payloads: seq<seq<Field>>, current: seq<Field>, us: seq<Update>, i: nat)
    requires AllUpdates(payloads) && IsUpdates(current) && i < |us|
  {
    exists j | i <= j < |us| :: SameKey(us[i], us[j]) && Carried(payloads, current, us[j])
  }

  /** What queueing one more update changes in what is carried. */
  lemma {:induction false} QueueingCarries(nodeId: string, max: nat, sent: seq<seq<Field>>, current: seq<Field>, u: Update, v: Update)
    requires AllUpdates(sent) && IsUpdates(current)
    ensures var sent', current' := SentAfter(nodeId, max, sent, current, u), OpenAfter(nodeId, max, current, u);
      && AllUpdates(sent') && IsUpdates(current')
      && (Carried(sent', current', v) ==> Carried(sent, current, v) || (v == u && SyncFitsAlone(nodeId, max, u)))
      && (Carried(sent, current, v) && !(SameKey(u, v) && SyncFitsAlone(nodeId, max, u)) ==> Carried(sent', current', v))
      && (SyncFitsAlone(nodeId, max, u) ==> Carried(sent', current', u))
  {
    hide Size, IndexOf, Candidate, Carries, IsUpdates, SyncJson;
    CandidateIsUpdates(nodeId, current, u);
    CandidateCarries(current, u, v);
    CandidateCarries(current, u, u);
    AloneCarries(u, v);
    AloneCarries(u, u);
    assert forall p :: p in sent + [current] <==> p in sent || p == current;
  }

  lemma {:induction false} QueueingKeepsCarried(nodeId: string, max: nat, sent: seq<seq<Field>>, current: seq<Field>,
    us: seq<Update>, u: Update, i: nat)
    requires AllUpdates(sent) && IsUpdates(current) && i < |us| && CarriedFrom(sent, current, us, i)
    ensures var sent', current' := SentAfter(nodeId, max, sent, current, u), OpenAfter(nodeId, max, current, u);
      AllUpdates(sent') && IsUpdates(current') && CarriedFrom(sent', current', us + [u], i)
  {
    hide Carried, SyncFitsAlone, SentAfter, OpenAfter, IsUpdates, AllUpdates;
    var j :| i <= j < |us| && SameKey(us[i], us[j]) && Carried(sent, current, us[j]);
    QueueingCarries(nodeId, max, sent, current, u, us[j]);
    var vs := us + [u];
    assert vs[i] == us[i] && vs[j] == us[j] && vs[|us|] == u;
    var k := if SameKey(u, us[j]) && SyncFitsAlone(nodeId, max, u) then |us| else j;
    assert SameKey(vs[i], vs[k]) && Carried(SentAfter(nodeId, max, sent, current, u), OpenAfter(nodeId, max, current, u), vs[k]);
  }

  lemma {:induction false} LastIsCarried(payloads: seq<seq<Field>>, current: seq<Field>, us: seq<Update>, u: Update)
    requires AllUpdates(payloads) && IsUpdates(current) && Carried(payloads, current, u)
    ensures CarriedFrom(payloads, current, us + [u], |us|)
  {
    hide Carried, IsUpdates, AllUpdates;
    var vs := us + [u];
    assert vs[|us|] == u && SameKey(vs[|us|], vs[|us|]);
  }

  lemma {:induction false} QueueingIsFaithful(nodeId: string, max: nat, sent: seq<seq<Field>>, current: seq<Field>,
    us: seq<Update>, u: Update)
    requires AllUpdates(sent) && IsUpdates(current)
    requires Truthful(nodeId, max, sent, current, us) && Covering(nodeId, max, sent, current, us)
    ensures var sent', current' := SentAfter(nodeId, max, sent, current, u), OpenAfter(nodeId, max, current, u);
      && AllUpdates(sent') && IsUpdates(current')
      && Truthful(nodeId, max, sent', current', us + [u]) && Covering(nodeId, max, sent', current', us + [u])
  {
    hide Carried, CarriedFrom, SyncFitsAlone, SentAfter, OpenAfter, IsUpdates, AllUpdates;
    QueueingCarries(nodeId, max, sent, current, u, u);
    var sent', current', vs := SentAfter(nodeId, max, sent, current, u), OpenAfter(nodeId, max, current, u), us + [u];
    assert forall v :: v in vs <==> v in us || v == u;
    forall v | Carried(sent', current', v) ensures v in vs && SyncFitsAlone(nodeId, max, v) {
      QueueingCarries(nodeId, max, sent, current, u, v);
    }
    forall i | 0 <= i < |vs| && SyncFitsAlone(nodeId, max, vs[i]) ensures CarriedFrom(sent', current', vs, i) {
      if i == |us| {
        LastIsCarried(sent', current', us, u);
      } else {
        assert vs[i] == us[i];
        QueueingKeepsCarried(nodeId, max, sent, current, us, u, i);
      }
    }
  }

  lemma {:induction false} NothingQueued(nodeId: string, max: nat, us: seq<Update>)
    ensures AllUpdates([]) && IsUpdates([]) && Truthful(nodeId, max, [], [], us[..0]) && Covering(nodeId, max, [], [], us[..0])
  {
    hide SyncFitsAlone;
    forall u ensures !Carried([], [], u) { AloneCarries(u, u); }
  }

  lemma {:induction false} FlushedIsFaithful(nodeId: string, max: nat, sent: seq<seq<Field>>, current: seq<Field>, us: seq<Update>)
    requires AllUpdates(sent) && IsUpdates(current)
    requires Truthful(nodeId, max, sent, current, us) && Covering(nodeId, max, sent, current, us)
    ensures var payloads := if current == [] then sent else sent + [current];
      && AllUpdates(payloads) && IsUpdates([])
      && Truthful(nodeId, max, payloads, [], us) && Covering(nodeId, max, payloads, [], us)
  {
    hide SyncFitsAlone, Carries;
    var payloads := if current == [] then sent else sent + [current];
    assert forall p :: p in sent + [current] <==> p in sent || p == current;
    forall u ensures Carried(payloads, [], u) <==> Carried(sent, current, u) { AloneCarries(u, u); }
    hide Carried;
  }

  /** Of the updates, in order, those stay with which alone a payload is within the limit. */
  lemma {:induction false} SyncFittingIs(nodeId: string, max: nat, us: seq<Update>, u: Update)
    ensures SyncFitting(nodeId, max, []) == []
    ensures SyncFitting(nodeId, max, us + [u]) == SyncFitting(nodeId, max, us)
      + if Size(SyncJson(nodeId, [Field(u.stream, Obj([Field(u.origin, u.data)]))])) <= max then [u] else []
  {
    assert (us + [u])[..|us|] == us;
  }

  lemma {:induction false} PayloadsMean(nodeId: string, max: nat, payloads: seq<seq<Field>>, us: seq<Update>)
    requires AllUpdates(payloads) && IsUpdates([])
    requires Truthful(nodeId, max, payloads, [], us) && Covering(nodeId, max, payloads, [], us)
    ensures forall p, u | p in payloads && Carries(p, u) ::
      u in us && Size(SyncJson(nodeId, [Field(u.stream, Obj([Field(u.origin, u.data)]))])) <= max
    ensures forall i | 0 <= i < |us| && Size(SyncJson(nodeId, [Field(us[i].stream, Obj([Field(us[i].origin, us[i].data)]))])) <= max ::
      exists j, p | i <= j < |us| && p in payloads :: us[j].stream == us[i].stream && us[j].origin == us[i].origin && Carries(p, us[j])
  {
    hide Size, SyncJson, Carries;
    forall p, u | p in payloads && Carries(p, u)
      ensures u in us && Size(SyncJson(nodeId, [Field(u.stream, Obj([Field(u.origin, u.data)]))])) <= max
    {
      assert Carried(payloads, [], u);
    }
    forall i | 0 <= i < |us| && Size(SyncJson(nodeId, [Field(us[i].stream, Obj([Field(us[i].origin, us[i].data)]))])) <= max
      ensures exists j, p | i <= j < |us| && p in payloads :: us[j].stream == us[i].stream && us[j].origin == us[i].origin && Carries(p, us[j])
    {
      assert SyncFitsAlone(nodeId, max, us[i]) && CarriedFrom(payloads, [], us, i);
      var j :| i <= j < |us| && SameKey(us[i], us[j]) && Carried(payloads, [], us[j]);
      AloneCarries(us[j], us[j]);
      var p :| p in payloads && Carries(p, us[j]);
    }
  }

  /** Sends requested updates in bounded payloads. Whatever is carried was requested and fits
      alone, and each update that fits alone is carried unless a later one for the same origin
      took its place. When the requests come stream by stream and name no origin twice, each
      that fits alone is carried exactly once, in order. */
  method SendRequested(nodeId: string, maxPayload: nat, us: seq<Update>) returns (payloads: seq<seq<Field>>)
    ensures forall p | p in payloads :: IsUpdates(p) && p != [] && Size(SyncJson(nodeId, p)) <= maxPayload
    ensures forall p, u | p in payloads && Carries(p, u) ::
      u in us && Size(SyncJson(nodeId, [Field(u.stream, Obj([Field(u.origin, u.data)]))])) <= maxPayload
    ensures forall i | 0 <= i < |us| && Size(SyncJson(nodeId, [Field(us[i].stream, Obj([Field(us[i].origin, us[i].data)]))])) <= maxPayload ::
      exists j, p | i <= j < |us| && p in payloads :: us[j].stream == us[i].stream && us[j].origin == us[i].origin && Carries(p, us[j])
    ensures Grouped(us) ==> FlattenAll(payloads) == SyncFitting(nodeId, maxPayload, us)
  {
    hide Size, IndexOf, SyncFitsAlone, FlattenAll, Flatten, Truthful, Covering, SentAfter, OpenAfter, Grouped, AllUpdates, Appends;
    var queue := new SyncQueue(nodeId, maxPayload);
    NoFitting(nodeId, maxPayload, us);
    NothingWaits();
    NothingQueued(nodeId, maxPayload, us);
    for i := 0 to |us|
      invariant queue.Valid() && fresh(queue) && queue.nodeId == nodeId && queue.maxPayload == maxPayload
      invariant AllUpdates(queue.sent)
      invariant Truthful(nodeId, maxPayload, queue.sent, queue.current, us[..i])
      invariant Covering(nodeId, maxPayload, queue.sent, queue.current, us[..i])
      invariant Grouped(us) ==> queue.Queued() == SyncFitting(nodeId, maxPayload, us[..i])
      invariant Grouped(us) ==> InStep(queue.current, us, i)
    {
      QueueingIsFaithful(nodeId, maxPayload, queue.sent, queue.current, us[..i], us[i]);
      assert us[..i + 1] == us[..i] + [us[i]];
      FittingGrows(nodeId, maxPayload, us, i);
      if Grouped(us) { StaysInStep(nodeId, maxPayload, queue.current, us, i); }
      queue.Queue(us[i]);
    }
    assert us[..|us|] == us;
    FlushedIsFaithful(nodeId, maxPayload, queue.sent, queue.current, us);
    queue.Flush();
    NothingWaits();
    payloads := queue.sent;
    PayloadsMean(nodeId, maxPayload, payloads, us);
  }

  /** The open payload ends with the stream of the last update queued, and carries nothing
      else than was queued. */
  ghost predicate InStep(current: seq<Field>, us: seq<Update>, i: nat)
    requires IsUpdates(current) && i <= |us|
  {
    && (current != [] ==> i > 0 && current[|current| - 1].key == us[i - 1].stream)
    && forall u | u in Flatten(current) :: u in us[..i]
  }

  lemma {:induction false} StaysInStep(nodeId: string, max: nat, current: seq<Field>, us: seq<Update>, i: nat)
    requires IsUpdates(current) && Grouped(us) && i < |us| && InStep(current, us, i)
    ensures Appends(current, us[i]) && IsUpdates(OpenAfter(nodeId, max, current, us[i]))
    ensures InStep(OpenAfter(nodeId, max, current, us[i]), us, i + 1)
  {
    hide Size, IndexOf, Flatten, Candidate;
    if HasKey(current, us[i].stream) { OpenGroup(current, us, i); }
    CandidateAppends(nodeId, current, us[i]);
    AloneIsUpdate(us[i]);
    NothingWaits();
    assert us[..i + 1] == us[..i] + [us[i]];
  }

  lemma {:induction false} NoFitting(nodeId: string, max: nat, us: seq<Update>)
    ensures SyncFitting(nodeId, max, us[..0]) == []
  {
  }

  lemma {:induction false} FittingGrows(nodeId: string, max: nat, us: seq<Update>, i: nat)
    requires i < |us|
    ensures SyncFitting(nodeId, max, us[..i + 1])
         == SyncFitting(nodeId, max, us[..i]) + if SyncFitsAlone(nodeId, max, us[i]) then [us[i]] else []
  {
    assert us[..i + 1][..i] == us[..i];
  }

  /** When the open payload already has the next update's stream, that stream is its last
      one, and it lacks the next origin. */
  lemma {:induction false} OpenGroup(current: seq<Field>, us: seq<Update>, i: nat)
    requires IsUpdates(current) && Grouped(us) && 0 < i < |us|
    requires HasKey(current, us[i].stream) && current[|current| - 1].key == us[i - 1].stream
    requires forall u | u in Flatten(current) :: u in us[..i]
    ensures current[|current| - 1].key == us[i].stream && !HasKey(Origins(current, us[i].stream), us[i].origin)
  {
    hide IndexOf, Flatten;
    var u := us[i];
    var k := IndexOf(current, u.stream);
    assert current[k] in current;
    var group := current[k].value.fields;
    assert Origins(current, u.stream) == group;
    FlattenHas(current, k, 0);
    var earlier := Update(u.stream, group[0].key, group[0].value);
    var l :| 0 <= l < i && us[l] == earlier;
    assert us[l].stream == us[i].stream && l <= i - 1 <= i;
    if HasKey(group, u.origin) {
      var at := IndexOf(group, u.origin);
      FlattenHas(current, k, at);
    }
  }
}
