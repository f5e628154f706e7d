/** What travels in a digest exchange: the versions a digest lists, which of them a receiver
    keeps, and the documents a reply is made of. */
module Digests {
  import opened Prelude
  import opened PeerStore
  import opened Json
  import opened GossipBudget
  import opened KeyTexts

  type Versions = map<StreamKey, map<NodeId, real>>

  /** The version listed for an origin's stream, 0 when none is. */
  function VersionIn(vv: Versions, k: StreamKey, o: NodeId): real { if Has(vv, k, o) then vv[k][o] else 0.0 }

  function SeenIn(vv: Versions): (StreamKey, NodeId) -> real { (k, o) => VersionIn(vv, k, o) }

  lemma OneRow(vv: Versions, k: StreamKey, row: map<NodeId, real>, k': StreamKey, o: NodeId)
    ensures VersionIn(vv[k := row], k', o) == if k' == k then (if o in row then row[o] else 0.0) else VersionIn(vv, k', o)
  {
  }

  // ----- normalising a received digest -----

  datatype Listing = Listing(origin: NodeId, version: WireVersion)

  /** One stream of a received digest; None stands for anything but an object of origins. */
  datatype DigestItem = DigestItem(stream: StreamKey, origins: Option<seq<Listing>>)

  predicate ValidListing(l: Listing) { ValidName(l.origin) && l.version.Number? && l.version.value >= 0.0 }

  function ValidOrigins(ls: seq<Listing>): set<NodeId> { set l | l in ls && ValidListing(l) :: l.origin }

  ghost predicate DistinctOrigins(ls: seq<Listing>) { forall i, j | 0 <= i < j < |ls| :: ls[i].origin != ls[j].origin }

  /** The first fifty valid listings of a stream. */
  function Kept(ls: seq<Listing>): (m: map<NodeId, real>)
    ensures |m| <= MAX_ORIGINS_PER_STREAM
  {
    if ls == [] then map[]
    else
      var m, last := Kept(ls[..|ls| - 1]), ls[|ls| - 1];
      if |m| >= MAX_ORIGINS_PER_STREAM || !ValidListing(last) then m else m[last.origin := last.version.value]
  }

  /** The first ten thousand valid streams of a digest. */
  function KeptStreams(items: seq<DigestItem>): (m: Versions)
    ensures |m| <= MAX_PEER_STREAMS
  {
    if items == [] then map[]
    else
      var m, last := KeptStreams(items[..|items| - 1]), items[|items| - 1];
      if |m| >= MAX_PEER_STREAMS || !ValidStreamKey(last.stream) || last.origins.None? then m
      else m[last.stream := Kept(last.origins.value)]
  }

  /** What counts in a received digest: streams whose key is the text of two names of 1 to 255
      characters, of at most 1024 characters, with an object of origins; and of those, origins
      with a name of 1 to 255 characters and a number of at least 0. */
  lemma {:induction false} ListingMeans(ls: seq<Listing>, items: seq<DigestItem>, o: NodeId, version: WireVersion, k: StreamKey)
    requires |Kept(ls)| < 50 && |KeptStreams(items)| < 10_000
    ensures Kept(ls + [Listing(o, version)])
         == match version case Number(v) => if 1 <= |o| <= 255 && v >= 0.0 then Kept(ls)[o := v] else Kept(ls) case _ => Kept(ls)
    ensures KeptStreams(items + [DigestItem(k, None)]) == KeptStreams(items)
    ensures KeptStreams(items + [DigestItem(k, Some(ls))])
         == if k.Pair? && 1 <= |k.namespace| <= 255 && 1 <= |k.stream| <= 255 && |KeyText(k)| <= 1024
            then KeptStreams(items)[k := Kept(ls)] else KeptStreams(items)
  {
    hide KeyText, KeyLength;
    assert (ls + [Listing(o, version)])[..|ls|] == ls;
    assert (items + [DigestItem(k, None)])[..|items|] == items;
    assert (items + [DigestItem(k, Some(ls))])[..|items|] == items;
    if k.Pair? { KeyLengthIs(k.namespace, k.stream); }
  }

  ghost predicate KeepsListings(ls: seq<Listing>) {
    forall l | l in ls && ValidListing(l) :: l.origin in Kept(ls) && Kept(ls)[l.origin] == l.version.value
  }

  lemma {:induction false} KeptSize(ls: seq<Listing>)
    requires DistinctOrigins(ls)
    ensures Kept(ls).Keys <= ValidOrigins(ls)
    ensures |Kept(ls)| == if |ValidOrigins(ls)| <= MAX_ORIGINS_PER_STREAM then |ValidOrigins(ls)| else MAX_ORIGINS_PER_STREAM
  {
    hide ValidListing, ValidOrigins;
    if ls == [] {
      NoOrigins();
    } else {
      var front, last := ls[..|ls| - 1], ls[|ls| - 1];
      assert ls == front + [last];
      KeptSize(front);
      OneMoreOrigin(front, last);
      assert |Kept(front).Keys| == |Kept(front)|;
    }
  }

  lemma NoOrigins()
    ensures ValidOrigins([]) == {}
  {
  }

  lemma {:induction false} KeptHas(ls: seq<Listing>, l: Listing)
    requires DistinctOrigins(ls) && |ValidOrigins(ls)| <= MAX_ORIGINS_PER_STREAM && l in ls && ValidListing(l)
    ensures l.origin in Kept(ls) && Kept(ls)[l.origin] == l.version.value
  {
    hide ValidName, ValidOrigins;
    var front, last := ls[..|ls| - 1], ls[|ls| - 1];
    assert ls == front + [last];
    OneMoreOrigin(front, last);
    KeptSize(front);
    if l != last {
      KeptHas(front, l);
      IsDistinct(front, last, l);
    }
  }

  lemma {:induction false} KeptWhole(ls: seq<Listing>)
    requires DistinctOrigins(ls) && |ValidOrigins(ls)| <= MAX_ORIGINS_PER_STREAM
    ensures KeepsListings(ls)
  {
    hide ValidName, ValidOrigins, Kept;
    forall l | l in ls && ValidListing(l) ensures l.origin in Kept(ls) && Kept(ls)[l.origin] == l.version.value { KeptHas(ls, l); }
  }

  lemma {:induction false} IsDistinct(ls: seq<Listing>, l: Listing, x: Listing)
    requires DistinctOrigins(ls + [l]) && x in ls
    ensures x.origin != l.origin
  {
    var i :| 0 <= i < |ls| && ls[i] == x;
    assert (ls + [l])[i] == x && (ls + [l])[|ls|] == l;
  }

  lemma {:induction false} OneMoreOrigin(ls: seq<Listing>, l: Listing)
    requires DistinctOrigins(ls + [l])
    ensures ValidOrigins(ls + [l]) == ValidOrigins(ls) + if ValidListing(l) then {l.origin} else {}
    ensures l.origin !in ValidOrigins(ls)
  {
    var all := ls + [l];
    assert l in all && (forall x | x in ls :: x in all) && forall x | x in all :: x in ls || x == l;
    forall x | x in ls ensures x.origin != l.origin { IsDistinct(ls, l, x); }
  }

  /** A receiver keeps every valid origin a digest lists for a stream exactly when there are
      at most fifty of them. */
  lemma {:induction false} KeptIsCompleteUpToFifty(ls: seq<Listing>)
    requires DistinctOrigins(ls)
    ensures KeepsListings(ls) <==> |ValidOrigins(ls)| <= MAX_ORIGINS_PER_STREAM
  {
    KeptSize(ls);
    if |ValidOrigins(ls)| <= MAX_ORIGINS_PER_STREAM { KeptWhole(ls); }
    if KeepsListings(ls) {
      forall o | o in ValidOrigins(ls) ensures o in Kept(ls).Keys {
        var l :| l in ls && ValidListing(l) && l.origin == o;
      }
      assert ValidOrigins(ls) == Kept(ls).Keys;
      assert |Kept(ls).Keys| == |Kept(ls)|;
    }
  }

  lemma {:induction false} KeptStreamsAre(items: seq<DigestItem>, k: StreamKey)
    requires forall i, j | 0 <= i < j < |items| :: items[i].stream != items[j].stream
    requires |items| <= MAX_PEER_STREAMS && (forall i | 0 <= i < |items| :: items[i].origins.Some?)
    ensures |KeptStreams(items)| <= |items|
    ensures k in KeptStreams(items) <==> ValidStreamKey(k) && exists i :: 0 <= i < |items| && items[i].stream == k
    ensures forall i | 0 <= i < |items| && items[i].stream == k && ValidStreamKey(k) ::
      k in KeptStreams(items) && KeptStreams(items)[k] == Kept(items[i].origins.value)
  {
    hide Kept, ValidStreamKey;
    if items != [] {
      var n := |items| - 1;
      KeptStreamsAre(items[..n], k);
      assert items[n] == items[|items| - 1];
      if k in KeptStreams(items[..n]) { var i :| 0 <= i < n && items[..n][i].stream == k; assert items[i].stream == k; }
    }
  }

  lemma {:induction false} FullStays(ls: seq<Listing>, i: nat)
    requires i <= |ls| && |Kept(ls[..i])| >= MAX_ORIGINS_PER_STREAM
    ensures Kept(ls) == Kept(ls[..i])
  {
    if i < |ls| {
      assert ls[..|ls| - 1][..i] == ls[..i];
      FullStays(ls[..|ls| - 1], i);
    } else {
      assert ls[..i] == ls;
    }
  }

  lemma {:induction false} FullDigestStays(items: seq<DigestItem>, i: nat)
    requires i <= |items| && |KeptStreams(items[..i])| >= MAX_PEER_STREAMS
    ensures KeptStreams(items) == KeptStreams(items[..i])
  {
    hide Kept;
    if i < |items| {
      assert items[..|items| - 1][..i] == items[..i];
      FullDigestStays(items[..|items| - 1], i);
    } else {
      assert items[..i] == items;
    }
  }

  method NormalizeOrigins(ls: seq<Listing>) returns (m: map<NodeId, real>)
    ensures m == Kept(ls)
  {
    m := map[];
    for i := 0 to |ls|
      invariant m == Kept(ls[..i]) && |m| < MAX_ORIGINS_PER_STREAM
    {
      assert ls[..i + 1][..i] == ls[..i];
      if ValidListing(ls[i]) { m := m[ls[i].origin := ls[i].version.value]; }
      if |m| >= MAX_ORIGINS_PER_STREAM {
        FullStays(ls, i + 1);
        return;
      }
    }
    assert ls[..|ls|] == ls;
  }

  /** Reads a received digest, stopping at either size limit. */
  method NormalizeVersions(items: seq<DigestItem>) returns (m: Versions)
    ensures m == KeptStreams(items)
  {
    hide Kept, ValidStreamKey;
    m := map[];
    for i := 0 to |items|
      invariant m == KeptStreams(items[..i]) && |m| < MAX_PEER_STREAMS
    {
      assert items[..i + 1][..i] == items[..i];
      if !ValidStreamKey(items[i].stream) || items[i].origins.None? { continue; }
      var kept := NormalizeOrigins(items[i].origins.value);
      m := m[items[i].stream := kept];
      if |m| >= MAX_PEER_STREAMS {
        FullDigestStays(items, i + 1);
        return;
      }
    }
    assert items[..|items|] == items;
  }

  lemma {:induction false} KeptIsNatural(ls: seq<Listing>)
    ensures forall o | o in Kept(ls) :: Kept(ls)[o] >= 0.0
  {
    if ls != [] { KeptIsNatural(ls[..|ls| - 1]); }
  }

  /** Nothing negative is read out of a digest. */
  lemma {:induction false} SeenIsNatural(items: seq<DigestItem>)
    ensures forall k, o :: VersionIn(KeptStreams(items), k, o) >= 0.0
  {
    hide Kept, ValidStreamKey;
    if items != [] {
      var last := items[|items| - 1];
      SeenIsNatural(items[..|items| - 1]);
      if last.origins.Some? { KeptIsNatural(last.origins.value); }
      var m := KeptStreams(items[..|items| - 1]);
      forall k, o ensures VersionIn(KeptStreams(items), k, o) >= 0.0 {
        assert VersionIn(m, k, o) >= 0.0;
      }
    }
  }

  // ----- listing a digest -----

  ghost predicate ListsRow(ls: seq<Listing>, row: map<NodeId, real>) {
    DistinctOrigins(ls) && forall l :: l in ls <==> l.origin in row && l.version == Number(row[l.origin])
  }

  ghost predicate ListsVersions(items: seq<DigestItem>, vv: Versions) {
    && (forall i, j | 0 <= i < j < |items| :: items[i].stream != items[j].stream)
    && (forall k | k in vv :: exists i :: 0 <= i < |items| && items[i].stream == k)
    && (forall i | 0 <= i < |items| :: ListsItem(items[i], vv))
  }

  ghost predicate ListsItem(item: DigestItem, vv: Versions) {
    item.stream in vv && item.origins.Some? && ListsRow(item.origins.value, vv[item.stream])
  }

  method ListRow(row: map<NodeId, real>) returns (ls: seq<Listing>)
    ensures ListsRow(ls, row)
  {
    ls := [];
    var todo := row.Keys;
    while todo != {}
      invariant todo <= row.Keys && DistinctOrigins(ls)
      invariant forall l :: l in ls <==> l.origin in row && l.origin !in todo && l.version == Number(row[l.origin])
    {
      ghost var some := Pick(todo);
      var o :| o in todo;
      ghost var before := ls;
      ls := ls + [Listing(o, Number(row[o]))];
      assert forall l :: l in ls <==> l in before || l == Listing(o, Number(row[o]));
      forall i, j | 0 <= i < j < |ls| ensures ls[i].origin != ls[j].origin { if j == |before| { assert ls[i] in before; } }
      todo := todo - {o};
    }
  }

  /** Writes a version vector out, stream by stream in whatever order. */
  method ListDigest(vv: Versions) returns (items: seq<DigestItem>)
    ensures ListsVersions(items, vv) && |items| == |vv|
  {
    hide ListsRow;
    items := [];
    var todo := vv.Keys;
    while todo != {}
      invariant todo <= vv.Keys && |items| + |todo| == |vv.Keys|
      invariant forall i, j | 0 <= i < j < |items| :: items[i].stream != items[j].stream
      invariant forall k | k in vv && k !in todo :: exists i :: 0 <= i < |items| && items[i].stream == k
      invariant forall i | 0 <= i < |items| :: items[i].stream !in todo && ListsItem(items[i], vv)
    {
      ghost var some := Pick(todo);
      var k :| k in todo;
      var ls := ListRow(vv[k]);
      ghost var before := items;
      items := items + [DigestItem(k, Some(ls))];
      assert items[|before|].stream == k;
      forall k' | k' in vv && k' !in todo - {k} ensures exists i :: 0 <= i < |items| && items[i].stream == k' {
        if k' != k {
          var i :| 0 <= i < |before| && before[i].stream == k';
          assert items[i].stream == k';
        }
      }
      todo := todo - {k};
    }
    assert |vv.Keys| == |vv|;
  }

  /** No more streams and no more origins of a stream than a receiver keeps. */
  ghost predicate Small(vv: Versions) {
    |vv| <= MAX_PEER_STREAMS && forall k | k in vv :: |vv[k]| <= MAX_ORIGINS_PER_STREAM
  }

  /** Every listed name is valid and no version is negative. */
  ghost predicate Clean(vv: Versions) {
    forall k, o | Has(vv, k, o) :: ValidStreamKey(k) && ValidName(o) && vv[k][o] >= 0.0
  }

  lemma {:induction false} RowIsKept(ls: seq<Listing>, row: map<NodeId, real>)
    requires ListsRow(ls, row) && |row| <= MAX_ORIGINS_PER_STREAM
    requires forall o | o in row :: ValidName(o) && row[o] >= 0.0
    ensures Kept(ls) == row
  {
    hide Kept, ValidName;
    forall o ensures o in ValidOrigins(ls) <==> o in row {
      if o in row { assert Listing(o, Number(row[o])) in ls; }
    }
    assert ValidOrigins(ls) == row.Keys;
    assert |row.Keys| == |row|;
    KeptSize(ls);
    KeptWhole(ls);
    forall o | o in row ensures o in Kept(ls) && Kept(ls)[o] == row[o] {
      assert Listing(o, Number(row[o])) in ls && ValidListing(Listing(o, Number(row[o])));
    }
  }

  /** A clean digest within both limits is read as it was written. */
  lemma {:induction false} SmallDigestsArrive(items: seq<DigestItem>, vv: Versions, k: StreamKey, o: NodeId)
    requires ListsVersions(items, vv) && |items| == |vv| && Small(vv) && Clean(vv)
    ensures VersionIn(KeptStreams(items), k, o) == VersionIn(vv, k, o)
  {
    hide Kept, KeptStreams, ListsRow, ValidStreamKey, ValidName;
    KeptStreamsAre(items, k);
    if k in vv {
      var i :| 0 <= i < |items| && items[i].stream == k;
      var row := vv[k];
      forall p | p in row ensures ValidStreamKey(k) && ValidName(p) && row[p] >= 0.0 { assert Has(vv, k, p); }
      RowIsKept(items[i].origins.value, row);
    }
  }

  // ----- the documents of a reply -----

  datatype Want = Want(stream: StreamKey, origin: NodeId)

  /** How entries are written is left open. */
  type Writer = Entry -> Json

  /** The requests object of a reply that asks for these origins one after the other. */
  function RequestsOf(ws: seq<Want>): (r: seq<Field>)
    ensures IsRequests(r)
  {
    if ws == [] then []
    else
      var front, last := RequestsOf(ws[..|ws| - 1]), ws[|ws| - 1];
      var current := Requested(front, KeyText(last.stream));
      RequestsGrow(front, KeyText(last.stream), current + [Str(last.origin)]);
      if Str(last.origin) in current then front
      else Put(front, KeyText(last.stream), Arr(current + [Str(last.origin)]))
  }

  /** The updates object of a reply that carries these facts one after the other. */
  function UpdatesOf(write: Writer, fs: seq<Fact>): (r: seq<Field>)
    ensures IsUpdates(r)
  {
    if fs == [] then []
    else
      var front, last := UpdatesOf(write, fs[..|fs| - 1]), fs[|fs| - 1];
      UpdatesGrow(front, KeyText(last.stream), last.origin, write(last.entry));
      Put(front, KeyText(last.stream), Obj(Put(Origins(front, KeyText(last.stream)), last.origin, write(last.entry))))
  }

  /** The size of the reply that carries some facts and asks for some origins. */
  function ReplySize(nodeId: string, write: Writer, fs: seq<Fact>, ws: seq<Want>): nat {
    Size(ReplyJson(nodeId, UpdatesOf(write, fs), RequestsOf(ws)))
  }

  lemma {:induction false} OneMoreWant(ws: seq<Want>, w: Want)
    ensures var front := RequestsOf(ws);
      var current := Requested(front, KeyText(w.stream));
      RequestsOf(ws + [w])
      == if Str(w.origin) in current then front else Put(front, KeyText(w.stream), Arr(current + [Str(w.origin)]))
  {
    assert (ws + [w])[..|ws|] == ws;
  }

  lemma {:induction false} OneMoreFact(write: Writer, fs: seq<Fact>, f: Fact)
    ensures var front := UpdatesOf(write, fs);
      UpdatesOf(write, fs + [f])
      == Put(front, KeyText(f.stream), Obj(Put(Origins(front, KeyText(f.stream)), f.origin, write(f.entry))))
  {
    assert (fs + [f])[..|fs|] == fs;
  }

  /** A reply under construction: the documents built so far, and what they stand for. */
  class Reply {
    const write: Writer
    const builder: ReplyBuilder
    var requests: seq<Want>
    var updates: seq<Fact>

    ghost predicate Valid()
      reads this, builder
    {
      builder.Valid() && builder.requests == RequestsOf(requests) && builder.updates == UpdatesOf(write, updates)
    }

    constructor (nodeId: string, maxPayload: nat, write: Writer)
      ensures Valid() && requests == [] && updates == [] && fresh(builder) && this.write == write
      ensures builder.nodeId == nodeId && builder.maxPayload == maxPayload
    {
      builder := new ReplyBuilder(nodeId, maxPayload);
      this.write, requests, updates := write, [], [];
    }

    /** Asks for an origin exactly when it is asked for already or the reply stays within a
        quarter of the limit. */
    method Request(w: Want) returns (ok: bool)
      requires Valid()
      modifies this`requests, builder`requests, builder`responseSize
      ensures Valid() && requests == if ok then old(requests) + [w] else old(requests)
      ensures ok <==>
        || RequestsOf(old(requests) + [w]) == RequestsOf(old(requests))
        || ReplySize(builder.nodeId, write, updates, old(requests) + [w]) <= builder.maxPayload / 4
    {
      hide KeyText, Put, Size, ReplyJson, Requested, UpdatesOf, RequestsOf;
      OneMoreWant(requests, w);
      PutIsLonger(builder.requests, KeyText(w.stream), w);
      ok := builder.AddRequest(KeyText(w.stream), w.origin);
      if ok { requests := requests + [w]; }
    }

    /** Adds an entry exactly when the reply stays within the limit. */
    method Update(f: Fact) returns (ok: bool)
      requires Valid()
      modifies this`updates, builder`updates, builder`responseSize
      ensures Valid() && updates == if ok then old(updates) + [f] else old(updates)
      ensures ok <==> ReplySize(builder.nodeId, write, old(updates) + [f], requests) <= builder.maxPayload
    {
      hide KeyText, Put, Size, ReplyJson, Origins, UpdatesOf, RequestsOf;
      OneMoreFact(write, updates, f);
      ok := builder.AddUpdate(KeyText(f.stream), f.origin, write(f.entry));
      if ok { updates := updates + [f]; }
    }
  }

  lemma {:induction false} PutIsLonger(requests: seq<Field>, text: string, w: Want)
    requires IsRequests(requests)
    ensures Str(w.origin) !in Requested(requests, text) ==>
      Put(requests, text, Arr(Requested(requests, text) + [Str(w.origin)])) != requests
  {
    var more := Requested(requests, text) + [Str(w.origin)];
    if Str(w.origin) !in Requested(requests, text) && Put(requests, text, Arr(more)) == requests {
      PutKeepsDistinct(requests, text, Arr(more), text);
    }
  }
}
