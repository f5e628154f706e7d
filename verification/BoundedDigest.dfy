/** Which streams of a version vector travel in one bounded digest, as items the receiver
    reads. */
module BoundedDigests {
  import opened Prelude
  import opened PeerStore
  import opened Json
  import opened GossipBudget
  import opened KeyTexts
  import opened Digests

  /** How a version is written is left open. */
  type Spelling = real -> string

  function ListingField(spell: Spelling, l: Listing): Field {
    Field(l.origin, Token(if l.version.Number? then spell(l.version.value) else ""))
  }

  function ListingFields(spell: Spelling, ls: seq<Listing>): seq<Field> {
    seq(|ls|, i requires 0 <= i < |ls| => ListingField(spell, ls[i]))
  }

  /** One stream of a vector as a digest carries it. */
  function ItemField(spell: Spelling, item: DigestItem): Field {
    Field(KeyText(item.stream), Obj(if item.origins.Some? then ListingFields(spell, item.origins.value) else []))
  }

  function FieldsOf(spell: Spelling, items: seq<DigestItem>): (fs: seq<Field>)
    ensures |fs| == |items|
  {
    seq(|items|, i requires 0 <= i < |items| => ItemField(spell, items[i]))
  }

  /** The item of a listing that a field stands for. */
  function ItemOf(spell: Spelling, items: seq<DigestItem>, f: Field): DigestItem {
    if items == [] then DigestItem(Other(f.key), None)
    else
      var last := items[|items| - 1];
      if ItemField(spell, last) == f then last else ItemOf(spell, items[..|items| - 1], f)
  }

  function ItemsFor(spell: Spelling, items: seq<DigestItem>, fs: seq<Field>): (r: seq<DigestItem>)
    ensures |r| == |fs|
  {
    seq(|fs|, i requires 0 <= i < |fs| => ItemOf(spell, items, fs[i]))
  }

  function Listed(items: seq<DigestItem>): set<StreamKey> { set item | item in items :: item.stream }

  function Restrict(vv: Versions, streams: set<StreamKey>): Versions { map k | k in vv && k in streams :: vv[k] }

  ghost predicate DistinctStreams(items: seq<DigestItem>) { forall i, j | 0 <= i < j < |items| :: items[i].stream != items[j].stream }

  ghost predicate PairStreams(items: seq<DigestItem>) { forall item | item in items :: item.stream.Pair? }

  ghost predicate DistinctFields(fs: seq<Field>) { forall i, j | 0 <= i < j < |fs| :: fs[i] != fs[j] }

  lemma {:induction false} ItemIsFound(spell: Spelling, items: seq<DigestItem>, f: Field)
    requires f in FieldsOf(spell, items)
    ensures ItemOf(spell, items, f) in items && ItemField(spell, ItemOf(spell, items, f)) == f
  {
    hide ItemField;
    var front, last := items[..|items| - 1], items[|items| - 1];
    assert items == front + [last];
    if ItemField(spell, last) != f {
      var i :| 0 <= i < |items| && FieldsOf(spell, items)[i] == f;
      assert FieldsOf(spell, front)[i] == f;
      ItemIsFound(spell, front, f);
    }
  }

  lemma {:induction false} SameTextSameItem(spell: Spelling, items: seq<DigestItem>, x: DigestItem, y: DigestItem)
    requires DistinctStreams(items) && PairStreams(items) && x in items && y in items
    requires ItemField(spell, x).key == ItemField(spell, y).key
    ensures x == y
  {
    hide KeyText;
    TextsDiffer(x.stream, y.stream);
  }

  lemma {:induction false} FieldsAreDistinct(spell: Spelling, items: seq<DigestItem>)
    requires DistinctStreams(items) && PairStreams(items)
    ensures DistinctFields(FieldsOf(spell, items))
  {
    hide ItemField;
    forall i, j | 0 <= i < j < |items| ensures FieldsOf(spell, items)[i] != FieldsOf(spell, items)[j] {
      if ItemField(spell, items[i]) == ItemField(spell, items[j]) { SameTextSameItem(spell, items, items[i], items[j]); }
    }
  }

  lemma {:induction false} WindowIsDistinct(items: seq<Field>, start: nat, m: nat)
    requires start < |items| && m <= |items| && DistinctFields(items)
    ensures DistinctFields(Window(items, start, m)) && forall f | f in Window(items, start, m) :: f in items
  {
    var n := |items|;
    forall i, j | 0 <= i < j < m ensures Window(items, start, m)[i] != Window(items, start, m)[j] {
      Wrap(start + i, n);
      Wrap(start + j, n);
    }
  }

  lemma {:induction false} FittingIsDistinct(nodeId: string, max: nat, fs: seq<Field>)
    requires DistinctFields(fs)
    ensures DistinctFields(GossipBudget.Fitting(nodeId, max, fs))
  {
    hide FitsAlone;
    if fs != [] {
      var front, last := fs[..|fs| - 1], fs[|fs| - 1];
      FittingIsDistinct(nodeId, max, front);
      FittingKeeps(nodeId, max, front, last);
      var kept := GossipBudget.Fitting(nodeId, max, front);
      forall i | 0 <= i < |kept| ensures kept[i] != last { assert kept[i] in kept; }
    }
  }

  /** A digest carries streams of the vector, each once. */
  lemma {:induction false} CallSelects(nodeId: string, max: nat, items: seq<Field>, cursor: nat, selected: seq<Field>, next: nat)
    requires IsCall(nodeId, max, items, cursor, selected, next) && DistinctFields(items)
    ensures DistinctFields(selected) && forall f | f in selected :: f in items
  {
    hide Size, GossipBudget.Fitting, Window, DistinctFields, FitsAlone;
    if Size(DigestJson(nodeId, items)) > max {
      if items == [] {
        NoneIsDistinct();
      } else {
        var start := cursor % |items|;
        var m :| 1 <= m <= |items| && selected == GossipBudget.Fitting(nodeId, max, Window(items, start, m));
        WindowIsDistinct(items, start, m);
        FittingIsDistinct(nodeId, max, Window(items, start, m));
        forall f | f in selected ensures f in items { FittingKeeps(nodeId, max, Window(items, start, m), f); }
      }
    }
  }

  lemma NoneIsDistinct()
    ensures DistinctFields([])
  {
  }

  lemma {:induction false} DistinctCount(items: seq<DigestItem>)
    requires DistinctStreams(items)
    ensures |Listed(items)| == |items|
  {
    if items != [] {
      var front, last := items[..|items| - 1], items[|items| - 1];
      assert items == front + [last];
      DistinctCount(front);
      assert last.stream !in Listed(front);
      assert Listed(items) == Listed(front) + {last.stream};
    }
  }

  /** Fields of a vector, each once. */
  ghost predicate Selection(spell: Spelling, listing: seq<DigestItem>, fs: seq<Field>) {
    DistinctStreams(listing) && PairStreams(listing) && DistinctFields(fs) && forall f | f in fs :: f in FieldsOf(spell, listing)
  }

  lemma {:induction false} ItemsAreListed(spell: Spelling, listing: seq<DigestItem>, fs: seq<Field>)
    requires Selection(spell, listing, fs)
    ensures var items := ItemsFor(spell, listing, fs);
      && DistinctStreams(items)
      && forall i | 0 <= i < |items| :: items[i] in listing && ItemField(spell, items[i]) == fs[i]
  {
    hide ItemField, ItemOf, FieldsOf, PairStreams;
    var items := ItemsFor(spell, listing, fs);
    forall i | 0 <= i < |items| ensures items[i] in listing && ItemField(spell, items[i]) == fs[i] { ItemIsFound(spell, listing, fs[i]); }
    forall i, j | 0 <= i < j < |items| ensures items[i].stream != items[j].stream {
      if items[i].stream == items[j].stream { SameStreamSameItem(listing, items[i], items[j]); }
    }
  }

  /** A stream is in a digest exactly when its field was selected. */
  lemma {:induction false} ListedIsSelected(spell: Spelling, listing: seq<DigestItem>, fs: seq<Field>, item: DigestItem)
    requires Selection(spell, listing, fs) && item in listing
    ensures item.stream in Listed(ItemsFor(spell, listing, fs)) <==> ItemField(spell, item) in fs
  {
    hide ItemField, FieldsOf, ItemsFor, PairStreams;
    var items := ItemsFor(spell, listing, fs);
    ItemsAreListed(spell, listing, fs);
    if ItemField(spell, item) in fs {
      var i :| 0 <= i < |fs| && fs[i] == ItemField(spell, item);
      FieldNamesStream(spell, listing, item, items[i]);
      assert items[i] in items;
    }
    if item.stream in Listed(items) {
      var i :| 0 <= i < |items| && items[i].stream == item.stream;
      SameStreamSameItem(listing, item, items[i]);
    }
  }

  /** The items of a digest list the part of the vector with their streams. */
  lemma {:induction false} SelectionLists(spell: Spelling, listing: seq<DigestItem>, vv: Versions, fs: seq<Field>)
    requires ListsVersions(listing, vv) && Selection(spell, listing, fs)
    ensures var items := ItemsFor(spell, listing, fs);
      ListsVersions(items, Restrict(vv, Listed(items))) && |items| == |Restrict(vv, Listed(items))|
  {
    hide ItemField, ItemsFor, FieldsOf, Selection, ListsItem;
    ItemsAreListed(spell, listing, fs);
    SubListing(listing, vv, ItemsFor(spell, listing, fs));
  }

  lemma {:induction false} SubListing(listing: seq<DigestItem>, vv: Versions, items: seq<DigestItem>)
    requires ListsVersions(listing, vv) && DistinctStreams(items) && forall i | 0 <= i < |items| :: items[i] in listing
    ensures ListsVersions(items, Restrict(vv, Listed(items))) && |items| == |Restrict(vv, Listed(items))|
  {
    hide ListsItem;
    var part := Restrict(vv, Listed(items));
    forall i | 0 <= i < |items| ensures items[i].stream in vv && ListsItem(items[i], part) { PartLists(listing, vv, items, items[i]); }
    DistinctCount(items);
    assert part.Keys == Listed(items) && |part.Keys| == |part|;
  }

  lemma {:induction false} FieldNamesStream(spell: Spelling, listing: seq<DigestItem>, x: DigestItem, y: DigestItem)
    requires DistinctStreams(listing) && PairStreams(listing) && x in listing && y in listing && ItemField(spell, x) == ItemField(spell, y)
    ensures x == y
  {
    SameTextSameItem(spell, listing, x, y);
  }

  lemma {:induction false} SameStreamSameItem(items: seq<DigestItem>, x: DigestItem, y: DigestItem)
    requires DistinctStreams(items) && x in items && y in items && x.stream == y.stream
    ensures x == y
  {
  }

  lemma {:induction false} PartLists(listing: seq<DigestItem>, vv: Versions, items: seq<DigestItem>, item: DigestItem)
    requires ListsVersions(listing, vv) && item in listing && item in items
    ensures item.stream in vv && ListsItem(item, Restrict(vv, Listed(items)))
  {
    var i :| 0 <= i < |listing| && listing[i] == item;
    assert ListsItem(listing[i], vv);
  }

  /** What fits goes out whole. */
  lemma {:induction false} WholeSelection(spell: Spelling, listing: seq<DigestItem>)
    requires DistinctStreams(listing) && PairStreams(listing)
    ensures ItemsFor(spell, listing, FieldsOf(spell, listing)) == listing
  {
    hide ItemField, ItemOf;
    forall i | 0 <= i < |listing| ensures ItemOf(spell, listing, FieldsOf(spell, listing)[i]) == listing[i] {
      ItemIsFound(spell, listing, FieldsOf(spell, listing)[i]);
      FieldNamesStream(spell, listing, listing[i], ItemOf(spell, listing, FieldsOf(spell, listing)[i]));
    }
  }
}
