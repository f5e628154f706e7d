/** The size of a reply as a sum over what it carries: it does not depend on the order in which
    the reply was put together, and grows with what it carries. */
module ReplySizes {
  import opened Prelude
  import opened Json
  import opened GossipBudget
  import opened PeerStore
  import opened KeyTexts
  import opened Digests

  // ----- sums over sets -----

  lemma Inhabited<T>(s: set<T>)
    requires s != {}
    ensures exists x :: x in s
  {
    var x := Pick(s);
  }

  ghost function Total<T>(s: set<T>, cost: T -> nat): nat {
    if s == {} then 0
    else
      Inhabited(s);
      var x :| x in s;
      cost(x) + Total(s - {x}, cost)
  }

  lemma {:induction false} TotalWithout<T>(s: set<T>, cost: T -> nat, x: T)
    requires x in s
    ensures Total(s, cost) == cost(x) + Total(s - {x}, cost)
  {
    Inhabited(s);
    var first :| first in s && Total(s, cost) == cost(first) + Total(s - {first}, cost);
    if x != first {
      TotalWithout(s - {first}, cost, x);
      TotalWithout(s - {x}, cost, first);
      assert s - {first} - {x} == s - {x} - {first};
    }
  }

  lemma TotalWith<T>(s: set<T>, cost: T -> nat, x: T)
    requires x !in s
    ensures Total(s + {x}, cost) == Total(s, cost) + cost(x)
  {
    TotalWithout(s + {x}, cost, x);
    assert s + {x} - {x} == s;
  }

  lemma {:induction false} TotalGrows<T>(s: set<T>, t: set<T>, cost: T -> nat)
    requires s <= t
    ensures Total(s, cost) <= Total(t, cost)
  {
    if s != {} {
      var x := Pick(s);
      TotalGrows(s - {x}, t - {x}, cost);
      TotalWithout(s, cost, x);
      TotalWithout(t, cost, x);
    }
  }

  // ----- requests -----

  datatype Asked = Asked(text: string, origin: NodeId)

  function TextsOf(ws: seq<Want>): set<string> { set w | w in ws :: KeyText(w.stream) }

  function AskedIn(ws: seq<Want>): set<Asked> { set w | w in ws :: Asked(KeyText(w.stream), w.origin) }

  function TextCost(): string -> nat { (t: string) => StringSize(t) + 3 }

  function AskedCost(): Asked -> nat { (a: Asked) => StringSize(a.origin) + 1 }

  lemma {:induction false} OneMoreAsked(ws: seq<Want>, w: Want)
    ensures TextsOf(ws + [w]) == TextsOf(ws) + {KeyText(w.stream)}
    ensures AskedIn(ws + [w]) == AskedIn(ws) + {Asked(KeyText(w.stream), w.origin)}
  {
    hide KeyText;
    var all := ws + [w];
    assert w in all && (forall x | x in ws :: x in all) && forall x | x in all :: x in ws || x == w;
  }

  /** What a requests object asks for. */
  lemma {:induction false} RequestsHave(ws: seq<Want>, t: string, o: NodeId)
    ensures HasKey(RequestsOf(ws), t) <==> t in TextsOf(ws)
    ensures Str(o) in Requested(RequestsOf(ws), t) <==> Asked(t, o) in AskedIn(ws)
  {
    hide KeyText, Put, HasKey, IndexOf, TextsOf, AskedIn;
    if ws == [] {
      NothingAsked(t, o);
    } else {
      var front, last := ws[..|ws| - 1], ws[|ws| - 1];
      assert ws == front + [last];
      OneMoreAsked(front, last);
      RequestsHave(front, t, o);
      RequestsHave(front, KeyText(last.stream), last.origin);
      OneMoreWant(front, last);
      var text, current := KeyText(last.stream), Requested(RequestsOf(front), KeyText(last.stream));
      PutKeepsDistinct(RequestsOf(front), text, Arr(current + [Str(last.origin)]), t);
      assert Str(last.origin) in current ==> HasKey(RequestsOf(front), text);
    }
  }

  lemma NothingAsked(t: string, o: NodeId)
    ensures !HasKey(RequestsOf([]), t) && t !in TextsOf([]) && Str(o) !in Requested(RequestsOf([]), t) && Asked(t, o) !in AskedIn([])
  {
  }

  /** What one more origin adds to a requests object. */
  lemma {:induction false} RequestGrows(requests: seq<Field>, text: string, origin: NodeId)
    requires IsRequests(requests) && Str(origin) !in Requested(requests, text)
    ensures Size(Obj(Put(requests, text, Arr(Requested(requests, text) + [Str(origin)])))) == Size(Obj(requests))
      + (if HasKey(requests, text) then 0 else if requests == [] then StringSize(text) + 2 else StringSize(text) + 3)
      + StringSize(origin) + 1
  {
    hide Size, StringSize, IndexOf, Put;
    var current := Requested(requests, text);
    RequestsGrow(requests, text, current + [Str(origin)]);
    PutSize(requests, text, Arr(current + [Str(origin)]));
    ArrayGrows(current, Str(origin));
    TextSize(origin);
  }

  lemma TextSize(s: string)
    ensures Size(Str(s)) == StringSize(s) && Size(Arr([])) == 2 && Size(Obj([])) == 2
  {
  }

  lemma {:induction false} RequestsSize(ws: seq<Want>)
    ensures Size(Obj(RequestsOf(ws)))
         == if ws == [] then 2 else 1 + Total(TextsOf(ws), TextCost()) + Total(AskedIn(ws), AskedCost())
    ensures RequestsOf(ws) == [] <==> ws == []
  {
    hide Size, StringSize, KeyText, Put, HasKey, Requested, TextsOf, AskedIn;
    if ws == [] {
      TextSize("");
    } else {
      var front, last := ws[..|ws| - 1], ws[|ws| - 1];
      assert ws == front + [last];
      RequestsSize(front);
      OneMoreAsked(front, last);
      OneMoreWant(front, last);
      var text, asked := KeyText(last.stream), Asked(KeyText(last.stream), last.origin);
      RequestsHave(front, text, last.origin);
      RequestsHave(ws, text, last.origin);
      EmptyTotals(front);
      if asked in AskedIn(front) {
        AskedHasText(front, asked);
        assert TextsOf(ws) == TextsOf(front) && AskedIn(ws) == AskedIn(front);
      } else {
        RequestGrows(RequestsOf(front), text, last.origin);
        TotalWith(AskedIn(front), AskedCost(), asked);
        Costs(text, asked);
        if text !in TextsOf(front) {
          TotalWith(TextsOf(front), TextCost(), text);
        } else {
          assert TextsOf(ws) == TextsOf(front);
        }
      }
      NoKeys(text);
    }
  }

  lemma NoKeys(text: string)
    ensures !HasKey([], text)
  {
  }

  lemma Costs(text: string, asked: Asked)
    ensures TextCost()(text) == StringSize(text) + 3 && AskedCost()(asked) == StringSize(asked.origin) + 1
  {
  }

  lemma {:induction false} EmptyTotals(ws: seq<Want>)
    ensures ws == [] ==> Total(TextsOf(ws), TextCost()) == 0 && Total(AskedIn(ws), AskedCost()) == 0
    ensures ws == [] ==> TextsOf(ws) == {} && AskedIn(ws) == {}
  {
  }

  lemma {:induction false} AskedHasText(ws: seq<Want>, a: Asked)
    requires a in AskedIn(ws)
    ensures a.text in TextsOf(ws) && ws != []
  {
  }

  /** More requests make a larger object, in whatever order they are listed. */
  lemma {:induction false} RequestsSizeGrows(xs: seq<Want>, ys: seq<Want>)
    requires forall w | w in xs :: w in ys
    ensures Size(Obj(RequestsOf(xs))) <= Size(Obj(RequestsOf(ys)))
  {
    hide Size, StringSize, KeyText, RequestsOf;
    RequestsSize(xs);
    RequestsSize(ys);
    TotalGrows(TextsOf(xs), TextsOf(ys), TextCost());
    TotalGrows(AskedIn(xs), AskedIn(ys), AskedCost());
    if xs == [] && ys != [] { AtLeastOne(ys); }
    if xs != [] { assert xs[0] in ys; }
  }

  lemma {:induction false} AtLeastOne(ws: seq<Want>)
    requires ws != []
    ensures 1 + Total(TextsOf(ws), TextCost()) + Total(AskedIn(ws), AskedCost()) >= 2
  {
    hide KeyText, StringSize;
    var t := KeyText(ws[0].stream);
    assert ws[0] in ws && t in TextsOf(ws);
    TotalWithout(TextsOf(ws), TextCost(), t);
  }

  // ----- updates -----

  /** No two different facts are about one origin under one key text. */
  ghost predicate OneEach(fs: seq<Fact>) {
    forall f, g | f in fs && g in fs && KeyText(f.stream) == KeyText(g.stream) && f.origin == g.origin :: f == g
  }

  function FactTexts(fs: seq<Fact>): set<string> { set f | f in fs :: KeyText(f.stream) }

  function FactsIn(fs: seq<Fact>): set<Fact> { set f | f in fs }

  function CostOf(write: Writer, f: Fact): nat { StringSize(f.origin) + Size(write(f.entry)) + 2 }

  ghost function FactCost(write: Writer): Fact -> nat { (f: Fact) => CostOf(write, f) }

  lemma {:induction false} OneMoreText(fs: seq<Fact>, f: Fact)
    ensures FactTexts(fs + [f]) == FactTexts(fs) + {KeyText(f.stream)} && FactsIn(fs + [f]) == FactsIn(fs) + {f}
  {
    hide KeyText;
    var all := fs + [f];
    assert f in all && (forall x | x in fs :: x in all) && forall x | x in all :: x in fs || x == f;
  }

  ghost predicate Tells(fs: seq<Fact>, t: string, o: NodeId) { exists f :: f in fs && KeyText(f.stream) == t && f.origin == o }

  /** What an updates object carries. */
  lemma {:induction false} UpdatesHave(write: Writer, fs: seq<Fact>, t: string, o: NodeId)
    ensures HasKey(UpdatesOf(write, fs), t) <==> t in FactTexts(fs)
    ensures HasKey(Origins(UpdatesOf(write, fs), t), o) <==> Tells(fs, t, o)
  {
    hide KeyText, Put, HasKey, IndexOf, FactTexts, FactsIn;
    if fs == [] {
      NothingTold(write, t, o);
    } else {
      var front, last := fs[..|fs| - 1], fs[|fs| - 1];
      assert fs == front + [last];
      OneMoreText(front, last);
      UpdatesHave(write, front, t, o);
      OneMoreFact(write, front, last);
      var u, text := UpdatesOf(write, front), KeyText(last.stream);
      var group := Origins(u, text);
      UpdatesGrow(u, text, last.origin, write(last.entry));
      GroupIsDistinct(u, text);
      PutKeepsDistinct(group, last.origin, write(last.entry), o);
      PutKeepsDistinct(u, text, Obj(Put(group, last.origin, write(last.entry))), t);
      TellsMore(front, last, t, o);
    }
  }

  lemma {:induction false} TellsMore(fs: seq<Fact>, f: Fact, t: string, o: NodeId)
    ensures Tells(fs + [f], t, o) <==> Tells(fs, t, o) || (KeyText(f.stream) == t && f.origin == o)
  {
    hide KeyText;
    var all := fs + [f];
    assert f in all && (forall x | x in fs :: x in all) && forall x | x in all :: x in fs || x == f;
  }

  lemma {:induction false} GroupIsDistinct(updates: seq<Field>, text: string)
    requires IsUpdates(updates)
    ensures DistinctKeys(Origins(updates, text)) && (HasKey(updates, text) ==> Origins(updates, text) != [])
    ensures HasKey(updates, text) ==> ValueAt(updates, text) == Obj(Origins(updates, text))
  {
    hide IndexOf;
    if HasKey(updates, text) { assert updates[IndexOf(updates, text)] in updates; }
  }

  lemma NothingTold(write: Writer, t: string, o: NodeId)
    ensures !HasKey(UpdatesOf(write, []), t) && t !in FactTexts([])
    ensures !HasKey(Origins(UpdatesOf(write, []), t), o) && !Tells([], t, o)
  {
  }

  /** Each fact's data stands under its origin. */
  lemma {:induction false} UpdatesCarry(write: Writer, fs: seq<Fact>, f: Fact)
    requires OneEach(fs) && f in fs
    ensures var group := Origins(UpdatesOf(write, fs), KeyText(f.stream));
      HasKey(group, f.origin) && ValueAt(group, f.origin) == write(f.entry)
  {
    hide KeyText, Put, HasKey, IndexOf, FactTexts, FactsIn;
    var front, last := fs[..|fs| - 1], fs[|fs| - 1];
    assert fs == front + [last];
    assert last in fs && forall g | g in front :: g in fs;
    OneMoreFact(write, front, last);
    var u, text := UpdatesOf(write, front), KeyText(last.stream);
    var group := Origins(u, text);
    UpdatesGrow(u, text, last.origin, write(last.entry));
    GroupIsDistinct(u, text);
    PutKeepsDistinct(group, last.origin, write(last.entry), f.origin);
    PutKeepsDistinct(u, text, Obj(Put(group, last.origin, write(last.entry))), KeyText(f.stream));
    if f != last {
      UpdatesCarry(write, front, f);
      HasGroup(u, KeyText(f.stream), f.origin);
    }
  }

  lemma {:induction false} HasGroup(updates: seq<Field>, text: string, origin: NodeId)
    requires IsUpdates(updates) && HasKey(Origins(updates, text), origin)
    ensures HasKey(updates, text)
  {
  }

  /** What one more fact adds to an updates object. */
  lemma {:induction false} UpdateGrows(updates: seq<Field>, text: string, origin: NodeId, data: Json)
    requires IsUpdates(updates)
    ensures var group := Origins(updates, text);
      Size(Obj(Put(updates, text, Obj(Put(group, origin, data))))) == Size(Obj(updates))
      + if HasKey(group, origin) then Size(data) - Size(ValueAt(group, origin))
        else (if HasKey(updates, text) then 0 else if updates == [] then StringSize(text) + 2 else StringSize(text) + 3)
             + StringSize(origin) + Size(data) + 2
  {
    hide Size, StringSize, IndexOf, Put, HasKey;
    var group := Origins(updates, text);
    UpdatesGrow(updates, text, origin, data);
    GroupIsDistinct(updates, text);
    PutSize(group, origin, data);
    PutSize(updates, text, Obj(Put(group, origin, data)));
    TextSize(text);
    if HasKey(group, origin) { HasGroup(updates, text, origin); }
  }

  /** What one more fact adds to the updates of the facts before it. */
  lemma {:induction false} OneMoreSize(write: Writer, fs: seq<Fact>, f: Fact)
    requires OneEach(fs + [f]) && (UpdatesOf(write, fs) == [] <==> fs == [])
    ensures var text := KeyText(f.stream);
      Size(Obj(UpdatesOf(write, fs + [f]))) == Size(Obj(UpdatesOf(write, fs)))
      + if f in fs then 0
        else (if text in FactTexts(fs) then 0 else if fs == [] then StringSize(text) + 2 else StringSize(text) + 3) + CostOf(write, f)
    ensures UpdatesOf(write, fs + [f]) != []
  {
    hide Size, StringSize, KeyText, Put, HasKey, Origins, FactTexts, FactsIn;
    var all := fs + [f];
    assert f in all && forall g | g in fs :: g in all;
    var text := KeyText(f.stream);
    OneMoreText(fs, f);
    OneMoreFact(write, fs, f);
    UpdatesHave(write, fs, text, f.origin);
    UpdatesHave(write, all, text, f.origin);
    UpdateGrows(UpdatesOf(write, fs), text, f.origin, write(f.entry));
    NoKeys(text);
    if f in fs { UpdatesCarry(write, fs, f); } else { NotTold(fs, f); }
  }

  lemma {:induction false} UpdatesSize(write: Writer, fs: seq<Fact>)
    requires OneEach(fs)
    ensures Size(Obj(UpdatesOf(write, fs)))
         == if fs == [] then 2 else 1 + Total(FactTexts(fs), TextCost()) + Total(FactsIn(fs), FactCost(write))
    ensures UpdatesOf(write, fs) == [] <==> fs == []
  {
    hide Size, StringSize, KeyText, UpdatesOf, FactTexts, FactsIn;
    if fs == [] {
      TextSize("");
      NoUpdates(write);
    } else {
      var front, last := fs[..|fs| - 1], fs[|fs| - 1];
      assert fs == front + [last];
      assert forall g | g in front :: g in fs;
      UpdatesSize(write, front);
      OneMoreSize(write, front, last);
      TotalsGrow(write, front, last);
    }
  }

  lemma NoUpdates(write: Writer)
    ensures UpdatesOf(write, []) == []
  {
  }

  lemma {:induction false} TotalsGrow(write: Writer, fs: seq<Fact>, f: Fact)
    ensures var text := KeyText(f.stream);
      && Total(FactTexts(fs + [f]), TextCost()) == Total(FactTexts(fs), TextCost()) + (if text in FactTexts(fs) then 0 else StringSize(text) + 3)
      && Total(FactsIn(fs + [f]), FactCost(write)) == Total(FactsIn(fs), FactCost(write)) + (if f in fs then 0 else CostOf(write, f))
      && (f in fs ==> text in FactTexts(fs))
      && (fs == [] ==> Total(FactTexts(fs), TextCost()) == 0 == Total(FactsIn(fs), FactCost(write)) && text !in FactTexts(fs) && f !in fs)
  {
    hide StringSize, KeyText, CostOf, FactTexts, FactsIn;
    var text := KeyText(f.stream);
    OneMoreText(fs, f);
    EmptyFacts(write, fs);
    FactCosts(write, text, f);
    if f in fs { FactHasText(fs, f); } else {
      Absent(fs, f);
      TotalWith(FactsIn(fs), FactCost(write), f);
    }
    if text in FactTexts(fs) {
      assert FactTexts(fs) + {text} == FactTexts(fs);
    } else {
      TotalWith(FactTexts(fs), TextCost(), text);
    }
    if f in fs { assert FactsIn(fs) + {f} == FactsIn(fs); }
  }

  lemma {:induction false} Absent(fs: seq<Fact>, f: Fact)
    requires f !in fs
    ensures f !in FactsIn(fs)
  {
  }

  lemma {:induction false} NotTold(fs: seq<Fact>, f: Fact)
    requires OneEach(fs + [f]) && f !in fs
    ensures !Tells(fs, KeyText(f.stream), f.origin) && f !in FactsIn(fs)
  {
    hide KeyText;
    var all := fs + [f];
    assert f in all && forall x | x in fs :: x in all;
  }

  lemma FactCosts(write: Writer, text: string, f: Fact)
    ensures TextCost()(text) == StringSize(text) + 3 && FactCost(write)(f) == CostOf(write, f)
  {
  }

  lemma {:induction false} EmptyFacts(write: Writer, fs: seq<Fact>)
    ensures fs == [] ==> Total(FactTexts(fs), TextCost()) == 0 && Total(FactsIn(fs), FactCost(write)) == 0
    ensures fs == [] ==> FactTexts(fs) == {} && FactsIn(fs) == {}
  {
  }

  lemma {:induction false} FactHasText(fs: seq<Fact>, f: Fact)
    requires f in fs
    ensures KeyText(f.stream) in FactTexts(fs) && f in FactsIn(fs)
  {
  }

  /** More facts make a larger object, in whatever order they are listed. */
  lemma {:induction false} UpdatesSizeGrows(write: Writer, fs: seq<Fact>, gs: seq<Fact>)
    requires OneEach(gs) && forall f | f in fs :: f in gs
    ensures Size(Obj(UpdatesOf(write, fs))) <= Size(Obj(UpdatesOf(write, gs)))
  {
    hide Size, StringSize, KeyText, UpdatesOf;
    UpdatesSize(write, fs);
    UpdatesSize(write, gs);
    TotalGrows(FactTexts(fs), FactTexts(gs), TextCost());
    TotalGrows(FactsIn(fs), FactsIn(gs), FactCost(write));
    if fs == [] && gs != [] { AtLeastOneFact(write, gs); }
    if fs != [] { assert fs[0] in gs; }
  }

  lemma {:induction false} AtLeastOneFact(write: Writer, fs: seq<Fact>)
    requires fs != []
    ensures 1 + Total(FactTexts(fs), TextCost()) + Total(FactsIn(fs), FactCost(write)) >= 2
  {
    hide KeyText, StringSize;
    var t := KeyText(fs[0].stream);
    assert fs[0] in fs && t in FactTexts(fs);
    TotalWithout(FactTexts(fs), TextCost(), t);
  }

  /** A reply that carries more and asks for more is no smaller. */
  lemma {:induction false} ReplyGrows(nodeId: string, write: Writer, fs: seq<Fact>, gs: seq<Fact>, vs: seq<Want>, ws: seq<Want>)
    requires OneEach(gs) && (forall f | f in fs :: f in gs) && forall v | v in vs :: v in ws
    ensures ReplySize(nodeId, write, fs, vs) <= ReplySize(nodeId, write, gs, ws)
  {
    hide Size, UpdatesOf, RequestsOf, KeyText;
    TripleSize(nodeId, UpdatesOf(write, fs), RequestsOf(vs));
    TripleSize(nodeId, UpdatesOf(write, gs), RequestsOf(ws));
    UpdatesSizeGrows(write, fs, gs);
    RequestsSizeGrows(vs, ws);
  }
}
