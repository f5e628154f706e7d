/** What two nodes that send each other answers learn: each stays with what it knew or takes
    over something newer, so they come to differ on fewer and fewer streams. */
module Learning {
  import opened Prelude
  import opened PeerStore
  import opened Mesh
  import opened Exchange
  import opened Digests

  // ----- what receiving does to a node's knowledge -----

  /** Of every origin's stream a node answers as before, or with the newer answer of another. */
  ghost predicate Learns(x: Node, y: Node, x': Node) {
    && x'.id == x.id
    && forall k, o | Answer(x', k, o) != Answer(x, k, o) ::
         o != x.id && Answer(x', k, o) == Answer(y, k, o) && Answer(y, k, o).version > Answer(x, k, o).version
  }

  ghost predicate AnswersAll(y: Node, fs: seq<Fact>) { forall f | f in fs :: f.entry == Answer(y, f.stream, f.origin) }

  /** Receiving one fact changes at most the answer it is about, to something newer, and
      otherwise nothing at all. */
  lemma OneReceived(x: Node, f: Fact, k: StreamKey, o: NodeId)
    requires ValidPeers(x.peers)
    ensures ValidPeers(Receive(x, f).peers) && Receive(x, f).id == x.id
    ensures Answer(Receive(x, f), k, o)
         == if f.stream == k && f.origin == o && Acceptable(x, f) && Accepts(x.peers, k, o, f.entry) then f.entry else Answer(x, k, o)
  {
    hide Install, EntryAt, ValidPeers, ValidStreamKey, ValidName, Known, Admits;
    if Acceptable(x, f) {
      InstallKeepsValid(x.peers, f.stream, f.origin, f.entry);
      InstallChangesOneEntry(x.peers, f.stream, f.origin, f.entry, k, o);
      OwnStateUntouched(x, f, k);
      if o != x.id {
        AnswerAboutPeer(x, k, o);
        AnswerAboutPeer(Receive(x, f), k, o);
      }
    }
  }

  lemma OneUnchanged(x: Node, f: Fact)
    requires Receive(x, f) != x
    ensures Acceptable(x, f) && Accepts(x.peers, f.stream, f.origin, f.entry)
  {
  }

  lemma {:induction false} ReceivingLearns(x: Node, y: Node, fs: seq<Fact>)
    requires ValidPeers(x.peers) && AnswersAll(y, fs)
    ensures Learns(x, y, ReceiveAll(x, fs)) && ValidPeers(ReceiveAll(x, fs).peers)
  {
    hide Receive, Answer, ValidPeers, Accepts;
    if fs != [] {
      var front, last := fs[..|fs| - 1], fs[|fs| - 1];
      var now := ReceiveAll(x, front);
      ReceivingLearns(x, y, front);
      OneReceived(now, last, last.stream, last.origin);
      forall k, o | Answer(Receive(now, last), k, o) != Answer(x, k, o)
        ensures o != x.id && Answer(Receive(now, last), k, o) == Answer(y, k, o) && Answer(y, k, o).version > Answer(x, k, o).version
      {
        OneReceived(now, last, k, o);
        if Answer(Receive(now, last), k, o) != Answer(now, k, o) { NewerThanAnswer(now, last); }
      }
    }
  }

  lemma NewerThanAnswer(x: Node, f: Fact)
    requires ValidPeers(x.peers) && Acceptable(x, f) && Accepts(x.peers, f.stream, f.origin, f.entry)
    ensures f.origin != x.id && f.entry.version > Answer(x, f.stream, f.origin).version
  {
    AnswerAboutPeer(x, f.stream, f.origin);
  }

  /** A node that receiving changed answers something newer than before. */
  lemma {:induction false} ChangeIsNews(x: Node, y: Node, fs: seq<Fact>) returns (w: Want)
    requires ValidPeers(x.peers) && AnswersAll(y, fs) && ReceiveAll(x, fs) != x
    ensures Answer(ReceiveAll(x, fs), w.stream, w.origin) == Answer(y, w.stream, w.origin)
    ensures Answer(y, w.stream, w.origin).version > Answer(x, w.stream, w.origin).version
  {
    hide Receive, Answer, ValidPeers, Accepts;
    ReceivingLearns(x, y, fs);
    var front, last := fs[..|fs| - 1], fs[|fs| - 1];
    var now := ReceiveAll(x, front);
    ReceivingLearns(x, y, front);
    if now != x {
      w := ChangeIsNews(x, y, front);
      OneReceived(now, last, w.stream, w.origin);
      assert last.entry == Answer(y, last.stream, last.origin);
    } else {
      OneUnchanged(now, last);
      NewerThanAnswer(now, last);
      OneReceived(now, last, last.stream, last.origin);
      w := Want(last.stream, last.origin);
    }
  }

  // ----- what two nodes differ in -----

  /** The origins' streams on which two nodes answer with different versions. */
  ghost function Apart(a: Node, b: Node, ws: seq<Want>): set<Want> {
    set w | w in ws && Answer(a, w.stream, w.origin).version != Answer(b, w.stream, w.origin).version
  }

  ghost predicate AllApart(a: Node, b: Node, ws: seq<Want>) {
    forall k, o | Answer(a, k, o).version != Answer(b, k, o).version :: Want(k, o) in ws
  }

  lemma {:induction false} ApartIsBounded(a: Node, b: Node, ws: seq<Want>)
    ensures |Apart(a, b, ws)| <= |ws|
  {
    hide Answer;
    if ws == [] {
      assert Apart(a, b, ws) == {};
    } else {
      var front, last := ws[..|ws| - 1], ws[|ws| - 1];
      ApartIsBounded(a, b, front);
      assert ws == front + [last];
      var more := Apart(a, b, front) + {last};
      assert |more| <= |Apart(a, b, front)| + 1;
      SubsetCardinality(Apart(a, b, ws), more);
    }
  }

  /** Learning from each other leaves two nodes apart on nothing new. */
  lemma {:induction false} LearningAgrees(a: Node, b: Node, a': Node, b': Node, ws: seq<Want>)
    requires Learns(a, b, a') && Learns(b, a', b')
    ensures Apart(a', b', ws) <= Apart(a, b, ws)
    ensures AllApart(a, b, ws) ==> AllApart(a', b', ws)
  {
    hide Answer;
  }

  /** ... and no longer on what one of them learned. */
  lemma {:induction false} NewsAgrees(a: Node, b: Node, a': Node, b': Node, ws: seq<Want>, w: Want)
    requires Learns(a, b, a') && Learns(b, a', b') && AllApart(a, b, ws)
    requires
      || Answer(a', w.stream, w.origin).version > Answer(a, w.stream, w.origin).version
      || Answer(b', w.stream, w.origin).version > Answer(b, w.stream, w.origin).version
    ensures |Apart(a', b', ws)| < |Apart(a, b, ws)|
  {
    hide Answer;
    LearningAgrees(a, b, a', b', ws);
    ProperSubset(Apart(a', b', ws), Apart(a, b, ws), w);
  }
}
