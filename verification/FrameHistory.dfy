/** What the decoder's past means: the created lattice, frame by frame. */
module FrameHistory {
  import opened Basics
  import opened Composition
  import opened Costs
  import opened Lattice
  import opened LatticePruning
  import opened ExactPruning
  import opened TokenColumn
  import opened EpsilonClosure
  import opened Emission
  import opened FrameColumn

  ghost predicate History(g: Graph, u: Utterance, c: Created, n: nat, start: Addr) {
    && WellFormed(c)
    && (forall a :: a in c ==> c[a].frame <= n && IsPair(g, c[a].pair) && Realized(g, u, c, a))
    && start in c && c[start].frame == 0 && c[start].pair == StartPair(g) && c[start].totCost == 0
    && LinksAreArcs(g, u, c)
    && Tight(c, start)
  }

  /** The hash holds exactly the tokens of frame n, untouched by pruning. */
  ghost predicate Front(c: Created, h: Heap, n: nat, toks: map<PairId, Addr>) {
    && (forall p :: p in toks ==>
          && toks[p] in c && c[toks[p]].frame == n && c[toks[p]].pair == p
          && toks[p] in h && h[toks[p]] == Token(c[toks[p]].totCost, Fin(0), c[toks[p]].links))
    && (forall a :: a in c && c[a].frame == n ==> c[a].pair in toks && toks[c[a].pair] == a)
  }

  /** Any token of the front frame may still turn out to be on the best path. */
  ghost function FrontTerminal(c: Created, n: nat): Terminal {
    map a | a in c && c[a].frame == n :: Fin(0)
  }

  // ----- a frame is added -----

  /** The new frame has been reached by emission from prev (col1) and relaxed (col2). */
  datatype NewFrame = NewFrame(n: nat, prev: Previous, col0: Column, col1: Column, col2: Column, cutoff: Cost)

  ghost function InnerFrame(f: NewFrame): Frame {
    Frame(f.n + 1, f.col1, f.col2, f.cutoff)
  }

  ghost predicate FrameDone(g: Graph, u: Utterance, c: Created, f: NewFrame) {
    && g.Valid()
    && Front(c, f.prev.heap, f.n, f.prev.toks)
    && f.col0 == Column(f.prev.heap, map[], [], f.col0.pairOf, f.col0.next)
    && (forall a :: a in c ==> a < f.col0.next && a in f.col0.pairOf && f.col0.pairOf[a] == c[a].pair)
    && Grows(f.col0, f.col1)
    && Emitting(g, u, f.n, f.prev, f.col1)
    && ColumnOk(g, f.col2) && Grows(f.col1, f.col2) && OutsideKept(f.col1, f.col2)
    && Closed(g, InnerFrame(f))
  }

  /** The created lattice with the new frame and the links into it. */
  ghost function NextCreated(c: Created, f: NewFrame): Created {
    map a | a in c.Keys + (set b | b in f.col2.list) ::
      if a in c then
        if c[a].frame == f.n && a in f.col2.heap then c[a].(links := f.col2.heap[a].links) else c[a]
      else if a in f.col2.heap && a in f.col2.pairOf then
        Node(f.n + 1, f.col2.pairOf[a], f.col2.heap[a].totCost, f.col2.heap[a].links)
      else Node(f.n + 1, 0, 0, [])
  }

  /** Links only grow, everything else about old tokens stays. */
  ghost predicate Extends(c: Created, c': Created, n: nat) {
    forall a :: a in c ==>
      && a in c' && c'[a].frame == c[a].frame && c'[a].pair == c[a].pair && c'[a].totCost == c[a].totCost
      && (forall l :: l in c[a].links ==> l in c'[a].links)
      && (c[a].frame < n ==> c'[a] == c[a])
  }

  /** The new column is apart from everything older. */
  lemma NewTokensApart(g: Graph, u: Utterance, c: Created, f: NewFrame)
    requires FrameDone(g, u, c, f)
    ensures ColumnOk(g, f.col2) && Grows(f.col0, f.col2)
    ensures forall a :: a in f.col2.list ==> a !in c && a !in f.prev.heap
  {
    hide Emitting, Closed, Front, ColumnOk;
    GrowsTransitive(f.col0, f.col1, f.col2);
    ApartFrom(f.col0, f.col2);
  }

  lemma ApartFrom(col0: Column, col: Column)
    requires Grows(col0, col) && col0.list == []
    ensures forall a :: a in col.list ==> a !in col0.heap && a >= col0.next
  {
    assert forall a :: a !in col0.list;
  }

  /** Every token of the new column is in the created lattice, under its own pair. */
  lemma NewToken(g: Graph, u: Utterance, c: Created, f: NewFrame, p: PairId)
    requires FrameDone(g, u, c, f) && p in f.col2.toks
    ensures Has(f.col2, p) && IsPair(g, p) && f.col2.toks[p] !in c
    ensures f.col2.toks[p] in NextCreated(c, f)
    ensures NextCreated(c, f)[f.col2.toks[p]] == Node(f.n + 1, p, CostAt(f.col2, p), LinksAt(f.col2, p))
  {
    hide FrameDone, Grows;
    NewTokensApart(g, u, c, f);
  }

  lemma NewTokenBack(g: Graph, u: Utterance, c: Created, f: NewFrame, a: Addr)
    requires FrameDone(g, u, c, f) && a in NextCreated(c, f) && a !in c
    ensures a in f.col2.list && a in f.col2.pairOf
    ensures f.col2.pairOf[a] in f.col2.toks && f.col2.toks[f.col2.pairOf[a]] == a
  {
    hide FrameDone, Grows;
    NewTokensApart(g, u, c, f);
  }

  /** A token of the frame that was left: its cell is final when the emission ends. */
  lemma LeftTokens(g: Graph, u: Utterance, c: Created, f: NewFrame, p: PairId)
    requires FrameDone(g, u, c, f) && p in f.prev.toks
    ensures var a := f.prev.toks[p];
            && a in f.prev.heap && a in f.col1.heap && a in f.col2.heap && a in c && a in NextCreated(c, f)
            && f.col2.heap[a] == f.col1.heap[a]
            && f.col2.heap[a].totCost == c[a].totCost && f.col2.heap[a].extraCost == Fin(0)
            && NextCreated(c, f)[a] == c[a].(links := f.col2.heap[a].links)
            && (forall l :: l in c[a].links ==> l in f.col2.heap[a].links)
  {
    hide Closed, IsPair, Graph.Valid, LinksJustified, TokensJustified, PreviousOk, ColumnOk, Grows;
    NewTokensApart(g, u, c, f);
    var a := f.prev.toks[p];
    assert a !in f.col2.list;
  }

  /** Any other live cell of an earlier frame is untouched. */
  lemma OldTokens(g: Graph, u: Utterance, c: Created, f: NewFrame, a: Addr)
    requires FrameDone(g, u, c, f) && a in f.prev.heap && a in c && c[a].frame != f.n
    ensures a in f.col2.heap && f.col2.heap[a] == f.prev.heap[a]
    ensures a in NextCreated(c, f) && NextCreated(c, f)[a] == c[a]
  {
    hide Closed, IsPair, Graph.Valid, LinksJustified, TokensJustified, PreviousOk, ColumnOk, Grows;
    NewTokensApart(g, u, c, f);
    assert a !in f.col2.list;
    assert a !in f.prev.toks.Values;
  }

  lemma NextExtends(g: Graph, u: Utterance, c: Created, f: NewFrame)
    requires FrameDone(g, u, c, f)
    ensures Extends(c, NextCreated(c, f), f.n)
  {
    forall a | a in c && c[a].frame == f.n
      ensures forall l :: l in c[a].links ==> l in NextCreated(c, f)[a].links
      ensures NextCreated(c, f)[a].totCost == c[a].totCost
    {
      LeftTokens(g, u, c, f, c[a].pair);
    }
    hide FrameDone;
  }

  // ----- every link is sound -----

  lemma OldLinkSound(g: Graph, u: Utterance, c: Created, c': Created, n: nat, start: Addr, a: Addr, l: ForwardLink)
    requires History(g, u, c, n, start) && Extends(c, c', n) && a in c && l in c[a].links
    ensures SoundLink(g, u, c', a, l)
  {
    hide Tight, Realized, PairArcAt;
    assert LinkOk(c, a, l);
    var i: nat :| MatchesArc(g, u, c, a, i, l);
    assert MatchesArc(g, u, c', a, i, l);
  }

  lemma CrossLinkSound(g: Graph, u: Utterance, c: Created, f: NewFrame, p: PairId, i: nat)
    requires FrameDone(g, u, c, f) && Linked(g, u, f.n, f.prev, f.col1, p, i)
    ensures var l := EmittingLink(g, u, f.n, f.col1.toks, p, i);
            && f.prev.toks[p] in c && f.prev.toks[p] in NextCreated(c, f)
            && l in NextCreated(c, f)[f.prev.toks[p]].links
            && MatchesArc(g, u, NextCreated(c, f), f.prev.toks[p], i, l)
            && SoundLink(g, u, NextCreated(c, f), f.prev.toks[p], l)
            && l.nextTok !in c
            && Slack(NextCreated(c, f), f.prev.toks[p], l)
                == ExtensionCost(g, u, f.n, f.prev, p, i) - CostAt(f.col2, PairArcAt(g, p, i).next)
  {
    hide PairArcAt, Emitting, Closed, ColumnOk, Graph.Valid, NextCreated;
    var c' := NextCreated(c, f);
    var a := f.prev.toks[p];
    var next := PairArcAt(g, p, i).next;
    LeftTokens(g, u, c, f, p);
    NewToken(g, u, c, f, next);
    assert MatchesArc(g, u, c', a, i, EmittingLink(g, u, f.n, f.col1.toks, p, i));
  }

  lemma NewLinkSound(g: Graph, u: Utterance, c: Created, f: NewFrame, start: Addr, a: Addr, l: ForwardLink)
    requires FrameDone(g, u, c, f) && History(g, u, c, f.n, start)
    requires a in NextCreated(c, f) && l in NextCreated(c, f)[a].links
    ensures SoundLink(g, u, NextCreated(c, f), a, l)
  {
    var c' := NextCreated(c, f);
    NextExtends(g, u, c, f);
    if a in c && l in c[a].links {
      OldLinkSound(g, u, c, c', f.n, start, a, l);
    } else if a in c {
      LeftLinkSound(g, u, c, f, a, l);
    } else {
      InnerLinksSound(g, u, c, f, a, l);
    }
  }

  lemma LeftLinkSound(g: Graph, u: Utterance, c: Created, f: NewFrame, a: Addr, l: ForwardLink)
    requires FrameDone(g, u, c, f) && a in c
    requires l in NextCreated(c, f)[a].links && l !in c[a].links
    ensures SoundLink(g, u, NextCreated(c, f), a, l)
  {
    hide TokensJustified, PreviousKept, Closed, ColumnOk, Grows, SoundLink, IsPair, Graph.Valid;
    var p := c[a].pair;
    assert c[a].frame == f.n;
    assert p in f.prev.toks && f.prev.toks[p] == a;
    LeftTokens(g, u, c, f, p);
    assert NewLink(g, u, f.n, f.prev, f.col1, p, l);
    var i: nat :| Linked(g, u, f.n, f.prev, f.col1, p, i) && l == EmittingLink(g, u, f.n, f.col1.toks, p, i);
    CrossLinkSound(g, u, c, f, p, i);
  }

  /** The new column, as a relaxed frame of the new lattice. */
  lemma NewFrameRecorded(g: Graph, u: Utterance, c: Created, f: NewFrame)
    requires FrameDone(g, u, c, f)
    ensures Closed(g, InnerFrame(f)) && Recorded(NextCreated(c, f), InnerFrame(f))
  {
    hide Emitting, Closed, ColumnOk, Grows, Front, OutsideKept, NextCreated, IsPair;
    forall p: PairId | Has(f.col2, p)
      ensures f.col2.toks[p] in NextCreated(c, f)
      ensures NextCreated(c, f)[f.col2.toks[p]] == Node(f.n + 1, p, CostAt(f.col2, p), LinksAt(f.col2, p))
    {
      NewToken(g, u, c, f, p);
    }
  }

  lemma InnerLinksSound(g: Graph, u: Utterance, c: Created, f: NewFrame, a: Addr, l: ForwardLink)
    requires FrameDone(g, u, c, f) && a in NextCreated(c, f) && a !in c && l in NextCreated(c, f)[a].links
    ensures SoundLink(g, u, NextCreated(c, f), a, l)
  {
    hide FrameDone, SoundLink, NextCreated, Closed, Recorded;
    NewTokenBack(g, u, c, f, a);
    var p := f.col2.pairOf[a];
    NewToken(g, u, c, f, p);
    NewFrameRecorded(g, u, c, f);
    FrameColumn.InnerLinkSound(g, u, NextCreated(c, f), InnerFrame(f), p, l);
  }

  // ----- every token is realized, and reached without slack -----

  lemma EntryRealized(g: Graph, u: Utterance, c: Created, f: NewFrame, start: Addr, q: PairId)
    returns (p: PairId, i: nat)
    requires FrameDone(g, u, c, f) && History(g, u, c, f.n, start) && Has(f.col1, q)
    ensures Supports(g, u, f.n, f.prev, f.col1, q, p, i)
    ensures exists walk :: Walk(g, u, walk) == Some(Place(q, f.n + 1, CostAt(f.col1, q)))
  {
    hide LinksJustified, PreviousKept, Closed, ColumnOk, Grows, PairArcAt, Graph.Valid, LinksAreArcs, Tight, WellFormed;
    assert TokensJustified(g, u, f.n, f.prev, f.col1);
    p, i :| Supports(g, u, f.n, f.prev, f.col1, q, p, i);
    var a := f.prev.toks[p];
    assert Realized(g, u, c, a);
    var walk :| Walk(g, u, walk) == Some(Place(p, f.n, c[a].totCost));
    assert Walk(g, u, Snoc(walk, i)) == Some(Place(q, f.n + 1, CostAt(f.col1, q)));
  }

  lemma EntryTight(g: Graph, u: Utterance, c: Created, f: NewFrame, start: Addr, q: PairId)
    requires FrameDone(g, u, c, f) && History(g, u, c, f.n, start) && WellFormed(NextCreated(c, f))
    requires Has(f.col1, q) && Has(f.col2, q) && CostAt(f.col2, q) == CostAt(f.col1, q)
    ensures exists p :: ZeroPath(NextCreated(c, f), start, p, f.col2.toks[q])
  {
    hide FrameDone, History, PairArcAt, NextCreated, WellFormed;
    var c' := NextCreated(c, f);
    var p, i := EntryRealized(g, u, c, f, start, q);
    var a := f.prev.toks[p];
    CrossLinkSound(g, u, c, f, p, i);
    LeftTight(g, u, c, f, start, p);
    var front :| ZeroPath(c', start, front, a);
    var l := EmittingLink(g, u, f.n, f.col1.toks, p, i);
    OneLinkPath(c', a, l);
    Concatenate(c', start, front, a, [l], l.nextTok);
    SameAddress(g, u, c, f, q);
    assert ZeroPath(c', start, front + [l], f.col2.toks[q]);
  }

  lemma SameAddress(g: Graph, u: Utterance, c: Created, f: NewFrame, q: PairId)
    requires FrameDone(g, u, c, f) && Has(f.col1, q)
    ensures q in f.col2.toks && f.col2.toks[q] == f.col1.toks[q]
  {
  }

  /** Old paths are still there, with the slack they had. */
  lemma {:induction false} PathKept(c: Created, c': Created, n: nat, a: Addr, p: seq<ForwardLink>, z: Addr)
    requires WellFormed(c) && WellFormed(c') && Extends(c, c', n) && IsPath(c, a, p, z)
    ensures IsPath(c', a, p, z) && PathSlack(c', a, p, z) == PathSlack(c, a, p, z)
    decreases |p|
  {
    if p != [] {
      assert LinkOk(c, a, p[0]);
      PathKept(c, c', n, p[0].nextTok, p[1..], z);
    }
  }

  lemma OldTight(g: Graph, u: Utterance, c: Created, c': Created, n: nat, start: Addr, a: Addr)
    requires History(g, u, c, n, start) && WellFormed(c') && Extends(c, c', n) && a in c
    ensures exists p :: ZeroPath(c', start, p, a)
  {
    hide Extends, LinksAreArcs, Realized, IsPair;
    var p :| ZeroPath(c, start, p, a);
    PathKept(c, c', n, start, p, a);
    assert ZeroPath(c', start, p, a);
  }

  lemma LeftTight(g: Graph, u: Utterance, c: Created, f: NewFrame, start: Addr, p: PairId)
    requires FrameDone(g, u, c, f) && History(g, u, c, f.n, start) && WellFormed(NextCreated(c, f)) && p in f.prev.toks
    ensures f.prev.toks[p] in c && exists front :: ZeroPath(NextCreated(c, f), start, front, f.prev.toks[p])
  {
    hide *;
    LeftTokens(g, u, c, f, p);
    NextExtends(g, u, c, f);
    OldTight(g, u, c, NextCreated(c, f), f.n, start, f.prev.toks[p]);
  }

  lemma EntriesReached(g: Graph, u: Utterance, c: Created, f: NewFrame, start: Addr)
    requires FrameDone(g, u, c, f) && History(g, u, c, f.n, start) && WellFormed(NextCreated(c, f))
    ensures EntriesRealized(g, u, InnerFrame(f)) && EntriesTight(NextCreated(c, f), start, InnerFrame(f))
  {
    hide FrameDone, History, NextCreated, WellFormed, ZeroPath, Walk;
    forall p: PairId | Has(f.col1, p)
      ensures exists walk :: Walk(g, u, walk) == Some(Place(p, f.n + 1, CostAt(f.col1, p)))
      ensures Has(f.col2, p) && CostAt(f.col2, p) == CostAt(f.col1, p) ==>
                exists front :: ZeroPath(NextCreated(c, f), start, front, f.col2.toks[p])
    {
      var q, i := EntryRealized(g, u, c, f, start, p);
      if Has(f.col2, p) && CostAt(f.col2, p) == CostAt(f.col1, p) {
        EntryTight(g, u, c, f, start, p);
      }
    }
  }

  lemma NextWellFormed(g: Graph, u: Utterance, c: Created, f: NewFrame, start: Addr)
    requires FrameDone(g, u, c, f) && History(g, u, c, f.n, start)
    ensures WellFormed(NextCreated(c, f)) && LinksAreArcs(g, u, NextCreated(c, f))
  {
    hide FrameDone, History, NextCreated, LinkOk, MatchesArc;
    var c' := NextCreated(c, f);
    forall a, l | a in c' && l in c'[a].links
      ensures LinkOk(c', a, l) && exists i: nat :: MatchesArc(g, u, c', a, i, l)
    {
      NewLinkSound(g, u, c, f, start, a, l);
    }
  }

  /** The history goes on. */
  lemma NextHistory(g: Graph, u: Utterance, c: Created, f: NewFrame, start: Addr)
    requires FrameDone(g, u, c, f) && History(g, u, c, f.n, start)
    ensures History(g, u, NextCreated(c, f), f.n + 1, start)
  {
    hide FrameDone, NextCreated, WellFormed, ZeroPath, Walk, IsPair, LinksAreArcs, Closed, Recorded, EntriesRealized,
      EntriesTight;
    var c' := NextCreated(c, f);
    NextWellFormed(g, u, c, f, start);
    NewFrameRecorded(g, u, c, f);
    EntriesReached(g, u, c, f, start);
    NextExtends(g, u, c, f);
    forall a | a in c'
      ensures c'[a].frame <= f.n + 1 && IsPair(g, c'[a].pair) && Realized(g, u, c', a)
      ensures exists p :: ZeroPath(c', start, p, a)
    {
      if a in c {
        OldTight(g, u, c, c', f.n, start, a);
        assert Realized(g, u, c, a);
      } else {
        NewTokenBack(g, u, c, f, a);
        NewToken(g, u, c, f, f.col2.pairOf[a]);
        TokenReached(g, u, c', start, InnerFrame(f), f.col2.pairOf[a]);
      }
    }
  }

  lemma NextFront(g: Graph, u: Utterance, c: Created, f: NewFrame)
    requires FrameDone(g, u, c, f) && forall a :: a in c ==> c[a].frame <= f.n
    ensures Front(NextCreated(c, f), f.col2.heap, f.n + 1, f.col2.toks)
  {
    hide FrameDone, NextCreated, IsPair;
    var c' := NextCreated(c, f);
    NextExtends(g, u, c, f);
    forall p | p in f.col2.toks
      ensures f.col2.toks[p] in c' && f.col2.toks[p] in f.col2.heap
      ensures c'[f.col2.toks[p]] == Node(f.n + 1, p, CostAt(f.col2, p), LinksAt(f.col2, p))
      ensures f.col2.heap[f.col2.toks[p]].extraCost == Fin(0)
    {
      NewToken(g, u, c, f, p);
      NewTokensApart(g, u, c, f);
      NewExtraZero(g, u, c, f, p);
    }
    forall a | a in c' && c'[a].frame == f.n + 1
      ensures c'[a].pair in f.col2.toks && f.col2.toks[c'[a].pair] == a
    {
      NewTokenBack(g, u, c, f, a);
    }
  }

  lemma NewExtraZero(g: Graph, u: Utterance, c: Created, f: NewFrame, p: PairId)
    requires FrameDone(g, u, c, f) && Has(f.col2, p)
    ensures f.col2.heap[f.col2.toks[p]].extraCost == Fin(0)
  {
    hide Emitting, Closed;
    NewTokensApart(g, u, c, f);
  }

  // ----- safety goes on -----

  /** A path that gets beyond frame n has a prefix that ends there. */
  lemma {:induction false} PrefixToFront(c: Created, c': Created, n: nat, a: Addr, p: seq<ForwardLink>, z: Addr)
    returns (k: nat, b: Addr)
    requires WellFormed(c) && WellFormed(c') && Extends(c, c', n) && IsPath(c', a, p, z)
    requires a in c && c[a].frame < n && z in c' && c'[z].frame > n
    requires forall b :: b in c' && b !in c ==> c'[b].frame > n
    ensures 0 < k <= |p| && b in c && c[b].frame == n
    ensures IsPath(c, a, p[..k], b) && PathSlack(c, a, p[..k], b) <= PathSlack(c', a, p, z)
    decreases |p|
  {
    hide IsPath, PathSlack, LinkOk;
    var l, rest := FirstLink(c', a, p, z);
    b := l.nextTok;
    OldFirstLink(c, c', n, a, l);
    if c[b].frame == n {
      k := 1;
      assert p[..1] == [l];
    } else {
      var j;
      j, b := PrefixToFront(c, c', n, l.nextTok, rest, z);
      k := j + 1;
      Concatenate(c, a, [l], l.nextTok, rest[..j], b);
      assert p[..k] == [l] + rest[..j];
    }
  }

  lemma FirstLink(c: Created, a: Addr, p: seq<ForwardLink>, z: Addr) returns (l: ForwardLink, rest: seq<ForwardLink>)
    requires WellFormed(c) && IsPath(c, a, p, z) && a in c && z in c && c[a].frame != c[z].frame
    ensures p == [l] + rest && l in c[a].links && LinkOk(c, a, l) && IsPath(c, l.nextTok, rest, z)
    ensures PathSlack(c, a, p, z) == Slack(c, a, l) + PathSlack(c, l.nextTok, rest, z)
    ensures l.nextTok in c && Slack(c, a, l) >= 0
  {
    l, rest := p[0], p[1..];
    assert LinkOk(c, a, l);
  }

  lemma OldFirstLink(c: Created, c': Created, n: nat, a: Addr, l: ForwardLink)
    requires WellFormed(c) && WellFormed(c') && Extends(c, c', n) && a in c && c[a].frame < n && l in c'[a].links
    ensures l in c[a].links && l.nextTok in c && l.nextTok in c'
    ensures c[l.nextTok].frame <= n && c'[l.nextTok].frame == c[l.nextTok].frame
    ensures IsPath(c, a, [l], l.nextTok) && PathSlack(c, a, [l], l.nextTok) == Slack(c', a, l)
  {
    assert LinkOk(c, a, l);
    OneLinkPath(c, a, l);
  }

  /** A live cell is untouched by the frame, or is just as the search created it. */
  ghost predicate AsCreated(c': Created, h': Heap, a: Addr) {
    a in c' && a in h' && h'[a] == Token(c'[a].totCost, Fin(0), c'[a].links)
  }

  ghost predicate Untouched(c: Created, h: Heap, c': Created, h': Heap, n: nat, a: Addr) {
    a in c && a in h && a in c' && a in h' && c[a].frame < n && c'[a] == c[a] && h'[a] == h[a]
  }

  lemma CellCases(g: Graph, u: Utterance, c: Created, f: NewFrame, start: Addr, a: Addr)
    requires FrameDone(g, u, c, f) && History(g, u, c, f.n, start) && Agree(c, f.prev.heap)
    requires a in f.col2.heap
    ensures AsCreated(NextCreated(c, f), f.col2.heap, a)
            || Untouched(c, f.prev.heap, NextCreated(c, f), f.col2.heap, f.n, a)
  {
    hide FrameDone, NextCreated, ColumnOk, History, WellFormed;
    HistoryWellFormed(g, u, c, f.n, start);
    CellOrigin(g, u, c, f, a);
    if a !in f.prev.heap {
      NewTokenOfCell(g, u, c, f, a);
    } else if c[a].frame == f.n {
      FrontPair(g, u, c, f, a);
      LeftTokens(g, u, c, f, c[a].pair);
    } else {
      OldTokens(g, u, c, f, a);
    }
  }

  lemma FrontPair(g: Graph, u: Utterance, c: Created, f: NewFrame, a: Addr)
    requires FrameDone(g, u, c, f) && a in c && c[a].frame == f.n
    ensures c[a].pair in f.prev.toks && f.prev.toks[c[a].pair] == a
    ensures a in f.prev.heap && f.prev.heap[a].totCost == c[a].totCost
  {
  }

  lemma CellOrigin(g: Graph, u: Utterance, c: Created, f: NewFrame, a: Addr)
    requires FrameDone(g, u, c, f) && a in f.col2.heap
    ensures a in f.prev.heap || a in f.col2.list
  {
    NewTokensApart(g, u, c, f);
    hide Emitting, Closed, ColumnOk, Front;
  }

  lemma NewTokenOfCell(g: Graph, u: Utterance, c: Created, f: NewFrame, a: Addr)
    requires FrameDone(g, u, c, f) && a in f.col2.list && a in f.col2.heap
    ensures AsCreated(NextCreated(c, f), f.col2.heap, a)
  {
    hide FrameDone, NextCreated, Grows;
    NewTokensApart(g, u, c, f);
    var p := f.col2.pairOf[a];
    NewToken(g, u, c, f, p);
    NewExtraZero(g, u, c, f, p);
  }

  /** All live cells, old and new, still point to live cells. */
  lemma NextAgrees(g: Graph, u: Utterance, c: Created, f: NewFrame, start: Addr)
    requires FrameDone(g, u, c, f) && History(g, u, c, f.n, start)
    requires Agree(c, f.prev.heap) && Live(f.prev.heap)
    ensures Agree(NextCreated(c, f), f.col2.heap) && Live(f.col2.heap)
  {
    hide FrameDone, NextCreated, History, LinkOk;
    var c' := NextCreated(c, f);
    forall a | a in f.col2.heap
      ensures a in c' && f.col2.heap[a].totCost == c'[a].totCost
      ensures forall l :: l in f.col2.heap[a].links ==> l in c'[a].links && l.nextTok in f.col2.heap
    {
      CellCases(g, u, c, f, start, a);
      HeapKept(g, u, c, f);
      forall l | l in f.col2.heap[a].links
        ensures l in c'[a].links && l.nextTok in f.col2.heap
      {
        if !(a in f.prev.heap && l in f.prev.heap[a].links) {
          NewLinkTarget(g, u, c, f, start, a, l);
        }
      }
    }
  }

  lemma HeapKept(g: Graph, u: Utterance, c: Created, f: NewFrame)
    requires FrameDone(g, u, c, f)
    ensures forall a :: a in f.prev.heap ==> a in f.col2.heap
  {
    NewTokensApart(g, u, c, f);
    hide Emitting, Closed, ColumnOk, Front;
  }

  /** A link made on this frame leads to a token of the new column. */
  lemma NewLinkTarget(g: Graph, u: Utterance, c: Created, f: NewFrame, start: Addr, a: Addr, l: ForwardLink)
    requires FrameDone(g, u, c, f) && History(g, u, c, f.n, start) && Agree(c, f.prev.heap)
    requires a in f.col2.heap && l in f.col2.heap[a].links
    requires a in f.prev.heap ==> l !in f.prev.heap[a].links
    ensures l.nextTok in f.col2.heap
  {
    hide FrameDone, NextCreated, History, LinkOk, ColumnOk, PairArcAt;
    if a in f.prev.heap {
      if c[a].frame != f.n {
        OldTokens(g, u, c, f, a);
        assert false;
      }
      FrontPair(g, u, c, f, a);
      var p := c[a].pair;
      var i := LeftLinkMade(g, u, c, f, p, l);
      NewToken(g, u, c, f, PairArcAt(g, p, i).next);
    } else {
      CellOrigin(g, u, c, f, a);
      var p := PairOfNew(g, u, c, f, a);
      NewFrameRecorded(g, u, c, f);
      var i := InnerLinkArc(g, InnerFrame(f), p, l);
    }
  }

  lemma PairOfNew(g: Graph, u: Utterance, c: Created, f: NewFrame, a: Addr) returns (p: PairId)
    requires FrameDone(g, u, c, f) && a in f.col2.list
    ensures Has(f.col2, p) && f.col2.toks[p] == a
  {
    NewTokensApart(g, u, c, f);
    p := f.col2.pairOf[a];
  }

  lemma LeftLinkMade(g: Graph, u: Utterance, c: Created, f: NewFrame, p: PairId, l: ForwardLink) returns (i: nat)
    requires FrameDone(g, u, c, f) && p in f.prev.toks
    requires f.prev.toks[p] in f.prev.heap && f.prev.toks[p] in f.col2.heap
    requires l in f.col2.heap[f.prev.toks[p]].links && l !in f.prev.heap[f.prev.toks[p]].links
    ensures IsPair(g, p) && i < ArcCount(g, p) && PairArcAt(g, p, i).next in f.col2.toks
    ensures l.nextTok == f.col2.toks[PairArcAt(g, p, i).next]
  {
    hide TokensJustified, PreviousKept, Closed, ColumnOk, Grows, IsPair, Graph.Valid, PreviousOk;
    LeftTokens(g, u, c, f, p);
    assert NewLink(g, u, f.n, f.prev, f.col1, p, l);
    i :| Linked(g, u, f.n, f.prev, f.col1, p, i) && l == EmittingLink(g, u, f.n, f.col1.toks, p, i);
    SameAddress(g, u, c, f, PairArcAt(g, p, i).next);
  }

  /** Costs of cells that were live before the frame do not move. */
  lemma OldCellCosts(g: Graph, u: Utterance, c: Created, f: NewFrame, a: Addr)
    requires FrameDone(g, u, c, f) && Agree(c, f.prev.heap) && a in f.prev.heap
    ensures a in f.col2.heap
    ensures f.col2.heap[a].totCost == f.prev.heap[a].totCost && f.col2.heap[a].extraCost == f.prev.heap[a].extraCost
  {
    hide FrameDone, NextCreated;
    if c[a].frame == f.n {
      FrontPair(g, u, c, f, a);
      LeftTokens(g, u, c, f, c[a].pair);
      FrontExtraZero(g, u, c, f, a);
    } else {
      OldTokens(g, u, c, f, a);
    }
  }

  lemma FrontExtraZero(g: Graph, u: Utterance, c: Created, f: NewFrame, a: Addr)
    requires FrameDone(g, u, c, f) && a in c && c[a].frame == f.n && a in f.prev.heap
    ensures f.prev.heap[a].extraCost == Fin(0)
  {
  }

  ghost predicate ExtraInRange(h: Heap, beam: nat) {
    forall a :: a in h && h[a].extraCost.Fin? ==> 0 <= h[a].extraCost.value <= beam
  }

  /** extraCost stays a lower bound. */
  lemma NextBounded(g: Graph, u: Utterance, c: Created, f: NewFrame, start: Addr, beam: nat)
    requires FrameDone(g, u, c, f) && History(g, u, c, f.n, start)
    requires Agree(c, f.prev.heap) && Live(f.prev.heap) && Bounded(f.prev.heap, beam) && Spent(f.prev.heap)
    ensures Agree(NextCreated(c, f), f.col2.heap) && Live(f.col2.heap)
    ensures Bounded(f.col2.heap, beam) && Spent(f.col2.heap)
  {
    hide FrameDone, NextCreated, History, LinkOk, Live, Agree, WellFormed;
    var c' := NextCreated(c, f);
    NextAgrees(g, u, c, f, start);
    NextWellFormed(g, u, c, f, start);
    forall a | a in f.col2.heap
      ensures f.col2.heap[a].extraCost.Fin? ==> 0 <= f.col2.heap[a].extraCost.value <= beam
      ensures f.col2.heap[a].extraCost.Inf? ==> f.col2.heap[a].links == []
    {
      CellCases(g, u, c, f, start, a);
    }
    assert ExtraInRange(f.col2.heap, beam);
    forall a, l | a in f.col2.heap && l in f.col2.heap[a].links
      ensures l.nextTok in f.col2.heap && f.col2.heap[a].extraCost.Le(LinkExtra(f.col2.heap, a, l))
    {
      CellCases(g, u, c, f, start, a);
      if AsCreated(c', f.col2.heap, a) {
        CreatedCellBounded(c', f.col2.heap, a, beam, l);
      } else {
        OldCellBounded(g, u, c, f, a, beam, l);
      }
    }
  }

  lemma CreatedCellBounded(c: Created, h: Heap, a: Addr, beam: nat, l: ForwardLink)
    requires WellFormed(c) && Agree(c, h) && Live(h) && AsCreated(c, h, a) && ExtraInRange(h, beam)
    requires l in h[a].links
    ensures l.nextTok in h && h[a].extraCost.Le(LinkExtra(h, a, l))
  {
    SlackInHeap(c, h, a, l);
  }

  lemma OldCellBounded(g: Graph, u: Utterance, c: Created, f: NewFrame, a: Addr, beam: nat, l: ForwardLink)
    requires FrameDone(g, u, c, f) && Agree(c, f.prev.heap) && Live(f.prev.heap) && Bounded(f.prev.heap, beam)
    requires a in f.prev.heap && a in f.col2.heap && f.col2.heap[a] == f.prev.heap[a] && l in f.prev.heap[a].links
    ensures l.nextTok in f.col2.heap && f.col2.heap[a].extraCost.Le(LinkExtra(f.col2.heap, a, l))
  {
    hide FrameDone, NextCreated, Agree;
    OldCellCosts(g, u, c, f, l.nextTok);
  }

  lemma NextSafe(g: Graph, u: Utterance, c: Created, f: NewFrame, start: Addr, beam: nat)
    requires FrameDone(g, u, c, f) && History(g, u, c, f.n, start) && WellFormed(NextCreated(c, f))
    requires Agree(c, f.prev.heap) && Safe(c, f.prev.heap, FrontTerminal(c, f.n), beam)
    ensures Safe(NextCreated(c, f), f.col2.heap, FrontTerminal(NextCreated(c, f), f.n + 1), beam)
  {
    hide FrameDone, NextCreated, History, WellFormed, PathSlack, IsPath;
    var c' := NextCreated(c, f);
    var term' := FrontTerminal(c', f.n + 1);
    HistoryWellFormed(g, u, c, f.n, start);
    forall a, p, z | IsPath(c', a, p, z) && z in term' && Excess(c', term', a, p, z).Le(Fin(beam))
      ensures Intact(f.col2.heap, a, p, Excess(c', term', a, p, z))
    {
      PathStart(c', a, p, z);
      if a in c && c[a].frame < f.n {
        OldPathIntact(g, u, c, f, start, beam, a, p, z);
      } else {
        FrontCell(g, u, c, f, start, a);
      }
    }
  }

  lemma PathStart(c: Created, a: Addr, p: seq<ForwardLink>, z: Addr)
    requires IsPath(c, a, p, z)
    ensures a in c && (p != [] ==> p[0] in c[a].links)
  {
  }

  /** Tokens of the last two frames are all there, with all their links. */
  lemma FrontCell(g: Graph, u: Utterance, c: Created, f: NewFrame, start: Addr, a: Addr)
    requires FrameDone(g, u, c, f) && History(g, u, c, f.n, start) && a in NextCreated(c, f)
    requires a in c ==> c[a].frame == f.n
    ensures AsCreated(NextCreated(c, f), f.col2.heap, a)
  {
    hide FrameDone, NextCreated, History;
    if a in c {
      FrontPair(g, u, c, f, a);
      LeftTokens(g, u, c, f, c[a].pair);
    } else {
      NewTokenBack(g, u, c, f, a);
      NewToken(g, u, c, f, f.col2.pairOf[a]);
      NewExtraZero(g, u, c, f, f.col2.pairOf[a]);
    }
  }

  lemma OldPathIntact(g: Graph, u: Utterance, c: Created, f: NewFrame, start: Addr, beam: nat,
                      a: Addr, p: seq<ForwardLink>, z: Addr)
    requires FrameDone(g, u, c, f) && History(g, u, c, f.n, start) && WellFormed(NextCreated(c, f))
    requires Agree(c, f.prev.heap) && Safe(c, f.prev.heap, FrontTerminal(c, f.n), beam)
    requires IsPath(NextCreated(c, f), a, p, z) && z in NextCreated(c, f) && NextCreated(c, f)[z].frame == f.n + 1
    requires PathSlack(NextCreated(c, f), a, p, z) <= beam && a in c && c[a].frame < f.n
    ensures Intact(f.col2.heap, a, p, Fin(PathSlack(NextCreated(c, f), a, p, z)))
  {
    hide FrameDone, NextCreated, History, IsPath, PathSlack, WellFormed;
    var c' := NextCreated(c, f);
    NextExtends(g, u, c, f);
    NewFrames(g, u, c, f);
    HistoryWellFormed(g, u, c, f.n, start);
    var k, b := PrefixToFront(c, c', f.n, a, p, z);
    assert Intact(f.prev.heap, a, p[..k], Excess(c, FrontTerminal(c, f.n), a, p[..k], b));
    OldTokens(g, u, c, f, a);
  }

  lemma HistoryWellFormed(g: Graph, u: Utterance, c: Created, n: nat, start: Addr)
    requires History(g, u, c, n, start)
    ensures WellFormed(c) && forall a :: a in c ==> c[a].frame <= n
  {
  }

  lemma NewFrames(g: Graph, u: Utterance, c: Created, f: NewFrame)
    requires FrameDone(g, u, c, f)
    ensures forall a :: a in NextCreated(c, f) && a !in c ==> NextCreated(c, f)[a].frame == f.n + 1
  {
    hide FrameDone;
  }

  lemma FrontTerminalOk(c: Created, h: Heap, n: nat, toks: map<PairId, Addr>, beam: nat)
    requires Front(c, h, n, toks)
    ensures TerminalOk(c, FrontTerminal(c, n)) && TerminalBound(h, FrontTerminal(c, n), beam)
  {
    forall a | a in h && a in FrontTerminal(c, n)
      ensures h[a].extraCost == Fin(0)
    {
      assert toks[c[a].pair] == a;
    }
  }

  /** The invariant of pruning carries over to the new front. */
  lemma NextConsistent(g: Graph, u: Utterance, c: Created, f: NewFrame, start: Addr, beam: nat)
    requires FrameDone(g, u, c, f) && History(g, u, c, f.n, start)
    requires Consistent(c, f.prev.heap, FrontTerminal(c, f.n), beam)
    ensures Consistent(NextCreated(c, f), f.col2.heap, FrontTerminal(NextCreated(c, f), f.n + 1), beam)
  {
    hide FrameDone, NextCreated, History, WellFormed, Safe, Agree, Live, Bounded, Spent, TerminalOk, TerminalBound,
      FrontTerminal, Front;
    NextWellFormed(g, u, c, f, start);
    NextBounded(g, u, c, f, start, beam);
    NextSafe(g, u, c, f, start, beam);
    HistoryWellFormed(g, u, c, f.n, start);
    NextFront(g, u, c, f);
    FrontTerminalOk(NextCreated(c, f), f.col2.heap, f.n + 1, f.col2.toks, beam);
  }
}
