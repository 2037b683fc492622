/** What decoding keeps from frame to frame, put together. */
module DecodingSteps {
  import opened Basics
  import opened Composition
  import opened Lattice
  import opened LatticePruning
  import opened PruningPasses
  import opened ExactPruning
  import opened TokenColumn
  import opened EpsilonClosure
  import opened Emission
  import opened FrameColumn
  import opened FrameHistory
  import opened FirstFrame
  import opened FrameLists
  import opened FinalPruning

  /** Everything there is to know n frames in, apart from the configuration. */
  datatype Snapshot = Snapshot(
    created: Created, heap: Heap, toks: map<PairId, Addr>, lists: seq<TokenList>, numToks: int,
    pairOf: map<Addr, PairId>, next: Addr, start: Addr)

  ghost predicate GoodSnapshot(g: Graph, u: Utterance, n: nat, beam: nat, s: Snapshot) {
    && |s.lists| == n + 1 && s.lists[n].mustPruneForwardLinks && s.lists[n].mustPruneTokens
    && OpenFront(g, s.created, s.heap, n, s.toks, beam)
    && History(g, u, s.created, n, s.start)
    && Listed(s.created, s.heap, s.lists, s.start, s.numToks)
    && Live(s.heap) && FlagsOk(s.heap, s.lists) && MarksOk(s.heap, s.lists)
    && Addresses(s.created, s.heap, s.pairOf, s.next)
  }

  /** The snapshot after a frame has been added. */
  ghost function NextSnapshot(s: Snapshot, f: NewFrame, list: TokenList): Snapshot {
    Snapshot(NextCreated(s.created, f), f.col2.heap, f.col2.toks, s.lists + [list], s.numToks + |list.toks|,
             f.col2.pairOf, f.col2.next, s.start)
  }

  /** The frame was begun where the snapshot stood. */
  ghost predicate Continues(s: Snapshot, f: NewFrame) {
    && f.prev.toks == s.toks && f.prev.heap == s.heap && f.col0.pairOf == s.pairOf && f.col0.next == s.next
  }

  lemma NextOpen(g: Graph, u: Utterance, beam: nat, s: Snapshot, f: NewFrame)
    requires GoodSnapshot(g, u, f.n, beam, s) && FrameDone(g, u, s.created, f) && Continues(s, f) && f.col2.toks != map[]
    ensures History(g, u, NextCreated(s.created, f), f.n + 1, s.start)
    ensures OpenFront(g, NextCreated(s.created, f), f.col2.heap, f.n + 1, f.col2.toks, beam)
  {
    hide FrameDone, Consistent, Front, Listed, FlagsOk, MarksOk, Live, Addresses, NextCreated, WellFormed,
      LinksAreArcs, Tight,
      Realized, Graph.Valid;
    NextHistory(g, u, s.created, f, s.start);
    NextFront(g, u, s.created, f);
    NextConsistent(g, u, s.created, f, s.start, beam);
  }

  lemma NextLists(g: Graph, u: Utterance, beam: nat, s: Snapshot, f: NewFrame, list: TokenList)
    requires GoodSnapshot(g, u, f.n, beam, s) && FrameDone(g, u, s.created, f) && Continues(s, f)
    requires list.toks == f.col2.list && list.mustPruneForwardLinks && list.mustPruneTokens
    ensures Listed(NextCreated(s.created, f), f.col2.heap, s.lists + [list], s.start, s.numToks + |list.toks|)
    ensures Live(f.col2.heap) && FlagsOk(f.col2.heap, s.lists + [list]) && MarksOk(f.col2.heap, s.lists + [list])
    ensures Addresses(NextCreated(s.created, f), f.col2.heap, f.col2.pairOf, f.col2.next)
  {
    hide FrameDone, Consistent, Front, FlagsOk, MarksOk, Live, Addresses, NextCreated, History, ListsOk, StartIsLast,
      Graph.Valid, TotalTokens;
    ConsistentParts(s.created, s.heap, FrontTerminal(s.created, f.n), beam);
    NextListsOk(g, u, s.created, f, s.start, s.lists, list);
    NextFlagsOk(g, u, s.created, f, s.start, s.lists, list);
    NextStartIsLast(g, u, s.created, f, s.start, s.lists, list);
    NextAddresses(g, u, s.created, f);
    TotalExtended(s.lists, list);
  }

  /** One more frame, and everything still holds. */
  lemma NextGood(g: Graph, u: Utterance, beam: nat, s: Snapshot, f: NewFrame, list: TokenList)
    requires GoodSnapshot(g, u, f.n, beam, s) && FrameDone(g, u, s.created, f) && Continues(s, f) && f.col2.toks != map[]
    requires list.toks == f.col2.list && list.mustPruneForwardLinks && list.mustPruneTokens
    ensures GoodSnapshot(g, u, f.n + 1, beam, NextSnapshot(s, f, list))
  {
    NextOpen(g, u, beam, s, f);
    NextLists(g, u, beam, s, f, list);
    hide *;
    assert |s.lists| == f.n + 1 by { GoodLength(g, u, f.n, beam, s); }
    GoodMade(g, u, f.n + 1, beam, NextSnapshot(s, f, list));
  }

  lemma GoodLength(g: Graph, u: Utterance, n: nat, beam: nat, s: Snapshot)
    requires GoodSnapshot(g, u, n, beam, s)
    ensures |s.lists| == n + 1
  {
    hide OpenFront, History, Listed, FlagsOk, MarksOk, Live, Addresses;
  }

  lemma GoodMade(g: Graph, u: Utterance, n: nat, beam: nat, s: Snapshot)
    requires |s.lists| == n + 1 && s.lists[n].mustPruneForwardLinks && s.lists[n].mustPruneTokens
    requires OpenFront(g, s.created, s.heap, n, s.toks, beam) && History(g, u, s.created, n, s.start)
    requires Listed(s.created, s.heap, s.lists, s.start, s.numToks)
    requires Live(s.heap) && FlagsOk(s.heap, s.lists) && MarksOk(s.heap, s.lists) && Addresses(s.created, s.heap, s.pairOf, s.next)
    ensures GoodSnapshot(g, u, n, beam, s)
  {
    hide OpenFront, History, Listed, FlagsOk, MarksOk, Live, Addresses;
  }

  // ----- getting to the next frame -----

  lemma GoodHistory(g: Graph, u: Utterance, n: nat, beam: nat, s: Snapshot)
    requires GoodSnapshot(g, u, n, beam, s)
    ensures g.Valid() && |s.lists| == n + 1 && s.toks != map[] && History(g, u, s.created, n, s.start)
  {
    hide Listed, FlagsOk, MarksOk, Live, Consistent, Graph.Valid, Front, History;
  }

  lemma GoodForEmitting(g: Graph, u: Utterance, n: nat, beam: nat, s: Snapshot)
    requires GoodSnapshot(g, u, n, beam, s)
    ensures |s.lists| == n + 1 && s.toks != map[]
    ensures forall p :: p in s.toks ==>
      IsPair(g, p) && s.toks[p] in s.heap && s.toks[p] in s.pairOf && s.pairOf[s.toks[p]] == p
    ensures (forall a :: a in s.heap ==> a < s.next) && (forall a :: a in s.pairOf ==> a < s.next)
  {
    hide Listed, FlagsOk, MarksOk, Live, Consistent, Graph.Valid, IsPair, WellFormed, Tight, LinksAreArcs, Realized;
  }

  lemma EmissionEnds(g: Graph, u: Utterance, n: nat, prev: Previous, col: Column)
    requires Emitting(g, u, n, prev, col)
    ensures ColumnOk(g, col) && PreviousOk(g, prev, col)
    ensures forall p :: p in col.toks ==> col.toks[p] in col.heap && col.heap[col.toks[p]].links == []
  {
    ColumnHas(g, col);
    hide ColumnOk, PreviousKept, LinksJustified, IsPair, PreviousOk;
  }

  /** The frame just reached continues the snapshot. */
  lemma FrameIsDone(g: Graph, u: Utterance, beam: nat, s: Snapshot, f: NewFrame)
    requires GoodSnapshot(g, u, f.n, beam, s) && FrameMade(g, u, s, f)
    ensures FrameDone(g, u, s.created, f) && Continues(s, f) && f.col2.toks != map[] && PreviousOk(g, f.prev, f.col1)
  {
    hide Listed, FlagsOk, MarksOk, Live, Consistent, Front, Graph.Valid, IsPair, WellFormed, Tight, LinksAreArcs,
      Realized,
      Grows, Emitting, ColumnOk, OutsideKept, Closed, PreviousOk;
    GrowsKeepsTokens(f.col1, f.col2);
    EmissionEnds(g, u, f.n, f.prev, f.col1);
  }

  /** The new frame as emission and relaxation have made it. */
  ghost predicate FrameMade(g: Graph, u: Utterance, s: Snapshot, f: NewFrame) {
    && Continues(s, f) && f.col0 == Column(s.heap, map[], [], s.pairOf, s.next)
    && Grows(f.col0, f.col1) && Emitting(g, u, f.n, f.prev, f.col1)
    && ColumnOk(g, f.col2) && Grows(f.col1, f.col2) && OutsideKept(f.col1, f.col2)
    && Closed(g, InnerFrame(f)) && f.col1.toks != map[]
  }

  lemma MakeFrame(g: Graph, u: Utterance, s: Snapshot, f: NewFrame)
    requires f.prev.toks == s.toks && f.prev.heap == s.heap && f.col0 == Column(s.heap, map[], [], s.pairOf, s.next)
    requires Grows(f.col0, f.col1) && Emitting(g, u, f.n, f.prev, f.col1)
    requires ColumnOk(g, f.col2) && Grows(f.col1, f.col2) && OutsideKept(f.col1, f.col2)
    requires Closed(g, InnerFrame(f)) && f.col1.toks != map[]
    ensures FrameMade(g, u, s, f)
  {
    hide Grows, Emitting, ColumnOk, OutsideKept, Closed;
  }

  /** Tokens that were there still are, and so are their links. */
  ghost predicate NothingPruned(h0: Heap, h: Heap) {
    forall a :: a in h0 ==>
      && a in h && h[a].totCost == h0[a].totCost && h[a].extraCost == h0[a].extraCost
      && forall l :: l in h0[a].links ==> l in h[a].links
  }

  /** Making a frame takes nothing from the frames before it. */
  lemma FrameKeeps(g: Graph, u: Utterance, s: Snapshot, f: NewFrame)
    requires FrameMade(g, u, s, f)
    ensures NothingPruned(s.heap, f.col2.heap)
  {
    hide ColumnOk, PreviousOk, LinksJustified, TokensJustified, Closed, CostAt, Has;
    forall a | a in s.heap
      ensures a in f.col2.heap && f.col2.heap[a] == f.col1.heap[a]
    {
      assert a in f.col0.heap;
      assert a !in f.col2.list;
    }
  }

  lemma InnerIs(f: NewFrame, inner: Frame)
    requires inner.n == f.n + 1 && inner.entry == f.col1 && inner.col == f.col2 && inner.cutoff == f.cutoff
    ensures InnerFrame(f) == inner
  {
  }

  lemma GrowsKeepsTokens(col0: Column, col: Column)
    requires Grows(col0, col) && col0.toks != map[]
    ensures col.toks != map[]
  {
    var p :| p in col0.toks;
    assert p in col.toks;
  }

  // ----- the first frame -----

  ghost function FirstSnapshot(f: Frame, start: Addr, list: TokenList): Snapshot {
    Snapshot(FirstCreated(f), f.col.heap, f.col.toks, [list], |list.toks|, f.col.pairOf, f.col.next, start)
  }

  lemma FirstGood(g: Graph, u: Utterance, potential: map<PairId, int>, beam: nat, start: Addr, f: Frame,
                  list: TokenList)
    requires FirstDone(g, potential, start, f) && list.toks == f.col.list && list.mustPruneForwardLinks && list.mustPruneTokens
    requires f.col.list != [] && f.col.list[|f.col.list| - 1] == start
    ensures GoodSnapshot(g, u, 0, beam, FirstSnapshot(f, start, list))
  {
    var s := FirstSnapshot(f, start, list);
    FirstHistory(g, u, potential, start, f);
    FirstConsistent(g, u, potential, start, f, beam);
    FirstListed(g, potential, start, f, list);
    hide FirstDone, FirstCreated, Front, Consistent, WellFormed, LinksAreArcs, Tight, Listed, Addresses;
    ConsistentParts(s.created, s.heap, FrontTerminal(s.created, 0), beam);
    assert g.Valid() by { FirstValid(g, potential, start, f); }
    assert OpenFront(g, s.created, s.heap, 0, s.toks, beam);
    hide *;
    GoodMade(g, u, 0, beam, s);
  }

  lemma FirstValid(g: Graph, potential: map<PairId, int>, start: Addr, f: Frame)
    requires FirstDone(g, potential, start, f)
    ensures g.Valid()
  {
  }

  lemma FirstListed(g: Graph, potential: map<PairId, int>, start: Addr, f: Frame, list: TokenList)
    requires FirstDone(g, potential, start, f) && list.toks == f.col.list && list.mustPruneForwardLinks && list.mustPruneTokens
    requires f.col.list != [] && f.col.list[|f.col.list| - 1] == start
    ensures f.col.toks != map[] && Addresses(FirstCreated(f), f.col.heap, f.col.pairOf, f.col.next)
    ensures Listed(FirstCreated(f), f.col.heap, [list], start, |list.toks|)
    ensures Live(f.col.heap) ==> FlagsOk(f.col.heap, [list]) && MarksOk(f.col.heap, [list])
  {
    hide *;
    FirstOnFrame(g, potential, start, f);
    FirstHasStart(g, potential, start, f);
    OneList(FirstCreated(f), f.col.heap, start, list);
  }

  lemma FirstHasStart(g: Graph, potential: map<PairId, int>, start: Addr, f: Frame)
    requires FirstDone(g, potential, start, f)
    ensures f.col.toks != map[]
  {
    hide FirstDone, FirstCreated;
    StartStaysFree(g, potential, start, f);
  }

  lemma FirstOnFrame(g: Graph, potential: map<PairId, int>, start: Addr, f: Frame)
    requires FirstDone(g, potential, start, f)
    ensures OnFrame(FirstCreated(f), f.col.heap, 0, f.col.list)
    ensures Addresses(FirstCreated(f), f.col.heap, f.col.pairOf, f.col.next)
  {
    hide FirstDone, FirstCreated, Closed, Front, AsCreated, Recorded;
    FirstColumn(g, potential, start, f);
    FirstNodes(f);
    FirstCells(g, potential, start, f);
    FirstRecorded(g, potential, start, f);
  }

  lemma OneList(c: Created, h: Heap, start: Addr, list: TokenList)
    requires OnFrame(c, h, 0, list.toks) && list.toks != [] && list.toks[|list.toks| - 1] == start && list.mustPruneForwardLinks && list.mustPruneTokens
    ensures Listed(c, h, [list], start, |list.toks|)
    ensures Live(h) ==> FlagsOk(h, [list]) && MarksOk(h, [list])
  {
    hide OnFrame;
    assert [list][..0] == [];
    assert TotalTokens([list]) == TotalTokens([]) + |list.toks|;
  }

  lemma FirstColumn(g: Graph, potential: map<PairId, int>, start: Addr, f: Frame)
    requires FirstDone(g, potential, start, f)
    ensures NoDuplicates(f.col.list)
    ensures (forall a :: a in f.col.heap ==> a < f.col.next) && forall a :: a in f.col.pairOf ==> a < f.col.next
  {
    hide Closed, Grows, IsPair, Feasible, Graph.Valid;
  }

  lemma FirstNodes(f: Frame)
    ensures forall a :: a in FirstCreated(f) ==>
      a in f.col.pairOf && FirstCreated(f)[a].frame == 0 && FirstCreated(f)[a].pair == f.col.pairOf[a]
  {
  }

  lemma StartColumnOk(g: Graph, start: Addr)
    requires g.Valid()
    ensures ColumnOk(g, StartColumn(g, start)) && forall p :: p in StartColumn(g, start).toks ==> StartColumn(g, start).toks[p] == start
  {
    StartPairOk(g);
    hide IsPair;
  }

  lemma FirstIsDone(g: Graph, potential: map<PairId, int>, start: Addr, f: Frame)
    requires g.Valid() && Feasible(g, potential) && f.n == 0 && f.entry == StartColumn(g, start)
    requires ColumnOk(g, f.col) && Grows(f.entry, f.col) && Closed(g, f)
    ensures FirstDone(g, potential, start, f)
  {
    hide ColumnOk, Grows, Closed, Feasible, Graph.Valid;
  }

  // ----- pruning in between -----

  lemma GoodToPrune(g: Graph, u: Utterance, n: nat, beam: nat, s: Snapshot)
    requires GoodSnapshot(g, u, n, beam, s)
    ensures var term := FrontTerminal(s.created, n);
      && |s.lists| == n + 1 && Consistent(s.created, s.heap, term, beam) && Listed(s.created, s.heap, s.lists, s.start, s.numToks)
      && Anchored(s.created, term, beam, s.start, n) && (forall z :: z in term ==> z in s.created && s.created[z].frame == n)
      && Live(s.heap) && FlagsOk(s.heap, s.lists) && MarksOk(s.heap, s.lists)
  {
    hide Listed, FlagsOk, MarksOk, Live, Consistent, Graph.Valid, IsPair, WellFormed, Tight, LinksAreArcs, Realized,
      Addresses;
    ConsistentParts(s.created, s.heap, FrontTerminal(s.created, n), beam);
    var p :| p in s.toks;
    assert s.toks[p] in FrontTerminal(s.created, n);
  }

  /** What pruning leaves is as good as before. */
  lemma PrunedGood(g: Graph, u: Utterance, n: nat, beam: nat, s: Snapshot, s': Snapshot)
    requires GoodSnapshot(g, u, n, beam, s)
    requires s' == s.(heap := s'.heap, lists := s'.lists, numToks := s'.numToks)
    requires Consistent(s.created, s'.heap, FrontTerminal(s.created, n), beam)
    requires Listed(s.created, s'.heap, s'.lists, s.start, s'.numToks)
    requires Live(s'.heap) && FlagsOk(s'.heap, s'.lists) && MarksOk(s'.heap, s'.lists)
    requires |s'.lists| == n + 1 == |s.lists| && s'.lists[n] == s.lists[n] && CellsKept(s.created, s.heap, s'.heap, n)
    ensures GoodSnapshot(g, u, n, beam, s')
  {
    PrunedFront(g, u, n, beam, s, s'.heap);
    PrunedAddresses(g, u, n, beam, s, s'.heap);
    hide OpenFront, History, Listed, FlagsOk, MarksOk, Live, Addresses, Consistent, CellsKept;
  }

  lemma PrunedFront(g: Graph, u: Utterance, n: nat, beam: nat, s: Snapshot, h: Heap)
    requires GoodSnapshot(g, u, n, beam, s) && CellsKept(s.created, s.heap, h, n)
    requires Consistent(s.created, h, FrontTerminal(s.created, n), beam)
    ensures OpenFront(g, s.created, h, n, s.toks, beam)
  {
    hide History, Listed, FlagsOk, MarksOk, Live, Addresses, Consistent, Graph.Valid, IsPair;
  }

  lemma PrunedAddresses(g: Graph, u: Utterance, n: nat, beam: nat, s: Snapshot, h: Heap)
    requires GoodSnapshot(g, u, n, beam, s)
    requires Consistent(s.created, h, FrontTerminal(s.created, n), beam)
    ensures Addresses(s.created, h, s.pairOf, s.next)
  {
    ConsistentParts(s.created, h, FrontTerminal(s.created, n), beam);
    hide History, Listed, FlagsOk, MarksOk, Live, Consistent, OpenFront;
  }

  lemma GoodToFinish(g: Graph, u: Utterance, n: nat, beam: nat, s: Snapshot)
    requires GoodSnapshot(g, u, n, beam, s)
    ensures |s.lists| == n + 1 && OpenFront(g, s.created, s.heap, n, s.toks, beam)
    ensures Listed(s.created, s.heap, s.lists, s.start, s.numToks)
    ensures WellFormed(s.created) && Tight(s.created, s.start) && s.start in s.created && s.created[s.start].frame == 0
    ensures forall a :: a in s.created ==> s.created[a].frame <= n
    ensures History(g, u, s.created, n, s.start)
    ensures (forall a :: a in s.heap ==> a < s.next) && (forall a :: a in s.created ==> a < s.next)
    ensures Owns(s.heap, s.lists, s.numToks)
  {
    ListsOwned(g, u, n, beam, s);
    hide OpenFront, Listed, FlagsOk, MarksOk, Live, WellFormed, Tight, LinksAreArcs, Realized, Owns;
  }

  lemma ListsOwned(g: Graph, u: Utterance, n: nat, beam: nat, s: Snapshot)
    requires GoodSnapshot(g, u, n, beam, s)
    ensures Owns(s.heap, s.lists, s.numToks)
  {
    hide Front, Listed, FlagsOk, MarksOk, Live, WellFormed, Tight, LinksAreArcs, Realized, Owns, Consistent, Addresses;
    ConsistentParts(s.created, s.heap, FrontTerminal(s.created, n), beam);
    ListedOwns(s.created, s.heap, s.lists, s.start, s.numToks);
  }
}
