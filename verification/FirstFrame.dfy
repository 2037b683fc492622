/** The frame before any emission: the start token and its epsilon closure. */
module FirstFrame {
  import opened Basics
  import opened Composition
  import opened Costs
  import opened Lattice
  import opened LatticePruning
  import opened ExactPruning
  import opened TokenColumn
  import opened EpsilonClosure
  import opened BeamSearch
  import opened FrameColumn
  import opened FrameHistory

  ghost function StartColumn(g: Graph, start: Addr): Column {
    Column(map[start := Token(0, Fin(0), [])], map[StartPair(g) := start], [start], map[start := StartPair(g)], start + 1)
  }

  lemma StartColumnIs(g: Graph, h: Heap, toks: map<PairId, Addr>, start: Addr)
    requires h == map[] && toks == map[]
    ensures StartColumn(g, start) == Column(h[start := Token(0, Fin(0), [])], toks[StartPair(g) := start], [start],
                                            map[start := StartPair(g)], start + 1)
  {
  }

  ghost predicate FirstDone(g: Graph, potential: map<PairId, int>, start: Addr, f: Frame) {
    && g.Valid() && Feasible(g, potential)
    && f.n == 0 && f.entry == StartColumn(g, start)
    && ColumnOk(g, f.col) && Grows(f.entry, f.col) && Closed(g, f)
  }

  ghost function FirstCreated(f: Frame): Created {
    map a | a in f.col.list && a in f.col.heap && a in f.col.pairOf ::
      Node(0, f.col.pairOf[a], f.col.heap[a].totCost, f.col.heap[a].links)
  }

  lemma StartPairOk(g: Graph)
    requires g.Valid()
    ensures IsPair(g, StartPair(g))
  {
    PairRoundTrip(g.start, g.lmStart);
  }

  /** Column and created lattice hold the same tokens. */
  lemma FirstRecorded(g: Graph, potential: map<PairId, int>, start: Addr, f: Frame)
    requires FirstDone(g, potential, start, f)
    ensures Recorded(FirstCreated(f), f) && Closed(g, f)
    ensures forall a :: a in FirstCreated(f) <==> a in f.col.list
    ensures forall a :: a in f.col.list ==>
              a in f.col.pairOf && Has(f.col, f.col.pairOf[a]) && f.col.toks[f.col.pairOf[a]] == a
  {
    hide Closed, Grows, IsPair, Feasible;
  }

  /** No epsilon path back to the start is a bargain. */
  lemma {:induction false} TraceAbovePotential(g: Graph, potential: map<PairId, int>, start: Addr, cutoff: Cost,
      path: Path)
    requires g.Valid() && Feasible(g, potential)
    ensures match EpsilonTrace(g, EntryCosts(StartColumn(g, start)), cutoff, path)
            case None => true
            case Some((p, cost)) => IsPair(g, p) && p in potential && IsPair(g, StartPair(g)) &&
                                    potential[StartPair(g)] <= cost + potential[p]
  {
    StartPairOk(g);
    match path
    case From(_) =>
    case Snoc(prefix, i) =>
      hide Graph.Valid, PairArcAt;
      TraceAbovePotential(g, potential, start, cutoff, prefix);
      match EpsilonTrace(g, EntryCosts(StartColumn(g, start)), cutoff, prefix)
      case None =>
      case Some((p, cost)) =>
        if Fin(cost).Lt(cutoff) && Affordable(g, p, cost, cutoff, i) {
          PairArcStays(g, p, i);
        }
  }

  lemma StartStaysFree(g: Graph, potential: map<PairId, int>, start: Addr, f: Frame)
    requires FirstDone(g, potential, start, f)
    ensures Has(f.col, StartPair(g)) && f.col.toks[StartPair(g)] == start && CostAt(f.col, StartPair(g)) == 0
  {
    hide ColumnOk, RelaxedBut;
    var p := StartPair(g);
    assert Has(f.entry, p);
    var path :| EpsilonTrace(g, EntryCosts(f.entry), f.cutoff, path) == Some((p, CostAt(f.col, p)));
    TraceAbovePotential(g, potential, start, f.cutoff, path);
  }

  lemma FirstEntries(g: Graph, u: Utterance, potential: map<PairId, int>, start: Addr, f: Frame)
    requires FirstDone(g, potential, start, f) && WellFormed(FirstCreated(f))
    ensures EntriesRealized(g, u, f) && EntriesTight(FirstCreated(f), start, f)
  {
    FirstRecorded(g, potential, start, f);
    StartStaysFree(g, potential, start, f);
    hide Grows, ColumnOk, Closed, Recorded, WellFormed, Feasible, FirstCreated, EntriesRealized, EntriesTight, IsPair;
    StartRealized(g, u, start, f);
    StartTight(g, FirstCreated(f), start, f);
  }

  lemma StartRealized(g: Graph, u: Utterance, start: Addr, f: Frame)
    requires f.n == 0 && f.entry == StartColumn(g, start)
    ensures EntriesRealized(g, u, f)
  {
    assert Walk(g, u, From(StartPair(g))) == Some(Place(StartPair(g), 0, 0));
  }

  lemma StartTight(g: Graph, c: Created, start: Addr, f: Frame)
    requires f.entry == StartColumn(g, start) && WellFormed(c) && start in c
    requires Has(f.col, StartPair(g)) && f.col.toks[StartPair(g)] == start
    ensures EntriesTight(c, start, f)
  {
    hide WellFormed;
    assert ZeroPath(c, start, [], start);
  }

  lemma FirstWellFormed(g: Graph, u: Utterance, potential: map<PairId, int>, start: Addr, f: Frame)
    requires FirstDone(g, potential, start, f)
    ensures WellFormed(FirstCreated(f)) && LinksAreArcs(g, u, FirstCreated(f))
    ensures forall a, l :: a in FirstCreated(f) && l in FirstCreated(f)[a].links ==> l.nextTok in f.col.heap
  {
    hide FirstDone, Closed, Recorded, LinkOk, MatchesArc, FirstCreated;
    var c := FirstCreated(f);
    FirstRecorded(g, potential, start, f);
    forall a, l | a in c && l in c[a].links
      ensures LinkOk(c, a, l) && (exists i: nat :: MatchesArc(g, u, c, a, i, l)) && l.nextTok in f.col.heap
    {
      RecordedLinks(c, f, f.col.pairOf[a]);
      FrameColumn.InnerLinkSound(g, u, c, f, f.col.pairOf[a], l);
    }
  }

  lemma RecordedLinks(c: Created, f: Frame, p: PairId)
    requires Recorded(c, f) && Has(f.col, p)
    ensures f.col.toks[p] in c && c[f.col.toks[p]] == Node(f.n, p, CostAt(f.col, p), LinksAt(f.col, p))
  {
  }

  lemma FirstHistory(g: Graph, u: Utterance, potential: map<PairId, int>, start: Addr, f: Frame)
    requires FirstDone(g, potential, start, f)
    ensures History(g, u, FirstCreated(f), 0, start)
  {
    hide Closed, Recorded, FirstCreated, WellFormed, LinksAreArcs, ZeroPath, Walk, EntriesRealized, EntriesTight,
      IsPair, Grows,
      ColumnOk, Feasible;
    var c := FirstCreated(f);
    FirstWellFormed(g, u, potential, start, f);
    FirstRecorded(g, potential, start, f);
    FirstEntries(g, u, potential, start, f);
    StartStaysFree(g, potential, start, f);
    RecordedLinks(c, f, StartPair(g));
    forall a | a in c
      ensures c[a].frame == 0 && IsPair(g, c[a].pair) && Realized(g, u, c, a)
      ensures exists p :: ZeroPath(c, start, p, a)
    {
      var p := f.col.pairOf[a];
      RecordedLinks(c, f, p);
      ClosedPair(g, f, p);
      TokenReached(g, u, c, start, f, p);
    }
  }

  lemma ClosedPair(g: Graph, f: Frame, p: PairId)
    requires Closed(g, f) && Has(f.col, p)
    ensures IsPair(g, p)
  {
  }

  /** Nothing has been pruned, so everything is as created and consistent. */
  lemma FirstConsistent(g: Graph, u: Utterance, potential: map<PairId, int>, start: Addr, f: Frame, beam: nat)
    requires FirstDone(g, potential, start, f)
    ensures Front(FirstCreated(f), f.col.heap, 0, f.col.toks)
    ensures Consistent(FirstCreated(f), f.col.heap, FrontTerminal(FirstCreated(f), 0), beam)
  {
    var c := FirstCreated(f);
    FirstWellFormed(g, u, potential, start, f);
    FirstRecorded(g, potential, start, f);
    FirstCells(g, potential, start, f);
    FrontTerminalOk(c, f.col.heap, 0, f.col.toks, beam);
    hide FirstDone, Front, FirstCreated, Recorded, Closed, LinksAreArcs;
    AllAsCreated(c, f.col.heap, FrontTerminal(c, 0), beam);
  }

  lemma FirstCells(g: Graph, potential: map<PairId, int>, start: Addr, f: Frame)
    requires FirstDone(g, potential, start, f)
    ensures Front(FirstCreated(f), f.col.heap, 0, f.col.toks)
    ensures forall a :: a in FirstCreated(f) ==> AsCreated(FirstCreated(f), f.col.heap, a)
    ensures f.col.heap.Keys == FirstCreated(f).Keys
  {
    FirstRecorded(g, potential, start, f);
    AllListed(f.entry, f.col, start);
    hide Closed, Grows, ColumnOk, Recorded, FirstCreated, Front, AsCreated;
    ListedCells(g, f);
  }

  lemma ListedCells(g: Graph, f: Frame)
    requires ColumnOk(g, f.col)
    requires forall a :: a in f.col.heap ==> a in f.col.list && f.col.heap[a].extraCost == Fin(0)
    requires forall a :: a in FirstCreated(f) <==> a in f.col.list
    ensures Front(FirstCreated(f), f.col.heap, 0, f.col.toks)
    ensures forall a :: a in FirstCreated(f) ==> AsCreated(FirstCreated(f), f.col.heap, a)
    ensures f.col.heap.Keys == FirstCreated(f).Keys
  {
    hide IsPair, NoDuplicates;
  }

  lemma AllListed(entry: Column, col: Column, start: Addr)
    requires Grows(entry, col) && entry.heap.Keys == {start} && start in entry.list && entry.heap[start].extraCost == Fin(0)
    ensures forall a :: a in col.heap ==> a in col.list && col.heap[a].extraCost == Fin(0)
  {
    forall a | a in col.heap
      ensures a in col.list && col.heap[a].extraCost == Fin(0)
    {
      if a in entry.heap {
        assert a == start;
      }
    }
  }

  lemma AllAsCreated(c: Created, h: Heap, term: Terminal, beam: nat)
    requires WellFormed(c) && h.Keys == c.Keys && TerminalOk(c, term) && TerminalBound(h, term, beam)
    requires forall a :: a in c ==> AsCreated(c, h, a)
    ensures Consistent(c, h, term, beam)
  {
    forall a, l | a in h && l in h[a].links
      ensures l in c[a].links && l.nextTok in h && h[a].extraCost.Le(LinkExtra(h, a, l))
    {
      assert LinkOk(c, a, l);
    }
    forall a, p, z | IsPath(c, a, p, z) && z in term && Excess(c, term, a, p, z).Le(Fin(beam))
      ensures Intact(h, a, p, Excess(c, term, a, p, z))
    {
      PathStart(c, a, p, z);
    }
  }
}
