/** The search that the lattice decoder is configured for, and why that is what the decoder does. */
module LatticeSearch {
  import opened Basics
  import opened Composition
  import opened Costs
  import opened Lattice
  import opened TokenColumn
  import opened EpsilonClosure
  import opened Emission
  import opened FrameColumn
  import opened FrameHistory
  import opened Cutoffs
  import opened BeamSearch

  /** A frame that is not empty; its epsilon cutoff lies by the beam above the best entry. */
  ghost predicate LayerOk(g: Graph, config: Config, layer: Layer) {
    layer.entry != map[] && EpsilonCutoffIs(config, layer.entry, layer.epsilonCutoff) && Closes(g, layer)
  }

  ghost predicate IsCheapest(g: Graph, u: Utterance, n: nat, costs: map<PairId, int>, cutoff: Cost, m: int) {
    && (exists p, i: nat :: IsExtension(g, u, n, costs, cutoff, p, i) && ExtendedCost(g, u, n, costs, p, i) == m)
    && forall p, i: nat :: IsExtension(g, u, n, costs, cutoff, p, i) ==> m <= ExtendedCost(g, u, n, costs, p, i)
  }

  /** Cutoff and adaptive beam are those of the frame's costs; the limit lies by the adaptive beam above the cheapest extension. */
  ghost predicate CrossingOk(g: Graph, u: Utterance, config: Config, n: nat, costs: map<PairId, int>, x: Crossing,
                             entry: map<PairId, int>) {
    && CutoffsAre(config, costs, x.cutoff, x.adaptiveBeam)
    && FirstCutoffIs(g, u, n, costs, x.adaptiveBeam, Inf, x.first) && x.margin == config.beam
    && (exists m :: IsCheapest(g, u, n, costs, x.cutoff, m) && x.limit == Fin(m).Add(x.adaptiveBeam))
    && Crosses(g, u, n, costs, x, entry)
  }

  /** The created tokens of a frame have exactly these costs. */
  ghost predicate CostsOnFrame(c: Created, k: nat, costs: map<PairId, int>) {
    && (forall a :: a in c && c[a].frame == k ==> c[a].pair in costs && costs[c[a].pair] == c[a].totCost)
    && (forall p :: p in costs ==> exists a :: a in c && c[a].frame == k && c[a].pair == p)
  }

  /** A search over n frames, and what it has created. */
  ghost predicate Searched(g: Graph, u: Utterance, config: Config, c: Created, n: nat, layers: seq<Layer>,
                           crossings: seq<Crossing>) {
    && |layers| == n + 1 && |crossings| == n && layers[0].entry == map[StartPair(g) := 0]
    && (forall k: nat :: k <= n ==> LayerOk(g, config, layers[k]) && CostsOnFrame(c, k, layers[k].costs))
    && (forall k: nat :: k < n ==> CrossingOk(g, u, config, k, layers[k].costs, crossings[k], layers[k + 1].entry))
  }

  lemma SearchedExplores(g: Graph, u: Utterance, config: Config, c: Created, n: nat, layers: seq<Layer>,
                         crossings: seq<Crossing>)
    requires Searched(g, u, config, c, n, layers, crossings)
    ensures Explores(g, u, n, layers, crossings)
  {
    hide Closes, Crosses, CostsOnFrame, CutoffsAre, FirstCutoffIs, IsCheapest, EpsilonCutoffIs;
    forall k: nat | k <= n
      ensures Closes(g, layers[k])
    {
      assert LayerOk(g, config, layers[k]);
    }
    forall k: nat | k < n
      ensures Crosses(g, u, k, layers[k].costs, crossings[k], layers[k + 1].entry)
    {
      assert CrossingOk(g, u, config, k, layers[k].costs, crossings[k], layers[k + 1].entry);
    }
  }

  lemma LayerNonEmpty(g: Graph, config: Config, layer: Layer)
    requires LayerOk(g, config, layer)
    ensures layer.costs != map[]
  {
    var p :| p in layer.entry;
    EntryStays(g, layer, p);
  }

  lemma StepCheap(g: Graph, u: Utterance, config: Config, c: Created, n: nat, layers: seq<Layer>,
                  crossings: seq<Crossing>, at: Place, to: Place)
    requires Searched(g, u, config, c, n, layers, crossings) && config.Check() && config.Unbounded()
    requires at.frames <= to.frames <= n
    ensures StepInBeam(layers, crossings, at, to)
  {
    hide IsCheapest, Crosses, Closes, FirstCutoffIs, CostsOnFrame, CutoffsAre;
    var k := at.frames;
    assert LayerOk(g, config, layers[k]);
    if k < n {
      assert CrossingOk(g, u, config, k, layers[k].costs, crossings[k], layers[k + 1].entry);
      CutoffUsable(config, layers[k].costs, crossings[k].cutoff, crossings[k].adaptiveBeam);
    }
  }

  /** Without beams the search misses nothing. */
  lemma {:induction false} AllInBeam(g: Graph, u: Utterance, config: Config, c: Created, n: nat, layers: seq<Layer>,
                                     crossings: seq<Crossing>, path: Path)
    requires Searched(g, u, config, c, n, layers, crossings) && config.Check() && config.Unbounded()
    requires Walk(g, u, path).Some? && Walk(g, u, path).value.frames <= n
    ensures InBeam(g, u, layers, crossings, path)
  {
    match path
    case From(_) =>
    case Snoc(prefix, i) =>
      FramesAdvance(g, u, prefix, i);
      hide Walk, Searched;
      AllInBeam(g, u, config, c, n, layers, crossings, prefix);
      StepCheap(g, u, config, c, n, layers, crossings, Walk(g, u, prefix).value, Walk(g, u, path).value);
  }

  // ----- what the decoder does is such a search -----

  lemma CandidatesExtend(g: Graph, u: Utterance, n: nat, prev: Previous)
    ensures var costs := CostsAmong(prev.toks, prev.heap);
      forall p, i: nat :: Candidate(g, u, n, prev, p, i) <==> IsExtension(g, u, n, costs, prev.cutoff, p, i)
    ensures var costs := CostsAmong(prev.toks, prev.heap);
      forall p, i: nat :: Candidate(g, u, n, prev, p, i) ==> ExtensionCost(g, u, n, prev, p, i) == ExtendedCost(g, u, n, costs, p, i)
  {
    hide EmittingArc, EmitCost;
  }

  lemma PreviousCosts(g: Graph, u: Utterance, n: nat, prev: Previous, col: Column)
    requires Emitting(g, u, n, prev, col)
    ensures CostsAmong(prev.toks, prev.heap).Keys == prev.toks.Keys
  {
    hide IsPair, LinksJustified, TokensJustified, PreviousKept, ColumnOk;
  }

  /** Emission has run its course: it began with the cutoff that a best token within the frame's cutoff sets, all extensions have
      been visited, and that has come to the new column. */
  ghost predicate EmissionDone(g: Graph, u: Utterance, n: nat, prev: Previous, col: Column, x: Crossing) {
    && Emitting(g, u, n, prev, col) && VisitsDone(g, u, n, prev, col, x.order, x.first, x.margin) && AllCameUp(g, u, n, CostsAmong(prev.toks, prev.heap), prev.cutoff, x.order)
    && FirstCutoffIs(g, u, n, CostsAmong(prev.toks, prev.heap), x.adaptiveBeam, Inf, x.first)
    && x.cutoff == prev.cutoff && Fin(0).Lt(x.adaptiveBeam) && x.adaptiveBeam.Le(x.margin)
    && forall p :: IsBestOf(CostsAmong(prev.toks, prev.heap), p) ==> Fin(CostsAmong(prev.toks, prev.heap)[p]).Le(x.cutoff)
  }

  lemma EmissionIs(g: Graph, u: Utterance, n: nat, prev: Previous, col: Column, x: Crossing)
    requires EmissionDone(g, u, n, prev, col, x)
    ensures Emitting(g, u, n, prev, col) && x.cutoff == prev.cutoff
  {
    hide Emitting, VisitsDone, AllCameUp, FirstCutoffIs;
  }

  /** The limit is not part of what emission does. */
  lemma EmissionLimited(g: Graph, u: Utterance, n: nat, prev: Previous, col: Column, x: Crossing, limit: Cost)
    requires EmissionDone(g, u, n, prev, col, x)
    ensures EmissionDone(g, u, n, prev, col, x.(limit := limit)) && x.cutoff == prev.cutoff
  {
    hide Emitting, VisitsDone, AllCameUp, FirstCutoffIs;
  }

  lemma EmissionVisits(g: Graph, u: Utterance, n: nat, prev: Previous, col: Column, x: Crossing)
    requires EmissionDone(g, u, n, prev, col, x)
    ensures VisitsDone(g, u, n, prev, col, x.order, x.first, x.margin)
  {
    hide Emitting, VisitsDone, AllCameUp, FirstCutoffIs;
  }

  /** The running cutoff never comes closer than the adaptive beam to the cheapest extension. */
  lemma CheapestFair(g: Graph, u: Utterance, n: nat, prev: Previous, col: Column, x: Crossing, m: int)
    requires EmissionDone(g, u, n, prev, col, x) && CheapestBound(g, u, n, prev, m)
    ensures Fin(m).Add(x.adaptiveBeam).Le(CutoffAfter(x.order, x.first, x.margin))
  {
    hide Emitting, CutoffAfter, AllCameUp, EmittingArc, EmitCost;
    CandidatesExtend(g, u, n, prev);
    var costs := CostsAmong(prev.toks, prev.heap);
    if x.first != Inf {
      var p :| IsBestOf(costs, p) && IsPair(g, p) && BestArcsBound(g, u, n, costs, x.adaptiveBeam, Inf, x.first, p, ArcCount(g, p));
      var i: nat :| EmittingArc(g, u, n, p, i) && x.first == Fin(ExtendedCost(g, u, n, costs, p, i)).Add(x.adaptiveBeam);
      assert IsExtension(g, u, n, costs, prev.cutoff, p, i);
    }
    CutoffStaysFair(x.order, x.first, x.margin, m, x.adaptiveBeam);
  }

  /** An extension cheaper than the cheapest and the adaptive beam together is taken. */
  lemma CheapTaken(g: Graph, u: Utterance, n: nat, prev: Previous, col: Column, x: Crossing, m: int, p: PairId, i: nat)
    requires EmissionDone(g, u, n, prev, col, x) && CheapestBound(g, u, n, prev, m)
    requires Candidate(g, u, n, prev, p, i) && Fin(ExtensionCost(g, u, n, prev, p, i)).Lt(Fin(m).Add(x.adaptiveBeam))
    ensures Linked(g, u, n, prev, col, p, i)
  {
    CheapestFair(g, u, n, prev, col, x, m);
    CandidatesExtend(g, u, n, prev);
    hide Emitting, Candidate, Linked, CutoffAfter, TakenAt, InOrder, FirstCutoffIs, CheapestBound, IsExtension;
    assert Visited(x.order, p, i);
    var k: nat :| k < |x.order| && x.order[k].pair == p && x.order[k].arc == i;
    assert x.order[k] in x.order;
    UnderTheLast(x.order, x.first, x.margin, k);
  }

  /** Every extension under the limit has its link. */
  ghost predicate LimitLinked(g: Graph, u: Utterance, n: nat, prev: Previous, col: Column, limit: Cost) {
    forall p, i: nat :: Candidate(g, u, n, prev, p, i) && Fin(ExtensionCost(g, u, n, prev, p, i)).Lt(limit) ==> Linked(g, u, n, prev, col, p, i)
  }

  /** The cheapest extension sets the limit under which emission has taken every extension. */
  lemma LimitFound(g: Graph, u: Utterance, n: nat, prev: Previous, col: Column, x: Crossing) returns (m: int)
    requires g.Valid() && EmissionDone(g, u, n, prev, col, x) && col.toks != map[]
    ensures IsCheapest(g, u, n, CostsAmong(prev.toks, prev.heap), prev.cutoff, m) && CheapestBound(g, u, n, prev, m)
    ensures LimitLinked(g, u, n, prev, col, Fin(m).Add(x.adaptiveBeam))
  {
    hide Linked, EmittingArc, IsExtension, ExtendedCost, ExtensionCost, Graph.Valid, IsPair, Emitting, VisitsDone, AllCameUp,
      FirstCutoffIs, CutoffAfter;
    var p, i := SomeCandidate(g, u, n, prev, col);
    var q, j := CheapestExists(g, u, n, prev, p, i);
    m := ExtensionCost(g, u, n, prev, q, j);
    CandidatesExtend(g, u, n, prev);
    assert IsExtension(g, u, n, CostsAmong(prev.toks, prev.heap), prev.cutoff, q, j);
    forall r, k: nat | Candidate(g, u, n, prev, r, k) && Fin(ExtensionCost(g, u, n, prev, r, k)).Lt(Fin(m).Add(x.adaptiveBeam))
      ensures Linked(g, u, n, prev, col, r, k)
    {
      CheapTaken(g, u, n, prev, col, x, m, r, k);
    }
  }

  lemma SomeCandidate(g: Graph, u: Utterance, n: nat, prev: Previous, col: Column) returns (p: PairId, i: nat)
    requires Emitting(g, u, n, prev, col) && col.toks != map[]
    ensures Candidate(g, u, n, prev, p, i)
  {
    ColumnHas(g, col);
    hide ColumnOk, PreviousOk, PreviousKept, LinksJustified, EmittingArc, EmitCost;
    var q :| q in col.toks;
    p, i :| Supports(g, u, n, prev, col, q, p, i);
  }

  lemma AllAreVisits(g: Graph, u: Utterance, n: nat, prev: Previous, col: Column, order: seq<Visit>, first: Cost,
                     margin: Cost)
    requires VisitsDone(g, u, n, prev, col, order, first, margin) && AllCameUp(g, u, n, CostsAmong(prev.toks, prev.heap), prev.cutoff, order)
    ensures VisitsAll(g, u, n, CostsAmong(prev.toks, prev.heap), prev.cutoff, order)
  {
    CandidatesExtend(g, u, n, prev);
    hide Candidate, IsExtension, ExtensionCost, ExtendedCost, Linked, SupportedAt, Gained, InOrder, Visited, PairArcAt;
    forall v | v in order
      ensures IsVisit(g, u, n, CostsAmong(prev.toks, prev.heap), prev.cutoff, v)
    {
      assert Candidate(g, u, n, prev, v.pair, v.arc) && v == VisitOf(g, u, n, prev, v.pair, v.arc);
    }
  }

  lemma EmissionEnters(g: Graph, u: Utterance, n: nat, prev: Previous, col: Column, x: Crossing)
    requires VisitsDone(g, u, n, prev, col, x.order, x.first, x.margin)
    ensures Enters(x, CostsAmong(col.toks, col.heap))
  {
    hide Candidate, EmittingArc, EmittingLink, EmitCost, PairArcAt, TakenAt, Gained;
    var entry := CostsAmong(col.toks, col.heap);
    forall k: nat | x.Takes(k)
      ensures x.order[k].next in entry && entry[x.order[k].next] <= x.order[k].cost
    {
      assert Linked(g, u, n, prev, col, x.order[k].pair, x.order[k].arc);
      assert x.order[k] in x.order;
    }
    forall q | q in entry
      ensures exists k: nat :: x.Takes(k) && x.order[k].next == q && x.order[k].cost == entry[q]
    {
      assert Has(col, q);
      var k: nat :| SupportedAt(g, u, n, prev, col, x.order, x.first, x.margin, q, k);
      assert x.order[k] in x.order;
      assert x.Takes(k) && x.order[k].next == q && x.order[k].cost == entry[q];
    }
  }

  lemma CrossingMade(g: Graph, u: Utterance, config: Config, n: nat, prev: Previous, col: Column, x: Crossing, m: int)
    requires EmissionDone(g, u, n, prev, col, x) && x.margin == config.beam && x.limit == Fin(m).Add(x.adaptiveBeam)
    requires CutoffsAre(config, CostsAmong(prev.toks, prev.heap), prev.cutoff, x.adaptiveBeam)
    requires IsCheapest(g, u, n, CostsAmong(prev.toks, prev.heap), prev.cutoff, m) && CheapestBound(g, u, n, prev, m)
    ensures CrossingOk(g, u, config, n, CostsAmong(prev.toks, prev.heap), x, CostsAmong(col.toks, col.heap))
  {
    hide Emitting, VisitsDone, AllCameUp, CutoffsAre, IsCheapest, CostsAmong, FirstCutoffIs, TakenAt, CutoffAfter, Enters, VisitsAll,
      CheapestBound;
    CheapestFair(g, u, n, prev, col, x, m);
    AllAreVisits(g, u, n, prev, col, x.order, x.first, x.margin);
    EmissionEnters(g, u, n, prev, col, x);
    forall k: nat | k < |x.order| && Fin(x.order[k].cost).Lt(x.limit)
      ensures x.Takes(k)
    {
      UnderTheLast(x.order, x.first, x.margin, k);
    }
  }

  /** If no token was reached, there was no extension within the cutoff. */
  lemma NoneToEmit(g: Graph, u: Utterance, n: nat, prev: Previous, col: Column, x: Crossing)
    requires g.Valid() && EmissionDone(g, u, n, prev, col, x) && col.toks == map[]
    ensures forall p, i: nat :: !Candidate(g, u, n, prev, p, i)
  {
    hide Graph.Valid, Emitting, Candidate, CheapestBound, FirstCutoffIs, VisitsDone, AllCameUp, Linked;
    forall p, i: nat
      ensures !Candidate(g, u, n, prev, p, i)
    {
      if Candidate(g, u, n, prev, p, i) {
        var q, j := CheapestExists(g, u, n, prev, p, i);
        CheapTaken(g, u, n, prev, col, x, CandidateCost(g, u, n, prev, q, j), q, j);
        LinkedToken(g, u, n, prev, col, q, j);
      }
    }
  }

  ghost function CandidateCost(g: Graph, u: Utterance, n: nat, prev: Previous, p: PairId, i: nat): int
    requires Candidate(g, u, n, prev, p, i)
  {
    ExtensionCost(g, u, n, prev, p, i)
  }

  /** A relaxed column is a layer. */
  lemma LayerMade(g: Graph, config: Config, f: Frame)
    requires Closed(g, f) && EpsilonCutoffIs(config, EntryCosts(f.entry), f.cutoff) && EntryCosts(f.entry) != map[]
    ensures LayerOk(g, config, Layer(EntryCosts(f.entry), f.cutoff, EntryCosts(f.col)))
  {
    hide RelaxedBut, EntryKept, EpsilonCutoffIs;
    forall path | EpsilonTrace(g, EntryCosts(f.entry), f.cutoff, path).Some?
      ensures NoMoreThan(EntryCosts(f.col), EpsilonTrace(g, EntryCosts(f.entry), f.cutoff, path).value)
    {
      NoBetterPath(g, EntryCosts(f.entry), f.cutoff, f.col, path);
    }
  }

  lemma FrontCosts(c: Created, h: Heap, n: nat, toks: map<PairId, Addr>)
    requires Front(c, h, n, toks)
    ensures CostsOnFrame(c, n, CostsAmong(toks, h))
  {
    forall p | p in CostsAmong(toks, h)
      ensures exists a :: a in c && c[a].frame == n && c[a].pair == p
    {
      assert toks[p] in c && c[toks[p]].frame == n;
    }
  }
}
