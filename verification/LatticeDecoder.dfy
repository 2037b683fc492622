/** The lattice-generating decoder with an on-the-fly language model. */
module LatticeDecoder {
  import opened Basics
  import opened Composition
  import opened Costs
  import opened Lattice
  import opened LatticePruning
  import opened PruningPasses
  import opened ExactPruning
  import opened TokenColumn
  import opened EpsilonClosure
  import opened Emission
  import opened FrameColumn
  import opened FrameHistory
  import opened FrameLists
  import opened FinalPruning
  import opened DecodingSteps
  import opened RawLattices
  import opened WholeUtterance
  import opened FirstFrame
  import opened Coverage
  import opened OrderStatistics
  import opened Cutoffs
  import opened BeamSearch
  import opened LatticeSearch
  import opened ExploredLinks
  import opened ComposedPaths

  class LatticeBiglmFasterDecoder {
    const graph: Graph
    const config: Config
    ghost const potential: map<PairId, int>

    var toks: map<PairId, Addr>
    var activeToks: seq<TokenList>
    var queue: seq<PairId>
    var finalCosts: map<Addr, int>
    var finalActive: bool
    var numToks: int
    var warned: bool

    /** The memory that tokens and links live in. */
    var heap: Heap
    var nextAddr: Addr

    ghost var pairOf: map<Addr, PairId>
    ghost var created: Created
    ghost var start: Addr
    ghost var best: int

    /** What the search has explored, frame by frame; and the tokens that it last went on from. */
    ghost var layers: seq<Layer>
    ghost var crossings: seq<Crossing>
    ghost var front: map<PairId, Addr>

    ghost function Col(frame: nat): Column
      requires frame < |activeToks|
      reads this
    {
      Column(heap, toks, activeToks[frame].toks, pairOf, nextAddr)
    }

    /** Only this frame's token list changes, by additions at its head; the count follows. */
    twostate predicate OnlyAddsTo(frame: nat)
      reads this
    {
      frame < |activeToks| == old(|activeToks|) && Added(old(activeToks), old(numToks), activeToks, numToks, frame)
    }

    // ----- finding or adding a token -----

    method FindOrAddToken(pair: PairId, frame: nat, totCost: int) returns (tok: Addr, changed: bool)
      requires frame < |activeToks| && ColumnOk(graph, Col(frame))
      modifies `heap, `toks, `activeToks, `numToks, `nextAddr, `pairOf
      ensures OnlyAddsTo(frame)
      ensures Col(frame) == FindOrAdd(old(Col(frame)), pair, totCost)
      ensures pair in toks && tok == toks[pair]
      ensures changed == IsNewOrBetter(old(Col(frame)), pair, totCost)
    {
      if pair !in toks {
        tok := nextAddr;
        nextAddr := nextAddr + 1;
        heap := heap[tok := Token(totCost, Fin(0), [])];
        pairOf := pairOf[tok := pair];
        activeToks := activeToks[frame := activeToks[frame].(toks := [tok] + activeToks[frame].toks)];
        toks := toks[pair := tok];
        numToks := numToks + 1;
        changed := true;
      } else {
        tok := toks[pair];
        changed := heap[tok].totCost > totCost;
        if changed {
          heap := heap[tok := heap[tok].(totCost := totCost)];
        }
      }
    }

    // ----- nonemitting arcs -----

    /** Follows one arc out of a token under the cutoff, if it is an epsilon arc. */
    method FollowEpsilonArc(pair: PairId, frame: nat, i: nat, cutoff: Cost, ghost lo: int, ghost col0: Column)
      requires frame < |activeToks| && graph.Valid() && Feasible(graph, potential)
      requires Relaxing(graph, potential, cutoff, lo, col0, Col(frame), queue, {pair})
      requires IsPair(graph, pair) && Has(Col(frame), pair) && Fin(CostAt(Col(frame), pair)).Lt(cutoff)
      requires i < ArcCount(graph, pair) && Followed(graph, Col(frame), cutoff, pair, i)
      modifies `heap, `toks, `activeToks, `numToks, `nextAddr, `pairOf, `queue
      ensures OnlyAddsTo(frame)
      ensures Relaxing(graph, potential, cutoff, lo, col0, Col(frame), queue, {pair})
      ensures Has(Col(frame), pair) && CostAt(Col(frame), pair) == old(CostAt(Col(frame), pair))
      ensures Followed(graph, Col(frame), cutoff, pair, i + 1)
      ensures Progress(graph, potential, lo, old(Col(frame)), old(queue), Col(frame), queue)
    {
      hide Added, Followed, Progress, Feasible, Graph.Valid, ColumnOk, Grows, OutsideKept, RelaxedBut, Attained,
        BoundedBelow,
        Idle;
      ghost var col, queue0 := Col(frame), queue;
      var curCost := heap[toks[pair]].totCost;
      var arcRef := graph.arcs[PairToState(pair)][i];
      if arcRef.ilabel == 0 {
        var (arc, nextLmState) := PropagateLm(graph, PairToLmState(pair), arcRef);
        var graphCost, totCost := arc.weight, Fin(curCost).Add(arc.weight);
        if totCost.Lt(cutoff) {
          var nextPair := ConstructPair(arc.nextState, nextLmState);
          assert Affordable(graph, pair, curCost, cutoff, i);
          FollowArcStep(graph, potential, cutoff, lo, col0, col, queue, pair, i);
          FollowKeepsOwnCost(graph, potential, col, pair, i);
          var tokNew, changed := FindOrAddToken(nextPair, frame, totCost.value);
          var tok := toks[pair];
          heap := heap[tok := heap[tok].(links := [ForwardLink(tokNew, 0, arc.olabel, graphCost.value, 0)] + heap[tok].links)];
          if changed {
            queue := queue + [nextPair];
          }
          assert Col(frame) == FollowArc(graph, col, pair, i, curCost);
          assert queue == FollowQueue(graph, col, queue0, pair, i, curCost);
          return;
        }
      }
      AddedNothing(activeToks, numToks, frame);
      SkipArc(graph, col, cutoff, pair, i);
      ProgressRefl(graph, lo, col, queue);
    }

    lemma ProgressRefl(g: Graph, lo: int, col: Column, q: seq<PairId>)
      ensures Progress(g, potential, lo, col, q, col, q)
    {
    }

    /** Follows all epsilon arcs out of a token under the cutoff. */
    method FollowEpsilonArcs(pair: PairId, frame: nat, cutoff: Cost, ghost lo: int, ghost col0: Column)
      requires frame < |activeToks| && graph.Valid() && Feasible(graph, potential)
      requires Relaxing(graph, potential, cutoff, lo, col0, Col(frame), queue, {pair})
      requires IsPair(graph, pair) && Has(Col(frame), pair) && Fin(CostAt(Col(frame), pair)).Lt(cutoff)
      requires Followed(graph, Col(frame), cutoff, pair, 0)
      modifies `heap, `toks, `activeToks, `numToks, `nextAddr, `pairOf, `queue
      ensures OnlyAddsTo(frame)
      ensures Relaxing(graph, potential, cutoff, lo, col0, Col(frame), queue, {})
      ensures Progress(graph, potential, lo, old(Col(frame)), old(queue), Col(frame), queue)
    {
      hide Added, Relaxing, Followed, Progress, Feasible, Graph.Valid;
      AddedNothing(activeToks, numToks, frame);
      ProgressRefl(graph, lo, Col(frame), queue);
      for i := 0 to |graph.arcs[PairToState(pair)]|
        invariant OnlyAddsTo(frame)
        invariant Relaxing(graph, potential, cutoff, lo, col0, Col(frame), queue, {pair})
        invariant Has(Col(frame), pair) && CostAt(Col(frame), pair) == old(CostAt(Col(frame), pair))
        invariant Followed(graph, Col(frame), cutoff, pair, i)
        invariant Progress(graph, potential, lo, old(Col(frame)), old(queue), Col(frame), queue)
      {
        ghost var col1, queue1, lists1, count1 := Col(frame), queue, activeToks, numToks;
        FollowEpsilonArc(pair, frame, i, cutoff, lo, col0);
        AddedTransitive(old(activeToks), old(numToks), lists1, count1, activeToks, numToks, frame);
        ProgressTransitive(graph, potential, lo, old(Col(frame)), old(queue), col1, queue1, Col(frame), queue);
      }
      FollowDone(graph, potential, cutoff, lo, col0, Col(frame), queue, pair);
    }

    /** A token is about to be followed again: its links will be regenerated. */
    method ClearLinks(tok: Addr, frame: nat)
      requires frame < |activeToks| && tok in heap
      modifies `heap
      ensures Col(frame) == SetLinks(old(Col(frame)), tok, [])
    {
      heap := heap[tok := heap[tok].(links := [])];
    }

    /** Puts all tokens of the hash on the queue, in no particular order. */
    method QueueAllTokens() returns (bestCost: Cost)
      requires queue == [] && forall p :: p in toks ==> toks[p] in heap
      modifies `queue
      ensures forall p :: p in queue <==> p in toks
      ensures forall p :: p in toks ==> bestCost.Le(Fin(heap[toks[p]].totCost))
      ensures if toks == map[] then bestCost.Inf? else exists p :: p in toks && bestCost == Fin(heap[toks[p]].totCost)
    {
      bestCost := Inf;
      var elems := toks.Keys;
      ghost var best: PairId := 0;
      while elems != {}
        invariant elems <= toks.Keys
        invariant forall p :: p in queue <==> p in toks && p !in elems
        invariant forall p :: p in toks && p !in elems ==> bestCost.Le(Fin(heap[toks[p]].totCost))
        invariant elems == toks.Keys ==> bestCost.Inf?
        invariant elems == toks.Keys || (best in toks && bestCost == Fin(heap[toks[best]].totCost))
      {
        var p :| p in elems;
        best := if bestCost.Le(Fin(heap[toks[p]].totCost)) && elems != toks.Keys then best else p;
        elems := elems - {p};
        queue := queue + [p];
        bestCost := bestCost.Min(Fin(heap[toks[p]].totCost));
      }
    }

    /** Takes one token off the queue and, if it is under the cutoff, regenerates its links. */
    method ProcessQueued(frame: nat, cutoff: Cost, ghost lo: int, ghost col0: Column)
      requires frame < |activeToks| && graph.Valid() && Feasible(graph, potential) && queue != []
      requires Relaxing(graph, potential, cutoff, lo, col0, Col(frame), queue, {})
      modifies `heap, `toks, `activeToks, `numToks, `nextAddr, `pairOf, `queue
      ensures OnlyAddsTo(frame)
      ensures Relaxing(graph, potential, cutoff, lo, col0, Col(frame), queue, {})
      ensures Progress(graph, potential, lo, old(Col(frame)), old(queue)[..|old(queue)| - 1], Col(frame), queue)
    {
      hide Added, Relaxing, Followed, Progress, Feasible, Graph.Valid, SetLinks;
      AddedNothing(activeToks, numToks, frame);
      ghost var col1 := Col(frame);
      var pair := queue[|queue| - 1];
      queue := queue[..|queue| - 1];
      ghost var queue1 := queue;
      assert old(queue) == queue1 + [pair];
      Dequeue(graph, potential, cutoff, lo, col0, col1, queue1, pair);
      ProgressRefl(graph, lo, col1, queue1);
      var tok := toks[pair];
      if Fin(heap[tok].totCost).Lt(cutoff) {
        ClearLinks(tok, frame);
        ghost var col2 := Col(frame);
        FollowEpsilonArcs(pair, frame, cutoff, lo, col0);
        ProgressTransitive(graph, potential, lo, col1, queue1, col2, queue1, Col(frame), queue);
      }
    }

    /** Relaxes a frame: afterwards no epsilon path under the cutoff beats a token.
        Fails, as an exception would, if there is no token to begin with. */
    method ProcessNonemitting(frame: nat) returns (ok: bool, cutoff: Cost)
      requires frame < |activeToks| && graph.Valid() && Feasible(graph, potential) && queue == []
      requires ColumnOk(graph, Col(frame)) && forall p :: p in toks ==> heap[toks[p]].links == []
      modifies `heap, `toks, `activeToks, `numToks, `nextAddr, `pairOf, `queue
      ensures !ok <==> old(toks) == map[] && !warned
      ensures !ok ==> OnlyAddsTo(frame) && Col(frame) == old(Col(frame)) && queue == []
      ensures ok ==>
        && OnlyAddsTo(frame) && queue == []
        && ColumnOk(graph, Col(frame)) && Grows(old(Col(frame)), Col(frame)) && OutsideKept(old(Col(frame)), Col(frame))
        && Closed(graph, Frame(frame, old(Col(frame)), Col(frame), cutoff))
      ensures EpsilonCutoffIs(config, old(CostsOf(toks)), cutoff)
    {
      hide Added, Relaxing, Unseen, Improvable, Feasible, Graph.Valid, ColumnOk, Grows, OutsideKept, Closed;
      AddedNothing(activeToks, numToks, frame);
      ghost var col0 := Col(frame);
      ColumnHas(graph, col0);
      var bestCost := QueueAllTokens();
      cutoff := bestCost.Add(config.beam);
      BestCostCutoff(config, toks, heap, bestCost);
      if queue == [] && !warned {
        assert toks.Keys == {};
        return false, cutoff;
      }
      assert old(toks) != map[] || warned by { assert queue != [] ==> queue[0] in toks; }
      ghost var lo := RelaxationStarts(graph, potential, cutoff, col0, queue);
      while queue != []
        invariant OnlyAddsTo(frame)
        invariant Relaxing(graph, potential, cutoff, lo, col0, Col(frame), queue, {})
        decreases Unseen(graph, Col(frame)), Improvable(Col(frame), potential, lo), |queue|
      {
        ghost var lists1, count1 := activeToks, numToks;
        ProcessQueued(frame, cutoff, lo, col0);
        AddedTransitive(old(activeToks), old(numToks), lists1, count1, activeToks, numToks, frame);
      }
      ok := true;
      Relaxed0(graph, cutoff, lo, col0, Col(frame), frame);
    }

    lemma Relaxed0(g: Graph, cutoff: Cost, lo: int, col0: Column, col: Column, frame: nat)
      requires Relaxing(g, potential, cutoff, lo, col0, col, [], {})
      ensures ColumnOk(g, col) && Grows(col0, col) && OutsideKept(col0, col)
      ensures Closed(g, Frame(frame, col0, col, cutoff))
    {
    }

    // ----- the cutoff of a frame -----

    ghost function CostsOf(last: map<PairId, Addr>): map<PairId, int>
      reads this
    {
      CostsAmong(last, heap)
    }

    /** Lists the costs of the tokens, in no particular order, and finds the best token. */
    method ScanTokens(last: map<PairId, Addr>) returns (tmpArray: seq<int>, best: Option<PairId>,
                      ghost order: seq<PairId>)
      requires forall p :: p in last ==> last[p] in heap
      ensures Lists(tmpArray, order, CostsOf(last)) && (forall p :: p in last ==> p in order) && |order| == |last|
      ensures best.None? <==> last == map[]
      ensures best.Some? ==> best.value in last && forall p :: p in last ==> heap[last[best.value]].totCost <= heap[last[p]].totCost
    {
      ghost var costs := CostsOf(last);
      var elems := last.Keys;
      tmpArray, order, best := [], [], None;
      while elems != {}
        invariant elems <= last.Keys && |order| + |elems| == |last|
        invariant Lists(tmpArray, order, costs)
        invariant forall p :: p in last ==> (p in order <==> p !in elems)
        invariant best.None? <==> order == []
        invariant best.Some? ==> best.value in last && forall p :: p in order ==> costs[best.value] <= costs[p]
      {
        var p :| p in elems;
        elems := elems - {p};
        order := order + [p];
        var w := heap[last[p]].totCost;
        tmpArray := tmpArray + [w];
        if best.None? || w < heap[last[best.value]].totCost {
          best := Some(p);
        }
      }
      assert |last.Keys| == |last|;
      assert last != map[] ==> |last| > 0;
    }

    /** The cutoff for a frame's tokens, and the beam for the next frame.  Above maxActive
        tokens the cutoff drops to a cost that at most maxActive tokens stay below. */
    method GetCutoff(last: map<PairId, Addr>) returns (cutoff: Cost, adaptiveBeam: Cost, best: Option<PairId>)
      requires config.Check() && forall p :: p in last ==> last[p] in heap
      ensures best.None? <==> last == map[]
      ensures best.None? ==> cutoff.Inf? && adaptiveBeam == config.beam
      ensures best.Some? ==>
        && best.value in last && (forall p :: p in last ==> heap[last[best.value]].totCost <= heap[last[p]].totCost)
        && CutoffFor(config, CostsOf(last), heap[last[best.value]].totCost, cutoff, adaptiveBeam)
    {
      ghost var costs := CostsOf(last);
      var tmpArray, elem, order := ScanTokens(last);
      best := elem;
      assert costs.Keys == last.Keys;
      var bestWeight := if best.None? then Inf else Fin(heap[last[best.value]].totCost);
      assert best.None? ==> |last| == 0;
      if config.maxActive == UNLIMITED || |tmpArray| <= config.maxActive {
        return bestWeight.Add(config.beam), config.beam, best;
      }
      var x := NthElement(tmpArray, config.maxActive);
      NthIsActiveBound(tmpArray, order, costs, config.maxActive, x);
      cutoff := bestWeight.Add(config.beam).Min(Fin(x));
      adaptiveBeam := config.beam.Min(cutoff.Plus(config.beamDelta - bestWeight.value));
    }

    // ----- emitting arcs -----

    /** The state of an emission that began with the cutoff first: the extensions in order have been visited. */
    ghost predicate EmissionState(u: Utterance, frame: nat, prev: Previous, first: Cost, order: seq<Visit>,
                                  nextCutoff: Cost,
                                  col0: Column)
      requires 0 < frame < |activeToks|
      reads this
    {
      && Emitting(graph, u, frame - 1, prev, Col(frame)) && Grows(col0, Col(frame))
      && (toks == map[] ==> Col(frame) == col0)
      && VisitsDone(graph, u, frame - 1, prev, Col(frame), order, first, config.beam)
      && nextCutoff == CutoffAfter(order, first, config.beam)
    }

    /** Adds the token that an arc leads to, and the link to it. */
    method EmitToken(u: Utterance, pair: PairId, tok: Addr, frame: nat, i: nat, arc: Arc, nextLmState: StateId,
                     acCost: int,
                     ghost prev: Previous)
      requires 0 < frame < |activeToks| && ColumnOk(graph, Col(frame))
      requires CanEmit(graph, u, frame - 1, prev, Col(frame), pair, i) && tok == prev.toks[pair]
      requires heap[tok].totCost == prev.heap[tok].totCost && Fin(acCost) == u.acousticCost(frame - 1, arc.ilabel)
      requires PairArcAt(graph, pair, i) == PairArc(arc.ilabel, arc.olabel, arc.weight, ConstructPair(arc.nextState, nextLmState))
      modifies `heap, `toks, `activeToks, `numToks, `nextAddr, `pairOf
      ensures OnlyAddsTo(frame)
      ensures Col(frame) == EmitArc(graph, u, frame - 1, prev, old(Col(frame)), pair, i) && toks != map[]
    {
      hide Added, ColumnOk, PairArcAt;
      var nextPair := ConstructPair(arc.nextState, nextLmState);
      var tokNew, changed := FindOrAddToken(nextPair, frame, heap[tok].totCost + acCost + arc.weight.value);
      var link := ForwardLink(tokNew, arc.ilabel, arc.olabel, arc.weight.value, acCost);
      heap := heap[tok := heap[tok].(links := [link] + heap[tok].links)];
    }

    /** Takes one arc out of a token within the cutoff, if it emits and stays under the running cutoff. */
    method FollowEmittingArc(u: Utterance, pair: PairId, tok: Addr, frame: nat, i: nat, nextCutoff: Cost,
                             ghost prev: Previous,
                             ghost first: Cost, ghost order: seq<Visit>, ghost done: set<PairId>, ghost col0: Column)
      returns (nextCutoff': Cost, ghost order': seq<Visit>)
      requires 0 < frame < |activeToks| && graph.Valid() && pair !in done
      requires EmissionState(u, frame, prev, first, order, nextCutoff, col0)
      requires pair in prev.toks && prev.toks[pair] == tok && tok in prev.heap && tok in heap
      requires heap[tok].totCost == prev.heap[tok].totCost && Fin(heap[tok].totCost).Le(prev.cutoff)
      requires IsPair(graph, pair) && i < ArcCount(graph, pair)
      requires VisitedSoFar(graph, u, frame - 1, CostsAmong(prev.toks, prev.heap), prev.cutoff, order, done, pair, i)
      modifies `heap, `toks, `activeToks, `numToks, `nextAddr, `pairOf
      ensures OnlyAddsTo(frame)
      ensures EmissionState(u, frame, prev, first, order', nextCutoff', col0)
      ensures VisitedSoFar(graph, u, frame - 1, CostsAmong(prev.toks, prev.heap), prev.cutoff, order', done, pair, i + 1)
    {
      hide Added, Emitting, Grows, VisitsDone, VisitedSoFar, CutoffAfter, Graph.Valid, ColumnOk, Linked, EmitArc, IsExtension;
      AddedNothing(activeToks, numToks, frame);
      ghost var col := Col(frame);
      ghost var n := frame - 1;
      CandidatesExtend(graph, u, n, prev);
      nextCutoff', order' := nextCutoff, order;
      var arcRef := graph.arcs[PairToState(pair)][i];
      if arcRef.ilabel != 0 {
        var (arc, nextLmState) := PropagateLm(graph, PairToLmState(pair), arcRef);
        var acCost := u.acousticCost(frame - 1, arc.ilabel);
        var totCost := Fin(heap[tok].totCost).Add(acCost).Add(arc.weight);
        if totCost.Fin? {
          order' := order + [VisitOf(graph, u, n, prev, pair, i)];
          VisitedMore(graph, u, n, CostsAmong(prev.toks, prev.heap), prev.cutoff, order, done, pair, i, VisitOf(graph, u, n, prev, pair, i));
          CutoffNow(order, VisitOf(graph, u, n, prev, pair, i), first, config.beam);
        }
        if totCost.Lt(nextCutoff) {
          if totCost.Add(config.beam).Lt(nextCutoff) {
            nextCutoff' := totCost.Add(config.beam);
          }
          LeftTokenCost(graph, u, n, prev, col, pair);
          VisitTaken(graph, u, n, prev, col, order, first, config.beam, pair, i);
          EmitArcStep(graph, u, n, prev, col, pair, i);
          EmitArcColumn(graph, u, n, prev, col, pair, i);
          GrowsTransitive(col0, col, EmitArc(graph, u, n, prev, col, pair, i));
          EmitToken(u, pair, tok, frame, i, arc, nextLmState, acCost.value, prev);
          return;
        }
        if totCost.Fin? {
          VisitSkipped(graph, u, n, prev, col, order, first, config.beam, pair, i);
          return;
        }
      }
      NotVisited(graph, u, n, CostsAmong(prev.toks, prev.heap), prev.cutoff, order, done, pair, i);
    }

    /** Takes all emitting arcs out of a token within the cutoff. */
    method FollowEmittingArcs(u: Utterance, pair: PairId, frame: nat, nextCutoff: Cost, ghost prev: Previous,
                              ghost first: Cost, ghost order: seq<Visit>, ghost done: set<PairId>, ghost col0: Column, tok: Addr)
      returns (nextCutoff': Cost, ghost order': seq<Visit>)
      requires 0 < frame < |activeToks| && graph.Valid() && pair !in done
      requires EmissionState(u, frame, prev, first, order, nextCutoff, col0)
      requires pair in prev.toks && prev.toks[pair] == tok && tok in heap && Fin(heap[tok].totCost).Le(prev.cutoff)
      requires VisitedSoFar(graph, u, frame - 1, CostsAmong(prev.toks, prev.heap), prev.cutoff, order, done, pair, 0)
      modifies `heap, `toks, `activeToks, `numToks, `nextAddr, `pairOf
      ensures OnlyAddsTo(frame)
      ensures EmissionState(u, frame, prev, first, order', nextCutoff', col0)
      ensures TokensVisited(graph, u, frame - 1, CostsAmong(prev.toks, prev.heap), prev.cutoff, order', done + {pair})
    {
      hide Added, Emitting, Grows, VisitsDone, VisitedSoFar, CutoffAfter, Graph.Valid, IsPair;
      AddedNothing(activeToks, numToks, frame);
      LeftTokenCost(graph, u, frame - 1, prev, Col(frame), pair);
      nextCutoff', order' := nextCutoff, order;
      for i := 0 to ArcCount(graph, pair)
        invariant OnlyAddsTo(frame)
        invariant EmissionState(u, frame, prev, first, order', nextCutoff', col0)
        invariant VisitedSoFar(graph, u, frame - 1, CostsAmong(prev.toks, prev.heap), prev.cutoff, order', done, pair, i)
      {
        LeftTokenCost(graph, u, frame - 1, prev, Col(frame), pair);
        ghost var lists1, count1 := activeToks, numToks;
        nextCutoff', order' := FollowEmittingArc(u, pair, tok, frame, i, nextCutoff', prev, first, order', done, col0);
        AddedTransitive(old(activeToks), old(numToks), lists1, count1, activeToks, numToks, frame);
      }
      VisitedToken(graph, u, frame - 1, CostsAmong(prev.toks, prev.heap), prev.cutoff, order', done, pair, ArcCount(graph, pair));
    }

    /** A first bound on the next frame's cutoff, from the best token's arcs. */
    method BestTokenCutoff(u: Utterance, frame: nat, best: PairId, tok: Addr, adaptiveBeam: Cost,
                           ghost costs: map<PairId, int>)
      returns (nextCutoff: Cost)
      requires frame > 0 && best in costs && tok in heap && heap[tok].totCost == costs[best] && IsPair(graph, best)
      ensures BestArcsBound(graph, u, frame - 1, costs, adaptiveBeam, Inf, nextCutoff, best, ArcCount(graph, best))
    {
      hide BestArcsBound;
      nextCutoff := Inf;
      NoArcsYet(graph, u, frame - 1, costs, adaptiveBeam, Inf, best);
      var arcs := graph.arcs[PairToState(best)];
      for i := 0 to |arcs|
        invariant BestArcsBound(graph, u, frame - 1, costs, adaptiveBeam, Inf, nextCutoff, best, i)
      {
        ghost var bound := nextCutoff;
        if arcs[i].ilabel != 0 {
          var (arc, _) := PropagateLm(graph, PairToLmState(best), arcs[i]);
          var newWeight := arc.weight.Add(u.acousticCost(frame - 1, arc.ilabel)).Add(Fin(heap[tok].totCost));
          if newWeight.Add(adaptiveBeam).Lt(nextCutoff) {
            nextCutoff := newWeight.Add(adaptiveBeam);
          }
        }
        BestArcsMore(graph, u, frame - 1, costs, adaptiveBeam, Inf, bound, nextCutoff, best, i);
      }
    }

    /** The frame's cutoff and adaptive beam, and the first bound on the next frame's cutoff. */
    method FrameCutoffs(u: Utterance, frame: nat, lastToks: map<PairId, Addr>)
      returns (cutoff: Cost, adaptiveBeam: Cost, nextCutoff: Cost)
      requires frame > 0 && config.Check() && forall p :: p in lastToks ==> IsPair(graph, p) && lastToks[p] in heap
      ensures CutoffsAre(config, CostsOf(lastToks), cutoff, adaptiveBeam)
      ensures FirstCutoffIs(graph, u, frame - 1, CostsOf(lastToks), adaptiveBeam, Inf, nextCutoff)
    {
      hide CutoffFor, IsPair, BestArcsBound;
      var best;
      cutoff, adaptiveBeam, best := GetCutoff(lastToks);
      nextCutoff := Inf;
      ghost var costs := CostsOf(lastToks);
      assert costs.Keys == lastToks.Keys;
      if best.Some? {
        assert IsBestOf(costs, best.value);
        nextCutoff := BestTokenCutoff(u, frame, best.value, lastToks[best.value], adaptiveBeam, costs);
      }
    }

    /** Leaves one token, if it is within the cutoff. */
    method LeaveToken(u: Utterance, pair: PairId, tok: Addr, frame: nat, cutoff: Cost, nextCutoff: Cost,
                      ghost prev: Previous, ghost first: Cost, ghost order: seq<Visit>, ghost done: set<PairId>, ghost col0: Column)
      returns (nextCutoff': Cost, ghost order': seq<Visit>)
      requires 0 < frame < |activeToks| && graph.Valid() && pair !in done
      requires EmissionState(u, frame, prev, first, order, nextCutoff, col0)
      requires pair in prev.toks && prev.toks[pair] == tok && prev.cutoff == cutoff
      requires VisitedSoFar(graph, u, frame - 1, CostsAmong(prev.toks, prev.heap), prev.cutoff, order, done, pair, 0)
      modifies `heap, `toks, `activeToks, `numToks, `nextAddr, `pairOf
      ensures OnlyAddsTo(frame)
      ensures EmissionState(u, frame, prev, first, order', nextCutoff', col0)
      ensures TokensVisited(graph, u, frame - 1, CostsAmong(prev.toks, prev.heap), prev.cutoff, order', done + {pair})
    {
      hide Added, Emitting, Grows, VisitsDone, TokensVisited, VisitedSoFar, CutoffAfter, IsPair, Graph.Valid;
      AddedNothing(activeToks, numToks, frame);
      LeftTokenCost(graph, u, frame - 1, prev, Col(frame), pair);
      nextCutoff', order' := nextCutoff, order;
      if Fin(heap[tok].totCost).Le(cutoff) {
        nextCutoff', order' := FollowEmittingArcs(u, pair, frame, nextCutoff, prev, first, order, done, col0, tok);
      } else {
        VisitedToken(graph, u, frame - 1, CostsAmong(prev.toks, prev.heap), prev.cutoff, order, done, pair, 0);
      }
    }

    /** Leaves all tokens, in no particular order, tightening the next frame's cutoff on the way. */
    method LeaveTokens(u: Utterance, lastToks: map<PairId, Addr>, frame: nat, cutoff: Cost, first: Cost,
                       ghost prev: Previous, ghost col0: Column) returns (ghost order: seq<Visit>)
      requires 0 < frame < |activeToks| && graph.Valid() && prev.toks == lastToks && prev.cutoff == cutoff
      requires EmissionState(u, frame, prev, first, [], first, col0)
      modifies `heap, `toks, `activeToks, `numToks, `nextAddr, `pairOf
      ensures OnlyAddsTo(frame)
      ensures Emitting(graph, u, frame - 1, prev, Col(frame)) && Grows(col0, Col(frame)) && (toks == map[] ==> Col(frame) == col0)
      ensures VisitsDone(graph, u, frame - 1, prev, Col(frame), order, first, config.beam)
      ensures AllCameUp(graph, u, frame - 1, CostsAmong(prev.toks, prev.heap), prev.cutoff, order)
    {
      hide Added, Emitting, Grows, VisitsDone, TokensVisited, VisitedSoFar, AllCameUp, CutoffAfter, IsPair, Graph.Valid;
      AddedNothing(activeToks, numToks, frame);
      var nextCutoff := first;
      order := [];
      var elems := lastToks.Keys;
      assert lastToks.Keys - elems == {};
      NothingVisited(graph, u, frame - 1, CostsAmong(prev.toks, prev.heap), prev.cutoff);
      while elems != {}
        invariant elems <= lastToks.Keys && OnlyAddsTo(frame)
        invariant EmissionState(u, frame, prev, first, order, nextCutoff, col0)
        invariant TokensVisited(graph, u, frame - 1, CostsAmong(prev.toks, prev.heap), prev.cutoff, order, lastToks.Keys - elems)
      {
        var pair :| pair in elems;
        ghost var done := lastToks.Keys - elems;
        elems := elems - {pair};
        assert lastToks.Keys - elems == done + {pair};
        ghost var lists1, count1 := activeToks, numToks;
        NextToken(graph, u, frame - 1, CostsAmong(prev.toks, prev.heap), prev.cutoff, order, done, pair);
        nextCutoff, order := LeaveToken(u, pair, lastToks[pair], frame, cutoff, nextCutoff, prev, first, order, done, col0);
        AddedTransitive(old(activeToks), old(numToks), lists1, count1, activeToks, numToks, frame);
      }
      assert lastToks.Keys - elems == prev.toks.Keys;
      PreviousCosts(graph, u, frame - 1, prev, Col(frame));
      VisitedAll(graph, u, frame - 1, CostsAmong(prev.toks, prev.heap), prev.cutoff, order);
    }

    /** Leaves the tokens of the last frame for those of the next.  The cutoff and the adaptive beam are those that belong to
        their costs, and the first cutoff for the next frame is what a best token sets.  Extensions of tokens within the
        cutoff come up in some order; those under the running cutoff get their links, and there are no others. */
    method ProcessEmitting(u: Utterance, frame: nat)
      returns (ghost x: Crossing)
      requires 0 < frame < |activeToks| && activeToks[frame].toks == [] && graph.Valid() && config.Check()
      requires forall p :: p in toks ==> IsPair(graph, p) && toks[p] in heap && toks[p] in pairOf && pairOf[toks[p]] == p
      requires (forall a :: a in heap ==> a < nextAddr) && (forall a :: a in pairOf ==> a < nextAddr)
      modifies `heap, `toks, `activeToks, `numToks, `nextAddr, `pairOf
      ensures OnlyAddsTo(frame)
      ensures CutoffsAre(config, old(CostsOf(toks)), x.cutoff, x.adaptiveBeam) && x.margin == config.beam
      ensures EmissionDone(graph, u, frame - 1, Previous(old(toks), old(heap), x.cutoff), Col(frame), x)
      ensures Grows(Column(old(heap), map[], [], old(pairOf), old(nextAddr)), Col(frame))
      ensures toks == map[] ==> Col(frame) == Column(old(heap), map[], [], old(pairOf), old(nextAddr))
    {
      hide Added, Emitting, Grows, VisitsDone, AllCameUp, FirstCutoffIs, CutoffsAre, CutoffAfter, IsPair, Graph.Valid;
      var lastToks := toks;
      ghost var col0 := Column(heap, map[], [], pairOf, nextAddr);
      toks := map[];
      var cutoff, beam, nextCutoff := FrameCutoffs(u, frame, lastToks);
      CutoffUsable(config, CostsOf(lastToks), cutoff, beam);
      ghost var prev := Previous(lastToks, heap, cutoff);
      EmissionStarts(graph, u, frame - 1, prev, col0, nextCutoff, config.beam);
      assert Col(frame) == col0;
      NoVisitYet(nextCutoff, config.beam);
      ghost var order := LeaveTokens(u, lastToks, frame, cutoff, nextCutoff, prev, col0);
      x := Crossing(cutoff, beam, nextCutoff, config.beam, order, Inf);
    }

    // ----- pruning -----

    /** Excises a token's i-th link if it is beyond the lattice beam, and otherwise moves on to the next. */
    method PruneLink(tok: Addr, i: nat, best: Cost) returns (next: nat, tokExtraCost: Cost)
      requires tok in heap && i < |heap[tok].links| && heap[tok].links[i].nextTok in heap
      modifies `heap
      ensures var x := LinkExtra(old(heap), tok, old(heap)[tok].links[i]);
        if x.Le(Fin(config.latticeBeam)) then
          next == i + 1 && heap == old(heap) && tokExtraCost == (if Clamp(x).Lt(best) then Clamp(x) else best)
        else
          && next == i && tokExtraCost == best
          && heap == WithLinks(old(heap), tok, old(heap)[tok].links[..i] + old(heap)[tok].links[i + 1..])
    {
      var link := heap[tok].links[i];
      var linkExtraCost := heap[link.nextTok].extraCost.Plus(
        heap[tok].totCost + link.acousticCost + link.graphCost - heap[link.nextTok].totCost);
      next, tokExtraCost := i, best;
      if !linkExtraCost.Le(Fin(config.latticeBeam)) {
        heap := heap[tok := heap[tok].(links := heap[tok].links[..i] + heap[tok].links[i + 1..])];
      } else {
        if linkExtraCost.Lt(Fin(0)) {
          linkExtraCost := Fin(0);
        }
        if linkExtraCost.Lt(tokExtraCost) {
          tokExtraCost := linkExtraCost;
        }
        next := i + 1;
      }
    }

    /** Excises the links of a token that are beyond the lattice beam, in place. */
    method PruneLinks(tok: Addr, init: Cost) returns (tokExtraCost: Cost, linksPruned: bool)
      requires Live(heap) && tok in heap
      modifies `heap
      ensures heap == WithLinks(old(heap), tok, KeptLinks(old(heap), tok, old(heap)[tok].links, config.latticeBeam))
      ensures tokExtraCost == MinExtra(old(heap), tok, old(heap)[tok].links, config.latticeBeam, init)
      ensures if linksPruned then exists l :: l in old(heap)[tok].links && l !in heap[tok].links else heap == old(heap)
    {
      hide Scanning, KeptLinks, MinExtra, WithLinks, Live, Clamp;
      ghost var h0, k := heap, 0;
      PointedIn(heap, tok);
      tokExtraCost, linksPruned := init, false;
      var i: nat := 0;
      ScanStarts(heap, tok, config.latticeBeam, init);
      ScanGoesOn(h0, tok, config.latticeBeam, init, k, heap, i, tokExtraCost);
      while i < |heap[tok].links|
        invariant tok in heap && Scanning(h0, tok, config.latticeBeam, init, k, heap, i, tokExtraCost)
        invariant if linksPruned then exists l :: l in h0[tok].links && l !in KeptLinks(h0, tok, h0[tok].links, config.latticeBeam)
          else heap == h0
        decreases |h0[tok].links| - k
      {
        ScanGoesOn(h0, tok, config.latticeBeam, init, k, heap, i, tokExtraCost);
        ScanExcises(h0, tok, config.latticeBeam, init, k, heap, i, tokExtraCost);
        var next, best := PruneLink(tok, i, tokExtraCost);
        linksPruned := linksPruned || next == i;
        i, tokExtraCost, k := next, best, k + 1;
        ScanGoesOn(h0, tok, config.latticeBeam, init, k, heap, i, tokExtraCost);
      }
      ScanGoesOn(h0, tok, config.latticeBeam, init, k, heap, i, tokExtraCost);
      ScanEnds(h0, tok, config.latticeBeam, init, k, heap, i, tokExtraCost);
    }

    /** Prunes one token's links and recomputes its extraCost; changed says whether that moved by more than delta. */
    method VisitToken(tok: Addr, init: Cost, delta: nat) returns (changed: bool, linksPruned: bool)
      requires Live(heap) && tok in heap
      modifies `heap
      ensures heap == PruneToken(old(heap), tok, config.latticeBeam, init)
      ensures changed == !Within(heap[tok].extraCost, old(heap)[tok].extraCost, delta)
      ensures if linksPruned then LinkGone(old(heap), heap) else SameLinks(old(heap), heap)
    {
      hide KeptLinks, MinExtra;
      var tokExtraCost;
      tokExtraCost, linksPruned := PruneLinks(tok, init);
      if !tokExtraCost.Le(Fin(config.latticeBeam)) {
        tokExtraCost := Inf;
      }
      changed := !Within(tokExtraCost, heap[tok].extraCost, delta);
      heap := heap[tok := heap[tok].(extraCost := tokExtraCost)];
    }

    /** One pass over a frame's tokens. */
    method PrunePass(frame: nat, initial: Terminal, delta: nat, ghost term: Terminal) returns (changed: bool,
                     linksPruned: bool)
      requires frame < |activeToks| && Consistent(created, heap, term, config.latticeBeam)
      requires OnFrame(created, heap, frame, activeToks[frame].toks)
      requires forall a :: a in activeToks[frame].toks ==> Init(initial, a) == Init(term, a)
      modifies `heap
      ensures Consistent(created, heap, term, config.latticeBeam)
      ensures InPass(old(heap), heap, activeToks[frame].toks, |activeToks[frame].toks|, delta, changed)
      ensures !changed ==> VisitedOk(heap, activeToks[frame].toks, |activeToks[frame].toks|, delta, config.latticeBeam, term)
      ensures if linksPruned then LinkGone(old(heap), heap) else SameLinks(old(heap), heap)
    {
      hide InPass, VisitedOk, PrunedToken, PruneToken, Consistent, LinkGone, Raised;
      var list := activeToks[frame].toks;
      changed, linksPruned := false, false;
      PassStarts(created, heap, term, list, delta, config.latticeBeam);
      for i := 0 to |list|
        invariant Consistent(created, heap, term, config.latticeBeam)
        invariant InPass(old(heap), heap, list, i, delta, changed) && heap.Keys == old(heap).Keys
        invariant Live(heap) && (!changed ==> VisitedOk(heap, list, i, delta, config.latticeBeam, term))
        invariant if linksPruned then LinkGone(old(heap), heap) else SameLinks(old(heap), heap)
      {
        var tok := list[i];
        ghost var h1 := heap;
        PassRaised(created, old(heap), h1, list, i, delta, changed, term, config.latticeBeam);
        PassStep(created, old(heap), heap, list, i, delta, changed, term, config.latticeBeam);
        VisitKeepsConsistent(created, heap, tok, term, config.latticeBeam);
        if !changed {
          PassStepVisited(created, heap, list, i, delta, term, config.latticeBeam);
        }
        VisitKeys(created, heap, tok, term, config.latticeBeam);
        var tokChanged, tokPruned := VisitToken(tok, Init(initial, tok), delta);
        if linksPruned || tokPruned {
          GoneStays(old(heap), h1, heap);
        }
        changed, linksPruned := changed || tokChanged, linksPruned || tokPruned;
      }
    }

    /** Passes over a frame until one changes nothing: the links are not in topological order. */
    method PruneFrame(frame: nat, initial: Terminal, delta: nat, ghost term: Terminal)
      returns (extraCostsChanged: bool, linksPruned: bool)
      requires frame < |activeToks| && Consistent(created, heap, term, config.latticeBeam)
      requires OnFrame(created, heap, frame, activeToks[frame].toks)
      requires forall a :: a in activeToks[frame].toks ==> Init(initial, a) == Init(term, a)
      modifies `heap
      ensures Consistent(created, heap, term, config.latticeBeam)
      ensures RaisedOnly(old(heap), heap, activeToks[frame].toks)
      ensures ListPruned(heap, activeToks[frame].toks, delta, config.latticeBeam, term)
      ensures if extraCostsChanged then ExcessMoved(old(heap), heap, delta) else SameStatus(old(heap), heap)
      ensures if linksPruned then LinkGone(old(heap), heap) else SameLinks(old(heap), heap)
    {
      hide InPass, VisitedOk, Consistent, ListPruned, Headroom, LinkGone, ExcessMoved;
      ghost var list := activeToks[frame].toks;
      extraCostsChanged, linksPruned := false, false;
      var changed := true;
      PassesStart(created, heap, term, list, delta, config.latticeBeam);
      while changed
        invariant Consistent(created, heap, term, config.latticeBeam)
        invariant BetweenPasses(old(heap), heap, list, delta, changed, extraCostsChanged, linksPruned)
        invariant !changed ==> ListPruned(heap, list, delta, config.latticeBeam, term)
        decreases Headroom(heap, list, config.latticeBeam), changed
      {
        ghost var hp := heap;
        PassesStart(created, hp, term, list, delta, config.latticeBeam);
        var pruned;
        changed, pruned := PrunePass(frame, initial, delta, term);
        PassRaises(hp, heap, list, delta, changed);
        HeadroomFalls(hp, heap, list, config.latticeBeam);
        if changed {
          PassShrinksHeadroom(hp, heap, list, config.latticeBeam, delta);
        } else {
          PassesStart(created, heap, term, list, delta, config.latticeBeam);
          AllVisited(heap, list, delta, config.latticeBeam, term);
        }
        PassEnds(old(heap), hp, heap, list, delta, changed, extraCostsChanged, linksPruned, pruned);
        extraCostsChanged, linksPruned := extraCostsChanged || changed, linksPruned || pruned;
      }
    }

    /** Prunes the links of a frame's tokens. */
    method PruneForwardLinks(frame: nat, delta: nat, ghost term: Terminal) returns (extraCostsChanged: bool,
                             linksPruned: bool)
      requires frame < |activeToks| && Consistent(created, heap, term, config.latticeBeam)
      requires OnFrame(created, heap, frame, activeToks[frame].toks)
      requires forall a :: a in activeToks[frame].toks ==> a !in term
      modifies `heap, `warned
      ensures warned == (old(warned) || activeToks[frame].toks == [])
      ensures Consistent(created, heap, term, config.latticeBeam)
      ensures RaisedOnly(old(heap), heap, activeToks[frame].toks)
      ensures ListPruned(heap, activeToks[frame].toks, delta, config.latticeBeam, term)
      ensures if extraCostsChanged then ExcessMoved(old(heap), heap, delta) else SameStatus(old(heap), heap)
      ensures if linksPruned then LinkGone(old(heap), heap) else SameLinks(old(heap), heap)
    {
      hide Consistent, ListPruned, RaisedOnly, LinkGone, ExcessMoved;
      if activeToks[frame].toks == [] && !warned {
        warned := true;
      }
      extraCostsChanged, linksPruned := PruneFrame(frame, map[], delta, term);
    }

    /** Gives a token's memory back.  It may not own links any more: they would leak. */
    method DeleteToken(tok: Addr)
      requires tok in heap && heap[tok].links == []
      modifies `heap
      ensures heap == old(heap) - {tok}
    {
      heap := heap - {tok};
    }

    /** Frees a frame's tokens of infinite extraCost and takes them off the list. */
    method PruneTokensForFrame(frame: nat)
      requires frame < |activeToks| && Spent(heap)
      requires NoDuplicates(activeToks[frame].toks) && forall a :: a in activeToks[frame].toks ==> a in heap
      modifies `heap, `activeToks, `numToks
      ensures heap == WithoutSpent(old(heap), old(activeToks)[frame].toks)
      ensures activeToks == old(activeToks)[frame := old(activeToks)[frame].(toks := Survivors(old(heap), old(activeToks)[frame].toks))]
      ensures numToks - |activeToks[frame].toks| == old(numToks) - |old(activeToks)[frame].toks|
    {
      hide Freeing, Survivors, WithoutSpent;
      ghost var h0, list, k := heap, activeToks[frame].toks, 0;
      var toks, i: nat := activeToks[frame].toks, 0;
      FreeingStarts(h0, list);
      FreeingGoesOn(h0, list, k, heap, toks, i);
      while i < |toks|
        invariant activeToks == old(activeToks) && Freeing(h0, list, k, heap, toks, i)
        invariant k <= |list| && (i < |toks| <==> k < |list|)
        invariant numToks - |toks| == old(numToks) - |list|
        decreases |list| - k
      {
        FreeingGoesOn(h0, list, k, heap, toks, i);
        var tok := toks[i];
        if heap[tok].extraCost.Inf? {
          toks := toks[..i] + toks[i + 1..];
          DeleteToken(tok);
          numToks := numToks - 1;
        } else {
          i := i + 1;
        }
        k := k + 1;
        FreeingGoesOn(h0, list, k, heap, toks, i);
      }
      FreeingEnds(h0, list, heap, toks, i);
      activeToks := activeToks[frame := activeToks[frame].(toks := toks)];
    }

    /** What pruning towards frame n keeps. */
    ghost predicate Prunable(term: Terminal, n: nat)
      reads this
    {
      && n < |activeToks| && Consistent(created, heap, term, config.latticeBeam)
      && Listed(created, heap, activeToks, start, numToks)
      && Anchored(created, term, config.latticeBeam, start, n)
      && forall z :: z in term ==> z in created && created[z].frame == n
    }

    /** Prunes the links of a frame, if its flag asks for it, and marks what that makes necessary. */
    method PruneMarkedLinks(curFrame: nat, frame: nat, delta: nat, ghost term: Terminal)
      requires frame < curFrame && Prunable(term, curFrame) && Live(heap) && FlagsOk(heap, activeToks) && MarksOk(heap, activeToks)
      requires forall k: nat :: frame < k < curFrame ==> !activeToks[k].mustPruneForwardLinks
      modifies `heap, `activeToks, `warned
      ensures Prunable(term, curFrame) && Live(heap) && FlagsOk(heap, activeToks) && MarksOk(heap, activeToks) && warned == old(warned)
      ensures |activeToks| == old(|activeToks|) && activeToks[curFrame] == old(activeToks)[curFrame]
      ensures forall k: nat :: frame <= k < curFrame ==> !activeToks[k].mustPruneForwardLinks
      ensures forall k: nat :: frame < k < curFrame ==> activeToks[k] == old(activeToks)[k]
      ensures forall k: nat :: k < frame && old(activeToks)[k].mustPruneForwardLinks ==> activeToks[k].mustPruneForwardLinks
      ensures CellsKept(created, old(heap), heap, curFrame)
      ensures old(activeToks)[frame].mustPruneForwardLinks ==>
        ListPruned(heap, activeToks[frame].toks, delta, config.latticeBeam, map[])
      ensures forall k: nat :: frame < k < curFrame && ListPruned(old(heap), old(activeToks)[k].toks, delta, config.latticeBeam, map[]) ==>
        ListPruned(heap, activeToks[k].toks, delta, config.latticeBeam, map[])
    {
      hide Consistent, Listed, ListPruned, RaisedOnly, Anchored, FlagsOk, MarksOk, Live, CellsKept, Spent, LinkGone, ExcessMoved,
        SameLinks, SameStatus;
      if activeToks[frame].mustPruneForwardLinks {
        ghost var h0, lists := heap, activeToks;
        ListedFrame(created, heap, activeToks, start, numToks, frame);
        FrameAlive(created, heap, term, config.latticeBeam, start, curFrame, activeToks, frame);
        var extraCostsChanged, linksPruned := PruneForwardLinks(frame, delta, term);
        if extraCostsChanged && frame > 0 {
          activeToks := activeToks[frame - 1 := activeToks[frame - 1].(mustPruneForwardLinks := true)];
        }
        if linksPruned {
          activeToks := activeToks[frame := activeToks[frame].(mustPruneTokens := true)];
        }
        activeToks := activeToks[frame := activeToks[frame].(mustPruneForwardLinks := false)];
        assert activeToks == Marked(lists, frame, extraCostsChanged, linksPruned);
        hide Marked;
        MarkedFacts(lists, frame, extraCostsChanged, linksPruned);
        ConsistentParts(created, heap, term, config.latticeBeam);
        LinksPruned(created, h0, heap, lists, start, numToks, frame, curFrame, extraCostsChanged, linksPruned, delta, config.latticeBeam, term);
      } else {
        CellsKeptRefl(created, heap, curFrame);
      }
    }

    /** Frees the spent tokens of a frame whose links, like those of the frame before, have been pruned. */
    method FreeMarkedTokens(curFrame: nat, frame: nat, ghost term: Terminal)
      requires 0 < frame < curFrame && Prunable(term, curFrame) && Live(heap) && FlagsOk(heap, activeToks) && MarksOk(heap, activeToks)
      requires !activeToks[frame].mustPruneForwardLinks && !activeToks[frame - 1].mustPruneForwardLinks
      modifies `heap, `activeToks, `numToks
      ensures Prunable(term, curFrame) && Live(heap) && FlagsOk(heap, activeToks) && MarksOk(heap, activeToks)
      ensures |activeToks| == old(|activeToks|) && activeToks[curFrame] == old(activeToks)[curFrame]
      ensures forall k: nat :: k < curFrame ==> activeToks[k].mustPruneForwardLinks == old(activeToks)[k].mustPruneForwardLinks
      ensures forall k: nat :: k < curFrame && k != frame ==> activeToks[k] == old(activeToks)[k]
      ensures !activeToks[frame].mustPruneTokens
      ensures CellsKept(created, old(heap), heap, curFrame)
      ensures forall k: nat, delta: nat :: k < curFrame && ListPruned(old(heap), old(activeToks)[k].toks, delta, config.latticeBeam, map[]) ==>
        ListPruned(heap, activeToks[k].toks, delta, config.latticeBeam, map[])
    {
      hide Consistent, Listed, Anchored, FlagsOk, MarksOk, Live, CellsKept, Survivors, WithoutSpent, NoDead, LeadsOn,
        Spent,
        ListPruned;
      ghost var h0, lists, count := heap, activeToks, numToks;
      ListedFrame(created, heap, activeToks, start, numToks, frame);
      ConsistentParts(created, heap, term, config.latticeBeam);
      FlagsNoDead(heap, activeToks, frame);
      FlagsNoDead(heap, activeToks, frame - 1);
      PruneTokensForFrame(frame);
      activeToks := activeToks[frame := activeToks[frame].(mustPruneTokens := false)];
      TokensFreed(created, h0, lists, activeToks, start, count, numToks, frame, curFrame, config.latticeBeam, term);
      ConsistentParts(created, heap, term, config.latticeBeam);
      FreedFlagsOk(created, h0, lists, activeToks, frame);
      FreedMarksOk(created, h0, lists, activeToks, frame);
      forall k: nat, delta: nat | k < curFrame && ListPruned(h0, lists[k].toks, delta, config.latticeBeam, map[])
        ensures ListPruned(heap, activeToks[k].toks, delta, config.latticeBeam, map[])
      {
        ListedFrame(created, heap, activeToks, start, numToks, k);
        SurvivorsOnly(h0, lists[frame].toks);
        PrunedStaysFreed(h0, lists[frame].toks, lists[k].toks, activeToks[k].toks, delta, config.latticeBeam);
      }
    }

    /** Goes backwards through the finished frames, where the flags ask for it.  Afterwards every token
        between the first frame and the current one leads on. */
    method PruneActiveTokens(curFrame: nat, delta: nat, ghost term: Terminal)
      requires curFrame < |activeToks| && Prunable(term, curFrame) && Live(heap) && FlagsOk(heap, activeToks) && MarksOk(heap, activeToks)
      modifies `heap, `activeToks, `numToks, `warned
      ensures Prunable(term, curFrame) && Live(heap) && FlagsOk(heap, activeToks) && MarksOk(heap, activeToks) && warned == old(warned)
      ensures |activeToks| == old(|activeToks|) && activeToks[curFrame] == old(activeToks)[curFrame]
      ensures forall k: nat :: k < curFrame ==> !activeToks[k].mustPruneForwardLinks
      ensures CellsKept(created, old(heap), heap, curFrame) && Clean(heap, activeToks, curFrame)
      ensures forall k: nat :: k < curFrame && old(activeToks)[k].mustPruneForwardLinks ==>
        ListPruned(heap, activeToks[k].toks, delta, config.latticeBeam, map[])
    {
      hide Prunable, FlagsOk, MarksOk, Live, CellsKept, Clean, ListPruned;
      CellsKeptRefl(created, heap, curFrame);
      var frame := curFrame - 1;
      while frame >= 0
        invariant -1 <= frame < curFrame < |activeToks| == old(|activeToks|) && warned == old(warned)
        invariant Prunable(term, curFrame) && Live(heap) && FlagsOk(heap, activeToks) && MarksOk(heap, activeToks)
        invariant activeToks[curFrame] == old(activeToks)[curFrame]
        invariant forall k: nat :: frame < k < curFrame ==> !activeToks[k].mustPruneForwardLinks
        invariant forall k: nat :: frame + 1 < k < curFrame ==> !activeToks[k].mustPruneTokens
        invariant forall k: nat :: k <= frame && old(activeToks)[k].mustPruneForwardLinks ==> activeToks[k].mustPruneForwardLinks
        invariant forall k: nat :: frame < k < curFrame && old(activeToks)[k].mustPruneForwardLinks ==>
          ListPruned(heap, activeToks[k].toks, delta, config.latticeBeam, map[])
        invariant CellsKept(created, old(heap), heap, curFrame)
      {
        ghost var h1 := heap;
        PruneMarkedLinks(curFrame, frame, delta, term);
        CellsKeptTransitive(created, old(heap), h1, heap, curFrame);
        if frame + 1 < curFrame && activeToks[frame + 1].mustPruneTokens {
          ghost var h2 := heap;
          FreeMarkedTokens(curFrame, frame + 1, term);
          CellsKeptTransitive(created, old(heap), h2, heap, curFrame);
        }
        frame := frame - 1;
      }
      MarksClean(heap, activeToks, curFrame);
    }

    // ----- pruning at the end -----

    /** Takes the last tokens out of the hash, with their final costs, and finds the best of them with and without those. */
    method ScanFinalCosts() returns (tokToFinalCost: map<Addr, Cost>, bestFinal: Cost, bestNofinal: Cost)
      requires graph.Valid() && forall p :: p in toks ==> IsPair(graph, p) && toks[p] in heap
      requires forall p, q :: p in toks && q in toks && toks[p] == toks[q] ==> p == q
      modifies `toks
      ensures toks == map[]
      ensures FinalTable(graph, old(toks), old(toks).Keys, tokToFinalCost)
      ensures LeastOver(bestFinal, old(toks).Keys, CompleteCosts(graph, heap, old(toks), true))
      ensures LeastOver(bestNofinal, old(toks).Keys, CompleteCosts(graph, heap, old(toks), false))
    {
      hide PairFinal, IsPair, FinalTable, LeastOver, CompleteCosts;
      var curToks := toks;
      toks := map[];
      tokToFinalCost, bestFinal, bestNofinal := map[], Inf, Inf;
      var elems := curToks.Keys;
      ghost var scanned := {};
      FinalScanStarts(graph, heap, curToks);
      while elems != {}
        invariant toks == map[] && elems <= curToks.Keys && scanned == curToks.Keys - elems
        invariant FinalTable(graph, curToks, scanned, tokToFinalCost)
        invariant LeastOver(bestFinal, scanned, CompleteCosts(graph, heap, curToks, true))
        invariant LeastOver(bestNofinal, scanned, CompleteCosts(graph, heap, curToks, false))
      {
        var pair :| pair in elems;
        var tok := curToks[pair];
        var finalCost := PairFinal(graph, pair);
        LeastStep(bestFinal, scanned, CompleteCosts(graph, heap, curToks, true), pair);
        LeastStep(bestNofinal, scanned, CompleteCosts(graph, heap, curToks, false), pair);
        TableStep(graph, curToks, scanned, tokToFinalCost, pair);
        elems := elems - {pair};
        scanned := scanned + {pair};
        tokToFinalCost := tokToFinalCost[tok := finalCost];
        bestFinal := bestFinal.Min(Fin(heap[tok].totCost).Add(finalCost));
        bestNofinal := bestNofinal.Min(Fin(heap[tok].totCost));
      }
      assert scanned == curToks.Keys;
    }

    /** Puts the final costs of the surviving tokens where GetRawLattice finds them. */
    method CollectFinalCosts(frame: nat, tokToFinalCost: map<Addr, Cost>, ghost finals: map<Addr, Cost>)
      requires frame < |activeToks| && forall a :: a in activeToks[frame].toks ==> a in heap && a in tokToFinalCost
      requires finals.Keys == tokToFinalCost.Keys
      requires forall a :: a in finals ==> finals[a] == if finalActive then tokToFinalCost[a] else Fin(0)
      requires forall a :: a in finals && a in heap ==> a in activeToks[frame].toks
      requires finalCosts == map[]
      modifies `finalCosts
      ensures finalCosts == FinalCosts(heap, finals)
    {
      var list := activeToks[frame].toks;
      for i := 0 to |list|
        invariant forall a :: a in finalCosts <==> a in list[..i] && heap[a].extraCost.Fin? && finals[a].Fin?
        invariant forall a :: a in finalCosts ==> finalCosts[a] == finals[a].value
      {
        var tok := list[i];
        assert list[..i + 1] == list[..i] + [tok];
        if heap[tok].extraCost.Fin? {
          if finalActive {
            if tokToFinalCost[tok].Fin? {
              finalCosts := finalCosts[tok := tokToFinalCost[tok].value];
            }
          } else {
            finalCosts := finalCosts[tok := 0];
          }
        }
      }
      assert list[..|list|] == list;
    }

    /** Decides on the final costs: if a final token is there they count; if not, every token
        counts as final.  Each token starts from its own distance from the best. */
    method DecideFinals(frame: nat) returns (tokToFinalCost: map<Addr, Cost>, initial: Terminal)
      requires OpenFront(graph, created, heap, frame, toks, config.latticeBeam)
      modifies `toks, `finalActive, `best
      ensures toks == map[] && graph.Valid() && FinalsDecided(graph, created, frame, best, finalActive)
      ensures Consistent(created, heap, FinalTerminal(graph, created, frame, best), config.latticeBeam)
      ensures FinalsOf(graph, created, frame).Keys == tokToFinalCost.Keys
      ensures forall a :: a in tokToFinalCost ==> FinalsOf(graph, created, frame)[a] == if finalActive then tokToFinalCost[a] else Fin(0)
      ensures forall a :: a in tokToFinalCost <==> a in created && created[a].frame == frame
      ensures forall a :: a in tokToFinalCost ==> Init(initial, a) == Init(FinalTerminal(graph, created, frame, best), a)
    {
      hide OpenFront, FinalsDecided, Consistent, LeastOver, FinalTable, IsPair, CompleteCosts, FinalTerminal, FinalsOf,
        Graph.Valid;
      ghost var front := toks;
      OpenFrontPairs(graph, created, heap, frame, front, config.latticeBeam);
      var bestFinal, bestNofinal;
      tokToFinalCost, bestFinal, bestNofinal := ScanFinalCosts();
      CloseFront(graph, created, heap, frame, front, tokToFinalCost, bestFinal, bestNofinal, config.latticeBeam);
      finalActive := bestFinal.Fin?;
      var bestCost := if finalActive then bestFinal.value else bestNofinal.value;
      best := bestCost;
      FinalsMatchTable(graph, created, heap, frame, front, tokToFinalCost, config.latticeBeam, best, finalActive);
      initial := map tok | tok in tokToFinalCost ::
        (if finalActive then tokToFinalCost[tok] else Fin(0)).Plus(heap[tok].totCost - bestCost);
    }

    /** Prunes the links of the last frame. */
    method PruneForwardLinksFinal(frame: nat)
      requires frame < |activeToks| && finalCosts == map[] && OpenFront(graph, created, heap, frame, toks, config.latticeBeam)
      requires OnFrame(created, heap, frame, activeToks[frame].toks)
      modifies `toks, `heap, `finalActive, `finalCosts, `best
      ensures toks == map[] && graph.Valid() && FinalsDecided(graph, created, frame, best, finalActive)
      ensures Consistent(created, heap, FinalTerminal(graph, created, frame, best), config.latticeBeam)
      ensures RaisedOnly(old(heap), heap, activeToks[frame].toks)
      ensures ListPruned(heap, activeToks[frame].toks, 0, config.latticeBeam, FinalTerminal(graph, created, frame, best))
      ensures finalCosts == FinalCosts(heap, FinalsOf(graph, created, frame))
    {
      hide OpenFront, FinalsDecided, Consistent, ListPruned, FinalCosts, FinalTerminal, FinalsOf, Graph.Valid;
      var tokToFinalCost, initial := DecideFinals(frame);
      var _, _ := PruneFrame(frame, initial, 0, FinalTerminal(graph, created, frame, best));
      CollectFinalCosts(frame, tokToFinalCost, FinalsOf(graph, created, frame));
    }

    /** Where the final sweep is: tokens after frame k are settled, and after frame j none is spent. */
    ghost predicate Sweeping(n: nat, k: int, j: int)
      reads this
    {
      && |activeToks| == n + 1 && graph.Valid() && FinalsDecided(graph, created, n, best, finalActive)
      && Prunable(FinalTerminal(graph, created, n, best), n)
      && SettledAfter(created, heap, FinalTerminal(graph, created, n, best), config.latticeBeam, k)
      && NoneSpentAfter(created, heap, j)
      && finalCosts == FinalCosts(heap, FinalsOf(graph, created, n))
    }

    /** Prunes the links of a frame whose successors have been dealt with. */
    method SweepFrameLinks(n: nat, frame: nat)
      requires frame < n && Sweeping(n, frame, frame + 1)
      modifies `heap, `warned
      ensures Sweeping(n, frame - 1, frame + 1) && warned == old(warned)
    {
      hide Consistent, Listed, Anchored, FinalsDecided, SettledAfter, NoneSpentAfter, FinalCosts, FinalsOf,
        FinalTerminal,
        ListPruned, Graph.Valid, RaisedOnly;
      ghost var term, h0 := FinalTerminal(graph, created, n, best), heap;
      ListedFrame(created, heap, activeToks, start, numToks, frame);
      FrameAlive(created, heap, term, config.latticeBeam, start, n, activeToks, frame);
      ConsistentParts(created, heap, term, config.latticeBeam);
      var _, _ := PruneForwardLinks(frame, 0, term);
      SweepLinks(created, h0, heap, activeToks, term, config.latticeBeam, frame);
      RaisedOnlyRaises(h0, heap, activeToks[frame].toks);
      ListedRaised(created, h0, heap, activeToks, start, numToks);
      CellsKeptRaised(created, h0, heap, activeToks, frame, n);
      FinalCostsRaised(graph, created, h0, heap, n);
    }

    /** Frees the spent tokens of a frame. */
    method SweepFrameTokens(n: nat, frame: nat, ghost k: int)
      requires frame <= n && (k == frame - 2 || (k == frame - 1 && frame == 0)) && Sweeping(n, k, frame)
      modifies `heap, `activeToks, `numToks
      ensures Sweeping(n, k, frame - 1)
    {
      hide Consistent, Listed, Anchored, FinalsDecided, SettledAfter, NoneSpentAfter, FinalCosts, FinalsOf,
        FinalTerminal,
        Graph.Valid, Survivors, WithoutSpent, NoDead;
      ghost var term, h0, lists, count := FinalTerminal(graph, created, n, best), heap, activeToks, numToks;
      ListedFrame(created, heap, activeToks, start, numToks, frame);
      ConsistentParts(created, heap, term, config.latticeBeam);
      SettledList(created, heap, activeToks, term, config.latticeBeam, frame, k);
      if frame > 0 {
        SettledList(created, heap, activeToks, term, config.latticeBeam, frame - 1, k);
      }
      PruneTokensForFrame(frame);
      TokensFreed(created, h0, lists, activeToks, start, count, numToks, frame, n, config.latticeBeam, term);
      ConsistentParts(created, heap, term, config.latticeBeam);
      SweepTokens(created, h0, lists, term, config.latticeBeam, frame, k);
      FinalCostsFreed(h0, lists[frame].toks, FinalsOf(graph, created, n));
    }

    /** Prunes the last frame: the sweep can begin. */
    method StartSweep(curFrame: nat)
      requires |activeToks| == curFrame + 1 && finalCosts == map[]
      requires OpenFront(graph, created, heap, curFrame, toks, config.latticeBeam)
      requires Listed(created, heap, activeToks, start, numToks)
      requires WellFormed(created) && Tight(created, start) && start in created && created[start].frame == 0
      requires forall a :: a in created ==> created[a].frame <= curFrame
      modifies `toks, `heap, `finalActive, `finalCosts, `best
      ensures toks == map[] && Sweeping(curFrame, curFrame - 1, curFrame)
    {
      hide OpenFront, Listed, FinalsDecided, Consistent, ListPruned, FinalCosts, FinalTerminal, FinalsOf, Graph.Valid,
        Tight,
        WellFormed, RaisedOnly, SettledAfter, NoneSpentAfter;
      ghost var h0, list := heap, activeToks[curFrame].toks;
      ListedFrame(created, heap, activeToks, start, numToks, curFrame);
      PruneForwardLinksFinal(curFrame);
      ghost var term := FinalTerminal(graph, created, curFrame, best);
      DecidedAnchored(graph, created, curFrame, start, best, finalActive, config.latticeBeam);
      RaisedOnlyRaises(h0, heap, list);
      ListedRaised(created, h0, heap, activeToks, start, numToks);
      ListedFrame(created, heap, activeToks, start, numToks, curFrame);
      ConsistentParts(created, heap, term, config.latticeBeam);
      SweepStarts(created, heap, activeToks, term, config.latticeBeam, curFrame);
    }

    /** Prunes the last frame, and then all others in one sweep backwards. */
    method PruneActiveTokensFinal(curFrame: nat)
      requires |activeToks| == curFrame + 1 && finalCosts == map[]
      requires OpenFront(graph, created, heap, curFrame, toks, config.latticeBeam)
      requires Listed(created, heap, activeToks, start, numToks)
      requires WellFormed(created) && Tight(created, start) && start in created && created[start].frame == 0
      requires forall a :: a in created ==> created[a].frame <= curFrame
      modifies `toks, `heap, `activeToks, `numToks, `finalActive, `finalCosts, `best, `warned
      ensures toks == map[] && warned == old(warned) && Sweeping(curFrame, -1, -1)
      ensures Live(heap) && Finished(heap, FinalTerminal(graph, created, curFrame, best), config.latticeBeam)
    {
      hide OpenFront, Listed, FinalsDecided, Consistent, FinalCosts, FinalTerminal, FinalsOf, Graph.Valid, Tight,
        WellFormed,
        Finished, SettledAfter, NoneSpentAfter;
      StartSweep(curFrame);
      var frame := curFrame - 1;
      while frame >= 0
        invariant -1 <= frame < curFrame && Sweeping(curFrame, frame, frame + 1) && toks == map[] && warned == old(warned)
      {
        SweepFrameLinks(curFrame, frame);
        SweepFrameTokens(curFrame, frame + 1, frame - 1);
        frame := frame - 1;
      }
      SweepFrameTokens(curFrame, 0, -1);
      ConsistentParts(created, heap, FinalTerminal(graph, created, curFrame, best), config.latticeBeam);
      SweepEnds(created, heap, FinalTerminal(graph, created, curFrame, best), config.latticeBeam);
    }

    // ----- decoding -----

    ghost function Now(): Snapshot
      reads this
    {
      Snapshot(created, heap, toks, activeToks, numToks, pairOf, nextAddr, start)
    }

    /** What holds between two frames, n frames in. */
    ghost predicate Decoding(u: Utterance, n: nat)
      reads this
    {
      && graph.Valid() && config.Check() && Feasible(graph, potential) && queue == [] && !warned && finalCosts == map[]
      && GoodSnapshot(graph, u, n, config.latticeBeam, Now())
      && Searched(graph, u, config, created, n, layers, crossings)
      && BeamFollowed(graph, u, created, start, n, layers, crossings)
      && LinksExplored(graph, u, created, layers, crossings)
    }

    /** Begins an empty list and fills it along emitting arcs. */
    method EmitFrame(u: Utterance, n: nat) returns (ghost x: Crossing)
      requires graph.Valid() && config.Check() && |activeToks| == n + 1
      requires forall p :: p in toks ==> IsPair(graph, p) && toks[p] in heap && toks[p] in pairOf && pairOf[toks[p]] == p
      requires (forall a :: a in heap ==> a < nextAddr) && (forall a :: a in pairOf ==> a < nextAddr)
      modifies `heap, `toks, `activeToks, `numToks, `nextAddr, `pairOf
      ensures |activeToks| == n + 2
      ensures Added(old(activeToks) + [TokenList([], true, true)], old(numToks), activeToks, numToks, n + 1)
      ensures CutoffsAre(config, old(CostsOf(toks)), x.cutoff, x.adaptiveBeam) && x.margin == config.beam
      ensures EmissionDone(graph, u, n, Previous(old(toks), old(heap), x.cutoff), Col(n + 1), x)
      ensures Grows(Column(old(heap), map[], [], old(pairOf), old(nextAddr)), Col(n + 1))
      ensures toks == map[] ==> Col(n + 1) == Column(old(heap), map[], [], old(pairOf), old(nextAddr))
      ensures ColumnOk(graph, Col(n + 1)) && forall p :: p in toks ==> heap[toks[p]].links == []
      ensures CostsOf(toks) == EntryCosts(Col(n + 1))
    {
      hide Added, Emitting, Grows, EmissionDone, CutoffsAre, ColumnOk, Graph.Valid, IsPair, PreviousOk, EntryCosts;
      activeToks := activeToks + [TokenList([], true, true)];
      x := ProcessEmitting(u, n + 1);
      ghost var prev, col := Previous(old(toks), old(heap), x.cutoff), Col(n + 1);
      EmissionIs(graph, u, n, prev, col, x);
      EmissionEnds(graph, u, n, prev, col);
      SameCosts(col);
    }

    /** Fills the rest of the list along epsilon arcs. */
    method CloseFrame(u: Utterance, n: nat, ghost s: Snapshot, ghost x: Crossing) returns (ok: bool, ghost f: NewFrame)
      requires graph.Valid() && Feasible(graph, potential) && queue == [] && !warned && |activeToks| == n + 2 && |s.lists| == n + 1
      requires Added(s.lists + [TokenList([], true, true)], s.numToks, activeToks, numToks, n + 1)
      requires EmissionDone(graph, u, n, Previous(s.toks, s.heap, x.cutoff), Col(n + 1), x)
      requires Grows(Column(s.heap, map[], [], s.pairOf, s.next), Col(n + 1))
      requires ColumnOk(graph, Col(n + 1)) && forall p :: p in toks ==> heap[toks[p]].links == []
      requires CostsOf(toks) == EntryCosts(Col(n + 1))
      modifies `heap, `toks, `activeToks, `numToks, `nextAddr, `pairOf, `queue
      ensures queue == [] && |activeToks| == n + 2
      ensures activeToks == s.lists + [TokenList(activeToks[n + 1].toks, true, true)]
      ensures numToks == s.numToks + |activeToks[n + 1].toks|
      ensures f.n == n && f.prev == Previous(s.toks, s.heap, x.cutoff) && f.col1 == old(Col(n + 1)) && f.col2 == Col(n + 1)
      ensures EpsilonCutoffIs(config, EntryCosts(f.col1), f.cutoff)
      ensures ok <==> old(toks) != map[]
      ensures ok ==> FrameMade(graph, u, s, f)
      ensures !ok ==> Col(n + 1) == old(Col(n + 1))
    {
      hide Added, FrameMade, Emitting, Grows, EmissionDone, CutoffsAre, ColumnOk, Closed, OutsideKept, Feasible, NoExtension,
        Graph.Valid, IsPair, EpsilonCutoffIs, EntryCosts, InnerFrame;
      ghost var lists, count, col1 := activeToks, numToks, Col(n + 1);
      ghost var prev, epsilonCutoff := Previous(s.toks, s.heap, x.cutoff), Inf;
      ok, epsilonCutoff := ProcessNonemitting(n + 1);
      AddedTransitive(s.lists + [TokenList([], true, true)], s.numToks, lists, count, activeToks, numToks, n + 1);
      AddedToNew(s.lists, s.numToks, activeToks, numToks);
      f := NewFrame(n, prev, Column(s.heap, map[], [], s.pairOf, s.next), col1, Col(n + 1), epsilonCutoff);
      if ok {
        InnerIs(f, Frame(n + 1, col1, Col(n + 1), epsilonCutoff));
        EmissionIs(graph, u, n, prev, col1, x);
        MakeFrame(graph, u, s, f);
      }
    }

    /** Makes the next frame's tokens: along emitting arcs, then along epsilon arcs.  It fails exactly if no token
        within the cutoff has an emitting arc of finite cost, and then changes nothing but to begin an empty list. */
    method ReachFrame(u: Utterance, n: nat) returns (ok: bool, ghost f: NewFrame, ghost x: Crossing)
      requires graph.Valid() && config.Check() && Feasible(graph, potential) && queue == [] && !warned && |activeToks| == n + 1
      requires forall p :: p in toks ==> IsPair(graph, p) && toks[p] in heap && toks[p] in pairOf && pairOf[toks[p]] == p
      requires (forall a :: a in heap ==> a < nextAddr) && (forall a :: a in pairOf ==> a < nextAddr)
      modifies `heap, `toks, `activeToks, `numToks, `nextAddr, `pairOf, `queue
      ensures queue == [] && f.n == n && f.prev == Previous(old(toks), old(heap), x.cutoff)
      ensures CutoffsAre(config, old(CostsOf(toks)), x.cutoff, x.adaptiveBeam)
      ensures ok <==> !NoExtension(graph, u, n, f.prev)
      ensures |activeToks| == n + 2 && activeToks == old(activeToks) + [TokenList(activeToks[n + 1].toks, true, true)]
      ensures numToks == old(numToks) + |activeToks[n + 1].toks|
      ensures ok ==> f.col2 == Col(n + 1) && FrameMade(graph, u, old(Now()), f)
      ensures ok ==> EmissionDone(graph, u, n, f.prev, f.col1, x) && x.margin == config.beam
      ensures ok ==> EpsilonCutoffIs(config, EntryCosts(f.col1), f.cutoff)
      ensures !ok ==> Col(n + 1) == Column(old(heap), map[], [], old(pairOf), old(nextAddr))
    {
      hide Added, FrameMade, Emitting, Grows, EmissionDone, CutoffsAre, ColumnOk, Feasible, NoExtension, Graph.Valid, IsPair,
        EpsilonCutoffIs, EntryCosts, CostsAmong, CostsOf;
      ghost var s := Now();
      x := EmitFrame(u, n);
      Emits(graph, u, n, Previous(s.toks, s.heap, x.cutoff), Col(n + 1), x);
      ok, f := CloseFrame(u, n, s, x);
    }

    /** One more frame: what it explores is on record.  It fails exactly if no token within the cutoff has an
        emitting arc of finite cost. */
    method AdvanceFrame(u: Utterance, n: nat) returns (ok: bool, ghost x: Crossing)
      requires Decoding(u, n)
      modifies `heap, `toks, `activeToks, `numToks, `nextAddr, `pairOf, `queue, `created, `layers, `crossings, `front
      ensures queue == [] && front == old(toks) && CutoffsAre(config, old(CostsOf(toks)), x.cutoff, x.adaptiveBeam)
      ensures ok <==> !NoExtension(graph, u, n, Previous(old(toks), old(heap), x.cutoff))
      ensures ok ==> Decoding(u, n + 1) && Extends(old(created), created, n) && NothingPruned(old(heap), heap)
      ensures ok ==> |activeToks| == n + 2 && activeToks[..n + 1] == old(activeToks)
      ensures ok ==> old(layers) < layers && crossings == old(crossings) + [x]
      ensures !ok ==> toks == map[] && activeToks == old(activeToks) + [TokenList([], true, true)] && heap == old(heap)
      ensures !ok ==> numToks == old(numToks) && nextAddr == old(nextAddr) && pairOf == old(pairOf)
      ensures !ok ==> created == old(created) && layers == old(layers) && crossings == old(crossings)
    {
      hide Decoding, FrameMade, GoodSnapshot, BeamFollowed, LinksExplored, Searched, EmissionDone, CutoffsAre, NoExtension, Feasible,
        Graph.Valid,
        NextCreated, Extends, IsPair, EpsilonCutoffIs, EntryCosts, CostsAmong, LayerOf, NextSnapshot, NothingPruned;
      ghost var s := Now();
      ReadyToAdvance(u, n);
      front := toks;
      ghost var f;
      ok, f, x := ReachFrame(u, n);
      if ok {
        FrameKeeps(graph, u, s, f);
        x := RecordFrame(u, s, f, x);
      }
    }

    /** A frame that has been reached goes on record. */
    ghost method RecordFrame(u: Utterance, s: Snapshot, f: NewFrame, x0: Crossing) returns (x: Crossing)
      requires graph.Valid() && config.Check() && Feasible(graph, potential) && queue == [] && !warned && finalCosts == map[]
      requires GoodSnapshot(graph, u, f.n, config.latticeBeam, s) && FrameMade(graph, u, s, f) && s.created == created && s.start == start
      requires |activeToks| == f.n + 2 && activeToks == s.lists + [TokenList(activeToks[f.n + 1].toks, true, true)]
      requires numToks == s.numToks + |activeToks[f.n + 1].toks| && f.col2 == Col(f.n + 1)
      requires Searched(graph, u, config, created, f.n, layers, crossings) && BeamFollowed(graph, u, created, start, f.n, layers, crossings)
      requires LinksExplored(graph, u, created, layers, crossings)
      requires CutoffsAre(config, CostsAmong(f.prev.toks, f.prev.heap), f.prev.cutoff, x0.adaptiveBeam)
      requires EmissionDone(graph, u, f.n, f.prev, f.col1, x0) && x0.margin == config.beam
      requires EpsilonCutoffIs(config, EntryCosts(f.col1), f.cutoff)
      modifies `created, `layers, `crossings
      ensures Decoding(u, f.n + 1) && Extends(old(created), created, f.n)
      ensures old(layers) < layers && crossings == old(crossings) + [x] && x == x0.(limit := x.limit)
    {
      hide Decoding, FrameMade, GoodSnapshot, BeamFollowed, LinksExplored, Searched, EmissionDone, CutoffsAre, Feasible, Graph.Valid,
        NextCreated,
        Extends, EpsilonCutoffIs, EntryCosts, CostsAmong, LayerOf, NextSnapshot;
      x := FrameAdded(u, s, f, activeToks[f.n + 1], layers, crossings, x0);
      created := NextCreated(created, f);
      layers, crossings := layers + [LayerOf(f)], crossings + [x];
      StillDecoding(u, s, f, activeToks[f.n + 1]);
    }

    lemma ReadyToAdvance(u: Utterance, n: nat)
      requires Decoding(u, n)
      ensures graph.Valid() && config.Check() && Feasible(graph, potential) && queue == [] && !warned && |activeToks| == n + 1
      ensures finalCosts == map[] && GoodSnapshot(graph, u, n, config.latticeBeam, Now())
      ensures Now() == Snapshot(created, heap, toks, activeToks, numToks, pairOf, nextAddr, start)
      ensures Searched(graph, u, config, created, n, layers, crossings) && BeamFollowed(graph, u, created, start, n, layers, crossings)
      ensures LinksExplored(graph, u, created, layers, crossings)
      ensures forall p :: p in toks ==> IsPair(graph, p) && toks[p] in heap && toks[p] in pairOf && pairOf[toks[p]] == p
      ensures (forall a :: a in heap ==> a < nextAddr) && (forall a :: a in pairOf ==> a < nextAddr)
    {
      hide GoodSnapshot, Searched, BeamFollowed, LinksExplored, Feasible, Graph.Valid, IsPair;
      GoodForEmitting(graph, u, n, config.latticeBeam, Now());
    }

    lemma StillDecoding(u: Utterance, s: Snapshot, f: NewFrame, list: TokenList)
      requires graph.Valid() && config.Check() && Feasible(graph, potential) && queue == [] && !warned && finalCosts == map[]
      requires GoodSnapshot(graph, u, f.n + 1, config.latticeBeam, NextSnapshot(s, f, list))
      requires created == NextCreated(s.created, f) && f.col2 == Column(heap, toks, list.toks, pairOf, nextAddr)
      requires activeToks == s.lists + [list] && numToks == s.numToks + |list.toks| && start == s.start
      requires Searched(graph, u, config, created, f.n + 1, layers, crossings)
      requires BeamFollowed(graph, u, created, start, f.n + 1, layers, crossings)
      requires LinksExplored(graph, u, created, layers, crossings)
      ensures Decoding(u, f.n + 1)
    {
      hide GoodSnapshot, Searched, BeamFollowed, LinksExplored, Feasible, Graph.Valid, NextCreated;
      assert Now() == NextSnapshot(s, f, list);
    }

    /** What a frame has explored goes on record, and everything still holds. */
    lemma FrameAdded(u: Utterance, s: Snapshot, f: NewFrame, list: TokenList, layers: seq<Layer>,
                     crossings: seq<Crossing>, x0: Crossing)
      returns (x: Crossing)
      requires GoodSnapshot(graph, u, f.n, config.latticeBeam, s) && FrameMade(graph, u, s, f)
      requires list.toks == f.col2.list && list.mustPruneForwardLinks && list.mustPruneTokens
      requires Searched(graph, u, config, s.created, f.n, layers, crossings) && BeamFollowed(graph, u, s.created, s.start, f.n, layers, crossings)
      requires LinksExplored(graph, u, s.created, layers, crossings)
      requires CutoffsAre(config, CostsAmong(f.prev.toks, f.prev.heap), f.prev.cutoff, x0.adaptiveBeam)
      requires EmissionDone(graph, u, f.n, f.prev, f.col1, x0) && x0.margin == config.beam
      requires EpsilonCutoffIs(config, EntryCosts(f.col1), f.cutoff)
      ensures GoodSnapshot(graph, u, f.n + 1, config.latticeBeam, NextSnapshot(s, f, list))
      ensures Extends(s.created, NextCreated(s.created, f), f.n)
      ensures |layers| == f.n + 1 && |crossings| == f.n && x == x0.(limit := x.limit)
      ensures Searched(graph, u, config, NextCreated(s.created, f), f.n + 1, layers + [LayerOf(f)], crossings + [x])
      ensures BeamFollowed(graph, u, NextCreated(s.created, f), s.start, f.n + 1, layers + [LayerOf(f)], crossings + [x])
      ensures LinksExplored(graph, u, NextCreated(s.created, f), layers + [LayerOf(f)], crossings + [x])
    {
      hide *;
      GoodHistory(graph, u, f.n, config.latticeBeam, s);
      FrameIsDone(graph, u, config.latticeBeam, s, f);
      NextGood(graph, u, config.latticeBeam, s, f, list);
      NextExtends(graph, u, s.created, f);
      x := FrameRecorded(graph, u, config, s, f, layers, crossings, x0);
      ghost var layers', crossings' := layers + [LayerOf(f)], crossings + [x];
      assert layers'[..f.n + 1] == layers && crossings'[..f.n] == crossings;
      NextBeamFollowed(graph, u, s.created, f, s.start, layers', crossings');
      EmissionVisits(graph, u, f.n, f.prev, f.col1, x0);
      LayerCutoff(f);
      NextLinksExplored(graph, u, s.created, f, s.start, layers, crossings, LayerOf(f), x);
    }

    // ----- memory -----

    /** Deletes all tokens of a list, with the links they own. */
    method DeleteTokens(list: seq<Addr>)
      requires NoDuplicates(list) && forall a :: a in list ==> a in heap
      modifies `heap, `numToks
      ensures heap.Keys == old(heap).Keys - (set a | a in list) && numToks == old(numToks) - |list|
    {
      for i := 0 to |list|
        invariant heap.Keys == old(heap).Keys - (set a | a in list[..i]) && numToks == old(numToks) - i
      {
        var tok := list[i];
        assert list[..i + 1] == list[..i] + [tok] && tok !in list[..i];
        heap := heap[tok := heap[tok].(links := [])];
        DeleteToken(tok);
        numToks := numToks - 1;
      }
      assert list[..|list|] == list;
    }

    /** Frees everything, whatever state decoding has stopped in. */
    method ClearActiveTokens()
      requires Owns(heap, activeToks, numToks)
      modifies `heap, `activeToks, `numToks
      ensures heap == map[] && activeToks == [] && numToks == 0
    {
      hide Owns;
      ghost var lists := activeToks;
      for i := 0 to |activeToks|
        invariant activeToks == lists && Owns(heap, lists[i..], numToks)
      {
        ghost var h := heap;
        OwnsFirst(heap, lists[i..], numToks);
        DeleteTokens(activeToks[i].toks);
        OwnsRest(h, heap, lists[i..], numToks + |lists[i].toks|);
        assert lists[i..][1..] == lists[i + 1..];
      }
      activeToks := [];
      assert lists[|lists|..] == [];
      OwnsNothing(heap, numToks);
    }

    // ----- whole utterances -----

    /** What holds between two utterances, however decoding has ended. */
    ghost predicate Valid()
      reads this
    {
      && graph.Valid() && config.Check() && Feasible(graph, potential) && queue == []
      && Owns(heap, activeToks, numToks) && forall a :: a in heap ==> a < nextAddr
    }

    constructor (graph: Graph, config: Config, ghost potential: map<PairId, int>)
      requires graph.Valid() && config.Check() && Feasible(graph, potential)
      ensures Valid() && this.graph == graph && this.config == config
    {
      this.graph, this.config, this.potential := graph, config, potential;
      toks, activeToks, queue, finalCosts, finalActive, numToks, warned := map[], [], [], map[], false, 0, false;
      heap, nextAddr := map[], 0;
    }

    /** Cleans up from last time. */
    method CleanUp()
      requires Valid()
      modifies `heap, `toks, `activeToks, `numToks, `warned, `finalActive, `finalCosts
      ensures heap == map[] && toks == map[] && activeToks == [] && numToks == 0
      ensures !warned && !finalActive && finalCosts == map[]
    {
      hide Owns, Feasible, Graph.Valid;
      toks := map[];
      ClearActiveTokens();
      warned, finalActive, finalCosts, numToks := false, false, map[], 0;
    }

    /** Cleans up, and makes the start token. */
    method InsertStartToken()
      requires Valid()
      modifies this
      ensures queue == [] && !warned && !finalActive && finalCosts == map[]
      ensures activeToks == [TokenList([start], true, true)] && numToks == 1 && Col(0) == StartColumn(graph, start)
    {
      hide Owns, Feasible, Graph.Valid, ConstructPair, StartColumn;
      CleanUp();
      StartColumnIs(graph, heap, toks, nextAddr);
      var startPair := ConstructPair(graph.start, graph.lmStart);
      var startTok := nextAddr;
      nextAddr := nextAddr + 1;
      heap := heap[startTok := Token(0, Fin(0), [])];
      activeToks := [TokenList([startTok], true, true)];
      toks := toks[startPair := startTok];
      numToks := numToks + 1;
      start := startTok;
      pairOf := map[startTok := startPair];
    }

    /** Starts an utterance: the start token and what epsilon arcs reach from it. */
    method BeginUtterance(u: Utterance)
      requires Valid()
      modifies this
      ensures Decoding(u, 0)
    {
      hide Added, Owns, FirstDone, GoodSnapshot, BeamFollowed, LinksExplored, Searched, Grows, ColumnOk, Closed, OutsideKept,
        Feasible, Graph.Valid,
        IsPair, FirstCreated, EpsilonCutoffIs, EntryCosts;
      InsertStartToken();
      StartColumnOk(graph, start);
      assert StartPair(graph) in toks;
      var ok, cutoff := ProcessNonemitting(0);
      AddedToStart(start, activeToks, numToks);
      ghost var f := Frame(0, StartColumn(graph, start), Col(0), cutoff);
      FirstIsDone(graph, potential, start, f);
      FirstGood(graph, u, potential, config.latticeBeam, start, f, activeToks[0]);
      created := FirstCreated(f);
      layers, crossings := [Layer(EntryCosts(f.entry), f.cutoff, EntryCosts(f.col))], [];
      assert Now() == FirstSnapshot(f, start, activeToks[0]);
      SameCosts(f.entry);
      FirstSearched(graph, u, config, potential, f, start);
      FirstBeamFollowed(graph, u, potential, f, start, layers[0]);
      FirstLinksExplored(graph, u, potential, f, start, layers[0]);
    }

    /** Prunes while decoding goes on. */
    method PruneWhileDecoding(u: Utterance, n: nat, delta: nat)
      requires Decoding(u, n)
      modifies `heap, `activeToks, `numToks, `warned
      ensures Decoding(u, n) && Clean(heap, activeToks, n)
      ensures CellsKept(created, old(heap), heap, n)
      ensures MarkedPruned(old(activeToks), heap, activeToks, n, delta, config.latticeBeam)
    {
      hide GoodSnapshot, BeamFollowed, LinksExplored, Searched, Feasible, Graph.Valid, Consistent, Listed, Anchored, FlagsOk,
        MarksOk, Clean, Live,
        CellsKept;
      ghost var s := Now();
      GoodToPrune(graph, u, n, config.latticeBeam, s);
      PruneActiveTokens(n, delta, FrontTerminal(created, n));
      PrunedGood(graph, u, n, config.latticeBeam, s, Now());
    }

    /** What holds at the end of an utterance. */
    ghost predicate Decoded(u: Utterance)
      reads this
    {
      && Sweeping(u.numFrames, -1, -1) && History(graph, u, created, u.numFrames, start)
      && Live(heap) && Finished(heap, FinalTerminal(graph, created, u.numFrames, best), config.latticeBeam)
      && Searched(graph, u, config, created, u.numFrames, layers, crossings)
      && BeamFollowed(graph, u, created, start, u.numFrames, layers, crossings)
      && LinksExplored(graph, u, created, layers, crossings)
    }

    /** Prunes when decoding is over. */
    method Finish(u: Utterance)
      requires Decoding(u, u.numFrames)
      modifies `toks, `heap, `activeToks, `numToks, `finalActive, `finalCosts, `best, `warned
      ensures Decoded(u) && Valid() && toks == map[] && finalCosts != map[]
    {
      hide GoodSnapshot, OpenFront, BeamFollowed, LinksExplored, Searched, Feasible, Graph.Valid, Consistent, Listed, Finished, Live,
        WellFormed, Tight,
        Owns, FinalsDecided, FinalCosts, SettledAfter, NoneSpentAfter, FinalTerminal, FinalsOf, LinksAreArcs, Realized,
        Anchored;
      GoodToFinish(graph, u, u.numFrames, config.latticeBeam, Now());
      PruneActiveTokensFinal(u.numFrames);
      ConsistentParts(created, heap, FinalTerminal(graph, created, u.numFrames, best), config.latticeBeam);
      ListedOwns(created, heap, activeToks, start, numToks);
      SomeFinalCost(graph, created, heap, u.numFrames, best, finalActive, config.latticeBeam);
    }

    /** Decoding has come to a dead end: the tokens that it last went on from are still there, as they were, but none of
        those within the cutoff that belongs to their costs has an emitting arc of finite cost. */
    ghost predicate Stuck(u: Utterance)
      reads this
    {
      var n := |activeToks| - 2;
      && 0 <= n < u.numFrames && activeToks[n + 1] == TokenList([], true, true) && toks == map[]
      && GoodSnapshot(graph, u, n, config.latticeBeam, Now().(toks := front, lists := activeToks[..n + 1]))
      && Searched(graph, u, config, created, n, layers, crossings) && BeamFollowed(graph, u, created, start, n, layers, crossings)
      && LinksExplored(graph, u, created, layers, crossings)
      && exists cutoff, adaptiveBeam ::
        CutoffsAre(config, CostsAmong(front, heap), cutoff, adaptiveBeam) && NoExtension(graph, u, n, Previous(front, heap, cutoff))
    }

    /** One turn of the decoding loop. */
    method DecodeFrame(u: Utterance, frame: nat) returns (ok: bool)
      requires 0 < frame <= u.numFrames && Decoding(u, frame - 1)
      modifies this
      ensures Valid()
      ensures ok && frame < u.numFrames ==> Decoding(u, frame)
      ensures ok && frame < u.numFrames ==>
        if frame % config.pruneInterval != 0 then NothingPruned(old(heap), heap)
        else
          && Clean(heap, activeToks, frame)
          && MarkedPruned(old(activeToks), heap, activeToks, frame, config.latticeBeam / 10, config.latticeBeam)
      ensures ok && frame == u.numFrames ==> Decoded(u) && finalCosts != map[]
      ensures !ok ==> Stuck(u) && |activeToks| == frame + 1
    {
      hide Owns, GoodSnapshot, BeamFollowed, LinksExplored, Searched, Feasible, Graph.Valid, CellsKept, Decoded, CutoffsAre,
        NoExtension, Extends, NothingPruned, MarkedPruned, Clean, CostsAmong,
        History, OpenFront, Listed, WellFormed, Tight;
      GoodToFinish(graph, u, frame - 1, config.latticeBeam, Now());
      ghost var s := Now();
      ghost var x;
      ok, x := AdvanceFrame(u, frame - 1);
      if !ok {
        OwnsWithNewFrame(heap, heap, s.lists, numToks);
        assert NoExtension(graph, u, frame - 1, Previous(front, heap, x.cutoff));
        assert activeToks[..frame] == s.lists;
        assert Now().(toks := front, lists := activeToks[..frame]) == s;
      } else if u.IsLastFrame(frame - 1) {
        Finish(u);
      } else {
        if frame % config.pruneInterval == 0 {
          ghost var lists := activeToks;
          PruneWhileDecoding(u, frame, config.latticeBeam / 10);
          MarkedBefore(s.lists, lists, heap, activeToks, frame, config.latticeBeam / 10, config.latticeBeam);
        }
        GoodToFinish(graph, u, frame, config.latticeBeam, Now());
      }
    }

    /** Decodes an utterance; None stands for the exception that is thrown if no token survives a frame, which happens exactly
        at a dead end.  Without decoding beams it happens exactly if no path of the composition is long enough. */
    method Decode(u: Utterance) returns (result: Option<bool>)
      requires Valid()
      modifies this
      ensures Valid()
      ensures result.None? <==> Stuck(u)
      ensures config.Unbounded() ==> (result.None? <==> forall path :: Walk(graph, u, path).Some? ==> Walk(graph, u, path).value.frames < u.numFrames)
      ensures result.Some? ==> result.value == (finalCosts != map[]) == (u.numFrames > 0)
      ensures result.Some? && u.numFrames > 0 ==> Decoded(u)
      ensures u.numFrames == 0 ==> result.Some? && Decoding(u, 0)
    {
      hide Owns, GoodSnapshot, BeamFollowed, LinksExplored, Searched, Feasible, Graph.Valid, Decoded, OpenFront, Listed, WellFormed,
        Tight, History,
        Walk, Clean, Stuck;
      BeginUtterance(u);
      GoodToFinish(graph, u, 0, config.latticeBeam, Now());
      var frame := 1;
      while !u.IsLastFrame(frame - 2)
        invariant 1 <= frame <= u.numFrames + 1 && Valid()
        invariant frame - 1 < u.numFrames || u.numFrames == 0 ==> Decoding(u, frame - 1)
        invariant 0 < u.numFrames == frame - 1 ==> Decoded(u) && finalCosts != map[]
        decreases u.numFrames + 1 - frame
      {
        var ok := DecodeFrame(u, frame);
        if !ok {
          if config.Unbounded() {
            StuckAtEnd(u);
          }
          return None;
        }
        frame := frame + 1;
      }
      NotStuck(u);
      result := Some(finalCosts != map[]);
    }

    /** Where decoding without beams gets stuck, every path of the composition ends. */
    lemma StuckAtEnd(u: Utterance)
      requires Stuck(u) && config.Check() && config.Unbounded()
      ensures forall path :: Walk(graph, u, path).Some? ==> Walk(graph, u, path).value.frames < u.numFrames
    {
      var n := |activeToks| - 2;
      ghost var s := Now().(toks := front, lists := activeToks[..n + 1]);
      hide GoodSnapshot, Searched, BeamFollowed, LinksExplored, CutoffsAre, Walk, NoExtension;
      ghost var cutoff, adaptiveBeam :|
        CutoffsAre(config, CostsAmong(front, heap), cutoff, adaptiveBeam) && NoExtension(graph, u, n, Previous(front, heap, cutoff));
      CutoffUsable(config, CostsAmong(front, heap), cutoff, adaptiveBeam);
      UnboundedFollowed(graph, u, config, created, start, n, layers, crossings);
      NothingBeyond(graph, u, config, n, s);
    }

    /** An utterance that has been decoded, or that has no frame, leaves no dead end, and some path of the composition is as long. */
    lemma NotStuck(u: Utterance)
      requires if u.numFrames == 0 then Decoding(u, 0) else Decoded(u)
      ensures !Stuck(u) && exists path :: Walk(graph, u, path).Some? && Walk(graph, u, path).value.frames == u.numFrames
    {
      if u.numFrames == 0 {
        assert Walk(graph, u, From(StartPair(graph))) == Some(Place(StartPair(graph), 0, 0));
      } else {
        LatticeReady(u);
        assert activeToks[u.numFrames].toks != [];
        hide FinalTerminal, FinalsOf, FinalsDecided, Consistent, Anchored, Owns, Finished, SettledAfter,
          NoneSpentAfter, Live,
          WellFormed, Tight, LinksAreArcs, IsPair, ListsOk, GoodSnapshot, Searched, BeamFollowed, LinksExplored, FinalCosts;
        ghost var a := activeToks[u.numFrames].toks[0];
        ListedFrame(created, heap, activeToks, start, numToks, u.numFrames);
        assert Realized(graph, u, created, a);
      }
    }

    // ----- the raw lattice -----

    /** Numbers a frame's tokens on from where the frames before have got to. */
    method NumberFrame(f: nat, tokMap0: map<Addr, nat>, numStates0: nat) returns (tokMap: map<Addr, nat>,
                       numStates: nat)
      requires Owns(heap, activeToks, numToks) && f < |activeToks|
      requires Numbers(tokMap0, AllTokens(activeToks[..f])) && numStates0 == |AllTokens(activeToks[..f])|
      ensures Numbers(tokMap, AllTokens(activeToks[..f + 1])) && numStates == |AllTokens(activeToks[..f + 1])|
      ensures numStates == numStates0 + |activeToks[f].toks|
      ensures activeToks[f].toks != [] ==>
        activeToks[f].toks[|activeToks[f].toks| - 1] in tokMap && tokMap[activeToks[f].toks[|activeToks[f].toks| - 1]] == numStates - 1
    {
      hide Owns, Numbers, AllTokens;
      FrameIsNew(heap, activeToks, numToks, f);
      ghost var order := AllTokens(activeToks[..f]);
      var list := activeToks[f].toks;
      tokMap, numStates := tokMap0, numStates0;
      assert order + list[..0] == order;
      for i := 0 to |list|
        invariant Numbers(tokMap, order + list[..i]) && numStates == numStates0 + i
        invariant i > 0 ==> list[i - 1] in tokMap && tokMap[list[i - 1]] == numStates - 1
      {
        assert list[..i + 1] == list[..i] + [list[i]] && list[i] !in list[..i];
        NumbersOneMore(tokMap, order + list[..i], list[i]);
        assert order + list[..i + 1] == (order + list[..i]) + [list[i]];
        tokMap := tokMap[list[i] := numStates];
        numStates := numStates + 1;
      }
      assert list[..|list|] == list;
    }

    /** A state for every token; none if some frame has lost all its tokens. */
    method NumberTokens() returns (ok: bool, tokMap: map<Addr, nat>, start: nat)
      requires Owns(heap, activeToks, numToks) && activeToks != []
      ensures !ok <==> exists f: nat :: f < |activeToks| && activeToks[f].toks == []
      ensures ok ==> Numbers(tokMap, AllTokens(activeToks))
      ensures ok ==> activeToks[0].toks[|activeToks[0].toks| - 1] in tokMap
      ensures ok ==> tokMap[activeToks[0].toks[|activeToks[0].toks| - 1]] == start
    {
      hide Owns;
      var numStates := 0;
      tokMap, start := map[], 0;
      for f := 0 to |activeToks|
        invariant Numbers(tokMap, AllTokens(activeToks[..f])) && numStates == |AllTokens(activeToks[..f])|
        invariant forall k: nat :: k < f ==> activeToks[k].toks != []
        invariant f > 0 ==> start == |activeToks[0].toks| - 1
      {
        if activeToks[f].toks == [] {
          return false, tokMap, start;
        }
        tokMap, numStates := NumberFrame(f, tokMap, numStates);
        if f == 0 {
          start := numStates - 1;
        }
      }
      ok := true;
      assert activeToks[..|activeToks|] == activeToks;
      FirstNumbers(activeToks, tokMap);
    }

    /** The arcs of a token's state. */
    method BuildArcs(tok: Addr, tokMap: map<Addr, nat>) returns (arcs: seq<RawArc>)
      requires tok in heap && Pointed(heap, heap[tok].links) && tokMap.Keys == heap.Keys
      ensures ArcsMatch(tokMap, heap[tok].links, arcs)
    {
      arcs := [];
      var links := heap[tok].links;
      for k := 0 to |links|
        invariant ArcsMatch(tokMap, links[..k], arcs)
      {
        assert links[k] in links;
        arcs := arcs + [ArcOf(tokMap, links[k])];
      }
      assert links[..|links|] == links;
    }

    /** The arcs of a frame's states, after those of the frames before. */
    method BuildFrame(f: nat, tokMap: map<Addr, nat>, arcs0: seq<seq<RawArc>>) returns (arcs: seq<seq<RawArc>>)
      requires Owns(heap, activeToks, numToks) && Live(heap) && f < |activeToks| && tokMap.Keys == heap.Keys
      requires ArcsBuilt(heap, tokMap, AllTokens(activeToks[..f]), arcs0) && |arcs0| == |AllTokens(activeToks[..f])|
      ensures ArcsBuilt(heap, tokMap, AllTokens(activeToks[..f + 1]), arcs) && |arcs| == |AllTokens(activeToks[..f + 1])|
    {
      hide Owns, AllTokens, ArcsMatch;
      FrameIsNew(heap, activeToks, numToks, f);
      ghost var order := AllTokens(activeToks[..f]);
      var list := activeToks[f].toks;
      arcs := arcs0;
      assert order + list[..0] == order;
      for i := 0 to |list|
        invariant ArcsBuilt(heap, tokMap, order + list[..i], arcs) && |arcs| == |order| + i
      {
        assert order + list[..i + 1] == (order + list[..i]) + [list[i]];
        var state := BuildArcs(list[i], tokMap);
        arcs := arcs + [state];
      }
      assert list[..|list|] == list;
    }

    /** The final states, those of the last frame: with their final costs, if any are known and asked for. */
    method BuildFinals(tokMap: map<Addr, nat>, useFinalProbs: bool) returns (final: map<nat, int>)
      requires activeToks != [] && forall a :: a in activeToks[|activeToks| - 1].toks ==> a in tokMap
      requires forall a, b :: a in tokMap && b in tokMap && tokMap[a] == tokMap[b] ==> a == b
      ensures FinalsBuilt(tokMap, activeToks[|activeToks| - 1].toks, |activeToks[|activeToks| - 1].toks|, finalCosts, useFinalProbs, final)
    {
      final := map[];
      var last := activeToks[|activeToks| - 1].toks;
      for i := 0 to |last|
        invariant FinalsBuilt(tokMap, last, i, finalCosts, useFinalProbs, final)
      {
        var tok := last[i];
        if useFinalProbs && finalCosts != map[] {
          if tok in finalCosts {
            final := final[tokMap[tok] := finalCosts[tok]];
          }
        } else {
          final := final[tokMap[tok] := 0];
        }
      }
    }

    /** The surviving tokens and links, as a finite-state machine whose states are numbered in list order. */
    method GetRawLattice(useFinalProbs: bool) returns (ofst: Option<RawLattice>, ghost tokMap: map<Addr, nat>)
      requires Owns(heap, activeToks, numToks) && Live(heap) && |activeToks| > 1
      ensures ofst.None? <==> exists f: nat :: f < |activeToks| && activeToks[f].toks == []
      ensures ofst.Some? ==> Mirrors(heap, tokMap, AllTokens(activeToks), ofst.value) && |ofst.value.arcs| == numToks
      ensures ofst.Some? ==> activeToks[0].toks[|activeToks[0].toks| - 1] in tokMap
      ensures ofst.Some? ==> tokMap[activeToks[0].toks[|activeToks[0].toks| - 1]] == ofst.value.start
      ensures ofst.Some? ==> var last := activeToks[|activeToks| - 1].toks;
        (forall a :: a in last ==> a in tokMap) && FinalsBuilt(tokMap, last, |last|, finalCosts, useFinalProbs, ofst.value.final)
    {
      hide Owns, AllTokens, ArcsBuilt, FinalsBuilt, Live;
      var ok, map0, start := NumberTokens();
      tokMap := map0;
      if !ok {
        return None, tokMap;
      }
      AllNumbered(heap, activeToks, numToks, map0);
      var arcs := [];
      NothingBuilt(heap, map0, activeToks);
      for f := 0 to |activeToks|
        invariant ArcsBuilt(heap, map0, AllTokens(activeToks[..f]), arcs) && |arcs| == |AllTokens(activeToks[..f])|
      {
        arcs := BuildFrame(f, map0, arcs);
      }
      assert activeToks[..|activeToks|] == activeToks;
      OwnedTokens(heap, activeToks, numToks, |activeToks| - 1);
      var final := BuildFinals(map0, useFinalProbs);
      ofst := Some(RawLattice(start, arcs, final));
    }

    // ----- what decoding has achieved -----

    /** While decoding goes on: no link has been lost that is on a path to a token of the last frame
        that is worse than the best path to that token by no more than the lattice beam. */
    lemma NothingLost(u: Utterance, n: nat, p: seq<ForwardLink>, z: Addr)
      requires Decoding(u, n) && IsPath(created, start, p, z) && z in created && created[z].frame == n
      requires PathCost(p) <= created[z].totCost + config.latticeBeam
      ensures Alive(heap, start, p)
    {
      hide OpenFront, Front, FlagsOk, Listed, Live, LinksAreArcs, Realized, Addresses, Tight, WellFormed, Consistent,
        Feasible,
        BeamFollowed, LinksExplored, Searched, IsPath;
      GoodToPrune(graph, u, n, config.latticeBeam, Now());
      SlackTelescopes(created, start, p, z);
      PathSurvives(created, heap, FrontTerminal(created, n), config.latticeBeam, start, p, z);
    }

    /** The decoder carries out a beam search: the costs of its tokens are those of the search's last layer, and its links are
        those of arcs that the search took.  Pruning goes on behind the front and does not touch either. */
    lemma RefinesBeamSearch(u: Utterance, n: nat)
      requires Decoding(u, n)
      ensures Searched(graph, u, config, created, n, layers, crossings) && Explores(graph, u, n, layers, crossings)
      ensures CostsAmong(toks, heap) == layers[n].costs && LinksExplored(graph, u, created, layers, crossings)
    {
      hide Consistent, FlagsOk, MarksOk, Listed, Addresses, Front, History, BeamFollowed, LinksExplored, Feasible, Graph.Valid,
        LayerOk, CrossingOk,
        CostsOnFrame, CostsAmong;
      FrontCosts(created, heap, n, toks);
      CostsOnFrameAgree(created, n, layers[n].costs, CostsAmong(toks, heap));
      SearchedExplores(graph, u, config, created, n, layers, crossings);
    }

    /** Emission prunes: on every frame there is a best token such that whatever the next frame is entered with, and every link
        to it, costs less than any extension of that token and the adaptive beam together. */
    lemma EmissionPrunes(u: Utterance, n: nat, k: nat) returns (p: PairId)
      requires Decoding(u, n) && k < n
      ensures |layers| == n + 1 && |crossings| == n && IsBestOf(layers[k].costs, p)
      ensures forall i: nat :: EmittingArc(graph, u, k, p, i) ==>
        var bound := Fin(ExtendedCost(graph, u, k, layers[k].costs, p, i)).Add(crossings[k].adaptiveBeam);
        EntriesUnder(layers[k + 1].entry, bound) && LinksUnder(created, k, bound)
    {
      hide GoodSnapshot, BeamFollowed, Feasible, Graph.Valid, LayerOk, CutoffsAre, IsCheapest, LinksExplored, EmittingArc,
        LinksUnder, EntriesUnder, Crosses, IsPair, ExtendedCost, FirstCutoffIs, Closes;
      ghost var x := crossings[k];
      assert CrossingOk(graph, u, config, k, layers[k].costs, x, layers[k + 1].entry);
      assert LayerOk(graph, config, layers[k]) && CostsOnFrame(created, k, layers[k].costs);
      LayerNonEmpty(graph, config, layers[k]);
      p := FirstBound(graph, u, k, layers[k].costs, x.adaptiveBeam, x.first);
      UnderFirst(graph, u, created, k, layers, crossings);
      forall i: nat | EmittingArc(graph, u, k, p, i)
        ensures EntriesUnder(layers[k + 1].entry, Fin(ExtendedCost(graph, u, k, layers[k].costs, p, i)).Add(x.adaptiveBeam))
        ensures LinksUnder(created, k, Fin(ExtendedCost(graph, u, k, layers[k].costs, p, i)).Add(x.adaptiveBeam))
      {
        UnderMore(layers[k + 1].entry, created, k, x.first, Fin(ExtendedCost(graph, u, k, layers[k].costs, p, i)).Add(x.adaptiveBeam));
      }
    }

    /** Whatever the beams: a path of the composition that is cheap enough wherever it goes ends in a token that costs no more. */
    lemma BeamTokens(u: Utterance, n: nat, path: Path)
      requires Decoding(u, n) && InBeam(graph, u, layers, crossings, path) && Walk(graph, u, path).value.frames == n
      ensures var at := Walk(graph, u, path).value;
        at.pair in toks && toks[at.pair] in heap && heap[toks[at.pair]].totCost <= at.cost
    {
      hide Consistent, FlagsOk, MarksOk, Listed, Addresses, Front, History, BeamFollowed, LinksExplored, Searched, Feasible,
        Graph.Valid, InBeam, Walk;
      BeamReaches(graph, u, created, heap, n, start, toks, layers, crossings, path);
    }

    /** Without decoding beams the tokens of the last frame are exactly those that paths with n emitting arcs reach in the
        explicit composition, at the cost of the best of them. */
    lemma ViterbiTokens(u: Utterance, n: nat, p: PairId)
      requires Decoding(u, n) && config.Unbounded()
      ensures p in toks <==> exists path, cost :: Walk(graph, u, path) == Some(Place(p, n, cost))
      ensures p in toks ==> toks[p] in heap && (exists path :: Walk(graph, u, path) == Some(Place(p, n, heap[toks[p]].totCost)))
      ensures p in toks ==> forall path, cost :: Walk(graph, u, path) == Some(Place(p, n, cost)) ==> heap[toks[p]].totCost <= cost
    {
      hide Consistent, FlagsOk, MarksOk, Listed, Addresses, Front, History, AllFollowed, BeamFollowed, LinksExplored, Searched,
        Feasible, Graph.Valid;
      UnboundedFollowed(graph, u, config, created, start, n, layers, crossings);
      ViterbiExact(graph, u, created, heap, n, start, toks, p);
    }

    /** A live token's cost is that of the cheapest path of created links from the start to it: none is
        cheaper, one attains it, and every link costs at least what it saves its end. */
    lemma CostsAreShortest(u: Utterance, n: nat, a: Addr)
      requires Decoding(u, n) && a in heap
      ensures a in created && (forall p :: IsPath(created, start, p, a) ==> PathCost(p) >= heap[a].totCost)
      ensures exists p :: IsPath(created, start, p, a) && PathCost(p) == heap[a].totCost
      ensures forall l :: l in heap[a].links ==> l.nextTok in heap
      ensures forall l :: l in heap[a].links ==> heap[a].totCost + l.acousticCost + l.graphCost >= heap[l.nextTok].totCost
    {
      hide Front, FlagsOk, MarksOk, Listed, Addresses, BeamFollowed, LinksExplored, Searched, Feasible, Graph.Valid, LinksAreArcs,
        Realized, Safe,
        Bounded, Spent, TerminalBound, IsPath, PathCost;
      ShortestIs(created, start, a);
      forall l | l in heap[a].links
        ensures l.nextTok in heap && heap[a].totCost + l.acousticCost + l.graphCost >= heap[l.nextTok].totCost
      {
        SlackInHeap(created, heap, a, l);
      }
    }

    /** The heap between two frames: no link dangles or leads anywhere but to the same or the next frame's list,
        every live token is on one list, once, and the start token, while it lives, is last on the first. */
    lemma HeapSound(u: Utterance, n: nat)
      requires Decoding(u, n)
      ensures |activeToks| == n + 1 && Owns(heap, activeToks, numToks)
      ensures start in heap ==> activeToks[0].toks != [] && activeToks[0].toks[|activeToks[0].toks| - 1] == start
      ensures LinksLead(heap, activeToks)
    {
      hide Front, FlagsOk, MarksOk, Addresses, BeamFollowed, LinksExplored, Searched, Feasible, Graph.Valid, LinksAreArcs, Realized,
        Tight, Safe, Bounded,
        Spent, TerminalBound, Owns, WellFormed, ListsOk, LinksLead, Agree, Live;
      ListedOwns(created, heap, activeToks, start, numToks);
      LinksLeadOn(created, heap, activeToks);
    }

    /** After decoding, GetRawLattice has something to work with on every frame. */
    lemma LatticeReady(u: Utterance)
      requires Decoded(u)
      ensures Owns(heap, activeToks, numToks) && Live(heap) && |activeToks| == u.numFrames + 1
      ensures forall f: nat :: f <= u.numFrames ==> activeToks[f].toks != []
      ensures start in heap && activeToks[0].toks[|activeToks[0].toks| - 1] == start
    {
      hide FinalTerminal, FinalsOf, FinalsDecided, Consistent, Anchored, Owns, Finished, SettledAfter, NoneSpentAfter,
        Live,
        WellFormed, Tight, LinksAreArcs, Realized, IsPair, ListsOk, OnFrame;
      ghost var n, term := u.numFrames, FinalTerminal(graph, created, u.numFrames, best);
      ConsistentParts(created, heap, term, config.latticeBeam);
      ListedOwns(created, heap, activeToks, start, numToks);
      StartAlive(created, heap, term, config.latticeBeam, start, n);
      forall f: nat | f <= n
        ensures activeToks[f].toks != []
      {
        FrameAlive(created, heap, term, config.latticeBeam, start, n, activeToks, f);
      }
    }

    /** Final pruning is exact: a token, or a link, has survived exactly if it lies on a path from the
        start to the end that costs no more than the best one plus the lattice beam, and extraCost
        tells by how much the best such path is worse. */
    lemma LatticeExact(u: Utterance)
      requires Decoded(u) && NoFreeLoop(graph)
      ensures ExactLattice(created, heap, FinalsOf(graph, created, u.numFrames), best, config.latticeBeam, start)
      ensures ExactExtras(created, heap, FinalsOf(graph, created, u.numFrames), best, config.latticeBeam, start)
    {
      hide FinalTerminal, FinalsOf, Consistent, Anchored, Finished, SettledAfter, NoneSpentAfter, Live, WellFormed,
        Tight,
        LinksAreArcs, Realized, IsPair, Listed, NoFreeLoop, ExactLattice, ExactExtras, NoFreeCycle;
      NoFreeCycles(graph, u, created);
      FinalTerminalIs(graph, created, u.numFrames, best);
      FinalExact(created, heap, FinalsOf(graph, created, u.numFrames), best, config.latticeBeam, start);
    }

    /** Without decoding beams, the best cost that pruning goes by is that of the best complete path of the
        composition; final costs count exactly if some path ends in a final pair of states. */
    lemma BestCostOptimal(u: Utterance)
      requires Decoded(u) && config.Check() && config.Unbounded()
      ensures exists path :: Completes(graph, u, u.numFrames, finalActive, path, Fin(best))
      ensures forall path, total :: Completes(graph, u, u.numFrames, finalActive, path, total) ==> Fin(best).Le(total)
      ensures finalActive <==> exists path, total :: Completes(graph, u, u.numFrames, true, path, total) && total.Fin?
    {
      hide FinalTerminal, FinalsOf, Consistent, Anchored, Finished, SettledAfter, NoneSpentAfter, Live, History, Listed,
        FinalsDecided, FinalCosts, AllFollowed, BeamFollowed, LinksExplored, Searched, Completes;
      UnboundedFollowed(graph, u, config, created, start, u.numFrames, layers, crossings);
      BestIsOptimal(graph, u, created, u.numFrames, start, best, finalActive);
    }

    /** The raw lattice has every path of the composition through the whole utterance that the search cannot miss, which without
        beams is every path, and that costs no more than the best one plus the lattice beam, label by label and cost by cost. */
    lemma LatticeComplete(u: Utterance, path: Path, total: Cost, tokMap: map<Addr, nat>, lat: RawLattice)
      returns (q: seq<ForwardLink>, r: seq<RawArc>)
      requires Decoded(u) && config.Check() && Mirrors(heap, tokMap, AllTokens(activeToks), lat)
      requires config.Unbounded() || InBeam(graph, u, layers, crossings, path)
      requires Completes(graph, u, u.numFrames, finalActive, path, total) && total.Le(Fin(best + config.latticeBeam))
      ensures Follows(graph, u, created, start, path, q) && SameLabelsAndCosts(q, r)
      ensures start in tokMap && IsRawPath(lat, tokMap[start], r)
      ensures LastToken(start, q) in finalCosts && LastToken(start, q) in tokMap
      ensures RawEnd(tokMap[start], r) == tokMap[LastToken(start, q)]
      ensures forall arcs, run :: TwoSides(graph, path, arcs, run) ==> ArcsAre(u, arcs, run, LinearOf(r))
    {
      if config.Unbounded() {
        assert Walk(graph, u, path).Some?;
        AllInBeam(graph, u, config, created, u.numFrames, layers, crossings, path);
      }
      hide FinalTerminal, FinalsOf, Consistent, Anchored, Finished, SettledAfter, NoneSpentAfter, Live, History, Listed,
        FinalsDecided, FinalCosts, Searched, InBeam, Mirrors, Alive, Follows;
      assert exists q :: Follows(graph, u, created, start, path, q);
      hide Completes, BeamFollowed, LinksExplored;
      var z;
      q, z := GoodPathKept(graph, u, created, heap, u.numFrames, start, best, finalActive, config.latticeBeam, path, total);
      r := AliveIsRaw(heap, tokMap, AllTokens(activeToks), lat, start, q);
      RawArcsAre(graph, u, created, u.numFrames, start, path, q, r);
    }

    /** The raw lattice has nothing else: whatever the beams, each of its paths from the start to a final state is a
        complete path of the composition, label by label and cost by cost. */
    lemma LatticeSound(u: Utterance, tokMap: map<Addr, nat>, lat: RawLattice, r: seq<RawArc>)
      returns (path: Path, q: seq<ForwardLink>)
      requires Decoded(u) && finalCosts != map[] && Mirrors(heap, tokMap, AllTokens(activeToks), lat)
      requires start in tokMap && lat.start == tokMap[start]
      requires var last := activeToks[u.numFrames].toks;
        (forall a :: a in last ==> a in tokMap) && FinalsBuilt(tokMap, last, |last|, finalCosts, true, lat.final)
      requires IsRawPath(lat, lat.start, r) && RawEnd(lat.start, r) in lat.final
      ensures Follows(graph, u, created, start, path, q) && SameLabelsAndCosts(q, r)
      ensures Completes(graph, u, u.numFrames, finalActive, path, Fin(PathCost(q) + lat.final[RawEnd(lat.start, r)]))
      ensures forall arcs, run :: TwoSides(graph, path, arcs, run) ==> ArcsAre(u, arcs, run, LinearOf(r))
    {
      hide FinalTerminal, FinalsOf, Consistent, Anchored, Finished, SettledAfter, NoneSpentAfter, Live, History, Listed,
        FinalsDecided, FinalCosts, Searched, BeamFollowed, LinksExplored, Completes, Mirrors, Alive, Follows, FinalsBuilt, AllTokens, IsRawPath;
      ConsistentParts(created, heap, FinalTerminal(graph, created, u.numFrames, best), config.latticeBeam);
      q := RawIsAlive(heap, tokMap, AllTokens(activeToks), lat, start, r);
      AliveIsPath(created, heap, start, q);
      ghost var z := LastToken(start, q);
      ghost var last := activeToks[u.numFrames].toks;
      FinalIsOnRecord(heap, tokMap, AllTokens(activeToks), lat, last, finalCosts, z);
      path := LinksComplete(graph, u, created, heap, u.numFrames, start, best, finalActive, q, z);
      RawArcsAre(graph, u, created, u.numFrames, start, path, q, r);
    }
  }

  /** Arcs of the raw lattice that follow a path have the graph's input labels and the language model's output labels, and ask for
      what the graph, the language model and the acoustics do. */
  lemma RawArcsAre(g: Graph, u: Utterance, c: Created, n: nat, start: Addr, path: Path, q: seq<ForwardLink>,
                   r: seq<RawArc>)
    requires g.Valid() && History(g, u, c, n, start) && Follows(g, u, c, start, path, q) && SameLabelsAndCosts(q, r)
    ensures forall arcs, run :: TwoSides(g, path, arcs, run) ==> ArcsAre(u, arcs, run, LinearOf(r))
  {
    hide History, Follows, Walk, TwoSides, ArcsAre, Graph.Valid, PathArcs;
    FollowsArcs(g, u, c, n, start, path, q);
    assert LinearOf(r) == PathArcs(g, u, path);
    forall arcs, run | TwoSides(g, path, arcs, run)
      ensures ArcsAre(u, arcs, run, LinearOf(r))
    {
      PathArcsAre(g, u, path, arcs, run);
    }
  }

  lemma BestCostCutoff(config: Config, toks: map<PairId, Addr>, h: Heap, bestCost: Cost)
    requires forall p :: p in toks ==> toks[p] in h && bestCost.Le(Fin(h[toks[p]].totCost))
    requires if toks == map[] then bestCost.Inf? else exists p :: p in toks && bestCost == Fin(h[toks[p]].totCost)
    ensures EpsilonCutoffIs(config, CostsAmong(toks, h), bestCost.Add(config.beam))
  {
    if toks != map[] {
      var p :| p in toks && bestCost == Fin(h[toks[p]].totCost);
      assert IsBestOf(CostsAmong(toks, h), p);
    }
  }

  ghost function LayerOf(f: NewFrame): Layer {
    Layer(EntryCosts(f.col1), f.cutoff, EntryCosts(f.col2))
  }

  lemma LayerCutoff(f: NewFrame)
    ensures LayerOf(f).epsilonCutoff == f.cutoff
  {
  }

  /** What a frame has explored, for the record. */
  lemma FrameRecorded(g: Graph, u: Utterance, config: Config, s: Snapshot, f: NewFrame, layers: seq<Layer>,
                      crossings: seq<Crossing>,
                      x0: Crossing) returns (x: Crossing)
    requires g.Valid() && History(g, u, s.created, f.n, s.start) && FrameDone(g, u, s.created, f) && FrameMade(g, u, s, f)
    requires Searched(g, u, config, s.created, f.n, layers, crossings)
    requires CutoffsAre(config, CostsAmong(f.prev.toks, f.prev.heap), f.prev.cutoff, x0.adaptiveBeam)
    requires EmissionDone(g, u, f.n, f.prev, f.col1, x0) && x0.margin == config.beam
    requires EpsilonCutoffIs(config, EntryCosts(f.col1), f.cutoff)
    ensures x == x0.(limit := x.limit) && |layers| == f.n + 1 && |crossings| == f.n
    ensures Searched(g, u, config, NextCreated(s.created, f), f.n + 1, layers + [LayerOf(f)], crossings + [x])
    ensures Recording(g, u, f, layers + [LayerOf(f)], crossings + [x])
  {
    hide History, FrameDone, Emitting, Grows, ColumnOk, OutsideKept, Closed, LayerOk, CrossingOk, CostsOnFrame,
      CutoffsAre,
      EmissionDone, EpsilonCutoffIs, IsCheapest, LimitLinked, NextCreated, Graph.Valid, Continues;
    var m := LimitFound(g, u, f.n, f.prev, f.col1, x0);
    x := x0.(limit := Fin(m).Add(x0.adaptiveBeam));
    EmissionLimited(g, u, f.n, f.prev, f.col1, x0, x.limit);
    assert EmissionDone(g, u, f.n, f.prev, f.col1, x);
    CrossingMade(g, u, config, f.n, f.prev, f.col1, x, m);
    SameCosts(f.col1);
    SomeCost(g, u, f.n, f.prev, f.col1);
    NextSearched(g, u, config, s.created, f, s.start, layers, crossings, x);
  }

  lemma SomeCost(g: Graph, u: Utterance, n: nat, prev: Previous, col: Column)
    requires Emitting(g, u, n, prev, col) && col.toks != map[]
    ensures EntryCosts(col) != map[]
  {
    ColumnHas(g, col);
    hide ColumnOk, PreviousOk, PreviousKept, LinksJustified, TokensJustified;
    var p :| p in col.toks;
    assert p in EntryCosts(col);
  }

  ghost predicate NoExtension(g: Graph, u: Utterance, n: nat, prev: Previous) {
    forall p, i: nat :: !Candidate(g, u, n, prev, p, i)
  }

  /** Emission makes a token exactly if there is something to emit. */
  lemma Emits(g: Graph, u: Utterance, n: nat, prev: Previous, col: Column, x: Crossing)
    requires g.Valid() && EmissionDone(g, u, n, prev, col, x)
    ensures col.toks == map[] <==> NoExtension(g, u, n, prev)
  {
    hide Graph.Valid, EmissionDone, Emitting, Candidate;
    EmissionIs(g, u, n, prev, col, x);
    if col.toks == map[] {
      NoneToEmit(g, u, n, prev, col, x);
    } else {
      var p, i := SomeCandidate(g, u, n, prev, col);
    }
  }

  lemma ShortestIs(c: Created, start: Addr, a: Addr)
    requires WellFormed(c) && Tight(c, start) && start in c && c[start].totCost == 0 && a in c
    ensures forall p :: IsPath(c, start, p, a) ==> PathCost(p) >= c[a].totCost
    ensures exists p :: IsPath(c, start, p, a) && PathCost(p) == c[a].totCost
  {
    hide WellFormed;
    forall p | IsPath(c, start, p, a)
      ensures PathCost(p) >= c[a].totCost
    {
      SlackTelescopes(c, start, p, a);
    }
    var p :| ZeroPath(c, start, p, a);
    SlackTelescopes(c, start, p, a);
  }

  /** Every link leads to a token on the list of the next frame or, for an input epsilon, of the same. */
  ghost predicate LinksLead(h: Heap, lists: seq<TokenList>) {
    forall f: nat, a, l :: f < |lists| && a in lists[f].toks && a in h && l in h[a].links ==>
      var k := f + if l.ilabel == 0 then 0 else 1;
      k < |lists| && l.nextTok in lists[k].toks
  }

  lemma LinksLeadOn(c: Created, h: Heap, lists: seq<TokenList>)
    requires WellFormed(c) && Agree(c, h) && Live(h) && ListsOk(c, h, lists) && forall a :: a in c ==> c[a].frame < |lists|
    ensures LinksLead(h, lists)
  {
    forall f: nat, a, l | f < |lists| && a in lists[f].toks && a in h && l in h[a].links
      ensures var k := f + if l.ilabel == 0 then 0 else 1;
              k < |lists| && l.nextTok in lists[k].toks
    {
      assert OnFrame(c, h, f, lists[f].toks);
      SlackInHeap(c, h, a, l);
      OnItsList(c, h, lists, l.nextTok);
    }
  }

  lemma OnItsList(c: Created, h: Heap, lists: seq<TokenList>, a: Addr)
    requires ListsOk(c, h, lists) && a in h && a in c && c[a].frame < |lists|
    ensures a in lists[c[a].frame].toks
  {
    assert OnFrame(c, h, c[a].frame, lists[c[a].frame].toks);
  }

  lemma NothingBeyond(g: Graph, u: Utterance, config: Config, n: nat, s: Snapshot)
    requires GoodSnapshot(g, u, n, config.latticeBeam, s) && AllFollowed(g, u, s.created, s.start, n)
    requires NoExtension(g, u, n, Previous(s.toks, s.heap, Inf))
    ensures forall path :: Walk(g, u, path).Some? ==> Walk(g, u, path).value.frames <= n
  {
    hide Listed, FlagsOk, MarksOk, Live, Addresses, Consistent, Front, History, AllFollowed, Candidate, Walk;
    forall path | Walk(g, u, path).Some?
      ensures Walk(g, u, path).value.frames <= n
    {
      NoPathBeyond(g, u, s.created, s.heap, n, s.start, s.toks, path);
    }
  }
}
