/** The decoder with backpointers and reference counts. */
module BiglmDecoder {
  import opened Basics
  import opened Composition
  import opened Costs
  import opened OrderStatistics
  import opened RefCounting
  import opened Tracebacks
  import opened BeamSearch
  import opened BiglmSearch
  import opened ComposedPaths

  class BiglmFasterDecoder {
    const graph: Graph
    const opts: Options
    ghost const potential: map<PairId, int>

    var toks: map<PairId, Addr>
    var queue: seq<PairId>

    var heap: Heap
    var nextAddr: Addr
    ghost var origin: map<Addr, Origin>

    /** What the search has explored, frame by frame. */
    ghost var layers: seq<Layer>
    ghost var crossings: seq<Crossing>

    // ----- tokens -----

    /** Drops one reference; the last one takes the token with it, and its reference to its predecessor. */
    method TokenDelete(tok: Addr, ghost held: multiset<Addr>)
      requires Counted(heap, held) && tok in held
      modifies `heap
      ensures Counted(heap, held - multiset{tok}) && Shrunk(old(heap), heap)
      ensures old(heap)[tok].refCount == 1 ==> tok !in heap
      decreases tok
    {
      hide Counted;
      CountedToken(heap, held, tok);
      if heap[tok].refCount == 1 {
        FreeCounted(heap, held, tok);
        Destroy(tok, held);
      } else {
        ReleaseCounted(heap, held, tok);
        heap := Recounted(heap, tok, -1);
      }
    }

    /** A token's end.  Nobody but the caller refers to it any more. */
    method Destroy(tok: Addr, ghost held: multiset<Addr>)
      requires Counted(heap, held) && tok in held && tok in heap && heap[tok].refCount == 1
      modifies `heap
      ensures Counted(heap, held - multiset{tok}) && Shrunk(old(heap), heap) && tok !in heap
      decreases tok, 0
    {
      hide Counted;
      CountedToken(heap, held, tok);
      FreeCounted(heap, held, tok);
      assert heap[tok].refCount == 1;
      var prev := heap[tok].prev;
      heap := heap - {tok};
      if prev.Some? {
        TokenDelete(prev.value, held - multiset{tok} + multiset{prev.value});
        assert held - multiset{tok} + multiset{prev.value} - multiset{prev.value} == held - multiset{tok};
      }
    }

    /** References are counted, and every token stands for a path. */
    ghost predicate Sound(u: Utterance, held: multiset<Addr>)
      reads this
    {
      && Counted(heap, held) && OriginsOk(graph, u, heap, origin)
      && forall a :: a in origin || a in heap ==> a < nextAddr
    }

    /** Makes a token for one more arc, holding on to the token before it. */
    method NewToken(ghost u: Utterance, arc: Arc, acWeight: Cost, prev: Addr, ghost i: nat,
                    ghost held: multiset<Addr>) returns (tok: Addr)
      requires Sound(u, held) && prev in heap && prev in origin
      requires IsPair(graph, origin[prev].place.pair) && i < ArcCount(graph, origin[prev].place.pair)
      requires arc == TokenArc(graph, origin[prev].place.pair, i)
      requires heap[prev].weight.Add(arc.weight).Add(acWeight)
        == match TakeArc(graph, u, origin[prev].place, i) case None => Inf case Some(at) => Fin(at.cost)
      modifies `heap, `nextAddr, `origin
      ensures tok == old(nextAddr) && nextAddr == tok + 1 && forall a :: a in origin || a in heap ==> a < nextAddr
      ensures heap == Recounted(old(heap), prev, 1)[tok := Token(arc, Some(prev), 1, old(heap)[prev].weight.Add(arc.weight).Add(acWeight))]
      ensures match TakeArc(graph, u, old(origin)[prev].place, i)
        case None => origin == old(origin) && Counted(heap, held + multiset{tok})
        case Some(at) => origin == old(origin)[tok := Origin(Snoc(old(origin)[prev].path, i), at)] && Sound(u, held + multiset{tok})
    {
      hide Counted, OriginsOk, TakeArc, TokenArc, IsPair, Recounted;
      tok := nextAddr;
      nextAddr := nextAddr + 1;
      var weight := heap[prev].weight.Add(arc.weight).Add(acWeight);
      var t := Token(arc, Some(prev), 1, weight);
      NewTokenCounted(heap, held, tok, t);
      if weight.Fin? {
        OriginExtended(graph, u, heap, origin, prev, i, tok, t);
        origin := origin[tok := Origin(Snoc(origin[prev].path, i), TakeArc(graph, u, origin[prev].place, i).value)];
      }
      heap := Recounted(heap, prev, 1)[tok := t];
      RecountedKeys(old(heap), prev, 1);
    }

    /** Puts a new token into the hash, or keeps the one that is there if it weighs no more. */
    method Offer(ghost u: Utterance, pair: PairId, newTok: Addr, ghost n: nat,
                 ghost rest: multiset<Addr>) returns (taken: bool)
      requires Sound(u, References(toks) + multiset{newTok} + rest) && HashOk(graph, heap, origin, toks, n)
      requires newTok in heap && newTok in origin && newTok !in toks.Values && IsPair(graph, pair)
      requires origin[newTok].place.pair == pair && origin[newTok].place.frames == n
      modifies `heap, `toks
      ensures Sound(u, References(toks) + rest) && HashOk(graph, heap, origin, toks, n) && Shrunk(old(heap), heap)
      ensures taken <==> pair in old(toks) ==> origin[newTok].place.cost < HashCosts(origin, old(toks))[pair]
      ensures toks == if taken then old(toks)[pair := newTok] else old(toks)
    {
      hide Counted, OriginsOk, IsPair, Shrunk, References, OriginOk;
      HashInjective(graph, heap, origin, toks, n);
      OriginWeight(graph, u, heap, origin, newTok);
      if pair !in toks {
        ReferenceAdded(toks, pair, newTok);
        toks := toks[pair := newTok];
        taken := true;
        ShrunkRefl(heap);
      } else {
        var tok := toks[pair];
        OriginWeight(graph, u, heap, origin, tok);
        taken := heap[newTok].weight.Lt(heap[tok].weight);
        ghost var h0, held := heap, References(toks) + multiset{newTok} + rest;
        ReferencesHeld(toks, multiset{newTok} + rest);
        assert held == References(toks) + (multiset{newTok} + rest);
        if taken {
          ReferenceReplaced(toks, pair, newTok);
          TokenDelete(tok, held);
          assert held == References(toks[pair := newTok]) + rest + multiset{tok};
          assert held - multiset{tok} == References(toks[pair := newTok]) + rest;
          toks := toks[pair := newTok];
        } else {
          TokenDelete(newTok, held);
          assert held == References(toks) + rest + multiset{newTok};
          assert held - multiset{newTok} == References(toks) + rest;
        }
        OriginsShrunk(graph, u, h0, origin, heap, origin);
        ShrunkKeys(h0, heap);
        ReferencesHeld(toks, rest);
        HashKept(graph, u, heap, origin, toks, n, References(toks) + rest);
      }
    }

    // ----- nonemitting arcs -----

    /** The state of a relaxation n frames in. */
    ghost predicate Relaxing(u: Utterance, n: nat, lo: int)
      reads this
    {
      && Sound(u, References(toks)) && HashOk(graph, heap, origin, toks, n)
      && BoundedBelow(HashCosts(origin, toks), potential, lo)
      && forall p :: p in queue ==> p in toks
    }

    /** Discards a new token that has turned out to be too heavy: everything is as before it was made. */
    method Discard(ghost u: Utterance, newTok: Addr, ghost n: nat, ghost h0: Heap, ghost origin0: map<Addr, Origin>)
      requires Counted(heap, References(toks) + multiset{newTok}) && newTok in heap && heap[newTok].refCount == 1
      requires Shrunk(h0, heap - {newTok}) && OriginsOk(graph, u, h0, origin0) && HashOk(graph, h0, origin0, toks, n)
      requires forall a :: a in origin0 ==> a in origin && origin[a] == origin0[a]
      requires forall a :: a in origin || a in heap ==> a < nextAddr
      modifies `heap
      ensures Sound(u, References(toks)) && HashOk(graph, heap, origin, toks, n)
    {
      hide Counted, OriginsOk, IsPair, References, Shrunk;
      ghost var h1 := heap;
      TokenDelete(newTok, References(toks) + multiset{newTok});
      assert References(toks) + multiset{newTok} - multiset{newTok} == References(toks);
      ShrunkKeys(h1, heap);
      ShrunkWithout(h0, h1, heap, newTok);
      OriginsShrunk(graph, u, h0, origin0, heap, origin);
      ReferencesHeld(toks, multiset{});
      assert References(toks) + multiset{} == References(toks);
      HashKept(graph, u, heap, origin, toks, n, References(toks));
    }

    /** Follows one arc out of a token within the cutoff, if it is an epsilon arc. */
    method FollowEpsilonArc(ghost u: Utterance, pair: PairId, tok: Addr, i: nat, cutoff: int, ghost n: nat,
                            ghost lo: int, ghost entry: map<PairId, int>, ghost bound: Cost)
      requires graph.Valid() && Feasible(graph, potential) && Relaxing(u, n, lo)
      requires IsPair(graph, pair) && i < ArcCount(graph, pair) && pair in toks && toks[pair] == tok
      requires pair in HashCosts(origin, toks) && Followed(graph, HashCosts(origin, toks), cutoff, pair, i)
      requires RelaxedBut(graph, HashCosts(origin, toks), cutoff, queue, {pair})
      requires HashCosts(origin, toks)[pair] <= cutoff && bound == Fin(cutoff + 1)
      requires Attained(graph, entry, bound, HashCosts(origin, toks))
      modifies `heap, `toks, `nextAddr, `origin, `queue
      ensures Relaxing(u, n, lo) && pair in toks && toks[pair] == tok
      ensures pair in HashCosts(origin, toks) && HashCosts(origin, toks)[pair] == old(HashCosts(origin, toks))[pair]
      ensures Attained(graph, entry, bound, HashCosts(origin, toks))
      ensures Progress(graph, potential, lo, old(HashCosts(origin, toks)), old(queue), HashCosts(origin, toks), queue)
      ensures pair in HashCosts(origin, toks) && Followed(graph, HashCosts(origin, toks), cutoff, pair, i + 1)
      ensures RelaxedBut(graph, HashCosts(origin, toks), cutoff, queue, {pair})
    {
      hide Counted, OriginsOk, IsPair, References, Shrunk, Graph.Valid, Feasible, BoundedBelow, Progress, HashCosts,
        TokenArc, TakeArc, PairArcAt, Recounted, Followed, RelaxedBut, Attained;
      ghost var costs, h0, origin0 := HashCosts(origin, toks), heap, origin;
      ghost var taken := false;
      ProgressRefl(graph, potential, lo, costs, queue);
      ArcParts(graph, pair, i);
      var arcRef := graph.arcs[PairToState(pair)][i];
      if arcRef.ilabel == 0 {
        var (arc, nextLmState) := PropagateLm(graph, PairToLmState(pair), arcRef);
        var nextPair := ConstructPair(arc.nextState, nextLmState);
        HashCost(graph, heap, origin, toks, n, pair);
        OriginWeight(graph, u, heap, origin, tok);
        EpsilonTaken(graph, u, origin[tok].place, i);
        var newTok := NewToken(u, arc, Fin(0), tok, i, References(toks));
        CostsExtended(graph, h0, origin0, origin, toks, n);
        if !heap[newTok].weight.Le(Fin(cutoff)) {
          NewTokenShrunk(h0, tok, newTok, heap[newTok]);
          Discard(u, newTok, n, h0, origin0);
        } else {
          EpsilonBounded(graph, potential, lo, costs, pair, i);
          HashExtended(graph, u, h0, origin0, origin, heap, toks, n, multiset{newTok});
          HashNotIn(graph, h0, origin0, toks, n, newTok);
          assert References(toks) + multiset{newTok} + multiset{} == References(toks) + multiset{newTok};
          taken := OfferAndQueue(u, nextPair, newTok, n);
          if taken {
            CostsUpdated(origin, old(toks), nextPair, newTok);
            ImprovementIsProgress(graph, potential, lo, costs, nextPair, origin[newTok].place.cost, old(queue), queue);
            ProgressLowers(graph, potential, lo, costs, old(queue), HashCosts(origin, toks), queue);
            AttainedMore(graph, entry, bound, costs, pair, i);
          }
        }
      }
      RelaxStep(graph, costs, HashCosts(origin, toks), cutoff, old(queue), queue, pair, i, taken);
    }

    /** Offers a token to the hash, and queues its pair if it was taken. */
    method OfferAndQueue(ghost u: Utterance, pair: PairId, newTok: Addr, ghost n: nat) returns (ghost taken: bool)
      requires Sound(u, References(toks) + multiset{newTok} + multiset{}) && HashOk(graph, heap, origin, toks, n)
      requires newTok in heap && newTok in origin && newTok !in toks.Values && IsPair(graph, pair)
      requires origin[newTok].place.pair == pair && origin[newTok].place.frames == n
      modifies `heap, `toks, `queue
      ensures Sound(u, References(toks)) && HashOk(graph, heap, origin, toks, n)
      ensures taken <==> pair in old(toks) ==> origin[newTok].place.cost < HashCosts(origin, old(toks))[pair]
      ensures toks == if taken then old(toks)[pair := newTok] else old(toks)
      ensures queue == if taken then old(queue) + [pair] else old(queue)
    {
      hide Counted, OriginsOk, IsPair, References, HashOk;
      var isTaken := Offer(u, pair, newTok, n, multiset{});
      assert References(toks) + multiset{} == References(toks);
      if isTaken {
        queue := queue + [pair];
      }
      taken := isTaken;
    }

    /** Follows all epsilon arcs out of a token. */
    method ExpandToken(ghost u: Utterance, pair: PairId, tok: Addr, cutoff: int, ghost n: nat, ghost lo: int,
                       ghost entry: map<PairId, int>, ghost bound: Cost)
      requires graph.Valid() && Feasible(graph, potential) && Relaxing(u, n, lo) && pair in toks && toks[pair] == tok
      requires pair in HashCosts(origin, toks) && Followed(graph, HashCosts(origin, toks), cutoff, pair, 0)
      requires RelaxedBut(graph, HashCosts(origin, toks), cutoff, queue, {pair})
      requires HashCosts(origin, toks)[pair] <= cutoff && bound == Fin(cutoff + 1)
      requires Attained(graph, entry, bound, HashCosts(origin, toks))
      modifies `heap, `toks, `nextAddr, `origin, `queue
      ensures Attained(graph, entry, bound, HashCosts(origin, toks))
      ensures Relaxing(u, n, lo) && RelaxedBut(graph, HashCosts(origin, toks), cutoff, queue, {})
      ensures Progress(graph, potential, lo, old(HashCosts(origin, toks)), old(queue), HashCosts(origin, toks), queue)
    {
      hide Relaxing, Sound, IsPair, Graph.Valid, Feasible, Progress, HashCosts, Followed, RelaxedBut, Attained;
      PairInHash(u, n, lo, pair);
      ProgressRefl(graph, potential, lo, HashCosts(origin, toks), queue);
      for i := 0 to ArcCount(graph, pair)
        invariant Relaxing(u, n, lo) && pair in toks && toks[pair] == tok
        invariant Progress(graph, potential, lo, old(HashCosts(origin, toks)), old(queue), HashCosts(origin, toks), queue)
        invariant pair in HashCosts(origin, toks) && Followed(graph, HashCosts(origin, toks), cutoff, pair, i)
        invariant RelaxedBut(graph, HashCosts(origin, toks), cutoff, queue, {pair})
        invariant HashCosts(origin, toks)[pair] <= cutoff && Attained(graph, entry, bound, HashCosts(origin, toks))
      {
        ghost var costs1, queue1 := HashCosts(origin, toks), queue;
        FollowEpsilonArc(u, pair, tok, i, cutoff, n, lo, entry, bound);
        ProgressTransitive(graph, potential, lo, old(HashCosts(origin, toks)), old(queue), costs1, queue1, HashCosts(origin, toks), queue);
      }
      RelaxDone(graph, HashCosts(origin, toks), cutoff, queue, pair);
    }

    lemma PairInHash(u: Utterance, n: nat, lo: int, pair: PairId)
      requires Relaxing(u, n, lo) && pair in toks
      ensures IsPair(graph, pair) && toks[pair] in heap && pair in HashCosts(origin, toks)
      ensures heap[toks[pair]].weight == Fin(HashCosts(origin, toks)[pair])
    {
      hide OriginsOk, Counted, IsPair, BoundedBelow, HashCosts, HashOk, References;
      HashCost(graph, heap, origin, toks, n, pair);
      OriginWeight(graph, u, heap, origin, toks[pair]);
    }

    /** Relaxes epsilon arcs; it ends although tokens are queued again whenever they get lighter.  Afterwards the weights are
        those of the best epsilon paths within the cutoff. */
    method ProcessNonemitting(ghost u: Utterance, cutoff: int, ghost n: nat)
      requires graph.Valid() && Feasible(graph, potential) && queue == []
      requires Sound(u, References(toks)) && HashOk(graph, heap, origin, toks, n)
      modifies `heap, `toks, `nextAddr, `origin, `queue
      ensures queue == [] && Sound(u, References(toks)) && HashOk(graph, heap, origin, toks, n)
      ensures Lowered(old(HashCosts(origin, toks)), HashCosts(origin, toks))
      ensures Closes(graph, Layer(old(HashCosts(origin, toks)), Fin(cutoff + 1), HashCosts(origin, toks)))
      ensures old(toks) == map[] ==> toks == map[]
    {
      hide Counted, OriginsOk, References, IsPair, Graph.Valid, Feasible, HashCosts, BoundedBelow, Unseen, Improvable,
        HashOk, RelaxedBut, Followed, Attained, Closes;
      ghost var entry, bound := HashCosts(origin, toks), Fin(cutoff + 1);
      AttainedAtFirst(graph, entry, bound);
      QueueAll();
      assert old(toks) == map[] ==> queue == [] by {
        if queue != [] {
          assert queue[0] in queue;
        }
      }
      ghost var lo := LeastPotential(HashCosts(origin, toks), potential);
      HashWeights(graph, u, heap, origin, toks, n);
      RelaxStarts(graph, HashCosts(origin, toks), cutoff, queue);
      while queue != []
        invariant Relaxing(u, n, lo) && Lowered(old(HashCosts(origin, toks)), HashCosts(origin, toks))
        invariant RelaxedBut(graph, HashCosts(origin, toks), cutoff, queue, {}) && Attained(graph, entry, bound, HashCosts(origin, toks))
        invariant old(toks) == map[] ==> toks == map[] && queue == []
        decreases Unseen(graph, HashCosts(origin, toks)), Improvable(HashCosts(origin, toks), potential, lo), |queue|
      {
        var pair := queue[|queue| - 1];
        assert queue == queue[..|queue| - 1] + [pair];
        queue := queue[..|queue| - 1];
        PairInHash(u, n, lo, pair);
        RelaxDequeue(graph, HashCosts(origin, toks), cutoff, queue, pair);
        var tok := toks[pair];
        if heap[tok].weight.Le(Fin(cutoff)) {
          ExpandToken(u, pair, tok, cutoff, n, lo, entry, bound);
        }
      }
      RelaxedCloses(graph, entry, cutoff, bound, HashCosts(origin, toks));
    }

    /** Puts all pairs of the hash on the queue, in no particular order. */
    method QueueAll()
      requires queue == []
      modifies `queue
      ensures forall p :: p in queue <==> p in toks
    {
      var elems := toks.Keys;
      while elems != {}
        invariant elems <= toks.Keys && forall p :: p in queue <==> p in toks && p !in elems
      {
        var p :| p in elems;
        elems := elems - {p};
        queue := queue + [p];
      }
    }

    // ----- the cutoff of a frame -----

    /** Lists the weights of the tokens, in no particular order, and finds the best token. */
    method ScanTokens(last: map<PairId, Addr>, ghost costs: map<PairId, int>)
      returns (tmpArray: seq<int>, bestWeight: int, best: Option<PairId>, ghost order: seq<PairId>)
      requires costs.Keys == last.Keys && forall p :: p in last ==> last[p] in heap && heap[last[p]].weight == Fin(costs[p])
      ensures Lists(tmpArray, order, costs) && (forall p :: p in last ==> p in order) && |order| == |last|
      ensures BestWeight(costs, bestWeight)
      ensures best.Some? ==> best.value in last && costs[best.value] == bestWeight
      ensures best.None? ==> bestWeight == NO_WEIGHT
    {
      var elems := last.Keys;
      tmpArray, order, best, bestWeight := [], [], None, NO_WEIGHT;
      while elems != {}
        invariant elems <= last.Keys && |order| + |elems| == |last|
        invariant Lists(tmpArray, order, costs)
        invariant forall p :: p in last ==> (p in order <==> p !in elems)
        invariant bestWeight <= NO_WEIGHT && forall p :: p in order ==> bestWeight <= costs[p]
        invariant best.None? ==> bestWeight == NO_WEIGHT
        invariant best.Some? ==> best.value in last && costs[best.value] == bestWeight
      {
        var p :| p in elems;
        elems := elems - {p};
        order := order + [p];
        var w := heap[last[p]].weight.value;
        tmpArray := tmpArray + [w];
        if w < bestWeight {
          bestWeight, best := w, Some(p);
        }
      }
      assert |last.Keys| == |last|;
    }

    /** The cutoff for a frame's tokens and the beam for the next frame. */
    method GetCutoff(last: map<PairId, Addr>, ghost costs: map<PairId, int>)
      returns (cutoff: Cost, adaptiveBeam: Cost, best: Option<PairId>)
      requires costs.Keys == last.Keys && forall p :: p in last ==> last[p] in heap && heap[last[p]].weight == Fin(costs[p])
      ensures exists bestWeight :: BestWeight(costs, bestWeight) && CutoffFor(opts, costs, bestWeight, cutoff, adaptiveBeam)
      ensures best.Some? ==> IsBestOf(costs, best.value)
      ensures best.None? ==> forall p :: p in costs ==> costs[p] >= NO_WEIGHT
    {
      var tmpArray, least;
      ghost var order;
      tmpArray, least, best, order := ScanTokens(last, costs);
      assert |costs| == |last| by { assert |costs.Keys| == |costs| && |last.Keys| == |last|; }
      if opts.maxActive == UNLIMITED && opts.minActive == 0 {
        cutoff, adaptiveBeam := Fin(least).Add(opts.beam), opts.beam;
        assert CutoffFor(opts, costs, least, cutoff, adaptiveBeam);
        return;
      }
      var beamCutoff, minActiveCutoff, maxActiveCutoff := Fin(least).Add(opts.beam), Inf, Inf;
      if |tmpArray| > opts.maxActive {
        var x := NthElement(tmpArray, opts.maxActive);
        NthIsActiveBound(tmpArray, order, costs, opts.maxActive, x);
        maxActiveCutoff := Fin(x);
      }
      if |tmpArray| > opts.minActive {
        if opts.minActive == 0 {
          minActiveCutoff := Fin(least);
        } else {
          var x := NthElement(tmpArray, opts.minActive);
          NthIsActiveBound(tmpArray, order, costs, opts.minActive, x);
          minActiveCutoff := Fin(x);
        }
      }
      if maxActiveCutoff.Lt(beamCutoff) {
        cutoff, adaptiveBeam := maxActiveCutoff, maxActiveCutoff.Plus(opts.beamDelta - least);
      } else if beamCutoff.Lt(minActiveCutoff) {
        cutoff, adaptiveBeam := minActiveCutoff, minActiveCutoff.Plus(opts.beamDelta - least);
      } else {
        cutoff, adaptiveBeam := beamCutoff, opts.beam;
      }
      assert CutoffPick(opts, costs, least, maxActiveCutoff, minActiveCutoff, cutoff, adaptiveBeam);
      assert CutoffFor(opts, costs, least, cutoff, adaptiveBeam);
    }

    // ----- emitting arcs -----

    /** A first bound on the next frame's cutoff, from the best token's arcs. */
    method BestTokenCutoff(u: Utterance, frame: nat, best: PairId, weight: int, adaptiveBeam: Cost,
                           ghost costs0: map<PairId, int>)
      returns (nextCutoff: int)
      requires IsPair(graph, best) && best in costs0 && costs0[best] == weight
      ensures nextCutoff <= NO_WEIGHT
      ensures BestArcsBound(graph, u, frame, costs0, adaptiveBeam, Fin(NO_WEIGHT), Fin(nextCutoff), best, ArcCount(graph, best))
    {
      hide BestArcsBound, TokenArc, IsPair;
      nextCutoff := NO_WEIGHT;
      NoArcsYet(graph, u, frame, costs0, adaptiveBeam, Fin(NO_WEIGHT), best);
      for i := 0 to ArcCount(graph, best)
        invariant nextCutoff <= NO_WEIGHT
        invariant BestArcsBound(graph, u, frame, costs0, adaptiveBeam, Fin(NO_WEIGHT), Fin(nextCutoff), best, i)
      {
        ghost var bound := nextCutoff;
        ArcParts(graph, best, i);
        var arcRef := graph.arcs[PairToState(best)][i];
        if arcRef.ilabel != 0 {
          var (arc, _) := PropagateLm(graph, PairToLmState(best), arcRef);
          var newWeight := arc.weight.Add(Fin(weight)).Add(u.acousticCost(frame, arc.ilabel)).Add(adaptiveBeam);
          if newWeight.Lt(Fin(nextCutoff)) {
            nextCutoff := newWeight.value;
          }
        }
        BestArcsMore(graph, u, frame, costs0, adaptiveBeam, Fin(NO_WEIGHT), Fin(bound), Fin(nextCutoff), best, i);
      }
    }

    /** The state of an emission, once the extensions in x.order have been visited. */
    ghost predicate EmissionState(u: Utterance, frame: nat, costs0: map<PairId, int>, x: Crossing, nextCutoff: int)
      reads this
    {
      && Enters(x, HashCosts(origin, toks)) && Light(HashCosts(origin, toks))
      && Fin(nextCutoff) == CutoffAfter(x.order, x.first, x.margin) && nextCutoff <= NO_WEIGHT
      && forall v :: v in x.order ==> IsVisit(graph, u, frame, costs0, x.cutoff, v)
    }

    /** Follows one arc out of a surviving token, if it emits and stays under the running cutoff. */
    method FollowEmittingArc(u: Utterance, pair: PairId, tok: Addr, frame: nat, i: nat, nextCutoff: int,
                             adaptiveBeam: Cost, ghost rest: multiset<Addr>, ghost costs0: map<PairId, int>, ghost x: Crossing,
                             ghost done: set<PairId>) returns (nextCutoff': int, ghost x': Crossing)
      requires graph.Valid() && Sound(u, References(toks) + rest) && HashOk(graph, heap, origin, toks, frame + 1)
      requires tok in rest && tok in heap && tok in origin && IsPair(graph, pair) && i < ArcCount(graph, pair)
      requires origin[tok].place.pair == pair && origin[tok].place.frames == frame
      requires pair in costs0 && costs0[pair] == origin[tok].place.cost && Fin(costs0[pair]).Le(x.cutoff)
      requires EmissionState(u, frame, costs0, x, nextCutoff) && x.margin == adaptiveBeam && pair !in done
      requires VisitedSoFar(graph, u, frame, costs0, x.cutoff, x.order, done, pair, i)
      modifies `heap, `toks, `nextAddr, `origin
      ensures Sound(u, References(toks) + rest) && HashOk(graph, heap, origin, toks, frame + 1)
      ensures tok in heap && Grown(old(origin), origin)
      ensures EmissionState(u, frame, costs0, x', nextCutoff') && x' == x.(order := x'.order)
      ensures VisitedSoFar(graph, u, frame, costs0, x'.cutoff, x'.order, done, pair, i + 1)
    {
      hide Counted, OriginsOk, IsPair, References, Shrunk, Graph.Valid, TokenArc, TakeArc, PairArcAt, Recounted, HashOk,
        HashCosts, Light, Enters, CutoffAfter, VisitedSoFar;
      ghost var costs := HashCosts(origin, toks);
      nextCutoff', x' := nextCutoff, x;
      ArcParts(graph, pair, i);
      var arcRef := graph.arcs[PairToState(pair)][i];
      if arcRef.ilabel != 0 {
        var (arc, nextLmState) := PropagateLm(graph, PairToLmState(pair), arcRef);
        OriginWeight(graph, u, heap, origin, tok);
        EmittingTaken(graph, u, origin[tok].place, i);
        var acWeight := u.acousticCost(frame, arc.ilabel);
        var newWeight := arc.weight.Add(heap[tok].weight).Add(acWeight);
        if newWeight.Fin? {
          ghost var v := Visit(pair, i, PairArcAt(graph, pair, i).next, newWeight.value);
          x' := x.(order := x.order + [v]);
          VisitedMore(graph, u, frame, costs0, x.cutoff, x.order, done, pair, i, v);
          CutoffNow(x.order, v, x.first, x.margin);
          if newWeight.Lt(Fin(nextCutoff)) {
            if newWeight.Add(adaptiveBeam).Lt(Fin(nextCutoff)) {
              nextCutoff' := newWeight.Add(adaptiveBeam).value;
            }
            ExtendToken(u, pair, tok, frame, i, arc, nextLmState, acWeight, rest);
          }
          EntersMore(x, v, costs, HashCosts(origin, toks));
          return;
        }
      }
      NotVisited(graph, u, frame, costs0, x.cutoff, x.order, done, pair, i);
    }

    /** Makes the token that an emitting arc leads to, and offers it to the hash. */
    method ExtendToken(ghost u: Utterance, ghost pair: PairId, tok: Addr, ghost frame: nat, ghost i: nat, arc: Arc,
                       nextLmState: StateId, acWeight: Cost,
                       ghost rest: multiset<Addr>)
      requires graph.Valid() && Sound(u, References(toks) + rest) && HashOk(graph, heap, origin, toks, frame + 1)
      requires tok in rest && tok in heap && tok in origin && origin[tok].place.pair == pair && origin[tok].place.frames == frame
      requires EmittingArc(graph, u, frame, pair, i) && arc == TokenArc(graph, pair, i) && arc.weight == PairArcAt(graph, pair, i).weight
      requires PairArcAt(graph, pair, i).next == ConstructPair(arc.nextState, nextLmState)
      requires acWeight == u.acousticCost(frame, PairArcAt(graph, pair, i).ilabel)
      requires Light(HashCosts(origin, toks)) && origin[tok].place.cost + EmitCost(graph, u, frame, pair, i) < NO_WEIGHT
      modifies `heap, `toks, `nextAddr, `origin
      ensures Sound(u, References(toks) + rest) && HashOk(graph, heap, origin, toks, frame + 1)
      ensures tok in heap && Grown(old(origin), origin)
      ensures var costs, next, x := old(HashCosts(origin, toks)), PairArcAt(graph, pair, i).next,
          old(origin)[tok].place.cost + EmitCost(graph, u, frame, pair, i);
        HashCosts(origin, toks) == if next in costs ==> x < costs[next] then costs[next := x] else costs
      ensures Light(HashCosts(origin, toks))
    {
      hide Counted, OriginsOk, IsPair, References, Shrunk, Graph.Valid, TokenArc, TakeArc, PairArcAt, Recounted, HashOk,
        HashCosts, Light;
      ghost var costs := HashCosts(origin, toks);
      OriginWeight(graph, u, heap, origin, tok);
      EmittingTaken(graph, u, origin[tok].place, i);
      PairArcStays(graph, pair, i);
      var nextPair := ConstructPair(arc.nextState, nextLmState);
      ghost var h0, origin0 := heap, origin;
      ghost var held := References(toks) + rest;
      var newTok := NewToken(u, arc, acWeight, tok, i, held);
      assert held + multiset{newTok} == References(toks) + (rest + multiset{newTok});
      HashExtended(graph, u, h0, origin0, origin, heap, toks, frame + 1, rest + multiset{newTok});
      CostsExtended(graph, h0, origin0, origin, toks, frame + 1);
      HashNotIn(graph, h0, origin0, toks, frame + 1, newTok);
      assert held + multiset{newTok} == References(toks) + multiset{newTok} + rest;
      var taken := Offer(u, nextPair, newTok, frame + 1, rest);
      CostsUpdated(origin, old(toks), nextPair, newTok);
      OfferLight(costs, nextPair, origin[newTok].place.cost, taken, HashCosts(origin, toks));
      CountedToken(heap, References(toks) + rest, tok);
    }

    /** Leaves one token: follows its emitting arcs if it survives, and lets go of it. */
    method LeaveToken(u: Utterance, pair: PairId, tok: Addr, frame: nat, weightCutoff: Cost, nextCutoff: int,
                      adaptiveBeam: Cost, ghost rest: multiset<Addr>, ghost costs0: map<PairId, int>, ghost x: Crossing,
                      ghost done: set<PairId>) returns (nextCutoff': int, ghost x': Crossing)
      requires graph.Valid() && Sound(u, References(toks) + (rest + multiset{tok})) && HashOk(graph, heap, origin, toks, frame + 1)
      requires tok in heap && tok in origin && IsPair(graph, pair)
      requires origin[tok].place.pair == pair && origin[tok].place.frames == frame
      requires pair in costs0 && costs0[pair] == origin[tok].place.cost
      requires EmissionState(u, frame, costs0, x, nextCutoff) && x.margin == adaptiveBeam && pair !in done
      requires x.cutoff == weightCutoff.Plus(-1) && TokensVisited(graph, u, frame, costs0, x.cutoff, x.order, done)
      modifies `heap, `toks, `nextAddr, `origin
      ensures Sound(u, References(toks) + rest) && HashOk(graph, heap, origin, toks, frame + 1)
      ensures Grown(old(origin), origin)
      ensures EmissionState(u, frame, costs0, x', nextCutoff') && x' == x.(order := x'.order)
      ensures TokensVisited(graph, u, frame, costs0, x'.cutoff, x'.order, done + {pair})
    {
      hide Counted, OriginsOk, IsPair, References, Shrunk, Graph.Valid, HashOk, HashCosts, Light, Enters, CutoffAfter, VisitedSoFar,
        TokensVisited;
      nextCutoff', x' := nextCutoff, x;
      ghost var held := rest + multiset{tok};
      OriginWeight(graph, u, heap, origin, tok);
      NextToken(graph, u, frame, costs0, x.cutoff, x.order, done, pair);
      if heap[tok].weight.Lt(weightCutoff) {
        CountedToken(heap, References(toks) + held, tok);
        ArcLeadsHere(graph, u, heap, origin, tok);
        assert PairToState(pair) == heap[tok].arc.nextState;
        for i := 0 to ArcCount(graph, pair)
          invariant Sound(u, References(toks) + held) && HashOk(graph, heap, origin, toks, frame + 1)
          invariant tok in heap && Grown(old(origin), origin)
          invariant EmissionState(u, frame, costs0, x', nextCutoff') && x' == x.(order := x'.order)
          invariant VisitedSoFar(graph, u, frame, costs0, x'.cutoff, x'.order, done, pair, i)
        {
          nextCutoff', x' := FollowEmittingArc(u, pair, tok, frame, i, nextCutoff', adaptiveBeam, held, costs0, x', done);
        }
        VisitedToken(graph, u, frame, costs0, x'.cutoff, x'.order, done, pair, ArcCount(graph, pair));
      } else {
        VisitedToken(graph, u, frame, costs0, x.cutoff, x.order, done, pair, 0);
      }
      LetGo(u, tok, frame + 1, rest);
    }

    /** Drops a token that is held apart from the hash. */
    method LetGo(ghost u: Utterance, tok: Addr, ghost n: nat, ghost rest: multiset<Addr>)
      requires Sound(u, References(toks) + (rest + multiset{tok})) && HashOk(graph, heap, origin, toks, n)
      modifies `heap
      ensures Sound(u, References(toks) + rest) && HashOk(graph, heap, origin, toks, n)
    {
      hide Counted, OriginsOk, IsPair, References, Shrunk, HashOk;
      ghost var h0 := heap;
      ghost var held := References(toks) + (rest + multiset{tok});
      assert tok in held && held - multiset{tok} == References(toks) + rest;
      TokenDelete(tok, held);
      ShrunkKeys(h0, heap);
      OriginsShrunk(graph, u, h0, origin, heap, origin);
      HashExtended(graph, u, h0, origin, origin, heap, toks, n, rest);
    }

    /** Leaves one of the remaining tokens of the frame. */
    method LeaveNext(u: Utterance, last: map<PairId, Addr>, pair: PairId, frame: nat, weightCutoff: Cost,
                     nextCutoff: int, adaptiveBeam: Cost, ghost costs0: map<PairId, int>, ghost x: Crossing, ghost done: set<PairId>)
      returns (nextCutoff': int, ghost x': Crossing)
      requires graph.Valid() && Sound(u, References(toks) + References(last)) && HashOk(graph, heap, origin, toks, frame + 1)
      requires HashOk(graph, heap, origin, last, frame) && pair in last
      requires pair in HashCosts(origin, last) && pair in costs0 && costs0[pair] == HashCosts(origin, last)[pair]
      requires EmissionState(u, frame, costs0, x, nextCutoff) && x.margin == adaptiveBeam && pair !in done
      requires x.cutoff == weightCutoff.Plus(-1) && TokensVisited(graph, u, frame, costs0, x.cutoff, x.order, done)
      modifies `heap, `toks, `nextAddr, `origin
      ensures Sound(u, References(toks) + References(last - {pair})) && HashOk(graph, heap, origin, toks, frame + 1)
      ensures HashOk(graph, heap, origin, last - {pair}, frame) && Grown(old(origin), origin)
      ensures EmissionState(u, frame, costs0, x', nextCutoff') && x' == x.(order := x'.order)
      ensures TokensVisited(graph, u, frame, costs0, x'.cutoff, x'.order, done + {pair})
    {
      hide Counted, OriginsOk, IsPair, References, Shrunk, Graph.Valid, HashOk, HashCosts, EmissionState, TokensVisited;
      HashWeights(graph, u, heap, origin, last, frame);
      HashCost(graph, heap, origin, last, frame, pair);
      HashInjective(graph, heap, origin, last, frame);
      ReferenceRemoved(last, pair);
      OriginWeight(graph, u, heap, origin, last[pair]);
      ghost var rest, h0, origin0 := last - {pair}, heap, origin;
      HashRemoved(graph, h0, origin0, last, frame, pair);
      nextCutoff', x' := LeaveToken(u, pair, last[pair], frame, weightCutoff, nextCutoff, adaptiveBeam, References(rest), costs0, x, done);
      assert References(toks) + References(rest) == References(rest) + References(toks);
      HashExtended(graph, u, h0, origin0, origin, heap, rest, frame, References(toks));
    }

    lemma EmissionBegins(u: Utterance, frame: nat, costs0: map<PairId, int>, x: Crossing, firstCutoff: int)
      requires toks == map[] && x.order == [] && x.first == Fin(firstCutoff) && firstCutoff <= NO_WEIGHT
      ensures EmissionState(u, frame, costs0, x, firstCutoff)
    {
      EmptyLight(origin);
      NoHashCosts(origin);
      NothingEntered(x);
    }

    /** Leaves all tokens of the last frame, in no particular order. */
    method LeaveTokens(u: Utterance, lastToks: map<PairId, Addr>, frame: nat, weightCutoff: Cost, firstCutoff: int,
                       adaptiveBeam: Cost, ghost costs: map<PairId, int>, ghost x0: Crossing) returns (nextCutoff: int, ghost x: Crossing)
      requires graph.Valid() && Sound(u, References(toks) + References(lastToks)) && toks == map[]
      requires HashOk(graph, heap, origin, lastToks, frame) && costs == HashCosts(origin, lastToks)
      requires x0.cutoff == weightCutoff.Plus(-1) && x0.first == Fin(firstCutoff) && x0.margin == adaptiveBeam && x0.order == []
      requires firstCutoff <= NO_WEIGHT
      modifies `heap, `toks, `nextAddr, `origin
      ensures Sound(u, References(toks)) && HashOk(graph, heap, origin, toks, frame + 1)
      ensures EmissionState(u, frame, costs, x, nextCutoff) && x == x0.(order := x.order)
      ensures AllCameUp(graph, u, frame, costs, x.cutoff, x.order)
    {
      hide Sound, IsPair, References, Graph.Valid, HashOk, HashCosts, EmissionState, TokensVisited, AllCameUp;
      EmptyHash(graph, heap, origin, frame + 1);
      NoHashCosts(origin);
      EmissionBegins(u, frame, costs, x0, firstCutoff);
      NothingVisited(graph, u, frame, costs, x0.cutoff);
      HashWeights(graph, u, heap, origin, lastToks, frame) by { SoundOrigins(u, References(toks) + References(lastToks)); }
      nextCutoff, x := firstCutoff, x0;
      var last := lastToks;
      assert costs.Keys - last.Keys == {};
      while last != map[]
        invariant Sound(u, References(toks) + References(last)) && HashOk(graph, heap, origin, toks, frame + 1)
        invariant HashOk(graph, heap, origin, last, frame) && last.Keys <= costs.Keys
        invariant forall p :: p in last ==> p in HashCosts(origin, last) && HashCosts(origin, last)[p] == costs[p]
        invariant EmissionState(u, frame, costs, x, nextCutoff) && x == x0.(order := x.order)
        invariant TokensVisited(graph, u, frame, costs, x.cutoff, x.order, costs.Keys - last.Keys)
        decreases |last.Keys|
      {
        var pair :| pair in last;
        ghost var done := costs.Keys - last.Keys;
        assert (last - {pair}).Keys == last.Keys - {pair};
        ghost var h0, origin0 := heap, origin;
        nextCutoff, x := LeaveNext(u, last, pair, frame, weightCutoff, nextCutoff, adaptiveBeam, costs, x, done);
        CostsRemoved(graph, h0, origin0, origin, last, frame, pair);
        last := last - {pair};
        assert costs.Keys - last.Keys == done + {pair};
      }
      assert costs.Keys - last.Keys == costs.Keys;
      VisitedAll(graph, u, frame, costs, x.cutoff, x.order);
      NoReferences();
      assert References(toks) + References(map[]) == References(toks);
    }

    lemma SoundOrigins(u: Utterance, held: multiset<Addr>)
      requires Sound(u, held)
      ensures OriginsOk(graph, u, heap, origin)
    {
      hide OriginsOk, Counted;
    }

    /** Leaves the tokens of the last frame for those of the next.  Extensions of surviving tokens come up in some order; those
        under the running cutoff make the new hash, and what is left of the cutoff is returned. */
    method ProcessEmitting(u: Utterance, frame: nat) returns (nextCutoff: int, ghost x: Crossing)
      requires graph.Valid() && Sound(u, References(toks)) && HashOk(graph, heap, origin, toks, frame)
      requires SomeLight(HashCosts(origin, toks))
      modifies `heap, `toks, `nextAddr, `origin
      ensures Sound(u, References(toks)) && HashOk(graph, heap, origin, toks, frame + 1)
      ensures CrossingFits(graph, u, opts, frame, old(HashCosts(origin, toks)), x, HashCosts(origin, toks)) && x.limit == Fin(nextCutoff)
      ensures Light(HashCosts(origin, toks))
    {
      hide Counted, OriginsOk, IsPair, References, Graph.Valid, HashOk, HashCosts, BestWeight, CutoffFor, BestArcsBound,
        Enters, AllCameUp, Light, CutoffAfter, CrossingFits;
      ghost var costs := HashCosts(origin, toks);
      HashWeights(graph, u, heap, origin, toks, frame);
      NoReferences();
      assert References(map[]) + References(toks) == References(toks);
      var last := toks;
      toks := map[];
      var cutoff, beam, best;
      cutoff, beam, best := GetCutoff(last, costs);
      nextCutoff := NO_WEIGHT;
      if best.Some? {
        HashCost(graph, heap, origin, last, frame, best.value);
        nextCutoff := BestTokenCutoff(u, frame, best.value, heap[last[best.value]].weight.value, beam, costs);
      }
      x := Crossing(cutoff.Plus(-1), beam, Fin(nextCutoff), beam, [], Inf);
      ghost var bestWeight :| BestWeight(costs, bestWeight) && CutoffFor(opts, costs, bestWeight, cutoff, beam);
      BestAttained(costs, bestWeight);
      ghost var first := nextCutoff;
      nextCutoff, x := LeaveTokens(u, last, frame, cutoff, nextCutoff, beam, costs, x);
      x := x.(limit := Fin(nextCutoff));
      EntersWhatever(x, HashCosts(origin, toks));
      CrossingMade(graph, u, opts, frame, costs, x, HashCosts(origin, toks));
    }

    // ----- whole utterances -----

    /** What holds between two utterances. */
    ghost predicate Valid()
      reads this
    {
      && graph.Valid() && Feasible(graph, potential) && queue == []
      && Counted(heap, References(toks)) && Injective(toks) && forall a :: a in heap ==> a < nextAddr
    }

    /** What holds at the end of an utterance. */
    ghost predicate Decoded(u: Utterance)
      reads this
    {
      && Sound(u, References(toks)) && HashOk(graph, heap, origin, toks, u.numFrames)
      && Searched(graph, u, opts, u.numFrames, layers, crossings) && layers[u.numFrames].costs == HashCosts(origin, toks)
    }

    constructor (graph: Graph, opts: Options, ghost potential: map<PairId, int>)
      requires graph.Valid() && Feasible(graph, potential)
      ensures Valid() && this.graph == graph && this.opts == opts
    {
      this.graph, this.opts, this.potential := graph, opts, potential;
      toks, queue, heap, nextAddr, origin := map[], [], map[], 0, map[];
    }

    /** Lets go of all tokens: afterwards none is live. */
    method ClearToks()
      requires Counted(heap, References(toks)) && Injective(toks)
      modifies `heap, `toks
      ensures heap == map[] && toks == map[]
    {
      hide Counted, References;
      while toks != map[]
        invariant Counted(heap, References(toks)) && Injective(toks)
        decreases |toks.Keys|
      {
        var pair :| pair in toks;
        ReferenceRemoved(toks, pair);
        ReferencesHeld(toks, multiset{});
        assert References(toks) + multiset{} == References(toks);
        assert References(toks) - multiset{toks[pair]} == References(toks - {pair});
        TokenDelete(toks[pair], References(toks));
        assert (toks - {pair}).Keys == toks.Keys - {pair};
        toks := toks - {pair};
      }
      NoReferences();
      NothingHeld(heap);
    }

    /** Cleans up from last time, and makes the start token. */
    method InsertStartToken(ghost u: Utterance)
      requires Valid()
      modifies this
      ensures queue == [] && Sound(u, References(toks)) && HashOk(graph, heap, origin, toks, 0)
      ensures HashCosts(origin, toks) == map[StartPair(graph) := 0]
    {
      hide Counted, OriginsOk, References;
      ClearToks();
      var startPair := ConstructPair(graph.start, graph.lmStart);
      PairRoundTrip(graph.start, graph.lmStart);
      var tok := nextAddr;
      nextAddr := nextAddr + 1;
      heap := heap[tok := Token(Arc(0, 0, Fin(0), graph.start), None, 1, Fin(0))];
      toks := toks[startPair := tok];
      origin := map[tok := Origin(From(startPair), Place(startPair, 0, 0))];
      assert startPair in HashCosts(origin, toks);
      FirstTokenCounted(tok, heap[tok]);
      FirstOrigin(graph, u, heap, origin, startPair, tok);
      OneReference(startPair, tok);
    }

    /** What holds between two frames. */
    ghost predicate Decoding(u: Utterance, n: nat)
      reads this
    {
      && graph.Valid() && Feasible(graph, potential) && queue == []
      && Sound(u, References(toks)) && HashOk(graph, heap, origin, toks, n) && SomeLight(HashCosts(origin, toks))
      && Searched(graph, u, opts, n, layers, crossings) && layers[n].costs == HashCosts(origin, toks)
    }

    /** The start token, and what epsilon arcs reach from it. */
    method BeginUtterance(u: Utterance)
      requires Valid()
      modifies this
      ensures Decoding(u, 0)
    {
      hide Counted, OriginsOk, References, HashOk, Feasible, Graph.Valid, HashCosts, SomeLight, Searched, Closes;
      InsertStartToken(u);
      ghost var costs := HashCosts(origin, toks);
      StartLight(StartPair(graph));
      ProcessNonemitting(u, FLOAT_MAX, 0);
      LoweredLight(costs, HashCosts(origin, toks));
      layers, crossings := [Layer(costs, Fin(FLOAT_MAX + 1), HashCosts(origin, toks))], [];
      FirstSearched(graph, u, opts, HashCosts(origin, toks));
    }

    /** One more frame. */
    method DecodeFrame(u: Utterance, frame: nat)
      requires Decoding(u, frame)
      modifies `heap, `toks, `nextAddr, `origin, `queue, `layers, `crossings
      ensures Decoding(u, frame + 1)
    {
      hide Counted, OriginsOk, References, HashOk, Feasible, Graph.Valid, HashCosts, Light, SomeLight, Searched, Closes, CrossingFits;
      var weightCutoff;
      ghost var x;
      weightCutoff, x := ProcessEmitting(u, frame);
      ghost var costs := HashCosts(origin, toks);
      LightIsSome(costs);
      SameEmptiness(graph, heap, origin, toks, frame + 1);
      ProcessNonemitting(u, weightCutoff, frame + 1);
      SameEmptiness(graph, heap, origin, toks, frame + 1);
      LoweredLight(costs, HashCosts(origin, toks));
      ghost var layer := Layer(costs, Fin(weightCutoff + 1), HashCosts(origin, toks));
      SearchedLength(graph, u, opts, frame, layers, crossings);
      NextSearched(graph, u, opts, frame, layers, crossings, x, layer);
      layers, crossings := layers + [layer], crossings + [x];
    }

    /** Decodes an utterance.  What has been searched is on record, and the hash holds the outcome. */
    method Decode(u: Utterance)
      requires Valid()
      modifies this
      ensures Valid() && Decoded(u)
    {
      hide Counted, OriginsOk, References, HashOk, Feasible, Graph.Valid, HashCosts, SomeLight, Searched;
      BeginUtterance(u);
      var frame := 0;
      while !u.IsLastFrame(frame - 1)
        invariant 0 <= frame <= u.numFrames && Decoding(u, frame)
        decreases u.numFrames - frame
      {
        DecodeFrame(u, frame);
        frame := frame + 1;
      }
      HashInjective(graph, heap, origin, toks, u.numFrames);
    }

    /** Whatever the beams: every token weighs what some path through the whole utterance costs ... */
    lemma TokensArePaths(u: Utterance, p: PairId) returns (path: Path)
      requires Decoded(u) && p in toks
      ensures toks[p] in heap && heap[toks[p]].weight.Fin?
      ensures Walk(graph, u, path) == Some(Place(p, u.numFrames, heap[toks[p]].weight.value))
    {
      hide Counted, OriginsOk, HashOk, HashCosts, Explores, CrossingFits, Walk;
      HashWeights(graph, u, heap, origin, toks, u.numFrames);
      path := CostWalk(graph, u, u.numFrames, layers, crossings, u.numFrames, p);
    }

    /** ... and a path of the composition that stays within the cutoffs of the frames it crosses ends in a token that weighs no
        more. */
    lemma BeamTokens(u: Utterance, path: Path)
      requires Decoded(u) && InBeam(graph, u, layers, crossings, path) && Walk(graph, u, path).value.frames == u.numFrames
      ensures var at := Walk(graph, u, path).value;
        at.pair in HashCosts(origin, toks) && HashCosts(origin, toks)[at.pair] <= at.cost
    {
      hide Sound, HashOk, InBeam, Walk, Explores, CrossingFits;
      InBeamReached(graph, u, u.numFrames, layers, crossings, path);
    }

    /** Without limits there is a token for a pair of states exactly if a path through the whole utterance whose weight always
        counts leads there, and it weighs what the best such path costs. */
    lemma ViterbiTokens(u: Utterance, p: PairId)
      requires Decoded(u) && Unlimited(opts)
      ensures p in toks <==> exists path, cost :: Moderate(graph, u, path) && Walk(graph, u, path) == Some(Place(p, u.numFrames, cost))
      ensures p in toks ==> toks[p] in heap && heap[toks[p]].weight.Fin?
      ensures p in toks ==> exists path ::
        Moderate(graph, u, path) && Walk(graph, u, path) == Some(Place(p, u.numFrames, heap[toks[p]].weight.value))
      ensures p in toks ==> forall path, cost ::
        Moderate(graph, u, path) && Walk(graph, u, path) == Some(Place(p, u.numFrames, cost)) ==> heap[toks[p]].weight.value <= cost
    {
      hide Counted, OriginsOk, HashOk, HashCosts, Searched, Moderate, Walk;
      HashWeights(graph, u, heap, origin, toks, u.numFrames);
      UnlimitedExact(graph, u, opts, u.numFrames, layers, crossings, p);
    }

    // ----- output -----

    /** Whether some token is in a final pair of states. */
    method ReachedFinal() returns (r: bool)
      requires graph.Valid() && forall p :: p in toks ==> IsPair(graph, p) && toks[p] in heap && heap[toks[p]].weight.Fin?
      ensures r <==> exists p :: p in toks && PairFinal(graph, p).Fin?
    {
      var elems := toks.Keys;
      while elems != {}
        invariant elems <= toks.Keys && forall p :: p in toks && p !in elems ==> PairFinal(graph, p).Inf?
      {
        var p :| p in elems;
        elems := elems - {p};
        if heap[toks[p]].weight.Add(PairFinal(graph, p)).Fin? {
          return true;
        }
      }
      return false;
    }

    /** Of all tokens the lightest, or of the final ones the one with the best total. */
    method BestToken(isFinal: bool) returns (best: Option<PairId>)
      requires graph.Valid() && forall p :: p in toks ==> IsPair(graph, p) && toks[p] in heap && heap[toks[p]].weight.Fin?
      ensures best.None? <==> forall p :: p in toks ==> Total(p, isFinal).Inf?
      ensures best.Some? ==> best.value in toks && forall p :: p in toks ==> Total(best.value, isFinal).Le(Total(p, isFinal))
    {
      best := None;
      var bestWeight := Inf;
      var elems := toks.Keys;
      while elems != {}
        invariant elems <= toks.Keys && forall p :: p in toks && p !in elems ==> bestWeight.Le(Total(p, isFinal))
        invariant best.None? ==> bestWeight.Inf?
        invariant best.Some? ==> best.value in toks && bestWeight == Total(best.value, isFinal) && bestWeight.Fin?
      {
        var p :| p in elems;
        elems := elems - {p};
        var weight := if isFinal then heap[toks[p]].weight.Add(PairFinal(graph, p)) else heap[toks[p]].weight;
        if weight.Lt(bestWeight) {
          best, bestWeight := Some(p), weight;
        }
      }
    }

    /** What a token is judged by. */
    ghost function Total(p: PairId, isFinal: bool): Cost
      requires graph.Valid() && p in toks && IsPair(graph, p) && toks[p] in heap
      reads this
    {
      if isFinal then heap[toks[p]].weight.Add(PairFinal(graph, p)) else heap[toks[p]].weight
    }

    lemma SomeCandidate(isFinal: bool)
      requires graph.Valid() && toks != map[]
      requires forall p :: p in toks ==> IsPair(graph, p) && toks[p] in heap && heap[toks[p]].weight.Fin?
      requires isFinal ==> exists p :: p in toks && PairFinal(graph, p).Fin?
      ensures exists p :: p in toks && Total(p, isFinal).Fin?
    {
      hide PairFinal, IsPair;
      var p :| p in toks && (isFinal ==> PairFinal(graph, p).Fin?);
      assert Total(p, isFinal).Fin?;
    }

    /** Collects the arcs back from a token to the start token, the latest first.  The start token's
        own arc is no real one, and is left out. */
    method Traceback(ghost u: Utterance, tok: Addr) returns (arcsReverse: seq<LinearArc>)
      requires Sound(u, References(toks)) && tok in heap
      ensures tok in origin && Reversed(arcsReverse) == PathArcs(graph, u, origin[tok].path)
    {
      hide OriginsOk, Counted, TraceArc, PathArcs, References;
      arcsReverse := [];
      TraceArcOk(graph, u, heap, origin, tok) by { ChainLive(heap, References(toks), tok); }
      var cur := tok;
      while heap[cur].prev.Some?
        invariant cur in heap && cur in origin
        invariant PathArcs(graph, u, origin[cur].path) + Reversed(arcsReverse) == PathArcs(graph, u, origin[tok].path)
        decreases cur
      {
        ChainLive(heap, References(toks), cur);
        TraceArcOk(graph, u, heap, origin, cur);
        var arc := TraceArc(heap, cur);
        ReversedSnoc(arcsReverse, arc);
        ghost var prev := heap[cur].prev.value;
        assert PathArcs(graph, u, origin[prev].path) + ([arc] + Reversed(arcsReverse))
            == (PathArcs(graph, u, origin[prev].path) + [arc]) + Reversed(arcsReverse);
        arcsReverse := arcsReverse + [arc];
        cur := heap[cur].prev.value;
      }
      ChainLive(heap, References(toks), cur);
      TraceArcOk(graph, u, heap, origin, cur);
      assert heap[cur].arc.nextState == graph.start;
      assert [] + Reversed(arcsReverse) == Reversed(arcsReverse);
    }

    /** The best path as a linear lattice: its arcs in order, and the final cost of its last state. */
    method GetBestPath(ghost u: Utterance, useFinalProbs: bool) returns (fstOut: Option<LinearLattice>,
                       ghost pair: PairId)
      requires graph.Valid() && Decoded(u)
      ensures fstOut.None? <==> toks == map[]
      ensures fstOut.Some? ==> BestPathIs(graph, u, HashCosts(origin, toks), pair, useFinalProbs, fstOut.value)
    {
      hide Counted, OriginsOk, HashOk, References, HashCosts, PairFinal, IsPair, PathArcs, BestPathIs, Searched, Walk, TwoSides,
        ArcsAre;
      HashWeights(graph, u, heap, origin, toks, u.numFrames);
      HashPairs(graph, heap, origin, toks, u.numFrames);
      var isFinal := ReachedFinal();
      var best := BestToken(isFinal);
      if toks != map[] {
        SomeCandidate(isFinal);
      }
      if best.None? {
        return None, 0;
      }
      pair := best.value;
      HashCost(graph, heap, origin, toks, u.numFrames, pair);
      OriginWeight(graph, u, heap, origin, toks[pair]);
      var arcsReverse := Traceback(u, toks[best.value]);
      var arcs := [];
      for i := 0 to |arcsReverse|
        invariant |arcs| == i && forall k: nat :: k < i ==> arcs[k] == arcsReverse[|arcsReverse| - 1 - k]
      {
        arcs := arcs + [arcsReverse[|arcsReverse| - 1 - i]];
      }
      IsReversed(arcsReverse, arcs);
      var final := if isFinal && useFinalProbs then PairFinal(graph, best.value).value else 0;
      fstOut := Some(LinearLattice(arcs, final));
      PathIsBest(graph, u, HashCosts(origin, toks), pair, useFinalProbs, fstOut.value, origin[toks[pair]].path, isFinal);
    }

    /** Without limits the output is the best path through the whole utterance: final costs count exactly if some path ends in a
        final pair of states, and then no path is better with its final cost; otherwise no path is better without. */
    lemma BestPathOptimal(u: Utterance, pair: PairId, useFinalProbs: bool, lat: LinearLattice)
      requires graph.Valid() && Decoded(u) && Unlimited(opts)
      requires BestPathIs(graph, u, HashCosts(origin, toks), pair, useFinalProbs, lat)
      ensures IsPair(graph, pair) && exists path :: EndsIn(graph, u, path, pair, TotalCost(lat.arcs))
      ensures if exists path, q, cost :: EndsIn(graph, u, path, q, cost) && PairFinal(graph, q).Fin? then
          && PairFinal(graph, pair).Fin? && forall path, q, cost :: EndsIn(graph, u, path, q, cost) ==>
            PairFinal(graph, pair).Plus(TotalCost(lat.arcs)).Le(PairFinal(graph, q).Plus(cost))
        else forall path, q, cost :: EndsIn(graph, u, path, q, cost) ==> TotalCost(lat.arcs) <= cost
    {
      hide Decoded, EndsIn, PairFinal, IsPair, TwoSides, ArcsAre, Walk;
      ghost var costs := HashCosts(origin, toks);
      forall q
        ensures q in costs && IsPair(graph, q) ==> exists path :: EndsIn(graph, u, path, q, costs[q])
        ensures forall path, cost :: EndsIn(graph, u, path, q, cost) ==> q in costs && IsPair(graph, q) && costs[q] <= cost
      {
        EndsExact(u, q);
      }
      if q :| q in costs && IsPair(graph, q) && PairFinal(graph, q).Fin? {
        var path :| EndsIn(graph, u, path, q, costs[q]);
      } else {
        forall path, q, cost | EndsIn(graph, u, path, q, cost)
          ensures TotalCost(lat.arcs) <= cost && PairFinal(graph, q).Inf?
        {
          assert q in costs && IsPair(graph, q) && costs[q] <= cost;
        }
      }
    }

    lemma EndsExact(u: Utterance, q: PairId)
      requires Decoded(u) && Unlimited(opts)
      ensures var costs := HashCosts(origin, toks);
        && (q in costs && IsPair(graph, q) ==> exists path :: EndsIn(graph, u, path, q, costs[q]))
        && (forall path, cost :: EndsIn(graph, u, path, q, cost) ==> q in costs && IsPair(graph, q) && costs[q] <= cost)
    {
      hide Sound, HashOk, Searched, Moderate, Walk, IsPair, HashCosts;
      ghost var costs := HashCosts(origin, toks);
      UnlimitedExact(graph, u, opts, u.numFrames, layers, crossings, q);
      if q in costs && IsPair(graph, q) {
        var path :| Moderate(graph, u, path) && Walk(graph, u, path) == Some(Place(q, u.numFrames, costs[q]));
        assert EndsIn(graph, u, path, q, costs[q]);
      }
      forall path, cost | EndsIn(graph, u, path, q, cost)
        ensures q in costs && IsPair(graph, q) && costs[q] <= cost
      {
        ModerateReached(graph, u, opts, u.numFrames, layers, crossings, path);
        IsPairOf(u, q);
      }
    }

    lemma IsPairOf(u: Utterance, q: PairId)
      requires Decoded(u) && q in HashCosts(origin, toks)
      ensures IsPair(graph, q)
    {
      hide IsPair, OriginsOk, Counted, Searched;
    }
  }

  /** A path through the whole utterance whose weight always counts. */
  ghost predicate EndsIn(g: Graph, u: Utterance, path: Path, q: PairId, cost: int) {
    IsPair(g, q) && Moderate(g, u, path) && Walk(g, u, path) == Some(Place(q, u.numFrames, cost))
  }

  /** The output is a path of the composition from the start to the given pair of states, with an emitting
      arc for each frame: each of its arcs has the graph's input label, the language model's output label, and what graph,
      language model and acoustics ask for.  Its costs add up to the weight of the token there; and no other token would have
      been better: among final ones, final costs included, if there are any, and otherwise among all. */
  ghost predicate BestPathIs(g: Graph, u: Utterance, costs: map<PairId, int>, pair: PairId, useFinalProbs: bool,
                             lat: LinearLattice)
    requires g.Valid()
  {
    && pair in costs && IsPair(g, pair)
    && (exists path, arcs, run ::
          && Walk(g, u, path) == Some(Place(pair, u.numFrames, costs[pair]))
          && TwoSides(g, path, arcs, run) && ArcsAre(u, arcs, run, lat.arcs))
    && TotalCost(lat.arcs) == costs[pair] && EmittingCount(lat.arcs) == u.numFrames
    && if exists q :: q in costs && IsPair(g, q) && PairFinal(g, q).Fin? then
        && PairFinal(g, pair).Fin? && lat.final == (if useFinalProbs then PairFinal(g, pair).value else 0)
        && forall q :: q in costs && IsPair(g, q) ==> PairFinal(g, pair).Plus(costs[pair]).Le(PairFinal(g, q).Plus(costs[q]))
      else lat.final == 0 && forall q :: q in costs ==> costs[pair] <= costs[q]
  }

  lemma FirstOrigin(g: Graph, u: Utterance, h: Heap, origin: map<Addr, Origin>, startPair: PairId, tok: Addr)
    requires h.Keys == {tok} && origin == map[tok := Origin(From(startPair), Place(startPair, 0, 0))]
    requires h[tok] == Token(Arc(0, 0, Fin(0), g.start), None, 1, Fin(0)) && startPair == StartPair(g)
    ensures OriginsOk(g, u, h, origin)
  {
  }

  lemma OneReference(pair: PairId, tok: Addr)
    ensures References(map[pair := tok]) == multiset{tok}
  {
    NoReferences();
    ReferenceAdded(map[], pair, tok);
    assert map[][pair := tok] == map[pair := tok];
    assert References(map[]) + multiset{tok} == multiset{tok};
  }

  lemma PathIsBest(g: Graph, u: Utterance, costs: map<PairId, int>, pair: PairId, useFinalProbs: bool,
                   lat: LinearLattice,
                   path: Path, isFinal: bool)
    requires g.Valid() && pair in costs && forall q :: q in costs ==> IsPair(g, q)
    requires Walk(g, u, path) == Some(Place(pair, u.numFrames, costs[pair])) && lat.arcs == PathArcs(g, u, path)
    requires isFinal <==> exists q :: q in costs && PairFinal(g, q).Fin?
    requires !isFinal ==> forall q :: q in costs ==> costs[pair] <= costs[q]
    requires isFinal ==> forall q :: q in costs ==> Fin(costs[pair]).Add(PairFinal(g, pair)).Le(Fin(costs[q]).Add(PairFinal(g, q)))
    requires isFinal ==> PairFinal(g, pair).Fin?
    requires lat.final == if isFinal && useFinalProbs then PairFinal(g, pair).value else 0
    ensures BestPathIs(g, u, costs, pair, useFinalProbs, lat)
  {
    hide PairFinal, IsPair, PathArcs, Walk, Graph.Valid, TwoSides, ArcsAre, PlaceIs;
    PathArcsAddUp(g, u, path);
    var arcs, run := SidesOf(g, u, path);
    PathArcsAre(g, u, path, arcs, run);
  }

  /** Origins are never forgotten. */
  ghost predicate Grown(origin0: map<Addr, Origin>, origin: map<Addr, Origin>) {
    forall a :: a in origin0 ==> a in origin && origin[a] == origin0[a]
  }

}
