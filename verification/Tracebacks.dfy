/** What a token's chain of predecessors stands for. */
module Tracebacks {
  import opened Basics
  import opened Composition
  import opened Costs
  import opened RefCounting
  import opened ComposedPaths

  /** The path of the composition that a token was made along, and where that path ends. */
  datatype Origin = Origin(path: Path, place: Place)

  /** The arcs in their order, and the cost of the last state. */
  datatype LinearLattice = LinearLattice(arcs: seq<LinearArc>, final: int)

  /** The graph arc that a token keeps, with the language model's cost and label. */
  function TokenArc(g: Graph, pair: PairId, i: nat): Arc
    requires IsPair(g, pair) && i < ArcCount(g, pair)
  {
    PropagateLm(g, PairToLmState(pair), g.arcs[PairToState(pair)][i]).0
  }

  /** Token a keeps the last arc of its path, and its predecessor the path before. */
  ghost predicate OriginOk(g: Graph, u: Utterance, h: Heap, origin: map<Addr, Origin>, a: Addr)
    requires a in h
  {
    && a in origin
    && Walk(g, u, origin[a].path) == Some(origin[a].place) && h[a].weight == Fin(origin[a].place.cost)
    && match h[a].prev
      case None => origin[a].path == From(StartPair(g)) && h[a].arc == Arc(0, 0, Fin(0), g.start)
      case Some(b) =>
        && b in origin && origin[a].path.Snoc? && origin[a].path.prefix == origin[b].path
        && IsPair(g, origin[b].place.pair) && origin[a].path.arc < ArcCount(g, origin[b].place.pair)
        && h[a].arc == TokenArc(g, origin[b].place.pair, origin[a].path.arc)
  }

  ghost predicate OriginsOk(g: Graph, u: Utterance, h: Heap, origin: map<Addr, Origin>) {
    forall a :: a in h ==> OriginOk(g, u, h, origin, a)
  }

  /** Freeing does not change what the other tokens stand for, and nor do new tokens. */
  lemma OriginsShrunk(g: Graph, u: Utterance, h0: Heap, origin0: map<Addr, Origin>, h: Heap, origin: map<Addr, Origin>)
    requires OriginsOk(g, u, h0, origin0) && Shrunk(h0, h)
    requires forall a :: a in origin0 ==> a in origin && origin[a] == origin0[a]
    ensures OriginsOk(g, u, h, origin)
  {
    forall a | a in h
      ensures OriginOk(g, u, h, origin, a)
    {
      assert OriginOk(g, u, h0, origin0, a);
    }
  }

  /** A token for one more arc. */
  lemma OriginExtended(g: Graph, u: Utterance, h: Heap, origin: map<Addr, Origin>, prev: Addr, i: nat, tok: Addr,
                       t: Token)
    requires OriginsOk(g, u, h, origin) && prev in h && tok !in h && tok !in origin
    requires TakeArc(g, u, origin[prev].place, i).Some?
    requires t.prev == Some(prev) && t.arc == TokenArc(g, origin[prev].place.pair, i)
    requires t.weight == Fin(TakeArc(g, u, origin[prev].place, i).value.cost)
    ensures OriginsOk(g, u, Recounted(h, prev, 1)[tok := t],
                      origin[tok := Origin(Snoc(origin[prev].path, i), TakeArc(g, u, origin[prev].place, i).value)])
  {
    hide TokenArc, TakeArc, IsPair, PairArcAt;
    var origin' := origin[tok := Origin(Snoc(origin[prev].path, i), TakeArc(g, u, origin[prev].place, i).value)];
    var h' := Recounted(h, prev, 1)[tok := t];
    assert OriginOk(g, u, h, origin, prev);
    ArcTaken(g, u, origin[prev].place, i);
    forall a | a in h'
      ensures OriginOk(g, u, h', origin', a)
    {
      if a != tok {
        assert OriginOk(g, u, h, origin, a);
      }
    }
  }

  lemma ArcTaken(g: Graph, u: Utterance, at: Place, i: nat)
    requires TakeArc(g, u, at, i).Some?
    ensures IsPair(g, at.pair) && i < ArcCount(g, at.pair)
  {
  }

  // ----- the path in the output -----

  ghost function Reversed(arcs: seq<LinearArc>): seq<LinearArc> {
    if arcs == [] then [] else [arcs[|arcs| - 1]] + Reversed(arcs[..|arcs| - 1])
  }

  lemma ReversedSnoc(arcs: seq<LinearArc>, arc: LinearArc)
    ensures Reversed(arcs + [arc]) == [arc] + Reversed(arcs)
  {
    assert (arcs + [arc])[..|arcs|] == arcs;
  }

  lemma {:induction false} ReversedAt(arcs: seq<LinearArc>, k: nat)
    requires k < |arcs|
    ensures |Reversed(arcs)| == |arcs| && Reversed(arcs)[k] == arcs[|arcs| - 1 - k]
  {
    if |arcs| == 1 {
      assert Reversed(arcs[..0]) == [];
    } else {
      ReversedAt(arcs[..|arcs| - 1], if k == 0 then 0 else k - 1);
    }
  }

  lemma IsReversed(arcs: seq<LinearArc>, r: seq<LinearArc>)
    requires |r| == |arcs| && forall k: nat :: k < |arcs| ==> r[k] == arcs[|arcs| - 1 - k]
    ensures r == Reversed(arcs)
  {
    if arcs != [] {
      ReversedAt(arcs, 0);
    }
    forall k: nat | k < |arcs|
      ensures r[k] == Reversed(arcs)[k]
    {
      ReversedAt(arcs, k);
    }
  }

  /** The arc that a token contributes to the traceback: what it has paid beyond its predecessor. */
  function TraceArc(h: Heap, a: Addr): LinearArc
    requires a in h && h[a].weight.Fin? && h[a].arc.weight.Fin?
    requires h[a].prev.Some? ==> h[a].prev.value in h && h[h[a].prev.value].weight.Fin?
  {
    var totCost := h[a].weight.value - if h[a].prev.Some? then h[h[a].prev.value].weight.value else 0;
    LinearArc(h[a].arc.ilabel, h[a].arc.olabel, h[a].arc.weight.value, totCost - h[a].arc.weight.value)
  }

  /** It is the last arc of the token's path. */
  lemma TraceArcOk(g: Graph, u: Utterance, h: Heap, origin: map<Addr, Origin>, a: Addr)
    requires OriginsOk(g, u, h, origin) && a in h && (h[a].prev.Some? ==> h[a].prev.value in h)
    ensures a in origin && h[a].weight.Fin? && h[a].arc.weight.Fin?
    ensures h[a].prev.Some? ==>
      && h[a].prev.value in origin && h[h[a].prev.value].weight.Fin?
      && PathArcs(g, u, origin[a].path) == PathArcs(g, u, origin[h[a].prev.value].path) + [TraceArc(h, a)]
    ensures h[a].prev.None? ==> PathArcs(g, u, origin[a].path) == [] && h[a].arc.nextState == g.start
  {
    assert OriginOk(g, u, h, origin, a);
    if h[a].prev.Some? {
      assert OriginOk(g, u, h, origin, h[a].prev.value);
    }
  }

  // ----- tokens in a hash -----

  /** The hash holds, for each pair of states, a token whose path ends there after n frames. */
  ghost predicate HashOk(g: Graph, h: Heap, origin: map<Addr, Origin>, toks: map<PairId, Addr>, n: nat) {
    forall p :: p in toks ==>
      && toks[p] in h && toks[p] in origin && IsPair(g, p)
      && origin[toks[p]].place.pair == p && origin[toks[p]].place.frames == n
  }

  lemma HashInjective(g: Graph, h: Heap, origin: map<Addr, Origin>, toks: map<PairId, Addr>, n: nat)
    requires HashOk(g, h, origin, toks, n)
    ensures Injective(toks)
  {
    hide IsPair;
  }

  /** Whatever is counted as held is live, so the hash is as good as before. */
  lemma HashKept(g: Graph, u: Utterance, h: Heap, origin: map<Addr, Origin>, toks: map<PairId, Addr>, n: nat,
                 held: multiset<Addr>)
    requires Counted(h, held) && forall p :: p in toks ==> toks[p] in held
    requires forall p :: p in toks ==>
      toks[p] in origin && IsPair(g, p) && origin[toks[p]].place.pair == p && origin[toks[p]].place.frames == n
    ensures HashOk(g, h, origin, toks, n)
  {
    hide IsPair;
  }

  lemma OriginWeight(g: Graph, u: Utterance, h: Heap, origin: map<Addr, Origin>, a: Addr)
    requires OriginsOk(g, u, h, origin) && a in h
    ensures a in origin && h[a].weight == Fin(origin[a].place.cost)
    ensures Walk(g, u, origin[a].path) == Some(origin[a].place)
  {
    assert OriginOk(g, u, h, origin, a);
  }

  /** What the tokens of a hash weigh. */
  ghost function HashCosts(origin: map<Addr, Origin>, toks: map<PairId, Addr>): map<PairId, int> {
    map p | p in toks && toks[p] in origin :: origin[toks[p]].place.cost
  }

  /** An epsilon arc costs its weight and takes no frame. */
  lemma EpsilonTaken(g: Graph, u: Utterance, at: Place, i: nat)
    requires IsPair(g, at.pair) && i < ArcCount(g, at.pair) && PairArcAt(g, at.pair, i).ilabel == 0
    ensures TokenArc(g, at.pair, i).weight == PairArcAt(g, at.pair, i).weight
    ensures TakeArc(g, u, at, i) ==
      match PairArcAt(g, at.pair, i).weight
      case Inf => None
      case Fin(w) => Some(Place(PairArcAt(g, at.pair, i).next, at.frames, at.cost + w))
  {
  }

  /** The tokens of the hash are all held, so their weights are on record. */
  lemma HashWeights(g: Graph, u: Utterance, h: Heap, origin: map<Addr, Origin>, toks: map<PairId, Addr>, n: nat)
    requires OriginsOk(g, u, h, origin) && HashOk(g, h, origin, toks, n)
    ensures HashCosts(origin, toks).Keys == toks.Keys
    ensures forall p :: p in toks ==> toks[p] in h && h[toks[p]].weight == Fin(HashCosts(origin, toks)[p])
  {
    hide IsPair;
    forall p | p in toks
      ensures h[toks[p]].weight == Fin(origin[toks[p]].place.cost)
    {
      OriginWeight(g, u, h, origin, toks[p]);
    }
  }

  lemma HashRemoved(g: Graph, h: Heap, origin: map<Addr, Origin>, toks: map<PairId, Addr>, n: nat, p: PairId)
    requires HashOk(g, h, origin, toks, n)
    ensures HashOk(g, h, origin, toks - {p}, n)
  {
    hide IsPair;
  }

  lemma EmptyHash(g: Graph, h: Heap, origin: map<Addr, Origin>, n: nat)
    ensures HashOk(g, h, origin, map[], n)
  {
  }

  lemma CostsRemoved(g: Graph, h: Heap, origin0: map<Addr, Origin>, origin: map<Addr, Origin>,
                     toks: map<PairId, Addr>, n: nat, p: PairId)
    requires HashOk(g, h, origin0, toks, n)
    requires forall a :: a in origin0 ==> a in origin && origin[a] == origin0[a]
    ensures forall q :: q in toks - {p} ==>
      q in HashCosts(origin, toks - {p}) && q in HashCosts(origin0, toks) && HashCosts(origin, toks - {p})[q] == HashCosts(origin0, toks)[q]
  {
    hide IsPair;
  }

  lemma HashPairs(g: Graph, h: Heap, origin: map<Addr, Origin>, toks: map<PairId, Addr>, n: nat)
    requires HashOk(g, h, origin, toks, n)
    ensures forall p :: p in toks ==> IsPair(g, p) && toks[p] in h
  {
    hide IsPair;
  }

  lemma CostsUpdated(origin: map<Addr, Origin>, toks: map<PairId, Addr>, p: PairId, tok: Addr)
    requires tok in origin
    ensures HashCosts(origin, toks[p := tok]) == HashCosts(origin, toks)[p := origin[tok].place.cost]
  {
  }

  /** No loop is a bargain, and no token gets below the potentials. */
  lemma EpsilonBounded(g: Graph, potential: map<PairId, int>, lo: int, costs: map<PairId, int>, p: PairId, i: nat)
    requires g.Valid() && Feasible(g, potential) && EpsilonArc(g, p, i) && p in costs && BoundedBelow(costs, potential, lo)
    ensures var next, w := PairArcAt(g, p, i).next, PairArcAt(g, p, i).weight.value;
      && IsPair(g, next) && next in potential && lo <= costs[p] + w + potential[next] && (next == p ==> w >= 0)
      && BoundedBelow(costs[next := costs[p] + w], potential, lo)
  {
    PairArcStays(g, p, i);
  }

  lemma ArcParts(g: Graph, p: PairId, i: nat)
    requires IsPair(g, p) && i < ArcCount(g, p)
    ensures PairToState(p) in g.arcs && i < |g.arcs[PairToState(p)]|
    ensures var (arc, lm) := PropagateLm(g, PairToLmState(p), g.arcs[PairToState(p)][i]);
      && arc == TokenArc(g, p, i) && arc.ilabel == g.arcs[PairToState(p)][i].ilabel
      && PairArcAt(g, p, i) == PairArc(arc.ilabel, arc.olabel, arc.weight, ConstructPair(arc.nextState, lm))
  {
  }

  lemma CostsExtended(g: Graph, h: Heap, origin0: map<Addr, Origin>, origin: map<Addr, Origin>,
                      toks: map<PairId, Addr>, n: nat)
    requires HashOk(g, h, origin0, toks, n)
    requires forall a :: a in origin0 ==> a in origin && origin[a] == origin0[a]
    ensures HashCosts(origin, toks) == HashCosts(origin0, toks) && HashCosts(origin, toks).Keys == toks.Keys
  {
    hide IsPair;
  }

  lemma HashExtended(g: Graph, u: Utterance, h: Heap, origin: map<Addr, Origin>, origin': map<Addr, Origin>, h': Heap,
                     toks: map<PairId, Addr>, n: nat, held: multiset<Addr>)
    requires HashOk(g, h, origin, toks, n) && Counted(h', References(toks) + held)
    requires forall a :: a in origin ==> a in origin' && origin'[a] == origin[a]
    ensures HashOk(g, h', origin', toks, n)
  {
    hide IsPair, Counted, References;
    ReferencesHeld(toks, held);
    HashKept(g, u, h', origin', toks, n, References(toks) + held);
  }

  lemma HashCost(g: Graph, h: Heap, origin: map<Addr, Origin>, toks: map<PairId, Addr>, n: nat, p: PairId)
    requires HashOk(g, h, origin, toks, n) && p in toks
    ensures p in HashCosts(origin, toks) && HashCosts(origin, toks)[p] == origin[toks[p]].place.cost
    ensures origin[toks[p]].place.pair == p && origin[toks[p]].place.frames == n && toks[p] in h && IsPair(g, p)
  {
    hide IsPair;
  }

  lemma HashNotIn(g: Graph, h: Heap, origin: map<Addr, Origin>, toks: map<PairId, Addr>, n: nat, a: Addr)
    requires HashOk(g, h, origin, toks, n) && a !in h
    ensures a !in toks.Values
  {
    hide IsPair;
  }

  /** An emitting arc also pays for the frame. */
  lemma EmittingTaken(g: Graph, u: Utterance, at: Place, i: nat)
    requires IsPair(g, at.pair) && i < ArcCount(g, at.pair) && PairArcAt(g, at.pair, i).ilabel != 0
    ensures TokenArc(g, at.pair, i).weight == PairArcAt(g, at.pair, i).weight
    ensures var arc := PairArcAt(g, at.pair, i);
      TakeArc(g, u, at, i) ==
        match arc.weight.Add(u.acousticCost(at.frames, arc.ilabel))
        case Inf => None
        case Fin(x) => Some(Place(arc.next, at.frames + 1, at.cost + x))
  {
  }

  /** The graph state that a token's last arc leads to is the one the token is filed under. */
  lemma ArcLeadsHere(g: Graph, u: Utterance, h: Heap, origin: map<Addr, Origin>, a: Addr)
    requires OriginsOk(g, u, h, origin) && a in h && (h[a].prev.Some? ==> h[a].prev.value in h)
    ensures a in origin && h[a].arc.nextState == PairToState(origin[a].place.pair)
  {
    assert OriginOk(g, u, h, origin, a);
    match h[a].prev
    case None => PairRoundTrip(g.start, g.lmStart);
    case Some(b) =>
      assert OriginOk(g, u, h, origin, b);
      var p, i := origin[b].place.pair, origin[a].path.arc;
      var (arc, lm) := PropagateLm(g, PairToLmState(p), g.arcs[PairToState(p)][i]);
      PairRoundTrip(arc.nextState, lm);
  }

  // ----- termination of the relaxation -----

  ghost function Unseen(g: Graph, costs: map<PairId, int>): set<PairId> {
    AllPairs(g) - costs.Keys
  }

  /** Weights to which tokens could still fall. */
  ghost function Improvable(costs: map<PairId, int>, potential: map<PairId, int>, lo: int): set<(PairId, int)> {
    set p, x: int | p in costs && p in potential && lo - potential[p] <= x < costs[p] :: (p, x)
  }

  ghost predicate BoundedBelow(costs: map<PairId, int>, potential: map<PairId, int>, lo: int) {
    forall p :: p in costs && p in potential ==> lo <= costs[p] + potential[p]
  }

  /** Either nothing was queued, or a pair was seen for the first time, or a weight fell. */
  ghost predicate Progress(g: Graph, potential: map<PairId, int>, lo: int, costs0: map<PairId, int>,
                           queue0: seq<PairId>,
                           costs: map<PairId, int>, queue: seq<PairId>) {
    Lowered(costs0, costs) &&
    (|| Unseen(g, costs) < Unseen(g, costs0)
     || (Unseen(g, costs) == Unseen(g, costs0) && Improvable(costs, potential, lo) < Improvable(costs0, potential, lo))
     || (costs == costs0 && queue == queue0))
  }

  /** No token has been lost, and weights have only fallen. */
  ghost predicate Lowered(costs0: map<PairId, int>, costs: map<PairId, int>) {
    forall p :: p in costs0 ==> p in costs && costs[p] <= costs0[p]
  }

  lemma ProgressRefl(g: Graph, potential: map<PairId, int>, lo: int, costs: map<PairId, int>, queue: seq<PairId>)
    ensures Progress(g, potential, lo, costs, queue, costs, queue)
  {
  }

  lemma ProgressTransitive(g: Graph, potential: map<PairId, int>, lo: int, costs0: map<PairId, int>,
                           queue0: seq<PairId>,
                           costs1: map<PairId, int>, queue1: seq<PairId>, costs2: map<PairId, int>, queue2: seq<PairId>)
    requires Progress(g, potential, lo, costs0, queue0, costs1, queue1) && Progress(g, potential, lo, costs1, queue1, costs2, queue2)
    ensures Progress(g, potential, lo, costs0, queue0, costs2, queue2)
  {
    hide Unseen, Improvable;
  }

  lemma ImprovementIsProgress(g: Graph, potential: map<PairId, int>, lo: int, costs: map<PairId, int>, p: PairId,
                              cost: int,
                              queue: seq<PairId>, queue': seq<PairId>)
    requires IsPair(g, p) && p in potential && lo <= cost + potential[p] && (p in costs ==> cost < costs[p])
    ensures Progress(g, potential, lo, costs, queue, costs[p := cost], queue')
  {
    hide AllPairs, IsPair;
    if p !in costs {
      assert p in Unseen(g, costs);
    } else {
      assert costs[p := cost].Keys == costs.Keys;
      assert (p, cost) in Improvable(costs, potential, lo) && (p, cost) !in Improvable(costs[p := cost], potential, lo);
    }
  }

  lemma ProgressLowers(g: Graph, potential: map<PairId, int>, lo: int, costs0: map<PairId, int>, queue0: seq<PairId>,
                       costs: map<PairId, int>, queue: seq<PairId>)
    requires Progress(g, potential, lo, costs0, queue0, costs, queue)
    ensures Lowered(costs0, costs)
  {
  }

  lemma {:induction false} LeastPotential(costs: map<PairId, int>, potential: map<PairId, int>) returns (lo: int)
    ensures BoundedBelow(costs, potential, lo)
    decreases |costs|
  {
    lo := 0;
    if p :| p in costs {
      var rest := costs - {p};
      assert |rest| < |costs| by {
        assert costs.Keys == rest.Keys + {p} && |costs.Keys| == |costs| && |rest.Keys| == |rest|;
      }
      lo := LeastPotential(rest, potential);
      if p in potential && costs[p] + potential[p] < lo {
        lo := costs[p] + potential[p];
      }
      forall q | q in costs && q in potential
        ensures lo <= costs[q] + potential[q]
      {
        assert q == p || q in rest;
      }
    }
  }

  // ----- what the relaxation achieves -----

  /** The first k arcs of p: the epsilon arcs among them that stay within the cutoff lead to tokens that weigh no more. */
  ghost predicate Followed(g: Graph, costs: map<PairId, int>, cutoff: int, p: PairId, k: nat)
    requires p in costs
  {
    forall i: nat :: i < k && EpsilonArc(g, p, i) && costs[p] + PairArcAt(g, p, i).weight.value <= cutoff ==>
      PairArcAt(g, p, i).next in costs && costs[PairArcAt(g, p, i).next] <= costs[p] + PairArcAt(g, p, i).weight.value
  }

  /** Every token within the cutoff that does not wait in the queue, and is not busy, has been followed. */
  ghost predicate RelaxedBut(g: Graph, costs: map<PairId, int>, cutoff: int, queue: seq<PairId>, busy: set<PairId>) {
    forall p :: p in costs && p !in queue && p !in busy && costs[p] <= cutoff ==>
      IsPair(g, p) && Followed(g, costs, cutoff, p, ArcCount(g, p))
  }

  lemma FollowedLowered(g: Graph, costs: map<PairId, int>, costs': map<PairId, int>, cutoff: int, p: PairId, k: nat)
    requires p in costs && Followed(g, costs, cutoff, p, k) && Lowered(costs, costs') && p in costs' && costs'[p] == costs[p]
    ensures Followed(g, costs', cutoff, p, k)
  {
  }

  /** Token p's next arc has been dealt with: next got the weight c through it, unless it had no more already. */
  lemma RelaxStep(g: Graph, costs: map<PairId, int>, costs': map<PairId, int>, cutoff: int, queue: seq<PairId>,
                  queue': seq<PairId>,
                  p: PairId, i: nat, taken: bool)
    requires p in costs && Followed(g, costs, cutoff, p, i) && RelaxedBut(g, costs, cutoff, queue, {p})
    requires if taken then EpsilonArc(g, p, i) && PairArcAt(g, p, i).next != p
        && costs' == costs[PairArcAt(g, p, i).next := costs[p] + PairArcAt(g, p, i).weight.value]
        && queue' == queue + [PairArcAt(g, p, i).next] && Lowered(costs, costs')
      else costs' == costs && queue' == queue
    requires EpsilonArc(g, p, i) && costs[p] + PairArcAt(g, p, i).weight.value <= cutoff && !taken ==>
      PairArcAt(g, p, i).next in costs && costs[PairArcAt(g, p, i).next] <= costs[p] + PairArcAt(g, p, i).weight.value
    ensures p in costs' && costs'[p] == costs[p] && Followed(g, costs', cutoff, p, i + 1) && RelaxedBut(g, costs', cutoff, queue', {p})
  {
    hide IsPair, PairArcAt, EpsilonArc;
    if taken {
      FollowedLowered(g, costs, costs', cutoff, p, i);
      forall q | q in costs' && q !in queue' && q !in {p} && costs'[q] <= cutoff
        ensures IsPair(g, q) && Followed(g, costs', cutoff, q, ArcCount(g, q))
      {
        FollowedLowered(g, costs, costs', cutoff, q, ArcCount(g, q));
      }
    }
  }

  /** A token taken off the queue becomes busy, or need not be followed. */
  lemma RelaxDequeue(g: Graph, costs: map<PairId, int>, cutoff: int, queue: seq<PairId>, p: PairId)
    requires RelaxedBut(g, costs, cutoff, queue + [p], {}) && p in costs
    ensures RelaxedBut(g, costs, cutoff, queue, {p}) && Followed(g, costs, cutoff, p, 0)
    ensures costs[p] > cutoff ==> RelaxedBut(g, costs, cutoff, queue, {})
  {
    hide Followed, IsPair;
    assert Followed(g, costs, cutoff, p, 0) by { FollowedNothing(g, costs, cutoff, p); }
  }

  lemma FollowedNothing(g: Graph, costs: map<PairId, int>, cutoff: int, p: PairId)
    requires p in costs
    ensures Followed(g, costs, cutoff, p, 0)
  {
  }

  lemma RelaxDone(g: Graph, costs: map<PairId, int>, cutoff: int, queue: seq<PairId>, p: PairId)
    requires p in costs && IsPair(g, p) && Followed(g, costs, cutoff, p, ArcCount(g, p)) && RelaxedBut(g, costs, cutoff, queue, {p})
    ensures RelaxedBut(g, costs, cutoff, queue, {})
  {
    hide Followed, IsPair;
  }

  lemma RelaxStarts(g: Graph, costs: map<PairId, int>, cutoff: int, queue: seq<PairId>)
    requires forall p :: p in costs ==> p in queue
    ensures RelaxedBut(g, costs, cutoff, queue, {})
  {
    hide Followed, IsPair;
  }
}
