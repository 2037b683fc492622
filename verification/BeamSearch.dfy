/** What a beam search explores: a specification in terms of costs alone, frame by frame. */
module BeamSearch {
  import opened Basics
  import opened Composition
  import opened Costs

  ghost predicate IsBestOf(costs: map<PairId, int>, p: PairId) {
    p in costs && forall q :: q in costs ==> costs[p] <= costs[q]
  }

  // ----- along epsilon arcs -----

  /** An epsilon arc that keeps a path of the given cost under the cutoff. */
  ghost predicate Affordable(g: Graph, p: PairId, cost: int, cutoff: Cost, i: nat) {
    EpsilonArc(g, p, i) && Fin(cost + PairArcAt(g, p, i).weight.value).Lt(cutoff)
  }

  /** Where an epsilon path from an entry token ends and what it costs, if all its costs,
      apart from that of the entry itself, stay under the cutoff and it passes through no
      token at or above it. */
  ghost function EpsilonTrace(g: Graph, entry: map<PairId, int>, cutoff: Cost, path: Path): Option<(PairId, int)> {
    match path
    case From(p) => if p in entry then Some((p, entry[p])) else None
    case Snoc(prefix, i) =>
      match EpsilonTrace(g, entry, cutoff, prefix)
      case None => None
      case Some((p, cost)) =>
        if Fin(cost).Lt(cutoff) && Affordable(g, p, cost, cutoff, i) then
          Some((PairArcAt(g, p, i).next, cost + PairArcAt(g, p, i).weight.value))
        else None
  }

  /** A frame: what its tokens cost when it is reached, and what they cost once epsilon arcs have been followed. */
  datatype Layer = Layer(entry: map<PairId, int>, epsilonCutoff: Cost, costs: map<PairId, int>)

  /** The costs are those of the best epsilon paths from the entry that stay under the cutoff. */
  ghost predicate Closes(g: Graph, layer: Layer) {
    && (forall p :: p in layer.costs ==>
          exists path :: EpsilonTrace(g, layer.entry, layer.epsilonCutoff, path) == Some((p, layer.costs[p])))
    && (forall path :: EpsilonTrace(g, layer.entry, layer.epsilonCutoff, path).Some? ==>
          NoMoreThan(layer.costs, EpsilonTrace(g, layer.entry, layer.epsilonCutoff, path).value))
  }

  ghost predicate NoMoreThan(costs: map<PairId, int>, end: (PairId, int)) {
    end.0 in costs && costs[end.0] <= end.1
  }

  // ----- along emitting arcs -----

  /** An emitting arc out of a token within the cutoff. */
  ghost predicate IsExtension(g: Graph, u: Utterance, n: nat, costs: map<PairId, int>, cutoff: Cost, p: PairId,
                              i: nat) {
    p in costs && EmittingArc(g, u, n, p, i) && Fin(costs[p]).Le(cutoff)
  }

  ghost function EmitCost(g: Graph, u: Utterance, n: nat, p: PairId, i: nat): int
    requires EmittingArc(g, u, n, p, i)
  {
    PairArcAt(g, p, i).weight.value + u.acousticCost(n, PairArcAt(g, p, i).ilabel).value
  }

  ghost function ExtendedCost(g: Graph, u: Utterance, n: nat, costs: map<PairId, int>, p: PairId, i: nat): int
    requires p in costs && EmittingArc(g, u, n, p, i)
  {
    costs[p] + EmitCost(g, u, n, p, i)
  }

  /** An extension comes up: out of a pair of states, by the number of the arc, to another pair, at a cost. */
  datatype Visit = Visit(pair: PairId, arc: nat, next: PairId, cost: int)

  ghost predicate IsVisit(g: Graph, u: Utterance, n: nat, costs: map<PairId, int>, cutoff: Cost, v: Visit) {
    && IsExtension(g, u, n, costs, cutoff, v.pair, v.arc)
    && v.next == PairArcAt(g, v.pair, v.arc).next && v.cost == ExtendedCost(g, u, n, costs, v.pair, v.arc)
  }

  ghost predicate Visited(order: seq<Visit>, p: PairId, i: nat) {
    exists k: nat :: k < |order| && order[k].pair == p && order[k].arc == i
  }

  /** A token's arcs come up in their order, each once. */
  ghost predicate InOrder(order: seq<Visit>) {
    forall j, k :: 0 <= j < k < |order| && order[j].pair == order[k].pair ==> order[j].arc < order[k].arc
  }

  /** Every extension comes up once, and nothing else does. */
  ghost predicate VisitsAll(g: Graph, u: Utterance, n: nat, costs: map<PairId, int>, cutoff: Cost, order: seq<Visit>) {
    && InOrder(order) && (forall v :: v in order ==> IsVisit(g, u, n, costs, cutoff, v))
    && (forall p, i: nat :: IsExtension(g, u, n, costs, cutoff, p, i) ==> Visited(order, p, i))
  }

  /** The running cutoff after some visits: an extension under it is taken, and tightens it to its cost plus the margin. */
  ghost function CutoffAfter(order: seq<Visit>, first: Cost, margin: Cost): Cost {
    if order == [] then first else
      var before, x := CutoffAfter(order[..|order| - 1], first, margin), Fin(order[|order| - 1].cost);
      if x.Lt(before) then before.Min(x.Add(margin)) else before
  }

  ghost predicate TakenAt(order: seq<Visit>, first: Cost, margin: Cost, k: nat)
    requires k < |order|
  {
    Fin(order[k].cost).Lt(CutoffAfter(order[..k], first, margin))
  }

  /** The first cutoff lies by the adaptive beam above the cheapest extension of a best token, but not above the highest. */
  ghost predicate FirstCutoffIs(g: Graph, u: Utterance, n: nat, costs: map<PairId, int>, adaptiveBeam: Cost,
                                highest: Cost, first: Cost) {
    if costs == map[] then first == highest
    else exists p :: IsBestOf(costs, p) && IsPair(g, p) && BestArcsBound(g, u, n, costs, adaptiveBeam, highest, first, p, ArcCount(g, p))
  }

  /** What the first k arcs of p come to. */
  ghost predicate BestArcsBound(g: Graph, u: Utterance, n: nat, costs: map<PairId, int>, adaptiveBeam: Cost,
                                highest: Cost, first: Cost, p: PairId, k: nat)
    requires p in costs
  {
    && first.Le(highest)
    && (forall i: nat :: i < k && EmittingArc(g, u, n, p, i) ==> first.Le(Fin(ExtendedCost(g, u, n, costs, p, i)).Add(adaptiveBeam)))
    && (first == highest || exists i: nat ::
          i < k && EmittingArc(g, u, n, p, i) && first == Fin(ExtendedCost(g, u, n, costs, p, i)).Add(adaptiveBeam))
  }

  lemma NoArcsYet(g: Graph, u: Utterance, n: nat, costs: map<PairId, int>, adaptiveBeam: Cost, highest: Cost, p: PairId)
    requires p in costs
    ensures BestArcsBound(g, u, n, costs, adaptiveBeam, highest, highest, p, 0)
  {
  }

  /** One arc more: one that cannot be taken, or one that tightens the bound if it is cheap enough. */
  lemma BestArcsMore(g: Graph, u: Utterance, n: nat, costs: map<PairId, int>, adaptiveBeam: Cost, highest: Cost,
                     first: Cost,
                     first': Cost, p: PairId, k: nat)
    requires p in costs && BestArcsBound(g, u, n, costs, adaptiveBeam, highest, first, p, k)
    requires if EmittingArc(g, u, n, p, k) && Fin(ExtendedCost(g, u, n, costs, p, k)).Add(adaptiveBeam).Lt(first)
      then first' == Fin(ExtendedCost(g, u, n, costs, p, k)).Add(adaptiveBeam) else first' == first
    ensures BestArcsBound(g, u, n, costs, adaptiveBeam, highest, first', p, k + 1)
  {
    hide ExtendedCost, EmittingArc;
  }

  /** The way to the next frame: tokens within the cutoff are left, their extensions come up in some order, and those under
      the running cutoff are taken.  Whatever the order, no extension under the limit can be missed. */
  datatype Crossing = Crossing(cutoff: Cost, adaptiveBeam: Cost, first: Cost, margin: Cost, order: seq<Visit>, limit: Cost)
  {
    ghost predicate Takes(k: nat) {
      k < |order| && TakenAt(order, first, margin, k)
    }
  }

  /** The next frame is entered by every extension that is taken, and by nothing else, at the least cost. */
  ghost predicate Enters(x: Crossing, entry: map<PairId, int>) {
    && (forall k: nat :: x.Takes(k) ==> x.order[k].next in entry && entry[x.order[k].next] <= x.order[k].cost)
    && (forall q :: q in entry ==> exists k: nat :: x.Takes(k) && x.order[k].next == q && x.order[k].cost == entry[q])
  }

  ghost predicate Crosses(g: Graph, u: Utterance, n: nat, costs: map<PairId, int>, x: Crossing,
                          entry: map<PairId, int>) {
    && VisitsAll(g, u, n, costs, x.cutoff, x.order) && Enters(x, entry)
    && (forall k: nat :: k < |x.order| && Fin(x.order[k].cost).Lt(x.limit) ==> x.Takes(k))
  }

  /** A search over n frames. */
  ghost predicate Explores(g: Graph, u: Utterance, n: nat, layers: seq<Layer>, crossings: seq<Crossing>) {
    && |layers| == n + 1 && |crossings| == n && layers[0].entry == map[StartPair(g) := 0]
    && (forall k: nat :: k <= n ==> Closes(g, layers[k]))
    && (forall k: nat :: k < n ==> Crosses(g, u, k, layers[k].costs, crossings[k], layers[k + 1].entry))
  }

  // ----- visits so far -----

  /** The visits are those of all tokens in done. */
  ghost predicate TokensVisited(g: Graph, u: Utterance, n: nat, costs: map<PairId, int>, cutoff: Cost,
                                order: seq<Visit>, done: set<PairId>) {
    InOrder(order) && forall q, j: nat :: Visited(order, q, j) <==> IsExtension(g, u, n, costs, cutoff, q, j) && q in done
  }

  /** The visits are those of all tokens in done, and of the first i arcs of p. */
  ghost predicate VisitedSoFar(g: Graph, u: Utterance, n: nat, costs: map<PairId, int>, cutoff: Cost,
                               order: seq<Visit>, done: set<PairId>, p: PairId, i: nat) {
    InOrder(order) && forall q, j: nat :: Visited(order, q, j) <==> IsExtension(g, u, n, costs, cutoff, q, j) && (q in done || (q == p && j < i))
  }

  /** All extensions have been visited. */
  ghost predicate AllCameUp(g: Graph, u: Utterance, n: nat, costs: map<PairId, int>, cutoff: Cost, order: seq<Visit>) {
    InOrder(order) && forall q, j: nat :: Visited(order, q, j) <==> IsExtension(g, u, n, costs, cutoff, q, j)
  }

  lemma VisitedMore(g: Graph, u: Utterance, n: nat, costs: map<PairId, int>, cutoff: Cost, order: seq<Visit>,
                    done: set<PairId>, p: PairId, i: nat, v: Visit)
    requires VisitedSoFar(g, u, n, costs, cutoff, order, done, p, i) && p !in done && IsExtension(g, u, n, costs, cutoff, p, i)
    requires v.pair == p && v.arc == i
    ensures VisitedSoFar(g, u, n, costs, cutoff, order + [v], done, p, i + 1)
  {
    hide IsExtension;
    var order' := order + [v];
    forall j | 0 <= j < |order| && order[j].pair == p
      ensures order[j].arc < i
    {
      assert Visited(order, p, order[j].arc);
    }
    forall q, j: nat
      ensures Visited(order', q, j) <==> Visited(order, q, j) || (q == p && j == i)
    {
      if k: nat :| k < |order| && order[k].pair == q && order[k].arc == j {
        assert order'[k] == order[k];
      }
      if q == p && j == i {
        assert order'[|order|] == v;
      }
    }
  }

  /** An arc that cannot be taken is not visited. */
  lemma NotVisited(g: Graph, u: Utterance, n: nat, costs: map<PairId, int>, cutoff: Cost, order: seq<Visit>,
                   done: set<PairId>, p: PairId, i: nat)
    requires VisitedSoFar(g, u, n, costs, cutoff, order, done, p, i) && !IsExtension(g, u, n, costs, cutoff, p, i)
    ensures VisitedSoFar(g, u, n, costs, cutoff, order, done, p, i + 1)
  {
    hide IsExtension, Visited, InOrder;
  }

  /** With all its arcs visited a token is done; a token beyond the cutoff is done at once. */
  lemma VisitedToken(g: Graph, u: Utterance, n: nat, costs: map<PairId, int>, cutoff: Cost, order: seq<Visit>,
                     done: set<PairId>, p: PairId, i: nat)
    requires VisitedSoFar(g, u, n, costs, cutoff, order, done, p, i) && forall j: nat :: IsExtension(g, u, n, costs, cutoff, p, j) ==> j < i
    ensures TokensVisited(g, u, n, costs, cutoff, order, done + {p})
  {
    hide IsExtension, Visited, InOrder;
  }

  lemma NextToken(g: Graph, u: Utterance, n: nat, costs: map<PairId, int>, cutoff: Cost, order: seq<Visit>,
                  done: set<PairId>, p: PairId)
    requires TokensVisited(g, u, n, costs, cutoff, order, done)
    ensures VisitedSoFar(g, u, n, costs, cutoff, order, done, p, 0)
  {
    hide IsExtension, Visited, InOrder;
  }

  lemma NothingVisited(g: Graph, u: Utterance, n: nat, costs: map<PairId, int>, cutoff: Cost)
    ensures TokensVisited(g, u, n, costs, cutoff, [], {})
  {
    hide IsExtension;
  }

  lemma VisitedAll(g: Graph, u: Utterance, n: nat, costs: map<PairId, int>, cutoff: Cost, order: seq<Visit>)
    requires TokensVisited(g, u, n, costs, cutoff, order, costs.Keys)
    ensures AllCameUp(g, u, n, costs, cutoff, order)
  {
    hide Visited, InOrder;
  }

  /** A visit that has no better one to give way to: taken if it is under the running cutoff. */
  lemma EntersMore(x: Crossing, v: Visit, entry: map<PairId, int>, entry': map<PairId, int>)
    requires Enters(x, entry)
    requires entry' == if Fin(v.cost).Lt(CutoffAfter(x.order, x.first, x.margin)) && (v.next in entry ==> v.cost < entry[v.next])
      then entry[v.next := v.cost] else entry
    ensures Enters(x.(order := x.order + [v]), entry')
  {
    hide TakenAt, CutoffAfter;
    var x' := x.(order := x.order + [v]);
    CutoffNow(x.order, v, x.first, x.margin);
    forall k: nat | k < |x.order|
      ensures x'.Takes(k) <==> x.Takes(k)
    {
      TakenBefore(x.order, v, x.first, x.margin, k);
    }
    forall q | q in entry'
      ensures exists k: nat :: x'.Takes(k) && x'.order[k].next == q && x'.order[k].cost == entry'[q]
    {
      if q in entry && entry[q] == entry'[q] {
        var k: nat :| x.Takes(k) && x.order[k].next == q && x.order[k].cost == entry[q];
        assert x'.Takes(k) && x'.order[k] == x.order[k];
      } else {
        assert x'.Takes(|x.order|);
      }
    }
  }

  lemma NothingEntered(x: Crossing)
    requires x.order == []
    ensures Enters(x, map[])
  {
  }

  // ----- the running cutoff -----

  lemma CutoffNow(order: seq<Visit>, v: Visit, first: Cost, margin: Cost)
    ensures var before := CutoffAfter(order, first, margin);
      CutoffAfter(order + [v], first, margin) == if Fin(v.cost).Lt(before) then before.Min(Fin(v.cost).Add(margin)) else before
    ensures TakenAt(order + [v], first, margin, |order|) <==> Fin(v.cost).Lt(CutoffAfter(order, first, margin))
  {
    assert (order + [v])[..|order|] == order;
  }

  lemma NoVisitYet(first: Cost, margin: Cost)
    ensures CutoffAfter([], first, margin) == first
  {
  }

  lemma TakenBefore(order: seq<Visit>, v: Visit, first: Cost, margin: Cost, k: nat)
    requires k < |order|
    ensures TakenAt(order + [v], first, margin, k) <==> TakenAt(order, first, margin, k)
  {
    assert (order + [v])[..k] == order[..k];
  }

  lemma {:induction false} CutoffFalls(order: seq<Visit>, first: Cost, margin: Cost, k: nat)
    requires k <= |order|
    ensures CutoffAfter(order, first, margin).Le(CutoffAfter(order[..k], first, margin))
    decreases |order|
  {
    if k == |order| {
      assert order[..k] == order;
    } else {
      var front := order[..|order| - 1];
      CutoffFalls(front, first, margin, k);
      assert front[..k] == order[..k];
    }
  }

  /** The running cutoff never comes closer than the beam to a lower bound of the extensions. */
  lemma {:induction false} CutoffStaysFair(order: seq<Visit>, first: Cost, margin: Cost, m: int, beam: Cost)
    requires (forall v :: v in order ==> m <= v.cost) && Fin(m).Add(beam).Le(first) && beam.Le(margin)
    ensures Fin(m).Add(beam).Le(CutoffAfter(order, first, margin))
  {
    if order != [] {
      CutoffStaysFair(order[..|order| - 1], first, margin, m, beam);
      assert order[|order| - 1] in order;
    }
  }

  /** Below the cutoff that is left in the end nothing is missed. */
  lemma UnderTheLast(order: seq<Visit>, first: Cost, margin: Cost, k: nat)
    requires k < |order| && Fin(order[k].cost).Lt(CutoffAfter(order, first, margin))
    ensures TakenAt(order, first, margin, k)
  {
    CutoffFalls(order, first, margin, k);
  }

  /** Nothing is taken that is not under the first cutoff. */
  lemma UnderTheFirst(order: seq<Visit>, first: Cost, margin: Cost, k: nat)
    requires k < |order| && TakenAt(order, first, margin, k)
    ensures Fin(order[k].cost).Lt(first)
  {
    CutoffFalls(order[..k], first, margin, 0);
  }

  ghost predicate AllUnder(g: Graph, u: Utterance, n: nat, costs: map<PairId, int>, adaptiveBeam: Cost,
                           entry: map<PairId, int>, p: PairId)
    requires p in costs
  {
    forall q, i: nat :: q in entry && EmittingArc(g, u, n, p, i) ==>
      Fin(entry[q]).Lt(Fin(ExtendedCost(g, u, n, costs, p, i)).Add(adaptiveBeam))
  }

  /** Emission prunes: there is a best token such that no token of the next frame costs as much as any extension of that one
      and the adaptive beam together. */
  lemma EntryUnderBest(g: Graph, u: Utterance, n: nat, costs: map<PairId, int>, x: Crossing, highest: Cost,
                       entry: map<PairId, int>)
    requires Crosses(g, u, n, costs, x, entry) && FirstCutoffIs(g, u, n, costs, x.adaptiveBeam, highest, x.first)
    ensures forall q :: q in entry ==> Fin(entry[q]).Lt(highest)
    ensures costs != map[] ==> exists p :: IsBestOf(costs, p) && AllUnder(g, u, n, costs, x.adaptiveBeam, entry, p)
  {
    hide VisitsAll, ExtendedCost, PairArcAt, IsPair;
    forall q | q in entry
      ensures Fin(entry[q]).Lt(x.first)
    {
      var k: nat :| x.Takes(k) && x.order[k].next == q && x.order[k].cost == entry[q];
      UnderTheFirst(x.order, x.first, x.margin, k);
    }
    if costs != map[] {
      var p :| IsBestOf(costs, p) && IsPair(g, p) && BestArcsBound(g, u, n, costs, x.adaptiveBeam, highest, x.first, p, ArcCount(g, p));
      assert forall i: nat :: EmittingArc(g, u, n, p, i) ==> i < ArcCount(g, p);
    }
  }

  /** Given the order of the visits, a frame can be entered in one way only. */
  lemma EntryUnique(x: Crossing, entry: map<PairId, int>, entry': map<PairId, int>)
    requires Enters(x, entry) && Enters(x, entry')
    ensures entry' == entry
  {
    hide TakenAt;
    assert forall q :: q in entry ==> q in entry' && entry'[q] <= entry[q];
    assert forall q :: q in entry' ==> q in entry && entry[q] <= entry'[q];
  }

  /** A frame's costs follow from those it is entered with. */
  lemma CostsUnique(g: Graph, layer: Layer, layer': Layer)
    requires Closes(g, layer) && Closes(g, layer') && layer'.entry == layer.entry && layer'.epsilonCutoff == layer.epsilonCutoff
    ensures layer'.costs == layer.costs
  {
    hide EpsilonTrace;
    assert forall p :: p in layer.costs ==> NoMoreThan(layer'.costs, (p, layer.costs[p]));
    assert forall p :: p in layer'.costs ==> NoMoreThan(layer.costs, (p, layer'.costs[p]));
  }

  // ----- paths in the beam -----

  /** A path of the composition that the search cannot miss: wherever it goes it is cheap enough. */
  ghost predicate InBeam(g: Graph, u: Utterance, layers: seq<Layer>, crossings: seq<Crossing>, path: Path) {
    Walk(g, u, path).Some? &&
    match path
    case From(_) => true
    case Snoc(prefix, _) =>
      && InBeam(g, u, layers, crossings, prefix)
      && StepInBeam(layers, crossings, Walk(g, u, prefix).value, Walk(g, u, path).value)
  }

  ghost predicate StepInBeam(layers: seq<Layer>, crossings: seq<Crossing>, at: Place, to: Place) {
    if to.frames == at.frames then
      at.frames < |layers| && Fin(at.cost).Lt(layers[at.frames].epsilonCutoff) && Fin(to.cost).Lt(layers[at.frames].epsilonCutoff)
    else
      at.frames < |crossings| && Fin(at.cost).Le(crossings[at.frames].cutoff) && Fin(to.cost).Lt(crossings[at.frames].limit)
  }

  lemma {:induction false} FramesAdvance(g: Graph, u: Utterance, prefix: Path, i: nat)
    requires Walk(g, u, Snoc(prefix, i)).Some?
    ensures Walk(g, u, prefix).Some?
    ensures Walk(g, u, prefix).value.frames <= Walk(g, u, Snoc(prefix, i)).value.frames <= Walk(g, u, prefix).value.frames + 1
  {
    hide PairArcAt;
  }

  /** What a longer search cannot miss on its first frames, the shorter one could not. */
  lemma {:induction false} InBeamBefore(g: Graph, u: Utterance, layers: seq<Layer>, crossings: seq<Crossing>,
                                        layer: Layer,
                                        x: Crossing, path: Path)
    requires InBeam(g, u, layers + [layer], crossings + [x], path)
    requires |layers| == |crossings| + 1 && Walk(g, u, path).value.frames <= |crossings|
    ensures InBeam(g, u, layers, crossings, path)
  {
    match path
    case From(_) =>
    case Snoc(prefix, i) =>
      FramesAdvance(g, u, prefix, i);
      hide Walk;
      InBeamBefore(g, u, layers, crossings, layer, x, prefix);
  }

  // ----- the search against paths of the composition -----

  lemma EpsilonStep(g: Graph, u: Utterance, at: Place, i: nat)
    requires EpsilonArc(g, at.pair, i)
    ensures TakeArc(g, u, at, i) == Some(Place(PairArcAt(g, at.pair, i).next, at.frames, at.cost + PairArcAt(g, at.pair, i).weight.value))
  {
  }

  lemma EmittingStep(g: Graph, u: Utterance, at: Place, i: nat)
    requires EmittingArc(g, u, at.frames, at.pair, i)
    ensures TakeArc(g, u, at, i) == Some(Place(PairArcAt(g, at.pair, i).next, at.frames + 1, at.cost + EmitCost(g, u, at.frames, at.pair, i)))
  {
  }

  /** An arc that a path takes is an epsilon arc or an emitting one. */
  lemma ArcKind(g: Graph, u: Utterance, at: Place, i: nat)
    requires TakeArc(g, u, at, i).Some?
    ensures TakeArc(g, u, at, i).value.frames == at.frames ==> EpsilonArc(g, at.pair, i)
    ensures TakeArc(g, u, at, i).value.frames != at.frames ==> EmittingArc(g, u, at.frames, at.pair, i)
  {
  }

  lemma EntryStays(g: Graph, layer: Layer, p: PairId)
    requires Closes(g, layer) && p in layer.entry
    ensures p in layer.costs && layer.costs[p] <= layer.entry[p]
  {
    assert EpsilonTrace(g, layer.entry, layer.epsilonCutoff, From(p)) == Some((p, layer.entry[p]));
  }

  /** A token that costs no more than a path goes on along the path's next arc, inside a frame ... */
  lemma StaysInside(g: Graph, u: Utterance, layer: Layer, at: Place, i: nat)
    requires Closes(g, layer) && at.pair in layer.costs && layer.costs[at.pair] <= at.cost
    requires TakeArc(g, u, at, i).Some? && TakeArc(g, u, at, i).value.frames == at.frames
    requires Fin(at.cost).Lt(layer.epsilonCutoff) && Fin(TakeArc(g, u, at, i).value.cost).Lt(layer.epsilonCutoff)
    ensures var to := TakeArc(g, u, at, i).value; to.pair in layer.costs && layer.costs[to.pair] <= to.cost
  {
    ArcKind(g, u, at, i);
    EpsilonStep(g, u, at, i);
    hide TakeArc, PairArcAt, EpsilonArc;
    var c := layer.costs[at.pair];
    var path :| EpsilonTrace(g, layer.entry, layer.epsilonCutoff, path) == Some((at.pair, c));
    assert EpsilonTrace(g, layer.entry, layer.epsilonCutoff, Snoc(path, i)) ==
      Some((PairArcAt(g, at.pair, i).next, c + PairArcAt(g, at.pair, i).weight.value));
  }

  /** ... and to the next one. */
  lemma GoesAcross(g: Graph, u: Utterance, costs: map<PairId, int>, x: Crossing, next: Layer, at: Place, i: nat)
    requires Crosses(g, u, at.frames, costs, x, next.entry) && Closes(g, next)
    requires at.pair in costs && costs[at.pair] <= at.cost
    requires TakeArc(g, u, at, i).Some? && TakeArc(g, u, at, i).value.frames != at.frames
    requires Fin(at.cost).Le(x.cutoff) && Fin(TakeArc(g, u, at, i).value.cost).Lt(x.limit)
    ensures var to := TakeArc(g, u, at, i).value; to.pair in next.costs && next.costs[to.pair] <= to.cost
  {
    ArcKind(g, u, at, i);
    EmittingStep(g, u, at, i);
    hide TakeArc, PairArcAt, EmittingArc, EmitCost, TakenAt, InOrder, Closes;
    assert IsExtension(g, u, at.frames, costs, x.cutoff, at.pair, i);
    var k: nat :| k < |x.order| && x.order[k].pair == at.pair && x.order[k].arc == i;
    assert x.order[k] in x.order;
    assert x.Takes(k);
    EntryStays(g, next, x.order[k].next);
  }

  /** A path in the beam ends in a token that costs no more. */
  lemma {:induction false} InBeamReached(g: Graph, u: Utterance, n: nat, layers: seq<Layer>, crossings: seq<Crossing>,
                                         path: Path)
    requires Explores(g, u, n, layers, crossings) && InBeam(g, u, layers, crossings, path) && Walk(g, u, path).value.frames <= n
    ensures var at := Walk(g, u, path).value; at.pair in layers[at.frames].costs && layers[at.frames].costs[at.pair] <= at.cost
  {
    hide TakeArc, Closes, Crosses;
    match path
    case From(p) =>
      EntryStays(g, layers[0], p);
    case Snoc(prefix, i) =>
      FramesAdvance(g, u, prefix, i);
      InBeamReached(g, u, n, layers, crossings, prefix);
      var at := Walk(g, u, prefix).value;
      if Walk(g, u, path).value.frames == at.frames {
        StaysInside(g, u, layers[at.frames], at, i);
      } else {
        GoesAcross(g, u, layers[at.frames].costs, crossings[at.frames], layers[at.frames + 1], at, i);
      }
  }

  /** The limit of a search that never tightens its cutoffs is where they start. */
  ghost predicate NeverTightens(crossings: seq<Crossing>) {
    forall k: nat :: k < |crossings| ==> crossings[k].first == crossings[k].limit
  }

  /** What a frame is entered with is the cost of a path, and if no cutoff tightens that path is in the beam. */
  lemma {:induction false} EntryWalk(g: Graph, u: Utterance, n: nat, layers: seq<Layer>, crossings: seq<Crossing>,
                                     k: nat, q: PairId)
    returns (path: Path)
    requires Explores(g, u, n, layers, crossings) && k <= n && q in layers[k].entry
    ensures Walk(g, u, path) == Some(Place(q, k, layers[k].entry[q]))
    ensures NeverTightens(crossings) ==> InBeam(g, u, layers, crossings, path)
    decreases k, 0, From(0)
  {
    hide Closes, TakenAt, InOrder, TakeArc, EmittingArc, EmitCost, PairArcAt;
    if k == 0 {
      path := From(q);
    } else {
      var x := crossings[k - 1];
      assert Crosses(g, u, k - 1, layers[k - 1].costs, x, layers[k].entry);
      var j: nat :| x.Takes(j) && x.order[j].next == q && x.order[j].cost == layers[k].entry[q];
      UnderTheFirst(x.order, x.first, x.margin, j);
      var v := x.order[j];
      assert v in x.order;
      var prefix := CostWalk(g, u, n, layers, crossings, k - 1, v.pair);
      EmittingStep(g, u, Walk(g, u, prefix).value, v.arc);
      path := Snoc(prefix, v.arc);
    }
  }

  lemma {:induction false} TraceWalk(g: Graph, u: Utterance, n: nat, layers: seq<Layer>, crossings: seq<Crossing>,
                                     k: nat, trace: Path)
    returns (path: Path)
    requires Explores(g, u, n, layers, crossings) && k <= n
    requires EpsilonTrace(g, layers[k].entry, layers[k].epsilonCutoff, trace).Some?
    ensures var (p, x) := EpsilonTrace(g, layers[k].entry, layers[k].epsilonCutoff, trace).value;
      Walk(g, u, path) == Some(Place(p, k, x))
    ensures NeverTightens(crossings) ==> InBeam(g, u, layers, crossings, path)
    decreases k, 1, trace
  {
    hide Closes, Crosses, TakeArc, PairArcAt, EpsilonArc, NeverTightens;
    match trace
    case From(q) =>
      path := EntryWalk(g, u, n, layers, crossings, k, q);
    case Snoc(front, i) =>
      var prefix := TraceWalk(g, u, n, layers, crossings, k, front);
      EpsilonStep(g, u, Walk(g, u, prefix).value, i);
      path := Snoc(prefix, i);
  }

  /** Every cost is that of a path of the composition, and if no cutoff tightens that path is in the beam. */
  lemma {:induction false} CostWalk(g: Graph, u: Utterance, n: nat, layers: seq<Layer>, crossings: seq<Crossing>,
                                    k: nat, p: PairId)
    returns (path: Path)
    requires Explores(g, u, n, layers, crossings) && k <= n && p in layers[k].costs
    ensures Walk(g, u, path) == Some(Place(p, k, layers[k].costs[p]))
    ensures NeverTightens(crossings) ==> InBeam(g, u, layers, crossings, path)
    decreases k, 2, From(0)
  {
    hide Crosses, InBeam, Walk;
    assert Closes(g, layers[k]);
    var trace :| EpsilonTrace(g, layers[k].entry, layers[k].epsilonCutoff, trace) == Some((p, layers[k].costs[p]));
    path := TraceWalk(g, u, n, layers, crossings, k, trace);
  }
}
