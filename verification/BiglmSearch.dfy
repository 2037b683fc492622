/** The search that the decoder with backpointers is configured for. */
module BiglmSearch {
  import opened Basics
  import opened Composition
  import opened Costs
  import opened OrderStatistics
  import opened RefCounting
  import opened Tracebacks
  import opened BeamSearch

  /** The largest finite float. */
  const FLOAT_MAX := 340282346638528859811704183484516925440

  datatype Options = Options(beam: Cost, maxActive: nat, minActive: nat, beamDelta: int)

  /** Stands for no weight yet: every weight that counts is below it. */
  const NO_WEIGHT := 10_000_000_000

  // ----- the cutoff of a frame -----

  ghost predicate BestWeight(costs: map<PairId, int>, best: int) {
    && best <= NO_WEIGHT && (forall p :: p in costs ==> best <= costs[p])
    && (best < NO_WEIGHT ==> exists p :: p in costs && costs[p] == best)
  }

  /** With a token of a real weight, the best weight is that of a token. */
  lemma BestAttained(costs: map<PairId, int>, best: int)
    requires SomeLight(costs) && BestWeight(costs, best)
    ensures costs != map[] ==> exists p :: p in costs && costs[p] == best
  {
  }

  /** The weight with exactly k others before it, if there is one. */
  ghost predicate ActiveCut(costs: map<PairId, int>, k: nat, cut: Cost) {
    if |costs| > k then cut.Fin? && ActiveBound(costs, k, cut.value) && exists p :: p in costs && costs[p] == cut.value
    else cut.Inf?
  }

  /** Cutoff and beam: the max-active cut if it is tighter than the beam, the min-active cut if it is looser, or the beam. */
  ghost predicate CutoffPick(opts: Options, costs: map<PairId, int>, best: int, max: Cost, min: Cost, cutoff: Cost,
                             adaptiveBeam: Cost) {
    && ActiveCut(costs, opts.maxActive, max)
    && (if |costs| > 0 && opts.minActive == 0 then min == Fin(best) else ActiveCut(costs, opts.minActive, min))
    && (if max.Lt(Fin(best).Add(opts.beam)) then cutoff == max && adaptiveBeam == max.Plus(opts.beamDelta - best)
        else if Fin(best).Add(opts.beam).Lt(min) then cutoff == min && adaptiveBeam == min.Plus(opts.beamDelta - best)
        else cutoff == Fin(best).Add(opts.beam) && adaptiveBeam == opts.beam)
  }

  ghost predicate CutoffFor(opts: Options, costs: map<PairId, int>, best: int, cutoff: Cost, adaptiveBeam: Cost) {
    if opts.maxActive == UNLIMITED && opts.minActive == 0 then cutoff == Fin(best).Add(opts.beam) && adaptiveBeam == opts.beam
    else exists max, min :: CutoffPick(opts, costs, best, max, min, cutoff, adaptiveBeam)
  }

  /** The best token is strictly under the cutoff exactly if there is no limit on tokens or no more than maxActive of them
      tie for the best weight; if it is not, no token is. */
  lemma BestSurvivesIff(opts: Options, costs: map<PairId, int>, p: PairId, cutoff: Cost, adaptiveBeam: Cost)
    requires Fin(0).Lt(opts.beam) && p in costs && BestWeight(costs, costs[p]) && CutoffFor(opts, costs, costs[p], cutoff, adaptiveBeam)
    ensures Fin(costs[p]).Lt(cutoff) <==>
      (opts.maxActive == UNLIMITED && opts.minActive == 0) || |Below(costs, costs[p] + 1)| <= opts.maxActive
    ensures !Fin(costs[p]).Lt(cutoff) ==> forall q :: q in costs ==> !Fin(costs[q]).Lt(cutoff)
  {
    var best := costs[p];
    if !(opts.maxActive == UNLIMITED && opts.minActive == 0) {
      var max, min :| CutoffPick(opts, costs, best, max, min, cutoff, adaptiveBeam);
      var ties := Below(costs, best + 1);
      if |costs| <= opts.maxActive {
        SubsetCount(ties, costs.Keys);
      } else if best < max.value {
        SubsetCount(ties, Below(costs, max.value));
      }
    }
  }

  /** Three tokens of the same weight with room for two: all three are dropped. */
  lemma TiesStarve(opts: Options, cutoff: Cost, adaptiveBeam: Cost)
    requires Fin(0).Lt(opts.beam) && opts.maxActive == 2
    requires CutoffFor(opts, map[0 := 7, 1 := 7, 2 := 7], 7, cutoff, adaptiveBeam)
    ensures !Fin(7).Lt(cutoff)
  {
    var costs: map<PairId, int> := map[0 := 7, 1 := 7, 2 := 7];
    assert costs[0] == 7;
    BestSurvivesIff(opts, costs, 0, cutoff, adaptiveBeam);
    assert Below(costs, 8) == {0, 1, 2};
  }

  // ----- weights that count -----

  /** Every weight is below the one that stands for none. */
  ghost predicate Light(costs: map<PairId, int>) {
    forall p :: p in costs ==> costs[p] < NO_WEIGHT
  }

  /** If there is a token, some token's weight is below the one that stands for none. */
  ghost predicate SomeLight(costs: map<PairId, int>) {
    costs == map[] || exists p :: p in costs && costs[p] < NO_WEIGHT
  }

  lemma LoweredLight(costs: map<PairId, int>, costs': map<PairId, int>)
    requires SomeLight(costs) && Lowered(costs, costs') && (costs == map[] ==> costs' == map[])
    ensures SomeLight(costs')
  {
  }

  lemma LightIsSome(costs: map<PairId, int>)
    requires Light(costs)
    ensures SomeLight(costs)
  {
    if costs != map[] {
      var p :| p in costs;
    }
  }

  lemma NoHashCosts(origin: map<Addr, Origin>)
    ensures HashCosts(origin, map[]) == map[]
  {
  }

  lemma StartLight(p: PairId)
    ensures SomeLight(map[p := 0]) && map[p := 0] != map[]
  {
    var costs: map<PairId, int> := map[p := 0];
    assert p in costs;
  }

  lemma EmptyLight(origin: map<Addr, Origin>)
    ensures Light(HashCosts(origin, map[]))
  {
  }

  lemma SameEmptiness(g: Graph, h: Heap, origin: map<Addr, Origin>, toks: map<PairId, Addr>, n: nat)
    requires HashOk(g, h, origin, toks, n)
    ensures toks == map[] <==> HashCosts(origin, toks) == map[]
  {
    hide IsPair;
    if toks != map[] {
      var p :| p in toks;
      assert p in HashCosts(origin, toks);
    }
  }

  lemma OfferLight(costs: map<PairId, int>, p: PairId, cost: int, taken: bool, costs': map<PairId, int>)
    requires Light(costs) && cost < NO_WEIGHT && costs' == if taken then costs[p := cost] else costs
    ensures Light(costs')
  {
  }

  // ----- relaxation -----

  ghost predicate Attained(g: Graph, entry: map<PairId, int>, bound: Cost, costs: map<PairId, int>) {
    forall p :: p in costs ==> exists path :: EpsilonTrace(g, entry, bound, path) == Some((p, costs[p]))
  }

  lemma AttainedAtFirst(g: Graph, entry: map<PairId, int>, bound: Cost)
    ensures Attained(g, entry, bound, entry)
  {
    forall p | p in entry
      ensures exists path :: EpsilonTrace(g, entry, bound, path) == Some((p, entry[p]))
    {
      assert EpsilonTrace(g, entry, bound, From(p)) == Some((p, entry[p]));
    }
  }

  lemma AttainedMore(g: Graph, entry: map<PairId, int>, bound: Cost, costs: map<PairId, int>, p: PairId, i: nat)
    requires Attained(g, entry, bound, costs) && p in costs && Fin(costs[p]).Lt(bound) && Affordable(g, p, costs[p], bound, i)
    ensures Attained(g, entry, bound, costs[PairArcAt(g, p, i).next := costs[p] + PairArcAt(g, p, i).weight.value])
  {
    hide PairArcAt;
    var path :| EpsilonTrace(g, entry, bound, path) == Some((p, costs[p]));
    assert EpsilonTrace(g, entry, bound, Snoc(path, i)) == Some((PairArcAt(g, p, i).next, costs[p] + PairArcAt(g, p, i).weight.value));
  }

  /** Weights are whole numbers: what does not exceed the cutoff stays under the next one. */
  lemma {:induction false} NoBetterTrace(g: Graph, entry: map<PairId, int>, cutoff: int, bound: Cost,
                                         costs: map<PairId, int>, path: Path)
    requires RelaxedBut(g, costs, cutoff, [], {}) && Lowered(entry, costs) && bound == Fin(cutoff + 1)
    requires EpsilonTrace(g, entry, bound, path).Some?
    ensures NoMoreThan(costs, EpsilonTrace(g, entry, bound, path).value)
  {
    hide PairArcAt, IsPair;
    match path
    case From(_) =>
    case Snoc(prefix, i) =>
      NoBetterTrace(g, entry, cutoff, bound, costs, prefix);
      var (p, cost) := EpsilonTrace(g, entry, bound, prefix).value;
      assert Followed(g, costs, cutoff, p, ArcCount(g, p));
  }

  /** A relaxed hash is a layer. */
  lemma RelaxedCloses(g: Graph, entry: map<PairId, int>, cutoff: int, bound: Cost, costs: map<PairId, int>)
    requires RelaxedBut(g, costs, cutoff, [], {}) && Lowered(entry, costs) && bound == Fin(cutoff + 1) && Attained(g, entry, bound, costs)
    ensures Closes(g, Layer(entry, bound, costs))
  {
    hide RelaxedBut, Lowered, NoMoreThan, EpsilonTrace;
    forall path | EpsilonTrace(g, entry, bound, path).Some?
      ensures NoMoreThan(costs, EpsilonTrace(g, entry, bound, path).value)
    {
      NoBetterTrace(g, entry, cutoff, bound, costs, path);
    }
  }

  // ----- the search -----

  /** The tokens that survive a frame are strictly under its cutoff. */
  ghost predicate SurvivorsAre(opts: Options, costs: map<PairId, int>, x: Crossing) {
    exists best, cutoff :: BestWeight(costs, best) && (costs == map[] || exists p :: p in costs && costs[p] == best)
      && CutoffFor(opts, costs, best, cutoff, x.adaptiveBeam) && x.cutoff == cutoff.Plus(-1)
  }

  /** Emission begins with what the best token sets, and at most NO_WEIGHT; it tightens by the adaptive beam. */
  ghost predicate CrossingFits(g: Graph, u: Utterance, opts: Options, n: nat, costs: map<PairId, int>, x: Crossing,
                               entry: map<PairId, int>) {
    && SurvivorsAre(opts, costs, x)
    && FirstCutoffIs(g, u, n, costs, x.adaptiveBeam, Fin(NO_WEIGHT), x.first) && x.margin == x.adaptiveBeam
    && x.limit == CutoffAfter(x.order, x.first, x.margin)
    && Crosses(g, u, n, costs, x, entry)
  }

  /** Epsilon arcs are followed up to the cutoff that emission has come to, and on the first frame as far as weights go. */
  ghost predicate Searched(g: Graph, u: Utterance, opts: Options, n: nat, layers: seq<Layer>,
                           crossings: seq<Crossing>) {
    && Explores(g, u, n, layers, crossings) && layers[0].epsilonCutoff == Fin(FLOAT_MAX + 1)
    && forall k: nat :: k < n ==>
      && CrossingFits(g, u, opts, k, layers[k].costs, crossings[k], layers[k + 1].entry)
      && layers[k + 1].epsilonCutoff == crossings[k].limit.Plus(1)
  }

  lemma SearchedLength(g: Graph, u: Utterance, opts: Options, n: nat, layers: seq<Layer>, crossings: seq<Crossing>)
    requires Searched(g, u, opts, n, layers, crossings)
    ensures |layers| == n + 1 && |crossings| == n
  {
    hide CrossingFits, Closes, Crosses;
  }

  lemma FirstSearched(g: Graph, u: Utterance, opts: Options, costs: map<PairId, int>)
    requires Closes(g, Layer(map[StartPair(g) := 0], Fin(FLOAT_MAX + 1), costs))
    ensures Searched(g, u, opts, 0, [Layer(map[StartPair(g) := 0], Fin(FLOAT_MAX + 1), costs)], [])
  {
  }

  lemma NextSearched(g: Graph, u: Utterance, opts: Options, n: nat, layers: seq<Layer>, crossings: seq<Crossing>,
                     x: Crossing, layer: Layer)
    requires Searched(g, u, opts, n, layers, crossings) && CrossingFits(g, u, opts, n, layers[n].costs, x, layer.entry)
    requires Closes(g, layer) && layer.epsilonCutoff == x.limit.Plus(1)
    ensures Searched(g, u, opts, n + 1, layers + [layer], crossings + [x])
  {
    hide Closes, Crosses, SurvivorsAre, FirstCutoffIs, CutoffAfter;
    var layers', crossings' := layers + [layer], crossings + [x];
    forall k: nat | k <= n
      ensures Closes(g, layers'[k])
    {
      assert Closes(g, layers[k]);
    }
    forall k: nat | k < n
      ensures CrossingFits(g, u, opts, k, layers'[k].costs, crossings'[k], layers'[k + 1].entry)
      ensures layers'[k + 1].epsilonCutoff == crossings'[k].limit.Plus(1)
    {
      assert CrossingFits(g, u, opts, k, layers[k].costs, crossings[k], layers[k + 1].entry);
    }
  }

  /** What is entered does not depend on the limit. */
  lemma EntersWhatever(x: Crossing, entry: map<PairId, int>)
    ensures forall limit :: Enters(x, entry) <==> Enters(x.(limit := limit), entry)
  {
  }

  /** An emission that has visited everything is a crossing. */
  lemma CrossingMade(g: Graph, u: Utterance, opts: Options, n: nat, costs: map<PairId, int>, x: Crossing,
                     entry: map<PairId, int>)
    requires SurvivorsAre(opts, costs, x) && FirstCutoffIs(g, u, n, costs, x.adaptiveBeam, Fin(NO_WEIGHT), x.first) && x.margin == x.adaptiveBeam
    requires (forall v :: v in x.order ==> IsVisit(g, u, n, costs, x.cutoff, v)) && AllCameUp(g, u, n, costs, x.cutoff, x.order) && Enters(x, entry)
    requires x.limit == CutoffAfter(x.order, x.first, x.margin)
    ensures CrossingFits(g, u, opts, n, costs, x, entry)
  {
    hide SurvivorsAre, FirstCutoffIs, IsVisit, IsExtension, Enters, Visited, InOrder, CutoffAfter, TakenAt;
    forall k: nat | k < |x.order| && Fin(x.order[k].cost).Lt(x.limit)
      ensures x.Takes(k)
    {
      UnderTheLast(x.order, x.first, x.margin, k);
    }
  }

  // ----- without limits -----

  ghost predicate Unlimited(opts: Options) {
    opts.beam.Inf? && opts.maxActive == UNLIMITED && opts.minActive == 0
  }

  /** A path whose weight stays below the one that stands for none; before the first frame it only has to be a number. */
  ghost predicate Moderate(g: Graph, u: Utterance, path: Path) {
    Walk(g, u, path).Some? &&
    match path
    case From(_) => true
    case Snoc(prefix, _) =>
      && Moderate(g, u, prefix)
      && ModerateStep(Walk(g, u, prefix).value, Walk(g, u, path).value)
  }

  ghost predicate ModerateStep(at: Place, to: Place) {
    if to.frames != at.frames then to.cost < NO_WEIGHT
    else
      var most := if at.frames == 0 then FLOAT_MAX else NO_WEIGHT;
      at.cost <= most && to.cost <= most
  }

  lemma {:induction false} NoLimit(order: seq<Visit>, first: Cost)
    ensures CutoffAfter(order, first, Inf) == first
  {
    if order != [] {
      NoLimit(order[..|order| - 1], first);
    }
  }

  /** Without limits every token survives, and nothing tightens a cutoff. */
  lemma UnlimitedCrossing(g: Graph, u: Utterance, opts: Options, n: nat, costs: map<PairId, int>, x: Crossing,
                          entry: map<PairId, int>)
    requires CrossingFits(g, u, opts, n, costs, x, entry) && Unlimited(opts)
    ensures x.cutoff.Inf? && x.first == Fin(NO_WEIGHT) == x.limit
  {
    hide Crosses, IsBestOf;
    NoLimit(x.order, x.first);
  }

  /** Without limits the search cannot miss exactly the moderate paths. */
  lemma {:induction false} ModerateInBeam(g: Graph, u: Utterance, opts: Options, n: nat, layers: seq<Layer>,
                                          crossings: seq<Crossing>, path: Path)
    requires Searched(g, u, opts, n, layers, crossings) && Unlimited(opts) && Walk(g, u, path).Some? && Walk(g, u, path).value.frames <= n
    ensures InBeam(g, u, layers, crossings, path) <==> Moderate(g, u, path)
  {
    match path
    case From(_) =>
    case Snoc(prefix, i) =>
      FramesAdvance(g, u, prefix, i);
      hide Walk, CrossingFits, Explores;
      ModerateInBeam(g, u, opts, n, layers, crossings, prefix);
      ModerateStepInBeam(g, u, opts, n, layers, crossings, Walk(g, u, prefix).value, Walk(g, u, path).value);
  }

  lemma ModerateStepInBeam(g: Graph, u: Utterance, opts: Options, n: nat, layers: seq<Layer>,
                           crossings: seq<Crossing>, at: Place, to: Place)
    requires Searched(g, u, opts, n, layers, crossings) && Unlimited(opts) && at.frames <= to.frames <= at.frames + 1 && to.frames <= n
    ensures StepInBeam(layers, crossings, at, to) <==> ModerateStep(at, to)
  {
    hide Closes, Crosses, CrossingFits;
    if to.frames > at.frames {
      UnlimitedCrossing(g, u, opts, at.frames, layers[at.frames].costs, crossings[at.frames], layers[to.frames].entry);
    } else if at.frames > 0 {
      var k := at.frames - 1;
      UnlimitedCrossing(g, u, opts, k, layers[k].costs, crossings[k], layers[k + 1].entry);
    }
  }

  lemma ModerateReached(g: Graph, u: Utterance, opts: Options, n: nat, layers: seq<Layer>, crossings: seq<Crossing>,
                        path: Path)
    requires Searched(g, u, opts, n, layers, crossings) && Unlimited(opts)
    requires Moderate(g, u, path) && Walk(g, u, path).Some? && Walk(g, u, path).value.frames == n
    ensures var at := Walk(g, u, path).value; |layers| == n + 1 && at.pair in layers[n].costs && layers[n].costs[at.pair] <= at.cost
  {
    hide Closes, Crosses, CrossingFits, Moderate, Walk, InBeam;
    ModerateInBeam(g, u, opts, n, layers, crossings, path);
    InBeamReached(g, u, n, layers, crossings, path);
  }

  /** Without limits the costs are those of the best moderate paths. */
  lemma UnlimitedExact(g: Graph, u: Utterance, opts: Options, n: nat, layers: seq<Layer>, crossings: seq<Crossing>,
                       p: PairId)
    requires Searched(g, u, opts, n, layers, crossings) && Unlimited(opts)
    ensures p in layers[n].costs <==> exists path, cost :: Moderate(g, u, path) && Walk(g, u, path) == Some(Place(p, n, cost))
    ensures p in layers[n].costs ==> exists path :: Moderate(g, u, path) && Walk(g, u, path) == Some(Place(p, n, layers[n].costs[p]))
    ensures p in layers[n].costs ==> forall path, cost ::
      Moderate(g, u, path) && Walk(g, u, path) == Some(Place(p, n, cost)) ==> layers[n].costs[p] <= cost
  {
    hide Closes, Crosses, CrossingFits, Moderate, Walk, InBeam;
    forall path, cost | Moderate(g, u, path) && Walk(g, u, path) == Some(Place(p, n, cost))
      ensures p in layers[n].costs && layers[n].costs[p] <= cost
    {
      ModerateReached(g, u, opts, n, layers, crossings, path);
    }
    if p in layers[n].costs {
      var path := CostWalk(g, u, n, layers, crossings, n, p);
      NeverTightened(g, u, opts, n, layers, crossings);
      ModerateInBeam(g, u, opts, n, layers, crossings, path);
      assert exists cost :: Moderate(g, u, path) && Walk(g, u, path) == Some(Place(p, n, cost));
    }
  }

  lemma NeverTightened(g: Graph, u: Utterance, opts: Options, n: nat, layers: seq<Layer>, crossings: seq<Crossing>)
    requires Searched(g, u, opts, n, layers, crossings) && Unlimited(opts)
    ensures NeverTightens(crossings)
  {
    hide Closes, Crosses, CrossingFits;
    forall k: nat | k < n
      ensures crossings[k].first == crossings[k].limit
    {
      UnlimitedCrossing(g, u, opts, k, layers[k].costs, crossings[k], layers[k + 1].entry);
    }
  }
}
