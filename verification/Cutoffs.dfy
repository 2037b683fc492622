/** How the lattice decoder is configured, and how far its search goes on each frame. */
module Cutoffs {
  import opened Basics
  import opened Composition
  import opened Costs
  import opened Lattice
  import opened OrderStatistics
  import opened BeamSearch

  datatype Config = Config(beam: Cost, maxActive: nat, latticeBeam: nat, pruneInterval: nat, beamDelta: int) {
    predicate Check() {
      Fin(0).Lt(beam) && 1 < maxActive <= UNLIMITED && latticeBeam > 0 && pruneInterval > 0 && beamDelta > 0
    }

    /** Nothing but infinite cost is ever cut off. */
    predicate Unbounded() {
      beam.Inf? && maxActive == UNLIMITED
    }
  }

  ghost function CostsAmong(toks: map<PairId, Addr>, h: Heap): map<PairId, int> {
    map p | p in toks && toks[p] in h :: h[toks[p]].totCost
  }

  // ----- along emitting arcs -----

  /** How cutoff and adaptive beam depend on the tokens' costs. */
  ghost predicate CutoffFor(config: Config, costs: map<PairId, int>, best: int, cutoff: Cost, adaptiveBeam: Cost) {
    if config.maxActive == UNLIMITED || |costs| <= config.maxActive then
      cutoff == Fin(best).Add(config.beam) && adaptiveBeam == config.beam
    else
      exists p :: p in costs && ActiveBound(costs, config.maxActive, costs[p])
        && cutoff == Fin(best).Add(config.beam).Min(Fin(costs[p]))
        && adaptiveBeam == config.beam.Min(cutoff.Plus(config.beamDelta - best))
  }

  /** The cutoff and the adaptive beam that belong to the tokens of a frame. */
  ghost predicate CutoffsAre(config: Config, costs: map<PairId, int>, cutoff: Cost, adaptiveBeam: Cost) {
    if costs == map[] then cutoff.Inf? && adaptiveBeam == config.beam
    else exists p :: IsBestOf(costs, p) && CutoffFor(config, costs, costs[p], cutoff, adaptiveBeam)
  }

  lemma CutoffForUnique(config: Config, costs: map<PairId, int>, best: int, cutoff: Cost, adaptiveBeam: Cost,
                        cutoff': Cost, adaptiveBeam': Cost)
    requires CutoffFor(config, costs, best, cutoff, adaptiveBeam) && CutoffFor(config, costs, best, cutoff', adaptiveBeam')
    ensures cutoff' == cutoff && adaptiveBeam' == adaptiveBeam
  {
    hide ActiveBound;
    if config.maxActive != UNLIMITED && |costs| > config.maxActive {
      var x :| x in costs && ActiveBound(costs, config.maxActive, costs[x]) && cutoff == Fin(best).Add(config.beam).Min(Fin(costs[x]));
      var y :| y in costs && ActiveBound(costs, config.maxActive, costs[y]) && cutoff' == Fin(best).Add(config.beam).Min(Fin(costs[y]));
      ActiveBoundsAgree(costs, config.maxActive, costs[x], costs[y]);
      ActiveBoundsAgree(costs, config.maxActive, costs[y], costs[x]);
    }
  }

  /** The costs of a frame leave no choice of cutoff and adaptive beam. */
  lemma CutoffsUnique(config: Config, costs: map<PairId, int>, cutoff: Cost, adaptiveBeam: Cost, cutoff': Cost,
                      adaptiveBeam': Cost)
    requires CutoffsAre(config, costs, cutoff, adaptiveBeam) && CutoffsAre(config, costs, cutoff', adaptiveBeam')
    ensures cutoff' == cutoff && adaptiveBeam' == adaptiveBeam
  {
    hide CutoffFor;
    if costs != map[] {
      var p :| IsBestOf(costs, p) && CutoffFor(config, costs, costs[p], cutoff, adaptiveBeam);
      var q :| IsBestOf(costs, q) && CutoffFor(config, costs, costs[q], cutoff', adaptiveBeam');
      assert costs[p] == costs[q];
      CutoffForUnique(config, costs, costs[p], cutoff, adaptiveBeam, cutoff', adaptiveBeam');
    }
  }

  lemma ActiveBoundsAgree(costs: map<PairId, int>, max: nat, x: int, y: int)
    requires ActiveBound(costs, max, x) && ActiveBound(costs, max, y)
    ensures x <= y
  {
    if y < x {
      SubsetCount(Below(costs, y + 1), Below(costs, x));
    }
  }

  /** The best token is within the cutoff, and the beam for the next frame is positive but no wider than configured. */
  lemma CutoffUsable(config: Config, costs: map<PairId, int>, cutoff: Cost, adaptiveBeam: Cost)
    requires config.Check() && CutoffsAre(config, costs, cutoff, adaptiveBeam)
    ensures forall p :: IsBestOf(costs, p) ==> Fin(costs[p]).Le(cutoff)
    ensures Fin(0).Lt(adaptiveBeam) && adaptiveBeam.Le(config.beam)
    ensures config.Unbounded() ==> cutoff.Inf? && adaptiveBeam.Inf?
  {
  }

  ghost function Under(costs: map<PairId, int>, cutoff: Cost): set<PairId> {
    set p | p in costs && Fin(costs[p]).Lt(cutoff)
  }

  /** With maxActive limited, at most maxActive tokens are strictly under the cutoff. */
  lemma FewUnderCutoff(config: Config, costs: map<PairId, int>, cutoff: Cost, adaptiveBeam: Cost)
    requires CutoffsAre(config, costs, cutoff, adaptiveBeam)
    ensures config.maxActive < UNLIMITED ==> |Under(costs, cutoff)| <= config.maxActive
  {
    var under := Under(costs, cutoff);
    assert |costs.Keys| == |costs|;
    SubsetCount(under, costs.Keys);
    if costs == map[] || config.maxActive >= UNLIMITED || |costs| <= config.maxActive {
      return;
    }
    var p :| IsBestOf(costs, p) && CutoffFor(config, costs, costs[p], cutoff, adaptiveBeam);
    var q :| q in costs && ActiveBound(costs, config.maxActive, costs[q])
             && cutoff == Fin(costs[p]).Add(config.beam).Min(Fin(costs[q]));
    assert cutoff.Le(Fin(costs[q]));
    SubsetCount(under, Below(costs, costs[q]));
  }

  // ----- along epsilon arcs -----

  /** The cutoff of a relaxation that begins with tokens of the given costs. */
  ghost predicate EpsilonCutoffIs(config: Config, costs: map<PairId, int>, cutoff: Cost) {
    if costs == map[] then cutoff.Inf? else exists p :: IsBestOf(costs, p) && cutoff == Fin(costs[p]).Add(config.beam)
  }
}
