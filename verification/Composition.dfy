/** The decoding graph composed on the fly with a deterministic language model. */
module Composition {
  import opened Basics
  import opened Costs

  /** A valid state id: a non-negative 32-bit integer. */
  type StateId = s: int | 0 <= s < TWO_31

  /** A key for a pair of states: a 64-bit unsigned integer. */
  type PairId = nat

  /** An arc; label 0 is epsilon on either side. */
  datatype Arc = Arc(ilabel: int, olabel: int, weight: Cost, nextState: StateId)

  /** An arc of the composition. */
  datatype PairArc = PairArc(ilabel: int, olabel: int, weight: Cost, next: PairId)

  /** The graph (a state's arcs in iteration order, its final cost) and the
      language model (at most one arc for each state and word, a final cost). */
  datatype Graph = Graph(
    start: StateId, arcs: map<StateId, seq<Arc>>, final: map<StateId, Cost>,
    lmStart: StateId, lmArcs: map<(StateId, int), Arc>, lmFinal: map<StateId, Cost>)
  {
    ghost predicate Valid() {
      && start in arcs && arcs.Keys == final.Keys
      && lmStart in lmFinal
      && (forall s, a :: s in arcs && a in arcs[s] ==> a.nextState in arcs)
      && (forall k :: k in lmArcs ==> lmArcs[k].nextState in lmFinal)
    }
  }

  /** The words and the acoustics: the cost of an input label on a frame. */
  datatype Utterance = Utterance(numFrames: nat, acousticCost: (nat, int) -> Cost)
  {
    predicate IsLastFrame(frame: int) { frame == numFrames - 1 }
  }

  // ----- pair keys -----

  function ConstructPair(s: StateId, lm: StateId): PairId {
    s + lm * TWO_32
  }

  function PairToState(pair: PairId): int {
    AsSigned(pair % TWO_32)
  }

  function PairToLmState(pair: PairId): int {
    AsSigned(pair / TWO_32 % TWO_32)
  }

  /** Two states go through a key unharmed, so different pairs never share one. */
  lemma PairRoundTrip(s: StateId, lm: StateId)
    ensures PairToState(ConstructPair(s, lm)) == s
    ensures PairToLmState(ConstructPair(s, lm)) == lm
    ensures ConstructPair(s, lm) < 0x1_0000_0000_0000_0000
  {
  }

  ghost predicate IsPair(g: Graph, pair: PairId) {
    && PairToState(pair) in g.arcs && PairToLmState(pair) in g.lmFinal
    && pair == ConstructPair(PairToState(pair), PairToLmState(pair))
  }

  function StartPair(g: Graph): PairId {
    ConstructPair(g.start, g.lmStart)
  }

  /** The final cost of a pair of states. */
  function PairFinal(g: Graph, p: PairId): Cost
    requires g.arcs.Keys == g.final.Keys && IsPair(g, p)
  {
    g.final[PairToState(p)].Add(g.lmFinal[PairToLmState(p)])
  }

  // ----- arcs of the composition -----

  /** Crosses a word in the language model; a word it does not know costs infinity. */
  function PropagateLm(g: Graph, lmState: StateId, arc: Arc): (r: (Arc, StateId)) {
    if arc.olabel == 0 then (arc, lmState)
    else if (lmState, arc.olabel) !in g.lmArcs then (arc.(weight := Inf), lmState)
    else
      var lm := g.lmArcs[(lmState, arc.olabel)];
      (arc.(weight := arc.weight.Add(lm.weight), olabel := lm.olabel), lm.nextState)
  }

  function ArcCount(g: Graph, pair: PairId): nat
    requires IsPair(g, pair)
  {
    |g.arcs[PairToState(pair)]|
  }

  /** The i-th arc out of a pair of states. */
  function PairArcAt(g: Graph, pair: PairId, i: nat): PairArc
    requires IsPair(g, pair) && i < ArcCount(g, pair)
  {
    var (arc, lm) := PropagateLm(g, PairToLmState(pair), g.arcs[PairToState(pair)][i]);
    PairArc(arc.ilabel, arc.olabel, arc.weight, ConstructPair(arc.nextState, lm))
  }

  lemma PairArcStays(g: Graph, pair: PairId, i: nat)
    requires g.Valid() && IsPair(g, pair) && i < ArcCount(g, pair)
    ensures IsPair(g, PairArcAt(g, pair, i).next)
  {
    var arc := g.arcs[PairToState(pair)][i];
    var lm := PropagateLm(g, PairToLmState(pair), arc).1;
    PairRoundTrip(arc.nextState, lm);
  }

  /** All pairs of states: there are finitely many. */
  ghost function AllPairs(g: Graph): (ps: set<PairId>)
    ensures forall p :: IsPair(g, p) ==> p in ps
  {
    set s, lm | s in g.arcs && lm in g.lmFinal :: ConstructPair(s, lm)
  }

  // ----- paths of the composition -----

  /** A path, by its first pair and the numbers of the arcs it takes. */
  datatype Path = From(pair: PairId) | Snoc(prefix: Path, arc: nat)

  /** Where a path has got to: the pair of states, emitting arcs taken, cost so far. */
  datatype Place = Place(pair: PairId, frames: nat, cost: int)

  /** The cost of an arc after n emitting arcs: an emitting one also pays for frame n. */
  ghost function StepCost(u: Utterance, n: nat, arc: PairArc): Cost {
    if arc.ilabel == 0 then arc.weight else arc.weight.Add(u.acousticCost(n, arc.ilabel))
  }

  ghost function TakeArc(g: Graph, u: Utterance, at: Place, i: nat): Option<Place>
  {
    if IsPair(g, at.pair) && i < ArcCount(g, at.pair) then
      var arc := PairArcAt(g, at.pair, i);
      var x := StepCost(u, at.frames, arc);
      if x.Inf? then None
      else Some(Place(arc.next, at.frames + (if arc.ilabel == 0 then 0 else 1), at.cost + x.value))
    else None
  }

  /** Where a path of the explicit composition ends, if it is one and its cost is finite. */
  ghost function Walk(g: Graph, u: Utterance, path: Path): Option<Place> {
    match path
    case From(pair) => if pair == StartPair(g) then Some(Place(pair, 0, 0)) else None
    case Snoc(prefix, i) =>
      match Walk(g, u, prefix)
      case None => None
      case Some(at) => TakeArc(g, u, at, i)
  }

  // ----- emitting and epsilon arcs -----

  /** An emitting arc of finite cost, for a token that has seen n frames. */
  ghost predicate EmittingArc(g: Graph, u: Utterance, n: nat, p: PairId, i: nat) {
    && IsPair(g, p) && i < ArcCount(g, p) && PairArcAt(g, p, i).ilabel != 0
    && PairArcAt(g, p, i).weight.Fin? && u.acousticCost(n, PairArcAt(g, p, i).ilabel).Fin?
  }

  ghost predicate EpsilonArc(g: Graph, pair: PairId, i: nat) {
    && IsPair(g, pair) && i < ArcCount(g, pair)
    && PairArcAt(g, pair, i).ilabel == 0 && PairArcAt(g, pair, i).weight.Fin?
  }

  /** Potentials witness that no epsilon cycle has negative cost; single arcs may. */
  ghost predicate Feasible(g: Graph, potential: map<PairId, int>) {
    && (forall p :: IsPair(g, p) ==> p in potential)
    && forall p, i :: EpsilonArc(g, p, i) && PairArcAt(g, p, i).next in potential && p in potential ==>
         potential[p] <= PairArcAt(g, p, i).weight.value + potential[PairArcAt(g, p, i).next]
  }

  /** If no epsilon arc costs less than nothing, zero potentials will do. */
  lemma ZeroPotential(g: Graph)
    requires forall p, i: nat :: EpsilonArc(g, p, i) ==> PairArcAt(g, p, i).weight.value >= 0
    ensures Feasible(g, map p | p in AllPairs(g) :: 0)
  {
  }
}
