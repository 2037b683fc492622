/** What a path of the composition is made of: a path of the graph, and a run of the language model over its words. */
module ComposedPaths {
  import opened Basics
  import opened Composition
  import opened Costs

  /** An arc of a linear lattice, from one state to the next. */
  datatype LinearArc = LinearArc(ilabel: int, olabel: int, graphCost: int, acousticCost: int)

  /** A path as a linear lattice: graph costs and, for emitting arcs, acoustic costs. */
  ghost function PathArcs(g: Graph, u: Utterance, path: Path): seq<LinearArc> {
    match path
    case From(_) => []
    case Snoc(prefix, i) =>
      match Walk(g, u, prefix)
      case None => []
      case Some(at) =>
        if TakeArc(g, u, at, i).None? then [] else
          var arc := PairArcAt(g, at.pair, i);
          PathArcs(g, u, prefix) + [LinearArc(arc.ilabel, arc.olabel, arc.weight.value,
                                              if arc.ilabel == 0 then 0 else u.acousticCost(at.frames, arc.ilabel).value)]
  }

  ghost function TotalCost(arcs: seq<LinearArc>): int {
    if arcs == [] then 0 else
      TotalCost(arcs[..|arcs| - 1]) + arcs[|arcs| - 1].graphCost + arcs[|arcs| - 1].acousticCost
  }

  ghost function EmittingCount(arcs: seq<LinearArc>): nat {
    if arcs == [] then 0 else EmittingCount(arcs[..|arcs| - 1]) + if arcs[|arcs| - 1].ilabel != 0 then 1 else 0
  }

  /** The output path pays what the token's weight says, and has an emitting arc for every frame. */
  lemma {:induction false} PathArcsAddUp(g: Graph, u: Utterance, path: Path)
    requires Walk(g, u, path).Some?
    ensures TotalCost(PathArcs(g, u, path)) == Walk(g, u, path).value.cost
    ensures EmittingCount(PathArcs(g, u, path)) == Walk(g, u, path).value.frames
  {
    match path
    case From(_) =>
    case Snoc(prefix, i) =>
      hide PairArcAt;
      PathArcsAddUp(g, u, prefix);
      var arcs := PathArcs(g, u, path);
      assert arcs[..|arcs| - 1] == PathArcs(g, u, prefix);
  }

  // ----- the two sides of a path -----

  /** Where arcs lead to. */
  function StateAfter(start: StateId, arcs: seq<Arc>): StateId {
    if arcs == [] then start else arcs[|arcs| - 1].nextState
  }

  ghost function FirstPair(path: Path): PairId {
    match path
    case From(pair) => pair
    case Snoc(prefix, _) => FirstPair(prefix)
  }

  ghost function ArcNumbers(path: Path): seq<nat> {
    match path
    case From(_) => []
    case Snoc(prefix, i) => ArcNumbers(prefix) + [i]
  }

  /** Arcs of the graph with the given numbers, each out of the state that the ones before lead to. */
  ghost predicate GraphSide(g: Graph, numbers: seq<nat>, arcs: seq<Arc>) {
    |arcs| == |numbers| && forall k: nat :: k < |arcs| ==>
      var s := StateAfter(g.start, arcs[..k]);
      s in g.arcs && numbers[k] < |g.arcs[s]| && arcs[k] == g.arcs[s][numbers[k]]
  }

  /** The output labels that are not epsilon. */
  ghost function Words(arcs: seq<Arc>): seq<int> {
    if arcs == [] then [] else
      Words(arcs[..|arcs| - 1]) + if arcs[|arcs| - 1].olabel == 0 then [] else [arcs[|arcs| - 1].olabel]
  }

  /** Arcs of the language model for the given words, each out of the state that the ones before lead to. */
  ghost predicate LmSide(g: Graph, words: seq<int>, run: seq<Arc>) {
    |run| == |words| && forall k: nat :: k < |run| ==>
      var word := (StateAfter(g.lmStart, run[..k]), words[k]);
      word in g.lmArcs && run[k] == g.lmArcs[word]
  }

  ghost predicate TwoSides(g: Graph, path: Path, arcs: seq<Arc>, run: seq<Arc>) {
    FirstPair(path) == StartPair(g) && GraphSide(g, ArcNumbers(path), arcs) && LmSide(g, Words(arcs), run)
  }

  ghost function Emissions(arcs: seq<Arc>): nat {
    if arcs == [] then 0 else Emissions(arcs[..|arcs| - 1]) + if arcs[|arcs| - 1].ilabel == 0 then 0 else 1
  }

  ghost function WeightSum(arcs: seq<Arc>): Cost {
    if arcs == [] then Fin(0) else WeightSum(arcs[..|arcs| - 1]).Add(arcs[|arcs| - 1].weight)
  }

  /** The n-th emitting arc pays for frame n. */
  ghost function AcousticSum(u: Utterance, arcs: seq<Arc>): Cost {
    if arcs == [] then Fin(0) else
      var front, arc := arcs[..|arcs| - 1], arcs[|arcs| - 1];
      AcousticSum(u, front).Add(if arc.ilabel == 0 then Fin(0) else u.acousticCost(Emissions(front), arc.ilabel))
  }

  /** What graph, language model and acoustics ask for. */
  ghost function CostInAll(u: Utterance, arcs: seq<Arc>, run: seq<Arc>): Cost {
    WeightSum(arcs).Add(WeightSum(run)).Add(AcousticSum(u, arcs))
  }

  /** The path's k-th arc: the graph's input label, the language model's output label, and what each asks for. */
  ghost predicate IsArc(u: Utterance, arcs: seq<Arc>, run: seq<Arc>, k: nat, arc: LinearArc) {
    && k < |arcs| && arc.ilabel == arcs[k].ilabel
    && (if arcs[k].olabel == 0 then arc.olabel == 0 && Fin(arc.graphCost) == arcs[k].weight
        else
          var j := |Words(arcs[..k])|;
          j < |run| && arc.olabel == run[j].olabel && Fin(arc.graphCost) == arcs[k].weight.Add(run[j].weight))
    && Fin(arc.acousticCost) == if arcs[k].ilabel == 0 then Fin(0) else u.acousticCost(Emissions(arcs[..k]), arcs[k].ilabel)
  }

  /** Where a path is, according to its two sides. */
  ghost predicate PlaceIs(g: Graph, u: Utterance, arcs: seq<Arc>, run: seq<Arc>, at: Place) {
    && at.pair == ConstructPair(StateAfter(g.start, arcs), StateAfter(g.lmStart, run))
    && at.frames == Emissions(arcs) && Fin(at.cost) == CostInAll(u, arcs, run)
    && StateAfter(g.start, arcs) in g.arcs && StateAfter(g.lmStart, run) in g.lmFinal
  }

  ghost predicate ArcsAre(u: Utterance, arcs: seq<Arc>, run: seq<Arc>, linear: seq<LinearArc>) {
    |linear| == |arcs| && forall k: nat :: k < |linear| ==> IsArc(u, arcs, run, k, linear[k])
  }

  // ----- one arc more -----

  /** The graph's next arc, and the language model knows its word if it has one. */
  ghost predicate NextArc(g: Graph, arcs: seq<Arc>, run: seq<Arc>, i: nat, arc: Arc) {
    && StateAfter(g.start, arcs) in g.arcs && i < |g.arcs[StateAfter(g.start, arcs)]|
    && arc == g.arcs[StateAfter(g.start, arcs)][i]
    && (arc.olabel != 0 ==> (StateAfter(g.lmStart, run), arc.olabel) in g.lmArcs)
  }

  /** The run of the language model once an arc of the graph has been taken. */
  ghost function RunOn(g: Graph, run: seq<Arc>, arc: Arc): seq<Arc>
    requires arc.olabel != 0 ==> (StateAfter(g.lmStart, run), arc.olabel) in g.lmArcs
  {
    if arc.olabel == 0 then run else run + [g.lmArcs[(StateAfter(g.lmStart, run), arc.olabel)]]
  }

  lemma GraphSnoc(g: Graph, numbers: seq<nat>, arcs: seq<Arc>, i: nat)
    requires GraphSide(g, numbers, arcs) && StateAfter(g.start, arcs) in g.arcs && i < |g.arcs[StateAfter(g.start, arcs)]|
    ensures GraphSide(g, numbers + [i], arcs + [g.arcs[StateAfter(g.start, arcs)][i]])
  {
    var arcs' := arcs + [g.arcs[StateAfter(g.start, arcs)][i]];
    forall k: nat | k <= |arcs|
      ensures arcs'[..k] == arcs[..k]
    {
    }
    assert arcs[..|arcs|] == arcs;
    hide StateAfter;
  }

  lemma LmSnoc(g: Graph, words: seq<int>, run: seq<Arc>, word: int)
    requires LmSide(g, words, run) && (StateAfter(g.lmStart, run), word) in g.lmArcs
    ensures LmSide(g, words + [word], run + [g.lmArcs[(StateAfter(g.lmStart, run), word)]])
  {
    var run' := run + [g.lmArcs[(StateAfter(g.lmStart, run), word)]];
    forall k: nat | k <= |run|
      ensures run'[..k] == run[..k]
    {
    }
    assert run[..|run|] == run;
    hide StateAfter;
  }

  lemma WordsSnoc(arcs: seq<Arc>, arc: Arc)
    ensures Words(arcs + [arc]) == if arc.olabel == 0 then Words(arcs) else Words(arcs) + [arc.olabel]
  {
    assert (arcs + [arc])[..|arcs|] == arcs;
  }

  lemma SidesSnoc(g: Graph, prefix: Path, i: nat, arcs: seq<Arc>, run: seq<Arc>, arc: Arc)
    requires TwoSides(g, prefix, arcs, run) && NextArc(g, arcs, run, i, arc)
    ensures TwoSides(g, Snoc(prefix, i), arcs + [arc], RunOn(g, run, arc))
  {
    hide GraphSide, LmSide, StateAfter, Words;
    WordsSnoc(arcs, arc);
    GraphSnoc(g, ArcNumbers(prefix), arcs, i);
    if arc.olabel != 0 {
      LmSnoc(g, Words(arcs), run, arc.olabel);
    }
  }

  lemma GraphFront(g: Graph, numbers: seq<nat>, i: nat, arcs: seq<Arc>)
    requires GraphSide(g, numbers + [i], arcs)
    ensures var front := arcs[..|arcs| - 1];
      && arcs != [] && GraphSide(g, numbers, front) && StateAfter(g.start, front) in g.arcs
      && i < |g.arcs[StateAfter(g.start, front)]| && arcs == front + [g.arcs[StateAfter(g.start, front)][i]]
  {
    var front := arcs[..|arcs| - 1];
    forall k: nat | k <= |front|
      ensures front[..k] == arcs[..k]
    {
    }
    assert front[..|front|] == front;
    hide StateAfter;
  }

  lemma LmFront(g: Graph, words: seq<int>, word: int, run: seq<Arc>)
    requires LmSide(g, words + [word], run)
    ensures var front := run[..|run| - 1];
      && run != [] && LmSide(g, words, front) && (StateAfter(g.lmStart, front), word) in g.lmArcs
      && run == front + [g.lmArcs[(StateAfter(g.lmStart, front), word)]]
  {
    var front := run[..|run| - 1];
    forall k: nat | k <= |front|
      ensures front[..k] == run[..k]
    {
    }
    assert front[..|front|] == front;
    hide StateAfter;
  }

  /** Conversely, the sides of a longer path are those of the shorter one and an arc more. */
  lemma SidesFront(g: Graph, prefix: Path, i: nat, arcs': seq<Arc>, run': seq<Arc>)
    returns (arcs: seq<Arc>, run: seq<Arc>, arc: Arc)
    requires TwoSides(g, Snoc(prefix, i), arcs', run')
    ensures TwoSides(g, prefix, arcs, run) && NextArc(g, arcs, run, i, arc)
    ensures arcs' == arcs + [arc] && run' == RunOn(g, run, arc)
  {
    hide GraphSide, LmSide, StateAfter, Words;
    GraphFront(g, ArcNumbers(prefix), i, arcs');
    arcs, arc := arcs'[..|arcs'| - 1], arcs'[|arcs'| - 1];
    WordsSnoc(arcs, arc);
    run := run';
    if arc.olabel != 0 {
      LmFront(g, Words(arcs), arc.olabel, run');
      run := run'[..|run'| - 1];
    }
  }

  /** What the language model asks for when an arc of the graph is taken. */
  ghost function LmWeight(g: Graph, run: seq<Arc>, arc: Arc): Cost
    requires arc.olabel != 0 ==> (StateAfter(g.lmStart, run), arc.olabel) in g.lmArcs
  {
    if arc.olabel == 0 then Fin(0) else g.lmArcs[(StateAfter(g.lmStart, run), arc.olabel)].weight
  }

  ghost function ArcAcoustic(u: Utterance, frames: nat, arc: Arc): Cost {
    if arc.ilabel == 0 then Fin(0) else u.acousticCost(frames, arc.ilabel)
  }

  /** What one more arc asks for. */
  lemma CostSnoc(g: Graph, u: Utterance, arcs: seq<Arc>, run: seq<Arc>, arc: Arc)
    requires arc.olabel != 0 ==> (StateAfter(g.lmStart, run), arc.olabel) in g.lmArcs
    ensures CostInAll(u, arcs + [arc], RunOn(g, run, arc)) ==
      CostInAll(u, arcs, run).Add(arc.weight).Add(LmWeight(g, run, arc)).Add(ArcAcoustic(u, Emissions(arcs), arc))
    ensures Emissions(arcs + [arc]) == Emissions(arcs) + if arc.ilabel == 0 then 0 else 1
  {
    assert (arcs + [arc])[..|arcs|] == arcs;
    if arc.olabel != 0 {
      var lm := g.lmArcs[(StateAfter(g.lmStart, run), arc.olabel)];
      assert (run + [lm])[..|run|] == run;
    }
  }

  /** An arc of the composition, in terms of the graph and the language model. */
  lemma TakeArcIs(g: Graph, u: Utterance, arcs: seq<Arc>, run: seq<Arc>, at: Place, i: nat, arc: Arc)
    requires g.Valid() && PlaceIs(g, u, arcs, run, at) && NextArc(g, arcs, run, i, arc)
    ensures TakeArc(g, u, at, i).Some? <==> CostInAll(u, arcs + [arc], RunOn(g, run, arc)).Fin?
    ensures TakeArc(g, u, at, i).Some? ==> PlaceIs(g, u, arcs + [arc], RunOn(g, run, arc), TakeArc(g, u, at, i).value)
  {
    hide CostInAll, Emissions;
    PairRoundTrip(StateAfter(g.start, arcs), StateAfter(g.lmStart, run));
    hide PairToState, PairToLmState, ConstructPair;
    CostSnoc(g, u, arcs, run, arc);
  }

  /** Only such arcs can be taken. */
  lemma TakenIsNext(g: Graph, u: Utterance, arcs: seq<Arc>, run: seq<Arc>, at: Place, i: nat) returns (arc: Arc)
    requires g.Valid() && PlaceIs(g, u, arcs, run, at) && TakeArc(g, u, at, i).Some?
    ensures NextArc(g, arcs, run, i, arc)
  {
    hide CostInAll, Emissions;
    PairRoundTrip(StateAfter(g.start, arcs), StateAfter(g.lmStart, run));
    hide PairToState, PairToLmState, ConstructPair;
    arc := g.arcs[StateAfter(g.start, arcs)][i];
  }

  // ----- the composition is made of its two sides -----

  /** A path of no arcs has no arcs on either side. */
  lemma NoSides(g: Graph, u: Utterance, pair: PairId)
    requires g.Valid()
    ensures Walk(g, u, From(pair)).Some? ==> TwoSides(g, From(pair), [], []) && PlaceIs(g, u, [], [], Walk(g, u, From(pair)).value)
  {
  }

  lemma NoSidesBut(g: Graph, pair: PairId, arcs: seq<Arc>, run: seq<Arc>)
    requires TwoSides(g, From(pair), arcs, run)
    ensures arcs == [] && run == [] && pair == StartPair(g)
  {
  }

  /** A path of finite cost has two sides, and they say where it ends. */
  lemma {:induction false} SidesOf(g: Graph, u: Utterance, path: Path) returns (arcs: seq<Arc>, run: seq<Arc>)
    requires g.Valid() && Walk(g, u, path).Some?
    ensures TwoSides(g, path, arcs, run) && PlaceIs(g, u, arcs, run, Walk(g, u, path).value)
  {
    hide TakeArc, CostInAll, TwoSides, PlaceIs;
    match path
    case From(pair) =>
      arcs, run := [], [];
      NoSides(g, u, pair);
    case Snoc(prefix, i) =>
      arcs, run := SidesOf(g, u, prefix);
      var arc := TakenIsNext(g, u, arcs, run, Walk(g, u, prefix).value, i);
      TakeArcIs(g, u, arcs, run, Walk(g, u, prefix).value, i, arc);
      SidesSnoc(g, prefix, i, arcs, run, arc);
      assert arc.olabel != 0 ==> (StateAfter(g.lmStart, run), arc.olabel) in g.lmArcs;
      arcs, run := arcs + [arc], RunOn(g, run, arc);
  }

  /** What has two sides of finite cost is a path. */
  lemma {:induction false} WalkOf(g: Graph, u: Utterance, path: Path, arcs: seq<Arc>, run: seq<Arc>)
    requires g.Valid() && TwoSides(g, path, arcs, run) && CostInAll(u, arcs, run).Fin?
    ensures Walk(g, u, path).Some? && PlaceIs(g, u, arcs, run, Walk(g, u, path).value)
  {
    hide TakeArc, CostInAll, TwoSides, PlaceIs;
    match path
    case From(pair) =>
      NoSides(g, u, pair);
      NoSidesBut(g, pair, arcs, run);
    case Snoc(prefix, i) =>
      var front, before, arc := SidesFront(g, prefix, i, arcs, run);
      CostSnoc(g, u, front, before, arc);
      WalkOf(g, u, prefix, front, before);
      TakeArcIs(g, u, front, before, Walk(g, u, prefix).value, i, arc);
  }

  /** The composition, in terms of the graph and the language model: a path is there exactly if the graph has its arcs, the
      language model knows its words, and graph, language model and acoustics together ask for a finite cost.  It ends in the
      pair of the states that the two sides lead to, at that cost, with a frame behind it for each emitting arc. */
  lemma WalkIff(g: Graph, u: Utterance, path: Path)
    requires g.Valid()
    ensures Walk(g, u, path).Some? <==> exists arcs, run :: TwoSides(g, path, arcs, run) && CostInAll(u, arcs, run).Fin?
    ensures forall arcs, run :: TwoSides(g, path, arcs, run) && CostInAll(u, arcs, run).Fin? ==>
      Walk(g, u, path).Some? && PlaceIs(g, u, arcs, run, Walk(g, u, path).value)
  {
    hide Walk, TwoSides, CostInAll;
    if Walk(g, u, path).Some? {
      var arcs, run := SidesOf(g, u, path);
    }
    forall arcs, run | TwoSides(g, path, arcs, run) && CostInAll(u, arcs, run).Fin?
      ensures Walk(g, u, path).Some? && PlaceIs(g, u, arcs, run, Walk(g, u, path).value)
    {
      WalkOf(g, u, path, arcs, run);
    }
  }

  /** A path has no more than one pair of sides. */
  lemma {:induction false} SidesUnique(g: Graph, path: Path, arcs: seq<Arc>, run: seq<Arc>, arcs': seq<Arc>,
                                       run': seq<Arc>)
    requires TwoSides(g, path, arcs, run) && TwoSides(g, path, arcs', run')
    ensures arcs' == arcs && run' == run
  {
    hide TwoSides, StateAfter, StartPair;
    match path
    case From(pair) =>
      NoSidesBut(g, pair, arcs, run);
      NoSidesBut(g, pair, arcs', run');
    case Snoc(prefix, i) =>
      var front, before, arc := SidesFront(g, prefix, i, arcs, run);
      var front', before', arc' := SidesFront(g, prefix, i, arcs', run');
      SidesUnique(g, prefix, front, before, front', before');
  }

  /** The final cost at the end of a path is that of the graph's state and that of the language model's. */
  lemma FinalIs(g: Graph, u: Utterance, path: Path, arcs: seq<Arc>, run: seq<Arc>)
    requires g.Valid() && Walk(g, u, path).Some? && TwoSides(g, path, arcs, run)
    ensures var pair := Walk(g, u, path).value.pair;
      && IsPair(g, pair) && StateAfter(g.start, arcs) in g.final && StateAfter(g.lmStart, run) in g.lmFinal
      && PairFinal(g, pair) == g.final[StateAfter(g.start, arcs)].Add(g.lmFinal[StateAfter(g.lmStart, run)])
  {
    var arcs', run' := SidesOf(g, u, path);
    SidesUnique(g, path, arcs, run, arcs', run');
    PairRoundTrip(StateAfter(g.start, arcs), StateAfter(g.lmStart, run));
  }

  // ----- arc by arc -----

  /** The composition's arc: the input label is the graph's, the output label the language model's, and both are paid. */
  ghost predicate Composed(g: Graph, run: seq<Arc>, arc: Arc, pairArc: PairArc)
    requires arc.olabel != 0 ==> (StateAfter(g.lmStart, run), arc.olabel) in g.lmArcs
  {
    && pairArc.ilabel == arc.ilabel && pairArc.weight == arc.weight.Add(LmWeight(g, run, arc))
    && pairArc.olabel == if arc.olabel == 0 then 0 else g.lmArcs[(StateAfter(g.lmStart, run), arc.olabel)].olabel
  }

  lemma PairArcIs(g: Graph, u: Utterance, arcs: seq<Arc>, run: seq<Arc>, at: Place, i: nat, arc: Arc)
    requires g.Valid() && PlaceIs(g, u, arcs, run, at) && NextArc(g, arcs, run, i, arc)
    ensures IsPair(g, at.pair) && i < ArcCount(g, at.pair) && Composed(g, run, arc, PairArcAt(g, at.pair, i))
  {
    hide CostInAll, Emissions;
    PairRoundTrip(StateAfter(g.start, arcs), StateAfter(g.lmStart, run));
  }

  /** Arcs that are right for a path's sides stay so when it goes on. */
  lemma ArcsStay(g: Graph, u: Utterance, arcs: seq<Arc>, run: seq<Arc>, linear: seq<LinearArc>, arc: Arc)
    requires ArcsAre(u, arcs, run, linear)
    requires arc.olabel != 0 ==> (StateAfter(g.lmStart, run), arc.olabel) in g.lmArcs
    ensures forall k: nat :: k < |linear| ==> IsArc(u, arcs + [arc], RunOn(g, run, arc), k, linear[k])
  {
    hide Words, Emissions;
    forall k: nat | k < |linear|
      ensures IsArc(u, arcs + [arc], RunOn(g, run, arc), k, linear[k])
    {
      assert IsArc(u, arcs, run, k, linear[k]);
      assert (arcs + [arc])[..k] == arcs[..k];
    }
  }

  lemma ArcsGoOn(g: Graph, u: Utterance, arcs: seq<Arc>, run: seq<Arc>, linear: seq<LinearArc>, arc: Arc,
                 last: LinearArc)
    requires ArcsAre(u, arcs, run, linear)
    requires arc.olabel != 0 ==> (StateAfter(g.lmStart, run), arc.olabel) in g.lmArcs
    requires IsArc(u, arcs + [arc], RunOn(g, run, arc), |arcs|, last)
    ensures ArcsAre(u, arcs + [arc], RunOn(g, run, arc), linear + [last])
  {
    hide IsArc;
    ArcsStay(g, u, arcs, run, linear, arc);
  }

  lemma WordsSoFar(g: Graph, path: Path, arcs: seq<Arc>, run: seq<Arc>)
    requires TwoSides(g, path, arcs, run)
    ensures |Words(arcs)| == |run|
  {
  }

  /** A path as a linear lattice has the graph's input labels and the language model's output labels, and each of its arcs asks for
      what the graph, the language model and the acoustics do. */
  lemma {:induction false} PathArcsAre(g: Graph, u: Utterance, path: Path, arcs: seq<Arc>, run: seq<Arc>)
    requires g.Valid() && Walk(g, u, path).Some? && TwoSides(g, path, arcs, run)
    ensures ArcsAre(u, arcs, run, PathArcs(g, u, path))
  {
    hide TakeArc, TwoSides, PlaceIs, CostInAll, PairArcAt, IsArc;
    match path
    case From(pair) =>
      NoSidesBut(g, pair, arcs, run);
    case Snoc(prefix, i) =>
      var front, before, arc := SidesFront(g, prefix, i, arcs, run);
      PathArcsAre(g, u, prefix, front, before);
      var front', before' := SidesOf(g, u, prefix);
      SidesUnique(g, prefix, front, before, front', before');
      var at := Walk(g, u, prefix).value;
      PairArcIs(g, u, front, before, at, i, arc);
      WordsSoFar(g, prefix, front, before);
      AcousticPaid(g, u, front, before, at, i, arc);
      var linear := PathArcs(g, u, prefix);
      var last := PathArcs(g, u, path)[|linear|];
      LastArcIs(g, u, front, before, arc, PairArcAt(g, at.pair, i), last);
      ArcsGoOn(g, u, front, before, linear, arc, last);
  }

  /** An arc that can be taken asks for a finite acoustic cost, that of the frame it is in. */
  lemma AcousticPaid(g: Graph, u: Utterance, arcs: seq<Arc>, run: seq<Arc>, at: Place, i: nat, arc: Arc)
    requires g.Valid() && PlaceIs(g, u, arcs, run, at) && NextArc(g, arcs, run, i, arc) && TakeArc(g, u, at, i).Some?
    ensures at.frames == Emissions(arcs) && ArcAcoustic(u, at.frames, arc).Fin?
    ensures i < ArcCount(g, at.pair) && PairArcAt(g, at.pair, i).weight.Fin?
  {
    hide CostInAll, Emissions;
    PairRoundTrip(StateAfter(g.start, arcs), StateAfter(g.lmStart, run));
  }

  lemma LastArcIs(g: Graph, u: Utterance, arcs: seq<Arc>, run: seq<Arc>, arc: Arc, pairArc: PairArc, linear: LinearArc)
    requires |Words(arcs)| == |run| && (arc.olabel != 0 ==> (StateAfter(g.lmStart, run), arc.olabel) in g.lmArcs)
    requires Composed(g, run, arc, pairArc) && pairArc.weight == Fin(linear.graphCost)
    requires linear.ilabel == pairArc.ilabel && linear.olabel == pairArc.olabel
    requires Fin(linear.acousticCost) == ArcAcoustic(u, Emissions(arcs), arc)
    ensures IsArc(u, arcs + [arc], RunOn(g, run, arc), |arcs|, linear)
  {
    hide Words, Emissions;
    assert (arcs + [arc])[..|arcs|] == arcs;
  }
}
