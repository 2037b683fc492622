/** The created lattice holds every path of the composition that the search cannot miss; without beams, every path. */
module Coverage {
  import opened Basics
  import opened Composition
  import opened Costs
  import opened Lattice
  import opened LatticePruning
  import opened ExactPruning
  import opened TokenColumn
  import opened EpsilonClosure
  import opened Emission
  import opened FrameColumn
  import opened FrameHistory
  import opened FirstFrame
  import opened Cutoffs
  import opened BeamSearch
  import opened LatticeSearch

  ghost function LastToken(start: Addr, p: seq<ForwardLink>): Addr {
    if p == [] then start else p[|p| - 1].nextTok
  }

  /** The links p take, one by one, the arcs of a path of the composition. */
  ghost predicate Follows(g: Graph, u: Utterance, c: Created, start: Addr, path: Path, p: seq<ForwardLink>) {
    match path
    case From(pair) => pair == StartPair(g) && p == []
    case Snoc(prefix, i) =>
      && p != []
      && Follows(g, u, c, start, prefix, p[..|p| - 1])
      && var b := LastToken(start, p[..|p| - 1]);
        b in c && p[|p| - 1] in c[b].links && MatchesArc(g, u, c, b, i, p[|p| - 1])
  }

  /** Lattice paths that follow a path of the composition end and cost as it does. */
  lemma {:induction false} FollowingPath(g: Graph, u: Utterance, c: Created, n: nat, start: Addr, path: Path,
                                         p: seq<ForwardLink>)
    requires History(g, u, c, n, start) && Follows(g, u, c, start, path, p)
    ensures var z := LastToken(start, p);
            && IsPath(c, start, p, z) && z in c
            && Walk(g, u, path) == Some(Place(c[z].pair, c[z].frame, PathCost(p)))
  {
    hide History, MatchesArc, TakeArc, IsPath, PairArcAt;
    match path
    case From(_) =>
      FollowingNothing(g, u, c, n, start);
    case Snoc(prefix, i) =>
      var front, l := p[..|p| - 1], p[|p| - 1];
      var b := LastToken(start, front);
      FollowingPath(g, u, c, n, start, prefix, front);
      FollowOneMore(g, u, c, n, start, front, b, i, l);
      assert p == front + [l];
  }

  lemma FollowingNothing(g: Graph, u: Utterance, c: Created, n: nat, start: Addr)
    requires History(g, u, c, n, start)
    ensures IsPath(c, start, [], start) && start in c
    ensures c[start].pair == StartPair(g) && c[start].frame == 0 && PathCost([]) == 0
  {
  }

  lemma FollowOneMore(g: Graph, u: Utterance, c: Created, n: nat, start: Addr, front: seq<ForwardLink>, b: Addr,
                      i: nat, l: ForwardLink)
    requires History(g, u, c, n, start) && IsPath(c, start, front, b) && b in c && l in c[b].links && MatchesArc(g, u, c, b, i, l)
    ensures IsPath(c, start, front + [l], l.nextTok) && l.nextTok in c
    ensures TakeArc(g, u, Place(c[b].pair, c[b].frame, PathCost(front)), i)
              == Some(Place(c[l.nextTok].pair, c[l.nextTok].frame, PathCost(front + [l])))
  {
    hide Tight, Realized, LinksAreArcs;
    OneLinkPath(c, b, l);
    Concatenate(c, start, front, b, [l], l.nextTok);
    assert PathCost([l]) == l.graphCost + l.acousticCost by { assert [l][1..] == []; }
  }

  /** Every path with at most n emitting arcs that the search cannot miss is in the created lattice. */
  ghost predicate BeamFollowed(g: Graph, u: Utterance, c: Created, start: Addr, n: nat, layers: seq<Layer>,
                               crossings: seq<Crossing>) {
    forall path :: InBeam(g, u, layers, crossings, path) && Walk(g, u, path).value.frames <= n ==>
      exists p :: Follows(g, u, c, start, path, p)
  }

  /** Every path of finite cost with at most n emitting arcs is in the created lattice. */
  ghost predicate AllFollowed(g: Graph, u: Utterance, c: Created, start: Addr, n: nat) {
    forall path :: Walk(g, u, path).Some? && Walk(g, u, path).value.frames <= n ==>
      exists p :: Follows(g, u, c, start, path, p)
  }

  lemma {:induction false} FollowsKept(g: Graph, u: Utterance, c: Created, c': Created, n: nat, start: Addr,
                                       path: Path, p: seq<ForwardLink>)
    requires Extends(c, c', n) && Follows(g, u, c, start, path, p)
    ensures Follows(g, u, c', start, path, p)
  {
    match path
    case From(_) =>
    case Snoc(prefix, i) =>
      hide PairArcAt;
      FollowsKept(g, u, c, c', n, start, prefix, p[..|p| - 1]);
  }

  lemma FollowsSnoc(g: Graph, u: Utterance, c: Created, start: Addr, prefix: Path, i: nat, p: seq<ForwardLink>,
                    l: ForwardLink)
    requires Follows(g, u, c, start, prefix, p)
    requires LastToken(start, p) in c && l in c[LastToken(start, p)].links && MatchesArc(g, u, c, LastToken(start, p), i, l)
    ensures Follows(g, u, c, start, Snoc(prefix, i), p + [l])
  {
    assert (p + [l])[..|p + [l]| - 1] == p;
  }

  /** A path that has been followed leads to a token that costs no more. */
  lemma FollowedCost(g: Graph, u: Utterance, c: Created, n: nat, start: Addr, path: Path,
                     p: seq<ForwardLink>) returns (z: Addr)
    requires History(g, u, c, n, start) && Follows(g, u, c, start, path, p)
    ensures z == LastToken(start, p) && z in c && IsPath(c, start, p, z)
    ensures Walk(g, u, path) == Some(Place(c[z].pair, c[z].frame, PathCost(p))) && c[z].totCost <= PathCost(p)
  {
    z := LastToken(start, p);
    FollowingPath(g, u, c, n, start, path, p);
    hide Follows, Tight, LinksAreArcs, Walk;
    SlackTelescopes(c, start, p, z);
  }

  // ----- one more frame -----

  /** Every epsilon arc that keeps a token under the cutoff has its link. */
  lemma InnerArcLinked(g: Graph, u: Utterance, c: Created, f: Frame, b: Addr, p: PairId,
                       i: nat) returns (l: ForwardLink)
    requires Closed(g, f) && Recorded(c, f)
    requires Has(f.col, p) && f.col.toks[p] == b && Fin(CostAt(f.col, p)).Lt(f.cutoff) && Affordable(g, p, CostAt(f.col, p), f.cutoff, i)
    ensures b in c && l in c[b].links && MatchesArc(g, u, c, b, i, l)
  {
    hide Closed, Recorded, MatchesArc, PairArcAt, SoundLink;
    InnerLink(g, u, c, f, p, i);
    l := EpsilonLink(g, f.col.toks, p, i);
  }

  /** A cheaper token can afford what a path can. */
  lemma CheaperAffords(g: Graph, u: Utterance, at: Place, i: nat, cost: int, cutoff: Cost)
    requires TakeArc(g, u, at, i).Some? && TakeArc(g, u, at, i).value.frames == at.frames && cost <= at.cost
    requires Fin(TakeArc(g, u, at, i).value.cost).Lt(cutoff)
    ensures Affordable(g, at.pair, cost, cutoff, i)
  {
    hide PairArcAt, IsPair;
  }

  /** How the new frame relates to the record of the search. */
  ghost predicate Recording(g: Graph, u: Utterance, f: NewFrame, layers: seq<Layer>, crossings: seq<Crossing>) {
    && |layers| == f.n + 2 && |crossings| == f.n + 1
    && layers[f.n + 1].epsilonCutoff == f.cutoff && crossings[f.n].cutoff == f.prev.cutoff
    && LimitLinked(g, u, f.n, f.prev, f.col1, crossings[f.n].limit)
  }

  lemma {:induction false} NextFollows(g: Graph, u: Utterance, c: Created, f: NewFrame, start: Addr,
                                       layers: seq<Layer>, crossings: seq<Crossing>, path: Path)
    requires FrameDone(g, u, c, f) && History(g, u, c, f.n, start) && Recording(g, u, f, layers, crossings)
    requires BeamFollowed(g, u, c, start, f.n, layers[..f.n + 1], crossings[..f.n])
    requires InBeam(g, u, layers, crossings, path) && Walk(g, u, path).value.frames <= f.n + 1
    ensures exists p :: Follows(g, u, NextCreated(c, f), start, path, p)
  {
    hide FrameDone, History, BeamFollowed, NextCreated, LimitLinked, Follows;
    if Walk(g, u, path).value.frames <= f.n {
      var p := FollowedOld(g, u, c, f, start, layers, crossings, path);
    } else {
      match path
      case Snoc(prefix, i) =>
        FramesAdvance(g, u, prefix, i);
        if Walk(g, u, prefix).value.frames <= f.n {
          CrossFollows(g, u, c, f, start, layers, crossings, prefix, i);
        } else {
          NextFollows(g, u, c, f, start, layers, crossings, prefix);
          InnerFollows(g, u, c, f, start, layers, crossings, prefix, i);
        }
    }
  }

  lemma FollowedOld(g: Graph, u: Utterance, c: Created, f: NewFrame, start: Addr, layers: seq<Layer>,
                    crossings: seq<Crossing>, path: Path)
    returns (p: seq<ForwardLink>)
    requires FrameDone(g, u, c, f) && Recording(g, u, f, layers, crossings)
    requires BeamFollowed(g, u, c, start, f.n, layers[..f.n + 1], crossings[..f.n])
    requires InBeam(g, u, layers, crossings, path) && Walk(g, u, path).value.frames <= f.n
    ensures Follows(g, u, c, start, path, p) && Follows(g, u, NextCreated(c, f), start, path, p)
  {
    hide FrameDone, NextCreated, LimitLinked, Follows, Walk;
    assert layers == layers[..f.n + 1] + [layers[f.n + 1]] && crossings == crossings[..f.n] + [crossings[f.n]];
    InBeamBefore(g, u, layers[..f.n + 1], crossings[..f.n], layers[f.n + 1], crossings[f.n], path);
    p :| Follows(g, u, c, start, path, p);
    NextExtends(g, u, c, f);
    FollowsKept(g, u, c, NextCreated(c, f), f.n, start, path, p);
  }

  lemma CrossFollows(g: Graph, u: Utterance, c: Created, f: NewFrame, start: Addr, layers: seq<Layer>,
                     crossings: seq<Crossing>, prefix: Path, i: nat)
    requires FrameDone(g, u, c, f) && History(g, u, c, f.n, start) && Recording(g, u, f, layers, crossings)
    requires BeamFollowed(g, u, c, start, f.n, layers[..f.n + 1], crossings[..f.n])
    requires InBeam(g, u, layers, crossings, Snoc(prefix, i)) && Walk(g, u, Snoc(prefix, i)).value.frames == f.n + 1
    requires Walk(g, u, prefix).value.frames <= f.n
    ensures exists p :: Follows(g, u, NextCreated(c, f), start, Snoc(prefix, i), p)
  {
    hide FrameDone, History, BeamFollowed, NextCreated, Follows, MatchesArc, PairArcAt, Linked, LimitLinked;
    FramesAdvance(g, u, prefix, i);
    var front := FollowedOld(g, u, c, f, start, layers, crossings, prefix);
    var b := FollowedCost(g, u, c, f.n, start, prefix, front);
    var p := c[b].pair;
    FrontPair(g, u, c, f, b);
    LimitTaken(g, u, f, crossings[f.n].limit, Walk(g, u, prefix).value, i);
    LinkedHas(g, u, f.n, f.prev, f.col1, p, i);
    CrossLinkSound(g, u, c, f, p, i);
    var l := EmittingLink(g, u, f.n, f.col1.toks, p, i);
    FollowsSnoc(g, u, NextCreated(c, f), start, prefix, i, front, l);
  }

  /** A token that costs no more than a path goes on along the path's next arc, if that stays under the limit. */
  lemma LimitTaken(g: Graph, u: Utterance, f: NewFrame, limit: Cost, at: Place, i: nat)
    requires LimitLinked(g, u, f.n, f.prev, f.col1, limit)
    requires at.frames == f.n && at.pair in f.prev.toks && f.prev.toks[at.pair] in f.prev.heap
    requires f.prev.heap[f.prev.toks[at.pair]].totCost <= at.cost && Fin(at.cost).Le(f.prev.cutoff)
    requires TakeArc(g, u, at, i).Some? && TakeArc(g, u, at, i).value.frames == f.n + 1 && Fin(TakeArc(g, u, at, i).value.cost).Lt(limit)
    ensures Linked(g, u, f.n, f.prev, f.col1, at.pair, i)
  {
    hide Linked, PairArcAt, IsPair;
    assert Candidate(g, u, f.n, f.prev, at.pair, i);
  }

  lemma LinkedHas(g: Graph, u: Utterance, n: nat, prev: Previous, col: Column, p: PairId, i: nat)
    requires Linked(g, u, n, prev, col, p, i)
    ensures EmittingArc(g, u, n, p, i) && PairArcAt(g, p, i).next in col.toks
  {
  }

  lemma InnerFollows(g: Graph, u: Utterance, c: Created, f: NewFrame, start: Addr, layers: seq<Layer>,
                     crossings: seq<Crossing>, prefix: Path, i: nat)
    requires FrameDone(g, u, c, f) && History(g, u, c, f.n, start) && Recording(g, u, f, layers, crossings)
    requires InBeam(g, u, layers, crossings, Snoc(prefix, i)) && Walk(g, u, Snoc(prefix, i)).value.frames == f.n + 1
    requires Walk(g, u, prefix).value.frames == f.n + 1
    requires exists p :: Follows(g, u, NextCreated(c, f), start, prefix, p)
    ensures exists p :: Follows(g, u, NextCreated(c, f), start, Snoc(prefix, i), p)
  {
    hide FrameDone, History, NextCreated, Follows, MatchesArc, PairArcAt, Closed, Recorded, LimitLinked;
    var c' := NextCreated(c, f);
    var front :| Follows(g, u, c', start, prefix, front);
    NextHistory(g, u, c, f, start);
    var b := FollowedCost(g, u, c', f.n + 1, start, prefix, front);
    HistoryWellFormed(g, u, c, f.n, start);
    NextExtends(g, u, c, f);
    assert b !in c;
    NewTokenBack(g, u, c, f, b);
    NewToken(g, u, c, f, f.col2.pairOf[b]);
    NewFrameRecorded(g, u, c, f);
    CheaperAffords(g, u, Walk(g, u, prefix).value, i, c'[b].totCost, f.cutoff);
    var l := InnerArcLinked(g, u, c', InnerFrame(f), b, f.col2.pairOf[b], i);
    FollowsSnoc(g, u, c', start, prefix, i, front, l);
  }

  lemma NextBeamFollowed(g: Graph, u: Utterance, c: Created, f: NewFrame, start: Addr, layers: seq<Layer>,
                         crossings: seq<Crossing>)
    requires FrameDone(g, u, c, f) && History(g, u, c, f.n, start) && Recording(g, u, f, layers, crossings)
    requires BeamFollowed(g, u, c, start, f.n, layers[..f.n + 1], crossings[..f.n])
    ensures BeamFollowed(g, u, NextCreated(c, f), start, f.n + 1, layers, crossings)
  {
    hide FrameDone, History, NextCreated, Recording, Follows;
    forall path | InBeam(g, u, layers, crossings, path) && Walk(g, u, path).value.frames <= f.n + 1
      ensures exists p :: Follows(g, u, NextCreated(c, f), start, path, p)
    {
      NextFollows(g, u, c, f, start, layers, crossings, path);
    }
  }

  lemma {:induction false} FirstFollows(g: Graph, u: Utterance, potential: map<PairId, int>, f: Frame, start: Addr,
                                        layer: Layer, path: Path)
    requires FirstDone(g, potential, start, f) && layer.epsilonCutoff == f.cutoff
    requires InBeam(g, u, [layer], [], path) && Walk(g, u, path).value.frames == 0
    ensures exists p :: Follows(g, u, FirstCreated(f), start, path, p)
  {
    hide FirstDone, FirstCreated, MatchesArc, PairArcAt, Closed, Recorded;
    match path
    case From(_) =>
      assert Follows(g, u, FirstCreated(f), start, path, []);
    case Snoc(prefix, i) =>
      FramesAdvance(g, u, prefix, i);
      FirstFollows(g, u, potential, f, start, layer, prefix);
      hide Follows;
      FirstFollowsOn(g, u, potential, f, start, prefix, i);
  }

  lemma FirstFollowsOn(g: Graph, u: Utterance, potential: map<PairId, int>, f: Frame, start: Addr, prefix: Path, i: nat)
    requires FirstDone(g, potential, start, f) && Walk(g, u, Snoc(prefix, i)).Some? && Walk(g, u, Snoc(prefix, i)).value.frames == 0
    requires Walk(g, u, prefix).Some? && Walk(g, u, prefix).value.frames == 0
    requires Fin(Walk(g, u, prefix).value.cost).Lt(f.cutoff) && Fin(Walk(g, u, Snoc(prefix, i)).value.cost).Lt(f.cutoff)
    requires exists p :: Follows(g, u, FirstCreated(f), start, prefix, p)
    ensures exists p :: Follows(g, u, FirstCreated(f), start, Snoc(prefix, i), p)
  {
    hide FirstDone, FirstCreated, Follows, MatchesArc, PairArcAt, Closed, Recorded;
    var c := FirstCreated(f);
    var front :| Follows(g, u, c, start, prefix, front);
    FirstHistory(g, u, potential, start, f);
    var b := FollowedCost(g, u, c, 0, start, prefix, front);
    FirstRecorded(g, potential, start, f);
    RecordedLinks(c, f, f.col.pairOf[b]);
    CheaperAffords(g, u, Walk(g, u, prefix).value, i, c[b].totCost, f.cutoff);
    var l := InnerArcLinked(g, u, c, f, b, f.col.pairOf[b], i);
    FollowsSnoc(g, u, c, start, prefix, i, front, l);
  }

  lemma FirstBeamFollowed(g: Graph, u: Utterance, potential: map<PairId, int>, f: Frame, start: Addr, layer: Layer)
    requires FirstDone(g, potential, start, f) && layer.epsilonCutoff == f.cutoff
    ensures BeamFollowed(g, u, FirstCreated(f), start, 0, [layer], [])
  {
    hide FirstDone, FirstCreated, Follows;
    forall path | InBeam(g, u, [layer], [], path) && Walk(g, u, path).value.frames <= 0
      ensures exists p :: Follows(g, u, FirstCreated(f), start, path, p)
    {
      FirstFollows(g, u, potential, f, start, layer, path);
    }
  }

  /** Without beams, what cannot be missed is everything. */
  lemma UnboundedFollowed(g: Graph, u: Utterance, config: Config, c: Created, start: Addr, n: nat, layers: seq<Layer>,
                          crossings: seq<Crossing>)
    requires Searched(g, u, config, c, n, layers, crossings) && config.Check() && config.Unbounded()
    requires BeamFollowed(g, u, c, start, n, layers, crossings)
    ensures AllFollowed(g, u, c, start, n)
  {
    hide Searched, Follows, Walk, InBeam;
    forall path | Walk(g, u, path).Some? && Walk(g, u, path).value.frames <= n
      ensures exists p :: Follows(g, u, c, start, path, p)
    {
      AllInBeam(g, u, config, c, n, layers, crossings, path);
    }
  }

  // ----- the record of the search -----

  lemma CostsOnFrameAgree(c: Created, k: nat, costs: map<PairId, int>, costs': map<PairId, int>)
    requires CostsOnFrame(c, k, costs) && CostsOnFrame(c, k, costs')
    ensures costs == costs'
  {
  }

  lemma CostsOnFrameKept(g: Graph, u: Utterance, c: Created, f: NewFrame, start: Addr, k: nat, costs: map<PairId, int>)
    requires FrameDone(g, u, c, f) && History(g, u, c, f.n, start) && k <= f.n && CostsOnFrame(c, k, costs)
    ensures CostsOnFrame(NextCreated(c, f), k, costs)
  {
    hide FrameDone, History, NextCreated;
    NextExtends(g, u, c, f);
    NewFrames(g, u, c, f);
  }

  /** The record of one more frame. */
  lemma NextSearched(g: Graph, u: Utterance, config: Config, c: Created, f: NewFrame, start: Addr, layers: seq<Layer>,
                     crossings: seq<Crossing>,
                     x: Crossing)
    requires FrameDone(g, u, c, f) && History(g, u, c, f.n, start) && Searched(g, u, config, c, f.n, layers, crossings)
    requires CrossingOk(g, u, config, f.n, CostsAmong(f.prev.toks, f.prev.heap), x, EntryCosts(f.col1))
    requires EpsilonCutoffIs(config, EntryCosts(f.col1), f.cutoff) && EntryCosts(f.col1) != map[]
    ensures Searched(g, u, config, NextCreated(c, f), f.n + 1, layers + [Layer(EntryCosts(f.col1), f.cutoff, EntryCosts(f.col2))], crossings + [x])
  {
    hide History, NextCreated, LayerOk, CrossingOk, CostsOnFrame, CostsAmong, EpsilonCutoffIs, Grows, Emitting,
      ColumnOk, OutsideKept, Closed, Front;
    var layer := Layer(EntryCosts(f.col1), f.cutoff, EntryCosts(f.col2));
    LayerMade(g, config, InnerFrame(f));
    HistoryWellFormed(g, u, c, f.n, start);
    NextFront(g, u, c, f);
    FrontCosts(NextCreated(c, f), f.col2.heap, f.n + 1, f.col2.toks);
    SameCosts(f.col2);
    FrontCosts(c, f.prev.heap, f.n, f.prev.toks);
    CostsOnFrameAgree(c, f.n, layers[f.n].costs, CostsAmong(f.prev.toks, f.prev.heap));
    hide FrameDone;
    forall k: nat | k <= f.n
      ensures CostsOnFrame(NextCreated(c, f), k, layers[k].costs)
    {
      CostsOnFrameKept(g, u, c, f, start, k, layers[k].costs);
    }
  }

  lemma SameCosts(col: Column)
    ensures EntryCosts(col) == CostsAmong(col.toks, col.heap)
  {
  }

  lemma StartCosts(g: Graph, start: Addr)
    ensures EntryCosts(StartColumn(g, start)) == map[StartPair(g) := 0] && EntryCosts(StartColumn(g, start)) != map[]
  {
    assert StartPair(g) in EntryCosts(StartColumn(g, start));
  }

  lemma FirstSearched(g: Graph, u: Utterance, config: Config, potential: map<PairId, int>, f: Frame, start: Addr)
    requires FirstDone(g, potential, start, f) && EpsilonCutoffIs(config, EntryCosts(f.entry), f.cutoff)
    ensures Searched(g, u, config, FirstCreated(f), 0, [Layer(EntryCosts(f.entry), f.cutoff, EntryCosts(f.col))], [])
  {
    FirstCells(g, potential, start, f);
    hide Grows, ColumnOk, Closed, Feasible, EpsilonCutoffIs, FirstCreated, AsCreated, Front, Graph.Valid, EntryCosts,
      StartColumn, Searched;
    OneLayer(g, u, config, FirstCreated(f), f, start);
  }

  lemma OneLayer(g: Graph, u: Utterance, config: Config, c: Created, f: Frame, start: Addr)
    requires f.entry == StartColumn(g, start) && Closed(g, f) && Front(c, f.col.heap, 0, f.col.toks)
    requires EpsilonCutoffIs(config, EntryCosts(f.entry), f.cutoff)
    ensures Searched(g, u, config, c, 0, [Layer(EntryCosts(f.entry), f.cutoff, EntryCosts(f.col))], [])
  {
    hide Closed, LayerOk, CostsOnFrame, EpsilonCutoffIs, Front, StartColumn;
    StartCosts(g, start);
    LayerMade(g, config, f);
    FrontCosts(c, f.col.heap, 0, f.col.toks);
    SameCosts(f.col);
  }

  // ----- what it means for decoding -----

  /** Viterbi: with all paths followed, a token is there for every pair that a path of n
      emitting arcs reaches, and it costs as little as the best of them; and no token is
      there without such a path. */
  lemma ViterbiExact(g: Graph, u: Utterance, c: Created, h: Heap, n: nat, start: Addr, toks: map<PairId, Addr>,
                     p: PairId)
    requires History(g, u, c, n, start) && AllFollowed(g, u, c, start, n) && Front(c, h, n, toks)
    ensures p in toks <==> exists path, cost :: Walk(g, u, path) == Some(Place(p, n, cost))
    ensures p in toks ==> toks[p] in h && (exists path :: Walk(g, u, path) == Some(Place(p, n, h[toks[p]].totCost)))
    ensures p in toks ==> forall path, cost :: Walk(g, u, path) == Some(Place(p, n, cost)) ==> h[toks[p]].totCost <= cost
  {
    hide Walk, Follows, LinksAreArcs, Tight;
    forall path, cost | Walk(g, u, path) == Some(Place(p, n, cost))
      ensures p in toks && h[toks[p]].totCost <= cost
    {
      var q :| Follows(g, u, c, start, path, q);
      FollowingPath(g, u, c, n, start, path, q);
      SlackTelescopes(c, start, q, LastToken(start, q));
    }
    if p in toks {
      assert Realized(g, u, c, toks[p]);
      var path :| Walk(g, u, path) == Some(Place(p, n, c[toks[p]].totCost));
      assert exists cost :: Walk(g, u, path) == Some(Place(p, n, cost));
    }
  }

  /** A path that the search cannot miss ends in a token that costs no more. */
  lemma BeamReaches(g: Graph, u: Utterance, c: Created, h: Heap, n: nat, start: Addr, toks: map<PairId, Addr>,
                    layers: seq<Layer>, crossings: seq<Crossing>, path: Path)
    requires History(g, u, c, n, start) && Front(c, h, n, toks) && BeamFollowed(g, u, c, start, n, layers, crossings)
    requires InBeam(g, u, layers, crossings, path) && Walk(g, u, path).value.frames == n
    ensures var at := Walk(g, u, path).value;
      at.pair in toks && toks[at.pair] in h && h[toks[at.pair]].totCost <= at.cost
  {
    hide Walk, Follows, History, InBeam;
    var q :| Follows(g, u, c, start, path, q);
    var z := FollowedCost(g, u, c, n, start, path, q);
  }

  /** All tokens and links of a path are still there. */
  ghost predicate Alive(h: Heap, a: Addr, p: seq<ForwardLink>)
    decreases |p|
  {
    a in h && (p == [] || (p[0] in h[a].links && Alive(h, p[0].nextTok, p[1..])))
  }

  /** Safety for whole paths: a path within the beam survives with every token and link. */
  lemma {:induction false} PathSurvives(c: Created, h: Heap, term: Terminal, beam: nat, a: Addr, p: seq<ForwardLink>,
                                        z: Addr)
    requires Consistent(c, h, term, beam) && WithinBeam(c, term, beam, a, p, z)
    ensures Alive(h, a, p)
    decreases |p|
  {
    hide Agree, Live, Bounded, Spent, TerminalOk, TerminalBound;
    assert Intact(h, a, p, Excess(c, term, a, p, z));
    if p != [] {
      assert LinkOk(c, a, p[0]);
      assert WithinBeam(c, term, beam, p[0].nextTok, p[1..], z);
      PathSurvives(c, h, term, beam, p[0].nextTok, p[1..], z);
    }
  }

  // ----- cycles -----

  /** Where a walk along epsilon arcs from p ends, and its cost. */
  ghost function EpsilonWalk(g: Graph, p: PairId, arcs: seq<nat>): Option<(PairId, int)>
    decreases |arcs|
  {
    if arcs == [] then Some((p, 0))
    else if !EpsilonArc(g, p, arcs[0]) then None
    else
      match EpsilonWalk(g, PairArcAt(g, p, arcs[0]).next, arcs[1..])
      case None => None
      case Some((q, cost)) => Some((q, cost + PairArcAt(g, p, arcs[0]).weight.value))
  }

  /** The composition has no epsilon cycle of cost zero. */
  ghost predicate NoFreeLoop(g: Graph) {
    forall p: PairId, arcs :: arcs != [] ==> EpsilonWalk(g, p, arcs) != Some((p, 0))
  }

  lemma {:induction false} PathIsWalk(g: Graph, u: Utterance, c: Created, a: Addr, p: seq<ForwardLink>, z: Addr)
    requires WellFormed(c) && LinksAreArcs(g, u, c) && IsPath(c, a, p, z) && z in c && c[a].frame == c[z].frame
    ensures exists arcs :: |arcs| == |p| && EpsilonWalk(g, c[a].pair, arcs) == Some((c[z].pair, PathCost(p)))
    decreases |p|
  {
    if p == [] {
      assert EpsilonWalk(g, c[a].pair, []) == Some((c[z].pair, PathCost(p)));
    } else {
      hide PairArcAt;
      assert LinkOk(c, a, p[0]);
      var i: nat :| MatchesArc(g, u, c, a, i, p[0]);
      FramesRise(c, p[0].nextTok, p[1..], z);
      PathIsWalk(g, u, c, p[0].nextTok, p[1..], z);
      var rest :| |rest| == |p| - 1 && EpsilonWalk(g, c[p[0].nextTok].pair, rest) == Some((c[z].pair, PathCost(p[1..])));
      assert ([i] + rest)[1..] == rest;
      assert EpsilonWalk(g, c[a].pair, [i] + rest) == Some((c[z].pair, PathCost(p)));
    }
  }

  /** A graph without free loops makes lattices without free cycles. */
  lemma NoFreeCycles(g: Graph, u: Utterance, c: Created)
    requires WellFormed(c) && LinksAreArcs(g, u, c) && NoFreeLoop(g)
    ensures NoFreeCycle(c)
  {
    forall a, p | p != [] && IsPath(c, a, p, a)
      ensures PathSlack(c, a, p, a) > 0
    {
      PathIsWalk(g, u, c, a, p, a);
      SlackTelescopes(c, a, p, a);
    }
  }
}
