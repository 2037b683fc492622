/** What decoding achieves, in terms of the paths of the composition alone. */
module WholeUtterance {
  import opened Basics
  import opened Composition
  import opened Costs
  import opened Lattice
  import opened LatticePruning
  import opened ExactPruning
  import opened Emission
  import opened FrameColumn
  import opened FrameHistory
  import opened FinalPruning
  import opened Coverage
  import opened ComposedPaths

  /** What a path through the whole utterance costs in all, final costs included if they count. */
  ghost predicate Completes(g: Graph, u: Utterance, n: nat, active: bool, path: Path, total: Cost)
    requires g.Valid()
  {
    && Walk(g, u, path).Some? && Walk(g, u, path).value.frames == n && IsPair(g, Walk(g, u, path).value.pair)
    && total == (if active then PairFinal(g, Walk(g, u, path).value.pair) else Fin(0)).Plus(Walk(g, u, path).value.cost)
  }

  /** If no token of frame n has an emitting arc of finite cost, no path goes beyond frame n. */
  lemma {:induction false} NoPathBeyond(g: Graph, u: Utterance, c: Created, h: Heap, n: nat, start: Addr,
                                        toks: map<PairId, Addr>, path: Path)
    requires History(g, u, c, n, start) && AllFollowed(g, u, c, start, n) && Front(c, h, n, toks)
    requires forall p, i: nat :: !Candidate(g, u, n, Previous(toks, h, Inf), p, i)
    requires Walk(g, u, path).Some?
    ensures Walk(g, u, path).value.frames <= n
  {
    hide History, AllFollowed, Front, PairArcAt;
    match path
    case From(_) =>
    case Snoc(prefix, i) =>
      NoPathBeyond(g, u, c, h, n, start, toks, prefix);
      var at := Walk(g, u, prefix).value;
      if at.frames == n {
        ViterbiExact(g, u, c, h, n, start, toks, at.pair);
        assert Walk(g, u, prefix) == Some(Place(at.pair, n, at.cost));
        assert !Candidate(g, u, n, Previous(toks, h, Inf), at.pair, i);
      }
  }

  /** A path of the composition that has been followed leads to a token of the last frame that costs no more. */
  lemma PathEnds(g: Graph, u: Utterance, c: Created, n: nat, start: Addr, path: Path) returns (q: seq<ForwardLink>,
                 z: Addr)
    requires History(g, u, c, n, start) && exists q :: Follows(g, u, c, start, path, q)
    requires Walk(g, u, path).Some? && Walk(g, u, path).value.frames == n
    ensures Follows(g, u, c, start, path, q) && z in c && IsPath(c, start, q, z)
    ensures Walk(g, u, path) == Some(Place(c[z].pair, c[z].frame, PathCost(q)))
    ensures c[z].totCost <= PathCost(q) && IsPair(g, c[z].pair)
  {
    hide Walk, Tight, LinksAreArcs, Follows;
    q :| Follows(g, u, c, start, path, q);
    z := LastToken(start, q);
    FollowingPath(g, u, c, n, start, path, q);
    SlackTelescopes(c, start, q, z);
  }

  lemma OneFollowed(g: Graph, u: Utterance, c: Created, n: nat, start: Addr, path: Path)
    requires AllFollowed(g, u, c, start, n) && Walk(g, u, path).Some? && Walk(g, u, path).value.frames <= n
    ensures exists q :: Follows(g, u, c, start, path, q)
  {
    hide Walk, Follows;
  }

  /** Every token of the last frame stands for a path of the composition. */
  lemma TokenCompletes(g: Graph, u: Utterance, c: Created, n: nat, start: Addr, active: bool,
                       z: Addr) returns (path: Path)
    requires g.Valid() && History(g, u, c, n, start) && z in c && c[z].frame == n
    ensures IsPair(g, c[z].pair)
    ensures Completes(g, u, n, active, path, (if active then PairFinal(g, c[z].pair) else Fin(0)).Plus(c[z].totCost))
  {
    hide Walk, Tight, LinksAreArcs, PairFinal, IsPair;
    assert Realized(g, u, c, z);
    path :| Walk(g, u, path) == Some(Place(c[z].pair, c[z].frame, c[z].totCost));
  }

  /** Without decoding beams, the best complete cost is that of the best path of the composition, and
      final costs are used exactly if some path ends in a final pair of states. */
  lemma BestIsOptimal(g: Graph, u: Utterance, c: Created, n: nat, start: Addr, best: int, active: bool)
    requires History(g, u, c, n, start) && AllFollowed(g, u, c, start, n) && FinalsDecided(g, c, n, best, active)
    ensures exists path :: Completes(g, u, n, active, path, Fin(best))
    ensures forall path, total :: Completes(g, u, n, active, path, total) ==> Fin(best).Le(total)
    ensures active <==> exists path, total :: Completes(g, u, n, true, path, total) && total.Fin?
  {
    hide Walk, Tight, LinksAreArcs, PairFinal, IsPair, History, AllFollowed, WellFormed, PathCost, Follows;
    var finals := FinalsOf(g, c, n);
    var z :| z in finals && z in c && finals[z].Plus(c[z].totCost) == Fin(best);
    var path0 := TokenCompletes(g, u, c, n, start, active, z);
    forall path, total | Completes(g, u, n, active, path, total)
      ensures Fin(best).Le(total)
    {
      OneFollowed(g, u, c, n, start, path);
      var q, z := PathEnds(g, u, c, n, start, path);
      assert z in finals;
    }
    if active {
      var a :| a in c && c[a].frame == n && IsPair(g, c[a].pair) && PairFinal(g, c[a].pair).Fin?;
      var path := TokenCompletes(g, u, c, n, start, true, a);
    }
    if path, total :| Completes(g, u, n, true, path, total) && total.Fin? {
      OneFollowed(g, u, c, n, start, path);
      var q, a := PathEnds(g, u, c, n, start, path);
      assert PairFinal(g, c[a].pair).Fin?;
    }
  }

  /** Every complete path that has been followed and is within the lattice beam of the best one survives,
      with all its tokens and links. */
  lemma GoodPathKept(g: Graph, u: Utterance, c: Created, h: Heap, n: nat, start: Addr, best: int, active: bool,
                     beam: nat,
                     path: Path, total: Cost) returns (q: seq<ForwardLink>, z: Addr)
    requires History(g, u, c, n, start) && FinalsDecided(g, c, n, best, active) && exists q :: Follows(g, u, c, start, path, q)
    requires Consistent(c, h, FinalTerminal(g, c, n, best), beam)
    requires Completes(g, u, n, active, path, total) && total.Le(Fin(best + beam))
    ensures Follows(g, u, c, start, path, q) && Alive(h, start, q) && z == LastToken(start, q)
    ensures z in h && z in FinalCosts(h, FinalsOf(g, c, n))
  {
    hide Walk, Tight, LinksAreArcs, PairFinal, IsPair, WellFormed, Consistent, Follows, Alive, IsPath, PathCost;
    q, z := PathEnds(g, u, c, n, start, path);
    var finals := FinalsOf(g, c, n);
    assert z in finals && finals[z].Plus(PathCost(q)) == total;
    ExcessIsCost(c, finals, best, start, q, z);
    PathSurvives(c, h, FinalTerminal(g, c, n, best), beam, start, q, z);
    EndSurvives(c, h, FinalTerminal(g, c, n, best), beam, start, q, z);
    LastOfPath(c, start, q, z);
  }

  lemma EndSurvives(c: Created, h: Heap, term: Terminal, beam: nat, a: Addr, q: seq<ForwardLink>, z: Addr)
    requires Consistent(c, h, term, beam) && WithinBeam(c, term, beam, a, q, z)
    ensures z in h && h[z].extraCost.Fin?
  {
    hide Agree, Live, Bounded, Spent, TerminalBound;
    SlackTelescopes(c, a, q, z);
    TerminalRealized(c, term, z);
    assert Intact(h, z, [], Excess(c, term, z, [], z));
  }

  lemma {:induction false} LastOfPath(c: Created, a: Addr, q: seq<ForwardLink>, z: Addr)
    requires IsPath(c, a, q, z)
    ensures LastToken(a, q) == z
    decreases |q|
  {
    if q != [] {
      LastOfPath(c, q[0].nextTok, q[1..], z);
    }
  }

  /** Conversely, a path of created links follows a path of the composition. */
  lemma {:induction false} LinksFollow(g: Graph, u: Utterance, c: Created, n: nat, start: Addr, q: seq<ForwardLink>,
                                       z: Addr) returns (path: Path)
    requires History(g, u, c, n, start) && IsPath(c, start, q, z)
    ensures Follows(g, u, c, start, path, q) && z == LastToken(start, q) && z in c
    decreases |q|
  {
    hide Tight, Realized, MatchesArc, Follows, IsPath;
    LastOfPath(c, start, q, z);
    SlackTelescopes(c, start, q, z);
    if q == [] {
      path := From(StartPair(g));
      assert Follows(g, u, c, start, path, []) by { NothingFollows(g, u, c, start); }
    } else {
      var front, l := q[..|q| - 1], q[|q| - 1];
      var b := Split(c, start, q, z, |q| - 1);
      var prefix := LinksFollow(g, u, c, n, start, front, b);
      LastLink(c, b, q[|q| - 1..], z);
      var i: nat :| MatchesArc(g, u, c, b, i, l);
      FollowsSnoc(g, u, c, start, prefix, i, front, l);
      assert front + [l] == q;
      path := Snoc(prefix, i);
    }
  }

  lemma NothingFollows(g: Graph, u: Utterance, c: Created, start: Addr)
    ensures Follows(g, u, c, start, From(StartPair(g)), [])
  {
  }

  lemma LastLink(c: Created, b: Addr, q: seq<ForwardLink>, z: Addr)
    requires IsPath(c, b, q, z) && |q| == 1
    ensures b in c && q[0] in c[b].links
  {
  }

  /** What is alive was created. */
  lemma {:induction false} AliveIsPath(c: Created, h: Heap, a: Addr, p: seq<ForwardLink>)
    requires Agree(c, h) && Alive(h, a, p)
    ensures IsPath(c, a, p, LastToken(a, p)) && LastToken(a, p) in h
    decreases |p|
  {
    if p != [] {
      AliveIsPath(c, h, p[0].nextTok, p[1..]);
      assert LastToken(p[0].nextTok, p[1..]) == LastToken(a, p);
    }
  }

  /** A path of created links to a last token with a final cost on record is a complete path of the composition. */
  lemma LinksComplete(g: Graph, u: Utterance, c: Created, h: Heap, n: nat, start: Addr, best: int, active: bool,
                      q: seq<ForwardLink>, z: Addr) returns (path: Path)
    requires History(g, u, c, n, start) && FinalsDecided(g, c, n, best, active) && IsPath(c, start, q, z)
    requires z in FinalCosts(h, FinalsOf(g, c, n))
    ensures Follows(g, u, c, start, path, q)
    ensures Completes(g, u, n, active, path, Fin(PathCost(q) + FinalCosts(h, FinalsOf(g, c, n))[z]))
  {
    hide Walk, Tight, LinksAreArcs, PairFinal, IsPair, WellFormed, Follows, IsPath, PathCost, Realized;
    path := LinksFollow(g, u, c, n, start, q, z);
    FollowingPath(g, u, c, n, start, path, q);
  }

  // ----- in terms of the graph and the language model -----

  /** What a path through the whole utterance asks for, final costs of both sides included if they count. */
  ghost function FullCost(g: Graph, u: Utterance, active: bool, arcs: seq<Arc>, run: seq<Arc>): Cost
    requires StateAfter(g.start, arcs) in g.final && StateAfter(g.lmStart, run) in g.lmFinal
  {
    CostInAll(u, arcs, run).Add(
      if active then g.final[StateAfter(g.start, arcs)].Add(g.lmFinal[StateAfter(g.lmStart, run)]) else Fin(0))
  }

  /** A path through the whole utterance, in terms of its two sides. */
  ghost predicate CompleteSides(g: Graph, u: Utterance, n: nat, active: bool, path: Path, total: Cost, arcs: seq<Arc>,
                                run: seq<Arc>) {
    && TwoSides(g, path, arcs, run) && CostInAll(u, arcs, run).Fin? && Emissions(arcs) == n
    && StateAfter(g.start, arcs) in g.final && StateAfter(g.lmStart, run) in g.lmFinal && total == FullCost(g, u, active, arcs, run)
  }

  lemma CompletesIff(g: Graph, u: Utterance, n: nat, active: bool, path: Path, total: Cost)
    requires g.Valid()
    ensures Completes(g, u, n, active, path, total) <==> exists arcs, run :: CompleteSides(g, u, n, active, path, total, arcs, run)
  {
    hide Walk, TwoSides, PairFinal, IsPair, CostInAll;
    WalkIff(g, u, path);
    if Walk(g, u, path).Some? {
      var arcs, run := SidesOf(g, u, path);
      FinalIs(g, u, path, arcs, run);
      forall arcs', run' | CompleteSides(g, u, n, active, path, total, arcs', run')
        ensures arcs' == arcs && run' == run
      {
        SidesUnique(g, path, arcs, run, arcs', run');
      }
      if Completes(g, u, n, active, path, total) {
        assert CompleteSides(g, u, n, active, path, total, arcs, run);
      }
    }
  }

  ghost predicate SameArcs(q: seq<ForwardLink>, linear: seq<LinearArc>) {
    |q| == |linear| && forall k: nat :: k < |q| ==> linear[k] == LinearArc(q[k].ilabel, q[k].olabel, q[k].graphCost, q[k].acousticCost)
  }

  /** Links that follow a path have its labels and costs. */
  lemma {:induction false} FollowsArcs(g: Graph, u: Utterance, c: Created, n: nat, start: Addr, path: Path,
                                       q: seq<ForwardLink>)
    requires History(g, u, c, n, start) && Follows(g, u, c, start, path, q)
    ensures Walk(g, u, path).Some? && SameArcs(q, PathArcs(g, u, path))
  {
    hide History, TakeArc, PairArcAt;
    FollowingPath(g, u, c, n, start, path, q);
    match path
    case From(_) =>
    case Snoc(prefix, i) =>
      var front := q[..|q| - 1];
      FollowsArcs(g, u, c, n, start, prefix, front);
      FollowingPath(g, u, c, n, start, prefix, front);
  }
}
