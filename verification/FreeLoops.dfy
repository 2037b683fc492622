/** Why epsilon cycles of cost zero are forbidden: a graph with one, and what pruning makes of it. */
module FreeLoops {
  import opened Basics
  import opened Composition
  import opened Costs
  import opened Lattice
  import opened LatticePruning
  import opened ExactPruning
  import opened FrameColumn
  import opened FrameHistory
  import opened FinalPruning
  import opened Coverage

  function FreeArc(ilabel: int, next: StateId): Arc {
    Arc(ilabel, 0, Fin(0), next)
  }

  /** State 0 starts, an emitting arc leads to state 1, which is final, and an epsilon arc from there into a loop of
      states 2 and 3 that leads nowhere.  Everything is free, and the language model has a single state. */
  function LoopGraph(): Graph {
    Graph(0, map[0 := [FreeArc(1, 1)], 1 := [FreeArc(0, 2)], 2 := [FreeArc(0, 3)], 3 := [FreeArc(0, 2)]],
          map[0 := Inf, 1 := Fin(0), 2 := Inf, 3 := Inf], 0, map[], map[0 := Fin(0)])
  }

  function OneFrame(): Utterance {
    Utterance(1, (_, _) => Fin(0))
  }

  function FreeLink(ilabel: int, a: Addr): ForwardLink {
    ForwardLink(a, ilabel, 0, 0, 0)
  }

  /** What the search creates: a token for each state, under the state's own number. */
  ghost function LoopCreated(): Created {
    map[0 := Node(0, 0, 0, [FreeLink(1, 1)]), 1 := Node(1, 1, 0, [FreeLink(0, 2)]),
        2 := Node(1, 2, 0, [FreeLink(0, 3)]), 3 := Node(1, 3, 0, [FreeLink(0, 2)])]
  }

  ghost function LoopHeap(): Heap {
    map[0 := Token(0, Fin(0), [FreeLink(1, 1)]), 1 := Token(0, Fin(0), [FreeLink(0, 2)]),
        2 := Token(0, Fin(0), [FreeLink(0, 3)]), 3 := Token(0, Fin(0), [FreeLink(0, 2)])]
  }

  ghost function LoopTerminal(): Terminal {
    map[1 := Fin(0), 2 := Inf, 3 := Inf]
  }

  // ----- the graph and its lattice -----

  lemma LoopPair(s: StateId)
    requires s < 4
    ensures IsPair(LoopGraph(), s) && ArcCount(LoopGraph(), s) == 1
    ensures PairToState(s) == s && PairToLmState(s) == 0 && ConstructPair(s, 0) == s
    ensures PairArcAt(LoopGraph(), s, 0) == if s == 0 then PairArc(1, 0, Fin(0), 1) else PairArc(0, 0, Fin(0), if s == 2 then 3 else 2)
    ensures PairFinal(LoopGraph(), s) == if s == 1 then Fin(0) else Inf
  {
  }

  lemma LoopStarts()
    ensures StartPair(LoopGraph()) == 0
  {
    LoopPair(0);
  }

  lemma LoopStep(s: StateId, at: Place)
    requires s < 3 && at == Place(s, if s == 0 then 0 else 1, 0)
    ensures TakeArc(LoopGraph(), OneFrame(), at, 0) == Some(Place(s + 1, 1, 0))
  {
    LoopPair(s);
    hide IsPair, ArcCount, PairArcAt, PairToState, PairToLmState, ConstructPair;
  }

  lemma LoopWalk(s: StateId) returns (path: Path)
    requires s < 4
    ensures Walk(LoopGraph(), OneFrame(), path) == Some(Place(s, if s == 0 then 0 else 1, 0))
  {
    hide TakeArc, LoopGraph, OneFrame, StartPair;
    LoopStarts();
    if s == 0 {
      path := From(0);
    } else {
      var prefix := LoopWalk(s - 1);
      LoopStep(s - 1, Walk(LoopGraph(), OneFrame(), prefix).value);
      path := Snoc(prefix, 0);
    }
  }

  lemma LoopWellFormed()
    ensures WellFormed(LoopCreated())
    ensures forall a, b :: a in LoopCreated() && b in LoopCreated() && FreeLink(LoopLabel(a), b) in LoopCreated()[a].links ==>
      IsPath(LoopCreated(), a, [FreeLink(LoopLabel(a), b)], b) && PathSlack(LoopCreated(), a, [FreeLink(LoopLabel(a), b)], b) == 0
  {
    var c := LoopCreated();
    assert WellFormed(c);
    forall a, b | a in c && b in c && FreeLink(LoopLabel(a), b) in c[a].links
      ensures IsPath(c, a, [FreeLink(LoopLabel(a), b)], b) && PathSlack(c, a, [FreeLink(LoopLabel(a), b)], b) == 0
    {
      OneLinkPath(c, a, FreeLink(LoopLabel(a), b));
    }
  }

  function LoopLabel(a: Addr): int {
    if a == 0 then 1 else 0
  }

  lemma LoopTight(a: Addr) returns (p: seq<ForwardLink>)
    requires WellFormed(LoopCreated()) && a < 4
    ensures ZeroPath(LoopCreated(), 0, p, a)
  {
    LoopWellFormed();
    var c := LoopCreated();
    if a == 0 {
      p := [];
    } else {
      var front := LoopTight(a - 1);
      var l := FreeLink(LoopLabel(a - 1), a);
      assert l in c[a - 1].links;
      hide WellFormed;
      Concatenate(c, 0, front, a - 1, [l], a);
      p := front + [l];
    }
  }

  lemma LoopArcs()
    ensures LinksAreArcs(LoopGraph(), OneFrame(), LoopCreated())
  {
    var c := LoopCreated();
    forall a, l | a in c && l in c[a].links
      ensures exists i: nat :: MatchesArc(LoopGraph(), OneFrame(), c, a, i, l)
    {
      LoopPair(a);
      assert MatchesArc(LoopGraph(), OneFrame(), c, a, 0, l);
    }
  }

  /** Where the only arc of a state leads. */
  function LoopNext(a: nat): nat {
    if a == 0 then 1 else if a == 2 then 3 else 2
  }

  lemma LoopTokens(a: Addr)
    ensures a in LoopCreated() <==> a < 4
    ensures a in LoopHeap() <==> a < 4
    ensures a < 4 ==> LoopCreated()[a] == Node(if a == 0 then 0 else 1, a, 0, [FreeLink(LoopLabel(a), LoopNext(a))])
    ensures a < 4 ==> LoopHeap()[a] == Token(0, Fin(0), [FreeLink(LoopLabel(a), LoopNext(a))])
  {
  }

  lemma LoopValid()
    ensures LoopGraph().Valid()
  {
  }

  lemma LoopHistory()
    ensures History(LoopGraph(), OneFrame(), LoopCreated(), 1, 0)
  {
    var g, u, c := LoopGraph(), OneFrame(), LoopCreated();
    LoopWellFormed();
    LoopArcs();
    hide WellFormed, LinksAreArcs, IsPair, Walk, ZeroPath, LoopGraph, LoopCreated, LoopHeap, OneFrame;
    forall a | a in c
      ensures IsPair(g, c[a].pair) && Realized(g, u, c, a) && c[a].frame <= 1 && exists p :: ZeroPath(c, 0, p, a)
    {
      LoopTokens(a);
      LoopPair(a);
      var path := LoopWalk(a);
      var p := LoopTight(a);
    }
    LoopTokens(0);
    assert StartPair(g) == 0 by { LoopStart(); }
  }

  lemma LoopStart()
    ensures StartPair(LoopGraph()) == 0
  {
  }

  // ----- what final pruning makes of it -----

  lemma LoopFinals()
    requires LoopGraph().Valid()
    ensures FinalsDecided(LoopGraph(), LoopCreated(), 1, 0, true)
    ensures FinalTerminal(LoopGraph(), LoopCreated(), 1, 0) == LoopTerminal()
  {
    var g, c := LoopGraph(), LoopCreated();
    hide IsPair, PairFinal, LoopGraph, LoopCreated, LoopHeap;
    forall a | a in c
      ensures a < 4 && c[a].frame == (if a == 0 then 0 else 1) && c[a].pair == a && c[a].totCost == 0
      ensures IsPair(g, c[a].pair) && PairFinal(g, c[a].pair) == if a == 1 then Fin(0) else Inf
    {
      LoopTokens(a);
      LoopPair(a);
    }
    LoopTokens(1);
    LoopTokens(2);
    LoopTokens(3);
    assert FinalReached(g, c, 1);
    var finals := FinalsOf(g, c, 1);
    assert 1 in finals && 2 in finals && 3 in finals;
    assert finals[1].Plus(c[1].totCost) == Fin(0);
    assert FinalTerminal(g, c, 1, 0) == LoopTerminal();
  }

  /** Every visit to every token leaves everything as it is. */
  lemma LoopPruned(beam: nat, a: Addr)
    requires a in LoopHeap()
    ensures Live(LoopHeap()) && PruneToken(LoopHeap(), a, beam, Init(LoopTerminal(), a)) == LoopHeap()
  {
    var h := LoopHeap();
    assert Live(h);
    LoopTokens(a);
    var l := FreeLink(LoopLabel(a), LoopNext(a));
    LoopTokens(l.nextTok);
    hide Live, LoopHeap, LoopCreated;
    OneFreeLink(h, a, l, beam, Init(LoopTerminal(), a));
    assert PrunedToken(h, a, beam, Init(LoopTerminal(), a)) == h[a];
    assert h[a := h[a]] == h;
  }

  lemma OneFreeLink(h: Heap, a: Addr, l: ForwardLink, beam: nat, init: Cost)
    requires a in h && l.nextTok in h && LinkExtra(h, a, l) == Fin(0) && Fin(0).Le(init)
    ensures KeptLinks(h, a, [l], beam) == [l] && MinExtra(h, a, [l], beam, init) == Fin(0)
  {
    assert [l][..0] == [];
    assert KeptLinks(h, a, [], beam) == [] && MinExtra(h, a, [], beam, init) == init;
  }

  lemma {:induction false} LoopIsClosed(a: Addr, p: seq<ForwardLink>, z: Addr)
    requires IsPath(LoopCreated(), a, p, z) && (a == 2 || a == 3)
    ensures z == 2 || z == 3
    decreases |p|
  {
    if p != [] {
      LoopIsClosed(p[0].nextTok, p[1..], z);
    }
  }

  /** Without the ban exactness fails.  The graph's lattice goes into final pruning as it was created, and every visit to
      every token leaves it so: the tokens of the loop keep each other alive at no excess, although no path through them
      ends at a final token. */
  lemma FreeLoopSurvives(beam: nat)
    ensures LoopGraph().Valid() && !NoFreeLoop(LoopGraph())
    ensures History(LoopGraph(), OneFrame(), LoopCreated(), 1, 0) && FinalsDecided(LoopGraph(), LoopCreated(), 1, 0, true)
    ensures LoopHeap().Keys == LoopCreated().Keys && forall a :: a in LoopCreated() ==> AsCreated(LoopCreated(), LoopHeap(), a)
    ensures var term := FinalTerminal(LoopGraph(), LoopCreated(), 1, 0);
      Live(LoopHeap()) && forall a :: a in LoopHeap() ==> PruneToken(LoopHeap(), a, beam, Init(term, a)) == LoopHeap()
    ensures 2 in LoopHeap() && forall p, z :: !WithinBeam(LoopCreated(), FinalTerminal(LoopGraph(), LoopCreated(), 1, 0), beam, 2, p, z)
  {
    LoopValid();
    LoopWellFormed();
    LoopHistory();
    LoopFinals();
    LoopTurns();
    LoopAsCreated();
    hide *;
    assert 2 in LoopHeap() by { LoopTokens(2); }
    assert Live(LoopHeap()) by { LoopPruned(beam, 2); }
    forall a | a in LoopHeap()
      ensures Live(LoopHeap()) && PruneToken(LoopHeap(), a, beam, Init(LoopTerminal(), a)) == LoopHeap()
    {
      LoopPruned(beam, a);
    }
    forall p, z
      ensures !WithinBeam(LoopCreated(), LoopTerminal(), beam, 2, p, z)
    {
      LoopLeadsNowhere(beam, p, z);
    }
  }

  lemma LoopLeadsNowhere(beam: nat, p: seq<ForwardLink>, z: Addr)
    requires WellFormed(LoopCreated())
    ensures !WithinBeam(LoopCreated(), LoopTerminal(), beam, 2, p, z)
  {
    hide WellFormed, IsPath, LoopCreated;
    if WithinBeam(LoopCreated(), LoopTerminal(), beam, 2, p, z) {
      LoopIsClosed(2, p, z);
    }
  }

  lemma LoopAsCreated()
    ensures LoopHeap().Keys == LoopCreated().Keys && forall a :: a in LoopCreated() ==> AsCreated(LoopCreated(), LoopHeap(), a)
  {
  }

  lemma LoopTurns()
    ensures !NoFreeLoop(LoopGraph())
  {
    LoopPair(2);
    LoopPair(3);
    assert [0, 0][1..] == [0] && [0][1..] == [];
    hide PairArcAt, IsPair;
    assert EpsilonWalk(LoopGraph(), 2, [0, 0]) == Some((2, 0));
  }
}
