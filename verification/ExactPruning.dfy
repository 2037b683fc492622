/** What the surviving lattice is, once every live token satisfies the fixpoint equation. */
module ExactPruning {
  import opened Costs
  import opened Lattice
  import opened LatticePruning
  import opened PruningPasses

  /** Every way round a cycle costs something: in a cycle the slacks add up to its cost. */
  ghost predicate NoFreeCycle(c: Created)
    requires WellFormed(c)
  {
    forall a, p :: p != [] && IsPath(c, a, p, a) ==> PathSlack(c, a, p, a) > 0
  }

  /** All live tokens are settled and none is spent. */
  ghost predicate Finished(h: Heap, term: Terminal, beam: nat)
    requires Live(h)
  {
    forall a :: a in h ==> h[a].extraCost.Fin? && Settled(h, a, beam, Init(term, a))
  }

  ghost predicate WithinBeam(c: Created, term: Terminal, beam: nat, a: Addr, p: seq<ForwardLink>, z: Addr)
    requires WellFormed(c)
  {
    IsPath(c, a, p, z) && z in term && Excess(c, term, a, p, z).Le(Fin(beam))
  }

  /** A trail of best links from v to a, along which extraCost falls by exactly the slack. */
  ghost predicate Trail(c: Created, h: Heap, v: Addr, a: Addr, q: seq<ForwardLink>)
    requires WellFormed(c)
  {
    && v in h && a in h && h[v].extraCost.Fin? && h[a].extraCost.Fin?
    && q != [] && IsPath(c, v, q, a)
    && h[v].extraCost.value == PathSlack(c, v, q, a) + h[a].extraCost.value
  }

  lemma OneLinkPath(c: Created, a: Addr, l: ForwardLink)
    requires WellFormed(c) && a in c && l in c[a].links
    ensures LinkOk(c, a, l) && IsPath(c, a, [l], l.nextTok) && PathSlack(c, a, [l], l.nextTok) == Slack(c, a, l)
  {
    assert LinkOk(c, a, l);
    assert [l][1..] == [];
    assert IsPath(c, l.nextTok, [], l.nextTok);
  }

  lemma TrailGrows(c: Created, h: Heap, a: Addr, l: ForwardLink, trail: set<Addr>)
    requires WellFormed(c) && Agree(c, h) && Live(h)
    requires a in h && l in h[a].links && h[a].extraCost.Fin? && h[a].extraCost == LinkExtra(h, a, l)
    requires forall v :: v in trail ==> exists q :: Trail(c, h, v, a, q)
    ensures l.nextTok in c
    ensures forall v :: v in trail + {a} ==> exists q :: Trail(c, h, v, l.nextTok, q)
  {
    SlackInHeap(c, h, a, l);
    OneLinkPath(c, a, l);
    assert Trail(c, h, a, l.nextTok, [l]);
    forall v | v in trail
      ensures exists q :: Trail(c, h, v, l.nextTok, q)
    {
      var q :| Trail(c, h, v, a, q);
      Concatenate(c, v, q, a, [l], l.nextTok);
      assert Trail(c, h, v, l.nextTok, q + [l]);
    }
  }

  /** A path prolonged at its front by a best link still realizes extraCost. */
  lemma Prolong(c: Created, h: Heap, term: Terminal, a: Addr, l: ForwardLink, p: seq<ForwardLink>, z: Addr)
    requires WellFormed(c) && Agree(c, h) && Live(h) && a in h && l in h[a].links
    requires IsPath(c, l.nextTok, p, z) && z in term
    ensures IsPath(c, a, [l] + p, z)
    ensures h[l.nextTok].extraCost == Excess(c, term, l.nextTok, p, z) ==>
              LinkExtra(h, a, l) == Excess(c, term, a, [l] + p, z)
  {
    SlackInHeap(c, h, a, l);
    assert ([l] + p)[1..] == p;
  }

  lemma NoReturn(c: Created, h: Heap, a: Addr, trail: set<Addr>)
    requires WellFormed(c) && NoFreeCycle(c)
    requires forall v :: v in trail ==> exists q :: Trail(c, h, v, a, q)
    ensures a !in trail
  {
  }

  /** A finished token is terminal at its own excess, or has a best link. */
  lemma BestLink(h: Heap, term: Terminal, beam: nat, a: Addr) returns (done: bool, l: ForwardLink)
    requires Live(h) && Finished(h, term, beam) && a in h
    ensures h[a].extraCost.Fin?
    ensures done ==> a in term && h[a].extraCost == term[a]
    ensures !done ==> l in h[a].links && l.nextTok in h && h[a].extraCost == LinkExtra(h, a, l)
  {
    assert Settled(h, a, beam, Init(term, a));
    done := h[a].extraCost == Init(term, a);
    l := ForwardLink(0, 0, 0, 0, 0);
    if !done {
      l :| l in h[a].links && h[a].extraCost == LinkExtra(h, a, l);
    }
  }

  lemma TerminalRealized(c: Created, term: Terminal, a: Addr)
    requires WellFormed(c) && a in c && a in term
    ensures IsPath(c, a, [], a) && Excess(c, term, a, [], a) == term[a]
  {
  }

  /** Following best links must end at a terminal token, so extraCost is the excess of a path. */
  lemma {:induction false} Realize(c: Created, h: Heap, term: Terminal, beam: nat, a: Addr, trail: set<Addr>)
    returns (p: seq<ForwardLink>, z: Addr)
    requires WellFormed(c) && Agree(c, h) && Live(h)
    requires Finished(h, term, beam) && NoFreeCycle(c)
    requires a in h && a in c && trail <= h.Keys
    requires forall v :: v in trail ==> exists q :: Trail(c, h, v, a, q)
    ensures IsPath(c, a, p, z) && z in term && h[a].extraCost == Excess(c, term, a, p, z)
    decreases h.Keys - trail
  {
    hide *;
    NoReturn(c, h, a, trail);
    var done, l := BestLink(h, term, beam, a);
    if done {
      p, z := [], a;
      TerminalRealized(c, term, a);
    } else {
      TrailGrows(c, h, a, l, trail);
      assert a in h.Keys - trail;
      p, z := Realize(c, h, term, beam, l.nextTok, trail + {a});
      Prolong(c, h, term, a, l, p, z);
      p := [l] + p;
    }
  }

  /** A token survives exactly if some path through it to a terminal token is within the beam,
      and then extraCost is the excess of the best such path. */
  lemma TokenSurvivesIff(c: Created, h: Heap, term: Terminal, beam: nat, a: Addr)
    requires Consistent(c, h, term, beam) && Finished(h, term, beam) && NoFreeCycle(c) && a in c
    ensures a in h <==> exists p, z :: WithinBeam(c, term, beam, a, p, z)
    ensures a in h ==> exists p, z :: WithinBeam(c, term, beam, a, p, z) && h[a].extraCost == Excess(c, term, a, p, z)
    ensures forall p, z :: WithinBeam(c, term, beam, a, p, z) ==> a in h && h[a].extraCost.Le(Excess(c, term, a, p, z))
  {
    if a in h {
      var p, z := Realize(c, h, term, beam, a, {});
      assert WithinBeam(c, term, beam, a, p, z);
    }
    forall p, z | WithinBeam(c, term, beam, a, p, z)
      ensures Intact(h, a, p, Excess(c, term, a, p, z))
    {
    }
  }

  /** A link survives exactly if some path that begins with it is within the beam. */
  lemma LinkSurvivesIff(c: Created, h: Heap, term: Terminal, beam: nat, a: Addr, l: ForwardLink)
    requires Consistent(c, h, term, beam) && Finished(h, term, beam) && NoFreeCycle(c)
    ensures a in h && l in h[a].links <==>
            exists p, z :: WithinBeam(c, term, beam, a, [l] + p, z)
  {
    if a in h && l in h[a].links {
      var p, z := Realize(c, h, term, beam, l.nextTok, {});
      Prolong(c, h, term, a, l, p, z);
      assert Settled(h, a, beam, Init(term, a));
      assert WithinBeam(c, term, beam, a, [l] + p, z);
    }
    if p, z :| WithinBeam(c, term, beam, a, [l] + p, z) {
      assert Intact(h, a, [l] + p, Excess(c, term, a, [l] + p, z));
    }
  }

  // ----- in terms of path costs from the start -----

  /** Every created token is reached from the start by a path without slack. */
  ghost predicate Tight(c: Created, start: Addr)
    requires WellFormed(c)
  {
    forall a :: a in c ==> exists p :: ZeroPath(c, start, p, a)
  }

  ghost predicate ZeroPath(c: Created, start: Addr, p: seq<ForwardLink>, a: Addr)
    requires WellFormed(c)
  {
    IsPath(c, start, p, a) && PathSlack(c, start, p, a) == 0
  }

  /** The terminal costs that final pruning works with: final cost included, best path at zero. */
  ghost function TerminalOf(c: Created, finals: map<Addr, Cost>, best: int): Terminal
    requires finals.Keys <= c.Keys
  {
    map z | z in finals :: finals[z].Plus(c[z].totCost - best)
  }

  /** A complete path: graph, acoustic and final cost together. */
  ghost function CompleteCost(p: seq<ForwardLink>, final: Cost): Cost {
    final.Plus(PathCost(p))
  }

  lemma ExcessIsCost(c: Created, finals: map<Addr, Cost>, best: int, start: Addr, p: seq<ForwardLink>, z: Addr)
    requires WellFormed(c) && finals.Keys <= c.Keys && z in finals && IsPath(c, start, p, z)
    requires c[start].totCost == 0
    ensures Excess(c, TerminalOf(c, finals, best), start, p, z).Plus(best) == CompleteCost(p, finals[z])
  {
    SlackTelescopes(c, start, p, z);
  }

  /** A complete path of cost at most best + beam from the start through token a. */
  ghost predicate GoodPathThrough(c: Created, finals: map<Addr, Cost>, best: int, beam: nat, start: Addr,
                                  a: Addr, p: seq<ForwardLink>, q: seq<ForwardLink>, z: Addr)
  {
    && IsPath(c, start, p, a) && IsPath(c, a, q, z) && z in finals
    && CompleteCost(p + q, finals[z]).Le(Fin(best + beam))
  }

  lemma GoodPathIsWithinBeam(c: Created, finals: map<Addr, Cost>, best: int, beam: nat, start: Addr,
                             a: Addr, p: seq<ForwardLink>, q: seq<ForwardLink>, z: Addr)
    requires WellFormed(c) && finals.Keys <= c.Keys && start in c && c[start].totCost == 0
    requires GoodPathThrough(c, finals, best, beam, start, a, p, q, z)
    ensures WithinBeam(c, TerminalOf(c, finals, best), beam, a, q, z)
    ensures WithinBeam(c, TerminalOf(c, finals, best), beam, start, p + q, z)
  {
    Concatenate(c, start, p, a, q, z);
    ExcessIsCost(c, finals, best, start, p + q, z);
  }

  lemma WithinBeamIsGoodPath(c: Created, finals: map<Addr, Cost>, best: int, beam: nat, start: Addr,
                             a: Addr, q: seq<ForwardLink>, z: Addr) returns (p: seq<ForwardLink>)
    requires WellFormed(c) && finals.Keys <= c.Keys && start in c && c[start].totCost == 0
    requires Tight(c, start) && a in c
    requires WithinBeam(c, TerminalOf(c, finals, best), beam, a, q, z)
    ensures GoodPathThrough(c, finals, best, beam, start, a, p, q, z)
  {
    p :| ZeroPath(c, start, p, a);
    Concatenate(c, start, p, a, q, z);
    ExcessIsCost(c, finals, best, start, p + q, z);
  }

  /** Final pruning is exact, in the terms of the whole utterance. */
  lemma FinalPruningExact(c: Created, h: Heap, finals: map<Addr, Cost>, best: int, beam: nat, start: Addr, a: Addr)
    requires finals.Keys <= c.Keys
    requires Consistent(c, h, TerminalOf(c, finals, best), beam)
    requires Finished(h, TerminalOf(c, finals, best), beam) && NoFreeCycle(c)
    requires start in c && c[start].totCost == 0 && Tight(c, start) && a in c
    ensures a in h <==> exists p, q, z :: GoodPathThrough(c, finals, best, beam, start, a, p, q, z)
    ensures forall l :: a in h && l in h[a].links <==>
              exists p, q, z :: GoodPathThrough(c, finals, best, beam, start, a, p, [l] + q, z)
  {
    var term := TerminalOf(c, finals, best);
    TokenSurvivesIff(c, h, term, beam, a);
    if a in h {
      var q, z :| WithinBeam(c, term, beam, a, q, z);
      var p := WithinBeamIsGoodPath(c, finals, best, beam, start, a, q, z);
    }
    if p, q, z :| GoodPathThrough(c, finals, best, beam, start, a, p, q, z) {
      GoodPathIsWithinBeam(c, finals, best, beam, start, a, p, q, z);
    }
    forall l
      ensures a in h && l in h[a].links <==>
              exists p, q, z :: GoodPathThrough(c, finals, best, beam, start, a, p, [l] + q, z)
    {
      FinalLinkExact(c, h, finals, best, beam, start, a, l);
    }
  }

  lemma FinalLinkExact(c: Created, h: Heap, finals: map<Addr, Cost>, best: int, beam: nat, start: Addr,
                       a: Addr, l: ForwardLink)
    requires finals.Keys <= c.Keys
    requires Consistent(c, h, TerminalOf(c, finals, best), beam)
    requires Finished(h, TerminalOf(c, finals, best), beam) && NoFreeCycle(c)
    requires start in c && c[start].totCost == 0 && Tight(c, start) && a in c
    ensures a in h && l in h[a].links <==>
            exists p, q, z :: GoodPathThrough(c, finals, best, beam, start, a, p, [l] + q, z)
  {
    var term := TerminalOf(c, finals, best);
    LinkSurvivesIff(c, h, term, beam, a, l);
    if a in h && l in h[a].links {
      var q, z :| WithinBeam(c, term, beam, a, [l] + q, z);
      var p := WithinBeamIsGoodPath(c, finals, best, beam, start, a, [l] + q, z);
    }
    if p, q, z :| GoodPathThrough(c, finals, best, beam, start, a, p, [l] + q, z) {
      GoodPathIsWithinBeam(c, finals, best, beam, start, a, p, [l] + q, z);
    }
  }
}
