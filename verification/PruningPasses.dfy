/** Passes over a frame's token list, and freeing what they have spent. */
module PruningPasses {
  import opened Basics
  import opened Costs
  import opened Lattice
  import opened LatticePruning

  /** Heap h comes from h0 by pruning only: costs stay, excesses rise, links go. */
  ghost predicate Raised(h0: Heap, h: Heap) {
    && h.Keys == h0.Keys
    && forall a :: a in h0 ==>
      && h[a].totCost == h0[a].totCost
      && h0[a].extraCost.Le(h[a].extraCost)
      && forall l :: l in h[a].links ==> l in h0[a].links
  }

  /** No link of token a leads to a token of infinite extraCost. */
  ghost predicate NoDead(h: Heap, a: Addr)
    requires Live(h) && a in h
  {
    forall l :: l in h[a].links ==> h[l.nextTok].extraCost.Fin?
  }

  /** The fixpoint equation at token a: every link is within the beam, and a finite
      extraCost is the excess of one of them or the token's own terminal cost. */
  ghost predicate Settled(h: Heap, a: Addr, beam: nat, init: Cost)
    requires Live(h) && a in h
  {
    && (forall l :: l in h[a].links ==> LinkExtra(h, a, l).Le(Fin(beam)))
    && (h[a].extraCost.Fin? ==>
          h[a].extraCost == init || exists l :: l in h[a].links && h[a].extraCost == LinkExtra(h, a, l))
  }

  /** How far off a link of a visited token may be: its end changes by at most delta, when its own turn comes. */
  function Leeway(l: ForwardLink, rest: seq<Addr>, delta: nat): nat {
    if l.nextTok in rest then 0 else delta
  }

  /** The fixpoint equation up to delta, with the tokens in rest still to be visited. */
  ghost predicate SettledNearly(h: Heap, a: Addr, beam: nat, init: Cost, delta: nat, rest: seq<Addr>)
    requires Live(h) && a in h
  {
    && (forall l :: l in h[a].links ==> LinkExtra(h, a, l).Le(Fin(beam + Leeway(l, rest, delta))))
    && (h[a].extraCost.Fin? ==>
          h[a].extraCost == init
          || exists l :: l in h[a].links && LinkExtra(h, a, l).Le(h[a].extraCost.Plus(Leeway(l, rest, delta))))
  }

  /** With delta zero the equation is exact. */
  lemma NearlyIsExact(h: Heap, a: Addr, beam: nat, init: Cost)
    requires Live(h) && Bounded(h, beam) && a in h && SettledNearly(h, a, beam, init, 0, [])
    ensures Settled(h, a, beam, init)
  {
  }

  // ----- one pass -----

  /** The state of a pass over list that began in heap hp and has made i visits. */
  ghost predicate InPass(hp: Heap, h: Heap, list: seq<Addr>, i: nat, delta: nat, changed: bool)
    requires i <= |list|
  {
    && Raised(hp, h)
    && (forall a :: a in h && a !in list[..i] ==> h[a] == hp[a])
    && (if changed then exists a :: a in list && a in h && !Within(h[a].extraCost, hp[a].extraCost, delta)
        else forall a :: a in h ==> Within(h[a].extraCost, hp[a].extraCost, delta))
  }

  /** As long as nothing has changed, the visited tokens satisfy what the pass is for. */
  ghost predicate VisitedOk(h: Heap, list: seq<Addr>, i: nat, delta: nat, beam: nat, term: Terminal)
    requires Live(h) && i <= |list|
  {
    forall a :: a in list[..i] ==> a in h && NoDead(h, a) && SettledNearly(h, a, beam, Init(term, a), delta, list[i..])
  }

  lemma PassStarts(c: Created, h: Heap, term: Terminal, list: seq<Addr>, delta: nat, beam: nat)
    requires Consistent(c, h, term, beam)
    ensures Live(h) && InPass(h, h, list, 0, delta, false) && VisitedOk(h, list, 0, delta, beam, term)
  {
  }

  lemma VisitKeys(c: Created, h: Heap, a: Addr, term: Terminal, beam: nat)
    requires Consistent(c, h, term, beam) && a in h
    ensures Live(h) && Live(PruneToken(h, a, beam, Init(term, a)))
    ensures PruneToken(h, a, beam, Init(term, a)).Keys == h.Keys
  {
  }

  lemma RaisedTransitive(h0: Heap, h1: Heap, h2: Heap)
    requires Raised(h0, h1) && Raised(h1, h2)
    ensures Raised(h0, h2)
  {
  }

  lemma VisitIsRaise(c: Created, h: Heap, a: Addr, term: Terminal, beam: nat)
    requires Consistent(c, h, term, beam) && a in h
    ensures Raised(h, PruneToken(h, a, beam, Init(term, a)))
  {
    VisitRaises(c, h, a, beam, Init(term, a));
  }

  /** What a pass has done, and what its next visit does, only raises. */
  lemma PassRaised(c: Created, hp: Heap, h: Heap, list: seq<Addr>, i: nat, delta: nat, changed: bool, term: Terminal,
                   beam: nat)
    requires Consistent(c, h, term, beam) && i < |list| && list[i] in h && InPass(hp, h, list, i, delta, changed)
    ensures Raised(hp, h) && Raised(h, PruneToken(h, list[i], beam, Init(term, list[i])))
  {
    hide PruneToken, Raised;
    VisitIsRaise(c, h, list[i], term, beam);
  }

  lemma PassStep(c: Created, hp: Heap, h: Heap, list: seq<Addr>, i: nat, delta: nat, changed: bool,
                 term: Terminal, beam: nat)
    requires Consistent(c, h, term, beam) && i < |list| && NoDuplicates(list) && list[i] in h
    requires InPass(hp, h, list, i, delta, changed)
    ensures var h' := PruneToken(h, list[i], beam, Init(term, list[i]));
            InPass(hp, h', list, i + 1, delta,
                   changed || !Within(h'[list[i]].extraCost, h[list[i]].extraCost, delta))
  {
    var a := list[i];
    var h' := PruneToken(h, a, beam, Init(term, a));
    VisitIsRaise(c, h, a, term, beam);
    RaisedTransitive(hp, h, h');
    assert list[..i + 1] == list[..i] + [a];
    assert a !in list[..i];
    assert h[a] == hp[a];
    var changed' := changed || !Within(h'[a].extraCost, h[a].extraCost, delta);
    if changed' && !changed {
      assert a in list && !Within(h'[a].extraCost, hp[a].extraCost, delta);
    } else if changed' {
      var b :| b in list && b in h && !Within(h[b].extraCost, hp[b].extraCost, delta);
      assert !Within(h'[b].extraCost, hp[b].extraCost, delta);
    }
  }

  /** A visit that moves extraCost by no more than delta settles the token up to delta. */
  lemma VisitSettles(c: Created, h: Heap, a: Addr, term: Terminal, beam: nat, delta: nat, rest: seq<Addr>)
    requires Consistent(c, h, term, beam) && a in h && a !in rest
    requires Within(PruneToken(h, a, beam, Init(term, a))[a].extraCost, h[a].extraCost, delta)
    ensures var h' := PruneToken(h, a, beam, Init(term, a));
      Live(h') && NoDead(h', a) && SettledNearly(h', a, beam, Init(term, a), delta, rest)
  {
    hide Consistent, KeptLinks, MinExtra;
    ConsistentParts(c, h, term, beam);
    var init := Init(term, a);
    var h' := PruneToken(h, a, beam, init);
    VisitParts(c, h, a, term, beam);
    forall l | l in h'[a].links
      ensures l in h[a].links && LinkExtra(h, a, l).Le(Fin(beam))
      ensures LinkExtra(h', a, l).Le(LinkExtra(h, a, l).Plus(Leeway(l, rest, delta)))
    {
    }
    var m := MinExtra(h, a, h[a].links, beam, init);
    if m != init && m.Fin? {
      var l :| l in h[a].links && LinkExtra(h, a, l).Le(Fin(beam)) && m == Clamp(LinkExtra(h, a, l));
      assert l in h'[a].links && LinkExtra(h', a, l).Le(m.Plus(Leeway(l, rest, delta)));
    }
  }

  /** What a visit makes of a token, in terms of the scan. */
  lemma VisitParts(c: Created, h: Heap, a: Addr, term: Terminal, beam: nat)
    requires Consistent(c, h, term, beam) && a in h
    ensures var init := Init(term, a);
      var h' := PruneToken(h, a, beam, init);
      var m := MinExtra(h, a, h[a].links, beam, init);
      && Live(h) && Live(h') && h[a].extraCost.Le(h'[a].extraCost)
      && h'[a].extraCost == (if m.Le(Fin(beam)) then m else Inf) && h'[a].totCost == h[a].totCost
      && (forall l :: l in h'[a].links <==> l in h[a].links && LinkExtra(h, a, l).Le(Fin(beam)))
      && (forall l :: l in h[a].links ==> Clamp(LinkExtra(h, a, l)) == LinkExtra(h, a, l))
      && (m == init || exists l :: l in h[a].links && LinkExtra(h, a, l).Le(Fin(beam)) && m == Clamp(LinkExtra(h, a, l)))
  {
    VisitRaises(c, h, a, beam, Init(term, a));
  }

  /** A visit to another token that moves its excess by no more than delta keeps everybody settled up to delta. */
  lemma VisitUndisturbing(c: Created, h: Heap, a: Addr, term: Terminal, beam: nat, b: Addr, initB: Cost, delta: nat,
                          rest: seq<Addr>)
    requires Consistent(c, h, term, beam) && a in h && b in h && a != b && a !in rest
    requires Within(PruneToken(h, a, beam, Init(term, a))[a].extraCost, h[a].extraCost, delta)
    requires NoDead(h, b) && SettledNearly(h, b, beam, initB, delta, [a] + rest)
    ensures var h' := PruneToken(h, a, beam, Init(term, a));
      Live(h') && NoDead(h', b) && SettledNearly(h', b, beam, initB, delta, rest)
  {
    hide Consistent, KeptLinks, MinExtra, PrunedToken;
    ConsistentParts(c, h, term, beam);
    var h' := PruneToken(h, a, beam, Init(term, a));
    VisitParts(c, h, a, term, beam);
    forall l | l in h[b].links
      ensures LinkExtra(h', b, l).Le(LinkExtra(h, b, l).Plus(Leeway(l, rest, delta) - Leeway(l, [a] + rest, delta)))
    {
      assert l.nextTok in [a] + rest <==> l.nextTok == a || l.nextTok in rest;
    }
    if h[b].extraCost.Fin? && h[b].extraCost != initB {
      var l :| l in h[b].links && LinkExtra(h, b, l).Le(h[b].extraCost.Plus(Leeway(l, [a] + rest, delta)));
      assert LinkExtra(h', b, l).Le(h'[b].extraCost.Plus(Leeway(l, rest, delta)));
    }
  }

  lemma PassStepVisited(c: Created, h: Heap, list: seq<Addr>, i: nat, delta: nat, term: Terminal, beam: nat)
    requires Consistent(c, h, term, beam) && i < |list| && NoDuplicates(list) && list[i] in h
    requires VisitedOk(h, list, i, delta, beam, term)
    ensures var h' := PruneToken(h, list[i], beam, Init(term, list[i]));
            && Live(h')
            && (Within(h'[list[i]].extraCost, h[list[i]].extraCost, delta) ==>
                  VisitedOk(h', list, i + 1, delta, beam, term))
  {
    hide Consistent, NoDead, SettledNearly, PrunedToken;
    ConsistentParts(c, h, term, beam);
    var a, rest := list[i], list[i + 1..];
    var h' := PruneToken(h, a, beam, Init(term, a));
    VisitParts(c, h, a, term, beam);
    assert list[i..] == [a] + rest && a !in rest && list[..i + 1] == list[..i] + [a];
    if Within(h'[a].extraCost, h[a].extraCost, delta) {
      VisitSettles(c, h, a, term, beam, delta, rest);
      forall b | b in list[..i + 1]
        ensures b in h' && NoDead(h', b) && SettledNearly(h', b, beam, Init(term, b), delta, rest)
      {
        if b != a {
          VisitUndisturbing(c, h, a, term, beam, b, Init(term, b), delta, rest);
        }
      }
    }
  }

  /** Every token has exactly the links it had. */
  ghost predicate SameLinks(h0: Heap, h: Heap) {
    forall a :: a in h0 ==> a in h && h[a].links == h0[a].links
  }

  /** extraCost is infinite where it was. */
  ghost predicate SameStatus(h0: Heap, h: Heap) {
    forall a :: a in h0 ==> a in h && h[a].extraCost.Inf? == h0[a].extraCost.Inf?
  }

  /** Some token has lost a link. */
  ghost predicate LinkGone(h0: Heap, h: Heap) {
    exists a, l :: a in h0 && a in h && l in h0[a].links && l !in h[a].links
  }

  /** Some token's extraCost has moved by more than delta. */
  ghost predicate ExcessMoved(h0: Heap, h: Heap, delta: nat) {
    exists a :: a in h0 && a in h && !Within(h[a].extraCost, h0[a].extraCost, delta)
  }

  /** What is gone stays gone. */
  lemma GoneStays(h0: Heap, h1: Heap, h2: Heap)
    requires Raised(h0, h1) && Raised(h1, h2) && (LinkGone(h0, h1) || LinkGone(h1, h2))
    ensures LinkGone(h0, h2)
  {
    if LinkGone(h0, h1) {
      var a, l :| a in h0 && a in h1 && l in h0[a].links && l !in h1[a].links;
      assert l !in h2[a].links;
    } else {
      var a, l :| a in h1 && a in h2 && l in h1[a].links && l !in h2[a].links;
      assert l in h0[a].links;
    }
  }

  lemma MovedStays(h0: Heap, h1: Heap, h2: Heap, delta: nat)
    requires Raised(h0, h1) && Raised(h1, h2) && (ExcessMoved(h0, h1, delta) || ExcessMoved(h1, h2, delta))
    ensures ExcessMoved(h0, h2, delta)
  {
    var a :| a in h0 && (!Within(h1[a].extraCost, h0[a].extraCost, delta) || !Within(h2[a].extraCost, h1[a].extraCost, delta));
    assert a in h1 && h0[a].extraCost.Le(h1[a].extraCost) && h1[a].extraCost.Le(h2[a].extraCost);
  }

  /** Pruning has touched listed tokens only. */
  ghost predicate RaisedOnly(h0: Heap, h: Heap, list: seq<Addr>) {
    Raised(h0, h) && forall a :: a in h0 && a !in list ==> h[a] == h0[a]
  }

  /** The state between passes: it began in h0, and the last pass, if any, changed something or not. */
  ghost predicate BetweenPasses(h0: Heap, h: Heap, list: seq<Addr>, delta: nat, changed: bool, extraCostsChanged: bool,
                                linksPruned: bool) {
    && RaisedOnly(h0, h, list)
    && (if extraCostsChanged then ExcessMoved(h0, h, delta) else if changed then h == h0 else SameStatus(h0, h))
    && (if linksPruned then LinkGone(h0, h) else SameLinks(h0, h))
  }

  lemma PassEnds(h0: Heap, hp: Heap, h: Heap, list: seq<Addr>, delta: nat, changed: bool,
                 extraCostsChanged: bool, linksPruned: bool, pruned: bool)
    requires BetweenPasses(h0, hp, list, delta, true, extraCostsChanged, linksPruned)
    requires InPass(hp, h, list, |list|, delta, changed) && (if pruned then LinkGone(hp, h) else SameLinks(hp, h))
    ensures BetweenPasses(h0, h, list, delta, changed, extraCostsChanged || changed, linksPruned || pruned)
  {
    assert list[..|list|] == list;
    RaisedTransitive(h0, hp, h);
    if linksPruned || pruned {
      GoneStays(h0, hp, h);
    }
    if extraCostsChanged || changed {
      MovedStays(h0, hp, h, delta);
    }
  }

  lemma RaisedOnlyRaises(h0: Heap, h: Heap, list: seq<Addr>)
    requires RaisedOnly(h0, h, list)
    ensures Raised(h0, h) && h.Keys == h0.Keys
  {
  }

  /** What pruning a whole list achieves: no link leads to a spent token, none is beyond the beam by more
      than delta, and extraCost is the least excess of a link, up to delta, or the token's own terminal cost. */
  ghost predicate ListPruned(h: Heap, list: seq<Addr>, delta: nat, beam: nat, term: Terminal) {
    Live(h) && forall a :: a in list ==>
      && a in h && NoDead(h, a) && SettledNearly(h, a, beam, Init(term, a), delta, [])
      && (delta == 0 ==> Settled(h, a, beam, Init(term, a)))
  }

  lemma AllVisited(h: Heap, list: seq<Addr>, delta: nat, beam: nat, term: Terminal)
    requires Live(h) && Bounded(h, beam) && VisitedOk(h, list, |list|, delta, beam, term)
    ensures ListPruned(h, list, delta, beam, term)
  {
    hide SettledNearly, NoDead, Settled, Bounded;
    assert list[..|list|] == list && list[|list|..] == [];
    forall a | a in list && delta == 0
      ensures a in h && Settled(h, a, beam, Init(term, a))
    {
      NearlyIsExact(h, a, beam, Init(term, a));
    }
  }

  lemma PassesStart(c: Created, h: Heap, term: Terminal, list: seq<Addr>, delta: nat, beam: nat)
    requires Consistent(c, h, term, beam)
    ensures Live(h) && Bounded(h, beam) && BetweenPasses(h, h, list, delta, true, false, false)
  {
  }

  lemma PassRaises(hp: Heap, h: Heap, list: seq<Addr>, delta: nat, changed: bool)
    requires InPass(hp, h, list, |list|, delta, changed)
    ensures Raised(hp, h)
  {
  }

  // ----- termination of the passes -----

  /** The room that the excesses of listed tokens still have to rise. */
  ghost function Headroom(h: Heap, list: seq<Addr>, beam: nat): set<(Addr, int)> {
    set a, x: int | a in list && 0 <= x <= beam && a in h && h[a].extraCost.Le(Fin(x)) :: (a, x)
  }

  /** A pass that changes something uses up headroom, so the passes end, cycles or not. */
  lemma PassShrinksHeadroom(hp: Heap, h: Heap, list: seq<Addr>, beam: nat, delta: nat)
    requires Live(hp) && Bounded(hp, beam)
    requires InPass(hp, h, list, |list|, delta, true)
    ensures Headroom(h, list, beam) < Headroom(hp, list, beam)
  {
    var a :| a in list && a in h && !Within(h[a].extraCost, hp[a].extraCost, delta);
    assert (a, hp[a].extraCost.value) in Headroom(hp, list, beam);
    assert (a, hp[a].extraCost.value) !in Headroom(h, list, beam);
  }

  /** Nothing gives headroom back. */
  lemma HeadroomFalls(hp: Heap, h: Heap, list: seq<Addr>, beam: nat)
    requires Raised(hp, h)
    ensures Headroom(h, list, beam) <= Headroom(hp, list, beam)
  {
  }

  // ----- freeing spent tokens -----

  /** The heap without the listed tokens whose extraCost is infinite. */
  function WithoutSpent(h: Heap, list: seq<Addr>): (h': Heap)
    ensures forall a :: a in h' <==> a in h && !(a in list && h[a].extraCost.Inf?)
    ensures forall a :: a in h' ==> h'[a] == h[a]
  {
    map a | a in h && !(a in list && h[a].extraCost.Inf?) :: h[a]
  }

  ghost predicate OnFrame(c: Created, h: Heap, f: nat, list: seq<Addr>)
  {
    NoDuplicates(list) && forall a :: a in list <==> a in h && a in c && c[a].frame == f
  }

  /** No live link leads to a listed token that is about to be freed. */
  ghost predicate Unreferenced(h: Heap, list: seq<Addr>)
    requires Live(h)
  {
    forall a, l :: a in h && l in h[a].links && l.nextTok in list ==> h[l.nextTok].extraCost.Fin?
  }

  lemma FreeingKeepsConsistent(c: Created, h: Heap, list: seq<Addr>, term: Terminal, beam: nat)
    requires Consistent(c, h, term, beam) && Unreferenced(h, list)
    ensures Consistent(c, WithoutSpent(h, list), term, beam)
  {
    var h' := WithoutSpent(h, list);
    assert Live(h');
    forall a, l | a in h' && l in h'[a].links
      ensures h'[a].extraCost.Le(LinkExtra(h', a, l))
    {
      assert LinkExtra(h', a, l) == LinkExtra(h, a, l);
    }
    forall a, p, z | IsPath(c, a, p, z) && z in term && Excess(c, term, a, p, z).Le(Fin(beam))
      ensures Intact(h', a, p, Excess(c, term, a, p, z))
    {
      assert Intact(h, a, p, Excess(c, term, a, p, z));
    }
  }
}
