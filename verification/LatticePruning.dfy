/** Backward pruning of the lattice, one token at a time.
    The decoder visits tokens in list order and again and again; nothing below depends on
    the order of the visits, so every schedule of PruneToken keeps what is proved here. */
module LatticePruning {
  import opened Costs
  import opened Lattice

  // ----- the step -----

  /** The excess of the best path through a link, as far as it is known. */
  function LinkExtra(h: Heap, a: Addr, l: ForwardLink): Cost
    requires a in h && l.nextTok in h
  {
    h[l.nextTok].extraCost.Plus(h[a].totCost + l.acousticCost + l.graphCost - h[l.nextTok].totCost)
  }

  /** A negative excess counts as zero. */
  function Clamp(x: Cost): Cost {
    if x.Fin? && x.value < 0 then Fin(0) else x
  }

  predicate Pointed(h: Heap, ls: seq<ForwardLink>) {
    forall l :: l in ls ==> l.nextTok in h
  }

  /** The links that are not excised, in their order. */
  function KeptLinks(h: Heap, a: Addr, ls: seq<ForwardLink>, beam: nat): (kept: seq<ForwardLink>)
    requires a in h && Pointed(h, ls)
    ensures forall l :: l in kept <==> l in ls && LinkExtra(h, a, l).Le(Fin(beam))
  {
    if ls == [] then [] else
      var last := ls[|ls| - 1];
      var front := ls[..|ls| - 1];
      assert ls == front + [last];
      KeptLinks(h, a, front, beam) + if LinkExtra(h, a, last).Le(Fin(beam)) then [last] else []
  }

  /** The least excess over the kept links, starting from init. */
  function MinExtra(h: Heap, a: Addr, ls: seq<ForwardLink>, beam: nat, init: Cost): (m: Cost)
    requires a in h && Pointed(h, ls)
    ensures m.Le(init)
    ensures forall l :: l in ls && LinkExtra(h, a, l).Le(Fin(beam)) ==> m.Le(Clamp(LinkExtra(h, a, l)))
    ensures m == init || exists l :: l in ls && LinkExtra(h, a, l).Le(Fin(beam)) && m == Clamp(LinkExtra(h, a, l))
  {
    if ls == [] then init else
      var last := ls[|ls| - 1];
      var front := ls[..|ls| - 1];
      assert ls == front + [last];
      var m := MinExtra(h, a, front, beam, init);
      var x := LinkExtra(h, a, last);
      if x.Le(Fin(beam)) && Clamp(x).Lt(m) then Clamp(x) else m
  }

  /** The heap with other links for one token. */
  function WithLinks(h: Heap, a: Addr, ls: seq<ForwardLink>): (h': Heap)
    requires a in h
    ensures h'.Keys == h.Keys && h'[a].links == ls
    ensures forall b :: b in h ==> h'[b].extraCost == h[b].extraCost && h'[b].totCost == h[b].totCost
  {
    h[a := h[a].(links := ls)]
  }

  /** A list whose first elements have been dealt with: the next one, excised or kept. */
  lemma NextInPlace<T>(kept: seq<T>, ls: seq<T>, k: nat)
    requires k < |ls|
    ensures var now, i := kept + ls[k..], |kept|;
            && i < |now| && now[i] == ls[k]
            && now[..i] + now[i + 1..] == kept + ls[k + 1..]
            && now == (kept + [ls[k]]) + ls[k + 1..]
  {
    assert ls[k..] == [ls[k]] + ls[k + 1..];
  }

  /** One link more. */
  lemma ScanStep(h: Heap, a: Addr, ls: seq<ForwardLink>, k: nat, beam: nat, init: Cost)
    requires a in h && Pointed(h, ls) && k < |ls|
    ensures Pointed(h, ls[..k]) && Pointed(h, ls[..k + 1]) && ls[k].nextTok in h
    ensures var x := LinkExtra(h, a, ls[k]);
            var m := MinExtra(h, a, ls[..k], beam, init);
            && KeptLinks(h, a, ls[..k + 1], beam) == KeptLinks(h, a, ls[..k], beam) + (if x.Le(Fin(beam)) then [ls[k]] else [])
            && MinExtra(h, a, ls[..k + 1], beam, init) == (if x.Le(Fin(beam)) && Clamp(x).Lt(m) then Clamp(x) else m)
  {
    assert ls[..k + 1][..k] == ls[..k];
  }

  /** The heap while token a's links are scanned: k have been dealt with, i of them kept. */
  ghost predicate Scanning(h0: Heap, a: Addr, beam: nat, init: Cost, k: nat, h: Heap, i: nat, best: Cost)
    requires a in h0 && Pointed(h0, h0[a].links)
  {
    var ls := h0[a].links;
    k <= |ls| && Pointed(h0, ls[..k]) &&
    var kept := KeptLinks(h0, a, ls[..k], beam);
    i == |kept| && best == MinExtra(h0, a, ls[..k], beam, init) && h == WithLinks(h0, a, kept + ls[k..])
  }

  lemma ScanStarts(h: Heap, a: Addr, beam: nat, init: Cost)
    requires a in h && Pointed(h, h[a].links)
    ensures Scanning(h, a, beam, init, 0, h, 0, init)
  {
    assert [] + h[a].links[0..] == h[a].links;
  }

  lemma ScanGoesOn(h0: Heap, a: Addr, beam: nat, init: Cost, k: nat, h: Heap, i: nat, best: Cost)
    requires a in h0 && Pointed(h0, h0[a].links) && Scanning(h0, a, beam, init, k, h, i, best)
    ensures a in h && k <= |h0[a].links| && (i < |h[a].links| <==> k < |h0[a].links|)
    ensures i < |h[a].links| ==>
      h[a].links[i].nextTok in h &&
      var x := LinkExtra(h, a, h[a].links[i]);
      if x.Le(Fin(beam)) then Scanning(h0, a, beam, init, k + 1, h, i + 1, if Clamp(x).Lt(best) then Clamp(x) else best)
      else Scanning(h0, a, beam, init, k + 1, WithLinks(h, a, h[a].links[..i] + h[a].links[i + 1..]), i, best)
  {
    hide KeptLinks, MinExtra, Clamp;
    var ls := h0[a].links;
    if k < |ls| {
      var kept := KeptLinks(h0, a, ls[..k], beam);
      NextInPlace(kept, ls, k);
      ScanStep(h0, a, ls, k, beam, init);
      assert LinkExtra(h, a, ls[k]) == LinkExtra(h0, a, ls[k]);
      assert h[a].links[..i] + h[a].links[i + 1..] == kept + ls[k + 1..];
      assert WithLinks(h, a, kept + ls[k + 1..]) == WithLinks(h0, a, kept + ls[k + 1..]);
      var x := LinkExtra(h, a, ls[k]);
      if !x.Le(Fin(beam)) {
        assert kept + [] == kept;
        assert Scanning(h0, a, beam, init, k + 1, WithLinks(h, a, kept + ls[k + 1..]), i, best);
      }
    }
  }

  /** A link that the scan excises is not among those that are kept. */
  lemma ScanExcises(h0: Heap, a: Addr, beam: nat, init: Cost, k: nat, h: Heap, i: nat, best: Cost)
    requires a in h0 && Pointed(h0, h0[a].links) && Scanning(h0, a, beam, init, k, h, i, best) && a in h
    ensures i < |h[a].links| ==>
      && h[a].links[i].nextTok in h && h[a].links[i] in h0[a].links
      && (!LinkExtra(h, a, h[a].links[i]).Le(Fin(beam)) ==> h[a].links[i] !in KeptLinks(h0, a, h0[a].links, beam))
  {
    hide MinExtra, Clamp;
    var ls := h0[a].links;
    if k < |ls| {
      NextInPlace(KeptLinks(h0, a, ls[..k], beam), ls, k);
    }
  }

  lemma ScanEnds(h0: Heap, a: Addr, beam: nat, init: Cost, k: nat, h: Heap, i: nat, best: Cost)
    requires a in h0 && Pointed(h0, h0[a].links) && Scanning(h0, a, beam, init, k, h, i, best) && k == |h0[a].links|
    ensures best == MinExtra(h0, a, h0[a].links, beam, init)
    ensures h == WithLinks(h0, a, KeptLinks(h0, a, h0[a].links, beam))
  {
    var ls := h0[a].links;
    assert ls[..k] == ls;
    assert KeptLinks(h0, a, ls, beam) + ls[k..] == KeptLinks(h0, a, ls, beam);
  }

  /** What one visit makes of a token: links beyond the beam go, extraCost is recomputed. */
  function PrunedToken(h: Heap, a: Addr, beam: nat, init: Cost): Token
    requires a in h && Pointed(h, h[a].links)
  {
    var m := MinExtra(h, a, h[a].links, beam, init);
    Token(h[a].totCost, if m.Le(Fin(beam)) then m else Inf, KeptLinks(h, a, h[a].links, beam))
  }

  function PruneToken(h: Heap, a: Addr, beam: nat, init: Cost): Heap
    requires a in h && Pointed(h, h[a].links)
  {
    h[a := PrunedToken(h, a, beam, init)]
  }

  // ----- what every visit keeps -----

  /** What a path still has to pay at its last token: on a finished front frame nothing,
      on the last frame of the utterance the distance of the final cost from the best. */
  type Terminal = map<Addr, Cost>

  function Init(term: Terminal, a: Addr): Cost {
    if a in term then term[a] else Inf
  }

  ghost predicate TerminalOk(c: Created, term: Terminal) {
    forall z :: z in term ==> z in c && Fin(0).Le(term[z])
  }

  /** The live lattice is part of what was created. */
  ghost predicate Agree(c: Created, h: Heap) {
    forall a :: a in h ==>
      && a in c
      && h[a].totCost == c[a].totCost
      && forall l :: l in h[a].links ==> l in c[a].links
  }

  /** No link of a live token dangles. */
  ghost predicate Live(h: Heap) {
    forall a :: a in h ==> Pointed(h, h[a].links)
  }

  lemma PointedIn(h: Heap, a: Addr)
    requires Live(h) && a in h
    ensures Pointed(h, h[a].links)
  {
  }

  /** extraCost never overestimates any link, and is zero up to the beam, or infinite. */
  ghost predicate Bounded(h: Heap, beam: nat)
    requires Live(h)
  {
    forall a :: a in h ==>
      && (h[a].extraCost.Fin? ==> 0 <= h[a].extraCost.value <= beam)
      && forall l :: l in h[a].links ==> h[a].extraCost.Le(LinkExtra(h, a, l))
  }

  /** A token with infinite extraCost has no link left. */
  ghost predicate Spent(h: Heap) {
    forall a :: a in h && h[a].extraCost.Inf? ==> h[a].links == []
  }

  ghost predicate TerminalBound(h: Heap, term: Terminal, beam: nat) {
    forall a :: a in h && a in term && term[a].Le(Fin(beam)) ==> h[a].extraCost.Le(term[a])
  }

  /** What a path to a terminal token costs beyond the best. */
  ghost function Excess(c: Created, term: Terminal, a: Addr, p: seq<ForwardLink>, z: Addr): Cost
    requires WellFormed(c) && IsPath(c, a, p, z) && z in term
  {
    term[z].Plus(PathSlack(c, a, p, z))
  }

  /** The first token of a path is live, its extraCost does not exceed x, and the path's first link is there. */
  ghost predicate Intact(h: Heap, a: Addr, p: seq<ForwardLink>, x: Cost) {
    && a in h
    && h[a].extraCost.Le(x)
    && (p != [] ==> p[0] in h[a].links)
  }

  /** Nothing within the beam is lost. */
  ghost predicate Safe(c: Created, h: Heap, term: Terminal, beam: nat)
    requires WellFormed(c)
  {
    forall a, p, z :: IsPath(c, a, p, z) && z in term && Excess(c, term, a, p, z).Le(Fin(beam)) ==>
      Intact(h, a, p, Excess(c, term, a, p, z))
  }

  ghost predicate Consistent(c: Created, h: Heap, term: Terminal, beam: nat) {
    && WellFormed(c) && TerminalOk(c, term) && Agree(c, h) && Live(h)
    && Bounded(h, beam) && Spent(h) && TerminalBound(h, term, beam)
    && Safe(c, h, term, beam)
  }

  lemma ConsistentParts(c: Created, h: Heap, term: Terminal, beam: nat)
    requires Consistent(c, h, term, beam)
    ensures WellFormed(c) && Agree(c, h) && Live(h) && Spent(h)
  {
  }

  lemma SlackInHeap(c: Created, h: Heap, a: Addr, l: ForwardLink)
    requires WellFormed(c) && Agree(c, h) && Live(h) && a in h && l in h[a].links
    ensures LinkOk(c, a, l)
    ensures LinkExtra(h, a, l) == h[l.nextTok].extraCost.Plus(Slack(c, a, l))
  {
    assert l in c[a].links;
    assert LinkOk(c, a, l);
    assert l.nextTok in h;
  }

  /** A visit never lowers extraCost, and the clamp never acts. */
  lemma VisitRaises(c: Created, h: Heap, a: Addr, beam: nat, init: Cost)
    requires WellFormed(c) && Agree(c, h) && Live(h) && Bounded(h, beam)
    requires a in h && (init.Le(Fin(beam)) ==> h[a].extraCost.Le(init))
    ensures forall l :: l in h[a].links ==> Clamp(LinkExtra(h, a, l)) == LinkExtra(h, a, l)
    ensures h[a].extraCost.Le(PrunedToken(h, a, beam, init).extraCost)
  {
    forall l | l in h[a].links
      ensures Clamp(LinkExtra(h, a, l)) == LinkExtra(h, a, l)
    {
      SlackInHeap(c, h, a, l);
    }
  }

  /** A token left with infinite extraCost has had all its links excised. */
  lemma VisitSpends(c: Created, h: Heap, a: Addr, beam: nat, init: Cost)
    requires WellFormed(c) && Agree(c, h) && Live(h) && Bounded(h, beam)
    requires a in h && (init.Le(Fin(beam)) ==> h[a].extraCost.Le(init))
    ensures PrunedToken(h, a, beam, init).extraCost.Inf? ==> PrunedToken(h, a, beam, init).links == []
  {
    VisitRaises(c, h, a, beam, init);
    var kept := KeptLinks(h, a, h[a].links, beam);
    if kept != [] {
      assert kept[0] in kept;
      assert MinExtra(h, a, h[a].links, beam, init).Le(LinkExtra(h, a, kept[0]));
    }
  }

  lemma VisitKeepsShape(c: Created, h: Heap, a: Addr, beam: nat, init: Cost)
    requires Agree(c, h) && Live(h) && a in h
    ensures Agree(c, PruneToken(h, a, beam, init)) && Live(PruneToken(h, a, beam, init))
  {
  }

  lemma VisitKeepsBounds(c: Created, h: Heap, a: Addr, term: Terminal, beam: nat)
    requires Consistent(c, h, term, beam) && a in h
    ensures var h' := PruneToken(h, a, beam, Init(term, a));
            Agree(c, h') && Live(h') && Bounded(h', beam) && Spent(h') && TerminalBound(h', term, beam)
  {
    var init := Init(term, a);
    var h' := PruneToken(h, a, beam, init);
    VisitRaises(c, h, a, beam, init);
    VisitSpends(c, h, a, beam, init);
    VisitKeepsShape(c, h, a, beam, init);
    hide Agree, Safe, WellFormed, TerminalOk;
    forall b, l | b in h' && l in h'[b].links
      ensures h'[b].extraCost.Le(LinkExtra(h', b, l))
    {
      assert l in h[b].links;
      assert h[b].extraCost.Le(LinkExtra(h, b, l));
      assert LinkExtra(h, b, l).Le(LinkExtra(h', b, l));
    }
  }

  lemma VisitKeepsPath(c: Created, h: Heap, a: Addr, term: Terminal, beam: nat, p: seq<ForwardLink>, z: Addr)
    requires Consistent(c, h, term, beam) && a in h
    requires IsPath(c, a, p, z) && z in term && Excess(c, term, a, p, z).Le(Fin(beam))
    ensures Intact(PruneToken(h, a, beam, Init(term, a)), a, p, Excess(c, term, a, p, z))
  {
    VisitRaises(c, h, a, beam, Init(term, a));
    if p != [] {
      assert Intact(h, a, p, Excess(c, term, a, p, z));
      var b := p[0].nextTok;
      SlackInHeap(c, h, a, p[0]);
      assert Excess(c, term, a, p, z) == Excess(c, term, b, p[1..], z).Plus(Slack(c, a, p[0]));
      assert Intact(h, b, p[1..], Excess(c, term, b, p[1..], z));
      assert LinkExtra(h, a, p[0]).Le(Excess(c, term, a, p, z));
    }
  }

  /** Consistency, and with it safety, survives a visit to any live token at any time. */
  lemma VisitKeepsConsistent(c: Created, h: Heap, a: Addr, term: Terminal, beam: nat)
    requires Consistent(c, h, term, beam) && a in h
    ensures Consistent(c, PruneToken(h, a, beam, Init(term, a)), term, beam)
  {
    var h' := PruneToken(h, a, beam, Init(term, a));
    VisitKeepsBounds(c, h, a, term, beam);
    forall b, p, z | IsPath(c, b, p, z) && z in term && Excess(c, term, b, p, z).Le(Fin(beam))
      ensures Intact(h', b, p, Excess(c, term, b, p, z))
    {
      if b == a {
        VisitKeepsPath(c, h, a, term, beam, p, z);
      } else {
        assert Intact(h, b, p, Excess(c, term, b, p, z));
      }
    }
  }
}
