/** Taking emitting arcs from the tokens of one frame to those of the next. */
module Emission {
  import opened Composition
  import opened Costs
  import opened Lattice
  import opened TokenColumn
  import opened BeamSearch

  ghost function EmittingLink(g: Graph, u: Utterance, n: nat, toks: map<PairId, Addr>, p: PairId, i: nat): ForwardLink
    requires EmittingArc(g, u, n, p, i) && PairArcAt(g, p, i).next in toks
  {
    var arc := PairArcAt(g, p, i);
    ForwardLink(toks[arc.next], arc.ilabel, arc.olabel, arc.weight.value, u.acousticCost(n, arc.ilabel).value)
  }

  /** The tokens being left: where they are, what the heap held when their turn came, and the cutoff they must be within. */
  datatype Previous = Previous(toks: map<PairId, Addr>, heap: Heap, cutoff: Cost)

  ghost predicate PreviousOk(g: Graph, prev: Previous, col: Column) {
    forall p :: p in prev.toks ==>
      && IsPair(g, p) && prev.toks[p] in prev.heap
      && prev.toks[p] in col.pairOf && col.pairOf[prev.toks[p]] == p
  }

  /** The cost of going on from token p along arc i. */
  ghost function ExtensionCost(g: Graph, u: Utterance, n: nat, prev: Previous, p: PairId, i: nat): int
    requires p in prev.toks && prev.toks[p] in prev.heap && EmittingArc(g, u, n, p, i)
  {
    prev.heap[prev.toks[p]].totCost + EmitCost(g, u, n, p, i)
  }

  /** An extension the search looks at: its token is not beyond the frame's cutoff. */
  ghost predicate Candidate(g: Graph, u: Utterance, n: nat, prev: Previous, p: PairId, i: nat) {
    && p in prev.toks && prev.toks[p] in prev.heap && EmittingArc(g, u, n, p, i)
    && Fin(prev.heap[prev.toks[p]].totCost).Le(prev.cutoff)
  }

  /** Arc i of token p has its link, to a token that costs no more than the extension. */
  ghost predicate Linked(g: Graph, u: Utterance, n: nat, prev: Previous, col: Column, p: PairId, i: nat) {
    && Candidate(g, u, n, prev, p, i) && prev.toks[p] in col.heap
    && Has(col, PairArcAt(g, p, i).next)
    && EmittingLink(g, u, n, col.toks, p, i) in col.heap[prev.toks[p]].links
    && CostAt(col, PairArcAt(g, p, i).next) <= ExtensionCost(g, u, n, prev, p, i)
  }

  /** Token q costs exactly what one of its links pays. */
  ghost predicate Supports(g: Graph, u: Utterance, n: nat, prev: Previous, col: Column, q: PairId, p: PairId, i: nat) {
    && Linked(g, u, n, prev, col, p, i) && PairArcAt(g, p, i).next == q
    && CostAt(col, q) == ExtensionCost(g, u, n, prev, p, i)
  }

  ghost predicate NewLink(g: Graph, u: Utterance, n: nat, prev: Previous, col: Column, p: PairId, l: ForwardLink) {
    exists i: nat :: Linked(g, u, n, prev, col, p, i) && l == EmittingLink(g, u, n, col.toks, p, i)
  }

  /** Old heap cells keep their costs, and only tokens being left gain links. */
  ghost predicate PreviousKept(prev: Previous, col: Column) {
    && (forall a :: a in prev.heap ==>
          && a in col.heap
          && col.heap[a].totCost == prev.heap[a].totCost && col.heap[a].extraCost == prev.heap[a].extraCost
          && (forall l :: l in prev.heap[a].links ==> l in col.heap[a].links)
          && (a !in prev.toks.Values ==> col.heap[a] == prev.heap[a]))
    && (forall a :: a in col.list ==> a !in prev.heap)
  }

  ghost predicate LinksJustified(g: Graph, u: Utterance, n: nat, prev: Previous, col: Column) {
    forall p, l :: p in prev.toks && prev.toks[p] in prev.heap && prev.toks[p] in col.heap &&
                   l in col.heap[prev.toks[p]].links && l !in prev.heap[prev.toks[p]].links ==>
      NewLink(g, u, n, prev, col, p, l)
  }

  ghost predicate TokensJustified(g: Graph, u: Utterance, n: nat, prev: Previous, col: Column) {
    forall q: PairId :: Has(col, q) ==> LinksAt(col, q) == [] && exists p, i: nat :: Supports(g, u, n, prev, col, q, p, i)
  }

  ghost predicate Emitting(g: Graph, u: Utterance, n: nat, prev: Previous, col: Column) {
    && ColumnOk(g, col) && PreviousOk(g, prev, col) && PreviousKept(prev, col)
    && LinksJustified(g, u, n, prev, col) && TokensJustified(g, u, n, prev, col)
  }

  // ----- one arc -----

  ghost predicate CanEmit(g: Graph, u: Utterance, n: nat, prev: Previous, col: Column, p: PairId, i: nat) {
    Candidate(g, u, n, prev, p, i) && prev.toks[p] in col.heap
  }

  ghost function EmitArc(g: Graph, u: Utterance, n: nat, prev: Previous, col: Column, p: PairId, i: nat): Column
    requires CanEmit(g, u, n, prev, col, p, i)
  {
    var next := PairArcAt(g, p, i).next;
    var col' := FindOrAdd(col, next, ExtensionCost(g, u, n, prev, p, i));
    AddLink(col', prev.toks[p], EmittingLink(g, u, n, col'.toks, p, i))
  }

  /** Shape of the new column, and what happens to each token. */
  lemma EmitArcColumn(g: Graph, u: Utterance, n: nat, prev: Previous, col: Column, p: PairId, i: nat)
    requires g.Valid() && Emitting(g, u, n, prev, col) && CanEmit(g, u, n, prev, col, p, i)
    ensures var col' := EmitArc(g, u, n, prev, col, p, i);
            && ColumnOk(g, col') && Grows(col, col')
  {
    hide PairArcAt, Graph.Valid, FindOrAdd, LinksJustified, TokensJustified, ColumnOk, Grows;
    var next := PairArcAt(g, p, i).next;
    var cost := ExtensionCost(g, u, n, prev, p, i);
    var col1 := FindOrAdd(col, next, cost);
    PairArcStays(g, p, i);
    FindOrAddOk(g, col, next, cost);
    FindOrAddGrows(g, col, next, cost);
    PreviousInHeap(col, col1, prev.toks[p]);
    var links := [EmittingLink(g, u, n, col1.toks, p, i)] + col1.heap[prev.toks[p]].links;
    SetLinksOk(g, col1, prev.toks[p], links);
    GrowsTransitive(col, col1, SetLinks(col1, prev.toks[p], links));
  }

  lemma PreviousInHeap(col: Column, col': Column, a: Addr)
    requires Grows(col, col') && a in col.heap
    ensures a in col'.heap
  {
  }

  lemma EmitArcCosts(g: Graph, u: Utterance, n: nat, prev: Previous, col: Column, p: PairId, i: nat, q: PairId)
    requires g.Valid() && Emitting(g, u, n, prev, col) && CanEmit(g, u, n, prev, col, p, i)
    ensures var col' := EmitArc(g, u, n, prev, col, p, i);
            var next := PairArcAt(g, p, i).next;
            var cost := ExtensionCost(g, u, n, prev, p, i);
            && (Has(col', q) <==> Has(col, q) || q == next)
            && (Has(col, q) && (q != next || !IsNewOrBetter(col, next, cost)) ==>
                  CostAt(col', q) == CostAt(col, q))
            && (q == next && IsNewOrBetter(col, next, cost) ==> CostAt(col', q) == cost)
            && (Has(col', q) ==> LinksAt(col', q) == if Has(col, q) then LinksAt(col, q) else [])
  {
    hide PairArcAt, Graph.Valid, LinksJustified, TokensJustified;
  }

  /** An old heap cell stays, except that the token being left gains one link. */
  lemma EmitArcOldCell(g: Graph, u: Utterance, n: nat, prev: Previous, col: Column, p: PairId, i: nat, a: Addr)
    requires g.Valid() && ColumnOk(g, col) && PreviousKept(prev, col)
    requires CanEmit(g, u, n, prev, col, p, i) && a in prev.heap
    ensures var col' := EmitArc(g, u, n, prev, col, p, i);
            && PairArcAt(g, p, i).next in col'.toks
            && a in col'.heap
            && col'.heap[a] == (if a == prev.toks[p]
                                then col.heap[a].(links := [EmittingLink(g, u, n, col'.toks, p, i)] + col.heap[a].links)
                                else col.heap[a])
  {
    hide PairArcAt, Graph.Valid, IsPair;
    var next := PairArcAt(g, p, i).next;
    if next in col.toks {
      assert col.toks[next] !in prev.heap;
    }
  }

  lemma EmitArcPrevious(g: Graph, u: Utterance, n: nat, prev: Previous, col: Column, p: PairId, i: nat)
    requires g.Valid() && Emitting(g, u, n, prev, col) && CanEmit(g, u, n, prev, col, p, i)
    ensures var col' := EmitArc(g, u, n, prev, col, p, i);
            PreviousOk(g, prev, col') && PreviousKept(prev, col')
  {
    hide PairArcAt, Graph.Valid, LinksJustified, TokensJustified, IsPair, ColumnOk, EmitArc, EmittingLink;
    var col' := EmitArc(g, u, n, prev, col, p, i);
    EmitArcColumn(g, u, n, prev, col, p, i);
    forall a | a in prev.heap
      ensures PairArcAt(g, p, i).next in col'.toks && a in col'.heap
      ensures col'.heap[a] == (if a == prev.toks[p]
                               then col.heap[a].(links := [EmittingLink(g, u, n, col'.toks, p, i)] + col.heap[a].links)
                               else col.heap[a])
    {
      EmitArcOldCell(g, u, n, prev, col, p, i, a);
    }
    assert forall a :: a in prev.heap ==> a in col.heap && a !in col.list;
  }

  /** What is linked stays linked. */
  lemma LinkedStable(g: Graph, u: Utterance, n: nat, prev: Previous, col: Column, p: PairId, i: nat, q: PairId, j: nat)
    requires g.Valid() && Emitting(g, u, n, prev, col) && CanEmit(g, u, n, prev, col, p, i)
    requires Linked(g, u, n, prev, col, q, j)
    ensures Linked(g, u, n, prev, EmitArc(g, u, n, prev, col, p, i), q, j)
  {
    hide PairArcAt, Graph.Valid, LinksJustified, TokensJustified, IsPair, ColumnOk, EmitArc, PreviousOk;
    var col' := EmitArc(g, u, n, prev, col, p, i);
    EmitArcColumn(g, u, n, prev, col, p, i);
    EmitArcOldCell(g, u, n, prev, col, p, i, prev.toks[q]);
  }

  lemma EmitArcLinks(g: Graph, u: Utterance, n: nat, prev: Previous, col: Column, p: PairId, i: nat)
    requires g.Valid() && Emitting(g, u, n, prev, col) && CanEmit(g, u, n, prev, col, p, i)
    ensures Linked(g, u, n, prev, EmitArc(g, u, n, prev, col, p, i), p, i)
  {
    hide Graph.Valid, LinksJustified, TokensJustified, IsPair, ColumnOk, Grows, EmitArc, PreviousKept, PairArcAt;
    assert prev.toks[p] in prev.heap;
    EmitArcCosts(g, u, n, prev, col, p, i, PairArcAt(g, p, i).next);
    EmitArcOldCell(g, u, n, prev, col, p, i, prev.toks[p]);
  }

  lemma EmitArcLinksJustified(g: Graph, u: Utterance, n: nat, prev: Previous, col: Column, p: PairId, i: nat)
    requires g.Valid() && Emitting(g, u, n, prev, col) && CanEmit(g, u, n, prev, col, p, i)
    ensures LinksJustified(g, u, n, prev, EmitArc(g, u, n, prev, col, p, i))
  {
    hide Graph.Valid, TokensJustified, IsPair, ColumnOk, Grows, EmitArc, PairArcAt, EmittingArc;
    var col' := EmitArc(g, u, n, prev, col, p, i);
    EmitArcLinks(g, u, n, prev, col, p, i);
    forall q, l | q in prev.toks && prev.toks[q] in prev.heap && prev.toks[q] in col'.heap &&
                  l in col'.heap[prev.toks[q]].links && l !in prev.heap[prev.toks[q]].links
      ensures NewLink(g, u, n, prev, col', q, l)
    {
      EmitArcOldCell(g, u, n, prev, col, p, i, prev.toks[q]);
      if l in col.heap[prev.toks[q]].links {
        var j: nat :| Linked(g, u, n, prev, col, q, j) && l == EmittingLink(g, u, n, col.toks, q, j);
        LinkedStable(g, u, n, prev, col, p, i, q, j);
        SameLink(g, u, n, prev, col, p, i, q, j);
      } else {
        assert q == p;
      }
    }
  }

  lemma SameLink(g: Graph, u: Utterance, n: nat, prev: Previous, col: Column, p: PairId, i: nat, q: PairId, j: nat)
    requires g.Valid() && Emitting(g, u, n, prev, col) && CanEmit(g, u, n, prev, col, p, i)
    requires Linked(g, u, n, prev, col, q, j)
    ensures var col' := EmitArc(g, u, n, prev, col, p, i);
            PairArcAt(g, q, j).next in col'.toks && EmittingLink(g, u, n, col'.toks, q, j) == EmittingLink(g, u, n, col.toks, q, j)
  {
    hide Graph.Valid, LinksJustified, TokensJustified, ColumnOk, EmitArc, PairArcAt, PreviousKept, PreviousOk;
    EmitArcColumn(g, u, n, prev, col, p, i);
  }

  lemma EmitArcTokensJustified(g: Graph, u: Utterance, n: nat, prev: Previous, col: Column, p: PairId, i: nat)
    requires g.Valid() && Emitting(g, u, n, prev, col) && CanEmit(g, u, n, prev, col, p, i)
    ensures TokensJustified(g, u, n, prev, EmitArc(g, u, n, prev, col, p, i))
  {
    hide Graph.Valid, LinksJustified, IsPair, ColumnOk, Grows, EmitArc, PairArcAt, EmittingArc, PreviousOk,
      PreviousKept;
    var col' := EmitArc(g, u, n, prev, col, p, i);
    forall q: PairId | Has(col', q)
      ensures LinksAt(col', q) == [] && exists r, j: nat :: Supports(g, u, n, prev, col', q, r, j)
    {
      EmitArcCosts(g, u, n, prev, col, p, i, q);
      EmitArcLinks(g, u, n, prev, col, p, i);
      if Has(col, q) && CostAt(col', q) == CostAt(col, q) {
        var r, j: nat :| Supports(g, u, n, prev, col, q, r, j);
        LinkedStable(g, u, n, prev, col, p, i, r, j);
        assert Supports(g, u, n, prev, col', q, r, j);
      } else {
        assert Supports(g, u, n, prev, col', q, p, i);
      }
    }
  }

  /** One emitting arc keeps the emission going. */
  lemma EmitArcStep(g: Graph, u: Utterance, n: nat, prev: Previous, col: Column, p: PairId, i: nat)
    requires g.Valid() && Emitting(g, u, n, prev, col) && CanEmit(g, u, n, prev, col, p, i)
    ensures Emitting(g, u, n, prev, EmitArc(g, u, n, prev, col, p, i))
  {
    EmitArcColumn(g, u, n, prev, col, p, i);
    EmitArcPrevious(g, u, n, prev, col, p, i);
    EmitArcLinksJustified(g, u, n, prev, col, p, i);
    EmitArcTokensJustified(g, u, n, prev, col, p, i);
    hide *;
  }

  // ----- which extensions are taken -----

  /** Arc i of token p comes up. */
  ghost function VisitOf(g: Graph, u: Utterance, n: nat, prev: Previous, p: PairId, i: nat): Visit
    requires Candidate(g, u, n, prev, p, i)
  {
    Visit(p, i, PairArcAt(g, p, i).next, ExtensionCost(g, u, n, prev, p, i))
  }

  /** The links that token p has gained in some visits, the newest first. */
  ghost function LinksGained(g: Graph, u: Utterance, n: nat, toks: map<PairId, Addr>, order: seq<Visit>, first: Cost,
                             margin: Cost,
                             p: PairId): seq<ForwardLink> {
    if order == [] then [] else
      var front, v := order[..|order| - 1], order[|order| - 1];
      var before := LinksGained(g, u, n, toks, front, first, margin, p);
      if v.pair == p && TakenAt(order, first, margin, |order| - 1) && EmittingArc(g, u, n, p, v.arc) && PairArcAt(g, p, v.arc).next in toks
      then [EmittingLink(g, u, n, toks, p, v.arc)] + before else before
  }

  ghost predicate SupportedAt(g: Graph, u: Utterance, n: nat, prev: Previous, col: Column, order: seq<Visit>,
                              first: Cost, margin: Cost,
                              q: PairId, k: nat) {
    k < |order| && TakenAt(order, first, margin, k) && Supports(g, u, n, prev, col, q, order[k].pair, order[k].arc)
  }

  ghost predicate Gained(g: Graph, u: Utterance, n: nat, prev: Previous, col: Column, order: seq<Visit>, first: Cost,
                         margin: Cost, p: PairId) {
    && p in prev.toks && prev.toks[p] in prev.heap && prev.toks[p] in col.heap
    && col.heap[prev.toks[p]].links == LinksGained(g, u, n, col.toks, order, first, margin, p) + prev.heap[prev.toks[p]].links
  }

  /** What the visits so far have come to: an extension under the running cutoff has its link, and there are no other new links
      and no other tokens. */
  ghost predicate VisitsDone(g: Graph, u: Utterance, n: nat, prev: Previous, col: Column, order: seq<Visit>,
                             first: Cost, margin: Cost) {
    && (forall v :: v in order ==> Candidate(g, u, n, prev, v.pair, v.arc) && v == VisitOf(g, u, n, prev, v.pair, v.arc))
    && (forall k: nat :: k < |order| && TakenAt(order, first, margin, k) ==> Linked(g, u, n, prev, col, order[k].pair, order[k].arc))
    && (forall q: PairId :: Has(col, q) ==> exists k: nat :: SupportedAt(g, u, n, prev, col, order, first, margin, q, k))
    && (forall p :: p in prev.toks ==> Gained(g, u, n, prev, col, order, first, margin, p))
  }

  /** Links gained stay as they are while tokens are added. */
  lemma {:induction false} LinksGainedStable(g: Graph, u: Utterance, n: nat, toks: map<PairId, Addr>,
                                             toks': map<PairId, Addr>,
                                             order: seq<Visit>, first: Cost, margin: Cost, p: PairId)
    requires forall q :: q in toks ==> q in toks' && toks'[q] == toks[q]
    requires forall k: nat :: k < |order| && TakenAt(order, first, margin, k) && order[k].pair == p && EmittingArc(g, u, n, p, order[k].arc) ==>
      PairArcAt(g, p, order[k].arc).next in toks
    ensures LinksGained(g, u, n, toks', order, first, margin, p) == LinksGained(g, u, n, toks, order, first, margin, p)
  {
    hide PairArcAt;
    if order != [] {
      var front := order[..|order| - 1];
      forall k: nat | k < |front| && TakenAt(front, first, margin, k) && front[k].pair == p && EmittingArc(g, u, n, p, front[k].arc)
        ensures PairArcAt(g, p, front[k].arc).next in toks
      {
        assert front[..k] == order[..k] && front[k] == order[k];
      }
      LinksGainedStable(g, u, n, toks, toks', front, first, margin, p);
    }
  }

  /** One more visit, and what it adds to the links of a token. */
  lemma LinksGainedMore(g: Graph, u: Utterance, n: nat, toks: map<PairId, Addr>, order: seq<Visit>, v: Visit,
                        first: Cost, margin: Cost, p: PairId)
    ensures LinksGained(g, u, n, toks, order + [v], first, margin, p) ==
      var before := LinksGained(g, u, n, toks, order, first, margin, p);
      if v.pair == p && Fin(v.cost).Lt(CutoffAfter(order, first, margin)) && EmittingArc(g, u, n, p, v.arc) && PairArcAt(g, p, v.arc).next in toks
      then [EmittingLink(g, u, n, toks, p, v.arc)] + before else before
  {
    hide EmittingArc, PairArcAt, EmittingLink;
    assert (order + [v])[..|order|] == order;
  }

  /** A visit at or beyond the running cutoff changes nothing. */
  lemma VisitSkipped(g: Graph, u: Utterance, n: nat, prev: Previous, col: Column, order: seq<Visit>, first: Cost,
                     margin: Cost, p: PairId, i: nat)
    requires VisitsDone(g, u, n, prev, col, order, first, margin) && Candidate(g, u, n, prev, p, i)
    requires !Fin(ExtensionCost(g, u, n, prev, p, i)).Lt(CutoffAfter(order, first, margin))
    ensures VisitsDone(g, u, n, prev, col, order + [VisitOf(g, u, n, prev, p, i)], first, margin)
  {
    hide Candidate, Linked, CutoffAfter, LinksGained, EmittingArc, PairArcAt;
    var v := VisitOf(g, u, n, prev, p, i);
    var order' := order + [v];
    CutoffNow(order, v, first, margin);
    forall k: nat | k < |order|
      ensures TakenAt(order', first, margin, k) <==> TakenAt(order, first, margin, k)
    {
      TakenBefore(order, v, first, margin, k);
    }
    hide TakenAt;
    forall q: PairId | Has(col, q)
      ensures exists k: nat :: SupportedAt(g, u, n, prev, col, order', first, margin, q, k)
    {
      var k: nat :| SupportedAt(g, u, n, prev, col, order, first, margin, q, k);
      assert SupportedAt(g, u, n, prev, col, order', first, margin, q, k);
    }
    forall r | r in prev.toks
      ensures Gained(g, u, n, prev, col, order', first, margin, r)
    {
      assert Gained(g, u, n, prev, col, order, first, margin, r);
      LinksGainedMore(g, u, n, col.toks, order, v, first, margin, r);
    }
  }

  lemma TakenLeadThere(g: Graph, u: Utterance, n: nat, prev: Previous, col: Column, order: seq<Visit>, first: Cost,
                       margin: Cost, r: PairId)
    requires VisitsDone(g, u, n, prev, col, order, first, margin)
    ensures forall k: nat ::
      k < |order| && TakenAt(order, first, margin, k) && order[k].pair == r && EmittingArc(g, u, n, r, order[k].arc) ==>
        PairArcAt(g, r, order[k].arc).next in col.toks
  {
    hide TakenAt, PairArcAt, Linked, Gained, SupportedAt;
    forall k: nat | k < |order| && TakenAt(order, first, margin, k) && order[k].pair == r && EmittingArc(g, u, n, r, order[k].arc)
      ensures PairArcAt(g, r, order[k].arc).next in col.toks
    {
      LinkedToken(g, u, n, prev, col, order[k].pair, order[k].arc);
    }
  }

  /** What a taken extension leaves of the links that were there. */
  lemma TakenLinks(g: Graph, u: Utterance, n: nat, prev: Previous, col: Column, order: seq<Visit>, first: Cost,
                   margin: Cost,
                   p: PairId, i: nat, r: PairId)
    requires g.Valid() && Emitting(g, u, n, prev, col) && CanEmit(g, u, n, prev, col, p, i)
    requires VisitsDone(g, u, n, prev, col, order, first, margin) && r in prev.toks
    requires Fin(ExtensionCost(g, u, n, prev, p, i)).Lt(CutoffAfter(order, first, margin))
    ensures Gained(g, u, n, prev, EmitArc(g, u, n, prev, col, p, i), order + [VisitOf(g, u, n, prev, p, i)], first, margin, r)
  {
    hide Graph.Valid, LinksJustified, TokensJustified, IsPair, ColumnOk, EmitArc, PairArcAt, Linked, LinksGained, CutoffAfter, TakenAt,
      EmittingLink;
    var col', v := EmitArc(g, u, n, prev, col, p, i), VisitOf(g, u, n, prev, p, i);
    EmitArcColumn(g, u, n, prev, col, p, i);
    EmitArcOldCell(g, u, n, prev, col, p, i, prev.toks[r]);
    assert prev.toks[r] == prev.toks[p] ==> r == p;
    assert Gained(g, u, n, prev, col, order, first, margin, r);
    TakenLeadThere(g, u, n, prev, col, order, first, margin, r);
    LinksGainedStable(g, u, n, col.toks, col'.toks, order, first, margin, r);
    LinksGainedMore(g, u, n, col'.toks, order, v, first, margin, r);
  }

  lemma LinkedToken(g: Graph, u: Utterance, n: nat, prev: Previous, col: Column, p: PairId, i: nat)
    requires Linked(g, u, n, prev, col, p, i)
    ensures EmittingArc(g, u, n, p, i) && PairArcAt(g, p, i).next in col.toks
  {
  }

  /** A visit under the running cutoff is taken. */
  lemma VisitTaken(g: Graph, u: Utterance, n: nat, prev: Previous, col: Column, order: seq<Visit>, first: Cost,
                   margin: Cost, p: PairId, i: nat)
    requires g.Valid() && Emitting(g, u, n, prev, col) && CanEmit(g, u, n, prev, col, p, i)
    requires VisitsDone(g, u, n, prev, col, order, first, margin)
    requires Fin(ExtensionCost(g, u, n, prev, p, i)).Lt(CutoffAfter(order, first, margin))
    ensures VisitsDone(g, u, n, prev, EmitArc(g, u, n, prev, col, p, i), order + [VisitOf(g, u, n, prev, p, i)], first, margin)
  {
    hide Graph.Valid, Emitting, IsPair, ColumnOk, EmitArc, PairArcAt, Linked, CutoffAfter, Gained, EmittingArc;
    var col', v := EmitArc(g, u, n, prev, col, p, i), VisitOf(g, u, n, prev, p, i);
    var order' := order + [v];
    CutoffNow(order, v, first, margin);
    EmitArcLinks(g, u, n, prev, col, p, i);
    forall k: nat | k < |order|
      ensures TakenAt(order', first, margin, k) <==> TakenAt(order, first, margin, k)
    {
      TakenBefore(order, v, first, margin, k);
    }
    hide TakenAt;
    forall k: nat | k < |order'| && TakenAt(order', first, margin, k)
      ensures Linked(g, u, n, prev, col', order'[k].pair, order'[k].arc)
    {
      if k < |order| {
        LinkedStable(g, u, n, prev, col, p, i, order[k].pair, order[k].arc);
      }
    }
    forall q: PairId | Has(col', q)
      ensures exists k: nat :: SupportedAt(g, u, n, prev, col', order', first, margin, q, k)
    {
      TakenSupports(g, u, n, prev, col, order, first, margin, p, i, q);
    }
    forall r | r in prev.toks
      ensures Gained(g, u, n, prev, col', order', first, margin, r)
    {
      TakenLinks(g, u, n, prev, col, order, first, margin, p, i, r);
    }
  }

  lemma TakenSupports(g: Graph, u: Utterance, n: nat, prev: Previous, col: Column, order: seq<Visit>, first: Cost,
                      margin: Cost,
                      p: PairId, i: nat, q: PairId)
    requires g.Valid() && Emitting(g, u, n, prev, col) && CanEmit(g, u, n, prev, col, p, i)
    requires VisitsDone(g, u, n, prev, col, order, first, margin)
    requires Fin(ExtensionCost(g, u, n, prev, p, i)).Lt(CutoffAfter(order, first, margin)) && Has(EmitArc(g, u, n, prev, col, p, i), q)
    ensures exists k: nat :: SupportedAt(g, u, n, prev, EmitArc(g, u, n, prev, col, p, i), order + [VisitOf(g, u, n, prev, p, i)], first, margin, q, k)
  {
    hide Graph.Valid, Emitting, IsPair, ColumnOk, EmitArc, PairArcAt, CutoffAfter, Gained, EmittingArc;
    var col', v := EmitArc(g, u, n, prev, col, p, i), VisitOf(g, u, n, prev, p, i);
    var order' := order + [v];
    CutoffNow(order, v, first, margin);
    EmitArcLinks(g, u, n, prev, col, p, i);
    EmitArcCosts(g, u, n, prev, col, p, i, q);
    if Has(col, q) && CostAt(col', q) == CostAt(col, q) {
      var k: nat :| SupportedAt(g, u, n, prev, col, order, first, margin, q, k);
      TakenBefore(order, v, first, margin, k);
      LinkedStable(g, u, n, prev, col, p, i, order[k].pair, order[k].arc);
      assert SupportedAt(g, u, n, prev, col', order', first, margin, q, k);
    } else {
      assert SupportedAt(g, u, n, prev, col', order', first, margin, q, |order|);
    }
  }

  lemma LeftTokenCost(g: Graph, u: Utterance, n: nat, prev: Previous, col: Column, p: PairId)
    requires Emitting(g, u, n, prev, col) && p in prev.toks
    ensures ColumnOk(g, col) && IsPair(g, p) && prev.toks[p] in prev.heap && prev.toks[p] in col.heap
    ensures col.heap[prev.toks[p]].totCost == prev.heap[prev.toks[p]].totCost
  {
  }

  /** An empty new column. */
  lemma EmissionStarts(g: Graph, u: Utterance, n: nat, prev: Previous, col0: Column, first: Cost, margin: Cost)
    requires col0.heap == prev.heap && col0.toks == map[] && col0.list == []
    requires forall p :: p in prev.toks ==> IsPair(g, p) && prev.toks[p] in prev.heap && prev.toks[p] in col0.pairOf && col0.pairOf[prev.toks[p]] == p
    requires (forall a :: a in prev.heap ==> a < col0.next) && (forall a :: a in col0.pairOf ==> a < col0.next)
    ensures Emitting(g, u, n, prev, col0) && Grows(col0, col0) && VisitsDone(g, u, n, prev, col0, [], first, margin)
  {
  }

  ghost predicate CheapestBound(g: Graph, u: Utterance, n: nat, prev: Previous, m: int) {
    forall p, i: nat :: Candidate(g, u, n, prev, p, i) ==> m <= ExtensionCost(g, u, n, prev, p, i)
  }

  /** The cheapest of finitely many extensions. */
  lemma CheapestExists(g: Graph, u: Utterance, n: nat, prev: Previous, p0: PairId, i0: nat)
    returns (p: PairId, i: nat)
    requires g.Valid() && Candidate(g, u, n, prev, p0, i0)
    ensures Candidate(g, u, n, prev, p, i) && CheapestBound(g, u, n, prev, ExtensionCost(g, u, n, prev, p, i))
  {
    var all := map q, j: nat | q in prev.toks && IsPair(g, q) && 0 <= j < ArcCount(g, q) && Candidate(g, u, n, prev, q, j)
      :: (q, j) := ExtensionCost(g, u, n, prev, q, j);
    assert (p0, i0) in all;
    var least := LeastEntry(all);
    p, i := least.0, least.1;
    forall q: PairId, j: nat | Candidate(g, u, n, prev, q, j)
      ensures ExtensionCost(g, u, n, prev, p, i) <= ExtensionCost(g, u, n, prev, q, j)
    {
      assert (q, j) in all;
    }
  }

  lemma {:induction false} LeastEntry<T>(costs: map<T, int>) returns (least: T)
    requires costs != map[]
    ensures least in costs && forall j :: j in costs ==> costs[least] <= costs[j]
    decreases |costs|
  {
    var k :| k in costs;
    least := k;
    var rest := costs - {k};
    assert forall j :: j in costs ==> j == k || j in rest;
    if rest != map[] {
      assert |rest| < |costs| by { assert rest.Keys < costs.Keys; LessKeys(rest, costs); }
      least := LeastEntry(rest);
      if costs[k] < costs[least] {
        least := k;
      }
    }
  }

  lemma LessKeys<T>(a: map<T, int>, b: map<T, int>)
    requires a.Keys < b.Keys
    ensures |a| < |b|
  {
    assert b.Keys == a.Keys + (b.Keys - a.Keys);
    assert |a.Keys| == |a| && |b.Keys| == |b|;
  }
}
