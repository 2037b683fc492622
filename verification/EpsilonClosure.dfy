/** Relaxation of epsilon arcs inside one frame. */
module EpsilonClosure {
  import opened Basics
  import opened Composition
  import opened Costs
  import opened Lattice
  import opened TokenColumn
  import opened BeamSearch

  // ----- what the relaxation computes -----

  ghost function EpsilonLink(g: Graph, toks: map<PairId, Addr>, p: PairId, i: nat): ForwardLink
    requires EpsilonArc(g, p, i) && PairArcAt(g, p, i).next in toks
  {
    var arc := PairArcAt(g, p, i);
    ForwardLink(toks[arc.next], 0, arc.olabel, arc.weight.value, 0)
  }

  /** Links for the first k arcs, the newest first. */
  ghost function EpsilonLinks(g: Graph, toks: map<PairId, Addr>, p: PairId, cost: int, cutoff: Cost,
                              k: nat): seq<ForwardLink> {
    if k == 0 then [] else
      var rest := EpsilonLinks(g, toks, p, cost, cutoff, k - 1);
      if Affordable(g, p, cost, cutoff, k - 1) && PairArcAt(g, p, k - 1).next in toks
      then [EpsilonLink(g, toks, p, k - 1)] + rest else rest
  }

  /** The first k arcs of p have been followed: their ends are there, at no more than
      the cost through p, and p has exactly the links for them. */
  ghost predicate Followed(g: Graph, col: Column, cutoff: Cost, p: PairId, k: nat)
    requires Has(col, p)
  {
    && LinksAt(col, p) == EpsilonLinks(g, col.toks, p, CostAt(col, p), cutoff, k)
    && forall i: nat :: i < k && Affordable(g, p, CostAt(col, p), cutoff, i) ==>
      Has(col, PairArcAt(g, p, i).next) &&
      CostAt(col, PairArcAt(g, p, i).next) <= CostAt(col, p) + PairArcAt(g, p, i).weight.value
  }

  /** A token under the cutoff has been followed in full; any other has no link. */
  ghost predicate Relaxed(g: Graph, col: Column, cutoff: Cost, p: PairId)
    requires Has(col, p)
  {
    IsPair(g, p) &&
    if Fin(CostAt(col, p)).Lt(cutoff) then Followed(g, col, cutoff, p, ArcCount(g, p)) else LinksAt(col, p) == []
  }

  /** Every token that does not wait in the queue, and is not busy, is relaxed. */
  ghost predicate RelaxedBut(g: Graph, col: Column, cutoff: Cost, queue: seq<PairId>, busy: set<PairId>) {
    forall p :: Has(col, p) && p !in queue && p !in busy ==> Relaxed(g, col, cutoff, p)
  }

  ghost predicate Attained(g: Graph, entry: map<PairId, int>, cutoff: Cost, col: Column) {
    forall p: PairId :: Has(col, p) ==> exists path :: EpsilonTrace(g, entry, cutoff, path) == Some((p, CostAt(col, p)))
  }

  ghost predicate EntryKept(entry: map<PairId, int>, col: Column) {
    forall p :: p in entry ==> Has(col, p) && CostAt(col, p) <= entry[p]
  }

  // ----- exactness at the end -----

  /** With an empty queue, no epsilon path under the cutoff beats a token. */
  lemma {:induction false} NoBetterPath(g: Graph, entry: map<PairId, int>, cutoff: Cost, col: Column, path: Path)
    requires RelaxedBut(g, col, cutoff, [], {}) && EntryKept(entry, col)
    ensures match EpsilonTrace(g, entry, cutoff, path)
            case None => true
            case Some((p, cost)) => Has(col, p) && CostAt(col, p) <= cost
  {
    match path
    case From(_) =>
    case Snoc(prefix, i) =>
      NoBetterPath(g, entry, cutoff, col, prefix);
      match EpsilonTrace(g, entry, cutoff, prefix)
      case None =>
      case Some((p, cost)) =>
        if Fin(cost).Lt(cutoff) && Affordable(g, p, cost, cutoff, i) {
          assert Relaxed(g, col, cutoff, p);
          assert Affordable(g, p, CostAt(col, p), cutoff, i);
        }
  }

  // ----- one arc -----

  /** Following arc i of p, which costs w, in column col. */
  ghost function FollowArc(g: Graph, col: Column, p: PairId, i: nat, cost: int): Column
    requires EpsilonArc(g, p, i) && Has(col, p)
  {
    var next := PairArcAt(g, p, i).next;
    var col' := FindOrAdd(col, next, cost + PairArcAt(g, p, i).weight.value);
    AddLink(col', col'.toks[p], EpsilonLink(g, col'.toks, p, i))
  }

  ghost function FollowQueue(g: Graph, col: Column, queue: seq<PairId>, p: PairId, i: nat, cost: int): seq<PairId>
    requires EpsilonArc(g, p, i)
  {
    var next := PairArcAt(g, p, i).next;
    if IsNewOrBetter(col, next, cost + PairArcAt(g, p, i).weight.value) then queue + [next] else queue
  }

  lemma {:induction false} LinksStable(g: Graph, toks: map<PairId, Addr>, toks': map<PairId, Addr>, p: PairId,
                                       cost: int, cutoff: Cost, k: nat)
    requires forall q :: q in toks ==> q in toks' && toks'[q] == toks[q]
    requires forall i: nat :: i < k && Affordable(g, p, cost, cutoff, i) ==> PairArcAt(g, p, i).next in toks
    ensures EpsilonLinks(g, toks', p, cost, cutoff, k) == EpsilonLinks(g, toks, p, cost, cutoff, k)
  {
    if k > 0 {
      LinksStable(g, toks, toks', p, cost, cutoff, k - 1);
    }
  }

  /** Growth elsewhere leaves a followed token followed. */
  lemma FollowedStable(g: Graph, col: Column, col': Column, cutoff: Cost, p: PairId, k: nat)
    requires Has(col, p) && Followed(g, col, cutoff, p, k) && Grows(col, col')
    requires CostAt(col', p) == CostAt(col, p) && LinksAt(col', p) == LinksAt(col, p)
    ensures Followed(g, col', cutoff, p, k)
  {
    LinksStable(g, col.toks, col'.toks, p, CostAt(col, p), cutoff, k);
    forall i: nat | i < k && Affordable(g, p, CostAt(col', p), cutoff, i)
      ensures Has(col', PairArcAt(g, p, i).next)
      ensures CostAt(col', PairArcAt(g, p, i).next) <= CostAt(col', p) + PairArcAt(g, p, i).weight.value
    {
      assert Affordable(g, p, CostAt(col, p), cutoff, i);
    }
  }

  lemma RelaxedStable(g: Graph, col: Column, col': Column, cutoff: Cost, p: PairId)
    requires Has(col, p) && Relaxed(g, col, cutoff, p) && Grows(col, col')
    requires CostAt(col', p) == CostAt(col, p) && LinksAt(col', p) == LinksAt(col, p)
    ensures Relaxed(g, col', cutoff, p)
  {
    if Fin(CostAt(col, p)).Lt(cutoff) {
      FollowedStable(g, col, col', cutoff, p, ArcCount(g, p));
    }
  }

  /** The potentials rule out a negative loop at p, so p's own cost stays put. */
  lemma FollowKeepsOwnCost(g: Graph, h: map<PairId, int>, col: Column, p: PairId, i: nat)
    requires g.Valid() && Feasible(g, h) && ColumnOk(g, col) && Has(col, p) && EpsilonArc(g, p, i)
    ensures var col' := FindOrAdd(col, PairArcAt(g, p, i).next, CostAt(col, p) + PairArcAt(g, p, i).weight.value);
            Has(col', p) && CostAt(col', p) == CostAt(col, p) && LinksAt(col', p) == LinksAt(col, p)
  {
    var next := PairArcAt(g, p, i).next;
    PairArcStays(g, p, i);
    FindOrAddFrame(g, col, next, CostAt(col, p) + PairArcAt(g, p, i).weight.value, p);
    if next == p {
      assert h[p] <= PairArcAt(g, p, i).weight.value + h[p];
    }
  }

  lemma FollowArcGrows(g: Graph, h: map<PairId, int>, col: Column, p: PairId, i: nat)
    requires g.Valid() && Feasible(g, h) && ColumnOk(g, col) && Has(col, p) && EpsilonArc(g, p, i)
    ensures ColumnOk(g, FollowArc(g, col, p, i, CostAt(col, p))) && Grows(col, FollowArc(g, col, p, i, CostAt(col, p)))
  {
    hide ColumnOk, Grows, Feasible, PairArcAt, IsPair, Graph.Valid, FindOrAdd;
    var next := PairArcAt(g, p, i).next;
    var cost := CostAt(col, p) + PairArcAt(g, p, i).weight.value;
    var col1 := FindOrAdd(col, next, cost);
    PairArcStays(g, p, i);
    FindOrAddOk(g, col, next, cost);
    FindOrAddGrows(g, col, next, cost);
    FollowKeepsOwnCost(g, h, col, p, i);
    var links := [EpsilonLink(g, col1.toks, p, i)] + LinksAt(col, p);
    SetLinksOk(g, col1, col1.toks[p], links);
    GrowsTransitive(col, col1, SetLinks(col1, col1.toks[p], links));
  }

  lemma FollowArcCosts(g: Graph, h: map<PairId, int>, col: Column, p: PairId, i: nat)
    requires g.Valid() && Feasible(g, h) && ColumnOk(g, col) && Has(col, p) && EpsilonArc(g, p, i)
    ensures var col' := FollowArc(g, col, p, i, CostAt(col, p));
            var next := PairArcAt(g, p, i).next;
            var cost := CostAt(col, p) + PairArcAt(g, p, i).weight.value;
            && Has(col', p) && Has(col', next) && IsPair(g, next)
            && CostAt(col', p) == CostAt(col, p)
            && CostAt(col', next) == (if IsNewOrBetter(col, next, cost) then cost else CostAt(col, next))
            && LinksAt(col', p) == [EpsilonLink(g, col'.toks, p, i)] + LinksAt(col, p)
            && col'.toks.Keys == col.toks.Keys + {next}
  {
    hide ColumnOk, Feasible, PairArcAt, IsPair, Graph.Valid, FindOrAdd;
    var next := PairArcAt(g, p, i).next;
    var cost := CostAt(col, p) + PairArcAt(g, p, i).weight.value;
    var col1 := FindOrAdd(col, next, cost);
    PairArcStays(g, p, i);
    FindOrAddOk(g, col, next, cost);
    FollowKeepsOwnCost(g, h, col, p, i);
    var links := [EpsilonLink(g, col1.toks, p, i)] + LinksAt(col, p);
    SetLinksFrame(col1, col1.toks[p], links, p);
    SetLinksFrame(col1, col1.toks[p], links, next);
  }

  /** Shape, growth and costs of the column after one arc. */
  lemma FollowArcOk(g: Graph, h: map<PairId, int>, col: Column, p: PairId, i: nat)
    requires g.Valid() && Feasible(g, h) && ColumnOk(g, col) && Has(col, p) && EpsilonArc(g, p, i)
    ensures var col' := FollowArc(g, col, p, i, CostAt(col, p));
            var next := PairArcAt(g, p, i).next;
            var cost := CostAt(col, p) + PairArcAt(g, p, i).weight.value;
            && ColumnOk(g, col') && Grows(col, col') && Has(col', p) && Has(col', next) && IsPair(g, next)
            && CostAt(col', p) == CostAt(col, p)
            && CostAt(col', next) == (if IsNewOrBetter(col, next, cost) then cost else CostAt(col, next))
            && LinksAt(col', p) == [EpsilonLink(g, col'.toks, p, i)] + LinksAt(col, p)
            && col'.toks.Keys == col.toks.Keys + {next}
  {
    hide *;
    FollowArcGrows(g, h, col, p, i);
    FollowArcCosts(g, h, col, p, i);
  }

  /** Tokens other than p and the arc's end are untouched. */
  lemma FollowArcFrame(g: Graph, h: map<PairId, int>, col: Column, p: PairId, i: nat, q: PairId)
    requires g.Valid() && Feasible(g, h) && ColumnOk(g, col) && Has(col, p) && EpsilonArc(g, p, i)
    requires Has(col, q) && q != p
    ensures var col' := FollowArc(g, col, p, i, CostAt(col, p));
            && Has(col', q) && LinksAt(col', q) == LinksAt(col, q)
            && (q != PairArcAt(g, p, i).next
                || !IsNewOrBetter(col, q, CostAt(col, p) + PairArcAt(g, p, i).weight.value)
                ==> CostAt(col', q) == CostAt(col, q))
  {
    hide ColumnOk, Grows, Feasible, PairArcAt, IsPair, Graph.Valid, FindOrAdd;
    var next := PairArcAt(g, p, i).next;
    var cost := CostAt(col, p) + PairArcAt(g, p, i).weight.value;
    var col1 := FindOrAdd(col, next, cost);
    PairArcStays(g, p, i);
    FindOrAddOk(g, col, next, cost);
    FindOrAddFrame(g, col, next, cost, q);
    FollowKeepsOwnCost(g, h, col, p, i);
    ColumnApart(g, col1, p, q);
    SetLinksFrame(col1, col1.toks[p], [EpsilonLink(g, col1.toks, p, i)] + LinksAt(col, p), q);
  }

  lemma FollowArcFollows(g: Graph, h: map<PairId, int>, col: Column, cutoff: Cost, p: PairId, i: nat)
    requires g.Valid() && Feasible(g, h) && ColumnOk(g, col) && Has(col, p)
    requires Affordable(g, p, CostAt(col, p), cutoff, i) && Followed(g, col, cutoff, p, i)
    ensures var col' := FollowArc(g, col, p, i, CostAt(col, p));
            Has(col', p) && Followed(g, col', cutoff, p, i + 1)
  {
    hide ColumnOk, Feasible, PairArcAt, IsPair, Graph.Valid, FollowArc;
    var col' := FollowArc(g, col, p, i, CostAt(col, p));
    FollowArcOk(g, h, col, p, i);
    LinksStable(g, col.toks, col'.toks, p, CostAt(col, p), cutoff, i);
    forall j: nat | j < i + 1 && Affordable(g, p, CostAt(col', p), cutoff, j)
      ensures Has(col', PairArcAt(g, p, j).next)
      ensures CostAt(col', PairArcAt(g, p, j).next) <= CostAt(col', p) + PairArcAt(g, p, j).weight.value
    {
      if j < i {
        assert Affordable(g, p, CostAt(col, p), cutoff, j);
      }
    }
  }

  lemma FollowArcRelaxed(g: Graph, h: map<PairId, int>, col: Column, cutoff: Cost, queue: seq<PairId>, p: PairId,
                         i: nat)
    requires g.Valid() && Feasible(g, h) && ColumnOk(g, col) && Has(col, p) && EpsilonArc(g, p, i)
    requires RelaxedBut(g, col, cutoff, queue, {p})
    ensures RelaxedBut(g, FollowArc(g, col, p, i, CostAt(col, p)), cutoff,
                       FollowQueue(g, col, queue, p, i, CostAt(col, p)), {p})
  {
    var col' := FollowArc(g, col, p, i, CostAt(col, p));
    var queue' := FollowQueue(g, col, queue, p, i, CostAt(col, p));
    FollowArcOk(g, h, col, p, i);
    forall q | Has(col', q) && q !in queue' && q !in {p}
      ensures Relaxed(g, col', cutoff, q)
    {
      FollowArcFrame(g, h, col, p, i, q);
      RelaxedStable(g, col, col', cutoff, q);
    }
  }

  lemma FollowArcAttained(g: Graph, h: map<PairId, int>, entry: map<PairId, int>, cutoff: Cost, col: Column,
                          p: PairId, i: nat)
    requires g.Valid() && Feasible(g, h) && ColumnOk(g, col) && Has(col, p)
    requires Fin(CostAt(col, p)).Lt(cutoff) && Affordable(g, p, CostAt(col, p), cutoff, i)
    requires Attained(g, entry, cutoff, col)
    ensures Attained(g, entry, cutoff, FollowArc(g, col, p, i, CostAt(col, p)))
  {
    hide ColumnOk, Grows, Feasible, PairArcAt, IsPair, Graph.Valid, FollowArc;
    var col' := FollowArc(g, col, p, i, CostAt(col, p));
    var next := PairArcAt(g, p, i).next;
    FollowArcOk(g, h, col, p, i);
    ColumnHas(g, col);
    var path :| EpsilonTrace(g, entry, cutoff, path) == Some((p, CostAt(col, p)));
    forall q | Has(col', q)
      ensures exists path :: EpsilonTrace(g, entry, cutoff, path) == Some((q, CostAt(col', q)))
    {
      if q == next && IsNewOrBetter(col, next, CostAt(col, p) + PairArcAt(g, p, i).weight.value) {
        assert EpsilonTrace(g, entry, cutoff, Snoc(path, i)) == Some((q, CostAt(col', q)));
      } else if q != p {
        FollowArcFrame(g, h, col, p, i, q);
      }
    }
  }

  // ----- termination -----

  /** No token costs less than the potentials allow. */
  ghost predicate BoundedBelow(col: Column, h: map<PairId, int>, lo: int) {
    forall p :: Has(col, p) && p in h ==> lo <= CostAt(col, p) + h[p]
  }

  /** Costs to which tokens could still fall. */
  ghost function Improvable(col: Column, h: map<PairId, int>, lo: int): set<(PairId, int)> {
    set p, x: int | p in col.toks && p in h && Has(col, p) && lo - h[p] <= x < CostAt(col, p) :: (p, x)
  }

  ghost function Unseen(g: Graph, col: Column): set<PairId> {
    AllPairs(g) - col.toks.Keys
  }

  /** Either nothing was queued, or a pair was seen for the first time, or a cost fell. */
  ghost predicate Progress(g: Graph, h: map<PairId, int>, lo: int, col0: Column, queue0: seq<PairId>, col: Column,
                           queue: seq<PairId>) {
    || Unseen(g, col) < Unseen(g, col0)
    || (Unseen(g, col) == Unseen(g, col0) && Improvable(col, h, lo) < Improvable(col0, h, lo))
    || (Unseen(g, col) == Unseen(g, col0) && Improvable(col, h, lo) == Improvable(col0, h, lo) && queue == queue0)
  }

  lemma ProgressTransitive(g: Graph, h: map<PairId, int>, lo: int, col0: Column, queue0: seq<PairId>,
                           col1: Column, queue1: seq<PairId>, col2: Column, queue2: seq<PairId>)
    requires Progress(g, h, lo, col0, queue0, col1, queue1) && Progress(g, h, lo, col1, queue1, col2, queue2)
    ensures Progress(g, h, lo, col0, queue0, col2, queue2)
  {
    hide Unseen, Improvable;
  }

  lemma FollowArcBounded(g: Graph, h: map<PairId, int>, lo: int, col: Column, p: PairId, i: nat)
    requires g.Valid() && Feasible(g, h) && ColumnOk(g, col) && Has(col, p) && EpsilonArc(g, p, i)
    requires BoundedBelow(col, h, lo)
    ensures BoundedBelow(FollowArc(g, col, p, i, CostAt(col, p)), h, lo)
  {
    hide ColumnOk, Grows, PairArcAt, Graph.Valid, FollowArc;
    var col' := FollowArc(g, col, p, i, CostAt(col, p));
    var next := PairArcAt(g, p, i).next;
    FollowArcCosts(g, h, col, p, i);
    FollowArcGrows(g, h, col, p, i);
    ColumnHas(g, col);
    ColumnHas(g, col');
    forall q | Has(col', q) && q in h
      ensures lo <= CostAt(col', q) + h[q]
    {
      if q != next && q != p {
        FollowArcFrame(g, h, col, p, i, q);
      }
    }
  }

  lemma FollowArcProgress(g: Graph, h: map<PairId, int>, lo: int, col: Column, queue: seq<PairId>, p: PairId, i: nat)
    requires g.Valid() && Feasible(g, h) && ColumnOk(g, col) && Has(col, p) && EpsilonArc(g, p, i)
    requires BoundedBelow(col, h, lo)
    ensures Progress(g, h, lo, col, queue, FollowArc(g, col, p, i, CostAt(col, p)),
                     FollowQueue(g, col, queue, p, i, CostAt(col, p)))
  {
    hide ColumnOk, Grows, PairArcAt, Graph.Valid, FollowArc, AllPairs;
    var col' := FollowArc(g, col, p, i, CostAt(col, p));
    var next := PairArcAt(g, p, i).next;
    FollowArcCosts(g, h, col, p, i);
    FollowArcGrows(g, h, col, p, i);
    ColumnHas(g, col);
    ColumnHas(g, col');
    if !Has(col, next) {
      assert next in Unseen(g, col);
    } else {
      assert col'.toks.Keys == col.toks.Keys;
      forall q | q in col.toks && q != next
        ensures CostAt(col', q) == CostAt(col, q)
      {
        if q != p {
          FollowArcFrame(g, h, col, p, i, q);
        }
      }
      FollowArcBounded(g, h, lo, col, p, i);
      ImprovableFalls(col, col', h, lo, next);
    }
  }

  lemma ImprovableFalls(col: Column, col': Column, h: map<PairId, int>, lo: int, next: PairId)
    requires col'.toks.Keys == col.toks.Keys && next in h && BoundedBelow(col', h, lo)
    requires forall q :: q in col.toks ==> Has(col, q) && Has(col', q) && (q != next ==> CostAt(col', q) == CostAt(col, q))
    requires next in col.toks && CostAt(col', next) <= CostAt(col, next)
    ensures CostAt(col', next) < CostAt(col, next) ==> Improvable(col', h, lo) < Improvable(col, h, lo)
    ensures CostAt(col', next) == CostAt(col, next) ==> Improvable(col', h, lo) == Improvable(col, h, lo)
  {
    if CostAt(col', next) < CostAt(col, next) {
      assert (next, CostAt(col', next)) in Improvable(col, h, lo);
      assert (next, CostAt(col', next)) !in Improvable(col', h, lo);
    }
  }

  // ----- the state of the relaxation -----

  /** Tokens at or above the cutoff are never expanded. */
  ghost predicate Idle(col: Column, cutoff: Cost) {
    forall p: PairId :: Has(col, p) && !Fin(CostAt(col, p)).Lt(cutoff) ==> LinksAt(col, p) == []
  }

  /** Heap cells that do not belong to the column keep their contents. */
  ghost predicate OutsideKept(col0: Column, col: Column) {
    forall a :: a in col0.heap && a !in col.list ==> a in col.heap && col.heap[a] == col0.heap[a]
  }

  ghost function EntryCosts(col0: Column): map<PairId, int> {
    map p | p in col0.toks && Has(col0, p) :: CostAt(col0, p)
  }

  ghost predicate Relaxing(g: Graph, h: map<PairId, int>, cutoff: Cost, lo: int, col0: Column,
                           col: Column, queue: seq<PairId>, busy: set<PairId>) {
    && ColumnOk(g, col) && Grows(col0, col) && OutsideKept(col0, col)
    && (forall p :: p in queue ==> Has(col, p))
    && RelaxedBut(g, col, cutoff, queue, busy)
    && Attained(g, EntryCosts(col0), cutoff, col)
    && BoundedBelow(col, h, lo)
    && Idle(col, cutoff)
  }

  lemma FollowArcIdle(g: Graph, h: map<PairId, int>, cutoff: Cost, col: Column, p: PairId, i: nat)
    requires g.Valid() && Feasible(g, h) && ColumnOk(g, col) && Has(col, p) && EpsilonArc(g, p, i)
    requires Fin(CostAt(col, p)).Lt(cutoff) && Idle(col, cutoff)
    ensures Idle(FollowArc(g, col, p, i, CostAt(col, p)), cutoff)
  {
    hide PairArcAt, Graph.Valid, FollowArc;
    var col' := FollowArc(g, col, p, i, CostAt(col, p));
    FollowArcCosts(g, h, col, p, i);
    FollowArcGrows(g, h, col, p, i);
    ColumnHas(g, col);
    ColumnHas(g, col');
    forall q: PairId | Has(col', q) && !Fin(CostAt(col', q)).Lt(cutoff)
      ensures LinksAt(col', q) == []
    {
      if Has(col, q) {
        FollowArcFrame(g, h, col, p, i, q);
      } else {
        FollowArcNewToken(g, h, col, p, i);
      }
    }
  }

  lemma FollowArcNewToken(g: Graph, h: map<PairId, int>, col: Column, p: PairId, i: nat)
    requires g.Valid() && Feasible(g, h) && ColumnOk(g, col) && Has(col, p) && EpsilonArc(g, p, i)
    requires !Has(col, PairArcAt(g, p, i).next)
    ensures var col' := FollowArc(g, col, p, i, CostAt(col, p));
            Has(col', PairArcAt(g, p, i).next) && LinksAt(col', PairArcAt(g, p, i).next) == []
  {
    hide PairArcAt, Graph.Valid;
  }

  lemma FollowArcOutside(g: Graph, h: map<PairId, int>, col0: Column, col: Column, p: PairId, i: nat)
    requires g.Valid() && Feasible(g, h) && ColumnOk(g, col) && Has(col, p) && EpsilonArc(g, p, i)
    requires Grows(col0, col) && OutsideKept(col0, col)
    ensures OutsideKept(col0, FollowArc(g, col, p, i, CostAt(col, p)))
  {
    hide PairArcAt, Graph.Valid, Feasible;
  }

  /** One affordable arc keeps the relaxation going. */
  lemma FollowArcStep(g: Graph, h: map<PairId, int>, cutoff: Cost, lo: int, col0: Column,
                      col: Column, queue: seq<PairId>, p: PairId, i: nat)
    requires g.Valid() && Feasible(g, h) && Relaxing(g, h, cutoff, lo, col0, col, queue, {p})
    requires Has(col, p) && Fin(CostAt(col, p)).Lt(cutoff) && Affordable(g, p, CostAt(col, p), cutoff, i)
    requires Followed(g, col, cutoff, p, i)
    ensures var col' := FollowArc(g, col, p, i, CostAt(col, p));
            var queue' := FollowQueue(g, col, queue, p, i, CostAt(col, p));
            && Relaxing(g, h, cutoff, lo, col0, col', queue', {p})
            && Has(col', p) && CostAt(col', p) == CostAt(col, p) && Followed(g, col', cutoff, p, i + 1)
            && Progress(g, h, lo, col, queue, col', queue')
  {
    hide ColumnOk, Grows, OutsideKept, RelaxedBut, Attained, BoundedBelow, Idle, Followed, PairArcAt, Graph.Valid,
      FollowArc,
      Feasible, Progress;
    var col' := FollowArc(g, col, p, i, CostAt(col, p));
    FollowArcGrows(g, h, col, p, i);
    FollowArcCosts(g, h, col, p, i);
    GrowsTransitive(col0, col, col');
    FollowArcOutside(g, h, col0, col, p, i);
    FollowArcRelaxed(g, h, col, cutoff, queue, p, i);
    FollowArcAttained(g, h, EntryCosts(col0), cutoff, col, p, i);
    FollowArcBounded(g, h, lo, col, p, i);
    FollowArcIdle(g, h, cutoff, col, p, i);
    FollowArcFollows(g, h, col, cutoff, p, i);
    FollowArcProgress(g, h, lo, col, queue, p, i);
    GrowsHas(col, col');
  }

  lemma GrowsHas(col: Column, col': Column)
    requires Grows(col, col')
    ensures forall p :: Has(col, p) ==> Has(col', p)
  {
  }

  /** An arc that is not affordable needs no link. */
  lemma SkipArc(g: Graph, col: Column, cutoff: Cost, p: PairId, i: nat)
    requires Has(col, p) && Followed(g, col, cutoff, p, i) && !Affordable(g, p, CostAt(col, p), cutoff, i)
    ensures Followed(g, col, cutoff, p, i + 1)
  {
  }

  /** Taking a token off the queue; its stale links go if it is about to be followed. */
  lemma Dequeue(g: Graph, h: map<PairId, int>, cutoff: Cost, lo: int, col0: Column,
                col: Column, queue: seq<PairId>, p: PairId)
    requires Relaxing(g, h, cutoff, lo, col0, col, queue + [p], {})
    ensures Has(col, p) && IsPair(g, p)
    ensures Fin(CostAt(col, p)).Lt(cutoff) ==>
              var col' := SetLinks(col, col.toks[p], []);
              && Relaxing(g, h, cutoff, lo, col0, col', queue, {p})
              && Has(col', p) && CostAt(col', p) == CostAt(col, p) && Followed(g, col', cutoff, p, 0)
              && Progress(g, h, lo, col, queue, col', queue)
    ensures !Fin(CostAt(col, p)).Lt(cutoff) ==> Relaxing(g, h, cutoff, lo, col0, col, queue, {})
  {
    assert p in queue + [p];
    if Fin(CostAt(col, p)).Lt(cutoff) {
      DequeueLive(g, h, cutoff, lo, col0, col, queue, p);
    } else {
      hide Grows, OutsideKept, Attained, BoundedBelow;
    }
  }

  lemma DequeueLive(g: Graph, h: map<PairId, int>, cutoff: Cost, lo: int, col0: Column,
                    col: Column, queue: seq<PairId>, p: PairId)
    requires Relaxing(g, h, cutoff, lo, col0, col, queue + [p], {}) && Has(col, p) && Fin(CostAt(col, p)).Lt(cutoff)
    ensures var col' := SetLinks(col, col.toks[p], []);
            && Relaxing(g, h, cutoff, lo, col0, col', queue, {p})
            && Has(col', p) && CostAt(col', p) == CostAt(col, p) && Followed(g, col', cutoff, p, 0)
            && Progress(g, h, lo, col, queue, col', queue)
  {
    var col' := SetLinks(col, col.toks[p], []);
    SetLinksOk(g, col, col.toks[p], []);
    GrowsTransitive(col0, col, col');
    ClearedRelaxed(g, h, cutoff, lo, col, queue, p);
    SetLinksOutside(g, col0, col, p, []);
    SameCostsKept(g, h, cutoff, lo, EntryCosts(col0), col, col');
    hide Grows, ColumnOk, Unseen, Improvable, OutsideKept, Attained, BoundedBelow, Idle, SetLinks, RelaxedBut;
  }

  lemma SetLinksOutside(g: Graph, col0: Column, col: Column, p: PairId, ls: seq<ForwardLink>)
    requires ColumnOk(g, col) && OutsideKept(col0, col) && Has(col, p)
    ensures OutsideKept(col0, SetLinks(col, col.toks[p], ls))
  {
  }

  /** What depends only on costs, and on idle tokens having no links. */
  lemma SameCostsKept(g: Graph, h: map<PairId, int>, cutoff: Cost, lo: int, entry: map<PairId, int>, col: Column,
                      col': Column)
    requires Attained(g, entry, cutoff, col) && BoundedBelow(col, h, lo) && Idle(col, cutoff)
    requires forall q: PairId :: Has(col', q) <==> Has(col, q)
    requires forall q: PairId :: Has(col, q) ==> CostAt(col', q) == CostAt(col, q) && LinksAt(col', q) in [[], LinksAt(col, q)]
    ensures Attained(g, entry, cutoff, col') && BoundedBelow(col', h, lo) && Idle(col', cutoff)
  {
    hide Has, CostAt, LinksAt, EpsilonTrace;
  }

  lemma ClearedRelaxed(g: Graph, h: map<PairId, int>, cutoff: Cost, lo: int, col: Column, queue: seq<PairId>, p: PairId)
    requires ColumnOk(g, col) && Has(col, p) && RelaxedBut(g, col, cutoff, queue + [p], {})
    ensures var col' := SetLinks(col, col.toks[p], []);
            && RelaxedBut(g, col', cutoff, queue, {p})
            && Unseen(g, col') == Unseen(g, col) && Improvable(col', h, lo) == Improvable(col, h, lo)
            && (forall q: PairId :: Has(col', q) <==> Has(col, q))
            && (forall q: PairId :: Has(col, q) ==> CostAt(col', q) == CostAt(col, q))
            && (forall q: PairId :: Has(col, q) ==> LinksAt(col', q) == (if q == p then [] else LinksAt(col, q)))
  {
    hide Relaxed, IsPair;
    var col' := SetLinks(col, col.toks[p], []);
    SetLinksOk(g, col, col.toks[p], []);
    forall q: PairId | Has(col, q)
      ensures CostAt(col', q) == CostAt(col, q) && LinksAt(col', q) == (if q == p then [] else LinksAt(col, q))
    {
      SetLinksFrame(col, col.toks[p], [], q);
      if q != p { ColumnApart(g, col, p, q); }
    }
    forall q | Has(col', q) && q !in queue && q !in {p}
      ensures Relaxed(g, col', cutoff, q)
    {
      RelaxedStable(g, col, col', cutoff, q);
    }
  }

  /** All arcs followed: the token is no longer busy. */
  lemma FollowDone(g: Graph, h: map<PairId, int>, cutoff: Cost, lo: int, col0: Column,
                   col: Column, queue: seq<PairId>, p: PairId)
    requires Relaxing(g, h, cutoff, lo, col0, col, queue, {p})
    requires IsPair(g, p) && Has(col, p) && Fin(CostAt(col, p)).Lt(cutoff) && Followed(g, col, cutoff, p, ArcCount(g, p))
    ensures Relaxing(g, h, cutoff, lo, col0, col, queue, {})
  {
    hide Followed;
  }

  /** A frame's entry tokens have no links yet; all of them wait in the queue. */
  lemma RelaxationStarts(g: Graph, h: map<PairId, int>, cutoff: Cost, col: Column, queue: seq<PairId>) returns (lo: int)
    requires ColumnOk(g, col) && Feasible(g, h)
    requires forall p :: p in col.toks <==> p in queue
    requires forall p :: p in queue ==> Has(col, p) && LinksAt(col, p) == []
    ensures Relaxing(g, h, cutoff, lo, col, col, queue, {})
  {
    lo := LeastPotential(h, col, queue);
    forall p: PairId | Has(col, p)
      ensures exists path :: EpsilonTrace(g, EntryCosts(col), cutoff, path) == Some((p, CostAt(col, p)))
    {
      assert EpsilonTrace(g, EntryCosts(col), cutoff, From(p)) == Some((p, CostAt(col, p)));
    }
    assert Attained(g, EntryCosts(col), cutoff, col);
    forall p | Has(col, p) && p in h
      ensures lo <= CostAt(col, p) + h[p]
    {
      assert p in queue;
    }
  }

  lemma {:induction false} LeastPotential(h: map<PairId, int>, col: Column, queue: seq<PairId>) returns (lo: int)
    requires forall p :: p in queue ==> Has(col, p) && p in h
    ensures forall p :: p in queue ==> lo <= CostAt(col, p) + h[p]
    ensures queue != [] ==> exists p :: p in queue && lo == CostAt(col, p) + h[p]
  {
    if |queue| <= 1 {
      lo := if queue == [] then 0 else CostAt(col, queue[0]) + h[queue[0]];
    } else {
      var rest := queue[1..];
      assert queue == [queue[0]] + rest;
      lo := LeastPotential(h, col, rest);
      if CostAt(col, queue[0]) + h[queue[0]] < lo {
        lo := CostAt(col, queue[0]) + h[queue[0]];
      }
    }
  }
}
