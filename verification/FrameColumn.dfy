/** One relaxed frame inside the created lattice. */
module FrameColumn {
  import opened Basics
  import opened Composition
  import opened Costs
  import opened Lattice
  import opened ExactPruning
  import opened TokenColumn
  import opened EpsilonClosure
  import opened BeamSearch

  // ----- tokens and links stand for pairs and arcs -----

  /** A link carries the labels and costs of arc i of its token's pair. */
  ghost predicate MatchesArc(g: Graph, u: Utterance, c: Created, a: Addr, i: nat, l: ForwardLink) {
    && a in c && l.nextTok in c && IsPair(g, c[a].pair) && i < ArcCount(g, c[a].pair)
    && var arc := PairArcAt(g, c[a].pair, i);
      && l.ilabel == arc.ilabel && l.olabel == arc.olabel && Fin(l.graphCost) == arc.weight
      && Fin(l.acousticCost) == (if arc.ilabel == 0 then Fin(0) else u.acousticCost(c[a].frame, arc.ilabel))
      && c[l.nextTok].pair == arc.next
  }

  ghost predicate LinksAreArcs(g: Graph, u: Utterance, c: Created) {
    forall a, l :: a in c && l in c[a].links ==> exists i: nat :: MatchesArc(g, u, c, a, i, l)
  }

  /** Token a costs what some path of the composition to its pair costs. */
  ghost predicate Realized(g: Graph, u: Utterance, c: Created, a: Addr)
    requires a in c
  {
    exists path :: Walk(g, u, path) == Some(Place(c[a].pair, c[a].frame, c[a].totCost))
  }

  /** Column col, relaxed from the entry tokens of column entry. */
  datatype Frame = Frame(n: nat, entry: Column, col: Column, cutoff: Cost)

  /** The relaxation has run its course. */
  ghost predicate Closed(g: Graph, f: Frame) {
    && RelaxedBut(g, f.col, f.cutoff, [], {})
    && Attained(g, EntryCosts(f.entry), f.cutoff, f.col)
    && EntryKept(EntryCosts(f.entry), f.col)
    && forall p :: Has(f.col, p) ==> IsPair(g, p)
  }

  /** The column's tokens are nodes of frame n. */
  ghost predicate Recorded(c: Created, f: Frame) {
    forall p: PairId :: Has(f.col, p) ==>
      f.col.toks[p] in c && c[f.col.toks[p]] == Node(f.n, p, CostAt(f.col, p), LinksAt(f.col, p))
  }

  ghost predicate EntriesRealized(g: Graph, u: Utterance, f: Frame) {
    forall p: PairId :: Has(f.entry, p) ==>
      exists walk :: Walk(g, u, walk) == Some(Place(p, f.n, CostAt(f.entry, p)))
  }

  /** Entry tokens that no epsilon path improved are reached without slack. */
  ghost predicate EntriesTight(c: Created, start: Addr, f: Frame)
    requires WellFormed(c)
  {
    forall p: PairId :: Has(f.entry, p) && Has(f.col, p) && CostAt(f.col, p) == CostAt(f.entry, p) ==>
      exists front :: ZeroPath(c, start, front, f.col.toks[p])
  }

  ghost predicate SoundLink(g: Graph, u: Utterance, c: Created, a: Addr, l: ForwardLink) {
    a in c && LinkOk(c, a, l) && exists i: nat :: MatchesArc(g, u, c, a, i, l)
  }

  lemma {:induction false} EpsilonLinkMember(g: Graph, toks: map<PairId, Addr>, p: PairId, cost: int, cutoff: Cost,
      k: nat, l: ForwardLink)
    returns (i: nat)
    requires l in EpsilonLinks(g, toks, p, cost, cutoff, k)
    ensures i < k && Affordable(g, p, cost, cutoff, i) && PairArcAt(g, p, i).next in toks && l == EpsilonLink(g, toks, p, i)
  {
    hide PairArcAt;
    if Affordable(g, p, cost, cutoff, k - 1) && PairArcAt(g, p, k - 1).next in toks && l == EpsilonLink(g, toks, p, k - 1) {
      i := k - 1;
    } else {
      i := EpsilonLinkMember(g, toks, p, cost, cutoff, k - 1, l);
    }
  }

  lemma {:induction false} EpsilonLinkListed(g: Graph, toks: map<PairId, Addr>, p: PairId, cost: int, cutoff: Cost,
      k: nat, i: nat)
    requires i < k && Affordable(g, p, cost, cutoff, i) && PairArcAt(g, p, i).next in toks
    ensures EpsilonLink(g, toks, p, i) in EpsilonLinks(g, toks, p, cost, cutoff, k)
  {
    hide PairArcAt;
    if i < k - 1 {
      EpsilonLinkListed(g, toks, p, cost, cutoff, k - 1, i);
    }
  }


  /** The link of an affordable arc is there, sound, with the slack its costs leave. */
  lemma InnerLink(g: Graph, u: Utterance, c: Created, f: Frame, p: PairId, i: nat)
    requires Closed(g, f) && Recorded(c, f)
    requires Has(f.col, p) && Fin(CostAt(f.col, p)).Lt(f.cutoff) && Affordable(g, p, CostAt(f.col, p), f.cutoff, i)
    ensures Has(f.col, PairArcAt(g, p, i).next) && f.col.toks[p] in c
    ensures CostAt(f.col, PairArcAt(g, p, i).next) <= CostAt(f.col, p) + PairArcAt(g, p, i).weight.value
    ensures var l := EpsilonLink(g, f.col.toks, p, i);
            && l in c[f.col.toks[p]].links && MatchesArc(g, u, c, f.col.toks[p], i, l)
            && SoundLink(g, u, c, f.col.toks[p], l)
            && Slack(c, f.col.toks[p], l)
                == CostAt(f.col, p) + PairArcAt(g, p, i).weight.value - CostAt(f.col, PairArcAt(g, p, i).next)
  {
    hide PairArcAt, EpsilonLinks, Attained, EntryKept;
    assert Relaxed(g, f.col, f.cutoff, p);
    EpsilonLinkListed(g, f.col.toks, p, CostAt(f.col, p), f.cutoff, ArcCount(g, p), i);
    assert MatchesArc(g, u, c, f.col.toks[p], i, EpsilonLink(g, f.col.toks, p, i));
  }

  lemma InnerLinkSound(g: Graph, u: Utterance, c: Created, f: Frame, p: PairId, l: ForwardLink)
    requires Closed(g, f) && Recorded(c, f) && Has(f.col, p) && l in LinksAt(f.col, p)
    ensures f.col.toks[p] in c && SoundLink(g, u, c, f.col.toks[p], l) && l.nextTok in f.col.heap
  {
    var i := InnerLinkArc(g, f, p, l);
    hide *;
    InnerLink(g, u, c, f, p, i);
  }

  lemma InnerLinkArc(g: Graph, f: Frame, p: PairId, l: ForwardLink) returns (i: nat)
    requires Closed(g, f) && Has(f.col, p) && l in LinksAt(f.col, p)
    ensures Fin(CostAt(f.col, p)).Lt(f.cutoff) && Affordable(g, p, CostAt(f.col, p), f.cutoff, i)
    ensures Has(f.col, PairArcAt(g, p, i).next) && l == EpsilonLink(g, f.col.toks, p, i)
    ensures l.nextTok in f.col.heap
  {
    hide PairArcAt, EpsilonLinks, Attained, EntryKept;
    assert Relaxed(g, f.col, f.cutoff, p);
    i := EpsilonLinkMember(g, f.col.toks, p, CostAt(f.col, p), f.cutoff, ArcCount(g, p), l);
  }

  // ----- costs are those of paths -----

  lemma {:induction false} TraceRealized(g: Graph, u: Utterance, f: Frame, path: Path)
    requires EntriesRealized(g, u, f)
    ensures match EpsilonTrace(g, EntryCosts(f.entry), f.cutoff, path)
            case None => true
            case Some((p, cost)) => exists walk :: Walk(g, u, walk) == Some(Place(p, f.n, cost))
  {
    hide PairArcAt;
    match path
    case From(p) =>
    case Snoc(prefix, i) =>
      TraceRealized(g, u, f, prefix);
      match EpsilonTrace(g, EntryCosts(f.entry), f.cutoff, prefix)
      case None =>
      case Some((p, cost)) =>
        if Fin(cost).Lt(f.cutoff) && Affordable(g, p, cost, f.cutoff, i) {
          var walk :| Walk(g, u, walk) == Some(Place(p, f.n, cost));
          assert Walk(g, u, Snoc(walk, i)) == Some(Place(PairArcAt(g, p, i).next, f.n, cost + PairArcAt(g, p, i).weight.value));
        }
  }

  /** A cheapest epsilon path has cheapest prefixes, so its links have no slack. */
  lemma {:induction false} TraceTight(g: Graph, u: Utterance, c: Created, start: Addr, f: Frame, path: Path)
    requires Closed(g, f) && Recorded(c, f) && WellFormed(c) && EntriesTight(c, start, f)
    ensures match EpsilonTrace(g, EntryCosts(f.entry), f.cutoff, path)
            case None => true
            case Some((p, cost)) =>
              && Has(f.col, p) && CostAt(f.col, p) <= cost
              && (CostAt(f.col, p) == cost ==> exists front :: ZeroPath(c, start, front, f.col.toks[p]))
  {
    hide WellFormed, PairArcAt, RelaxedBut, Attained, Recorded;
    NoBetterPath(g, EntryCosts(f.entry), f.cutoff, f.col, path);
    match path
    case From(p) =>
    case Snoc(prefix, i) =>
      TraceTight(g, u, c, start, f, prefix);
      match EpsilonTrace(g, EntryCosts(f.entry), f.cutoff, prefix)
      case None =>
      case Some((r, cost)) =>
        if Fin(cost).Lt(f.cutoff) && Affordable(g, r, cost, f.cutoff, i) {
          TightStep(g, u, c, start, f, r, cost, i);
        }
  }

  lemma TightStep(g: Graph, u: Utterance, c: Created, start: Addr, f: Frame, r: PairId, cost: int, i: nat)
    requires Closed(g, f) && Recorded(c, f) && WellFormed(c)
    requires Has(f.col, r) && CostAt(f.col, r) <= cost && Fin(cost).Lt(f.cutoff) && Affordable(g, r, cost, f.cutoff, i)
    requires CostAt(f.col, r) == cost ==> exists front :: ZeroPath(c, start, front, f.col.toks[r])
    ensures var next := PairArcAt(g, r, i).next;
            && Has(f.col, next)
            && (CostAt(f.col, next) == cost + PairArcAt(g, r, i).weight.value ==>
                  exists front :: ZeroPath(c, start, front, f.col.toks[next]))
  {
    hide Closed, Recorded, PairArcAt, WellFormed, SoundLink, MatchesArc;
    var next := PairArcAt(g, r, i).next;
    assert Affordable(g, r, CostAt(f.col, r), f.cutoff, i);
    InnerLink(g, u, c, f, r, i);
    if CostAt(f.col, next) == cost + PairArcAt(g, r, i).weight.value {
      var front :| ZeroPath(c, start, front, f.col.toks[r]);
      var l := EpsilonLink(g, f.col.toks, r, i);
      OneLinkPath(c, f.col.toks[r], l);
      Concatenate(c, start, front, f.col.toks[r], [l], l.nextTok);
      assert ZeroPath(c, start, front + [l], f.col.toks[next]);
    }
  }

  /** Every token of the frame costs what a path costs, and is reached without slack. */
  lemma TokenReached(g: Graph, u: Utterance, c: Created, start: Addr, f: Frame, p: PairId)
    requires Closed(g, f) && Recorded(c, f) && WellFormed(c) && Has(f.col, p)
    requires EntriesRealized(g, u, f) && EntriesTight(c, start, f)
    ensures exists walk :: Walk(g, u, walk) == Some(Place(p, f.n, CostAt(f.col, p)))
    ensures exists front :: ZeroPath(c, start, front, f.col.toks[p])
  {
    hide Recorded, WellFormed, ZeroPath, EpsilonTrace, Walk, RelaxedBut, EntryKept, EntriesRealized, EntriesTight;
    var path :| EpsilonTrace(g, EntryCosts(f.entry), f.cutoff, path) == Some((p, CostAt(f.col, p)));
    TraceRealized(g, u, f, path);
    TraceTight(g, u, c, start, f, path);
  }
}
