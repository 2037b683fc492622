/** The created links are those of extensions that the search took and of epsilon arcs that it followed. */
module ExploredLinks {
  import opened Composition
  import opened Costs
  import opened Lattice
  import opened TokenColumn
  import opened EpsilonClosure
  import opened BeamSearch
  import opened Emission
  import opened FrameColumn
  import opened FrameHistory
  import opened FirstFrame

  ghost predicate FollowedLink(g: Graph, u: Utterance, c: Created, a: Addr, l: ForwardLink, layer: Layer) {
    && a in c && Fin(c[a].totCost).Lt(layer.epsilonCutoff)
    && exists i: nat :: Affordable(g, c[a].pair, c[a].totCost, layer.epsilonCutoff, i) && MatchesArc(g, u, c, a, i, l)
  }

  ghost predicate TakenLink(g: Graph, u: Utterance, c: Created, a: Addr, l: ForwardLink, x: Crossing) {
    && a in c
    && exists k: nat :: x.Takes(k) && x.order[k].pair == c[a].pair && MatchesArc(g, u, c, a, x.order[k].arc, l)
  }

  /** A link inside a frame stands for an epsilon arc under the epsilon cutoff, one to the next frame for a taken extension. */
  ghost predicate LinkExplored(g: Graph, u: Utterance, c: Created, a: Addr, l: ForwardLink, layers: seq<Layer>,
                               crossings: seq<Crossing>)
    requires a in c
  {
    if l.ilabel == 0 then c[a].frame < |layers| && FollowedLink(g, u, c, a, l, layers[c[a].frame])
    else c[a].frame < |crossings| && TakenLink(g, u, c, a, l, crossings[c[a].frame])
  }

  ghost predicate LinksExplored(g: Graph, u: Utterance, c: Created, layers: seq<Layer>, crossings: seq<Crossing>) {
    forall a, l :: a in c && l in c[a].links ==> LinkExplored(g, u, c, a, l, layers, crossings)
  }

  lemma StaysExplored(g: Graph, u: Utterance, c: Created, c': Created, n: nat, a: Addr, l: ForwardLink,
                      layers: seq<Layer>,
                      crossings: seq<Crossing>, layer: Layer, x: Crossing)
    requires Extends(c, c', n) && a in c && l in c[a].links && LinkExplored(g, u, c, a, l, layers, crossings)
    ensures a in c' && LinkExplored(g, u, c', a, l, layers + [layer], crossings + [x])
  {
    hide PairArcAt, IsPair, Affordable, TakenAt;
    var k := c[a].frame;
    if l.ilabel == 0 {
      var i: nat :| Affordable(g, c[a].pair, c[a].totCost, layers[k].epsilonCutoff, i) && MatchesArc(g, u, c, a, i, l);
      assert MatchesArc(g, u, c', a, i, l);
    } else {
      var j: nat :| crossings[k].Takes(j) && crossings[k].order[j].pair == c[a].pair && MatchesArc(g, u, c, a, crossings[k].order[j].arc, l);
      assert MatchesArc(g, u, c', a, crossings[k].order[j].arc, l);
    }
  }

  lemma {:induction false} GainedMember(g: Graph, u: Utterance, n: nat, toks: map<PairId, Addr>, order: seq<Visit>,
                                        first: Cost,
                                        margin: Cost, p: PairId, l: ForwardLink) returns (k: nat)
    requires l in LinksGained(g, u, n, toks, order, first, margin, p)
    ensures k < |order| && TakenAt(order, first, margin, k) && order[k].pair == p
    ensures EmittingArc(g, u, n, p, order[k].arc) && PairArcAt(g, p, order[k].arc).next in toks
    ensures l == EmittingLink(g, u, n, toks, p, order[k].arc)
  {
    hide PairArcAt, EmittingArc, EmittingLink, CutoffAfter;
    var front, v := order[..|order| - 1], order[|order| - 1];
    if l in LinksGained(g, u, n, toks, front, first, margin, p) {
      k := GainedMember(g, u, n, toks, front, first, margin, p, l);
      assert front[..k] == order[..k];
    } else {
      k := |order| - 1;
    }
  }

  /** A link of a token that has been left is old, or of a taken extension. */
  lemma LeftLinkExplored(g: Graph, u: Utterance, c: Created, f: NewFrame, x: Crossing, p: PairId, l: ForwardLink)
    requires FrameDone(g, u, c, f) && VisitsDone(g, u, f.n, f.prev, f.col1, x.order, x.first, x.margin) && p in f.prev.toks
    requires f.prev.toks[p] in NextCreated(c, f) && l in NextCreated(c, f)[f.prev.toks[p]].links
    ensures f.prev.toks[p] in c && NextCreated(c, f)[f.prev.toks[p]].frame == f.n
    ensures l in c[f.prev.toks[p]].links || (l.ilabel != 0 && TakenLink(g, u, NextCreated(c, f), f.prev.toks[p], l, x))
  {
    hide NextCreated, Emitting, Closed, ColumnOk, Grows, OutsideKept, Linked, TakenAt, LinksGained, MatchesArc, PairArcAt, EmittingArc,
      EmittingLink, Graph.Valid;
    LeftTokens(g, u, c, f, p);
    assert Gained(g, u, f.n, f.prev, f.col1, x.order, x.first, x.margin, p);
    if l !in c[f.prev.toks[p]].links {
      var k := GainedMember(g, u, f.n, f.col1.toks, x.order, x.first, x.margin, p, l);
      CrossLinkSound(g, u, c, f, p, x.order[k].arc);
      EmittingLabel(g, u, f.n, f.col1.toks, p, x.order[k].arc);
      assert x.Takes(k);
    }
  }

  lemma EmittingLabel(g: Graph, u: Utterance, n: nat, toks: map<PairId, Addr>, p: PairId, i: nat)
    requires EmittingArc(g, u, n, p, i) && PairArcAt(g, p, i).next in toks
    ensures EmittingLink(g, u, n, toks, p, i).ilabel != 0
  {
  }

  lemma InnerLinkExplored(g: Graph, u: Utterance, c: Created, f: Frame, layer: Layer, p: PairId, l: ForwardLink)
    requires Closed(g, f) && Recorded(c, f) && Has(f.col, p) && l in LinksAt(f.col, p) && layer.epsilonCutoff == f.cutoff
    ensures l.ilabel == 0 && f.col.toks[p] in c && FollowedLink(g, u, c, f.col.toks[p], l, layer)
  {
    hide Closed, MatchesArc, PairArcAt, SoundLink;
    var i := InnerLinkArc(g, f, p, l);
    InnerLink(g, u, c, f, p, i);
  }

  lemma NextLinksExplored(g: Graph, u: Utterance, c: Created, f: NewFrame, start: Addr, layers: seq<Layer>,
                          crossings: seq<Crossing>,
                          layer: Layer, x: Crossing)
    requires FrameDone(g, u, c, f) && History(g, u, c, f.n, start) && LinksExplored(g, u, c, layers, crossings)
    requires |layers| == f.n + 1 && |crossings| == f.n && layer.epsilonCutoff == f.cutoff
    requires VisitsDone(g, u, f.n, f.prev, f.col1, x.order, x.first, x.margin)
    ensures LinksExplored(g, u, NextCreated(c, f), layers + [layer], crossings + [x])
  {
    hide FrameDone, History, VisitsDone, NextCreated, Closed, Recorded, FollowedLink, TakenLink;
    var c' := NextCreated(c, f);
    NextExtends(g, u, c, f);
    NewFrameRecorded(g, u, c, f);
    NewFrames(g, u, c, f);
    forall a, l | a in c' && l in c'[a].links
      ensures LinkExplored(g, u, c', a, l, layers + [layer], crossings + [x])
    {
      if a in c && l in c[a].links {
        StaysExplored(g, u, c, c', f.n, a, l, layers, crossings, layer, x);
      } else if a in c {
        OldFrames(g, u, c, f.n, start, a);
        FrontPair(g, u, c, f, a);
        LeftLinkExplored(g, u, c, f, x, c[a].pair, l);
      } else {
        NewTokenBack(g, u, c, f, a);
        NewToken(g, u, c, f, f.col2.pairOf[a]);
        InnerLinkExplored(g, u, c', InnerFrame(f), layer, f.col2.pairOf[a], l);
      }
    }
  }

  lemma OldFrames(g: Graph, u: Utterance, c: Created, n: nat, start: Addr, a: Addr)
    requires History(g, u, c, n, start) && a in c
    ensures c[a].frame <= n
  {
  }

  lemma FirstLinksExplored(g: Graph, u: Utterance, potential: map<PairId, int>, f: Frame, start: Addr, layer: Layer)
    requires FirstDone(g, potential, start, f) && layer.epsilonCutoff == f.cutoff
    ensures LinksExplored(g, u, FirstCreated(f), [layer], [])
  {
    FirstRecorded(g, potential, start, f);
    var c := FirstCreated(f);
    forall a, l | a in c && l in c[a].links
      ensures LinkExplored(g, u, c, a, l, [layer], [])
    {
      hide FirstDone, Closed, FollowedLink;
      InnerLinkExplored(g, u, c, f, layer, f.col.pairOf[a], l);
    }
  }

  // ----- emission prunes -----

  ghost predicate EntriesUnder(entry: map<PairId, int>, bound: Cost) {
    forall q :: q in entry ==> Fin(entry[q]).Lt(bound)
  }

  /** What the tokens of a frame pay to get to the next. */
  ghost predicate LinksUnder(c: Created, k: nat, bound: Cost) {
    forall a, l :: a in c && c[a].frame == k && l in c[a].links && l.ilabel != 0 ==>
      Fin(c[a].totCost + l.graphCost + l.acousticCost).Lt(bound)
  }

  lemma UnderMore(entry: map<PairId, int>, c: Created, k: nat, bound: Cost, bound': Cost)
    requires EntriesUnder(entry, bound) && LinksUnder(c, k, bound) && bound.Le(bound')
    ensures EntriesUnder(entry, bound') && LinksUnder(c, k, bound')
  {
  }

  /** The token whose extensions set the first cutoff. */
  lemma FirstBound(g: Graph, u: Utterance, n: nat, costs: map<PairId, int>, adaptiveBeam: Cost,
                   first: Cost) returns (p: PairId)
    requires FirstCutoffIs(g, u, n, costs, adaptiveBeam, Inf, first) && costs != map[]
    ensures IsBestOf(costs, p)
    ensures forall i: nat :: EmittingArc(g, u, n, p, i) ==> first.Le(Fin(ExtendedCost(g, u, n, costs, p, i)).Add(adaptiveBeam))
  {
    hide PairArcAt;
    p :| IsBestOf(costs, p) && IsPair(g, p) && BestArcsBound(g, u, n, costs, adaptiveBeam, Inf, first, p, ArcCount(g, p));
  }

  /** Nothing that is taken is beyond the first cutoff. */
  lemma UnderFirst(g: Graph, u: Utterance, c: Created, k: nat, layers: seq<Layer>, crossings: seq<Crossing>)
    requires k + 1 < |layers| && k < |crossings| && LinksExplored(g, u, c, layers, crossings)
    requires Crosses(g, u, k, layers[k].costs, crossings[k], layers[k + 1].entry)
    requires forall a :: a in c && c[a].frame == k ==> c[a].pair in layers[k].costs && layers[k].costs[c[a].pair] == c[a].totCost
    ensures EntriesUnder(layers[k + 1].entry, crossings[k].first) && LinksUnder(c, k, crossings[k].first)
  {
    hide TakenAt, PairArcAt, InOrder, FollowedLink, IsPair;
    var x, entry := crossings[k], layers[k + 1].entry;
    forall q | q in entry
      ensures Fin(entry[q]).Lt(x.first)
    {
      var j: nat :| x.Takes(j) && x.order[j].next == q && x.order[j].cost == entry[q];
      UnderTheFirst(x.order, x.first, x.margin, j);
    }
    forall a, l | a in c && c[a].frame == k && l in c[a].links && l.ilabel != 0
      ensures Fin(c[a].totCost + l.graphCost + l.acousticCost).Lt(x.first)
    {
      assert LinkExplored(g, u, c, a, l, layers, crossings);
      var j: nat :| x.Takes(j) && x.order[j].pair == c[a].pair && MatchesArc(g, u, c, a, x.order[j].arc, l);
      UnderTheFirst(x.order, x.first, x.margin, j);
      assert x.order[j] in x.order;
    }
  }
}
