/** The raw lattice: the surviving tokens and links as a finite-state machine. */
module RawLattices {
  import opened Basics
  import opened Lattice
  import opened FrameLists
  import opened Coverage
  import opened ComposedPaths

  datatype RawArc = RawArc(ilabel: int, olabel: int, graphCost: int, acousticCost: int, nextState: nat)

  /** States are numbered from zero; final maps final states to their costs. */
  datatype RawLattice = RawLattice(start: nat, arcs: seq<seq<RawArc>>, final: map<nat, int>)

  /** All tokens, frame by frame. */
  ghost function AllTokens(lists: seq<TokenList>): seq<Addr> {
    if lists == [] then [] else AllTokens(lists[..|lists| - 1]) + lists[|lists| - 1].toks
  }

  /** order numbers the first tokens: position and state number are the same. */
  ghost predicate Numbers(tokMap: map<Addr, nat>, order: seq<Addr>) {
    && (forall a :: a in tokMap ==> tokMap[a] < |order| && order[tokMap[a]] == a)
    && (forall i: nat :: i < |order| ==> order[i] in tokMap && tokMap[order[i]] == i)
  }

  lemma NumbersOneMore(tokMap: map<Addr, nat>, order: seq<Addr>, a: Addr)
    requires Numbers(tokMap, order) && a !in order
    ensures Numbers(tokMap[a := |order|], order + [a])
  {
  }

  lemma {:induction false} AllTokensMembers(lists: seq<TokenList>, a: Addr)
    ensures a in AllTokens(lists) <==> exists f: nat :: f < |lists| && a in lists[f].toks
    ensures |AllTokens(lists)| == TotalTokens(lists)
  {
    if lists != [] {
      AllTokensMembers(lists[..|lists| - 1], a);
    }
  }

  /** A frame's tokens are not among those of earlier frames. */
  lemma FrameIsNew(h: Heap, lists: seq<TokenList>, numToks: int, f: nat)
    requires Owns(h, lists, numToks) && f < |lists|
    ensures NoDuplicates(lists[f].toks) && forall a :: a in lists[f].toks ==> a !in AllTokens(lists[..f]) && a in h
    ensures AllTokens(lists[..f + 1]) == AllTokens(lists[..f]) + lists[f].toks
  {
    forall a | a in lists[f].toks
      ensures a !in AllTokens(lists[..f])
    {
      AllTokensMembers(lists[..f], a);
    }
    assert lists[..f + 1][..f] == lists[..f];
  }

  lemma AllNumbered(h: Heap, lists: seq<TokenList>, numToks: int, tokMap: map<Addr, nat>)
    requires Owns(h, lists, numToks) && Numbers(tokMap, AllTokens(lists))
    ensures tokMap.Keys == h.Keys && |AllTokens(lists)| == numToks
  {
    AllTokensMembers(lists, 0);
    forall a
      ensures a in tokMap <==> a in h
    {
      AllTokensMembers(lists, a);
    }
  }

  lemma OwnedTokens(h: Heap, lists: seq<TokenList>, numToks: int, f: nat)
    requires Owns(h, lists, numToks) && f < |lists|
    ensures forall a :: a in lists[f].toks ==> a in h
  {
  }

  /** The first frame's last token has the number of its place in that list. */
  lemma {:induction false} FirstListFirst(lists: seq<TokenList>)
    requires lists != []
    ensures |AllTokens(lists)| >= |lists[0].toks| && AllTokens(lists)[..|lists[0].toks|] == lists[0].toks
  {
    if |lists| == 1 {
      assert lists[..0] == [] && AllTokens(lists) == [] + lists[0].toks;
    } else {
      FirstListFirst(lists[..|lists| - 1]);
    }
  }

  lemma FirstNumbers(lists: seq<TokenList>, tokMap: map<Addr, nat>)
    requires lists != [] && lists[0].toks != [] && Numbers(tokMap, AllTokens(lists))
    ensures var last := |lists[0].toks| - 1; lists[0].toks[last] in tokMap && tokMap[lists[0].toks[last]] == last
  {
    FirstListFirst(lists);
    var last := |lists[0].toks| - 1;
    assert AllTokens(lists)[..|lists[0].toks|][last] == lists[0].toks[last];
  }

  // ----- arcs -----

  function ArcOf(tokMap: map<Addr, nat>, l: ForwardLink): RawArc
    requires l.nextTok in tokMap
  {
    RawArc(l.ilabel, l.olabel, l.graphCost, l.acousticCost, tokMap[l.nextTok])
  }

  /** A state's arcs are its token's links, in their order. */
  ghost predicate ArcsMatch(tokMap: map<Addr, nat>, ls: seq<ForwardLink>, arcs: seq<RawArc>) {
    && |arcs| == |ls|
    && forall k: nat :: k < |ls| ==> ls[k].nextTok in tokMap && arcs[k] == ArcOf(tokMap, ls[k])
  }

  /** The arcs of the first states. */
  ghost predicate ArcsBuilt(h: Heap, tokMap: map<Addr, nat>, order: seq<Addr>, arcs: seq<seq<RawArc>>) {
    && |arcs| <= |order|
    && forall i: nat :: i < |arcs| ==> order[i] in h && ArcsMatch(tokMap, h[order[i]].links, arcs[i])
  }

  lemma NothingBuilt(h: Heap, tokMap: map<Addr, nat>, lists: seq<TokenList>)
    ensures ArcsBuilt(h, tokMap, AllTokens(lists[..0]), []) && AllTokens(lists[..0]) == []
  {
  }

  /** The lattice has exactly the live tokens for states and the live links for arcs. */
  ghost predicate Mirrors(h: Heap, tokMap: map<Addr, nat>, order: seq<Addr>, lat: RawLattice) {
    && tokMap.Keys == h.Keys && Numbers(tokMap, order) && |lat.arcs| == |order| && ArcsBuilt(h, tokMap, order, lat.arcs)
  }

  ghost predicate IsRawPath(lat: RawLattice, s: nat, p: seq<RawArc>)
    decreases |p|
  {
    s < |lat.arcs| && (p == [] || (p[0] in lat.arcs[s] && IsRawPath(lat, p[0].nextState, p[1..])))
  }

  /** The state that a path leads to. */
  ghost function RawEnd(s: nat, p: seq<RawArc>): nat {
    if p == [] then s else p[|p| - 1].nextState
  }

  ghost predicate SameLabelsAndCosts(p: seq<ForwardLink>, r: seq<RawArc>) {
    |r| == |p| && forall k: nat :: k < |p| ==>
      && r[k].ilabel == p[k].ilabel && r[k].olabel == p[k].olabel
      && r[k].graphCost == p[k].graphCost && r[k].acousticCost == p[k].acousticCost
  }

  ghost function LinearOf(r: seq<RawArc>): seq<LinearArc> {
    seq(|r|, k requires 0 <= k < |r| => LinearArc(r[k].ilabel, r[k].olabel, r[k].graphCost, r[k].acousticCost))
  }

  /** Surviving paths are paths of the raw lattice. */
  lemma {:induction false} AliveIsRaw(h: Heap, tokMap: map<Addr, nat>, order: seq<Addr>, lat: RawLattice, a: Addr,
                                      p: seq<ForwardLink>)
    returns (r: seq<RawArc>)
    requires Mirrors(h, tokMap, order, lat) && Alive(h, a, p)
    ensures a in tokMap && IsRawPath(lat, tokMap[a], r) && SameLabelsAndCosts(p, r)
    ensures LastToken(a, p) in tokMap && RawEnd(tokMap[a], r) == tokMap[LastToken(a, p)]
    decreases |p|
  {
    assert order[tokMap[a]] == a;
    if p == [] {
      r := [];
    } else {
      var rest := AliveIsRaw(h, tokMap, order, lat, p[0].nextTok, p[1..]);
      var k: nat :| k < |h[a].links| && h[a].links[k] == p[0];
      var arc := lat.arcs[tokMap[a]][k];
      r := [arc] + rest;
      assert r[1..] == rest;
      forall j: nat | j < |p|
        ensures r[j].ilabel == p[j].ilabel && r[j].olabel == p[j].olabel
        ensures r[j].graphCost == p[j].graphCost && r[j].acousticCost == p[j].acousticCost
      {
        if j > 0 {
          assert p[j] == p[1..][j - 1] && r[j] == rest[j - 1];
        }
      }
    }
  }

  /** And paths of the raw lattice are surviving paths. */
  lemma {:induction false} RawIsAlive(h: Heap, tokMap: map<Addr, nat>, order: seq<Addr>, lat: RawLattice, a: Addr,
                                      r: seq<RawArc>)
    returns (p: seq<ForwardLink>)
    requires Mirrors(h, tokMap, order, lat) && a in tokMap && IsRawPath(lat, tokMap[a], r)
    ensures Alive(h, a, p) && SameLabelsAndCosts(p, r)
    ensures LastToken(a, p) in tokMap && RawEnd(tokMap[a], r) == tokMap[LastToken(a, p)]
    decreases |r|
  {
    assert order[tokMap[a]] == a;
    if r == [] {
      p := [];
    } else {
      var k: nat :| k < |lat.arcs[tokMap[a]]| && lat.arcs[tokMap[a]][k] == r[0];
      var l := h[a].links[k];
      var rest := RawIsAlive(h, tokMap, order, lat, l.nextTok, r[1..]);
      p := [l] + rest;
      assert p[1..] == rest;
      forall j: nat | j < |p|
        ensures r[j].ilabel == p[j].ilabel && r[j].olabel == p[j].olabel
        ensures r[j].graphCost == p[j].graphCost && r[j].acousticCost == p[j].acousticCost
      {
        if j > 0 {
          assert p[j] == rest[j - 1] && r[j] == r[1..][j - 1];
        }
      }
    }
  }

  // ----- final states -----

  /** The final states and their costs, among the first k of the last frame's tokens. */
  ghost predicate FinalsBuilt(tokMap: map<Addr, nat>, last: seq<Addr>, k: nat, finalCosts: map<Addr, int>,
                              useFinalProbs: bool,
                              final: map<nat, int>)
    requires k <= |last| && forall a :: a in last ==> a in tokMap
  {
    var counts := useFinalProbs && finalCosts != map[];
    && (forall s :: s in final <==> exists i: nat :: i < k && tokMap[last[i]] == s && (counts ==> last[i] in finalCosts))
    && (forall i: nat :: i < k && (counts ==> last[i] in finalCosts) ==>
          tokMap[last[i]] in final && final[tokMap[last[i]]] == if counts then finalCosts[last[i]] else 0)
  }

  /** A token whose state is final has its final cost on record. */
  lemma FinalIsOnRecord(h: Heap, tokMap: map<Addr, nat>, order: seq<Addr>, lat: RawLattice, last: seq<Addr>,
                        finalCosts: map<Addr, int>, z: Addr)
    requires Mirrors(h, tokMap, order, lat) && finalCosts != map[] && forall a :: a in last ==> a in tokMap
    requires FinalsBuilt(tokMap, last, |last|, finalCosts, true, lat.final) && z in tokMap && tokMap[z] in lat.final
    ensures z in finalCosts && lat.final[tokMap[z]] == finalCosts[z]
  {
    hide ArcsBuilt;
    var i: nat :| i < |last| && tokMap[last[i]] == tokMap[z] && last[i] in finalCosts;
    assert order[tokMap[last[i]]] == last[i] && order[tokMap[z]] == z;
  }
}
