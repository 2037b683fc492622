/** The token lists of all frames, with the flags that drive pruning. */
module FrameLists {
  import opened Basics
  import opened Composition
  import opened Costs
  import opened Lattice
  import opened LatticePruning
  import opened PruningPasses
  import opened ExactPruning
  import opened TokenColumn
  import opened FrameHistory

  /** A frame's tokens, the newest first, and what pruning still has to do there. */
  datatype TokenList = TokenList(toks: seq<Addr>, mustPruneForwardLinks: bool, mustPruneTokens: bool)

  function TotalTokens(lists: seq<TokenList>): nat {
    if lists == [] then 0 else TotalTokens(lists[..|lists| - 1]) + |lists[|lists| - 1].toks|
  }

  /** Each list holds exactly the live tokens of its frame, each once. */
  ghost predicate ListsOk(c: Created, h: Heap, lists: seq<TokenList>) {
    forall f: nat :: f < |lists| ==> OnFrame(c, h, f, lists[f].toks)
  }

  /** The token is spent, or a link still leads on from it. */
  ghost predicate LeadsOn(h: Heap, a: Addr)
    requires a in h
  {
    h[a].extraCost.Fin? ==> h[a].links != []
  }

  /** A frame whose links need no pruning has no link to a token of infinite extraCost, and no live end. */
  ghost predicate FlagsOk(h: Heap, lists: seq<TokenList>)
    requires Live(h)
  {
    forall f: nat, a :: f < |lists| && !lists[f].mustPruneForwardLinks && a in lists[f].toks ==>
      a in h && NoDead(h, a) && LeadsOn(h, a)
  }

  /** A frame whose tokens need no pruning has nothing but tokens that lead on. */
  ghost predicate MarksOk(h: Heap, lists: seq<TokenList>) {
    forall f: nat, a :: f < |lists| && !lists[f].mustPruneTokens && a in lists[f].toks ==>
      a in h && h[a].extraCost.Fin? && h[a].links != []
  }

  /** Between the first frame and frame n, nothing but tokens that lead on. */
  ghost predicate Clean(h: Heap, lists: seq<TokenList>, n: nat) {
    forall f: nat, a :: 0 < f < n && f < |lists| && a in lists[f].toks ==>
      a in h && h[a].extraCost.Fin? && h[a].links != []
  }

  /** The start token was the first one listed, and lists grow at the head. */
  ghost predicate StartIsLast(h: Heap, list: seq<Addr>, start: Addr) {
    start in h ==> list != [] && list[|list| - 1] == start
  }

  ghost predicate Addresses(c: Created, h: Heap, pairOf: map<Addr, PairId>, next: Addr) {
    && (forall a :: a in c ==> a < next && a in pairOf && pairOf[a] == c[a].pair)
    && (forall a :: a in h ==> a < next)
    && (forall a :: a in pairOf ==> a < next)
  }

  // ----- counting -----

  lemma {:induction false} TotalUpdated(lists: seq<TokenList>, f: nat, list: TokenList)
    requires f < |lists|
    ensures TotalTokens(lists[f := list]) == TotalTokens(lists) - |lists[f].toks| + |list.toks|
  {
    var n := |lists| - 1;
    if f == n {
      assert lists[f := list][..n] == lists[..n];
    } else {
      assert lists[f := list][..n] == lists[..n][f := list];
      TotalUpdated(lists[..n], f, list);
    }
  }

  lemma TotalExtended(lists: seq<TokenList>, list: TokenList)
    ensures TotalTokens(lists + [list]) == TotalTokens(lists) + |list.toks|
  {
    assert (lists + [list])[..|lists|] == lists;
  }

  /** Only frame f's list has changed, by additions at its head; the count has followed. */
  ghost predicate Added(lists0: seq<TokenList>, count0: int, lists: seq<TokenList>, count: int, f: nat) {
    && |lists| == |lists0| && f < |lists| && lists == lists0[f := lists0[f].(toks := lists[f].toks)]
    && count - |lists[f].toks| == count0 - |lists0[f].toks|
    && |lists0[f].toks| <= |lists[f].toks|
    && lists[f].toks[|lists[f].toks| - |lists0[f].toks|..] == lists0[f].toks
  }

  lemma AddedNothing(lists: seq<TokenList>, count: int, f: nat)
    requires f < |lists|
    ensures Added(lists, count, lists, count, f)
  {
  }

  lemma AddedTransitive(lists0: seq<TokenList>, count0: int, lists1: seq<TokenList>, count1: int,
                        lists2: seq<TokenList>, count2: int, f: nat)
    requires Added(lists0, count0, lists1, count1, f) && Added(lists1, count1, lists2, count2, f)
    ensures Added(lists0, count0, lists2, count2, f)
  {
    var t0, t1, t2 := lists0[f].toks, lists1[f].toks, lists2[f].toks;
    assert t2[|t2| - |t0|..] == t2[|t2| - |t1|..][|t1| - |t0|..];
  }

  /** A frame that has been begun and filled. */
  lemma AddedToNew(lists0: seq<TokenList>, count0: int, lists: seq<TokenList>, count: int)
    requires Added(lists0 + [TokenList([], true, true)], count0, lists, count, |lists0|)
    ensures lists == lists0 + [TokenList(lists[|lists0|].toks, true, true)]
    ensures count == count0 + |lists[|lists0|].toks|
  {
  }

  /** The first frame, with its start token at the end of the list. */
  lemma AddedToStart(tok: Addr, lists: seq<TokenList>, count: int)
    requires Added([TokenList([tok], true, true)], 1, lists, count, 0)
    ensures lists == [TokenList(lists[0].toks, true, true)] && count == |lists[0].toks|
    ensures lists[0].toks != [] && lists[0].toks[|lists[0].toks| - 1] == tok
  {
    var list := lists[0].toks;
    assert list[|list| - 1..][0] == tok;
  }

  // ----- one more frame -----

  lemma OldListOk(g: Graph, u: Utterance, c: Created, f: NewFrame, start: Addr, k: nat, list: seq<Addr>)
    requires FrameDone(g, u, c, f) && History(g, u, c, f.n, start) && k <= f.n
    requires OnFrame(c, f.prev.heap, k, list)
    ensures OnFrame(NextCreated(c, f), f.col2.heap, k, list)
  {
    hide FrameDone, NextCreated, History, ColumnOk, Grows;
    var c' := NextCreated(c, f);
    NextExtends(g, u, c, f);
    NewFrames(g, u, c, f);
    NewTokensApart(g, u, c, f);
    HeapKept(g, u, c, f);
    forall a | a in f.col2.heap
      ensures a in f.prev.heap || a !in c
    {
      CellOrigin(g, u, c, f, a);
    }
  }

  lemma NewListOk(g: Graph, u: Utterance, c: Created, f: NewFrame, start: Addr)
    requires FrameDone(g, u, c, f) && History(g, u, c, f.n, start)
    ensures OnFrame(NextCreated(c, f), f.col2.heap, f.n + 1, f.col2.list)
  {
    hide FrameDone, NextCreated, History, Grows, IsPair;
    var c' := NextCreated(c, f);
    NewTokensApart(g, u, c, f);
    HistoryWellFormed(g, u, c, f.n, start);
    NextExtends(g, u, c, f);
    forall a
      ensures a in f.col2.list <==> a in f.col2.heap && a in c' && c'[a].frame == f.n + 1
    {
      if a in f.col2.list {
        NewToken(g, u, c, f, f.col2.pairOf[a]);
      } else if a in c' && c'[a].frame == f.n + 1 {
        NewTokenBack(g, u, c, f, a);
      }
    }
  }

  lemma NextListsOk(g: Graph, u: Utterance, c: Created, f: NewFrame, start: Addr, lists: seq<TokenList>,
                    list: TokenList)
    requires FrameDone(g, u, c, f) && History(g, u, c, f.n, start)
    requires |lists| == f.n + 1 && ListsOk(c, f.prev.heap, lists) && list.toks == f.col2.list
    ensures ListsOk(NextCreated(c, f), f.col2.heap, lists + [list])
  {
    hide FrameDone, NextCreated, History, OnFrame;
    var lists' := lists + [list];
    forall k: nat | k < |lists'|
      ensures OnFrame(NextCreated(c, f), f.col2.heap, k, lists'[k].toks)
    {
      if k <= f.n {
        assert lists'[k] == lists[k];
        OldListOk(g, u, c, f, start, k, lists[k].toks);
      } else {
        NewListOk(g, u, c, f, start);
      }
    }
  }

  lemma NextFlagsOk(g: Graph, u: Utterance, c: Created, f: NewFrame, start: Addr, lists: seq<TokenList>,
                    list: TokenList)
    requires FrameDone(g, u, c, f) && History(g, u, c, f.n, start)
    requires Agree(c, f.prev.heap) && Live(f.prev.heap)
    requires |lists| == f.n + 1 && ListsOk(c, f.prev.heap, lists) && FlagsOk(f.prev.heap, lists) && MarksOk(f.prev.heap, lists)
    requires lists[f.n].mustPruneForwardLinks && list.mustPruneForwardLinks
    requires lists[f.n].mustPruneTokens && list.mustPruneTokens
    ensures Live(f.col2.heap) && FlagsOk(f.col2.heap, lists + [list]) && MarksOk(f.col2.heap, lists + [list])
  {
    hide FrameDone, NextCreated, History, Agree;
    NextAgrees(g, u, c, f, start);
    var lists' := lists + [list];
    forall k: nat, a | k < f.n && a in lists[k].toks
      ensures a in f.prev.heap && a in f.col2.heap && f.col2.heap[a] == f.prev.heap[a]
      ensures NoDead(f.prev.heap, a) ==> NoDead(f.col2.heap, a)
    {
      assert OnFrame(c, f.prev.heap, k, lists[k].toks);
      OldTokens(g, u, c, f, a);
      forall l | l in f.col2.heap[a].links
        ensures f.col2.heap[l.nextTok].extraCost == f.prev.heap[l.nextTok].extraCost
      {
        OldCellCosts(g, u, c, f, l.nextTok);
      }
    }
    assert forall k: nat :: k < f.n ==> lists'[k] == lists[k];
  }

  lemma NextAddresses(g: Graph, u: Utterance, c: Created, f: NewFrame)
    requires FrameDone(g, u, c, f) && Addresses(c, f.prev.heap, f.col0.pairOf, f.col0.next)
    ensures Addresses(NextCreated(c, f), f.col2.heap, f.col2.pairOf, f.col2.next)
  {
    hide FrameDone, NextCreated, IsPair;
    var c' := NextCreated(c, f);
    NewTokensApart(g, u, c, f);
    NextExtends(g, u, c, f);
    forall a | a in c'
      ensures a < f.col2.next && a in f.col2.pairOf && f.col2.pairOf[a] == c'[a].pair
    {
      if a !in c {
        NewTokenBack(g, u, c, f, a);
        NewToken(g, u, c, f, f.col2.pairOf[a]);
      }
    }
  }

  lemma NextStartIsLast(g: Graph, u: Utterance, c: Created, f: NewFrame, start: Addr, lists: seq<TokenList>,
                        list: TokenList)
    requires FrameDone(g, u, c, f) && History(g, u, c, f.n, start)
    requires |lists| == f.n + 1 && StartIsLast(f.prev.heap, lists[0].toks, start)
    ensures StartIsLast(f.col2.heap, (lists + [list])[0].toks, start)
  {
    if start in f.col2.heap {
      NewTokensApart(g, u, c, f);
      CellOrigin(g, u, c, f, start);
      hide FrameDone;
    }
  }

  // ----- freeing tokens -----

  /** The tokens of a list that are kept, in their order. */
  function Survivors(h: Heap, list: seq<Addr>): (kept: seq<Addr>)
    requires forall a :: a in list ==> a in h
    ensures forall a :: a in kept <==> a in list && h[a].extraCost.Fin?
    ensures |kept| <= |list|
  {
    if list == [] then [] else
      var front, last := list[..|list| - 1], list[|list| - 1];
      assert list == front + [last];
      Survivors(h, front) + if h[last].extraCost.Inf? then [] else [last]
  }

  lemma SurvivorsOnly(h: Heap, list: seq<Addr>)
    requires forall a :: a in list ==> a in h
    ensures forall a :: a in Survivors(h, list) ==> a in list
  {
  }

  lemma SurvivorsStep(h: Heap, list: seq<Addr>, k: nat)
    requires (forall a :: a in list ==> a in h) && k < |list|
    ensures Survivors(h, list[..k + 1]) == Survivors(h, list[..k]) + if h[list[k]].extraCost.Inf? then [] else [list[k]]
  {
    assert list[..k + 1][..k] == list[..k];
  }

  lemma {:induction false} SurvivorsDistinct(h: Heap, list: seq<Addr>)
    requires (forall a :: a in list ==> a in h) && NoDuplicates(list)
    ensures NoDuplicates(Survivors(h, list))
  {
    if list != [] {
      var front, last := list[..|list| - 1], list[|list| - 1];
      SurvivorsDistinct(h, front);
      assert last !in front;
    }
  }

  /** While a list is gone through: k tokens have been dealt with, i of them kept. */
  ghost predicate Freeing(h0: Heap, list: seq<Addr>, k: nat, h: Heap, toks: seq<Addr>, i: nat)
    requires forall a :: a in list ==> a in h0
  {
    && k <= |list| && h == WithoutSpent(h0, list[..k])
    && toks == Survivors(h0, list[..k]) + list[k..] && i == |Survivors(h0, list[..k])|
  }

  lemma FreeingStarts(h: Heap, list: seq<Addr>)
    requires forall a :: a in list ==> a in h
    ensures Freeing(h, list, 0, h, list, 0)
  {
    assert WithoutSpent(h, list[..0]) == h;
    assert [] + list[0..] == list;
  }

  lemma FreeingGoesOn(h0: Heap, list: seq<Addr>, k: nat, h: Heap, toks: seq<Addr>, i: nat)
    requires (forall a :: a in list ==> a in h0) && NoDuplicates(list) && Spent(h0) && Freeing(h0, list, k, h, toks, i)
    ensures k <= |list| && (i < |toks| <==> k < |list|)
    ensures i < |toks| ==>
      && toks[i] in h && (h[toks[i]].extraCost.Inf? ==> h[toks[i]].links == [])
      && if h[toks[i]].extraCost.Inf? then Freeing(h0, list, k + 1, h - {toks[i]}, toks[..i] + toks[i + 1..], i)
         else Freeing(h0, list, k + 1, h, toks, i + 1)
  {
    hide Survivors, WithoutSpent;
    if k < |list| {
      SurvivorsStep(h0, list, k);
      FreeingStep(h0, list, k);
      NextInPlace(Survivors(h0, list[..k]), list, k);
      assert Survivors(h0, list[..k]) + [] == Survivors(h0, list[..k]);
    }
  }

  lemma FreeingStep(h: Heap, list: seq<Addr>, k: nat)
    requires (forall a :: a in list ==> a in h) && NoDuplicates(list) && k < |list|
    ensures var h' := WithoutSpent(h, list[..k]);
            && list[k] in h' && h'[list[k]] == h[list[k]]
            && WithoutSpent(h, list[..k + 1]) == if h[list[k]].extraCost.Inf? then h' - {list[k]} else h'
  {
    assert list[..k + 1] == list[..k] + [list[k]];
    assert list[k] !in list[..k];
  }

  lemma FreeingEnds(h0: Heap, list: seq<Addr>, h: Heap, toks: seq<Addr>, i: nat)
    requires (forall a :: a in list ==> a in h0) && Freeing(h0, list, |list|, h, toks, i)
    ensures h == WithoutSpent(h0, list) && toks == Survivors(h0, list)
  {
    assert list[..|list|] == list;
  }

  /** Freeing keeps the lists right: the freed tokens are on this one only. */
  lemma FreedListsOk(c: Created, h: Heap, lists: seq<TokenList>, f: nat, list: TokenList)
    requires ListsOk(c, h, lists) && f < |lists| && (forall a :: a in lists[f].toks ==> a in h)
    requires list.toks == Survivors(h, lists[f].toks)
    ensures ListsOk(c, WithoutSpent(h, lists[f].toks), lists[f := list])
  {
    var h', lists' := WithoutSpent(h, lists[f].toks), lists[f := list];
    SurvivorsDistinct(h, lists[f].toks) by { assert OnFrame(c, h, f, lists[f].toks); }
    forall k: nat | k < |lists'|
      ensures OnFrame(c, h', k, lists'[k].toks)
    {
      assert OnFrame(c, h, k, lists[k].toks);
      assert OnFrame(c, h, f, lists[f].toks);
    }
  }

  /** Links into a frame come from it and from the one before. */
  lemma FrameUnreferenced(c: Created, h: Heap, lists: seq<TokenList>, f: nat)
    requires WellFormed(c) && Agree(c, h) && Live(h) && ListsOk(c, h, lists) && f < |lists|
    requires forall a :: a in lists[f].toks ==> a in h && NoDead(h, a)
    requires f > 0 ==> forall a :: a in lists[f - 1].toks ==> a in h && NoDead(h, a)
    ensures Unreferenced(h, lists[f].toks)
  {
    forall a, l | a in h && l in h[a].links && l.nextTok in lists[f].toks
      ensures h[l.nextTok].extraCost.Fin?
    {
      SlackInHeap(c, h, a, l);
      assert OnFrame(c, h, f, lists[f].toks);
      if f > 0 {
        assert OnFrame(c, h, f - 1, lists[f - 1].toks);
      }
    }
  }

  lemma FreedStartIsLast(h: Heap, list: seq<Addr>, start: Addr)
    requires StartIsLast(h, list, start) && forall a :: a in list ==> a in h
    ensures StartIsLast(WithoutSpent(h, list), Survivors(h, list), start)
  {
  }

  // ----- one step of pruning -----

  /** Lists, heap and token count fit together, with the start token where it belongs. */
  ghost predicate Listed(c: Created, h: Heap, lists: seq<TokenList>, start: Addr, numToks: int) {
    lists != [] && ListsOk(c, h, lists) && StartIsLast(h, lists[0].toks, start) && numToks == TotalTokens(lists)
  }

  /** A frame's cells are what they were. */
  ghost predicate CellsKept(c: Created, h0: Heap, h: Heap, f: nat) {
    forall a :: a in h0 && a in c && c[a].frame == f ==> a in h && h[a] == h0[a]
  }

  lemma ListedRaised(c: Created, h0: Heap, h: Heap, lists: seq<TokenList>, start: Addr, numToks: int)
    requires Listed(c, h0, lists, start, numToks) && Raised(h0, h)
    ensures Listed(c, h, lists, start, numToks)
  {
    forall f: nat | f < |lists|
      ensures OnFrame(c, h, f, lists[f].toks)
    {
      assert OnFrame(c, h0, f, lists[f].toks);
    }
  }

  lemma ListedFreed(c: Created, h: Heap, lists: seq<TokenList>, start: Addr, numToks: int, f: nat, list: TokenList,
                    numToks': int)
    requires Listed(c, h, lists, start, numToks) && f < |lists| && forall a :: a in lists[f].toks ==> a in h
    requires list.toks == Survivors(h, lists[f].toks) && numToks' - |list.toks| == numToks - |lists[f].toks|
    ensures Listed(c, WithoutSpent(h, lists[f].toks), lists[f := list], start, numToks')
  {
    TotalUpdated(lists, f, list);
    FreedListsOk(c, h, lists, f, list);
    if f == 0 {
      FreedStartIsLast(h, lists[0].toks, start);
    }
  }

  lemma ListedFrame(c: Created, h: Heap, lists: seq<TokenList>, start: Addr, numToks: int, f: nat)
    requires Listed(c, h, lists, start, numToks) && f < |lists|
    ensures OnFrame(c, h, f, lists[f].toks) && (forall a :: a in lists[f].toks ==> a in h && a in c && c[a].frame == f)
    ensures ListsOk(c, h, lists)
  {
  }

  /** Tokens on different lists are different. */
  lemma ListsApart(c: Created, h: Heap, lists: seq<TokenList>, f: nat, k: nat, a: Addr)
    requires ListsOk(c, h, lists) && f < |lists| && k < |lists| && f != k && a in lists[k].toks
    ensures a !in lists[f].toks && a in h
  {
    assert OnFrame(c, h, f, lists[f].toks) && OnFrame(c, h, k, lists[k].toks);
  }

  /** Pruning one frame's links leaves the flags right, if the frame before is marked when an excess has changed. */
  lemma PrunedFlagsOk(c: Created, h0: Heap, h: Heap, lists: seq<TokenList>, lists': seq<TokenList>, f: nat,
                      extraCostsChanged: bool)
    requires WellFormed(c) && Agree(c, h0) && Live(h0) && Live(h) && ListsOk(c, h0, lists) && FlagsOk(h0, lists)
    requires f < |lists| == |lists'| && RaisedOnly(h0, h, lists[f].toks) && (!extraCostsChanged ==> SameStatus(h0, h))
    requires forall a :: a in lists[f].toks ==> a in h && NoDead(h, a) && LeadsOn(h, a)
    requires forall k: nat :: k < |lists| ==> lists'[k].toks == lists[k].toks
    requires forall k: nat :: k < |lists| && k != f && !lists'[k].mustPruneForwardLinks ==> !lists[k].mustPruneForwardLinks
    requires extraCostsChanged && f > 0 ==> lists'[f - 1].mustPruneForwardLinks
    ensures FlagsOk(h, lists')
  {
    forall k: nat, a | k < |lists'| && k != f && !lists'[k].mustPruneForwardLinks && a in lists'[k].toks
      ensures a in h && NoDead(h, a) && LeadsOn(h, a)
    {
      ListsApart(c, h0, lists, f, k, a);
      assert NoDead(h0, a) && h[a] == h0[a];
      forall l | l in h[a].links
        ensures h[l.nextTok].extraCost.Fin?
      {
        assert OnFrame(c, h0, k, lists[k].toks) && OnFrame(c, h0, f, lists[f].toks);
        SlackInHeap(c, h0, a, l);
      }
    }
  }

  lemma FreedFlagsOk(c: Created, h: Heap, lists: seq<TokenList>, lists': seq<TokenList>, f: nat)
    requires Live(h) && ListsOk(c, h, lists) && FlagsOk(h, lists) && f < |lists| == |lists'|
    requires Live(WithoutSpent(h, lists[f].toks))
    requires forall a :: a in lists[f].toks ==> a in h
    requires lists'[f].toks == Survivors(h, lists[f].toks)
    requires forall k: nat :: k < |lists| ==>
      (k != f ==> lists'[k].toks == lists[k].toks) && lists'[k].mustPruneForwardLinks == lists[k].mustPruneForwardLinks
    ensures FlagsOk(WithoutSpent(h, lists[f].toks), lists')
  {
    var h' := WithoutSpent(h, lists[f].toks);
    forall k: nat, a | k < |lists'| && !lists'[k].mustPruneForwardLinks && a in lists'[k].toks
      ensures a in h' && NoDead(h', a) && LeadsOn(h', a)
    {
      if k != f {
        ListsApart(c, h, lists, f, k, a);
      }
      assert a in lists[k].toks && NoDead(h, a);
    }
  }

  /** A frame whose spent tokens have been freed has nothing but tokens that lead on. */
  lemma FreedMarksOk(c: Created, h: Heap, lists: seq<TokenList>, lists': seq<TokenList>, f: nat)
    requires ListsOk(c, h, lists) && MarksOk(h, lists) && f < |lists| == |lists'|
    requires forall a :: a in lists[f].toks ==> a in h && LeadsOn(h, a)
    requires lists'[f].toks == Survivors(h, lists[f].toks)
    requires forall k: nat :: k < |lists| && k != f ==> lists'[k] == lists[k]
    ensures MarksOk(WithoutSpent(h, lists[f].toks), lists')
  {
    forall k: nat, a | k < |lists'| && !lists'[k].mustPruneTokens && a in lists'[k].toks
      ensures a in WithoutSpent(h, lists[f].toks) && h[a].extraCost.Fin? && h[a].links != []
    {
      if k != f {
        ListsApart(c, h, lists, f, k, a);
      }
    }
  }

  lemma CellsKeptRaised(c: Created, h0: Heap, h: Heap, lists: seq<TokenList>, f: nat, n: nat)
    requires ListsOk(c, h0, lists) && f < |lists| && RaisedOnly(h0, h, lists[f].toks) && n != f
    ensures CellsKept(c, h0, h, n)
  {
    assert OnFrame(c, h0, f, lists[f].toks);
  }

  lemma CellsKeptFreed(c: Created, h: Heap, lists: seq<TokenList>, f: nat, n: nat)
    requires ListsOk(c, h, lists) && f < |lists| && n != f
    ensures CellsKept(c, h, WithoutSpent(h, lists[f].toks), n)
  {
    assert OnFrame(c, h, f, lists[f].toks);
  }

  // ----- every frame stays alive -----

  /** Pruning towards frame n has somewhere to go: a token there is on a path within the beam. */
  ghost predicate Anchored(c: Created, term: Terminal, beam: nat, start: Addr, n: nat) {
    && WellFormed(c) && Tight(c, start) && start in c && c[start].frame == 0
    && exists z :: z in term && z in c && c[z].frame == n && term[z].Le(Fin(beam))
  }

  /** A path meets every frame between its ends. */
  lemma {:induction false} MeetsFrame(c: Created, a: Addr, p: seq<ForwardLink>, z: Addr, f: nat) returns (b: Addr,
                                      q: seq<ForwardLink>)
    requires WellFormed(c) && IsPath(c, a, p, z) && a in c && z in c && c[a].frame <= f <= c[z].frame
    ensures b in c && c[b].frame == f && IsPath(c, b, q, z) && PathSlack(c, b, q, z) <= PathSlack(c, a, p, z)
    decreases |p|
  {
    if c[a].frame == f {
      b, q := a, p;
    } else {
      assert LinkOk(c, a, p[0]);
      b, q := MeetsFrame(c, p[0].nextTok, p[1..], z, f);
    }
  }

  /** No frame runs out of tokens. */
  lemma FrameAlive(c: Created, h: Heap, term: Terminal, beam: nat, start: Addr, n: nat, lists: seq<TokenList>, f: nat)
    requires Consistent(c, h, term, beam) && Anchored(c, term, beam, start, n) && f <= n < |lists| && ListsOk(c, h, lists)
    ensures lists[f].toks != []
  {
    hide Agree, Live, Bounded, Spent, TerminalBound;
    var z :| z in term && z in c && c[z].frame == n && term[z].Le(Fin(beam));
    var p :| ZeroPath(c, start, p, z);
    var b, q := MeetsFrame(c, start, p, z, f);
    assert Excess(c, term, b, q, z).Le(Fin(beam));
    assert Intact(h, b, q, Excess(c, term, b, q, z));
    assert OnFrame(c, h, f, lists[f].toks);
  }

  /** The start token is never freed. */
  lemma StartAlive(c: Created, h: Heap, term: Terminal, beam: nat, start: Addr, n: nat)
    requires Consistent(c, h, term, beam) && Anchored(c, term, beam, start, n)
    ensures start in h
  {
    hide Agree, Live, Bounded, Spent, TerminalBound;
    var z :| z in term && z in c && c[z].frame == n && term[z].Le(Fin(beam));
    var p :| ZeroPath(c, start, p, z);
    assert Excess(c, term, start, p, z).Le(Fin(beam));
    assert Intact(h, start, p, Excess(c, term, start, p, z));
  }

  lemma CellsKeptRefl(c: Created, h: Heap, f: nat)
    ensures CellsKept(c, h, h, f)
  {
  }

  /** Marking does not touch the tokens. */
  ghost predicate SameToks(lists: seq<TokenList>, lists': seq<TokenList>) {
    |lists| == |lists'| && forall k: nat :: k < |lists| ==> lists'[k].toks == lists[k].toks
  }

  /** The lists with the marks that pruning the links of frame f makes necessary. */
  function Marked(lists: seq<TokenList>, f: nat, extraCostsChanged: bool, linksPruned: bool): seq<TokenList>
    requires f < |lists|
  {
    var lists1 := if extraCostsChanged && f > 0 then lists[f - 1 := lists[f - 1].(mustPruneForwardLinks := true)] else lists;
    var lists2 := if linksPruned then lists1[f := lists1[f].(mustPruneTokens := true)] else lists1;
    lists2[f := lists2[f].(mustPruneForwardLinks := false)]
  }

  lemma MarkedFacts(lists: seq<TokenList>, f: nat, extraCostsChanged: bool, linksPruned: bool)
    requires f < |lists|
    ensures var lists' := Marked(lists, f, extraCostsChanged, linksPruned);
      && SameToks(lists, lists') && !lists'[f].mustPruneForwardLinks
      && (forall k: nat :: k < f && lists[k].mustPruneForwardLinks ==> lists'[k].mustPruneForwardLinks)
      && (forall k: nat :: f < k < |lists| ==> lists'[k] == lists[k])
      && (forall k: nat :: k < |lists| && k != f && !lists'[k].mustPruneForwardLinks ==> !lists[k].mustPruneForwardLinks)
      && (forall k: nat :: k < |lists| && !lists'[k].mustPruneTokens ==> !lists[k].mustPruneTokens && (k == f ==> !linksPruned))
      && (extraCostsChanged && f > 0 ==> lists'[f - 1].mustPruneForwardLinks)
  {
  }

  lemma {:induction false} SameTotal(lists: seq<TokenList>, lists': seq<TokenList>)
    requires SameToks(lists, lists')
    ensures TotalTokens(lists') == TotalTokens(lists)
  {
    if lists != [] {
      SameTotal(lists[..|lists| - 1], lists'[..|lists| - 1]);
    }
  }

  /** A frame whose links have been pruned leads on, apart from its spent tokens. */
  lemma PrunedLeadsOn(h: Heap, list: seq<Addr>, delta: nat, beam: nat, term: Terminal)
    requires ListPruned(h, list, delta, beam, term) && forall a :: a in list ==> a !in term
    ensures forall a :: a in list ==> a in h && LeadsOn(h, a)
  {
  }

  /** Pruning one frame's links leaves the marks right, if the frame is marked when a link has gone. */
  lemma PrunedMarksOk(c: Created, h0: Heap, h: Heap, lists: seq<TokenList>, lists': seq<TokenList>, f: nat,
                      linksPruned: bool)
    requires ListsOk(c, h0, lists) && MarksOk(h0, lists) && Spent(h)
    requires f < |lists| && RaisedOnly(h0, h, lists[f].toks) && (!linksPruned ==> SameLinks(h0, h)) && SameToks(lists, lists')
    requires forall k: nat :: k < |lists| && !lists'[k].mustPruneTokens ==> !lists[k].mustPruneTokens && (k == f ==> !linksPruned)
    ensures MarksOk(h, lists')
  {
    forall k: nat, a | k < |lists'| && !lists'[k].mustPruneTokens && a in lists'[k].toks
      ensures a in h && h[a].extraCost.Fin? && h[a].links != []
    {
      assert a in lists[k].toks && a in h0;
      if k != f {
        ListsApart(c, h0, lists, f, k, a);
      }
    }
  }

  /** The frames before n whose links were marked for pruning have been pruned. */
  ghost predicate MarkedPruned(lists0: seq<TokenList>, h: Heap, lists: seq<TokenList>, n: nat, delta: nat, beam: nat) {
    forall k: nat :: k < n && k < |lists0| && lists0[k].mustPruneForwardLinks ==>
      k < |lists| && ListPruned(h, lists[k].toks, delta, beam, map[])
  }

  lemma MarkedBefore(lists0: seq<TokenList>, lists1: seq<TokenList>, h: Heap, lists: seq<TokenList>, n: nat, delta: nat, beam: nat)
    requires lists0 <= lists1 && MarkedPruned(lists1, h, lists, n, delta, beam)
    ensures MarkedPruned(lists0, h, lists, n, delta, beam)
  {
    hide ListPruned;
  }

  /** What pruning the links of frame f keeps. */
  lemma LinksPruned(c: Created, h0: Heap, h: Heap, lists: seq<TokenList>, start: Addr, numToks: int,
                    f: nat, n: nat, extraCostsChanged: bool, linksPruned: bool, delta: nat, beam: nat, term: Terminal)
    requires Consistent(c, h0, term, beam) && Listed(c, h0, lists, start, numToks) && f < |lists| && f != n
    requires Live(h0) && FlagsOk(h0, lists) && MarksOk(h0, lists) && Spent(h)
    requires RaisedOnly(h0, h, lists[f].toks) && (!extraCostsChanged ==> SameStatus(h0, h)) && (!linksPruned ==> SameLinks(h0, h))
    requires ListPruned(h, lists[f].toks, delta, beam, term) && forall a :: a in lists[f].toks ==> a !in term
    ensures var lists' := Marked(lists, f, extraCostsChanged, linksPruned);
      Listed(c, h, lists', start, numToks) && Live(h) && FlagsOk(h, lists') && MarksOk(h, lists') && CellsKept(c, h0, h, n)
    ensures ListPruned(h, lists[f].toks, delta, beam, map[])
    ensures forall k: nat :: f < k < |lists| && ListPruned(h0, lists[k].toks, delta, beam, map[]) ==>
      ListPruned(h, lists[k].toks, delta, beam, map[])
  {
    hide NoDead, Settled, SettledNearly, SameStatus, SameLinks, Safe, Bounded, FlagsOk, MarksOk, OnFrame, LeadsOn,
      Spent,
      Raised, TerminalBound, TerminalOk, Marked;
    var lists' := Marked(lists, f, extraCostsChanged, linksPruned);
    MarkedFacts(lists, f, extraCostsChanged, linksPruned);
    RaisedOnlyRaises(h0, h, lists[f].toks);
    ListedRaised(c, h0, h, lists, start, numToks);
    SameTotal(lists, lists');
    CellsKeptRaised(c, h0, h, lists, f, n);
    PrunedLeadsOn(h, lists[f].toks, delta, beam, term);
    PrunedFlagsOk(c, h0, h, lists, lists', f, extraCostsChanged);
    PrunedMarksOk(c, h0, h, lists, lists', f, linksPruned);
    TerminalElsewhere(h, lists[f].toks, delta, beam, term);
    forall k: nat | f < k < |lists| && ListPruned(h0, lists[k].toks, delta, beam, map[])
      ensures ListPruned(h, lists[k].toks, delta, beam, map[])
    {
      PrunedStays(c, h0, h, lists, f, k, delta, beam);
    }
  }

  /** A settled token stays settled as long as neither it nor the ends of its links move. */
  lemma NearlyStays(h0: Heap, h: Heap, a: Addr, beam: nat, delta: nat)
    requires Live(h0) && Live(h) && a in h0 && a in h && h[a] == h0[a]
    requires forall l :: l in h[a].links ==> l.nextTok in h0 && l.nextTok in h && h[l.nextTok] == h0[l.nextTok]
    requires NoDead(h0, a) && SettledNearly(h0, a, beam, Inf, delta, []) && (delta == 0 ==> Settled(h0, a, beam, Inf))
    ensures NoDead(h, a) && SettledNearly(h, a, beam, Inf, delta, []) && (delta == 0 ==> Settled(h, a, beam, Inf))
  {
    assert forall l :: l in h[a].links ==> LinkExtra(h, a, l) == LinkExtra(h0, a, l);
  }

  /** Pruning an earlier frame does not disturb a pruned one. */
  lemma PrunedStays(c: Created, h0: Heap, h: Heap, lists: seq<TokenList>, f: nat, k: nat, delta: nat, beam: nat)
    requires WellFormed(c) && Agree(c, h0) && Live(h) && ListsOk(c, h0, lists) && f < k < |lists|
    requires RaisedOnly(h0, h, lists[f].toks) && ListPruned(h0, lists[k].toks, delta, beam, map[])
    ensures ListPruned(h, lists[k].toks, delta, beam, map[])
  {
    hide SettledNearly, Settled, NoDead;
    forall a | a in lists[k].toks
      ensures a in h && NoDead(h, a) && SettledNearly(h, a, beam, Inf, delta, []) && (delta == 0 ==> Settled(h, a, beam, Inf))
    {
      ListsApart(c, h0, lists, f, k, a);
      assert OnFrame(c, h0, k, lists[k].toks) && OnFrame(c, h0, f, lists[f].toks);
      forall l | l in h[a].links
        ensures l.nextTok in h0 && l.nextTok in h && h[l.nextTok] == h0[l.nextTok]
      {
        SlackInHeap(c, h0, a, l);
      }
      NearlyStays(h0, h, a, beam, delta);
    }
  }

  /** Freeing spent tokens does not disturb a pruned frame either. */
  lemma PrunedStaysFreed(h: Heap, freed: seq<Addr>, list: seq<Addr>, list': seq<Addr>, delta: nat, beam: nat)
    requires Live(WithoutSpent(h, freed)) && ListPruned(h, list, delta, beam, map[])
    requires forall a :: a in list' ==> a in list && a in WithoutSpent(h, freed)
    ensures ListPruned(WithoutSpent(h, freed), list', delta, beam, map[])
  {
    hide SettledNearly, Settled;
    var h' := WithoutSpent(h, freed);
    forall a | a in list'
      ensures NoDead(h', a) && SettledNearly(h', a, beam, Inf, delta, []) && (delta == 0 ==> Settled(h', a, beam, Inf))
    {
      NearlyStays(h, h', a, beam, delta);
    }
  }

  lemma MarksClean(h: Heap, lists: seq<TokenList>, n: nat)
    requires MarksOk(h, lists) && n <= |lists| && forall k: nat :: 0 < k < n ==> !lists[k].mustPruneTokens
    ensures Clean(h, lists, n)
  {
  }

  /** Where no token is terminal, the terminal costs do not matter. */
  lemma TerminalElsewhere(h: Heap, list: seq<Addr>, delta: nat, beam: nat, term: Terminal)
    requires ListPruned(h, list, delta, beam, term) && forall a :: a in list ==> a !in term
    ensures ListPruned(h, list, delta, beam, map[])
  {
  }

  lemma CellsKeptTransitive(c: Created, h0: Heap, h1: Heap, h2: Heap, f: nat)
    requires CellsKept(c, h0, h1, f) && CellsKept(c, h1, h2, f)
    ensures CellsKept(c, h0, h2, f)
  {
  }

  /** The flags say that frame f has no dead link. */
  lemma FlagsNoDead(h: Heap, lists: seq<TokenList>, f: nat)
    requires Live(h) && FlagsOk(h, lists) && f < |lists| && !lists[f].mustPruneForwardLinks
    ensures forall a :: a in lists[f].toks ==> a in h && NoDead(h, a) && LeadsOn(h, a)
  {
  }

  /** What freeing the spent tokens of frame f keeps: its links and those of the frame before have been pruned. */
  lemma TokensFreed(c: Created, h: Heap, lists: seq<TokenList>, lists': seq<TokenList>, start: Addr, numToks: int,
                    numToks': int,
                    f: nat, n: nat, beam: nat, term: Terminal)
    requires Consistent(c, h, term, beam) && Listed(c, h, lists, start, numToks) && f < |lists|
    requires forall a :: a in lists[f].toks ==> a in h && NoDead(h, a)
    requires f > 0 ==> forall a :: a in lists[f - 1].toks ==> a in h && NoDead(h, a)
    requires |lists'| == |lists| && lists' == lists[f := lists'[f]] && lists'[f].toks == Survivors(h, lists[f].toks)
    requires numToks' - |lists'[f].toks| == numToks - |lists[f].toks|
    ensures var h' := WithoutSpent(h, lists[f].toks);
            && Consistent(c, h', term, beam) && Listed(c, h', lists', start, numToks')
            && (f != n ==> CellsKept(c, h, h', n))
  {
    hide NoDead, Safe, Bounded, Survivors, WithoutSpent, CellsKept, LinkOk;
    FrameUnreferenced(c, h, lists, f);
    FreeingKeepsConsistent(c, h, lists[f].toks, term, beam);
    ListedFreed(c, h, lists, start, numToks, f, lists'[f], numToks');
    if f != n {
      CellsKeptFreed(c, h, lists, f, n);
    }
  }

  // ----- ownership -----

  /** Every live token is on exactly one list, once, and every listed token is live. */
  ghost predicate Owns(h: Heap, lists: seq<TokenList>, numToks: int) {
    && numToks == TotalTokens(lists)
    && (forall f: nat :: f < |lists| ==> NoDuplicates(lists[f].toks))
    && (forall f: nat, a :: f < |lists| && a in lists[f].toks ==> a in h)
    && (forall f: nat, k: nat, a :: f < k < |lists| && a in lists[f].toks ==> a !in lists[k].toks)
    && (forall a :: a in h ==> exists f: nat :: f < |lists| && a in lists[f].toks)
  }

  lemma ListedOwns(c: Created, h: Heap, lists: seq<TokenList>, start: Addr, numToks: int)
    requires Listed(c, h, lists, start, numToks) && Agree(c, h) && forall a :: a in c ==> c[a].frame < |lists|
    ensures Owns(h, lists, numToks)
  {
    forall f: nat | f < |lists|
      ensures OnFrame(c, h, f, lists[f].toks)
    {
    }
    forall a | a in h
      ensures exists f: nat :: f < |lists| && a in lists[f].toks
    {
      assert a in lists[c[a].frame].toks;
    }
  }

  /** Ownership is about addresses only, and an empty list owns nothing. */
  lemma OwnsWithNewFrame(h: Heap, h': Heap, lists: seq<TokenList>, numToks: int)
    requires Owns(h, lists, numToks) && h'.Keys == h.Keys
    ensures Owns(h', lists + [TokenList([], true, true)], numToks)
  {
    var lists' := lists + [TokenList([], true, true)];
    TotalExtended(lists, TokenList([], true, true));
    forall a | a in h'
      ensures exists f: nat :: f < |lists'| && a in lists'[f].toks
    {
      var f: nat :| f < |lists| && a in lists[f].toks;
      assert a in lists'[f].toks;
    }
  }

  lemma {:induction false} TotalSplit(lists: seq<TokenList>)
    requires lists != []
    ensures TotalTokens(lists) == |lists[0].toks| + TotalTokens(lists[1..])
  {
    var n := |lists| - 1;
    if n > 0 {
      TotalSplit(lists[..n]);
      assert lists[..n][1..] == lists[1..][..n - 1];
    }
  }

  lemma OwnsFirst(h: Heap, lists: seq<TokenList>, numToks: int)
    requires lists != [] && Owns(h, lists, numToks)
    ensures NoDuplicates(lists[0].toks) && forall a :: a in lists[0].toks ==> a in h
  {
  }

  lemma OwnsNothing(h: Heap, numToks: int)
    requires Owns(h, [], numToks)
    ensures h == map[] && numToks == 0
  {
    assert h.Keys == {};
  }

  /** The first frame's tokens have been deleted. */
  lemma OwnsRest(h: Heap, h': Heap, lists: seq<TokenList>, numToks: int)
    requires lists != [] && Owns(h, lists, numToks)
    requires h'.Keys == h.Keys - (set a | a in lists[0].toks)
    ensures Owns(h', lists[1..], numToks - |lists[0].toks|)
  {
    TotalSplit(lists);
    var rest := lists[1..];
    forall f: nat | f < |rest|
      ensures rest[f] == lists[f + 1]
    {
    }
    forall a | a in h'
      ensures exists f: nat :: f < |rest| && a in rest[f].toks
    {
      var f: nat :| f < |lists| && a in lists[f].toks;
      assert a in rest[f - 1].toks;
    }
  }
}
