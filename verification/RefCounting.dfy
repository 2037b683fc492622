/** Reference-counted tokens, each holding on to the token it came from. */
module RefCounting {
  import opened Basics
  import opened Composition
  import opened Costs

  type Addr = nat

  datatype Token = Token(arc: Arc, prev: Option<Addr>, refCount: int, weight: Cost)

  type Heap = map<Addr, Token>

  ghost function Children(h: Heap, a: Addr): set<Addr> {
    set b | b in h && h[b].prev == Some(a)
  }

  /** Every count is the number of tokens and other holders that refer to the token.  No token is
      without a reference, and references lead to live, older tokens. */
  ghost predicate Counted(h: Heap, held: multiset<Addr>) {
    && (forall a :: a in held ==> a in h)
    && (forall a :: a in h ==> h[a].refCount == |Children(h, a)| + held[a] && h[a].refCount >= 1)
    && (forall a :: a in h && h[a].prev.Some? ==> h[a].prev.value in h && h[a].prev.value < a)
  }

  /** Tokens may have been freed and counts may have changed, but nothing else. */
  ghost predicate Shrunk(h0: Heap, h: Heap) {
    forall a :: a in h ==> a in h0 && h[a] == h0[a].(refCount := h[a].refCount)
  }

  lemma CountedToken(h: Heap, held: multiset<Addr>, a: Addr)
    requires Counted(h, held) && a in held
    ensures a in h && h[a].refCount >= 1 && (h[a].prev.Some? ==> h[a].prev.value in h && h[a].prev.value < a)
  {
  }

  lemma ChainLive(h: Heap, held: multiset<Addr>, a: Addr)
    requires Counted(h, held) && a in h
    ensures h[a].prev.Some? ==> h[a].prev.value in h && h[a].prev.value < a
  {
  }

  function Recounted(h: Heap, a: Addr, d: int): Heap
    requires a in h
  {
    h[a := h[a].(refCount := h[a].refCount + d)]
  }

  lemma RecountedKeys(h: Heap, a: Addr, d: int)
    requires a in h
    ensures Recounted(h, a, d).Keys == h.Keys
  {
  }

  lemma RecountedChildren(h: Heap, a: Addr, d: int, b: Addr)
    requires a in h
    ensures Children(Recounted(h, a, d), b) == Children(h, b)
  {
  }

  lemma NewTokenChildren(h: Heap, tok: Addr, t: Token, a: Addr)
    requires tok !in h && t.prev.Some? && t.prev.value in h
    ensures var h' := Recounted(h, t.prev.value, 1)[tok := t];
            Children(h', a) == Children(h, a) + (if a == t.prev.value then {tok} else {}) && tok !in Children(h, a)
  {
  }

  /** A new token holds its predecessor, and is held by whoever made it. */
  lemma NewTokenCounted(h: Heap, held: multiset<Addr>, tok: Addr, t: Token)
    requires Counted(h, held) && tok !in h && t.prev.Some? && t.prev.value in h && t.prev.value < tok && t.refCount == 1
    ensures Counted(Recounted(h, t.prev.value, 1)[tok := t], held + multiset{tok})
  {
    hide Children;
    var prev := t.prev.value;
    var h' := Recounted(h, prev, 1)[tok := t];
    forall a | a in h'
      ensures h'[a].refCount == |Children(h', a)| + (held + multiset{tok})[a]
    {
      NewTokenChildren(h, tok, t, a);
      if a == tok {
        NoChildrenYet(h, held, tok);
      }
    }
  }

  lemma NoChildrenYet(h: Heap, held: multiset<Addr>, tok: Addr)
    requires Counted(h, held) && tok !in h
    ensures Children(h, tok) == {} && held[tok] == 0
  {
  }

  lemma FirstTokenCounted(tok: Addr, t: Token)
    requires t.prev.None? && t.refCount == 1
    ensures Counted(map[tok := t], multiset{tok})
  {
    var h := map[tok := t];
    assert Children(h, tok) == {};
  }

  /** One holder of several lets go. */
  lemma ReleaseCounted(h: Heap, held: multiset<Addr>, tok: Addr)
    requires Counted(h, held) && tok in held && h[tok].refCount > 1
    ensures Counted(Recounted(h, tok, -1), held - multiset{tok})
  {
    var h' := Recounted(h, tok, -1);
    forall a | a in h'
      ensures h'[a].refCount == |Children(h', a)| + (held - multiset{tok})[a]
    {
      RecountedChildren(h, tok, -1, a);
    }
  }

  /** The last holder lets go: nobody refers to the token, and it hands its own reference on. */
  lemma FreeCounted(h: Heap, held: multiset<Addr>, tok: Addr)
    requires Counted(h, held) && tok in held && h[tok].refCount == 1
    ensures var rest := held - multiset{tok};
            if h[tok].prev.None? then Counted(h - {tok}, rest)
            else Counted(h - {tok}, rest + multiset{h[tok].prev.value})
  {
    var h' := h - {tok};
    var rest := held - multiset{tok};
    var held' := if h[tok].prev.None? then rest else rest + multiset{h[tok].prev.value};
    assert Children(h, tok) == {};
    forall a | a in h'
      ensures h'[a].refCount == |Children(h', a)| + held'[a]
      ensures h'[a].prev.Some? ==> h'[a].prev.value in h'
    {
      if h[tok].prev == Some(a) {
        assert Children(h, a) == Children(h', a) + {tok};
      } else {
        assert Children(h', a) == Children(h, a);
      }
      if h[a].prev.Some? {
        assert a !in Children(h, tok);
      }
    }
  }

  /** Once nothing is held, nothing is left: the newest token would have no reference. */
  lemma NothingHeld(h: Heap)
    requires Counted(h, multiset{})
    ensures h == map[]
  {
    if h != map[] {
      var newest := Newest(h.Keys);
      NewestChildless(h, newest);
    }
  }

  lemma NewestChildless(h: Heap, a: Addr)
    requires forall b :: b in h && h[b].prev.Some? ==> h[b].prev.value < b
    requires forall b :: b in h ==> b <= a
    ensures Children(h, a) == {}
  {
  }

  lemma {:induction false} Newest(s: set<Addr>) returns (a: Addr)
    requires s != {}
    ensures a in s && forall b :: b in s ==> b <= a
    decreases |s|
  {
    var x :| x in s;
    var rest := s - {x};
    assert forall b :: b in s ==> b == x || b in rest;
    a := x;
    if rest != {} {
      a := Newest(rest);
      if x > a {
        a := x;
      }
    }
  }

  // ----- nothing that can be reached is freed -----

  /** Token b is among the tokens that a came from. */
  ghost predicate Ancestor(h: Heap, a: Addr, b: Addr, steps: nat)
    decreases steps
  {
    a in h && if steps == 0 then a == b else h[a].prev.Some? && Ancestor(h, h[a].prev.value, b, steps - 1)
  }

  /** Whatever has been freed in between, a held token still has all its ancestors, and they are what they were. */
  lemma {:induction false} AncestorsKept(h0: Heap, h: Heap, held: multiset<Addr>, a: Addr, b: Addr, steps: nat)
    requires Shrunk(h0, h) && Counted(h, held) && a in h && Ancestor(h0, a, b, steps)
    ensures Ancestor(h, a, b, steps) && b in h && b in h0 && h[b] == h0[b].(refCount := h[b].refCount)
    decreases steps
  {
    if steps > 0 {
      AncestorsKept(h0, h, held, h0[a].prev.value, b, steps - 1);
    }
  }

  /** A token that came and went leaves no trace. */
  lemma ShrunkWithout(h0: Heap, h1: Heap, h2: Heap, tok: Addr)
    requires Shrunk(h0, h1 - {tok}) && Shrunk(h1, h2) && tok !in h2
    ensures Shrunk(h0, h2)
  {
    forall a | a in h2
      ensures a in h0 && h2[a] == h0[a].(refCount := h2[a].refCount)
    {
      assert a in h1 - {tok};
    }
  }

  lemma NewTokenShrunk(h: Heap, prev: Addr, tok: Addr, t: Token)
    requires prev in h && tok !in h
    ensures Shrunk(h, Recounted(h, prev, 1)[tok := t] - {tok})
  {
  }

  lemma ShrunkRefl(h: Heap)
    ensures Shrunk(h, h)
  {
  }

  lemma ShrunkKeys(h0: Heap, h: Heap)
    requires Shrunk(h0, h)
    ensures forall a :: a in h ==> a in h0
  {
  }

  // ----- references from a table -----

  ghost function References(toks: map<PairId, Addr>): multiset<Addr> {
    multiset(toks.Values)
  }

  ghost predicate Injective(toks: map<PairId, Addr>) {
    forall p, q :: p in toks && q in toks && toks[p] == toks[q] ==> p == q
  }

  lemma NoReferences()
    ensures References(map[]) == multiset{}
  {
    var none: map<PairId, Addr> := map[];
    assert none.Values == {};
  }

  lemma ReferencesHeld(toks: map<PairId, Addr>, rest: multiset<Addr>)
    ensures forall p :: p in toks ==> toks[p] in References(toks) + rest
  {
  }

  lemma ReferenceAdded(toks: map<PairId, Addr>, p: PairId, a: Addr)
    requires a !in toks.Values && p !in toks
    ensures References(toks[p := a]) == References(toks) + multiset{a}
  {
    assert toks[p := a].Values == toks.Values + {a} by {
      assert toks[p := a][p] == a;
      assert forall q :: q in toks ==> toks[p := a][q] == toks[q];
    }
  }

  lemma ReferenceReplaced(toks: map<PairId, Addr>, p: PairId, a: Addr)
    requires Injective(toks) && a !in toks.Values && p in toks
    ensures References(toks[p := a]) + multiset{toks[p]} == References(toks) + multiset{a}
  {
    assert toks[p := a].Values == toks.Values - {toks[p]} + {a} by {
      assert toks[p := a][p] == a;
      assert forall q :: q in toks && q != p ==> toks[p := a][q] == toks[q];
    }
  }

  lemma ReferenceRemoved(toks: map<PairId, Addr>, p: PairId)
    requires Injective(toks) && p in toks
    ensures References(toks) == References(toks - {p}) + multiset{toks[p]}
    ensures Injective(toks - {p})
  {
    assert toks.Values == (toks - {p}).Values + {toks[p]} by {
      forall q | q in toks
        ensures toks[q] in (toks - {p}).Values + {toks[p]}
      {
        if q != p {
          assert (toks - {p})[q] == toks[q];
        }
      }
    }
    assert toks[p] !in (toks - {p}).Values;
  }
}
