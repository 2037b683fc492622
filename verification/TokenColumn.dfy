/** The tokens of the frame that is being worked on, and how they are found or added. */
module TokenColumn {
  import opened Basics
  import opened Composition
  import opened Costs
  import opened Lattice

  /** The heap, with the hash and the token list of the current frame.  pairOf remembers
      which pair of states each address was allocated for; next is the next unused address. */
  datatype Column = Column(
    heap: Heap, toks: map<PairId, Addr>, list: seq<Addr>, pairOf: map<Addr, PairId>, next: Addr)

  /** Hash and list hold the same tokens, each under the pair it was made for. */
  ghost predicate ColumnOk(g: Graph, col: Column) {
    && (forall p :: p in col.toks ==>
          && IsPair(g, p) && col.toks[p] in col.heap && col.toks[p] in col.list
          && col.toks[p] in col.pairOf && col.pairOf[col.toks[p]] == p)
    && (forall a :: a in col.list ==>
          a in col.pairOf && col.pairOf[a] in col.toks && col.toks[col.pairOf[a]] == a)
    && (forall a :: a in col.heap ==> a < col.next)
    && (forall a :: a in col.pairOf ==> a < col.next)
    && NoDuplicates(col.list)
  }

  ghost predicate Has(col: Column, p: PairId) {
    p in col.toks && col.toks[p] in col.heap
  }

  lemma ColumnHas(g: Graph, col: Column)
    requires ColumnOk(g, col)
    ensures forall p :: p in col.toks <==> Has(col, p)
  {
  }

  lemma ColumnApart(g: Graph, col: Column, p: PairId, q: PairId)
    requires ColumnOk(g, col) && Has(col, p) && Has(col, q) && p != q
    ensures col.toks[p] != col.toks[q]
  {
  }

  ghost function CostAt(col: Column, p: PairId): int
    requires Has(col, p)
  {
    col.heap[col.toks[p]].totCost
  }

  ghost function LinksAt(col: Column, p: PairId): seq<ForwardLink>
    requires Has(col, p)
  {
    col.heap[col.toks[p]].links
  }

  ghost predicate IsNewOrBetter(col: Column, p: PairId, cost: int) {
    Has(col, p) ==> CostAt(col, p) > cost
  }

  /** Adds a token at the head of the list, or lowers the cost of the one there is. */
  ghost function FindOrAdd(col: Column, p: PairId, cost: int): Column {
    if p !in col.toks then
      Column(col.heap[col.next := Token(cost, Fin(0), [])], col.toks[p := col.next],
             [col.next] + col.list, col.pairOf[col.next := p], col.next + 1)
    else if col.toks[p] in col.heap && CostAt(col, p) > cost then
      col.(heap := col.heap[col.toks[p] := col.heap[col.toks[p]].(totCost := cost)])
    else col
  }

  /** Puts a link at the head of a token's links. */
  ghost function AddLink(col: Column, a: Addr, l: ForwardLink): Column
    requires a in col.heap
  {
    SetLinks(col, a, [l] + col.heap[a].links)
  }

  ghost function SetLinks(col: Column, a: Addr, ls: seq<ForwardLink>): Column
    requires a in col.heap
  {
    col.(heap := col.heap[a := col.heap[a].(links := ls)])
  }

  /** Tokens stay where they are, costs only fall, and other heap cells are left alone. */
  ghost predicate Grows(col0: Column, col: Column) {
    && (forall p :: p in col0.toks ==> p in col.toks && col.toks[p] == col0.toks[p])
    && (forall p :: Has(col0, p) ==> Has(col, p) && CostAt(col, p) <= CostAt(col0, p))
    && (forall a :: a in col0.heap ==>
          a in col.heap && col.heap[a].extraCost == col0.heap[a].extraCost)
    && (forall a :: a in col0.pairOf ==> a in col.pairOf && col.pairOf[a] == col0.pairOf[a])
    && (forall a :: a in col0.list ==> a in col.list)
    && col0.next <= col.next
    && (forall a :: a in col.heap && a !in col0.heap ==>
          a in col.list && a >= col0.next && col.heap[a].extraCost == Fin(0))
    && (forall a :: a in col.pairOf && a !in col0.pairOf ==> a in col.list)
    && (forall a :: a in col.list && a !in col0.list ==> a !in col0.heap && a >= col0.next)
  }

  lemma GrowsTransitive(col0: Column, col1: Column, col2: Column)
    requires Grows(col0, col1) && Grows(col1, col2)
    ensures Grows(col0, col2)
  {
  }

  lemma ConsNoDuplicates(a: Addr, s: seq<Addr>)
    requires NoDuplicates(s) && a !in s
    ensures NoDuplicates([a] + s)
  {
  }

  lemma FindOrAddOk(g: Graph, col: Column, p: PairId, cost: int)
    requires ColumnOk(g, col) && IsPair(g, p)
    ensures var col' := FindOrAdd(col, p, cost);
            && ColumnOk(g, col') && Has(col', p) && col'.toks.Keys == col.toks.Keys + {p}
            && CostAt(col', p) == (if IsNewOrBetter(col, p, cost) then cost else CostAt(col, p))
  {
    if p !in col.toks {
      AddOk(g, col, p, cost);
    } else {
      hide IsPair, NoDuplicates;
    }
  }

  lemma AddOk(g: Graph, col: Column, p: PairId, cost: int)
    requires ColumnOk(g, col) && IsPair(g, p) && p !in col.toks
    ensures var col' := FindOrAdd(col, p, cost);
            ColumnOk(g, col') && Has(col', p) && col'.toks.Keys == col.toks.Keys + {p} && CostAt(col', p) == cost
  {
    var col' := FindOrAdd(col, p, cost);
    assert col'.list == [col.next] + col.list && col'.pairOf == col.pairOf[col.next := p];
    ConsNoDuplicates(col.next, col.list);
    hide IsPair, NoDuplicates;
    forall a | a in col'.list
      ensures a in col'.pairOf && col'.pairOf[a] in col'.toks && col'.toks[col'.pairOf[a]] == a
    {
      if a != col.next {
        assert a in col.list;
      }
    }
  }

  lemma FindOrAddGrows(g: Graph, col: Column, p: PairId, cost: int)
    requires ColumnOk(g, col) && IsPair(g, p)
    ensures Grows(col, FindOrAdd(col, p, cost))
  {
    var col' := FindOrAdd(col, p, cost);
    if p !in col.toks {
      assert col'.list[0] == col.next && col'.list[1..] == col.list;
    }
  }

  /** Every other token is what it was. */
  lemma FindOrAddFrame(g: Graph, col: Column, p: PairId, cost: int, q: PairId)
    requires ColumnOk(g, col) && Has(col, q)
    ensures var col' := FindOrAdd(col, p, cost);
            && Has(col', q) && col'.toks[q] == col.toks[q] && LinksAt(col', q) == LinksAt(col, q)
            && (q != p || !IsNewOrBetter(col, p, cost) ==> CostAt(col', q) == CostAt(col, q))
            && (p !in col.toks ==> LinksAt(col', p) == [])
  {
  }

  lemma SetLinksOk(g: Graph, col: Column, a: Addr, ls: seq<ForwardLink>)
    requires ColumnOk(g, col) && a in col.heap
    ensures ColumnOk(g, SetLinks(col, a, ls)) && Grows(col, SetLinks(col, a, ls))
  {
  }

  lemma SetLinksFrame(col: Column, a: Addr, ls: seq<ForwardLink>, q: PairId)
    requires a in col.heap && Has(col, q)
    ensures var col' := SetLinks(col, a, ls);
            && Has(col', q) && CostAt(col', q) == CostAt(col, q)
            && LinksAt(col', q) == (if col.toks[q] == a then ls else LinksAt(col, q))
  {
  }
}
