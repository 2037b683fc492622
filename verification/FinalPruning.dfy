/** Pruning at the end of the utterance: final costs, and the backward sweep over all frames. */
module FinalPruning {
  import opened Composition
  import opened Costs
  import opened Lattice
  import opened LatticePruning
  import opened PruningPasses
  import opened ExactPruning
  import opened FrameHistory
  import opened FrameLists

  // ----- final costs -----

  /** Some token of the last frame is final. */
  ghost predicate FinalReached(g: Graph, c: Created, n: nat)
    requires g.Valid()
  {
    exists a :: a in c && c[a].frame == n && IsPair(g, c[a].pair) && PairFinal(g, c[a].pair).Fin?
  }

  /** The final costs to go by: if no token is final, all are. */
  ghost function FinalsOf(g: Graph, c: Created, n: nat): (finals: map<Addr, Cost>)
    requires g.Valid()
    ensures finals.Keys <= c.Keys
  {
    map a | a in c && c[a].frame == n && IsPair(g, c[a].pair) ::
      if FinalReached(g, c, n) then PairFinal(g, c[a].pair) else Fin(0)
  }

  /** The cost of the best complete path, final cost included. */
  ghost predicate IsBest(c: Created, finals: map<Addr, Cost>, best: int) {
    && (forall z :: z in finals && z in c ==> Fin(best).Le(finals[z].Plus(c[z].totCost)))
    && exists z :: z in finals && z in c && finals[z].Plus(c[z].totCost) == Fin(best)
  }

  /** The final costs of the surviving tokens. */
  ghost function FinalCosts(h: Heap, finals: map<Addr, Cost>): map<Addr, int> {
    map a | a in finals && a in h && h[a].extraCost.Fin? && finals[a].Fin? :: finals[a].value
  }

  // ----- scanning the last frame -----

  /** A least cost over some keys. */
  ghost predicate LeastOver(best: Cost, keys: set<PairId>, cost: map<PairId, Cost>) {
    && (forall p :: p in keys && p in cost ==> best.Le(cost[p]))
    && (best.Inf? || exists p :: p in keys && p in cost && best == cost[p])
  }

  ghost function CompleteCosts(g: Graph, h: Heap, toks: map<PairId, Addr>, withFinals: bool): map<PairId, Cost>
    requires g.Valid() && forall p :: p in toks ==> IsPair(g, p) && toks[p] in h
  {
    map p | p in toks :: (if withFinals then PairFinal(g, p) else Fin(0)).Plus(h[toks[p]].totCost)
  }

  /** The table of the tokens' final costs, as far as they have been scanned. */
  ghost predicate FinalTable(g: Graph, toks: map<PairId, Addr>, scanned: set<PairId>, table: map<Addr, Cost>)
    requires g.Valid() && forall p :: p in toks ==> IsPair(g, p)
  {
    && (forall p :: p in toks && p in scanned ==> toks[p] in table && table[toks[p]] == PairFinal(g, p))
    && forall a :: a in table ==> exists p :: p in toks && p in scanned && toks[p] == a
  }

  lemma TableStep(g: Graph, toks: map<PairId, Addr>, scanned: set<PairId>, table: map<Addr, Cost>, p: PairId)
    requires g.Valid() && (forall p :: p in toks ==> IsPair(g, p)) && p in toks
    requires FinalTable(g, toks, scanned, table) && forall q :: q in toks && toks[q] == toks[p] ==> q == p
    ensures FinalTable(g, toks, scanned + {p}, table[toks[p] := PairFinal(g, p)])
  {
    hide PairFinal, IsPair;
  }

  lemma FinalScanStarts(g: Graph, h: Heap, toks: map<PairId, Addr>)
    requires g.Valid() && forall p :: p in toks ==> IsPair(g, p) && toks[p] in h
    ensures FinalTable(g, toks, {}, map[])
    ensures forall finals :: LeastOver(Inf, {}, CompleteCosts(g, h, toks, finals))
    ensures forall p :: p in toks ==>
      && p in CompleteCosts(g, h, toks, true) && p in CompleteCosts(g, h, toks, false)
      && CompleteCosts(g, h, toks, true)[p] == Fin(h[toks[p]].totCost).Add(PairFinal(g, p))
      && CompleteCosts(g, h, toks, false)[p] == Fin(h[toks[p]].totCost)
  {
  }

  lemma LeastStep(best: Cost, keys: set<PairId>, cost: map<PairId, Cost>, p: PairId)
    requires LeastOver(best, keys, cost) && p in cost
    ensures LeastOver(best.Min(cost[p]), keys + {p}, cost)
  {
  }

  /** Scanning has found the best complete cost. */
  lemma ScanFindsBest(g: Graph, c: Created, h: Heap, n: nat, toks: map<PairId, Addr>, best: Cost)
    requires g.Valid() && Front(c, h, n, toks) && toks != map[] && forall p :: p in toks ==> IsPair(g, p)
    requires LeastOver(best, toks.Keys, CompleteCosts(g, h, toks, FinalReached(g, c, n)))
    requires best.Fin?
    ensures IsBest(c, FinalsOf(g, c, n), best.value)
  {
    hide PairFinal, FinalReached, IsPair;
    var finals := FinalsOf(g, c, n);
    var costs := CompleteCosts(g, h, toks, FinalReached(g, c, n));
    assert forall a :: a in finals ==> c[a].pair in toks && costs[c[a].pair] == finals[a].Plus(c[a].totCost);
    var p :| p in toks && best == costs[p];
    assert toks[p] in finals && finals[toks[p]].Plus(c[toks[p]].totCost) == best;
  }

  lemma ScanFindsTable(g: Graph, c: Created, h: Heap, n: nat, toks: map<PairId, Addr>, table: map<Addr, Cost>)
    requires g.Valid() && Front(c, h, n, toks) && forall p :: p in toks ==> IsPair(g, p)
    requires FinalTable(g, toks, toks.Keys, table)
    ensures forall a :: a in table <==> a in FinalsOf(g, c, n)
    ensures forall a :: a in table ==> FinalsOf(g, c, n)[a] == if FinalReached(g, c, n) then table[a] else Fin(0)
  {
    hide PairFinal, FinalReached, IsPair;
    forall a
      ensures a in table <==> a in FinalsOf(g, c, n)
    {
      if a in table {
        var p :| p in toks && toks[p] == a;
      }
    }
  }

  /** Scanning has found out whether a final token is there, and the best complete cost. */
  lemma ScanFinds(g: Graph, c: Created, h: Heap, n: nat, toks: map<PairId, Addr>, bestFinal: Cost, bestNofinal: Cost)
    requires g.Valid() && Front(c, h, n, toks) && toks != map[] && forall p :: p in toks ==> IsPair(g, p)
    requires LeastOver(bestFinal, toks.Keys, CompleteCosts(g, h, toks, true))
    requires LeastOver(bestNofinal, toks.Keys, CompleteCosts(g, h, toks, false))
    ensures bestFinal.Fin? <==> FinalReached(g, c, n)
    ensures bestNofinal.Fin?
    ensures IsBest(c, FinalsOf(g, c, n), if bestFinal.Fin? then bestFinal.value else bestNofinal.value)
  {
    ScanFindsFinal(g, c, h, n, toks, bestFinal);
    var p :| p in toks;
    assert CompleteCosts(g, h, toks, false)[p].Fin?;
    hide Front, FinalReached, FinalsOf, IsBest, CompleteCosts;
    ScanFindsBest(g, c, h, n, toks, if bestFinal.Fin? then bestFinal else bestNofinal);
  }

  lemma ScanFindsFinal(g: Graph, c: Created, h: Heap, n: nat, toks: map<PairId, Addr>, bestFinal: Cost)
    requires g.Valid() && Front(c, h, n, toks) && forall p :: p in toks ==> IsPair(g, p)
    requires LeastOver(bestFinal, toks.Keys, CompleteCosts(g, h, toks, true))
    ensures bestFinal.Fin? <==> FinalReached(g, c, n)
  {
    if bestFinal.Fin? {
      var p :| p in toks && bestFinal == CompleteCosts(g, h, toks, true)[p];
      assert toks[p] in c && PairFinal(g, c[toks[p]].pair).Fin?;
    }
    if FinalReached(g, c, n) {
      var a :| a in c && c[a].frame == n && IsPair(g, c[a].pair) && PairFinal(g, c[a].pair).Fin?;
      assert CompleteCosts(g, h, toks, true)[c[a].pair].Fin?;
    }
  }

  // ----- from an open front to a final one -----

  lemma TerminalsOk(g: Graph, c: Created, h: Heap, n: nat, toks: map<PairId, Addr>, best: int, beam: nat)
    requires g.Valid() && Front(c, h, n, toks) && IsBest(c, FinalsOf(g, c, n), best)
    ensures var term := TerminalOf(c, FinalsOf(g, c, n), best);
            && TerminalOk(c, term) && TerminalBound(h, term, beam)
            && (forall z :: z in term ==> z in c && c[z].frame == n)
            && (exists z :: z in term && z in c && c[z].frame == n && term[z].Le(Fin(beam)))
  {
    var finals := FinalsOf(g, c, n);
    var term := TerminalOf(c, finals, best);
    forall a | a in h && a in term
      ensures h[a].extraCost == Fin(0)
    {
      assert toks[c[a].pair] == a;
    }
    var z :| z in finals && z in c && finals[z].Plus(c[z].totCost) == Fin(best);
    assert term[z] == Fin(0);
  }

  lemma FinalsFrame(g: Graph, c: Created, h: Heap, n: nat, toks: map<PairId, Addr>)
    requires g.Valid() && Front(c, h, n, toks) && forall a :: a in c ==> IsPair(g, c[a].pair)
    ensures forall a :: a in FinalsOf(g, c, n) <==> a in c && c[a].frame == n
    ensures forall a :: a in FinalsOf(g, c, n) ==> a in h && h[a].totCost == c[a].totCost
  {
    hide IsPair, FinalReached, PairFinal;
  }

  /** Whatever is safe for an open front is safe for every choice of final costs. */
  lemma FinalTerminals(c: Created, h: Heap, n: nat, term: Terminal, beam: nat)
    requires Consistent(c, h, FrontTerminal(c, n), beam)
    requires TerminalOk(c, term) && TerminalBound(h, term, beam) && forall z :: z in term ==> z in c && c[z].frame == n
    ensures Consistent(c, h, term, beam)
  {
    var front := FrontTerminal(c, n);
    forall a, p, z | IsPath(c, a, p, z) && z in term && Excess(c, term, a, p, z).Le(Fin(beam))
      ensures Intact(h, a, p, Excess(c, term, a, p, z))
    {
      assert Excess(c, front, a, p, z).Le(Excess(c, term, a, p, z));
      assert Intact(h, a, p, Excess(c, front, a, p, z));
    }
  }

  /** Decoding has got to frame n, and pruning has kept the lattice safe. */
  ghost predicate OpenFront(g: Graph, c: Created, h: Heap, n: nat, toks: map<PairId, Addr>, beam: nat) {
    && g.Valid() && Front(c, h, n, toks) && toks != map[]
    && (forall a :: a in c ==> IsPair(g, c[a].pair))
    && Consistent(c, h, FrontTerminal(c, n), beam)
  }

  ghost function FinalTerminal(g: Graph, c: Created, n: nat, best: int): Terminal
    requires g.Valid()
  {
    TerminalOf(c, FinalsOf(g, c, n), best)
  }

  lemma FinalTerminalIs(g: Graph, c: Created, n: nat, best: int)
    requires g.Valid()
    ensures FinalTerminal(g, c, n, best) == TerminalOf(c, FinalsOf(g, c, n), best)
  {
  }

  /** The decision on final costs: which count, and what the best complete cost is. */
  ghost predicate FinalsDecided(g: Graph, c: Created, n: nat, best: int, active: bool) {
    g.Valid() && (active <==> FinalReached(g, c, n)) && IsBest(c, FinalsOf(g, c, n), best)
  }

  lemma OpenFrontPairs(g: Graph, c: Created, h: Heap, n: nat, toks: map<PairId, Addr>, beam: nat)
    requires OpenFront(g, c, h, n, toks, beam)
    ensures forall p :: p in toks ==> IsPair(g, p) && toks[p] in h
    ensures forall p, q :: p in toks && q in toks && toks[p] == toks[q] ==> p == q
    ensures g.Valid() && toks != map[]
  {
    hide IsPair;
  }

  lemma CloseFront(g: Graph, c: Created, h: Heap, n: nat, toks: map<PairId, Addr>, table: map<Addr, Cost>,
                   bestFinal: Cost, bestNofinal: Cost, beam: nat)
    requires OpenFront(g, c, h, n, toks, beam) && forall p :: p in toks ==> IsPair(g, p) && toks[p] in h
    requires FinalTable(g, toks, toks.Keys, table)
    requires LeastOver(bestFinal, toks.Keys, CompleteCosts(g, h, toks, true))
    requires LeastOver(bestNofinal, toks.Keys, CompleteCosts(g, h, toks, false))
    ensures bestFinal.Inf? ==> bestNofinal.Fin?
    ensures var best := if bestFinal.Fin? then bestFinal.value else bestNofinal.value;
      && FinalsDecided(g, c, n, best, bestFinal.Fin?) && Consistent(c, h, FinalTerminal(g, c, n, best), beam)
      && forall a :: a in table <==> a in FinalTerminal(g, c, n, best)
    ensures var best := if bestFinal.Fin? then bestFinal.value else bestNofinal.value;
      forall a :: a in table ==>
        && a in h && a in c && c[a].frame == n && a in FinalTerminal(g, c, n, best)
        && FinalTerminal(g, c, n, best)[a] == (if bestFinal.Fin? then table[a] else Fin(0)).Plus(h[a].totCost - best)
  {
    hide Consistent, IsBest, LeastOver, FinalTable, FinalReached, IsPair, CompleteCosts, FinalsOf, Front;
    ScanFinds(g, c, h, n, toks, bestFinal, bestNofinal);
    ScanFindsTable(g, c, h, n, toks, table);
    var best := if bestFinal.Fin? then bestFinal.value else bestNofinal.value;
    TerminalsOk(g, c, h, n, toks, best, beam);
    FinalTerminals(c, h, n, FinalTerminal(g, c, n, best), beam);
    FinalsFrame(g, c, h, n, toks);
  }

  lemma FinalsMatchTable(g: Graph, c: Created, h: Heap, n: nat, toks: map<PairId, Addr>, table: map<Addr, Cost>,
                         beam: nat, best: int, active: bool)
    requires OpenFront(g, c, h, n, toks, beam) && FinalsDecided(g, c, n, best, active)
    requires (forall p :: p in toks ==> IsPair(g, p)) && FinalTable(g, toks, toks.Keys, table)
    ensures FinalsOf(g, c, n).Keys == table.Keys
    ensures forall a :: a in table ==> FinalsOf(g, c, n)[a] == if active then table[a] else Fin(0)
    ensures forall a :: a in table <==> a in c && c[a].frame == n
    ensures forall a :: a in table ==> a in h
  {
    hide Consistent, IsBest, FinalTable, FinalReached, IsPair, FinalsOf;
    ScanFindsTable(g, c, h, n, toks, table);
    FinalsFrame(g, c, h, n, toks);
  }

  // ----- the sweep -----

  /** Tokens beyond frame k satisfy the fixpoint equation, with no dead link. */
  ghost predicate SettledAfter(c: Created, h: Heap, term: Terminal, beam: nat, k: int) {
    Live(h) && forall a :: a in h && a in c && c[a].frame > k ==> NoDead(h, a) && Settled(h, a, beam, Init(term, a))
  }

  ghost predicate NoneSpentAfter(c: Created, h: Heap, k: int) {
    forall a :: a in h && a in c && c[a].frame > k ==> h[a].extraCost.Fin?
  }

  /** A settled token stays settled as long as its links' ends do not move. */
  lemma SettledStays(h0: Heap, h: Heap, a: Addr, beam: nat, init: Cost)
    requires Live(h0) && Live(h) && a in h0 && a in h && h[a] == h0[a]
    requires forall l :: l in h[a].links ==> l.nextTok in h0 && l.nextTok in h && h[l.nextTok] == h0[l.nextTok]
    requires NoDead(h0, a) && Settled(h0, a, beam, init)
    ensures NoDead(h, a) && Settled(h, a, beam, init)
  {
    assert forall l :: l in h[a].links ==> LinkExtra(h, a, l) == LinkExtra(h0, a, l);
  }

  /** Links of frame k have been pruned. */
  lemma SweepLinks(c: Created, h0: Heap, h: Heap, lists: seq<TokenList>, term: Terminal, beam: nat, k: nat)
    requires WellFormed(c) && Agree(c, h0) && ListsOk(c, h0, lists) && k < |lists|
    requires SettledAfter(c, h0, term, beam, k) && NoneSpentAfter(c, h0, k + 1)
    requires RaisedOnly(h0, h, lists[k].toks) && ListPruned(h, lists[k].toks, 0, beam, term)
    ensures SettledAfter(c, h, term, beam, k - 1) && NoneSpentAfter(c, h, k + 1)
  {
    assert OnFrame(c, h0, k, lists[k].toks);
    forall a | a in h && a in c && c[a].frame > k - 1
      ensures NoDead(h, a) && Settled(h, a, beam, Init(term, a))
    {
      if c[a].frame > k {
        forall l | l in h[a].links
          ensures l.nextTok in h0 && l.nextTok in h && h[l.nextTok] == h0[l.nextTok]
        {
          SlackInHeap(c, h0, a, l);
        }
        SettledStays(h0, h, a, beam, Init(term, a));
      }
    }
  }

  /** Frame k's spent tokens have been freed. */
  lemma SweepTokens(c: Created, h: Heap, lists: seq<TokenList>, term: Terminal, beam: nat, k: nat, j: int)
    requires ListsOk(c, h, lists) && k < |lists| && j <= k
    requires SettledAfter(c, h, term, beam, j) && NoneSpentAfter(c, h, k) && Live(WithoutSpent(h, lists[k].toks))
    requires forall a :: a in h ==> a in c
    ensures SettledAfter(c, WithoutSpent(h, lists[k].toks), term, beam, j)
    ensures NoneSpentAfter(c, WithoutSpent(h, lists[k].toks), k - 1)
  {
    var h' := WithoutSpent(h, lists[k].toks);
    assert OnFrame(c, h, k, lists[k].toks);
    forall a | a in h' && a in c && c[a].frame > j
      ensures NoDead(h', a) && Settled(h', a, beam, Init(term, a))
    {
      SettledStays(h, h', a, beam, Init(term, a));
    }
  }

  lemma SweepStarts(c: Created, h: Heap, lists: seq<TokenList>, term: Terminal, beam: nat, n: nat)
    requires Agree(c, h) && Live(h) && ListsOk(c, h, lists) && n < |lists| && ListPruned(h, lists[n].toks, 0, beam, term)
    requires forall a :: a in c ==> c[a].frame <= n
    ensures SettledAfter(c, h, term, beam, n - 1) && NoneSpentAfter(c, h, n)
  {
    assert OnFrame(c, h, n, lists[n].toks);
  }

  lemma SweepEnds(c: Created, h: Heap, term: Terminal, beam: nat)
    requires Agree(c, h) && SettledAfter(c, h, term, beam, -1) && NoneSpentAfter(c, h, -1)
    ensures Live(h) && Finished(h, term, beam)
  {
  }

  lemma SettledList(c: Created, h: Heap, lists: seq<TokenList>, term: Terminal, beam: nat, k: nat, j: int)
    requires ListsOk(c, h, lists) && k < |lists| && SettledAfter(c, h, term, beam, j) && j < k
    ensures Live(h) && forall a :: a in lists[k].toks ==> a in h && NoDead(h, a)
  {
    assert OnFrame(c, h, k, lists[k].toks);
  }

  lemma DecidedAnchored(g: Graph, c: Created, n: nat, start: Addr, best: int, active: bool, beam: nat)
    requires FinalsDecided(g, c, n, best, active)
    requires WellFormed(c) && Tight(c, start) && start in c && c[start].frame == 0
    ensures var term := FinalTerminal(g, c, n, best);
      Anchored(c, term, beam, start, n) && forall z :: z in term ==> z in c && c[z].frame == n
  {
    hide FinalReached, PairFinal, IsPair, WellFormed, Tight;
    var finals := FinalsOf(g, c, n);
    var z :| z in finals && z in c && finals[z].Plus(c[z].totCost) == Fin(best);
    assert FinalTerminal(g, c, n, best)[z] == Fin(0);
  }

  /** Pruning other frames, and freeing spent tokens, does not touch the final costs. */
  lemma FinalCostsRaised(g: Graph, c: Created, h0: Heap, h: Heap, n: nat)
    requires g.Valid() && CellsKept(c, h0, h, n) && h.Keys <= h0.Keys
    ensures FinalCosts(h, FinalsOf(g, c, n)) == FinalCosts(h0, FinalsOf(g, c, n))
  {
    hide FinalReached, PairFinal, IsPair;
  }

  lemma FinalCostsFreed(h: Heap, list: seq<Addr>, finals: map<Addr, Cost>)
    ensures FinalCosts(WithoutSpent(h, list), finals) == FinalCosts(h, finals)
  {
  }

  /** The best last token survives, with its final cost on record. */
  lemma SomeFinalCost(g: Graph, c: Created, h: Heap, n: nat, best: int, active: bool, beam: nat)
    requires FinalsDecided(g, c, n, best, active) && Consistent(c, h, FinalTerminal(g, c, n, best), beam)
    ensures FinalCosts(h, FinalsOf(g, c, n)) != map[]
  {
    hide FinalReached, PairFinal, IsPair, Agree, Live, Bounded, Spent, TerminalBound;
    var finals := FinalsOf(g, c, n);
    var term := FinalTerminal(g, c, n, best);
    var z :| z in finals && z in c && finals[z].Plus(c[z].totCost) == Fin(best);
    TerminalRealized(c, term, z);
    assert Intact(h, z, [], Excess(c, term, z, [], z));
    assert z in FinalCosts(h, finals);
  }

  // ----- what final pruning achieves -----

  /** The surviving lattice: exactly the tokens and links on complete paths within the beam of the best one. */
  ghost predicate ExactLattice(c: Created, h: Heap, finals: map<Addr, Cost>, best: int, beam: nat, start: Addr) {
    forall a :: a in c ==>
      && (a in h <==> exists p, q, z :: GoodPathThrough(c, finals, best, beam, start, a, p, q, z))
      && forall l :: a in h && l in h[a].links <==>
          exists p, q, z :: GoodPathThrough(c, finals, best, beam, start, a, p, [l] + q, z)
  }

  /** extraCost is what the best complete path through token a costs beyond the best of all. */
  ghost predicate ExactExtra(c: Created, h: Heap, finals: map<Addr, Cost>, best: int, beam: nat, start: Addr, a: Addr)
    requires a in h
  {
    && h[a].extraCost.Fin?
    && (exists p, q, z :: GoodPathThrough(c, finals, best, beam, start, a, p, q, z)
                          && CompleteCost(p + q, finals[z]) == h[a].extraCost.Plus(best))
    && forall p, q, z :: GoodPathThrough(c, finals, best, beam, start, a, p, q, z) ==>
        h[a].extraCost.Plus(best).Le(CompleteCost(p + q, finals[z]))
  }

  ghost predicate ExactExtras(c: Created, h: Heap, finals: map<Addr, Cost>, best: int, beam: nat, start: Addr) {
    forall a :: a in h && a in c ==> ExactExtra(c, h, finals, best, beam, start, a)
  }

  /** A complete path costs its slack up to token a, and from there its excess, beyond the best. */
  lemma CompleteExcess(c: Created, finals: map<Addr, Cost>, best: int, start: Addr, a: Addr,
                       p: seq<ForwardLink>, q: seq<ForwardLink>, z: Addr)
    requires WellFormed(c) && finals.Keys <= c.Keys && start in c && c[start].totCost == 0
    requires IsPath(c, start, p, a) && IsPath(c, a, q, z) && z in finals
    ensures CompleteCost(p + q, finals[z]) == Excess(c, TerminalOf(c, finals, best), a, q, z).Plus(PathSlack(c, start, p, a) + best)
  {
    Concatenate(c, start, p, a, q, z);
    ExcessIsCost(c, finals, best, start, p + q, z);
  }

  lemma ExtraExact(c: Created, h: Heap, finals: map<Addr, Cost>, best: int, beam: nat, start: Addr, a: Addr)
    requires finals.Keys <= c.Keys
    requires Consistent(c, h, TerminalOf(c, finals, best), beam)
    requires Finished(h, TerminalOf(c, finals, best), beam) && NoFreeCycle(c)
    requires start in c && c[start].totCost == 0 && Tight(c, start) && a in c && a in h
    ensures ExactExtra(c, h, finals, best, beam, start, a)
  {
    hide Consistent, WellFormed, Settled, IsPath, PathSlack, NoFreeCycle;
    var term := TerminalOf(c, finals, best);
    ConsistentParts(c, h, term, beam);
    TokenSurvivesIff(c, h, term, beam, a);
    var q, z :| WithinBeam(c, term, beam, a, q, z) && h[a].extraCost == Excess(c, term, a, q, z);
    var p :| ZeroPath(c, start, p, a);
    CompleteExcess(c, finals, best, start, a, p, q, z);
    forall p, q, z | GoodPathThrough(c, finals, best, beam, start, a, p, q, z)
      ensures h[a].extraCost.Plus(best).Le(CompleteCost(p + q, finals[z]))
    {
      GoodPathIsWithinBeam(c, finals, best, beam, start, a, p, q, z);
      CompleteExcess(c, finals, best, start, a, p, q, z);
    }
  }

  /** Final pruning leaves exactly the lattice it should, with exact excesses. */
  lemma FinalExact(c: Created, h: Heap, finals: map<Addr, Cost>, best: int, beam: nat, start: Addr)
    requires finals.Keys <= c.Keys
    requires Consistent(c, h, TerminalOf(c, finals, best), beam)
    requires Finished(h, TerminalOf(c, finals, best), beam) && NoFreeCycle(c)
    requires start in c && c[start].totCost == 0 && Tight(c, start)
    ensures ExactLattice(c, h, finals, best, beam, start) && ExactExtras(c, h, finals, best, beam, start)
  {
    hide Consistent, Finished, NoFreeCycle, Tight, GoodPathThrough, TerminalOf, ExactExtra;
    forall a | a in c
      ensures a in h <==> exists p, q, z :: GoodPathThrough(c, finals, best, beam, start, a, p, q, z)
      ensures forall l :: a in h && l in h[a].links <==>
                exists p, q, z :: GoodPathThrough(c, finals, best, beam, start, a, p, [l] + q, z)
    {
      FinalPruningExact(c, h, finals, best, beam, start, a);
    }
    forall a | a in h && a in c
      ensures ExactExtra(c, h, finals, best, beam, start, a)
    {
      ExtraExact(c, h, finals, best, beam, start, a);
    }
  }
}
