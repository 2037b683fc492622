# Verification of the bundled Kaldi decoders and utilities

A Dafny model of the algorithms that the headers under `kaldi_asr_ffi/ios/include/` carry in full, with proofs of what
they promise. `dafny verify dfyconfig.toml` checks all of it.

## What is modelled

**The lattice decoder with an on-the-fly language model** (`decoder/lattice-biglm-faster-decoder.h`) is the centre.
`LatticeDecoder.dfy` holds the class with its fields and methods: tokens and links live in an explicit heap, token lists and
link lists are spliced in place, and loops run to their fixpoints as in the header. Methods with long bodies are cut at the
places where a nested loop or a branch begins. A ghost field `created` remembers every token and link ever made, so that
"nothing is lost" can be said, ghost fields `layers` and `crossings` record what the search has explored, and a ghost field
`potential` witnesses that no epsilon cycle has negative cost. The theory behind the class is in modules of its own:

| module | subject |
|---|---|
| `Composition` | graph, language model, the explicit composition and its paths, pair keys |
| `ComposedPaths` | what a path of the composition is made of: arcs of the graph, a run of the language model over their words |
| `Lattice`, `LatticePruning`, `PruningPasses`, `ExactPruning` | slack of paths; one pruning visit, passes to the fixpoint, safety and exactness |
| `TokenColumn`, `EpsilonClosure`, `Emission` | one frame: find-or-add, the epsilon worklist, emitting arcs under a shrinking cutoff |
| `FrameColumn`, `FrameHistory`, `FirstFrame`, `DecodingSteps` | how a frame extends what was created, and what stays true |
| `FrameLists`, `FinalPruning` | token lists, counts and dirty flags; final costs and the last sweep |
| `Cutoffs`, `BeamSearch` | the cutoffs of a frame, as its costs determine them; the beam search as a specification in terms of costs |
| `LatticeSearch`, `ExploredLinks` | what the lattice decoder explores is such a search, link by link |
| `Coverage`, `WholeUtterance`, `RawLattices` | paths of the composition against tokens, links and the raw lattice |
| `FreeLoops` | a graph with an epsilon cycle of cost zero, and what pruning makes of it |
| `OrderStatistics` | the k-th smallest element, by its specification |

The remark that pruning "won't lose anything outside of lat_beam" (`decoder/lattice-faster-decoder.h:429-432`) is
`NothingLost`; its counterpart for the end of the utterance, an exact characterisation, is `LatticeExact`. `RefinesBeamSearch`
and `EmissionPrunes` say what is explored, and what is not, under any beams, and `LatticeComplete` and `LatticeSound` what the
raw lattice then has; without beams `ViterbiTokens` and `BestCostOptimal` speak of paths of the composition alone. What such a
path is `WalkIff` says in terms of the graph and the language model.

**The reference-counted decoder** (`decoder/biglm-faster-decoder.h`) is `BiglmFasterDecoder.dfy`, on `RefCounting` (counts equal
referrers), `Tracebacks` (every token stands for a path) and `BiglmSearch` (its search is one of `BeamSearch`, with cutoffs of its
own). Without limits its tokens and its best path are exact: `ViterbiTokens`, `BestPathOptimal`. Its survivor test is strict while
its cutoff may equal the best weight; `BestSurvivesIff` says exactly when the best token survives, and `TiesStarve` gives an input on which it does not.

**Concurrent primitives.** `DeviceHashMap`, `AtomicPairs` and `AtomicWords` model the lock-free hash map and the
compare-and-swap loops as interleavings of atomic actions, `PackedArgmin` their packed words, and `ThreadPools` the priority
thread pool as interleavings of critical sections and notifications. The code itself is there too, as methods proved against
those steps: a field `pending` holds the turns that other threads take ahead of each atomic access of the thread that runs the
code, and `Schedules` weaves them together with its own. Findings are stated as exact conditions, each with an input:
`PackOrderIff` and `LeastWordIff` (costs are packed as unsigned numbers, so negative and other costs do not compare;
`NegativePacksHigh`), `StepIsMinimumIff` (the loop for old devices swaps before it compares; `LosesMinimum`) and `AddAllIff` of
`PairSums` (pairs are added as whole words, so the first component carries into the second; `NegativeCarries`).

**Supporting loops.** `IntegerText`, `IntegerBytes` and `VectorStreams` cover the text and the binary form of integers and
vectors (`base/io-funcs-inl.h`); `Notation` and `VectorNotation` say what these forms are without the functions that write and read
them. `NumberTheory` covers the number theory of `base/kaldi-math.h`. `Basics` has what several modules share.

## Conventions

Costs are integers with an explicit infinity (`Costs`). The graph and the language model are finite maps; an acoustic cost is a
function of frame and label. A hash is a map, and every traversal of one picks elements in an arbitrary order, so results hold
for every order. Memory is a map from addresses to tokens: deleting a token removes its address, and a dangling
reference would be a failed proof. Epsilon arcs may have negative cost as long as no cycle of them does, which is
what `Feasible` says; for arcs of non-negative cost `ZeroPotential` provides it. What the theory modules require of a frame
or a lattice is not taken on trust: the methods of the classes establish it, from the constructors on.

## Model

| member | source | states |
|---|---|---|
| `LatticeDecoder.LatticeBiglmFasterDecoder.NothingLost` | kaldi_asr_ffi/ios/include/decoder/lattice-faster-decoder.h:429-432 | Lattice-beam safety, over every interleaving of frames and lazy pruning with any delta >= 0: while decoding goes on, a path of created links from the start token to any token z of the current frame that costs at most `z.tot_cost + lattice_beam` still has all its tokens and links |
| `LatticeDecoder.LatticeBiglmFasterDecoder.LatticeExact` | kaldi_asr_ffi/ios/include/decoder/lattice-biglm-faster-decoder.h:594-613 | After final pruning, without zero-cost epsilon cycles, a token (and a link) is there if and only if it lies on a complete path costing at most the best plus `lattice_beam`, and its `extra_cost` is exactly what the best such path costs beyond the best of all |
| `LatticeDecoder.LatticeBiglmFasterDecoder.LatticeComplete` | kaldi_asr_ffi/ios/include/decoder/lattice-biglm-faster-decoder.h:133-198 | Every path of the explicit composition through the whole utterance that the search cannot miss (without decoding beams, every path) and that is within `lattice_beam` of the best is in the raw lattice, and ends in a final state of it; each of its arcs there has the input label of the graph's arc, the output label of the language model's, the sum of their weights and the frame's acoustic cost |
| `LatticeDecoder.LatticeBiglmFasterDecoder.LatticeSound` | kaldi_asr_ffi/ios/include/decoder/lattice-biglm-faster-decoder.h:133-198 | The converse, whatever the beams: every path of the raw lattice from its start to a final state is a complete path of the explicit composition, final cost included, arc by arc with the labels and costs that the graph, the language model and the acoustics ask for |
| `LatticeDecoder.LatticeBiglmFasterDecoder.RefinesBeamSearch` | kaldi_asr_ffi/ios/include/decoder/lattice-biglm-faster-decoder.h:616-829 | What has been explored is a beam search in terms of costs alone: each frame's costs are those of the best epsilon paths under best entry plus beam; all extensions of tokens within the cutoff come up once each, a token's in the order of its arcs, and exactly those below the running cutoff are taken, which each of them tightens to its cost plus the beam; the next frame is entered by these alone, each pair at the cheapest; every link ever made stands for an epsilon arc under the epsilon cutoff or for an extension that was taken; the decoder's tokens have exactly the last frame's costs |
| `LatticeDecoder.LatticeBiglmFasterDecoder.EmissionPrunes` | kaldi_asr_ffi/ios/include/decoder/lattice-biglm-faster-decoder.h:687-759 | An upper bound on what emission takes, in terms of costs alone: for every frame some best token p is such that, for each emitting arc of p, every token entering the next frame and every link that leads there costs less than p's extension along that arc plus the adaptive beam |
| `LatticeDecoder.LatticeBiglmFasterDecoder.BeamTokens` | kaldi_asr_ffi/ios/include/decoder/lattice-biglm-faster-decoder.h:616-829 | Whatever the beams: a path of the composition that stays within the cutoffs of every frame it crosses ends in a token that costs no more than it |
| `LatticeDecoder.LatticeBiglmFasterDecoder.BestCostOptimal` | kaldi_asr_ffi/ios/include/decoder/lattice-biglm-faster-decoder.h:436-457 | Without decoding beams the best cost used by final pruning is the cost of the best complete path of the composition; final costs are used if and only if some path ends in a final pair of states |
| `LatticeDecoder.LatticeBiglmFasterDecoder.ViterbiTokens` | kaldi_asr_ffi/ios/include/decoder/lattice-biglm-faster-decoder.h:77-111 | Without decoding beams, after n frames, with pruning in between: a token exists for a pair of states if and only if some path with n emitting arcs reaches it in the explicit composition, and `tot_cost` is the least cost of such a path |
| `LatticeDecoder.LatticeBiglmFasterDecoder.CostsAreShortest` | kaldi_asr_ffi/ios/include/decoder/lattice-biglm-faster-decoder.h:389-391 | Every link has non-negative slack, and `tot_cost` of a live token is exactly the least cost of a path of created links from the start to it, despite costs lowered in place and links regenerated |
| `LatticeDecoder.LatticeBiglmFasterDecoder.HeapSound` | kaldi_asr_ffi/ios/include/decoder/lattice-biglm-faster-decoder.h:292-298 | Between two frames: every link leads to a token on the same or the next frame's list, every live token is on exactly one list once, `num_toks_` is the total length of the lists, and the start token is last on frame 0's list while it lives |
| `LatticeDecoder.LatticeBiglmFasterDecoder.LatticeReady` | kaldi_asr_ffi/ios/include/decoder/lattice-biglm-faster-decoder.h:148-178 | After decoding, every frame has tokens left, no link dangles and the start token is alive and last on its list, so that a raw lattice can be built |
| `LatticeDecoder.LatticeBiglmFasterDecoder.Decode` | kaldi_asr_ffi/ios/include/decoder/lattice-biglm-faster-decoder.h:77-111 | The whole run, whatever the order in which hashes are traversed: it throws if and only if it is stuck, that is, if none of the tokens it last went on from, which are still there with everything recorded about them, is within the cutoff belonging to their costs and has an emitting arc of finite cost; without beams, if and only if no path of the composition is long enough; otherwise it returns true if and only if there were frames, and leaves the state that the exactness results speak about |
| `LatticeDecoder.LatticeBiglmFasterDecoder.DecodeFrame` | kaldi_asr_ffi/ios/include/decoder/lattice-biglm-faster-decoder.h:96-107 | One turn of the loop keeps the decoding invariant, or is stuck; after every `prune_interval`-th frame no frame before the current one but the first holds a token without surviving links, and the frames whose links were marked for pruning satisfy the fixpoint equation up to a tenth of the lattice beam; after any other frame no token or link has gone |
| `LatticeDecoder.LatticeBiglmFasterDecoder.GetRawLattice` | kaldi_asr_ffi/ios/include/decoder/lattice-biglm-faster-decoder.h:133-198 | Fails if and only if some frame has no token; otherwise it has one state for each live token, numbered in list order, exactly their links as arcs in order, the start token's state as start, and final costs as `use_final_probs` and `final_costs_` ask |
| `LatticeDecoder.LatticeBiglmFasterDecoder.GetCutoff` | kaldi_asr_ffi/ios/include/decoder/lattice-biglm-faster-decoder.h:616-661 | The best token is found and is the best; the cutoff is the best cost plus the beam or, if that is tighter, the cost at rank max_active among all tokens; the adaptive beam follows |
| `Cutoffs.CutoffsUnique` | kaldi_asr_ffi/ios/include/decoder/lattice-biglm-faster-decoder.h:616-661 | The costs of a frame determine cutoff and adaptive beam, in whatever order the hash is traversed and `nth_element` works |
| `Cutoffs.CutoffUsable` | kaldi_asr_ffi/ios/include/decoder/lattice-biglm-faster-decoder.h:616-661 | The best token is within the cutoff and 0 < adaptive_beam <= beam, for every configuration that passes `Check` |
| `Cutoffs.FewUnderCutoff` | kaldi_asr_ffi/ios/include/decoder/lattice-biglm-faster-decoder.h:643-658 | With max_active limited, at most max_active tokens are strictly below the cutoff |
| `LatticeDecoder.LatticeBiglmFasterDecoder.ProcessEmitting` | kaldi_asr_ffi/ios/include/decoder/lattice-biglm-faster-decoder.h:687-759 | With the cutoff and the adaptive beam that belong to the tokens' costs, and the first cutoff that the arcs of a best token set: every extension of a token within the cutoff comes up once, and has its link, to a token that costs no more, if and only if it is below the running cutoff of its turn; no other links or tokens are made, and nothing but the new frame's list and the left tokens' links changes |
| `LatticeDecoder.LatticeBiglmFasterDecoder.ProcessNonemitting` | kaldi_asr_ffi/ios/include/decoder/lattice-biglm-faster-decoder.h:761-829 | Terminates although tokens are queued again and again; the cutoff is the best entry cost plus the beam; afterwards no epsilon path under the cutoff beats a token, every cost is attained by such a path, each token under the cutoff has exactly the links for its epsilon arcs under the cutoff and no other token has any; it fails if and only if there was no token and no warning yet |
| `LatticeDecoder.LatticeBiglmFasterDecoder.FindOrAddToken` | kaldi_asr_ffi/ios/include/decoder/lattice-biglm-faster-decoder.h:315-351 | A new token goes to the head of the frame's list and into the hash and is counted; an existing one only ever has its cost lowered; `changed` says which happened |
| `LatticeDecoder.LatticeBiglmFasterDecoder.AdvanceFrame` | kaldi_asr_ffi/ios/include/decoder/lattice-biglm-faster-decoder.h:96-101 | One more frame keeps the invariant and never alters what was created before; it fails if and only if no token within the cutoff that belongs to the costs has an emitting arc of finite cost, and then only an empty list has been begun |
| `LatticeDecoder.LatticeBiglmFasterDecoder.PruneForwardLinks` | kaldi_asr_ffi/ios/include/decoder/lattice-biglm-faster-decoder.h:356-426 | Terminates even when links form cycles; extra costs only rise and link sets only shrink; safety is kept; afterwards every token of the frame satisfies the fixpoint equation up to delta; one out-flag is set exactly if some link was cut, the other only if some extra cost moved by more than delta, and always if one became infinite |
| `LatticeDecoder.LatticeBiglmFasterDecoder.PruneLinks` | kaldi_asr_ffi/ios/include/decoder/lattice-biglm-faster-decoder.h:382-413 | The in-place scan that excises links leaves exactly the links within the beam in their order, computes the least excess among them, and says truthfully whether a link was cut |
| `LatticeDecoder.LatticeBiglmFasterDecoder.VisitToken` | kaldi_asr_ffi/ios/include/decoder/lattice-biglm-faster-decoder.h:381-418 | One visit replaces links and `extra_cost` by their specification, and reports truthfully whether a link was cut and whether `extra_cost` changed by more than delta; infinity minus infinity counts as unchanged |
| `LatticeDecoder.LatticeBiglmFasterDecoder.PruneForwardLinksFinal` | kaldi_asr_ffi/ios/include/decoder/lattice-biglm-faster-decoder.h:431-532 | The same fixpoint for the last frame, starting from each token's own distance from the best complete cost; collects the final costs of exactly the surviving tokens |
| `LatticeDecoder.LatticeBiglmFasterDecoder.ScanFinalCosts` | kaldi_asr_ffi/ios/include/decoder/lattice-biglm-faster-decoder.h:439-457 | Finds the least cost with and without final costs over all last tokens, and a table of final costs |
| `LatticeDecoder.LatticeBiglmFasterDecoder.PruneTokensForFrame` | kaldi_asr_ffi/ios/include/decoder/lattice-biglm-faster-decoder.h:538-557 | Frees exactly the tokens of infinite `extra_cost`, none of which owns a link any more, and takes them off the list in place; the count follows |
| `LatticeDecoder.LatticeBiglmFasterDecoder.PruneActiveTokens` | kaldi_asr_ffi/ios/include/decoder/lattice-biglm-faster-decoder.h:566-590 | Under the dirty flags links into dead tokens are cut before those are freed; every frame before the current one is left with its flags clear and without dead tokens; the current frame is untouched |
| `LatticeDecoder.LatticeBiglmFasterDecoder.PruneActiveTokensFinal` | kaldi_asr_ffi/ios/include/decoder/lattice-biglm-faster-decoder.h:594-613 | One sweep backwards settles every token of every frame |
| `LatticeDecoder.LatticeBiglmFasterDecoder.ClearActiveTokens` | kaldi_asr_ffi/ios/include/decoder/lattice-biglm-faster-decoder.h:867-881 | From any state, including one in which decoding failed, frees every token once; the count ends at zero |
| `LatticeDecoder.LatticeBiglmFasterDecoder.Finish` | kaldi_asr_ffi/ios/include/decoder/lattice-biglm-faster-decoder.h:103-110 | At the end `final_costs_` is not empty: the best token always survives |
| `LatticeDecoder.LatticeBiglmFasterDecoder.InsertStartToken` | kaldi_asr_ffi/ios/include/decoder/lattice-biglm-faster-decoder.h:78-90 | Cleans up whatever the last utterance left, and makes the start token |
| `LatticePruning.VisitKeepsConsistent` | kaldi_asr_ffi/ios/include/decoder/lattice-biglm-faster-decoder.h:381-418 | The inductive core of safety: a visit to any live token at any time keeps every path within the beam of a terminal token, with `extra_cost` never above the path's true excess |
| `LatticePruning.VisitRaises` | kaldi_asr_ffi/ios/include/decoder/lattice-biglm-faster-decoder.h:388-412 | `extra_cost` never falls, and the precaution against negative excesses never acts |
| `LatticePruning.VisitSpends` | kaldi_asr_ffi/ios/include/decoder/lattice-biglm-faster-decoder.h:414-418 | A token left with infinite `extra_cost` has had all its links excised |
| `LatticePruning.ScanEnds` | kaldi_asr_ffi/ios/include/decoder/lattice-biglm-faster-decoder.h:382-413 | The linked-list splicing computes the filtered link list and the minimum |
| `PruningPasses.PassShrinksHeadroom` | kaldi_asr_ffi/ios/include/decoder/lattice-biglm-faster-decoder.h:378-425 | Why the repeated passes end, on integer costs, whatever cycles links form |
| `PruningPasses.AllVisited` | kaldi_asr_ffi/ios/include/decoder/lattice-biglm-faster-decoder.h:378-425 | A pass without change leaves the fixpoint equation up to delta at every token of the list |
| `PruningPasses.NearlyIsExact` | kaldi_asr_ffi/ios/include/decoder/lattice-biglm-faster-decoder.h:604-609 | With delta zero the fixpoint equation is exact: `extra_cost` is the least slack plus successor `extra_cost` over the surviving links |
| `PruningPasses.FreeingKeepsConsistent` | kaldi_asr_ffi/ios/include/decoder/lattice-biglm-faster-decoder.h:538-557 | Freeing spent tokens that nothing refers to loses no path within the beam |
| `FrameLists.FrameUnreferenced` | kaldi_asr_ffi/ios/include/decoder/lattice-biglm-faster-decoder.h:572-586 | When the links of a frame and of the one before need no pruning, no link leads to a spent token of that frame: what makes freeing safe |
| `FrameLists.TokensFreed` | kaldi_asr_ffi/ios/include/decoder/lattice-biglm-faster-decoder.h:572-586 | Freeing keeps lists, count, flags and safety |
| `FrameLists.PrunedFlagsOk` | kaldi_asr_ffi/ios/include/decoder/lattice-biglm-faster-decoder.h:572-586 | Setting the dirty flags by what pruning reports keeps their meaning: a clean frame has no link into a dead token |
| `FrameHistory.NextConsistent` | kaldi_asr_ffi/ios/include/decoder/lattice-biglm-faster-decoder.h:96-107 | True excesses never fall as frames are added, so safety for the old front becomes safety for the new one |
| `FrameHistory.NextHistory` | kaldi_asr_ffi/ios/include/decoder/lattice-biglm-faster-decoder.h:687-829 | After a new frame every created token stands for a path of the composition at its cost, every link for an arc, and every token is reached from the start without slack |
| `ExactPruning.Realize` | kaldi_asr_ffi/ios/include/decoder/lattice-biglm-faster-decoder.h:604-609 | Without zero-cost epsilon cycles, following the links that attain `extra_cost` must end at a terminal token |
| `ExactPruning.TokenSurvivesIff` | kaldi_asr_ffi/ios/include/decoder/lattice-biglm-faster-decoder.h:604-610 | A token survives if and only if a path through it to a terminal token is within the beam, and its `extra_cost` is the excess of the best one |
| `ExactPruning.LinkSurvivesIff` | kaldi_asr_ffi/ios/include/decoder/lattice-biglm-faster-decoder.h:604-610 | A link survives if and only if a path that begins with it is within the beam |
| `ExactPruning.FinalPruningExact` | kaldi_asr_ffi/ios/include/decoder/lattice-biglm-faster-decoder.h:594-613 | Survival of tokens and links in terms of complete path costs from the start, final costs included |
| `FreeLoops.FreeLoopSurvives` | kaldi_asr_ffi/ios/include/decoder/lattice-faster-decoder.h:508-513 | Why epsilon cycles must be forbidden: a graph of four states and an utterance of one frame whose lattice every visit of final pruning leaves as it was created, so that two tokens of a zero-cost loop survive though no path through them reaches a final token |
| `FinalPruning.FinalExact` | kaldi_asr_ffi/ios/include/decoder/lattice-biglm-faster-decoder.h:594-613 | The surviving lattice and its extra costs are exact |
| `FinalPruning.ScanFinds` | kaldi_asr_ffi/ios/include/decoder/lattice-biglm-faster-decoder.h:439-457 | If a final token is active final costs count, otherwise every token counts as final; the best complete cost is attained |
| `FinalPruning.SomeFinalCost` | kaldi_asr_ffi/ios/include/decoder/lattice-biglm-faster-decoder.h:518-531 | The best last token survives with its final cost on record |
| `EpsilonClosure.NoBetterPath` | kaldi_asr_ffi/ios/include/decoder/lattice-biglm-faster-decoder.h:786-828 | With the queue empty, no epsilon path under the cutoff from an entry token beats the token at its end |
| `EpsilonClosure.FollowArcStep` | kaldi_asr_ffi/ios/include/decoder/lattice-biglm-faster-decoder.h:804-827 | Following one arc keeps the relaxation invariant and makes progress |
| `EpsilonClosure.Dequeue` | kaldi_asr_ffi/ios/include/decoder/lattice-biglm-faster-decoder.h:786-803 | Taking a token off the LIFO worklist and deleting its links, which are about to be regenerated |
| `Emission.VisitTaken` | kaldi_asr_ffi/ios/include/decoder/lattice-biglm-faster-decoder.h:743-752 | An extension below the running cutoff gets its link, and what came up before keeps what it has |
| `Emission.VisitSkipped` | kaldi_asr_ffi/ios/include/decoder/lattice-biglm-faster-decoder.h:743-752 | An extension that is not below the running cutoff changes nothing, and stays without a link |
| `BeamSearch.CutoffStaysFair` | kaldi_asr_ffi/ios/include/decoder/lattice-biglm-faster-decoder.h:715-745 | The running cutoff never comes closer than the adaptive beam to the cheapest extension |
| `BeamSearch.EntryUnderBest` | kaldi_asr_ffi/ios/include/decoder/lattice-biglm-faster-decoder.h:715-745 | Some best token is such that nothing enters the next frame at the cost of one of its extensions plus the adaptive beam, or above |
| `BeamSearch.EntryUnique` | kaldi_asr_ffi/ios/include/decoder/lattice-biglm-faster-decoder.h:687-759 | Given the order in which extensions come up, the next frame can be entered in one way only |
| `BeamSearch.CostsUnique` | kaldi_asr_ffi/ios/include/decoder/lattice-biglm-faster-decoder.h:761-829 | A frame's costs follow from those it is entered with |
| `BeamSearch.InBeamReached` | kaldi_asr_ffi/ios/include/decoder/lattice-biglm-faster-decoder.h:616-829 | A path within the cutoffs of a search ends at a pair whose cost there is no more |
| `BeamSearch.CostWalk` | kaldi_asr_ffi/ios/include/decoder/lattice-biglm-faster-decoder.h:616-829 | Each cost of a search is that of a path of the composition |
| `Coverage.ViterbiExact` | kaldi_asr_ffi/ios/include/decoder/lattice-biglm-faster-decoder.h:77-111 | Existence and cost of the tokens of a frame, in terms of paths of the explicit composition |
| `LatticeSearch.CrossingMade` | kaldi_asr_ffi/ios/include/decoder/lattice-biglm-faster-decoder.h:687-759 | What emission leaves behind is one crossing of the beam search |
| `LatticeSearch.LimitFound` | kaldi_asr_ffi/ios/include/decoder/lattice-biglm-faster-decoder.h:687-759 | Whatever the order, every extension below the cheapest one plus the adaptive beam has its link |
| `LatticeSearch.NoneToEmit` | kaldi_asr_ffi/ios/include/decoder/lattice-biglm-faster-decoder.h:687-759 | If no token is reached, no token within the cutoff had an emitting arc of finite cost |
| `ExploredLinks.NextLinksExplored` | kaldi_asr_ffi/ios/include/decoder/lattice-biglm-faster-decoder.h:687-829 | Every created link stands for an arc that was affordable when it was made |
| `LatticeSearch.LayerMade` | kaldi_asr_ffi/ios/include/decoder/lattice-biglm-faster-decoder.h:761-829 | What the epsilon worklist leaves behind is one layer of the beam search |
| `LatticeSearch.AllInBeam` | kaldi_asr_ffi/ios/include/decoder/lattice-biglm-faster-decoder.h:77-111 | Without beams the search misses no path |
| `Coverage.NextSearched` | kaldi_asr_ffi/ios/include/decoder/lattice-biglm-faster-decoder.h:96-101 | The record of the search stays right from frame to frame |
| `Coverage.NextBeamFollowed` | kaldi_asr_ffi/ios/include/decoder/lattice-biglm-faster-decoder.h:687-829 | Every path of one more frame that the search cannot miss is followed by created links, arc by arc, whatever the beams |
| `Coverage.BeamReaches` | kaldi_asr_ffi/ios/include/decoder/lattice-biglm-faster-decoder.h:687-829 | Such a path ends in a token that costs no more |
| `Coverage.UnboundedFollowed` | kaldi_asr_ffi/ios/include/decoder/lattice-biglm-faster-decoder.h:687-829 | Without beams every path is followed |
| `Coverage.PathSurvives` | kaldi_asr_ffi/ios/include/decoder/lattice-biglm-faster-decoder.h:356-426 | A whole path within the beam survives with every token and link |
| `Coverage.NoFreeCycles` | kaldi_asr_ffi/ios/include/decoder/lattice-faster-decoder.h:508-513 | A graph without zero-cost epsilon loops makes lattices without zero-slack cycles |
| `WholeUtterance.BestIsOptimal` | kaldi_asr_ffi/ios/include/decoder/lattice-biglm-faster-decoder.h:439-457 | The best complete token is the best complete path |
| `WholeUtterance.GoodPathKept` | kaldi_asr_ffi/ios/include/decoder/lattice-biglm-faster-decoder.h:594-613 | A complete path of the composition within the beam is alive after final pruning |
| `WholeUtterance.NoPathBeyond` | kaldi_asr_ffi/ios/include/decoder/lattice-biglm-faster-decoder.h:777-783 | If no token has an emitting arc of finite cost, no path of the composition has more emitting arcs |
| `RawLattices.AliveIsRaw` | kaldi_asr_ffi/ios/include/decoder/lattice-biglm-faster-decoder.h:166-195 | Every surviving path is a path of the raw lattice with the same labels and costs |
| `RawLattices.RawIsAlive` | kaldi_asr_ffi/ios/include/decoder/lattice-biglm-faster-decoder.h:166-195 | Every path of the raw lattice is a surviving path with the same labels and costs |
| `Composition.PairRoundTrip` | kaldi_asr_ffi/ios/include/decoder/lattice-biglm-faster-decoder.h:229-238 | Two non-negative state ids go through a 64-bit key and come back; keys do not overflow |
| `Composition.PairArcStays` | kaldi_asr_ffi/ios/include/decoder/lattice-biglm-faster-decoder.h:663-685 | Crossing a word in the language model leads to a valid pair of states again |
| `ComposedPaths.WalkIff` | kaldi_asr_ffi/ios/include/decoder/lattice-biglm-faster-decoder.h:663-685 | The composition, without its own step: a path is there at finite cost if and only if the graph has its arcs one after another, the language model has a run over their output labels other than epsilon, and all weights and acoustic costs are finite; it ends in the pair of both ends, its cost is the sum of graph weights, language-model weights and acoustic costs, and it has seen a frame for each emitting arc |
| `ComposedPaths.SidesUnique` | kaldi_asr_ffi/ios/include/decoder/lattice-biglm-faster-decoder.h:663-685 | A path has one graph side and one language-model side at most |
| `ComposedPaths.FinalIs` | kaldi_asr_ffi/ios/include/decoder/lattice-biglm-faster-decoder.h:439-457 | The final cost at the end of a path is that of the graph's state plus that of the language model's state its two sides lead to |
| `ComposedPaths.PathArcsAre` | kaldi_asr_ffi/ios/include/decoder/lattice-biglm-faster-decoder.h:663-685 | Arc by arc: the graph's input label, the language model's output label, the weight of the graph's arc plus that of the word's arc, and the acoustic cost of the frame that the arc is in |
| `WholeUtterance.CompletesIff` | kaldi_asr_ffi/ios/include/decoder/lattice-biglm-faster-decoder.h:439-457 | A complete path, in terms of its two sides: one emitting arc for each frame, and in all the weights of both sides, the acoustic costs and, if final costs count, the final costs at both ends |
| `Composition.ZeroPotential` | kaldi_asr_ffi/ios/include/decoder/lattice-biglm-faster-decoder.h:761-829 | Epsilon arcs of non-negative cost always meet the precondition on epsilon cycles |
| `Lattice.SlackTelescopes` | kaldi_asr_ffi/ios/include/decoder/lattice-biglm-faster-decoder.h:389-391 | The slacks along a path add up to what it costs beyond the best way to its end |
| `OrderStatistics.NthElement` | kaldi_asr_ffi/ios/include/decoder/lattice-biglm-faster-decoder.h:649-654 | Finds the element with at most k others below it and more than k no larger, as `std::nth_element` promises |
| `OrderStatistics.NthIsActiveBound` | kaldi_asr_ffi/ios/include/decoder/lattice-biglm-faster-decoder.h:649-654 | Such an element of the listed costs bounds the number of tokens on either side |
| `BiglmDecoder.BiglmFasterDecoder.GetBestPath` | kaldi_asr_ffi/ios/include/decoder/biglm-faster-decoder.h:115-178 | Traceback soundness: the output, taken before epsilons are removed, is a path of the composition from the start to the chosen token's pair of states, with exactly one emitting arc for each frame; arc by arc it has the labels and costs that the graph, the language model and the acoustics ask for, which telescope to the token's weight; that token is the best among final ones (final costs included) if there are any, and otherwise among all |
| `BiglmDecoder.BiglmFasterDecoder.Traceback` | kaldi_asr_ffi/ios/include/decoder/biglm-faster-decoder.h:150-164 | The collected arcs are the token's path, latest first, without the start token's dummy arc |
| `BiglmDecoder.BiglmFasterDecoder.ReachedFinal` | kaldi_asr_ffi/ios/include/decoder/biglm-faster-decoder.h:101-113 | True if and only if some token is in a final pair of states |
| `BiglmDecoder.BiglmFasterDecoder.TokenDelete` | kaldi_asr_ffi/ios/include/decoder/biglm-faster-decoder.h:227-237 | Dropping a reference keeps every count equal to the number of referrers; the last reference takes the token with it |
| `BiglmDecoder.BiglmFasterDecoder.Destroy` | kaldi_asr_ffi/ios/include/decoder/biglm-faster-decoder.h:227-230 | The destructor's assertion `ref_count_ == 1` holds at every call; no token is freed twice |
| `BiglmDecoder.BiglmFasterDecoder.NewToken` | kaldi_asr_ffi/ios/include/decoder/biglm-faster-decoder.h:204-221 | A new token holds its predecessor, and its path is the predecessor's and one arc more |
| `BiglmDecoder.BiglmFasterDecoder.Offer` | kaldi_asr_ffi/ios/include/decoder/biglm-faster-decoder.h:399-410 | The hash takes the lighter of two tokens and lets go of the other, with all counts right |
| `BiglmDecoder.BiglmFasterDecoder.ProcessEmitting` | kaldi_asr_ffi/ios/include/decoder/biglm-faster-decoder.h:341-420 | Counts and origins are kept, and the new weights are those of one crossing in terms of costs alone: with the cutoffs that belong to the weights, every extension of a token strictly under the cutoff comes up once, those below the running cutoff are taken and tighten it, and the next frame has exactly their least weights; whatever stays below the returned cutoff has been taken |
| `BiglmDecoder.BiglmFasterDecoder.ProcessNonemitting` | kaldi_asr_ffi/ios/include/decoder/biglm-faster-decoder.h:423-468 | Terminates; afterwards the weights are exactly those of the best epsilon paths out of the tokens there were, along arcs within the cutoff |
| `BiglmDecoder.BiglmFasterDecoder.GetCutoff` | kaldi_asr_ffi/ios/include/decoder/biglm-faster-decoder.h:243-306 | Best weight, max-active, min-active and beam cutoffs combined as documented, for finite and infinite beams |
| `BiglmSearch.BestSurvivesIff` | kaldi_asr_ffi/ios/include/decoder/biglm-faster-decoder.h:243-306 | The strict survivor test keeps the best token if and only if no more than max_active tokens tie for the best weight (or there is no limit); otherwise it drops every token |
| `BiglmSearch.TiesStarve` | kaldi_asr_ffi/ios/include/decoder/biglm-faster-decoder.h:275-296 | Three tokens of equal weight and max_active = 2: all are dropped |
| `BiglmDecoder.BiglmFasterDecoder.ClearToks` | kaldi_asr_ffi/ios/include/decoder/biglm-faster-decoder.h:488-494 | Afterwards no token is live |
| `BiglmDecoder.BiglmFasterDecoder.Decode` | kaldi_asr_ffi/ios/include/decoder/biglm-faster-decoder.h:87-99 | From any earlier state: counts are right, every live token stands for a path, the hash holds tokens that have seen every frame, and their weights are the outcome of a search from the start pair: closed over epsilons before the first frame and after each, each crossing with the cutoffs that its weights determine |
| `BiglmDecoder.BiglmFasterDecoder.BeamTokens` | kaldi_asr_ffi/ios/include/decoder/biglm-faster-decoder.h:87-99 | Whatever the limits: a path of the composition that stays within the recorded cutoffs ends in a token that weighs no more |
| `BiglmDecoder.BiglmFasterDecoder.TokensArePaths` | kaldi_asr_ffi/ios/include/decoder/biglm-faster-decoder.h:87-99 | Whatever the limits: every token weighs what some path through the whole utterance costs |
| `BiglmDecoder.BiglmFasterDecoder.ViterbiTokens` | kaldi_asr_ffi/ios/include/decoder/biglm-faster-decoder.h:87-99 | With infinite beam, no limit and no minimum of active tokens: a pair of states has a token if and only if a path with an emitting arc for each frame, whose weights stay below the sentinel of 1e10, reaches it, and the token weighs the least that such a path costs |
| `BiglmDecoder.BiglmFasterDecoder.BestPathOptimal` | kaldi_asr_ffi/ios/include/decoder/biglm-faster-decoder.h:115-178 | Without limits the best path is the best of all: final costs count if and only if some path ends in a final pair of states |
| `BiglmSearch.UnlimitedExact` | kaldi_asr_ffi/ios/include/decoder/biglm-faster-decoder.h:87-99 | The same about the search itself, in terms of costs |
| `BiglmSearch.RelaxedCloses` | kaldi_asr_ffi/ios/include/decoder/biglm-faster-decoder.h:423-468 | What the epsilon worklist leaves is closed: no better epsilon path, and each weight attained by one |
| `RefCounting.ReleaseCounted` | kaldi_asr_ffi/ios/include/decoder/biglm-faster-decoder.h:231-237 | Decrementing a count above one keeps all counts right |
| `RefCounting.FreeCounted` | kaldi_asr_ffi/ios/include/decoder/biglm-faster-decoder.h:227-237 | Freeing a token of count one leaves its predecessor with the freed reference to drop |
| `RefCounting.NewTokenCounted` | kaldi_asr_ffi/ios/include/decoder/biglm-faster-decoder.h:204-212 | Creating a token keeps all counts right |
| `RefCounting.NothingHeld` | kaldi_asr_ffi/ios/include/decoder/biglm-faster-decoder.h:488-494 | If nobody holds a token, none is live |
| `RefCounting.AncestorsKept` | kaldi_asr_ffi/ios/include/decoder/biglm-faster-decoder.h:195-238 | No token that a held one leads back to is ever freed |
| `Tracebacks.OriginExtended` | kaldi_asr_ffi/ios/include/decoder/biglm-faster-decoder.h:204-212 | Weights are the costs of paths of the composition |
| `ComposedPaths.PathArcsAddUp` | kaldi_asr_ffi/ios/include/decoder/biglm-faster-decoder.h:150-178 | Arc costs of a path add up to its cost, and its emitting arcs to its frames |
| `Tracebacks.TraceArcOk` | kaldi_asr_ffi/ios/include/decoder/biglm-faster-decoder.h:152-162 | Differences of weights recover the acoustic costs |
| `DeviceHashMap.EveryRunAggregates` | kaldi_asr_ffi/ios/include/cudadecoder/cuda-decoder-kernels-utils.h:214-239 | Every interleaving of inserting threads, from an empty map with no more distinct keys than slots: each key ends in exactly one slot, whose count is its number of inserters, whose inserters' local indices are exactly 0 to count - 1, and whose word is the least of their packed words and one of them |
| `DeviceHashMap.StepInv` | kaldi_asr_ffi/ios/include/cudadecoder/cuda-decoder-kernels-utils.h:214-239 | Every atomic action of any thread keeps the invariant on slots, probes, counts, indices and minima |
| `DeviceHashMap.RunInv` | kaldi_asr_ffi/ios/include/cudadecoder/cuda-decoder-kernels-utils.h:214-239 | The invariant holds in every reachable state |
| `DeviceHashMap.KeysDistinct` | kaldi_asr_ffi/ios/include/cudadecoder/cuda-decoder-kernels-utils.h:220-228 | No key is ever in two slots |
| `DeviceHashMap.RunKeeps` | kaldi_asr_ffi/ios/include/cudadecoder/cuda-decoder-kernels-utils.h:220-228 | A slot once taken keeps its key for ever |
| `DeviceHashMap.SlotIsFound` | kaldi_asr_ffi/ios/include/cudadecoder/cuda-decoder-kernels-utils.h:229-231 | A thread's probes cannot all meet other keys |
| `DeviceHashMap.GetsThrough` | kaldi_asr_ffi/ios/include/cudadecoder/cuda-decoder-kernels-utils.h:220-228 | Whatever the others do, a thread finishes after at most capacity probes and two more actions of its own |
| `DeviceHashMap.SharedMap.FindSlot` | kaldi_asr_ffi/ios/include/cudadecoder/cuda-decoder-kernels-utils.h:214-231 | Whatever the other threads do between its probes, the loop takes exactly the probes of the interleaved model and settles on its slot |
| `DeviceHashMap.SharedMap.InsertOrAggregate` | kaldi_asr_ffi/ios/include/cudadecoder/cuda-decoder-kernels-utils.h:214-239 | With arbitrary turns of the other threads ahead of each of its atomic accesses, the code takes exactly the steps of the interleaved model and returns the indices with which its thread ends there |
| `PackedArgmin.PackRoundTrip` | kaldi_asr_ffi/ios/include/cudadecoder/cuda-decoder-kernels-utils.h:170-183 | Cost and argument come back from the 64-bit word, negative ones included |
| `PackedArgmin.PackInjective` | kaldi_asr_ffi/ios/include/cudadecoder/cuda-decoder-kernels-utils.h:170-175 | Different pairs have different words |
| `PackedArgmin.PackOrderIff` | kaldi_asr_ffi/ios/include/cudadecoder/cuda-decoder-kernels-utils.h:165-175 | Words of different costs compare as the costs do if and only if the costs have the same sign |
| `PackedArgmin.TiesOrderIff` | kaldi_asr_ffi/ios/include/cudadecoder/cuda-decoder-kernels-utils.h:165-175 | Words of the same cost compare as the arguments do if and only if the arguments have the same sign |
| `PackedArgmin.NegativePacksHigh` | kaldi_asr_ffi/ios/include/cudadecoder/cuda-decoder-kernels-utils.h:170-175 | Cost -1 is packed above cost 0, whatever the arguments |
| `PackedArgmin.LeastWordIff` | kaldi_asr_ffi/ios/include/cudadecoder/cuda-decoder-kernels-utils.h:165-175 | The least word carries the least cost if and only if negative and non-negative costs do not meet in one slot |
| `AtomicPairs.Linearizable` | kaldi_asr_ffi/ios/include/cudadecoder/cuda-decoder-kernels-utils.h:132-156 | In every interleaving the location holds what the finished calls would have made of it one after another, each exactly once, in the order in which they ended |
| `AtomicPairs.StepTakesEffect` | kaldi_asr_ffi/ios/include/cudadecoder/cuda-decoder-kernels-utils.h:132-156 | A call has its whole effect at the step that ends it and none before |
| `AtomicPairs.FailureMeansProgress` | kaldi_asr_ffi/ios/include/cudadecoder/cuda-decoder-kernels-utils.h:132-156 | Between a thread's access and its next one that fails, another call has taken effect |
| `AtomicPairs.GetsThrough` | kaldi_asr_ffi/ios/include/cudadecoder/cuda-decoder-kernels-utils.h:132-156 | Whatever the others do, a call ends after at most as many accesses of its own as there are threads, and one more |
| `AtomicPairs.FairRunEnds` | kaldi_asr_ffi/ios/include/cudadecoder/cuda-decoder-kernels-utils.h:132-156 | Once every thread has had that many turns all calls are over |
| `AtomicPairs.MinimaEnd` | kaldi_asr_ffi/ios/include/cudadecoder/cuda-decoder-kernels-utils.h:132-143 | After any interleaving of minima that gives every thread turns enough, the location holds the least x among the first value and all arguments, in one of those pairs; the first value stays unless some argument is less |
| `AtomicPairs.SubtractionsEnd` | kaldi_asr_ffi/ios/include/cudadecoder/cuda-decoder-kernels-utils.h:145-156 | After any interleaving of subtractions that gives every thread turns enough, it holds the first value minus the component-wise sum of all arguments, in 32-bit arithmetic |
| `AtomicPairs.WrapIs` | kaldi_asr_ffi/ios/include/cudadecoder/cuda-decoder-kernels-utils.h:145-156 | 32-bit arithmetic: of all 32-bit integers, the one that differs from the exact value by a multiple of 2^32 |
| `AtomicPairs.Location.AtomicMinI2` | kaldi_asr_ffi/ios/include/cudadecoder/cuda-decoder-kernels-utils.h:132-143 | With arbitrary turns of the other threads ahead of each access, the loop takes exactly the accesses of the interleaved model, and the last of them turns what the location then holds into its minimum with the argument |
| `AtomicPairs.Location.AtomicSubI2` | kaldi_asr_ffi/ios/include/cudadecoder/cuda-decoder-kernels-utils.h:145-156 | Likewise: the last access subtracts the argument, in 32-bit arithmetic, from what the location then holds |
| `PairSums.AddI2Is` | kaldi_asr_ffi/ios/include/cudadecoder/cuda-decoder-kernels-utils.h:122-129 | Adding two pairs as 64-bit words adds their components, in 32-bit arithmetic, and the carry out of the first to the second |
| `PairSums.AddAllIff` | kaldi_asr_ffi/ios/include/cudadecoder/cuda-decoder-kernels-utils.h:122-129 | Any number of calls, in the order in which they take effect, leave the component-wise sum if and only if the first components, read as unsigned, do not carry: for fewer than 2^32 calls, if and only if those add up to less than 2^32 |
| `PairSums.NegativeCarries` | kaldi_asr_ffi/ios/include/cudadecoder/cuda-decoder-kernels-utils.h:122-129 | (1, 0) and (-1, 0) add up to (0, 1) |
| `AtomicWords.StepIsMinimumIff` | kaldi_asr_ffi/ios/include/cudadecoder/cuda-decoder-kernels-utils.h:107-114 | A step of the fallback for old devices is one of an atomic minimum if and only if it is not the first compare-and-swap succeeding on a smaller value |
| `AtomicWords.CleanRunHoldsLeast` | kaldi_asr_ffi/ios/include/cudadecoder/cuda-decoder-kernels-utils.h:107-114 | In every interleaving without such a step the location holds the least of its first value and the values of the calls that are over |
| `AtomicWords.LosesMinimum` | kaldi_asr_ffi/ios/include/cudadecoder/cuda-decoder-kernels-utils.h:107-114 | Two calls in turn, with 3 and then 5, leave 5 |
| `AtomicWords.Location.AtomicMinULLFallback` | kaldi_asr_ffi/ios/include/cudadecoder/cuda-decoder-kernels-utils.h:107-114 | With arbitrary turns of the others ahead of each access the loop takes exactly the accesses of the model; with none it computes the minimum if and only if the argument is not above the stored value |
| `AtomicPairs.BinsearchMaxle` | kaldi_asr_ffi/ios/include/cudadecoder/cuda-decoder-kernels-utils.h:81-95 | The last index of a sorted range whose value is at most val |
| `ThreadPools.RunInv` | kaldi_asr_ffi/ios/include/cudadecoder/thread-pool.h:87-145 | In every reachable state: every accepted task is queued or has been started once, is run by one worker or has finished once; and no wake-up is lost |
| `ThreadPools.StepInv` | kaldi_asr_ffi/ios/include/cudadecoder/thread-pool.h:87-145 | Every step of any thread, spurious wake-ups and delayed notifications included, keeps that invariant |
| `ThreadPools.StepWakeUps` | kaldi_asr_ffi/ios/include/cudadecoder/thread-pool.h:96-104 | A non-empty queue with no notification on its way has a worker awake; after stop and its notification nobody waits |
| `ThreadPools.AcceptedAsRequested` | kaldi_asr_ffi/ios/include/cudadecoder/thread-pool.h:118-145 | After any run the accepted tasks are, one for one and in order, the requests ahead of the first stop, each at the priority asked for |
| `ThreadPools.TakesBest` | kaldi_asr_ffi/ios/include/cudadecoder/thread-pool.h:82-103 | After any run, a worker that looks takes, of the accepted tasks not started yet, one whose requested priority none of the others surpasses, and of those the one requested first |
| `ThreadPools.AllFinished` | kaldi_asr_ffi/ios/include/cudadecoder/thread-pool.h:148-156 | Once all workers have exited the queue is empty and every accepted task has finished, exactly once |
| `ThreadPools.StopDrains` | kaldi_asr_ffi/ios/include/cudadecoder/thread-pool.h:148-156 | After stop every remaining worker can act, and each action leaves less to do: joining ends |
| `ThreadPools.ThreadPool.AddTask` | kaldi_asr_ffi/ios/include/cudadecoder/thread-pool.h:118-145 | Under the mutex: exactly the enqueue step; the accepted tasks and the queue gain one task of the given priority; after stop it is refused and nothing changes |
| `ThreadPools.ThreadPool.WorkerLooks` | kaldi_asr_ffi/ios/include/cudadecoder/thread-pool.h:95-104 | Under the mutex: exactly the step of a worker that looks at the queue |
| `ThreadPools.ThreadPool.WorkerFinishes` | kaldi_asr_ffi/ios/include/cudadecoder/thread-pool.h:105-106 | Exactly the step of a worker whose task is over |
| `ThreadPools.ThreadPool.StopWorkers` | kaldi_asr_ffi/ios/include/cudadecoder/thread-pool.h:148-153 | Exactly the stop step |
| `VectorStreams.WriteAndRead` | kaldi_asr_ffi/ios/include/base/io-funcs-inl.h:92-282 | Any list of integer vectors and pair vectors, of any integer types, written one after another in binary form or as text, is read back unchanged; writing fails if and only if the form is binary and some vector has 2^31 entries or more |
| `VectorStreams.AllFormsReadBack` | kaldi_asr_ffi/ios/include/base/io-funcs-inl.h:92-282 | The same about what is on the stream, in either form |
| `IntegerText.AllReadBack` | kaldi_asr_ffi/ios/include/base/io-funcs-inl.h:92-282 | As text: each read stops right after its `]`, and the next skips the left-over newline |
| `IntegerText.VectorReadsBack` | kaldi_asr_ffi/ios/include/base/io-funcs-inl.h:198-286 | A vector, negative elements and empty vectors included, reads back from its text |
| `IntegerText.PairVectorReadsBack` | kaldi_asr_ffi/ios/include/base/io-funcs-inl.h:92-196 | A vector of pairs reads back from its text |
| `IntegerText.ElementReadsBack` | kaldi_asr_ffi/ios/include/base/io-funcs-inl.h:43-83 | An element of any width reads back, one-byte types through int16 |
| `IntegerText.NumberReadsBack` | kaldi_asr_ffi/ios/include/base/io-funcs-inl.h:43-83 | Decimal text reads back to the number, up to the next non-digit |
| `IntegerBytes.AllBytesReadBack` | kaldi_asr_ffi/ios/include/base/io-funcs-inl.h:92-282 | In binary form: each read takes exactly the bytes of its vector |
| `IntegerBytes.VectorBytesReadBack` | kaldi_asr_ffi/ios/include/base/io-funcs-inl.h:198-286 | Element size, 32-bit count and elements read back |
| `IntegerBytes.PairVectorBytesReadBack` | kaldi_asr_ffi/ios/include/base/io-funcs-inl.h:92-196 | Pairs lie one number after the other, and read back |
| `IntegerBytes.BasicBytesReadBack` | kaldi_asr_ffi/ios/include/base/io-funcs-inl.h:34-89 | The signed size mark and the bytes of an integer read back |
| `IntegerBytes.RawReadsBack` | kaldi_asr_ffi/ios/include/base/io-funcs-inl.h:34-89 | An integer of any width comes back from its bytes, negative ones from two's complement |
| `IntegerBytes.ReadRawTakes` | kaldi_asr_ffi/ios/include/base/io-funcs-inl.h:247-251 | Reading a block takes exactly the bytes of its integers and leaves the rest |
| `IntegerBytes.ReadRawNeeds` | kaldi_asr_ffi/ios/include/base/io-funcs-inl.h:247-251 | A block of integers can be read if and only if all its bytes are there |
| `VectorStreams.BasicTypeReadsBack` | kaldi_asr_ffi/ios/include/base/io-funcs-inl.h:34-89 | What WriteBasicType writes ReadBasicType reads, in either form |
| `Notation.DecimalIs` | kaldi_asr_ffi/ios/include/base/io-funcs-inl.h:34-52 | A number's text is a minus sign if it is negative, and digits without a leading zero, each with its code above 48, whose sum times powers of ten, the first digit counting most, is the magnitude |
| `Notation.DecimalUnique` | kaldi_asr_ffi/ios/include/base/io-funcs-inl.h:34-52 | No other text is |
| `Notation.ReadNumberSpells` | kaldi_asr_ffi/ios/include/base/io-funcs-inl.h:55-89 | What is read as a number is white space, an optional sign, all the digits there are and the rest, and the number is theirs and in the range of the type |
| `Notation.SpellsReadNumber` | kaldi_asr_ffi/ios/include/base/io-funcs-inl.h:55-89 | Every such text of a number in range is read as that number |
| `Notation.SizeMarkIs` | kaldi_asr_ffi/ios/include/base/io-funcs-inl.h:34-52 | The mark of a signed type is its size, that of an unsigned one 256 minus its size |
| `Notation.RawIs` | kaldi_asr_ffi/ios/include/base/io-funcs-inl.h:34-52 | Byte k of an integer on the stream is its value divided by 256 to the k, rounded down, modulo 256 |
| `Notation.FromRawIs` | kaldi_asr_ffi/ios/include/base/io-funcs-inl.h:55-89 | What is read is in the range of the type and has the bytes that are there |
| `Notation.BytesUnique` | kaldi_asr_ffi/ios/include/base/io-funcs-inl.h:55-89 | Only one number of the range has given bytes |
| `Notation.WrittenForm` | kaldi_asr_ffi/ios/include/base/io-funcs-inl.h:34-52 | Both forms of an integer: the mark and the bytes, or the decimal and a space |
| `Notation.ReadBasicBytesIs` | kaldi_asr_ffi/ios/include/base/io-funcs-inl.h:55-89 | In binary form a number is read, with a given rest, if and only if its mark and its bytes are there; every other mark is rejected |
| `Notation.ReadElementIs` | kaldi_asr_ffi/ios/include/base/io-funcs-inl.h:43-83 | As text a number is read if and only if it is spelled there; one-byte types take a 16-bit number and keep its low byte |
| `VectorNotation.VectorWritten` | kaldi_asr_ffi/ios/include/base/io-funcs-inl.h:198-229 | Binary: one byte of element size, four bytes of count, the elements' bytes; text: `[ `, each element's decimal and a space, `]` and a newline |
| `VectorNotation.PairVectorWritten` | kaldi_asr_ffi/ios/include/base/io-funcs-inl.h:92-127 | Likewise, the numbers of a pair one after the other, or with a comma between them |
| `VectorNotation.ReadVectorIs` | kaldi_asr_ffi/ios/include/base/io-funcs-inl.h:232-286 | A vector is read, with a given rest, if and only if the stream has one of these forms, with any white space in text |
| `VectorNotation.ReadPairVectorIs` | kaldi_asr_ffi/ios/include/base/io-funcs-inl.h:130-196 | Likewise for pairs |
| `VectorStreams.WriteBasicType` | kaldi_asr_ffi/ios/include/base/io-funcs-inl.h:34-52 | The stream gains the size mark (the size of a signed type, 256 minus that of an unsigned one) and the bytes, low byte first, or the decimal and a space |
| `VectorStreams.ReadBasicType` | kaldi_asr_ffi/ios/include/base/io-funcs-inl.h:55-89 | Succeeds if and only if the stream begins with the form of a number of that type, and then returns that number and consumes exactly that form; fails otherwise |
| `VectorStreams.WriteIntegerVector` | kaldi_asr_ffi/ios/include/base/io-funcs-inl.h:198-229 | The stream gains element size, count and elements in bytes, or the elements' decimals in brackets on a line; fails if and only if a binary count would not fit |
| `VectorStreams.ReadIntegerVector` | kaldi_asr_ffi/ios/include/base/io-funcs-inl.h:232-286 | Succeeds if and only if the stream begins with the form of a vector, and then returns that vector and consumes exactly that form; fails on every malformed input |
| `VectorStreams.WriteIntegerPairVector` | kaldi_asr_ffi/ios/include/base/io-funcs-inl.h:92-127 | The stream gains element size, count and numbers in bytes, or the pairs' decimals, comma between, in brackets on a line; fails if and only if a binary count would not fit |
| `VectorStreams.ReadIntegerPairVector` | kaldi_asr_ffi/ios/include/base/io-funcs-inl.h:130-196 | Succeeds if and only if the stream begins with the form of a pair vector, and then returns it and consumes exactly that form; fails on every malformed input |
| `NumberTheory.Factorize` | kaldi_asr_ffi/ios/include/base/kaldi-math.h:325-352 | Terminates for every m >= 1 with a nondecreasing list of primes whose product is m |
| `NumberTheory.LeastDivisorPrime` | kaldi_asr_ffi/ios/include/base/kaldi-math.h:345-351 | What divides the rest, when nothing smaller does, is prime |
| `NumberTheory.GapsAreMultiples` | kaldi_asr_ffi/ios/include/base/kaldi-math.h:334-345 | The numbers that are never tried are multiples of numbers that have been |
| `NumberTheory.Gcd` | kaldi_asr_ffi/ios/include/base/kaldi-math.h:297-314 | For all signed inputs: the positive greatest common divisor under truncating remainder, a combination of both; an error if and only if both are zero |
| `NumberTheory.Lcm` | kaldi_asr_ffi/ios/include/base/kaldi-math.h:318-322 | The least positive common multiple, which divides every other |
| `NumberTheory.RoundsDown` | kaldi_asr_ffi/ios/include/base/kaldi-math.h:287-295 | The quotient rounded towards negative infinity for every sign of a and b |
| `NumberTheory.FloorUnique` | kaldi_asr_ffi/ios/include/base/kaldi-math.h:286-295 | There is only one such quotient |

## Left out

- Floating point: costs are exact integers, so rounding, NaN and overflow are absent; the tolerance of 1e-5 in final pruning (`decoder/lattice-biglm-faster-decoder.h:464,512`) is equality, and `lattice_beam * 0.1` is division by ten rounded down (the pruning results hold for every delta >= 0).
- LatticeDecoder.LatticeBiglmFasterDecoder.LatticeExact: needs a graph without zero-cost epsilon loops, as the repository forbids epsilon cycles (`decoder/lattice-faster-decoder.h:508-511`); with one, the tokens of the loop keep each other alive, as `FreeLoops.FreeLoopSurvives` shows.
- LatticeDecoder.LatticeBiglmFasterDecoder.ViterbiTokens: infinite beam and unlimited max_active only; for other beams see RefinesBeamSearch, BeamTokens and LatticeComplete.
- Graphs with a negative epsilon cycle, on which the relaxation does not end, are excluded by the precondition `Feasible`.
- BiglmDecoder.BiglmFasterDecoder.GetCutoff: with min_active above max_active the second `nth_element` has its range end before its target (`decoder/biglm-faster-decoder.h:284-288`), which C++ leaves undefined; the model takes the element by rank.
- BiglmDecoder.BiglmFasterDecoder.ViterbiTokens: infinite beam and no limits only, and paths whose weights stay below the decoder's stand-in for no weight, 1e10 (`decoder/biglm-faster-decoder.h:245,353`); in general see Decode, BeamTokens and TokensArePaths.
- NumberTheory.Factorize: unbounded integers, as in Gcd, Lcm and DivideRoundingDown: overflow of fixed widths is not modelled.
- ThreadPools.RunInv: fewer than LONG_MAX actions, so the counter's wrap-around is never reached. What tasks do, futures and exceptions in tasks are not part of this model.
- IntegerText.NumberReadsBack: about numbers that the type holds; a minus sign in front of a number read into an unsigned type wider than one byte is refused, where C++ streams wrap it around.
- Address reuse: freed addresses are not handed out again, so the order of addresses is the order of creation.
- `std::nth_element` and the priority queue are taken by what they promise; how HashList stores and resizes is not modelled.
- Option setters, configuration parsing, logging and the flag that limits warnings about missing language-model arcs.
- GetBestPath and GetLattice of the lattice decoder, RemoveEpsLocal, ShortestPath, determinization and TopSort: their bodies are not in the repository.
- Bools, floating-point numbers and stream headers of `base/io-funcs-inl.h` and its source file; binary integers lie low byte first, as on the little-endian hosts the headers are shipped for.
- MinPlus, PlusPlus, ordered-int conversions, matrix helpers and ring buffers: single expressions, easy members.
- `LogAdd`, random numbers and `RandPrune` of `base/kaldi-math.h`.
- Plug-in glue, CUDA wrappers and headers that only declare.
