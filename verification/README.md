# DDSPC in Dafny

A Dafny model of the core of DDSPC, a C# solver for the Double Dominating Set
Problem with Conflicts. An instance is a graph on the nodes `0 .. numNodes-1`,
a list of edges and a list of conflict pairs. A solution is two disjoint node
sets D1 and D2. Each set must dominate the graph: every node is in the set or
adjacent to a member. No conflict pair may join a node of D1 to a node of D2.
The value of a solution is `|D1| + |D2|`, and smaller is better.

The model covers these parts of the source:

- `DDSPCUtil`: neighbour enumeration, the dominating-set test and the
  solution check (`ddspc_util.dfy`).
- The GRASP solver `DDSPCGRASP` (`grasp.dfy`):
  - the greedy randomized two-phase construction, shared with the greedy
    solver (`construction.dfy`);
  - the first-improvement local search;
  - the 1-exchange neighbourhood (`neighborhood.dfy`).
- The single-shot greedy solver `DDSCPGreedySolver` (`greedy_solver.dfy`).
- The two random graph generators:
  - `DDSPCGraphGenerator` (`ddspc_graph_generator.dfy`, with the depth-first
    connectivity check in `connectivity.dfy` and pair sampling in
    `pair_sampling.dfy`);
  - `GraphGenerator` (`graph_generator.dfy`).
- Cyclic instances (`cyclic_graph.dfy`, `instance_generator.dfy`).
- The instance text format, both written (`instance_generator.dfy`) and
  loaded (`instance_loader.dfy`, with .NET's integer formatting,
  `int.Parse` and `string.Split()` in `text.dfy`).
- The JSON converter for pair lists, over a token stream
  (`json_converter.dfy`).

Modelling choices:

- **Randomness.** `System.Random` becomes `Randomness.Random`, a class that
  holds the draws still to come. A seed is the draw sequence it produces. The
  properties of the solvers and of `DDSPCGraphGenerator` and `GraphGenerator`
  hold for every sequence of draws. The cyclic generators are stated exactly,
  as functions of the draws.
- **Doubles.** `alpha` and the probabilities become exact ratios `Ratio(num, den)`.
- **Solution check.** `ValidSolution` is the check as the source performs it.
  It tests only the orientation `(d1Node, d2Node)` of each conflict pair.
  `Feasible` is the intended problem, in which conflict pairs are unordered.
  `DDSPCUtil.FeasibleIsValid` and `DDSPCUtil.ReverseConflictNotChecked`
  relate the two.
- **Dominating-set test.** `DominatingCount` is the source's test: the count
  of dominated nodes equals `NumNodes`. `Dominates` means every node in range
  is dominated. `DDSPCUtil.DominatingSetIff` shows the two agree when the
  edges and the set are in range.
- **Constructors.** Both solvers build solutions with the same two-phase
  construction, `Construction.Construct`. The GRASP solver reports a failed
  second phase as the sentinel output whose value is `int.MaxValue`. The
  greedy solver reports it as `null` (here `None`).
- **Construction runs.** Each step of either phase scans the candidates and
  draws a node from the restricted candidate list (RCL). `Construction.ValidPick`
  says which nodes such a draw may return. A run is a sequence of valid picks
  (`Construction.Run`), and `Construction.Constructible` holds the results that
  some finished run reports. The methods return their picks as ghost
  sequences, so each result is tied to the draws that produced it.
- **The RCL parameter.** A candidate is admitted when its coverage reaches
  `min + alpha * (max - min)`. So `alpha = 0` admits every candidate and
  `alpha = 1` only the best ones (`Construction.ZeroAlphaAdmitsAll`,
  `Construction.UnitAlphaOnlyBest`). The field comments in both solvers say the
  opposite ("0 = greedy, 1 = random"). The model follows the code.
- **Neighbourhood.** `GenerateNeighbors` is a lazy iterator in the source.
  Here it returns the whole sequence of neighbours, and ghost sequences name
  the move behind each one. The additions come in node order, as in the
  source. The removals and swaps follow `HashSet` order, which the model
  leaves open (see "Left out"). The model keeps what that order still fixes:
  each removal and each swap is tried exactly once, and the swaps come
  grouped by their D1 node, as the nested loops produce them. The order of
  the groups is kept across every scan of local search: each step takes an
  improving move of the earliest group that has one, so a D1 member is
  dropped whenever one can be.
- **GRASP rounds.** `Solve` is specified by the list of its rounds:
  `Grasp.Incumbent` adopts a round exactly when its value is below the best so
  far, and `Grasp.RoundOutcome` says what one round can return.
- **Generated graphs.** Every graph `GraphGenerator.GenerateGraph` builds
  contains a spanning tree, so it passes the connectivity check
  (`GraphGenerator.NothingRejected`). The retry loop of
  `GenerateConnectedGraph` therefore never retries.

Where the problem as defined above and the code differ, the model follows
the code:

- Conflicts are checked in one orientation only by `IsValidSolution`.
- The dominating-set test counts dominated nodes rather than comparing sets.

## Model

| member | source | states |
|---|---|---|
| DDSPCUtil.GetNeighbors | DDSPC/Util/DDSPCUtil.cs:48-55 | the result holds exactly the nodes adjacent to `node`, in either orientation; its length is at most twice the edge count |
| DDSPCUtil.NeighborsAppend | DDSPC/Util/DDSPCUtil.cs:50-54 | the neighbour enumeration over a concatenation of edge lists is the concatenation of the enumerations |
| DDSPCUtil.NeighborhoodIff | DDSPC/Util/DDSPCUtil.cs:37-43 | a node is in the neighbourhood of a set iff it is adjacent to some member |
| DDSPCUtil.NeighborhoodUnion | DDSPC/Util/DDSPCUtil.cs:37-43 | the neighbourhood of a union is the union of the neighbourhoods |
| DDSPCUtil.DominatedInsert | DDSPC/Util/DDSPCUtil.cs:35-43 | adding a node adds it and its enumerated neighbours to the dominated set |
| DDSPCUtil.NeighborhoodMonotone | DDSPC/Util/DDSPCUtil.cs:37-43 | a larger set has a larger neighbourhood |
| DDSPCUtil.DominatedInRange | DDSPC/Util/DDSPCUtil.cs:35-45 | on a well-formed instance, a set of nodes in range dominates only nodes in range |
| DDSPCUtil.DominatingSetIff | DDSPC/Util/DDSPCUtil.cs:45 | on a well-formed instance, the count test `dominated.Count == NumNodes` holds iff every node `0 .. n-1` is dominated |
| DDSPCUtil.EmptySetDominatingIff | DDSPC/Util/DDSPCUtil.cs:33-46 | the empty set passes the test iff the graph has no nodes |
| DDSPCUtil.DominationMonotone | DDSPC/Util/DDSPCUtil.cs:33-46 | a superset of a dominating set, within range, is dominating |
| DDSPCUtil.AddNeighbors | DDSPC/Util/DDSPCUtil.cs:39-42 | the inner loop adds exactly the enumerated neighbours to `dominated` |
| DDSPCUtil.IsDominatingSet | DDSPC/Util/DDSPCUtil.cs:33-46 | returns exactly the count test over the set together with all its neighbours |
| DDSPCUtil.HasConflictWith | DDSPC/Solver/DDSPCGRASP.cs:126-137 | returns true iff `node` conflicts, in either orientation, with some member of the set |
| DDSPCUtil.IsValidSolution | DDSPC/Util/DDSPCUtil.cs:7-31 | returns exactly: the sets are disjoint, both pass the dominating-set test, and no `(d1, d2)` pair is a conflict |
| DDSPCUtil.ValidSolutionIff | DDSPC/Util/DDSPCUtil.cs:7-31 | for sets in range, the check holds iff the sets are disjoint, both dominate every node, and no ordered conflict runs from D1 to D2 |
| DDSPCUtil.FeasibleIsValid | DDSPC/Util/DDSPCUtil.cs:7-31 | a solution feasible with unordered conflict pairs passes the check |
| DDSPCUtil.ReverseConflictNotChecked | DDSPC/Util/DDSPCUtil.cs:23 | a concrete solution passes the check although a conflict `(d2, d1)` joins its sets |
| DDSPCUtil.ValidSolutionSizes | DDSPC/Solver/DDSPCGRASP.cs:40 | on a non-empty graph both sets of a valid solution are non-empty, so a value that counts both sets is at least 2 |
| DDSPCUtil.SingletonDominatingSetsOverlap | DDSPC/Util/DDSPCUtil.cs:10-16 | on a one-node graph both dominating sets contain node 0, so no solution passes the check |
| Construction.Coverage | DDSPC/Solver/DDSPCGRASP.cs:77-82 | the count is 1 plus the number of enumerated neighbours still uncovered |
| Construction.ScanCandidates | DDSPC/Solver/DDSPCGRASP.cs:69-89 | the candidates are exactly the admissible nodes, in increasing order (the list `Candidates` a valid pick is drawn from), and `coverage` maps each of them to its count |
| Construction.CandidatesBelow | DDSPC/Solver/DDSPCGRASP.cs:73-89 | the scan stopped at `k` lists exactly the admissible nodes below `k`, in increasing order |
| Construction.UncoveredIsCandidate | DDSPC/Solver/DDSPCGRASP.cs:73-91 | in phase 1 every uncovered node is a candidate, so the `break` on an empty list never fires |
| Construction.MinScoreIsLeast | DDSPC/Solver/DDSPCGRASP.cs:94 | the minimum coverage is some candidate's and no candidate's is lower |
| Construction.MaxScoreIsGreatest | DDSPC/Solver/DDSPCGRASP.cs:95 | the maximum coverage is some candidate's and no candidate's is higher |
| Construction.ArgMax | DDSPC/Solver/DDSPCGRASP.cs:95 | returns a candidate whose coverage is the maximum |
| Construction.ArgMin | DDSPC/Solver/DDSPCGRASP.cs:94 | returns a candidate whose coverage is the minimum |
| Construction.Rcl | DDSPC/Solver/DDSPCGRASP.cs:96-98 | holds exactly the candidates whose coverage reaches `min + alpha * (max - min)` |
| Construction.RclHoldsBest | DDSPC/Solver/DDSPCGRASP.cs:93-101 | for `alpha` in `[0, 1]` the best candidate is in the list, so the draw at line 101 never indexes an empty list |
| Construction.ThresholdAtZero | DDSPC/Solver/DDSPCGRASP.cs:96-98 | with `alpha = 0` a coverage meets the threshold iff it reaches the minimum |
| Construction.ThresholdAtOne | DDSPC/Solver/DDSPCGRASP.cs:96-98 | with `alpha = 1` a coverage meets the threshold iff it reaches the maximum |
| Construction.ZeroAlphaAdmitsAll | DDSPC/Solver/DDSPCGRASP.cs:93-101 | with `alpha = 0` every candidate is a valid pick, so the draw is uniform over the candidates |
| Construction.UnitAlphaOnlyBest | DDSPC/Solver/DDSPCGRASP.cs:93-101 | with `alpha = 1` the valid picks are exactly the candidates of highest coverage, so the choice is greedy |
| Construction.SelectFromRcl | DDSPC/Solver/DDSPCGRASP.cs:100-101 | the selected node is a candidate that meets the threshold |
| Construction.PickFromScan | DDSPC/Solver/DDSPCGRASP.cs:69-101 | a node the RCL draw returns after a full scan is a valid pick |
| Construction.SelectStep | DDSPC/Solver/DDSPCGRASP.cs:69-101 | `None` iff the candidate list is empty; otherwise a candidate that extends the phase's run by one valid pick |
| Construction.GrowRun | DDSPC/Solver/DDSPCGRASP.cs:101-103 | a run extended by a valid pick is a run, and its set gains that node |
| Construction.MarkCovered | DDSPC/Solver/DDSPCGRASP.cs:105-110 | removes exactly the selected node and its neighbours from `uncovered` |
| Construction.Cover | DDSPC/Solver/DDSPCGRASP.cs:105-110 | after the marking, `uncovered` is exactly the set of nodes the grown set does not dominate |
| Construction.BuildD1 | DDSPC/Solver/DDSPCGRASP.cs:65-111 | the picks are a run of valid RCL draws from the empty set; D1 is their set, dominates every node and stays in range; the value counts the picks |
| Construction.BuildD2 | DDSPC/Solver/DDSPCGRASP.cs:113-178 | the picks are a run of valid draws beside D1; D2 is their set, in range, disjoint from D1 and free of conflicts with D1 in both orientations; success iff every node is dominated, with the value counting both sets; on failure no candidate is left and every node outside both sets clashes with D1 |
| Construction.NoConflictBothWays | DDSPC/Solver/DDSPCGRASP.cs:126-137 | filtering candidates in both orientations leaves no conflict between the sets in either direction |
| Construction.Construct | DDSPC/Solver/DDSPCGRASP.cs:52-181 | the result is what a construction along the returned picks reports, and those picks are a finished run of valid draws; a returned solution passes `IsValidSolution` on a well-formed instance, has value at most `2 * numNodes`, and leaves `NumNodes` and `Solver` unset; failure exactly when phase 2 runs out of candidates with nodes undominated |
| Construction.RunFacts | DDSPC/Solver/DDSPCGRASP.cs:73-137 | the picks of a run are distinct nodes in range; phase 2 picks lie outside D1 and clash with none of its nodes |
| Construction.SoundFromPhases | DDSPC/Solver/DDSPCGRASP.cs:102-170 | two sets built as the phases build them, valued at their sizes, form a sound solution worth at most `2 * numNodes` |
| Construction.ConstructibleSound | DDSPC/Solver/DDSPCGRASP.cs:52-181 | every solution that some run of the construction reports is sound and worth at most `2 * numNodes` |
| Grasp.LocalOptimumIsRemovalMinimal | DDSPC/Solver/DDSPCGRASP.cs:201-210 | a solution has no improving neighbour iff no single removal from D1 or from D2 is generated |
| Grasp.SoundValueAtLeastTwo | DDSPC/Solver/DDSPCGRASP.cs:40 | a sound solution of a non-empty well-formed graph has value at least 2, the bound behind the early exit |
| Grasp.Tagged | DDSPC/Solver/DDSPCGRASP.cs:44-49 | a returned best solution is tagged "GRASP" and keeps its value and validity |
| Grasp.ScanLimit | DDSPC/Solver/DDSPCGRASP.cs:195-212 | the do-while makes at least one scan, and at most `maxLocalSearchIterations` when that is positive |
| Grasp.RoundSentinelIff | DDSPC/Solver/DDSPCGRASP.cs:28-31 | when `2 * numNodes` is below `int.MaxValue`, a round reaches `int.MaxValue` iff it returns the sentinel, which happens iff its construction failed; any other round result is sound |
| Grasp.RoundsSentinelOrBelow | DDSPC/Solver/DDSPCGRASP.cs:25-31 | under the same bound, every round of a list of round results is the sentinel or below `int.MaxValue` |
| Grasp.IncumbentSnoc | DDSPC/Solver/DDSPCGRASP.cs:34-38 | one more round is adopted iff its value is below the best so far |
| Grasp.NoEarlyStopEach | DDSPC/Solver/DDSPCGRASP.cs:40 | no round started once the best value was 2, prefix by prefix |
| Grasp.IncumbentNoneIff | DDSPC/Solver/DDSPCGRASP.cs:22-42 | there is no best solution iff no round came in below `int.MaxValue` |
| Grasp.IncumbentIsFirstBest | DDSPC/Solver/DDSPCGRASP.cs:25-42 | the best solution is the first round of least value |
| Grasp.NoIncumbentIffAllFailed | DDSPC/Solver/DDSPCGRASP.cs:22-49 | for rounds that are the sentinel or below `int.MaxValue`, `Solve` returns null iff every round's construction failed |
| Grasp.DDSPCGRASP.constructor | DDSPC/Solver/DDSPCGRASP.cs:11-18 | stores the parameters, with the source's defaults, and the seed as the draw sequence |
| Grasp.DDSPCGRASP.ConstructGreedyRandomizedSolution | DDSPC/Solver/DDSPCGRASP.cs:52-181 | the result is the construction's along a finished run of valid draws, with the sentinel for a failure; any other result is sound, valid on a well-formed instance, with value at most `2 * numNodes` |
| Grasp.DDSPCGRASP.GenerateNeighbors | DDSPC/Solver/DDSPCGRASP.cs:217-393 | the neighbours are exactly the results of the admissible moves that pass the check, in the source's order: adds to D1, adds to D2, removals from D1, removals from D2, swaps; every move in scope is tried exactly once (`2n + |D1| + |D2| + |D1|·|D2|` moves), with the swaps grouped by their D1 node |
| Grasp.DDSPCGRASP.FirstImprovement | DDSPC/Solver/DDSPCGRASP.cs:198-209 | one scan: `None` iff the solution is a local optimum; otherwise the first lower neighbour, reached by a generated move, with no lower neighbour from any earlier move group |
| Grasp.DDSPCGRASP.LocalSearch | DDSPC/Solver/DDSPCGRASP.cs:183-215 | the solutions visited form an improvement path: every scan moves to a neighbour one lower reached by a generated move, with no move of an earlier group (adds, then D1 removals, then D2 removals) improving, so D2 loses a member only when no D1 member can go; the sentinel and a local optimum are returned unchanged; otherwise the result keeps a subset of each set, its value drops by exactly the number of members removed, and the search ends at a local optimum or after `max(1, maxLocalSearchIterations)` improving scans; a changed result passes the check; soundness is kept |
| Grasp.NoImprovementIsOptimum | DDSPC/Solver/DDSPCGRASP.cs:201-210 | a full scan with no lower neighbour means the solution is a local optimum |
| Grasp.FirstAmongGenerated | DDSPC/Solver/DDSPCGRASP.cs:201-209 | when no neighbour before the `k`-th is lower, no generated move of an earlier group gives a lower neighbour |
| Grasp.AdoptRemoval | DDSPC/Solver/DDSPCGRASP.cs:203-208 | an adopted lower neighbour comes from a removal: value one lower, one more member gone, still valid and sound, and the starting solution was no local optimum |
| Grasp.PathSnoc | DDSPC/Solver/DDSPCGRASP.cs:183-215 | each iteration of the do-while extends the path of visited solutions by one first-improvement step |
| Grasp.FirstStepPrefersD1 | DDSPC/Solver/DDSPCGRASP.cs:198-209 | a scan that can drop a D1 member does so, leaving D2 unchanged, because the D1 removals are generated before the D2 removals (DDSPCGRASP.cs:291-335) |
| Grasp.FirstStepShrinks | DDSPC/Solver/DDSPCGRASP.cs:198-209 | the neighbour a scan adopts keeps a subset of each set |
| Grasp.PathShrinks | DDSPC/Solver/DDSPCGRASP.cs:183-215 | along the scans of one search the sets only shrink |
| Grasp.SearchPrefersD1 | DDSPC/Solver/DDSPCGRASP.cs:183-215 | a round that improves a solution with a droppable D1 member ends with fewer D1 members, since its first scan drops one |
| Grasp.OrderedHasNoRepeats | DDSPC/Solver/DDSPCGRASP.cs:224-392 | a list in generation order never tries a move twice |
| Grasp.DDSPCGRASP.ConstructAndImprove | DDSPC/Solver/DDSPCGRASP.cs:28-31 | the round result is local search from some possible construction result: it is reached by first-improvement steps in group order, one per unit of value, the sentinel stays the sentinel, a local optimum stays unchanged, otherwise members are only removed, one per unit of value; it is the sentinel or sound |
| Grasp.DDSPCGRASP.NextRound | DDSPC/Solver/DDSPCGRASP.cs:25-31 | one more round extends the list of possible round results |
| Grasp.DDSPCGRASP.BestOfRounds | DDSPC/Solver/DDSPCGRASP.cs:25-42 | the best solution is `Incumbent` of the rounds run, each adopted iff its value is below the best so far; every round is a possible round result; `maxIterations` rounds run unless the best reaches value 2, and no round starts after that |
| Grasp.DDSPCGRASP.Solve | DDSPC/Solver/DDSPCGRASP.cs:20-50 | returns `Incumbent` of its rounds, tagged "GRASP", with the same round count and early exit as `BestOfRounds`; a result is valid on a well-formed instance, with value at least 2 on a non-empty graph |
| Neighborhood.ImprovingIffRemoval | DDSPC/Solver/DDSPCGRASP.cs:248 | adds raise the value by one, removals lower it by one, swaps keep it, so only removals improve |
| Neighborhood.MoveInRange | DDSPC/Solver/DDSPCGRASP.cs:225-392 | an admissible move keeps both sets within the nodes |
| Neighborhood.MoveKeepsValue | DDSPC/Solver/DDSPCGRASP.cs:248-389 | every move, swaps included, keeps `value == |D1| + |D2|` |
| Neighborhood.MoveKeepsReverseOrientation | DDSPC/Solver/DDSPCGRASP.cs:230-241 | adds and removals keep the sets free of conflicts in the orientation the check skips |
| Neighborhood.MovePreservesSound | DDSPC/Solver/DDSPCGRASP.cs:224-335 | a generated add or removal of a sound solution is sound |
| Neighborhood.SwapMayBreakFeasibility | DDSPC/Solver/DDSPCGRASP.cs:342-369 | on a concrete triangle, a generated swap joins the sets by a conflict in the orientation the check skips |
| Neighborhood.GeneratedSound | DDSPC/Solver/DDSPCGRASP.cs:252-254 | every generated move was tried and passes the admission filter and the check |
| Neighborhood.GeneratedComplete | DDSPC/Solver/DDSPCGRASP.cs:252-254 | every tried move that passes is generated |
| Neighborhood.GeneratedExactly | DDSPC/Solver/DDSPCGRASP.cs:217-393 | when every move in scope is tried, the generated moves are exactly those that pass |
| Neighborhood.GeneratedOrdered | DDSPC/Solver/DDSPCGRASP.cs:224-392 | filtering keeps the order in which the moves were tried |
| Neighborhood.TryAdd | DDSPC/Solver/DDSPCGRASP.cs:225-256 | returns exactly whether the add passes the membership, conflict and validity checks |
| Neighborhood.AddMoves | DDSPC/Solver/DDSPCGRASP.cs:224-289 | tries the adds to one set for nodes `0 .. n-1` in order and yields exactly the passing ones |
| Neighborhood.TryRemove | DDSPC/Solver/DDSPCGRASP.cs:292-311 | returns exactly whether the removal keeps the set dominating and passes the check |
| Neighborhood.RemoveMoves | DDSPC/Solver/DDSPCGRASP.cs:291-335 | tries the removal of every member of one set exactly once (`|set|` moves, no repeats) and yields exactly the passing ones |
| Neighborhood.TrySwap | DDSPC/Solver/DDSPCGRASP.cs:340-390 | returns exactly whether the swap passes both conflict filters and the check |
| Neighborhood.SwapsOf | DDSPC/Solver/DDSPCGRASP.cs:340-391 | tries the swap of one D1 node with every D2 node exactly once (`|D2|` moves) and yields exactly the passing ones |
| Neighborhood.AppendSwapsOf | DDSPC/Solver/DDSPCGRASP.cs:337-392 | one more pass of the outer swap loop adds that D1 node's `|D2|` swaps, still without repeats and grouped |
| Neighborhood.SwapMoves | DDSPC/Solver/DDSPCGRASP.cs:337-392 | tries every D1 × D2 swap exactly once (`|D1|·|D2|` moves), grouped by the D1 node, and yields exactly the passing ones |
| Neighborhood.NoRepeatsAppend | DDSPC/Solver/DDSPCGRASP.cs:291-392 | lists without repeats and without a common move concatenate without repeats |
| Neighborhood.GroupedAppend | DDSPC/Solver/DDSPCGRASP.cs:340-391 | the swaps of a new D1 node appended to grouped swaps keep them grouped |
| Neighborhood.GroupedAfter | DDSPC/Solver/DDSPCGRASP.cs:224-392 | moves other than swaps placed before grouped swaps keep them grouped |
| Neighborhood.SwapGroupAppended | DDSPC/Solver/DDSPCGRASP.cs:337-392 | the swaps of the D1 nodes done plus those of one more node: the membership, count, no-repeat and grouping facts carry over |
| Neighborhood.OrderedSnoc | DDSPC/Solver/DDSPCGRASP.cs:224-392 | a move that may follow every earlier one extends a list in generation order |
| GreedySolver.DDSCPGreedySolver.constructor | DDSPC/Solver/DDSCPGreedySolver.cs:12-16 | stores `alpha` and the seed as the draw sequence |
| GreedySolver.DDSCPGreedySolver.ConstructGreedyRandomizedSolution | DDSPC/Solver/DDSCPGreedySolver.cs:37-164 | the result is the construction's along a finished run of valid RCL draws; a returned solution is sound, valid on a well-formed instance, with value at most `2 * numNodes`; null exactly when phase 2 runs out of candidates with nodes undominated |
| GreedySolver.DDSCPGreedySolver.SolveWithMetrics | DDSPC/Solver/DDSCPGreedySolver.cs:18-35 | null exactly when the construction it ran (a possible construction result `c`) failed; otherwise `c` tagged "GREEDY" with the instance's `NumNodes`, sound and valid |
| Connectivity.ReachableSetIff | DDSPC/Generators/DDSPCGraphGenerator.cs:73-97 | the reachable-set function holds exactly the nodes reachable from node 0 |
| Connectivity.ConnectedIff | DDSPC/Generators/DDSPCGraphGenerator.cs:96 | with edges in range, the test "no nodes, or `numNodes` nodes reached" holds iff every node is reachable from 0 |
| Connectivity.TreeReaches | DDSPC/Generators/GraphGenerator.cs:58-61 | when edge `k` joins node `k+1` to an earlier node, every node is reachable from 0 |
| Connectivity.PushUnvisited | DDSPC/Generators/DDSPCGraphGenerator.cs:87-93 | the stack gains exactly the unvisited neighbours of the node, on top of the old stack |
| Connectivity.SearchStep | DDSPC/Generators/DDSPCGraphGenerator.cs:81-94 | one pop keeps the search invariant and either shrinks the stack or visits a new node |
| Connectivity.IsGraphConnected | DDSPC/Generators/DDSPCGraphGenerator.cs:73-97 | returns true iff the graph has no nodes or the depth-first search from 0 reaches exactly `numNodes` nodes |
| PairSampling.SortedDistinct | DDSPC/Generators/GraphGenerator.cs:98-113 | a strictly sorted pair list has no repeated pair |
| PairSampling.UpperPairs | DDSPC/Generators/GraphGenerator.cs:100-110 | the drawn pairs satisfy `0 <= i < j < n` and are strictly sorted; probability 0 gives none; probability 1 gives every such pair |
| PairSampling.OffDiagonalPairs | DDSPC/Generators/DDSPCGraphGenerator.cs:39-49 | the drawn pairs are in range, have distinct ends and are strictly sorted; probability 0 gives none; probability 1 gives every ordered pair |
| DDSPCGraphGenerator.DDSPCGraphGenerator.constructor | DDSPC/Generators/DDSPCGraphGenerator.cs:15-18 | the seed becomes the draw sequence |
| DDSPCGraphGenerator.DDSPCGraphGenerator.GenerateGraph | DDSPC/Generators/DDSPCGraphGenerator.cs:20-57 | the graph is well formed; its edges satisfy `i < j` and are strictly sorted; its conflicts are strictly sorted with distinct ends |
| DDSPCGraphGenerator.DDSPCGraphGenerator.GenerateConnectedGraph | DDSPC/Generators/DDSPCGraphGenerator.cs:59-71 | a returned graph is well formed and connected, with sorted edge and conflict lists |
| DDSPCGraphGenerator.DDSPCGraphGenerator.GenerateCyclicGraph | DDSPC/Generators/DDSPCGraphGenerator.cs:99-135 | the edges are the cycle `i - (i+1) mod n`; at most `maxConflicts` conflicts, each between two distinct even nodes in range |
| CyclicGraph.CycleConnectedWellFormed | DDSPC/Generators/InstanceGenerator.cs:22-25 | the cycle with even-node conflicts is well formed and connected |
| CyclicGraph.RoundConflict | DDSPC/Generators/InstanceGenerator.cs:30-46 | one round yields at most one conflict, between distinct even nodes |
| CyclicGraph.DrawnConflicts | DDSPC/Generators/InstanceGenerator.cs:28-47 | `rounds` rounds yield at most `rounds` conflicts, each between distinct even nodes |
| CyclicGraph.ConflictRound | DDSPC/Generators/DDSPCGraphGenerator.cs:115-131 | one round's conflict and the remaining draws are exactly those of `RoundConflict` |
| CyclicGraph.CycleEdges | DDSPC/Generators/DDSPCGraphGenerator.cs:108-111 | the edge list is the cycle on `numNodes` nodes |
| CyclicGraph.ConflictRounds | DDSPC/Generators/DDSPCGraphGenerator.cs:113-132 | the conflicts are exactly `DrawnConflicts` of the draws at the start |
| CyclicGraph.Generate | DDSPC/Generators/DDSPCGraphGenerator.cs:99-135 | the cycle, with the conflicts exactly as drawn |
| GraphGenerator.TruncDiv | DDSPC/Generators/GraphGenerator.cs:63 | the quotient is truncated toward zero, as the cast to `int` does |
| GraphGenerator.SimpleAppend | DDSPC/Generators/GraphGenerator.cs:71-75 | adding a pair that passes the guard keeps the list free of self-loops and of duplicates in either orientation |
| GraphGenerator.GraphGenerator.constructor | DDSPC/Generators/GraphGenerator.cs:14-17 | the seed becomes the draw sequence |
| GraphGenerator.GraphGenerator.TreeEdges | DDSPC/Generators/GraphGenerator.cs:57-61 | `n - 1` edges, edge `k` joining node `k+1` to an earlier node, with no duplicates |
| GraphGenerator.GraphGenerator.GenerateConnectedEdges | DDSPC/Generators/GraphGenerator.cs:55-79 | the tree comes first; the list is simple and in range; its length is `max(n - 1, target)` |
| GraphGenerator.GraphGenerator.GenerateConflicts | DDSPC/Generators/GraphGenerator.cs:98-113 | the conflicts satisfy `0 <= i < j < n` and are distinct and sorted |
| GraphGenerator.GraphGenerator.GenerateGraph | DDSPC/Generators/GraphGenerator.cs:41-53 | the graph is well formed, connected and simple, with distinct conflicts |
| GraphGenerator.GraphGenerator.GenerateConnectedGraph | DDSPC/Generators/GraphGenerator.cs:19-39 | a returned graph is well formed, connected and simple; every rejected graph failed the check; giving up on attempt 100 means 99 graphs were rejected |
| GraphGenerator.NothingRejected | DDSPC/Generators/GraphGenerator.cs:26-36 | no generated graph fails the check, so the limit of 100 attempts is never reached |
| InstanceGenerator.GenerateCyclicGraph | DDSPC/Generators/InstanceGenerator.cs:12-50 | the cycle plus the conflicts drawn from the seed, at most `maxConflicts` of them between distinct even nodes; the instance is well formed, connected, and determined by its arguments |
| InstanceGenerator.LineWriter.WriteLine | DDSPC/Generators/InstanceGenerator.cs:56 | appends one line to the file |
| InstanceGenerator.WritePairs | DDSPC/Generators/InstanceGenerator.cs:58-59 | writes one `"u v"` line per pair, in order |
| InstanceGenerator.WriteSection | DDSPC/Generators/InstanceGenerator.cs:57-59 | writes the count line, then the pair lines |
| InstanceGenerator.SaveInstance | DDSPC/Generators/InstanceGenerator.cs:52-65 | the file gains exactly the node count, the edge section and the conflict section |
| Text.NatToString | DDSPC/Generators/InstanceGenerator.cs:56 | at least one decimal digit, with no leading zero |
| Text.IntToString | DDSPC/Generators/InstanceGenerator.cs:56 | no white space, a leading minus exactly for negatives, a final digit |
| Text.ParseInt | DDSPC/Loaders/InstanceLoader.cs:14 | a parsed value fits in 32 bits |
| Text.ParseIntToString | DDSPC/Loaders/InstanceLoader.cs:14 | parsing the formatted text of any 32-bit integer gives it back |
| Text.SplitFirstPieces | DDSPC/Loaders/InstanceLoader.cs:19 | the first piece of `Split()` runs to the first white space; a second piece exists iff there is white space, and runs to the next |
| InstanceLoader.LineReader.ReadLine | DDSPC/Loaders/InstanceLoader.cs:14 | returns the next line, or null past the end, and advances |
| InstanceLoader.ParseCount | DDSPC/Loaders/InstanceLoader.cs:14-15 | a parsed count fits in 32 bits |
| InstanceLoader.ParsePairLine | DDSPC/Loaders/InstanceLoader.cs:19-20 | a parsed pair has both components in 32 bits |
| InstanceLoader.PairLineSplits | DDSPC/Loaders/InstanceLoader.cs:19-20 | parsing a pair line is `int.Parse` of `Split()[0]` and `Split()[1]`, with a missing second piece an error |
| InstanceLoader.ParsePairs | DDSPC/Loaders/InstanceLoader.cs:17-21 | a successful read of `count` lines gives `count` pairs |
| InstanceLoader.FailureSticks | DDSPC/Loaders/InstanceLoader.cs:17-21 | once a pair line fails, reading more lines fails the same way |
| InstanceLoader.ReadCount | DDSPC/Loaders/InstanceLoader.cs:14-15 | parses the next line as a count and advances past it |
| InstanceLoader.ReadPair | DDSPC/Loaders/InstanceLoader.cs:19-20 | parses the next line as a pair and advances past it |
| InstanceLoader.ReadPairs | DDSPC/Loaders/InstanceLoader.cs:17-21 | the loop's result is `ParsePairs` over `max(count, 0)` lines |
| InstanceLoader.ReadSection | DDSPC/Loaders/InstanceLoader.cs:23-28 | reads a count, then that many pair lines, and advances past them |
| InstanceLoader.LoadInstance | DDSPC/Loaders/InstanceLoader.cs:7-36 | the result is exactly the parse of the file's lines |
| InstanceLoader.CountLineRoundTrip | DDSPC/Loaders/InstanceLoader.cs:14-15 | a written count line reads back as the count |
| InstanceLoader.PairLineRoundTrip | DDSPC/Loaders/InstanceLoader.cs:19-20 | a written `"u v"` line reads back as the pair |
| InstanceLoader.PairsRoundTrip | DDSPC/Loaders/InstanceLoader.cs:17-21 | when each of `k` consecutive lines reads back as a pair, the loop reads back the list of those pairs, in order |
| InstanceLoader.SectionRoundTrip | DDSPC/Loaders/InstanceLoader.cs:23-28 | a written section reads back as its pairs |
| InstanceLoader.LoadSaveRoundTrip | DDSPC/Loaders/InstanceLoader.cs:7-36 | loading the lines `SaveInstance` writes, followed by anything, gives back the instance when all its numbers fit in 32 bits |
| InstanceLoader.PairsIgnoreTrailing | DDSPC/Loaders/InstanceLoader.cs:17-21 | lines after the ones a pair loop reads do not change its result |
| InstanceLoader.SectionNeedsLines | DDSPC/Loaders/InstanceLoader.cs:23-28 | a successful section read lies within the file |
| InstanceLoader.SectionIgnoresTrailing | DDSPC/Loaders/InstanceLoader.cs:23-28 | lines after a successful section do not change it |
| InstanceLoader.TrailingLinesIgnored | DDSPC/Loaders/InstanceLoader.cs:7-36 | a successful load reads `3 + |edges| + |conflicts|` lines, and lines after those change nothing |
| TupleListJsonConverter.Advance | DDSPC/Util/TupleListJsonConverter.cs:25 | an unchecked `Read()` moves one token on, or stays on the last token |
| TupleListJsonConverter.Int32Of | DDSPC/Util/TupleListJsonConverter.cs:30 | `GetInt32` succeeds exactly on a number that fits in 32 bits |
| TupleListJsonConverter.ReadElements | DDSPC/Util/TupleListJsonConverter.cs:17-43 | a successful element loop extends the pairs already read |
| TupleListJsonConverter.JsonReader.Read | DDSPC/Util/TupleListJsonConverter.cs:17 | moves to the next token and reports whether there was one |
| TupleListJsonConverter.JsonReader.GetInt32 | DDSPC/Util/TupleListJsonConverter.cs:30 | returns the 32-bit value of a number token, or the error |
| TupleListJsonConverter.ReadElement | DDSPC/Util/TupleListJsonConverter.cs:19-40 | one loop pass ends the list, fails as the loop would, or reads one pair and continues exactly as the loop does |
| TupleListJsonConverter.Read | DDSPC/Util/TupleListJsonConverter.cs:10-44 | the result is exactly `Decode` of the tokens from the reader's position; on success the reader stands on `EndArray` |
| TupleListJsonConverter.Elements | DDSPC/Util/TupleListJsonConverter.cs:49-55 | six tokens per pair |
| TupleListJsonConverter.ElementsAt | DDSPC/Util/TupleListJsonConverter.cs:49-55 | the `k`-th group of six tokens is the object for the `k`-th pair |
| TupleListJsonConverter.JsonWriter.WriteNumber | DDSPC/Util/TupleListJsonConverter.cs:52 | appends the property name and the number |
| TupleListJsonConverter.WriteElement | DDSPC/Util/TupleListJsonConverter.cs:51-54 | appends the six tokens of one object |
| TupleListJsonConverter.Write | DDSPC/Util/TupleListJsonConverter.cs:46-58 | the writer gains exactly `[`, one object per pair in order, `]` |
| TupleListJsonConverter.ReadObject | DDSPC/Util/TupleListJsonConverter.cs:22-40 | one well-formed object is read as one more pair |
| TupleListJsonConverter.ReadWriteRoundTrip | DDSPC/Util/TupleListJsonConverter.cs:10-58 | reading what `Write` wrote, wherever it sits in a stream, gives back the list of 32-bit pairs |
| TupleListJsonConverter.DecodeIgnoresTrailing | DDSPC/Util/TupleListJsonConverter.cs:17-20 | tokens after a successfully read array do not change the result |
| TupleListJsonConverter.NamesAndCloseUnchecked | DDSPC/Util/TupleListJsonConverter.cs:26-39 | property names are not compared and the closing token of an object is skipped unchecked, so a malformed object is read by position |
| TupleListJsonConverter.WideNumberRefused | DDSPC/Util/TupleListJsonConverter.cs:30 | a number outside the 32-bit range is an error |
| Randomness.RangeValue | DDSPC/Generators/InstanceGenerator.cs:34-35 | `Next(min, max)` is `min` on an empty range, and otherwise in `[min, max)` |
| Randomness.Random.Next | DDSPC/Generators/GraphGenerator.cs:60 | `Next(n)` is 0 for `n = 0`, and otherwise in `[0, n)` |
| Randomness.Random.NextRange | DDSPC/Generators/InstanceGenerator.cs:34-35 | consumes one draw and returns the value in range for it |
| Randomness.Random.NextDoubleBelow | DDSPC/Generators/GraphGenerator.cs:105 | `NextDouble() < p` is never true for `p <= 0` and always true for `p >= 1` |

## Left out

- Timing, console output, `GraphName`, `Runtime` and `InstanceName` are left out. So are the generated graph names and the `GenerateEdges` helper, which nothing in the core calls.
- The pseudo-random algorithm of `System.Random` is left out. A generator is the sequence of draws it produces. `NextDouble() < p` draws an integer in `[0, den)` and compares it with `num`.
- Floating point is left out: `alpha`, the densities and the probabilities are exact ratios. The `0.5f` comparison in the cyclic generators is exact, because `Next(0, 1)` is always 0.
- Randomness.Random.Next: only the range of the result is stated, not which value a given draw yields. The solvers' properties hold for every value.
- DDSPCGraphGenerator.DDSPCGraphGenerator.GenerateConnectedGraph: the source retries without bound. The model takes an `attempts` bound and returns `None` when the bound runs out.
- GraphGenerator.GraphGenerator.GenerateConnectedEdges: the extra-edge loop draws without bound in the source. The model takes a `budget` of rounds and reports `None` when it runs out. A target above the number of possible edges makes the source loop forever.
- GraphGenerator.GraphGenerator.GenerateConnectedGraph: `graph.IsConnected()` is an extension method that is not part of this model. It is modelled by the depth-first check of `DDSPCGraphGenerator.IsGraphConnected`.
- 32-bit overflow is not modelled. Integers are unbounded: `Value`, the coverage counts and `edgeDensity * n * (n - 1)` stay below `int.MaxValue` on any instance that fits in memory.
- A negative node count is left out wherever a member requires `numNodes >= 0` (or `nodeCount >= 0`). What the source does there:
  - Construction.ScanCandidates, Construction.BuildD1, Construction.SelectStep, Construction.BuildD2, Construction.Construct, both `ConstructGreedyRandomizedSolution`s and GreedySolver.DDSCPGreedySolver.SolveWithMetrics: `Enumerable.Range(0, input.NumNodes)` throws `ArgumentOutOfRangeException` before the first pick (DDSPC/Solver/DDSPCGRASP.cs:66, DDSPC/Solver/DDSCPGreedySolver.cs:51).
  - Neighborhood.AddMoves, Grasp.DDSPCGRASP.GenerateNeighbors, Grasp.DDSPCGRASP.FirstImprovement and Grasp.DDSPCGRASP.LocalSearch: the add loops throw in the same way once the neighbours are enumerated (DDSPC/Solver/DDSPCGRASP.cs:225). In the source these only run on a constructed solution, which a negative count never yields.
  - Grasp.DDSPCGRASP.ConstructAndImprove, Grasp.DDSPCGRASP.NextRound, Grasp.DDSPCGRASP.BestOfRounds and Grasp.DDSPCGRASP.Solve: the first round throws in the construction. With `maxIterations <= 0` the source's `Solve` runs no round and returns null even for a negative count. The model does not cover that case.
  - DDSPCGraphGenerator.DDSPCGraphGenerator.GenerateGraph and GenerateConnectedGraph: `Enumerable.Range(0, numNodes)` throws (DDSPC/Generators/DDSPCGraphGenerator.cs:25).
  - DDSPCGraphGenerator.DDSPCGraphGenerator.GenerateCyclicGraph, InstanceGenerator.GenerateCyclicGraph and the CyclicGraph members they use: the source does not always throw. The cycle loop is skipped. With `maxConflicts <= 0`, or with `numNodes == -1` (`-1 / 2` is 0, `Next(0, 0)` is 0, so both nodes are 0 and no conflict is added), it returns an instance with that count and no edges or conflicts. With `numNodes <= -2` and `maxConflicts > 0`, `Next(0, numNodes / 2)` throws.
  - GraphGenerator.GraphGenerator.GenerateConnectedEdges, GenerateGraph and GenerateConnectedGraph: the source skips the tree loop. It throws (`Next` with a negative bound) only when the truncated target `(int)(edgeDensity * n * (n - 1) / 2)` is positive. Otherwise `GenerateGraph` returns a graph with that count and no edges or conflicts.
- `HashSet` iteration order is left open. The removals and swaps of `GenerateNeighbors` enumerate members in an order the model picks arbitrarily, so `LocalSearch` may take a different first improving removal within the same group than a given run of the source. The order of the groups themselves is kept (`Grasp.FirstStep`). The properties hold for every order within a group.
- The swap filter of `GenerateNeighbors` checks the entering nodes only against the remaining members. `Neighborhood.SwapMayBreakFeasibility` shows a generated swap that is infeasible with unordered conflict pairs but passes the check. Swaps never change the value, so `LocalSearch` never adopts one.
- InstanceLoader.LoadInstance: the file is a sequence of lines. Opening the file, I/O errors and the reader's newline handling are left out.
- `int.Parse` is modelled with the invariant culture and the default integer style, whose white space is U+0009 to U+000D and U+0020. `string.Split()` separates on every Unicode white-space character, but the model's `Text.Split` uses only those six. Lines holding other Unicode white space, and trailing NUL characters, are left out.
- InstanceGenerator.SaveInstance: the source formats numbers with the current culture. The model writes them as the invariant culture does. A culture whose negative sign is not `-` writes negative numbers differently, and `int.Parse` in another culture may then read them back differently.
- TupleListJsonConverter.Read: the JSON text is a token sequence. The JSON lexer, fractions and exponents, and `Utf8JsonReader`'s own errors on malformed text are left out.
- The JSON options and the `typeToConvert` argument are unused by the source and left out.
