/**
 * The greedy randomized construction shared, line for line, by
 * `DDSPCGRASP.ConstructGreedyRandomizedSolution` and
 * `DDSCPGreedySolver.ConstructGreedyRandomizedSolution`.
 *
 * Phase 1 grows D1 until no node is left uncovered; phase 2 grows D2 the
 * same way from the nodes outside D1 that conflict with no D1 node. Each
 * step scores every candidate by how many uncovered nodes it would cover,
 * keeps the restricted candidate list (RCL) of candidates scoring at least
 * `min + alpha * (max - min)`, and draws one of them.
 */
module Construction {
  import opened Wrappers
  import opened Data
  import opened DDSPCUtil
  import opened Randomness

  /** How many entries of `xs` lie in `u`, repeated entries counted each time. */
  function CountIn(xs: seq<int>, u: set<int>): (c: nat)
    ensures c <= |xs|
  {
    if xs == [] then 0
    else CountIn(xs[..|xs| - 1], u) + (if xs[|xs| - 1] in u then 1 else 0)
  }

  /** Which nodes a phase may pick: phase 1 any node outside D1, phase 2 a node outside both sets that conflicts with no D1 node. */
  predicate IsCandidate(input: Input, d1: set<int>, d2: set<int>, second: bool, x: int)
  {
    && 0 <= x < input.numNodes
    && if second then x !in d2 && x !in d1 && !ClashesWithAny(input.conflicts, x, d1)
       else x !in d1
  }

  /** The candidates among the nodes below `k`, in increasing order: the scan of one step, stopped at `k`. */
  function CandidatesBelow(input: Input, d1: set<int>, d2: set<int>, second: bool, k: int): (cs: seq<int>)
    ensures forall x :: x in cs <==> x < k && IsCandidate(input, d1, d2, second, x)
    ensures forall i, j :: 0 <= i < j < |cs| ==> cs[i] < cs[j]
    decreases k
  {
    if k <= 0 then []
    else
      var prefix := CandidatesBelow(input, d1, d2, second, k - 1);
      assert forall i :: 0 <= i < |prefix| ==> prefix[i] in prefix;
      prefix + (if IsCandidate(input, d1, d2, second, k - 1) then [k - 1] else [])
  }

  /** The candidate list a full scan of the nodes produces. */
  function Candidates(input: Input, d1: set<int>, d2: set<int>, second: bool): seq<int>
  {
    CandidatesBelow(input, d1, d2, second, input.numNodes)
  }

  /** The score of a node: 1 for itself plus one per listed neighbour still uncovered. */
  function Score(edges: seq<Pair>, uncovered: set<int>, x: int): int
  {
    1 + CountIn(GetNeighbors(x, edges), uncovered)
  }

  /** The lowest score among the candidates: what `coverage.Values.Min()` yields. */
  function MinScore(edges: seq<Pair>, uncovered: set<int>, cs: seq<int>): int
    requires |cs| > 0
  {
    var first := Score(edges, uncovered, cs[0]);
    if |cs| == 1 then first
    else
      var rest := MinScore(edges, uncovered, cs[1..]);
      if first <= rest then first else rest
  }

  /** The highest score among the candidates: what `coverage.Values.Max()` yields. */
  function MaxScore(edges: seq<Pair>, uncovered: set<int>, cs: seq<int>): int
    requires |cs| > 0
  {
    var first := Score(edges, uncovered, cs[0]);
    if |cs| == 1 then first
    else
      var rest := MaxScore(edges, uncovered, cs[1..]);
      if first >= rest then first else rest
  }

  /** `MinScore` is the score of some candidate and no candidate scores lower. */
  lemma {:induction false} MinScoreIsLeast(edges: seq<Pair>, uncovered: set<int>, cs: seq<int>)
    requires |cs| > 0
    ensures exists y :: y in cs && MinScore(edges, uncovered, cs) == Score(edges, uncovered, y)
    ensures forall y :: y in cs ==> MinScore(edges, uncovered, cs) <= Score(edges, uncovered, y)
  {
    assert cs[0] in cs;
    if |cs| > 1 {
      MinScoreIsLeast(edges, uncovered, cs[1..]);
      assert cs == [cs[0]] + cs[1..];
      var y :| y in cs[1..] && MinScore(edges, uncovered, cs[1..]) == Score(edges, uncovered, y);
      assert y in cs;
    }
  }

  /** `MaxScore` is the score of some candidate and no candidate scores higher. */
  lemma {:induction false} MaxScoreIsGreatest(edges: seq<Pair>, uncovered: set<int>, cs: seq<int>)
    requires |cs| > 0
    ensures exists y :: y in cs && MaxScore(edges, uncovered, cs) == Score(edges, uncovered, y)
    ensures forall y :: y in cs ==> Score(edges, uncovered, y) <= MaxScore(edges, uncovered, cs)
  {
    assert cs[0] in cs;
    if |cs| > 1 {
      MaxScoreIsGreatest(edges, uncovered, cs[1..]);
      assert cs == [cs[0]] + cs[1..];
      var y :| y in cs[1..] && MaxScore(edges, uncovered, cs[1..]) == Score(edges, uncovered, y);
      assert y in cs;
    }
  }

  /** The nodes that `s` leaves undominated. */
  function Uncovered(input: Input, s: set<int>): set<int>
  {
    Nodes(input.numNodes) - DominatedBy(s, input.edges)
  }

  /** The nodes listed in `picks`. */
  function Elems(picks: seq<int>): set<int>
  {
    if picks == [] then {} else Elems(picks[..|picks| - 1]) + {picks[|picks| - 1]}
  }

  /**
   * `x` is a pick one step may make: some node is still uncovered by the set
   * being grown (D1 in phase 1, D2 in phase 2), and `x` is a candidate whose
   * score meets the RCL threshold between the lowest and the highest score
   * of the scan.
   */
  ghost predicate ValidPick(input: Input, alpha: Ratio, d1: set<int>, d2: set<int>, second: bool, x: int)
  {
    var u := Uncovered(input, if second then d2 else d1);
    var cs := Candidates(input, d1, d2, second);
    && u != {}
    && x in cs
    && MeetsThreshold(Score(input.edges, u, x), MinScore(input.edges, u, cs), MaxScore(input.edges, u, cs), alpha)
  }

  /** `x` is a valid pick after the picks `prefix` of the same phase. */
  ghost predicate PickAfter(input: Input, alpha: Ratio, d1: set<int>, second: bool, prefix: seq<int>, x: int)
  {
    if second then ValidPick(input, alpha, d1, Elems(prefix), true, x)
    else ValidPick(input, alpha, Elems(prefix), {}, false, x)
  }

  /**
   * `picks` are picks a phase can make one after another: phase 1 grows D1
   * from the empty set, phase 2 (`second`) grows D2 from the empty set beside
   * the finished `d1`.
   */
  ghost predicate Run(input: Input, alpha: Ratio, d1: set<int>, second: bool, picks: seq<int>)
  {
    forall k {:trigger PickAfter(input, alpha, d1, second, picks[..k], picks[k])} ::
      0 <= k < |picks| ==> PickAfter(input, alpha, d1, second, picks[..k], picks[k])
  }

  /**
   * The picks of a finished construction: phase 1 ran until every node was
   * dominated, then phase 2 ran until every node was dominated again or no
   * candidate was left.
   */
  ghost predicate FinishedRun(input: Input, alpha: Ratio, picks1: seq<int>, picks2: seq<int>)
  {
    && Run(input, alpha, {}, false, picks1) && Uncovered(input, Elems(picks1)) == {}
    && Run(input, alpha, Elems(picks1), true, picks2)
    && (Uncovered(input, Elems(picks2)) == {} || Candidates(input, Elems(picks1), Elems(picks2), true) == [])
  }

  /**
   * What a construction along these picks reports: the two sets with one
   * unit of value per pick, or `None` when phase 2 stopped with nodes still
   * undominated.
   */
  function ConstructionResult(input: Input, picks1: seq<int>, picks2: seq<int>): Option<Output>
  {
    if Uncovered(input, Elems(picks2)) == {} then Some(Output(0, Elems(picks1), Elems(picks2), |picks1| + |picks2|, ""))
    else None
  }

  lemma ConstructionSucceeds(input: Input, picks1: seq<int>, picks2: seq<int>)
    requires Uncovered(input, Elems(picks2)) == {}
    ensures ConstructionResult(input, picks1, picks2) == Some(Output(0, Elems(picks1), Elems(picks2), |picks1| + |picks2|, ""))
  {
  }

  /** `r` is a result some run of the construction reports. */
  ghost predicate Constructible(input: Input, alpha: Ratio, r: Option<Output>)
  {
    exists picks1, picks2 :: FinishedRun(input, alpha, picks1, picks2) && r == ConstructionResult(input, picks1, picks2)
  }

  /** The score of a node, counted by walking its neighbour list. */
  method Coverage(node: int, edges: seq<Pair>, uncovered: set<int>) returns (count: int)
    ensures count == Score(edges, uncovered, node)
  {
    count := 1;
    var nbrs := GetNeighbors(node, edges);
    for j := 0 to |nbrs|
      invariant count == 1 + CountIn(nbrs[..j], uncovered)
    {
      assert nbrs[..j + 1][..j] == nbrs[..j];
      if nbrs[j] in uncovered {
        count := count + 1;
      }
    }
    assert nbrs[..|nbrs|] == nbrs;
  }

  /**
   * The candidate scan of one step: the candidates in increasing node order
   * and the coverage dictionary, whose keys are exactly the candidates.
   */
  method ScanCandidates(input: Input, d1: set<int>, d2: set<int>, second: bool, uncovered: set<int>)
    returns (candidates: seq<int>, coverage: map<int, int>)
    requires input.numNodes >= 0
    ensures forall x :: x in candidates <==> IsCandidate(input, d1, d2, second, x)
    ensures forall i, j :: 0 <= i < j < |candidates| ==> candidates[i] < candidates[j]
    ensures forall x :: x in coverage <==> x in candidates
    ensures forall x :: x in coverage ==> coverage[x] == Score(input.edges, uncovered, x)
    ensures candidates == Candidates(input, d1, d2, second)
  {
    candidates := [];
    coverage := map[];
    for node := 0 to input.numNodes
      invariant candidates == CandidatesBelow(input, d1, d2, second, node)
      invariant forall x :: x in coverage <==> x in candidates
      invariant forall x :: x in coverage ==> coverage[x] == Score(input.edges, uncovered, x)
    {
      ghost var admissible := IsCandidate(input, d1, d2, second, node);
      assert CandidatesBelow(input, d1, d2, second, node + 1) == candidates + (if admissible then [node] else []);
      if second {
        if node in d2 {
          continue;
        }
        if node in d1 {
          continue;
        }
        var hasConflict := HasConflictWith(node, d1, input.conflicts);
        if hasConflict {
          continue;
        }
      } else {
        if node in d1 {
          continue;
        }
      }
      var count := Coverage(node, input.edges, uncovered);
      if count > 0 {
        candidates := candidates + [node];
        coverage := coverage[node := count];
      }
    }
  }

  /** A candidate of highest coverage (`coverage.Values.Max()` is its score). */
  function ArgMax(candidates: seq<int>, coverage: map<int, int>): (x: int)
    requires |candidates| > 0
    requires forall y :: y in candidates ==> y in coverage
    ensures x in candidates
    ensures forall y :: y in candidates ==> coverage[y] <= coverage[x]
  {
    var first := candidates[0];
    assert first in candidates;
    if |candidates| == 1 then first
    else
      var best := ArgMax(candidates[1..], coverage);
      assert best in candidates;
      if coverage[first] >= coverage[best] then first else best
  }

  /** A candidate of lowest coverage (`coverage.Values.Min()` is its score). */
  function ArgMin(candidates: seq<int>, coverage: map<int, int>): (x: int)
    requires |candidates| > 0
    requires forall y :: y in candidates ==> y in coverage
    ensures x in candidates
    ensures forall y :: y in candidates ==> coverage[x] <= coverage[y]
  {
    var first := candidates[0];
    assert first in candidates;
    if |candidates| == 1 then first
    else
      var best := ArgMin(candidates[1..], coverage);
      assert best in candidates;
      if coverage[first] <= coverage[best] then first else best
  }

  /** `c >= lo + alpha * (hi - lo)` for `alpha = num/den`, multiplied through by `den > 0`. */
  predicate MeetsThreshold(c: int, lo: int, hi: int, alpha: Ratio)
  {
    alpha.den * c >= alpha.den * lo + alpha.num * (hi - lo)
  }

  /** The restricted candidate list: the candidates meeting the threshold, in candidate order. */
  function Rcl(candidates: seq<int>, coverage: map<int, int>, lo: int, hi: int, alpha: Ratio): (rcl: seq<int>)
    requires forall y :: y in candidates ==> y in coverage
    ensures forall x :: x in rcl <==> x in candidates && MeetsThreshold(coverage[x], lo, hi, alpha)
  {
    if candidates == [] then []
    else
      var first := candidates[0];
      assert first in candidates;
      assert candidates == [first] + candidates[1..];
      (if MeetsThreshold(coverage[first], lo, hi, alpha) then [first] else [])
      + Rcl(candidates[1..], coverage, lo, hi, alpha)
  }

  lemma ThresholdAtMost(lo: int, hi: int, alpha: Ratio)
    requires UnitInterval(alpha) && lo <= hi
    ensures MeetsThreshold(hi, lo, hi, alpha)
  {
    assert (alpha.den - alpha.num) * (hi - lo) >= 0;
  }

  /** With `alpha = 0` the threshold is the lowest coverage. */
  lemma ThresholdAtZero(c: int, lo: int, hi: int, alpha: Ratio)
    requires UnitInterval(alpha) && alpha.num == 0
    ensures MeetsThreshold(c, lo, hi, alpha) <==> c >= lo
  {
    if c >= lo {
      assert alpha.den * (c - lo) >= 0;
    } else {
      assert alpha.den * (lo - c) > 0;
    }
  }

  /** With `alpha = 1` the threshold is the highest coverage. */
  lemma ThresholdAtOne(c: int, lo: int, hi: int, alpha: Ratio)
    requires UnitInterval(alpha) && alpha.num == alpha.den
    ensures MeetsThreshold(c, lo, hi, alpha) <==> c >= hi
  {
    assert alpha.den * lo + alpha.num * (hi - lo) == alpha.den * hi;
    if c >= hi {
      assert alpha.den * (c - hi) >= 0;
    } else {
      assert alpha.den * (hi - c) > 0;
    }
  }

  /**
   * The two ends of the RCL parameter: with `alpha = 0` every candidate is
   * admitted, so the draw is uniform over the candidates; with `alpha = 1`
   * only the best-covering candidates are, so the choice is greedy.
   */
  lemma ZeroAlphaAdmitsAll(input: Input, alpha: Ratio, d1: set<int>, d2: set<int>, second: bool, x: int)
    requires UnitInterval(alpha) && alpha.num == 0
    requires Uncovered(input, if second then d2 else d1) != {}
    ensures ValidPick(input, alpha, d1, d2, second, x) <==> x in Candidates(input, d1, d2, second)
  {
    var u := Uncovered(input, if second then d2 else d1);
    var cs := Candidates(input, d1, d2, second);
    if x in cs {
      MinScoreIsLeast(input.edges, u, cs);
      ThresholdAtZero(Score(input.edges, u, x), MinScore(input.edges, u, cs), MaxScore(input.edges, u, cs), alpha);
    }
  }

  /** With `alpha = 1` a valid pick is exactly a candidate of the highest coverage. */
  lemma UnitAlphaOnlyBest(input: Input, alpha: Ratio, d1: set<int>, d2: set<int>, second: bool, x: int)
    requires UnitInterval(alpha) && alpha.num == alpha.den
    requires Uncovered(input, if second then d2 else d1) != {}
    ensures var u := Uncovered(input, if second then d2 else d1);
            var cs := Candidates(input, d1, d2, second);
            ValidPick(input, alpha, d1, d2, second, x) <==>
              x in cs && forall y :: y in cs ==> Score(input.edges, u, x) >= Score(input.edges, u, y)
  {
    var u := Uncovered(input, if second then d2 else d1);
    var cs := Candidates(input, d1, d2, second);
    if x in cs {
      MaxScoreIsGreatest(input.edges, u, cs);
      ThresholdAtOne(Score(input.edges, u, x), MinScore(input.edges, u, cs), MaxScore(input.edges, u, cs), alpha);
    }
  }

  /** With `0 <= alpha <= 1` the RCL is never empty: it holds a candidate of maximal coverage. */
  lemma RclHoldsBest(candidates: seq<int>, coverage: map<int, int>, alpha: Ratio)
    requires |candidates| > 0 && UnitInterval(alpha)
    requires forall y :: y in candidates ==> y in coverage
    ensures var lo := coverage[ArgMin(candidates, coverage)];
            var hi := coverage[ArgMax(candidates, coverage)];
            ArgMax(candidates, coverage) in Rcl(candidates, coverage, lo, hi, alpha)
  {
    var best := ArgMax(candidates, coverage);
    var lo := coverage[ArgMin(candidates, coverage)];
    ThresholdAtMost(lo, coverage[best], alpha);
  }

  /** Builds the RCL from the minimum and maximum coverage and draws one of its members. */
  method SelectFromRcl(candidates: seq<int>, coverage: map<int, int>, alpha: Ratio, random: Random)
    returns (selected: int)
    requires |candidates| > 0 && UnitInterval(alpha)
    requires forall y :: y in candidates ==> y in coverage
    modifies random
    ensures selected in candidates
    ensures MeetsThreshold(coverage[selected], coverage[ArgMin(candidates, coverage)],
                           coverage[ArgMax(candidates, coverage)], alpha)
  {
    var minCoverage := coverage[ArgMin(candidates, coverage)];
    var maxCoverage := coverage[ArgMax(candidates, coverage)];
    var rcl := Rcl(candidates, coverage, minCoverage, maxCoverage, alpha);
    RclHoldsBest(candidates, coverage, alpha);
    var k := random.Next(|rcl|);
    selected := rcl[k];
  }

  /** Removes the selected node and each of its listed neighbours from `uncovered`. */
  method MarkCovered(uncovered: set<int>, selected: int, edges: seq<Pair>) returns (rest: set<int>)
    ensures rest == uncovered - {selected} - (set x | x in GetNeighbors(selected, edges))
  {
    rest := uncovered - {selected};
    var nbrs := GetNeighbors(selected, edges);
    for j := 0 to |nbrs|
      invariant rest == uncovered - {selected} - (set x | x in nbrs[..j])
    {
      assert nbrs[..j + 1] == nbrs[..j] + [nbrs[j]];
      rest := rest - {nbrs[j]};
    }
    assert nbrs[..|nbrs|] == nbrs;
  }

  /** Marking a pick's closed neighbourhood leaves exactly the nodes the grown set does not dominate. */
  method Cover(input: Input, s: set<int>, uncovered: set<int>, selected: int) returns (rest: set<int>)
    requires uncovered == Uncovered(input, s)
    ensures rest == Uncovered(input, s + {selected})
  {
    DominatedInsert(s, selected, input.edges);
    rest := MarkCovered(uncovered, selected, input.edges);
  }

  /** What a successful construction guarantees about its solution. */
  predicate Sound(input: Input, o: Output)
  {
    && InRange(input, o)
    && Feasible(input, o)
    && o.value == |o.d1| + |o.d2|
  }

  /**
   * Phase 1: grows D1 from the empty set until every node is dominated,
   * counting each pick into `value`.
   */
  method BuildD1(input: Input, alpha: Ratio, random: Random) returns (d1: set<int>, value: int, ghost picks: seq<int>)
    requires input.numNodes >= 0 && UnitInterval(alpha)
    modifies random
    ensures Run(input, alpha, {}, false, picks) && d1 == Elems(picks) && Uncovered(input, d1) == {}
    ensures d1 <= Nodes(input.numNodes) && Dominates(input, d1)
    ensures value == |d1| == |picks|
  {
    var n := input.numNodes;
    d1 := {};
    value := 0;
    picks := [];
    var uncovered := Nodes(n);
    NeighborhoodOfEmpty(input.edges);
    while uncovered != {}
      invariant d1 <= Nodes(n)
      invariant value == |d1| == |picks|
      invariant Run(input, alpha, {}, false, picks) && d1 == Elems(picks)
      invariant uncovered == Uncovered(input, d1)
      decreases Nodes(n) - d1
    {
      NonEmptyHasMember(uncovered);
      ghost var u :| u in uncovered;
      // An uncovered node is outside D1, so it is a candidate: the source's
      // `break` on an empty candidate list never fires.
      UncoveredIsCandidate(input, d1, u);
      var selected := SelectStep(input, alpha, d1, {}, false, uncovered, random, picks);
      uncovered := Cover(input, d1, uncovered, selected.value);
      d1 := d1 + {selected.value};
      value := value + 1;
      picks := picks + [selected.value];
    }
  }

  /**
   * One pass of either phase's loop while some node is uncovered: the
   * candidate scan, then a draw from the RCL; `None` when the candidate list
   * is empty. `picks` is the run of the phase so far; the drawn node extends
   * it to a longer run.
   */
  method SelectStep(input: Input, alpha: Ratio, d1: set<int>, d2: set<int>, second: bool,
                    uncovered: set<int>, random: Random, ghost picks: seq<int>)
    returns (selected: Option<int>)
    requires input.numNodes >= 0 && UnitInterval(alpha)
    requires uncovered == Uncovered(input, if second then d2 else d1) && uncovered != {}
    requires Run(input, alpha, if second then d1 else {}, second, picks)
    requires (if second then d2 else d1) == Elems(picks) && (!second ==> d2 == {})
    modifies random
    ensures selected.None? <==> Candidates(input, d1, d2, second) == []
    ensures selected.Some? ==> IsCandidate(input, d1, d2, second, selected.value)
    ensures selected.Some? ==> Run(input, alpha, if second then d1 else {}, second, picks + [selected.value])
    ensures selected.Some? ==> Elems(picks + [selected.value]) == Elems(picks) + {selected.value}
  {
    var candidates, coverage := ScanCandidates(input, d1, d2, second, uncovered);
    if |candidates| == 0 {
      return None;
    }
    var x := SelectFromRcl(candidates, coverage, alpha, random);
    PickFromScan(input, alpha, d1, d2, second, candidates, coverage, x);
    GrowRun(input, alpha, if second then d1 else {}, second, picks, x);
    return Some(x);
  }

  /** In phase 1 every uncovered node is a candidate. */
  lemma UncoveredIsCandidate(input: Input, d1: set<int>, u: int)
    requires u in Uncovered(input, d1)
    ensures u in Candidates(input, d1, {}, false)
  {
    assert u !in DominatedBy(d1, input.edges);
  }

  /** A node drawn from the RCL of a full scan is a valid pick of that step. */
  lemma PickFromScan(input: Input, alpha: Ratio, d1: set<int>, d2: set<int>, second: bool,
                     candidates: seq<int>, coverage: map<int, int>, selected: int)
    requires Uncovered(input, if second then d2 else d1) != {}
    requires candidates == Candidates(input, d1, d2, second)
    requires forall x :: x in coverage <==> x in candidates
    requires forall x :: x in coverage ==> coverage[x] == Score(input.edges, Uncovered(input, if second then d2 else d1), x)
    requires selected in candidates
    requires MeetsThreshold(coverage[selected], coverage[ArgMin(candidates, coverage)],
                            coverage[ArgMax(candidates, coverage)], alpha)
    ensures ValidPick(input, alpha, d1, d2, second, selected)
  {
    var u := Uncovered(input, if second then d2 else d1);
    MinScoreIsLeast(input.edges, u, candidates);
    MaxScoreIsGreatest(input.edges, u, candidates);
    var lo :| lo in candidates && MinScore(input.edges, u, candidates) == Score(input.edges, u, lo);
    var hi :| hi in candidates && MaxScore(input.edges, u, candidates) == Score(input.edges, u, hi);
    assert coverage[ArgMin(candidates, coverage)] == MinScore(input.edges, u, candidates);
    assert coverage[ArgMax(candidates, coverage)] == MaxScore(input.edges, u, candidates);
  }

  /** A run extended by a valid pick is a run, and its set gains the new node. */
  lemma GrowRun(input: Input, alpha: Ratio, d1: set<int>, second: bool, picks: seq<int>, x: int)
    requires Run(input, alpha, d1, second, picks)
    requires PickAfter(input, alpha, d1, second, picks, x)
    ensures Run(input, alpha, d1, second, picks + [x])
    ensures Elems(picks + [x]) == Elems(picks) + {x}
  {
    var ext := picks + [x];
    forall k | 0 <= k < |ext| ensures PickAfter(input, alpha, d1, second, ext[..k], ext[k]) {
      if k < |picks| {
        assert ext[..k] == picks[..k] && ext[k] == picks[k];
      } else {
        assert ext[..k] == picks;
      }
    }
  }

  /**
   * Phase 2: grows D2 from the nodes outside D1 that conflict with no D1
   * node. `None` when no such node is left while some node is still
   * undominated; `d2` is then the partial set at that point.
   */
  method BuildD2(input: Input, alpha: Ratio, d1: set<int>, value0: int, random: Random)
    returns (r: Option<int>, d2: set<int>, ghost picks: seq<int>)
    requires input.numNodes >= 0 && UnitInterval(alpha)
    modifies random
    ensures Run(input, alpha, d1, true, picks) && d2 == Elems(picks) && |d2| == |picks|
    ensures d2 <= Nodes(input.numNodes) && d1 !! d2
    ensures forall x :: x in d2 ==> !ClashesWithAny(input.conflicts, x, d1)
    ensures r.Some? <==> Uncovered(input, d2) == {}
    ensures r.Some? ==> Dominates(input, d2) && r.value == value0 + |d2|
    ensures r.None? ==> !Dominates(input, d2) && Candidates(input, d1, d2, true) == []
    ensures r.None? ==> forall x :: 0 <= x < input.numNodes && x !in d1 && x !in d2 ==>
                          ClashesWithAny(input.conflicts, x, d1)
  {
    var n := input.numNodes;
    var set2: set<int> := {};
    var value := value0;
    picks := [];
    var uncovered := Nodes(n);
    NeighborhoodOfEmpty(input.edges);
    while uncovered != {}
      invariant set2 <= Nodes(n) && d1 !! set2
      invariant forall x :: x in set2 ==> !ClashesWithAny(input.conflicts, x, d1)
      invariant value == value0 + |set2| && |set2| == |picks|
      invariant Run(input, alpha, d1, true, picks) && set2 == Elems(picks)
      invariant uncovered == Uncovered(input, set2)
      decreases Nodes(n) - set2
    {
      var selected := SelectStep(input, alpha, d1, set2, true, uncovered, random, picks);
      if selected.None? {
        NonEmptyHasMember(uncovered);
        ghost var u :| u in uncovered;
        assert u in Nodes(n) && u !in DominatedBy(set2, input.edges);
        forall x | 0 <= x < n && x !in d1 && x !in set2
          ensures ClashesWithAny(input.conflicts, x, d1)
        {
          assert x !in Candidates(input, d1, set2, true);
        }
        return None, set2, picks;
      }
      uncovered := Cover(input, set2, uncovered, selected.value);
      set2 := set2 + {selected.value};
      value := value + 1;
      picks := picks + [selected.value];
    }
    return Some(value), set2, picks;
  }

  /** D1 and D2 built apart from each other's conflicts are free of conflicts in both orientations. */
  lemma NoConflictBothWays(conflicts: seq<Pair>, d1: set<int>, d2: set<int>)
    requires forall x :: x in d2 ==> !ClashesWithAny(conflicts, x, d1)
    ensures NoOrderedConflict(conflicts, d1, d2) && NoOrderedConflict(conflicts, d2, d1)
  {
    forall a, b | a in d1 && b in d2 ensures (a, b) !in conflicts && (b, a) !in conflicts {
      assert !Clashes(conflicts, b, a);
    }
  }

  /**
   * The two-phase construction. `None` is the source's failure exit: phase 2
   * found no candidate while nodes were still uncovered. The ghost results
   * are the picks of the two phases.
   */
  method Construct(input: Input, alpha: Ratio, random: Random)
    returns (r: Option<Output>, ghost picks1: seq<int>, ghost picks2: seq<int>)
    requires input.numNodes >= 0 && UnitInterval(alpha)
    modifies random
    ensures FinishedRun(input, alpha, picks1, picks2) && r == ConstructionResult(input, picks1, picks2)
    ensures Dominates(input, Elems(picks1)) && Elems(picks1) <= Nodes(input.numNodes)
    ensures r.Some? ==> Sound(input, r.value) && r.value.value <= 2 * input.numNodes
    ensures r.Some? && WellFormed(input) ==> ValidSolution(input, r.value)
    ensures r.Some? ==> r.value.numNodes == 0 && r.value.solver == ""
    ensures r.None? ==> !Dominates(input, Elems(picks2))
    ensures r.None? ==> forall x :: 0 <= x < input.numNodes && x !in Elems(picks1) && x !in Elems(picks2) ==>
                          ClashesWithAny(input.conflicts, x, Elems(picks1))
  {
    var set1, value;
    set1, value, picks1 := BuildD1(input, alpha, random);
    var total, set2;
    total, set2, picks2 := BuildD2(input, alpha, set1, value, random);
    if total.None? {
      return None, picks1, picks2;
    }
    NoConflictBothWays(input.conflicts, set1, set2);
    var o := Output(0, set1, set2, total.value, "");
    assert Feasible(input, o);
    if WellFormed(input) {
      FeasibleIsValid(input, o);
    }
    SubsetCard(set1, Nodes(input.numNodes));
    SubsetCard(set2, Nodes(input.numNodes));
    NodesCard(input.numNodes);
    r := Some(o);
    assert o == Output(0, Elems(picks1), Elems(picks2), |picks1| + |picks2|, "");
    ConstructionSucceeds(input, picks1, picks2);
  }

  /**
   * The picks of a run are distinct nodes of the graph; in phase 2 they stay
   * outside D1 and clash with none of its nodes.
   */
  lemma {:induction false} RunFacts(input: Input, alpha: Ratio, d1: set<int>, second: bool, picks: seq<int>)
    requires Run(input, alpha, d1, second, picks)
    ensures Elems(picks) <= Nodes(input.numNodes) && |Elems(picks)| == |picks|
    ensures second ==> Elems(picks) !! d1 && forall x :: x in Elems(picks) ==> !ClashesWithAny(input.conflicts, x, d1)
  {
    if picks != [] {
      var prefix := picks[..|picks| - 1];
      var x := picks[|picks| - 1];
      forall k | 0 <= k < |prefix| ensures PickAfter(input, alpha, d1, second, prefix[..k], prefix[k]) {
        assert prefix[..k] == picks[..k] && prefix[k] == picks[k];
      }
      RunFacts(input, alpha, d1, second, prefix);
      assert PickAfter(input, alpha, d1, second, prefix, x);
      if second {
        assert x in Candidates(input, d1, Elems(prefix), true);
      } else {
        assert x in Candidates(input, Elems(prefix), {}, false);
      }
    }
  }

  /** Two sets built as the phases build them, with the picks counted, make a sound output. */
  lemma SoundFromPhases(input: Input, d1: set<int>, d2: set<int>, value: int)
    requires input.numNodes >= 0
    requires d1 <= Nodes(input.numNodes) && d2 <= Nodes(input.numNodes) && d1 !! d2
    requires forall x :: x in d2 ==> !ClashesWithAny(input.conflicts, x, d1)
    requires Uncovered(input, d1) == {} && Uncovered(input, d2) == {}
    requires value == |d1| + |d2|
    ensures Sound(input, Output(0, d1, d2, value, "")) && value <= 2 * input.numNodes
  {
    NoConflictBothWays(input.conflicts, d1, d2);
    SubsetCard(d1, Nodes(input.numNodes));
    SubsetCard(d2, Nodes(input.numNodes));
    NodesCard(input.numNodes);
  }

  /** Whatever run produced it, a successful construction is sound and worth at most two units per node. */
  lemma ConstructibleSound(input: Input, alpha: Ratio, o: Output)
    requires input.numNodes >= 0 && Constructible(input, alpha, Some(o))
    ensures Sound(input, o) && o.value <= 2 * input.numNodes
  {
    var picks1, picks2 :| FinishedRun(input, alpha, picks1, picks2) && Some(o) == ConstructionResult(input, picks1, picks2);
    RunFacts(input, alpha, {}, false, picks1);
    RunFacts(input, alpha, Elems(picks1), true, picks2);
    SoundFromPhases(input, Elems(picks1), Elems(picks2), |picks1| + |picks2|);
  }
}
