/**
 * `DDSCPGreedySolver`: one run of the two-phase greedy randomized
 * construction, reporting failure as `None` (the C# `null`).
 */
module GreedySolver {
  import opened Wrappers
  import opened Data
  import opened DDSPCUtil
  import opened Randomness
  import opened Construction

  class DDSCPGreedySolver {
    const random: Random
    /**
     * The RCL parameter: a candidate is admitted when its coverage reaches
     * `min + alpha * (max - min)`, so 0 admits every candidate (a uniform
     * draw) and 1 only the best-covering ones (pure greedy).
     */
    const alpha: Ratio

    /**
     * `draws` is what the generator will return: a seeded generator's fixed
     * sequence, or, for the unseeded default, any sequence at all (the
     * contracts below hold for every one of them; the empty default is just
     * one of those).
     */
    constructor (alpha: Ratio, draws: seq<nat> := [])
      ensures this.alpha == alpha && fresh(random) && random.draws == draws
    {
      this.alpha := alpha;
      random := new Random(draws);
    }

    /**
     * The construction itself; `None` when phase 2 finds no candidate while
     * nodes are still undominated. `picks1` and `picks2` are the nodes drawn
     * in each phase, in order: every one a valid draw from its step's RCL.
     */
    method ConstructGreedyRandomizedSolution(input: Input)
      returns (r: Option<Output>, ghost picks1: seq<int>, ghost picks2: seq<int>)
      requires input.numNodes >= 0 && UnitInterval(alpha)
      modifies random
      ensures FinishedRun(input, alpha, picks1, picks2) && r == ConstructionResult(input, picks1, picks2)
      ensures Dominates(input, Elems(picks1)) && Elems(picks1) <= Nodes(input.numNodes)
      ensures r.Some? ==> Sound(input, r.value) && r.value.value <= 2 * input.numNodes
      ensures r.Some? && WellFormed(input) ==> ValidSolution(input, r.value)
      ensures r.None? ==> !Dominates(input, Elems(picks2))
      ensures r.None? ==> forall x :: 0 <= x < input.numNodes && x !in Elems(picks1) && x !in Elems(picks2) ==>
                            ClashesWithAny(input.conflicts, x, Elems(picks1))
    {
      r, picks1, picks2 := Construct(input, alpha, random);
    }

    /**
     * `SolveWithMetrics` without its timing: the constructed solution tagged
     * "GREEDY" and given the instance's node count, or `None` exactly when
     * the construction `c` it ran failed.
     */
    method SolveWithMetrics(input: Input) returns (r: Option<Output>, ghost c: Option<Output>)
      requires input.numNodes >= 0 && UnitInterval(alpha)
      modifies random
      ensures Constructible(input, alpha, c)
      ensures r.None? <==> c.None?
      ensures r.Some? ==> r.value == c.value.(solver := "GREEDY", numNodes := input.numNodes)
      ensures r.Some? ==> Sound(input, r.value) && r.value.value <= 2 * input.numNodes
      ensures r.Some? && WellFormed(input) ==> ValidSolution(input, r.value)
    {
      var result, picks1, picks2 := ConstructGreedyRandomizedSolution(input);
      c := result;
      assert FinishedRun(input, alpha, picks1, picks2) && c == ConstructionResult(input, picks1, picks2);
      if result.None? {
        return None, c;
      }
      var tagged := result.value.(solver := "GREEDY", numNodes := input.numNodes);
      assert tagged.d1 == result.value.d1 && tagged.d2 == result.value.d2;
      return Some(tagged), c;
    }
  }
}
