/**
 * `DDSPCGraphGenerator`: random instances from independent edge and
 * conflict draws, a retry loop for connected ones, and cyclic instances.
 */
module DDSPCGraphGenerator {
  import opened Wrappers
  import opened Data
  import opened Randomness
  import opened Connectivity
  import opened PairSampling
  import CyclicGraph

  class DDSPCGraphGenerator {
    const random: Random

    /** The seed, or its absence, is the draw sequence the generator will produce. */
    constructor (draws: seq<nat> := [])
      ensures fresh(random) && random.draws == draws
    {
      random := new Random(draws);
    }

    /**
     * `GenerateGraph`: each pair `i < j` becomes an edge with probability
     * `edgeProbability`, then each ordered pair `i != j` becomes a conflict
     * with probability `conflictProbability`.
     */
    method GenerateGraph(numNodes: int, edgeProbability: Ratio := Ratio(3, 10), conflictProbability: Ratio := Ratio(1, 10))
      returns (graph: Input)
      requires numNodes >= 0 && edgeProbability.den > 0 && conflictProbability.den > 0
      modifies random
      ensures graph.numNodes == numNodes && WellFormed(graph)
      ensures forall k :: 0 <= k < |graph.edges| ==> graph.edges[k].0 < graph.edges[k].1
      ensures StrictlySorted(graph.edges) && StrictlySorted(graph.conflicts)
      ensures forall k :: 0 <= k < |graph.conflicts| ==> graph.conflicts[k].0 != graph.conflicts[k].1
    {
      var edges := UpperPairs(numNodes, edgeProbability, random);
      var conflicts := OffDiagonalPairs(numNodes, conflictProbability, random);
      graph := Input(numNodes, edges, conflicts);
    }

    /**
     * `GenerateConnectedGraph`: draws graphs until the DFS check accepts one.
     * The source retries without bound; here at most `attempts` graphs are
     * drawn and `None` reports that none was accepted.
     */
    method GenerateConnectedGraph(numNodes: int, attempts: nat,
                                  edgeProbability: Ratio := Ratio(3, 10), conflictProbability: Ratio := Ratio(1, 10))
      returns (r: Option<Input>)
      requires numNodes >= 0 && edgeProbability.den > 0 && conflictProbability.den > 0
      modifies random
      ensures r.Some? ==> r.value.numNodes == numNodes && WellFormed(r.value) && Connected(r.value)
      ensures r.Some? ==> StrictlySorted(r.value.edges) && StrictlySorted(r.value.conflicts)
    {
      var left := attempts;
      while left > 0
        decreases left
      {
        var graph := GenerateGraph(numNodes, edgeProbability, conflictProbability);
        var connected := IsGraphConnected(graph);
        if connected {
          ConnectedIff(graph);
          return Some(graph);
        }
        left := left - 1;
      }
      return None;
    }

    /** `GenerateCyclicGraph` with this generator's draws. */
    method GenerateCyclicGraph(numNodes: int, maxConflicts: int) returns (input: Input)
      requires numNodes >= 0
      modifies random
      ensures input.numNodes == numNodes && CyclicGraph.IsCycle(input.edges, numNodes)
      ensures |input.conflicts| <= (if maxConflicts > 0 then maxConflicts else 0)
      ensures forall k :: 0 <= k < |input.conflicts| ==> CyclicGraph.EvenConflict(input.conflicts[k], numNodes)
    {
      input := CyclicGraph.Generate(numNodes, maxConflicts, random);
    }
  }
}
