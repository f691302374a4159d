/**
 * `GraphGenerator`: a random spanning tree topped up with extra edges to a
 * target count, plus conflicts drawn over the pairs `i < j`.
 */
module GraphGenerator {
  import opened Wrappers
  import opened Data
  import opened DDSPCUtil
  import opened Randomness
  import opened Connectivity
  import opened PairSampling

  /** Why `GenerateConnectedGraph` gives up. */
  datatype GenerationError =
    | TooManyAttempts  // the exception thrown on the 100th attempt
    | OutOfDraws       // the draw budget ran out before the edge target was met

  const MaxAttempts: int := 100

  /** C#'s integer conversion of `a / b` for `b > 0`: the quotient truncated toward zero. */
  function TruncDiv(a: int, b: int): (q: int)
    requires b > 0
    ensures a >= 0 ==> q * b <= a < (q + 1) * b
    ensures a < 0 ==> (q - 1) * b < a <= q * b
  {
    if a >= 0 then a / b else -((-a) / b)
  }

  /** `(int)(edgeDensity * n * (n - 1) / 2)` with the density a ratio. */
  function TargetEdgeCount(nodeCount: int, edgeDensity: Ratio): int
    requires edgeDensity.den > 0
  {
    TruncDiv(edgeDensity.num * nodeCount * (nodeCount - 1), 2 * edgeDensity.den)
  }

  /** Edge `k < n - 1` joins node `k + 1` to an earlier node. */
  predicate TreePrefix(edges: seq<Pair>, n: int)
  {
    |edges| >= n - 1 && forall k :: 0 <= k < n - 1 ==> edges[k].1 == k + 1 && 0 <= edges[k].0 < k + 1
  }

  /** No self-loop, and no pair listed twice in either orientation. */
  predicate Simple(edges: seq<Pair>)
  {
    && (forall k :: 0 <= k < |edges| ==> edges[k].0 != edges[k].1)
    && (forall i, j :: 0 <= i < j < |edges| ==> edges[i] != edges[j] && edges[i] != (edges[j].1, edges[j].0))
  }

  /** Appending a pair that is no self-loop and not yet present in either orientation keeps a list simple. */
  lemma SimpleAppend(edges: seq<Pair>, u: int, v: int)
    requires Simple(edges) && u != v && (u, v) !in edges && (v, u) !in edges
    ensures Simple(edges + [(u, v)])
  {
    var r := edges + [(u, v)];
    forall i, j | 0 <= i < j < |r| ensures r[i] != r[j] && r[i] != (r[j].1, r[j].0) {
      if j == |edges| {
        assert r[i] in edges;
      }
    }
  }

  class GraphGenerator {
    const random: Random

    /** The seed, or its absence, is the draw sequence the generator will produce. */
    constructor (draws: seq<nat> := [])
      ensures fresh(random) && random.draws == draws
    {
      random := new Random(draws);
    }

    /** The spanning-tree loop: node `i` is joined to a uniformly drawn earlier node. */
    method TreeEdges(nodeCount: int) returns (edges: seq<Pair>)
      modifies random
      ensures |edges| == (if nodeCount > 1 then nodeCount - 1 else 0)
      ensures TreePrefix(edges, nodeCount) && Simple(edges)
    {
      edges := [];
      var i := 1;
      while i < nodeCount
        invariant 1 <= i && (if nodeCount >= 1 then i <= nodeCount else i == 1)
        invariant |edges| == i - 1 && TreePrefix(edges, i) && Simple(edges)
      {
        var parent := random.Next(i);
        forall k | 0 <= k < |edges| ensures edges[k] != (parent, i) && edges[k] != (i, parent) {
          assert edges[k].1 == k + 1 && edges[k].0 < k + 1;
        }
        SimpleAppend(edges, parent, i);
        edges := edges + [(parent, i)];
        i := i + 1;
      }
    }

    /**
     * `GenerateConnectedEdges`: the spanning tree, then random extra edges
     * until there are `TargetEdgeCount` of them. The source draws without
     * bound; here at most `budget` pairs are drawn, and `None` reports that
     * the target was not reached within them.
     */
    method GenerateConnectedEdges(nodeCount: int, edgeDensity: Ratio, budget: nat) returns (r: Option<seq<Pair>>)
      requires nodeCount >= 0 && edgeDensity.den > 0
      modifies random
      ensures r.Some? ==> TreePrefix(r.value, nodeCount) && Simple(r.value) && PairsInRange(r.value, nodeCount)
      ensures r.Some? && nodeCount >= 1 ==>
                |r.value| == (if nodeCount - 1 > TargetEdgeCount(nodeCount, edgeDensity) then nodeCount - 1
                              else TargetEdgeCount(nodeCount, edgeDensity))
      ensures r.Some? && nodeCount == 0 ==> r.value == []
    {
      var edges := TreeEdges(nodeCount);
      ghost var tree := edges;
      var targetEdgeCount := TargetEdgeCount(nodeCount, edgeDensity);
      var currentEdgeCount := |edges|;
      var left := budget;
      while currentEdgeCount < targetEdgeCount
        invariant currentEdgeCount == |edges| >= |tree| && edges[..|tree|] == tree
        invariant TreePrefix(edges, nodeCount) && Simple(edges) && PairsInRange(edges, nodeCount)
        invariant currentEdgeCount > |tree| ==> currentEdgeCount <= targetEdgeCount
        decreases left
      {
        if left == 0 {
          return None;
        }
        left := left - 1;
        var u := random.Next(nodeCount);
        var v := random.Next(nodeCount);
        if u != v && (u, v) !in edges && (v, u) !in edges {
          SimpleAppend(edges, u, v);
          edges := edges + [(u, v)];
          currentEdgeCount := currentEdgeCount + 1;
        }
      }
      return Some(edges);
    }

    /** `GenerateConflicts`: each pair `i < j` becomes a conflict with probability `conflictProbability`. */
    method GenerateConflicts(nodeCount: int, conflictProbability: Ratio) returns (conflicts: seq<Pair>)
      requires conflictProbability.den > 0
      modifies random
      ensures forall k :: 0 <= k < |conflicts| ==> 0 <= conflicts[k].0 < conflicts[k].1 < nodeCount
      ensures Distinct(conflicts) && StrictlySorted(conflicts)
    {
      conflicts := UpperPairs(nodeCount, conflictProbability, random);
      SortedDistinct(conflicts);
    }

    /** `GenerateGraph` without the instance name: the connected edge set and the conflicts. */
    method GenerateGraph(nodeCount: int, edgeDensity: Ratio, conflictProbability: Ratio, budget: nat)
      returns (r: Option<Input>)
      requires nodeCount >= 0 && edgeDensity.den > 0 && conflictProbability.den > 0
      modifies random
      ensures r.Some? ==> r.value.numNodes == nodeCount && WellFormed(r.value) && Connected(r.value)
      ensures r.Some? ==> Simple(r.value.edges) && Distinct(r.value.conflicts)
    {
      var edges := GenerateConnectedEdges(nodeCount, edgeDensity, budget);
      if edges.None? {
        return None;
      }
      var conflicts := GenerateConflicts(nodeCount, conflictProbability);
      var graph := Input(nodeCount, edges.value, conflicts);
      forall v | 0 <= v < nodeCount ensures Reachable(graph.edges, v) {
        TreeReaches(graph.edges, nodeCount, v);
      }
      return Some(graph);
    }

    /**
     * `GenerateConnectedGraph`: draws graphs until one passes the
     * connectivity check, giving up on the 100th attempt before checking.
     * `rejected` lists the graphs the check turned down.
     */
    method GenerateConnectedGraph(nodeCount: int, edgeDensity: Ratio, conflictProbability: Ratio, budget: nat)
      returns (r: Result<Input, GenerationError>, ghost rejected: seq<Input>)
      requires nodeCount >= 0 && edgeDensity.den > 0 && conflictProbability.den > 0
      modifies random
      ensures r.Ok? ==> r.value.numNodes == nodeCount && WellFormed(r.value) && Connected(r.value)
      ensures r.Ok? ==> Simple(r.value.edges) && Distinct(r.value.conflicts)
      ensures forall g :: g in rejected ==> WellFormed(g) && Connected(g) && !PassesCheck(g)
      ensures r == Err(TooManyAttempts) ==> |rejected| == MaxAttempts - 1
    {
      var attempt := 0;
      rejected := [];
      while true
        invariant attempt == |rejected| < MaxAttempts
        invariant forall g :: g in rejected ==> WellFormed(g) && Connected(g) && !PassesCheck(g)
        decreases MaxAttempts - attempt
      {
        var graph := GenerateGraph(nodeCount, edgeDensity, conflictProbability, budget);
        if graph.None? {
          return Err(OutOfDraws), rejected;
        }
        attempt := attempt + 1;
        if attempt >= MaxAttempts {
          return Err(TooManyAttempts), rejected;
        }
        var connected := IsGraphConnected(graph.value);
        if connected {
          ConnectedIff(graph.value);
          return Ok(graph.value), rejected;
        }
        rejected := rejected + [graph.value];
      }
    }
  }

  /** The verdict of `IsGraphConnected`. */
  ghost predicate PassesCheck(g: Input)
  {
    g.numNodes == 0 || |ReachableSet(g.edges)| == g.numNodes
  }

  /**
   * Every graph `GenerateGraph` returns passes the check, so no graph is
   * ever rejected and `GenerateConnectedGraph` never reaches its attempt limit.
   */
  lemma NothingRejected(rejected: seq<Input>)
    requires forall g :: g in rejected ==> WellFormed(g) && Connected(g) && !PassesCheck(g)
    ensures rejected == [] && MaxAttempts - 1 != |rejected|
  {
    if rejected != [] {
      var g := rejected[0];
      assert g in rejected;
      ConnectedIff(g);
    }
  }
}
