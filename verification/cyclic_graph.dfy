/**
 * The cyclic instance both generators offer as `GenerateCyclicGraph`: the
 * cycle 0 - 1 - ... - (n-1) - 0 plus up to `maxConflicts` random conflicts.
 */
module CyclicGraph {
  import opened Data
  import opened DDSPCUtil
  import opened Randomness
  import opened Connectivity

  /** Edge `i` of the cycle joins `i` to its successor modulo `n`. */
  predicate IsCycle(edges: seq<Pair>, n: int)
  {
    |edges| == (if n > 0 then n else 0) && forall i :: 0 <= i < |edges| ==> edges[i] == (i, (i + 1) % n)
  }

  /** A conflict the generator can draw: two distinct even nodes of the instance. */
  predicate EvenConflict(c: Pair, n: int)
  {
    c.0 != c.1 && c.0 % 2 == 0 && c.1 % 2 == 0 && 0 <= c.0 < n && 0 <= c.1 < n
  }

  /** The cycle reaches every node from node 0. */
  lemma {:induction false} CycleReaches(edges: seq<Pair>, n: int, v: int)
    requires IsCycle(edges, n) && 0 <= v < n
    ensures Reachable(edges, v)
    decreases v
  {
    if v == 0 {
      ReachZero(edges);
    } else {
      CycleReaches(edges, n, v - 1);
      assert edges[v - 1] == (v - 1, v);
      assert edges[v - 1] in edges;
      ReachStep(edges, v - 1, v);
    }
  }

  /** A cyclic instance is well formed and connected. */
  lemma CycleConnectedWellFormed(input: Input)
    requires input.numNodes >= 0 && IsCycle(input.edges, input.numNodes)
    requires forall k :: 0 <= k < |input.conflicts| ==> EvenConflict(input.conflicts[k], input.numNodes)
    ensures WellFormed(input) && Connected(input)
  {
    forall v | 0 <= v < input.numNodes ensures Reachable(input.edges, v) {
      CycleReaches(input.edges, input.numNodes, v);
    }
  }

  /**
   * What one round of the conflict loop adds, drawing from `tape`: the coin
   * `Next(0, 1)`, which is always 0 and so always selects the even branch,
   * then the halves of two node ids; equal ids add nothing.
   */
  function RoundConflict(n: int, tape: seq<nat>): (r: seq<Pair>)
    requires n >= 0
    ensures |r| <= 1 && forall k :: 0 <= k < |r| ==> EvenConflict(r[k], n)
  {
    var afterCoin := Tail(tape);
    var node1 := RangeValue(0, n / 2, Head(afterCoin)) * 2;
    var node2 := RangeValue(0, n / 2, Head(Tail(afterCoin))) * 2;
    if node1 != node2 then [(node1, node2)] else []
  }

  /** The tape after one round: three draws consumed. */
  function RoundRest(tape: seq<nat>): seq<nat>
  {
    Tail(Tail(Tail(tape)))
  }

  /** The conflicts `rounds` rounds of the conflict loop draw from `tape`. */
  function DrawnConflicts(n: int, rounds: nat, tape: seq<nat>): (r: seq<Pair>)
    requires n >= 0
    ensures |r| <= rounds
    ensures forall k :: 0 <= k < |r| ==> EvenConflict(r[k], n)
    decreases rounds
  {
    if rounds == 0 then [] else RoundConflict(n, tape) + DrawnConflicts(n, rounds - 1, RoundRest(tape))
  }

  /** One round of the conflict loop. */
  method ConflictRound(numNodes: int, random: Random) returns (c: seq<Pair>)
    requires numNodes >= 0
    modifies random
    ensures c == RoundConflict(numNodes, old(random.draws)) && random.draws == RoundRest(old(random.draws))
  {
    var node1, node2;
    var coin := random.NextRange(0, 1);
    if 2 * coin < 1 {
      var half1 := random.NextRange(0, numNodes / 2);
      var half2 := random.NextRange(0, numNodes / 2);
      node1, node2 := half1 * 2, half2 * 2;
    } else {
      assert false;
    }
    c := if node1 != node2 then [(node1, node2)] else [];
  }

  /** The cycle loop: edge `i` joins `i` to `(i + 1) % numNodes`. */
  method CycleEdges(numNodes: int) returns (edges: seq<Pair>)
    requires numNodes >= 0
    ensures IsCycle(edges, numNodes)
  {
    edges := [];
    for i := 0 to numNodes
      invariant |edges| == i && forall k :: 0 <= k < i ==> edges[k] == (k, (k + 1) % numNodes)
    {
      edges := edges + [(i, (i + 1) % numNodes)];
    }
  }

  /** The conflict loop: `maxConflicts` rounds, none when it is not positive. */
  method ConflictRounds(numNodes: int, maxConflicts: int, random: Random) returns (conflicts: seq<Pair>)
    requires numNodes >= 0
    modifies random
    ensures conflicts == DrawnConflicts(numNodes, if maxConflicts > 0 then maxConflicts else 0, old(random.draws))
  {
    ghost var rounds: nat := if maxConflicts > 0 then maxConflicts else 0;
    ghost var tape := random.draws;
    conflicts := [];
    var i := 0;
    while i < maxConflicts
      invariant 0 <= i <= rounds
      invariant conflicts + DrawnConflicts(numNodes, rounds - i, random.draws) == DrawnConflicts(numNodes, rounds, tape)
    {
      ghost var before := random.draws;
      var c := ConflictRound(numNodes, random);
      assert DrawnConflicts(numNodes, rounds - i, before) == c + DrawnConflicts(numNodes, rounds - i - 1, random.draws);
      assert conflicts + c + DrawnConflicts(numNodes, rounds - i - 1, random.draws)
          == conflicts + (c + DrawnConflicts(numNodes, rounds - i - 1, random.draws));
      conflicts := conflicts + c;
      i := i + 1;
    }
    assert rounds - i == 0;
    assert conflicts + [] == conflicts;
  }

  /**
   * `GenerateCyclicGraph` with the generator's `Random`: the cycle over all
   * nodes, then up to `maxConflicts` conflicts between distinct even nodes.
   */
  method Generate(numNodes: int, maxConflicts: int, random: Random) returns (input: Input)
    requires numNodes >= 0
    modifies random
    ensures input.numNodes == numNodes && IsCycle(input.edges, numNodes)
    ensures |input.conflicts| <= (if maxConflicts > 0 then maxConflicts else 0)
    ensures forall k :: 0 <= k < |input.conflicts| ==> EvenConflict(input.conflicts[k], numNodes)
    ensures input.conflicts == DrawnConflicts(numNodes, if maxConflicts > 0 then maxConflicts else 0, old(random.draws))
  {
    var edges := CycleEdges(numNodes);
    var conflicts := ConflictRounds(numNodes, maxConflicts, random);
    input := Input(numNodes, edges, conflicts);
  }
}
