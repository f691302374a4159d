/**
 * The problem instance (`DDSPCInput`) and a solver result (`DDSPCOutput`),
 * with the node-range helpers every other module uses.
 */
module Data {

  /** An edge or a conflict: the C# value tuple `(int, int)`. */
  type Pair = (int, int)

  /** `int.MaxValue`, the GRASP constructor's "no solution" value. */
  const IntMax: int := 0x7fff_ffff
  /** `int.MinValue`. */
  const IntMin: int := -0x8000_0000

  predicate IsInt32(x: int) { IntMin <= x <= IntMax }

  /** `DDSPCInput`: a node count, an edge list and a list of conflict pairs. */
  datatype Input = Input(numNodes: int, edges: seq<Pair>, conflicts: seq<Pair>)

  /**
   * `DDSPCOutput` without its timing and reporting fields. `solver` is the
   * empty string where the C# property is still null.
   */
  datatype Output = Output(numNodes: int, d1: set<int>, d2: set<int>, value: int, solver: string)

  /** A rational number `num/den`, standing for a C# `double` in [0, 1]. */
  datatype Ratio = Ratio(num: int, den: int)

  predicate UnitInterval(r: Ratio) { 0 < r.den && 0 <= r.num <= r.den }

  /** The node identifiers `0 .. n-1` (`Enumerable.Range(0, n)`). */
  function Nodes(n: int): (r: set<int>)
    ensures forall v :: v in r <==> 0 <= v < n
    decreases n
  {
    if n <= 0 then {} else Nodes(n - 1) + {n - 1}
  }

  lemma {:induction false} NodesCard(n: nat)
    ensures |Nodes(n)| == n
  {
    if n > 0 {
      NodesCard(n - 1);
    }
  }

  /** A non-empty set has a member to pick. */
  lemma NonEmptyHasMember(s: set<int>)
    requires s != {}
    ensures exists x :: x in s
  {
    assert (forall x :: x !in s) ==> s == {};
  }

  lemma SubsetCard(a: set<int>, b: set<int>)
    requires a <= b
    ensures |a| <= |b|
  {
    assert b == a + (b - a);
  }

  /** A subset of `Nodes(n)` of full size is all of `Nodes(n)`. */
  lemma {:induction false} FullSubsetOfNodes(s: set<int>, n: nat)
    requires s <= Nodes(n) && |s| == n
    ensures s == Nodes(n)
  {
    NodesCard(n);
    var rest := Nodes(n) - s;
    assert Nodes(n) == s + rest;
    assert |rest| == 0;
  }

  predicate PairsInRange(ps: seq<Pair>, n: int)
  {
    forall k :: 0 <= k < |ps| ==> 0 <= ps[k].0 < n && 0 <= ps[k].1 < n
  }

  /** What the solvers demand of an instance: every edge and conflict end is a node. */
  predicate WellFormed(input: Input)
  {
    input.numNodes >= 0 && PairsInRange(input.edges, input.numNodes) && PairsInRange(input.conflicts, input.numNodes)
  }

  /** Both sets of a solution hold node identifiers only. */
  predicate InRange(input: Input, o: Output)
  {
    o.d1 <= Nodes(input.numNodes) && o.d2 <= Nodes(input.numNodes)
  }

  /** `DDSPCInput.Example01`: a 5-cycle with two conflicts. */
  function Example01(): Input
  {
    Input(5, [(0, 1), (1, 2), (2, 3), (3, 4), (4, 0)], [(0, 2), (1, 3)])
  }

  /** `DDSPCInput.Example02`: two interleaved 5-cycles on ten nodes with five conflicts. */
  function Example02(): Input
  {
    Input(10,
      [(0, 1), (1, 2), (2, 3), (3, 4), (4, 5),
       (5, 6), (6, 7), (7, 8), (8, 9), (9, 0),
       (0, 5), (1, 6), (2, 7), (3, 8), (4, 9)],
      [(0, 2), (1, 3), (4, 6), (5, 7), (8, 0)])
  }
}
