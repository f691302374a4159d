/**
 * `DDSPCUtil`: adjacency over the edge list and the feasibility checks the
 * constructors and the local search rely on.
 *
 * The specification functions come in two flavours: the literal checks the
 * C# code performs (`DominatingCount`, `ValidSolution`) and the meaning they
 * are meant to have (`Dominates`, `Feasible`). The lemmas relate the two.
 */
module DDSPCUtil {
  import opened Data

  /** Nodes `a` and `b` are joined by an edge, listed in either orientation. */
  predicate Adjacent(edges: seq<Pair>, a: int, b: int)
  {
    (a, b) in edges || (b, a) in edges
  }

  /**
   * `GetNeighbors`: for each edge in list order, `v` for an edge `(node, v)`
   * and `u` for an edge `(u, node)`; a self-loop yields `node` twice.
   */
  function GetNeighbors(node: int, edges: seq<Pair>): (r: seq<int>)
    ensures forall v :: v in r <==> Adjacent(edges, node, v)
    ensures |r| <= 2 * |edges|
  {
    if edges == [] then []
    else
      var e := edges[0];
      assert edges == [e] + edges[1..];
      (if e.0 == node then [e.1] else []) + (if e.1 == node then [e.0] else []) + GetNeighbors(node, edges[1..])
  }

  /** Neighbours come out in edge-list order: the scan distributes over concatenation. */
  lemma {:induction false} NeighborsAppend(node: int, e1: seq<Pair>, e2: seq<Pair>)
    ensures GetNeighbors(node, e1 + e2) == GetNeighbors(node, e1) + GetNeighbors(node, e2)
  {
    if e1 != [] {
      assert (e1 + e2)[1..] == e1[1..] + e2;
      NeighborsAppend(node, e1[1..], e2);
    } else {
      assert e1 + e2 == e2;
    }
  }

  /**
   * The nodes adjacent to some member of `s`: for each edge with an end in
   * `s`, its other end. Defined edge by edge, like `GetNeighbors`.
   */
  function NeighborhoodOf(s: set<int>, edges: seq<Pair>): set<int>
  {
    if edges == [] then {}
    else
      var e := edges[0];
      (if e.0 in s then {e.1} else {}) + (if e.1 in s then {e.0} else {}) + NeighborhoodOf(s, edges[1..])
  }

  /** A node is in the neighbourhood of `s` exactly when it is adjacent to a member of `s`. */
  lemma {:induction false} NeighborhoodIff(s: set<int>, edges: seq<Pair>, v: int)
    ensures v in NeighborhoodOf(s, edges) <==> exists u :: u in s && Adjacent(edges, u, v)
  {
    if edges != [] {
      var e := edges[0];
      var tail := edges[1..];
      assert edges == [e] + tail;
      NeighborhoodIff(s, tail, v);
      if v in NeighborhoodOf(s, edges) {
        if e.0 in s && v == e.1 {
          assert Adjacent(edges, e.0, v);
        } else if e.1 in s && v == e.0 {
          assert Adjacent(edges, e.1, v);
        } else {
          var u :| u in s && Adjacent(tail, u, v);
          assert Adjacent(edges, u, v);
        }
      }
      if exists u :: u in s && Adjacent(edges, u, v) {
        var u :| u in s && Adjacent(edges, u, v);
        if (u, v) != e && (v, u) != e {
          assert Adjacent(tail, u, v);
        }
      }
    }
  }

  /** The nodes `GetNeighbors` lists are the neighbourhood of the single node. */
  lemma {:induction false} NeighborsAsSet(node: int, edges: seq<Pair>)
    ensures (set x | x in GetNeighbors(node, edges)) == NeighborhoodOf({node}, edges)
  {
    if edges != [] {
      NeighborsAsSet(node, edges[1..]);
    }
  }

  lemma {:induction false} NeighborhoodOfEmpty(edges: seq<Pair>)
    ensures NeighborhoodOf({}, edges) == {}
  {
    if edges != [] {
      NeighborhoodOfEmpty(edges[1..]);
    }
  }

  lemma {:induction false} NeighborhoodUnion(s: set<int>, t: set<int>, edges: seq<Pair>)
    ensures NeighborhoodOf(s + t, edges) == NeighborhoodOf(s, edges) + NeighborhoodOf(t, edges)
  {
    if edges != [] {
      NeighborhoodUnion(s, t, edges[1..]);
    }
  }

  /** The set `dominated` that `IsDominatingSet` builds: `s` and all neighbours of its members. */
  function DominatedBy(s: set<int>, edges: seq<Pair>): set<int>
  {
    s + NeighborhoodOf(s, edges)
  }

  /** The check `IsDominatingSet` performs: `dominated.Count == NumNodes`. */
  predicate DominatingCount(input: Input, s: set<int>)
  {
    |DominatedBy(s, input.edges)| == input.numNodes
  }

  /** What domination means: every node is in `s` or adjacent to a member of `s`. */
  predicate Dominates(input: Input, s: set<int>)
  {
    Nodes(input.numNodes) <= DominatedBy(s, input.edges)
  }

  lemma NeighborhoodInsert(t: set<int>, node: int, edges: seq<Pair>)
    ensures NeighborhoodOf(t + {node}, edges) == NeighborhoodOf(t, edges) + (set x | x in GetNeighbors(node, edges))
  {
    NeighborhoodUnion(t, {node}, edges);
    NeighborsAsSet(node, edges);
  }

  /** Adding a node to a set adds the node and its neighbours to what the set dominates. */
  lemma DominatedInsert(t: set<int>, node: int, edges: seq<Pair>)
    ensures DominatedBy(t + {node}, edges) == DominatedBy(t, edges) + {node} + (set x | x in GetNeighbors(node, edges))
  {
    NeighborhoodInsert(t, node, edges);
  }

  lemma NeighborhoodMonotone(s: set<int>, t: set<int>, edges: seq<Pair>)
    requires s <= t
    ensures NeighborhoodOf(s, edges) <= NeighborhoodOf(t, edges)
  {
    assert t == s + (t - s);
    NeighborhoodUnion(s, t - s, edges);
  }

  /** With in-range edges, every neighbour is a node. */
  lemma {:induction false} NeighborhoodInRange(s: set<int>, edges: seq<Pair>, n: int)
    requires PairsInRange(edges, n)
    ensures NeighborhoodOf(s, edges) <= Nodes(n)
  {
    if edges != [] {
      assert PairsInRange(edges[1..], n) by {
        forall k | 0 <= k < |edges[1..]| ensures 0 <= edges[1..][k].0 < n && 0 <= edges[1..][k].1 < n {
          assert edges[1..][k] == edges[k + 1];
        }
      }
      NeighborhoodInRange(s, edges[1..], n);
      assert 0 <= edges[0].0 < n && 0 <= edges[0].1 < n;
    }
  }

  /** With in-range edges, a node set dominates only nodes. */
  lemma DominatedInRange(input: Input, s: set<int>)
    requires WellFormed(input) && s <= Nodes(input.numNodes)
    ensures DominatedBy(s, input.edges) <= Nodes(input.numNodes)
  {
    NeighborhoodInRange(s, input.edges, input.numNodes);
  }

  /**
   * For node sets and in-range edges, the count check is exact: `s` passes
   * iff every node is in `s` or adjacent to a member of `s`.
   */
  lemma DominatingSetIff(input: Input, s: set<int>)
    requires WellFormed(input) && s <= Nodes(input.numNodes)
    ensures DominatingCount(input, s) <==> Dominates(input, s)
  {
    var d := DominatedBy(s, input.edges);
    DominatedInRange(input, s);
    NodesCard(input.numNodes);
    if DominatingCount(input, s) {
      FullSubsetOfNodes(d, input.numNodes);
    }
    if Dominates(input, s) {
      assert d == Nodes(input.numNodes);
    }
  }

  /** The empty set passes the check exactly when there are no nodes. */
  lemma EmptySetDominatingIff(input: Input)
    ensures DominatingCount(input, {}) <==> input.numNodes == 0
  {
    NeighborhoodOfEmpty(input.edges);
  }

  /** Domination is monotone: a node superset of a set that passes the check passes it too. */
  lemma DominationMonotone(input: Input, s: set<int>, t: set<int>)
    requires WellFormed(input) && s <= t <= Nodes(input.numNodes)
    requires DominatingCount(input, s)
    ensures DominatingCount(input, t)
  {
    DominatingSetIff(input, s);
    DominatingSetIff(input, t);
    NeighborhoodMonotone(s, t, input.edges);
  }

  /** The pair `x`, `y` is listed as a conflict in either orientation. */
  predicate Clashes(conflicts: seq<Pair>, x: int, y: int)
  {
    (x, y) in conflicts || (y, x) in conflicts
  }

  /** `x` conflicts, in either orientation, with some member of `s`. */
  predicate ClashesWithAny(conflicts: seq<Pair>, x: int, s: set<int>)
  {
    exists d :: d in s && Clashes(conflicts, d, x)
  }

  /** No listed conflict `(a, b)` has `a` in `from` and `b` in `to`. */
  predicate NoOrderedConflict(conflicts: seq<Pair>, from: set<int>, to: set<int>)
  {
    forall a, b :: a in from && b in to ==> (a, b) !in conflicts
  }

  /** The literal check of `IsValidSolution`: only the orientation `(d1Node, d2Node)` is looked up. */
  predicate ValidSolution(input: Input, o: Output)
  {
    && o.d1 * o.d2 == {}
    && DominatingCount(input, o.d1)
    && DominatingCount(input, o.d2)
    && NoOrderedConflict(input.conflicts, o.d1, o.d2)
  }

  /** A feasible DDSPC solution: disjoint, both dominating, no conflict split in either orientation. */
  predicate Feasible(input: Input, o: Output)
  {
    && o.d1 !! o.d2
    && Dominates(input, o.d1)
    && Dominates(input, o.d2)
    && NoOrderedConflict(input.conflicts, o.d1, o.d2)
    && NoOrderedConflict(input.conflicts, o.d2, o.d1)
  }

  /**
   * `IsValidSolution` holds exactly when the sets are disjoint, both dominate
   * and no conflict `(a, b)` has `a` in D1 and `b` in D2.
   */
  lemma ValidSolutionIff(input: Input, o: Output)
    requires WellFormed(input) && InRange(input, o)
    ensures ValidSolution(input, o) <==>
      o.d1 !! o.d2 && Dominates(input, o.d1) && Dominates(input, o.d2) && NoOrderedConflict(input.conflicts, o.d1, o.d2)
  {
    DominatingSetIff(input, o.d1);
    DominatingSetIff(input, o.d2);
  }

  /** A feasible solution passes `IsValidSolution`. */
  lemma FeasibleIsValid(input: Input, o: Output)
    requires WellFormed(input) && InRange(input, o) && Feasible(input, o)
    ensures ValidSolution(input, o)
  {
    ValidSolutionIff(input, o);
  }

  /**
   * `IsValidSolution` does not look at the reverse orientation: with the
   * conflict `(1, 0)`, D1 = {0} and D2 = {1} pass although the pair is split.
   */
  lemma ReverseConflictNotChecked()
    ensures var input := Input(2, [(0, 1)], [(1, 0)]);
            var o := Output(0, {0}, {1}, 2, "");
            ValidSolution(input, o) && !Feasible(input, o)
  {
    var input := Input(2, [(0, 1)], [(1, 0)]);
    var o := Output(0, {0}, {1}, 2, "");
    assert input.edges[1..] == [];
    assert NeighborhoodOf({0}, input.edges) == {1};
    assert NeighborhoodOf({1}, input.edges) == {0};
    assert |DominatedBy({0}, input.edges)| == 2 && |DominatedBy({1}, input.edges)| == 2;
    assert input.conflicts[0] == (1, 0);
  }

  /**
   * With at least one node, each set of a valid solution is non-empty, so a
   * value that counts both sets is at least 2.
   */
  lemma ValidSolutionSizes(input: Input, o: Output)
    requires input.numNodes >= 1 && ValidSolution(input, o)
    ensures |o.d1| >= 1 && |o.d2| >= 1
    ensures o.value == |o.d1| + |o.d2| ==> o.value >= 2
  {
    EmptySetDominatingIff(input);
  }

  /**
   * On a single node, two node sets that both pass the domination check
   * overlap, so no solution passes `IsValidSolution`.
   */
  lemma SingletonDominatingSetsOverlap(input: Input, o: Output)
    requires input.numNodes == 1 && InRange(input, o)
    requires DominatingCount(input, o.d1) && DominatingCount(input, o.d2)
    ensures 0 in o.d1 * o.d2 && !ValidSolution(input, o)
  {
    EmptySetDominatingIff(input);
    var a :| a in o.d1;
    var b :| b in o.d2;
    assert a == 0 && b == 0;
  }

  /** The inner loop of `IsDominatingSet`: adds each listed neighbour of `node`. */
  method AddNeighbors(dominated: set<int>, node: int, edges: seq<Pair>) returns (r: set<int>)
    ensures r == dominated + (set x | x in GetNeighbors(node, edges))
  {
    r := dominated;
    var nbrs := GetNeighbors(node, edges);
    for j := 0 to |nbrs|
      invariant r == dominated + (set x | x in nbrs[..j])
    {
      assert nbrs[..j + 1] == nbrs[..j] + [nbrs[j]];
      r := r + {nbrs[j]};
    }
    assert nbrs[..|nbrs|] == nbrs;
  }

  /** `IsDominatingSet`: grows a copy of `s` by the neighbours of each member, then compares its size with `NumNodes`. */
  method IsDominatingSet(s: set<int>, input: Input) returns (b: bool)
    ensures b == DominatingCount(input, s)
  {
    var dominated := s;
    var rest := s;
    NeighborhoodOfEmpty(input.edges);
    assert s - rest == {};
    while rest != {}
      invariant rest <= s
      invariant dominated == s + NeighborhoodOf(s - rest, input.edges)
      decreases rest
    {
      NonEmptyHasMember(rest);
      var node :| node in rest;
      ghost var done := s - rest;
      dominated := AddNeighbors(dominated, node, input.edges);
      NeighborhoodInsert(done, node, input.edges);
      assert s - (rest - {node}) == done + {node};
      rest := rest - {node};
    }
    assert s - rest == s;
    b := |dominated| == input.numNodes;
  }

  /**
   * The conflict scan the constructors and the neighbourhood generator run
   * inline: does `node` conflict, in either orientation, with a member of `s`?
   */
  method HasConflictWith(node: int, s: set<int>, conflicts: seq<Pair>) returns (b: bool)
    ensures b <==> ClashesWithAny(conflicts, node, s)
  {
    var rest := s;
    b := false;
    while rest != {}
      invariant rest <= s
      invariant forall d :: d in s - rest ==> !Clashes(conflicts, d, node)
      decreases rest
    {
      NonEmptyHasMember(rest);
      var d :| d in rest;
      if (d, node) in conflicts || (node, d) in conflicts {
        b := true;
        return;
      }
      rest := rest - {d};
    }
  }

  /** `IsValidSolution`: disjointness, domination of D1, domination of D2, then the ordered conflict scan. */
  method IsValidSolution(input: Input, o: Output) returns (b: bool)
    ensures b == ValidSolution(input, o)
  {
    if o.d1 * o.d2 != {} {
      return false;
    }
    var dom1 := IsDominatingSet(o.d1, input);
    if !dom1 {
      return false;
    }
    var dom2 := IsDominatingSet(o.d2, input);
    if !dom2 {
      return false;
    }
    var rest1 := o.d1;
    while rest1 != {}
      invariant rest1 <= o.d1
      invariant NoOrderedConflict(input.conflicts, o.d1 - rest1, o.d2)
      decreases rest1
    {
      NonEmptyHasMember(rest1);
      var a :| a in rest1;
      var rest2 := o.d2;
      while rest2 != {}
        invariant rest2 <= o.d2
        invariant forall b :: b in o.d2 - rest2 ==> (a, b) !in input.conflicts
        decreases rest2
      {
        NonEmptyHasMember(rest2);
        var b :| b in rest2;
        if (a, b) in input.conflicts {
          return false;
        }
        rest2 := rest2 - {b};
      }
      rest1 := rest1 - {a};
    }
    return true;
  }
}
