/**
 * Reachability over the undirected edge list and `IsGraphConnected`, the
 * depth-first search from node 0 that the generators use to accept a graph.
 */
module Connectivity {
  import opened Data
  import opened DDSPCUtil

  /** A walk: consecutive nodes are adjacent. */
  ghost predicate IsPath(edges: seq<Pair>, p: seq<int>)
  {
    |p| >= 1 && forall k :: 0 <= k < |p| - 1 ==> Adjacent(edges, p[k], p[k + 1])
  }

  /** `v` can be reached from node 0 along edges. */
  ghost predicate Reachable(edges: seq<Pair>, v: int)
  {
    exists p :: IsPath(edges, p) && p[0] == 0 && p[|p| - 1] == v
  }

  /** Every node of the instance is reachable from node 0. */
  ghost predicate Connected(input: Input)
  {
    forall v :: 0 <= v < input.numNodes ==> Reachable(input.edges, v)
  }

  /** The nodes that occur in some edge. */
  function Endpoints(edges: seq<Pair>): (r: set<int>)
    ensures forall k :: 0 <= k < |edges| ==> edges[k].0 in r && edges[k].1 in r
  {
    (set k | 0 <= k < |edges| :: edges[k].0) + (set k | 0 <= k < |edges| :: edges[k].1)
  }

  /** The nodes reachable from 0, which all lie among 0 and the edge ends. */
  ghost function ReachableSet(edges: seq<Pair>): set<int>
  {
    set v | v in Endpoints(edges) + {0} && Reachable(edges, v)
  }

  lemma ReachZero(edges: seq<Pair>)
    ensures Reachable(edges, 0)
  {
    assert IsPath(edges, [0]);
  }

  /** One more edge extends a walk. */
  lemma ReachStep(edges: seq<Pair>, v: int, w: int)
    requires Reachable(edges, v) && Adjacent(edges, v, w)
    ensures Reachable(edges, w)
  {
    var p :| IsPath(edges, p) && p[0] == 0 && p[|p| - 1] == v;
    var q := p + [w];
    assert forall k :: 0 <= k < |q| - 1 ==> Adjacent(edges, q[k], q[k + 1]) by {
      forall k | 0 <= k < |q| - 1 ensures Adjacent(edges, q[k], q[k + 1]) {
        if k < |p| - 1 {
          assert q[k] == p[k] && q[k + 1] == p[k + 1];
        }
      }
    }
    assert IsPath(edges, q) && q[0] == 0 && q[|q| - 1] == w;
  }

  lemma AdjacentInEndpoints(edges: seq<Pair>, a: int, b: int)
    requires Adjacent(edges, a, b)
    ensures b in Endpoints(edges)
  {
    if (a, b) in edges {
      var k :| 0 <= k < |edges| && edges[k] == (a, b);
    } else {
      var k :| 0 <= k < |edges| && edges[k] == (b, a);
    }
  }

  /** `ReachableSet` holds exactly the reachable nodes. */
  lemma ReachableSetIff(edges: seq<Pair>, v: int)
    ensures v in ReachableSet(edges) <==> Reachable(edges, v)
  {
    if Reachable(edges, v) && v != 0 {
      var p :| IsPath(edges, p) && p[0] == 0 && p[|p| - 1] == v;
      assert |p| >= 2;
      AdjacentInEndpoints(edges, p[|p| - 2], v);
    }
  }

  /** A walk that starts in a set closed under adjacency stays in it. */
  lemma {:induction false} PathStaysIn(edges: seq<Pair>, s: set<int>, p: seq<int>)
    requires IsPath(edges, p) && p[0] in s
    requires forall a, b :: a in s && Adjacent(edges, a, b) ==> b in s
    ensures p[|p| - 1] in s
  {
    if |p| > 1 {
      var prefix := p[..|p| - 1];
      assert IsPath(edges, prefix) by {
        forall k | 0 <= k < |prefix| - 1 ensures Adjacent(edges, prefix[k], prefix[k + 1]) {
          assert prefix[k] == p[k] && prefix[k + 1] == p[k + 1];
        }
      }
      PathStaysIn(edges, s, prefix);
      assert Adjacent(edges, p[|p| - 2], p[|p| - 1]);
    }
  }

  /** A set holding 0 and closed under adjacency holds every reachable node. */
  lemma ClosedContainsReachable(edges: seq<Pair>, s: set<int>)
    requires 0 in s
    requires forall a, b :: a in s && Adjacent(edges, a, b) ==> b in s
    ensures ReachableSet(edges) <= s
  {
    forall v | v in ReachableSet(edges) ensures v in s {
      var p :| IsPath(edges, p) && p[0] == 0 && p[|p| - 1] == v;
      PathStaysIn(edges, s, p);
    }
  }

  /** With in-range edges and at least one node, only nodes of the instance are reachable. */
  lemma ReachableInRange(input: Input)
    requires input.numNodes >= 1 && PairsInRange(input.edges, input.numNodes)
    ensures ReachableSet(input.edges) <= Nodes(input.numNodes)
  {
    forall v | v in ReachableSet(input.edges) ensures 0 <= v < input.numNodes {
      if v != 0 {
        var k :| 0 <= k < |input.edges| && (input.edges[k].0 == v || input.edges[k].1 == v);
      }
    }
  }

  /**
   * The meaning of the DFS check: for in-range edges, its verdict is true
   * exactly when every node is reachable from node 0.
   */
  lemma ConnectedIff(input: Input)
    requires input.numNodes >= 0 && PairsInRange(input.edges, input.numNodes)
    ensures (input.numNodes == 0 || |ReachableSet(input.edges)| == input.numNodes) <==> Connected(input)
  {
    var n := input.numNodes;
    if n > 0 {
      ReachableInRange(input);
      if |ReachableSet(input.edges)| == n {
        FullSubsetOfNodes(ReachableSet(input.edges), n);
        forall v | 0 <= v < n ensures Reachable(input.edges, v) {
          ReachableSetIff(input.edges, v);
        }
      }
      if Connected(input) {
        forall v | v in Nodes(n) ensures v in ReachableSet(input.edges) {
          ReachableSetIff(input.edges, v);
        }
        assert ReachableSet(input.edges) == Nodes(n);
        NodesCard(n);
      }
    }
  }

  /**
   * Spanning-tree edges connect: when edge `k` joins node `k+1` to an
   * earlier node, every node below `n` is reachable.
   */
  lemma {:induction false} TreeReaches(edges: seq<Pair>, n: int, v: int)
    requires |edges| >= n - 1
    requires forall k :: 0 <= k < n - 1 ==> edges[k].1 == k + 1 && 0 <= edges[k].0 < k + 1
    requires 0 <= v < n
    ensures Reachable(edges, v)
    decreases v
  {
    if v == 0 {
      ReachZero(edges);
    } else {
      var parent := edges[v - 1].0;
      TreeReaches(edges, n, parent);
      assert edges[v - 1] in edges;
      ReachStep(edges, parent, v);
    }
  }

  /** The neighbours of a reachable node are reachable edge ends. */
  lemma NeighborsReachable(edges: seq<Pair>, node: int)
    requires Reachable(edges, node)
    ensures forall w :: Adjacent(edges, node, w) ==> w in Endpoints(edges) && Reachable(edges, w)
  {
    forall w | Adjacent(edges, node, w) ensures w in Endpoints(edges) && Reachable(edges, w) {
      AdjacentInEndpoints(edges, node, w);
      ReachStep(edges, node, w);
    }
  }

  /**
   * The search's closure invariant survives one visit: every neighbour of a
   * visited node is visited or still on the stack.
   */
  lemma ClosureKept(edges: seq<Pair>, visited: set<int>, full: seq<int>, node: int, pushed: seq<int>)
    requires |full| > 0 && full[|full| - 1] == node
    requires forall a, w :: a in visited && Adjacent(edges, a, w) ==> w in visited || w in full
    requires forall y :: y in pushed <==> y in full[..|full| - 1] || (Adjacent(edges, node, y) && y !in visited + {node})
    ensures forall a, w :: a in visited + {node} && Adjacent(edges, a, w) ==> w in visited + {node} || w in pushed
  {
    assert full == full[..|full| - 1] + [node];
    forall a, w | a in visited + {node} && Adjacent(edges, a, w) ensures w in visited + {node} || w in pushed {
      if a != node {
        assert w in visited || w in full;
      }
    }
  }

  /** Pushes the neighbours of `node` that are not yet visited, in neighbour order. */
  method PushUnvisited(stack: seq<int>, node: int, edges: seq<Pair>, visited: set<int>) returns (r: seq<int>)
    ensures forall y :: y in r <==> y in stack || (Adjacent(edges, node, y) && y !in visited)
    ensures |r| >= |stack| && r[..|stack|] == stack
  {
    var neighbors := GetNeighbors(node, edges);
    r := stack;
    for k := 0 to |neighbors|
      invariant forall y :: y in r <==> y in stack || (y in neighbors[..k] && y !in visited)
      invariant |r| >= |stack| && r[..|stack|] == stack
    {
      assert neighbors[..k + 1] == neighbors[..k] + [neighbors[k]];
      if neighbors[k] !in visited {
        r := r + [neighbors[k]];
      }
    }
    assert neighbors[..|neighbors|] == neighbors;
  }

  /**
   * What the search maintains: visited and stacked nodes are reachable and
   * lie in `universe`, node 0 is visited or stacked, and every neighbour of
   * a visited node is visited or stacked.
   */
  ghost predicate SearchState(edges: seq<Pair>, universe: set<int>, visited: set<int>, stack: seq<int>)
  {
    && visited <= universe
    && (forall y :: y in visited ==> Reachable(edges, y))
    && (forall y :: y in stack ==> y in universe && Reachable(edges, y))
    && (0 in visited || 0 in stack)
    && (forall a, w :: a in visited && Adjacent(edges, a, w) ==> w in visited || w in stack)
  }

  /**
   * One round of the search loop: pop a node and, unless it was visited,
   * visit it and push its unvisited neighbours.
   */
  method SearchStep(edges: seq<Pair>, ghost universe: set<int>, visited: set<int>, stack: seq<int>)
    returns (visited': set<int>, stack': seq<int>)
    requires universe == Endpoints(edges) + {0}
    requires SearchState(edges, universe, visited, stack) && |stack| > 0
    ensures SearchState(edges, universe, visited', stack')
    ensures visited' == visited ==> |stack'| < |stack|
    ensures visited' != visited ==> |universe - visited'| < |universe - visited|
  {
    var node := stack[|stack| - 1];
    stack' := stack[..|stack| - 1];
    assert stack == stack' + [node];
    if node in visited {
      visited' := visited;
      return;
    }
    visited' := visited + {node};
    assert universe - visited' < universe - visited by {
      assert node in universe - visited;
    }
    var pushed := PushUnvisited(stack', node, edges, visited');
    NeighborsReachable(edges, node);
    ClosureKept(edges, visited, stack, node, pushed);
    stack' := pushed;
  }

  /**
   * `IsGraphConnected`: true for the empty graph; otherwise a depth-first
   * search from node 0 with an explicit stack, comparing the number of
   * visited nodes with the node count.
   */
  method IsGraphConnected(graph: Input) returns (b: bool)
    ensures b <==> graph.numNodes == 0 || |ReachableSet(graph.edges)| == graph.numNodes
  {
    if graph.numNodes == 0 {
      return true;
    }
    var edges := graph.edges;
    ghost var universe := Endpoints(edges) + {0};
    var visited: set<int> := {};
    var stack := [0];
    ReachZero(edges);
    while |stack| > 0
      invariant SearchState(edges, universe, visited, stack)
      decreases |universe - visited|, |stack|
    {
      visited, stack := SearchStep(edges, universe, visited, stack);
    }
    ClosedContainsReachable(edges, visited);
    forall y | y in visited ensures y in ReachableSet(edges) {
      ReachableSetIff(edges, y);
    }
    assert visited == ReachableSet(edges);
    return |visited| == graph.numNodes;
  }
}
