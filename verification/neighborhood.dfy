/**
 * The 1-exchange neighbourhood the GRASP local search explores: adding a
 * node to D1 or D2, removing one from D1 or D2, or swapping a D1 node with
 * a D2 node. Each move first passes a cheap filter and is kept only when
 * the resulting solution passes `IsValidSolution`.
 */
module Neighborhood {
  import opened Data
  import opened DDSPCUtil
  import opened Construction

  datatype Move =
    | AddD1(node: int)
    | AddD2(node: int)
    | RemoveD1(node: int)
    | RemoveD2(node: int)
    | Swap(out1: int, out2: int)  // `out1` leaves D1 for D2, `out2` leaves D2 for D1

  /** The neighbour a move builds: a fresh output with no node count and no solver tag. */
  function Apply(o: Output, m: Move): Output
  {
    match m
    case AddD1(x) => Output(0, o.d1 + {x}, o.d2, o.value + 1, "")
    case AddD2(x) => Output(0, o.d1, o.d2 + {x}, o.value + 1, "")
    case RemoveD1(x) => Output(0, o.d1 - {x}, o.d2, o.value - 1, "")
    case RemoveD2(x) => Output(0, o.d1, o.d2 - {x}, o.value - 1, "")
    case Swap(a, b) => Output(0, o.d1 - {a} + {b}, o.d2 - {b} + {a}, o.value, "")
  }

  /** The order in which the move groups are generated. */
  function Rank(m: Move): nat
  {
    match m
    case AddD1(_) => 0
    case AddD2(_) => 1
    case RemoveD1(_) => 2
    case RemoveD2(_) => 3
    case Swap(_, _) => 4
  }

  /** The filter each move group applies before `IsValidSolution` is consulted. */
  predicate Admissible(input: Input, o: Output, m: Move)
  {
    match m
    case AddD1(x) =>
      0 <= x < input.numNodes && x !in o.d1 && x !in o.d2 && !ClashesWithAny(input.conflicts, x, o.d2)
    case AddD2(x) =>
      0 <= x < input.numNodes && x !in o.d2 && x !in o.d1 && !ClashesWithAny(input.conflicts, x, o.d1)
    case RemoveD1(x) => x in o.d1 && DominatingCount(input, o.d1 - {x})
    case RemoveD2(x) => x in o.d2 && DominatingCount(input, o.d2 - {x})
    case Swap(a, b) =>
      && a in o.d1 && b in o.d2
      && !ClashesWithAny(input.conflicts, b, o.d1 - {a})
      && !ClashesWithAny(input.conflicts, a, o.d2 - {b})
  }

  /** The move is generated: it passes its filter and its neighbour passes `IsValidSolution`. */
  predicate Yields(input: Input, o: Output, m: Move)
  {
    Admissible(input, o, m) && ValidSolution(input, Apply(o, m))
  }

  /** Only the two removals lower the value: adds raise it by one and swaps keep it. */
  lemma ImprovingIffRemoval(o: Output, m: Move)
    ensures Apply(o, m).value < o.value <==> m.RemoveD1? || m.RemoveD2?
    ensures Apply(o, m).value == o.value + (if Rank(m) < 2 then 1 else if Rank(m) < 4 then -1 else 0)
  {
  }

  /** A valid neighbour in range that also respects the reverse conflict orientation is feasible. */
  lemma ValidAndReverseFeasible(input: Input, r: Output)
    requires WellFormed(input) && InRange(input, r) && ValidSolution(input, r)
    requires NoOrderedConflict(input.conflicts, r.d2, r.d1)
    ensures Feasible(input, r)
  {
    ValidSolutionIff(input, r);
  }

  /** The three parts of soundness for a move, each proved from only the facts it needs. */
  lemma MoveInRange(input: Input, o: Output, m: Move)
    requires InRange(input, o) && Admissible(input, o, m)
    ensures InRange(input, Apply(o, m))
  {
  }

  /** Every move of the neighbourhood keeps `value == |D1| + |D2|`; a swap trades one node each way. */
  lemma MoveKeepsValue(o: Output, m: Move)
    requires o.value == |o.d1| + |o.d2| && o.d1 !! o.d2
    requires m.AddD1? || m.AddD2? ==> m.node !in o.d1 && m.node !in o.d2
    requires m.RemoveD1? ==> m.node in o.d1
    requires m.RemoveD2? ==> m.node in o.d2
    requires m.Swap? ==> m.out1 in o.d1 && m.out2 in o.d2
    ensures Apply(o, m).value == |Apply(o, m).d1| + |Apply(o, m).d2|
  {
    if m.Swap? {
      assert m.out2 !in o.d1 - {m.out1} && m.out1 !in o.d2 - {m.out2};
    }
  }

  lemma MoveKeepsReverseOrientation(input: Input, o: Output, m: Move)
    requires NoOrderedConflict(input.conflicts, o.d2, o.d1)
    requires !m.Swap? && Admissible(input, o, m)
    ensures NoOrderedConflict(input.conflicts, Apply(o, m).d2, Apply(o, m).d1)
  {
    var r := Apply(o, m);
    forall p, q | p in r.d2 && q in r.d1 ensures (p, q) !in input.conflicts {
      if m.AddD1? && q == m.node {
        assert !Clashes(input.conflicts, p, q);
      } else if m.AddD2? && p == m.node {
        assert !Clashes(input.conflicts, q, p);
      }
    }
  }

  /**
   * Every move except the swap keeps a sound solution sound: in range,
   * feasible in both conflict orientations, and valued at its size.
   */
  lemma MovePreservesSound(input: Input, o: Output, m: Move)
    requires WellFormed(input) && Sound(input, o)
    requires Yields(input, o, m) && !m.Swap?
    ensures Sound(input, Apply(o, m))
  {
    MoveInRange(input, o, m);
    MoveKeepsValue(o, m);
    MoveKeepsReverseOrientation(input, o, m);
    ValidAndReverseFeasible(input, Apply(o, m));
  }

  /**
   * The swap filter compares the node entering D1 with the rest of D1, and
   * the node entering D2 with the rest of D2, so a conflict between the new
   * D1 and D2 in the orientation `IsValidSolution` does not look at slips
   * through: on the triangle with conflict `(2, 1)`, swapping 0 and 1 out of
   * D1 = {0}, D2 = {1, 2} is generated yet splits the conflict.
   */
  lemma SwapMayBreakFeasibility()
    ensures var input := Input(3, [(0, 1), (1, 2), (2, 0)], [(2, 1)]);
            var o := Output(0, {0}, {1, 2}, 3, "");
            Feasible(input, o) && Yields(input, o, Swap(0, 1)) && !Feasible(input, Apply(o, Swap(0, 1)))
  {
    var input := Input(3, [(0, 1), (1, 2), (2, 0)], [(2, 1)]);
    var o := Output(0, {0}, {1, 2}, 3, "");
    TriangleDomination(input);
    TriangleBefore(input, o);
    TriangleSwap(input, o, Apply(o, Swap(0, 1)));
  }

  /** Before the swap, the triangle solution is feasible. */
  lemma TriangleBefore(input: Input, o: Output)
    requires input == Input(3, [(0, 1), (1, 2), (2, 0)], [(2, 1)]) && o == Output(0, {0}, {1, 2}, 3, "")
    requires Dominates(input, {0}) && Dominates(input, {1, 2})
    ensures Feasible(input, o)
  {
    assert input.conflicts == [(2, 1)];
  }

  /** The swap passes the filter and `IsValidSolution`, yet its result splits the conflict `(2, 1)`. */
  lemma TriangleSwap(input: Input, o: Output, r: Output)
    requires input == Input(3, [(0, 1), (1, 2), (2, 0)], [(2, 1)]) && o == Output(0, {0}, {1, 2}, 3, "")
    requires r == Apply(o, Swap(0, 1))
    requires Dominates(input, {1}) && Dominates(input, {0, 2})
    ensures Yields(input, o, Swap(0, 1)) && !Feasible(input, r)
  {
    assert r.d1 == {1} && r.d2 == {0, 2};
    assert Admissible(input, o, Swap(0, 1)) by {
      assert !ClashesWithAny(input.conflicts, 1, o.d1 - {0});
      assert o.d2 - {1} == {2};
      assert !Clashes(input.conflicts, 2, 0);
    }
    assert InRange(input, r) by {
      assert Nodes(3) == {0, 1, 2};
    }
    ValidSolutionIff(input, r);
    assert input.conflicts[0] == (2, 1);
  }

  /** On the triangle, the sets used above dominate all three nodes. */
  lemma TriangleDomination(input: Input)
    requires input.numNodes == 3 && input.edges == [(0, 1), (1, 2), (2, 0)]
    ensures Dominates(input, {0}) && Dominates(input, {1})
    ensures Dominates(input, {1, 2}) && Dominates(input, {0, 2})
  {
    var edges := input.edges;
    assert (0, 1) in edges && (1, 2) in edges && (2, 0) in edges;
    NeighborhoodIff({0}, edges, 1);
    NeighborhoodIff({0}, edges, 2);
    NeighborhoodIff({1}, edges, 0);
    NeighborhoodIff({1}, edges, 2);
    NeighborhoodMonotone({1}, {1, 2}, edges);
    NeighborhoodMonotone({0}, {0, 2}, edges);
  }

  /** The moves a group loop tries: adds over every node, removals over the set's members, swaps over D1 x D2. */
  predicate InScope(input: Input, o: Output, m: Move)
  {
    match m
    case AddD1(x) => 0 <= x < input.numNodes
    case AddD2(x) => 0 <= x < input.numNodes
    case RemoveD1(x) => x in o.d1
    case RemoveD2(x) => x in o.d2
    case Swap(a, b) => a in o.d1 && b in o.d2
  }

  /** The moves of `tried` that are generated, in the order they were tried. */
  function Generated(input: Input, o: Output, tried: seq<Move>): (moves: seq<Move>)
    ensures |moves| <= |tried|
  {
    if tried == [] then []
    else
      var m := tried[|tried| - 1];
      Generated(input, o, tried[..|tried| - 1]) + (if Yields(input, o, m) then [m] else [])
  }

  /** Every generated move was tried and yields a valid neighbour. */
  lemma {:induction false} GeneratedSound(input: Input, o: Output, tried: seq<Move>)
    ensures forall m :: m in Generated(input, o, tried) ==> m in tried && Yields(input, o, m)
  {
    if tried != [] {
      var prefix := tried[..|tried| - 1];
      GeneratedSound(input, o, prefix);
      assert tried == prefix + [tried[|tried| - 1]];
    }
  }

  /** Every tried move that yields a valid neighbour is generated. */
  lemma {:induction false} GeneratedComplete(input: Input, o: Output, tried: seq<Move>, m: Move)
    requires m in tried && Yields(input, o, m)
    ensures m in Generated(input, o, tried)
  {
    var prefix := tried[..|tried| - 1];
    var last := tried[|tried| - 1];
    assert tried == prefix + [last];
    if m != last {
      GeneratedComplete(input, o, prefix, m);
    }
  }

  /** Generation distributes over the groups tried one after another. */
  lemma {:induction false} GeneratedAppend(input: Input, o: Output, t1: seq<Move>, t2: seq<Move>)
    ensures Generated(input, o, t1 + t2) == Generated(input, o, t1) + Generated(input, o, t2)
    decreases |t2|
  {
    if t2 == [] {
      assert t1 + t2 == t1;
    } else {
      var prefix := t2[..|t2| - 1];
      assert (t1 + t2)[..|t1 + t2| - 1] == t1 + prefix;
      GeneratedAppend(input, o, t1, prefix);
    }
  }

  /** Trying one more move generates it exactly when it yields a valid neighbour. */
  lemma GeneratedSnoc(input: Input, o: Output, tried: seq<Move>, m: Move)
    ensures Generated(input, o, tried + [m]) == Generated(input, o, tried) + (if Yields(input, o, m) then [m] else [])
  {
    assert (tried + [m])[..|tried|] == tried;
  }

  /**
   * When `tried` holds exactly the moves in scope, the generated moves are
   * exactly the moves that yield a valid neighbour.
   */
  lemma GeneratedExactly(input: Input, o: Output, tried: seq<Move>)
    requires forall m :: m in tried <==> InScope(input, o, m)
    ensures forall m :: m in Generated(input, o, tried) <==> Yields(input, o, m)
  {
    GeneratedSound(input, o, tried);
    forall m | Yields(input, o, m)
      ensures m in Generated(input, o, tried)
    {
      assert InScope(input, o, m);
      GeneratedComplete(input, o, tried, m);
    }
  }

  /**
   * `m1` may come before `m2`: groups in order, adds by increasing node, and
   * within the removal and swap groups any order but no move twice.
   */
  predicate Precedes(m1: Move, m2: Move)
  {
    Rank(m1) < Rank(m2) || (Rank(m1) == Rank(m2) && (if Rank(m1) < 2 then m1.node < m2.node else m1 != m2))
  }

  /** No move occurs twice. */
  predicate NoRepeats(ms: seq<Move>)
  {
    forall i, j :: 0 <= i < j < |ms| ==> ms[i] != ms[j]
  }

  /** Two lists without repeats and without a common move concatenate without repeats. */
  lemma NoRepeatsAppend(a: seq<Move>, b: seq<Move>)
    requires NoRepeats(a) && NoRepeats(b)
    requires forall m :: m in a ==> m !in b
    ensures NoRepeats(a + b)
  {
    forall i, j | 0 <= i < j < |a + b| ensures (a + b)[i] != (a + b)[j] {
      if i < |a| <= j {
        assert a[i] in a && b[j - |a|] in b;
      }
    }
  }

  /**
   * The swaps come grouped by their D1 node: between two swaps of one D1
   * node there are only swaps of that node, so once the D1 node changes the
   * earlier one does not return.
   */
  predicate GroupedByFirst(ms: seq<Move>)
  {
    forall i, j, k :: 0 <= i < j < k < |ms| && ms[i].Swap? && ms[k].Swap? && ms[i].out1 == ms[k].out1 ==>
      ms[j].Swap? && ms[j].out1 == ms[i].out1
  }

  /** Moves other than swaps, followed by grouped swaps, keep the swaps grouped. */
  lemma GroupedAfter(a: seq<Move>, b: seq<Move>)
    requires forall m :: m in a ==> !m.Swap?
    requires GroupedByFirst(b)
    ensures GroupedByFirst(a + b)
  {
    var ab := a + b;
    forall i | 0 <= i < |a| ensures !ab[i].Swap? {
      assert ab[i] == a[i] && a[i] in a;
    }
    forall i, j, k | 0 <= i < j < k < |ab| && ab[i].Swap? && ab[k].Swap? && ab[i].out1 == ab[k].out1
      ensures ab[j].Swap? && ab[j].out1 == ab[i].out1
    {
      if i >= |a| {
        assert ab[i] == b[i - |a|] && ab[j] == b[j - |a|] && ab[k] == b[k - |a|];
      }
    }
  }

  /** A finished group of swaps followed by a new group, all with a D1 node the earlier groups did not use. */
  lemma GroupedAppend(a: seq<Move>, b: seq<Move>, x: int)
    requires forall m :: m in a ==> m.Swap? && m.out1 != x
    requires forall m :: m in b ==> m.Swap? && m.out1 == x
    requires GroupedByFirst(a)
    ensures forall m :: m in a + b ==> m.Swap?
    ensures GroupedByFirst(a + b)
  {
    var ab := a + b;
    forall i, k | 0 <= i < |a| <= k < |ab| ensures ab[i].out1 != ab[k].out1 {
      assert ab[i] in a && ab[k] in b;
    }
    forall i, j, k | 0 <= i < j < k < |ab| && ab[i].Swap? && ab[k].Swap? && ab[i].out1 == ab[k].out1
      ensures ab[j].Swap? && ab[j].out1 == ab[i].out1
    {
      if k < |a| {
        assert ab[i] == a[i] && ab[j] == a[j] && ab[k] == a[k];
      } else {
        assert ab[i] in b && ab[j] in b && ab[k] in b;
      }
    }
  }

  predicate Ordered(ms: seq<Move>)
  {
    forall i, j :: 0 <= i < j < |ms| ==> Precedes(ms[i], ms[j])
  }

  /** A move that every earlier one may precede extends an ordered list. */
  lemma OrderedSnoc(ms: seq<Move>, m: Move)
    requires Ordered(ms) && forall x :: x in ms ==> Precedes(x, m)
    ensures Ordered(ms + [m])
  {
    forall i, j | 0 <= i < j < |ms + [m]| ensures Precedes((ms + [m])[i], (ms + [m])[j]) {
      assert (ms + [m])[i] == ms[i];
      if j < |ms| {
        assert (ms + [m])[j] == ms[j];
      }
    }
  }

  /** Generation keeps the order in which moves were tried. */
  lemma {:induction false} GeneratedOrdered(input: Input, o: Output, tried: seq<Move>)
    requires Ordered(tried)
    ensures Ordered(Generated(input, o, tried))
  {
    if tried != [] {
      var prefix := tried[..|tried| - 1];
      var last := tried[|tried| - 1];
      assert Ordered(prefix) by {
        forall i, j | 0 <= i < j < |prefix| ensures Precedes(prefix[i], prefix[j]) {
          assert prefix[i] == tried[i] && prefix[j] == tried[j];
        }
      }
      GeneratedOrdered(input, o, prefix);
      GeneratedSound(input, o, prefix);
      var g := Generated(input, o, prefix);
      forall x | x in g ensures Precedes(x, last) {
        var i :| 0 <= i < |prefix| && prefix[i] == x;
        assert tried[i] == x;
      }
      OrderedSnoc(g, last);
    }
  }

  /** The filter and validity check one add move goes through. */
  method TryAdd(input: Input, o: Output, m: Move) returns (ok: bool)
    requires m.AddD1? || m.AddD2?
    requires 0 <= m.node < input.numNodes
    ensures ok == Yields(input, o, m)
  {
    var node := m.node;
    if node in o.d1 || node in o.d2 {
      return false;
    }
    var other := if m.AddD1? then o.d2 else o.d1;
    var hasConflict := HasConflictWith(node, other, input.conflicts);
    if hasConflict {
      return false;
    }
    ok := IsValidSolution(input, Apply(o, m));
  }

  /** The add moves of one group, tried for nodes `0 .. n-1` in increasing order. */
  method AddMoves(input: Input, o: Output, toD1: bool) returns (ns: seq<Output>, ghost tried: seq<Move>, ghost moves: seq<Move>)
    requires input.numNodes >= 0
    ensures moves == Generated(input, o, tried)
    ensures |ns| == |moves| && forall i :: 0 <= i < |moves| ==> ns[i] == Apply(o, moves[i])
    ensures |tried| == input.numNodes
    ensures forall i :: 0 <= i < |tried| ==> tried[i] == if toD1 then AddD1(i) else AddD2(i)
  {
    ns := [];
    tried := [];
    moves := [];
    for node := 0 to input.numNodes
      invariant moves == Generated(input, o, tried)
      invariant |ns| == |moves| && forall i :: 0 <= i < |moves| ==> ns[i] == Apply(o, moves[i])
      invariant |tried| == node
      invariant forall i :: 0 <= i < |tried| ==> tried[i] == if toD1 then AddD1(i) else AddD2(i)
    {
      var m := if toD1 then AddD1(node) else AddD2(node);
      var ok := TryAdd(input, o, m);
      ghost var before := tried;
      tried := tried + [m];
      assert tried[..|tried| - 1] == before;
      if ok {
        ns := ns + [Apply(o, m)];
        moves := moves + [m];
      }
    }
  }

  /** The domination and validity checks one removal goes through. */
  method TryRemove(input: Input, o: Output, m: Move) returns (ok: bool)
    requires m.RemoveD1? || m.RemoveD2?
    requires m.node in (if m.RemoveD1? then o.d1 else o.d2)
    ensures ok == Yields(input, o, m)
  {
    var reduced := (if m.RemoveD1? then o.d1 else o.d2) - {m.node};
    var dominating := IsDominatingSet(reduced, input);
    if !dominating {
      return false;
    }
    ok := IsValidSolution(input, Apply(o, m));
  }

  /** A removal from D1 (`fromD1`) or from D2. */
  predicate IsRemoval(m: Move, fromD1: bool)
  {
    if fromD1 then m.RemoveD1? else m.RemoveD2?
  }

  /** Trying the removal of one more node extends the set of removals tried by that node. */
  lemma RemovalTried(tried: seq<Move>, fromD1: bool, done: set<int>, node: int)
    requires forall m :: m in tried <==> IsRemoval(m, fromD1) && m.node in done
    ensures var m := if fromD1 then RemoveD1(node) else RemoveD2(node);
            forall m' :: m' in tried + [m] <==> IsRemoval(m', fromD1) && m'.node in done + {node}
  {
  }

  /** Tries one removal and records it, keeping the generated neighbours in step with the moves tried. */
  method RemoveOne(input: Input, o: Output, m: Move, ns: seq<Output>, ghost tried: seq<Move>, ghost moves: seq<Move>)
    returns (ns': seq<Output>, ghost tried': seq<Move>, ghost moves': seq<Move>)
    requires m.RemoveD1? || m.RemoveD2?
    requires m.node in (if m.RemoveD1? then o.d1 else o.d2)
    requires moves == Generated(input, o, tried)
    requires |ns| == |moves| && forall i :: 0 <= i < |moves| ==> ns[i] == Apply(o, moves[i])
    ensures tried' == tried + [m] && moves' == Generated(input, o, tried')
    ensures |ns'| == |moves'| && forall i :: 0 <= i < |moves'| ==> ns'[i] == Apply(o, moves'[i])
  {
    var ok := TryRemove(input, o, m);
    GeneratedSnoc(input, o, tried, m);
    tried' := tried + [m];
    ns', moves' := ns, moves;
    if ok {
      ns' := ns + [Apply(o, m)];
      moves' := moves + [m];
    }
  }

  /** The removals of one group, tried for each member of the set in some order. */
  method RemoveMoves(input: Input, o: Output, fromD1: bool) returns (ns: seq<Output>, ghost tried: seq<Move>, ghost moves: seq<Move>)
    ensures moves == Generated(input, o, tried)
    ensures |ns| == |moves| && forall i :: 0 <= i < |moves| ==> ns[i] == Apply(o, moves[i])
    ensures forall m :: m in tried <==> IsRemoval(m, fromD1) && m.node in (if fromD1 then o.d1 else o.d2)
    ensures NoRepeats(tried) && |tried| == |if fromD1 then o.d1 else o.d2|
  {
    var members := if fromD1 then o.d1 else o.d2;
    var rest := members;
    ns := [];
    tried := [];
    moves := [];
    while rest != {}
      invariant rest <= members
      invariant moves == Generated(input, o, tried)
      invariant |ns| == |moves| && forall i :: 0 <= i < |moves| ==> ns[i] == Apply(o, moves[i])
      invariant forall m :: m in tried <==> IsRemoval(m, fromD1) && m.node in members - rest
      invariant NoRepeats(tried) && |tried| == |members - rest|
      decreases rest
    {
      NonEmptyHasMember(rest);
      var node :| node in rest;
      ghost var done := members - rest;
      rest := rest - {node};
      assert members - rest == done + {node} && node !in done;
      var m := if fromD1 then RemoveD1(node) else RemoveD2(node);
      RemovalTried(tried, fromD1, done, node);
      NoRepeatsAppend(tried, [m]);
      ns, tried, moves := RemoveOne(input, o, m, ns, tried, moves);
    }
  }

  /** The conflict filter and validity check one swap goes through. */
  method TrySwap(input: Input, o: Output, m: Move) returns (ok: bool)
    requires m.Swap? && m.out1 in o.d1 && m.out2 in o.d2
    ensures ok == Yields(input, o, m)
  {
    var hasConflict := HasConflictWith(m.out2, o.d1 - {m.out1}, input.conflicts);
    if hasConflict {
      return false;
    }
    hasConflict := HasConflictWith(m.out1, o.d2 - {m.out2}, input.conflicts);
    if hasConflict {
      return false;
    }
    ok := IsValidSolution(input, Apply(o, m));
  }

  /** The swaps of one D1 node `a` with each D2 node in some order: the inner loop of the swap group. */
  method SwapsOf(input: Input, o: Output, a: int) returns (ns: seq<Output>, ghost tried: seq<Move>, ghost moves: seq<Move>)
    requires a in o.d1
    ensures moves == Generated(input, o, tried)
    ensures |ns| == |moves| && forall i :: 0 <= i < |moves| ==> ns[i] == Apply(o, moves[i])
    ensures forall m :: m in tried <==> m.Swap? && m.out1 == a && m.out2 in o.d2
    ensures NoRepeats(tried) && |tried| == |o.d2|
  {
    ns := [];
    tried := [];
    moves := [];
    var rest := o.d2;
    while rest != {}
      invariant rest <= o.d2
      invariant moves == Generated(input, o, tried)
      invariant |ns| == |moves| && forall i :: 0 <= i < |moves| ==> ns[i] == Apply(o, moves[i])
      invariant forall m :: m in tried <==> m.Swap? && m.out1 == a && m.out2 in o.d2 - rest
      invariant NoRepeats(tried) && |tried| == |o.d2 - rest|
      decreases rest
    {
      NonEmptyHasMember(rest);
      var b :| b in rest;
      ghost var done := o.d2 - rest;
      rest := rest - {b};
      assert o.d2 - rest == done + {b} && b !in done;
      var m := Swap(a, b);
      var ok := TrySwap(input, o, m);
      NoRepeatsAppend(tried, [m]);
      ghost var before := tried;
      tried := tried + [m];
      assert tried[..|tried| - 1] == before;
      if ok {
        ns := ns + [Apply(o, m)];
        moves := moves + [m];
      }
    }
  }

  /** The swaps tried so far, for the D1 nodes `done`, followed by those of one more D1 node `a`. */
  lemma SwapGroupAppended(o: Output, done: set<int>, a: int, tried: seq<Move>, tried1: seq<Move>)
    requires a !in done
    requires forall m :: m in tried <==> m.Swap? && m.out1 in done && m.out2 in o.d2
    requires NoRepeats(tried) && |tried| == |done| * |o.d2| && GroupedByFirst(tried)
    requires forall m :: m in tried1 <==> m.Swap? && m.out1 == a && m.out2 in o.d2
    requires NoRepeats(tried1) && |tried1| == |o.d2|
    ensures forall m :: m in tried + tried1 <==> m.Swap? && m.out1 in done + {a} && m.out2 in o.d2
    ensures NoRepeats(tried + tried1) && |tried + tried1| == |done + {a}| * |o.d2|
    ensures GroupedByFirst(tried + tried1)
  {
    assert |done + {a}| * |o.d2| == |done| * |o.d2| + |o.d2|;
    NoRepeatsAppend(tried, tried1);
    GroupedAppend(tried, tried1, a);
  }

  /** Neighbour lists built group by group still match their moves position by position. */
  lemma AppliedConcat(o: Output, ns1: seq<Output>, m1: seq<Move>, ns2: seq<Output>, m2: seq<Move>)
    requires |ns1| == |m1| && forall i :: 0 <= i < |m1| ==> ns1[i] == Apply(o, m1[i])
    requires |ns2| == |m2| && forall i :: 0 <= i < |m2| ==> ns2[i] == Apply(o, m2[i])
    ensures |ns1 + ns2| == |m1 + m2| && forall i :: 0 <= i < |m1 + m2| ==> (ns1 + ns2)[i] == Apply(o, (m1 + m2)[i])
  {
  }

  /** The swaps of one more D1 node `a`, appended to those of the D1 nodes `done`. */
  method AppendSwapsOf(input: Input, o: Output, a: int, ghost done: set<int>,
                       ns: seq<Output>, ghost tried: seq<Move>, ghost moves: seq<Move>)
    returns (ns': seq<Output>, ghost tried': seq<Move>, ghost moves': seq<Move>)
    requires a in o.d1 && a !in done
    requires moves == Generated(input, o, tried)
    requires |ns| == |moves| && forall i :: 0 <= i < |moves| ==> ns[i] == Apply(o, moves[i])
    requires forall m :: m in tried <==> m.Swap? && m.out1 in done && m.out2 in o.d2
    requires NoRepeats(tried) && |tried| == |done| * |o.d2| && GroupedByFirst(tried)
    ensures moves' == Generated(input, o, tried')
    ensures |ns'| == |moves'| && forall i :: 0 <= i < |moves'| ==> ns'[i] == Apply(o, moves'[i])
    ensures forall m :: m in tried' <==> m.Swap? && m.out1 in done + {a} && m.out2 in o.d2
    ensures NoRepeats(tried') && |tried'| == |done + {a}| * |o.d2| && GroupedByFirst(tried')
  {
    var ns1, tried1, moves1 := SwapsOf(input, o, a);
    SwapGroupAppended(o, done, a, tried, tried1);
    GeneratedAppend(input, o, tried, tried1);
    AppliedConcat(o, ns, moves, ns1, moves1);
    ns' := ns + ns1;
    tried' := tried + tried1;
    moves' := moves + moves1;
  }

  /** The swaps, tried for each D1 node against each D2 node. */
  method SwapMoves(input: Input, o: Output) returns (ns: seq<Output>, ghost tried: seq<Move>, ghost moves: seq<Move>)
    ensures moves == Generated(input, o, tried)
    ensures |ns| == |moves| && forall i :: 0 <= i < |moves| ==> ns[i] == Apply(o, moves[i])
    ensures forall m :: m in tried <==> m.Swap? && m.out1 in o.d1 && m.out2 in o.d2
    ensures NoRepeats(tried) && |tried| == |o.d1| * |o.d2|
    ensures GroupedByFirst(tried)
  {
    ns := [];
    tried := [];
    moves := [];
    var rest := o.d1;
    while rest != {}
      invariant rest <= o.d1
      invariant moves == Generated(input, o, tried)
      invariant |ns| == |moves| && forall i :: 0 <= i < |moves| ==> ns[i] == Apply(o, moves[i])
      invariant forall m :: m in tried <==> m.Swap? && m.out1 in o.d1 - rest && m.out2 in o.d2
      invariant NoRepeats(tried) && |tried| == |o.d1 - rest| * |o.d2|
      invariant GroupedByFirst(tried)
      decreases rest
    {
      NonEmptyHasMember(rest);
      var a :| a in rest;
      ghost var done := o.d1 - rest;
      rest := rest - {a};
      assert o.d1 - rest == done + {a} && a !in done;
      ns, tried, moves := AppendSwapsOf(input, o, a, done, ns, tried, moves);
    }
  }
}
