/**
 * `DDSPCGRASP`: repeated greedy randomized construction followed by a
 * first-improvement local search over the 1-exchange neighbourhood,
 * keeping the best solution found.
 */
module Grasp {
  import opened Wrappers
  import opened Data
  import opened DDSPCUtil
  import opened Randomness
  import opened Construction
  import opened Neighborhood

  /** The output the GRASP constructor returns when phase 2 gets stuck: empty sets and value `int.MaxValue`. */
  function Sentinel(): Output
  {
    Output(0, {}, {}, IntMax, "")
  }

  /** The solution a construction hands to local search: its result, or the sentinel when it failed. */
  function OrSentinel(c: Option<Output>): Output
  {
    if c.Some? then c.value else Sentinel()
  }

  /** How many scans one local search makes at most: the do-while runs once even when the limit is below 1. */
  function ScanLimit(maxLocalSearchIterations: int): (n: int)
    ensures n >= 1 && n >= maxLocalSearchIterations
    ensures maxLocalSearchIterations >= 1 ==> n == maxLocalSearchIterations
  {
    if maxLocalSearchIterations > 1 then maxLocalSearchIterations else 1
  }

  /** No generated neighbour has a lower value. */
  ghost predicate LocalOptimum(input: Input, o: Output)
  {
    forall m :: Yields(input, o, m) ==> Apply(o, m).value >= o.value
  }

  /** A local optimum is exactly a solution from which no single node can be dropped while staying valid. */
  lemma LocalOptimumIsRemovalMinimal(input: Input, o: Output)
    ensures LocalOptimum(input, o) <==>
              forall x :: !Yields(input, o, RemoveD1(x)) && !Yields(input, o, RemoveD2(x))
  {
    forall m | Yields(input, o, m) && Apply(o, m).value < o.value
      ensures m.RemoveD1? || m.RemoveD2?
    {
      ImprovingIffRemoval(o, m);
    }
    forall x ensures Apply(o, RemoveD1(x)).value < o.value && Apply(o, RemoveD2(x)).value < o.value {
      ImprovingIffRemoval(o, RemoveD1(x));
      ImprovingIffRemoval(o, RemoveD2(x));
    }
  }

  /** With at least one node, a sound solution of a well-formed instance has value at least 2. */
  lemma SoundValueAtLeastTwo(input: Input, o: Output)
    requires WellFormed(input) && input.numNodes >= 1 && Sound(input, o)
    ensures o.value >= 2
  {
    FeasibleIsValid(input, o);
    ValidSolutionSizes(input, o);
  }

  /** The best solution tagged with the solver's name; the tag leaves it sound, valid and of value at least 2 once there is a node. */
  function Tagged(input: Input, best: Option<Output>): (r: Option<Output>)
    requires best.Some? && WellFormed(input) ==> Sound(input, best.value)
    ensures r.Some? <==> best.Some?
    ensures r.Some? ==> r.value.solver == "GRASP" && r.value.value == best.value.value
    ensures r.Some? && WellFormed(input) ==> Sound(input, r.value) && ValidSolution(input, r.value)
    ensures r.Some? && WellFormed(input) && input.numNodes >= 1 ==> r.value.value >= 2
  {
    if best.None? then None
    else
      var tagged := best.value.(solver := "GRASP");
      if WellFormed(input) then
        FeasibleIsValid(input, tagged);
        if input.numNodes >= 1 then
          SoundValueAtLeastTwo(input, tagged);
          Some(tagged)
        else Some(tagged)
      else Some(tagged)
  }

  /**
   * One improving scan: `b` is the neighbour of `a` reached by a generated
   * move of lower value, and no move of an earlier group gives a lower
   * neighbour (so a D2 removal is taken only when no D1 removal improves).
   */
  ghost predicate FirstStep(input: Input, a: Output, b: Output)
  {
    exists m :: && Yields(input, a, m) && Apply(a, m) == b && b.value < a.value
                && forall m' :: Yields(input, a, m') && Rank(m') < Rank(m) ==> Apply(a, m').value >= a.value
  }

  /** The solutions local search visits from `s` to `r`: one first-improvement step per scan. */
  ghost predicate ImprovementPath(input: Input, s: Output, r: Output, path: seq<Output>)
  {
    && |path| >= 1 && |path| == s.value - r.value + 1
    && path[0] == s && path[|path| - 1] == r
    && forall i :: 0 <= i < |path| - 1 ==> FirstStep(input, path[i], path[i + 1])
  }

  /** A path extends by one more first-improvement step. */
  lemma PathSnoc(input: Input, s: Output, r: Output, path: seq<Output>, b: Output)
    requires ImprovementPath(input, s, r, path) && FirstStep(input, r, b) && b.value == r.value - 1
    ensures ImprovementPath(input, s, b, path + [b])
  {
    var p := path + [b];
    forall i | 0 <= i < |p| - 1 ensures FirstStep(input, p[i], p[i + 1]) {
      if i < |path| - 1 {
        assert p[i] == path[i] && p[i + 1] == path[i + 1];
      }
    }
  }

  /**
   * The group order across scans: while some D1 member can be dropped, a
   * step drops a D1 member and leaves D2 as it was.
   */
  lemma FirstStepPrefersD1(input: Input, a: Output, b: Output, x: int)
    requires FirstStep(input, a, b) && Yields(input, a, RemoveD1(x))
    ensures b.d2 == a.d2 && b.d1 < a.d1 && b.value == a.value - 1
  {
    var m :| && Yields(input, a, m) && Apply(a, m) == b && b.value < a.value
             && forall m' :: Yields(input, a, m') && Rank(m') < Rank(m) ==> Apply(a, m').value >= a.value;
    ImprovingIffRemoval(a, m);
    ImprovingIffRemoval(a, RemoveD1(x));
    if m.RemoveD2? {
      assert false;
    }
    assert m.node in a.d1;
  }

  /** A first-improvement step only removes members. */
  lemma FirstStepShrinks(input: Input, a: Output, b: Output)
    requires FirstStep(input, a, b)
    ensures b.d1 <= a.d1 && b.d2 <= a.d2
  {
    var m :| Yields(input, a, m) && Apply(a, m) == b && b.value < a.value;
    ImprovingIffRemoval(a, m);
  }

  /** Along an improvement path the sets only shrink. */
  lemma {:induction false} PathShrinks(input: Input, s: Output, r: Output, path: seq<Output>, i: int)
    requires ImprovementPath(input, s, r, path) && 0 <= i < |path|
    ensures r.d1 <= path[i].d1 && r.d2 <= path[i].d2
    decreases |path| - i
  {
    if i < |path| - 1 {
      FirstStepShrinks(input, path[i], path[i + 1]);
      PathShrinks(input, s, r, path, i + 1);
    }
  }

  /**
   * A search that improves at all from a solution with a droppable D1 member
   * ends with fewer D1 members: its first scan drops one of them.
   */
  lemma SearchPrefersD1(input: Input, limit: int, s: Output, r: Output, x: int)
    requires SearchedFrom(input, limit, s, r) && r.value < s.value && Yields(input, s, RemoveD1(x))
    ensures r.d1 < s.d1
  {
    var path :| ImprovementPath(input, s, r, path);
    FirstStepPrefersD1(input, path[0], path[1], x);
    PathShrinks(input, s, r, path, 1);
  }

  /**
   * What local search makes of `s` within `limit` scans: the sentinel comes
   * back unchanged, and so does a local optimum; anything else loses one
   * member per improving scan, each scan taking a first improving
   * neighbour in group order, keeps the rest of its sets, and ends at a
   * local optimum unless every scan improved.
   */
  ghost predicate SearchedFrom(input: Input, limit: int, s: Output, r: Output)
  {
    && (exists path :: ImprovementPath(input, s, r, path))
    && (s.value == IntMax ==> r == s)
    && (s.value != IntMax ==> 0 <= s.value - r.value <= limit && (LocalOptimum(input, r) || s.value - r.value == limit))
    && (s.value != IntMax ==> r.d1 <= s.d1 && r.d2 <= s.d2 && s.value - r.value == |s.d1 - r.d1| + |s.d2 - r.d2|)
    && (LocalOptimum(input, s) ==> r == s)
    && (r == s || (ValidSolution(input, r) && r.numNodes == 0 && r.solver == ""))
    && (WellFormed(input) && Sound(input, s) ==> Sound(input, r))
  }

  /** The possible results of one GRASP round: local search from the outcome of some run of the construction. */
  ghost predicate RoundOutcome(input: Input, alpha: Ratio, limit: int, r: Output)
  {
    exists c :: Constructible(input, alpha, c) && SearchedFrom(input, limit, OrSentinel(c), r)
  }

  /** Every round in the list, from the first to the last, is a possible result of one GRASP round. */
  ghost predicate RoundOutcomes(input: Input, alpha: Ratio, limit: int, rounds: seq<Output>)
  {
    rounds != [] ==>
      RoundOutcomes(input, alpha, limit, rounds[..|rounds| - 1]) && RoundOutcome(input, alpha, limit, rounds[|rounds| - 1])
  }

  /**
   * A round ends at the sentinel exactly when its construction failed, and
   * otherwise at a sound solution no larger than the construction's (when
   * `2 * numNodes` stays below `int.MaxValue`, no real solution reaches the
   * sentinel's value).
   */
  lemma RoundSentinelIff(input: Input, alpha: Ratio, limit: int, r: Output)
    requires input.numNodes >= 0 && 2 * input.numNodes < IntMax
    requires RoundOutcome(input, alpha, limit, r)
    ensures r.value <= IntMax
    ensures r.value == IntMax <==> r == Sentinel()
    ensures r != Sentinel() && WellFormed(input) ==> Sound(input, r)
  {
    var c :| Constructible(input, alpha, c) && SearchedFrom(input, limit, OrSentinel(c), r);
    if c.Some? {
      ConstructibleSound(input, alpha, c.value);
    }
  }

  /** Each round is the sentinel or a result strictly below `int.MaxValue`. */
  predicate SentinelOrBelow(rounds: seq<Output>)
  {
    rounds != [] ==>
      var r := rounds[|rounds| - 1];
      SentinelOrBelow(rounds[..|rounds| - 1]) && r.value <= IntMax && (r.value == IntMax <==> r == Sentinel())
  }

  /** While `2 * numNodes` stays below `int.MaxValue`, the rounds of `Solve` only reach that value at the sentinel. */
  lemma {:induction false} RoundsSentinelOrBelow(input: Input, alpha: Ratio, limit: int, rounds: seq<Output>)
    requires input.numNodes >= 0 && 2 * input.numNodes < IntMax
    requires RoundOutcomes(input, alpha, limit, rounds)
    ensures SentinelOrBelow(rounds)
  {
    if rounds != [] {
      RoundsSentinelOrBelow(input, alpha, limit, rounds[..|rounds| - 1]);
      RoundSentinelIff(input, alpha, limit, rounds[|rounds| - 1]);
    }
  }

  /** `Solve` ends with no incumbent exactly when every round's construction failed. */
  lemma {:induction false} NoIncumbentIffAllFailed(rounds: seq<Output>)
    requires SentinelOrBelow(rounds)
    ensures Incumbent(rounds).None? <==> forall k :: 0 <= k < |rounds| ==> rounds[k] == Sentinel()
  {
    if rounds != [] {
      var prefix := rounds[..|rounds| - 1];
      NoIncumbentIffAllFailed(prefix);
      assert forall k :: 0 <= k < |prefix| ==> prefix[k] == rounds[k];
      if Incumbent(prefix).Some? {
        IncumbentNoneIff(prefix);
      }
    }
  }

  /** The value `Solve` compares against: the incumbent's, or `int.MaxValue` while there is none. */
  function BestValue(best: Option<Output>): int
  {
    if best.None? then IntMax else best.value.value
  }

  /** The incumbent after the given rounds: each round is adopted exactly when its value is below the incumbent's. */
  function Incumbent(rounds: seq<Output>): Option<Output>
  {
    if rounds == [] then None
    else
      var prev := Incumbent(rounds[..|rounds| - 1]);
      var s := rounds[|rounds| - 1];
      if s.value < BestValue(prev) then Some(s) else prev
  }

  /** One more round: the incumbent of the earlier rounds, or the new round if it is lower. */
  lemma IncumbentSnoc(rounds: seq<Output>, s: Output)
    ensures Incumbent(rounds + [s]) == if s.value < BestValue(Incumbent(rounds)) then Some(s) else Incumbent(rounds)
    ensures forall k :: 0 <= k <= |rounds| ==> (rounds + [s])[..k] == rounds[..k]
  {
    assert (rounds + [s])[..|rounds|] == rounds;
  }

  /** Every round started while the incumbent's value was not yet 2: `Solve` never ran past its early exit. */
  predicate NoEarlyStop(rounds: seq<Output>)
  {
    rounds != [] ==>
      var prefix := rounds[..|rounds| - 1];
      NoEarlyStop(prefix) && BestValue(Incumbent(prefix)) != 2
  }

  /** The recursive form is the same as asking it of every proper prefix. */
  lemma {:induction false} NoEarlyStopEach(rounds: seq<Output>)
    ensures NoEarlyStop(rounds) <==> forall k :: 0 <= k < |rounds| ==> BestValue(Incumbent(rounds[..k])) != 2
  {
    if rounds != [] {
      var prefix := rounds[..|rounds| - 1];
      NoEarlyStopEach(prefix);
      assert forall k :: 0 <= k < |prefix| ==> prefix[..k] == rounds[..k];
    }
  }

  /** There is no incumbent exactly when no round came in below `int.MaxValue`. */
  lemma {:induction false} IncumbentNoneIff(rounds: seq<Output>)
    ensures Incumbent(rounds).None? <==> forall k :: 0 <= k < |rounds| ==> rounds[k].value >= IntMax
    ensures BestValue(Incumbent(rounds)) <= IntMax
  {
    if rounds != [] {
      var prefix := rounds[..|rounds| - 1];
      IncumbentNoneIff(prefix);
      assert forall k :: 0 <= k < |prefix| ==> prefix[k] == rounds[k];
    }
  }

  /**
   * The incumbent is the first round of least value: it is one of the rounds,
   * no round is lower, and every earlier round is strictly higher.
   */
  lemma {:induction false} IncumbentIsFirstBest(rounds: seq<Output>)
    requires Incumbent(rounds).Some?
    ensures exists j :: 0 <= j < |rounds| && Incumbent(rounds).value == rounds[j] &&
                        forall k :: 0 <= k < j ==> rounds[k].value > rounds[j].value
    ensures forall k :: 0 <= k < |rounds| ==> Incumbent(rounds).value.value <= rounds[k].value
  {
    var prefix := rounds[..|rounds| - 1];
    var s := rounds[|rounds| - 1];
    var prev := Incumbent(prefix);
    assert forall k :: 0 <= k < |prefix| ==> prefix[k] == rounds[k];
    if prev.None? {
      IncumbentNoneIff(prefix);
      assert Incumbent(rounds).value == rounds[|rounds| - 1];
    } else {
      IncumbentIsFirstBest(prefix);
      var j :| 0 <= j < |prefix| && prev.value == prefix[j] &&
               forall k :: 0 <= k < j ==> prefix[k].value > prefix[j].value;
      if s.value < prev.value.value {
        assert Incumbent(rounds).value == rounds[|rounds| - 1];
      } else {
        assert Incumbent(rounds).value == rounds[j];
      }
    }
  }

  /** Taking one more member `x` out of `r`, a subset of `s`, adds `x` to what is missing from `s`. */
  lemma DropOne(s: set<int>, r: set<int>, x: int)
    requires r <= s && x in r
    ensures r - {x} <= s && |s - (r - {x})| == |s - r| + 1
  {
    assert s - (r - {x}) == (s - r) + {x};
  }

  /**
   * Local search adopting the generated neighbour `Apply(r, m)` of lower value:
   * the move is a removal, the result passes the check, one more member of
   * `solution` is gone, soundness is kept, and `solution` was no local optimum.
   */
  lemma AdoptRemoval(input: Input, solution: Output, r: Output, m: Move)
    requires Yields(input, r, m) && Apply(r, m).value < r.value
    requires r.d1 <= solution.d1 && r.d2 <= solution.d2
    requires LocalOptimum(input, solution) ==> r == solution
    requires WellFormed(input) && Sound(input, solution) ==> Sound(input, r)
    ensures Apply(r, m).value == r.value - 1
    ensures Apply(r, m).d1 <= solution.d1 && Apply(r, m).d2 <= solution.d2
    ensures |solution.d1 - Apply(r, m).d1| + |solution.d2 - Apply(r, m).d2| == |solution.d1 - r.d1| + |solution.d2 - r.d2| + 1
    ensures !LocalOptimum(input, solution)
    ensures ValidSolution(input, Apply(r, m)) && Apply(r, m).numNodes == 0 && Apply(r, m).solver == ""
    ensures WellFormed(input) && Sound(input, solution) ==> Sound(input, Apply(r, m))
  {
    ImprovingIffRemoval(r, m);
    if WellFormed(input) && Sound(input, solution) {
      MovePreservesSound(input, r, m);
    }
    if m.RemoveD1? {
      DropOne(solution.d1, r.d1, m.node);
    } else {
      DropOne(solution.d2, r.d2, m.node);
    }
    assert !LocalOptimum(input, r);
  }

  /** A full scan whose generated neighbours are none of them lower ends at a local optimum. */
  lemma NoImprovementIsOptimum(input: Input, r: Output, tried: seq<Move>, moves: seq<Move>, ns: seq<Output>)
    requires forall m :: m in tried <==> InScope(input, r, m)
    requires moves == Generated(input, r, tried)
    requires |ns| == |moves| && forall i :: 0 <= i < |moves| ==> ns[i] == Apply(r, moves[i])
    requires forall j :: 0 <= j < |ns| ==> ns[j].value >= r.value
    ensures LocalOptimum(input, r)
  {
    GeneratedExactly(input, r, tried);
    forall m | Yields(input, r, m) ensures Apply(r, m).value >= r.value {
      var j :| 0 <= j < |moves| && moves[j] == m;
    }
  }

  /**
   * When the generated neighbours before position `k` are none of them lower,
   * no generated move of an earlier group than the `k`-th gives a lower
   * neighbour.
   */
  lemma FirstAmongGenerated(input: Input, r: Output, tried: seq<Move>, moves: seq<Move>, ns: seq<Output>, k: nat)
    requires forall m :: m in tried <==> InScope(input, r, m)
    requires Ordered(tried) && moves == Generated(input, r, tried)
    requires |ns| == |moves| && forall i :: 0 <= i < |moves| ==> ns[i] == Apply(r, moves[i])
    requires k < |ns| && forall j :: 0 <= j < k ==> ns[j].value >= r.value
    ensures forall m' :: Yields(input, r, m') && Rank(m') < Rank(moves[k]) ==> Apply(r, m').value >= r.value
  {
    GeneratedExactly(input, r, tried);
    GeneratedOrdered(input, r, tried);
    forall m' | Yields(input, r, m') && Rank(m') < Rank(moves[k]) ensures Apply(r, m').value >= r.value {
      var j :| 0 <= j < |moves| && moves[j] == m';
      if j > k {
        assert Precedes(moves[k], moves[j]);
      }
    }
  }

  /** Two groups tried one after another stay ordered when the first group's ranks are all below the second's. */
  lemma OrderedConcat(a: seq<Move>, b: seq<Move>, k: nat)
    requires Ordered(a) && Ordered(b)
    requires forall m :: m in a ==> Rank(m) < k
    requires forall m :: m in b ==> Rank(m) >= k
    ensures Ordered(a + b)
  {
    forall i, j | 0 <= i < j < |a + b| ensures Precedes((a + b)[i], (a + b)[j]) {
      if j < |a| {
        assert Precedes(a[i], a[j]);
      } else if i >= |a| {
        assert Precedes(b[i - |a|], b[j - |a|]);
      } else {
        assert a[i] in a && b[j - |a|] in b;
      }
    }
  }

  /** The additions are tried by increasing node. */
  lemma AddsOrdered(input: Input, t: seq<Move>, toD1: bool)
    requires |t| == input.numNodes
    requires forall i :: 0 <= i < |t| ==> t[i] == if toD1 then AddD1(i) else AddD2(i)
    ensures Ordered(t)
    ensures forall m :: m in t <==> (if toD1 then m.AddD1? else m.AddD2?) && InScope(input, Output(0, {}, {}, 0, ""), m)
  {
    forall m: Move | (if toD1 then m.AddD1? else m.AddD2?) && 0 <= m.node < input.numNodes ensures m in t {
      assert t[m.node] == m;
    }
  }

  /** A group whose moves all share one rank from 2 up is ordered whatever its order, as long as no move repeats. */
  lemma SameRankOrdered(t: seq<Move>, k: nat)
    requires k >= 2 && forall m :: m in t ==> Rank(m) == k
    requires NoRepeats(t)
    ensures Ordered(t)
  {
    forall i, j | 0 <= i < j < |t| ensures Precedes(t[i], t[j]) {
      assert t[i] in t && t[j] in t;
    }
  }

  /** In an ordered list no move occurs twice. */
  lemma OrderedHasNoRepeats(ms: seq<Move>)
    requires Ordered(ms)
    ensures NoRepeats(ms)
  {
    forall i, j | 0 <= i < j < |ms| ensures ms[i] != ms[j] {
      assert Precedes(ms[i], ms[j]);
    }
  }

  /** The five groups in the order `GenerateNeighbors` tries them cover the scope in order. */
  lemma GroupsAssemble(input: Input, o: Output, t1: seq<Move>, t2: seq<Move>, t3: seq<Move>, t4: seq<Move>, t5: seq<Move>)
    requires |t1| == input.numNodes && forall i :: 0 <= i < |t1| ==> t1[i] == AddD1(i)
    requires |t2| == input.numNodes && forall i :: 0 <= i < |t2| ==> t2[i] == AddD2(i)
    requires forall m :: m in t3 <==> IsRemoval(m, true) && m.node in o.d1
    requires forall m :: m in t4 <==> IsRemoval(m, false) && m.node in o.d2
    requires forall m :: m in t5 <==> m.Swap? && m.out1 in o.d1 && m.out2 in o.d2
    requires NoRepeats(t3) && NoRepeats(t4) && NoRepeats(t5)
    requires GroupedByFirst(t5)
    ensures forall m :: m in t1 + t2 + t3 + t4 + t5 <==> InScope(input, o, m)
    ensures Ordered(t1 + t2 + t3 + t4 + t5)
    ensures GroupedByFirst(t1 + t2 + t3 + t4 + t5)
  {
    GroupedAfter(t1 + t2 + t3 + t4, t5);
    AddsOrdered(input, t1, true);
    AddsOrdered(input, t2, false);
    SameRankOrdered(t3, 2);
    SameRankOrdered(t4, 3);
    SameRankOrdered(t5, 4);
    OrderedConcat(t1, t2, 1);
    OrderedConcat(t1 + t2, t3, 2);
    OrderedConcat(t1 + t2 + t3, t4, 3);
    OrderedConcat(t1 + t2 + t3 + t4, t5, 4);
  }

  class DDSPCGRASP {
    const random: Random
    /**
     * The RCL parameter: a candidate is admitted when its coverage reaches
     * `min + alpha * (max - min)`, so 0 admits every candidate (a uniform
     * draw) and 1 only the best-covering ones (pure greedy).
     */
    const alpha: Ratio
    const maxIterations: int
    const maxLocalSearchIterations: int

    /**
     * `draws` is what the generator will return: a seeded generator's fixed
     * sequence, or, for the unseeded default, any sequence at all (the
     * contracts below hold for every one of them; the empty default is just
     * one of those).
     */
    constructor (alpha: Ratio := Ratio(3, 10), maxIterations: int := 100, maxLocalSearchIterations: int := 100,
                 draws: seq<nat> := [])
      ensures this.alpha == alpha && this.maxIterations == maxIterations
      ensures this.maxLocalSearchIterations == maxLocalSearchIterations
      ensures fresh(random) && random.draws == draws
    {
      this.alpha := alpha;
      this.maxIterations := maxIterations;
      this.maxLocalSearchIterations := maxLocalSearchIterations;
      random := new Random(draws);
    }

    /**
     * The GRASP construction: the shared two-phase construction, with the
     * sentinel in place of a failed phase 2. `picks1` and `picks2` are the
     * nodes drawn in each phase, in order.
     */
    method ConstructGreedyRandomizedSolution(input: Input)
      returns (o: Output, ghost picks1: seq<int>, ghost picks2: seq<int>)
      requires input.numNodes >= 0 && UnitInterval(alpha)
      modifies random
      ensures FinishedRun(input, alpha, picks1, picks2)
      ensures o == OrSentinel(ConstructionResult(input, picks1, picks2))
      ensures Dominates(input, Elems(picks1))
      ensures o != Sentinel() ==> Sound(input, o) && o.value <= 2 * input.numNodes && o.numNodes == 0 && o.solver == ""
      ensures o != Sentinel() && WellFormed(input) ==> ValidSolution(input, o)
      ensures o == Sentinel() ==> !Dominates(input, Elems(picks2))
      ensures o == Sentinel() ==> forall x :: 0 <= x < input.numNodes && x !in Elems(picks1) && x !in Elems(picks2) ==>
                                    ClashesWithAny(input.conflicts, x, Elems(picks1))
    {
      var r;
      r, picks1, picks2 := Construct(input, alpha, random);
      if r.None? {
        return Sentinel(), picks1, picks2;
      }
      o := r.value;
      assert o.value == |o.d1| + |o.d2|;
    }

    /**
     * The neighbourhood of `o` in generation order: D1 additions, D2
     * additions, D1 removals, D2 removals, swaps. `tried` lists every move
     * considered and `moves` the ones generated.
     */
    method GenerateNeighbors(input: Input, o: Output) returns (ns: seq<Output>, ghost tried: seq<Move>, ghost moves: seq<Move>)
      requires input.numNodes >= 0
      ensures moves == Generated(input, o, tried)
      ensures |ns| == |moves| && forall i :: 0 <= i < |moves| ==> ns[i] == Apply(o, moves[i])
      ensures forall m :: m in tried <==> InScope(input, o, m)
      ensures Ordered(tried) && NoRepeats(tried)
      ensures |tried| == 2 * input.numNodes + |o.d1| + |o.d2| + |o.d1| * |o.d2|
      ensures GroupedByFirst(tried)
    {
      var ns1, t1, m1 := AddMoves(input, o, true);
      var ns2, t2, m2 := AddMoves(input, o, false);
      var ns3, t3, m3 := RemoveMoves(input, o, true);
      var ns4, t4, m4 := RemoveMoves(input, o, false);
      var ns5, t5, m5 := SwapMoves(input, o);
      AppliedConcat(o, ns1, m1, ns2, m2);
      AppliedConcat(o, ns1 + ns2, m1 + m2, ns3, m3);
      AppliedConcat(o, ns1 + ns2 + ns3, m1 + m2 + m3, ns4, m4);
      AppliedConcat(o, ns1 + ns2 + ns3 + ns4, m1 + m2 + m3 + m4, ns5, m5);
      ns := ns1 + ns2 + ns3 + ns4 + ns5;
      tried := t1 + t2 + t3 + t4 + t5;
      moves := m1 + m2 + m3 + m4 + m5;
      GeneratedAppend(input, o, t1, t2);
      GeneratedAppend(input, o, t1 + t2, t3);
      GeneratedAppend(input, o, t1 + t2 + t3, t4);
      GeneratedAppend(input, o, t1 + t2 + t3 + t4, t5);
      GroupsAssemble(input, o, t1, t2, t3, t4, t5);
      OrderedHasNoRepeats(tried);
    }

    /**
     * One scan of local search: the first generated neighbour of lower value
     * than `o`, reached by the move `m`, or `None` when `o` is a local optimum.
     */
    method FirstImprovement(input: Input, o: Output) returns (next: Option<Output>, ghost m: Move)
      requires input.numNodes >= 0
      ensures next.None? <==> LocalOptimum(input, o)
      ensures next.Some? ==> Yields(input, o, m) && Apply(o, m).value < o.value && next.value == Apply(o, m)
      ensures next.Some? ==> forall m' :: Yields(input, o, m') && Rank(m') < Rank(m) ==> Apply(o, m').value >= o.value
    {
      var neighbors, tried, moves := GenerateNeighbors(input, o);
      var k := 0;
      while k < |neighbors| && neighbors[k].value >= o.value
        invariant 0 <= k <= |neighbors|
        invariant forall j :: 0 <= j < k ==> neighbors[j].value >= o.value
      {
        k := k + 1;
      }
      if k == |neighbors| {
        NoImprovementIsOptimum(input, o, tried, moves, neighbors);
        return None, AddD1(0);
      }
      GeneratedSound(input, o, tried);
      assert moves[k] in moves;
      m := moves[k];
      next := Some(neighbors[k]);
      FirstAmongGenerated(input, o, tried, moves, neighbors, k);
    }

    /**
     * First-improvement local search. The sentinel is returned unchanged;
     * otherwise the search repeatedly moves to the first generated neighbour
     * of lower value, for at most `maxLocalSearchIterations` scans (at least
     * one). Every move it takes is a removal, so it ends either at a local
     * optimum or after every allowed scan removed one node.
     */
    method LocalSearch(input: Input, solution: Output) returns (r: Output, ghost path: seq<Output>)
      requires input.numNodes >= 0
      ensures ImprovementPath(input, solution, r, path)
      ensures solution.value == IntMax ==> r == solution
      ensures r.value <= solution.value
      ensures solution.value != IntMax ==> solution.value - r.value <= ScanLimit(maxLocalSearchIterations)
      ensures solution.value != IntMax ==>
                LocalOptimum(input, r) || solution.value - r.value == ScanLimit(maxLocalSearchIterations)
      ensures solution.value != IntMax ==>
                r.d1 <= solution.d1 && r.d2 <= solution.d2 &&
                solution.value - r.value == |solution.d1 - r.d1| + |solution.d2 - r.d2|
      ensures LocalOptimum(input, solution) ==> r == solution
      ensures r == solution || (ValidSolution(input, r) && r.numNodes == 0 && r.solver == "")
      ensures WellFormed(input) && Sound(input, solution) ==> Sound(input, r)
    {
      r := solution;
      path := [solution];
      if solution.value == IntMax {
        return;
      }
      var currentValue := r.value;
      var improved := false;
      var iterations := 0;
      while true
        invariant currentValue == r.value == solution.value - iterations
        invariant r == solution || (ValidSolution(input, r) && r.numNodes == 0 && r.solver == "")
        invariant WellFormed(input) && Sound(input, solution) ==> Sound(input, r)
        invariant iterations == 0 || 0 < iterations < maxLocalSearchIterations
        invariant r.d1 <= solution.d1 && r.d2 <= solution.d2
        invariant iterations == |solution.d1 - r.d1| + |solution.d2 - r.d2|
        invariant LocalOptimum(input, solution) ==> r == solution
        invariant ImprovementPath(input, solution, r, path)
        decreases maxLocalSearchIterations - iterations
      {
        improved := false;
        iterations := iterations + 1;
        var next, m := FirstImprovement(input, r);
        if next.None? {
          return;
        }
        AdoptRemoval(input, solution, r, m);
        assert FirstStep(input, r, next.value);
        PathSnoc(input, solution, r, path, next.value);
        path := path + [next.value];
        r := next.value;
        currentValue := r.value;
        improved := true;
        if !(improved && iterations < maxLocalSearchIterations) {
          break;
        }
      }
    }

    /** One GRASP round: a construction followed by local search from it. */
    method ConstructAndImprove(input: Input) returns (solution: Output)
      requires input.numNodes >= 0 && UnitInterval(alpha)
      modifies random
      ensures RoundOutcome(input, alpha, ScanLimit(maxLocalSearchIterations), solution)
      ensures solution == Sentinel() || (WellFormed(input) ==> Sound(input, solution))
    {
      var constructed, picks1, picks2 := ConstructGreedyRandomizedSolution(input);
      ghost var path;
      solution, path := LocalSearch(input, constructed);
      ghost var c := ConstructionResult(input, picks1, picks2);
      assert FinishedRun(input, alpha, picks1, picks2) && c == ConstructionResult(input, picks1, picks2);
      assert Constructible(input, alpha, c);
      assert SearchedFrom(input, ScanLimit(maxLocalSearchIterations), OrSentinel(c), solution);
    }

    /** One more round of `Solve`, appended to the rounds run so far. */
    method NextRound(input: Input, ghost rounds: seq<Output>) returns (solution: Output)
      requires input.numNodes >= 0 && UnitInterval(alpha)
      requires RoundOutcomes(input, alpha, ScanLimit(maxLocalSearchIterations), rounds)
      modifies random
      ensures RoundOutcomes(input, alpha, ScanLimit(maxLocalSearchIterations), rounds + [solution])
      ensures solution == Sentinel() || (WellFormed(input) ==> Sound(input, solution))
    {
      solution := ConstructAndImprove(input);
      assert (rounds + [solution])[..|rounds|] == rounds;
    }

    /**
     * The rounds of `Solve`: up to `maxIterations` rounds of construction and
     * local search, adopting each result strictly better than the incumbent
     * and stopping early once the incumbent's value is 2. `rounds` lists the
     * result of every round run, in order.
     */
    method BestOfRounds(input: Input) returns (bestSolution: Option<Output>, ghost rounds: seq<Output>)
      requires input.numNodes >= 0 && UnitInterval(alpha)
      modifies random
      ensures bestSolution == Incumbent(rounds)
      ensures RoundOutcomes(input, alpha, ScanLimit(maxLocalSearchIterations), rounds)
      ensures |rounds| <= (if maxIterations > 0 then maxIterations else 0)
      ensures |rounds| == (if maxIterations > 0 then maxIterations else 0) || BestValue(bestSolution) == 2
      ensures NoEarlyStop(rounds)
      ensures bestSolution.Some? && WellFormed(input) ==> Sound(input, bestSolution.value)
    {
      bestSolution := None;
      var bestValue := IntMax;
      rounds := [];
      var i := 0;
      while i < maxIterations
        invariant 0 <= i && (i == 0 || i <= maxIterations) && |rounds| == i
        invariant bestSolution == Incumbent(rounds) && bestValue == BestValue(bestSolution) <= IntMax
        invariant RoundOutcomes(input, alpha, ScanLimit(maxLocalSearchIterations), rounds)
        invariant NoEarlyStop(rounds) && bestValue != 2
        invariant bestSolution.Some? && WellFormed(input) ==> Sound(input, bestSolution.value)
      {
        var solution := NextRound(input, rounds);
        IncumbentSnoc(rounds, solution);
        rounds := rounds + [solution];
        if solution.value < bestValue {
          bestSolution := Some(solution);
          bestValue := solution.value;
          if bestValue == 2 {
            break;
          }
        }
        i := i + 1;
      }
    }

    /**
     * `Solve`: the incumbent after the rounds, tagged "GRASP"; `None` when no
     * round came in below `int.MaxValue`.
     */
    method Solve(input: Input) returns (best: Option<Output>, ghost rounds: seq<Output>)
      requires input.numNodes >= 0 && UnitInterval(alpha)
      modifies random
      ensures Incumbent(rounds).Some? && WellFormed(input) ==> Sound(input, Incumbent(rounds).value)
      ensures best == Tagged(input, Incumbent(rounds))
      ensures RoundOutcomes(input, alpha, ScanLimit(maxLocalSearchIterations), rounds)
      ensures |rounds| <= (if maxIterations > 0 then maxIterations else 0)
      ensures |rounds| == (if maxIterations > 0 then maxIterations else 0) || BestValue(Incumbent(rounds)) == 2
      ensures NoEarlyStop(rounds)
      ensures best.Some? ==> best.value.solver == "GRASP"
      ensures best.Some? && WellFormed(input) ==> Sound(input, best.value) && ValidSolution(input, best.value)
      ensures best.Some? && WellFormed(input) && input.numNodes >= 1 ==> best.value.value >= 2
    {
      var bestSolution;
      bestSolution, rounds := BestOfRounds(input);
      best := Tagged(input, bestSolution);
    }
  }
}
