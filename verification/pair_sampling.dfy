/**
 * The nested loops the generators use to draw edge and conflict lists: one
 * Bernoulli draw per candidate pair, pairs visited row by row.
 */
module PairSampling {
  import opened Data
  import opened Randomness

  /** Row-major order on pairs. */
  predicate LexLess(a: Pair, b: Pair)
  {
    a.0 < b.0 || (a.0 == b.0 && a.1 < b.1)
  }

  /** Pairs listed in strictly increasing row-major order. */
  predicate StrictlySorted(ps: seq<Pair>)
  {
    forall i, j :: 0 <= i < j < |ps| ==> LexLess(ps[i], ps[j])
  }

  /** No pair is listed twice. */
  predicate Distinct(ps: seq<Pair>)
  {
    forall i, j :: 0 <= i < j < |ps| ==> ps[i] != ps[j]
  }

  /** A strictly sorted list has no repeated pair. */
  lemma SortedDistinct(ps: seq<Pair>)
    requires StrictlySorted(ps)
    ensures Distinct(ps)
  {
    forall i, j | 0 <= i < j < |ps| ensures ps[i] != ps[j] {
      assert LexLess(ps[i], ps[j]);
    }
  }

  /**
   * The pairs `(i, j)` with `0 <= i < j < n`, each kept when its draw falls
   * below `p`: the edge loop of `DDSPCGraphGenerator.GenerateGraph` and the
   * loop of `GraphGenerator.GenerateConflicts`.
   */
  method UpperPairs(n: int, p: Ratio, random: Random) returns (r: seq<Pair>)
    requires p.den > 0
    modifies random
    ensures forall k :: 0 <= k < |r| ==> 0 <= r[k].0 < r[k].1 < n
    ensures StrictlySorted(r)
    ensures p.num <= 0 ==> r == []
    ensures p.num >= p.den ==> forall a, b :: 0 <= a < b < n ==> (a, b) in r
  {
    r := [];
    var i := 0;
    while i < n
      invariant 0 <= i && (n >= 0 ==> i <= n)
      invariant forall k :: 0 <= k < |r| ==> 0 <= r[k].0 < r[k].1 < n && r[k].0 < i
      invariant StrictlySorted(r)
      invariant p.num <= 0 ==> r == []
      invariant p.num >= p.den ==> forall a, b :: 0 <= a < i && a < b < n ==> (a, b) in r
    {
      var j := i + 1;
      while j < n
        invariant i + 1 <= j && (n > i ==> j <= n)
        invariant forall k :: 0 <= k < |r| ==> 0 <= r[k].0 < r[k].1 < n && LexLess(r[k], (i, j))
        invariant StrictlySorted(r)
        invariant p.num <= 0 ==> r == []
        invariant p.num >= p.den ==> forall a, b :: ((0 <= a < i && a < b < n) || (a == i && i < b < j)) ==> (a, b) in r
      {
        var keep := random.NextDoubleBelow(p);
        if keep {
          r := r + [(i, j)];
        }
        j := j + 1;
      }
      i := i + 1;
    }
  }

  /**
   * The ordered pairs `(i, j)` with `i != j`, both below `n`, each kept when
   * its draw falls below `p`; no draw is made on the diagonal. This is the
   * conflict loop of `DDSPCGraphGenerator.GenerateGraph`.
   */
  method OffDiagonalPairs(n: int, p: Ratio, random: Random) returns (r: seq<Pair>)
    requires p.den > 0
    modifies random
    ensures forall k :: 0 <= k < |r| ==> 0 <= r[k].0 < n && 0 <= r[k].1 < n && r[k].0 != r[k].1
    ensures StrictlySorted(r)
    ensures p.num <= 0 ==> r == []
    ensures p.num >= p.den ==> forall a, b :: 0 <= a < n && 0 <= b < n && a != b ==> (a, b) in r
  {
    r := [];
    var i := 0;
    while i < n
      invariant 0 <= i && (n >= 0 ==> i <= n)
      invariant forall k :: 0 <= k < |r| ==> 0 <= r[k].0 < i && 0 <= r[k].1 < n && r[k].0 != r[k].1
      invariant StrictlySorted(r)
      invariant p.num <= 0 ==> r == []
      invariant p.num >= p.den ==> forall a, b :: 0 <= a < i && 0 <= b < n && a != b ==> (a, b) in r
    {
      var j := 0;
      while j < n
        invariant 0 <= j <= n
        invariant forall k :: 0 <= k < |r| ==> 0 <= r[k].0 <= i && 0 <= r[k].1 < n && r[k].0 != r[k].1 && LexLess(r[k], (i, j))
        invariant StrictlySorted(r)
        invariant p.num <= 0 ==> r == []
        invariant p.num >= p.den ==>
                    forall a, b :: ((0 <= a < i && 0 <= b < n) || (a == i && 0 <= b < j)) && a != b ==> (a, b) in r
      {
        if i != j {
          var keep := random.NextDoubleBelow(p);
          if keep {
            r := r + [(i, j)];
          }
        }
        j := j + 1;
      }
      i := i + 1;
    }
  }
}
