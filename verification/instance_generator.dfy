/**
 * `InstanceGenerator`: seeded cyclic instances and the line-based instance
 * file format.
 */
module InstanceGenerator {
  import opened Data
  import opened Randomness
  import opened Text
  import opened Connectivity
  import CyclicGraph

  /**
   * `GenerateCyclicGraph`: the cycle `0 - 1 - ... - (n-1) - 0` and up to
   * `maxConflicts` conflicts between distinct even nodes, drawn from a
   * generator seeded with `seed`. The instance is a function of the three
   * arguments alone: the same seed gives the same instance.
   */
  method GenerateCyclicGraph(numNodes: int, maxConflicts: int, seed: seq<nat>) returns (input: Input)
    requires numNodes >= 0
    ensures input.numNodes == numNodes && CyclicGraph.IsCycle(input.edges, numNodes)
    ensures input.conflicts == CyclicGraph.DrawnConflicts(numNodes, if maxConflicts > 0 then maxConflicts else 0, seed)
    ensures |input.conflicts| <= (if maxConflicts > 0 then maxConflicts else 0)
    ensures forall k :: 0 <= k < |input.conflicts| ==> CyclicGraph.EvenConflict(input.conflicts[k], numNodes)
    ensures WellFormed(input) && Connected(input)
  {
    var random := new Random(seed);
    input := CyclicGraph.Generate(numNodes, maxConflicts, random);
    CyclicGraph.CycleConnectedWellFormed(input);
  }

  /** The `StreamWriter` of an instance file: the lines written so far. */
  class LineWriter {
    var lines: seq<string>

    constructor ()
      ensures lines == []
    {
      lines := [];
    }

    method WriteLine(s: string)
      modifies this
      ensures lines == old(lines) + [s]
    {
      lines := lines + [s];
    }
  }

  /** The `"u v"` line of an edge or a conflict. */
  function PairLine(p: Pair): string
  {
    IntToString(p.0) + " " + IntToString(p.1)
  }

  /** One line per pair, in list order. */
  function PairLines(ps: seq<Pair>): (r: seq<string>)
    ensures |r| == |ps|
  {
    seq(|ps|, k requires 0 <= k < |ps| => PairLine(ps[k]))
  }

  /** A list's count line followed by one line per pair. */
  function SectionLines(ps: seq<Pair>): (r: seq<string>)
    ensures |r| == 1 + |ps|
  {
    [IntToString(|ps|)] + PairLines(ps)
  }

  /**
   * The file `SaveInstance` writes: the node count, the edge count, one line
   * per edge, the conflict count and one line per conflict.
   */
  function InstanceLines(input: Input): (r: seq<string>)
    ensures |r| == 3 + |input.edges| + |input.conflicts|
  {
    [IntToString(input.numNodes)] + SectionLines(input.edges) + SectionLines(input.conflicts)
  }

  lemma PairLinesSnoc(ps: seq<Pair>, k: nat)
    requires k < |ps|
    ensures PairLines(ps[..k + 1]) == PairLines(ps[..k]) + [PairLine(ps[k])]
  {
    var longer := PairLines(ps[..k + 1]);
    var shorter := PairLines(ps[..k]);
    forall i | 0 <= i < k ensures longer[i] == shorter[i] {
      assert ps[..k + 1][i] == ps[..k][i];
    }
    Snoc(longer, shorter, PairLine(ps[k]));
  }

  /**
   * A sequence that agrees with `init` and then ends in `last` is `init + [last]`.
   * Stated apart because PairLinesSnoc, with this equation asserted inline,
   * runs out of resource.
   */
  lemma Snoc<T>(s: seq<T>, init: seq<T>, last: T)
    requires |s| == |init| + 1 && s[|init|] == last
    requires forall i :: 0 <= i < |init| ==> s[i] == init[i]
    ensures s == init + [last]
  {
  }

  /** Writes one line per pair, in order. */
  method WritePairs(ps: seq<Pair>, writer: LineWriter)
    modifies writer
    ensures writer.lines == old(writer.lines) + PairLines(ps)
  {
    for k := 0 to |ps|
      invariant writer.lines == old(writer.lines) + PairLines(ps[..k])
    {
      PairLinesSnoc(ps, k);
      writer.WriteLine(PairLine(ps[k]));
    }
    assert ps[..|ps|] == ps;
  }

  /** Writes the count line of a list, then its pair lines. */
  method WriteSection(ps: seq<Pair>, writer: LineWriter)
    modifies writer
    ensures writer.lines == old(writer.lines) + SectionLines(ps)
  {
    ghost var start := writer.lines;
    var count := IntToString(|ps|);
    writer.WriteLine(count);
    WritePairs(ps, writer);
    Associate(start, [count], PairLines(ps));
  }

  /** `SaveInstance`, with the file as the writer's line list. */
  method SaveInstance(input: Input, writer: LineWriter)
    modifies writer
    ensures writer.lines == old(writer.lines) + InstanceLines(input)
  {
    ghost var start := writer.lines;
    writer.WriteLine(IntToString(input.numNodes));
    WriteSection(input.edges, writer);
    WriteSection(input.conflicts, writer);
    Regroup(start, [IntToString(input.numNodes)], SectionLines(input.edges), SectionLines(input.conflicts));
  }

  /**
   * Regrouping of the written lines. WriteSection and SaveInstance state their
   * new `writer.lines` grouped as the specification functions build them; with
   * the regrouping asserted inline (in the heap context of a method) both run
   * out of resource, as a lemma call they do not.
   */
  lemma Associate<T>(a: seq<T>, b: seq<T>, c: seq<T>)
    ensures a + b + c == a + (b + c)
  {
  }

  lemma Regroup<T>(a: seq<T>, b: seq<T>, c: seq<T>, d: seq<T>)
    ensures a + b + c + d == a + (b + c + d)
  {
  }
}
