/**
 * `InstanceLoader.LoadInstance`: reads an instance file line by line: the
 * node count, the edge count and that many edge lines, the conflict count
 * and that many conflict lines. Lines after the last conflict are not read.
 */
module InstanceLoader {
  import opened Wrappers
  import opened Data
  import opened Text
  import opened InstanceGenerator

  /** The exceptions `LoadInstance` can end in. */
  datatype LoadError =
    | EndOfFile    // `ReadLine` returned null and the null was parsed or split
    | BadInteger   // `int.Parse` threw a format or overflow exception
    | MissingField // a pair line had no second piece, so `parts[1]` was out of range

  /** The `StreamReader`: the file's lines and the index of the next one. */
  class LineReader {
    const lines: seq<string>
    var pos: nat

    constructor (lines: seq<string>)
      ensures this.lines == lines && pos == 0
    {
      this.lines := lines;
      pos := 0;
    }

    /** `ReadLine`: the next line, or `None` (null) at the end of the file. */
    method ReadLine() returns (line: Option<string>)
      modifies this
      ensures line == LineAt(lines, old(pos))
      ensures pos == if old(pos) < |lines| then old(pos) + 1 else old(pos)
    {
      if pos < |lines| {
        line := Some(lines[pos]);
        pos := pos + 1;
      } else {
        line := None;
      }
    }
  }

  /** Line `i` of the file, if there is one. */
  function LineAt(lines: seq<string>, i: nat): Option<string>
  {
    if i < |lines| then Some(lines[i]) else None
  }

  /** `int.Parse(reader.ReadLine())`. */
  function ParseCount(line: Option<string>): (r: Result<int, LoadError>)
    ensures r.Ok? ==> IsInt32(r.value)
  {
    match line
    case None => Err(EndOfFile)
    case Some(s) =>
      match ParseInt(s)
      case None => Err(BadInteger)
      case Some(v) => Ok(v)
  }

  /**
   * A pair line: `int.Parse` of the first white-space separated piece, then
   * the second piece is looked up and parsed. Pieces after the second are
   * ignored. The pieces are those of `Split` (see `PairLineSplits`).
   */
  function ParsePairLine(line: Option<string>): (r: Result<Pair, LoadError>)
    ensures r.Ok? ==> IsInt32(r.value.0) && IsInt32(r.value.1)
  {
    match line
    case None => Err(EndOfFile)
    case Some(s) =>
      var firstEnd := SkipWord(s, 0);
      match ParseInt(s[..firstEnd])
      case None => Err(BadInteger)
      case Some(a) =>
        if firstEnd == |s| then Err(MissingField)
        else
          match ParseInt(s[firstEnd + 1..SkipWord(s, firstEnd + 1)])
          case None => Err(BadInteger)
          case Some(b) => Ok((a, b))
  }

  /** `ParsePairLine` is the C# line `(int.Parse(parts[0]), int.Parse(parts[1]))` with `parts = s.Split()`. */
  lemma PairLineSplits(s: string)
    ensures var parts := Split(s);
            ParsePairLine(Some(s)) ==
              match ParseInt(parts[0])
              case None => Err(BadInteger)
              case Some(a) =>
                if |parts| < 2 then Err(MissingField)
                else
                  match ParseInt(parts[1])
                  case None => Err(BadInteger)
                  case Some(b) => Ok((a, b))
  {
    SplitFirstPieces(s);
  }

  /** The first `count` pair lines from line `start` on, or the first failure among them. */
  function ParsePairs(lines: seq<string>, start: nat, count: nat): (r: Result<seq<Pair>, LoadError>)
    ensures r.Ok? ==> |r.value| == count
    decreases count
  {
    if count == 0 then Ok([])
    else
      var prefix :- ParsePairs(lines, start, count - 1);
      var p :- ParsePairLine(LineAt(lines, start + count - 1));
      Ok(prefix + [p])
  }

  /** A negative count makes the reading loop run zero times. */
  function Rounds(count: int): nat
  {
    if count > 0 then count else 0
  }

  /** A count line at `at`, then that many pair lines. */
  function ParseSection(lines: seq<string>, at: nat): Result<seq<Pair>, LoadError>
  {
    var count :- ParseCount(LineAt(lines, at));
    ParsePairs(lines, at + 1, Rounds(count))
  }

  /** What `LoadInstance` makes of a file. */
  function ParseInstance(lines: seq<string>): Result<Input, LoadError>
  {
    var numNodes :- ParseCount(LineAt(lines, 0));
    var edges :- ParseSection(lines, 1);
    var conflicts :- ParseSection(lines, 2 + |edges|);
    Ok(Input(numNodes, edges, conflicts))
  }

  /** Once a pair line fails, reading more lines cannot undo the failure. */
  lemma {:induction false} FailureSticks(lines: seq<string>, start: nat, count: nat, more: nat)
    requires count <= more && ParsePairs(lines, start, count).Err?
    ensures ParsePairs(lines, start, more) == ParsePairs(lines, start, count)
    decreases more
  {
    if more > count {
      FailureSticks(lines, start, count, more - 1);
    }
  }

  /** `int.Parse(reader.ReadLine())` on the reader. */
  method ReadCount(reader: LineReader) returns (r: Result<int, LoadError>)
    modifies reader
    ensures r == ParseCount(LineAt(reader.lines, old(reader.pos)))
    ensures r.Ok? ==> reader.pos == old(reader.pos) + 1
  {
    var line := reader.ReadLine();
    if line.None? {
      return Err(EndOfFile);
    }
    var v := ParseInt(line.value);
    if v.None? {
      return Err(BadInteger);
    }
    return Ok(v.value);
  }

  /** `ReadLine` and the parse of one pair line. */
  method ReadPair(reader: LineReader) returns (r: Result<Pair, LoadError>)
    modifies reader
    ensures r == ParsePairLine(LineAt(reader.lines, old(reader.pos)))
    ensures r.Ok? ==> reader.pos == old(reader.pos) + 1
  {
    var line := reader.ReadLine();
    r := ParsePairLine(line);
  }

  /** The counted loop: `count` pair lines, appended in file order. */
  method ReadPairs(reader: LineReader, count: int) returns (r: Result<seq<Pair>, LoadError>)
    modifies reader
    ensures r == ParsePairs(reader.lines, old(reader.pos), Rounds(count))
    ensures r.Ok? ==> reader.pos == old(reader.pos) + Rounds(count)
  {
    ghost var start := reader.pos;
    var pairs: seq<Pair> := [];
    var i := 0;
    while i < count
      invariant 0 <= i <= Rounds(count)
      invariant reader.pos == start + i
      invariant ParsePairs(reader.lines, start, i) == Ok(pairs)
    {
      var pair := ReadPair(reader);
      if pair.Err? {
        FailureSticks(reader.lines, start, i + 1, Rounds(count));
        return Err(pair.error);
      }
      pairs := pairs + [pair.value];
      i := i + 1;
    }
    return Ok(pairs);
  }

  /** One section: the count line, then the counted loop. */
  method ReadSection(reader: LineReader) returns (r: Result<seq<Pair>, LoadError>)
    modifies reader
    ensures r == ParseSection(reader.lines, old(reader.pos))
    ensures r.Ok? ==> reader.pos == old(reader.pos) + 1 + |r.value|
  {
    var count := ReadCount(reader);
    if count.Err? {
      return Err(count.error);
    }
    r := ReadPairs(reader, count.value);
  }

  /** `LoadInstance`, with the file given as its lines. */
  method LoadInstance(file: seq<string>) returns (r: Result<Input, LoadError>)
    ensures r == ParseInstance(file)
  {
    var reader := new LineReader(file);
    var numNodes := ReadCount(reader);
    if numNodes.Err? {
      return Err(numNodes.error);
    }
    var edges := ReadSection(reader);
    if edges.Err? {
      return Err(edges.error);
    }
    var conflicts := ReadSection(reader);
    if conflicts.Err? {
      return Err(conflicts.error);
    }
    return Ok(Input(numNodes.value, edges.value, conflicts.value));
  }

  /** A written count line reads back as the count. */
  lemma CountLineRoundTrip(x: int)
    requires IsInt32(x)
    ensures ParseCount(Some(IntToString(x))) == Ok(x)
  {
    ParseIntToString(x);
  }

  /** A written pair line reads back as the pair. */
  lemma PairLineRoundTrip(p: Pair)
    requires IsInt32(p.0) && IsInt32(p.1)
    ensures ParsePairLine(Some(PairLine(p))) == Ok(p)
  {
    var a, b := IntToString(p.0), IntToString(p.1);
    var s := a + " " + b;
    assert forall k :: 0 <= k < |a| ==> s[k] == a[k];
    assert forall k :: |a| + 1 <= k < |s| ==> s[k] == b[k - |a| - 1];
    SkipWordPrefix(s, 0, |a|);
    SkipWordAll(s, |a| + 1);
    assert s[..|a|] == a && s[|a| + 1..|s|] == b;
    ParseIntToString(p.0);
    ParseIntToString(p.1);
  }

  /** Pair lines that each read back as a pair read back, together, as the list of pairs. */
  lemma {:induction false} PairsRoundTrip(lines: seq<string>, start: nat, ps: seq<Pair>)
    requires forall k :: 0 <= k < |ps| ==> ParsePairLine(LineAt(lines, start + k)) == Ok(ps[k])
    ensures ParsePairs(lines, start, |ps|) == Ok(ps)
    decreases |ps|
  {
    if ps != [] {
      var n := |ps| - 1;
      PairsRoundTrip(lines, start, ps[..n]);
      assert ParsePairLine(LineAt(lines, start + n)) == Ok(ps[n]);
      assert ps[..n] + [ps[n]] == ps;
    }
  }

  /** Every number the instance holds fits in an `int`, as it does in C#. */
  predicate Int32Instance(input: Input)
  {
    && IsInt32(input.numNodes)
    && |input.edges| <= IntMax && |input.conflicts| <= IntMax
    && (forall k :: 0 <= k < |input.edges| ==> IsInt32(input.edges[k].0) && IsInt32(input.edges[k].1))
    && (forall k :: 0 <= k < |input.conflicts| ==> IsInt32(input.conflicts[k].0) && IsInt32(input.conflicts[k].1))
  }

  /** A written section reads back as its pairs. */
  lemma SectionRoundTrip(lines: seq<string>, at: nat, ps: seq<Pair>)
    requires at + 1 + |ps| <= |lines| && |ps| <= IntMax
    requires lines[at] == IntToString(|ps|)
    requires forall k :: 0 <= k < |ps| ==> lines[at + 1 + k] == PairLine(ps[k])
    requires forall k :: 0 <= k < |ps| ==> IsInt32(ps[k].0) && IsInt32(ps[k].1)
    ensures ParseSection(lines, at) == Ok(ps)
  {
    CountLineRoundTrip(|ps|);
    forall k | 0 <= k < |ps| ensures ParsePairLine(LineAt(lines, at + 1 + k)) == Ok(ps[k]) {
      PairLineRoundTrip(ps[k]);
    }
    PairsRoundTrip(lines, at + 1, ps);
  }

  /**
   * The pieces of a four-part concatenation, found again by slicing.
   * LoadSaveRoundTrip locates the three sections of the saved file with it;
   * asserting these slices inline there runs out of resource.
   */
  lemma SliceParts<T>(a: seq<T>, b: seq<T>, c: seq<T>, d: seq<T>)
    ensures (a + b + c + d)[..|a|] == a
    ensures (a + b + c + d)[|a|..|a| + |b|] == b
    ensures (a + b + c + d)[|a| + |b|..|a| + |b| + |c|] == c
  {
  }

  /** A slice that is a head and a rest, read index by index. */
  lemma SliceAt<T>(lines: seq<T>, at: nat, head: T, rest: seq<T>)
    requires at + 1 + |rest| <= |lines| && lines[at..at + 1 + |rest|] == [head] + rest
    ensures lines[at] == head
    ensures forall k :: 0 <= k < |rest| ==> lines[at + 1 + k] == rest[k]
  {
    var slice := lines[at..at + 1 + |rest|];
    assert slice[0] == lines[at];
    forall k | 0 <= k < |rest| ensures lines[at + 1 + k] == rest[k] {
      assert slice[1 + k] == lines[at + 1 + k];
    }
  }

  /** The lines of a written section, found at their place in a file. */
  lemma SectionLinesAt(lines: seq<string>, at: nat, ps: seq<Pair>)
    requires at + 1 + |ps| <= |lines| && lines[at..at + 1 + |ps|] == SectionLines(ps)
    ensures lines[at] == IntToString(|ps|)
    ensures forall k :: 0 <= k < |ps| ==> lines[at + 1 + k] == PairLine(ps[k])
  {
    var pairLines := PairLines(ps);
    SliceAt(lines, at, IntToString(|ps|), pairLines);
    forall k | 0 <= k < |ps| ensures lines[at + 1 + k] == PairLine(ps[k]) {
      assert pairLines[k] == PairLine(ps[k]);
    }
  }

  /**
   * Loading what `SaveInstance` wrote gives back the instance, whatever
   * lines follow it.
   */
  lemma LoadSaveRoundTrip(input: Input, trailing: seq<string>)
    requires Int32Instance(input)
    ensures ParseInstance(InstanceLines(input) + trailing) == Ok(input)
  {
    var header := [IntToString(input.numNodes)];
    var edgeSection := SectionLines(input.edges);
    var conflictSection := SectionLines(input.conflicts);
    var lines := header + edgeSection + conflictSection + trailing;
    assert InstanceLines(input) + trailing == lines;
    var e := |input.edges|;
    SliceParts(header, edgeSection, conflictSection, trailing);
    assert lines[0] == header[0];
    CountLineRoundTrip(input.numNodes);
    SectionLinesAt(lines, 1, input.edges);
    SectionRoundTrip(lines, 1, input.edges);
    SectionLinesAt(lines, 2 + e, input.conflicts);
    SectionRoundTrip(lines, 2 + e, input.conflicts);
  }

  /** Pair lines read within the file do not change when lines are added after it. */
  lemma {:induction false} PairsIgnoreTrailing(lines: seq<string>, more: seq<string>, start: nat, count: nat)
    requires start + count <= |lines|
    ensures ParsePairs(lines + more, start, count) == ParsePairs(lines, start, count)
    decreases count
  {
    if count > 0 {
      PairsIgnoreTrailing(lines, more, start, count - 1);
      assert LineAt(lines + more, start + count - 1) == LineAt(lines, start + count - 1);
    }
  }

  /** Reading `count > 0` pair lines succeeds only if the file has them all. */
  lemma {:induction false} PairsNeedLines(lines: seq<string>, start: nat, count: nat)
    requires count > 0 && ParsePairs(lines, start, count).Ok?
    ensures start + count <= |lines|
  {
    var p := ParsePairLine(LineAt(lines, start + count - 1));
    assert p.Ok?;
  }

  /** A section that reads successfully lies within the file. */
  lemma SectionNeedsLines(lines: seq<string>, at: nat)
    requires ParseSection(lines, at).Ok?
    ensures at + 1 + |ParseSection(lines, at).value| <= |lines|
  {
    var count := Rounds(ParseCount(LineAt(lines, at)).value);
    if count > 0 {
      PairsNeedLines(lines, at + 1, count);
    }
  }

  /** A section read within the file does not change when lines are added after it. */
  lemma SectionIgnoresTrailing(lines: seq<string>, more: seq<string>, at: nat)
    requires ParseSection(lines, at).Ok?
    ensures ParseSection(lines + more, at) == ParseSection(lines, at)
  {
    SectionNeedsLines(lines, at);
    var count := Rounds(ParseCount(LineAt(lines, at)).value);
    assert LineAt(lines + more, at) == LineAt(lines, at);
    PairsIgnoreTrailing(lines, more, at + 1, count);
  }

  /**
   * A successful load reads `3 + |edges| + |conflicts|` lines; lines after
   * those are ignored.
   */
  lemma TrailingLinesIgnored(lines: seq<string>, more: seq<string>)
    requires ParseInstance(lines).Ok?
    ensures var input := ParseInstance(lines).value;
            3 + |input.edges| + |input.conflicts| <= |lines|
    ensures ParseInstance(lines + more) == ParseInstance(lines)
  {
    assert LineAt(lines + more, 0) == LineAt(lines, 0);
    SectionNeedsLines(lines, 1);
    SectionIgnoresTrailing(lines, more, 1);
    var edges := ParseSection(lines, 1).value;
    SectionNeedsLines(lines, 2 + |edges|);
    SectionIgnoresTrailing(lines, more, 2 + |edges|);
  }
}
