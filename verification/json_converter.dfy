/**
 * `TupleListJsonConverter`: a list of `(int, int)` pairs as a JSON array of
 * objects `{"Item1": a, "Item2": b}`, modelled over the token stream that
 * `Utf8JsonReader` and `Utf8JsonWriter` work on.
 */
module TupleListJsonConverter {
  import opened Wrappers
  import opened Data

  /** The JSON tokens. Numbers are integers; fractions and exponents are not modelled. */
  datatype Token =
    | StartArray
    | EndArray
    | StartObject
    | EndObject
    | PropertyName(name: string)
    | Number(value: int)
    | Text(text: string)
    | True
    | False
    | Null

  /** The exceptions `Read` can end in. */
  datatype JsonError =
    | ExpectedStartArray    // "Expected StartArray token"
    | ExpectedStartObject   // "Expected StartObject token"
    | ExpectedPropertyName  // "Expected PropertyName token"
    | NotANumber            // `GetInt32` on a token that is not a number
    | NotAnInt32            // `GetInt32` on a number outside the 32-bit range
    | UnexpectedEnd         // "Unexpected end of JSON"

  /**
   * Where the reader stands after `Read()` from `p`: the next token, or `p`
   * itself when there is none, since a failed `Read()` leaves the current
   * token in place.
   */
  function Advance(tokens: seq<Token>, p: nat): (q: nat)
    requires p < |tokens|
    ensures p <= q < |tokens|
    ensures q == p <==> p + 1 == |tokens|
  {
    if p + 1 < |tokens| then p + 1 else p
  }

  /** `GetInt32()` on a token. */
  function Int32Of(t: Token): (r: Result<int, JsonError>)
    ensures r.Ok? <==> t.Number? && IsInt32(t.value)
    ensures r.Ok? ==> r.value == t.value
  {
    match t
    case Number(v) => if IsInt32(v) then Ok(v) else Err(NotAnInt32)
    case _ => Err(NotANumber)
  }

  /**
   * The element loop from position `p`, with `acc` the pairs read so far:
   * `Read()`; `EndArray` ends the list; otherwise `StartObject`, a property
   * name, the first number, a property name, the second number, and one
   * more token that is skipped unchecked. The names are not compared with
   * "Item1" and "Item2".
   */
  function ReadElements(tokens: seq<Token>, p: nat, acc: seq<Pair>): (r: Result<seq<Pair>, JsonError>)
    requires p < |tokens|
    ensures r.Ok? ==> |r.value| >= |acc| && r.value[..|acc|] == acc
    decreases |tokens| - p
  {
    if p + 1 == |tokens| then Err(UnexpectedEnd)
    else
      var open := p + 1;
      if tokens[open] == EndArray then Ok(acc)
      else if tokens[open] != StartObject then Err(ExpectedStartObject)
      else
        var name1 := Advance(tokens, open);
        if !tokens[name1].PropertyName? then Err(ExpectedPropertyName)
        else
          var value1 := Advance(tokens, name1);
          var item1 :- Int32Of(tokens[value1]);
          var name2 := Advance(tokens, value1);
          if !tokens[name2].PropertyName? then Err(ExpectedPropertyName)
          else
            var value2 := Advance(tokens, name2);
            var item2 :- Int32Of(tokens[value2]);
            var close := Advance(tokens, value2);
            var r := ReadElements(tokens, close, acc + [(item1, item2)]);
            assert r.Ok? ==> r.value[..|acc|] == (acc + [(item1, item2)])[..|acc|];
            r
  }

  /** What `Read` makes of the tokens when the reader stands at `p`. */
  function Decode(tokens: seq<Token>, p: nat): Result<seq<Pair>, JsonError>
    requires p < |tokens|
  {
    if tokens[p] != StartArray then Err(ExpectedStartArray) else ReadElements(tokens, p, [])
  }

  /** The `Utf8JsonReader`: the token stream and the current position. */
  class JsonReader {
    const tokens: seq<Token>
    var pos: nat

    constructor (tokens: seq<Token>, pos: nat)
      requires pos < |tokens|
      ensures this.tokens == tokens && this.pos == pos
    {
      this.tokens := tokens;
      this.pos := pos;
    }

    /** `TokenType`: the current token. */
    function TokenType(): Token
      reads this
      requires pos < |tokens|
    {
      tokens[pos]
    }

    /** `Read()`: moves to the next token; false, and no move, at the end. */
    method Read() returns (more: bool)
      requires pos < |tokens|
      modifies this
      ensures pos == Advance(tokens, old(pos))
      ensures more <==> old(pos) + 1 < |tokens|
    {
      more := pos + 1 < |tokens|;
      if more {
        pos := pos + 1;
      }
    }

    /** `GetInt32()` on the current token. */
    method GetInt32() returns (r: Result<int, JsonError>)
      requires pos < |tokens|
      ensures r == Int32Of(tokens[pos])
    {
      match tokens[pos]
      case Number(v) =>
        if IsInt32(v) {
          return Ok(v);
        }
        return Err(NotAnInt32);
      case _ =>
        return Err(NotANumber);
    }
  }

  /** One pass of the element loop, after its `Read()` returned true. */
  method ReadElement(reader: JsonReader, ghost acc: seq<Pair>)
    returns (done: bool, r: Result<Pair, JsonError>)
    requires reader.pos < |reader.tokens| && reader.pos > 0
    modifies reader
    ensures reader.pos < |reader.tokens|
    ensures done ==> r.Ok? && reader.pos == old(reader.pos)
    ensures done <==> ReadElements(reader.tokens, old(reader.pos) - 1, acc) == Ok(acc) && reader.tokens[old(reader.pos)] == EndArray
    ensures !done && r.Err? ==> ReadElements(reader.tokens, old(reader.pos) - 1, acc) == Err(r.error)
    ensures !done && r.Ok? ==> old(reader.pos) < reader.pos
    ensures !done && r.Ok? ==>
              ReadElements(reader.tokens, old(reader.pos) - 1, acc) == ReadElements(reader.tokens, reader.pos, acc + [r.value])
  {
    if reader.TokenType() == EndArray {
      return true, Ok((0, 0));
    }
    if reader.TokenType() != StartObject {
      return false, Err(ExpectedStartObject);
    }
    var _ := reader.Read();
    if !reader.TokenType().PropertyName? {
      return false, Err(ExpectedPropertyName);
    }
    var _ := reader.Read();
    var item1 := reader.GetInt32();
    if item1.Err? {
      return false, Err(item1.error);
    }
    var _ := reader.Read();
    if !reader.TokenType().PropertyName? {
      return false, Err(ExpectedPropertyName);
    }
    var _ := reader.Read();
    var item2 := reader.GetInt32();
    if item2.Err? {
      return false, Err(item2.error);
    }
    var _ := reader.Read();
    return false, Ok((item1.value, item2.value));
  }

  /** `Read`: the pairs of the array the reader stands on. */
  method Read(reader: JsonReader) returns (r: Result<seq<Pair>, JsonError>)
    requires reader.pos < |reader.tokens|
    modifies reader
    ensures r == Decode(reader.tokens, old(reader.pos))
    ensures r.Ok? ==> reader.pos < |reader.tokens| && reader.tokens[reader.pos] == EndArray
  {
    var result: seq<Pair> := [];
    if reader.TokenType() != StartArray {
      return Err(ExpectedStartArray);
    }
    while true
      invariant reader.pos < |reader.tokens|
      invariant Decode(reader.tokens, old(reader.pos)) == ReadElements(reader.tokens, reader.pos, result)
      decreases |reader.tokens| - reader.pos
    {
      var more := reader.Read();
      if !more {
        return Err(UnexpectedEnd);
      }
      var done, element := ReadElement(reader, result);
      if done {
        return Ok(result);
      }
      if element.Err? {
        return Err(element.error);
      }
      result := result + [element.value];
    }
  }

  /** The tokens of one pair. */
  function Element(p: Pair): (r: seq<Token>)
    ensures |r| == 6
  {
    [StartObject, PropertyName("Item1"), Number(p.0), PropertyName("Item2"), Number(p.1), EndObject]
  }

  /** The tokens of the pairs, in order. */
  function Elements(xs: seq<Pair>): (r: seq<Token>)
    ensures |r| == 6 * |xs|
  {
    if xs == [] then [] else Elements(xs[..|xs| - 1]) + Element(xs[|xs| - 1])
  }

  /** What `Write` emits for a list. */
  function Encode(xs: seq<Pair>): (r: seq<Token>)
    ensures |r| == 6 * |xs| + 2
  {
    [StartArray] + Elements(xs) + [EndArray]
  }

  /** The `Utf8JsonWriter`: the tokens written so far. */
  class JsonWriter {
    var tokens: seq<Token>

    constructor ()
      ensures tokens == []
    {
      tokens := [];
    }

    method WriteStartArray()
      modifies this
      ensures tokens == old(tokens) + [StartArray]
    {
      tokens := tokens + [StartArray];
    }

    method WriteEndArray()
      modifies this
      ensures tokens == old(tokens) + [EndArray]
    {
      tokens := tokens + [EndArray];
    }

    method WriteStartObject()
      modifies this
      ensures tokens == old(tokens) + [StartObject]
    {
      tokens := tokens + [StartObject];
    }

    method WriteEndObject()
      modifies this
      ensures tokens == old(tokens) + [EndObject]
    {
      tokens := tokens + [EndObject];
    }

    /** `WriteNumber(name, value)`: the property name, then the number. */
    method WriteNumber(name: string, value: int)
      modifies this
      ensures tokens == old(tokens) + [PropertyName(name), Number(value)]
    {
      tokens := tokens + [PropertyName(name), Number(value)];
    }
  }

  /** The loop body of `Write`: one object. */
  method WriteElement(writer: JsonWriter, p: Pair)
    modifies writer
    ensures writer.tokens == old(writer.tokens) + Element(p)
  {
    writer.WriteStartObject();
    writer.WriteNumber("Item1", p.0);
    writer.WriteNumber("Item2", p.1);
    writer.WriteEndObject();
  }

  /** `Write`: the array of objects, one per pair, in order. */
  method Write(writer: JsonWriter, value: seq<Pair>)
    modifies writer
    ensures writer.tokens == old(writer.tokens) + Encode(value)
  {
    writer.WriteStartArray();
    for k := 0 to |value|
      invariant writer.tokens == old(writer.tokens) + [StartArray] + Elements(value[..k])
    {
      assert value[..k + 1][..k] == value[..k];
      WriteElement(writer, value[k]);
    }
    assert value[..|value|] == value;
    writer.WriteEndArray();
  }

  /** Both components of every pair fit in 32 bits. */
  predicate Int32Pairs(xs: seq<Pair>)
  {
    forall k :: 0 <= k < |xs| ==> IsInt32(xs[k].0) && IsInt32(xs[k].1)
  }

  /** The `k`-th object of `Elements(xs)` is `Element(xs[k])`. */
  lemma {:induction false} ElementsAt(xs: seq<Pair>, k: nat, j: nat)
    requires k < |xs| && j < 6
    ensures Elements(xs)[6 * k + j] == Element(xs[k])[j]
    decreases |xs|
  {
    var init := xs[..|xs| - 1];
    assert Elements(xs) == Elements(init) + Element(xs[|xs| - 1]);
    if k < |xs| - 1 {
      ElementsAt(init, k, j);
    }
  }

  /** The tokens of the `k`-th object of an encoded list, wherever the list sits in a stream. */
  lemma EncodedObjectAt(pre: seq<Token>, xs: seq<Pair>, rest: seq<Token>, k: nat)
    requires k < |xs|
    ensures var t := pre + Encode(xs) + rest; var b := |pre| + 1 + 6 * k;
      && b + 6 < |t|
      && t[b] == StartObject
      && t[b + 1] == PropertyName("Item1")
      && t[b + 2] == Number(xs[k].0)
      && t[b + 3] == PropertyName("Item2")
      && t[b + 4] == Number(xs[k].1)
      && t[b + 5] == EndObject
  {
    var t := pre + Encode(xs) + rest;
    var b := |pre| + 1 + 6 * k;
    var e := Element(xs[k]);
    forall j | 0 <= j < 6 ensures t[b + j] == e[j] {
      ElementsAt(xs, k, j);
      assert t[b + j] == Encode(xs)[1 + 6 * k + j];
    }
    assert t[b] == e[0] && t[b + 1] == e[1] && t[b + 2] == e[2];
    assert t[b + 3] == e[3] && t[b + 4] == e[4] && t[b + 5] == e[5];
  }

  /** The closing token of an encoded list. */
  lemma EncodedEndAt(pre: seq<Token>, xs: seq<Pair>, rest: seq<Token>)
    ensures var t := pre + Encode(xs) + rest; |pre| + 1 + 6 * |xs| < |t| && t[|pre| + 1 + 6 * |xs|] == EndArray
  {
    var t := pre + Encode(xs) + rest;
    assert t[|pre| + 1 + 6 * |xs|] == Encode(xs)[1 + 6 * |xs|];
  }

  /** The six tokens after `p` are an object holding the pair `x`. */
  predicate ObjectAt(t: seq<Token>, p: nat, x: Pair)
  {
    && p + 6 < |t| && IsInt32(x.0) && IsInt32(x.1)
    && t[p + 1] == StartObject && t[p + 2].PropertyName? && t[p + 3] == Number(x.0)
    && t[p + 4].PropertyName? && t[p + 5] == Number(x.1)
  }

  /** One well-formed object after `p` is read as one more pair. */
  lemma ReadObject(t: seq<Token>, p: nat, acc: seq<Pair>, x: Pair)
    requires ObjectAt(t, p, x)
    ensures ReadElements(t, p, acc) == ReadElements(t, p + 6, acc + [x])
  {
  }

  /** After the first `i` objects of a run ended by `EndArray`, the element loop reads the rest of the run. */
  lemma {:induction false} ReadObjects(t: seq<Token>, b: nat, xs: seq<Pair>, i: nat)
    requires i <= |xs|
    requires forall k :: 0 <= k < |xs| ==> ObjectAt(t, b + 6 * k, xs[k])
    requires b + 6 * |xs| + 1 < |t| && t[b + 6 * |xs| + 1] == EndArray
    ensures ReadElements(t, b + 6 * i, xs[..i]) == Ok(xs)
    decreases |xs| - i
  {
    if i == |xs| {
      assert xs[..i] == xs;
    } else {
      ReadObject(t, b + 6 * i, xs[..i], xs[i]);
      ReadObjects(t, b, xs, i + 1);
      assert xs[..i] + [xs[i]] == xs[..i + 1];
    }
  }

  /** `Read` recovers what `Write` wrote, whatever precedes or follows it in the stream. */
  lemma ReadWriteRoundTrip(pre: seq<Token>, xs: seq<Pair>, rest: seq<Token>)
    requires Int32Pairs(xs)
    ensures |pre| < |pre + Encode(xs) + rest|
    ensures Decode(pre + Encode(xs) + rest, |pre|) == Ok(xs)
  {
    var t := pre + Encode(xs) + rest;
    EncodedEndAt(pre, xs, rest);
    forall k | 0 <= k < |xs| ensures ObjectAt(t, |pre| + 6 * k, xs[k]) {
      EncodedObjectAt(pre, xs, rest, k);
    }
    ReadObjects(t, |pre|, xs, 0);
    assert t[|pre|] == StartArray;
  }

  /** A successful element loop never reaches the end of the stream, so tokens after it change nothing. */
  lemma {:induction false} ReadElementsIgnoreTrailing(t: seq<Token>, p: nat, acc: seq<Pair>, more: seq<Token>)
    requires p < |t| && ReadElements(t, p, acc).Ok?
    ensures ReadElements(t + more, p, acc) == ReadElements(t, p, acc)
    decreases |t| - p
  {
    var u := t + more;
    var open := p + 1;
    if t[open] != EndArray {
      var name1 := open + 1;
      var value1 := name1 + 1;
      var name2 := value1 + 1;
      var value2 := name2 + 1;
      var close := value2 + 1;
      assert close < |t|;
      assert u[open] == t[open] && u[name1] == t[name1] && u[value1] == t[value1];
      assert u[name2] == t[name2] && u[value2] == t[value2];
      var item1 := t[value1].value;
      var item2 := t[value2].value;
      ReadElementsIgnoreTrailing(t, close, acc + [(item1, item2)], more);
    }
  }

  /** Tokens after a successfully read list do not change what `Read` returns. */
  lemma DecodeIgnoresTrailing(t: seq<Token>, p: nat, more: seq<Token>)
    requires p < |t| && Decode(t, p).Ok?
    ensures Decode(t + more, p) == Decode(t, p)
  {
    ReadElementsIgnoreTrailing(t, p, [], more);
  }

  /**
   * The property names are never compared and the token after the second
   * number is skipped unchecked, so a reordered or malformed object is still
   * read positionally.
   */
  lemma NamesAndCloseUnchecked()
    ensures Decode([StartArray, StartObject, PropertyName("b"), Number(2), PropertyName("a"), Number(1), Number(9), EndArray], 0)
            == Ok([(2, 1)])
  {
    var t := [StartArray, StartObject, PropertyName("b"), Number(2), PropertyName("a"), Number(1), Number(9), EndArray];
    assert ReadElements(t, 6, [(2, 1)]) == Ok([(2, 1)]);
  }

  /** A number outside the 32-bit range is refused, as `GetInt32` throws. */
  lemma WideNumberRefused()
    ensures Decode([StartArray, StartObject, PropertyName("Item1"), Number(0x8000_0000)], 0) == Err(NotAnInt32)
  {
  }
}
