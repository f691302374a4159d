/**
 * The pieces of .NET text handling the instance files rely on: integer
 * formatting (`int.ToString()`), `int.Parse` with the default integer style,
 * and `string.Split()` with no separators.
 */
module Text {
  import opened Wrappers
  import opened Data

  /** The white-space characters `int.Parse` skips: U+0009 to U+000D and the space. */
  predicate IsWhiteSpace(c: char)
  {
    c == ' ' || ('\t' <= c <= '\r')
  }

  predicate IsDigit(c: char)
  {
    '0' <= c <= '9'
  }

  predicate AllDigits(s: string)
  {
    forall k :: 0 <= k < |s| ==> IsDigit(s[k])
  }

  predicate NoWhiteSpace(s: string)
  {
    forall k :: 0 <= k < |s| ==> !IsWhiteSpace(s[k])
  }

  function DigitChar(d: int): (c: char)
    requires 0 <= d < 10
    ensures IsDigit(c) && c as int - '0' as int == d
  {
    ('0' as int + d) as char
  }

  /** The decimal digits of `n`, most significant first, without leading zeros. */
  function NatToString(n: nat): (s: string)
    ensures |s| >= 1 && AllDigits(s)
    ensures s[0] == '0' ==> n == 0
    decreases n
  {
    if n < 10 then [DigitChar(n)] else NatToString(n / 10) + [DigitChar(n % 10)]
  }

  /** `int.ToString()`: a minus sign before the digits of a negative number. */
  function IntToString(x: int): (s: string)
    ensures |s| >= 1 && NoWhiteSpace(s)
    ensures IsDigit(s[|s| - 1])
    ensures (s[0] == '-') == (x < 0)
  {
    var digits := NatToString(if x < 0 then -x else x);
    assert IsDigit(digits[|digits| - 1]);
    if x < 0 then "-" + digits else digits
  }

  /** The phases of `int.Parse`'s scan. */
  datatype Phase = Leading | Signed | Digits | Trailing

  /** The number whose decimal digits are those of `acc` followed by `t`. */
  function Accumulate(acc: int, t: string): int
    decreases |t|
  {
    if t == [] then acc else Accumulate(acc * 10 + (t[0] as int - '0' as int), t[1..])
  }

  /** The signed value if it fits in 32 bits. */
  function Finish(negative: bool, magnitude: int): (r: Option<int>)
    ensures r.Some? ==> IsInt32(r.value)
  {
    var v := if negative then -magnitude else magnitude;
    if IsInt32(v) then Some(v) else None
  }

  /**
   * `int.Parse(s[i..])` from phase `phase`, with `acc` the magnitude read so
   * far: white space, then an optional sign, at least one digit, and white
   * space to the end.
   */
  function Scan(s: string, i: nat, phase: Phase, negative: bool, acc: int): (r: Option<int>)
    requires i <= |s|
    ensures r.Some? ==> IsInt32(r.value)
    decreases |s| - i
  {
    if i == |s| then
      if phase == Digits || phase == Trailing then Finish(negative, acc) else None
    else
      var c := s[i];
      match phase
      case Leading =>
        if IsWhiteSpace(c) then Scan(s, i + 1, Leading, negative, acc)
        else if c == '-' then Scan(s, i + 1, Signed, true, acc)
        else if c == '+' then Scan(s, i + 1, Signed, false, acc)
        else if IsDigit(c) then Scan(s, i + 1, Digits, false, c as int - '0' as int)
        else None
      case Signed =>
        if IsDigit(c) then Scan(s, i + 1, Digits, negative, c as int - '0' as int) else None
      case Digits =>
        if IsDigit(c) then Scan(s, i + 1, Digits, negative, acc * 10 + (c as int - '0' as int))
        else if IsWhiteSpace(c) then Scan(s, i + 1, Trailing, negative, acc)
        else None
      case Trailing =>
        if IsWhiteSpace(c) then Scan(s, i + 1, Trailing, negative, acc) else None
  }

  /**
   * `int.Parse(s)` with the default integer style: optional white space
   * around an optional `+` or `-` sign and at least one decimal digit.
   * `None` stands for the `FormatException` thrown on anything else and for
   * the `OverflowException` thrown outside the 32-bit range.
   */
  function ParseInt(s: string): (r: Option<int>)
    ensures r.Some? ==> IsInt32(r.value)
  {
    Scan(s, 0, Leading, false, 0)
  }

  /** Scanning digits to the end accumulates them all. */
  lemma {:induction false} ScanDigits(s: string, i: nat, negative: bool, acc: int)
    requires i <= |s| && forall k :: i <= k < |s| ==> IsDigit(s[k])
    ensures Scan(s, i, Digits, negative, acc) == Finish(negative, Accumulate(acc, s[i..]))
    decreases |s| - i
  {
    if i < |s| {
      ScanDigits(s, i + 1, negative, acc * 10 + (s[i] as int - '0' as int));
      assert s[i..][1..] == s[i + 1..];
    }
  }

  /** Appending a digit shifts the number one place. */
  lemma {:induction false} AccumulateSnoc(acc: int, t: string, c: char)
    ensures Accumulate(acc, t + [c]) == Accumulate(acc, t) * 10 + (c as int - '0' as int)
    decreases |t|
  {
    if t != [] {
      AccumulateSnoc(acc * 10 + (t[0] as int - '0' as int), t[1..], c);
      assert (t + [c])[1..] == t[1..] + [c];
    }
  }

  /** Reading back the digits of `n` gives `n`. */
  lemma {:induction false} AccumulateOfNat(n: nat)
    ensures Accumulate(0, NatToString(n)) == n
    decreases n
  {
    if n >= 10 {
      AccumulateOfNat(n / 10);
      AccumulateSnoc(0, NatToString(n / 10), DigitChar(n % 10));
    }
  }

  /** Parsing reverses formatting for every 32-bit integer. */
  lemma ParseIntToString(x: int)
    requires IsInt32(x)
    ensures ParseInt(IntToString(x)) == Some(x)
  {
    var s := IntToString(x);
    var digits := NatToString(if x < 0 then -x else x);
    AccumulateOfNat(if x < 0 then -x else x);
    var d0 := digits[0] as int - '0' as int;
    assert Accumulate(0, digits) == Accumulate(d0, digits[1..]);
    if x < 0 {
      assert s[1..] == digits && s[2..] == digits[1..];
      ScanDigits(s, 2, true, d0);
      assert Scan(s, 1, Signed, true, 0) == Scan(s, 2, Digits, true, d0);
    } else {
      assert s == digits && s[1..] == digits[1..];
      ScanDigits(s, 1, false, d0);
    }
  }

  /** The index of the first white-space character at or after `i`, or `|s|`. */
  function SkipWord(s: string, i: nat): (k: nat)
    requires i <= |s|
    ensures i <= k <= |s|
    decreases |s| - i
  {
    if i < |s| && !IsWhiteSpace(s[i]) then SkipWord(s, i + 1) else i
  }

  /** A word running to the end is skipped whole. */
  lemma {:induction false} SkipWordAll(s: string, i: nat)
    requires i <= |s| && forall k :: i <= k < |s| ==> !IsWhiteSpace(s[k])
    ensures SkipWord(s, i) == |s|
    decreases |s| - i
  {
    if i < |s| {
      SkipWordAll(s, i + 1);
    }
  }

  /** The pieces of `s[i..]` between white-space characters. */
  function SplitFrom(s: string, i: nat): (parts: seq<string>)
    requires i <= |s|
    ensures |parts| >= 1
    decreases |s| - i
  {
    var j := SkipWord(s, i);
    [s[i..j]] + if j == |s| then [] else SplitFrom(s, j + 1)
  }

  /**
   * `s.Split()`: the pieces between white-space characters, empty pieces
   * included, so there is always at least one.
   */
  function Split(s: string): (parts: seq<string>)
    ensures |parts| >= 1
  {
    SplitFrom(s, 0)
  }

  /** Skipping a word stops at the first white space. */
  lemma {:induction false} SkipWordPrefix(s: string, i: nat, j: nat)
    requires i <= j < |s| && IsWhiteSpace(s[j]) && forall k :: i <= k < j ==> !IsWhiteSpace(s[k])
    ensures SkipWord(s, i) == j
    decreases j - i
  {
    if i < j {
      SkipWordPrefix(s, i + 1, j);
    }
  }

  /**
   * The first piece of `s.Split()` runs up to the first white space; there
   * is a second piece exactly when there is white space, and it runs up to
   * the next.
   */
  lemma SplitFirstPieces(s: string)
    ensures Split(s)[0] == s[..SkipWord(s, 0)]
    ensures |Split(s)| >= 2 <==> SkipWord(s, 0) < |s|
    ensures SkipWord(s, 0) < |s| ==> Split(s)[1] == s[SkipWord(s, 0) + 1..SkipWord(s, SkipWord(s, 0) + 1)]
  {
    var j := SkipWord(s, 0);
    if j < |s| {
      assert Split(s) == [s[0..j]] + SplitFrom(s, j + 1);
    }
  }
}
