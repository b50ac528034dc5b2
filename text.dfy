/**
 * The .NET string and number primitives the client relies on: `string.Join`,
 * `String.Split`, `ToLower`, `Int32.ToString`, `int.Parse`, and C#'s unchecked
 * 32-bit arithmetic.
 */
module Text {
  import opened Wrappers

  /** `string.Join(sep, parts)`. */
  function Join(sep: string, parts: seq<string>): string
    decreases |parts|
  {
    if |parts| == 0 then ""
    else if |parts| == 1 then parts[0]
    else parts[0] + sep + Join(sep, parts[1..])
  }

  /** A non-empty sequence is its front followed by its last element. */
  lemma FrontLast<T>(s: seq<T>)
    requires |s| > 0
    ensures s[..|s| - 1] + [s[|s| - 1]] == s
  {
  }

  /** No character of `s` is one of `seps`. */
  predicate Avoids(s: string, seps: set<char>)
  {
    forall i :: 0 <= i < |s| ==> s[i] !in seps
  }

  /**
   * `s.Split(seps)`: every separator character cuts, and empty pieces are kept,
   * so the result always has one more piece than `s` has separators.
   */
  function Split(s: string, seps: set<char>): (r: seq<string>)
    ensures |r| >= 1 && r[0] <= s
    ensures forall k :: 0 <= k < |r| ==> Avoids(r[k], seps)
  {
    if |s| == 0 then [""]
    else
      var rest := Split(s[1..], seps);
      if s[0] in seps then [""] + rest
      else [[s[0]] + rest[0]] + rest[1..]
  }

  /** A separator-free prefix glues onto the first piece. */
  lemma {:induction false} SplitAfterPlain(a: string, s: string, seps: set<char>)
    requires Avoids(a, seps)
    ensures Split(a + s, seps) == [a + Split(s, seps)[0]] + Split(s, seps)[1..]
  {
    if |a| > 0 {
      var S := Split(s, seps);
      assert (a + s)[0] == a[0] && a[0] !in seps;
      assert (a + s)[1..] == a[1..] + s;
      SplitAfterPlain(a[1..], s, seps);
      var R := Split(a[1..] + s, seps);
      assert R == [a[1..] + S[0]] + S[1..];
      assert R[0] == a[1..] + S[0] && R[1..] == S[1..];
      assert Split(a + s, seps) == [[a[0]] + R[0]] + R[1..];
      assert [a[0]] + (a[1..] + S[0]) == a + S[0];
    } else {
      var r := Split(s, seps);
      assert a + s == s && a + r[0] == r[0];
      assert [r[0]] + r[1..] == r;
    }
  }

  /** Splitting what `Join` built with one separator character gives the parts back. */
  lemma {:induction false} SplitJoin(parts: seq<string>, c: char, seps: set<char>)
    requires c in seps && |parts| >= 1
    requires forall k :: 0 <= k < |parts| ==> Avoids(parts[k], seps)
    ensures Split(Join([c], parts), seps) == parts
    decreases |parts|
  {
    if |parts| == 1 {
      SplitAfterPlain(parts[0], "", seps);
      assert parts[0] + "" == parts[0];
    } else {
      var tail := Join([c], parts[1..]);
      SplitJoin(parts[1..], c, seps);
      assert Split([c] + tail, seps) == [""] + parts[1..] by {
        assert ([c] + tail)[1..] == tail;
      }
      assert Join([c], parts) == parts[0] + ([c] + tail);
      SplitAfterPlain(parts[0], [c] + tail, seps);
      assert parts[0] + "" == parts[0];
      assert [parts[0]] + parts[1..] == parts;
    }
  }

  /**
   * `s.Split(new[] { c }, 2)`: the text before the first `c`, and the text after
   * it when there is one.
   */
  function SplitFirst(s: string, c: char): (r: (string, Option<string>))
    ensures c !in r.0
    ensures r.1.None? <==> c !in s
    ensures r.1.None? ==> r.0 == s
    ensures r.1.Some? ==> s == r.0 + [c] + r.1.value
  {
    if |s| == 0 then ("", None)
    else if s[0] == c then ("", Some(s[1..]))
    else
      var r' := SplitFirst(s[1..], c);
      ([s[0]] + r'.0, r'.1)
  }

  /** Splitting at a separator that follows a separator-free prefix finds that prefix. */
  lemma {:induction false} SplitFirstAt(a: string, c: char, b: string)
    requires c !in a
    ensures SplitFirst(a + [c] + b, c) == (a, Some(b))
  {
    if |a| > 0 {
      assert (a + [c] + b)[1..] == a[1..] + [c] + b;
      SplitFirstAt(a[1..], c, b);
      assert [a[0]] + a[1..] == a;
    } else {
      assert (a + [c] + b)[1..] == b;
    }
  }

  /** A joined string avoids every character its parts and its separator avoid. */
  lemma {:induction false} JoinAvoids(sep: string, parts: seq<string>, seps: set<char>)
    requires Avoids(sep, seps)
    requires forall k :: 0 <= k < |parts| ==> Avoids(parts[k], seps)
    ensures Avoids(Join(sep, parts), seps)
    decreases |parts|
  {
    if |parts| > 1 {
      JoinAvoids(sep, parts[1..], seps);
    }
  }

  /** `ToLower()` on ASCII letters (the only letters the client lower-cases are in "True" and "False"). */
  function Lower(s: string): (r: string)
    ensures |r| == |s|
  {
    if |s| == 0 then ""
    else [if 'A' <= s[0] <= 'Z' then (s[0] as int + 32) as char else s[0]] + Lower(s[1..])
  }

  predicate IsDigit(c: char)
  {
    '0' <= c <= '9'
  }

  predicate AllDigits(s: string)
  {
    forall i :: 0 <= i < |s| ==> IsDigit(s[i])
  }

  function DigitChar(d: nat): (c: char)
    requires d < 10
    ensures IsDigit(c) && c as int - '0' as int == d
  {
    ('0' as int + d) as char
  }

  /** Decimal digits of `n`, most significant first, without leading zeros. */
  function NatToString(n: nat): (r: string)
    ensures |r| >= 1 && AllDigits(r)
  {
    if n < 10 then [DigitChar(n)] else NatToString(n / 10) + [DigitChar(n % 10)]
  }

  /** `Int32.ToString()` (and `JValue.ToString()` for an integer). */
  function IntToString(i: int): (r: string)
    ensures |r| >= 1 && IsDigit(r[|r| - 1])
    ensures i >= 0 ==> AllDigits(r)
    ensures i < 0 ==> r[0] == '-' && AllDigits(r[1..])
  {
    if i < 0 then "-" + NatToString(-i) else NatToString(i)
  }

  /** The value of a run of decimal digits. */
  function DigitsValue(s: string): nat
    requires AllDigits(s)
  {
    if |s| == 0 then 0 else DigitsValue(s[..|s| - 1]) * 10 + (s[|s| - 1] as int - '0' as int)
  }

  lemma {:induction false} DigitsValueOfNat(n: nat)
    ensures DigitsValue(NatToString(n)) == n
  {
    if n >= 10 {
      var s := NatToString(n);
      assert s[..|s| - 1] == NatToString(n / 10);
      DigitsValueOfNat(n / 10);
    }
  }

  /** White space that `int.Parse` skips at either end (U+0009 to U+000D and U+0020). */
  predicate IsWhite(c: char)
  {
    c == ' ' || '\t' <= c <= '\r'
  }

  function TrimWhite(s: string): (r: string)
    ensures |r| <= |s|
    decreases |s|
  {
    if |s| > 0 && IsWhite(s[0]) then TrimWhite(s[1..])
    else if |s| > 0 && IsWhite(s[|s| - 1]) then TrimWhite(s[..|s| - 1])
    else s
  }

  const Int32Min: int := -0x8000_0000
  const Int32Max: int := 0x7FFF_FFFF

  /** C#'s unchecked `int` arithmetic: the result wraps around modulo 2^32. */
  function Wrap32(x: int): (r: int)
    ensures Int32Min <= r <= Int32Max
    ensures (r - x) % 0x1_0000_0000 == 0
    ensures Int32Min <= x <= Int32Max ==> r == x
  {
    (x - Int32Min) % 0x1_0000_0000 + Int32Min
  }

  /** The exceptions `int.Parse` throws. */
  datatype NumberError =
    | NullArgument   // ArgumentNullException: the text is null
    | BadFormat      // FormatException: not an optionally signed run of digits
    | OutOfRange     // OverflowException: outside the 32-bit range

  /**
   * `int.Parse(s)` with the default number style: optional surrounding white
   * space, an optional leading sign, at least one decimal digit, and a value
   * that fits in 32 bits.
   */
  function ParseInt(s: Option<string>): (r: Result<int, NumberError>)
    ensures r.Ok? ==> Int32Min <= r.value <= Int32Max
    ensures s.None? <==> r == Err(NullArgument)
  {
    match s
    case None => Err(NullArgument)
    case Some(text) =>
      var t := TrimWhite(text);
      var signed := |t| > 0 && (t[0] == '-' || t[0] == '+');
      var digits := if signed then t[1..] else t;
      if |digits| == 0 || !AllDigits(digits) then Err(BadFormat)
      else
        var v: int := if signed && t[0] == '-' then -(DigitsValue(digits) as int) else DigitsValue(digits) as int;
        if v < Int32Min || v > Int32Max then Err(OutOfRange) else Ok(v)
  }

  /** Printing a 32-bit integer and parsing it back gives the integer. */
  lemma ParseIntRoundTrip(n: int)
    requires Int32Min <= n <= Int32Max
    ensures ParseInt(Some(IntToString(n))) == Ok(n)
  {
    var s := IntToString(n);
    assert TrimWhite(s) == s;
    if n < 0 {
      assert s[1..] == NatToString(-n);
      DigitsValueOfNat(-n);
    } else {
      DigitsValueOfNat(n);
    }
  }
}
