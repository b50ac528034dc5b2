/**
 * URL composition in `Api` (DiscourseApi/Api.cs): `Combine`, `QueryParams`,
 * `AddGetParams` and `makeUri`. The query component is the one of section 3.4
 * of RFC 3986: the text after the first `?` and before any `#`.
 */
module Query {
  import opened Wrappers
  import opened Text
  import opened Json

  /**
   * `Uri.EscapeUriString` and `Uri.UnescapeDataString`. Their percent-encoding
   * tables are not modelled: the two functions are parameters of the model.
   */
  datatype Escaping = Escaping(escape: string -> string, unescape: string -> string)

  /** Both functions leave `s` as it is. */
  predicate Transparent(esc: Escaping, s: string)
  {
    esc.escape(s) == s && esc.unescape(s) == s
  }

  /** The unreserved characters of section 2.3 of RFC 3986. */
  predicate Unreserved(s: string)
  {
    forall i :: 0 <= i < |s| ==>
      'A' <= s[i] <= 'Z' || 'a' <= s[i] <= 'z' || '0' <= s[i] <= '9' || s[i] in {'-', '.', '_', '~'}
  }

  /**
   * What the real escaping functions do on unreserved text: nothing. The
   * lemmas that follow a URI through escaping and unescaping assume this.
   */
  ghost predicate Plain(esc: Escaping)
  {
    forall s :: Unreserved(s) ==> Transparent(esc, s)
  }

  /** A key that survives `key=value&...` unchanged: none of `& ? # =`. */
  predicate SafeKey(s: string)
  {
    Avoids(s, {'&', '?', '#', '='})
  }

  /** A value that survives `key=value&...` unchanged: none of `& ? #`. */
  predicate SafeValue(s: string)
  {
    Avoids(s, {'&', '?', '#'})
  }

  lemma UnreservedIsSafe(s: string)
    requires Unreserved(s)
    ensures SafeKey(s) && SafeValue(s)
  {
  }

  // ---------------------------------------------------------------- Combine

  /**
   * `Combine(args)`: the escaped text of each argument, joined with `/`.
   * Splitting the result at `/` gives the escaped arguments back, provided no
   * escaped argument contains a `/` (EscapeUriString leaves `/` alone).
   */
  function Combine(esc: Escaping, args: seq<Token>): (r: string)
    ensures |args| >= 1 && (forall k :: 0 <= k < |args| ==> Avoids(esc.escape(Render(args[k])), {'/'})) ==>
              Split(r, {'/'}) == seq(|args|, k requires 0 <= k < |args| => esc.escape(Render(args[k])))
  {
    var pieces := seq(|args|, k requires 0 <= k < |args| => esc.escape(Render(args[k])));
    if |args| >= 1 && (forall k :: 0 <= k < |args| ==> Avoids(pieces[k], {'/'})) then
      SplitJoin(pieces, '/', {'/'});
      Join("/", pieces)
    else
      Join("/", pieces)
  }

  // ---------------------------------------------------------------- makeUri

  /** Matches the regular expression `^https?://`. */
  predicate HasHttpScheme(s: string)
  {
    "http://" <= s || "https://" <= s
  }

  /**
   * `makeUri(application)`: an absolute http(s) URI is used as it is; anything
   * else is appended to the server URI.
   */
  function MakeUri(serverUri: string, application: string): (r: string)
    ensures HasHttpScheme(application) ==> r == application
    ensures !HasHttpScheme(application) ==> r == serverUri + application
  {
    if HasHttpScheme(application) then application else serverUri + application
  }

  /** With an http(s) server URI, `makeUri` of its own result changes nothing. */
  lemma MakeUriIdempotent(serverUri: string, application: string)
    requires HasHttpScheme(serverUri)
    ensures MakeUri(serverUri, MakeUri(serverUri, application)) == MakeUri(serverUri, application)
  {
    var r := MakeUri(serverUri, application);
    if !HasHttpScheme(application) {
      if "http://" <= serverUri {
        assert r[..7] == serverUri[..7];
      } else {
        assert r[..8] == serverUri[..8];
      }
    }
  }

  // ------------------------------------------------------------- dictionary

  /**
   * A `Dictionary<string, string>` in enumeration order, `None` standing for a
   * null value.
   */
  type Dict = seq<(string, Option<string>)>

  function KeysOf(d: Dict): set<string>
  {
    if |d| == 0 then {} else {d[0].0} + KeysOf(d[1..])
  }

  /** No key occurs twice, as in any dictionary. */
  predicate UniqueKeys(d: Dict)
  {
    |d| == 0 || (d[0].0 !in KeysOf(d[1..]) && UniqueKeys(d[1..]))
  }

  /** `TryGetValue`: `None` when the key is absent, else the stored value. */
  function Lookup(d: Dict, key: string): (r: Option<Option<string>>)
    ensures r.Some? <==> key in KeysOf(d)
  {
    if |d| == 0 then None
    else if d[0].0 == key then Some(d[0].1)
    else Lookup(d[1..], key)
  }

  /** `query[key] = value`: overwrite in place, or add at the end. */
  function Assign(d: Dict, key: string, value: Option<string>): Dict
  {
    if |d| == 0 then [(key, value)]
    else if d[0].0 == key then [(key, value)] + d[1..]
    else [d[0]] + Assign(d[1..], key, value)
  }

  /** `query.Remove(key)`. */
  function Drop(d: Dict, key: string): Dict
  {
    if |d| == 0 then []
    else if d[0].0 == key then Drop(d[1..], key)
    else [d[0]] + Drop(d[1..], key)
  }

  lemma {:induction false} AssignLookup(d: Dict, key: string, value: Option<string>, other: string)
    ensures Lookup(Assign(d, key, value), other) == if other == key then Some(value) else Lookup(d, other)
    ensures KeysOf(Assign(d, key, value)) == KeysOf(d) + {key}
    ensures UniqueKeys(d) ==> UniqueKeys(Assign(d, key, value))
  {
    if |d| > 0 {
      AssignLookup(d[1..], key, value, other);
      if d[0].0 == key {
        assert ([(key, value)] + d[1..])[1..] == d[1..];
      } else {
        assert ([d[0]] + Assign(d[1..], key, value))[1..] == Assign(d[1..], key, value);
      }
    }
  }

  lemma {:induction false} DropLookup(d: Dict, key: string, other: string)
    ensures Lookup(Drop(d, key), other) == if other == key then None else Lookup(d, other)
    ensures KeysOf(Drop(d, key)) == KeysOf(d) - {key}
    ensures UniqueKeys(d) ==> UniqueKeys(Drop(d, key))
  {
    if |d| > 0 {
      DropLookup(d[1..], key, other);
      if d[0].0 != key {
        assert ([d[0]] + Drop(d[1..], key))[1..] == Drop(d[1..], key);
      }
    }
  }

  /** Assigning a key the dictionary does not hold appends it. */
  lemma {:induction false} AssignFresh(d: Dict, key: string, value: Option<string>)
    requires key !in KeysOf(d)
    ensures Assign(d, key, value) == d + [(key, value)]
  {
    if |d| > 0 {
      AssignFresh(d[1..], key, value);
      assert [d[0]] + (d[1..] + [(key, value)]) == d + [(key, value)];
    }
  }

  // ------------------------------------------------------------ QueryParams

  /** The index of the first `c` in `s`, or `|s|` when there is none. */
  function IndexOf(s: string, c: char): (k: nat)
    ensures k <= |s| && c !in s[..k]
    ensures k < |s| ==> s[k] == c
  {
    if |s| == 0 then 0
    else if s[0] == c then 0
    else 1 + IndexOf(s[1..], c)
  }

  /**
   * `new Uri(uri).Query`: from the first `?` (included) up to the fragment.
   * Empty when the URI has no query.
   */
  function QueryComponent(uri: string): string
  {
    var beforeFragment := uri[..IndexOf(uri, '#')];
    beforeFragment[IndexOf(beforeFragment, '?')..]
  }

  /** One pass of the loop in `QueryParams`: skip an empty segment, else store it. */
  function Bind(esc: Escaping, d: Dict, segment: string): Dict
  {
    if segment == "" then d
    else
      var parts := SplitFirst(segment, '=');
      Assign(d, esc.unescape(parts.0), if parts.1.Some? then Some(esc.unescape(parts.1.value)) else None)
  }

  /** The dictionary `QueryParams` builds from these segments, in order. */
  function ParseSegments(esc: Escaping, segments: seq<string>): Dict
  {
    if |segments| == 0 then []
    else Bind(esc, ParseSegments(esc, segments[..|segments| - 1]), segments[|segments| - 1])
  }

  /** The segments of a URI's query: split at every `&` and every `?`. */
  function Segments(uri: string): seq<string>
  {
    Split(QueryComponent(uri), {'&', '?'})
  }

  /** The dictionary `QueryParams(uri)` returns. */
  function ParsedQuery(esc: Escaping, uri: string): Dict
  {
    ParseSegments(esc, Segments(uri))
  }

  /** `QueryParams(uri)`: split the query of `uri` into a dictionary. */
  method QueryParams(esc: Escaping, uri: string) returns (query: Dict)
    ensures query == ParsedQuery(esc, uri)
    ensures UniqueKeys(query)
  {
    var args := Segments(uri);
    query := [];
    var i := 0;
    while i < |args|
      invariant 0 <= i <= |args|
      invariant query == ParseSegments(esc, args[..i])
      invariant UniqueKeys(query)
    {
      var arg := args[i];
      assert args[..i + 1][..i] == args[..i];
      if arg != "" {
        var parts := SplitFirst(arg, '=');
        var value := if parts.1.Some? then Some(esc.unescape(parts.1.value)) else None;
        AssignLookup(query, esc.unescape(parts.0), value, "");
        query := Assign(query, esc.unescape(parts.0), value);
      }
      i := i + 1;
    }
    assert args[..|args|] == args;
  }

  /**
   * What the last segment naming `key` says: `None` when no segment names it,
   * `Some(None)` for a bare `key`, `Some(Some(v))` for `key=v`.
   */
  function LastBinding(esc: Escaping, segments: seq<string>, key: string): Option<Option<string>>
  {
    if |segments| == 0 then None
    else
      var last := segments[|segments| - 1];
      var parts := SplitFirst(last, '=');
      if last != "" && esc.unescape(parts.0) == key then
        Some(if parts.1.Some? then Some(esc.unescape(parts.1.value)) else None)
      else LastBinding(esc, segments[..|segments| - 1], key)
  }

  /**
   * `QueryParams`: empty segments are skipped, a segment without `=` maps to
   * null, and a later duplicate key overwrites an earlier one; keys stay unique.
   */
  lemma {:induction false} ParseSegmentsLastWins(esc: Escaping, segments: seq<string>, key: string)
    ensures Lookup(ParseSegments(esc, segments), key) == LastBinding(esc, segments, key)
    ensures UniqueKeys(ParseSegments(esc, segments))
  {
    if |segments| > 0 {
      var prefix := segments[..|segments| - 1];
      var last := segments[|segments| - 1];
      ParseSegmentsLastWins(esc, prefix, key);
      if last != "" {
        var parts := SplitFirst(last, '=');
        AssignLookup(ParseSegments(esc, prefix), esc.unescape(parts.0),
                     if parts.1.Some? then Some(esc.unescape(parts.1.value)) else None, key);
      }
    }
  }

  // ---------------------------------------------------------- AddGetParams

  /** The dictionary after the loop of `AddGetParams` over the parameters `ps`. */
  function Merge(d: Dict, ps: Props): Dict
  {
    if |ps| == 0 then d
    else
      var m := Merge(d, ps[..|ps| - 1]);
      var p := ps[|ps| - 1];
      if IsNullOrEmpty(Some(p.1)) then Drop(m, p.0) else Assign(m, p.0, Some(Render(p.1)))
  }

  /** The value of the last parameter named `key`, if any. */
  function LastMention(ps: Props, key: string): Option<Token>
  {
    if |ps| == 0 then None
    else if ps[|ps| - 1].0 == key then Some(ps[|ps| - 1].1)
    else LastMention(ps[..|ps| - 1], key)
  }

  /**
   * `AddGetParams`: an empty parameter removes its key, any other sets it to its
   * `ToString()`, and a key no parameter names keeps its old value.
   */
  lemma {:induction false} MergeLookup(d: Dict, ps: Props, key: string)
    ensures Lookup(Merge(d, ps), key) ==
      match LastMention(ps, key)
      case None => Lookup(d, key)
      case Some(v) => if IsNullOrEmpty(Some(v)) then None else Some(Some(Render(v)))
    ensures UniqueKeys(d) ==> UniqueKeys(Merge(d, ps))
  {
    if |ps| > 0 {
      var m := Merge(d, ps[..|ps| - 1]);
      var p := ps[|ps| - 1];
      MergeLookup(d, ps[..|ps| - 1], key);
      if IsNullOrEmpty(Some(p.1)) {
        DropLookup(m, p.0, key);
      } else {
        AssignLookup(m, p.0, Some(Render(p.1)), key);
      }
    }
  }

  /** Every value is non-null. */
  predicate AllValued(d: Dict)
  {
    forall k :: 0 <= k < |d| ==> d[k].1.Some?
  }

  /** The `key=value` texts `AddGetParams` joins with `&`. */
  function Pairs(esc: Escaping, d: Dict): seq<string>
    requires AllValued(d)
  {
    seq(|d|, k requires 0 <= k < |d| => esc.escape(d[k].0) + "=" + esc.escape(d[k].1.value))
  }

  /**
   * The last statement of `AddGetParams`: the text before the first `?`, a `?`,
   * and the escaped pairs joined with `&`. A null value makes EscapeUriString
   * throw.
   */
  function WithQuery(esc: Escaping, uri: string, d: Dict): (r: Result<string, Exception>)
    ensures r.Ok? <==> AllValued(d)
    ensures r.Err? ==> r.error == ArgumentNull
  {
    if AllValued(d) then Ok(Split(uri, {'?'})[0] + "?" + Join("&", Pairs(esc, d)))
    else Err(ArgumentNull)
  }

  /** The URI `AddGetParams` returns for the parameters `ps`. */
  function WithParams(esc: Escaping, uri: string, ps: Props): Result<string, Exception>
  {
    WithQuery(esc, uri, Merge(ParsedQuery(esc, uri), ps))
  }

  /** `AddGetParams(uri, parameters)`: add, replace or remove query parameters. */
  method AddGetParams(esc: Escaping, uri: string, parameters: Option<Props>) returns (r: Result<string, Exception>)
    ensures parameters.None? ==> r == Ok(uri)
    ensures parameters.Some? ==> r == WithParams(esc, uri, parameters.value)
  {
    r := Ok(uri);
    if parameters.Some? {
      var query := QueryParams(esc, uri);
      var j := parameters.value;
      var i := 0;
      while i < |j|
        invariant 0 <= i <= |j|
        invariant query == Merge(ParsedQuery(esc, uri), j[..i])
      {
        assert j[..i + 1][..i] == j[..i];
        if IsNullOrEmpty(Some(j[i].1)) {
          query := Drop(query, j[i].0);
        } else {
          query := Assign(query, j[i].0, Some(Render(j[i].1)));
        }
        i := i + 1;
      }
      assert j[..|j|] == j;
      r := WithQuery(esc, uri, query);
    }
  }

  /** Every key and value reads back as itself and carries no delimiter. */
  ghost predicate WellFormed(esc: Escaping, d: Dict)
  {
    forall k :: 0 <= k < |d| ==>
      Transparent(esc, d[k].0) && SafeKey(d[k].0) &&
      d[k].1.Some? && Transparent(esc, d[k].1.value) && SafeValue(d[k].1.value)
  }

  /** No key occurs twice, stated by position. */
  predicate Distinct(d: Dict)
  {
    forall i, j :: 0 <= i < j < |d| ==> d[i].0 != d[j].0
  }

  lemma {:induction false} KeysOfIndex(d: Dict, key: string)
    ensures key in KeysOf(d) <==> exists i :: 0 <= i < |d| && d[i].0 == key
  {
    if |d| > 0 {
      KeysOfIndex(d[1..], key);
      if key in KeysOf(d[1..]) {
        var i :| 0 <= i < |d[1..]| && d[1..][i].0 == key;
        assert d[i + 1].0 == key;
      }
      if exists i :: 0 <= i < |d| && d[i].0 == key {
        var i :| 0 <= i < |d| && d[i].0 == key;
        if i > 0 {
          assert d[1..][i - 1].0 == key;
        }
      }
    }
  }

  lemma {:induction false} UniqueDistinct(d: Dict)
    requires UniqueKeys(d)
    ensures Distinct(d)
  {
    if |d| > 0 {
      UniqueDistinct(d[1..]);
      forall i, j | 0 <= i < j < |d|
        ensures d[i].0 != d[j].0
      {
        if i == 0 {
          KeysOfIndex(d[1..], d[j].0);
          assert d[1..][j - 1] == d[j];
        } else {
          assert d[1..][i - 1] == d[i] && d[1..][j - 1] == d[j];
        }
      }
    }
  }

  /** The last `key=value` text is the last entry's. */
  lemma PairsLast(esc: Escaping, d: Dict)
    requires AllValued(d) && |d| > 0
    ensures AllValued(d[..|d| - 1])
    ensures Pairs(esc, d) == Pairs(esc, d[..|d| - 1]) + [esc.escape(d[|d| - 1].0) + "=" + esc.escape(d[|d| - 1].1.value)]
  {
  }

  /** Binding `key=value` for a fresh key free of delimiters appends the entry. */
  lemma BindFresh(esc: Escaping, segs: seq<string>, d: Dict, key: string, value: string)
    requires |segs| > 0 && ParseSegments(esc, segs[..|segs| - 1]) == d
    requires segs[|segs| - 1] == key + "=" + value
    requires Transparent(esc, key) && Transparent(esc, value) && SafeKey(key)
    requires key !in KeysOf(d)
    ensures ParseSegments(esc, segs) == d + [(key, Some(value))]
  {
    assert '=' !in key by {
      assert forall i :: 0 <= i < |key| ==> key[i] != '=';
    }
    SplitFirstAt(key, '=', value);
    AssignFresh(d, key, Some(value));
  }

  lemma {:induction false} ParseSegmentsOfPairs(esc: Escaping, d: Dict)
    requires Distinct(d) && WellFormed(esc, d)
    ensures ParseSegments(esc, [""] + Pairs(esc, d)) == d
    decreases |d|
  {
    if |d| == 0 {
      assert [""] + Pairs(esc, d) == [""];
      assert [""][..0] == [];
    } else {
      var d' := d[..|d| - 1];
      var key := d[|d| - 1].0;
      var value := d[|d| - 1].1.value;
      assert Distinct(d') && WellFormed(esc, d');
      ParseSegmentsOfPairs(esc, d');
      PairsLast(esc, d);
      var segs := [""] + Pairs(esc, d);
      assert segs[..|segs| - 1] == [""] + Pairs(esc, d');
      KeysOfIndex(d', key);
      BindFresh(esc, segs, d', key, value);
      assert d[|d| - 1] == (key, Some(value));
      FrontLast(d);
    }
  }

  /** Each `key=value` text of a well-formed dictionary is free of `&`, `?` and `#`. */
  lemma PairsAvoid(esc: Escaping, d: Dict)
    requires WellFormed(esc, d)
    ensures forall k :: 0 <= k < |Pairs(esc, d)| ==> Avoids(Pairs(esc, d)[k], {'&', '?', '#'})
  {
    forall k | 0 <= k < |d|
      ensures Avoids(Pairs(esc, d)[k], {'&', '?', '#'})
    {
      var key := d[k].0;
      var value := d[k].1.value;
      assert Transparent(esc, key) && Transparent(esc, value);
      assert Pairs(esc, d)[k] == key + "=" + value;
    }
  }

  /** The query component of `prefix?body` is `?body`. */
  lemma QueryOfText(prefix: string, body: string)
    requires Avoids(prefix, {'?', '#'}) && Avoids(body, {'#'})
    ensures QueryComponent(prefix + "?" + body) == "?" + body
  {
    var text := prefix + "?" + body;
    assert Avoids(text, {'#'}) by {
      forall i | 0 <= i < |text| ensures text[i] != '#' {
        if i < |prefix| {
          assert text[i] == prefix[i];
        } else if i > |prefix| {
          assert text[i] == body[i - |prefix| - 1];
        }
      }
    }
    IndexOfAbsent(text, '#');
    assert text[..|text|] == text;
    assert text[..|prefix|] == prefix;
    IndexOfFirst(text, '?', |prefix|);
    assert text[|prefix|..] == "?" + body;
  }

  lemma {:induction false} IndexOfAbsent(s: string, c: char)
    requires Avoids(s, {c})
    ensures IndexOf(s, c) == |s|
  {
    if |s| > 0 {
      assert s[0] != c;
      IndexOfAbsent(s[1..], c);
    }
  }

  lemma IndexOfFirst(s: string, c: char, k: nat)
    requires k < |s| && s[k] == c && c !in s[..k]
    ensures IndexOf(s, c) == k
  {
  }

  /**
   * The query `AddGetParams` writes reads back, through `QueryParams`, as the
   * dictionary it was written from, when every key and value is free of
   * delimiters and reads back as itself, and the URI has no fragment.
   */
  lemma RoundTrip(esc: Escaping, uri: string, d: Dict)
    requires UniqueKeys(d) && WellFormed(esc, d)
    requires Avoids(uri, {'#'})
    ensures WithQuery(esc, uri, d).Ok?
    ensures ParsedQuery(esc, WithQuery(esc, uri, d).value) == d
  {
    var prefix := Split(uri, {'?'})[0];
    assert Avoids(prefix, {'?', '#'}) by {
      assert prefix <= uri;
      forall i | 0 <= i < |prefix| ensures prefix[i] !in {'?', '#'} {
        assert prefix[i] == uri[i];
      }
    }
    var pairs := Pairs(esc, d);
    PairsAvoid(esc, d);
    var body := Join("&", pairs);
    JoinAvoids("&", pairs, {'?', '#'});
    var text := prefix + "?" + body;
    assert WithQuery(esc, uri, d) == Ok(text);
    QueryOfText(prefix, body);
    assert Segments(text) == [""] + Split(body, {'&', '?'}) by {
      assert ("?" + body)[0] == '?' && ("?" + body)[1..] == body;
    }
    UniqueDistinct(d);
    if |d| == 0 {
      assert body == "";
      assert Segments(text) == ["", ""];
      assert ["", ""][..1] == [""];
      assert [""][..0] == [];
      assert ParseSegments(esc, [""]) == [];
    } else {
      SplitJoin(pairs, '&', {'&', '?'});
      assert Join("&", pairs) == Join(['&'], pairs);
      ParseSegmentsOfPairs(esc, d);
    }
  }

  /**
   * With the real escaping functions, a dictionary of unreserved keys and
   * values survives `AddGetParams` and `QueryParams` unchanged.
   */
  lemma PlainRoundTrip(esc: Escaping, uri: string, d: Dict)
    requires Plain(esc)
    requires UniqueKeys(d) && AllValued(d)
    requires forall k :: 0 <= k < |d| ==> Unreserved(d[k].0) && Unreserved(d[k].1.value)
    requires Avoids(uri, {'#'})
    ensures WithQuery(esc, uri, d).Ok?
    ensures ParsedQuery(esc, WithQuery(esc, uri, d).value) == d
  {
    forall k | 0 <= k < |d|
      ensures Transparent(esc, d[k].0) && SafeKey(d[k].0)
      ensures Transparent(esc, d[k].1.value) && SafeValue(d[k].1.value)
    {
      UnreservedIsSafe(d[k].0);
      UnreservedIsSafe(d[k].1.value);
    }
    RoundTrip(esc, uri, d);
  }
  // ------------------------------------------- AddGetParams then QueryParams

  lemma {:induction false} AssignWellFormed(esc: Escaping, d: Dict, key: string, value: Option<string>)
    requires WellFormed(esc, d)
    requires Transparent(esc, key) && SafeKey(key)
    requires value.Some? && Transparent(esc, value.value) && SafeValue(value.value)
    ensures WellFormed(esc, Assign(d, key, value))
  {
    if |d| > 0 && d[0].0 != key {
      assert WellFormed(esc, d[1..]) by {
        forall k | 0 <= k < |d[1..]| ensures d[1..][k] == d[k + 1] { }
      }
      AssignWellFormed(esc, d[1..], key, value);
    }
  }

  lemma {:induction false} DropWellFormed(esc: Escaping, d: Dict, key: string)
    requires WellFormed(esc, d)
    ensures WellFormed(esc, Drop(d, key))
  {
    if |d| > 0 {
      assert WellFormed(esc, d[1..]) by {
        forall k | 0 <= k < |d[1..]| ensures d[1..][k] == d[k + 1] { }
      }
      DropWellFormed(esc, d[1..], key);
    }
  }

  /** Parameters whose names and printed values are unreserved. */
  predicate UnreservedParams(ps: Props)
  {
    forall i :: 0 <= i < |ps| ==> Unreserved(ps[i].0) && Unreserved(Render(ps[i].1))
  }

  lemma {:induction false} MergeWellFormed(esc: Escaping, d: Dict, ps: Props)
    requires Plain(esc) && WellFormed(esc, d) && UnreservedParams(ps)
    ensures WellFormed(esc, Merge(d, ps))
  {
    if |ps| > 0 {
      var front := ps[..|ps| - 1];
      var p := ps[|ps| - 1];
      assert UnreservedParams(front) by {
        forall i | 0 <= i < |front| ensures front[i] == ps[i] { }
      }
      MergeWellFormed(esc, d, front);
      if IsNullOrEmpty(Some(p.1)) {
        DropWellFormed(esc, Merge(d, front), p.0);
      } else {
        UnreservedIsSafe(p.0);
        UnreservedIsSafe(Render(p.1));
        AssignWellFormed(esc, Merge(d, front), p.0, Some(Render(p.1)));
      }
    }
  }

  /**
   * With the real escaping functions, the URI `AddGetParams` writes reads
   * back, through `QueryParams`, as the old query merged with the parameters:
   * the parameters set, the empty ones removed, the other keys untouched.
   */
  lemma AddGetParamsReadBack(esc: Escaping, uri: string, ps: Props)
    requires Plain(esc) && WellFormed(esc, ParsedQuery(esc, uri)) && UnreservedParams(ps)
    requires Avoids(uri, {'#'})
    ensures WithParams(esc, uri, ps).Ok?
    ensures ParsedQuery(esc, WithParams(esc, uri, ps).value) == Merge(ParsedQuery(esc, uri), ps)
  {
    var d := ParsedQuery(esc, uri);
    ParseSegmentsLastWins(esc, Segments(uri), "");
    MergeLookup(d, ps, "");
    MergeWellFormed(esc, d, ps);
    RoundTrip(esc, uri, Merge(d, ps));
  }
}
