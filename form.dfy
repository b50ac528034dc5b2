/**
 * `ToCollection` (DiscourseApi/ApiEntry.cs): the key/value pairs of an
 * `application/x-www-form-urlencoded` body built from a JSON object. A nested
 * object contributes `name[sub]` pairs, an array one `name[]` pair per
 * element, and a null property nothing.
 */
module Form {
  import opened Wrappers
  import opened Text
  import opened Json

  // ------------------------------------------------ concatenation of pieces

  /** The pieces `f` gives for each element of `xs`, concatenated in order. */
  function ConcatMap<A, B>(xs: seq<A>, f: A -> seq<B>): seq<B>
  {
    if |xs| == 0 then [] else ConcatMap(xs[..|xs| - 1], f) + f(xs[|xs| - 1])
  }

  lemma ConcatMapSnoc<A, B>(xs: seq<A>, x: A, f: A -> seq<B>)
    ensures ConcatMap(xs + [x], f) == ConcatMap(xs, f) + f(x)
  {
    assert (xs + [x])[..|xs|] == xs;
  }

  lemma {:induction false} ConcatMapAppend<A, B>(xs: seq<A>, ys: seq<A>, f: A -> seq<B>)
    ensures ConcatMap(xs + ys, f) == ConcatMap(xs, f) + ConcatMap(ys, f)
    decreases |ys|
  {
    if |ys| == 0 {
      assert xs + ys == xs;
    } else {
      var ys' := ys[..|ys| - 1];
      var y := ys[|ys| - 1];
      FrontLast(ys);
      assert xs + ys == (xs + ys') + [y];
      ConcatMapSnoc(xs + ys', y, f);
      ConcatMapSnoc(ys', y, f);
      ConcatMapAppend(xs, ys', f);
    }
  }

  /** An element of the result comes from the piece of some element, and every piece is kept. */
  lemma {:induction false} ConcatMapMember<A, B>(xs: seq<A>, f: A -> seq<B>, b: B)
    ensures b in ConcatMap(xs, f) <==> exists i :: 0 <= i < |xs| && b in f(xs[i])
  {
    if |xs| > 0 {
      var xs' := xs[..|xs| - 1];
      ConcatMapMember(xs', f, b);
      if b in ConcatMap(xs', f) {
        var i :| 0 <= i < |xs'| && b in f(xs'[i]);
        assert xs[i] == xs'[i];
      }
      if exists i :: 0 <= i < |xs| && b in f(xs[i]) {
        var i :| 0 <= i < |xs| && b in f(xs[i]);
        if i < |xs'| {
          assert xs'[i] == xs[i];
        }
      }
    }
  }

  /** With exactly one piece per element, the result has one entry per element, in order. */
  lemma {:induction false} ConcatMapSingletons<A, B>(xs: seq<A>, f: A -> seq<B>)
    requires forall x :: |f(x)| == 1
    ensures |ConcatMap(xs, f)| == |xs|
    ensures forall k :: 0 <= k < |xs| ==> ConcatMap(xs, f)[k] == f(xs[k])[0]
  {
    if |xs| > 0 {
      ConcatMapSingletons(xs[..|xs| - 1], f);
    }
  }

  // ------------------------------------------------------------ form pairs

  /** One `KeyValuePair<string, string>` of the form body. */
  type Pair = (string, string)

  /** The pair of the member `s` of the object property `name`, if it is not null. */
  function MemberPair(name: string, s: (string, Token)): seq<Pair>
  {
    if s.1.Null? then [] else [(name + "[" + s.0 + "]", ToJsonString(s.1))]
  }

  function Members(name: string): ((string, Token)) -> seq<Pair>
  {
    s => MemberPair(name, s)
  }

  /** The pair of one element of the array property `name`. */
  function Elements(name: string): Token -> seq<Pair>
  {
    t => [(name + "[]", ToJsonString(t))]
  }

  /** The pairs one property contributes, by the type of its value. */
  function PropertyPairs(p: (string, Token)): seq<Pair>
  {
    match p.1
    case Obj(sub) => ConcatMap(sub, Members(p.0))
    case Arr(items) => ConcatMap(items, Elements(p.0))
    case Null => []
    case _ => [(p.0, ToJsonString(p.1))]
  }

  /** All pairs of the object, property by property. */
  function FormPairs(ps: Props): seq<Pair>
  {
    ConcatMap(ps, PropertyPairs)
  }

  /** The inner loop of `ToCollection` over the members of an object property. */
  method AddMembers(pairs: seq<Pair>, name: string, sub: Props) returns (r: seq<Pair>)
    ensures r == pairs + ConcatMap(sub, Members(name))
  {
    r := pairs;
    var j := 0;
    while j < |sub|
      invariant 0 <= j <= |sub|
      invariant r == pairs + ConcatMap(sub[..j], Members(name))
    {
      assert sub[..j + 1] == sub[..j] + [sub[j]];
      ConcatMapSnoc(sub[..j], sub[j], Members(name));
      if !sub[j].1.Null? {
        r := r + [(name + "[" + sub[j].0 + "]", ToJsonString(sub[j].1))];
      }
      j := j + 1;
    }
    assert sub[..|sub|] == sub;
  }

  /** The inner loop of `ToCollection` over the elements of an array property. */
  method AddElements(pairs: seq<Pair>, name: string, items: seq<Token>) returns (r: seq<Pair>)
    ensures r == pairs + ConcatMap(items, Elements(name))
  {
    r := pairs;
    var j := 0;
    while j < |items|
      invariant 0 <= j <= |items|
      invariant r == pairs + ConcatMap(items[..j], Elements(name))
    {
      assert items[..j + 1] == items[..j] + [items[j]];
      ConcatMapSnoc(items[..j], items[j], Elements(name));
      r := r + [(name + "[]", ToJsonString(items[j]))];
      j := j + 1;
    }
    assert items[..|items|] == items;
  }

  /** `ToCollection(o)` on the JSON object `ps`: a loop over the properties. */
  method ToCollection(ps: Props) returns (pairs: seq<Pair>)
    ensures pairs == FormPairs(ps)
  {
    pairs := [];
    var i := 0;
    while i < |ps|
      invariant 0 <= i <= |ps|
      invariant pairs == ConcatMap(ps[..i], PropertyPairs)
    {
      var name := ps[i].0;
      var v := ps[i].1;
      assert ps[..i + 1] == ps[..i] + [ps[i]];
      ConcatMapSnoc(ps[..i], ps[i], PropertyPairs);
      match v {
        case Obj(sub) =>
          pairs := AddMembers(pairs, name, sub);
        case Arr(items) =>
          pairs := AddElements(pairs, name, items);
        case Null =>
        case _ =>
          pairs := pairs + [(name, ToJsonString(v))];
      }
      i := i + 1;
    }
    assert ps[..|ps|] == ps;
  }

  /** The pairs follow the property order: the pairs of `a + b` are those of `a`, then those of `b`. */
  lemma FormPairsAppend(a: Props, b: Props)
    ensures FormPairs(a + b) == FormPairs(a) + FormPairs(b)
  {
    ConcatMapAppend(a, b, PropertyPairs);
  }

  /**
   * An object property contributes `name[sub]` = `ToJsonString` of the member
   * exactly for its non-null members.
   */
  lemma ObjectPairsExactly(name: string, sub: Props, pair: Pair)
    ensures pair in PropertyPairs((name, Obj(sub))) <==>
      exists j :: 0 <= j < |sub| && !sub[j].1.Null? && pair == (name + "[" + sub[j].0 + "]", ToJsonString(sub[j].1))
  {
    ConcatMapMember(sub, Members(name), pair);
    if exists j :: 0 <= j < |sub| && pair in Members(name)(sub[j]) {
      var j :| 0 <= j < |sub| && pair in Members(name)(sub[j]);
      assert !sub[j].1.Null? && pair == (name + "[" + sub[j].0 + "]", ToJsonString(sub[j].1));
    }
    if exists j :: 0 <= j < |sub| && !sub[j].1.Null? && pair == (name + "[" + sub[j].0 + "]", ToJsonString(sub[j].1)) {
      var j :| 0 <= j < |sub| && !sub[j].1.Null? && pair == (name + "[" + sub[j].0 + "]", ToJsonString(sub[j].1));
      assert pair in Members(name)(sub[j]);
    }
  }

  /** An array property contributes one `name[]` pair per element, in order, nulls included. */
  lemma ArrayPairsOnePerElement(name: string, items: seq<Token>)
    ensures |PropertyPairs((name, Arr(items)))| == |items|
    ensures forall k :: 0 <= k < |items| ==> PropertyPairs((name, Arr(items)))[k] == (name + "[]", ToJsonString(items[k]))
  {
    ConcatMapSingletons(items, Elements(name));
  }

  /**
   * A pair is in the body exactly when some property contributes it: nothing
   * is invented and nothing is lost.
   */
  lemma FormPairsExactly(ps: Props, pair: Pair)
    ensures pair in FormPairs(ps) <==> exists i :: 0 <= i < |ps| && pair in PropertyPairs(ps[i])
  {
    ConcatMapMember(ps, PropertyPairs, pair);
  }

  /** The pairs as an object of string properties. */
  function AsProps(pairs: seq<Pair>): (r: Props)
    ensures |r| == |pairs|
  {
    if |pairs| == 0 then []
    else AsProps(pairs[..|pairs| - 1]) + [(pairs[|pairs| - 1].0, Str(pairs[|pairs| - 1].1))]
  }

  /** A string property contributes itself, unchanged. */
  lemma StringProperty(name: string, value: string)
    ensures PropertyPairs((name, Str(value))) == [(name, value)]
  {
  }

  /**
   * Flattening is idempotent: an object of the flattened pairs (all plain
   * strings) flattens to the same pairs again. This is a fact about the
   * model's property lists, which may repeat a name (two `tags[]`, say); a
   * `JObject` cannot, and the client never reposts a flattened body.
   */
  lemma {:induction false} FlattenIdempotent(pairs: seq<Pair>)
    ensures FormPairs(AsProps(pairs)) == pairs
  {
    if |pairs| > 0 {
      var pairs' := pairs[..|pairs| - 1];
      var last := pairs[|pairs| - 1];
      FlattenIdempotent(pairs');
      ConcatMapSnoc(AsProps(pairs'), (last.0, Str(last.1)), PropertyPairs);
      StringProperty(last.0, last.1);
      FrontLast(pairs);
    }
  }

  /** Corollary, about the model's property lists: flattening the flattened pairs changes nothing. */
  lemma FormPairsFlat(ps: Props)
    ensures FormPairs(AsProps(FormPairs(ps))) == FormPairs(ps)
  {
    FlattenIdempotent(FormPairs(ps));
  }
}
