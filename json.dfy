/**
 * JSON tokens as the client sees them through Newtonsoft's `JToken`, and the
 * token helpers of `Extensions` (DiscourseApi/ApiEntry.cs): `ToJsonString` and
 * `IsNullOrEmpty`. Parsing and serialising JSON text is not modelled here.
 */
module Json {
  import opened Wrappers
  import opened Text

  /** A JSON token. `Obj` keeps its properties in order, as `JObject` does. */
  datatype Token =
    | Null
    | Bool(b: bool)
    | Int(i: int)
    | Str(s: string)
    | Arr(items: seq<Token>)
    | Obj(props: seq<(string, Token)>)

  /** The properties of a `JObject`. */
  type Props = seq<(string, Token)>

  /** The exceptions the modelled code can throw or let through. */
  datatype Exception =
    | NullReference        // a member of a null reference was used
    | KeyNotFound          // a dictionary was indexed with a missing key
    | InvalidCast          // a token was converted to a type it does not hold
    | ArgumentNull         // a null was passed where a value is required
    | Argument             // ArgumentException: a value of the wrong shape was passed
    | Format               // FormatException from int.Parse
    | Overflow             // OverflowException from int.Parse
    | JsonReader           // the response body is not the JSON it starts like
    | JsonSerialization    // a token could not be deserialised into the expected type
    | InvalidOperation     // a request was sent without a URI
    | ApiException(message: string, result: Props)
    | Aggregate(inner: Exception) // `Task.Result` rethrowing what an async method threw

  function FromNumberError(e: NumberError): Exception
  {
    match e
    case NullArgument => ArgumentNull
    case BadFormat => Format
    case OutOfRange => Overflow
  }

  /** `j[key]`: the value of the first property named `key`, or null. */
  function Get(ps: Props, key: string): (r: Option<Token>)
    ensures r.Some? <==> exists i :: 0 <= i < |ps| && ps[i].0 == key
  {
    if |ps| == 0 then None
    else if ps[0].0 == key then Some(ps[0].1)
    else Get(ps[1..], key)
  }

  /** `j[key] = value`: replace the property in place, or append it. */
  function Put(ps: Props, key: string, value: Token): Props
  {
    if |ps| == 0 then [(key, value)]
    else if ps[0].0 == key then [(key, value)] + ps[1..]
    else [ps[0]] + Put(ps[1..], key, value)
  }

  /** `j.Remove(key)`. */
  function Remove(ps: Props, key: string): Props
  {
    if |ps| == 0 then []
    else if ps[0].0 == key then Remove(ps[1..], key)
    else [ps[0]] + Remove(ps[1..], key)
  }

  lemma {:induction false} PutGet(ps: Props, key: string, value: Token, other: string)
    ensures Get(Put(ps, key, value), key) == Some(value)
    ensures other != key ==> Get(Put(ps, key, value), other) == Get(ps, other)
  {
    if |ps| > 0 && ps[0].0 != key {
      PutGet(ps[1..], key, value, other);
    }
  }

  lemma {:induction false} RemoveGet(ps: Props, key: string, other: string)
    ensures Get(Remove(ps, key), key) == None
    ensures other != key ==> Get(Remove(ps, key), other) == Get(ps, other)
  {
    if |ps| > 0 {
      RemoveGet(ps[1..], key, other);
    }
  }

  /**
   * Compact JSON text of a token. Newtonsoft indents its output and escapes
   * special characters in strings; neither is modelled.
   */
  function Serialize(t: Token): string
  {
    match t
    case Null => "null"
    case Bool(b) => if b then "true" else "false"
    case Int(i) => IntToString(i)
    case Str(s) => "\"" + s + "\""
    case Arr(items) =>
      "[" + Join(",", seq(|items|, k requires 0 <= k < |items| => Serialize(items[k]))) + "]"
    case Obj(props) =>
      "{" + Join(",", seq(|props|, k requires 0 <= k < |props| =>
                            "\"" + props[k].0 + "\":" + Serialize(props[k].1))) + "}"
  }

  /**
   * `JToken.ToString()`: a plain value prints bare (a string without quotes,
   * booleans as "True" and "False", null as the empty string); arrays and
   * objects print as JSON.
   */
  function Render(t: Token): string
  {
    match t
    case Null => ""
    case Bool(b) => if b then "True" else "False"
    case Int(i) => IntToString(i)
    case Str(s) => s
    case _ => Serialize(t)
  }

  lemma LowerBooleanNames()
    ensures Lower("True") == "true" && Lower("False") == "false"
  {
    assert "True"[1..] == "rue" && "rue"[1..] == "ue" && "ue"[1..] == "e" && "e"[1..] == "";
    assert "False"[1..] == "alse" && "alse"[1..] == "lse" && "lse"[1..] == "se" && "se"[1..] == "e";
  }

  /** `ToJsonString`: like `ToString()`, except that booleans are lower-cased. */
  function ToJsonString(t: Token): (r: string)
    ensures t.Bool? ==> r == (if t.b then "true" else "false")
    ensures !t.Bool? ==> r == Render(t)
  {
    if t.Bool? then LowerBooleanNames(); Lower(Render(t)) else Render(t)
  }

  /** `ToJsonString` and `ToString()` differ on exactly the boolean tokens. */
  lemma ToJsonStringDiffersOnlyOnBooleans(t: Token)
    ensures ToJsonString(t) != Render(t) <==> t.Bool?
  {
  }

  /**
   * `IsNullOrEmpty`: a missing token, JSON null, the empty string, the empty
   * array or the empty object.
   */
  function IsNullOrEmpty(t: Option<Token>): (r: bool)
    ensures r <==> t in {None, Some(Null), Some(Str("")), Some(Arr([])), Some(Obj([]))}
  {
    match t
    case None => true
    case Some(Null) => true
    case Some(Str(s)) => s == ""
    case Some(Arr(items)) => |items| == 0
    case Some(Obj(props)) => |props| == 0
    case Some(_) => false
  }
}
