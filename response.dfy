/**
 * From an HTTP response to a JSON object (`parseJObjectFromResponse`), the
 * message of an `ApiException` (`getMessage`), and the error check of
 * `convertTo`, all in DiscourseApi/Api.cs.
 */
module Responses {
  import opened Wrappers
  import opened Text
  import opened Json
  import Retry

  /**
   * `JObject.Parse` and `JArray.Parse`. JSON text is not modelled: the parsers
   * are parameters, and their failures stand for `JsonReaderException`.
   */
  datatype JsonParser = JsonParser(
    parseObject: string -> Result<Props, Exception>,
    parseArray: string -> Result<seq<Token>, Exception>)

  /** The status codes `IsSuccessStatusCode` accepts. */
  predicate IsSuccess(status: int)
  {
    200 <= status <= 299
  }

  /**
   * The object built from the body text: parsed when it starts with `{`,
   * wrapped under `List` when it starts with `[`, kept as `content` when it is
   * any other non-empty text, and empty when the body is empty.
   */
  function Classify(p: JsonParser, data: string): (r: Result<Props, Exception>)
    ensures "{" <= data ==> r == p.parseObject(data)
    ensures "[" <= data && p.parseArray(data).Ok? ==> r == Ok([("List", Arr(p.parseArray(data).value))])
    ensures "[" <= data && p.parseArray(data).Err? ==> r == Err(p.parseArray(data).error)
    ensures !("{" <= data) && !("[" <= data) ==> r == Ok(if data == "" then [] else [("content", Str(data))])
  {
    if "{" <= data then
      assert data[0] == '{';
      p.parseObject(data)
    else if "[" <= data then
      match p.parseArray(data)
      case Err(e) => Err(e)
      case Ok(items) => Ok([("List", Arr(items))])
    else if data == "" then Ok([])
    else Ok([("content", Str(data))])
  }

  /**
   * The `MetaData` object: the URI the request was first sent to, and the
   * first `Last-Modified` value when that header is present.
   */
  function MetaData(uri: string, lastModified: Option<seq<string>>): Token
  {
    var modified: Props :=
      match lastModified
      case None => []
      case Some(values) => [("Modified", if |values| == 0 then Null else Str(values[0]))];
    Obj([("Uri", Str(uri))] + modified)
  }

  /**
   * `getMessage(message, result)`: the message, followed by `:` and the
   * `errors` of the result joined with `;` when the result has an `errors`
   * array.
   */
  function GetMessage(message: string, result: Option<Props>): string
  {
    if result.Some? && Get(result.value, "errors").Some? && Get(result.value, "errors").value.Arr? then
      var errors := Get(result.value, "errors").value.items;
      message + ":" + Join(";", seq(|errors|, k requires 0 <= k < |errors| => Render(errors[k])))
    else message
  }

  /** Whether the result carries an `errors` array. */
  predicate HasErrorList(result: Option<Props>)
  {
    result.Some? && Get(result.value, "errors").Some? && Get(result.value, "errors").value.Arr?
  }

  /**
   * The reason phrase always opens the message, and it is the whole message
   * exactly when there is no `errors` array.
   */
  lemma GetMessageExtends(message: string, result: Option<Props>)
    ensures message <= GetMessage(message, result)
    ensures GetMessage(message, result) == message <==> !HasErrorList(result)
  {
    if HasErrorList(result) {
      assert |GetMessage(message, result)| > |message|;
    }
  }

  /**
   * `parseJObjectFromResponse(uri, result)`: the object built from the body,
   * with `MetaData` set; a status outside 200-299 throws an `ApiException`
   * carrying that object.
   */
  function ParseResponse(p: JsonParser, uri: string, r: Retry.Response): (res: Result<Props, Exception>)
    ensures res.Ok? ==> IsSuccess(r.status)
    ensures Classify(p, r.body).Err? ==> res == Err(Classify(p, r.body).error)
    ensures Classify(p, r.body).Ok? && IsSuccess(r.status) ==>
      res == Ok(Put(Classify(p, r.body).value, "MetaData", MetaData(uri, r.lastModified)))
    ensures Classify(p, r.body).Ok? && !IsSuccess(r.status) ==>
      var built := Put(Classify(p, r.body).value, "MetaData", MetaData(uri, r.lastModified));
      res == Err(ApiException(GetMessage(r.reason, Some(built)), built))
  {
    match Classify(p, r.body)
    case Err(e) => Err(e)
    case Ok(j) =>
      var built := Put(j, "MetaData", MetaData(uri, r.lastModified));
      if IsSuccess(r.status) then Ok(built)
      else Err(ApiException(GetMessage(r.reason, Some(built)), built))
  }

  /**
   * A successful response whose body is a JSON object returns that object,
   * with every key but `MetaData` as the server sent it.
   */
  lemma ObjectBodyReturned(p: JsonParser, uri: string, r: Retry.Response, key: string)
    requires IsSuccess(r.status) && "{" <= r.body && p.parseObject(r.body).Ok?
    ensures ParseResponse(p, uri, r).Ok?
    ensures Get(ParseResponse(p, uri, r).value, "MetaData") == Some(MetaData(uri, r.lastModified))
    ensures key != "MetaData" ==> Get(ParseResponse(p, uri, r).value, key) == Get(p.parseObject(r.body).value, key)
  {
    PutGet(p.parseObject(r.body).value, "MetaData", MetaData(uri, r.lastModified), key);
  }

  /**
   * A successful response whose body is a JSON array returns an object whose
   * `List` is that array, and whose only other key is `MetaData`.
   */
  lemma ArrayBodyListed(p: JsonParser, uri: string, r: Retry.Response, key: string)
    requires IsSuccess(r.status) && "[" <= r.body && p.parseArray(r.body).Ok?
    ensures ParseResponse(p, uri, r).Ok?
    ensures Get(ParseResponse(p, uri, r).value, "List") == Some(Arr(p.parseArray(r.body).value))
    ensures key != "List" && key != "MetaData" ==> Get(ParseResponse(p, uri, r).value, key).None?
  {
    var j: Props := [("List", Arr(p.parseArray(r.body).value))];
    assert r.body[0] == '[';
    PutGet(j, "MetaData", MetaData(uri, r.lastModified), "List");
    PutGet(j, "MetaData", MetaData(uri, r.lastModified), key);
  }

  /** The object a response yields, returned or carried by its exception. */
  function Built(res: Result<Props, Exception>): Option<Props>
  {
    match res
    case Ok(j) => Some(j)
    case Err(ApiException(_, j)) => Some(j)
    case Err(_) => None
  }

  /**
   * Whatever the body holds, the built object's `MetaData` is the one the
   * client writes, and every other key of the body is kept as it was.
   */
  lemma MetaDataOverwritten(p: JsonParser, uri: string, r: Retry.Response, key: string)
    requires Classify(p, r.body).Ok?
    ensures Built(ParseResponse(p, uri, r)).Some?
    ensures Get(Built(ParseResponse(p, uri, r)).value, "MetaData") == Some(MetaData(uri, r.lastModified))
    ensures key != "MetaData" ==> Get(Built(ParseResponse(p, uri, r)).value, key) == Get(Classify(p, r.body).value, key)
  {
    PutGet(Classify(p, r.body).value, "MetaData", MetaData(uri, r.lastModified), key);
  }

  /**
   * A failing status always throws, with the reason phrase as the message
   * (plus the `errors` list the body may carry).
   */
  lemma FailureThrows(p: JsonParser, uri: string, r: Retry.Response)
    requires Classify(p, r.body).Ok? && !IsSuccess(r.status)
    ensures ParseResponse(p, uri, r).Err?
    ensures ParseResponse(p, uri, r).error.ApiException?
    ensures r.reason <= ParseResponse(p, uri, r).error.message
  {
    var built := Put(Classify(p, r.body).value, "MetaData", MetaData(uri, r.lastModified));
    GetMessageExtends(r.reason, Some(built));
  }

  /** The message of an embedded `ApiError`, or the empty string when it has none. */
  function ErrorMessage(error: Props): string
  {
    match Get(error, "message")
    case Some(Str(s)) => s
    case _ => ""
  }

  /**
   * `convertTo<T>(j)` for an `ApiEntry` type: reading `MetaData.Error` throws
   * when there is no `MetaData`, and an `ApiException` is thrown when the
   * error is set.
   */
  function ConvertTo(j: Props): (r: Result<Props, Exception>)
    ensures r.Ok? ==> r.value == j
    ensures Get(j, "MetaData").None? || Get(j, "MetaData") == Some(Null) ==> r == Err(NullReference)
    ensures var md := Get(j, "MetaData");
      md.Some? && md.value.Obj? && Get(md.value.props, "Error").Some? && Get(md.value.props, "Error").value.Obj? ==>
      r == Err(ApiException(GetMessage(ErrorMessage(Get(md.value.props, "Error").value.props), Some(j)), j))
    ensures var md := Get(j, "MetaData");
      md.Some? && md.value.Obj? && (Get(md.value.props, "Error").None? || Get(md.value.props, "Error") == Some(Null)) ==>
      r == Ok(j)
  {
    match Get(j, "MetaData")
    case None => Err(NullReference)
    case Some(Null) => Err(NullReference)
    case Some(Obj(m)) =>
      (match Get(m, "Error")
       case None => Ok(j)
       case Some(Null) => Ok(j)
       case Some(Obj(error)) => Err(ApiException(GetMessage(ErrorMessage(error), Some(j)), j))
       case Some(_) => Err(JsonSerialization))
    case Some(_) => Err(JsonSerialization)
  }

  /**
   * `convertTo` never finds an error in an object built from a response: the
   * `MetaData` the client writes has no `Error`.
   */
  lemma ParsedHasNoEmbeddedError(p: JsonParser, uri: string, r: Retry.Response)
    requires ParseResponse(p, uri, r).Ok?
    ensures ConvertTo(ParseResponse(p, uri, r).value) == Ok(ParseResponse(p, uri, r).value)
  {
    var j := Classify(p, r.body).value;
    PutGet(j, "MetaData", MetaData(uri, r.lastModified), "");
    var m := MetaData(uri, r.lastModified).props;
    assert Get(m, "Error") == None by {
      if |m| == 2 {
        assert m[1..][1..] == [];
      }
    }
  }
}
