/**
 * The request `SendMessageAsyncAndGetResponse` (DiscourseApi/Api.cs) builds
 * before sending: the per-message headers and the shape of the body.
 */
module Requests {
  import opened Wrappers
  import opened Json
  import Form
  import Cfg = Settings

  datatype Header = Header(name: string, value: string)

  /**
   * The headers added to each message. `Api-Key` and `Api-Username` are sent
   * only when set and non-empty; `Accept` and `User-Agent` always.
   */
  function MessageHeaders(s: Cfg.Settings): seq<Header>
  {
    (if Cfg.NullOrEmpty(s.apiKey) then [] else [Header("Api-Key", s.apiKey.value)]) +
    (if Cfg.NullOrEmpty(s.apiUsername) then [] else [Header("Api-Username", s.apiUsername.value)]) +
    [Header("Accept", "application/json"),
     Header("User-Agent", if s.applicationName.Some? then s.applicationName.value else "")]
  }

  /** The values of the headers named `name`, in order. */
  function Values(hs: seq<Header>, name: string): seq<string>
  {
    if |hs| == 0 then []
    else (if hs[0].name == name then [hs[0].value] else []) + Values(hs[1..], name)
  }

  lemma {:induction false} ValuesAppend(a: seq<Header>, b: seq<Header>, name: string)
    ensures Values(a + b, name) == Values(a, name) + Values(b, name)
  {
    if |a| == 0 {
      assert a + b == b;
    } else {
      assert (a + b)[0] == a[0];
      assert (a + b)[1..] == a[1..] + b;
      ValuesAppend(a[1..], b, name);
    }
  }

  lemma ValuesOne(h: Header, name: string)
    ensures Values([h], name) == if h.name == name then [h.value] else []
  {
    assert [h][1..] == [];
  }

  /** The headers as the four groups `MessageHeaders` concatenates. */
  lemma ValuesByGroup(s: Cfg.Settings, name: string)
    ensures Values(MessageHeaders(s), name) ==
      (if Cfg.NullOrEmpty(s.apiKey) || name != "Api-Key" then [] else [s.apiKey.value]) +
      (if Cfg.NullOrEmpty(s.apiUsername) || name != "Api-Username" then [] else [s.apiUsername.value]) +
      (if name == "Accept" then ["application/json"] else []) +
      (if name == "User-Agent" then [if s.applicationName.Some? then s.applicationName.value else ""] else [])
  {
    var k: seq<Header> := if Cfg.NullOrEmpty(s.apiKey) then [] else [Header("Api-Key", s.apiKey.value)];
    var u: seq<Header> := if Cfg.NullOrEmpty(s.apiUsername) then [] else [Header("Api-Username", s.apiUsername.value)];
    var a := Header("Accept", "application/json");
    var g := Header("User-Agent", if s.applicationName.Some? then s.applicationName.value else "");
    assert MessageHeaders(s) == k + u + [a] + [g];
    ValuesAppend(k + u + [a], [g], name);
    ValuesAppend(k + u, [a], name);
    ValuesAppend(k, u, name);
    if !Cfg.NullOrEmpty(s.apiKey) {
      ValuesOne(k[0], name);
    }
    if !Cfg.NullOrEmpty(s.apiUsername) {
      ValuesOne(u[0], name);
    }
    ValuesOne(a, name);
    ValuesOne(g, name);
  }

  /**
   * Each header appears once at most: the key and the user name exactly when
   * they are non-empty, with their values; `Accept` always asks for JSON.
   */
  lemma HeadersSent(s: Cfg.Settings)
    ensures Values(MessageHeaders(s), "Api-Key") == if Cfg.NullOrEmpty(s.apiKey) then [] else [s.apiKey.value]
    ensures Values(MessageHeaders(s), "Api-Username") == if Cfg.NullOrEmpty(s.apiUsername) then [] else [s.apiUsername.value]
    ensures Values(MessageHeaders(s), "Accept") == ["application/json"]
    ensures |Values(MessageHeaders(s), "User-Agent")| == 1
  {
    ValuesByGroup(s, "Api-Key");
    ValuesByGroup(s, "Api-Username");
    ValuesByGroup(s, "Accept");
    ValuesByGroup(s, "User-Agent");
  }

  /**
   * What the caller passes as `postParameters` (`None` is null): a file
   * stream, a ready-made `HttpContent`, a string, or an object given as its
   * JSON properties.
   */
  datatype PostParameters =
    | FileStream(path: string)
    | Content(content: nat)
    | Text(text: string)
    | Data(props: Props)

  /** The message body. */
  datatype Body =
    | NoBody
    | StreamBody(path: string)
    | Passed(content: nat)
    | PlainText(text: string)
    | FormUrlEncoded(pairs: seq<Form.Pair>)

  /**
   * The body-shape choice: a file is streamed, an `HttpContent` is sent as it
   * is, and anything else goes through `ToCollection`, whose `ToJObject`
   * refuses a value that does not serialise to a JSON object.
   */
  function BodyFor(p: Option<PostParameters>): (r: Result<Body, Exception>)
    ensures r.Ok? && r.value.FormUrlEncoded? <==> p.Some? && p.value.Data?
    ensures p.None? ==> r == Ok(NoBody)
    ensures p.Some? && p.value.FileStream? ==> r == Ok(StreamBody(p.value.path))
    ensures p.Some? && p.value.Content? ==> r == Ok(Passed(p.value.content))
    ensures p.Some? && p.value.Text? ==> r == Err(Argument)
    ensures p.Some? && p.value.Data? ==> r == Ok(FormUrlEncoded(Form.FormPairs(p.value.props)))
  {
    match p
    case None => Ok(NoBody)
    case Some(FileStream(path)) => Ok(StreamBody(path))
    case Some(Content(c)) => Ok(Passed(c))
    case Some(Text(_)) => Err(Argument)
    case Some(Data(props)) => Ok(FormUrlEncoded(Form.FormPairs(props)))
  }

  /**
   * The body the method's own documentation describes for a string: sent as
   * it is, as text.
   */
  function IntendedBodyFor(p: Option<PostParameters>): (r: Result<Body, Exception>)
    ensures r.Ok?
    ensures p.Some? && p.value.Text? ==> r == Ok(PlainText(p.value.text))
  {
    match p
    case Some(Text(s)) => Ok(PlainText(s))
    case _ => BodyFor(p)
  }

  /** As written, a string body never reaches the server. */
  lemma StringBodyRefused(s: string)
    ensures BodyFor(Some(Text(s))) == Err(Argument)
    ensures IntendedBodyFor(Some(Text(s))) == Ok(PlainText(s))
  {
  }

  /** The intended choice differs from the written one on strings only. */
  lemma IntendedAgreesElsewhere(p: Option<PostParameters>)
    ensures IntendedBodyFor(p) != BodyFor(p) <==> p.Some? && p.value.Text?
  {
  }
}
