/**
 * Walking a paged list (`ApiList<T>.GetNext`, `All` and the virtual `Convert`
 * in DiscourseApi/ApiEntry.cs): fetch the next chunk while the server has
 * more, and yield the items of every chunk in order.
 */
module Listing {
  import opened Wrappers
  import opened Text
  import opened Json
  import Query
  import opened Paging
  import Topics
  import Users
  import Groups

  /** The HTTP methods a list is fetched with. */
  datatype HttpMethod = GET | POST

  /**
   * `Api.SendMessageAsync`: send a request and read the response as a JSON
   * object. The network, the retry loop and the body parsing are behind it;
   * a failure stands for the exception it throws.
   */
  datatype Server = Server(send: (HttpMethod, string, Option<Props>) -> Result<Props, Exception>)

  /** The `Convert` a list of each kind runs on the JSON of its next chunk. */
  function Converted(esc: Query.Escaping, kind: Kind, j: Props): Result<ListPage, Exception>
  {
    match kind
    case Plain => Deserialize(Plain, j)
    case TopicPages => Topics.Converted(esc, j)
    case UserPages => Users.Converted(esc, j)
    case GroupPages => Groups.ListConverted(j)
    case MemberPages => Groups.MembersConverted(j)
  }

  /** GET when the list was not fetched with a POST body, POST otherwise. */
  function MethodFor(r: ListRequest): HttpMethod
  {
    if r.postParameters.None? then GET else POST
  }

  /**
   * `GetNext(api)`: null when the server has no more data; otherwise the
   * next chunk, fetched from `NextPageUrl` with the list's own POST body and
   * converted by the list's own `Convert`. A null `NextPageUrl` fails the
   * send.
   */
  function GetNext(esc: Query.Escaping, server: Server, p: ListPage): (r: Result<Option<ListPage>, Exception>)
    ensures r == Ok(None) <==> !HasMoreData(p)
    ensures HasMoreData(p) && NextPageUrl(esc, p) == Ok(None) ==> r == Err(InvalidOperation)
  {
    if !HasMoreData(p) then Ok(None)
    else
      var url :- NextPageUrl(esc, p);
      if url.None? then Err(InvalidOperation)
      else
        var j :- server.send(MethodFor(p.request), url.value, p.request.postParameters);
        var next :- Converted(esc, p.kind, j);
        Ok(Some(next))
  }

  /**
   * `GetNext` makes one request, to `NextPageUrl`, with the list's own POST
   * body, and with GET exactly when that body is null: two servers that
   * answer that request alike give the same next chunk.
   */
  lemma GetNextAsksOnce(esc: Query.Escaping, s1: Server, s2: Server, p: ListPage, url: string)
    requires NextPageUrl(esc, p) == Ok(Some(url))
    requires var m := if p.request.postParameters.None? then GET else POST;
      s1.send(m, url, p.request.postParameters) == s2.send(m, url, p.request.postParameters)
    ensures GetNext(esc, s1, p) == GetNext(esc, s2, p)
  {
    assert MethodFor(p.request) == if p.request.postParameters.None? then GET else POST;
  }

  /** How a walk over the chunks ended. */
  datatype Stop =
    | Exhausted            // a null or empty chunk ended the loop
    | Failed(e: Exception) // `chunk.GetNext(api).Result` threw
    | Paused               // the consumer stopped asking for items

  /** What `chunk.GetNext(api)` returns for each chunk. */
  type Fetch = ListPage -> Result<Option<ListPage>, Exception>

  /** `GetNext` with the API fixed. */
  function Fetcher(esc: Query.Escaping, server: Server): Fetch
  {
    p => GetNext(esc, server, p)
  }

  /**
   * The items `All` yields from `chunk` on, and how the walk ends. `fuel` is
   * the number of further chunks the consumer reads before it stops.
   */
  function Walk(fetch: Fetch, chunk: Option<ListPage>, fuel: nat): (seq<Token>, Stop)
    decreases fuel
  {
    if chunk.None? || |chunk.value.list| == 0 then ([], Exhausted)
    else if fuel == 0 then (chunk.value.list, Paused)
    else
      match fetch(chunk.value)
      case Err(e) => (chunk.value.list, Failed(Aggregate(e)))
      case Ok(next) =>
        var rest := Walk(fetch, next, fuel - 1);
        (chunk.value.list + rest.0, rest.1)
  }

  /**
   * `All(api)`: while the chunk is not null and not empty, yield its items
   * one by one, then fetch the next chunk. `fetch` is `GetNext` on the API
   * (`Fetcher`).
   */
  method All(fetch: Fetch, first: ListPage, fuel: nat) returns (items: seq<Token>, stop: Stop)
    ensures (items, stop) == Walk(fetch, Some(first), fuel)
  {
    var chunk := Some(first);
    var left := fuel;
    items := [];
    assert items + Walk(fetch, chunk, left).0 == Walk(fetch, chunk, left).0;
    while chunk.Some? && |chunk.value.list| > 0
      invariant Walk(fetch, Some(first), fuel) ==
        (items + Walk(fetch, chunk, left).0, Walk(fetch, chunk, left).1)
      decreases left
    {
      ghost var before := items;
      items := Yield(items, chunk.value.list);
      if left == 0 {
        return items, Paused;
      }
      var next := fetch(chunk.value);
      if next.Err? {
        return items, Failed(Aggregate(next.error));
      }
      ghost var rest := Walk(fetch, next.value, left - 1);
      assert Walk(fetch, chunk, left) == (chunk.value.list + rest.0, rest.1);
      assert before + (chunk.value.list + rest.0) == items + rest.0;
      chunk := next.value;
      left := left - 1;
    }
    assert items + [] == items;
    stop := Exhausted;
  }

  /** `foreach (T t in chunk.List) yield return t;` */
  method Yield(items: seq<Token>, page: seq<Token>) returns (out: seq<Token>)
    ensures out == items + page
  {
    out := items;
    for k := 0 to |page|
      invariant out == items + page[..k]
    {
      out := out + [page[k]];
    }
    assert page[..|page|] == page;
  }

  /**
   * Reading further never takes back what was yielded: with one more chunk
   * the items so far are a prefix, and a walk that did not pause is already
   * complete.
   */
  lemma {:induction false} WalkFurther(fetch: Fetch, chunk: Option<ListPage>, fuel: nat)
    ensures Walk(fetch, chunk, fuel).0 <= Walk(fetch, chunk, fuel + 1).0
    ensures Walk(fetch, chunk, fuel).1 != Paused ==> Walk(fetch, chunk, fuel + 1) == Walk(fetch, chunk, fuel)
    decreases fuel
  {
    if chunk.Some? && |chunk.value.list| > 0 && fuel > 0 {
      match fetch(chunk.value)
      case Err(e) =>
      case Ok(next) =>
        WalkFurther(fetch, next, fuel - 1);
    }
  }

  /**
   * The first chunk's items come first, and a non-empty chunk with no more
   * data on the server is the last one: the walk yields exactly its items.
   */
  lemma LastChunkEndsWalk(esc: Query.Escaping, server: Server, p: ListPage, fuel: nat)
    requires |p.list| > 0 && !HasMoreData(p)
    ensures Walk(Fetcher(esc, server), Some(p), fuel) == (p.list, if fuel == 0 then Paused else Exhausted)
  {
    if fuel > 0 {
      assert Fetcher(esc, server)(p) == Ok(None);
      assert Walk(Fetcher(esc, server), None, fuel - 1) == ([], Exhausted);
      assert p.list + [] == p.list;
    }
  }

  /**
   * A group list keeps only the `NextPageUrl` its body stored: when the
   * server reports more groups than the first chunk and stored no URL, the
   * walk yields the first chunk and then fails on the send with no URI.
   */
  lemma GroupWalkStalls(esc: Query.Escaping, server: Server, p: ListPage, fuel: nat)
    requires p.kind == GroupPages && p.nextPageUrl.None? && HasMoreData(p)
    requires |p.list| > 0 && fuel > 0
    ensures Walk(Fetcher(esc, server), Some(p), fuel) == (p.list, Failed(Aggregate(InvalidOperation)))
  {
    assert Fetcher(esc, server)(p) == Err(InvalidOperation);
  }

  /**
   * The base `Convert` reads the next chunk as it comes: when the server's
   * body carries no `Request` and no `page`, the chunk forgets the cursor it
   * was fetched with and, if it has more data, asks for offset 100 again.
   */
  lemma PlainConvertForgetsCursor(esc: Query.Escaping, server: Server, p: ListPage, url: string, j: Props)
    requires p.kind == Plain && HasMoreData(p) && NextPageUrl(esc, p) == Ok(Some(url))
    requires server.send(MethodFor(p.request), url, p.request.postParameters) == Ok(j)
    requires Get(j, "Request").None? && Get(j, "page").None?
    requires GetNext(esc, server, p).Ok?
    ensures GetNext(esc, server, p).value.Some?
    ensures var n := GetNext(esc, server, p).value.value;
      n.kind == Plain && n.request == DefaultRequest && n.page == 0 &&
      (HasMoreData(n) ==> CursorParams(n) == [("limit", Int(100)), ("offset", Int(100))])
  {
    assert GetNext(esc, server, p) == (match Deserialize(Plain, j) case Ok(n) => Ok(Some(n)) case Err(e) => Err(e));
    NoCursorInBody(j);
  }

  lemma NoCursorInBody(j: Props)
    requires Deserialize(Plain, j).Ok? && Get(j, "Request").None? && Get(j, "page").None?
    ensures var n := Deserialize(Plain, j).value;
      n.kind == Plain && n.request == DefaultRequest && n.page == 0 &&
      (HasMoreData(n) ==> CursorParams(n) == [("limit", Int(100)), ("offset", Int(100))])
  {
    DeserializedRequest(Plain, j);
    DeserializedFields(Plain, j);
    assert Wrap32(0 + 100) == 100;
  }
}
