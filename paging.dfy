/**
 * `ListRequest` and `ApiList<T>` (DiscourseApi/ApiEntry.cs): a page of a list
 * and its cursor, which is either a page number (`page > 0`) or an offset
 * and a limit. `TopicListReturn` (DiscourseApi/Topic.cs) and `GroupList`
 * (DiscourseApi/Group.cs) override how the cursor moves.
 */
module Paging {
  import opened Wrappers
  import opened Text
  import opened Json
  import Query

  /** `ListRequest`: the offset cursor, and the body a POSTed list is fetched with. */
  datatype ListRequest = ListRequest(postParameters: Option<Props>, limit: int, offset: int)

  /** `new ListRequest()`. */
  const DefaultRequest := ListRequest(None, 100, 0)

  /** The class of a page, for the members the subclasses override. */
  datatype Kind =
    | Plain        // ApiList<T> itself
    | TopicPages   // TopicListReturn
    | UserPages    // UserList
    | GroupPages   // GroupList
    | MemberPages  // GroupMemberList

  /**
   * The fields of an `ApiList<T>`. `uri` is `MetaData.Uri` (`None` when there
   * is none); `nextPageUrl` is the value `GroupList` stores for
   * `NextPageUrl`; `additional` is `AdditionalData`, the properties no field
   * takes. The reader creates that dictionary only when it stores a first
   * property, so an empty `additional` stands for a null dictionary. The
   * items of `list` are kept as JSON.
   */
  datatype ListPage = ListPage(
    kind: Kind,
    uri: Option<string>,
    request: ListRequest,
    page: int,
    perPage: int,
    totalCount: int,
    list: seq<Token>,
    nextPageUrl: Option<string>,
    additional: Props)

  /** `ApiList<T>.EmptyList(uri)`: a list with no items, read from `uri`. */
  function EmptyList(uri: string): (p: ListPage)
    ensures !HasMoreData(p)
  {
    ListPage(Plain, Some(uri), DefaultRequest, 0, 100, 0, [], None, [])
  }

  // ------------------------------------------------------------ the cursor

  /**
   * `RetrievedCount`: the items fetched up to the end of this page (C# `int`
   * arithmetic). `TopicListReturn` counts `perPage * page`.
   */
  function RetrievedCount(p: ListPage): int
  {
    match p.kind
    case TopicPages => Wrap32(p.perPage * p.page)
    case _ =>
      if p.page > 0 then Wrap32(p.perPage * (p.page - 1))
      else Wrap32(p.request.offset + p.request.limit)
  }

  /**
   * `HasMoreData`: in page mode, whether this page is full; in offset mode,
   * whether fewer items than the total were fetched. `TopicListReturn` always
   * uses the first rule.
   */
  predicate HasMoreData(p: ListPage)
  {
    if p.kind == TopicPages || p.page > 0 then |p.list| == p.perPage
    else RetrievedCount(p) < p.totalCount
  }

  /** Whether the next page is asked for by page number. */
  predicate PageMode(p: ListPage)
  {
    p.kind == TopicPages || p.page > 0
  }

  /** The parameters `NextPageUrl` adds to `MetaData.Uri`. */
  function CursorParams(p: ListPage): Props
  {
    if PageMode(p) then [("page", Int(Wrap32(p.page + 1)))]
    else [("limit", Int(p.request.limit)), ("offset", Int(RetrievedCount(p)))]
  }

  /**
   * `NextPageUrl`: null when there is no more data, else `MetaData.Uri` with
   * the cursor moved on. `GroupList` returns the value it stores instead.
   */
  function NextPageUrl(esc: Query.Escaping, p: ListPage): (r: Result<Option<string>, Exception>)
    ensures p.kind != GroupPages ==> (r == Ok(None) <==> !HasMoreData(p))
    ensures p.kind == GroupPages ==> r == Ok(p.nextPageUrl)
  {
    if p.kind == GroupPages then Ok(p.nextPageUrl)
    else if !HasMoreData(p) then Ok(None)
    else if p.uri.None? then Err(NullReference)
    else
      match Query.WithParams(esc, p.uri.value, CursorParams(p))
      case Ok(next) => Ok(Some(next))
      case Err(e) => Err(e)
  }

  lemma IntToStringUnreserved(n: int)
    ensures Query.Unreserved(IntToString(n))
  {
    var s := IntToString(n);
    if n < 0 {
      forall i | 0 <= i < |s| ensures IsDigit(s[i]) || s[i] == '-'
      {
        if i > 0 {
          assert s[i] == s[1..][i - 1];
        }
      }
    }
  }

  /** Integer parameters under unreserved names are unreserved text. */
  lemma IntParamsUnreserved(names: seq<string>, values: seq<int>)
    requires |names| == |values| <= 2
    requires forall k :: 0 <= k < |names| ==> Query.Unreserved(names[k])
    ensures Query.UnreservedParams(seq(|names|, k requires 0 <= k < |names| => (names[k], Int(values[k]))))
  {
    forall k | 0 <= k < |names|
      ensures Query.Unreserved(Render(Int(values[k])))
    {
      IntToStringUnreserved(values[k]);
    }
  }

  lemma CursorParamsUnreserved(p: ListPage)
    ensures Query.UnreservedParams(CursorParams(p))
  {
    if PageMode(p) {
      var n := Wrap32(p.page + 1);
      assert Query.Unreserved("page");
      IntParamsUnreserved(["page"], [n]);
      assert CursorParams(p) == seq(1, k requires 0 <= k < 1 => (["page"][k], Int([n][k])));
    } else {
      var limit := p.request.limit;
      var offset := RetrievedCount(p);
      assert Query.Unreserved("limit") && Query.Unreserved("offset");
      IntParamsUnreserved(["limit", "offset"], [limit, offset]);
      assert CursorParams(p) == seq(2, k requires 0 <= k < 2 => (["limit", "offset"][k], Int([limit, offset][k])));
    }
  }

  /**
   * The next page's URI, read back through `QueryParams`, carries the moved
   * cursor: `page + 1` in page mode, and in offset mode the same `limit` and
   * an `offset` of `RetrievedCount`. Every other query parameter is kept.
   * (Escaping is the real one and the URI's own query reads back cleanly.)
   */
  lemma NextPageCursor(esc: Query.Escaping, p: ListPage, key: string)
    requires p.kind != GroupPages && HasMoreData(p) && p.uri.Some?
    requires Query.Plain(esc) && Avoids(p.uri.value, {'#'})
    requires Query.WellFormed(esc, Query.ParsedQuery(esc, p.uri.value))
    ensures NextPageUrl(esc, p).Ok? && NextPageUrl(esc, p).value.Some?
    ensures var q := Query.ParsedQuery(esc, NextPageUrl(esc, p).value.value);
      if PageMode(p) then
        Query.Lookup(q, "page") == Some(Some(IntToString(Wrap32(p.page + 1))))
      else
        Query.Lookup(q, "limit") == Some(Some(IntToString(p.request.limit))) &&
        Query.Lookup(q, "offset") == Some(Some(IntToString(RetrievedCount(p))))
    ensures key !in {"page", "limit", "offset"} ==>
      Query.Lookup(Query.ParsedQuery(esc, NextPageUrl(esc, p).value.value), key) ==
      Query.Lookup(Query.ParsedQuery(esc, p.uri.value), key)
  {
    var uri := p.uri.value;
    var ps := CursorParams(p);
    CursorParamsUnreserved(p);
    Query.AddGetParamsReadBack(esc, uri, ps);
    var next := Query.WithParams(esc, uri, ps).value;
    assert NextPageUrl(esc, p) == Ok(Some(next));
    var d := Query.ParsedQuery(esc, uri);
    assert Query.ParsedQuery(esc, next) == Query.Merge(d, ps);
    CursorLookup(d, p, key);
    if PageMode(p) {
      CursorLookup(d, p, "page");
    } else {
      CursorLookup(d, p, "limit");
      CursorLookup(d, p, "offset");
    }
  }

  /** What the cursor parameters do to one key of a query. */
  lemma CursorLookup(d: Query.Dict, p: ListPage, key: string)
    ensures Query.Lookup(Query.Merge(d, CursorParams(p)), key) ==
      if PageMode(p) && key == "page" then Some(Some(IntToString(Wrap32(p.page + 1))))
      else if !PageMode(p) && key == "limit" then Some(Some(IntToString(p.request.limit)))
      else if !PageMode(p) && key == "offset" then Some(Some(IntToString(RetrievedCount(p))))
      else if key in {"page", "limit", "offset"} then Query.Lookup(Query.Merge(d, CursorParams(p)), key)
      else Query.Lookup(d, key)
  {
    var ps := CursorParams(p);
    Query.MergeLookup(d, ps, key);
    if !PageMode(p) {
      assert ps[..1] == [ps[0]];
      assert ps[..1][..0] == [];
      assert "limit" != "offset";
      assert Query.LastMention(ps[..1][..0], key) == None;
      assert Query.LastMention(ps[..1], key) == if key == "limit" then Some(Int(p.request.limit)) else None;
      assert Query.LastMention(ps, key) ==
        if key == "offset" then Some(Int(RetrievedCount(p)))
        else if key == "limit" then Some(Int(p.request.limit))
        else None;
    } else {
      assert ps[..0] == [];
    }
  }

  // --------------------------------------------------- reading a page back

  /**
   * An `int` field: the class default when absent or null (nulls are ignored
   * when reading), else a 32-bit integer.
   */
  function IntField(j: Props, key: string, default: int): (r: Result<int, Exception>)
    ensures r.Ok? ==> ((Get(j, key).None? || Get(j, key) == Some(Null)) && r.value == default) || Get(j, key) == Some(Int(r.value))
    ensures Get(j, key).None? || Get(j, key) == Some(Null) ==> r == Ok(default)
    ensures Get(j, key).Some? && Get(j, key).value.Int? ==>
      (r.Ok? <==> Int32Min <= Get(j, key).value.i <= Int32Max)
  {
    match Get(j, key)
    case None => Ok(default)
    case Some(Null) => Ok(default)
    case Some(Int(i)) => if Int32Min <= i <= Int32Max then Ok(i) else Err(Overflow)
    case Some(_) => Err(JsonSerialization)
  }

  /** An explicit `(int)` conversion of a token, or `Value<int>()`. */
  function ToInt32(t: Option<Token>): (r: Result<int, Exception>)
    ensures r.Ok? ==> Int32Min <= r.value <= Int32Max
    ensures t.Some? && t.value.Int? && Int32Min <= t.value.i <= Int32Max ==> r == Ok(t.value.i)
  {
    match t
    case None => Err(ArgumentNull)
    case Some(Int(i)) => if Int32Min <= i <= Int32Max then Ok(i) else Err(Overflow)
    case Some(Bool(b)) => Ok(if b then 1 else 0)
    case Some(Str(s)) =>
      (match ParseInt(Some(s))
       case Ok(i) => Ok(i)
       case Err(e) => Err(FromNumberError(e)))
    case Some(_) => Err(Argument)
  }

  /** A field holding a JSON object, or nothing. */
  function ObjectField(j: Props, key: string): Result<Option<Props>, Exception>
  {
    match Get(j, key)
    case None => Ok(None)
    case Some(Null) => Ok(None)
    case Some(Obj(ps)) => Ok(Some(ps))
    case Some(_) => Err(JsonSerialization)
  }

  /** A field holding a string, or nothing. */
  function StringField(j: Props, key: string): Result<Option<string>, Exception>
  {
    match Get(j, key)
    case None => Ok(None)
    case Some(Null) => Ok(None)
    case Some(Str(s)) => Ok(Some(s))
    case Some(_) => Err(JsonSerialization)
  }

  /** A field holding a list, empty when absent. */
  function ListField(j: Props, key: string): Result<seq<Token>, Exception>
  {
    match Get(j, key)
    case None => Ok([])
    case Some(Null) => Ok([])
    case Some(Arr(items)) => Ok(items)
    case Some(_) => Err(JsonSerialization)
  }

  /** A `ListRequest` read from JSON. */
  function ReadRequest(j: Option<Props>): Result<ListRequest, Exception>
  {
    match j
    case None => Ok(DefaultRequest)
    case Some(r) =>
      var post :- ObjectField(r, "PostParameters");
      var limit :- IntField(r, "limit", 100);
      var offset :- IntField(r, "offset", 0);
      Ok(ListRequest(post, limit, offset))
  }

  /** The JSON properties some member of the class takes. */
  function Known(kind: Kind): set<string>
  {
    {"MetaData", "Request", "page", "perPage", "TotalCount", "List", "NextPageUrl",
     "Count", "RetrievedCount", "HasMoreData"} +
    match kind
    case TopicPages => {"users", "primary_groups", "topic_list"}
    case MemberPages => {"owners"}
    case _ => {}
  }

  /** The properties whose names are not in `known`, in order. */
  function Unknown(j: Props, known: set<string>): (r: Props)
    ensures forall i :: 0 <= i < |r| ==> r[i].0 !in known
    ensures forall key :: key !in known ==> Get(r, key) == Get(j, key)
    ensures |r| <= |j|
  {
    if |j| == 0 then []
    else
      var rest := Unknown(j[1..], known);
      if j[0].0 in known then rest
      else
        assert ([j[0]] + rest)[1..] == rest;
        [j[0]] + rest
  }

  /**
   * `j.ConvertToObject<…>()` for a list class: each field is taken from the
   * property of its name when there is one, and keeps its default otherwise.
   */
  function Deserialize(kind: Kind, j: Props): Result<ListPage, Exception>
  {
    var meta :- ObjectField(j, "MetaData");
    var uri :- if meta.Some? then StringField(meta.value, "Uri") else Ok(None);
    var requestProps :- ObjectField(j, "Request");
    var request :- ReadRequest(requestProps);
    var page :- IntField(j, "page", 0);
    var perPage :- IntField(j, "perPage", 100);
    var total :- IntField(j, "TotalCount", 0);
    var list :- ListField(j, "List");
    var next :- if kind == GroupPages then StringField(j, "NextPageUrl") else Ok(None);
    Ok(ListPage(kind, uri, request, page, perPage, total, list, next, Unknown(j, Known(kind))))
  }

  /** No field of `GroupMemberList` takes `members` or `meta`. */
  lemma MemberKeysUnknown()
    ensures "members" !in Known(MemberPages) && "meta" !in Known(MemberPages)
  {
    forall s | s in Known(MemberPages)
      ensures |s| > 0 && s[0] != 'm'
    {
    }
    assert "members"[0] == 'm' && "meta"[0] == 'm';
  }

  /**
   * `AdditionalData` of a list read from JSON holds every property of the
   * body that no field of the class takes, with its value.
   */
  lemma DeserializedKeepsUnknown(kind: Kind, j: Props, key: string)
    requires Deserialize(kind, j).Ok? && key !in Known(kind)
    ensures Get(Deserialize(kind, j).value.additional, key) == Get(j, key)
  {
  }

  /** `AdditionalData` after reading holds exactly the properties no field takes. */
  lemma DeserializedAdditional(kind: Kind, j: Props)
    requires Deserialize(kind, j).Ok?
    ensures Deserialize(kind, j).value.additional == Unknown(j, Known(kind))
  {
    var k := Known(kind);
    var meta := ObjectField(j, "MetaData").value;
    var uri := (if meta.Some? then StringField(meta.value, "Uri") else Ok(None)).value;
    var requestProps := ObjectField(j, "Request").value;
    var request := ReadRequest(requestProps).value;
    var page := IntField(j, "page", 0).value;
    var perPage := IntField(j, "perPage", 100).value;
    var total := IntField(j, "TotalCount", 0).value;
    var list := ListField(j, "List").value;
    var next := (if kind == GroupPages then StringField(j, "NextPageUrl") else Ok(None)).value;
    assert Deserialize(kind, j) == Ok(ListPage(kind, uri, request, page, perPage, total, list, next, Unknown(j, k)));
  }

  /** When every property is one of the type's own, nothing is left over. */
  lemma {:induction false} NothingUnknown(j: Props, known: set<string>)
    requires forall i :: 0 <= i < |j| ==> j[i].0 in known
    ensures Unknown(j, known) == []
  {
    if |j| > 0 {
      assert j[0].0 in known;
      NothingUnknown(j[1..], known);
    }
  }

  /** A group list keeps the `NextPageUrl` string field of its body. */
  lemma DeserializedNext(j: Props)
    requires Deserialize(GroupPages, j).Ok?
    ensures Deserialize(GroupPages, j).value.kind == GroupPages
    ensures StringField(j, "NextPageUrl") == Ok(Deserialize(GroupPages, j).value.nextPageUrl)
  {
  }

  /**
   * A page read from JSON with no `Request`, `page` or `perPage` property has
   * the defaults: offset 0, limit 100, page 0, 100 per page, and no POST body.
   */
  lemma DefaultsUnlessSupplied(kind: Kind, j: Props)
    requires Get(j, "Request").None? && Get(j, "page").None? && Get(j, "perPage").None?
    requires Deserialize(kind, j).Ok?
    ensures Deserialize(kind, j).value.request == DefaultRequest
    ensures Deserialize(kind, j).value.page == 0 && Deserialize(kind, j).value.perPage == 100
  {
  }

  /** The `ListRequest` as `ToJObject` writes it: a null body is left out. */
  function RequestProps(r: ListRequest): Props
  {
    (if r.postParameters.Some? then [("PostParameters", Obj(r.postParameters.value))] else []) +
    [("limit", Int(r.limit)), ("offset", Int(r.offset))]
  }

  /**
   * `GetAsync<T>` for a list type: the response gets a `Request` property,
   * the get parameters or else a new `ListRequest`.
   */
  function AttachRequest(j: Props, getParameters: Option<Props>): Props
  {
    Put(j, "Request", Obj(if getParameters.Some? then getParameters.value else RequestProps(DefaultRequest)))
  }

  /**
   * `PostAsync<T>` for a list type: as `AttachRequest`, with the post
   * parameters stored as the request's `PostParameters`; a null body throws.
   */
  function AttachPostRequest(j: Props, getParameters: Option<Props>, postParameters: Option<Props>): (r: Result<Props, Exception>)
    ensures r.Err? <==> postParameters.None?
  {
    if postParameters.None? then Err(ArgumentNull)
    else
      var base := if getParameters.Some? then getParameters.value else RequestProps(DefaultRequest);
      Ok(Put(j, "Request", Obj(Put(base, "PostParameters", Obj(postParameters.value)))))
  }

  /** A request whose cursor fits in an `int`. */
  predicate Representable(r: ListRequest)
  {
    Int32Min <= r.limit <= Int32Max && Int32Min <= r.offset <= Int32Max
  }

  /** The kind, page and page size of a list read from JSON. */
  lemma DeserializedFields(kind: Kind, j: Props)
    requires Deserialize(kind, j).Ok?
    ensures Deserialize(kind, j).value.kind == kind
    ensures IntField(j, "page", 0) == Ok(Deserialize(kind, j).value.page)
    ensures IntField(j, "perPage", 100) == Ok(Deserialize(kind, j).value.perPage)
  {
  }

  /** What `Deserialize` takes the request from. */
  lemma DeserializedRequest(kind: Kind, j: Props)
    requires Deserialize(kind, j).Ok?
    ensures ObjectField(j, "Request").Ok?
    ensures ReadRequest(ObjectField(j, "Request").value) == Ok(Deserialize(kind, j).value.request)
  {
  }

  lemma CursorProps(ps: Props, limit: int, offset: int)
    requires Int32Min <= limit <= Int32Max && Int32Min <= offset <= Int32Max
    requires ps == [("limit", Int(limit)), ("offset", Int(offset))]
    ensures Get(ps, "limit") == Some(Int(limit)) && Get(ps, "offset") == Some(Int(offset))
    ensures IntField(ps, "limit", 100) == Ok(limit) && IntField(ps, "offset", 0) == Ok(offset)
  {
    assert ps[1..] == [("offset", Int(offset))];
  }

  /** A request written by `ToJObject` reads back as itself. */
  lemma RequestRoundTrip(r: ListRequest)
    requires Representable(r)
    ensures ReadRequest(Some(RequestProps(r))) == Ok(r)
  {
    var cursor := [("limit", Int(r.limit)), ("offset", Int(r.offset))];
    CursorProps(cursor, r.limit, r.offset);
    if r.postParameters.Some? {
      var ps := [("PostParameters", Obj(r.postParameters.value))] + cursor;
      assert ps[1..] == cursor;
      assert Get(ps, "PostParameters") == Some(Obj(r.postParameters.value));
      assert Get(ps, "limit") == Get(cursor, "limit");
      assert Get(ps, "offset") == Get(cursor, "offset");
    } else {
      assert RequestProps(r) == cursor;
    }
  }

  /** The same, with a body put into the request afterwards. */
  lemma PostedRequestRoundTrip(r: ListRequest, post: Props)
    requires Representable(r) && r.postParameters.None?
    ensures ReadRequest(Some(Put(RequestProps(r), "PostParameters", Obj(post)))) == Ok(r.(postParameters := Some(post)))
  {
    var cursor := [("limit", Int(r.limit)), ("offset", Int(r.offset))];
    assert RequestProps(r) == cursor;
    CursorProps(cursor, r.limit, r.offset);
    var ps := Put(cursor, "PostParameters", Obj(post));
    PutGet(cursor, "PostParameters", Obj(post), "limit");
    PutGet(cursor, "PostParameters", Obj(post), "offset");
    assert IntField(ps, "limit", 100) == Ok(r.limit);
    assert IntField(ps, "offset", 0) == Ok(r.offset);
    assert ObjectField(ps, "PostParameters") == Ok(Some(post));
  }

  /**
   * The list `GetAsync<T>` returns reads back the request it was given, or a
   * new `ListRequest` (offset 0, limit 100) when it was given none.
   */
  lemma GetRequestReadBack(kind: Kind, j: Props, given: Option<ListRequest>)
    requires given.Some? ==> Representable(given.value)
    requires Deserialize(kind, AttachRequest(j, if given.Some? then Some(RequestProps(given.value)) else None)).Ok?
    ensures Deserialize(kind, AttachRequest(j, if given.Some? then Some(RequestProps(given.value)) else None)).value.request ==
      if given.Some? then given.value else DefaultRequest
  {
    var r := if given.Some? then given.value else DefaultRequest;
    var attached := AttachRequest(j, if given.Some? then Some(RequestProps(given.value)) else None);
    assert attached == Put(j, "Request", Obj(RequestProps(r)));
    PutGet(j, "Request", Obj(RequestProps(r)), "");
    assert ObjectField(attached, "Request") == Ok(Some(RequestProps(r)));
    RequestRoundTrip(r);
    DeserializedRequest(kind, attached);
  }

  /**
   * The list `PostAsync<T>` returns keeps the posted body in its request, so
   * that `GetNext` posts it again for each further page.
   */
  lemma PostRequestReadBack(kind: Kind, j: Props, given: Option<ListRequest>, post: Props)
    requires given.Some? ==> Representable(given.value) && given.value.postParameters.None?
    requires Deserialize(kind, AttachPostRequest(j, if given.Some? then Some(RequestProps(given.value)) else None, Some(post)).value).Ok?
    ensures Deserialize(kind, AttachPostRequest(j, if given.Some? then Some(RequestProps(given.value)) else None, Some(post)).value).value.request ==
      (if given.Some? then given.value else DefaultRequest).(postParameters := Some(post))
  {
    var r := if given.Some? then given.value else DefaultRequest;
    var attached := AttachPostRequest(j, if given.Some? then Some(RequestProps(given.value)) else None, Some(post)).value;
    var body := Put(RequestProps(r), "PostParameters", Obj(post));
    assert attached == Put(j, "Request", Obj(body));
    PutGet(j, "Request", Obj(body), "");
    assert ObjectField(attached, "Request") == Ok(Some(body));
    PostedRequestRoundTrip(r, post);
    DeserializedRequest(kind, attached);
  }

  // ---------------------------------------------------- the page in the URI

  /**
   * The step `TopicListReturn.Convert` and `UserList.Convert` share: when
   * `MetaData.Uri` has a `page` query parameter, `page` becomes its
   * `int.Parse`, which throws on a bare `page` or a non-integer.
   */
  function UriPage(esc: Query.Escaping, p: ListPage): Result<ListPage, Exception>
  {
    if p.uri.None? then Err(NullReference)
    else
      match Query.Lookup(Query.ParsedQuery(esc, p.uri.value), "page")
      case None => Ok(p)
      case Some(v) =>
        (match ParseInt(v)
         case Ok(n) => Ok(p.(page := n))
         case Err(e) => Err(FromNumberError(e)))
  }

  /** The same step, as the statements that make it. */
  method ReadUriPage(esc: Query.Escaping, p: ListPage) returns (r: Result<ListPage, Exception>)
    ensures r == UriPage(esc, p)
  {
    if p.uri.None? {
      return Err(NullReference);
    }
    var query := Query.QueryParams(esc, p.uri.value);
    var value := Query.Lookup(query, "page");
    r := Ok(p);
    if value.Some? {
      var n := ParseInt(value.value);
      if n.Err? {
        return Err(FromNumberError(n.error));
      }
      r := Ok(p.(page := n.value));
    }
  }

  /**
   * Only `page` changes: it keeps its value when the URI has no `page`
   * parameter, takes the number a `page=n` parameter prints, and a value that
   * is not a 32-bit integer makes the conversion throw.
   */
  lemma UriPageRead(esc: Query.Escaping, p: ListPage, n: int)
    requires p.uri.Some?
    ensures UriPage(esc, p).Ok? ==> UriPage(esc, p).value == p.(page := UriPage(esc, p).value.page)
    ensures Query.Lookup(Query.ParsedQuery(esc, p.uri.value), "page").None? ==> UriPage(esc, p) == Ok(p)
    ensures Int32Min <= n <= Int32Max && Query.Lookup(Query.ParsedQuery(esc, p.uri.value), "page") == Some(Some(IntToString(n))) ==>
      UriPage(esc, p) == Ok(p.(page := n))
    ensures (match Query.Lookup(Query.ParsedQuery(esc, p.uri.value), "page")
             case Some(v) => ParseInt(v).Err?
             case None => false) ==> UriPage(esc, p).Err?
  {
    if Int32Min <= n <= Int32Max {
      ParseIntRoundTrip(n);
    }
  }
}
