/**
 * `UserList.Convert`, `User.ListAll` and `User.GetByEmail`
 * (DiscourseApi/User.cs): a user list takes its page number from the URI it
 * was read from, and both queries ask for page 1.
 */
module Users {
  import opened Wrappers
  import opened Text
  import opened Json
  import Query
  import opened Paging

  /** What `UserList.Convert(j)` returns. */
  function Converted(esc: Query.Escaping, j: Props): Result<ListPage, Exception>
  {
    var list :- Deserialize(UserPages, j);
    UriPage(esc, list)
  }

  /** `UserList.Convert(j)`: deserialise, then set `page` from the URI. */
  method Convert(esc: Query.Escaping, j: Props) returns (r: Result<ListPage, Exception>)
    ensures r == Converted(esc, j)
  {
    var list := Deserialize(UserPages, j);
    if list.Err? {
      return Err(list.error);
    }
    r := ReadUriPage(esc, list.value);
  }

  /**
   * Without a `page` parameter in its URI (and in its body), a user list
   * keeps page 0 and is paged by offset.
   */
  lemma NoPageMeansOffsets(esc: Query.Escaping, j: Props)
    requires Deserialize(UserPages, j).Ok? && Deserialize(UserPages, j).value.uri.Some?
    requires Get(j, "page").None?
    requires Query.Lookup(Query.ParsedQuery(esc, Deserialize(UserPages, j).value.uri.value), "page").None?
    ensures Converted(esc, j).Ok?
    ensures !PageMode(Converted(esc, j).value)
  {
    UriPageRead(esc, Deserialize(UserPages, j).value, 0);
  }

  /** A `page` parameter that is not an integer makes `Convert` throw. */
  lemma BadPageThrows(esc: Query.Escaping, j: Props, v: Option<string>)
    requires Deserialize(UserPages, j).Ok? && Deserialize(UserPages, j).value.uri.Some?
    requires Query.Lookup(Query.ParsedQuery(esc, Deserialize(UserPages, j).value.uri.value), "page") == Some(v)
    requires ParseInt(v).Err?
    ensures Converted(esc, j).Err?
  {
    UriPageRead(esc, Deserialize(UserPages, j).value, 0);
  }

  /**
   * `User.ListAll(flag, order, ascending)`: `order` (left out when null),
   * `ascending` and `page = 1`.
   */
  function ListAllQuery(order: Option<string>, ascending: bool): Props
  {
    (if order.Some? then [("order", Str(order.value))] else []) +
    [("ascending", Bool(ascending)), ("page", Int(1))]
  }

  /** `User.GetByEmail(email)`: `email` (left out when null) and `page = 1`. */
  function GetByEmailQuery(email: Option<string>): Props
  {
    (if email.Some? then [("email", Str(email.value))] else []) + [("page", Int(1))]
  }

  /**
   * The query `ListAll` sends: `ascending` as `True` or `False` (the
   * `ToString()` of a boolean, not the lower-case form of a form body),
   * `page` as 1, and `order` unless it is null or empty.
   */
  lemma ListAllSends(d: Query.Dict, order: Option<string>, ascending: bool)
    ensures Query.Lookup(Query.Merge(d, ListAllQuery(order, ascending)), "ascending") ==
      Some(Some(if ascending then "True" else "False"))
    ensures Query.Lookup(Query.Merge(d, ListAllQuery(order, ascending)), "page") == Some(Some("1"))
    ensures Query.Lookup(Query.Merge(d, ListAllQuery(order, ascending)), "order") ==
      if order.None? then Query.Lookup(d, "order")
      else if order.value == "" then None
      else Some(Some(order.value))
  {
    var q := ListAllQuery(order, ascending);
    var n := |q|;
    assert q[n - 1] == ("page", Int(1)) && q[n - 2] == ("ascending", Bool(ascending));
    assert q[..n - 1][..n - 2] == if order.Some? then [("order", Str(order.value))] else [];
    assert IntToString(1) == "1";
    forall key | key in {"ascending", "page", "order"}
      ensures Query.LastMention(q, key) ==
        if key == "page" then Some(Int(1))
        else if key == "ascending" then Some(Bool(ascending))
        else if order.Some? then Some(Str(order.value)) else None
    {
      assert Query.LastMention(q[..n - 1][..n - 2], key) ==
        if key == "order" && order.Some? then Some(Str(order.value)) else None by {
        if order.Some? {
          assert q[..n - 1][..n - 2][..0] == [];
        }
      }
    }
    Query.MergeLookup(d, q, "ascending");
    Query.MergeLookup(d, q, "page");
    Query.MergeLookup(d, q, "order");
  }

  /** The query `GetByEmail` sends: `email` unless null or empty, and `page` as 1. */
  lemma GetByEmailSends(d: Query.Dict, email: Option<string>)
    ensures Query.Lookup(Query.Merge(d, GetByEmailQuery(email)), "page") == Some(Some("1"))
    ensures Query.Lookup(Query.Merge(d, GetByEmailQuery(email)), "email") ==
      if email.None? then Query.Lookup(d, "email")
      else if email.value == "" then None
      else Some(Some(email.value))
  {
    var q := GetByEmailQuery(email);
    var n := |q|;
    assert q[n - 1] == ("page", Int(1));
    assert IntToString(1) == "1";
    assert Query.LastMention(q[..n - 1], "email") == if email.Some? then Some(Str(email.value)) else None by {
      if email.Some? {
        assert q[..n - 1][..0] == [];
      }
    }
    Query.MergeLookup(d, q, "page");
    Query.MergeLookup(d, q, "email");
  }

  /**
   * A list read from the URI `ListAll` requests is paged by page number, from
   * page 1. (The escaping is the real one, the base URI's query reads back
   * cleanly, and `order` is unreserved text.)
   */
  lemma ListAllPagesByNumber(esc: Query.Escaping, uri: string, order: Option<string>, ascending: bool, j: Props)
    requires Query.Plain(esc) && Avoids(uri, {'#'})
    requires Query.WellFormed(esc, Query.ParsedQuery(esc, uri))
    requires order.Some? ==> Query.Unreserved(order.value)
    requires Query.WithParams(esc, uri, ListAllQuery(order, ascending)).Ok?
    requires Deserialize(UserPages, j).Ok?
    requires Deserialize(UserPages, j).value.uri == Some(Query.WithParams(esc, uri, ListAllQuery(order, ascending)).value)
    ensures Converted(esc, j).Ok?
    ensures Converted(esc, j).value.page == 1 && PageMode(Converted(esc, j).value)
  {
    var q := ListAllQuery(order, ascending);
    ListAllQueryUnreserved(order, ascending);
    Query.AddGetParamsReadBack(esc, uri, q);
    var next := Query.WithParams(esc, uri, q).value;
    ListAllSends(Query.ParsedQuery(esc, uri), order, ascending);
    assert Query.Lookup(Query.ParsedQuery(esc, next), "page") == Some(Some("1"));
    var list := Deserialize(UserPages, j).value;
    assert IntToString(1) == "1";
    UriPageRead(esc, list, 1);
    assert UriPage(esc, list) == Ok(list.(page := 1));
  }

  lemma ListAllQueryUnreserved(order: Option<string>, ascending: bool)
    requires order.Some? ==> Query.Unreserved(order.value)
    ensures Query.UnreservedParams(ListAllQuery(order, ascending))
  {
    assert Query.Unreserved("order") && Query.Unreserved("ascending") && Query.Unreserved("page");
    assert Query.Unreserved("True") && Query.Unreserved("False") && Query.Unreserved("1");
    assert IntToString(1) == "1";
  }
}
