/**
 * `TopicListReturn.Convert` and `Topic.ListAll` (DiscourseApi/Topic.cs): a
 * topic list is paged by page number, with its page size and items taken
 * from the nested `topic_list` object.
 */
module Topics {
  import opened Wrappers
  import opened Text
  import opened Json
  import Query
  import opened Paging

  /** The `per_page` and `topics` of the `topic_list` field, if there is one. */
  function TopicListField(j: Props): Result<Option<(int, seq<Token>)>, Exception>
  {
    var t :- ObjectField(j, "topic_list");
    if t.None? then Ok(None)
    else
      var perPage :- IntField(t.value, "per_page", 0);
      var topics :- ListField(t.value, "topics");
      Ok(Some((perPage, topics)))
  }

  /** What `TopicListReturn.Convert(j)` returns. */
  function Converted(esc: Query.Escaping, j: Props): Result<ListPage, Exception>
  {
    var result :- Deserialize(TopicPages, j);
    var topicList :- TopicListField(j);
    var paged :- UriPage(esc, result);
    if topicList.None? then Err(NullReference)
    else Ok(paged.(perPage := topicList.value.0, list := topicList.value.1))
  }

  /** `TopicListReturn.Convert(j)`: deserialise, then set `page`, `perPage` and `List`. */
  method Convert(esc: Query.Escaping, j: Props) returns (r: Result<ListPage, Exception>)
    ensures r == Converted(esc, j)
  {
    var read := Deserialize(TopicPages, j);
    if read.Err? {
      return Err(read.error);
    }
    var topicList := TopicListField(j);
    if topicList.Err? {
      return Err(topicList.error);
    }
    var paged := ReadUriPage(esc, read.value);
    if paged.Err? {
      return Err(paged.error);
    }
    var result := paged.value;
    if topicList.value.None? {
      return Err(NullReference);
    }
    result := result.(perPage := topicList.value.value.0);
    result := result.(list := topicList.value.value.1);
    return Ok(result);
  }

  /**
   * A converted topic list has the page size and the topics of its
   * `topic_list`, and the page its own URI names; it is paged by number, and
   * has more data exactly when the page is full.
   */
  lemma ConvertedFromTopicList(esc: Query.Escaping, j: Props, n: int)
    requires Converted(esc, j).Ok?
    requires Int32Min <= n <= Int32Max
    requires Query.Lookup(Query.ParsedQuery(esc, Deserialize(TopicPages, j).value.uri.value), "page") == Some(Some(IntToString(n)))
    ensures var p := Converted(esc, j).value;
      p.kind == TopicPages && PageMode(p) && p.page == n &&
      Some((p.perPage, p.list)) == TopicListField(j).value &&
      (HasMoreData(p) <==> |p.list| == p.perPage)
  {
    var d := Deserialize(TopicPages, j).value;
    DeserializedFields(TopicPages, j);
    var tl := TopicListField(j).value.value;
    var u := UriPage(esc, d).value;
    assert Converted(esc, j) == Ok(u.(perPage := tl.0, list := tl.1));
    UriPageRead(esc, d, n);
  }

  /**
   * Paging moves one page on: the topic list read from the URI that
   * `NextPageUrl` gives has page number `page + 1`. (The URI's own query
   * reads back cleanly, and the escaping is the real one.)
   */
  lemma NextPageIsNext(esc: Query.Escaping, p: ListPage, j: Props)
    requires p.kind == TopicPages && HasMoreData(p) && p.uri.Some?
    requires Query.Plain(esc) && Avoids(p.uri.value, {'#'})
    requires Query.WellFormed(esc, Query.ParsedQuery(esc, p.uri.value))
    requires NextPageUrl(esc, p).Ok? && NextPageUrl(esc, p).value.Some?
    requires Deserialize(TopicPages, j).Ok? && Deserialize(TopicPages, j).value.uri == NextPageUrl(esc, p).value
    requires Converted(esc, j).Ok?
    ensures Converted(esc, j).value.page == Wrap32(p.page + 1)
  {
    NextPageCursor(esc, p, "page");
    ConvertedFromTopicList(esc, j, Wrap32(p.page + 1));
  }

  /**
   * `Topic.ListAll`: the query always sends `page`, and sends
   * `no_subcategories=true` exactly when subcategories are not wanted.
   */
  method ListAllQuery(includeSubCategories: bool, page: int) returns (j: Props)
    ensures Get(j, "page") == Some(Int(page))
    ensures Get(j, "no_subcategories") == if includeSubCategories then None else Some(Str("true"))
    ensures |j| == if includeSubCategories then 1 else 2
  {
    j := [];
    j := Put(j, "page", Int(page));
    assert j == [("page", Int(page))];
    if !includeSubCategories {
      assert j[0].0 != "no_subcategories" && j[1..] == [];
      assert Put(j[1..], "no_subcategories", Str("true")) == [("no_subcategories", Str("true"))];
      j := Put(j, "no_subcategories", Str("true"));
      assert j == [("page", Int(page))] + [("no_subcategories", Str("true"))];
      assert j[1..] == [("no_subcategories", Str("true"))];
    }
  }
}
