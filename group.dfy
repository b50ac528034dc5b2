/**
 * `GroupList`, `GroupMemberList`, `Group.Create` and `Group.AddUsers`
 * (DiscourseApi/Group.cs).
 */
module Groups {
  import opened Wrappers
  import opened Text
  import opened Json
  import Query
  import Form
  import opened Paging

  // -------------------------------------------------------------- GroupList

  /** `j["groups"].ToObject<List<Group>>()`: throws when there is no `groups`. */
  function GroupsField(j: Props): Result<seq<Token>, Exception>
  {
    match Get(j, "groups")
    case None => Err(NullReference)
    case Some(Null) => Ok([])
    case Some(Arr(items)) => Ok(items)
    case Some(_) => Err(JsonSerialization)
  }

  /** What `GroupList.Convert(j)` returns. */
  function ListConverted(j: Props): Result<ListPage, Exception>
  {
    var g :- Deserialize(GroupPages, j);
    var total :- ToInt32(Get(j, "total_rows_groups"));
    var groups :- GroupsField(j);
    Ok(g.(totalCount := total, list := groups))
  }

  /** `GroupList.Convert(j)`: deserialise, then set `TotalCount` and `List`. */
  method ConvertList(j: Props) returns (r: Result<ListPage, Exception>)
    ensures r == ListConverted(j)
  {
    var read := Deserialize(GroupPages, j);
    if read.Err? {
      return Err(read.error);
    }
    var g := read.value;
    var total := ToInt32(Get(j, "total_rows_groups"));
    if total.Err? {
      return Err(total.error);
    }
    g := g.(totalCount := total.value);
    var groups := GroupsField(j);
    if groups.Err? {
      return Err(groups.error);
    }
    g := g.(list := groups.value);
    return Ok(g);
  }

  /**
   * A group list counts `total_rows_groups` (which must be present) and
   * lists `groups`; everything else is what deserialising gave.
   */
  lemma GroupListFields(j: Props)
    requires ListConverted(j).Ok?
    ensures Get(j, "total_rows_groups").Some? && Get(j, "groups").Some?
    ensures Get(j, "total_rows_groups").value.Int? ==> ListConverted(j).value.totalCount == Get(j, "total_rows_groups").value.i
    ensures Get(j, "groups").value.Arr? ==> ListConverted(j).value.list == Get(j, "groups").value.items
    ensures ListConverted(j) == Ok(Deserialize(GroupPages, j).value.(totalCount := ListConverted(j).value.totalCount, list := ListConverted(j).value.list))
  {
    var g := Deserialize(GroupPages, j).value;
    var total := ToInt32(Get(j, "total_rows_groups"));
    assert total.Ok?;
    var groups := GroupsField(j);
    assert ListConverted(j) == Ok(g.(totalCount := total.value, list := groups.value));
  }

  /**
   * A group list's `NextPageUrl` is whatever the body stored, and null when
   * it stored nothing: it is never computed from the cursor.
   */
  lemma GroupListNextIsStored(esc: Query.Escaping, j: Props)
    requires ListConverted(j).Ok?
    ensures Get(j, "NextPageUrl").None? ==> NextPageUrl(esc, ListConverted(j).value) == Ok(None)
    ensures (Get(j, "NextPageUrl").Some? && Get(j, "NextPageUrl").value.Str?) ==>
      NextPageUrl(esc, ListConverted(j).value) == Ok(Some(Get(j, "NextPageUrl").value.s))
  {
    GroupListFields(j);
    DeserializedNext(j);
    var p := ListConverted(j).value;
    assert p.kind == GroupPages && StringField(j, "NextPageUrl") == Ok(p.nextPageUrl);
    assert NextPageUrl(esc, p) == Ok(p.nextPageUrl);
  }

  // -------------------------------------------------------- GroupMemberList

  /** `AdditionalData[key]`, which throws when the key is missing. */
  function Entry(d: Props, key: string): Result<Token, Exception>
  {
    match Get(d, key)
    case None => Err(KeyNotFound)
    case Some(t) => Ok(t)
  }

  /** What `GroupMemberList.Convert(j)` returns. */
  function MembersConverted(j: Props): Result<ListPage, Exception>
  {
    var result :- Deserialize(MemberPages, j);
    MembersMovedOut(result)
  }

  /**
   * The part of `GroupMemberList.Convert` after deserialising: `members` to
   * `List`, and the `meta` object's total, limit and offset to the list.
   * An empty `additional` is the null dictionary, which indexing throws on.
   */
  function MembersMovedOut(result: ListPage): Result<ListPage, Exception>
  {
    var members :- if |result.additional| == 0 then Err(NullReference) else Entry(result.additional, "members");
    var list :- MemberList(members);
    var rest := Remove(result.additional, "members");
    var metaToken :- Entry(rest, "meta");
    var meta :- if metaToken.Obj? then Ok(metaToken.props) else Err(InvalidCast);
    var total :- ToInt32(Get(meta, "total"));
    var limit :- ToInt32(Get(meta, "limit"));
    var offset :- ToInt32(Get(meta, "offset"));
    Ok(result.(list := list, additional := rest, totalCount := total,
               request := result.request.(limit := limit, offset := offset)))
  }

  /** `ConvertToObject<List<GroupMember>>()` of the `members` entry. */
  function MemberList(t: Token): Result<seq<Token>, Exception>
  {
    match t
    case Null => Ok([])
    case Arr(items) => Ok(items)
    case _ => Err(JsonSerialization)
  }

  /**
   * `GroupMemberList.Convert(j)`: move `members` out of `AdditionalData` into
   * `List`, then copy the server's `meta` cursor into the list.
   */
  method ConvertMembers(j: Props) returns (r: Result<ListPage, Exception>)
    ensures r == MembersConverted(j)
  {
    var read := Deserialize(MemberPages, j);
    if read.Err? {
      return Err(read.error);
    }
    var result := read.value;
    if |result.additional| == 0 {
      return Err(NullReference);
    }
    var members := Entry(result.additional, "members");
    if members.Err? {
      return Err(members.error);
    }
    var list := MemberList(members.value);
    if list.Err? {
      return Err(list.error);
    }
    result := result.(list := list.value);
    result := result.(additional := Remove(result.additional, "members"));
    var metaToken := Entry(result.additional, "meta");
    if metaToken.Err? {
      return Err(metaToken.error);
    }
    if !metaToken.value.Obj? {
      return Err(InvalidCast);
    }
    var meta := metaToken.value.props;
    var total := ToInt32(Get(meta, "total"));
    if total.Err? {
      return Err(total.error);
    }
    result := result.(totalCount := total.value);
    var limit := ToInt32(Get(meta, "limit"));
    if limit.Err? {
      return Err(limit.error);
    }
    result := result.(request := result.request.(limit := limit.value));
    var offset := ToInt32(Get(meta, "offset"));
    if offset.Err? {
      return Err(offset.error);
    }
    result := result.(request := result.request.(offset := offset.value));
    return Ok(result);
  }

  /**
   * `members` leaves `AdditionalData` for `List`, the other extra properties
   * stay, and the list's total, limit and offset are the server's `meta`.
   */
  lemma MembersMoved(result: ListPage, key: string)
    requires MembersMovedOut(result).Ok?
    ensures var p := MembersMovedOut(result).value;
      Get(p.additional, "members").None? &&
      (key != "members" ==> Get(p.additional, key) == Get(result.additional, key))
    ensures var members := Get(result.additional, "members");
      members.Some? && (members.value.Arr? ==> MembersMovedOut(result).value.list == members.value.items)
    ensures var p := MembersMovedOut(result).value;
      var meta := Get(result.additional, "meta");
      meta.Some? && meta.value.Obj? &&
      Ok(p.totalCount) == ToInt32(Get(meta.value.props, "total")) &&
      Ok(p.request.limit) == ToInt32(Get(meta.value.props, "limit")) &&
      Ok(p.request.offset) == ToInt32(Get(meta.value.props, "offset"))
  {
    RemoveGet(result.additional, "members", key);
    RemoveGet(result.additional, "members", "meta");
  }

  /**
   * A member-list body whose every property is taken by a field leaves
   * `AdditionalData` null, so reading `members` from it throws.
   */
  lemma MembersNeedExtraData(j: Props)
    requires Deserialize(MemberPages, j).Ok?
    requires forall i :: 0 <= i < |j| ==> j[i].0 in Known(MemberPages)
    ensures MembersConverted(j) == Err(NullReference)
  {
    DeserializedAdditional(MemberPages, j);
    NothingUnknown(j, Known(MemberPages));
  }

  /**
   * Read back to the server's body: a member list was converted only when
   * the body had `members` and `meta`, its items are the `members` array,
   * and its total, limit and offset are the `meta` fields.
   */
  lemma MembersFromBody(j: Props)
    requires MembersConverted(j).Ok?
    ensures var members := Get(j, "members");
      members.Some? && (members.value.Arr? ==> MembersConverted(j).value.list == members.value.items)
    ensures var p := MembersConverted(j).value;
      var meta := Get(j, "meta");
      meta.Some? && meta.value.Obj? &&
      Ok(p.totalCount) == ToInt32(Get(meta.value.props, "total")) &&
      Ok(p.request.limit) == ToInt32(Get(meta.value.props, "limit")) &&
      Ok(p.request.offset) == ToInt32(Get(meta.value.props, "offset"))
  {
    var result := Deserialize(MemberPages, j).value;
    MemberKeysUnknown();
    DeserializedKeepsUnknown(MemberPages, j, "members");
    DeserializedKeepsUnknown(MemberPages, j, "meta");
    MembersFromAdditional(result, j);
  }

  lemma MembersFromAdditional(result: ListPage, j: Props)
    requires MembersMovedOut(result).Ok?
    requires Get(result.additional, "members") == Get(j, "members")
    requires Get(result.additional, "meta") == Get(j, "meta")
    ensures var members := Get(j, "members");
      members.Some? && (members.value.Arr? ==> MembersMovedOut(result).value.list == members.value.items)
    ensures var p := MembersMovedOut(result).value;
      var meta := Get(j, "meta");
      meta.Some? && meta.value.Obj? &&
      Ok(p.totalCount) == ToInt32(Get(meta.value.props, "total")) &&
      Ok(p.request.limit) == ToInt32(Get(meta.value.props, "limit")) &&
      Ok(p.request.offset) == ToInt32(Get(meta.value.props, "offset"))
  {
    MembersMoved(result, "meta");
  }

  /**
   * Offset paging of group members follows the server's cursor: with page 0,
   * the next request asks for the server's limit, from the server's offset
   * plus that limit.
   */
  lemma MembersFollowServerCursor(result: ListPage)
    requires MembersMovedOut(result).Ok? && result.kind == MemberPages && result.page == 0
    ensures var p := MembersMovedOut(result).value;
      !PageMode(p) &&
      CursorParams(p) == [("limit", Int(p.request.limit)), ("offset", Int(Wrap32(p.request.offset + p.request.limit)))]
  {
    var p := MembersMovedOut(result).value;
    assert p.kind == MemberPages && p.page == 0;
  }

  // ----------------------------------------------------------------- Create

  /**
   * The properties `ToJObject` writes for the group parameters, in their
   * order of declaration; a null field is left out.
   */
  function GroupProps(name: Option<string>, title: Option<string>, owners: Option<string>): Props
  {
    (if name.Some? then [("name", Str(name.value))] else []) +
    (if title.Some? then [("title", Str(title.value))] else []) +
    (if owners.Some? then [("owner_usernames", Str(owners.value))] else [])
  }

  /** `UpdateGroupParams`, reduced to the fields `Create` reads or writes. */
  class UpdateGroupParams {
    var name: Option<string>
    var title: Option<string>
    var ownerUsernames: Option<string>

    /** `new UpdateGroupParams() { name = name, title = title }`. */
    constructor (name: Option<string>, title: Option<string>)
      ensures this.name == name && this.title == title && ownerUsernames.None?
    {
      this.name := name;
      this.title := title;
      ownerUsernames := None;
    }

    /** `data.ToJObject()`. */
    function ToJObject(): Props
      reads this
    {
      GroupProps(name, title, ownerUsernames)
    }
  }

  /** `string.IsNullOrEmpty`. */
  predicate NullOrEmpty(s: Option<string>)
  {
    s.None? || s.value == ""
  }

  /**
   * `Group.Create(api, data)`: an unset owner list becomes the API user, and
   * the data is posted wrapped under `group`. Returns the posted object.
   */
  method Create(apiUsername: Option<string>, data: UpdateGroupParams) returns (posted: Props)
    modifies data
    ensures data.ownerUsernames == if NullOrEmpty(old(data.ownerUsernames)) then apiUsername else old(data.ownerUsernames)
    ensures data.name == old(data.name) && data.title == old(data.title)
    ensures posted == [("group", Obj(data.ToJObject()))]
  {
    if NullOrEmpty(data.ownerUsernames) {
      data.ownerUsernames := apiUsername;
    }
    var j: Props := [];
    j := Put(j, "group", Obj(data.ToJObject()));
    posted := j;
  }

  /** `Group.Create(api, name, title)`: the group is owned by the API user. */
  method CreateNamed(apiUsername: Option<string>, name: Option<string>, title: Option<string>) returns (posted: Props)
    ensures posted == [("group", Obj(GroupProps(name, title, apiUsername)))]
  {
    var data := new UpdateGroupParams(name, title);
    posted := Create(apiUsername, data);
  }

  /**
   * In the form body of a created group, the owners are sent as
   * `group[owner_usernames]`, and a non-empty owner list is sent as given.
   */
  lemma OwnersPosted(name: Option<string>, title: Option<string>, owners: string)
    ensures ("group[owner_usernames]", owners) in Form.FormPairs([("group", Obj(GroupProps(name, title, Some(owners))))])
  {
    var ps := GroupProps(name, title, Some(owners));
    var k := |ps| - 1;
    assert ps[k] == ("owner_usernames", Str(owners));
    assert ToJsonString(Str(owners)) == owners;
    assert "group" + "[" + ps[k].0 + "]" == "group[owner_usernames]";
    assert !ps[k].1.Null? && ("group[owner_usernames]", owners) == ("group" + "[" + ps[k].0 + "]", ToJsonString(ps[k].1));
    Form.ObjectPairsExactly("group", ps, ("group[owner_usernames]", owners));
    assert ("group[owner_usernames]", owners) in Form.PropertyPairs(("group", Obj(ps)));
    Form.FormPairsExactly([("group", Obj(ps))], ("group[owner_usernames]", owners));
    assert [("group", Obj(ps))][0] == ("group", Obj(ps));
  }

  // --------------------------------------------------------------- AddUsers

  /** `Group.AddUsers(api, groupId, names)`: the path and the body put to it. */
  function AddUsers(esc: Query.Escaping, groupId: int, names: seq<string>): (string, Props)
  {
    (Query.Combine(esc, [Str("groups"), Int(groupId), Str("members")]),
     [("usernames", Str(Join(",", names)))])
  }

  /** The server gets the names back by splitting `usernames` at the commas. */
  lemma UsernamesSplit(esc: Query.Escaping, groupId: int, names: seq<string>)
    requires |names| >= 1 && forall k :: 0 <= k < |names| ==> Avoids(names[k], {','})
    ensures Split(AddUsers(esc, groupId, names).1[0].1.s, {','}) == names
  {
    SplitJoin(names, ',', {','});
  }
}
