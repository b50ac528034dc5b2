/**
 * `Permissions` and the `CategoryCommon` colour defaults
 * (DiscourseApi/Category.cs). `Permissions` is a JSON object from group name
 * to permission level whose indexer treats level `None` as absence.
 */
module Categories {
  import Wrappers
  import opened Json

  /** `PermissionLevel`: an enum over `int`, so any int can be cast to it. */
  type PermissionLevel = int

  const LevelNone: PermissionLevel := 0
  const LevelCreate: PermissionLevel := 1
  const LevelReply: PermissionLevel := 2
  const LevelSee: PermissionLevel := 3

  /** A `GroupPermission`: a group name and its level. */
  datatype GroupPermission = GroupPermission(groupName: string, permissionType: PermissionLevel)

  /** Each group is stored at most once, as `JObject` keeps its keys. */
  predicate DistinctKeys(ps: Props)
  {
    forall i, j :: 0 <= i < j < |ps| ==> ps[i].0 != ps[j].0
  }

  /** Every stored level is an int other than `None`. */
  predicate NoneFree(ps: Props)
  {
    forall k :: 0 <= k < |ps| ==> ps[k].1.Int? && ps[k].1.i != LevelNone
  }

  /** What the indexer keeps: distinct groups with levels other than `None`. */
  predicate Stored(ps: Props)
  {
    DistinctKeys(ps) && NoneFree(ps)
  }

  /** The indexer's getter: the stored level, `None` for a group not stored. */
  function LevelOf(ps: Props, group: string): PermissionLevel
  {
    match Get(ps, group)
    case Some(Int(i)) => i
    case _ => LevelNone
  }

  /** The indexer's setter: `None` removes the group, any other level is stored. */
  function Assigned(ps: Props, group: string, level: PermissionLevel): Props
  {
    if level == LevelNone then Remove(ps, group) else Put(ps, group, Int(level))
  }

  /** The object after assigning each permission in turn. */
  function Applied(ps: Props, entries: seq<GroupPermission>): Props
  {
    if |entries| == 0 then ps
    else
      var e := entries[|entries| - 1];
      Assigned(Applied(ps, entries[..|entries| - 1]), e.groupName, e.permissionType)
  }

  /** The level of the last entry for `group`, if any entry names it. */
  function LastLevel(entries: seq<GroupPermission>, group: string): Wrappers.Option<PermissionLevel>
  {
    if |entries| == 0 then Wrappers.None
    else if entries[|entries| - 1].groupName == group then Wrappers.Some(entries[|entries| - 1].permissionType)
    else LastLevel(entries[..|entries| - 1], group)
  }

  /** `List`: one `GroupPermission` per stored property, in order. */
  function ListOf(ps: Props): seq<GroupPermission>
  {
    seq(|ps|, k requires 0 <= k < |ps| => GroupPermission(ps[k].0, if ps[k].1.Int? then ps[k].1.i else LevelNone))
  }

  /**
   * Set then get round-trips for every level, `None` leaves no key, and
   * every other group keeps its level.
   */
  lemma SetThenGet(ps: Props, group: string, level: PermissionLevel, other: string)
    ensures LevelOf(Assigned(ps, group, level), group) == level
    ensures level == LevelNone ==> Get(Assigned(ps, group, level), group).None?
    ensures other != group ==> LevelOf(Assigned(ps, group, level), other) == LevelOf(ps, other)
  {
    PutGet(ps, group, Int(level), other);
    RemoveGet(ps, group, other);
  }

  lemma {:induction false} PutStored(ps: Props, group: string, level: PermissionLevel)
    requires Stored(ps) && level != LevelNone
    ensures Stored(Put(ps, group, Int(level)))
  {
    if |ps| > 0 && ps[0].0 != group {
      var tail := Put(ps[1..], group, Int(level));
      PutStored(ps[1..], group, level);
      PutGet(ps[1..], group, Int(level), ps[0].0);
      assert Get(ps[1..], ps[0].0).None?;
      assert forall j :: 0 <= j < |tail| ==> tail[j].0 != ps[0].0;
      assert Put(ps, group, Int(level)) == [ps[0]] + tail;
    }
  }

  lemma {:induction false} RemoveStored(ps: Props, group: string)
    requires Stored(ps)
    ensures Stored(Remove(ps, group))
  {
    if |ps| > 0 {
      var tail := Remove(ps[1..], group);
      RemoveStored(ps[1..], group);
      RemoveGet(ps[1..], group, ps[0].0);
      if ps[0].0 != group {
        assert Get(ps[1..], ps[0].0).None?;
        assert forall j :: 0 <= j < |tail| ==> tail[j].0 != ps[0].0;
        assert Remove(ps, group) == [ps[0]] + tail;
      }
    }
  }

  /** The setter keeps the object a set of distinct groups with real levels. */
  lemma AssignedStored(ps: Props, group: string, level: PermissionLevel)
    requires Stored(ps)
    ensures Stored(Assigned(ps, group, level))
  {
    if level == LevelNone {
      RemoveStored(ps, group);
    } else {
      PutStored(ps, group, level);
    }
  }

  /** Applying entries in order keeps the object stored that way. */
  lemma {:induction false} AppliedStored(ps: Props, entries: seq<GroupPermission>)
    requires Stored(ps)
    ensures Stored(Applied(ps, entries))
  {
    if |entries| > 0 {
      var e := entries[|entries| - 1];
      AppliedStored(ps, entries[..|entries| - 1]);
      AssignedStored(Applied(ps, entries[..|entries| - 1]), e.groupName, e.permissionType);
    }
  }

  /**
   * Entries are applied in order, so for each group the last entry naming it
   * wins, and a group no entry names keeps its level.
   */
  lemma {:induction false} LaterEntriesWin(ps: Props, entries: seq<GroupPermission>, group: string)
    ensures LevelOf(Applied(ps, entries), group) ==
      if LastLevel(entries, group).Some? then LastLevel(entries, group).value else LevelOf(ps, group)
  {
    if |entries| > 0 {
      var e := entries[|entries| - 1];
      LaterEntriesWin(ps, entries[..|entries| - 1], group);
      SetThenGet(Applied(ps, entries[..|entries| - 1]), e.groupName, e.permissionType, group);
    }
  }

  lemma {:induction false} GetAt(ps: Props, k: int)
    requires DistinctKeys(ps) && 0 <= k < |ps|
    ensures Get(ps, ps[k].0) == Wrappers.Some(ps[k].1)
  {
    if k > 0 {
      GetAt(ps[1..], k - 1);
    }
  }

  /**
   * On a stored object, `List` holds a group with a level exactly when the
   * indexer reads that level for it; so it never lists level `None`.
   */
  lemma ListExactly(ps: Props, group: string, level: PermissionLevel)
    requires Stored(ps)
    ensures GroupPermission(group, level) in ListOf(ps) <==> level != LevelNone && LevelOf(ps, group) == level
  {
    var list := ListOf(ps);
    if GroupPermission(group, level) in list {
      var k :| 0 <= k < |list| && list[k] == GroupPermission(group, level);
      GetAt(ps, k);
    }
    if level != LevelNone && LevelOf(ps, group) == level {
      assert Get(ps, group).Some?;
      var k :| 0 <= k < |ps| && ps[k].0 == group;
      GetAt(ps, k);
      assert list[k] == GroupPermission(group, level);
    }
  }

  /** A `Permissions` object. */
  class Permissions {
    var props: Props

    ghost predicate Valid()
      reads this
    {
      Stored(props)
    }

    /** `new Permissions()`: no group has a permission. */
    constructor Empty()
      ensures props == [] && Valid()
    {
      props := [];
    }

    /** `new Permissions(original)`: each entry goes through the indexer, in order. */
    constructor (original: seq<GroupPermission>)
      ensures props == Applied([], original) && Valid()
    {
      props := [];
      new;
      for k := 0 to |original|
        invariant props == Applied([], original[..k]) && Valid()
      {
        assert original[..k + 1][..k] == original[..k];
        Set(original[k].groupName, original[k].permissionType);
      }
      assert original[..|original|] == original;
    }

    /** `this[group]` read. */
    function Level(group: string): PermissionLevel
      reads this
    {
      LevelOf(props, group)
    }

    /** `this[group] = level`. */
    method Set(group: string, level: PermissionLevel)
      modifies this
      ensures props == Assigned(old(props), group, level)
      ensures old(Valid()) ==> Valid()
    {
      if level == LevelNone {
        props := Remove(props, group);
      } else {
        props := Put(props, group, Int(level));
      }
      if old(Valid()) {
        AssignedStored(old(props), group, level);
      }
    }

    /** `List`. */
    function List(): seq<GroupPermission>
      reads this
    {
      ListOf(props)
    }
  }

  const DefaultColor := "0088CC"
  const DefaultTextColor := "FFFFFF"

  /** The fields of `CategoryCommon` that have defaults. */
  class CategoryCommon {
    var name: Wrappers.Option<string>
    var color: string
    var textColor: string

    /** A new category has no name yet, and the default colour and text colour. */
    constructor ()
      ensures name.None? && color == DefaultColor && textColor == DefaultTextColor
    {
      name := Wrappers.None;
      color := DefaultColor;
      textColor := DefaultTextColor;
    }
  }
}
