/**
 * The flat view of a structured vault: upgrading a legacy record map into
 * items, and projecting the default service's active items back to a map.
 */
module FlatProjection {
  import opened Wrappers

  datatype Record = Record(value: string, updatedAt: nat)

  type Flat = map<string, Record>

  /**
   * The part of an item that the flat view depends on; content is absent when
   * the value field is not the canonical one.
   */
  datatype Item = Item(group: string, title: string, deleted: bool, content: Option<Record>)

  datatype ProjectionError = InvalidProjection | Collision

  const DEFAULT_SERVICE := "service.default"

  /**
   * The properties that every plain record object inherits. Looking one of them
   * up in an empty record finds something, so the collision test fires.
   */
  const INHERITED: set<string> := {
    "constructor", "hasOwnProperty", "isPrototypeOf", "propertyIsEnumerable",
    "toLocaleString", "toString", "valueOf", "__proto__", "__defineGetter__",
    "__defineSetter__", "__lookupGetter__", "__lookupSetter__" }

  predicate Space(c: char) {
    c == ' ' || '\t' <= c <= '\r' || c == '\U{00A0}' || c == '\U{FEFF}' || c == '\U{1680}'
    || '\U{2000}' <= c <= '\U{200A}' || c == '\U{2028}' || c == '\U{2029}' || c == '\U{202F}' || c == '\U{205F}'
         || c == '\U{3000}'
  }

  /** White space and line terminators, as ECMA-262 lists them in sections 12.2 and 12.3. */
  const WHITE: set<char> := {
    '\t', '\n', '\U{000B}', '\U{000C}', '\r', ' ', '\U{00A0}', '\U{1680}', '\U{2000}', '\U{2001}', '\U{2002}',
    '\U{2003}', '\U{2004}', '\U{2005}', '\U{2006}', '\U{2007}', '\U{2008}', '\U{2009}', '\U{200A}', '\U{2028}',
    '\U{2029}', '\U{202F}', '\U{205F}', '\U{3000}', '\U{FEFF}' }

  lemma SpaceIff(c: char)
    ensures Space(c) <==> c in WHITE
  {}

  /** A name that trimming leaves alone. */
  predicate ExactName(name: string) {
    name != "" && !Space(name[0]) && !Space(name[|name| - 1])
  }

  lemma ExactNameIff(name: string)
    ensures ExactName(name) <==> name != "" && name[0] !in WHITE && name[|name| - 1] !in WHITE
  {
    if name != "" {
      SpaceIff(name[0]);
      SpaceIff(name[|name| - 1]);
    }
  }

  function ItemOf(name: string, r: Record): Item {
    Item(DEFAULT_SERVICE, name, false, Some(r))
  }

  /** Upgrading in some enumeration of the record names. */
  function Upgrade(flat: Flat, names: seq<string>): Result<seq<Item>, ProjectionError>
    requires forall n | n in names :: n in flat
  {
    if names == [] then Ok([])
    else if !ExactName(names[0]) then Err(InvalidProjection)
    else
      match Upgrade(flat, names[1..])
      case Err(e) => Err(e)
      case Ok(rest) => Ok([ItemOf(names[0], flat[names[0]])] + rest)
  }

  predicate Visible(i: Item) {
    i.group == DEFAULT_SERVICE && !i.deleted
  }

  function Project(items: seq<Item>): Result<Flat, ProjectionError> {
    ProjectOver(INHERITED, items)
  }

  /** Adding one item to the records so far. */
  function ProjectOne(inherited: set<string>, records: Flat, i: Item): Result<Flat, ProjectionError> {
    if !Visible(i) then Ok(records)
    else if i.content.None? then Err(InvalidProjection)
    else if i.title in records || i.title in inherited then Err(Collision)
    else Ok(records[i.title := i.content.value])
  }

  /** The projection as one left-to-right pass, over a record type with some inherited names. */
  function ProjectOver(inherited: set<string>, items: seq<Item>): Result<Flat, ProjectionError>
    decreases items
  {
    if items == [] then Ok(map[])
    else
      match ProjectOver(inherited, items[..|items| - 1])
      case Err(e) => Err(e)
      case Ok(records) => ProjectOne(inherited, records, items[|items| - 1])
  }

  method ProjectFlat(items: seq<Item>) returns (r: Result<Flat, ProjectionError>)
    ensures r == Project(items)
  {
    var records: Flat := map[];
    for k := 0 to |items|
      invariant ProjectOver(INHERITED, items[..k]) == Ok(records)
    {
      ProjectSnoc(INHERITED, items, k + 1);
      var i := items[k];
      if Visible(i) {
        if i.content.None? {
          ErrorsStick(INHERITED, items, k + 1);
          return Err(InvalidProjection);
        }
        if i.title in records || i.title in INHERITED {
          ErrorsStick(INHERITED, items, k + 1);
          return Err(Collision);
        }
        records := records[i.title := i.content.value];
      }
    }
    assert items[..|items|] == items;
    return Ok(records);
  }

  lemma {:induction false} ErrorsStick(inherited: set<string>, items: seq<Item>, k: nat)
    requires k <= |items| && ProjectOver(inherited, items[..k]).Err?
    ensures ProjectOver(inherited, items) == ProjectOver(inherited, items[..k])
    decreases |items|
  {
    if k == |items| {
      assert items[..k] == items;
    } else {
      var prefix := items[..|items| - 1];
      assert prefix[..k] == items[..k];
      ErrorsStick(inherited, prefix, k);
    }
  }

  ghost predicate Enumerates(names: seq<string>, flat: Flat) {
    && (forall i, j | 0 <= i < j < |names| :: names[i] != names[j])
    && (forall n :: n in names <==> n in flat)
  }

  lemma {:induction false} UpgradeIff(flat: Flat, names: seq<string>)
    requires forall n | n in names :: n in flat
    ensures Upgrade(flat, names).Ok? <==>
              forall n | n in names :: ExactName(n)
    ensures Upgrade(flat, names).Ok? ==>
              && |Upgrade(flat, names).value| == |names|
              && forall i | 0 <= i < |names| :: Upgrade(flat, names).value[i] == ItemOf(names[i], flat[names[i]])
  {
    if names == [] {
    } else {
      assert names == [names[0]] + names[1..];
      UpgradeIff(flat, names[1..]);
    }
  }

  lemma ProjectSnoc(inherited: set<string>, items: seq<Item>, k: nat)
    requires 0 < k <= |items|
    ensures ProjectOver(inherited, items[..k])
            == match ProjectOver(inherited, items[..k - 1])
               case Err(e) => Err(e)
               case Ok(records) => ProjectOne(inherited, records, items[k - 1])
  {
    assert items[..k][..k - 1] == items[..k - 1] && items[..k][k - 1] == items[k - 1];
  }

  /** Projecting the first k upgraded items gives the first k records, as long as no name is inherited. */
  lemma {:induction false} ProjectUpgraded(
      inherited: set<string>, flat: Flat, names: seq<string>, items: seq<Item>, k: nat)
    requires Enumerates(names, flat) && |items| == |names| && k <= |names|
    requires forall i | 0 <= i < |names| :: items[i] == ItemOf(names[i], flat[names[i]])
    ensures (forall i | 0 <= i < k :: names[i] !in inherited) ==>
              ProjectOver(inherited, items[..k]) == Ok(Picked(flat, names[..k]))
    ensures (exists i | 0 <= i < k :: names[i] in inherited) ==> ProjectOver(inherited, items[..k]) == Err(Collision)
  {
    if k > 0 {
      ProjectUpgraded(inherited, flat, names, items, k - 1);
      ProjectSnoc(inherited, items, k);
      PickedLast(flat, names, k);
    }
  }

  function Picked(flat: Flat, names: seq<string>): Flat
    requires forall n | n in names :: n in flat
  {
    map n | n in names :: flat[n]
  }

  lemma PickedLast(flat: Flat, names: seq<string>, k: nat)
    requires Enumerates(names, flat) && 0 < k <= |names|
    ensures names[k - 1] !in Picked(flat, names[..k - 1])
    ensures Picked(flat, names[..k]) == Picked(flat, names[..k - 1])[names[k - 1] := flat[names[k - 1]]]
  {
    assert names[..k] == names[..k - 1] + [names[k - 1]];
  }

  lemma RoundTripOver(inherited: set<string>, flat: Flat, names: seq<string>)
    requires Enumerates(names, flat) && Upgrade(flat, names).Ok?
    ensures flat.Keys !! inherited ==> ProjectOver(inherited, Upgrade(flat, names).value) == Ok(flat)
    ensures !(flat.Keys !! inherited) ==> ProjectOver(inherited, Upgrade(flat, names).value) == Err(Collision)
  {
    var items := Upgrade(flat, names).value;
    UpgradeIff(flat, names);
    ProjectUpgraded(inherited, flat, names, items, |names|);
    assert items[..|names|] == items && names[..|names|] == names;
    assert Picked(flat, names) == flat;
    InheritedNames(inherited, flat, names);
  }

  lemma InheritedNames(inherited: set<string>, flat: Flat, names: seq<string>)
    requires Enumerates(names, flat)
    ensures flat.Keys !! inherited <==> forall i | 0 <= i < |names| :: names[i] !in inherited
  {
    if forall i | 0 <= i < |names| :: names[i] !in inherited {
      forall n | n in flat ensures n !in inherited {
        assert n in names;
      }
    } else {
      var i :| 0 <= i < |names| && names[i] in inherited;
      assert names[i] in names && names[i] in flat.Keys;
    }
  }

  /**
   * Upgrading and projecting gives the flat vault back exactly when none of its
   * names is one that plain objects inherit; otherwise the projection reports a
   * collision although no two records share a name.
   */
  lemma RoundTripIff(flat: Flat, names: seq<string>)
    requires Enumerates(names, flat) && Upgrade(flat, names).Ok?
    ensures flat.Keys !! INHERITED ==> Project(Upgrade(flat, names).value) == Ok(flat)
    ensures !(flat.Keys !! INHERITED) ==> Project(Upgrade(flat, names).value) == Err(Collision)
  {
    RoundTripOver(INHERITED, flat, names);
  }

  // ------------------------------------------------------ which items are projected

  /** The items that a flat reader sees: the live ones of the default service. */
  ghost predicate Shown(items: seq<Item>, i: nat) {
    i < |items| && items[i].group == "service.default" && !items[i].deleted
  }

  /** Nothing stands in the way of projecting the first k items. */
  ghost predicate Projectable(inherited: set<string>, items: seq<Item>, k: nat)
    requires k <= |items|
  {
    && (forall i | 0 <= i < k && Shown(items, i) :: items[i].content.Some? && items[i].title !in inherited)
    && (forall i, j | 0 <= i < j < k && Shown(items, i) && Shown(items, j) :: items[i].title != items[j].title)
  }

  /** The records are the shown ones of the first k items, under their titles. */
  ghost predicate Shows(r: Flat, items: seq<Item>, k: nat)
    requires k <= |items|
  {
    && (forall t :: t in r <==> exists i | 0 <= i < k :: Shown(items, i) && items[i].title == t)
    && (forall i | 0 <= i < k && Shown(items, i) :: items[i].title in r && Some(r[items[i].title]) == items[i].content)
  }

  /** The last of the first k items has a value and a name of its own, if it is shown. */
  ghost predicate Fits(inherited: set<string>, items: seq<Item>, k: nat)
    requires 0 < k <= |items|
  {
    var last := items[k - 1];
    Shown(items, k - 1) ==>
      && last.content.Some? && last.title !in inherited
      && forall i | 0 <= i < k - 1 && Shown(items, i) :: items[i].title != last.title
  }

  lemma ProjectableOneMore(inherited: set<string>, items: seq<Item>, k: nat)
    requires 0 < k <= |items|
    ensures Projectable(inherited, items, k) <==> Projectable(inherited, items, k - 1) && Fits(inherited, items, k)
  {
    if Projectable(inherited, items, k) && Shown(items, k - 1) {
      forall i | 0 <= i < k - 1 && Shown(items, i) ensures items[i].title != items[k - 1].title {}
    }
  }

  lemma ShowsOneMore(inherited: set<string>, records: Flat, items: seq<Item>, k: nat)
    requires 0 < k <= |items| && Shows(records, items, k - 1)
    ensures var r := ProjectOne(inherited, records, items[k - 1]);
            && (r.Ok? <==> Fits(inherited, items, k))
            && (r.Ok? ==> Shows(r.value, items, k))
  {
    var last, r := items[k - 1], ProjectOne(inherited, records, items[k - 1]);
    assert Visible(last) <==> Shown(items, k - 1);
    if r.Ok? {
      forall t ensures t in r.value <==> exists i | 0 <= i < k :: Shown(items, i) && items[i].title == t {
        if t in records {
          var i :| 0 <= i < k - 1 && Shown(items, i) && items[i].title == t;
        }
      }
    }
  }

  lemma {:induction false} ProjectsPrefix(inherited: set<string>, items: seq<Item>, k: nat)
    requires k <= |items|
    ensures var r := ProjectOver(inherited, items[..k]);
            && (r.Ok? <==> Projectable(inherited, items, k))
            && (r.Ok? ==> Shows(r.value, items, k))
  {
    if k == 0 {
    } else {
      ProjectsPrefix(inherited, items, k - 1);
      ProjectSnoc(inherited, items, k);
      if ProjectOver(inherited, items[..k - 1]).Ok? {
        ShowsOneMore(inherited, ProjectOver(inherited, items[..k - 1]).value, items, k);
      }
      ProjectableOneMore(inherited, items, k);
    }
  }

  /**
   * A vault projects exactly when every live item of the default service has
   * its canonical value, no two share a title, and no title is inherited by
   * plain objects; the records are then those items' values under their titles.
   */
  lemma ProjectIff(items: seq<Item>)
    ensures Project(items).Ok? <==> Projectable(INHERITED, items, |items|)
    ensures Project(items).Ok? ==> Shows(Project(items).value, items, |items|)
  {
    assert items[..|items|] == items;
    ProjectsPrefix(INHERITED, items, |items|);
  }
}
