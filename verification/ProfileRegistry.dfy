/**
 * The registry of datastore profiles: one protected document that commands
 * rewrite under a lock, with retries, while other processes do the same.
 */
module ProfileRegistry {
  import opened Wrappers
  import opened Sorting

  const MAX_PROFILES := 64

  datatype Route =
    | FileRoute(dataFile: string, keyFile: string)
    | MongoRoute(database: string, databaseCollection: string, vaultCollection: string, keyFile: string)

  datatype Profile = Profile(id: string, databaseId: Option<string>, defaultVaultId: Option<string>, route: Route)

  datatype Document = Document(version: nat, current: Option<string>, profiles: seq<Profile>)

  datatype Code = Duplicate | Invalid | Limit | NotFound | OperationFailed | Unsafe

  // -------------------------------------------------------------------- order

  predicate LexLe(a: string, b: string) {
    a == [] || (b != [] && (a[0] < b[0] || (a[0] == b[0] && LexLe(a[1..], b[1..]))))
  }

  predicate ProfileLe(a: Profile, b: Profile) {
    LexLe(a.id, b.id)
  }

  function IdOf(p: Profile): string { p.id }

  lemma {:induction false} LexTotal(a: string, b: string)
    ensures LexLe(a, b) || LexLe(b, a)
    ensures LexLe(a, b) && LexLe(b, a) ==> a == b
  {
    if a != [] && b != [] && a[0] == b[0] {
      LexTotal(a[1..], b[1..]);
      assert a == [a[0]] + a[1..] && b == [b[0]] + b[1..];
    }
  }

  lemma {:induction false} LexTransitive(a: string, b: string, c: string)
    requires LexLe(a, b) && LexLe(b, c)
    ensures LexLe(a, c)
  {
    if a != [] && a[0] == b[0] == c[0] {
      LexTransitive(a[1..], b[1..], c[1..]);
    }
  }

  /** Code unit order: a prefix comes first, and otherwise the first difference decides. */
  lemma {:induction false} LexLeIff(a: string, b: string)
    ensures LexLe(a, b) <==>
              a <= b || exists k :: 0 <= k < |a| && k < |b| && a[..k] == b[..k] && a[k] < b[k]
  {
    if a != [] && b != [] && a[0] == b[0] {
      LexLeIff(a[1..], b[1..]);
      if k :| 0 <= k < |a| && k < |b| && a[..k] == b[..k] && a[k] < b[k] {
        assert a[1..][..k - 1] == a[..k][1..] && b[1..][..k - 1] == b[..k][1..];
      }
      if k :| 0 <= k < |a[1..]| && k < |b[1..]| && a[1..][..k] == b[1..][..k] && a[1..][k] < b[1..][k] {
        assert a[..k + 1] == [a[0]] + a[1..][..k] && b[..k + 1] == [b[0]] + b[1..][..k];
      }
      assert a == [a[0]] + a[1..] && b == [b[0]] + b[1..];
    } else if a != [] && b != [] && a[0] < b[0] {
      assert a[..0] == b[..0];
    }
  }

  lemma ProfileOrder()
    ensures TotalPreorder(ProfileLe)
  {
    forall x, y ensures ProfileLe(x, y) || ProfileLe(y, x) { LexTotal(x.id, y.id); }
    forall x, y, z | ProfileLe(x, y) && ProfileLe(y, z) ensures ProfileLe(x, z) { LexTransitive(x.id, y.id, z.id); }
  }

  function SortProfiles(s: seq<Profile>): seq<Profile> {
    Sort(ProfileLe, s)
  }

  // ----------------------------------------------------------- reading a file

  /** Field syntax aside: a default vault needs a bound database, and version 1 has no default vaults. */
  predicate ProfileParses(p: Profile, version: nat) {
    && (p.defaultVaultId.Some? ==> p.databaseId.Some?)
    && (version == 1 ==> p.defaultVaultId.None?)
  }

  predicate HasId(s: seq<Profile>, id: string) {
    exists i | 0 <= i < |s| :: s[i].id == id
  }

  predicate DistinctProfiles(s: seq<Profile>) {
    forall i, j | 0 <= i < j < |s| :: s[i].id != s[j].id
  }

  /** A pointer to a missing profile is kept, so that the stored bytes stay canonical. */
  function ParseDocument(d: Document): Result<Document, Code> {
    if d.version != 1 && d.version != 2 then Err(Invalid)
    else if |d.profiles| > MAX_PROFILES then Err(Limit)
    else if exists i | 0 <= i < |d.profiles| :: !ProfileParses(d.profiles[i], d.version) then Err(Invalid)
    else if !DistinctProfiles(d.profiles) then Err(Invalid)
    else if SortProfiles(d.profiles) != d.profiles then Err(Invalid)
    else Ok(d)
  }

  function Normalize(d: Document): Document {
    Document(2, if d.current.Some? && HasId(d.profiles, d.current.value) then d.current else None, d.profiles)
  }

  const EMPTY := Document(2, None, [])

  /** What a mutation starts from. */
  function View(file: Option<Document>): Document {
    if file.None? then EMPTY else Normalize(file.value)
  }

  // ---------------------------------------------------------------- mutations

  datatype Op =
    | Add(profile: Profile)
    | Use(id: string)
    | UseExpected(profile: Profile)
    | Bind(id: string, databaseId: string)
    | BindForInitialization(id: string, databaseId: string, expected: Option<Profile>)
    | SetDefault(id: string, vaultId: string, databaseId: string, expected: Option<Profile>)
    | ClearDefault(id: string, databaseId: string, expected: Option<Profile>)
    | Remove(id: string)
    | RemoveUnbound(only: Option<set<string>>)
    | ClearCurrent

  function Find(s: seq<Profile>, id: string): (r: Option<Profile>)
    ensures r.Some? ==> r.value in s && r.value.id == id
    ensures r.None? <==> !HasId(s, id)
  {
    if s == [] then None
    else if s[0].id == id then Some(s[0])
    else
      var r := Find(s[1..], id);
      assert HasId(s, id) ==> HasId(s[1..], id) by {
        if HasId(s, id) {
          var k :| 0 <= k < |s| && s[k].id == id;
          assert s[1..][k - 1] == s[k];
        }
      }
      assert r.None? <==> !HasId(s[1..], id);
      r
  }

  function Put(s: seq<Profile>, p: Profile): (r: seq<Profile>)
    ensures |r| == |s|
    ensures forall i | 0 <= i < |s| :: r[i] == if s[i].id == p.id then p else s[i]
  {
    seq(|s|, i requires 0 <= i < |s| => if s[i].id == p.id then p else s[i])
  }

  function Drop(s: seq<Profile>, gone: Profile -> bool): seq<Profile> {
    if s == [] then []
    else
      var rest := Drop(s[..|s| - 1], gone);
      if gone(s[|s| - 1]) then rest else rest + [s[|s| - 1]]
  }

  predicate Expects(expected: Option<Profile>, p: Profile) {
    expected.None? || expected.value == p
  }

  /** The profile in use and bound to the expected database, as the caller believes it to be. */
  predicate Agrees(p: Option<Profile>, databaseId: string, expected: Option<Profile>) {
    p.Some? && p.value.databaseId == Some(databaseId) && Expects(expected, p.value)
  }

  function Unbound(only: Option<set<string>>): Profile -> bool {
    (p: Profile) => p.databaseId.None? && (only.None? || p.id in only.value)
  }

  /** One mutation of a normalized document; inputs are parsed before the file is touched. */
  function Apply(d: Document, op: Op): Result<Document, Code> {
    match op
    case Add(p) =>
      if !ProfileParses(p, 2) then Err(Invalid)
      else if HasId(d.profiles, p.id) then Err(Duplicate)
      else if |d.profiles| >= MAX_PROFILES then Err(Limit)
      else Ok(d.(profiles := SortProfiles(d.profiles + [p])))
    case Use(id) =>
      if HasId(d.profiles, id) then Ok(d.(current := Some(id))) else Err(NotFound)
    case UseExpected(p) =>
      if ProfileParses(p, 2) && Find(d.profiles, p.id) == Some(p) then Ok(d.(current := Some(p.id))) else Err(Invalid)
    case Bind(id, db) =>
      var p := Find(d.profiles, id);
      if p.None? then Err(NotFound)
      else if p.value.databaseId.Some? && p.value.databaseId != Some(db) then Err(Invalid)
      else Ok(d.(profiles := Put(d.profiles, p.value.(databaseId := Some(db)))))
    case BindForInitialization(id, db, expected) =>
      var p := Find(d.profiles, id);
      if p.None? then Err(NotFound)
      else if p.value.databaseId.Some? || !Expects(expected, p.value) then Err(Invalid)
      else Ok(d.(profiles := Put(d.profiles, p.value.(databaseId := Some(db)))))
    case SetDefault(id, vault, db, expected) =>
      var p := Find(d.profiles, id);
      if !Agrees(p, db, expected) then Err(Invalid)
      else Ok(d.(profiles := Put(d.profiles, p.value.(defaultVaultId := Some(vault)))))
    case ClearDefault(id, db, expected) =>
      var p := Find(d.profiles, id);
      if !Agrees(p, db, expected) then Err(Invalid)
      else Ok(d.(profiles := Put(d.profiles, p.value.(defaultVaultId := None))))
    case Remove(id) =>
      if !HasId(d.profiles, id) then Err(NotFound)
      else Ok(Document(d.version, if d.current == Some(id) then None else d.current,
                       Drop(d.profiles, (p: Profile) => p.id == id)))
    case RemoveUnbound(only) =>
      var rest := Drop(d.profiles, Unbound(only));
      if rest == d.profiles then Ok(d)
      else
        var current := if d.current.Some? && HasId(rest, d.current.value) then d.current else None;
        Ok(Document(d.version, current, SortProfiles(rest)))
    case ClearCurrent => Ok(d.(current := None))
  }

  // ---------------------------------------------------------------- invariant

  /** What every written registry looks like. */
  ghost predicate WellFormed(d: Document) {
    && d.version == 2
    && |d.profiles| <= MAX_PROFILES
    && Sorted(ProfileLe, d.profiles)
    && DistinctProfiles(d.profiles)
    && (forall p | p in d.profiles :: p.defaultVaultId.Some? ==> p.databaseId.Some?)
    && (d.current.Some? ==> HasId(d.profiles, d.current.value))
  }

  lemma DistinctIsDistinctBy(s: seq<Profile>)
    ensures DistinctProfiles(s) <==> DistinctBy(IdOf, s)
  {}

  lemma SortedIsFixed(s: seq<Profile>)
    requires Sorted(ProfileLe, s) && DistinctProfiles(s)
    ensures SortProfiles(s) == s
  {
    ProfileOrder();
    SortSorted(ProfileLe, s);
    forall x, y | x in s && y in s && ProfileLe(x, y) && ProfileLe(y, x) ensures x == y {
      LexTotal(x.id, y.id);
    }
    SameMembers(s, SortProfiles(s));
    SortedUnique(ProfileLe, s, SortProfiles(s));
  }

  /** A written registry reads back as itself. */
  lemma Reparses(d: Document)
    requires WellFormed(d)
    ensures ParseDocument(d) == Ok(d) && Normalize(d) == d
  {
    SortedIsFixed(d.profiles);
  }

  /** Whatever file is accepted, a mutation starts from a well-formed document. */
  lemma ViewIsWellFormed(file: Option<Document>)
    requires file.Some? ==> ParseDocument(file.value).Ok?
    ensures WellFormed(View(file))
  {
    if file.Some? {
      ProfileOrder();
      SortSorted(ProfileLe, file.value.profiles);
      forall p | p in file.value.profiles ensures p.defaultVaultId.Some? ==> p.databaseId.Some? {
        var k :| 0 <= k < |file.value.profiles| && file.value.profiles[k] == p;
        assert ProfileParses(file.value.profiles[k], file.value.version);
      }
    }
  }

  lemma AddSorts(s: seq<Profile>, p: Profile)
    requires DistinctProfiles(s) && !HasId(s, p.id)
    ensures var sorted := SortProfiles(s + [p]);
            && Sorted(ProfileLe, sorted) && DistinctProfiles(sorted) && |sorted| == |s| + 1
            && forall q :: q in sorted <==> q in s || q == p
  {
    var all := s + [p];
    ProfileOrder();
    SortSorted(ProfileLe, all);
    SameMembers(all, SortProfiles(all));
    DistinctIsDistinctBy(all);
    SortDistinct(ProfileLe, IdOf, all);
    DistinctIsDistinctBy(SortProfiles(all));
  }

  lemma AddKeepsWellFormed(d: Document, p: Profile)
    requires WellFormed(d) && Apply(d, Add(p)).Ok?
    ensures WellFormed(Apply(d, Add(p)).value)
  {
    var sorted := SortProfiles(d.profiles + [p]);
    AddSorts(d.profiles, p);
    if d.current.Some? {
      HasIdIn(d.profiles, d.current.value);
      HasIdIn(sorted, d.current.value);
    }
  }

  lemma PutKeepsWellFormed(d: Document, p: Profile)
    requires WellFormed(d) && (p.defaultVaultId.Some? ==> p.databaseId.Some?)
    ensures WellFormed(d.(profiles := Put(d.profiles, p)))
  {
    var r := Put(d.profiles, p);
    forall i, j | 0 <= i < j < |r| ensures ProfileLe(r[i], r[j]) {
      assert ProfileLe(d.profiles[i], d.profiles[j]);
    }
    if d.current.Some? {
      var k :| 0 <= k < |d.profiles| && d.profiles[k].id == d.current.value;
      assert r[k].id == d.current.value;
    }
  }

  lemma {:induction false} DropMembers(s: seq<Profile>, gone: Profile -> bool)
    ensures forall p :: p in Drop(s, gone) <==> p in s && !gone(p)
    ensures |Drop(s, gone)| <= |s|
  {
    if s == [] {
    } else {
      DropMembers(s[..|s| - 1], gone);
      assert s == s[..|s| - 1] + [s[|s| - 1]];
    }
  }

  lemma {:induction false} DropSorted(s: seq<Profile>, gone: Profile -> bool)
    requires Sorted(ProfileLe, s)
    ensures Sorted(ProfileLe, Drop(s, gone))
  {
    if s == [] {
    } else {
      DropSorted(s[..|s| - 1], gone);
      DropMembers(s[..|s| - 1], gone);
      var last := s[|s| - 1];
      forall p | p in s[..|s| - 1] ensures ProfileLe(p, last) {}
    }
  }

  lemma {:induction false} DropDistinct(s: seq<Profile>, gone: Profile -> bool)
    requires DistinctProfiles(s)
    ensures DistinctProfiles(Drop(s, gone))
  {
    if s == [] {
    } else {
      DropDistinct(s[..|s| - 1], gone);
      DropMembers(s[..|s| - 1], gone);
      forall p | p in s[..|s| - 1] ensures p.id != s[|s| - 1].id {}
    }
  }

  lemma DropKeeps(s: seq<Profile>, gone: Profile -> bool)
    requires Sorted(ProfileLe, s) && DistinctProfiles(s)
    ensures forall p :: p in Drop(s, gone) <==> p in s && !gone(p)
    ensures |Drop(s, gone)| <= |s|
    ensures Sorted(ProfileLe, Drop(s, gone)) && DistinctProfiles(Drop(s, gone))
  {
    DropMembers(s, gone);
    DropSorted(s, gone);
    DropDistinct(s, gone);
  }

  lemma HasIdIn(s: seq<Profile>, id: string)
    ensures HasId(s, id) <==> exists p :: p in s && p.id == id
  {
    if HasId(s, id) {
      var k :| 0 <= k < |s| && s[k].id == id;
      assert s[k] in s;
    }
  }

  lemma DropKeepsWellFormed(d: Document, gone: Profile -> bool, current: Option<string>)
    requires WellFormed(d)
    requires current.Some? ==> HasId(Drop(d.profiles, gone), current.value)
    ensures WellFormed(Document(2, current, Drop(d.profiles, gone)))
  {
    DropKeeps(d.profiles, gone);
  }

  lemma RemoveKeepsWellFormed(d: Document, id: string)
    requires WellFormed(d) && Apply(d, Remove(id)).Ok?
    ensures WellFormed(Apply(d, Remove(id)).value)
  {
    var gone := (p: Profile) => p.id == id;
    DropKeeps(d.profiles, gone);
    if d.current.Some? && d.current != Some(id) {
      var k :| 0 <= k < |d.profiles| && d.profiles[k].id == d.current.value;
      assert d.profiles[k] in Drop(d.profiles, gone);
      HasIdIn(Drop(d.profiles, gone), d.current.value);
    }
    DropKeepsWellFormed(d, gone, if d.current == Some(id) then None else d.current);
  }

  /** Every mutation writes a registry that is sorted, distinct, bounded and consistent. */
  lemma ApplyKeepsWellFormed(d: Document, op: Op)
    requires WellFormed(d) && Apply(d, op).Ok?
    ensures WellFormed(Apply(d, op).value)
  {
    match op
    case Add(p) => AddKeepsWellFormed(d, p);
    case Use(_) =>
    case UseExpected(_) =>
    case Bind(id, db) => PutKeepsWellFormed(d, Find(d.profiles, id).value.(databaseId := Some(db)));
    case BindForInitialization(id, db, _) => PutKeepsWellFormed(d, Find(d.profiles, id).value.(databaseId := Some(db)));
    case SetDefault(id, v, _, _) => PutKeepsWellFormed(d, Find(d.profiles, id).value.(defaultVaultId := Some(v)));
    case ClearDefault(id, _, _) => PutKeepsWellFormed(d, Find(d.profiles, id).value.(defaultVaultId := None));
    case Remove(id) => RemoveKeepsWellFormed(d, id);
    case RemoveUnbound(only) =>
      DropKeeps(d.profiles, Unbound(only));
      UnboundResult(d, only);
    case ClearCurrent =>
  }

  // ---------------------------------------------------- what one mutation does

  predicate Touches(op: Op, id: string) {
    match op
    case Add(p) => p.id == id
    case Use(_) => false
    case UseExpected(_) => false
    case Bind(i, _) => i == id
    case BindForInitialization(i, _, _) => i == id
    case SetDefault(i, _, _, _) => i == id
    case ClearDefault(i, _, _) => i == id
    case Remove(i) => i == id
    case RemoveUnbound(only) => only.None? || id in only.value
    case ClearCurrent => false
  }

  lemma FindIs(s: seq<Profile>, p: Profile)
    requires DistinctProfiles(s) && p in s
    ensures Find(s, p.id) == Some(p)
  {
    var k :| 0 <= k < |s| && s[k] == p;
    assert HasId(s, p.id);
  }

  /** Lists with the same members answer lookups alike. */
  lemma FindSame(s: seq<Profile>, t: seq<Profile>, id: string)
    requires DistinctProfiles(s) && DistinctProfiles(t)
    requires forall p: Profile | p.id == id :: p in s <==> p in t
    ensures Find(s, id) == Find(t, id)
  {
    if Find(s, id).Some? { FindIs(t, Find(s, id).value); }
    if Find(t, id).Some? { FindIs(s, Find(t, id).value); }
  }

  lemma PutFinds(s: seq<Profile>, p: Profile, id: string)
    requires DistinctProfiles(s) && HasId(s, p.id)
    ensures Find(Put(s, p), id) == if id == p.id then Some(p) else Find(s, id)
  {
    var r := Put(s, p);
    assert DistinctProfiles(r);
    if id == p.id {
      var k :| 0 <= k < |s| && s[k].id == id;
      assert r[k] in r;
      FindIs(r, p);
    } else {
      forall q: Profile | q.id == id ensures q in s <==> q in r {
        if q in s {
          var k :| 0 <= k < |s| && s[k] == q;
          assert r[k] == q;
        }
      }
      FindSame(s, r, id);
    }
  }

  lemma AddFinds(s: seq<Profile>, p: Profile, id: string)
    requires DistinctProfiles(s) && !HasId(s, p.id) && id != p.id
    ensures Find(SortProfiles(s + [p]), id) == Find(s, id)
  {
    AddSorts(s, p);
    FindSame(SortProfiles(s + [p]), s, id);
  }

  lemma DropFinds(s: seq<Profile>, gone: Profile -> bool, id: string)
    requires DistinctProfiles(s) && (forall p | p in s && p.id == id :: !gone(p))
    ensures Find(Drop(s, gone), id) == Find(s, id)
  {
    DropMembers(s, gone);
    DropDistinct(s, gone);
    FindSame(Drop(s, gone), s, id);
  }

  /** Dropping keeps the order, so sorting again changes nothing. */
  lemma UnboundResult(d: Document, only: Option<set<string>>)
    requires WellFormed(d)
    ensures Apply(d, RemoveUnbound(only)).Ok?
    ensures Apply(d, RemoveUnbound(only)).value.profiles == Drop(d.profiles, Unbound(only))
  {
    var gone := Unbound(only);
    DropSorted(d.profiles, gone);
    DropDistinct(d.profiles, gone);
    SortedIsFixed(Drop(d.profiles, gone));
  }

  lemma UnboundDropFinds(d: Document, only: Option<set<string>>, gone: Profile -> bool, id: string)
    requires WellFormed(d) && gone == Unbound(only)
    requires forall p | p in d.profiles && p.id == id :: !gone(p)
    ensures Find(Apply(d, RemoveUnbound(only)).value.profiles, id) == Find(d.profiles, id)
  {
    UnboundResult(d, only);
    DropFinds(d.profiles, gone, id);
  }

  /** A mutation leaves every profile it does not name exactly as it was. */
  lemma OthersUntouched(d: Document, op: Op, id: string)
    requires WellFormed(d) && Apply(d, op).Ok? && !Touches(op, id)
    ensures Find(Apply(d, op).value.profiles, id) == Find(d.profiles, id)
  {
    match op
    case Add(p) => AddFinds(d.profiles, p, id);
    case Use(_) =>
    case UseExpected(_) =>
    case Bind(i, db) => PutFinds(d.profiles, Find(d.profiles, i).value.(databaseId := Some(db)), id);
    case BindForInitialization(i, db, _) =>
      PutFinds(d.profiles, Find(d.profiles, i).value.(databaseId := Some(db)), id);
    case SetDefault(i, v, _, _) => PutFinds(d.profiles, Find(d.profiles, i).value.(defaultVaultId := Some(v)), id);
    case ClearDefault(i, _, _) => PutFinds(d.profiles, Find(d.profiles, i).value.(defaultVaultId := None), id);
    case Remove(i) => DropFinds(d.profiles, (p: Profile) => p.id == i, id);
    case RemoveUnbound(only) => UnboundDropFinds(d, only, Unbound(only), id);
    case ClearCurrent =>
  }

  /** A bound profile keeps its database through every mutation but its own removal. */
  lemma BindingKept(d: Document, op: Op, id: string)
    requires WellFormed(d) && Apply(d, op).Ok? && op != Remove(id)
    requires Find(d.profiles, id).Some? && Find(d.profiles, id).value.databaseId.Some?
    ensures Find(Apply(d, op).value.profiles, id).Some?
    ensures Find(Apply(d, op).value.profiles, id).value.databaseId == Find(d.profiles, id).value.databaseId
  {
    if !Touches(op, id) {
      OthersUntouched(d, op, id);
    } else {
      var p := Find(d.profiles, id).value;
      match op
      case Add(_) =>
      case Use(_) =>
      case UseExpected(_) =>
      case Bind(_, db) => PutFinds(d.profiles, p.(databaseId := Some(db)), id);
      case BindForInitialization(_, _, _) =>
      case SetDefault(_, v, _, _) => PutFinds(d.profiles, p.(defaultVaultId := Some(v)), id);
      case ClearDefault(_, _, _) => PutFinds(d.profiles, p.(defaultVaultId := None), id);
      case Remove(_) =>
      case RemoveUnbound(only) =>
        forall q | q in d.profiles && q.id == id ensures q == p { FindIs(d.profiles, q); }
        UnboundDropFinds(d, only, Unbound(only), id);
      case ClearCurrent =>
    }
  }

  // ------------------------------------------------- what a mutation does and refuses

  /** What each mutation makes of the registry, profile by profile. */
  ghost predicate Does(d: Document, op: Op, r: Document) {
    && r.version == 2
    && (forall id :: Find(r.profiles, id) == FoundAfter(d, op, id))
    && r.current == CurrentAfter(d, op)
  }

  /** The profile with this identity afterwards. */
  function FoundAfter(d: Document, op: Op, id: string): Option<Profile> {
    var p := Find(d.profiles, id);
    match op
    case Add(added) => if id == added.id then Some(added) else p
    case Bind(i, db) => if id == i && p.Some? then Some(p.value.(databaseId := Some(db))) else p
    case BindForInitialization(i, db, _) => if id == i && p.Some? then Some(p.value.(databaseId := Some(db))) else p
    case SetDefault(i, vault, _, _) => if id == i && p.Some? then Some(p.value.(defaultVaultId := Some(vault))) else p
    case ClearDefault(i, _, _) => if id == i && p.Some? then Some(p.value.(defaultVaultId := None)) else p
    case Remove(i) => if id == i then None else p
    case RemoveUnbound(only) =>
      if p.Some? && p.value.databaseId.None? && (only.None? || id in only.value) then None else p
    case _ => p
  }

  /** The selection afterwards: a mutation selects, clears, or loses a selection with its profile. */
  function CurrentAfter(d: Document, op: Op): Option<string> {
    match op
    case Use(id) => Some(id)
    case UseExpected(p) => Some(p.id)
    case ClearCurrent => None
    case _ => if d.current.Some? && FoundAfter(d, op, d.current.value).Some? then d.current else None
  }

  /** Why a mutation is refused, if it is. */
  function Refusal(d: Document, op: Op): Option<Code> {
    match op
    case Add(p) =>
      if p.defaultVaultId.Some? && p.databaseId.None? then Some(Invalid)
      else if Find(d.profiles, p.id).Some? then Some(Duplicate)
      else if |d.profiles| >= MAX_PROFILES then Some(Limit)
      else None
    case Use(id) => if Find(d.profiles, id).None? then Some(NotFound) else None
    case UseExpected(p) => if Find(d.profiles, p.id) != Some(p) then Some(Invalid) else None
    case Bind(id, db) =>
      match Find(d.profiles, id) {
        case None => Some(NotFound)
        case Some(p) => if p.databaseId == None || p.databaseId == Some(db) then None else Some(Invalid)
      }
    case BindForInitialization(id, _, expected) =>
      match Find(d.profiles, id) {
        case None => Some(NotFound)
        case Some(p) =>
          if p.databaseId == None && (expected == None || expected == Some(p)) then None else Some(Invalid)
      }
    case SetDefault(id, _, db, expected) => RefusesDefault(d, id, db, expected)
    case ClearDefault(id, db, expected) => RefusesDefault(d, id, db, expected)
    case Remove(id) => if Find(d.profiles, id).None? then Some(NotFound) else None
    case RemoveUnbound(_) => None
    case ClearCurrent => None
  }

  function RefusesDefault(d: Document, id: string, db: string, expected: Option<Profile>): Option<Code> {
    match Find(d.profiles, id)
    case None => Some(Invalid)
    case Some(p) =>
      if p.databaseId == Some(db) && (expected == None || expected == Some(p)) then None else Some(Invalid)
  }

  /** A mutation is refused exactly for its reason, and with it. */
  lemma RefusedIff(d: Document, op: Op)
    requires WellFormed(d)
    ensures Refusal(d, op).Some? ==> Apply(d, op) == Err(Refusal(d, op).value)
    ensures Refusal(d, op).None? ==> Apply(d, op).Ok?
  {
    if op.UseExpected? && Find(d.profiles, op.profile.id) == Some(op.profile) {
      assert op.profile in d.profiles;
    }
  }

  lemma AddedIsFound(s: seq<Profile>, p: Profile)
    requires DistinctProfiles(s) && !HasId(s, p.id)
    ensures Find(SortProfiles(s + [p]), p.id) == Some(p)
  {
    AddSorts(s, p);
    FindIs(SortProfiles(s + [p]), p);
  }

  lemma DroppedIsGone(s: seq<Profile>, gone: Profile -> bool, id: string)
    requires DistinctProfiles(s) && Find(s, id).Some? && gone(Find(s, id).value)
    ensures Find(Drop(s, gone), id).None?
  {
    DropMembers(s, gone);
    if Find(Drop(s, gone), id).Some? { FindIs(s, Find(Drop(s, gone), id).value); }
  }

  lemma UnboundFound(d: Document, only: Option<set<string>>, id: string)
    requires WellFormed(d)
    ensures Find(Drop(d.profiles, Unbound(only)), id) == FoundAfter(d, RemoveUnbound(only), id)
  {
    DropOneWay(d.profiles, Unbound(only), id);
  }

  lemma DropOneWay(s: seq<Profile>, gone: Profile -> bool, id: string)
    requires DistinctProfiles(s)
    ensures Find(Drop(s, gone), id) == if Find(s, id).Some? && gone(Find(s, id).value) then None else Find(s, id)
  {
    if Find(s, id).Some? && gone(Find(s, id).value) {
      DroppedIsGone(s, gone, id);
    } else {
      forall q | q in s && q.id == id ensures !gone(q) { FindIs(s, q); }
      DropFinds(s, gone, id);
    }
  }

  lemma NamedFound(d: Document, op: Op, id: string)
    requires WellFormed(d) && Apply(d, op).Ok? && Touches(op, id)
    ensures Find(Apply(d, op).value.profiles, id) == FoundAfter(d, op, id)
  {
    match op
    case Add(p) => AddedIsFound(d.profiles, p);
    case Bind(i, db) => PutFinds(d.profiles, Find(d.profiles, i).value.(databaseId := Some(db)), id);
    case BindForInitialization(i, db, _) =>
      PutFinds(d.profiles, Find(d.profiles, i).value.(databaseId := Some(db)), id);
    case SetDefault(i, v, _, _) => PutFinds(d.profiles, Find(d.profiles, i).value.(defaultVaultId := Some(v)), id);
    case ClearDefault(i, _, _) => PutFinds(d.profiles, Find(d.profiles, i).value.(defaultVaultId := None), id);
    case Remove(i) => DroppedIsGone(d.profiles, (p: Profile) => p.id == i, id);
    case RemoveUnbound(only) =>
      UnboundResult(d, only);
      UnboundFound(d, only, id);
  }

  lemma SelectionFollows(d: Document, op: Op)
    requires WellFormed(d) && Apply(d, op).Ok?
    ensures Apply(d, op).value.current == CurrentAfter(d, op)
  {
    if d.current.Some? {
      var id := d.current.value;
      match op
      case RemoveUnbound(only) => UnboundFound(d, only, id);
      case _ =>
    }
  }

  /** An accepted mutation does what it says to the profile it names and to the selection, and nothing else. */
  lemma ApplyDoes(d: Document, op: Op)
    requires WellFormed(d) && Apply(d, op).Ok?
    ensures Does(d, op, Apply(d, op).value)
  {
    forall id ensures Find(Apply(d, op).value.profiles, id) == FoundAfter(d, op, id) {
      if Touches(op, id) { NamedFound(d, op, id); } else { OthersUntouched(d, op, id); }
    }
    SelectionFollows(d, op);
    ApplyKeepsWellFormed(d, op);
  }

  lemma FindsSameProfiles(s: seq<Profile>, t: seq<Profile>)
    requires Sorted(ProfileLe, s) && DistinctProfiles(s) && Sorted(ProfileLe, t) && DistinctProfiles(t)
    requires forall id :: Find(s, id) == Find(t, id)
    ensures s == t
  {
    forall p ensures p in s <==> p in t {
      if p in s { FindIs(s, p); assert Find(t, p.id) == Some(p); }
      if p in t { FindIs(t, p); assert Find(s, p.id) == Some(p); }
    }
    ProfileOrder();
    DistinctMultiset(s);
    DistinctMultiset(t);
    assert multiset(s) == multiset(t);
    forall x, y | x in s && y in s && ProfileLe(x, y) && ProfileLe(y, x) ensures x == y { LexTotal(x.id, y.id); }
    SortedUnique(ProfileLe, s, t);
  }

  lemma DistinctMultiset(s: seq<Profile>)
    requires DistinctProfiles(s)
    ensures forall p :: multiset(s)[p] == if p in s then 1 else 0
  {
    if s == [] {
    } else {
      var init, last := s[..|s| - 1], s[|s| - 1];
      DistinctMultiset(init);
      assert s == init + [last];
      assert multiset(s) == multiset(init) + multiset{last};
      assert last !in init;
    }
  }

  /** What a mutation does leaves only one well-formed registry to write: the one it writes. */
  lemma AppliedIff(d: Document, op: Op, r: Document)
    requires WellFormed(d)
    ensures Apply(d, op) == Ok(r) <==> Refusal(d, op).None? && WellFormed(r) && Does(d, op, r)
  {
    RefusedIff(d, op);
    if Apply(d, op).Ok? {
      ApplyKeepsWellFormed(d, op);
      ApplyDoes(d, op);
      if WellFormed(r) && Does(d, op, r) { FindsSameProfiles(r.profiles, Apply(d, op).value.profiles); }
    }
  }

  /**
   * A file is accepted exactly with a known version, few enough profiles, valid
   * ones, and identities in strict order.
   */
  lemma ParsedIff(d: Document)
    ensures ParseDocument(d).Ok? <==>
            && (d.version == 1 || d.version == 2) && |d.profiles| <= 64
            && (forall p | p in d.profiles ::
                  (p.defaultVaultId.Some? ==> p.databaseId.Some? && d.version == 2))
            && (forall i, j | 0 <= i < j < |d.profiles| ::
                  LexLe(d.profiles[i].id, d.profiles[j].id) && d.profiles[i].id != d.profiles[j].id)
    ensures ParseDocument(d).Ok? ==> ParseDocument(d).value == d
  {
    if Sorted(ProfileLe, d.profiles) && DistinctProfiles(d.profiles) { SortedIsFixed(d.profiles); }
    ProfileOrder();
    SortSorted(ProfileLe, d.profiles);
    if exists i | 0 <= i < |d.profiles| :: !ProfileParses(d.profiles[i], d.version) {
      var i :| 0 <= i < |d.profiles| && !ProfileParses(d.profiles[i], d.version);
      assert d.profiles[i] in d.profiles;
    } else {
      forall p | p in d.profiles ensures ProfileParses(p, d.version) {
        var i :| 0 <= i < |d.profiles| && d.profiles[i] == p;
      }
    }
  }

  /** A mutation starts from the profiles in the file, and from its selection if that is live. */
  lemma ViewMeans(file: Option<Document>)
    ensures View(file).profiles == (if file.Some? then file.value.profiles else [])
    ensures View(file).current.Some? <==>
              file.Some? && file.value.current.Some? && Find(file.value.profiles, file.value.current.value).Some?
    ensures View(file).current.Some? ==> View(file).current == file.value.current
  {}

  // --------------------------------------------------------------------- runs

  /** The file after some mutations, of this process and of others, each under the lock. */
  function Replay(file: Option<Document>, ops: seq<Op>): Option<Document> {
    if ops == [] then file
    else
      var before := Replay(file, ops[..|ops| - 1]);
      match Apply(View(before), ops[|ops| - 1])
      case Ok(d) => Some(d)
      case Err(_) => before
  }

  /** From any accepted file on, every registry ever written is well-formed. */
  lemma {:induction false} RunsAreWellFormed(file: Option<Document>, ops: seq<Op>)
    requires file.Some? ==> ParseDocument(file.value).Ok?
    ensures Replay(file, ops) == file || (Replay(file, ops).Some? && WellFormed(Replay(file, ops).value))
    ensures Replay(file, ops).Some? ==> ParseDocument(Replay(file, ops).value).Ok?
  {
    if ops == [] {
    } else {
      var before := Replay(file, ops[..|ops| - 1]);
      RunsAreWellFormed(file, ops[..|ops| - 1]);
      ViewIsWellFormed(before);
      if Apply(View(before), ops[|ops| - 1]).Ok? {
        ApplyKeepsWellFormed(View(before), ops[|ops| - 1]);
        Reparses(Apply(View(before), ops[|ops| - 1]).value);
      }
    }
  }

  /** Once a profile names a database it names that one until the profile is removed. */
  lemma {:induction false} DatabaseIsPinned(file: Option<Document>, ops: seq<Op>, id: string, databaseId: string)
    requires file.Some? && ParseDocument(file.value).Ok?
    requires Find(file.value.profiles, id).Some? && Find(file.value.profiles, id).value.databaseId == Some(databaseId)
    requires Remove(id) !in ops
    ensures Replay(file, ops).Some?
    ensures var p := Find(Replay(file, ops).value.profiles, id); p.Some? && p.value.databaseId == Some(databaseId)
  {
    if ops == [] {
    } else {
      var before := Replay(file, ops[..|ops| - 1]);
      DatabaseIsPinned(file, ops[..|ops| - 1], id, databaseId);
      RunsAreWellFormed(file, ops[..|ops| - 1]);
      ViewIsWellFormed(before);
      if Apply(View(before), ops[|ops| - 1]).Ok? {
        BindingKept(View(before), ops[|ops| - 1], id);
      }
    }
  }

  // ------------------------------------------------- retries against the file

  /**
   * What a schedule does to one attempt to publish: nothing wrong; an error
   * without effect; an error where the new document may have been written.
   * A busy or missing file is retried, anything else is not.
   */
  datatype Fault = NoFault | Refused(retried: bool) | Unacknowledged(written: bool, retried: bool)

  /** One attempt: what other processes commit before and after it looks for the file, and the fault. */
  datatype Attempt = Attempt(early: seq<Op>, late: seq<Op>, fault: Fault)

  datatype Commit = Commit(op: Op, own: bool)

  function OpsOf(log: seq<Commit>): (r: seq<Op>)
    ensures |r| == |log|
  {
    seq(|log|, i requires 0 <= i < |log| => log[i].op)
  }

  function OwnCount(log: seq<Commit>): nat {
    if log == [] then 0 else OwnCount(log[..|log| - 1]) + if log[|log| - 1].own then 1 else 0
  }

  datatype Status = NotPublished(error: Code) | Published | PublicationUncertain(error: Code)

  /** What becomes of a mutation of this file when nothing comes in between. */
  function Expected(file: Option<Document>, op: Op): Status {
    match Refusal(View(file), op)
    case Some(e) => NotPublished(e)
    case None => Published
  }

  /** From attempt i on nobody else commits, and only transient failures come before an attempt that does not fail. */
  predicate Quiet(schedule: seq<Attempt>, i: nat)
    decreases |schedule| - i
  {
    i < |schedule| && (schedule[i] == CALM || (schedule[i] == BUSY && Quiet(schedule, i + 1)))
  }

  const CALM := Attempt([], [], NoFault)
  const BUSY := Attempt([], [], Refused(true))

  class Registry {
    var file: Option<Document>
    /** The file when this object was opened, and every mutation committed since. */
    ghost var first: Option<Document>
    ghost var log: seq<Commit>

    ghost predicate Valid()
      reads this
    {
      && (first.Some? ==> ParseDocument(first.value).Ok?)
      && file == Replay(first, OpsOf(log))
    }

    constructor (file: Option<Document>)
      requires file.Some? ==> ParseDocument(file.value).Ok?
      ensures Valid() && this.file == first == file && log == []
    {
      this.file, first, log := file, file, [];
    }

    ghost method Record(op: Op, own: bool, before: Option<Document>)
      requires first.Some? ==> ParseDocument(first.value).Ok?
      requires before == Replay(first, OpsOf(log))
      requires file == (match Apply(View(before), op) case Ok(d) => Some(d) case Err(_) => before)
      modifies this`log
      ensures Valid() && log == old(log) + [Commit(op, own)]
    {
      log := log + [Commit(op, own)];
      assert OpsOf(log)[..|log| - 1] == OpsOf(old(log));
    }

    /** Other processes take their turns under the lock. */
    method OthersCommit(ops: seq<Op>)
      requires Valid()
      modifies this`file, this`log
      ensures Valid() && |log| == |old(log)| + |ops| && old(log) <= log
      ensures OwnCount(log) == OwnCount(old(log))
      ensures file == Replay(old(file), ops)
    {
      assert ops[..|ops|] == ops;
      for i := 0 to |ops|
        invariant Valid() && |log| == |old(log)| + i && old(log) <= log
        invariant OwnCount(log) == OwnCount(old(log))
        invariant file == Replay(old(file), ops[..i])
      {
        assert ops[..i + 1][..i] == ops[..i];
        ghost var before := file;
        var r := Apply(View(file), ops[i]);
        if r.Ok? { file := Some(r.value); }
        Record(ops[i], false, before);
      }
    }

    /** The last commit is this operation, and it did what it says to the registry as it then was. */
    ghost predicate WasApplied(op: Op)
      reads this
    {
      && log != [] && log[|log| - 1] == Commit(op, true) && file.Some?
      && var before := View(Replay(first, OpsOf(log[..|log| - 1])));
         Apply(before, op) == Ok(file.value) && Refusal(before, op).None? && Does(before, op, file.value)
    }

    lemma FileParses()
      requires Valid()
      ensures file.Some? ==> ParseDocument(file.value).Ok?
    {
      RunsAreWellFormed(first, OpsOf(log));
    }

    /** How many mutations this process has committed. */
    ghost function Own(): nat
      reads this
    {
      OwnCount(log)
    }

    method Write(op: Op, d: Document)
      requires Valid() && Apply(View(file), op) == Ok(d)
      modifies this`file, this`log
      ensures Valid() && old(log) <= log && Own() == old(Own()) + 1 && WasApplied(op) && file == Some(d)
    {
      ghost var before := file;
      FileParses();
      ViewIsWellFormed(file);
      ApplyDoes(View(file), op);
      RefusedIff(View(file), op);
      file := Some(d);
      Record(op, true, before);
      assert OpsOf(log[..|log| - 1]) == OpsOf(old(log));
    }

    /** One attempt to publish a mutation: applied once, or not at all. */
    method TryPublish(op: Op, fault: Fault) returns (status: Status, retried: bool)
      requires Valid()
      modifies this`file, this`log
      ensures Valid() && old(log) <= log && old(Own()) <= Own() <= old(Own()) + 1
      ensures status.NotPublished? ==> Own() == old(Own())
      ensures status.Published? ==> Own() == old(Own()) + 1 && WasApplied(op)
      ensures status.Published? ==> Apply(View(old(file)), op).Ok? && file == Some(Apply(View(old(file)), op).value)
      ensures status.PublicationUncertain? ==>
                fault.Unacknowledged? && Own() == old(Own()) + (if fault.written then 1 else 0)
      // without a fault it is published unless it is refused, and then for its reason
      ensures fault == NoFault ==> !retried && status == Expected(old(file), op)
      ensures fault == Refused(true) ==>
                && file == old(file)
                && (if Expected(old(file), op).Published? then retried
                     else !retried && status == Expected(old(file), op))
      ensures retried ==> !status.Published?
    {
      FileParses();
      ViewIsWellFormed(file);
      RefusedIff(View(file), op);
      var r := Apply(View(file), op);
      if r.Err? { return NotPublished(r.error), false; }
      match fault {
        case NoFault =>
          Write(op, r.value);
          return Published, false;
        case Refused(again) =>
          return NotPublished(Unsafe), again;
        case Unacknowledged(written, again) =>
          if written { Write(op, r.value); }
          return PublicationUncertain(Unsafe), again;
      }
    }

    /** One attempt on an existing registry, with what others commit before it. */
    method TryExisting(op: Op, attempt: Attempt) returns (status: Status, retried: bool)
      requires Valid()
      modifies this`file, this`log
      ensures Valid() && old(log) <= log && old(Own()) <= Own() <= old(Own()) + 1
      ensures status.NotPublished? ==> Own() == old(Own())
      ensures status.Published? ==> Own() == old(Own()) + 1 && WasApplied(op)
      ensures status.PublicationUncertain? ==> attempt.fault.Unacknowledged?
      ensures retried ==> !status.Published?
      ensures attempt == CALM && old(file).Some? ==> !retried && status == Expected(old(file), op)
      ensures attempt == BUSY && old(file).Some? ==>
                && file == old(file)
                && (if Expected(old(file), op).Published? then retried && status.NotPublished?
                    else !retried && status == Expected(old(file), op))
      ensures attempt.early == [] && old(file).None? ==> status == NotPublished(NotFound) && !retried
    {
      OthersCommit(attempt.early);
      if file.None? { return NotPublished(NotFound), false; }
      OthersCommit(attempt.late);
      status, retried := TryPublish(op, attempt.fault);
    }

    /** Up to three attempts on an existing registry, reporting what is known about publication. */
    method MutateWithPublicationStatus(op: Op, schedule: seq<Attempt>) returns (status: Status)
      requires Valid() && |schedule| == 3
      modifies this`file, this`log
      ensures Valid() && old(log) <= log
      ensures status.NotPublished? ==> Own() == old(Own())
      ensures status.Published? ==> Own() == old(Own()) + 1 && WasApplied(op)
      ensures status.PublicationUncertain? ==> Own() <= old(Own()) + 1
      ensures Quiet(schedule, 0) && old(file).Some? ==> status == Expected(old(file), op)
      ensures schedule[0].early == [] && old(file).None? ==> status == NotPublished(NotFound)
    {
      for i := 0 to 3
        invariant Valid() && old(log) <= log && Own() == old(Own())
        invariant Quiet(schedule, 0) && old(file).Some? ==> Quiet(schedule, i) && file == old(file)
        invariant schedule[0].early == [] && old(file).None? ==> i == 0 && file == old(file)
      {
        var retried: bool;
        status, retried := TryExisting(op, schedule[i]);
        if !status.NotPublished? || !retried { return; }
      }
      return NotPublished(OperationFailed);
    }

    /** Creating the registry: tried again when another process created it first. */
    method TryCreate(op: Op, attempt: Attempt) returns (status: Status, retried: bool)
      requires Valid() && file.None?
      modifies this`file, this`log
      ensures Valid() && old(log) <= log && old(Own()) <= Own() <= old(Own()) + 1
      ensures status.NotPublished? ==> Own() == old(Own())
      ensures status.Published? ==> Own() == old(Own()) + 1 && WasApplied(op)
      ensures status.PublicationUncertain? ==> attempt.fault.Unacknowledged?
      ensures retried ==> !status.Published?
      ensures attempt == CALM ==> !retried && status == Expected(None, op)
      // what the empty registry refuses is not written; a registry that appeared meanwhile is another attempt
      ensures Refusal(EMPTY, op).Some? ==> status == NotPublished(Refusal(EMPTY, op).value) && log == old(log)
      ensures retried <==> Refusal(EMPTY, op).None? && Replay(None, attempt.late).Some?
    {
      ViewIsWellFormed(None);
      RefusedIff(EMPTY, op);
      var r := Apply(EMPTY, op);
      if r.Err? { return NotPublished(r.error), false; }
      OthersCommit(attempt.late);
      if file.Some? { return NotPublished(OperationFailed), true; }
      status, retried := TryPublish(op, attempt.fault);
      retried := false;
    }

    /** One attempt, creating the registry when it is missing. */
    method TryOnce(op: Op, attempt: Attempt) returns (status: Status, retried: bool)
      requires Valid()
      modifies this`file, this`log
      ensures Valid() && old(log) <= log && old(Own()) <= Own() <= old(Own()) + 1
      ensures status.NotPublished? ==> Own() == old(Own())
      ensures status.Published? ==> Own() == old(Own()) + 1 && WasApplied(op)
      ensures status.PublicationUncertain? ==> attempt.fault.Unacknowledged?
      ensures retried ==> !status.Published?
      ensures attempt == CALM ==> !retried && status == Expected(old(file), op)
      ensures attempt.early == [] && old(file).None? ==>
                (retried <==> Refusal(EMPTY, op).None? && Replay(None, attempt.late).Some?)
      ensures attempt == BUSY && old(file).Some? ==>
                && file == old(file)
                && (if Expected(old(file), op).Published? then retried
                     else !retried && status == Expected(old(file), op))
    {
      OthersCommit(attempt.early);
      if file.None? {
        status, retried := TryCreate(op, attempt);
      } else {
        OthersCommit(attempt.late);
        status, retried := TryPublish(op, attempt.fault);
      }
    }

    /**
     * Up to three attempts, creating the registry when it is missing. Only an
     * unacknowledged write can make the mutation take effect more than once,
     * or take effect and be reported as failed. When nobody comes in between
     * and at most the first two attempts find the registry busy, it succeeds
     * unless it is refused, and then fails for its reason.
     */
    method Mutate(op: Op, schedule: seq<Attempt>) returns (r: Result<(), Code>)
      requires Valid() && |schedule| == 3
      modifies this`file, this`log
      ensures Valid() && old(log) <= log
      ensures old(Own()) <= Own() <= old(Own()) + 3
      ensures r.Ok? ==> WasApplied(op) && Own() > old(Own())
      ensures Acknowledged(schedule) ==> Own() == old(Own()) + if r.Ok? then 1 else 0
      ensures schedule[0] == CALM || (Quiet(schedule, 0) && old(file).Some?) ==> Answers(r, Expected(old(file), op))
    {
      for i := 0 to 3
        invariant Valid() && old(log) <= log && old(Own()) <= Own() <= old(Own()) + i
        invariant Acknowledged(schedule) ==> Own() == old(Own())
        invariant schedule[0] == CALM ==> i == 0 && file == old(file)
        invariant Quiet(schedule, 0) && old(file).Some? ==> Quiet(schedule, i) && file == old(file)
      {
        var status, retried := TryOnce(op, schedule[i]);
        if status.Published? { return Ok(()); }
        if !retried { return Err(status.error); }
      }
      return Err(OperationFailed);
    }

    /**
     * Clears a selection that was found dangling; other processes may commit
     * between the look and the lock. What is cleared is whatever is selected
     * then: a live selection is dropped exactly when one of the others made a
     * selection that none of the later ones undid.
     */
    method HealDanglingCurrentPointer(others: seq<Op>, fault: Fault) returns (r: Result<bool, Code>)
      requires Valid()
      modifies this`file, this`log
      ensures Valid() && old(log) <= log
      ensures r == Ok(false) <==> old(file).None? || !Dangling(old(file).value)
      ensures r == Ok(false) ==> log == old(log)
      ensures fault == NoFault ==> r.Ok?
      ensures r == Ok(true) ==>
              WasApplied(ClearCurrent) && file == Some(View(Replay(old(file), others)).(current := None))
      ensures r == Ok(true) ==>
              (View(Replay(old(file), others)).current.Some? <==> SelectedMeanwhile(old(file), others))
    {
      if file.None? || !Dangling(file.value) { return Ok(false); }
      FileParses();
      SelectionIff(file, others);
      OthersCommit(others);
      var status, _ := TryPublish(ClearCurrent, fault);
      return if status.Published? then Ok(true) else Err(status.error);
    }
  }

  // ------------------------------------------------- what healing may take away

  predicate Selecting(op: Op) {
    op.Use? || op.UseExpected?
  }

  /** The mutation leaves the registry without the selection it has. */
  predicate Undoes(d: Document, op: Op) {
    match op
    case ClearCurrent => true
    case Remove(id) => d.current == Some(id)
    case RemoveUnbound(only) =>
      d.current.Some? && var p := Find(d.profiles, d.current.value); p.Some? && Unbound(only)(p.value)
    case _ => false
  }

  predicate Accepted(file: Option<Document>, ops: seq<Op>, i: nat)
    requires i < |ops|
  {
    Apply(View(Replay(file, ops[..i])), ops[i]).Ok?
  }

  predicate UndoneAt(file: Option<Document>, ops: seq<Op>, j: nat)
    requires j < |ops|
  {
    Accepted(file, ops, j) && Undoes(View(Replay(file, ops[..j])), ops[j])
  }

  predicate SelectsForGood(file: Option<Document>, ops: seq<Op>, i: nat)
    requires i < |ops|
  {
    Selecting(ops[i]) && Accepted(file, ops, i) && forall j | i < j < |ops| :: !UndoneAt(file, ops, j)
  }

  /** Some of the mutations was accepted as a selection, and no later one undid it. */
  predicate SelectedMeanwhile(file: Option<Document>, ops: seq<Op>) {
    exists i | 0 <= i < |ops| :: SelectsForGood(file, ops, i)
  }

  lemma UnboundCurrent(d: Document, only: Option<set<string>>)
    requires WellFormed(d) && d.current.Some?
    ensures Find(d.profiles, d.current.value).Some?
    ensures Apply(d, RemoveUnbound(only)).value.current.Some? <==> !Undoes(d, RemoveUnbound(only))
  {
    var gone, p := Unbound(only), Find(d.profiles, d.current.value).value;
    var rest := Drop(d.profiles, gone);
    DropMembers(d.profiles, gone);
    HasIdIn(rest, p.id);
    if q :| q in rest && q.id == p.id { FindIs(d.profiles, q); }
  }

  /**
   * After a mutation something is selected exactly when it selects, or
   * something was selected and it does not undo that.
   */
  lemma SelectionAfter(d: Document, op: Op)
    requires WellFormed(d) && Apply(d, op).Ok?
    ensures Apply(d, op).value.current.Some? <==> Selecting(op) || (d.current.Some? && !Undoes(d, op))
  {
    if op.RemoveUnbound? && d.current.Some? { UnboundCurrent(d, op.only); }
  }

  lemma SelectsOneMore(file: Option<Document>, ops: seq<Op>, i: nat)
    requires ops != [] && i < |ops| - 1
    ensures SelectsForGood(file, ops, i)
            <==> SelectsForGood(file, ops[..|ops| - 1], i) && !UndoneAt(file, ops, |ops| - 1)
  {
    var init := ops[..|ops| - 1];
    assert forall j | 0 <= j < |init| :: init[..j] == ops[..j];
    assert forall j | 0 <= j < |init| :: UndoneAt(file, init, j) <==> UndoneAt(file, ops, j);
  }

  lemma SelectedSplit(file: Option<Document>, ops: seq<Op>)
    requires ops != []
    ensures var last := |ops| - 1;
            SelectedMeanwhile(file, ops)
            <==>
            || (Selecting(ops[last]) && Accepted(file, ops, last))
            || (SelectedMeanwhile(file, ops[..last]) && !UndoneAt(file, ops, last))
  {
    var last := |ops| - 1;
    var init := ops[..last];
    assert SelectsForGood(file, ops, last) <==> Selecting(ops[last]) && Accepted(file, ops, last);
    forall i | 0 <= i < last
      ensures SelectsForGood(file, ops, i) <==> SelectsForGood(file, init, i) && !UndoneAt(file, ops, last)
    {
      SelectsOneMore(file, ops, i);
    }
  }

  /** One mutation of the file, as far as the selection goes. */
  lemma SelectionStep(file: Option<Document>, before: Option<Document>, ops: seq<Op>)
    requires ops != [] && before == Replay(file, ops[..|ops| - 1])
    requires before.Some? ==> ParseDocument(before.value).Ok?
    ensures var last := |ops| - 1;
            View(Replay(file, ops)).current.Some?
            <==>
            || (Selecting(ops[last]) && Accepted(file, ops, last))
            || (View(before).current.Some? && !UndoneAt(file, ops, last))
  {
    var op := ops[|ops| - 1];
    ViewIsWellFormed(before);
    if Apply(View(before), op).Ok? {
      SelectionAfter(View(before), op);
      ApplyKeepsWellFormed(View(before), op);
      Reparses(Apply(View(before), op).value);
    }
  }

  /**
   * From a file without a live selection, one is there after some mutations
   * exactly when it was made and not undone.
   */
  lemma {:induction false} SelectionIff(file: Option<Document>, ops: seq<Op>)
    requires file.Some? ==> ParseDocument(file.value).Ok?
    requires View(file).current.None?
    ensures View(Replay(file, ops)).current.Some? <==> SelectedMeanwhile(file, ops)
  {
    if ops == [] {
    } else {
      var init := ops[..|ops| - 1];
      SelectionIff(file, init);
      RunsAreWellFormed(file, init);
      SelectionStep(file, Replay(file, init), ops);
      SelectedSplit(file, ops);
    }
  }

  /** Published, or not for this reason. */
  predicate Answers(r: Result<(), Code>, status: Status) {
    match status
    case Published => r == Ok(())
    case NotPublished(e) => r == Err(e)
    case PublicationUncertain(_) => false
  }

  predicate Acknowledged(schedule: seq<Attempt>) {
    forall i | 0 <= i < |schedule| :: !schedule[i].fault.Unacknowledged?
  }

  predicate Dangling(d: Document) {
    d.current.Some? && !HasId(d.profiles, d.current.value)
  }

  /**
   * The pointer is checked before the lock is taken and cleared under it, so
   * healing drops a selection that another process made in between.
   */
  lemma HealingCanDropASelection(route: Route)
    ensures var p := Profile("a", None, None, route);
            var stored := Document(2, Some("b"), [p]);
            && ParseDocument(stored) == Ok(stored) && Dangling(stored)
            && View(Replay(Some(stored), [Use("a")])).current == Some("a")
            && View(Replay(Some(stored), [Use("a"), ClearCurrent])).current == None
  {
    var p := Profile("a", None, None, route);
    var stored := Document(2, Some("b"), [p]);
    assert Sorted(ProfileLe, [p]);
    SortedIsFixed([p]);
    assert [p][0].id == "a" && HasId([p], "a");
    assert [Use("a")][..0] == [] && [Use("a"), ClearCurrent][..1] == [Use("a")];
    assert Replay(Some(stored), []) == Some(stored);
    assert Replay(Some(stored), [Use("a")]) == Some(Document(2, Some("a"), [p]));
  }
}
