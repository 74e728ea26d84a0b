/**
 * Item snapshots: recording the replaced content of every edited item inside
 * the same payload, retaining the most recent ones, and restoring one.
 */
module ItemHistory {
  import opened Wrappers

  const MAX_PER_ITEM := 100
  const MAX_SNAPSHOTS := 10_000

  datatype Item = Item(
    id: string, vaultId: string, groupId: string, templateId: string, templateVersion: nat,
    title: string, deleted: bool, attachments: seq<string>, related: seq<string>,
    revision: nat, updatedAt: nat, body: string)

  datatype Snapshot = Snapshot(id: string, createdAt: nat, item: Item)

  datatype Context = Context(id: string, name: string)

  datatype Group = Group(
    id: string, vaultId: string, contextId: string, name: string, deleted: bool, templateId: string,
        templateVersion: nat)

  datatype Attachment = Attachment(id: string, vaultId: string, itemId: string, groupId: string)

  datatype HistoryRecord = HistoryRecord(id: string, vaultId: string, itemId: string, groupId: string)

  datatype Vault = Vault(
    version: nat, vaultId: string, contexts: seq<Context>, groups: seq<Group>, items: seq<Item>,
    attachments: seq<Attachment>, history: seq<HistoryRecord>, snapshots: Option<seq<Snapshot>>)

  /** A database vault holds either the legacy flat payload or the structured one. */
  datatype Payload = Legacy(content: string) | Structured(vault: Vault)

  datatype Failure = SchemaViolation | CredentialMissing | IntegrityFailure

  // ------------------------------------------------------------------- schema

  predicate HasItem(items: seq<Item>, id: string) {
    exists i | 0 <= i < |items| :: items[i].id == id
  }

  /** The item is where its groups, templates, attachments and related items say it is. */
  predicate ItemResolves(v: Vault, i: Item) {
    && i.vaultId == v.vaultId
    && (exists g | 0 <= g < |v.groups| ::
          v.groups[g].id == i.groupId && v.groups[g].templateId == i.templateId
              && v.groups[g].templateVersion == i.templateVersion)
    && (forall a | a in i.attachments :: exists k | 0 <= k < |v.attachments| ::
          v.attachments[k].id == a && v.attachments[k].itemId == i.id && v.attachments[k].groupId == i.groupId)
    && (forall r | r in i.related :: HasItem(v.items, r))
  }

  predicate AttachmentOwned(items: seq<Item>, a: Attachment) {
    exists i | 0 <= i < |items| ::
        items[i].id == a.itemId && items[i].groupId == a.groupId && a.id in items[i].attachments
  }

  predicate HistoryBound(items: seq<Item>, h: HistoryRecord) {
    exists i | 0 <= i < |items| :: items[i].id == h.itemId && items[i].groupId == h.groupId
  }

  /** The identities of everything but items, over all kinds. */
  function OtherIds(
      contexts: seq<Context>, groups: seq<Group>, attachments: seq<Attachment>, history: seq<HistoryRecord>)
    : seq<string>
  {
    seq(|contexts|, i requires 0 <= i < |contexts| => contexts[i].id)
    + seq(|groups|, i requires 0 <= i < |groups| => groups[i].id)
    + seq(|attachments|, i requires 0 <= i < |attachments| => attachments[i].id)
    + seq(|history|, i requires 0 <= i < |history| => history[i].id)
  }

  /**
   * Contexts, groups, attachments and history records have distinct identities,
   * within a kind and across kinds, belong to this vault, and names are distinct.
   */
  predicate HierarchyValid(
      vaultId: string, contexts: seq<Context>, groups: seq<Group>, attachments: seq<Attachment>,
          history: seq<HistoryRecord>)
  {
    && (forall i, j | 0 <= i < j < |contexts| ::
          contexts[i].id != contexts[j].id && contexts[i].name != contexts[j].name)
    && (forall i, j | 0 <= i < j < |groups| :: groups[i].id != groups[j].id)
    && (forall i, j | 0 <= i < j < |groups| ::
          groups[i].contextId != groups[j].contextId || groups[i].name != groups[j].name)
    && (forall g | g in groups :: exists c | 0 <= c < |contexts| :: contexts[c].id == g.contextId)
    && (forall i, j | 0 <= i < j < |attachments| :: attachments[i].id != attachments[j].id)
    && (forall i, j | 0 <= i < j < |history| :: history[i].id != history[j].id)
    && (var others := OtherIds(contexts, groups, attachments, history);
        forall i, j | 0 <= i < j < |others| :: others[i] != others[j])
    && (forall g | g in groups :: g.vaultId == vaultId)
    && (forall a | a in attachments :: a.vaultId == vaultId)
    && (forall h | h in history :: h.vaultId == vaultId)
  }

  predicate ItemsValid(v: Vault) {
    && (forall i, j | 0 <= i < j < |v.items| :: v.items[i].id != v.items[j].id)
    && (var others := OtherIds(v.contexts, v.groups, v.attachments, v.history);
        forall i | 0 <= i < |v.items| :: v.items[i].id !in others)
    && (forall i, j | 0 <= i < j < |v.items| && !v.items[i].deleted && !v.items[j].deleted ::
          v.items[i].groupId != v.items[j].groupId || v.items[i].title != v.items[j].title)
    && (forall i {:trigger ItemResolves(v, v.items[i])} | 0 <= i < |v.items| :: ItemResolves(v, v.items[i]))
    && (forall k {:trigger AttachmentOwned(v.items, v.attachments[k])} | 0 <= k < |v.attachments| ::
         AttachmentOwned(v.items, v.attachments[k]))
    && (forall k {:trigger HistoryBound(v.items, v.history[k])} | 0 <= k < |v.history| ::
         HistoryBound(v.items, v.history[k]))
  }

  function Occurrences(s: seq<Snapshot>, id: string): nat {
    if s == [] then 0 else (if s[0].item.id == id then 1 else 0) + Occurrences(s[1..], id)
  }

  predicate SnapshotBound(v: Vault, s: Snapshot) {
    && s.item.vaultId == v.vaultId
    && exists i | 0 <= i < |v.items| :: v.items[i].id == s.item.id && v.items[i].groupId == s.item.groupId
  }

  predicate HasRecord(history: seq<HistoryRecord>, id: string) {
    exists h | 0 <= h < |history| :: history[h].id == id
  }

  predicate SnapshotsValid(v: Vault, s: seq<Snapshot>) {
    && |s| <= MAX_SNAPSHOTS
    && (forall i {:trigger SnapshotBound(v, s[i])} | 0 <= i < |s| ::
         SnapshotBound(v, s[i]) && !HasRecord(v.history, s[i].id))
    && (forall i, j | 0 <= i < j < |s| :: s[i].id != s[j].id)
    && (forall i | 0 <= i < |s| :: Occurrences(s, s[i].item.id) <= MAX_PER_ITEM)
  }

  predicate Valid(v: Vault) {
    && HierarchyValid(v.vaultId, v.contexts, v.groups, v.attachments, v.history)
    && ItemsValid(v)
    && (v.version == 1 ==> v.snapshots.None?)
    && (v.snapshots.Some? ==> SnapshotsValid(v, v.snapshots.value))
  }

  function Parse(v: Vault): Result<Payload, Failure> {
    if Valid(v) then Ok(Structured(v)) else Err(SchemaViolation)
  }

  // ---------------------------------------------------------------- recording

  function ById(items: seq<Item>): map<string, Item> {
    if items == [] then map[] else ById(items[..|items| - 1])[items[|items| - 1].id := items[|items| - 1]]
  }

  /** Snapshots of items that still exist. */
  function Alive(s: seq<Snapshot>, next: map<string, Item>): seq<Snapshot> {
    if s == [] then []
    else
      var prefix, x := Alive(s[..|s| - 1], next), s[|s| - 1];
      if x.item.id in next then prefix + [x] else prefix
  }

  predicate Edited(i: Item, next: map<string, Item>) {
    i.id in next && next[i.id] != i
  }

  /** One new snapshot for each item whose content changed, in the old order. */
  function Fresh(items: seq<Item>, next: map<string, Item>, at: nat, ids: seq<string>): (r: seq<Snapshot>)
    requires |ids| >= |items|
    ensures |r| <= |items|
  {
    if items == [] then []
    else
      var prefix, i := Fresh(items[..|items| - 1], next, at, ids), items[|items| - 1];
      if Edited(i, next) then prefix + [Snapshot(ids[|prefix|], at, i)] else prefix
  }

  function Existing(before: Vault, after: Vault): seq<Snapshot> {
    if after.snapshots.Some? then after.snapshots.value
    else if before.snapshots.Some? then before.snapshots.value
    else []
  }

  function StoredSnapshots(v: Vault): seq<Snapshot> {
    if v.snapshots.Some? then v.snapshots.value else []
  }

  function Candidates(before: Vault, after: Vault, at: nat, ids: seq<string>): seq<Snapshot>
    requires |ids| >= |before.items|
  {
    Alive(Existing(before, after), ById(after.items)) + Fresh(before.items, ById(after.items), at, ids)
  }

  /** Each snapshot with fewer than 100 later snapshots of the same item, in order. */
  function Keep(s: seq<Snapshot>): (r: seq<Snapshot>)
    ensures |r| <= |s|
  {
    if s == [] then []
    else (if Occurrences(s[1..], s[0].item.id) < MAX_PER_ITEM then [s[0]] else []) + Keep(s[1..])
  }

  function Last<T>(s: seq<T>, n: nat): seq<T> {
    if |s| <= n then s else s[|s| - n..]
  }

  function Retained(s: seq<Snapshot>): seq<Snapshot> {
    Last(Keep(s), MAX_SNAPSHOTS)
  }

  /** Recording, defined by the simple retention rule. */
  function Record(before: Payload, after: Payload, at: nat, ids: seq<string>): Result<Payload, Failure>
    requires before.Structured? ==> |ids| >= |before.vault.items|
  {
    if before.Legacy? || after.Legacy? then Ok(after)
    else
      var c := Candidates(before.vault, after.vault, at, ids);
      if c == [] then
        if after.vault.snapshots.None? then Ok(after) else Parse(after.vault.(snapshots := Some([])))
      else Parse(after.vault.(version := 2, snapshots := Some(Retained(c))))
  }

  /** One pass from the newest snapshot back, counting per item. */
  method KeepNewest(snapshots: seq<Snapshot>) returns (retained: seq<Snapshot>)
    ensures retained == Keep(snapshots)
  {
    var counts: map<string, nat> := map[];
    retained := [];
    var i := |snapshots|;
    while i > 0
      invariant 0 <= i <= |snapshots|
      invariant forall id :: (if id in counts then counts[id] else 0) == Occurrences(snapshots[i..], id)
      invariant retained == Keep(snapshots[i..])
    {
      i := i - 1;
      var s := snapshots[i];
      assert snapshots[i..][1..] == snapshots[i + 1..];
      var count := (if s.item.id in counts then counts[s.item.id] else 0) + 1;
      counts := counts[s.item.id := count];
      if count <= MAX_PER_ITEM { retained := [s] + retained; }
    }
    assert snapshots[0..] == snapshots;
  }

  method RecordItemSnapshots(before: Payload, after: Payload, at: nat, ids: seq<string>)
    returns (r: Result<Payload, Failure>)
    requires before.Structured? ==> |ids| >= |before.vault.items|
    ensures r == Record(before, after, at, ids)
  {
    if before.Legacy? || after.Legacy? { return Ok(after); }
    var b, a := before.vault, after.vault;
    var next: map<string, Item> := map[];
    for i := 0 to |a.items|
      invariant next == ById(a.items[..i])
    {
      assert a.items[..i + 1][..i] == a.items[..i];
      next := next[a.items[i].id := a.items[i]];
    }
    assert a.items[..|a.items|] == a.items;
    var existing := Existing(b, a);
    var snapshots: seq<Snapshot> := [];
    for i := 0 to |existing|
      invariant snapshots == Alive(existing[..i], next)
    {
      assert existing[..i + 1][..i] == existing[..i];
      if existing[i].item.id in next { snapshots := snapshots + [existing[i]]; }
    }
    assert existing[..|existing|] == existing;
    var drawn := 0;
    ghost var alive := snapshots;
    for i := 0 to |b.items|
      invariant drawn == |Fresh(b.items[..i], next, at, ids)|
      invariant snapshots == alive + Fresh(b.items[..i], next, at, ids)
    {
      assert b.items[..i + 1][..i] == b.items[..i];
      var item := b.items[i];
      if item.id in next && next[item.id] != item {
        snapshots := snapshots + [Snapshot(ids[drawn], at, item)];
        drawn := drawn + 1;
      }
    }
    assert b.items[..|b.items|] == b.items;
    if |snapshots| == 0 {
      return if a.snapshots.None? then Ok(after) else Parse(a.(snapshots := Some([])));
    }
    var retained := KeepNewest(snapshots);
    return Parse(a.(version := 2, snapshots := Some(Last(retained, MAX_SNAPSHOTS))));
  }

  // ------------------------------------------------------ what retention means

  /** Survival of one candidate, looking only at the candidates after it. */
  predicate Survives(s: seq<Snapshot>, j: nat)
    requires j < |s|
  {
    Occurrences(s[j + 1..], s[j].item.id) < MAX_PER_ITEM && |Keep(s[j + 1..])| < MAX_SNAPSHOTS
  }

  function Survivors(s: seq<Snapshot>): seq<Snapshot> {
    if s == [] then [] else (if Survives(s, 0) then [s[0]] else []) + Survivors(s[1..])
  }

  /**
   * The cut to the last 10,000 after the per-item pass keeps, in order, exactly
   * the candidates that have fewer than 100 later ones of the same item and
   * fewer than 10,000 later kept ones.
   */
  lemma {:induction false} RetainedAreSurvivors(s: seq<Snapshot>)
    ensures Retained(s) == Survivors(s)
  {
    if s == [] {
    } else {
      RetainedAreSurvivors(s[1..]);
      var k, rest := Keep(s), Keep(s[1..]);
      if |rest| < MAX_SNAPSHOTS {
        assert Last(k, MAX_SNAPSHOTS) == k && Last(rest, MAX_SNAPSHOTS) == rest;
      } else {
        assert Last(k, MAX_SNAPSHOTS) == Last(rest, MAX_SNAPSHOTS);
      }
    }
  }

  function OfItem(s: seq<Snapshot>, id: string): seq<Snapshot> {
    if s == [] then [] else (if s[0].item.id == id then [s[0]] else []) + OfItem(s[1..], id)
  }

  ghost predicate IsSuffix<T>(a: seq<T>, b: seq<T>) {
    |a| <= |b| && b[|b| - |a|..] == a
  }

  lemma {:induction false} OccurrencesCount(s: seq<Snapshot>, id: string)
    ensures Occurrences(s, id) == |OfItem(s, id)|
  {
    if s == [] {
    } else {
      OccurrencesCount(s[1..], id);
    }
  }

  lemma LastCons<T>(x: T, rest: seq<T>, n: nat)
    ensures Last([x] + rest, n) == if |rest| < n then [x] + Last(rest, n) else Last(rest, n)
  {}

  lemma OfItemCons(x: Snapshot, rest: seq<Snapshot>, id: string)
    ensures OfItem([x] + rest, id) == if x.item.id == id then [x] + OfItem(rest, id) else OfItem(rest, id)
  {
    assert ([x] + rest)[1..] == rest;
  }

  lemma KeepFirst(s: seq<Snapshot>)
    requires s != []
    ensures Keep(s) == if |OfItem(s[1..], s[0].item.id)| < MAX_PER_ITEM then [s[0]] + Keep(s[1..]) else Keep(s[1..])
  {
    OccurrencesCount(s[1..], s[0].item.id);
  }

  lemma {:induction false} KeepPerItem(s: seq<Snapshot>, id: string)
    ensures OfItem(Keep(s), id) == Last(OfItem(s, id), MAX_PER_ITEM)
  {
    if s == [] {
    } else {
      KeepPerItem(s[1..], id);
      KeepFirst(s);
      OfItemCons(s[0], Keep(s[1..]), id);
      OfItemCons(s[0], s[1..], id);
      assert s == [s[0]] + s[1..];
      LastCons(s[0], OfItem(s[1..], id), MAX_PER_ITEM);
    }
  }

  lemma {:induction false} OfItemSuffix(s: seq<Snapshot>, k: nat, id: string)
    requires k <= |s|
    ensures IsSuffix(OfItem(s[k..], id), OfItem(s, id))
    decreases k
  {
    if k == 0 {
      assert s[0..] == s;
    } else {
      OfItemSuffix(s, k - 1, id);
      assert s[k - 1..][1..] == s[k..];
      assert IsSuffix(OfItem(s[k..], id), OfItem(s[k - 1..], id));
      SuffixTransitive(OfItem(s[k..], id), OfItem(s[k - 1..], id), OfItem(s, id));
    }
  }

  lemma SuffixTransitive<T>(a: seq<T>, b: seq<T>, c: seq<T>)
    requires IsSuffix(a, b) && IsSuffix(b, c)
    ensures IsSuffix(a, c)
  {
    assert c[|c| - |a|..] == b[|b| - |a|..];
  }

  lemma LastIsSuffix(s: seq<Snapshot>, n: nat, id: string)
    ensures IsSuffix(OfItem(Last(s, n), id), OfItem(s, id))
  {
    OfItemSuffix(s, if |s| <= n then 0 else |s| - n, id);
    assert s[0..] == s;
  }

  lemma SuffixOfLast<T>(a: seq<T>, s: seq<T>, n: nat)
    requires IsSuffix(a, Last(s, n))
    ensures IsSuffix(a, s) && |a| <= n
  {
    SuffixTransitive(a, Last(s, n), s);
  }

  /** Of every item at most 100 snapshots are kept, and they are its most recent ones. */
  lemma RetainsMostRecentOfEachItem(s: seq<Snapshot>, id: string)
    ensures IsSuffix(OfItem(Retained(s), id), OfItem(s, id))
    ensures Occurrences(Retained(s), id) <= 100
  {
    KeepPerItem(s, id);
    LastIsSuffix(Keep(s), MAX_SNAPSHOTS, id);
    SuffixOfLast(OfItem(Retained(s), id), OfItem(s, id), MAX_PER_ITEM);
    OccurrencesCount(Retained(s), id);
  }

  lemma {:induction false} KeepMembers(s: seq<Snapshot>)
    ensures forall x :: x in Keep(s) ==> x in s
  {
    if s == [] {
    } else {
      KeepMembers(s[1..]);
      assert s == [s[0]] + s[1..];
    }
  }

  lemma {:induction false} AliveMembers(s: seq<Snapshot>, next: map<string, Item>)
    ensures forall x :: x in Alive(s, next) <==> x in s && x.item.id in next
  {
    if s == [] {
    } else {
      AliveMembers(s[..|s| - 1], next);
      assert s == s[..|s| - 1] + [s[|s| - 1]];
    }
  }

  lemma {:induction false} FreshMembers(items: seq<Item>, next: map<string, Item>, at: nat, ids: seq<string>)
    requires |ids| >= |items|
    ensures forall x | x in Fresh(items, next, at, ids) :: x.item in items && Edited(x.item, next) && x.createdAt == at
  {
    if items == [] {
    } else {
      FreshMembers(items[..|items| - 1], next, at, ids);
      assert items == items[..|items| - 1] + [items[|items| - 1]];
    }
  }

  /** No recorded payload holds a snapshot of an item that is gone. */
  lemma RecordsNoDeadItem(before: Vault, after: Vault, at: nat, ids: seq<string>)
    requires |ids| >= |before.items|
    ensures forall x | x in Retained(Candidates(before, after, at, ids)) :: x.item.id in ById(after.items)
  {
    var next := ById(after.items);
    var c := Candidates(before, after, at, ids);
    KeepMembers(c);
    AliveMembers(Existing(before, after), next);
    FreshMembers(before.items, next, at, ids);
    forall x | x in Retained(c) ensures x.item.id in next {
      assert x in Keep(c);
    }
  }

  // ------------------------------------------------- once on every update path

  /** The flat update path of a session: a legacy payload is upgraded and recorded before the commit records again. */
  function FlatUpdate(
      current: Payload, upgraded: Vault, next: Payload, at: nat, ids: seq<string>): Result<Payload, Failure>
    requires |ids| >= |upgraded.items| && (current.Structured? ==> |ids| >= |current.vault.items|)
  {
    if current.Structured? then Record(current, next, at, ids)
    else
      match Record(Structured(upgraded), next, at, ids)
      case Err(e) => Err(e)
      case Ok(recorded) => Record(current, recorded, at, ids)
  }

  /** The structured update path: the upgrade of a legacy payload is not recorded by itself. */
  function StructuredUpdate(current: Payload, next: Payload, at: nat, ids: seq<string>): Result<Payload, Failure>
    requires current.Structured? ==> |ids| >= |current.vault.items|
  {
    Record(current, next, at, ids)
  }

  lemma Associate<T>(a: seq<T>, b: seq<T>, c: seq<T>)
    ensures a + b + c == a + (b + c)
  {}

  lemma {:induction false} OfItemSnoc(s: seq<Snapshot>, x: Snapshot, id: string)
    ensures OfItem(s + [x], id) == OfItem(s, id) + if x.item.id == id then [x] else []
  {
    if s == [] {
      assert s + [x] == [x] && [x][1..] == [];
    } else {
      var first, last := (if s[0].item.id == id then [s[0]] else []), (if x.item.id == id then [x] else []);
      assert (s + [x])[0] == s[0] && (s + [x])[1..] == s[1..] + [x];
      OfItemSnoc(s[1..], x, id);
      Associate(first, OfItem(s[1..], id), last);
    }
  }

  lemma {:induction false} UneditedIsNotRecorded(
      items: seq<Item>, next: map<string, Item>, at: nat, ids: seq<string>, id: string)
    requires |ids| >= |items|
    requires forall k | 0 <= k < |items| && items[k].id == id :: !Edited(items[k], next)
    ensures OfItem(Fresh(items, next, at, ids), id) == []
  {
    if items == [] {
    } else {
      var init, last := items[..|items| - 1], items[|items| - 1];
      UneditedIsNotRecorded(init, next, at, ids, id);
      var prefix := Fresh(init, next, at, ids);
      if Edited(last, next) { OfItemSnoc(prefix, Snapshot(ids[|prefix|], at, last), id); }
    }
  }

  /** Each edited item gets exactly one new snapshot, of its replaced content; no other item gets any. */
  lemma {:induction false} EditIsRecordedOnce(
      items: seq<Item>, next: map<string, Item>, at: nat, ids: seq<string>, k: nat)
    requires |ids| >= |items| && k < |items|
    requires forall i, j | 0 <= i < j < |items| :: items[i].id != items[j].id
    ensures var own := OfItem(Fresh(items, next, at, ids), items[k].id);
            if Edited(items[k], next) then |own| == 1 && own[0].item == items[k] && own[0].createdAt == at
                else own == []
  {
    var init, last := items[..|items| - 1], items[|items| - 1];
    var prefix := Fresh(init, next, at, ids);
    if Edited(last, next) { OfItemSnoc(prefix, Snapshot(ids[|prefix|], at, last), items[k].id); }
    if k < |items| - 1 {
      EditIsRecordedOnce(init, next, at, ids, k);
    } else {
      UneditedIsNotRecorded(init, next, at, ids, last.id);
    }
  }

  lemma {:induction false} KeepAppend(s: seq<Snapshot>, t: seq<Snapshot>)
    ensures IsSuffix(Keep(t), Keep(s + t))
  {
    if s == [] {
      assert s + t == t;
    } else {
      assert (s + t)[1..] == s[1..] + t;
      KeepAppend(s[1..], t);
      SuffixTransitive(Keep(t), Keep(s[1..] + t), Keep(s + t));
    }
  }

  lemma {:induction false} KeepSparse(s: seq<Snapshot>)
    requires forall id :: Occurrences(s, id) <= 1
    ensures Keep(s) == s
  {
    if s == [] {
    } else {
      forall id ensures Occurrences(s[1..], id) <= 1 {
        assert Occurrences(s, id) <= 1;
      }
      assert Occurrences(s[1..], s[0].item.id) <= 1;
      KeepSparse(s[1..]);
    }
  }

  lemma FreshSparse(items: seq<Item>, next: map<string, Item>, at: nat, ids: seq<string>)
    requires |ids| >= |items|
    requires forall i, j | 0 <= i < j < |items| :: items[i].id != items[j].id
    ensures forall id :: Occurrences(Fresh(items, next, at, ids), id) <= 1
  {
    forall id ensures Occurrences(Fresh(items, next, at, ids), id) <= 1 {
      OccurrencesCount(Fresh(items, next, at, ids), id);
      if k :| 0 <= k < |items| && items[k].id == id {
        EditIsRecordedOnce(items, next, at, ids, k);
      } else {
        UneditedIsNotRecorded(items, next, at, ids, id);
      }
    }
  }

  lemma SuffixOfLastIff<T>(f: seq<T>, s: seq<T>, n: nat)
    requires IsSuffix(f, s)
    ensures IsSuffix(f, Last(s, n)) <==> |f| <= n
  {
    if |f| <= n < |s| { assert Last(s, n)[n - |f|..] == s[|s| - |f|..]; }
  }

  /**
   * Every record of one edit survives its own retention, as the newest ones in
   * order, exactly when the edit touches at most 10,000 items.
   */
  lemma EditsSurviveIff(before: Vault, after: Vault, at: nat, ids: seq<string>)
    requires |ids| >= |before.items| && ItemsValid(before)
    ensures var records := Fresh(before.items, ById(after.items), at, ids);
            IsSuffix(records, Retained(Candidates(before, after, at, ids))) <==> |records| <= MAX_SNAPSHOTS
  {
    var f, kept := Fresh(before.items, ById(after.items), at, ids), Alive(Existing(before, after), ById(after.items));
    FreshSparse(before.items, ById(after.items), at, ids);
    KeepSparse(f);
    KeepAppend(kept, f);
    SuffixOfLastIff(f, Keep(kept + f), MAX_SNAPSHOTS);
  }

  lemma {:induction false} FreshHas(items: seq<Item>, next: map<string, Item>, at: nat, ids: seq<string>, k: nat)
    requires k < |items| <= |ids| && Edited(items[k], next)
    ensures exists x | x in Fresh(items, next, at, ids) :: x.item == items[k]
  {
    var prefix := Fresh(items[..|items| - 1], next, at, ids);
    if k < |items| - 1 {
      FreshHas(items[..|items| - 1], next, at, ids, k);
      assert forall x | x in prefix :: x in Fresh(items, next, at, ids);
    } else {
      assert Fresh(items, next, at, ids) == prefix + [Snapshot(ids[|prefix|], at, items[k])];
      assert Snapshot(ids[|prefix|], at, items[k]) in Fresh(items, next, at, ids);
    }
  }

  lemma InSuffix<T>(a: seq<T>, b: seq<T>, x: T)
    requires IsSuffix(a, b) && x in a
    ensures x in b
  {
    assert x in b[|b| - |a|..];
  }

  lemma UnboundIsInvalid(v: Vault, s: seq<Snapshot>, x: Snapshot)
    requires v.snapshots == Some(s) && x in s && !SnapshotBound(v, x)
    ensures !Valid(v)
  {
    var i :| 0 <= i < |s| && s[i] == x;
    assert !SnapshotBound(v, s[i]);
  }

  lemma MovedIsUnbound(v: Vault, x: Snapshot, j: nat)
    requires forall i, k | 0 <= i < k < |v.items| :: v.items[i].id != v.items[k].id
    requires j < |v.items| && v.items[j].id == x.item.id && v.items[j].groupId != x.item.groupId
    ensures !SnapshotBound(v, x)
  {}

  /** The records of the first n items come first. */
  lemma {:induction false} FreshPrefix(items: seq<Item>, next: map<string, Item>, at: nat, ids: seq<string>, n: nat)
    requires n <= |items| <= |ids|
    ensures Fresh(items[..n], next, at, ids) <= Fresh(items, next, at, ids)
    decreases |items|
  {
    if n == |items| {
      assert items[..n] == items;
    } else {
      assert items[..|items| - 1][..n] == items[..n];
      FreshPrefix(items[..|items| - 1], next, at, ids, n);
    }
  }

  lemma FreshAt(items: seq<Item>, next: map<string, Item>, at: nat, ids: seq<string>, k: nat)
    requires k < |items| <= |ids| && Edited(items[k], next)
    ensures var f, t := Fresh(items, next, at, ids), |Fresh(items[..k], next, at, ids)|;
            t < |f| && f[t].item == items[k]
  {
    assert items[..k + 1][..k] == items[..k];
    FreshPrefix(items, next, at, ids, k + 1);
  }

  lemma LateIsKept<T>(f: seq<T>, s: seq<T>, n: nat, t: nat)
    requires IsSuffix(f, s) && t < |f| <= t + n
    ensures f[t] in Last(s, n)
  {
    var i := |s| - |f| + t;
    assert s[i] == s[|s| - |f|..][t];
    assert Last(s, n)[i - (|s| - |Last(s, n)|)] == s[i];
  }

  /** The record of an edited item survives the retention of its edit if at most 10,000 items are edited from it on. */
  lemma LateEditSurvives(before: Vault, after: Vault, at: nat, ids: seq<string>, k: nat)
    requires |ids| >= |before.items| && ItemsValid(before) && k < |before.items|
             && Edited(before.items[k], ById(after.items))
    requires var next := ById(after.items);
             |Fresh(before.items, next, at, ids)| <= |Fresh(before.items[..k], next, at, ids)| + MAX_SNAPSHOTS
    ensures exists x | x in Retained(Candidates(before, after, at, ids)) :: x.item == before.items[k]
  {
    var f, kept := Fresh(before.items, ById(after.items), at, ids), Alive(Existing(before, after), ById(after.items));
    FreshSparse(before.items, ById(after.items), at, ids);
    KeepSparse(f);
    KeepAppend(kept, f);
    FreshAt(before.items, ById(after.items), at, ids, k);
    LateIsKept(f, Keep(kept + f), MAX_SNAPSHOTS, |Fresh(before.items[..k], ById(after.items), at, ids)|);
  }

  /**
   * Moving an item to another group is refused, as long as at most 10,000
   * items are edited from it on: its record stays in the old group, and the
   * schema wants a snapshot in the group of its item.
   */
  lemma MovedItemIsRefused(before: Vault, after: Vault, at: nat, ids: seq<string>, k: nat, j: nat)
    requires |ids| >= |before.items| && ItemsValid(before) && ItemsValid(after)
    requires k < |before.items| && j < |after.items|
    requires before.items[k].id == after.items[j].id && before.items[k].groupId != after.items[j].groupId
    requires var next := ById(after.items);
             |Fresh(before.items, next, at, ids)| <= |Fresh(before.items[..k], next, at, ids)| + MAX_SNAPSHOTS
    ensures Record(Structured(before), Structured(after), at, ids) == Err(SchemaViolation)
  {
    var kept := Retained(Candidates(before, after, at, ids));
    var w := after.(version := 2, snapshots := Some(kept));
    ByIdAt(after.items, j);
    LateEditSurvives(before, after, at, ids, k);
    var x :| x in kept && x.item == before.items[k];
    MovedIsUnbound(w, x, j);
    UnboundIsInvalid(w, kept, x);
    assert Candidates(before, after, at, ids) != [];
  }

  lemma {:induction false} OfItemAppend(s: seq<Snapshot>, t: seq<Snapshot>, id: string)
    ensures OfItem(s + t, id) == OfItem(s, id) + OfItem(t, id)
  {
    if s == [] {
      assert s + t == t;
    } else {
      var first := if s[0].item.id == id then [s[0]] else [];
      assert (s + t)[0] == s[0] && (s + t)[1..] == s[1..] + t;
      OfItemAppend(s[1..], t, id);
      Associate(first, OfItem(s[1..], id), OfItem(t, id));
    }
  }

  /** The items an update starts from: a legacy payload is upgraded first. */
  function Base(current: Payload, upgraded: Vault): Vault {
    if current.Structured? then current.vault else upgraded
  }

  lemma SuffixEnds<T>(a: seq<T>, b: seq<T>, x: T)
    requires IsSuffix(a, b + [x]) && a != []
    ensures a[|a| - 1] == x
  {}

  lemma SuffixOccurs(f: seq<Snapshot>, s: seq<Snapshot>, id: string)
    requires IsSuffix(f, s) && OfItem(f, id) != []
    ensures OfItem(s, id) != []
  {
    assert s == s[..|s| - |f|] + f;
    OfItemAppend(s[..|s| - |f|], f, id);
  }

  /** What one recording does to the snapshots of one edited item. */
  lemma RecordedOnce(b: Vault, next: Vault, at: nat, ids: seq<string>, k: nat, kept: seq<Snapshot>, f: seq<Snapshot>)
    requires |ids| >= |b.items| && ItemsValid(b) && k < |b.items| && Edited(b.items[k], ById(next.items))
    requires f == Fresh(b.items, ById(next.items), at, ids) && |f| <= MAX_SNAPSHOTS
    requires kept == Alive(Existing(b, next), ById(next.items))
    ensures var own := OfItem(Retained(kept + f), b.items[k].id);
            && own != [] && own[|own| - 1].item == b.items[k] && own[|own| - 1].createdAt == at
            && IsSuffix(own, OfItem(kept, b.items[k].id) + [own[|own| - 1]])
  {
    var id := b.items[k].id;
    EditIsRecordedOnce(b.items, ById(next.items), at, ids, k);
    EditsSurviveIff(b, next, at, ids);
    OneMore(kept, f, id);
  }

  lemma OneMore(kept: seq<Snapshot>, f: seq<Snapshot>, id: string)
    requires |OfItem(f, id)| == 1 && IsSuffix(f, Retained(kept + f))
    ensures var own, x := OfItem(Retained(kept + f), id), OfItem(f, id)[0];
            own != [] && own[|own| - 1] == x && IsSuffix(own, OfItem(kept, id) + [x])
  {
    var x := OfItem(f, id)[0];
    assert OfItem(f, id) == [x];
    OfItemAppend(kept, f, id);
    RetainsMostRecentOfEachItem(kept + f, id);
    SuffixOccurs(f, Retained(kept + f), id);
    SuffixEnds(OfItem(Retained(kept + f), id), OfItem(kept, id), x);
  }

  lemma RecordStores(b: Vault, next: Vault, at: nat, ids: seq<string>, r: Vault)
    requires |ids| >= |b.items| && Candidates(b, next, at, ids) != []
    requires Record(Structured(b), Structured(next), at, ids) == Ok(Structured(r))
    ensures StoredSnapshots(r) == Retained(Candidates(b, next, at, ids))
  {}

  /** The commit's own recording adds nothing to what the flat path recorded of an upgraded payload. */
  lemma FlatIsOneRecording(current: Payload, upgraded: Vault, next: Payload, at: nat, ids: seq<string>)
    requires |ids| >= |upgraded.items| && (current.Structured? ==> |ids| >= |current.vault.items|)
    ensures FlatUpdate(current, upgraded, next, at, ids) == Record(Structured(Base(current, upgraded)), next, at, ids)
  {}

  /**
   * On the flat path, from a legacy payload as from a structured one, an edited
   * item gains exactly one snapshot: its snapshots afterwards are a most recent
   * part of the earlier ones followed by one of the replaced content.
   */
  lemma FlatPathRecordsOnce(current: Payload, upgraded: Vault, next: Vault, at: nat, ids: seq<string>, k: nat, r: Vault)
    requires var b := Base(current, upgraded);
             && |ids| >= |upgraded.items| && |ids| >= |b.items| && ItemsValid(b)
             && k < |b.items| && Edited(b.items[k], ById(next.items))
             && |Fresh(b.items, ById(next.items), at, ids)| <= MAX_SNAPSHOTS
    requires FlatUpdate(current, upgraded, Structured(next), at, ids) == Ok(Structured(r))
    ensures var b := Base(current, upgraded);
            var earlier := OfItem(Alive(Existing(b, next), ById(next.items)), b.items[k].id);
            var own := OfItem(StoredSnapshots(r), b.items[k].id);
            && own != [] && own[|own| - 1].item == b.items[k] && own[|own| - 1].createdAt == at
            && IsSuffix(own, earlier + [own[|own| - 1]])
  {
    var b := Base(current, upgraded);
    var f, kept := Fresh(b.items, ById(next.items), at, ids), Alive(Existing(b, next), ById(next.items));
    RecordedOnce(b, next, at, ids, k, kept, f);
    FreshHas(b.items, ById(next.items), at, ids, k);
    FlatIsOneRecording(current, upgraded, Structured(next), at, ids);
    RecordStores(b, next, at, ids, r);
  }

  lemma {:induction false} FreshIds(items: seq<Item>, next: map<string, Item>, at: nat, ids: seq<string>)
    requires |ids| >= |items|
    ensures forall x | x in Fresh(items, next, at, ids) :: x.id in ids
  {
    if items == [] {
    } else {
      FreshIds(items[..|items| - 1], next, at, ids);
    }
  }

  /** A snapshot with one of the new identifiers holds this item. */
  ghost predicate NewlyRecorded(r: Vault, ids: seq<string>, i: Item) {
    exists x | x in StoredSnapshots(r) :: x.id in ids && x.item == i
  }

  /**
   * The structured path records an edit exactly when the stored payload is
   * already structured: the first structured edit of a legacy vault is stored
   * without any snapshot of what it replaced.
   */
  lemma StructuredPathRecordsIff(
      current: Payload, upgraded: Vault, next: Vault, at: nat, ids: seq<string>, k: nat, r: Vault)
    requires var b := Base(current, upgraded);
             && |ids| >= |b.items| && ItemsValid(b)
             && k < |b.items| && Edited(b.items[k], ById(next.items))
             && |Fresh(b.items, ById(next.items), at, ids)| <= MAX_SNAPSHOTS
    requires forall x | x in StoredSnapshots(next) :: x.id !in ids
    requires StructuredUpdate(current, Structured(next), at, ids) == Ok(Structured(r))
    ensures NewlyRecorded(r, ids, Base(current, upgraded).items[k]) <==> current.Structured?
  {
    if current.Structured? {
      var b := current.vault;
      var f, kept := Fresh(b.items, ById(next.items), at, ids), Retained(Candidates(b, next, at, ids));
      FreshHas(b.items, ById(next.items), at, ids, k);
      FreshIds(b.items, ById(next.items), at, ids);
      var x :| x in f && x.item == b.items[k];
      EditsSurviveIff(b, next, at, ids);
      InSuffix(f, kept, x);
      assert StoredSnapshots(r) == kept;
    }
  }

  // ------------------------------------------------------------------ restore

  function FindContext(contexts: seq<Context>, name: string): Option<Context> {
    if contexts == [] then None
    else if contexts[0].name == name then Some(contexts[0])
    else FindContext(contexts[1..], name)
  }

  function FindGroup(groups: seq<Group>, contextId: string, name: string): (r: Option<Group>)
    ensures r.Some? ==> r.value in groups
  {
    if groups == [] then None
    else if groups[0].contextId == contextId && groups[0].name == name && !groups[0].deleted then Some(groups[0])
    else FindGroup(groups[1..], contextId, name)
  }

  predicate Active(i: Item, groupId: string, title: string) {
    i.groupId == groupId && i.title == title && !i.deleted
  }

  function FindItem(items: seq<Item>, groupId: string, title: string): (r: Option<Item>)
    ensures r.Some? ==> r.value in items && Active(r.value, groupId, title)
  {
    if items == [] then None
    else if Active(items[0], groupId, title) then Some(items[0])
    else FindItem(items[1..], groupId, title)
  }

  function FindSnapshot(snapshots: seq<Snapshot>, id: string, itemId: string): (r: Option<Snapshot>)
    ensures r.Some? ==> r.value in snapshots && r.value.id == id && r.value.item.id == itemId
  {
    if snapshots == [] then None
    else if snapshots[0].id == id && snapshots[0].item.id == itemId then Some(snapshots[0])
    else FindSnapshot(snapshots[1..], id, itemId)
  }

  /** The names in a restore request: project context, service group and item title. */
  datatype Address = Address(context: string, service: string, title: string)

  datatype Target = Target(group: Group, item: Item)

  function Locate(v: Vault, a: Address): (r: Option<Target>)
    ensures r.Some? ==> r.value.group in v.groups && r.value.item in v.items
                        && Active(r.value.item, r.value.group.id, a.title)
  {
    var context := FindContext(v.contexts, a.context);
    if context.None? then None
    else
      var group := FindGroup(v.groups, context.value.id, a.service);
      if group.None? then None
      else
        var item := FindItem(v.items, group.value.id, a.title);
        if item.None? then None else Some(Target(group.value, item.value))
  }

  predicate LinksResolve(v: Vault, group: Group, earlier: Item) {
    && earlier.vaultId == v.vaultId
    && earlier.groupId == group.id
    && earlier.templateId == group.templateId
    && (forall a | a in earlier.attachments :: exists k | 0 <= k < |v.attachments| :: v.attachments[k].id == a)
    && (forall r | r in earlier.related :: HasItem(v.items, r))
  }

  function Replace(items: seq<Item>, id: string, replacement: Item): (r: seq<Item>)
    ensures |r| == |items|
    ensures forall i | 0 <= i < |items| :: r[i] == if items[i].id == id then replacement else items[i]
  {
    seq(|items|, i requires 0 <= i < |items| => if items[i].id == id then replacement else items[i])
  }

  function Restored(current: Item, earlier: Item, at: nat): Item {
    earlier.(title := current.title, revision := current.revision + 1, updatedAt := at)
  }

  function RestoreItem(v: Vault, target: Target, id: string, at: nat): Result<Payload, Failure> {
    var current := target.item;
    var snapshot := FindSnapshot(StoredSnapshots(v), id, current.id);
    if snapshot.None? then Err(CredentialMissing)
    else if !LinksResolve(v, target.group, snapshot.value.item) then Err(IntegrityFailure)
    else Parse(v.(items := Replace(v.items, current.id, Restored(current, snapshot.value.item, at))))
  }

  function Restore(v: Vault, address: Address, id: string, at: nat): Result<Payload, Failure> {
    var target := Locate(v, address);
    if target.None? then Err(CredentialMissing) else RestoreItem(v, target.value, id, at)
  }

  // ------------------------------------------------- restoring can be undone

  /** What the schema looks at in an item. */
  predicate SameShape(a: Item, b: Item) {
    a.(revision := b.revision, updatedAt := b.updatedAt, body := b.body) == b
  }

  lemma {:induction false} FindItemAt(items: seq<Item>, groupId: string, title: string, k: nat)
    requires k < |items| && Active(items[k], groupId, title)
    requires forall i | 0 <= i < k :: !Active(items[i], groupId, title)
    ensures FindItem(items, groupId, title) == Some(items[k])
  {
    if k > 0 {
      FindItemAt(items[1..], groupId, title, k - 1);
    }
  }

  lemma {:induction false} FindNoItem(items: seq<Item>, groupId: string, title: string)
    requires forall i | 0 <= i < |items| :: !Active(items[i], groupId, title)
    ensures FindItem(items, groupId, title) == None
  {
    if items == [] {
    } else {
      FindNoItem(items[1..], groupId, title);
    }
  }

  lemma {:induction false} FindLastSnapshot(s: seq<Snapshot>, last: Snapshot)
    requires forall i | 0 <= i < |s| :: s[i].id != last.id
    ensures FindSnapshot(s + [last], last.id, last.item.id) == Some(last)
  {
    if s == [] {
    } else {
      assert (s + [last])[1..] == s[1..] + [last];
      FindLastSnapshot(s[1..], last);
    }
  }

  /** The schema's view of the items does not depend on revisions, times and contents. */
  lemma ShapesDecide(v: Vault, w: Vault)
    requires ItemsValid(v) && |v.items| == |w.items|
    requires w == v.(items := w.items, version := w.version, snapshots := w.snapshots)
    requires forall i | 0 <= i < |v.items| :: SameShape(w.items[i], v.items[i])
    ensures ItemsValid(w)
  {
    forall i | 0 <= i < |w.items| ensures ItemResolves(w, w.items[i]) {
      assert ItemResolves(v, v.items[i]);
      forall r | r in w.items[i].related ensures HasItem(w.items, r) {
        var k :| 0 <= k < |v.items| && v.items[k].id == r;
        assert w.items[k].id == r;
      }
    }
    forall k | 0 <= k < |w.attachments| ensures AttachmentOwned(w.items, w.attachments[k]) {
      assert AttachmentOwned(v.items, v.attachments[k]);
      var i :| 0 <= i < |v.items| && v.items[i].id == v.attachments[k].itemId
          && v.items[i].groupId == v.attachments[k].groupId
               && v.attachments[k].id in v.items[i].attachments;
      assert w.items[i].id == w.attachments[k].itemId;
    }
    forall k | 0 <= k < |w.history| ensures HistoryBound(w.items, w.history[k]) {
      assert HistoryBound(v.items, v.history[k]);
      var i :| 0 <= i < |v.items| && v.items[i].id == v.history[k].itemId && v.items[i].groupId == v.history[k].groupId;
      assert w.items[i].id == w.history[k].itemId;
    }
  }

  lemma {:induction false} ByIdAt(items: seq<Item>, k: nat)
    requires forall i, j | 0 <= i < j < |items| :: items[i].id != items[j].id
    requires k < |items|
    ensures items[k].id in ById(items) && ById(items)[items[k].id] == items[k]
  {
    if k < |items| - 1 { ByIdAt(items[..|items| - 1], k); }
  }

  lemma {:induction false} FreshNone(items: seq<Item>, next: map<string, Item>, at: nat, ids: seq<string>)
    requires |ids| >= |items|
    requires forall i | 0 <= i < |items| :: !Edited(items[i], next)
    ensures Fresh(items, next, at, ids) == []
  {
    if items == [] {
    } else {
      FreshNone(items[..|items| - 1], next, at, ids);
    }
  }

  lemma {:induction false} FreshOne(items: seq<Item>, next: map<string, Item>, at: nat, ids: seq<string>, k: nat)
    requires k < |items| <= |ids|
    requires forall i | 0 <= i < |items| :: Edited(items[i], next) <==> i == k
    ensures Fresh(items, next, at, ids) == [Snapshot(ids[0], at, items[k])]
  {
    if k < |items| - 1 {
      FreshOne(items[..|items| - 1], next, at, ids, k);
    } else {
      FreshNone(items[..|items| - 1], next, at, ids);
    }
  }

  lemma {:induction false} AliveAll(s: seq<Snapshot>, next: map<string, Item>)
    requires forall i | 0 <= i < |s| :: s[i].item.id in next
    ensures Alive(s, next) == s
  {
    if s == [] {
    } else {
      AliveAll(s[..|s| - 1], next);
    }
  }

  lemma {:induction false} KeepSnoc(s: seq<Snapshot>, x: Snapshot)
    ensures var k := Keep(s + [x]); k != [] && k[|k| - 1] == x && forall y | y in k[..|k| - 1] :: y in s
  {
    if s == [] {
      assert s + [x] == [x];
    } else {
      assert (s + [x])[1..] == s[1..] + [x];
      KeepSnoc(s[1..], x);
      assert forall y | y in s[1..] :: y in s;
    }
  }

  predicate DistinctIds(s: seq<Snapshot>) {
    forall i, j | 0 <= i < j < |s| :: s[i].id != s[j].id
  }

  lemma {:induction false} KeepDistinct(s: seq<Snapshot>)
    requires DistinctIds(s)
    ensures DistinctIds(Keep(s))
  {
    if s == [] {
    } else {
      KeepDistinct(s[1..]);
      KeepMembers(s[1..]);
      forall y | y in Keep(s[1..]) ensures y.id != s[0].id {
        assert y in s[1..];
      }
    }
  }

  lemma RetainedMembers(c: seq<Snapshot>)
    ensures forall y | y in Retained(c) :: y in c
    ensures DistinctIds(c) ==> DistinctIds(Retained(c))
  {
    KeepMembers(c);
    if DistinctIds(c) { KeepDistinct(c); }
    assert forall y | y in Retained(c) :: y in Keep(c);
  }

  /** A new snapshot survives retention and is found by its identity. */
  lemma NewestIsFound(s: seq<Snapshot>, x: Snapshot)
    requires forall i | 0 <= i < |s| :: s[i].id != x.id
    ensures FindSnapshot(Retained(s + [x]), x.id, x.item.id) == Some(x)
  {
    var k, r := Keep(s + [x]), Retained(s + [x]);
    KeepSnoc(s, x);
    var init := r[..|r| - 1];
    assert r == init + [x];
    forall i | 0 <= i < |init| ensures init[i].id != x.id {
      assert init[i] in k[..|k| - 1] && init[i] in s;
    }
    FindLastSnapshot(init, x);
  }

  /** What retention makes of valid snapshots and one new snapshot of an item of the vault is valid. */
  lemma RetainedIsValid(w: Vault, s: seq<Snapshot>, x: Snapshot)
    requires SnapshotsValid(w, s) && SnapshotBound(w, x) && !HasRecord(w.history, x.id)
    requires forall i | 0 <= i < |s| :: s[i].id != x.id
    ensures SnapshotsValid(w, Retained(s + [x]))
  {
    var c := s + [x];
    var r := Retained(c);
    assert DistinctIds(c);
    RetainedMembers(c);
    forall i | 0 <= i < |c| ensures SnapshotBound(w, c[i]) && !HasRecord(w.history, c[i].id) {
      assert i < |s| ==> SnapshotBound(w, s[i]);
    }
    forall i | 0 <= i < |r| ensures SnapshotBound(w, r[i]) && !HasRecord(w.history, r[i].id) {
      assert r[i] in c;
    }
    forall i | 0 <= i < |r| ensures Occurrences(r, r[i].item.id) <= MAX_PER_ITEM {
      RetainsMostRecentOfEachItem(c, r[i].item.id);
    }
  }

  /** Looking an address up again after its item was replaced by one with the same place and title. */
  lemma LocateReplaced(v: Vault, w: Vault, a: Address, replacement: Item)
    requires Valid(v) && Locate(v, a).Some?
    requires w.contexts == v.contexts && w.groups == v.groups
    requires w.items == Replace(v.items, Locate(v, a).value.item.id, replacement)
    requires replacement.groupId == Locate(v, a).value.item.groupId && replacement.title == a.title
    ensures Locate(w, a) == if replacement.deleted then None else Some(Target(Locate(v, a).value.group, replacement))
  {
    var group, current := Locate(v, a).value.group, Locate(v, a).value.item;
    var k :| 0 <= k < |v.items| && v.items[k] == current;
    assert w.items[k] == replacement;
    forall i | 0 <= i < |w.items| && i != k ensures !Active(w.items[i], group.id, a.title) {
      assert v.items[i].id != v.items[k].id && w.items[i] == v.items[i];
    }
    if replacement.deleted {
      FindNoItem(w.items, group.id, a.title);
    } else {
      FindItemAt(w.items, group.id, a.title, k);
    }
  }

  ghost predicate FreshId(v: Vault, id: string) {
    !HasRecord(v.history, id) && forall i | 0 <= i < |StoredSnapshots(v)| :: StoredSnapshots(v)[i].id != id
  }

  /** Only the restored item counts as edited. */
  lemma RestoreEditsOne(p: Vault, current: Item, replacement: Item, k: nat)
    requires ItemsValid(p) && k < |p.items| && p.items[k] == current && replacement.id == current.id
             && replacement != current
    ensures forall i | 0 <= i < |p.items| ::
              Edited(p.items[i], ById(Replace(p.items, current.id, replacement))) <==> i == k
    ensures forall i | 0 <= i < |p.items| :: p.items[i].id in ById(Replace(p.items, current.id, replacement))
  {
    var items := Replace(p.items, current.id, replacement);
    forall i | 0 <= i < |p.items|
      ensures p.items[i].id in ById(items) && (Edited(p.items[i], ById(items)) <==> i == k)
    {
      ByIdAt(items, i);
    }
  }

  /** Every kept snapshot is a candidate, and so is one of the replaced item. */
  lemma RestoreCandidates(p: Vault, q: Vault, current: Item, replacement: Item, at: nat, ids: seq<string>)
    requires Valid(p) && current in p.items && replacement.id == current.id && replacement != current
    requires q == p.(items := Replace(p.items, current.id, replacement))
    requires |ids| >= |p.items| && ids != []
    ensures Candidates(p, q, at, ids) == StoredSnapshots(p) + [Snapshot(ids[0], at, current)]
  {
    var k :| 0 <= k < |p.items| && p.items[k] == current;
    var s := StoredSnapshots(p);
    RestoreEditsOne(p, current, replacement, k);
    FreshOne(p.items, ById(q.items), at, ids, k);
    forall i | 0 <= i < |s| ensures s[i].item.id in ById(q.items) {
      assert SnapshotBound(p, s[i]);
    }
    AliveAll(s, ById(q.items));
  }

  lemma ReplacedIsBound(p: Vault, q: Vault, current: Item, replacement: Item, x: Snapshot)
    requires ItemsValid(p) && current in p.items && replacement.id == current.id
             && replacement.groupId == current.groupId
    requires q.vaultId == p.vaultId && q.items == Replace(p.items, current.id, replacement) && x.item == current
    ensures SnapshotBound(q, x)
  {
    var k :| 0 <= k < |p.items| && p.items[k] == current;
    assert ItemResolves(p, p.items[k]);
    assert q.items[k] == replacement;
  }

  /** What a successful restore puts in place of which item. */
  function Replacement(p: Vault, a: Address, id: string, at: nat): Item
    requires Restore(p, a, id, at).Ok?
  {
    var current := Locate(p, a).value.item;
    Restored(current, FindSnapshot(StoredSnapshots(p), id, current.id).value.item, at)
  }

  /** The payload that the commit of a restore stores. */
  function AfterRestore(p: Vault, a: Address, id: string, at: nat, x: Snapshot): Vault
    requires Restore(p, a, id, at).Ok?
  {
    p.(version := 2,
       items := Replace(p.items, Locate(p, a).value.item.id, Replacement(p, a, id, at)),
       snapshots := Some(Retained(StoredSnapshots(p) + [x])))
  }

  /** The commit of a restore always records exactly the item it replaced, and that record survives retention. */
  lemma RestoreIsRecorded(p: Vault, a: Address, id: string, at: nat, recordedAt: nat, ids: seq<string>)
    requires Valid(p) && Restore(p, a, id, at).Ok?
    requires |ids| >= |p.items| && |ids| > 0 && FreshId(p, ids[0])
    ensures var x := Snapshot(ids[0], recordedAt, Locate(p, a).value.item);
            && Record(Structured(p), Restore(p, a, id, at).value, recordedAt, ids)
                 == Ok(Structured(AfterRestore(p, a, id, at, x)))
            && FindSnapshot(Retained(StoredSnapshots(p) + [x]), x.id, x.item.id) == Some(x)
  {
    var q := Restore(p, a, id, at).value.vault;
    var current, replacement := Locate(p, a).value.item, Replacement(p, a, id, at);
    var x := Snapshot(ids[0], recordedAt, current);
    RestoreCandidates(p, q, current, replacement, recordedAt, ids);
    ReplacedIsBound(p, q, current, replacement, x);
    RetainedIsValid(q, StoredSnapshots(p), x);
    NewestIsFound(StoredSnapshots(p), x);
    StoredIsValid(q, p, a, id, at, x);
  }

  /** Snapshots stay valid while the items keep their identities and groups. */
  lemma SnapshotsStayValid(w: Vault, v: Vault, s: seq<Snapshot>)
    requires SnapshotsValid(w, s) && v.vaultId == w.vaultId && v.history == w.history && |v.items| == |w.items|
    requires forall i | 0 <= i < |w.items| :: v.items[i].id == w.items[i].id && v.items[i].groupId == w.items[i].groupId
    ensures SnapshotsValid(v, s)
  {
    forall i | 0 <= i < |s| ensures SnapshotBound(v, s[i]) && !HasRecord(v.history, s[i].id) {
      assert SnapshotBound(w, s[i]);
      var j :| 0 <= j < |w.items| && w.items[j].id == s[i].item.id && w.items[j].groupId == s[i].item.groupId;
      assert v.items[j].id == s[i].item.id;
    }
  }

  lemma StoredIsValid(q: Vault, p: Vault, a: Address, id: string, at: nat, x: Snapshot)
    requires Restore(p, a, id, at) == Ok(Structured(q))
    requires SnapshotsValid(q, Retained(StoredSnapshots(p) + [x]))
    ensures Valid(AfterRestore(p, a, id, at, x))
  {
    var w := AfterRestore(p, a, id, at, x);
    assert w == q.(version := 2, snapshots := w.snapshots);
    assert HierarchyValid(w.vaultId, w.contexts, w.groups, w.attachments, w.history);
    forall i | 0 <= i < |q.items| ensures SameShape(w.items[i], q.items[i]) {}
    ShapesDecide(q, w);
    SnapshotsStayValid(q, w, w.snapshots.value);
  }

  lemma OriginalLinksResolve(p: Vault, w: Vault, group: Group, current: Item, restored: Item)
    requires Valid(p) && group in p.groups && current in p.items && current.groupId == group.id
    requires restored.id == current.id && w.items == Replace(p.items, current.id, restored)
    requires w.vaultId == p.vaultId && w.attachments == p.attachments
    ensures LinksResolve(w, group, current)
  {
    var k :| 0 <= k < |p.items| && p.items[k] == current;
    assert ItemResolves(p, p.items[k]);
    forall r | r in current.related ensures HasItem(w.items, r) {
      var j :| 0 <= j < |p.items| && p.items[j].id == r;
      assert w.items[j].id == r;
    }
  }

  lemma ReplacedShapes(items: seq<Item>, current: Item, final: Item)
    requires forall i, j | 0 <= i < j < |items| :: items[i].id != items[j].id
    requires current in items && SameShape(final, current)
    ensures var replaced := Replace(items, current.id, final);
            |replaced| == |items| && forall i | 0 <= i < |items| :: SameShape(replaced[i], items[i])
  {
    var k :| 0 <= k < |items| && items[k] == current;
    assert forall i | 0 <= i < |items| && items[i].id == current.id :: i == k;
  }

  lemma OriginalIsValid(p: Vault, w: Vault, v: Vault, current: Item, final: Item)
    requires Valid(p) && current in p.items && SameShape(final, current)
    requires Valid(w) && w.snapshots.Some? && w.version == 2
    requires w == p.(items := w.items, version := w.version, snapshots := w.snapshots)
    requires v == w.(items := Replace(p.items, current.id, final))
    requires |w.items| == |p.items|
    requires forall i | 0 <= i < |w.items| :: w.items[i].id == p.items[i].id && w.items[i].groupId == p.items[i].groupId
    ensures Valid(v)
  {
    ReplacedShapes(p.items, current, final);
    assert ItemsValid(v) by { ShapesDecide(p, v); }
    assert SnapshotsValid(v, v.snapshots.value) by { SnapshotsStayValid(w, v, v.snapshots.value); }
  }

  lemma ReplaceTwice(items: seq<Item>, first: Item, second: Item)
    ensures Replace(Replace(items, first.id, first), first.id, second) == Replace(items, first.id, second)
  {}

  /** The payload of the second restore is the original but for one item's revision and time. */
  lemma OriginalComesBack(p: Vault, w: Vault, current: Item, restored: Item, later: nat)
    requires Valid(p) && current in p.items && Valid(w) && w.version == 2 && w.snapshots.Some?
    requires w == p.(items := Replace(p.items, current.id, restored), version := w.version, snapshots := w.snapshots)
    requires restored.id == current.id && restored.groupId == current.groupId && restored.title == current.title
    requires restored.revision == current.revision + 1
    ensures var final := current.(revision := current.revision + 2, updatedAt := later);
            Parse(w.(items := Replace(w.items, current.id, Restored(restored, current, later))))
            == Ok(Structured(w.(items := Replace(p.items, current.id, final))))
  {
    var final := current.(revision := current.revision + 2, updatedAt := later);
    ReplaceTwice(p.items, restored, final);
    var k :| 0 <= k < |p.items| && p.items[k] == current;
    forall i | 0 <= i < |w.items| ensures w.items[i].id == p.items[i].id && w.items[i].groupId == p.items[i].groupId {
      assert p.items[i].id == current.id ==> i == k;
    }
    OriginalIsValid(p, w, w.(items := Replace(p.items, current.id, final)), current, final);
  }

  lemma RestoreItemBack(p: Vault, w: Vault, group: Group, x: Snapshot, restored: Item, later: nat)
    requires Valid(p) && x.item in p.items && group in p.groups && x.item.groupId == group.id
    requires Valid(w) && w.version == 2 && w.snapshots.Some?
    requires w == p.(items := Replace(p.items, x.item.id, restored), version := w.version, snapshots := w.snapshots)
    requires restored.id == x.item.id && restored.groupId == x.item.groupId && restored.title == x.item.title
    requires restored.revision == x.item.revision + 1
    requires FindSnapshot(w.snapshots.value, x.id, x.item.id) == Some(x)
    ensures var final := x.item.(revision := x.item.revision + 2, updatedAt := later);
            RestoreItem(w, Target(group, restored), x.id, later)
            == Ok(Structured(w.(items := Replace(p.items, x.item.id, final))))
  {
    OriginalLinksResolve(p, w, group, x.item, restored);
    OriginalComesBack(p, w, x.item, restored, later);
    RestoreItemUnfolds(w, Target(group, restored), x, later);
  }

  lemma RestoreItemUnfolds(w: Vault, target: Target, x: Snapshot, later: nat)
    requires FindSnapshot(StoredSnapshots(w), x.id, target.item.id) == Some(x)
    requires LinksResolve(w, target.group, x.item)
    ensures RestoreItem(w, target, x.id, later)
            == Parse(w.(items := Replace(w.items, target.item.id, Restored(target.item, x.item, later))))
  {}

  lemma SecondRestore(p: Vault, w: Vault, a: Address, x: Snapshot, restored: Item, later: nat)
    requires Valid(p) && Locate(p, a).Some? && x.item == Locate(p, a).value.item
    requires Valid(w) && w.version == 2 && w.snapshots.Some?
    requires w == p.(items := Replace(p.items, x.item.id, restored), version := w.version, snapshots := w.snapshots)
    requires restored.id == x.item.id && restored.groupId == x.item.groupId && restored.title == x.item.title
    requires restored.revision == x.item.revision + 1
    requires FindSnapshot(w.snapshots.value, x.id, x.item.id) == Some(x)
    ensures var final := x.item.(revision := x.item.revision + 2, updatedAt := later);
            Restore(w, a, x.id, later)
            == if restored.deleted then Err(CredentialMissing)
               else Ok(Structured(w.(items := Replace(p.items, x.item.id, final))))
  {
    LocateReplaced(p, w, a, restored);
    if !restored.deleted {
      RestoreItemBack(p, w, Locate(p, a).value.group, x, restored, later);
    }
  }

  /**
   * Restore is undone by restoring its own record, exactly when the restored
   * snapshot was not taken of a deleted item: then the payload's items are the
   * original ones, but for a revision two higher and the new time on the item.
   * A restored snapshot of a deleted item takes the item out of reach of its
   * address, and the second restore finds nothing.
   */
  lemma RestoreIsUndoable(p: Vault, a: Address, id: string, at: nat, recordedAt: nat, ids: seq<string>, later: nat)
    requires Valid(p) && Restore(p, a, id, at).Ok?
    requires |ids| >= |p.items| && |ids| > 0 && FreshId(p, ids[0])
    ensures var current := Locate(p, a).value.item;
            var recorded := Record(Structured(p), Restore(p, a, id, at).value, recordedAt, ids);
            && recorded.Ok? && recorded.value.Structured?
            && Restore(recorded.value.vault, a, ids[0], later)
               == if Replacement(p, a, id, at).deleted then Err(CredentialMissing)
                  else Ok(Structured(recorded.value.vault.(items :=
                         Replace(p.items, current.id, current.(revision := current.revision + 2, updatedAt := later)))))
  {
    RestoreIsRecorded(p, a, id, at, recordedAt, ids);
    RecordIsValid(p, Restore(p, a, id, at).value, recordedAt, ids);
    var x := Snapshot(ids[0], recordedAt, Locate(p, a).value.item);
    SecondRestore(p, AfterRestore(p, a, id, at, x), a, x, Replacement(p, a, id, at), later);
  }

  /** Whatever recording stores from a valid edit satisfies the schema. */
  lemma RecordIsValid(before: Vault, after: Payload, at: nat, ids: seq<string>)
    requires |ids| >= |before.items|
    requires after.Structured? ==> Valid(after.vault)
    ensures var r := Record(Structured(before), after, at, ids);
            r.Ok? && r.value.Structured? ==> Valid(r.value.vault)
  {}
}
