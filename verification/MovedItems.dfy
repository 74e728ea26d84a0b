/**
 * Which edits recording refuses. Nothing but moving an item to another group
 * is ever refused, and that exactly when the item's record, which stays in the
 * old group, is among those retained.
 */
module MovedItems {
  import opened Wrappers
  import opened ItemHistory

  /** How many of the items the edit changes. */
  function Edits(items: seq<Item>, next: map<string, Item>): nat {
    if items == [] then 0 else Edits(items[..|items| - 1], next) + if Edited(items[|items| - 1], next) then 1 else 0
  }

  predicate Moves(i: Item, next: map<string, Item>) {
    i.id in next && next[i.id].groupId != i.groupId
  }

  /** The k-th item is moved, and from it on at most 10,000 items are edited. */
  predicate MovesLate(items: seq<Item>, next: map<string, Item>, k: nat)
    requires k < |items|
  {
    Moves(items[k], next) && Edits(items[k..], next) <= MAX_SNAPSHOTS
  }

  predicate SomeMovesLate(items: seq<Item>, next: map<string, Item>) {
    exists k | 0 <= k < |items| :: MovesLate(items, next, k)
  }

  /**
   * What an edit hands to recording: two valid vaults of one identity, the
   * snapshots left alone, and new identifiers.
   */
  ghost predicate Handed(before: Vault, after: Vault, ids: seq<string>) {
    && |ids| >= |before.items| && Valid(before) && before.vaultId == after.vaultId
    && HierarchyValid(after.vaultId, after.contexts, after.groups, after.attachments, after.history)
         && ItemsValid(after)
    && (after.snapshots.None? || (after.snapshots == before.snapshots && after.version != 1))
    && (forall i, j | 0 <= i < j < |ids| :: ids[i] != ids[j])
    && (forall i | 0 <= i < |ids| :: FreshId(before, ids[i]) && !HasRecord(after.history, ids[i]))
    && (forall x | x in StoredSnapshots(before) :: !HasRecord(after.history, x.id))
  }

  lemma {:induction false} FreshCounts(items: seq<Item>, next: map<string, Item>, at: nat, ids: seq<string>, k: nat)
    requires k <= |items| <= |ids|
    ensures |Fresh(items, next, at, ids)| == |Fresh(items[..k], next, at, ids)| + Edits(items[k..], next)
    decreases |items|
  {
    if k == |items| {
      assert items[..k] == items;
    } else {
      var init := items[..|items| - 1];
      assert init[..k] == items[..k] && items[k..][..|items| - k - 1] == init[k..];
      FreshCounts(init, next, at, ids, k);
    }
  }

  lemma {:induction false} IndexOf(items: seq<Item>, id: string) returns (j: nat)
    requires id in ById(items)
    ensures j < |items| && items[j].id == id && ById(items)[id] == items[j]
  {
    if items[|items| - 1].id == id { return |items| - 1; }
    j := IndexOf(items[..|items| - 1], id);
  }

  // ---------------------------------------------------- records that are dropped

  lemma {:induction false} OccursAt(s: seq<Snapshot>, i: nat)
    requires i < |s|
    ensures Occurrences(s, s[i].item.id) >= 1
  {
    if i > 0 { OccursAt(s[1..], i - 1); }
  }

  lemma {:induction false} OccursTwice(s: seq<Snapshot>, i: nat, j: nat)
    requires i < j < |s| && s[i].item.id == s[j].item.id
    ensures Occurrences(s, s[i].item.id) >= 2
  {
    if i > 0 { OccursTwice(s[1..], i - 1, j - 1); } else { OccursAt(s[1..], j - 1); }
  }

  lemma LastOfSuffix<T>(f: seq<T>, s: seq<T>, n: nat, x: T) returns (u: nat)
    requires IsSuffix(f, s) && n < |f| && x in Last(s, n)
    ensures |f| - n <= u < |f| && f[u] == x
  {
    var m :| 0 <= m < |Last(s, n)| && Last(s, n)[m] == x;
    u := |f| - n + m;
    assert s[|s| - |f|..][u] == s[|s| - n + m];
  }

  /** Behind more than 10,000 edited items, nothing of an edited item is retained. */
  lemma EarlyItemIsForgotten(before: Vault, after: Vault, at: nat, ids: seq<string>, k: nat)
    requires |ids| >= |before.items| && ItemsValid(before) && k < |before.items|
             && Edited(before.items[k], ById(after.items))
    requires Edits(before.items[k..], ById(after.items)) > MAX_SNAPSHOTS
    ensures forall x | x in Retained(Candidates(before, after, at, ids)) :: x.item.id != before.items[k].id
  {
    var next := ById(after.items);
    var f, kept := Fresh(before.items, next, at, ids), Alive(Existing(before, after), next);
    FreshSparse(before.items, next, at, ids);
    KeepSparse(f);
    KeepAppend(kept, f);
    FreshAt(before.items, next, at, ids, k);
    FreshCounts(before.items, next, at, ids, k);
    forall x | x in Retained(kept + f) ensures x.item.id != before.items[k].id {
      var u := LastOfSuffix(f, Keep(kept + f), MAX_SNAPSHOTS, x);
      if x.item.id == before.items[k].id { OccursTwice(f, |Fresh(before.items[..k], next, at, ids)|, u); }
    }
  }

  // --------------------------------------------------------- what may be stored

  lemma {:induction false} FreshIdAt(items: seq<Item>, next: map<string, Item>, at: nat, ids: seq<string>)
    requires |ids| >= |items|
    ensures forall i | 0 <= i < |Fresh(items, next, at, ids)| :: Fresh(items, next, at, ids)[i].id == ids[i]
  {
    if items == [] {
    } else {
      FreshIdAt(items[..|items| - 1], next, at, ids);
    }
  }

  lemma {:induction false} AliveDistinct(s: seq<Snapshot>, next: map<string, Item>)
    requires DistinctIds(s)
    ensures DistinctIds(Alive(s, next))
  {
    if s == [] {
    } else {
      var init := s[..|s| - 1];
      AliveDistinct(init, next);
      AliveMembers(init, next);
      forall i | 0 <= i < |Alive(init, next)| ensures Alive(init, next)[i].id != s[|s| - 1].id {
        assert Alive(init, next)[i] in init;
      }
    }
  }

  lemma CandidatesDistinct(before: Vault, after: Vault, at: nat, ids: seq<string>)
    requires Handed(before, after, ids)
    ensures DistinctIds(Candidates(before, after, at, ids))
    ensures forall x | x in Candidates(before, after, at, ids) :: !HasRecord(after.history, x.id)
  {
    var next, stored := ById(after.items), StoredSnapshots(before);
    assert Existing(before, after) == stored;
    var f, kept := Fresh(before.items, next, at, ids), Alive(stored, next);
    FreshIdAt(before.items, next, at, ids);
    AliveDistinct(stored, next);
    AliveMembers(stored, next);
    forall i, j | 0 <= i < |kept| && 0 <= j < |f| ensures kept[i].id != f[j].id {
      assert kept[i] in stored && FreshId(before, ids[j]);
    }
  }

  /** Every candidate comes from an item of the vault before, in its group. */
  lemma Origin(before: Vault, after: Vault, at: nat, ids: seq<string>, x: Snapshot) returns (k: nat)
    requires Handed(before, after, ids) && x in Candidates(before, after, at, ids)
    ensures k < |before.items| && before.items[k].id == x.item.id && before.items[k].groupId == x.item.groupId
    ensures x.item.vaultId == before.vaultId && x.item.id in ById(after.items)
  {
    var next, stored := ById(after.items), StoredSnapshots(before);
    assert Existing(before, after) == stored;
    AliveMembers(stored, next);
    FreshMembers(before.items, next, at, ids);
    if x in Alive(stored, next) {
      var i :| 0 <= i < |stored| && stored[i] == x;
      assert SnapshotBound(before, stored[i]);
      k :| 0 <= k < |before.items| && before.items[k].id == x.item.id && before.items[k].groupId == x.item.groupId;
    } else {
      assert x in Fresh(before.items, next, at, ids);
      k :| 0 <= k < |before.items| && before.items[k] == x.item;
      assert ItemResolves(before, before.items[k]);
    }
  }

  /** Without a late move, whatever is retained lies in the group of its item. */
  lemma RetainedIsBound(before: Vault, after: Vault, at: nat, ids: seq<string>, x: Snapshot)
    requires Handed(before, after, ids) && x in Retained(Candidates(before, after, at, ids))
    requires !SomeMovesLate(before.items, ById(after.items))
    ensures SnapshotBound(after, x)
  {
    RetainedMembers(Candidates(before, after, at, ids));
    var k := Origin(before, after, at, ids, x);
    var j := IndexOf(after.items, x.item.id);
    assert !MovesLate(before.items, ById(after.items), k);
    if after.items[j].groupId != x.item.groupId { EarlyItemIsForgotten(before, after, at, ids, k); }
  }

  lemma StoredAnyHow(v: Vault, version: nat, s: Option<seq<Snapshot>>)
    requires HierarchyValid(v.vaultId, v.contexts, v.groups, v.attachments, v.history) && ItemsValid(v)
    requires (version == 1 ==> s.None?) && (s.Some? ==> SnapshotsValid(v, s.value))
    ensures Valid(v.(version := version, snapshots := s))
  {
    var w := v.(version := version, snapshots := s);
    forall i | 0 <= i < |w.items| ensures ItemResolves(w, w.items[i]) {
      assert ItemResolves(v, v.items[i]);
    }
    if s.Some? {
      forall i | 0 <= i < |s.value| ensures SnapshotBound(w, s.value[i]) && !HasRecord(w.history, s.value[i].id) {
        assert SnapshotBound(v, s.value[i]);
      }
    }
  }

  lemma RetainedAreValid(before: Vault, after: Vault, at: nat, ids: seq<string>)
    requires Handed(before, after, ids)
    requires !SomeMovesLate(before.items, ById(after.items))
    ensures SnapshotsValid(after, Retained(Candidates(before, after, at, ids)))
  {
    var c := Candidates(before, after, at, ids);
    var r := Retained(c);
    CandidatesDistinct(before, after, at, ids);
    RetainedMembers(c);
    forall i | 0 <= i < |r| ensures SnapshotBound(after, r[i]) && !HasRecord(after.history, r[i].id) {
      RetainedIsBound(before, after, at, ids, r[i]);
      assert r[i] in c;
    }
    forall i | 0 <= i < |r| ensures Occurrences(r, r[i].item.id) <= MAX_PER_ITEM {
      RetainsMostRecentOfEachItem(c, r[i].item.id);
    }
  }

  lemma LateMoveIsRefused(before: Vault, after: Vault, at: nat, ids: seq<string>, k: nat)
    requires Handed(before, after, ids) && k < |before.items| && MovesLate(before.items, ById(after.items), k)
    ensures Record(Structured(before), Structured(after), at, ids) == Err(SchemaViolation)
  {
    var j := IndexOf(after.items, before.items[k].id);
    FreshCounts(before.items, ById(after.items), at, ids, k);
    MovedItemIsRefused(before, after, at, ids, k, j);
  }

  lemma OtherwiseRecorded(before: Vault, after: Vault, at: nat, ids: seq<string>)
    requires Handed(before, after, ids)
    requires !SomeMovesLate(before.items, ById(after.items))
    ensures Record(Structured(before), Structured(after), at, ids).Ok?
  {
    var c := Candidates(before, after, at, ids);
    RetainedAreValid(before, after, at, ids);
    if c == [] {
      StoredAnyHow(after, after.version, if after.snapshots.None? then None else Some([]));
    } else {
      StoredAnyHow(after, 2, Some(Retained(c)));
    }
  }

  /**
   * Recording an edit is refused exactly when it moves an item to another
   * group and edits at most 10,000 items from that one on.
   */
  lemma EditRefusedIff(before: Vault, after: Vault, at: nat, ids: seq<string>)
    requires Handed(before, after, ids)
    ensures Record(Structured(before), Structured(after), at, ids).Err?
            <==> SomeMovesLate(before.items, ById(after.items))
  {
    if SomeMovesLate(before.items, ById(after.items)) {
      var k :| 0 <= k < |before.items| && MovesLate(before.items, ById(after.items), k);
      LateMoveIsRefused(before, after, at, ids, k);
    } else {
      OtherwiseRecorded(before, after, at, ids);
    }
  }
}
