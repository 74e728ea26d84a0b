/**
 * What restoring a snapshot means, by the entities that a request names, and
 * exactly when it is refused and why.
 */
module ItemRestores {
  import opened Wrappers
  import opened ItemHistory

  /** The address names this item: a live item of a live group of a project context. */
  ghost predicate Names(v: Vault, a: Address, context: Context, group: Group, item: Item) {
    && context in v.contexts && context.name == a.context
    && group in v.groups && group.contextId == context.id && group.name == a.service && !group.deleted
    && item in v.items && item.groupId == group.id && item.title == a.title && !item.deleted
  }

  /** The stored snapshot with this identity, taken of that item. */
  ghost predicate Taken(v: Vault, item: Item, id: string, x: Snapshot) {
    v.snapshots.Some? && x in v.snapshots.value && x.id == id && x.item.id == item.id
  }

  /** Everything that the earlier content refers to is still there. */
  ghost predicate StillLinked(v: Vault, group: Group, earlier: Item) {
    && earlier.vaultId == v.vaultId && earlier.groupId == group.id && earlier.templateId == group.templateId
    && (set x | x in earlier.attachments) <= (set x | x in v.attachments :: x.id)
    && (set x | x in earlier.related) <= (set x | x in v.items :: x.id)
  }

  /** The earlier content under the current title, one revision on, at the new time. */
  function Revived(item: Item, earlier: Item, at: nat): Item {
    Item(item.id, earlier.vaultId, earlier.groupId, earlier.templateId, earlier.templateVersion,
         item.title, earlier.deleted, earlier.attachments, earlier.related, item.revision + 1, at, earlier.body)
  }

  /** Exactly this item was exchanged. */
  ghost predicate Exchanged(v: Vault, w: Vault, item: Item, revived: Item) {
    && w == v.(items := w.items) && |w.items| == |v.items|
    && forall i | 0 <= i < |v.items| :: w.items[i] == if v.items[i] == item then revived else v.items[i]
  }

  ghost predicate Restores(
      v: Vault, a: Address, id: string, at: nat, w: Vault, context: Context, group: Group, item: Item, x: Snapshot)
  {
    && Names(v, a, context, group, item) && Taken(v, item, id, x)
    && StillLinked(v, group, x.item) && Exchanged(v, w, item, Revived(item, x.item, at)) && Valid(w)
  }

  // ------------------------------------------------------------------- lookups

  lemma {:induction false} ContextFound(s: seq<Context>, c: Context)
    requires c in s && forall i, j | 0 <= i < j < |s| :: s[i].name != s[j].name
    ensures FindContext(s, c.name) == Some(c)
  {
    if s[0] != c {
      assert s == [s[0]] + s[1..];
      var k :| 0 <= k < |s| && s[k] == c;
      ContextFound(s[1..], c);
    }
  }

  lemma {:induction false} FoundContext(s: seq<Context>, name: string)
    ensures FindContext(s, name).Some? ==> FindContext(s, name).value in s && FindContext(s, name).value.name == name
  {
    if s == [] {
    } else {
      FoundContext(s[1..], name);
    }
  }

  lemma {:induction false} GroupFound(s: seq<Group>, g: Group)
    requires g in s && !g.deleted
    requires forall i, j | 0 <= i < j < |s| :: s[i].contextId != s[j].contextId || s[i].name != s[j].name
    ensures FindGroup(s, g.contextId, g.name) == Some(g)
  {
    if s[0] != g {
      assert s == [s[0]] + s[1..];
      var k :| 0 <= k < |s| && s[k] == g;
      GroupFound(s[1..], g);
    }
  }

  lemma {:induction false} FoundGroup(s: seq<Group>, contextId: string, name: string)
    ensures var r := FindGroup(s, contextId, name);
            r.Some? ==> r.value.contextId == contextId && r.value.name == name && !r.value.deleted
  {
    if s == [] {
    } else {
      FoundGroup(s[1..], contextId, name);
    }
  }

  lemma ItemFound(v: Vault, i: Item)
    requires ItemsValid(v) && i in v.items && !i.deleted
    ensures FindItem(v.items, i.groupId, i.title) == Some(i)
  {
    var k :| 0 <= k < |v.items| && v.items[k] == i;
    forall j | 0 <= j < k ensures !Active(v.items[j], i.groupId, i.title) {}
    FindItemAt(v.items, i.groupId, i.title, k);
  }

  lemma {:induction false} SnapshotFound(s: seq<Snapshot>, x: Snapshot)
    requires x in s && forall i, j | 0 <= i < j < |s| :: s[i].id != s[j].id
    ensures FindSnapshot(s, x.id, x.item.id) == Some(x)
  {
    if s[0] != x {
      assert s == [s[0]] + s[1..];
      var k :| 0 <= k < |s| && s[k] == x;
      SnapshotFound(s[1..], x);
    }
  }

  /** In a valid vault an address is located exactly when it names an item, and then it names only that one. */
  lemma LocatedIff(v: Vault, a: Address)
    requires Valid(v)
    ensures Locate(v, a).None? ==> forall c, g, i :: !Names(v, a, c, g, i)
    ensures Locate(v, a).Some? ==>
              var t := Locate(v, a).value;
              && (exists c :: Names(v, a, c, t.group, t.item))
              && forall c, g, i | Names(v, a, c, g, i) :: g == t.group && i == t.item
  {
    forall c, g, i | Names(v, a, c, g, i) ensures Locate(v, a) == Some(Target(g, i)) {
      ContextFound(v.contexts, c);
      GroupFound(v.groups, g);
      ItemFound(v, i);
    }
    if Locate(v, a).Some? {
      FoundContext(v.contexts, a.context);
      var c := FindContext(v.contexts, a.context).value;
      FoundGroup(v.groups, c.id, a.service);
      assert Names(v, a, c, Locate(v, a).value.group, Locate(v, a).value.item);
    }
  }

  lemma TakenIff(v: Vault, item: Item, id: string)
    requires Valid(v)
    ensures var r := FindSnapshot(StoredSnapshots(v), id, item.id);
            && (r.None? ==> forall x :: !Taken(v, item, id, x))
            && (r.Some? ==> Taken(v, item, id, r.value) && forall x | Taken(v, item, id, x) :: x == r.value)
  {
    forall x | Taken(v, item, id, x) ensures FindSnapshot(StoredSnapshots(v), id, item.id) == Some(x) {
      SnapshotFound(StoredSnapshots(v), x);
    }
  }

  lemma LinkedIff(v: Vault, group: Group, earlier: Item)
    ensures LinksResolve(v, group, earlier) <==> StillLinked(v, group, earlier)
  {
    var attachments, items := (set x | x in v.attachments :: x.id), (set x | x in v.items :: x.id);
    forall a ensures a in attachments <==> exists k :: 0 <= k < |v.attachments| && v.attachments[k].id == a {
      if k :| 0 <= k < |v.attachments| && v.attachments[k].id == a { assert v.attachments[k] in v.attachments; }
    }
    forall r ensures r in items <==> HasItem(v.items, r) {
      if k :| 0 <= k < |v.items| && v.items[k].id == r { assert v.items[k] in v.items; }
    }
    assert (set x | x in earlier.attachments) <= attachments
        <==> forall a | a in earlier.attachments :: a in attachments;
    assert (set x | x in earlier.related) <= items <==> forall r | r in earlier.related :: r in items;
  }

  lemma ExchangedIff(v: Vault, w: Vault, item: Item, revived: Item)
    requires ItemsValid(v) && item in v.items
    ensures Exchanged(v, w, item, revived) <==> w == v.(items := Replace(v.items, item.id, revived))
  {
    var k :| 0 <= k < |v.items| && v.items[k] == item;
    forall i | 0 <= i < |v.items| ensures v.items[i].id == item.id <==> v.items[i] == item {}
  }

  // ------------------------------------------------------------------- restore

  /**
   * A restore stores w exactly when the address names an item, a stored
   * snapshot with this identity was taken of it, everything the snapshot refers
   * to is still there, and w is the valid vault with that item, and only that
   * one, exchanged for the snapshot's content.
   */
  lemma RestoreIff(v: Vault, a: Address, id: string, at: nat, w: Vault)
    requires Valid(v)
    ensures Restore(v, a, id, at) == Ok(Structured(w))
            <==> exists context, group, item, x :: Restores(v, a, id, at, w, context, group, item, x)
  {
    LocatedIff(v, a);
    if Locate(v, a).Some? {
      var t := Locate(v, a).value;
      TakenIff(v, t.item, id);
      var found := FindSnapshot(StoredSnapshots(v), id, t.item.id);
      if found.Some? {
        var x := found.value;
        LinkedIff(v, t.group, x.item);
        ExchangedIff(v, w, t.item, Revived(t.item, x.item, at));
        assert Revived(t.item, x.item, at) == Restored(t.item, x.item, at);
        var context :| Names(v, a, context, t.group, t.item);
        assert Restore(v, a, id, at) == Ok(Structured(w)) <==> Restores(v, a, id, at, w, context, t.group, t.item, x);
      }
    }
  }

  /** And it is refused as missing, as unlinked or as invalid, in this order. */
  lemma RefusedBecause(v: Vault, a: Address, id: string, at: nat)
    requires Valid(v) && Restore(v, a, id, at).Err?
    ensures var e := Restore(v, a, id, at).error;
            && (e == CredentialMissing
                <==> !exists context, group, item, x :: Names(v, a, context, group, item) && Taken(v, item, id, x))
            && (e == IntegrityFailure
                <==> exists context, group, item, x ::
                       Names(v, a, context, group, item) && Taken(v, item, id, x) && !StillLinked(v, group, x.item))
  {
    LocatedIff(v, a);
    if Locate(v, a).Some? {
      var t := Locate(v, a).value;
      TakenIff(v, t.item, id);
      var found := FindSnapshot(StoredSnapshots(v), id, t.item.id);
      if found.Some? {
        LinkedIff(v, t.group, found.value.item);
        var context :| Names(v, a, context, t.group, t.item);
        assert Names(v, a, context, t.group, t.item) && Taken(v, t.item, id, found.value);
      }
    }
  }
}
