/**
 * What the schema of a structured vault accepts, entity by entity: identities
 * and names that tell entities apart, references that resolve to one entity,
 * and snapshots within their limits.
 */
module VaultSchema {
  import opened Wrappers
  import opened ItemHistory

  ghost predicate AllDistinct<T(!new)>(s: seq<T>) {
    forall i, j | 0 <= i < |s| && 0 <= j < |s| && s[i] == s[j] :: i == j
  }

  function Map<S, T>(f: S -> T, s: seq<S>): (r: seq<T>)
    ensures |r| == |s| && forall i | 0 <= i < |s| :: r[i] == f(s[i])
  {
    seq(|s|, i requires 0 <= i < |s| => f(s[i]))
  }

  /** Every identity in the vault, whatever it is of. */
  function Identities(v: Vault): seq<string> {
    OtherIds(v.contexts, v.groups, v.attachments, v.history) + Map((i: Item) => i.id, v.items)
  }

  /** Two live items that share group and title are the same one. */
  ghost predicate TitlesDistinct(v: Vault) {
    forall i, j | 0 <= i < |v.items| && 0 <= j < |v.items| && !v.items[i].deleted && !v.items[j].deleted
                  && v.items[i].groupId == v.items[j].groupId && v.items[i].title == v.items[j].title :: i == j
  }

  ghost predicate OfThisVault(v: Vault) {
    && (forall g | g in v.groups :: g.vaultId == v.vaultId)
    && (forall i | i in v.items :: i.vaultId == v.vaultId)
    && (forall a | a in v.attachments :: a.vaultId == v.vaultId)
    && (forall h | h in v.history :: h.vaultId == v.vaultId)
  }

  /** Groups, templates, owners and related items are there. */
  ghost predicate Resolves(v: Vault) {
    && (forall g | g in v.groups :: exists c :: c in v.contexts && c.id == g.contextId)
    && (forall i | i in v.items ::
          exists g :: g in v.groups && g.id == i.groupId && g.templateId == i.templateId
              && g.templateVersion == i.templateVersion)
    && (forall i, r | i in v.items && r in i.related :: exists j :: j in v.items && j.id == r)
    && (forall h | h in v.history :: exists i :: i in v.items && i.id == h.itemId && i.groupId == h.groupId)
  }

  /** An attachment names the item that lists it, and the other way round. */
  ghost predicate AttachmentsAgree(v: Vault) {
    && (forall i, x | i in v.items && x in i.attachments ::
          exists a :: a in v.attachments && a.id == x && a.itemId == i.id && a.groupId == i.groupId)
    && (forall a | a in v.attachments ::
          exists i :: i in v.items && i.id == a.itemId && i.groupId == a.groupId && a.id in i.attachments)
  }

  ghost predicate SnapshotsAccepted(v: Vault, s: seq<Snapshot>) {
    && |s| <= 10_000
    && AllDistinct(Map((x: Snapshot) => x.id, s))
    && (forall x | x in s ::
          && x.item.vaultId == v.vaultId
          && (exists i :: i in v.items && i.id == x.item.id && i.groupId == x.item.groupId)
          && (forall h | h in v.history :: h.id != x.id)
          && |OfItem(s, x.item.id)| <= 100)
  }

  /** What a valid structured vault is. */
  ghost predicate Accepted(v: Vault) {
    && AllDistinct(Identities(v))
    && AllDistinct(Map((c: Context) => c.name, v.contexts))
    && AllDistinct(Map((g: Group) => (g.contextId, g.name), v.groups))
    && TitlesDistinct(v) && OfThisVault(v) && Resolves(v) && AttachmentsAgree(v)
    && (v.snapshots.Some? ==> v.version != 1 && SnapshotsAccepted(v, v.snapshots.value))
  }

  // ------------------------------------------------------------------ hierarchy

  lemma DistinctIff<T(!new)>(s: seq<T>)
    ensures AllDistinct(s) <==> forall i, j | 0 <= i < j < |s| :: s[i] != s[j]
  {}

  lemma PartDistinct<T(!new)>(a: seq<T>, b: seq<T>, c: seq<T>)
    requires AllDistinct(a + b + c)
    ensures AllDistinct(b)
  {
    var s := a + b + c;
    forall i, j | 0 <= i < |b| && 0 <= j < |b| && b[i] == b[j] ensures i == j {
      assert s[|a| + i] == b[i] && s[|a| + j] == b[j];
    }
  }

  lemma JoinDistinct<T(!new)>(a: seq<T>, b: seq<T>)
    ensures AllDistinct(a + b) <==> AllDistinct(a) && AllDistinct(b) && forall x | x in b :: x !in a
  {
    var s := a + b;
    if AllDistinct(s) {
      assert [] + a + b == s && a + b + [] == s;
      PartDistinct([], a, b);
      PartDistinct(a, b, []);
      forall x | x in b ensures x !in a {
        var j :| 0 <= j < |b| && b[j] == x;
        assert s[|a| + j] == x;
        forall i | 0 <= i < |a| ensures a[i] != x { assert s[i] == a[i]; }
      }
    }
    if AllDistinct(a) && AllDistinct(b) && forall x | x in b :: x !in a {
      forall i, j | 0 <= i < |a| && 0 <= j < |b| ensures a[i] != b[j] {
        assert a[i] in a && b[j] in b;
      }
    }
  }

  /** The kinds' own identities are distinct when all of them are. */
  lemma KindsDistinct(v: Vault)
    requires AllDistinct(OtherIds(v.contexts, v.groups, v.attachments, v.history))
    ensures AllDistinct(Map((c: Context) => c.id, v.contexts)) && AllDistinct(Map((g: Group) => g.id, v.groups))
    ensures AllDistinct(Map((a: Attachment) => a.id, v.attachments))
            && AllDistinct(Map((h: HistoryRecord) => h.id, v.history))
  {
    var c, g := Map((c: Context) => c.id, v.contexts), Map((g: Group) => g.id, v.groups);
    var a, h := Map((a: Attachment) => a.id, v.attachments), Map((h: HistoryRecord) => h.id, v.history);
    assert OtherIds(v.contexts, v.groups, v.attachments, v.history) == c + g + a + h;
    assert c + g + a + h == [] + c + (g + a + h) == c + g + (a + h) == (c + g) + a + h == (c + g + a) + h + [];
    PartDistinct([], c, g + a + h);
    PartDistinct(c, g, a + h);
    PartDistinct(c + g, a, h);
    PartDistinct(c + g + a, h, []);
  }

  lemma PairwiseIff<S(!new), T(!new)>(f: S -> T, s: seq<S>)
    ensures AllDistinct(Map(f, s)) <==> forall i, j | 0 <= i < j < |s| :: f(s[i]) != f(s[j])
  {
    var r := Map(f, s);
    DistinctIff(r);
    assert forall i | 0 <= i < |s| :: r[i] == f(s[i]);
    if forall i, j | 0 <= i < j < |s| :: f(s[i]) != f(s[j]) {
      forall i, j | 0 <= i < j < |r| ensures r[i] != r[j] {}
    }
    if forall i, j | 0 <= i < j < |r| :: r[i] != r[j] {
      forall i, j | 0 <= i < j < |s| ensures f(s[i]) != f(s[j]) { assert r[i] != r[j]; }
    }
  }

  lemma HierarchyIff(v: Vault)
    ensures HierarchyValid(v.vaultId, v.contexts, v.groups, v.attachments, v.history) <==>
            && AllDistinct(OtherIds(v.contexts, v.groups, v.attachments, v.history))
            && AllDistinct(Map((c: Context) => c.name, v.contexts))
            && AllDistinct(Map((g: Group) => (g.contextId, g.name), v.groups))
            && (forall g | g in v.groups :: g.vaultId == v.vaultId)
            && (forall a | a in v.attachments :: a.vaultId == v.vaultId)
            && (forall h | h in v.history :: h.vaultId == v.vaultId)
            && (forall g | g in v.groups :: exists c :: c in v.contexts && c.id == g.contextId)
  {
    DistinctIff(OtherIds(v.contexts, v.groups, v.attachments, v.history));
    PairwiseIff((c: Context) => c.name, v.contexts);
    PairwiseIff((g: Group) => (g.contextId, g.name), v.groups);
    if AllDistinct(OtherIds(v.contexts, v.groups, v.attachments, v.history)) {
      KindsDistinct(v);
      PairwiseIff((c: Context) => c.id, v.contexts);
      PairwiseIff((g: Group) => g.id, v.groups);
      PairwiseIff((a: Attachment) => a.id, v.attachments);
      PairwiseIff((h: HistoryRecord) => h.id, v.history);
    }
    forall g | g in v.groups
      ensures (exists c | 0 <= c < |v.contexts| :: v.contexts[c].id == g.contextId)
              <==> exists c :: c in v.contexts && c.id == g.contextId
    {
      ContextListed(v.contexts, g.contextId);
    }
  }

  lemma ContextListed(s: seq<Context>, id: string)
    ensures (exists k | 0 <= k < |s| :: s[k].id == id) <==> exists c :: c in s && c.id == id
  {
    if k :| 0 <= k < |s| && s[k].id == id { assert s[k] in s; }
    if c :| c in s && c.id == id { var k :| 0 <= k < |s| && s[k] == c; }
  }

  // ---------------------------------------------------------------------- items

  lemma ItemListed(s: seq<Item>, id: string, groupId: string)
    ensures (exists k | 0 <= k < |s| :: s[k].id == id && s[k].groupId == groupId)
            <==> exists i :: i in s && i.id == id && i.groupId == groupId
  {
    if k :| 0 <= k < |s| && s[k].id == id && s[k].groupId == groupId { assert s[k] in s; }
    if i :| i in s && i.id == id && i.groupId == groupId { var k :| 0 <= k < |s| && s[k] == i; }
  }

  ghost predicate ItemAccepted(v: Vault, i: Item) {
    && i.vaultId == v.vaultId
    && (exists g :: g in v.groups && g.id == i.groupId && g.templateId == i.templateId
         && g.templateVersion == i.templateVersion)
    && (forall x | x in i.attachments ::
          exists a :: a in v.attachments && a.id == x && a.itemId == i.id && a.groupId == i.groupId)
    && (forall r | r in i.related :: exists j :: j in v.items && j.id == r)
  }

  lemma AttachmentListed(s: seq<Attachment>, i: Item, x: string)
    ensures (exists k | 0 <= k < |s| :: s[k].id == x && s[k].itemId == i.id && s[k].groupId == i.groupId)
            <==> exists a :: a in s && a.id == x && a.itemId == i.id && a.groupId == i.groupId
  {
    if k :| 0 <= k < |s| && s[k].id == x && s[k].itemId == i.id && s[k].groupId == i.groupId { assert s[k] in s; }
    if a :| a in s && a.id == x && a.itemId == i.id && a.groupId == i.groupId { var k :| 0 <= k < |s| && s[k] == a; }
  }

  lemma GroupListed(s: seq<Group>, i: Item)
    ensures (exists k | 0 <= k < |s| ::
               s[k].id == i.groupId && s[k].templateId == i.templateId && s[k].templateVersion == i.templateVersion)
            <==> exists g :: g in s && g.id == i.groupId && g.templateId == i.templateId
                             && g.templateVersion == i.templateVersion
  {
    if k :| 0 <= k < |s| && s[k].id == i.groupId && s[k].templateId == i.templateId
            && s[k].templateVersion == i.templateVersion {
      assert s[k] in s;
    }
    if g :| g in s && g.id == i.groupId && g.templateId == i.templateId && g.templateVersion == i.templateVersion {
      var k :| 0 <= k < |s| && s[k] == g;
    }
  }

  lemma RelatedListed(s: seq<Item>, id: string)
    ensures HasItem(s, id) <==> exists j :: j in s && j.id == id
  {
    if k :| 0 <= k < |s| && s[k].id == id { assert s[k] in s; }
    if j :| j in s && j.id == id { var k :| 0 <= k < |s| && s[k] == j; }
  }

  lemma ItemAcceptedIff(v: Vault, i: Item)
    ensures ItemResolves(v, i) <==> ItemAccepted(v, i)
  {
    GroupListed(v.groups, i);
    forall x | x in i.attachments
      ensures (exists k | 0 <= k < |v.attachments| ::
                 v.attachments[k].id == x && v.attachments[k].itemId == i.id && v.attachments[k].groupId == i.groupId)
              <==> exists a :: a in v.attachments && a.id == x && a.itemId == i.id && a.groupId == i.groupId
    {
      AttachmentListed(v.attachments, i, x);
    }
    forall r | r in i.related ensures HasItem(v.items, r) <==> exists j :: j in v.items && j.id == r {
      RelatedListed(v.items, r);
    }
  }

  lemma OwnedIff(items: seq<Item>, a: Attachment)
    ensures AttachmentOwned(items, a)
            <==> exists i :: i in items && i.id == a.itemId && i.groupId == a.groupId && a.id in i.attachments
  {
    if AttachmentOwned(items, a) {
      var k :| 0 <= k < |items| && items[k].id == a.itemId && items[k].groupId == a.groupId
                 && a.id in items[k].attachments;
      assert items[k] in items;
    }
    if i :| i in items && i.id == a.itemId && i.groupId == a.groupId && a.id in i.attachments {
      var k :| 0 <= k < |items| && items[k] == i;
    }
  }

  ghost predicate ItemsAccepted(v: Vault) {
    && AllDistinct(Map((i: Item) => i.id, v.items))
    && (forall i | i in v.items :: i.id !in OtherIds(v.contexts, v.groups, v.attachments, v.history))
    && TitlesDistinct(v)
    && (forall i | i in v.items :: ItemAccepted(v, i))
    && (forall a | a in v.attachments ::
          exists i :: i in v.items && i.id == a.itemId && i.groupId == a.groupId && a.id in i.attachments)
    && (forall h | h in v.history :: exists i :: i in v.items && i.id == h.itemId && i.groupId == h.groupId)
  }

  lemma MembersIff<T(!new)>(s: seq<T>, p: T -> bool)
    ensures (forall k | 0 <= k < |s| :: p(s[k])) <==> forall x | x in s :: p(x)
  {
    if forall x | x in s :: p(x) {
      forall k | 0 <= k < |s| ensures p(s[k]) { assert s[k] in s; }
    }
  }

  lemma ItemsIff(v: Vault)
    ensures ItemsValid(v) <==> ItemsAccepted(v)
  {
    PairwiseIff((i: Item) => i.id, v.items);
    forall i | i in v.items ensures ItemResolves(v, i) <==> ItemAccepted(v, i) { ItemAcceptedIff(v, i); }
    forall a | a in v.attachments
      ensures AttachmentOwned(v.items, a)
              <==> exists i :: i in v.items && i.id == a.itemId && i.groupId == a.groupId && a.id in i.attachments
    {
      OwnedIff(v.items, a);
    }
    forall h | h in v.history
      ensures HistoryBound(v.items, h) <==> exists i :: i in v.items && i.id == h.itemId && i.groupId == h.groupId
    {
      ItemListed(v.items, h.itemId, h.groupId);
    }
    MembersIff(v.items, i => ItemResolves(v, i));
    MembersIff(v.attachments, a => AttachmentOwned(v.items, a));
    MembersIff(v.history, h => HistoryBound(v.items, h));
  }

  // ------------------------------------------------------------------ snapshots

  lemma SnapshotsIff(v: Vault, s: seq<Snapshot>)
    ensures SnapshotsValid(v, s) <==> SnapshotsAccepted(v, s)
  {
    PairwiseIff((x: Snapshot) => x.id, s);
    forall x | x in s
      ensures SnapshotBound(v, x) <==> x.item.vaultId == v.vaultId
                                       && exists i :: i in v.items && i.id == x.item.id && i.groupId == x.item.groupId
      ensures HasRecord(v.history, x.id) <==> exists h :: h in v.history && h.id == x.id
      ensures Occurrences(s, x.item.id) == |OfItem(s, x.item.id)|
    {
      ItemListed(v.items, x.item.id, x.item.groupId);
      RecordListed(v.history, x.id);
      OccurrencesCount(s, x.item.id);
    }
    MembersIff(s, (x: Snapshot) => SnapshotBound(v, x) && !HasRecord(v.history, x.id));
    MembersIff(s, (x: Snapshot) => Occurrences(s, x.item.id) <= MAX_PER_ITEM);
  }

  lemma RecordListed(s: seq<HistoryRecord>, id: string)
    ensures HasRecord(s, id) <==> exists h :: h in s && h.id == id
  {
    if k :| 0 <= k < |s| && s[k].id == id { assert s[k] in s; }
    if h :| h in s && h.id == id { var k :| 0 <= k < |s| && s[k] == h; }
  }

  /** The schema accepts exactly these vaults. */
  lemma ValidIff(v: Vault)
    ensures Valid(v) <==> Accepted(v)
  {
    HierarchyIff(v);
    ItemsIff(v);
    if v.snapshots.Some? { SnapshotsIff(v, v.snapshots.value); }
    JoinDistinct(OtherIds(v.contexts, v.groups, v.attachments, v.history), Map((i: Item) => i.id, v.items));
    IdentitiesIff(v);
    if Accepted(v) {
      forall i | i in v.items ensures ItemAccepted(v, i) {}
      assert ItemsAccepted(v);
    }
    if ItemsAccepted(v) {
      forall i | i in v.items ensures ItemAccepted(v, i) {}
    }
  }

  lemma IdentitiesIff(v: Vault)
    ensures var ids := Map((i: Item) => i.id, v.items);
            var others := OtherIds(v.contexts, v.groups, v.attachments, v.history);
            (forall x | x in ids :: x !in others) <==> forall i | i in v.items :: i.id !in others
  {
    var ids := Map((i: Item) => i.id, v.items);
    forall i | i in v.items ensures i.id in ids {
      var k :| 0 <= k < |v.items| && v.items[k] == i;
      assert ids[k] == i.id;
    }
    forall x | x in ids ensures exists i :: i in v.items && i.id == x {
      var k :| 0 <= k < |ids| && ids[k] == x;
      assert v.items[k] in v.items && v.items[k].id == x;
    }
  }
}
