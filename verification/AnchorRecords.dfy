/**
 * The anchor's vault heads as the ordered record the program builds, and the
 * sorted elementwise check of catalog ids against stored ids.
 */
module AnchorRecords {
  import opened DatabaseModel
  import opened Anchors
  import opened Sorting

  datatype Entry = Entry(id: VaultId, head: Head)

  type Record = seq<Entry>

  function EntryOf(v: Vault): Entry {
    Entry(v.id, HeadOf(v))
  }

  /** Assigning a key of an insertion-ordered record: replace in place, or append. */
  function Put(r: Record, e: Entry): Record {
    if r == [] then [e]
    else if r[0].id == e.id then [e] + r[1..]
    else [r[0]] + Put(r[1..], e)
  }

  function ById(le: (VaultId, VaultId) -> bool): (Entry, Entry) -> bool {
    (a: Entry, b: Entry) => le(a.id, b.id)
  }

  function VaultById(le: (VaultId, VaultId) -> bool): (Vault, Vault) -> bool {
    (a: Vault, b: Vault) => le(a.id, b.id)
  }

  function Assign(r: Record, vaults: seq<Vault>): Record
    decreases vaults
  {
    if vaults == [] then r else Assign(Put(r, EntryOf(vaults[0])), vaults[1..])
  }

  /** Recomputation: sort the listing by id, then assign each head in turn. */
  function FromVaults(le: (VaultId, VaultId) -> bool, vaults: seq<Vault>): Record {
    Assign([], Sort(VaultById(le), vaults))
  }

  function SortedHeads(le: (VaultId, VaultId) -> bool, r: Record): Record {
    Sort(ById(le), r)
  }

  function WithVault(le: (VaultId, VaultId) -> bool, prior: Record, v: Vault): Record {
    SortedHeads(le, Put(prior, EntryOf(v)))
  }

  function Without(r: Record, id: VaultId): Record {
    if r == [] then []
    else if r[0].id == id then Without(r[1..], id)
    else [r[0]] + Without(r[1..], id)
  }

  function WithoutVault(le: (VaultId, VaultId) -> bool, prior: Record, id: VaultId): Record {
    SortedHeads(le, Without(prior, id))
  }

  // ----------------------------------------------------------------- listings

  ghost predicate TotalOrder(le: (VaultId, VaultId) -> bool) {
    && TotalPreorder(le)
    && (forall x, y :: le(x, y) && le(y, x) ==> x == y)
  }

  const IdOf: Entry -> VaultId := (e: Entry) => e.id
  const VaultIdOf: Vault -> VaultId := (v: Vault) => v.id

  /** A store listing names every vault once. */
  ghost predicate Listing(vaults: seq<Vault>) {
    DistinctBy(VaultIdOf, vaults)
  }

  /** In order, each id once: the shape every built record has. */
  ghost predicate Ordered(le: (VaultId, VaultId) -> bool, r: Record) {
    && DistinctBy(IdOf, r)
    && (forall i, j | 0 <= i < j < |r| :: le(r[i].id, r[j].id))
  }

  /** An ordered record is determined by its entries. */
  lemma {:induction false} OrderedUnique(le: (VaultId, VaultId) -> bool, a: Record, b: Record)
    requires TotalOrder(le) && Ordered(le, a) && Ordered(le, b)
    requires forall e :: e in a <==> e in b
    ensures a == b
  {
    if a == [] {
      Occupied(b);
    } else {
      assert a[0] in b;
      var j :| 0 <= j < |b| && b[j] == a[0];
      assert b[0] in a;
      var i :| 0 <= i < |a| && a[i] == b[0];
      assert a[0] == b[0] by {
        assert IdOf(a[0]) == a[0].id && IdOf(a[i]) == a[i].id;
        assert le(a[0].id, a[i].id) && le(b[0].id, b[j].id);
      }
      forall e ensures e in a[1..] <==> e in b[1..] {
        TailMembers(a, e);
        TailMembers(b, e);
      }
      OrderedUnique(le, a[1..], b[1..]);
    }
  }

  lemma TailMembers(r: Record, e: Entry)
    requires r != [] && DistinctBy(IdOf, r)
    ensures e in r[1..] <==> e in r && e != r[0]
  {
    forall k | 0 <= k < |r[1..]| ensures r[1..][k] != r[0] {
      assert IdOf(r[0]) != IdOf(r[k + 1]);
    }
    if e in r && e != r[0] {
      var k :| 0 <= k < |r| && r[k] == e;
      assert r[1..][k - 1] == e;
    }
  }

  lemma {:induction false} PutMembers(r: Record, e: Entry)
    requires DistinctBy(IdOf, r)
    ensures DistinctBy(IdOf, Put(r, e))
    ensures forall x :: x in Put(r, e) <==> x == e || (x in r && x.id != e.id)
  {
    if r == [] {
    } else {
      var tail := r[1..];
      assert DistinctBy(IdOf, tail);
      assert forall k | 0 <= k < |tail| :: IdOf(r[0]) != IdOf(tail[k]);
      assert forall x :: x in r <==> x == r[0] || x in tail;
      if r[0].id != e.id {
        PutMembers(tail, e);
        var rest := Put(tail, e);
        forall k | 0 <= k < |rest| ensures IdOf(r[0]) != IdOf(rest[k]) {
          assert rest[k] in rest;
        }
      }
    }
  }

  lemma {:induction false} WithoutMembers(r: Record, id: VaultId)
    requires DistinctBy(IdOf, r)
    ensures DistinctBy(IdOf, Without(r, id))
    ensures forall x :: x in Without(r, id) <==> x in r && x.id != id
  {
    if r == [] {
    } else {
      var tail := r[1..];
      assert DistinctBy(IdOf, tail);
      assert forall k | 0 <= k < |tail| :: IdOf(r[0]) != IdOf(tail[k]);
      assert forall x :: x in r <==> x == r[0] || x in tail;
      WithoutMembers(tail, id);
      var rest := Without(tail, id);
      forall k | 0 <= k < |rest| ensures IdOf(r[0]) != IdOf(rest[k]) {
        assert rest[k] in rest;
      }
    }
  }

  lemma SortedHeadsOrdered(le: (VaultId, VaultId) -> bool, r: Record)
    requires TotalOrder(le) && DistinctBy(IdOf, r)
    ensures Ordered(le, SortedHeads(le, r))
    ensures forall x :: x in SortedHeads(le, r) <==> x in r
  {
    var f := ById(le);
    assert TotalPreorder(f) by {
      assert forall x: Entry, y: Entry :: f(x, y) == le(x.id, y.id);
    }
    SortSorted(f, r);
    SortDistinct(f, IdOf, r);
    SameMembers(r, Sort(f, r));
    var s := Sort(f, r);
    forall i, j | 0 <= i < j < |s| ensures le(s[i].id, s[j].id) {
      assert f(s[i], s[j]);
    }
  }

  lemma {:induction false} AssignFresh(r: Record, vaults: seq<Vault>)
    requires Listing(vaults)
    requires forall i, j | 0 <= i < |r| && 0 <= j < |vaults| :: r[i].id != vaults[j].id
    ensures |Assign(r, vaults)| == |r| + |vaults|
    ensures forall i | 0 <= i < |r| :: Assign(r, vaults)[i] == r[i]
    ensures forall i | 0 <= i < |vaults| :: Assign(r, vaults)[|r| + i] == EntryOf(vaults[i])
    decreases vaults
  {
    if vaults == [] {
    } else {
      var e := EntryOf(vaults[0]);
      PutFresh(r, e);
      forall j | 0 <= j < |vaults[1..]| ensures vaults[1..][j].id != e.id {
        assert VaultIdOf(vaults[0]) != VaultIdOf(vaults[j + 1]);
      }
      assert Listing(vaults[1..]);
      AssignFresh(r + [e], vaults[1..]);
      forall i | 0 <= i < |vaults| ensures Assign(r, vaults)[|r| + i] == EntryOf(vaults[i]) {
        if i > 0 { assert vaults[1..][i - 1] == vaults[i]; }
      }
    }
  }

  lemma {:induction false} PutFresh(r: Record, e: Entry)
    requires forall i | 0 <= i < |r| :: r[i].id != e.id
    ensures Put(r, e) == r + [e]
  {
    if r == [] {
    } else {
      PutFresh(r[1..], e);
      assert r == [r[0]] + r[1..];
    }
  }

  /** The sorted listing is ordered by distinct ids and has the same vaults. */
  lemma SortedListing(le: (VaultId, VaultId) -> bool, vaults: seq<Vault>)
    requires TotalOrder(le) && Listing(vaults)
    ensures var s := Sort(VaultById(le), vaults);
            && Listing(s)
            && (forall i, j | 0 <= i < j < |s| :: le(s[i].id, s[j].id))
            && (forall v :: v in s <==> v in vaults)
  {
    var f := VaultById(le);
    assert TotalPreorder(f) by {
      assert forall x: Vault, y: Vault :: f(x, y) == le(x.id, y.id);
    }
    var s := Sort(f, vaults);
    SortSorted(f, vaults);
    SortDistinct(f, VaultIdOf, vaults);
    SameMembers(vaults, s);
    forall i, j | 0 <= i < j < |s| ensures le(s[i].id, s[j].id) && s[i].id != s[j].id {
      assert f(s[i], s[j]) && VaultIdOf(s[i]) != VaultIdOf(s[j]);
    }
  }

  /** A record lists the heads of some vaults, position by position. */
  ghost predicate HeadsOfEach(r: Record, s: seq<Vault>) {
    |r| == |s| && forall i | 0 <= i < |s| :: r[i] == EntryOf(s[i])
  }

  lemma FromVaultsHeads(le: (VaultId, VaultId) -> bool, vaults: seq<Vault>, s: seq<Vault>)
    requires s == Sort(VaultById(le), vaults) && Listing(s)
    ensures HeadsOfEach(FromVaults(le, vaults), s)
  {
    AssignFresh([], s);
  }

  lemma HeadsAreOrdered(le: (VaultId, VaultId) -> bool, r: Record, s: seq<Vault>)
    requires HeadsOfEach(r, s) && Listing(s)
    requires forall i, j | 0 <= i < j < |s| :: le(s[i].id, s[j].id)
    ensures Ordered(le, r)
  {
    forall i, j | 0 <= i < j < |r| ensures IdOf(r[i]) != IdOf(r[j]) && le(r[i].id, r[j].id) {
      assert VaultIdOf(s[i]) != VaultIdOf(s[j]);
    }
  }

  /** The recomputed record is ordered and holds exactly the listed heads. */
  lemma FromVaultsOrdered(le: (VaultId, VaultId) -> bool, vaults: seq<Vault>)
    requires TotalOrder(le) && Listing(vaults)
    ensures Ordered(le, FromVaults(le, vaults))
    ensures forall e :: e in FromVaults(le, vaults) <==> exists v :: v in vaults && e == EntryOf(v)
  {
    var s, r := Sort(VaultById(le), vaults), FromVaults(le, vaults);
    SortedListing(le, vaults);
    FromVaultsHeads(le, vaults, s);
    HeadsAreOrdered(le, r, s);
    forall e ensures e in r <==> exists v :: v in vaults && e == EntryOf(v) {
      HeadsListed(r, s, e);
    }
  }

  lemma HeadsListed(r: Record, s: seq<Vault>, e: Entry)
    requires HeadsOfEach(r, s)
    ensures e in r <==> exists v :: v in s && e == EntryOf(v)
  {
    if e in r {
      var i :| 0 <= i < |r| && r[i] == e;
      assert s[i] in s && e == EntryOf(s[i]);
    }
    if v :| v in s && e == EntryOf(v) {
      var i :| 0 <= i < |s| && s[i] == v;
      assert r[i] == e;
    }
  }

  // ------------------------------------------------------------- main results

  /**
   * Incremental update for a created or updated vault gives the record that
   * recomputation gives on the changed vaults, whatever order they are listed in.
   */
  lemma WithVaultRefines(le: (VaultId, VaultId) -> bool, vaults: seq<Vault>, v: Vault, changed: seq<Vault>)
    requires TotalOrder(le) && Listing(vaults) && Listing(changed)
    requires forall w :: w in changed <==> w == v || (w in vaults && w.id != v.id)
    ensures WithVault(le, FromVaults(le, vaults), v) == FromVaults(le, changed)
  {
    var prior := FromVaults(le, vaults);
    FromVaultsOrdered(le, vaults);
    FromVaultsOrdered(le, changed);
    PutMembers(prior, EntryOf(v));
    SortedHeadsOrdered(le, Put(prior, EntryOf(v)));
    forall e ensures e in WithVault(le, prior, v) <==> e in FromVaults(le, changed) {
      if e in FromVaults(le, changed) {
        var w :| w in changed && e == EntryOf(w);
      }
      if e in WithVault(le, prior, v) && e != EntryOf(v) {
        var w :| w in vaults && e == EntryOf(w);
        assert w in changed;
      }
      assert v in changed;
    }
    OrderedUnique(le, WithVault(le, prior, v), FromVaults(le, changed));
  }

  /** The same for a removed vault. */
  lemma WithoutVaultRefines(le: (VaultId, VaultId) -> bool, vaults: seq<Vault>, id: VaultId, changed: seq<Vault>)
    requires TotalOrder(le) && Listing(vaults) && Listing(changed)
    requires forall w :: w in changed <==> w in vaults && w.id != id
    ensures WithoutVault(le, FromVaults(le, vaults), id) == FromVaults(le, changed)
  {
    var prior := FromVaults(le, vaults);
    FromVaultsOrdered(le, vaults);
    FromVaultsOrdered(le, changed);
    WithoutMembers(prior, id);
    SortedHeadsOrdered(le, Without(prior, id));
    forall e ensures e in WithoutVault(le, prior, id) <==> e in FromVaults(le, changed) {
      if e in FromVaults(le, changed) {
        var w :| w in changed && e == EntryOf(w);
      }
      if e in WithoutVault(le, prior, id) {
        var w :| w in vaults && e == EntryOf(w);
        assert w in changed;
      }
    }
    OrderedUnique(le, WithoutVault(le, prior, id), FromVaults(le, changed));
  }

  /** The sorted elementwise comparison of catalog ids with stored ids. */
  predicate SameVaultSet(le: (VaultId, VaultId) -> bool, catalogIds: seq<VaultId>, storedIds: seq<VaultId>) {
    var a, b := Sort(le, catalogIds), Sort(le, storedIds);
    |a| == |b| && forall i | 0 <= i < |a| :: a[i] == b[i]
  }

  /** It accepts exactly when the two lists are equal as multisets. */
  lemma SameVaultSetIff(le: (VaultId, VaultId) -> bool, catalogIds: seq<VaultId>, storedIds: seq<VaultId>)
    requires TotalOrder(le)
    ensures SameVaultSet(le, catalogIds, storedIds) <==> multiset(catalogIds) == multiset(storedIds)
  {
    var a, b := Sort(le, catalogIds), Sort(le, storedIds);
    if multiset(catalogIds) == multiset(storedIds) {
      SortForgetsOrder(le, catalogIds, storedIds);
    }
    if SameVaultSet(le, catalogIds, storedIds) {
      assert a == b;
    }
  }
}
