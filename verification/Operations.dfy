/**
 * What a session computes from its cached document and one vault read before
 * it asks the store, and the sequential meaning that each accepted request is
 * proved to have.
 */
module Operations {
  import opened Wrappers
  import opened DatabaseModel

  /** One mutating call on a session. The payload of an edit is computed from the vault it reads. */
  datatype Call =
    | Create(id: VaultId, name: string, payload: Payload)
    | Rename(id: VaultId, name: string)
    | Edit(id: VaultId, payload: Payload)
    | Remove(id: VaultId)
    | AddRecovery(slot: SlotId)
    | Revoke(slot: SlotId)
    | ReplaceOwner(via: SlotId, owner: SlotId)

  // ------------------------------------------------------- the session's side

  function Renamed(c: seq<CatalogEntry>, id: VaultId, name: string): (r: seq<CatalogEntry>)
    ensures |r| == |c|
    ensures forall i | 0 <= i < |c| :: r[i] == if c[i].id == id then CatalogEntry(id, name) else c[i]
  {
    seq(|c|, i requires 0 <= i < |c| => if c[i].id == id then c[i].(name := name) else c[i])
  }

  lemma TailDistinct(c: seq<CatalogEntry>)
    requires c != []
    ensures DistinctEntries(c) ==> DistinctEntries(c[1..])
    ensures DistinctEntries(c) ==> forall e | e in c[1..] :: e.id != c[0].id && e.name != c[0].name
  {
    if DistinctEntries(c) {
      forall e | e in c[1..] ensures e.id != c[0].id && e.name != c[0].name {
        var k :| 0 <= k < |c[1..]| && c[1..][k] == e;
        assert c[k + 1] == e;
      }
    }
  }

  function Dropped(c: seq<CatalogEntry>, id: VaultId): (r: seq<CatalogEntry>)
    ensures forall e :: e in r <==> e in c && e.id != id
    ensures DistinctEntries(c) ==> DistinctEntries(r)
    ensures |r| <= |c|
  {
    if c == [] then []
    else
      var rest := Dropped(c[1..], id);
      assert c == [c[0]] + c[1..];
      TailDistinct(c);
      if c[0].id == id then rest else [c[0]] + rest
  }

  function WithRevoked(s: seq<RecoverySlot>, id: SlotId): (r: seq<RecoverySlot>)
    ensures |r| == |s|
    ensures forall i | 0 <= i < |s| :: r[i] == if s[i].id == id then RecoverySlot(id, Revoked) else s[i]
  {
    seq(|s|, i requires 0 <= i < |s| => if s[i].id == id then s[i].(state := Revoked) else s[i])
  }

  function ActiveSlots(s: seq<RecoverySlot>): (r: seq<RecoverySlot>)
    ensures forall x :: x in r <==> x in s && x.state == Active
  {
    if s == [] then []
    else
      assert s == [s[0]] + s[1..];
      if s[0].state == Active then [s[0]] + ActiveSlots(s[1..]) else ActiveSlots(s[1..])
  }

  predicate NameUsed(c: seq<CatalogEntry>, name: string) {
    exists i | 0 <= i < |c| :: c[i].name == name
  }

  predicate NameTaken(c: seq<CatalogEntry>, id: VaultId, name: string) {
    exists i | 0 <= i < |c| :: c[i].id != id && c[i].name == name
  }

  predicate InCatalog(c: seq<CatalogEntry>, id: VaultId) {
    exists i | 0 <= i < |c| :: c[i].id == id
  }

  predicate HasActive(s: seq<RecoverySlot>, id: SlotId) {
    exists i | 0 <= i < |s| :: s[i] == RecoverySlot(id, Active)
  }

  /** Re-encrypting the catalog moves the document one revision on. */
  function Reencrypted(d: Database): Database {
    d.(revision := d.revision + 1)
  }

  /** The request a call becomes, or None when the session refuses it locally. */
  function Prepare(cached: Database, vaults: map<VaultId, Vault>, call: Call): Option<Request> {
    match call
    case Create(id, name, payload) =>
      if NameUsed(cached.catalog, name) then None
      else if |cached.catalog| >= MAX_VAULTS then None
      else
        var next := Reencrypted(cached.(catalog := cached.catalog + [CatalogEntry(id, name)]));
        Some(CreateVault(next, cached.revision, Vault(id, 0, next.revision, payload)))
    case Rename(id, name) =>
      if !InCatalog(cached.catalog, id) || NameTaken(cached.catalog, id, name) then None
      else Some(UpdateDatabase(Reencrypted(cached.(catalog := Renamed(cached.catalog, id, name))), cached.revision))
    case Edit(id, payload) =>
      if id !in vaults then None
      else
        var current := vaults[id];
        Some(UpdateVault(current.(revision := current.revision + 1, payload := payload), cached.id, current.revision))
    case Remove(id) =>
      if id !in vaults then None
      else
        Some(DeleteVault(Reencrypted(cached.(catalog := Dropped(cached.catalog, id))), cached.revision,
                         id, vaults[id].revision))
    case AddRecovery(slot) =>
      if |cached.slots| >= MAX_RECOVERY_SLOTS then None
      else Some(UpdateDatabase(Reencrypted(cached.(slots := cached.slots + [RecoverySlot(slot, Active)])),
          cached.revision))
    case Revoke(slot) =>
      if !HasActive(cached.slots, slot) || |ActiveSlots(cached.slots)| <= 1 then None
      else Some(UpdateDatabase(Reencrypted(cached.(slots := WithRevoked(cached.slots, slot))), cached.revision))
    case ReplaceOwner(via, owner) =>
      if !HasActive(cached.slots, via) then None
      else Some(UpdateDatabase(Reencrypted(cached.(owner := owner)), cached.revision))
  }

  // ---------------------------------------------------- the sequential meaning

  /** What a vault holds, and how often it was edited since it was created. */
  datatype Content = Content(revision: nat, payload: Payload)

  /** A database as its users see it, with no documents or lists. */
  datatype Summary = Summary(
    revision: nat,
    entries: set<CatalogEntry>,
    contents: map<VaultId, Content>,
    active: set<SlotId>,
    revoked: set<SlotId>,
    owner: SlotId)

  /** A committed call, with the payload that an edit was computed from. */
  datatype Commit = Commit(call: Call, read: Payload)

  ghost function EntrySet(c: seq<CatalogEntry>): set<CatalogEntry> {
    set e | e in c
  }

  ghost function Excluding(s: set<CatalogEntry>, id: VaultId): set<CatalogEntry> {
    set e | e in s && e.id != id
  }

  function ContentOf(v: Vault): Content {
    Content(v.revision, v.payload)
  }

  ghost function Contents(vaults: map<VaultId, Vault>): map<VaultId, Content> {
    map id | id in vaults :: ContentOf(vaults[id])
  }

  ghost predicate Enabled(s: Summary, c: Commit) {
    match c.call
    case Create(id, name, _) =>
      id !in s.contents && forall e | e in s.entries :: e.id != id && e.name != name
    case Rename(id, name) =>
      (exists e :: e in s.entries && e.id == id) && forall e | e in s.entries && e.id != id :: e.name != name
    case Edit(id, _) => id in s.contents && s.contents[id].payload == c.read
    case Remove(id) => id in s.contents
    case AddRecovery(slot) => slot !in s.active && slot !in s.revoked
    case Revoke(slot) => slot in s.active && exists other :: other in s.active && other != slot
    case ReplaceOwner(via, _) => via in s.active
  }

  ghost function Perform(s: Summary, call: Call): Summary {
    var t := if call.Edit? then s else s.(revision := s.revision + 1);
    match call
    case Create(id, name, payload) =>
      t.(entries := t.entries + {CatalogEntry(id, name)}, contents := t.contents[id := Content(0, payload)])
    case Rename(id, name) =>
      t.(entries := Excluding(t.entries, id) + {CatalogEntry(id, name)})
    case Edit(id, payload) =>
      if id in t.contents then t.(contents := t.contents[id := Content(t.contents[id].revision + 1, payload)]) else t
    case Remove(id) =>
      t.(entries := Excluding(t.entries, id), contents := t.contents - {id})
    case AddRecovery(slot) => t.(active := t.active + {slot})
    case Revoke(slot) => t.(active := t.active - {slot}, revoked := t.revoked + {slot})
    case ReplaceOwner(_, owner) => t.(owner := owner)
  }

  ghost function SlotIds(s: seq<RecoverySlot>, state: SlotState): set<SlotId> {
    set x | x in s && x.state == state :: x.id
  }

  ghost function Summarize(st: Store): Summary
    requires st.database.Some?
  {
    var d := st.database.value;
    Summary(d.revision, EntrySet(d.catalog), Contents(st.vaults),
            SlotIds(d.slots, Active), SlotIds(d.slots, Revoked), d.owner)
  }

  // ---------------------------------------------------------------- refinement

  ghost predicate DistinctEntries(c: seq<CatalogEntry>) {
    forall i, j | 0 <= i < j < |c| :: c[i].id != c[j].id && c[i].name != c[j].name
  }

  ghost predicate DistinctSlots(s: seq<RecoverySlot>) {
    forall i, j | 0 <= i < j < |s| :: s[i].id != s[j].id
  }

  /** A store whose catalog and vaults agree: the state every run stays in. */
  ghost predicate WellFormed(st: Store) {
    && st.database.Some?
    && DistinctEntries(st.database.value.catalog)
    && DistinctSlots(st.database.value.slots)
    && (forall id :: id in st.vaults <==> InCatalog(st.database.value.catalog, id))
    && (forall id | id in st.vaults :: st.vaults[id].id == id)
  }

  /**
   * An accepted request does to the summary exactly what its call means, on
   * the state it was accepted on, provided the compare-and-swap pinned what
   * the request was computed from.
   */
  lemma CommitRefines(st: Store, cached: Database, vaults: map<VaultId, Vault>, call: Call, r: Request)
    requires WellFormed(st) && Prepare(cached, vaults, call) == Some(r) && Submit(st, r).Ok?
    requires !call.Edit? ==> cached == st.database.value
    requires call.Edit? ==> call.id in st.vaults && vaults[call.id] == st.vaults[call.id]
    requires call.AddRecovery? ==> forall s | s in cached.slots :: s.id != call.slot
    ensures WellFormed(Submit(st, r).value)
    ensures Enabled(Summarize(st), Commit(call, if call.Edit? then vaults[call.id].payload else ""))
    ensures Summarize(Submit(st, r).value) == Perform(Summarize(st), call)
  {
    match call
    case Create(id, name, _) => CreateRefines(st, id, name, r.vault);
    case Rename(_, _) => RenameRefines(st, call, r);
    case Edit(_, _) => EditRefines(st, cached, vaults, call, r);
    case Remove(id) =>
      DropKeepsWellFormed(st, id);
      RemoveRefines(st, id, Dropped(cached.catalog, id));
    case AddRecovery(_) => AddRecoveryRefines(st, call, r);
    case Revoke(_) => RevokeRefines(st, call, r);
    case ReplaceOwner(_, _) => ReplaceOwnerRefines(st, call, r);
  }

  lemma CreateRefines(st: Store, id: VaultId, name: string, v: Vault)
    requires WellFormed(st) && id == v.id && v.revision == 0 && id !in st.vaults
             && !NameUsed(st.database.value.catalog, name)
    ensures var d := st.database.value;
            var st' := Store(Some(Reencrypted(d.(catalog := d.catalog + [CatalogEntry(id, name)]))),
                st.vaults[id := v]);
            && WellFormed(st')
            && Enabled(Summarize(st), Commit(Create(id, name, v.payload), ""))
            && Summarize(st') == Perform(Summarize(st), Create(id, name, v.payload))
  {
    var d, e := st.database.value, CatalogEntry(id, name);
    CreateKeepsWellFormed(st, e, v, Reencrypted(d.(catalog := d.catalog + [e])));
    AppendedCatalog(d.catalog, e);
    assert Contents(st.vaults[id := v]) == Contents(st.vaults)[id := Content(0, v.payload)];
  }

  lemma CreateKeepsWellFormed(st: Store, e: CatalogEntry, v: Vault, next: Database)
    requires WellFormed(st) && v.id == e.id && e.id !in st.vaults && !NameUsed(st.database.value.catalog, e.name)
    requires next.slots == st.database.value.slots && next.catalog == st.database.value.catalog + [e]
    ensures WellFormed(Store(Some(next), st.vaults[v.id := v]))
  {
    AppendedCatalog(st.database.value.catalog, e);
  }

  lemma AppendedCatalog(c: seq<CatalogEntry>, e: CatalogEntry)
    requires DistinctEntries(c) && !InCatalog(c, e.id) && !NameUsed(c, e.name)
    ensures DistinctEntries(c + [e])
    ensures forall id :: InCatalog(c + [e], id) <==> InCatalog(c, id) || id == e.id
    ensures EntrySet(c + [e]) == EntrySet(c) + {e}
    ensures forall x | x in c :: x.id != e.id && x.name != e.name
  {
    var c' := c + [e];
    forall id ensures InCatalog(c', id) <==> InCatalog(c, id) || id == e.id {
      if InCatalog(c, id) {
        var i :| 0 <= i < |c| && c[i].id == id;
        assert c'[i].id == id;
      }
      assert c'[|c|] == e;
    }
  }

  lemma RenameRefines(st: Store, call: Call, r: Request)
    requires WellFormed(st) && call.Rename? && Prepare(st.database.value, map[], call) == Some(r) && Submit(st, r).Ok?
    ensures WellFormed(Submit(st, r).value)
    ensures Enabled(Summarize(st), Commit(call, ""))
    ensures Summarize(Submit(st, r).value) == Perform(Summarize(st), call)
  {
    var d := st.database.value;
    RenamedCatalog(d.catalog, call.id, call.name);
    CatalogReplaced(st, Reencrypted(d.(catalog := Renamed(d.catalog, call.id, call.name))));
  }

  /** A document that differs in revision and catalog only. */
  lemma CatalogReplaced(st: Store, next: Database)
    requires WellFormed(st)
    requires next == Reencrypted(st.database.value.(catalog := next.catalog))
    ensures var st' := st.(database := Some(next));
            && Summarize(st') == Summarize(st).(revision := next.revision, entries := EntrySet(next.catalog))
            && (DistinctEntries(next.catalog)
                 && (forall id :: InCatalog(next.catalog, id) <==> InCatalog(st.database.value.catalog, id))
                ==> WellFormed(st'))
  {}

  lemma RenamedCatalog(c: seq<CatalogEntry>, id: VaultId, name: string)
    requires DistinctEntries(c) && InCatalog(c, id) && !NameTaken(c, id, name)
    ensures DistinctEntries(Renamed(c, id, name))
    ensures forall x :: InCatalog(Renamed(c, id, name), x) <==> InCatalog(c, x)
    ensures EntrySet(Renamed(c, id, name)) == Excluding(EntrySet(c), id) + {CatalogEntry(id, name)}
    ensures exists x :: x in c && x.id == id
    ensures forall x | x in c && x.id != id :: x.name != name
  {
    var c' := Renamed(c, id, name);
    var k :| 0 <= k < |c| && c[k].id == id;
    assert c[k] in c && c'[k] == CatalogEntry(id, name);
    forall x ensures InCatalog(c', x) <==> InCatalog(c, x) {
      assert forall i | 0 <= i < |c| :: c'[i].id == c[i].id;
    }
    forall x ensures x in c' <==> (x in c && x.id != id) || x == CatalogEntry(id, name) {
      if x in c && x.id != id {
        var i :| 0 <= i < |c| && c[i] == x;
        assert c'[i] == x;
      }
    }
  }

  lemma EditRefines(st: Store, cached: Database, vaults: map<VaultId, Vault>, call: Call, r: Request)
    requires WellFormed(st) && call.Edit? && Prepare(cached, vaults, call) == Some(r) && Submit(st, r).Ok?
    requires call.id in st.vaults && vaults[call.id] == st.vaults[call.id]
    ensures WellFormed(Submit(st, r).value)
    ensures Enabled(Summarize(st), Commit(call, vaults[call.id].payload))
    ensures Summarize(Submit(st, r).value) == Perform(Summarize(st), call)
  {
    EditKeepsWellFormed(st, r.vault);
    ContentsUpdated(st.vaults, r.vault);
  }

  lemma EditKeepsWellFormed(st: Store, v: Vault)
    requires WellFormed(st) && v.id in st.vaults
    ensures WellFormed(st.(vaults := st.vaults[v.id := v]))
  {}

  lemma ContentsUpdated(vaults: map<VaultId, Vault>, v: Vault)
    ensures Contents(vaults[v.id := v]) == Contents(vaults)[v.id := ContentOf(v)]
  {}

  lemma RemoveRefines(st: Store, id: VaultId, c': seq<CatalogEntry>)
    requires st.database.Some? && id in st.vaults && c' == Dropped(st.database.value.catalog, id)
    ensures Enabled(Summarize(st), Commit(Remove(id), ""))
    ensures Summarize(Store(Some(Reencrypted(st.database.value.(catalog := c'))), st.vaults - {id}))
            == Perform(Summarize(st), Remove(id))
  {
    DroppedCatalog(st.database.value.catalog, id);
    ContentsWithout(st.vaults, id);
  }

  lemma ContentsWithout(vaults: map<VaultId, Vault>, id: VaultId)
    ensures Contents(vaults - {id}) == Contents(vaults) - {id}
  {}

  lemma DropKeepsWellFormed(st: Store, id: VaultId)
    requires WellFormed(st)
    ensures var d := st.database.value;
            WellFormed(Store(Some(Reencrypted(d.(catalog := Dropped(d.catalog, id)))), st.vaults - {id}))
  {
    DroppedCatalog(st.database.value.catalog, id);
  }

  lemma DroppedCatalog(c: seq<CatalogEntry>, id: VaultId)
    ensures forall x :: InCatalog(Dropped(c, id), x) <==> InCatalog(c, x) && x != id
    ensures EntrySet(Dropped(c, id)) == Excluding(EntrySet(c), id)
  {
    var c' := Dropped(c, id);
    forall x ensures InCatalog(c', x) <==> InCatalog(c, x) && x != id {
      if InCatalog(c', x) {
        var i :| 0 <= i < |c'| && c'[i].id == x;
        assert c'[i] in c;
      }
      if InCatalog(c, x) && x != id {
        var i :| 0 <= i < |c| && c[i].id == x;
        assert c[i] in c';
      }
    }
  }

  lemma AddRecoveryRefines(st: Store, call: Call, r: Request)
    requires WellFormed(st) && call.AddRecovery? && Prepare(st.database.value, map[], call) == Some(r)
             && Submit(st, r).Ok?
    requires forall s | s in st.database.value.slots :: s.id != call.slot
    ensures WellFormed(Submit(st, r).value)
    ensures Enabled(Summarize(st), Commit(call, ""))
    ensures Summarize(Submit(st, r).value) == Perform(Summarize(st), call)
  {
    var s := st.database.value.slots;
    var s' := s + [RecoverySlot(call.slot, Active)];
    assert SlotIds(s', Active) == SlotIds(s, Active) + {call.slot} by {
      assert RecoverySlot(call.slot, Active) in s';
      forall id | id in SlotIds(s, Active) ensures id in SlotIds(s', Active) {
        assert RecoverySlot(id, Active) in s && RecoverySlot(id, Active) in s';
      }
    }
    assert SlotIds(s', Revoked) == SlotIds(s, Revoked) by {
      forall id | id in SlotIds(s, Revoked) ensures id in SlotIds(s', Revoked) {
        assert RecoverySlot(id, Revoked) in s && RecoverySlot(id, Revoked) in s';
      }
    }
    assert DistinctSlots(s');
  }

  lemma RevokeRefines(st: Store, call: Call, r: Request)
    requires WellFormed(st) && call.Revoke? && Prepare(st.database.value, map[], call) == Some(r) && Submit(st, r).Ok?
    ensures WellFormed(Submit(st, r).value)
    ensures Enabled(Summarize(st), Commit(call, ""))
    ensures Summarize(Submit(st, r).value) == Perform(Summarize(st), call)
  {
    var d := st.database.value;
    RevokedSlots(d.slots, call.slot);
    SecondActive(d.slots, call.slot);
    SlotsReplaced(st, Reencrypted(d.(slots := WithRevoked(d.slots, call.slot))));
  }

  /** A document that differs in revision and recovery slots only. */
  lemma SlotsReplaced(st: Store, next: Database)
    requires WellFormed(st)
    requires next == Reencrypted(st.database.value.(slots := next.slots))
    ensures var st' := st.(database := Some(next));
            && Summarize(st')
               == Summarize(st).(revision := next.revision, active := SlotIds(next.slots, Active),
                   revoked := SlotIds(next.slots, Revoked))
            && (DistinctSlots(next.slots) ==> WellFormed(st'))
  {}

  lemma RevokedSlots(s: seq<RecoverySlot>, slot: SlotId)
    requires DistinctSlots(s) && HasActive(s, slot)
    ensures DistinctSlots(WithRevoked(s, slot))
    ensures slot in SlotIds(s, Active)
    ensures SlotIds(WithRevoked(s, slot), Active) == SlotIds(s, Active) - {slot}
    ensures SlotIds(WithRevoked(s, slot), Revoked) == SlotIds(s, Revoked) + {slot}
  {
    var k :| 0 <= k < |s| && s[k] == RecoverySlot(slot, Active);
    assert s[k] in s;
    forall id ensures id in SlotIds(WithRevoked(s, slot), Active) <==> id in SlotIds(s, Active) && id != slot
              ensures id in SlotIds(WithRevoked(s, slot), Revoked) <==> id in SlotIds(s, Revoked) || id == slot {
      RevokedMembers(s, slot, k, id);
    }
  }

  lemma RevokedMembers(s: seq<RecoverySlot>, slot: SlotId, k: nat, id: SlotId)
    requires k < |s| && s[k] == RecoverySlot(slot, Active) && DistinctSlots(s)
    ensures id in SlotIds(WithRevoked(s, slot), Active) <==> id in SlotIds(s, Active) && id != slot
    ensures id in SlotIds(WithRevoked(s, slot), Revoked) <==> id in SlotIds(s, Revoked) || id == slot
  {
    var s' := WithRevoked(s, slot);
    assert s'[k] == RecoverySlot(slot, Revoked) && s'[k] in s';
    forall st: SlotState | id != slot ensures RecoverySlot(id, st) in s' <==> RecoverySlot(id, st) in s {
      if RecoverySlot(id, st) in s {
        var i :| 0 <= i < |s| && s[i] == RecoverySlot(id, st);
        assert s'[i] == s[i];
      }
    }
    assert forall st: SlotState :: id in SlotIds(s, st) <==> RecoverySlot(id, st) in s;
    assert forall st: SlotState :: id in SlotIds(s', st) <==> RecoverySlot(id, st) in s';
    assert RecoverySlot(slot, Active) !in s';
  }

  /** Two active list positions in a list of distinct ids give two active ids. */
  lemma SecondActive(s: seq<RecoverySlot>, slot: SlotId)
    requires DistinctSlots(s) && |ActiveSlots(s)| > 1
    ensures exists other :: other in SlotIds(s, Active) && other != slot
  {
    var a := ActiveSlots(s);
    ActiveDistinct(s);
    assert a[0] in a && a[1] in a && a[0].id != a[1].id;
    assert a[0].id in SlotIds(s, Active) && a[1].id in SlotIds(s, Active);
  }

  lemma ActiveDistinct(s: seq<RecoverySlot>)
    requires DistinctSlots(s)
    ensures DistinctSlots(ActiveSlots(s))
  {
    if s == [] {
    } else {
      var tail := s[1..];
      ActiveDistinct(tail);
      var a := ActiveSlots(tail);
      forall j | 0 <= j < |a| ensures a[j].id != s[0].id {
        assert a[j] in tail;
        var k :| 0 <= k < |tail| && tail[k] == a[j];
        assert s[k + 1] == a[j];
      }
    }
  }

  lemma ReplaceOwnerRefines(st: Store, call: Call, r: Request)
    requires WellFormed(st) && call.ReplaceOwner? && Prepare(st.database.value, map[], call) == Some(r)
             && Submit(st, r).Ok?
    ensures WellFormed(Submit(st, r).value)
    ensures Enabled(Summarize(st), Commit(call, ""))
    ensures Summarize(Submit(st, r).value) == Perform(Summarize(st), call)
  {
    var s := st.database.value.slots;
    var k :| 0 <= k < |s| && s[k] == RecoverySlot(call.via, Active);
    assert s[k] in s;
  }

  // ---------------------------------------------------------- what goes through

  /** What an edit of this call would be computed from. */
  ghost function Reads(s: Summary, call: Call): Payload {
    if call.Edit? && call.id in s.contents then s.contents[call.id].payload else ""
  }

  /** The identifiers that the call drew are new. */
  ghost predicate Drew(s: Summary, call: Call) {
    match call
    case Create(id, _, _) => id !in s.contents
    case AddRecovery(slot) => slot !in s.active && slot !in s.revoked
    case _ => true
  }

  /** There is room for what the call adds. */
  ghost predicate HasRoom(s: Summary, call: Call) {
    match call
    case Create(_, _, _) => |s.contents| < 1_000
    case AddRecovery(_) => |s.active| + |s.revoked| < 32
    case _ => true
  }

  ghost predicate Bounded(s: Summary) {
    |s.contents| <= 1_000 && |s.active| + |s.revoked| <= 32
  }

  ghost function CatalogIds(c: seq<CatalogEntry>): set<VaultId> {
    set e | e in c :: e.id
  }

  lemma {:induction false} CatalogSize(c: seq<CatalogEntry>)
    requires DistinctEntries(c)
    ensures |CatalogIds(c)| == |c|
  {
    if c == [] {
    } else {
      var init, last := c[..|c| - 1], c[|c| - 1];
      CatalogSize(init);
      assert c == init + [last];
      assert last.id !in CatalogIds(init);
      assert CatalogIds(c) == CatalogIds(init) + {last.id};
    }
  }

  lemma ContentsSize(st: Store)
    requires WellFormed(st)
    ensures |Summarize(st).contents| == |st.database.value.catalog| == |st.vaults|
  {
    var c, s := st.database.value.catalog, Summarize(st);
    CatalogSize(c);
    forall id ensures id in CatalogIds(c) <==> InCatalog(c, id) {
      if InCatalog(c, id) {
        var i :| 0 <= i < |c| && c[i].id == id;
        assert c[i] in c;
      }
    }
    assert s.contents.Keys == CatalogIds(c) == st.vaults.Keys;
    assert |s.contents| == |s.contents.Keys| && |st.vaults| == |st.vaults.Keys|;
  }

  lemma SlotIdsAdd(s: seq<RecoverySlot>, x: RecoverySlot, state: SlotState)
    ensures SlotIds(s + [x], state) == SlotIds(s, state) + if x.state == state then {x.id} else {}
  {
    forall id ensures id in SlotIds(s + [x], state) <==> id in SlotIds(s, state) || (x.state == state && id == x.id) {
      assert id in SlotIds(s, state) <==> RecoverySlot(id, state) in s;
      assert id in SlotIds(s + [x], state) <==> RecoverySlot(id, state) in s + [x];
    }
  }

  lemma {:induction false} SlotsSize(s: seq<RecoverySlot>)
    requires DistinctSlots(s)
    ensures |SlotIds(s, Active)| + |SlotIds(s, Revoked)| == |s|
  {
    if s == [] {
    } else {
      var init, last := s[..|s| - 1], s[|s| - 1];
      SlotsSize(init);
      assert s == init + [last];
      SlotIdsAdd(init, last, Active);
      SlotIdsAdd(init, last, Revoked);
      assert forall x | x in init :: x.id != last.id;
    }
  }

  lemma ActiveIsListed(s: seq<RecoverySlot>, id: SlotId)
    ensures HasActive(s, id) <==> id in SlotIds(s, Active)
  {
    if id in SlotIds(s, Active) {
      var i :| 0 <= i < |s| && s[i] == RecoverySlot(id, Active);
      assert HasActive(s, id);
    }
    if HasActive(s, id) {
      var i :| 0 <= i < |s| && s[i] == RecoverySlot(id, Active);
      assert s[i] in s;
    }
  }

  /** Revoking is refused exactly for the last active slot and for one that is not active. */
  lemma RevocableIff(s: seq<RecoverySlot>, slot: SlotId)
    requires DistinctSlots(s)
    ensures HasActive(s, slot) && |ActiveSlots(s)| > 1
            <==> slot in SlotIds(s, Active) && exists other :: other in SlotIds(s, Active) && other != slot
  {
    ActiveIsListed(s, slot);
    if |ActiveSlots(s)| > 1 { SecondActive(s, slot); }
    if slot in SlotIds(s, Active) {
      if other :| other in SlotIds(s, Active) && other != slot {
        assert RecoverySlot(slot, Active) in ActiveSlots(s) && RecoverySlot(other, Active) in ActiveSlots(s);
        TwoMembers(ActiveSlots(s), RecoverySlot(slot, Active), RecoverySlot(other, Active));
      }
    }
  }

  lemma TwoMembers<T>(s: seq<T>, x: T, y: T)
    requires x in s && y in s && x != y
    ensures |s| > 1
  {
    var i :| 0 <= i < |s| && s[i] == x;
    var j :| 0 <= j < |s| && s[j] == y;
  }

  lemma NamesListed(c: seq<CatalogEntry>, id: VaultId, name: string)
    ensures NameUsed(c, name) <==> exists e :: e in EntrySet(c) && e.name == name
    ensures NameTaken(c, id, name) <==> exists e :: e in EntrySet(c) && e.id != id && e.name == name
    ensures InCatalog(c, id) <==> exists e :: e in EntrySet(c) && e.id == id
  {
    forall i | 0 <= i < |c| ensures c[i] in EntrySet(c) {}
    forall e | e in EntrySet(c) ensures exists i :: 0 <= i < |c| && c[i] == e {}
  }

  lemma CreatePreparedIff(st: Store, call: Call)
    requires WellFormed(st) && call.Create? && Drew(Summarize(st), call)
    ensures Prepare(st.database.value, st.vaults, call).Some?
            <==> Enabled(Summarize(st), Commit(call, "")) && HasRoom(Summarize(st), call)
  {
    var c, s := st.database.value.catalog, Summarize(st);
    NamesListed(c, call.id, call.name);
    ContentsSize(st);
    assert call.id !in st.vaults && !InCatalog(c, call.id);
    if !NameUsed(c, call.name) {
      forall e | e in s.entries ensures e.id != call.id && e.name != call.name {}
    }
  }

  lemma RenamePreparedIff(st: Store, call: Call)
    requires WellFormed(st) && call.Rename?
    ensures Prepare(st.database.value, st.vaults, call).Some? <==> Enabled(Summarize(st), Commit(call, ""))
  {
    NamesListed(st.database.value.catalog, call.id, call.name);
  }

  /**
   * Nothing that the summary enables is refused: on the stored document a call
   * becomes a request exactly when it is enabled and there is room for it.
   */
  lemma PreparedIff(st: Store, call: Call)
    requires WellFormed(st) && Drew(Summarize(st), call)
    ensures var s := Summarize(st);
            Prepare(st.database.value, st.vaults, call).Some?
            <==> Enabled(s, Commit(call, Reads(s, call))) && HasRoom(s, call)
  {
    var slots := st.database.value.slots;
    match call
    case Create(_, _, _) => CreatePreparedIff(st, call);
    case Rename(_, _) => RenamePreparedIff(st, call);
    case Edit(_, _) =>
    case Remove(_) =>
    case AddRecovery(_) => SlotsSize(slots);
    case Revoke(slot) => RevocableIff(slots, slot);
    case ReplaceOwner(via, _) => ActiveIsListed(slots, via);
  }

  /** And no such request is refused by a store within its limits. */
  lemma PreparedIsAccepted(st: Store, call: Call, r: Request)
    requires WellFormed(st) && Bounded(Summarize(st)) && Drew(Summarize(st), call)
    requires Prepare(st.database.value, st.vaults, call) == Some(r)
    ensures Submit(st, r).Ok?
  {
    var s := Summarize(st);
    assert |st.database.value.slots| == |s.active| + |s.revoked| by { SlotsSize(st.database.value.slots); }
    assert |st.database.value.catalog| == |st.vaults| by { ContentsSize(st); }
    FitsIsAccepted(st, call, r);
  }

  lemma FitsIsAccepted(st: Store, call: Call, r: Request)
    requires st.database.Some? && Prepare(st.database.value, st.vaults, call) == Some(r)
    requires |st.database.value.slots| <= MAX_RECOVERY_SLOTS && |st.database.value.catalog| == |st.vaults|
    requires call.Create? ==> call.id !in st.vaults
    requires forall id | id in st.vaults :: st.vaults[id].id == id
    ensures Submit(st, r).Ok?
  {}

  /** Calls with room keep the limits. */
  lemma PerformBounded(s: Summary, c: Commit)
    requires Bounded(s) && Enabled(s, c) && HasRoom(s, c.call)
    ensures Bounded(Perform(s, c.call))
  {
    var t := Perform(s, c.call);
    match c.call
    case Create(id, _, _) => assert t.contents.Keys == s.contents.Keys + {id};
    case Rename(_, _) =>
    case Edit(id, _) => assert t.contents.Keys == s.contents.Keys;
    case Remove(id) => assert t.contents.Keys == s.contents.Keys - {id};
    case AddRecovery(slot) =>
    case Revoke(slot) =>
    case ReplaceOwner(_, _) =>
  }

  // ------------------------------------------------------ sequential histories

  ghost function Replay(s: Summary, log: seq<Commit>): Summary
    decreases log
  {
    if log == [] then s else Perform(Replay(s, log[..|log| - 1]), log[|log| - 1].call)
  }

  /** Every commit of the log was enabled on the result of all the earlier ones. */
  ghost predicate Legal(s: Summary, log: seq<Commit>) {
    forall i | 0 <= i < |log| :: Enabled(Replay(s, log[..i]), log[i])
  }

  lemma LegalExtends(s: Summary, log: seq<Commit>, c: Commit)
    requires Legal(s, log) && Enabled(Replay(s, log), c)
    ensures Legal(s, log + [c])
    ensures Replay(s, log + [c]) == Perform(Replay(s, log), c.call)
  {
    var log' := log + [c];
    assert log'[..|log|] == log;
    forall i | 0 <= i < |log'| ensures Enabled(Replay(s, log'[..i]), log'[i]) {
      assert i < |log| ==> log'[..i] == log[..i];
    }
  }

  /** Names and ids are unique, and catalog and contents are about the same vaults. */
  ghost predicate Consistent(s: Summary) {
    && (forall e, f | e in s.entries && f in s.entries && e != f :: e.id != f.id && e.name != f.name)
    && (forall id :: id in s.contents <==> exists e :: e in s.entries && e.id == id)
  }

  lemma CreateConsistent(s: Summary, id: VaultId, name: string, payload: Payload)
    requires Consistent(s) && Enabled(s, Commit(Create(id, name, payload), ""))
    ensures Consistent(Perform(s, Create(id, name, payload)))
  {
    var t, e := Perform(s, Create(id, name, payload)), CatalogEntry(id, name);
    assert e in t.entries;
    assert forall x :: x in t.entries <==> x in s.entries || x == e;
  }

  lemma RenameConsistent(s: Summary, id: VaultId, name: string)
    requires Consistent(s) && Enabled(s, Commit(Rename(id, name), ""))
    ensures Consistent(Perform(s, Rename(id, name)))
  {
    var t, e := Perform(s, Rename(id, name)), CatalogEntry(id, name);
    assert e in t.entries;
    assert forall x :: x in t.entries <==> (x in s.entries && x.id != id) || x == e;
  }

  lemma RemoveConsistent(s: Summary, id: VaultId)
    requires Consistent(s)
    ensures Consistent(Perform(s, Remove(id)))
  {
    assert forall x :: x in Perform(s, Remove(id)).entries <==> x in s.entries && x.id != id;
  }

  lemma PerformConsistent(s: Summary, c: Commit)
    requires Consistent(s) && Enabled(s, c)
    ensures Consistent(Perform(s, c.call))
    ensures s.active != {} ==> Perform(s, c.call).active != {}
  {
    match c.call
    case Create(id, name, payload) => CreateConsistent(s, id, name, payload);
    case Rename(id, name) => RenameConsistent(s, id, name);
    case Edit(_, _) =>
    case Remove(id) => RemoveConsistent(s, id);
    case AddRecovery(slot) => assert slot in Perform(s, c.call).active;
    case Revoke(slot) =>
      var other :| other in s.active && other != slot;
      assert other in Perform(s, c.call).active;
    case ReplaceOwner(_, _) =>
  }

  /** How many commits of a history changed the catalog document. */
  function CatalogChanges(log: seq<Commit>): nat {
    if log == [] then 0
    else CatalogChanges(log[..|log| - 1]) + if log[|log| - 1].call.Edit? then 0 else 1
  }

  /** The vault was created in the history, and, from then on or from its start, how often it was edited. */
  predicate CreatedIn(log: seq<Commit>, id: VaultId) {
    exists i | 0 <= i < |log| :: Creates(log[i].call, id)
  }

  function EditsSince(log: seq<Commit>, id: VaultId): nat {
    if log == [] then 0
    else
      var last := log[|log| - 1].call;
      if Creates(last, id) then 0
      else EditsSince(log[..|log| - 1], id) + if Edits(last, id) then 1 else 0
  }

  lemma LegalPrefix(s: Summary, log: seq<Commit>)
    requires Legal(s, log) && log != []
    ensures Legal(s, log[..|log| - 1]) && Enabled(Replay(s, log[..|log| - 1]), log[|log| - 1])
  {
    var init := log[..|log| - 1];
    forall i | 0 <= i < |init| ensures Enabled(Replay(s, init[..i]), init[i]) {
      assert init[..i] == log[..i];
    }
  }

  /**
   * Along any legal history names and ids stay unique, the database revision
   * counts the catalog changes without a gap, and once a recovery slot is
   * active one always is.
   */
  lemma {:induction false} HistoryConsistent(s: Summary, log: seq<Commit>)
    requires Consistent(s) && Legal(s, log)
    ensures Consistent(Replay(s, log))
    ensures Replay(s, log).revision == s.revision + CatalogChanges(log)
    ensures s.active != {} ==> Replay(s, log).active != {}
    decreases log
  {
    if log == [] {
    } else {
      var init := log[..|log| - 1];
      LegalPrefix(s, log);
      HistoryConsistent(s, init);
      PerformConsistent(Replay(s, init), log[|log| - 1]);
    }
  }

  lemma CreatedInLast(log: seq<Commit>, id: VaultId)
    requires log != []
    ensures CreatedIn(log, id) <==> CreatedIn(log[..|log| - 1], id) || Creates(log[|log| - 1].call, id)
  {
    var init := log[..|log| - 1];
    if CreatedIn(init, id) {
      var i :| 0 <= i < |init| && Creates(init[i].call, id);
      assert log[i] == init[i];
    }
    if CreatedIn(log, id) {
      var i :| 0 <= i < |log| && Creates(log[i].call, id);
      assert i < |init| ==> init[i] == log[i];
    }
  }

  predicate Creates(call: Call, id: VaultId) {
    call.Create? && call.id == id
  }

  predicate Edits(call: Call, id: VaultId) {
    call.Edit? && call.id == id
  }

  lemma PerformedRevision(s: Summary, c: Commit, id: VaultId)
    requires Enabled(s, c) && id in Perform(s, c.call).contents
    ensures !Creates(c.call, id) ==> id in s.contents
    ensures Perform(s, c.call).contents[id].revision
            == if Creates(c.call, id) then 0 else s.contents[id].revision + if Edits(c.call, id) then 1 else 0
  {}

  /** Along any legal history the revision of a vault counts its edits without a gap, from 0 at its creation. */
  lemma {:induction false} VaultRevisionsCountEdits(s: Summary, log: seq<Commit>, id: VaultId)
    requires Legal(s, log) && id in Replay(s, log).contents
    ensures CreatedIn(log, id) || id in s.contents
    ensures Replay(s, log).contents[id].revision
            == EditsSince(log, id) + if CreatedIn(log, id) then 0 else s.contents[id].revision
    decreases log
  {
    if log == [] {
    } else {
      var init, last := log[..|log| - 1], log[|log| - 1];
      LegalPrefix(s, log);
      CreatedInLast(log, id);
      PerformedRevision(Replay(s, init), last, id);
      if !Creates(last.call, id) { VaultRevisionsCountEdits(s, init, id); }
    }
  }

  /** A history goes on from where a part of it led. */
  lemma {:induction false} ReplaySplit(s: Summary, a: seq<Commit>, b: seq<Commit>)
    ensures Replay(s, a + b) == Replay(Replay(s, a), b)
    decreases b
  {
    if b == [] {
      assert a + b == a;
    } else {
      assert (a + b)[..|a + b| - 1] == a + b[..|b| - 1];
      ReplaySplit(s, a, b[..|b| - 1]);
    }
  }

  lemma LegalSplit(s: Summary, a: seq<Commit>, b: seq<Commit>)
    requires Legal(s, a + b)
    ensures Legal(s, a) && Legal(Replay(s, a), b)
  {
    var log := a + b;
    forall i | 0 <= i < |a| ensures Enabled(Replay(s, a[..i]), a[i]) {
      assert log[..i] == a[..i] && log[i] == a[i];
    }
    forall i | 0 <= i < |b| ensures Enabled(Replay(Replay(s, a), b[..i]), b[i]) {
      assert log[..|a| + i] == a + b[..i] && log[|a| + i] == b[i];
      ReplaySplit(s, a, b[..i]);
    }
  }
}
