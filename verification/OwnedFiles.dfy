/**
 * The flows that publish a key file or recovery kit around a store mutation,
 * and clean it up again when they fail: initialization, adding a recovery
 * slot, using a recovery kit, and rolling a migration's initialization back.
 * A key file may be removed only when the store provably does not name its
 * slot; otherwise a stored database would lose the key that opens it.
 */
module OwnedFiles {
  import opened Wrappers
  import opened DatabaseModel
  import opened Anchors
  import opened AnchoredMutations
  import opened Operations
  import opened Faults

  /** A destination path: free, someone else's file, this run's live file, or its emptied remains. */
  datatype KeyFile = Free | Foreign | Live(slot: SlotId) | Tombstone

  /** Creating a file exclusively: refused, done and known, or reported as uncertain. */
  datatype Creation = NotPublished | Published | Uncertain(happened: bool)

  /** A cleanup or rollback call: done, failed without effect, failed after its effect. */
  datatype UndoFault = Undone | UndoFailed | UndoneUnacknowledged

  /** What the profile registry reported about the new binding. */
  datatype Binding = NotRequested | BindingThrows | BindingForged | BindingNotPublished | BindingPublished
      | BindingUncertain

  datatype Result = Initialized | OwnershipKept | OwnerReplaced | Added | Ambiguous | CleanlyFailed | CleanupFailed

  class Disk {
    var store: Store
    var key: KeyFile          // the key file or recovery kit being published
    var anchor: AnchorFile    // the anchor beside it
    var keyOwned: bool        // this run holds a publication capability for the key file
    var anchorOwned: bool

    constructor (store: Store, key: KeyFile, anchor: AnchorFile)
      ensures this.store == store && this.key == key && this.anchor == anchor && !keyOwned && !anchorOwned
    {
      this.store, this.key, this.anchor, keyOwned, anchorOwned := store, key, anchor, false, false;
    }
  }

  /** The stored document names this slot, so the slot's key can open it. */
  predicate Names(st: Store, slot: SlotId) {
    && st.database.Some?
    && (st.database.value.owner == slot || exists i | 0 <= i < |st.database.value.slots| ::
         st.database.value.slots[i].id == slot)
  }

  /**
   * The safety of every flow: a slot that the stored document names has its
   * live key file. In particular a key file was emptied only if the store does
   * not name its slot.
   */
  ghost predicate NoOrphan(disk: Disk, slot: SlotId)
    reads disk
  {
    Names(disk.store, slot) ==> disk.key == Live(slot)
  }

  /** The file was written, whatever was reported. */
  predicate Took(c: Creation) {
    c.Published? || (c.Uncertain? && c.happened)
  }

  method CreateKey(disk: Disk, slot: SlotId, c: Creation) returns (ok: bool)
    modifies disk`key, disk`keyOwned
    ensures ok <==> old(disk.key) == Free && c.Published?
    ensures disk.key == if old(disk.key) == Free && Took(c) then Live(slot) else old(disk.key)
    ensures disk.keyOwned <==> old(disk.keyOwned) || (old(disk.key) == Free && !c.NotPublished?)
  {
    if disk.key != Free || c.NotPublished? { return false; }
    disk.keyOwned := true;
    if c.Published? || c.happened { disk.key := Live(slot); }
    return c.Published?;
  }

  method CreateAnchor(disk: Disk, a: Anchor, c: Creation) returns (ok: bool)
    modifies disk`anchor, disk`anchorOwned
    ensures ok <==> old(disk.anchor) == Missing && c.Published?
    ensures disk.anchor == if old(disk.anchor) == Missing && Took(c) then Authentic(a) else old(disk.anchor)
    ensures disk.anchorOwned <==> old(disk.anchorOwned) || (old(disk.anchor) == Missing && !c.NotPublished?)
  {
    if disk.anchor != Missing || c.NotPublished? { return false; }
    disk.anchorOwned := true;
    if c.Published? || c.happened { disk.anchor := Authentic(a); }
    return c.Published?;
  }

  /** Empties the files this run owns, anchor first. Emptied anchors are no longer authentic. */
  method Cleanup(disk: Disk, anchorUndo: UndoFault, keyUndo: UndoFault) returns (clean: bool)
    modifies disk`key, disk`anchor
    ensures disk.key == if disk.keyOwned && !keyUndo.UndoFailed? then Tombstone else old(disk.key)
    ensures disk.anchor == if disk.anchorOwned && !anchorUndo.UndoFailed? then Corrupt else old(disk.anchor)
    ensures clean <==> (disk.keyOwned ==> keyUndo.Undone?) && (disk.anchorOwned ==> anchorUndo.Undone?)
  {
    clean := true;
    if disk.anchorOwned {
      if !anchorUndo.UndoFailed? { disk.anchor := Corrupt; }
      if !anchorUndo.Undone? { clean := false; }
    }
    if disk.keyOwned {
      if !keyUndo.UndoFailed? { disk.key := Tombstone; }
      if !keyUndo.Undone? { clean := false; }
    }
  }

  // -------------------------------------------------------------- initialization

  datatype InitFaults = InitFaults(
    key: Creation,
    create: StoreCall,
    listing: ReadFault,
    anchor: Creation,
    anchorRead: ReadFault,
    binding: Binding,
    release: ReadFault,
    hasRollback: bool,
    rollback: UndoFault,
    anchorUndo: UndoFault,
    keyUndo: UndoFault)

  /** Rolling back removes this database and no other. */
  function RolledBack(st: Store, id: string): Store {
    if st.database.Some? && st.database.value.id == id then Store(None, map[]) else st
  }

  /** Everything up to the binding succeeded. */
  ghost predicate ReachesBinding(st: Store, key: KeyFile, anchor: AnchorFile, f: InitFaults) {
    && key == Free && f.key.Published?
    && st.database.None? && f.create == Attempted(NoFault) && f.listing.Readable?
    && anchor == Missing && f.anchor.Published? && f.anchorRead.Readable?
  }

  /** The binding was published, or none was asked for. */
  predicate Bound(f: InitFaults) {
    f.binding.NotRequested? || f.binding.BindingPublished?
  }

  /** The binding is in the registry, or may be. */
  predicate MayBeBound(f: InitFaults) {
    f.binding.BindingPublished? || f.binding.BindingThrows? || f.binding.BindingForged? || f.binding.BindingUncertain?
  }

  /** The key file was published, and the store did not prove that it holds no such database. */
  ghost predicate MayExist(st: Store, key: KeyFile, f: InitFaults) {
    && key == Free && f.key.Published?
    && !(f.create.Rejected? && ProvenRejection(f.create.code))
    && !(f.create == Attempted(NoFault) && st.database.Some?)
  }

  method Initialize(disk: Disk, database: Database, forMigration: bool, f: InitFaults) returns (r: Result)
    requires !Names(disk.store, database.owner)
    requires disk.store.database.Some? ==> disk.store.database.value.id != database.id
    requires disk.key == Free || disk.key == Foreign
    requires !disk.keyOwned && !disk.anchorOwned
    modifies disk
    ensures NoOrphan(disk, database.owner)
    // someone else's files and databases are never touched
    ensures old(disk.key) == Foreign ==> disk.key == Foreign
    ensures old(disk.anchor) != Missing ==> disk.anchor == old(disk.anchor)
    ensures old(disk.store).database.Some? ==> disk.store == old(disk.store)
    ensures disk.store == old(disk.store) || disk.store == Store(Some(database), map[])
            || disk.store == Store(None, map[])
    // success
    ensures r == Initialized || r == OwnershipKept ==>
              && ReachesBinding(old(disk.store), old(disk.key), old(disk.anchor), f)
              && disk.store == Store(Some(database), map[])
              && disk.key == Live(database.owner) && disk.keyOwned
              && disk.anchor == Authentic(AnchorOf(database, map[])) && disk.anchorOwned
              && (f.binding.NotRequested? || f.binding.BindingPublished?)
    // it succeeds exactly when every call up to the binding did and the binding did not fail
    ensures r == Initialized <==>
              && ReachesBinding(old(disk.store), old(disk.key), old(disk.anchor), f) && Bound(f)
              && !forMigration && f.release.Readable?
    ensures r == OwnershipKept <==>
              && ReachesBinding(old(disk.store), old(disk.key), old(disk.anchor), f) && Bound(f)
              && forMigration && f.hasRollback
    // and otherwise it is ambiguous exactly when a binding may be published, only the release failed,
    // or a database that may exist was not provably rolled back
    ensures r == Ambiguous <==>
              && r != Initialized && r != OwnershipKept
              && (var reached := ReachesBinding(old(disk.store), old(disk.key), old(disk.anchor), f);
                  || (reached && MayBeBound(f) && !f.binding.BindingPublished?)
                  || (reached && Bound(f) && !forMigration)
                  || (MayExist(old(disk.store), old(disk.key), f) && !(f.hasRollback && f.rollback.Undone?)))
    // a failure that is not ambiguous leaves no such database
    ensures r == CleanlyFailed || r == CleanupFailed ==> !Names(disk.store, database.owner)
    ensures r == CleanlyFailed && disk.keyOwned ==> disk.key == Tombstone
    ensures f.anchorUndo.Undone? && f.keyUndo.Undone? ==> r != CleanupFailed
    ensures r == CleanlyFailed && disk.keyOwned ==> f.keyUndo.Undone?
    ensures r == CleanlyFailed && disk.anchorOwned ==> f.anchorUndo.Undone?
    // an ambiguous outcome removes nothing
    ensures r == Ambiguous ==> disk.key == Live(database.owner)
    // a binding that may have reached the registry keeps the database and its files
    ensures ReachesBinding(old(disk.store), old(disk.key), old(disk.anchor), f)
            && (if forMigration && !f.hasRollback then f.binding.NotRequested? || MayBeBound(f) else MayBeBound(f)) ==>
              && disk.store == Store(Some(database), map[]) && disk.key == Live(database.owner)
              && disk.anchor == Authentic(AnchorOf(database, map[]))
    ensures r != Initialized && r != OwnershipKept && r != OwnerReplaced && r != Added ==>
              r == Ambiguous || r == CleanlyFailed || r == CleanupFailed
  {
    var databaseMayExist, bindingUncertain, retain := false, false, false;
    label attempt: {
      var created := CreateKey(disk, database.owner, f.key);
      if !created { break attempt; }
      databaseMayExist := true;
      var (answer, next) := Ask(disk.store, CreateDatabase(disk.store, database), f.create);
      disk.store := next;
      if answer.StoreRefused? && ProvenRejection(answer.code) { databaseMayExist := false; }
      if !answer.StoreAccepted? { break attempt; }
      if f.listing.Unreadable? { break attempt; }
      var anchored := CreateAnchor(disk, AnchorOf(database, disk.store.vaults), f.anchor);
      if !anchored || f.anchorRead.Unreadable? { break attempt; }
      if f.binding.BindingThrows? || f.binding.BindingForged? || f.binding.BindingUncertain? {
        bindingUncertain := true;
        break attempt;
      }
      if f.binding.BindingNotPublished? { break attempt; }
      if forMigration {
        if !f.hasRollback { break attempt; }
        return OwnershipKept;
      }
      retain := true;
      if f.release.Unreadable? { break attempt; }
      return Initialized;
    }
    if bindingUncertain || retain { return Ambiguous; }
    if databaseMayExist && f.hasRollback {
      if !f.rollback.UndoFailed? { disk.store := RolledBack(disk.store, database.id); }
      if f.rollback.Undone? { databaseMayExist := false; }
    }
    if databaseMayExist { return Ambiguous; }
    var clean := Cleanup(disk, f.anchorUndo, f.keyUndo);
    return if clean then CleanlyFailed else CleanupFailed;
  }

  // ---------------------------------------------------- migration's own rollback

  /** Rolling an owned initialization back: the files go only after the database provably went. */
  method RollbackInitialization(
      disk: Disk, database: Database, rollback: UndoFault, anchorUndo: UndoFault, keyUndo: UndoFault)
    returns (r: Result)
    requires disk.keyOwned && disk.key == Live(database.owner)
    requires Names(disk.store, database.owner) ==> disk.store.database.value.id == database.id
    modifies disk
    ensures NoOrphan(disk, database.owner)
    ensures r == CleanlyFailed || r == Ambiguous
    ensures r == CleanlyFailed ==> !Names(disk.store, database.owner) && disk.key == Tombstone
    ensures r == CleanlyFailed <==>
              && rollback.Undone? && keyUndo.Undone? && (old(disk.anchorOwned) ==> anchorUndo.Undone?)
    // the database goes, whatever is reported, unless the call failed; another one stays
    ensures !rollback.UndoFailed? && Names(old(disk.store), database.owner) ==> disk.store == Store(None, map[])
    ensures old(disk.store).database.Some? && old(disk.store).database.value.id != database.id ==>
              disk.store == old(disk.store)
    ensures !rollback.Undone? ==> r == Ambiguous && disk.key == old(disk.key) && disk.anchor == old(disk.anchor)
    ensures rollback.UndoFailed? ==> disk.store == old(disk.store)
    ensures disk.store == old(disk.store) || disk.store == Store(None, map[])
  {
    if !rollback.UndoFailed? { disk.store := RolledBack(disk.store, database.id); }
    if !rollback.Undone? { return Ambiguous; }
    var clean := Cleanup(disk, anchorUndo, keyUndo);
    return if clean then CleanlyFailed else Ambiguous;
  }

  // --------------------------------------------------------------- recovery kits

  datatype KitFaults = KitFaults(
    key: Creation,
    listing: ReadFault,
    anchor: Creation,
    anchorRead: ReadFault,
    meanwhile: Option<Store>,   // what other writers made of the store before the commit
    mutation: MutationFaults,
    settle: ReadFault,          // everything after the commit: re-listing, reconciling, verifying, releasing
    anchorUndo: UndoFault,
    keyUndo: UndoFault)

  /** The store that the commit finds. */
  function Found(st: Store, meanwhile: Option<Store>): (r: Store)
    ensures meanwhile == Some(r) || (meanwhile == None && r == st)
  {
    if meanwhile.Some? then meanwhile.value else st
  }

  /** Both files could be published, nobody else wrote, and nothing failed. */
  predicate Undisturbed(key: KeyFile, anchor: AnchorFile, f: KitFaults) {
    && key == Free && anchor == Missing && f.key.Published? && f.listing.Readable? && f.anchor.Published?
    && f.anchorRead.Readable? && f.meanwhile.None? && f.mutation == FAULTLESS && f.settle.Readable?
  }

  /** Key and anchor are published, so that the commit is tried. */
  predicate Commits(key: KeyFile, anchor: AnchorFile, f: KitFaults) {
    key == Free && f.key.Published? && anchor == Missing && f.anchor.Published? && f.anchorRead.Readable?
  }

  /** What the commit ends in, on the store that others left. */
  function CommitEnding(st: Store, file: AnchorFile, before: Anchor, r: Request, f: KitFaults): Ending {
    Anchored(Found(st, f.meanwhile), file, before, AfterAnchor(before, r), r, f.mutation).ending
  }

  ghost predicate Keyed(st: Store) {
    forall id | id in st.vaults :: st.vaults[id].id == id
  }

  /** The slot was drawn fresh: the store's document does not name it. */
  predicate FreshSlot(st: Store, slot: SlotId) {
    !Names(st, slot)
  }

  /**
   * Adding a recovery slot: publish the kit, commit the slot, keep the kit
   * unless the commit provably did not happen.
   */
  method CreateRecovery(disk: Disk, cached: Database, slot: SlotId, sessionAnchor: AnchorFile, f: KitFaults)
    returns (r: Result)
    requires FreshSlot(disk.store, slot) && FreshSlot(Found(disk.store, f.meanwhile), slot)
    requires disk.key == Free || disk.key == Foreign
    requires !disk.keyOwned && !disk.anchorOwned
    modifies disk
    ensures NoOrphan(disk, slot)
    ensures r == Added || r == Ambiguous || r == CleanlyFailed || r == CleanupFailed
    ensures r == Added ==>
              && Prepare(cached, map[], AddRecovery(slot)).Some?
              && Submit(Found(old(disk.store), f.meanwhile), Prepare(cached, map[], AddRecovery(slot)).value)
                   == Ok(disk.store)
              && Names(disk.store, slot) && disk.key == Live(slot)
              && disk.anchor == Authentic(AnchorOf(disk.store.database.value, disk.store.vaults)) && disk.anchorOwned
    // and it succeeds when nothing fails, on the stored document, with room for one more slot
    ensures Undisturbed(old(disk.key), old(disk.anchor), f) && OnItsAnchor(old(disk.store), cached, sessionAnchor) ==>
              r == Added
    ensures f.anchorUndo.Undone? && f.keyUndo.Undone? ==> r != CleanupFailed
    // a clean failure left the store as the others made it
    ensures r == CleanlyFailed || r == CleanupFailed ==>
            disk.store == old(disk.store) || Some(disk.store) == f.meanwhile
    ensures r == CleanlyFailed && disk.keyOwned ==> disk.key == Tombstone
    ensures r == Ambiguous ==> disk.key == Live(slot)
    ensures Names(disk.store, slot) ==> r == Added || r == Ambiguous
    // a refusal that the store proves empties the kit, whoever was faster
    ensures disk.keyOwned && f.mutation.store == Attempted(NoFault) && f.mutation.release.Readable?
            && Prepare(cached, map[], AddRecovery(slot)).Some?
            && Submit(Found(old(disk.store), f.meanwhile), Prepare(cached, map[], AddRecovery(slot)).value).Err? ==>
              r == CleanlyFailed || r == CleanupFailed
    // exactly when it succeeds, and exactly when it cannot tell
    ensures var request := Prepare(cached, map[], AddRecovery(slot));
            var tried := Commits(old(disk.key), old(disk.anchor), f) && f.listing.Readable? && request.Some?;
            && (r == Added ==> tried) && (r == Ambiguous ==> tried)
            && (tried ==>
                  var e := CommitEnding(old(disk.store), sessionAnchor, AnchorOf(cached, old(disk.store).vaults),
                      request.value, f);
                  && (r == Added <==> e.Succeeded? && f.settle.Readable?)
                  && (r == Ambiguous <==> e.Unknown? || (e.Succeeded? && f.settle.Unreadable?)))
  {
    ghost var st, key, anchor := disk.store, disk.key, disk.anchor;
    var done, advanced, ambiguous := PublishKit(disk, cached, slot, sessionAnchor, f);
    KitMeans(st, cached, slot, sessionAnchor, f);
    if done { return Added; }
    if advanced || ambiguous { return Ambiguous; }
    var clean := Cleanup(disk, f.anchorUndo, f.keyUndo);
    return if clean then CleanlyFailed else CleanupFailed;
  }

  /** What the commit of a new slot does to the store that others left. */
  function SlotEffect(st: Store, cached: Database, slot: SlotId, sessionAnchor: AnchorFile, f: KitFaults): Effect
    requires Prepare(cached, map[], AddRecovery(slot)).Some?
  {
    var before, r := AnchorOf(cached, st.vaults), Prepare(cached, map[], AddRecovery(slot)).value;
    Anchored(Found(st, f.meanwhile), sessionAnchor, before, AfterAnchor(before, r), r, f.mutation)
  }

  /** The cached document is the stored one, with room for a slot, and the session's anchor is at that state. */
  ghost predicate OnItsAnchor(st: Store, cached: Database, anchor: AnchorFile) {
    && st.database == Some(cached) && Keyed(st) && |cached.slots| < MAX_RECOVERY_SLOTS
    && anchor == Authentic(AnchorOf(cached, st.vaults))
  }

  lemma KitMeans(st: Store, cached: Database, slot: SlotId, sessionAnchor: AnchorFile, f: KitFaults)
    requires FreshSlot(Found(st, f.meanwhile), slot)
    ensures var prepared := Prepare(cached, map[], AddRecovery(slot));
            prepared.Some? ==>
              var e, found := SlotEffect(st, cached, slot, sessionAnchor, f), Found(st, f.meanwhile);
              && (e.ending.Succeeded? ==>
                    && Submit(found, prepared.value) == Ok(e.store) && Names(e.store, slot)
                    && e.store.database == Some(prepared.value.next))
              && (!e.ending.Succeeded? && !e.ending.Unknown? ==> e.store == found)
              && (Submit(found, prepared.value).Err? && f.mutation.store == Attempted(NoFault)
                   && f.mutation.release.Readable? ==>
                    !e.ending.Succeeded? && !e.ending.Unknown?)
              && (OnItsAnchor(st, cached, sessionAnchor) && f.meanwhile.None? && f.mutation == FAULTLESS ==>
                    e.ending.Succeeded?)
    ensures |cached.slots| < MAX_RECOVERY_SLOTS ==> Prepare(cached, map[], AddRecovery(slot)).Some?
  {
    var prepared := Prepare(cached, map[], AddRecovery(slot));
    if prepared.Some? {
      var before, found, r := AnchorOf(cached, st.vaults), Found(st, f.meanwhile), prepared.value;
      AnchoredEnds(found, sessionAnchor, before, AfterAnchor(before, r), r, f.mutation);
      AddedSlotIsNamed(found, cached, slot, r);
      SlotGoesThrough(st, cached, slot, sessionAnchor, r);
    }
  }

  /** Publishes kit and anchor, commits the slot, and brings the kit's anchor up to date. */
  method PublishKit(disk: Disk, cached: Database, slot: SlotId, sessionAnchor: AnchorFile, f: KitFaults)
    returns (done: bool, advanced: bool, ambiguous: bool)
    requires !disk.keyOwned && !disk.anchorOwned
    modifies disk
    ensures disk.key == if old(disk.key) == Free && Took(f.key) then Live(slot) else old(disk.key)
    ensures disk.keyOwned <==> old(disk.key) == Free && !f.key.NotPublished?
    ensures var prepared := Prepare(cached, map[], AddRecovery(slot));
            if Commits(old(disk.key), old(disk.anchor), f) && f.listing.Readable? && prepared.Some? then
              var e := SlotEffect(old(disk.store), cached, slot, sessionAnchor, f);
              && disk.store == e.store && disk.anchorOwned
              && (advanced <==> e.ending.Succeeded?) && (ambiguous <==> e.ending.Unknown?)
              && (done <==> advanced && f.settle.Readable?)
              && (done ==> disk.anchor == Authentic(AnchorOf(prepared.value.next, disk.store.vaults)))
            else
              disk.store == old(disk.store) && !done && !advanced && !ambiguous
  {
    done, advanced, ambiguous := false, false, false;
    var created := CreateKey(disk, slot, f.key);
    if !created || f.listing.Unreadable? { return; }
    var before := AnchorOf(cached, disk.store.vaults);
    var anchored := CreateAnchor(disk, before, f.anchor);
    if !anchored || f.anchorRead.Unreadable? { return; }
    var request := Prepare(cached, map[], AddRecovery(slot));
    if request.None? { return; }
    var e := Anchored(Found(disk.store, f.meanwhile), sessionAnchor, before, AfterAnchor(before, request.value),
                      request.value, f.mutation);
    disk.store := e.store;
    ambiguous := e.ending.Unknown?;
    if !e.ending.Succeeded? { return; }
    advanced := true;
    if f.settle.Unreadable? { return; }
    disk.anchor := Authentic(AnchorOf(request.value.next, disk.store.vaults));
    done := true;
  }

  /** On the stored document, at its anchor and with room, the slot is added unless something fails. */
  lemma SlotGoesThrough(st: Store, cached: Database, slot: SlotId, anchor: AnchorFile, r: Request)
    requires Prepare(cached, map[], AddRecovery(slot)) == Some(r)
    ensures OnItsAnchor(st, cached, anchor) ==>
              var before := AnchorOf(cached, st.vaults);
              Anchored(st, anchor, before, AfterAnchor(before, r), r, FAULTLESS).ending.Succeeded?
  {
    if OnItsAnchor(st, cached, anchor) { FaultlessGoesThrough(st, r); }
  }

  lemma AddedSlotIsNamed(st: Store, cached: Database, slot: SlotId, r: Request)
    requires Prepare(cached, map[], AddRecovery(slot)) == Some(r)
    ensures Submit(st, r).Ok? ==> Names(Submit(st, r).value, slot)
  {
    assert r.next.slots[|cached.slots|].id == slot;
  }

  /** The kit opens the stored document and its anchor accepts what is stored. */
  ghost predicate KitOpens(st: Store, via: SlotId, kitAnchor: AnchorFile) {
    && st.database.Some? && RecoverySlot(via, Active) in st.database.value.slots
    && kitAnchor.Authentic? && NotRolledBack(kitAnchor.anchor, st.database.value, st.vaults)
  }

  /** The document with its new owner slot. */
  function Recovered(d: Database, owner: SlotId): Database {
    Reencrypted(d.(owner := owner))
  }

  /** The request that makes this slot the owner of the document that was read. */
  function Takeover(d: Database, owner: SlotId): Request {
    UpdateDatabase(Recovered(d, owner), d.revision)
  }

  /**
   * Publishes a new owner key for a document that was read, commits it as the
   * owner slot, and keeps the key unless the commit provably did not happen.
   * Other writers may change the store between the reading and the commit.
   */
  method PublishOwner(disk: Disk, database: Database, owner: SlotId, f: KitFaults) returns (r: Result)
    requires disk.store.database == Some(database)
    requires FreshSlot(disk.store, owner) && FreshSlot(Found(disk.store, f.meanwhile), owner)
    requires disk.key == Free || disk.key == Foreign
    requires !disk.keyOwned && !disk.anchorOwned
    modifies disk
    ensures NoOrphan(disk, owner)
    ensures r == OwnerReplaced || r == Ambiguous || r == CleanlyFailed || r == CleanupFailed
    // success: the document that was read, with the new owner, on whatever vaults are stored
    ensures r == OwnerReplaced ==>
              && Submit(Found(old(disk.store), f.meanwhile), Takeover(database, owner)) == Ok(disk.store)
              && Names(disk.store, owner) && disk.key == Live(owner) && disk.anchor.Authentic?
    ensures r == OwnerReplaced && f.meanwhile.None? ==>
              disk.anchor == Authentic(AnchorOf(disk.store.database.value, disk.store.vaults))
    // and it succeeds when nothing fails
    ensures Undisturbed(old(disk.key), old(disk.anchor), f) && Keyed(old(disk.store))
            && |database.slots| <= MAX_RECOVERY_SLOTS ==>
              r == OwnerReplaced
    ensures f.anchorUndo.Undone? && f.keyUndo.Undone? ==> r != CleanupFailed
    ensures r == CleanlyFailed || r == CleanupFailed ==>
              disk.store == old(disk.store) || Some(disk.store) == f.meanwhile
    ensures r == CleanlyFailed && disk.keyOwned ==> disk.key == Tombstone
    ensures r == Ambiguous ==> disk.key == Live(owner)
    ensures Names(disk.store, owner) ==> r == OwnerReplaced || r == Ambiguous
    // another writer was faster: the store answers with a conflict, which proves that the new key opens nothing
    ensures disk.keyOwned && f.mutation.store == Attempted(NoFault) && f.mutation.release.Readable?
            && !Holds(Found(old(disk.store), f.meanwhile), database.id, database.revision) ==>
              (r == CleanlyFailed || r == CleanupFailed) && !Names(disk.store, owner)
    // exactly when it succeeds, and exactly when it cannot tell
    ensures var tried, before := Commits(old(disk.key), old(disk.anchor), f),
            AnchorOf(database, old(disk.store).vaults);
            var e := CommitEnding(old(disk.store), Authentic(before), before, Takeover(database, owner), f);
            && (r == OwnerReplaced <==> tried && e.Succeeded? && f.settle.Readable?)
            && (r == Ambiguous <==> tried && (e.Unknown? || (e.Succeeded? && f.settle.Unreadable?)))
    // any proven refusal does the same, any other error keeps the key
    ensures disk.keyOwned && f.mutation.store.Rejected? && ProvenRejection(f.mutation.store.code)
            && f.mutation.release.Readable? ==>
              r == CleanlyFailed || r == CleanupFailed
  {
    var observed, request := AnchorOf(database, disk.store.vaults), Takeover(database, owner);
    var after := AfterAnchor(observed, request);
    if Keyed(disk.store) && |database.slots| <= MAX_RECOVERY_SLOTS { FaultlessGoesThrough(disk.store, request); }
    var advanced, uncertain := false, false;
    label attempt: {
      var created := CreateKey(disk, owner, f.key);
      if !created { break attempt; }
      var anchored := CreateAnchor(disk, observed, f.anchor);
      if !anchored || f.anchorRead.Unreadable? { break attempt; }
      disk.store := Found(disk.store, f.meanwhile);
      var e := Anchored(disk.store, Authentic(observed), observed, after, request, f.mutation);
      AnchoredEnds(disk.store, Authentic(observed), observed, after, request, f.mutation);
      disk.store := e.store;
      if e.ending.Unknown? { uncertain := true; }
      if !e.ending.Succeeded? { break attempt; }
      advanced := true;
      if f.settle.Unreadable? { break attempt; }
      disk.anchor := Authentic(after);
      return OwnerReplaced;
    }
    if advanced || uncertain { return Ambiguous; }
    var clean := Cleanup(disk, f.anchorUndo, f.keyUndo);
    return if clean then CleanlyFailed else CleanupFailed;
  }

  /** Using a recovery kit: read and check the database, and make a new key its owner. */
  method UseRecovery(disk: Disk, via: SlotId, owner: SlotId, kitAnchor: AnchorFile, f: KitFaults) returns (r: Result)
    requires FreshSlot(disk.store, owner) && FreshSlot(Found(disk.store, f.meanwhile), owner)
    requires disk.key == Free || disk.key == Foreign
    requires !disk.keyOwned && !disk.anchorOwned
    modifies disk
    ensures NoOrphan(disk, owner)
    ensures r == OwnerReplaced || r == Ambiguous || r == CleanlyFailed || r == CleanupFailed
    // a revoked or unknown kit, or an anchor behind which the store was rolled back, changes nothing
    ensures !KitOpens(old(disk.store), via, kitAnchor) ==>
              && r == CleanlyFailed
              && disk.store == old(disk.store) && disk.key == old(disk.key) && disk.anchor == old(disk.anchor)
    // success: the document that was read, with the new owner, on whatever vaults are stored
    ensures r == OwnerReplaced ==>
              && KitOpens(old(disk.store), via, kitAnchor)
              && Submit(Found(old(disk.store), f.meanwhile), Takeover(old(disk.store).database.value, owner))
                   == Ok(disk.store)
              && Names(disk.store, owner) && disk.key == Live(owner) && disk.anchor.Authentic?
    ensures r == OwnerReplaced && f.meanwhile.None? ==>
              disk.anchor == Authentic(AnchorOf(disk.store.database.value, disk.store.vaults))
    // and it succeeds when the kit opens and nothing fails
    ensures KitOpens(old(disk.store), via, kitAnchor) && Undisturbed(old(disk.key), old(disk.anchor), f)
            && Keyed(old(disk.store)) && |old(disk.store).database.value.slots| <= MAX_RECOVERY_SLOTS ==>
              r == OwnerReplaced
    ensures f.anchorUndo.Undone? && f.keyUndo.Undone? ==> r != CleanupFailed
    // a clean failure left the store as the others made it
    ensures r == CleanlyFailed || r == CleanupFailed ==>
              disk.store == old(disk.store) || Some(disk.store) == f.meanwhile
    ensures r == CleanlyFailed && disk.keyOwned ==> disk.key == Tombstone
    ensures r == Ambiguous ==> disk.key == Live(owner)
    ensures Names(disk.store, owner) ==> r == OwnerReplaced || r == Ambiguous
    // another writer was faster: the store answers with a conflict, which proves that the new key opens nothing
    ensures disk.keyOwned && f.mutation.store == Attempted(NoFault) && f.mutation.release.Readable?
            && !Holds(Found(old(disk.store), f.meanwhile), old(disk.store).database.value.id,
                      old(disk.store).database.value.revision) ==>
              (r == CleanlyFailed || r == CleanupFailed) && !Names(disk.store, owner)
    // any proven refusal does the same, any other error keeps the key
    ensures disk.keyOwned && f.mutation.store.Rejected? && ProvenRejection(f.mutation.store.code)
            && f.mutation.release.Readable? ==>
              r == CleanlyFailed || r == CleanupFailed
  {
    if disk.store.database.None? { return CleanlyFailed; }
    var database := disk.store.database.value;
    var prepared := Prepare(database, map[], ReplaceOwner(via, owner));
    if prepared.None? { return CleanlyFailed; }
    assert prepared.value == Takeover(database, owner);
    RecoveryOpenIff(kitAnchor, database, disk.store.vaults);
    if !Reconcile(kitAnchor, AnchorOf(database, disk.store.vaults), Recovery).0 { return CleanlyFailed; }
    r := PublishOwner(disk, database, owner, f);
  }
}
