/**
 * Copying one legacy vault into a database: publish the complete vault by an
 * anchored mutation of the store, read it back, publish the profile binding,
 * and on any failure decide between rolling the initialization back and
 * keeping everything. Other writers may change the store in between.
 */
module Migration {
  import opened Wrappers
  import opened DatabaseModel
  import opened Anchors
  import opened AnchoredMutations
  import opened Operations
  import opened Faults
  import opened OwnedFiles
  import opened FlatProjection

  datatype SessionCode =
    | SessionAmbiguous | SessionClose | SessionDuplicate | SessionConflict
    | SessionInvalid | SessionBinding | SessionUnsupported | SessionOther

  datatype MigrationCode = MigrationAmbiguous | MigrationAuthentication | MigrationConflict | MigrationInvalid
      | MigrationVerification

  datatype Failure = FromSession(code: SessionCode) | FromMigration(mcode: MigrationCode) | Unrecognized

  datatype MigrationResult =
    | Migrated(recordCount: nat)
    | MigrationFailed(code: MigrationCode)
    | MigrationAggregate(primary: MigrationCode)

  predicate IsAmbiguous(f: Failure) {
    f == FromSession(SessionAmbiguous) || f == FromSession(SessionClose) || f == FromMigration(MigrationAmbiguous)
  }

  function MapError(f: Failure): MigrationCode {
    match f
    case FromMigration(c) => c
    case FromSession(SessionDuplicate) => MigrationConflict
    case FromSession(SessionConflict) => MigrationConflict
    case FromSession(SessionInvalid) => MigrationInvalid
    case FromSession(SessionBinding) => MigrationInvalid
    case FromSession(SessionUnsupported) => MigrationInvalid
    case FromSession(SessionAmbiguous) => MigrationAmbiguous
    case FromSession(SessionClose) => MigrationAmbiguous
    case _ => MigrationAuthentication
  }

  /** Which failures get which code. */
  lemma MapErrorIff(f: Failure)
    ensures MapError(f) == MigrationConflict
            <==> f in {FromSession(SessionDuplicate), FromSession(SessionConflict), FromMigration(MigrationConflict)}
    ensures MapError(f) == MigrationInvalid
            <==> f in {FromSession(SessionInvalid), FromSession(SessionBinding), FromSession(SessionUnsupported),
                       FromMigration(MigrationInvalid)}
    ensures MapError(f) == MigrationAmbiguous
            <==> f in {FromSession(SessionAmbiguous), FromSession(SessionClose), FromMigration(MigrationAmbiguous)}
    ensures MapError(f) == MigrationVerification <==> f == FromMigration(MigrationVerification)
    ensures IsAmbiguous(f) <==> MapError(f) == MigrationAmbiguous
  {}

  /** A session call: done, or failed with a code. */
  datatype SessionCall = CallOk | CallFails(code: SessionCode)

  /** Publishing the profile binding, with what really reached the registry. */
  datatype Publication = PublicationDone | PublicationAbsent | PublicationUnknown(happened: bool)

  datatype MigrationFaults = MigrationFaults(
    openStore: ReadFault,
    init: InitFaults,
    open: SessionCall,
    bootstrap: Bootstrap,
    beforeCreate: Option<Store>,        // what other writers made of the store before the vault is published
    create: MutationFaults,
    reopen: SessionCall,                // close, open the store again, open a fresh session
    beforeInspect: Option<Store>,       // what they made of it before the vault is read back
    inspect: ReadFault,
    publication: Option<Publication>,   // None: the destination publishes no binding
    release: ReadFault,
    close: ReadFault,
    rollback: UndoFault,
    anchorUndo: UndoFault,
    keyUndo: UndoFault,
    closeAfter: ReadFault)

  /** How a structured vault is written into a vault document. */
  datatype Codec = Codec(encode: seq<Item> -> Payload, decode: Payload -> Option<seq<Item>>)

  ghost predicate Faithful(c: Codec) {
    forall items :: c.decode(c.encode(items)) == Some(items)
  }

  /** The stored vault projects to exactly these records. */
  predicate Projects(c: Codec, st: Store, id: VaultId, source: Flat) {
    id in st.vaults && var items := c.decode(st.vaults[id].payload); items.Some? && Project(items.value) == Ok(source)
  }

  /** What is to be migrated, and where. */
  datatype Plan = Plan(owned: bool, database: Database, id: VaultId, name: string, source: Flat, names: seq<string>)

  /** The store that the migrating session opens. */
  function Opened(p: Plan, st: Store): Store {
    if p.owned then Store(Some(p.database), map[]) else st
  }

  function Publishing(p: Plan, c: Codec, cached: Database): Option<Request>
    requires forall n | n in p.names :: n in p.source
  {
    var upgraded := Upgrade(p.source, p.names);
    if upgraded.Err? then None else Prepare(cached, map[], Create(p.id, p.name, c.encode(upgraded.value)))
  }

  /** The migrated vault was published: the store was exactly one accepted creation further. */
  ghost predicate PublishedFrom(p: Plan, c: Codec, st: Store, f: MigrationFaults, committed: Store)
    requires forall n | n in p.names :: n in p.source
  {
    && Opened(p, st).database.Some?
    && Publishing(p, c, Opened(p, st).database.value).Some?
    && Submit(Found(Opened(p, st), f.beforeCreate), Publishing(p, c, Opened(p, st).database.value).value)
         == Ok(committed)
  }

  function CreateCode(e: Ending): SessionCode {
    match e
    case ProvenRefusal(Conflict) => SessionConflict
    case ProvenRefusal(Exists) => SessionConflict
    case ProvenRefusal(Invalid) => SessionInvalid
    case ProvenRefusal(Unsupported) => SessionUnsupported
    case Unknown => SessionAmbiguous
    case _ => SessionOther
  }

  class Destination {
    const disk: Disk
    var bound: bool   // the profile registry names the new database

    constructor (disk: Disk)
      ensures this.disk == disk && !bound
    {
      this.disk, bound := disk, false;
    }
  }

  /** Nothing that the migration published was taken away again. */
  ghost predicate Retained(disk: Disk, p: Plan, committed: Store, f: MigrationFaults)
    reads disk
  {
    && (disk.store == committed || disk.store == Found(committed, f.beforeInspect))
    && (p.owned ==> disk.key == Live(p.database.owner))
  }

  /** The owner slot was drawn for this database: whatever other writers store, no other database names it. */
  ghost predicate NamesNoOther(st: Option<Store>, d: Database) {
    st.Some? && Names(st.value, d.owner) ==> st.value.database.value.id == d.id
  }

  lemma PublishedVault(p: Plan, c: Codec, cached: Database, st: Store, st': Store)
    requires Faithful(c) && Enumerates(p.names, p.source)
    requires Publishing(p, c, cached).Some? && Submit(st, Publishing(p, c, cached).value) == Ok(st')
    ensures p.id in st'.vaults && c.decode(st'.vaults[p.id].payload) == Some(Upgrade(p.source, p.names).value)
    ensures Projects(c, st', p.id, p.source) <==> p.source.Keys !! INHERITED
    ensures st'.database.Some? && st'.database.value.id == cached.id && st'.database.value.owner == cached.owner
  {
    RoundTripIff(p.source, p.names);
  }

  /** Publishing at an undisturbed store leaves the recomputed anchor. */
  lemma PublishedAnchor(p: Plan, c: Codec, cached: Database, st: Store, st': Store)
    requires forall n | n in p.names :: n in p.source
    requires Publishing(p, c, cached).Some? && Submit(st, Publishing(p, c, cached).value) == Ok(st')
    ensures st'.database.Some?
    ensures AfterAnchor(AnchorOf(cached, st.vaults), Publishing(p, c, cached).value)
            == AnchorOf(st'.database.value, st'.vaults)
  {
    AfterIsRecomputedIff(st, cached, st.vaults, Publishing(p, c, cached).value);
  }

  /** The vault can be created: a free name, a new identity, and room, on a database within its limits. */
  ghost predicate Creatable(p: Plan, c: Codec, st: Store)
    requires forall n | n in p.names :: n in p.source
  {
    && st.database.Some? && Keyed(st) && Publishing(p, c, st.database.value).Some?
    && p.id !in st.vaults && |st.vaults| < MAX_VAULTS
  }

  /** Nothing fails up to the published vault, and nobody else writes. */
  predicate PublishesCalmly(f: MigrationFaults) {
    f.open.CallOk? && f.beforeCreate.None? && f.create == FAULTLESS
  }

  /** Nothing fails afterwards. */
  predicate VerifiesCalmly(f: MigrationFaults) {
    && f.reopen.CallOk? && f.beforeInspect.None? && f.inspect.Readable?
    && (f.publication == None || f.publication == Some(PublicationDone)) && f.release.Readable? && f.close.Readable?
  }

  /** The plain open that a migration starts with, and the one that reads back. */
  ghost predicate OpensOn(st: Store, anchor: AnchorFile, open: SessionCall, bootstrap: Bootstrap) {
    && open.CallOk? && st.database.Some?
    && var observed := AnchorOf(st.database.value, st.vaults);
       anchor == Authentic(observed) || (anchor == Missing && bootstrap == Pending(observed))
  }

  /** What publishing ends in, once the destination is open. */
  function PublishEffect(p: Plan, c: Codec, st: Store, f: MigrationFaults): Effect
    requires forall n | n in p.names :: n in p.source
    requires st.database.Some? && Publishing(p, c, st.database.value).Some?
  {
    var before, r := AnchorOf(st.database.value, st.vaults), Publishing(p, c, st.database.value).value;
    Anchored(Found(st, f.beforeCreate), Authentic(before), before, AfterAnchor(before, r), r, f.create)
  }

  lemma PublishingGrows(p: Plan, c: Codec, cached: Database, st: Store)
    requires forall n | n in p.names :: n in p.source
    requires Publishing(p, c, cached).Some?
    ensures Submit(st, Publishing(p, c, cached).value).Ok? ==> Submit(st, Publishing(p, c, cached).value).value != st
  {}

  /** What publishing leaves behind: nothing, or the store with the vault, and then a success or an unknown ending. */
  lemma PublishEffectMeans(p: Plan, c: Codec, st: Store, f: MigrationFaults)
    requires Faithful(c) && Enumerates(p.names, p.source)
    requires st.database.Some? && Publishing(p, c, st.database.value).Some?
    ensures var e, found := PublishEffect(p, c, st, f), Found(st, f.beforeCreate);
            && (e.store != found ==>
                  && Submit(found, Publishing(p, c, st.database.value).value) == Ok(e.store)
                  && (e.ending.Succeeded? || e.ending.Unknown?)
                  && (Projects(c, e.store, p.id, p.source) <==> p.source.Keys !! INHERITED))
            && (e.ending.Succeeded? ==> e.store != found && e.store.database.Some? && e.file.Authentic?)
            && (e.ending.Succeeded? && f.beforeCreate.None? ==>
                  e.file == Authentic(AnchorOf(e.store.database.value, e.store.vaults)))
            && (PublishesCalmly(f) && Creatable(p, c, st) ==> e.ending.Succeeded?)
  {
    var found, cached := Found(st, f.beforeCreate), st.database.value;
    var before, r := AnchorOf(cached, st.vaults), Publishing(p, c, cached).value;
    AnchoredEnds(found, Authentic(before), before, AfterAnchor(before, r), r, f.create);
    PublishingGrows(p, c, cached, found);
    if Submit(found, r).Ok? {
      PublishedVault(p, c, cached, found, Submit(found, r).value);
      if found == st { PublishedAnchor(p, c, cached, st, Submit(st, r).value); }
    }
    if Creatable(p, c, st) { FaultlessGoesThrough(st, r); }
  }

  /** Opens the database plainly and publishes the complete vault. */
  method PublishVault(d: Destination, p: Plan, c: Codec, f: MigrationFaults)
    returns (code: Option<SessionCode>, ghost committed: Option<Store>)
    requires Faithful(c) && Enumerates(p.names, p.source)
    requires d.disk.store == Opened(p, d.disk.store)
    modifies d.disk`store, d.disk`anchor
    ensures committed.Some? ==>
            PublishedFrom(p, c, old(d.disk.store), f, committed.value) && d.disk.store == committed.value
    ensures committed.None? ==> d.disk.store == old(d.disk.store) || Some(d.disk.store) == f.beforeCreate
    ensures committed.Some? ==> (Projects(c, committed.value, p.id, p.source) <==> p.source.Keys !! INHERITED)
    ensures code.None? ==> committed.Some? && d.disk.anchor.Authentic?
    ensures code.None? && f.beforeCreate.None? ==>
              d.disk.anchor == Authentic(AnchorOf(d.disk.store.database.value, d.disk.store.vaults))
    ensures code.Some? && committed.Some? ==> code == Some(SessionAmbiguous)
    // it does not start on a database that does not open, and not for a vault that cannot be prepared
    ensures !OpensOn(old(d.disk.store), old(d.disk.anchor), f.open, f.bootstrap) ==>
              && code.Some? && code != Some(SessionAmbiguous) && committed.None?
              && d.disk.store == old(d.disk.store) && d.disk.anchor == old(d.disk.anchor)
    ensures OpensOn(old(d.disk.store), old(d.disk.anchor), f.open, f.bootstrap) ==>
              if Publishing(p, c, old(d.disk.store).database.value).None? then
                code == Some(SessionDuplicate) && d.disk.store == old(d.disk.store)
              else
                var e := PublishEffect(p, c, old(d.disk.store), f);
                && code == (if e.ending.Succeeded? then None else Some(CreateCode(e.ending)))
                && d.disk.store == e.store && d.disk.anchor == e.file
    // on the anchored database, a vault that can be created is published unless something fails
    ensures PublishesCalmly(f) && Creatable(p, c, old(d.disk.store))
            && old(d.disk.anchor) == Authentic(AnchorOf(old(d.disk.store).database.value, old(d.disk.store).vaults)) ==>
              code.None?
  {
    committed := None;
    if d.disk.store.database.Some? {
      PlainOpenIff(d.disk.anchor, AnchorOf(d.disk.store.database.value, d.disk.store.vaults), f.bootstrap);
    }
    if f.open.CallFails? { return Some(if f.open.code.SessionAmbiguous? then SessionOther else f.open.code), None; }
    if d.disk.store.database.None? { return Some(SessionBinding), None; }
    var cached, listed := d.disk.store.database.value, d.disk.store.vaults;
    var (allowed, file) := Reconcile(d.disk.anchor, AnchorOf(cached, listed), Plain(f.bootstrap));
    if !allowed { return Some(SessionOther), None; }
    d.disk.anchor := file;
    var request := Publishing(p, c, cached);
    if request.None? { return Some(SessionDuplicate), None; }
    PublishEffectMeans(p, c, d.disk.store, f);
    d.disk.store := Found(d.disk.store, f.beforeCreate);
    var before := AnchorOf(cached, listed);
    var e := Anchored(d.disk.store, d.disk.anchor, before, AfterAnchor(before, request.value), request.value, f.create);
    if e.store != d.disk.store { committed := Some(e.store); }
    d.disk.store, d.disk.anchor := e.store, e.file;
    code := if e.ending.Succeeded? then None else Some(CreateCode(e.ending));
  }

  /** Reads the vault back through a session and compares its projection with the source. */
  method VerifyVault(d: Destination, p: Plan, c: Codec, f: MigrationFaults) returns (failure: Option<Failure>)
    requires Enumerates(p.names, p.source)
    modifies d.disk`store
    ensures d.disk.store == old(d.disk.store) || d.disk.store == Found(old(d.disk.store), f.beforeInspect)
    ensures failure.None? ==>
            d.disk.store == Found(old(d.disk.store), f.beforeInspect) && Projects(c, d.disk.store, p.id, p.source)
    // it succeeds exactly when the destination opens again, unless it stayed open, and the stored vault projects
    // to the source
    ensures failure.None? <==>
              && (p.owned || OpensOn(old(d.disk.store), d.disk.anchor, f.reopen, NotAShare))
              && f.inspect.Readable? && Projects(c, Found(old(d.disk.store), f.beforeInspect), p.id, p.source)
  {
    if !p.owned {
      if f.reopen.CallFails? { return Some(FromSession(f.reopen.code)); }
      var st := d.disk.store;
      if st.database.None? || !Reconcile(d.disk.anchor, AnchorOf(st.database.value, st.vaults), Plain(NotAShare)).0 {
        return Some(FromSession(SessionOther));
      }
    }
    d.disk.store := Found(d.disk.store, f.beforeInspect);
    if f.inspect.Unreadable? || p.id !in d.disk.store.vaults { return Some(Unrecognized); }
    var items := c.decode(d.disk.store.vaults[p.id].payload);
    if items.None? { return Some(Unrecognized); }
    var observed := ProjectFlat(items.value);
    if observed.Err? { return Some(Unrecognized); }
    return if observed.value != p.source then Some(FromMigration(MigrationVerification)) else None;
  }

  /** Publishes the profile binding, gives up the right to roll back, and closes. */
  method Conclude(d: Destination, owned: bool, f: MigrationFaults)
    returns (failure: Option<Failure>, absent: bool, hasOwnership: bool)
    requires !d.bound
    modifies d`bound
    ensures d.bound ==> owned && !absent
    ensures failure.None? && owned && f.publication.Some? ==> d.bound
    ensures hasOwnership ==> owned
    ensures absent <==> owned && f.publication == Some(PublicationAbsent)
    ensures absent ==> hasOwnership && failure == Some(FromMigration(MigrationInvalid))
    // it fails exactly when the binding was not published, or releasing or closing fails
    ensures failure.None? <==>
              && (owned ==> (f.publication == None || f.publication == Some(PublicationDone)) && f.release.Readable?)
              && f.close.Readable?
    ensures hasOwnership <==> owned && !(failure.None? || failure == Some(FromSession(SessionClose)))
    ensures owned ==> (d.bound <==> f.publication in {Some(PublicationDone), Some(PublicationUnknown(true))})
  {
    failure, absent, hasOwnership := None, false, owned;
    if owned {
      match f.publication {
        case None =>
        case Some(PublicationDone) => d.bound := true;
        case Some(PublicationAbsent) => return Some(FromMigration(MigrationInvalid)), true, true;
        case Some(PublicationUnknown(happened)) =>
          d.bound := happened;
          return Some(FromMigration(MigrationAmbiguous)), false, true;
      }
      if f.release.Unreadable? { return Some(FromSession(SessionOther)), false, true; }
      hasOwnership := false;
    }
    if f.close.Unreadable? { failure := Some(FromSession(SessionClose)); }
  }

  /** How far a migration came. */
  datatype Progress = Progress(hasOwnership: bool, vaultPublished: bool, absent: bool) {
    /** A binding may be published, or the vault is. */
    predicate Undecided(failure: Failure) {
      !absent && (vaultPublished || IsAmbiguous(failure))
    }
  }

  /** Whoever may roll back owns the live key file, and a stored database that the key opens is its own. */
  ghost predicate Authority(disk: Disk, p: Plan, g: Progress)
    reads disk
  {
    && (g.absent ==> g.hasOwnership)
    && (g.hasOwnership ==> p.owned && disk.keyOwned && disk.key == Live(p.database.owner)
                           && NamesNoOther(Some(disk.store), p.database))
  }

  /** Database, anchor and key were taken away, and every call said so. */
  predicate CleanUndo(anchorOwned: bool, f: MigrationFaults) {
    f.rollback.Undone? && f.keyUndo.Undone? && (anchorOwned ==> f.anchorUndo.Undone?)
  }

  /** The report of a failed migration. */
  function GaveUp(failure: Failure, g: Progress, clean: bool, f: MigrationFaults): MigrationResult {
    if g.Undecided(failure) then MigrationFailed(MigrationAmbiguous)
    else if g.absent then
      if clean && f.closeAfter.Readable? then MigrationFailed(MapError(failure))
      else MigrationAggregate(MapError(failure))
    else if g.hasOwnership && !clean then MigrationFailed(MigrationAmbiguous)
    else MigrationFailed(MapError(failure))
  }

  /** After a failure: roll the initialization back, or keep everything and report ambiguity. */
  method GiveUp(d: Destination, p: Plan, failure: Failure, g: Progress, f: MigrationFaults) returns (r: MigrationResult)
    requires Authority(d.disk, p, g)
    requires g.absent ==> failure == FromMigration(MigrationInvalid)
    modifies d.disk
    ensures !r.Migrated?
    ensures g.Undecided(failure) ==> r == MigrationFailed(MigrationAmbiguous)
    ensures !g.hasOwnership || g.Undecided(failure) ==>
              d.disk.store == old(d.disk.store) && d.disk.key == old(d.disk.key) && d.disk.anchor == old(d.disk.anchor)
    ensures g.hasOwnership ==> NoOrphan(d.disk, p.database.owner)
    ensures g.absent ==> r == MigrationFailed(MigrationInvalid) || r == MigrationAggregate(MigrationInvalid)
    ensures d.disk.store == old(d.disk.store) || d.disk.store == Store(None, map[])
    ensures f.rollback.UndoFailed? ==> d.disk.store == old(d.disk.store) && d.disk.key == old(d.disk.key)
    // exactly what is reported, and a clean rollback takes database and key away
    ensures r == GaveUp(failure, g, CleanUndo(old(d.disk.anchorOwned), f), f)
    ensures g.hasOwnership && !g.Undecided(failure) && CleanUndo(old(d.disk.anchorOwned), f) ==>
              d.disk.key == Tombstone && !Names(d.disk.store, p.database.owner)
  {
    if g.absent && g.hasOwnership {
      var undone := RollbackInitialization(d.disk, p.database, f.rollback, f.anchorUndo, f.keyUndo);
      if undone == CleanlyFailed && f.closeAfter.Readable? { return MigrationFailed(MapError(failure)); }
      return MigrationAggregate(MapError(failure));
    } else if g.vaultPublished || IsAmbiguous(failure) {
      return MigrationFailed(MigrationAmbiguous);
    } else if g.hasOwnership {
      var undone := RollbackInitialization(d.disk, p.database, f.rollback, f.anchorUndo, f.keyUndo);
      return MigrationFailed(if undone == CleanlyFailed then MapError(failure) else MigrationAmbiguous);
    }
    return MigrationFailed(MapError(failure));
  }

  /** The database to be initialized is new, and this run has published nothing yet. */
  ghost predicate Fresh(disk: Disk, p: Plan)
    reads disk
  {
    && !Names(disk.store, p.database.owner)
    && (disk.store.database.Some? ==> disk.store.database.value.id != p.database.id)
    && (disk.key == Free || disk.key == Foreign)
    && !disk.keyOwned && !disk.anchorOwned
  }

  /** Opens the destination's store and, when owned, initializes its database. */
  method OpenDestination(d: Destination, p: Plan, f: MigrationFaults) returns (failure: Option<Failure>)
    requires Fresh(d.disk, p)
    modifies d.disk
    ensures p.owned ==> NoOrphan(d.disk, p.database.owner)
    ensures failure.None? ==> d.disk.store == Opened(p, old(d.disk.store))
    ensures failure.None? && p.owned ==> d.disk.keyOwned && d.disk.key == Live(p.database.owner)
    ensures !p.owned ==>
              d.disk.store == old(d.disk.store) && d.disk.key == old(d.disk.key) && d.disk.anchor == old(d.disk.anchor)
    // an existing destination opens unless its store does not, and a new one is initialized unless something fails
    ensures var reached := ReachesBinding(old(d.disk.store), old(d.disk.key), old(d.disk.anchor), f.init);
            && (failure.None? <==> f.openStore.Readable? && (p.owned ==> reached))
            && (failure == Some(FromSession(SessionAmbiguous))
                <==> && f.openStore.Readable? && p.owned && !reached && !f.init.rollback.Undone?
                     && MayExist(old(d.disk.store), old(d.disk.key), f.init))
    ensures failure.None? && p.owned ==> d.disk.anchor == Authentic(AnchorOf(p.database, map[]))
    ensures failure.Some? ==> failure == Some(FromSession(SessionAmbiguous)) || failure == Some(Unrecognized)
    ensures d.disk.store == old(d.disk.store) || d.disk.store == Opened(p, old(d.disk.store))
            || d.disk.store == Store(None, map[])
  {
    if f.openStore.Unreadable? { return Some(Unrecognized); }
    if p.owned {
      var initialized := Initialize(d.disk, p.database, true, f.init.(binding := NotRequested, hasRollback := true));
      if initialized != OwnershipKept {
        return Some(if initialized == Ambiguous then FromSession(SessionAmbiguous) else Unrecognized);
      }
    }
    return None;
  }

  /** Reads the published vault back, and publishes the binding if it is the source. */
  method ReadBack(d: Destination, p: Plan, c: Codec, g: Progress, f: MigrationFaults)
    returns (failure: Option<Failure>, g': Progress)
    requires Enumerates(p.names, p.source) && !d.bound && g == Progress(p.owned, true, false) && Authority(d.disk, p, g)
    requires p.owned ==> NamesNoOther(f.beforeInspect, p.database)
    modifies d`bound, d.disk`store
    ensures d.disk.store == old(d.disk.store) || d.disk.store == Found(old(d.disk.store), f.beforeInspect)
    ensures failure.None? ==>
              && d.disk.store == Found(old(d.disk.store), f.beforeInspect) && Projects(c, d.disk.store, p.id, p.source)
              && (p.owned && f.publication.Some? ==> d.bound)
    ensures d.bound ==> p.owned && !g'.absent
    ensures Authority(d.disk, p, g') && g'.vaultPublished
    ensures g'.absent ==> failure == Some(FromMigration(MigrationInvalid)) && f.publication == Some(PublicationAbsent)
    ensures VerifiesCalmly(f) && Projects(c, old(d.disk.store), p.id, p.source) && old(d.disk.store).database.Some?
            && d.disk.anchor == Authentic(AnchorOf(old(d.disk.store).database.value, old(d.disk.store).vaults)) ==>
              failure.None?
  {
    g' := g;
    failure := VerifyVault(d, p, c, f);
    if failure.Some? { return; }
    var absent, hasOwnership;
    failure, absent, hasOwnership := Conclude(d, p.owned, f);
    g' := Progress(hasOwnership, true, absent);
  }

  /** Publishes the vault in an open destination and reads it back. */
  method MoveVault(d: Destination, p: Plan, c: Codec, f: MigrationFaults)
    returns (failure: Option<Failure>, g: Progress, ghost committed: Option<Store>)
    requires Faithful(c) && Enumerates(p.names, p.source) && !d.bound && d.disk.store == Opened(p, d.disk.store)
    requires Authority(d.disk, p, Progress(p.owned, false, false))
    requires p.owned ==> NamesNoOther(f.beforeCreate, p.database) && NamesNoOther(f.beforeInspect, p.database)
    modifies d`bound, d.disk`store, d.disk`anchor
    ensures committed.Some? ==>
              && PublishedFrom(p, c, old(d.disk.store), f, committed.value) && Retained(d.disk, p, committed.value, f)
              && (Projects(c, committed.value, p.id, p.source) <==> p.source.Keys !! INHERITED)
    ensures committed.None? ==>
              && failure.Some? && !d.bound
              && (d.disk.store == old(d.disk.store) || Some(d.disk.store) == f.beforeCreate)
    ensures failure.None? ==>
              && committed.Some? && d.disk.store == Found(committed.value, f.beforeInspect)
              && Projects(c, d.disk.store, p.id, p.source) && d.disk.anchor.Authentic?
              && (p.owned && f.publication.Some? ==> d.bound)
    ensures failure.None? && f.beforeCreate.None? && f.beforeInspect.None? ==>
              d.disk.anchor == Authentic(AnchorOf(d.disk.store.database.value, d.disk.store.vaults))
    ensures failure.Some? && committed.Some? ==> g.absent || g.Undecided(failure.value)
    ensures g.vaultPublished ==> committed.Some?
    ensures d.bound ==> p.owned && !g.absent
    ensures Authority(d.disk, p, g)
    ensures g.absent ==> failure == Some(FromMigration(MigrationInvalid)) && f.publication == Some(PublicationAbsent)
    ensures PublishesCalmly(f) && VerifiesCalmly(f) && Creatable(p, c, old(d.disk.store)) && p.source.Keys !! INHERITED
            && old(d.disk.anchor) == Authentic(AnchorOf(old(d.disk.store).database.value, old(d.disk.store).vaults)) ==>
              failure.None?
  {
    g := Progress(p.owned, false, false);
    var code;
    code, committed := PublishVault(d, p, c, f);
    if code.Some? { return Some(FromSession(code.value)), g, committed; }
    g := g.(vaultPublished := true);
    failure, g := ReadBack(d, p, c, g, f);
  }

  /** Nothing fails, nobody else writes, and the destination is anchored, or free for a new database. */
  ghost predicate Calm(p: Plan, c: Codec, st: Store, key: KeyFile, anchor: AnchorFile, f: MigrationFaults)
    requires forall n | n in p.names :: n in p.source
  {
    && f.openStore.Readable? && PublishesCalmly(f) && VerifiesCalmly(f) && Creatable(p, c, Opened(p, st))
    && (if p.owned then ReachesBinding(st, key, anchor, f.init)
        else anchor == Authentic(AnchorOf(st.database.value, st.vaults)))
  }

  /** Everything up to the first failure. */
  method Attempt(d: Destination, p: Plan, c: Codec, f: MigrationFaults)
    returns (failure: Option<Failure>, g: Progress, ghost committed: Option<Store>)
    requires Faithful(c) && Enumerates(p.names, p.source) && !d.bound && Fresh(d.disk, p)
    requires p.owned ==> NamesNoOther(f.beforeCreate, p.database) && NamesNoOther(f.beforeInspect, p.database)
    modifies d, d.disk
    ensures committed.Some? ==>
              && PublishedFrom(p, c, old(d.disk.store), f, committed.value) && Retained(d.disk, p, committed.value, f)
              && (Projects(c, committed.value, p.id, p.source) <==> p.source.Keys !! INHERITED)
    ensures committed.None? ==>
              && failure.Some? && !d.bound
              && (|| d.disk.store == old(d.disk.store) || Some(d.disk.store) == f.beforeCreate
                  || (p.owned && (d.disk.store == Opened(p, old(d.disk.store)) || d.disk.store == Store(None, map[]))))
    ensures failure.None? ==>
              && committed.Some? && d.disk.store == Found(committed.value, f.beforeInspect)
              && Projects(c, d.disk.store, p.id, p.source) && d.disk.anchor.Authentic?
              && (p.owned && f.publication.Some? ==> d.bound)
    ensures failure.None? && f.beforeCreate.None? && f.beforeInspect.None? ==>
              d.disk.anchor == Authentic(AnchorOf(d.disk.store.database.value, d.disk.store.vaults))
    ensures failure.Some? && committed.Some? ==> g.absent || g.Undecided(failure.value)
    ensures g.vaultPublished ==> committed.Some?
    ensures d.bound ==> p.owned && !g.absent
    ensures Authority(d.disk, p, g)
    ensures g.absent ==> failure == Some(FromMigration(MigrationInvalid)) && f.publication == Some(PublicationAbsent)
    ensures p.owned ==> NoOrphan(d.disk, p.database.owner)
    ensures !p.owned ==> d.disk.key == old(d.disk.key)
    ensures Calm(p, c, old(d.disk.store), old(d.disk.key), old(d.disk.anchor), f) && p.source.Keys !! INHERITED ==>
              failure.None?
  {
    g, committed := Progress(false, false, false), None;
    failure := OpenDestination(d, p, f);
    if failure.Some? { return; }
    failure, g, committed := MoveVault(d, p, c, f);
  }

  /**
   * Migrates the authenticated source records. With an owned destination the
   * database is initialized first, and that is rolled back on a failure that
   * provably left no binding behind. The ghost result is the store right after
   * the vault was published, if it was.
   */
  method Migrate(d: Destination, p: Plan, c: Codec, f: MigrationFaults)
    returns (r: MigrationResult, ghost committed: Option<Store>)
    requires Faithful(c) && Enumerates(p.names, p.source) && !d.bound && Fresh(d.disk, p)
    requires p.owned ==> NamesNoOther(f.beforeCreate, p.database) && NamesNoOther(f.beforeInspect, p.database)
    modifies d, d.disk
    // what was published is one accepted creation of the migrated vault
    ensures committed.Some? ==> PublishedFrom(p, c, old(d.disk.store), f, committed.value)
    ensures committed.None? ==>
              || d.disk.store == old(d.disk.store) || d.disk.store == Opened(p, old(d.disk.store))
              || Some(d.disk.store) == f.beforeCreate || d.disk.store == Store(None, map[])
    // success: the stored vault projects to exactly the source, and nothing was taken away
    ensures r.Migrated? ==>
              && committed.Some? && d.disk.store == Found(committed.value, f.beforeInspect)
              && Projects(c, d.disk.store, p.id, p.source) && r.recordCount == |p.source|
              && d.disk.anchor.Authentic?
              && (p.owned ==> d.disk.key == Live(p.database.owner) && (f.publication.Some? ==> d.bound))
    ensures r.Migrated? && f.beforeCreate.None? && f.beforeInspect.None? ==>
              d.disk.anchor == Authentic(AnchorOf(d.disk.store.database.value, d.disk.store.vaults))
    // it succeeds when nothing fails and no source name is one that plain objects inherit
    ensures Calm(p, c, old(d.disk.store), old(d.disk.key), old(d.disk.anchor), f) && p.source.Keys !! INHERITED ==>
              r.Migrated?
    // a source name that plain objects inherit can never be migrated
    ensures r.Migrated? && f.beforeInspect.None? ==> p.source.Keys !! INHERITED
    // whatever happens, no stored database loses its key, and another's files and databases stay
    ensures p.owned ==> NoOrphan(d.disk, p.database.owner)
    ensures !p.owned ==> d.disk.key == old(d.disk.key)
    ensures !p.owned && committed.None? ==> d.disk.store == old(d.disk.store) || Some(d.disk.store) == f.beforeCreate
    // once the vault was published, every failure is ambiguous and takes
    // nothing away, unless the binding is provably absent
    ensures committed.Some? && !r.Migrated? ==>
              r == MigrationFailed(MigrationAmbiguous) || (p.owned && f.publication == Some(PublicationAbsent))
    ensures committed.Some? && (r.Migrated? || r == MigrationFailed(MigrationAmbiguous)) ==>
            Retained(d.disk, p, committed.value, f)
    ensures committed.Some? && !Retained(d.disk, p, committed.value, f) ==>
              p.owned && f.publication == Some(PublicationAbsent) && !d.bound && !f.rollback.UndoFailed?
    // a bound profile never loses its database
    ensures d.bound ==> p.owned && committed.Some? && Retained(d.disk, p, committed.value, f)
  {
    var failure, g;
    failure, g, committed := Attempt(d, p, c, f);
    if failure.None? { return Migrated(|p.source|), committed; }
    r := GiveUp(d, p, failure.value, g, f);
  }
}
