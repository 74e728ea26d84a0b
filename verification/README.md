# A verified model of Kavrix

Kavrix keeps secrets in encrypted local databases. This project models, in
Dafny, how it commits, recovers and remembers, and proves what those parts
promise. `dafny verify dfyconfig.toml` checks everything.

**The anchored database.** A store holds one catalog document and its vault
documents and changes them by compare-and-swap on expected revisions
(`DatabaseModel`). Beside each key file lies an anchor that records the last
accepted revision, catalog digest and vault heads (`Anchors`, and as an ordered
record in `AnchorRecords`). A session prepares each call from its cached
document (`Operations`) and runs it through one anchored mutation
(`AnchoredMutations` defines its endings; `DatabaseSession` is a class with the
session's fields and key buffers). `SharedRuns` puts any number of sessions on
one store as a step machine: reads, locks, swaps, anchor writes, crashes, lost
answers and restored older stores are separate events. `Linearization` proves
that, restores aside, every run is a sequential history; `RestoredRuns` that with
restores it is one branch of history, as long as nobody commits across one, and
`CrossedBranches` is a run in which somebody does. `StaleEdits` is a run whose
anchor is not the recomputed one. `OwnedFiles` follows the key files and
recovery kits that initialization, recovery and rollback publish and clean up,
under every fault schedule and with other writers in between, and `RecoveryKits`
how long a kit stays usable; `Migration` does the same for the legacy migration,
whose payload translation is `FlatProjection`. `Faults` names the faults they
share.

**Item history.** `ItemHistory` has recording, retention and restore of item
snapshots, with the part of the vault schema they must satisfy. `VaultSchema`
says what that schema accepts, `MovedItems` which edits it refuses, and
`ItemRestores` what a restore does and why it is refused.

**Around it.** `SecretFraming` is the resumable reader of framed secrets with
its buffers; `ProfileRegistry` the registry of datastore profiles with its
retries; `LegacyVault` the older single vault with its self-advancing anchor;
`RevealJson`, `Glob` and `EnvFile` three text transformations over UTF-16 code
units (`Utf16`); `ConsistentBackup` the double-read backup; `PackageInventory`
the dependency worklist. `Sorting` and `Wrappers` are shared.

Encryption is not modelled: a document stands for its authenticated plaintext,
and a digest is an injective constructor over exactly the fields it covers.

## What turned out differently

Some promises hold only under a condition. Each has a lemma with the exact
condition, a counterexample, or both.

- Acceptance of anchors is not transitive. A vault that is dropped may come back
  at an older revision (`Anchors.VerifyComposesIff`).
- Accept-current does not repair an existing anchor file that cannot be read: it
  rewrites in create mode, which refuses an existing file
  (`Anchors.AcceptCurrentRepairsIff`).
- After a successful mutation the anchor equals the recomputed one exactly when
  no other vault moved between the listing and the commit, and, for an edit, the
  cached document was current (`Anchors.AfterIsRecomputedIff`). An edit of a
  session that another one overtook is acknowledged all the same, and the next
  plain open at its seat is refused (`StaleEdits.StaleEditLeavesOtherAnchor`).
  The anchor leaves the owner slot open; the key file binding pins it
  (`Anchors.AnchorPinsContent`).
- A record named like a property that every plain object inherits, such as
  `constructor`, collides when the migrated vault is projected, so migrating it
  ends as ambiguous after the vault was published (`FlatProjection.RoundTripIff`).
- The first structured edit of a legacy vault stores no snapshot of what it
  replaced (`ItemHistory.StructuredPathRecordsIff`). An edit of more than 10,000
  items at once drops some of its own records (`ItemHistory.EditsSurviveIff`).
  Restoring a snapshot of a deleted item cannot be undone by address
  (`ItemHistory.RestoreIsUndoable`). An edit that moves an item to another
  group is refused, because its record stays in the old one, unless more than
  10,000 edited items push that record out; nothing else is refused
  (`MovedItems.EditRefusedIff`).
- A request for secrets that is read in two goes can lose a length check: a lone
  short passphrase read before the value frames passes, while one read refuses
  it (`SecretFraming.ChecksSplitIff` has the exact condition on the cut).
- Healing a dangling profile selection checks before it locks and clears under
  the lock, so it can drop a selection made in between
  (`ProfileRegistry.HealingCanDropASelection`): exactly when another process
  selected and none undid that (`ProfileRegistry.SelectionIff`).
- The legacy vault's digest leaves out the payload, so a fork of the anchored
  revision that changes only the payload is accepted
  (`LegacyVault.PayloadForkIsAccepted`), and a late concurrent writer takes the
  anchor back (`LegacyVault.LateWriterLowersAnchor`).
- The substring search works on code units and the glob on code points; they
  differ exactly for patterns cut inside a surrogate pair
  (`Glob.SubstringIsGlobIff`).
- The `.env` reader strips trailing white space from values
  (`EnvFile.RoundTripIff`) and lets an empty name through after an export prefix
  with extra white space (`EnvFile.EmptyNameIff`), as well as one that starts
  like a comment: such entries do not survive printing and parsing again
  (`EnvFile.ReprintsIff`).
- The double read does not reject every change while it copies. A history of the
  database file can be torn exactly when a content is replaced, comes back and
  is replaced again (`ConsistentBackup.DatabaseTearsIff`), one of the
  authorization state exactly when a state comes up, is replaced and comes back
  (`ConsistentBackup.AuthorizationTearsIff`); a torn pack needs both
  (`ConsistentBackup.PackIsCoherent`, `ConsistentBackup.TornPack`).
- The package inventory is exact if and only if name and version determine the
  package (`PackageInventory.InventoryIsExactIff`,
  `PackageInventory.SecondCopyIsLeftOut`).
- An older store that is put back while a session is between its anchor check
  and its swap can leave a catalog that does not match the vaults
  (`CrossedBranches.CrossingPartsCatalogAndVaults`).

## Model

| member | source | states |
|---|---|---|
| `Anchors.VerifyComposesIff` | packages/key-files/src/database-revision-anchor.ts:334-380 | accepting b against a and c against b accepts c against a exactly when no vault that b dropped comes back older or forked in c |
| `Anchors.VerifyIsNotTransitive` | packages/key-files/src/database-revision-anchor.ts:334-380 | anchor acceptance is not transitive: a dropped vault may return at an older revision |
| `Anchors.AdvancesTransitive` | packages/key-files/src/database-revision-anchor.ts:334-380 | the part of acceptance that does compose: no older database revision, and at an equal revision the same catalog and no older vault |
| `Anchors.AnchorPinsContent` | apps/cli/src/database-session.ts:1946-1968 | two anchors are equal exactly when revision, catalog, recovery slots and every vault are; only the owner slot stays open |
| `Anchors.AfterIsRecomputedIff` | apps/cli/src/database-session.ts:1600-1610 | the anchor computed before an accepted mutation is the one recomputed after it exactly when the cached document was current (for an edit) and no other vault head moved since the listing |
| `StaleEdits.StaleEditLeavesOtherAnchor` | apps/cli/src/database-session.ts:1600-1658 | a reachable input on which it is not: a faultless run of two seats in which an acknowledged edit on a stale cached catalog leaves another anchor, and the next plain open there is refused |
| `Anchors.PlainOpenIff` | apps/cli/src/database-session.ts:2053-2144 | a plain open succeeds exactly on the anchored state or with an unused share bootstrap and no anchor file; an existing anchor file is never replaced by it |
| `Anchors.AcceptCurrentRepairsIff` | apps/cli/src/database-session.ts:2146-2172 | accept-current leaves an anchor on which plain opens succeed, except on an existing unreadable anchor file |
| `Anchors.VerifyIff` | packages/key-files/src/database-revision-anchor.ts:334-380 | the anchor comparison accepts exactly a state in which nothing that the anchor records was rolled back, and the exact one also wants the same vaults |
| `Anchors.RecoveryOpenIff` | apps/cli/src/database-session.ts:1970-1988 | a recovery kit opens exactly a database that was not rolled back behind its anchor, and moves the anchor there |
| `Anchors.InterruptedCommitIsRefusedThenRepaired` | apps/cli/src/database-session.ts:1970-2013 | a commit that lost its anchor write is refused by every plain open and repaired by one accept-current |
| `AnchorRecords.FromVaultsOrdered` | apps/cli/src/database-session.ts:1946-1968 | the recomputed record is ordered by id, without duplicates, and holds exactly the listed heads |
| `AnchorRecords.WithVaultRefines` | apps/cli/src/database-session.ts:2174-2231 | updating the record for a created or updated vault gives the recomputed record of the changed vaults, for any listing order |
| `AnchorRecords.WithoutVaultRefines` | apps/cli/src/database-session.ts:2209-2231 | removing a vault from the record gives the recomputed record of the remaining vaults, for any listing order |
| `AnchorRecords.SameVaultSetIff` | apps/cli/src/database-session.ts:1880-1891 | the elementwise comparison of sorted ids accepts exactly when catalog ids and stored ids are equal as multisets |
| `Operations.CommitRefines` | apps/cli/src/database-session.ts:870-1168 | an accepted request, prepared from the stored document, was enabled and leaves a well-formed store whose summary is the call applied to the summary before |
| `Operations.CreateRefines` | apps/cli/src/database-session.ts:870-943 | creating adds one catalog entry with a new id and a new name, and its payload |
| `Operations.RenameRefines` | apps/cli/src/database-session.ts:945-968 | renaming changes one name and keeps names distinct |
| `Operations.EditRefines` | apps/cli/src/database-session.ts:1022-1100 | an edit changes one payload, computed from the payload it replaces |
| `Operations.RemoveRefines` | apps/cli/src/database-session.ts:1138-1168 | removing takes one id out of catalog and vaults alike |
| `Operations.AddRecoveryRefines` | apps/cli/src/database-session.ts:1170-1283 | adding a recovery slot adds one active slot |
| `Operations.RevokeRefines` | apps/cli/src/database-session.ts:1389-1410 | revoking turns one active slot and leaves another one active |
| `Operations.ReplaceOwnerRefines` | apps/cli/src/database-session.ts:1412-1585 | recovery replaces the owner slot and nothing else |
| `Operations.PerformConsistent` | apps/cli/src/database-session.ts:870-1168 | an enabled call keeps ids and names unique, catalog and vaults in step, and a slot active once one was |
| `Operations.HistoryConsistent` | apps/cli/src/database-session.ts:870-1168 | the same over every legal history of calls, and the revision grows by exactly the number of catalog changes |
| `Operations.VaultRevisionsCountEdits` | apps/cli/src/database-session.ts:1022-1100 | along every legal history the revision of a vault counts its edits without a gap, from 0 at its creation |
| `Operations.PreparedIff` | apps/cli/src/database-session.ts:870-1410 | nothing enabled is refused: on the stored document each of the seven calls becomes a request exactly when the summary enables it and there is room |
| `Operations.PreparedIsAccepted` | packages/storage/src/file-encrypted-database.ts:362-485 | a store within its limits accepts every such request |
| `Operations.PerformBounded` | apps/cli/src/database-session.ts:870-1410 | calls with room keep the limits on vaults and recovery slots |
| `SharedRuns.StepGuards` | packages/key-files/src/database-revision-anchor.ts:274-327 | every step keeps: a session past its anchor check holds the lock of its anchor file, which still is the anchor it checked |
| `SharedRuns.StepVerifies` | packages/key-files/src/database-revision-anchor.ts:274-380 | every step but an accept-current leaves an anchor that the full acceptance test admits against the one before, vault heads included |
| `SharedRuns.AnchorOnlyAdvances` | packages/key-files/src/database-revision-anchor.ts:274-380 | in every run, with crashes, hidden effects, concurrent seats and restored stores, an anchor that is not deliberately re-anchored only advances |
| `SharedRuns.HeadOnlyAdvances` | packages/key-files/src/database-revision-anchor.ts:334-380 | in every such run the head of a vault that the anchor records throughout only advances, across any number of catalog changes |
| `SharedRuns.AcknowledgedCommitSurvives` | apps/cli/src/database-session.ts:585-668 | once a seat acknowledged a commit, a later plain open there without re-anchoring sees exactly the anchored state, no older than that commit, and no vault recorded throughout older than the commit left it, whatever older state was restored |
| `SharedRuns.AnchoredIsRun` | apps/cli/src/database-session.ts:1612-1658 | one anchored mutation is the run lock, mutate, publish of the machine: same store, same anchor file, same ending, under every fault |
| `SharedRuns.ListingIff` | apps/cli/src/database-session.ts:1868-1895 | a session goes on after listing exactly when the stored vaults are those of the catalog it read |
| `SharedRuns.OpenFinishIff` | apps/cli/src/database-session.ts:2053-2144 | an open ends usable exactly when the anchor accepts and nothing has to be written or the write under a free lock is known |
| `AnchoredMutations.AnchoredEnds` | packages/key-files/src/database-revision-anchor.ts:274-327 | a success moved store and anchor together, a refusal moved neither, and otherwise the anchor never runs ahead of the store |
| `AnchoredMutations.FaultlessGoesThrough` | apps/cli/src/database-session.ts:1612-1658 | without a fault, a request that the store accepts goes through at the anchor of that store |
| `Linearization.AcceptancePins` | packages/storage/src/file-encrypted-database.ts:362-485 | what the compare-and-swap proves about the session: its cached document, or the vault it read, was the stored one |
| `Linearization.AcceptHistory` | apps/cli/src/database-session.ts:1612-1658 | an accepted request appends exactly one enabled call to the history that replays to the store |
| `Linearization.StepLinear` | apps/cli/src/database-session.ts:1612-1658 | every step but a restore keeps: the store is the sequential replay of the accepted calls |
| `Linearization.RunsAreSequential` | apps/cli/src/database-session.ts:870-967 | every run of any number of sessions with any faults equals the sequential replay of its accepted calls, each enabled when accepted: no update is lost and the revision chain has no gap |
| `Linearization.RunsStayConsistent` | apps/cli/src/database-session.ts:1389-1410 | in every run names and ids stay unique and agree with the stored vaults; from any point of it on, a recovery slot stays active if one is there, also under concurrent revocation, and the revision grows by exactly the catalog changes since |
| `Linearization.RunsCountEdits` | apps/cli/src/database-session.ts:1022-1100 | from any point of a run on, the revision of each stored vault counts its edits since, or since its creation |
| `Linearization.HistoryIsNeverRewritten` | apps/cli/src/database-session.ts:1612-1658 | what was committed at a point of a run stays committed, in order |
| `RestoredRuns.RestoredRunsBranch` | packages/storage/src/file-encrypted-database.ts:362-485 | whatever older state of the store is put back and how often: while no session commits across a restore, catalog and vaults agree and the store is the replay of a legal history of accepted calls |
| `CrossedBranches.CrossingPartsCatalogAndVaults` | apps/cli/src/database-session.ts:1612-1658 | a faultless run in which a session commits across a restore: catalog and vaults part and an acknowledged rename is lost |
| `DatabaseSession.Zeroize` | apps/cli/src/database-session.ts:1660-1667 | the buffer holds only zeros afterwards |
| `DatabaseSession.Session.Poison` | apps/cli/src/database-session.ts:1660-1667 | the session is closed and both keys are zero |
| `DatabaseSession.Session.AnchoredMutation` | apps/cli/src/database-session.ts:1612-1658 | ends as AnchoredMutations defines under every fault: success (store one request on, anchor moved), failure (nothing moved, session usable), ambiguous commit (session closed for good, keys zero) |
| `DatabaseSession.Session.Mutate` | apps/cli/src/database-session.ts:1600-1610 | runs a prepared request between the anchors computed around it; a failure changes nothing, a success applies the call, advances the cache, and leaves the recomputed anchor unless an edit ran on a stale cached document |
| `DatabaseSession.Session.Execute` | apps/cli/src/database-session.ts:870-1061 | every operation: on the stored document exactly what the summary does not enable or has no room for is refused, everything else goes through when nothing fails, and a success is the call performed on the summary |
| `DatabaseModel.SubmitIff` | packages/storage/src/file-encrypted-database.ts:362-480 | which requests the store takes, and that a stale one is answered as a conflict, a taken id as existing, and a wrong revision or a full store as invalid |
| `DatabaseModel.SubmitErrorsAreProven` | apps/cli/src/database-session.ts:2473-2481 | every rejection by the compare-and-swap carries a code that proves it had no effect, and no code of an interrupted call does |
| `OwnedFiles.Cleanup` | apps/cli/src/database-session.ts:2426-2435 | only files this run published are emptied |
| `OwnedFiles.Initialize` | apps/cli/src/database-session.ts:331-494 | exactly when it succeeds and exactly when it is ambiguous, over all faults; no stored database names a slot whose key file was emptied; a binding that is or may be published keeps database and files; foreign files are untouched |
| `OwnedFiles.RollbackInitialization` | apps/cli/src/database-session.ts:538-576 | files go only after the database provably went; an unacknowledged rollback keeps them and is ambiguous |
| `OwnedFiles.CreateRecovery` | apps/cli/src/database-session.ts:1170-1283 | exactly when the kit is added and exactly when that is ambiguous, also when other writers commit in between; the kit is emptied only when the store provably does not name its slot; its anchor then is the recomputed one |
| `OwnedFiles.PublishOwner` | apps/cli/src/database-session.ts:1480-1545 | the new owner key is kept exactly when the commit may have happened, also when other writers commit between reading and commit; their conflict provably leaves the store without the new slot |
| `OwnedFiles.UseRecovery` | apps/cli/src/database-session.ts:1412-1585 | a kit that opens makes its owner key the owner when nothing fails; a revoked kit, or an anchor behind which the database was rolled back, changes nothing |
| `RecoveryKits.KitStaysUsableIff` | apps/cli/src/database-session.ts:1412-1470 | a kit anchored at a stored state opens a later one, whatever requests the store accepted in between, exactly when its slot is active and no vault that was dropped came back older or different |
| `RecoveryKits.KitStaysUsable` | apps/cli/src/database-session.ts:1412-1470 | in particular while its slot is active and dropped vaults stay away |
| `FlatProjection.ProjectFlat` | apps/cli/src/structured-vault-projection.ts:142-160 | the loop computes the projection and its first error |
| `FlatProjection.UpgradeIff` | apps/cli/src/structured-vault-projection.ts:109-135 | upgrading succeeds exactly when every name is exact, and yields one item per record |
| `FlatProjection.RoundTripIff` | apps/cli/src/structured-vault-projection.ts:109-160 | upgrade then projection returns the records exactly when no name is one that plain objects inherit; otherwise it reports a collision |
| `FlatProjection.ProjectIff` | apps/cli/src/structured-vault-projection.ts:142-160 | a vault projects exactly when every live item of the default service has its canonical value, no two share a title and none is inherited; the records are then those values under those titles |
| `FlatProjection.ExactNameIff` | apps/cli/src/structured-vault-projection.ts:109-135 | an exact name neither starts nor ends with a white space character of ECMA-262 |
| `Migration.PublishVault` | apps/cli/src/database-migration.ts:153-173 | the migrated vault enters the store by one anchored creation, also when others write in between; it projects to the source exactly when no name is one that plain objects inherit |
| `Migration.Migrate` | apps/cli/src/database-migration.ts:90-279 | succeeds when nothing fails and no name is inherited; success only if the stored vault projects to exactly the source; after publication every other failure is ambiguous and takes nothing away unless the binding is provably absent; a bound profile never loses its database, vault or key; another database loses nothing |
| `ItemHistory.KeepNewest` | apps/cli/src/item-snapshots.ts:50-59 | the reverse pass with counters keeps the snapshots with fewer than 100 later ones of the same item |
| `ItemHistory.RecordItemSnapshots` | apps/cli/src/item-snapshots.ts:25-65 | the loops compute recording as defined, including the legacy, empty and schema-violation cases |
| `ItemHistory.RetainedAreSurvivors` | apps/cli/src/item-snapshots.ts:50-63 | the per-item pass followed by the cut to 10,000 keeps, in order, exactly the candidates with fewer than 100 later ones of the item and fewer than 10,000 later kept ones |
| `ItemHistory.RetainsMostRecentOfEachItem` | apps/cli/src/item-snapshots.ts:50-63 | of every item at most 100 snapshots are kept, and they are a suffix of its snapshots |
| `ItemHistory.RecordsNoDeadItem` | apps/cli/src/item-snapshots.ts:32-35 | no retained snapshot belongs to an item that is gone |
| `ItemHistory.EditIsRecordedOnce` | apps/cli/src/item-snapshots.ts:36-45 | an edited item gets exactly one new snapshot, of its replaced content, and an unedited one none |
| `ItemHistory.EditsSurviveIff` | apps/cli/src/item-snapshots.ts:36-63 | the new snapshots of one edit all survive its retention, as the newest in order, exactly when it touches at most 10,000 items |
| `MovedItems.EditRefusedIff` | apps/cli/src/item-snapshots.ts:25-65 | recording a valid edit that leaves the snapshots alone is refused exactly when it moves an item to another group and edits at most 10,000 items from that one on |
| `ItemHistory.FlatPathRecordsOnce` | apps/cli/src/database-session.ts:970-1001 | on the flat update path, from a legacy payload as from a structured one, an edited item gains exactly one snapshot, of the replaced content and as its newest |
| `ItemHistory.StructuredPathRecordsIff` | apps/cli/src/database-session.ts:1004-1061 | on the structured update path an edited item has a newly recorded snapshot afterwards exactly when the stored payload was already structured |
| `ItemHistory.ShapesDecide` | packages/schemas/src/structured-vault.ts:80-330 | whether the schema accepts the items does not depend on their revisions, times and contents |
| `ItemHistory.LocateReplaced` | apps/cli/src/item-snapshots.ts:76-90 | looking the address up after a restore finds the restored item, or nothing when it was restored as deleted |
| `ItemHistory.RestoreIsRecorded` | apps/cli/src/item-snapshots.ts:68-122 | the commit of every successful restore records exactly the replaced item, and that record survives retention and is found again |
| `ItemHistory.RestoreIsUndoable` | apps/cli/src/item-snapshots.ts:68-122 | restoring that record gives back the original items but for a revision two higher and the new time, exactly when the first restored snapshot was not of a deleted item |
| `ItemRestores.RestoreIff` | apps/cli/src/item-snapshots.ts:68-122 | a restore stores exactly the vault in which the live item that context, service and title name is exchanged, and only it, for the content of its stored snapshot under the current title, one revision on, if everything that refers to is still there and the result is valid |
| `ItemRestores.RefusedBecause` | apps/cli/src/item-snapshots.ts:76-118 | a restore is refused as missing exactly when no such item and snapshot exist, and as broken exactly when something the snapshot refers to is gone |
| `VaultSchema.ValidIff` | packages/schemas/src/structured-vault.ts:80-330 | the schema accepts exactly vaults in which every identity is of one entity, names tell entities apart, every reference resolves inside the vault, and snapshots are bound and within their limits |
| `SecretFraming.LocalSecretInput.ConsumePending` | apps/cli/src/local-secrets.ts:218-222 | the unread rest is copied and the old buffer is zero |
| `SecretFraming.LocalSecretInput.NextChunk` | apps/cli/src/local-secrets.ts:180-203 | pulls until bytes are pending, leaves the remaining input unchanged, and zeroes the delivered chunk |
| `SecretFraming.LocalSecretInput.AppendBytes` | apps/cli/src/local-secrets.ts:600-609 | joins two buffers within the limit and zeroes the old frame, or refuses and changes nothing |
| `SecretFraming.LocalSecretInput.RequireStdinEnd` | apps/cli/src/local-secrets.ts:205-216 | succeeds exactly when no input remains |
| `SecretFraming.LocalSecretInput.TakeLine` | apps/cli/src/local-secrets.ts:143-152 | one step of the loop on a pending line feed continues the same request |
| `SecretFraming.LocalSecretInput.TakeChunk` | apps/cli/src/local-secrets.ts:153-168 | one step of the loop without a line feed continues the same request and uses up what was pending |
| `SecretFraming.LocalSecretInput.ReadStdin` | apps/cli/src/local-secrets.ts:135-178 | the answer is the one defined on the byte stream alone; every buffer ever owned is zero except unread pending bytes, and none is left after an error |
| `SecretFraming.LocalSecretInput.Read` | apps/cli/src/local-secrets.ts:72-82 | the same, with illegal requests refused before anything is read |
| `SecretFraming.TakePending` | apps/cli/src/local-secrets.ts:143-160 | taking a frame out of a chunk with more input behind it is taking it byte by byte |
| `SecretFraming.AnyChunking` | apps/cli/src/local-secrets.ts:180-203 | however the bytes are cut into chunks, the stream is the same |
| `SecretFraming.AnswerIsFromLines` | apps/cli/src/local-secrets.ts:135-178 | for every byte stream the answer, including the first error, is the one of splitting the whole stream into lines |
| `SecretFraming.FramesSplit` | apps/cli/src/local-secrets.ts:135-178 | for any cut of the request the frames of the first read and then of the second are those of one read, with the same first framing, size or decoding error |
| `SecretFraming.ChecksSplitIff` | apps/cli/src/local-secrets.ts:639-682 | the length and order checks of two reads refuse the same values as those of one read exactly at the cuts of the request that lose no checked passphrase |
| `SecretFraming.ResumedIsOneRead` | apps/cli/src/local-secrets.ts:135-178 | a request read in two goes: the same first error as one read, unless the first values were already refused among themselves; at a cut that loses no check the same values or a refusal in both |
| `SecretFraming.ReturnsAreIgnored` | apps/cli/src/local-secrets.ts:611-620 | carriage returns before the line feeds change no answer, and a frame without one is decoded as it is |
| `SecretFraming.RefusedValuesIff` | apps/cli/src/local-secrets.ts:622-682 | values are refused as too short exactly for a passphrase under 16 bytes beside another one, and otherwise as out of order exactly for such a passphrase on its own beside field or note content |
| `ProfileRegistry.ViewIsWellFormed` | apps/cli/src/datastore-profiles.ts:1033-1044 | whatever file is accepted, a mutation starts from a well-formed document |
| `ProfileRegistry.Reparses` | apps/cli/src/datastore-profiles.ts:965-1011 | a well-formed registry reads back as itself |
| `ProfileRegistry.ApplyKeepsWellFormed` | apps/cli/src/datastore-profiles.ts:312-744 | every mutation writes a registry that is sorted, distinct, bounded, with defaults only on bound profiles and a live or empty selection |
| `ProfileRegistry.OthersUntouched` | apps/cli/src/datastore-profiles.ts:312-744 | a mutation leaves every profile it does not name as it was |
| `ProfileRegistry.BindingKept` | apps/cli/src/datastore-profiles.ts:430-566 | a bound profile keeps its database through every mutation but its own removal |
| `ProfileRegistry.RunsAreWellFormed` | apps/cli/src/datastore-profiles.ts:757-803 | in every run of mutations by any processes every written registry is well-formed and readable |
| `ProfileRegistry.DatabaseIsPinned` | apps/cli/src/datastore-profiles.ts:430-526 | over every run a profile names the same database until it is removed |
| `ProfileRegistry.ApplyDoes` | apps/cli/src/datastore-profiles.ts:312-744 | each accepted mutation does to the profile it names and to the selection what it says, and nothing else |
| `ProfileRegistry.RefusedIff` | apps/cli/src/datastore-profiles.ts:312-744 | each mutation is refused exactly for its reason, and with it |
| `ProfileRegistry.AppliedIff` | apps/cli/src/datastore-profiles.ts:312-744 | what a mutation does leaves one well-formed registry to write, and that one is written |
| `ProfileRegistry.ParsedIff` | apps/cli/src/datastore-profiles.ts:965-1011 | a file is accepted exactly with a known version, at most 64 valid profiles, and identities in strict order |
| `ProfileRegistry.Registry.TryPublish` | packages/key-files/src/canonical-json-document.ts:133-221 | one attempt applies the mutation once or not at all, and reports absence only when it did not |
| `ProfileRegistry.Registry.MutateWithPublicationStatus` | apps/cli/src/datastore-profiles.ts:805-844 | over three attempts: not published means never applied, published means applied exactly once, uncertain means at most once |
| `ProfileRegistry.Registry.Mutate` | apps/cli/src/datastore-profiles.ts:757-803 | success means that the mutation did what it says, last of all commits; without unacknowledged writes exactly once, and failure means not at all; undisturbed it succeeds unless it is refused, also after two busy attempts |
| `ProfileRegistry.SelectionIff` | apps/cli/src/datastore-profiles.ts:394-662 | from a registry without a live selection, one is there after some mutations exactly when one of them selected and no later one undid it |
| `ProfileRegistry.Registry.HealDanglingCurrentPointer` | apps/cli/src/datastore-profiles.ts:639-662 | heals exactly when the pointer dangled when it was looked at; what it clears is the selection after the commits of others, a live one exactly when one of them selected for good |
| `ProfileRegistry.HealingCanDropASelection` | apps/cli/src/datastore-profiles.ts:639-662 | a selection made between the look and the lock is dropped by the healing |
| `LegacyVault.LocalVault.Unlock` | apps/cli/src/local-vault-cli.ts:3202-3285 | the decision of an unlock and the anchor it leaves |
| `LegacyVault.LocalVault.PersistUpdatedDocument` | apps/cli/src/local-vault-cli.ts:3378-3393 | one call is a pair of steps of the machine for the process that holds the document, also with a crash between them, and whatever it ended in the next unlock succeeds without accepting anything |
| `LegacyVault.PersistedStates` | apps/cli/src/local-vault-cli.ts:3378-3393 | the two steps keep the machine consistent; a process that another one overtook changes nothing, any other stores its update |
| `LegacyVault.AnchorNeverAhead` | apps/cli/src/local-vault-cli.ts:3378-3393 | in every run, with crashes and overlapping processes, the anchor revision never exceeds the store revision |
| `LegacyVault.NextUnlockReanchors` | apps/cli/src/local-vault-cli.ts:3202-3285 | in every run the next undisturbed unlock succeeds without accepting anything and anchors the stored document |
| `LegacyVault.SnapshotRefusedIff` | apps/cli/src/local-vault-cli.ts:3252-3262 | in every run an earlier snapshot is refused exactly when it is older than the anchor |
| `LegacyVault.RefusedIff` | apps/cli/src/local-vault-cli.ts:3252-3262 | a document is refused exactly when it is older than the anchored one or has its revision with other metadata |
| `LegacyVault.PayloadForkIsAccepted` | apps/cli/src/local-vault-cli.ts:3445-3480 | a fork of the anchored revision with the same metadata and another payload is accepted |
| `LegacyVault.LowersAnchorIff` | apps/cli/src/local-vault-cli.ts:3264-3272 | a step lowers the anchor exactly when a process writes the anchor of a document older than the anchored one |
| `LegacyVault.SingleWriterIsMonotone` | apps/cli/src/local-vault-cli.ts:3202-3393 | as long as commands do not overlap the anchor never goes back |
| `LegacyVault.LateWriterLowersAnchor` | apps/cli/src/local-vault-cli.ts:3378-3393 | a late concurrent writer takes the anchor back |
| `LegacyVault.NothingOpensUnanchored` | apps/cli/src/local-vault-cli.ts:3202-3285 | without a trusted anchor and without accepting, no run opens a document or writes an anchor |
| `LegacyVault.RefusedUnlockIff` | apps/cli/src/local-vault-cli.ts:3202-3285 | an unlock is refused as missing, unreadable or rolled back exactly in these cases |
| `LegacyVault.CreationNeverOverwrites` | apps/cli/src/local-vault-cli.ts:3264-3272 | a process that accepted a missing anchor creates it, and leaves one that another process wrote in the meantime |
| `RevealJson.StringRoundTrip` | apps/cli/src/local-vault-cli.ts:4098-4122 | every string of code units, quoted and passed, reads back as itself by section 7 of RFC 8259, whatever follows |
| `RevealJson.ValueRoundTrip` | apps/cli/src/local-vault-cli.ts:4098-4122 | the same for every value, whatever follows it |
| `RevealJson.EscapeRemovesControls` | apps/cli/src/local-vault-cli.ts:4098-4106 | the passed text holds no C0, DEL or C1 character |
| `RevealJson.RevealRoundTrip` | apps/cli/src/local-vault-cli.ts:4117-4122 | the emitted document reads back as the payload and holds no control character |
| `Glob.CompiledParses` | apps/cli/src/local-vault-cli.ts:1770-1778 | the emitted text always parses, to one term per code point of the pattern |
| `Glob.TermsMatch` | apps/cli/src/local-vault-cli.ts:1770-1779 | from every position the compiled terms match exactly what the rest of the glob does |
| `Glob.CompilePreservesMeaning` | apps/cli/src/local-vault-cli.ts:1770-1779 | the emitted regular expression accepts a name exactly when the glob does |
| `Glob.WildcardSearch` | apps/cli/src/local-vault-cli.ts:1760-1780 | with a wildcard the search is the glob, from code units on |
| `Glob.SubstringIsGlobIff` | apps/cli/src/local-vault-cli.ts:1767-1769 | the substring search is the glob *pattern* on all names exactly for patterns that are not cut inside a surrogate pair |
| `EnvFile.ParseEnvDocument` | apps/cli/src/import-env-command-impl.ts:84-128 | the loop computes the entries or the first error with its line number |
| `EnvFile.SameMeanings` | apps/cli/src/import-env-command-impl.ts:84-128 | documents that differ only in ignored lines and line decoration give the same entries, or are both refused |
| `EnvFile.RenderParses` | apps/cli/src/import-env-command-impl.ts:84-128 | a document with any mixture of blank lines, comments, indentation, export prefixes and trailing space parses to its entries in order, values without trailing white space |
| `EnvFile.RoundTripIff` | apps/cli/src/import-env-command-impl.ts:84-128 | printing and parsing returns the entries exactly when no value ends in white space |
| `EnvFile.EmptyNameIff` | apps/cli/src/import-env-command-impl.ts:94-103 | an empty name passes exactly when an export prefix is followed by more white space and the separator |
| `EnvFile.LegalNameIff` | apps/cli/src/import-env-command-impl.ts:100-108 | a name is accepted exactly when it consists of printable ASCII and of anything beyond it that is not white space |
| `EnvFile.DefinitionRefusedIff` | apps/cli/src/import-env-command-impl.ts:91-108 | a definition is refused as malformed exactly without a separator or with nothing before it, and for its name exactly when that holds another character |
| `EnvFile.ParsedAreUsable` | apps/cli/src/import-env-command-impl.ts:84-128 | whatever a document yields is between 1 and 500 entries with distinct, legal names and values without line feed or trailing white space |
| `EnvFile.ReprintsIff` | apps/cli/src/import-env-command-impl.ts:84-128 | printing what was parsed and parsing it again gives the same entries exactly when no name is empty or starts like a comment |
| `ConsistentBackup.PackIsCoherent` | apps/cli/src/firewall-recovery.ts:54-83 | an accepted pack holds contents that existed together at one instant, unless that database content went twice and that authorization state came twice |
| `ConsistentBackup.DatabaseTearsIff` | apps/cli/src/firewall-recovery.ts:53-83 | a history of the database file can be torn by some history of the other file exactly when a content of this database is replaced, comes back and is replaced again |
| `ConsistentBackup.AuthorizationTearsIff` | apps/cli/src/firewall-recovery.ts:53-83 | a history of the authorization state can be torn by some history of the database file exactly when some state comes up, is replaced and comes back |
| `ConsistentBackup.TornPack` | apps/cli/src/firewall-recovery.ts:54-83 | when both files go back and forth an accepted pack can hold contents that never existed together |
| `ConsistentBackup.PackIff` | apps/cli/src/firewall-recovery.ts:54-83 | a backup is refused as changed exactly when two readings differ, and otherwise exactly when the container is unreadable or of another database |
| `ConsistentBackup.PackUnpackIff` | apps/cli/src/firewall-recovery.ts:54-117 | a packed bundle unpacks to the database bytes that were read, in a version 2 archive of the same database and nowhere else |
| `ConsistentBackup.UnpackIff` | apps/cli/src/firewall-recovery.ts:86-117 | exactly what an archive payload unpacks to: raw version 1 bytes as they are, and a version 2 bundle of the same database |
| `ConsistentBackup.Draft.Restore` | apps/cli/src/firewall-recovery.ts:189-212 | policies replaced, grants dropped, the newest 511 audit events and one more renumbered without a gap; a refusal changes nothing |
| `ConsistentBackup.NumbersAreNew` | apps/cli/src/firewall-recovery.ts:199-210 | no audit number that was in use is used again |
| `PackageInventory.CollectRuntimePackages` | apps/cli/scripts/build-package.js:330-364 | the loop computes the worklist result, sorted, on every finite and possibly cyclic graph |
| `PackageInventory.InventoryIsClosed` | apps/cli/scripts/build-package.js:330-357 | every listed package is reachable, no key is listed twice, the list is closed under dependencies up to keys, and a failure names a reachable package with an unresolved dependency |
| `PackageInventory.InventoryIsReachable` | apps/cli/scripts/build-package.js:330-357 | when name and version determine the package: failure exactly when a reachable dependency does not resolve, else exactly the reachable packages, each once |
| `PackageInventory.InventoryIsExactIff` | apps/cli/scripts/build-package.js:330-357 | a written inventory lists exactly the reachable packages if and only if name and version determine the package, and misses an unresolved dependency only when they do not |
| `PackageInventory.SecondCopyIsLeftOut` | apps/cli/scripts/build-package.js:336-338 | of two copies of one name and version the second and what only it needs are left out |
| `PackageInventory.KeyIff` | apps/cli/scripts/build-package.js:333-338 | the key tells packages of another name or version apart |
| `PackageInventory.EveryVersionIsListed` | apps/cli/scripts/build-package.js:330-357 | of the seeds and of the dependencies of whatever is listed, every version of every name is listed, each once |

## Left out

- Key derivation, ciphers, base64 and the bytes of canonical JSON: documents are
  plaintext values, digests are injective, and identifiers drawn at random are
  assumed new.
- Times and nonces of database documents, the database label, and the cap of
  revisions at 2^53: they take no part in a decision that is modelled.
- Size limits of payloads, files and schema arrays, except the numbers of
  vaults, recovery slots, profiles, snapshots, audit events and `.env` entries.
- Locks as such: the anchor lock is a field of the step machine, the registry
  lock makes each attempt atomic; how the files implement them, Windows access
  lists and file permissions are not part of this model.
- Two operations at once on one session object: a session is sequential, any
  number of sessions is not.
- MongoDB stores, the terminal's masked prompts, string chunks on standard
  input, command registration, rendering and exit codes.
- Authorization state access, local share key creation and recovery
  verification.
- OwnedFiles.UseRecovery: what becomes of the kit's own anchor file is left to
  the recovering sessions of SharedRuns; the method keeps the new owner key, its
  anchor and the store.
- DatabaseSession.Session.Execute: the session's separate operations are one
  method over a call, because they differ only in the request they prepare; the
  optional observer of cleared keys, which could throw, is not modelled. Other
  sessions acting between its steps are events of SharedRuns.
- Linearization.RunsAreSequential: says nothing about runs in which an older
  store is put back, because there the history itself forks; RestoredRuns and
  the anchor results of SharedRuns cover those runs.
- Migration.Migrate: reading and decrypting the legacy source is one
  authenticated input; how a vault is written into a document is a parameter
  that reads back; other writers act at two points, before the vault is
  published and before it is read back, and store no other database that names
  the owner slot drawn for this one.
- MovedItems.EditRefusedIff: takes an edit that keeps the vault's id and its
  snapshots, as the commands do, and new snapshot identifiers.
- ItemHistory.RecordItemSnapshots: identifiers of new snapshots are a supplied
  list, and the schema covers identities within and across kinds, vault ids,
  references, groups, titles, snapshots and retention, not the typed fields
  inside an item or the execution policy.
- SecretFraming.ResumedIsOneRead: decoding a frame and the byte length of a value
  are parameters of the reader.
- ProfileRegistry.Registry.TryPublish: field syntax of profiles and the size
  limit of the file are left out, so writing a mutation that Apply accepts is
  not refused; a file that cannot be read is not modelled.
- The callers' update functions, including the application of a flat snapshot to
  a structured payload: recording and committing take their result as given.
- How an onboarding command classifies a failed profile addition, and the checks
  of a caller's observed database against a profile.
- LegacyVault.LowersAnchorIff: creating a missing anchor is outside it, as there
  is no anchor to lower.
- RevealJson.ValueRoundTrip: numbers are kept as their text, and the display
  sanitization of other fields is not part of this model.
- Glob.WildcardSearch: case mapping is applied by the caller to both sides.
- ConsistentBackup.PackUnpackIff: the container and bundle formats are
  parameters with the one law that a serialized bundle reads back.
- PackageInventory.CollectRuntimePackages: the collation is a parameter, and
  reading a package's metadata is the graph's resolve function.
