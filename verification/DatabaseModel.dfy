/**
 * The documents of one encrypted database and the optimistic-concurrency store
 * that holds them. Encryption is not modelled: a document stands for its
 * authenticated plaintext, and a keyed digest is an injective constructor over
 * exactly the fields that the digest covers.
 */
module DatabaseModel {
  import opened Wrappers

  type VaultId = string
  type SlotId = string
  type Payload = string

  const MAX_VAULTS := 1_000
  const MAX_RECOVERY_SLOTS := 32

  datatype CatalogEntry = CatalogEntry(id: VaultId, name: string)

  datatype SlotState = Active | Revoked

  datatype RecoverySlot = RecoverySlot(id: SlotId, state: SlotState)

  datatype Database = Database(
    id: string,
    revision: nat,
    owner: SlotId,
    slots: seq<RecoverySlot>,
    catalog: seq<CatalogEntry>)

  datatype Vault = Vault(id: VaultId, revision: nat, databaseRevision: nat, payload: Payload)

  /** The owner slot is not an input of the catalog digest. */
  datatype CatalogDigest = CatalogDigest(
    databaseId: string,
    revision: nat,
    slots: seq<RecoverySlot>,
    catalog: seq<CatalogEntry>)

  datatype VaultDigest = VaultDigest(
    id: VaultId,
    revision: nat,
    databaseRevision: nat,
    payload: Payload)

  function DigestOf(d: Database): CatalogDigest {
    CatalogDigest(d.id, d.revision, d.slots, d.catalog)
  }

  function VaultDigestOf(v: Vault): VaultDigest {
    VaultDigest(v.id, v.revision, v.databaseRevision, v.payload)
  }

  datatype StoreErrorCode =
    | Conflict | Exists | Invalid | Unsupported
    | Busy | StoreClosed | Connection | Operation | Unsafe

  /** The store codes that prove a rejected mutation had no effect. */
  predicate ProvenRejection(code: StoreErrorCode) {
    code == Conflict || code == Exists || code == Invalid || code == Unsupported
  }

  datatype Store = Store(database: Option<Database>, vaults: map<VaultId, Vault>)

  datatype Request =
    | UpdateDatabase(next: Database, expected: nat)
    | CreateVault(next: Database, expected: nat, vault: Vault)
    | UpdateVault(vault: Vault, databaseId: string, expectedVault: nat)
    | DeleteVault(next: Database, expected: nat, id: VaultId, expectedVault: nat)

  predicate Holds(st: Store, id: string, revision: nat) {
    && st.database.Some?
    && st.database.value.id == id
    && st.database.value.revision == revision
  }

  /** Creating the database fails when the store already holds one. */
  function CreateDatabase(st: Store, d: Database): Result<Store, StoreErrorCode> {
    if st.database.Some? then Err(Exists) else Ok(Store(Some(d), map[]))
  }

  /** One compare-and-swap on the expected revisions. */
  function Submit(st: Store, r: Request): Result<Store, StoreErrorCode> {
    match r
    case UpdateDatabase(next, expected) =>
      if next.revision != expected + 1 then Err(Invalid)
      else if !Holds(st, next.id, expected) then Err(Conflict)
      else if |next.slots| > MAX_RECOVERY_SLOTS then Err(Invalid)
      else Ok(st.(database := Some(next)))
    case CreateVault(next, expected, vault) =>
      if next.revision != expected + 1 || vault.databaseRevision != next.revision then Err(Invalid)
      else if !Holds(st, next.id, expected) then Err(Conflict)
      else if vault.id in st.vaults then Err(Exists)
      else if |st.vaults| >= MAX_VAULTS then Err(Invalid)
      else Ok(Store(Some(next), st.vaults[vault.id := vault]))
    case UpdateVault(vault, databaseId, expectedVault) =>
      if vault.revision != expectedVault + 1 then Err(Invalid)
      else if st.database.None? || st.database.value.id != databaseId then Err(Conflict)
      else if vault.id !in st.vaults || st.vaults[vault.id].revision != expectedVault then Err(Conflict)
      else Ok(st.(vaults := st.vaults[vault.id := vault]))
    case DeleteVault(next, expected, id, expectedVault) =>
      if next.revision != expected + 1 then Err(Invalid)
      else if !Holds(st, next.id, expected) then Err(Conflict)
      else if id !in st.vaults || st.vaults[id].revision != expectedVault then Err(Conflict)
      else Ok(Store(Some(next), st.vaults - {id}))
  }

  /** Every revision in the request is one on from the one it expects. */
  ghost predicate InSequence(r: Request) {
    match r
    case UpdateVault(vault, _, expected) => vault.revision == expected + 1
    case CreateVault(next, expected, vault) => next.revision == expected + 1 == vault.databaseRevision
    case _ => r.next.revision == r.expected + 1
  }

  /** What the store holds is what the request expects it to hold. */
  ghost predicate Matches(st: Store, r: Request) {
    && st.database.Some?
    && (r.UpdateVault? ==> st.database.value.id == r.databaseId)
    && (!r.UpdateVault? ==> st.database.value.id == r.next.id && st.database.value.revision == r.expected)
    && (r.UpdateVault? ==> r.vault.id in st.vaults && st.vaults[r.vault.id].revision == r.expectedVault)
    && (r.DeleteVault? ==> r.id in st.vaults && st.vaults[r.id].revision == r.expectedVault)
  }

  /** There is room for what the request adds. */
  ghost predicate HasSpace(st: Store, r: Request) {
    (r.UpdateDatabase? ==> |r.next.slots| <= 32) && (r.CreateVault? ==> |st.vaults| < 1_000)
  }

  /**
   * When the store takes a request and which answer it gives otherwise: a
   * stale request is a conflict, whatever else is wrong with it.
   */
  lemma SubmitIff(st: Store, r: Request)
    ensures var taken := r.CreateVault? && r.vault.id in st.vaults;
            && (Submit(st, r).Ok? <==> InSequence(r) && Matches(st, r) && HasSpace(st, r) && !taken)
            && (Submit(st, r) == Err(Conflict) <==> InSequence(r) && !Matches(st, r))
            && (Submit(st, r) == Err(Exists) <==> InSequence(r) && Matches(st, r) && taken)
            && (Submit(st, r) == Err(Invalid)
                <==> !InSequence(r) || (Matches(st, r) && !HasSpace(st, r) && !taken))
  {}

  /** A rejection by the comparison proves that nothing happened; no answer that leaves the call open does. */
  lemma SubmitErrorsAreProven(st: Store, r: Request, code: StoreErrorCode)
    ensures Submit(st, r).Err? ==> ProvenRejection(Submit(st, r).error)
    ensures !ProvenRejection(code) <==> code in {Busy, StoreClosed, Connection, Operation, Unsafe}
  {}
}
