/**
 * One unlocked database session: its cached document, its keys, and the
 * anchored mutation that every operation runs through.
 */
module DatabaseSession {
  import opened Wrappers
  import opened DatabaseModel
  import opened Anchors
  import opened AnchoredMutations
  import opened Operations
  import opened Faults

  type byte = bv8

  /** The encrypted store as the session's client sees it. */
  class StoreClient {
    var state: Store
    var closed: bool

    constructor (state: Store)
      ensures this.state == state && !closed
    {
      this.state, closed := state, false;
    }
  }

  /** The anchor file beside the session's key file. */
  class AnchorStorage {
    var file: AnchorFile

    constructor (file: AnchorFile)
      ensures this.file == file
    {
      this.file := file;
    }
  }

  datatype Thrown = KeyFileError | StoreError(code: StoreErrorCode) | UnprovenStoreError

  datatype Outcome =
    | Done
    | Refused                   // rejected from the cached document alone
    | Failed(error: Thrown)
    | SessionClosed
    | AmbiguousCommit

  predicate IsProvenRejection(e: Thrown) {
    e.StoreError? && ProvenRejection(e.code)
  }

  ghost predicate AllZero(a: array<byte>)
    reads a
  {
    forall i | 0 <= i < a.Length :: a[i] == 0
  }

  method Zeroize(a: array<byte>)
    modifies a
    ensures AllZero(a)
  {
    for i := 0 to a.Length
      invariant forall j | 0 <= j < i :: a[j] == 0
    {
      a[i] := 0;
    }
  }

  /** How an ending is reported. */
  predicate Reports(r: Outcome, e: Ending) {
    match e
    case Succeeded => r == Done
    case NotEntered => r == Failed(KeyFileError)
    case ProvenRefusal(code) => r == Failed(StoreError(code))
    case Unknown => r == AmbiguousCommit
  }

  class Session {
    const store: StoreClient
    const anchor: AnchorStorage
    const rootKey: array<byte>
    const portableKey: array<byte>
    var database: Database
    var closed: bool

    ghost predicate Valid()
      reads this, rootKey, portableKey
    {
      && rootKey != portableKey
      && (closed ==> AllZero(rootKey) && AllZero(portableKey))
    }

    constructor (
        store: StoreClient, anchor: AnchorStorage, database: Database, rootKey: array<byte>, portableKey: array<byte>)
      requires rootKey != portableKey
      ensures Valid() && !closed && this.database == database
      ensures this.store == store && this.anchor == anchor && this.rootKey == rootKey && this.portableKey == portableKey
    {
      this.store, this.anchor, this.database := store, anchor, database;
      this.rootKey, this.portableKey, closed := rootKey, portableKey, false;
    }

    /** Closes the session for good and clears its keys. */
    method Poison()
      requires Valid()
      modifies this`closed, rootKey, portableKey, store`closed
      ensures Valid() && closed && AllZero(rootKey) && AllZero(portableKey)
      ensures if old(closed) then store.closed == old(store.closed) else store.closed
    {
      if !closed {
        closed := true;
        Zeroize(portableKey);
        Zeroize(rootKey);
        store.closed := true;
      }
    }

    /**
     * Runs one store mutation under the anchor's lock and then moves the
     * anchor. What becomes of store and anchor is the effect of one anchored
     * mutation, and its ending is reported in exactly one of three ways.
     */
    method AnchoredMutation(before: Anchor, after: Anchor, request: Request, f: MutationFaults) returns (r: Outcome)
      requires Valid() && !closed
      modifies this`closed, rootKey, portableKey, store, anchor
      ensures Valid()
      ensures var e := Anchored(old(store.state), old(anchor.file), before, after, request, f);
              Reports(r, e.ending) && store.state == e.store && anchor.file == e.file
      // success: the store is one accepted request on and the anchor has followed
      ensures r.Done? ==> Submit(old(store.state), request) == Ok(store.state) && anchor.file == Authentic(after)
      // failure: nothing moved
      ensures r.Failed? ==> store.state == old(store.state) && anchor.file == old(anchor.file)
      ensures !r.AmbiguousCommit? ==>
                !closed && rootKey[..] == old(rootKey[..]) && portableKey[..] == old(portableKey[..])
                    && store.closed == old(store.closed)
      // otherwise the outcome is unknown to the caller and the session is closed for good
      ensures r.AmbiguousCommit? ==> closed && store.closed && AllZero(rootKey) && AllZero(portableKey)
      ensures store.state == old(store.state) || Submit(old(store.state), request) == Ok(store.state)
      ensures anchor.file == old(anchor.file)
              || (anchor.file == Authentic(after) && Submit(old(store.state), request) == Ok(store.state))
    {
      AnchoredEnds(store.state, anchor.file, before, after, request, f);
      var mutationEntered, storeAccepted := false, false;
      var thrown: Option<Thrown> := None;
      if f.acquire.Unreadable? || !anchor.file.Authentic? || !Verify(anchor.file.anchor, before, true) {
        thrown := Some(KeyFileError);
      } else {
        var trusted := anchor.file.anchor;
        mutationEntered := true;
        var (answer, next) := Ask(store.state, Submit(store.state, request), f.store);
        store.state := next;
        match answer {
          case StoreRefused(code) => thrown := Some(StoreError(code));
          case NoAnswer => thrown := Some(UnprovenStoreError);
          case StoreAccepted =>
            storeAccepted := true;
            if !Verify(trusted, after, false) || !Verify(before, after, false) {
              thrown := Some(KeyFileError);
            } else {
              if !f.write.NotWritten? { anchor.file := Authentic(after); }
              if !f.write.Written? { thrown := Some(KeyFileError); }
            }
        }
        if f.release.Unreadable? { thrown := Some(KeyFileError); }
      }
      match thrown {
        case None => r := Done;
        case Some(e) =>
          if storeAccepted || (mutationEntered && !IsProvenRejection(e)) {
            Poison();
            r := AmbiguousCommit;
          } else {
            r := Failed(e);
          }
      }
    }

    /**
     * Runs a prepared request: computes the anchors around it from a fresh
     * vault listing, and advances the cached document only on success.
     */
    method Mutate(ghost call: Call, request: Request, f: MutationFaults) returns (r: Outcome)
      requires Valid() && !closed && Prepare(database, store.state.vaults, call) == Some(request)
      modifies this, rootKey, portableKey, store, anchor
      ensures Valid() && !r.SessionClosed? && !r.Refused?
      ensures var before := AnchorOf(old(database), old(store.state.vaults));
              Reports(r, Anchored(old(store.state), old(anchor.file), before, AfterAnchor(before, request), request,
                  f).ending)
      ensures r.Failed? ==>
                store.state == old(store.state) && anchor.file == old(anchor.file) && database == old(database)
                && !closed
      ensures r.AmbiguousCommit? ==> closed && AllZero(rootKey) && AllZero(portableKey)
      ensures r.Done? ==>
                && !closed
                && Performed(old(store.state), old(database), call, store.state, database, anchor.file)
    {
      ghost var st, cached := store.state, database;
      var before := AnchorOf(database, store.state.vaults);
      var after := AfterAnchor(before, request);
      r := AnchoredMutation(before, after, request, f);
      if r.Done? {
        if !request.UpdateVault? { database := request.next; }
        DoneMeans(st, cached, call, request, store.state);
      }
    }

    /** One mutating operation: refuse it or prepare it from the cached document, and run it. */
    method Execute(call: Call, f: MutationFaults) returns (r: Outcome)
      requires Valid()
      modifies this, rootKey, portableKey, store, anchor
      ensures Valid()
      ensures r.SessionClosed? <==> old(closed)
      ensures r.Refused? <==> !old(closed) && Prepare(old(database), old(store.state.vaults), call).None?
      ensures r.SessionClosed? || r.Refused? || r.Failed? ==>
                store.state == old(store.state) && anchor.file == old(anchor.file) && database == old(database)
                    && closed == old(closed)
      ensures r.AmbiguousCommit? ==> closed && AllZero(rootKey) && AllZero(portableKey)
      ensures r.Done? ==>
                && !closed
                && Performed(old(store.state), old(database), call, store.state, database, anchor.file)
      // on the stored document it refuses exactly what the summary does not enable or has no room for
      ensures !old(closed) && Settled(old(store.state), old(database), call) ==>
                (r.Refused? <==> !Possible(Summarize(old(store.state)), call))
      // and what is possible goes through when nothing fails and the anchor is the stored state's
      ensures !old(closed) && f == FAULTLESS && Settled(old(store.state), old(database), call)
              && Bounded(Summarize(old(store.state))) && Possible(Summarize(old(store.state)), call)
              && old(anchor.file) == Authentic(AnchorOf(old(database), old(store.state.vaults))) ==>
                r.Done?
    {
      if closed { return SessionClosed; }
      if Settled(store.state, database, call) { PossibleGoesThrough(store.state, database, call); }
      var prepared := Prepare(database, store.state.vaults, call);
      if prepared.None? { return Refused; }
      r := Mutate(call, prepared.value, f);
    }

    method Close()
      requires Valid()
      modifies this`closed, rootKey, portableKey, store`closed
      ensures Valid() && closed && AllZero(rootKey) && AllZero(portableKey)
      ensures if old(closed) then store.closed == old(store.closed) else store.closed
      ensures store.state == old(store.state)
    {
      Poison();
    }
  }

  /** An edit finds the cached catalog current; every other call needs it current to be accepted at all. */
  predicate Current(st: Store, cached: Database, call: Call)
    requires st.database.Some?
  {
    call.Edit? ==> cached.revision == st.database.value.revision && DigestOf(cached) == DigestOf(st.database.value)
  }

  ghost predicate Refinable(st: Store, cached: Database, call: Call) {
    && WellFormed(st) && cached == st.database.value
    && (call.AddRecovery? ==> forall s | s in cached.slots :: s.id != call.slot)
  }

  /** The session's cached document is the stored one, and the call drew new identifiers. */
  ghost predicate Settled(st: Store, cached: Database, call: Call) {
    WellFormed(st) && cached == st.database.value && Drew(Summarize(st), call)
  }

  ghost predicate Possible(s: Summary, call: Call) {
    Enabled(s, Commit(call, Reads(s, call))) && HasRoom(s, call)
  }

  lemma PossibleGoesThrough(st: Store, cached: Database, call: Call)
    requires Settled(st, cached, call)
    ensures Prepare(cached, st.vaults, call).Some? <==> Possible(Summarize(st), call)
    ensures Bounded(Summarize(st)) && Possible(Summarize(st), call) ==>
              var a, r := AnchorOf(cached, st.vaults), Prepare(cached, st.vaults, call).value;
              Anchored(st, Authentic(a), a, AfterAnchor(a, r), r, FAULTLESS).ending.Succeeded?
  {
    PreparedIff(st, call);
    if Bounded(Summarize(st)) && Possible(Summarize(st), call) {
      var r := Prepare(cached, st.vaults, call).value;
      PreparedIsAccepted(st, call, r);
      FaultlessGoesThrough(st, r);
    }
  }

  /**
   * Success: the store is one accepted request on and the cached document has
   * followed. The anchor left behind is the recomputed one, unless an edit ran
   * on a stale cached document. On the state the session cached, the store has
   * changed as the call means.
   */
  ghost predicate Performed(
      st: Store, cached: Database, call: Call, st': Store, cached': Database, file: AnchorFile)
  {
    && Prepare(cached, st.vaults, call).Some? && st.database.Some? && st'.database.Some?
    && var request := Prepare(cached, st.vaults, call).value;
       && Submit(st, request) == Ok(st')
       && cached' == (if request.UpdateVault? then cached else request.next)
       && (file == Authentic(AnchorOf(st'.database.value, st'.vaults)) <==> Current(st, cached, call))
       && (Refinable(st, cached, call) ==>
             && WellFormed(st') && cached' == st'.database.value
             && Summarize(st') == Perform(Summarize(st), call))
  }

  lemma DoneMeans(st: Store, cached: Database, call: Call, request: Request, st': Store)
    requires Prepare(cached, st.vaults, call) == Some(request) && Submit(st, request) == Ok(st')
    ensures st.database.Some? && st'.database.Some?
    ensures AfterAnchor(AnchorOf(cached, st.vaults), request) == AnchorOf(st'.database.value, st'.vaults)
            <==> Current(st, cached, call)
    ensures Refinable(st, cached, call) ==>
              && WellFormed(st') && Summarize(st') == Perform(Summarize(st), call)
              && st'.database.value == if request.UpdateVault? then cached else request.next
  {
    PreparedKeepsId(cached, st.vaults, call, request);
    AfterIsRecomputedIff(st, cached, st.vaults, request);
    if Refinable(st, cached, call) { CommitRefines(st, cached, st.vaults, call, request); }
  }

  lemma PreparedKeepsId(d: Database, vaults: map<VaultId, Vault>, call: Call, r: Request)
    requires Prepare(d, vaults, call) == Some(r)
    ensures r.UpdateVault? <==> call.Edit?
    ensures !r.UpdateVault? ==> r.next.id == d.id
    ensures r.UpdateVault? ==> r.databaseId == d.id
  {}
}
