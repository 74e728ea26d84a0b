/**
 * How long a recovery kit stays usable: its anchor is written once, and the
 * database goes on without it.
 */
module RecoveryKits {
  import opened Wrappers
  import opened DatabaseModel
  import opened Anchors
  import opened AnchoredMutations
  import opened OwnedFiles

  /** The store after some requests, as long as it accepts them. */
  function Submitted(st: Store, requests: seq<Request>): Wrappers.Result<Store, StoreErrorCode>
    decreases |requests|
  {
    if requests == [] then Ok(st)
    else
      match Submitted(st, requests[..|requests| - 1])
      case Err(e) => Err(e)
      case Ok(before) => Submit(before, requests[|requests| - 1])
  }

  lemma SubmittedPrefix(st: Store, requests: seq<Request>, n: nat)
    requires n <= |requests| && Submitted(st, requests).Ok?
    ensures Submitted(st, requests[..n]).Ok?
    decreases |requests|
  {
    if n == |requests| {
      assert requests[..n] == requests;
    } else {
      assert requests[..|requests| - 1][..n] == requests[..n];
      SubmittedPrefix(st, requests[..|requests| - 1], n);
    }
  }

  /** The vault is stored before the requests and after each of them. */
  ghost predicate StoredThroughout(st: Store, requests: seq<Request>, id: VaultId)
    requires Submitted(st, requests).Ok?
  {
    forall n | 0 <= n <= |requests| ::
      SubmittedPrefix(st, requests, n);
      id in Submitted(st, requests[..n]).value.vaults
  }

  /** How a stored vault stands to an earlier state of it. */
  predicate NotOlder(v: Vault, w: Vault) {
    v.revision < w.revision || v == w
  }

  /** No vault that was dropped is stored again. */
  ghost predicate NoneReturns(st: Store, requests: seq<Request>)
    requires Submitted(st, requests).Ok?
  {
    forall id | id in st.vaults && id in Submitted(st, requests).value.vaults :: StoredThroughout(st, requests, id)
  }

  lemma StoredUntil(st: Store, requests: seq<Request>, id: VaultId)
    requires requests != [] && Submitted(st, requests).Ok? && StoredThroughout(st, requests, id)
    ensures Submitted(st, requests[..|requests| - 1]).Ok?
    ensures StoredThroughout(st, requests[..|requests| - 1], id)
    ensures id in Submitted(st, requests).value.vaults
  {
    var init := requests[..|requests| - 1];
    SubmittedPrefix(st, requests, |init|);
    assert requests[..|requests|] == requests;
    forall n | 0 <= n <= |init|
      ensures Submitted(st, init[..n]).Ok? && id in Submitted(st, init[..n]).value.vaults
    {
      assert init[..n] == requests[..n];
      SubmittedPrefix(st, requests, n);
    }
  }

  lemma SubmitAdvances(st: Store, r: Request)
    requires Keyed(st) && Submit(st, r).Ok?
    ensures var st' := Submit(st, r).value;
            && Keyed(st') && st'.database.Some? && st'.database.value.id == st.database.value.id
            && (st'.database == st.database || st'.database.value.revision == st.database.value.revision + 1)
            && (forall id | id in st.vaults && id in st'.vaults :: NotOlder(st.vaults[id], st'.vaults[id]))
            && (forall id | id in st.vaults && id !in st'.vaults ::
                  st'.database.value.revision == st.database.value.revision + 1)
  {}

  /**
   * Along accepted requests the document and every vault that stays only
   * advance, and a vault goes only with the document.
   */
  lemma {:induction false} RequestsAdvance(st: Store, requests: seq<Request>)
    requires st.database.Some? && Keyed(st) && Submitted(st, requests).Ok?
    ensures var st' := Submitted(st, requests).value;
            && Keyed(st') && st'.database.Some? && st'.database.value.id == st.database.value.id
            && (st'.database == st.database || st.database.value.revision < st'.database.value.revision)
            && (forall id | id in st.vaults && StoredThroughout(st, requests, id) ::
                  id in st'.vaults && NotOlder(st.vaults[id], st'.vaults[id]))
            && (forall id | id in st.vaults && id !in st'.vaults ::
                  st.database.value.revision < st'.database.value.revision)
    decreases |requests|
  {
    if requests == [] {
      forall id | StoredThroughout(st, requests, id) ensures id in st.vaults {
        assert requests[..0] == [];
      }
    } else {
      var init := requests[..|requests| - 1];
      RequestsAdvance(st, init);
      var before := Submitted(st, init).value;
      SubmitAdvances(before, requests[|requests| - 1]);
      var st' := Submitted(st, requests).value;
      forall id | id in st.vaults && StoredThroughout(st, requests, id)
        ensures id in st'.vaults && NotOlder(st.vaults[id], st'.vaults[id])
      {
        StoredUntil(st, requests, id);
        assert NotOlder(st.vaults[id], before.vaults[id]) && NotOlder(before.vaults[id], st'.vaults[id]);
      }
    }
  }

  /**
   * A kit anchored at a stored state opens a later one, whatever requests the
   * store accepted in between, exactly when the kit's slot is active and no
   * vault that was dropped meanwhile has come back older or different.
   */
  lemma KitStaysUsableIff(st: Store, requests: seq<Request>, via: SlotId)
    requires st.database.Some? && Keyed(st) && Submitted(st, requests).Ok?
    ensures var st' := Submitted(st, requests).value;
            KitOpens(st', via, Authentic(AnchorOf(st.database.value, st.vaults)))
            <==> && st'.database.Some? && RecoverySlot(via, Active) in st'.database.value.slots
                 && forall id | id in st.vaults && id in st'.vaults && !StoredThroughout(st, requests, id) ::
                      NotOlder(st.vaults[id], st'.vaults[id])
  {
    RequestsAdvance(st, requests);
    var a, st' := AnchorOf(st.database.value, st.vaults), Submitted(st, requests).value;
    forall id | id in a.heads && id in st'.vaults
      ensures (a.heads[id].revision < st'.vaults[id].revision
               || a.heads[id] == Head(st'.vaults[id].revision, VaultDigestOf(st'.vaults[id])))
              <==> NotOlder(st.vaults[id], st'.vaults[id])
    {}
  }

  /** In particular it stays usable while its slot is active and dropped vaults stay away. */
  lemma KitStaysUsable(st: Store, requests: seq<Request>, via: SlotId)
    requires st.database.Some? && Keyed(st) && Submitted(st, requests).Ok? && NoneReturns(st, requests)
    requires var st' := Submitted(st, requests).value;
             st'.database.Some? && RecoverySlot(via, Active) in st'.database.value.slots
    ensures KitOpens(Submitted(st, requests).value, via, Authentic(AnchorOf(st.database.value, st.vaults)))
  {
    KitStaysUsableIff(st, requests, via);
  }
}
