/**
 * The local revision anchor: what it records of a database, when a newer
 * observation is accepted against it, and how opening a database reconciles
 * the two.
 */
module Anchors {
  import opened Wrappers
  import opened DatabaseModel

  datatype Head = Head(revision: nat, digest: VaultDigest)

  datatype Anchor = Anchor(
    databaseId: string,
    revision: nat,
    digest: CatalogDigest,
    heads: map<VaultId, Head>)

  function HeadOf(v: Vault): Head {
    Head(v.revision, VaultDigestOf(v))
  }

  function HeadsOf(vaults: map<VaultId, Vault>): map<VaultId, Head> {
    map id | id in vaults :: HeadOf(vaults[id])
  }

  /** The anchor of a database document and a vault listing. */
  function AnchorOf(d: Database, vaults: map<VaultId, Vault>): Anchor {
    Anchor(d.id, d.revision, DigestOf(d), HeadsOf(vaults))
  }

  predicate HeadAdvances(before: Head, after: Head) {
    && before.revision <= after.revision
    && (before.revision == after.revision ==> before.digest == after.digest)
  }

  /** Whether an observation is acceptable against a trusted anchor. */
  predicate Verify(trusted: Anchor, observed: Anchor, exact: bool) {
    && trusted.databaseId == observed.databaseId
    && trusted.revision <= observed.revision
    && (trusted.revision == observed.revision ==> trusted.digest == observed.digest)
    && (exact ==> trusted.heads.Keys == observed.heads.Keys)
    && (forall id | id in trusted.heads ::
          if id in observed.heads then HeadAdvances(trusted.heads[id], observed.heads[id])
          else !exact && trusted.revision < observed.revision)
  }

  /**
   * The part of acceptance that composes: never an older database revision,
   * and at an equal revision the same catalog, the same recovery slots and
   * every vault at least as new.
   */
  predicate Advances(a: Anchor, b: Anchor) {
    && a.databaseId == b.databaseId
    && a.revision <= b.revision
    && (a.revision == b.revision ==>
          && a.digest == b.digest
          && (forall id | id in a.heads :: id in b.heads && HeadAdvances(a.heads[id], b.heads[id])))
  }

  lemma AdvancesTransitive(a: Anchor, b: Anchor, c: Anchor)
    requires Advances(a, b) && Advances(b, c)
    ensures Advances(a, c)
  {
    if a.revision == c.revision {
      forall id | id in a.heads ensures id in c.heads && HeadAdvances(a.heads[id], c.heads[id]) {
        assert HeadAdvances(a.heads[id], b.heads[id]) && HeadAdvances(b.heads[id], c.heads[id]);
      }
    }
  }

  lemma VerifyReflexive(a: Anchor)
    ensures Verify(a, a, false)
  {}

  lemma HeadAdvancesTransitive(a: Head, b: Head, c: Head)
    requires HeadAdvances(a, b) && HeadAdvances(b, c)
    ensures HeadAdvances(a, c)
  {}

  lemma VerifyAdvances(a: Anchor, b: Anchor, exact: bool)
    requires Verify(a, b, exact)
    ensures Advances(a, b)
  {}

  /**
   * Acceptance composes across three observations exactly when no vault that
   * the first one recorded and the second one dropped comes back older or
   * forked in the third.
   */
  lemma VerifyComposesIff(a: Anchor, b: Anchor, c: Anchor)
    requires Verify(a, b, false) && Verify(b, c, false)
    ensures Verify(a, c, false) <==>
            forall id | id in a.heads && id !in b.heads && id in c.heads :: HeadAdvances(a.heads[id], c.heads[id])
  {
    forall id | id in a.heads && id in b.heads && id in c.heads
      ensures HeadAdvances(a.heads[id], c.heads[id])
    {
      assert HeadAdvances(a.heads[id], b.heads[id]) && HeadAdvances(b.heads[id], c.heads[id]);
    }
    if Verify(a, c, false) {
      forall id | id in a.heads && id !in b.heads && id in c.heads
        ensures HeadAdvances(a.heads[id], c.heads[id])
      {}
    }
  }

  /** A dropped vault that returns at an older revision breaks the composition. */
  lemma VerifyIsNotTransitive()
    ensures exists a: Anchor, b: Anchor, c: Anchor ::
              Verify(a, b, false) && Verify(b, c, false) && !Verify(a, c, false)
  {
    var v2 := Vault("v", 2, 1, "");
    var v5 := Vault("v", 5, 1, "");
    var d := Database("db", 1, "slot", [], []);
    var a := AnchorOf(d, map["v" := v5]);
    var b := AnchorOf(d.(revision := 2), map[]);
    var c := AnchorOf(d.(revision := 3), map["v" := v2]);
    assert "v" in a.heads && "v" in c.heads && !HeadAdvances(a.heads["v"], c.heads["v"]);
    assert Verify(a, b, false) && Verify(b, c, false) && !Verify(a, c, false);
  }

  /**
   * Anchors are equal exactly when the whole observed content is: revision,
   * catalog, recovery slots and every vault payload. The owner slot is the one
   * field they leave open; the key file's own binding pins that one.
   */
  lemma AnchorPinsContent(d: Database, vaults: map<VaultId, Vault>, d': Database, vaults': map<VaultId, Vault>)
    requires (forall id | id in vaults :: vaults[id].id == id) && (forall id | id in vaults' :: vaults'[id].id == id)
    ensures AnchorOf(d, vaults) == AnchorOf(d', vaults') <==> d' == d.(owner := d'.owner) && vaults == vaults'
  {
    var a, a' := AnchorOf(d, vaults), AnchorOf(d', vaults');
    if a == a' {
      assert vaults.Keys == a.heads.Keys == a'.heads.Keys == vaults'.Keys;
      forall id | id in vaults ensures vaults[id] == vaults'[id] {
        assert a.heads[id].digest == a'.heads[id].digest;
      }
    }
  }

  // ---------------------------------------------------------------- mutation

  /** The anchor a mutation will leave, computed before the store is asked. */
  function AfterAnchor(before: Anchor, r: Request): Anchor {
    match r
    case UpdateDatabase(next, _) =>
      before.(revision := next.revision, digest := DigestOf(next))
    case CreateVault(next, _, vault) =>
      Anchor(next.id, next.revision, DigestOf(next), before.heads[vault.id := HeadOf(vault)])
    case UpdateVault(vault, _, _) =>
      before.(heads := before.heads[vault.id := HeadOf(vault)])
    case DeleteVault(next, _, id, _) =>
      Anchor(next.id, next.revision, DigestOf(next), before.heads - {id})
  }

  /** The vault, if any, whose head a request rewrites. */
  function Touched(r: Request): set<VaultId> {
    match r
    case UpdateDatabase(_, _) => {}
    case CreateVault(_, _, vault) => {vault.id}
    case UpdateVault(vault, _, _) => {vault.id}
    case DeleteVault(_, _, id, _) => {id}
  }

  /**
   * After an accepted request the precomputed anchor is the one recomputed from
   * the store exactly when the cached document was the stored one (which the
   * compare-and-swap guarantees for every request but a vault update) and no
   * other vault moved between the listing and the commit.
   */
  lemma AfterIsRecomputedIff(st: Store, d: Database, listed: map<VaultId, Vault>, r: Request)
    requires Submit(st, r).Ok?
    requires r.UpdateVault? || r.next.id == d.id
    requires r.UpdateVault? ==> st.database.value.id == d.id
    ensures var st' := Submit(st, r).value;
            AfterAnchor(AnchorOf(d, listed), r) == AnchorOf(st'.database.value, st'.vaults)
            <==> (r.UpdateVault? ==>
                d.revision == st.database.value.revision && DigestOf(d) == DigestOf(st.database.value))
                 && HeadsOf(listed) - Touched(r) == HeadsOf(st.vaults) - Touched(r)
  {
    var st' := Submit(st, r).value;
    var before := AnchorOf(d, listed);
    match r
    case UpdateDatabase(next, _) =>
      assert HeadsOf(listed) - {} == HeadsOf(listed) && HeadsOf(st.vaults) - {} == HeadsOf(st.vaults);
    case CreateVault(next, _, vault) =>
      AfterHeads(before, st, r, {vault.id});
    case UpdateVault(vault, _, _) =>
      AfterHeads(before, st, r, {vault.id});
    case DeleteVault(next, _, id, _) =>
      AfterHeads(before, st, r, {id});
  }

  lemma AfterHeads(before: Anchor, st: Store, r: Request, touched: set<VaultId>)
    requires Submit(st, r).Ok? && !r.UpdateDatabase? && touched == Touched(r)
    ensures AfterAnchor(before, r).heads == HeadsOf(Submit(st, r).value.vaults)
            <==> before.heads - touched == HeadsOf(st.vaults) - touched
  {
    if r.DeleteVault? {
      assert HeadsOf(st.vaults - {r.id}) == HeadsOf(st.vaults) - {r.id};
    } else {
      HeadsOfUpdate(st.vaults, r.vault);
      BothUpdated(before.heads, HeadsOf(st.vaults), r.vault.id, HeadOf(r.vault));
    }
  }

  lemma HeadsOfUpdate(vaults: map<VaultId, Vault>, v: Vault)
    ensures HeadsOf(vaults[v.id := v]) == HeadsOf(vaults)[v.id := HeadOf(v)]
  {}

  lemma BothUpdated(a: map<VaultId, Head>, b: map<VaultId, Head>, id: VaultId, h: Head)
    ensures a[id := h] == b[id := h] <==> a - {id} == b - {id}
  {
    OutsideUpdate(a, id, h);
    OutsideUpdate(b, id, h);
    EqualIffOutside(a[id := h], b[id := h], {id});
  }

  lemma OutsideUpdate(m: map<VaultId, Head>, id: VaultId, h: Head)
    ensures m[id := h] - {id} == m - {id}
  {}

  lemma EqualIffOutside(a: map<VaultId, Head>, b: map<VaultId, Head>, touched: set<VaultId>)
    requires forall id | id in touched :: (id in a <==> id in b) && (id in a ==> a[id] == b[id])
    ensures a == b <==> a - touched == b - touched
  {
    if a - touched == b - touched {
      forall id ensures id in a <==> id in b {
        assert id !in touched ==> (id in a <==> id in (a - touched)) && (id in b <==> id in (b - touched));
      }
      forall id | id in a ensures a[id] == b[id] {
        assert id !in touched ==> a[id] == (a - touched)[id] && b[id] == (b - touched)[id];
      }
    }
  }

  // ------------------------------------------------------------------ opening

  /** The anchor file: absent, present but not authentic, or authentic. */
  datatype AnchorFile = Missing | Corrupt | Authentic(anchor: Anchor)

  /** The one-use anchor carried by a share key file; null once consumed. */
  datatype Bootstrap = NotAShare | Consumed | Pending(anchor: Anchor)

  datatype OpenMode = Plain(bootstrap: Bootstrap) | AcceptCurrent | Recovery

  predicate ReconcilesPlainly(file: AnchorFile, observed: Anchor) {
    file.Authentic? && Verify(file.anchor, observed, false) && file.anchor == observed
  }

  /**
   * Reconciling an observation with the anchor file on open: whether the open
   * is allowed, and the anchor file afterwards.
   */
  function Reconcile(file: AnchorFile, observed: Anchor, mode: OpenMode): (bool, AnchorFile) {
    match mode
    case Plain(bootstrap) =>
      if ReconcilesPlainly(file, observed) then (true, file)
      else if bootstrap.Pending? && bootstrap.anchor == observed && file.Missing? then (true, Authentic(observed))
      else (false, file)
    case AcceptCurrent =>
      // An unreadable anchor is rewritten in create mode, which refuses an existing file.
      if file.Authentic? && file.anchor == observed then (true, file)
      else if file.Corrupt? then (false, file)
      else (true, Authentic(observed))
    case Recovery =>
      if file.Authentic? && Verify(file.anchor, observed, false) then (true, Authentic(observed))
      else (false, file)
  }

  /** A plain open is allowed exactly on the anchored state or an unused share. */
  lemma PlainOpenIff(file: AnchorFile, observed: Anchor, bootstrap: Bootstrap)
    ensures Reconcile(file, observed, Plain(bootstrap)).0 <==>
            || file == Authentic(observed)
            || (file == Missing && bootstrap == Pending(observed))
    ensures file != Missing ==> Reconcile(file, observed, Plain(bootstrap)).1 == file
    ensures Reconcile(file, observed, Plain(bootstrap)).0 ==>
            Reconcile(file, observed, Plain(bootstrap)).1 == Authentic(observed)
  {}

  /**
   * Nothing that the anchor records was rolled back: it is of this database,
   * the document is newer or the recorded one, every recorded vault is newer or
   * the recorded one, and a recorded vault is missing only in a newer document.
   */
  ghost predicate NotRolledBack(a: Anchor, d: Database, vaults: map<VaultId, Vault>) {
    && a.databaseId == d.id
    && (a.revision < d.revision || (a.revision == d.revision && a.digest == DigestOf(d)))
    && (forall id | id in a.heads && id in vaults ::
          || a.heads[id].revision < vaults[id].revision
          || a.heads[id] == Head(vaults[id].revision, VaultDigestOf(vaults[id])))
    && ((exists id :: id in a.heads && id !in vaults) ==> a.revision < d.revision)
  }

  /** The anchor comparison is exactly that, and the exact one also wants the same vaults. */
  lemma VerifyIff(a: Anchor, d: Database, vaults: map<VaultId, Vault>)
    ensures Verify(a, AnchorOf(d, vaults), false) <==> NotRolledBack(a, d, vaults)
    ensures Verify(a, AnchorOf(d, vaults), true) <==> NotRolledBack(a, d, vaults) && a.heads.Keys == vaults.Keys
  {
    var b := AnchorOf(d, vaults);
    assert b.heads.Keys == vaults.Keys;
    forall id | id in a.heads && id in vaults
      ensures HeadAdvances(a.heads[id], b.heads[id])
              <==> a.heads[id].revision < vaults[id].revision
                   || a.heads[id] == Head(vaults[id].revision, VaultDigestOf(vaults[id]))
    {}
    if NotRolledBack(a, d, vaults) {
      forall id | id in a.heads && id !in vaults ensures a.revision < d.revision {}
    }
  }

  /** A recovery kit opens exactly a database that was not rolled back behind its anchor, and moves the anchor there. */
  lemma RecoveryOpenIff(file: AnchorFile, d: Database, vaults: map<VaultId, Vault>)
    ensures var (ok, file') := Reconcile(file, AnchorOf(d, vaults), Recovery);
            && (ok <==> file.Authentic? && NotRolledBack(file.anchor, d, vaults))
            && file' == if ok then Authentic(AnchorOf(d, vaults)) else file
  {
    if file.Authentic? { VerifyIff(file.anchor, d, vaults); }
  }

  /** Every request that a store accepts is one that the anchor of that store may follow. */
  lemma RequestAdvances(st: Store, r: Request)
    requires Submit(st, r).Ok? && forall id | id in st.vaults :: st.vaults[id].id == id
    ensures var a := AnchorOf(st.database.value, st.vaults);
            Verify(a, a, true) && Verify(a, AfterAnchor(a, r), false)
  {}

  /** Accept-current repairs every anchor but an existing unreadable one, and a plain open then succeeds. */
  lemma AcceptCurrentRepairsIff(file: AnchorFile, observed: Anchor, bootstrap: Bootstrap)
    ensures var (ok, file') := Reconcile(file, observed, AcceptCurrent);
            && (ok <==> !file.Corrupt?)
            && (ok ==> Reconcile(file', observed, Plain(bootstrap)) == (true, file'))
            && (!ok ==> file' == file && !Reconcile(file', observed, Plain(bootstrap)).0)
  {}

  /**
   * A commit whose anchor write was lost: the store moved from the anchored
   * state by one accepted request. Every plain open is refused, and one
   * accept-current makes plain opens succeed again.
   */
  lemma InterruptedCommitIsRefusedThenRepaired(st: Store, r: Request, bootstrap: Bootstrap)
    requires Submit(st, r).Ok?
    ensures st.database.Some?
    ensures var st' := Submit(st, r).value;
            var file := Authentic(AnchorOf(st.database.value, st.vaults));
            var observed := AnchorOf(st'.database.value, st'.vaults);
            && !Reconcile(file, observed, Plain(bootstrap)).0
            && Reconcile(file, observed, AcceptCurrent) == (true, Authentic(observed))
            && Reconcile(Authentic(observed), observed, Plain(bootstrap)).0
  {
    var st' := Submit(st, r).value;
    var anchored := AnchorOf(st.database.value, st.vaults);
    var observed := AnchorOf(st'.database.value, st'.vaults);
    if r.UpdateVault? {
      assert anchored.heads[r.vault.id].revision + 1 == observed.heads[r.vault.id].revision;
    } else {
      assert observed.revision == anchored.revision + 1;
    }
  }
}
