/**
 * A run in which a session commits across a restore: catalog and vaults no
 * longer agree afterwards, so nobody can open the database any more, and a
 * change that was acknowledged on the restored branch is lost.
 */
module CrossedBranches {
  import opened Wrappers
  import opened DatabaseModel
  import opened Anchors
  import opened AnchoredMutations
  import opened Operations
  import opened Faults
  import opened SharedRuns
  import StaleEdits
  import RestoredRuns

  lemma {:induction false} PastGrows(w: World, events: seq<Event>)
    ensures w.past <= Run(w, events).past
    decreases events
  {
    if events == [] {
    } else {
      var n := |events| - 1;
      PastGrows(w, events[..n]);
      RestoredRuns.Grows(Run(w, events[..n]), events[n]);
    }
  }

  const D1 := Database("db", 1, "owner", [], [CatalogEntry("u", "one"), CatalogEntry("v", "two")])
  const D2 := Database("db", 2, "owner", [], [CatalogEntry("u", "one")])
  const D3 := Database("db", 3, "owner", [], [CatalogEntry("u", "four")])
  const E2 := Database("db", 2, "owner", [], [CatalogEntry("u", "one"), CatalogEntry("v", "three")])
  const BOTH: map<VaultId, Vault> := map["u" := Vault("u", 0, 1, "text"), "v" := Vault("v", 0, 1, "text")]
  const ONE: map<VaultId, Vault> := map["u" := Vault("u", 0, 1, "text")]
  const REMOVE := Remove("v")
  const RENAME := Rename("u", "four")
  const OTHER := Rename("v", "three")

  /** Two seats anchored on one stored database with two vaults. */
  function Start(): World {
    var st := Store(Some(D1), BOTH);
    var file := Authentic(AnchorOf(D1, BOTH));
    World(st, map[1 := file, 2 := file], map[], map[], {"u", "v"}, [st], [])
  }

  function Opened(): seq<Event> {
    StaleEdits.Opens(1, 1) + StaleEdits.Opens(2, 2)
  }

  /** Session 1 removed a vault and is about to rename the other one when the initial store is put back. */
  function Suspended(): seq<Event> {
    Opened() + StaleEdits.Calls(1, REMOVE) + [Begin(1, RENAME), Observe(1)] + [Lock(1, Readable)]
  }

  /** Session 2 renames on the restored branch, and session 1 goes on. */
  function Crossing(): seq<Event> {
    Suspended() + [Restore(0)] + StaleEdits.Calls(2, OTHER) + [Mutate(1, Attempted(NoFault), Readable)]
  }

  lemma StartIsInitial()
    ensures Initial(Start()) && CatalogMatches(D1, BOTH)
  {
    assert D1.catalog[0].id == "u" && D1.catalog[1].id == "v";
  }

  ghost predicate IdleAt(w: World, s: SessionId, seat: SeatId, d: Database) {
    s in w.sessions && w.sessions[s] == Session(seat, false, Idle(d)) && seat !in w.locks
  }

  lemma BothOpen()
    ensures var w := Run(Start(), Opened());
            && w.store == Start().store && w.anchors == Start().anchors && IdleAt(w, 1, 1, D1) && IdleAt(w, 2, 2, D1)
  {
    StartIsInitial();
    RunAppend(Start(), StaleEdits.Opens(1, 1), StaleEdits.Opens(2, 2));
    StaleEdits.OpensIdle(Start(), 1, 1);
    StaleEdits.OpensIdle(Run(Start(), StaleEdits.Opens(1, 1)), 2, 2);
  }

  lemma RemoveRequest(r: Request)
    requires r == DeleteVault(D2, 1, "v", 0)
    ensures Prepare(D1, Fetched(BOTH, REMOVE), REMOVE) == Some(r)
    ensures Submit(Start().store, r) == Ok(Store(Some(D2), ONE))
    ensures AfterAnchor(AnchorOf(D1, BOTH), r) == AnchorOf(D2, ONE)
    ensures var before := AnchorOf(D1, BOTH);
            Entered(Authentic(before), before, Readable) && Permits(before, before, AfterAnchor(before, r))
  {
    VerifyReflexive(AnchorOf(D1, BOTH));
    assert D1.catalog[1..] == [CatalogEntry("v", "two")];
    assert Dropped(D1.catalog[1..], "v") == [];
    assert Dropped(D1.catalog, "v") == D2.catalog;
    assert BOTH - {"v"} == ONE;
  }

  lemma Removed(w: World)
    requires w.store == Start().store && w.anchors == Start().anchors && IdleAt(w, 1, 1, D1) && IdleAt(w, 2, 2, D1)
    ensures var w' := Run(w, StaleEdits.Calls(1, REMOVE));
            && w'.store == Store(Some(D2), ONE) && FileOf(w', 1) == Authentic(AnchorOf(D2, ONE)) && IdleAt(w', 1, 1, D2)
            && FileOf(w', 2) == Authentic(AnchorOf(D1, BOTH)) && IdleAt(w', 2, 2, D1)
  {
    var r := DeleteVault(D2, 1, "v", 0);
    RemoveRequest(r);
    StaleEdits.CallsDone(w, 1, D1, REMOVE, r, Store(Some(D2), ONE));
    StaleEdits.CallsKeepOthers(w, 1, REMOVE, 2, 2);
  }

  /** The restore comes between the anchor check and the swap. */
  lemma Suspends(w: World)
    requires w.store == Store(Some(D2), ONE) && FileOf(w, 1) == Authentic(AnchorOf(D2, ONE)) && IdleAt(w, 1, 1, D2)
    requires FileOf(w, 2) == Authentic(AnchorOf(D1, BOTH)) && IdleAt(w, 2, 2, D1)
    ensures var w' := Next(Next(Next(w, Begin(1, RENAME)), Observe(1)), Lock(1, Readable));
            && About(w') && FileOf(w', 2) == Authentic(AnchorOf(D1, BOTH)) && IdleAt(w', 2, 2, D1)
  {
    var before, r := AnchorOf(D2, ONE), UpdateDatabase(D3, 2);
    VerifyReflexive(before);
    assert D2.catalog[0].id == "u";
    assert Renamed(D2.catalog, "u", "four") == D3.catalog;
    assert Prepare(D2, Fetched(ONE, RENAME), RENAME) == Some(r);
    StaleEdits.BegunAndObserved(w, 1, D2, RENAME, r);
    var w2 := Next(Next(w, Begin(1, RENAME)), Observe(1));
    LockedStep(w2, 1, Readable);
    StaleEdits.BeginApart(w, 1, RENAME, 2, 2);
    StaleEdits.LockApart(w2, 1, 2, 2);
  }

  /** Session 1 holds its lock and is about to store its document. */
  ghost predicate About(w: World) {
    && 1 in w.sessions && w.sessions[1].seat == 1
    && w.sessions[1].phase.Locked? && w.sessions[1].phase.request == UpdateDatabase(D3, 2)
  }

  lemma OtherRequest(r: Request)
    requires r == UpdateDatabase(E2, 1)
    ensures Prepare(D1, Fetched(BOTH, OTHER), OTHER) == Some(r)
    ensures Submit(Store(Some(D1), BOTH), r) == Ok(Store(Some(E2), BOTH))
    ensures var before := AnchorOf(D1, BOTH);
            Entered(Authentic(before), before, Readable) && Permits(before, before, AfterAnchor(before, r))
  {
    VerifyReflexive(AnchorOf(D1, BOTH));
    assert D1.catalog[1].id == "v";
    assert Renamed(D1.catalog, "v", "three") == E2.catalog;
  }

  lemma OtherDone(w: World)
    requires w.store == Store(Some(D1), BOTH) && FileOf(w, 2) == Authentic(AnchorOf(D1, BOTH)) && IdleAt(w, 2, 2, D1)
             && About(w)
    ensures var w' := Run(w, StaleEdits.Calls(2, OTHER));
            && w'.store == Store(Some(E2), BOTH) && About(w') && IdleAt(w', 2, 2, E2)
  {
    var r := UpdateDatabase(E2, 1);
    OtherRequest(r);
    StaleEdits.CallsDone(w, 2, D1, OTHER, r, Store(Some(E2), BOTH));
    StaleEdits.CallsKeepOthers(w, 2, OTHER, 1, 1);
  }

  lemma SuspendedRun()
    ensures var w := Run(Start(), Suspended());
            && About(w) && FileOf(w, 2) == Authentic(AnchorOf(D1, BOTH)) && IdleAt(w, 2, 2, D1)
            && |w.past| > 0 && w.past[0] == Start().store
  {
    var done := Opened() + StaleEdits.Calls(1, REMOVE);
    RunAppend(Start(), Opened(), StaleEdits.Calls(1, REMOVE));
    RunAppend(Start(), done, [Begin(1, RENAME), Observe(1)]);
    RunAppend(Start(), done + [Begin(1, RENAME), Observe(1)], [Lock(1, Readable)]);
    BothOpen();
    Removed(Run(Start(), Opened()));
    var w := Run(Start(), done);
    RunFirst(w, Begin(1, RENAME), [Observe(1)]);
    assert [Begin(1, RENAME)] + [Observe(1)] == [Begin(1, RENAME), Observe(1)];
    RunOne(Next(w, Begin(1, RENAME)), Observe(1));
    RunOne(Next(Next(w, Begin(1, RENAME)), Observe(1)), Lock(1, Readable));
    Suspends(w);
    PastGrows(Start(), Suspended());
  }

  lemma MutateParts(w: World)
    requires w.store == Store(Some(E2), BOTH) && About(w) && IdleAt(w, 2, 2, E2)
    ensures Parted(Next(w, Mutate(1, Attempted(NoFault), Readable)))
  {
    assert "v" in BOTH && !InCatalog(D3.catalog, "v");
  }

  lemma CrossingUnfolds(w: World)
    requires w == Run(Start(), Suspended())
    ensures Run(Start(), Crossing())
            == Next(Run(Next(w, Restore(0)), StaleEdits.Calls(2, OTHER)), Mutate(1, Attempted(NoFault), Readable))
  {
    var restored := Suspended() + [Restore(0)];
    RunAppend(Start(), Suspended(), [Restore(0)]);
    RunAppend(Start(), restored, StaleEdits.Calls(2, OTHER));
    RunAppend(Start(), restored + StaleEdits.Calls(2, OTHER), [Mutate(1, Attempted(NoFault), Readable)]);
    RunOne(w, Restore(0));
    RunOne(Run(Next(w, Restore(0)), StaleEdits.Calls(2, OTHER)), Mutate(1, Attempted(NoFault), Readable));
  }

  /**
   * The stored catalog lists one of the two stored vaults, and the rename that
   * session 2 made and still has cached is gone.
   */
  ghost predicate Parted(w: World) {
    && w.store == Store(Some(D3), BOTH) && !CatalogMatches(D3, BOTH) && !WellFormed(w.store)
    && 2 in w.sessions && w.sessions[2].phase == Idle(E2)
  }

  /** No call failed and every swap was accepted, yet catalog and vaults part. */
  lemma CrossingPartsCatalogAndVaults()
    ensures Initial(Start()) && Parted(Run(Start(), Crossing()))
  {
    StartIsInitial();
    SuspendedRun();
    var w := Run(Start(), Suspended());
    CrossingUnfolds(w);
    OtherDone(Next(w, Restore(0)));
    MutateParts(Run(Next(w, Restore(0)), StaleEdits.Calls(2, OTHER)));
  }
}
