/**
 * A run in which an acknowledged edit leaves an anchor that differs from the
 * recomputed one: the editing session's cached catalog was stale. The next
 * plain open at that seat is refused although nothing was rolled back.
 */
module StaleEdits {
  import opened Wrappers
  import opened DatabaseModel
  import opened Anchors
  import opened AnchoredMutations
  import opened Operations
  import opened Faults
  import opened SharedRuns

  /** The events of a plain open, and of one call without faults. */
  function Opens(s: SessionId, seat: SeatId): seq<Event> {
    [OpenRead(s, seat, false), OpenList(s), OpenFinish(s, Plain(NotAShare), Written)]
  }

  function Calls(s: SessionId, call: Call): seq<Event> {
    [Begin(s, call), Observe(s), Lock(s, Readable), Mutate(s, Attempted(NoFault), Readable),
        Publish(s, Written, Readable)]
  }

  lemma RunOpens(w: World, s: SessionId, seat: SeatId)
    ensures Run(w, Opens(s, seat))
            == Next(Next(Next(w, OpenRead(s, seat, false)), OpenList(s)), OpenFinish(s, Plain(NotAShare), Written))
  {
    var a, b, c := OpenRead(s, seat, false), OpenList(s), OpenFinish(s, Plain(NotAShare), Written);
    assert Opens(s, seat) == [a] + ([b] + [c]);
    RunFirst(w, a, [b] + [c]);
    RunFirst(Next(w, a), b, [c]);
    RunOne(Next(Next(w, a), b), c);
  }

  lemma RunCalls(w: World, s: SessionId, call: Call)
    ensures Run(w, Calls(s, call)) == Played(Next(Next(w, Begin(s, call)), Observe(s)), s, FAULTLESS)
  {
    var a, b, c, d, e := Begin(s, call), Observe(s), Lock(s, Readable), Mutate(s, Attempted(NoFault), Readable),
        Publish(s, Written, Readable);
    assert Calls(s, call) == [a] + ([b] + ([c] + ([d] + [e])));
    RunFirst(w, a, [b] + ([c] + ([d] + [e])));
    var w2 := Next(w, a);
    RunFirst(w2, b, [c] + ([d] + [e]));
    var w3 := Next(w2, b);
    RunFirst(w3, c, [d] + [e]);
    RunFirst(Next(w3, c), d, [e]);
    RunOne(Next(Next(w3, c), d), e);
  }

  lemma ReadAndListed(w: World, s: SessionId, seat: SeatId)
    requires s !in w.sessions && w.store.database.Some? && CatalogMatches(w.store.database.value, w.store.vaults)
    ensures var d, w2 := w.store.database.value, Next(Next(w, OpenRead(s, seat, false)), OpenList(s));
            w2 == w.(sessions := w.sessions[s := Session(seat, false, Listed(d, AnchorOf(d, w.store.vaults)))])
  {
    var d := w.store.database.value;
    var w1 := Next(w, OpenRead(s, seat, false));
    assert w1.sessions[s].phase == Opening(d);
    var listed := Session(seat, false, Listed(d, AnchorOf(d, w.store.vaults)));
    assert w1.sessions[s := listed] == w.sessions[s := listed];
  }

  /** A plain open at an anchored, unlocked seat gives an idle session on the stored document. */
  lemma OpensIdle(w: World, s: SessionId, seat: SeatId)
    requires s !in w.sessions && w.store.database.Some? && CatalogMatches(w.store.database.value, w.store.vaults)
    requires FileOf(w, seat) == Authentic(AnchorOf(w.store.database.value, w.store.vaults))
    ensures var w' := Run(w, Opens(s, seat));
            && w'.store == w.store && w'.anchors == w.anchors && w'.locks == w.locks && w'.used == w.used
            && w'.sessions == w.sessions[s := Session(seat, false, Idle(w.store.database.value))]
  {
    var d := w.store.database.value;
    RunOpens(w, s, seat);
    ReadAndListed(w, s, seat);
    PlainOpenIff(FileOf(w, seat), AnchorOf(d, w.store.vaults), NotAShare);
    var listed, idle := Session(seat, false, Listed(d, AnchorOf(d, w.store.vaults))), Session(seat, false, Idle(d));
    assert w.sessions[s := listed][s := idle] == w.sessions[s := idle];
  }

  lemma BegunAndObserved(w: World, s: SessionId, cached: Database, call: Call, r: Request)
    requires s in w.sessions && w.sessions[s].phase == Idle(cached) && !w.sessions[s].recovering && !call.ReplaceOwner?
    requires Drawn(call) * w.used == {} && Prepare(cached, Fetched(w.store.vaults, call), call) == Some(r)
    ensures var w' := Next(Next(w, Begin(s, call)), Observe(s));
            && w'.store == w.store && w'.anchors == w.anchors && w'.locks == w.locks
            && s in w'.sessions && w'.sessions[s].seat == w.sessions[s].seat
            && w'.sessions[s].phase
                 == Observed(cached, call, r, Fetched(w.store.vaults, call), AnchorOf(cached, w.store.vaults))
  {
    var w1 := Next(w, Begin(s, call));
    assert w1.sessions[s].phase == Prepared(cached, call, r, Fetched(w.store.vaults, call));
  }

  /** A faultless call that the store accepts. */
  lemma CallsDone(w: World, s: SessionId, cached: Database, call: Call, r: Request, st: Store)
    requires s in w.sessions && w.sessions[s].phase == Idle(cached) && !w.sessions[s].recovering && !call.ReplaceOwner?
    requires w.sessions[s].seat !in w.locks && Drawn(call) * w.used == {}
    requires Prepare(cached, Fetched(w.store.vaults, call), call) == Some(r) && Submit(w.store, r) == Ok(st)
    requires var file, before := FileOf(w, w.sessions[s].seat), AnchorOf(cached, w.store.vaults);
             Entered(file, before, Readable) && Permits(file.anchor, before, AfterAnchor(before, r))
    ensures var w', seat := Run(w, Calls(s, call)), w.sessions[s].seat;
            && w'.store == st && FileOf(w', seat) == Authentic(AfterAnchor(AnchorOf(cached, w.store.vaults), r))
                 && seat !in w'.locks
            && s in w'.sessions && w'.sessions[s].phase == Idle(NextCached(cached, r))
  {
    RunCalls(w, s, call);
    BegunAndObserved(w, s, cached, call, r);
    AnchoredIsRun(Next(Next(w, Begin(s, call)), Observe(s)), s, FAULTLESS);
  }

  /** A step of session s left session t and the seat alone. */
  ghost predicate Apart(w: World, w': World, s: SessionId, t: SessionId, seat: SeatId)
    requires s in w.sessions && t in w.sessions
  {
    && s in w'.sessions && w'.sessions[s].seat == w.sessions[s].seat
         && w'.sessions[s].recovering == w.sessions[s].recovering
    && t in w'.sessions && w'.sessions[t] == w.sessions[t]
    && FileOf(w', seat) == FileOf(w, seat) && (seat in w'.locks <==> seat in w.locks)
  }

  lemma BeginApart(w: World, s: SessionId, call: Call, t: SessionId, seat: SeatId)
    requires s != t && s in w.sessions && t in w.sessions && w.sessions[s].seat != seat
    ensures Apart(w, Next(Next(w, Begin(s, call)), Observe(s)), s, t, seat)
  {}

  lemma LockApart(w: World, s: SessionId, t: SessionId, seat: SeatId)
    requires s != t && s in w.sessions && t in w.sessions && w.sessions[s].seat != seat
    ensures Apart(w, Next(w, Lock(s, Readable)), s, t, seat)
  {}

  lemma MutateApart(w: World, s: SessionId, t: SessionId, seat: SeatId)
    requires s != t && s in w.sessions && t in w.sessions && w.sessions[s].seat != seat
    ensures Apart(w, Next(w, Mutate(s, Attempted(NoFault), Readable)), s, t, seat)
  {}

  lemma PublishApart(w: World, s: SessionId, t: SessionId, seat: SeatId)
    requires s != t && s in w.sessions && t in w.sessions && w.sessions[s].seat != seat
    ensures Apart(w, Next(w, Publish(s, Written, Readable)), s, t, seat)
  {}

  /** A call touches neither another session nor another seat. */
  lemma CallsKeepOthers(w: World, s: SessionId, call: Call, t: SessionId, seat: SeatId)
    requires s != t && s in w.sessions && t in w.sessions && w.sessions[s].seat != seat
    ensures Apart(w, Run(w, Calls(s, call)), s, t, seat)
  {
    RunCalls(w, s, call);
    var w2 := Next(Next(w, Begin(s, call)), Observe(s));
    var w3 := Next(w2, Lock(s, Readable));
    var w4 := Next(w3, Mutate(s, Attempted(NoFault), Readable));
    BeginApart(w, s, call, t, seat);
    LockApart(w2, s, t, seat);
    MutateApart(w3, s, t, seat);
    PublishApart(w4, s, t, seat);
  }

  // ------------------------------------------------------------------- the run

  const V0 := Vault("v", 0, 1, "old")
  const V1 := Vault("v", 1, 1, "new")
  const D1 := Database("db", 1, "owner", [], [CatalogEntry("v", "name")])
  const D2 := Database("db", 2, "owner", [RecoverySlot("kit", Active)], [CatalogEntry("v", "name")])
  const VAULTS0: map<VaultId, Vault> := map["v" := V0]
  const VAULTS1: map<VaultId, Vault> := map["v" := V1]
  const ADD := AddRecovery("kit")
  const EDIT := Edit("v", "new")

  /** Two seats anchored on one stored database with one vault. */
  function Start(): World {
    var st := Store(Some(D1), VAULTS0);
    var file := Authentic(AnchorOf(D1, VAULTS0));
    World(st, map[1 := file, 2 := file], map[], map[], {"v", "owner"}, [st], [])
  }

  /** Session 1 edits after session 2, at the other seat, added a recovery slot. */
  function Stale(): seq<Event> {
    Opens(1, 1) + Opens(2, 2) + Calls(2, ADD) + Calls(1, EDIT)
  }

  lemma StartIsInitial()
    ensures Initial(Start()) && CatalogMatches(D1, VAULTS0)
  {
    assert D1.catalog[0].id == "v";
  }

  lemma BothOpen()
    ensures var w := Run(Start(), Opens(1, 1) + Opens(2, 2));
            && w.store == Start().store && w.anchors == Start().anchors && w.locks == map[] && w.used == {"v", "owner"}
            && w.sessions == map[1 := Session(1, false, Idle(D1)), 2 := Session(2, false, Idle(D1))]
  {
    StartIsInitial();
    RunAppend(Start(), Opens(1, 1), Opens(2, 2));
    OpensIdle(Start(), 1, 1);
    OpensIdle(Run(Start(), Opens(1, 1)), 2, 2);
  }

  lemma SlotAdded(w: World)
    requires w.store == Start().store && w.anchors == Start().anchors && w.locks == map[] && w.used == {"v", "owner"}
    requires w.sessions == map[1 := Session(1, false, Idle(D1)), 2 := Session(2, false, Idle(D1))]
    ensures var w' := Run(w, Calls(2, ADD));
            && w'.store == Store(Some(D2), VAULTS0) && 1 in w'.sessions && w'.sessions[1] == Session(1, false, Idle(D1))
            && FileOf(w', 1) == Authentic(AnchorOf(D1, VAULTS0)) && 1 !in w'.locks
  {
    var before := AnchorOf(D1, VAULTS0);
    VerifyReflexive(before);
    assert |"kit"| != |"v"| && |"kit"| != |"owner"|;
    assert Drawn(ADD) == {"kit"};
    assert D1.slots + [RecoverySlot("kit", Active)] == D2.slots;
    assert Prepare(D1, Fetched(VAULTS0, ADD), ADD) == Some(UpdateDatabase(D2, 1));
    CallsDone(w, 2, D1, ADD, UpdateDatabase(D2, 1), Store(Some(D2), VAULTS0));
    CallsKeepOthers(w, 2, ADD, 1, 1);
  }

  lemma EditedStale(w: World)
    requires w.store == Store(Some(D2), VAULTS0) && 1 in w.sessions && w.sessions[1] == Session(1, false, Idle(D1))
    requires FileOf(w, 1) == Authentic(AnchorOf(D1, VAULTS0)) && 1 !in w.locks
    ensures var w' := Run(w, Calls(1, EDIT));
            && w'.store == Store(Some(D2), VAULTS1) && 1 in w'.sessions && w'.sessions[1].phase == Idle(D1)
            && FileOf(w', 1) == Authentic(AnchorOf(D1, VAULTS1))
  {
    var before, r := AnchorOf(D1, VAULTS0), UpdateVault(V1, "db", 0);
    VerifyReflexive(before);
    assert VAULTS0["v" := V1] == VAULTS1;
    assert AfterAnchor(before, r) == AnchorOf(D1, VAULTS1);
    CallsDone(w, 1, D1, EDIT, r, Store(Some(D2), VAULTS1));
  }

  /**
   * Both calls were acknowledged and no fault occurred, yet the editing seat's
   * anchor is not the one recomputed from the store, and a plain open there is
   * refused.
   */
  lemma StaleEditLeavesOtherAnchor()
    ensures Initial(Start())
    ensures var w := Run(Start(), Stale());
            && 1 in w.sessions && w.sessions[1].phase.Idle? && w.store.database.Some?
            && var observed := AnchorOf(w.store.database.value, w.store.vaults);
               FileOf(w, 1).Authentic? && FileOf(w, 1).anchor != observed
               && !Reconcile(FileOf(w, 1), observed, Plain(NotAShare)).0
  {
    StartIsInitial();
    BothOpen();
    var opens := Opens(1, 1) + Opens(2, 2);
    RunAppend(Start(), opens, Calls(2, ADD));
    RunAppend(Start(), opens + Calls(2, ADD), Calls(1, EDIT));
    SlotAdded(Run(Start(), opens));
    EditedStale(Run(Start(), opens + Calls(2, ADD)));
    assert AnchorOf(D1, VAULTS1).revision != AnchorOf(D2, VAULTS1).revision;
  }
}
