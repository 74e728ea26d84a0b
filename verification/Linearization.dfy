/**
 * Without a restore, every interleaving of sessions is a sequential history:
 * the accepted calls, in the order the store accepted them, replayed one by
 * one on the initial database give exactly the stored database, and each was
 * enabled when it was accepted. No update is lost.
 */
module Linearization {
  import opened Wrappers
  import opened DatabaseModel
  import opened Anchors
  import opened AnchoredMutations
  import opened Operations
  import opened Faults
  import opened SharedRuns

  /** A cached document is the stored one or strictly older. */
  ghost predicate Coherent(cached: Database, st: Store)
    requires st.database.Some?
  {
    && cached.id == st.database.value.id
    && (cached.revision < st.database.value.revision || cached == st.database.value)
  }

  /** A vault document that was read is the stored one, strictly older, or of a vault now gone. */
  ghost predicate ReadCoherent(v: Vault, st: Store) {
    v.id in st.vaults ==> v.revision < st.vaults[v.id].revision || v == st.vaults[v.id]
  }

  ghost predicate SlotsDrawn(d: Database, used: set<string>) {
    forall s | s in d.slots :: s.id in used
  }

  /** A prepared request is what its call computes from what the session saw. */
  ghost predicate RequestOk(
      st: Store, used: set<string>, cached: Database, call: Call, r: Request, seen: map<VaultId, Vault>)
  {
    && Prepare(cached, seen, call) == Some(r)
    && (call.Edit? ==> seen[call.id].id == call.id && call.id in used && ReadCoherent(seen[call.id], st))
    && (call.Create? ==> call.id in used && call.id !in st.vaults)
    && (call.AddRecovery? ==> call.slot in used && forall s | s in cached.slots :: s.id != call.slot)
  }

  predicate Pending(p: Phase) {
    p.Prepared? || p.Observed? || p.Locked?
  }

  ghost predicate PhaseOk(st: Store, used: set<string>, p: Phase)
    requires st.database.Some?
  {
    && (!p.Closed? ==> Coherent(p.cached, st) && SlotsDrawn(p.cached, used))
    && (p.Accepted? ==>
          Coherent(NextCached(p.cached, p.request), st) && SlotsDrawn(NextCached(p.cached, p.request), used))
    && (Pending(p) ==> RequestOk(st, used, p.cached, p.call, p.request, p.seen))
  }

  /** While one session is about to create a vault, no other creates or edits it. */
  ghost predicate Apart(p: Phase, q: Phase) {
    Pending(p) && Pending(q) && p.call.Create? && (q.call.Create? || q.call.Edit?) ==> p.call.id != q.call.id
  }

  ghost predicate SessionsOk(w: World)
    requires w.store.database.Some?
  {
    && (forall s | s in w.sessions :: PhaseOk(w.store, w.used, w.sessions[s].phase))
    && (forall s, t | s in w.sessions && t in w.sessions && s != t :: Apart(w.sessions[s].phase, w.sessions[t].phase))
  }

  /** The history so far, replayed from the initial summary, is the stored database. */
  ghost predicate Linear(initial: Summary, w: World) {
    && WellFormed(w.store)
    && w.store.vaults.Keys <= w.used
    && SlotsDrawn(w.store.database.value, w.used)
    && Legal(initial, w.log)
    && Summarize(w.store) == Replay(initial, w.log)
    && SessionsOk(w)
  }

  // ------------------------------------------------------------------- one step

  /** One session changes phase and nothing else that matters to the others. */
  lemma MoveKeeps(initial: Summary, w: World, s: SessionId, p: Phase, w': World)
    requires Linear(initial, w) && s in w.sessions && PhaseOk(w.store, w.used, p)
    requires forall t | t in w.sessions && t != s :: Apart(p, w.sessions[t].phase) && Apart(w.sessions[t].phase, p)
    requires w'.store == w.store && w'.used == w.used && w'.log == w.log
    requires w'.sessions == w.sessions[s := w.sessions[s].(phase := p)]
    ensures Linear(initial, w')
  {}

  /** Drawing new identifiers changes nothing that was established before. */
  lemma DrawKeeps(initial: Summary, w: World, used: set<string>)
    requires Linear(initial, w) && w.used <= used
    ensures Linear(initial, w.(used := used))
  {
    var w' := w.(used := used);
    forall s | s in w'.sessions ensures PhaseOk(w'.store, used, w'.sessions[s].phase) {
      assert PhaseOk(w.store, w.used, w.sessions[s].phase);
    }
  }

  /**
   * A call that was just prepared concerns no vault that a pending call of
   * another session creates, or creates a new one.
   */
  lemma NewIsApart(st: Store, used: set<string>, p: Phase, q: Phase)
    requires st.database.Some? && PhaseOk(st, used, q) && p.Prepared?
    requires p.call.Create? ==> p.call.id !in used
    requires p.call.Edit? ==> p.call.id in st.vaults
    ensures Apart(p, q) && Apart(q, p)
  {
    if Pending(q) { assert RequestOk(st, used, q.cached, q.call, q.request, q.seen); }
  }

  /** What a call saw when it was prepared is what is stored. */
  lemma BegunIsOk(st: Store, used: set<string>, cached: Database, call: Call, r: Request)
    requires WellFormed(st) && st.vaults.Keys <= used && Coherent(cached, st) && SlotsDrawn(cached, used)
    requires Prepare(cached, Fetched(st.vaults, call), call) == Some(r)
    requires call.AddRecovery? ==> call.slot in used && forall s | s in cached.slots :: s.id != call.slot
    requires call.Create? ==> call.id in used && call.id !in st.vaults
    ensures PhaseOk(st, used, Prepared(cached, call, r, Fetched(st.vaults, call)))
  {}

  lemma BeginKeeps(initial: Summary, w: World, s: SessionId, call: Call)
    requires Linear(initial, w) && s in w.sessions && w.sessions[s].phase.Idle?
    ensures Linear(initial, Begun(w, s, call))
  {
    var cached, seen := w.sessions[s].phase.cached, Fetched(w.store.vaults, call);
    var prepared := Prepare(cached, seen, call);
    if (call.ReplaceOwner? <==> w.sessions[s].recovering) && Drawn(call) * w.used == {} && prepared.Some? {
      var w1 := w.(used := w.used + Drawn(call));
      var p := Prepared(cached, call, prepared.value, seen);
      DrawKeeps(initial, w, w1.used);
      BegunIsApart(initial, w, s, call, prepared.value);
      MoveKeeps(initial, w1, s, p, Begun(w, s, call));
    }
  }

  lemma BegunIsApart(initial: Summary, w: World, s: SessionId, call: Call, r: Request)
    requires Linear(initial, w) && s in w.sessions && w.sessions[s].phase.Idle? && Drawn(call) * w.used == {}
    requires Prepare(w.sessions[s].phase.cached, Fetched(w.store.vaults, call), call) == Some(r)
    ensures var p := Prepared(w.sessions[s].phase.cached, call, r, Fetched(w.store.vaults, call));
            && PhaseOk(w.store, w.used + Drawn(call), p)
            && forall t | t in w.sessions && t != s :: Apart(p, w.sessions[t].phase) && Apart(w.sessions[t].phase, p)
  {
    var cached := w.sessions[s].phase.cached;
    var p := Prepared(cached, call, r, Fetched(w.store.vaults, call));
    assert PhaseOk(w.store, w.used, w.sessions[s].phase);
    DrawnIsNew(w, cached, call);
    BegunIsOk(w.store, w.used + Drawn(call), cached, call, r);
    forall t | t in w.sessions && t != s ensures Apart(p, w.sessions[t].phase) && Apart(w.sessions[t].phase, p) {
      NewIsApart(w.store, w.used, p, w.sessions[t].phase);
    }
  }

  lemma DrawnIsNew(w: World, cached: Database, call: Call)
    requires Drawn(call) * w.used == {} && SlotsDrawn(cached, w.used) && w.store.vaults.Keys <= w.used
    ensures call.AddRecovery? ==> call.slot in Drawn(call) && forall s | s in cached.slots :: s.id != call.slot
    ensures call.Create? ==> call.id in Drawn(call) && call.id !in w.used && call.id !in w.store.vaults
    ensures call.Edit? && Prepare(cached, Fetched(w.store.vaults, call), call).Some? ==> call.id in w.store.vaults
  {
    assert forall x | x in Drawn(call) :: x in Drawn(call) * w.used <==> x in w.used;
    if call.AddRecovery? { assert call.slot in Drawn(call); }
    if call.Create? { assert call.id in Drawn(call); }
  }

  /** What the compare-and-swap pins: the accepted request is the one its call computes on the stored state. */
  lemma AcceptancePins(
      st: Store, used: set<string>, cached: Database, call: Call, r: Request, seen: map<VaultId, Vault>)
    requires WellFormed(st) && Coherent(cached, st) && RequestOk(st, used, cached, call, r, seen)
    requires Submit(st, r).Ok?
    ensures !call.Edit? ==> cached == st.database.value
    ensures call.Edit? ==> call.id in st.vaults && seen[call.id] == st.vaults[call.id]
  {}

  lemma AcceptKeepsOthers(st: Store, used: set<string>, call: Call, r: Request, p: Phase)
    requires WellFormed(st) && PhaseOk(st, used, p) && Submit(st, r).Ok?
    requires call.Edit? <==> r.UpdateVault?
    requires r.CreateVault? ==> call.Create? && r.vault.id == call.id
    requires r.CreateVault? && Pending(p) ==> (p.call.Create? || p.call.Edit?) ==> p.call.id != call.id
    ensures WellFormed(Submit(st, r).value) ==> PhaseOk(Submit(st, r).value, used, p)
  {}

  /** An accepted request appends one enabled call to the history. */
  lemma AcceptHistory(initial: Summary, w: World, q: Phase, st: Store)
    requires WellFormed(w.store) && Legal(initial, w.log) && Summarize(w.store) == Replay(initial, w.log)
    requires q.Locked? && PhaseOk(w.store, w.used, q) && Submit(w.store, q.request) == Ok(st)
    ensures WellFormed(st)
    ensures var log := Committed(w, st, q.call, q.seen).log;
            Legal(initial, log) && Summarize(st) == Replay(initial, log)
  {
    AcceptancePins(w.store, w.used, q.cached, q.call, q.request, q.seen);
    CommitRefines(w.store, q.cached, q.seen, q.call, q.request);
    var commit := Commit(q.call, if q.call.Edit? then q.seen[q.call.id].payload else "");
    LegalExtends(initial, w.log, commit);
    assert Committed(w, st, q.call, q.seen).log == w.log + [commit];
  }

  lemma AcceptKeeps(initial: Summary, w: World, s: SessionId, st: Store, p: Phase, w': World)
    requires Linear(initial, w) && s in w.sessions && w.sessions[s].phase.Locked?
    requires Submit(w.store, w.sessions[s].phase.request) == Ok(st)
    requires p == Closed || p == var q := w.sessions[s].phase; Accepted(q.cached, q.request, q.before, q.trusted)
    requires var q := w.sessions[s].phase;
             var c := Committed(w, st, q.call, q.seen);
             w'.store == st && w'.used == w.used && w'.log == c.log
                 && w'.sessions == w.sessions[s := w.sessions[s].(phase := p)]
    ensures Linear(initial, w')
  {
    var q := w.sessions[s].phase;
    assert PhaseOk(w.store, w.used, q);
    AcceptHistory(initial, w, q, st);
    AcceptedPhase(w.store, w.used, q, st);
    AcceptSessions(w, s, st, p, w'.sessions);
  }

  lemma AcceptSessions(w: World, s: SessionId, st: Store, p: Phase, sessions: map<SessionId, Session>)
    requires WellFormed(w.store) && SessionsOk(w) && s in w.sessions && w.sessions[s].phase.Locked?
    requires Submit(w.store, w.sessions[s].phase.request) == Ok(st) && WellFormed(st)
    requires sessions == w.sessions[s := w.sessions[s].(phase := p)] && !Pending(p) && PhaseOk(st, w.used, p)
    ensures SessionsOk(w.(store := st, sessions := sessions))
  {
    var q := w.sessions[s].phase;
    forall t | t in sessions ensures PhaseOk(st, w.used, sessions[t].phase) {
      if t != s {
        assert Apart(q, w.sessions[t].phase);
        AcceptKeepsOthers(w.store, w.used, q.call, q.request, w.sessions[t].phase);
      }
    }
    StillApart(w, s, p, sessions);
  }

  lemma StillApart(w: World, s: SessionId, p: Phase, sessions: map<SessionId, Session>)
    requires w.store.database.Some? && SessionsOk(w) && s in w.sessions && !Pending(p)
    requires sessions == w.sessions[s := w.sessions[s].(phase := p)]
    ensures forall t, u | t in sessions && u in sessions && t != u :: Apart(sessions[t].phase, sessions[u].phase)
  {
    forall t, u | t in sessions && u in sessions && t != u ensures Apart(sessions[t].phase, sessions[u].phase) {
      if t != s && u != s { assert Apart(w.sessions[t].phase, w.sessions[u].phase); }
    }
  }

  /** A call adds no slot but the one it drew. */
  lemma PreparedSlots(d: Database, used: set<string>, call: Call, r: Request, seen: map<VaultId, Vault>)
    requires Prepare(d, seen, call) == Some(r) && SlotsDrawn(d, used)
    requires call.AddRecovery? ==> call.slot in used
    ensures !r.UpdateVault? ==> SlotsDrawn(r.next, used)
  {
    if call.AddRecovery? {
      assert r.next.slots == d.slots + [RecoverySlot(call.slot, Active)];
    } else if call.Revoke? {
      forall x | x in r.next.slots ensures x.id in used {
        var i :| 0 <= i < |r.next.slots| && r.next.slots[i] == x;
        assert d.slots[i] in d.slots;
      }
    } else {
      assert !r.UpdateVault? ==> r.next.slots == d.slots;
    }
  }

  lemma AcceptedSlots(st: Store, used: set<string>, q: Phase, st': Store)
    requires WellFormed(st) && q.Locked? && PhaseOk(st, used, q) && Submit(st, q.request) == Ok(st')
    requires SlotsDrawn(st.database.value, used) && st.vaults.Keys <= used
    ensures st'.database.Some? && SlotsDrawn(st'.database.value, used) && st'.vaults.Keys <= used
  {
    PreparedSlots(q.cached, used, q.call, q.request, q.seen);
  }

  /** After acceptance the session's next cached document is the stored one. */
  lemma AcceptedPhase(st: Store, used: set<string>, q: Phase, st': Store)
    requires WellFormed(st) && q.Locked? && PhaseOk(st, used, q) && Submit(st, q.request) == Ok(st') && WellFormed(st')
    requires SlotsDrawn(st.database.value, used) && st.vaults.Keys <= used
    ensures PhaseOk(st', used, Accepted(q.cached, q.request, q.before, q.trusted))
    ensures st'.vaults.Keys <= used && SlotsDrawn(st'.database.value, used)
  {
    AcceptancePins(st, used, q.cached, q.call, q.request, q.seen);
    AcceptedSlots(st, used, q, st');
  }

  lemma CurrentIsCoherent(st: Store)
    requires st.database.Some?
    ensures Coherent(st.database.value, st)
  {}

  /** A phase without a pending call is apart from every other. */
  lemma SettleKeeps(initial: Summary, w: World, s: SessionId, p: Phase, w': World)
    requires Linear(initial, w) && s in w.sessions && !Pending(p) && PhaseOk(w.store, w.used, p)
    requires w'.store == w.store && w'.used == w.used && w'.log == w.log
    requires w'.sessions == w.sessions[s := w.sessions[s].(phase := p)]
    ensures Linear(initial, w')
  {
    MoveKeeps(initial, w, s, p, w');
  }

  lemma OpenReadKeeps(initial: Summary, w: World, s: SessionId, session: Session)
    requires Linear(initial, w) && s !in w.sessions
    requires session.phase == Opening(w.store.database.value)
    ensures Linear(initial, w.(sessions := w.sessions[s := session]))
  {
    CurrentIsCoherent(w.store);
    var w' := w.(sessions := w.sessions[s := session]);
    assert PhaseOk(w.store, w.used, session.phase);
    forall t | t in w'.sessions ensures PhaseOk(w'.store, w'.used, w'.sessions[t].phase) {
      assert t != s ==> PhaseOk(w.store, w.used, w.sessions[t].phase);
    }
  }

  lemma LockKeeps(initial: Summary, w: World, s: SessionId, acquire: ReadFault)
    requires Linear(initial, w) && s in w.sessions && w.sessions[s].phase.Observed?
    ensures Linear(initial, LockTaken(w, s, acquire))
  {
    var p, w' := w.sessions[s].phase, LockTaken(w, s, acquire);
    assert PhaseOk(w.store, w.used, p);
    forall t | t in w.sessions && t != s ensures Apart(p, w.sessions[t].phase) && Apart(w.sessions[t].phase, p) {}
    MoveKeeps(initial, w, s, w'.sessions[s].phase, w');
  }

  lemma ObserveKeeps(initial: Summary, w: World, s: SessionId)
    requires Linear(initial, w) && s in w.sessions && w.sessions[s].phase.Prepared?
    ensures Linear(initial, ObservedBefore(w, s))
  {
    var p, w' := w.sessions[s].phase, ObservedBefore(w, s);
    assert PhaseOk(w.store, w.used, p);
    forall t | t in w.sessions && t != s ensures Apart(p, w.sessions[t].phase) && Apart(w.sessions[t].phase, p) {}
    MoveKeeps(initial, w, s, w'.sessions[s].phase, w');
  }

  lemma MutateSettles(w: World, s: SessionId, attempt: StoreCall, release: ReadFault)
    requires s in w.sessions && w.sessions[s].phase.Locked?
    requires attempt.Rejected? || attempt.fault.LostBefore? || Submit(w.store, w.sessions[s].phase.request).Err?
    ensures var p, w' := w.sessions[s].phase, Mutated(w, s, attempt, release);
            Settled(w, s, Closed, w') || Settled(w, s, Idle(p.cached), w')
  {}

  lemma MutateKeeps(initial: Summary, w: World, s: SessionId, attempt: StoreCall, release: ReadFault)
    requires Linear(initial, w) && s in w.sessions && w.sessions[s].phase.Locked?
    ensures Linear(initial, Mutated(w, s, attempt, release))
  {
    var p, w' := w.sessions[s].phase, Mutated(w, s, attempt, release);
    if attempt.Rejected? || attempt.fault.LostBefore? || Submit(w.store, p.request).Err? {
      MutateSettles(w, s, attempt, release);
      SettledKeeps(initial, w, s, Idle(p.cached), w');
    } else {
      AcceptKeeps(initial, w, s, Submit(w.store, p.request).value, w'.sessions[s].phase, w');
    }
  }

  lemma OpenListKeeps(initial: Summary, w: World, s: SessionId)
    requires Linear(initial, w) && s in w.sessions && w.sessions[s].phase.Opening?
    ensures Linear(initial, SharedRuns.Listing(w, s))
  {
    assert PhaseOk(w.store, w.used, w.sessions[s].phase);
    var w' := SharedRuns.Listing(w, s);
    SettleKeeps(initial, w, s, w'.sessions[s].phase, w');
  }

  /** The step only settled this session, in phase p. */
  ghost predicate Settled(w: World, s: SessionId, p: Phase, w': World)
    requires s in w.sessions
  {
    && w'.store == w.store && w'.used == w.used && w'.log == w.log
    && w'.sessions == w.sessions[s := w.sessions[s].(phase := p)]
  }

  lemma OpenFinishSettles(w: World, s: SessionId, mode: OpenMode, write: WriteFault)
    requires s in w.sessions && w.sessions[s].phase.Listed?
    ensures var w' := OpenFinished(w, s, mode, write);
            Settled(w, s, Closed, w') || Settled(w, s, Idle(w.sessions[s].phase.cached), w')
  {}

  lemma OpenFinishKeeps(initial: Summary, w: World, s: SessionId, mode: OpenMode, write: WriteFault)
    requires Linear(initial, w) && s in w.sessions && w.sessions[s].phase.Listed?
    ensures Linear(initial, OpenFinished(w, s, mode, write))
  {
    OpenFinishSettles(w, s, mode, write);
    SettledKeeps(initial, w, s, Idle(w.sessions[s].phase.cached), OpenFinished(w, s, mode, write));
  }

  lemma SettledKeeps(initial: Summary, w: World, s: SessionId, p: Phase, w': World)
    requires Linear(initial, w) && s in w.sessions && p.Idle?
    requires PhaseOk(w.store, w.used, w.sessions[s].phase) ==> PhaseOk(w.store, w.used, p)
    requires Settled(w, s, Closed, w') || Settled(w, s, p, w')
    ensures Linear(initial, w')
  {
    assert PhaseOk(w.store, w.used, w.sessions[s].phase);
    if Settled(w, s, p, w') {
      SettleKeeps(initial, w, s, p, w');
    } else {
      SettleKeeps(initial, w, s, Closed, w');
    }
  }

  lemma PublishSettles(w: World, s: SessionId, write: WriteFault, release: ReadFault)
    requires s in w.sessions && w.sessions[s].phase.Accepted?
    ensures var p, w' := w.sessions[s].phase, Published(w, s, write, release);
            Settled(w, s, Closed, w') || Settled(w, s, Idle(NextCached(p.cached, p.request)), w')
  {}

  lemma PublishKeeps(initial: Summary, w: World, s: SessionId, write: WriteFault, release: ReadFault)
    requires Linear(initial, w) && s in w.sessions && w.sessions[s].phase.Accepted?
    ensures Linear(initial, Published(w, s, write, release))
  {
    var p := w.sessions[s].phase;
    PublishSettles(w, s, write, release);
    SettledKeeps(initial, w, s, Idle(NextCached(p.cached, p.request)), Published(w, s, write, release));
  }

  lemma CrashKeeps(initial: Summary, w: World, s: SessionId)
    requires Linear(initial, w) && s in w.sessions
    ensures Linear(initial, Unlocked(Moved(w, s, Closed), s))
  {
    SettleKeeps(initial, w, s, Closed, Unlocked(Moved(w, s, Closed), s));
  }

  /** Every step but a restore keeps the history linear. */
  lemma StepLinear(initial: Summary, w: World, e: Event)
    requires Linear(initial, w) && !e.Restore?
    ensures Linear(initial, Next(w, e))
  {
    match e
    case OpenRead(s, seat, recovering) =>
      if s !in w.sessions { OpenReadKeeps(initial, w, s, Session(seat, recovering, Opening(w.store.database.value))); }
    case OpenList(s) => if InPhase(w, s, (p: Phase) => p.Opening?) { OpenListKeeps(initial, w, s); }
    case OpenFinish(s, mode, write) =>
      if InPhase(w, s, (p: Phase) => p.Listed?) { OpenFinishKeeps(initial, w, s, mode, write); }
    case Begin(s, call) => if InPhase(w, s, (p: Phase) => p.Idle?) { BeginKeeps(initial, w, s, call); }
    case Observe(s) => if InPhase(w, s, (p: Phase) => p.Prepared?) { ObserveKeeps(initial, w, s); }
    case Lock(s, acquire) => if InPhase(w, s, (p: Phase) => p.Observed?) { LockKeeps(initial, w, s, acquire); }
    case Mutate(s, attempt, release) =>
      if InPhase(w, s, (p: Phase) => p.Locked?) { MutateKeeps(initial, w, s, attempt, release); }
    case Publish(s, write, release) =>
      if InPhase(w, s, (p: Phase) => p.Accepted?) { PublishKeeps(initial, w, s, write, release); }
    case Crash(s) => if s in w.sessions { CrashKeeps(initial, w, s); }
  }

  // --------------------------------------------------------------- whole runs

  lemma {:induction false} RunLinear(initial: Summary, w: World, events: seq<Event>)
    requires Linear(initial, w) && forall e | e in events :: !e.Restore?
    ensures Linear(initial, Run(w, events))
    decreases events
  {
    if events == [] {
    } else {
      var n := |events| - 1;
      assert forall e | e in events[..n] :: e in events;
      RunLinear(initial, w, events[..n]);
      assert events[n] in events;
      StepLinear(initial, Run(w, events[..n]), events[n]);
    }
  }

  /**
   * Every run of any number of sessions, with any store error, hidden effect
   * or crash, equals the sequential replay of its accepted calls: the chain of
   * revisions has no gap, each commit applies exactly its own call to the state
   * left by the previous one, and an edit was computed from the payload it
   * replaced.
   */
  lemma RunsAreSequential(w: World, events: seq<Event>)
    requires Initial(w) && forall e | e in events :: !e.Restore?
    ensures var w' := Run(w, events);
            && w'.store.database.Some?
            && Legal(Summarize(w.store), w'.log)
            && Summarize(w'.store) == Replay(Summarize(w.store), w'.log)
  {
    assert Linear(Summarize(w.store), w);
    RunLinear(Summarize(w.store), w, events);
  }

  /** The store's document matches its summary: unique ids and names, and the same vaults in both. */
  lemma WellFormedIsConsistent(st: Store)
    requires WellFormed(st)
    ensures Consistent(Summarize(st))
  {
    var c, s := st.database.value.catalog, Summarize(st);
    forall e, f | e in s.entries && f in s.entries && e != f ensures e.id != f.id && e.name != f.name {
      var i :| 0 <= i < |c| && c[i] == e;
      var j :| 0 <= j < |c| && c[j] == f;
      assert i < j || j < i;
    }
    forall id ensures id in s.contents <==> exists e :: e in s.entries && e.id == id {
      if InCatalog(c, id) {
        var i :| 0 <= i < |c| && c[i].id == id;
        assert c[i] in s.entries;
      }
      if e :| e in s.entries && e.id == id {
        var i :| 0 <= i < |c| && c[i] == e;
        assert InCatalog(c, id);
      }
    }
  }

  lemma MutatedLog(w: World, s: SessionId, attempt: StoreCall, release: ReadFault)
    requires s in w.sessions && w.sessions[s].phase.Locked?
    ensures w.log <= Mutated(w, s, attempt, release).log
  {}

  lemma PublishedLog(w: World, s: SessionId, write: WriteFault, release: ReadFault)
    requires s in w.sessions && w.sessions[s].phase.Accepted?
    ensures Published(w, s, write, release).log == w.log
  {}

  lemma OpenFinishedLog(w: World, s: SessionId, mode: OpenMode, write: WriteFault)
    requires s in w.sessions && w.sessions[s].phase.Listed?
    ensures OpenFinished(w, s, mode, write).log == w.log
  {}

  lemma LogGrows(w: World, e: Event)
    ensures w.log <= Next(w, e).log
  {
    match e
    case OpenFinish(s, mode, write) => if InPhase(w, s, (p: Phase) => p.Listed?) { OpenFinishedLog(w, s, mode, write); }
    case Mutate(s, attempt, release) =>
      if InPhase(w, s, (p: Phase) => p.Locked?) { MutatedLog(w, s, attempt, release); }
    case Publish(s, write, release) =>
      if InPhase(w, s, (p: Phase) => p.Accepted?) { PublishedLog(w, s, write, release); }
    case _ =>
  }

  lemma PrefixTransitive(a: seq<Commit>, b: seq<Commit>, c: seq<Commit>)
    requires a <= b <= c
    ensures a <= c
  {}

  /** What was committed at one point of a run stays committed, in the same order. */
  lemma {:induction false} HistoryIsNeverRewritten(w: World, events: seq<Event>, i: nat)
    requires i <= |events|
    ensures Run(w, events[..i]).log <= Run(w, events).log
    decreases |events|
  {
    if i == |events| {
      assert events[..i] == events;
    } else {
      var init, last := events[..|events| - 1], events[|events| - 1];
      assert init[..i] == events[..i];
      HistoryIsNeverRewritten(w, init, i);
      LogGrows(Run(w, init), last);
      PrefixTransitive(Run(w, events[..i]).log, Run(w, init).log, Run(w, events).log);
    }
  }

  lemma EventsPrefix(events: seq<Event>, i: nat)
    requires i <= |events| && forall e | e in events :: !e.Restore?
    ensures forall e | e in events[..i] :: !e.Restore?
  {
    assert forall e | e in events[..i] :: e in events;
  }

  /** From any point of a run on, the rest of the history is a legal history of its own. */
  lemma RunGoesOn(w: World, events: seq<Event>, i: nat)
    requires Initial(w) && i <= |events| && forall e | e in events :: !e.Restore?
    ensures var wi, wn := Run(w, events[..i]), Run(w, events);
            && WellFormed(wi.store) && wn.store.database.Some? && wi.log <= wn.log
            && Legal(Summarize(wi.store), wn.log[|wi.log|..])
            && Summarize(wn.store) == Replay(Summarize(wi.store), wn.log[|wi.log|..])
  {
    var initial, wi, wn := Summarize(w.store), Run(w, events[..i]), Run(w, events);
    EventsPrefix(events, i);
    assert Linear(initial, w);
    RunLinear(initial, w, events[..i]);
    RunLinear(initial, w, events);
    HistoryIsNeverRewritten(w, events, i);
    var rest := wn.log[|wi.log|..];
    assert wn.log == wi.log + rest;
    LegalSplit(initial, wi.log, rest);
    ReplaySplit(initial, wi.log, rest);
  }

  /**
   * In every run vault names and ids stay unique and agree with the stored
   * vaults. From any point of the run on, the database revision has grown by
   * the number of catalog changes since, each vault's revision by the number
   * of its edits, and once some recovery slot is active one stays active, even
   * when sessions revoke concurrently.
   */
  lemma RunsStayConsistent(w: World, events: seq<Event>, i: nat)
    requires Initial(w) && i <= |events| && forall e | e in events :: !e.Restore?
    ensures var wi, wn := Run(w, events[..i]), Run(w, events);
            && wi.store.database.Some? && wn.store.database.Some? && wi.log <= wn.log
            && Consistent(Summarize(wn.store))
            && (SlotIds(wi.store.database.value.slots, Active) != {} ==>
                 SlotIds(wn.store.database.value.slots, Active) != {})
            && wn.store.database.value.revision
               == wi.store.database.value.revision + CatalogChanges(wn.log[|wi.log|..])
  {
    RunGoesOn(w, events, i);
    var wi := Run(w, events[..i]);
    WellFormedIsConsistent(wi.store);
    HistoryConsistent(Summarize(wi.store), Run(w, events).log[|wi.log|..]);
  }

  /** From any point of a run on, the revision of a stored vault counts its edits since, or since its creation. */
  lemma RunsCountEdits(w: World, events: seq<Event>, i: nat, id: VaultId)
    requires Initial(w) && i <= |events| && forall e | e in events :: !e.Restore?
    requires id in Run(w, events).store.vaults
    ensures var wi, wn := Run(w, events[..i]), Run(w, events);
            wi.log <= wn.log
            && var since := wn.log[|wi.log|..];
               && (CreatedIn(since, id) || id in wi.store.vaults)
               && wn.store.vaults[id].revision
                  == EditsSince(since, id) + if CreatedIn(since, id) then 0 else wi.store.vaults[id].revision
  {
    RunGoesOn(w, events, i);
    var wi, wn := Run(w, events[..i]), Run(w, events);
    assert id in Summarize(wn.store).contents;
    VaultRevisionsCountEdits(Summarize(wi.store), wn.log[|wi.log|..], id);
  }
}
