/**
 * Runs in which an older store is put back. Every restore starts a branch of
 * the history. While only sessions opened after the last restore commit, the
 * store is the sequential replay of one branch.
 */
module RestoredRuns {
  import opened Wrappers
  import opened DatabaseModel
  import opened Anchors
  import opened AnchoredMutations
  import opened Operations
  import opened Faults
  import opened SharedRuns
  import opened Linearization

  /** Of the sessions opened since the last restore, those after one more step. */
  function LiveAfter(w: World, e: Event, live: set<SessionId>): set<SessionId> {
    match e
    case Restore(k) => if k < |w.past| then {} else live
    case OpenRead(s, _, _) => if s in w.sessions || w.store.database.None? then live else live + {s}
    case _ => live
  }

  /** The sessions opened since the last restore. */
  function Live(w: World, events: seq<Event>): set<SessionId>
    decreases events
  {
    if events == [] then {}
    else
      var init := events[..|events| - 1];
      LiveAfter(Run(w, init), events[|events| - 1], Live(w, init))
  }

  predicate Commits(w: World, e: Event) {
    e.Mutate? && InPhase(w, e.s, (p: Phase) => p.Locked?)
  }

  /** No session commits across a restore. */
  ghost predicate CommitsAreLive(w: World, events: seq<Event>) {
    forall i | 0 <= i < |events| && Commits(Run(w, events[..i]), events[i]) :: events[i].s in Live(w, events[..i])
  }

  /** The world as the live sessions know it: one branch of the history, and the other sessions closed. */
  function Known(w: World, live: set<SessionId>, branch: seq<Commit>): World {
    w.(log := branch,
       sessions := map s | s in w.sessions :: if s in live then w.sessions[s] else w.sessions[s].(phase := Closed))
  }

  /** The history holds these commits, in whatever order. */
  ghost predicate Made(branch: seq<Commit>, log: seq<Commit>) {
    forall c | c in branch :: c in log
  }

  /** The store is the replay of a legal history of calls that were accepted. */
  ghost predicate IsBranch(initial: Summary, st: Store, log: seq<Commit>, branch: seq<Commit>) {
    Made(branch, log) && Legal(initial, branch) && WellFormed(st) && Summarize(st) == Replay(initial, branch)
  }

  ghost predicate Sound(initial: Summary, used: set<string>, log: seq<Commit>, st: Store) {
    && WellFormed(st) && st.vaults.Keys <= used && SlotsDrawn(st.database.value, used)
    && exists branch :: IsBranch(initial, st, log, branch)
  }

  ghost predicate PastIsSound(initial: Summary, used: set<string>, log: seq<Commit>, past: seq<Store>) {
    forall st | st in past :: Sound(initial, used, log, st)
  }

  /** The live sessions and the store are on this branch. */
  ghost predicate OnBranch(initial: Summary, w: World, live: set<SessionId>, branch: seq<Commit>) {
    Made(branch, w.log) && Linear(initial, Known(w, live, branch))
  }

  /** Every state that may be put back lies on a branch, and so does the store for those who know of it. */
  ghost predicate Branching(initial: Summary, w: World, live: set<SessionId>) {
    && live <= w.sessions.Keys
    && (exists branch :: OnBranch(initial, w, live, branch))
    && PastIsSound(initial, w.used, w.log, w.past)
  }

  // ------------------------------------------------------- steps of live sessions

  lemma KnownMoves(w: World, live: set<SessionId>, branch: seq<Commit>, s: SessionId, p: Phase)
    requires s in w.sessions && s in live
    ensures Known(w, live, branch).sessions[s] == w.sessions[s]
    ensures Known(Moved(w, s, p), live, branch) == Moved(Known(w, live, branch), s, p)
  {
    assert Known(Moved(w, s, p), live, branch).sessions == Moved(Known(w, live, branch), s, p).sessions;
  }

  lemma KnownOpens(w: World, live: set<SessionId>, branch: seq<Commit>, s: SessionId, session: Session)
    requires s !in w.sessions && live <= w.sessions.Keys
    ensures var w', k := w.(sessions := w.sessions[s := session]), Known(w, live, branch);
            Known(w', live + {s}, branch) == k.(sessions := k.sessions[s := session])
  {
    var w', k := w.(sessions := w.sessions[s := session]), Known(w, live, branch);
    assert Known(w', live + {s}, branch).sessions == k.sessions[s := session];
  }

  lemma NothingMore(branch: seq<Commit>, log: seq<Commit>)
    ensures branch + log[|log|..] == branch
  {}

  /** What a step added to the history. */
  function Added(w: World, e: Event): seq<Commit>
    requires w.log <= Next(w, e).log
  {
    Next(w, e).log[|w.log|..]
  }

  lemma KnownFinishes(
      w: World, live: set<SessionId>, branch: seq<Commit>, s: SessionId, mode: OpenMode, write: WriteFault)
    requires s in live && s in w.sessions && w.sessions[s].phase.Listed?
    ensures Known(OpenFinished(w, s, mode, write), live, branch) == OpenFinished(Known(w, live, branch), s, mode, write)
  {
    var p, seat := w.sessions[s].phase, w.sessions[s].seat;
    var file := Reconcile(FileOf(w, seat), p.observed, mode).1;
    KnownMoves(w, live, branch, s, Closed);
    KnownMoves(w, live, branch, s, Idle(p.cached));
    KnownMoves(WithAnchor(w, seat, file), live, branch, s, Closed);
    KnownMoves(WithAnchor(w, seat, file), live, branch, s, Idle(p.cached));
  }

  lemma KnownBegins(w: World, live: set<SessionId>, branch: seq<Commit>, s: SessionId, call: Call)
    requires s in live && s in w.sessions && w.sessions[s].phase.Idle?
    ensures Known(Begun(w, s, call), live, branch) == Begun(Known(w, live, branch), s, call)
  {
    var cached, seen := w.sessions[s].phase.cached, Fetched(w.store.vaults, call);
    KnownMoves(w, live, branch, s, Closed);
    if r :| Prepare(cached, seen, call) == Some(r) {
      KnownMoves(w.(used := w.used + Drawn(call)), live, branch, s, Prepared(cached, call, r, seen));
    }
  }

  lemma KnownLocks(w: World, live: set<SessionId>, branch: seq<Commit>, s: SessionId, acquire: ReadFault)
    requires s in live && s in w.sessions && w.sessions[s].phase.Observed?
    ensures Known(LockTaken(w, s, acquire), live, branch) == LockTaken(Known(w, live, branch), s, acquire)
  {
    var p, seat := w.sessions[s].phase, w.sessions[s].seat;
    KnownMoves(w, live, branch, s, Idle(p.cached));
    if FileOf(w, seat).Authentic? {
      KnownMoves(w.(locks := w.locks[seat := s]), live, branch, s,
                 Locked(p.cached, p.call, p.request, p.seen, p.before, FileOf(w, seat).anchor));
    }
  }

  lemma KnownPublishes(
      w: World, live: set<SessionId>, branch: seq<Commit>, s: SessionId, write: WriteFault, release: ReadFault)
    requires s in live && s in w.sessions && w.sessions[s].phase.Accepted?
    ensures Known(Published(w, s, write, release), live, branch) == Published(Known(w, live, branch), s, write, release)
  {
    var p, seat := w.sessions[s].phase, w.sessions[s].seat;
    var w1 := WithAnchor(w, seat, Authentic(AfterAnchor(p.before, p.request)));
    KnownMoves(w, live, branch, s, Closed);
    KnownMoves(w1, live, branch, s, Closed);
    KnownMoves(w1, live, branch, s, Idle(NextCached(p.cached, p.request)));
  }

  lemma KnownCommits(
      w: World, live: set<SessionId>, branch: seq<Commit>, st: Store, call: Call, seen: map<VaultId, Vault>)
    ensures var w', k := Committed(w, st, call, seen), Committed(Known(w, live, branch), st, call, seen);
            && w.log <= w'.log && Known(w', live, branch + w'.log[|w.log|..]) == k
  {}

  /** Where a request that did not reach the store leaves its session. */
  function PhaseRefused(w: World, s: SessionId, attempt: StoreCall, release: ReadFault): Phase
    requires s in w.sessions && w.sessions[s].phase.Locked?
  {
    var answer := Ask(w.store, Submit(w.store, w.sessions[s].phase.request), attempt).0;
    if answer.StoreRefused? && ProvenRejection(answer.code) && release.Readable? then Idle(w.sessions[s].phase.cached)
    else Closed
  }

  predicate NotAccepted(w: World, s: SessionId, attempt: StoreCall)
    requires s in w.sessions && w.sessions[s].phase.Locked?
  {
    attempt.Rejected? || attempt.fault.LostBefore? || Submit(w.store, w.sessions[s].phase.request).Err?
  }

  lemma RefusedUnlocks(w: World, s: SessionId, attempt: StoreCall, release: ReadFault)
    requires s in w.sessions && w.sessions[s].phase.Locked? && NotAccepted(w, s, attempt)
    ensures Mutated(w, s, attempt, release) == Unlocked(Moved(w, s, PhaseRefused(w, s, attempt, release)), s)
  {}

  lemma KnownUnlocks(w: World, live: set<SessionId>, branch: seq<Commit>, s: SessionId, p: Phase)
    requires s in w.sessions && s in live
    ensures Known(Unlocked(Moved(w, s, p), s), live, branch) == Unlocked(Moved(Known(w, live, branch), s, p), s)
  {
    KnownMoves(w, live, branch, s, p);
  }

  lemma KnownRefuses(
      w: World, live: set<SessionId>, branch: seq<Commit>, s: SessionId, attempt: StoreCall, release: ReadFault)
    requires s in live && s in w.sessions && w.sessions[s].phase.Locked? && NotAccepted(w, s, attempt)
    ensures Mutated(w, s, attempt, release).log == w.log
    ensures Known(Mutated(w, s, attempt, release), live, branch) == Mutated(Known(w, live, branch), s, attempt, release)
  {
    var p := PhaseRefused(w, s, attempt, release);
    KnownMoves(w, live, branch, s, p);
    KnownUnlocks(w, live, branch, s, p);
    RefusedUnlocks(w, s, attempt, release);
    RefusedUnlocks(Known(w, live, branch), s, attempt, release);
  }

  lemma KnownAccepts(
      w: World, live: set<SessionId>, branch: seq<Commit>, s: SessionId, attempt: StoreCall, release: ReadFault)
    requires s in live && s in w.sessions && w.sessions[s].phase.Locked?
    requires !NotAccepted(w, s, attempt)
    ensures var w' := Mutated(w, s, attempt, release);
            && w.log <= w'.log
            && Known(w', live, branch + w'.log[|w.log|..]) == Mutated(Known(w, live, branch), s, attempt, release)
  {
    var p := w.sessions[s].phase;
    var st := Submit(w.store, p.request).value;
    var w1 := Committed(w, st, p.call, p.seen);
    KnownCommits(w, live, branch, st, p.call, p.seen);
    KnownMoves(w, live, branch, s, Closed);
    KnownMoves(w1, live, branch + w1.log[|w.log|..], s, Closed);
    KnownMoves(w1, live, branch + w1.log[|w.log|..], s, Accepted(p.cached, p.request, p.before, p.trusted));
  }

  lemma KnownMutates(
      w: World, live: set<SessionId>, branch: seq<Commit>, s: SessionId, attempt: StoreCall, release: ReadFault)
    requires s in live && s in w.sessions && w.sessions[s].phase.Locked?
    ensures var w' := Mutated(w, s, attempt, release);
            && w.log <= w'.log
            && Known(w', live, branch + w'.log[|w.log|..]) == Mutated(Known(w, live, branch), s, attempt, release)
  {
    if NotAccepted(w, s, attempt) {
      KnownRefuses(w, live, branch, s, attempt, release);
      NothingMore(branch, w.log);
    } else {
      KnownAccepts(w, live, branch, s, attempt, release);
    }
  }

  /** A step of a live session, or the opening of one. */
  predicate StepsLive(w: World, e: Event, live: set<SessionId>) {
    !e.Restore? && (e.s in live || (e.OpenRead? && e.s !in w.sessions))
  }

  lemma KnownLists(w: World, live: set<SessionId>, branch: seq<Commit>, s: SessionId)
    requires s in live && s in w.sessions && w.sessions[s].phase.Opening?
    ensures Known(SharedRuns.Listing(w, s), live, branch) == SharedRuns.Listing(Known(w, live, branch), s)
  {
    var p := w.sessions[s].phase;
    KnownMoves(w, live, branch, s, Closed);
    KnownMoves(w, live, branch, s, Listed(p.cached, AnchorOf(p.cached, w.store.vaults)));
  }

  lemma KnownObserves(w: World, live: set<SessionId>, branch: seq<Commit>, s: SessionId)
    requires s in live && s in w.sessions && w.sessions[s].phase.Prepared?
    ensures Known(ObservedBefore(w, s), live, branch) == ObservedBefore(Known(w, live, branch), s)
  {
    var p := w.sessions[s].phase;
    KnownMoves(w, live, branch, s, Observed(p.cached, p.call, p.request, p.seen, AnchorOf(p.cached, w.store.vaults)));
  }

  /** A step that cannot commit. */
  lemma QuietStep(w: World, e: Event, live: set<SessionId>, branch: seq<Commit>)
    requires !e.Restore? && !e.Mutate? && !e.OpenRead? && e.s in live && e.s in w.sessions
    ensures Known(Next(w, e), live, branch) == Next(Known(w, live, branch), e)
  {
    match e
    case OpenList(s) => if InPhase(w, s, (p: Phase) => p.Opening?) { KnownLists(w, live, branch, s); }
    case OpenFinish(s, mode, write) =>
      if InPhase(w, s, (p: Phase) => p.Listed?) { KnownFinishes(w, live, branch, s, mode, write); }
    case Begin(s, call) => if InPhase(w, s, (p: Phase) => p.Idle?) { KnownBegins(w, live, branch, s, call); }
    case Observe(s) => if InPhase(w, s, (p: Phase) => p.Prepared?) { KnownObserves(w, live, branch, s); }
    case Lock(s, acquire) => if InPhase(w, s, (p: Phase) => p.Observed?) { KnownLocks(w, live, branch, s, acquire); }
    case Publish(s, write, release) =>
      if InPhase(w, s, (p: Phase) => p.Accepted?) { KnownPublishes(w, live, branch, s, write, release); }
    case Crash(s) => KnownUnlocks(w, live, branch, s, Closed);
  }

  /** Whoever is live steps in the known world as in the real one. */
  lemma LiveStep(w: World, e: Event, live: set<SessionId>, branch: seq<Commit>)
    requires live <= w.sessions.Keys && StepsLive(w, e, live)
    ensures w.log <= Next(w, e).log
    ensures Known(Next(w, e), LiveAfter(w, e, live), branch + Added(w, e)) == Next(Known(w, live, branch), e)
  {
    LogGrows(w, e);
    if Commits(w, e) {
      KnownMutates(w, live, branch, e.s, e.attempt, e.release);
    } else {
      NothingMore(branch, w.log);
      if e.s in w.sessions { StepAside(w, e); }
      match e
      case OpenRead(s, seat, recovering) =>
        if s !in w.sessions && w.store.database.Some? {
          KnownOpens(w, live, branch, s, Session(seat, recovering, Opening(w.store.database.value)));
        }
      case Mutate(_, _, _) =>
      case _ => QuietStep(w, e, live, branch);
    }
  }

  // --------------------------------------------------- steps of the other sessions

  /** A step that changed nothing but its own session, locks, anchors and drawn identifiers. */
  ghost predicate Aside(w: World, w': World, s: SessionId)
    requires s in w.sessions
  {
    && w'.store == w.store && w'.past == w.past && w'.log == w.log && w.used <= w'.used
    && s in w'.sessions && w'.sessions[s].seat == w.sessions[s].seat
         && w'.sessions[s].recovering == w.sessions[s].recovering
    && w'.sessions == w.sessions[s := w'.sessions[s]]
  }

  lemma ListingAside(w: World, s: SessionId)
    requires s in w.sessions && w.sessions[s].phase.Opening?
    ensures Aside(w, SharedRuns.Listing(w, s), s)
  {}

  lemma OpenFinishAside(w: World, s: SessionId, mode: OpenMode, write: WriteFault)
    requires s in w.sessions && w.sessions[s].phase.Listed?
    ensures Aside(w, OpenFinished(w, s, mode, write), s)
  {}

  lemma BeginAside(w: World, s: SessionId, call: Call)
    requires s in w.sessions && w.sessions[s].phase.Idle?
    ensures Aside(w, Begun(w, s, call), s)
  {
    assert w.sessions[s := w.sessions[s]] == w.sessions;
  }

  lemma LockAside(w: World, s: SessionId, acquire: ReadFault)
    requires s in w.sessions && w.sessions[s].phase.Observed?
    ensures Aside(w, LockTaken(w, s, acquire), s)
  {}

  lemma PublishAside(w: World, s: SessionId, write: WriteFault, release: ReadFault)
    requires s in w.sessions && w.sessions[s].phase.Accepted?
    ensures Aside(w, Published(w, s, write, release), s)
  {}

  lemma StepAside(w: World, e: Event)
    requires !e.Restore? && e.s in w.sessions && !Commits(w, e)
    ensures Aside(w, Next(w, e), e.s)
  {
    assert w.sessions[e.s := w.sessions[e.s]] == w.sessions;
    match e
    case OpenRead(_, _, _) =>
    case OpenList(s) => if InPhase(w, s, (p: Phase) => p.Opening?) { ListingAside(w, s); }
    case OpenFinish(s, mode, write) => if InPhase(w, s, (p: Phase) => p.Listed?) { OpenFinishAside(w, s, mode, write); }
    case Begin(s, call) => if InPhase(w, s, (p: Phase) => p.Idle?) { BeginAside(w, s, call); }
    case Observe(_) =>
    case Lock(s, acquire) => if InPhase(w, s, (p: Phase) => p.Observed?) { LockAside(w, s, acquire); }
    case Mutate(_, _, _) =>
    case Publish(s, write, release) =>
      if InPhase(w, s, (p: Phase) => p.Accepted?) { PublishAside(w, s, write, release); }
    case Crash(_) =>
  }

  /** Such a step of a session that is not live keeps what the others know. */
  lemma AsideKeeps(initial: Summary, w: World, w': World, live: set<SessionId>, branch: seq<Commit>, s: SessionId)
    requires s in w.sessions && s !in live && Aside(w, w', s) && Linear(initial, Known(w, live, branch))
    ensures Linear(initial, Known(w', live, branch))
  {
    var k, k' := Known(w, live, branch), Known(w', live, branch);
    assert k'.sessions == k.sessions;
    DrawKeeps(initial, k, w'.used);
    assert SessionsOk(k.(used := w'.used));
    assert SessionsOk(k');
  }

  // ------------------------------------------------------------------ every step

  lemma Grows(w: World, e: Event)
    ensures w.used <= Next(w, e).used
    ensures Next(w, e).past == w.past || Next(w, e).past == w.past + [Next(w, e).store]
  {
    if !e.Restore? && e.s in w.sessions && !Commits(w, e) { StepAside(w, e); }
  }

  lemma StaysSound(
      initial: Summary, used: set<string>, log: seq<Commit>, used': set<string>, log': seq<Commit>, st: Store)
    requires Sound(initial, used, log, st) && used <= used' && log <= log'
    ensures Sound(initial, used', log', st)
  {
    var branch :| IsBranch(initial, st, log, branch);
    assert forall c | c in log :: c in log';
    assert IsBranch(initial, st, log', branch);
  }

  lemma LinearIsSound(initial: Summary, w: World, live: set<SessionId>, branch: seq<Commit>)
    requires OnBranch(initial, w, live, branch)
    ensures Sound(initial, w.used, w.log, w.store)
  {
    assert IsBranch(initial, w.store, w.log, branch);
  }

  lemma AllClosed(w: World)
    requires w.store.database.Some? && forall s | s in w.sessions :: w.sessions[s].phase == Closed
    ensures SessionsOk(w)
  {}

  lemma PutBack(w: World, k: nat)
    requires k < |w.past|
    ensures Next(w, Restore(k)) == w.(store := w.past[k])
  {}

  lemma RestoredIsOnBranch(initial: Summary, w: World, k: nat, branch: seq<Commit>)
    requires k < |w.past| && Sound(initial, w.used, w.log, w.past[k]) && IsBranch(initial, w.past[k], w.log, branch)
    ensures OnBranch(initial, w.(store := w.past[k]), {}, branch)
  {
    AllClosed(Known(w.(store := w.past[k]), {}, branch));
  }

  /** A restore starts a branch that nobody knows yet. */
  lemma RestoreBranches(initial: Summary, w: World, k: nat, live: set<SessionId>)
    requires Branching(initial, w, live) && k < |w.past|
    ensures Branching(initial, Next(w, Restore(k)), {})
  {
    assert Sound(initial, w.used, w.log, w.past[k]);
    var branch :| IsBranch(initial, w.past[k], w.log, branch);
    RestoredIsOnBranch(initial, w, k, branch);
    PutBack(w, k);
  }

  lemma MadeGrows(branch: seq<Commit>, log: seq<Commit>, log': seq<Commit>)
    requires Made(branch, log) && log <= log'
    ensures Made(branch, log') && Made(branch + log'[|log|..], log')
  {
    assert forall c | c in log :: c in log';
    assert forall c | c in log'[|log|..] :: c in log';
  }

  lemma LiveStays(w: World, e: Event, live: set<SessionId>)
    requires live <= w.sessions.Keys && !e.Restore?
    ensures LiveAfter(w, e, live) <= Next(w, e).sessions.Keys
  {
    if e.s in w.sessions {
      if Commits(w, e) { CommitKeepsKeys(w, e); } else { StepAside(w, e); }
    }
  }

  lemma CommitKeepsKeys(w: World, e: Event)
    requires Commits(w, e)
    ensures Next(w, e).sessions.Keys == w.sessions.Keys
  {
    var p := Mutated(w, e.s, e.attempt, e.release).sessions[e.s].phase;
    assert Next(w, e).sessions == Moved(w, e.s, p).sessions;
  }

  lemma KnownLiveStep(initial: Summary, w: World, e: Event, live: set<SessionId>, branch: seq<Commit>)
    requires live <= w.sessions.Keys && StepsLive(w, e, live) && Linear(initial, Known(w, live, branch))
    ensures w.log <= Next(w, e).log
    ensures Linear(initial, Known(Next(w, e), LiveAfter(w, e, live), branch + Added(w, e)))
  {
    LiveStep(w, e, live, branch);
    StepLinear(initial, Known(w, live, branch), e);
  }

  lemma KnownAsideStep(initial: Summary, w: World, e: Event, live: set<SessionId>, branch: seq<Commit>)
    requires !e.Restore? && !Commits(w, e) && e.s !in live && e.s in w.sessions
             && Linear(initial, Known(w, live, branch))
    ensures Linear(initial, Known(Next(w, e), live, branch))
  {
    StepAside(w, e);
    AsideKeeps(initial, w, Next(w, e), live, branch, e.s);
  }

  lemma KnownStep(initial: Summary, w: World, e: Event, live: set<SessionId>, branch: seq<Commit>)
    returns (branch': seq<Commit>)
    requires live <= w.sessions.Keys && OnBranch(initial, w, live, branch)
    requires !e.Restore? && (Commits(w, e) ==> e.s in live)
    ensures w.log <= Next(w, e).log && OnBranch(initial, Next(w, e), LiveAfter(w, e, live), branch')
  {
    LogGrows(w, e);
    MadeGrows(branch, w.log, Next(w, e).log);
    if StepsLive(w, e, live) {
      branch' := branch + Added(w, e);
      KnownLiveStep(initial, w, e, live, branch);
    } else {
      branch' := branch;
      if e.s in w.sessions { KnownAsideStep(initial, w, e, live, branch); }
    }
  }

  lemma PastStep(initial: Summary, w: World, w': World)
    requires PastIsSound(initial, w.used, w.log, w.past) && w.used <= w'.used && w.log <= w'.log
    requires w'.past == w.past || w'.past == w.past + [w'.store]
    requires Sound(initial, w'.used, w'.log, w'.store)
    ensures PastIsSound(initial, w'.used, w'.log, w'.past)
  {
    forall st | st in w'.past ensures Sound(initial, w'.used, w'.log, st) {
      if st in w.past { StaysSound(initial, w.used, w.log, w'.used, w'.log, st); }
    }
  }

  lemma StepBranches(initial: Summary, w: World, e: Event, live: set<SessionId>)
    requires Branching(initial, w, live) && (Commits(w, e) ==> e.s in live)
    ensures Branching(initial, Next(w, e), LiveAfter(w, e, live))
  {
    if e.Restore? {
      if e.k < |w.past| { RestoreBranches(initial, w, e.k, live); }
    } else {
      var w', live' := Next(w, e), LiveAfter(w, e, live);
      var branch :| OnBranch(initial, w, live, branch);
      var branch' := KnownStep(initial, w, e, live, branch);
      LiveStays(w, e, live);
      Grows(w, e);
      LinearIsSound(initial, w', live', branch');
      PastStep(initial, w, w');
    }
  }

  lemma {:induction false} RunBranches(w: World, events: seq<Event>)
    requires Initial(w) && CommitsAreLive(w, events)
    ensures Branching(Summarize(w.store), Run(w, events), Live(w, events))
    decreases |events|
  {
    if events == [] {
      assert OnBranch(Summarize(w.store), w, {}, []);
      assert IsBranch(Summarize(w.store), w.store, w.log, []);
    } else {
      var n := |events| - 1;
      var init := events[..n];
      assert forall i | 0 <= i <= n :: init[..i] == events[..i];
      RunBranches(w, init);
      StepBranches(Summarize(w.store), Run(w, init), events[n], Live(w, init));
    }
  }

  /**
   * Whatever is put back and how often: while no session commits across a
   * restore, catalog and vaults agree, and the store is the replay of a legal
   * history made of accepted calls.
   */
  lemma RestoredRunsBranch(w: World, events: seq<Event>)
    requires Initial(w) && CommitsAreLive(w, events)
    ensures var w' := Run(w, events);
            && WellFormed(w'.store) && Consistent(Summarize(w'.store))
            && exists branch :: IsBranch(Summarize(w.store), w'.store, w'.log, branch)
  {
    RunBranches(w, events);
    var w', live := Run(w, events), Live(w, events);
    var branch :| OnBranch(Summarize(w.store), w', live, branch);
    LinearIsSound(Summarize(w.store), w', live, branch);
    WellFormedIsConsistent(w'.store);
  }
}
