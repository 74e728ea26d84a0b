/**
 * Any number of sessions on one store, each running one operation at a time,
 * as a step machine. A step is one observable action of one session (a read, a
 * lock, a compare-and-swap, an anchor write), a crash, or the environment
 * putting back an older committed state of the store. Every store and file
 * error is an event of its own, including errors that hide a real effect.
 *
 * A seat is one anchor file. Sessions that share a key file share a seat.
 */
module SharedRuns {
  import opened Wrappers
  import opened DatabaseModel
  import opened Anchors
  import opened AnchoredMutations
  import opened Operations
  import opened Faults

  type SeatId = nat
  type SessionId = nat

  datatype Phase =
    | Opening(cached: Database)
    | Listed(cached: Database, observed: Anchor)
    | Idle(cached: Database)
    | Prepared(cached: Database, call: Call, request: Request, seen: map<VaultId, Vault>)
    | Observed(cached: Database, call: Call, request: Request, seen: map<VaultId, Vault>, before: Anchor)
    | Locked(cached: Database, call: Call, request: Request, seen: map<VaultId, Vault>, before: Anchor, trusted: Anchor)
    | Accepted(cached: Database, request: Request, before: Anchor, trusted: Anchor)
    | Closed

  /** A recovering session opened with a recovery kit; all it may do is replace the owner. */
  datatype Session = Session(seat: SeatId, recovering: bool, phase: Phase)

  datatype World = World(
    store: Store,
    anchors: map<SeatId, AnchorFile>,
    locks: map<SeatId, SessionId>,
    sessions: map<SessionId, Session>,
    used: set<string>,      // every identifier ever drawn
    past: seq<Store>,       // committed states the environment may put back
    log: seq<Commit>)       // accepted calls, in order

  datatype Event =
    | OpenRead(s: SessionId, seat: SeatId, recovering: bool)
    | OpenList(s: SessionId)
    | OpenFinish(s: SessionId, mode: OpenMode, write: WriteFault)
    | Begin(s: SessionId, call: Call)
    | Observe(s: SessionId)
    | Lock(s: SessionId, acquire: ReadFault)
    | Mutate(s: SessionId, attempt: StoreCall, release: ReadFault)
    | Publish(s: SessionId, write: WriteFault, release: ReadFault)
    | Crash(s: SessionId)
    | Restore(k: nat)

  // ------------------------------------------------------------------- machine

  function FileOf(w: World, seat: SeatId): AnchorFile {
    if seat in w.anchors then w.anchors[seat] else Missing
  }

  function Moved(w: World, s: SessionId, p: Phase): World
    requires s in w.sessions
  {
    w.(sessions := w.sessions[s := w.sessions[s].(phase := p)])
  }

  /** Leaving the anchor's lock, if this session holds it. */
  function Unlocked(w: World, s: SessionId): World
    requires s in w.sessions
  {
    var seat := w.sessions[s].seat;
    if seat in w.locks && w.locks[seat] == s then w.(locks := w.locks - {seat}) else w
  }

  function WithAnchor(w: World, seat: SeatId, file: AnchorFile): World {
    w.(anchors := w.anchors[seat := file])
  }

  predicate CatalogMatches(d: Database, vaults: map<VaultId, Vault>) {
    && (forall i | 0 <= i < |d.catalog| :: d.catalog[i].id in vaults)
    && (forall id | id in vaults :: InCatalog(d.catalog, id))
  }

  /** The one vault document a call reads before it is prepared. */
  function Fetched(vaults: map<VaultId, Vault>, call: Call): map<VaultId, Vault> {
    if (call.Edit? || call.Remove?) && call.id in vaults then map[call.id := vaults[call.id]] else map[]
  }

  /** Identifiers drawn at random by a call, never drawn before. */
  function Drawn(call: Call): set<string> {
    match call
    case Create(id, _, _) => {id}
    case AddRecovery(slot) => {slot}
    case ReplaceOwner(_, owner) => {owner}
    case _ => {}
  }

  function NextCached(cached: Database, r: Request): Database {
    if r.UpdateVault? then cached else r.next
  }

  function Committed(w: World, st: Store, call: Call, seen: map<VaultId, Vault>): World {
    var read := if call.Edit? && call.id in seen then seen[call.id].payload else "";
    w.(store := st, past := w.past + [st], log := w.log + [Commit(call, read)])
  }

  function OpenFinished(w: World, s: SessionId, mode: OpenMode, write: WriteFault): World
    requires s in w.sessions && w.sessions[s].phase.Listed?
  {
    var seat, p := w.sessions[s].seat, w.sessions[s].phase;
    var file := FileOf(w, seat);
    var (ok, file') := Reconcile(file, p.observed, mode);
    if !ok then Moved(w, s, Closed)
    else if file' == file then Moved(w, s, Idle(p.cached))
    else if seat in w.locks || write.NotWritten? then Moved(w, s, Closed)
    else Moved(WithAnchor(w, seat, file'), s, if write.Written? then Idle(p.cached) else Closed)
  }

  function LockTaken(w: World, s: SessionId, acquire: ReadFault): World
    requires s in w.sessions && w.sessions[s].phase.Observed?
  {
    var seat, p := w.sessions[s].seat, w.sessions[s].phase;
    var file := FileOf(w, seat);
    if seat in w.locks || !Entered(file, p.before, acquire) then Moved(w, s, Idle(p.cached))
    else
      Moved(w.(locks := w.locks[seat := s]), s,
            Locked(p.cached, p.call, p.request, p.seen, p.before, file.anchor))
  }

  function Mutated(w: World, s: SessionId, call: StoreCall, release: ReadFault): World
    requires s in w.sessions && w.sessions[s].phase.Locked?
  {
    var p := w.sessions[s].phase;
    var (answer, st) := Ask(w.store, Submit(w.store, p.request), call);
    match answer
    case StoreRefused(code) =>
      Unlocked(Moved(w, s, if ProvenRejection(code) && release.Readable? then Idle(p.cached) else Closed), s)
    case NoAnswer =>
      var hidden := call.fault.LostAfter? && Submit(w.store, p.request).Ok?;
      Unlocked(Moved(if hidden then Committed(w, st, p.call, p.seen) else w, s, Closed), s)
    case StoreAccepted => Moved(Committed(w, st, p.call, p.seen), s, Accepted(p.cached, p.request, p.before, p.trusted))
  }

  function Published(w: World, s: SessionId, write: WriteFault, release: ReadFault): World
    requires s in w.sessions && w.sessions[s].phase.Accepted?
  {
    var seat, p := w.sessions[s].seat, w.sessions[s].phase;
    var after := AfterAnchor(p.before, p.request);
    if !Permits(p.trusted, p.before, after) || write.NotWritten? then Unlocked(Moved(w, s, Closed), s)
    else
      var p' := if write.Written? && release.Readable? then Idle(NextCached(p.cached, p.request)) else Closed;
      Unlocked(Moved(WithAnchor(w, seat, Authentic(after)), s, p'), s)
  }

  function Listing(w: World, s: SessionId): World
    requires s in w.sessions && w.sessions[s].phase.Opening?
  {
    var p := w.sessions[s].phase;
    if CatalogMatches(p.cached, w.store.vaults)
    then Moved(w, s, Listed(p.cached, AnchorOf(p.cached, w.store.vaults)))
    else Moved(w, s, Closed)
  }

  function Begun(w: World, s: SessionId, call: Call): World
    requires s in w.sessions && w.sessions[s].phase.Idle?
  {
    var cached, seen := w.sessions[s].phase.cached, Fetched(w.store.vaults, call);
    var prepared := Prepare(cached, seen, call);
    if (call.ReplaceOwner? <==> !w.sessions[s].recovering) || Drawn(call) * w.used != {} || prepared.None? then w
    else Moved(w.(used := w.used + Drawn(call)), s, Prepared(cached, call, prepared.value, seen))
  }

  function ObservedBefore(w: World, s: SessionId): World
    requires s in w.sessions && w.sessions[s].phase.Prepared?
  {
    var p := w.sessions[s].phase;
    Moved(w, s, Observed(p.cached, p.call, p.request, p.seen, AnchorOf(p.cached, w.store.vaults)))
  }

  predicate InPhase(w: World, s: SessionId, test: Phase -> bool) {
    s in w.sessions && test(w.sessions[s].phase)
  }

  /** One step; an event that is not enabled changes nothing. */
  function Next(w: World, e: Event): World {
    match e
    case OpenRead(s, seat, recovering) =>
      if s in w.sessions || w.store.database.None? then w
      else w.(sessions := w.sessions[s := Session(seat, recovering, Opening(w.store.database.value))])
    case OpenList(s) => if InPhase(w, s, (p: Phase) => p.Opening?) then Listing(w, s) else w
    case OpenFinish(s, mode, write) =>
      if InPhase(w, s, (p: Phase) => p.Listed?) && (mode.Recovery? <==> w.sessions[s].recovering)
          then OpenFinished(w, s, mode, write)
      else w
    case Begin(s, call) => if InPhase(w, s, (p: Phase) => p.Idle?) then Begun(w, s, call) else w
    case Observe(s) => if InPhase(w, s, (p: Phase) => p.Prepared?) then ObservedBefore(w, s) else w
    case Lock(s, acquire) => if InPhase(w, s, (p: Phase) => p.Observed?) then LockTaken(w, s, acquire) else w
    case Mutate(s, call, release) => if InPhase(w, s, (p: Phase) => p.Locked?) then Mutated(w, s, call, release) else w
    case Publish(s, write, release) =>
      if InPhase(w, s, (p: Phase) => p.Accepted?) then Published(w, s, write, release) else w
    case Crash(s) => if s in w.sessions then Unlocked(Moved(w, s, Closed), s) else w
    case Restore(k) => if k < |w.past| then w.(store := w.past[k]) else w
  }

  /** A session goes on only if the stored vaults are exactly those of the document it read. */
  lemma ListingIff(w: World, s: SessionId)
    requires s in w.sessions && w.sessions[s].phase.Opening?
    ensures var d, r := w.sessions[s].phase.cached, Next(w, OpenList(s));
            && r == w.(sessions := r.sessions) && r.sessions.Keys == w.sessions.Keys
            && r.sessions[s].phase
               == if (set e | e in d.catalog :: e.id) == w.store.vaults.Keys then Listed(d, AnchorOf(d, w.store.vaults))
                  else Closed
  {
    var d, ids := w.sessions[s].phase.cached, set e | e in w.sessions[s].phase.cached.catalog :: e.id;
    forall id ensures id in ids <==> InCatalog(d.catalog, id) {
      if InCatalog(d.catalog, id) {
        var i :| 0 <= i < |d.catalog| && d.catalog[i].id == id;
        assert d.catalog[i] in d.catalog;
      }
    }
    assert forall i | 0 <= i < |d.catalog| :: d.catalog[i] in d.catalog && d.catalog[i].id in ids;
  }

  /**
   * An open ends usable exactly when the anchor accepts, and nothing has to be
   * written or it is written while nobody holds the lock.
   */
  lemma OpenFinishIff(w: World, s: SessionId, mode: OpenMode, write: WriteFault)
    requires s in w.sessions && w.sessions[s].phase.Listed? && (mode.Recovery? <==> w.sessions[s].recovering)
    ensures var seat, file := w.sessions[s].seat, FileOf(w, w.sessions[s].seat);
            var (ok, file') := Reconcile(file, w.sessions[s].phase.observed, mode);
            var r, unlocked := Next(w, OpenFinish(s, mode, write)), seat !in w.locks;
            && r.store == w.store && r.locks == w.locks && r.log == w.log
            && (r.sessions[s].phase == Idle(w.sessions[s].phase.cached)
                <==> ok && (file' == file || (unlocked && write.Written?)))
            && FileOf(r, seat) == (if ok && unlocked && !write.NotWritten? then file' else file)
  {}

  /** A crash closes the session, frees its lock and leaves everything else. */
  lemma CrashFreesLock(w: World, s: SessionId)
    requires s in w.sessions
    ensures var r, seat := Next(w, Crash(s)), w.sessions[s].seat;
            && r.sessions == w.sessions[s := w.sessions[s].(phase := Closed)]
            && r.locks == (if seat in w.locks && w.locks[seat] == s then w.locks - {seat} else w.locks)
            && r.store == w.store && r.anchors == w.anchors && r.log == w.log
  {}

  function Run(w: World, events: seq<Event>): World
    decreases events
  {
    if events == [] then w else Next(Run(w, events[..|events| - 1]), events[|events| - 1])
  }

  lemma {:induction false} RunAppend(w: World, a: seq<Event>, b: seq<Event>)
    ensures Run(w, a + b) == Run(Run(w, a), b)
    decreases |b|
  {
    if b == [] {
      assert a + b == a;
    } else {
      assert (a + b)[..|a + b| - 1] == a + b[..|b| - 1];
      RunAppend(w, a, b[..|b| - 1]);
    }
  }

  lemma RunOne(w: World, e: Event)
    ensures Run(w, [e]) == Next(w, e)
  {
    assert [e][..0] == [];
  }

  lemma RunFirst(w: World, e: Event, rest: seq<Event>)
    ensures Run(w, [e] + rest) == Run(Next(w, e), rest)
  {
    RunAppend(w, [e], rest);
    RunOne(w, e);
  }

  ghost predicate Initial(w: World) {
    && WellFormed(w.store)
    && w.locks == map[] && w.sessions == map[] && w.log == [] && w.past == [w.store]
    && w.store.vaults.Keys <= w.used
    && (forall s | s in w.store.database.value.slots :: s.id in w.used)
  }

  // --------------------------------------------------------- anchor protection

  predicate Holding(p: Phase) {
    p.Locked? || p.Accepted?
  }

  /**
   * A session past its anchor check holds its seat's lock, and the seat's file
   * still is the anchor that the session checked its observation against.
   */
  ghost predicate Guarded(w: World) {
    && (forall s | s in w.sessions && Holding(w.sessions[s].phase) ::
          var seat := w.sessions[s].seat;
          && seat in w.locks && w.locks[seat] == s
          && FileOf(w, seat) == Authentic(w.sessions[s].phase.trusted))
    && (forall seat | seat in w.locks ::
          && w.locks[seat] in w.sessions
          && w.sessions[w.locks[seat]].seat == seat
          && Holding(w.sessions[w.locks[seat]].phase))
  }

  /** The event re-anchors this seat to whatever the store now holds. */
  predicate Reanchors(w: World, e: Event, seat: SeatId) {
    e.OpenFinish? && e.mode.AcceptCurrent? && e.s in w.sessions && w.sessions[e.s].seat == seat
  }

  /** A file that was authentic stays authentic, and its new anchor is acceptable against the old one. */
  predicate FileVerifies(f: AnchorFile, g: AnchorFile) {
    f.Authentic? ==> g.Authentic? && Verify(f.anchor, g.anchor, false)
  }

  /** The same, over any distance: the part of acceptance that composes. */
  predicate FileAdvances(f: AnchorFile, g: AnchorFile) {
    f.Authentic? ==> g.Authentic? && Advances(f.anchor, g.anchor)
  }

  predicate SameFile(a: map<SeatId, AnchorFile>, b: map<SeatId, AnchorFile>, seat: SeatId) {
    (seat in a <==> seat in b) && (seat in a ==> a[seat] == b[seat])
  }

  /** A session that holds no lock moves on, perhaps rewriting an anchor nobody has locked. */
  lemma QuietGuards(w: World, s: SessionId, p: Phase, anchors: map<SeatId, AnchorFile>)
    requires Guarded(w) && s in w.sessions && !Holding(w.sessions[s].phase) && !Holding(p)
    requires forall seat | seat in w.locks :: SameFile(anchors, w.anchors, seat)
    ensures Guarded(Moved(w.(anchors := anchors), s, p))
  {}

  /** The lock holder leaves, perhaps rewriting its own anchor. */
  lemma ReleaseGuards(w: World, s: SessionId, p: Phase, anchors: map<SeatId, AnchorFile>)
    requires Guarded(w) && s in w.sessions && Holding(w.sessions[s].phase) && !Holding(p)
    requires forall seat | seat in w.locks && seat != w.sessions[s].seat ::
               SameFile(anchors, w.anchors, seat)
    ensures Guarded(Unlocked(Moved(w.(anchors := anchors), s, p), s))
  {
    var w' := Unlocked(Moved(w.(anchors := anchors), s, p), s);
    assert w'.locks == w.locks - {w.sessions[s].seat};
    forall t | t in w'.sessions && Holding(w'.sessions[t].phase)
      ensures w'.sessions[t].seat in w'.locks && w'.locks[w'.sessions[t].seat] == t
      ensures FileOf(w', w'.sessions[t].seat) == Authentic(w'.sessions[t].phase.trusted)
    {
      assert w.sessions[t].seat in w.locks && w.locks[w.sessions[t].seat] == t;
    }
  }

  lemma OpenFinishGuards(w: World, s: SessionId, mode: OpenMode, write: WriteFault)
    requires Guarded(w) && s in w.sessions && w.sessions[s].phase.Listed?
    ensures Guarded(OpenFinished(w, s, mode, write))
  {
    var own, p := w.sessions[s].seat, w.sessions[s].phase;
    var file' := Reconcile(FileOf(w, own), p.observed, mode).1;
    QuietGuards(w, s, Closed, w.anchors);
    QuietGuards(w, s, Idle(p.cached), w.anchors);
    if own !in w.locks {
      QuietGuards(w, s, Closed, w.anchors[own := file']);
      QuietGuards(w, s, Idle(p.cached), w.anchors[own := file']);
    }
  }

  lemma OpenFinishVerifies(w: World, s: SessionId, mode: OpenMode, write: WriteFault, seat: SeatId)
    requires s in w.sessions && w.sessions[s].phase.Listed?
    requires !(mode.AcceptCurrent? && w.sessions[s].seat == seat)
    ensures FileVerifies(FileOf(w, seat), FileOf(OpenFinished(w, s, mode, write), seat))
  {
    if FileOf(w, seat).Authentic? { VerifyReflexive(FileOf(w, seat).anchor); }
  }

  lemma LockGuards(w: World, s: SessionId, acquire: ReadFault)
    requires Guarded(w) && s in w.sessions && w.sessions[s].phase.Observed?
    ensures Guarded(LockTaken(w, s, acquire))
  {}

  /** The lock holder's request is accepted; it goes on holding the lock. */
  lemma CommitGuards(w: World, s: SessionId, st: Store, p: Phase)
    requires Guarded(w) && s in w.sessions && w.sessions[s].phase.Locked? && p.Accepted?
             && p.trusted == w.sessions[s].phase.trusted
    ensures var q := w.sessions[s].phase;
            Guarded(Committed(w, st, q.call, q.seen)) && Guarded(Moved(Committed(w, st, q.call, q.seen), s, p))
  {}

  lemma MutateGuards(w: World, s: SessionId, attempt: StoreCall, release: ReadFault)
    requires Guarded(w) && s in w.sessions && w.sessions[s].phase.Locked?
    ensures Guarded(Mutated(w, s, attempt, release))
    ensures Mutated(w, s, attempt, release).anchors == w.anchors
  {
    var p := w.sessions[s].phase;
    var (answer, st) := Ask(w.store, Submit(w.store, p.request), attempt);
    CommitGuards(w, s, st, Accepted(p.cached, p.request, p.before, p.trusted));
    if !answer.StoreAccepted? {
      ReleaseGuards(w, s, Idle(p.cached), w.anchors);
      ReleaseGuards(w, s, Closed, w.anchors);
      ReleaseGuards(Committed(w, st, p.call, p.seen), s, Closed, w.anchors);
    }
  }

  lemma PublishGuards(w: World, s: SessionId, write: WriteFault, release: ReadFault)
    requires Guarded(w) && s in w.sessions && w.sessions[s].phase.Accepted?
    ensures Guarded(Published(w, s, write, release))
  {
    var own, p := w.sessions[s].seat, w.sessions[s].phase;
    var after := AfterAnchor(p.before, p.request);
    ReleaseGuards(w, s, Closed, w.anchors);
    ReleaseGuards(w, s, Closed, w.anchors[own := Authentic(after)]);
    ReleaseGuards(w, s, Idle(NextCached(p.cached, p.request)), w.anchors[own := Authentic(after)]);
  }

  lemma PublishVerifies(w: World, s: SessionId, write: WriteFault, release: ReadFault, seat: SeatId)
    requires Guarded(w) && s in w.sessions && w.sessions[s].phase.Accepted?
    ensures FileVerifies(FileOf(w, seat), FileOf(Published(w, s, write, release), seat))
  {
    if FileOf(w, seat).Authentic? { VerifyReflexive(FileOf(w, seat).anchor); }
  }

  lemma CrashGuards(w: World, s: SessionId)
    requires Guarded(w) && s in w.sessions
    ensures Guarded(Unlocked(Moved(w, s, Closed), s))
  {
    if Holding(w.sessions[s].phase) {
      ReleaseGuards(w, s, Closed, w.anchors);
    } else {
      QuietGuards(w, s, Closed, w.anchors);
    }
  }

  /** One session reads and moves on to a phase without a lock. */
  lemma ReadGuards(w: World, s: SessionId, p: Phase, w': World)
    requires Guarded(w) && s in w.sessions && !Holding(w.sessions[s].phase) && !Holding(p)
    requires w'.anchors == w.anchors && w'.locks == w.locks
             && w'.sessions == w.sessions[s := w.sessions[s].(phase := p)]
    ensures Guarded(w')
  {
    QuietGuards(w, s, p, w.anchors);
    assert Guarded(Moved(w, s, p));
    assert forall t | t in w'.sessions :: w'.sessions[t] == Moved(w, s, p).sessions[t];
  }

  lemma OpenReadGuards(w: World, s: SessionId, session: Session)
    requires Guarded(w) && s !in w.sessions && !Holding(session.phase)
    ensures Guarded(w.(sessions := w.sessions[s := session]))
  {}

  lemma OpenListGuards(w: World, s: SessionId)
    requires Guarded(w) && s in w.sessions && w.sessions[s].phase.Opening?
    ensures Guarded(Listing(w, s)) && Listing(w, s).anchors == w.anchors
  {
    ReadGuards(w, s, Listing(w, s).sessions[s].phase, Listing(w, s));
  }

  lemma BeginGuards(w: World, s: SessionId, call: Call)
    requires Guarded(w) && s in w.sessions && w.sessions[s].phase.Idle?
    ensures Guarded(Begun(w, s, call)) && Begun(w, s, call).anchors == w.anchors
  {
    var w' := Begun(w, s, call);
    if w' != w { ReadGuards(w, s, w'.sessions[s].phase, w'); }
  }

  lemma ObserveGuards(w: World, s: SessionId)
    requires Guarded(w) && s in w.sessions && w.sessions[s].phase.Prepared?
    ensures Guarded(ObservedBefore(w, s)) && ObservedBefore(w, s).anchors == w.anchors
  {
    ReadGuards(w, s, ObservedBefore(w, s).sessions[s].phase, ObservedBefore(w, s));
  }

  /** Steps that touch neither a lock nor an anchor. */
  lemma ReadingGuards(w: World, e: Event)
    requires Guarded(w) && (e.OpenRead? || e.OpenList? || e.Begin? || e.Observe? || e.Restore?)
    ensures Guarded(Next(w, e))
    ensures Next(w, e).anchors == w.anchors
  {
    match e
    case OpenRead(s, seat, recovering) =>
      if s !in w.sessions && w.store.database.Some? {
        OpenReadGuards(w, s, Session(seat, recovering, Opening(w.store.database.value)));
      }
    case OpenList(s) => if InPhase(w, s, (p: Phase) => p.Opening?) { OpenListGuards(w, s); }
    case Begin(s, call) => if InPhase(w, s, (p: Phase) => p.Idle?) { BeginGuards(w, s, call); }
    case Observe(s) => if InPhase(w, s, (p: Phase) => p.Prepared?) { ObserveGuards(w, s); }
    case _ =>
  }

  lemma StepGuards(w: World, e: Event)
    requires Guarded(w)
    ensures Guarded(Next(w, e))
  {
    match e
    case OpenFinish(s, mode, write) =>
      if InPhase(w, s, (p: Phase) => p.Listed?) { OpenFinishGuards(w, s, mode, write); }
    case Lock(s, acquire) =>
      if InPhase(w, s, (p: Phase) => p.Observed?) { LockGuards(w, s, acquire); }
    case Mutate(s, call, release) =>
      if InPhase(w, s, (p: Phase) => p.Locked?) { MutateGuards(w, s, call, release); }
    case Publish(s, write, release) =>
      if InPhase(w, s, (p: Phase) => p.Accepted?) { PublishGuards(w, s, write, release); }
    case Crash(s) => if s in w.sessions { CrashGuards(w, s); }
    case _ => ReadingGuards(w, e);
  }

  /** Every step but a re-anchoring leaves an anchor that the full acceptance test admits against the old one. */
  lemma StepVerifies(w: World, e: Event, seat: SeatId)
    requires Guarded(w) && !Reanchors(w, e, seat)
    ensures FileVerifies(FileOf(w, seat), FileOf(Next(w, e), seat))
  {
    if FileOf(w, seat).Authentic? { VerifyReflexive(FileOf(w, seat).anchor); }
    match e
    case OpenFinish(s, mode, write) =>
      if InPhase(w, s, (p: Phase) => p.Listed?) { OpenFinishVerifies(w, s, mode, write, seat); }
    case Mutate(s, call, release) =>
      if InPhase(w, s, (p: Phase) => p.Locked?) { MutateGuards(w, s, call, release); }
    case Publish(s, write, release) =>
      if InPhase(w, s, (p: Phase) => p.Accepted?) { PublishVerifies(w, s, write, release, seat); }
    case Lock(_, _) =>
    case Crash(_) =>
    case _ => ReadingGuards(w, e);
  }

  lemma {:induction false} RunGuarded(w: World, events: seq<Event>)
    requires Guarded(w)
    ensures Guarded(Run(w, events))
    decreases events
  {
    if events == [] {
    } else {
      var n := |events| - 1;
      RunGuarded(w, events[..n]);
      StepGuards(Run(w, events[..n]), events[n]);
    }
  }

  ghost predicate NeverReanchored(w: World, events: seq<Event>, from: nat, seat: SeatId) {
    forall k | from <= k < |events| :: !Reanchors(Run(w, events[..k]), events[k], seat)
  }

  lemma FileAdvancesFurther(f: AnchorFile, g: AnchorFile, h: AnchorFile)
    requires FileAdvances(f, g) && FileVerifies(g, h)
    ensures FileAdvances(f, h)
  {
    if f.Authentic? {
      VerifyAdvances(g.anchor, h.anchor, false);
      AdvancesTransitive(f.anchor, g.anchor, h.anchor);
    }
  }

  lemma NeverReanchoredPrefix(w: World, events: seq<Event>, from: nat, seat: SeatId)
    requires from < |events| && NeverReanchored(w, events, from, seat)
    ensures NeverReanchored(w, events[..|events| - 1], from, seat)
    ensures !Reanchors(Run(w, events[..|events| - 1]), events[|events| - 1], seat)
  {
    var n := |events| - 1;
    forall k | from <= k < n ensures !Reanchors(Run(w, events[..n][..k]), events[..n][k], seat) {
      assert events[..n][..k] == events[..k];
    }
  }

  /**
   * In every run, with crashes, hidden effects, concurrent seats and restored
   * stores, an anchor that is not deliberately re-anchored only ever advances.
   */
  lemma {:induction false} AnchorOnlyAdvances(w: World, events: seq<Event>, from: nat, seat: SeatId)
    requires Guarded(w) && from <= |events| && NeverReanchored(w, events, from, seat)
    ensures FileAdvances(FileOf(Run(w, events[..from]), seat), FileOf(Run(w, events), seat))
    decreases |events|
  {
    if from == |events| {
      assert events[..from] == events;
      var file := FileOf(Run(w, events), seat);
      if file.Authentic? {
        VerifyReflexive(file.anchor);
        VerifyAdvances(file.anchor, file.anchor, false);
      }
    } else {
      var prefix, last := events[..|events| - 1], events[|events| - 1];
      assert prefix[..from] == events[..from];
      NeverReanchoredPrefix(w, events, from, seat);
      AnchorOnlyAdvances(w, prefix, from, seat);
      RunGuarded(w, prefix);
      var before := Run(w, prefix);
      StepVerifies(before, last, seat);
      FileAdvancesFurther(FileOf(Run(w, events[..from]), seat), FileOf(before, seat), FileOf(Next(before, last), seat));
    }
  }

  predicate Records(file: AnchorFile, id: VaultId) {
    file.Authentic? && id in file.anchor.heads
  }

  /** From some step on, the seat's anchor never lost this vault. */
  ghost predicate RecordsThroughout(w: World, events: seq<Event>, from: nat, seat: SeatId, id: VaultId) {
    forall k | from <= k <= |events| :: Records(FileOf(Run(w, events[..k]), seat), id)
  }

  /**
   * In every run, the head of a vault that the anchor records throughout only
   * advances, across any number of changes of the catalog.
   */
  lemma {:induction false} HeadOnlyAdvances(w: World, events: seq<Event>, from: nat, seat: SeatId, id: VaultId)
    requires Guarded(w) && from <= |events| && NeverReanchored(w, events, from, seat)
    requires RecordsThroughout(w, events, from, seat, id)
    ensures Records(FileOf(Run(w, events[..from]), seat), id) && Records(FileOf(Run(w, events), seat), id)
    ensures HeadAdvances(FileOf(Run(w, events[..from]), seat).anchor.heads[id],
            FileOf(Run(w, events), seat).anchor.heads[id])
    decreases |events|
  {
    assert events[..|events|] == events;
    if from < |events| {
      var prefix, last := events[..|events| - 1], events[|events| - 1];
      assert prefix[..from] == events[..from];
      NeverReanchoredPrefix(w, events, from, seat);
      RecordsPrefix(w, events, from, seat, id);
      HeadOnlyAdvances(w, prefix, from, seat, id);
      RunGuarded(w, prefix);
      var before := Run(w, prefix);
      StepVerifies(before, last, seat);
      HeadVerified(FileOf(before, seat), FileOf(Next(before, last), seat), id);
      HeadAdvancesTransitive(FileOf(Run(w, events[..from]), seat).anchor.heads[id],
          FileOf(before, seat).anchor.heads[id],
                             FileOf(Next(before, last), seat).anchor.heads[id]);
    }
  }

  lemma HeadVerified(f: AnchorFile, g: AnchorFile, id: VaultId)
    requires FileVerifies(f, g) && Records(f, id) && Records(g, id)
    ensures HeadAdvances(f.anchor.heads[id], g.anchor.heads[id])
  {}

  lemma RecordsPrefix(w: World, events: seq<Event>, from: nat, seat: SeatId, id: VaultId)
    requires from < |events| && RecordsThroughout(w, events, from, seat, id)
    ensures RecordsThroughout(w, events[..|events| - 1], from, seat, id)
  {
    var prefix := events[..|events| - 1];
    forall k | from <= k <= |prefix| ensures Records(FileOf(Run(w, prefix[..k]), seat), id) {
      assert prefix[..k] == events[..k];
    }
  }

  /** Session s finished a mutation at step k and was told so. */
  ghost predicate Acknowledges(w: World, e: Event, s: SessionId) {
    && e.Publish? && e.s == s
    && InPhase(w, s, (p: Phase) => p.Accepted?)
    && Next(w, e).sessions[s].phase.Idle?
  }

  /** A plain open of session s succeeded. */
  ghost predicate OpensPlainly(w: World, e: Event, s: SessionId) {
    && e.OpenFinish? && e.s == s && e.mode.Plain?
    && InPhase(w, s, (p: Phase) => p.Listed?)
    && Next(w, e).sessions[s].phase.Idle?
  }

  lemma RunOfPrefix(w: World, events: seq<Event>, i: nat, j: nat)
    requires i < j <= |events|
    ensures events[..j][..i + 1] == events[..i + 1]
    ensures Run(w, events[..j][..i + 1]) == Next(Run(w, events[..i]), events[i])
  {
    assert events[..i + 1][..i] == events[..i] && events[..j][..i + 1] == events[..i + 1];
  }

  /** What the anchor of an acknowledged commit records. */
  function AcknowledgedAnchor(w: World, s: SessionId): Anchor
    requires s in w.sessions && w.sessions[s].phase.Accepted?
  {
    AfterAnchor(w.sessions[s].phase.before, w.sessions[s].phase.request)
  }

  lemma AcknowledgedIsAnchored(w: World, e: Event, s: SessionId)
    requires Acknowledges(w, e, s)
    ensures FileOf(Next(w, e), w.sessions[s].seat) == Authentic(AcknowledgedAnchor(w, s))
  {}

  lemma OpenedIsAnchored(w: World, e: Event, t: SessionId)
    requires OpensPlainly(w, e, t) && FileOf(w, w.sessions[t].seat).Authentic?
    ensures FileOf(w, w.sessions[t].seat) == Authentic(w.sessions[t].phase.observed)
  {
    PlainOpenIff(FileOf(w, w.sessions[t].seat), w.sessions[t].phase.observed, e.mode.bootstrap);
  }

  /**
   * No silent rollback. Once a seat has acknowledged a commit, every later
   * plain open at that seat that was not preceded by a re-anchoring sees
   * exactly the anchored state, never an older or forked one, whatever
   * committed state the environment has put back meanwhile. No vault that the
   * seat kept recording is older than the commit left it.
   */
  lemma AcknowledgedCommitSurvives(
      w: World, events: seq<Event>, i: nat, j: nat, s: SessionId, t: SessionId)
    requires Guarded(w) && i < j < |events|
    requires Acknowledges(Run(w, events[..i]), events[i], s)
    requires OpensPlainly(Run(w, events[..j]), events[j], t)
    requires Run(w, events[..i]).sessions[s].seat == Run(w, events[..j]).sessions[t].seat
    requires NeverReanchored(w, events[..j], i + 1, Run(w, events[..i]).sessions[s].seat)
    ensures var wi, wj := Run(w, events[..i]), Run(w, events[..j]);
            var after, observed := AcknowledgedAnchor(wi, s), wj.sessions[t].phase.observed;
            && FileOf(wj, wi.sessions[s].seat) == Authentic(observed) && Advances(after, observed)
            && forall id | id in after.heads && RecordsThroughout(w, events[..j], i + 1, wi.sessions[s].seat, id) ::
                 id in observed.heads && HeadAdvances(after.heads[id], observed.heads[id])
  {
    var seat, upto := Run(w, events[..i]).sessions[s].seat, events[..j];
    RunOfPrefix(w, events, i, j);
    AcknowledgedIsAnchored(Run(w, events[..i]), events[i], s);
    AnchorOnlyAdvances(w, upto, i + 1, seat);
    OpenedIsAnchored(Run(w, upto), events[j], t);
    forall id | RecordsThroughout(w, upto, i + 1, seat, id)
      ensures id in Run(w, upto).sessions[t].phase.observed.heads
      ensures id in AcknowledgedAnchor(Run(w, events[..i]), s).heads
      ensures HeadAdvances(AcknowledgedAnchor(Run(w, events[..i]), s).heads[id],
              Run(w, upto).sessions[t].phase.observed.heads[id])
    {
      HeadOnlyAdvances(w, upto, i + 1, seat, id);
    }
  }

  // ----------------------------------------------- one mutation, and whole calls

  /** The three steps of one anchored mutation, with nobody in between. */
  function Played(w: World, s: SessionId, f: MutationFaults): World {
    Next(Next(Next(w, Lock(s, f.acquire)), Mutate(s, f.store, f.release)), Publish(s, f.write, f.release))
  }

  /** The phase in which an ending leaves a session. */
  function PhaseAfter(p: Phase, ending: Ending): Phase
    requires p.Observed?
  {
    match ending
    case Succeeded => Idle(NextCached(p.cached, p.request))
    case NotEntered => Idle(p.cached)
    case ProvenRefusal(_) => Idle(p.cached)
    case Unknown => Closed
  }

  lemma LockedStep(w: World, s: SessionId, acquire: ReadFault)
    requires s in w.sessions && w.sessions[s].phase.Observed? && w.sessions[s].seat !in w.locks
    ensures var p, seat, w1 := w.sessions[s].phase, w.sessions[s].seat, Next(w, Lock(s, acquire));
            && w1.store == w.store && w1.anchors == w.anchors && s in w1.sessions && w1.sessions[s].seat == seat
            && if Entered(FileOf(w, seat), p.before, acquire)
               then w1.sessions[s].phase
                   == Locked(p.cached, p.call, p.request, p.seen, p.before, FileOf(w, seat).anchor)
                    && seat in w1.locks && w1.locks[seat] == s
               else w1.sessions[s].phase == Idle(p.cached) && seat !in w1.locks
  {}

  lemma MutatedStep(w: World, s: SessionId, attempt: StoreCall, release: ReadFault)
    requires s in w.sessions && w.sessions[s].phase.Locked?
    requires w.sessions[s].seat in w.locks && w.locks[w.sessions[s].seat] == s
    ensures var p, seat, w1 := w.sessions[s].phase, w.sessions[s].seat, Next(w, Mutate(s, attempt, release));
            var (answer, st) := Ask(w.store, Submit(w.store, p.request), attempt);
            && w1.store == st && w1.anchors == w.anchors && s in w1.sessions && w1.sessions[s].seat == seat
            && (answer.StoreAccepted? ==>
                  w1.sessions[s].phase == Accepted(p.cached, p.request, p.before, p.trusted) && seat in w1.locks
                      && w1.locks[seat] == s)
            && (!answer.StoreAccepted? ==>
                  && seat !in w1.locks
                  && w1.sessions[s].phase == if answer.StoreRefused? && ProvenRejection(answer.code)
                       && release.Readable? then Idle(p.cached) else Closed)
  {}

  lemma PublishedStep(w: World, s: SessionId, write: WriteFault, release: ReadFault)
    requires s in w.sessions && w.sessions[s].phase.Accepted?
    requires w.sessions[s].seat in w.locks && w.locks[w.sessions[s].seat] == s
    ensures var p, seat, w1 := w.sessions[s].phase, w.sessions[s].seat, Next(w, Publish(s, write, release));
            var after := AfterAnchor(p.before, p.request);
            var moved := Permits(p.trusted, p.before, after) && !write.NotWritten?;
            && w1.store == w.store && seat !in w1.locks && s in w1.sessions
            && FileOf(w1, seat) == (if moved then Authentic(after) else FileOf(w, seat))
            && w1.sessions[s].phase == if moved && write.Written? && release.Readable?
                 then Idle(NextCached(p.cached, p.request)) else Closed
  {}

  /** The two steps under the lock. */
  lemma UnderLock(w: World, s: SessionId, q: Phase, f: MutationFaults)
    requires q.Observed? && s in w.sessions && w.sessions[s].seat in w.locks && w.locks[w.sessions[s].seat] == s
    requires var file := FileOf(w, w.sessions[s].seat);
             file.Authentic? && w.sessions[s].phase
                 == Locked(q.cached, q.call, q.request, q.seen, q.before, file.anchor)
             && Entered(file, q.before, f.acquire)
    ensures var seat, w' := w.sessions[s].seat,
            Next(Next(w, Mutate(s, f.store, f.release)), Publish(s, f.write, f.release));
            var e := Anchored(w.store, FileOf(w, seat), q.before, AfterAnchor(q.before, q.request), q.request, f);
            && w'.store == e.store && FileOf(w', seat) == e.file && seat !in w'.locks
            && s in w'.sessions && w'.sessions[s].phase == PhaseAfter(q, e.ending)
  {
    MutatedStep(w, s, f.store, f.release);
    var w2 := Next(w, Mutate(s, f.store, f.release));
    if w2.sessions[s].phase.Accepted? { PublishedStep(w2, s, f.write, f.release); }
  }

  /** A call of the anchored mutation is a run of the machine: same store, same anchor file, same ending. */
  lemma AnchoredIsRun(w: World, s: SessionId, f: MutationFaults)
    requires s in w.sessions && w.sessions[s].phase.Observed? && w.sessions[s].seat !in w.locks
    ensures var p, seat, w' := w.sessions[s].phase, w.sessions[s].seat, Played(w, s, f);
            var e := Anchored(w.store, FileOf(w, seat), p.before, AfterAnchor(p.before, p.request), p.request, f);
            && w'.store == e.store && FileOf(w', seat) == e.file && seat !in w'.locks
            && s in w'.sessions && w'.sessions[s].phase == PhaseAfter(p, e.ending)
  {
    LockedStep(w, s, f.acquire);
    var w1 := Next(w, Lock(s, f.acquire));
    if w1.sessions[s].phase.Locked? { UnderLock(w1, s, w.sessions[s].phase, f); }
  }
}
