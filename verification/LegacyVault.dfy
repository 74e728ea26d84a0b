/**
 * The legacy single vault: a store with compare-and-swap updates and, beside
 * the key file, a revision anchor that every unlock brings up to date. The two
 * are written one after the other and no lock spans them.
 */
module LegacyVault {
  import opened Wrappers

  /** Everything the metadata digest covers besides the revision. */
  datatype Metadata = Metadata(
      version: nat, keySlot: string, recoverySlots: seq<string>, keyVersion: nat, updatedAt: nat)

  datatype Document = Document(revision: nat, metadata: Metadata, payload: string)

  /** An injective digest: revision and metadata, but not the payload. */
  datatype Digest = Digest(revision: nat, metadata: Metadata)

  datatype Anchor = Anchor(revision: nat, metadataDigest: Digest)

  datatype AnchorFile = Missing | Unreadable | Trusted(anchor: Anchor)

  datatype Error = AnchorMissing | Unlocking | Rollback | AlreadyExists | Conflict

  function DigestOf(d: Document): Digest {
    Digest(d.revision, d.metadata)
  }

  function AnchorOf(d: Document): Anchor {
    Anchor(d.revision, DigestOf(d))
  }

  /** The anchor check of an unlock: refusal, or whether the anchor must be created or replaced. */
  datatype Decision = Refuse(error: Error) | Keep | Create | Replace

  function Decide(d: Document, file: AnchorFile, acceptCurrent: bool): Decision {
    match file
    case Missing => if acceptCurrent then Create else Refuse(AnchorMissing)
    case Unreadable => Refuse(Unlocking)
    case Trusted(a) =>
      if d.revision < a.revision || (d.revision == a.revision && DigestOf(d) != a.metadataDigest) then Refuse(Rollback)
      else if d.revision > a.revision then Replace
      else Keep
  }

  // ------------------------------------------------------ one process at work

  class LocalVault {
    var store: Document
    var anchor: AnchorFile

    constructor (store: Document, anchor: AnchorFile)
      ensures this.store == store && this.anchor == anchor
    {
      this.store, this.anchor := store, anchor;
    }

    /** Unlocks the stored document; a success leaves the anchor on exactly that document's digest. */
    method Unlock(acceptCurrent: bool) returns (r: Result<Document, Error>)
      modifies this`anchor
      ensures match Decide(store, old(anchor), acceptCurrent)
              case Refuse(e) => r == Err(e) && anchor == old(anchor)
              case _ => r == Ok(store)
      ensures r.Ok? ==> anchor == Trusted(AnchorOf(store))
    {
      if anchor.Unreadable? { return Err(Unlocking); }
      if anchor.Missing? && !acceptCurrent { return Err(AnchorMissing); }
      var expected := AnchorOf(store);
      if anchor.Trusted? && (store.revision < anchor.anchor.revision
                             || (store.revision == anchor.anchor.revision
                                  && expected.metadataDigest != anchor.anchor.metadataDigest)) {
        return Err(Rollback);
      }
      if anchor.Missing? || store.revision > anchor.anchor.revision {
        anchor := Trusted(expected);
      }
      return Ok(store);
    }

    /**
     * The two-step commit of an update of the held document; a crash may fall
     * between the steps. In a world of processes where this one holds the
     * document, the call is its two steps; whatever it ended in, the store is
     * unlocked again without accepting anything.
     */
    method PersistUpdatedDocument(
        held: Document, metadata: Metadata, payload: string, crash: bool, ghost w: World, ghost p: nat)
      returns (r: Result<(), Error>)
      requires Consistent(w) && w.anchor.Trusted?
      requires At(w, p) == Open(held) && Current(w) == store && w.anchor == anchor
      modifies this
      ensures var w' := Persisted(w, p, metadata, payload, crash);
              && Consistent(w') && Current(w') == store && w'.anchor == anchor
              && (r.Ok? <==> At(w', p) == Open(Document(held.revision + 1, metadata, payload)))
      ensures r.Ok? ==> anchor == Trusted(AnchorOf(store))
      ensures !Decide(store, anchor, false).Refuse?
    {
      PersistedStates(w, p, metadata, payload, crash);
      if store.revision != held.revision { return Err(Conflict); }
      store := Document(held.revision + 1, metadata, payload);
      if crash { return Err(Unlocking); }
      anchor := Trusted(AnchorOf(store));
      return Ok(());
    }
  }

  // ------------------------------------------------- any number of processes

  /**
   * A process has loaded a document, decided to write its anchor, holds it
   * open, or has stored an update whose anchor is still to be written.
   */
  datatype Process = Idle | Loaded(doc: Document) | Anchoring(doc: Document, create: bool) | Open(doc: Document)
      | Stored(doc: Document)

  /** history: every document the store has held, oldest first. */
  datatype World = World(history: seq<Document>, anchor: AnchorFile, processes: map<nat, Process>)

  datatype Event =
    | Load(p: nat)
    | LoadSnapshot(p: nat, k: nat)    // the environment shows an earlier document
    | Check(p: nat, acceptCurrent: bool)
    | WriteAnchor(p: nat)
    | Store(p: nat, metadata: Metadata, payload: string)
    | Stop(p: nat)                    // a crash, or the end of the command

  function At(w: World, p: nat): Process {
    if p in w.processes then w.processes[p] else Idle
  }

  function Put(w: World, p: nat, s: Process): World {
    w.(processes := w.processes[p := s])
  }

  function Current(w: World): Document
    requires w.history != []
  {
    w.history[|w.history| - 1]
  }

  /** One step; an event that is not possible in the process's state does nothing. */
  function Step(w: World, e: Event): (r: World)
    requires w.history != []
    ensures w.history <= r.history
  {
    match e
    case Load(p) => if At(w, p).Idle? then Put(w, p, Loaded(Current(w))) else w
    case LoadSnapshot(p, k) => if At(w, p).Idle? && k < |w.history| then Put(w, p, Loaded(w.history[k])) else w
    case Check(p, accept) =>
      if !At(w, p).Loaded? then w
      else
        (match Decide(At(w, p).doc, w.anchor, accept)
         case Refuse(_) => Put(w, p, Idle)
         case Keep => Put(w, p, Open(At(w, p).doc))
         case Create => Put(w, p, Anchoring(At(w, p).doc, true))
         case Replace => Put(w, p, Anchoring(At(w, p).doc, false)))
    case WriteAnchor(p) =>
      var s := At(w, p);
      if s.Anchoring? && s.create && !w.anchor.Missing? then Put(w, p, Idle)
      else if s.Anchoring? || s.Stored? then Put(w, p, Open(s.doc)).(anchor := Trusted(AnchorOf(s.doc)))
      else w
    case Store(p, metadata, payload) =>
      var s := At(w, p);
      if !s.Open? then w
      else if s.doc.revision != Current(w).revision then Put(w, p, Idle)
      else
        var updated := Document(s.doc.revision + 1, metadata, payload);
        Put(w, p, Stored(updated)).(history := w.history + [updated])
    case Stop(p) => Put(w, p, Idle)
  }

  function Run(w: World, events: seq<Event>): (r: World)
    requires w.history != []
    ensures r.history != []
  {
    if events == [] then w
    else
      var before := Run(w, events[..|events| - 1]);
      Step(before, events[|events| - 1])
  }

  /** Revisions of the store are gapless, and nobody holds or anchors anything the store never held. */
  ghost predicate Consistent(w: World) {
    && w.history != []
    && (forall i | 0 <= i < |w.history| :: w.history[i].revision == w.history[0].revision + i)
    && (forall p | p in w.processes && !w.processes[p].Idle? :: w.processes[p].doc in w.history)
    && (w.anchor.Trusted? ==> exists i | 0 <= i < |w.history| :: w.anchor.anchor == AnchorOf(w.history[i]))
  }

  lemma StepConsistent(w: World, e: Event)
    requires Consistent(w)
    ensures Consistent(Step(w, e))
  {
    var n := Step(w, e);
    if e.WriteAnchor? && n.anchor != w.anchor {
      var d := At(w, e.p).doc;
      var i :| 0 <= i < |w.history| && w.history[i] == d;
      assert n.anchor.anchor == AnchorOf(n.history[i]);
    }
    if e.Store? && n.history != w.history {
      assert forall i | 0 <= i < |w.history| :: n.history[i] == w.history[i];
      var i :| 0 <= i < |w.history| && w.history[i] == At(w, e.p).doc;
      assert Current(w).revision == w.history[0].revision + |w.history| - 1;
      if w.anchor.Trusted? {
        var k :| 0 <= k < |w.history| && w.anchor.anchor == AnchorOf(w.history[k]);
        assert n.anchor.anchor == AnchorOf(n.history[k]);
      }
    }
  }

  lemma {:induction false} RunConsistent(w: World, events: seq<Event>)
    requires Consistent(w)
    ensures Consistent(Run(w, events))
  {
    if events == [] {
    } else {
      RunConsistent(w, events[..|events| - 1]);
      StepConsistent(Run(w, events[..|events| - 1]), events[|events| - 1]);
    }
  }

  /**
   * In every run, whatever crashes and however processes interleave, the
   * anchor's revision never exceeds the store's.
   */
  lemma AnchorNeverAhead(w: World, events: seq<Event>)
    requires Consistent(w)
    ensures var r := Run(w, events); r.anchor.Trusted? ==> r.anchor.anchor.revision <= Current(r).revision
  {
    RunConsistent(w, events);
  }

  /**
   * A process that accepted a missing anchor creates it, and never overwrites
   * one that another process has written in the meantime.
   */
  lemma CreationNeverOverwrites(w: World, p: nat, events: seq<Event>)
    requires w.history != [] && At(w, p).Loaded? && w.anchor.Missing?
    requires At(Run(Step(w, Check(p, true)), events), p) == At(Step(w, Check(p, true)), p)
    ensures var before := Run(Step(w, Check(p, true)), events);
            var after := Step(before, WriteAnchor(p));
            && (before.anchor.Missing? ==>
                  after.anchor == Trusted(AnchorOf(At(w, p).doc)) && At(after, p) == Open(At(w, p).doc))
            && (!before.anchor.Missing? ==> after.anchor == before.anchor && At(after, p) == Idle)
  {}

  /** One undisturbed unlock of the stored document. */
  function UnlockBy(w: World, p: nat): World
    requires w.history != []
  {
    Step(Step(Step(w, Load(p)), Check(p, false)), WriteAnchor(p))
  }

  lemma UnlockReanchors(w: World, p: nat)
    requires Consistent(w) && w.anchor.Trusted? && At(w, p).Idle?
    ensures var r := UnlockBy(w, p);
            At(r, p) == Open(Current(w)) && r.anchor == Trusted(AnchorOf(Current(w))) && r.history == w.history
  {
    var d := Current(w);
    var i :| 0 <= i < |w.history| && w.anchor.anchor == AnchorOf(w.history[i]);
    assert d.revision == w.anchor.anchor.revision ==> i == |w.history| - 1;
    var w1 := Step(w, Load(p));
    assert At(w1, p) == Loaded(d);
    var w2 := Step(w1, Check(p, false));
    assert At(w2, p) == Open(d) || At(w2, p) == Anchoring(d, false);
  }

  /**
   * In every run the next unlock by a process on its own succeeds without
   * accepting anything, and leaves the anchor on the stored document.
   */
  lemma NextUnlockReanchors(w: World, events: seq<Event>, p: nat)
    requires Consistent(w) && w.anchor.Trusted? && At(Run(w, events), p).Idle?
    ensures var before := Run(w, events);
            var r := UnlockBy(before, p);
            At(r, p) == Open(Current(before)) && r.anchor == Trusted(AnchorOf(Current(before)))
                && r.history == before.history
  {
    RunConsistent(w, events);
    AnchorStays(w, events);
    UnlockReanchors(Run(w, events), p);
  }

  /** The two steps of a commit, or the first one and a crash. */
  function Persisted(w: World, p: nat, metadata: Metadata, payload: string, crash: bool): World
    requires w.history != []
  {
    Step(Step(w, Store(p, metadata, payload)), if crash then Stop(p) else WriteAnchor(p))
  }

  lemma CurrentIsAccepted(w: World)
    requires Consistent(w) && w.anchor.Trusted?
    ensures !Decide(Current(w), w.anchor, false).Refuse?
  {
    var i :| 0 <= i < |w.history| && w.anchor.anchor == AnchorOf(w.history[i]);
    assert Current(w).revision == w.anchor.anchor.revision ==> i == |w.history| - 1;
  }

  /** What the two steps leave behind, for a process that holds a document open. */
  lemma PersistedStates(w: World, p: nat, metadata: Metadata, payload: string, crash: bool)
    requires Consistent(w) && w.anchor.Trusted? && At(w, p).Open?
    ensures var held, w' := At(w, p).doc, Persisted(w, p, metadata, payload, crash);
            var updated := Document(held.revision + 1, metadata, payload);
            && Consistent(w') && !Decide(Current(w'), w'.anchor, false).Refuse?
            && if Current(w).revision != held.revision
                 then Current(w') == Current(w) && w'.anchor == w.anchor && At(w', p) == Idle
               else Current(w') == updated && if crash then w'.anchor == w.anchor && At(w', p) == Idle
                                              else w'.anchor == Trusted(AnchorOf(updated)) && At(w', p) == Open(updated)
  {
    var w1 := Step(w, Store(p, metadata, payload));
    StepConsistent(w, Store(p, metadata, payload));
    StepConsistent(w1, if crash then Stop(p) else WriteAnchor(p));
    CurrentIsAccepted(Persisted(w, p, metadata, payload, crash));
  }

  /** A trusted anchor stays one. */
  lemma {:induction false} AnchorStays(w: World, events: seq<Event>)
    requires w.history != [] && w.anchor.Trusted?
    ensures Run(w, events).anchor.Trusted?
  {
    if events == [] {
    } else {
      AnchorStays(w, events[..|events| - 1]);
    }
  }

  /**
   * In every run, an earlier snapshot of the store is refused exactly when it
   * is older than the anchor: a commit that never reached its anchor leaves
   * the snapshot before it acceptable.
   */
  lemma SnapshotRefusedIff(w: World, events: seq<Event>, p: nat, k: nat)
    requires Consistent(w) && w.anchor.Trusted? && At(Run(w, events), p).Idle? && k < |Run(w, events).history|
    ensures Run(w, events).anchor.Trusted?
    ensures var r := Run(w, events);
            At(Step(Step(r, LoadSnapshot(p, k)), Check(p, false)), p).Idle?
            <==> r.history[k].revision < r.anchor.anchor.revision
  {
    RunConsistent(w, events);
    AnchorStays(w, events);
    var r := Run(w, events);
    var i :| 0 <= i < |r.history| && r.anchor.anchor == AnchorOf(r.history[i]);
    assert r.history[k].revision == r.anchor.anchor.revision ==> i == k;
    assert At(Step(r, LoadSnapshot(p, k)), p) == Loaded(r.history[k]);
  }

  /**
   * Against a restored store: an unlock of a document that is not the anchored
   * one is refused exactly when the document is older, or has the anchored
   * revision and different metadata. The payload plays no part.
   */
  lemma RefusedIff(d: Document, anchored: Document)
    ensures Decide(d, Trusted(AnchorOf(anchored)), false) == Refuse(Rollback)
            <==> d.revision < anchored.revision || (d.revision == anchored.revision && d.metadata != anchored.metadata)
    ensures d.revision == anchored.revision && d.metadata == anchored.metadata
            ==> Decide(d, Trusted(AnchorOf(anchored)), false) == Keep
  {}

  /** A fork of the anchored revision with the same metadata and another payload is accepted. */
  lemma PayloadForkIsAccepted(m: Metadata)
    ensures var anchored, fork := Document(1, m, "original"), Document(1, m, "other");
            fork != anchored && Decide(fork, Trusted(AnchorOf(anchored)), false) == Keep
  {
    assert "original"[1] != "other"[1];
  }

  // ------------------------------------------------------- monotone anchors

  /** A step lowers the anchor exactly when a process writes the anchor of a document older than the anchored one. */
  lemma LowersAnchorIff(w: World, e: Event)
    requires w.history != [] && w.anchor.Trusted?
    ensures Step(w, e).anchor.anchor.revision < w.anchor.anchor.revision
            <==> && e.WriteAnchor?
                 && (At(w, e.p).Stored? || (At(w, e.p).Anchoring? && !At(w, e.p).create))
                 && At(w, e.p).doc.revision < w.anchor.anchor.revision
  {}

  /** At most one process is at work, and what it holds is the stored document. */
  ghost predicate Serial(w: World)
    requires w.history != []
  {
    && (forall p, q | p in w.processes && q in w.processes && p != q :: w.processes[p].Idle? || w.processes[q].Idle?)
    && (forall p | p in w.processes && !w.processes[p].Idle? :: w.processes[p].doc == Current(w))
  }

  ghost predicate OthersIdle(w: World, p: nat) {
    forall q | q in w.processes && q != p :: w.processes[q].Idle?
  }

  /** Every command of the run starts when no other one is at work, and reads the real store. */
  ghost predicate SerialRun(w: World, events: seq<Event>)
    requires w.history != []
  {
    events == [] ||
    (&& SerialRun(w, events[..|events| - 1])
     && !events[|events| - 1].LoadSnapshot?
     && (events[|events| - 1].Load? ==> OthersIdle(Run(w, events[..|events| - 1]), events[|events| - 1].p)))
  }

  lemma StepSerial(w: World, e: Event)
    requires w.history != [] && Serial(w) && !e.LoadSnapshot?
    requires e.Load? ==> OthersIdle(w, e.p)
    ensures Serial(Step(w, e))
  {}

  lemma {:induction false} RunSerial(w: World, events: seq<Event>)
    requires w.history != [] && Serial(w) && SerialRun(w, events)
    ensures Serial(Run(w, events))
  {
    if events == [] {
    } else {
      RunSerial(w, events[..|events| - 1]);
      StepSerial(Run(w, events[..|events| - 1]), events[|events| - 1]);
    }
  }

  /** As long as commands do not overlap the anchor never goes back, whatever crashes. */
  lemma {:induction false} SingleWriterIsMonotone(w: World, events: seq<Event>)
    requires Consistent(w) && Serial(w) && SerialRun(w, events) && w.anchor.Trusted?
    ensures Run(w, events).anchor.Trusted?
    ensures Run(w, events).anchor.anchor.revision >= w.anchor.anchor.revision
  {
    if events == [] {
    } else {
      var init, last := events[..|events| - 1], events[|events| - 1];
      SingleWriterIsMonotone(w, init);
      RunSerial(w, init);
      AnchorNeverAhead(w, init);
      LowersAnchorIff(Run(w, init), last);
    }
  }

  /** Process 1 holds revision 1 open and process 2 is idle. */
  function TwoProcesses(m: Metadata): World {
    var d := Document(1, m, "");
    World([d], Trusted(AnchorOf(d)), map[1 := Open(d), 2 := Idle])
  }

  /** Process 1 stores revision 2 and stalls; process 2 unlocks it, stores revision 3 and anchors it. */
  function Overtaken(m: Metadata): World {
    var stalled := Step(TwoProcesses(m), Store(1, m, "a"));
    Step(Step(UnlockBy(stalled, 2), Store(2, m, "b")), WriteAnchor(2))
  }

  /** A late concurrent writer takes the anchor back behind the store, from revision 3 to revision 2. */
  lemma LateWriterLowersAnchor(m: Metadata)
    ensures Consistent(TwoProcesses(m))
    ensures var w := Overtaken(m);
            && Current(w).revision == 3 && w.anchor == Trusted(AnchorOf(Current(w)))
            && Step(w, WriteAnchor(1)).anchor == Trusted(AnchorOf(Document(2, m, "a")))
  {
    var w := TwoProcesses(m);
    var d1, d2, d3 := Document(1, m, ""), Document(2, m, "a"), Document(3, m, "b");
    assert w.anchor.anchor == AnchorOf(w.history[0]);
    assert Consistent(w);
    var stalled := Step(w, Store(1, m, "a"));
    assert stalled.history == [d1, d2] && At(stalled, 1) == Stored(d2) && At(stalled, 2) == Idle;
    StepConsistent(w, Store(1, m, "a"));
    UnlockReanchors(stalled, 2);
    var unlocked := UnlockBy(stalled, 2);
    assert At(unlocked, 1) == Stored(d2);
    var stored := Step(unlocked, Store(2, m, "b"));
    assert stored.history == [d1, d2] + [d3] && At(stored, 2) == Stored(d3) && At(stored, 1) == Stored(d2);
  }

  // ------------------------------------------------------ without a trusted anchor

  /** Nobody accepts the current document. */
  predicate NeverAccepts(events: seq<Event>) {
    forall i | 0 <= i < |events| && events[i].Check? :: !events[i].acceptCurrent
  }

  /** No process holds a document open, or is about to. */
  ghost predicate NoneOpen(w: World) {
    forall p | p in w.processes :: w.processes[p].Idle? || w.processes[p].Loaded?
  }

  /** Without a trusted anchor, and without accepting, no run ever opens a document or writes an anchor. */
  lemma {:induction false} NothingOpensUnanchored(w: World, events: seq<Event>)
    requires w.history != [] && !w.anchor.Trusted? && NoneOpen(w) && NeverAccepts(events)
    ensures var r := Run(w, events); r.anchor == w.anchor && r.history == w.history && NoneOpen(r)
  {
    if events == [] {
    } else {
      NothingOpensUnanchored(w, events[..|events| - 1]);
    }
  }

  /** An unlock is refused as missing, as unreadable or as rolled back, and never otherwise. */
  lemma RefusedUnlockIff(d: Document, file: AnchorFile, acceptCurrent: bool)
    ensures Decide(d, file, acceptCurrent) == Refuse(AnchorMissing) <==> file == Missing && !acceptCurrent
    ensures Decide(d, file, acceptCurrent) == Refuse(Unlocking) <==> file == Unreadable
    ensures Decide(d, file, acceptCurrent) == Refuse(Rollback)
            <==> file.Trusted? && (d.revision < file.anchor.revision
                                   || (d.revision == file.anchor.revision
                                        && Digest(d.revision, d.metadata) != file.anchor.metadataDigest))
    ensures Decide(d, file, acceptCurrent).Refuse? ==>
              Decide(d, file, acceptCurrent).error in {AnchorMissing, Unlocking, Rollback}
    // what it then does with the anchor file
    ensures Decide(d, file, acceptCurrent) == Create <==> file == Missing && acceptCurrent
    ensures Decide(d, file, acceptCurrent) == Replace <==> file.Trusted? && file.anchor.revision < d.revision
  {}
}
