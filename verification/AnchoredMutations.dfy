/**
 * One store mutation under an anchor's lock, as a function of the faults that
 * hit it: what becomes of the store and of the anchor file, and what the
 * caller can tell. Sessions, recovery flows and the shared runs all end in it.
 */
module AnchoredMutations {
  import opened Wrappers
  import opened DatabaseModel
  import opened Anchors
  import opened Faults

  /** A store call: attempted under a fault, or refused with some code before it had any effect. */
  datatype StoreCall = Attempted(fault: StoreFault) | Rejected(code: StoreErrorCode)

  datatype Answer = StoreAccepted | StoreRefused(code: StoreErrorCode) | NoAnswer

  /** What a store call reports, and the store afterwards. */
  function Ask(st: Store, made: Result<Store, StoreErrorCode>, call: StoreCall): (Answer, Store) {
    match call
    case Rejected(code) => (StoreRefused(code), st)
    case Attempted(NoFault) => if made.Ok? then (StoreAccepted, made.value) else (StoreRefused(made.error), st)
    case Attempted(LostBefore) => (NoAnswer, st)
    case Attempted(LostAfter) => (NoAnswer, if made.Ok? then made.value else st)
  }

  /** Faults of one mutation: taking the lock, the store call, the anchor write, leaving the lock. */
  datatype MutationFaults = MutationFaults(acquire: ReadFault, store: StoreCall, write: WriteFault, release: ReadFault)

  const FAULTLESS := MutationFaults(Readable, Attempted(NoFault), Written, Readable)

  /** Done; provably without effect; or of unknown effect. */
  datatype Ending = Succeeded | NotEntered | ProvenRefusal(code: StoreErrorCode) | Unknown

  datatype Effect = Effect(ending: Ending, store: Store, file: AnchorFile)

  /** The lock is held and the anchor accepts the observation, vault for vault. */
  predicate Entered(file: AnchorFile, before: Anchor, acquire: ReadFault) {
    acquire.Readable? && file.Authentic? && Verify(file.anchor, before, true)
  }

  /** The anchor may move from what it records to the precomputed one. */
  predicate Permits(trusted: Anchor, before: Anchor, after: Anchor) {
    Verify(trusted, after, false) && Verify(before, after, false)
  }

  function Anchored(st: Store, file: AnchorFile, before: Anchor, after: Anchor, request: Request, f: MutationFaults)
    : Effect
  {
    if !Entered(file, before, f.acquire) then Effect(NotEntered, st, file)
    else
      var (answer, next) := Ask(st, Submit(st, request), f.store);
      match answer
      case StoreRefused(code) =>
        Effect(if ProvenRejection(code) && f.release.Readable? then ProvenRefusal(code) else Unknown, next, file)
      case NoAnswer => Effect(Unknown, next, file)
      case StoreAccepted =>
        if !Permits(file.anchor, before, after) || f.write.NotWritten? then Effect(Unknown, next, file)
        else Effect(if f.write.Written? && f.release.Readable? then Succeeded else Unknown, next, Authentic(after))
  }

  /** Exactly when a mutation succeeds, and exactly when it provably did nothing. */
  lemma EndsIff(st: Store, file: AnchorFile, before: Anchor, after: Anchor, request: Request, f: MutationFaults)
    ensures var ending, entered := Anchored(st, file, before, after, request, f).ending,
            Entered(file, before, f.acquire);
            && (ending.NotEntered? <==> !entered)
            && (ending.Succeeded? <==>
                  && entered && f.store == Attempted(NoFault) && Submit(st, request).Ok?
                  && Permits(file.anchor, before, after) && f.write.Written? && f.release.Readable?)
            && (ending.ProvenRefusal? <==>
                  && entered && f.release.Readable?
                  && ((f.store.Rejected? && ProvenRejection(f.store.code))
                       || (f.store == Attempted(NoFault) && Submit(st, request).Err?)))
  {}

  /** Without a fault, a request that the store accepts goes through at the anchor of that store. */
  lemma FaultlessGoesThrough(st: Store, r: Request)
    requires Submit(st, r).Ok? && forall id | id in st.vaults :: st.vaults[id].id == id
    ensures var a := AnchorOf(st.database.value, st.vaults);
            Anchored(st, Authentic(a), a, AfterAnchor(a, r), r, FAULTLESS)
            == Effect(Succeeded, Submit(st, r).value, Authentic(AfterAnchor(a, r)))
  {
    RequestAdvances(st, r);
  }

  lemma AskKeeps(st: Store, made: Result<Store, StoreErrorCode>, call: StoreCall)
    ensures var (answer, next) := Ask(st, made, call);
            && (answer.StoreAccepted? ==> made == Ok(next))
            && (answer.StoreRefused? ==> next == st)
            && (next == st || made == Ok(next))
  {}

  /**
   * The three ways to end, by what they leave behind: a success moved store
   * and anchor together, a refusal moved neither, and after an unknown ending
   * the store may be one request on and the anchor may have followed it.
   */
  lemma AnchoredEnds(st: Store, file: AnchorFile, before: Anchor, after: Anchor, request: Request, f: MutationFaults)
    ensures var e := Anchored(st, file, before, after, request, f);
            && (e.ending.Succeeded? ==> Submit(st, request) == Ok(e.store) && e.file == Authentic(after))
            && (e.ending.NotEntered? || e.ending.ProvenRefusal? ==> e.store == st && e.file == file)
            && (e.store == st || Submit(st, request) == Ok(e.store))
            && (e.file == file || (e.file == Authentic(after) && Submit(st, request) == Ok(e.store)))
  {
    AskKeeps(st, Submit(st, request), f.store);
  }
}
