/**
 * Backing up two files that are each replaced atomically but not together:
 * both are read twice, and a change between the readings is refused. Also the
 * unpacking of such a bundle and the restoring of its firewall state.
 */
module ConsistentBackup {
  import opened Wrappers

  datatype Error = Changed | Unparsable | WrongBinding | Malformed | WrongVersion | NeedsOverwrite

  /** Byte contents by their text, and authorization envelopes by their canonical form; None is a missing file. */
  type Bytes = string
  datatype Bundle = Bundle(databaseId: string, database: Bytes, authorization: Option<string>)

  /**
   * The formats, by what the program relies on: the database identity inside a
   * container, and a bundle serialization that can be told from other bytes.
   */
  datatype Decoded = NotABundle | InvalidBundle | Decoded(bundle: Bundle)
  datatype Formats = Formats(containerId: Bytes -> Option<string>, encode: Bundle -> Bytes, decode: Bytes -> Decoded)

  ghost predicate Faithful(f: Formats) {
    forall b :: f.decode(f.encode(b)) == Decoded(b)
  }

  /** The four readings, in order: database, authorization, database, authorization. */
  function Pack(
      f: Formats, database: Bytes, authorization: Option<string>, again: Bytes, againAuthorization: Option<string>,
                databaseId: string): Result<Bytes, Error> {
    if database != again || authorization != againAuthorization then Err(Changed)
    else if f.containerId(database).None? then Err(Unparsable)
    else if f.containerId(database) != Some(databaseId) then Err(WrongBinding)
    else Ok(f.encode(Bundle(databaseId, database, authorization)))
  }

  // --------------------------------------------------------- a coherent picture

  /** Both files at one instant. */
  datatype Instant = Instant(database: Bytes, authorization: Option<string>)

  /** The contents of one file over time. */
  function Databases(history: seq<Instant>): (r: seq<Bytes>)
    ensures |r| == |history|
  {
    seq(|history|, i requires 0 <= i < |history| => history[i].database)
  }

  function Authorizations(history: seq<Instant>): (r: seq<Option<string>>)
    ensures |r| == |history|
  {
    seq(|history|, i requires 0 <= i < |history| => history[i].authorization)
  }

  /** Backing up with the readings at four instants, in this order. */
  function PackAt(
      f: Formats, history: seq<Instant>, a: nat, b: nat, c: nat, d: nat, databaseId: string): Result<Bytes, Error>
    requires a < b < c < d < |history|
  {
    Pack(f, history[a].database, history[b].authorization, history[c].database, history[d].authorization, databaseId)
  }

  /** The pack was accepted, and its two contents did not exist together at any instant of the backup. */
  ghost predicate Torn(f: Formats, history: seq<Instant>, a: nat, b: nat, c: nat, d: nat, databaseId: string)
    requires a < b < c < d < |history|
  {
    && PackAt(f, history, a, b, c, d, databaseId).Ok?
    && forall t | a <= t <= d :: history[t] != Instant(history[a].database, history[b].authorization)
  }

  /** Some backup of this history is torn. */
  ghost predicate CanTear(f: Formats, history: seq<Instant>, databaseId: string) {
    exists a, b, c, d :: 0 <= a < b < c < d < |history| && Torn(f, history, a, b, c, d, databaseId)
  }

  /** At these instants the content is there, replaced, back, and replaced again. */
  ghost predicate GoesAt<T>(s: seq<T>, x: T, a: nat, b: nat, c: nat, d: nat) {
    a < b < c < d < |s| && s[a] == x && s[b] != x && s[c] == x && s[d] != x
  }

  /** At these instants the content is not yet there, there, replaced, and back. */
  ghost predicate ComesAt<T>(s: seq<T>, x: T, a: nat, b: nat, c: nat, d: nat) {
    a < b < c < d < |s| && s[a] != x && s[b] == x && s[c] != x && s[d] == x
  }

  ghost predicate GoesTwice<T>(s: seq<T>, x: T) {
    exists a, b, c, d :: GoesAt(s, x, a, b, c, d)
  }

  ghost predicate ComesTwice<T>(s: seq<T>, x: T) {
    exists a, b, c, d :: ComesAt(s, x, a, b, c, d)
  }

  /** A content that was replaced does not come back. */
  ghost predicate NeverReturns<T>(contents: seq<T>) {
    forall i, j, k | 0 <= i <= j <= k < |contents| && contents[i] == contents[k] :: contents[j] == contents[i]
  }

  /** Both files over the same instants. */
  function Together(databases: seq<Bytes>, authorizations: seq<Option<string>>): (r: seq<Instant>)
    requires |databases| == |authorizations|
    ensures |r| == |databases|
    ensures Databases(r) == databases && Authorizations(r) == authorizations
  {
    seq(|databases|, i requires 0 <= i < |databases| => Instant(databases[i], authorizations[i]))
  }

  /** A torn backup needs both: a database that goes twice, and an authorization state that comes twice. */
  lemma TornNeedsBoth(f: Formats, history: seq<Instant>, a: nat, b: nat, c: nat, d: nat, databaseId: string)
    requires a < b < c < d < |history| && Torn(f, history, a, b, c, d, databaseId)
    ensures f.containerId(history[a].database) == Some(databaseId)
    ensures GoesTwice(Databases(history), history[a].database)
    ensures ComesTwice(Authorizations(history), history[b].authorization)
  {
    var x, u := history[a].database, history[b].authorization;
    assert history[a] != Instant(x, u) && history[b] != Instant(x, u);
    assert history[c] != Instant(x, u) && history[d] != Instant(x, u);
    var db, au := Databases(history), Authorizations(history);
    assert GoesAt(db, x, a, b, c, d);
    assert ComesAt(au, u, a, b, c, d);
  }

  /**
   * An accepted pack holds two contents that existed together at one instant
   * of the backup, unless that database content went twice and that
   * authorization state came twice.
   */
  lemma PackIsCoherent(f: Formats, history: seq<Instant>, a: nat, b: nat, c: nat, d: nat, databaseId: string)
    requires a < b < c < d < |history|
    requires !GoesTwice(Databases(history), history[a].database)
             || !ComesTwice(Authorizations(history), history[b].authorization)
    requires Faithful(f) && PackAt(f, history, a, b, c, d, databaseId).Ok?
    ensures var packed := f.decode(PackAt(f, history, a, b, c, d, databaseId).value);
            && packed.Decoded?
            && exists t | a <= t <= d :: history[t] == Instant(packed.bundle.database, packed.bundle.authorization)
  {
    var bundle := Bundle(databaseId, history[a].database, history[b].authorization);
    assert f.decode(f.encode(bundle)) == Decoded(bundle);
    if Torn(f, history, a, b, c, d, databaseId) { TornNeedsBoth(f, history, a, b, c, d, databaseId); }
  }

  /** In particular no backup is torn when one of the files never returns to an earlier content. */
  lemma NeverReturningIsSafe(f: Formats, history: seq<Instant>, databaseId: string)
    requires NeverReturns(Databases(history)) || NeverReturns(Authorizations(history))
    ensures !CanTear(f, history, databaseId)
  {
    if CanTear(f, history, databaseId) {
      var a, b, c, d :| 0 <= a < b < c < d < |history| && Torn(f, history, a, b, c, d, databaseId);
      TornNeedsBoth(f, history, a, b, c, d, databaseId);
    }
  }

  /** The authorization states that tear a database going twice from x: absent while x is stored, present otherwise. */
  function TearingAuthorizations(databases: seq<Bytes>, x: Bytes): (r: seq<Option<string>>)
    ensures |r| == |databases|
  {
    seq(|databases|, i requires 0 <= i < |databases| => if databases[i] == x then None else Some(""))
  }

  /** The databases that tear an authorization state coming twice to u: another one while u is stored, x otherwise. */
  function TearingDatabases(authorizations: seq<Option<string>>, u: Option<string>, x: Bytes, y: Bytes): (r: seq<Bytes>)
    ensures |r| == |authorizations|
  {
    seq(|authorizations|, i requires 0 <= i < |authorizations| => if authorizations[i] == u then y else x)
  }

  /** Some history of the authorization state tears a backup of these databases. */
  ghost predicate DatabaseTears(f: Formats, databases: seq<Bytes>, databaseId: string) {
    exists authorizations ::
      |authorizations| == |databases| && CanTear(f, Together(databases, authorizations), databaseId)
  }

  ghost predicate AuthorizationTears(f: Formats, authorizations: seq<Option<string>>, databaseId: string) {
    exists databases ::
      |databases| == |authorizations| && CanTear(f, Together(databases, authorizations), databaseId)
  }

  lemma TearsBoth(f: Formats, history: seq<Instant>, databaseId: string) returns (x: Bytes, u: Option<string>)
    requires CanTear(f, history, databaseId)
    ensures f.containerId(x) == Some(databaseId) && GoesTwice(Databases(history), x)
    ensures ComesTwice(Authorizations(history), u)
  {
    var a, b, c, d :| 0 <= a < b < c < d < |history| && Torn(f, history, a, b, c, d, databaseId);
    TornNeedsBoth(f, history, a, b, c, d, databaseId);
    x, u := history[a].database, history[b].authorization;
  }

  lemma GoingTwiceTears(f: Formats, databases: seq<Bytes>, databaseId: string, x: Bytes)
    requires f.containerId(x) == Some(databaseId) && GoesTwice(databases, x)
    ensures CanTear(f, Together(databases, TearingAuthorizations(databases, x)), databaseId)
  {
    var a, b, c, d :| GoesAt(databases, x, a, b, c, d);
    assert Torn(f, Together(databases, TearingAuthorizations(databases, x)), a, b, c, d, databaseId);
  }

  lemma ComingTwiceTears(
      f: Formats, authorizations: seq<Option<string>>, databaseId: string, u: Option<string>, x: Bytes, y: Bytes)
    requires f.containerId(x) == Some(databaseId) && x != y && ComesTwice(authorizations, u)
    ensures CanTear(f, Together(TearingDatabases(authorizations, u, x, y), authorizations), databaseId)
  {
    var a, b, c, d :| ComesAt(authorizations, u, a, b, c, d);
    assert Torn(f, Together(TearingDatabases(authorizations, u, x, y), authorizations), a, b, c, d, databaseId);
  }

  /**
   * A history of the database file can be torn, by some history of the other
   * file, exactly when a content of this database goes twice in it.
   */
  lemma DatabaseTearsIff(f: Formats, databases: seq<Bytes>, databaseId: string)
    ensures DatabaseTears(f, databases, databaseId)
            <==> exists x :: f.containerId(x) == Some(databaseId) && GoesTwice(databases, x)
  {
    if DatabaseTears(f, databases, databaseId) {
      var authorizations :|
        |authorizations| == |databases| && CanTear(f, Together(databases, authorizations), databaseId);
      var x, _ := TearsBoth(f, Together(databases, authorizations), databaseId);
    }
    if x :| f.containerId(x) == Some(databaseId) && GoesTwice(databases, x) {
      GoingTwiceTears(f, databases, databaseId, x);
    }
  }

  /**
   * A history of the authorization state can be torn, by some history of the
   * database file, exactly when a state comes twice in it and any content at
   * all is accepted as this database.
   */
  lemma AuthorizationTearsIff(f: Formats, authorizations: seq<Option<string>>, databaseId: string)
    ensures AuthorizationTears(f, authorizations, databaseId)
            <==> (exists u :: ComesTwice(authorizations, u)) && (exists x :: f.containerId(x) == Some(databaseId))
  {
    if AuthorizationTears(f, authorizations, databaseId) {
      var databases :|
        |databases| == |authorizations| && CanTear(f, Together(databases, authorizations), databaseId);
      var _, u := TearsBoth(f, Together(databases, authorizations), databaseId);
    }
    if u, x :| ComesTwice(authorizations, u) && f.containerId(x) == Some(databaseId) {
      assert |x + "!"| != |x|;
      ComingTwiceTears(f, authorizations, databaseId, u, x, x + "!");
    }
  }

  /** When both files go back and forth, an accepted pack can hold contents that never existed together. */
  lemma TornPack(f: Formats, x: Bytes, y: Bytes, u: string, v: string, databaseId: string)
    requires x != y && u != v && f.containerId(x) == Some(databaseId)
    ensures var history := [Instant(x, Some(v)), Instant(y, Some(u)), Instant(x, Some(v)), Instant(y, Some(u))];
            && PackAt(f, history, 0, 1, 2, 3, databaseId) == Ok(f.encode(Bundle(databaseId, x, Some(u))))
            && forall t | 0 <= t < 4 :: history[t] != Instant(x, Some(u))
  {
    var history := [Instant(x, Some(v)), Instant(y, Some(u)), Instant(x, Some(v)), Instant(y, Some(u))];
    forall t | 0 <= t < 4 ensures history[t] != Instant(x, Some(u)) {
      assert t == 0 || t == 1 || t == 2 || t == 3;
    }
  }

  // ------------------------------------------------------------------ unpacking

  datatype Unpacked = Unpacked(database: Bytes, bundle: Option<Bundle>)

  function Unpack(f: Formats, bytes: Bytes, databaseId: string, version: nat): Result<Unpacked, Error>
    requires version == 1 || version == 2
  {
    match f.decode(bytes)
    case NotABundle => if version == 2 then Err(Malformed) else Ok(Unpacked(bytes, None))
    case InvalidBundle => if version != 2 then Err(WrongVersion) else Err(Malformed)
    case Decoded(bundle) =>
      if version != 2 then Err(WrongVersion)
      else if f.containerId(bundle.database).None? then Err(Unparsable)
      else if bundle.databaseId != databaseId || f.containerId(bundle.database) != Some(databaseId)
          then Err(WrongBinding)
      else Ok(Unpacked(bundle.database, Some(bundle)))
  }

  /** Exactly what an archive payload unpacks to, and why it is refused. */
  lemma UnpackIff(f: Formats, bytes: Bytes, databaseId: string, version: nat, r: Unpacked)
    requires version == 1 || version == 2
    ensures Unpack(f, bytes, databaseId, version) == Ok(r)
            <==> || (version == 1 && f.decode(bytes).NotABundle? && r == Unpacked(bytes, None))
                 || (version == 2 && f.decode(bytes).Decoded? && r.bundle == Some(f.decode(bytes).bundle)
                     && r.database == r.bundle.value.database && r.bundle.value.databaseId == databaseId
                     && f.containerId(r.database) == Some(databaseId))
    ensures version == 1 && !f.decode(bytes).NotABundle? ==> Unpack(f, bytes, databaseId, version) == Err(WrongVersion)
    ensures version == 2 && !f.decode(bytes).Decoded? ==> Unpack(f, bytes, databaseId, version) == Err(Malformed)
    ensures version == 2 && f.decode(bytes).Decoded? ==>
              var found, bundle := Unpack(f, bytes, databaseId, version), f.decode(bytes).bundle;
              && (found == Err(Unparsable) <==> f.containerId(bundle.database) == None)
              && (found == Err(WrongBinding)
                  <==> exists id :: f.containerId(bundle.database) == Some(id)
                                    && !(id == databaseId == bundle.databaseId))
  {}

  /** A backup is refused for files that changed, and otherwise for a database that is not the one asked for. */
  lemma PackIff(
      f: Formats, database: Bytes, authorization: Option<string>, again: Bytes, againAuthorization: Option<string>,
      databaseId: string)
    ensures var r := Pack(f, database, authorization, again, againAuthorization, databaseId);
            && (r == Err(Changed) <==> !(database == again && authorization == againAuthorization))
            && (r == Err(Unparsable)
                <==> database == again && authorization == againAuthorization && f.containerId(database) == None)
            && (r.Ok? <==>
                  && database == again && authorization == againAuthorization
                  && f.containerId(database) == Some(databaseId))
            && (r.Err? ==> r.error in {Changed, Unparsable, WrongBinding})
  {}

  /**
   * A packed bundle unpacks to the database bytes that were read, in a version
   * 2 archive of the same database and nowhere else.
   */
  lemma PackUnpackIff(
      f: Formats, database: Bytes, authorization: Option<string>, databaseId: string, other: string, version: nat)
    requires Faithful(f) && (version == 1 || version == 2)
    requires Pack(f, database, authorization, database, authorization, databaseId).Ok?
    ensures var r := Unpack(f, Pack(f, database, authorization, database, authorization, databaseId).value, other,
            version);
            && (r.Ok? <==> version == 2 && other == databaseId)
            && (r.Ok? ==> r.value == Unpacked(database, Some(Bundle(databaseId, database, authorization))))
  {
    var bundle := Bundle(databaseId, database, authorization);
    assert f.decode(f.encode(bundle)) == Decoded(bundle);
  }

  // ------------------------------------------------------------------ restoring

  const AUDIT_KEPT := 511

  datatype Event = Event(number: nat, action: string)

  function Actions(events: seq<Event>): (r: seq<string>)
    ensures |r| == |events|
  {
    seq(|events|, i requires 0 <= i < |events| => events[i].action)
  }

  function LastSeq(events: seq<Event>): nat {
    if events == [] then 0 else events[|events| - 1].number
  }

  function Tail(events: seq<Event>): seq<Event> {
    if |events| <= AUDIT_KEPT then events else events[|events| - AUDIT_KEPT..]
  }

  /** The last n of them, or all. */
  function Newest<T>(s: seq<T>, n: nat): seq<T> {
    s[if |s| <= n then 0 else |s| - n..]
  }

  const RESTORED := "firewall-restored"

  /** The firewall state being edited. */
  class Draft {
    var policies: map<string, string>
    var grants: map<string, string>
    var audit: seq<Event>

    constructor (policies: map<string, string>, grants: map<string, string>, audit: seq<Event>)
      ensures this.policies == policies && this.grants == grants && this.audit == audit
    {
      this.policies, this.grants, this.audit := policies, grants, audit;
    }

    /**
     * Takes over the recovered policies, drops every grant, and merges both
     * audit trails: their newest 511 events in order and one more, numbered
     * without a gap from behind the last number that was in use here.
     */
    method Restore(recovered: map<string, string>, recoveredAudit: seq<Event>, overwrite: bool)
      returns (r: Result<(), Error>)
      modifies this
      ensures r.Err? <==> !overwrite && (old(policies) != map[] || old(grants) != map[])
      ensures r.Err? ==> policies == old(policies) && grants == old(grants) && audit == old(audit)
      ensures r.Ok? ==>
                && policies == recovered && grants == map[]
                && Actions(audit) == Newest(Actions(old(audit) + recoveredAudit), 511) + ["firewall-restored"]
                && Contiguous(audit, LastSeq(old(audit)))
                && 1 <= |audit| <= 512
                && audit[0].number == (if old(audit) == [] then 1 else old(audit)[|old(audit)| - 1].number + 1)
    {
      if !overwrite && (|policies| > 0 || |grants| > 0) { return Err(NeedsOverwrite); }
      var last := LastSeq(audit);
      policies := recovered;
      grants := map[];
      var merged := Tail(audit + recoveredAudit);
      audit := seq(|merged|, i requires 0 <= i < |merged| => merged[i].(number := last + i + 1));
      audit := audit + [Event((if audit == [] then last else audit[|audit| - 1].number) + 1, RESTORED)];
      return Ok(());
    }
  }

  ghost predicate Contiguous(events: seq<Event>, start: nat) {
    forall i | 0 <= i < |events| :: events[i].number == start + i + 1
  }

  /** When the numbers in use so far were increasing, none of them is used again. */
  lemma NumbersAreNew(before: seq<Event>, after: seq<Event>)
    requires forall i, j | 0 <= i < j < |before| :: before[i].number < before[j].number
    requires Contiguous(after, LastSeq(before))
    ensures forall i, j | 0 <= i < |before| && 0 <= j < |after| :: before[i].number < after[j].number
  {
    forall i, j | 0 <= i < |before| && 0 <= j < |after| ensures before[i].number < after[j].number {
      assert before[i].number <= before[|before| - 1].number;
    }
  }
}
