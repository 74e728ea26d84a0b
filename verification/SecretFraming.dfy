/**
 * Line-framed secrets on standard input: a resumable reader over byte chunks,
 * with every buffer it owned overwritten before it returns, and a plain
 * definition by splitting the whole stream into lines.
 */
module SecretFraming {
  import opened Wrappers

  newtype byte = x: int | 0 <= x < 256

  const LF: byte := 10
  const CR: byte := 13
  const MAX_SECRET_BYTES: nat := 1_048_576
  const MAX_SECRET_FRAMES: nat := 7
  const MIN_PASSPHRASE_BYTES: nat := 16

  datatype Kind =
    | DatabaseUrl | Label | DatabaseLabel | VaultLabel | Passphrase | RecoveryPassphrase | NewPassphrase
    | ArchivePassphrase | FieldValue | FieldValueBase64 | NoteContent | NoteContentBase64 | Confirmation

  /** Request is an illegal number of kinds; Rejected is a decoding or validation error. */
  datatype Failure = Request | Size | Count | Stream | TooShort | WrongOrder | Rejected(reason: string)

  /** What the stream delivers next: bytes, a value that is not bytes, or an error. */
  datatype Event = Chunk(bytes: seq<byte>) | Broken

  /** The stream with its chunk boundaries forgotten. */
  datatype Symbol = Byte(value: byte) | Fault

  /** How a frame becomes a value, and how many bytes a value has. */
  datatype Rules = Rules(decode: (seq<byte>, Kind) -> Result<string, Failure>, size: string -> nat)

  function Symbols(bytes: seq<byte>): (s: seq<Symbol>)
    ensures |s| == |bytes|
  {
    seq(|bytes|, i requires 0 <= i < |bytes| => Byte(bytes[i]))
  }

  function Flatten(events: seq<Event>): seq<Symbol> {
    if events == [] then []
    else (match events[0] case Chunk(b) => Symbols(b) case Broken => [Fault]) + Flatten(events[1..])
  }

  // ---------------------------------------------------- frames of a byte stream

  datatype Taken = Frame(content: seq<byte>, rest: seq<Symbol>) | TooLong | Unreadable | Missing

  /** One frame, byte by byte: up to a line feed, or up to the end if anything is left. */
  function TakeFrame(acc: seq<byte>, s: seq<Symbol>): Taken
    decreases |s|
  {
    if s == [] then (if acc == [] then Missing else Frame(acc, []))
    else if s[0].Fault? then Unreadable
    else if s[0].value == LF then Frame(acc, s[1..])
    else if |acc| == MAX_SECRET_BYTES then TooLong
    else TakeFrame(acc + [s[0].value], s[1..])
  }

  datatype Outcome = Done(frames: seq<string>, rest: seq<Symbol>) | Failed(error: Failure)

  function Prepend(first: seq<string>, o: Outcome): Outcome {
    match o
    case Done(frames, rest) => Done(first + frames, rest)
    case Failed(e) => Failed(e)
  }

  function DecodeFrame(rules: Rules, bytes: seq<byte>, kind: Kind): Result<string, Failure> {
    rules.decode(if bytes != [] && bytes[|bytes| - 1] == CR then bytes[..|bytes| - 1] else bytes, kind)
  }

  /** The frames of a request, with the bytes of the current frame already read. */
  function FramesFrom(rules: Rules, acc: seq<byte>, kinds: seq<Kind>, s: seq<Symbol>): Outcome
    decreases |kinds|
  {
    if kinds == [] then Done([], s)
    else
      match TakeFrame(acc, s)
      case TooLong => Failed(Size)
      case Unreadable => Failed(Stream)
      case Missing => Failed(Count)
      case Frame(content, rest) =>
        match DecodeFrame(rules, content, kinds[0])
        case Err(e) => Failed(e)
        case Ok(v) => Prepend([v], FramesFrom(rules, [], kinds[1..], rest))
  }

  // ------------------------------------------- checks among the values of a request

  predicate PassphraseAt(kinds: seq<Kind>, i: int) {
    0 <= i < |kinds| && kinds[i] == Passphrase
  }

  /** One of two adjacent passphrases, as when a passphrase is created and confirmed. */
  predicate Paired(kinds: seq<Kind>, i: int) {
    PassphraseAt(kinds, i) && (PassphraseAt(kinds, i - 1) || PassphraseAt(kinds, i + 1))
  }

  predicate IsValue(k: Kind) {
    k.FieldValue? || k.FieldValueBase64? || k.NoteContent? || k.NoteContentBase64?
  }

  predicate HasValueFrame(kinds: seq<Kind>) {
    exists i | 0 <= i < |kinds| :: IsValue(kinds[i])
  }

  predicate Short(rules: Rules, values: seq<string>, i: int) {
    0 <= i < |values| && rules.size(values[i]) < MIN_PASSPHRASE_BYTES
  }

  predicate ShortPair(rules: Rules, kinds: seq<Kind>, values: seq<string>) {
    exists i | 0 <= i < |kinds| :: Paired(kinds, i) && Short(rules, values, i)
  }

  predicate ShortLone(rules: Rules, kinds: seq<Kind>, values: seq<string>) {
    exists i | 0 <= i < |kinds| :: PassphraseAt(kinds, i) && !Paired(kinds, i) && Short(rules, values, i)
  }

  /** Created passphrases must be long enough; a short unlocking one beside a value frame is taken for a wrong order. */
  function Check(rules: Rules, kinds: seq<Kind>, values: seq<string>): Option<Failure> {
    if ShortPair(rules, kinds, values) then Some(TooShort)
    else if HasValueFrame(kinds) && ShortLone(rules, kinds, values) then Some(WrongOrder)
    else None
  }

  /** A request under way: some frames are decoded and the next one has started. */
  function Continue(rules: Rules, kinds: seq<Kind>, frames: seq<string>, acc: seq<byte>, s: seq<Symbol>): Outcome
    requires |frames| <= |kinds|
  {
    Prepend(frames, FramesFrom(rules, acc, kinds[|frames|..], s))
  }

  /** The answer to one request, from the stream's bytes alone. */
  function Answer(rules: Rules, kinds: seq<Kind>, s: seq<Symbol>, finalFrames: bool): Result<seq<string>, Failure> {
    if kinds == [] || |kinds| > MAX_SECRET_FRAMES then Err(Request)
    else
      match FramesFrom(rules, [], kinds, s)
      case Failed(e) => Err(e)
      case Done(frames, rest) => Judge(rules, kinds, frames, rest, finalFrames)
  }

  /** All frames are there: a final request must have used up the stream, and the values must suit each other. */
  function Judge(rules: Rules, kinds: seq<Kind>, frames: seq<string>, rest: seq<Symbol>, finalFrames: bool)
    : Result<seq<string>, Failure>
  {
    if finalFrames && rest != [] then Err(if rest[0].Fault? then Stream else Count)
    else
      match Check(rules, kinds, frames)
      case Some(e) => Err(e)
      case None => Ok(frames)
  }

  /** Whether more input follows: a stream error counts as soon as it is reached. */
  function Peek(s: seq<Symbol>): Result<bool, Failure> {
    if s == [] then Ok(false) else if s[0].Fault? then Err(Stream) else Ok(true)
  }

  // ------------------------------------------------------- the chunked reader

  ghost predicate Zero(b: array<byte>)
    reads b
  {
    forall i | 0 <= i < b.Length :: b[i] == 0
  }

  function IndexOfLf(s: seq<byte>): (k: nat)
    ensures k <= |s|
    ensures k < |s| ==> s[k] == LF
    ensures LF !in s[..k]
  {
    if s == [] || s[0] == LF then 0 else
      var k := IndexOfLf(s[1..]);
      assert s[..k + 1] == [s[0]] + s[1..][..k];
      k + 1
  }

  /** Taking a frame out of a run of bytes with more input behind it. */
  lemma {:induction false} TakePending(acc: seq<byte>, p: seq<byte>, more: seq<Symbol>)
    requires |acc| <= MAX_SECRET_BYTES
    ensures var k := IndexOfLf(p);
            TakeFrame(acc, Symbols(p) + more)
            == if |acc| + k > MAX_SECRET_BYTES then TooLong
               else if k < |p| then Frame(acc + p[..k], Symbols(p[k + 1..]) + more)
               else TakeFrame(acc + p, more)
    decreases |p|
  {
    if p == [] {
      assert Symbols(p) + more == more && acc + p == acc;
    } else {
      var s := Symbols(p) + more;
      assert s[1..] == Symbols(p[1..]) + more;
      if p[0] == LF {
        assert acc + p[..0] == acc;
      } else if |acc| < MAX_SECRET_BYTES {
        var k := IndexOfLf(p);
        TakePending(acc + [p[0]], p[1..], more);
        assert acc + [p[0]] + p[1..] == acc + p;
        if k < |p| {
          assert acc + [p[0]] + p[1..][..k - 1] == acc + p[..k];
          assert p[1..][k..] == p[k + 1..];
        }
      }
    }
  }

  /** What one complete frame does to a request. */
  lemma NextFrame(
      rules: Rules, kinds: seq<Kind>, frames: seq<string>, acc: seq<byte>, s: seq<Symbol>,
      content: seq<byte>, rest: seq<Symbol>)
    requires |frames| < |kinds| && TakeFrame(acc, s) == Frame(content, rest)
    ensures Continue(rules, kinds, frames, acc, s)
            == match DecodeFrame(rules, content, kinds[|frames|])
               case Err(e) => Failed(e)
               case Ok(v) => Continue(rules, kinds, frames + [v], [], rest)
  {
    var k := kinds[|frames|..];
    assert k[1..] == kinds[|frames| + 1..];
    match DecodeFrame(rules, content, k[0])
    case Err(e) =>
    case Ok(v) => PrependTwice(frames, [v], FramesFrom(rules, [], k[1..], rest));
  }

  lemma PrependTwice(a: seq<string>, b: seq<string>, o: Outcome)
    ensures Prepend(a, Prepend(b, o)) == Prepend(a + b, o)
  {
    if o.Done? { assert a + (b + o.frames) == a + b + o.frames; }
  }

  method ZeroBytes(a: array<byte>)
    modifies a
    ensures Zero(a)
  {
    for i := 0 to a.Length
      invariant forall j | 0 <= j < i :: a[j] == 0
    {
      a[i] := 0;
    }
  }

  method Copy(s: seq<byte>) returns (a: array<byte>)
    ensures fresh(a) && a[..] == s
  {
    a := new byte[|s|](i requires 0 <= i < |s| => s[i]);
  }

  class LocalSecretInput {
    const rules: Rules
    /** What the stream has not delivered yet. */
    var source: seq<Event>
    var pending: array<byte>
    var ended: bool
    /** Every buffer this reader ever allocated. */
    ghost var owned: set<array<byte>>

    ghost predicate Valid()
      reads this, owned
    {
      && pending in owned
      && (ended ==> source == [])
      && forall b | b in owned && b != pending :: Zero(b)
    }

    ghost function Remaining(): seq<Symbol>
      reads this, pending
    {
      Symbols(pending[..]) + Flatten(source)
    }

    constructor (events: seq<Event>, rules: Rules)
      ensures Valid() && fresh(owned) && pending.Length == 0
      ensures Remaining() == Flatten(events) && this.rules == rules
    {
      this.rules := rules;
      source := events;
      pending := new byte[0];
      ended := false;
      new;
      owned := {pending};
      assert Symbols(pending[..]) + Flatten(source) == Flatten(source);
    }

    /** Drops the first bytes of the pending buffer: the rest is copied, the old buffer overwritten. */
    method ConsumePending(length: nat)
      requires Valid() && length <= pending.Length
      modifies this`pending, this`owned, pending
      ensures Valid() && fresh(pending) && owned == old(owned) + {pending}
      ensures pending[..] == old(pending[length..])
    {
      var prior := pending;
      pending := Copy(prior[length..]);
      owned := owned + {pending};
      ZeroBytes(prior);
    }

    method ClearPending()
      requires Valid()
      modifies this`pending, this`owned, pending
      ensures Valid() && fresh(pending) && owned == old(owned) + {pending}
      ensures pending.Length == 0
    {
      var prior := pending;
      pending := new byte[0];
      owned := owned + {pending};
      ZeroBytes(prior);
    }

    /** Pulls until some bytes are pending; the delivered chunk is copied and overwritten. */
    method NextChunk() returns (r: Result<bool, Failure>)
      requires Valid()
      modifies this`source, this`pending, this`ended, this`owned
      ensures Valid() && fresh(owned - old(owned)) && old(owned) <= owned
      ensures pending == old(pending) || fresh(pending)
      ensures old(pending.Length) > 0 ==> pending == old(pending) && source == old(source)
      ensures old(pending.Length) == 0 && old(ended) ==> r == Ok(false) && source == old(source)
      ensures r == Ok(false) ==> ended
      ensures r == Peek(old(Remaining()))
      ensures r.Ok? ==> Remaining() == old(Remaining()) && (r.value <==> pending.Length > 0)
    {
      if pending.Length > 0 { return Ok(true); }
      if ended { return Ok(false); }
      while source != []
        invariant Valid() && owned == old(owned) && pending == old(pending)
        invariant Flatten(source) == old(Flatten(source))
        decreases |source|
      {
        var next := source[0];
        source := source[1..];
        if next.Broken? { return Err(Stream); }
        if next.bytes != [] {
          var delivered := Copy(next.bytes);
          var bytes := Copy(delivered[..]);
          ZeroBytes(delivered);
          pending := bytes;
          owned := owned + {delivered, bytes};
          return Ok(true);
        }
      }
      ended := true;
      return Ok(false);
    }

    /** Joins the current frame with the next bytes, refusing a frame over the limit. */
    method AppendBytes(left: array<byte>, right: seq<byte>) returns (r: Result<array<byte>, Failure>)
      requires Valid() && left !in owned
      modifies this`owned, left
      ensures Valid()
      ensures r.Err? <==> left.Length + |right| > MAX_SECRET_BYTES
      ensures r.Err? ==> r.error == Size
      ensures r.Err? ==> owned == old(owned) && left[..] == old(left[..])
      ensures r.Ok? ==>
                && fresh(r.value) && r.value !in owned && r.value[..] == old(left[..]) + right
                && owned == old(owned) + {left}
    {
      if left.Length + |right| > MAX_SECRET_BYTES { return Err(Size); }
      var joined := Copy(left[..] + right);
      ZeroBytes(left);
      owned := owned + {left};
      return Ok(joined);
    }

    method Retire(frame: array<byte>)
      requires Valid() && frame !in owned
      modifies this`owned, frame
      ensures Valid() && owned == old(owned) + {frame}
    {
      ZeroBytes(frame);
      owned := owned + {frame};
    }

    method RequireStdinEnd() returns (failure: Option<Failure>)
      requires Valid()
      modifies this`source, this`pending, this`ended, this`owned
      ensures Valid() && fresh(owned - old(owned)) && old(owned) <= owned
      ensures pending == old(pending) || fresh(pending)
      ensures failure == if old(Remaining()) == [] then None
                         else if old(Remaining())[0].Fault? then Some(Stream)
                         else Some(Count)
      ensures failure.None? ==> Remaining() == []
    {
      if pending.Length > 0 { return Some(Count); }
      var more := NextChunk();
      if more.Err? { return Some(more.error); }
      return if more.value then Some(Count) else None;
    }

    /** Decodes a complete frame, and overwrites it when it was accepted. */
    method CloseFrame(kinds: seq<Kind>, frames: seq<string>, frame: array<byte>)
      returns (all: seq<string>, next: array<byte>, failure: Option<Failure>)
      requires Valid() && frame !in owned && |frames| < |kinds|
      modifies this`owned, frame
      ensures Valid() && next !in owned && (next == frame || fresh(next))
      ensures match DecodeFrame(rules, old(frame[..]), kinds[|frames|])
              case Err(e) => failure == Some(e) && all == frames && next == frame && owned == old(owned)
              case Ok(v) => failure == None && all == frames + [v] && next.Length == 0 && owned == old(owned) + {frame}
    {
      var value := DecodeFrame(rules, frame[..], kinds[|frames|]);
      if value.Err? { return frames, frame, Some(value.error); }
      Retire(frame);
      all, next, failure := frames + [value.value], new byte[0], None;
    }

    /** A line feed is pending: the frame ends there. */
    method TakeLine(kinds: seq<Kind>, frames: seq<string>, frame: array<byte>)
      returns (all: seq<string>, next: array<byte>, failure: Option<Failure>)
      requires Valid() && frame !in owned && |frames| < |kinds| && frame.Length <= MAX_SECRET_BYTES
      requires LF in pending[..]
      modifies this`pending, this`owned, pending, frame
      ensures Valid() && old(owned) <= owned && fresh(owned - old(owned) - {frame})
      ensures next !in owned && (next == frame || fresh(next)) && (pending == old(pending) || fresh(pending))
      ensures failure.Some? ==>
              Continue(rules, kinds, frames, old(frame[..]), old(Remaining())) == Failed(failure.value)
      ensures failure.None? ==>
                && |all| == |frames| + 1 && next.Length == 0
                && Continue(rules, kinds, frames, old(frame[..]), old(Remaining()))
                     == Continue(rules, kinds, all, next[..], Remaining())
    {
      var newline := IndexOfLf(pending[..]);
      ghost var before, content := Remaining(), frame[..] + pending[..newline];
      ghost var acc := frame[..];
      TakePending(acc, pending[..], Flatten(source));
      var joined := AppendBytes(frame, pending[..newline]);
      if joined.Err? { return frames, frame, Some(joined.error); }
      ConsumePending(newline + 1);
      NextFrame(rules, kinds, frames, acc, before, content, Remaining());
      all, next, failure := CloseFrame(kinds, frames, joined.value);
    }

    /** No line feed is pending: the frame takes everything that is. */
    method TakeAll(frame: array<byte>) returns (r: Result<array<byte>, Failure>)
      requires Valid() && frame !in owned && frame.Length <= MAX_SECRET_BYTES
      requires LF !in pending[..]
      modifies this`pending, this`owned, pending, frame
      ensures Valid() && old(owned) <= owned && fresh(owned - old(owned) - {frame})
      ensures pending == old(pending) || fresh(pending)
      ensures r.Err? ==> r.error == Size && frame !in owned && TakeFrame(old(frame[..]), old(Remaining())) == TooLong
      ensures r.Ok? ==>
                && fresh(r.value) && r.value !in owned && r.value.Length <= MAX_SECRET_BYTES && pending.Length == 0
                && |Remaining()| == old(|Remaining()|) - old(pending.Length)
                && TakeFrame(old(frame[..]), old(Remaining())) == TakeFrame(r.value[..], Remaining())
    {
      TakePending(frame[..], pending[..], Flatten(source));
      r := AppendBytes(frame, pending[..]);
      if r.Ok? {
        ConsumePending(pending.Length);
        assert Remaining() == Flatten(source);
      }
    }

    /** The stream has ended: a frame with content is complete, an empty one is missing. */
    method TakeLast(kinds: seq<Kind>, frames: seq<string>, frame: array<byte>)
      returns (all: seq<string>, next: array<byte>, failure: Option<Failure>)
      requires Valid() && frame !in owned && |frames| < |kinds| && Remaining() == []
      modifies this`owned, frame
      ensures Valid() && old(owned) <= owned <= old(owned) + {frame}
      ensures next !in owned && (next == frame || fresh(next))
      ensures failure.Some? ==> Continue(rules, kinds, frames, old(frame[..]), []) == Failed(failure.value)
      ensures failure.None? ==>
                && |all| == |frames| + 1 && next.Length == 0
                && Continue(rules, kinds, frames, old(frame[..]), []) == Continue(rules, kinds, all, next[..], [])
    {
      if frame.Length == 0 { return frames, frame, Some(Count); }
      NextFrame(rules, kinds, frames, frame[..], [], frame[..], []);
      all, next, failure := CloseFrame(kinds, frames, frame);
    }

    /** Everything is taken: waits for more, and closes the frame at the end of the stream. */
    method AwaitMore(kinds: seq<Kind>, frames: seq<string>, frame: array<byte>)
      returns (all: seq<string>, next: array<byte>, failure: Option<Failure>)
      requires Valid() && frame !in owned && |frames| < |kinds| && pending.Length == 0
      modifies this`source, this`pending, this`ended, this`owned, frame
      ensures Valid() && old(owned) <= owned && fresh(owned - old(owned) - {frame})
      ensures next !in owned && (next == frame || fresh(next)) && (pending == old(pending) || fresh(pending))
      ensures failure.Some? ==>
              Continue(rules, kinds, frames, old(frame[..]), old(Remaining())) == Failed(failure.value)
      ensures failure.None? ==>
                && |frames| <= |all| <= |kinds| && next.Length <= frame.Length
                && Continue(rules, kinds, frames, old(frame[..]), old(Remaining()))
                     == Continue(rules, kinds, all, next[..], Remaining())
      ensures failure.None? && |all| == |frames| ==> pending.Length > 0 && Remaining() == old(Remaining())
    {
      all, next, failure := frames, frame, None;
      var more := NextChunk();
      if more.Err? { return frames, frame, Some(more.error); }
      if !more.value { all, next, failure := TakeLast(kinds, frames, frame); }
    }

    /** Takes what is pending and waits for more; the end of the stream closes a frame that has content. */
    method TakeChunk(kinds: seq<Kind>, frames: seq<string>, frame: array<byte>)
      returns (all: seq<string>, next: array<byte>, failure: Option<Failure>)
      requires Valid() && frame !in owned && |frames| < |kinds| && frame.Length <= MAX_SECRET_BYTES
      requires LF !in pending[..]
      modifies this`source, this`pending, this`ended, this`owned, pending, frame
      ensures Valid() && old(owned) <= owned && fresh(owned - old(owned) - {frame})
      ensures next !in owned && (next == frame || fresh(next)) && (pending == old(pending) || fresh(pending))
      ensures failure.Some? ==>
              Continue(rules, kinds, frames, old(frame[..]), old(Remaining())) == Failed(failure.value)
      ensures failure.None? ==>
                && |frames| <= |all| <= |kinds| && next.Length <= MAX_SECRET_BYTES
                && Continue(rules, kinds, frames, old(frame[..]), old(Remaining()))
                     == Continue(rules, kinds, all, next[..], Remaining())
      ensures failure.None? && |all| == |frames| ==>
              pending.Length > 0 && |Remaining()| == old(|Remaining()|) - old(pending.Length)
    {
      ghost var acc, before := frame[..], Remaining();
      var joined := TakeAll(frame);
      if joined.Err? { return frames, frame, Some(joined.error); }
      SameFrame(rules, kinds, frames, acc, before, joined.value[..], Remaining());
      all, next, failure := AwaitMore(kinds, frames, joined.value);
    }

    method Finish(kinds: seq<Kind>, frames: seq<string>, finalFrames: bool) returns (r: Result<seq<string>, Failure>)
      requires Valid()
      modifies this`source, this`pending, this`ended, this`owned
      ensures Valid() && old(owned) <= owned && fresh(owned - old(owned)) && (pending == old(pending) || fresh(pending))
      ensures r == Judge(rules, kinds, frames, old(Remaining()), finalFrames)
      ensures r.Ok? ==> r.value == frames && Remaining() == old(Remaining())
    {
      var failure: Option<Failure> := None;
      if finalFrames { failure := RequireStdinEnd(); }
      if failure.None? { failure := Check(rules, kinds, frames); }
      r := if failure.Some? then Err(failure.value) else Ok(frames);
    }

    /** The loop: reads frame by frame until all are there or one fails. */
    method CollectFrames(kinds: seq<Kind>) returns (frames: seq<string>, frame: array<byte>, failure: Option<Failure>)
      requires Valid()
      modifies this`source, this`pending, this`ended, this`owned, pending
      ensures Valid() && fresh(owned - old(owned)) && old(owned) <= owned
      ensures fresh(frame) && frame !in owned && (pending == old(pending) || fresh(pending))
      ensures FramesFrom(rules, [], kinds, old(Remaining()))
              == if failure.None? then Done(frames, Remaining()) else Failed(failure.value)
    {
      frames, frame, failure := [], new byte[0], None;
      ghost var start := Remaining();
      StartsEmpty(rules, kinds, start);
      while |frames| < |kinds| && failure.None?
        invariant Valid() && fresh(owned - old(owned)) && old(owned) <= owned
        invariant fresh(frame) && frame !in owned
        invariant pending == old(pending) || fresh(pending)
        invariant failure.None? ==>
                    && |frames| <= |kinds| && frame.Length <= MAX_SECRET_BYTES
                    && FramesFrom(rules, [], kinds, start) == Continue(rules, kinds, frames, frame[..], Remaining())
        invariant failure.Some? ==> FramesFrom(rules, [], kinds, start) == Failed(failure.value)
        decreases if failure.None? then 1 else 0, |kinds| - |frames|, |Remaining()|,
                  if pending.Length == 0 then 1 else 0
      {
        if IndexOfLf(pending[..]) < pending.Length {
          frames, frame, failure := TakeLine(kinds, frames, frame);
        } else {
          frames, frame, failure := TakeChunk(kinds, frames, frame);
        }
      }
      assert frames + [] == frames;
    }

    /** Reads one request; a final request must leave nothing behind. */
    method ReadStdin(kinds: seq<Kind>, finalFrames: bool) returns (r: Result<seq<string>, Failure>)
      requires Valid() && 0 < |kinds| <= MAX_SECRET_FRAMES
      modifies this`source, this`pending, this`ended, this`owned, pending
      ensures Valid() && fresh(owned - old(owned)) && old(owned) <= owned
      ensures r == Answer(rules, kinds, old(Remaining()), finalFrames)
      ensures r.Ok? ==> FramesFrom(rules, [], kinds, old(Remaining())) == Done(r.value, Remaining())
      ensures r.Err? ==> pending.Length == 0
    {
      var frames, frame, failure := CollectFrames(kinds);
      if failure.None? {
        r := Finish(kinds, frames, finalFrames);
      } else {
        r := Err(failure.value);
      }
      if r.Err? { ClearPending(); }
      Retire(frame);
    }

    /** A request for no value or for too many is refused before anything is read. */
    method Read(kinds: seq<Kind>, finalFrames: bool) returns (r: Result<seq<string>, Failure>)
      requires Valid()
      modifies this`source, this`pending, this`ended, this`owned, pending
      ensures Valid() && fresh(owned - old(owned)) && old(owned) <= owned
      ensures r == Answer(rules, kinds, old(Remaining()), finalFrames)
      ensures r.Ok? ==> FramesFrom(rules, [], kinds, old(Remaining())) == Done(r.value, Remaining())
      ensures r.Err? && r.error != Request ==> pending.Length == 0
      ensures kinds == [] || |kinds| > 7 ==>
                r == Err(Request) && Remaining() == old(Remaining()) && pending == old(pending)
    {
      if kinds == [] || |kinds| > MAX_SECRET_FRAMES { return Err(Request); }
      r := ReadStdin(kinds, finalFrames);
    }
  }

  lemma StartsEmpty(rules: Rules, kinds: seq<Kind>, s: seq<Symbol>)
    ensures Continue(rules, kinds, [], [], s) == FramesFrom(rules, [], kinds, s)
  {
    assert kinds[0..] == kinds;
    PrependNothing(FramesFrom(rules, [], kinds, s));
  }

  lemma SameFrame(
      rules: Rules, kinds: seq<Kind>, frames: seq<string>, acc: seq<byte>, s: seq<Symbol>,
      acc2: seq<byte>, s2: seq<Symbol>)
    requires |frames| < |kinds| && TakeFrame(acc, s) == TakeFrame(acc2, s2)
    ensures Continue(rules, kinds, frames, acc, s) == Continue(rules, kinds, frames, acc2, s2)
  {}

  lemma PrependNothing(o: Outcome)
    ensures Prepend([], o) == o
  {
    if o.Done? { assert [] + o.frames == o.frames; }
  }

  // ------------------------------------------------ the plain definition by lines

  function Concat(pieces: seq<seq<byte>>): seq<byte> {
    if pieces == [] then [] else pieces[0] + Concat(pieces[1..])
  }

  function Chunks(pieces: seq<seq<byte>>): seq<Event> {
    seq(|pieces|, i requires 0 <= i < |pieces| => Chunk(pieces[i]))
  }

  /** However a byte string is cut into chunks, the reader sees the same symbols, and so gives the same answers. */
  lemma {:induction false} AnyChunking(pieces: seq<seq<byte>>)
    ensures Flatten(Chunks(pieces)) == Symbols(Concat(pieces))
  {
    if pieces == [] {
    } else {
      AnyChunking(pieces[1..]);
      assert Chunks(pieces)[1..] == Chunks(pieces[1..]);
      assert Symbols(pieces[0] + Concat(pieces[1..])) == Symbols(pieces[0]) + Symbols(Concat(pieces[1..]));
    }
  }

  /** The pieces between line feeds; nothing after the last line feed is not a line. */
  function Lines(b: seq<byte>): seq<seq<byte>> {
    if b == [] then []
    else
      var k := IndexOfLf(b);
      if k == |b| then [b] else [b[..k]] + Lines(b[k + 1..])
  }

  function FromLines(rules: Rules, kinds: seq<Kind>, lines: seq<seq<byte>>): Result<seq<string>, Failure> {
    if kinds == [] then Ok([])
    else if lines == [] then Err(Count)
    else if |lines[0]| > MAX_SECRET_BYTES then Err(Size)
    else
      match DecodeFrame(rules, lines[0], kinds[0])
      case Err(e) => Err(e)
      case Ok(v) =>
        match FromLines(rules, kinds[1..], lines[1..])
        case Err(e) => Err(e)
        case Ok(more) => Ok([v] + more)
  }

  function AnswerFromLines(rules: Rules, kinds: seq<Kind>, lines: seq<seq<byte>>, finalFrames: bool)
    : Result<seq<string>, Failure>
  {
    if kinds == [] || |kinds| > MAX_SECRET_FRAMES then Err(Request)
    else
      match FromLines(rules, kinds, lines)
      case Err(e) => Err(e)
      case Ok(frames) =>
        if finalFrames && |lines| > |kinds| then Err(Count)
        else
          match Check(rules, kinds, frames)
          case Some(e) => Err(e)
          case None => Ok(frames)
  }

  /** What follows the first n lines. */
  function SkipLines(b: seq<byte>, n: nat): seq<byte>
    decreases n
  {
    if n == 0 || b == [] then b
    else
      var k := IndexOfLf(b);
      SkipLines(if k == |b| then [] else b[k + 1..], n - 1)
  }

  lemma FirstLine(b: seq<byte>)
    requires b != []
    ensures Lines(b)[0] == b[..IndexOfLf(b)]
    ensures Lines(b)[1..] == Lines(SkipLines(b, 1))
  {
    var k := IndexOfLf(b);
    if k == |b| { assert b[..k] == b; }
  }

  lemma TakeLineOf(b: seq<byte>)
    ensures TakeFrame([], Symbols(b))
            == if b == [] then Missing
               else if |Lines(b)[0]| > MAX_SECRET_BYTES then TooLong
               else Frame(Lines(b)[0], Symbols(SkipLines(b, 1)))
    ensures b != [] ==> Lines(b)[1..] == Lines(SkipLines(b, 1))
  {
    if b == [] {
    } else {
      FirstLine(b);
      TakePending([], b, []);
      var k := IndexOfLf(b);
      assert Symbols(b) + [] == Symbols(b) && [] + b[..k] == b[..k];
      if k < |b| {
        assert Symbols(b[k + 1..]) + [] == Symbols(b[k + 1..]);
      } else {
        assert [] + b == b;
      }
    }
  }

  lemma {:induction false} FramesAreLines(rules: Rules, kinds: seq<Kind>, b: seq<byte>)
    ensures FramesFrom(rules, [], kinds, Symbols(b))
            == match FromLines(rules, kinds, Lines(b))
               case Err(e) => Failed(e)
               case Ok(frames) => Done(frames, Symbols(SkipLines(b, |kinds|)))
  {
    if kinds == [] {
    } else {
      TakeLineOf(b);
      if b != [] {
        FramesAreLines(rules, kinds[1..], SkipLines(b, 1));
      }
    }
  }

  lemma {:induction false} SkipLinesIsDrop(b: seq<byte>, n: nat)
    ensures Lines(SkipLines(b, n)) == if n <= |Lines(b)| then Lines(b)[n..] else []
    decreases n
  {
    if n > 0 && b != [] {
      SkipLinesIsDrop(SkipLines(b, 1), n - 1);
      TakeLineOf(b);
    }
  }

  lemma {:induction false} FromLinesNeeds(rules: Rules, kinds: seq<Kind>, lines: seq<seq<byte>>)
    ensures FromLines(rules, kinds, lines).Ok? ==> |kinds| <= |lines|
  {
    if kinds != [] && lines != [] { FromLinesNeeds(rules, kinds[1..], lines[1..]); }
  }

  /**
   * For a stream without errors the answer is the one obtained by splitting
   * the whole stream into lines, with the same first error.
   */
  lemma AnswerIsFromLines(rules: Rules, kinds: seq<Kind>, b: seq<byte>, finalFrames: bool)
    ensures Answer(rules, kinds, Symbols(b), finalFrames) == AnswerFromLines(rules, kinds, Lines(b), finalFrames)
  {
    FramesAreLines(rules, kinds, b);
    SkipLinesIsDrop(b, |kinds|);
    FromLinesNeeds(rules, kinds, Lines(b));
  }

  // ------------------------------------------------------- line endings and checks

  /** Every line is followed by a carriage return before its line feed. */
  function WithReturns(b: seq<byte>): seq<byte> {
    if b == [] then []
    else
      var k := IndexOfLf(b);
      if k == |b| then b else b[..k] + [CR, LF] + WithReturns(b[k + 1..])
  }

  /** Lines that stay within the limit with a carriage return, and have none of their own. */
  predicate Plain(lines: seq<seq<byte>>) {
    forall i | 0 <= i < |lines| ::
      |lines[i]| < MAX_SECRET_BYTES && (lines[i] != [] ==> lines[i][|lines[i]| - 1] != CR)
  }

  /** Each line of m is the line of l, or that line and a carriage return. */
  predicate Returned(l: seq<seq<byte>>, m: seq<seq<byte>>) {
    |l| == |m| && forall i | 0 <= i < |l| :: SameLine(l[i], m[i])
  }

  predicate SameLine(a: seq<byte>, b: seq<byte>) {
    b == a || b == a + [CR]
  }

  lemma {:induction false} IndexOfLfIs(s: seq<byte>, k: nat)
    requires k < |s| && s[k] == LF && forall i | 0 <= i < k :: s[i] != LF
    ensures IndexOfLf(s) == k
  {
    if k > 0 { IndexOfLfIs(s[1..], k - 1); }
  }

  lemma FirstReturned(line: seq<byte>, rest: seq<byte>)
    requires LF !in line
    ensures Lines(line + [CR, LF] + rest) == [line + [CR]] + Lines(rest)
  {
    var c := line + [CR, LF] + rest;
    IndexOfLfIs(c, |line| + 1);
    assert c[..|line| + 1] == line + [CR] && c[|line| + 2..] == rest;
  }

  lemma ReturnedCons(line: seq<byte>, l: seq<seq<byte>>, m: seq<seq<byte>>)
    requires Returned(l, m)
    ensures Returned([line] + l, [line + [CR]] + m)
  {
    var l', m' := [line] + l, [line + [CR]] + m;
    forall i | 0 <= i < |l'| ensures SameLine(l'[i], m'[i]) {
      assert i > 0 ==> l'[i] == l[i - 1] && m'[i] == m[i - 1];
    }
  }

  lemma ReturnedFirst(b: seq<byte>)
    requires IndexOfLf(b) < |b|
    ensures var k := IndexOfLf(b);
            && Lines(b) == [b[..k]] + Lines(b[k + 1..])
            && Lines(WithReturns(b)) == [b[..k] + [CR]] + Lines(WithReturns(b[k + 1..]))
  {
    FirstReturned(b[..IndexOfLf(b)], WithReturns(b[IndexOfLf(b) + 1..]));
  }

  lemma {:induction false} ReturnedLines(b: seq<byte>)
    ensures Returned(Lines(b), Lines(WithReturns(b)))
    decreases |b|
  {
    var k := IndexOfLf(b);
    if k == |b| {
      assert WithReturns(b) == b;
    } else {
      var tail := b[k + 1..];
      ReturnedLines(tail);
      ReturnedCons(b[..k], Lines(tail), Lines(WithReturns(tail)));
      ReturnedFirst(b);
    }
  }

  lemma ReturnIsStripped(rules: Rules, line: seq<byte>, kind: Kind)
    requires line != [] ==> line[|line| - 1] != CR
    ensures DecodeFrame(rules, line + [CR], kind) == DecodeFrame(rules, line, kind) == rules.decode(line, kind)
  {
    assert (line + [CR])[..|line|] == line;
  }

  lemma {:induction false} SameFromLines(rules: Rules, kinds: seq<Kind>, l: seq<seq<byte>>, m: seq<seq<byte>>)
    requires Returned(l, m) && Plain(l)
    ensures FromLines(rules, kinds, m) == FromLines(rules, kinds, l)
  {
    if kinds != [] && l != [] {
      ReturnIsStripped(rules, l[0], kinds[0]);
      SameFromLines(rules, kinds[1..], l[1..], m[1..]);
    }
  }

  /**
   * Carriage returns before the line feeds change no answer, and a frame
   * without one is decoded as it is.
   */
  lemma ReturnsAreIgnored(rules: Rules, kinds: seq<Kind>, b: seq<byte>, finalFrames: bool)
    requires Plain(Lines(b))
    ensures Answer(rules, kinds, Symbols(WithReturns(b)), finalFrames) == Answer(rules, kinds, Symbols(b), finalFrames)
    ensures forall line, kind | line in Lines(b) :: DecodeFrame(rules, line, kind) == rules.decode(line, kind)
  {
    AnswerIsFromLines(rules, kinds, b, finalFrames);
    AnswerIsFromLines(rules, kinds, WithReturns(b), finalFrames);
    ReturnedLines(b);
    SameFromLines(rules, kinds, Lines(b), Lines(WithReturns(b)));
  }

  /** Two passphrases stand side by side in the request, and this is one of them. */
  predicate Confirmed(kinds: seq<Kind>, i: nat) {
    && i < |kinds| && kinds[i] == Passphrase
    && ((i > 0 && kinds[i - 1] == Passphrase) || (i + 1 < |kinds| && kinds[i + 1] == Passphrase))
  }

  predicate Alone(kinds: seq<Kind>, i: nat) {
    && i < |kinds| && kinds[i] == Passphrase
    && (i > 0 ==> kinds[i - 1] != Passphrase) && (i + 1 < |kinds| ==> kinds[i + 1] != Passphrase)
  }

  /**
   * Values are refused as too short exactly for a passphrase under 16 bytes
   * beside another one, and otherwise as out of order exactly for such a
   * passphrase on its own in a request that also asks for field or note content.
   */
  lemma RefusedValuesIff(rules: Rules, kinds: seq<Kind>, values: seq<string>)
    requires |values| == |kinds|
    ensures Check(rules, kinds, values) == Some(TooShort)
            <==> exists i | 0 <= i < |kinds| :: Confirmed(kinds, i) && rules.size(values[i]) < 16
    ensures Check(rules, kinds, values) == Some(WrongOrder)
            <==> && !(exists i | 0 <= i < |kinds| :: Confirmed(kinds, i) && rules.size(values[i]) < 16)
                 && (exists i | 0 <= i < |kinds| :: Alone(kinds, i) && rules.size(values[i]) < 16)
                 && (FieldValue in kinds || FieldValueBase64 in kinds || NoteContent in kinds
                      || NoteContentBase64 in kinds)
    ensures Check(rules, kinds, values) in {None, Some(TooShort), Some(WrongOrder)}
  {
    forall i | 0 <= i < |kinds| ensures Confirmed(kinds, i) <==> Paired(kinds, i) {}
    forall i | 0 <= i < |kinds| ensures Alone(kinds, i) <==> PassphraseAt(kinds, i) && !Paired(kinds, i) {}
    ShortPairIff(rules, kinds, values);
    ShortLoneIff(rules, kinds, values);
    ValueFrameIff(kinds);
  }

  lemma ShortPairIff(rules: Rules, kinds: seq<Kind>, values: seq<string>)
    requires |values| == |kinds|
    ensures ShortPair(rules, kinds, values)
            <==> exists i | 0 <= i < |kinds| :: Confirmed(kinds, i) && rules.size(values[i]) < 16
  {
    if ShortPair(rules, kinds, values) {
      var i :| 0 <= i < |kinds| && Paired(kinds, i) && Short(rules, values, i);
      assert Confirmed(kinds, i);
    }
    if i :| 0 <= i < |kinds| && Confirmed(kinds, i) && rules.size(values[i]) < 16 {
      assert Paired(kinds, i) && Short(rules, values, i);
    }
  }

  lemma ShortLoneIff(rules: Rules, kinds: seq<Kind>, values: seq<string>)
    requires |values| == |kinds|
    ensures ShortLone(rules, kinds, values)
            <==> exists i | 0 <= i < |kinds| :: Alone(kinds, i) && rules.size(values[i]) < 16
  {
    if ShortLone(rules, kinds, values) {
      var i :| 0 <= i < |kinds| && PassphraseAt(kinds, i) && !Paired(kinds, i) && Short(rules, values, i);
      assert Alone(kinds, i);
    }
    if i :| 0 <= i < |kinds| && Alone(kinds, i) && rules.size(values[i]) < 16 {
      assert !Paired(kinds, i) && Short(rules, values, i);
    }
  }

  lemma ValueFrameIff(kinds: seq<Kind>)
    ensures HasValueFrame(kinds)
            <==> FieldValue in kinds || FieldValueBase64 in kinds || NoteContent in kinds || NoteContentBase64 in kinds
  {
    if HasValueFrame(kinds) {
      var i :| 0 <= i < |kinds| && IsValue(kinds[i]);
      assert kinds[i] in kinds;
    }
    forall k | k in kinds && IsValue(k) ensures HasValueFrame(kinds) {
      var i :| 0 <= i < |kinds| && kinds[i] == k;
      assert IsValue(kinds[i]);
    }
  }

  // ----------------------------------------------------------- resumed requests

  lemma {:induction false} FramesSplit(
      rules: Rules, first: seq<Kind>, second: seq<Kind>, acc: seq<byte>, s: seq<Symbol>)
    requires first != [] || acc == []
    ensures FramesFrom(rules, acc, first + second, s)
            == match FramesFrom(rules, acc, first, s)
               case Failed(e) => Failed(e)
               case Done(frames, rest) => Prepend(frames, FramesFrom(rules, [], second, rest))
    decreases |first|
  {
    if first == [] {
      assert first + second == second;
      PrependNothing(FramesFrom(rules, [], second, s));
    } else {
      assert (first + second)[1..] == first[1..] + second;
      match TakeFrame(acc, s)
      case TooLong =>
      case Unreadable =>
      case Missing =>
      case Frame(content, rest) =>
        FramesSplit(rules, first[1..], second, [], rest);
        match FramesFrom(rules, [], first[1..], rest)
        case Failed(_) =>
        case Done(frames, rest2) =>
          if DecodeFrame(rules, content, first[0]).Ok? {
            PrependTwice([DecodeFrame(rules, content, first[0]).value], frames, FramesFrom(rules, [], second, rest2));
          }
    }
  }

  /** A request answered in two reads, the second one continuing where the first stopped. */
  function Resumed(rules: Rules, first: seq<Kind>, second: seq<Kind>, s: seq<Symbol>, finalFrames: bool)
    : Result<seq<string>, Failure>
  {
    match Answer(rules, first, s, false)
    case Err(e) => Err(e)
    case Ok(frames) =>
      match Answer(rules, second, FramesFrom(rules, [], first, s).rest, finalFrames)
      case Err(e) => Err(e)
      case Ok(more) => Ok(frames + more)
  }

  /** A passphrase whose length the request looks at. */
  predicate Checked(kinds: seq<Kind>, i: int) {
    PassphraseAt(kinds, i) && (Paired(kinds, i) || HasValueFrame(kinds))
  }

  lemma CheckIff(rules: Rules, kinds: seq<Kind>, values: seq<string>)
    ensures Check(rules, kinds, values).None?
            <==> forall i | 0 <= i < |kinds| && Checked(kinds, i) :: !Short(rules, values, i)
  {
    if Check(rules, kinds, values).None? {
      forall i | 0 <= i < |kinds| && Checked(kinds, i) ensures !Short(rules, values, i) {}
    }
  }

  /** The request looks at no passphrase that the two parts by themselves do not look at. */
  predicate KeepsChecks(first: seq<Kind>, second: seq<Kind>) {
    && (forall i | 0 <= i < |first| && Checked(first + second, i) :: Checked(first, i))
    && (forall i | 0 <= i < |second| && Checked(first + second, |first| + i) :: Checked(second, i))
  }

  lemma PartsAreChecked(first: seq<Kind>, second: seq<Kind>)
    ensures forall i | 0 <= i < |first| && Checked(first, i) :: Checked(first + second, i)
    ensures forall i | 0 <= i < |second| && Checked(second, i) :: Checked(first + second, |first| + i)
  {
    var all := first + second;
    if i :| 0 <= i < |first| && IsValue(first[i]) { assert IsValue(all[i]); }
    if i :| 0 <= i < |second| && IsValue(second[i]) { assert IsValue(all[|first| + i]); }
    forall i | 0 <= i < |second| && Checked(second, i) ensures Checked(all, |first| + i) {
      assert PassphraseAt(second, i - 1) ==> PassphraseAt(all, |first| + i - 1);
      assert PassphraseAt(second, i + 1) ==> PassphraseAt(all, |first| + i + 1);
    }
  }

  /** At such a cut the values of the whole request pass exactly when both parts pass. */
  lemma ChecksSplit(rules: Rules, first: seq<Kind>, second: seq<Kind>, a: seq<string>, b: seq<string>)
    requires KeepsChecks(first, second) && |a| == |first| && |b| == |second|
    ensures Check(rules, first + second, a + b).None? <==> Check(rules, first, a).None? && Check(rules, second, b).None?
  {
    var all := first + second;
    CheckIff(rules, first, a);
    CheckIff(rules, second, b);
    CheckIff(rules, all, a + b);
    PartsAreChecked(first, second);
    forall i | 0 <= i < |first| ensures Short(rules, a + b, i) <==> Short(rules, a, i) {}
    forall i | 0 <= i < |second| ensures Short(rules, a + b, |first| + i) <==> Short(rules, b, i) {}
    if Check(rules, first, a).None? && Check(rules, second, b).None? {
      forall i | 0 <= i < |all| && Checked(all, i) ensures !Short(rules, a + b, i) {
        if i < |first| {
          assert Checked(first, i);
        } else {
          var j := i - |first|;
          assert i == |first| + j && Checked(second, j);
        }
      }
    }
  }

  /** Values that are long but for one. */
  function OneShort(n: nat, i: int, short: string, long: string): (r: seq<string>)
    ensures |r| == n
  {
    seq(n, j requires 0 <= j < n => if j == i then short else long)
  }

  lemma OneShortIsShort(rules: Rules, n: nat, i: int, short: string, long: string)
    requires rules.size(short) < MIN_PASSPHRASE_BYTES <= rules.size(long)
    ensures forall j :: Short(rules, OneShort(n, i, short, long), j) <==> 0 <= j < n && j == i
  {}

  /** Elsewhere some values pass in two reads and are refused in one. */
  lemma LostCheck(rules: Rules, first: seq<Kind>, second: seq<Kind>, short: string, long: string)
    returns (a: seq<string>, b: seq<string>)
    requires rules.size(short) < MIN_PASSPHRASE_BYTES <= rules.size(long) && !KeepsChecks(first, second)
    ensures |a| == |first| && |b| == |second|
    ensures Check(rules, first, a).None? && Check(rules, second, b).None? && Check(rules, first + second, a + b).Some?
  {
    var n, m := |first|, |second|;
    var i: int;
    if k :| 0 <= k < n && Checked(first + second, k) && !Checked(first, k) {
      i := k;
    } else {
      var k :| 0 <= k < m && Checked(first + second, n + k) && !Checked(second, k);
      i := n + k;
    }
    a, b := OneShort(n, i, short, long), OneShort(m, i - n, short, long);
    OneShortIsShort(rules, n, i, short, long);
    OneShortIsShort(rules, m, i - n, short, long);
    OneShortIsShort(rules, n + m, i, short, long);
    assert a + b == OneShort(n + m, i, short, long);
    CheckIff(rules, first, a);
    CheckIff(rules, second, b);
    CheckIff(rules, first + second, a + b);
  }

  /** The checks of two reads are those of one exactly at the cuts that lose no check. */
  lemma ChecksSplitIff(rules: Rules, first: seq<Kind>, second: seq<Kind>, short: string, long: string)
    requires rules.size(short) < MIN_PASSPHRASE_BYTES <= rules.size(long)
    ensures (forall a, b | |a| == |first| && |b| == |second| ::
               Check(rules, first + second, a + b).None?
               <==> Check(rules, first, a).None? && Check(rules, second, b).None?)
            <==> KeepsChecks(first, second)
  {
    if KeepsChecks(first, second) {
      forall a, b | |a| == |first| && |b| == |second|
        ensures Check(rules, first + second, a + b).None?
                <==> Check(rules, first, a).None? && Check(rules, second, b).None?
      {
        ChecksSplit(rules, first, second, a, b);
      }
    } else {
      var a, b := LostCheck(rules, first, second, short, long);
    }
  }

  /**
   * Reading a request in two goes gives what reading it at once gives: always
   * the same first framing, size or decoding error unless the values of the
   * first part were already refused, and, at a cut that loses no check, the
   * same values or a refusal in both.
   */
  lemma ResumedIsOneRead(rules: Rules, first: seq<Kind>, second: seq<Kind>, s: seq<Symbol>, finalFrames: bool)
    requires first != [] && second != [] && |first| + |second| <= MAX_SECRET_FRAMES
    ensures FramesFrom(rules, [], first, s).Failed? ==>
              Resumed(rules, first, second, s, finalFrames) == Answer(rules, first + second, s, finalFrames)
    ensures FramesFrom(rules, [], first + second, s).Failed? ==>
              || Resumed(rules, first, second, s, finalFrames) == Answer(rules, first + second, s, finalFrames)
              || Answer(rules, first, s, false).Err?
    ensures KeepsChecks(first, second) ==>
              && (Resumed(rules, first, second, s, finalFrames).Ok?
                  <==> Answer(rules, first + second, s, finalFrames).Ok?)
              && (Resumed(rules, first, second, s, finalFrames).Ok? ==>
                    Resumed(rules, first, second, s, finalFrames) == Answer(rules, first + second, s, finalFrames))
  {
    FramesSplit(rules, first, second, [], s);
    match FramesFrom(rules, [], first, s)
    case Failed(_) =>
    case Done(a, rest) =>
      FrameCount(rules, [], first, s);
      FrameCount(rules, [], second, rest);
      match FramesFrom(rules, [], second, rest)
      case Failed(_) =>
      case Done(b, _) => if KeepsChecks(first, second) { ChecksSplit(rules, first, second, a, b); }
  }

  lemma {:induction false} FrameCount(rules: Rules, acc: seq<byte>, kinds: seq<Kind>, s: seq<Symbol>)
    ensures var o := FramesFrom(rules, acc, kinds, s); o.Done? ==> |o.frames| == |kinds|
    decreases |kinds|
  {
    if kinds == [] {
    } else {
      match TakeFrame(acc, s)
      case TooLong =>
      case Unreadable =>
      case Missing =>
      case Frame(_, rest) => FrameCount(rules, [], kinds[1..], rest);
    }
  }
}
