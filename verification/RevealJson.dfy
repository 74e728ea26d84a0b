/**
 * Revealed values as JSON that is safe for a terminal: JSON serialization,
 * followed by a pass that escapes every control character left in the text.
 */
module RevealJson {
  import opened Wrappers
  import opened Utf16

  // -------------------------------------------------------------- serialization

  const NULL: text := [110, 117, 108, 108]
  const TRUE: text := [116, 114, 117, 101]
  const FALSE: text := [102, 97, 108, 115, 101]

  function HexDigit(n: unit): unit
    requires n < 16
  {
    if n < 10 then 48 + n else 87 + n
  }

  /** A unit as \uXXXX, in lower case. */
  function UnicodeEscape(u: unit): (r: text)
    ensures |r| == 6
  {
    [BACKSLASH, 117, HexDigit(u / 4096), HexDigit(u / 256 % 16), HexDigit(u / 16 % 16), HexDigit(u % 16)]
  }

  /** How one unit that is not half of a surrogate pair is written inside a string. */
  function QuoteUnit(u: unit): text {
    if u == QUOTE || u == BACKSLASH then [BACKSLASH, u]
    else if u == 8 then [BACKSLASH, 98]
    else if u == 9 then [BACKSLASH, 116]
    else if u == 10 then [BACKSLASH, 110]
    else if u == 12 then [BACKSLASH, 102]
    else if u == 13 then [BACKSLASH, 114]
    else if u < 0x20 || IsLead(u) || IsTrail(u) then UnicodeEscape(u)
    else [u]
  }

  function QuoteUnits(s: text): text {
    if s == [] then []
    else if IsPair(s) then s[..2] + QuoteUnits(s[2..])
    else QuoteUnit(s[0]) + QuoteUnits(s[1..])
  }

  /** The characters of numbers: the digits, and + - . E e. */
  predicate IsNumberUnit(u: unit) {
    48 <= u <= 57 || u == 43 || u == 45 || u == 46 || u == 69 || u == 101
  }

  lemma NumberUnitIff(c: char)
    requires c as int < 0x1_0000
    ensures IsNumberUnit(c as unit) <==> c in "0123456789+-.Ee"
  {}

  predicate AllNumberUnits(s: text) {
    forall i | 0 <= i < |s| :: IsNumberUnit(s[i])
  }

  type NumberText = s: text | s != [] && AllNumberUnits(s) witness [48]

  /** Strings, numbers by their text, and ordered members. */
  datatype Json = Null | Bool(b: bool) | Number(digits: NumberText) | Str(s: text) | Array(elements: List)
      | Object(members: Members)
  datatype List = Nil | Cons(head: Json, tail: List)
  datatype Members = NoMember | Member(key: text, value: Json, rest: Members)

  function QuoteString(s: text): text {
    [QUOTE] + QuoteUnits(s) + [QUOTE]
  }

  function Stringify(v: Json): text {
    match v
    case Null => NULL
    case Bool(b) => if b then TRUE else FALSE
    case Number(digits) => digits
    case Str(s) => QuoteString(s)
    case Array(l) => [OPEN_BRACKET] + StringifyList(l) + [CLOSE_BRACKET]
    case Object(m) => [OPEN_BRACE] + StringifyMembers(m) + [CLOSE_BRACE]
  }

  function StringifyList(l: List): text {
    match l
    case Nil => []
    case Cons(v, tail) => Stringify(v) + if tail.Nil? then [] else [COMMA] + StringifyList(tail)
  }

  function StringifyMembers(m: Members): text {
    match m
    case NoMember => []
    case Member(k, v, rest) =>
      QuoteString(k) + [COLON] + Stringify(v) + if rest.NoMember? then [] else [COMMA] + StringifyMembers(rest)
  }

  /** The final pass over the serialized text. */
  function EscapeControls(s: text): text {
    if s == [] then []
    else (if IsControl(s[0]) then UnicodeEscape(s[0]) else [s[0]]) + EscapeControls(s[1..])
  }

  // --------------------------------------------- reading, by section 7 of RFC 8259

  function HexValue(u: unit): Option<unit> {
    if 48 <= u <= 57 then Some(u - 48)
    else if 97 <= u <= 102 then Some(u - 87)
    else if 65 <= u <= 70 then Some(u - 55)
    else None
  }

  function Hex4(s: text): Option<unit>
    requires |s| >= 4
  {
    var a, b, c, d := HexValue(s[0]), HexValue(s[1]), HexValue(s[2]), HexValue(s[3]);
    if a.Some? && b.Some? && c.Some? && d.Some? && a.value < 16 && b.value < 16 && c.value < 16 && d.value < 16
    then Some(a.value * 4096 + b.value * 256 + c.value * 16 + d.value) else None
  }

  /** What a two-character escape stands for. */
  function Unescape(u: unit): Option<unit> {
    if u == QUOTE || u == BACKSLASH || u == 47 then Some(u)
    else if u == 98 then Some(8)
    else if u == 102 then Some(12)
    else if u == 110 then Some(10)
    else if u == 114 then Some(13)
    else if u == 116 then Some(9)
    else None
  }

  datatype Read<T> = Read(value: T, rest: text)

  /** The rest of a string, after its opening quotation mark. */
  function ReadString(s: text): (r: Option<Read<text>>)
    ensures r.Some? ==> |r.value.rest| < |s|
  {
    if s == [] then None
    else if s[0] == QUOTE then Some(Read([], s[1..]))
    else if s[0] < 0x20 then None
    else if s[0] != BACKSLASH then Push(s[0], ReadString(s[1..]))
    else if |s| < 2 then None
    else if s[1] == 117 then
      if |s| < 6 || Hex4(s[2..]).None? then None else Push(Hex4(s[2..]).value, ReadString(s[6..]))
    else if Unescape(s[1]).None? then None
    else Push(Unescape(s[1]).value, ReadString(s[2..]))
  }

  function Push(u: unit, r: Option<Read<text>>): (p: Option<Read<text>>)
    ensures p.Some? <==> r.Some?
    ensures p.Some? ==> p.value.rest == r.value.rest
  {
    if r.None? then None else Some(Read([u] + r.value.value, r.value.rest))
  }

  function NumberLength(s: text): (n: nat)
    ensures n <= |s| && forall i | 0 <= i < n :: IsNumberUnit(s[i])
  {
    if s == [] || !IsNumberUnit(s[0]) then 0 else 1 + NumberLength(s[1..])
  }

  predicate StartsWith(s: text, p: text) {
    |p| <= |s| && s[..|p|] == p
  }

  function ReadValue(s: text): (r: Option<Read<Json>>)
    ensures r.Some? ==> |r.value.rest| < |s|
    decreases |s|, 0
  {
    if s == [] then None
    else if s[0] == QUOTE then
      match ReadString(s[1..])
      case None => None
      case Some(Read(t, rest)) => Some(Read(Str(t), rest))
    else if s[0] == OPEN_BRACKET then
      if |s| >= 2 && s[1] == CLOSE_BRACKET then Some(Read(Array(Nil), s[2..]))
      else
        match ReadElements(s[1..])
        case None => None
        case Some(Read(l, rest)) => Some(Read(Array(l), rest))
    else if s[0] == OPEN_BRACE then
      if |s| >= 2 && s[1] == CLOSE_BRACE then Some(Read(Object(NoMember), s[2..]))
      else
        match ReadMembers(s[1..])
        case None => None
        case Some(Read(m, rest)) => Some(Read(Object(m), rest))
    else if StartsWith(s, NULL) then Some(Read(Null, s[4..]))
    else if StartsWith(s, TRUE) then Some(Read(Bool(true), s[4..]))
    else if StartsWith(s, FALSE) then Some(Read(Bool(false), s[5..]))
    else if NumberLength(s) > 0 then Some(Read(Number(s[..NumberLength(s)]), s[NumberLength(s)..]))
    else None
  }

  /** One or more elements and the closing bracket. */
  function ReadElements(s: text): (r: Option<Read<List>>)
    ensures r.Some? ==> |r.value.rest| < |s|
    decreases |s|, 1
  {
    match ReadValue(s)
    case None => None
    case Some(Read(v, rest)) =>
      if rest == [] then None
      else if rest[0] == CLOSE_BRACKET then Some(Read(Cons(v, Nil), rest[1..]))
      else if rest[0] != COMMA then None
      else
        match ReadElements(rest[1..])
        case None => None
        case Some(Read(l, rest2)) => Some(Read(Cons(v, l), rest2))
  }

  function ReadMembers(s: text): (r: Option<Read<Members>>)
    ensures r.Some? ==> |r.value.rest| < |s|
    decreases |s|, 1
  {
    if s == [] || s[0] != QUOTE then None
    else
      match ReadString(s[1..])
      case None => None
      case Some(Read(k, rest)) =>
        if rest == [] || rest[0] != COLON then None
        else
          match ReadValue(rest[1..])
          case None => None
          case Some(Read(v, rest2)) =>
            if rest2 == [] then None
            else if rest2[0] == CLOSE_BRACE then Some(Read(Member(k, v, NoMember), rest2[1..]))
            else if rest2[0] != COMMA then None
            else
              match ReadMembers(rest2[1..])
              case None => None
              case Some(Read(m, rest3)) => Some(Read(Member(k, v, m), rest3))
  }

  // -------------------------------------------------------------------- proofs

  lemma Nibble(u: unit)
    ensures u / 16 * 16 + u % 16 == u
  {}

  lemma Nibbles(u: unit)
    ensures u / 4096 < 16
    ensures u / 4096 * 4096 + u / 256 % 16 * 256 + u / 16 % 16 * 16 + u % 16 == u
  {
    Nibble(u);
    Nibble(u / 16);
    Nibble(u / 256);
    assert u / 16 / 16 == u / 256 && u / 256 / 16 == u / 4096;
  }

  lemma HexDigitReads(n: unit)
    requires n < 16
    ensures HexValue(HexDigit(n)) == Some(n)
  {}

  lemma HexRoundTrip(u: unit, rest: text)
    ensures Hex4(UnicodeEscape(u)[2..] + rest) == Some(u)
  {
    Nibbles(u);
    HexDigitReads(u / 4096);
    HexDigitReads(u / 256 % 16);
    HexDigitReads(u / 16 % 16);
    HexDigitReads(u % 16);
  }

  lemma {:induction false} EscapeAppend(a: text, b: text)
    ensures EscapeControls(a + b) == EscapeControls(a) + EscapeControls(b)
  {
    if a == [] {
      assert a + b == b;
    } else {
      assert (a + b)[1..] == a[1..] + b;
      EscapeAppend(a[1..], b);
    }
  }

  lemma {:induction false} EscapeKeeps(s: text)
    requires forall i | 0 <= i < |s| :: !IsControl(s[i])
    ensures EscapeControls(s) == s
  {
    if s == [] {
    } else {
      EscapeKeeps(s[1..]);
    }
  }

  /** No control character is left anywhere in the text. */
  lemma {:induction false} EscapeRemovesControls(s: text)
    ensures forall u | u in EscapeControls(s) :: 0x20 <= u <= 0x7e || 0xa0 <= u
  {
    if s == [] {
    } else {
      EscapeRemovesControls(s[1..]);
    }
  }

  lemma ReadEscape(u: unit, rest: text)
    ensures ReadString(UnicodeEscape(u) + rest) == Push(u, ReadString(rest))
  {
    var s := UnicodeEscape(u) + rest;
    HexRoundTrip(u, rest);
    assert s[2..] == UnicodeEscape(u)[2..] + rest;
    assert s[6..] == rest;
  }

  lemma EscapeUnit(u: unit)
    ensures EscapeControls([u]) == if IsControl(u) then UnicodeEscape(u) else [u]
  {
    assert [u][1..] == [];
  }

  lemma ReadShortEscape(u: unit, rest: text)
    requires u != 117 && Unescape(u).Some? && !IsControl(u)
    ensures ReadString(EscapeControls([BACKSLASH, u]) + rest) == Push(Unescape(u).value, ReadString(rest))
  {
    EscapeKeeps([BACKSLASH, u]);
    assert ([BACKSLASH, u] + rest)[2..] == rest;
  }

  /** A unit that quoting leaves alone reads back, whether or not the pass escapes it. */
  lemma ReadPlainUnit(u: unit, rest: text)
    requires u != QUOTE && u != BACKSLASH && u >= 0x20
    ensures ReadString(EscapeControls([u]) + rest) == Push(u, ReadString(rest))
  {
    EscapeUnit(u);
    if IsControl(u) {
      ReadEscape(u, rest);
    } else {
      assert ([u] + rest)[1..] == rest;
    }
  }

  /** A quoted unit, after the pass, reads back as the unit. */
  lemma ReadQuotedUnit(u: unit, rest: text)
    ensures ReadString(EscapeControls(QuoteUnit(u)) + rest) == Push(u, ReadString(rest))
  {
    if u == QUOTE || u == BACKSLASH {
      ReadShortEscape(u, rest);
    } else if u == 8 {
      ReadShortEscape(98, rest);
    } else if u == 9 {
      ReadShortEscape(116, rest);
    } else if u == 10 {
      ReadShortEscape(110, rest);
    } else if u == 12 {
      ReadShortEscape(102, rest);
    } else if u == 13 {
      ReadShortEscape(114, rest);
    } else if u < 0x20 || IsLead(u) || IsTrail(u) {
      EscapeKeeps(UnicodeEscape(u));
      ReadEscape(u, rest);
    } else {
      ReadPlainUnit(u, rest);
    }
  }

  lemma ReadPair(a: unit, b: unit, after: text)
    requires IsLead(a) && IsTrail(b)
    ensures ReadString([a, b] + after) == Push(a, Push(b, ReadString(after)))
  {
    assert ([a, b] + after)[1..] == [b] + after;
    assert ([b] + after)[1..] == after;
  }

  /** What the content of a string looks like in the final text. */
  function Emitted(s: text): text {
    EscapeControls(QuoteUnits(s))
  }

  lemma EmittedPair(s: text)
    requires IsPair(s)
    ensures Emitted(s) == s[..2] + Emitted(s[2..])
  {
    EscapeAppend(s[..2], QuoteUnits(s[2..]));
    EscapeKeeps(s[..2]);
  }

  lemma EmittedUnit(s: text)
    requires s != [] && !IsPair(s)
    ensures Emitted(s) == EscapeControls(QuoteUnit(s[0])) + Emitted(s[1..])
  {
    EscapeAppend(QuoteUnit(s[0]), QuoteUnits(s[1..]));
  }

  lemma ReadPairStep(s: text, tail: text, end: text, rest: text)
    requires IsPair(s) && ReadString(tail + end) == Some(Read(s[2..], rest))
    ensures ReadString(s[..2] + tail + end) == Some(Read(s, rest))
  {
    var after := tail + end;
    assert s[..2] + tail + end == [s[0], s[1]] + after;
    ReadPair(s[0], s[1], after);
    assert s == [s[0]] + ([s[1]] + s[2..]);
  }

  lemma ReadStep(s: text, chunk: text, tail: text, end: text, rest: text)
    requires s != []
    requires ReadString(tail + end) == Some(Read(s[1..], rest))
    requires ReadString(chunk + (tail + end)) == Push(s[0], ReadString(tail + end))
    ensures ReadString(chunk + tail + end) == Some(Read(s, rest))
  {
    assert chunk + tail + end == chunk + (tail + end);
    assert s == [s[0]] + s[1..];
  }

  lemma ReadEmittedUnit(s: text, rest: text)
    requires s != [] && !IsPair(s)
    requires ReadString(Emitted(s[1..]) + ([QUOTE] + rest)) == Some(Read(s[1..], rest))
    ensures ReadString(Emitted(s) + ([QUOTE] + rest)) == Some(Read(s, rest))
  {
    var tail, end := Emitted(s[1..]), [QUOTE] + rest;
    ReadQuotedUnit(s[0], tail + end);
    ReadStep(s, EscapeControls(QuoteUnit(s[0])), tail, end, rest);
    EmittedUnit(s);
  }

  lemma {:induction false} ReadEmitted(s: text, rest: text)
    ensures ReadString(Emitted(s) + ([QUOTE] + rest)) == Some(Read(s, rest))
    decreases |s|
  {
    if s == [] {
      assert Emitted(s) + ([QUOTE] + rest) == [QUOTE] + rest;
      assert ([QUOTE] + rest)[1..] == rest;
    } else if IsPair(s) {
      ReadEmitted(s[2..], rest);
      EmittedPair(s);
      ReadPairStep(s, Emitted(s[2..]), [QUOTE] + rest, rest);
    } else {
      ReadEmitted(s[1..], rest);
      ReadEmittedUnit(s, rest);
    }
  }

  /** A string, quoted and passed, is its emitted content between quotation marks. */
  lemma EmittedString(s: text)
    ensures EscapeControls(QuoteString(s)) == [QUOTE] + Emitted(s) + [QUOTE]
  {
    EscapeAppend([QUOTE] + QuoteUnits(s), [QUOTE]);
    EscapeAppend([QUOTE], QuoteUnits(s));
    EscapeUnit(QUOTE);
  }

  lemma Quoted(content: text, rest: text)
    ensures ([QUOTE] + content + [QUOTE] + rest)[1..] == content + ([QUOTE] + rest)
  {}

  /** Every string, quoted and passed, reads back as itself, whatever follows it. */
  lemma StringRoundTrip(s: text, rest: text)
    ensures var t := EscapeControls(QuoteString(s)) + rest;
            t[0] == QUOTE && ReadString(t[1..]) == Some(Read(s, rest))
  {
    EmittedString(s);
    ReadEmitted(s, rest);
    Quoted(Emitted(s), rest);
  }

  // ------------------------------------------------------------ whole documents

  /** What may follow a value: nothing that would continue a number. */
  predicate Stops(rest: text) {
    rest == [] || !IsNumberUnit(rest[0])
  }

  lemma {:induction false} NumberEnds(digits: text, rest: text)
    requires AllNumberUnits(digits) && Stops(rest)
    ensures NumberLength(digits + rest) == |digits|
  {
    if digits == [] {
      assert digits + rest == rest;
    } else {
      assert (digits + rest)[1..] == digits[1..] + rest;
      NumberEnds(digits[1..], rest);
    }
  }

  lemma NumberReads(t: text)
    requires t != [] && NumberLength(t) > 0
    ensures ReadValue(t) == Some(Read(Number(t[..NumberLength(t)]), t[NumberLength(t)..]))
  {
    assert IsNumberUnit(t[0]);
    assert |t| >= 4 ==> t[..4][0] == t[0];
    assert |t| >= 5 ==> t[..5][0] == t[0];
    assert NULL[0] == 110 && TRUE[0] == 116 && FALSE[0] == 102;
  }

  lemma NumberRoundTrip(digits: NumberText, rest: text)
    requires Stops(rest)
    ensures ReadValue(EscapeControls(digits) + rest) == Some(Read(Number(digits), rest))
  {
    EscapeKeeps(digits);
    NumberEnds(digits, rest);
    var t := digits + rest;
    NumberReads(t);
    assert t[..|digits|] == digits && t[|digits|..] == rest;
  }

  lemma NullReads(rest: text)
    ensures ReadValue(NULL + rest) == Some(Read(Null, rest))
  {
    var t := NULL + rest;
    assert t[0] == 110 && t[..4] == NULL && t[4..] == rest;
  }

  lemma TrueReads(rest: text)
    ensures ReadValue(TRUE + rest) == Some(Read(Bool(true), rest))
  {
    var t := TRUE + rest;
    assert t[0] == 116 && t[..4] == TRUE && t[4..] == rest;
    assert t[..4][0] != NULL[0];
  }

  lemma FalseReads(rest: text)
    ensures ReadValue(FALSE + rest) == Some(Read(Bool(false), rest))
  {
    var t := FALSE + rest;
    assert t[0] == 102 && t[..5] == FALSE && t[5..] == rest;
    assert t[..4][0] != NULL[0] && t[..4][0] != TRUE[0];
  }

  lemma WordRoundTrip(v: Json, rest: text)
    requires v.Null? || v.Bool?
    ensures ReadValue(EscapeControls(Stringify(v)) + rest) == Some(Read(v, rest))
  {
    EscapeKeeps(Stringify(v));
    if v.Null? {
      NullReads(rest);
    } else if v.b {
      TrueReads(rest);
    } else {
      FalseReads(rest);
    }
  }

  lemma EscapeSymbol(u: unit, s: text)
    requires !IsControl(u)
    ensures EscapeControls([u] + s) == [u] + EscapeControls(s)
  {
    EscapeAppend([u], s);
    EscapeUnit(u);
  }

  /** The first unit of a written value tells its kind. */
  lemma FirstUnit(v: Json)
    ensures EscapeControls(Stringify(v)) != [] && EscapeControls(Stringify(v))[0] != CLOSE_BRACKET
  {
    match v
    case Number(digits) => EscapeKeeps(digits);
    case Str(s) => EmittedString(s);
    case Array(l) =>
      EscapeAppend([OPEN_BRACKET] + StringifyList(l), [CLOSE_BRACKET]);
      EscapeSymbol(OPEN_BRACKET, StringifyList(l));
    case Object(m) =>
      EscapeAppend([OPEN_BRACE] + StringifyMembers(m), [CLOSE_BRACE]);
      EscapeSymbol(OPEN_BRACE, StringifyMembers(m));
    case _ => EscapeKeeps(Stringify(v));
  }

  lemma {:induction false} ValueRoundTrip(v: Json, rest: text)
    requires Stops(rest)
    ensures ReadValue(EscapeControls(Stringify(v)) + rest) == Some(Read(v, rest))
    decreases v, 1
  {
    match v
    case Number(digits) => NumberRoundTrip(digits, rest);
    case Str(s) => StringRoundTrip(s, rest);
    case Array(l) => ArrayRoundTrip(l, rest);
    case Object(m) => ObjectRoundTrip(m, rest);
    case _ => WordRoundTrip(v, rest);
  }

  /** A bracketed text, passed, is the passed content between its brackets. */
  lemma Bracketed(left: unit, s: text, right: unit, rest: text)
    requires !IsControl(left) && !IsControl(right)
    ensures EscapeControls([left] + s + [right]) + rest == [left] + (EscapeControls(s) + ([right] + rest))
  {
    EscapeAppend([left] + s, [right]);
    EscapeSymbol(left, s);
    EscapeUnit(right);
  }

  lemma EmptyReads(rest: text)
    ensures ReadValue([OPEN_BRACKET] + ([CLOSE_BRACKET] + rest)) == Some(Read(Array(Nil), rest))
    ensures ReadValue([OPEN_BRACE] + ([CLOSE_BRACE] + rest)) == Some(Read(Object(NoMember), rest))
  {
    assert ([OPEN_BRACKET] + ([CLOSE_BRACKET] + rest))[2..] == rest;
    assert ([OPEN_BRACE] + ([CLOSE_BRACE] + rest))[2..] == rest;
  }

  lemma ArrayReads(x: text, l: List, rest: text)
    requires x != [] && x[0] != CLOSE_BRACKET && ReadElements(x) == Some(Read(l, rest))
    ensures ReadValue([OPEN_BRACKET] + x) == Some(Read(Array(l), rest))
  {
    assert ([OPEN_BRACKET] + x)[1..] == x;
  }

  lemma ObjectReads(x: text, m: Members, rest: text)
    requires x != [] && x[0] != CLOSE_BRACE && ReadMembers(x) == Some(Read(m, rest))
    ensures ReadValue([OPEN_BRACE] + x) == Some(Read(Object(m), rest))
  {
    assert ([OPEN_BRACE] + x)[1..] == x;
  }

  lemma {:induction false} ArrayRoundTrip(l: List, rest: text)
    ensures ReadValue(EscapeControls(Stringify(Array(l))) + rest) == Some(Read(Array(l), rest))
    decreases Array(l), 0
  {
    Bracketed(OPEN_BRACKET, StringifyList(l), CLOSE_BRACKET, rest);
    if l.Nil? {
      EmptyReads(rest);
      assert EscapeControls([]) + ([CLOSE_BRACKET] + rest) == [CLOSE_BRACKET] + rest;
    } else {
      ElementsRoundTrip(l, rest);
      FirstElement(l);
      ArrayReads(EscapeControls(StringifyList(l)) + ([CLOSE_BRACKET] + rest), l, rest);
    }
  }

  lemma FirstElement(l: List)
    requires l.Cons?
    ensures EscapeControls(StringifyList(l)) != [] && EscapeControls(StringifyList(l))[0] != CLOSE_BRACKET
  {
    FirstUnit(l.head);
    EscapeAppend(Stringify(l.head), if l.tail.Nil? then [] else [COMMA] + StringifyList(l.tail));
  }

  /** What is serialized after the first element, and its passed text with what follows the list. */
  function FollowElement(l: List): text
    requires l.Cons?
  {
    if l.tail.Nil? then [] else [COMMA] + StringifyList(l.tail)
  }

  function AfterElement(l: List, end: text): text
    requires l.Cons?
  {
    if l.tail.Nil? then end else [COMMA] + (EscapeControls(StringifyList(l.tail)) + end)
  }

  lemma FollowElementText(l: List, end: text)
    requires l.Cons?
    ensures EscapeControls(FollowElement(l)) + end == AfterElement(l, end)
  {
    if l.tail.Nil? {
      assert EscapeControls([]) + end == end;
    } else {
      EscapeSymbol(COMMA, StringifyList(l.tail));
    }
  }

  lemma Associate(a: text, b: text, c: text)
    ensures a + b + c == a + (b + c)
  {}

  lemma ElementsTextSplit(l: List, end: text)
    requires l.Cons?
    ensures EscapeControls(StringifyList(l)) + end == EscapeControls(Stringify(l.head)) + AfterElement(l, end)
  {
    EscapeAppend(Stringify(l.head), FollowElement(l));
    Associate(EscapeControls(Stringify(l.head)), EscapeControls(FollowElement(l)), end);
    FollowElementText(l, end);
  }

  lemma LastElementReads(t: text, v: Json, rest: text)
    requires ReadValue(t) == Some(Read(v, [CLOSE_BRACKET] + rest))
    ensures ReadElements(t) == Some(Read(Cons(v, Nil), rest))
  {
    assert ([CLOSE_BRACKET] + rest)[1..] == rest;
  }

  lemma ElementReads(t: text, v: Json, more: text, l: List, rest: text)
    requires ReadValue(t) == Some(Read(v, [COMMA] + more)) && ReadElements(more) == Some(Read(l, rest))
    ensures ReadElements(t) == Some(Read(Cons(v, l), rest))
  {
    assert ([COMMA] + more)[1..] == more;
  }

  lemma {:induction false} ElementsRoundTrip(l: List, rest: text)
    requires l.Cons?
    ensures ReadElements(EscapeControls(StringifyList(l)) + ([CLOSE_BRACKET] + rest)) == Some(Read(l, rest))
    decreases l, 0
  {
    var end := [CLOSE_BRACKET] + rest;
    var t := EscapeControls(StringifyList(l)) + end;
    ElementsTextSplit(l, end);
    ValueRoundTrip(l.head, AfterElement(l, end));
    if l.tail.Nil? {
      LastElementReads(t, l.head, rest);
    } else {
      ElementsRoundTrip(l.tail, rest);
      ElementReads(t, l.head, EscapeControls(StringifyList(l.tail)) + end, l.tail, rest);
    }
  }

  lemma {:induction false} ObjectRoundTrip(m: Members, rest: text)
    ensures ReadValue(EscapeControls(Stringify(Object(m))) + rest) == Some(Read(Object(m), rest))
    decreases Object(m), 0
  {
    Bracketed(OPEN_BRACE, StringifyMembers(m), CLOSE_BRACE, rest);
    if m.NoMember? {
      EmptyReads(rest);
      assert EscapeControls([]) + ([CLOSE_BRACE] + rest) == [CLOSE_BRACE] + rest;
    } else {
      MembersRoundTrip(m, rest);
      FirstMember(m);
      ObjectReads(EscapeControls(StringifyMembers(m)) + ([CLOSE_BRACE] + rest), m, rest);
    }
  }

  lemma FirstMember(m: Members)
    requires m.Member?
    ensures EscapeControls(StringifyMembers(m)) != [] && EscapeControls(StringifyMembers(m))[0] == QUOTE
  {
    var text_ := StringifyMembers(m);
    assert text_[0] == QUOTE;
    EscapeSymbol(QUOTE, text_[1..]);
    assert text_ == [QUOTE] + text_[1..];
  }

  lemma Regroup(a: text, b: text, c: text, d: text, e: text)
    ensures a + b + c + d + e == a + (b + (c + (d + e)))
  {}

  lemma EscapeFour(a: text, b: text, c: text, d: text)
    ensures EscapeControls(a + b + c + d)
            == EscapeControls(a) + EscapeControls(b) + EscapeControls(c) + EscapeControls(d)
  {
    EscapeAppend(a, b);
    EscapeAppend(a + b, c);
    EscapeAppend(a + b + c, d);
  }

  /** The text of a member with the given text after its value. */
  function MemberText(k: text, v: Json, after: text): text {
    EscapeControls(QuoteString(k)) + ([COLON] + (EscapeControls(Stringify(v)) + after))
  }

  lemma MemberPrefix(k: text, v: Json, after: text)
    ensures var t := MemberText(k, v, after);
            && t != [] && t[0] == QUOTE
            && ReadString(t[1..]) == Some(Read(k, [COLON] + (EscapeControls(Stringify(v)) + after)))
    ensures ([COLON] + (EscapeControls(Stringify(v)) + after))[1..] == EscapeControls(Stringify(v)) + after
  {
    StringRoundTrip(k, [COLON] + (EscapeControls(Stringify(v)) + after));
  }

  lemma LastMemberReads(k: text, v: Json, rest: text)
    requires ReadValue(EscapeControls(Stringify(v)) + ([CLOSE_BRACE] + rest)) == Some(Read(v, [CLOSE_BRACE] + rest))
    ensures ReadMembers(MemberText(k, v, [CLOSE_BRACE] + rest)) == Some(Read(Member(k, v, NoMember), rest))
  {
    MemberPrefix(k, v, [CLOSE_BRACE] + rest);
    assert ([CLOSE_BRACE] + rest)[1..] == rest;
  }

  lemma MemberReads(k: text, v: Json, more: text, m: Members, rest: text)
    requires ReadValue(EscapeControls(Stringify(v)) + ([COMMA] + more)) == Some(Read(v, [COMMA] + more))
    requires ReadMembers(more) == Some(Read(m, rest))
    ensures ReadMembers(MemberText(k, v, [COMMA] + more)) == Some(Read(Member(k, v, m), rest))
  {
    MemberPrefix(k, v, [COMMA] + more);
    assert ([COMMA] + more)[1..] == more;
  }

  /** The text of members, split after the first value. */
  function AfterValue(m: Members, end: text): text
    requires m.Member?
  {
    if m.rest.NoMember? then end else [COMMA] + (EscapeControls(StringifyMembers(m.rest)) + end)
  }

  /** What is serialized after the first value. */
  function Follow(m: Members): text
    requires m.Member?
  {
    if m.rest.NoMember? then [] else [COMMA] + StringifyMembers(m.rest)
  }

  lemma FollowText(m: Members, end: text)
    requires m.Member?
    ensures EscapeControls(Follow(m)) + end == AfterValue(m, end)
  {
    if m.rest.NoMember? {
      assert EscapeControls([]) + end == end;
    } else {
      EscapeSymbol(COMMA, StringifyMembers(m.rest));
    }
  }

  lemma MembersTextSplit(m: Members, end: text)
    requires m.Member?
    ensures EscapeControls(StringifyMembers(m)) + end == MemberText(m.key, m.value, AfterValue(m, end))
  {
    EscapeFour(QuoteString(m.key), [COLON], Stringify(m.value), Follow(m));
    EscapeUnit(COLON);
    Regroup(EscapeControls(QuoteString(m.key)), [COLON], EscapeControls(Stringify(m.value)), EscapeControls(Follow(m)),
        end);
    FollowText(m, end);
  }

  lemma {:induction false} MembersRoundTrip(m: Members, rest: text)
    requires m.Member?
    ensures ReadMembers(EscapeControls(StringifyMembers(m)) + ([CLOSE_BRACE] + rest)) == Some(Read(m, rest))
    decreases m, 0
  {
    var end := [CLOSE_BRACE] + rest;
    MembersTextSplit(m, end);
    ValueRoundTrip(m.value, AfterValue(m, end));
    if m.rest.NoMember? {
      LastMemberReads(m.key, m.value, rest);
    } else {
      MembersRoundTrip(m.rest, rest);
      MemberReads(m.key, m.value, EscapeControls(StringifyMembers(m.rest)) + end, m.rest, rest);
    }
  }

  /**
   * What is revealed is exactly what was stored: the emitted text reads back
   * as the payload, and holds no control character.
   */
  lemma RevealRoundTrip(v: Json)
    ensures ReadValue(EscapeControls(Stringify(v))) == Some(Read(v, []))
    ensures forall u | u in EscapeControls(Stringify(v)) :: 0x20 <= u <= 0x7e || 0xa0 <= u
  {
    ValueRoundTrip(v, []);
    assert EscapeControls(Stringify(v)) + [] == EscapeControls(Stringify(v));
    EscapeRemovesControls(Stringify(v));
  }
}
