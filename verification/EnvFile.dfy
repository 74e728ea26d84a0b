/** The strict .env reader: one KEY=value to a line, nothing unquoted or unescaped. */
module EnvFile {
  import opened Wrappers
  import opened Utf16

  const MAX_ENV_ENTRIES := 500
  const EXPORT: text := [101, 120, 112, 111, 114, 116, 32]

  datatype Entry = Entry(key: text, value: text)

  datatype Reason = Malformed | BadName | Repeated

  datatype Error = AtLine(line: nat, reason: Reason) | NoEntries | TooManyEntries

  function TrimLeft(s: text): text {
    if s != [] && IsSpace(s[0]) then TrimLeft(s[1..]) else s
  }

  function TrimRight(s: text): text {
    if s != [] && IsSpace(s[|s| - 1]) then TrimRight(s[..|s| - 1]) else s
  }

  function Trim(s: text): text {
    TrimRight(TrimLeft(s))
  }

  /** The position of the first u, or the length. */
  function IndexOf(s: text, u: unit): (k: nat)
    ensures k <= |s|
    ensures k < |s| ==> s[k] == u
    ensures forall i | 0 <= i < k :: s[i] != u
  {
    if s == [] || s[0] == u then 0 else 1 + IndexOf(s[1..], u)
  }

  function SplitLines(s: text): (r: seq<text>)
    ensures |r| > 0
  {
    var k := IndexOf(s, LF);
    if k == |s| then [s] else [s[..k]] + SplitLines(s[k + 1..])
  }

  predicate LegalName(key: text) {
    forall i | 0 <= i < |key| :: !IsSpace(key[i]) && key[i] >= 0x20 && key[i] != 0x7f
  }

  datatype Line = Ignored | Defines(entry: Entry) | Bad(reason: Reason)

  function StripReturn(raw: text): text {
    if raw != [] && raw[|raw| - 1] == CR then raw[..|raw| - 1] else raw
  }

  predicate StartsWith(s: text, p: text) {
    |p| <= |s| && s[..|p|] == p
  }

  /** A trimmed line that is neither empty nor a comment. */
  function ReadDefinition(trimmed: text): Line {
    var body := if StartsWith(trimmed, EXPORT) then trimmed[|EXPORT|..] else trimmed;
    var separator := IndexOf(body, EQUALS);
    if separator == |body| || separator == 0 then Bad(Malformed)
    else
      var key := Trim(body[..separator]);
      if !LegalName(key) then Bad(BadName) else Defines(Entry(key, StripReturn(body[separator + 1..])))
  }

  function ReadLine(raw: text): Line {
    var trimmed := Trim(StripReturn(raw));
    if trimmed == [] || trimmed[0] == HASH then Ignored else ReadDefinition(trimmed)
  }

  function Keys(entries: seq<Entry>): set<text> {
    set e | e in entries :: e.key
  }

  function Classify(lines: seq<text>): (r: seq<Line>)
    ensures |r| == |lines|
  {
    seq(|lines|, i requires 0 <= i < |lines| => ReadLine(lines[i]))
  }

  /** What one more line makes of the entries so far. */
  function AddLine(entries: seq<Entry>, line: Line, number: nat): Result<seq<Entry>, Error> {
    match line
    case Ignored => Ok(entries)
    case Bad(reason) => Err(AtLine(number, reason))
    case Defines(entry) => if entry.key in Keys(entries) then Err(AtLine(number, Repeated)) else Ok(entries + [entry])
  }

  /** The entries of some lines, or the first error with its line number. */
  function Collect(lines: seq<Line>): Result<seq<Entry>, Error> {
    if lines == [] then Ok([])
    else
      match Collect(lines[..|lines| - 1])
      case Err(e) => Err(e)
      case Ok(entries) => AddLine(entries, lines[|lines| - 1], |lines|)
  }

  function Accept(entries: seq<Entry>): Result<seq<Entry>, Error> {
    if entries == [] then Err(NoEntries)
    else if |entries| > MAX_ENV_ENTRIES then Err(TooManyEntries)
    else Ok(entries)
  }

  function Parse(content: text): Result<seq<Entry>, Error> {
    match Collect(Classify(SplitLines(content)))
    case Err(e) => Err(e)
    case Ok(entries) => Accept(entries)
  }

  lemma {:induction false} FirstErrorStays(lines: seq<Line>, k: nat)
    requires k <= |lines| && Collect(lines[..k]).Err?
    ensures Collect(lines) == Collect(lines[..k])
    decreases |lines|
  {
    if k == |lines| {
      assert lines[..k] == lines;
    } else {
      assert lines[..|lines| - 1][..k] == lines[..k];
      FirstErrorStays(lines[..|lines| - 1], k);
    }
  }

  lemma CollectStep(lines: seq<Line>, index: nat, entries: seq<Entry>)
    requires index < |lines| && Collect(lines[..index]) == Ok(entries)
    ensures Collect(lines[..index + 1]) == AddLine(entries, lines[index], index + 1)
    ensures AddLine(entries, lines[index], index + 1).Err? ==>
            Collect(lines) == AddLine(entries, lines[index], index + 1)
  {
    assert lines[..index + 1][..index] == lines[..index];
    if Collect(lines[..index + 1]).Err? { FirstErrorStays(lines, index + 1); }
  }

  lemma KeysSnoc(entries: seq<Entry>, e: Entry)
    ensures Keys(entries + [e]) == Keys(entries) + {e.key}
  {
    assert forall x :: x in entries + [e] <==> x in entries || x == e;
  }

  method ParseEnvDocument(content: text) returns (r: Result<seq<Entry>, Error>)
    ensures r == Parse(content)
  {
    var lines := SplitLines(content);
    ghost var meanings := Classify(lines);
    var entries: seq<Entry> := [];
    var seen: set<text> := {};
    for index := 0 to |lines|
      invariant Collect(meanings[..index]) == Ok(entries)
      invariant seen == Keys(entries)
    {
      CollectStep(meanings, index, entries);
      var line := ReadLine(lines[index]);
      assert line == meanings[index];
      match line {
        case Ignored =>
        case Bad(reason) =>
          return Err(AtLine(index + 1, reason));
        case Defines(entry) =>
          if entry.key in seen { return Err(AtLine(index + 1, Repeated)); }
          KeysSnoc(entries, entry);
          seen := seen + {entry.key};
          entries := entries + [entry];
      }
    }
    assert meanings[..|lines|] == meanings;
    if |entries| == 0 { return Err(NoEntries); }
    if |entries| > MAX_ENV_ENTRIES { return Err(TooManyEntries); }
    return Ok(entries);
  }

  // ------------------------------------------------------------- what decides

  /** What the lines say, without blank lines and comments. */
  function Meanings(lines: seq<Line>): seq<Line> {
    if lines == [] then []
    else (if lines[0].Ignored? then [] else [lines[0]]) + Meanings(lines[1..])
  }

  function FromMeanings(meanings: seq<Line>): Option<seq<Entry>> {
    if meanings == [] then Some([])
    else Extend(FromMeanings(meanings[..|meanings| - 1]), meanings[|meanings| - 1])
  }

  lemma {:induction false} MeaningsAppend(a: seq<Line>, b: seq<Line>)
    ensures Meanings(a + b) == Meanings(a) + Meanings(b)
  {
    if a == [] {
      assert a + b == b;
    } else {
      assert (a + b)[1..] == a[1..] + b;
      MeaningsAppend(a[1..], b);
    }
  }

  lemma MeaningsOne(line: Line)
    ensures Meanings([line]) == if line.Ignored? then [] else [line]
  {
    assert [line][1..] == [];
  }

  /** The meanings so far and one more line. */
  function Extend(entries: Option<seq<Entry>>, line: Line): Option<seq<Entry>> {
    if entries.None? || !line.Defines? || line.entry.key in Keys(entries.value) then None
        else Some(entries.value + [line.entry])
  }

  lemma MeaningsSnoc(lines: seq<Line>)
    requires lines != []
    ensures var init, last := lines[..|lines| - 1], lines[|lines| - 1];
            FromMeanings(Meanings(lines))
            == if last.Ignored? then FromMeanings(Meanings(init)) else Extend(FromMeanings(Meanings(init)), last)
  {
    var init, last := lines[..|lines| - 1], lines[|lines| - 1];
    assert lines == init + [last];
    MeaningsAppend(init, [last]);
    MeaningsOne(last);
    assert Meanings(init) + [] == Meanings(init);
    assert (Meanings(init) + [last])[..|Meanings(init)|] == Meanings(init);
  }

  lemma {:induction false} CollectIsFromMeanings(lines: seq<Line>)
    ensures FromMeanings(Meanings(lines)) == if Collect(lines).Ok? then Some(Collect(lines).value) else None
  {
    if lines == [] {
    } else {
      CollectIsFromMeanings(lines[..|lines| - 1]);
      MeaningsSnoc(lines);
    }
  }

  /** Two documents whose lines mean the same give the same entries, or are both refused. */
  lemma SameMeanings(a: text, b: text)
    requires Meanings(Classify(SplitLines(a))) == Meanings(Classify(SplitLines(b)))
    ensures Parse(a).Ok? <==> Parse(b).Ok?
    ensures Parse(a).Ok? ==> Parse(a) == Parse(b)
  {
    CollectIsFromMeanings(Classify(SplitLines(a)));
    CollectIsFromMeanings(Classify(SplitLines(b)));
  }

  predicate AllSpace(s: text) {
    forall i | 0 <= i < |s| :: IsSpace(s[i])
  }

  lemma {:induction false} TrimLeftSkips(a: text, s: text)
    requires AllSpace(a)
    ensures TrimLeft(a + s) == TrimLeft(s)
  {
    if a == [] {
      assert a + s == s;
    } else {
      assert (a + s)[1..] == a[1..] + s;
      TrimLeftSkips(a[1..], s);
    }
  }

  lemma {:induction false} TrimRightSkips(s: text, b: text)
    requires AllSpace(b)
    ensures TrimRight(s + b) == TrimRight(s)
    decreases |b|
  {
    if b == [] {
      assert s + b == s;
    } else {
      assert (s + b)[..|s + b| - 1] == s + b[..|b| - 1];
      TrimRightSkips(s, b[..|b| - 1]);
    }
  }

  /** Splitting off what trimming on the left removes. */
  lemma {:induction false} TrimLeftSplits(s: text) returns (a: text)
    ensures AllSpace(a) && s == a + TrimLeft(s) && (TrimLeft(s) == [] || !IsSpace(TrimLeft(s)[0]))
  {
    if s == [] || !IsSpace(s[0]) {
      a := [];
    } else {
      var rest := TrimLeftSplits(s[1..]);
      a := [s[0]] + rest;
    }
  }

  lemma TrimBoth(a: text, s: text, b: text)
    requires AllSpace(a) && AllSpace(b)
    ensures Trim(a + s + b) == Trim(s)
  {
    assert a + s + b == a + (s + b);
    TrimLeftSkips(a, s + b);
    var x := TrimLeftSplits(s);
    var t := TrimLeft(s);
    assert s + b == x + (t + b);
    TrimLeftSkips(x, t + b);
    if t == [] {
      assert t + b == b && b == b + [];
      TrimLeftSkips(b, []);
    } else {
      assert (t + b)[0] == t[0];
      TrimRightSkips(t, b);
    }
  }

  lemma StripReturnTrims(s: text)
    ensures Trim(StripReturn(s)) == Trim(s)
  {
    if s != [] && s[|s| - 1] == CR {
      TrimBoth([], StripReturn(s), [CR]);
      assert [] + StripReturn(s) + [CR] == s;
    }
  }

  /** White space around a line, carriage returns included, changes nothing. */
  lemma PaddingIsIgnored(a: text, line: text, b: text)
    requires AllSpace(a) && AllSpace(b)
    ensures ReadLine(a + line + b) == ReadLine(line)
  {
    StripReturnTrims(a + line + b);
    StripReturnTrims(line);
    TrimBoth(a, line, b);
  }

  /** Blank lines and comments mean nothing. */
  lemma BlanksAndComments(a: text, comment: text)
    requires AllSpace(a)
    ensures ReadLine(a) == Ignored && ReadLine(a + [HASH] + comment) == Ignored
  {
    PaddingIsIgnored(a, [], []);
    assert a + [] + [] == a;
    assert ReadLine([]) == Ignored;
    var line := [HASH] + comment;
    assert a + [HASH] + comment == a + line + [];
    PaddingIsIgnored(a, line, []);
    StripReturnTrims(line);
    TrimRightKeepsHead(line);
  }

  lemma {:induction false} TrimRightKeepsHead(s: text)
    requires s != [] && !IsSpace(s[0])
    ensures TrimRight(s) != [] && TrimRight(s)[0] == s[0]
  {
    if IsSpace(s[|s| - 1]) { TrimRightKeepsHead(s[..|s| - 1]); }
  }

  /** A line is ready when it is trimmed, is no comment and has no export prefix yet. */
  predicate Ready(line: text) {
    line != [] && Trim(line) == line && line[0] != HASH && !StartsWith(line, EXPORT)
  }

  lemma {:induction false} TrimRightAfter(a: text, s: text)
    requires s != [] && TrimRight(s) == s
    ensures TrimRight(a + s) == a + s
  {
    TrimRightShrinks(s);
    assert (a + s)[|a + s| - 1] == s[|s| - 1];
  }

  lemma {:induction false} TrimRightShrinks(s: text)
    ensures |TrimRight(s)| <= |s|
    ensures s != [] && IsSpace(s[|s| - 1]) ==> TrimRight(s) != s
  {
    if s != [] && IsSpace(s[|s| - 1]) { TrimRightShrinks(s[..|s| - 1]); }
  }

  lemma TrimmedEnds(line: text)
    requires line != [] && Trim(line) == line
    ensures !IsSpace(line[0]) && TrimRight(line) == line
  {
    var a := TrimLeftSplits(line);
    TrimRightShrinks(TrimLeft(line));
    assert |TrimLeft(line)| == |line|;
    assert a == [];
    assert line == [] + TrimLeft(line);
  }

  /** An export prefix changes nothing on a line that has none. */
  lemma ExportIsIgnored(line: text)
    requires Ready(line)
    ensures ReadLine(EXPORT + line) == ReadLine(line)
  {
    TrimmedEnds(line);
    var long := EXPORT + line;
    StripReturnTrims(long);
    StripReturnTrims(line);
    TrimRightAfter(EXPORT, line);
    assert TrimLeft(long) == long;
    assert long[..|EXPORT|] == EXPORT && long[|EXPORT|..] == line;
    var body := line;
    assert ReadDefinition(long) == ReadDefinition(line);
  }

  // --------------------------------------------------------------- round trip

  /** Anything printable in ASCII, and beyond it anything but DEL and white space. */
  predicate NameUnit(u: unit) {
    0x21 <= u <= 0x7e || (u >= 0x80 && u !in WHITE)
  }

  /** A name is accepted exactly when it consists of such units. */
  lemma LegalNameIff(key: text)
    ensures LegalName(key) <==> forall i | 0 <= i < |key| :: NameUnit(key[i])
  {
    forall i | 0 <= i < |key| ensures NameUnit(key[i]) <==> !IsSpace(key[i]) && key[i] >= 0x20 && key[i] != 0x7f {
      NameUnitIff(key[i]);
    }
  }

  lemma NameUnitIff(u: unit)
    ensures NameUnit(u) <==> !IsSpace(u) && u >= 0x20 && u != 0x7f
  {
    IsSpaceIff(u);
  }

  /** A key that can stand at the start of a line. */
  predicate LegalKey(key: text) {
    && key != [] && key[0] != HASH
    && forall i | 0 <= i < |key| :: key[i] != EQUALS && NameUnit(key[i])
  }

  lemma LegalKeyIsName(key: text)
    requires LegalKey(key)
    ensures LegalName(key) && EQUALS !in key && !IsSpace(key[0])
  {
    LegalNameIff(key);
  }

  function PrintEntry(e: Entry): text {
    e.key + [EQUALS] + e.value
  }

  /** An entry as it is read back. */
  function Trimmed(e: Entry): Entry {
    Entry(e.key, TrimRight(e.value))
  }

  lemma {:induction false} TrimRightSplits(s: text) returns (b: text)
    ensures AllSpace(b) && s == TrimRight(s) + b
    ensures TrimRight(TrimRight(s)) == TrimRight(s)
    ensures TrimRight(s) != [] ==> !IsSpace(TrimRight(s)[|TrimRight(s)| - 1])
  {
    if s == [] || !IsSpace(s[|s| - 1]) {
      b := [];
    } else {
      var rest := TrimRightSplits(s[..|s| - 1]);
      b := rest + [s[|s| - 1]];
    }
  }

  lemma PrintedIsReady(key: text, value: text)
    requires LegalKey(key) && TrimRight(value) == value
    ensures Ready(key + [EQUALS] + value)
  {
    var line := key + [EQUALS] + value;
    LegalKeyIsName(key);
    assert line[0] == key[0] && TrimLeft(line) == line;
    if value == [] {
      assert line[|line| - 1] == EQUALS;
    } else {
      TrimRightAfter(key + [EQUALS], value);
    }
    if |line| >= |EXPORT| {
      var k := if |key| <= 6 then |key| else 6;
      assert line[k] != EXPORT[k];
      assert line[..|EXPORT|][k] == line[k];
    }
  }

  lemma {:induction false} IndexOfAfter(a: text, u: unit, b: text)
    requires u !in a
    ensures IndexOf(a + [u] + b, u) == |a|
  {
    if a == [] {
    } else {
      assert (a + [u] + b)[1..] == a[1..] + [u] + b;
      IndexOfAfter(a[1..], u, b);
    }
  }

  lemma {:induction false} TrimNothing(s: text)
    requires LegalName(s)
    ensures Trim(s) == s
  {}

  lemma PrintedDefinition(key: text, value: text)
    requires LegalKey(key) && (value != [] ==> value[|value| - 1] != CR)
    requires !StartsWith(key + [EQUALS] + value, EXPORT)
    ensures ReadDefinition(key + [EQUALS] + value) == Defines(Entry(key, value))
  {
    var line := key + [EQUALS] + value;
    LegalKeyIsName(key);
    IndexOfAfter(key, EQUALS, value);
    TrimNothing(key);
    assert line[..|key|] == key && line[|key| + 1..] == value;
  }

  lemma PrintedDefines(key: text, value: text)
    requires LegalKey(key) && TrimRight(value) == value
    ensures ReadLine(key + [EQUALS] + value) == Defines(Entry(key, value))
  {
    PrintedIsReady(key, value);
    StripReturnTrims(key + [EQUALS] + value);
    TrimRightShrinks(value);
    PrintedDefinition(key, value);
  }

  /** A document may also hold blank lines, comments, indentation, trailing space and export prefixes. */
  datatype Row = Blank(space: text) | Comment(space: text, words: text)
      | Assign(left: text, exported: bool, entry: Entry, right: text)

  predicate LegalRow(r: Row) {
    match r
    case Blank(space) => AllSpace(space) && LF !in space
    case Comment(space, words) => AllSpace(space) && LF !in space && LF !in words
    case Assign(left, _, e, right) =>
      AllSpace(left) && AllSpace(right) && LF !in left && LF !in right && LegalKey(e.key) && LF !in e.value
  }

  function RowText(r: Row): text {
    match r
    case Blank(space) => space
    case Comment(space, words) => space + [HASH] + words
    case Assign(left, exported, e, right) => left + ((if exported then EXPORT else []) + PrintEntry(e)) + right
  }

  /** Every row ends in a line feed. */
  function Render(rows: seq<Row>): text {
    if rows == [] then [] else RowText(rows[0]) + [LF] + Render(rows[1..])
  }

  function Entries(rows: seq<Row>): seq<Entry> {
    if rows == [] then []
    else (if rows[0].Assign? then [rows[0].entry] else []) + Entries(rows[1..])
  }

  function Meaning(r: Row): seq<Line> {
    if r.Assign? then [Defines(Trimmed(r.entry))] else []
  }

  lemma ReadyMeans(left: text, exported: bool, line: text, right: text)
    requires AllSpace(left) && AllSpace(right) && Ready(line)
    ensures ReadLine(left + ((if exported then EXPORT else []) + line) + right) == ReadLine(line)
  {
    if exported { ExportIsIgnored(line); } else { assert [] + line == line; }
    PaddingIsIgnored(left, (if exported then EXPORT else []) + line, right);
  }

  lemma MoveTail(left: text, prefix: text, a: text, value: text, tail: text, right: text)
    ensures left + (prefix + (a + (value + tail))) + right == left + (prefix + (a + value)) + (tail + right)
  {}

  lemma AssignMeans(left: text, exported: bool, e: Entry, right: text)
    requires AllSpace(left) && AllSpace(right) && LegalKey(e.key)
    ensures ReadLine(RowText(Assign(left, exported, e, right))) == Defines(Trimmed(e))
  {
    var tail := TrimRightSplits(e.value);
    var value := TrimRight(e.value);
    PrintedDefines(e.key, value);
    PrintedIsReady(e.key, value);
    ReadyMeans(left, exported, e.key + [EQUALS] + value, tail + right);
    MoveTail(left, if exported then EXPORT else [], e.key + [EQUALS], value, tail, right);
  }

  lemma RowMeans(r: Row)
    requires LegalRow(r)
    ensures Meanings([ReadLine(RowText(r))]) == Meaning(r)
  {
    MeaningsOne(ReadLine(RowText(r)));
    match r
    case Blank(space) => BlanksAndComments(space, []);
    case Comment(space, words) => BlanksAndComments(space, words);
    case Assign(left, exported, e, right) => AssignMeans(left, exported, e, right);
  }

  lemma RowHasNoLf(r: Row)
    requires LegalRow(r)
    ensures LF !in RowText(r)
  {
    match r
    case Blank(_) =>
    case Comment(_, _) =>
    case Assign(left, exported, e, right) =>
      assert LF !in e.key;
      assert LF !in PrintEntry(e);
  }

  lemma SplitRow(line: text, rest: text)
    requires LF !in line
    ensures SplitLines(line + [LF] + rest) == [line] + SplitLines(rest)
  {
    IndexOfAfter(line, LF, rest);
    var s := line + [LF] + rest;
    assert s[..|line|] == line && s[|line| + 1..] == rest;
  }

  lemma ClassifyFirst(line: text, rest: seq<text>)
    ensures Classify([line] + rest) == [ReadLine(line)] + Classify(rest)
  {}

  lemma {:induction false} RenderMeans(rows: seq<Row>)
    requires forall i | 0 <= i < |rows| :: LegalRow(rows[i])
    ensures Meanings(Classify(SplitLines(Render(rows)))) == Definitions(Entries(rows))
  {
    if rows == [] {
      assert SplitLines([]) == [[]] + [];
      ClassifyFirst([], []);
      RowMeans(Blank([]));
      assert Classify([[]]) == [ReadLine([])];
    } else {
      var rest := SplitLines(Render(rows[1..]));
      RowHasNoLf(rows[0]);
      SplitRow(RowText(rows[0]), Render(rows[1..]));
      ClassifyFirst(RowText(rows[0]), rest);
      MeaningsAppend([ReadLine(RowText(rows[0]))], Classify(rest));
      RowMeans(rows[0]);
      RenderMeans(rows[1..]);
      DefinitionsFirst(rows);
    }
  }

  lemma DefinitionsFirst(rows: seq<Row>)
    requires rows != []
    ensures Definitions(Entries(rows)) == Meaning(rows[0]) + Definitions(Entries(rows[1..]))
  {}

  function Definitions(entries: seq<Entry>): (r: seq<Line>)
    ensures |r| == |entries|
  {
    seq(|entries|, i requires 0 <= i < |entries| => Defines(Trimmed(entries[i])))
  }

  function AllTrimmed(entries: seq<Entry>): (r: seq<Entry>)
    ensures |r| == |entries|
  {
    seq(|entries|, i requires 0 <= i < |entries| => Trimmed(entries[i]))
  }

  predicate DistinctKeys(entries: seq<Entry>) {
    forall i, j | 0 <= i < j < |entries| :: entries[i].key != entries[j].key
  }

  lemma {:induction false} DefinitionsRead(entries: seq<Entry>)
    requires DistinctKeys(entries)
    ensures FromMeanings(Definitions(entries)) == Some(AllTrimmed(entries))
  {
    if entries == [] {
    } else {
      var init, last := entries[..|entries| - 1], entries[|entries| - 1];
      DefinitionsRead(init);
      assert Definitions(entries)[..|entries| - 1] == Definitions(init);
      assert AllTrimmed(entries) == AllTrimmed(init) + [Trimmed(last)];
      forall e | e in AllTrimmed(init) ensures e.key != last.key {}
    }
  }

  /**
   * A document with any mixture of blank lines, comments, indentation, export
   * prefixes and trailing space parses to its entries in order, each value
   * without trailing white space.
   */
  lemma RenderParses(rows: seq<Row>)
    requires forall i | 0 <= i < |rows| :: LegalRow(rows[i])
    requires DistinctKeys(Entries(rows)) && 0 < |Entries(rows)| <= MAX_ENV_ENTRIES
    ensures Parse(Render(rows)) == Ok(AllTrimmed(Entries(rows)))
  {
    RenderMeans(rows);
    DefinitionsRead(Entries(rows));
    CollectIsFromMeanings(Classify(SplitLines(Render(rows))));
  }

  function PlainRows(entries: seq<Entry>): seq<Row> {
    seq(|entries|, i requires 0 <= i < |entries| => Assign([], false, entries[i], []))
  }

  lemma {:induction false} PlainEntries(entries: seq<Entry>)
    ensures Entries(PlainRows(entries)) == entries
  {
    if entries == [] {
    } else {
      assert PlainRows(entries)[1..] == PlainRows(entries[1..]);
      PlainEntries(entries[1..]);
    }
  }

  /** Printing and parsing gives the entries back exactly when no value ends in white space. */
  lemma RoundTripIff(entries: seq<Entry>)
    requires forall i | 0 <= i < |entries| :: LegalKey(entries[i].key) && LF !in entries[i].value
    requires DistinctKeys(entries) && 0 < |entries| <= MAX_ENV_ENTRIES
    ensures Parse(Render(PlainRows(entries))) == Ok(entries)
            <==> forall i | 0 <= i < |entries| ::
                entries[i].value == [] || !IsSpace(entries[i].value[|entries[i].value| - 1])
  {
    PlainEntries(entries);
    RenderParses(PlainRows(entries));
    forall i | 0 <= i < |entries|
      ensures AllTrimmed(entries)[i] == entries[i]
              <==> entries[i].value == [] || !IsSpace(entries[i].value[|entries[i].value| - 1])
    {
      TrimRightShrinks(entries[i].value);
    }
    if forall i | 0 <= i < |entries| :: AllTrimmed(entries)[i] == entries[i] {
      assert AllTrimmed(entries) == entries;
    }
  }

  /**
   * The check against an empty name looks at the text before the separator, so
   * it misses a name made of white space, which only an export prefix with
   * more white space behind it can leave there.
   */
  lemma EmptyNameIff(raw: text)
    requires !ReadLine(raw).Ignored?
    ensures ReadLine(raw).Defines? && ReadLine(raw).entry.key == []
            <==> && var t := Trim(StripReturn(raw));
                 && StartsWith(t, EXPORT)
                 && var k := IndexOf(t[|EXPORT|..], EQUALS);
                    0 < k < |t[|EXPORT|..]| && AllSpace(t[|EXPORT|..][..k])
  {
    var t := Trim(StripReturn(raw));
    TrimmedHead(StripReturn(raw));
    EmptyDefinitionIff(t);
  }

  lemma TrimmedHead(s: text)
    ensures Trim(s) != [] ==> !IsSpace(Trim(s)[0])
  {
    var a := TrimLeftSplits(s);
    var b := TrimRightSplits(TrimLeft(s));
    if Trim(s) != [] { assert TrimLeft(s)[0] == Trim(s)[0]; }
  }

  lemma EmptyDefinitionIff(t: text)
    requires t != [] && !IsSpace(t[0])
    ensures ReadDefinition(t).Defines? && ReadDefinition(t).entry.key == []
            <==> && StartsWith(t, EXPORT)
                 && var k := IndexOf(t[|EXPORT|..], EQUALS);
                    0 < k < |t[|EXPORT|..]| && AllSpace(t[|EXPORT|..][..k])
  {
    var body := if StartsWith(t, EXPORT) then t[|EXPORT|..] else t;
    var k := IndexOf(body, EQUALS);
    TrimEmptyIff(body[..k]);
    if 0 < k < |body| { assert body[..k][0] == body[0]; }
  }

  lemma TrimEmptyIff(s: text)
    ensures Trim(s) == [] <==> AllSpace(s)
  {
    var a := TrimLeftSplits(s);
    var b := TrimRightSplits(TrimLeft(s));
    if TrimLeft(s) != [] {
      TrimRightKeepsHead(TrimLeft(s));
      assert s[|a|] == TrimLeft(s)[0];
    } else {
      assert s == a;
    }
  }

  // ------------------------------------------------------- what a document yields

  /** What follows an export prefix, or the whole line. */
  function Body(trimmed: text): text {
    if |trimmed| >= 7 && trimmed[..7] == [101, 120, 112, 111, 114, 116, 32] then trimmed[7..] else trimmed
  }

  /** Why a definition is refused: no name before a separator, or a name with a character that is no name unit. */
  lemma DefinitionRefusedIff(trimmed: text)
    ensures var body := Body(trimmed);
            && (ReadDefinition(trimmed) == Bad(Malformed) <==> EQUALS !in body || body[0] == EQUALS)
            && (ReadDefinition(trimmed) == Bad(BadName)
                <==> exists k | 0 < k < |body| ::
                  body[k] == EQUALS && EQUALS !in body[..k] && exists u :: u in Trim(body[..k]) && !NameUnit(u))
            && ReadDefinition(trimmed) !in {Ignored, Bad(Repeated)}
  {
    var body := Body(trimmed);
    var k := IndexOf(body, EQUALS);
    LegalNameIff(Trim(body[..k]));
    assert k == |body| ==> EQUALS !in body;
    if 0 < k < |body| {
      assert body[k] == EQUALS && EQUALS !in body[..k];
      forall j | 0 <= j < |body| && body[j] == EQUALS && EQUALS !in body[..j] ensures j == k {
        assert forall i | 0 <= i < j :: body[i] == body[..j][i];
      }
    }
  }

  /** An entry as a document can give it. */
  predicate Usable(e: Entry) {
    && (forall i | 0 <= i < |e.key| :: e.key[i] != EQUALS && NameUnit(e.key[i]))
    && LF !in e.value && (e.value != [] ==> !IsSpace(e.value[|e.value| - 1]))
  }

  lemma TrimWithin(s: text) returns (a: text, b: text)
    ensures s == a + Trim(s) + b && (Trim(s) != [] ==> !IsSpace(Trim(s)[|Trim(s)| - 1]))
  {
    a := TrimLeftSplits(s);
    b := TrimRightSplits(TrimLeft(s));
    assert a + Trim(s) + b == a + (Trim(s) + b);
  }

  lemma DefinedIsUsable(raw: text)
    requires LF !in raw && ReadLine(raw).Defines?
    ensures Usable(ReadLine(raw).entry)
  {
    StripReturnTrims(raw);
    var a, b := TrimWithin(raw);
    forall i | 0 <= i < |Trim(raw)| ensures Trim(raw)[i] != LF { assert raw[|a| + i] == Trim(raw)[i]; }
    DefinitionIsUsable(Trim(raw));
  }

  lemma NameIsUsable(name: text)
    requires EQUALS !in name && LegalName(Trim(name))
    ensures forall i | 0 <= i < |Trim(name)| :: Trim(name)[i] != EQUALS && NameUnit(Trim(name)[i])
  {
    var a, b := TrimWithin(name);
    forall i | 0 <= i < |Trim(name)| ensures Trim(name)[i] != EQUALS {
      assert name[|a| + i] == Trim(name)[i];
    }
    LegalNameIff(Trim(name));
  }

  lemma ValueIsUsable(value: text)
    requires LF !in value && (value != [] ==> !IsSpace(value[|value| - 1]))
    ensures StripReturn(value) == value && LF !in StripReturn(value)
  {
    assert IsSpace(CR);
  }

  lemma DefinitionIsUsable(t: text)
    requires t != [] && LF !in t && !IsSpace(t[|t| - 1]) && ReadDefinition(t).Defines?
    ensures Usable(ReadDefinition(t).entry)
  {
    var body := Body(t);
    var k := IndexOf(body, EQUALS);
    assert body != [] ==> body[|body| - 1] == t[|t| - 1];
    NameIsUsable(body[..k]);
    ValueIsUsable(body[k + 1..]);
  }

  lemma {:induction false} LinesHaveNoLf(s: text)
    ensures forall i | 0 <= i < |SplitLines(s)| :: LF !in SplitLines(s)[i]
  {
    var k := IndexOf(s, LF);
    if k < |s| {
      LinesHaveNoLf(s[k + 1..]);
    }
  }

  lemma {:induction false} CollectedPass(lines: seq<Line>, test: Entry -> bool)
    requires forall i | 0 <= i < |lines| && lines[i].Defines? :: test(lines[i].entry)
    ensures Collect(lines).Ok? ==>
              var entries := Collect(lines).value;
              DistinctKeys(entries) && forall i | 0 <= i < |entries| :: test(entries[i])
  {
    if lines == [] {
    } else {
      CollectedPass(lines[..|lines| - 1], test);
      var before := Collect(lines[..|lines| - 1]);
      if before.Ok? {
        forall i | 0 <= i < |before.value| ensures before.value[i].key in Keys(before.value) {
          assert before.value[i] in before.value;
        }
      }
    }
  }

  /** Whatever a document yields is between 1 and 500 entries with distinct, legal names and trimmed values. */
  lemma ParsedAreUsable(content: text)
    ensures Parse(content).Ok? ==>
              var entries := Parse(content).value;
              1 <= |entries| <= 500 && DistinctKeys(entries) && forall i | 0 <= i < |entries| :: Usable(entries[i])
  {
    var raw := SplitLines(content);
    LinesHaveNoLf(content);
    forall i | 0 <= i < |raw| && Classify(raw)[i].Defines? ensures Usable(Classify(raw)[i].entry) {
      DefinedIsUsable(raw[i]);
    }
    CollectedPass(Classify(raw), e => Usable(e));
  }

  /** An entry whose own line reads as a definition. */
  predicate ReadsBack(e: Entry) {
    e.key != [] && e.key[0] != HASH
  }

  lemma PrintedReadsBack(e: Entry)
    requires Usable(e)
    ensures var line := ReadLine(PrintEntry(e)); line.Defines? ==> ReadsBack(line.entry)
  {
    TrimRightShrinks(e.value);
    if ReadsBack(e) {
      PrintedDefines(e.key, e.value);
    } else {
      PrintedIsNone(e);
    }
  }

  lemma PrintedIsNone(e: Entry)
    requires Usable(e) && !ReadsBack(e)
    ensures !ReadLine(PrintEntry(e)).Defines?
  {
    var line := PrintEntry(e);
    StripReturnTrims(line);
    assert line[0] == (if e.key == [] then EQUALS else HASH) && !IsSpace(line[0]);
    assert TrimLeft(line) == line;
    TrimRightKeepsHead(line);
  }

  lemma PrintedHasNoLf(e: Entry)
    requires Usable(e)
    ensures LF !in PrintEntry(e)
  {
    assert LF !in e.key;
  }

  ghost predicate PrintedFrom(l: text, entries: seq<Entry>) {
    l == [] || exists i | 0 <= i < |entries| :: l == PrintEntry(entries[i])
  }

  lemma FirstPrinted(entries: seq<Entry>)
    requires entries != [] && Usable(entries[0])
    ensures SplitLines(Render(PlainRows(entries)))
            == [PrintEntry(entries[0])] + SplitLines(Render(PlainRows(entries[1..])))
  {
    RenderFirst(entries);
    PrintedHasNoLf(entries[0]);
    SplitRow(PrintEntry(entries[0]), Render(PlainRows(entries[1..])));
  }

  lemma RenderFirst(entries: seq<Entry>)
    requires entries != []
    ensures Render(PlainRows(entries)) == PrintEntry(entries[0]) + [LF] + Render(PlainRows(entries[1..]))
  {
    var rows := PlainRows(entries);
    assert rows[1..] == PlainRows(entries[1..]);
    assert RowText(rows[0]) == [] + ([] + PrintEntry(entries[0])) + [] == PrintEntry(entries[0]);
  }

  lemma PrintedFromMore(l: text, entries: seq<Entry>)
    requires entries != [] && PrintedFrom(l, entries[1..])
    ensures PrintedFrom(l, entries)
  {
    if l != [] {
      var i :| 0 <= i < |entries[1..]| && l == PrintEntry(entries[1..][i]);
      assert entries[1..][i] == entries[i + 1];
    }
  }

  lemma {:induction false} PrintedLines(entries: seq<Entry>)
    requires forall i | 0 <= i < |entries| :: Usable(entries[i])
    ensures forall i | 0 <= i < |SplitLines(Render(PlainRows(entries)))| ::
              PrintedFrom(SplitLines(Render(PlainRows(entries)))[i], entries)
  {
    if entries == [] {
    } else {
      var lines, rest := SplitLines(Render(PlainRows(entries))), SplitLines(Render(PlainRows(entries[1..])));
      PrintedLines(entries[1..]);
      FirstPrinted(entries);
      forall i | 0 <= i < |lines| ensures PrintedFrom(lines[i], entries) {
        if i > 0 {
          assert lines[i] == rest[i - 1];
          PrintedFromMore(lines[i], entries);
        } else {
          assert lines[i] == PrintEntry(entries[0]);
        }
      }
    }
  }

  lemma ReprintsOnlyIf(entries: seq<Entry>)
    requires forall i | 0 <= i < |entries| :: Usable(entries[i])
    requires Parse(Render(PlainRows(entries))) == Ok(entries)
    ensures forall i | 0 <= i < |entries| :: ReadsBack(entries[i])
  {
    var lines := SplitLines(Render(PlainRows(entries)));
    PrintedLines(entries);
    forall i | 0 <= i < |lines| && Classify(lines)[i].Defines? ensures ReadsBack(Classify(lines)[i].entry) {
      if lines[i] == [] {
        BlanksAndComments([], []);
      } else {
        var k :| 0 <= k < |entries| && lines[i] == PrintEntry(entries[k]);
        PrintedReadsBack(entries[k]);
      }
    }
    CollectedPass(Classify(lines), e => ReadsBack(e));
  }

  /**
   * Printing what was parsed and parsing it again gives the same entries
   * exactly when no name is empty or starts like a comment; only an export
   * prefix lets such a name through.
   */
  lemma ReprintsIff(content: text)
    ensures Parse(content).Ok? ==>
              var entries := Parse(content).value;
              Parse(Render(PlainRows(entries))) == Ok(entries)
              <==> forall i | 0 <= i < |entries| :: entries[i].key != [] && entries[i].key[0] != HASH
  {
    ParsedAreUsable(content);
    if Parse(content).Ok? {
      var entries := Parse(content).value;
      if forall i | 0 <= i < |entries| :: ReadsBack(entries[i]) {
        RoundTripIff(entries);
      } else if Parse(Render(PlainRows(entries))) == Ok(entries) {
        ReprintsOnlyIf(entries);
      }
    }
  }
}
