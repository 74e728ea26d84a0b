/**
 * Name patterns: a glob compiled to regular expression text, and the plain
 * substring search used when a pattern has no wildcard.
 */
module Glob {
  import opened Wrappers
  import opened Utf16

  const STAR: nat := 42
  const QUESTION: nat := 63
  const DOT: nat := 46
  const CARET: nat := 94
  const DOLLAR: nat := 36
  const ESCAPE: nat := 92

  // ------------------------------------------------------------------ the glob

  /** A star matches any run of code points, a question mark any single one. */
  predicate Matches(pattern: seq<nat>, s: seq<nat>) {
    if pattern == [] then s == []
    else if pattern[0] == STAR then exists k | 0 <= k <= |s| :: Matches(pattern[1..], s[k..])
    else s != [] && (pattern[0] == QUESTION || pattern[0] == s[0]) && Matches(pattern[1..], s[1..])
  }

  predicate HasWildcard(pattern: seq<nat>) {
    STAR in pattern || QUESTION in pattern
  }

  // ----------------------------------------------------------- compiled to text

  /** . * + ? ^ $ { } ( ) | [ ] \ */
  predicate IsMeta(c: nat) {
    c == DOT || c == STAR || c == 43 || c == QUESTION || c == CARET || c == DOLLAR || c == 123 || c == 125
    || c == 40 || c == 41 || c == 124 || c == 91 || c == 93 || c == ESCAPE
  }

  function CompileOne(c: nat): seq<nat> {
    if c == STAR then [DOT, STAR]
    else if c == QUESTION then [DOT]
    else if IsMeta(c) then [ESCAPE, c]
    else [c]
  }

  function CompileAll(pattern: seq<nat>): seq<nat> {
    if pattern == [] then [] else CompileOne(pattern[0]) + CompileAll(pattern[1..])
  }

  function Compile(pattern: seq<nat>): seq<nat> {
    [CARET] + CompileAll(pattern) + [DOLLAR]
  }

  // ---------------------- regular expressions, by section 22.2.1 of ECMA-262

  datatype Atom = AnyChar | Literal(c: nat)

  datatype Term = Start | End | One(atom: Atom) | Star(atom: Atom)

  /** The fourteen syntax characters of the grammar, in its order: ^ $ \ . * + ? ( ) [ ] { } | */
  const SYNTAX_CHARACTERS: set<nat> := {94, 36, 92, 46, 42, 43, 63, 40, 41, 91, 93, 123, 125, 124}

  predicate IsSyntaxCharacter(c: nat) {
    c in SYNTAX_CHARACTERS
  }

  /**
   * An atom at the front of the text, with the length of its text; in Unicode
   * mode only syntax characters and / may be escaped.
   */
  function ParseAtom(s: seq<nat>): (r: Option<(Atom, nat)>)
    ensures r.Some? ==> 0 < r.value.1 <= |s|
  {
    if s == [] then None
    else if s[0] == DOT then Some((AnyChar, 1))
    else if s[0] == ESCAPE then
      if |s| >= 2 && (IsSyntaxCharacter(s[1]) || s[1] == 47) then Some((Literal(s[1]), 2)) else None
    else if IsSyntaxCharacter(s[0]) then None
    else Some((Literal(s[0]), 1))
  }

  /** Terms without groups, classes, alternatives or other quantifiers; None is text outside this subset. */
  function Parse(s: seq<nat>): Option<seq<Term>>
    decreases |s|
  {
    if s == [] then Some([])
    else if s[0] == CARET then Prefix(Start, Parse(s[1..]))
    else if s[0] == DOLLAR then Prefix(End, Parse(s[1..]))
    else
      match ParseAtom(s)
      case None => None
      case Some((atom, n)) =>
        if n < |s| && s[n] == STAR then Prefix(Star(atom), Parse(s[n + 1..]))
        else Prefix(One(atom), Parse(s[n..]))
  }

  function Prefix(t: Term, rest: Option<seq<Term>>): Option<seq<Term>> {
    if rest.None? then None else Some([t] + rest.value)
  }

  /** With the flag that lets a dot match line terminators. */
  predicate Accepts(a: Atom, c: nat) {
    a.AnyChar? || a.c == c
  }

  /** The terms match somewhere from position k on, as backtracking finds out. */
  predicate MatchFrom(terms: seq<Term>, s: seq<nat>, k: nat)
    requires k <= |s|
    decreases |terms|, |s| - k
  {
    if terms == [] then true
    else
      match terms[0]
      case Start => k == 0 && MatchFrom(terms[1..], s, k)
      case End => k == |s| && MatchFrom(terms[1..], s, k)
      case One(a) => k < |s| && Accepts(a, s[k]) && MatchFrom(terms[1..], s, k + 1)
      case Star(a) => MatchFrom(terms[1..], s, k) || (k < |s| && Accepts(a, s[k]) && MatchFrom(terms, s, k + 1))
  }

  /** A regular expression test: a match at some position. */
  predicate Test(terms: seq<Term>, s: seq<nat>) {
    exists k | 0 <= k <= |s| :: MatchFrom(terms, s, k)
  }

  // ---------------------------------------------------------- meaning preserved

  function TermOf(c: nat): Term {
    if c == STAR then Star(AnyChar) else if c == QUESTION then One(AnyChar) else One(Literal(c))
  }

  function Terms(pattern: seq<nat>): seq<Term> {
    if pattern == [] then [End] else [TermOf(pattern[0])] + Terms(pattern[1..])
  }

  /** One compiled code point parses to its term, unless a star follows it. */
  lemma ParseOne(c: nat, rest: seq<nat>)
    requires rest != [] && rest[0] != STAR
    ensures Parse(CompileOne(c) + rest) == Prefix(TermOf(c), Parse(rest))
  {
    var t := CompileOne(c) + rest;
    assert t[|CompileOne(c)|..] == rest && t[|CompileOne(c)|] == rest[0];
  }

  lemma CompiledHead(pattern: seq<nat>)
    ensures CompileAll(pattern) + [DOLLAR] != [] && (CompileAll(pattern) + [DOLLAR])[0] != STAR
  {}

  /** The compiled text always parses, to one term for each code point of the pattern. */
  lemma {:induction false} CompiledParses(pattern: seq<nat>)
    ensures Parse(CompileAll(pattern) + [DOLLAR]) == Some(Terms(pattern))
  {
    if pattern == [] {
      assert CompileAll(pattern) + [DOLLAR] == [DOLLAR];
      assert [DOLLAR][1..] == [] && [End] + [] == [End];
    } else {
      var rest := CompileAll(pattern[1..]) + [DOLLAR];
      CompiledParses(pattern[1..]);
      CompiledHead(pattern[1..]);
      ParseOne(pattern[0], rest);
      assert CompileAll(pattern) + [DOLLAR] == CompileOne(pattern[0]) + rest;
    }
  }

  /** From any position on, the compiled terms match exactly what the rest of the pattern does. */
  lemma {:induction false} TermsMatch(pattern: seq<nat>, s: seq<nat>, k: nat)
    requires k <= |s|
    ensures MatchFrom(Terms(pattern), s, k) <==> Matches(pattern, s[k..])
    decreases |pattern|, |s| - k
  {
    var terms := Terms(pattern);
    if pattern == [] {
      assert terms[1..] == [];
    } else {
      assert terms[1..] == Terms(pattern[1..]);
      if pattern[0] == STAR {
        StarMatches(pattern, s, k);
        TermsMatch(pattern[1..], s, k);
        if k < |s| { TermsMatch(pattern, s, k + 1); }
      } else if k < |s| {
        TermsMatch(pattern[1..], s, k + 1);
        assert s[k..][1..] == s[k + 1..];
      }
    }
  }

  /** A star takes nothing, or one code point and goes on. */
  lemma StarMatches(pattern: seq<nat>, s: seq<nat>, k: nat)
    requires pattern != [] && pattern[0] == STAR && k <= |s|
    ensures Matches(pattern, s[k..]) <==> Matches(pattern[1..], s[k..]) || (k < |s| && Matches(pattern, s[k + 1..]))
  {
    var rest := s[k..];
    if Matches(pattern, rest) {
      var j :| 0 <= j <= |rest| && Matches(pattern[1..], rest[j..]);
      if j == 0 {
        assert rest[0..] == rest;
      } else {
        assert s[k + 1..][j - 1..] == rest[j..];
      }
    }
    if Matches(pattern[1..], rest) { assert rest[0..] == rest; }
    if k < |s| && Matches(pattern, s[k + 1..]) {
      var j :| 0 <= j <= |s[k + 1..]| && Matches(pattern[1..], s[k + 1..][j..]);
      assert rest[j + 1..] == s[k + 1..][j..];
    }
  }

  /** The emitted regular expression accepts a name exactly when the glob does. */
  lemma CompilePreservesMeaning(pattern: seq<nat>, s: seq<nat>)
    ensures Parse(Compile(pattern)).Some?
    ensures Test(Parse(Compile(pattern)).value, s) <==> Matches(pattern, s)
  {
    CompiledParses(pattern);
    var body := CompileAll(pattern) + [DOLLAR];
    assert Compile(pattern) == [CARET] + body && ([CARET] + body)[1..] == body;
    var terms := [Start] + Terms(pattern);
    assert Parse(Compile(pattern)) == Some(terms);
    assert terms[1..] == Terms(pattern);
    TermsMatch(pattern, s, 0);
    assert s[0..] == s;
    assert MatchFrom(terms, s, 0) <==> Matches(pattern, s);
  }

  // ------------------------------------------------------------ plain substring

  predicate OccursAt<T(==)>(s: seq<T>, part: seq<T>, k: nat) {
    k + |part| <= |s| && s[k..k + |part|] == part
  }

  predicate Includes(name: text, part: text) {
    exists k: nat | k <= |name| :: OccursAt(name, part, k)
  }

  /** The matcher for a pattern, after both sides went through the same case mapping. */
  predicate Search(pattern: text, name: text) {
    var p := CodePoints(pattern);
    if !HasWildcard(p) then Includes(name, pattern)
    else
      var terms := Parse(Compile(p));
      terms.Some? && Test(terms.value, CodePoints(name))
  }

  /** The text neither starts nor ends with half of a surrogate pair cut off at that side. */
  predicate Closed(s: text) {
    s == [] || (!IsTrail(s[0]) && !IsLead(s[|s| - 1]))
  }

  lemma {:induction false} CodePointsAppend(a: text, b: text)
    requires a == [] || b == [] || !IsLead(a[|a| - 1]) || !IsTrail(b[0])
    ensures CodePoints(a + b) == CodePoints(a) + CodePoints(b)
    decreases |a|
  {
    if a == [] {
      assert a + b == b;
    } else {
      var n := if IsPair(a) then 2 else 1;
      assert IsPair(a + b) <==> IsPair(a) by {
        if |a| == 1 && b != [] { assert (a + b)[1] == b[0]; }
      }
      assert (a + b)[n..] == a[n..] + b;
      CodePointsAppend(a[n..], b);
    }
  }

  lemma PairValueInjective(a: unit, b: unit, c: unit, d: unit)
    requires IsLead(a) && IsTrail(b) && IsLead(c) && IsTrail(d) && PairValue(a, b) == PairValue(c, d)
    ensures a == c && b == d
  {}

  lemma {:induction false} CodePointsInjective(a: text, b: text)
    requires CodePoints(a) == CodePoints(b)
    ensures a == b
    decreases |a|
  {
    if a != [] && b != [] {
      var x, y := CodePoints(a), CodePoints(b);
      assert x[0] == y[0];
      assert IsPair(a) <==> IsPair(b);
      if IsPair(a) {
        PairValueInjective(a[0], a[1], b[0], b[1]);
        assert x[1..] == CodePoints(a[2..]) && y[1..] == CodePoints(b[2..]);
        CodePointsInjective(a[2..], b[2..]);
        assert a == [a[0], a[1]] + a[2..] && b == [b[0], b[1]] + b[2..];
      } else {
        assert x[1..] == CodePoints(a[1..]) && y[1..] == CodePoints(b[1..]);
        CodePointsInjective(a[1..], b[1..]);
        assert a == [a[0]] + a[1..] && b == [b[0]] + b[1..];
      }
    }
  }

  /** Every cut between code points is a cut between units. */
  lemma {:induction false} SplitAt(s: text, n: nat) returns (k: nat)
    requires n <= |CodePoints(s)|
    ensures k <= |s| && CodePoints(s[..k]) == CodePoints(s)[..n] && CodePoints(s[k..]) == CodePoints(s)[n..]
    decreases n
  {
    if n == 0 {
      k := 0;
      assert s[..0] == [] && s[0..] == s;
    } else {
      var m := if IsPair(s) then 2 else 1;
      var j := SplitAt(s[m..], n - 1);
      k := m + j;
      assert s[k..] == s[m..][j..];
      assert s[..k][m..] == s[m..][..j];
      assert IsPair(s[..k]) <==> IsPair(s) by {
        if IsPair(s[..k]) { assert s[1] == s[..k][1]; }
      }
    }
  }

  function Anywhere(p: seq<nat>): seq<nat> {
    [STAR] + (p + [STAR])
  }

  lemma {:induction false} LiteralThenStar(p: seq<nat>, s: seq<nat>)
    requires !HasWildcard(p)
    ensures Matches(p + [STAR], s) <==> OccursAt(s, p, 0)
  {
    if p == [] {
      assert p + [STAR] == [STAR] && [STAR][1..] == [];
      assert Matches([], s[|s|..]);
    } else {
      assert (p + [STAR])[1..] == p[1..] + [STAR];
      if s != [] {
        LiteralThenStar(p[1..], s[1..]);
        if |p| <= |s| {
          assert s[0..|p|] == [s[0]] + s[1..][0..|p| - 1];
          assert p == [p[0]] + p[1..];
        }
      }
    }
  }

  /** The glob *p* matches exactly the code point sequences that contain p. */
  lemma AnywhereMatches(p: seq<nat>, s: seq<nat>)
    requires !HasWildcard(p)
    ensures Matches(Anywhere(p), s) <==> exists k: nat :: OccursAt(s, p, k)
  {
    assert Anywhere(p)[1..] == p + [STAR];
    forall k | 0 <= k <= |s| ensures Matches(p + [STAR], s[k..]) <==> OccursAt(s, p, k) {
      LiteralThenStar(p, s[k..]);
      if k + |p| <= |s| { assert s[k..][0..|p|] == s[k..k + |p|]; }
    }
    if k: nat :| OccursAt(s, p, k) {
      assert k <= |s|;
    }
  }

  /** An occurrence in the units of a name is one in its code points, if the part is closed. */
  lemma OccursInCodePoints(name: text, part: text, k: nat)
    requires Closed(part) && OccursAt(name, part, k)
    ensures exists j: nat :: OccursAt(CodePoints(name), CodePoints(part), j)
  {
    var a, b := name[..k], name[k + |part|..];
    assert name == a + (part + b);
    if part == [] {
      assert OccursAt(CodePoints(name), CodePoints(part), 0);
    } else {
      CodePointsAppend(part, b);
      assert (part + b)[0] == part[0];
      CodePointsAppend(a, part + b);
      var x := CodePoints(name);
      assert x == CodePoints(a) + (CodePoints(part) + CodePoints(b));
      var j := |CodePoints(a)|;
      assert x[j..j + |CodePoints(part)|] == CodePoints(part);
      assert OccursAt(x, CodePoints(part), j);
    }
  }

  lemma OccursInUnits(name: text, part: text, j: nat)
    requires OccursAt(CodePoints(name), CodePoints(part), j)
    ensures Includes(name, part)
  {
    var x, n := CodePoints(name), |CodePoints(part)|;
    var k := SplitAt(name, j);
    var m := SplitAt(name[k..], n);
    assert x[j..][..n] == x[j..j + n];
    CodePointsInjective(name[k..][..m], part);
    assert name[k..][..m] == name[k..k + m];
    assert OccursAt(name, part, k);
  }

  /** With a wildcard the search is the glob. */
  lemma WildcardSearch(pattern: text, name: text)
    requires HasWildcard(CodePoints(pattern))
    ensures Search(pattern, name) <==> Matches(CodePoints(pattern), CodePoints(name))
  {
    CompilePreservesMeaning(CodePoints(pattern), CodePoints(name));
  }

  /** Without one it is the glob *pattern*, for patterns that are not cut inside a surrogate pair. */
  lemma SubstringSearch(pattern: text, name: text)
    requires !HasWildcard(CodePoints(pattern)) && Closed(pattern)
    ensures Search(pattern, name) <==> Matches(Anywhere(CodePoints(pattern)), CodePoints(name))
  {
    var p, x := CodePoints(pattern), CodePoints(name);
    AnywhereMatches(p, x);
    if Includes(name, pattern) {
      var k: nat :| k <= |name| && OccursAt(name, pattern, k);
      OccursInCodePoints(name, pattern, k);
    }
    if j: nat :| OccursAt(x, p, j) { OccursInUnits(name, pattern, j); }
  }

  /** A name with no more code points than the part, other than the part itself, does not contain it. */
  lemma ShorterDoesNotMatch(name: text, part: text)
    requires !HasWildcard(CodePoints(part)) && name != part && |CodePoints(name)| <= |CodePoints(part)|
    ensures !Matches(Anywhere(CodePoints(part)), CodePoints(name))
  {
    AnywhereMatches(CodePoints(part), CodePoints(name));
    if j: nat :| OccursAt(CodePoints(name), CodePoints(part), j) {
      assert j == 0 && CodePoints(name)[0..|CodePoints(part)|] == CodePoints(name);
      CodePointsInjective(name, part);
    }
  }

  /** A name that completes the pair the pattern is cut inside of: found as a substring, not by the glob. */
  lemma CutPatternDiffers(pattern: text) returns (name: text)
    requires !HasWildcard(CodePoints(pattern)) && !Closed(pattern)
    ensures Search(pattern, name) && !Matches(Anywhere(CodePoints(pattern)), CodePoints(name))
  {
    name := if IsTrail(pattern[0]) then [0xd800] + pattern else pattern + [0xdc00];
    if IsTrail(pattern[0]) { CutTrailIsPaired(pattern); } else { CutLeadIsPaired(pattern); }
    ShorterDoesNotMatch(name, pattern);
  }

  /** A pattern that starts inside a pair occurs where the pair is complete, in a name of as many code points. */
  lemma CutTrailIsPaired(pattern: text)
    requires pattern != [] && IsTrail(pattern[0])
    ensures Includes([0xd800] + pattern, pattern)
    ensures |CodePoints([0xd800] + pattern)| <= |CodePoints(pattern)|
  {
    var name := [0xd800] + pattern;
    assert name[2..] == pattern[1..];
    assert name[1..1 + |pattern|] == pattern && OccursAt(name, pattern, 1);
  }

  lemma CutLeadIsPaired(pattern: text)
    requires pattern != [] && IsLead(pattern[|pattern| - 1])
    ensures Includes(pattern + [0xdc00], pattern)
    ensures |CodePoints(pattern + [0xdc00])| <= |CodePoints(pattern)|
  {
    var lead, init, name := pattern[|pattern| - 1], pattern[..|pattern| - 1], pattern + [0xdc00];
    assert pattern == init + [lead] && name == init + [lead, 0xdc00];
    CodePointsAppend(init, [lead]);
    CodePointsAppend(init, [lead, 0xdc00]);
    assert [lead, 0xdc00][2..] == [];
    assert |CodePoints([lead, 0xdc00])| == 1 && |CodePoints([lead])| == 1;
    assert name[0..|pattern|] == pattern && OccursAt(name, pattern, 0);
  }

  /** The substring search is the glob *pattern* on every name exactly for the closed patterns. */
  lemma SubstringIsGlobIff(pattern: text)
    requires !HasWildcard(CodePoints(pattern))
    ensures (forall name :: Search(pattern, name) <==> Matches(Anywhere(CodePoints(pattern)), CodePoints(name)))
            <==> Closed(pattern)
  {
    if Closed(pattern) {
      forall name ensures Search(pattern, name) <==> Matches(Anywhere(CodePoints(pattern)), CodePoints(name)) {
        SubstringSearch(pattern, name);
      }
    } else {
      var name := CutPatternDiffers(pattern);
    }
  }
}
