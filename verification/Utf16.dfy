/** Text as the program holds it: sequences of UTF-16 code units. */
module Utf16 {
  newtype unit = x: int | 0 <= x < 0x1_0000

  type text = seq<unit>

  const LF: unit := 10
  const CR: unit := 13
  const QUOTE: unit := 34
  const HASH: unit := 35
  const COMMA: unit := 44
  const COLON: unit := 58
  const EQUALS: unit := 61
  const OPEN_BRACKET: unit := 91
  const BACKSLASH: unit := 92
  const CLOSE_BRACKET: unit := 93
  const OPEN_BRACE: unit := 123
  const CLOSE_BRACE: unit := 125

  /** C0, DEL and C1. */
  predicate IsControl(u: unit) {
    u < 0x20 || 0x7f <= u <= 0x9f
  }

  predicate IsLead(u: unit) { 0xd800 <= u <= 0xdbff }

  predicate IsTrail(u: unit) { 0xdc00 <= u <= 0xdfff }

  /** White space and line terminators, as trimming and the whitespace class see them. */
  predicate IsSpace(u: unit) {
    9 <= u <= 13 || u == 32 || u == 0xa0 || u == 0x1680 || 0x2000 <= u <= 0x200a
    || u == 0x2028 || u == 0x2029 || u == 0x202f || u == 0x205f || u == 0x3000 || u == 0xfeff
  }

  /** White space and line terminators, as ECMA-262 lists them in sections 12.2 and 12.3. */
  const WHITE: set<unit> := {
    9, 10, 11, 12, 13, 32, 0xa0, 0x1680, 0x2000, 0x2001, 0x2002, 0x2003, 0x2004, 0x2005, 0x2006, 0x2007, 0x2008,
    0x2009, 0x200a, 0x2028, 0x2029, 0x202f, 0x205f, 0x3000, 0xfeff }

  lemma IsSpaceIff(u: unit)
    ensures IsSpace(u) <==> u in WHITE
  {}

  /** The text starts with a surrogate pair. */
  predicate IsPair(s: text) {
    |s| >= 2 && IsLead(s[0]) && IsTrail(s[1])
  }

  /** The code points of a text; a surrogate without its partner stands for itself. */
  function CodePoints(s: text): seq<nat> {
    if s == [] then []
    else if IsPair(s) then [PairValue(s[0], s[1])] + CodePoints(s[2..])
    else [s[0] as nat] + CodePoints(s[1..])
  }

  function PairValue(lead: unit, trail: unit): nat
    requires IsLead(lead) && IsTrail(trail)
  {
    0x1_0000 + (lead as int - 0xd800) * 0x400 + (trail as int - 0xdc00)
  }
}
