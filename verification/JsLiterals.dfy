/** The string literals that the row-parser generators put into their code: `srcEscape` of lib/helpers.js
    quotes with JSON.stringify, and the JavaScript engine reads the literal back. */
module JsLiterals {
  import opened Maybes

  /** A JavaScript string is a sequence of 16-bit code units. */
  type Unit = u: nat | u < 0x10000
  type Str = seq<Unit>

  const QUOTE: Unit := 0x22
  const BACKSLASH: Unit := 0x5c
  const LOWER_U: Unit := 0x75

  predicate IsLeading(u: Unit) {
    0xd800 <= u < 0xdc00
  }

  predicate IsTrailing(u: Unit) {
    0xdc00 <= u < 0xe000
  }

  /** The letter of a two-character escape, for the units that JSON escapes that way. */
  function EscapeLetter(u: Unit): Maybe<Unit> {
    if u == 0x08 then Just(0x62)
    else if u == 0x09 then Just(0x74)
    else if u == 0x0a then Just(0x6e)
    else if u == 0x0c then Just(0x66)
    else if u == 0x0d then Just(0x72)
    else if u == QUOTE || u == BACKSLASH then Just(u)
    else Nothing
  }

  function HexDigit(n: nat): Unit
    requires n < 16
  {
    if n < 10 then 0x30 + n else 0x61 + n - 10
  }

  function HexEscape(u: Unit): Str {
    [BACKSLASH, LOWER_U, HexDigit(u / 0x1000), HexDigit(u / 0x100 % 16), HexDigit(u / 0x10 % 16), HexDigit(u % 16)]
  }

  /** JSON.stringify between the quotes: control characters and lone surrogates become hex escapes. */
  function Escape(s: Str): Str
    decreases |s|
  {
    if s == [] then []
    else if EscapeLetter(s[0]).Just? then [BACKSLASH, EscapeLetter(s[0]).value] + Escape(s[1..])
    else if IsLeading(s[0]) && |s| > 1 && IsTrailing(s[1]) then [s[0], s[1]] + Escape(s[2..])
    else if s[0] < 0x20 || IsLeading(s[0]) || IsTrailing(s[0]) then HexEscape(s[0]) + Escape(s[1..])
    else [s[0]] + Escape(s[1..])
  }

  /** `srcEscape`: the property name as JSON.stringify writes it. */
  function Quote(s: Str): Str {
    [QUOTE] + Escape(s) + [QUOTE]
  }

  // ---------------------------------------------------------------- reading a literal

  function HexValue(u: Unit): Maybe<nat> {
    if 0x30 <= u <= 0x39 then Just(u - 0x30)
    else if 0x61 <= u <= 0x66 then Just(u - 0x61 + 10)
    else if 0x41 <= u <= 0x46 then Just(u - 0x41 + 10)
    else Nothing
  }

  /** The unit a single-character escape stands for; any other character stands for itself. */
  function EscapedUnit(letter: Unit): Unit {
    if letter == 0x62 then 0x08
    else if letter == 0x74 then 0x09
    else if letter == 0x6e then 0x0a
    else if letter == 0x76 then 0x0b
    else if letter == 0x66 then 0x0c
    else if letter == 0x72 then 0x0d
    else letter
  }

  predicate IsDigit(u: Unit) {
    0x30 <= u <= 0x39
  }

  function HexUnit(t: Str): Maybe<Unit>
    requires |t| >= 4
  {
    var a, b, c, d := HexValue(t[0]), HexValue(t[1]), HexValue(t[2]), HexValue(t[3]);
    if a.Nothing? || b.Nothing? || c.Nothing? || d.Nothing? then Nothing
    else if a.value < 16 && b.value < 16 && c.value < 16 && d.value < 16 then
      Just(a.value * 0x1000 + b.value * 0x100 + c.value * 0x10 + d.value)
    else Nothing
  }

  /** The rest of a double-quoted literal: the value and the text after the closing quote. Line breaks
      end a literal with an error; escapes other than those JSON writes are only approximated. */
  function LexRest(t: Str): Maybe<(Str, Str)>
    decreases |t|
  {
    if t == [] || t[0] == 0x0a || t[0] == 0x0d then Nothing
    else if t[0] == 0x22 then Just(([], t[1..]))
    else if t[0] != 0x5c then Cons(t[0], LexRest(t[1..]))
    else if |t| < 2 || IsDigit(t[1]) || t[1] == 0x78 then Nothing
    else if t[1] != 0x75 then Cons(EscapedUnit(t[1]), LexRest(t[2..]))
    else if |t| < 6 || HexUnit(t[2..]).Nothing? then Nothing
    else Cons(HexUnit(t[2..]).value, LexRest(t[6..]))
  }

  function Cons(u: Unit, rest: Maybe<(Str, Str)>): Maybe<(Str, Str)> {
    if rest.Nothing? then Nothing else Just(([u] + rest.value.0, rest.value.1))
  }

  function Lex(t: Str): Maybe<(Str, Str)> {
    if t == [] || t[0] != 0x22 then Nothing else LexRest(t[1..])
  }

  /** The string a literal denotes, and nothing for text that is not one literal. */
  function LiteralValue(t: Str): Maybe<Str> {
    var r := Lex(t);
    if r.Just? && r.value.1 == [] then Just(r.value.0) else Nothing
  }

  // ---------------------------------------------------------------- round trip

  lemma HexDigitRoundTrip(n: nat)
    requires n < 16
    ensures HexValue(HexDigit(n)) == Just(n)
  {
  }

  lemma HexDigits(u: Unit)
    ensures u == u / 0x1000 * 0x1000 + u / 0x100 % 16 * 0x100 + u / 0x10 % 16 * 0x10 + u % 16
  {
    assert u == u / 0x10 * 0x10 + u % 16;
    assert u / 0x10 == u / 0x100 * 16 + u / 0x10 % 16;
    assert u / 0x100 == u / 0x1000 * 16 + u / 0x100 % 16;
  }

  lemma HexUnitRoundTrip(u: Unit, t: Str)
    requires |t| >= 4 && t[..4] == HexEscape(u)[2..]
    ensures HexUnit(t) == Just(u)
  {
    var a, b, c, d := u / 0x1000, u / 0x100 % 16, u / 0x10 % 16, u % 16;
    HexDigits(u);
    HexDigitRoundTrip(a);
    HexDigitRoundTrip(b);
    HexDigitRoundTrip(c);
    HexDigitRoundTrip(d);
    hide HexValue, HexDigit;
    assert t[0] == t[..4][0] && t[1] == t[..4][1] && t[2] == t[..4][2] && t[3] == t[..4][3];
  }

  lemma LexHex(u: Unit, rest: Str)
    ensures LexRest(HexEscape(u) + rest) == Cons(u, LexRest(rest))
  {
    hide HexUnit, HexDigit;
    var t := HexEscape(u) + rest;
    assert t[6..] == rest && t[2..][..4] == HexEscape(u)[2..];
    HexUnitRoundTrip(u, t[2..]);
  }

  lemma LexEscape(u: Unit, rest: Str)
    requires EscapeLetter(u).Just?
    ensures LexRest([BACKSLASH, EscapeLetter(u).value] + rest) == Cons(u, LexRest(rest))
  {
    assert ([BACKSLASH, EscapeLetter(u).value] + rest)[2..] == rest;
  }

  lemma LexPlain(u: Unit, rest: Str)
    requires EscapeLetter(u).Nothing?
    ensures LexRest([u] + rest) == Cons(u, LexRest(rest))
  {
    assert ([u] + rest)[1..] == rest;
  }

  lemma LexEnd(rest: Str)
    ensures LexRest([QUOTE] + rest) == Just(([], rest))
  {
  }

  /** Whatever a column is called, the literal in the generated code denotes exactly that name, and the
      code after it is untouched. */
  lemma {:induction false} EscapeRoundTrip(s: Str, rest: Str)
    ensures LexRest(Escape(s) + ([QUOTE] + rest)) == Just((s, rest))
    decreases |s|
  {
    hide Escape, HexEscape, LexRest, EscapeLetter, IsLeading, IsTrailing;
    var end := [QUOTE] + rest;
    if s == [] {
      LexEnd(rest);
      EscapeNothing(end);
    } else {
      EscapeFirst(s, end);
      FirstAndRest(s);
      var tail := Escape(s[1..]) + end;
      if EscapeLetter(s[0]).Just? {
        EscapeRoundTrip(s[1..], rest);
        LexEscape(s[0], tail);
      } else if IsPair(s) {
        EscapeRoundTrip(s[2..], rest);
        NotEscaped(s[1]);
        LexPlain(s[1], Escape(s[2..]) + end);
        LexPlain(s[0], [s[1]] + (Escape(s[2..]) + end));
        FirstAndRest(s[1..]);
      } else if s[0] < 0x20 || IsLeading(s[0]) || IsTrailing(s[0]) {
        EscapeRoundTrip(s[1..], rest);
        LexHex(s[0], tail);
      } else {
        EscapeRoundTrip(s[1..], rest);
        LexPlain(s[0], tail);
      }
    }
  }

  /** The text starts with a character outside the basic plane. */
  predicate IsPair(s: Str) {
    |s| > 1 && IsLeading(s[0]) && IsTrailing(s[1])
  }

  lemma FirstAndRest(s: Str)
    requires s != []
    ensures s == [s[0]] + s[1..]
    ensures |s| > 1 ==> s[1..][0] == s[1] && s[1..][1..] == s[2..]
  {
  }

  lemma EscapeNothing(end: Str)
    ensures Escape([]) + end == end
  {
  }

  /** The escaped text up to the first unit, or the first pair of surrogates. */
  lemma EscapeFirst(s: Str, end: Str)
    requires s != []
    ensures var tail := Escape(s[1..]) + end;
            Escape(s) + end ==
            if EscapeLetter(s[0]).Just? then [BACKSLASH, EscapeLetter(s[0]).value] + tail
            else if IsPair(s) then [s[0]] + ([s[1]] + (Escape(s[2..]) + end))
            else if s[0] < 0x20 || IsLeading(s[0]) || IsTrailing(s[0]) then HexEscape(s[0]) + tail
            else [s[0]] + tail
  {
    hide HexEscape, EscapeLetter;
  }

  lemma NotEscaped(u: Unit)
    requires IsTrailing(u)
    ensures EscapeLetter(u).Nothing?
  {
  }

  lemma QuoteRoundTrip(s: Str)
    ensures LiteralValue(Quote(s)) == Just(s)
  {
    hide LexRest, Escape;
    EscapeRoundTrip(s, []);
    assert Quote(s)[1..] == Escape(s) + ([QUOTE] + []);
  }
}
