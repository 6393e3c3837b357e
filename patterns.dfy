/** The two anchored regular expressions the request validators apply: the
    Iranian licence-plate pattern `^\d{2}\s[آ-ی]\s\d{3}\s\d{2}$` and the UUID
    pattern behind `@IsUUID()`. Both are sequences of character classes with
    fixed repeat counts, so a match is a left-to-right walk. */
module Patterns {

  datatype CharClass =
    | AsciiDigit      // `\d` without the `u` flag: 0-9 only
    | Whitespace      // `\s`
    | PersianLetter   // `[آ-ی]`: U+0622 to U+06CC
    | HexDigit        // `[0-9A-F]` under the `i` flag
    | Exactly(c: char)

  /** `cls{count}` */
  datatype Atom = Repeat(cls: CharClass, count: nat)

  /** The characters JavaScript's `\s` matches (and `String.prototype.trim`
      removes): the ECMAScript WhiteSpace and LineTerminator characters. */
  predicate IsWhitespace(c: char) {
    c == '\t' || c == '\n' || c == '\U{000B}' || c == '\U{000C}' || c == '\r' || c == ' '
    || c == '\U{00A0}' || c == '\U{1680}' || ('\U{2000}' <= c <= '\U{200A}')
    || c == '\U{2028}' || c == '\U{2029}' || c == '\U{202F}' || c == '\U{205F}'
    || c == '\U{3000}' || c == '\U{FEFF}'
  }

  predicate IsAsciiDigit(c: char) {
    '0' <= c <= '9'
  }

  predicate IsPersianLetter(c: char) {
    '\U{0622}' <= c <= '\U{06CC}'
  }

  predicate InClass(c: char, cls: CharClass) {
    match cls
    case AsciiDigit => IsAsciiDigit(c)
    case Whitespace => IsWhitespace(c)
    case PersianLetter => IsPersianLetter(c)
    case HexDigit => IsAsciiDigit(c) || 'a' <= c <= 'f' || 'A' <= c <= 'F'
    case Exactly(d) => c == d
  }

  /** The whole of `s` matches `^p$`. */
  predicate Matches(p: seq<Atom>, s: string)
    decreases |p|
  {
    if p == [] then s == []
    else
      var n := p[0].count;
      n <= |s| && (forall i :: 0 <= i < n ==> InClass(s[i], p[0].cls)) && Matches(p[1..], s[n..])
  }

  /** The number of characters every match of `p` has. */
  function Width(p: seq<Atom>): nat {
    if p == [] then 0 else p[0].count + Width(p[1..])
  }

  /** An anchored fixed-count pattern only matches strings of its width. */
  lemma {:induction false} MatchWidth(p: seq<Atom>, s: string)
    requires Matches(p, s)
    ensures |s| == Width(p)
  {
    if p != [] {
      MatchWidth(p[1..], s[p[0].count..]);
    }
  }

  /** `^\d{2}\s[آ-ی]\s\d{3}\s\d{2}$` */
  const PlatePattern: seq<Atom> := [
    Repeat(AsciiDigit, 2), Repeat(Whitespace, 1), Repeat(PersianLetter, 1),
    Repeat(Whitespace, 1), Repeat(AsciiDigit, 3), Repeat(Whitespace, 1),
    Repeat(AsciiDigit, 2)
  ]

  predicate IsPlate(s: string) {
    Matches(PlatePattern, s)
  }

  /** The plate format spelled out position by position. */
  predicate PlateShape(s: string) {
    |s| == 11
    && IsAsciiDigit(s[0]) && IsAsciiDigit(s[1])
    && IsWhitespace(s[2])
    && IsPersianLetter(s[3])
    && IsWhitespace(s[4])
    && IsAsciiDigit(s[5]) && IsAsciiDigit(s[6]) && IsAsciiDigit(s[7])
    && IsWhitespace(s[8])
    && IsAsciiDigit(s[9]) && IsAsciiDigit(s[10])
  }

  /** A plate is accepted exactly when it has the eleven-character shape. */
  lemma PlateMatchesShape(s: string)
    ensures IsPlate(s) <==> PlateShape(s)
  {
    var p := PlatePattern;
    if IsPlate(s) {
      MatchWidth(p, s);
    }
    if |s| == 11 {
      assert s[2..][1..] == s[3..];
      assert s[3..][1..] == s[4..];
      assert s[4..][1..] == s[5..];
      assert s[5..][3..] == s[8..];
      assert s[8..][1..] == s[9..];
      assert s[9..][2..] == s[11..];
      assert p[1..][1..][1..][1..][1..][1..][1..] == [];
    }
  }

  /** Every accepted plate has exactly eleven characters. */
  lemma PlateLength(s: string)
    requires IsPlate(s)
    ensures |s| == 11
  {
    MatchWidth(PlatePattern, s);
  }

  /** The pattern is anchored at both ends: one more character before or
      after an accepted plate is rejected. */
  lemma PlateAnchored(s: string, c: char)
    requires IsPlate(s)
    ensures !IsPlate([c] + s) && !IsPlate(s + [c])
  {
    PlateLength(s);
    WrongLengthIsNoPlate([c] + s);
    WrongLengthIsNoPlate(s + [c]);
  }

  /** A string of any other length than eleven is rejected. */
  lemma WrongLengthIsNoPlate(s: string)
    requires |s| != 11
    ensures !IsPlate(s)
  {
    if IsPlate(s) {
      MatchWidth(PlatePattern, s);
    }
  }

  /** The example the validation message gives, "12 م 345 67", is accepted. */
  lemma PlateExampleAccepted()
    ensures IsPlate("12 \U{0645} 345 67")
  {
    PlateMatchesShape("12 \U{0645} 345 67");
  }

  /** `[0-9A-F]{8}-[0-9A-F]{4}-[0-9A-F]{4}-[0-9A-F]{4}-[0-9A-F]{12}` with the
      `i` flag: the pattern validator.js uses for `isUUID(s, 'all')`. */
  const UuidPattern: seq<Atom> := [
    Repeat(HexDigit, 8), Repeat(Exactly('-'), 1), Repeat(HexDigit, 4),
    Repeat(Exactly('-'), 1), Repeat(HexDigit, 4), Repeat(Exactly('-'), 1),
    Repeat(HexDigit, 4), Repeat(Exactly('-'), 1), Repeat(HexDigit, 12)
  ]

  predicate IsUuid(s: string) {
    Matches(UuidPattern, s)
  }

  /** Every accepted UUID has 36 characters with hyphens at 8, 13, 18, 23. */
  lemma UuidShape(s: string)
    requires IsUuid(s)
    ensures |s| == 36 && s[8] == '-' && s[13] == '-' && s[18] == '-' && s[23] == '-'
  {
    MatchWidth(UuidPattern, s);
    var p := UuidPattern;
    assert s[8..][1..] == s[9..];
    assert s[9..][4..] == s[13..];
    assert s[13..][1..] == s[14..];
    assert s[14..][4..] == s[18..];
    assert s[18..][1..] == s[19..];
    assert s[19..][4..] == s[23..];
  }
}
