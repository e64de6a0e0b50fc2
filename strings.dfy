/**
 * Stand-ins for the parts of Swift's `String` library that the game uses:
 * `lowercased()`, `trimmingCharacters(in: .whitespacesAndNewlines)`,
 * `firstIndex(of:)`, `remove(at:)` and the decimal text of an `Int` in a
 * string interpolation. A Swift `Character` is modelled as one `char`.
 */
module Strings {
  import opened Wrappers

  // ---------------------------------------------------------------------
  // Lower-casing (ASCII letters only)
  // ---------------------------------------------------------------------

  predicate IsUpper(c: char) {
    'A' <= c <= 'Z'
  }

  function LowerChar(c: char): char {
    if IsUpper(c) then (c as int - 'A' as int + 'a' as int) as char else c
  }

  /** `lowercased()`. */
  function Lower(s: string): (r: string)
    ensures |r| == |s|
  {
    seq(|s|, i requires 0 <= i < |s| => LowerChar(s[i]))
  }

  /**
   * Lower-casing leaves no upper-case letter, keeps every other character,
   * and turns each upper-case letter into the same letter in lower case.
   */
  lemma LowerLetters(s: string)
    ensures var r := Lower(s);
      && (forall i | 0 <= i < |r| :: !IsUpper(r[i]))
      && (forall i | 0 <= i < |s| && !IsUpper(s[i]) :: r[i] == s[i])
      && (forall i | 0 <= i < |s| && IsUpper(s[i]) ::
            'a' <= r[i] <= 'z' && r[i] as int - 'a' as int == s[i] as int - 'A' as int)
  {
  }

  // ---------------------------------------------------------------------
  // Trimming
  // ---------------------------------------------------------------------

  /**
   * Foundation's `whitespacesAndNewlines`: the Unicode separators (general
   * category Z*), the controls U+0009 to U+000D, and U+0085.
   */
  predicate IsWhitespace(c: char) {
    || '\t' <= c <= '\r'
    || c == ' '
    || c == '\U{85}'
    || c == '\U{A0}'
    || c == '\U{1680}'
    || '\U{2000}' <= c <= '\U{200A}'
    || c == '\U{2028}'
    || c == '\U{2029}'
    || c == '\U{202F}'
    || c == '\U{205F}'
    || c == '\U{3000}'
  }

  /** The length of the longest all-whitespace prefix of `s`. */
  function LeadingSpaces(s: string): (n: nat)
    ensures n <= |s|
    ensures forall k | 0 <= k < n :: IsWhitespace(s[k])
    ensures n < |s| ==> !IsWhitespace(s[n])
  {
    if s == [] || !IsWhitespace(s[0]) then 0 else 1 + LeadingSpaces(s[1..])
  }

  /** The length of the longest all-whitespace suffix of `s`. */
  function TrailingSpaces(s: string): (n: nat)
    ensures n <= |s|
    ensures forall k | |s| - n <= k < |s| :: IsWhitespace(s[k])
    ensures n < |s| ==> !IsWhitespace(s[|s| - n - 1])
  {
    if s == [] || !IsWhitespace(s[|s| - 1]) then 0 else 1 + TrailingSpaces(s[..|s| - 1])
  }

  /** `trimmingCharacters(in: .whitespacesAndNewlines)`. */
  function Trim(s: string): (r: string)
    ensures LeadingSpaces(s) + |r| <= |s|
  {
    var rest := s[LeadingSpaces(s)..];
    rest[..|rest| - TrailingSpaces(rest)]
  }

  /**
   * What trimming leaves: the slice of `s` that starts after the leading
   * whitespace and neither starts nor ends with whitespace; everything cut
   * off on either side is whitespace, and only an all-whitespace string
   * trims to nothing.
   */
  lemma TrimSlice(s: string)
    ensures var r := Trim(s);
      && (forall k | 0 <= k < |r| :: r[k] == s[LeadingSpaces(s) + k])
      && (forall k | LeadingSpaces(s) + |r| <= k < |s| :: IsWhitespace(s[k]))
      && (r != [] ==> !IsWhitespace(r[0]) && !IsWhitespace(r[|r| - 1]))
      && (r == [] <==> forall k | 0 <= k < |s| :: IsWhitespace(s[k]))
  {
  }

  /** `lowercased().trimmingCharacters(in: .whitespacesAndNewlines)`. */
  function Normalize(s: string): (r: string)
    ensures |r| <= |s|
  {
    Trim(Lower(s))
  }

  /** The shape of a normalised answer: no upper-case letter, no whitespace at either end. */
  predicate IsNormalized(s: string) {
    && (forall k | 0 <= k < |s| :: !IsUpper(s[k]))
    && (s != [] ==> !IsWhitespace(s[0]) && !IsWhitespace(s[|s| - 1]))
  }

  /** Every normalised answer has that shape. */
  lemma NormalizeShape(s: string)
    ensures IsNormalized(Normalize(s))
  {
  }

  /** A string of that shape is its own normal form. */
  lemma NormalizedIsFixed(s: string)
    requires IsNormalized(s)
    ensures Normalize(s) == s
  {
  }

  /** An answer normalises to the empty string exactly when it is all whitespace. */
  lemma {:induction false} NormalizeEmpty(s: string)
    ensures Normalize(s) == [] <==> forall k | 0 <= k < |s| :: IsWhitespace(s[k])
  {
    var l := Lower(s);
    LowerLetters(s);
    TrimSlice(l);
    forall k | 0 <= k < |s|
      ensures IsWhitespace(l[k]) <==> IsWhitespace(s[k])
    {
      if IsUpper(s[k]) {
        assert 'a' <= l[k] <= 'z';
      }
    }
  }

  /** Normalising twice is normalising once. */
  lemma NormalizeIdempotent(s: string)
    ensures Normalize(Normalize(s)) == Normalize(s)
  {
    NormalizeShape(s);
    NormalizedIsFixed(Normalize(s));
  }

  // ---------------------------------------------------------------------
  // Searching and removing
  // ---------------------------------------------------------------------

  /** `firstIndex(of:)`: the position of the first occurrence of `c`, if any. */
  function FirstIndex(s: string, c: char): (r: Option<nat>)
    ensures r.None? <==> c !in s
    ensures r.Some? ==> r.value < |s| && s[r.value] == c && c !in s[..r.value]
  {
    if s == [] then None
    else if s[0] == c then Some(0)
    else
      match FirstIndex(s[1..], c)
      case None => None
      case Some(i) =>
        assert s[..i + 1] == [s[0]] + s[1..][..i];
        Some(i + 1)
  }

  /** `remove(at:)`: drops the character at `i` and keeps the others in order. */
  function RemoveAt(s: string, i: nat): (r: string)
    requires i < |s|
    ensures |r| == |s| - 1
    ensures forall k | 0 <= k < i :: r[k] == s[k]
    ensures forall k | i <= k < |r| :: r[k] == s[k + 1]
    ensures multiset(r) == multiset(s) - multiset{s[i]}
  {
    assert s == s[..i] + [s[i]] + s[i + 1..];
    s[..i] + s[i + 1..]
  }

  // ---------------------------------------------------------------------
  // Decimal text of an integer, as string interpolation writes it
  // ---------------------------------------------------------------------

  predicate IsDigit(c: char) {
    '0' <= c <= '9'
  }

  function DigitChar(d: nat): (c: char)
    requires d < 10
    ensures IsDigit(c) && c as int - '0' as int == d
  {
    ('0' as int + d) as char
  }

  /** The shortest decimal numeral of `n`. */
  function NatToString(n: nat): (r: string)
    ensures r != []
    ensures forall k | 0 <= k < |r| :: IsDigit(r[k])
    ensures r[0] == '0' ==> r == "0"
  {
    if n < 10 then [DigitChar(n)] else NatToString(n / 10) + [DigitChar(n % 10)]
  }

  /** `"\(n)"` for an `Int`: a minus sign before the numeral of a negative number. */
  function IntToString(n: int): (r: string)
    ensures r != []
    ensures r[0] == '-' <==> n < 0
  {
    if n < 0 then "-" + NatToString(-n) else NatToString(n)
  }

  /** The value of a string of decimal digits. */
  function ParseNat(s: string): nat
    requires forall k | 0 <= k < |s| :: IsDigit(s[k])
  {
    if s == [] then 0
    else
      assert IsDigit(s[|s| - 1]);
      ParseNat(s[..|s| - 1]) * 10 + (s[|s| - 1] as int - '0' as int)
  }

  /** The value of a numeral with an optional leading minus sign. */
  function ParseInt(s: string): int
    requires s != [] && s[0] == '-' ==> forall k | 1 <= k < |s| :: IsDigit(s[k])
    requires s == [] || s[0] != '-' ==> forall k | 0 <= k < |s| :: IsDigit(s[k])
  {
    if s != [] && s[0] == '-' then -(ParseNat(s[1..]) as int) else ParseNat(s)
  }

  lemma {:induction false} ParseNatToString(n: nat)
    ensures ParseNat(NatToString(n)) == n
  {
    var r := NatToString(n);
    if n >= 10 {
      ParseNatToString(n / 10);
      assert r[..|r| - 1] == NatToString(n / 10);
    }
  }

  /** The score shown in a message can be read back exactly. */
  lemma IntToStringRoundTrip(n: int)
    ensures ParseInt(IntToString(n)) == n
  {
    if n < 0 {
      ParseNatToString(-n);
      assert IntToString(n)[1..] == NatToString(-n);
    } else {
      ParseNatToString(n);
    }
  }
}
