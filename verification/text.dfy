/**
 Character classes and the two `String` transformations the colour code relies on:
 upper-casing and trimming of white space.  Case mapping is modelled for ASCII
 letters only, which is all that hexadecimal digits and UUID text contain.
 */
module Text {

  predicate IsDecimalDigit(c: char) {
    '0' <= c <= '9'
  }

  /** A digit of `0-9A-F`: the alphabet of the colour codes the app generates */
  predicate IsUpperHexDigit(c: char) {
    IsDecimalDigit(c) || 'A' <= c <= 'F'
  }

  /** A hexadecimal digit in either case */
  predicate IsHexDigit(c: char) {
    IsUpperHexDigit(c) || 'a' <= c <= 'f'
  }

  predicate AllHexDigits(s: string) {
    forall i :: 0 <= i < |s| ==> IsHexDigit(s[i])
  }

  predicate AllUpperHexDigits(s: string) {
    forall i :: 0 <= i < |s| ==> IsUpperHexDigit(s[i])
  }

  function HexDigitValue(c: char): (v: nat)
    requires IsHexDigit(c)
    ensures v < 16
    ensures IsDecimalDigit(c) <==> v < 10
  {
    if IsDecimalDigit(c) then c as int - '0' as int
    else if 'A' <= c <= 'F' then c as int - 'A' as int + 10
    else c as int - 'a' as int + 10
  }

  predicate IsLowerLetter(c: char) {
    'a' <= c <= 'z'
  }

  function ToUpper(c: char): (u: char)
    ensures !IsLowerLetter(u)
    ensures IsLowerLetter(c) ==> u as int == c as int - 32
    ensures !IsLowerLetter(c) ==> u == c
  {
    if IsLowerLetter(c) then (c as int - 32) as char else c
  }

  /** `String.uppercased()`, restricted to ASCII letters */
  function Uppercased(s: string): (r: string)
    ensures |r| == |s|
    ensures forall i :: 0 <= i < |s| ==> r[i] == ToUpper(s[i])
  {
    seq(|s|, i requires 0 <= i < |s| => ToUpper(s[i]))
  }

  predicate HasNoLowerLetter(s: string) {
    forall i :: 0 <= i < |s| ==> !IsLowerLetter(s[i])
  }

  lemma UppercasedHasNoLowerLetter(s: string)
    ensures HasNoLowerLetter(Uppercased(s))
  {
  }

  /** Upper-casing leaves a string alone exactly when it has no lower-case letter */
  lemma UppercasedFixedPoint(s: string)
    ensures Uppercased(s) == s <==> HasNoLowerLetter(s)
  {
    if HasNoLowerLetter(s) {
      assert forall i :: 0 <= i < |s| ==> Uppercased(s)[i] == s[i];
    } else {
      var i :| 0 <= i < |s| && IsLowerLetter(s[i]);
      assert Uppercased(s)[i] != s[i];
    }
  }

  /**
   Membership in Foundation's `CharacterSet.whitespacesAndNewlines`: the Unicode
   space separators, line and paragraph separators, tab, the line feeds U+000A to
   U+000D and NEXT LINE (U+0085).
   */
  predicate IsWhitespaceOrNewline(c: char) {
    || c == ' ' || '\t' <= c <= '\r' || c == '\U{0085}' || c == '\U{00A0}' || c == '\U{1680}'
    || '\U{2000}' <= c <= '\U{200A}' || c == '\U{2028}' || c == '\U{2029}' || c == '\U{202F}'
    || c == '\U{205F}' || c == '\U{3000}'
  }

  /** Number of white-space characters at the start of `s` */
  function LeadingSpace(s: string): (n: nat)
    ensures n <= |s|
    ensures forall i :: 0 <= i < n ==> IsWhitespaceOrNewline(s[i])
    ensures n < |s| ==> !IsWhitespaceOrNewline(s[n])
  {
    if s == [] || !IsWhitespaceOrNewline(s[0]) then 0 else 1 + LeadingSpace(s[1..])
  }

  /** Number of white-space characters at the end of `s` */
  function TrailingSpace(s: string): (n: nat)
    ensures n <= |s|
    ensures forall i :: |s| - n <= i < |s| ==> IsWhitespaceOrNewline(s[i])
    ensures n < |s| ==> !IsWhitespaceOrNewline(s[|s| - n - 1])
  {
    if s == [] || !IsWhitespaceOrNewline(s[|s| - 1]) then 0 else 1 + TrailingSpace(s[..|s| - 1])
  }

  /** `String.trimmingCharacters(in: .whitespacesAndNewlines)` */
  function Trimmed(s: string): (r: string)
    ensures |r| <= |s|
    ensures r != [] ==> !IsWhitespaceOrNewline(r[0]) && !IsWhitespaceOrNewline(r[|r| - 1])
    ensures LeadingSpace(s) + |r| <= |s|
    ensures r == s[LeadingSpace(s)..LeadingSpace(s) + |r|]
    ensures forall i :: LeadingSpace(s) + |r| <= i < |s| ==> IsWhitespaceOrNewline(s[i])
  {
    var lo := LeadingSpace(s);
    var rest := s[lo..];
    var r := rest[..|rest| - TrailingSpace(rest)];
    assert r == s[lo..lo + |r|];
    r
  }

  /** A string that neither starts nor ends with white space is its own trimming */
  lemma TrimmedNoOp(s: string)
    requires s != [] ==> !IsWhitespaceOrNewline(s[0]) && !IsWhitespaceOrNewline(s[|s| - 1])
    ensures Trimmed(s) == s
  {
  }
}
