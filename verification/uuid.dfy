/**
 UUID text as Foundation's `UUID(uuidString:)` accepts it.  A well-formed UUID string is
 36 characters in the 8-4-4-4-12 grouping of hexadecimal digits (either case) separated
 by hyphens.  The model takes `CBUUID.uuidString`, the text the app uses as a dictionary
 key, to be the same 36 characters in upper case.  That is what CoreBluetooth reports for
 a UUID outside the Bluetooth Base UUID range, which covers the app's own four UUIDs; a
 UUID of the form xxxxxxxx-0000-1000-8000-00805F9B34FB is reported in its short 16- or
 32-bit form instead, which this module does not model.
 */
module Uuid {
  import opened Text

  /** The positions of the four hyphens in 8-4-4-4-12 UUID text */
  predicate IsHyphenPosition(i: int) {
    i == 8 || i == 13 || i == 18 || i == 23
  }

  /** Text that `UUID(uuidString:)` parses (the source force-unwraps the result) */
  predicate WellFormed(s: string) {
    && |s| == 36
    && s[8] == '-' && s[13] == '-' && s[18] == '-' && s[23] == '-'
    && AllHexDigits(s[..8]) && AllHexDigits(s[9..13]) && AllHexDigits(s[14..18])
    && AllHexDigits(s[19..23]) && AllHexDigits(s[24..])
  }

  /** The shape of `uuidString`: well-formed, with upper-case hex digits */
  predicate IsCanonical(s: string) {
    WellFormed(s) && HasNoLowerLetter(s)
  }

  /** A position-wise reading of WellFormed */
  lemma WellFormedCharacters(s: string)
    requires |s| == 36
    ensures WellFormed(s) <==>
      forall i :: 0 <= i < 36 ==> if IsHyphenPosition(i) then s[i] == '-' else IsHexDigit(s[i])
  {
    if WellFormed(s) {
      forall i | 0 <= i < 36 && !IsHyphenPosition(i)
        ensures IsHexDigit(s[i])
      {
        if i < 8 { assert s[..8][i] == s[i]; }
        else if i < 13 { assert s[9..13][i - 9] == s[i]; }
        else if i < 18 { assert s[14..18][i - 14] == s[i]; }
        else if i < 23 { assert s[19..23][i - 19] == s[i]; }
        else { assert s[24..][i - 24] == s[i]; }
      }
    }
  }

  /** `UUID(uuidString: s)!.uuidString` for the 128-bit UUID that `s` spells */
  function Canonical(s: string): (u: string)
    requires WellFormed(s)
    ensures IsCanonical(u)
    ensures |u| == |s|
  {
    var u := Uppercased(s);
    WellFormedCharacters(s);
    WellFormedCharacters(u);
    u
  }

  /** Canonical text is the only spelling of a UUID that is its own canonical form */
  lemma CanonicalFixedPoint(s: string)
    requires WellFormed(s)
    ensures Canonical(s) == s <==> IsCanonical(s)
  {
    UppercasedFixedPoint(s);
  }

  lemma CanonicalIdempotent(s: string)
    requires WellFormed(s)
    ensures Canonical(Canonical(s)) == Canonical(s)
  {
    CanonicalFixedPoint(Canonical(s));
  }
}
