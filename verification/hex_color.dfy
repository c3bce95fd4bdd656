/**
 `hexStringToUIColor`: normalise the text (trim white space, upper-case, drop one
 leading '#'), fall back to gray unless exactly six characters remain, scan them as a
 hexadecimal `UInt64`, and split that value into red, green and blue with masks and
 shifts.  The model stops at the integer channels; the division by 255.0 into
 `CGFloat` components is left out.
 */
module HexColor {
  import opened Text

  const UInt64Max: nat := 0xFFFF_FFFF_FFFF_FFFF

  /** The colour built: `UIColor.gray`, or the integer channels before scaling to 0.0-1.0 */
  datatype Color = Gray | Rgb(red: nat, green: nat, blue: nat)

  // ---------------------------------------------------------------------------
  // Bitwise `&` and `>>` on unsigned values
  // ---------------------------------------------------------------------------

  function Pow2(n: nat): (p: nat)
    ensures p >= 1
  {
    if n == 0 then 1 else 2 * Pow2(n - 1)
  }

  /** `a & b`, bit by bit from the least significant end */
  function BitAnd(a: nat, b: nat): nat
    decreases a
  {
    if a == 0 || b == 0 then 0
    else 2 * BitAnd(a / 2, b / 2) + (if a % 2 == 1 && b % 2 == 1 then 1 else 0)
  }

  /** `a >> k`: drop the k lowest bits, one at a time */
  function ShiftRight(a: nat, k: nat): nat {
    if k == 0 then a else ShiftRight(a / 2, k - 1)
  }

  /** n one-bits: 2^n - 1 */
  function Mask(n: nat): nat {
    if n == 0 then 0 else 2 * Mask(n - 1) + 1
  }

  /** n one-bits above k zero-bits */
  function ShiftedMask(n: nat, k: nat): nat {
    if k == 0 then Mask(n) else 2 * ShiftedMask(n, k - 1)
  }

  lemma MaskConstants()
    ensures ShiftedMask(8, 16) == 0xFF0000 && ShiftedMask(8, 8) == 0x00FF00 && ShiftedMask(8, 0) == 0x0000FF
    ensures Pow2(8) == 0x100 && Pow2(16) == 0x1_0000
  {
  }

  lemma MulAtLeast(a: int, d: int)
    requires a >= 1 && d > 0
    ensures a * d >= d
  {
    assert (a - 1) * d >= 0;
  }

  /** Quotient and remainder are the only pair with `v == q * d + r` and `0 <= r < d` */
  lemma DivModUnique(v: int, d: int, q: int, r: int)
    requires d > 0
    requires v == q * d + r && 0 <= r < d
    ensures v / d == q && v % d == r
  {
    var q', r' := v / d, v % d;
    assert v == q' * d + r' && 0 <= r' < d;
    assert (q - q') * d == r' - r;
    if q > q' {
      MulAtLeast(q - q', d);
    } else if q < q' {
      MulAtLeast(q' - q, d);
    }
  }

  lemma DivPow2Step(v: nat, n: nat)
    requires n >= 1
    ensures v / Pow2(n) == v / 2 / Pow2(n - 1)
    ensures v % Pow2(n) == 2 * (v / 2 % Pow2(n - 1)) + v % 2
  {
    var p := Pow2(n - 1);
    var q := v / 2 / p;
    var r := v / 2 % p;
    assert v / 2 == q * p + r;
    assert v == 2 * (v / 2) + v % 2;
    assert v == q * (2 * p) + (2 * r + v % 2);
    DivModUnique(v, 2 * p, q, 2 * r + v % 2);
  }

  /** Anything and zero is zero */
  lemma BitAndZero(v: nat)
    ensures BitAnd(v, 0) == 0
  {
  }

  lemma BitAndOdd(v: nat, m: nat)
    requires v > 0
    ensures BitAnd(v, 2 * m + 1) == 2 * BitAnd(v / 2, m) + v % 2
  {
    var b := 2 * m + 1;
    assert b / 2 == m && b % 2 == 1;
    assert BitAnd(v, b) == 2 * BitAnd(v / 2, b / 2) + (if v % 2 == 1 && b % 2 == 1 then 1 else 0);
  }

  lemma BitAndEven(v: nat, m: nat)
    ensures BitAnd(v, 2 * m) == 2 * BitAnd(v / 2, m)
  {
    var b := 2 * m;
    if v == 0 {
      assert v / 2 == 0;
    } else if m == 0 {
      BitAndZero(v / 2);
    } else {
      assert b / 2 == m && b % 2 == 0;
      assert BitAnd(v, b) == 2 * BitAnd(v / 2, b / 2) + (if v % 2 == 1 && b % 2 == 1 then 1 else 0);
    }
  }

  /** Masking with n low one-bits keeps the value modulo 2^n */
  lemma {:induction false} BitAndLowMask(v: nat, n: nat)
    ensures BitAnd(v, Mask(n)) == v % Pow2(n)
  {
    if n == 0 {
      assert Mask(n) == 0 && Pow2(n) == 1;
    } else if v == 0 {
      assert BitAnd(v, Mask(n)) == 0;
    } else {
      var low := Mask(n - 1);
      assert Mask(n) == 2 * low + 1;
      BitAndOdd(v, low);
      BitAndLowMask(v / 2, n - 1);
      DivPow2Step(v, n);
    }
  }

  /** `(v & mask) >> k` with n one-bits starting at bit k is the n-bit field of v at bit k */
  lemma {:induction false} ExtractField(v: nat, n: nat, k: nat)
    ensures ShiftRight(BitAnd(v, ShiftedMask(n, k)), k) == v / Pow2(k) % Pow2(n)
  {
    if k == 0 {
      BitAndLowMask(v, n);
    } else {
      var lower := ShiftedMask(n, k - 1);
      var b := BitAnd(v / 2, lower);
      assert ShiftedMask(n, k) == 2 * lower;
      BitAndEven(v, lower);
      assert (2 * b) / 2 == b;
      assert ShiftRight(2 * b, k) == ShiftRight(b, k - 1);
      ExtractField(v / 2, n, k - 1);
      DivPow2Step(v, k);
    }
  }

  /**
   The mask-and-shift split of `rgbValue`: red is `(v & 0xFF0000) >> 16`, green is
   `(v & 0x00FF00) >> 8`, blue is `v & 0x0000FF`.
   */
  function Channels(rgb: nat): (c: Color)
    requires rgb <= UInt64Max
    ensures c.Rgb?
    ensures c.red == rgb / 0x1_0000 % 0x100
    ensures c.green == rgb / 0x100 % 0x100
    ensures c.blue == rgb % 0x100
  {
    MaskConstants();
    ExtractField(rgb, 8, 16);
    ExtractField(rgb, 8, 8);
    ExtractField(rgb, 8, 0);
    Rgb(ShiftRight(BitAnd(rgb, 0xFF0000), 16), ShiftRight(BitAnd(rgb, 0x00FF00), 8), BitAnd(rgb, 0x0000FF))
  }

  /** For a 24-bit value the three channels are bytes that recombine to the value */
  lemma ChannelsRecombine(rgb: nat)
    requires rgb < 0x100_0000
    ensures var c := Channels(rgb);
      && c.red < 256 && c.green < 256 && c.blue < 256
      && c.red * 0x1_0000 + c.green * 0x100 + c.blue == rgb
  {
  }

  /** Splitting recovers the bytes a 24-bit value was built from */
  lemma ChannelsOfBytes(v: nat, red: nat, green: nat, blue: nat)
    requires red < 256 && green < 256 && blue < 256
    requires v == red * 0x1_0000 + green * 0x100 + blue
    ensures v <= UInt64Max && Channels(v) == Rgb(red, green, blue)
  {
    DivModUnique(v, 0x100, red * 0x100 + green, blue);
    DivModUnique(red * 0x100 + green, 0x100, red, green);
    DivModUnique(v, 0x1_0000, red, green * 0x100 + blue);
    DivModUnique(red, 0x100, 0, red);
  }

  // ---------------------------------------------------------------------------
  // Hexadecimal numbers and `Scanner.scanHexInt64`
  // ---------------------------------------------------------------------------

  function Pow16(n: nat): (p: nat)
    ensures p >= 1
  {
    if n == 0 then 1 else 16 * Pow16(n - 1)
  }

  /** The value of a string of hex digits, most significant first */
  function HexNumber(digits: string): nat
    requires AllHexDigits(digits)
    decreases |digits|
  {
    if digits == [] then 0
    else HexNumber(digits[..|digits| - 1]) * 16 + HexDigitValue(digits[|digits| - 1])
  }

  lemma Regroup(x: int, p: int, h: int, d: int)
    ensures (x * p + h) * 16 + d == x * (16 * p) + (h * 16 + d)
  {
  }

  lemma Spread(acc: int, d: int, q: int)
    ensures (acc * 16 + d) * q == acc * (16 * q) + d * q
  {
  }

  lemma AllHexDigitsAppend(a: string, b: string)
    requires AllHexDigits(a) && AllHexDigits(b)
    ensures AllHexDigits(a + b)
  {
    var ab := a + b;
    assert forall i :: |a| <= i < |ab| ==> ab[i] == b[i - |a|];
  }

  /** The last digit is the units digit */
  lemma HexNumberSnoc(s: string)
    requires AllHexDigits(s) && s != []
    ensures AllHexDigits(s[..|s| - 1])
    ensures HexNumber(s) == HexNumber(s[..|s| - 1]) * 16 + HexDigitValue(s[|s| - 1])
  {
  }

  /** The digits of `a` followed by those of `b`: `a` shifted up by |b| places, plus `b` */
  lemma {:induction false} HexNumberAppend(a: string, b: string)
    requires AllHexDigits(a) && AllHexDigits(b)
    ensures AllHexDigits(a + b)
    ensures HexNumber(a + b) == HexNumber(a) * Pow16(|b|) + HexNumber(b)
    decreases |b|
  {
    AllHexDigitsAppend(a, b);
    if b == [] {
      assert a + b == a;
    } else {
      var b' := b[..|b| - 1];
      var c := b[|b| - 1];
      assert (a + b)[..|a + b| - 1] == a + b';
      assert (a + b)[|a + b| - 1] == c;
      HexNumberSnoc(a + b);
      HexNumberSnoc(b);
      HexNumberAppend(a, b');
      Regroup(HexNumber(a), Pow16(|b'|), HexNumber(b'), HexDigitValue(c));
    }
  }

  /** Two hex digits make a byte */
  lemma HexPairIsByte(pair: string)
    requires |pair| == 2 && AllHexDigits(pair)
    ensures HexNumber(pair) < 256
  {
    var hi := pair[..1];
    assert hi[..0] == [];
    assert HexNumber(hi) == HexDigitValue(pair[0]);
    assert HexNumber(pair) == HexNumber(hi) * 16 + HexDigitValue(pair[1]);
  }

  /** The value of two hex digits */
  lemma HexPairValue(pair: string, hi: char, lo: char)
    requires pair == [hi, lo] && IsHexDigit(hi) && IsHexDigit(lo)
    ensures AllHexDigits(pair)
    ensures HexNumber(pair) == HexDigitValue(hi) * 16 + HexDigitValue(lo)
  {
    var first := pair[..1];
    assert first == [hi] && first[..0] == [];
    assert HexNumber(first) == HexDigitValue(hi);
    assert HexNumber(pair) == HexNumber(first) * 16 + HexDigitValue(lo);
  }

  /** The number of hex digits at the start of `s` */
  function HexPrefixLength(s: string): (n: nat)
    ensures n <= |s|
    ensures AllHexDigits(s[..n])
    ensures n < |s| ==> !IsHexDigit(s[n])
  {
    if s == [] || !IsHexDigit(s[0]) then 0
    else
      var n := 1 + HexPrefixLength(s[1..]);
      assert s[..n] == [s[0]] + s[1..][..n - 1];
      n
  }

  /**
   The scanner's accumulation loop: shift in one digit at a time, and stick at the
   maximum once the next shift would overflow.
   */
  function Accumulate(acc: nat, digits: string): (v: nat)
    requires AllHexDigits(digits)
    requires acc <= UInt64Max
    ensures v <= UInt64Max
    decreases |digits|
  {
    if digits == [] then acc
    else
      var next := if acc > UInt64Max / 16 then UInt64Max else acc * 16 + HexDigitValue(digits[0]);
      Accumulate(next, digits[1..])
  }

  lemma {:induction false} Pow16Monotone(a: nat, b: nat)
    requires a <= b
    ensures Pow16(a) <= Pow16(b)
    decreases b - a
  {
    if a < b {
      Pow16Monotone(a, b - 1);
    }
  }

  lemma {:induction false} Pow16Add(a: nat, b: nat)
    ensures Pow16(a + b) == Pow16(a) * Pow16(b)
  {
    if a > 0 {
      Pow16Add(a - 1, b);
      assert Pow16(a + b) == 16 * Pow16(a - 1 + b);
    }
  }

  lemma Pow16Fifteen()
    ensures Pow16(15) == 0x1000_0000_0000_0000
  {
    assert Pow16(5) == 0x10_0000;
    assert Pow16(10) == 0x100_0000_0000 by { Pow16Add(5, 5); }
    Pow16Add(10, 5);
  }

  /** The leading digit of a hex number is worth 16^(n-1) */
  lemma HexNumberCons(digits: string)
    requires AllHexDigits(digits) && digits != []
    ensures AllHexDigits(digits[1..])
    ensures HexNumber(digits) == HexDigitValue(digits[0]) * Pow16(|digits| - 1) + HexNumber(digits[1..])
  {
    var rest := digits[1..];
    HexNumberAppend([digits[0]], rest);
    assert [digits[0]] + rest == digits;
    assert HexNumber([digits[0]]) == HexDigitValue(digits[0]) by {
      assert [digits[0]][..0] == [];
    }
  }

  /** Below the overflow threshold one step of the scan shifts in the leading digit exactly */
  lemma AccumulateStep(acc: nat, digits: string)
    requires AllHexDigits(digits)
    requires 1 <= |digits| <= 16 && acc < Pow16(16 - |digits|)
    ensures acc <= UInt64Max / 16
    ensures Accumulate(acc, digits) == Accumulate(acc * 16 + HexDigitValue(digits[0]), digits[1..])
    ensures acc * 16 + HexDigitValue(digits[0]) < Pow16(16 - (|digits| - 1))
  {
    Pow16Monotone(16 - |digits|, 15);
    Pow16Fifteen();
  }

  /** While no overflow can occur the accumulation is the positional value of the digits after `acc` */
  lemma {:induction false} AccumulateExact(acc: nat, digits: string)
    requires AllHexDigits(digits)
    requires 1 <= |digits| <= 16 && acc < Pow16(16 - |digits|)
    ensures acc <= UInt64Max
    ensures Accumulate(acc, digits) == acc * Pow16(|digits|) + HexNumber(digits)
    decreases |digits|
  {
    var k := |digits|;
    var d := HexDigitValue(digits[0]);
    var next := acc * 16 + d;
    var rest := digits[1..];
    AccumulateStep(acc, digits);
    HexNumberCons(digits);
    var q := Pow16(k - 1);
    assert Pow16(k) == 16 * q;
    if k == 1 {
      assert rest == [];
    } else {
      AccumulateExact(next, rest);
      Spread(acc, d, q);
    }
  }

  /**
   `Scanner(string: s).scanHexInt64(&rgbValue)` with `rgbValue` starting at 0: skip
   leading white space and an optional "0x"/"0X", then read the longest run of hex
   digits.  When no digit can be read the variable keeps its 0.
   */
  function ScanHexInt64(s: string): (v: nat)
    ensures v <= UInt64Max
  {
    var t := s[LeadingSpace(s)..];
    var u := if |t| >= 2 && t[0] == '0' && (t[1] == 'x' || t[1] == 'X') then t[2..] else t;
    Accumulate(0, u[..HexPrefixLength(u)])
  }

  /** A hex digit is neither white space nor the 'x' of a "0x" prefix */
  lemma HexDigitIsNotSpace(c: char)
    requires IsHexDigit(c)
    ensures !IsWhitespaceOrNewline(c) && c != 'x' && c != 'X'
  {
  }

  /** A string of hex digits is its own longest hex prefix */
  lemma {:induction false} HexPrefixOfDigits(s: string)
    requires AllHexDigits(s)
    ensures HexPrefixLength(s) == |s|
  {
    if s != [] {
      assert AllHexDigits(s[1..]);
      HexPrefixOfDigits(s[1..]);
    }
  }

  /** A string of one to sixteen hex digits scans to its positional value */
  lemma ScanHexDigits(s: string)
    requires AllHexDigits(s) && 1 <= |s| <= 16
    ensures ScanHexInt64(s) == HexNumber(s)
  {
    HexDigitIsNotSpace(s[0]);
    assert LeadingSpace(s) == 0;
    assert s[0..] == s;
    if |s| >= 2 {
      HexDigitIsNotSpace(s[1]);
    }
    HexPrefixOfDigits(s);
    assert s[..|s|] == s;
    AccumulateExact(0, s);
  }

  // ---------------------------------------------------------------------------
  // hexStringToUIColor
  // ---------------------------------------------------------------------------

  /** Trimmed, upper-cased, with one leading '#' removed */
  function Normalised(hex: string): (r: string)
    ensures HasNoLowerLetter(r)
    ensures var t := Trimmed(hex);
      |r| == if t != [] && t[0] == '#' then |t| - 1 else |t|
    ensures var t := Trimmed(hex); var d := if t != [] && t[0] == '#' then 1 else 0;
      forall i :: 0 <= i < |r| ==> r[i] == ToUpper(t[i + d])
  {
    var t := Trimmed(hex);
    var u := Uppercased(t);
    assert u != [] ==> u[0] == ToUpper(t[0]);
    if u != [] && u[0] == '#' then
      UppercasedTail(t);
      u[1..]
    else
      u
  }

  /** A leading '#' is one before upper-casing too, and what follows it is the rest upper-cased */
  lemma UppercasedTail(t: string)
    requires t != [] && Uppercased(t)[0] == '#'
    ensures var u := Uppercased(t);
      && t[0] == '#' && HasNoLowerLetter(u[1..])
      && forall i :: 0 <= i < |u| - 1 ==> u[1..][i] == ToUpper(t[i + 1])
  {
    var u := Uppercased(t);
    assert u[0] == ToUpper(t[0]);
    forall i | 0 <= i < |u| - 1
      ensures u[1..][i] == ToUpper(t[i + 1])
    {
      assert u[1..][i] == u[i + 1];
    }
  }

  /** `hexStringToUIColor`: gray exactly when the normalised text is not six characters long */
  function HexStringToColor(hex: string): (c: Color)
    ensures c == Gray <==> |Normalised(hex)| != 6
    ensures c.Rgb? ==> c.red < 256 && c.green < 256 && c.blue < 256
  {
    var s := Normalised(hex);
    if |s| != 6 then Gray
    else
      var v := ScanHexInt64(s);
      var c := Channels(v);
      c
  }

  /** "#" followed by six upper-case hex digits normalises to the six digits */
  lemma NormalisedColorCode(code: string)
    requires |code| == 6 && AllUpperHexDigits(code)
    ensures Normalised("#" + code) == code
  {
    var s := "#" + code;
    assert !IsWhitespaceOrNewline(s[0]) && s[|s| - 1] == code[5];
    assert IsUpperHexDigit(code[5]);
    TrimmedNoOp(s);
    assert HasNoLowerLetter(s) by {
      assert forall i :: 1 <= i < |s| ==> s[i] == code[i - 1];
    }
    UppercasedFixedPoint(s);
    assert s[1..] == code;
  }

  /** Six hex digits are three two-digit bytes side by side */
  lemma HexNumberOfSix(code: string)
    requires |code| == 6 && AllHexDigits(code)
    ensures AllHexDigits(code[..2]) && AllHexDigits(code[2..4]) && AllHexDigits(code[4..])
    ensures HexNumber(code[..2]) < 256 && HexNumber(code[2..4]) < 256 && HexNumber(code[4..]) < 256
    ensures HexNumber(code) == HexNumber(code[..2]) * 0x1_0000 + HexNumber(code[2..4]) * 0x100 + HexNumber(code[4..])
  {
    var r, g, b := code[..2], code[2..4], code[4..];
    assert AllHexDigits(r) && AllHexDigits(g) && AllHexDigits(b);
    HexPairIsByte(r);
    HexPairIsByte(g);
    HexPairIsByte(b);
    HexNumberOfPairs(r, g, b);
    assert r + g + b == code;
  }

  lemma HexNumberOfPairs(r: string, g: string, b: string)
    requires |r| == 2 && |g| == 2 && |b| == 2
    requires AllHexDigits(r) && AllHexDigits(g) && AllHexDigits(b)
    ensures AllHexDigits(r + g + b)
    ensures HexNumber(r + g + b) == HexNumber(r) * 0x1_0000 + HexNumber(g) * 0x100 + HexNumber(b)
  {
    assert Pow16(2) == 0x100;
    HexNumberAppend(r, g);
    HexNumberAppend(r + g, b);
    ShiftTwice(HexNumber(r), HexNumber(g), HexNumber(b));
  }

  lemma ShiftTwice(x: int, y: int, z: int)
    ensures (x * 0x100 + y) * 0x100 + z == x * 0x1_0000 + y * 0x100 + z
  {
  }

  /** The colour six hex digits spell: two digits per channel, red first */
  function SpelledColor(code: string): (c: Color)
    requires |code| == 6 && AllHexDigits(code)
    ensures c.Rgb? && c.red < 256 && c.green < 256 && c.blue < 256
  {
    HexNumberOfSix(code);
    Rgb(HexNumber(code[..2]), HexNumber(code[2..4]), HexNumber(code[4..]))
  }

  /** "#RRGGBB" is scanned as the six-digit number RRGGBB */
  lemma ColorCodeScans(code: string)
    requires |code| == 6 && AllUpperHexDigits(code)
    ensures AllHexDigits(code) && HexNumber(code) <= UInt64Max
    ensures HexStringToColor("#" + code) == Channels(HexNumber(code))
  {
    NormalisedColorCode(code);
    assert AllHexDigits(code);
    ScanHexDigits(code);
  }

  /** The colour of "#RRGGBB" is the three two-digit hex numbers it spells */
  lemma ColorOfColorCode(code: string)
    requires |code| == 6 && AllUpperHexDigits(code)
    ensures AllHexDigits(code)
    ensures HexStringToColor("#" + code) == SpelledColor(code)
  {
    ColorCodeScans(code);
    HexNumberOfSix(code);
    ChannelsOfBytes(HexNumber(code), HexNumber(code[..2]), HexNumber(code[2..4]), HexNumber(code[4..]));
  }

  /**
   The colour of any accepted text: once trimmed, upper-cased and stripped of one '#',
   six hex digits spell the colour, whatever their case or surrounding white space
   */
  lemma HexStringToColorValue(hex: string)
    requires |Normalised(hex)| == 6 && AllHexDigits(Normalised(hex))
    ensures HexStringToColor(hex) == SpelledColor(Normalised(hex))
  {
    var s := Normalised(hex);
    ScanHexDigits(s);
    HexNumberOfSix(s);
    ChannelsOfBytes(HexNumber(s), HexNumber(s[..2]), HexNumber(s[2..4]), HexNumber(s[4..]));
  }

  /** A code sent with a leading '#' never takes the gray fallback */
  lemma ColorCodeIsNeverGray(code: string)
    requires |code| == 6 && AllUpperHexDigits(code)
    ensures HexStringToColor("#" + code) != Gray
  {
    NormalisedColorCode(code);
  }

  /** Only one '#' is removed: "##ABCDEF" keeps seven characters and falls back to gray */
  lemma DoubleHashIsGray()
    ensures |Normalised("##ABCDEF")| == 7
    ensures HexStringToColor("##ABCDEF") == Gray
  {
    var s := "##ABCDEF";
    assert !IsWhitespaceOrNewline(s[0]) && !IsWhitespaceOrNewline(s[|s| - 1]);
    TrimmedNoOp(s);
  }
}
