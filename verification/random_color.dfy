/**
 The colour generator behind the "send colour" button: `randomCharacter` draws one
 hex digit, `generateRandomColor` strings six of them together and
 `generateRandomPalette` makes a list of such codes.  `arc4random_uniform(n)` is a
 nondeterministic choice of a number below n; the pure step functions take the
 drawn numbers as parameters.
 */
module RandomColor {
  import opened Wrappers
  import opened Text

  const Numbers: seq<int> := [0, 1, 2, 3, 4, 5, 6, 7, 8, 9]
  const Letters: seq<string> := ["A", "B", "C", "D", "E", "F"]

  /** Six upper-case hex digits: the shape of every colour the generator produces */
  predicate IsColorCode(s: string) {
    |s| == 6 && AllUpperHexDigits(s)
  }

  /** `String(n)` for a number from 0 to 9 */
  function DigitString(n: int): (s: string)
    requires 0 <= n < 10
    ensures |s| == 1 && IsDecimalDigit(s[0]) && HexDigitValue(s[0]) == n
  {
    [('0' as int + n) as char]
  }

  /**
   `randomCharacter` once the first draw has produced `choice` and the second draw
   (from 10 for a number, from 6 for a letter) has produced `pick`.
   */
  function CharacterFor(choice: nat, pick: nat): (r: Option<string>)
    requires choice == 0 ==> pick < |Numbers|
    requires choice == 1 ==> pick < |Letters|
    ensures r.Some? <==> choice < 2
    ensures r.Some? ==> |r.value| == 1 && IsUpperHexDigit(r.value[0])
    ensures r.Some? ==> (IsDecimalDigit(r.value[0]) <==> choice == 0)
    ensures r.Some? ==> HexDigitValue(r.value[0]) == if choice == 0 then pick else 10 + pick
  {
    match choice
    case 0 => Some(DigitString(Numbers[pick]))
    case 1 => Some(Letters[pick])
    case _ => None
  }

  /** Every upper-case hex digit is the outcome of exactly one pair of draws */
  lemma CharacterForCovers(c: char) returns (choice: nat, pick: nat)
    requires IsUpperHexDigit(c)
    ensures choice < 2 && (choice == 0 ==> pick < |Numbers|) && (choice == 1 ==> pick < |Letters|)
    ensures CharacterFor(choice, pick) == Some([c])
  {
    if IsDecimalDigit(c) {
      choice, pick := 0, c as int - '0' as int;
    } else {
      choice, pick := 1, c as int - 'A' as int;
    }
  }

  lemma CharacterForInjective(choice: nat, pick: nat, choice': nat, pick': nat)
    requires choice < 2 && (choice == 0 ==> pick < |Numbers|) && (choice == 1 ==> pick < |Letters|)
    requires choice' < 2 && (choice' == 0 ==> pick' < |Numbers|) && (choice' == 1 ==> pick' < |Letters|)
    requires CharacterFor(choice, pick) == CharacterFor(choice', pick')
    ensures choice == choice' && pick == pick'
  {
    var c := CharacterFor(choice, pick).value[0];
    assert IsDecimalDigit(c) <==> choice == 0;
    assert IsDecimalDigit(c) <==> choice' == 0;
  }

  /** `randomCharacter()`: the first draw is below 2, so the `nil` branch is never taken */
  method RandomCharacter() returns (r: Option<string>)
    ensures r.Some? && |r.value| == 1 && IsUpperHexDigit(r.value[0])
  {
    var choice: nat :| choice < 2;
    if choice == 0 {
      var pick: nat :| pick < |Numbers|;
      r := CharacterFor(choice, pick);
    } else {
      var pick: nat :| pick < |Letters|;
      r := CharacterFor(choice, pick);
    }
  }

  /** The strings of `parts` joined in order, as a reference for the loop below */
  function Concat(parts: seq<string>): string
    decreases |parts|
  {
    if parts == [] then [] else Concat(parts[..|parts| - 1]) + parts[|parts| - 1]
  }

  /** Joining one-character strings gives the string of those characters */
  lemma {:induction false} ConcatOfCharacters(parts: seq<string>)
    requires forall i :: 0 <= i < |parts| ==> |parts[i]| == 1
    ensures |Concat(parts)| == |parts|
    ensures forall i :: 0 <= i < |parts| ==> Concat(parts)[i] == parts[i][0]
    decreases |parts|
  {
    if parts != [] {
      ConcatOfCharacters(parts[..|parts| - 1]);
    }
  }

  lemma {:induction false} ConcatAppend(a: seq<string>, b: seq<string>)
    ensures Concat(a + b) == Concat(a) + Concat(b)
    decreases |b|
  {
    if b == [] {
      assert a + b == a;
    } else {
      var front, last := b[..|b| - 1], b[|b| - 1];
      assert (a + b)[..|a + b| - 1] == a + front;
      assert (a + b)[|a + b| - 1] == last;
      ConcatAppend(a, front);
      assert Concat(a) + Concat(front) + last == Concat(a) + (Concat(front) + last);
    }
  }

  /** `characterArrayToHexString(array:)`: append each string in turn */
  method CharacterArrayToHexString(parts: seq<string>) returns (hexString: string)
    ensures hexString == Concat(parts)
  {
    hexString := "";
    for i := 0 to |parts|
      invariant hexString == Concat(parts[..i])
    {
      assert parts[..i + 1][..i] == parts[..i];
      hexString := hexString + parts[i];
    }
    assert parts[..|parts|] == parts;
  }

  /** `generateRandomColor()`: six random characters, force-unwrapped and joined */
  method GenerateRandomColor() returns (color: string)
    ensures IsColorCode(color)
  {
    var characterArray: seq<string> := [];
    for k := 0 to 6
      invariant |characterArray| == k
      invariant forall i :: 0 <= i < k ==> |characterArray[i]| == 1 && IsUpperHexDigit(characterArray[i][0])
    {
      var character := RandomCharacter();
      characterArray := characterArray + [character.value];
    }
    color := CharacterArrayToHexString(characterArray);
    ConcatOfCharacters(characterArray);
  }

  /**
   `generateRandomPalette(amount:)`: the loop runs over `0...amount - 1`, a range that
   traps when `amount` is below 1.
   */
  method GenerateRandomPalette(amount: int) returns (colors: seq<string>)
    requires amount >= 1
    ensures |colors| == amount
    ensures forall i :: 0 <= i < |colors| ==> IsColorCode(colors[i])
  {
    colors := [];
    for k := 0 to amount
      invariant |colors| == k
      invariant forall i :: 0 <= i < k ==> IsColorCode(colors[i])
    {
      var color := GenerateRandomColor();
      colors := colors + [color];
    }
  }
}
