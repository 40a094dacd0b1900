/** liboo/crypto.go: Base58Encode and Base58Decode. Bytes are numbers below 256. */
module Base58 {
  import opened Digits

  const NUMERALS: string := "123456789"
  const CAPITALS: string := "ABCDEFGHJKLMNPQRSTUVWXYZ"
  const SMALL: string := "abcdefghijkmnopqrstuvwxyz"
  const ALPHABET: string := NUMERALS + CAPITALS + SMALL

  /** The alphabet is in ascending order, so no letter stands for two digits. */
  lemma Ascending()
    ensures |ALPHABET| == 58
    ensures forall i | 0 <= i < 57 :: ALPHABET[i] < ALPHABET[i + 1]
  {
    assert |NUMERALS| == 9 && forall i | 0 <= i < 8 :: NUMERALS[i] < NUMERALS[i + 1];
    assert |CAPITALS| == 24 && forall i | 0 <= i < 23 :: CAPITALS[i] < CAPITALS[i + 1];
    assert |SMALL| == 25 && forall i | 0 <= i < 24 :: SMALL[i] < SMALL[i + 1];
    assert NUMERALS[8] < CAPITALS[0] && CAPITALS[23] < SMALL[0];
    forall i | 0 <= i < 57 ensures ALPHABET[i] < ALPHABET[i + 1] {
      if i >= 33 {
        assert ALPHABET[i] == SMALL[i - 33] && ALPHABET[i + 1] == SMALL[i + 1 - 33];
      } else if 9 <= i {
        assert ALPHABET[i] == CAPITALS[i - 9];
      }
    }
  }

  /** The alphabet: every digit and letter of ASCII but 0, I, O and l. */
  lemma AlphabetIs(c: char)
    ensures c in ALPHABET <==>
            '1' <= c <= '9' || ('A' <= c <= 'Z' && c != 'I' && c != 'O') || ('a' <= c <= 'z' && c != 'l')
  {
    NumeralsAre(c);
    CapitalsAre(c);
    SmallAre(c);
    hide NUMERALS, CAPITALS, SMALL;
  }

  lemma NumeralsAre(c: char)
    ensures c in NUMERALS <==> '1' <= c <= '9'
  {
  }

  lemma CapitalsAre(c: char)
    ensures c in CAPITALS <==> 'A' <= c <= 'Z' && c != 'I' && c != 'O'
  {
  }

  lemma SmallAre(c: char)
    ensures c in SMALL <==> 'a' <= c <= 'z' && c != 'l'
  {
  }

  lemma {:induction false} LettersDiffer(i: nat, j: nat)
    requires i < j < 58 && |ALPHABET| == 58 && forall k | 0 <= k < 57 :: ALPHABET[k] < ALPHABET[k + 1]
    ensures ALPHABET[i] < ALPHABET[j]
  {
    if i + 1 == j {
    } else {
      LettersDiffer(i, j - 1);
    }
  }

  function Letter(d: nat): char
    requires d < 58
  {
    Ascending();
    ALPHABET[d]
  }

  /** The digits written in the alphabet. */
  function Letters(ds: seq<nat>): (cs: string)
    requires AreDigits(ds, 58)
    ensures |cs| == |ds|
  {
    seq(|ds|, i requires 0 <= i < |ds| => Letter(ds[i]))
  }

  /** The encoding: the digits of the number, after a zero digit when the input starts with a zero byte. */
  function Encoding(input: seq<nat>): (cs: string)
    requires input != []
  {
    var cs := Letters(DigitsOf(Value(input, 256), 58));
    if input[0] == 0 then [Letter(0)] + cs else cs
  }

  function Reversed<T>(s: seq<T>): (r: seq<T>)
    ensures |r| == |s|
    ensures forall i | 0 <= i < |s| :: r[i] == s[|s| - 1 - i]
  {
    seq(|s|, i requires 0 <= i < |s| => s[|s| - 1 - i])
  }

  /** The reversing loop at the end of Base58Encode. */
  method Reverse(result: array<char>)
    modifies result
    ensures result[..] == Reversed(old(result[..]))
  {
    var i, j := 0, result.Length - 1;
    while i < j
      invariant 0 <= i <= j + 1 && i + j == result.Length - 1
      invariant forall k | 0 <= k < i :: result[k] == old(result[result.Length - 1 - k])
      invariant forall k | j < k < result.Length :: result[k] == old(result[result.Length - 1 - k])
      invariant forall k | i <= k <= j :: result[k] == old(result[k])
    {
      result[i], result[j] := result[j], result[i];
      i, j := i + 1, j - 1;
    }
  }

  /** Base58Encode, whose callers must not pass an empty input. */
  method Base58Encode(input: seq<nat>) returns (r: string)
    requires input != [] && AreDigits(input, 256)
    ensures r == Encoding(input)
  {
    hide Letters, Letter, DigitsOf, Value, NUMERALS, CAPITALS, SMALL, ALPHABET;
    var x := Value(input, 256);
    ghost var n := x;
    var result: string := [];
    while x != 0
      invariant Letters(DigitsOf(n, 58)) == Letters(DigitsOf(x, 58)) + Reversed(result)
      decreases x
    {
      NextLetter(x);
      result := result + [Letter(x % 58)];
      x := x / 58;
      assert Reversed(result) == [result[|result| - 1]] + Reversed(result[..|result| - 1]);
    }
    NoLetters();
    if input[0] == 0x00 {
      result := result + [Letter(0)];
    }
    var a := new char[|result|](i requires 0 <= i < |result| => result[i]);
    assert a[..] == result;
    Reverse(a);
    r := a[..];
  }

  lemma NextLetter(x: nat)
    requires x > 0
    ensures x / 58 < x && Letters(DigitsOf(x, 58)) == Letters(DigitsOf(x / 58, 58)) + [Letter(x % 58)]
  {
    hide DigitsOf;
    LastDigit(x, 58);
  }

  lemma NoLetters()
    ensures Letters(DigitsOf(0, 58)) == []
  {
  }

  /** bytes.IndexByte: the first place of c in s, or -1. */
  method IndexByte(s: string, c: char) returns (i: int)
    ensures i == IndexOf(s, c)
  {
    i := 0;
    while i < |s|
      invariant 0 <= i <= |s| && forall j | 0 <= j < i :: s[j] != c
    {
      if s[i] == c {
        FirstPlace(s, c, i);
        return;
      }
      i := i + 1;
    }
    i := -1;
  }

  function IndexOf(s: string, c: char): (i: int)
    ensures -1 <= i < |s|
    ensures i == -1 <==> c !in s
    ensures i >= 0 ==> s[i] == c && forall j | 0 <= j < i :: s[j] != c
  {
    if s == [] then -1
    else if s[0] == c then 0
    else
      var r := IndexOf(s[1..], c);
      if r < 0 then -1 else r + 1
  }

  lemma FirstPlace(s: string, c: char, i: nat)
    requires i < |s| && s[i] == c && forall j | 0 <= j < i :: s[j] != c
    ensures IndexOf(s, c) == i
  {
    assert c in s;
  }

  /** The number a text stands for; a character outside the alphabet counts as digit -1. */
  function Total(input: string): int {
    if input == [] then 0 else Total(input[..|input| - 1]) * 58 + IndexOf(ALPHABET, input[|input| - 1])
  }

  /** The bytes of the number's magnitude, after a zero byte when the text starts with the zero digit. */
  function Decoding(input: string): (b: seq<nat>)
    ensures AreDigits(b, 256)
  {
    var t := Total(input);
    var b := DigitsOf(if t < 0 then -t else t, 256);
    if input != [] && input[0] == Letter(0) then [0] + b else b
  }

  method Base58Decode(input: string) returns (decoded: seq<nat>)
    ensures decoded == Decoding(input)
  {
    hide Letter, DigitsOf, IndexOf, NUMERALS, CAPITALS, SMALL, ALPHABET;
    var result := 0;
    for i := 0 to |input|
      invariant result == Total(input[..i])
    {
      var charIndex := IndexByte(ALPHABET, input[i]);
      assert input[..i + 1][..i] == input[..i];
      result := result * 58;
      result := result + charIndex;
    }
    assert input[..|input|] == input;
    decoded := DigitsOf(if result < 0 then -result else result, 256);
    if |input| > 0 && input[0] == Letter(0) {
      decoded := [0x00] + decoded;
    }
  }

  /** Reading a letter gives back its digit. */
  lemma LetterRead(d: nat)
    requires d < 58
    ensures IndexOf(ALPHABET, Letter(d)) == d
  {
    hide IndexOf;
    Ascending();
    var k := IndexOf(ALPHABET, Letter(d));
    assert Letter(d) in ALPHABET;
    if k < d {
      LettersDiffer(k, d);
    }
  }

  lemma {:induction false} TotalOfLetters(ds: seq<nat>)
    requires AreDigits(ds, 58)
    ensures Total(Letters(ds)) == Value(ds, 58)
  {
    hide Letter, IndexOf;
    if ds == [] {
    } else {
      var front, d := ds[..|ds| - 1], ds[|ds| - 1];
      TotalOfLetters(front);
      LetterRead(d);
      var cs := Letters(ds);
      assert cs[..|cs| - 1] == Letters(front) && cs[|cs| - 1] == Letter(d);
    }
  }

  /** Only the digit zero is written as the first letter. */
  lemma ZeroLetter(d: nat)
    requires d < 58
    ensures Letter(d) == Letter(0) <==> d == 0
  {
    Ascending();
    if d > 0 {
      LettersDiffer(0, d);
    }
  }

  /** A digit sequence with its run of leading zeros collapsed to at most one. */
  function Collapsed(ds: seq<nat>): (r: seq<nat>)
    ensures r == ds <==> |ds| < 2 || ds[0] != 0 || ds[1] != 0
    ensures forall base: nat :: base > 0 && AreDigits(ds, base) ==> AreDigits(r, base)
  {
    if ds != [] && ds[0] == 0 then
      assert ds == [0] + ds[1..];
      assert Stripped(ds) == Stripped(ds[1..]);
      [0] + Stripped(ds)
    else ds
  }

  /** The encoding is the letters of the digits, with a zero digit in front exactly when the input starts with zero. */
  lemma EncodingIs(b: seq<nat>)
    requires b != [] && AreDigits(b, 256)
    ensures var ds := DigitsOf(Value(b, 256), 58);
            Encoding(b) == Letters(if b[0] == 0 then [0] + ds else ds)
    ensures Encoding(b) != [] && (Encoding(b)[0] == Letter(0) <==> b[0] == 0)
  {
    hide DigitsOf;
    var ds := DigitsOf(Value(b, 256), 58);
    if b[0] == 0 {
      assert Letters([0] + ds) == [Letter(0)] + Letters(ds);
    } else {
      DigitsOfValue(b, 256);
      ZeroLetter(ds[0]);
    }
  }

  /** Decoding what was encoded gives the bytes back, with the run of leading zero bytes collapsed to at most one. */
  lemma DecodeEncode(b: seq<nat>)
    requires b != [] && AreDigits(b, 256)
    ensures Decoding(Encoding(b)) == Collapsed(b)
  {
    hide Letter, DigitsOf, Letters, Total, Value, Stripped;
    var v := Value(b, 256);
    var ds := DigitsOf(v, 58);
    EncodingIs(b);
    TotalOfLetters(if b[0] == 0 then [0] + ds else ds);
    LeadingZero(ds, 58);
    ValueOfDigits(v, 58);
    StrippedValue(b, 256);
    DigitsOfValue(Stripped(b), 256);
  }

  /** Encoding and decoding is the identity exactly when the input does not start with two zero bytes. */
  lemma RoundTripIff(b: seq<nat>)
    requires b != [] && AreDigits(b, 256)
    ensures Decoding(Encoding(b)) == b <==> !(|b| >= 2 && b[0] == 0 && b[1] == 0)
  {
    DecodeEncode(b);
  }

  /** Encoding what was decoded from letters gives the text back, with its leading zero digits collapsed likewise. */
  lemma EncodeDecode(ds: seq<nat>)
    requires ds != [] && AreDigits(ds, 58)
    ensures var b := Decoding(Letters(ds)); b != [] && Encoding(b) == Letters(Collapsed(ds))
  {
    hide Letter, DigitsOf, Total, Value, Stripped;
    var v := Value(ds, 58);
    TotalOfLetters(ds);
    ZeroLetter(ds[0]);
    StrippedValue(ds, 58);
    DigitsOfValue(Stripped(ds), 58);
    var b := DigitsOf(v, 256);
    ValueOfDigits(v, 256);
    LeadingZero(b, 256);
    var d := Decoding(Letters(ds));
    assert d == if ds[0] == 0 then [0] + b else b;
    EncodingIs(d);
  }

  /** Two byte strings have the same encoding exactly when they agree after collapsing their leading zeros. */
  lemma EncodingsAgree(x: seq<nat>, y: seq<nat>)
    requires x != [] && y != [] && AreDigits(x, 256) && AreDigits(y, 256)
    ensures Encoding(x) == Encoding(y) <==> Collapsed(x) == Collapsed(y)
  {
    DecodeEncode(x);
    DecodeEncode(y);
    if Collapsed(x) == Collapsed(y) {
      SameEncoding(x);
      SameEncoding(y);
    }
  }

  lemma SameEncoding(b: seq<nat>)
    requires b != [] && AreDigits(b, 256)
    ensures Collapsed(b) != [] && AreDigits(Collapsed(b), 256) && Encoding(Collapsed(b)) == Encoding(b)
  {
    hide Letter, DigitsOf, Letters, Value, Stripped;
    if b[0] == 0 {
      StrippedValue(b, 256);
      LeadingZero(Stripped(b), 256);
    }
  }
}
