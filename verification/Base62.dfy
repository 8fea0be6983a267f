/** Base62 numerals: the loops of `app/core/base62.py` and what they compute. */
module Base62 {
  import opened Common

  const DIGITS := "0123456789"
  const LOWER := "abcdefghijklmnopqrstuvwxyz"
  const UPPER := "ABCDEFGHIJKLMNOPQRSTUVWXYZ"
  const ALPHABET: string := DIGITS + LOWER + UPPER
  const BASE: nat := 62

  datatype CodecError = NegativeNumber | UnknownCharacter

  /** The position of a character in the alphabet, computed from its code point. */
  function Rank(c: char): int {
    if c <= '9' then c as int - '0' as int
    else if c >= 'a' then c as int - 'a' as int + 10
    else c as int - 'A' as int + 36
  }

  predicate IsDigit(c: char) {
    '0' <= c <= '9' || 'a' <= c <= 'z' || 'A' <= c <= 'Z'
  }

  function DigitChar(d: nat): (c: char)
    requires d < BASE
    ensures IsDigit(c) && Rank(c) == d
  {
    if d < 10 then '0' + d as char
    else if d < 36 then 'a' + (d - 10) as char
    else 'A' + (d - 36) as char
  }

  lemma DigitRank(c: char)
    requires IsDigit(c)
    ensures 0 <= Rank(c) < BASE && DigitChar(Rank(c)) == c
  {}

  predicate IsNumeral(s: string) {
    forall i | 0 <= i < |s| :: IsDigit(s[i])
  }

  predicate RanksFrom(s: string, first: int) {
    forall i | 0 <= i < |s| :: IsDigit(s[i]) && Rank(s[i]) == first + i
  }

  lemma RanksConcat(s: string, t: string, first: int)
    requires RanksFrom(s, first) && RanksFrom(t, first + |s|)
    ensures RanksFrom(s + t, first)
  {}

  lemma LowerRanks()
    ensures RanksFrom(LOWER, 10)
  {
    var s, t := "abcdefghijklm", "nopqrstuvwxyz";
    RanksConcat(s, t, 10);
    assert s + t == LOWER;
  }

  lemma UpperRanks()
    ensures RanksFrom(UPPER, 36)
  {
    var s, t := "ABCDEFGHIJKLM", "NOPQRSTUVWXYZ";
    RanksConcat(s, t, 36);
    assert s + t == UPPER;
  }

  /** A string that lists the 62 digit characters once each, in `Rank` order. */
  predicate InRankOrder(s: string) {
    |s| == BASE && RanksFrom(s, 0)
  }

  method Alphabet() returns (letters: string)
    ensures InRankOrder(letters)
  {
    LowerRanks();
    UpperRanks();
    RanksConcat(DIGITS, LOWER, 0);
    RanksConcat(DIGITS + LOWER, UPPER, 0);
    return ALPHABET;
  }

  /** The digits in order of value: decimal digits, then lower case, then upper case. */
  lemma DigitsInOrder(d: nat)
    requires d < BASE
    ensures d < 10 ==> DigitChar(d) == "0123456789"[d]
    ensures 10 <= d < 36 ==> DigitChar(d) == "abcdefghijklmnopqrstuvwxyz"[d - 10]
    ensures 36 <= d ==> DigitChar(d) == "ABCDEFGHIJKLMNOPQRSTUVWXYZ"[d - 36]
  {
    LowerRanks();
    UpperRanks();
    if d < 10 {
      DigitRank(DIGITS[d]);
    } else if d < 36 {
      DigitRank(LOWER[d - 10]);
    } else {
      DigitRank(UPPER[d - 36]);
    }
  }

  method CharAt(d: nat) returns (c: char)
    requires d < BASE
    ensures c == DigitChar(d)
  {
    var letters := Alphabet();
    DigitRank(letters[d]);
    return letters[d];
  }

  /** `str.index`: the first position of a character, if it occurs. */
  method FirstIndex(s: string, c: char) returns (index: Option<nat>)
    ensures index.None? ==> c !in s
    ensures index.Some? ==> index.value < |s| && s[index.value] == c && c !in s[..index.value]
  {
    for i := 0 to |s|
      invariant c !in s[..i]
    {
      if s[i] == c {
        return Some(i);
      }
    }
    return None;
  }

  /** `ALPHABET.index` succeeds exactly on the digit characters and returns their rank. */
  method IndexOf(c: char) returns (index: Option<nat>)
    ensures index == if IsDigit(c) then Some(Rank(c)) else None
  {
    var letters := Alphabet();
    index := FirstIndex(letters, c);
    if index.None? && IsDigit(c) {
      DigitRank(letters[Rank(c)]);
    }
  }

  // ---------------------------------------------------------------- specification

  /** The value of a numeral, most significant digit first. */
  function Value(s: string): nat
    requires IsNumeral(s)
  {
    if s == "" then 0
    else
      DigitRank(s[|s| - 1]);
      Value(s[..|s| - 1]) * BASE + Rank(s[|s| - 1])
  }

  /** The canonical numeral of a number: no leading zero, except for zero itself. */
  function Numeral(n: nat): (s: string)
    ensures IsNumeral(s) && s != ""
  {
    if n < BASE then [DigitChar(n)] else Numeral(n / BASE) + [DigitChar(n % BASE)]
  }

  /** A string without its leading '0' characters, but never empty. */
  function StripZeros(s: string): string {
    if |s| == 0 then "0"
    else if |s| > 1 && s[0] == '0' then StripZeros(s[1..])
    else s
  }

  predicate IsCanonical(s: string) {
    IsNumeral(s) && StripZeros(s) == s
  }

  /** Lexicographic order by alphabet position on strings of one length. */
  ghost predicate LexLess(s: string, t: string)
    requires |s| == |t|
  {
    exists k :: 0 <= k < |s| && s[..k] == t[..k] && Rank(s[k]) < Rank(t[k])
  }

  /** Shorter strings first, then lexicographic. */
  ghost predicate ShortlexLess(s: string, t: string) {
    |s| < |t| || (|s| == |t| && LexLess(s, t))
  }

  function Pow(b: nat, e: nat): nat {
    if e == 0 then 1 else b * Pow(b, e - 1)
  }

  // ---------------------------------------------------------------- the loops

  /** `encode`: repeated division collects digits least significant first, then reverses. */
  method Encode(number: int) returns (r: Result<string, CodecError>)
    ensures r == if number < 0 then Err(NegativeNumber) else Ok(Numeral(number))
  {
    if number < 0 {
      return Err(NegativeNumber);
    }
    if number == 0 {
      var zero := CharAt(0);
      return Ok([zero]);
    }
    var rest := number;
    var digits: string := [];
    while rest > 0
      invariant 0 <= rest
      invariant rest == 0 ==> Reversed(digits) == Numeral(number)
      invariant rest > 0 ==> Numeral(rest) + Reversed(digits) == Numeral(number)
    {
      var remainder := rest % BASE;
      var digit := CharAt(remainder);
      ReversedSnoc(digits, digit);
      digits := digits + [digit];
      assert rest >= BASE ==> Numeral(rest) == Numeral(rest / BASE) + [DigitChar(remainder)];
      rest := rest / BASE;
    }
    var text := ReverseOf(digits);
    return Ok(text);
  }

  function Reversed(s: string): (r: string) {
    if s == "" then "" else Reversed(s[1..]) + [s[0]]
  }

  lemma {:induction false} ReversedSnoc(s: string, c: char)
    ensures Reversed(s + [c]) == [c] + Reversed(s)
  {
    if s == "" {
    } else {
      assert (s + [c])[1..] == s[1..] + [c];
      ReversedSnoc(s[1..], c);
    }
  }

  method ReverseOf(s: string) returns (r: string)
    ensures r == Reversed(s)
  {
    r := "";
    for i := 0 to |s|
      invariant r == Reversed(s[..i])
    {
      assert s[..i + 1] == s[..i] + [s[i]];
      ReversedSnoc(s[..i], s[i]);
      r := [s[i]] + r;
    }
    assert s[..|s|] == s;
  }

  /** `decode`: Horner evaluation, rejecting the first character outside the alphabet. */
  method Decode(shortCode: string) returns (r: Result<nat, CodecError>)
    ensures r == if IsNumeral(shortCode) then Ok(Value(shortCode)) else Err(UnknownCharacter)
  {
    var number: nat := 0;
    for i := 0 to |shortCode|
      invariant IsNumeral(shortCode[..i]) && number == Value(shortCode[..i])
    {
      var index := IndexOf(shortCode[i]);
      if index.None? {
        return Err(UnknownCharacter);
      }
      assert shortCode[..i + 1][..i] == shortCode[..i];
      number := number * BASE + index.value;
    }
    assert shortCode[..|shortCode|] == shortCode;
    return Ok(number);
  }

  // ---------------------------------------------------------------- round trips

  /** Decoding an encoded number gives the number back. */
  lemma {:induction false} DecodeEncode(n: nat)
    ensures Value(Numeral(n)) == n
  {
    var s := Numeral(n);
    if n < BASE {
      assert s[..|s| - 1] == "";
    } else {
      DecodeEncode(n / BASE);
      assert s[..|s| - 1] == Numeral(n / BASE);
    }
  }

  lemma ShiftDigit(digit: int, power: int, rest: int)
    ensures (digit * power + rest) * BASE == digit * (BASE * power) + rest * BASE
  {}

  lemma {:induction false} LeadingDigit(c: char, s: string)
    requires IsDigit(c) && IsNumeral(s)
    ensures IsNumeral([c] + s) && Value([c] + s) == Rank(c) * Pow(BASE, |s|) + Value(s)
  {
    var t := [c] + s;
    if s == "" {
      assert t[..0] == "";
    } else {
      var init := s[..|s| - 1];
      LeadingDigit(c, init);
      assert t[..|t| - 1] == [c] + init;
      ShiftDigit(Rank(c), Pow(BASE, |init|), Value(init));
    }
  }

  lemma {:induction false} StripKeepsValue(s: string)
    requires IsNumeral(s)
    ensures IsCanonical(StripZeros(s)) && Value(StripZeros(s)) == Value(s)
  {
    if |s| == 0 {
      ZeroNumeral();
    } else if |s| > 1 && s[0] == '0' {
      StripKeepsValue(s[1..]);
      assert s == ['0'] + s[1..];
      ZeroNumeral();
      LeadingDigit('0', s[1..]);
    }
  }

  lemma ZeroNumeral()
    ensures IsNumeral("0") && Value("0") == 0 && Rank('0') == 0 && Numeral(0) == "0"
  {}

  lemma {:induction false} CanonicalIsNumeral(s: string)
    requires IsCanonical(s)
    ensures s != "" && Numeral(Value(s)) == s
  {
    if |s| == 1 {
      DigitRank(s[0]);
      assert s[..0] == "";
      assert Value(s) == Rank(s[0]);
      assert Numeral(Value(s)) == [DigitChar(Rank(s[0]))];
    } else {
      var init, last := s[..|s| - 1], s[|s| - 1];
      DigitRank(last);
      assert s[0] != '0' by {
        if s[0] == '0' { StripShorter(s[1..]); }
      }
      assert init[0] != '0';
      CanonicalIsNumeral(init);
      assert Value(s) == Value(init) * BASE + Rank(last);
      assert Value(init) != 0 by { if Value(init) == 0 { ZeroNumeral(); } }
      assert Value(s) / BASE == Value(init) && Value(s) % BASE == Rank(last);
      assert s == init + [last];
    }
  }

  lemma {:induction false} StripShorter(s: string)
    ensures |StripZeros(s)| <= if |s| == 0 then 1 else |s|
  {
    if |s| > 1 && s[0] == '0' { StripShorter(s[1..]); }
  }

  /** What is stripped is zeros, and nothing more can be, short of the last character. */
  lemma {:induction false} StripsOnlyZeros(s: string)
    requires s != ""
    ensures exists n: nat :: n < |s| && s[n..] == StripZeros(s) && forall i | 0 <= i < n :: s[i] == '0'
    ensures StripZeros(s)[0] != '0' || |StripZeros(s)| == 1
  {
    if |s| > 1 && s[0] == '0' {
      StripsOnlyZeros(s[1..]);
      var n: nat :| n < |s[1..]| && s[1..][n..] == StripZeros(s[1..]) && forall i | 0 <= i < n :: s[1..][i] == '0';
      assert s[n + 1..] == s[1..][n..];
      forall i | 0 <= i < n + 1 ensures s[i] == '0' {
        assert i > 0 ==> s[i] == s[1..][i - 1];
      }
    } else {
      assert s[0..] == s;
    }
  }

  /** Canonical means: digits only, not empty, and no leading zero except in "0". */
  lemma CanonicalIff(s: string)
    ensures IsCanonical(s) <==> IsNumeral(s) && s != "" && (s[0] != '0' || |s| == 1)
  {
    if |s| > 1 && s[0] == '0' {
      StripShorter(s[1..]);
    }
  }

  /** Encoding a decoded string removes exactly its leading zeros. */
  lemma EncodeDecode(s: string)
    requires IsNumeral(s)
    ensures Numeral(Value(s)) == StripZeros(s)
  {
    StripKeepsValue(s);
    CanonicalIsNumeral(StripZeros(s));
  }

  /** Canonical numerals are exactly the outputs of the encoder. */
  lemma NumeralIsCanonical(n: nat)
    ensures IsCanonical(Numeral(n))
  {
    EncodeDecode(Numeral(n));
    DecodeEncode(n);
  }

  // ---------------------------------------------------------------- order

  lemma PowPositive(e: nat)
    ensures Pow(BASE, e) >= 1
  {}

  /** Strings of length L decode below 62^L. */
  lemma {:induction false} ValueBound(s: string)
    requires IsNumeral(s)
    ensures Value(s) < Pow(BASE, |s|)
  {
    if s != "" {
      ValueBound(s[..|s| - 1]);
      DigitRank(s[|s| - 1]);
    }
  }

  lemma LexSnoc(s: string, t: string, a: char, b: char)
    requires |s| == |t|
    ensures LexLess(s + [a], t + [b]) <==> LexLess(s, t) || (s == t && Rank(a) < Rank(b))
  {
    var s', t' := s + [a], t + [b];
    assert forall k | 0 <= k <= |s| :: s'[..k] == s[..k] && t'[..k] == t[..k];
    assert s[..|s|] == s && t[..|t|] == t;
    if s == t && Rank(a) < Rank(b) {
      assert s'[..|s|] == t'[..|s|];
    }
  }

  lemma HornerOrder(high: int, low: int, high': int, low': int)
    requires 0 <= low < BASE && 0 <= low' < BASE
    ensures high * BASE + low < high' * BASE + low' <==> high < high' || (high == high' && low < low')
    ensures high * BASE + low == high' * BASE + low' <==> high == high' && low == low'
  {}

  /** On strings of one length, decoding is strictly monotone for the alphabet order. */
  lemma {:induction false} SameLengthOrder(s: string, t: string)
    requires IsNumeral(s) && IsNumeral(t) && |s| == |t|
    ensures Value(s) < Value(t) <==> LexLess(s, t)
    ensures Value(s) == Value(t) <==> s == t
  {
    if s != "" {
      var n := |s| - 1;
      DigitRank(s[n]);
      DigitRank(t[n]);
      SameLengthOrder(s[..n], t[..n]);
      HornerOrder(Value(s[..n]), Rank(s[n]), Value(t[..n]), Rank(t[n]));
      LexSnoc(s[..n], t[..n], s[n], t[n]);
      assert s == s[..n] + [s[n]] && t == t[..n] + [t[n]];
    }
  }

  lemma ScaledUp(digit: nat, power: nat)
    requires digit >= 1
    ensures digit * power >= power
  {}

  lemma {:induction false} CanonicalLowerBound(s: string)
    requires IsCanonical(s)
    ensures s != ""
    ensures |s| > 1 ==> Value(s) >= Pow(BASE, |s| - 1)
  {
    CanonicalIsNumeral(s);
    if |s| > 1 {
      assert s[0] != '0' by {
        if s[0] == '0' { StripShorter(s[1..]); }
      }
      DigitRank(s[0]);
      ZeroNumeral();
      assert Rank(s[0]) != 0;
      assert s == [s[0]] + s[1..];
      LeadingDigit(s[0], s[1..]);
      PowPositive(|s| - 1);
      ScaledUp(Rank(s[0]), Pow(BASE, |s| - 1));
    }
  }

  lemma {:induction false} PowMonotone(a: nat, b: nat)
    requires a <= b
    ensures Pow(BASE, a) <= Pow(BASE, b)
  {
    if a < b { PowMonotone(a, b - 1); PowPositive(b - 1); }
  }

  /** Numeric order is shortlex order on canonical strings. */
  lemma CanonicalOrder(s: string, t: string)
    requires IsCanonical(s) && IsCanonical(t)
    ensures Value(s) < Value(t) <==> ShortlexLess(s, t)
  {
    CanonicalLowerBound(s);
    CanonicalLowerBound(t);
    ValueBound(s);
    ValueBound(t);
    if |s| < |t| {
      PowMonotone(|s|, |t| - 1);
    } else if |t| < |s| {
      PowMonotone(|t|, |s| - 1);
    } else {
      SameLengthOrder(s, t);
    }
  }

  /** Encoding is an order isomorphism onto the canonical strings. */
  lemma EncodeOrder(m: nat, n: nat)
    ensures m < n <==> ShortlexLess(Numeral(m), Numeral(n))
  {
    NumeralIsCanonical(m);
    NumeralIsCanonical(n);
    CanonicalOrder(Numeral(m), Numeral(n));
    DecodeEncode(m);
    DecodeEncode(n);
  }

  // ---------------------------------------------------------------- fixed-length codes

  /** The length-L string with a given value. */
  function Padded(n: nat, length: nat): (s: string)
    requires n < Pow(BASE, length)
    ensures |s| == length && IsNumeral(s)
  {
    if length == 0 then ""
    else Padded(n / BASE, length - 1) + [DigitChar(n % BASE)]
  }

  lemma {:induction false} PaddedValue(n: nat, length: nat)
    requires n < Pow(BASE, length)
    ensures Value(Padded(n, length)) == n
  {
    if length > 0 {
      PaddedValue(n / BASE, length - 1);
      assert Padded(n, length)[..length - 1] == Padded(n / BASE, length - 1);
    }
  }

  /** The codes of one length: what the random generator can return. */
  ghost predicate IsCode(s: string, length: nat) {
    |s| == length && IsNumeral(s)
  }

  lemma CodeFromValue(s: string, length: nat)
    requires IsCode(s, length)
    ensures Value(s) < Pow(BASE, length) && Padded(Value(s), length) == s
  {
    ValueBound(s);
    PaddedValue(Value(s), length);
    SameLengthOrder(s, Padded(Value(s), length));
  }

  ghost function FirstCodes(count: nat, length: nat): set<string>
    requires count <= Pow(BASE, length)
  {
    if count == 0 then {} else FirstCodes(count - 1, length) + {Padded(count - 1, length)}
  }

  lemma {:induction false} FirstCodesMember(s: string, count: nat, length: nat)
    requires count <= Pow(BASE, length)
    ensures s in FirstCodes(count, length) <==> IsCode(s, length) && Value(s) < count
  {
    if count > 0 {
      FirstCodesMember(s, count - 1, length);
      PaddedValue(count - 1, length);
      if IsCode(s, length) {
        CodeFromValue(s, length);
      }
    }
  }

  /** The next code is new. */
  lemma NextCodeIsNew(count: nat, length: nat)
    requires count < Pow(BASE, length)
    ensures Padded(count, length) !in FirstCodes(count, length)
  {
    FirstCodesMember(Padded(count, length), count, length);
    PaddedValue(count, length);
  }

  lemma {:induction false} FirstCodesCount(count: nat, length: nat)
    requires count <= Pow(BASE, length)
    ensures |FirstCodes(count, length)| == count
  {
    if count > 0 {
      FirstCodesCount(count - 1, length);
      NextCodeIsNew(count - 1, length);
    }
  }

  /** Decoding maps the length-L codes one-to-one onto [0, 62^L), so there are 62^L of them. */
  lemma CodeSpace(length: nat) returns (codes: set<string>)
    ensures forall s :: s in codes <==> IsCode(s, length)
    ensures |codes| == Pow(BASE, length)
    ensures forall s, t | IsCode(s, length) && IsCode(t, length) && Value(s) == Value(t) :: s == t
    ensures forall n: nat | n < Pow(BASE, length) :: IsCode(Padded(n, length), length) && Value(Padded(n, length)) == n
  {
    codes := FirstCodes(Pow(BASE, length), length);
    FirstCodesCount(Pow(BASE, length), length);
    forall s ensures s in codes <==> IsCode(s, length) {
      FirstCodesMember(s, Pow(BASE, length), length);
      if IsCode(s, length) {
        ValueBound(s);
      }
    }
    forall s, t | IsCode(s, length) && IsCode(t, length) && Value(s) == Value(t) ensures s == t {
      SameLengthOrder(s, t);
    }
    forall n: nat | n < Pow(BASE, length) ensures Value(Padded(n, length)) == n {
      PaddedValue(n, length);
    }
  }
}

/** `app/core/code_generator.py`: a fixed-length string of independently drawn characters. */
module CodeGenerator {
  import opened Base62

  const DEFAULT_CODE_LENGTH: nat := 7

  /** The generated code as a function of the random draws (one alphabet index per position). */
  function GenerateShortCode(draws: seq<nat>): (code: string)
    requires forall i | 0 <= i < |draws| :: draws[i] < BASE
    ensures IsCode(code, |draws|)
  {
    seq(|draws|, i requires 0 <= i < |draws| => DigitChar(draws[i]))
  }

  /** There are about 3.5 trillion codes of the default length. */
  lemma DefaultCodeSpace() returns (codes: set<string>)
    ensures forall s :: s in codes <==> IsCode(s, DEFAULT_CODE_LENGTH)
    ensures |codes| == 3_521_614_606_208
  {
    codes := CodeSpace(DEFAULT_CODE_LENGTH);
    assert Pow(BASE, 4) == 14_776_336 && Pow(BASE, 7) == 62 * 62 * 62 * Pow(BASE, 4);
  }

  /** Every code of the default length is generated by exactly one sequence of draws. */
  lemma EveryCodeIsDrawn(code: string) returns (draws: seq<nat>)
    requires IsCode(code, DEFAULT_CODE_LENGTH)
    ensures |draws| == DEFAULT_CODE_LENGTH && forall i | 0 <= i < |draws| :: draws[i] < BASE
    ensures GenerateShortCode(draws) == code
    ensures forall other: seq<nat> |
              |other| == DEFAULT_CODE_LENGTH && (forall i | 0 <= i < |other| :: other[i] < BASE) &&
              GenerateShortCode(other) == code :: other == draws
  {
    forall i | 0 <= i < |code| ensures 0 <= Rank(code[i]) < BASE && DigitChar(Rank(code[i])) == code[i] {
      DigitRank(code[i]);
    }
    draws := seq(|code|, i requires 0 <= i < |code| => Rank(code[i]));
    forall other: seq<nat> |
      |other| == DEFAULT_CODE_LENGTH && (forall i | 0 <= i < |other| :: other[i] < BASE) &&
      GenerateShortCode(other) == code
      ensures other == draws
    {
      forall i | 0 <= i < |other| ensures other[i] == draws[i] {
        assert GenerateShortCode(other)[i] == DigitChar(other[i]);
      }
    }
  }
}
