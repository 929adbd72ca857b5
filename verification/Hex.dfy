/** #rrggbb colours: the parser and the formatter it goes through. */
module Hex {
  import Arithmetic
  import opened Common

  predicate IsHexDigit(c: char) {
    '0' <= c <= '9' || 'a' <= c <= 'f' || 'A' <= c <= 'F'
  }

  function DigitValue(c: char): (v: nat)
    requires IsHexDigit(c)
    ensures v < 16
  {
    if c <= '9' then c as int - '0' as int
    else if c <= 'F' then c as int - 'A' as int + 10
    else c as int - 'a' as int + 10
  }

  function DigitChar(v: nat): (c: char)
    requires v < 16
    ensures IsHexDigit(c) && LowerChar(c) == c && DigitValue(c) == v
  {
    if v < 10 then ('0' as int + v) as char else ('a' as int + (v - 10)) as char
  }

  predicate AllHex(s: string) {
    forall i | 0 <= i < |s| :: IsHexDigit(s[i])
  }

  /** The number a string of hex digits spells. */
  function Number(s: string): nat
    requires AllHex(s)
  {
    if s == "" then 0 else Number(s[..|s| - 1]) * 16 + DigitValue(s[|s| - 1])
  }

  /** The last k hex digits of n, in lower case, padded with zeros. */
  function Digits(n: nat, k: nat): (s: string)
    ensures |s| == k && AllHex(s)
  {
    if k == 0 then "" else Digits(n / 16, k - 1) + [DigitChar(n % 16)]
  }

  predicate Matches(s: string) {
    |s| == 7 && s[0] == '#' && AllHex(s[1..])
  }

  /** The shape is checked, the digits become a number, the number is formatted. */
  function ParseHex(s: string): Option<string> {
    if Matches(s) then Some("#" + Digits(Number(s[1..]), 6)) else None
  }

  lemma {:induction false} LowerIsPointwise(s: string, i: nat)
    requires i < |s|
    ensures Lower(s)[i] == LowerChar(s[i])
  {
    if i > 0 {
      LowerIsPointwise(s[1..], i - 1);
    }
  }

  lemma DigitRoundTrip(c: char)
    requires IsHexDigit(c)
    ensures DigitChar(DigitValue(c)) == LowerChar(c)
  {
  }

  /** Formatting what was parsed is lower-casing, digit for digit. */
  lemma {:induction false} DigitsOfNumber(s: string, i: nat)
    requires AllHex(s) && i < |s|
    ensures Digits(Number(s), |s|)[i] == LowerChar(s[i])
    decreases |s|
  {
    var front, last := s[..|s| - 1], s[|s| - 1];
    assert Number(s) / 16 == Number(front) && Number(s) % 16 == DigitValue(last);
    DigitRoundTrip(last);
    if i < |front| {
      DigitsOfNumber(front, i);
    }
  }

  /** And parsing what was formatted gives the number back. */
  lemma {:induction false} NumberOfDigits(n: nat, k: nat)
    ensures Number(Digits(n, k)) == n % Pow16(k)
    decreases k
  {
    if k > 0 {
      var s := Digits(n, k);
      assert s[..|s| - 1] == Digits(n / 16, k - 1);
      NumberOfDigits(n / 16, k - 1);
      SplitModulus(n, Pow16(k - 1));
    }
  }

  function Pow16(k: nat): (p: nat)
    ensures p > 0
  {
    if k == 0 then 1 else 16 * Pow16(k - 1)
  }

  lemma SplitModulus(n: nat, p: nat)
    requires p > 0
    ensures n / 16 % p * 16 + n % 16 == n % (16 * p)
  {
    var q, r := n / 16 / p, n / 16 % p;
    assert n / 16 == q * p + r;
    assert n == (q * p + r) * 16 + n % 16;
    assert n == q * (16 * p) + (r * 16 + n % 16);
    assert r * 16 + n % 16 < 16 * p;
    Remainder(n, 16 * p, q, r * 16 + n % 16);
  }

  lemma Remainder(n: nat, d: nat, q: nat, r: nat)
    requires r < d && n == q * d + r
    ensures n % d == r
  {
    Arithmetic.QuotientIs(n, d, q, r);
  }

  /** Main result: a parsed colour is the text in lower case, and parsing it again changes nothing. */
  lemma ParseHexLowers(s: string)
    requires ParseHex(s).Some?
    ensures ParseHex(s).value == Lower(s)
    ensures ParseHex(ParseHex(s).value) == ParseHex(s)
  {
    LowersOnce(s);
    var c := ParseHex(s).value;
    assert Matches(c) by {
      assert c[1..] == Digits(Number(s[1..]), 6);
    }
    LowersOnce(c);
    LowerIdempotent(s);
  }

  /** What is a colour at all: # and six hex digits, in either case. */
  lemma ParseAcceptsIff(s: string)
    ensures ParseHex(s).Some? <==>
              |s| == 7 && s[0] == '#' && forall i | 1 <= i < 7 :: s[i] in "0123456789abcdefABCDEF"
  {
    forall i | 1 <= i < |s| ensures IsHexDigit(s[i]) <==> s[i] in "0123456789abcdefABCDEF" {
      HexDigitIff(s[i]);
      if |s| >= 1 {
        assert s[1..][i - 1] == s[i];
      }
    }
    if |s| == 7 {
      assert forall i | 0 <= i < 6 :: s[1..][i] == s[i + 1];
    }
  }

  lemma HexDigitIff(c: char)
    ensures IsHexDigit(c) <==> c in "0123456789abcdefABCDEF"
  {
    var digits := "0123456789abcdefABCDEF";
    assert forall i | 0 <= i < 10 :: digits[i] == ('0' as int + i) as char;
    assert forall i | 10 <= i < 16 :: digits[i] == ('a' as int + (i - 10)) as char;
    assert forall i | 16 <= i < 22 :: digits[i] == ('A' as int + (i - 16)) as char;
    if '0' <= c <= '9' {
      assert digits[c as int - '0' as int] == c;
    } else if 'a' <= c <= 'f' {
      assert digits[10 + (c as int - 'a' as int)] == c;
    } else if 'A' <= c <= 'F' {
      assert digits[16 + (c as int - 'A' as int)] == c;
    }
  }

  lemma LowersOnce(s: string)
    requires Matches(s)
    ensures ParseHex(s).value == Lower(s)
  {
    var c := ParseHex(s).value;
    forall i | 0 <= i < 7 ensures c[i] == Lower(s)[i] {
      LowerIsPointwise(s, i);
      if i > 0 {
        DigitsOfNumber(s[1..], i - 1);
      }
    }
  }

  /** A colour as this program formats it. */
  predicate Canonical(c: string) {
    ParseHex(c) == Some(c)
  }

  /** Those are the colours already in lower case. */
  lemma CanonicalIffLower(c: string)
    ensures Canonical(c) <==> Matches(c) && forall i | 0 <= i < 7 :: LowerChar(c[i]) == c[i]
  {
    if Matches(c) {
      LowersOnce(c);
      forall i | 0 <= i < 7 ensures Lower(c)[i] == LowerChar(c[i]) {
        LowerIsPointwise(c, i);
      }
      if forall i | 0 <= i < 7 :: LowerChar(c[i]) == c[i] {
        assert Lower(c) == c;
      }
    }
  }

  lemma ParsedIsCanonical(s: string)
    requires ParseHex(s).Some?
    ensures Canonical(ParseHex(s).value)
  {
    ParseHexLowers(s);
  }

  lemma NumberSurvives(s: string, k: nat)
    requires AllHex(s) && |s| == k
    ensures Number(Digits(Number(s), k)) == Number(s)
  {
    NumberOfDigits(Number(s), k);
    NumberIsSmall(s);
    Remainder(Number(s), Pow16(k), 0, Number(s));
  }

  /** Two spellings parse to the same colour exactly when they spell the same number. */
  lemma SameColorIffSameNumber(s: string, t: string)
    requires Matches(s) && Matches(t)
    ensures ParseHex(s) == ParseHex(t) <==> Number(s[1..]) == Number(t[1..])
  {
    var a, b := s[1..], t[1..];
    NumberSurvives(a, 6);
    NumberSurvives(b, 6);
    var c, d := "#" + Digits(Number(a), 6), "#" + Digits(Number(b), 6);
    assert c[1..] == Digits(Number(a), 6) && d[1..] == Digits(Number(b), 6);
  }

  lemma {:induction false} NumberIsSmall(s: string)
    requires AllHex(s)
    ensures Number(s) < Pow16(|s|)
    decreases |s|
  {
    if s != "" {
      NumberIsSmall(s[..|s| - 1]);
    }
  }
}
