/** Addresses as the report prints them: `snprintf` with the format 0x%zx into 32 bytes. */
module HexText {

  const DIGITS := "0123456789abcdef"

  function Digits(n: nat): string {
    if n < 16 then [DIGITS[n]] else Digits(n / 16) + [DIGITS[n % 16]]
  }

  function HexAddress(n: nat): string {
    "0x" + Digits(n)
  }

  function DigitValue(c: char): nat {
    if '0' <= c <= '9' then (c - '0') as nat
    else if 'a' <= c <= 'f' then 10 + (c - 'a') as nat
    else 16
  }

  function Value(s: string): nat {
    if s == [] then 0 else 16 * Value(s[..|s| - 1]) + DigitValue(s[|s| - 1])
  }

  lemma DigitReadsBack(d: nat)
    requires d < 16
    ensures DigitValue(DIGITS[d]) == d
  {
    assert DIGITS[..10] == "0123456789" && DIGITS[10..] == "abcdef";
  }

  lemma {:induction false} DigitsReadBack(n: nat)
    ensures Value(Digits(n)) == n
  {
    DigitReadsBack(n % 16);
    if n < 16 {
      assert Digits(n)[..0] == [];
    } else {
      DigitsReadBack(n / 16);
      assert Digits(n)[..|Digits(n)| - 1] == Digits(n / 16);
    }
  }

  predicate IsHexDigit(c: char) {
    '0' <= c <= '9' || 'a' <= c <= 'f'
  }

  /** Lower-case hexadecimal digits without a leading zero, or a single zero. */
  predicate IsNumeral(s: string) {
    s != "" && (forall i :: 0 <= i < |s| ==> IsHexDigit(s[i])) && (|s| > 1 ==> s[0] != '0')
  }

  /** The text reads as the address in the notation of the C language. */
  predicate Denotes(text: string, address: nat) {
    |text| > 2 && text[..2] == "0x" && IsNumeral(text[2..]) && Value(text[2..]) == address
  }

  lemma {:induction false} DigitsAreANumeral(n: nat)
    ensures IsNumeral(Digits(n)) && (n > 0 ==> Digits(n)[0] != '0')
  {
    assert forall d :: 0 <= d < 16 ==> IsHexDigit(DIGITS[d]) && (d > 0 ==> DIGITS[d] != '0');
    if n >= 16 {
      DigitsAreANumeral(n / 16);
    }
  }

  lemma DigitPrintsBack(c: char)
    requires IsHexDigit(c)
    ensures DigitValue(c) < 16 && DIGITS[DigitValue(c)] == c
  {
    assert DIGITS[..10] == "0123456789" && DIGITS[10..] == "abcdef";
  }

  lemma DigitsOneMore(n: nat, d: nat)
    requires n > 0 && d < 16
    ensures Digits(16 * n + d) == Digits(n) + [DIGITS[d]]
  {
    assert (16 * n + d) / 16 == n && (16 * n + d) % 16 == d;
  }

  lemma OneDigitPrintsBack(s: string)
    requires |s| == 1 && IsHexDigit(s[0])
    ensures Value(s) == DigitValue(s[0]) && Digits(Value(s)) == s && (s[0] != '0' ==> Value(s) > 0)
  {
    DigitPrintsBack(s[0]);
    assert s[..0] == "";
  }

  lemma NumeralFront(s: string)
    requires IsNumeral(s) && |s| > 1
    ensures var front := s[..|s| - 1]; IsNumeral(front) && front[0] != '0' && IsHexDigit(s[|s| - 1])
  {
  }

  lemma {:induction false} NumeralPrintsBack(s: string)
    requires IsNumeral(s)
    ensures Digits(Value(s)) == s && (s[0] != '0' ==> Value(s) > 0)
  {
    if |s| == 1 {
      OneDigitPrintsBack(s);
    } else {
      var front, last := s[..|s| - 1], s[|s| - 1];
      NumeralFront(s);
      NumeralPrintsBack(front);
      DigitPrintsBack(last);
      assert Value(s) == 16 * Value(front) + DigitValue(last);
      DigitsOneMore(Value(front), DigitValue(last));
      assert s == front + [last];
    }
  }

  /** An address prints as the one text that reads as it. */
  lemma HexAddressIsTheNumeral(text: string, n: nat)
    ensures Denotes(text, n) <==> text == HexAddress(n)
  {
    DigitsAreANumeral(n);
    DigitsReadBack(n);
    assert HexAddress(n)[..2] == "0x" && HexAddress(n)[2..] == Digits(n);
    if Denotes(text, n) {
      NumeralPrintsBack(text[2..]);
      assert text == text[..2] + text[2..];
    }
  }

  /** Different addresses print differently. */
  lemma HexAddressIsInjective(a: nat, b: nat)
    requires HexAddress(a) == HexAddress(b)
    ensures a == b
  {
    HexAddressIsTheNumeral(HexAddress(a), a);
    HexAddressIsTheNumeral(HexAddress(a), b);
  }

  function Power16(k: nat): nat {
    if k == 0 then 1 else 16 * Power16(k - 1)
  }

  lemma {:induction false} DigitCount(n: nat, k: nat)
    requires k > 0 && n < Power16(k)
    ensures |Digits(n)| <= k
  {
    if n >= 16 {
      assert k > 1;
      DigitCount(n / 16, k - 1);
    }
  }

  /** A 64-bit address with its terminator fits the 32-byte buffer, so nothing is cut off. */
  lemma HexAddressFitsBuffer(n: nat)
    requires n < 0x1_0000_0000_0000_0000
    ensures |HexAddress(n)| + 1 <= 32
  {
    assert Power16(8) == 0x1_0000_0000;
    assert Power16(12) == 0x1_0000 * Power16(8);
    assert Power16(16) == 0x1_0000 * Power16(12);
    DigitCount(n, 16);
  }
}
