/**
 Numerals: the usual notation of a number in a base, and what a string of digits is worth.
 */
module Numerals {

  const DIGITS := "0123456789abcdef"

  function DigitChar(d: nat): (c: char)
    requires d < 16
    ensures d < 10 ==> c as int == '0' as int + d
  {
    DIGITS[d]
  }

  /** The value of a digit character; zero for anything else. */
  function DigitValue(c: char): (d: nat)
    ensures d < 16
  {
    if '0' <= c <= '9' then c as int - '0' as int else if 'a' <= c <= 'f' then c as int - 'a' as int + 10 else 0
  }

  predicate IsDigit(c: char) { '0' <= c <= '9' }

  ghost predicate AllDigits(s: string) { forall i | 0 <= i < |s| :: IsDigit(s[i]) }

  /** The notation of n without leading zeros. */
  function Digits(n: nat, base: nat): (s: string)
    requires 2 <= base <= 16
    ensures |s| >= 1
  {
    if n < base then [DigitChar(n)] else Digits(n / base, base) + [DigitChar(n % base)]
  }

  /** What a digit string is worth. */
  function Value(s: string, base: nat): (v: nat) {
    if s == "" then 0 else Value(s[..|s| - 1], base) * base + DigitValue(s[|s| - 1])
  }

  function Pow(b: nat, e: nat): (p: nat)
    ensures b > 0 ==> p > 0
  {
    if e == 0 then 1 else b * Pow(b, e - 1)
  }

  function Repeat(c: char, n: nat): (s: string)
    ensures |s| == n
  {
    seq(n, _ => c)
  }

  lemma DigitCharValue(d: nat)
    requires d < 16
    ensures DigitValue(DigitChar(d)) == d
  {
    assert DIGITS[10] == 'a' && DIGITS[11] == 'b' && DIGITS[12] == 'c';
    assert DIGITS[13] == 'd' && DIGITS[14] == 'e' && DIGITS[15] == 'f';
  }

  lemma ValueAppend(s: string, c: char, base: nat)
    ensures Value(s + [c], base) == Value(s, base) * base + DigitValue(c)
  {
    assert (s + [c])[..|s|] == s;
  }

  /** The notation is worth the number it denotes. */
  lemma {:induction false} DigitsValue(n: nat, base: nat)
    requires 2 <= base <= 16
    ensures Value(Digits(n, base), base) == n
  {
    if n < base {
      DigitValueAlone(n, base);
    } else {
      DigitsValue(n / base, base);
      DivMod(n, base);
      NumeralValue(n / base, n % base, base);
    }
  }

  lemma DigitValueAlone(d: nat, base: nat)
    requires d < 16
    ensures Value([DigitChar(d)], base) == d
  {
    DigitCharValue(d);
    ValueAppend("", DigitChar(d), base);
    assert "" + [DigitChar(d)] == [DigitChar(d)];
  }

  lemma NumeralValue(q: nat, d: nat, base: nat)
    requires 2 <= base <= 16 && d < base && Value(Digits(q, base), base) == q
    ensures Value(Digits(q, base) + [DigitChar(d)], base) == q * base + d
  {
    DigitCharValue(d);
    ValueAppend(Digits(q, base), DigitChar(d), base);
  }

  lemma DivMod(n: nat, b: nat)
    requires b > 0
    ensures n / b * b + n % b == n
  {
  }

  lemma {:induction false} DecimalDigits(n: nat)
    ensures AllDigits(Digits(n, 10))
  {
    if n >= 10 { DecimalDigits(n / 10); }
  }

  /** Only zero is written with a leading zero. */
  lemma {:induction false} NoLeadingZero(n: nat, base: nat)
    requires 2 <= base <= 16
    ensures Digits(n, base)[0] == '0' <==> n == 0
  {
    if n >= base {
      QuotientPositive(n, base);
      NoLeadingZero(n / base, base);
      SameFirst(n, base);
    } else {
      DigitCharValue(n);
    }
  }

  lemma SameFirst(n: nat, base: nat)
    requires 2 <= base <= 16 && n >= base
    ensures Digits(n, base)[0] == Digits(n / base, base)[0]
  {
  }

  lemma QuotientPositive(n: nat, base: nat)
    requires 0 < base <= n
    ensures n / base > 0
  {
    assert n == n / base * base + n % base;
  }

  lemma QuotientSmaller(n: nat, base: nat)
    requires 2 <= base && n > 0
    ensures n / base < n
  {
    DivMod(n, base);
    AtLeastTwice(n / base, base);
  }

  lemma AtLeastTwice(q: nat, base: nat)
    requires base >= 2
    ensures q * base >= 2 * q
  {
    assert q * base == q * 2 + q * (base - 2);
  }

  lemma SmallQuotient(n: nat, base: nat)
    requires n < base
    ensures n / base == 0 && n % base == n
  {
  }

  lemma DigitsLength(n: nat, base: nat)
    requires 2 <= base <= 16
    ensures |Digits(n, base)| == if n < base then 1 else |Digits(n / base, base)| + 1
  {
  }

  /** A number below 8^e has at most e digits in the bases printf uses. */
  lemma {:induction false} DigitCount(n: nat, base: nat, e: nat)
    requires base in {8, 10, 16} && e >= 1 && n < Pow(8, e)
    ensures |Digits(n, base)| <= e
  {
    DigitsLength(n, base);
    if n >= base {
      assert n / base <= n / 8;
      assert Pow(8, e) == 8 * Pow(8, e - 1);
      DigitCount(n / base, base, e - 1);
    }
  }

  lemma {:induction false} LeadingZeros(k: nat, s: string, base: nat)
    ensures Value(Repeat('0', k) + s, base) == Value(s, base)
  {
    if s != "" {
      var t := s[..|s| - 1];
      LeadingZeros(k, t, base);
      ValueAppend(Repeat('0', k) + t, s[|s| - 1], base);
      assert Repeat('0', k) + s == Repeat('0', k) + t + [s[|s| - 1]];
    } else if k > 0 {
      LeadingZeros(k - 1, "", base);
      ValueAppend(Repeat('0', k - 1), '0', base);
      assert Repeat('0', k) + "" == Repeat('0', k - 1) + ['0'];
      assert Repeat('0', k - 1) + "" == Repeat('0', k - 1);
    }
  }

  lemma {:induction false} TrailingZeros(s: string, k: nat, base: nat)
    ensures Value(s + Repeat('0', k), base) == Value(s, base) * Pow(base, k)
  {
    if k == 0 {
      assert s + Repeat('0', 0) == s;
    } else {
      TrailingZeros(s, k - 1, base);
      ValueAppend(s + Repeat('0', k - 1), '0', base);
      assert s + Repeat('0', k) == s + Repeat('0', k - 1) + ['0'];
      MulSwap(Value(s, base), Pow(base, k - 1), base);
    }
  }

  lemma {:induction false} MulSwap(a: nat, p: nat, b: nat)
    ensures a * p * b == a * (b * p)
  {
    assert a * p * b == a * (p * b);
  }
}
