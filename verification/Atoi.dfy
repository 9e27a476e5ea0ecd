/**
 Parsing decimal integers, and the round trip from printf's %d to atoi.
 */
module Atoi {
  import opened Numerals
  import opened Printf

  // ---------------------------------------------------------------- what is parsed

  predicate IsBlank(c: char) { c == ' ' || c == '\t' }

  function SkipBlanks(s: string): (t: string) {
    if s != "" && IsBlank(s[0]) then SkipBlanks(s[1..]) else s
  }

  function LeadingDigits(s: string): (t: string) {
    if s != "" && IsDigit(s[0]) then [s[0]] + LeadingDigits(s[1..]) else ""
  }

  function AfterSign(s: string): (t: string) {
    if s != "" && (s[0] == '-' || s[0] == '+') then s[1..] else s
  }

  predicate IsMinus(s: string) { s != "" && s[0] == '-' }

  /** The integer written at the start of s, of any size. */
  function Written(s: string): int {
    var t := SkipBlanks(s);
    var v: int := Value(LeadingDigits(AfterSign(t)), 10);
    if IsMinus(t) then -v else v
  }

  /** The 32-bit two's complement number congruent to x. */
  function Wrap32(x: int): (r: int)
    ensures -TWO31 <= r < TWO31
  {
    if x % TWO32 < TWO31 then x % TWO32 else x % TWO32 - TWO32
  }

  // ---------------------------------------------------------------- the loops

  method SkipSpace(s: string) returns (i: nat)
    ensures i <= |s| && s[i..] == SkipBlanks(s)
  {
    i := 0;
    while i < |s| && IsBlank(s[i])
      invariant i <= |s| && SkipBlanks(s[i..]) == SkipBlanks(s)
    {
      assert s[i..][1..] == s[i + 1..];
      i := i + 1;
    }
  }

  lemma AccumulateWraps(v: nat, d: nat)
    ensures (v % TWO32 * 10 + d) % TWO32 == (v * 10 + d) % TWO32
  {
    var m := v % TWO32;
    SameModulo(m * 10 + d, v / TWO32 * 10);
  }

  lemma SameModulo(x: int, k: int)
    ensures (x + k * TWO32) % TWO32 == x % TWO32
  {
  }

  /** What is left of the value of a string of digits in 32 bits. */
  function Worth(s: string): nat { Value(s, 10) % TWO32 }

  lemma WorthAppend(s: string, c: char)
    requires IsDigit(c)
    ensures Worth(s + [c]) == (Worth(s) * 10 + (c as int - '0' as int)) % TWO32
  {
    ValueAppend(s, c, 10);
    AccumulateWraps(Value(s, 10), DigitValue(c));
  }

  /** Accumulates in 32 bits, so what is left is the value of the digits modulo 2^32. */
  method ReadDigits(s: string) returns (val: nat)
    ensures val == Value(LeadingDigits(s), 10) % TWO32
  {
    var i := 0;
    val := 0;
    ghost var seen := "";
    while i < |s| && IsDigit(s[i])
      invariant i <= |s| && seen + LeadingDigits(s[i..]) == LeadingDigits(s)
      invariant val == Worth(seen)
    {
      var digit := s[i] as int - '0' as int;
      assert s[i..][1..] == s[i + 1..];
      WorthAppend(seen, s[i]);
      val := (val * 10 + digit) % TWO32;
      seen := seen + [s[i]];
      i := i + 1;
    }
    assert seen == LeadingDigits(s);
  }

  lemma NegateWraps(v: int)
    ensures Wrap32(-(v % TWO32)) == Wrap32(-v)
    ensures Wrap32(v % TWO32) == Wrap32(v)
  {
    SameModulo(-(v % TWO32), -(v / TWO32));
    SameModulo(v % TWO32, v / TWO32);
  }

  /** Wrapping around at every digit comes to the same as wrapping the whole number once. */
  method Atoi(s: string) returns (n: int)
    ensures n == Wrap32(Written(s))
  {
    var i := SkipSpace(s);
    var t := s[i..];
    var neg := false;
    if i < |s| && s[i] == '-' {
      neg := true;
      i := i + 1;
    } else if i < |s| && s[i] == '+' {
      i := i + 1;
    }
    var val: int := ReadDigits(s[i..]);
    assert s[i..] == AfterSign(t);
    NegateWraps(Value(LeadingDigits(AfterSign(t)), 10));
    n := if neg then Wrap32(-val) else Wrap32(val);
  }

  /**
   What a numeral with blanks in front reads as: a minus sign negates it, a plus sign changes nothing, and
   whatever follows the digits is left alone. A second sign, or no digit at all, reads as zero.
   */
  lemma SignsRead(k: nat, digits: string, rest: string)
    requires AllDigits(digits) && (rest == "" || !IsDigit(rest[0]))
    ensures Written(Repeat(' ', k) + ("+" + (digits + rest))) == Value(digits, 10)
    ensures Written(Repeat(' ', k) + ("-" + (digits + rest))) == 0 - Value(digits, 10)
    ensures digits != "" ==> Written(Repeat(' ', k) + (digits + rest)) == Value(digits, 10)
  {
    var plus, minus := "+" + (digits + rest), "-" + (digits + rest);
    DigitsThen(digits, rest);
    assert plus[0] == '+' && plus[1..] == digits + rest;
    assert minus[0] == '-' && minus[1..] == digits + rest;
    SkipPadding(k, plus);
    SkipPadding(k, minus);
    if digits != "" { ReadsUnsigned(k, digits, rest); }
  }

  // ---------------------------------------------------------------- reading back %d

  /** The signed number that %d prints for these 32 bits. */
  function Signed(bits: nat): int { Wrap32(bits) }

  lemma SignedMagnitude(bits: nat)
    ensures var m: int := Magnitude('d', bits); Signed(bits) == if Negative('d', bits) then -m else m
  {
  }

  lemma {:induction false} SkipPadding(k: nat, s: string)
    requires s != "" && !IsBlank(s[0])
    ensures SkipBlanks(Repeat(' ', k) + s) == s
  {
    if k == 0 {
      assert Repeat(' ', 0) + s == s;
    } else {
      assert (Repeat(' ', k) + s)[1..] == Repeat(' ', k - 1) + s;
      SkipPadding(k - 1, s);
    }
  }

  lemma {:induction false} DigitsThen(s: string, t: string)
    requires AllDigits(s) && (t == "" || !IsDigit(t[0]))
    ensures LeadingDigits(s + t) == s
  {
    if s == "" {
      assert s + t == t;
    } else {
      assert (s + t)[1..] == s[1..] + t;
      DigitsThen(s[1..], t);
    }
  }

  /** Blanks, perhaps a minus sign, and a run of digits read as the value of the digits. */
  lemma ReadsUnsigned(k: nat, digits: string, rest: string)
    requires AllDigits(digits) && digits != "" && (rest == "" || !IsDigit(rest[0]))
    ensures Written(Repeat(' ', k) + (digits + rest)) == Value(digits, 10)
  {
    var t := digits + rest;
    assert IsDigit(t[0]);
    SkipPadding(k, t);
    DigitsThen(digits, rest);
  }

  lemma ReadsNegative(k: nat, digits: string, rest: string)
    requires AllDigits(digits) && (rest == "" || !IsDigit(rest[0]))
    ensures Written(Repeat(' ', k) + (['-'] + (digits + rest))) == 0 - Value(digits, 10)
  {
    var t := ['-'] + (digits + rest);
    assert t[1..] == digits + rest;
    SkipPadding(k, t);
    DigitsThen(digits, rest);
  }

  function SignedValue(neg: bool, digits: string): int { if neg then 0 - Value(digits, 10) else Value(digits, 10) }

  lemma ReadsAs(k: nat, neg: bool, digits: string, rest: string)
    requires AllDigits(digits) && digits != "" && (rest == "" || !IsDigit(rest[0]))
    ensures Written(Repeat(' ', k) + (SignPrefix(neg) + (digits + rest))) == SignedValue(neg, digits)
  {
    if neg {
      ReadsNegative(k, digits, rest);
    } else {
      ReadsUnsigned(k, digits, rest);
      assert SignPrefix(neg) + (digits + rest) == digits + rest;
    }
  }

  lemma Regroup(sign: string, s: string, t: string)
    ensures sign + "" + s + t == Repeat(' ', 0) + (sign + (s + t))
    ensures sign + "" + s + t == Repeat(' ', 0) + (sign + (s + t + ""))
  {
    assert sign + "" + s + t == sign + (s + t);
    assert s + t + "" == s + t;
    assert Repeat(' ', 0) + (sign + (s + t)) == sign + (s + t);
  }

  lemma ReadSpacesLeft(neg: bool, digits: string, k: nat)
    requires AllDigits(digits) && digits != ""
    ensures Written(Repeat(' ', k) + SignPrefix(neg) + "" + digits) == SignedValue(neg, digits)
  {
    ReadsAs(k, neg, digits, "");
    assert Repeat(' ', k) + SignPrefix(neg) + "" + digits == Repeat(' ', k) + (SignPrefix(neg) + (digits + ""));
  }

  lemma ReadSpacesRight(neg: bool, digits: string, k: nat)
    requires AllDigits(digits) && digits != ""
    ensures Written(SignPrefix(neg) + "" + digits + Repeat(' ', k)) == SignedValue(neg, digits)
  {
    ReadsAs(0, neg, digits, Repeat(' ', k));
    Regroup(SignPrefix(neg), digits, Repeat(' ', k));
  }

  lemma ReadZerosLeft(neg: bool, digits: string, k: nat)
    requires AllDigits(digits) && digits != ""
    ensures Written(SignPrefix(neg) + "" + Repeat('0', k) + digits) == SignedValue(neg, digits)
  {
    LeadingZeros(k, digits, 10);
    ReadsAs(0, neg, Repeat('0', k) + digits, "");
    Regroup(SignPrefix(neg), Repeat('0', k), digits);
  }

  lemma MultipliedValue(neg: bool, digits: string, k: nat)
    ensures SignedValue(neg, digits + Repeat('0', k)) == SignedValue(neg, digits) * Pow(10, k)
  {
    TrailingZeros(digits, k, 10);
    NegateProduct(Value(digits, 10), Pow(10, k));
  }

  /** Zeros on the right multiply the number by a power of ten. */
  lemma ReadZerosRight(neg: bool, digits: string, k: nat)
    requires AllDigits(digits) && digits != ""
    ensures Written(SignPrefix(neg) + "" + digits + Repeat('0', k)) == SignedValue(neg, digits) * Pow(10, k)
  {
    var text := digits + Repeat('0', k);
    Regroup(SignPrefix(neg), digits, Repeat('0', k));
    assert AllDigits(text);
    ReadsAs(0, neg, text, "");
    MultipliedValue(neg, digits, k);
  }

  /** A field pads %d with zeros on the right: the one flag set that changes the number. */
  predicate ZerosOnRight(pf: PF) { pf.right && pf.fill == '0' }

  function NumberPadding(pf: PF, bits: nat): nat {
    Padding(pf, |SignPrefix(Negative('d', bits))| + |Digits(Magnitude('d', bits), 10)|)
  }

  lemma ReadField(pf: PF, neg: bool, digits: string)
    requires (pf.fill == ' ' || pf.fill == '0') && AllDigits(digits) && digits != ""
    ensures Written(Stuff(pf, SignPrefix(neg), "", digits)) == SignedValue(neg, digits) *
            if ZerosOnRight(pf) then Pow(10, Padding(pf, |SignPrefix(neg)| + |digits|)) else 1
  {
    var k := Padding(pf, |SignPrefix(neg)| + |digits|);
    if pf.right && pf.fill == '0' {
      ReadZerosRight(neg, digits, k);
    } else if pf.right {
      ReadSpacesRight(neg, digits, k);
    } else if pf.fill == '0' {
      ReadZerosLeft(neg, digits, k);
    } else {
      ReadSpacesLeft(neg, digits, k);
    }
  }

  /** Whatever the field, atoi of the text of %d is the number, times a power of ten for zeros on the right. */
  lemma ReadNumberText(pf: PF, bits: nat)
    requires pf.fill == ' ' || pf.fill == '0'
    ensures Written(NumberText(pf, 'd', bits)) ==
            Signed(bits) * if ZerosOnRight(pf) then Pow(10, NumberPadding(pf, bits)) else 1
  {
    var digits, neg := Digits(Magnitude('d', bits), 10), Negative('d', bits);
    DecimalDigits(Magnitude('d', bits));
    assert SignedValue(neg, digits) == Signed(bits) by {
      DigitsValue(Magnitude('d', bits), 10);
      SignedMagnitude(bits);
    }
    ReadField(pf, neg, digits);
    DecimalText(pf, bits);
  }

  lemma DecimalText(pf: PF, bits: nat)
    ensures NumberText(pf, 'd', bits) == Stuff(pf, SignPrefix(Negative('d', bits)), "", Digits(Magnitude('d', bits), 10))
  {
  }

  lemma NegateProduct(m: int, p: int)
    ensures -(m * p) == -m * p
  {
  }

  // ---------------------------------------------------------------- when zeros on the right do no harm

  /** An odd factor can be cancelled modulo a power of two. */
  lemma {:induction false} OddCancels(n: int, odd: int, e: nat)
    requires odd % 2 == 1 && (n * odd) % Pow(2, e) == 0
    ensures n % Pow(2, e) == 0
    decreases e
  {
    if e > 0 {
      var p := Pow(2, e - 1);
      var z := n * odd / (2 * p);
      assert n * odd == 2 * p * z;
      assert n * odd == 2 * (p * z);
      OddFactor(n, odd, p * z);
      var h := n / 2;
      HalfProduct(n, h, odd, p * z);
      ProductMod(p, z);
      OddCancels(h, odd, e - 1);
      DoubleMod(h, p);
    }
  }

  lemma OddFactor(n: int, odd: int, w: int)
    requires odd % 2 == 1 && n * odd == 2 * w
    ensures n % 2 == 0
  {
    var o := odd / 2;
    assert n * odd == n * (2 * o + 1) == 2 * (n * o) + n;
  }

  lemma HalfProduct(n: int, h: int, odd: int, w: int)
    requires n == 2 * h && n * odd == 2 * w
    ensures h * odd == w
  {
    assert n * odd == 2 * (h * odd);
  }

  lemma ProductMod(p: int, z: int)
    requires p > 0
    ensures (p * z) % p == 0
  {
    QuotientUnique(p * z, p, z);
  }

  lemma QuotientUnique(x: int, p: int, z: int)
    requires p > 0 && x == p * z
    ensures x % p == 0
  {
    var q, m := x / p, x % p;
    assert m == p * (z - q);
    ScaledAtLeast(p, z - q);
    ScaledAtLeast(p, q - z);
    assert p * (q - z) == -m;
  }

  lemma ScaledAtLeast(p: int, k: int)
    requires p > 0
    ensures k >= 1 ==> p * k >= p
  {
  }

  lemma DoubleMod(h: int, p: int)
    requires p > 0 && h % p == 0
    ensures 2 * h % (2 * p) == 0
  {
    var q := h / p;
    assert h == p * q;
    assert 2 * h == 2 * p * q;
    QuotientUnique(2 * h, 2 * p, q);
  }

  lemma TwoTo32()
    ensures Pow(2, 32) == TWO32
  {
    assert Pow(2, 4) == 16 && Pow(2, 8) == 256 && Pow(2, 12) == 4096 && Pow(2, 16) == 65536;
    assert Pow(2, 20) == 0x10_0000 && Pow(2, 24) == 0x100_0000 && Pow(2, 28) == 0x1000_0000;
  }

  lemma WrapFixed(n: int, p: nat)
    requires -TWO31 <= n < TWO31 && p % 2 == 0
    ensures Wrap32(n * p) == n <==> n == 0
  {
    if Wrap32(n * p) == n {
      var q := n * p / TWO32;
      assert n * (p - 1) == n * p - n;
      assert (n * (p - 1)) % TWO32 == 0;
      TwoTo32();
      OddCancels(n, p - 1, 32);
    }
  }

  lemma WrapInRange(n: int)
    requires -TWO31 <= n < TWO31
    ensures Wrap32(n) == n && Wrap32(n * 1) == n
  {
  }

  lemma TenIsEven(k: nat)
    requires k > 0
    ensures Pow(10, k) % 2 == 0
  {
    var p := Pow(10, k - 1);
    assert Pow(10, k) == 10 * p;
    TwiceIsEven(5 * p);
  }

  lemma TwiceIsEven(x: int)
    ensures (2 * x) % 2 == 0
  {
  }

  /**
   The number survives exactly when the field does not put zeros on its right, or needs no padding, or the
   number is zero.
   */
  lemma RoundTripIff(pf: PF, bits: nat)
    requires pf.fill == ' ' || pf.fill == '0'
    ensures Wrap32(Written(NumberText(pf, 'd', bits))) == Signed(bits) <==>
            !ZerosOnRight(pf) || NumberPadding(pf, bits) == 0 || Signed(bits) == 0
  {
    ReadNumberText(pf, bits);
    var k := NumberPadding(pf, bits);
    WrapInRange(Signed(bits));
    if ZerosOnRight(pf) && k > 0 {
      TenIsEven(k);
      WrapFixed(Signed(bits), Pow(10, k));
    }
  }

  // ---------------------------------------------------------------- from the format string

  ghost predicate AllModifiers(s: string) { forall i | 0 <= i < |s| :: IsModifier(s[i]) }

  /** The state after a run of modifier characters. */
  ghost function Fold(pf: PF, mods: string): PF
    requires AllModifiers(mods)
  {
    if mods == "" then pf else Modifier(Fold(pf, mods[..|mods| - 1]), mods[|mods| - 1])
  }

  /** The digits among the modifier characters. */
  ghost function FieldDigits(mods: string): string {
    if mods == "" then ""
    else
      var c := mods[|mods| - 1];
      FieldDigits(mods[..|mods| - 1]) + if IsDigit(c) then [c] else ""
  }

  ghost predicate LeadingZero(mods: string) { FieldDigits(mods) != "" && FieldDigits(mods)[0] == '0' }

  const IN_FIELD := RESET.(inPct := true)

  lemma OutputModifier(pf: PF, c: char, tail: string, args: seq<Arg>)
    requires pf.inPct && IsModifier(c)
    ensures Modifier(pf, c).inPct
    ensures Output(pf, [c] + tail, args) == Output(Modifier(pf, c), tail, args)
  {
    assert ([c] + tail)[1..] == tail;
    assert Step(pf, c, args) == Sent(Modifier(pf, c), "", args);
  }

  lemma {:induction false} OutputAfterModifiers(mods: string, tail: string, args: seq<Arg>)
    requires AllModifiers(mods)
    ensures Output(IN_FIELD, mods + tail, args) == Output(Fold(IN_FIELD, mods), tail, args)
    ensures Fold(IN_FIELD, mods).inPct
  {
    if mods == "" {
      assert mods + tail == tail;
    } else {
      var init, c := mods[..|mods| - 1], mods[|mods| - 1];
      OutputAfterModifiers(init, [c] + tail, args);
      assert mods + tail == init + ([c] + tail);
      OutputModifier(Fold(IN_FIELD, init), c, tail, args);
    }
  }

  /** A state fits the digits, minus signs and hashes seen since the percent sign. */
  ghost predicate Fits(f: PF, digits: string, minus: bool, hash: bool) {
    && f.inPct && f.spacing == Value(digits, 10) && f.right == minus && f.alt == hash
    && f.fill == (if digits != "" && digits[0] == '0' then '0' else ' ')
    && (digits == "" || f.spacing > 0 || digits[0] == '0')
  }

  lemma ModifierFits(f: PF, digits: string, minus: bool, hash: bool, c: char)
    requires IsModifier(c) && Fits(f, digits, minus, hash)
    ensures IsDigit(c) ==> Fits(Modifier(f, c), digits + [c], minus, hash)
    ensures !IsDigit(c) ==> Fits(Modifier(f, c), digits, minus || c == '-', hash || c == '#')
  {
    ValueAppend(digits, c, 10);
  }

  /** What a field asks for can be read off the characters, wherever they stand. */
  lemma {:induction false} FieldRead(mods: string)
    requires AllModifiers(mods)
    ensures Fits(Fold(IN_FIELD, mods), FieldDigits(mods), '-' in mods, '#' in mods)
  {
    if mods != "" {
      var init, c := mods[..|mods| - 1], mods[|mods| - 1];
      FieldRead(init);
      ModifierFits(Fold(IN_FIELD, init), FieldDigits(init), '-' in init, '#' in init, c);
      InAppend('-', init, c);
      InAppend('#', init, c);
      assert mods == init + [c];
      if !IsDigit(c) { assert FieldDigits(mods) == FieldDigits(init); }
    }
  }

  lemma InAppend(x: char, s: string, c: char)
    ensures x in s + [c] <==> x in s || x == c
  {
  }

  /**
   Printing a 32-bit number under %...d and parsing it gives the number back, for every choice of modifier
   characters, except when a minus and a leading zero make a field wider than a number other than zero.
   */
  lemma FormatThenParse(mods: string, bits: nat)
    requires AllModifiers(mods)
    ensures var text := Output(RESET, "%" + mods + "d", [Num(bits)]);
            var bare := Output(RESET, "%d", [Num(bits)]);
            Wrap32(Written(text)) == Signed(bits) <==>
            !('-' in mods && LeadingZero(mods)) || Value(FieldDigits(mods), 10) <= |bare| || Signed(bits) == 0
  {
    FormatText("", bits);
    FormatText(mods, bits);
    assert "%" + "" + "d" == "%d";
    FieldRead("");
    FieldRead(mods);
    RoundTripIff(Fold(IN_FIELD, mods), bits);
  }

  lemma FormatText(mods: string, bits: nat)
    requires AllModifiers(mods)
    ensures Output(RESET, "%" + mods + "d", [Num(bits)]) == NumberText(Fold(IN_FIELD, mods), 'd', bits)
  {
    assert "%" + mods + "d" == ['%'] + (mods + "d");
    assert Output(RESET, ['%'] + (mods + "d"), [Num(bits)]) == Output(IN_FIELD, mods + "d", [Num(bits)]) by {
      assert (['%'] + (mods + "d"))[1..] == mods + "d";
    }
    OutputAfterModifiers(mods, "d", [Num(bits)]);
    OutputNumber(Fold(IN_FIELD, mods), bits);
  }

  lemma OutputNumber(f: PF, bits: nat)
    requires f.inPct
    ensures Output(f, "d", [Num(bits)]) == NumberText(f, 'd', bits)
  {
    assert Step(f, 'd', [Num(bits)]).text == NumberText(f, 'd', bits);
  }

  lemma OneIsPrinted()
    ensures Output(RESET, "%d", [Num(1)]) == "1"
  {
    assert "%" + "" + "d" == "%d";
    FormatText("", 1);
    assert Stuff(IN_FIELD, "", "", "1") == "1";
  }

  lemma FieldDigitsAppend(mods: string, c: char)
    ensures FieldDigits(mods + [c]) == if IsDigit(c) then FieldDigits(mods) + [c] else FieldDigits(mods)
  {
    assert (mods + [c])[..|mods|] == mods;
  }

  lemma ExampleDigits()
    ensures AllModifiers("-02") && '-' in "-02" && LeadingZero("-02") && Value(FieldDigits("-02"), 10) == 2
  {
    var m1 := ['-'];
    var m2 := m1 + ['0'];
    var m3 := m2 + ['2'];
    assert m3 == "-02";
    FieldDigitsAppend([], '-');
    assert [] + ['-'] == m1;
    FieldDigitsAppend(m1, '0');
    FieldDigitsAppend(m2, '2');
    assert FieldDigits(m2) == ['0'];
    ValueAppend([], '0', 10);
    ValueAppend(['0'], '2', 10);
    assert [] + ['0'] == ['0'];
    assert "-02"[0] == '-';
  }

  /** The smallest case of the exception: 1 under %-02d is not printed as 1. */
  lemma ZerosOnRightExample()
    ensures '-' in "-02" && LeadingZero("-02") && Value(FieldDigits("-02"), 10) == 2
    ensures Output(RESET, "%d", [Num(1)]) == "1"
    ensures Wrap32(Written(Output(RESET, "%" + "-02" + "d", [Num(1)]))) != 1
  {
    ExampleDigits();
    OneIsPrinted();
    FormatThenParse("-02", 1);
  }
}
