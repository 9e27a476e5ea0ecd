/**
 What each conversion prints, said of the whole format machine and without reference to its steps: the text
 of the conversion, in its field, followed by what the rest of the format prints with the arguments left.
 Together these laws determine the output of every format.
 */
module Formats {
  import opened Numerals
  import opened Printf
  import opened Atoi

  /** A text in the field that the modifier characters ask for; zeros go between prefix and body. */
  ghost function Field(mods: string, prefix: string, body: string): string {
    var width := Value(FieldDigits(mods), 10);
    var len := |prefix| + |body|;
    var pad := Repeat(if LeadingZero(mods) then '0' else ' ', if width > len then width - len else 0);
    if '-' in mods then prefix + body + pad
    else if LeadingZero(mods) then prefix + pad + body
    else pad + prefix + body
  }

  /** s is the usual notation of n in the given base, in lower case and without leading zeros. */
  ghost predicate Numeral(s: string, base: nat, n: nat) {
    && s != "" && Value(s, base) == n && (s[0] == '0' ==> |s| == 1)
    && forall i :: 0 <= i < |s| ==> InBase(s[i], base)
  }

  ghost predicate InBase(c: char, base: nat) {
    ('0' <= c <= '9' || 'a' <= c <= 'f') && DigitValue(c) < base
  }

  lemma DigitCharInBase(d: nat, base: nat)
    requires d < base <= 16
    ensures InBase(DigitChar(d), base)
  {
    DigitCharValue(d);
    assert DIGITS[10] == 'a' && DIGITS[11] == 'b' && DIGITS[12] == 'c';
    assert DIGITS[13] == 'd' && DIGITS[14] == 'e' && DIGITS[15] == 'f';
  }

  lemma {:induction false} DigitsInBase(n: nat, base: nat)
    requires 2 <= base <= 16
    ensures forall i :: 0 <= i < |Digits(n, base)| ==> InBase(Digits(n, base)[i], base)
  {
    if n < base {
      DigitCharInBase(n, base);
    } else {
      DigitsInBase(n / base, base);
      DigitCharInBase(n % base, base);
    }
  }

  lemma DigitsAreNumeral(n: nat, base: nat)
    requires 2 <= base <= 16
    ensures Numeral(Digits(n, base), base, n)
  {
    DigitsValue(n, base);
    DigitsInBase(n, base);
    NoLeadingZero(n, base);
  }

  // ---------------------------------------------------------------- one conversion

  lemma FieldIsStuff(mods: string, f: PF, prefix: string, prefix2: string, body: string)
    requires Fits(f, FieldDigits(mods), '-' in mods, '#' in mods) && (prefix == "" || prefix2 == "")
    ensures Stuff(f, prefix, prefix2, body) == Field(mods, prefix + prefix2, body)
  {
    assert prefix + prefix2 == if prefix == "" then prefix2 else prefix;
  }

  /** The conversion character ends the field, and the rest of the format starts afresh. */
  lemma ConversionEnds(mods: string, ch: char, rest: string, args: seq<Arg>)
    requires AllModifiers(mods) && !IsModifier(ch)
    ensures var f := Fold(IN_FIELD, mods); var r := Step(f, ch, args);
            && Fits(f, FieldDigits(mods), '-' in mods, '#' in mods)
            && Output(RESET, "%" + mods + [ch] + rest, args) == r.text + Output(RESET, rest, r.args)
  {
    var f := Fold(IN_FIELD, mods);
    FieldRead(mods);
    var tail := [ch] + rest;
    assert "%" + mods + [ch] + rest == ['%'] + (mods + tail);
    PercentStarts(mods + tail, args);
    OutputAfterModifiers(mods, tail, args);
    EndsField(f, ch, rest, args);
  }

  lemma PercentStarts(format: string, args: seq<Arg>)
    ensures Output(RESET, ['%'] + format, args) == Output(IN_FIELD, format, args)
  {
    assert (['%'] + format)[1..] == format;
  }

  lemma EndsField(f: PF, ch: char, rest: string, args: seq<Arg>)
    requires f.inPct && !IsModifier(ch)
    ensures var r := Step(f, ch, args); Output(f, [ch] + rest, args) == r.text + Output(RESET, rest, r.args)
  {
    assert ([ch] + rest)[1..] == rest;
  }

  // ---------------------------------------------------------------- the laws

  /** Only characters that may stand between % and the conversion. */
  ghost predicate OnlyModifiers(mods: string) { forall i :: 0 <= i < |mods| ==> mods[i] in "#-ql0123456789" }

  lemma ModifierIs(c: char)
    ensures IsModifier(c) <==> c in "#-ql0123456789"
  {
    var all := "#-ql0123456789";
    assert all[0] == '#' && all[1] == '-' && all[2] == 'q' && all[3] == 'l';
    if IsDigit(c) { assert all[4 + (c as int - '0' as int)] == c; }
  }

  lemma ModifiersAre(mods: string)
    ensures OnlyModifiers(mods) <==> AllModifiers(mods)
  {
    forall i | 0 <= i < |mods|
      ensures mods[i] in "#-ql0123456789" <==> IsModifier(mods[i])
    {
      ModifierIs(mods[i]);
    }
  }

  lemma NoConversion(c: char)
    requires c !in "#-ql0123456789doupxsc"
    ensures !IsModifier(c) && !IsInteger(c) && c != 's' && c != 'c'
  {
    var all := "#-ql0123456789doupxsc";
    assert all[14] == 'd' && all[15] == 'o' && all[16] == 'u' && all[17] == 'p' && all[18] == 'x' && all[19] == 's' && all[20] == 'c';
    ModifierIs(c);
    assert all == "#-ql0123456789" + "doupxsc";
  }

  /** A character outside a field is printed as it is. */
  lemma Ordinary(ch: char, rest: string, args: seq<Arg>)
    requires ch != '%'
    ensures Output(RESET, [ch] + rest, args) == [ch] + Output(RESET, rest, args)
  {
    assert ([ch] + rest)[1..] == rest;
  }

  /** A format that ends inside a field prints nothing for it. */
  lemma Unfinished(mods: string, args: seq<Arg>)
    requires OnlyModifiers(mods)
    ensures Output(RESET, "", args) == "" && Output(RESET, "%" + mods, args) == ""
  {
    ModifiersAre(mods);
    assert "%" + mods == ['%'] + (mods + "");
    PercentStarts(mods + "", args);
    OutputAfterModifiers(mods, "", args);
  }

  /** The text of an integer conversion of n in the given base, and one argument used. */
  ghost predicate PrintsNumber(mods: string, ch: char, bits: nat, rest: string, args: seq<Arg>, prefix: string, base: nat, n: nat) {
    exists digits :: Numeral(digits, base, n) &&
      Output(RESET, "%" + mods + [ch] + rest, [Num(bits)] + args) == Field(mods, prefix, digits) + Output(RESET, rest, args)
  }

  lemma NumberPrinted(mods: string, ch: char, bits: nat, rest: string, args: seq<Arg>, prefix: string, base: nat, n: nat)
    requires OnlyModifiers(mods) && IsInteger(ch) && base == Base(ch) && n == Magnitude(ch, bits)
    requires prefix == SignPrefix(Negative(ch, bits)) + BasePrefix(Fold(IN_FIELD, mods), ch)
    ensures PrintsNumber(mods, ch, bits, rest, args, prefix, base, n)
  {
    ModifiersAre(mods);
    var f, digits := Fold(IN_FIELD, mods), Digits(n, base);
    var all := [Num(bits)] + args;
    ConversionEnds(mods, ch, rest, all);
    assert Rest(all) == args && ArgBits(all) == bits;
    FieldIsStuff(mods, f, SignPrefix(Negative(ch, bits)), BasePrefix(f, ch), digits);
    DigitsAreNumeral(n, base);
  }

  /** %x: base 16, with 0x in front exactly under #. */
  lemma Hexadecimal(mods: string, bits: nat, rest: string, args: seq<Arg>)
    requires OnlyModifiers(mods)
    ensures PrintsNumber(mods, 'x', bits, rest, args, if '#' in mods then "0x" else "", 16, bits % 0x1_0000_0000)
  {
    ModifiersAre(mods);
    FieldRead(mods);
    NumberPrinted(mods, 'x', bits, rest, args, if '#' in mods then "0x" else "", 16, bits % 0x1_0000_0000);
  }

  /** %p: base 16, always with 0x in front. */
  lemma Pointer(mods: string, bits: nat, rest: string, args: seq<Arg>)
    requires OnlyModifiers(mods)
    ensures PrintsNumber(mods, 'p', bits, rest, args, "0x", 16, bits % 0x1_0000_0000)
  {
    ModifiersAre(mods);
    NumberPrinted(mods, 'p', bits, rest, args, "0x", 16, bits % 0x1_0000_0000);
  }

  /** %o: base 8, with 0 in front exactly under #. */
  lemma Octal(mods: string, bits: nat, rest: string, args: seq<Arg>)
    requires OnlyModifiers(mods)
    ensures PrintsNumber(mods, 'o', bits, rest, args, if '#' in mods then "0" else "", 8, bits % 0x1_0000_0000)
  {
    ModifiersAre(mods);
    FieldRead(mods);
    NumberPrinted(mods, 'o', bits, rest, args, if '#' in mods then "0" else "", 8, bits % 0x1_0000_0000);
  }

  /** %u: base 10, never with anything in front. */
  lemma Unsigned(mods: string, bits: nat, rest: string, args: seq<Arg>)
    requires OnlyModifiers(mods)
    ensures PrintsNumber(mods, 'u', bits, rest, args, "", 10, bits % 0x1_0000_0000)
  {
    ModifiersAre(mods);
    NumberPrinted(mods, 'u', bits, rest, args, "", 10, bits % 0x1_0000_0000);
  }

  /** %d: base 10, the magnitude of the 32 bits as a signed number, with a minus sign exactly for negative ones. */
  lemma SignedDecimal(mods: string, bits: nat, rest: string, args: seq<Arg>)
    requires OnlyModifiers(mods)
    ensures var b := bits % 0x1_0000_0000;
            if b < 0x8000_0000 then PrintsNumber(mods, 'd', bits, rest, args, "", 10, b)
            else PrintsNumber(mods, 'd', bits, rest, args, "-", 10, 0x1_0000_0000 - b)
  {
    ModifiersAre(mods);
    var b := bits % 0x1_0000_0000;
    if b < 0x8000_0000 {
      NumberPrinted(mods, 'd', bits, rest, args, "", 10, b);
    } else {
      NumberPrinted(mods, 'd', bits, rest, args, "-", 10, 0x1_0000_0000 - b);
    }
  }

  /** %s: the string itself, or (null), in its field, and one argument used. */
  lemma Strings(mods: string, arg: Arg, rest: string, args: seq<Arg>)
    requires OnlyModifiers(mods) && !arg.Num?
    ensures Output(RESET, "%" + mods + ['s'] + rest, [arg] + args) ==
            Field(mods, "", if arg.Text? then arg.s else "(null)") + Output(RESET, rest, args)
  {
    ModifiersAre(mods);
    var all := [arg] + args;
    ConversionEnds(mods, 's', rest, all);
    assert Rest(all) == args;
    FieldIsStuff(mods, Fold(IN_FIELD, mods), "", "", ArgText(all));
  }

  /** %c: the low byte of the argument as a character, nothing for a zero byte, in its field, and one argument used. */
  lemma Characters(mods: string, bits: nat, rest: string, args: seq<Arg>)
    requires OnlyModifiers(mods)
    ensures Output(RESET, "%" + mods + ['c'] + rest, [Num(bits)] + args) ==
            Field(mods, "", if bits % 256 == 0 then "" else [(bits % 256) as char]) + Output(RESET, rest, args)
  {
    ModifiersAre(mods);
    var all := [Num(bits)] + args;
    ConversionEnds(mods, 'c', rest, all);
    assert Rest(all) == args && ArgBits(all) == bits;
    FieldIsStuff(mods, Fold(IN_FIELD, mods), "", "", CharText((bits % 256) as char));
  }

  /** %% and characters that are no conversion: the character itself in its field, and no argument used. */
  lemma Literal(mods: string, ch: char, rest: string, args: seq<Arg>)
    requires OnlyModifiers(mods) && ch !in "#-ql0123456789doupxsc" && ch != 0 as char
    ensures Output(RESET, "%" + mods + [ch] + rest, args) == Field(mods, "", [ch]) + Output(RESET, rest, args)
  {
    ModifiersAre(mods);
    NoConversion(ch);
    ConversionEnds(mods, ch, rest, args);
    FieldIsStuff(mods, Fold(IN_FIELD, mods), "", "", [ch]);
  }
}
