/**
 The guts of printf: a machine that is fed the format string a character at a time, the conversion of
 numbers to digits in a fixed buffer, and the bounded output of vsnprintf.
 */
module Printf {
  import opened Numerals

  const TWO32 := 0x1_0000_0000
  const TWO31 := 0x8000_0000
  const NUL := 0 as char

  /** Size of the digit buffer for 32-bit numbers. */
  const NUMBER_BUF_SIZE: nat := 12

  // ---------------------------------------------------------------- what is printed

  /** The fields of the printf state that live from one format character to the next. */
  datatype PF = PF(inPct: bool, spacing: nat, right: bool, fill: char, alt: bool)

  /** The state between fields. */
  const RESET := PF(false, 0, false, ' ', false)

  function Padding(pf: PF, len: nat): nat {
    if pf.spacing > len then pf.spacing - len else 0
  }

  /** Padding goes left of everything, between prefixes and text for zeros, or right. */
  function Stuff(pf: PF, prefix: string, prefix2: string, text: string): (s: string)
    ensures |s| == if pf.spacing > |prefix| + |prefix2| + |text| then pf.spacing else |prefix| + |prefix2| + |text|
  {
    var pad := Repeat(pf.fill, Padding(pf, |prefix| + |prefix2| + |text|));
    if pf.right then prefix + prefix2 + text + pad
    else if pf.fill == '0' then prefix + prefix2 + pad + text
    else pad + prefix + prefix2 + text
  }

  /** One of doupx. */
  predicate IsInteger(ch: char) { ch == 'd' || ch == 'o' || ch == 'u' || ch == 'p' || ch == 'x' }

  function Base(ch: char): (b: nat)
    ensures b in {8, 10, 16}
  {
    if ch == 'd' || ch == 'u' then 10 else if ch == 'o' then 8 else 16
  }

  /** Only %d is signed; bits are the 32 bits of the argument. */
  predicate Negative(ch: char, bits: nat) { ch == 'd' && bits % TWO32 >= TWO31 }

  function Magnitude(ch: char, bits: nat): (n: nat)
    ensures n < TWO32
  {
    if Negative(ch, bits) then TWO32 - bits % TWO32 else bits % TWO32
  }

  function SignPrefix(neg: bool): string { if neg then "-" else "" }

  function BasePrefix(pf: PF, ch: char): string {
    if !(pf.alt || ch == 'p') then "" else if Base(ch) == 16 then "0x" else if Base(ch) == 8 then "0" else ""
  }

  function NumberText(pf: PF, ch: char, bits: nat): string {
    Stuff(pf, SignPrefix(Negative(ch, bits)), BasePrefix(pf, ch), Digits(Magnitude(ch, bits), Base(ch)))
  }

  /** An argument: 32 bits, a string (without its terminator), or a null pointer. */
  datatype Arg = Num(bits: nat) | Text(s: string) | Null

  function ArgBits(args: seq<Arg>): nat { if args != [] && args[0].Num? then args[0].bits else 0 }

  function ArgText(args: seq<Arg>): string { if args != [] && args[0].Text? then args[0].s else "(null)" }

  function Rest(args: seq<Arg>): seq<Arg> { if args == [] then [] else args[1..] }

  /** A one-character string; empty when the character is the terminator. */
  function CharText(c: char): string { if c == NUL then "" else [c] }

  /** One of #-ql0123456789. */
  predicate IsModifier(ch: char) { ch == '#' || ch == '-' || ch == 'q' || ch == 'l' || IsDigit(ch) }

  function Modifier(pf: PF, ch: char): PF
    requires IsModifier(ch)
  {
    if ch == '#' then pf.(alt := true)
    else if ch == '-' then pf.(right := true)
    else if ch == 'l' || ch == 'q' then pf
    else if ch == '0' then (if pf.spacing > 0 then pf.(spacing := pf.spacing * 10) else pf.(fill := '0'))
    else pf.(spacing := pf.spacing * 10 + (ch as int - '0' as int))
  }

  datatype Sent = Sent(pf: PF, text: string, args: seq<Arg>)

  /** One format character: the new state, the text sent, and the arguments left. */
  function Step(pf: PF, ch: char, args: seq<Arg>): Sent {
    if !pf.inPct then
      if ch != '%' then Sent(pf, [ch], args) else Sent(pf.(inPct := true), "", args)
    else if IsModifier(ch) then Sent(Modifier(pf, ch), "", args)
    else if IsInteger(ch) then Sent(RESET, NumberText(pf, ch, ArgBits(args)), Rest(args))
    else if ch == 's' then Sent(RESET, Stuff(pf, "", "", ArgText(args)), Rest(args))
    else if ch == 'c' then Sent(RESET, Stuff(pf, "", "", CharText((ArgBits(args) % 256) as char)), Rest(args))
    else Sent(RESET, Stuff(pf, "", "", CharText(ch)), args)
  }

  /** Everything printed for a format, from state pf on. */
  function Output(pf: PF, format: string, args: seq<Arg>): string
    decreases |format|
  {
    if format == "" then ""
    else
      var r := Step(pf, format[0], args);
      r.text + Output(r.pf, format[1..], r.args)
  }

  // ---------------------------------------------------------------- digits fit the buffer

  /** No 32-bit number needs more than eleven digits in base 8, 10 or 16, so the buffer is never underrun. */
  lemma BufferSuffices(n: nat, base: nat)
    requires n < TWO32 && base in {8, 10, 16}
    ensures |Digits(n, base)| <= NUMBER_BUF_SIZE - 1
  {
    EightToEleven();
    DigitCount(n, base, 11);
  }

  lemma EightToEleven()
    ensures Pow(8, 11) >= TWO32
  {
    assert Pow(8, 1) == 8 && Pow(8, 2) == 64 && Pow(8, 3) == 512 && Pow(8, 4) == 4096;
    assert Pow(8, 5) == 32768 && Pow(8, 6) == 262144 && Pow(8, 7) == 2097152;
    assert Pow(8, 8) == 16777216 && Pow(8, 9) == 134217728 && Pow(8, 10) == 1073741824;
  }

  /** The digits the conversion loop still has to produce. */
  ghost function Pending(n: nat, first: bool, base: nat): string
    requires 2 <= base <= 16
  {
    if n == 0 && !first then "" else Digits(n, base)
  }

  lemma PendingStep(n: nat, first: bool, base: nat)
    requires 2 <= base <= 16 && (first || n > 0)
    ensures Pending(n, first, base) == Pending(n / base, false, base) + [DigitChar(n % base)]
    ensures n > 0 ==> n / base < n
  {
    if n >= base {
      QuotientPositive(n, base);
      QuotientSmaller(n, base);
    } else {
      SmallQuotient(n, base);
    }
  }

  /** The least significant digit of n, and what is left of n. */
  method NextDigit(n: nat, base: nat) returns (c: char, q: nat)
    requires 2 <= base <= 16
    ensures Pending(n, true, base) == Pending(q, false, base) + [c]
    ensures n > 0 ==> q < n
  {
    PendingStep(n, true, base);
    c := DigitChar(n % base);
    q := n / base;
  }

  /** The conversion loop, right to left in a buffer of NUMBER_BUF_SIZE characters. */
  method Convert(num: nat, base: nat) returns (s: string)
    requires num < TWO32 && base in {8, 10, 16}
    ensures s == Digits(num, base)
  {
    ghost var all := Digits(num, base);
    ghost var rest, done := all, "";
    assert |all| <= 11 by { BufferSuffices(num, base); }
    var buf := new char[NUMBER_BUF_SIZE];
    var x := NUMBER_BUF_SIZE - 1;
    buf[x] := NUL;
    x := x - 1;
    var xnum: nat := num;
    var more := true;
    while more
      invariant x == 10 - |done|
      invariant more || xnum == 0
      invariant buf[11 - |done|..11] == done
      invariant rest == Pending(xnum, more, base) && rest + done == all
      decreases xnum, more
    {
      var c, q := NextDigit(xnum, base);
      rest := Pending(q, false, base);
      assert rest + [c] + done == rest + ([c] + done);
      done := [c] + done;
      assert |all| == |rest| + |done|;
      buf[x] := c;
      x := x - 1;
      xnum := q;
      more := xnum > 0;
    }
    x := x + 1;
    s := buf[x..NUMBER_BUF_SIZE - 1];
  }

  // ---------------------------------------------------------------- the bounded buffer

  /** A buffer that held orig, after text was sent to it and at most limit characters were kept. */
  ghost function Image(orig: string, limit: nat, text: string): (s: string)
    requires limit <= |orig|
    ensures |s| == |orig|
  {
    var k := if |text| < limit then |text| else limit;
    text[..k] + orig[k..]
  }

  lemma Terminated(orig: string, limit: nat, text: string)
    requires limit < |orig|
    ensures var k := if |text| < limit then |text| else limit;
            Image(orig, limit, text)[k := NUL] == text[..k] + [NUL] + orig[k + 1..]
  {
  }

  class Snp {
    const buf: array<char>
    const buflen: nat
    var bufpos: nat
    /** What buf held at first, and everything sent so far. */
    ghost const orig: string
    ghost var sent: string

    ghost predicate Valid()
      reads this, buf
    {
      && buflen <= buf.Length == |orig|
      && bufpos == (if |sent| < buflen then |sent| else buflen)
      && buf[..] == Image(orig, buflen, sent)
    }

    constructor (buf: array<char>, buflen: nat)
      requires buflen <= buf.Length
      ensures Valid() && this.buf == buf && this.buflen == buflen
      ensures orig == buf[..] && sent == ""
    {
      this.buf := buf;
      this.buflen := buflen;
      bufpos := 0;
      orig := buf[..];
      sent := "";
    }

    /** One character: stored if there is room. */
    method Store(c: char)
      requires Valid()
      modifies this, buf
      ensures Valid() && sent == old(sent) + [c]
    {
      if bufpos < buflen {
        buf[bufpos] := c;
        bufpos := bufpos + 1;
      }
      sent := sent + [c];
    }

    method Send(data: string)
      requires Valid()
      modifies this, buf
      ensures Valid() && sent == old(sent) + data
    {
      var i := 0;
      assert data[..0] == "";
      while i < |data|
        invariant i <= |data|
        invariant Valid() && sent == old(sent) + data[..i]
      {
        Store(data[i]);
        assert data[..i + 1] == data[..i] + [data[i]];
        i := i + 1;
      }
      assert data[..i] == data;
    }
  }

  // ---------------------------------------------------------------- the machine

  class Printer {
    const snp: Snp
    var args: seq<Arg>
    var charcount: nat
    var pf: PF

    ghost predicate Valid()
      reads this, snp, snp.buf
    {
      snp.Valid() && charcount == |snp.sent|
    }

    constructor (snp: Snp, args: seq<Arg>)
      requires snp.Valid() && snp.sent == ""
      ensures Valid() && this.snp == snp && this.args == args && pf == RESET
    {
      this.snp := snp;
      this.args := args;
      charcount := 0;
      pf := RESET;
    }

    method Print(text: string)
      requires Valid()
      modifies this`charcount, snp, snp.buf
      ensures Valid() && snp.sent == old(snp.sent) + text
    {
      snp.Send(text);
      charcount := charcount + |text|;
    }

    method Fill(spc: nat)
      requires Valid()
      modifies this`charcount, snp, snp.buf
      ensures Valid() && snp.sent == old(snp.sent) + Repeat(pf.fill, spc)
    {
      var f := pf.fill;
      var i := 0;
      while i < spc
        invariant i <= spc
        invariant Valid() && snp.sent == old(snp.sent) + Repeat(f, i)
      {
        Print([f]);
        assert Repeat(f, i + 1) == Repeat(f, i) + [f];
        i := i + 1;
      }
    }

    method PrintStuff(prefix: string, prefix2: string, stuff: string)
      requires Valid()
      modifies this`charcount, snp, snp.buf
      ensures Valid() && snp.sent == old(snp.sent) + Stuff(pf, prefix, prefix2, stuff)
    {
      var len := |prefix| + |prefix2| + |stuff|;
      var spc := if pf.spacing > len then pf.spacing - len else 0;
      ghost var before := snp.sent;
      if spc > 0 && !pf.right && pf.fill != '0' {
        Fill(spc);
      }
      Print(prefix);
      Print(prefix2);
      if spc > 0 && !pf.right && pf.fill == '0' {
        Fill(spc);
      }
      Print(stuff);
      if spc > 0 && pf.right {
        Fill(spc);
      }
      StuffParts(pf, before, prefix, prefix2, stuff);
    }

    /** Fetch a number, choose its base and prefixes, convert it and print it. */
    method PrintNum(ch: char)
      requires Valid() && IsInteger(ch)
      modifies this`charcount, this`args, snp, snp.buf
      ensures Valid() && snp.sent == old(snp.sent) + NumberText(pf, ch, ArgBits(old(args)))
      ensures args == Rest(old(args))
    {
      var bits := ArgBits(args);
      args := Rest(args);
      var signed := ch == 'd' && bits % TWO32 >= TWO31;
      var num := if signed then TWO32 - bits % TWO32 else bits % TWO32;
      var base := if ch == 'd' || ch == 'u' then 10 else if ch == 'x' || ch == 'p' then 16 else 8;
      var baseprefix := pf.alt || ch == 'p';
      var text := Convert(num, base);
      var bprefix := if baseprefix && base == 16 then "0x" else if baseprefix && base == 8 then "0" else "";
      PrintStuff(SignPrefix(signed), bprefix, text);
    }

    method PrintOther(ch: char)
      requires Valid() && pf.inPct && !IsModifier(ch) && !IsInteger(ch)
      modifies this`charcount, this`args, snp, snp.buf
      ensures Valid() && snp.sent == old(snp.sent) + Step(pf, ch, old(args)).text
      ensures args == Step(pf, ch, old(args)).args
    {
      if ch == 's' {
        var str := ArgText(args);
        args := Rest(args);
        PrintStuff("", "", str);
      } else {
        var x := ch;
        if ch == 'c' {
          x := (ArgBits(args) % 256) as char;
          args := Rest(args);
        }
        PrintStuff("", "", CharText(x));
      }
    }

    /** Process one character of the format. */
    method Feed(ch: char)
      requires Valid()
      modifies this`charcount, this`args, this`pf, snp, snp.buf
      ensures Valid()
      ensures Sent(pf, snp.sent, args) ==
              Step(old(pf), ch, old(args)).(text := old(snp.sent) + Step(old(pf), ch, old(args)).text)
    {
      if !pf.inPct && ch != '%' {
        Print([ch]);
      } else if !pf.inPct {
        pf := pf.(inPct := true);
      } else if IsModifier(ch) {
        pf := Modifier(pf, ch);
      } else if IsInteger(ch) {
        PrintNum(ch);
        pf := RESET;
      } else {
        PrintOther(ch);
        pf := RESET;
      }
    }

    /** A whole session: what is sent is exactly the output the format calls for. */
    method Run(format: string)
      requires Valid()
      modifies this`charcount, this`args, this`pf, snp, snp.buf
      ensures Valid() && snp.sent == old(snp.sent) + Output(old(pf), format, old(args))
    {
      var i := 0;
      ghost var all := snp.sent + Output(pf, format, args);
      while i < |format|
        invariant i <= |format| && Valid()
        invariant snp.sent + Output(pf, format[i..], args) == all
      {
        OutputStep(snp.sent, pf, format, i, args);
        Feed(format[i]);
        i := i + 1;
      }
    }
  }

  lemma StuffParts(pf: PF, before: string, prefix: string, prefix2: string, stuff: string)
    ensures var pad := Repeat(pf.fill, Padding(pf, |prefix| + |prefix2| + |stuff|));
            before + Stuff(pf, prefix, prefix2, stuff) ==
            if pf.right then before + prefix + prefix2 + stuff + pad
            else if pf.fill == '0' then before + prefix + prefix2 + pad + stuff
            else before + pad + prefix + prefix2 + stuff
  {
  }

  lemma OutputStep(before: string, pf: PF, format: string, i: nat, args: seq<Arg>)
    requires i < |format|
    ensures var r := Step(pf, format[i], args);
            before + Output(pf, format[i..], args) == before + r.text + Output(r.pf, format[i + 1..], r.args)
  {
    assert format[i..][1..] == format[i + 1..];
  }

  /** A whole session on a new machine. */
  method Vprintf(snp: Snp, format: string, args: seq<Arg>) returns (chars: nat)
    requires snp.Valid() && snp.sent == ""
    modifies snp, snp.buf
    ensures snp.Valid() && snp.sent == Output(RESET, format, args) && chars == |snp.sent|
  {
    var printer := new Printer(snp, args);
    printer.Run(format);
    chars := printer.charcount;
  }

  /**
   The first len - 1 characters of the full output and a terminator are stored, nothing else in the buffer
   changes, and the length of the full output is returned.
   */
  method Vsnprintf(buf: array<char>, len: nat, format: string, args: seq<Arg>) returns (chars: nat)
    requires len <= buf.Length
    modifies buf
    ensures chars == |Output(RESET, format, args)|
    ensures len == 0 ==> buf[..] == old(buf[..])
    ensures len > 0 ==>
              var k := if chars < len then chars else len - 1;
              buf[..] == Output(RESET, format, args)[..k] + [NUL] + old(buf[..])[k + 1..]
  {
    var snp := new Snp(buf, if len == 0 then 0 else len - 1);
    chars := Vprintf(snp, format, args);
    if len > 0 {
      Terminated(snp.orig, len - 1, snp.sent);
      buf[snp.bufpos] := NUL;
    }
  }
}
