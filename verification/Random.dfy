/**
 The additive feedback generator random(): a table of words with a front and a rear pointer that go
 round it, seeding, and switching between tables.
 */
module Random {

  const TWO32 := 0x1_0000_0000
  const TWO31 := 0x8000_0000
  const MAX_TYPES := 5

  function W32(x: int): int { x % TWO32 }

  function Deg(ty: nat): nat
    requires ty < MAX_TYPES
  {
    [0, 7, 15, 31, 63][ty]
  }

  function Sep(ty: nat): nat
    requires ty < MAX_TYPES
  {
    [0, 3, 1, 3, 1][ty]
  }

  lemma TypeFacts(ty: nat)
    requires 0 < ty < MAX_TYPES
    ensures 0 < Sep(ty) < Deg(ty) <= 63
  {
  }

  // ---------------------------------------------------------------- the recurrence

  /** x[k] = x[k - deg] + x[k - sep] modulo 2^32, from the first deg values on. */
  ghost function X(w: seq<int>, sep: nat, k: nat): int
    requires 0 < sep < |w|
  {
    if k < |w| then w[k] else W32(X(w, sep, k - |w|) + X(w, sep, k - sep))
  }

  /** The last deg values, oldest first, after one more has been generated. */
  ghost function Shift(w: seq<int>, sep: nat): seq<int>
    requires 0 < sep < |w|
  {
    w[1..] + [W32(w[0] + w[|w| - sep])]
  }

  ghost function Shifts(w: seq<int>, sep: nat, n: nat): (v: seq<int>)
    requires 0 < sep < |w|
    ensures |v| == |w|
  {
    if n == 0 then w else Shift(Shifts(w, sep, n - 1), sep)
  }

  /** n calls of random produce exactly the recurrence. */
  lemma {:induction false} ShiftsAreRecurrence(w: seq<int>, sep: nat, n: nat, i: nat)
    requires 0 < sep < |w| && i < |w|
    ensures Shifts(w, sep, n)[i] == X(w, sep, n + i)
  {
    if n > 0 {
      var v := Shifts(w, sep, n - 1);
      if i < |w| - 1 {
        ShiftsAreRecurrence(w, sep, n - 1, i + 1);
      } else {
        ShiftsAreRecurrence(w, sep, n - 1, 0);
        ShiftsAreRecurrence(w, sep, n - 1, |w| - sep);
        assert n + i - |w| == n - 1 && n + i - sep == n - 1 + |w| - sep;
      }
    }
  }

  /** What n calls return. */
  ghost function Outputs(w: seq<int>, sep: nat, n: nat): (s: seq<int>)
    requires 0 < sep < |w|
    ensures |s| == n
  {
    if n == 0 then [] else Outputs(w, sep, n - 1) + [Output(w, sep, n - 1)]
  }

  /** What call number i returns, counted from 0. */
  ghost function Output(w: seq<int>, sep: nat, i: nat): int
    requires 0 < sep < |w|
  {
    (X(w, sep, |w| + i) / 2) % TWO31
  }

  lemma {:induction false} OutputsAt(w: seq<int>, sep: nat, n: nat, i: nat)
    requires 0 < sep < |w| && i < n
    ensures Outputs(w, sep, n)[i] == Output(w, sep, i)
  {
    if i < n - 1 { OutputsAt(w, sep, n - 1, i); }
  }

  lemma {:induction false} ShiftsAdd(w: seq<int>, sep: nat, m: nat, n: nat)
    requires 0 < sep < |w|
    ensures Shifts(Shifts(w, sep, m), sep, n) == Shifts(w, sep, m + n)
  {
    if n > 0 {
      ShiftsAdd(w, sep, m, n - 1);
    }
  }

  // ---------------------------------------------------------------- two pointers round a table

  /** The table read from the front pointer on, oldest value first. */
  ghost function Window(st: seq<int>, f: nat): seq<int>
    requires f < |st|
  {
    st[f..] + st[..f]
  }

  /** The rear pointer is sep places behind the front pointer, round the table. */
  predicate Apart(deg: nat, sep: nat, f: nat, r: nat) {
    f < deg && r < deg && f == if r + sep < deg then r + sep else r + sep - deg
  }

  function Next(i: nat, n: nat): nat { if i + 1 >= n then 0 else i + 1 }

  /** Adding the rear word into the front word and moving both pointers on is one shift of the window. */
  lemma StepIsShift(st: seq<int>, sep: nat, f: nat, r: nat)
    requires 0 < sep < |st| && Apart(|st|, sep, f, r)
    ensures Window(st[f := W32(st[f] + st[r])], Next(f, |st|)) == Shift(Window(st, f), sep)
    ensures Apart(|st|, sep, Next(f, |st|), Next(r, |st|))
  {
    var x := W32(st[f] + st[r]);
    WindowReads(st, sep, f, r);
    if f + 1 == |st| { LastReplaced(st, x); } else { InnerReplaced(st, f, x); }
  }

  lemma WindowReads(st: seq<int>, sep: nat, f: nat, r: nat)
    requires 0 < sep < |st| && Apart(|st|, sep, f, r)
    ensures |Window(st, f)| == |st| && Window(st, f)[|st| - sep] == st[r] && Window(st, f)[0] == st[f]
  {
  }

  lemma LastReplaced(st: seq<int>, x: int)
    requires st != []
    ensures var f := |st| - 1; Window(st[f := x], 0) == Window(st, f)[1..] + [x]
  {
    var f := |st| - 1;
    assert Window(st[f := x], 0) == st[..f] + [x];
    assert Window(st, f)[1..] == st[..f];
  }

  lemma InnerReplaced(st: seq<int>, f: nat, x: int)
    requires f + 1 < |st|
    ensures Window(st[f := x], f + 1) == Window(st, f)[1..] + [x]
  {
    assert st[f := x][f + 1..] == st[f + 1..] && st[f := x][..f + 1] == st[..f] + [x];
    assert Window(st, f)[1..] == st[f + 1..] + st[..f];
  }

  /** The two pointers never both wrap, so the code need not test the rear one when the front one has. */
  lemma NotBothWrap(deg: nat, sep: nat, f: nat, r: nat)
    requires 0 < sep < deg && Apart(deg, sep, f, r)
    ensures !(f + 1 >= deg && r + 1 >= deg)
  {
  }

  // ---------------------------------------------------------------- seeding

  function Congruential(x: int): int { W32(1103515245 * x + 12345) }

  /** The n words that srandom starts from. */
  ghost function Fill(x: int, n: nat): (s: seq<int>)
    ensures |s| == n
  {
    if n == 0 then []
    else
      var s := Fill(x, n - 1);
      s + [if n == 1 then W32(x) else Congruential(s[n - 2])]
  }

  /** The window after srandom(x): seeded, then turned ten times round. */
  ghost function Seeded(ty: nat, x: int): seq<int>
    requires 0 < ty < MAX_TYPES
  {
    TypeFacts(ty);
    Shifts(Window(Fill(x, Deg(ty)), Sep(ty)), Sep(ty), 10 * Deg(ty))
  }

  // ---------------------------------------------------------------- the streams, in plain numbers

  /** Each value is the sum of the ones deg and sep before it, in 32 bits. */
  ghost predicate Recurs(x: seq<int>, deg: nat, sep: nat)
    requires sep <= deg
  {
    forall k :: deg <= k < |x| ==> x[k] == (x[k - deg] + x[k - sep]) % 0x1_0000_0000
  }

  /** The congruential sequence that starts at the seed, in 32 bits. */
  ghost predicate FromSeed(y: seq<int>, seed: int) {
    && y != [] && y[0] == seed % 0x1_0000_0000
    && forall i :: 0 < i < |y| ==> y[i] == (1103515245 * y[i - 1] + 12345) % 0x1_0000_0000
  }

  /**
   out is what random returns after seeding: y are the first words, z the stream that starts with them, from
   the front pointer on; the first ten laps are dropped, and of each value after them the lowest bit.
   */
  ghost predicate Streams(seed: int, deg: nat, sep: nat, y: seq<int>, z: seq<int>, out: seq<int>) {
    && 0 < sep < deg == |y| && FromSeed(y, seed)
    && |z| == 11 * deg + |out| && z[..deg] == y[sep..] + y[..sep] && Recurs(z, deg, sep)
    && forall i :: 0 <= i < |out| ==> out[i] == z[11 * deg + i] / 2
  }

  lemma {:induction false} FillFromSeed(x: int, n: nat)
    requires n > 0
    ensures FromSeed(Fill(x, n), x)
  {
    if n > 1 { FillFromSeed(x, n - 1); }
  }

  lemma {:induction false} XInWord(w: seq<int>, sep: nat, k: nat)
    requires 0 < sep < |w| <= k
    ensures 0 <= X(w, sep, k) < TWO32
  {
  }

  /** Going on from a later window is the same stream. */
  lemma {:induction false} XShifts(w: seq<int>, sep: nat, n: nat, k: nat)
    requires 0 < sep < |w|
    ensures X(Shifts(w, sep, n), sep, k) == X(w, sep, n + k)
  {
    if k < |w| {
      ShiftsAreRecurrence(w, sep, n, k);
    } else {
      XShifts(w, sep, n, k - |w|);
      XShifts(w, sep, n, k - sep);
    }
  }

  ghost function Prefix(w: seq<int>, sep: nat, n: nat): (z: seq<int>)
    requires 0 < sep < |w|
    ensures |z| == n && forall k :: 0 <= k < n ==> z[k] == X(w, sep, k)
  {
    seq(n, k requires 0 <= k < n => X(w, sep, k))
  }

  /** What m calls return after seeding, with the words and the stream behind them. */
  lemma SeededStreams(x: int, deg: nat, sep: nat, m: nat)
    requires 0 < sep < deg
    ensures var y := Fill(x, deg); var w := Window(y, sep);
            Streams(x, deg, sep, y, Prefix(w, sep, 11 * deg + m), Outputs(Shifts(w, sep, 10 * deg), sep, m))
  {
    var y := Fill(x, deg);
    var w := Window(y, sep);
    var z, v := Prefix(w, sep, 11 * deg + m), Shifts(w, sep, 10 * deg);
    FillFromSeed(x, deg);
    assert z[..deg] == w;
    PrefixRecurs(w, sep, 11 * deg + m);
    forall i | 0 <= i < m
      ensures Outputs(v, sep, m)[i] == z[11 * deg + i] / 2
    {
      SeededOutput(w, sep, 10 * deg, m, i);
    }
  }

  lemma PrefixRecurs(w: seq<int>, sep: nat, n: nat)
    requires 0 < sep < |w|
    ensures Recurs(Prefix(w, sep, n), |w|, sep)
  {
  }

  lemma SeededOutput(w: seq<int>, sep: nat, n: nat, m: nat, i: nat)
    requires 0 < sep < |w| && i < m
    ensures Outputs(Shifts(w, sep, n), sep, m)[i] == X(w, sep, n + |w| + i) / 2
  {
    OutputsAt(Shifts(w, sep, n), sep, m, i);
    XShifts(w, sep, n, |w| + i);
    XInWord(w, sep, n + |w| + i);
  }

  // ---------------------------------------------------------------- saved tables

  /** What the zeroth word of a table says: the type and the place of the rear pointer. */
  function Header(ty: nat, r: nat): nat {
    if ty == 0 then 0 else MAX_TYPES * r + ty
  }

  lemma HeaderDecodes(ty: nat, r: nat)
    requires ty < MAX_TYPES
    ensures Header(ty, r) % MAX_TYPES == ty && (ty != 0 ==> Header(ty, r) / MAX_TYPES == r)
  {
  }

  /** A table whose zeroth word is up to date. */
  ghost predicate SavedOk(t: seq<int>) {
    && t != [] && 0 <= t[0] < TWO31
    && var ty := t[0] % MAX_TYPES;
       if ty == 0 then |t| >= 2 else |t| > Deg(ty) && t[0] / MAX_TYPES < Deg(ty)
  }

  /** A table saved at the current position goes on from the current window. */
  lemma SavedHere(t: seq<int>, ty: nat, r: nat)
    requires SavedOk(t) && t[0] % MAX_TYPES == ty
    ensures ty != 0 ==> (t[0] / MAX_TYPES == r <==> t[0] == Header(ty, r))
    ensures ty == 0 || t[0] / MAX_TYPES == r ==> SavedWindow(t) == WindowOf(t, ty, r)
  {
    DivideBack(t[0], MAX_TYPES);
  }

  lemma DivideBack(h: nat, n: nat)
    requires n > 0
    ensures h == n * (h / n) + h % n
  {
  }

  /** The table is saved as one of type ty that goes on from w. */
  ghost predicate SavedAs(t: seq<int>, ty: nat, w: seq<int>) {
    SavedOk(t) && t[0] % MAX_TYPES == ty && SavedWindow(t) == w
  }

  /** The zeroth word, as a signed number, has no valid type as its remainder: setstate gives up. */
  predicate BadType(h: int) {
    h % TWO32 >= TWO31 && (TWO32 - h % TWO32) % MAX_TYPES != 0
  }

  lemma SavedIsGood(t: seq<int>)
    requires SavedOk(t)
    ensures !BadType(t[0])
  {
    assert t[0] % TWO32 == t[0];
  }

  function Front(ty: nat, r: nat): nat
    requires 0 < ty < MAX_TYPES
  {
    (r + Sep(ty)) % Deg(ty)
  }

  /** The values a generator of type ty goes on from, over table t with the front pointer at f. */
  ghost function Reading(t: seq<int>, ty: nat, f: nat): seq<int>
    requires ty < MAX_TYPES && (if ty == 0 then |t| > 1 else |t| > Deg(ty) && f < Deg(ty))
  {
    if ty == 0 then [t[1]] else Window(t[1..Deg(ty) + 1], f)
  }

  /** The same, with the rear pointer at r. */
  ghost function WindowOf(t: seq<int>, ty: nat, r: nat): seq<int>
    requires ty < MAX_TYPES && |t| > (if ty == 0 then 1 else Deg(ty))
  {
    if ty == 0 then [t[1]] else TypeFacts(ty); Reading(t, ty, Front(ty, r))
  }

  ghost function SavedWindow(t: seq<int>): seq<int>
    requires SavedOk(t)
  {
    WindowOf(t, t[0] % MAX_TYPES, t[0] / MAX_TYPES)
  }

  /** The zeroth word is no part of the window. */
  lemma SameWords(t: seq<int>, t': seq<int>, ty: nat, r: nat)
    requires ty < MAX_TYPES && |t| == |t'| > (if ty == 0 then 1 else Deg(ty)) && t[1..] == t'[1..]
    ensures WindowOf(t', ty, r) == WindowOf(t, ty, r)
  {
    if ty == 0 {
      assert t[1] == t[1..][0] && t'[1] == t'[1..][0];
    } else {
      assert t[1..Deg(ty) + 1] == t[1..][..Deg(ty)];
      assert t'[1..Deg(ty) + 1] == t'[1..][..Deg(ty)];
    }
  }

  lemma TableShifts(t: seq<int>, deg: nat, sep: nat, f: nat, r: nat)
    requires 0 < sep < deg < |t| && Apart(deg, sep, f, r)
    ensures var x := W32(t[1 + f] + t[1 + r]); var win := Window(t[1..deg + 1], f);
            && |win| == deg && Apart(deg, sep, Next(f, deg), Next(r, deg))
            && Window(t[1 + f := x][1..deg + 1], Next(f, deg)) == Shift(win, sep)
            && Shift(win, sep)[deg - 1] == x
  {
    var st := t[1..deg + 1];
    var x := W32(t[1 + f] + t[1 + r]);
    StepIsShift(st, sep, f, r);
    assert t[1 + f := x][1..deg + 1] == st[f := x];
    assert Window(st, f)[deg - sep] == st[r] && Window(st, f)[0] == st[f];
  }

  /** The window from the same place on, after one word has been replaced by the sum. */
  lemma RewoundWindow(t: seq<int>, ty: nat, f: nat, r: nat)
    requires 0 < ty < MAX_TYPES && |t| > Deg(ty) && Apart(Deg(ty), Sep(ty), f, r)
    ensures 0 < Sep(ty) < |Reading(t, ty, f)|
    ensures Reading(t[1 + f := W32(t[1 + f] + t[1 + r])], ty, f) == Rewound(Reading(t, ty, f), Sep(ty))
  {
    TypeFacts(ty);
    RewoundTable(t, Deg(ty), Sep(ty), f, r);
  }

  lemma RewoundSaved(t: seq<int>, ty: nat, f: nat, r: nat)
    requires 0 < ty < MAX_TYPES && |t| > Deg(ty) && Apart(Deg(ty), Sep(ty), f, r) && t[0] == Header(ty, r)
    ensures var t' := t[1 + f := W32(t[1 + f] + t[1 + r])];
            && SavedOk(t') && !BadType(t'[0]) && t'[0] % MAX_TYPES == ty && t'[0] / MAX_TYPES == r
            && 0 < Sep(ty) < |Reading(t, ty, f)| && SavedWindow(t') == Rewound(Reading(t, ty, f), Sep(ty))
  {
    var t' := t[1 + f := W32(t[1 + f] + t[1 + r])];
    assert t'[0] == t[0];
    SavedHeader(t', ty, r);
    SavedIsGood(t');
    FrontOf(ty, f, r);
    RewoundWindow(t, ty, f, r);
  }

  lemma FrontOf(ty: nat, f: nat, r: nat)
    requires 0 < ty < MAX_TYPES && Apart(Deg(ty), Sep(ty), f, r)
    ensures Front(ty, r) == f
  {
    TypeFacts(ty);
  }

  lemma SavedHeader(t: seq<int>, ty: nat, r: nat)
    requires 0 < ty < MAX_TYPES && |t| > Deg(ty) && r < Deg(ty) && t[0] == Header(ty, r)
    ensures SavedOk(t) && t[0] % MAX_TYPES == ty && t[0] / MAX_TYPES == r
  {
    HeaderDecodes(ty, r);
    TypeFacts(ty);
  }

  lemma RewoundTable(t: seq<int>, deg: nat, sep: nat, f: nat, r: nat)
    requires 0 < sep < deg < |t| && Apart(deg, sep, f, r)
    ensures Window(t[1 + f := W32(t[1 + f] + t[1 + r])][1..deg + 1], f) == Rewound(Window(t[1..deg + 1], f), sep)
  {
    var st := t[1..deg + 1];
    var x := W32(t[1 + f] + t[1 + r]);
    assert t[1 + f := x][1..deg + 1] == st[f := x];
    assert Window(st, f)[deg - sep] == st[r] && Window(st, f)[0] == st[f];
  }

  lemma ReadingShifts(t: seq<int>, ty: nat, f: nat, r: nat)
    requires 0 < ty < MAX_TYPES && |t| > Deg(ty) && Apart(Deg(ty), Sep(ty), f, r)
    ensures var x := W32(t[1 + f] + t[1 + r]); var f' := Next(f, Deg(ty));
            && 0 < Sep(ty) < |Reading(t, ty, f)| == Deg(ty) && Apart(Deg(ty), Sep(ty), f', Next(r, Deg(ty)))
            && Reading(t[1 + f := x], ty, f') == Shift(Reading(t, ty, f), Sep(ty))
            && Shift(Reading(t, ty, f), Sep(ty))[Deg(ty) - 1] == x
  {
    TypeFacts(ty);
    TableShifts(t, Deg(ty), Sep(ty), f, r);
  }

  /** The initial table, as initstate(1, randtbl, 128) would leave it. */
  const RANDTBL: seq<int> := [
    3,
    0x9a319039, 0x32d9c024, 0x9b663182, 0x5da1f342, 0xde3b81e0, 0xdf0a6fb5, 0xf103bc02, 0x48f340fb,
    0x7449e56b, 0xbeb1dbb0, 0xab5c5918, 0x946554fd, 0x8c2e680f, 0xeb3d799f, 0xb11ee0b7, 0x2d436b86,
    0xda672e2a, 0x1588ca88, 0xe369735d, 0x904f35f7, 0xd7158fd6, 0x6fa6f051, 0x616e6b96, 0xac94efdc,
    0x36413f93, 0xc622c298, 0xf5a42ab8, 0x8a88d77b, 0xf5ad9d0e, 0x8999220b, 0x27fb47b9]

  /** Two of the values it goes on from differ. */
  lemma DefaultWindow()
    ensures |RANDTBL| == 32 && SavedOk(RANDTBL) && RANDTBL[0] == Header(3, 0) && Apart(Deg(3), Sep(3), 3, 0)
    ensures |Reading(RANDTBL, 3, 3)| == 31
    ensures Reading(RANDTBL, 3, 3)[1] == 0xde3b81e0 && Reading(RANDTBL, 3, 3)[2] == 0xdf0a6fb5
  {
    var st := RANDTBL[1..32];
    assert st[4] == RANDTBL[5] == 0xde3b81e0 && st[5] == RANDTBL[6] == 0xdf0a6fb5;
    assert Deg(3) == 31 && Sep(3) == 3;
    assert Reading(RANDTBL, 3, 3) == st[3..] + st[..3];
  }

  class Generator {
    var table: array<int>   // state is the part from index 1 on; pointers count from there
    var randType: nat
    var randDeg: nat
    var randSep: nat
    var f: nat
    var r: nat

    ghost predicate Valid()
      reads this
    {
      && randType < MAX_TYPES && randDeg == Deg(randType) && randSep == Sep(randType)
      && (if randType == 0 then table.Length >= 2 else table.Length > randDeg && Apart(randDeg, randSep, f, r))
    }

    /** The state at the start of the program. */
    constructor Default()
      ensures Valid() && fresh(table) && table[..] == RANDTBL && randType == 3 && r == 0 && f == 3
    {
      table := new int[32](i requires 0 <= i < 32 => RANDTBL[i]);
      randType, randDeg, randSep, f, r := 3, 31, 3, 3, 0;
      new;
      assert table[..] == RANDTBL;
    }

    /** The values the generator goes on from. */
    ghost function Win(): seq<int>
      requires Valid()
      reads this, table
    {
      Reading(table[..], randType, f)
    }

    lemma WinIsWindowOf()
      requires Valid()
      ensures Win() == WindowOf(table[..], randType, r)
    {
      if randType != 0 {
        TypeFacts(randType);
        assert table[..][1..randDeg + 1] == table[1..randDeg + 1];
        assert Front(randType, r) == f;
      }
    }

    /** The additive branch of random_unlocked. */
    method Additive() returns (i: int)
      requires Valid() && randType != 0
      modifies this`f, this`r, table
      ensures table[..] == old(table[..])[1 + old(f) := W32(old(table[1 + f] + table[1 + r]))]
      ensures f == Next(old(f), randDeg) && r == Next(old(r), randDeg)
      ensures Valid() && Win() == Shift(old(Win()), randSep)
      ensures i == (Win()[randDeg - 1] / 2) % TWO31
    {
      ReadingShifts(table[..], randType, f, r);
      var x := W32(table[1 + f] + table[1 + r]);
      i := (x / 2) % TWO31;
      AddIn(x);
      MovePointers();
    }

    /** Replace the front word. */
    method AddIn(x: int)
      requires 1 + f < table.Length
      modifies table
      ensures table[..] == old(table[..])[1 + f := x]
    {
      table[1 + f] := x;
    }

    /** Move both pointers on; the rear one is tested only when the front one has not wrapped. */
    method MovePointers()
      requires 0 < randSep < randDeg && Apart(randDeg, randSep, f, r)
      modifies this`f, this`r
      ensures f == Next(old(f), randDeg) && r == Next(old(r), randDeg)
    {
      NotBothWrap(randDeg, randSep, f, r);
      f := f + 1;
      if f >= randDeg {
        f := 0;
        r := r + 1;
      } else {
        r := r + 1;
        if r >= randDeg {
          r := 0;
        }
      }
    }

    /** random_unlocked */
    method Next31() returns (i: int)
      requires Valid()
      modifies this`f, this`r, table
      ensures Valid() && table[0] == old(table[0])
      ensures randType == 0 ==> i == table[1] == W32(old(table[1]) * 1103515245 + 12345) % TWO31
      ensures randType != 0 ==> Win() == Shift(old(Win()), randSep) && r == Next(old(r), randDeg)
      ensures randType != 0 ==> i == (Win()[randDeg - 1] / 2) % TWO31
    {
      if randType == 0 {
        i := W32(table[1] * 1103515245 + 12345) % TWO31;
        table[1] := i;
      } else {
        i := Additive();
      }
    }

    /** The filling loop of srandom_unlocked. */
    method FillTable(x: int)
      requires randType < MAX_TYPES && randDeg == Deg(randType) && randType != 0 && table.Length > randDeg
      modifies table
      ensures table[0] == old(table[0]) && table[1..randDeg + 1] == Fill(x, randDeg)
    {
      TypeFacts(randType);
      table[1] := W32(x);
      assert Fill(x, 1) == [W32(x)];
      for i := 1 to randDeg
        invariant table[0] == old(table[0]) && table[1..i + 1] == Fill(x, i)
      {
        assert table[i] == Fill(x, i)[i - 1];
        table[1 + i] := Congruential(table[i]);
        assert table[1..i + 2] == table[1..i + 1] + [table[1 + i]];
      }
    }

    /** srandom_unlocked: afterwards both pointers are back where they started. */
    method Srandom(x: int)
      requires randType < MAX_TYPES && randDeg == Deg(randType) && randSep == Sep(randType)
      requires table.Length > (if randType == 0 then 1 else randDeg)
      modifies this`f, this`r, table
      ensures Valid() && table[0] == old(table[0])
      ensures randType == 0 ==> Win() == [W32(x)]
      ensures randType != 0 ==> Win() == Seeded(randType, x) && r == 0 && f == randSep
    {
      if randType == 0 {
        table[1] := W32(x);
        return;
      }
      TypeFacts(randType);
      FillTable(x);
      f, r := randSep, 0;
      Turn(10 * randDeg);
      TurnsBack(randDeg, 10);
    }

    /** The window w and the rear pointer 0, n calls later. */
    ghost predicate After(w: seq<int>, n: nat)
      reads this, table
    {
      0 < randSep < |w| && Valid() && randType != 0 && Win() == Shifts(w, randSep, n) && r == Turned(n, randDeg)
    }

    lemma NoneYet()
      requires Valid() && randType != 0 && r == 0
      ensures After(Win(), 0)
    {
      TypeFacts(randType);
    }

    method TurnOnce(ghost w: seq<int>, ghost n: nat)
      requires After(w, n)
      modifies this`f, this`r, table
      ensures After(w, n + 1) && table[0] == old(table[0])
    {
      var _ := Additive();
    }

    /** n calls of random. */
    method Turn(n: nat)
      requires Valid() && randType != 0 && r == 0
      modifies this`f, this`r, table
      ensures Valid() && table[0] == old(table[0])
      ensures Win() == Shifts(old(Win()), randSep, n) && r == Turned(n, randDeg)
    {
      ghost var w := Win();
      NoneYet();
      for i := 0 to n
        invariant After(w, i) && table[0] == old(table[0])
      {
        TurnOnce(w, i);
      }
    }

    /** Refresh the zeroth word of the current table. */
    method Save()
      requires Valid()
      modifies table
      ensures Valid() && table[0] == Header(randType, r) && Win() == old(Win())
      ensures forall j :: 0 < j < table.Length ==> table[j] == old(table[j])
      ensures SavedOk(table[..]) && SavedWindow(table[..]) == Win() && table[0] % MAX_TYPES == randType
    {
      table[0] := if randType == 0 then randType else MAX_TYPES * r + randType;
      assert randType != 0 ==> table[1..randDeg + 1] == old(table[1..randDeg + 1]);
      HeaderDecodes(randType, r);
      WinIsWindowOf();
    }

    /** The type that n bytes of state allow; initstate refuses fewer than 8. */
    static function TypeFor(n: nat): nat
      requires n >= 8
    {
      if n < 32 then 0 else if n < 64 then 1 else if n < 128 then 2 else if n < 256 then 3 else 4
    }

    /** initstate over the array arg of n bytes; ok is false for NULL. */
    method InitState(seed: int, arg: array<int>, n: nat) returns (ok: bool, ostate: array<int>)
      requires Valid() && n <= 4 * arg.Length
      modifies this, table, arg
      ensures Valid() && ostate == old(table) && (ok <==> n >= 8)
      ensures !ok ==> table == old(table) && randType == old(randType) && Win() == old(Win())
      ensures ok ==> table == arg && randType == TypeFor(n) && SavedOk(arg[..]) && SavedWindow(arg[..]) == Win()
      ensures ok ==> Win() == if randType == 0 then [W32(seed)] else Seeded(randType, seed)
      ensures old(table) != arg ==> SavedAs(old(table)[..], old(randType), old(Win()))
    {
      ostate := table;
      Save();
      if n < 8 {
        return false, ostate;
      }
      randType := TypeFor(n);
      randDeg, randSep := Deg(randType), Sep(randType);
      table := arg;
      Srandom(seed);
      Save();
      return true, ostate;
    }

    /**
     setstate. A table whose zeroth word names no type is refused, and the generator goes on as before.
     Otherwise the new table resumes where its own zeroth word says, as read on entry, even if it is the
     current one. The table left behind is saved with the current position. ok is false for NULL.
     */
    method SetState(arg: array<int>) returns (ok: bool, ostate: array<int>)
      requires Valid() && arg.Length > 0 && (SavedOk(arg[..]) || BadType(arg[0]))
      modifies this, table
      ensures Valid() && ostate == old(table) && (ok <==> !BadType(old(arg[0])))
      ensures !ok ==> table == old(table) && randType == old(randType) && r == old(r) && Win() == old(Win())
      ensures ok ==> table == arg && randType == old(arg[0]) % MAX_TYPES && Win() == old(SavedWindow(arg[..]))
      ensures ok && randType != 0 ==> r == old(arg[0]) / MAX_TYPES
      ensures ok && old(table) == arg ==> forall j :: 0 < j < arg.Length ==> arg[j] == old(arg[j])
      ensures !ok || old(table) != arg ==> SavedAs(old(table)[..], old(randType), old(Win()))
    {
      ostate := table;
      if BadType(arg[0]) {
        Save();
        return false, ostate;
      }
      var ty, rear := arg[0] % MAX_TYPES, arg[0] / MAX_TYPES;
      ghost var before := arg[..];
      Save();
      SameWords(before, arg[..], ty, rear);
      Adopt(arg, ty, rear);
      return true, ostate;
    }

    /** Make arg the current table, of type ty, with the rear pointer at rear. */
    method Adopt(arg: array<int>, ty: nat, rear: nat)
      requires ty < MAX_TYPES && (if ty == 0 then arg.Length > 1 else arg.Length > Deg(ty) && rear < Deg(ty))
      modifies this
      ensures Valid() && table == arg && randType == ty && (ty != 0 ==> r == rear)
      ensures Win() == WindowOf(arg[..], ty, rear)
    {
      randType, randDeg, randSep := ty, Deg(ty), Sep(ty);
      table := arg;
      if randType != 0 {
        TypeFacts(ty);
        r := rear;
        f := (rear + randSep) % randDeg;
      }
      WinIsWindowOf();
    }

    method Use(n: nat)
      requires Valid()
      modifies this`f, this`r, table
      ensures Valid()
    {
      for i := 0 to n
        invariant Valid()
      {
        var _ := Next31();
      }
    }

    /** Switching to another table, drawing any number of values there, and switching back resumes the same stream. */
    method SwitchAndBack(other: array<int>, n: nat)
      requires Valid() && other != table && SavedOk(other[..])
      modifies this, table, other
      ensures Valid() && table == old(table) && randType == old(randType) && Win() == old(Win())
    {
      ghost var ty, w := randType, Win();
      var mine := LeaveFor(other);
      Use(n);
      Resume(mine, ty, w);
    }

    /** setstate to another table. */
    method LeaveFor(other: array<int>) returns (mine: array<int>)
      requires Valid() && other != table && SavedOk(other[..])
      modifies this, table
      ensures mine == old(table) && table == other && SavedAs(mine[..], old(randType), old(Win()))
      ensures Valid()
    {
      SavedIsGood(other[..]);
      var _, ostate := SetState(other);
      mine := ostate;
    }

    /** setstate back to a table left before. */
    method Resume(mine: array<int>, ghost ty: nat, ghost w: seq<int>)
      requires Valid() && mine != table && SavedAs(mine[..], ty, w)
      modifies this, table
      ensures table == mine && randType == ty
      ensures Valid() && Win() == w
    {
      SavedIsGood(mine[..]);
      var _, _ := SetState(mine);
    }

    /**
     On the table that is already active, setstate goes back to the position saved last instead of
     staying where it is. It stays exactly when that position is the current one, and then nothing changes.
     */
    method SetStateActive()
      requires Valid() && SavedOk(table[..]) && table[0] % MAX_TYPES == randType
      modifies this, table
      ensures Valid() && table == old(table) && randType == old(randType)
      ensures Win() == old(SavedWindow(table[..]))
      ensures randType != 0 ==> r == old(table[0]) / MAX_TYPES && (r == old(r) <==> old(table[0]) == Header(old(randType), old(r)))
      ensures randType == 0 || r == old(r) ==> Win() == old(Win())
    {
      SavedHere(table[..], randType, r);
      WinIsWindowOf();
      Reload();
    }

    /** setstate on the active table, as a move of the pointers. */
    method Reload()
      requires Valid() && SavedOk(table[..]) && table[0] % MAX_TYPES == randType
      modifies this, table
      ensures table == old(table) && randType == old(randType)
      ensures randType != 0 ==> r == old(table[0]) / MAX_TYPES
      ensures Valid() && Win() == old(SavedWindow(table[..]))
    {
      SavedIsGood(table[..]);
      var _, _ := SetState(table);
    }

    /**
     One call of random and then setstate on the active table, whose position was up to date before: the
     newest value takes the place of the oldest.
     */
    method DrawThenSetState()
      requires Valid() && randType != 0 && table[0] == Header(randType, r)
      modifies this, table
      ensures Valid() && table == old(table) && randType == old(randType) && r == old(r)
      ensures 0 < randSep < |old(Win())| && Win() == Rewound(old(Win()), randSep)
    {
      ghost var w := DrawSaved();
      BackTo(w, old(r));
    }

    /** setstate on the active table, whose zeroth word names this place. */
    method BackTo(ghost w: seq<int>, ghost rear: nat)
      requires Valid() && randType != 0 && SavedAs(table[..], randType, w) && table[0] / MAX_TYPES == rear
      modifies this, table
      ensures table == old(table) && randType == old(randType) && randSep == old(randSep) && r == rear
      ensures Valid() && Win() == w
    {
      SetStateActive();
    }

    /** One call of random; w is what the table, with its zeroth word now out of date, is saved as. */
    method DrawSaved() returns (ghost w: seq<int>)
      requires Valid() && randType != 0 && table[0] == Header(randType, r)
      modifies this`f, this`r, table
      ensures 0 < randSep < |old(Win())| && w == Rewound(old(Win()), randSep)
      ensures Valid() && SavedAs(table[..], randType, w) && table[0] / MAX_TYPES == old(r)
    {
      RewoundSaved(table[..], randType, f, r);
      ghost var t := table[..][1 + f := W32(table[1 + f] + table[1 + r])];
      w := SavedWindow(t);
      DrawInto(t);
      assert table[0] == table[..][0];
    }

    /** One call of random, as a change of the table alone. */
    method DrawInto(ghost t: seq<int>)
      requires Valid() && randType != 0 && t == table[..][1 + f := W32(table[1 + f] + table[1 + r])]
      modifies this`f, this`r, table
      ensures Valid() && table[..] == t
    {
      var _ := Additive();
    }

    /** The stream from any additive state: n calls return the recurrence, without the lowest bits. */
    method Draws(n: nat) returns (out: seq<int>)
      requires Valid() && randType != 0
      modifies this`f, this`r, table
      ensures Valid() && Win() == Shifts(old(Win()), randSep, n)
      ensures 0 < randSep < |old(Win())| && out == Outputs(old(Win()), randSep, n)
    {
      out := [];
      ghost var w := Win();
      NoDraws();
      for i := 0 to n
        invariant Drawn(w, i) && out == Outputs(w, randSep, i)
      {
        var x := DrawOnce(w, i);
        out := out + [x];
      }
    }

    /** m calls of the congruential generator of small tables. */
    method DrawsLinear(m: nat) returns (out: seq<int>)
      requires Valid() && randType == 0
      modifies this`f, this`r, table
      ensures Valid() && out == Congruentials(old(table[1]), m)
    {
      out := [];
      ghost var x := table[1];
      for i := 0 to m
        invariant Valid() && out == Congruentials(x, i) && table[1] == if i == 0 then x else out[i - 1]
      {
        MaskedIsCongruent(table[1]);
        var v := Next31();
        out := out + [v];
      }
    }

    /**
     initstate and then m calls of random, in plain numbers: below 8 bytes NULL, below 32 the congruential
     generator, and then the recurrences of degree 7, 15, 31 and 63.
     */
    method InitAndDraw(seed: int, arg: array<int>, n: nat, m: nat) returns (ok: bool, out: seq<int>, ghost y: seq<int>, ghost z: seq<int>)
      requires Valid() && n <= 4 * arg.Length
      modifies this, table, arg
      ensures Valid() && (ok <==> n >= 8) && (ok ==> |out| == m)
      ensures 8 <= n < 32 ==> out == Congruentials(seed % 0x1_0000_0000, m)
      ensures 32 <= n < 64 ==> Streams(seed, 7, 3, y, z, out)
      ensures 64 <= n < 128 ==> Streams(seed, 15, 1, y, z, out)
      ensures 128 <= n < 256 ==> Streams(seed, 31, 3, y, z, out)
      ensures 256 <= n ==> Streams(seed, 63, 1, y, z, out)
    {
      out, y, z := [], [], [];
      var done, _ := InitState(seed, arg, n);
      ok := done;
      if !ok {
        return;
      }
      if randType == 0 {
        assert Win() == [table[1]];
        out := DrawsLinear(m);
      } else {
        out, y, z := DrawSeeded(seed, m);
      }
    }

    /** m calls after seeding. */
    method DrawSeeded(ghost seed: int, m: nat) returns (out: seq<int>, ghost y: seq<int>, ghost z: seq<int>)
      requires Valid() && randType != 0 && Win() == Seeded(randType, seed)
      modifies this`f, this`r, table
      ensures |out| == m && Streams(seed, Deg(randType), Sep(randType), y, z, out)
      ensures Valid()
    {
      TypeFacts(randType);
      y := Fill(seed, randDeg);
      z := Prefix(Window(y, randSep), randSep, 11 * randDeg + m);
      SeededStreams(seed, randDeg, randSep, m);
      out := Draws(m);
    }

    ghost predicate Drawn(w: seq<int>, n: nat)
      reads this, table
    {
      Valid() && randType != 0 && 0 < randSep < |w| == randDeg && Win() == Shifts(w, randSep, n)
    }

    method DrawOnce(ghost w: seq<int>, ghost n: nat) returns (x: int)
      requires Drawn(w, n)
      modifies this`f, this`r, table
      ensures Drawn(w, n + 1) && x == Output(w, randSep, n)
    {
      ShiftsAreRecurrence(w, randSep, n + 1, randDeg - 1);
      x := Next31();
    }

    lemma NoDraws()
      requires Valid() && randType != 0
      ensures Drawn(Win(), 0)
    {
      TypeFacts(randType);
    }
  }

  /** The next congruential value, in 31 bits. */
  function Congruent31(a: int): int { (a * 1103515245 + 12345) % 0x8000_0000 }

  /** The first m values after x, each the next one after the one before. */
  ghost function Congruentials(x: int, m: nat): (s: seq<int>)
    ensures |s| == m
  {
    if m == 0 then []
    else
      var s := Congruentials(x, m - 1);
      s + [Congruent31(if m == 1 then x else s[m - 2])]
  }

  lemma MaskedIsCongruent(a: int)
    ensures W32(a * 1103515245 + 12345) % TWO31 == Congruent31(a)
  {
    LowerBits(a * 1103515245 + 12345);
  }

  lemma LowerBits(a: int)
    ensures a % TWO32 % TWO31 == a % TWO31
  {
    var q, r := a / TWO32, a % TWO32;
    assert a == 2 * q * TWO31 + r;
  }

  /** The window with its newest-to-be value in the place of the oldest. */
  ghost function Rewound(w: seq<int>, sep: nat): seq<int>
    requires 0 < sep < |w|
  {
    [W32(w[0] + w[|w| - sep])] + w[1..]
  }

  /** The stream then is the one it should be, a step further on, exactly when all other values equal the newest. */
  lemma RewoundIff(w: seq<int>, sep: nat)
    requires 0 < sep < |w|
    ensures Rewound(w, sep) == Shift(w, sep) <==> forall i :: 0 < i < |w| ==> w[i] == W32(w[0] + w[|w| - sep])
  {
    var x := W32(w[0] + w[|w| - sep]);
    if Rewound(w, sep) == Shift(w, sep) {
      forall i | 0 < i < |w|
        ensures w[i] == x
      {
        RotatedConstant(w[1..], x, i - 1);
      }
    } else {
      assert (forall i :: 0 < i < |w| ==> w[i] == x) ==> Rewound(w, sep) == Shift(w, sep);
    }
  }

  lemma {:induction false} RotatedConstant(s: seq<int>, x: int, i: nat)
    requires [x] + s == s + [x] && i < |s|
    ensures s[i] == x
  {
    assert ([x] + s)[i] == (s + [x])[i];
    if i > 0 { RotatedConstant(s, x, i - 1); }
  }

  /** Where a pointer that starts at 0 is after n moves. */
  ghost function Turned(n: nat, deg: nat): nat {
    if n == 0 then 0 else Next(Turned(n - 1, deg), deg)
  }

  lemma {:induction false} TurnedWithin(base: nat, k: nat, deg: nat)
    requires k < deg && Turned(base, deg) == 0
    ensures Turned(base + k, deg) == k
  {
    if k > 0 { TurnedWithin(base, k - 1, deg); }
  }

  /** Whole turns end where they began. */
  lemma {:induction false} TurnsBack(deg: nat, laps: nat)
    requires deg > 0
    ensures Turned(laps * deg, deg) == 0
  {
    if laps > 0 {
      TurnsBack(deg, laps - 1);
      TurnedWithin((laps - 1) * deg, deg - 1, deg);
      assert laps * deg == (laps - 1) * deg + (deg - 1) + 1;
    }
  }

  /**
   At the start of the program, one call of random and one of setstate on the initial table change the
   stream: the generator does not go on from where it was.
   */
  method DefaultDisturbed() returns (g: Generator)
    ensures g.Valid() && g.Win() != Shift(Reading(RANDTBL, 3, 3), 3)
  {
    DefaultWindow();
    g := new Generator.Default();
    RewoundIff(g.Win(), 3);
    g.DrawThenSetState();
  }
}
