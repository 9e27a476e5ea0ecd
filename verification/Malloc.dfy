/**
 The user-level malloc and free: boundary-tag headers rewritten in place in the
 heap, over the sbrk system call. Memory is a map from unit-aligned addresses to
 the eight-byte cells written so far; every cell, header or user data, can be read as a header, as in
 the source.
 */
module Malloc {
  import opened Blocks

  const MMAGIC := 2
  const TWO32 := 0x1_0000_0000
  const TWO31 := 0x8000_0000
  /** Largest request whose rounded size, with a header, is a positive 32-bit int. */
  const MAX_REQUEST := 0x7fff_fff0

  // ---------------------------------------------------------------- sbrk

  /** Reinterpret an unsigned 32-bit value as a signed one. */
  function AsInt32(u: int): int
    requires 0 <= u < TWO32
  {
    if u < TWO31 then u else u - TWO32
  }

  /** Remainder modulo 4 as C computes it, with the sign of the dividend. */
  function Rem4(x: int): int {
    if x >= 0 then x % 4 else -((-x) % 4)
  }

  function Wrap(x: int): int { x % TWO32 }

  /** The heap top sbrk installs for a new position, "rounded" the way the source does it. */
  function SbrkTop(pos: int): int {
    Wrap(AsInt32(Wrap(pos)) + Rem4(AsInt32(Wrap(pos))))
  }

  lemma UpToUnit(x: nat)
    ensures (x + UNIT - x % UNIT) % UNIT == 0 && (x + UNIT - x % UNIT) % 4 == 0
  {
  }

  lemma SbrkTopAligned(pos: int)
    requires 0 <= pos < TWO32 && pos % 4 == 0
    ensures SbrkTop(pos) == pos
  {
  }

  /** The rounding does not align: only positions that are even already come out as multiples of 4. */
  lemma SbrkTopMisaligns(pos: int)
    requires 0 <= pos < TWO31 - 4
    ensures SbrkTop(pos) % 4 == 0 <==> pos % 2 == 0
    ensures SbrkTop(pos) == pos <==> pos % 4 == 0
  {
    SbrkTopIs(pos);
    AddRemainder(pos);
  }

  lemma SbrkTopIs(pos: int)
    requires 0 <= pos < TWO31 - 4
    ensures SbrkTop(pos) == pos + pos % 4
  {
    assert Wrap(pos) == pos && AsInt32(pos) == pos && Rem4(pos) == pos % 4;
    WrapSmall(pos + pos % 4);
  }

  lemma WrapSmall(x: int)
    requires 0 <= x < TWO32
    ensures Wrap(x) == x
  {
  }

  lemma AddRemainder(x: nat)
    ensures (x + x % 4) % 4 == 0 <==> x % 2 == 0
  {
    var q, r := x / 4, x % 4;
    Residue(x, 2, 2 * q + r / 2, r % 2);
    Residue(x + r, 4, q + r / 2, 2 * (r % 2));
  }

  lemma Residue(x: int, n: int, q: int, r: int)
    requires n == 2 || n == 4
    requires x == n * q + r && 0 <= r < n
    ensures x % n == r
  {
  }

  lemma SumAligned(x: nat, y: nat)
    requires x % UNIT == 0 && y % UNIT == 0
    ensures (x + y) % 4 == 0
  {
    var q := x / UNIT + y / UNIT;
    assert x + y == 4 * (2 * q);
    Residue(x + y, 4, 2 * q, 0);
  }

  lemma SbrkTopFloor(pos: int, bottom: nat)
    requires bottom <= Wrap(pos) && bottom <= TWO31 - 4
    ensures 0 <= SbrkTop(pos) < TWO32 && bottom <= SbrkTop(pos)
  {
    var x := AsInt32(Wrap(pos));
    if x >= 0 {
      assert SbrkTop(pos) == Wrap(x + x % 4);
    } else {
      assert -3 <= Rem4(x) <= 0;
    }
  }

  class AddrSpace {
    var heapbottom: nat
    var heaptop: nat
    var stackbase: nat

    ghost predicate Valid()
      reads this
    {
      heapbottom <= heaptop <= TWO31 && heapbottom <= TWO31 - 4 && stackbase <= TWO31
    }

    constructor (bottom: nat, stack: nat)
      requires bottom <= TWO31 - 4 && stack <= TWO31
      ensures Valid() && heapbottom == heaptop == bottom && stackbase == stack
    {
      heapbottom, heaptop, stackbase := bottom, bottom, stack;
    }

    /** sys_sbrk; -1 is the error return. */
    method Sbrk(change: int) returns (r: int)
      requires Valid() && -TWO31 <= change < TWO31
      modifies this`heaptop
      ensures Valid()
      ensures r == -1 ==> heaptop == old(heaptop)
      ensures r != -1 ==> r == if change == 0 then heapbottom else old(heaptop)
      ensures change == 0 ==> r != -1 && heaptop == old(heaptop)
      ensures r != -1 && change != 0 ==> heaptop == SbrkTop(old(heaptop) + change)
      ensures change != 0 && old(heaptop) + change >= 0 && (old(heaptop) + change) % 4 == 0 ==>
                (r != -1 <==> heapbottom <= old(heaptop) + change <= stackbase)
    {
      if heaptop + change >= 0 && (heaptop + change) % 4 == 0 { SbrkTopAligned(heaptop + change); }
      if Wrap(heaptop + change) < heapbottom {
        return -1;
      }
      if change == 0 {
        return heapbottom;
      }
      var oldpos := heaptop;
      var newpos := SbrkTop(heaptop + change);
      SbrkTopFloor(heaptop + change, heapbottom);
      if newpos > stackbase {
        return -1;
      }
      heaptop := newpos;
      return oldpos;
    }

    /** sys_sbrk from an aligned top, for an aligned positive amount. */
    method Extend(size: nat) returns (r: int)
      requires Valid() && heaptop % UNIT == 0 && 0 < size < TWO31 && size % UNIT == 0
      modifies this`heaptop
      ensures Valid()
      ensures r == -1 <==> old(heaptop) + size > stackbase
      ensures if r == -1 then heaptop == old(heaptop) else r == old(heaptop) && heaptop == old(heaptop) + size
    {
      SumAligned(heaptop, size);
      SbrkTopAligned(heaptop + size);
      r := Sbrk(size);
    }
  }

  // ---------------------------------------------------------------- headers

  /** Eight bytes of memory read as a struct mheader. */
  datatype Cell = Cell(prev: nat, magic1: nat, next: nat, inuse: bool, magic2: nat)

  /** 0xdeadbeef twice: both magic fields come out as 3. */
  const DEADBEEF := Cell(0x1bd5_b7dd, 3, 0x1bd5_b7dd, true, 3)

  predicate MOk(c: Cell) { c.magic1 == MMAGIC && c.magic2 == MMAGIC }

  /** Offset to 29-bit field. */
  function MkField(off: nat): nat { (off / UNIT) % 0x2000_0000 }

  lemma MkFieldUnits(n: nat)
    requires n < 0x2000_0000
    ensures MkField(UNIT * n) == n
  {
  }

  function NextOff(c: Cell): nat { c.next * UNIT }

  type Memory = map<int, Cell>

  ghost predicate IsHeader(c: Cell, prev: nat, b: Block) {
    MOk(c) && c.prev == prev && c.next == b.Units() && c.inuse == b.used
  }

  /** Memory from a up holds exactly the headers of bs; prev is the size of the block below. */
  ghost predicate Tagged(mem: Memory, a: int, prev: nat, bs: seq<Block>)
    decreases |bs|
  {
    bs == [] ||
    (a in mem && IsHeader(mem[a], prev, bs[0]) &&
     Tagged(mem, a + UNIT * bs[0].Units(), bs[0].Units(), bs[1..]))
  }

  ghost function LastUnits(prev: nat, bs: seq<Block>): nat {
    if bs == [] then prev else bs[|bs| - 1].Units()
  }

  /** The two memories agree from lo up to hi. */
  ghost predicate Agree(m: Memory, m': Memory, lo: int, hi: int) {
    forall c :: lo <= c < hi && c in m ==> c in m' && m'[c] == m[c]
  }

  /** Every payload in live is untouched. */
  ghost predicate KeepsData(m: Memory, m': Memory, live: map<int, nat>) {
    forall p :: p in live ==> Agree(m, m', p, p + live[p])
  }

  lemma KeepsAll(m: Memory, live: map<int, nat>)
    ensures KeepsData(m, m, live)
  {
  }

  lemma {:induction false} TaggedAppend(mem: Memory, a: int, prev: nat, xs: seq<Block>, ys: seq<Block>)
    ensures Tagged(mem, a, prev, xs + ys) <==>
            Tagged(mem, a, prev, xs) && Tagged(mem, a + UNIT * Total(xs), LastUnits(prev, xs), ys)
    decreases |xs|
  {
    if xs == [] {
      assert xs + ys == ys;
    } else {
      assert (xs + ys)[1..] == xs[1..] + ys;
      TaggedAppend(mem, a + UNIT * xs[0].Units(), xs[0].Units(), xs[1..], ys);
    }
  }

  lemma {:induction false} TaggedFrame(m: Memory, m': Memory, a: int, prev: nat, bs: seq<Block>)
    requires Tagged(m, a, prev, bs) && Agree(m, m', a, a + UNIT * Total(bs))
    ensures Tagged(m', a, prev, bs)
    decreases |bs|
  {
    if bs != [] {
      TaggedFrame(m, m', a + UNIT * bs[0].Units(), bs[0].Units(), bs[1..]);
    }
  }

  lemma TaggedOne(mem: Memory, a: int, prev: nat, b: Block)
    ensures Tagged(mem, a, prev, [b]) <==> a in mem && IsHeader(mem[a], prev, b)
  {
    assert [b][1..] == [];
    assert Tagged(mem, a + UNIT * b.Units(), b.Units(), [b][1..]);
  }

  lemma TaggedTwo(mem: Memory, a: int, prev: nat, b: Block, c: Block)
    ensures Tagged(mem, a, prev, [b, c]) <==>
            Tagged(mem, a, prev, [b]) && Tagged(mem, a + UNIT * b.Units(), b.Units(), [c])
  {
    assert [b, c] == [b] + [c];
    TaggedAppend(mem, a, prev, [b], [c]);
    Single(a, b);
  }

  lemma TwoHeaders(mem: Memory, a: int, prev: nat, b: Block, c: Block)
    ensures var next := a + UNIT * b.Units();
            Tagged(mem, a, prev, [b, c]) <==>
            a in mem && IsHeader(mem[a], prev, b) && next in mem && IsHeader(mem[next], b.Units(), c)
  {
    TaggedTwo(mem, a, prev, b, c);
    TaggedOne(mem, a, prev, b);
    TaggedOne(mem, a + UNIT * b.Units(), b.Units(), c);
  }

  /** The headers of a heap cut in three. */
  lemma TaggedCut(mem: Memory, a: int, pre: seq<Block>, mid: seq<Block>, post: seq<Block>)
    requires mid != []
    ensures var b := a + UNIT * Total(pre); var c := b + UNIT * Total(mid);
            Tagged(mem, a, 0, pre + mid + post) <==>
            && Tagged(mem, a, 0, pre)
            && Tagged(mem, b, LastUnits(0, pre), mid)
            && Tagged(mem, c, mid[|mid| - 1].Units(), post)
  {
    TaggedAppend(mem, a, 0, pre + mid, post);
    TaggedAppend(mem, a, 0, pre, mid);
    TotalAppend(pre, mid);
  }

  /** The header of block k, and whether a block lies above it. */
  lemma HeaderAt(mem: Memory, a: int, bs: seq<Block>, k: nat)
    requires Tagged(mem, a, 0, bs) && k < |bs|
    ensures var mh := a + UNIT * Total(bs[..k]); var next := mh + UNIT * bs[k].Units();
            && mh in mem && IsHeader(mem[mh], LastUnits(0, bs[..k]), bs[k])
            && next + UNIT * Total(bs[k + 1..]) == a + UNIT * Total(bs)
            && (next == a + UNIT * Total(bs) <==> k == |bs| - 1)
  {
    var pre, b, post := bs[..k], bs[k], bs[k + 1..];
    assert bs == pre + [b] + post;
    CutTotal(pre, [b], post);
    Single(a, b);
    TaggedCut(mem, a, pre, [b], post);
    TaggedOne(mem, a + UNIT * Total(pre), LastUnits(0, pre), b);
  }

  lemma HeaderAbove(mem: Memory, a: int, bs: seq<Block>, k: nat)
    requires Tagged(mem, a, 0, bs) && k < |bs| - 1
    ensures var next := a + UNIT * Total(bs[..k]) + UNIT * bs[k].Units();
            && next == a + UNIT * Total(bs[..k + 1])
            && next in mem && IsHeader(mem[next], bs[k].Units(), bs[k + 1])
  {
    HeaderAt(mem, a, bs, k + 1);
    assert bs[..k + 1] == bs[..k] + [bs[k]];
    TotalAppend(bs[..k], [bs[k]]);
    Single(a, bs[k]);
  }

  /**
   Replacing the middle of a heap by other blocks of the same total size: right when the
   new middle is tagged, the block above learns its new lower neighbour's size, and nothing
   else changes outside.
   */
  lemma Retag(m: Memory, m': Memory, a: int,
              pre: seq<Block>, mid: seq<Block>, mid': seq<Block>, post: seq<Block>)
    requires mid != [] && mid' != [] && Total(mid') == Total(mid)
    requires Tagged(m, a, 0, pre + mid + post)
    requires var b := a + UNIT * Total(pre); var c := b + UNIT * Total(mid);
             && Agree(m, m', a, b)
             && Tagged(m', b, LastUnits(0, pre), mid')
             && Agree(m, m', c + UNIT, c + UNIT * Total(post))
             && (post != [] ==> c in m' && (c in m ==> m'[c] == m[c].(prev := mid'[|mid'| - 1].Units())))
    ensures Tagged(m', a, 0, pre + mid' + post)
  {
    var b := a + UNIT * Total(pre);
    var c := b + UNIT * Total(mid);
    TaggedCut(m, a, pre, mid, post);
    TaggedCut(m', a, pre, mid', post);
    TaggedFrame(m, m', a, 0, pre);
    if post != [] {
      TaggedFrame(m, m', c + UNIT * post[0].Units(), post[0].Units(), post[1..]);
    }
  }

  /** Live data of a heap whose middle holds none lies below the middle or above the header that follows it. */
  lemma OuterData(m: Memory, m': Memory, a: int, pre: seq<Block>, mid: seq<Block>, post: seq<Block>)
    requires var b := a + UNIT * Total(pre); var c := b + UNIT * Total(mid);
             && Live(b, mid) == map[]
             && Agree(m, m', a, b)
             && Agree(m, m', c + UNIT, c + UNIT * Total(post))
    ensures KeepsData(m, m', Live(a, pre + mid + post))
  {
    var c := a + UNIT * Total(pre) + UNIT * Total(mid);
    var x, y, z := Live(a, pre), Live(c, post), Live(a, pre + mid + post);
    assert KeepsData(m, m', x) by { KeepsWithin(m, m', a, pre); }
    assert KeepsData(m, m', y) by { KeepsWithin(m, m', c, post); }
    assert z == x + y by { CutLiveFree(a, pre, mid, post); }
    KeepsUnion(m, m', x, y, z);
  }

  lemma KeepsUnion(m: Memory, m': Memory, x: map<int, nat>, y: map<int, nat>, z: map<int, nat>)
    requires KeepsData(m, m', x) && KeepsData(m, m', y) && z == x + y
    ensures KeepsData(m, m', z)
  {
    forall p | p in z
      ensures Agree(m, m', p, p + z[p])
    {
      if p in y { assert z[p] == y[p]; } else { assert p in x && z[p] == x[p]; }
    }
  }

  lemma KeepsWithin(m: Memory, m': Memory, a: int, bs: seq<Block>)
    requires Agree(m, m', a + UNIT, a + UNIT * Total(bs))
    ensures KeepsData(m, m', Live(a, bs))
  {
    forall p | p in Live(a, bs)
      ensures Agree(m, m', p, p + Live(a, bs)[p])
    {
      LiveRange(a, bs, p);
    }
  }

  datatype Outcome =
    | Ptr(addr: int)   // success
    | Null             // malloc returned NULL
    | Exit             // errx: the process is terminated

  /** Request in bytes to payload units, rounding up. */
  function RoundUnits(size: nat): nat { Wrap(size + UNIT - 1) / UNIT }

  /** The rounding loses a request exactly when it wraps around 32 bits. */
  lemma RoundUnitsCovers(size: nat)
    requires size < TWO32
    ensures UNIT * RoundUnits(size) >= size <==> size <= TWO32 - UNIT
    ensures size <= TWO32 - UNIT ==> UNIT * RoundUnits(size) < size + UNIT
  {
  }

  ghost function SplitFree(b: Block, n: nat): seq<Block>
    requires b.data >= n
  {
    if b.data - n < 2 then [b] else [Block(n, b.used), Block(b.data - n - 1, false)]
  }

  /** What sbrk is asked for is a positive int exactly for these requests. */
  lemma RequestIsPositiveInt(size: nat)
    requires size < TWO32
    ensures AsInt32(Wrap(UNIT * RoundUnits(size) + UNIT)) > 0 <==> size <= MAX_REQUEST || size > TWO32 - UNIT
  {
  }

  ghost function SplitBlocks(bs: seq<Block>, k: nat, n: nat): seq<Block>
    requires k < |bs| && bs[k].data >= n
  {
    bs[..k] + SplitFree(bs[k], n) + bs[k + 1..]
  }

  /** What __malloc_split leaves in memory: block at mh, n payload units kept. */
  ghost function SplitMem(m: Memory, mh: int, n: nat, top: int): Memory
    requires mh in m && m[mh].next >= n + 1
    requires var mhnext := mh + NextOff(m[mh]); mhnext != top ==> mhnext in m
  {
    var mhnext, rest := mh + NextOff(m[mh]), m[mh].next - 1 - n;
    if rest < 2 then m
    else
      var w := m[mh := m[mh].(next := n + 1)][mh + UNIT * (n + 1) := Cell(n + 1, MMAGIC, rest, false, MMAGIC)];
      if mhnext == top then w else w[mhnext := m[mhnext].(prev := rest)]
  }

  /** A split in memory is a split of the blocks that touches no live data. */
  lemma SplitStep(m: Memory, m': Memory, a: int, bs: seq<Block>, k: nat, n: nat)
    requires Tagged(m, a, 0, bs) && k < |bs| && !bs[k].used && bs[k].data >= n
    requires var mh, top := a + UNIT * Total(bs[..k]), a + UNIT * Total(bs);
             && mh in m && m[mh].next == bs[k].Units() && (k < |bs| - 1 ==> mh + NextOff(m[mh]) in m)
             && (k == |bs| - 1 <==> mh + NextOff(m[mh]) == top)
             && m' == SplitMem(m, mh, n, top)
    ensures Tagged(m', a, 0, SplitBlocks(bs, k, n)) && Total(SplitBlocks(bs, k, n)) == Total(bs)
    ensures KeepsData(m, m', Live(a, bs))
  {
    var pre, b, post := bs[..k], bs[k], bs[k + 1..];
    assert bs == pre + [b] + post;
    if b.data - n < 2 {
      assert SplitBlocks(bs, k, n) == bs;
      KeepsAll(m, Live(a, bs));
    } else {
      Single(a + UNIT * Total(pre), b);
      CutTotal(pre, [b], post);
      SplitCells(m, m', a, a + UNIT * Total(pre), a + UNIT * Total(bs), b.Units(), n);
      SplitTags(m, m', a, pre, b, n, post);
      SplitTotal(a, pre, b, n, post);
      OuterData(m, m', a, pre, [b], post);
    }
  }

  /** A block of the given size at mh, in a heap over [a, top), has become two. */
  ghost predicate SplitDone(m: Memory, m': Memory, a: int, mh: int, top: int, units: nat, n: nat)
    requires mh in m && units > n + 1
  {
    var mid, above, rest := mh + UNIT * (n + 1), mh + UNIT * units, units - 1 - n;
    && mh in m' && m'[mh] == m[mh].(next := n + 1)
    && mid in m' && m'[mid] == Cell(n + 1, MMAGIC, rest, false, MMAGIC)
    && Agree(m, m', a, mh) && Agree(m, m', above + UNIT, top)
    && (above != top ==> above in m' && (above in m ==> m'[above] == m[above].(prev := rest)))
  }

  lemma SplitCells(m: Memory, m': Memory, a: int, mh: int, top: int, units: nat, n: nat)
    requires mh in m && m[mh].next == units && units >= n + 3
    requires (mh + UNIT * units != top ==> mh + UNIT * units in m) && m' == SplitMem(m, mh, n, top)
    ensures SplitDone(m, m', a, mh, top, units, n)
  {
  }

  lemma SplitTotal(a: int, pre: seq<Block>, b: Block, n: nat, post: seq<Block>)
    requires b.data - n >= 2
    ensures Total(pre + SplitFree(b, n) + post) == Total(pre + [b] + post)
  {
    Single(a, b);
    Pair(a, Block(n, b.used), Block(b.data - n - 1, false));
    CutTotal(pre, [b], post);
    CutTotal(pre, SplitFree(b, n), post);
  }

  lemma SplitTags(m: Memory, m': Memory, a: int, pre: seq<Block>, b: Block, n: nat, post: seq<Block>)
    requires Tagged(m, a, 0, pre + [b] + post) && !b.used && b.data - n >= 2
    requires var mh := a + UNIT * Total(pre); var above := mh + UNIT * b.Units();
             && mh in m && SplitDone(m, m', a, mh, above + UNIT * Total(post), b.Units(), n)
             && (post != [] ==> Total(post) > 0)
    ensures Tagged(m', a, 0, pre + SplitFree(b, n) + post)
  {
    var mh, prev := a + UNIT * Total(pre), LastUnits(0, pre);
    var b1, b2 := Block(n, false), Block(b.data - n - 1, false);
    TaggedCut(m, a, pre, [b], post);
    TaggedOne(m, mh, prev, b);
    Single(mh, b);
    Pair(mh, b1, b2);
    TwoHeaders(m', mh, prev, b1, b2);
    Retag(m, m', a, pre, [b], [b1, b2], post);
  }

  /** Flipping the in-use bit of block k; one of the two heaps has the block free. */
  lemma MarkStep(m: Memory, m': Memory, a: int, bs: seq<Block>, k: nat, used: bool)
    requires Tagged(m, a, 0, bs) && k < |bs|
    requires var mh := a + UNIT * Total(bs[..k]); mh in m && m' == m[mh := m[mh].(inuse := used)]
    ensures Tagged(m', a, 0, Marked(bs, k, used)) && Total(Marked(bs, k, used)) == Total(bs)
    ensures !bs[k].used ==> KeepsData(m, m', Live(a, bs))
    ensures !used ==> KeepsData(m, m', Live(a, Marked(bs, k, used)))
  {
    var pre, b, post := bs[..k], bs[k], bs[k + 1..];
    var b' := Block(b.data, used);
    var mh, prev := a + UNIT * Total(pre), LastUnits(0, pre);
    assert bs == pre + [b] + post;
    TaggedCut(m, a, pre, [b], post);
    TaggedOne(m, mh, prev, b);
    TaggedOne(m', mh, prev, b');
    Single(mh, b);
    Single(mh, b');
    Retag(m, m', a, pre, [b], [b'], post);
    CutTotal(pre, [b], post);
    CutTotal(pre, [b'], post);
    if !b.used { OuterData(m, m', a, pre, [b], post); }
    if !used { OuterData(m, m', a, pre, [b'], post); }
  }

  ghost function Marked(bs: seq<Block>, k: nat, used: bool): seq<Block>
    requires k < |bs|
  {
    bs[..k] + [Block(bs[k].data, used)] + bs[k + 1..]
  }

  /** Overwriting the payload of a free block. */
  lemma WipeStep(m: Memory, m': Memory, a: int, bs: seq<Block>, k: nat)
    requires Tagged(m, a, 0, bs) && k < |bs| && !bs[k].used
    requires var mh := a + UNIT * Total(bs[..k]); var next := mh + UNIT * bs[k].Units();
             Agree(m, m', a, mh + UNIT) && Agree(m, m', next, a + UNIT * Total(bs))
    ensures Tagged(m', a, 0, bs) && KeepsData(m, m', Live(a, bs))
  {
    var pre, b, post := bs[..k], bs[k], bs[k + 1..];
    var mh, prev := a + UNIT * Total(pre), LastUnits(0, pre);
    assert bs == pre + [b] + post;
    TaggedCut(m, a, pre, [b], post);
    TaggedOne(m, mh, prev, b);
    TaggedOne(m', mh, prev, b);
    Single(mh, b);
    CutTotal(pre, [b], post);
    Retag(m, m', a, pre, [b], [b], post);
    OuterData(m, m', a, pre, [b], post);
  }

  /** What __malloc_trymerge leaves in memory. */
  ghost function MergeMem(m: Memory, mh: int, mhnext: int, top: int): Memory
    requires mh in m && mhnext in m
    requires var above := mhnext + NextOff(m[mhnext]); above != top ==> above in m
  {
    if m[mh].inuse || m[mhnext].inuse then m
    else
      var above, units := mhnext + NextOff(m[mhnext]), m[mh].next + m[mhnext].next;
      var w := m[mh := m[mh].(next := units)];
      var w := if above == top then w else w[above := m[above].(prev := units)];
      w[mhnext := DEADBEEF]
  }

  /** Blocks k and k+1 are where the merge code expects them. */
  lemma MergeReady(m: Memory, a: int, bs: seq<Block>, k: nat)
    requires Tagged(m, a, 0, bs) && k < |bs| - 1
    ensures var mh, top := a + UNIT * Total(bs[..k]), a + UNIT * Total(bs);
            var next := mh + UNIT * bs[k].Units(); var above := next + UNIT * bs[k + 1].Units();
            && mh in m && next in m && m[mh].next == bs[k].Units() == m[next].prev && m[next].next == bs[k + 1].Units()
            && mh < next < above <= top && (k + 1 < |bs| - 1 ==> above in m)
            && (k + 1 == |bs| - 1 <==> above == top)
  {
    HeaderAt(m, a, bs, k);
    HeaderAbove(m, a, bs, k);
    HeaderAt(m, a, bs, k + 1);
    if k + 1 < |bs| - 1 { HeaderAbove(m, a, bs, k + 1); }
  }

  lemma MergeStep(m: Memory, m': Memory, a: int, bs: seq<Block>, k: nat)
    requires Tagged(m, a, 0, bs) && k < |bs| - 1
    requires var mh, top := a + UNIT * Total(bs[..k]), a + UNIT * Total(bs); var next := mh + UNIT * bs[k].Units();
             && mh in m && next in m && m[next].next == bs[k + 1].Units()
             && (k + 1 < |bs| - 1 ==> next + NextOff(m[next]) in m)
             && (k + 1 == |bs| - 1 <==> next + NextOff(m[next]) == top)
             && m' == MergeMem(m, mh, next, top)
    ensures Tagged(m', a, 0, MergeAt(bs, k)) && Total(MergeAt(bs, k)) == Total(bs)
    ensures KeepsData(m, m', Live(a, bs))
  {
    var pre, b, c, post := bs[..k], bs[k], bs[k + 1], bs[k + 2..];
    assert bs == pre + [b, c] + post;
    HeaderAt(m, a, bs, k);
    HeaderAbove(m, a, bs, k);
    if b.used || c.used {
      KeepsAll(m, Live(a, bs));
    } else {
      MergeFree(m, m', a, pre, b, c, post);
    }
  }

  lemma MergeFree(m: Memory, m': Memory, a: int, pre: seq<Block>, b: Block, c: Block, post: seq<Block>)
    requires Tagged(m, a, 0, pre + [b, c] + post) && !b.used && !c.used
    requires var mh, top := a + UNIT * Total(pre), a + UNIT * Total(pre + [b, c] + post);
             var next := mh + UNIT * b.Units(); var above := next + UNIT * c.Units();
             && mh in m && IsHeader(m[mh], LastUnits(0, pre), b) && next in m && IsHeader(m[next], b.Units(), c)
             && (post != [] ==> above in m) && (post == [] <==> above == top)
             && m' == MergeMem(m, mh, next, top)
    ensures Tagged(m', a, 0, pre + [Block(b.data + c.Units(), false)] + post)
    ensures Total(pre + [Block(b.data + c.Units(), false)] + post) == Total(pre + [b, c] + post)
    ensures KeepsData(m, m', Live(a, pre + [b, c] + post))
  {
    Pair(a, b, c);
    CutTotal(pre, [b, c], post);
    MergeCells(m, m', a, a + UNIT * Total(pre), a + UNIT * Total(pre + [b, c] + post), b.Units(), c.Units());
    MergeTags(m, m', a, pre, b, c, post);
    MergeData(m, m', a, pre, b, c, post);
  }

  /** Two blocks of sizes u and v from mh up, in a heap over [a, top), have become one. */
  ghost predicate MergeDone(m: Memory, m': Memory, a: int, mh: int, top: int, u: nat, v: nat)
    requires mh in m
  {
    var above := mh + UNIT * (u + v);
    && mh in m' && m'[mh] == m[mh].(next := u + v)
    && Agree(m, m', a, mh) && Agree(m, m', above + UNIT, top)
    && (above != top ==> above in m' && (above in m ==> m'[above] == m[above].(prev := u + v)))
  }

  lemma MergeCells(m: Memory, m': Memory, a: int, mh: int, top: int, u: nat, v: nat)
    requires var next := mh + UNIT * u;
             && u > 0 && v > 0 && mh in m && next in m && (next + UNIT * v != top ==> next + UNIT * v in m)
             && m[mh].next == u && m[next].next == v && !m[mh].inuse && !m[next].inuse
             && m' == MergeMem(m, mh, next, top)
    ensures MergeDone(m, m', a, mh, top, u, v)
  {
  }

  lemma MergeData(m: Memory, m': Memory, a: int, pre: seq<Block>, b: Block, c: Block, post: seq<Block>)
    requires !b.used && !c.used
    requires var mh := a + UNIT * Total(pre); var above := mh + UNIT * (b.Units() + c.Units());
             Agree(m, m', a, mh) && Agree(m, m', above + UNIT, above + UNIT * Total(post))
    ensures KeepsData(m, m', Live(a, pre + [b, c] + post))
    ensures Total(pre + [Block(b.data + c.Units(), false)] + post) == Total(pre + [b, c] + post)
  {
    var mh := a + UNIT * Total(pre);
    Pair(mh, b, c);
    Single(mh, b);
    Single(mh + UNIT * b.Units(), c);
    Single(mh, Block(b.data + c.Units(), false));
    CutTotal(pre, [b, c], post);
    CutTotal(pre, [Block(b.data + c.Units(), false)], post);
    OuterData(m, m', a, pre, [b, c], post);
  }

  lemma MergeTags(m: Memory, m': Memory, a: int, pre: seq<Block>, b: Block, c: Block, post: seq<Block>)
    requires Tagged(m, a, 0, pre + [b, c] + post) && !b.used && !c.used
    requires var mh := a + UNIT * Total(pre); var above := mh + UNIT * (b.Units() + c.Units());
             && mh in m && IsHeader(m[mh], LastUnits(0, pre), b)
             && MergeDone(m, m', a, mh, above + UNIT * Total(post), b.Units(), c.Units())
             && (post != [] ==> Total(post) > 0)
    ensures Tagged(m', a, 0, pre + [Block(b.data + c.Units(), false)] + post)
  {
    var mh, prev, one := a + UNIT * Total(pre), LastUnits(0, pre), Block(b.data + c.Units(), false);
    TaggedOne(m', mh, prev, one);
    Pair(mh, b, c);
    Single(mh, one);
    Retag(m, m', a, pre, [b, c], [one], post);
  }

  /** Split and mark, in memory and on the blocks, is allocation in block k. */
  lemma AllocStep(m: Memory, m1: Memory, m2: Memory, a: int, bs: seq<Block>, k: nat, n: nat)
    requires Tagged(m, a, 0, bs) && k < |bs| && !bs[k].used && bs[k].data >= n
    requires var mh, top := a + UNIT * Total(bs[..k]), a + UNIT * Total(bs);
             && mh in m && m[mh].next == bs[k].Units() && (k < |bs| - 1 ==> mh + NextOff(m[mh]) in m)
             && (k == |bs| - 1 <==> mh + NextOff(m[mh]) == top)
             && m1 == SplitMem(m, mh, n, top) && mh in m1 && m2 == m1[mh := m1[mh].(inuse := true)]
    ensures Tagged(m2, a, 0, AllocIn(bs, k, n)) && KeepsData(m, m2, Live(a, bs))
  {
    var s := SplitBlocks(bs, k, n);
    SplitStep(m, m1, a, bs, k, n);
    SplitLive(a, bs, k, n);
    assert s[..k] == bs[..k] && !s[k].used;
    MarkStep(m1, m2, a, s, k, true);
    assert Marked(s, k, true) == AllocIn(bs, k, n);
    KeepsTrans(m, m1, m2, Live(a, bs));
  }

  lemma SplitLive(a: int, bs: seq<Block>, k: nat, n: nat)
    requires k < |bs| && !bs[k].used && bs[k].data >= n
    ensures Live(a, SplitBlocks(bs, k, n)) == Live(a, bs)
  {
    var s := SplitBlocks(bs, k, n);
    if bs[k].data - n >= 2 {
      assert s[..k] == bs[..k] && s[k + 2..] == bs[k + 1..];
      assert MergeAt(s, k) == bs;
      MergeKeeps(a, s, k);
    } else {
      assert s == bs;
    }
  }

  lemma KeepsTrans(m: Memory, m1: Memory, m2: Memory, live: map<int, nat>)
    requires KeepsData(m, m1, live) && KeepsData(m1, m2, live)
    ensures KeepsData(m, m2, live)
  {
    forall p | p in live
      ensures Agree(m, m2, p, p + live[p])
    {
      assert Agree(m, m1, p, p + live[p]) && Agree(m1, m2, p, p + live[p]);
    }
  }

  lemma GrowStep(m: Memory, m': Memory, a: int, bs: seq<Block>, n: nat)
    requires Tagged(m, a, 0, bs)
    requires m' == m[a + UNIT * Total(bs) := Cell(LastUnits(0, bs), MMAGIC, n + 1, true, MMAGIC)]
    ensures Tagged(m', a, 0, Grow(bs, n)) && KeepsData(m, m', Live(a, bs))
  {
    var top := a + UNIT * Total(bs);
    TaggedAppend(m', a, 0, bs, [Block(n, true)]);
    TaggedOne(m', top, LastUnits(0, bs), Block(n, true));
    TaggedFrame(m, m', a, 0, bs);
    KeepsWithin(m, m', a, bs);
  }

  lemma FoundFirst(bs: seq<Block>, k: nat, n: nat)
    requires k <= |bs| && (k < |bs| ==> !bs[k].used && bs[k].data >= n)
    requires forall i :: 0 <= i < k ==> bs[i].used || bs[i].data < n
    ensures FirstFit(bs, n) == k
  {
  }

  /**
   What malloc promises: NULL leaves the blocks alone; a success adds one payload to the live ones, new,
   aligned, large enough and less than two units larger.
   */
  ghost predicate Served(a: int, bs: seq<Block>, bs': seq<Block>, size: nat, r: Outcome) {
    match r
    case Ptr(p) =>
      var live, live' := Live(a, bs), Live(a, bs');
      && bs' == MallocBlocks(bs, RoundUnits(size))
      && p !in live && p in live' && p % UNIT == 0
      && live' == live[p := live'[p]]
      && size <= live'[p] < size + 2 * UNIT
    case Null => bs' == bs
    case Exit => false
  }

  lemma ServedIf(a: int, bs: seq<Block>, size: nat)
    requires a % UNIT == 0 && size <= MAX_REQUEST
    ensures Served(a, bs, MallocBlocks(bs, RoundUnits(size)), size, Ptr(MallocPtr(a, bs, RoundUnits(size))))
  {
    var n := RoundUnits(size);
    MallocKeeps(a, bs, n);
    RoundUnitsCovers(size);
    PtrAligned(a, Total(bs[..FirstFit(bs, n)]));
  }

  lemma PtrAligned(a: int, t: nat)
    requires a % UNIT == 0
    ensures (a + UNIT * t + UNIT) % UNIT == 0
  {
  }

  class Heap {
    var heapbase: nat
    var heaptop: nat
    var mem: Memory
    const vm: AddrSpace
    /** The blocks that the headers in memory describe. */
    ghost var blocks: seq<Block>

    /** The tags in memory tile [heapbase, heaptop) with blocks. */
    ghost predicate Core()
      reads this, vm
    {
      && vm.Valid() && vm.heaptop == heaptop
      && 0 < heapbase && heapbase % UNIT == 0
      && heaptop == heapbase + UNIT * Total(blocks)
      && Tagged(mem, heapbase, 0, blocks)
    }

    ghost predicate Valid()
      reads this, vm
    {
      Core() && Coalesced(blocks)
    }

    /** Before the first malloc. */
    ghost predicate Unused()
      reads this, vm
    {
      heapbase == heaptop == 0 && blocks == [] && vm.Valid() && vm.heaptop == vm.heapbottom
    }

    constructor (space: AddrSpace)
      requires space.Valid() && space.heaptop == space.heapbottom
      ensures Unused() && vm == space
    {
      heapbase, heaptop, mem, vm, blocks := 0, 0, map[], space, [];
    }

    ghost function LivePtrs(): map<int, nat>
      reads this
    {
      Live(heapbase, blocks)
    }

    /** __malloc_init; false stands for the fatal exits. */
    method Init() returns (ok: bool)
      requires Unused()
      modifies this, vm`heaptop
      ensures vm.heapbottom == old(vm.heapbottom) && vm.stackbase == old(vm.stackbase)
      ensures ok ==> Valid() && blocks == [] && heapbase < vm.heapbottom + UNIT
      ensures vm.heapbottom % UNIT == 0 ==> (ok <==> vm.heapbottom != 0) && vm.heaptop == old(vm.heaptop)
    {
      var x := vm.Sbrk(0);
      if x == 0 {
        return false;
      }
      heapbase, heaptop := x, x;
      if heapbase % UNIT != 0 {
        var adjust := UNIT - heapbase % UNIT;
        UpToUnit(x);
        SbrkTopAligned(x + adjust);
        x := vm.Sbrk(adjust);
        if x == -1 {
          return false;
        }
        assert x == heapbase;  // "heap base moved during init" is unreachable
        heapbase := heapbase + adjust;
        heaptop := heapbase;
      }
      return true;
    }

    /** __malloc_split: cut the excess off the block at mh when it has room for a header and one unit. */
    method Split(mh: int, size: nat)
      requires mh in mem && size % UNIT == 0 && size + UNIT <= NextOff(mem[mh]) < TWO32
      requires mh + NextOff(mem[mh]) != heaptop ==> mh + NextOff(mem[mh]) in mem
      modifies this`mem
      ensures mem == SplitMem(old(mem), mh, size / UNIT, heaptop)
    {
      if NextOff(mem[mh]) - UNIT - size < 2 * UNIT {
        return;
      }
      var mhnext := mh + NextOff(mem[mh]);
      var oldsize := NextOff(mem[mh]) - UNIT;
      MkFieldUnits(size / UNIT + 1);
      MkFieldUnits(mem[mh].next - 1 - size / UNIT);
      mem := mem[mh := mem[mh].(next := MkField(size + UNIT))];
      var mhnew := mh + NextOff(mem[mh]);
      assert mhnew != mhnext;  // "split screwed up" is unreachable
      mem := mem[mhnew := Cell(MkField(size + UNIT), MMAGIC, MkField(oldsize - size), false, MMAGIC)];
      if mhnext != heaptop {
        mem := mem[mhnext := mem[mhnext].(prev := mem[mhnew].next)];
      }
    }

    /** __malloc_sbrk; -1 stands for NULL. */
    method More(size: nat) returns (x: int)
      requires vm.Valid() && vm.heaptop == heaptop && heaptop % UNIT == 0
      requires 0 < size < TWO31 && size % UNIT == 0
      modifies this`heaptop, vm`heaptop
      ensures vm.Valid() && vm.heaptop == heaptop
      ensures x == -1 <==> old(heaptop) + size > vm.stackbase
      ensures if x == -1 then heaptop == old(heaptop) else x == old(heaptop) && heaptop == old(heaptop) + size
    {
      x := vm.Extend(size);
      if x == -1 {
        return;
      }
      assert x == heaptop;  // "heap top moved itself" is unreachable
      heaptop := heaptop + size;
    }

    /** The first-fit loop of malloc: the address of the first free block that fits, or the heap top. */
    method Search(n: nat) returns (i: int, rightprev: nat)
      requires Valid()
      ensures i == heapbase + UNIT * Total(blocks[..FirstFit(blocks, n)])
      ensures rightprev == LastUnits(0, blocks[..FirstFit(blocks, n)])
      ensures i < heaptop <==> FirstFit(blocks, n) < |blocks|
    {
      i, rightprev := heapbase, 0;
      ghost var k := 0;
      while i < heaptop
        invariant k <= |blocks| && i == heapbase + UNIT * Total(blocks[..k])
        invariant rightprev == LastUnits(0, blocks[..k])
        invariant forall j :: 0 <= j < k ==> blocks[j].used || blocks[j].data < n
        decreases |blocks| - k
      {
        assert blocks[..|blocks|] == blocks;
        HeaderAt(mem, heapbase, blocks, k);
        var h := mem[i];
        assert MOk(h) && h.prev == rightprev;  // both "heap corrupt" exits are unreachable
        if !h.inuse && NextOff(h) - UNIT >= UNIT * n {
          FoundFirst(blocks, k, n);
          return;
        }
        rightprev := h.next;
        i := i + NextOff(h);
        assert blocks[..k + 1] == blocks[..k] + [blocks[k]];
        TotalAppend(blocks[..k], [blocks[k]]);
        Single(0, blocks[k]);
        k := k + 1;
      }
      if k < |blocks| { HeaderAt(mem, heapbase, blocks, k); }
      assert blocks[..k] == blocks;
      assert i == heaptop;  // "ran off end" is unreachable
      FoundFirst(blocks, k, n);
    }

    /** Split and take the free block k at i. */
    method Take(i: int, n: nat, ghost k: nat)
      requires Valid() && k < |blocks| && i == heapbase + UNIT * Total(blocks[..k])
      requires !blocks[k].used && blocks[k].data >= n
      modifies this`mem, this`blocks
      ensures Valid() && blocks == AllocIn(old(blocks), k, n)
      ensures KeepsData(old(mem), mem, Live(heapbase, old(blocks)))
    {
      HeaderAt(mem, heapbase, blocks, k);
      if k < |blocks| - 1 { HeaderAbove(mem, heapbase, blocks, k); }
      ghost var m0 := mem;
      Split(i, UNIT * n);
      ghost var m1 := mem;
      mem := mem[i := mem[i].(inuse := true)];
      AllocStep(m0, m1, mem, heapbase, blocks, k, n);
      AllocInKeeps(heapbase, blocks, k, n);
      AllocInCoalesced(blocks, k, n);
      blocks := AllocIn(blocks, k, n);
    }

    /** Write the header of a new top block of n payload units at mh, the old heap top. */
    method Append(mh: int, rightprev: nat, n: nat)
      requires vm.Valid() && vm.heaptop == heaptop && 0 < heapbase && heapbase % UNIT == 0
      requires Coalesced(blocks) && Tagged(mem, heapbase, 0, blocks) && mh == heapbase + UNIT * Total(blocks)
      requires rightprev == LastUnits(0, blocks) && heaptop == mh + UNIT * (n + 1)
      modifies this`mem, this`blocks
      ensures Valid() && blocks == Grow(old(blocks), n)
      ensures KeepsData(old(mem), mem, Live(heapbase, old(blocks)))
    {
      MkFieldUnits(n + 1);
      ghost var m0 := mem;
      mem := mem[mh := Cell(rightprev, MMAGIC, MkField(UNIT * n + UNIT), true, MMAGIC)];
      GrowStep(m0, mem, heapbase, blocks, n);
      GrowKeeps(heapbase, blocks, n);
      blocks := Grow(blocks, n);
    }

    /** malloc on an initialised heap: first-fit search, then growth. */
    method Allocate(size: nat) returns (r: Outcome)
      requires Valid() && size <= MAX_REQUEST
      modifies this`mem, this`heaptop, this`blocks, vm`heaptop
      ensures Valid() && !r.Exit?
      ensures r.Ptr? <==> Fits(old(blocks), RoundUnits(size)) || old(heaptop) + UNIT * (RoundUnits(size) + 1) <= vm.stackbase
      ensures r.Ptr? ==> blocks == MallocBlocks(old(blocks), RoundUnits(size))
                         && r.addr == MallocPtr(heapbase, old(blocks), RoundUnits(size))
      ensures r.Null? ==> blocks == old(blocks) && mem == old(mem) && heaptop == old(heaptop)
      ensures KeepsData(old(mem), mem, Live(heapbase, old(blocks)))
    {
      var n := RoundUnits(size);
      var i, rightprev := Search(n);
      ghost var k := FirstFit(blocks, n);
      FitsIffFound(blocks, n);
      if i < heaptop {
        Take(i, n, k);
        return Ptr(i + UNIT);
      }
      assert blocks[..k] == blocks;
      var mh := More(UNIT * n + UNIT);
      if mh == -1 {
        KeepsAll(mem, Live(heapbase, blocks));
        return Null;
      }
      Append(mh, rightprev, n);
      return Ptr(mh + UNIT);
    }

    /**
     malloc. A success adds one payload to the live ones: new, aligned, large enough, and
     no live byte moves or changes. Failure leaves the heap as it was. The process exits
     only when the very first call cannot set the heap up.
     */
    method Malloc(size: nat) returns (r: Outcome)
      requires Valid() || Unused()
      requires size <= MAX_REQUEST
      modifies this, vm`heaptop
      ensures r.Exit? ==> old(Unused())
      ensures !r.Exit? ==> (old(Valid()) ==> heapbase == old(heapbase)) && KeepsData(old(mem), mem, Live(heapbase, old(blocks)))
      ensures !r.Exit? ==> Served(heapbase, old(blocks), blocks, size, r)
      ensures !r.Exit? ==> Valid()
    {
      if heapbase == 0 {
        var ok := Init();
        if !ok {
          return Exit;
        }
        KeepsAll(mem, Live(heapbase, blocks));
      }
      r := Serve(size);
    }

    /** The rest of malloc, once the heap is set up. */
    method Serve(size: nat) returns (r: Outcome)
      requires Valid() && size <= MAX_REQUEST
      modifies this`mem, this`heaptop, this`blocks, vm`heaptop
      ensures !r.Exit? && KeepsData(old(mem), mem, Live(heapbase, old(blocks)))
      ensures Served(heapbase, old(blocks), blocks, size, r)
      ensures Valid()
    {
      ServedIf(heapbase, blocks, size);
      r := Allocate(size);
    }

    /** __malloc_deadbeef over n units. */
    method Wipe(p: int, n: nat)
      modifies this`mem
      ensures forall c :: c in old(mem) && !(p <= c < p + UNIT * n) ==> c in mem && mem[c] == old(mem)[c]
      ensures forall i :: 0 <= i < n ==> p + UNIT * i in mem && mem[p + UNIT * i] == DEADBEEF
    {
      for j := 0 to n
        invariant forall c :: c in old(mem) && !(p <= c < p + UNIT * j) ==> c in mem && mem[c] == old(mem)[c]
        invariant forall i :: 0 <= i < j ==> p + UNIT * i in mem && mem[p + UNIT * i] == DEADBEEF
      {
        mem := mem[p + UNIT * j := DEADBEEF];
      }
    }

    /** __malloc_trymerge: merge the blocks at mh and mhnext when both are free. */
    method TryMerge(mh: int, mhnext: int)
      requires mh in mem && mhnext in mem && mhnext != mh && mem[mh].next == mem[mhnext].prev
      requires mem[mh].next >= 1 && mem[mhnext].next >= 1 && NextOff(mem[mh]) + NextOff(mem[mhnext]) < TWO32
      requires var above := mhnext + NextOff(mem[mhnext]); above != mh && (above != heaptop ==> above in mem)
      modifies this`mem
      ensures mem == MergeMem(old(mem), mh, mhnext, heaptop)
    {
      if mem[mh].inuse || mem[mhnext].inuse {
        return;
      }
      var mhnextnext := mhnext + NextOff(mem[mhnext]);
      MkFieldUnits(mem[mh].next + mem[mhnext].next);
      mem := mem[mh := mem[mh].(next := MkField(UNIT + (NextOff(mem[mh]) - UNIT) + UNIT + (NextOff(mem[mhnext]) - UNIT)))];
      if mhnextnext != heaptop {
        mem := mem[mhnextnext := mem[mhnextnext].(prev := mem[mh].next)];
      }
      mem := mem[mhnext := DEADBEEF];
    }

    /** Merge of blocks k and k+1 as free calls it, on a tagged heap. */
    method MergeBlocks(mh: int, mhnext: int, ghost k: nat)
      requires Core() && k < |blocks| - 1
      requires mh == heapbase + UNIT * Total(blocks[..k]) && mhnext == mh + UNIT * blocks[k].Units()
      modifies this`mem, this`blocks
      ensures Core() && blocks == MergeAt(old(blocks), k)
      ensures Live(heapbase, blocks) == Live(heapbase, old(blocks))
      ensures KeepsData(old(mem), mem, Live(heapbase, old(blocks)))
    {
      MergeReady(mem, heapbase, blocks, k);
      ghost var m0 := mem;
      TryMerge(mh, mhnext);
      MergeStep(m0, mem, heapbase, blocks, k);
      MergeKeeps(heapbase, blocks, k);
      blocks := MergeAt(blocks, k);
    }

    /** Mark the used block k at mh free and overwrite its payload. */
    method ReleaseBlock(mh: int, ghost k: nat)
      requires Core() && k < |blocks| && blocks[k].used && mh == heapbase + UNIT * Total(blocks[..k])
      modifies this`mem, this`blocks
      ensures Core() && blocks == Release(old(blocks), k)
      ensures KeepsData(old(mem), mem, Live(heapbase, blocks))
    {
      HeaderAt(mem, heapbase, blocks, k);
      assert MOk(mem[mh]) && mem[mh].inuse;  // "corrupt header" and "already free" are unreachable
      ghost var m0 := mem;
      mem := mem[mh := mem[mh].(inuse := false)];
      MarkStep(m0, mem, heapbase, blocks, k, false);
      blocks := Release(blocks, k);
      assert blocks[..k] == old(blocks)[..k];
      ghost var m1 := mem;
      Wipe(mh + UNIT, mem[mh].next - 1);
      WipeStep(m1, mem, heapbase, blocks, k);
      KeepsTrans(m0, m1, mem, Live(heapbase, blocks));
    }

    /** The block below block k. */
    lemma Below(k: nat)
      requires Core() && 0 < k < |blocks|
      ensures var mh := heapbase + UNIT * Total(blocks[..k]);
              && mh in mem && mem[mh].prev == blocks[k - 1].Units()
              && mh == heapbase + UNIT * Total(blocks[..k - 1]) + UNIT * blocks[k - 1].Units()
    {
      HeaderAt(mem, heapbase, blocks, k);
      HeaderAbove(mem, heapbase, blocks, k - 1);
      assert blocks[..k][k - 1] == blocks[k - 1];
    }

    /**
     free, for NULL, a pointer outside the heap, or a live pointer. The process exits exactly
     when the pointer is not below the heap top, which a live pointer is unless it is an empty
     payload at the very top. Otherwise exactly that payload is given up, free neighbours are
     merged, and no other live byte moves or changes.
     */
    method Free(x: int) returns (ok: bool)
      requires (Valid() || Unused()) && (x in LivePtrs() || x == 0 || x < heapbase || x >= heaptop)
      modifies this`mem, this`blocks
      ensures if old(Valid()) then Valid() else Unused()
      ensures ok <==> x == 0 || heapbase <= x < heaptop
      ensures !ok || x == 0 ==> blocks == old(blocks) && mem == old(mem)
      ensures ok && x != 0 ==> LivePtrs() == old(LivePtrs()) - {x}
      ensures ok && x != 0 ==>
                exists k ::
                  && 0 <= k < |old(blocks)| && old(blocks)[k].used
                  && x == heapbase + UNIT * Total(old(blocks)[..k]) + UNIT
                  && blocks == FreeBlocks(old(blocks), k)
      ensures KeepsData(old(mem), mem, LivePtrs())
    {
      if x == 0 {
        KeepsAll(mem, Live(heapbase, blocks));
        return true;
      }
      if heapbase == 0 || heaptop == 0 || heapbase > heaptop || x < heapbase || x >= heaptop {
        KeepsAll(mem, Live(heapbase, blocks));
        return false;
      }
      ghost var k := LiveBlock(heapbase, blocks, x);
      FreeAt(x - UNIT, k);
      return true;
    }

    /** Merge block k with the block above it, unless it is at the top. */
    method MergeUp(mh: int, ghost k: nat)
      requires Core() && k < |blocks| && mh == heapbase + UNIT * Total(blocks[..k])
      modifies this`mem, this`blocks
      ensures Core() && blocks == MergeAt(old(blocks), k)
      ensures Live(heapbase, blocks) == Live(heapbase, old(blocks))
      ensures KeepsData(old(mem), mem, Live(heapbase, old(blocks)))
    {
      HeaderAt(mem, heapbase, blocks, k);
      var mhnext := mh + NextOff(mem[mh]);
      if mhnext != heaptop {
        MergeBlocks(mh, mhnext, k);
      } else {
        KeepsAll(mem, Live(heapbase, blocks));
      }
    }

    /** Merge block k with the block below it, unless it is at the bottom. */
    method MergeDown(mh: int, ghost k: nat)
      requires Core() && k < |blocks| && mh == heapbase + UNIT * Total(blocks[..k])
      modifies this`mem, this`blocks
      ensures Core() && blocks == MergeAt(old(blocks), k - 1)
      ensures Live(heapbase, blocks) == Live(heapbase, old(blocks))
      ensures KeepsData(old(mem), mem, Live(heapbase, old(blocks)))
    {
      if mh != heapbase {
        Below(k);
        var mhprev := mh - UNIT * mem[mh].prev;
        MergeBlocks(mhprev, mh, k - 1);
      } else {
        if k > 0 { Below(k); }
        KeepsAll(mem, Live(heapbase, blocks));
      }
    }

    /** The work of free on block k at mh. */
    method FreeAt(mh: int, ghost k: nat)
      requires Valid() && k < |blocks| && blocks[k].used && mh == heapbase + UNIT * Total(blocks[..k])
      modifies this`mem, this`blocks
      ensures Valid() && blocks == FreeBlocks(old(blocks), k)
      ensures LivePtrs() == old(LivePtrs()) - {mh + UNIT}
      ensures KeepsData(old(mem), mem, LivePtrs())
    {
      ghost var m0 := mem;
      FreeKeeps(heapbase, blocks, k);
      ReleaseBlock(mh, k);
      assert blocks[..k] == old(blocks)[..k];
      ghost var m1 := mem;
      MergeUp(mh, k);
      KeepsTrans(m0, m1, mem, LivePtrs());
      assert blocks[..k] == old(blocks)[..k];
      ghost var m2 := mem;
      MergeDown(mh, k);
      KeepsTrans(m0, m2, mem, LivePtrs());
    }

    /** A store by the program into one of its live payloads leaves every tag alone. */
    method Store(p: int, c: int, v: Cell)
      requires Valid() && p in LivePtrs() && p <= c < p + LivePtrs()[p]
      modifies this`mem
      ensures blocks == old(blocks) && mem == old(mem)[c := v]
      ensures Valid()
    {
      ghost var k := LiveBlock(heapbase, blocks, p);
      ghost var pre, b, post := blocks[..k], blocks[k], blocks[k + 1..];
      assert blocks == pre + [b] + post;
      StoreStep(mem, heapbase, pre, b, post, c, v);
      mem := mem[c := v];
    }
  }

  lemma StoreStep(m: Memory, a: int, pre: seq<Block>, b: Block, post: seq<Block>, c: int, v: Cell)
    requires Tagged(m, a, 0, pre + [b] + post)
    requires var p := a + UNIT * Total(pre) + UNIT; p <= c < p + UNIT * b.data
    ensures Tagged(m[c := v], a, 0, pre + [b] + post)
  {
    var mh, prev := a + UNIT * Total(pre), LastUnits(0, pre);
    Single(0, b);
    TaggedCut(m, a, pre, [b], post);
    TaggedOne(m, mh, prev, b);
    TaggedOne(m[c := v], mh, prev, b);
    Retag(m, m[c := v], a, pre, [b], [b], post);
  }

  /** malloc(0) on a fresh heap succeeds, and freeing what it returned ends the process. */
  method FreeOfMallocZero(h: Heap) returns (r: Outcome, ok: bool)
    requires h.Unused()
    modifies h, h.vm`heaptop
    ensures r.Ptr? ==> !ok
  {
    ok := true;
    r := h.Malloc(0);
    if r.Ptr? {
      assert h.blocks == [Block(0, true)];
      Single(h.heapbase, Block(0, true));
      ok := h.Free(r.addr);
    }
  }
}
