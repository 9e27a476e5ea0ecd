/**
 The abstract state of the kernel's subpage allocator: pages cut into blocks of one
 size each, and for every page the free list of block offsets, head first. The lemmas
 say what allocating and freeing blocks does to the set of live blocks.
 */
module PagePool {
  import opened Collections

  const PAGE_SIZE := 4096
  const NSIZES := 8

  /** The table of block sizes. */
  function Size(b: nat): (sz: nat)
    requires b < NSIZES
    ensures 16 <= sz <= 2048
  {
    [16, 32, 64, 128, 256, 512, 1024, 2048][b]
  }

  /** Blocks per page. */
  function Capacity(b: nat): (n: nat)
    requires b < NSIZES
    ensures n * Size(b) == PAGE_SIZE && n >= 2 && n == PAGE_SIZE / Size(b)
  {
    [256, 128, 64, 32, 16, 8, 4, 2][b]
  }

  datatype Page = Page(addr: int, blk: nat, free: seq<int>)

  /** Offset o is the start of a block of size class b. */
  ghost predicate Slot(o: int, b: nat) {
    b < NSIZES && 0 <= o < PAGE_SIZE && o % Size(b) == 0
  }

  /** The free list is in the page, aligned, without repetition; at least one block of the page is live. */
  ghost predicate PageOk(p: Page) {
    && p.addr > 0 && p.addr % PAGE_SIZE == 0 && p.blk < NSIZES
    && Distinct(p.free) && (forall i :: 0 <= i < |p.free| ==> Slot(p.free[i], p.blk))
    && |p.free| < Capacity(p.blk)
  }

  type Pool = map<int, Page>

  ghost predicate PoolOk(pages: Pool) {
    && (forall i :: i in pages ==> PageOk(pages[i]))
    && (forall i, j :: i in pages && j in pages && i != j ==> pages[i].addr != pages[j].addr)
  }

  ghost predicate OnPage(pg: Page, p: int) {
    pg.addr <= p < pg.addr + PAGE_SIZE
  }

  /** p is the address of an allocated block of page pg. */
  ghost predicate LiveOn(pg: Page, p: int) {
    OnPage(pg, p) && Slot(p - pg.addr, pg.blk) && p - pg.addr !in pg.free
  }

  ghost predicate Live(pages: Pool, p: int) {
    exists i :: i in pages && LiveOn(pages[i], p)
  }

  // ---------------------------------------------------------------- counting

  ghost function SlotsBelow(n: nat, b: nat): set<int>
    requires b < NSIZES
  {
    if n == 0 then {} else SlotsBelow(n - 1, b) + {(n - 1) * Size(b)}
  }

  lemma {:induction false} SlotsBelowCount(n: nat, b: nat)
    requires b < NSIZES
    ensures |SlotsBelow(n, b)| == n
    ensures forall o :: o in SlotsBelow(n, b) ==> 0 <= o < n * Size(b)
  {
    if n > 0 {
      SlotsBelowCount(n - 1, b);
      assert n * Size(b) == (n - 1) * Size(b) + Size(b);
    }
  }

  lemma {:induction false} SlotsBelowAll(n: nat, b: nat, q: nat)
    requires b < NSIZES && q < n
    ensures q * Size(b) in SlotsBelow(n, b)
  {
    if q < n - 1 {
      SlotsBelowAll(n - 1, b, q);
    }
  }

  lemma SlotIsBelow(o: int, b: nat)
    requires Slot(o, b)
    ensures o in SlotsBelow(Capacity(b), b)
  {
    var q := o / Size(b);
    assert o == q * Size(b);
    assert q < Capacity(b);
    SlotsBelowAll(Capacity(b), b, q);
  }

  /** A free list as long as the page has blocks holds every block. */
  lemma FullListHasAll(free: seq<int>, b: nat, o: int)
    requires Distinct(free) && Slot(o, b) && (forall i :: 0 <= i < |free| ==> Slot(free[i], b))
    requires |free| == Capacity(b)
    ensures o in free
  {
    var have := Elements(free);
    var all := SlotsBelow(Capacity(b), b);
    DistinctCount(free);
    SlotsBelowCount(Capacity(b), b);
    forall x | x in have
      ensures x in all
    {
      SlotIsBelow(x, b);
    }
    SubsetOfEqualSize(have, all);
    SlotIsBelow(o, b);
  }

  lemma SubsetOfEqualSize<T>(x: set<T>, y: set<T>)
    requires x <= y && |x| == |y|
    ensures x == y
  {
    var d := y - x;
    assert y == x + d;
    assert |y| == |x| + |d|;
    assert d == {};
  }

  // ---------------------------------------------------------------- separation

  /** Different pages have no byte in common. */
  lemma PagesApart(a: int, b: int)
    requires a % PAGE_SIZE == 0 && b % PAGE_SIZE == 0 && a != b
    ensures a + PAGE_SIZE <= b || b + PAGE_SIZE <= a
  {
  }

  /** A live address belongs to one page only. */
  lemma OnePage(pages: Pool, i: int, j: int, p: int)
    requires PoolOk(pages) && i in pages && j in pages && OnPage(pages[i], p) && OnPage(pages[j], p)
    ensures i == j
  {
    if i != j {
      PagesApart(pages[i].addr, pages[j].addr);
    }
  }

  lemma SlotsApart(o: int, o': int, b: nat)
    requires Slot(o, b) && Slot(o', b) && o < o'
    ensures o + Size(b) <= o'
  {
    var q, q' := o / Size(b), o' / Size(b);
    assert o == q * Size(b) && o' == q' * Size(b);
    assert q < q';
    assert q' * Size(b) >= (q + 1) * Size(b);
    assert (q + 1) * Size(b) == o + Size(b);
  }

  /** Two live blocks have no byte in common. */
  lemma LiveApart(pages: Pool, i: int, p: int, j: int, q: int)
    requires PoolOk(pages) && i in pages && j in pages && p != q
    requires LiveOn(pages[i], p) && LiveOn(pages[j], q)
    ensures p + Size(pages[i].blk) <= q || q + Size(pages[j].blk) <= p
  {
    SlotEnds(p - pages[i].addr, pages[i].blk);
    SlotEnds(q - pages[j].addr, pages[j].blk);
    if i == j {
      var a, b := pages[i].addr, pages[i].blk;
      if p < q { SlotsApart(p - a, q - a, b); } else { SlotsApart(q - a, p - a, b); }
    } else {
      PagesApart(pages[i].addr, pages[j].addr);
    }
  }

  /** The last block ends with the page. */
  lemma SlotEnds(o: int, b: nat)
    requires Slot(o, b)
    ensures o + Size(b) <= PAGE_SIZE
  {
    var q := o / Size(b);
    assert o == q * Size(b);
    assert q < Capacity(b);
    assert (q + 1) * Size(b) <= Capacity(b) * Size(b);
    assert (q + 1) * Size(b) == q * Size(b) + Size(b);
  }

  // ---------------------------------------------------------------- transitions

  ghost function Pop(pages: Pool, i: int): Pool
    requires i in pages && pages[i].free != []
  {
    pages[i := pages[i].(free := pages[i].free[1..])]
  }

  ghost function Push(pages: Pool, i: int, o: int): Pool
    requires i in pages
  {
    pages[i := pages[i].(free := [o] + pages[i].free)]
  }

  /** The list a new page starts with: all blocks, the last one first. */
  ghost function Descending(n: nat, sz: nat): seq<int> {
    if n == 0 then [] else [(n - 1) * sz] + Descending(n - 1, sz)
  }

  ghost function NewPage(addr: int, b: nat): Page
    requires b < NSIZES
  {
    Page(addr, b, Descending(Capacity(b), Size(b)))
  }

  lemma {:induction false} DescendingSlots(n: nat, b: nat)
    requires b < NSIZES && n <= Capacity(b)
    ensures |Descending(n, Size(b))| == n && Distinct(Descending(n, Size(b)))
    ensures forall i :: 0 <= i < n ==> Slot(Descending(n, Size(b))[i], b) && Descending(n, Size(b))[i] == (n - 1 - i) * Size(b)
  {
    if n > 0 {
      DescendingSlots(n - 1, b);
      var o := (n - 1) * Size(b);
      assert o + Size(b) == n * Size(b) <= Capacity(b) * Size(b);
      MultipleMod(n - 1, b);
      var rest := Descending(n - 1, Size(b));
      forall j | 0 <= j < n - 1
        ensures rest[j] < o
      {
        assert (n - 2 - j) * Size(b) < (n - 1) * Size(b);
      }
    }
  }

  lemma MultipleMod(q: nat, b: nat)
    requires b < NSIZES
    ensures (q * Size(b)) % Size(b) == 0
  {
    match b {
      case 0 => assert (q * 16) % 16 == 0;
      case 1 => assert (q * 32) % 32 == 0;
      case 2 => assert (q * 64) % 64 == 0;
      case 3 => assert (q * 128) % 128 == 0;
      case 4 => assert (q * 256) % 256 == 0;
      case 5 => assert (q * 512) % 512 == 0;
      case 6 => assert (q * 1024) % 1024 == 0;
      case _ => assert (q * 2048) % 2048 == 0;
    }
  }

  /** Replacing page i changes liveness only through that page. */
  lemma SwapLive(pages: Pool, i: int, pg: Page, q: int)
    requires i in pages
    ensures Live(pages[i := pg], q) <==> LiveOn(pg, q) || Live(pages - {i}, q)
    ensures Live(pages, q) <==> LiveOn(pages[i], q) || Live(pages - {i}, q)
  {
    var rest := pages - {i};
    AddedLive(rest, i, pg, q);
    AddedLive(rest, i, pages[i], q);
    assert rest[i := pg] == pages[i := pg];
    assert rest[i := pages[i]] == pages;
  }

  lemma AddedLive(rest: Pool, i: int, pg: Page, q: int)
    requires i !in rest
    ensures Live(rest[i := pg], q) <==> LiveOn(pg, q) || Live(rest, q)
  {
    var pages := rest[i := pg];
    if LiveOn(pg, q) {
      assert i in pages && LiveOn(pages[i], q);
    }
    if j :| j in rest && LiveOn(rest[j], q) {
      assert j in pages && LiveOn(pages[j], q);
    }
  }

  lemma NotElsewhere(pages: Pool, i: int, p: int)
    requires PoolOk(pages) && i in pages && OnPage(pages[i], p)
    ensures !Live(pages - {i}, p)
  {
    if j :| j in pages - {i} && LiveOn((pages - {i})[j], p) {
      OnePage(pages, i, j, p);
    }
  }

  lemma TailMembers(s: seq<int>, x: int)
    requires s != [] && Distinct(s)
    ensures x in s[1..] <==> x in s && x != s[0]
    ensures Distinct(s[1..])
  {
    assert s == [s[0]] + s[1..];
  }

  /** Taking the head of page i's free list makes exactly one more block live. */
  lemma PopLive(pages: Pool, i: int, q: int)
    requires PoolOk(pages) && i in pages && pages[i].free != []
    ensures PoolOk(Pop(pages, i))
    ensures var p := pages[i].addr + pages[i].free[0];
            !Live(pages, p) && (Live(Pop(pages, i), q) <==> Live(pages, q) || q == p)
  {
    var pg, pg' := pages[i], Pop(pages, i)[i];
    var p := pg.addr + pg.free[0];
    assert Slot(pg.free[0], pg.blk);
    TailMembers(pg.free, q - pg.addr);
    NotElsewhere(pages, i, p);
    SwapLive(pages, i, pg', p);
    SwapLive(pages, i, pg', q);
  }

  /** The pool after block o of page i is freed: the page goes when its last live block goes. */
  ghost function FreeIn(pages: Pool, i: int, o: int): Pool
    requires i in pages && pages[i].blk < NSIZES
  {
    if |pages[i].free| + 1 == Capacity(pages[i].blk) then pages - {i} else Push(pages, i, o)
  }

  /** Freeing block o of page i makes exactly that block not live. */
  lemma FreeInLive(pages: Pool, i: int, o: int, q: int)
    requires PoolOk(pages) && i in pages && LiveOn(pages[i], pages[i].addr + o)
    ensures PoolOk(FreeIn(pages, i, o))
    ensures Live(FreeIn(pages, i, o), q) <==> Live(pages, q) && q != pages[i].addr + o
  {
    var pg, pg' := pages[i], Push(pages, i, o)[i];
    PushedLive(pg, o, q);
    SwapLive(pages, i, pg', q);
    NotElsewhere(pages, i, pg.addr + o);
    if |pg'.free| == Capacity(pg.blk) && LiveOn(pg', q) {
      FullListHasAll(pg'.free, pg.blk, q - pg.addr);
    }
  }

  lemma PushedLive(pg: Page, o: int, q: int)
    requires PageOk(pg) && LiveOn(pg, pg.addr + o)
    ensures var pg' := pg.(free := [o] + pg.free);
            && Distinct(pg'.free) && (forall k :: 0 <= k < |pg'.free| ==> Slot(pg'.free[k], pg.blk))
            && (LiveOn(pg', q) <==> LiveOn(pg, q) && q != pg.addr + o)
  {
    var free := [o] + pg.free;
    assert forall k :: 0 < k < |free| ==> free[k] == pg.free[k - 1];
    assert q - pg.addr in free <==> q - pg.addr in pg.free || q - pg.addr == o;
  }

  /** The page is kept exactly while some other block of it is live. */
  lemma PageGoesWithLastBlock(pages: Pool, i: int, o: int)
    requires PoolOk(pages) && i in pages && LiveOn(pages[i], pages[i].addr + o)
    ensures i in FreeIn(pages, i, o) <==> exists q :: LiveOn(pages[i], q) && q != pages[i].addr + o
  {
    var pg, pg' := pages[i], Push(pages, i, o)[i];
    if i in FreeIn(pages, i, o) {
      var x := ShortListMisses(pg'.free, pg.blk);
      assert x !in pg.free && x != o by { assert pg'.free == [o] + pg.free; }
      assert LiveOn(pg, pg.addr + x);
    } else {
      forall q | LiveOn(pg, q)
        ensures q == pg.addr + o
      {
        FreeInLive(pages, i, o, q);
        NotElsewhere(pages, i, q);
        assert Live(pages, q);
      }
    }
  }

  lemma ShortListMisses(free: seq<int>, b: nat) returns (o: int)
    requires b < NSIZES && |free| < Capacity(b)
    ensures Slot(o, b) && o !in free
  {
    var have := Elements(free);
    var all := SlotsBelow(Capacity(b), b);
    SlotsBelowCount(Capacity(b), b);
    AtMost(free);
    o := Larger(all, have);
    BelowIsSlot(Capacity(b), b, o);
  }

  lemma {:induction false} AtMost(s: seq<int>)
    ensures |Elements(s)| <= |s|
  {
    if s != [] {
      AtMost(s[1..]);
      assert Elements(s) == {s[0]} + Elements(s[1..]);
    }
  }

  lemma Larger(x: set<int>, y: set<int>) returns (e: int)
    requires |x| > |y|
    ensures e in x && e !in y
  {
    var d := x - y;
    assert |x| == |x * y| + |d|;
    assert |y| == |x * y| + |y - x|;
    e := Pick(d);
  }

  lemma {:induction false} BelowIsSlot(n: nat, b: nat, o: int)
    requires b < NSIZES && n <= Capacity(b) && o in SlotsBelow(n, b)
    ensures Slot(o, b)
  {
    if o == (n - 1) * Size(b) {
      MultipleMod(n - 1, b);
      SlotsBelowCount(n, b);
      assert n * Size(b) <= Capacity(b) * Size(b);
    } else {
      BelowIsSlot(n - 1, b, o);
    }
  }

  /** A fresh page from which one block has been taken. */
  ghost function Added(pages: Pool, i: int, addr: int, b: nat): Pool
    requires b < NSIZES
  {
    pages[i := Page(addr, b, Descending(Capacity(b) - 1, Size(b)))]
  }

  lemma AddedOk(pages: Pool, i: int, addr: int, b: nat)
    requires PoolOk(pages) && i !in pages && b < NSIZES && addr > 0 && addr % PAGE_SIZE == 0
    requires forall j :: j in pages ==> pages[j].addr != addr
    ensures PoolOk(Added(pages, i, addr, b))
  {
    DescendingSlots(Capacity(b) - 1, b);
  }

  lemma FirstTaken(b: nat, o: int)
    requires b < NSIZES
    ensures var first := (Capacity(b) - 1) * Size(b);
            Slot(first, b) && (Slot(o, b) ==> (o in Descending(Capacity(b) - 1, Size(b)) <==> o != first))
  {
    var full := Descending(Capacity(b), Size(b));
    DescendingSlots(Capacity(b), b);
    assert Slot(full[0], b) && full[0] == (Capacity(b) - 1) * Size(b);
    assert full[1..] == Descending(Capacity(b) - 1, Size(b));
    TailMembers(full, o);
    if Slot(o, b) {
      FullListHasAll(full, b, o);
    }
  }

  /** The taken block is the only one of the new page that is live. */
  lemma NewPageLive(addr: int, b: nat, q: int)
    requires b < NSIZES
    ensures var p := addr + (Capacity(b) - 1) * Size(b);
            && Slot(p - addr, b)
            && (LiveOn(Page(addr, b, Descending(Capacity(b) - 1, Size(b))), q) <==> q == p)
  {
    FirstTaken(b, q - addr);
  }

  lemma AddedPageLive(pages: Pool, i: int, addr: int, b: nat, q: int)
    requires PoolOk(pages) && i !in pages && b < NSIZES && addr > 0 && addr % PAGE_SIZE == 0
    requires forall j :: j in pages ==> pages[j].addr != addr
    ensures PoolOk(Added(pages, i, addr, b))
    ensures var p := addr + (Capacity(b) - 1) * Size(b);
            && Slot(p - addr, b) && !Live(pages, p)
            && (Live(Added(pages, i, addr, b), q) <==> Live(pages, q) || q == p)
  {
    AddedOk(pages, i, addr, b);
    NewPageLive(addr, b, q);
    AddedLive(pages, i, Added(pages, i, addr, b)[i], q);
    var p := addr + (Capacity(b) - 1) * Size(b);
    if j :| j in pages && LiveOn(pages[j], p) {
      PagesApart(addr, pages[j].addr);
    }
  }
}
