/**
 The kernel's subpage allocator. Page references live in a fixed table; the same pages are
 linked twice, once in the list of all pages and once in the list of their block size, and a
 bitmap tells which references are in use. Free blocks of a page are chained through their
 own first words. Table entries are kept as parallel sequences, one per field.
 */
module KHeap {
  import opened Collections
  import opened PagePool
  import opened UseBits

  const INVALID_OFFSET := 0xffff
  /** The null pointer among page reference indices. */
  const NONE := -1

  /** The word that fill_deadbeef stores. */
  const DEADBEEF := 0xdeadbeef

  datatype Info = Info(addr: int, blk: nat, off: int, nfree: int)

  type Words = map<int, int>

  // ---------------------------------------------------------------- free lists

  /** The free blocks at the given offsets of the page at a are chained through their first words. */
  ghost predicate Chain(mem: Words, a: int, free: seq<int>) {
    forall k :: 0 <= k < |free| ==>
      a + free[k] in mem && mem[a + free[k]] == if k + 1 < |free| then a + free[k + 1] else 0
  }

  ghost predicate RefRep(r: Info, pg: Page, mem: Words) {
    && r.addr == pg.addr && r.blk == pg.blk && r.nfree == |pg.free|
    && r.off == (if pg.free == [] then INVALID_OFFSET else pg.free[0])
    && Chain(mem, pg.addr, pg.free)
  }

  /** Outside [lo, hi) the two memories agree. */
  ghost predicate AgreeOutside(m: Words, m': Words, lo: int, hi: int) {
    forall c :: c in m && !(lo <= c < hi) ==> c in m' && m'[c] == m[c]
  }

  lemma ChainFrame(m: Words, m': Words, a: int, free: seq<int>, lo: int, hi: int)
    requires Chain(m, a, free) && AgreeOutside(m, m', lo, hi)
    requires forall k :: 0 <= k < |free| ==> !(lo <= a + free[k] < hi)
    ensures Chain(m', a, free)
  {
  }

  // ---------------------------------------------------------------- page reference lists

  ghost function At(s: seq<int>, k: nat): int {
    if k < |s| then s[k] else NONE
  }

  /** Following next from head visits s and stops. */
  ghost predicate Linked(next: seq<int>, head: int, s: seq<int>) {
    && head == At(s, 0)
    && forall k :: 0 <= k < |s| ==> 0 <= s[k] < |next| && next[s[k]] == At(s, k + 1)
  }

  lemma LinkFront(next: seq<int>, head: int, s: seq<int>, i: int)
    requires Linked(next, head, s) && 0 <= i < |next| && i !in s
    ensures Linked(next[i := head], i, [i] + s)
  {
    var t := [i] + s;
    assert forall k :: 0 < k < |t| ==> t[k] == s[k - 1];
  }

  ghost function Without(s: seq<int>, k: nat): seq<int>
    requires k < |s|
  {
    s[..k] + s[k + 1..]
  }

  lemma WithoutMembers(s: seq<int>, k: nat)
    requires k < |s| && Distinct(s)
    ensures Distinct(Without(s, k))
    ensures forall x :: x in Without(s, k) <==> x in s && x != s[k]
  {
    var t := Without(s, k);
    assert forall i :: 0 <= i < |t| ==> t[i] == if i < k then s[i] else s[i + 1];
    forall x | x in s && x != s[k]
      ensures x in t
    {
      var i :| 0 <= i < |s| && s[i] == x;
      assert t[if i < k then i else i - 1] == x;
    }
  }

  /** Bypassing element k unlinks it. */
  lemma LinkWithout(next: seq<int>, head: int, s: seq<int>, k: nat)
    requires Linked(next, head, s) && Distinct(s) && k < |s|
    ensures k == 0 ==> Linked(next, next[s[0]], Without(s, 0))
    ensures k > 0 ==> Linked(next[s[k - 1] := next[s[k]]], head, Without(s, k))
  {
    var t := Without(s, k);
    assert forall i :: 0 <= i < |t| ==> t[i] == if i < k then s[i] else s[i + 1];
  }

  /** One loop of remove_lists: walk from head to element pr and bypass it. */
  method Unlink(next: seq<int>, head: int, pr: int, ghost s: seq<int>, ghost at: nat)
    returns (next': seq<int>, head': int)
    requires Linked(next, head, s) && Distinct(s) && at < |s| && s[at] == pr
    ensures |next'| == |next| && Linked(next', head', Without(s, at))
    ensures forall j :: 0 <= j < |next| && j !in s ==> next'[j] == next[j]
  {
    next', head' := next, head;
    var prev, guy := NONE, head;
    ghost var k := 0;
    while guy != NONE
      invariant k <= at && guy == At(s, k) && prev == (if k == 0 then NONE else s[k - 1])
      invariant next' == next && head' == head
      decreases |s| - k
    {
      if guy == pr {
        LinkWithout(next, head, s, at);
        if prev == NONE {
          head' := next[pr];
        } else {
          next' := next[prev := next[pr]];
        }
        return;
      }
      prev, guy, k := guy, next[guy], k + 1;
    }
  }

  /** Size class b is the smallest that holds sz bytes. */
  ghost predicate Tight(b: nat, sz: nat) {
    b < NSIZES && sz <= Size(b) && forall c :: 0 <= c < b ==> Size(c) < sz
  }

  lemma TightUnique(b: nat, c: nat, sz: nat)
    requires Tight(b, sz) && Tight(c, sz)
    ensures b == c
  {
  }

  /** The block given for sz bytes is the least power of two that is at least sz and at least 16. */
  lemma TightSize(b: nat, sz: nat)
    requires Tight(b, sz)
    ensures Size(b) in {16, 32, 64, 128, 256, 512, 1024, 2048} && sz <= Size(b)
    ensures if sz <= 16 then Size(b) == 16 else Size(b) < 2 * sz
  {
    if b > 0 { assert Size(b - 1) < sz; }
  }

  /** Some page of the size class for sz bytes has a free block. */
  ghost predicate HasRoom(pages: Pool, sz: nat) {
    exists i :: i in pages && Tight(pages[i].blk, sz) && pages[i].free != []
  }

  /** pr is the first in the list whose page has a free block. */
  ghost predicate FirstWithRoom(pages: Pool, s: seq<int>, pr: int) {
    exists k :: 0 <= k < |s| && s[k] == pr && pr in pages && pages[pr].free != []
                && forall j :: 0 <= j < k ==> s[j] in pages && pages[s[j]].free == []
  }

  /** blocktype: the smallest size class that holds sz bytes. */
  method BlockType(sz: nat) returns (b: nat)
    requires sz <= Size(NSIZES - 1)
    ensures Tight(b, sz)
  {
    b := 0;
    while sz > Size(b)
      invariant b < NSIZES && forall c :: 0 <= c < b ==> Size(c) < sz
      decreases NSIZES - b
    {
      b := b + 1;
    }
  }

  /** The chain of a whole new page, with the last block at its head. */
  lemma {:induction false} DescendingChain(mem: Words, a: int, n: nat, sz: nat)
    requires sz > 0
    requires forall i :: 0 <= i < n ==> a + i * sz in mem && mem[a + i * sz] == if i == 0 then 0 else a + (i - 1) * sz
    ensures Chain(mem, a, Descending(n, sz))
  {
    if n > 0 {
      DescendingChain(mem, a, n - 1, sz);
      var d, rest := Descending(n, sz), Descending(n - 1, sz);
      assert d == [(n - 1) * sz] + rest;
      assert forall k :: 0 < k < |d| ==> d[k] == rest[k - 1];
      assert n > 1 ==> rest[0] == (n - 2) * sz;
    }
  }

  /** A block that is not on the free list keeps clear of the first words of those that are. */
  lemma ClearOfFree(pg: Page, o: int)
    requires PageOk(pg) && Slot(o, pg.blk) && o !in pg.free
    ensures forall k :: 0 <= k < |pg.free| ==> !(pg.addr + o <= pg.addr + pg.free[k] < pg.addr + o + Size(pg.blk))
  {
    forall k | 0 <= k < |pg.free|
      ensures !(o <= pg.free[k] < o + Size(pg.blk))
    {
      if o < pg.free[k] { SlotsApart(o, pg.free[k], pg.blk); }
    }
  }

  lemma ClearOfPage(pg: Page, lo: int, hi: int)
    requires PageOk(pg) && (hi <= pg.addr || pg.addr + PAGE_SIZE <= lo)
    ensures forall k :: 0 <= k < |pg.free| ==> !(lo <= pg.addr + pg.free[k] < hi)
  {
    forall k | 0 <= k < |pg.free|
      ensures !(lo <= pg.addr + pg.free[k] < hi)
    {
      assert Slot(pg.free[k], pg.blk);
    }
  }

  /** The list of all pages holds exactly the pages in use. */
  ghost predicate AllOk(next: seq<int>, head: int, s: seq<int>, pages: Pool) {
    Linked(next, head, s) && Distinct(s) && forall i :: i in s <==> i in pages
  }

  ghost predicate ClassOk(next: seq<int>, head: int, s: seq<int>, b: nat, pages: Pool) {
    Linked(next, head, s) && Distinct(s) && forall i :: i in s <==> i in pages && pages[i].blk == b
  }

  /** The list of each size holds exactly the pages of that size. */
  ghost predicate SameOk(next: seq<int>, heads: seq<int>, lists: seq<seq<int>>, pages: Pool) {
    |heads| == |lists| == NSIZES && forall b :: 0 <= b < NSIZES ==> ClassOk(next, heads[b], lists[b], b, pages)
  }

  ghost predicate RepsOk(info: seq<Info>, pages: Pool, mem: Words) {
    forall i :: i in pages ==> 0 <= i < |info| && RefRep(info[i], pages[i], mem)
  }

  lemma FrontMembers(s: seq<int>, i: int)
    requires Distinct(s) && i !in s
    ensures Distinct([i] + s)
    ensures forall x :: x in [i] + s <==> x in s || x == i
  {
    assert forall k :: 0 < k < |[i] + s| ==> ([i] + s)[k] == s[k - 1];
  }

  lemma AllAdd(next: seq<int>, head: int, s: seq<int>, pages: Pool, i: int, pg: Page)
    requires AllOk(next, head, s, pages) && 0 <= i < |next| && i !in pages
    ensures AllOk(next[i := head], i, [i] + s, pages[i := pg])
  {
    LinkFront(next, head, s, i);
    FrontMembers(s, i);
  }

  lemma ClassOther(next: seq<int>, next': seq<int>, head: int, s: seq<int>, b: nat, pages: Pool, pages': Pool)
    requires ClassOk(next, head, s, b, pages) && |next'| == |next|
    requires forall k :: 0 <= k < |next| && k in s ==> next'[k] == next[k]
    requires forall i :: (i in pages' && pages'[i].blk == b) <==> (i in pages && pages[i].blk == b)
    ensures ClassOk(next', head, s, b, pages')
  {
  }

  lemma SameAdd(next: seq<int>, heads: seq<int>, lists: seq<seq<int>>, pages: Pool, i: int, pg: Page)
    requires SameOk(next, heads, lists, pages) && 0 <= i < |next| && i !in pages && pg.blk < NSIZES
    ensures var b := pg.blk;
            SameOk(next[i := heads[b]], heads[b := i], lists[b := [i] + lists[b]], pages[i := pg])
  {
    var b := pg.blk;
    var next' := next[i := heads[b]];
    var heads', lists' := heads[b := i], lists[b := [i] + lists[b]];
    forall c | 0 <= c < NSIZES
      ensures ClassOk(next', heads'[c], lists'[c], c, pages[i := pg])
    {
      assert ClassOk(next, heads[c], lists[c], c, pages);
      if c == b {
        LinkFront(next, heads[b], lists[b], i);
        FrontMembers(lists[b], i);
      } else {
        ClassOther(next, next', heads[c], lists[c], c, pages, pages[i := pg]);
      }
    }
  }

  /** Changing a page without changing its size class leaves the lists right. */
  lemma SameSwap(next: seq<int>, heads: seq<int>, lists: seq<seq<int>>, pages: Pool, i: int, pg: Page)
    requires SameOk(next, heads, lists, pages) && i in pages && pg.blk == pages[i].blk
    ensures SameOk(next, heads, lists, pages[i := pg])
  {
    forall c | 0 <= c < NSIZES
      ensures ClassOk(next, heads[c], lists[c], c, pages[i := pg])
    {
      ClassOther(next, next, heads[c], lists[c], c, pages, pages[i := pg]);
    }
  }

  lemma AllRemove(next: seq<int>, head: int, next': seq<int>, head': int, s: seq<int>, at: nat, pages: Pool)
    requires AllOk(next, head, s, pages) && at < |s| && Linked(next', head', Without(s, at))
    ensures AllOk(next', head', Without(s, at), pages - {s[at]})
  {
    WithoutMembers(s, at);
  }

  lemma SameRemove(next: seq<int>, heads: seq<int>, next': seq<int>, head': int, lists: seq<seq<int>>,
                   at: nat, b: nat, pages: Pool)
    requires SameOk(next, heads, lists, pages) && b < NSIZES && at < |lists[b]|
    requires |next'| == |next| && Linked(next', head', Without(lists[b], at))
    requires forall j :: 0 <= j < |next| && j !in lists[b] ==> next'[j] == next[j]
    ensures SameOk(next', heads[b := head'], lists[b := Without(lists[b], at)], pages - {lists[b][at]})
  {
    var pr := lists[b][at];
    var heads', lists', pages' := heads[b := head'], lists[b := Without(lists[b], at)], pages - {pr};
    assert ClassOk(next, heads[b], lists[b], b, pages);
    assert pr in lists[b] && pages[pr].blk == b;
    forall c | 0 <= c < NSIZES
      ensures ClassOk(next', heads'[c], lists'[c], c, pages')
    {
      assert ClassOk(next, heads[c], lists[c], c, pages);
      if c == b {
        WithoutMembers(lists[b], at);
      } else {
        ClassOther(next, next', heads[c], lists[c], c, pages, pages');
      }
    }
  }

  lemma RepsSwap(info: seq<Info>, info': seq<Info>, pages: Pool, i: int, pg: Page, mem: Words)
    requires RepsOk(info, pages - {i}, mem) && |info'| == |info| && 0 <= i < |info|
    requires forall j :: 0 <= j < |info| && j != i ==> info'[j] == info[j]
    requires RefRep(info'[i], pg, mem)
    ensures RepsOk(info', pages[i := pg], mem)
  {
    var rest, pages' := pages - {i}, pages[i := pg];
    forall j | j in pages'
      ensures 0 <= j < |info'| && RefRep(info'[j], pages'[j], mem)
    {
      assert j != i ==> j in rest && rest[j] == pages'[j];
    }
  }

  /** The bits that are set are those of the pages. */
  ghost predicate BitsOk(words: seq<Word>, pages: Pool) {
    WordsOk(words) && forall i :: 0 <= i < NPAGEREFS ==> (InUse(words, i) <==> i in pages)
  }

  lemma SameBits(words: seq<Word>, pages: Pool, pages': Pool)
    requires BitsOk(words, pages) && pages'.Keys == pages.Keys
    ensures BitsOk(words, pages')
  {
    forall i | 0 <= i < NPAGEREFS
      ensures InUse(words, i) <==> i in pages'
    {
      assert i in pages' <==> i in pages'.Keys;
    }
  }

  class Subpages {
    var info: seq<Info>
    var nextSame: seq<int>
    var nextAll: seq<int>
    var inuse: seq<Word>
    var sizebases: seq<int>
    var allbase: int
    var mem: Words
    /** The pages in use by page reference index, and the order of the lists. */
    ghost var pages: Pool
    ghost var all: seq<int>
    ghost var same: seq<seq<int>>

    ghost predicate Shape()
      reads this
    {
      && |info| == |nextSame| == |nextAll| == NPAGEREFS && WordsOk(inuse)
      && forall i :: i in pages ==> 0 <= i < NPAGEREFS
    }

    ghost predicate Core()
      reads this
    {
      && Shape() && PoolOk(pages) && RepsOk(info, pages, mem)
      && AllOk(nextAll, allbase, all, pages) && SameOk(nextSame, sizebases, same, pages)
    }

    /** The two list views, the free lists and the bitmap all describe the pages in use. */
    ghost predicate Valid()
      reads this
    {
      Core() && BitsOk(inuse, pages)
    }

    constructor ()
      ensures Valid() && pages == map[]
    {
      info := seq(NPAGEREFS, _ => Info(0, 0, 0, 0));
      nextSame, nextAll := seq(NPAGEREFS, _ => NONE), seq(NPAGEREFS, _ => NONE);
      inuse := seq(INUSE_WORDS, _ => seq(32, _ => false));
      sizebases, allbase, mem := seq(NSIZES, _ => NONE), NONE, map[];
      pages, all, same := map[], [], seq(NSIZES, _ => []);
    }

    /** allocpageref: the first reference not in use, found word by word and bit by bit. */
    method AllocPageRef() returns (r: int)
      requires WordsOk(inuse)
      modifies this`inuse
      ensures WordsOk(inuse)
      ensures if r == NONE then inuse == old(inuse) && forall k :: 0 <= k < NPAGEREFS ==> InUse(inuse, k)
              else 0 <= r < NPAGEREFS && !InUse(old(inuse), r) && (forall k :: 0 <= k < r ==> InUse(old(inuse), k))
                   && inuse == WithBit(old(inuse), r / 32, r % 32, true)
      ensures r != NONE ==> forall q :: InUse(inuse, q) <==> InUse(old(inuse), q) || q == r
    {
      for i := 0 to INUSE_WORDS
        invariant inuse == old(inuse) && forall k :: 0 <= k < 32 * i ==> InUse(inuse, k)
      {
        WordFull(inuse, i);
        if inuse[i] == FULL {
          continue;
        }
        for j := 0 to 32
          invariant inuse == old(inuse) && forall k :: 0 <= k < 32 * i + j ==> InUse(inuse, k)
        {
          BitOf(i, j);
          if !inuse[i][j] {
            forall q
              ensures InUse(WithBit(inuse, i, j, true), q) <==> InUse(inuse, q) || q == 32 * i + j
            {
              OneBit(inuse, 32 * i + j, true, q);
            }
            inuse := WithBit(inuse, i, j, true);
            return 32 * i + j;
          }
        }
        assert false;  // a word that is not full has a clear bit
      }
      return NONE;
    }

    /** freepageref: afterwards p is not in use, and every other reference is as before. */
    method FreePageRef(p: int)
      requires WordsOk(inuse) && InUse(inuse, p)
      modifies this`inuse
      ensures WordsOk(inuse) && forall q :: InUse(inuse, q) <==> InUse(old(inuse), q) && q != p
      ensures inuse == WithBit(old(inuse), p / 32, p % 32, false)
    {
      var i, j := p / 32, p % 32;
      forall q
        ensures InUse(WithBit(inuse, i, j, false), q) <==> InUse(inuse, q) && q != p
      {
        OneBit(inuse, p, false, q);
      }
      inuse := WithBit(inuse, i, j, false);
    }

    /** Take the head of the free list of page reference i. */
    method TakeBlock(i: int, ghost pg: Page) returns (ptr: int)
      requires 0 <= i < |info| && RefRep(info[i], pg, mem) && pg.free != [] && pg.addr > 0
      requires pg.blk < NSIZES && forall k :: 0 <= k < |pg.free| ==> Slot(pg.free[k], pg.blk)
      modifies this`info
      ensures |info| == |old(info)| && forall j :: 0 <= j < |info| && j != i ==> info[j] == old(info)[j]
      ensures RefRep(info[i], pg.(free := pg.free[1..]), mem)
      ensures ptr == pg.addr + pg.free[0]
    {
      var r := info[i];
      assert Slot(pg.free[0], pg.blk);
      assert r.off < PAGE_SIZE;
      ptr := r.addr + r.off;
      var fl := mem[ptr];
      var nfree := r.nfree - 1;
      if fl != 0 {
        assert nfree > 0 && Slot(pg.free[1], pg.blk);
        assert fl - r.addr < PAGE_SIZE;
        info := info[i := r.(off := fl - r.addr, nfree := nfree)];
      } else {
        assert |pg.free| > 1 ==> Slot(pg.free[1], pg.blk);
        assert nfree == 0;
        info := info[i := r.(off := INVALID_OFFSET, nfree := nfree)];
      }
    }

    /** The search of subpage_kmalloc: the first page of class b with a free block. */
    method FindPage(b: nat) returns (pr: int)
      requires Valid() && b < NSIZES
      ensures pr == NONE ==> forall i :: i in pages && pages[i].blk == b ==> pages[i].free == []
      ensures pr != NONE ==> pr in pages && pages[pr].blk == b && FirstWithRoom(pages, same[b], pr)
    {
      pr := sizebases[b];
      assert ClassOk(nextSame, sizebases[b], same[b], b, pages);
      ghost var s, k := same[b], 0;
      while pr != NONE
        invariant k <= |s| && pr == At(s, k)
        invariant forall j :: 0 <= j < k ==> s[j] in pages && pages[s[j]].free == []
        decreases |s| - k
      {
        assert s[k] in s && info[pr].blk == b;
        if info[pr].nfree > 0 {
          return;
        }
        pr, k := nextSame[pr], k + 1;
      }
    }

    /** The loop that chains the blocks of a new page. */
    method ChainPage(a: int, b: nat)
      requires b < NSIZES
      modifies this`mem
      ensures Chain(mem, a, Descending(Capacity(b), Size(b)))
      ensures AgreeOutside(old(mem), mem, a, a + PAGE_SIZE)
    {
      var n := PAGE_SIZE / Size(b);
      var sz := Size(b);
      mem := mem[a := 0];
      assert a + 0 * sz == a;
      for i := 1 to n
        invariant forall j :: 0 <= j < i ==> a + j * sz in mem && mem[a + j * sz] == if j == 0 then 0 else a + (j - 1) * sz
        invariant AgreeOutside(old(mem), mem, a, a + PAGE_SIZE)
      {
        SlotAddress(i, b);
        mem := mem[a + i * sz := a + (i - 1) * sz];
        assert forall j :: 0 <= j < i ==> j * sz < i * sz;
      }
      DescendingChain(mem, a, n, sz);
    }

    /** A page fresh from alloc_kpages(1): aligned, not null, not one of ours. */
    ghost predicate FreshPage(a: int)
      reads this
    {
      a > 0 && a % PAGE_SIZE == 0 && forall i :: i in pages ==> pages[i].addr != a
    }

    /** Enter a new page of class b, all of it free, in the page references and both lists. */
    method EnterPage(pr: int, a: int, b: nat)
      requires Core() && b < NSIZES && FreshPage(a) && 0 <= pr < NPAGEREFS && pr !in pages
      modifies this`info, this`mem, this`nextSame, this`nextAll, this`sizebases, this`allbase, this`all, this`same
      ensures Shape() && RepsOk(info, pages, mem) && RefRep(info[pr], NewPage(a, b), mem)
      ensures AllOk(nextAll, allbase, all, Added(pages, pr, a, b))
      ensures SameOk(nextSame, sizebases, same, Added(pages, pr, a, b))
      ensures AgreeOutside(old(mem), mem, a, a + PAGE_SIZE)
    {
      ghost var m0 := mem;
      var n := PAGE_SIZE / Size(b);
      DescendingSlots(n, b);
      ChainPage(a, b);
      FrameNewPage(m0, mem, info, pages, a);
      info := info[pr := Info(a, b, (n - 1) * Size(b), n)];
      LinkPage(pr, b, Added(pages, pr, a, b)[pr]);
    }

    /** Put page reference pr at the front of the list of its size class and of the list of all pages. */
    method LinkPage(pr: int, b: nat, ghost pg: Page)
      requires Shape() && 0 <= pr < NPAGEREFS && pr !in pages && b < NSIZES && pg.blk == b
      requires AllOk(nextAll, allbase, all, pages) && SameOk(nextSame, sizebases, same, pages)
      modifies this`nextSame, this`nextAll, this`sizebases, this`allbase, this`all, this`same
      ensures Shape()
      ensures AllOk(nextAll, allbase, all, pages[pr := pg]) && SameOk(nextSame, sizebases, same, pages[pr := pg])
    {
      SameAdd(nextSame, sizebases, same, pages, pr, pg);
      AllAdd(nextAll, allbase, all, pages, pr, pg);
      nextSame, sizebases := nextSame[pr := sizebases[b]], sizebases[b := pr];
      nextAll, allbase := nextAll[pr := allbase], pr;
      all, same := [pr] + all, same[b := [pr] + same[b]];
    }

    /** Enter a new page of class b under reference pr and take its first block. */
    method NewBlock(pr: int, a: int, b: nat) returns (ptr: int)
      requires Core() && b < NSIZES && FreshPage(a) && 0 <= pr < NPAGEREFS && pr !in pages
      modifies this`info, this`mem, this`nextSame, this`nextAll, this`sizebases, this`allbase, this`pages, this`all, this`same
      ensures pages == Added(old(pages), pr, a, b) && ptr == a + (Capacity(b) - 1) * Size(b)
      ensures AgreeOutside(old(mem), mem, a, a + PAGE_SIZE)
      ensures Core()
    {
      ghost var full, pages' := NewPage(a, b), Added(pages, pr, a, b);
      AddedOk(pages, pr, a, b);
      EnterPage(pr, a, b);
      DescendingSlots(Capacity(b), b);
      assert full.free[1..] == pages'[pr].free;
      ghost var info0 := info;
      ptr := TakeBlock(pr, full);
      assert pages - {pr} == pages;
      RepsSwap(info0, info, pages, pr, pages'[pr], mem);
      pages := pages';
    }

    /** Take a block from page pr, which has one free. */
    method OldBlock(pr: int) returns (ptr: int)
      requires Core() && pr in pages && pages[pr].free != []
      modifies this`info, this`pages
      ensures Core() && pages == Pop(old(pages), pr) && ptr == old(pages)[pr].addr + old(pages)[pr].free[0]
    {
      ghost var pg, info0 := pages[pr], info;
      assert RefRep(info[pr], pg, mem) && PageOk(pg);
      ptr := TakeBlock(pr, pg);
      ghost var pg' := Pop(pages, pr)[pr];
      RepsSwap(info0, info, pages, pr, pg', mem);
      SameSwap(nextSame, sizebases, same, pages, pr, pg');
      PopLive(pages, pr, 0);
      pages := Pop(pages, pr);
    }

    /** The part of subpage_kmalloc for when page pr has a free block. */
    method FromOldPage(pr: int, ghost newpage: int, ghost sz: nat) returns (r: int)
      requires Valid() && pr in pages && pages[pr].free != [] && Tight(pages[pr].blk, sz)
      modifies this`info, this`pages
      ensures Kmalloced(old(pages), pages, mem, mem, newpage, sz, r)
      ensures Valid()
    {
      r := PopFrom(pr);
      PopKmalloced(old(pages), pages, pr, mem, newpage, sz, r);
    }

    method PopFrom(pr: int) returns (r: int)
      requires Valid() && pr in pages && pages[pr].free != []
      modifies this`info, this`pages
      ensures pages == Pop(old(pages), pr) && r == old(pages)[pr].addr + old(pages)[pr].free[0]
      ensures Valid()
    {
      SameBits(inuse, pages, Pop(pages, pr));
      r := OldBlock(pr);
    }

    /** The part of subpage_kmalloc for when no page of class b has a free block. */
    method FromNewPage(b: nat, newpage: int, sz: nat) returns (r: int)
      requires Valid() && Tight(b, sz) && !HasRoom(pages, sz) && (newpage == 0 || FreshPage(newpage))
      modifies this
      ensures Kmalloced(old(pages), pages, old(mem), mem, newpage, sz, r)
      ensures Valid()
    {
      var pr := AllocPageRef();
      if pr == NONE {
        return 0;
      }
      if newpage == 0 {
        FreePageRef(pr);
        return 0;
      }
      r := UnderRef(pr, b, newpage, sz);
    }

    /** The rest of it, with reference pr and a page in hand. */
    method UnderRef(pr: int, b: nat, newpage: int, ghost sz: nat) returns (r: int)
      requires Core() && Tight(b, sz) && newpage != 0 && FreshPage(newpage) && 0 <= pr < NPAGEREFS && pr !in pages
      requires forall i :: 0 <= i < NPAGEREFS ==> (InUse(inuse, i) <==> i in pages || i == pr)
      modifies this`info, this`mem, this`nextSame, this`nextAll, this`sizebases, this`allbase, this`pages, this`all, this`same
      ensures r != 0 && Allocated(old(pages), pages, r, sz)
      ensures AgreeOutside(old(mem), mem, newpage, newpage + PAGE_SIZE)
      ensures Valid()
    {
      AddAllocates(pages, pr, newpage, b, sz);
      r := NewBlock(pr, newpage, b);
    }

    /** subpage_kmalloc; newpage is what alloc_kpages(1) gives, 0 when it fails. Returns 0 for NULL. */
    method SubpageKmalloc(sz: nat, newpage: int) returns (r: int)
      requires Valid() && sz <= Size(NSIZES - 1) && (newpage == 0 || FreshPage(newpage))
      modifies this
      ensures Kmalloced(old(pages), pages, old(mem), mem, newpage, sz, r)
      ensures Valid()
    {
      var b := BlockType(sz);
      var pr := FindPage(b);
      if pr != NONE {
        r := FromOldPage(pr, newpage, sz);
        return;
      }
      NoRoom(pages, b, sz);
      r := FromNewPage(b, newpage, sz);
      return;
    }

    /** fill_deadbeef over the n bytes at ptr, a word at a time. */
    method FillDeadbeef(ptr: int, n: nat)
      modifies this`mem
      ensures AgreeOutside(old(mem), mem, ptr, ptr + n)
      ensures forall k :: 0 <= k < n / 4 ==> ptr + 4 * k in mem && mem[ptr + 4 * k] == DEADBEEF
    {
      for i := 0 to n / 4
        invariant AgreeOutside(old(mem), mem, ptr, ptr + n)
        invariant forall k :: 0 <= k < i ==> ptr + 4 * k in mem && mem[ptr + 4 * k] == DEADBEEF
      {
        mem := mem[ptr + 4 * i := DEADBEEF];
      }
    }

    /** The first loop of remove_lists: page reference pr leaves the list of its size class, the i-th in it. */
    method RemoveSame(pr: int, b: nat) returns (ghost i: nat)
      requires |nextSame| == NPAGEREFS && SameOk(nextSame, sizebases, same, pages) && pr in pages && pages[pr].blk == b < NSIZES
      modifies this`nextSame, this`sizebases, this`same
      ensures i < |old(same)[b]| && old(same)[b][i] == pr && same == old(same)[b := Without(old(same)[b], i)]
      ensures |nextSame| == NPAGEREFS && SameOk(nextSame, sizebases, same, pages - {pr})
    {
      assert ClassOk(nextSame, sizebases[b], same[b], b, pages);
      assert pr in same[b];
      i :| 0 <= i < |same[b]| && same[b][i] == pr;
      var next, head := Unlink(nextSame, sizebases[b], pr, same[b], i);
      SameRemove(nextSame, sizebases, next, head, same, i, b, pages);
      nextSame, sizebases, same := next, sizebases[b := head], same[b := Without(same[b], i)];
    }

    /** The second loop: it leaves the list of all pages, the j-th in it. */
    method RemoveAll(pr: int) returns (ghost j: nat)
      requires |nextAll| == NPAGEREFS && AllOk(nextAll, allbase, all, pages) && pr in pages
      modifies this`nextAll, this`allbase, this`all
      ensures j < |old(all)| && old(all)[j] == pr && all == Without(old(all), j)
      ensures |nextAll| == NPAGEREFS && AllOk(nextAll, allbase, all, pages - {pr})
    {
      assert pr in all;
      j :| 0 <= j < |all| && all[j] == pr;
      var next, head := Unlink(nextAll, allbase, pr, all, j);
      AllRemove(nextAll, allbase, next, head, all, j, pages);
      nextAll, allbase, all := next, head, Without(all, j);
    }

    /** remove_lists: take page reference pr of class b out of both lists; the others stay in order. */
    method RemoveLists(pr: int, b: nat) returns (ghost i: nat, ghost j: nat)
      requires |nextSame| == |nextAll| == NPAGEREFS && AllOk(nextAll, allbase, all, pages)
      requires SameOk(nextSame, sizebases, same, pages) && pr in pages && pages[pr].blk == b < NSIZES
      modifies this`nextSame, this`nextAll, this`sizebases, this`allbase, this`all, this`same
      ensures i < |old(same)[b]| && old(same)[b][i] == pr && same == old(same)[b := Without(old(same)[b], i)]
      ensures j < |old(all)| && old(all)[j] == pr && all == Without(old(all), j)
      ensures |nextSame| == |nextAll| == NPAGEREFS
      ensures AllOk(nextAll, allbase, all, pages - {pr}) && SameOk(nextSame, sizebases, same, pages - {pr})
    {
      i := RemoveSame(pr, b);
      j := RemoveAll(pr);
    }

    /** The search of subpage_kfree: the page that ptr lies on. */
    method FindOwner(ptr: int) returns (pr: int)
      requires Valid()
      ensures pr == NONE ==> forall i :: i in pages ==> !OnPage(pages[i], ptr)
      ensures pr != NONE ==> pr in pages && OnPage(pages[pr], ptr)
    {
      pr := allbase;
      ghost var k := 0;
      while pr != NONE
        invariant k <= |all| && pr == At(all, k)
        invariant forall j :: 0 <= j < k ==> !OnPage(pages[all[j]], ptr)
        decreases |all| - k
      {
        assert all[k] in all && RefRep(info[pr], pages[pr], mem);
        if info[pr].addr <= ptr < info[pr].addr + PAGE_SIZE {
          return;
        }
        pr, k := nextAll[pr], k + 1;
      }
    }

    /** Fill the n bytes at ptr and store a link in the first word. */
    method WipeAndLink(ptr: int, n: nat, link: int)
      requires n >= 4
      modifies this`mem
      ensures AgreeOutside(old(mem), mem, ptr, ptr + n) && ptr in mem && mem[ptr] == link
      ensures forall k :: 0 < k < n / 4 ==> ptr + 4 * k in mem && mem[ptr + 4 * k] == DEADBEEF
    {
      FillDeadbeef(ptr, n);
      mem := mem[ptr := link];
    }

    /** Wipe the live block at offset o of page pr and put it at the head of the free list. */
    method PushBlock(pr: int, o: int)
      requires |info| == NPAGEREFS && PoolOk(pages) && RepsOk(info, pages, mem)
      requires pr in pages && LiveOn(pages[pr], pages[pr].addr + o)
      modifies this`info, this`mem
      ensures |info| == NPAGEREFS && RepsOk(info, Push(pages, pr, o), mem)
      ensures var p := pages[pr].addr + o; AgreeOutside(old(mem), mem, p, p + Size(pages[pr].blk))
      ensures var p := pages[pr].addr + o;
              forall k :: 0 < k < Size(pages[pr].blk) / 4 ==> p + 4 * k in mem && mem[p + 4 * k] == DEADBEEF
    {
      var r := info[pr];
      ghost var pg, m0, info0 := pages[pr], mem, info;
      assert RefRep(r, pg, mem);
      var ptr := r.addr + o;
      WipeAndLink(ptr, Size(r.blk), if r.off == INVALID_OFFSET then 0 else r.addr + r.off);
      info := info[pr := r.(off := o, nfree := r.nfree + 1)];
      assert pg.free != [] ==> Slot(pg.free[0], pg.blk);
      FrameFreed(m0, mem, info0, pages, pr, o);
      PushChain(mem, pg, o);
      RepsSwap(info0, info, pages, pr, Push(pages, pr, o)[pr], mem);
    }

    /** A store into the live block at offset o of page i, anywhere in it, leaves the allocator's state right. */
    method Store(ghost i: int, ghost o: int, c: int, v: int)
      requires Valid() && i in pages && LiveOn(pages[i], pages[i].addr + o)
      requires pages[i].addr + o <= c < pages[i].addr + o + Size(pages[i].blk)
      modifies this`mem
      ensures Valid() && mem == old(mem)[c := v]
    {
      ghost var m0 := mem;
      mem := mem[c := v];
      FrameFreed(m0, mem, info, pages, i, o);
    }

    /** subpage_kfree, for a live block, an address on none of our pages, or a misplaced address. */
    method SubpageKfree(ptr: int) returns (res: FreeResult, ghost ref: int)
      requires Valid()
      requires forall i :: i in pages && OnPage(pages[i], ptr) && Slot(ptr - pages[i].addr, pages[i].blk) ==> LiveOn(pages[i], ptr)
      modifies this
      ensures Kfreed(old(pages), pages, old(mem), mem, ptr, res, ref)
      ensures Valid()
    {
      var pr := FindOwner(ptr);
      if pr == NONE {
        return NotOurs, NONE;
      }
      assert RefRep(info[pr], pages[pr], mem);
      var offset := ptr - info[pr].addr;
      if offset % Size(info[pr].blk) != 0 {
        NotLive(pages, pr, ptr);
        return Panic, NONE;
      }
      assert Slot(offset, pages[pr].blk);
      FreeBlock(pr, offset, ptr);
      return Freed, pr;
    }

    /** Free the live block at the given offset of page pr; the page goes with its last live block. */
    method FreeBlock(pr: int, offset: int, ghost ptr: int)
      requires Valid() && pr in pages && LiveOn(pages[pr], ptr) && ptr == pages[pr].addr + offset
      modifies this
      ensures BlockFreed(old(pages), pages, old(mem), mem, pr, ptr)
      ensures Valid()
    {
      assert RefRep(info[pr], pages[pr], mem);
      FreeInAll(pages, pr, offset);
      GiveBack(pr, offset);
      BlockIsFreed(old(pages), pages, old(mem), mem, pr, offset, ptr);
    }

    /** Put the block on the free list of its page, and give up the page if that was its last live block. */
    method GiveBack(pr: int, offset: int)
      requires Valid() && pr in pages && LiveOn(pages[pr], pages[pr].addr + offset) && PoolOk(FreeIn(pages, pr, offset))
      modifies this
      ensures pages == FreeIn(old(pages), pr, offset)
      ensures var pg := old(pages)[pr]; AgreeOutside(old(mem), mem, pg.addr + offset, pg.addr + offset + Size(pg.blk))
      ensures Valid()
    {
      assert RefRep(info[pr], pages[pr], mem);
      var b := info[pr].blk;
      PushBlock(pr, offset);
      assert RefRep(info[pr], Push(pages, pr, offset)[pr], mem);
      assert info[pr].nfree <= PAGE_SIZE / Size(b);
      if info[pr].nfree == PAGE_SIZE / Size(b) {
        var _, _ := RemoveLists(pr, b);
        FreePageRef(pr);
        pages := pages - {pr};
      } else {
        SameSwap(nextSame, sizebases, same, pages, pr, Push(pages, pr, offset)[pr]);
        pages := Push(pages, pr, offset);
      }
    }
  }

  lemma BlockIsFreed(pages: Pool, pages': Pool, mem: Words, mem': Words, ref: int, offset: int, ptr: int)
    requires PoolOk(pages) && ref in pages && LiveOn(pages[ref], ptr) && ptr == pages[ref].addr + offset
    requires pages' == FreeIn(pages, ref, offset) && AgreeOutside(mem, mem', ptr, ptr + Size(pages[ref].blk))
    ensures BlockFreed(pages, pages', mem, mem', ref, ptr)
  {
    FreeInAll(pages, ref, offset);
  }

  datatype FreeResult =
    | NotOurs          // not on a subpage page: -1
    | Panic            // on one of our pages but not the start of a block
    | Freed

  lemma NotLive(pages: Pool, i: int, p: int)
    requires PoolOk(pages) && i in pages && OnPage(pages[i], p) && !Slot(p - pages[i].addr, pages[i].blk)
    ensures !Live(pages, p)
  {
    if j :| j in pages && LiveOn(pages[j], p) {
      OnePage(pages, i, j, p);
    }
  }

  lemma FreeInAll(pages: Pool, i: int, o: int)
    requires PoolOk(pages) && i in pages && LiveOn(pages[i], pages[i].addr + o)
    ensures PoolOk(FreeIn(pages, i, o))
    ensures forall q :: Live(FreeIn(pages, i, o), q) <==> Live(pages, q) && q != pages[i].addr + o
  {
    forall q
      ensures PoolOk(FreeIn(pages, i, o)) && (Live(FreeIn(pages, i, o), q) <==> Live(pages, q) && q != pages[i].addr + o)
    {
      FreeInLive(pages, i, o, q);
    }
  }

  lemma PushChain(mem: Words, pg: Page, o: int)
    requires Chain(mem, pg.addr, pg.free) && pg.addr + o in mem
    requires mem[pg.addr + o] == if pg.free == [] then 0 else pg.addr + pg.free[0]
    ensures Chain(mem, pg.addr, [o] + pg.free)
  {
    var t := [o] + pg.free;
    assert forall k :: 0 < k < |t| ==> t[k] == pg.free[k - 1];
  }

  /** Writing inside one live block disturbs no free list. */
  lemma FrameFreed(m: Words, m': Words, info: seq<Info>, pages: Pool, i: int, o: int)
    requires PoolOk(pages) && RepsOk(info, pages, m) && i in pages && LiveOn(pages[i], pages[i].addr + o)
    requires var p := pages[i].addr + o; AgreeOutside(m, m', p, p + Size(pages[i].blk))
    ensures RepsOk(info, pages, m')
  {
    var p := pages[i].addr + o;
    SlotEnds(o, pages[i].blk);
    forall j | j in pages
      ensures RefRep(info[j], pages[j], m')
    {
      if i == j {
        ClearOfFree(pages[i], o);
      } else {
        PagesApart(pages[i].addr, pages[j].addr);
        ClearOfPage(pages[j], p, p + Size(pages[i].blk));
      }
      ChainFrame(m, m', pages[j].addr, pages[j].free, p, p + Size(pages[i].blk));
    }
  }

  /** r is a new live block of the size class for sz bytes, and liveness changes in nothing else. */
  ghost predicate Allocated(pages: Pool, pages': Pool, r: int, sz: nat) {
    && (exists i :: i in pages' && LiveOn(pages'[i], r) && Tight(pages'[i].blk, sz))
    && !Live(pages, r)
    && forall q :: Live(pages', q) <==> Live(pages, q) || q == r
  }

  /**
   What subpage_kmalloc promises. A page with room is used if there is one; otherwise the new page is, and
   written to. It returns NULL, changing nothing, exactly when there is no room, and no page or no reference.
   */
  ghost predicate Kmalloced(pages: Pool, pages': Pool, mem: Words, mem': Words, newpage: int, sz: nat, r: int) {
    && (r == 0 <==> !HasRoom(pages, sz) && (newpage == 0 || forall k :: 0 <= k < NPAGEREFS ==> k in pages))
    && (r == 0 ==> pages' == pages && mem' == mem)
    && (r != 0 ==> Allocated(pages, pages', r, sz))
    && (HasRoom(pages, sz) ==> pages'.Keys == pages.Keys && mem' == mem)
    && (r != 0 && !HasRoom(pages, sz) ==> AgreeOutside(mem, mem', newpage, newpage + PAGE_SIZE))
  }

  /** What subpage_kfree promises; ref is the reference of the page. */
  ghost predicate Kfreed(pages: Pool, pages': Pool, mem: Words, mem': Words, ptr: int, res: FreeResult, ref: int) {
    && (res.NotOurs? <==> forall i :: i in pages ==> !OnPage(pages[i], ptr))
    && (res.Freed? <==> Live(pages, ptr))
    && (!res.Freed? ==> pages' == pages && mem' == mem)
    && (res.Freed? ==> BlockFreed(pages, pages', mem, mem', ref, ptr))
  }

  /** Exactly the block at ptr, on the page of ref, is given up; its page goes if it was the last one. */
  ghost predicate BlockFreed(pages: Pool, pages': Pool, mem: Words, mem': Words, ref: int, ptr: int) {
    && ref in pages && LiveOn(pages[ref], ptr) && pages' == FreeIn(pages, ref, ptr - pages[ref].addr)
    && AgreeOutside(mem, mem', ptr, ptr + Size(pages[ref].blk))
    && forall q :: Live(pages', q) <==> Live(pages, q) && q != ptr
  }

  lemma NoRoom(pages: Pool, b: nat, sz: nat)
    requires Tight(b, sz) && forall i :: i in pages && pages[i].blk == b ==> pages[i].free == []
    ensures !HasRoom(pages, sz)
  {
    forall i | i in pages && Tight(pages[i].blk, sz)
      ensures pages[i].free == []
    {
      TightUnique(pages[i].blk, b, sz);
    }
  }

  lemma PopAllocates(pages: Pool, pages': Pool, i: int, r: int, sz: nat)
    requires PoolOk(pages) && i in pages && pages[i].free != [] && Tight(pages[i].blk, sz)
    requires pages' == Pop(pages, i) && r == pages[i].addr + pages[i].free[0]
    ensures r > 0 && Allocated(pages, pages', r, sz)
  {
    var pg := pages[i];
    assert Slot(pg.free[0], pg.blk);
    TailMembers(pg.free, pg.free[0]);
    assert i in pages' && LiveOn(pages'[i], r);
    forall q
      ensures !Live(pages, r) && (Live(pages', q) <==> Live(pages, q) || q == r)
    {
      PopLive(pages, i, q);
    }
  }

  lemma PopKmalloced(pages: Pool, pages': Pool, i: int, mem: Words, newpage: int, sz: nat, r: int)
    requires PoolOk(pages) && i in pages && pages[i].free != [] && Tight(pages[i].blk, sz)
    requires pages' == Pop(pages, i) && r == pages[i].addr + pages[i].free[0]
    ensures Kmalloced(pages, pages', mem, mem, newpage, sz, r)
  {
    assert HasRoom(pages, sz);
    PopAllocates(pages, pages', i, r, sz);
    assert pages'.Keys == pages.Keys;
  }

  lemma AddAllocates(pages: Pool, i: int, a: int, b: nat, sz: nat)
    requires PoolOk(pages) && i !in pages && Tight(b, sz) && a > 0 && a % PAGE_SIZE == 0
    requires forall j :: j in pages ==> pages[j].addr != a
    ensures Allocated(pages, Added(pages, i, a, b), a + (Capacity(b) - 1) * Size(b), sz)
  {
    var n, pages' := Capacity(b), Added(pages, i, a, b);
    var r := a + (n - 1) * Size(b);
    DescendingSlots(n, b);
    assert Descending(n, Size(b))[1..] == pages'[i].free;
    TailMembers(Descending(n, Size(b)), r - a);
    AddedPageLive(pages, i, a, b, r);
    assert i in pages' && LiveOn(pages'[i], r);
    forall q
      ensures !Live(pages, r) && (Live(pages', q) <==> Live(pages, q) || q == r)
    {
      AddedPageLive(pages, i, a, b, q);
    }
  }

  lemma FrameNewPage(m: Words, m': Words, info: seq<Info>, pages: Pool, a: int)
    requires PoolOk(pages) && a % PAGE_SIZE == 0 && (forall i :: i in pages ==> pages[i].addr != a)
    requires AgreeOutside(m, m', a, a + PAGE_SIZE) && RepsOk(info, pages, m)
    ensures RepsOk(info, pages, m')
  {
    forall i | i in pages
      ensures RefRep(info[i], pages[i], m')
    {
      PagesApart(a, pages[i].addr);
      ClearOfPage(pages[i], a, a + PAGE_SIZE);
      ChainFrame(m, m', pages[i].addr, pages[i].free, a, a + PAGE_SIZE);
    }
  }

  lemma SlotAddress(i: nat, b: nat)
    requires b < NSIZES && i < Capacity(b)
    ensures 0 <= i * Size(b) < PAGE_SIZE
    ensures forall j :: 0 <= j < i ==> j * Size(b) < i * Size(b)
  {
    assert (i + 1) * Size(b) <= Capacity(b) * Size(b);
    assert (i + 1) * Size(b) == i * Size(b) + Size(b);
    forall j | 0 <= j < i
      ensures j * Size(b) < i * Size(b)
    {
      assert (i - j) * Size(b) > 0;
    }
  }
}
