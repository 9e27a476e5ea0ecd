/**
 The abstract heap of the user-level allocator: the sequence of blocks that
 tiles [heapbase, heaptop), from the bottom up. Sizes are counted in units of
 eight bytes; a block is one header unit followed by its payload units.

 The functions here say what malloc and free do to that sequence; the lemmas say
 what every run of them keeps. Module `Malloc` proves that the boundary-tag code
 carries them out in memory.
 */
module Blocks {

  /** Bytes in one unit, the source's MBLOCKSIZE. */
  const UNIT := 8

  datatype Block = Block(data: nat, used: bool) {
    /** Units with the header. */
    function Units(): nat { data + 1 }
  }

  // ---------------------------------------------------------------- shape

  ghost function Total(bs: seq<Block>): nat {
    if bs == [] then 0 else bs[0].Units() + Total(bs[1..])
  }

  /** No two neighbouring blocks are both free. */
  ghost predicate Coalesced(bs: seq<Block>) {
    forall i :: 0 < i < |bs| ==> bs[i - 1].used || bs[i].used
  }

  /** The live payloads of blocks laid out from address a: data pointer to payload bytes. */
  ghost function Live(a: int, bs: seq<Block>): map<int, nat>
    decreases |bs|
  {
    if bs == [] then map[]
    else (if bs[0].used then map[a + UNIT := UNIT * bs[0].data] else map[])
         + Live(a + UNIT * bs[0].Units(), bs[1..])
  }

  lemma {:induction false} TotalAppend(xs: seq<Block>, ys: seq<Block>)
    ensures Total(xs + ys) == Total(xs) + Total(ys)
  {
    if xs == [] {
      assert xs + ys == ys;
    } else {
      TotalAppend(xs[1..], ys);
      assert (xs + ys)[1..] == xs[1..] + ys;
    }
  }

  /** Every live payload lies inside the tiled range, above a header, and on a unit boundary. */
  lemma {:induction false} LiveRange(a: int, bs: seq<Block>, p: int)
    requires p in Live(a, bs)
    ensures a + UNIT <= p <= p + Live(a, bs)[p] <= a + UNIT * Total(bs)
    ensures (p - a) % UNIT == 0 && Live(a, bs)[p] % UNIT == 0
    decreases |bs|
  {
    var a' := a + UNIT * bs[0].Units();
    if p in Live(a', bs[1..]) {
      LiveRange(a', bs[1..], p);
    }
  }

  lemma {:induction false} LiveAppend(a: int, xs: seq<Block>, ys: seq<Block>)
    ensures Live(a, xs + ys) == Live(a, xs) + Live(a + UNIT * Total(xs), ys)
    decreases |xs|
  {
    if xs == [] {
      assert xs + ys == ys;
    } else {
      var a' := a + UNIT * xs[0].Units();
      LiveAppend(a', xs[1..], ys);
      assert (xs + ys)[1..] == xs[1..] + ys;
      var here: map<int, nat> := if xs[0].used then map[a + UNIT := UNIT * xs[0].data] else map[];
      MapAssoc(here, Live(a', xs[1..]), Live(a + UNIT * Total(xs), ys));
    }
  }

  lemma MapAssoc(x: map<int, nat>, y: map<int, nat>, z: map<int, nat>)
    ensures x + (y + z) == (x + y) + z
  {
  }

  lemma MapInsert(x: map<int, nat>, z: map<int, nat>, p: int, n: nat)
    requires p !in x && p !in z
    ensures (x + map[p := n] + z) == (x + z)[p := n]
    ensures (x + map[p := n] + z) - {p} == x + z
  {
  }

  lemma Single(a: int, b: Block)
    ensures Total([b]) == b.Units()
    ensures Live(a, [b]) == if b.used then map[a + UNIT := UNIT * b.data] else map[]
  {
    assert [b][1..] == [];
    assert Total([b][1..]) == 0;
    assert Live(a + UNIT * b.Units(), [b][1..]) == map[];
  }

  lemma Pair(a: int, b: Block, c: Block)
    ensures Total([b, c]) == b.Units() + c.Units()
    ensures Live(a, [b, c]) == Live(a, [b]) + Live(a + UNIT * b.Units(), [c])
  {
    assert [b, c] == [b] + [c];
    Single(a, b);
    Single(a + UNIT * b.Units(), c);
    TotalAppend([b], [c]);
    LiveAppend(a, [b], [c]);
  }

  lemma CutTotal(pre: seq<Block>, mid: seq<Block>, post: seq<Block>)
    ensures Total(pre + mid + post) == Total(pre) + Total(mid) + Total(post)
    ensures post != [] ==> Total(post) > 0
  {
    TotalAppend(pre + mid, post);
    TotalAppend(pre, mid);
  }

  /** The live payloads of a heap cut in three. */
  lemma CutLive(a: int, pre: seq<Block>, mid: seq<Block>, post: seq<Block>)
    ensures var b := a + UNIT * Total(pre); var c := b + UNIT * Total(mid);
            Live(a, pre + mid + post) == Live(a, pre) + Live(b, mid) + Live(c, post)
  {
    TotalAppend(pre, mid);
    LiveAppend(a, pre + mid, post);
    LiveAppend(a, pre, mid);
  }

  lemma CutLiveFree(a: int, pre: seq<Block>, mid: seq<Block>, post: seq<Block>)
    requires Live(a + UNIT * Total(pre), mid) == map[]
    ensures var c := a + UNIT * Total(pre) + UNIT * Total(mid);
            Live(a, pre + mid + post) == Live(a, pre) + Live(c, post)
  {
    CutLive(a, pre, mid, post);
    var l := Live(a, pre);
    assert l + map[] == l;
  }

  /** The payloads below a cut keep out of the block above it, and the other way round. */
  lemma NotAcross(a: int, pre: seq<Block>, c: int, post: seq<Block>, p: int)
    requires c >= a + UNIT * Total(pre) + UNIT
    requires p == a + UNIT * Total(pre) + UNIT
    ensures p !in Live(a, pre) && p !in Live(c, post)
  {
    if p in Live(a, pre) { LiveRange(a, pre, p); }
    if p in Live(c, post) { LiveRange(c, post, p); }
  }

  /** A live pointer names a used block. */
  lemma {:induction false} LiveBlock(a: int, bs: seq<Block>, p: int) returns (k: nat)
    requires p in Live(a, bs)
    ensures k < |bs| && bs[k].used
    ensures p == a + UNIT * Total(bs[..k]) + UNIT
    ensures Live(a, bs)[p] == UNIT * bs[k].data
    decreases |bs|
  {
    var a' := a + UNIT * bs[0].Units();
    if p in Live(a', bs[1..]) {
      var j := LiveBlock(a', bs[1..], p);
      k := j + 1;
      assert bs[..k] == [bs[0]] + bs[1..][..j];
      TotalAppend([bs[0]], bs[1..][..j]);
      Single(a, bs[0]);
    } else {
      k := 0;
    }
  }

  ghost predicate Overlap(p: int, n: nat, q: int, m: nat) {
    p < q + m && q < p + n
  }

  /** No two live payloads share a byte. */
  lemma {:induction false} LiveDisjoint(a: int, bs: seq<Block>, p: int, q: int)
    requires p in Live(a, bs) && q in Live(a, bs) && p != q
    ensures !Overlap(p, Live(a, bs)[p], q, Live(a, bs)[q])
    decreases |bs|
  {
    var a' := a + UNIT * bs[0].Units();
    var rest := Live(a', bs[1..]);
    if p in rest { LiveRange(a', bs[1..], p); }
    if q in rest { LiveRange(a', bs[1..], q); }
    if p in rest && q in rest { LiveDisjoint(a', bs[1..], p, q); }
  }

  /** The top of the heap is a live pointer exactly when the last block is a used one of size zero. */
  lemma EmptyAtTop(a: int, bs: seq<Block>)
    ensures a + UNIT * Total(bs) in Live(a, bs) <==> bs != [] && bs[|bs| - 1] == Block(0, true)
  {
    if bs != [] {
      var init, b := bs[..|bs| - 1], bs[|bs| - 1];
      var c, top := a + UNIT * Total(init), a + UNIT * Total(bs);
      assert bs == init + [b];
      LiveAppend(a, init, [b]);
      TotalAppend(init, [b]);
      Single(c, b);
      if top in Live(a, init) { LiveRange(a, init, top); }
    }
  }

  /** Every other live pointer is below the top, so free accepts it. */
  lemma LiveBelowTop(a: int, bs: seq<Block>, p: int)
    requires p in Live(a, bs)
    ensures a <= p && (p < a + UNIT * Total(bs) <==> !(p == a + UNIT * Total(bs) && bs[|bs| - 1] == Block(0, true)))
  {
    LiveRange(a, bs, p);
    EmptyAtTop(a, bs);
  }

  // ---------------------------------------------------------------- malloc

  /** Index of the first free block with n units of payload; |bs| when there is none. */
  ghost function FirstFit(bs: seq<Block>, n: nat): (k: nat)
    ensures k <= |bs|
    ensures k < |bs| ==> !bs[k].used && bs[k].data >= n
    ensures forall i :: 0 <= i < k ==> bs[i].used || bs[i].data < n
  {
    if bs == [] then 0
    else if !bs[0].used && bs[0].data >= n then 0
    else 1 + FirstFit(bs[1..], n)
  }

  /** Some free block is large enough for n units. */
  ghost predicate Fits(bs: seq<Block>, n: nat) {
    exists i :: 0 <= i < |bs| && !bs[i].used && bs[i].data >= n
  }

  lemma FitsIffFound(bs: seq<Block>, n: nat)
    ensures Fits(bs, n) <==> FirstFit(bs, n) < |bs|
  {
    var k := FirstFit(bs, n);
    if k < |bs| {
      assert !bs[k].used;
    }
  }

  /** What a chosen free block becomes: split only when two units are left over. */
  ghost function Carve(b: Block, n: nat): seq<Block>
    requires b.data >= n
  {
    if b.data - n < 2 then [Block(b.data, true)]
    else [Block(n, true), Block(b.data - n - 1, false)]
  }

  ghost function AllocIn(bs: seq<Block>, k: nat, n: nat): seq<Block>
    requires k < |bs| && bs[k].data >= n
  {
    bs[..k] + Carve(bs[k], n) + bs[k + 1..]
  }

  ghost function Grow(bs: seq<Block>, n: nat): seq<Block> {
    bs + [Block(n, true)]
  }

  ghost function MallocBlocks(bs: seq<Block>, n: nat): seq<Block> {
    var k := FirstFit(bs, n);
    if k < |bs| then AllocIn(bs, k, n) else Grow(bs, n)
  }

  /** The address malloc returns for n units, over blocks laid out from a. */
  ghost function MallocPtr(a: int, bs: seq<Block>, n: nat): int {
    a + UNIT * Total(bs[..FirstFit(bs, n)]) + UNIT
  }

  lemma CarveTiles(a: int, b: Block, n: nat)
    requires b.data >= n
    ensures Total(Carve(b, n)) == b.Units()
    ensures n <= Carve(b, n)[0].data <= n + 1
    ensures Live(a, Carve(b, n)) == map[a + UNIT := UNIT * Carve(b, n)[0].data]
  {
    var c := Carve(b, n);
    Single(a, c[0]);
    if |c| == 2 {
      Pair(a, c[0], c[1]);
      Single(a + UNIT * c[0].Units(), c[1]);
    }
  }

  lemma AllocInKeeps(a: int, bs: seq<Block>, k: nat, n: nat)
    requires k < |bs| && !bs[k].used && bs[k].data >= n
    ensures Total(AllocIn(bs, k, n)) == Total(bs)
    ensures var p := a + UNIT * Total(bs[..k]) + UNIT; var d := Carve(bs[k], n)[0].data;
            && p !in Live(a, bs) && n <= d <= n + 1
            && Live(a, AllocIn(bs, k, n)) == Live(a, bs)[p := UNIT * d]
  {
    var pre, post := bs[..k], bs[k + 1..];
    var b := a + UNIT * Total(pre);
    var c := b + UNIT * bs[k].Units();
    assert bs == pre + [bs[k]] + post;
    Single(b, bs[k]);
    CarveTiles(b, bs[k], n);
    CutTotal(pre, [bs[k]], post);
    CutTotal(pre, Carve(bs[k], n), post);
    CutLiveFree(a, pre, [bs[k]], post);
    CutLive(a, pre, Carve(bs[k], n), post);
    NotAcross(a, pre, c, post, b + UNIT);
    MapInsert(Live(a, pre), Live(c, post), b + UNIT, UNIT * Carve(bs[k], n)[0].data);
  }

  lemma AllocInCoalesced(bs: seq<Block>, k: nat, n: nat)
    requires Coalesced(bs) && k < |bs| && !bs[k].used && bs[k].data >= n
    ensures Coalesced(AllocIn(bs, k, n))
  {
    var c := Carve(bs[k], n);
    var r := AllocIn(bs, k, n);
    forall i | 0 < i < |r|
      ensures r[i - 1].used || r[i].used
    {
      if i < k {
        assert r[i - 1] == bs[i - 1] && r[i] == bs[i];
      } else if i >= k + |c| {
        assert r[i] == bs[i - |c| + 1];
        assert i > k + |c| ==> r[i - 1] == bs[i - |c|];
      } else {
        assert r[k] == c[0];
      }
    }
  }

  lemma GrowKeeps(a: int, bs: seq<Block>, n: nat)
    ensures Total(Grow(bs, n)) == Total(bs) + n + 1
    ensures var p := a + UNIT * Total(bs) + UNIT;
            p !in Live(a, bs) && Live(a, Grow(bs, n)) == Live(a, bs)[p := UNIT * n]
  {
    var b := a + UNIT * Total(bs);
    Single(b, Block(n, true));
    TotalAppend(bs, [Block(n, true)]);
    LiveAppend(a, bs, [Block(n, true)]);
    NotAcross(a, bs, b + UNIT, [], b + UNIT);
  }

  /**
   malloc adds one payload to the live ones: new, at
   least as large as asked for and at most one unit larger. The heap grows exactly
   when no free block fits.
   */
  lemma MallocKeeps(a: int, bs: seq<Block>, n: nat)
    ensures var p := MallocPtr(a, bs, n); var bs' := MallocBlocks(bs, n);
            && p !in Live(a, bs) && p in Live(a, bs')
            && UNIT * n <= Live(a, bs')[p] <= UNIT * (n + 1)
            && Live(a, bs') == Live(a, bs)[p := Live(a, bs')[p]]
    ensures var grown := Total(MallocBlocks(bs, n)) - Total(bs);
            if Fits(bs, n) then grown == 0 else grown == n + 1
  {
    var k := FirstFit(bs, n);
    FitsIffFound(bs, n);
    if k < |bs| {
      AllocInKeeps(a, bs, k, n);
    } else {
      assert bs[..k] == bs;
      assert MallocBlocks(bs, n) == Grow(bs, n);
      GrowKeeps(a, bs, n);
    }
  }

  lemma MallocCoalesced(bs: seq<Block>, n: nat)
    requires Coalesced(bs)
    ensures Coalesced(MallocBlocks(bs, n))
  {
    if FirstFit(bs, n) < |bs| {
      AllocInCoalesced(bs, FirstFit(bs, n), n);
    }
  }

  // ---------------------------------------------------------------- free

  ghost function Release(bs: seq<Block>, k: nat): seq<Block>
    requires k < |bs|
  {
    bs[..k] + [Block(bs[k].data, false)] + bs[k + 1..]
  }

  /** Merge blocks k and k+1 when both exist and both are free. */
  ghost function MergeAt(bs: seq<Block>, k: int): seq<Block> {
    if 0 <= k < |bs| - 1 && !bs[k].used && !bs[k + 1].used
    then bs[..k] + [Block(bs[k].data + bs[k + 1].Units(), false)] + bs[k + 2..]
    else bs
  }

  /** free: mark the block, merge with the block above, then with the block below. */
  ghost function FreeBlocks(bs: seq<Block>, k: nat): seq<Block>
    requires k < |bs|
  {
    MergeAt(MergeAt(Release(bs, k), k), k - 1)
  }

  lemma ReleaseKeeps(a: int, bs: seq<Block>, k: nat)
    requires k < |bs| && bs[k].used
    ensures Total(Release(bs, k)) == Total(bs)
    ensures var p := a + UNIT * Total(bs[..k]) + UNIT;
            p in Live(a, bs) && Live(a, Release(bs, k)) == Live(a, bs) - {p}
  {
    var pre, f, post := bs[..k], Block(bs[k].data, false), bs[k + 1..];
    var b := a + UNIT * Total(pre);
    var c := b + UNIT * bs[k].Units();
    assert bs == pre + [bs[k]] + post;
    Single(b, bs[k]);
    Single(b, f);
    CutTotal(pre, [bs[k]], post);
    CutTotal(pre, [f], post);
    CutLive(a, pre, [bs[k]], post);
    CutLiveFree(a, pre, [f], post);
    NotAcross(a, pre, c, post, b + UNIT);
    MapInsert(Live(a, pre), Live(c, post), b + UNIT, UNIT * bs[k].data);
  }

  lemma MergeKeeps(a: int, bs: seq<Block>, k: int)
    ensures Total(MergeAt(bs, k)) == Total(bs)
    ensures Live(a, MergeAt(bs, k)) == Live(a, bs)
  {
    if 0 <= k < |bs| - 1 && !bs[k].used && !bs[k + 1].used {
      var pre, post := bs[..k], bs[k + 2..];
      var one := Block(bs[k].data + bs[k + 1].Units(), false);
      var b := a + UNIT * Total(pre);
      assert bs == pre + [bs[k], bs[k + 1]] + post;
      Pair(b, bs[k], bs[k + 1]);
      Single(b, bs[k]);
      Single(b + UNIT * bs[k].Units(), bs[k + 1]);
      Single(b, one);
      CutTotal(pre, [bs[k], bs[k + 1]], post);
      CutTotal(pre, [one], post);
      CutLiveFree(a, pre, [bs[k], bs[k + 1]], post);
      CutLiveFree(a, pre, [one], post);
    }
  }

  /** Coalesced but for the neighbours of block k. */
  ghost predicate CoalescedBut(bs: seq<Block>, k: int) {
    forall i :: 0 < i < |bs| && i != k && i != k + 1 ==> bs[i - 1].used || bs[i].used
  }

  lemma MergeAbove(bs: seq<Block>, k: nat)
    requires k < |bs| && !bs[k].used && CoalescedBut(bs, k)
    ensures var m := MergeAt(bs, k);
            && k < |m| && !m[k].used && m[..k] == bs[..k]
            && forall i :: 0 < i < |m| && i != k ==> m[i - 1].used || m[i].used
  {
    var m := MergeAt(bs, k);
    assert m[..k] == bs[..k];
    forall i | 0 < i < |m| && i != k
      ensures m[i - 1].used || m[i].used
    {
      if i < k {
        assert m[i - 1] == m[..k][i - 1] && m[i] == m[..k][i];
      } else if |m| != |bs| {
        assert bs[i].used || bs[i + 1].used;
        assert m[i] == bs[i + 1];
        assert i > k + 1 ==> m[i - 1] == bs[i];
      }
    }
  }

  lemma MergeBelow(bs: seq<Block>, k: nat)
    requires k < |bs| && !bs[k].used
    requires forall i :: 0 < i < |bs| && i != k ==> bs[i - 1].used || bs[i].used
    ensures Coalesced(MergeAt(bs, k - 1))
  {
    var m := MergeAt(bs, k - 1);
    if |m| != |bs| {
      forall i | 0 < i < |m|
        ensures m[i - 1].used || m[i].used
      {
        if i < k {
          assert m[i - 1] == bs[i - 1];
          assert i < k - 1 ==> m[i] == bs[i];
          assert bs[i - 1].used || bs[i].used;
        } else {
          assert m[i] == bs[i + 1];
          assert i > k ==> m[i - 1] == bs[i];
          assert bs[i].used || bs[i + 1].used;
        }
      }
    }
  }

  /** Freeing a live block removes exactly its payload and leaves no two free neighbours. */
  lemma FreeKeeps(a: int, bs: seq<Block>, k: nat)
    requires Coalesced(bs) && k < |bs| && bs[k].used
    ensures Coalesced(FreeBlocks(bs, k)) && Total(FreeBlocks(bs, k)) == Total(bs)
    ensures var p := a + UNIT * Total(bs[..k]) + UNIT;
            p in Live(a, bs) && Live(a, FreeBlocks(bs, k)) == Live(a, bs) - {p}
  {
    var r := Release(bs, k);
    ReleaseKeeps(a, bs, k);
    MergeKeeps(a, r, k);
    MergeKeeps(a, MergeAt(r, k), k - 1);
    assert r == bs[k := Block(bs[k].data, false)];
    MergeAbove(r, k);
    MergeBelow(MergeAt(r, k), k);
  }

  /** free undoes malloc: a block taken from the free ones and given back leaves the heap as it was. */
  lemma FreeUndoesAlloc(bs: seq<Block>, k: nat, n: nat)
    requires Coalesced(bs) && k < |bs| && !bs[k].used && bs[k].data >= n
    ensures FreeBlocks(AllocIn(bs, k, n), k) == bs
  {
    var al := AllocIn(bs, k, n);
    assert al[..k] == bs[..k] && al[k] == Carve(bs[k], n)[0];
    var r := Release(al, k);
    assert r[..k] == bs[..k] && !r[k].used;
    if bs[k].data - n < 2 {
      assert al[k + 1..] == bs[k + 1..];
      assert r == bs;
      assert MergeAt(r, k) == bs;
    } else {
      assert al[k + 1] == Carve(bs[k], n)[1] && al[k + 2..] == bs[k + 1..];
      assert r[k + 1] == al[k + 1] && r[k + 2..] == bs[k + 1..];
      assert MergeAt(r, k) == bs[..k] + [bs[k]] + bs[k + 1..] == bs;
    }
    assert MergeAt(bs, k - 1) == bs;
  }

  // ---------------------------------------------------------------- whole runs

  /** A client call: an allocation of n units (with or without room to grow) or a free of block k. */
  datatype Call = Alloc(n: nat, room: bool) | Dispose(k: nat)

  ghost function Apply(bs: seq<Block>, c: Call): seq<Block> {
    match c
    case Alloc(n, room) => if FirstFit(bs, n) < |bs| || room then MallocBlocks(bs, n) else bs
    case Dispose(k) => if k < |bs| && bs[k].used then FreeBlocks(bs, k) else bs
  }

  ghost function Run(bs: seq<Block>, calls: seq<Call>): seq<Block>
    decreases |calls|
  {
    if calls == [] then bs else Run(Apply(bs, calls[0]), calls[1..])
  }

  lemma {:induction false} RunCoalesced(bs: seq<Block>, calls: seq<Call>)
    requires Coalesced(bs)
    ensures Coalesced(Run(bs, calls))
    decreases |calls|
  {
    if calls != [] {
      match calls[0] {
        case Alloc(n, _) => MallocCoalesced(bs, n);
        case Dispose(k) => if k < |bs| && bs[k].used { FreeKeeps(0, bs, k); }
      }
      RunCoalesced(Apply(bs, calls[0]), calls[1..]);
    }
  }

  /** After any run that leaves nothing live, the whole heap is a single free block (or no block). */
  lemma AllFreedIsOneBlock(a: int, calls: seq<Call>)
    requires Live(a, Run([], calls)) == map[]
    ensures |Run([], calls)| <= 1
  {
    var bs := Run([], calls);
    RunCoalesced([], calls);
    if |bs| > 1 {
      ReleaseKeeps(a, bs, if bs[0].used then 0 else 1);
    }
  }
}
