/** The kernel's queue of pointers: a ring buffer that grows by copying itself into a larger one. */
module RingQueue {

  const ENOMEM := 4

  /** The elements of a ring from index r up to index w. */
  ghost function Ring<T>(d: seq<T>, r: nat, w: nat): seq<T>
    requires r < |d| && w < |d|
  {
    if r <= w then d[r..w] else d[r..] + d[..w]
  }

  function Next(i: nat, n: nat): (j: nat)
    requires i < n
    ensures j < n && j == (i + 1) % n
  {
    NextIsModulo(i, n);
    if i + 1 == n then 0 else i + 1
  }

  lemma NextIsModulo(i: nat, n: nat)
    requires i < n
    ensures (i + 1) % n == if i + 1 == n then 0 else i + 1
  {
  }

  lemma RingSize<T>(d: seq<T>, r: nat, w: nat)
    requires r < |d| && w < |d|
    ensures |Ring(d, r, w)| < |d|
    ensures |Ring(d, r, w)| == |d| - 1 <==> Next(w, |d|) == r
    ensures |Ring(d, r, w)| == 0 <==> r == w
  {
  }

  lemma RingWrite<T>(d: seq<T>, r: nat, w: nat, x: T)
    requires r < |d| && w < |d| && Next(w, |d|) != r
    ensures Ring(d[w := x], r, Next(w, |d|)) == Ring(d, r, w) + [x]
  {
    var d' := d[w := x];
    if r <= w && w + 1 < |d| {
      assert d'[r..w + 1] == d[r..w] + [x];
    } else if r <= w {
      assert d'[r..] + d'[..0] == d[r..w] + [x];
    } else {
      assert d'[r..] == d[r..] && d'[..w + 1] == d[..w] + [x];
    }
  }

  lemma RingRead<T>(d: seq<T>, r: nat, w: nat)
    requires r < |d| && w < |d| && r != w
    ensures Ring(d, r, w) == [d[r]] + Ring(d, Next(r, |d|), w)
  {
    if r < w {
      assert d[r..w] == [d[r]] + d[r + 1..w];
    } else {
      WrappedRead(d, r, w);
    }
  }

  lemma WrappedRead<T>(d: seq<T>, r: nat, w: nat)
    requires w < r < |d|
    ensures d[r..] + d[..w] == [d[r]] + if r + 1 < |d| then d[r + 1..] + d[..w] else d[..w]
    ensures Next(r, |d|) == 0 ==> Ring(d, 0, w) == d[..w]
  {
    assert d[r..] == [d[r]] + d[r + 1..];
    assert ([d[r]] + d[r + 1..]) + d[..w] == [d[r]] + (d[r + 1..] + d[..w]);
    if r + 1 == |d| { assert d[r + 1..] + d[..w] == d[..w]; }
  }

  lemma Shift<T>(done: seq<T>, d: seq<T>, r: nat, w: nat)
    requires r < |d| && w < |d| && r != w
    ensures (done + [d[r]]) + Ring(d, Next(r, |d|), w) == done + Ring(d, r, w)
    ensures |Ring(d, r, w)| == |Ring(d, Next(r, |d|), w)| + 1
  {
    RingRead(d, r, w);
  }

  /** size doubled k times. */
  function Doublings(size: nat, k: nat): nat {
    if k == 0 then size else 2 * Doublings(size, k - 1)
  }

  class Queue<T(0)> {
    var size: nat
    var nextwrite: nat
    var nextread: nat
    var data: array<T>

    ghost predicate Valid()
      reads this
    {
      && 0 < size == data.Length
      && nextread < size && nextwrite < size
    }

    /** The queue's elements, the one to be read next first. */
    ghost function Contents(): seq<T>
      requires Valid()
      reads this, data
    {
      Ring(data[..], nextread, nextwrite)
    }

    /** The next element added makes the queue grow. */
    ghost predicate Full()
      requires Valid()
      reads this, data
    {
      |Contents()| == size - 1
    }

    /** q_create, for a positive size. */
    constructor (n: nat)
      requires n > 0
      ensures Valid() && fresh(data) && Contents() == [] && size == n
    {
      size := n;
      data := new T[n];
      nextread, nextwrite := 0, 0;
    }

    /** q_empty */
    method Empty() returns (b: bool)
      requires Valid()
      ensures b <==> Contents() == []
    {
      RingSize(data[..], nextread, nextwrite);
      b := nextwrite == nextread;
    }

    /** The size after doubling until n elements fit. */
    method Doubled(n: nat) returns (nsize: nat)
      requires size > 0
      ensures exists k: nat :: nsize == Doublings(size, k) && nsize >= n && (k > 0 ==> Doublings(size, k - 1) < n)
      ensures n > size ==> 2 * size <= nsize
    {
      nsize := size;
      ghost var k: nat := 0;
      while nsize < n
        invariant nsize == Doublings(size, k) && (k > 0 ==> 2 * size <= nsize && Doublings(size, k - 1) < n)
        invariant nsize >= size
        decreases n - nsize
      {
        nsize := nsize * 2;
        k := k + 1;
      }
    }

    /** The loop of q_grow: add what the old ring holds from i up to w. */
    method CopyFrom(olddata: array<T>, r: nat, w: nat)
      requires Valid() && olddata != data && r < olddata.Length && w < olddata.Length
      requires |Contents()| + |Ring(olddata[..], r, w)| < size
      modifies this, data
      ensures Valid() && data == old(data) && size == old(size)
      ensures Contents() == old(Contents()) + Ring(olddata[..], r, w)
      decreases 1, 0
    {
      var i: nat := r;
      ghost var source, done := olddata[..], Contents();
      ghost var all := done + Ring(source, r, w);
      while i != w
        invariant Valid() && data == old(data) && size == old(size) && i < |source|
        invariant olddata[..] == source && Contents() == done && done + Ring(source, i, w) == all
        decreases |Ring(source, i, w)|
      {
        Shift(done, source, i, w);
        var result := AddTail(olddata[i], false);
        assert result == 0;
        done := done + [source[i]];
        i := Next(i, olddata.Length);
      }
    }

    /**
     q_grow. It is called only by an AddTail on a full ring, and the AddTails it makes itself are
     on rings that are not full and so do not come back here: the termination order says so.
     */
    method Grow(targetsize: nat, memory: bool) returns (result: int)
      requires Valid() && targetsize > size
      modifies this, data
      ensures Valid() && Contents() == old(Contents())
      ensures if memory then result == 0 && size >= targetsize && fresh(data) && !Full()
              else result == ENOMEM && size == old(size) && data == old(data)
      decreases 1, 1
    {
      RingSize(data[..], nextread, nextwrite);
      var olddata, onr, onw := data, nextread, nextwrite;
      var nsize := Doubled(targetsize);
      if !memory {
        return ENOMEM;
      }
      size := nsize;
      data := new T[nsize];
      nextread, nextwrite := 0, 0;
      CopyFrom(olddata, onr, onw);
      return 0;
    }

    /** q_addtail */
    method AddTail(ptr: T, memory: bool) returns (result: int)
      requires Valid()
      modifies this, data
      ensures Valid()
      ensures result == 0 <==> memory || !old(Full())
      ensures Contents() == if result == 0 then old(Contents()) + [ptr] else old(Contents())
      ensures !old(Full()) ==> size == old(size) && data == old(data)
      ensures data != old(data) ==> fresh(data)
      decreases if Full() then 2 else 0, 0
    {
      RingSize(data[..], nextread, nextwrite);
      var nextnext := Next(nextwrite, size);
      if nextnext == nextread {
        result := Grow(size + 1, memory);
        if result != 0 {
          return result;
        }
        RingSize(data[..], nextread, nextwrite);
        nextnext := Next(nextwrite, size);
      }
      RingWrite(data[..], nextread, nextwrite, ptr);
      data[nextwrite] := ptr;
      nextwrite := nextnext;
      return 0;
    }

    /** q_remhead */
    method RemHead() returns (ret: T)
      requires Valid() && Contents() != []
      modifies this`nextread
      ensures Valid() && ret == old(Contents())[0] && Contents() == old(Contents())[1..]
    {
      RingRead(data[..], nextread, nextwrite);
      ret := data[nextread];
      nextread := Next(nextread, size);
    }

    /** q_preallocate */
    method Preallocate(n: nat, memory: bool) returns (result: int)
      requires Valid()
      modifies this, data
      ensures Valid() && Contents() == old(Contents())
      ensures result == 0 <==> n <= old(size) || memory
      ensures result == 0 ==> size >= n
    {
      result := 0;
      if n > size {
        result := Grow(n, memory);
      }
    }
  }
}
