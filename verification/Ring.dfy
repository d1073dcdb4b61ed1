/** The zero-copy ring of hev-ring-buffer.c: bytes are written, then exposed for reading
    and handed on without a copy, and given back only when they are acknowledged. */
module Ring {
  import opened KeyOrder

  type Bytes = seq<Byte>

  /** A stretch of the ring's memory, one `struct iovec`. */
  datatype Region = Region(base: nat, len: nat)

  /** The `i`-th cell after `s`, around a ring of `max` cells. */
  function Around(max: nat, s: nat, i: nat): (k: nat)
    requires s < max && i <= max
    ensures k < max
  {
    if s + i < max then s + i else s + i - max
  }

  /** The `n` bytes from cell `s` on. */
  ghost function Cells(data: Bytes, s: nat, n: nat): (r: Bytes)
    requires n == 0 || (s < |data| && n <= |data|)
    ensures |r| == n
  {
    seq(n, i requires 0 <= i < n => data[Around(|data|, s, i)])
  }

  /** What the regions hold, in order. */
  ghost function Gather(data: Bytes, iov: seq<Region>): Bytes
    requires InBounds(|data|, iov)
  {
    if iov == [] then []
    else data[iov[0].base..iov[0].base + iov[0].len] + Gather(data, iov[1..])
  }

  ghost predicate InBounds(max: nat, iov: seq<Region>) {
    forall j :: 0 <= j < |iov| ==> iov[j].base + iov[j].len <= max
  }

  /** The regions that cover `n` cells from `s` on. */
  ghost predicate Covers(max: nat, iov: seq<Region>, s: nat, n: nat) {
    if n == 0 then iov == []
    else
      && s < max && n <= max
      && iov == if n <= max - s then [Region(s, n)] else [Region(s, max - s), Region(0, n - (max - s))]
  }

  lemma {:induction false} WrapOnce(x: nat, max: nat)
    requires max > 0 && x < 2 * max
    ensures x % max == if x < max then x else x - max
  {
    if x >= max {
      assert x % max == (x - max) % max;
    }
  }

  lemma {:induction false} GatherCovers(data: Bytes, iov: seq<Region>, s: nat, n: nat)
    requires Covers(|data|, iov, s, n)
    ensures InBounds(|data|, iov) && Gather(data, iov) == Cells(data, s, n)
  {
    var max := |data|;
    if n > 0 {
      if n <= max - s {
        assert iov[1..] == [];
        assert data[s..s + n] + [] == Cells(data, s, n);
      } else {
        var rest := iov[1..];
        assert rest == [Region(0, n - (max - s))] && rest[1..] == [];
        assert Gather(data, rest) == data[0..n - (max - s)];
        assert data[s..max] + data[0..n - (max - s)] == Cells(data, s, n);
      }
    }
  }

  /** Cells in a row, cut in two. */
  lemma {:induction false} CellsCut(data: Bytes, s: nat, n: nat, m: nat)
    requires s < |data| && n + m <= |data|
    ensures Cells(data, s, n + m) == Cells(data, s, n) + Cells(data, Around(|data|, s, n), m)
  {
  }

  class RingBuffer {
    var rp: nat
    var wp: nat
    var rda: nat
    var use: nat
    const max: nat
    const data: array<Byte>

    ghost predicate Valid()
      reads this
    {
      && rda <= use <= max == data.Length
      && (max > 0 ==> rp < max && wp < max && wp == Around(max, rp, rda))
    }

    /** The cell of the oldest byte that is not given back yet. */
    ghost function Tail(): (s: nat)
      reads this
      requires Valid()
      ensures max > 0 ==> s < max && rp == Around(max, s, use - rda) && wp == Around(max, s, use)
    {
      if rp >= use - rda then rp - (use - rda) else rp + max - (use - rda)
    }

    /** Bytes handed on and not yet given back. */
    ghost function InFlight(): (r: Bytes)
      reads this, data
      requires Valid()
      ensures |r| == use - rda
    {
      Cells(data[..], Tail(), use - rda)
    }

    /** Bytes that can be read. */
    ghost function Readable(): (r: Bytes)
      reads this, data
      requires Valid()
      ensures |r| == rda
    {
      Cells(data[..], rp, rda)
    }

    /** The first `n` free cells. */
    ghost function Spare(n: nat): (r: Bytes)
      reads this, data
      requires Valid() && n <= max - use
      ensures |r| == n
    {
      Cells(data[..], wp, n)
    }

    /** Cell `k` holds a byte in flight or a readable one. */
    ghost predicate Used(k: nat)
      reads this
      requires Valid()
    {
      exists i :: 0 <= i < use && k == Around(max, Tail(), i)
    }

    constructor (max: nat)
      ensures Valid() && fresh(data) && this.max == max && InFlight() == [] && Readable() == []
    {
      rp, wp, rda, use := 0, 0, 0, 0;
      this.max := max;
      data := new Byte[max];
    }

    /** `hev_ring_buffer_reading`. */
    method Reading() returns (iov: seq<Region>)
      requires Valid()
      ensures Covers(max, iov, rp, rda) && (iov == [] <==> rda == 0)
      ensures InBounds(max, iov) && Gather(data[..], iov) == Readable()
    {
      if rda == 0 {
        iov := [];
      } else {
        var upper := max - rp;
        if rda <= upper {
          iov := [Region(rp, rda)];
        } else {
          iov := [Region(rp, upper), Region(0, rda - upper)];
        }
      }
      GatherCovers(data[..], iov, rp, rda);
    }

    /** `hev_ring_buffer_read_finish`: the first bytes go in flight, their cells untouched. */
    method ReadFinish(size: nat)
      requires Valid() && size <= rda && max > 0
      modifies this
      ensures Valid() && use == old(use)
      ensures InFlight() == old(InFlight()) + old(Readable())[..size]
      ensures Readable() == old(Readable())[size..]
    {
      hide Cells;
      WrapOnce(rp + size, max);
      CellsCut(data[..], Tail(), use - rda, size);
      CellsCut(data[..], rp, size, rda - size);
      rp := (rp + size) % max;
      rda := rda - size;
    }

    /** `hev_ring_buffer_read_release`: the oldest bytes in flight are given back. */
    method ReadRelease(size: nat)
      requires Valid() && size <= use - rda
      modifies this
      ensures Valid()
      ensures InFlight() == old(InFlight())[size..] && Readable() == old(Readable())
    {
      use := use - size;
      if use == 0 {
        rp, wp := 0, 0;
      }
    }

    /** `hev_ring_buffer_writing`: all free cells, none of which is in use. */
    method Writing() returns (iov: seq<Region>)
      requires Valid()
      ensures Covers(max, iov, wp, max - use) && InBounds(max, iov)
      ensures forall j, k :: 0 <= j < |iov| && iov[j].base <= k < iov[j].base + iov[j].len ==> !Used(k)
    {
      if use == max {
        return [];
      }
      var upper, spc := max - wp, max - use;
      if spc <= upper {
        iov := [Region(wp, spc)];
      } else {
        iov := [Region(wp, upper), Region(0, spc - upper)];
      }
    }

    /** What `readv` does to the cells that `Writing` exposed. */
    method Store(iov: seq<Region>, bytes: Bytes)
      requires Valid() && Covers(max, iov, wp, max - use) && |bytes| <= max - use
      modifies data
      ensures Spare(|bytes|) == bytes
      ensures InFlight() == old(InFlight()) && Readable() == old(Readable())
    {
      ghost var was := data[..];
      var i, j, at := 0, 0, 0;
      while i < |bytes|
        invariant 0 <= i <= |bytes| && 0 <= j <= 1 && 0 <= at
        invariant i < |bytes| ==> j < |iov| && at <= iov[j].len
        invariant i < |bytes| ==> i == if j == 0 then at else iov[0].len + at
        invariant forall k :: 0 <= k < i ==> data[Around(max, wp, k)] == bytes[k]
        invariant forall k :: i <= k < max ==> data[Around(max, wp, k)] == was[Around(max, wp, k)]
        decreases |bytes| - i, 1 - j
      {
        if at == iov[j].len {
          j, at := j + 1, 0;
        } else {
          assert iov[j].base + at == Around(max, wp, i);
          data[iov[j].base + at] := bytes[i];
          i, at := i + 1, at + 1;
        }
      }
      UsedKept(was, data[..], i);
    }

    /** Cells outside the first `n` free ones are the same, so nothing in use changed. */
    lemma {:induction false} UsedKept(was: Bytes, now: Bytes, n: nat)
      requires Valid() && |was| == |now| == max && n <= max - use
      requires forall k {:trigger Around(max, wp, k)} :: n <= k < max ==>
        now[Around(max, wp, k)] == was[Around(max, wp, k)]
      ensures Cells(now, Tail(), use - rda) == Cells(was, Tail(), use - rda)
      ensures Cells(now, rp, rda) == Cells(was, rp, rda)
    {
      forall i | 0 <= i < use - rda ensures now[Around(max, Tail(), i)] == was[Around(max, Tail(), i)] {
        assert Around(max, Tail(), i) == Around(max, wp, max - use + i);
      }
      forall i | 0 <= i < rda ensures now[Around(max, rp, i)] == was[Around(max, rp, i)] {
        assert Around(max, rp, i) == Around(max, wp, max - rda + i);
      }
    }

    /** `hev_ring_buffer_write_finish`: freshly written cells become readable. */
    method WriteFinish(size: nat)
      requires Valid() && size <= max - use && max > 0
      modifies this
      ensures Valid() && use == old(use) + size
      ensures InFlight() == old(InFlight())
      ensures Readable() == old(Readable()) + old(Spare(size))
    {
      WrapOnce(wp + size, max);
      CellsCut(data[..], rp, rda, size);
      wp := (wp + size) % max;
      use := use + size;
      rda := rda + size;
    }
  }
}
