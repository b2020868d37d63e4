/** The circular output window of inflate.c, and flush_window of util.c. */
module OutputWindow {
  import opened Bitstring
  import opened Rfc1951

  const WSIZE := 32768

  /** A copy of no more than the distance takes bytes that are all there already. */
  lemma {:induction false} CopyFar(out: seq<byte>, len: nat, dist: nat)
    requires 1 <= dist <= |out| && len <= dist
    ensures Copy(out, len, dist) == out + out[|out| - dist..|out| - dist + len]
    decreases len
  {
    if len == 0 {
    } else {
      var b := out[|out| - dist];
      CopySplit(out, len - 1, 1, dist);
      CopyFar(out, len - 1, dist);
      var mid := Copy(out, len - 1, dist);
      assert mid[|mid| - dist] == out[|out| - dist + len - 1];
      assert Copy(mid, 1, dist) == mid + [mid[|mid| - dist]];
    }
  }

  lemma {:induction false} CopySplit(out: seq<byte>, m: nat, n: nat, dist: nat)
    requires 1 <= dist <= |out|
    ensures Copy(out, m + n, dist) == Copy(Copy(out, m, dist), n, dist)
    decreases m
  {
    if m == 0 {
    } else {
      CopySplit(out + [out[|out| - dist]], m - 1, n, dist);
    }
  }

  class Window {
    const slide: array<byte>
    var wp: nat                // outcnt: bytes of slide not yet flushed
    var out: seq<byte>         // what flush_window wrote

    /** The window still holds the last WSIZE bytes that were flushed, where they are not overwritten. */
    ghost predicate Open()
      reads this, slide
    {
      && slide.Length == WSIZE
      && wp <= WSIZE
      && (|out| == 0 || |out| >= WSIZE)
      && (|out| > 0 ==> forall p :: wp <= p < WSIZE ==> slide[p] == out[|out| - WSIZE + p])
    }

    ghost predicate Valid()
      reads this, slide
    {
      Open() && wp < WSIZE
    }

    /** All output so far. */
    ghost function History(): (h: seq<byte>)
      requires Open()
      reads this, slide
      ensures |h| == |out| + wp
    {
      out + slide[..wp]
    }

    constructor (buffer: array<byte>)
      requires buffer.Length == WSIZE
      ensures Valid() && History() == [] && slide == buffer && wp == 0 && out == []
    {
      slide, wp, out := buffer, 0, [];
    }

    /** A full window is handed out, and writing begins at its start (inflate.c:574-578). */
    method FlushFull()
      requires Open()
      modifies this
      ensures Valid() && History() == old(History()) && wp == if old(wp) == WSIZE then 0 else old(wp)
    {
      if wp == WSIZE {
        out := out + slide[..wp];
        wp := 0;
      }
    }

    /** What is left in the window is handed out last (inflate.c:942). */
    method FlushLast()
      requires Valid()
      modifies this
      ensures out == old(History()) && wp == 0
    {
      if wp != 0 {
        out := out + slide[..wp];
        wp := 0;
      }
    }

    method Put(b: byte)
      requires Valid()
      modifies this, slide
      ensures Valid() && History() == old(History()) + [b]
    {
      Store(b);
      FlushFull();
    }

    /** A byte goes to the write position, which moves on. */
    method Store(b: byte)
      requires Valid()
      modifies this`wp, slide
      ensures Open() && History() == old(History()) + [b] && wp == old(wp) + 1
    {
      slide[wp] := b;
      wp := wp + 1;
    }

    /** Where the byte `dist` back lies in the window. */
    lemma Back(dist: nat)
      requires Open() && 1 <= dist <= WSIZE && dist <= |History()|
      ensures var d := Place(wp, dist);
              0 <= d < WSIZE && slide[d] == History()[|History()| - dist]
    {
    }

    /** The library copy (inflate.c:564): it goes forward, so each byte is fetched before its place is reused. */
    method MemCopy(d: nat, e: nat)
      requires Open() && d + e <= WSIZE && wp + e <= WSIZE
      modifies this`wp, slide
      ensures Open() && wp == old(wp) + e
      ensures History() == old(History()) + old(slide[d..d + e])
    {
      forall i | wp <= i < wp + e { slide[i] := slide[d + i - wp]; }
      wp := wp + e;
      assert slide[..old(wp)] == old(slide[..wp]);
      assert slide[old(wp)..wp] == old(slide[d..d + e]);
      assert slide[..wp] == slide[..old(wp)] + slide[old(wp)..wp];
    }

    /** The byte at index `d`, which lies `dist` bytes back, is written again. */
    method StoreBack(d: nat, ghost dist: nat)
      requires Open() && wp < WSIZE && 1 <= dist <= WSIZE && d == Place(wp, dist)
      modifies this`wp, slide
      ensures Open() && wp == old(wp) + 1 && out == old(out)
      ensures dist <= |old(History())| ==> History() == Copy(old(History()), 1, dist)
    {
      if dist <= |History()| {
        Back(dist);
        CopyOne(History(), dist);
      }
      Store(slide[d]);
    }

    /** The copy byte by byte, for ranges that overlap (inflate.c:570-573). */
    method SlowCopy(d0: nat, e0: nat, ghost dist: nat)
      requires Open() && 1 <= e0 && d0 + e0 <= WSIZE && wp + e0 <= WSIZE
      requires 1 <= dist <= WSIZE && d0 == Place(wp, dist)
      modifies this`wp, slide
      ensures Open() && wp == old(wp) + e0
      ensures dist <= |old(History())| ==> History() == Copy(old(History()), e0, dist)
    {
      var d, e := d0, e0;
      ghost var n, h0 := 0, History();
      while e > 0
        invariant n + e == e0 && Open() && wp == old(wp) + n && d == d0 + n && out == old(out)
        invariant dist <= |h0| ==> History() == Copy(h0, n, dist)
        decreases e
      {
        if dist <= |h0| { CopySplit(h0, n, 1, dist); }
        StoreBack(d, dist);
        d := d + 1;
        e := e - 1;
        n := n + 1;
      }
    }

    method FastCopy(d: nat, e: nat, ghost dist: nat)
      requires Valid() && d + e <= WSIZE && wp + e <= WSIZE && (d > wp || wp - d >= e)
      requires 1 <= dist <= WSIZE && d == Place(wp, dist)
      modifies this`wp, slide
      ensures Open() && wp == old(wp) + e
      ensures dist <= |old(History())| ==> History() == Copy(old(History()), e, dist)
    {
      ghost var h0 := History();
      if dist <= |h0| {
        BackRange(d, e, dist);
        CopyFar(h0, e, dist);
      }
      MemCopy(d, e);
    }

    /** One chunk: up to the end of the window for both pointers (inflate.c:560-578). */
    method Chunk(d: nat, e: nat, ghost dist: nat)
      requires Valid() && 1 <= e && d + e <= WSIZE && wp + e <= WSIZE
      requires 1 <= dist <= WSIZE && d == Place(wp, dist)
      modifies this, slide
      ensures Valid() && (d + e) % WSIZE == Place(wp, dist)
      ensures dist <= |old(History())| ==> History() == Copy(old(History()), e, dist)
    {
      // w - d >= e as unsigned numbers: also true when d is above w
      if d > wp || wp - d >= e {
        FastCopy(d, e, dist);
      } else {
        SlowCopy(d, e, dist);
      }
      NextOfCopy(wp, dist, d, e);
      FlushFull();
    }

    lemma BackRange(d: nat, e: nat, dist: nat)
      requires Valid() && d + e <= WSIZE && (d > wp || wp - d >= e)
      requires 1 <= dist <= WSIZE && d == Place(wp, dist)
      requires dist <= |History()|
      ensures e <= dist && slide[d..d + e] == History()[|History()| - dist..|History()| - dist + e]
    {
    }

    /** A match (inflate.c:559-579); its start index is computed with 32-bit unsigned wrap-around. */
    method CopyMatch(len: nat, dist: nat)
      requires Valid()
      modifies this, slide
      ensures Valid()
      ensures 1 <= dist <= WSIZE && dist <= |old(History())| ==> History() == Copy(old(History()), len, dist)
    {
      hide Copy, Place, Distance;
      var n := len;
      var d := (wp - dist) % 0x1_0000_0000;
      ghost var done, h0, back := 0, History(), Distance(wp, d % WSIZE);
      StartOfCopy(wp, dist, d);
      while n > 0
        invariant Valid() && 0 <= n && done + n == len && d % WSIZE == Place(wp, back) && d >= 0
        invariant back <= |h0| ==> History() == Copy(h0, done, back)
      {
        d := d % WSIZE;      // d &= WSIZE-1
        var e := WSIZE - (if d > wp then d else wp);
        if e > n { e := n; }
        n := n - e;
        if back <= |h0| { CopySplit(h0, done, e, back); }
        Chunk(d, e, back);
        d := d + e;
        done := done + e;
      }
    }
  }

  /** How far back window index `d` lies from position `w`. */
  function Distance(w: nat, d: nat): (r: nat)
    requires w < WSIZE && d < WSIZE
    ensures 1 <= r <= WSIZE && Place(w, r) == d
  {
    if d < w then w - d else w - d + WSIZE
  }

  /** The index of the byte `dist` back from window position `w`. */
  function Place(w: nat, dist: nat): int {
    if dist <= w then w - dist else w - dist + WSIZE
  }

  lemma StartOfCopy(w: nat, dist: nat, d: int)
    requires w < WSIZE && d == (w - dist) % 0x1_0000_0000
    ensures 0 <= d && d % WSIZE < WSIZE
    ensures 1 <= dist <= WSIZE ==> Distance(w, d % WSIZE) == dist
  {
  }

  lemma NextOfCopy(w: nat, dist: nat, d: nat, e: nat)
    requires e <= w <= WSIZE && 1 <= dist <= WSIZE && d == Place(w - e, dist) && d + e <= WSIZE
    ensures (d + e) % WSIZE == Place(if w == WSIZE then 0 else w, dist)
  {
  }

  lemma CopyOne(out: seq<byte>, dist: nat)
    requires 1 <= dist <= |out|
    ensures Copy(out, 1, dist) == out + [out[|out| - dist]]
  {
    assert Copy(out + [out[|out| - dist]], 0, dist) == out + [out[|out| - dist]];
  }
}
