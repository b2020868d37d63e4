/** fill_window and lm_init (deflate.c:285-338, 512-560): the window against the data of the file. */
module FillWindow {
  import opened Bitstring
  import opened Hash
  import opened OutputWindow
  import opened HashChains

  /** window[0] is byte `base` of the data, and everything up to the lookahead is in place. */
  ghost predicate Loaded(z: Lz, data: seq<byte>, base: nat) {
    && |z.window| == MEMORY && z.strstart + z.lookahead <= WINDOW_SIZE
    && base + z.strstart + z.lookahead == z.isize <= |data|
    && (forall i :: 0 <= i < z.strstart + z.lookahead ==> z.window[i] == data[base + i])
    && (z.eofile ==> z.isize == |data| && z.strstart + z.lookahead <= 65534)
  }

  /** All strings of the dictionary are data that are there, unless the file has ended. */
  ghost predicate Within(z: Lz, on: set<nat>) {
    !z.eofile ==> forall p :: p in on ==> p + 2 < z.strstart + z.lookahead
  }

  /** The state between two steps of the loops. */
  ghost predicate Ready(z: Lz, data: seq<byte>, base: nat, on: set<nat>) {
    && Loaded(z, data, base) && Chained(z.window, z.prev, z.head, on, z.strstart) && Within(z, on)
    && z.blockStart <= z.strstart && base + z.blockStart >= 0
  }

  /** Once the window has moved, everything in reach lies behind its first byte. */
  ghost predicate Anchored(z: Lz, base: nat) {
    base > 0 ==> z.strstart >= MAX_DIST
  }

  /** Positions in the file stay the same. */
  ghost predicate SameFile(z: Lz, base: nat, z': Lz, base': nat) {
    && base' + z'.strstart == base + z.strstart && base' + z'.blockStart == base + z.blockStart
    && base' + z'.matchStart == base + z.matchStart && z'.lookahead >= z.lookahead
  }

  /** read_buf: any number of bytes that are left, and none only at the end of the file. */
  method ReadBuf(data: seq<byte>, from: nat, size: nat) returns (n: nat)
    requires from <= |data| && size > 0
    ensures n <= size && from + n <= |data| && (n == 0 <==> from == |data|)
  {
    ghost var all := if |data| - from < size then |data| - from else size;
    assert all <= size && from + all <= |data| && (all == 0 <==> from == |data|);
    n :| n <= size && from + n <= |data| && (n == 0 <==> from == |data|);
  }

  method MoveDown(a: seq<nat>) returns (b: seq<nat>)
    ensures AllDown(a, b)
  {
    b := a;
    var n := 0;
    while n < |a|
      invariant 0 <= n <= |a| == |b|
      invariant forall k :: 0 <= k < n ==> b[k] == Down(a[k])
      invariant forall k :: n <= k < |a| ==> b[k] == a[k]
    {
      var m := b[n];
      b := b[n := if m >= WSIZE then m - WSIZE else 0];
      n := n + 1;
    }
  }

  /** The younger half of the window replaces the older one (deflate.c:526-549). */
  method Slide(z: Lz, ghost data: seq<byte>, ghost base: nat, ghost on: set<nat>) returns (z': Lz)
    requires Ready(z, data, base, on) && !z.eofile && z.strstart >= WSIZE + MAX_DIST
    ensures Ready(z', data, base + WSIZE, SlidOn(on)) && SameFile(z, base, z', base + WSIZE)
    ensures !z'.eofile && z'.lookahead == z.lookahead && z'.strstart == z.strstart - WSIZE
    ensures z'.insH == z.insH && z'.window == Slid(z.window)
  {
    hide HashAt, LinkOk, HeadOk, SlidOn;
    var head := MoveDown(z.head);
    var prev := MoveDown(z.prev);
    SlideKeeps(z.window, z.prev, z.head, prev, head, on, z.strstart);
    z' := z.(window := z.window[WSIZE..WINDOW_SIZE] + z.window[WSIZE..], matchStart := z.matchStart - WSIZE,
             strstart := z.strstart - WSIZE, blockStart := z.blockStart - WSIZE, head := head, prev := prev);
    SlideFits(z, z', data, base, on);
  }

  lemma SlideFits(z: Lz, z': Lz, data: seq<byte>, base: nat, on: set<nat>)
    requires Loaded(z, data, base) && Within(z, on) && !z.eofile && WSIZE <= z.strstart
    requires z'.window == Slid(z.window) && z'.strstart == z.strstart - WSIZE && z'.lookahead == z.lookahead &&
             !z'.eofile && z'.isize == z.isize
    ensures Loaded(z', data, base + WSIZE) && Within(z', SlidOn(on))
  {
    forall i | 0 <= i < z'.strstart + z'.lookahead
      ensures z'.window[i] == data[base + WSIZE + i]
    {
      assert z'.window[i] == z.window[i + WSIZE];
    }
  }

  lemma SlidPrimed(insH: nat, window: seq<byte>, s: nat)
    requires |window| == MEMORY && WSIZE <= s && s + 1 < WINDOW_SIZE && Primed(insH, window, s)
    ensures Primed(insH, Slid(window), s - WSIZE)
  {
    hide Update;
  }

  /** The window with `n` bytes of the file behind the lookahead. */
  function Appended(z: Lz, data: seq<byte>, n: nat): (r: seq<byte>)
    requires |z.window| == MEMORY && z.strstart + z.lookahead + n <= WINDOW_SIZE && z.isize + n <= |data|
    ensures |r| == MEMORY
  {
    var end := z.strstart + z.lookahead;
    z.window[..end] + data[z.isize..z.isize + n] + z.window[end + n..]
  }

  /** deflate.c:552-559 */
  method ReadMore(z: Lz, data: seq<byte>, more: nat, ghost base: nat, ghost on: set<nat>) returns (z': Lz)
    requires Ready(z, data, base, on) && !z.eofile && 1 <= more && z.strstart + z.lookahead + more <= WINDOW_SIZE &&
             z.strstart + z.lookahead <= 65534
    ensures Ready(z', data, base, on) && SameFile(z, base, z', base) && z'.strstart == z.strstart && z'.insH == z.insH
    ensures z'.eofile || z'.lookahead > z.lookahead
    ensures z.lookahead >= 2 && Primed(z.insH, z.window, z.strstart) ==> Primed(z'.insH, z'.window, z'.strstart)
  {
    hide HashAt, Primed, Chained;
    var n := ReadBuf(data, z.isize, more);
    if n == 0 {
      z' := z.(eofile := true);
    } else {
      z' := z.(window := Appended(z, data, n), lookahead := z.lookahead + n, isize := z.isize + n);
      ReadKeeps(z.window, z'.window, z.prev, z.head, on, z.strstart, z.strstart + z.lookahead);
      if z.lookahead >= 2 && Primed(z.insH, z.window, z.strstart) {
        SamePrimed(z.insH, z.window, z'.window, z.strstart);
      }
    }
  }

  lemma SamePrimed(insH: nat, window: seq<byte>, window': seq<byte>, s: nat)
    requires Primed(insH, window, s) && |window'| == |window| && window'[s] == window[s] &&
             window'[s + 1] == window[s + 1]
    ensures Primed(insH, window', s)
  {
    hide Update;
  }

  /** fill_window */
  method Fill(z: Lz, data: seq<byte>, ghost base: nat, ghost on: set<nat>)
    returns (z': Lz, ghost base': nat, ghost on': set<nat>)
    requires Ready(z, data, base, on) && !z.eofile && 1 <= z.lookahead < MIN_LOOKAHEAD
    ensures Ready(z', data, base', on') && SameFile(z, base, z', base') && z'.strstart < WSIZE + MAX_DIST
    ensures (z'.eofile || z'.lookahead > z.lookahead) && (z.strstart >= 1 ==> z'.strstart >= 1)
    ensures if z.strstart >= WSIZE + MAX_DIST then on' == SlidOn(on) && z'.strstart == z.strstart - WSIZE
            else on' == on && z'.strstart == z.strstart && base' == base
    ensures z.lookahead >= 2 && Primed(z.insH, z.window, z.strstart) ==> Primed(z'.insH, z'.window, z'.strstart)
  {
    hide HashAt, LinkOk, HeadOk, SlidOn, Primed, Chained, Within;
    z', base', on' := z, base, on;
    var more := WINDOW_SIZE - z.lookahead - z.strstart;
    if z.strstart >= WSIZE + MAX_DIST {
      z' := Slide(z, data, base, on);
      base', on' := base + WSIZE, SlidOn(on);
      more := more + WSIZE;
      if z.lookahead >= 2 && Primed(z.insH, z.window, z.strstart) { SlidPrimed(z.insH, z.window, z.strstart); }
    }
    z' := ReadMore(z', data, more, base', on');
  }

  /** The loop that keeps enough lookahead (deflate.c:331, 646 and 754). */
  method FillUp(z: Lz, data: seq<byte>, ghost base: nat, ghost on: set<nat>)
    returns (z': Lz, ghost base': nat, ghost on': set<nat>)
    requires Ready(z, data, base, on) && (!z.eofile ==> z.lookahead >= 1)
    ensures Ready(z', data, base', on') && SameFile(z, base, z', base') && (z'.eofile || z'.lookahead >= MIN_LOOKAHEAD)
    ensures (z.strstart >= 1 ==> z'.strstart >= 1) && (Filled(on, z.strstart) ==> Filled(on', z'.strstart))
    ensures z.lookahead >= 2 && Primed(z.insH, z.window, z.strstart) ==> Primed(z'.insH, z'.window, z'.strstart)
    ensures Anchored(z, base) ==> Anchored(z', base')
    ensures z.eofile ==> z' == z && base' == base && on' == on
  {
    hide HashAt, Primed, Chained, Within, Loaded, Filled, SlidOn;
    z', base', on' := z, base, on;
    while z'.lookahead < MIN_LOOKAHEAD && !z'.eofile
      invariant Ready(z', data, base', on') && SameFile(z, base, z', base') && (!z'.eofile ==> z'.lookahead >= 1)
      invariant z.lookahead >= 2 && Primed(z.insH, z.window, z.strstart) ==> Primed(z'.insH, z'.window, z'.strstart)
      invariant (z.strstart >= 1 ==> z'.strstart >= 1) && (Filled(on, z.strstart) ==> Filled(on', z'.strstart))
      invariant Anchored(z, base) ==> Anchored(z', base')
      invariant z.eofile ==> z' == z && base' == base && on' == on
      decreases !z'.eofile, MIN_LOOKAHEAD - z'.lookahead
    {
      if Filled(on', z'.strstart) && z'.strstart >= WSIZE { FilledSlide(on', z'.strstart); }
      z', base', on' := Fill(z', data, base', on');
    }
  }
}
