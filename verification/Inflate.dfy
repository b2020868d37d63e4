/** inflate.c: stored, fixed and dynamic blocks, and the loop over blocks. */
module Inflate {
  import opened Bitstring
  import opened BitIO
  import opened Codes
  import opened Huft
  import opened HuftSteps
  import opened HuftMain
  import opened HuftExact
  import opened Rfc1951
  import opened FixedCodes
  import opened OutputWindow
  import opened InflateCodes
  import opened InflateTrees

  // ---- which of the source's calls of huft_build are safe ----

  lemma {:induction false} FreeBelowCount(lens: seq<nat>, n: nat, g: nat)
    requires n <= g && Free(lens, g) >= 0
    ensures 0 <= Free(lens, n) <= Free(lens, g) + Offset(lens, g + 1) - Offset(lens, n + 1)
    decreases g - n
  {
    if n < g {
      FreeBelowCount(lens, n + 1, g);
      assert Free(lens, n + 1) == 2 * Free(lens, n) - Count(lens, n + 1);
      assert Offset(lens, n + 2) == Offset(lens, n + 1) + Count(lens, n + 1);
    }
  }

  /** Few symbols cannot overflow a table. */
  lemma SafeFew(lens: seq<nat>, g: nat, l: nat)
    requires Complete(lens, g) && 1 <= l && |lens| < Pow2(l - 1)
    ensures Safe(lens, g, l)
  {
    forall w: nat | 1 <= l <= w && w + l < g && MultipleOf(w, l)
      ensures Roomy(lens, w + l - 1, l)
    {
      FreeBelowCount(lens, w + l - 1, g);
      OffsetBound(lens, g + 1);
    }
  }

  /** Two levels always suffice when the longest code has at most 2l bits. */
  lemma SafeShallow(lens: seq<nat>, g: nat, l: nat)
    requires g <= 2 * l
    ensures Safe(lens, g, l)
  {
  }

  /** The calls with m = 7 for lengths up to 9, m = 9 for lengths up to 15, and m >= 6 for at most 31 distances. */
  lemma CallsSafe(b: seq<nat>, m: nat)
    requires 0 < MaxLen(b) && Free(b, MaxLen(b)) >= 0
    requires MaxLen(b) <= 2 * m || (m >= 6 && |b| < 32 && Free(b, MaxLen(b)) == 0) || MaxLen(b) == 1
    ensures Safe(Extend(b, MaxLen(b), Free(b, MaxLen(b))), MaxLen(b), TableBits(b, m))
  {
    hide TableBits, Extend, Safe;
    var g, l, y := MaxLen(b), TableBits(b, m), Free(b, MaxLen(b));
    BitsBounds(b, m);
    if g <= 2 * l {
      SafeShallow(Extend(b, g, y), g, l);
    } else {
      ExtendUsed(b, g, y, g);
      ExtendNone(b, g);
      FewIsFew(l);
      SafeFew(b, g, l);
    }
  }

  lemma BitsBounds(b: seq<nat>, m: nat)
    requires MaxLen(b) > 0
    ensures 1 <= TableBits(b, m) <= MaxLen(b) && (TableBits(b, m) < MaxLen(b) ==> m <= TableBits(b, m))
  {
    MinPositive(b);
  }

  lemma {:induction false} MinPositive(b: seq<nat>)
    ensures MaxLen(b) > 0 ==> MinLen(b) > 0
  {
    if |b| == 0 {
    } else {
      MinPositive(b[..|b| - 1]);
    }
  }

  lemma ExtendNone(b: seq<nat>, g: nat)
    ensures Extend(b, g, 0) == b
  {
  }

  lemma FewIsFew(l: nat)
    requires l >= 6
    ensures 32 <= Pow2(l - 1)
  {
    Pow2Mono(5, l - 1);
    Pow2Values();
  }

  lemma AcceptsIs(b: seq<nat>)
    ensures ResultOf(b) == if Accepts(b) then 0 else BadLengths(b)
  {
  }

  lemma BadNotZero(b: seq<nat>)
    ensures BadLengths(b) > 0
  {
  }

  /** huft_build for one of the trees of a block. */
  method BuildFor(b: seq<nat>, simple: nat, d: seq<nat>, e: seq<nat>, m: nat, vjunk: seq<nat>, junk: Huft)
    returns (result: nat, tables: seq<seq<Huft>>, l: nat, ghost v: seq<nat>, ghost sh: Shape)
    requires 1 <= |b| <= N_MAX == |vjunk| && (forall i :: 0 <= i < |b| ==> b[i] <= BMAX) && ListOk(e)
    requires MaxLen(b) <= 2 * m || (m >= 6 && |b| < 32)
    ensures result == ResultOf(b) && (MaxLen(b) == 0 ==> tables == [])
    ensures MaxLen(b) > 0 ==> l == TableBits(b, m)
    ensures MaxLen(b) > 0 && (result == 0 || (result == 1 && MaxLen(b) <= 2 * m)) ==>
              TreeFor(b, simple, d, e, tables, l, v, sh)
  {
    hide AllCells, Extra, SetOf, Safe, Exact;
    result, tables, l, v, sh := BuildTables(b, simple, d, e, m, vjunk, junk);
    MaxLenAtMost(b, BMAX);
    if MaxLen(b) > 0 && (result == 0 || (result == 1 && MaxLen(b) <= 2 * m)) {
      CallsSafe(b, m);
      SetLens(b, l, v, simple, d, e);
      SafeIsExact(SetOf(b, l, v, simple, d, e), tables, sh, junk);
    }
  }

  lemma SetLens(b: seq<nat>, l: nat, v: seq<nat>, simple: nat, d: seq<nat>, e: seq<nat>)
    requires |b| <= |v| && Free(b, MaxLen(b)) >= 0
    ensures var cs := SetOf(b, l, v, simple, d, e);
            cs.lens == Extend(b, MaxLen(b), Free(b, MaxLen(b))) && cs.g == MaxLen(b) && cs.l == l
  {
  }

  // ---- stored blocks ----

  lemma PadIsBuffer(inptr: nat, bk: nat, pos: int)
    requires pos == 8 * inptr - bk
    ensures bk % 8 == (8 - pos % 8) % 8
  {
  }

  lemma SkipEight(bits: seq<bool>, k: nat)
    requires k + 16 <= |bits|
    ensures bits[8..][k..k + 8] == bits[k + 8..k + 16]
  {
  }

  lemma {:induction false} RefBytesSnoc(bits: seq<bool>, n: nat)
    requires |bits| >= 8 * n + 8
    ensures ValOf(bits[8 * n..8 * n + 8]) < 256
    ensures RefBytes(bits, n + 1) == RefBytes(bits, n) + [ValOf(bits[8 * n..8 * n + 8])]
  {
    hide ValOf;
    Pow2Values();
    if n > 0 {
      RefBytesSnoc(bits[8..], n - 1);
      SkipEight(bits, 8 * n - 8);
    } else {
      assert bits[0..8] == bits[..8];
    }
  }

  /** One data byte of a stored block: it follows the `i` bytes copied before. */
  method StoredByte(rd: BitReader, win: Window, ghost bits: seq<bool>, ghost i: nat,
                    ghost was: seq<byte>) returns (ok: bool)
    requires rd.Valid() && win.Valid()
    requires |bits| >= 8 * i && rd.Rest() == bits[8 * i..] && win.History() == was + RefBytes(bits, i)
    modifies rd`inptr, rd`bb, rd`bk, win, win.slide
    ensures rd.Valid() && win.Valid()
    ensures ok == (|bits| >= 8 * i + 8)
    ensures ok ==> rd.Rest() == bits[8 * i + 8..] && win.History() == was + RefBytes(bits, i + 1)
  {
    hide RefBytes, ValOf, Pow2, BitsOf, BytesBits;
    var b;
    ok, b := rd.GetBits(8);
    if !ok { return; }
    RefBytesSnoc(bits, i);
    SliceSlice(bits, 8 * i, 8);
    win.Put(b);
    ConcatAssoc(was, RefBytes(bits, i), [b]);
  }

  /** The data bytes of a stored block (inflate.c:626-636). */
  method CopyStored(rd: BitReader, win: Window, n0: nat) returns (ok: bool)
    requires rd.Valid() && win.Valid()
    modifies rd`inptr, rd`bb, rd`bk, win, win.slide
    ensures rd.Valid() && win.Valid()
    ensures ok == (|old(rd.Rest())| >= 8 * n0)
    ensures ok ==>
              rd.Rest() == old(rd.Rest())[8 * n0..] &&
              win.History() == old(win.History()) + RefBytes(old(rd.Rest()), n0)
  {
    var n := n0;
    ghost var bits, i := rd.Rest(), 0;
    assert RefBytes(bits, 0) == [];
    hide RefBytes, BitsOf, BytesBits;
    while n > 0
      invariant rd.Valid() && win.Valid() && i + n == n0 && |bits| >= 8 * i
      invariant rd.Rest() == bits[8 * i..] && win.History() == old(win.History()) + RefBytes(bits, i)
      decreases n
    {
      n := n - 1;
      ok := StoredByte(rd, win, bits, i, old(win.History()));
      if !ok { return; }
      i := i + 1;
    }
    ok := true;
  }

  /** The rest of the current byte is dropped (inflate.c:611-612). */
  method ToByte(rd: BitReader)
    requires rd.Valid()
    modifies rd`bb, rd`bk
    ensures var pad := (8 - old(rd.Pos()) % 8) % 8;
            rd.Valid() && pad <= |old(rd.Rest())| && rd.Rest() == old(rd.Rest())[pad..]
  {
    hide BitsOf, BytesBits, Pow2;
    var n := rd.bk % 8;
    PadIsBuffer(rd.inptr, rd.bk, rd.Pos());
    rd.DumpBits(n);
  }

  /** The pad bits, the length and its complement (inflate.c:611-622). */
  method StoredHeader(rd: BitReader) returns (ok: bool, n: nat, c: nat)
    requires rd.Valid()
    modifies rd`inptr, rd`bb, rd`bk
    ensures rd.Valid()
    ensures var bits, pad := old(rd.Rest()), (8 - old(rd.Pos()) % 8) % 8;
            && ok == (|bits| >= pad + 32)
            && (ok ==> && n == ValOf(bits[pad..pad + 16]) && c == ValOf(bits[pad + 16..pad + 32]) <= 65535
                       && rd.Rest() == bits[pad + 32..])
  {
    hide ValOf;
    ghost var bits, pad := rd.Rest(), (8 - rd.Pos() % 8) % 8;
    ToByte(rd);
    c := 0;
    ok, n := rd.GetBits(16);
    if !ok { return; }
    SliceSlice(bits, pad, 16);
    ok, c := rd.GetBits(16);
    if !ok { return; }
    SliceSlice(bits, pad + 16, 16);
    Pow2Values();
  }

  lemma SliceSlice(bits: seq<bool>, a: nat, n: nat)
    requires a + n <= |bits|
    ensures bits[a..][..n] == bits[a..a + n] && bits[a..][n..] == bits[a + n..]
  {
  }

  /** inflate_stored */
  method InflateStored(rd: BitReader, win: Window) returns (st: Status)
    requires rd.Valid() && win.Valid()
    modifies rd`inptr, rd`bb, rd`bk, win, win.slide
    ensures rd.Valid() && win.Valid()
    ensures Agrees(RefStored(old(win.History()), old(rd.Rest()), (8 - old(rd.Pos()) % 8) % 8), st, win.History(),
                   rd.Rest())
    ensures st == Ok ==> |rd.Rest()| <= |old(rd.Rest())|
  {
    ghost var bits, out, pad := rd.Rest(), win.History(), (8 - rd.Pos() % 8) % 8;
    var ok, n, c := StoredHeader(rd);
    if !ok { return Eof; }
    if n != 65535 - c { return Error(1); }
    ok := CopyStored(rd, win, n);
    if !ok { return Eof; }
    SliceSlice(bits, pad + 32, 8 * n);
    return Ok;
  }

  // ---- fixed codes ----

  /** What memory holds that nobody wrote: the array v of huft_build, and a fresh table cell. */
  method Uninitialised() returns (v: seq<nat>, x: Huft)
    ensures |v| == N_MAX
  {
    v, x := Repeat(0, N_MAX), Huft(0, 0, 0);
  }

  /** inflate.c:662-669 */
  method FixedLengths() returns (l: seq<nat>)
    ensures l == FixedLits()
  {
    l := [];
    while |l| < 144
      invariant |l| <= 144 && forall s :: 0 <= s < |l| ==> l[s] == FixedLen(s)
    {
      l := l + [8];
    }
    while |l| < 256
      invariant 144 <= |l| <= 256 && forall s :: 0 <= s < |l| ==> l[s] == FixedLen(s)
    {
      l := l + [9];
    }
    while |l| < 280
      invariant 256 <= |l| <= 280 && forall s :: 0 <= s < |l| ==> l[s] == FixedLen(s)
    {
      l := l + [7];
    }
    while |l| < 288
      invariant 280 <= |l| <= 288 && forall s :: 0 <= s < |l| ==> l[s] == FixedLen(s)
    {
      l := l + [8];
    }
  }

  lemma FixedResults()
    ensures MaxLen(FixedLits()) == 9 && ResultOf(FixedLits()) == 0
    ensures MaxLen(FixedDists()) == 5 && ResultOf(FixedDists()) == 1
  {
    FixedComplete();
  }

  lemma ExtraLists()
    ensures ListOk(CPLEXT) && ListOk(DIST_EXTRA)
  {
  }

  /** The trees of inflate_fixed (inflate.c:662-684). */
  method FixedTrees()
    returns (i: nat, tl: seq<seq<Huft>>, td: seq<seq<Huft>>, bl: nat, bd: nat, ghost vl: seq<nat>,
             ghost vd: seq<nat>, ghost shl: Shape, ghost shd: Shape)
    ensures i <= 1 && LitTree(FixedLits(), tl, bl, vl, shl) && DistTree(FixedDists(), td, bd, vd, shd)
  {
    hide TreeFor, ListOk, ResultOf, TableBits;
    FixedResults();
    ExtraLists();
    td, bd, vd, shd := [], 0, [], Shape([], [], []);
    var l := FixedLengths();
    var vjunk, junk := Uninitialised();
    i, tl, bl, vl, shl := BuildFor(l, 257, CPLENS, CPLEXT, 7, vjunk, junk);
    if i != 0 { return; }
    l := Append([], 5, 30);
    assert l == FixedDists();
    vjunk, junk := Uninitialised();
    i, td, bd, vd, shd := BuildFor(l, 0, DIST_BASE, DIST_EXTRA, 5, vjunk, junk);
  }

  /** inflate_fixed */
  method InflateFixed(rd: BitReader, win: Window) returns (st: Status)
    requires rd.Valid() && win.Valid()
    modifies rd`inptr, rd`bb, rd`bk, win, win.slide
    ensures rd.Valid() && win.Valid()
    ensures Agrees(RefCodes(FixedLits(), FixedDists(), old(win.History()), old(rd.Rest())), st, win.History(),
                   rd.Rest())
    ensures st == Ok ==> |rd.Rest()| <= |old(rd.Rest())|
  {
    hide LitTree, DistTree, RefCodes;
    ghost var vl, shl, vd, shd;
    var i, tl, td, bl, bd;
    i, tl, td, bl, bd, vl, vd, shl, shd := FixedTrees();
    if i > 1 { return Error(i); }
    st := DecodeBlock(rd, win, tl, td, bl, bd, FixedLits(), FixedDists(), vl, vd, shl, shd);
  }

  // ---- dynamic codes ----

  /** The two trees of a dynamic block (inflate.c:823-847); `i` is the error code of huft_build. */
  method DynamicTrees(ll: seq<nat>, dl: seq<nat>)
    returns (i: nat, tl: seq<seq<Huft>>, td: seq<seq<Huft>>, bl: nat, bd: nat,
             ghost vl: seq<nat>, ghost vd: seq<nat>, ghost shl: Shape, ghost shd: Shape)
    requires 1 <= |ll| <= 286 && 1 <= |dl| <= 30
    requires (forall s :: 0 <= s < |ll| ==> ll[s] <= 15) && forall s :: 0 <= s < |dl| ==> dl[s] <= 15
    ensures i == if !Accepts(ll) then BadLengths(ll) else if !Accepts(dl) then BadLengths(dl) else 0
    ensures i == 0 ==> if MaxLen(ll) == 0 then tl == [] else LitTree(ll, tl, bl, vl, shl)
    ensures i == 0 ==> DistTree(dl, td, bd, vd, shd)
  {
    hide TreeFor, ListOk, ResultOf, TableBits, Accepts, BadLengths;
    BadNotZero(ll);
    MaxLenAtMost(ll, 15);
    AcceptsIs(ll);
    AcceptsIs(dl);
    ExtraLists();
    td, bd, vd, shd := [], 0, [], Shape([], [], []);
    var vjunk, junk := Uninitialised();
    i, tl, bl, vl, shl := BuildFor(ll, 257, CPLENS, CPLEXT, 9, vjunk, junk);
    if i != 0 { return; }
    vjunk, junk := Uninitialised();
    i, td, bd, vd, shd := BuildFor(dl, 0, DIST_BASE, DIST_EXTRA, 6, vjunk, junk);
  }

  /** inflate.c:823-858, when the code lengths are there. */
  method InflateLengths(rd: BitReader, win: Window, ll: seq<nat>, nl: nat) returns (st: Status)
    requires rd.Valid() && win.Valid() && 1 <= nl <= 286 && 1 <= |ll| - nl <= 30 &&
             forall s :: 0 <= s < |ll| ==> ll[s] <= 15
    modifies rd`inptr, rd`bb, rd`bk, win, win.slide
    ensures rd.Valid() && win.Valid()
    ensures Agrees(RefTrees(ll, nl, old(win.History()), old(rd.Rest())), st, win.History(), rd.Rest())
    ensures st == Ok ==> |rd.Rest()| <= |old(rd.Rest())|
  {
    hide LitTree, DistTree, RefCodes, Accepts, BadLengths;
    BadNotZero(ll[..nl]);
    BadNotZero(ll[nl..]);
    ghost var vl, shl, vd, shd;
    var i, tl, td, bl, bd;
    i, tl, td, bl, bd, vl, vd, shl, shd := DynamicTrees(ll[..nl], ll[nl..]);
    if i != 0 { return Error(i); }
    if |tl| == 0 {
      LitNotNull(ll[..nl], tl, bl, vl, shl);
      return Crash;
    }
    st := DecodeBlock(rd, win, tl, td, bl, bd, ll[..nl], ll[nl..], vl, vd, shl, shd);
  }

  lemma LitNotNull(ll: seq<nat>, tl: seq<seq<Huft>>, bl: nat, v: seq<nat>, sh: Shape)
    requires |tl| == 0
    ensures !LitTree(ll, tl, bl, v, sh)
  {
  }

  /** The tree for the code lengths (inflate.c:757-763). */
  method LengthCodeTree(cl: seq<nat>) returns (i: nat, tl: seq<seq<Huft>>, bl: nat, ghost v: seq<nat>, ghost sh: Shape)
    requires |cl| == 19 && forall p :: 0 <= p < 19 ==> cl[p] <= 7
    ensures i == if Accepts(cl) then 0 else BadLengths(cl)
    ensures i == 0 ==> if MaxLen(cl) == 0 then tl == [] else tl != [] && LengthTree(cl, tl, bl, v, sh)
  {
    hide ListOk, ResultOf, Accepts, BadLengths;
    BadNotZero(cl);
    MaxLenAtMost(cl, 7);
    AcceptsIs(cl);
    NoList();
    var vjunk, junk := Uninitialised();
    i, tl, bl, v, sh := BuildFor(cl, 19, [], [], 7, vjunk, junk);
  }

  lemma NoList()
    ensures ListOk([])
  {
  }

  /** inflate.c:757-858, when the lengths of the code length code are there. */
  method InflateCoded(rd: BitReader, win: Window, cl: seq<nat>, nl: nat, nd: nat) returns (st: Status)
    requires rd.Valid() && win.Valid() && 1 <= nl <= 286 && 1 <= nd <= 30
    requires |cl| == 19 && forall p :: 0 <= p < 19 ==> cl[p] <= 7
    modifies rd`inptr, rd`bb, rd`bk, win, win.slide
    ensures rd.Valid() && win.Valid()
    ensures Agrees(RefCoded(cl, nl, nd, old(win.History()), old(rd.Rest())), st, win.History(), rd.Rest())
    ensures st == Ok ==> |rd.Rest()| <= |old(rd.Rest())|
  {
    hide LengthTree, RefTrees, RefLengths, Accepts, BadLengths;
    BadNotZero(cl);
    ghost var v, sh;
    ghost var bits, out := rd.Rest(), win.History();
    var i, tl, bl;
    i, tl, bl, v, sh := LengthCodeTree(cl);
    if i != 0 { return Error(i); }
    if |tl| == 0 { return Crash; }
    var ll;
    st, ll := ReadLengths(rd, tl, bl, nl + nd, cl, v, sh);
    if st != Ok { return; }
    st := InflateLengths(rd, win, ll, nl);
  }

  /** inflate.c:729-743 */
  method DynamicHeader(rd: BitReader) returns (ok: bool, nl: nat, nd: nat, nb: nat)
    requires rd.Valid()
    modifies rd`inptr, rd`bb, rd`bk
    ensures rd.Valid()
    ensures var bits := old(rd.Rest());
            && ok == (|bits| >= 14)
            && (ok ==> && nl == 257 + ValOf(bits[..5]) && nd == 1 + ValOf(bits[5..10])
                       && nb == 4 + ValOf(bits[10..14]) <= 19
                       && rd.Rest() == bits[14..])
  {
    ghost var bits := rd.Rest();
    nd, nb := 0, 0;
    ok, nl := rd.GetBits(5);
    if !ok { return; }
    ok, nd := rd.GetBits(5);
    if !ok { return; }
    SliceSlice(bits, 5, 5);
    ok, nb := rd.GetBits(4);
    if !ok { return; }
    SliceSlice(bits, 10, 4);
    Pow2Values();
    nl, nd, nb := 257 + nl, 1 + nd, 4 + nb;
  }

  /** inflate_dynamic */
  method InflateDynamic(rd: BitReader, win: Window) returns (st: Status)
    requires rd.Valid() && win.Valid()
    modifies rd`inptr, rd`bb, rd`bk, win, win.slide
    ensures rd.Valid() && win.Valid()
    ensures Agrees(RefDynamic(old(win.History()), old(rd.Rest())), st, win.History(), rd.Rest())
    ensures st == Ok ==> |rd.Rest()| <= |old(rd.Rest())|
  {
    hide RefCoded, RefOrder, ValOf, BitsOf, BytesBits, Pow2;
    ghost var bits := rd.Rest();
    var ok, nl, nd, nb := DynamicHeader(rd);
    if !ok { return Eof; }
    if nl > 286 || nd > 30 { return Error(1); }
    var junk, x := Uninitialised();
    var cl;
    ok, cl := ReadOrder(rd, nb, junk[..19]);
    if !ok { return Eof; }
    SliceSlice(bits, 14, 3 * nb);
    st := InflateCoded(rd, win, cl, nl, nd);
  }

  // ---- blocks ----

  /** inflate_block; `last` is the flag it stores. */
  method InflateBlock(rd: BitReader, win: Window) returns (st: Status, last: bool)
    requires rd.Valid() && win.Valid()
    modifies rd`inptr, rd`bb, rd`bk, win, win.slide
    ensures rd.Valid() && win.Valid()
    ensures var bits := old(rd.Rest());
            if |bits| < 3 then st == Eof
            else
              && (st == Ok ==> |rd.Rest()| < |bits|)
              && last == bits[0]
              && Agrees(RefBody(ValOf(bits[1..3]), old(win.History()), bits[3..], old(rd.Pos()) + 3), st,
                        win.History(), rd.Rest())
  {
    hide RefDynamic, RefStored, RefCodes, BitsOf, BytesBits;
    ghost var bits := rd.Rest();
    last := false;
    var ok, e := rd.GetBits(1);
    if !ok { return Eof, last; }
    var t;
    last := e == 1;
    ok, t := rd.GetBits(2);
    if !ok { return Eof, last; }
    SliceSlice(bits, 1, 2);
    if t == 2 {
      st := InflateDynamic(rd, win);
    } else if t == 0 {
      st := InflateStored(rd, win);
    } else if t == 1 {
      st := InflateFixed(rd, win);
    } else {
      st := Error(2);
    }
  }

  /** One block of the reference decoder, and what follows it. */
  lemma StreamStep(out: seq<byte>, bits: seq<bool>, pos: nat, st: Status, out': seq<byte>, rest: seq<bool>)
    requires |bits| >= 3 && Agrees(RefBody(ValOf(bits[1..3]), out, bits[3..], pos + 3), st, out', rest)
    ensures var r := RefStream(out, bits, pos);
            if st != Ok then Stops(r, st)
            else r.Undefined? || r == if bits[0] then Done(out', rest) else RefStream(out', rest, pos + |bits| - |rest|)
  {
    hide RefBody, ValOf;
  }

  lemma StreamShort(out: seq<byte>, bits: seq<bool>, pos: nat)
    requires |bits| < 3
    ensures Stops(RefStream(out, bits, pos), Eof)
  {
  }

  /** The loop over the blocks (inflate.c:924-931). */
  method InflateBlocks(rd: BitReader, win: Window) returns (st: Status)
    requires rd.Valid() && win.Valid()
    modifies rd`inptr, rd`bb, rd`bk, win, win.slide
    ensures rd.Valid() && win.Valid()
    ensures Agrees(RefStream(old(win.History()), old(rd.Rest()), old(rd.Pos())), st, win.History(), rd.Rest())
    ensures st == Ok ==> |rd.Rest()| < |old(rd.Rest())|
  {
    hide RefStream, RefBody, Stops, ValOf;
    ghost var r := RefStream(win.History(), rd.Rest(), rd.Pos());
    while true
      invariant rd.Valid() && win.Valid() && |rd.Rest()| <= |old(rd.Rest())|
      invariant r.Undefined? || r == RefStream(win.History(), rd.Rest(), rd.Pos())
      decreases |rd.Rest()|
    {
      ghost var out, bits, pos := win.History(), rd.Rest(), rd.Pos();
      ghost var here := RefStream(out, bits, pos);
      var last;
      st, last := InflateBlock(rd, win);
      if |bits| < 3 {
        StreamShort(out, bits, pos);
      } else {
        StreamStep(out, bits, pos, st, win.History(), rd.Rest());
      }
      if st != Ok {
        StopsHere(r, here, st);
        return;
      }
      if last { return; }
    }
  }

  /** The reference result for the stream that starts at byte `start` of the file. */
  ghost function RefFile(file: seq<byte>, start: nat): Outcome
    requires start <= |file|
  {
    RefStream([], BytesBits(file)[8 * start..], 8 * start)
  }

  /** inflate(): on success all bytes are written, and the input stands behind the last byte that was used. */
  method InflateAll(rd: BitReader, win: Window) returns (st: Status)
    requires rd.inptr <= |rd.input| && win.slide.Length == WSIZE && win.out == []
    modifies rd`inptr, rd`bb, rd`bk, win, win.slide
    ensures st == Ok ==> var r := RefFile(rd.input, old(rd.inptr));
                         r.Undefined? || (r.Done? && win.out == r.out && rd.inptr == |rd.input| - |r.rest| / 8)
    ensures st == Ok ==> old(rd.inptr) < rd.inptr <= |rd.input|
    ensures st != Ok ==> Stops(RefFile(rd.input, old(rd.inptr)), st)
  {
    hide RefStream, Stops;
    win.wp, rd.bk, rd.bb := 0, 0, 0;
    assert BitsOf(0, 0) == BytesBits(rd.input)[8 * rd.inptr..8 * rd.inptr];
    st := InflateBlocks(rd, win);
    if st != Ok { return; }
    ghost var pos, rest := rd.Pos(), rd.Rest();
    rd.ReturnLookahead();
    win.FlushLast();
    BytesLeft(rd.inptr, |rd.input|, pos, |rest|);
  }

  lemma BytesLeft(inptr: nat, size: nat, pos: nat, rest: nat)
    requires inptr == (pos + 7) / 8 && rest == 8 * size - pos
    ensures inptr == size - rest / 8
  {
  }
}
