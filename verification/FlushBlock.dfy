/** The compressor's side of trees.c as one object: ct_init, ct_tally and flush_block. */
module FlushBlock {
  import opened Bitstring
  import opened BitIO
  import opened Codes
  import opened Rfc1951
  import opened TokenCode
  import opened TreeCode
  import opened TreeSend
  import opened DynamicCode
  import opened TallyBuffers
  import opened StaticTables
  import opened CompressBlock
  import opened BlockMeaning
  import opened BlockStop
  import opened BlockTrees
  import opened DynamicSend

  lemma StaticTabled(fc: seq<nat>, lens: seq<nat>)
    requires StaticTree(fc, lens) && Small(lens)
    ensures CodeTable(fc, lens, lens)
  {
  }

  lemma FixedSmall()
    ensures Small(FixedLits()) && Small(FixedDists())
  {
  }

  /** The block is sent with the static trees (trees.c:931-933). */
  method SendStatic(w: BitWriter, B: Buffers, T: Tables, slc: seq<nat>, sdc: seq<nat>, eof: bool, ghost ts: seq<Token>,
                    ghost buf: Option<seq<byte>>)
    returns (ghost bk: seq<bool>)
    requires w.Valid() && TablesOk(T) && Stored(B, ts) && StaticTree(slc, FixedLits()) && StaticTree(sdc, FixedDists())
    requires AllCoded(FixedLits(), FixedDists(), ts) && FixedLits()[END_BLOCK] > 0
    modifies w
    ensures w.Valid() && w.Bits() == old(w.Bits()) + bk && BlockOf(bk, |old(w.Bits())|, eof, ts, buf)
    ensures |bk| == 3 + |BlockBits(FixedLits(), FixedDists(), ts)|
  {
    hide TablesOk, Stored, StaticTree, AllCoded, BlockBits, BlockOf, FixedLits, FixedDists, BitsOf, CodeTable;
    ghost var bits := w.Bits();
    FixedSmall();
    StaticTabled(slc, FixedLits());
    StaticTabled(sdc, FixedDists());
    StaticBlock(ts, |bits|, eof, buf);
    HeadFits();
    w.SendBits(2 + (if eof then 1 else 0), 3);
    var lits, dists := FixedLits(), FixedDists();
    SendBlock(w, B, T, slc, lits, sdc, dists, lits, dists, ts);
    bk := Head(1, eof) + BlockBits(lits, dists, ts);
    ConcatAssoc(bits, Head(1, eof), BlockBits(lits, dists, ts));
  }

  lemma HeadFits()
    ensures Pow2(3) == 8
  {
    Pow2Values();
  }

  lemma TreeLens(S: Trees, lmax: nat, dmax: nat, nb: nat, ts: seq<Token>)
    requires TreesFor(S, lmax, dmax, nb, ts)
    ensures Sized(S) && lmax + 1 < |S.lDl| && dmax + 1 < |S.dDl| && |S.bDl| >= BL_CODES && 256 <= lmax
    ensures ReadyToSend(S.lDl, lmax, S.dDl, dmax, S.bFc, S.bDl, nb)
    ensures CodeTable(S.lFc, S.lDl, S.lDl[..lmax + 1]) && CodeTable(S.dFc, S.dDl, S.dDl[..dmax + 1])
    ensures AllCoded(S.lDl[..lmax + 1], S.dDl[..dmax + 1], ts) && S.lDl[..lmax + 1][END_BLOCK] > 0
    ensures TreesOk(S.lDl[..lmax + 1], S.dDl[..dmax + 1], S.bDl[..BL_CODES], nb)
  {
  }

  /** The block is sent with its own trees (trees.c:935-938). */
  method SendDynamic(w: BitWriter, B: Buffers, T: Tables, S: Trees, lmax: nat, dmax: nat, nb: nat, eof: bool,
                     ghost ts: seq<Token>, ghost buf: Option<seq<byte>>)
    returns (ghost bk: seq<bool>)
    requires w.Valid() && TablesOk(T) && Stored(B, ts) && TreesFor(S, lmax, dmax, nb, ts)
    modifies w
    ensures w.Valid() && w.Bits() == old(w.Bits()) + bk && BlockOf(bk, |old(w.Bits())|, eof, ts, buf)
    ensures |bk| == 3 + |HeaderBits(S.lDl[..lmax + 1], S.dDl[..dmax + 1], S.bDl[..BL_CODES], nb)|
                    + |BlockBits(S.lDl[..lmax + 1], S.dDl[..dmax + 1], ts)|
  {
    hide TablesOk, Stored, TreesFor, AllCoded, BlockBits, HeaderBits, BlockOf, BitsOf, CodeTable, ReadyToSend, TreesOk;
    TreeLens(S, lmax, dmax, nb, ts);
    ghost var bits := w.Bits();
    ghost var ll, dl, cl := S.lDl[..lmax + 1], S.dDl[..dmax + 1], S.bDl[..BL_CODES];
    DynamicBlock(ll, dl, cl, nb, ts, |bits|, eof, buf);
    HeadFits();
    w.SendBits(4 + (if eof then 1 else 0), 3);
    SendAllTrees(w, S.lDl, S.dDl, S.bFc, S.bDl, lmax + 1, dmax + 1, nb);
    SendBlock(w, B, T, S.lFc, S.lDl, S.dFc, S.dDl, ll, dl, ts);
    bk := Head(2, eof) + (HeaderBits(ll, dl, cl, nb) + BlockBits(ll, dl, ts));
    FourJoin(bits, Head(2, eof), HeaderBits(ll, dl, cl, nb), BlockBits(ll, dl, ts));
  }

  /** The bytes themselves are sent (trees.c:920-924). */
  method SendStored(w: BitWriter, buf: seq<byte>, eof: bool, ghost ts: seq<Token>) returns (ghost bk: seq<bool>)
    requires w.Valid() && |buf| <= 65535
    modifies w
    ensures w.Valid() && w.Bits() == old(w.Bits()) + bk && BlockOf(bk, |old(w.Bits())|, eof, ts, Some(buf))
    ensures |bk| == 3 + Pad(|old(w.Bits())| + 3) + 8 * (|buf| + 4)
  {
    hide BlockOf, StoredBits, Zeros, BitsOf;
    ghost var bits := w.Bits();
    StoredBlock(buf, ts, |bits|, eof);
    HeadFits();
    w.SendBits(if eof then 1 else 0, 3);
    w.CopyBlock(buf, true);
    StoredLen(buf, Pad(|bits| + 3));
    bk := Head(0, eof) + (Zeros(Pad(|bits| + 3)) + StoredBits(buf, true));
    FourJoin(bits, Head(0, eof), Zeros(Pad(|bits| + 3)), StoredBits(buf, true));
  }

  lemma StoredLen(buf: seq<byte>, pad: nat)
    ensures |StoredBits(buf, true)| == 8 * (|buf| + 4) && |Zeros(pad)| == pad
  {
  }

  lemma RoundUp(n: nat)
    ensures (n + 3 + 7) / 8 * 8 == n + 3 + Pad(n + 3)
  {
  }

  /**
   * The bits of a block: stored if that takes no more bytes than either kind of trees, static if those take no more
   * bytes than dynamic ones.
   */
  function BlockSize(opt: int, stat: int, buf: Option<seq<byte>>, storedLen: nat, pos: nat): int {
    var dyn, stc := (opt + 3 + 7) / 8, (stat + 3 + 7) / 8;
    if buf.Some? && storedLen + 4 <= dyn && storedLen + 4 <= stc then 3 + Pad(pos + 3) + 8 * (storedLen + 4)
    else if stc <= dyn then 3 + stat
    else 3 + opt
  }

  /** `opt` bits are a dynamic encoding of the tokens, the trees included. */
  ghost predicate DynamicBits(ts: seq<Token>, opt: int) {
    exists ll, dl, cl, nb :: IsDynamic(ll, dl, cl, nb, ts, opt)
  }

  ghost predicate IsDynamic(ll: seq<nat>, dl: seq<nat>, cl: seq<nat>, nb: nat, ts: seq<Token>, opt: int) {
    && TreesOk(ll, dl, cl, nb) && AllCoded(ll, dl, ts) && ll[END_BLOCK] > 0
    && opt == |HeaderBits(ll, dl, cl, nb)| + |BlockBits(ll, dl, ts)|
  }

  /** `stat` bits are the static encoding of the tokens. */
  ghost predicate StaticBits(ts: seq<Token>, stat: int) {
    && AllCoded(FixedLits(), FixedDists(), ts) && FixedLits()[END_BLOCK] > 0
    && stat == |BlockBits(FixedLits(), FixedDists(), ts)|
  }

  /** The bits of a stored block of `n` bytes that begins at bit `pos`. */
  function StoredSize(n: nat, pos: nat): nat {
    3 + Pad(pos + 3) + 8 * (n + 4)
  }

  /**
   * A block is at most 17 bits longer than either kind of trees makes it, and when the bytes are there it is no longer
   * than a stored block and takes at most five bytes more than they are.
   */
  lemma NearBest(opt: nat, stat: nat, buf: Option<seq<byte>>, n: nat, pos: nat)
    ensures var size := BlockSize(opt, stat, buf, n, pos);
            && size <= 3 + opt + 17 && size <= 3 + stat + 17
            && (buf.Some? ==> size <= StoredSize(n, pos) && (pos + size + 7) / 8 <= (pos + 7) / 8 + n + 5)
            && (buf.None? ==> size <= 3 + opt + 7 && size <= 3 + stat)
  {
  }

  /** The choice is made in whole bytes; exactly when this condition holds is it also the least number of bits. */
  lemma LeastIff(opt: nat, stat: nat, buf: Option<seq<byte>>, n: nat, pos: nat)
    ensures var size := BlockSize(opt, stat, buf, n, pos);
            && size <= 3 + opt && size <= 3 + stat && (buf.Some? ==> size <= StoredSize(n, pos))
            <==>
            if buf.Some? && n + 4 <= (opt + 10) / 8 && n + 4 <= (stat + 10) / 8
            then Pad(pos + 3) + 8 * (n + 4) <= opt && Pad(pos + 3) + 8 * (n + 4) <= stat
            else (stat + 10) / 8 <= (opt + 10) / 8 ==> stat <= opt
  {
  }

  /** Fifteen literals of nine bits and an end of seven, 145 bits in all, are sent as a stored block of 160. */
  lemma NotLeast(opt: nat, bytes: seq<byte>)
    requires opt >= 15 * 9 + 7 && |bytes| == 15
    ensures BlockSize(opt, 15 * 9 + 7, Some(bytes), 15, 0) == 160 > 3 + 15 * 9 + 7
  {
  }

  /**
   * The best encoding is chosen and the block sent (trees.c:881-939). The branch for a whole stored file is not
   * there: seekable() is 0 (gzip.h:216).
   */
  method EmitBlock(w: BitWriter, B: Buffers, T: Tables, S: Trees, slc: seq<nat>, sdc: seq<nat>, lmax: nat, dmax: nat,
                   maxBlindex: nat,
                   opt: int, stat: int, buf: Option<seq<byte>>, storedLen: nat, eof: bool, compressedLen: nat,
                     ghost ts: seq<Token>)
    returns (total: nat, ghost bk: seq<bool>)
    requires w.Valid() && TablesOk(T) && Stored(B, ts) && StaticTree(slc, FixedLits()) && StaticTree(sdc, FixedDists())
    requires maxBlindex <= 18 && TreesFor(S, lmax, dmax, maxBlindex + 1, ts)
    requires AllCoded(FixedLits(), FixedDists(), ts) && FixedLits()[END_BLOCK] > 0
    requires opt == |HeaderBits(S.lDl[..lmax + 1], S.dDl[..dmax + 1], S.bDl[..BL_CODES], maxBlindex + 1)|
                    + |BlockBits(S.lDl[..lmax + 1], S.dDl[..dmax + 1], ts)|
    requires stat == |BlockBits(FixedLits(), FixedDists(), ts)|
    requires (buf.Some? ==> |buf.value| == storedLen <= 65535) && compressedLen == |w.Bits()|
    modifies w
    ensures w.Valid() && w.Bits() == old(w.Bits()) + bk && BlockOf(bk, |old(w.Bits())|, eof, ts, buf)
    ensures total == |w.Bits()| && |bk| == BlockSize(opt, stat, buf, storedLen, compressedLen)
  {
    hide TablesOk, Stored, StaticTree, TreesFor, AllCoded, HeaderBits, BlockBits, BlockOf, FixedLits, FixedDists;
    var optLenb, staticLenb := (opt + 3 + 7) / 8, (stat + 3 + 7) / 8;
    if staticLenb <= optLenb { optLenb := staticLenb; }
    if storedLen + 4 <= optLenb && buf.Some? {
      bk := SendStored(w, buf.value, eof, ts);
      total := (compressedLen + 3 + 7) / 8 * 8;
      total := total + (storedLen + 4) * 8;
      RoundUp(compressedLen);
    } else if staticLenb == optLenb {
      bk := SendStatic(w, B, T, slc, sdc, eof, ts, buf);
      total := compressedLen + 3 + stat;
    } else {
      bk := SendDynamic(w, B, T, S, lmax, dmax, maxBlindex + 1, eof, ts, buf);
      total := compressedLen + 3 + opt;
    }
  }

  // ---- a new block ----

  method ClearFreqs(fc0: seq<nat>, n: nat) returns (fc: seq<nat>)
    requires n <= |fc0|
    ensures |fc| == |fc0| && forall i :: 0 <= i < n ==> fc[i] == 0
  {
    fc := fc0;
    var i := 0;
    while i < n
      invariant 0 <= i <= n && |fc| == |fc0| && forall j :: 0 <= j < i ==> fc[j] == 0
    {
      fc := fc[i := 0];
      i := i + 1;
    }
  }

  /** init_block, as far as the trees go (trees.c:411-416). */
  method InitBlock(S0: Trees) returns (S: Trees)
    requires Sized(S0)
    ensures Counting(S, [])
  {
    var l := ClearFreqs(S0.lFc, L_CODES);
    var d := ClearFreqs(S0.dFc, D_CODES);
    var b := ClearFreqs(S0.bFc, BL_CODES);
    l := l[END_BLOCK := 1];
    S := S0.(lFc := l, dFc := d, bFc := b);
    assert LitFreq([]) == l[..L_CODES] && DistFreq([]) == d[..D_CODES];
  }

  lemma FullCounting(S: Trees, lFc: seq<nat>, dFc: seq<nat>, ts0: seq<Token>, ts: seq<Token>)
    requires Counting(S, ts0) && |lFc| == |S.lFc| && |dFc| == |S.dFc| && Freqs(lFc, dFc, ts)
    ensures Counting(S.(lFc := lFc, dFc := dFc), ts)
  {
  }

  lemma CountingFreqs(S: Trees, ts: seq<Token>)
    requires Counting(S, ts)
    ensures Sized(S) && Freqs(S.lFc, S.dFc, ts)
  {
  }

  lemma FreqsParts(lFc: seq<nat>, dFc: seq<nat>, ts: seq<Token>)
    requires Freqs(lFc, dFc, ts)
    ensures AllValid(ts) && DistFreq(ts) <= dFc
  {
  }

  lemma HoldsSizes(B: Buffers, ts: seq<Token>)
    requires Holds(B, ts)
    ensures |B.lBuf| == LIT_BUFSIZE && |B.dBuf| == DIST_BUFSIZE && |B.flagBuf| == LIT_BUFSIZE / 8 &&
            B.lastLit == |ts| < LIT_BUFSIZE
    ensures B.lastDist == |Dists(ts)| <= |ts|
  {
    hide Flags, ValOf;
  }

  class Encoder {
    const w: BitWriter
    var T: Tables
    var slc: seq<nat>            // the codes of the static trees
    var sdc: seq<nat>
    var S: Trees
    var B: Buffers
    var compressedLen: nat
    ghost var ts: seq<Token>     // the tokens of the block in the making
    ghost var all: seq<Token>    // the tokens of the file so far

    ghost predicate Valid()
      reads this, w
    {
      && w.Valid() && TablesOk(T) && StaticTree(slc, FixedLits()) && StaticTree(sdc, FixedDists())
      && Counting(S, ts) && Holds(B, ts) && compressedLen == |w.Bits()|
    }

    /** ct_init; `trees` and `buffers` are the static arrays. */
    constructor (out: BitWriter, trees: Trees, buffers: Buffers)
      requires out.Valid() && out.Bits() == [] && Sized(trees)
      requires |buffers.lBuf| == LIT_BUFSIZE && |buffers.dBuf| == DIST_BUFSIZE && |buffers.flagBuf| == LIT_BUFSIZE / 8
      ensures Valid() && ts == all == [] && w == out
    {
      hide TablesOk, StaticTree, Counting, Holds, LengthTables, DistTables, FixedLits, FixedDists;
      var lengthCode, baseLength := InitLengths();
      var distCode, baseDist := InitNear();
      distCode, baseDist := InitFar(distCode, baseDist);
      var slc', sl := InitStaticLits();
      var sdc', sd := InitStaticDists();
      TablesAre(lengthCode, baseLength, distCode, baseDist);
      var S' := InitBlock(trees);
      var B' := EmptyBuffers(buffers);
      w, T, slc, sdc := out, Tables(lengthCode, baseLength, distCode, baseDist), slc', sdc';
      S, B, compressedLen, ts, all := S', B', 0, [], [];
    }

    /** ct_tally: one literal (dist == 0) or match; true when the block must be flushed. */
    method Tally(dist: nat, lc: nat, level: nat, inLength: nat) returns (full: bool)
      requires Valid() && |ts| + 1 < LIT_BUFSIZE && lc < 256 && dist <= 32768
      modifies this`S, this`B, this`ts, this`all
      ensures ts == old(ts) + [TokenOf(dist, lc)] && all == old(all) + [TokenOf(dist, lc)]
      ensures Valid() && AllValid(ts) && (!full ==> |ts| + 1 < LIT_BUFSIZE)
      ensures full <==> || |ts| == LIT_BUFSIZE - 1 || |Dists(ts)| == DIST_BUFSIZE
                        || (level > 2 && |ts| % 0x1000 == 0 && Profitable(ts, inLength))
    {
      hide TablesOk, StaticTree, Counting, Holds, Freqs, FixedLits, FixedDists, Profitable, Dists;
      CountingFreqs(S, ts);
      TableParts(T);
      var lFc, dFc := TallyFreq(S.lFc, S.dFc, dist, lc, T.lengthCode, T.distCode, T.baseLength, T.baseDist, ts);
      ghost var ts' := ts + [TokenOf(dist, lc)];
      FullCounting(S, lFc, dFc, ts, ts');
      B := TallyToken(B, dist, lc, ts);
      S := S.(lFc := lFc, dFc := dFc);
      ts, all := ts', all + [TokenOf(dist, lc)];
      HoldsSizes(B, ts);
      FreqsParts(lFc, dFc, ts);
      if level > 2 && B.lastLit % 0x1000 == 0 {
        full := WorthStopping(S.dFc, B.lastLit, B.lastDist, inLength, ts);
        if full { return; }
      }
      full := B.lastLit == LIT_BUFSIZE - 1 || B.lastDist == DIST_BUFSIZE;
    }

    /** The block is built and sent, and the next one begun (trees.c:861-941). */
    method SendTallied(buf: Option<seq<byte>>, storedLen: nat, eof: bool)
      returns (ghost bk: seq<bool>, ghost opt: nat, ghost stat: nat)
      requires Valid() && (buf.Some? ==> |buf.value| == storedLen <= 65535)
      modifies this`S, this`B, this`ts, this`compressedLen, w
      ensures Valid() && ts == [] && w.Bits() == old(w.Bits()) + bk && BlockOf(bk, |old(w.Bits())|, eof, old(ts), buf)
      ensures DynamicBits(old(ts), opt) && StaticBits(old(ts), stat) &&
              |bk| == BlockSize(opt, stat, buf, storedLen, |old(w.Bits())|)
    {
      hide TablesOk, StaticTree, Counting, Holds, BlockOf, Stored, TreesFor, AllCoded, HeaderBits, BlockBits,
           FixedLits, FixedDists, Sized, TreesOk, BlockSize;
      HoldsSizes(B, ts);
      B := SaveFlags(B, ts);
      var S', lmax, dmax, maxBlindex, optLen, staticLen := BuildAll(S, ts);
      TreeLens(S', lmax, dmax, maxBlindex + 1, ts);
      opt, stat := optLen, staticLen;
      assert IsDynamic(S'.lDl[..lmax + 1], S'.dDl[..dmax + 1], S'.bDl[..BL_CODES], maxBlindex + 1, ts, opt);
      StoredSizes(B, ts);
      compressedLen, bk := EmitBlock(w, B, T, S', slc, sdc, lmax, dmax, maxBlindex, optLen, staticLen, buf, storedLen,
                                     eof, compressedLen, ts);
      S := InitBlock(S');
      B := EmptyBuffers(B);
      ts := [];
    }

    /**
     * flush_block: `buf` has the `stored_len` bytes of the block, if they are still in the window. The bits sent
     * are a block for the tokens tallied; compressed_len is exact, and after the last block the bytes are complete.
     */
    method Flush(buf: Option<seq<byte>>, storedLen: nat, eof: bool)
      returns (len: nat, ghost bk: seq<bool>, ghost opt: nat, ghost stat: nat)
      requires Valid() && (buf.Some? ==> |buf.value| == storedLen <= 65535)
      modifies this`S, this`B, this`ts, this`compressedLen, w
      ensures BlockOf(bk, |old(w.Bits())|, eof, old(ts), buf)
      ensures DynamicBits(old(ts), opt) && StaticBits(old(ts), stat) &&
              |bk| == BlockSize(opt, stat, buf, storedLen, |old(w.Bits())|)
      ensures |bk| <= 3 + opt + 17 && |bk| <= 3 + stat + 17
      ensures buf.Some? ==> (|w.Bits()| + 7) / 8 <= (|old(w.Bits())| + 7) / 8 + storedLen + 5
      ensures !eof ==> Valid() && ts == [] && w.Bits() == old(w.Bits()) + bk && len == |w.Bits()| / 8
      ensures eof ==>
                w.Valid() && w.Bits() == BytesBits(w.out) == (old(w.Bits()) + bk) + Zeros(Pad(|old(w.Bits()) + bk|)) &&
                len == |w.out|
    {
      hide TablesOk, StaticTree, Counting, Holds, BlockOf, FixedLits, FixedDists, DynamicBits, StaticBits, BlockSize;
      bk, opt, stat := SendTallied(buf, storedLen, eof);
      NearBest(opt, stat, buf, storedLen, |old(w.Bits())|);
      if eof {
        ghost var bits := w.Bits();
        w.Windup();
        compressedLen := compressedLen + 7;
        PadBytes(|bits|);
        WholeBytes(|bits|, |w.out|);
      }
      len := compressedLen / 8;
    }
  }

  lemma PadBytes(n: nat)
    ensures (n + Pad(n) + 7) / 8 == (n + 7) / 8
  {
  }

  lemma StoredSizes(B: Buffers, ts: seq<Token>)
    requires Stored(B, ts)
    ensures |B.lBuf| == LIT_BUFSIZE && |B.dBuf| == DIST_BUFSIZE && |B.flagBuf| == LIT_BUFSIZE / 8
  {
    HoldsSizes(B, ts);
  }

  lemma TablesAre(a: seq<nat>, b: seq<nat>, c: seq<nat>, d: seq<nat>)
    requires LengthTables(a, b) && DistTables(c, d)
    ensures TablesOk(Tables(a, b, c, d))
  {
  }

  lemma TableParts(T: Tables)
    requires TablesOk(T)
    ensures LengthTables(T.lengthCode, T.baseLength) && DistTables(T.distCode, T.baseDist)
  {
  }
}
