/** The steps that deflate and deflate_fast share: tokens, FLUSH_BLOCK, INSERT_STRING, and the first state. */
module DeflateSteps {
  import opened Bitstring
  import opened BitIO
  import opened Codes
  import opened Rfc1951
  import opened TallyBuffers
  import opened BlockMeaning
  import opened StaticTables
  import opened CompressBlock
  import opened BlockTrees
  import opened FlushBlock
  import opened Stream
  import opened OutputWindow
  import opened Hash
  import opened HashChains
  import opened LongestMatch
  import opened FillWindow

  // ---- tokens ----

  /** Matches have a length and a distance that the compressor may use. */
  ghost predicate Near(ts: seq<Token>) {
    forall i :: 0 <= i < |ts| && ts[i].Match? ==> MIN_MATCH <= ts[i].len <= MAX_MATCH && 1 <= ts[i].dist <= MAX_DIST
  }

  /** All tokens so far copy from what is there, stand for the first `p` bytes, and reach no further than MAX_DIST. */
  ghost predicate Told(all: seq<Token>, data: seq<byte>, p: nat) {
    Covers(data, 0, p, all) && Near(all)
  }

  lemma NearSnoc(ts: seq<Token>, t: Token)
    requires Near(ts) && (t.Match? ==> MIN_MATCH <= t.len <= MAX_MATCH && 1 <= t.dist <= MAX_DIST)
    ensures Near(ts + [t])
  {
  }

  /** What Told says of the whole file. */
  lemma ToldAll(all: seq<Token>, data: seq<byte>)
    requires Told(all, data, |data|)
    ensures AllReach([], all) && Expand([], all) == data && Near(all)
  {
    hide AllReach, Expand, Near;
    assert data[..0] == [] && data[..|data|] == data;
  }

  /** The blocks sent decode to the first `start` bytes, and the tokens tallied to those up to `p`. */
  ghost predicate Sent(e: Encoder, data: seq<byte>, start: nat, p: nat)
    reads e, e.w
  {
    && e.Valid() && Covers(data, start, p, e.ts) && StreamTo(e.w.Bits(), data[..start])
    && Told(e.all, data, p)
  }

  method EmitLiteral(e: Encoder, b: byte, level: nat, inLength: nat, ghost data: seq<byte>, ghost start: nat,
                     ghost p: nat) returns (full: bool)
    requires Sent(e, data, start, p) && p < |data| && b == data[p] && |e.ts| + 1 < LIT_BUFSIZE
    modifies e`S, e`B, e`ts, e`all
    ensures e.all == old(e.all) + [Literal(b)]
    ensures Sent(e, data, start, p + 1) && (!full ==> |e.ts| + 1 < LIT_BUFSIZE)
  {
    hide Covers, StreamTo, TablesOk, StaticTree, Counting, Holds, Near;
    CoverLiteral(data, start, p, e.ts);
    CoverLiteral(data, 0, p, e.all);
    NearSnoc(e.all, Literal(b));
    full := e.Tally(0, b, level, inLength);
  }

  method EmitMatch(e: Encoder, dist: nat, lc: nat, level: nat, inLength: nat, ghost data: seq<byte>, ghost start: nat,
                   ghost p: nat) returns (full: bool)
    requires Sent(e, data, start, p) && lc < 256 && dist <= MAX_DIST && Repeats(data, p, lc + 3, dist) &&
             |e.ts| + 1 < LIT_BUFSIZE
    modifies e`S, e`B, e`ts, e`all
    ensures e.all == old(e.all) + [Match(lc + 3, dist)]
    ensures Sent(e, data, start, p + lc + 3) && (!full ==> |e.ts| + 1 < LIT_BUFSIZE)
  {
    hide Covers, StreamTo, TablesOk, StaticTree, Counting, Holds, Repeats, Near;
    RepeatsNonzero(data, p, lc + 3, dist);
    CoverMatch(data, start, p, e.ts, lc + 3, dist);
    CoverMatch(data, 0, p, e.all, lc + 3, dist);
    NearSnoc(e.all, Match(lc + 3, dist));
    full := e.Tally(dist, lc, level, inLength);
  }

  lemma RepeatsNonzero(data: seq<byte>, p: nat, len: nat, dist: nat)
    requires Repeats(data, p, len, dist)
    ensures dist >= 1
  {
  }

  lemma BufferIs(data: seq<byte>, start: nat, p: nat, ts: seq<Token>, buf: seq<byte>)
    requires Covers(data, start, p, ts) && buf == data[start..p]
    ensures AllReach(data[..start], ts) && Expand(data[..start], ts) == data[..start] + buf == data[..p]
  {
    assert data[..start] + data[start..p] == data[..p];
  }

  lemma CoversExpand(data: seq<byte>, start: nat, p: nat, ts: seq<Token>)
    requires Covers(data, start, p, ts)
    ensures start <= p <= |data| && AllReach(data[..start], ts) && Expand(data[..start], ts) == data[..p]
  {
  }

  /**
   * FLUSH_BLOCK for a block that ends at strstart; what a block stores is below 64K, and a block that is still in the
   * window takes at most five bytes more than it has.
   */
  method FlushAt(e: Encoder, z: Lz, eof: bool, ghost data: seq<byte>, ghost base: nat) returns (len: nat)
    requires Loaded(z, data, base) && z.strstart <= 65535 && z.blockStart <= z.strstart && base + z.blockStart >= 0
    requires Sent(e, data, base + z.blockStart, base + z.strstart)
    modifies e`S, e`B, e`ts, e`compressedLen, e.w
    ensures !eof ==> Sent(e, data, base + z.strstart, base + z.strstart) && e.ts == []
    ensures eof ==> e.w.Valid() && len == |e.w.out| && FileFor(e.w.out, data[..base + z.strstart])
                    && Told(e.all, data, base + z.strstart)
    ensures z.blockStart >= 0 ==>
              (|e.w.Bits()| + 7) / 8 <= (|old(e.w.Bits())| + 7) / 8 + (z.strstart - z.blockStart) + 5
  {
    hide Covers, Told, StreamTo, StreamIs, BlockOf, Zeros, Loaded, TablesOk, StaticTree, Counting, Holds, AllReach,
         Expand, DynamicBits, StaticBits, BlockSize, Pad;
    ghost var start, p, bits, ts := base + z.blockStart, base + z.strstart, e.w.Bits(), e.ts;
    WindowSize(z, data, base);
    var buf := if z.blockStart >= 0 then Some(z.window[z.blockStart..z.strstart]) else None;
    CoversExpand(data, start, p, ts);
    if buf.Some? { BlockBytes(z, data, base, ts, buf.value); }
    ghost var bk;
    ghost var opt, stat;
    len, bk, opt, stat := e.Flush(buf, z.strstart - z.blockStart, eof);
    BlockExtends(bits, data[..start], bk, eof, ts, buf);
    CoverNone(data, p);
    if eof { Finished(bits + bk, data[..p], e.w.out, Pad(|bits + bk|)); }
  }

  lemma WindowSize(z: Lz, data: seq<byte>, base: nat)
    requires Loaded(z, data, base)
    ensures |z.window| == MEMORY && z.strstart <= WINDOW_SIZE
  {
  }

  lemma BlockBytes(z: Lz, data: seq<byte>, base: nat, ts: seq<Token>, buf: seq<byte>)
    requires Loaded(z, data, base) && 0 <= z.blockStart <= z.strstart && buf == z.window[z.blockStart..z.strstart]
    requires Covers(data, base + z.blockStart, base + z.strstart, ts)
    ensures Covers(data, base + z.blockStart, base + z.strstart, ts) && AllReach(data[..base + z.blockStart], ts)
    ensures Expand(data[..base + z.blockStart], ts) == data[..base + z.blockStart] + buf
  {
    hide Covers;
    assert buf == data[base + z.blockStart..base + z.strstart];
    BufferIs(data, base + z.blockStart, base + z.strstart, ts, buf);
  }

  /** The file written is a stream for the data, padded to a byte. */
  ghost predicate FileFor(file: seq<byte>, data: seq<byte>) {
    exists bits, pad :: IsPadded(file, data, bits, pad)
  }

  ghost predicate IsPadded(file: seq<byte>, data: seq<byte>, bits: seq<bool>, pad: nat) {
    pad < 8 && StreamIs(bits, data) && BytesBits(file) == bits + Zeros(pad)
  }

  lemma Finished(bits: seq<bool>, data: seq<byte>, file: seq<byte>, pad: nat)
    requires pad < 8 && StreamIs(bits, data) && BytesBits(file) == bits + Zeros(pad)
    ensures FileFor(file, data)
  {
    assert IsPadded(file, data, bits, pad);
  }

  // ---- strings ----

  /**
   * INSERT_STRING(s, hash_head): the string joins its chain, and the head of the chain before is the youngest string of
   * the dictionary with the same hash, if one is near enough.
   */
  method InsertString(z: Lz, s: nat, ghost on: set<nat>) returns (z': Lz, hashHead: nat)
    requires s < WINDOW_SIZE && s + 2 < |z.window| && Chained(z.window, z.prev, z.head, on, s) &&
             Primed(z.insH, z.window, s)
    ensures z' == z.(insH := z'.insH, prev := z'.prev, head := z'.head)
    ensures Chained(z'.window, z'.prev, z'.head, Inserted(on, s), s + 1) && Primed(z'.insH, z'.window, s + 1)
    ensures HeadOk(z.window, on, s, HashAt(z.window, s), hashHead)
    ensures hashHead != 0 && s - hashHead <= MAX_DIST ==>
              hashHead in on && hashHead < s && HashAt(z.window, hashHead) == HashAt(z.window, s)
    ensures forall q :: q in on && HashAt(z.window, q) == HashAt(z.window, s) ==> q <= hashHead
  {
    hide HeadOk, Hash3, Update;
    OnBelow(z.window, z.prev, z.head, on, s);
    InsertKeeps(z.window, z.prev, z.head, on, s, HashAt(z.window, s));
    PrimedNext(z.window, s);
    ChainSizes(z.window, z.prev, z.head, on, s);
    var h := Update(z.insH, z.window[s + 2]);
    assert h == HashAt(z.window, s);
    hashHead := z.head[h];
    z' := z.(insH := h, prev := z.prev[s % WSIZE := hashHead], head := z.head[h := s]);
    HeadMeans(z.window, on, s, h, hashHead);
  }

  lemma OnBelow(window: seq<byte>, prev: seq<nat>, head: seq<nat>, on: set<nat>, s: nat)
    requires Chained(window, prev, head, on, s)
    ensures forall x :: x in on ==> x < s && x + 2 < |window|
  {
  }

  lemma HeadMeans(window: seq<byte>, on: set<nat>, s: nat, h: nat, g: nat)
    requires (forall x :: x in on ==> x < s && x + 2 < |window|) && HeadOk(window, on, s, h, g)
    ensures g != 0 && s - g <= MAX_DIST ==> g in on && g < s && HashAt(window, g) == h
    ensures forall q :: q in on && HashAt(window, q) == h ==> q <= g
  {
    hide HashAt;
  }

  lemma HeadCandidate(window: seq<byte>, on: set<nat>, s: nat, g: nat)
    requires s + 2 < |window| && (forall x :: x in on ==> x + 2 < |window|) &&
             HeadOk(window, on, s, HashAt(window, s), g)
    requires g != 0 && s - g <= MAX_DIST
    ensures Candidate(window, Inserted(on, s), s, g)
  {
    hide HashAt;
  }

  /** A match in the window, cut to the lookahead, is one in the data. */
  lemma MatchInData(z: Lz, data: seq<byte>, base: nat, m: int, len: nat, n: nat)
    requires Loaded(z, data, base) && IsMatch(z.window, z.strstart, m, len) && n <= len && n <= z.lookahead
    ensures Repeats(data, base + z.strstart, n, z.strstart - m)
  {
    hide Chained;
    var p, dist := base + z.strstart, z.strstart - m;
    forall i | p <= i < p + n
      ensures data[i] == data[i - dist]
    {
      assert SameAt(z.window, m, z.strstart, i - p);
      assert z.window[z.strstart + (i - p)] == data[i] && z.window[m + (i - p)] == data[i - dist];
    }
  }
}
