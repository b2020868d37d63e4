/** deflate_fast (deflate.c:576-650), and deflate with its choice of algorithm. */
module DeflateFast {
  import opened Bitstring
  import opened Rfc1951
  import opened TallyBuffers
  import opened FlushBlock
  import opened Stream
  import opened OutputWindow
  import opened Hash
  import opened HashChains
  import opened LongestMatch
  import opened FillWindow
  import opened DeflateSteps
  import opened MatchSearch
  import opened Deflate

  /** The state before each string. */
  ghost predicate Fast(e: Encoder, z: Lz, data: seq<byte>, base: nat, on: set<nat>)
    reads e, e.w
  {
    && Ready(z, data, base, on) && (z.eofile || z.lookahead >= MIN_LOOKAHEAD)
    && (z.lookahead > 0 ==> Primed(z.insH, z.window, z.strstart))
    && |e.ts| + 1 < LIT_BUFSIZE && Sent(e, data, base + z.blockStart, base + z.strstart)
    && Anchored(z, base) && Searching(e.all, data, base + z.strstart, on, z.strstart)
  }

  /** A match was sent, or all strings are in the dictionary and there was nothing to find so far. */
  ghost predicate Searching(all: seq<Token>, data: seq<byte>, n: nat, on: set<nat>, s: nat) {
    HasMatch(all) || (NoPlain(data, n) && Filled(on, s))
  }

  /** The state when a string is done, before fill_window. */
  ghost predicate FastDone(e: Encoder, z: Lz, data: seq<byte>, base: nat, on: set<nat>)
    reads e, e.w
  {
    && Stepped(z, data, base, on) && |e.ts| + 1 < LIT_BUFSIZE && Sent(e, data, base + z.blockStart, base + z.strstart)
  }

  lemma ChainedLater(window: seq<byte>, prev: seq<nat>, head: seq<nat>, on: set<nat>, s: nat, s': nat)
    requires Chained(window, prev, head, on, s) && s <= s' <= WINDOW_SIZE
    ensures Chained(window, prev, head, on, s')
  {
    hide HashAt;
    forall p | p in on
      ensures LinkOk(window, on, s', p, prev[p % WSIZE])
    {
      assert LinkOk(window, on, s, p, prev[p % WSIZE]);
    }
    forall h | 0 <= h < HASH_SIZE
      ensures HeadOk(window, on, s', h, head[h])
    {
      assert HeadOk(window, on, s, h, head[h]);
    }
  }

  /** The search for a match (deflate.c:592-600): less than three bytes, or a match that can be sent. */
  method FastSearch(z: Lz, C: Config, hashHead: nat, matchLength0: nat, ghost data: seq<byte>, ghost base: nat,
                    ghost on: set<nat>)
    returns (z': Lz, matchLength: nat)
    requires Entered(z, data, base, on) && ConfigOk(C) && matchLength0 < MIN_MATCH
    requires hashHead != 0 && z.strstart - hashHead <= MAX_DIST ==> Candidate(z.window, on, z.strstart, hashHead)
    ensures z' == z.(matchStart := z'.matchStart) && matchLength <= MAX_MATCH
    ensures FastSearched(z, C, hashHead, matchLength0, MIN_MATCH - 1, z'.matchStart, matchLength)
    ensures matchLength >= MIN_MATCH ==>
              && matchLength <= z.lookahead && 1 <= z.strstart - z'.matchStart <= MAX_DIST
              && Repeats(data, base + z.strstart, matchLength, z.strstart - z'.matchStart)
  {
    hide Chained, Candidate, Repeats, Found;
    z', matchLength := z, matchLength0;
    EnteredBounds(z, data, base, on);
    if hashHead != 0 && z.strstart - hashHead <= MAX_DIST {
      var best, start;
      ghost var seen;
      best, start, seen := Longest(z, hashHead, MIN_MATCH - 1, C.maxChain, C.goodLength, C.niceLength, on);
      FoundBest(z, hashHead, MIN_MATCH - 1, C.maxChain, C.goodLength, C.niceLength, best, start, seen);
      z' := z.(matchStart := start);
      matchLength := best;
      if matchLength > z.lookahead { matchLength := z.lookahead; }
      BestCurrent(z, z', data, base, MIN_MATCH - 1, best, matchLength);
    }
  }

  /** The window moves behind the match; the strings of a long match are left out (deflate.c:606-631). */
  method BehindMatch(z: Lz, C: Config, matchLength: nat, ghost data: seq<byte>, ghost base: nat, ghost on: set<nat>)
    returns (z': Lz, ghost on': set<nat>)
    requires Entered(z, data, base, on) && MIN_MATCH <= matchLength <= MAX_MATCH && matchLength <= z.lookahead
    ensures Stepped(z', data, base, on') && z'.strstart == z.strstart + matchLength && z'.blockStart == z.blockStart
    ensures z'.matchStart == z.matchStart
    ensures forall p :: p in on && p + WSIZE > z'.strstart ==> p in on'
    ensures matchLength <= C.maxLazy ==> forall p :: z.strstart < p < z'.strstart ==> p in on'
  {
    hide Chained, Primed, Loaded, Within, Update;
    EnteredBounds(z, data, base, on);
    z', on' := z.(lookahead := z.lookahead - matchLength), on;
    if matchLength <= C.maxLazy {
      z', on' := InsertRun(z', matchLength - 1, on);
      z' := z'.(strstart := z'.strstart + 1);
    } else {
      z' := z'.(strstart := z'.strstart + matchLength);
      ChainedLater(z.window, z.prev, z.head, on, z.strstart + 1, z'.strstart);
      InBefore(z, on);
      UpdateZero(z'.window[z'.strstart]);
      PrimedTwo(z'.window, z'.strstart, 0);
      var h := z'.window[z'.strstart];
      z' := z'.(insH := Update(h, z'.window[z'.strstart + 1]));
    }
    MovedOn(z, z', data, base, on, on', matchLength);
  }

  /** A block that is full is flushed (deflate.c:639). */
  method FlushIf(e: Encoder, z: Lz, flush: bool, ghost data: seq<byte>, ghost base: nat,
                 ghost on: set<nat>) returns (z': Lz)
    requires Stepped(z, data, base, on) && z.strstart <= 65535 && (!flush ==> |e.ts| + 1 < LIT_BUFSIZE)
    requires Sent(e, data, base + z.blockStart, base + z.strstart)
    modifies e`S, e`B, e`ts, e`compressedLen, e.w
    ensures z' == z.(blockStart := z'.blockStart) && FastDone(e, z', data, base, on)
  {
    hide Sent, Chained, Primed;
    z' := z;
    if flush {
      var len := FlushAt(e, z, false, data, base);
      z' := z.(blockStart := z.strstart);
    }
  }

  lemma SteppedBound(z: Lz, data: seq<byte>, base: nat, on: set<nat>)
    requires Stepped(z, data, base, on)
    ensures z.strstart <= 65535 && z.blockStart <= z.strstart && base + z.blockStart >= 0
  {
    hide Chained, Primed;
  }

  /** The body of the loop of deflate_fast up to fill_window. */
  method FastStep(e: Encoder, z: Lz, C: Config, level: nat, matchLength0: nat, ghost data: seq<byte>, ghost base: nat,
                  ghost on: set<nat>)
    returns (z': Lz, matchLength: nat,
             ghost on': set<nat>, ghost z1: Lz, ghost head: nat, ghost start: int, ghost found: nat)
    requires Fast(e, z, data, base, on) && z.lookahead != 0 && ConfigOk(C) && matchLength0 < MIN_MATCH
    modifies e`S, e`B, e`ts, e`all, e`compressedLen, e.w
    ensures FastDone(e, z', data, base, on') && z'.strstart > z.strstart && matchLength < MIN_MATCH
    ensures Anchored(z', base) && Searching(e.all, data, base + z'.strstart, on', z'.strstart)
    ensures z1 == z.(insH := z1.insH, prev := z1.prev, head := z1.head)
    ensures FastSearched(z1, C, head, matchLength0, MIN_MATCH - 1, start, found) && HeadIs(z, on, head)
    ensures forall p :: p in on && p + WSIZE > z'.strstart ==> p in on'
    ensures z.strstart in on' &&
            (found < MIN_MATCH || found <= C.maxLazy ==> forall p :: z.strstart <= p < z'.strstart ==> p in on')
    ensures if found >= MIN_MATCH then z.strstart >= start && e.all == old(e.all) + [Match(found, z.strstart - start)]
            else base + z.strstart < |data| && e.all == old(e.all) + [Literal(data[base + z.strstart])]
  {
    hide Sent, Chained, Primed, Repeats, Candidate, Loaded, Within, FastSearched, HeadIs, HasMatch, NoPlain, Filled;
    ghost var all := e.all;
    FilledOne(e.all, data, base, z, on);
    var hashHead;
    z', hashHead, on' := Enter(z, data, base, on);
    EnteredBounds(z', data, base, on');
    z1, head := z', hashHead;
    z', matchLength := FastSearch(z', C, hashHead, matchLength0, data, base, on');
    EnteredSame(z1, z', data, base, on');
    start, found := z'.matchStart, matchLength;
    var flush;
    ghost var from, p := base + z'.blockStart, base + z'.strstart;
    if matchLength >= MIN_MATCH {
      flush := EmitMatch(e, z'.strstart - z'.matchStart, matchLength - MIN_MATCH, level, z'.strstart - z'.blockStart,
                         data, from, p);
      z', on' := BehindMatch(z', C, matchLength, data, base, on');
      matchLength := 0;
    } else {
      flush := EmitLiteral(e, z'.window[z'.strstart], level, z'.strstart - z'.blockStart, data, from, p);
      ghost var zz := z';
      z' := z'.(strstart := z'.strstart + 1, lookahead := z'.lookahead - 1);
      StepOne(zz, z', data, base, on');
    }
    SteppedBound(z', data, base, on');
    z' := FlushIf(e, z', flush, data, base, on');
    FastDiligent(z, z1, C, on, head, matchLength0, start, found, data, base, all, e.all, e.all[|all|]);
  }

  lemma FilledOne(all: seq<Token>, data: seq<byte>, base: nat, z: Lz, on: set<nat>)
    requires Searching(all, data, base + z.strstart, on, z.strstart)
    ensures Diligent(all, data, base + z.strstart, 0) && (HasMatch(all) || Filled(on, z.strstart))
    ensures Filled(on, z.strstart) ==> Filled(Inserted(on, z.strstart), z.strstart + 1)
  {
    if Filled(on, z.strstart) { FilledInsert(on, z.strstart); }
  }

  /** deflate_fast */
  method DeflateQuick(e: Encoder, z0: Lz, C: Config, level: nat, data: seq<byte>, ghost base0: nat,
                      ghost on0: set<nat>) returns (len: nat)
    requires Fast(e, z0, data, base0, on0) && ConfigOk(C)
    modifies e`S, e`B, e`ts, e`all, e`compressedLen, e.w
    ensures e.w.Valid() && len == |e.w.out| && FileFor(e.w.out, data) && Told(e.all, data, |data|)
    ensures HasMatch(e.all) || NoPlain(data, |data|)
  {
    hide Sent, Chained, Primed, Loaded, Within, FileFor, Told, HasMatch, NoPlain, Filled;
    ghost var base: nat, on: set<nat> := base0, on0;
    var z, matchLength := z0, 0;
    while z.lookahead != 0
      invariant 0 <= matchLength < MIN_MATCH && Fast(e, z, data, base, on)
      decreases |data| - (base + z.strstart)
    {
      InFile(z, data, base, on);
      ghost var z1, head, start, found;
      z, matchLength, on, z1, head, start, found := FastStep(e, z, C, level, matchLength, data, base, on);
      ghost var zz, bb, oo := z, base, on;
      z, base, on := FillUp(z, data, base, on);
      LazyAgain(zz, bb, oo, z, base, on, data);
      InFile(z, data, base, on);
    }
    NothingPending(z, data, base);
    AtEnd(z, data, base, on, 2, false);
    len := FlushAt(e, z, true, data, base);
    assert data[..base + z.strstart] == data;
  }

  // ---- deflate ----

  lemma LevelsOk(level: nat)
    requires 1 <= level <= 9
    ensures ConfigOk(CONFIGURATION[level])
  {
  }

  lemma NothingSent(e: Encoder, data: seq<byte>)
    requires e.Valid() && e.ts == e.all == [] && e.w.Bits() == []
    ensures Sent(e, data, 0, 0)
  {
    CoverNone(data, 0);
    StreamStart();
    assert data[..0] == [];
  }

  /**
   * lm_init and deflate on a fresh encoder: whatever the level, the memory and the way the file is read, the bytes
   * written are a stream for the data. All tokens in a row expand to the data, and no match is longer than 258 bytes
   * or further back than MAX_DIST. When there is no match at all, the data had none that every level must find.
   */
  method Compress(e: Encoder, level: nat, data: seq<byte>, window: seq<byte>, prev: seq<nat>,
                  matchStart: int) returns (len: nat)
    requires 1 <= level <= 9 && e.Valid() && e.ts == e.all == [] && e.w.Bits() == [] && |window| == MEMORY &&
             |prev| == WSIZE
    modifies e`S, e`B, e`ts, e`all, e`compressedLen, e.w
    ensures e.w.Valid() && len == |e.w.out| && FileFor(e.w.out, data)
    ensures AllReach([], e.all) && Expand([], e.all) == data && Near(e.all)
    ensures (forall i :: 0 <= i < |e.all| ==> e.all[i].Literal?) ==> NoPlain(data, |data|)
  {
    hide Sent, Chained, Primed, Loaded, Within, FileFor, CONFIGURATION, Told, AllReach, Expand, Near,
         NoPlain, Filled;
    NothingPlain(data);
    ghost var base, on;
    var z;
    NothingSent(e, data);
    z, base, on := LmInit(data, window, prev, matchStart);
    NothingPending(z, data, base);
    LevelsOk(level);
    Tabled();
    var C := CONFIGURATION[level];
    if level <= 3 {
      len := DeflateQuick(e, z, C, level, data, base, on);
    } else {
      len := DeflateLazy(e, z, C, level, data, base, on);
    }
    ToldAll(e.all, data);
  }

  lemma NothingPlain(data: seq<byte>)
    ensures NoPlain(data, 0)
  {
  }

  lemma Tabled()
    ensures |CONFIGURATION| == 10
  {
  }
}
