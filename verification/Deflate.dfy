/** lm_init and deflate (deflate.c:285-338, 657-759). */
module Deflate {
  import opened Bitstring
  import opened Rfc1951
  import opened TallyBuffers
  import opened FlushBlock
  import opened Stream
  import opened OutputWindow
  import opened Hash
  import opened HashChains
  import opened LongestMatch
  import opened FillWindow
  import opened DeflateSteps
  import opened MatchSearch

  // ---- lm_init ----

  lemma NoStrings(window: seq<byte>, prev: seq<nat>, head: seq<nat>)
    requires |prev| == WSIZE && |head| == HASH_SIZE && forall h :: 0 <= h < HASH_SIZE ==> head[h] == 0
    ensures Chained(window, prev, head, {}, 0)
  {
  }

  /** `window`, `prev` and the old match_start are whatever the memory holds. */
  method LmInit(data: seq<byte>, window: seq<byte>, prev: seq<nat>, matchStart: int)
    returns (z: Lz, ghost base: nat, ghost on: set<nat>)
    requires |window| == MEMORY && |prev| == WSIZE
    ensures Ready(z, data, base, on) && (z.eofile || z.lookahead >= MIN_LOOKAHEAD) &&
            (z.lookahead > 0 ==> Primed(z.insH, z.window, z.strstart))
    ensures base + z.strstart == 0 && base + z.blockStart == 0 && Filled(on, z.strstart) && Anchored(z, base)
  {
    hide Chained, Primed, Update;
    base, on := 0, {};
    z := Lz(window, prev, seq(HASH_SIZE, i => 0), 0, 0, matchStart, 0, false, 0, 0);
    NoStrings(window, prev, z.head);
    var n := ReadBuf(data, 0, 2 * WSIZE);
    if n == 0 {
      z := z.(eofile := true);
      return;
    }
    assert Loaded(z, data, 0);
    z := z.(window := Appended(z, data, n), lookahead := n, isize := n);
    NoStrings(z.window, prev, z.head);
    z, base, on := FillUp(z, data, base, on);
    var h, j := 0, 0;
    ghost var s := z.strstart;
    PrimedTwo(z.window, s, 0);
    while j < MIN_MATCH - 1
      invariant 0 <= j <= 2 &&
                h == if j == 0 then 0 else if j == 1 then Update(0, z.window[0])
                     else Update(Update(0, z.window[0]), z.window[1])
    {
      h := Update(h, z.window[j]);
      j := j + 1;
    }
    z := z.(insH := h);
  }

  // ---- one step of deflate ----

  /**
   * The match of the previous string, if it had one of at least three bytes: all its bytes are there, and it can be
   * sent.
   */
  ghost predicate Pending(z: Lz, data: seq<byte>, base: nat, matchLength: nat, available: bool) {
    && 1 <= matchLength <= MAX_MATCH && (available ==> z.strstart >= 1)
    && (matchLength >= MIN_MATCH ==>
          && available && matchLength <= z.lookahead + 1 && 1 <= z.strstart - 1 - z.matchStart <= MAX_DIST
          && Repeats(data, base + z.strstart - 1, matchLength, z.strstart - 1 - z.matchStart))
  }

  /** The match of the current string, if it is better than the previous one. */
  ghost predicate Current(z: Lz, data: seq<byte>, base: nat, prevLength: nat, matchLength: nat) {
    && 1 <= matchLength <= MAX_MATCH
    && (matchLength >= MIN_MATCH && matchLength > prevLength ==>
          && matchLength <= z.lookahead && 1 <= z.strstart - z.matchStart <= MAX_DIST
          && Repeats(data, base + z.strstart, matchLength, z.strstart - z.matchStart))
  }

  lemma FoundBest(z: Lz, hashHead: nat, prevLength: nat, maxChain: nat, goodMatch: nat, niceMatch: nat,
                  bestLen: nat, matchStart: int, seen: seq<nat>)
    requires Found(z, hashHead, prevLength, maxChain, goodMatch, niceMatch, bestLen, matchStart, seen)
    ensures bestLen <= MAX_MATCH && BestIs(z.window, z.strstart, prevLength, bestLen, z.matchStart, matchStart)
  {
    hide Trail, NoLonger, BestIs, Nearest;
  }

  lemma BestCurrent(z: Lz, z': Lz, data: seq<byte>, base: nat, prevLength: nat, bestLen: nat, matchLength: nat)
    requires Loaded(z, data, base) && z.lookahead >= 1 && 1 <= prevLength && bestLen <= MAX_MATCH
    requires BestIs(z.window, z.strstart, prevLength, bestLen, z.matchStart, z'.matchStart)
    requires z' == z.(matchStart := z'.matchStart)
    requires matchLength == if bestLen > z.lookahead then z.lookahead else bestLen
    ensures Current(z', data, base, prevLength, matchLength)
  {
    hide Repeats;
    if bestLen > prevLength { MatchInData(z, data, base, z'.matchStart, bestLen, matchLength); }
  }

  /** The search for a match of the current string (deflate.c:679-699). */
  method Search(z: Lz, C: Config, hashHead: nat, prevLength: nat, ghost data: seq<byte>, ghost base: nat,
                ghost on: set<nat>)
    returns (z': Lz, matchLength: nat)
    requires Loaded(z, data, base) && ConfigOk(C) && 1 <= prevLength <= MAX_MATCH && z.lookahead >= 1 &&
             z.strstart + MAX_MATCH < MEMORY
    requires Chained(z.window, z.prev, z.head, on, z.strstart + 1)
    requires hashHead != 0 && z.strstart - hashHead <= MAX_DIST ==> Candidate(z.window, on, z.strstart, hashHead)
    ensures z' == z.(matchStart := z'.matchStart) && Current(z', data, base, prevLength, matchLength)
    ensures Searched(z, C, hashHead, prevLength, z'.matchStart, matchLength)
  {
    hide Chained, Candidate, Repeats, Loaded, Found;
    z', matchLength := z, MIN_MATCH - 1;
    WindowSize(z, data, base);
    if hashHead != 0 && prevLength < C.maxLazy && z.strstart - hashHead <= MAX_DIST {
      var best, start;
      ghost var seen;
      best, start, seen := Longest(z, hashHead, prevLength, C.maxChain, C.goodLength, C.niceLength, on);
      FoundBest(z, hashHead, prevLength, C.maxChain, C.goodLength, C.niceLength, best, start, seen);
      z' := z.(matchStart := start);
      matchLength := best;
      if matchLength > z.lookahead { matchLength := z.lookahead; }
      BestCurrent(z, z', data, base, prevLength, best, matchLength);
      if matchLength == MIN_MATCH && z.strstart - z'.matchStart > TOO_FAR { matchLength := matchLength - 1; }
    }
  }

  /** The strings behind the current one are inserted, up to `count` (deflate.c:714-722 and 613-621). */
  method InsertRun(z: Lz, count0: nat, ghost on: set<nat>) returns (z': Lz, ghost on': set<nat>)
    requires count0 >= 1 && z.strstart + count0 < WINDOW_SIZE && z.strstart + count0 + 2 < |z.window|
    requires Chained(z.window, z.prev, z.head, on, z.strstart + 1) && Primed(z.insH, z.window, z.strstart + 1)
    ensures z' == z.(insH := z'.insH, prev := z'.prev, head := z'.head, strstart := z.strstart + count0)
    ensures Chained(z'.window, z'.prev, z'.head, on', z'.strstart + 1) && Primed(z'.insH, z'.window, z'.strstart + 1)
    ensures forall p :: p in on' ==> p in on || z.strstart < p <= z'.strstart
    ensures forall p :: (p in on || z.strstart < p <= z'.strstart) && p + WSIZE > z'.strstart ==> p in on'
  {
    hide Chained, Primed, HeadOk;
    z', on' := z, on;
    var count := count0;
    while count != 0
      invariant 0 <= count <= count0
      invariant z' == z.(insH := z'.insH, prev := z'.prev, head := z'.head, strstart := z.strstart + (count0 - count))
      invariant Chained(z'.window, z'.prev, z'.head, on', z'.strstart + 1) &&
                Primed(z'.insH, z'.window, z'.strstart + 1)
      invariant forall p :: p in on' ==> p in on || z.strstart < p <= z'.strstart
      invariant forall p :: (p in on || z.strstart < p <= z'.strstart) && p + WSIZE > z'.strstart ==> p in on'
      decreases count
    {
      z' := z'.(strstart := z'.strstart + 1);
      var hashHead;
      z', hashHead := InsertString(z', z'.strstart, on');
      on' := Inserted(on', z'.strstart);
      count := count - 1;
    }
  }

  /** Between two strings of the file, once the current one is in the dictionary. */
  ghost predicate Entered(z: Lz, data: seq<byte>, base: nat, on: set<nat>) {
    && Loaded(z, data, base) && z.blockStart <= z.strstart && base + z.blockStart >= 0
    && z.lookahead >= 1 && (z.eofile || z.lookahead >= MIN_LOOKAHEAD)
    && Chained(z.window, z.prev, z.head, on, z.strstart + 1) && Within(z, on)
    && Primed(z.insH, z.window, z.strstart + 1)
  }

  /** What one step leaves to fill_window. */
  ghost predicate Stepped(z: Lz, data: seq<byte>, base: nat, on: set<nat>) {
    Ready(z, data, base, on) && Primed(z.insH, z.window, z.strstart) && (!z.eofile ==> z.lookahead >= 2) &&
      z.strstart >= 1
  }

  lemma EnteredBounds(z: Lz, data: seq<byte>, base: nat, on: set<nat>)
    requires Entered(z, data, base, on)
    ensures |z.window| == MEMORY && z.strstart + z.lookahead <= WINDOW_SIZE && z.strstart <= 65533
    ensures base + z.strstart + z.lookahead <= |data| &&
            forall i :: 0 <= i < z.strstart + z.lookahead ==> z.window[i] == data[base + i]
  {
    hide Chained, Primed;
  }

  /** The state after the window has moved on by `n` strings. */
  lemma MovedOn(z: Lz, z': Lz, data: seq<byte>, base: nat, on: set<nat>, on': set<nat>, n: nat)
    requires Entered(z, data, base, on) && 1 <= n <= z.lookahead && n <= 258
    requires z'.window == z.window && z'.strstart == z.strstart + n && z'.lookahead == z.lookahead - n &&
             z'.eofile == z.eofile
    requires z'.isize == z.isize && z'.blockStart <= z'.strstart && base + z'.blockStart >= 0
    requires Chained(z'.window, z'.prev, z'.head, on', z'.strstart) && Primed(z'.insH, z'.window, z'.strstart)
    requires forall p :: p in on' ==> p in on || p < z'.strstart
    ensures Stepped(z', data, base, on')
  {
    hide Chained, Primed;
  }

  /** Nothing is pending: the string is only passed (deflate.c:739-746). */
  lemma StepOne(z: Lz, z': Lz, data: seq<byte>, base: nat, on: set<nat>)
    requires Entered(z, data, base, on) &&
             z' == z.(strstart := z.strstart + 1, lookahead := z.lookahead - 1, blockStart := z'.blockStart)
    requires z'.blockStart <= z'.strstart && base + z'.blockStart >= 0
    ensures Stepped(z', data, base, on)
  {
    hide Chained, Primed, Loaded, Within;
    InBefore(z, on);
    MovedOn(z, z', data, base, on, on, 1);
  }

  lemma InBefore(z: Lz, on: set<nat>)
    requires Chained(z.window, z.prev, z.head, on, z.strstart + 1)
    ensures forall p :: p in on ==> p < z.strstart + 1
  {
  }

  /** The previous match is sent, and its strings are inserted (deflate.c:703-726). */
  method TakePrevious(e: Encoder, z: Lz, prevLength: nat, prevMatch: int, level: nat, ghost data: seq<byte>,
                      ghost base: nat, ghost on: set<nat>)
    returns (z': Lz, ghost on': set<nat>)
    requires Entered(z, data, base, on) && MIN_MATCH <= prevLength <= MAX_MATCH && prevLength <= z.lookahead + 1 &&
             z.strstart >= 1
    requires 1 <= z.strstart - 1 - prevMatch <= MAX_DIST &&
             Repeats(data, base + z.strstart - 1, prevLength, z.strstart - 1 - prevMatch)
    requires Sent(e, data, base + z.blockStart, base + z.strstart - 1) && |e.ts| + 1 < LIT_BUFSIZE
    modifies e`S, e`B, e`ts, e`all, e`compressedLen, e.w
    ensures Stepped(z', data, base, on') && z'.strstart == z.strstart + prevLength - 1 && z'.blockStart <= z'.strstart
    ensures Sent(e, data, base + z'.blockStart, base + z'.strstart) && |e.ts| + 1 < LIT_BUFSIZE
    ensures e.all == old(e.all) + [Match(prevLength, z.strstart - 1 - prevMatch)]
    ensures Filled(on, z.strstart + 1) ==> Filled(on', z'.strstart)
  {
    hide Sent, Chained, Primed, Repeats, Loaded, Within;
    EnteredBounds(z, data, base, on);
    var flush := EmitMatch(e, z.strstart - 1 - prevMatch, prevLength - MIN_MATCH, level, z.strstart - z.blockStart,
                           data, base + z.blockStart, base + z.strstart - 1);
    z' := z.(lookahead := z.lookahead - (prevLength - 1));
    z', on' := InsertRun(z', prevLength - 2, on);
    z' := z'.(strstart := z'.strstart + 1);
    MovedOn(z, z', data, base, on, on', prevLength - 1);
    if flush {
      SteppedParts(z', data, base, on');
      var len := FlushAt(e, z', false, data, base);
      z' := z'.(blockStart := z'.strstart);
      MovedOn(z, z', data, base, on, on', prevLength - 1);
    }
  }

  lemma SteppedParts(z: Lz, data: seq<byte>, base: nat, on: set<nat>)
    requires Stepped(z, data, base, on)
    ensures Loaded(z, data, base) && z.blockStart <= z.strstart && base + z.blockStart >= 0
  {
  }

  /** The byte before the current string is sent as a literal (deflate.c:728-738). */
  method PassLiteral(e: Encoder, z: Lz, level: nat, ghost data: seq<byte>, ghost base: nat,
                     ghost on: set<nat>) returns (z': Lz)
    requires Entered(z, data, base, on) && z.strstart >= 1 && z.blockStart <= z.strstart
    requires Sent(e, data, base + z.blockStart, base + z.strstart - 1) && |e.ts| + 1 < LIT_BUFSIZE
    modifies e`S, e`B, e`ts, e`all, e`compressedLen, e.w
    ensures z' == z.(strstart := z.strstart + 1, lookahead := z.lookahead - 1, blockStart := z'.blockStart) &&
            Stepped(z', data, base, on)
    ensures z'.blockStart <= z.strstart && base + z'.blockStart >= 0
    ensures Sent(e, data, base + z'.blockStart, base + z.strstart) && |e.ts| + 1 < LIT_BUFSIZE
    ensures base + z.strstart <= |data| && e.all == old(e.all) + [Literal(data[base + z.strstart - 1])]
  {
    hide Sent, Chained, Primed, Loaded, Within;
    EnteredBounds(z, data, base, on);
    z' := z;
    var flush := EmitLiteral(e, z.window[z.strstart - 1], level, z.strstart - z.blockStart,
                             data, base + z.blockStart, base + z.strstart - 1);
    if flush {
      var len := FlushAt(e, z, false, data, base);
      z' := z'.(blockStart := z'.strstart);
    }
    z' := z'.(strstart := z'.strstart + 1, lookahead := z'.lookahead - 1);
    StepOne(z, z', data, base, on);
  }

  /** The state of deflate before each string. */
  ghost predicate Lazy(e: Encoder, z: Lz, data: seq<byte>, base: nat, on: set<nat>, matchLength: nat, available: bool)
    reads e, e.w
  {
    && Ready(z, data, base, on) && (z.eofile || z.lookahead >= MIN_LOOKAHEAD)
    && (z.lookahead > 0 ==> Primed(z.insH, z.window, z.strstart))
    && Pending(z, data, base, matchLength, available) && |e.ts| + 1 < LIT_BUFSIZE && Filled(on, z.strstart)
    && Anchored(z, base) && Diligent(e.all, data, base + z.strstart, matchLength)
    && Sent(e, data, base + z.blockStart, base + z.strstart - (if available then 1 else 0))
  }

  /** The state of deflate when a string is done, before fill_window. */
  ghost predicate LazyDone(e: Encoder, z: Lz, data: seq<byte>, base: nat,
                           on: set<nat>, matchLength: nat, available: bool)
    reads e, e.w
  {
    && Stepped(z, data, base, on) && Pending(z, data, base, matchLength, available) && |e.ts| + 1 < LIT_BUFSIZE
    && Filled(on, z.strstart) && Anchored(z, base) && Diligent(e.all, data, base + z.strstart, matchLength)
    && Sent(e, data, base + z.blockStart, base + z.strstart - (if available then 1 else 0))
  }

  /** The current string goes into the dictionary. */
  method Enter(z: Lz, ghost data: seq<byte>, ghost base: nat, ghost on: set<nat>)
    returns (z': Lz, hashHead: nat, ghost on': set<nat>)
    requires Ready(z, data, base, on) && (z.eofile || z.lookahead >= MIN_LOOKAHEAD) && z.lookahead >= 1 &&
             Primed(z.insH, z.window, z.strstart)
    ensures Entered(z', data, base, on') && z' == z.(insH := z'.insH, prev := z'.prev, head := z'.head)
    ensures hashHead != 0 && z.strstart - hashHead <= MAX_DIST ==> Candidate(z.window, on', z.strstart, hashHead)
    ensures on' == Inserted(on, z.strstart) && HeadIs(z, on, hashHead)
  {
    hide Chained, Primed, Candidate, HeadOk;
    z', hashHead := InsertString(z, z.strstart, on);
    on' := Inserted(on, z.strstart);
    OnFits(z, on);
    OnBelow(z.window, z.prev, z.head, on, z.strstart);
    if hashHead != 0 && z.strstart - hashHead <= MAX_DIST { HeadCandidate(z.window, on, z.strstart, hashHead); }
  }

  lemma OnFits(z: Lz, on: set<nat>)
    requires Chained(z.window, z.prev, z.head, on, z.strstart)
    ensures forall x :: x in on ==> x + 2 < |z.window|
  {
  }

  lemma CurrentPending(z: Lz, z': Lz, data: seq<byte>, base: nat, prevLength: nat, matchLength: nat)
    requires Current(z, data, base, prevLength, matchLength) && (prevLength >= MIN_MATCH ==> matchLength > prevLength)
    requires z' == z.(strstart := z.strstart + 1, lookahead := z'.lookahead, blockStart := z'.blockStart) &&
             z'.lookahead + 1 == z.lookahead
    ensures Pending(z', data, base, matchLength, true)
  {
    hide Repeats;
  }

  lemma EnteredSame(z: Lz, z': Lz, data: seq<byte>, base: nat, on: set<nat>)
    requires Entered(z, data, base, on) && z' == z.(matchStart := z'.matchStart)
    ensures Entered(z', data, base, on)
  {
  }

  lemma NothingPending(z: Lz, data: seq<byte>, base: nat)
    ensures Pending(z, data, base, 2, false)
  {
  }

  /**
   * The body of the loop of deflate up to fill_window. `z1` is the state once the current string is in the dictionary,
   * and `found` the length kept for it. The previous match is sent unless the new one is longer; a string whose match
   * is not sent costs a literal one step later.
   */
  method LazyStep(e: Encoder, z: Lz, C: Config, level: nat, matchLength0: nat, available0: bool,
                  ghost data: seq<byte>, ghost base: nat, ghost on: set<nat>)
    returns (z': Lz, matchLength: nat, available: bool, ghost on': set<nat>,
             ghost z1: Lz, ghost head: nat, ghost start: int, ghost found: nat)
    requires Lazy(e, z, data, base, on, matchLength0, available0) && z.lookahead != 0 && ConfigOk(C)
    modifies e`S, e`B, e`ts, e`all, e`compressedLen, e.w
    ensures LazyDone(e, z', data, base, on', matchLength, available)
    ensures base + z'.strstart > base + z.strstart
    ensures z1 == z.(insH := z1.insH, prev := z1.prev, head := z1.head) &&
            Searched(z1, C, head, matchLength0, start, found)
    ensures HeadIs(z, on, head) && (!Worth(z1, C, head, matchLength0) ==> matchLength0 >= C.maxLazy || NoTwin(z))
    ensures if matchLength0 >= MIN_MATCH && found <= matchLength0 then
              !available && e.all == old(e.all) + [Match(matchLength0, z.strstart - 1 - z.matchStart)]
            else
              && available && matchLength == found && 0 <= base + z.strstart - (if available0 then 1 else 0) < |data|
              && e.all == old(e.all) + if available0 then [Literal(data[base + z.strstart - 1])] else []
  {
    hide Sent, Chained, Primed, Repeats, Candidate, Loaded, Within, Searched,
         Filled, HeadIs, NoTwin, Worth, Diligent;
    var hashHead;
    z', hashHead, on' := Enter(z, data, base, on);
    FilledInsert(on, z.strstart);
    NoSearch(z, z', C, on, hashHead, matchLength0);
    EnteredBounds(z', data, base, on');
    var prevLength, prevMatch := matchLength0, z'.matchStart;
    z1, head := z', hashHead;
    z', matchLength := Search(z', C, hashHead, prevLength, data, base, on');
    EnteredSame(z1, z', data, base, on');
    start, found := z'.matchStart, matchLength;
    ghost var all := e.all;
    available := available0;
    if prevLength >= MIN_MATCH && matchLength <= prevLength {
      z', on' := TakePrevious(e, z', prevLength, prevMatch, level, data, base, on');
      available, matchLength := false, MIN_MATCH - 1;
      NothingPending(z', data, base);
    } else if available {
      ghost var zz := z';
      z' := PassLiteral(e, z', level, data, base, on');
      CurrentPending(zz, z', data, base, prevLength, matchLength);
    } else {
      available := true;
      ghost var zz := z';
      z' := z'.(strstart := z'.strstart + 1, lookahead := z'.lookahead - 1);
      StepOne(zz, z', data, base, on');
      CurrentPending(zz, z', data, base, prevLength, matchLength);
    }
    LazyDiligent(z, z1, C, on, head, prevLength, start, found, data, base, all, e.all, base + z'.strstart, matchLength);
  }

  /** fill_window moves the window under the same file. */
  lemma PendingMoves(z: Lz, base: nat, z': Lz, base': nat, data: seq<byte>, matchLength: nat, available: bool)
    requires Pending(z, data, base, matchLength, available) && SameFile(z, base, z', base') &&
             (z.strstart >= 1 ==> z'.strstart >= 1)
    ensures Pending(z', data, base', matchLength, available)
  {
    hide Repeats;
  }

  lemma LazyAgain(z: Lz, base: nat, on: set<nat>, z': Lz, base': nat, on': set<nat>, data: seq<byte>)
    requires Stepped(z, data, base, on) && Ready(z', data, base', on') && (z'.eofile || z'.lookahead >= MIN_LOOKAHEAD)
    requires z.lookahead >= 2 && Primed(z.insH, z.window, z.strstart) ==> Primed(z'.insH, z'.window, z'.strstart)
    requires z.eofile ==> z' == z && base' == base && on' == on
    ensures z'.lookahead > 0 ==> Primed(z'.insH, z'.window, z'.strstart)
  {
  }

  /** The loop of deflate: at the end everything has been tallied but the last byte, if that is still waiting. */
  method LazyLoop(e: Encoder, z0: Lz, C: Config, level: nat, data: seq<byte>, ghost base0: nat, ghost on0: set<nat>)
    returns (z: Lz, available: bool, ghost base: nat)
    requires Lazy(e, z0, data, base0, on0, 2, false) && ConfigOk(C)
    modifies e`S, e`B, e`ts, e`all, e`compressedLen, e.w
    ensures Loaded(z, data, base) && z.strstart <= 65535 && z.blockStart <= z.strstart && base + z.blockStart >= 0 &&
            (available ==> z.strstart >= 1)
    ensures base + z.strstart == |data| && |e.ts| + 1 < LIT_BUFSIZE && (HasMatch(e.all) || NoPlain(data, |data|))
    ensures Sent(e, data, base + z.blockStart, base + z.strstart - (if available then 1 else 0))
  {
    hide Sent, Chained, Primed, Pending, Loaded, Within, Filled, Diligent;
    ghost var on;
    var matchLength;
    z, base, on, matchLength, available := z0, base0, on0, MIN_MATCH - 1, false;
    while z.lookahead != 0
      invariant 0 <= matchLength && Lazy(e, z, data, base, on, matchLength, available)
      decreases |data| - (base + z.strstart)
    {
      InFile(z, data, base, on);
      ghost var at := base + z.strstart;
      ghost var z1, head, start, found;
      z, matchLength, available, on, z1, head, start,
        found := LazyStep(e, z, C, level, matchLength, available, data, base, on);
      ghost var zz, bb, oo := z, base, on;
      z, base, on := FillUp(z, data, base, on);
      PendingMoves(zz, bb, z, base, data, matchLength, available);
      LazyAgain(zz, bb, oo, z, base, on, data);
      InFile(z, data, base, on);
    }
    AtEnd(z, data, base, on, matchLength, available);
    assert HasMatch(e.all) || NoPlain(data, |data|) by { DiligentEnd(e.all, data, matchLength); }
  }

  lemma DiligentEnd(all: seq<Token>, data: seq<byte>, pending: nat)
    requires Diligent(all, data, |data|, pending) && pending < MIN_MATCH
    ensures HasMatch(all) || NoPlain(data, |data|)
  {
  }

  lemma InFile(z: Lz, data: seq<byte>, base: nat, on: set<nat>)
    requires Ready(z, data, base, on)
    ensures base + z.strstart <= |data|
  {
  }

  lemma AtEnd(z: Lz, data: seq<byte>, base: nat, on: set<nat>, matchLength: nat, available: bool)
    requires Ready(z, data, base, on) && (z.eofile || z.lookahead >= MIN_LOOKAHEAD) && z.lookahead == 0 &&
             Pending(z, data, base, matchLength, available)
    ensures Loaded(z, data, base) && z.strstart <= 65534 && base + z.strstart == |data| &&
            (available ==> z.strstart >= 1) && matchLength < MIN_MATCH
  {
    hide Chained;
  }

  /** deflate() for levels above 3. */
  method DeflateLazy(e: Encoder, z0: Lz, C: Config, level: nat, data: seq<byte>, ghost base0: nat,
                     ghost on0: set<nat>) returns (len: nat)
    requires Lazy(e, z0, data, base0, on0, 2, false) && ConfigOk(C)
    modifies e`S, e`B, e`ts, e`all, e`compressedLen, e.w
    ensures e.w.Valid() && len == |e.w.out| && FileFor(e.w.out, data) && Told(e.all, data, |data|)
    ensures HasMatch(e.all) || NoPlain(data, |data|)
  {
    hide Sent, FileFor, Told, HasMatch, NoPlain;
    ghost var base;
    var z, available;
    z, available, base := LazyLoop(e, z0, C, level, data, base0, on0);
    if available {
      if HasMatch(e.all) { MatchStays(e.all, [Literal(z.window[z.strstart - 1])]); }
      var full := EmitLiteral(e, z.window[z.strstart - 1], level, z.strstart - z.blockStart,
                              data, base + z.blockStart, base + z.strstart - 1);
    }
    len := FlushAt(e, z, true, data, base);
    assert data[..base + z.strstart] == data;
  }
}
