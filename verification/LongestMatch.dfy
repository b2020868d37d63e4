/** longest_match (deflate.c:353-476). */
module LongestMatch {
  import opened Bitstring
  import opened Hash
  import opened OutputWindow
  import opened HashChains

  ghost predicate SameAt(window: seq<byte>, a: int, b: int, i: int) {
    0 <= a + i < |window| && 0 <= b + i < |window| && window[a + i] == window[b + i]
  }

  /** Exactly `n` bytes are equal, or all of the 258 that a match may have. */
  ghost predicate Common(window: seq<byte>, a: int, b: int, n: nat) {
    n <= MAX_MATCH && (forall i :: 0 <= i < n ==> SameAt(window, a, b, i)) &&
      (n < MAX_MATCH ==> !SameAt(window, a, b, n))
  }

  /** No more than `n` bytes are equal. */
  ghost predicate NoLonger(window: seq<byte>, a: int, b: int, n: nat) {
    n >= MAX_MATCH || exists k :: 0 <= k <= n && !SameAt(window, a, b, k)
  }

  /** The string at `m` matches the string at `s` for `len` bytes, at a distance the format allows. */
  ghost predicate IsMatch(window: seq<byte>, s: nat, m: int, len: nat) {
    0 < m < s && s - m <= MAX_DIST && s + len <= |window| && forall i :: 0 <= i < len ==> SameAt(window, m, s, i)
  }

  /** The comparison loop, eight bytes at a time (deflate.c:449-457); the third byte is not looked at. */
  method MatchLength(window: seq<byte>, scan: nat, matchAt: nat) returns (len: nat)
    requires matchAt < scan && scan + MAX_MATCH < |window|
    requires window[matchAt] == window[scan] && window[matchAt + 1] == window[scan + 1] &&
             window[matchAt + 2] == window[scan + 2]
    ensures 3 <= len && Common(window, matchAt, scan, len)
  {
    var k := 2;
    while k < MAX_MATCH
      invariant 2 <= k <= MAX_MATCH && (k - 2) % 8 == 0
      invariant forall i :: 0 <= i <= k ==> SameAt(window, matchAt, scan, i)
    {
      var j := 0;
      ghost var k0 := k;
      while j < 8
        invariant 0 <= j <= 8 && k == k0 + j <= MAX_MATCH
        invariant forall i :: 0 <= i <= k ==> SameAt(window, matchAt, scan, i)
      {
        k := k + 1;
        if window[scan + k] != window[matchAt + k] { return k; }
        j := j + 1;
      }
    }
    return k;
  }

  /** A string on the chain of the current one whose first two bytes agree has the third in common too. */
  lemma ThreeEqual(window: seq<byte>, m: nat, s: nat)
    requires m + 2 < |window| && s + 2 < |window| && HashAt(window, m) == HashAt(window, s)
    requires window[m] == window[s] && window[m + 1] == window[s + 1]
    ensures window[m + 2] == window[s + 2]
  {
    hide Hash3;
    ThirdEqual(window[s], window[s + 1], window[m + 2], window[s + 2]);
  }

  /** `c` may be compared with the current string. */
  ghost predicate Candidate(window: seq<byte>, on: set<nat>, s: nat, c: nat) {
    && 0 < c < s && s - c <= MAX_DIST && s + 2 < |window|
    && c in on && HashAt(window, c) == HashAt(window, s)
  }

  /** One candidate (deflate.c:433-457): its common length if it can be better than best_len, else 0. */
  method TryMatch(window: seq<byte>, scan: nat, c: nat, bestLen: nat, ghost on: set<nat>) returns (len: nat)
    requires scan + MAX_MATCH < |window| && 1 <= bestLen <= MAX_MATCH && Candidate(window, on, scan, c)
    ensures len == 0 || Common(window, c, scan, len)
    ensures len == 0 ==> NoLonger(window, c, scan, bestLen)
  {
    hide Common, HashAt;
    len := 0;
    if window[c + bestLen] != window[scan + bestLen] {
      assert !SameAt(window, c, scan, bestLen);
    } else if window[c + bestLen - 1] != window[scan + bestLen - 1] {
      assert !SameAt(window, c, scan, bestLen - 1);
    } else if window[c] != window[scan] {
      assert !SameAt(window, c, scan, 0);
    } else if window[c + 1] != window[scan + 1] {
      assert !SameAt(window, c, scan, 1);
    } else {
      ThreeEqual(window, c, scan);
      len := MatchLength(window, scan, c);
    }
  }

  /** The link of a candidate is a candidate, unless it ends the search. */
  lemma NextCandidate(window: seq<byte>, prev: seq<nat>, head: seq<nat>, on: set<nat>, s: nat, c: nat)
    requires Chained(window, prev, head, on, s + 1) && Candidate(window, on, s, c)
    ensures var q := prev[c % WSIZE]; q == 0 || (q < c && (q + MAX_DIST >= s ==> Candidate(window, on, s, q)))
  {
    assert LinkOk(window, on, s + 1, c, prev[c % WSIZE]);
  }

  /** The best match so far, if it is better than the one at the previous string. */
  ghost predicate BestIs(window: seq<byte>, s: nat, prevLength: nat, bestLen: nat, start0: int, start: int) {
    && prevLength <= bestLen
    && if bestLen == prevLength then start == start0 else bestLen <= MAX_MATCH && IsMatch(window, s, start, bestLen)
  }

  lemma BetterMatch(window: seq<byte>, on: set<nat>, s: nat, c: nat, prevLength: nat, len: nat, start0: int)
    requires s + MAX_MATCH < |window| && Candidate(window, on, s, c) && Common(window, c, s, len) && len > prevLength
    ensures BestIs(window, s, prevLength, len, start0, c)
  {
  }

  ghost predicate Linked(prev: seq<nat>, seen: seq<nat>, limit: nat, i: nat)
    requires |prev| == WSIZE && 1 <= i < |seen|
  {
    seen[i] == prev[seen[i - 1] % WSIZE] > limit
  }

  /** The strings looked at: the chain from `first` on, link by link, none of them too far back. */
  ghost predicate Trail(prev: seq<nat>, seen: seq<nat>, first: nat, limit: nat)
    requires |prev| == WSIZE
  {
    && |seen| > 0 && seen[0] == first
    && forall i :: 1 <= i < |seen| ==> Linked(prev, seen, limit, i)
  }

  lemma TrailOn(prev: seq<nat>, seen: seq<nat>, first: nat, limit: nat, c: nat)
    requires |prev| == WSIZE && Trail(prev, seen, first, limit) && c == prev[seen[|seen| - 1] % WSIZE] > limit
    ensures Trail(prev, seen + [c], first, limit)
  {
    forall i | 1 <= i < |seen + [c]|
      ensures Linked(prev, seen + [c], limit, i)
    {
      if i < |seen| { assert Linked(prev, seen, limit, i); }
    }
  }

  function Limit(strstart: nat): nat {
    if strstart > MAX_DIST then strstart - MAX_DIST else 0
  }

  function ChainLength(prevLength: nat, goodMatch: nat, maxChain: nat): nat {
    if prevLength >= goodMatch then maxChain / 4 else maxChain
  }

  /** String `i` of those looked at is `start`, and all looked at before have shorter matches than `len`. */
  ghost predicate FirstAt(window: seq<byte>, s: nat, seen: seq<nat>, start: int, len: nat, i: nat)
    requires len >= 1
  {
    i < |seen| && seen[i] == start && forall j :: 0 <= j < i ==> NoLonger(window, seen[j], s, len - 1)
  }

  /** Of matches equally long the nearest is kept. */
  ghost predicate Nearest(window: seq<byte>, s: nat, seen: seq<nat>, prevLength: nat, bestLen: nat, start: int) {
    bestLen > prevLength ==> exists i: nat :: FirstAt(window, s, seen, start, bestLen, i)
  }

  lemma NearestSame(window: seq<byte>, s: nat, seen: seq<nat>, prevLength: nat, bestLen: nat, start: int, c: nat)
    requires Nearest(window, s, seen, prevLength, bestLen, start)
    ensures Nearest(window, s, seen + [c], prevLength, bestLen, start)
  {
    hide NoLonger;
    if bestLen > prevLength {
      var i: nat :| FirstAt(window, s, seen, start, bestLen, i);
      assert FirstAt(window, s, seen + [c], start, bestLen, i);
    }
  }

  lemma NearestNew(window: seq<byte>, s: nat, seen: seq<nat>, prevLength: nat, bestLen: nat, len: nat, c: nat)
    requires len > bestLen && forall x :: x in seen ==> NoLonger(window, x, s, bestLen)
    ensures Nearest(window, s, seen + [c], prevLength, len, c)
  {
    var all := seen + [c];
    forall j | 0 <= j < |seen|
      ensures NoLonger(window, all[j], s, len - 1)
    {
      assert all[j] in seen;
    }
    assert FirstAt(window, s, all, c, len, |seen|);
  }

  /** The longest match with which a search goes on. */
  function Patience(prevLength: nat, niceMatch: nat): nat {
    if prevLength + 1 >= niceMatch then prevLength else niceMatch - 1
  }

  /** Only the last string looked at has a match that is nice. */
  ghost predicate Patient(window: seq<byte>, s: nat, seen: seq<nat>, prevLength: nat, niceMatch: nat) {
    forall i :: 0 <= i < |seen| - 1 ==> NoLonger(window, seen[i], s, Patience(prevLength, niceMatch))
  }

  lemma PatientNow(window: seq<byte>, s: nat, seen: seq<nat>, c: nat, prevLength: nat, bestLen: nat, niceMatch: nat)
    requires bestLen <= Patience(prevLength, niceMatch) && forall x :: x in seen ==> NoLonger(window, x, s, bestLen)
    ensures Patient(window, s, seen + [c], prevLength, niceMatch)
  {
    var all, k := seen + [c], Patience(prevLength, niceMatch);
    forall i | 0 <= i < |all| - 1
      ensures NoLonger(window, all[i], s, k)
    {
      assert all[i] in seen;
    }
  }

  /**
   * The outcome of a search along the chain of `hash_head`. A length above prev_length is that of a match, no string
   * looked at (`seen`) has a longer one, and none looked at before has one as long. The search ends with a match
   * that is nice enough, after the number of strings allowed, or where the chain leaves the window, not before and not
   * later.
   */
  ghost predicate Found(z: Lz, hashHead: nat, prevLength: nat, maxChain: nat, goodMatch: nat, niceMatch: nat,
                        bestLen: nat, matchStart: int, seen: seq<nat>)
  {
    && bestLen <= MAX_MATCH && BestIs(z.window, z.strstart, prevLength, bestLen, z.matchStart, matchStart)
    && (forall c :: c in seen ==> c < z.strstart && NoLonger(z.window, c, z.strstart, bestLen))
    && Nearest(z.window, z.strstart, seen, prevLength, bestLen, matchStart)
    && Patient(z.window, z.strstart, seen, prevLength, niceMatch)
    && |z.prev| == WSIZE && Trail(z.prev, seen, hashHead, Limit(z.strstart))
    && |seen| <= ChainLength(prevLength, goodMatch, maxChain)
    && (|| (bestLen > prevLength && bestLen >= niceMatch) || |seen| == ChainLength(prevLength, goodMatch, maxChain)
        || z.prev[seen[|seen| - 1] % WSIZE] <= Limit(z.strstart))
  }

  /** longest_match */
  method Longest(z: Lz, hashHead: nat, prevLength: nat, maxChain: nat, goodMatch: nat, niceMatch: nat,
                 ghost on: set<nat>)
    returns (bestLen: nat, matchStart: int, ghost seen: seq<nat>)
    requires z.strstart + MAX_MATCH < |z.window| && 1 <= prevLength <= MAX_MATCH && maxChain >= 4
    requires Chained(z.window, z.prev, z.head, on, z.strstart + 1) && Candidate(z.window, on, z.strstart, hashHead)
    ensures Found(z, hashHead, prevLength, maxChain, goodMatch, niceMatch, bestLen, matchStart, seen)
  {
    hide Common, HashAt, Chained, Candidate, IsMatch, NoLonger, Trail, Nearest, Patient;
    var chainLength := if prevLength >= goodMatch then maxChain / 4 else maxChain;
    var limit := if z.strstart > MAX_DIST then z.strstart - MAX_DIST else 0;
    var curMatch := hashHead;
    bestLen, matchStart, seen := prevLength, z.matchStart, [];
    CandidateBelow(z.window, on, z.strstart, curMatch);
    ChainSizes(z.window, z.prev, z.head, on, z.strstart + 1);
    TrailStart(z.prev, hashHead, limit);
    NoneYet(z.window, z.strstart, prevLength, z.matchStart);
    while true
      invariant chainLength >= 1 && 0 <= curMatch < z.strstart && Candidate(z.window, on, z.strstart, curMatch)
      invariant 1 <= bestLen <= MAX_MATCH && BestIs(z.window, z.strstart, prevLength, bestLen, z.matchStart, matchStart)
      invariant Trail(z.prev, seen + [curMatch], hashHead, limit) &&
                |seen| + chainLength == ChainLength(prevLength, goodMatch, maxChain)
      invariant forall c :: c in seen ==> c < z.strstart && NoLonger(z.window, c, z.strstart, bestLen)
      invariant Nearest(z.window, z.strstart, seen, prevLength, bestLen, matchStart)
      invariant bestLen <= Patience(prevLength, niceMatch)
      decreases curMatch
    {
      var len := TryMatch(z.window, z.strstart, curMatch, bestLen, on);
      PatientNow(z.window, z.strstart, seen, curMatch, prevLength, bestLen, niceMatch);
      SeenNoLonger(z.window, seen, z.strstart, bestLen, curMatch, len);
      NearestSame(z.window, z.strstart, seen, prevLength, bestLen, matchStart, curMatch);
      if len > bestLen { NearestNew(z.window, z.strstart, seen, prevLength, bestLen, len, curMatch); }
      seen := seen + [curMatch];
      if len > bestLen {
        BetterMatch(z.window, on, z.strstart, curMatch, prevLength, len, z.matchStart);
        matchStart, bestLen := curMatch, len;
        if len >= niceMatch { break; }
      }
      NextCandidate(z.window, z.prev, z.head, on, z.strstart, curMatch);
      curMatch := z.prev[curMatch % WSIZE];
      if curMatch <= limit { break; }
      TrailOn(z.prev, seen, hashHead, limit, curMatch);
      chainLength := chainLength - 1;
      if chainLength == 0 { break; }
    }
  }

  lemma NoneYet(window: seq<byte>, s: nat, prevLength: nat, start: int)
    ensures Nearest(window, s, [], prevLength, prevLength, start)
  {
  }

  lemma TrailStart(prev: seq<nat>, first: nat, limit: nat)
    requires |prev| == WSIZE
    ensures Trail(prev, [] + [first], first, limit)
  {
  }

  lemma SeenNoLonger(window: seq<byte>, seen: seq<nat>, s: nat, best: nat, c: nat, len: nat)
    requires c < s && (len == 0 ==> NoLonger(window, c, s, best)) && (len == 0 || Common(window, c, s, len))
    requires forall x :: x in seen ==> x < s && NoLonger(window, x, s, best)
    ensures forall x :: x in seen + [c] ==> x < s && NoLonger(window, x, s, if len > best then len else best)
  {
    hide SameAt;
  }

  lemma CandidateBelow(window: seq<byte>, on: set<nat>, s: nat, c: nat)
    requires Candidate(window, on, s, c)
    ensures c < s
  {
  }

  lemma ChainSizes(window: seq<byte>, prev: seq<nat>, head: seq<nat>, on: set<nat>, s: nat)
    requires Chained(window, prev, head, on, s)
    ensures |prev| == WSIZE && |head| == HASH_SIZE
  {
  }

  // ---- more effort ----

  lemma {:induction false} SameTrail(prev: seq<nat>, a: seq<nat>, b: seq<nat>, first: nat, limit: nat, i: nat)
    requires |prev| == WSIZE && Trail(prev, a, first, limit) && Trail(prev, b, first, limit) && i < |a| && i < |b|
    ensures a[i] == b[i]
  {
    if i == 0 {
    } else {
      SameTrail(prev, a, b, first, limit, i - 1);
      assert Linked(prev, a, limit, i) && Linked(prev, b, limit, i);
    }
  }

  lemma MatchBounds(window: seq<byte>, s: nat, c: int, len: nat, n: nat)
    requires len <= MAX_MATCH && IsMatch(window, s, c, len) && NoLonger(window, c, s, n)
    ensures len <= n
  {
  }

  /** A search that looked at no fewer strings found no shorter match. */
  lemma LongerTrail(z: Lz, hashHead: nat, prevLength: nat, C1: nat, g1: nat, n1: nat, best1: nat, start1: int,
                    seen1: seq<nat>, C2: nat, g2: nat, n2: nat, best2: nat, start2: int, seen2: seq<nat>)
    requires Found(z, hashHead, prevLength, C1, g1, n1, best1, start1, seen1)
    requires Found(z, hashHead, prevLength, C2, g2, n2, best2, start2, seen2) && |seen1| <= |seen2|
    ensures best1 <= best2
  {
    hide NoLonger, IsMatch, Trail, Patient;
    if best1 > prevLength {
      var i: nat :| FirstAt(z.window, z.strstart, seen1, start1, best1, i);
      SameTrail(z.prev, seen1, seen2, hashHead, Limit(z.strstart), i);
      assert seen2[i] in seen2;
      MatchBounds(z.window, z.strstart, start1, best1, best2);
    }
  }

  /** A search with higher limits is not over before one with lower limits. */
  lemma NotOver(z: Lz, hashHead: nat, prevLength: nat, C1: nat, g1: nat, n1: nat, best1: nat, start1: int,
                seen1: seq<nat>, C2: nat, g2: nat, n2: nat, best2: nat, start2: int, seen2: seq<nat>)
    requires Found(z, hashHead, prevLength, C1, g1, n1, best1, start1, seen1)
    requires Found(z, hashHead, prevLength, C2, g2, n2, best2, start2, seen2)
    requires C1 <= C2 && g1 <= g2 && n1 <= n2
    ensures |seen1| <= |seen2|
  {
    hide NoLonger, IsMatch, Trail, Nearest;
    if |seen1| > |seen2| {
      var n := |seen2|;
      TrailSome(z.prev, seen2, hashHead, Limit(z.strstart));
      SameTrail(z.prev, seen1, seen2, hashHead, Limit(z.strstart), n - 1);
      TrailLink(z.prev, seen1, hashHead, Limit(z.strstart), n);
      assert best2 > prevLength && best2 >= n2;
      NiceLast(z, hashHead, prevLength, n1, n2, seen1, best2, start2, seen2);
    }
  }

  lemma TrailSome(prev: seq<nat>, seen: seq<nat>, first: nat, limit: nat)
    requires |prev| == WSIZE && Trail(prev, seen, first, limit)
    ensures |seen| > 0
  {
  }

  lemma TrailLink(prev: seq<nat>, seen: seq<nat>, first: nat, limit: nat, i: nat)
    requires |prev| == WSIZE && Trail(prev, seen, first, limit) && 1 <= i < |seen|
    ensures seen[i] == prev[seen[i - 1] % WSIZE] > limit
  {
    assert Linked(prev, seen, limit, i);
  }

  /** A match that is nice to the second search ends the first. */
  lemma NiceLast(z: Lz, hashHead: nat, prevLength: nat, n1: nat, n2: nat, seen1: seq<nat>, best2: nat, start2: int,
                 seen2: seq<nat>)
    requires |z.prev| == WSIZE && Trail(z.prev, seen1, hashHead, Limit(z.strstart))
    requires Trail(z.prev, seen2, hashHead, Limit(z.strstart)) && best2 > prevLength && MAX_MATCH >= best2 >= n2 >= n1
    requires BestIs(z.window, z.strstart, prevLength, best2, z.matchStart, start2)
    requires Nearest(z.window, z.strstart, seen2, prevLength, best2, start2)
    requires Patient(z.window, z.strstart, seen1, prevLength, n1)
    ensures |seen1| <= |seen2|
  {
    hide NoLonger, IsMatch, Trail;
    if |seen1| > |seen2| {
      var i: nat :| FirstAt(z.window, z.strstart, seen2, start2, best2, i);
      SameTrail(z.prev, seen1, seen2, hashHead, Limit(z.strstart), i);
      MatchBounds(z.window, z.strstart, start2, best2, Patience(prevLength, n1));
    }
  }

  /** With higher limits the match found for the same string is no shorter. */
  lemma MoreEffort(z: Lz, hashHead: nat, prevLength: nat, C1: nat, g1: nat, n1: nat, best1: nat, start1: int,
                   seen1: seq<nat>, C2: nat, g2: nat, n2: nat, best2: nat, start2: int, seen2: seq<nat>)
    requires Found(z, hashHead, prevLength, C1, g1, n1, best1, start1, seen1)
    requires Found(z, hashHead, prevLength, C2, g2, n2, best2, start2, seen2)
    requires C1 <= C2 && g1 <= g2 && n1 <= n2
    ensures best1 <= best2
  {
    hide Found;
    NotOver(z, hashHead, prevLength, C1, g1, n1, best1, start1, seen1, C2, g2, n2, best2, start2, seen2);
    LongerTrail(z, hashHead, prevLength, C1, g1, n1, best1, start1, seen1, C2, g2, n2, best2, start2, seen2);
  }

  // ---- when nothing was overlooked ----

  /** Strings with other hashes differ in the first three bytes. */
  lemma OtherHash(window: seq<byte>, q: nat, s: nat, n: nat)
    requires q < s && s + 2 < |window| && HashAt(window, q) != HashAt(window, s) && n >= 2
    ensures NoLonger(window, q, s, n)
  {
    hide Hash3;
    if SameAt(window, q, s, 0) && SameAt(window, q, s, 1) { assert !SameAt(window, q, s, 2); }
  }

  lemma {:induction false} SeenFrom(z: Lz, on: set<nat>, hashHead: nat, seen: seq<nat>, i: nat, c: nat)
    requires Chained(z.window, z.prev, z.head, on, z.strstart + 1) && Trail(z.prev, seen, hashHead, Limit(z.strstart))
    requires Candidate(z.window, on, z.strstart, c) && c > Limit(z.strstart)
    requires i < |seen| && Candidate(z.window, on, z.strstart, seen[i]) && c <= seen[i]
    requires z.prev[seen[|seen| - 1] % WSIZE] <= Limit(z.strstart)
    ensures c in seen
    decreases |seen| - i
  {
    hide HashAt;
    if c < seen[i] {
      var p := seen[i];
      assert LinkOk(z.window, on, z.strstart + 1, p, z.prev[p % WSIZE]);
      assert c <= z.prev[p % WSIZE];
      assert i + 1 < |seen|;
      assert Linked(z.prev, seen, Limit(z.strstart), i + 1);
      NextCandidate(z.window, z.prev, z.head, on, z.strstart, p);
      SeenFrom(z, on, hashHead, seen, i + 1, c);
    }
  }

  /** The search was not cut short, neither by a nice match nor by the number of strings allowed. */
  ghost predicate Uncut(prevLength: nat, maxChain: nat, goodMatch: nat, niceMatch: nat, bestLen: nat, seen: seq<nat>) {
    && (bestLen < niceMatch || bestLen == prevLength) && |seen| < ChainLength(prevLength, goodMatch, maxChain)
  }

  /** Then no string in reach, of the whole window, has a longer match. */
  lemma Exhaustive(z: Lz, on: set<nat>, hashHead: nat, prevLength: nat, maxChain: nat, goodMatch: nat, niceMatch: nat,
                   bestLen: nat, matchStart: int, seen: seq<nat>, q: nat)
    requires Chained(z.window, z.prev, z.head, on, z.strstart + 1) && Filled(on, z.strstart + 1)
    requires Candidate(z.window, on, z.strstart, hashHead)
    requires Youngest(z.window, on, HashAt(z.window, z.strstart), z.strstart, hashHead)
    requires Found(z, hashHead, prevLength, maxChain, goodMatch, niceMatch, bestLen, matchStart, seen)
    requires Uncut(prevLength, maxChain, goodMatch, niceMatch, bestLen, seen) && bestLen >= 2
    requires Limit(z.strstart) < q < z.strstart
    ensures NoLonger(z.window, q, z.strstart, bestLen)
  {
    hide HashAt, NoLonger, BestIs;
    if HashAt(z.window, q) != HashAt(z.window, z.strstart) {
      OtherHash(z.window, q, z.strstart, bestLen);
    } else {
      SeenFrom(z, on, hashHead, seen, 0, q);
    }
  }
}
