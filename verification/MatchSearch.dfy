/** What the searches of deflate and deflate_fast promise, and what a file without matches says about the data. */
module MatchSearch {
  import opened Bitstring
  import opened Rfc1951
  import opened Hash
  import opened HashChains
  import opened LongestMatch
  import opened FillWindow

  const TOO_FAR := 4096

  datatype Config = Config(goodLength: nat, maxLazy: nat, niceLength: nat, maxChain: nat)

  /** configuration_table; entry 0 is never used. */
  const CONFIGURATION: seq<Config> := [
    Config(0, 0, 0, 0), Config(4, 4, 8, 4), Config(4, 5, 16, 8), Config(4, 6, 32, 32), Config(4, 4, 16, 16),
    Config(8, 16, 32, 32), Config(8, 16, 128, 128), Config(8, 32, 128, 256), Config(32, 128, 258, 1024),
      Config(32, 258, 258, 4096)]

  ghost predicate ConfigOk(C: Config) {
    C.maxChain >= 4 && C.maxLazy >= MIN_MATCH
  }

  /** A higher level, of the same kind, never finds a shorter match for the same string and the same dictionary. */
  lemma HigherLevel(z: Lz, hashHead: nat, prevLength: nat, i: nat, j: nat, best1: nat, start1: int, seen1: seq<nat>,
                    best2: nat, start2: int, seen2: seq<nat>)
    requires 1 <= i <= j <= 9 && (j <= 3 || 4 <= i)
    requires var C := CONFIGURATION[i];
             Found(z, hashHead, prevLength, C.maxChain, C.goodLength, C.niceLength, best1, start1, seen1)
    requires var C := CONFIGURATION[j];
             Found(z, hashHead, prevLength, C.maxChain, C.goodLength, C.niceLength, best2, start2, seen2)
    ensures best1 <= best2
  {
    hide Found;
    var C, D := CONFIGURATION[i], CONFIGURATION[j];
    MoreEffort(z, hashHead, prevLength, C.maxChain, C.goodLength, C.niceLength, best1, start1, seen1, D.maxChain,
               D.goodLength, D.niceLength, best2, start2, seen2);
  }

  /** The length kept of a match: no more than there is, and none of a match of three bytes that is far away. */
  function Clipped(best: nat, lookahead: nat, dist: int): nat {
    var n := if best > lookahead then lookahead else best;
    if n == MIN_MATCH && dist > TOO_FAR then n - 1 else n
  }

  /** A search is made only if the head of the chain is near enough and the previous match short enough. */
  ghost predicate Worth(z: Lz, C: Config, hashHead: nat, prevLength: nat) {
    hashHead != 0 && prevLength < C.maxLazy && z.strstart - hashHead <= MAX_DIST
  }

  /** Which match, and how much of it, is kept for the current string. */
  ghost predicate Searched(z: Lz, C: Config, hashHead: nat, prevLength: nat, start: int, matchLength: nat) {
    if Worth(z, C, hashHead, prevLength) then
      exists best, seen :: && Found(z, hashHead, prevLength, C.maxChain, C.goodLength, C.niceLength, best, start, seen)
                           && matchLength == Clipped(best, z.lookahead, z.strstart - start)
    else matchLength == MIN_MATCH - 1 && start == z.matchStart
  }

  /** Which match, and how much of it, is kept for the current string; `prevLength` is always the same here. */
  ghost predicate FastSearched(z: Lz, C: Config, hashHead: nat, matchLength0: nat, prevLength: nat, start: int,
                               matchLength: nat) {
    if hashHead != 0 && z.strstart - hashHead <= MAX_DIST then
      exists best: nat, seen ::
        && Found(z, hashHead, prevLength, C.maxChain, C.goodLength, C.niceLength, best, start, seen)
        && matchLength == if best > z.lookahead then z.lookahead else best
    else matchLength == matchLength0 && start == z.matchStart
  }

  /** `head` is the youngest string of the dictionary with the hash of the current one, if one is near enough. */
  ghost predicate HeadIs(z: Lz, on: set<nat>, head: nat) {
    && z.strstart + 2 < |z.window| && (forall q :: q in on ==> q < z.strstart)
    && (head != 0 && z.strstart - head <= MAX_DIST ==>
          head in on && HashAt(z.window, head) == HashAt(z.window, z.strstart))
    && forall q :: q in on && HashAt(z.window, q) == HashAt(z.window, z.strstart) ==> q <= head
  }

  /** No string in reach has the hash, and so none has the first three bytes, of the current one. */
  ghost predicate NoTwin(z: Lz) {
    && z.strstart + 2 < |z.window|
    && forall q :: 0 < q < z.strstart && z.strstart - q <= MAX_DIST ==>
                     HashAt(z.window, q) != HashAt(z.window, z.strstart)
  }

  /** Without a search either the previous match was long enough, or there was nothing to find. */
  lemma NoSearch(z: Lz, z1: Lz, C: Config, on: set<nat>, head: nat, prevLength: nat)
    requires HeadIs(z, on, head) && Filled(on, z.strstart) && z1.strstart == z.strstart
    ensures !Worth(z1, C, head, prevLength) ==> prevLength >= C.maxLazy || NoTwin(z)
  {
    hide HashAt;
  }

  // ---- nothing is overlooked ----

  ghost function HashOf(data: seq<byte>, p: nat): nat
    requires p + 2 < |data|
  {
    Hash3(data[p], data[p + 1], data[p + 2])
  }

  /**
   * Three bytes at `p` that stood at `q` before, not far back, no string in between having their hash: what every level
   * must find, at least when it has found nothing before.
   */
  ghost predicate Plain(data: seq<byte>, q: nat, p: nat) {
    && 0 < q < p && p - q <= TOO_FAR && p + 3 < |data|
    && data[q] == data[p] && data[q + 1] == data[p + 1] && data[q + 2] == data[p + 2]
    && forall r :: q < r < p ==> HashOf(data, r) != HashOf(data, p)
  }

  ghost predicate NoPlain(data: seq<byte>, n: nat) {
    forall q: nat, p: nat :: p < n ==> !Plain(data, q, p)
  }

  ghost predicate HasMatch(all: seq<Token>) {
    exists i :: 0 <= i < |all| && all[i].Match?
  }

  /** A match was sent, or one is waiting to be sent, or the data up to `n` have nothing to find. */
  ghost predicate Diligent(all: seq<Token>, data: seq<byte>, n: nat, pending: nat) {
    HasMatch(all) || pending >= MIN_MATCH || NoPlain(data, n)
  }

  lemma HashInWindow(z: Lz, data: seq<byte>, base: nat, r: nat)
    requires Loaded(z, data, base) && r + 2 < z.strstart + z.lookahead
    ensures base + r + 2 < |data| && HashAt(z.window, r) == HashOf(data, base + r)
  {
  }

  /** The head of the chain is the string that repeats. */
  lemma HeadRepeats(z: Lz, on: set<nat>, head: nat, data: seq<byte>, base: nat, q: nat)
    requires Loaded(z, data, base) && Anchored(z, base) && Filled(on, z.strstart) && HeadIs(z, on, head)
    requires z.lookahead >= 4 && Plain(data, q, base + z.strstart)
    ensures base < q && head == q - base && head in on
    ensures forall k :: 0 <= k < 3 ==> SameAt(z.window, head, z.strstart, k)
  {
    hide Hash3;
    var s := z.strstart;
    var x := q - base;
    assert 0 < x < s;
    HashInWindow(z, data, base, x);
    HashInWindow(z, data, base, s);
    assert x in on && x <= head;
    assert head in on;
    HashInWindow(z, data, base, head);
  }

  lemma ThreeLonger(window: seq<byte>, q: nat, s: nat, n: nat)
    requires n <= 2 && forall k :: 0 <= k < 3 ==> SameAt(window, q, s, k)
    ensures !NoLonger(window, q, s, n)
  {
  }

  /** The search finds at least the repeated bytes, and keeps them if they are not far. */
  lemma BestFound(z: Lz, head: nat, prevLength: nat, C: Config, best: nat, start: int, seen: seq<nat>)
    requires Found(z, head, prevLength, C.maxChain, C.goodLength, C.niceLength, best, start, seen)
    requires prevLength < MIN_MATCH && forall k :: 0 <= k < 3 ==> SameAt(z.window, head, z.strstart, k)
    ensures best >= MIN_MATCH && (best == MIN_MATCH ==> start == head)
  {
    hide SameAt, NoLonger, BestIs;
    assert seen[0] == head && head in seen;
    if best < MIN_MATCH { ThreeLonger(z.window, head, z.strstart, best); }
    if best == MIN_MATCH {
      var i: nat :| FirstAt(z.window, z.strstart, seen, start, best, i);
      if i > 0 { ThreeLonger(z.window, head, z.strstart, 2); }
    }
  }

  lemma LazyFinds(z: Lz, z1: Lz, C: Config, on: set<nat>, head: nat, prevLength: nat, start: int, found: nat,
                  data: seq<byte>, base: nat, q: nat)
    requires Loaded(z, data, base) && Anchored(z, base) && Filled(on, z.strstart) && HeadIs(z, on, head)
    requires z.eofile || z.lookahead >= MIN_LOOKAHEAD
    requires z1 == z.(insH := z1.insH, prev := z1.prev, head := z1.head) && ConfigOk(C) && prevLength < MIN_MATCH
    requires Searched(z1, C, head, prevLength, start, found) && Plain(data, q, base + z.strstart)
    ensures found >= MIN_MATCH
  {
    hide Found, SameAt, HashOf;
    HeadRepeats(z, on, head, data, base, q);
    var best: nat, seen :| && Found(z1, head, prevLength, C.maxChain, C.goodLength, C.niceLength, best, start, seen)
                           && found == Clipped(best, z1.lookahead, z1.strstart - start);
    BestFound(z1, head, prevLength, C, best, start, seen);
  }

  lemma FastFinds(z: Lz, z1: Lz, C: Config, on: set<nat>, head: nat, length0: nat, start: int, found: nat,
                  data: seq<byte>, base: nat, q: nat)
    requires Loaded(z, data, base) && Anchored(z, base) && Filled(on, z.strstart) && HeadIs(z, on, head)
    requires z.eofile || z.lookahead >= MIN_LOOKAHEAD
    requires z1 == z.(insH := z1.insH, prev := z1.prev, head := z1.head)
    requires FastSearched(z1, C, head, length0, MIN_MATCH - 1, start, found) && Plain(data, q, base + z.strstart)
    ensures found >= MIN_MATCH
  {
    hide Found, SameAt, HashOf;
    HeadRepeats(z, on, head, data, base, q);
    var best: nat, seen :| && Found(z1, head, MIN_MATCH - 1, C.maxChain, C.goodLength, C.niceLength, best, start, seen)
                           && found == if best > z1.lookahead then z1.lookahead else best;
    BestFound(z1, head, MIN_MATCH - 1, C, best, start, seen);
  }

  /** A run of one byte, of six and more, has something to find. */
  lemma RunIsPlain(data: seq<byte>)
    requires |data| >= 6 && forall i :: 0 <= i < |data| ==> data[i] == data[0]
    ensures !NoPlain(data, |data|)
  {
    assert Plain(data, 1, 2);
  }

  lemma NoPlainNext(data: seq<byte>, n: nat)
    requires NoPlain(data, n) && forall q: nat :: !Plain(data, q, n)
    ensures NoPlain(data, n + 1)
  {
    hide Plain;
  }

  lemma MatchStays(all: seq<Token>, more: seq<Token>)
    requires HasMatch(all)
    ensures HasMatch(all + more)
  {
    var i :| 0 <= i < |all| && all[i].Match?;
    assert (all + more)[i].Match?;
  }

  lemma MatchSent(all: seq<Token>, t: Token)
    requires t.Match?
    ensures HasMatch(all + [t])
  {
    assert (all + [t])[|all|] == t;
  }

  /** One step of deflate stays diligent; `all'` are the tokens after it. */
  lemma LazyDiligent(z: Lz, z1: Lz, C: Config, on: set<nat>, head: nat, prevLength: nat, start: int, found: nat,
                     data: seq<byte>, base: nat, all: seq<Token>, all': seq<Token>, n': nat, pending: nat)
    requires Loaded(z, data, base) && Anchored(z, base) && Filled(on, z.strstart) && HeadIs(z, on, head)
    requires z.eofile || z.lookahead >= MIN_LOOKAHEAD
    requires z1 == z.(insH := z1.insH, prev := z1.prev, head := z1.head) && ConfigOk(C)
    requires Searched(z1, C, head, prevLength, start, found) && Diligent(all, data, base + z.strstart, prevLength)
    requires if prevLength >= MIN_MATCH && found <= prevLength then
               exists d: nat :: all' == all + [Match(prevLength, d)]
             else pending == found && n' == base + z.strstart + 1 && (all' == all || exists t :: all' == all + [t])
    ensures Diligent(all', data, n', pending)
  {
    hide Loaded, Searched, HeadIs, Filled, NoPlain, Plain, HasMatch;
    if prevLength >= MIN_MATCH && found <= prevLength {
      var d: nat :| all' == all + [Match(prevLength, d)];
      MatchSent(all, Match(prevLength, d));
    } else if HasMatch(all) {
      if all' != all {
        var t :| all' == all + [t];
        MatchStays(all, [t]);
      }
    } else if prevLength < MIN_MATCH && found < MIN_MATCH {
      var at := base + z.strstart;
      forall q: nat
        ensures !Plain(data, q, at)
      {
        if Plain(data, q, at) {
          LazyFinds(z, z1, C, on, head, prevLength, start, found, data, base, q);
        }
      }
      NoPlainNext(data, base + z.strstart);
    }
  }

  /** One step of deflate_fast: as long as no match was sent, all strings are in the dictionary. */
  lemma FastDiligent(z: Lz, z1: Lz, C: Config, on: set<nat>, head: nat, length0: nat, start: int, found: nat,
                     data: seq<byte>, base: nat, all: seq<Token>, all': seq<Token>, t: Token)
    requires Loaded(z, data, base) && Anchored(z, base) && (HasMatch(all) || Filled(on, z.strstart))
    requires HeadIs(z, on, head) && (z.eofile || z.lookahead >= MIN_LOOKAHEAD)
    requires z1 == z.(insH := z1.insH, prev := z1.prev, head := z1.head)
    requires FastSearched(z1, C, head, length0, MIN_MATCH - 1, start, found) &&
             Diligent(all, data, base + z.strstart, 0)
    requires all' == all + [t] && (found >= MIN_MATCH ==> t.Match?)
    ensures HasMatch(all') || (found < MIN_MATCH && !HasMatch(all) && NoPlain(data, base + z.strstart + 1))
  {
    hide Loaded, FastSearched, HeadIs, Filled, NoPlain, Plain, HasMatch;
    if found >= MIN_MATCH {
      MatchSent(all, t);
    } else if HasMatch(all) {
      MatchStays(all, [t]);
    } else {
      var at := base + z.strstart;
      forall q: nat
        ensures !Plain(data, q, at)
      {
        if Plain(data, q, at) {
          FastFinds(z, z1, C, on, head, length0, start, found, data, base, q);
        }
      }
      NoPlainNext(data, base + z.strstart);
    }
  }
}
