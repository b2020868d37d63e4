/** The window and the hash chains of deflate.c: INSERT_STRING and the sliding of fill_window. */
module HashChains {
  import opened Bitstring
  import opened Hash
  import opened OutputWindow

  const MIN_MATCH := 3
  const MAX_MATCH := 258
  const MIN_LOOKAHEAD := 262
  const MAX_DIST := 32506
  const WINDOW_SIZE := 0x10000

  /** The window and the memory behind it, which longest_match may read near the end of the file. */
  const MEMORY := 65798

  /**
   * The variables of deflate.c, and the number of bytes read from the file; match_start is taken modulo 2^32 there,
   * and may be one below the window here.
   */
  datatype Lz = Lz(window: seq<byte>, prev: seq<nat>, head: seq<nat>, insH: nat, strstart: nat, matchStart: int,
                   lookahead: nat, eofile: bool, blockStart: int, isize: nat)

  ghost function HashAt(window: seq<byte>, p: nat): nat
    requires p + 2 < |window|
  {
    Hash3(window[p], window[p + 1], window[p + 2])
  }

  // ---- chains ----

  /** No string of the dictionary below `p` that has hash `h` is younger than `q`. */
  ghost predicate Youngest(window: seq<byte>, on: set<nat>, h: nat, p: nat, q: nat)
    requires forall x :: x in on ==> x + 2 < |window|
  {
    forall x :: x in on && x < p && HashAt(window, x) == h ==> x <= q
  }

  /**
   * `q` is the youngest string older than `p` with the hash of `p`. Where there is none, it is out of reach or ends the
   * chain.
   */
  ghost predicate LinkOk(window: seq<byte>, on: set<nat>, s: nat, p: nat, q: nat)
    requires p + 2 < |window| && forall x :: x in on ==> x + 2 < |window|
  {
    && (q == 0 || (q < p && (q + WSIZE < s || (q in on && HashAt(window, q) == HashAt(window, p)))))
    && Youngest(window, on, HashAt(window, p), p, q)
  }

  /** `g` is the youngest string of all with hash `h`. */
  ghost predicate HeadOk(window: seq<byte>, on: set<nat>, s: nat, h: nat, g: nat)
    requires forall x :: x in on ==> x + 2 < |window|
  {
    && (g == 0 || (g < s && (g + WSIZE < s || (g in on && HashAt(window, g) == h))))
    && Youngest(window, on, h, s, g)
  }

  /** The strings `on` are in the dictionary; `s` is the next one to be inserted. */
  ghost predicate Chained(window: seq<byte>, prev: seq<nat>, head: seq<nat>, on: set<nat>, s: nat) {
    && |prev| == WSIZE && |head| == HASH_SIZE && s <= WINDOW_SIZE
    && (forall p :: p in on ==> p < s && p + 2 < |window|)
    && (forall p :: p in on ==> LinkOk(window, on, s, p, prev[p % WSIZE]))
    && (forall h :: 0 <= h < HASH_SIZE ==> HeadOk(window, on, s, h, head[h]))
  }

  lemma OtherSlot(p: nat, s: nat)
    requires p < s < WINDOW_SIZE && p + WSIZE != s
    ensures p % WSIZE != s % WSIZE
  {
  }

  /** The dictionary after string `s` went in; the string whose link is overwritten drops out. */
  ghost function Inserted(on: set<nat>, s: nat): set<nat> {
    (set p | p in on && p + WSIZE != s) + {s}
  }

  lemma InsertLink(window: seq<byte>, prev: seq<nat>, head: seq<nat>, on: set<nat>, s: nat, p: nat)
    requires Chained(window, prev, head, on, s) && s + 2 < |window| && s < WINDOW_SIZE && p in on && p + WSIZE != s
    ensures LinkOk(window, Inserted(on, s), s + 1, p, prev[s % WSIZE := head[HashAt(window, s) % HASH_SIZE]][p % WSIZE])
  {
    OtherSlot(p, s);
    assert LinkOk(window, on, s, p, prev[p % WSIZE]);
  }

  lemma InsertHead(window: seq<byte>, prev: seq<nat>, head: seq<nat>, on: set<nat>, s: nat, h: nat)
    requires Chained(window, prev, head, on, s) && s + 2 < |window| && s < WINDOW_SIZE && h < HASH_SIZE &&
             h != HashAt(window, s)
    ensures HeadOk(window, Inserted(on, s), s + 1, h, head[h])
  {
    assert HeadOk(window, on, s, h, head[h]);
  }

  lemma HashSmall(window: seq<byte>, p: nat)
    requires p + 2 < |window|
    ensures HashAt(window, p) < HASH_SIZE
  {
    Rolls(0, window[p], window[p + 1], window[p + 2]);
  }

  /** INSERT_STRING keeps the chains. */
  lemma InsertKeeps(window: seq<byte>, prev: seq<nat>, head: seq<nat>, on: set<nat>, s: nat, h: nat)
    requires Chained(window, prev, head, on, s) && s + 2 < |window| && s < WINDOW_SIZE && h == HashAt(window, s)
    ensures h < HASH_SIZE && Chained(window, prev[s % WSIZE := head[h]], head[h := s], Inserted(on, s), s + 1)
    ensures HeadOk(window, on, s, h, head[h])
  {
    hide HashAt;
    HashSmall(window, s);
    var prev', head', on' := prev[s % WSIZE := head[h]], head[h := s], Inserted(on, s);
    assert HeadOk(window, on, s, h, head[h]);
    forall p | p in on'
      ensures LinkOk(window, on', s + 1, p, prev'[p % WSIZE])
    {
      if p != s { InsertLink(window, prev, head, on, s, p); }
    }
    forall k | 0 <= k < HASH_SIZE
      ensures HeadOk(window, on', s + 1, k, head'[k])
    {
      if k != h { InsertHead(window, prev, head, on, s, k); }
    }
  }

  // ---- what the chains reach ----

  /** The string after `n` links from `g` on. */
  ghost function Along(prev: seq<nat>, g: nat, n: nat): nat
    requires |prev| == WSIZE
  {
    if n == 0 then g else prev[Along(prev, g, n - 1) % WSIZE]
  }

  lemma {:induction false} AlongMore(prev: seq<nat>, g: nat, n: nat)
    requires |prev| == WSIZE
    ensures Along(prev, g, n + 1) == Along(prev, prev[g % WSIZE], n)
  {
    if n == 0 {
      assert Along(prev, g, 0) == g;
    } else {
      AlongMore(prev, g, n - 1);
    }
  }

  lemma {:induction false} ReachedFrom(window: seq<byte>, prev: seq<nat>, head: seq<nat>, on: set<nat>, s: nat,
                                       g: nat, q: nat) returns (n: nat)
    requires Chained(window, prev, head, on, s) && g in on && q in on && 0 < q <= g && q + WSIZE >= s
    requires HashAt(window, g) == HashAt(window, q)
    ensures Along(prev, g, n) == q
    decreases g
  {
    hide HashAt;
    if g == q {
      n := 0;
    } else {
      var g' := prev[g % WSIZE];
      assert LinkOk(window, on, s, g, g');
      assert q <= g';
      n := ReachedFrom(window, prev, head, on, s, g', q);
      AlongMore(prev, g, n);
      n := n + 1;
    }
  }

  /** Every string of the dictionary that is not too old is found from the head of its chain. */
  lemma Reached(window: seq<byte>, prev: seq<nat>, head: seq<nat>, on: set<nat>, s: nat, q: nat) returns (n: nat)
    requires Chained(window, prev, head, on, s) && q in on && 0 < q && q + WSIZE >= s
    ensures HashAt(window, q) < HASH_SIZE && Along(prev, head[HashAt(window, q)], n) == q
  {
    hide HashAt;
    HashSmall(window, q);
    var h := HashAt(window, q);
    assert HeadOk(window, on, s, h, head[h]);
    n := ReachedFrom(window, prev, head, on, s, head[h], q);
  }

  /** All strings before `s` that are near enough for a match are in the dictionary. */
  ghost predicate Filled(on: set<nat>, s: nat) {
    forall p :: 0 < p < s && s - p <= MAX_DIST ==> p in on
  }

  lemma FilledInsert(on: set<nat>, s: nat)
    requires Filled(on, s)
    ensures Filled(Inserted(on, s), s + 1)
  {
  }

  lemma FilledSlide(on: set<nat>, s: nat)
    requires Filled(on, s) && s >= WSIZE
    ensures Filled(SlidOn(on), s - WSIZE)
  {
    forall p | 0 < p < s - WSIZE && s - WSIZE - p <= MAX_DIST
      ensures p in SlidOn(on)
    {
      assert p + WSIZE in on;
    }
  }

  // ---- sliding ----

  /** The window after its younger half replaced the older one. */
  function Slid(window: seq<byte>): (r: seq<byte>)
    requires |window| == MEMORY
    ensures |r| == MEMORY
  {
    window[WSIZE..WINDOW_SIZE] + window[WSIZE..]
  }

  function Down(m: nat): nat {
    if m >= WSIZE then m - WSIZE else 0
  }

  ghost predicate AllDown(a: seq<nat>, b: seq<nat>) {
    |a| == |b| && forall n :: 0 <= n < |a| ==> b[n] == Down(a[n])
  }

  ghost function SlidOn(on: set<nat>): (r: set<nat>)
    ensures forall x :: x in r <==> x > 0 && x + WSIZE in on
  {
    var r := set p | p in on && p > WSIZE :: p - WSIZE;
    assert forall x :: x > 0 && x + WSIZE in on ==> x in r by {
      forall x | x > 0 && x + WSIZE in on ensures x in r { assert (x + WSIZE) - WSIZE == x; }
    }
    r
  }

  lemma SlidHash(window: seq<byte>, p: nat)
    requires |window| == MEMORY && WSIZE <= p && p + 2 < WINDOW_SIZE
    ensures HashAt(Slid(window), p - WSIZE) == HashAt(window, p)
  {
  }

  lemma SlidSlot(x: nat)
    ensures (x + WSIZE) % WSIZE == x % WSIZE
  {
  }

  lemma SlideYoungest(window: seq<byte>, on: set<nat>, h: nat, p: nat, q: nat)
    requires |window| == MEMORY && (forall x :: x in on ==> x + 2 < WINDOW_SIZE) && p >= WSIZE
    requires Youngest(window, on, h, p, q)
    ensures forall x :: x in SlidOn(on) ==> x + 2 < MEMORY
    ensures Youngest(Slid(window), SlidOn(on), h, p - WSIZE, Down(q))
  {
    hide HashAt;
    forall x | x in SlidOn(on) && x < p - WSIZE && HashAt(Slid(window), x) == h
      ensures x <= Down(q)
    {
      SlidHash(window, x + WSIZE);
    }
  }

  lemma SlideLink(window: seq<byte>, on: set<nat>, s: nat, p: nat, q: nat)
    requires |window| == MEMORY && WSIZE < p < s && (forall x :: x in on ==> x + 2 < WINDOW_SIZE) && p in on
    requires LinkOk(window, on, s, p, q) && s >= WSIZE
    ensures (forall x :: x in SlidOn(on) ==> x + 2 < MEMORY) &&
            LinkOk(Slid(window), SlidOn(on), s - WSIZE, p - WSIZE, Down(q))
  {
    hide HashAt;
    SlidHash(window, p);
    if q > WSIZE && q in on { SlidHash(window, q); }
    SlideYoungest(window, on, HashAt(window, p), p, q);
  }

  lemma SlideHead(window: seq<byte>, on: set<nat>, s: nat, h: nat, g: nat)
    requires |window| == MEMORY && s >= WSIZE && (forall x :: x in on ==> x + 2 < WINDOW_SIZE) &&
             HeadOk(window, on, s, h, g)
    ensures (forall x :: x in SlidOn(on) ==> x + 2 < MEMORY) && HeadOk(Slid(window), SlidOn(on), s - WSIZE, h, Down(g))
  {
    hide HashAt;
    if g > WSIZE && g in on { SlidHash(window, g); }
    SlideYoungest(window, on, h, s, g);
  }

  /** Moving the window down keeps the chains, cut where they leave the window. */
  lemma SlideKeeps(window: seq<byte>, prev: seq<nat>, head: seq<nat>, prev': seq<nat>, head': seq<nat>,
                   on: set<nat>, s: nat)
    requires |window| == MEMORY && Chained(window, prev, head, on, s) && s >= WSIZE && AllDown(prev, prev') &&
             AllDown(head, head')
    requires forall p :: p in on ==> p + 2 < WINDOW_SIZE
    ensures Chained(Slid(window), prev', head', SlidOn(on), s - WSIZE)
  {
    hide HashAt, LinkOk, HeadOk, SlidOn, Slid;
    var w', on' := Slid(window), SlidOn(on);
    forall p | p in on'
      ensures p < s - WSIZE && p + 2 < MEMORY
    {
      assert p + WSIZE in on;
    }
    forall p | p in on'
      ensures LinkOk(w', on', s - WSIZE, p, prev'[p % WSIZE])
    {
      SlidSlot(p);
      SlideLink(window, on, s, p + WSIZE, prev[(p + WSIZE) % WSIZE]);
    }
    forall h | 0 <= h < HASH_SIZE
      ensures HeadOk(w', on', s - WSIZE, h, head'[h])
    {
      SlideHead(window, on, s, h, head[h]);
    }
  }

  // ---- more input behind the strings of the dictionary ----

  lemma ReadKeeps(window: seq<byte>, window': seq<byte>, prev: seq<nat>, head: seq<nat>, on: set<nat>, s: nat, end: nat)
    requires Chained(window, prev, head, on, s) && |window'| == |window| && end <= |window|
    requires (forall i :: 0 <= i < end ==> window'[i] == window[i]) && forall p :: p in on ==> p + 2 < end
    ensures Chained(window', prev, head, on, s)
  {
    assert forall p :: p in on ==> HashAt(window', p) == HashAt(window, p);
    forall p | p in on
      ensures LinkOk(window', on, s, p, prev[p % WSIZE])
    {
      assert LinkOk(window, on, s, p, prev[p % WSIZE]);
    }
    forall h | 0 <= h < HASH_SIZE
      ensures HeadOk(window', on, s, h, head[h])
    {
      assert HeadOk(window, on, s, h, head[h]);
    }
  }

  /** The hash of the first two bytes of string `s` is in place. */
  ghost predicate Primed(insH: nat, window: seq<byte>, s: nat) {
    s + 1 < |window| && forall c: byte :: Update(insH, c) == Hash3(window[s], window[s + 1], c)
  }

  lemma PrimedNext(window: seq<byte>, s: nat)
    requires s + 2 < |window|
    ensures Primed(HashAt(window, s), window, s + 1)
  {
    hide Update;
    forall c: byte
      ensures Update(HashAt(window, s), c) == Hash3(window[s + 1], window[s + 2], c)
    {
      RollsOn(window[s], window[s + 1], window[s + 2], c);
    }
  }

  lemma PrimedTwo(window: seq<byte>, s: nat, h: nat)
    requires s + 1 < |window|
    ensures Primed(Update(Update(h, window[s]), window[s + 1]), window, s)
  {
    hide Update;
    var h2 := Update(Update(h, window[s]), window[s + 1]);
    forall c: byte
      ensures Update(h2, c) == Hash3(window[s], window[s + 1], c)
    {
      Rolls(h, window[s], window[s + 1], c);
    }
  }
}
