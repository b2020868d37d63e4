/** The rest of gen_bitlen (trees.c:527-558): bl_count is made to fit, and the leaves get new lengths. */
module LengthRepair {
  import opened Bitstring
  import opened Codes
  import opened Heap
  import opened Huffman
  import opened HuffmanLoop
  import opened BitLengths
  import opened PathCost
  import opened GenBitLen
  import opened Totals

  // ---- bl_count ----

  /** Kraft's sum of the counts up to `l`, in units of 2^-l. */
  function UsedC(c: seq<nat>, l: nat): nat
    requires l < |c|
  {
    if l == 0 then 0 else 2 * UsedC(c, l - 1) + c[l]
  }

  lemma {:induction false} UsedUpdate(c: seq<nat>, b: nat, x: nat, l: nat)
    requires l < |c| && 1 <= b < |c|
    ensures b > l ==> UsedC(c[b := x], l) == UsedC(c, l)
    ensures b <= l ==> UsedC(c[b := x], l) + Scale(c[b], l - b) == UsedC(c, l) + Scale(x, l - b)
  {
    if l == 0 {
    } else {
      UsedUpdate(c, b, x, l - 1);
    }
  }

  lemma {:induction false} UsedOfCounts(c: seq<nat>, ls: seq<nat>, l: nat)
    requires l < |c| && forall b :: 1 <= b <= l ==> c[b] == Count(ls, b)
    ensures UsedC(c, l) == Used(ls, l)
  {
    if l == 0 {
    } else {
      UsedOfCounts(c, ls, l - 1);
    }
  }

  /** One more or one less at length `b`. */
  lemma UsedBump(c: seq<nat>, b: nat, l: nat)
    requires 1 <= b <= l < |c|
    ensures UsedC(c[b := c[b] + 1], l) == UsedC(c, l) + Pow2(l - b)
    ensures c[b] > 0 ==> UsedC(c[b := c[b] - 1], l) == UsedC(c, l) - Pow2(l - b)
  {
    UsedUpdate(c, b, c[b] + 1, l);
    ScaleAdd(c[b], 1, l - b);
    ScaleOne(l - b);
    if c[b] > 0 {
      UsedUpdate(c, b, c[b] - 1, l);
      ScaleAdd(c[b] - 1, 1, l - b);
    }
  }

  /** One leaf of length `bits` moves down, and one overflow item becomes its brother. */
  function Moved(c: seq<nat>, bits: nat, max: nat): (r: seq<nat>)
    requires 1 <= bits < max < |c| && c[bits] > 0 && c[max] > 0
    ensures |r| == |c|
  {
    var c1 := c[bits := c[bits] - 1];
    var c2 := c1[bits + 1 := c1[bits + 1] + 2];
    c2[max := c2[max] - 1]
  }

  lemma MovedUsed(c: seq<nat>, bits: nat, max: nat)
    requires 1 <= bits < max < |c| && c[bits] > 0 && c[max] > 0
    ensures UsedC(Moved(c, bits, max), max) == UsedC(c, max) - 1
  {
    hide UsedC;
    var c1 := c[bits := c[bits] - 1];
    var c1' := c1[bits + 1 := c1[bits + 1] + 1];
    var c2 := c1[bits + 1 := c1[bits + 1] + 2];
    UsedBump(c, bits, max);
    UsedBump(c1, bits + 1, max);
    UsedBump(c1', bits + 1, max);
    assert c1'[bits + 1 := c1'[bits + 1] + 1] == c2;
    assert Pow2(max - bits) == 2 * Pow2(max - bits - 1);
    UsedBump(c2, max, max);
    assert Pow2(0) == 1;
  }

  lemma MovedTotal(c: seq<nat>, bits: nat, max: nat)
    requires 1 <= bits < max < |c| && c[bits] > 0 && c[max] > 0
    ensures TotalC(Moved(c, bits, max), max) == TotalC(c, max)
    ensures Moved(c, bits, max)[max] + 1 >= c[max] && Moved(c, bits, max)[0] == c[0]
    ensures forall b :: max < b < |c| ==> Moved(c, bits, max)[b] == c[b]
  {
    var c1 := c[bits := c[bits] - 1];
    var c2 := c1[bits + 1 := c1[bits + 1] + 2];
    TotalUpdate(c, bits, c[bits] - 1, max);
    TotalUpdate(c1, bits + 1, c1[bits + 1] + 2, max);
    TotalUpdate(c2, max, c2[max] - 1, max);
  }

  lemma {:induction false} OnlyLongest(c: seq<nat>, l: nat)
    requires l < |c| && forall b :: 1 <= b <= l ==> c[b] == 0
    ensures UsedC(c, l) == 0
  {
    if l == 0 {
    } else {
      OnlyLongest(c, l - 1);
    }
  }

  lemma {:induction false} TotalAbove(c: seq<nat>, b: nat, l: nat)
    requires 1 <= b <= l < |c|
    ensures c[b] <= TotalC(c, l)
  {
    if b < l { TotalAbove(c, b, l - 1); }
  }

  /** Too many codes cannot all have the greatest length. */
  lemma ShorterExists(c: seq<nat>, max: nat) returns (w: nat)
    requires 1 <= max < |c| && UsedC(c, max) > Pow2(max) >= TotalC(c, max)
    ensures 1 <= w < max && c[w] > 0
  {
    if forall b :: 1 <= b < max ==> c[b] == 0 {
      OnlyLongest(c, max - 1);
      TotalAbove(c, max, max);
      assert false;
    }
    w :| 1 <= w < max && c[w] != 0;
  }

  /** The state of bl_count while codes are too long. */
  ghost predicate Repairing(c: seq<nat>, max: nat, overflow: int) {
    && |c| == 16 && 1 <= max <= 15 && overflow >= 0 && overflow % 2 == 0 && c[0] == 0
    && UsedC(c, max) == Pow2(max) + overflow / 2
    && (overflow > 0 ==> c[max] > overflow / 2)
    && TotalC(c, max) <= Pow2(max)
  }

  // ---- which codes become longer ----

  /** How many times an overflow item finds a place below a leaf of length `b`, and the leaves that come of it. */
  function Places(b: nat, max: nat): nat
    requires b <= max
  {
    Pow2(max - b) - 1
  }

  /** How many items the leaves longer than `b`, but shorter than `max`, can take. */
  function Room(c: seq<nat>, b: nat, max: nat): nat
    requires max < |c|
    decreases max - b
  {
    if b + 1 >= max then 0 else c[b + 1] * Places(b + 1, max) + Room(c, b + 1, max)
  }

  lemma {:induction false} RoomSame(c: seq<nat>, d: seq<nat>, b: nat, max: nat)
    requires max < |c| == |d| && forall x :: b < x < max ==> d[x] == c[x]
    ensures Room(d, b, max) == Room(c, b, max)
    decreases max - b
  {
    if b + 1 >= max {
    } else {
      RoomSame(c, d, b + 1, max);
    }
  }

  lemma {:induction false} RoomNone(c: seq<nat>, b: nat, max: nat)
    requires max < |c| && forall x :: b < x < max ==> c[x] == 0
    ensures Room(c, b, max) == 0
    decreases max - b
  {
    if b + 1 >= max {
    } else {
      RoomNone(c, b + 1, max);
      assert 0 * Places(b + 1, max) == 0;
    }
  }

  lemma PlacesSplit(x: nat, y: nat, b: nat, max: nat)
    requires b + 1 < max && x >= 1
    ensures (x - 1) * Places(b, max) + (y + 2) * Places(b + 1, max) == x * Places(b, max) + y * Places(b + 1, max) - 1
  {
    var p := Places(b + 1, max);
    assert Places(b, max) == 2 * p + 1;
    assert (x - 1) * (2 * p + 1) == x * (2 * p + 1) - (2 * p + 1);
    assert (y + 2) * p == y * p + 2 * p;
  }

  lemma PlacesLast(x: nat, b: nat, max: nat)
    requires b + 1 == max && x >= 1
    ensures (x - 1) * Places(b, max) == x * Places(b, max) - 1
  {
    assert Pow2(1) == 2 * Pow2(0);
  }

  /** A move below length `b` takes one place there. */
  lemma {:induction false} RoomMoved(c: seq<nat>, bits: nat, b: nat, max: nat)
    requires 1 <= bits < max < |c| && c[bits] > 0 && c[max] > 0 && b < bits
    ensures Room(Moved(c, bits, max), b, max) + 1 == Room(c, b, max)
    decreases max - b
  {
    var d := Moved(c, bits, max);
    if b + 1 < bits {
      RoomMoved(c, bits, b + 1, max);
    } else if bits + 1 == max {
      RoomSame(c, d, b + 1, max);
      PlacesLast(c[bits], bits, max);
    } else {
      RoomSame(c, d, bits + 1, max);
      PlacesSplit(c[bits], c[bits + 1], bits, max);
      assert Room(c, b + 1, max) == c[bits + 1] * Places(bits + 1, max) + Room(c, bits + 1, max);
      assert Room(d, b + 1, max) == d[bits + 1] * Places(bits + 1, max) + Room(d, bits + 1, max);
    }
  }

  /**
   * After `moved` items found their places: `low` is the shortest length that lost a leaf, `max` if there is none yet.
   * Lengths below it are as they were; those below which there was room for all items so far were not touched.
   */
  ghost predicate Shortest(c0: seq<nat>, c: seq<nat>, max: nat, low: nat, moved: nat)
    requires max < |c0| == |c|
  {
    && 1 <= low <= max && (forall b :: 1 <= b < low ==> c[b] == c0[b]) && (low < max ==> c[low] < c0[low])
    && (forall b :: 1 <= b < low ==> Room(c, b, max) + moved == Room(c0, b, max))
    && (forall b :: low <= b < max ==> Room(c0, b, max) < moved)
  }

  lemma {:induction false} RoomFalls(c: seq<nat>, b: nat, b': nat, max: nat)
    requires max < |c| && b <= b'
    ensures Room(c, b', max) <= Room(c, b, max)
    decreases b' - b
  {
    if b == b' {
    } else {
      RoomFalls(c, b + 1, b', max);
    }
  }

  lemma ShortestStep(c0: seq<nat>, c: seq<nat>, max: nat, low: nat, moved: nat, bits: nat)
    requires max < |c0| == |c| && Shortest(c0, c, max, low, moved)
    requires 1 <= bits < max && c[bits] > 0 && c[max] > 0 && forall x :: bits < x < max ==> c[x] == 0
    ensures Shortest(c0, Moved(c, bits, max), max, if bits < low then bits else low, moved + 1)
  {
    hide Room;
    var d, low' := Moved(c, bits, max), if bits < low then bits else low;
    forall b | 1 <= b < low'
      ensures Room(d, b, max) + moved + 1 == Room(c0, b, max)
    {
      RoomMoved(c, bits, b, max);
    }
    if bits < low { RoomNone(c, bits, max); }
    forall b | low' <= b < max
      ensures Room(c0, b, max) < moved + 1
    {
      if b < low { RoomFalls(c0, bits, b, max); }
    }
  }

  /**
   * A length, or a shorter one, is touched exactly when the leaves between it and the limit have no room for all the
   * items.
   */
  ghost predicate Sparing(c0: seq<nat>, c: seq<nat>, max: nat, items: nat)
    requires max < |c0| == |c|
  {
    forall b :: 1 <= b < max ==> ((exists a :: 1 <= a <= b && c[a] != c0[a]) <==> Room(c0, b, max) < items)
  }

  lemma ShortestEnd(c0: seq<nat>, c: seq<nat>, max: nat, low: nat, items: nat)
    requires max < |c0| == |c| && Shortest(c0, c, max, low, items)
    ensures Sparing(c0, c, max, items)
  {
    hide Room;
    forall b | 1 <= b < max
      ensures (exists a :: 1 <= a <= b && c[a] != c0[a]) <==> Room(c0, b, max) < items
    {
      if b >= low { assert c[low] != c0[low]; }
    }
  }

  /** trees.c:527-538 */
  method Repair(c0: seq<nat>, max: nat, overflow0: nat) returns (c: seq<nat>)
    requires Repairing(c0, max, overflow0)
    ensures Repairing(c, max, 0) && TotalC(c, max) == TotalC(c0, max)
    ensures forall b :: max < b < 16 ==> c[b] == c0[b]
    ensures |c| == |c0| && Sparing(c0, c, max, overflow0 / 2)
  {
    hide UsedC, TotalC, Moved, Shortest, Sparing;
    c := c0;
    var overflow: int := overflow0;
    ghost var low: nat, moved: nat := max, 0;
    NothingMoved(c0, max);
    while overflow > 0
      invariant Repairing(c, max, overflow) && TotalC(c, max) == TotalC(c0, max)
      invariant forall b :: max < b < 16 ==> c[b] == c0[b]
      invariant |c| == |c0| && Shortest(c0, c, max, low, moved) && 2 * moved + overflow == overflow0
    {
      ghost var w := ShorterExists(c, max);
      var bits := max - 1;
      while c[bits] == 0
        invariant w <= bits < max && forall x :: bits < x < max ==> c[x] == 0
        decreases bits
      {
        bits := bits - 1;
      }
      MovedUsed(c, bits, max);
      MovedTotal(c, bits, max);
      ghost var c' := Moved(c, bits, max);
      MovedIs(c, bits, max);
      ShortestStep(c0, c, max, low, moved, bits);
      low, moved := if bits < low then bits else low, moved + 1;
      c := c[bits := c[bits] - 1];
      c := c[bits + 1 := c[bits + 1] + 2];
      c := c[max := c[max] - 1];
      overflow := overflow - 2;
    }
    ShortestEnd(c0, c, max, low, overflow0 / 2);
  }

  lemma NothingMoved(c: seq<nat>, max: nat)
    requires 1 <= max < |c|
    ensures Shortest(c, c, max, max, 0)
  {
  }

  lemma MovedIs(c: seq<nat>, bits: nat, max: nat)
    requires 1 <= bits < max < |c| && c[bits] > 0 && c[max] > 0
    ensures var c1 := c[bits := c[bits] - 1];
            var c2 := c1[bits + 1 := c1[bits + 1] + 2];
            Moved(c, bits, max) == c2[max := c2[max] - 1] && c2[max] > 0
  {
  }

  // ---- the second pass ----

  /** `ds` has the new lengths of the leaves among the first `q` nodes; codes longer than `bits` are all given out. */
  ghost predicate Given(E: seq<nat>, elems: nat, ls: seq<nat>, q: nat, ds: seq<nat>, dl: seq<nat>) {
    && q <= |E| && |ds| == |ls| <= elems <= |dl|
    && (forall v :: 0 <= v < q && E[v] < elems ==> E[v] < |ds| && ds[E[v]] >= 1)
    && (forall v :: q <= v < |E| && E[v] < elems ==> E[v] < |ds| && ds[E[v]] == 0 && ls[E[v]] >= 1)
    && (forall s :: 0 <= s < |ds| && ls[s] == 0 ==> ds[s] == 0)
    && (forall s :: 0 <= s < |ds| ==> dl[s] == if ds[s] > 0 then ds[s] else ls[s])
  }

  ghost predicate GivenCounts(c: seq<nat>, ds: seq<nat>, max: nat, bits: nat, n: nat) {
    && |c| == 16 && bits <= max <= 15 && (bits > 0 ==> n <= c[bits]) && AtMost(ds, max)
    && forall b :: 1 <= b <= max ==> Count(ds, b) == if b > bits then c[b] else if b == bits then c[b] - n else 0
  }

  lemma GivenNode(E: seq<nat>, elems: nat, ls: seq<nat>, q: nat, ds: seq<nat>, dl: seq<nat>)
    requires Given(E, elems, ls, q, ds, dl) && q < |E| && E[q] >= elems
    ensures Given(E, elems, ls, q + 1, ds, dl)
  {
  }

  lemma GivenLeaf(E: seq<nat>, elems: nat, k: nat, ls: seq<nat>, q: nat, ds: seq<nat>, dl: seq<nat>, bits: nat)
    requires TreeIn(E, elems, k, |ls|) && Given(E, elems, ls, q, ds, dl) && q < |E| && E[q] < elems && bits >= 1
    ensures Given(E, elems, ls, q + 1, ds[E[q] := bits], dl[E[q] := bits])
  {
  }

  /** The leaves among the first `q` nodes have lengths that never rise, and none below `bits`. */
  ghost predicate Falling(E: seq<nat>, elems: nat, q: nat, ds: seq<nat>, bits: nat) {
    && q <= |E|
    && (forall u :: 0 <= u < q && E[u] < elems ==> E[u] < |ds| && bits <= ds[E[u]])
    && forall u, v :: 0 <= u <= v < q && E[u] < elems && E[v] < elems && E[u] < |ds| && E[v] < |ds| ==>
                        ds[E[u]] >= ds[E[v]]
  }

  lemma FallingLeaf(E: seq<nat>, elems: nat, k: nat, size: nat, q: nat, ds: seq<nat>, bits: nat)
    requires TreeIn(E, elems, k, size) && Falling(E, elems, q, ds, bits) && q < |E| && E[q] < elems && E[q] < |ds|
    ensures Falling(E, elems, q + 1, ds[E[q] := bits], bits)
  {
  }

  lemma FallingNode(E: seq<nat>, elems: nat, q: nat, ds: seq<nat>, bits: nat)
    requires Falling(E, elems, q, ds, bits) && q < |E| && E[q] >= elems
    ensures Falling(E, elems, q + 1, ds, bits)
  {
  }

  lemma FallingBelow(E: seq<nat>, elems: nat, q: nat, ds: seq<nat>, bits: nat, bits': nat)
    requires Falling(E, elems, q, ds, bits) && bits' <= bits
    ensures Falling(E, elems, q, ds, bits')
  {
  }

  lemma CountsLeaf(c: seq<nat>, ds: seq<nat>, max: nat, bits: nat, n: nat, s: nat)
    requires GivenCounts(c, ds, max, bits, n) && 1 <= bits && n >= 1 && s < |ds| && ds[s] == 0
    ensures GivenCounts(c, ds[s := bits], max, bits, n - 1)
  {
    var ds' := ds[s := bits];
    forall b: nat | 1 <= b <= max
      ensures Count(ds', b) == if b > bits then c[b] else if b == bits then c[b] - (n - 1) else 0
    {
      CountUpdate(ds, s, bits, b);
    }
  }

  lemma ChargeMove(f: nat, a: nat, b: nat, x: nat)
    ensures Charge(f, b, x) == Charge(f, a, x) + (b - a) * f
  {
  }

  /** A leaf changes its length from a positive one to another. */
  lemma OptMove(fc: seq<nat>, ls: seq<nat>, extra: seq<nat>, base: nat, s: nat, b: nat)
    requires |ls| <= |fc| && s < |ls| && ls[s] >= 1 && b >= 1
    ensures Sum(OptTerms(fc, ls[s := b], extra, base)) == Sum(OptTerms(fc, ls, extra, base)) + (b - ls[s]) * fc[s]
  {
    hide Charge, Extra;
    var x := Extra(s, extra, base);
    var c := Charge(fc[s], b, x);
    assert OptTerms(fc, ls[s := b], extra, base) == OptTerms(fc, ls, extra, base)[s := c];
    SumUpdate(OptTerms(fc, ls, extra, base), s, c);
    ChargeMove(fc[s], ls[s], b, x);
  }

  lemma {:induction false} LeafAhead(E: seq<nat>, elems: nat, q: nat)
    requires q <= |E| && LeavesFrom(E, elems, q) > 0
    ensures q < |E| && LeavesFrom(E, elems, q) == (if E[q] < elems then 1 else 0) + LeavesFrom(E, elems, q + 1)
  {
  }

  /** When no leaf is left, every leaf has its new length. */
  lemma {:induction false} NoLeafLeft(E: seq<nat>, elems: nat, q: nat)
    requires q <= |E| && LeavesFrom(E, elems, q) == 0
    ensures forall v :: q <= v < |E| ==> E[v] >= elems
    decreases |E| - q
  {
    if q < |E| { NoLeafLeft(E, elems, q + 1); }
  }

  /** The lengths of the leaves, and what they add to opt_len. */
  ghost function LensOf(dl: seq<nat>, size: nat): (r: seq<nat>)
    ensures |r| == if size <= |dl| then size else |dl|
  {
    if size <= |dl| then dl[..size] else dl
  }

  /** The codes of one length (trees.c:546-556). */
  method GiveOut(D: Desc, heap: seq<nat>, fc: seq<nat>, dl0: seq<nat>, maxCode: nat, c: seq<nat>, bits: nat, h0: nat,
                 opt0: int,
                 ghost E: seq<nat>, ghost k: nat, ghost ls: seq<nat>, ghost ds0: seq<nat>)
    returns (dl: seq<nat>, h: nat, opt: int, ghost ds: seq<nat>)
    requires PassIn(D, E, k, maxCode + 1, fc) && InHeap(heap, E) && |dl0| == |fc| && |ls| == maxCode + 1
    requires |E| <= HEAP_SIZE - 1 && HEAP_SIZE - |E| <= h0 <= HEAP_SIZE &&
             Given(E, D.elems, ls, HEAP_SIZE - h0, ds0, dl0)
    requires 1 <= bits <= D.maxLength && |c| == 16 && GivenCounts(c, ds0, D.maxLength, bits, c[bits])
    requires LeavesFrom(E, D.elems, HEAP_SIZE - h0) == TotalC(c, bits) && Falling(E, D.elems, HEAP_SIZE - h0, ds0, bits)
    ensures HEAP_SIZE - |E| <= h <= HEAP_SIZE && Falling(E, D.elems, HEAP_SIZE - h, ds, bits)
    ensures |dl| == |fc| && HEAP_SIZE - |E| <= h <= HEAP_SIZE && Given(E, D.elems, ls, HEAP_SIZE - h, ds, dl)
    ensures forall s :: maxCode < s < |dl0| ==> dl[s] == dl0[s]
    ensures GivenCounts(c, ds, D.maxLength, bits, 0) && LeavesFrom(E, D.elems, HEAP_SIZE - h) == TotalC(c, bits - 1)
    ensures opt - Sum(OptTerms(fc, LensOf(dl, maxCode + 1), D.extra, D.base)) == opt0 - Sum(OptTerms(fc,
        LensOf(dl0, maxCode + 1), D.extra, D.base))
  {
    hide Given, GivenCounts, Sum, OptTerms, TreeIn, Weighted, LeavesFrom, Falling;
    ghost var size := maxCode + 1;
    dl, h, opt, ds := dl0, h0, opt0, ds0;
    var n := c[bits];
    while n != 0
      invariant |dl| == |fc| && HEAP_SIZE - |E| <= h <= HEAP_SIZE && Given(E, D.elems, ls, HEAP_SIZE - h, ds, dl)
      invariant forall s :: maxCode < s < |dl0| ==> dl[s] == dl0[s]
      invariant Falling(E, D.elems, HEAP_SIZE - h, ds, bits)
      invariant 0 <= n <= c[bits] && GivenCounts(c, ds, D.maxLength, bits, n) &&
                LeavesFrom(E, D.elems, HEAP_SIZE - h) == n + TotalC(c, bits - 1)
      invariant opt - Sum(OptTerms(fc, LensOf(dl, size), D.extra, D.base)) == opt0 - Sum(OptTerms(fc,
          LensOf(dl0, size), D.extra, D.base))
      decreases h
    {
      ghost var q := HEAP_SIZE - h;
      LeafAhead(E, D.elems, q);
      h := h - 1;
      var m := heap[h];
      assert m == E[q];
      LeafSize(D, E, k, size, fc, q);
      if m > maxCode {
        GivenNode(E, D.elems, ls, q, ds, dl);
        FallingNode(E, D.elems, q, ds, bits);
        continue;
      }
      GivenLeaf(E, D.elems, k, ls, q, ds, dl, bits);
      LeafState(E, D.elems, ls, q, ds, dl);
      FallingLeaf(E, D.elems, k, size, q, ds, bits);
      CountsLeaf(c, ds, D.maxLength, bits, n, m);
      if dl[m] != bits {
        OptMove(fc, dl[..size], D.extra, D.base, m, bits);
        assert dl[..size][m := bits] == dl[m := bits][..size];
        opt := opt + (bits - dl[m]) * fc[m];
        dl := dl[m := bits];
      } else {
        assert dl[m := bits] == dl;
      }
      ds := ds[m := bits];
      n := n - 1;
    }
  }

  lemma LeafSize(D: Desc, E: seq<nat>, k: nat, size: nat, fc: seq<nat>, q: nat)
    requires PassIn(D, E, k, size, fc) && q < |E|
    ensures E[q] < |fc| && (E[q] < D.elems <==> E[q] < size) && size <= |fc|
  {
  }

  lemma LeafState(E: seq<nat>, elems: nat, ls: seq<nat>, q: nat, ds: seq<nat>, dl: seq<nat>)
    requires Given(E, elems, ls, q, ds, dl) && q < |E| && E[q] < elems
    ensures E[q] < |ds| == |ls| <= |dl| && ds[E[q]] == 0 && dl[E[q]] >= 1
  {
  }

  lemma CountsNext(c: seq<nat>, ds: seq<nat>, max: nat, bits: nat)
    requires GivenCounts(c, ds, max, bits, 0) && bits >= 1
    ensures GivenCounts(c, ds, max, bits - 1, if bits > 1 then c[bits - 1] else 0)
  {
  }

  lemma CountsFirst(c: seq<nat>, ds: seq<nat>, max: nat)
    requires |c| == 16 && 1 <= max <= 15 && forall s :: 0 <= s < |ds| ==> ds[s] == 0
    ensures GivenCounts(c, ds, max, max, c[max])
  {
    forall b: nat | 1 <= b <= max ensures Count(ds, b) == 0 { CountZeros(ds, b); }
  }

  /** trees.c:545-557 */
  method SecondPass(D: Desc, heap: seq<nat>, fc: seq<nat>, dl0: seq<nat>, maxCode: nat, c: seq<nat>, opt0: int,
                    ghost E: seq<nat>, ghost k: nat, ghost ls: seq<nat>)
    returns (dl: seq<nat>, opt: int)
    requires PassIn(D, E, k, maxCode + 1, fc) && InHeap(heap, E) && |dl0| == |fc| && |ls| == maxCode + 1 && ls <= dl0
    requires |E| <= HEAP_SIZE - 1 && (forall v :: 0 <= v < |E| && E[v] < D.elems ==> E[v] < |ls| && ls[E[v]] >= 1)
    requires forall s :: 0 <= s < |ls| && ls[s] >= 1 ==> Waits(E, 2 * k, s)
    requires |c| == 16 && LeavesFrom(E, D.elems, 0) == TotalC(c, D.maxLength)
    ensures |dl| == |fc| && forall s :: maxCode < s < |dl0| ==> dl[s] == dl0[s]
    ensures forall s :: 0 <= s < |ls| ==> (dl[s] > 0 <==> ls[s] > 0)
    ensures AtMost(dl[..maxCode + 1], D.maxLength) &&
            forall b :: 1 <= b <= D.maxLength ==> Count(dl[..maxCode + 1], b) == c[b]
    ensures opt - Sum(OptTerms(fc, dl[..maxCode + 1], D.extra, D.base)) == opt0 - Sum(OptTerms(fc, ls, D.extra, D.base))
    ensures Falling(E, D.elems, |E|, dl[..maxCode + 1], 0)
  {
    hide Given, GivenCounts, Sum, OptTerms, TreeIn, Weighted, LeavesFrom, TotalC, Falling;
    ghost var size := maxCode + 1;
    ghost var ds: seq<nat> := StartLs(size);
    var h := HEAP_SIZE;
    dl, opt := dl0, opt0;
    TreeFits(D, E, k, size, fc);
    GivenFirst(D, E, k, size, fc, ls, ds, dl);
    CountsFirst(c, ds, D.maxLength);
    NoneFalling(E, D.elems, ds, D.maxLength);
    assert LensOf(dl0, size) == ls;
    var bits := D.maxLength;
    while bits != 0
      invariant 0 <= bits <= D.maxLength && |dl| == |fc| && HEAP_SIZE - |E| <= h <= HEAP_SIZE
      invariant forall s :: maxCode < s < |dl0| ==> dl[s] == dl0[s]
      invariant Given(E, D.elems, ls, HEAP_SIZE - h, ds, dl) &&
                GivenCounts(c, ds, D.maxLength, bits, if bits > 0 then c[bits] else 0)
      invariant LeavesFrom(E, D.elems, HEAP_SIZE - h) == TotalC(c, bits) && Falling(E, D.elems, HEAP_SIZE - h, ds, bits)
      invariant opt - Sum(OptTerms(fc, LensOf(dl, size), D.extra, D.base)) == opt0 - Sum(OptTerms(fc, ls, D.extra,
          D.base))
    {
      dl, h, opt, ds := GiveOut(D, heap, fc, dl, maxCode, c, bits, h, opt, E, k, ls, ds);
      CountsNext(c, ds, D.maxLength, bits);
      FallingBelow(E, D.elems, HEAP_SIZE - h, ds, bits, bits - 1);
      bits := bits - 1;
    }
    GivenLast(D, E, k, size, fc, ls, HEAP_SIZE - h, ds, dl, c);
  }

  lemma TreeFits(D: Desc, E: seq<nat>, k: nat, size: nat, fc: seq<nat>)
    requires PassIn(D, E, k, size, fc)
    ensures D.elems <= |fc|
  {
  }

  lemma NoneFalling(E: seq<nat>, elems: nat, ds: seq<nat>, bits: nat)
    ensures Falling(E, elems, 0, ds, bits)
  {
  }

  lemma GivenFirst(D: Desc, E: seq<nat>, k: nat, size: nat, fc: seq<nat>, ls: seq<nat>, ds: seq<nat>, dl: seq<nat>)
    requires PassIn(D, E, k, size, fc) && |ls| == size && ls <= dl && ds == StartLs(size) && D.elems <= |dl|
    requires forall v :: 0 <= v < |E| && E[v] < D.elems ==> E[v] < |ls| && ls[E[v]] >= 1
    ensures Given(E, D.elems, ls, 0, ds, dl)
  {
  }

  lemma GivenLast(D: Desc, E: seq<nat>, k: nat, size: nat, fc: seq<nat>, ls: seq<nat>, q: nat, ds: seq<nat>,
                  dl: seq<nat>, c: seq<nat>)
    requires PassIn(D, E, k, size, fc) && |ls| == size && Given(E, D.elems, ls, q, ds, dl) &&
             GivenCounts(c, ds, D.maxLength, 0, 0)
    requires LeavesFrom(E, D.elems, q) == TotalC(c, 0) &&
             forall v :: 0 <= v < |E| && E[v] < D.elems ==> E[v] < |ls| && ls[E[v]] >= 1
    requires forall s :: 0 <= s < |ls| && ls[s] >= 1 ==> Waits(E, 2 * k, s)
    ensures size <= |dl|
    ensures forall s :: 0 <= s < |ls| ==> (dl[s] > 0 <==> ls[s] > 0)
    ensures AtMost(dl[..size], D.maxLength) && forall b :: 1 <= b <= D.maxLength ==> Count(dl[..size], b) == c[b]
    ensures Falling(E, D.elems, q, ds, 0) ==> Falling(E, D.elems, |E|, dl[..size], 0)
  {
    NoLeafLeft(E, D.elems, q);
    forall s | 0 <= s < size
      ensures dl[s] == ds[s]
    {
      if ls[s] >= 1 {
        var v :| 0 <= v < 2 * k && v < |E| && E[v] == s;
        assert v < q;
      }
    }
    assert dl[..size] == ds;
  }

  // ---- gen_bitlen ----

  /** Lengths for the leaves: complete, counted, and optimal if none had to be cut. */
  ghost predicate LengthsFor(D: Desc, E: seq<nat>, k: nat, fc: seq<nat>, lens: seq<nat>, c: seq<nat>, overflow: nat) {
    && |lens| <= |fc| && D.maxLength <= 15 && D.elems + k <= |fc|
    && Complete(lens, D.maxLength) && CountsOf(c, lens)
    && (forall s :: 0 <= s < |lens| ==> (lens[s] > 0 <==> Waits(E, 2 * k, s)))
    && (overflow == 0 ==> Dot(fc[..|lens|], lens) == MergeCost(fc, D.elems, k))
  }

  lemma NoOverflow(D: Desc, E: seq<nat>, k: nat, size: nat, fc: seq<nat>, al: seq<int>, ls: seq<nat>, dl: seq<nat>,
                   c: seq<nat>, exact: nat)
    requires PassIn(D, E, k, size, fc) && PassInv(D, E, k, size, fc, 0, al, ls, dl, c, 0, exact)
    ensures LengthsFor(D, E, k, fc, ls, c, 0) && ls <= dl
  {
    hide Occurs, Balanced, PathLen, TakenCost;
    DlEnd(E, D.elems, al, ls, dl);
    BalancedEnd(ls, al, D.maxLength, 0, exact);
    assert Pow2(D.maxLength + 1) == 2 * Pow2(D.maxLength);
    PathEnd(E, D.elems, k, fc, al, ls);
    LeafWaits(E, D.elems, k, size, D.maxLength, al, ls);
  }

  lemma LeafWaits(E: seq<nat>, elems: nat, k: nat, size: nat, max: nat, al: seq<int>, ls: seq<nat>)
    requires TreeIn(E, elems, k, size) && Assigned(E, elems, k, size, max, 0, al, ls)
    ensures forall s :: 0 <= s < |ls| ==> (ls[s] > 0 <==> Waits(E, 2 * k, s))
  {
    forall s | 0 <= s < |ls| && Waits(E, 2 * k, s)
      ensures ls[s] > 0
    {
      var v :| 0 <= v < 2 * k && v < |E| && E[v] == s;
      assert E[v] < elems;
    }
  }

  /** The counts after the first pass are ready for repair. */
  lemma RepairStart(D: Desc, E: seq<nat>, k: nat, size: nat, fc: seq<nat>, al: seq<int>, ls: seq<nat>, dl: seq<nat>,
                    c: seq<nat>, overflow: nat, exact: nat)
    requires PassIn(D, E, k, size, fc) && PassInv(D, E, k, size, fc, 0, al, ls, dl, c, overflow, exact) &&
             D.elems <= Pow2(D.maxLength)
    ensures Repairing(c, D.maxLength, overflow)
  {
    hide Occurs, Balanced, PathLen, TakenCost, Waits;
    BalancedEnd(ls, al, D.maxLength, overflow, exact);
    assert Pow2(D.maxLength + 1) == 2 * Pow2(D.maxLength);
    UsedOfCounts(c, ls, D.maxLength);
    TotalCounts(c, ls, D.maxLength);
  }

  lemma {:induction false} TotalCounts(c: seq<nat>, ls: seq<nat>, l: nat)
    requires l < |c| && forall b :: 1 <= b <= l ==> c[b] == Count(ls, b)
    ensures TotalC(c, l) <= |ls|
  {
    TotalIs(c, ls, l);
    UpToBound(ls, l);
  }

  /** Number of lengths from 1 to `l`. */
  function UpTo(ls: seq<nat>, l: nat): nat {
    if |ls| == 0 then 0 else UpTo(ls[..|ls| - 1], l) + (if 1 <= ls[|ls| - 1] <= l then 1 else 0)
  }

  lemma {:induction false} UpToBound(ls: seq<nat>, l: nat)
    ensures UpTo(ls, l) <= |ls|
  {
    if |ls| == 0 {
    } else {
      UpToBound(ls[..|ls| - 1], l);
    }
  }

  lemma {:induction false} UpToNext(ls: seq<nat>, l: nat)
    ensures UpTo(ls, l + 1) == UpTo(ls, l) + Count(ls, l + 1)
  {
    if |ls| == 0 {
    } else {
      UpToNext(ls[..|ls| - 1], l);
    }
  }

  lemma {:induction false} TotalIs(c: seq<nat>, ls: seq<nat>, l: nat)
    requires l < |c| && forall b :: 1 <= b <= l ==> c[b] == Count(ls, b)
    ensures TotalC(c, l) == UpTo(ls, l)
  {
    if l > 0 {
      TotalIs(c, ls, l - 1);
      UpToNext(ls, l - 1);
    } else {
      UpToNone(ls);
    }
  }

  lemma {:induction false} UpToNone(ls: seq<nat>)
    ensures UpTo(ls, 0) == 0
  {
    if |ls| == 0 {
    } else {
      UpToNone(ls[..|ls| - 1]);
    }
  }

  lemma Repaired(D: Desc, E: seq<nat>, k: nat, size: nat, fc: seq<nat>, ls: seq<nat>, lens: seq<nat>, c0: seq<nat>,
                 c: seq<nat>, overflow: nat)
    requires PassIn(D, E, k, size, fc) && |ls| == |lens| == size && AtMost(ls, D.maxLength) &&
             AtMost(lens, D.maxLength) && overflow > 0
    requires CountsOf(c0, ls) && Repairing(c, D.maxLength, 0) && forall b :: D.maxLength < b < 16 ==> c[b] == c0[b]
    requires forall b :: 1 <= b <= D.maxLength ==> Count(lens, b) == c[b]
    requires forall s :: 0 <= s < size ==> (ls[s] > 0 <==> Waits(E, 2 * k, s)) && (lens[s] > 0 <==> ls[s] > 0)
    ensures LengthsFor(D, E, k, fc, lens, c, overflow)
  {
    hide Waits;
    UsedOfCounts(c, lens, D.maxLength);
    forall b | 1 <= b <= 15
      ensures c[b] == Count(lens, b)
    {
      if b > D.maxLength {
        CountNone(ls, b);
        CountNone(lens, b);
      }
    }
  }

  lemma PassLens(D: Desc, E: seq<nat>, k: nat, size: nat, fc: seq<nat>, al: seq<int>, ls: seq<nat>, dl: seq<nat>,
                 c: seq<nat>, overflow: nat, exact: nat)
    requires PassIn(D, E, k, size, fc) && PassInv(D, E, k, size, fc, 0, al, ls, dl, c, overflow, exact)
    ensures |ls| == size && AtMost(ls, D.maxLength) && CountsOf(c, ls) && ls <= dl && |dl| == |fc| && |E| == 2 * k
    ensures |c| == 16 && LeavesFrom(E, D.elems, 0) == TotalC(c, D.maxLength)
    ensures forall v :: 0 <= v < |E| && E[v] < D.elems ==> E[v] < |ls| && ls[E[v]] >= 1
    ensures forall s :: 0 <= s < size ==> (ls[s] > 0 <==> Waits(E, 2 * k, s))
  {
    hide Occurs, Balanced, PathLen, TakenCost;
    DlEnd(E, D.elems, al, ls, dl);
    LeafWaits(E, D.elems, k, size, D.maxLength, al, ls);
  }

  lemma {:induction false} SameStat(fc: seq<nat>, ls: seq<nat>, lens: seq<nat>, sl: seq<nat>, extra: seq<nat>,
                                    base: nat)
    requires |ls| == |lens| <= |fc| && forall s :: 0 <= s < |ls| ==> (ls[s] > 0 <==> lens[s] > 0)
    ensures StatTerms(fc, lens, sl, extra, base) == StatTerms(fc, ls, sl, extra, base)
  {
  }

  /** gen_bitlen; heap[h0 - 1] is the root. The block lengths grow by what the codes and their extra bits will take. */
  method GenLengths(D: Desc, heap: seq<nat>, h0: nat, fc: seq<nat>, dl0: seq<nat>, maxCode: nat, opt0: int, stat0: int,
                    ghost E: seq<nat>, ghost k: nat, ghost height: seq<nat>)
    returns (dl: seq<nat>, c: seq<nat>, opt: int, stat: int, overflow: nat)
    requires PassIn(D, E, k, maxCode + 1, fc) && Fathers(D, E, k, maxCode + 1, dl0) && |dl0| == |fc| && InHeap(heap, E)
    requires h0 == HEAP_SIZE - 2 * k >= 1 && heap[h0 - 1] == D.elems + k - 1 && D.elems <= Pow2(D.maxLength)
    requires Heights(E, D.elems, k, height) && k >= 1
    ensures height[D.elems + k - 1] <= D.maxLength ==> overflow == 0
    ensures overflow == 0 ==> maxCode < |dl| && NoHigher(dl[..maxCode + 1], height[D.elems + k - 1])
    ensures |dl| == |fc| && LengthsFor(D, E, k, fc, dl[..maxCode + 1], c, overflow)
    ensures overflow > 0 ==> Falling(E, D.elems, |E|, dl[..maxCode + 1], 0)
    ensures forall s :: maxCode < s < D.elems && s < |dl0| ==> dl[s] == dl0[s]
    ensures opt == opt0 + Sum(OptTerms(fc, dl[..maxCode + 1], D.extra, D.base))
    ensures stat == stat0 + Sum(StatTerms(fc, dl[..maxCode + 1], D.stat, D.extra, D.base))
  {
    hide PassInv, Sum, OptTerms, StatTerms, TreeIn, Weighted, Fathers, LengthsFor, Repairing, Waits, CountsOf,
         LeavesFrom, TotalC, Heights, Falling, Sparing, NoHigher;
    ghost var al, ls, exact;
    ghost var size := maxCode + 1;
    dl, c, overflow, opt, stat, al, ls, exact := FirstPass(D, heap, h0, fc, dl0, maxCode, opt0, stat0, E, k, height);
    PassLens(D, E, k, size, fc, al, ls, dl, c, overflow, exact);
    assert dl[..size] == ls;
    if overflow == 0 {
      NoOverflow(D, E, k, size, fc, al, ls, dl, c, exact);
      return;
    }
    RepairStart(D, E, k, size, fc, al, ls, dl, c, overflow, exact);
    ghost var c0 := c;
    c := Repair(c, D.maxLength, overflow);
    CountSize(c, D.maxLength);
    dl, opt := SecondPass(D, heap, fc, dl, maxCode, c, opt, E, k, ls);
    Repaired(D, E, k, size, fc, ls, dl[..size], c0, c, overflow);
    SameStat(fc, ls, dl[..size], D.stat, D.extra, D.base);
  }

  lemma CountSize(c: seq<nat>, max: nat)
    requires Repairing(c, max, 0)
    ensures |c| == 16
  {
  }
}
