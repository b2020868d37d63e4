/** gen_bitlen (trees.c:483-558): the first pass, the repair of too long codes, and the second pass. */
module GenBitLen {
  import opened Codes
  import opened Heap
  import opened BitLengths
  import opened PathCost
  import opened Totals

  // ---- sums for the block length ----

  function Extra(s: nat, extra: seq<nat>, base: nat): nat {
    if s >= base && s - base < |extra| then extra[s - base] else 0
  }

  function Charge(f: nat, l: nat, x: nat): nat {
    f * (l + x)
  }

  /** What every symbol that has a length adds to opt_len. */
  ghost function OptTerms(fc: seq<nat>, ls: seq<nat>, extra: seq<nat>, base: nat): (r: seq<nat>)
    requires |ls| <= |fc|
    ensures |r| == |ls|
  {
    seq(|ls|, s requires 0 <= s < |ls| => if ls[s] > 0 then Charge(fc[s], ls[s], Extra(s, extra, base)) else 0)
  }

  /** What every symbol that has a length adds to static_len, `sl` being the lengths of the static tree. */
  ghost function StatTerms(fc: seq<nat>, ls: seq<nat>, sl: seq<nat>, extra: seq<nat>, base: nat): (r: seq<nat>)
    requires |ls| <= |fc|
    ensures |r| == |ls|
  {
    seq(|ls|, s requires 0 <= s < |ls| =>
      if ls[s] > 0 && s < |sl| then Charge(fc[s], sl[s], Extra(s, extra, base)) else 0)
  }

  lemma OptStep(fc: seq<nat>, ls: seq<nat>, extra: seq<nat>, base: nat, s: nat, nb: nat)
    requires |ls| <= |fc| && s < |ls| && ls[s] == 0 && nb > 0
    ensures Sum(OptTerms(fc, ls[s := nb], extra, base)) == Sum(OptTerms(fc, ls, extra, base)) + Charge(fc[s], nb,
        Extra(s, extra, base))
  {
    hide Charge, Extra;
    var c := Charge(fc[s], nb, Extra(s, extra, base));
    assert OptTerms(fc, ls[s := nb], extra, base) == OptTerms(fc, ls, extra, base)[s := c];
    SumUpdate(OptTerms(fc, ls, extra, base), s, c);
  }

  lemma StatStep(fc: seq<nat>, ls: seq<nat>, sl: seq<nat>, extra: seq<nat>, base: nat, s: nat, nb: nat)
    requires |ls| <= |fc| && s < |ls| && ls[s] == 0 && nb > 0
    ensures Sum(StatTerms(fc, ls[s := nb], sl, extra, base))
            == Sum(StatTerms(fc, ls, sl, extra,
                             base)) + if s < |sl| then Charge(fc[s], sl[s], Extra(s, extra, base)) else 0
  {
    hide Charge, Extra;
    var c := if s < |sl| then Charge(fc[s], sl[s], Extra(s, extra, base)) else 0;
    assert StatTerms(fc, ls[s := nb], sl, extra, base) == StatTerms(fc, ls, sl, extra, base)[s := c];
    SumUpdate(StatTerms(fc, ls, sl, extra, base), s, c);
  }

  lemma {:induction false} CountUpdate(ls: seq<nat>, s: nat, x: nat, b: nat)
    requires s < |ls|
    ensures Count(ls[s := x], b) + (if ls[s] == b then 1 else 0) == Count(ls, b) + if x == b then 1 else 0
  {
    var n := |ls| - 1;
    if s < n {
      CountUpdate(ls[..n], s, x, b);
      assert ls[s := x][..n] == ls[..n][s := x];
    } else {
      assert ls[s := x][..n] == ls[..n];
    }
  }

  /** bl_count has the number of codes of each length. */
  ghost predicate CountsOf(c: seq<nat>, ls: seq<nat>) {
    |c| == 16 && c[0] == 0 && forall b :: 1 <= b <= 15 ==> c[b] == Count(ls, b)
  }

  lemma CountsStep(c: seq<nat>, ls: seq<nat>, s: nat, nb: nat)
    requires CountsOf(c, ls) && s < |ls| && ls[s] == 0 && 1 <= nb <= 15
    ensures CountsOf(c[nb := c[nb] + 1], ls[s := nb])
  {
    var c', ls' := c[nb := c[nb] + 1], ls[s := nb];
    forall b | 1 <= b <= 15
      ensures c'[b] == Count(ls', b)
    {
      CountUpdate(ls, s, nb, b);
    }
  }

  lemma {:induction false} CountZeros(ls: seq<nat>, b: nat)
    requires b >= 1 && forall s :: 0 <= s < |ls| ==> ls[s] == 0
    ensures Count(ls, b) == 0
  {
    if |ls| == 0 {
    } else {
      CountZeros(ls[..|ls| - 1], b);
    }
  }

  /** Number of codes of at most `l` bits. */
  function TotalC(c: seq<nat>, l: nat): nat
    requires l < |c|
  {
    if l == 0 then 0 else TotalC(c, l - 1) + c[l]
  }

  lemma {:induction false} TotalUpdate(c: seq<nat>, b: nat, x: nat, l: nat)
    requires l < |c| && 1 <= b < |c|
    ensures b <= l ==> TotalC(c[b := x], l) + c[b] == TotalC(c, l) + x
    ensures b > l ==> TotalC(c[b := x], l) == TotalC(c, l)
  {
    if l == 0 {
    } else {
      TotalUpdate(c, b, x, l - 1);
    }
  }

  /** Number of leaves among the nodes from `n` on. */
  ghost function LeavesFrom(E: seq<nat>, elems: nat, n: nat): nat
    requires n <= |E|
    decreases |E| - n
  {
    if n == |E| then 0 else (if E[n] < elems then 1 else 0) + LeavesFrom(E, elems, n + 1)
  }

  // ---- the tree in memory ----

  /** The union of Dad and Len while the pass is at work: fathers ahead, lengths behind. */
  ghost predicate DlState(E: seq<nat>, elems: nat, n: nat, al: seq<int>, ls: seq<nat>, dl: seq<nat>) {
    && n <= |E| && elems + |al| <= |dl| && |ls| <= elems
    && (forall v :: 0 <= v < |E| ==> E[v] < elems + |al|)
    && (forall v :: 0 <= v < n ==> dl[E[v]] == elems + v / 2)
    && (forall i :: 0 <= i < |al| && al[i] >= 0 ==> dl[elems + i] == al[i])
    && (forall s :: 0 <= s < |ls| ==> dl[s] == ls[s] || Waits(E, n, s))
  }

  lemma WaitsBefore(E: seq<nat>, n: nat, s: nat)
    requires n < |E| && Waits(E, n + 1, s) && E[n] != s
    ensures Waits(E, n, s)
  {
    var v :| 0 <= v < n + 1 && v < |E| && E[v] == s;
    assert v != n;
  }

  lemma DlStep(E: seq<nat>, elems: nat, k: nat, size: nat, max: nat, n: nat, al: seq<int>, ls: seq<nat>, dl: seq<nat>,
               nb: nat)
    requires TreeIn(E, elems, k, size) && Assigned(E, elems, k, size, max, n + 1, al, ls) &&
             DlState(E, elems, n + 1, al, ls, dl)
    requires 1 <= nb <= max
    ensures DlState(E, elems, n, NextAl(E, elems, n, al, nb), NextLs(E, elems, n, ls, nb), dl[E[n] := nb])
  {
    hide Occurs, Waits;
    var al', ls', dl' := NextAl(E, elems, n, al, nb), NextLs(E, elems, n, ls, nb), dl[E[n] := nb];
    forall s | 0 <= s < |ls'|
      ensures dl'[s] == ls'[s] || Waits(E, n, s)
    {
      if dl[s] != ls[s] && s != E[n] { WaitsBefore(E, n, s); }
    }
  }

  lemma DlEnd(E: seq<nat>, elems: nat, al: seq<int>, ls: seq<nat>, dl: seq<nat>)
    requires DlState(E, elems, 0, al, ls, dl)
    ensures ls <= dl
  {
    forall s | 0 <= s < |ls| ensures dl[s] == ls[s] { assert !Waits(E, 0, s); }
  }

  // ---- the first pass ----

  /** The inputs of gen_bitlen: the tree, the weights, and the tables of the tree descriptor. */
  datatype Desc = Desc(elems: nat, maxLength: nat, extra: seq<nat>, base: nat, stat: seq<nat>)

  /** stat is empty when there is no static tree. */
  ghost predicate DescOk(D: Desc, size: nat) {
    && 1 <= D.maxLength <= MAX_BITS < D.elems <= 286 && size <= D.elems && D.elems <= D.base + |D.extra|
    && (D.stat == [] || D.elems <= |D.stat|)
  }

  /** What the first pass knows when `n` nodes are left. */
  ghost predicate PassInv(D: Desc, E: seq<nat>, k: nat, size: nat, fc: seq<nat>, n: nat, al: seq<int>, ls: seq<nat>,
                          dl: seq<nat>, c: seq<nat>, overflow: nat, exact: nat)
  {
    && Assigned(E, D.elems, k, size, D.maxLength, n, al, ls) && D.maxLength <= 15
    && DlState(E, D.elems, n, al, ls, dl) && |dl| == |fc|
    && CountsOf(c, ls) && TotalC(c, D.maxLength) == LeavesFrom(E, D.elems, n)
    && Balanced(ls, al, n, D.maxLength, overflow, exact)
    && (overflow == 0 ==> PathLen(E, D.elems, fc, al, ls, n) == TakenCost(E, fc, n))
  }

  ghost predicate PassIn(D: Desc, E: seq<nat>, k: nat, size: nat, fc: seq<nat>) {
    DescOk(D, size) && TreeIn(E, D.elems, k, size) && Weighted(E, D.elems, k, fc) && size <= |fc|
  }

  lemma CountsLen(c: seq<nat>, ls: seq<nat>)
    requires CountsOf(c, ls)
    ensures |c| == 16
  {
  }

  lemma CountedNode(D: Desc, E: seq<nat>, n: nat, ls: seq<nat>, c: seq<nat>, nb: nat)
    requires CountsOf(c, ls) && n < |E| && 1 <= nb <= D.maxLength <= 15 &&
             (E[n] < D.elems ==> E[n] < |ls| && ls[E[n]] == 0)
    requires TotalC(c, D.maxLength) == LeavesFrom(E, D.elems, n + 1)
    ensures var c' := if E[n] < D.elems then c[nb := c[nb] + 1] else c;
            CountsOf(c', NextLs(E, D.elems, n, ls, nb)) && TotalC(c', D.maxLength) == LeavesFrom(E, D.elems, n)
  {
    if E[n] < D.elems {
      CountsStep(c, ls, E[n], nb);
      TotalUpdate(c, nb, c[nb] + 1, D.maxLength);
    }
  }

  /** The effect of one node on the state of the pass. */
  lemma PassStep(D: Desc, E: seq<nat>, k: nat, size: nat, fc: seq<nat>, n: nat, al: seq<int>, ls: seq<nat>,
                 dl: seq<nat>, c: seq<nat>, overflow: nat, exact: nat)
    requires PassIn(D, E, k, size, fc) && PassInv(D, E, k, size, fc, n + 1, al, ls, dl, c, overflow, exact)
    ensures E[n] < |dl| && dl[E[n]] < |dl| && dl[dl[E[n]]] == al[n / 2] <= D.maxLength &&
            (E[n] < D.elems ==> E[n] < size && ls[E[n]] == 0)
    ensures var b := dl[dl[E[n]]];
            var nb := Cut(b, D.maxLength);
            PassInv(D, E, k, size, fc, n, NextAl(E, D.elems, n, al, nb), NextLs(E, D.elems, n, ls, nb), dl[E[n] := nb],
                    if E[n] < D.elems then c[nb := c[nb] + 1] else c,
                    overflow + (if b == D.maxLength then 1 else 0), exact + (if b == D.maxLength - 1 then 1 else 0))
  {
    hide Occurs, Waits, Balanced, PathLen, TakenCost, TreeIn, Weighted, TotalC, CountsOf, LeavesFrom;
    CountsLen(c, ls);
    FatherDone(E, D.elems, k, size, D.maxLength, n + 1, al, ls);
    var b := al[n / 2];
    var nb := Cut(b, D.maxLength);
    AssignedStep(E, D.elems, k, size, D.maxLength, n, al, ls, nb);
    DlStep(E, D.elems, k, size, D.maxLength, n, al, ls, dl, nb);
    BalancedStep(E, D.elems, k, size, D.maxLength, n, al, ls, overflow, exact);
    CountedNode(D, E, n, ls, c, nb);
    if b < D.maxLength { PathStep(E, D.elems, k, size, D.maxLength, n, al, ls, fc); }
    TakenNext(E, fc, n, k, D.elems);
  }

  lemma TakenNext(E: seq<nat>, fc: seq<nat>, n: nat, k: nat, elems: nat)
    requires Weighted(E, elems, k, fc) && n < 2 * k
    ensures TakenCost(E, fc, n) == fc[E[n]] + TakenCost(E, fc, n + 1)
  {
  }

  ghost function StartAl(k: nat): (r: seq<int>)
    ensures |r| == k && forall i :: 0 <= i < k ==> r[i] == if i == k - 1 then 0 else -1
  {
    seq(k, i => if i == k - 1 then 0 else -1)
  }

  ghost function StartLs(size: nat): (r: seq<nat>)
    ensures |r| == size && forall i :: 0 <= i < size ==> r[i] == 0
  {
    seq(size, i => 0)
  }

  /** Fathers before the pass. */
  ghost predicate Fathers(D: Desc, E: seq<nat>, k: nat, size: nat, dl: seq<nat>) {
    && D.elems + k <= |dl| && |E| == 2 * k && size <= D.elems
    && (forall v :: 0 <= v < 2 * k ==> E[v] < |dl| && dl[E[v]] == D.elems + v / 2)
    && (forall s :: 0 <= s < size ==> Waits(E, 2 * k, s) || dl[s] == 0)
  }

  lemma {:induction false} TotalZero(c: seq<nat>, l: nat)
    requires l < |c| && forall b :: 0 <= b < |c| ==> c[b] == 0
    ensures TotalC(c, l) == 0
  {
    if l == 0 {
    } else {
      TotalZero(c, l - 1);
    }
  }

  lemma PassStart(D: Desc, E: seq<nat>, k: nat, size: nat, fc: seq<nat>, dl: seq<nat>, c: seq<nat>)
    requires PassIn(D, E, k, size, fc) && Fathers(D, E, k, size, dl) && |dl| == |fc|
    requires |c| == 16 && forall b :: 0 <= b < 16 ==> c[b] == 0
    ensures PassInv(D, E, k, size, fc, 2 * k, StartAl(k), StartLs(size), dl[D.elems + k - 1 := 0], c, 0, 0)
  {
    hide Occurs, Waits;
    var al, ls, dl' := StartAl(k), StartLs(size), dl[D.elems + k - 1 := 0];
    AssignedStart(E, D.elems, k, size, D.maxLength, al, ls);
    BalancedStart(k, size, D.maxLength, al, ls);
    PathStart(E, D.elems, k, size, al, ls, fc);
    forall b | 1 <= b <= 15 ensures c[b] == Count(ls, b) { CountZeros(ls, b); }
    TotalZero(c, D.maxLength);
    forall v | 0 <= v < 2 * k
      ensures E[v] < D.elems + k && E[v] != D.elems + k - 1
    {
      assert E[v] >= D.elems ==> E[v] - D.elems < v / 2;
    }
  }

  /** The nodes in the order of the pass stand in heap[top..]. */
  ghost predicate InHeap(heap: seq<nat>, E: seq<nat>) {
    |heap| == HEAP_SIZE && |E| <= HEAP_SIZE && forall u :: 0 <= u < |E| ==> heap[HEAP_SIZE - 1 - u] == E[u]
  }

  // ---- when nothing is clamped ----

  /** A father is higher than its sons. */
  ghost predicate Heights(E: seq<nat>, elems: nat, k: nat, height: seq<nat>) {
    && |E| == 2 * k && elems + k <= |height|
    && forall v :: 0 <= v < 2 * k ==> E[v] < |height| && height[E[v]] < height[elems + v / 2]
  }

  /** Below every internal node that has its length there is room for the subtree. */
  ghost predicate Low(elems: nat, al: seq<int>, height: seq<nat>, max: nat) {
    elems + |al| <= |height| && forall i :: 0 <= i < |al| && al[i] >= 0 ==> al[i] + height[elems + i] <= max
  }

  /** No code is longer than the tree is high. */
  ghost predicate NoHigher(ls: seq<nat>, max: nat) {
    forall s :: 0 <= s < |ls| ==> ls[s] <= max
  }

  lemma LowStep(E: seq<nat>, elems: nat, k: nat, height: seq<nat>, max: nat, n: nat, al: seq<int>, ls: seq<nat>,
                nb: nat)
    requires Heights(E, elems, k, height) && |al| == k && Low(elems, al, height, max) && n < 2 * k && al[n / 2] >= 0
    requires (E[n] >= elems ==> E[n] - elems < k) && (E[n] < elems ==> E[n] < |ls|) && NoHigher(ls, max)
    requires nb <= al[n / 2] + 1
    ensures al[n / 2] < max && Low(elems, NextAl(E, elems, n, al, nb), height, max)
    ensures NoHigher(NextLs(E, elems, n, ls, nb), max)
  {
  }

  /** trees.c:499-522; heap[h0 - 1] is the root. A tree no higher than the limit is not clamped. */
  method FirstPass(D: Desc, heap: seq<nat>, h0: nat, fc: seq<nat>, dl0: seq<nat>, maxCode: nat, opt0: int, stat0: int,
                   ghost E: seq<nat>, ghost k: nat, ghost height: seq<nat>)
    returns (dl: seq<nat>, c: seq<nat>, overflow: nat, opt: int, stat: int, ghost al: seq<int>, ghost ls: seq<nat>,
             ghost exact: nat)
    requires PassIn(D, E, k, maxCode + 1, fc) && Fathers(D, E, k, maxCode + 1, dl0) && |dl0| == |fc| && InHeap(heap, E)
    requires h0 == HEAP_SIZE - 2 * k >= 1 && heap[h0 - 1] == D.elems + k - 1 && Heights(E, D.elems, k, height)
    ensures height[D.elems + k - 1] <= D.maxLength ==> overflow == 0
    ensures NoHigher(ls, height[D.elems + k - 1])
    ensures PassInv(D, E, k, maxCode + 1, fc, 0, al, ls, dl, c, overflow, exact)
    ensures opt == opt0 + Sum(OptTerms(fc, ls, D.extra, D.base)) &&
            stat == stat0 + Sum(StatTerms(fc, ls, D.stat, D.extra, D.base))
    ensures |dl| == |dl0| && forall s :: maxCode < s < D.elems && s < |dl0| ==> dl[s] == dl0[s]
  {
    hide PassInv, Sum, OptTerms, StatTerms, Charge, TreeIn, Weighted, Fathers, Heights, Low, NoHigher;
    ghost var size := maxCode + 1;
    c := seq(16, i => 0);
    al, ls, exact := StartAl(k), StartLs(size), 0;
    Rooted(D, E, k, size, dl0);
    PassStart(D, E, k, size, fc, dl0, c);
    NoTerms(fc, size, D);
    dl, overflow, opt, stat := dl0[heap[h0 - 1] := 0], 0, opt0, stat0;
    var h := h0;
    LowStart(E, D.elems, k, height, size);
    ghost var top := height[D.elems + k - 1];
    while h < HEAP_SIZE
      invariant (top <= D.maxLength ==> overflow == 0) && Low(D.elems, al, height, top) && NoHigher(ls, top)
      invariant h0 <= h <= HEAP_SIZE && |ls| == size && |dl| == |dl0|
      invariant forall s :: maxCode < s < D.elems && s < |dl0| ==> dl[s] == dl0[s]
      invariant PassInv(D, E, k, size, fc, HEAP_SIZE - h, al, ls, dl, c, overflow, exact)
      invariant opt == opt0 + Sum(OptTerms(fc, ls, D.extra, D.base)) &&
                stat == stat0 + Sum(StatTerms(fc, ls, D.stat, D.extra, D.base))
    {
      ghost var left := HEAP_SIZE - h - 1;
      PassStep(D, E, k, size, fc, left, al, ls, dl, c, overflow, exact);
      PassFacts(D, E, k, size, fc, left, al, ls, dl, c, overflow, exact);
      var n := heap[h];
      assert n == E[left];
      var bits := dl[dl[n]] + 1;
      ghost var nb := Cut(dl[dl[n]], D.maxLength);
      LowStep(E, D.elems, k, height, top, left, al, ls, nb);
      exact := exact + if dl[dl[n]] == D.maxLength - 1 then 1 else 0;
      if bits > D.maxLength { bits, overflow := D.maxLength, overflow + 1; }
      dl := dl[n := bits];
      if n <= maxCode {
        c := c[bits := c[bits] + 1];
        var xbits := if n >= D.base then D.extra[n - D.base] else 0;
        var f := fc[n];
        OptStep(fc, ls, D.extra, D.base, n, bits);
        StatStep(fc, ls, D.stat, D.extra, D.base, n, bits);
        opt := opt + Charge(f, bits, xbits);
        if D.stat != [] { stat := stat + Charge(f, D.stat[n], xbits); }
      }
      al, ls := NextAl(E, D.elems, left, al, nb), NextLs(E, D.elems, left, ls, nb);
      h := h + 1;
    }
  }

  lemma LowStart(E: seq<nat>, elems: nat, k: nat, height: seq<nat>, size: nat)
    requires Heights(E, elems, k, height) && k >= 1
    ensures elems + k <= |height|
    ensures Low(elems, StartAl(k), height, height[elems + k - 1]) && NoHigher(StartLs(size), height[elems + k - 1])
  {
  }

  lemma Rooted(D: Desc, E: seq<nat>, k: nat, size: nat, dl: seq<nat>)
    requires Fathers(D, E, k, size, dl) && TreeIn(E, D.elems, k, size)
    ensures D.elems + k - 1 < |dl| && k >= 1 && |E| == 2 * k
  {
  }

  lemma NoTerms(fc: seq<nat>, size: nat, D: Desc)
    requires size <= |fc|
    ensures Sum(OptTerms(fc, StartLs(size), D.extra, D.base)) == 0 &&
            Sum(StatTerms(fc, StartLs(size), D.stat, D.extra, D.base)) == 0
  {
    SumZeros(OptTerms(fc, StartLs(size), D.extra, D.base));
    SumZeros(StatTerms(fc, StartLs(size), D.stat, D.extra, D.base));
  }

  lemma PassFacts(D: Desc, E: seq<nat>, k: nat, size: nat, fc: seq<nat>, n: nat, al: seq<int>, ls: seq<nat>,
                  dl: seq<nat>, c: seq<nat>, overflow: nat, exact: nat)
    requires PassIn(D, E, k, size, fc) && PassInv(D, E, k, size, fc, n + 1, al, ls, dl, c, overflow, exact)
    ensures n < |E| && |al| == k && |ls| == size && |c| == 16 && E[n] < |fc| && (E[n] >= D.elems ==> E[n] - D.elems < k)
    ensures E[n] < D.elems <==> E[n] < size
  {
    hide Occurs, Waits, Balanced, PathLen, TakenCost;
  }
}
