/** The weighted path length of the tree is what the merges cost, so the lengths of gen_bitlen are optimal. */
module PathCost {
  import opened Huffman
  import opened HuffmanLoop
  import opened BitLengths

  /** The weight of every internal node is the sum of its sons. */
  ghost predicate Weighted(E: seq<nat>, elems: nat, k: nat, fc: seq<nat>) {
    && |E| == 2 * k && elems + k <= |fc|
    && (forall u :: 0 <= u < 2 * k ==> E[u] < |fc|)
    && forall j :: 0 <= j < k ==> fc[elems + j] == fc[E[2 * j]] + fc[E[2 * j + 1]]
  }

  lemma {:induction false} DotUpdate(ws: seq<nat>, ls: seq<nat>, i: nat, x: nat)
    requires |ws| == |ls| && i < |ls| && ls[i] == 0
    ensures Dot(ws, ls[i := x]) == Dot(ws, ls) + ws[i] * x
  {
    var n := |ws| - 1;
    if i < n {
      DotUpdate(ws[..n], ls[..n], i, x);
      assert ls[i := x][..n] == ls[..n][i := x];
    } else {
      assert ls[i := x][..n] == ls[..n];
    }
  }

  /** Weight times length of the internal nodes below `j` that have a length. */
  ghost function NodeCost(fc: seq<nat>, elems: nat, al: seq<int>, j: nat): nat
    requires j <= |al| && elems + j <= |fc|
  {
    if j == 0 then 0 else NodeCost(fc, elems, al, j - 1) + (if al[j - 1] >= 0 then fc[elems + j - 1] * al[j - 1] else 0)
  }

  lemma {:induction false} NodeCostUpdate(fc: seq<nat>, elems: nat, al: seq<int>, i: nat, x: nat, j: nat)
    requires i < |al| && j <= |al| && elems + j <= |fc| && al[i] == -1
    ensures NodeCost(fc, elems, al[i := x], j) == NodeCost(fc, elems, al, j) + if i < j then fc[elems + i] * x else 0
  {
    if j == 0 {
    } else {
      NodeCostUpdate(fc, elems, al, i, x, j - 1);
    }
  }

  /** The other son of a father whose second son is done. */
  ghost function HalfCost(E: seq<nat>, fc: seq<nat>, al: seq<int>, n: nat): int
    requires n <= |E| && |E| == 2 * |al| && forall u :: 0 <= u < |E| ==> E[u] < |fc|
  {
    if n % 2 == 1 then fc[E[n - 1]] * al[n / 2] else 0
  }

  ghost function PathLen(E: seq<nat>, elems: nat, fc: seq<nat>, al: seq<int>, ls: seq<nat>, n: nat): int
    requires n <= |E| && |E| == 2 * |al| && (forall u :: 0 <= u < |E| ==> E[u] < |fc|) && elems + |al| <= |fc| &&
             |ls| <= |fc|
  {
    Dot(fc[..|ls|], ls) + NodeCost(fc, elems, al, n / 2) + HalfCost(E, fc, al, n)
  }

  /** Sum of the weights of the nodes from `n` on. */
  ghost function TakenCost(E: seq<nat>, fc: seq<nat>, n: nat): nat
    requires n <= |E| && forall u :: 0 <= u < |E| ==> E[u] < |fc|
    decreases |E| - n
  {
    if n == |E| then 0 else fc[E[n]] + TakenCost(E, fc, n + 1)
  }

  lemma SplitSons(w: nat, x: nat, y: nat, b: nat)
    requires w == x + y
    ensures w * b == x * b + y * b && y * (b + 1) == y * b + y
  {
  }

  /** The father leaves, in full or by the half that is left of it. */
  lemma FatherLeaves(E: seq<nat>, elems: nat, k: nat, fc: seq<nat>, al: seq<int>, n: nat)
    requires Weighted(E, elems, k, fc) && |al| == k && n < 2 * k && al[n / 2] >= 0
    ensures NodeCost(fc, elems, al, (n + 1) / 2) + HalfCost(E, fc, al, n + 1)
            == NodeCost(fc, elems, al, n / 2) + HalfCost(E, fc, al, n) + fc[E[n]] * al[n / 2]
  {
    var j, b := n / 2, al[n / 2];
    if n % 2 == 1 {
      assert (n + 1) / 2 == j + 1 && n == 2 * j + 1;
      SplitSons(fc[elems + j], fc[E[2 * j]], fc[E[2 * j + 1]], b);
    } else {
      assert (n + 1) / 2 == j && n == 2 * j;
    }
  }

  lemma PathStep(E: seq<nat>, elems: nat, k: nat, size: nat, max: nat, n: nat, al: seq<int>, ls: seq<nat>, fc: seq<nat>)
    requires TreeIn(E, elems, k, size) && Assigned(E, elems, k, size, max, n + 1, al, ls) &&
             Weighted(E, elems, k, fc) && size <= |fc|
    requires 0 <= al[n / 2] < max
    ensures var nb := Cut(al[n / 2], max);
            PathLen(E, elems, fc, NextAl(E, elems, n, al, nb), NextLs(E, elems, n, ls, nb), n) == PathLen(E, elems, fc,
                al, ls, n + 1) + fc[E[n]]
  {
    hide Dot, NodeCost, Occurs;
    var b := al[n / 2];
    FatherLeaves(E, elems, k, fc, al, n);
    SplitSons(fc[E[n]], 0, fc[E[n]], b);
    if E[n] >= elems {
      NodeCostUpdate(fc, elems, al, E[n] - elems, b + 1, n / 2);
    } else {
      DotUpdate(fc[..size], ls, E[n], b + 1);
    }
  }

  lemma {:induction false} NodeCostNone(fc: seq<nat>, elems: nat, al: seq<int>, j: nat)
    requires j <= |al| && elems + j <= |fc| && forall i :: 0 <= i < j ==> al[i] <= 0
    ensures NodeCost(fc, elems, al, j) == 0
  {
    if j == 0 {
    } else {
      NodeCostNone(fc, elems, al, j - 1);
    }
  }

  lemma {:induction false} DotNone(ws: seq<nat>, ls: seq<nat>)
    requires |ws| == |ls| && forall s :: 0 <= s < |ls| ==> ls[s] == 0
    ensures Dot(ws, ls) == 0
  {
    if |ws| == 0 {
    } else {
      DotNone(ws[..|ws| - 1], ls[..|ls| - 1]);
    }
  }

  lemma PathStart(E: seq<nat>, elems: nat, k: nat, size: nat, al: seq<int>, ls: seq<nat>, fc: seq<nat>)
    requires Weighted(E, elems, k, fc) && |al| == k && |ls| == size <= |fc|
    requires forall i :: 0 <= i < k ==> al[i] <= 0
    requires forall s :: 0 <= s < size ==> ls[s] == 0
    ensures PathLen(E, elems, fc, al, ls, 2 * k) == 0
  {
    NodeCostNone(fc, elems, al, k);
    DotNone(fc[..size], ls);
  }

  /** All nodes but the root weigh as much as all internal nodes. */
  lemma {:induction false} TakenIsMerge(E: seq<nat>, elems: nat, k: nat, fc: seq<nat>, j: nat)
    requires Weighted(E, elems, k, fc) && j <= k
    ensures TakenCost(E, fc, 2 * j) + MergeCost(fc, elems, j) == MergeCost(fc, elems, k)
    decreases k - j
  {
    if j < k {
      TakenIsMerge(E, elems, k, fc, j + 1);
      assert MergeCost(fc, elems, j + 1) == MergeCost(fc, elems, j) + fc[elems + j];
      assert TakenCost(E, fc, 2 * j) == fc[E[2 * j]] + (fc[E[2 * j + 1]] + TakenCost(E, fc, 2 * j + 2));
    }
  }

  /** The weighted sum of the lengths of the leaves, at the end of the pass. */
  lemma PathEnd(E: seq<nat>, elems: nat, k: nat, fc: seq<nat>, al: seq<int>, ls: seq<nat>)
    requires Weighted(E, elems, k, fc) && |al| == k && |ls| <= |fc| &&
             PathLen(E, elems, fc, al, ls, 0) == TakenCost(E, fc, 0)
    ensures Dot(fc[..|ls|], ls) == MergeCost(fc, elems, k)
  {
    TakenIsMerge(E, elems, k, fc, 0);
  }
}
