/** The heap of build_tree (trees.c:422-471): pqdownheap and what the smallest element is. */
module Heap {
  const HEAP_SIZE := 573

  /** `smaller` of the source compares (Freq, depth) lexicographically; depth is 8-bit. */
  function Key(fc: seq<nat>, depth: seq<nat>, n: nat): nat
    requires n < |fc| && n < |depth|
  {
    256 * fc[n] + depth[n]
  }

  predicate Smaller(fc: seq<nat>, depth: seq<nat>, n: nat, m: nat)
    requires n < |fc| && m < |fc| && n < |depth| && m < |depth|
  {
    fc[n] < fc[m] || (fc[n] == fc[m] && depth[n] <= depth[m])
  }

  lemma SmallerIsKey(fc: seq<nat>, depth: seq<nat>, n: nat, m: nat)
    requires n < |fc| && m < |fc| && n < |depth| && m < |depth| && depth[n] < 256 && depth[m] < 256
    ensures Smaller(fc, depth, n, m) <==> Key(fc, depth, n) <= Key(fc, depth, m)
  {
  }

  /** The entries heap[1..len] are nodes. */
  ghost predicate Nodes(h: seq<nat>, len: nat, fc: seq<nat>, depth: seq<nat>) {
    && len < |h| && |fc| <= |depth|
    && (forall i :: 1 <= i <= len ==> h[i] < |fc|)
    && (forall n :: 0 <= n < |depth| ==> depth[n] < 256)
  }

  ghost function KeyAt(h: seq<nat>, fc: seq<nat>, depth: seq<nat>, i: nat): nat
    requires i < |h| && h[i] < |fc| <= |depth|
  {
    Key(fc, depth, h[i])
  }

  /** No father from `k` on has a larger key than a son, the sons of `skip` excepted. */
  ghost predicate Ordered(h: seq<nat>, len: nat, fc: seq<nat>, depth: seq<nat>, k: nat, skip: nat)
    requires Nodes(h, len, fc, depth)
  {
    forall i :: 2 <= i <= len && k <= i / 2 && i / 2 != skip ==> KeyAt(h, fc, depth, i / 2) <= KeyAt(h, fc, depth, i)
  }

  /** The father of `k` has no larger key than the sons of `k`. */
  ghost predicate Above(h: seq<nat>, len: nat, fc: seq<nat>, depth: seq<nat>, k: nat)
    requires Nodes(h, len, fc, depth)
  {
    forall i :: 4 <= i <= len && i / 2 == k ==> KeyAt(h, fc, depth, k / 2) <= KeyAt(h, fc, depth, i)
  }

  function Active(h: seq<nat>, len: nat): seq<nat>
    requires len < |h|
  {
    h[1..len + 1]
  }

  /** The heap with two entries exchanged. */
  function Swapped(h: seq<nat>, i: nat, j: nat): seq<nat>
    requires i < |h| && j < |h|
  {
    h[i := h[j]][j := h[i]]
  }

  lemma SwapMultiset(s: seq<nat>, i: nat, j: nat)
    requires i < |s| && j < |s|
    ensures multiset(Swapped(s, i, j)) == multiset(s)
  {
  }

  lemma SwapActive(h: seq<nat>, len: nat, i: nat, j: nat)
    requires 1 <= i <= len < |h| && 1 <= j <= len
    ensures multiset(Active(Swapped(h, i, j), len)) == multiset(Active(h, len))
    ensures forall k :: len < k < |h| ==> Swapped(h, i, j)[k] == h[k]
  {
    assert Active(Swapped(h, i, j), len) == Swapped(Active(h, len), i - 1, j - 1);
    SwapMultiset(Active(h, len), i - 1, j - 1);
  }

  lemma SwapNodes(h: seq<nat>, len: nat, fc: seq<nat>, depth: seq<nat>, i: nat, j: nat)
    requires Nodes(h, len, fc, depth) && 1 <= i <= len && 1 <= j <= len
    ensures Nodes(Swapped(h, i, j), len, fc, depth)
  {
  }

  /** Exchanging `k` with its smaller son `j` moves the only possible disorder down to `j`. */
  lemma SwapDown(h: seq<nat>, len: nat, fc: seq<nat>, depth: seq<nat>, k0: nat, k: nat, j: nat)
    requires Nodes(h, len, fc, depth) && 1 <= k0 <= k && j <= len && j / 2 == k
    requires Ordered(h, len, fc, depth, k0, k) && (k > k0 ==> k / 2 >= k0 && Above(h, len, fc, depth, k))
    requires KeyAt(h, fc, depth, j) <= KeyAt(h, fc, depth, k)
    requires forall i :: 2 <= i <= len && i / 2 == k ==> KeyAt(h, fc, depth, j) <= KeyAt(h, fc, depth, i)
    ensures Nodes(Swapped(h, k, j), len, fc, depth)
    ensures Ordered(Swapped(h, k, j), len, fc, depth, k0, j) && Above(Swapped(h, k, j), len, fc, depth, j)
  {
    var g := Swapped(h, k, j);
    SwapNodes(h, len, fc, depth, k, j);
    forall i | 2 <= i <= len && k0 <= i / 2 && i / 2 != j
      ensures KeyAt(g, fc, depth, i / 2) <= KeyAt(g, fc, depth, i)
    {
      if i == k {
        assert KeyAt(h, fc, depth, k / 2) <= KeyAt(h, fc, depth, j);
      } else if i / 2 == k {
        assert KeyAt(h, fc, depth, j) <= KeyAt(h, fc, depth, i);
      } else {
        assert KeyAt(h, fc, depth, i / 2) <= KeyAt(h, fc, depth, i);
      }
    }
    forall i | 4 <= i <= len && i / 2 == j
      ensures KeyAt(g, fc, depth, j / 2) <= KeyAt(g, fc, depth, i)
    {
      assert KeyAt(h, fc, depth, i / 2) <= KeyAt(h, fc, depth, i);
    }
  }

  /** When the father is no larger than its sons, nothing is out of order any more. */
  lemma SettleDown(h: seq<nat>, len: nat, fc: seq<nat>, depth: seq<nat>, k0: nat, k: nat)
    requires Nodes(h, len, fc, depth) && Ordered(h, len, fc, depth, k0, k)
    requires forall i :: 2 <= i <= len && i / 2 == k ==> KeyAt(h, fc, depth, k) <= KeyAt(h, fc, depth, i)
    ensures Ordered(h, len, fc, depth, k0, 0)
  {
  }

  /** The root of a heap has the smallest key. */
  lemma {:induction false} RootSmallest(h: seq<nat>, len: nat, fc: seq<nat>, depth: seq<nat>, i: nat)
    requires Nodes(h, len, fc, depth) && Ordered(h, len, fc, depth, 1, 0) && 1 <= i <= len
    ensures KeyAt(h, fc, depth, 1) <= KeyAt(h, fc, depth, i)
  {
    if i > 1 { RootSmallest(h, len, fc, depth, i / 2); }
  }

  /** The smaller of the sons of `k`, of which `j` is the left one. */
  method SmallerSon(h: seq<nat>, len: nat, fc: seq<nat>, depth: seq<nat>, j: nat) returns (r: nat)
    requires Nodes(h, len, fc, depth) && 2 <= j <= len && j % 2 == 0
    ensures j <= r <= len && r / 2 == j / 2
    ensures forall i :: 2 <= i <= len && i / 2 == j / 2 ==> KeyAt(h, fc, depth, r) <= KeyAt(h, fc, depth, i)
  {
    r := j;
    if j < len {
      SmallerIsKey(fc, depth, h[j + 1], h[j]);
      if Smaller(fc, depth, h[j + 1], h[j]) { r := j + 1; }
    }
  }

  lemma SameSons(h: seq<nat>, g: seq<nat>, len: nat, fc: seq<nat>, depth: seq<nat>, k: nat, j: nat)
    requires Nodes(h, len, fc, depth) && Nodes(g, len, fc, depth) && |h| == |g| && 1 <= k && j <= len && j / 2 == k
    requires forall i :: 1 <= i <= len && i != k ==> g[i] == h[i]
    requires forall i :: 2 <= i <= len && i / 2 == k ==> KeyAt(h, fc, depth, j) <= KeyAt(h, fc, depth, i)
    ensures forall i :: 2 <= i <= len && i / 2 == k ==> KeyAt(g, fc, depth, j) <= KeyAt(g, fc, depth, i)
  {
    forall i | 2 <= i <= len && i / 2 == k
      ensures KeyAt(g, fc, depth, j) <= KeyAt(g, fc, depth, i)
    {
      assert KeyAt(h, fc, depth, j) <= KeyAt(h, fc, depth, i);
    }
  }

  /** pqdownheap: `v` sinks from `k0`; the entries beyond the heap stay. */
  method PqDownHeap(heap: seq<nat>, len: nat, fc: seq<nat>, depth: seq<nat>, k0: nat) returns (h: seq<nat>)
    requires Nodes(heap, len, fc, depth) && 1 <= k0 <= len && Ordered(heap, len, fc, depth, k0 + 1, 0)
    ensures |h| == |heap| && Nodes(h, len, fc, depth) && Ordered(h, len, fc, depth, k0, 0)
    ensures multiset(Active(h, len)) == multiset(Active(heap, len))
    ensures forall i :: len < i < |heap| ==> h[i] == heap[i]
  {
    hide Key, Smaller, Active;
    h := heap;
    var v, j, k := h[k0], 2 * k0, k0;
    ghost var g := heap;
    while j <= len
      invariant k0 <= k <= len && j == 2 * k && |h| == |g| == |heap| && g == h[k := v]
      invariant Nodes(h, len, fc, depth) && Nodes(g, len, fc, depth) && Ordered(g, len, fc, depth, k0, k)
      invariant k > k0 ==> k / 2 >= k0 && Above(g, len, fc, depth, k)
      invariant multiset(Active(g, len)) == multiset(Active(heap, len))
      invariant forall i :: len < i < |heap| ==> g[i] == heap[i]
      decreases len - k
    {
      var j' := SmallerSon(h, len, fc, depth, j);
      SameSons(h, g, len, fc, depth, k, j');
      SmallerIsKey(fc, depth, v, h[j']);
      if Smaller(fc, depth, v, h[j']) {
        SettleDown(g, len, fc, depth, k0, k);
        break;
      }
      SwapDown(g, len, fc, depth, k0, k, j');
      SwapActive(g, len, k, j');
      ghost var g' := Swapped(g, k, j');
      h := h[k := h[j']];
      assert g' == h[j' := v];
      g := g';
      k := j';
      j := 2 * k;
    }
    if j > len { SettleDown(g, len, fc, depth, k0, k); }
    h := h[k := v];
  }
}
