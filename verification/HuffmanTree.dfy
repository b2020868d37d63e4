/** The merging loop of build_tree (trees.c:656-677). */
module HuffmanTree {
  import opened Heap

  /**
   * The state of build_tree: the two unions of every ct_data (fc: Freq or Code, dl: Dad or Len), the depths, the
   * heap array with heap[1..len] the live nodes and heap[top..] the nodes taken out, and the next internal node.
   */
  datatype Forest = Forest(fc: seq<nat>, dl: seq<nat>, depth: seq<nat>, heap: seq<nat>, len: nat, top: nat, node: nat)

  ghost predicate Shaped(F: Forest) {
    && |F.fc| == |F.dl| <= HEAP_SIZE == |F.depth| == |F.heap|
    && Nodes(F.heap, F.len, F.fc, F.depth)
    && F.len < F.top <= HEAP_SIZE
  }

  ghost function Live(F: Forest): seq<nat>
    requires Shaped(F)
  {
    Active(F.heap, F.len)
  }

  function MaxOf(a: nat, b: nat): nat {
    if a >= b then a else b
  }

  // ---- one merge ----

  /** `G` is `F` with the two lightest live nodes `n` and `m` merged into a new one. */
  ghost predicate Merged(F: Forest, G: Forest, n: nat, m: nat) {
    && Shaped(F) && Shaped(G) && Ordered(G.heap, G.len, G.fc, G.depth, 1, 0)
    && F.len >= 2 && G.len == F.len - 1 && G.top == F.top - 2 && G.node == F.node + 1
    && n < |F.fc| && m < |F.fc| && F.node < |F.fc|
    && G.fc == F.fc[F.node := F.fc[n] + F.fc[m]]
    && G.dl == F.dl[n := F.node][m := F.node]
    && G.depth == F.depth[F.node := (MaxOf(F.depth[n], F.depth[m]) + 1) % 256]
    && G.heap[F.top - 1] == n && G.heap[F.top - 2] == m
    && (forall i :: F.top <= i < HEAP_SIZE ==> G.heap[i] == F.heap[i])
    && n in Live(F) && m in multiset(Live(F)) - multiset{n}
    && multiset(Live(G)) == multiset(Live(F)) - multiset{n} - multiset{m} + multiset{F.node}
    && (forall x :: x in Live(F) ==> F.fc[n] <= F.fc[x])
    && (forall x :: x in multiset(Live(F)) - multiset{n} ==> F.fc[m] <= F.fc[x])
  }

  /** `n` comes first of the live nodes, and `m` of the others: by weight, and by depth among equal weights. */
  ghost predicate Foremost(F: Forest, n: nat, m: nat)
    requires Shaped(F)
  {
    && n < |F.fc| && m < |F.fc|
    && (forall x :: x in Live(F) && x < |F.fc| ==> Smaller(F.fc, F.depth, n, x))
    && (forall x :: x in multiset(Live(F)) - multiset{n} && x < |F.fc| ==> Smaller(F.fc, F.depth, m, x))
  }

  lemma KeyOrder(fc: seq<nat>, depth: seq<nat>, n: nat, x: nat)
    requires n < |fc| <= |depth| && x < |fc| && depth[n] < 256 && depth[x] < 256 &&
             Key(fc, depth, n) <= Key(fc, depth, x)
    ensures fc[n] <= fc[x]
  {
  }

  /** The node at the root of the heap is a lightest one. */
  lemma RootLightest(h: seq<nat>, len: nat, fc: seq<nat>, depth: seq<nat>)
    requires Nodes(h, len, fc, depth) && Ordered(h, len, fc, depth, 1, 0) && len >= 1
    ensures h[1] in Active(h, len) && forall x :: x in Active(h, len) ==> x < |fc| && fc[h[1]] <= fc[x]
    ensures forall x :: x in Active(h, len) && x < |fc| ==> Smaller(fc, depth, h[1], x)
  {
    assert Active(h, len)[0] == h[1];
    forall x | x in Active(h, len)
      ensures x < |fc| && fc[h[1]] <= fc[x] && Smaller(fc, depth, h[1], x)
    {
      var i :| 0 <= i < len && Active(h, len)[i] == x;
      assert h[i + 1] == x;
      RootSmallest(h, len, fc, depth, i + 1);
      KeyOrder(fc, depth, h[1], x);
      SmallerIsKey(fc, depth, h[1], x);
    }
  }

  lemma RemoveRoot(h: seq<nat>, len: nat, fc: seq<nat>, depth: seq<nat>)
    requires Nodes(h, len, fc, depth) && Ordered(h, len, fc, depth, 1, 0) && len >= 2
    ensures var g := h[1 := h[len]];
            && Nodes(g, len - 1, fc, depth) && Ordered(g, len - 1, fc, depth, 2, 0)
            && multiset(Active(g, len - 1)) == multiset(Active(h, len)) - multiset{h[1]}
  {
    var g := h[1 := h[len]];
    var a, b := Active(h, len), Active(g, len - 1);
    assert a == [h[1]] + h[2..len] + [h[len]];
    assert b == [h[len]] + h[2..len];
    assert multiset(a) == multiset{h[1]} + multiset(h[2..len]) + multiset{h[len]};
    assert multiset(b) == multiset{h[len]} + multiset(h[2..len]);
    forall i | 2 <= i <= len - 1 && 2 <= i / 2
      ensures KeyAt(g, fc, depth, i / 2) <= KeyAt(g, fc, depth, i)
    {
      assert KeyAt(h, fc, depth, i / 2) <= KeyAt(h, fc, depth, i);
    }
  }

  lemma ReplaceRoot(h: seq<nat>, len: nat, fc: seq<nat>, depth: seq<nat>, fc': seq<nat>, depth': seq<nat>, node: nat)
    requires Nodes(h, len, fc, depth) && Ordered(h, len, fc, depth, 1, 0) && len >= 1 && node < |fc|
    requires |fc'| == |fc| && |depth'| == |depth| && (forall n :: 0 <= n < |depth'| ==> depth'[n] < 256)
    requires forall x :: 0 <= x < |fc| && x != node ==> fc'[x] == fc[x] && depth'[x] == depth[x]
    requires node !in Active(h, len)
    ensures var g := h[1 := node];
            && Nodes(g, len, fc', depth') && Ordered(g, len, fc', depth', 2, 0)
            && multiset(Active(g, len)) == multiset(Active(h, len)) - multiset{h[1]} + multiset{node}
  {
    var g := h[1 := node];
    var a, b := Active(h, len), Active(g, len);
    assert a == [h[1]] + h[2..len + 1] && b == [node] + h[2..len + 1];
    assert multiset(a) == multiset{h[1]} + multiset(h[2..len + 1]);
    forall i | 2 <= i <= len && 2 <= i / 2
      ensures KeyAt(g, fc', depth', i / 2) <= KeyAt(g, fc', depth', i)
    {
      assert a[i - 1] == h[i] && a[i / 2 - 1] == h[i / 2];
      assert KeyAt(h, fc, depth, i / 2) <= KeyAt(h, fc, depth, i);
    }
  }

  /** pqremove: the lightest node is taken out. */
  method PqRemove(heap: seq<nat>, len: nat, fc: seq<nat>, depth: seq<nat>) returns (h: seq<nat>, top: nat)
    requires Nodes(heap, len, fc, depth) && Ordered(heap, len, fc, depth, 1, 0) && len >= 2
    ensures |h| == |heap| && Nodes(h, len - 1, fc, depth) && Ordered(h, len - 1, fc, depth, 1, 0)
    ensures top == heap[1] && multiset(Active(h, len - 1)) == multiset(Active(heap, len)) - multiset{top}
    ensures forall i :: len <= i < |heap| ==> h[i] == heap[i]
  {
    hide Ordered, Active;
    top := heap[1];
    RemoveRoot(heap, len, fc, depth);
    h := heap[1 := heap[len]];
    h := PqDownHeap(h, len - 1, fc, depth, 1);
  }

  /** The root makes room for a new node (trees.c:674-675). */
  method PqReplace(heap: seq<nat>, len: nat, ghost fc: seq<nat>, ghost depth: seq<nat>, fc': seq<nat>,
                   depth': seq<nat>, node: nat)
    returns (h: seq<nat>)
    requires Nodes(heap, len, fc, depth) && Ordered(heap, len, fc, depth, 1, 0) && len >= 1 && node < |fc|
    requires |fc'| == |fc| && |depth'| == |depth| && (forall n :: 0 <= n < |depth'| ==> depth'[n] < 256)
    requires forall x :: 0 <= x < |fc| && x != node ==> fc'[x] == fc[x] && depth'[x] == depth[x]
    requires node !in Active(heap, len)
    ensures |h| == |heap| && Nodes(h, len, fc', depth') && Ordered(h, len, fc', depth', 1, 0)
    ensures multiset(Active(h, len)) == multiset(Active(heap, len)) - multiset{heap[1]} + multiset{node}
    ensures forall i :: len < i < |heap| ==> h[i] == heap[i]
  {
    hide Ordered, Active;
    ReplaceRoot(heap, len, fc, depth, fc', depth', node);
    h := PqDownHeap(heap[1 := node], len, fc', depth', 1);
  }

  /** `n` and `m` are two lightest live nodes, and `h` is the heap without `n` and with `m` at its root. */
  ghost predicate Taken(F: Forest, h: seq<nat>, n: nat, m: nat) {
    && Shaped(F) && F.len >= 2 && F.top >= F.len + 2 && |h| == HEAP_SIZE
    && Nodes(h, F.len - 1, F.fc, F.depth) && Ordered(h, F.len - 1, F.fc, F.depth, 1, 0) && h[1] == m
    && n < |F.fc| && m < |F.fc|
    && multiset(Active(h, F.len - 1)) == multiset(Live(F)) - multiset{n}
    && n in Live(F) && m in multiset(Live(F)) - multiset{n}
    && (forall x :: x in Live(F) ==> F.fc[n] <= F.fc[x])
    && (forall x :: x in multiset(Live(F)) - multiset{n} ==> F.fc[m] <= F.fc[x])
    && (forall i :: F.top <= i < HEAP_SIZE ==> h[i] == F.heap[i])
  }

  method TakeTwo(F: Forest) returns (h: seq<nat>, n: nat, m: nat)
    requires Shaped(F) && Ordered(F.heap, F.len, F.fc, F.depth, 1, 0) && F.len >= 2 && F.top >= F.len + 2
    ensures Taken(F, h, n, m) && Foremost(F, n, m)
  {
    hide Ordered, Active, Smaller;
    RootLightest(F.heap, F.len, F.fc, F.depth);
    h, n := PqRemove(F.heap, F.len, F.fc, F.depth);
    RootLightest(h, F.len - 1, F.fc, F.depth);
    m := h[1];
    SameMembers(Active(h, F.len - 1));
  }

  lemma SameMembers(s: seq<nat>)
    ensures forall x :: x in multiset(s) ==> x in s
    ensures forall x :: x in s ==> x in multiset(s)
  {
  }

  /** The two nodes are stored below heap_max. */
  lemma Stored(F: Forest, h: seq<nat>, n: nat, m: nat)
    requires Taken(F, h, n, m)
    ensures var g := h[F.top - 1 := n][F.top - 2 := m]; Taken(F, g, n, m) && g[F.top - 1] == n && g[F.top - 2] == m
  {
    var g := h[F.top - 1 := n][F.top - 2 := m];
    assert Active(g, F.len - 1) == Active(h, F.len - 1);
    OrderedSame(h, g, F.len - 1, F.fc, F.depth);
  }

  lemma OrderedSame(h: seq<nat>, g: seq<nat>, len: nat, fc: seq<nat>, depth: seq<nat>)
    requires Nodes(h, len, fc, depth) && Ordered(h, len, fc, depth, 1, 0) && |g| == |h|
    requires forall i :: 0 <= i <= len ==> g[i] == h[i]
    ensures Nodes(g, len, fc, depth) && Ordered(g, len, fc, depth, 1, 0)
  {
    forall i | 2 <= i <= len && 1 <= i / 2
      ensures KeyAt(g, fc, depth, i / 2) <= KeyAt(g, fc, depth, i)
    {
      assert KeyAt(h, fc, depth, i / 2) <= KeyAt(h, fc, depth, i);
    }
  }

  lemma MergedNow(F: Forest, h: seq<nat>, g: seq<nat>, n: nat, m: nat, G: Forest)
    requires Taken(F, h, n, m) && h[F.top - 1] == n && h[F.top - 2] == m && F.node < |F.fc|
    requires G == Forest(F.fc[F.node := F.fc[n] + F.fc[m]], F.dl[n := F.node][m := F.node],
                         F.depth[F.node := (MaxOf(F.depth[n], F.depth[m]) + 1) % 256], g, F.len - 1, F.top - 2,
                           F.node + 1)
    requires |g| == HEAP_SIZE && Nodes(g, G.len, G.fc, G.depth) && Ordered(g, G.len, G.fc, G.depth, 1, 0)
    requires multiset(Active(g, G.len)) == multiset(Active(h, G.len)) - multiset{m} + multiset{F.node}
    requires forall i :: G.len < i < HEAP_SIZE ==> g[i] == h[i]
    ensures Merged(F, G, n, m)
  {
    hide Ordered, Active, MaxOf;
  }

  lemma NoWrap(F: Forest, n: nat, m: nat)
    requires Shaped(F) && n in Live(F) && m in multiset(Live(F)) - multiset{n} && n < |F.fc| && m < |F.fc|
    requires PairsFit(F)
    ensures (F.fc[n] + F.fc[m]) % 65536 == F.fc[n] + F.fc[m]
  {
  }

  /** Any two live nodes have a sum that fits in 16 bits. */
  ghost predicate PairsFit(F: Forest)
    requires Shaped(F)
  {
    forall x, y :: x in Live(F) && y in multiset(Live(F)) - multiset{x} && x < |F.fc| && y < |F.fc| ==>
                     F.fc[x] + F.fc[y] <= 65535
  }

  /** One turn of the loop. */
  method Merge(F: Forest) returns (G: Forest, n: nat, m: nat)
    requires Shaped(F) && Ordered(F.heap, F.len, F.fc, F.depth, 1, 0) && F.len >= 2 && F.top >= F.len + 2
    requires F.node < |F.fc| && F.node !in Live(F) && PairsFit(F)
    ensures Merged(F, G, n, m) && Foremost(F, n, m)
  {
    hide Ordered, Active, MaxOf, Merged, PairsFit, Foremost;
    var h;
    h, n, m := TakeTwo(F);
    Stored(F, h, n, m);
    h := h[F.top - 1 := n][F.top - 2 := m];
    NoWrap(F, n, m);
    var fc := F.fc[F.node := (F.fc[n] + F.fc[m]) % 65536];
    var depth := F.depth[F.node := (MaxOf(F.depth[n], F.depth[m]) + 1) % 256];
    var dl := F.dl[n := F.node][m := F.node];
    NotTaken(F, h, n, m, F.node);
    var g := PqReplace(h, F.len - 1, F.fc, F.depth, fc, depth, F.node);
    G := Forest(fc, dl, depth, g, F.len - 1, F.top - 2, F.node + 1);
    MergedNow(F, h, g, n, m, G);
  }

  lemma NotTaken(F: Forest, h: seq<nat>, n: nat, m: nat, x: nat)
    requires Taken(F, h, n, m) && x !in Live(F)
    ensures x !in Active(h, F.len - 1)
  {
    SameMembers(Live(F));
    SameMembers(Active(h, F.len - 1));
  }
}
