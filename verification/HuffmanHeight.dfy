/** The merging loop of build_tree and the depth of its tree: no cheapest code is flatter. */
module HuffmanHeight {
  import opened Heap
  import opened Huffman
  import opened HuffmanDepth
  import opened HuffmanTree
  import opened HuffmanLoop
  import opened Totals

  /** Weight and depth of the nodes. */
  function ItemsOf(fc: seq<nat>, depth: seq<nat>, s: seq<nat>): (r: seq<Item>)
    requires Indices(fc, s) && |fc| <= |depth|
    ensures |r| == |s| && forall i :: 0 <= i < |s| ==> r[i] == Item(fc[s[i]], depth[s[i]])
  {
    seq(|s|, i requires 0 <= i < |s| => Item(fc[s[i]], depth[s[i]]))
  }

  lemma DelItems(fc: seq<nat>, depth: seq<nat>, s: seq<nat>, i: nat)
    requires Indices(fc, s) && |fc| <= |depth| && i < |s| && Indices(fc, Del(s, i))
    ensures Item(fc[s[i]], depth[s[i]]) in multiset(ItemsOf(fc, depth, s))
    ensures multiset(ItemsOf(fc, depth, Del(s, i)))
            == multiset(ItemsOf(fc, depth, s)) - multiset{Item(fc[s[i]], depth[s[i]])}
  {
    var r := ItemsOf(fc, depth, s);
    assert ItemsOf(fc, depth, Del(s, i)) == r[..i] + r[i + 1..];
    assert r == r[..i] + [r[i]] + r[i + 1..];
    assert multiset(r) == multiset(r[..i]) + multiset{r[i]} + multiset(r[i + 1..]);
  }

  lemma TakeOutItem(a: multiset<Item>, b: multiset<Item>, x: Item)
    requires x in a && x in b && a - multiset{x} == b - multiset{x}
    ensures a == b
  {
    assert a == (a - multiset{x}) + multiset{x};
    assert b == (b - multiset{x}) + multiset{x};
  }

  /** Reordering nodes reorders their items. */
  lemma {:induction false} PermItems(fc: seq<nat>, depth: seq<nat>, a: seq<nat>, b: seq<nat>)
    requires multiset(a) == multiset(b) && Indices(fc, a) && Indices(fc, b) && |fc| <= |depth|
    ensures multiset(ItemsOf(fc, depth, a)) == multiset(ItemsOf(fc, depth, b))
    decreases |a|
  {
    hide ItemsOf, Del;
    assert |a| == |multiset(a)| && |b| == |multiset(b)|;
    if |a| == 0 {
      assert a == b;
    } else {
      var n := |a| - 1;
      assert a[n] in multiset(b);
      var p :| 0 <= p < |b| && b[p] == a[n];
      DelMultiset(b, p);
      DelMultiset(a, n);
      DelIndices(fc, a, n);
      DelIndices(fc, b, p);
      PermItems(fc, depth, Del(a, n), Del(b, p));
      DelItems(fc, depth, a, n);
      DelItems(fc, depth, b, p);
      TakeOutItem(multiset(ItemsOf(fc, depth, a)), multiset(ItemsOf(fc, depth, b)), Item(fc[a[n]], depth[a[n]]));
    }
  }

  ghost function LiveItems(F: Forest): seq<Item>
    requires Shaped(F)
  {
    LiveIndices(F);
    ItemsOf(F.fc, F.depth, Live(F))
  }

  /** What the loop keeps: the depth that the finished tree will have. */
  ghost predicate Tall(F: Forest, height: nat) {
    Shaped(F) && HuffDepth(multiset(LiveItems(F))) == height
  }

  lemma TwoItems(fc: seq<nat>, depth: seq<nat>, n: nat, m: nat, rest: seq<nat>)
    requires n < |fc| && m < |fc| <= |depth| && Indices(fc, rest)
    ensures Indices(fc, [n] + ([m] + rest))
    ensures multiset(ItemsOf(fc, depth, [n] + ([m] + rest)))
            == multiset{Item(fc[n], depth[n])} + (multiset{Item(fc[m], depth[m])} + multiset(ItemsOf(fc, depth, rest)))
  {
    var a, b, r := Item(fc[n], depth[n]), Item(fc[m], depth[m]), ItemsOf(fc, depth, rest);
    assert ItemsOf(fc, depth, [n] + ([m] + rest)) == [a] + ([b] + r);
  }

  lemma NewItems(F: Forest, G: Forest, n: nat, m: nat, rest: seq<nat>)
    requires Merged(F, G, n, m) && F.node !in rest && Indices(F.fc, rest) && F.depth[n] <= 22 && F.depth[m] <= 22
    ensures Indices(G.fc, [F.node] + rest)
    ensures multiset(ItemsOf(G.fc, G.depth, [F.node] + rest))
            == multiset{Join(Item(F.fc[n], F.depth[n]), Item(F.fc[m], F.depth[m]))}
               + multiset(ItemsOf(F.fc, F.depth, rest))
  {
    hide Nodes, Ordered, Active;
    var c, r := Join(Item(F.fc[n], F.depth[n]), Item(F.fc[m], F.depth[m])), ItemsOf(F.fc, F.depth, rest);
    forall i | 0 <= i < |rest|
      ensures G.fc[rest[i]] == F.fc[rest[i]] && G.depth[rest[i]] == F.depth[rest[i]]
    {
      assert rest[i] in rest;
    }
    assert ItemsOf(G.fc, G.depth, [F.node] + rest) == [c] + r;
  }

  lemma FirstOfAll(fc: seq<nat>, depth: seq<nat>, n: nat, m: nat, rest: seq<nat>)
    requires n < |fc| <= |depth| && m < |fc| && Indices(fc, rest) && Smaller(fc, depth, n, m)
    requires forall x :: x in rest && x < |fc| ==> Smaller(fc, depth, m, x)
    ensures var a, b, r := Item(fc[n], depth[n]), Item(fc[m], depth[m]), multiset(ItemsOf(fc, depth, rest));
            IsFirst(multiset{a} + (multiset{b} + r), a) && IsFirst(multiset{b} + r, b)
  {
    var a, b, r := Item(fc[n], depth[n]), Item(fc[m], depth[m]), ItemsOf(fc, depth, rest);
    forall y | y in multiset(r)
      ensures Before(b, y)
    {
      var i :| 0 <= i < |r| && r[i] == y;
      assert rest[i] in rest;
    }
  }

  lemma ForemostTwo(F: Forest, n: nat, m: nat, rest: seq<nat>)
    requires Shaped(F) && Foremost(F, n, m) && multiset(Live(F)) == multiset([n] + ([m] + rest))
    ensures Smaller(F.fc, F.depth, n, m) && forall x :: x in rest && x < |F.fc| ==> Smaller(F.fc, F.depth, m, x)
  {
    hide Nodes, Active, Smaller;
    FrontList(n, m, rest);
    SameMembers(Live(F));
    SameMembers(rest);
    var live := multiset(Live(F));
    assert m in live;
    assert live - multiset{n} == multiset{m} + multiset(rest);
  }

  lemma JoinFront(a: Item, b: Item, r: multiset<Item>)
    requires IsFirst(multiset{a} + (multiset{b} + r), a) && IsFirst(multiset{b} + r, b)
    ensures HuffDepth(multiset{a} + (multiset{b} + r)) == HuffDepth(multiset{Join(a, b)} + r)
  {
    hide HuffDepth, Join;
    var s := multiset{a} + (multiset{b} + r);
    assert s - multiset{a} == multiset{b} + r;
    JoinStep(s, a, b);
    assert s - multiset{a} - multiset{b} + multiset{Join(a, b)} == multiset{Join(a, b)} + r;
  }

  lemma HeightStep(F: Forest, G: Forest, n: nat, m: nat, height: nat)
    requires Merged(F, G, n, m) && Shaped(F) && Foremost(F, n, m) && F.node !in Live(F) && Tall(F, height)
    requires n < |F.depth| && m < |F.depth| && F.depth[n] <= 22 && F.depth[m] <= 22
    ensures Tall(G, height)
  {
    hide Live, HuffDepth, Ordered, Nodes, Sum, IsFirst, Ws, Foremost, ItemsOf, Smaller;
    var rest := WeightsFront(F, n, m);
    LiveIndices(F);
    TwoItems(F.fc, F.depth, n, m, rest);
    PermItems(F.fc, F.depth, Live(F), [n] + ([m] + rest));
    ForemostTwo(F, n, m, rest);
    FirstOfAll(F.fc, F.depth, n, m, rest);
    JoinFront(Item(F.fc[n], F.depth[n]), Item(F.fc[m], F.depth[m]), multiset(ItemsOf(F.fc, F.depth, rest)));
    NewItems(F, G, n, m, rest);
    LiveAfter(F, G, n, m, rest);
    LiveIndices(G);
    PermItems(G.fc, G.depth, Live(G), [F.node] + rest);
  }

  /** A single root: its depth is the one that was to come. */
  lemma TallRoot(F: Forest, height: nat)
    requires Tall(F, height) && F.len == 1
    ensures F.heap[1] < |F.depth| && F.depth[F.heap[1]] == height
  {
    hide HuffDepth;
    var x := F.heap[1];
    assert Live(F) == [x];
    var a := Item(F.fc[x], F.depth[x]);
    assert LiveItems(F) == [a];
    assert multiset([a]) == multiset{a};
    OneItem(a);
  }

  lemma MergeLow(F: Forest, G: Forest, n: nat, m: nat, elems: nat, leaves: seq<nat>, t: nat, fc0: seq<nat>,
                 hv: seq<nat>, cost: nat, total: nat)
    requires LoopInv(F, elems, leaves, t, fc0, hv, cost, total) && Merged(F, G, n, m)
    ensures n < |F.depth| && m < |F.depth| && F.depth[n] <= 22 && F.depth[m] <= 22
  {
    hide Nodes, Active, Ordered, Dads, Sums, Kept, LiveWs, HuffCost, MergeCost, Ids, Leaves, PairsFit, Rising, Deep;
    MergeIds(F, G, n, m, elems, leaves, t, hv);
  }

  /** The loop: it ends with a single root (trees.c:656-677). */
  method MergeAll(F0: Forest, elems: nat, ghost leaves: seq<nat>, ghost fc0: seq<nat>, ghost hv0: seq<nat>,
                  ghost cost: nat, ghost total: nat, ghost height: nat)
    returns (F: Forest, ghost hv: seq<nat>)
    requires LoopInv(F0, elems, leaves, 0, fc0, hv0, cost, total) && F0.len >= 2 && Tall(F0, height)
    ensures LoopInv(F, elems, leaves, |leaves| - 1, fc0, hv, cost, total) && F.len == 1 && Tall(F, height)
  {
    hide LoopInv, Tall, Foremost;
    F, hv := F0, hv0;
    ghost var t := 0;
    LoopShape(F, elems, leaves, t, fc0, hv, cost, total);
    while F.len >= 2
      invariant LoopInv(F, elems, leaves, t, fc0, hv, cost, total) && F.len + t == |leaves| && F.len >= 1
      invariant Tall(F, height)
    {
      MergeReady(F, elems, leaves, t, fc0, hv, cost, total);
      LoopShape(F, elems, leaves, t, fc0, hv, cost, total);
      var G, n, m := Merge(F);
      MergeStep(F, G, n, m, elems, leaves, t, fc0, hv, cost, total);
      MergedFacts(F, G, n, m);
      MergeLow(F, G, n, m, elems, leaves, t, fc0, hv, cost, total);
      HeightStep(F, G, n, m, height);
      hv := hv[F.node := F.fc[m]];
      F := G;
      t := t + 1;
      LoopShape(F, elems, leaves, t, fc0, hv, cost, total);
    }
  }
}
