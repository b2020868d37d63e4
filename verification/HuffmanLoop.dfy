/** What the merging loop of build_tree keeps, from the first heap to the single root. */
module HuffmanLoop {
  import opened Heap
  import opened Huffman
  import opened HuffmanTree
  import opened Totals

  // ---- identities ----

  function Range(a: nat, t: nat): (s: seq<nat>)
    ensures |s| == t && forall i :: 0 <= i < t ==> s[i] == a + i
  {
    seq(t, i requires 0 <= i < t => a + i)
  }

  ghost predicate Leaves(leaves: seq<nat>, elems: nat) {
    && (forall i :: 0 <= i < |leaves| ==> leaves[i] < elems)
    && forall i, j :: 0 <= i < j < |leaves| ==> leaves[i] != leaves[j]
  }

  /** The node taken out as the `u`-th. */
  ghost function Em(F: Forest, u: nat): nat
    requires |F.heap| == HEAP_SIZE && u < HEAP_SIZE
  {
    F.heap[HEAP_SIZE - 1 - u]
  }

  /** Live nodes and nodes taken out are together the leaves and the `t` internal nodes made so far. */
  ghost predicate Ids(F: Forest, elems: nat, leaves: seq<nat>, t: nat)
    requires Shaped(F)
  {
    multiset(Live(F)) + multiset(F.heap[F.top..]) == multiset(leaves) + multiset(Range(elems, t))
  }

  lemma {:induction false} OnceEach(s: seq<nat>, x: nat)
    requires forall i, j :: 0 <= i < j < |s| ==> s[i] != s[j]
    ensures multiset(s)[x] <= 1
  {
    if |s| == 0 {
    } else {
      var n := |s| - 1;
      OnceEach(s[..n], x);
      assert s == s[..n] + [s[n]];
      assert multiset(s) == multiset(s[..n]) + multiset{s[n]};
      if s[n] == x {
        assert x !in s[..n];
      }
    }
  }

  lemma IdOnce(elems: nat, leaves: seq<nat>, t: nat, x: nat)
    requires Leaves(leaves, elems)
    ensures multiset(leaves)[x] + multiset(Range(elems, t))[x] <= 1
    ensures multiset(leaves)[x] > 0 ==> x < elems
    ensures multiset(Range(elems, t))[x] > 0 ==> elems <= x < elems + t
  {
    OnceEach(leaves, x);
    OnceEach(Range(elems, t), x);
    SameMembers(leaves);
    SameMembers(Range(elems, t));
  }

  /** A live node is none of the nodes taken out, and all ids are below the next node. */
  lemma LiveApart(F: Forest, elems: nat, leaves: seq<nat>, t: nat, x: nat)
    requires Shaped(F) && Leaves(leaves, elems) && Ids(F, elems, leaves, t)
    ensures x in multiset(Live(F)) ==> x !in F.heap[F.top..] && x < elems + t && multiset(Live(F))[x] == 1
    ensures x in F.heap[F.top..] ==> x < elems + t && (x < elems ==> x in leaves)
    ensures x in Live(F) ==> x < elems ==> x in leaves
  {
    IdOnce(elems, leaves, t, x);
    SameMembers(F.heap[F.top..]);
    SameMembers(Live(F));
    SameMembers(leaves);
    OccurrencesAdd(multiset(Live(F)), multiset(F.heap[F.top..]), multiset(leaves), multiset(Range(elems, t)), x);
  }

  lemma OccurrencesAdd(a: multiset<nat>, b: multiset<nat>, c: multiset<nat>, d: multiset<nat>, x: nat)
    requires a + b == c + d
    ensures a[x] + b[x] == c[x] + d[x]
  {
    assert (a + b)[x] == (c + d)[x];
  }

  lemma EmIn(F: Forest, u: nat)
    requires Shaped(F) && u < HEAP_SIZE - F.top
    ensures Em(F, u) in F.heap[F.top..]
  {
    assert F.heap[F.top..][HEAP_SIZE - 1 - u - F.top] == Em(F, u);
  }

  lemma IdsStep(F: Forest, G: Forest, n: nat, m: nat, elems: nat, leaves: seq<nat>, t: nat)
    requires Merged(F, G, n, m) && Ids(F, elems, leaves, t) && F.node == elems + t
    ensures Ids(G, elems, leaves, t + 1)
  {
    hide Nodes, Ordered, Active;
    EmittedGrow(F, G, n, m);
    var z: nat := elems + t;
    assert Range(elems, t + 1) == Range(elems, t) + [z];
    assert multiset(Range(elems, t + 1)) == multiset(Range(elems, t)) + multiset{z};
    IdsMove(multiset(Live(F)), multiset(F.heap[F.top..]), multiset(leaves), multiset(Range(elems, t)), n, m, z);
  }

  lemma EmittedGrow(F: Forest, G: Forest, n: nat, m: nat)
    requires Merged(F, G, n, m)
    ensures multiset(G.heap[G.top..]) == multiset{m} + (multiset{n} + multiset(F.heap[F.top..]))
  {
    assert G.heap[G.top..] == [m] + ([n] + F.heap[F.top..]);
  }

  lemma IdsMove(live: multiset<nat>, em: multiset<nat>, l: multiset<nat>, r: multiset<nat>, n: nat, m: nat, z: nat)
    requires live + em == l + r && n in live && m in live - multiset{n}
    ensures (live - multiset{n} - multiset{m} + multiset{z}) + (multiset{m} + (multiset{n} + em))
            == l + (r + multiset{z})
  {
    AddBack(live, n, m, z);
    var a := live - multiset{n} - multiset{m} + multiset{z};
    assert a + (multiset{m} + (multiset{n} + em)) == (a + (multiset{m} + multiset{n})) + em;
    assert (live + multiset{z}) + em == (live + em) + multiset{z};
  }

  lemma AddBack(live: multiset<nat>, n: nat, m: nat, x: nat)
    requires n in live && m in live - multiset{n}
    ensures (live - multiset{n} - multiset{m} + multiset{x}) + (multiset{m} + multiset{n}) == live + multiset{x}
  {
  }

  // ---- fathers ----

  ghost predicate Dad(F: Forest, elems: nat, u: nat)
    requires |F.heap| == HEAP_SIZE && u < HEAP_SIZE
  {
    Em(F, u) < |F.dl| && F.dl[Em(F, u)] == elems + u / 2 && (Em(F, u) >= elems ==> Em(F, u) - elems < u / 2)
  }

  /** Nodes 2j and 2j + 1 are the sons of the j-th internal node, which was taken out later. */
  ghost predicate Dads(F: Forest, elems: nat, t: nat)
    requires |F.heap| == HEAP_SIZE && 2 * t < HEAP_SIZE
  {
    forall u :: 0 <= u < 2 * t ==> Dad(F, elems, u)
  }

  lemma DadsStep(F: Forest, G: Forest, n: nat, m: nat, elems: nat, leaves: seq<nat>, t: nat)
    requires Merged(F, G, n, m) && Leaves(leaves, elems) && Ids(F, elems, leaves, t) && F.node == elems + t
    requires F.top == HEAP_SIZE - 2 * t && 2 * t + 2 < HEAP_SIZE && Dads(F, elems, t)
    ensures Dads(G, elems, t + 1)
  {
    SameMembers(Live(F));
    LiveApart(F, elems, leaves, t, n);
    LiveApart(F, elems, leaves, t, m);
    forall u | 0 <= u < 2 * t + 2
      ensures Dad(G, elems, u)
    {
      if u < 2 * t {
        assert Dad(F, elems, u);
        EmIn(F, u);
        assert Em(G, u) == Em(F, u);
      } else {
        assert u / 2 == t;
        assert Em(G, u) == if u == 2 * t then n else m;
      }
    }
  }

  /** The j-th internal node has the weight of its sons together, and one more than the greater of their depths. */
  ghost predicate PairSum(F: Forest, elems: nat, j: nat)
    requires |F.heap| == HEAP_SIZE && 2 * j + 1 < HEAP_SIZE
  {
    && elems + j < |F.fc| && Em(F, 2 * j) < |F.fc| && Em(F, 2 * j + 1) < |F.fc|
    && F.fc[elems + j] == F.fc[Em(F, 2 * j)] + F.fc[Em(F, 2 * j + 1)]
    && |F.fc| <= |F.depth| && F.depth[elems + j] == MaxOf(F.depth[Em(F, 2 * j)], F.depth[Em(F, 2 * j + 1)]) + 1
  }

  ghost predicate Sums(F: Forest, elems: nat, t: nat)
    requires |F.heap| == HEAP_SIZE && 2 * t < HEAP_SIZE
  {
    forall j :: 0 <= j < t ==> PairSum(F, elems, j)
  }

  lemma SumsStep(F: Forest, G: Forest, n: nat, m: nat, elems: nat, leaves: seq<nat>, t: nat)
    requires Merged(F, G, n, m) && Leaves(leaves, elems) && Ids(F, elems, leaves, t) && F.node == elems + t
    requires F.top == HEAP_SIZE - 2 * t && 2 * t + 2 < HEAP_SIZE && Sums(F, elems, t) && F.depth[n] <= 22 &&
             F.depth[m] <= 22
    ensures Sums(G, elems, t + 1)
  {
    hide Nodes, Ordered, Active, Leaves, Ids, PairSum;
    forall j | 0 <= j < t + 1
      ensures PairSum(G, elems, j)
    {
      if j < t {
        assert PairSum(F, elems, j);
        OldSons(F, G, n, m, elems, leaves, t, j);
      } else {
        NewSons(F, G, n, m, elems, leaves, t);
      }
    }
  }

  lemma OldSons(F: Forest, G: Forest, n: nat, m: nat, elems: nat, leaves: seq<nat>, t: nat, j: nat)
    requires Merged(F, G, n, m) && Leaves(leaves, elems) && Ids(F, elems, leaves, t) && F.node == elems + t
    requires F.top == HEAP_SIZE - 2 * t && 2 * t + 2 < HEAP_SIZE && j < t && PairSum(F, elems, j)
    ensures PairSum(G, elems, j)
  {
    hide Ordered, Active, Leaves, Ids, Live;
    EmIn(F, 2 * j);
    EmIn(F, 2 * j + 1);
    LiveApart(F, elems, leaves, t, Em(F, 2 * j));
    LiveApart(F, elems, leaves, t, Em(F, 2 * j + 1));
    assert Em(G, 2 * j) == Em(F, 2 * j) && Em(G, 2 * j + 1) == Em(F, 2 * j + 1);
  }

  lemma NewSons(F: Forest, G: Forest, n: nat, m: nat, elems: nat, leaves: seq<nat>, t: nat)
    requires Merged(F, G, n, m) && Leaves(leaves, elems) && Ids(F, elems, leaves, t) && F.node == elems + t
    requires F.top == HEAP_SIZE - 2 * t && 2 * t + 2 < HEAP_SIZE && F.depth[n] <= 22 && F.depth[m] <= 22
    ensures PairSum(G, elems, t)
  {
    hide Ordered, Active, Leaves, Ids;
    SameMembers(Live(F));
    LiveApart(F, elems, leaves, t, n);
    LiveApart(F, elems, leaves, t, m);
    assert Em(G, 2 * t) == n && Em(G, 2 * t + 1) == m;
  }

  // ---- weights ----

  function Ws(fc: seq<nat>, s: seq<nat>): (r: seq<nat>)
    requires forall i :: 0 <= i < |s| ==> s[i] < |fc|
    ensures |r| == |s| && forall i :: 0 <= i < |s| ==> r[i] == fc[s[i]]
  {
    seq(|s|, i requires 0 <= i < |s| => fc[s[i]])
  }

  lemma {:induction false} SumDel(s: seq<nat>, i: nat)
    requires i < |s|
    ensures Sum(s) == Sum(Del(s, i)) + s[i]
  {
    var n := |s| - 1;
    if i < n {
      SumDel(s[..n], i);
      assert Del(s, i)[..n - 1] == Del(s[..n], i);
    } else {
      assert Del(s, i) == s[..n];
    }
  }

  ghost predicate Indices(fc: seq<nat>, s: seq<nat>) {
    forall i :: 0 <= i < |s| ==> s[i] < |fc|
  }

  /** Reordering nodes reorders their weights. */
  lemma {:induction false} PermWs(fc: seq<nat>, a: seq<nat>, b: seq<nat>)
    requires multiset(a) == multiset(b) && Indices(fc, a) && Indices(fc, b)
    ensures multiset(Ws(fc, a)) == multiset(Ws(fc, b)) && Sum(Ws(fc, a)) == Sum(Ws(fc, b))
    decreases |a|
  {
    hide Ws, Sum, Del;
    assert |a| == |multiset(a)| && |b| == |multiset(b)|;
    if |a| == 0 {
      assert a == b;
    } else {
      var n := |a| - 1;
      assert a[n] in multiset(b);
      var p :| 0 <= p < |b| && b[p] == a[n];
      DelMultiset(b, p);
      DelMultiset(a, n);
      DelIndices(fc, a, n);
      DelIndices(fc, b, p);
      PermWs(fc, Del(a, n), Del(b, p));
      DelWs(fc, a, n);
      DelWs(fc, b, p);
      TakeOut(multiset(Ws(fc, a)), multiset(Ws(fc, b)), fc[a[n]]);
    }
  }

  lemma DelIndices(fc: seq<nat>, s: seq<nat>, i: nat)
    requires Indices(fc, s) && i < |s|
    ensures Indices(fc, Del(s, i))
  {
  }

  lemma DelWs(fc: seq<nat>, s: seq<nat>, i: nat)
    requires Indices(fc, s) && i < |s| && Indices(fc, Del(s, i))
    ensures fc[s[i]] in multiset(Ws(fc, s)) && multiset(Ws(fc, Del(s, i))) == multiset(Ws(fc, s)) - multiset{fc[s[i]]}
    ensures Sum(Ws(fc, s)) == Sum(Ws(fc, Del(s, i))) + fc[s[i]]
  {
    assert Ws(fc, Del(s, i)) == Del(Ws(fc, s), i);
    DelMultiset(Ws(fc, s), i);
    SumDel(Ws(fc, s), i);
    assert Ws(fc, s)[i] == fc[s[i]];
  }

  lemma TakeOut(a: multiset<nat>, b: multiset<nat>, x: nat)
    requires x in a && x in b && a - multiset{x} == b - multiset{x}
    ensures a == b
  {
    assert a == (a - multiset{x}) + multiset{x};
    assert b == (b - multiset{x}) + multiset{x};
  }

  /** The weights of the live nodes. */
  ghost function LiveWs(F: Forest): (r: seq<nat>)
    requires Shaped(F)
    ensures |r| == F.len
  {
    Ws(F.fc, Live(F))
  }

  /** Sum of the weights of the internal nodes made so far. */
  function MergeCost(fc: seq<nat>, elems: nat, t: nat): nat
    requires elems + t <= |fc|
  {
    if t == 0 then 0 else MergeCost(fc, elems, t - 1) + fc[elems + t - 1]
  }

  lemma {:induction false} MergeCostSame(fc: seq<nat>, fc': seq<nat>, elems: nat, t: nat)
    requires elems + t <= |fc| == |fc'| && forall i :: 0 <= i < elems + t ==> fc'[i] == fc[i]
    ensures MergeCost(fc', elems, t) == MergeCost(fc, elems, t)
  {
    if t == 0 {
    } else {
      MergeCostSame(fc, fc', elems, t - 1);
    }
  }

  /** The live nodes listed with the two lightest in front. */
  lemma FrontTwo(live: seq<nat>, n: nat, m: nat) returns (rest: seq<nat>)
    requires n in live && m in multiset(live) - multiset{n}
    ensures multiset(live) == multiset([n] + ([m] + rest)) && |live| == |rest| + 2
    ensures forall x :: x in rest ==> x in live
  {
    hide Del;
    var i :| 0 <= i < |live| && live[i] == n;
    DelMultiset(live, i);
    var l1 := Del(live, i);
    assert m in multiset(l1);
    var j :| 0 <= j < |l1| && l1[j] == m;
    DelMultiset(l1, j);
    rest := Del(l1, j);
    FrontAgain(multiset(live), n, m);
    FrontList(n, m, rest);
    SameMembers(rest);
    SameMembers(live);
  }

  lemma FrontList(n: nat, m: nat, rest: seq<nat>)
    ensures multiset([n] + ([m] + rest)) == multiset{n} + (multiset{m} + multiset(rest))
  {
  }

  lemma FrontAgain(live: multiset<nat>, n: nat, m: nat)
    requires n in live && m in live - multiset{n}
    ensures multiset{n} + (multiset{m} + (live - multiset{n} - multiset{m})) == live
  {
  }

  lemma SumCons(a: nat, s: seq<nat>)
    ensures Sum([a] + s) == a + Sum(s)
  {
    SumDel([a] + s, 0);
    assert Del([a] + s, 0) == s;
  }

  lemma ListTwo(fc: seq<nat>, n: nat, m: nat, rest: seq<nat>)
    requires n < |fc| && m < |fc| && Indices(fc, rest)
    ensures Indices(fc, [n] + ([m] + rest))
    ensures Sum(Ws(fc, [n] + ([m] + rest))) == fc[n] + fc[m] + Sum(Ws(fc, rest))
    ensures multiset(Ws(fc, [n] + ([m] + rest))) == multiset{fc[n]} + (multiset{fc[m]} + multiset(Ws(fc, rest)))
  {
    var w := Ws(fc, rest);
    assert Ws(fc, [n] + ([m] + rest)) == [fc[n]] + ([fc[m]] + w);
    SumCons(fc[m], w);
    SumCons(fc[n], [fc[m]] + w);
    FrontList(fc[n], fc[m], w);
  }

  lemma LiveIndices(F: Forest)
    requires Shaped(F)
    ensures Indices(F.fc, Live(F))
  {
  }

  lemma InIndices(fc: seq<nat>, live: seq<nat>, rest: seq<nat>)
    requires Indices(fc, live) && forall x :: x in rest ==> x in live
    ensures Indices(fc, rest)
  {
    forall i | 0 <= i < |rest|
      ensures rest[i] < |fc|
    {
      assert rest[i] in live;
    }
  }

  /** The weights of the live nodes with two of them in front. */
  lemma WeightsFront(F: Forest, n: nat, m: nat) returns (rest: seq<nat>)
    requires Shaped(F) && n in Live(F) && m in multiset(Live(F)) - multiset{n}
    ensures n < |F.fc| && m < |F.fc| && Indices(F.fc, rest) && |rest| == F.len - 2
    ensures multiset(Live(F)) == multiset([n] + ([m] + rest))
    ensures forall x :: x in rest ==> x in Live(F)
    ensures Sum(LiveWs(F)) == F.fc[n] + F.fc[m] + Sum(Ws(F.fc, rest))
    ensures multiset(LiveWs(F)) == multiset{F.fc[n]} + (multiset{F.fc[m]} + multiset(Ws(F.fc, rest)))
  {
    hide Nodes, Ws, Sum;
    LiveIndices(F);
    SameMembers(Live(F));
    assert m in Live(F);
    rest := FrontTwo(Live(F), n, m);
    InIndices(F.fc, Live(F), rest);
    ListTwo(F.fc, n, m, rest);
    PermWs(F.fc, Live(F), [n] + ([m] + rest));
  }

  /** A total that fits in 16 bits leaves room for every sum of two nodes. */
  lemma TotalFits(F: Forest)
    requires Shaped(F) && Sum(LiveWs(F)) <= 65535
    ensures PairsFit(F)
  {
    hide Active, LiveWs;
    forall x, y | x in Live(F) && y in multiset(Live(F)) - multiset{x} && x < |F.fc| && y < |F.fc|
      ensures F.fc[x] + F.fc[y] <= 65535
    {
      var rest := WeightsFront(F, x, y);
    }
  }

  lemma NewList(fc: seq<nat>, node: nat, s: nat, rest: seq<nat>)
    requires Indices(fc, rest) && node < |fc| && node !in rest
    ensures var fc' := fc[node := s];
            && Indices(fc', [node] + rest) && multiset(Ws(fc', [node] + rest)) == multiset{s} + multiset(Ws(fc, rest))
            && Sum(Ws(fc', [node] + rest)) == s + Sum(Ws(fc, rest))
  {
    var fc' := fc[node := s];
    forall i | 0 <= i < |rest|
      ensures fc'[rest[i]] == fc[rest[i]]
    {
      assert rest[i] in rest;
    }
    assert Ws(fc', [node] + rest) == [s] + Ws(fc, rest);
    SumCons(s, Ws(fc, rest));
  }

  lemma LiveAfter(F: Forest, G: Forest, n: nat, m: nat, rest: seq<nat>)
    requires Merged(F, G, n, m) && multiset(Live(F)) == multiset([n] + ([m] + rest))
    ensures multiset(Live(G)) == multiset([F.node] + rest)
  {
    hide Nodes, Ordered, Live;
    FrontList(n, m, rest);
    RestOnly(multiset(rest), n, m, F.node);
  }

  lemma MergedFacts(F: Forest, G: Forest, n: nat, m: nat)
    requires Merged(F, G, n, m)
    ensures Shaped(F) && Shaped(G) && n < |F.fc| && m < |F.fc| && F.node < |F.fc|
    ensures G.fc == F.fc[F.node := F.fc[n] + F.fc[m]]
  {
  }

  /** After a merge the live weights are the rest and the sum. */
  lemma WeightsAfter(F: Forest, G: Forest, n: nat, m: nat, rest: seq<nat>)
    requires Merged(F, G, n, m) && F.node !in Live(F) && Indices(F.fc, rest)
    requires multiset(Live(F)) == multiset([n] + ([m] + rest)) && forall x :: x in rest ==> x in Live(F)
    ensures Sum(LiveWs(G)) == F.fc[n] + F.fc[m] + Sum(Ws(F.fc, rest))
    ensures multiset(LiveWs(G)) == multiset{F.fc[n] + F.fc[m]} + multiset(Ws(F.fc, rest))
  {
    hide Live, Sum, Ws, Merged;
    MergedFacts(F, G, n, m);
    LiveAfter(F, G, n, m, rest);
    NewList(F.fc, F.node, F.fc[n] + F.fc[m], rest);
    LiveIndices(G);
    PermWs(G.fc, Live(G), [F.node] + rest);
  }

  lemma RestOnly(rest: multiset<nat>, n: nat, m: nat, z: nat)
    ensures (multiset{n} + (multiset{m} + rest)) - multiset{n} - multiset{m} + multiset{z} == multiset{z} + rest
  {
  }

  lemma MinOfRest(fc: seq<nat>, n: nat, m: nat, rest: seq<nat>)
    requires n < |fc| && m < |fc| && Indices(fc, rest) && fc[n] <= fc[m] &&
             forall x :: x in rest ==> x < |fc| && fc[m] <= fc[x]
    ensures IsMin(multiset{fc[n]} + (multiset{fc[m]} + multiset(Ws(fc, rest))), fc[n])
    ensures IsMin(multiset{fc[m]} + multiset(Ws(fc, rest)), fc[m])
  {
    var w := Ws(fc, rest);
    SameMembers(w);
    forall y | y in multiset(w)
      ensures fc[m] <= y
    {
      var i :| 0 <= i < |w| && w[i] == y;
      assert rest[i] in rest;
    }
  }

  lemma LightestTwo(F: Forest, G: Forest, n: nat, m: nat, rest: seq<nat>)
    requires Merged(F, G, n, m) && multiset(Live(F)) == multiset([n] + ([m] + rest))
    ensures F.fc[n] <= F.fc[m] && forall x :: x in rest ==> x < |F.fc| && F.fc[m] <= F.fc[x]
  {
    hide Ordered, Nodes, Active;
    FrontList(n, m, rest);
    LiveBelow(F);
    SameMembers(Live(F));
    SameMembers(rest);
    LightTwo(multiset(Live(F)), F.fc, n, m, multiset(rest));
  }

  lemma LightTwo(live: multiset<nat>, fc: seq<nat>, n: nat, m: nat, rest: multiset<nat>)
    requires n < |fc| && m < |fc| && live == multiset{n} + (multiset{m} + rest)
    requires forall x :: x in live ==> x < |fc| && fc[n] <= fc[x]
    requires forall x :: x in live - multiset{n} ==> x < |fc| && fc[m] <= fc[x]
    ensures fc[n] <= fc[m] && forall x :: x in rest ==> x < |fc| && fc[m] <= fc[x]
  {
    assert m in live;
    var others := live - multiset{n};
    assert others == multiset{m} + rest;
    forall x | x in rest
      ensures x < |fc| && fc[m] <= fc[x]
    {
      assert x in others;
    }
  }

  lemma HuffFront(a: nat, b: nat, w: multiset<nat>)
    requires IsMin(multiset{a} + (multiset{b} + w), a) && IsMin(multiset{b} + w, b)
    ensures HuffCost(multiset{a} + (multiset{b} + w)) == (a + b) + HuffCost(multiset{a + b} + w)
  {
    hide HuffCost;
    var ws := multiset{a} + (multiset{b} + w);
    assert ws - multiset{a} == multiset{b} + w;
    HuffStep(ws, a, b);
    assert ws - multiset{a} - multiset{b} + multiset{a + b} == multiset{a + b} + w;
  }

  /** The cost that is still to come, and the total weight. */
  lemma CostStep(F: Forest, G: Forest, n: nat, m: nat)
    requires Merged(F, G, n, m) && F.node !in Live(F)
    ensures HuffCost(multiset(LiveWs(F))) == G.fc[F.node] + HuffCost(multiset(LiveWs(G)))
    ensures Sum(LiveWs(G)) == Sum(LiveWs(F))
  {
    hide Live, LiveWs, HuffCost, Ordered, Nodes, Sum, IsMin, Ws;
    var rest := WeightsFront(F, n, m);
    WeightsAfter(F, G, n, m, rest);
    LightestTwo(F, G, n, m, rest);
    MinOfRest(F.fc, n, m, rest);
    HuffFront(F.fc[n], F.fc[m], multiset(Ws(F.fc, rest)));
  }

  lemma LiveBelow(F: Forest)
    requires Shaped(F)
    ensures forall x :: x in Live(F) ==> x < |F.fc|
    ensures forall n, x :: x in multiset(Live(F)) - multiset{n} ==> x < |F.fc|
  {
    SameMembers(Live(F));
  }

  // ---- depths ----

  /** Fibonacci's numbers from 1, 2 on: no Huffman tree of height `d` weighs less. */
  function MinWeight(d: nat): (w: nat)
    ensures w >= 1
  {
    if d < 2 then d + 1 else MinWeight(d - 1) + MinWeight(d - 2)
  }

  lemma {:induction false} MinWeightMono(c: nat, d: nat)
    requires c <= d
    ensures MinWeight(c) <= MinWeight(d)
  {
    if c < d { MinWeightMono(c, d - 1); }
  }

  lemma MinWeightValues()
    ensures MinWeight(8) == 55 && MinWeight(16) == 2584 && MinWeight(23) == 75025
  {
    assert MinWeight(2) == 3 && MinWeight(3) == 5 && MinWeight(4) == 8 && MinWeight(5) == 13 && MinWeight(6) == 21 &&
           MinWeight(7) == 34;
    assert MinWeight(8) == 55 && MinWeight(9) == 89 && MinWeight(10) == 144 && MinWeight(11) == 233 &&
           MinWeight(12) == 377;
    assert MinWeight(13) == 610 && MinWeight(14) == 987 && MinWeight(15) == 1597 && MinWeight(16) == 2584 &&
           MinWeight(17) == 4181;
    assert MinWeight(18) == 6765 && MinWeight(19) == 10946 && MinWeight(20) == 17711 && MinWeight(21) == 28657 &&
           MinWeight(22) == 46368;
  }

  /**
   * A live node `x` of depth d weighs at least MinWeight(d); `hv` is the weight of its heavier son, which is at least
   * MinWeight(d - 1) and at most the weight of any other live node.
   */
  ghost predicate DeepNode(F: Forest, hv: seq<nat>, x: nat) {
    && x < |F.fc| == |hv| && |F.fc| <= |F.depth|
    && hv[x] <= F.fc[x] && MinWeight(F.depth[x]) <= F.fc[x]
    && (F.depth[x] > 0 ==> MinWeight(F.depth[x] - 1) <= hv[x])
  }

  ghost predicate Deep(F: Forest, hv: seq<nat>)
    requires Shaped(F)
  {
    && |hv| == |F.fc|
    && (forall x :: x in Live(F) ==> DeepNode(F, hv, x))
    && (forall x, y :: x in Live(F) && y in Live(F) && x != y && x < |hv| && y < |hv| ==> hv[x] <= F.fc[y])
  }

  lemma Shallow(d: nat, w: nat)
    requires MinWeight(d) <= w <= 65535
    ensures d <= 22
  {
    hide MinWeight;
    MinWeightValues();
    if d > 22 { MinWeightMono(23, d); }
  }

  /** The father of two nodes, `x` being the deeper one. */
  lemma DeeperWeight(d: nat, wx: nat, hx: nat, wy: nat)
    requires MinWeight(d) <= wx && hx <= wy && 1 <= wy && (d > 0 ==> MinWeight(d - 1) <= hx)
    ensures MinWeight(d + 1) <= wx + wy
  {
  }

  lemma DeepNew(F: Forest, G: Forest, n: nat, m: nat, hv: seq<nat>)
    requires Merged(F, G, n, m) && Deep(F, hv) && n != m && m in Live(F) && F.fc[n] <= F.fc[m]
    requires F.depth[n] <= 22 && F.depth[m] <= 22
    ensures DeepNode(G, hv[F.node := F.fc[m]], F.node)
  {
    hide Nodes, Ordered, Active, Shaped, MinWeight;
    assert DeepNode(F, hv, n) && DeepNode(F, hv, m);
    DeeperWeight(F.depth[n], F.fc[n], hv[n], F.fc[m]);
    DeeperWeight(F.depth[m], F.fc[m], hv[m], F.fc[n]);
    if F.depth[n] <= F.depth[m] {
      assert G.depth[F.node] == F.depth[m] + 1;
    } else {
      assert G.depth[F.node] == F.depth[n] + 1;
    }
  }

  /** Who is live after a merge. */
  lemma LiveMembers(F: Forest, G: Forest, n: nat, m: nat, x: nat)
    requires Merged(F, G, n, m) && x in Live(G) && F.node !in Live(F)
    requires multiset(Live(F))[n] == 1 && multiset(Live(F))[m] == 1
    ensures n != m && m in Live(F)
    ensures x != F.node ==> x in Live(F) && x != n && x != m && x in multiset(Live(F)) - multiset{n}
  {
    hide Nodes, Ordered, Active;
    SameMembers(Live(G));
    SameMembers(Live(F));
    var l := multiset(Live(F));
    assert m in l - multiset{n};
    assert x in l - multiset{n} - multiset{m} + multiset{F.node};
    MemberAfter(l, n, m, F.node, x);
  }

  lemma MemberAfter(l: multiset<nat>, n: nat, m: nat, z: nat, x: nat)
    requires l[n] == 1 && l[m] == 1 && m in l - multiset{n} && x in l - multiset{n} - multiset{m} + multiset{z}
    ensures n != m && (x != z ==> x in l && x != n && x != m && x in l - multiset{n})
  {
  }

  lemma DeepOld(F: Forest, G: Forest, n: nat, m: nat, hv: seq<nat>, x: nat)
    requires Merged(F, G, n, m) && Deep(F, hv) && x in Live(F) && x != F.node
    ensures DeepNode(G, hv[F.node := F.fc[m]], x)
  {
    hide Nodes, Ordered, Active;
    assert DeepNode(F, hv, x);
  }

  lemma DeepStep(F: Forest, G: Forest, n: nat, m: nat, hv: seq<nat>)
    requires Merged(F, G, n, m) && Deep(F, hv) && F.node !in Live(F)
    requires multiset(Live(F))[n] == 1 && multiset(Live(F))[m] == 1 && F.depth[n] <= 22 && F.depth[m] <= 22
    ensures Deep(G, hv[F.node := F.fc[m]])
  {
    hide Nodes, Ordered, Active, DeepNode;
    var hv' := hv[F.node := F.fc[m]];
    RootThere(G);
    var g := Live(G)[0];
    LiveMembers(F, G, n, m, g);
    DeepNew(F, G, n, m, hv);
    forall x | x in Live(G)
      ensures DeepNode(G, hv', x)
    {
      LiveMembers(F, G, n, m, x);
      if x != F.node { DeepOld(F, G, n, m, hv, x); }
    }
    forall x, y | x in Live(G) && y in Live(G) && x != y && x < |hv'| && y < |hv'|
      ensures hv'[x] <= G.fc[y]
    {
      LiveMembers(F, G, n, m, x);
      LiveMembers(F, G, n, m, y);
      if x == F.node {
      } else if y == F.node {
        assert hv[x] <= F.fc[m];
      } else {
        assert hv[x] <= F.fc[y];
      }
    }
  }

  lemma RootThere(G: Forest)
    requires Shaped(G) && G.len >= 1
    ensures |Live(G)| == G.len && Live(G)[0] in Live(G)
  {
  }

  lemma LiveWeight(F: Forest, x: nat)
    requires Shaped(F) && x in Live(F)
    ensures x < |F.fc| && F.fc[x] <= Sum(LiveWs(F))
  {
    var i :| 0 <= i < F.len && Live(F)[i] == x;
    SumDel(LiveWs(F), i);
  }

  // ---- the order in which nodes are taken out ----

  ghost function We(F: Forest, u: nat): nat
    requires |F.heap| == HEAP_SIZE && u < HEAP_SIZE
  {
    if Em(F, u) < |F.fc| then F.fc[Em(F, u)] else 0
  }

  /** Nodes are taken out by rising weight, and what is left is at least as heavy. */
  ghost predicate Rising(F: Forest, t: nat)
    requires |F.heap| == HEAP_SIZE && 2 * t < HEAP_SIZE && Shaped(F)
  {
    && (forall u, v :: 0 <= u <= v < 2 * t ==> We(F, u) <= We(F, v))
    && (forall u, x :: 0 <= u < 2 * t && x in Live(F) && x < |F.fc| ==> We(F, u) <= F.fc[x])
  }

  /** A node that was taken out keeps its weight. */
  lemma WeSame(F: Forest, G: Forest, n: nat, m: nat, elems: nat, leaves: seq<nat>, t: nat, u: nat)
    requires Merged(F, G, n, m) && Leaves(leaves, elems) && Ids(F, elems, leaves, t) && F.node == elems + t
    requires F.top == HEAP_SIZE - 2 * t && 2 * t + 2 < HEAP_SIZE && u < 2 * t
    ensures We(G, u) == We(F, u)
  {
    hide Ordered, Active, Leaves, Ids, Live;
    EmIn(F, u);
    LiveApart(F, elems, leaves, t, Em(F, u));
    assert Em(G, u) == Em(F, u);
  }

  lemma WeNew(F: Forest, G: Forest, n: nat, m: nat, elems: nat, leaves: seq<nat>, t: nat)
    requires Merged(F, G, n, m) && Leaves(leaves, elems) && Ids(F, elems, leaves, t) && F.node == elems + t
    requires F.top == HEAP_SIZE - 2 * t && 2 * t + 2 < HEAP_SIZE
    ensures We(G, 2 * t) == F.fc[n] && We(G, 2 * t + 1) == F.fc[m]
  {
    hide Ordered, Active, Leaves, Ids;
    SameMembers(Live(F));
    LiveApart(F, elems, leaves, t, n);
    LiveApart(F, elems, leaves, t, m);
    assert Em(G, 2 * t) == n && Em(G, 2 * t + 1) == m;
  }

  /** Weight of the `u`-th node after the merge, in terms of the state before. */
  lemma WeAfter(F: Forest, G: Forest, n: nat, m: nat, elems: nat, leaves: seq<nat>, t: nat, u: nat)
    requires Merged(F, G, n, m) && Leaves(leaves, elems) && Ids(F, elems, leaves, t) && F.node == elems + t
    requires F.top == HEAP_SIZE - 2 * t && 2 * t + 2 < HEAP_SIZE && u < 2 * t + 2
    ensures We(G, u) == if u < 2 * t then We(F, u) else if u == 2 * t then F.fc[n] else F.fc[m]
  {
    hide Merged, Leaves, Ids, We;
    if u < 2 * t { WeSame(F, G, n, m, elems, leaves, t, u); } else { WeNew(F, G, n, m, elems, leaves, t); }
  }

  lemma RisingStep(F: Forest, G: Forest, n: nat, m: nat, elems: nat, leaves: seq<nat>, t: nat)
    requires Merged(F, G, n, m) && Leaves(leaves, elems) && Ids(F, elems, leaves, t) && F.node == elems + t
    requires F.top == HEAP_SIZE - 2 * t && 2 * t + 2 < HEAP_SIZE && Rising(F, t) && F.node !in Live(F)
    requires multiset(Live(F))[n] == 1 && multiset(Live(F))[m] == 1
    ensures Rising(G, t + 1)
  {
    hide Nodes, Ordered, Active, Leaves, Ids, We;
    SameMembers(Live(F));
    assert n in Live(F) && m in Live(F);
    forall u | 0 <= u < 2 * t + 2
      ensures We(G, u) <= F.fc[m] && (u <= 2 * t ==> We(G, u) <= F.fc[n])
    {
      WeAfter(F, G, n, m, elems, leaves, t, u);
    }
    forall u, v | 0 <= u <= v < 2 * t + 2
      ensures We(G, u) <= We(G, v)
    {
      WeAfter(F, G, n, m, elems, leaves, t, u);
      WeAfter(F, G, n, m, elems, leaves, t, v);
    }
    forall u, x | 0 <= u < 2 * t + 2 && x in Live(G) && x < |G.fc|
      ensures We(G, u) <= G.fc[x]
    {
      LiveMembers(F, G, n, m, x);
    }
  }

  // ---- the loop ----

  /** What the initial frequencies and the tree still have in common. */
  ghost predicate Kept(F: Forest, fc0: seq<nat>, elems: nat, leaves: seq<nat>) {
    && elems <= |F.fc| == |F.dl| == |fc0|
    && (forall n :: 0 <= n < elems ==> F.fc[n] == fc0[n])
    && (forall n :: 0 <= n < elems && n !in leaves ==> F.dl[n] == 0)
  }

  ghost predicate Counters(F: Forest, elems: nat, leaves: seq<nat>, t: nat) {
    && F.node == elems + t && F.len + t == |leaves| <= elems <= 286 && F.top == HEAP_SIZE - 2 * t
    && elems + |leaves| <= |F.fc| && F.len >= 1
  }

  ghost predicate LoopInv(F: Forest, elems: nat, leaves: seq<nat>, t: nat, fc0: seq<nat>, hv: seq<nat>, cost: nat,
                          total: nat) {
    && Shaped(F) && Counters(F, elems, leaves, t) && Leaves(leaves, elems)
    && Ordered(F.heap, F.len, F.fc, F.depth, 1, 0)
    && Ids(F, elems, leaves, t) && Dads(F, elems, t) && Sums(F, elems, t) && Kept(F, fc0, elems, leaves)
    && Deep(F, hv) && Rising(F, t)
    && HuffCost(multiset(LiveWs(F))) + MergeCost(F.fc, elems, t) == cost
    && Sum(LiveWs(F)) == total <= 65535
  }

  lemma KeptStep(F: Forest, G: Forest, n: nat, m: nat, fc0: seq<nat>, elems: nat, leaves: seq<nat>)
    requires Merged(F, G, n, m) && Kept(F, fc0, elems, leaves) && F.node >= elems
    requires (n < elems ==> n in leaves) && (m < elems ==> m in leaves)
    ensures Kept(G, fc0, elems, leaves)
  {
  }

  lemma MergeReady(F: Forest, elems: nat, leaves: seq<nat>, t: nat, fc0: seq<nat>, hv: seq<nat>, cost: nat, total: nat)
    requires LoopInv(F, elems, leaves, t, fc0, hv, cost, total) && F.len >= 2
    ensures F.node < |F.fc| && F.node !in Live(F) && PairsFit(F) && F.top >= F.len + 2
  {
    hide Active, Ordered, Deep, Dads, Sums, Kept, LiveWs, HuffCost, MergeCost, PairsFit, Rising;
    TotalFits(F);
    SameMembers(Live(F));
    if F.node in Live(F) { LiveApart(F, elems, leaves, t, F.node); }
  }

  lemma MergeStep(F: Forest, G: Forest, n: nat, m: nat, elems: nat, leaves: seq<nat>, t: nat, fc0: seq<nat>,
                  hv: seq<nat>, cost: nat, total: nat)
    requires LoopInv(F, elems, leaves, t, fc0, hv, cost, total) && Merged(F, G, n, m)
    ensures LoopInv(G, elems, leaves, t + 1, fc0, hv[F.node := F.fc[m]], cost, total)
  {
    hide Nodes, Active, Ordered, Deep, Dads, Sums, Kept, LiveWs, HuffCost, MergeCost, Ids, Leaves, PairsFit, Rising;
    MergeReady(F, elems, leaves, t, fc0, hv, cost, total);
    MergeIds(F, G, n, m, elems, leaves, t, hv);
    IdsStep(F, G, n, m, elems, leaves, t);
    DadsStep(F, G, n, m, elems, leaves, t);
    SumsStep(F, G, n, m, elems, leaves, t);
    KeptStep(F, G, n, m, fc0, elems, leaves);
    DeepStep(F, G, n, m, hv);
    RisingStep(F, G, n, m, elems, leaves, t);
    CostStep(F, G, n, m);
    MergeCostSame(F.fc, G.fc, elems, t);
    MergeCostNext(G.fc, elems, t);
  }

  lemma MergeCostNext(fc: seq<nat>, elems: nat, t: nat)
    requires elems + t < |fc|
    ensures MergeCost(fc, elems, t + 1) == MergeCost(fc, elems, t) + fc[elems + t]
  {
  }

  lemma MergeIds(F: Forest, G: Forest, n: nat, m: nat, elems: nat, leaves: seq<nat>, t: nat, hv: seq<nat>)
    requires Merged(F, G, n, m) && Leaves(leaves, elems) && Ids(F, elems, leaves, t) && Deep(F, hv) &&
             Sum(LiveWs(F)) <= 65535
    ensures multiset(Live(F))[n] == 1 && multiset(Live(F))[m] == 1 && F.depth[n] <= 22 && F.depth[m] <= 22
    ensures (n < elems ==> n in leaves) && (m < elems ==> m in leaves)
  {
    hide Nodes, Active, Ordered, LiveWs, Ids, Leaves;
    SameMembers(Live(F));
    LiveApart(F, elems, leaves, t, n);
    LiveApart(F, elems, leaves, t, m);
    LiveWeight(F, n);
    LiveWeight(F, m);
    assert DeepNode(F, hv, n) && DeepNode(F, hv, m);
    Shallow(F.depth[n], F.fc[n]);
    Shallow(F.depth[m], F.fc[m]);
  }

  lemma LoopShape(F: Forest, elems: nat, leaves: seq<nat>, t: nat, fc0: seq<nat>, hv: seq<nat>, cost: nat, total: nat)
    requires LoopInv(F, elems, leaves, t, fc0, hv, cost, total)
    ensures Shaped(F) && Ordered(F.heap, F.len, F.fc, F.depth, 1, 0) && |hv| == |F.fc| && F.len + t == |leaves| &&
            F.len >= 1
  {
  }
}
