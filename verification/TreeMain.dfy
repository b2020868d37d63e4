/** build_tree as a whole, and what it promises about every frequency table. */
module TreeMain {
  import opened Bitstring
  import opened Codes
  import opened Heap
  import opened Huffman
  import opened HuffmanTree
  import opened HuffmanLoop
  import opened HuffmanDepth
  import opened HuffmanHeight
  import opened BitLengths
  import opened GenBitLen
  import opened LengthRepair
  import opened TreeBuild
  import opened Totals

  // ---- total weight ----

  lemma {:induction false} DistinctSame(a: seq<nat>, b: seq<nat>)
    requires forall i, j :: 0 <= i < j < |a| ==> a[i] != a[j]
    requires forall i, j :: 0 <= i < j < |b| ==> b[i] != b[j]
    requires forall x :: x in a <==> x in b
    ensures multiset(a) == multiset(b)
  {
    SameMembers(a);
    SameMembers(b);
    forall x: nat
      ensures multiset(a)[x] == multiset(b)[x]
    {
      OnceEach(a, x);
      OnceEach(b, x);
      assert x in multiset(a) <==> x in multiset(b);
    }
  }

  /** The leaves are the symbols in use, in some order. */
  lemma LeavesInUse(fc: seq<nat>, elems: nat, leaves: seq<nat>, maxCode: int)
    requires LeafList(fc, elems, leaves, maxCode)
    ensures multiset(leaves) == multiset(InUse(fc, elems)) && Indices(fc, leaves) && Indices(fc, InUse(fc, elems))
    ensures multiset(Ws(fc, leaves)) == multiset(Ws(fc, InUse(fc, elems))) &&
            Sum(Ws(fc, leaves)) == Sum(Ws(fc, InUse(fc, elems)))
  {
    hide Ws, Sum, InUse;
    InUseIs(fc, elems);
    var u := InUse(fc, elems);
    forall x: nat
      ensures x in leaves <==> x in u
    {
      if x in leaves { assert x < elems; }
    }
    DistinctSame(leaves, u);
    PermWs(fc, leaves, u);
  }

  lemma {:induction false} InUseSum(fc: seq<nat>, n: nat)
    requires n <= |fc|
    ensures Indices(fc, InUse(fc, n)) && Sum(Ws(fc, InUse(fc, n))) == Sum(fc[..n])
  {
    if n == 0 {
    } else {
      InUseSum(fc, n - 1);
      assert fc[..n][..n - 1] == fc[..n - 1];
      var u, w := InUse(fc, n), Ws(fc, InUse(fc, n));
      if fc[n - 1] != 0 {
        assert w[..|w| - 1] == Ws(fc, InUse(fc, n - 1));
      }
    }
  }

  lemma {:induction false} ForcedSum(fc: seq<nat>, forced: seq<nat>, n: nat)
    requires ForceOk(fc, forced) && 3 <= n <= |fc|
    ensures Sum(ForceFc(fc, forced)[..n]) == Sum(fc[..n]) + |forced|
  {
    if |forced| == 0 {
    } else {
      var p, x := forced[..|forced| - 1], forced[|forced| - 1];
      ForcedSum(fc, p, n);
      var f := ForceFc(fc, p);
      SumUpdate(f[..n], x, 1);
      assert f[x := 1][..n] == f[..n][x := 1];
    }
  }

  lemma {:induction false} ForcedFew(fc: seq<nat>, forced: seq<nat>, leaves: seq<nat>)
    requires ForceOk(fc, forced) && forall x :: x in forced ==> x in leaves
    ensures forall i, j :: 0 <= i < j < |forced| ==> forced[i] != forced[j]
    ensures forall i :: 0 <= i < |forced| ==> forced[i] < |fc| && ForceFc(fc, forced)[forced[i]] == 1
  {
    if |forced| == 0 {
    } else {
      var p, x := forced[..|forced| - 1], forced[|forced| - 1];
      assert forall y :: y in p ==> y in forced;
      ForcedFew(fc, p, leaves);
      assert forced == p + [x] && ForceFc(fc, forced) == ForceFc(fc, p)[x := 1];
      forall i | 0 <= i < |p|
        ensures p[i] != x && ForceFc(fc, forced)[p[i]] == 1
      {
        assert ForceFc(fc, p)[p[i]] == 1;
      }
    }
  }

  lemma ForcedAtMost(fc: seq<nat>, forced: seq<nat>)
    requires ForceOk(fc, forced)
    ensures |forced| <= 3
  {
    ForcedFew(fc, forced, forced);
    ForcedThree(fc, forced);
    LeavesFew(forced, 3);
  }

  lemma {:induction false} ForcedThree(fc: seq<nat>, forced: seq<nat>)
    requires ForceOk(fc, forced)
    ensures forall i :: 0 <= i < |forced| ==> forced[i] < 3
  {
    if |forced| == 0 {
    } else {
      ForcedThree(fc, forced[..|forced| - 1]);
    }
  }

  // ---- optimality ----

  function Select(ls: seq<nat>, u: seq<nat>): (r: seq<nat>)
    requires forall i :: 0 <= i < |u| ==> u[i] < |ls|
    ensures |r| == |u|
  {
    seq(|u|, i requires 0 <= i < |u| => ls[u[i]])
  }

  lemma {:induction false} SelectDot(fc: seq<nat>, ls: seq<nat>, n: nat)
    requires n <= |fc| && n <= |ls|
    ensures Dot(Ws(fc, InUse(fc, n)), Select(ls, InUse(fc, n))) == Dot(fc[..n], ls[..n])
  {
    hide Dot, Ws, Select;
    if n > 0 {
      SelectDot(fc, ls, n - 1);
      assert fc[..n] == fc[..n - 1] + [fc[n - 1]] && ls[..n] == ls[..n - 1] + [ls[n - 1]];
      DotSnoc(fc[..n - 1], ls[..n - 1], fc[n - 1], ls[n - 1]);
      if fc[n - 1] != 0 { SelectSnoc(fc, ls, InUse(fc, n - 1), n - 1); }
    } else {
      DotEmpty(fc, ls);
    }
  }

  lemma SelectSnoc(fc: seq<nat>, ls: seq<nat>, u: seq<nat>, x: nat)
    requires Indices(fc, u) && Indices(ls, u) && x < |fc| && x < |ls|
    ensures Indices(fc, u + [x]) && Indices(ls, u + [x])
    ensures Dot(Ws(fc, u + [x]), Select(ls, u + [x])) == Dot(Ws(fc, u), Select(ls, u)) + fc[x] * ls[x]
  {
    assert Ws(fc, u + [x]) == Ws(fc, u) + [fc[x]] && Select(ls, u + [x]) == Select(ls, u) + [ls[x]];
    DotSnoc(Ws(fc, u), Select(ls, u), fc[x], ls[x]);
  }

  lemma DotEmpty(fc: seq<nat>, ls: seq<nat>)
    ensures Dot(Ws(fc, []), Select(ls, [])) == 0 && Dot(fc[..0], ls[..0]) == 0
  {
  }

  lemma {:induction false} SelectKraft(fc: seq<nat>, ls: seq<nat>, m: nat, n: nat)
    requires n <= |fc| && n <= |ls| && AtMost(ls, m) && forall s :: 0 <= s < n && fc[s] != 0 ==> ls[s] >= 1
    ensures Kraft(Select(ls, InUse(fc, n)), m) <= KraftSum(ls[..n], m)
  {
    hide Kraft, Pow2, Select;
    if n > 0 {
      SelectKraft(fc, ls, m, n - 1);
      assert ls[..n][..n - 1] == ls[..n - 1];
      var u := InUse(fc, n - 1);
      if fc[n - 1] != 0 {
        SelectOne(ls, u, n - 1);
        KraftSnoc(Select(ls, u), ls[n - 1], m);
      }
    } else {
      SelectNone(ls, m);
    }
  }

  lemma SelectOne(ls: seq<nat>, u: seq<nat>, i: nat)
    requires i < |ls| && forall j :: 0 <= j < |u| ==> u[j] < |ls|
    ensures Select(ls, u + [i]) == Select(ls, u) + [ls[i]]
  {
  }

  lemma SelectNone(ls: seq<nat>, m: nat)
    ensures Kraft(Select(ls, []), m) == 0
  {
  }

  /** No code that gives every symbol in use a length has a smaller weighted sum. */
  ghost predicate Cheapest(freq: seq<nat>, lens: seq<nat>)
    requires |freq| == |lens|
  {
    forall other: seq<nat>, m: nat ::
      |other| == |freq| && Fits(other, m) && (forall s :: 0 <= s < |freq| && freq[s] != 0 ==> other[s] >= 1)
      ==> Dot(freq, lens) <= Dot(freq, other)
  }

  lemma HuffIsCheapest(fc: seq<nat>, n: nat, lens: seq<nat>)
    requires n <= |fc| && |lens| == n && |InUse(fc, n)| > 0 &&
             Dot(fc[..n], lens) == HuffCost(multiset(Ws(fc, InUse(fc, n))))
    ensures Cheapest(fc[..n], lens)
  {
    hide InUse, Ws, HuffCost, Dot, Used;
    forall other: seq<nat>, m: nat |
      |other| == n && Fits(other, m) && (forall s :: 0 <= s < n && fc[..n][s] != 0 ==> other[s] >= 1)
      ensures Dot(fc[..n], lens) <= Dot(fc[..n], other)
    {
      var u := InUse(fc, n);
      assert forall s :: 0 <= s < n ==> fc[..n][s] == fc[s];
      SelectDot(fc, other, n);
      SelectKraft(fc, other, m, n);
      assert other[..n] == other;
      UsedIsKraft(other, m);
      HuffLower(Ws(fc, u), Select(other, u), m);
    }
  }

  // ---- the longest code ----

  /** A prefix code for the symbols in use, with lengths up to `m`. */
  ghost predicate Rival(freq: seq<nat>, other: seq<nat>, m: nat) {
    |other| == |freq| && Fits(other, m) && forall s :: 0 <= s < |freq| && freq[s] != 0 ==> other[s] >= 1
  }

  lemma {:induction false} SelectWhole(fc: seq<nat>, ls: seq<nat>, m: nat, n: nat)
    requires n <= |fc| && n <= |ls| && AtMost(ls, m) && forall s :: 0 <= s < n ==> (fc[s] != 0 <==> ls[s] >= 1)
    ensures Kraft(Select(ls, InUse(fc, n)), m) == KraftSum(ls[..n], m)
  {
    hide Kraft, Pow2, Select;
    if n > 0 {
      SelectWhole(fc, ls, m, n - 1);
      assert ls[..n][..n - 1] == ls[..n - 1];
      var u := InUse(fc, n - 1);
      if fc[n - 1] != 0 {
        SelectOne(ls, u, n - 1);
        KraftSnoc(Select(ls, u), ls[n - 1], m);
      }
    } else {
      SelectNone(ls, m);
    }
  }

  /** The lengths of the symbols in use put in their places. */
  ghost function Spread(fc: seq<nat>, ls: seq<nat>, n: nat): (r: seq<nat>)
    requires n <= |fc| && |ls| == |InUse(fc, n)|
    ensures |r| == n
  {
    if n == 0 then []
    else if fc[n - 1] != 0 then Spread(fc, ls[..|ls| - 1], n - 1) + [ls[|ls| - 1]]
    else Spread(fc, ls, n - 1) + [0]
  }

  lemma {:induction false} SpreadBack(fc: seq<nat>, ls: seq<nat>, n: nat)
    requires n <= |fc| && |ls| == |InUse(fc, n)|
    ensures Select(Spread(fc, ls, n), InUse(fc, n)) == ls
  {
    hide Select;
    if n == 0 {
      SelectEmpty(Spread(fc, ls, n));
    } else {
      var u, r, l := InUse(fc, n - 1), Spread(fc, ls, n), if fc[n - 1] != 0 then ls[..|ls| - 1] else ls;
      SpreadBack(fc, l, n - 1);
      SelectMore(Spread(fc, l, n - 1), r[n - 1], u);
      if fc[n - 1] != 0 {
        SelectOne(r, u, n - 1);
        assert ls == l + [ls[|ls| - 1]];
      }
    }
  }

  lemma {:induction false} SpreadUses(fc: seq<nat>, ls: seq<nat>, n: nat, m: nat)
    requires n <= |fc| && |ls| == |InUse(fc, n)| && Positive(ls) && AtMost(ls, m)
    ensures AtMost(Spread(fc, ls, n), m) && forall s :: 0 <= s < n ==> (fc[s] != 0 <==> Spread(fc, ls, n)[s] >= 1)
  {
    if n == 0 {
    } else {
      SpreadUses(fc, if fc[n - 1] != 0 then ls[..|ls| - 1] else ls, n - 1, m);
    }
  }

  lemma SelectEmpty(r: seq<nat>)
    ensures Select(r, []) == []
  {
  }

  lemma SelectMore(r: seq<nat>, x: nat, u: seq<nat>)
    requires forall i :: 0 <= i < |u| ==> u[i] < |r|
    ensures Select(r + [x], u) == Select(r, u)
  {
  }

  /** The cost of Huffman's construction is that of some code. */
  lemma Attained(fc: seq<nat>, n: nat) returns (other: seq<nat>, m: nat)
    requires n <= |fc| && |InUse(fc, n)| >= 2
    ensures Rival(fc[..n], other, m) && Dot(fc[..n], other) == HuffCost(multiset(Ws(fc, InUse(fc, n))))
  {
    hide InUse, Ws, HuffCost, Dot, Used, Kraft, Select, Spread;
    var u := InUse(fc, n);
    var ls;
    ls, m := HuffCode(Ws(fc, u));
    other := Spread(fc, ls, n);
    SpreadBack(fc, ls, n);
    SpreadUses(fc, ls, n, m);
    SelectDot(fc, other, n);
    SelectWhole(fc, other, m, n);
    assert other[..n] == other;
    UsedIsKraft(other, m);
    assert forall s :: 0 <= s < n ==> fc[..n][s] == fc[s];
  }

  /** The depth that Huffman's construction gives the symbols in use. */
  ghost function DepthOf(fc: seq<nat>, leaves: seq<nat>): nat
    requires Indices(fc, leaves)
  {
    HuffDepth(multiset(ItemsOf(fc, StartLs(|fc|), leaves)))
  }

  lemma ItemsFlat(fc: seq<nat>, u: seq<nat>)
    requires Indices(fc, u)
    ensures ItemsOf(fc, StartLs(|fc|), u) == Items(Ws(fc, u), StartLs(|u|))
  {
  }

  lemma ReachFlat(ls: seq<nat>, top: nat)
    requires AtMost(ls, top)
    ensures Reach(StartLs(|ls|), ls, top)
  {
  }

  /** A code as cheap as Huffman's is no flatter. */
  lemma NoFlatter(fc: seq<nat>, n: nat, other: seq<nat>, m: nat)
    requires n <= |fc| && |InUse(fc, n)| > 0 && Rival(fc[..n], other, m) && Indices(fc, InUse(fc, n))
    requires Dot(fc[..n], other) <= HuffCost(multiset(Ws(fc, InUse(fc, n))))
    ensures DepthOf(fc, InUse(fc, n)) <= m
  {
    hide InUse, Ws, HuffCost, Dot, Used, Kraft, HuffDepth, Items, ItemsOf, Reach;
    var u := InUse(fc, n);
    assert forall s :: 0 <= s < n ==> fc[..n][s] == fc[s];
    SelectDot(fc, other, n);
    SelectKraft(fc, other, m, n);
    assert other[..n] == other;
    UsedIsKraft(other, m);
    ItemsFlat(fc, u);
    ReachFlat(Select(other, u), m);
    DepthLower(Ws(fc, u), StartLs(|u|), Select(other, u), m, m);
  }

  /** Some cheapest code of all has no length above `m`. */
  ghost predicate Possible(freq: seq<nat>, m: nat) {
    exists other :: Rival(freq, other, m) && Cheapest(freq, other)
  }

  lemma DepthNeeded(fc: seq<nat>, n: nat, m: nat)
    requires n <= |fc| && |InUse(fc, n)| >= 2 && Indices(fc, InUse(fc, n)) && Possible(fc[..n], m)
    ensures DepthOf(fc, InUse(fc, n)) <= m
  {
    hide InUse, Ws, HuffCost, Dot, DepthOf, Fits;
    var other :| Rival(fc[..n], other, m) && Cheapest(fc[..n], other);
    var best, b := Attained(fc, n);
    NoFlatter(fc, n, other, m);
  }

  lemma DepthSame(fc: seq<nat>, elems: nat, leaves: seq<nat>, maxCode: int, n: nat)
    requires LeafList(fc, elems, leaves, maxCode) && n == maxCode + 1
    ensures n <= |fc| && Indices(fc, leaves) && Indices(fc, InUse(fc, n)) && |InUse(fc, n)| == |leaves|
    ensures DepthOf(fc, leaves) == DepthOf(fc, InUse(fc, n))
  {
    hide InUse, Ws, HuffDepth, ItemsOf, Sum;
    LeavesInUse(fc, elems, leaves, maxCode);
    InUseUpTo(fc, n, elems);
    var u := InUse(fc, n);
    assert |multiset(leaves)| == |leaves| && |multiset(u)| == |u|;
    PermItems(fc, StartLs(|fc|), leaves, u);
  }

  /** The first forest has leaves only. */
  lemma StartTall(F: Forest, leaves: seq<nat>)
    requires Shaped(F) && multiset(Live(F)) == multiset(leaves) && Indices(F.fc, leaves)
    requires forall s :: s in leaves ==> s < |F.depth| && F.depth[s] == 0
    ensures Tall(F, DepthOf(F.fc, leaves))
  {
    hide HuffDepth, Active, Nodes;
    LiveIndices(F);
    PermItems(F.fc, F.depth, Live(F), leaves);
    forall i | 0 <= i < |leaves|
      ensures F.depth[leaves[i]] == 0
    {
      assert leaves[i] in leaves;
    }
    assert ItemsOf(F.fc, F.depth, leaves) == ItemsOf(F.fc, StartLs(|F.fc|), leaves);
  }

  /** gen_bitlen clamps no length if and only if that can be had at no cost. */
  lemma ClampedIff(D: Desc, freq: seq<nat>, leaves: seq<nat>, maxCode: nat, lens: seq<nat>, overflow: nat)
    requires LeafList(freq, D.elems, leaves, maxCode) && |leaves| >= 2 && |lens| == maxCode + 1 <= |freq|
    requires Indices(freq, leaves) && (DepthOf(freq, leaves) <= D.maxLength ==> overflow == 0)
    requires overflow == 0 ==> Cheapest(freq[..|lens|], lens) && Fits(lens, D.maxLength)
    requires forall s :: 0 <= s < |lens| ==> (lens[s] > 0 <==> s in leaves)
    ensures overflow == 0 <==> Possible(freq[..|lens|], D.maxLength)
  {
    hide Cheapest, Fits, DepthOf, Rival;
    DepthSame(freq, D.elems, leaves, maxCode, |lens|);
    if Possible(freq[..|lens|], D.maxLength) { DepthNeeded(freq, |lens|, D.maxLength); }
    if overflow == 0 { IsRival(freq, D.elems, leaves, maxCode, lens, D.maxLength); }
  }

  lemma IsRival(freq: seq<nat>, elems: nat, leaves: seq<nat>, maxCode: nat, lens: seq<nat>, m: nat)
    requires LeafList(freq, elems, leaves, maxCode) && |lens| == maxCode + 1 <= |freq| && Fits(lens, m)
    requires forall s :: 0 <= s < |lens| ==> (lens[s] > 0 <==> s in leaves)
    ensures Rival(freq[..|lens|], lens, m)
  {
    hide Fits;
  }

  /** No cheapest code has a shorter longest code. */
  ghost predicate Flattest(freq: seq<nat>, lens: seq<nat>) {
    forall m :: Possible(freq, m) ==> NoHigher(lens, m)
  }

  lemma IsFlattest(D: Desc, freq: seq<nat>, leaves: seq<nat>, maxCode: nat, lens: seq<nat>)
    requires LeafList(freq, D.elems, leaves, maxCode) && |leaves| >= 2 && |lens| == maxCode + 1 <= |freq|
    requires Indices(freq, leaves) && NoHigher(lens, DepthOf(freq, leaves))
    ensures Flattest(freq[..|lens|], lens)
  {
    hide DepthOf, Possible, LeafList;
    DepthSame(freq, D.elems, leaves, maxCode, |lens|);
    forall m | Possible(freq[..|lens|], m)
      ensures NoHigher(lens, m)
    {
      DepthNeeded(freq, |lens|, m);
    }
  }

  /** Symbols above max_code have no frequency. */
  lemma {:induction false} InUseUpTo(fc: seq<nat>, n: nat, elems: nat)
    requires n <= elems <= |fc| && forall s :: n <= s < elems ==> fc[s] == 0
    ensures InUse(fc, elems) == InUse(fc, n)
  {
    if n < elems { InUseUpTo(fc, n, elems - 1); }
  }

  // ---- a code of two symbols ----

  lemma {:induction false} KraftZero(ls: seq<nat>, m: nat)
    requires forall s :: 0 <= s < |ls| ==> ls[s] == 0
    ensures KraftSum(ls, m) == 0
  {
    if |ls| == 0 {
    } else {
      KraftZero(ls[..|ls| - 1], m);
    }
  }

  lemma {:induction false} KraftSet(ls: seq<nat>, s: nat, x: nat, m: nat)
    requires s < |ls| && ls[s] == 0
    ensures KraftSum(ls[s := x], m) == KraftSum(ls, m) + Weight(x, m)
  {
    var n := |ls| - 1;
    if s < n {
      KraftSet(ls[..n], s, x, m);
      assert ls[s := x][..n] == ls[..n][s := x];
    } else {
      assert ls[s := x][..n] == ls[..n];
    }
  }

  lemma HalfWeight(x: nat, m: nat)
    requires 1 <= x <= m
    ensures Weight(x, m) <= Pow2(m - 1) && (x > 1 ==> Weight(x, m) < Pow2(m - 1))
  {
    Pow2Mono(m - x, m - 1);
    if x > 1 {
      Pow2Mono(m - x, m - 2);
      assert Pow2(m - 1) == 2 * Pow2(m - 2);
    }
  }

  /** Two codes that fill the code space have one bit each. */
  lemma TwoCodes(lens: seq<nat>, m: nat, a: nat, b: nat)
    requires Complete(lens, m) && m >= 1 && a < |lens| && b < |lens| && a != b
    requires forall s :: 0 <= s < |lens| ==> (lens[s] > 0 <==> s == a || s == b)
    ensures lens[a] == 1 && lens[b] == 1
  {
    hide Used, Weight;
    var z: seq<nat> := StartLs(|lens|);
    assert lens == z[a := lens[a]][b := lens[b]];
    KraftZero(z, m);
    KraftSet(z, a, lens[a], m);
    KraftSet(z[a := lens[a]], b, lens[b], m);
    UsedIsKraft(lens, m);
    HalfWeight(lens[a], m);
    HalfWeight(lens[b], m);
    assert Pow2(m) == 2 * Pow2(m - 1);
  }

  // ---- build_tree ----

  /** The tree descriptors of the source. */
  ghost predicate DescGood(D: Desc) {
    && 1 <= D.maxLength <= MAX_BITS < D.elems <= 286 && D.elems <= D.base + |D.extra|
    && (D.stat == [] || D.elems <= |D.stat|)
    && D.elems <= Pow2(D.maxLength) && forall x :: 0 <= x < 3 ==> Extra(x, D.extra, D.base) == 0
  }

  /** Room for the tree, and frequencies whose sum fits in 16 bits. */
  ghost predicate FreqOk(D: Desc, fc: seq<nat>, dl: seq<nat>, depth: seq<nat>, heap: seq<nat>) {
    && 2 * D.elems <= |fc| == |dl| <= |depth| == |heap| == HEAP_SIZE && Sum(fc[..D.elems]) <= 65532
    && forall s :: 0 <= s < HEAP_SIZE ==> depth[s] < 256
  }

  /** What the tree is for: a complete code for every symbol with a frequency. */
  ghost predicate CodesFor(D: Desc, freq: seq<nat>, fc: seq<nat>, lens: seq<nat>) {
    && 1 <= |lens| <= D.elems <= |freq| && |lens| <= |fc| && Complete(lens, D.maxLength)
    && (forall s :: 0 <= s < D.elems && freq[s] != 0 ==> s < |lens| && lens[s] > 0)
    && (forall n :: 0 <= n < |lens| ==> HasCode(fc[n], lens, n))
  }

  /** The state before the merging loop. */
  method Prepare(D: Desc, fc0: seq<nat>, dl0: seq<nat>, depth0: seq<nat>, heap0: seq<nat>, opt0: int, stat0: int)
    returns (F: Forest, maxCode: nat, opt: int, stat: int, ghost leaves: seq<nat>, ghost forced: seq<nat>)
    requires DescGood(D) && FreqOk(D, fc0, dl0, depth0, heap0)
    ensures |leaves| >= 2 && (forced != [] ==> |leaves| == 2) && (forall x :: x in forced ==> x in leaves)
    ensures F.fc == ForceFc(fc0, forced) && ForceOk(fc0, forced) && LeafList(F.fc, D.elems, leaves, maxCode) &&
            maxCode < D.elems
    ensures Indices(F.fc, leaves) && F.len >= 2 &&
            LoopInv(F, D.elems, leaves, 0, F.fc, StartLs(|F.fc|), HuffCost(multiset(Ws(F.fc, leaves))),
                    Sum(Ws(F.fc, leaves)))
    ensures opt == opt0 - |forced| && stat == stat0 - ForcedStat(D.stat, forced)
    ensures Tall(F, DepthOf(F.fc, leaves))
  {
    hide Gathered, LeafList, ForceOk, ForceFc, ForcedStat, LoopInv, Ws, Sum, InUse, HuffCost, Ordered, Tall, DepthOf;
    var dl, depth, heap, len, mc := GatherLeaves(fc0, dl0, depth0, heap0, D.elems);
    GatheredList(fc0, dl, depth, heap, len, D.elems, mc);
    ghost var depth1 := depth;
    GatheredFacts(fc0, dl, depth, heap, len, D.elems);
    var fc;
    fc, depth, heap, len, mc, opt, stat, forced := ForceTwo(D, fc0, depth, heap, len, mc, opt0, stat0);
    leaves := heap[1..len + 1];
    ListFacts(fc, D.elems, leaves, mc);
    maxCode := mc;
    StartNodes(fc0, fc, dl, depth1, depth, heap, len, D.elems, mc, forced);
    heap := Heapify(heap, len, fc, depth);
    F := Forest(fc, dl, depth, heap, len, HEAP_SIZE, D.elems);
    StartWeight(D, fc0, fc, forced, leaves, mc);
    StartDl(fc0, fc, dl, forced, leaves, D.elems, mc);
    LeavesFew(leaves, D.elems);
    LoopStart(F, D.elems, leaves);
    StartTall(F, leaves);
  }

  lemma GatheredFacts(fc: seq<nat>, dl: seq<nat>, depth: seq<nat>, heap: seq<nat>, len: nat, n: nat)
    requires Gathered(fc, dl, depth, heap, len, n)
    ensures |fc| == |dl| <= |depth| == |heap| == HEAP_SIZE && forall s :: 0 <= s < HEAP_SIZE ==> depth[s] < 256
    ensures forall s :: 0 <= s < n && fc[s] == 0 ==> dl[s] == 0
    ensures forall s :: 0 <= s < n && fc[s] != 0 ==> depth[s] == 0
  {
  }

  lemma ListFacts(fc: seq<nat>, elems: nat, leaves: seq<nat>, maxCode: int)
    requires LeafList(fc, elems, leaves, maxCode) && |leaves| >= 2
    ensures 0 <= maxCode < elems && Leaves(leaves, elems) && Indices(fc, leaves)
    ensures forall s :: 0 <= s < elems ==> (s in leaves <==> fc[s] != 0)
    ensures forall s :: s in leaves ==> 0 <= s < elems
  {
  }

  lemma {:induction false} ForcedOnly(fc: seq<nat>, forced: seq<nat>, s: nat)
    requires ForceOk(fc, forced) && s < |fc|
    ensures s !in forced ==> ForceFc(fc, forced)[s] == fc[s]
    ensures s in forced ==> ForceFc(fc, forced)[s] == 1 && fc[s] == 0
  {
    if |forced| == 0 {
    } else {
      var p, x := forced[..|forced| - 1], forced[|forced| - 1];
      ForcedOnly(fc, p, s);
      assert s in forced <==> s in p || s == x;
    }
  }

  lemma StartNodes(fc0: seq<nat>, fc: seq<nat>, dl: seq<nat>, depth1: seq<nat>, depth: seq<nat>, heap: seq<nat>,
                   len: nat, elems: nat,
                   maxCode: int, forced: seq<nat>)
    requires |heap| == |depth| == |depth1| == HEAP_SIZE && len < HEAP_SIZE && elems <= |fc| == |fc0| <= HEAP_SIZE
    requires LeafList(fc, elems, heap[1..len + 1], maxCode) && ForceOk(fc0, forced) && fc == ForceFc(fc0, forced)
    requires forall s :: 0 <= s < HEAP_SIZE ==> depth1[s] < 256
    requires forall s :: 0 <= s < elems && fc0[s] != 0 ==> depth1[s] == 0
    requires forall s :: 0 <= s < HEAP_SIZE ==> depth[s] == depth1[s] || (s in forced && depth[s] == 0)
    requires forall s :: s in forced ==> 0 <= s < HEAP_SIZE && depth[s] == 0
    ensures Nodes(heap, len, fc, depth) && forall s :: s in heap[1..len + 1] ==> 0 <= s < HEAP_SIZE && depth[s] == 0
  {
    hide ForceOk, ForceFc;
    var l := heap[1..len + 1];
    forall i | 1 <= i <= len
      ensures heap[i] < |fc|
    {
      assert l[i - 1] == heap[i];
    }
    forall s | s in l
      ensures 0 <= s < HEAP_SIZE && depth[s] == 0
    {
      ForcedOnly(fc0, forced, s);
    }
  }

  lemma StartWeight(D: Desc, fc0: seq<nat>, fc: seq<nat>, forced: seq<nat>, leaves: seq<nat>, maxCode: int)
    requires DescGood(D) && D.elems <= |fc0| && ForceOk(fc0, forced) && fc == ForceFc(fc0, forced) &&
             Sum(fc0[..D.elems]) <= 65532
    requires LeafList(fc, D.elems, leaves, maxCode) && Indices(fc, leaves)
    ensures Sum(Ws(fc, leaves)) <= 65535
  {
    hide Sum, Ws, LeafList, ForceOk, ForceFc;
    UsesTotal(D, fc0, fc, forced, leaves, maxCode);
  }

  lemma StartDl(fc0: seq<nat>, fc: seq<nat>, dl: seq<nat>, forced: seq<nat>, leaves: seq<nat>, elems: nat, maxCode: int)
    requires elems <= |fc0| == |dl| && ForceOk(fc0, forced) && fc == ForceFc(fc0, forced) &&
             LeafList(fc, elems, leaves, maxCode)
    requires forall s :: 0 <= s < elems && fc0[s] == 0 ==> dl[s] == 0
    ensures forall s :: 0 <= s < elems ==> (s in leaves <==> fc[s] != 0) && (s !in leaves ==> dl[s] == 0)
  {
    hide ForceOk, ForceFc;
    forall s | 0 <= s < elems
      ensures (s in leaves <==> fc[s] != 0) && (s !in leaves ==> dl[s] == 0)
    {
      ForcedOnly(fc0, forced, s);
    }
  }

  /** The root, and so every subtree, is at most 22 deep: the 8-bit depths never wrap. */
  lemma TreeHeight(F: Forest, elems: nat, leaves: seq<nat>, t: nat, fc0: seq<nat>, hv: seq<nat>, cost: nat, total: nat,
                   x: nat)
    requires LoopInv(F, elems, leaves, t, fc0, hv, cost, total) && x in Live(F)
    ensures x < |F.depth| && F.depth[x] <= 22
  {
    hide Ids, Dads, Sums, Kept, HuffCost, MergeCost, Ordered;
    LiveWeight(F, x);
    assert DeepNode(F, hv, x);
    Shallow(F.depth[x], F.fc[x]);
  }

  /** What the lengths mean for the frequencies the caller gave. */
  lemma LengthsAdd(D: Desc, freq: seq<nat>, forced: seq<nat>, leaves: seq<nat>, lens: seq<nat>)
    requires DescGood(D) && ForceOk(freq, forced) && |lens| <= |freq| && Complete(lens, D.maxLength)
    requires (forced != [] ==> |leaves| == 2) && (forall x :: x in forced ==> x in leaves) && Leaves(leaves, |lens|)
    requires forall s :: 0 <= s < |lens| ==> (lens[s] > 0 <==> s in leaves)
    ensures Sum(OptTerms(ForceFc(freq, forced), lens, D.extra, D.base)) == Sum(OptTerms(freq, lens, D.extra,
        D.base)) + |forced|
    ensures Sum(StatTerms(ForceFc(freq, forced), lens, D.stat, D.extra, D.base))
            == Sum(StatTerms(freq, lens, D.stat, D.extra, D.base)) + ForcedStat(D.stat, forced)
  {
    hide ForceOk, ForceFc, ForcedStat, OptTerms, StatTerms, Sum, Complete;
    if forced != [] {
      var a, b := leaves[0], leaves[1];
      assert leaves == [a, b];
      TwoCodes(lens, D.maxLength, a, b);
    }
    forall i | 0 <= i < |forced|
      ensures forced[i] < |lens| && lens[forced[i]] == 1
    {
      assert forced[i] in leaves;
    }
    ForcedTerms(freq, forced, lens, D);
  }

  lemma LengthsMatch(D: Desc, E: seq<nat>, k: nat, fc: seq<nat>, freq: seq<nat>, forced: seq<nat>, leaves: seq<nat>,
                     maxCode: nat,
                     lens: seq<nat>, c: seq<nat>, overflow: nat)
    requires LengthsFor(D, E, k, fc, lens, c, overflow) && |lens| == maxCode + 1 && maxCode < D.elems <= |freq|
    requires forall s :: 0 <= s < |lens| ==> (Waits(E, 2 * k, s) <==> s in leaves)
    requires ForceOk(freq, forced) && LeafList(ForceFc(freq, forced), D.elems, leaves, maxCode)
    ensures forall s :: 0 <= s < |lens| ==> (lens[s] > 0 <==> s in leaves)
    ensures Leaves(leaves, |lens|) && forall s :: s in leaves ==> 0 <= s < |lens|
    ensures forall s :: 0 <= s < D.elems && freq[s] != 0 ==> s < |lens| && lens[s] > 0
  {
    hide Waits, ForceOk, ForceFc;
    forall i | 0 <= i < |leaves|
      ensures leaves[i] < |lens|
    {
      assert leaves[i] in leaves;
    }
    forall s | 0 <= s < D.elems && freq[s] != 0
      ensures s < |lens| && lens[s] > 0
    {
      ForcedOnly(freq, forced, s);
    }
  }

  lemma Optimal(D: Desc, E: seq<nat>, k: nat, fc: seq<nat>, freq: seq<nat>, leaves: seq<nat>, maxCode: nat,
                lens: seq<nat>, c: seq<nat>, overflow: nat, cost: nat)
    requires LengthsFor(D, E, k, fc, lens, c, overflow) && |lens| == maxCode + 1 &&
             maxCode < D.elems <= |freq| == |fc| && overflow == 0
    requires LeafList(freq, D.elems, leaves, maxCode) && Indices(freq, leaves) && |leaves| >= 2 &&
             cost == HuffCost(multiset(Ws(freq, leaves)))
    requires MergeCost(fc, D.elems, k) == cost && forall n :: 0 <= n < D.elems ==> fc[n] == freq[n]
    ensures Cheapest(freq[..|lens|], lens)
  {
    hide HuffCost, Ws, Cheapest, Dot, MergeCost;
    LeavesInUse(freq, D.elems, leaves, maxCode);
    InUseUpTo(freq, |lens|, D.elems);
    assert fc[..|lens|] == freq[..|lens|];
    assert |multiset(leaves)| == |leaves| && |multiset(InUse(freq, D.elems))| == |InUse(freq, D.elems)|;
    HuffIsCheapest(freq, |lens|, lens);
  }

  lemma Verdict(D: Desc, E: seq<nat>, k: nat, fc: seq<nat>, freq: seq<nat>, leaves: seq<nat>, maxCode: nat,
                lens: seq<nat>, c: seq<nat>, overflow: nat, cost: nat)
    requires LengthsFor(D, E, k, fc, lens, c, overflow) && |lens| == maxCode + 1 && maxCode < D.elems <= |freq| == |fc|
    requires LeafList(freq, D.elems, leaves, maxCode) && Indices(freq, leaves) && |leaves| >= 2 &&
             cost == HuffCost(multiset(Ws(freq, leaves)))
    requires MergeCost(fc, D.elems, k) == cost && forall n :: 0 <= n < D.elems ==> fc[n] == freq[n]
    requires forall s :: 0 <= s < |lens| ==> (lens[s] > 0 <==> s in leaves)
    requires DepthOf(freq, leaves) <= D.maxLength ==> overflow == 0
    requires overflow == 0 ==> NoHigher(lens, DepthOf(freq, leaves))
    ensures overflow == 0 ==> Cheapest(freq[..|lens|], lens) && Flattest(freq[..|lens|], lens)
    ensures overflow == 0 <==> Possible(freq[..|lens|], D.maxLength)
  {
    hide HuffCost, Ws, Cheapest, Dot, MergeCost, DepthOf, NoHigher, Flattest, Possible, LeafList, Waits, Used, CountsOf;
    if overflow == 0 {
      Optimal(D, E, k, fc, freq, leaves, maxCode, lens, c, 0, cost);
      IsFlattest(D, freq, leaves, maxCode, lens);
    }
    ClampedIff(D, freq, leaves, maxCode, lens, overflow);
  }

  // ---- rarer symbols have no shorter codes ----

  ghost predicate NoShorter(freq: seq<nat>, lens: seq<nat>)
    requires |lens| <= |freq|
  {
    forall s, t :: 0 <= s < |lens| && 0 <= t < |lens| && lens[s] > 0 && lens[t] > 0 && freq[s] < freq[t] ==>
                     lens[s] >= lens[t]
  }

  lemma {:induction false} SwapUsed(ls: seq<nat>, s: nat, t: nat, l: nat)
    requires s < |ls| && t < |ls|
    ensures Used(Swap(ls, s, t), l) == Used(ls, l)
  {
    if l == 0 {
    } else {
      SwapUsed(ls, s, t, l - 1);
      CountUpdate(ls, s, ls[t], l);
      CountUpdate(ls[s := ls[t]], t, ls[s], l);
    }
  }

  /** Otherwise exchanging two lengths would be cheaper. */
  lemma CheapestOrder(freq: seq<nat>, lens: seq<nat>, m: nat)
    requires |freq| == |lens| && Cheapest(freq, lens) && Complete(lens, m)
    requires forall s :: 0 <= s < |freq| && freq[s] != 0 ==> lens[s] >= 1
    ensures NoShorter(freq, lens)
  {
    hide Dot, Used;
    forall s, t | 0 <= s < |lens| && 0 <= t < |lens| && lens[s] > 0 && lens[t] > 0 && freq[s] < freq[t]
      ensures lens[s] >= lens[t]
    {
      if lens[s] < lens[t] {
        var other := Swap(lens, s, t);
        SwapUsed(lens, s, t, m);
        assert Fits(other, m);
        SwapStrict(freq, lens, s, t);
      }
    }
  }

  /** After a repair the lengths follow the order in which the nodes were taken out. */
  lemma FallingOrder(E: seq<nat>, elems: nat, fc: seq<nat>, lens: seq<nat>, k: nat)
    requires |E| == 2 * k && ByWeight(E, fc) && Falling(E, elems, |E|, lens, 0) && |lens| <= elems <= |fc|
    requires forall s :: 0 <= s < |lens| ==> (lens[s] > 0 <==> Waits(E, 2 * k, s))
    ensures NoShorter(fc, lens)
  {
    forall s, t | 0 <= s < |lens| && 0 <= t < |lens| && lens[s] > 0 && lens[t] > 0 && fc[s] < fc[t]
      ensures lens[s] >= lens[t]
    {
      var u :| 0 <= u < 2 * k && u < |E| && E[u] == s;
      var v :| 0 <= v < 2 * k && v < |E| && E[v] == t;
      assert u <= v;
    }
  }

  lemma CompleteFits(lens: seq<nat>, m: nat)
    requires Complete(lens, m) && m <= MAX_BITS
    ensures Fits(lens, MAX_BITS)
  {
    FitsUp(lens, m, MAX_BITS);
  }

  /** build_tree: lengths and codes for the frequencies fc0, and the change of the block lengths. */
  method BuildTree(D: Desc, fc0: seq<nat>, dl0: seq<nat>, depth0: seq<nat>, heap0: seq<nat>, opt0: int, stat0: int)
    returns (fc: seq<nat>, dl: seq<nat>, depth: seq<nat>, heap: seq<nat>, maxCode: nat, opt: int, stat: int,
             overflow: nat, ghost forced: seq<nat>)
    requires DescGood(D) && FreqOk(D, fc0, dl0, depth0, heap0)
    ensures |fc| == |dl| == |fc0| && |depth| == |heap| == HEAP_SIZE &&
            (forall s :: 0 <= s < HEAP_SIZE ==> depth[s] < 256)
    ensures maxCode < D.elems && CodesFor(D, fc0, fc, dl[..maxCode + 1]) &&
            forall s :: maxCode < s < D.elems ==> dl[s] == 0
    ensures opt == opt0 + Sum(OptTerms(fc0, dl[..maxCode + 1], D.extra, D.base))
    ensures stat == stat0 + Sum(StatTerms(fc0, dl[..maxCode + 1], D.stat, D.extra, D.base))
    ensures overflow == 0 ==> Cheapest(ForceFc(fc0, forced)[..maxCode + 1], dl[..maxCode + 1])
    ensures overflow == 0 ==> Flattest(ForceFc(fc0, forced)[..maxCode + 1], dl[..maxCode + 1])
    ensures overflow == 0 <==> Possible(ForceFc(fc0, forced)[..maxCode + 1], D.maxLength)
    ensures Sum(fc0[..D.elems]) + 3 < MinWeight(D.maxLength + 1) ==> overflow == 0
    ensures NoShorter(fc0, dl[..maxCode + 1])
  {
    hide LoopInv, LeafList, ForceOk, ForceFc, ForcedStat, OptTerms, StatTerms, Sum, Ws, HuffCost, Waits, Cheapest,
         Used, Count, HasCode,
         PassIn, Fathers, MergeCost, Dot, MinWeight, Heights, Tall, DepthOf, Possible, Flattest, NoHigher,
         Falling, ByWeight, NoShorter, Extra, LengthsFor, Complete, Fits;
    var F0, F, c;
    ghost var leaves, hv;
    F0, maxCode, opt, stat, leaves, forced := Prepare(D, fc0, dl0, depth0, heap0, opt0, stat0);
    ghost var freq, size, k := F0.fc, maxCode + 1, |leaves| - 1;
    ghost var cost := HuffCost(multiset(Ws(freq, leaves)));
    F, hv := MergeAll(F0, D.elems, leaves, freq, StartLs(|freq|), cost, Sum(Ws(freq, leaves)),
                      DepthOf(freq, leaves));
    TallRoot(F, DepthOf(freq, leaves));
    LeafSizes(freq, D.elems, leaves, maxCode);
    LoopDone(D, F, leaves, freq, hv, cost, Sum(Ws(freq, leaves)), size);
    LoopKept(F, D.elems, leaves, k, freq, hv, cost, Sum(Ws(freq, leaves)));
    heap := F.heap[F.top - 1 := F.heap[1]];
    depth := F.depth;
    dl, c, opt, stat, overflow := GenLengths(D, heap, F.top, F.fc, F.dl, maxCode, opt, stat, TakenOut(F, k), k,
                                             F.depth);
    ghost var lens := dl[..size];
    RootLow(F, D, leaves, freq, hv, cost, Sum(Ws(freq, leaves)));
    UsesTotal(D, fc0, freq, forced, leaves, maxCode);
    LensDone(D, TakenOut(F, k), k, F.fc, fc0, freq, forced, leaves, maxCode, lens, c, overflow, cost);
    fc := GenCodes(F.fc, dl[..maxCode + 1], c);
  }

  /** What is known of the lengths, put together. */
  lemma LensDone(D: Desc, E: seq<nat>, k: nat, fc: seq<nat>, fc0: seq<nat>, freq: seq<nat>, forced: seq<nat>,
                 leaves: seq<nat>, maxCode: nat, lens: seq<nat>, c: seq<nat>, overflow: nat, cost: nat)
    requires LengthsFor(D, E, k, fc, lens, c, overflow) && |lens| == maxCode + 1 &&
             maxCode < D.elems <= |freq| == |fc| == |fc0|
    requires |E| == 2 * k && ByWeight(E, fc) && (overflow > 0 ==> Falling(E, D.elems, |E|, lens, 0))
    requires (forall n :: 0 <= n < D.elems ==> fc[n] == freq[n]) && ForceOk(fc0, forced) && freq == ForceFc(fc0, forced)
    requires |leaves| >= 2 && (forced != [] ==> |leaves| == 2) && (forall x :: x in forced ==> x in leaves)
    requires LeafList(freq, D.elems, leaves, maxCode) && DescGood(D) && Indices(freq, leaves)
    requires forall s :: 0 <= s < |lens| ==> (Waits(E, 2 * k, s) <==> s in leaves)
    requires cost == HuffCost(multiset(Ws(freq, leaves))) && MergeCost(fc, D.elems, k) == cost
    requires DepthOf(freq, leaves) <= D.maxLength ==> overflow == 0
    requires overflow == 0 ==> NoHigher(lens, DepthOf(freq, leaves))
    ensures Complete(lens, D.maxLength) && Fits(lens, MAX_BITS) && CountsOf(c, lens)
    ensures forall s :: 0 <= s < D.elems && fc0[s] != 0 ==> s < |lens| && lens[s] > 0
    ensures Sum(OptTerms(fc, lens, D.extra, D.base)) == Sum(OptTerms(fc0, lens, D.extra, D.base)) + |forced|
    ensures Sum(StatTerms(fc, lens, D.stat, D.extra, D.base))
            == Sum(StatTerms(fc0, lens, D.stat, D.extra, D.base)) + ForcedStat(D.stat, forced)
    ensures overflow == 0 ==> Cheapest(freq[..|lens|], lens) && Flattest(freq[..|lens|], lens)
    ensures overflow == 0 <==> Possible(freq[..|lens|], D.maxLength)
    ensures NoShorter(fc0, lens)
  {
    hide LeafList, ForceOk, ForceFc, ForcedStat, OptTerms, StatTerms, Sum, Ws, HuffCost, Waits, Cheapest, Used,
         MergeCost,
         Dot, DepthOf, Possible, Flattest, NoHigher, Falling, ByWeight, NoShorter, CountsOf, Extra;
    LengthsMatch(D, E, k, fc, fc0, forced, leaves, maxCode, lens, c, overflow);
    LengthsAdd(D, fc0, forced, leaves, lens);
    SameTerms(fc, freq, lens, D);
    Verdict(D, E, k, fc, freq, leaves, maxCode, lens, c, overflow, cost);
    OrderedLengths(D, E, k, fc, fc0, freq, forced, leaves, maxCode, lens, c, overflow);
    CompleteFits(lens, D.maxLength);
  }

  /** In terms of the frequencies the caller gave: those that were forced are the only ones that differ. */
  lemma OrderedLengths(D: Desc, E: seq<nat>, k: nat, fc: seq<nat>, fc0: seq<nat>, freq: seq<nat>, forced: seq<nat>,
                       leaves: seq<nat>, maxCode: nat, lens: seq<nat>, c: seq<nat>, overflow: nat)
    requires LengthsFor(D, E, k, fc, lens, c, overflow) && |lens| == maxCode + 1 && maxCode < D.elems <= |freq| == |fc|
    requires |E| == 2 * k && ByWeight(E, fc) && (overflow > 0 ==> Falling(E, D.elems, |E|, lens, 0))
    requires overflow == 0 ==> Cheapest(freq[..|lens|], lens)
    requires (forall n :: 0 <= n < D.elems ==> fc[n] == freq[n]) && ForceOk(fc0, forced) && freq == ForceFc(fc0, forced)
    requires |leaves| >= 2 && (forced != [] ==> |leaves| == 2) && (forall x :: x in forced ==> x in leaves)
    requires LeafList(freq, D.elems, leaves, maxCode) && DescGood(D) && Leaves(leaves, |lens|)
    requires forall s :: 0 <= s < |lens| ==> (lens[s] > 0 <==> s in leaves)
    ensures |lens| <= |fc0| && NoShorter(fc0, lens)
  {
    hide ForceOk, ForceFc, Waits, Cheapest, Falling, ByWeight, Dot, MergeCost, CountsOf;
    if forced != [] {
      var a, b := leaves[0], leaves[1];
      assert leaves == [a, b];
      TwoCodes(lens, D.maxLength, a, b);
    } else {
      NothingForced(fc0);
      if overflow == 0 {
        InUseHave(freq, D.elems, leaves, maxCode, lens);
        CheapestOrder(freq[..|lens|], lens, D.maxLength);
      } else {
        FallingOrder(E, D.elems, fc, lens, k);
      }
    }
  }

  lemma NothingForced(fc: seq<nat>)
    ensures ForceFc(fc, []) == fc
  {
  }

  lemma InUseHave(freq: seq<nat>, elems: nat, leaves: seq<nat>, maxCode: nat, lens: seq<nat>)
    requires LeafList(freq, elems, leaves, maxCode) && |lens| <= elems <= |freq|
    requires forall s :: 0 <= s < |lens| ==> (lens[s] > 0 <==> s in leaves)
    ensures forall s :: 0 <= s < |lens| && freq[..|lens|][s] != 0 ==> lens[s] >= 1
  {
  }

  /** A tree that weighs little is no higher than the lengths may be. */
  lemma RootLow(F: Forest, D: Desc, leaves: seq<nat>, fc0: seq<nat>, hv: seq<nat>, cost: nat, total: nat)
    requires |leaves| >= 2 && LoopInv(F, D.elems, leaves, |leaves| - 1, fc0, hv, cost, total) && F.len == 1
    requires F.heap[1] == D.elems + |leaves| - 2
    ensures F.heap[1] < |F.depth| && (total < MinWeight(D.maxLength + 1) ==> F.depth[F.heap[1]] <= D.maxLength)
  {
    hide Ids, Dads, Sums, Kept, HuffCost, MergeCost, Ordered, MinWeight;
    var x := F.heap[1];
    RootThere(F);
    assert Live(F)[0] == x;
    LiveWeight(F, x);
    assert DeepNode(F, hv, x);
    if F.depth[x] > D.maxLength { MinWeightMono(D.maxLength + 1, F.depth[x]); }
  }

  lemma UsesTotal(D: Desc, fc0: seq<nat>, fc: seq<nat>, forced: seq<nat>, leaves: seq<nat>, maxCode: int)
    requires DescGood(D) && D.elems <= |fc0| && ForceOk(fc0, forced) && fc == ForceFc(fc0, forced)
    requires LeafList(fc, D.elems, leaves, maxCode) && Indices(fc, leaves)
    ensures Sum(Ws(fc, leaves)) <= Sum(fc0[..D.elems]) + 3
  {
    hide Sum, Ws, InUse, LeafList, ForceOk, ForceFc;
    LeavesInUse(fc, D.elems, leaves, maxCode);
    InUseSum(fc, D.elems);
    ForcedSum(fc0, forced, D.elems);
    ForcedAtMost(fc0, forced);
  }

  lemma LeafSizes(fc: seq<nat>, elems: nat, leaves: seq<nat>, maxCode: nat)
    requires LeafList(fc, elems, leaves, maxCode)
    ensures forall s :: s in leaves ==> 0 <= s < maxCode + 1
  {
  }

  lemma LoopKept(F: Forest, elems: nat, leaves: seq<nat>, t: nat, fc0: seq<nat>, hv: seq<nat>, cost: nat, total: nat)
    requires LoopInv(F, elems, leaves, t, fc0, hv, cost, total)
    ensures elems <= |F.fc| == |fc0| && (forall n :: 0 <= n < elems ==> F.fc[n] == fc0[n])
    ensures |F.dl| == |F.fc| && forall n :: 0 <= n < elems && n !in leaves ==> F.dl[n] == 0
    ensures forall s :: 0 <= s < HEAP_SIZE ==> s < |F.depth| && F.depth[s] < 256
  {
  }

  lemma SameTerms(fc: seq<nat>, freq: seq<nat>, lens: seq<nat>, D: Desc)
    requires |lens| <= |fc| && |lens| <= |freq| && forall s :: 0 <= s < |lens| ==> fc[s] == freq[s]
    ensures OptTerms(fc, lens, D.extra, D.base) == OptTerms(freq, lens, D.extra, D.base)
    ensures StatTerms(fc, lens, D.stat, D.extra, D.base) == StatTerms(freq, lens, D.stat, D.extra, D.base)
  {
  }
}
