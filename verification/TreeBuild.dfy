/** build_tree (trees.c:609-688). */
module TreeBuild {
  import opened Heap
  import opened Huffman
  import opened HuffmanTree
  import opened HuffmanLoop
  import opened BitLengths
  import opened PathCost
  import opened GenBitLen
  import opened Totals

  // ---- the symbols in use ----

  /** The symbols below `n` with a frequency, in ascending order. */
  function InUse(fc: seq<nat>, n: nat): (r: seq<nat>)
    requires n <= |fc|
    ensures |r| <= n && forall i :: 0 <= i < |r| ==> r[i] < n
  {
    if n == 0 then [] else if fc[n - 1] != 0 then InUse(fc, n - 1) + [n - 1] else InUse(fc, n - 1)
  }

  lemma {:induction false} InUseIs(fc: seq<nat>, n: nat)
    requires n <= |fc|
    ensures Leaves(InUse(fc, n), n)
    ensures forall s :: 0 <= s < n ==> (s in InUse(fc, n) <==> fc[s] != 0)
    ensures forall s :: s in InUse(fc, n) ==> 0 <= s < n
  {
    if n == 0 {
    } else {
      InUseIs(fc, n - 1);
    }
  }

  /** The heap holds the leaves `leaves` in heap[1..], and the union dl is zero at all other symbols. */
  ghost predicate Gathered(fc: seq<nat>, dl: seq<nat>, depth: seq<nat>, heap: seq<nat>, len: nat, n: nat) {
    && n <= |fc| == |dl| <= |depth| == |heap| == HEAP_SIZE && len < HEAP_SIZE
    && heap[1..len + 1] == InUse(fc, n)
    && (forall s :: 0 <= s < n && fc[s] == 0 ==> dl[s] == 0)
    && (forall s :: 0 <= s < n && fc[s] != 0 ==> depth[s] == 0)
    && (forall s :: 0 <= s < HEAP_SIZE ==> depth[s] < 256)
  }

  /** trees.c:625-632 */
  method GatherLeaves(fc: seq<nat>, dl0: seq<nat>, depth0: seq<nat>, heap0: seq<nat>, elems: nat)
    returns (dl: seq<nat>, depth: seq<nat>, heap: seq<nat>, len: nat, maxCode: int)
    requires elems <= |fc| == |dl0| <= |depth0| == |heap0| == HEAP_SIZE && elems <= 286
    requires forall s :: 0 <= s < HEAP_SIZE ==> depth0[s] < 256
    ensures Gathered(fc, dl, depth, heap, len, elems) && len <= elems
    ensures if len == 0 then maxCode == -1 else maxCode >= 0 && maxCode == heap[len]
  {
    dl, depth, heap, len, maxCode := dl0, depth0, heap0, 0, -1;
    var n := 0;
    while n < elems
      invariant 0 <= n <= elems && 0 <= len <= n
      invariant Gathered(fc, dl, depth, heap, len, n)
      invariant if len == 0 then maxCode == -1 else maxCode >= 0 && maxCode == heap[len]
    {
      if fc[n] != 0 {
        len := len + 1;
        heap := heap[len := n];
        maxCode := n;
        depth := depth[n := 0];
        assert heap[1..len + 1] == heap[1..len] + [n];
      } else {
        dl := dl[n := 0];
      }
      n := n + 1;
    }
  }

  lemma {:induction false} InUseLast(fc: seq<nat>, n: nat)
    requires n <= |fc| && |InUse(fc, n)| > 0
    ensures forall s :: 0 <= s < n && fc[s] != 0 ==> s <= InUse(fc, n)[|InUse(fc, n)| - 1]
  {
    if n > 0 && fc[n - 1] == 0 { InUseLast(fc, n - 1); }
  }

  // ---- at least two codes ----

  /** `leaves` are exactly the symbols with a frequency, and max_code is the last one. */
  ghost predicate LeafList(fc: seq<nat>, elems: nat, leaves: seq<nat>, maxCode: int) {
    && elems <= |fc| && Leaves(leaves, elems)
    && (forall s :: 0 <= s < elems ==> (s in leaves <==> fc[s] != 0))
    && (forall s :: 0 <= s < elems && fc[s] != 0 ==> s <= maxCode)
    && -1 <= maxCode < elems && (|leaves| > 0 ==> maxCode >= 0 && fc[maxCode] != 0) && (|leaves| == 0 ==> maxCode == -1)
  }

  lemma GatheredList(fc: seq<nat>, dl: seq<nat>, depth: seq<nat>, heap: seq<nat>, len: nat, elems: nat, maxCode: int)
    requires Gathered(fc, dl, depth, heap, len, elems)
    requires if len == 0 then maxCode == -1 else maxCode >= 0 && maxCode == heap[len]
    ensures LeafList(fc, elems, heap[1..len + 1], maxCode)
  {
    var l := heap[1..len + 1];
    InUseIs(fc, elems);
    if len > 0 {
      InUseLast(fc, elems);
      assert l[len - 1] == heap[len];
      assert heap[len] in l;
    } else {
      forall s | 0 <= s < elems ensures fc[s] == 0 { assert s !in l; }
    }
  }

  /** The symbol forced into the code. */
  function Forced(maxCode: int): nat {
    if -1 <= maxCode < 2 then maxCode + 1 else 0
  }

  lemma ForcedFresh(fc: seq<nat>, elems: nat, leaves: seq<nat>, maxCode: int)
    requires LeafList(fc, elems, leaves, maxCode) && |leaves| < 2 && elems >= 3
    ensures Forced(maxCode) < elems && Forced(maxCode) !in leaves && fc[Forced(maxCode)] == 0
    ensures LeafList(fc[Forced(maxCode) := 1], elems, leaves + [Forced(maxCode)],
                     if maxCode < 2 then maxCode + 1 else maxCode)
  {
    var x := Forced(maxCode);
    if maxCode >= 2 {
      assert |leaves| == 1 && maxCode in leaves;
      assert leaves == [maxCode];
    }
    assert x !in leaves;
    var l := leaves + [x];
    forall s | 0 <= s < elems
      ensures s in l <==> fc[x := 1][s] != 0
    {
      assert s in l <==> s in leaves || s == x;
    }
  }

  /** The frequencies with 1 for every forced symbol. */
  ghost function ForceFc(fc: seq<nat>, forced: seq<nat>): (r: seq<nat>)
    ensures |r| == |fc|
  {
    if |forced| == 0 then fc
    else
      var r, x := ForceFc(fc, forced[..|forced| - 1]), forced[|forced| - 1];
      if x < |r| then r[x := 1] else r
  }

  /** Forced symbols are among the first three and had no frequency. */
  ghost predicate ForceOk(fc: seq<nat>, forced: seq<nat>) {
    |forced| == 0 || (var p, x := forced[..|forced| - 1], forced[|forced| - 1];
                      ForceOk(fc, p) && x < 3 && x < |fc| && ForceFc(fc, p)[x] == 0)
  }

  /** Lengths of the static codes of the forced symbols. */
  ghost function ForcedStat(sl: seq<nat>, forced: seq<nat>): nat {
    if |forced| == 0 then 0
    else ForcedStat(sl, forced[..|forced| - 1]) + (if forced[|forced| - 1] < |sl| then sl[forced[|forced| - 1]] else 0)
  }

  lemma ForceNext(fc: seq<nat>, forced: seq<nat>, sl: seq<nat>, x: nat)
    requires ForceOk(fc, forced) && x < 3 && x < |fc| && ForceFc(fc, forced)[x] == 0
    ensures ForceOk(fc, forced + [x]) && ForceFc(fc, forced + [x]) == ForceFc(fc, forced)[x := 1]
    ensures ForcedStat(sl, forced + [x]) == ForcedStat(sl, forced) + if x < |sl| then sl[x] else 0
  {
    assert (forced + [x])[..|forced|] == forced;
  }

  lemma FreqTerm(fc: seq<nat>, ls: seq<nat>, D: Desc, x: nat)
    requires |ls| <= |fc| && x < |ls| && ls[x] == 1 && fc[x] == 0 && Extra(x, D.extra, D.base) == 0
    ensures Sum(OptTerms(fc[x := 1], ls, D.extra, D.base)) == Sum(OptTerms(fc, ls, D.extra, D.base)) + 1
    ensures Sum(StatTerms(fc[x := 1], ls, D.stat, D.extra, D.base))
            == Sum(StatTerms(fc, ls, D.stat, D.extra, D.base)) + if x < |D.stat| then D.stat[x] else 0
  {
    var c, d := Charge(1, 1, 0), if x < |D.stat| then Charge(1, D.stat[x], 0) else 0;
    assert OptTerms(fc[x := 1], ls, D.extra, D.base) == OptTerms(fc, ls, D.extra, D.base)[x := c];
    assert StatTerms(fc[x := 1], ls, D.stat, D.extra, D.base) == StatTerms(fc, ls, D.stat, D.extra, D.base)[x := d];
    SumUpdate(OptTerms(fc, ls, D.extra, D.base), x, c);
    SumUpdate(StatTerms(fc, ls, D.stat, D.extra, D.base), x, d);
  }

  /** What build_tree takes off the block lengths is what gen_bitlen adds for the forced symbols. */
  lemma {:induction false} ForcedTerms(fc: seq<nat>, forced: seq<nat>, ls: seq<nat>, D: Desc)
    requires ForceOk(fc, forced) && |ls| <= |fc| &&
             forall i :: 0 <= i < |forced| ==> forced[i] < |ls| && ls[forced[i]] == 1
    requires forall x :: 0 <= x < 3 ==> Extra(x, D.extra, D.base) == 0
    ensures Sum(OptTerms(ForceFc(fc, forced), ls, D.extra, D.base)) == Sum(OptTerms(fc, ls, D.extra, D.base)) + |forced|
    ensures Sum(StatTerms(ForceFc(fc, forced), ls, D.stat, D.extra, D.base))
            == Sum(StatTerms(fc, ls, D.stat, D.extra, D.base)) + ForcedStat(D.stat, forced)
  {
    hide OptTerms, StatTerms, Sum, Extra;
    if |forced| == 0 {
    } else {
      var p, x := forced[..|forced| - 1], forced[|forced| - 1];
      ForcedTerms(fc, p, ls, D);
      FreqTerm(ForceFc(fc, p), ls, D, x);
    }
  }

  /** trees.c:639-646 */
  method ForceTwo(D: Desc, fc0: seq<nat>, depth0: seq<nat>, heap0: seq<nat>, len0: nat, max0: int, opt0: int,
                  stat0: int)
    returns (fc: seq<nat>, depth: seq<nat>, heap: seq<nat>, len: nat, maxCode: int, opt: int, stat: int,
             ghost forced: seq<nat>)
    requires |heap0| == |depth0| == HEAP_SIZE && len0 <= 286 && 3 <= D.elems <= |fc0| <= HEAP_SIZE
    requires LeafList(fc0, D.elems, heap0[1..len0 + 1], max0) && (D.stat == [] || D.elems <= |D.stat|)
    ensures |fc| == |fc0| && |heap| == |depth| == HEAP_SIZE && 2 <= len <= MaxOf(len0, 2)
    ensures LeafList(fc, D.elems, heap[1..len + 1], maxCode)
    ensures ForceOk(fc0, forced) && fc == ForceFc(fc0, forced) && (forced != [] ==> len == 2)
    ensures forall x :: x in forced ==> x in heap[1..len + 1]
    ensures opt == opt0 - |forced| && stat == stat0 - ForcedStat(D.stat, forced)
    ensures forall s :: 0 <= s < HEAP_SIZE ==> depth[s] == depth0[s] || (s in forced && depth[s] == 0)
    ensures forall s :: s in forced ==> 0 <= s < HEAP_SIZE && depth[s] == 0
  {
    hide LeafList, ForceOk, ForceFc, ForcedStat;
    fc, depth, heap, len, maxCode, opt, stat := fc0, depth0, heap0, len0, max0, opt0, stat0;
    forced := [];
    NoForce(fc0, D.stat);
    while len < 2
      invariant 0 <= len <= MaxOf(len0, 2) && |fc| == |fc0| && |heap| == |depth| == HEAP_SIZE
      invariant LeafList(fc, D.elems, heap[1..len + 1], maxCode)
      invariant ForceOk(fc0, forced) && fc == ForceFc(fc0, forced) && (forced != [] ==> len <= 2)
      invariant forall x :: x in forced ==> x in heap[1..len + 1]
      invariant opt == opt0 - |forced| && stat == stat0 - ForcedStat(D.stat, forced)
      invariant forall s :: 0 <= s < HEAP_SIZE ==> depth[s] == depth0[s] || (s in forced && depth[s] == 0)
      invariant forall s :: s in forced ==> 0 <= s < HEAP_SIZE && depth[s] == 0
    {
      ghost var l := heap[1..len + 1];
      ForcedFresh(fc, D.elems, l, maxCode);
      ListBounds(fc, D.elems, l, maxCode);
      ghost var was := maxCode;
      var x: nat := 0;
      if maxCode < 2 {
        maxCode := maxCode + 1;
        x := maxCode;
      }
      assert x == Forced(was);
      ForceNext(fc0, forced, D.stat, x);
      len := len + 1;
      heap := heap[len := x];
      assert heap[1..len + 1] == l + [x];
      fc := fc[x := 1];
      depth := depth[x := 0];
      opt := opt - 1;
      if D.stat != [] { stat := stat - D.stat[x]; }
      forced := forced + [x];
    }
  }

  lemma NoForce(fc: seq<nat>, sl: seq<nat>)
    ensures ForceOk(fc, []) && ForceFc(fc, []) == fc && ForcedStat(sl, []) == 0
  {
  }

  lemma ListBounds(fc: seq<nat>, elems: nat, leaves: seq<nat>, maxCode: int)
    requires LeafList(fc, elems, leaves, maxCode)
    ensures -1 <= maxCode < elems <= |fc|
  {
  }

  // ---- the first heap ----

  /** trees.c:651 */
  method Heapify(heap0: seq<nat>, len: nat, fc: seq<nat>, depth: seq<nat>) returns (heap: seq<nat>)
    requires Nodes(heap0, len, fc, depth)
    ensures |heap| == |heap0| && Nodes(heap, len, fc, depth) && Ordered(heap, len, fc, depth, 1, 0)
    ensures multiset(Active(heap, len)) == multiset(Active(heap0, len))
  {
    hide Active, KeyAt;
    heap := heap0;
    var n := len / 2;
    while n >= 1
      invariant 0 <= n <= len / 2 && |heap| == |heap0| && Nodes(heap, len, fc, depth)
      invariant Ordered(heap, len, fc, depth, n + 1, 0)
      invariant multiset(Active(heap, len)) == multiset(Active(heap0, len))
    {
      heap := PqDownHeap(heap, len, fc, depth, n);
      n := n - 1;
    }
  }

  lemma LoopStart(F: Forest, elems: nat, leaves: seq<nat>)
    requires Shaped(F) && Ordered(F.heap, F.len, F.fc, F.depth, 1, 0) && multiset(Live(F)) == multiset(leaves) &&
             Leaves(leaves, elems)
    requires F.top == HEAP_SIZE && F.node == elems && F.len == |leaves| >= 1 && elems <= 286 &&
             elems + |leaves| <= |F.fc|
    requires forall s :: 0 <= s < elems ==> (s in leaves <==> F.fc[s] != 0) && (s !in leaves ==> F.dl[s] == 0)
    requires forall s :: s in leaves ==> F.depth[s] == 0
    requires Indices(F.fc, leaves) && Sum(Ws(F.fc, leaves)) <= 65535
    ensures |leaves| <= elems ==>
            LoopInv(F, elems, leaves, 0, F.fc, StartLs(|F.fc|), HuffCost(multiset(Ws(F.fc, leaves))),
                    Sum(Ws(F.fc, leaves)))
  {
    hide Active, Nodes, Ordered, HuffCost, Sum, Ws;
    assert F.heap[F.top..] == [] && Range(elems, 0) == [];
    LiveIndices(F);
    PermWs(F.fc, Live(F), leaves);
    StartDeep(F, leaves, elems);
  }

  lemma StartDeep(F: Forest, leaves: seq<nat>, elems: nat)
    requires Shaped(F) && multiset(Live(F)) == multiset(leaves) && elems <= |F.fc| && Leaves(leaves, elems)
    requires forall s :: 0 <= s < elems ==> (s in leaves <==> F.fc[s] != 0)
    requires forall s :: s in leaves ==> F.depth[s] == 0
    ensures Deep(F, StartLs(|F.fc|))
  {
    hide Active, Nodes;
    SameMembers(Live(F));
    SameMembers(leaves);
    forall x | x in Live(F)
      ensures DeepNode(F, StartLs(|F.fc|), x)
    {
      assert x in leaves;
    }
  }

  lemma {:induction false} LeavesFew(leaves: seq<nat>, elems: nat)
    requires Leaves(leaves, elems)
    ensures |leaves| <= elems
    decreases elems
  {
    if |leaves| == 0 {
    } else {
      assert leaves[0] < elems;
      if elems - 1 in leaves {
        var i :| 0 <= i < |leaves| && leaves[i] == elems - 1;
        LeavesFew(Del(leaves, i), elems - 1);
      } else {
        forall i | 0 <= i < |leaves| ensures leaves[i] < elems - 1 { assert leaves[i] in leaves; }
        LeavesFew(leaves, elems - 1);
      }
    }
  }

  // ---- the finished tree ----

  ghost function TakenOut(F: Forest, k: nat): (E: seq<nat>)
    requires |F.heap| == HEAP_SIZE && 2 * k < HEAP_SIZE
    ensures |E| == 2 * k && forall u :: 0 <= u < 2 * k ==> E[u] == Em(F, u)
  {
    seq(2 * k, u requires 0 <= u < 2 * k => Em(F, u))
  }

  /** Where an id is when only the root is live. */
  lemma WhereIs(F: Forest, elems: nat, leaves: seq<nat>, k: nat, x: nat)
    requires Shaped(F) && Ids(F, elems, leaves, k) && F.len == 1 && F.top == HEAP_SIZE - 2 * k && 2 * k < HEAP_SIZE
    requires x in leaves || elems <= x < elems + k
    ensures x == F.heap[1] || Waits(TakenOut(F, k), 2 * k, x)
  {
    SameMembers(leaves);
    SameMembers(Range(elems, k));
    SameMembers(F.heap[F.top..]);
    if x !in leaves { assert Range(elems, k)[x - elems] == x; }
    assert x in multiset(leaves) + multiset(Range(elems, k));
    assert Live(F) == [F.heap[1]];
    if x != F.heap[1] {
      assert x in multiset(F.heap[F.top..]);
      var i :| 0 <= i < 2 * k && F.heap[F.top..][i] == x;
      assert TakenOut(F, k)[2 * k - 1 - i] == x;
    }
  }

  lemma {:induction false} OnceApart(s: seq<nat>, i: nat, j: nat)
    requires i < j < |s| && multiset(s)[s[i]] <= 1
    ensures s[i] != s[j]
  {
    assert s == (s[..i] + [s[i]] + s[i + 1..j]) + ([s[j]] + s[j + 1..]);
    assert multiset(s) == (multiset(s[..i]) + multiset{s[i]} + multiset(s[i + 1..j]))
                          + (multiset{s[j]} + multiset(s[j + 1..]));
  }

  lemma TakenDistinct(F: Forest, elems: nat, leaves: seq<nat>, k: nat, u: nat, v: nat)
    requires Shaped(F) && Ids(F, elems, leaves, k) && Leaves(leaves, elems) && F.top == HEAP_SIZE - 2 * k &&
             u < v < 2 * k
    ensures Em(F, u) != Em(F, v)
  {
    var s, i, j := F.heap[F.top..], 2 * k - 1 - v, 2 * k - 1 - u;
    var x := s[i];
    IdOnce(elems, leaves, k, x);
    OccurrencesAdd(multiset(Live(F)), multiset(s), multiset(leaves), multiset(Range(elems, k)), x);
    OnceApart(s, i, j);
  }

  lemma RootId(F: Forest, elems: nat, leaves: seq<nat>, k: nat)
    requires Shaped(F) && Ids(F, elems, leaves, k) && F.len == 1 && F.top == HEAP_SIZE - 2 * k && 2 * k < HEAP_SIZE &&
             k >= 1
    requires Dads(F, elems, k)
    ensures F.heap[1] == elems + k - 1
  {
    WhereIs(F, elems, leaves, k, elems + k - 1);
    RootStays(F, elems, k);
  }

  lemma RootStays(F: Forest, elems: nat, k: nat)
    requires |F.heap| == HEAP_SIZE && 2 * k < HEAP_SIZE && Dads(F, elems, k) && k >= 1
    ensures !Waits(TakenOut(F, k), 2 * k, elems + k - 1)
  {
    forall v | 0 <= v < 2 * k
      ensures TakenOut(F, k)[v] != elems + k - 1
    {
      assert Dad(F, elems, v);
    }
  }

  lemma TreeDone(F: Forest, elems: nat, leaves: seq<nat>, k: nat, size: nat)
    requires Shaped(F) && Ids(F, elems, leaves, k) && Leaves(leaves, elems) && F.len == 1 &&
             F.top == HEAP_SIZE - 2 * k && k >= 1
    requires 2 * k < HEAP_SIZE && Dads(F, elems, k) && size <= elems && forall s :: s in leaves ==> 0 <= s < size
    ensures TreeIn(TakenOut(F, k), elems, k, size) && F.heap[1] == elems + k - 1
    ensures forall s :: 0 <= s < size ==> (Waits(TakenOut(F, k), 2 * k, s) <==> s in leaves)
  {
    hide Ids, Leaves, Occurs, Waits, Active, Nodes;
    var E := TakenOut(F, k);
    RootId(F, elems, leaves, k);
    forall u | 0 <= u < 2 * k
      ensures if E[u] >= elems then E[u] - elems < u / 2 else E[u] < size
    {
      assert Dad(F, elems, u);
      EmIn(F, u);
      LiveApart(F, elems, leaves, k, Em(F, u));
    }
    forall u, v | 0 <= u < v < 2 * k
      ensures E[u] != E[v]
    {
      TakenDistinct(F, elems, leaves, k, u, v);
    }
    forall i | 0 <= i < k - 1
      ensures Occurs(E, 2 * k, elems, i)
    {
      WhereIs(F, elems, leaves, k, elems + i);
      WaitsOccurs(E, 2 * k, elems, i);
    }
    forall s | 0 <= s < size
      ensures Waits(E, 2 * k, s) <==> s in leaves
    {
      if s in leaves { WhereIs(F, elems, leaves, k, s); }
      if Waits(E, 2 * k, s) { WaitingLeaf(F, elems, leaves, k, s); }
    }
  }

  lemma WaitsOccurs(E: seq<nat>, n: nat, elems: nat, i: nat)
    requires Waits(E, n, elems + i)
    ensures Occurs(E, n, elems, i)
  {
  }

  lemma WaitingLeaf(F: Forest, elems: nat, leaves: seq<nat>, k: nat, s: nat)
    requires Shaped(F) && Ids(F, elems, leaves, k) && Leaves(leaves, elems) && F.top == HEAP_SIZE - 2 * k
    requires 2 * k < HEAP_SIZE && Waits(TakenOut(F, k), 2 * k, s) && s < elems
    ensures s in leaves
  {
    var v :| 0 <= v < 2 * k && v < |TakenOut(F, k)| && TakenOut(F, k)[v] == s;
    EmIn(F, v);
    LiveApart(F, elems, leaves, k, s);
  }

  lemma WeightedDone(F: Forest, elems: nat, k: nat)
    requires Shaped(F) && 2 * k < HEAP_SIZE && Dads(F, elems, k) && Sums(F, elems, k) && elems + k <= |F.fc|
    ensures Weighted(TakenOut(F, k), elems, k, F.fc)
  {
    var E := TakenOut(F, k);
    forall u | 0 <= u < 2 * k
      ensures E[u] < |F.fc|
    {
      assert Dad(F, elems, u);
    }
    forall j | 0 <= j < k
      ensures F.fc[elems + j] == F.fc[E[2 * j]] + F.fc[E[2 * j + 1]]
    {
      assert PairSum(F, elems, j);
    }
  }

  lemma HeightsDone(F: Forest, elems: nat, k: nat)
    requires Shaped(F) && 2 * k < HEAP_SIZE && Sums(F, elems, k) && elems + k <= |F.fc|
    ensures Heights(TakenOut(F, k), elems, k, F.depth)
  {
    var E := TakenOut(F, k);
    forall v | 0 <= v < 2 * k
      ensures E[v] < |F.depth| && F.depth[E[v]] < F.depth[elems + v / 2]
    {
      assert PairSum(F, elems, v / 2);
    }
  }

  lemma FathersDone(D: Desc, F: Forest, leaves: seq<nat>, k: nat, size: nat, fc0: seq<nat>)
    requires Shaped(F) && 2 * k < HEAP_SIZE && Dads(F, D.elems, k) && Kept(F, fc0, D.elems, leaves) &&
             D.elems + k <= |F.fc| && size <= D.elems
    requires forall s :: 0 <= s < size ==> (Waits(TakenOut(F, k), 2 * k, s) <==> s in leaves)
    ensures Fathers(D, TakenOut(F, k), k, size, F.dl)
  {
    hide Waits;
    var E := TakenOut(F, k);
    forall v | 0 <= v < 2 * k
      ensures E[v] < |F.dl| && F.dl[E[v]] == D.elems + v / 2
    {
      assert Dad(F, D.elems, v);
    }
  }

  lemma OneLive(F: Forest)
    requires Shaped(F) && F.len == 1
    ensures HuffCost(multiset(LiveWs(F))) == 0
  {
    OneWeight(LiveWs(F));
  }

  ghost predicate ByWeight(E: seq<nat>, fc: seq<nat>) {
    forall u, v :: 0 <= u <= v < |E| && E[u] < |fc| && E[v] < |fc| ==> fc[E[u]] <= fc[E[v]]
  }

  lemma ByWeightDone(F: Forest, k: nat)
    requires Shaped(F) && 2 * k < HEAP_SIZE && Rising(F, k)
    ensures ByWeight(TakenOut(F, k), F.fc)
  {
    hide Active, Nodes;
    var E := TakenOut(F, k);
    forall u, v | 0 <= u <= v < |E| && E[u] < |F.fc| && E[v] < |F.fc|
      ensures F.fc[E[u]] <= F.fc[E[v]]
    {
      assert We(F, u) <= We(F, v);
    }
  }

  /** What gen_bitlen gets from the merging loop. */
  ghost predicate TreeReady(D: Desc, F: Forest, leaves: seq<nat>, k: nat, size: nat, cost: nat) {
    && Shaped(F) && F.top == HEAP_SIZE - 2 * k >= 1 && 1 <= k && F.heap[1] == D.elems + k - 1
    && PassIn(D, TakenOut(F, k), k, size, F.fc) && Fathers(D, TakenOut(F, k), k, size, F.dl)
    && (forall s :: 0 <= s < size ==> (Waits(TakenOut(F, k), 2 * k, s) <==> s in leaves))
    && D.elems + k <= |F.fc| && MergeCost(F.fc, D.elems, k) == cost && Heights(TakenOut(F, k), D.elems, k, F.depth)
    && ByWeight(TakenOut(F, k), F.fc)
  }

  lemma LoopDone(D: Desc, F: Forest, leaves: seq<nat>, fc0: seq<nat>, hv: seq<nat>, cost: nat, total: nat, size: nat)
    requires |leaves| >= 2 && LoopInv(F, D.elems, leaves, |leaves| - 1, fc0, hv, cost, total) && F.len == 1
    requires DescOk(D, size) && forall s :: s in leaves ==> 0 <= s < size
    ensures TreeReady(D, F, leaves, |leaves| - 1, size, cost)
  {
    hide Ids, Leaves, Dads, Sums, Kept, Deep, HuffCost, MergeCost, TreeIn, Weighted, Fathers, Heights, Waits, Ordered,
         Nodes, LiveWs, Rising, ByWeight;
    var k := |leaves| - 1;
    TreeDone(F, D.elems, leaves, k, size);
    WeightedDone(F, D.elems, k);
    HeightsDone(F, D.elems, k);
    ByWeightDone(F, k);
    FathersDone(D, F, leaves, k, size, fc0);
    OneLive(F);
  }
}
