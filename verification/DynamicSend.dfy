/** build_bl_tree and send_all_trees (trees.c:790-846). */
module DynamicSend {
  import opened Bitstring
  import opened BitIO
  import opened Codes
  import opened Rfc1951
  import opened Heap
  import opened Huffman
  import opened HuffmanLoop
  import opened GenBitLen
  import opened TreeMain
  import opened InflateTrees
  import opened TreeCode
  import opened TreeSend
  import opened DynamicCode
  import opened BlockLength
  import opened Totals

  // ---- zero lengths at the end do not matter ----

  lemma {:induction false} CountTail(lens: seq<nat>, n: nat, l: nat)
    requires n <= |lens| && l >= 1 && forall s :: n <= s < |lens| ==> lens[s] == 0
    ensures Count(lens, l) == Count(lens[..n], l)
  {
    if |lens| > n {
      CountTail(lens[..|lens| - 1], n, l);
      assert lens[..|lens| - 1][..n] == lens[..n];
    } else {
      assert lens[..n] == lens;
    }
  }

  lemma {:induction false} UsedTail(lens: seq<nat>, n: nat, l: nat)
    requires n <= |lens| && forall s :: n <= s < |lens| ==> lens[s] == 0
    ensures Used(lens, l) == Used(lens[..n], l)
  {
    if l == 0 {
    } else {
      UsedTail(lens, n, l - 1);
      CountTail(lens, n, l);
    }
  }

  lemma CodeTail(lens: seq<nat>, n: nat, s: nat)
    requires s < n <= |lens| && (forall i :: n <= i < |lens| ==> lens[i] == 0) && lens[s] > 0
    ensures CodeBits(lens, s) == CodeBits(lens[..n], s)
  {
    UsedTail(lens, n, lens[s] - 1);
    assert lens[..n][..s] == lens[..s];
  }

  /** The code length code with all 19 lengths. */
  lemma WholeCode(fc: seq<nat>, dl: seq<nat>, n: nat, m: nat)
    requires 1 <= n <= BL_CODES <= |fc| == |dl| && m <= 15 && Complete(dl[..n], m) &&
             (forall s :: n <= s < BL_CODES ==> dl[s] == 0)
    requires forall s :: 0 <= s < n ==> HasCode(fc[s], dl[..n], s)
    ensures Complete(dl[..BL_CODES], m) && CodeTable(fc, dl, dl[..BL_CODES])
  {
    hide CodeBits, Used;
    var cl := dl[..BL_CODES];
    assert cl[..n] == dl[..n];
    UsedTail(cl, n, m);
    forall s | 0 <= s < BL_CODES
      ensures cl[s] <= m && HasCode(fc[s], cl, s)
    {
      if s < n {
        assert dl[..n][s] == cl[s];
        if cl[s] > 0 { CodeTail(cl, n, s); }
      }
    }
  }

  // ---- every symbol that will be sent has a code ----

  lemma OpsCoded(cl: seq<nat>, ops: seq<Op>)
    requires |cl| == BL_CODES && (forall i :: 0 <= i < |ops| ==> OpOk(ops[i])) &&
             forall s :: 0 <= s < BL_CODES && OpCount(ops, s) > 0 ==> cl[s] > 0
    ensures HasOps(cl, ops)
  {
    hide OpCount;
    forall i | 0 <= i < |ops|
      ensures HasOp(cl, ops[i])
    {
      OpCountPositive(ops, i);
      assert OpOk(ops[i]);
    }
  }

  /** A tree that has a code at all sends the length of that code as a symbol of its own. */
  lemma PlainLength(lens: seq<nat>, ops: seq<Op>, last: nat)
    requires last == 0 && OpsLens(ops, last) == lens && (exists s :: 0 <= s < |lens| && lens[s] > 0)
    ensures exists i :: 0 <= i < |ops| && 1 <= ops[i].s < 16
  {
    if forall i :: 0 <= i < |ops| ==> !(1 <= ops[i].s < 16) {
      OnlyZeros(ops);
      assert false;
    }
  }

  lemma {:induction false} OnlyZeros(ops: seq<Op>)
    requires forall i :: 0 <= i < |ops| ==> !(1 <= ops[i].s < 16)
    ensures forall s :: 0 <= s < |OpsLens(ops, 0)| ==> OpsLens(ops, 0)[s] == 0
  {
    if |ops| == 0 {
    } else {
      OnlyZeros(ops[1..]);
      assert !(1 <= ops[0].s < 16);
      assert OpLast(ops[0], 0) == 0;
    }
  }

  // ---- the number of code length code lengths to send ----

  /** trees.c:808-810 */
  method LastUsed(bDl: seq<nat>) returns (maxBlindex: nat)
    requires |bDl| >= BL_CODES && exists s :: 1 <= s < 16 && bDl[s] > 0
    ensures 3 <= maxBlindex <= 18 && forall i :: maxBlindex < i < 19 ==> bDl[OrderAt(i)] == 0
  {
    ghost var s :| 1 <= s < 16 && bDl[s] > 0;
    OrderPlaces();
    ghost var p := CL_PLACE[s];
    assert p >= 4 && OrderAt(p) == s by { PlainPlace(s); }
    maxBlindex := 18;
    while maxBlindex >= 3
      invariant p <= maxBlindex <= 18
      invariant forall i :: maxBlindex < i < 19 ==> bDl[OrderAt(i)] == 0
    {
      if bDl[CL_ORDER[maxBlindex]] != 0 { break; }
      assert bDl[OrderAt(maxBlindex)] == 0;
      maxBlindex := maxBlindex - 1;
    }
  }

  lemma PlainPlace(s: nat)
    requires 1 <= s < 16
    ensures CL_PLACE[s] >= 4 && CL_PLACE[s] < 19 && OrderAt(CL_PLACE[s]) == s
  {
    OrderPlaces();
  }

  // ---- build_bl_tree ----

  const BL_DESC: Desc := Desc(19, 7, BL_EXTRA, 0, [])

  lemma BlDescGood()
    ensures DescGood(BL_DESC)
  {
    Pow2Values();
  }

  lemma {:induction false} SumBound(s: seq<nat>, x: nat)
    requires forall i :: 0 <= i < |s| ==> s[i] <= x
    ensures Sum(s) <= |s| * x
  {
    if |s| == 0 {
    } else {
      SumBound(s[..|s| - 1], x);
      assert |s| * x == (|s| - 1) * x + x;
    }
  }

  /** The two trees as they will be sent. */
  ghost function BothOps(ll: seq<nat>, dl: seq<nat>): seq<Op> {
    TreeOps(ll, 0, -1) + TreeOps(dl, 0, -1)
  }

  lemma BothFreq(f0: seq<nat>, f1: seq<nat>, f: seq<nat>, ll: seq<nat>, dl: seq<nat>)
    requires |f0| >= BL_CODES && (forall s :: 0 <= s < BL_CODES ==> f0[s] == 0)
    requires Tallied(f0, f1, TreeOps(ll, 0, -1)) && Tallied(f1, f, TreeOps(dl, 0, -1))
    ensures |f| == |f0| && f[..BL_CODES] == OpFreq(BothOps(ll, dl))
  {
    hide TreeOps, OpCount;
    OpFreqJoin(TreeOps(ll, 0, -1), TreeOps(dl, 0, -1));
  }

  lemma FewUses(f: seq<nat>, ll: seq<nat>, dl: seq<nat>)
    requires |f| >= BL_CODES && f[..BL_CODES] == OpFreq(BothOps(ll, dl)) && |ll| <= 286 && |dl| <= 30
    ensures Sum(f[..BL_CODES]) <= 65532
  {
    hide TreeOps, OpCount, Sum;
    TreeOpsFew(ll, 0, -1);
    TreeOpsFew(dl, 0, -1);
    SumBound(f[..BL_CODES], 316);
  }

  lemma {:induction false} CostsTail(lens: seq<nat>, cl: seq<nat>)
    requires |cl| == BL_CODES && lens <= cl && forall s :: |lens| <= s < BL_CODES ==> cl[s] == 0
    ensures Costs(lens, BL_EXTRA, 0, BL_CODES) == Costs(cl, BL_EXTRA, 0, BL_CODES)
  {
    hide Extra;
  }

  /** What is known once bl_tree is built for the frequencies `f`. */
  lemma BlTreeSends(f: seq<nat>, bFc: seq<nat>, bDl: seq<nat>, bmax: nat, ll: seq<nat>, dl: seq<nat>)
    requires |f| >= BL_CODES && f[..BL_CODES] == OpFreq(BothOps(ll, dl)) && |bFc| == |bDl| >= BL_CODES &&
             bmax < BL_CODES
    requires CodesFor(BL_DESC, f, bFc, bDl[..bmax + 1]) && forall s :: bmax < s < BL_CODES ==> bDl[s] == 0
    requires Small(ll) && Small(dl) && exists s :: 0 <= s < |ll| && ll[s] > 0
    ensures var cl := bDl[..BL_CODES];
            && Complete(cl, 7) && CodeTable(bFc, bDl, cl)
            && HasOps(cl, TreeOps(ll, 0, -1)) && HasOps(cl, TreeOps(dl, 0, -1))
            && (exists s :: 1 <= s < 16 && bDl[s] > 0)
            && Sum(OptTerms(f, bDl[..bmax + 1], BL_EXTRA, 0)) == |LengthsBits(ll, dl, cl)|
  {
    hide TreeOps, OpCount, Complete, HasCode, OptTerms, Sum, OpsLens, Dot, OpsBits, CodeTable, Costs, Small, HasOps;
    var cl, a, b := bDl[..BL_CODES], TreeOps(ll, 0, -1), TreeOps(dl, 0, -1);
    WholeCode(bFc, bDl, bmax + 1, 7);
    OpFreqJoin(a, b);
    UsesCoded(f, bDl, bmax, BothOps(ll, dl));
    TreeOpsMean(ll, 0, -1, 0);
    TreeOpsMean(dl, 0, -1, 0);
    OpsCoded(cl, a);
    OpsCoded(cl, b);
    assert ll[0..] == ll;
    PlainLength(ll, a, 0);
    var i :| 0 <= i < |a| && 1 <= a[i].s < 16;
    OpCountPositive(a, i);
    assert cl[a[i].s] > 0;
    OptIsDot(f, bDl[..bmax + 1], BL_EXTRA, 0, BL_CODES);
    CostsTail(bDl[..bmax + 1], cl);
    OpsBitsJoin(cl, a, b);
    OpsLength(cl, a + b);
  }

  lemma UsesCoded(f: seq<nat>, bDl: seq<nat>, bmax: nat, ops: seq<Op>)
    requires |f| >= BL_CODES && f[..BL_CODES] == OpFreq(ops) && |bDl| >= BL_CODES && bmax < BL_CODES
    requires forall s :: 0 <= s < BL_CODES && f[s] != 0 ==> s < bmax + 1 && bDl[..bmax + 1][s] > 0
    ensures forall s :: 0 <= s < BL_CODES && OpCount(ops, s) > 0 ==> bDl[..BL_CODES][s] > 0
    ensures forall s :: 0 <= s < BL_CODES && (s >= bmax + 1 || bDl[..bmax + 1][s] == 0) ==> f[s] == 0
  {
    hide OpCount;
    forall s | 0 <= s < BL_CODES && OpCount(ops, s) > 0
      ensures bDl[..BL_CODES][s] > 0
    {
      assert f[..BL_CODES][s] == f[s];
    }
  }

  /** The three trees are ready to be sent with `nb` lengths of the code length code. */
  ghost predicate ReadyToSend(lDl: seq<nat>, lmax: nat, dDl: seq<nat>, dmax: nat, bFc: seq<nat>, bDl: seq<nat>,
                              nb: nat) {
    && lmax + 1 < |lDl| && dmax + 1 < |dDl| && |bDl| >= BL_CODES
    && Guarded(lDl, lDl[..lmax + 1]) && Guarded(dDl, dDl[..dmax + 1])
    && TreesOk(lDl[..lmax + 1], dDl[..dmax + 1], bDl[..BL_CODES], nb) && CodeTable(bFc, bDl, bDl[..BL_CODES])
  }

  /** build_bl_tree; the length of the block grows by what the trees will take. */
  method BuildBlTree(lDl0: seq<nat>, lmax: nat, dDl0: seq<nat>, dmax: nat, bFc0: seq<nat>, bDl0: seq<nat>,
                     depth0: seq<nat>, heap0: seq<nat>, opt0: int)
    returns (lDl: seq<nat>, dDl: seq<nat>, bFc: seq<nat>, bDl: seq<nat>, depth: seq<nat>, heap: seq<nat>, opt: int,
             maxBlindex: nat)
    requires 256 <= lmax < 286 && lmax + 1 < |lDl0| && dmax < 30 && dmax + 1 < |dDl0|
    requires Complete(lDl0[..lmax + 1], 15) && Complete(dDl0[..dmax + 1], 15) && lDl0[END_BLOCK] > 0
    requires 38 <= |bFc0| == |bDl0| <= |depth0| == |heap0| == HEAP_SIZE &&
             (forall s :: 0 <= s < BL_CODES ==> bFc0[s] == 0)
    requires forall s :: 0 <= s < HEAP_SIZE ==> depth0[s] < 256
    ensures lDl == lDl0[lmax + 1 := GUARD] && dDl == dDl0[dmax + 1 := GUARD] && |bFc| == |bDl| == |bFc0|
    ensures 3 <= maxBlindex <= 18 && ReadyToSend(lDl, lmax, dDl, dmax, bFc, bDl, maxBlindex + 1)
    ensures |depth| == |heap| == HEAP_SIZE && forall s :: 0 <= s < HEAP_SIZE ==> depth[s] < 256
    ensures opt == opt0 + |HeaderBits(lDl[..lmax + 1], dDl[..dmax + 1], bDl[..BL_CODES], maxBlindex + 1)|
  {
    hide Complete, TreeOps, OpCount, CodesFor, CodeTable, LengthsBits, OptTerms, Sum, Cheapest, HasOps, DescGood,
         OrderAt, MinWeight, OrderBits, CountBits;
    ghost var ll, dl := lDl0[..lmax + 1], dDl0[..dmax + 1];
    SmallLens(ll, 15);
    SmallLens(dl, 15);
    var f1, f, bmax, stat, overflow;
    ghost var forced;
    lDl, f1 := ScanTree(lDl0, lmax, bFc0);
    TalliedBound(bFc0, f1, ll);
    dDl, f := ScanTree(dDl0, dmax, f1);
    assert lDl[..lmax + 1] == ll && dDl[..dmax + 1] == dl;
    BothFreq(bFc0, f1, f, ll, dl);
    FewUses(f, ll, dl);
    BlDescGood();
    bFc, bDl, depth, heap, bmax, opt, stat, overflow, forced := BuildTree(BL_DESC, f, bDl0, depth0, heap0, opt0, 0);
    BlTreeSends(f, bFc, bDl, bmax, ll, dl);
    maxBlindex := LastUsed(bDl);
    opt := opt + 3 * (maxBlindex + 1) + 5 + 5 + 4;
    SmallLens(bDl[..BL_CODES], 7);
    OrderBitsLen(bDl[..BL_CODES], 0, maxBlindex + 1);
  }

  lemma SmallLens(lens: seq<nat>, m: nat)
    requires Complete(lens, m) && m <= 15
    ensures Small(lens) && forall i :: 0 <= i < |lens| ==> lens[i] <= m
  {
  }

  lemma TalliedBound(f0: seq<nat>, f: seq<nat>, lens: seq<nat>)
    requires Tallied(f0, f, TreeOps(lens, 0, -1)) && |lens| <= 286 && BL_CODES <= |f0| &&
             forall s :: 0 <= s < BL_CODES ==> f0[s] == 0
    ensures forall s :: 0 <= s < BL_CODES ==> f[s] <= 286
  {
    hide TreeOps, OpCount;
    TreeOpsFew(lens, 0, -1);
  }

  // ---- send_all_trees ----

  /** trees.c:835-838 */
  method SendOrder(w: BitWriter, bDl: seq<nat>, blcodes: nat)
    requires w.Valid() && |bDl| >= BL_CODES && blcodes <= 19 && forall i :: 0 <= i < 19 ==> bDl[i] <= 7
    modifies w
    ensures w.Valid() && w.Bits() == old(w.Bits()) + OrderBits(bDl[..BL_CODES], 0, blcodes)
  {
    hide OrderBits, BitsOf, CL_ORDER;
    ghost var cl := bDl[..BL_CODES];
    ghost var bits := w.Bits();
    OrderPlaces();
    NoOrder(cl);
    var rank := 0;
    while rank < blcodes
      invariant 0 <= rank <= blcodes && w.Valid() && w.Bits() == bits + OrderBits(cl, 0, rank)
    {
      Seven(bDl[CL_ORDER[rank]]);
      w.SendBits(bDl[CL_ORDER[rank]], 3);
      OrderBitsSnoc(cl, 0, rank);
      ConcatAssoc(bits, OrderBits(cl, 0, rank), BitsOf(cl[OrderAt(rank)], 3));
      rank := rank + 1;
    }
  }

  lemma NoOrder(cl: seq<nat>)
    requires |cl| == 19
    ensures OrderBits(cl, 0, 0) == []
  {
  }

  lemma Seven(v: nat)
    requires v <= 7
    ensures v < Pow2(3)
  {
    Pow2Values();
  }

  /** trees.c:832-834 */
  method SendCounts(w: BitWriter, lcodes: nat, dcodes: nat, blcodes: nat)
    requires w.Valid() && 257 <= lcodes <= 286 && 1 <= dcodes <= 30 && 4 <= blcodes <= 19
    modifies w
    ensures w.Valid() && w.Bits() == old(w.Bits()) + CountBits(lcodes, dcodes, blcodes)
  {
    hide BitsOf;
    ghost var bits := w.Bits();
    Pow2Values();
    w.SendBits(lcodes - 257, 5);
    w.SendBits(dcodes - 1, 5);
    w.SendBits(blcodes - 4, 4);
    FourJoin(bits, BitsOf(lcodes - 257, 5), BitsOf(dcodes - 1, 5), BitsOf(blcodes - 4, 4));
  }

  lemma FourJoin(a: seq<bool>, b: seq<bool>, c: seq<bool>, d: seq<bool>)
    ensures ((a + b) + c) + d == a + (b + (c + d))
  {
  }

  /** send_all_trees */
  method SendAllTrees(w: BitWriter, lDl: seq<nat>, dDl: seq<nat>, bFc: seq<nat>, bDl: seq<nat>, lcodes: nat,
                      dcodes: nat, blcodes: nat)
    requires w.Valid() && lcodes >= 1 && dcodes >= 1 && ReadyToSend(lDl, lcodes - 1, dDl, dcodes - 1, bFc, bDl, blcodes)
    modifies w
    ensures w.Valid() && w.Bits() == old(w.Bits()) + HeaderBits(lDl[..lcodes], dDl[..dcodes], bDl[..BL_CODES], blcodes)
  {
    hide CountBits, OrderBits, TreeOps, OpsBits, CodeTable, Guarded, Complete, OrderAt, HasOps;
    ghost var bits, ll, dl, cl := w.Bits(), lDl[..lcodes], dDl[..dcodes], bDl[..BL_CODES];
    assert forall i :: 0 <= i < 19 ==> bDl[i] == cl[i];
    SendCounts(w, lcodes, dcodes, blcodes);
    SendOrder(w, bDl, blcodes);
    SendTree(w, lDl, lcodes - 1, bFc, bDl, cl);
    SendTree(w, dDl, dcodes - 1, bFc, bDl, cl);
    FiveJoin(bits, CountBits(lcodes, dcodes, blcodes), OrderBits(cl, 0, blcodes), OpsBits(cl, TreeOps(ll, 0, -1)),
             OpsBits(cl, TreeOps(dl, 0, -1)));
  }

  lemma FiveJoin(a: seq<bool>, b: seq<bool>, c: seq<bool>, d: seq<bool>, e: seq<bool>)
    ensures (((a + b) + c) + d) + e == a + (b + (c + (d + e)))
  {
  }
}
