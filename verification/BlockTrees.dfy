/** The first part of flush_block (trees.c:866-890): the trees of a block and their lengths. */
module BlockTrees {
  import opened Bitstring
  import opened Codes
  import opened Rfc1951
  import opened Heap
  import opened Huffman
  import opened GenBitLen
  import opened TreeMain
  import opened TokenCode
  import opened TreeCode
  import opened TreeSend
  import opened DynamicCode
  import opened TallyBuffers
  import opened BlockLength
  import opened DynamicSend
  import opened Totals

  /** dyn_ltree, dyn_dtree and bl_tree (each with its two unions), heap and depth. */
  datatype Trees = Trees(lFc: seq<nat>, lDl: seq<nat>, dFc: seq<nat>, dDl: seq<nat>, bFc: seq<nat>, bDl: seq<nat>,
                         heap: seq<nat>, depth: seq<nat>)

  ghost predicate Sized(S: Trees) {
    && |S.lFc| == |S.lDl| == HEAP_SIZE && |S.dFc| == |S.dDl| == 61 && |S.bFc| == |S.bDl| == 39
    && |S.heap| == |S.depth| == HEAP_SIZE && forall s :: 0 <= s < HEAP_SIZE ==> S.depth[s] < 256
  }

  /** The frequencies of the tokens are in place, and those of bl_tree are zero. */
  ghost predicate Counting(S: Trees, ts: seq<Token>) {
    Sized(S) && Freqs(S.lFc, S.dFc, ts) && forall s :: 0 <= s < BL_CODES ==> S.bFc[s] == 0
  }

  const L_DESC: Desc := Desc(L_CODES, MAX_BITS, LENGTH_EXTRA, 257, FixedLits())
  const D_DESC: Desc := Desc(D_CODES, MAX_BITS, DIST_EXTRA, 0, FixedDists())

  lemma DescsGood()
    ensures DescGood(L_DESC) && DescGood(D_DESC)
  {
    hide FixedLits, FixedDists;
    Pow2Values();
  }

  // ---- every symbol of the block has a code ----

  lemma {:induction false} SymbolsUsed(ts: seq<Token>, i: nat)
    requires AllValid(ts) && i < |ts|
    ensures LitFreq(ts)[LitSym(ts[i])] > 0 && LitFreq(ts)[END_BLOCK] > 0
    ensures ts[i].Match? ==> DistFreq(ts)[DistCode(ts[i].dist)] > 0
  {
    hide LitSym, DistCode;
    var n := |ts| - 1;
    if i < n {
      SymbolsUsed(ts[..n], i);
    } else {
      EndUsed(ts[..n]);
    }
  }

  lemma {:induction false} EndUsed(ts: seq<Token>)
    requires AllValid(ts)
    ensures LitFreq(ts)[END_BLOCK] > 0
  {
    if |ts| == 0 {
    } else {
      EndUsed(ts[..|ts| - 1]);
    }
  }

  lemma LitCoded(ll: seq<nat>, dl: seq<nat>, t: Token)
    requires ValidToken(t) && LitSym(t) < |ll| && ll[LitSym(t)] > 0 &&
             (t.Match? ==> DistCode(t.dist) < |dl| && dl[DistCode(t.dist)] > 0)
    ensures Coded(ll, dl, t)
  {
    hide LenCode, DistCode;
  }

  lemma TokensCoded(lFc: seq<nat>, dFc: seq<nat>, ts: seq<Token>, lc: seq<nat>, dc: seq<nat>, ll: seq<nat>,
                    dl: seq<nat>)
    requires Freqs(lFc, dFc, ts) && CodesFor(L_DESC, lFc, lc, ll) && CodesFor(D_DESC, dFc, dc, dl)
    ensures AllCoded(ll, dl, ts) && END_BLOCK < |ll| && ll[END_BLOCK] > 0
  {
    hide LitFreq, DistFreq, LitSym, DistCode, Complete, HasCode, Coded, ValidToken, FixedLits, FixedDists;
    EndUsed(ts);
    assert lFc[END_BLOCK] != 0;
    forall i | 0 <= i < |ts|
      ensures Coded(ll, dl, ts[i])
    {
      TokenCoded(lFc, dFc, ts, lc, dc, ll, dl, i);
    }
  }

  lemma TokenCoded(lFc: seq<nat>, dFc: seq<nat>, ts: seq<Token>, lc: seq<nat>, dc: seq<nat>, ll: seq<nat>,
                   dl: seq<nat>, i: nat)
    requires Freqs(lFc, dFc, ts) && CodesFor(L_DESC, lFc, lc, ll) && CodesFor(D_DESC, dFc, dc, dl) && i < |ts|
    ensures Coded(ll, dl, ts[i])
  {
    hide LitFreq, DistFreq, LitSym, DistCode, Complete, HasCode, Coded, FixedLits, FixedDists;
    SymbolsUsed(ts, i);
    assert lFc[LitSym(ts[i])] != 0;
    if ts[i].Match? { assert dFc[DistCode(ts[i].dist)] != 0; }
    LitCoded(ll, dl, ts[i]);
  }

  /** All tokens can be sent with the static trees. */
  lemma StaticCoded(ts: seq<Token>)
    requires AllValid(ts)
    ensures AllCoded(FixedLits(), FixedDists(), ts) && FixedLits()[END_BLOCK] > 0
  {
    hide LitSym, DistCode, Coded;
    forall i | 0 <= i < |ts|
      ensures Coded(FixedLits(), FixedDists(), ts[i])
    {
      LitCoded(FixedLits(), FixedDists(), ts[i]);
    }
  }

  // ---- lengths ----

  lemma ZeroWhereNone(D: Desc, freq: seq<nat>, fc: seq<nat>, lens: seq<nat>)
    requires CodesFor(D, freq, fc, lens)
    ensures forall s :: 0 <= s < D.elems && (s >= |lens| || lens[s] == 0) ==> freq[s] == 0
  {
    hide Complete, HasCode;
  }

  lemma LitLength(lFc: seq<nat>, dFc: seq<nat>, ts: seq<Token>, lc: seq<nat>, dc: seq<nat>, ll: seq<nat>, dl: seq<nat>)
    requires Freqs(lFc, dFc, ts) && CodesFor(L_DESC, lFc, lc, ll) && CodesFor(D_DESC, dFc, dc, dl)
    requires AllCoded(ll, dl, ts) && END_BLOCK < |ll| && ll[END_BLOCK] > 0
    ensures Sum(OptTerms(lFc, ll, LENGTH_EXTRA, 257)) + Sum(OptTerms(dFc, dl, DIST_EXTRA, 0)) == |BlockBits(ll, dl, ts)|
  {
    hide LitFreq, DistFreq, Complete, HasCode, TokensBits, Dot, Sum, OptTerms, Costs, FixedLits, FixedDists,
         LENGTH_EXTRA, DIST_EXTRA, CodesFor;
    ZeroWhereNone(L_DESC, lFc, lc, ll);
    ZeroWhereNone(D_DESC, dFc, dc, dl);
    LensFit(L_DESC, lFc, lc, ll);
    LensFit(D_DESC, dFc, dc, dl);
    OptIsDot(lFc, ll, LENGTH_EXTRA, 257, L_CODES);
    OptIsDot(dFc, dl, DIST_EXTRA, 0, D_CODES);
    assert lFc[..L_CODES] == LitFreq(ts) && dFc[..D_CODES] == DistFreq(ts);
    TokensLength(ll, dl, ts);
  }

  lemma LensFit(D: Desc, freq: seq<nat>, fc: seq<nat>, lens: seq<nat>)
    requires CodesFor(D, freq, fc, lens)
    ensures |lens| <= D.elems <= |freq|
  {
  }

  lemma StatLength(lFc: seq<nat>, dFc: seq<nat>, ts: seq<Token>, lc: seq<nat>, dc: seq<nat>, ll: seq<nat>, dl: seq<nat>)
    requires Freqs(lFc, dFc, ts) && CodesFor(L_DESC, lFc, lc, ll) && CodesFor(D_DESC, dFc, dc, dl) && |ll| <= |lFc| &&
             |dl| <= |dFc|
    requires AllCoded(FixedLits(), FixedDists(), ts) && FixedLits()[END_BLOCK] > 0
    ensures Sum(StatTerms(lFc, ll, FixedLits(), LENGTH_EXTRA, 257)) + Sum(StatTerms(dFc, dl, FixedDists(), DIST_EXTRA,
        0))
            == |BlockBits(FixedLits(), FixedDists(), ts)|
  {
    hide LitFreq, DistFreq, Complete, HasCode, TokensBits, Dot, Sum, StatTerms, Costs, FixedLits, FixedDists,
         LENGTH_EXTRA, DIST_EXTRA, CodesFor;
    ZeroWhereNone(L_DESC, lFc, lc, ll);
    ZeroWhereNone(D_DESC, dFc, dc, dl);
    LensFit(L_DESC, lFc, lc, ll);
    LensFit(D_DESC, dFc, dc, dl);
    StatIsDot(lFc, ll, FixedLits(), LENGTH_EXTRA, 257, L_CODES);
    StatIsDot(dFc, dl, FixedDists(), DIST_EXTRA, 0, D_CODES);
    assert lFc[..L_CODES] == LitFreq(ts) && dFc[..D_CODES] == DistFreq(ts);
    TokensLength(FixedLits(), FixedDists(), ts);
  }

  // ---- building ----

  /** The dynamic trees can send the tokens. */
  ghost predicate TreesFor(S: Trees, lmax: nat, dmax: nat, nb: nat, ts: seq<Token>) {
    && Sized(S) && 256 <= lmax < L_CODES && dmax < D_CODES && 4 <= nb <= 19
    && ReadyToSend(S.lDl, lmax, S.dDl, dmax, S.bFc, S.bDl, nb)
    && CodeTable(S.lFc, S.lDl, S.lDl[..lmax + 1]) && CodeTable(S.dFc, S.dDl, S.dDl[..dmax + 1])
    && AllCoded(S.lDl[..lmax + 1], S.dDl[..dmax + 1], ts) && S.lDl[END_BLOCK] > 0
  }

  lemma FreqRoom(S: Trees, ts: seq<Token>)
    requires Counting(S, ts) && |ts| < LIT_BUFSIZE
    ensures Sum(S.lFc[..L_CODES]) <= 65532 && Sum(S.dFc[..D_CODES]) <= 65532
  {
    hide LitFreq, DistFreq, Sum;
    FreqSums(ts);
    assert S.lFc[..L_CODES] == LitFreq(ts) && S.dFc[..D_CODES] == DistFreq(ts);
  }

  lemma Tabled(D: Desc, freq: seq<nat>, fc: seq<nat>, dl: seq<nat>, n: nat, guard: seq<nat>)
    requires n < |dl| == |fc| && CodesFor(D, freq, fc, dl[..n]) && D.maxLength <= 15 && guard == dl[n := GUARD]
    ensures guard[..n] == dl[..n] && CodeTable(fc, guard, guard[..n])
  {
    hide HasCode;
  }

  lemma CodesComplete(D: Desc, freq: seq<nat>, fc: seq<nat>, lens: seq<nat>)
    requires CodesFor(D, freq, fc, lens)
    ensures Complete(lens, D.maxLength)
  {
  }

  /** trees.c:866-879; `opt` and `stat` are the bits the block will take behind its three header bits. */
  method BuildAll(S0: Trees, ghost ts: seq<Token>)
    returns (S: Trees, lmax: nat, dmax: nat, maxBlindex: nat, opt: int, stat: int)
    requires Counting(S0, ts) && |ts| < LIT_BUFSIZE
    ensures maxBlindex <= 18 && TreesFor(S, lmax, dmax, maxBlindex + 1, ts)
    ensures AllCoded(FixedLits(), FixedDists(), ts) && FixedLits()[END_BLOCK] > 0
    ensures opt == |HeaderBits(S.lDl[..lmax + 1], S.dDl[..dmax + 1], S.bDl[..BL_CODES], maxBlindex + 1)|
                   + |BlockBits(S.lDl[..lmax + 1], S.dDl[..dmax + 1], ts)|
    ensures stat == |BlockBits(FixedLits(), FixedDists(), ts)|
  {
    hide Freqs, Sum, OptTerms, StatTerms, DescGood, CodesFor, Cheapest, CodeTable, AllCoded, HeaderBits, BlockBits,
         ReadyToSend,
         FixedLits, FixedDists, Complete, LENGTH_EXTRA, DIST_EXTRA;
    FreqRoom(S0, ts);
    DescsGood();
    var overflow, lFc, lDl, dFc, dDl, bFc, bDl, depth, heap;
    ghost var forced;
    lFc, lDl, depth, heap, lmax, opt, stat, overflow,
      forced := BuildTree(L_DESC, S0.lFc, S0.lDl, S0.depth, S0.heap, 0, 0);
    dFc, dDl, depth, heap, dmax, opt, stat, overflow,
      forced := BuildTree(D_DESC, S0.dFc, S0.dDl, depth, heap, opt, stat);
    ghost var ll, dl := lDl[..lmax + 1], dDl[..dmax + 1];
    TokensCoded(S0.lFc, S0.dFc, ts, lFc, dFc, ll, dl);
    StaticNow(S0, ts);
    LitLength(S0.lFc, S0.dFc, ts, lFc, dFc, ll, dl);
    StatLength(S0.lFc, S0.dFc, ts, lFc, dFc, ll, dl);
    CodesComplete(L_DESC, S0.lFc, lFc, ll);
    CodesComplete(D_DESC, S0.dFc, dFc, dl);
    ghost var l0, d0 := lDl, dDl;
    lDl, dDl, bFc, bDl, depth, heap, opt,
      maxBlindex := BuildBlTree(lDl, lmax, dDl, dmax, S0.bFc, S0.bDl, depth, heap, opt);
    Tabled(L_DESC, S0.lFc, lFc, l0, lmax + 1, lDl);
    Tabled(D_DESC, S0.dFc, dFc, d0, dmax + 1, dDl);
    S := Trees(lFc, lDl, dFc, dDl, bFc, bDl, heap, depth);
  }

  lemma StaticNow(S: Trees, ts: seq<Token>)
    requires Counting(S, ts)
    ensures AllCoded(FixedLits(), FixedDists(), ts) && FixedLits()[END_BLOCK] > 0
  {
    StaticCoded(ts);
  }
}
