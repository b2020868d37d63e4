/** opt_len and static_len are the exact numbers of bits that the block takes. */
module BlockLength {
  import opened Bitstring
  import opened Codes
  import opened Rfc1951
  import opened Huffman
  import opened GenBitLen
  import opened TokenCode
  import opened TreeCode
  import opened TallyBuffers
  import opened Totals

  // ---- dot products ----

  lemma {:induction false} DotBump(f: seq<nat>, w: seq<nat>, s: nat)
    requires |f| == |w| && s < |f|
    ensures Dot(f[s := f[s] + 1], w) == Dot(f, w) + w[s]
  {
    var n := |f| - 1;
    if s < n {
      DotBump(f[..n], w[..n], s);
      assert f[s := f[s] + 1][..n] == f[..n][s := f[..n][s] + 1];
    } else {
      assert f[s := f[s] + 1][..n] == f[..n];
      assert (f[s] + 1) * w[s] == f[s] * w[s] + w[s];
    }
  }

  lemma {:induction false} DotZero(f: seq<nat>, w: seq<nat>)
    requires |f| == |w| && forall i :: 0 <= i < |f| ==> f[i] == 0
    ensures Dot(f, w) == 0
  {
    if |f| == 0 {
    } else {
      DotZero(f[..|f| - 1], w[..|w| - 1]);
    }
  }

  /** Bits for one use of every symbol: its code and its extra bits. */
  function Costs(lens: seq<nat>, extra: seq<nat>, base: nat, n: nat): (r: seq<nat>)
    ensures |r| == n && forall s :: 0 <= s < n ==> r[s] == (if s < |lens| then lens[s] else 0) + Extra(s, extra, base)
  {
    seq(n, s requires 0 <= s < n => (if s < |lens| then lens[s] else 0) + Extra(s, extra, base))
  }

  // ---- tokens ----

  lemma LitCost(ll: seq<nat>, dl: seq<nat>, t: Token)
    requires Coded(ll, dl, t)
    ensures ValidToken(t)
    ensures |TokenBits(ll, dl, t)| == Costs(ll, LENGTH_EXTRA, 257, L_CODES)[LitSym(t)]
                                      + if t.Match? then Costs(dl, DIST_EXTRA, 0, D_CODES)[DistCode(t.dist)] else 0
  {
    hide LenCode, DistCode;
  }

  lemma {:induction false} TokensLength(ll: seq<nat>, dl: seq<nat>, ts: seq<Token>)
    requires AllCoded(ll, dl, ts) && END_BLOCK < |ll|
    ensures AllValid(ts)
    ensures |TokensBits(ll, dl, ts)| + ll[END_BLOCK]
            == Dot(LitFreq(ts), Costs(ll, LENGTH_EXTRA, 257, L_CODES)) + Dot(DistFreq(ts),
                Costs(dl, DIST_EXTRA, 0, D_CODES))
  {
    hide Dot, LitSym, DistCode, TokenBits, Coded, Extra;
    var lw, dw := Costs(ll, LENGTH_EXTRA, 257, L_CODES), Costs(dl, DIST_EXTRA, 0, D_CODES);
    if |ts| == 0 {
      DotZero(Zeros16(L_CODES), lw);
      DotBump(Zeros16(L_CODES), lw, END_BLOCK);
      DotZero(Zeros16(D_CODES), dw);
      NoExtraEnd();
    } else {
      var p, t := ts[..|ts| - 1], ts[|ts| - 1];
      TokensLength(ll, dl, p);
      LitCost(ll, dl, t);
      DotBump(LitFreq(p), lw, LitSym(t));
      if t.Match? { DotBump(DistFreq(p), dw, DistCode(t.dist)); }
    }
  }

  lemma NoExtraEnd()
    ensures Extra(END_BLOCK, LENGTH_EXTRA, 257) == 0
  {
  }

  // ---- what gen_bitlen adds up ----

  lemma {:induction false} OptIsDot(fc: seq<nat>, lens: seq<nat>, extra: seq<nat>, base: nat, n: nat)
    requires |lens| <= n <= |fc| && forall s :: 0 <= s < n && (s >= |lens| || lens[s] == 0) ==> fc[s] == 0
    ensures Sum(OptTerms(fc, lens, extra, base)) == Dot(fc[..n], Costs(lens, extra, base, n))
  {
    hide Dot, OptTerms, Costs, Extra, Sum;
    if n > |lens| {
      OptIsDot(fc, lens, extra, base, n - 1);
      CostsSnoc(fc, lens, extra, base, n);
    } else {
      OptIsDotFull(fc, lens, extra, base);
    }
  }

  lemma CostsSnoc(fc: seq<nat>, lens: seq<nat>, extra: seq<nat>, base: nat, n: nat)
    requires 0 < n <= |fc|
    ensures var w := Costs(lens, extra, base, n);
            Dot(fc[..n], w) == Dot(fc[..n - 1], Costs(lens, extra, base, n - 1)) + fc[n - 1] * w[n - 1]
  {
    hide Dot, Extra;
    var w := Costs(lens, extra, base, n);
    assert fc[..n] == fc[..n - 1] + [fc[n - 1]] && w == Costs(lens, extra, base, n - 1) + [w[n - 1]];
    DotSnoc(fc[..n - 1], Costs(lens, extra, base, n - 1), fc[n - 1], w[n - 1]);
  }

  lemma CostsPrefix(lens: seq<nat>, extra: seq<nat>, base: nat, n: nat)
    requires n <= |lens|
    ensures Costs(lens[..n], extra, base, n) == Costs(lens, extra, base, n)
  {
    hide Extra;
  }

  lemma ChargeIs(f: nat, l: nat, x: nat)
    ensures Charge(f, l, x) == f * (l + x)
  {
  }

  lemma DotNone(a: seq<nat>, b: seq<nat>)
    requires |a| == |b| == 0
    ensures Dot(a, b) == 0
  {
  }

  lemma {:induction false} OptIsDotFull(fc: seq<nat>, lens: seq<nat>, extra: seq<nat>, base: nat)
    requires |lens| <= |fc| && forall s :: 0 <= s < |lens| && lens[s] == 0 ==> fc[s] == 0
    ensures Sum(OptTerms(fc, lens, extra, base)) == Dot(fc[..|lens|], Costs(lens, extra, base, |lens|))
  {
    hide Extra, Charge, Dot;
    if |lens| > 0 {
      var n := |lens| - 1;
      var p := lens[..n];
      OptIsDotFull(fc, p, extra, base);
      assert OptTerms(fc, lens, extra, base)[..n] == OptTerms(fc, p, extra, base);
      CostsSnoc(fc, lens, extra, base, n + 1);
      CostsPrefix(lens, extra, base, n);
      ChargeIs(fc[n], lens[n], Extra(n, extra, base));
    } else {
      DotNone(fc[..0], Costs(lens, extra, base, 0));
    }
  }

  lemma {:induction false} StatIsDot(fc: seq<nat>, lens: seq<nat>, sl: seq<nat>, extra: seq<nat>, base: nat, n: nat)
    requires |lens| <= n <= |fc| && n <= |sl| && forall s :: 0 <= s < n && (s >= |lens| || lens[s] == 0) ==> fc[s] == 0
    ensures Sum(StatTerms(fc, lens, sl, extra, base)) == Dot(fc[..n], Costs(sl, extra, base, n))
  {
    hide Extra, Charge, Dot;
    if n > 0 {
      CostsSnoc(fc, sl, extra, base, n);
      ChargeIs(fc[n - 1], sl[n - 1], Extra(n - 1, extra, base));
      if n > |lens| {
        StatIsDot(fc, lens, sl, extra, base, n - 1);
      } else {
        var p := lens[..n - 1];
        StatIsDot(fc, p, sl, extra, base, n - 1);
        assert StatTerms(fc, lens, sl, extra, base)[..n - 1] == StatTerms(fc, p, sl, extra, base);
      }
    } else {
      DotNone(fc[..0], Costs(sl, extra, base, 0));
    }
  }

  // ---- the trees ----

  /** extra_blbits */
  const BL_EXTRA: seq<nat> := [0, 0, 0, 0, 0, 0, 0, 0, 0, 0, 0, 0, 0, 0, 0, 0, 2, 3, 7]

  /** Uses of the symbols of the code length code. */
  ghost function OpFreq(ops: seq<Op>): (r: seq<nat>)
    ensures |r| == BL_CODES && forall s :: 0 <= s < BL_CODES ==> r[s] == OpCount(ops, s)
  {
    seq(BL_CODES, s requires 0 <= s < BL_CODES => OpCount(ops, s))
  }

  lemma BlExtra(s: nat)
    requires s < BL_CODES
    ensures Extra(s, BL_EXTRA, 0) == ExtraBits(s)
  {
  }

  lemma {:induction false} OpsLength(cl: seq<nat>, ops: seq<Op>)
    requires HasOps(cl, ops)
    ensures |OpsBits(cl, ops)| == Dot(OpFreq(ops), Costs(cl, BL_EXTRA, 0, BL_CODES))
  {
    hide Dot, Extra, OpCount, ExtraBits, BL_EXTRA, OpFreq, CodeBits, BitsOf;
    var w := Costs(cl, BL_EXTRA, 0, BL_CODES);
    if |ops| == 0 {
      NoOpFreq();
      DotZero(OpFreq(ops), w);
    } else {
      var o, p := ops[0], ops[1..];
      OpsLength(cl, p);
      OpFreqCons(ops);
      DotBump(OpFreq(p), w, o.s);
      BlExtra(o.s);
    }
  }

  lemma NoOpFreq()
    ensures forall s :: 0 <= s < BL_CODES ==> OpFreq([])[s] == 0
  {
  }

  lemma OpFreqCons(ops: seq<Op>)
    requires |ops| > 0 && ops[0].s < BL_CODES
    ensures var f, s := OpFreq(ops[1..]), ops[0].s; OpFreq(ops) == f[s := f[s] + 1]
  {
  }

  lemma OpFreqJoin(a: seq<Op>, b: seq<Op>)
    ensures forall s :: 0 <= s < BL_CODES ==> OpFreq(a + b)[s] == OpFreq(a)[s] + OpFreq(b)[s]
  {
    forall s: nat | s < BL_CODES
      ensures OpCount(a + b, s) == OpCount(a, s) + OpCount(b, s)
    {
      OpCountJoin(a, b, s);
    }
  }
}
