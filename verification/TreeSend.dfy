/** The loops of scan_tree and send_tree, and the header of a dynamic block (trees.c:696-784). */
module TreeSend {
  import opened Bitstring
  import opened BitIO
  import opened Codes
  import opened TreeCode

  const GUARD := 65535

  // ---- the state of the loops ----

  /** The run that starts at `i` reaches to `n`, and the two limits fit the lengths. */
  ghost predicate InRun(lens: seq<nat>, i: nat, n: nat, count: nat, prev: int, maxCount: nat, minCount: nat) {
    && i <= n < |lens| && count == n - i < maxCount
    && (forall k :: i <= k <= n ==> lens[k] == lens[n])
    && maxCount == MaxCount(lens[n], prev) && minCount == MinCount(lens[n], prev)
  }

  ghost predicate AtRun(lens: seq<nat>, i: nat, n: nat, count: nat, prev: int, maxCount: nat, minCount: nat) {
    if n == |lens| then i == n else InRun(lens, i, n, count, prev, maxCount, minCount)
  }

  lemma RunEnds(lens: seq<nat>, i: nat, n: nat, count: nat, prev: int, maxCount: nat, minCount: nat)
    requires InRun(lens, i, n, count, prev, maxCount, minCount)
    requires count + 1 == maxCount || n + 1 == |lens| || lens[n + 1] != lens[n]
    ensures count + 1 <= MaxCount(lens[n], prev)
    ensures TreeOps(lens, i, prev) == RunOps(lens[n], prev, count + 1) + TreeOps(lens, n + 1, lens[n])
  {
    hide RunOps, RunLen, MaxCount, MinCount;
    RunLenIs(lens, i, maxCount, count + 1);
  }

  // ---- scan_tree ----

  function Add16(a: nat, b: nat): nat {
    (a + b) % 65536
  }

  /** `f` has the uses of every symbol added to `freq`. */
  ghost predicate Tallied(freq: seq<nat>, f: seq<nat>, ops: seq<Op>) {
    |f| == |freq| && forall s :: 0 <= s < |freq| ==> f[s] == freq[s] + OpCount(ops, s)
  }

  lemma {:induction false} SinglesCount(cur: nat, count: nat, s: nat)
    ensures OpCount(seq(count, _ => Op(cur, 0)), s) == if s == cur then count else 0
  {
    if count == 0 {
    } else {
      SinglesCount(cur, count - 1, s);
      assert seq(count, _ => Op(cur, 0))[1..] == seq(count - 1, _ => Op(cur, 0));
    }
  }

  lemma OneCount(o: Op, s: nat)
    ensures OpCount([o], s) == if s == o.s then 1 else 0
  {
    assert [o][1..] == [];
  }

  lemma TwoCount(o: Op, p: Op, s: nat)
    ensures OpCount([o, p], s) == (if s == o.s then 1 else 0) + if s == p.s then 1 else 0
  {
    assert [o, p][1..] == [p];
    OneCount(p, s);
  }

  /** The frequencies after one run (trees.c:715-724). */
  method ScanRun(f: seq<nat>, cur: nat, prev: int, count: nat, minCount: nat) returns (r: seq<nat>)
    requires 19 <= |f| && cur <= 15 && 1 <= count <= MaxCount(cur, prev) && minCount == MinCount(cur, prev)
    requires forall s :: 0 <= s < 19 ==> f[s] + |RunOps(cur, prev, count)| <= 65535
    ensures Tallied(f, r, RunOps(cur, prev, count))
  {
    ghost var ops := RunOps(cur, prev, count);
    r := f;
    if count < minCount {
      forall s: nat ensures OpCount(ops, s) == if s == cur then count else 0 { SinglesCount(cur, count, s); }
      r := r[cur := Add16(r[cur], count)];
    } else if cur != 0 {
      if cur != prev {
        forall s: nat
          ensures OpCount(ops, s) == (if s == cur then 1 else 0) + (if s == 16 then 1 else 0)
        {
          TwoCount(ops[0], ops[1], s);
        }
        r := r[cur := Add16(r[cur], 1)];
      } else {
        forall s: nat ensures OpCount(ops, s) == if s == 16 then 1 else 0 { OneCount(ops[0], s); }
      }
      r := r[REP_3_6 := Add16(r[REP_3_6], 1)];
    } else {
      forall s: nat ensures OpCount(ops, s) == if s == ops[0].s then 1 else 0 { OneCount(ops[0], s); }
      if count <= 10 {
        r := r[REPZ_3_10 := Add16(r[REPZ_3_10], 1)];
      } else {
        r := r[REPZ_11_138 := Add16(r[REPZ_11_138], 1)];
      }
    }
  }

  /** What the two loops need of the tree: small lengths up to max_code, and the guard. */
  ghost predicate Guarded(dl: seq<nat>, lens: seq<nat>) {
    1 <= |lens| < |dl| && lens <= dl && Small(lens) && dl[|lens|] == GUARD
  }

  lemma TalliedJoin(f0: seq<nat>, f: seq<nat>, r: seq<nat>, a: seq<Op>, b: seq<Op>)
    requires Tallied(f0, f, a) && Tallied(f, r, b)
    ensures Tallied(f0, r, a + b)
  {
    forall s | 0 <= s < |f0|
      ensures r[s] == f0[s] + OpCount(a + b, s)
    {
      OpCountJoin(a, b, s);
    }
  }

  /** Count the symbols that send_tree will send; `dl` has the lengths up to max_code. */
  method ScanTree(dl: seq<nat>, maxCode: nat, freq: seq<nat>) returns (dl': seq<nat>, f: seq<nat>)
    requires maxCode + 1 < |dl| && Small(dl[..maxCode + 1]) && 19 <= |freq|
    requires forall s :: 0 <= s < 19 ==> freq[s] + maxCode + 1 <= 65535
    ensures dl' == dl[maxCode + 1 := GUARD] && Guarded(dl', dl[..maxCode + 1])
    ensures Tallied(freq, f, TreeOps(dl[..maxCode + 1], 0, -1))
  {
    hide RunOps, TreeOps, OpCount, Add16;
    ghost var lens := dl[..maxCode + 1];
    f := freq;
    var prevlen: int := -1;
    var nextlen, count, maxCount, minCount := dl[0], 0, 7, 4;
    if nextlen == 0 { maxCount, minCount := 138, 3; }
    dl' := dl[maxCode + 1 := GUARD];
    var n := 0;
    ghost var i, done := 0, [];
    NoCount(freq);
    TreeOpsFew(lens, 0, -1);
    while n <= maxCode
      invariant 0 <= n <= |lens| == maxCode + 1 && i <= n && 0 <= count
      invariant n < |lens| ==> nextlen == lens[n]
      invariant AtRun(lens, i, n, count, prevlen, maxCount, minCount)
      invariant TreeOps(lens, 0, -1) == done + TreeOps(lens, i, prevlen)
      invariant Tallied(freq, f, done)
    {
      var curlen := nextlen;
      nextlen := dl'[n + 1];
      count := count + 1;
      if count < maxCount && curlen == nextlen {
        n := n + 1;
        continue;
      }
      RunEnds(lens, i, n, count - 1, prevlen, maxCount, minCount);
      ghost var ops := RunOps(curlen, prevlen, count);
      RoomFor(freq, f, done, ops, lens, TreeOps(lens, n + 1, curlen));
      ghost var f0 := f;
      f := ScanRun(f, curlen, prevlen, count, minCount);
      TalliedJoin(freq, f0, f, done, ops);
      ConcatAssoc(done, ops, TreeOps(lens, n + 1, curlen));
      done := done + ops;
      i := n + 1;
      count, prevlen := 0, curlen;
      if nextlen == 0 {
        maxCount, minCount := 138, 3;
      } else if curlen == nextlen {
        maxCount, minCount := 6, 3;
      } else {
        maxCount, minCount := 7, 4;
      }
      n := n + 1;
    }
    NoMore(lens, prevlen);
    assert done + [] == done;
  }

  lemma NoCount(freq: seq<nat>)
    ensures Tallied(freq, freq, [])
  {
  }

  lemma NoMore(lens: seq<nat>, prev: int)
    ensures TreeOps(lens, |lens|, prev) == []
  {
  }

  lemma RoomFor(freq: seq<nat>, f: seq<nat>, done: seq<Op>, ops: seq<Op>, lens: seq<nat>, more: seq<Op>)
    requires Tallied(freq, f, done) && |done| + |ops| + |more| <= |lens| && 19 <= |freq|
    requires forall s :: 0 <= s < 19 ==> freq[s] + |lens| <= 65535
    ensures forall s :: 0 <= s < 19 ==> f[s] + |ops| <= 65535
  {
    forall s: nat | s < 19
      ensures f[s] + |ops| <= 65535
    {
      assert OpCount(done, s) <= |done|;
    }
  }

  // ---- send_tree ----

  /** A tree of codes ready to be sent: Len and Code of every symbol. */
  ghost predicate CodeTable(fc: seq<nat>, dl: seq<nat>, lens: seq<nat>) {
    && |lens| <= |fc| == |dl| && lens <= dl && Small(lens)
    && forall n :: 0 <= n < |lens| ==> HasCode(fc[n], lens, n)
  }

  /** send_code(c, tree) */
  method SendCode(w: BitWriter, c: nat, fc: seq<nat>, dl: seq<nat>, ghost lens: seq<nat>)
    requires w.Valid() && CodeTable(fc, dl, lens) && c < |lens| && lens[c] > 0
    modifies w
    ensures w.Valid() && w.Bits() == old(w.Bits()) + CodeBits(lens, c)
  {
    w.SendBits(fc[c], dl[c]);
  }

  /** A code and its extra bits. */
  method SendOp(w: BitWriter, o: Op, fc: seq<nat>, dl: seq<nat>, ghost cl: seq<nat>)
    requires w.Valid() && CodeTable(fc, dl, cl) && HasOp(cl, o)
    modifies w
    ensures w.Valid() && w.Bits() == old(w.Bits()) + OpBits(cl, o)
  {
    hide CodeTable, CodeBits;
    ghost var bits := w.Bits();
    SendCode(w, o.s, fc, dl, cl);
    if o.s >= 16 {
      w.SendBits(o.x, ExtraBits(o.s));
      ConcatAssoc(bits, CodeBits(cl, o.s), BitsOf(o.x, ExtraBits(o.s)));
    } else {
      assert OpBits(cl, o) == CodeBits(cl, o.s);
    }
  }

  lemma SnocBits(cl: seq<nat>, ops: seq<Op>, o: Op)
    requires HasOps(cl, ops) && HasOp(cl, o)
    ensures HasOps(cl, ops + [o]) && OpsBits(cl, ops + [o]) == OpsBits(cl, ops) + OpBits(cl, o)
  {
    OpsBitsJoin(cl, ops, [o]);
    assert [o][1..] == [];
    assert OpsBits(cl, [o]) == OpBits(cl, o) + [];
  }

  /** The single codes of a short run (trees.c:760). */
  method SendSingles(w: BitWriter, cur: nat, count0: nat, fc: seq<nat>, dl: seq<nat>, ghost cl: seq<nat>)
    requires w.Valid() && CodeTable(fc, dl, cl) && HasOps(cl, seq(count0, _ => Op(cur, 0))) && count0 >= 1
    modifies w
    ensures w.Valid() && w.Bits() == old(w.Bits()) + OpsBits(cl, seq(count0, _ => Op(cur, 0)))
  {
    hide CodeTable, OpBits, OpsBits;
    var count := count0;
    ghost var done: seq<Op> := [];
    NoOpsBits(cl);
    assert HasOp(cl, seq(count0, _ => Op(cur, 0))[0]);
    while count != 0
      invariant 0 <= count <= count0 && w.Valid() && done == seq(count0 - count, _ => Op(cur, 0))
      invariant HasOps(cl, done) && w.Bits() == old(w.Bits()) + OpsBits(cl, done)
    {
      ghost var bits := w.Bits();
      SendOp(w, Op(cur, 0), fc, dl, cl);
      SnocBits(cl, done, Op(cur, 0));
      ConcatAssoc(old(w.Bits()), OpsBits(cl, done), OpBits(cl, Op(cur, 0)));
      done := done + [Op(cur, 0)];
      count := count - 1;
    }
    assert done == seq(count0, _ => Op(cur, 0));
  }

  lemma NoOpsBits(cl: seq<nat>)
    ensures OpsBits(cl, []) == []
  {
  }

  lemma OneOpBits(cl: seq<nat>, o: Op)
    requires HasOps(cl, [o])
    ensures HasOp(cl, o) && OpsBits(cl, [o]) == OpBits(cl, o)
  {
    assert HasOp(cl, [o][0]);
    assert OpsBits(cl, [o]) == OpBits(cl, o) + OpsBits(cl, []);
  }

  lemma TwoOpBits(cl: seq<nat>, a: Op, b: Op)
    requires HasOps(cl, [a, b])
    ensures HasOp(cl, a) && HasOp(cl, b) && OpsBits(cl, [a, b]) == OpBits(cl, a) + OpBits(cl, b)
  {
    assert HasOp(cl, [a, b][0]) && HasOp(cl, [a, b][1]);
    assert [a, b] == [a] + [b];
    OneOpBits(cl, a);
    OneOpBits(cl, b);
    OpsBitsJoin(cl, [a], [b]);
  }

  /** One run of equal lengths (trees.c:759-774). */
  method SendRun(w: BitWriter, cur: nat, prev: int, count: nat, minCount: nat, fc: seq<nat>, dl: seq<nat>,
                 ghost cl: seq<nat>)
    requires w.Valid() && CodeTable(fc, dl, cl) && 1 <= count <= MaxCount(cur, prev) && minCount == MinCount(cur, prev)
    requires HasOps(cl, RunOps(cur, prev, count))
    modifies w
    ensures w.Valid() && w.Bits() == old(w.Bits()) + OpsBits(cl, RunOps(cur, prev, count))
  {
    hide CodeTable, OpBits, OpsBits, HasOps, HasOp;
    if count < minCount {
      SendSingles(w, cur, count, fc, dl, cl);
    } else if cur != 0 {
      if cur != prev {
        TwoOpBits(cl, Op(cur, 0), Op(REP_3_6, count - 4));
        ghost var bits := w.Bits();
        SendOp(w, Op(cur, 0), fc, dl, cl);
        SendOp(w, Op(REP_3_6, count - 4), fc, dl, cl);
        ConcatAssoc(bits, OpBits(cl, Op(cur, 0)), OpBits(cl, Op(REP_3_6, count - 4)));
      } else {
        OneOpBits(cl, Op(REP_3_6, count - 3));
        SendOp(w, Op(REP_3_6, count - 3), fc, dl, cl);
      }
    } else if count <= 10 {
      OneOpBits(cl, Op(REPZ_3_10, count - 3));
      SendOp(w, Op(REPZ_3_10, count - 3), fc, dl, cl);
    } else {
      OneOpBits(cl, Op(REPZ_11_138, count - 11));
      SendOp(w, Op(REPZ_11_138, count - 11), fc, dl, cl);
    }
  }

  lemma SplitOps(cl: seq<nat>, a: seq<Op>, b: seq<Op>)
    requires HasOps(cl, a + b)
    ensures HasOps(cl, a) && HasOps(cl, b)
  {
    forall i | 0 <= i < |a| ensures HasOp(cl, a[i]) { assert (a + b)[i] == a[i]; }
    forall i | 0 <= i < |b| ensures HasOp(cl, b[i]) { assert (a + b)[|a| + i] == b[i]; }
  }

  lemma GrowOps(cl: seq<nat>, bits: seq<bool>, done: seq<Op>, ops: seq<Op>)
    requires HasOps(cl, done) && HasOps(cl, ops)
    ensures HasOps(cl, done + ops)
    ensures (bits + OpsBits(cl, done)) + OpsBits(cl, ops) == bits + OpsBits(cl, done + ops)
  {
    OpsBitsJoin(cl, done, ops);
    ConcatAssoc(bits, OpsBits(cl, done), OpsBits(cl, ops));
  }

  /** Send the lengths of a tree that scan_tree has scanned, with the codes (blfc, bldl) of the code length tree. */
  method SendTree(w: BitWriter, dl: seq<nat>, maxCode: nat, blfc: seq<nat>, bldl: seq<nat>, ghost cl: seq<nat>)
    requires w.Valid() && CodeTable(blfc, bldl, cl) && maxCode + 1 < |dl| && Guarded(dl, dl[..maxCode + 1])
    requires HasOps(cl, TreeOps(dl[..maxCode + 1], 0, -1))
    modifies w
    ensures w.Valid() && w.Bits() == old(w.Bits()) + OpsBits(cl, TreeOps(dl[..maxCode + 1], 0, -1))
  {
    hide RunOps, TreeOps, OpsBits, HasOps, CodeTable;
    ghost var lens := dl[..maxCode + 1];
    var prevlen: int := -1;
    var nextlen, count, maxCount, minCount := dl[0], 0, 7, 4;
    if nextlen == 0 { maxCount, minCount := 138, 3; }
    var n := 0;
    ghost var i := 0;
    ghost var done: seq<Op> := [];
    HasNone(cl);
    while n <= maxCode
      invariant 0 <= n <= |lens| == maxCode + 1 && i <= n && 0 <= count
      invariant n < |lens| ==> nextlen == lens[n]
      invariant AtRun(lens, i, n, count, prevlen, maxCount, minCount)
      invariant TreeOps(lens, 0, -1) == done + TreeOps(lens, i, prevlen)
      invariant HasOps(cl, done) && HasOps(cl, TreeOps(lens, i, prevlen))
      invariant w.Valid() && w.Bits() == old(w.Bits()) + OpsBits(cl, done)
    {
      var curlen := nextlen;
      nextlen := dl[n + 1];
      count := count + 1;
      if count < maxCount && curlen == nextlen {
        n := n + 1;
        continue;
      }
      RunEnds(lens, i, n, count - 1, prevlen, maxCount, minCount);
      ghost var ops := RunOps(curlen, prevlen, count);
      SplitOps(cl, ops, TreeOps(lens, n + 1, curlen));
      SendRun(w, curlen, prevlen, count, minCount, blfc, bldl, cl);
      GrowOps(cl, old(w.Bits()), done, ops);
      ConcatAssoc(done, ops, TreeOps(lens, n + 1, curlen));
      done := done + ops;
      i := n + 1;
      count, prevlen := 0, curlen;
      if nextlen == 0 {
        maxCount, minCount := 138, 3;
      } else if curlen == nextlen {
        maxCount, minCount := 6, 3;
      } else {
        maxCount, minCount := 7, 4;
      }
      n := n + 1;
    }
    NoMore(lens, prevlen);
    assert done + [] == done;
  }

  lemma HasNone(cl: seq<nat>)
    ensures HasOps(cl, []) && OpsBits(cl, []) == []
  {
  }
}
