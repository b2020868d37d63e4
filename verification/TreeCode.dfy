/** scan_tree and send_tree (trees.c:696-784): the run-length form of the code lengths, and its decoding. */
module TreeCode {
  import opened Bitstring
  import opened Codes
  import opened Rfc1951
  import opened TokenCode

  const REP_3_6 := 16
  const REPZ_3_10 := 17
  const REPZ_11_138 := 18
  const BL_CODES := 19

  /** A symbol of the code length code with the value of its extra bits. */
  datatype Op = Op(s: nat, x: nat)

  function ExtraBits(s: nat): nat {
    if s == 16 then 2 else if s == 17 then 3 else if s == 18 then 7 else 0
  }

  ghost predicate OpOk(o: Op) {
    o.s < BL_CODES && o.x < Pow2(ExtraBits(o.s))
  }

  // ---- what the decoder makes of the symbols ----

  ghost function OpLens(o: Op, last: nat): (r: seq<nat>)
    ensures |r| >= 1
  {
    if o.s < 16 then [o.s]
    else Repeat(if o.s == 16 then last else 0, (if o.s == 18 then 11 else 3) + o.x)
  }

  ghost function OpLast(o: Op, last: nat): nat {
    if o.s < 16 then o.s else if o.s == 16 then last else 0
  }

  ghost function OpsLens(ops: seq<Op>, last: nat): seq<nat> {
    if |ops| == 0 then [] else OpLens(ops[0], last) + OpsLens(ops[1..], OpLast(ops[0], last))
  }

  ghost function OpsLast(ops: seq<Op>, last: nat): nat {
    if |ops| == 0 then last else OpsLast(ops[1..], OpLast(ops[0], last))
  }

  // ---- bits ----

  ghost predicate HasOp(cl: seq<nat>, o: Op) {
    OpOk(o) && o.s < |cl| && cl[o.s] > 0
  }

  ghost predicate HasOps(cl: seq<nat>, ops: seq<Op>) {
    forall i :: 0 <= i < |ops| ==> HasOp(cl, ops[i])
  }

  ghost function OpBits(cl: seq<nat>, o: Op): seq<bool>
    requires HasOp(cl, o)
  {
    CodeBits(cl, o.s) + BitsOf(o.x, ExtraBits(o.s))
  }

  ghost function OpsBits(cl: seq<nat>, ops: seq<Op>): seq<bool>
    requires HasOps(cl, ops)
  {
    if |ops| == 0 then [] else OpBits(cl, ops[0]) + OpsBits(cl, ops[1..])
  }

  lemma {:induction false} OpsBitsJoin(cl: seq<nat>, a: seq<Op>, b: seq<Op>)
    requires HasOps(cl, a) && HasOps(cl, b)
    ensures HasOps(cl, a + b) && OpsBits(cl, a + b) == OpsBits(cl, a) + OpsBits(cl, b)
  {
    hide OpBits, HasOp;
    if |a| == 0 {
      assert a + b == b;
    } else {
      OpsBitsJoin(cl, a[1..], b);
      assert (a + b)[1..] == a[1..] + b;
    }
  }

  lemma SymbolPlain(cl: seq<nat>, n: nat, got: seq<nat>, last: nat, bits: seq<bool>, s: nat, more: seq<bool>)
    requires |got| < n && s < 16 && s < |cl| && ReadSym(cl, bits) == Sym(s) && cl[s] <= |bits| && bits[cl[s]..] == more
    ensures RefLengths(cl, n, got, last, bits) == RefLengths(cl, n, got + [s], s, more)
  {
    hide ReadSym;
  }

  lemma SymbolRun(cl: seq<nat>, n: nat, got: seq<nat>, last: nat, bits: seq<bool>, o: Op, more: seq<bool>,
                  rest: seq<bool>)
    requires |got| < n && 16 <= o.s < 19 && o.s < |cl| && ReadSym(cl, bits) == Sym(o.s) && cl[o.s] <= |bits| &&
             bits[cl[o.s]..] == more
    requires ExtraBits(o.s) <= |more| && ValOf(more[..ExtraBits(o.s)]) == o.x && more[ExtraBits(o.s)..] == rest
    requires |got| + |OpLens(o, last)| <= n
    ensures RefLengths(cl, n, got, last, bits) == RefLengths(cl, n, got + OpLens(o, last), OpLast(o, last), rest)
  {
    hide ReadSym, ValOf;
  }

  lemma OpDecodes(cl: seq<nat>, m: nat, n: nat, got: seq<nat>, last: nat, o: Op, rest: seq<bool>)
    requires Fits(cl, m) && HasOp(cl, o) && |got| + |OpLens(o, last)| <= n
    ensures RefLengths(cl, n, got, last, OpBits(cl, o) + rest) == RefLengths(cl, n, got + OpLens(o, last),
        OpLast(o, last), rest)
  {
    hide ReadSym, RefLengths, CodeBits, ValOf, BitsOf;
    var x := BitsOf(o.x, ExtraBits(o.s));
    ConcatAssoc(CodeBits(cl, o.s), x, rest);
    SymbolRead(cl, m, o.s, x + rest);
    ExtraRead(o.x, ExtraBits(o.s), rest);
    if o.s < 16 {
      assert x + rest == rest;
      SymbolPlain(cl, n, got, last, OpBits(cl, o) + rest, o.s, rest);
    } else {
      SymbolRun(cl, n, got, last, OpBits(cl, o) + rest, o, x + rest, rest);
    }
  }

  /** The reference decoder reads the symbols back as the code lengths they stand for. */
  lemma {:induction false} OpsDecode(cl: seq<nat>, m: nat, n: nat, got: seq<nat>, last: nat, ops: seq<Op>,
                                     rest: seq<bool>)
    requires Fits(cl, m) && HasOps(cl, ops) && |got| + |OpsLens(ops, last)| <= n
    ensures RefLengths(cl, n, got, last, OpsBits(cl, ops) + rest)
            == RefLengths(cl, n, got + OpsLens(ops, last), OpsLast(ops, last), rest)
    decreases |ops|
  {
    hide RefLengths, OpBits, OpLens, OpLast, Fits, HasOp;
    if |ops| == 0 {
      assert OpsBits(cl, ops) + rest == rest && got + [] == got;
    } else {
      var o, t, l := ops[0], ops[1..], OpLens(ops[0], last);
      ConcatAssoc(OpBits(cl, o), OpsBits(cl, t), rest);
      OpDecodes(cl, m, n, got, last, o, OpsBits(cl, t) + rest);
      OpsDecode(cl, m, n, got + l, OpLast(o, last), t, rest);
      assert (got + l) + OpsLens(t, OpLast(o, last)) == got + OpsLens(ops, last);
    }
  }

  // ---- the runs ----

  function MaxCount(cur: nat, prev: int): nat {
    if cur == 0 then 138 else if cur == prev then 6 else 7
  }

  function MinCount(cur: nat, prev: int): nat {
    if cur == 0 || cur == prev then 3 else 4
  }

  /** The symbols for `count` codes of length `cur` behind a code of length `prev`. */
  function RunOps(cur: nat, prev: int, count: nat): seq<Op>
    requires count <= MaxCount(cur, prev)
  {
    if count < MinCount(cur, prev) then seq(count, _ => Op(cur, 0))
    else if cur != 0 then
      if cur != prev then [Op(cur, 0), Op(REP_3_6, count - 4)] else [Op(REP_3_6, count - 3)]
    else if count <= 10 then [Op(REPZ_3_10, count - 3)]
    else [Op(REPZ_11_138, count - 11)]
  }

  lemma {:induction false} Singles(cur: nat, count: nat, last: nat)
    requires cur <= 15
    ensures OpsLens(seq(count, _ => Op(cur, 0)), last) == Repeat(cur, count)
    ensures OpsLast(seq(count, _ => Op(cur, 0)), last) == if count == 0 then last else cur
  {
    var ops := seq(count, _ => Op(cur, 0));
    if count == 0 {
    } else {
      Singles(cur, count - 1, cur);
      assert ops[1..] == seq(count - 1, _ => Op(cur, 0));
      assert [cur] + Repeat(cur, count - 1) == Repeat(cur, count);
    }
  }

  lemma OneOp(o: Op, last: nat)
    ensures OpsLens([o], last) == OpLens(o, last) && OpsLast([o], last) == OpLast(o, last)
  {
    assert [o][1..] == [];
  }

  lemma RunMeans(cur: nat, prev: int, count: nat, last: nat)
    requires cur <= 15 && 1 <= count <= MaxCount(cur, prev) && (cur == prev ==> last == cur)
    ensures OpsLens(RunOps(cur, prev, count), last) == Repeat(cur, count) &&
            OpsLast(RunOps(cur, prev, count), last) == cur
    ensures forall i :: 0 <= i < |RunOps(cur, prev, count)| ==> OpOk(RunOps(cur, prev, count)[i])
  {
    Pow2Values();
    if count < MinCount(cur, prev) {
      Singles(cur, count, last);
    } else if cur != 0 && cur != prev {
      var a, b := Op(cur, 0), Op(REP_3_6, count - 4);
      OneOp(b, cur);
      assert [a, b][1..] == [b];
      assert [cur] + Repeat(cur, count - 1) == Repeat(cur, count);
    } else {
      OneOp(RunOps(cur, prev, count)[0], last);
    }
  }

  lemma {:induction false} OpsLensJoin(a: seq<Op>, b: seq<Op>, last: nat)
    ensures OpsLens(a + b, last) == OpsLens(a, last) + OpsLens(b, OpsLast(a, last))
    ensures OpsLast(a + b, last) == OpsLast(b, OpsLast(a, last))
    decreases |a|
  {
    if |a| == 0 {
      assert a + b == b;
    } else {
      OpsLensJoin(a[1..], b, OpLast(a[0], last));
      assert (a + b)[1..] == a[1..] + b;
    }
  }

  /** Number of equal lengths from `i` on, at most `max`. */
  function RunLen(lens: seq<nat>, i: nat, max: nat): (r: nat)
    requires i < |lens| && max >= 1
    ensures 1 <= r <= max && i + r <= |lens| && forall k :: i <= k < i + r ==> lens[k] == lens[i]
    decreases max
  {
    if max == 1 || i + 1 == |lens| || lens[i + 1] != lens[i] then 1 else 1 + RunLen(lens, i + 1, max - 1)
  }

  lemma {:induction false} RunLenIs(lens: seq<nat>, i: nat, max: nat, c: nat)
    requires i < |lens| && 1 <= c <= max && i + c <= |lens| && forall k :: i <= k < i + c ==> lens[k] == lens[i]
    requires c == max || i + c == |lens| || lens[i + c] != lens[i]
    ensures RunLen(lens, i, max) == c
    decreases max
  {
    if c > 1 {
      assert lens[i + 1] == lens[i];
      RunLenIs(lens, i + 1, max - 1, c - 1);
    }
  }

  /** The symbols for the lengths from `i` on. */
  function TreeOps(lens: seq<nat>, i: nat, prev: int): seq<Op>
    requires i <= |lens|
    decreases |lens| - i
  {
    if i == |lens| then []
    else
      var c := RunLen(lens, i, MaxCount(lens[i], prev));
      RunOps(lens[i], prev, c) + TreeOps(lens, i + c, lens[i])
  }

  ghost predicate Small(lens: seq<nat>) {
    forall i :: 0 <= i < |lens| ==> lens[i] <= 15
  }

  /** The symbols stand for exactly the lengths of the tree. */
  lemma {:induction false} TreeOpsMean(lens: seq<nat>, i: nat, prev: int, last: nat)
    requires i <= |lens| && Small(lens) && (prev == -1 || prev == last)
    ensures OpsLens(TreeOps(lens, i, prev), last) == lens[i..]
    ensures forall k :: 0 <= k < |TreeOps(lens, i, prev)| ==> OpOk(TreeOps(lens, i, prev)[k])
    decreases |lens| - i
  {
    hide OpsLens, RunOps, OpsLast, RunLen, OpOk;
    if i == |lens| {
      NoOps(last);
    } else {
      var c := RunLen(lens, i, MaxCount(lens[i], prev));
      RunMeans(lens[i], prev, c, last);
      TreeOpsMean(lens, i + c, lens[i], lens[i]);
      OpsLensJoin(RunOps(lens[i], prev, c), TreeOps(lens, i + c, lens[i]), last);
      assert Repeat(lens[i], c) + lens[i + c..] == lens[i..];
    }
  }

  lemma NoOps(last: nat)
    ensures OpsLens([], last) == [] && OpsLast([], last) == last
  {
  }

  /** Number of uses of a symbol. */
  function OpCount(ops: seq<Op>, s: nat): (c: nat)
    ensures c <= |ops|
  {
    if |ops| == 0 then 0 else (if ops[0].s == s then 1 else 0) + OpCount(ops[1..], s)
  }

  lemma {:induction false} OpCountJoin(a: seq<Op>, b: seq<Op>, s: nat)
    ensures OpCount(a + b, s) == OpCount(a, s) + OpCount(b, s)
  {
    if |a| == 0 {
      assert a + b == b;
    } else {
      OpCountJoin(a[1..], b, s);
      assert (a + b)[1..] == a[1..] + b;
    }
  }

  lemma {:induction false} OpCountPositive(ops: seq<Op>, k: nat)
    requires k < |ops|
    ensures OpCount(ops, ops[k].s) > 0
  {
    if k == 0 {
    } else {
      OpCountPositive(ops[1..], k - 1);
    }
  }

  lemma RunOpsFew(cur: nat, prev: int, count: nat)
    requires 1 <= count <= MaxCount(cur, prev)
    ensures |RunOps(cur, prev, count)| <= count
  {
  }

  lemma {:induction false} TreeOpsFew(lens: seq<nat>, i: nat, prev: int)
    requires i <= |lens|
    ensures |TreeOps(lens, i, prev)| <= |lens| - i
    decreases |lens| - i
  {
    hide RunOps;
    if i < |lens| {
      var c := RunLen(lens, i, MaxCount(lens[i], prev));
      RunOpsFew(lens[i], prev, c);
      TreeOpsFew(lens, i + c, lens[i]);
    }
  }
}
