/** A dynamic block as a whole: the header of send_all_trees, the trees, the tokens, and their decoding. */
module DynamicCode {
  import opened Bitstring
  import opened Codes
  import opened Rfc1951
  import opened TokenCode
  import opened TreeCode
  import opened InflateTrees

  // ---- complete codes ----

  /** A complete code is accepted by the decoder, whatever the limit it was made for. */
  lemma CompleteAccepted(lens: seq<nat>, m: nat)
    requires Complete(lens, m) && m >= 1
    ensures MaxLen(lens) > 0 && Accepts(lens)
  {
    var g := MaxLen(lens);
    MaxLenAtMost(lens, m);
    UsedAbove(lens, g, m);
    ScalePow(g, m - g);
    ScaleCancel(Used(lens, g), Pow2(g), m - g);
    ScaleCancel(Pow2(g), Used(lens, g), m - g);
  }

  // ---- the code length code lengths ----

  /** The symbol whose length stands at place `j`. */
  ghost function OrderAt(j: nat): (r: nat)
    requires j < 19
    ensures r < 19 && r == CL_ORDER[j]
  {
    OrderPlaces();
    CL_ORDER[j]
  }

  ghost function OrderBits(cl: seq<nat>, j: nat, nb: nat): seq<bool>
    requires |cl| == 19 && j <= nb <= 19
    decreases nb - j
  {
    if j == nb then []
    else BitsOf(cl[OrderAt(j)], 3) + OrderBits(cl, j + 1, nb)
  }

  lemma {:induction false} OrderBitsSnoc(cl: seq<nat>, j: nat, nb: nat)
    requires |cl| == 19 && j <= nb < 19
    ensures OrderAt(nb) < 19 && OrderBits(cl, j, nb + 1) == OrderBits(cl, j, nb) + BitsOf(cl[OrderAt(nb)], 3)
    decreases nb - j
  {
    OrderPlaces();
    if j < nb {
      OrderBitsSnoc(cl, j + 1, nb);
    } else {
      assert OrderBits(cl, nb + 1, nb + 1) == [];
    }
  }

  lemma {:induction false} OrderBitsLen(cl: seq<nat>, j: nat, nb: nat)
    requires |cl| == 19 && j <= nb <= 19
    ensures |OrderBits(cl, j, nb)| == 3 * (nb - j)
    decreases nb - j
  {
    if j < nb { OrderBitsLen(cl, j + 1, nb); }
  }

  /** The reader has the first `j` lengths, and zeros for the others. */
  ghost predicate HalfRead(cl: seq<nat>, z: seq<nat>, j: nat)
    requires j <= 19
  {
    && |cl| == |z| == 19
    && (forall i :: 0 <= i < j ==> z[OrderAt(i)] == cl[OrderAt(i)])
    && (forall i :: j <= i < 19 ==> z[OrderAt(i)] == 0)
  }

  lemma HalfStep(cl: seq<nat>, z: seq<nat>, j: nat)
    requires j < 19 && HalfRead(cl, z, j)
    ensures OrderAt(j) < 19 && HalfRead(cl, z[OrderAt(j) := cl[OrderAt(j)]], j + 1)
  {
    OrderPlaces();
  }

  lemma HalfEnd(cl: seq<nat>, z: seq<nat>, nb: nat)
    requires nb <= 19 && HalfRead(cl, z, nb) && forall i :: nb <= i < 19 ==> cl[OrderAt(i)] == 0
    ensures z == cl
  {
    OrderPlaces();
    forall p | 0 <= p < 19
      ensures z[p] == cl[p]
    {
      assert OrderAt(CL_PLACE[p]) == p;
    }
  }

  lemma {:induction false} OrderDecodes(cl: seq<nat>, z: seq<nat>, j: nat, nb: nat, rest: seq<bool>)
    requires |cl| == |z| == 19 && j <= nb <= 19 && HalfRead(cl, z, j)
    requires forall i :: 0 <= i < 19 ==> cl[i] <= 7
    requires forall i :: nb <= i < 19 ==> cl[OrderAt(i)] == 0
    ensures |OrderBits(cl, j, nb) + rest| >= 3 * (nb - j) && RefOrder(OrderBits(cl, j, nb) + rest, nb, j, z) == cl
    decreases nb - j
  {
    hide HalfRead, RefOrder, ValOf, BitsOf, CL_ORDER;
    OrderPlaces();
    OrderBitsLen(cl, j, nb);
    if j == nb {
      HalfEnd(cl, z, nb);
      RefOrderEnd(OrderBits(cl, j, nb) + rest, nb, z);
    } else {
      HalfStep(cl, z, j);
      var x, more := cl[OrderAt(j)], OrderBits(cl, j + 1, nb) + rest;
      ConcatAssoc(BitsOf(x, 3), OrderBits(cl, j + 1, nb), rest);
      ThreeRead(x, more);
      RefOrderStep(OrderBits(cl, j, nb) + rest, nb, j, z);
      OrderDecodes(cl, z[OrderAt(j) := x], j + 1, nb, rest);
    }
  }

  lemma ThreeRead(x: nat, more: seq<bool>)
    requires x <= 7
    ensures var bits := BitsOf(x, 3) + more; ValOf(bits[..3]) == x && bits[3..] == more
  {
    Pow2Values();
    ExtraRead(x, 3, more);
  }

  // ---- the header and the lengths ----

  /** Lengths of the literal, distance and code length codes that can be sent with `nb` code length code lengths. */
  ghost predicate TreesOk(ll: seq<nat>, dl: seq<nat>, cl: seq<nat>, nb: nat) {
    && 257 <= |ll| <= 286 && 1 <= |dl| <= 30 && |cl| == 19 && 4 <= nb <= 19
    && Small(ll) && Small(dl) && (forall i :: 0 <= i < 19 ==> cl[i] <= 7)
    && Complete(ll, 15) && Complete(dl, 15) && Complete(cl, 7)
    && (forall i :: nb <= i < 19 ==> cl[OrderAt(i)] == 0)
    && HasOps(cl, TreeOps(ll, 0, -1)) && HasOps(cl, TreeOps(dl, 0, -1))
  }

  ghost function CountBits(nl: nat, nd: nat, nb: nat): (r: seq<bool>)
    requires 257 <= nl && 1 <= nd && 4 <= nb
    ensures |r| == 14
  {
    BitsOf(nl - 257, 5) + (BitsOf(nd - 1, 5) + BitsOf(nb - 4, 4))
  }

  ghost function LengthsBits(ll: seq<nat>, dl: seq<nat>, cl: seq<nat>): seq<bool>
    requires HasOps(cl, TreeOps(ll, 0, -1)) && HasOps(cl, TreeOps(dl, 0, -1))
  {
    OpsBits(cl, TreeOps(ll, 0, -1)) + OpsBits(cl, TreeOps(dl, 0, -1))
  }

  ghost function HeaderBits(ll: seq<nat>, dl: seq<nat>, cl: seq<nat>, nb: nat): seq<bool>
    requires TreesOk(ll, dl, cl, nb)
  {
    CountBits(|ll|, |dl|, nb) + (OrderBits(cl, 0, nb) + LengthsBits(ll, dl, cl))
  }

  /** The two trees are read back as one list of lengths. */
  lemma LengthsDecode(ll: seq<nat>, dl: seq<nat>, cl: seq<nat>, rest: seq<bool>)
    requires Small(ll) && Small(dl) && Complete(cl, 7)
    requires HasOps(cl, TreeOps(ll, 0, -1)) && HasOps(cl, TreeOps(dl, 0, -1))
    ensures RefLengths(cl, |ll| + |dl|, [], 0, LengthsBits(ll, dl, cl) + rest) == Got(ll + dl, rest)
  {
    hide RefLengths, TreeOps, OpsLens, OpsBits, OpsLast, Small, HasOps;
    var a, b, n := TreeOps(ll, 0, -1), TreeOps(dl, 0, -1), |ll| + |dl|;
    var last := OpsLast(a, 0);
    TreeOpsMean(ll, 0, -1, 0);
    TreeOpsMean(dl, 0, -1, last);
    assert ll[0..] == ll && dl[0..] == dl && [] + ll == ll;
    ConcatAssoc(OpsBits(cl, a), OpsBits(cl, b), rest);
    OpsDecode(cl, 7, n, [], 0, a, OpsBits(cl, b) + rest);
    OpsDecode(cl, 7, n, ll, last, b, rest);
    LengthsEnd(cl, n, ll + dl, OpsLast(b, last), rest);
  }

  lemma CodedDecodes(ll: seq<nat>, dl: seq<nat>, cl: seq<nat>, out: seq<byte>, rest: seq<bool>, r: Outcome)
    requires Small(ll) && Small(dl) && Complete(ll, 15) && Complete(dl, 15) && Complete(cl, 7) && |ll| > 0
    requires HasOps(cl, TreeOps(ll, 0, -1)) && HasOps(cl, TreeOps(dl, 0, -1))
    requires RefCodes(ll, dl, out, rest) == r
    ensures RefCoded(cl, |ll|, |dl|, out, LengthsBits(ll, dl, cl) + rest) == r
  {
    hide RefLengths, TreeOps, LengthsBits, Small, HasOps, RefCodes, Accepts, MaxLen, Complete;
    CompleteAccepted(ll, 15);
    CompleteAccepted(dl, 15);
    CompleteAccepted(cl, 7);
    LengthsDecode(ll, dl, cl, rest);
    assert (ll + dl)[..|ll|] == ll && (ll + dl)[|ll|..] == dl;
  }

  lemma CountRead(nl: nat, nd: nat, nb: nat, rest: seq<bool>)
    requires 257 <= nl <= 286 && 1 <= nd <= 30 && 4 <= nb <= 19
    ensures var bits := CountBits(nl, nd, nb) + rest;
            && |bits| >= 14 && nl == 257 + ValOf(bits[..5]) && nd == 1 + ValOf(bits[5..10])
            && nb == 4 + ValOf(bits[10..14])
            && bits[14..] == rest
  {
    hide BitsOf, ValOf;
    Pow2Values();
    var a, b, c := BitsOf(nl - 257, 5), BitsOf(nd - 1, 5), BitsOf(nb - 4, 4);
    var bits := CountBits(nl, nd, nb) + rest;
    assert bits == a + (b + (c + rest));
    ExtraRead(nl - 257, 5, b + (c + rest));
    ExtraRead(nd - 1, 5, c + rest);
    ExtraRead(nb - 4, 4, rest);
    assert bits[5..10] == bits[5..][..5] && bits[10..14] == bits[5..][5..][..4] && bits[14..] == bits[5..][5..][4..];
  }

  lemma NothingRead(cl: seq<nat>)
    requires |cl| == 19
    ensures HalfRead(cl, Repeat(0, 19), 0)
  {
    OrderPlaces();
  }

  /** The reference decoder reads a dynamic block back. */
  lemma DynamicDecodes(ll: seq<nat>, dl: seq<nat>, cl: seq<nat>, nb: nat, ts: seq<Token>, out: seq<byte>,
                       rest: seq<bool>)
    requires TreesOk(ll, dl, cl, nb) && AllCoded(ll, dl, ts) && AllReach(out, ts) && ll[END_BLOCK] > 0
    ensures RefDynamic(out, (HeaderBits(ll, dl, cl, nb) + BlockBits(ll, dl, ts)) + rest) == Done(Expand(out, ts), rest)
  {
    hide RefCodes, BlockBits, Expand, AllReach, AllCoded, LengthsBits, CountBits, RefCoded, ValOf, OrderBits, RefOrder,
         CL_ORDER,
         Complete, HasOps, TreeOps, Small;
    var c, o, l, b := CountBits(|ll|, |dl|, nb), OrderBits(cl, 0, nb), LengthsBits(ll, dl, cl), BlockBits(ll, dl, ts);
    var more := l + (b + rest);
    FitsComplete(ll, 15);
    FitsComplete(dl, 15);
    BlockDecodes(ll, dl, 15, ts, out, rest);
    CodedDecodes(ll, dl, cl, out, b + rest, Done(Expand(out, ts), rest));
    NothingRead(cl);
    OrderPlaces();
    OrderDecodes(cl, Repeat(0, 19), 0, nb, more);
    CountRead(|ll|, |dl|, nb, o + more);
    RegroupHeader(c, o, l, b, rest);
    OrderBitsLen(cl, 0, nb);
    assert (o + more)[3 * nb..] == more;
    HeaderRead(c + (o + more), out, |ll|, |dl|, nb, o + more, more, cl);
  }

  lemma FitsComplete(lens: seq<nat>, m: nat)
    requires Complete(lens, m)
    ensures Fits(lens, m)
  {
  }

  lemma RegroupHeader(c: seq<bool>, o: seq<bool>, l: seq<bool>, b: seq<bool>, rest: seq<bool>)
    ensures ((c + (o + l)) + b) + rest == c + (o + (l + (b + rest)))
  {
  }

  lemma HeaderRead(bits: seq<bool>, out: seq<byte>, nl: nat, nd: nat, nb: nat, a: seq<bool>, more: seq<bool>,
                   cl: seq<nat>)
    requires |bits| >= 14 && nl == 257 + ValOf(bits[..5]) <= 286 && nd == 1 + ValOf(bits[5..10]) <= 30
    requires nb == 4 + ValOf(bits[10..14]) <= 19 && bits[14..] == a && |a| >= 3 * nb && a[3 * nb..] == more
    requires RefOrder(a, nb, 0, Repeat(0, 19)) == cl
    ensures RefDynamic(out, bits) == RefCoded(cl, nl, nd, out, more)
  {
    hide ValOf, RefOrder, RefCoded;
    assert bits[14..][3 * nb..] == bits[14 + 3 * nb..];
  }
}
