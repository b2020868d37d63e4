/** Huffman's construction on weights alone, and why no other code is shorter. */
module Huffman {
  import opened Bitstring

  // ---- the smallest weight ----

  ghost predicate IsMin(ws: multiset<nat>, x: nat) {
    x in ws && forall y :: y in ws ==> x <= y
  }

  lemma {:induction false} MinExists(ws: multiset<nat>)
    requires |ws| > 0
    ensures exists x :: IsMin(ws, x)
    decreases |ws|
  {
    var y :| y in ws;
    var rest := ws - multiset{y};
    assert ws == rest + multiset{y};
    if |rest| == 0 {
      assert IsMin(ws, y);
    } else {
      MinExists(rest);
      var x :| IsMin(rest, x);
      assert IsMin(ws, if x <= y then x else y);
    }
  }

  ghost function MinOf(ws: multiset<nat>): (x: nat)
    requires |ws| > 0
    ensures IsMin(ws, x)
  {
    MinExists(ws);
    var x :| IsMin(ws, x);
    x
  }

  /** The two smallest weights replaced by their sum. */
  ghost function Reduced(ws: multiset<nat>): (r: multiset<nat>)
    requires |ws| >= 2
    ensures |r| == |ws| - 1
  {
    var a := MinOf(ws);
    var b := MinOf(ws - multiset{a});
    ws - multiset{a} - multiset{b} + multiset{a + b}
  }

  ghost function PairWeight(ws: multiset<nat>): nat
    requires |ws| >= 2
  {
    var a := MinOf(ws);
    a + MinOf(ws - multiset{a})
  }

  /** Cost of repeatedly merging the two smallest weights: the sum of all merged weights. */
  ghost function HuffCost(ws: multiset<nat>): nat
    decreases |ws|
  {
    if |ws| <= 1 then 0 else PairWeight(ws) + HuffCost(Reduced(ws))
  }

  lemma HuffStep(ws: multiset<nat>, a: nat, b: nat)
    requires |ws| >= 2 && IsMin(ws, a) && IsMin(ws - multiset{a}, b)
    ensures HuffCost(ws) == (a + b) + HuffCost(ws - multiset{a} - multiset{b} + multiset{a + b})
  {
    hide HuffCost, IsMin;
    MinUnique(ws, a);
    MinUnique(ws - multiset{a}, b);
    HuffUnfold(ws);
  }

  lemma HuffUnfold(ws: multiset<nat>)
    requires |ws| >= 2
    ensures HuffCost(ws) == PairWeight(ws) + HuffCost(Reduced(ws))
  {
    hide PairWeight, Reduced;
  }

  lemma MinUnique(ws: multiset<nat>, a: nat)
    requires IsMin(ws, a)
    ensures |ws| > 0 && MinOf(ws) == a
  {
  }

  // ---- sums over codes ----

  /** Total length of the codes, weighted. */
  function Dot(ws: seq<nat>, ls: seq<nat>): nat
    requires |ws| == |ls|
  {
    if |ws| == 0 then 0 else Dot(ws[..|ws| - 1], ls[..|ls| - 1]) + ws[|ws| - 1] * ls[|ls| - 1]
  }

  ghost predicate AtMost(ls: seq<nat>, m: nat) {
    forall i :: 0 <= i < |ls| ==> ls[i] <= m
  }

  /** Kraft's sum in units of 2^-m; a code of no bits takes everything. */
  function Kraft(ls: seq<nat>, m: nat): nat {
    if |ls| == 0 then 0 else Kraft(ls[..|ls| - 1], m) + (if ls[|ls| - 1] <= m then Pow2(m - ls[|ls| - 1]) else 0)
  }

  function Del(s: seq<nat>, i: nat): (r: seq<nat>)
    requires i < |s|
    ensures |r| == |s| - 1
  {
    s[..i] + s[i + 1..]
  }

  lemma DelMultiset(s: seq<nat>, i: nat)
    requires i < |s|
    ensures multiset(Del(s, i)) == multiset(s) - multiset{s[i]}
  {
    assert s == s[..i] + [s[i]] + s[i + 1..];
    assert multiset(s) == multiset(s[..i]) + multiset{s[i]} + multiset(s[i + 1..]);
  }

  lemma {:induction false} DotDel(ws: seq<nat>, ls: seq<nat>, i: nat)
    requires |ws| == |ls| && i < |ws|
    ensures Dot(ws, ls) == Dot(Del(ws, i), Del(ls, i)) + ws[i] * ls[i]
  {
    var n := |ws| - 1;
    if i < n {
      DotDel(ws[..n], ls[..n], i);
      assert Del(ws, i)[..n - 1] == Del(ws[..n], i) && Del(ls, i)[..n - 1] == Del(ls[..n], i);
    } else {
      assert Del(ws, i) == ws[..n] && Del(ls, i) == ls[..n];
    }
  }

  lemma {:induction false} KraftDel(ls: seq<nat>, i: nat, m: nat)
    requires i < |ls| && ls[i] <= m
    ensures Kraft(ls, m) == Kraft(Del(ls, i), m) + Pow2(m - ls[i])
  {
    var n := |ls| - 1;
    if i < n {
      KraftDel(ls[..n], i, m);
      assert Del(ls, i)[..n - 1] == Del(ls[..n], i);
    } else {
      assert Del(ls, i) == ls[..n];
    }
  }

  /** The two lengths exchanged. */
  function Swap(s: seq<nat>, i: nat, k: nat): (r: seq<nat>)
    requires i < |s| && k < |s|
    ensures |r| == |s|
  {
    s[i := s[k]][k := s[i]]
  }

  lemma SwapGain(a: nat, b: nat, x: nat, y: nat)
    requires a <= b && x <= y
    ensures a * y + b * x <= a * x + b * y
  {
    MulSub(b, a, y - x);
    assert a * y == a * x + a * (y - x);
    assert b * y == b * x + b * (y - x);
  }

  lemma MulSub(b: nat, a: nat, d: nat)
    requires a <= b
    ensures a * d <= b * d
  {
  }

  /** Where entry `k` stands once entry `i` is gone. */
  function Past(i: nat, k: nat): int {
    if k < i then k else k - 1
  }

  lemma DelSwap(s: seq<nat>, i: nat, k: nat)
    requires i < |s| && k < |s| && i != k
    ensures var r, p := Swap(s, i, k), Past(i, k);
            && 0 <= p < |s| - 1 && Del(s, i)[p] == s[k] && Del(r, i)[p] == s[i] && r[i] == s[k]
            && Del(Del(s, i), p) == Del(Del(r, i), p)
  {
    var r, p := Swap(s, i, k), Past(i, k);
    var x, y := Del(Del(s, i), p), Del(Del(r, i), p);
    forall j | 0 <= j < |s| - 2
      ensures x[j] == y[j]
    {
    }
  }

  lemma DelAt(s: seq<nat>, i: nat, k: nat)
    requires i < |s| && k < |s| && i != k
    ensures 0 <= Past(i, k) < |s| - 1 && Del(s, i)[Past(i, k)] == s[k]
  {
  }

  /** Giving the longer code to the smaller weight costs nothing. */
  lemma SwapDot(ws: seq<nat>, ls: seq<nat>, i: nat, k: nat)
    requires |ws| == |ls| && i < |ws| && k < |ws| && ws[i] <= ws[k] && ls[i] <= ls[k]
    ensures Dot(ws, Swap(ls, i, k)) <= Dot(ws, ls)
  {
    hide Dot, Del, Swap, Past;
    if i == k {
      SwapSame(ls, i);
    } else {
      var p, r := Past(i, k), Swap(ls, i, k);
      DelSwap(ls, i, k);
      DelAt(ws, i, k);
      DotDel(ws, ls, i);
      DotDel(ws, r, i);
      DotDel(Del(ws, i), Del(ls, i), p);
      DotDel(Del(ws, i), Del(r, i), p);
      SwapGain(ws[i], ws[k], ls[i], ls[k]);
    }
  }

  lemma SwapSame(s: seq<nat>, i: nat)
    requires i < |s|
    ensures Swap(s, i, i) == s
  {
  }

  lemma SwapKraft(ls: seq<nat>, i: nat, k: nat, m: nat)
    requires i < |ls| && k < |ls| && ls[i] <= m && ls[k] <= m
    ensures Kraft(Swap(ls, i, k), m) == Kraft(ls, m)
  {
    hide Kraft, Del, Swap, Past;
    if i == k {
      SwapSame(ls, i);
    } else {
      var p, r := Past(i, k), Swap(ls, i, k);
      DelSwap(ls, i, k);
      KraftDel(ls, i, m);
      KraftDel(r, i, m);
      KraftDel(Del(ls, i), p, m);
      KraftDel(Del(r, i), p, m);
    }
  }

  lemma {:induction false} KraftScale(ls: seq<nat>, m: nat, d: nat)
    requires AtMost(ls, m)
    ensures Kraft(ls, m + d) == Scale(Kraft(ls, m), d)
  {
    if |ls| == 0 {
      ScaleZero(d);
    } else {
      var n := |ls| - 1;
      KraftScale(ls[..n], m, d);
      ScaleAdd(Kraft(ls[..n], m), Pow2(m - ls[n]), d);
      ScalePow(m - ls[n], d);
    }
  }

  lemma {:induction false} ScaleZero(d: nat)
    ensures Scale(0, d) == 0
  {
    if d == 0 {
    } else {
      ScaleZero(d - 1);
    }
  }

  lemma {:induction false} Longest(ls: seq<nat>) returns (k: nat)
    requires |ls| > 0
    ensures k < |ls| && AtMost(ls, ls[k])
  {
    var n := |ls| - 1;
    k := n;
    if n == 0 {
    } else {
      var j := Longest(ls[..n]);
      if ls[j] > ls[n] { k := j; }
    }
  }

  lemma SmallestAt(ws: seq<nat>) returns (i: nat)
    requires |ws| > 0
    ensures i < |ws| && IsMin(multiset(ws), ws[i])
  {
    var x := MinOf(multiset(ws));
    assert x in ws;
    i :| i < |ws| && ws[i] == x;
  }

  /** Take out a smallest weight together with a longest length, without raising the cost. */
  lemma PullSmallest(ws: seq<nat>, ls: seq<nat>, u: nat, m: nat) returns (i: nat, rest: seq<nat>, l: nat)
    requires |ws| == |ls| > 0 && AtMost(ls, u) && u <= m
    ensures i < |ws| && IsMin(multiset(ws), ws[i]) && |rest| == |ws| - 1 && AtMost(rest, l) && l <= u
    ensures Dot(Del(ws, i), rest) + ws[i] * l <= Dot(ws, ls)
    ensures Kraft(rest, m) + Pow2(m - l) == Kraft(ls, m)
  {
    hide Dot, Kraft;
    i := SmallestAt(ws);
    var k := Longest(ls);
    l := ls[k];
    assert ws[i] <= ws[k] by { assert ws[k] in multiset(ws); }
    var ls1 := Swap(ls, i, k);
    SwapDot(ws, ls, i, k);
    SwapKraft(ls, i, k, m);
    rest := Del(ls1, i);
    DotDel(ws, ls1, i);
    KraftDel(ls1, i, m);
  }

  /** The two longest lengths may as well be equal, and then their father has one bit less. */
  lemma FatherFits(rest: seq<nat>, l: nat, l2: nat, m: nat)
    requires AtMost(rest, l2) && l2 <= l <= m && (Kraft(rest, m) + Pow2(m - l2)) + Pow2(m - l) <= Pow2(m)
    ensures l2 >= 1 && Kraft(rest + [l2 - 1], l2) <= Pow2(l2)
  {
    hide Kraft, Scale;
    KraftScale(rest, l2, m - l2);
    var x, d := Kraft(rest, l2), m - l2;
    ScalePow(l2, d);
    ScaleOne(d);
    ScaleAdd(x, 1, d);
    if l == l2 {
      ScaleAdd(x + 1, 1, d);
      ScaleCancel(x + 2, Pow2(l2), d);
    } else {
      ScaleLess(x + 1, Pow2(l2), d);
    }
    assert Pow2(0) == 1;
    KraftSnoc(rest, l2 - 1, l2);
    assert Pow2(1) == 2 * Pow2(0);
  }

  lemma KraftSnoc(ls: seq<nat>, x: nat, m: nat)
    requires x <= m
    ensures Kraft(ls + [x], m) == Kraft(ls, m) + Pow2(m - x)
  {
    assert (ls + [x])[..|ls|] == ls;
  }

  lemma DotSnoc(ws: seq<nat>, ls: seq<nat>, w: nat, l: nat)
    requires |ws| == |ls|
    ensures Dot(ws + [w], ls + [l]) == Dot(ws, ls) + w * l
  {
    assert (ws + [w])[..|ws|] == ws && (ls + [l])[..|ls|] == ls;
  }

  lemma FatherCost(a: nat, b: nat, l: nat, l2: nat)
    requires 1 <= l2 <= l
    ensures (a + b) * (l2 - 1) + (a + b) <= a * l + b * l2
  {
    assert (a + b) * (l2 - 1) + (a + b) == (a + b) * l2 == a * l2 + b * l2;
    MulUp(a, l2, l);
  }

  lemma MulUp(a: nat, x: nat, y: nat)
    requires x <= y
    ensures a * x <= a * y
  {
  }

  lemma MergeMultiset(ws: seq<nat>, i: nat, j: nat, a: nat, b: nat)
    requires i < |ws| && j < |ws| - 1 && a == ws[i] && b == Del(ws, i)[j]
    requires IsMin(multiset(ws), a) && IsMin(multiset(Del(ws, i)), b)
    ensures var ws' := Del(Del(ws, i), j) + [a + b];
            HuffCost(multiset(ws)) == (a + b) + HuffCost(multiset(ws'))
  {
    hide HuffCost, Del;
    var w1 := Del(ws, i);
    DelMultiset(ws, i);
    DelMultiset(w1, j);
    HuffStep(multiset(ws), a, b);
    var w2 := Del(w1, j);
    assert multiset(w2 + [a + b]) == multiset(w2) + multiset{a + b};
  }

  /** No prefix code for the weights is cheaper than Huffman's construction. */
  lemma {:induction false} HuffLower(ws: seq<nat>, ls: seq<nat>, m: nat)
    requires |ws| == |ls| > 0 && AtMost(ls, m) && Kraft(ls, m) <= Pow2(m)
    ensures HuffCost(multiset(ws)) <= Dot(ws, ls)
    decreases |ws|
  {
    hide HuffCost, Dot, Kraft, Del, IsMin, AtMost;
    if |ws| == 1 {
      OneWeight(ws);
    } else {
      var i, r1, l := PullSmallest(ws, ls, m, m);
      var w1, a := Del(ws, i), ws[i];
      var j, r2, l2 := PullSmallest(w1, r1, l, m);
      var w2, b := Del(w1, j), w1[j];
      FatherFits(r2, l, l2, m);
      FatherAtMost(r2, l2);
      HuffLower(w2 + [a + b], r2 + [l2 - 1], l2);
      DotSnoc(w2, r2, a + b, l2 - 1);
      FatherCost(a, b, l, l2);
      MergeMultiset(ws, i, j, a, b);
    }
  }

  lemma OneWeight(ws: seq<nat>)
    requires |ws| == 1
    ensures HuffCost(multiset(ws)) == 0
  {
    assert ws == [ws[0]];
  }

  lemma FatherAtMost(r: seq<nat>, l: nat)
    requires AtMost(r, l) && l >= 1
    ensures AtMost(r + [l - 1], l)
  {
  }

  // ---- the cost is reached ----

  function Ins(s: seq<nat>, i: nat, x: nat): (r: seq<nat>)
    requires i <= |s|
    ensures |r| == |s| + 1 && r[i] == x && Del(r, i) == s
  {
    s[..i] + [x] + s[i..]
  }

  lemma InsAtMost(s: seq<nat>, i: nat, x: nat, m: nat)
    requires i <= |s| && AtMost(s, m) && x <= m
    ensures AtMost(Ins(s, i, x), m)
  {
  }

  ghost predicate Positive(ls: seq<nat>) {
    forall i :: 0 <= i < |ls| ==> ls[i] >= 1
  }

  lemma InsPositive(s: seq<nat>, i: nat, x: nat)
    requires i <= |s| && Positive(s) && x >= 1
    ensures Positive(Ins(s, i, x))
  {
  }

  /** Two sons in the place of their father. */
  lemma SonsFit(r: seq<nat>, l: nat, i: nat, j: nat, m: nat, ls: seq<nat>)
    requires AtMost(r + [l], m) && Kraft(r + [l], m) <= Pow2(m) && j <= |r| && i <= |r| + 1
    requires ls == Ins(Ins(r, j, l + 1), i, l + 1)
    ensures AtMost(ls, m + 1) && Kraft(ls, m + 1) <= Pow2(m + 1)
  {
    hide Kraft, Scale, Ins, Del;
    assert (r + [l])[|r|] == l;
    AtMostPart(r, l, m);
    var r1 := Ins(r, j, l + 1);
    InsAtMost(r, j, l + 1, m + 1);
    InsAtMost(r1, i, l + 1, m + 1);
    KraftDel(ls, i, m + 1);
    KraftDel(r1, j, m + 1);
    KraftScale(r + [l], m, 1);
    KraftSnoc(r, l, m + 1);
    ScaleTwice(Kraft(r + [l], m));
    assert Pow2(m + 1 - l) == 2 * Pow2(m - l) && Pow2(m + 1) == 2 * Pow2(m);
  }

  lemma AtMostPart(r: seq<nat>, l: nat, m: nat)
    requires AtMost(r + [l], m)
    ensures AtMost(r, m + 1) && l <= m
  {
    assert (r + [l])[|r|] == l;
    forall i | 0 <= i < |r|
      ensures r[i] <= m
    {
      assert (r + [l])[i] == r[i];
    }
  }

  lemma ScaleTwice(x: nat)
    ensures Scale(x, 1) == 2 * x
  {
    assert Scale(x, 0) == x;
  }

  lemma SonsCost(ws: seq<nat>, i: nat, j: nat, a: nat, b: nat, r: seq<nat>, l: nat, ls: seq<nat>)
    requires i < |ws| && j < |ws| - 1 && a == ws[i] && b == Del(ws, i)[j] && |r| == |ws| - 2
    requires ls == Ins(Ins(r, j, l + 1), i, l + 1)
    ensures Dot(ws, ls) == (a + b) + Dot(Del(Del(ws, i), j) + [a + b], r + [l])
  {
    hide Dot, Ins, Del;
    var w1, r1 := Del(ws, i), Ins(r, j, l + 1);
    DotDel(ws, ls, i);
    DotDel(w1, r1, j);
    DotSnoc(Del(w1, j), r, a + b, l);
    SonsShare(a, b, l);
  }

  lemma SonsShare(a: nat, b: nat, l: nat)
    ensures (a + b) * l + (a + b) == a * (l + 1) + b * (l + 1)
  {
  }

  /** Some prefix code costs what Huffman's construction does. */
  lemma {:induction false} HuffCode(ws: seq<nat>) returns (ls: seq<nat>, m: nat)
    requires |ws| > 0
    ensures |ls| == |ws| && AtMost(ls, m) && Kraft(ls, m) <= Pow2(m) && Dot(ws, ls) == HuffCost(multiset(ws))
    ensures |ws| >= 2 ==> Positive(ls)
    decreases |ws|
  {
    hide HuffCost, Kraft, Dot, Ins, Del, IsMin, AtMost, Positive;
    if |ws| == 1 {
      ls, m := [0], 0;
      OneWeight(ws);
      OneCode(ws);
    } else {
      var i := SmallestAt(ws);
      var w1, a := Del(ws, i), ws[i];
      var j := SmallestAt(w1);
      var w2, b := Del(w1, j), w1[j];
      var k, l, r;
      k, m := HuffCode(w2 + [a + b]);
      r, l := k[..|k| - 1], k[|k| - 1];
      assert k == r + [l];
      ls := Ins(Ins(r, j, l + 1), i, l + 1);
      SonsFit(r, l, i, j, m, ls);
      SonsCost(ws, i, j, a, b, r, l, ls);
      MergeMultiset(ws, i, j, a, b);
      PositivePart(k, r, l);
      InsPositive(r, j, l + 1);
      InsPositive(Ins(r, j, l + 1), i, l + 1);
      m := m + 1;
    }
  }

  lemma PositivePart(k: seq<nat>, r: seq<nat>, l: nat)
    requires k == r + [l] && (|k| >= 2 ==> Positive(k))
    ensures Positive(r)
  {
    forall i | 0 <= i < |r|
      ensures r[i] >= 1
    {
      assert k[i] == r[i];
    }
  }

  lemma OneCode(ws: seq<nat>)
    requires |ws| == 1
    ensures AtMost([0], 0) && Kraft([0], 0) <= Pow2(0) && Dot(ws, [0]) == 0
  {
    assert Kraft([], 0) == 0 && Dot([], []) == 0;
    assert [0][..0] == [] && ws[..0] == [];
  }
}
