/**
 * Depth as the tie breaker: of all the cheapest codes, Huffman's construction makes one with the shortest longest
 * code.
 */
module HuffmanDepth {
  import opened Bitstring
  import opened Huffman

  /** A tree: its weight and its depth. */
  datatype Item = Item(w: nat, d: nat)

  /** By weight, and by depth among equal weights. */
  predicate Before(a: Item, b: Item) {
    a.w < b.w || (a.w == b.w && a.d <= b.d)
  }

  ghost predicate IsFirst(s: multiset<Item>, a: Item) {
    a in s && forall y :: y in s ==> Before(a, y)
  }

  lemma {:induction false} FirstExists(s: multiset<Item>)
    requires |s| > 0
    ensures exists a :: IsFirst(s, a)
    decreases |s|
  {
    var y :| y in s;
    var rest := s - multiset{y};
    assert s == rest + multiset{y};
    if |rest| == 0 {
      assert IsFirst(s, y);
    } else {
      FirstExists(rest);
      var x :| IsFirst(rest, x);
      assert IsFirst(s, if Before(x, y) then x else y);
    }
  }

  ghost function FirstOf(s: multiset<Item>): (a: Item)
    requires |s| > 0
    ensures IsFirst(s, a)
  {
    FirstExists(s);
    var a :| IsFirst(s, a);
    a
  }

  function Join(a: Item, b: Item): Item {
    Item(a.w + b.w, (if a.d >= b.d then a.d else b.d) + 1)
  }

  /** The first two joined. */
  ghost function Joined(s: multiset<Item>): (r: multiset<Item>)
    requires |s| >= 2
    ensures |r| == |s| - 1
  {
    var a := FirstOf(s);
    var b := FirstOf(s - multiset{a});
    s - multiset{a} - multiset{b} + multiset{Join(a, b)}
  }

  /** The depth of the tree that repeated joining makes. */
  ghost function HuffDepth(s: multiset<Item>): nat
    decreases |s|
  {
    if |s| == 0 then 0 else if |s| == 1 then FirstOf(s).d else HuffDepth(Joined(s))
  }

  lemma FirstUnique(s: multiset<Item>, a: Item)
    requires IsFirst(s, a)
    ensures |s| > 0 && FirstOf(s) == a
  {
  }

  lemma DepthUnfold(s: multiset<Item>)
    requires |s| >= 2
    ensures HuffDepth(s) == HuffDepth(Joined(s))
  {
    hide Joined;
  }

  lemma JoinStep(s: multiset<Item>, a: Item, b: Item)
    requires |s| >= 2 && IsFirst(s, a) && IsFirst(s - multiset{a}, b)
    ensures HuffDepth(s) == HuffDepth(s - multiset{a} - multiset{b} + multiset{Join(a, b)})
  {
    hide HuffDepth, IsFirst, Join;
    FirstUnique(s, a);
    FirstUnique(s - multiset{a}, b);
    DepthUnfold(s);
  }

  lemma OneItem(a: Item)
    ensures HuffDepth(multiset{a}) == a.d
  {
    FirstUnique(multiset{a}, a);
  }

  // ---- lists of items, as weights and depths ----

  function Items(ws: seq<nat>, ds: seq<nat>): (r: seq<Item>)
    requires |ws| == |ds|
    ensures |r| == |ws| && forall i :: 0 <= i < |r| ==> r[i] == Item(ws[i], ds[i])
  {
    seq(|ws|, i requires 0 <= i < |ws| => Item(ws[i], ds[i]))
  }

  lemma ItemsDel(ws: seq<nat>, ds: seq<nat>, i: nat)
    requires |ws| == |ds| && i < |ws|
    ensures multiset(Items(Del(ws, i), Del(ds, i))) == multiset(Items(ws, ds)) - multiset{Item(ws[i], ds[i])}
  {
    var s := Items(ws, ds);
    assert Items(Del(ws, i), Del(ds, i)) == s[..i] + s[i + 1..];
    assert s == s[..i] + [s[i]] + s[i + 1..];
    assert multiset(s) == multiset(s[..i]) + multiset{s[i]} + multiset(s[i + 1..]);
  }

  lemma ItemsSnoc(ws: seq<nat>, ds: seq<nat>, a: Item)
    requires |ws| == |ds|
    ensures multiset(Items(ws + [a.w], ds + [a.d])) == multiset(Items(ws, ds)) + multiset{a}
  {
    assert Items(ws + [a.w], ds + [a.d]) == Items(ws, ds) + [a];
  }

  /** Every tree, at its place, reaches no deeper than `top`. */
  ghost predicate Reach(ds: seq<nat>, ls: seq<nat>, top: nat) {
    |ds| == |ls| && forall i :: 0 <= i < |ds| ==> ds[i] + ls[i] <= top
  }

  lemma FirstAt(ws: seq<nat>, ds: seq<nat>) returns (i: nat)
    requires |ws| == |ds| > 0
    ensures i < |ws| && IsFirst(multiset(Items(ws, ds)), Item(ws[i], ds[i])) && IsMin(multiset(ws), ws[i])
  {
    var s := Items(ws, ds);
    var a := FirstOf(multiset(s));
    assert a in s;
    i :| i < |s| && s[i] == a;
    forall y | y in multiset(ws)
      ensures ws[i] <= y
    {
      var j :| 0 <= j < |ws| && ws[j] == y;
      assert s[j] in multiset(s);
      assert Before(a, s[j]);
    }
  }

  lemma SwapEven(a: nat, b: nat, x: nat, y: nat)
    requires a < b && x < y
    ensures a * y + b * x < a * x + b * y
  {
    assert a * y == a * x + a * (y - x);
    assert b * y == b * x + b * (y - x);
    MulStrict(a, b, y - x);
  }

  lemma MulStrict(a: nat, b: nat, d: nat)
    requires a < b && d > 0
    ensures a * d < b * d
  {
  }

  /** A strict gain when a smaller weight gets a longer code. */
  lemma SwapStrict(ws: seq<nat>, ls: seq<nat>, i: nat, k: nat)
    requires |ws| == |ls| && i < |ws| && k < |ws| && ws[i] < ws[k] && ls[i] < ls[k]
    ensures Dot(ws, Swap(ls, i, k)) < Dot(ws, ls)
  {
    hide Dot, Del, Swap, Past;
    var p, r := Past(i, k), Swap(ls, i, k);
    DelSwap(ls, i, k);
    DelAt(ws, i, k);
    DotDel(ws, ls, i);
    DotDel(ws, r, i);
    DotDel(Del(ws, i), Del(ls, i), p);
    DotDel(Del(ws, i), Del(r, i), p);
    SwapEven(ws[i], ws[k], ls[i], ls[k]);
  }

  /** The first item may have the longest code: that costs no more, and where it costs the same it reaches no deeper. */
  lemma SwapReach(ws: seq<nat>, ds: seq<nat>, ls: seq<nat>, i: nat, k: nat, top: nat)
    requires |ws| == |ds| == |ls| && i < |ws| && k < |ws| && ls[i] <= ls[k]
    requires Before(Item(ws[i], ds[i]), Item(ws[k], ds[k]))
    ensures Dot(ws, Swap(ls, i, k)) < Dot(ws, ls) ||
            (Dot(ws, Swap(ls, i, k)) == Dot(ws, ls) && (Reach(ds, ls, top) ==> Reach(ds, Swap(ls, i, k), top)))
  {
    hide Dot;
    SwapDot(ws, ls, i, k);
    if ls[i] == ls[k] {
      assert Swap(ls, i, k) == ls;
    } else if ws[i] < ws[k] {
      SwapStrict(ws, ls, i, k);
    }
  }

  lemma ReachDel(ds: seq<nat>, ls: seq<nat>, i: nat, top: nat)
    requires Reach(ds, ls, top) && i < |ds|
    ensures Reach(Del(ds, i), Del(ls, i), top) && ds[i] + ls[i] <= top
  {
  }

  lemma PullFirst(ws: seq<nat>, ds: seq<nat>, ls: seq<nat>, u: nat, m: nat, top: nat)
    returns (i: nat, rest: seq<nat>, l: nat)
    requires |ws| == |ds| == |ls| > 0 && AtMost(ls, u) && u <= m
    ensures i < |ws| && IsFirst(multiset(Items(ws, ds)), Item(ws[i], ds[i])) && IsMin(multiset(ws), ws[i])
    ensures |rest| == |ws| - 1 && AtMost(rest, l) && l <= u && Kraft(rest, m) + Pow2(m - l) == Kraft(ls, m)
    ensures var c := Dot(Del(ws, i), rest) + ws[i] * l;
            || c < Dot(ws, ls)
            || (c == Dot(ws, ls) && (Reach(ds, ls, top) ==> ds[i] + l <= top && Reach(Del(ds, i), rest, top)))
  {
    hide Dot, Kraft, Reach, IsMin;
    i := FirstAt(ws, ds);
    var k := Longest(ls);
    l := ls[k];
    assert Before(Item(ws[i], ds[i]), Item(ws[k], ds[k])) by { assert Items(ws, ds)[k] in multiset(Items(ws, ds)); }
    var ls1 := Swap(ls, i, k);
    SwapReach(ws, ds, ls, i, k, top);
    SwapKraft(ls, i, k, m);
    rest := Del(ls1, i);
    DotDel(ws, ls1, i);
    KraftDel(ls1, i, m);
    if Reach(ds, ls1, top) { ReachDel(ds, ls1, i, top); }
  }

  lemma JoinItems(ws: seq<nat>, ds: seq<nat>, i: nat, j: nat, a: Item, b: Item)
    requires |ws| == |ds| && i < |ws| && j < |ws| - 1
    requires a == Item(ws[i], ds[i]) && b == Item(Del(ws, i)[j], Del(ds, i)[j])
    requires IsFirst(multiset(Items(ws, ds)), a) && IsFirst(multiset(Items(Del(ws, i), Del(ds, i))), b)
    ensures var c := Join(a, b);
            HuffDepth(multiset(Items(ws, ds)))
            == HuffDepth(multiset(Items(Del(Del(ws, i), j) + [c.w], Del(Del(ds, i), j) + [c.d])))
  {
    hide HuffDepth, Del, IsFirst, Join;
    var w1, d1, c := Del(ws, i), Del(ds, i), Join(a, b);
    ItemsDel(ws, ds, i);
    ItemsDel(w1, d1, j);
    JoinStep(multiset(Items(ws, ds)), a, b);
    ItemsSnoc(Del(w1, j), Del(d1, j), c);
  }

  lemma JoinReach(ds: seq<nat>, rest: seq<nat>, a: Item, b: Item, l: nat, l2: nat, top: nat)
    requires Reach(ds, rest, top) && a.d + l <= top && b.d + l2 <= top && 1 <= l2 <= l
    ensures Reach(ds + [Join(a, b).d], rest + [l2 - 1], top)
  {
  }

  /** A code that costs no more than Huffman's reaches at least as deep. */
  lemma {:induction false} DepthLower(ws: seq<nat>, ds: seq<nat>, ls: seq<nat>, m: nat, top: nat)
    requires |ws| == |ds| == |ls| > 0 && AtMost(ls, m) && Kraft(ls, m) <= Pow2(m)
    ensures HuffCost(multiset(ws)) < Dot(ws, ls) ||
            (Reach(ds, ls, top) ==> HuffDepth(multiset(Items(ws, ds))) <= top)
    decreases |ws|
  {
    hide HuffCost, Dot, Kraft, Del, IsMin, AtMost, IsFirst, HuffDepth, Reach, Items;
    if |ws| == 1 {
      if Reach(ds, ls, top) { OneReach(ws, ds, ls, top); }
    } else {
      var i, r1, l := PullFirst(ws, ds, ls, m, m, top);
      var w1, d1, a := Del(ws, i), Del(ds, i), Item(ws[i], ds[i]);
      var j, r2, l2 := PullFirst(w1, d1, r1, l, m, top);
      var w2, d2, b := Del(w1, j), Del(d1, j), Item(w1[j], d1[j]);
      FatherFits(r2, l, l2, m);
      FatherAtMost(r2, l2);
      var c := Join(a, b);
      HuffLower(w2 + [c.w], r2 + [l2 - 1], l2);
      DepthLower(w2 + [c.w], d2 + [c.d], r2 + [l2 - 1], l2, top);
      DotSnoc(w2, r2, c.w, l2 - 1);
      FatherCost(a.w, b.w, l, l2);
      MergeMultiset(ws, i, j, a.w, b.w);
      JoinItems(ws, ds, i, j, a, b);
      if Reach(d2, r2, top) && a.d + l <= top && b.d + l2 <= top { JoinReach(d2, r2, a, b, l, l2, top); }
    }
  }

  lemma OneReach(ws: seq<nat>, ds: seq<nat>, ls: seq<nat>, top: nat)
    requires |ws| == |ds| == |ls| == 1 && Reach(ds, ls, top)
    ensures HuffDepth(multiset(Items(ws, ds))) <= top
  {
    var a := Item(ws[0], ds[0]);
    assert Items(ws, ds) == [a];
    assert multiset([a]) == multiset{a};
    OneItem(a);
  }
}
