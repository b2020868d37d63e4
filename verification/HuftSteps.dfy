/** The inner loops of huft_build (inflate.c:371-456): sizing a table, linking it, filling it, counting backwards. */
module HuftSteps {
  import opened Bitstring
  import opened Codes
  import opened Interval
  import opened Huft

  // ---- backwards increment of the code i ----

  /** The successor of a code of |t| bits, as a bit string; all ones become all zeros. */
  function Succ(t: seq<bool>): (r: seq<bool>)
    ensures |r| == |t|
  {
    if |t| == 0 then []
    else if t[|t| - 1] then Succ(t[..|t| - 1]) + [false]
    else t[..|t| - 1] + [true]
  }

  lemma {:induction false} SuccVal(t: seq<bool>)
    ensures MsbVal(Succ(t)) == if MsbVal(t) + 1 == Pow2(|t|) then 0 else MsbVal(t) + 1
  {
    if |t| == 0 {
    } else {
      var n := |t| - 1;
      SuccVal(t[..n]);
      assert Succ(t)[..n] == if t[n] then Succ(t[..n]) else t[..n];
    }
  }

  lemma SuccBits(c: nat, k: nat)
    requires c < Pow2(k)
    ensures Succ(MsbBits(c, k)) == MsbBits(c + 1, k)
  {
    var t := MsbBits(c, k);
    MsbBitsSmall(c, k);
    SuccVal(t);
    MsbValMsbBits(c + 1, k);
    NextMod(c, Pow2(k));
    MsbValInjective(Succ(t), MsbBits(c + 1, k));
  }

  lemma NextMod(c: nat, p: nat)
    requires c < p
    ensures (c + 1) % p == if c + 1 == p then 0 else c + 1
  {
  }

  /** Clearing bit n of the number whose bits are s + [true] + zeros. */
  lemma ToggleBit(s: seq<bool>, x: bool, z: seq<bool>)
    ensures Xor(ValOf(s + [x] + z), Pow2(|s|)) == ValOf(s + [!x] + z)
    ensures And(ValOf(s + [x] + z), Pow2(|s|)) != 0 <==> x
  {
    var a, b := s + [x] + z, s + [!x] + z;
    var n, p := |a|, |s|;
    var v := ValOf(a);
    BitsOfValOf(a);
    BitsOfXor(v, Pow2(p), n);
    BitsOfAnd(v, Pow2(p), n);
    BitsOfPow2(p, n);
    assert BitsOf(Xor(v, Pow2(p)), n) == b;
    Pow2Strict(p, n);
    XorBound(v, Pow2(p), n);
    BitsOfSmall(Xor(v, Pow2(p)), n);
    if x {
      assert BitsOf(And(v, Pow2(p)), n)[p];
      BitsOfZero(n);
    } else {
      assert BitsOf(And(v, Pow2(p)), n) == Zeros(n);
      AndBound(v, Pow2(p), n);
      BitsOfSmall(And(v, Pow2(p)), n);
      ValOfZeros(Zeros(n));
    }
  }

  lemma {:induction false} AndBound(a: nat, b: nat, n: nat)
    requires a < Pow2(n) && b < Pow2(n)
    ensures And(a, b) < Pow2(n)
  {
    if n == 0 {
    } else {
      AndBound(a / 2, b / 2, n - 1);
    }
  }

  lemma {:induction false} AndRightZero(a: nat)
    ensures And(a, 0) == 0 && Xor(a, 0) == a
  {
    if a == 0 {
    } else {
      AndRightZero(a / 2);
    }
  }

  /** The reversed code is counted up (inflate.c:445-447): ones at its top end flip until a zero does. */
  method Increment(i0: nat, k: nat, ghost t: seq<bool>) returns (i: nat)
    requires k >= 1 && |t| == k && i0 == ValOf(t)
    ensures i == ValOf(Succ(t))
  {
    i := i0;
    var j := Pow2(k - 1);
    ghost var n := k;        // bits n..k-1 were ones and are cleared
    ghost var z: seq<bool> := [];
    assert t[..k] == t && t + z == t && Succ(t) + z == Succ(t);
    while And(i, j) != 0
      invariant 0 <= n <= k && |z| == k - n
      invariant j == if n == 0 then 0 else Pow2(n - 1)
      invariant i == ValOf(t[..n] + z)
      invariant Succ(t) == Succ(t[..n]) + z
      decreases n
    {
      AndRightZero(i);
      Front(t, n, z);
      i := Xor(i, j);
      j := j / 2;
      z := [false] + z;
      n := n - 1;
    }
    if n == 0 { AndRightZero(i); } else { Front(t, n, z); }
    i := Xor(i, j);
  }

  /** The effect of one toggle on the front part of the code. */
  lemma Front(t: seq<bool>, n: nat, z: seq<bool>)
    requires 0 < n <= |t|
    ensures var i := ValOf(t[..n] + z);
            && (And(i, Pow2(n - 1)) != 0 <==> t[n - 1])
            && (t[n - 1] ==> Xor(i, Pow2(n - 1)) == ValOf(t[..n - 1] + ([false] + z))
                             && Succ(t[..n]) + z == Succ(t[..n - 1]) + ([false] + z))
            && (!t[n - 1] ==> Xor(i, Pow2(n - 1)) == ValOf(Succ(t[..n]) + z))
  {
    var s := t[..n - 1];
    assert t[..n] + z == s + [t[n - 1]] + z;
    ToggleBit(s, t[n - 1], z);
    assert t[..n][..n - 1] == s;
    assert s + [false] + z == s + ([false] + z);
    if t[n - 1] {
      assert Succ(t[..n]) == Succ(s) + [false];
    }
  }

  // ---- filling the table ----

  ghost predicate FilledTo(before: seq<Huft>, after: seq<Huft>, start: nat, step: nat, x: Huft, j: nat)
    requires step > 0
  {
    |after| == |before| &&
      forall i :: 0 <= i < |before| ==> after[i] == if i < j && Hit(i, step, start) then x else before[i]
  }

  /** Every `step`-th cell from `start` on takes the entry (inflate.c:441-442). */
  method Fill(table: seq<Huft>, start: nat, step: nat, x: Huft) returns (r: seq<Huft>)
    requires start < step
    ensures Filled(table, r, start, step, x)
  {
    r := table;
    var j := start;
    ghost var n := 0;
    assert forall i :: 0 <= i < start ==> !Hit(i, step, start);
    while j < |r|
      invariant |r| == |table| && j == n * step + start && FilledTo(table, r, start, step, x, j)
    {
      r := r[j := x];
      Between(n, step, start);
      n := n + 1;
      j := j + step;
    }
  }

  lemma NextMultiple(a: int, p: int)
    ensures (a + 1) * p == a * p + p
  {
  }

  lemma Between(n: nat, step: nat, start: nat)
    requires start < step
    ensures (n + 1) * step + start == n * step + start + step
    ensures Hit(n * step + start, step, start)
    ensures forall i :: n * step + start < i < n * step + start + step ==> !Hit(i, step, start)
  {
    NextMultiple(n, step);
    DivModUnique(n * step + start, n, start, step);
    forall i | n * step + start < i < n * step + start + step
      ensures !Hit(i, step, start)
    {
      if i < (n + 1) * step {
        DivModUnique(i, n, i - n * step, step);
      } else {
        DivModUnique(i, n + 1, i - (n + 1) * step, step);
      }
    }
  }

  // ---- the size of a new table ----

  /** The codes still to come start at `pos`, the next one has `k` bits and `a` more codes of `k` bits follow it. */
  ghost predicate AtCode(cs: CodeSet, k: nat, a: nat, pos: nat) {
    && 1 <= k <= cs.g
    && Cover(cs.lens, cs.g, k) == pos + Scale(a + 1, cs.g - k)
    && Cover(cs.lens, cs.g, k - 1) <= pos
  }

  /** The patterns below `pre` that codes of up to `n` bits leave free, in units of `n` bits. */
  ghost predicate FreeBelow(cs: CodeSet, pre: seq<bool>, n: nat, f: nat) {
    |pre| <= n <= cs.g && Hi(pre, cs.g) == Cover(cs.lens, cs.g, n) + Scale(f, cs.g - n)
  }

  ghost predicate Covered(cs: CodeSet, pre: seq<bool>, n: nat) {
    |pre| <= n <= cs.g && Hi(pre, cs.g) <= Cover(cs.lens, cs.g, n)
  }

  /** First test of the sizing: do the codes of k bits fill the table? */
  lemma FirstFree(cs: CodeSet, pre: seq<bool>, k: nat, a: nat, pos: nat)
    requires AtCode(cs, k, a, pos) && |pre| <= k && Lo(pre, cs.g) == pos
    ensures Pow2(k - |pre|) <= a + 1 ==> Covered(cs, pre, k)
    ensures Pow2(k - |pre|) > a + 1 ==> FreeBelow(cs, pre, k, Pow2(k - |pre|) - (a + 1))
  {
    var f := Pow2(k - |pre|);
    ScalePow(k - |pre|, cs.g - k);
    if f <= a + 1 {
      ScaleMono(f, a + 1, cs.g - k);
    } else {
      ScaleSub(f, a + 1, cs.g - k);
    }
  }

  /** One more level of the sizing loop. */
  lemma NextFree(cs: CodeSet, pre: seq<bool>, n: nat, f: nat)
    requires FreeBelow(cs, pre, n, f) && n < cs.g
    ensures var c := Count(cs.lens, n + 1);
            && (2 * f <= c ==> Covered(cs, pre, n + 1))
            && (2 * f > c ==> FreeBelow(cs, pre, n + 1, 2 * f - c))
  {
    var c := Count(cs.lens, n + 1);
    CoverStep(cs.lens, cs.g, n + 1);
    ScaleTwice(f, cs.g - n - 1);
    if 2 * f <= c {
      ScaleMono(2 * f, c, cs.g - n - 1);
    } else {
      ScaleSub(2 * f, c, cs.g - n - 1);
    }
  }

  /** inflate.c:384-395; the result j is the number of bits of the new table. */
  method SizeTable(ghost cs: CodeSet, c: seq<nat>, g: nat, l: nat, k: nat, w: nat, a: nat, ghost pre: seq<bool>,
                   ghost pos: nat)
    returns (j: nat)
    requires cs.g == g && cs.l == l && |pre| == w < k <= g < |c| && AtCode(cs, k, a, pos) && Lo(pre, g) == pos
    requires forall b :: 1 <= b <= g ==> c[b] == Count(cs.lens, b)
    ensures Sized(cs, pre, k, j) && j <= g + 1
  {
    var z := if g - w > l then l else g - w;
    j := k - w;
    var f := Pow2(j);
    FirstFree(cs, pre, k, a, pos);
    if f > a + 1 {
      f := f - (a + 1);
      var xp := k;
      FreeNotCovered(cs, pre, k, f);
      j := j + 1;
      while j < z
        invariant k - w < j && (j <= z || j == k - w + 1) && xp == w + j - 1
        invariant f > 0 && xp <= g && FreeBelow(cs, pre, xp, f)
      {
        NextFree(cs, pre, xp, f);
        f := 2 * f;
        xp := xp + 1;
        if f <= c[xp] { break; }
        f := f - c[xp];
        j := j + 1;
      }
    }
  }

  lemma FreeNotCovered(cs: CodeSet, pre: seq<bool>, n: nat, f: nat)
    requires FreeBelow(cs, pre, n, f) && f > 0
    ensures !Covered(cs, pre, n)
  {
    ScaleMono(0, f, cs.g - n);
    ScaleOne(cs.g - n);
  }

  /** w is 0, l, 2l, ... */
  predicate MultipleOf(w: nat, l: nat) {
    w == 0 || (0 < l <= w && MultipleOf(w - l, l))
  }

  /**
   * The lengths for which every table fits: whenever a further level follows the one at w = h*l bits, the codes of
   * fewer than w + l bits leave less than 2^(l-1) patterns of w + l - 1 bits free.
   */
  ghost predicate Safe(lens: seq<nat>, g: nat, l: nat) {
    forall w: nat :: 1 <= l <= w && w + l < g && MultipleOf(w, l) ==> Roomy(lens, w + l - 1, l)
  }

  ghost predicate Roomy(lens: seq<nat>, n: nat, l: nat)
    requires l >= 1
  {
    Pow2(n) - Used(lens, n) < Pow2(l - 1)
  }

  /** The first code below `pre` has at least l more bits, and not all codes below it have exactly l more. */
  ghost predicate TooWide(cs: CodeSet, pre: seq<bool>)
    requires 1 <= cs.l && |pre| <= cs.g
  {
    && |pre| + cs.l < cs.g
    && Cover(cs.lens, cs.g, |pre| + cs.l - 1) <= Lo(pre, cs.g)
    && Cover(cs.lens, cs.g, |pre| + cs.l) < Hi(pre, cs.g)
  }

  /** A safe set has no such prefix. */
  lemma SafeNotWide(cs: CodeSet, pre: seq<bool>)
    requires WfSet(cs) && Safe(cs.lens, cs.g, cs.l) && cs.l <= |pre| <= cs.g && MultipleOf(|pre|, cs.l)
    ensures !TooWide(cs, pre)
  {
    if |pre| + cs.l < cs.g {
      RoomyCover(cs.lens, cs.g, |pre| + cs.l - 1, |pre|, cs.l);
      HiBound(pre, cs.g);
    }
  }

  /** Roomy says that the last prefix of `w` bits is reached by a code of fewer than w + l bits. */
  lemma RoomyCover(lens: seq<nat>, g: nat, n: nat, w: nat, l: nat)
    requires 1 <= l && n == w + l - 1 <= g
    ensures Roomy(lens, n, l) <==> Cover(lens, g, n) > Pow2(g) - Pow2(g - w)
  {
    var spare := Pow2(l - 1);
    Pow2Mono(l - 1, n);
    ScaleMono(Pow2(n) - spare, if Used(lens, n) > Pow2(n) - spare then Used(lens, n) else Pow2(n) - spare, g - n);
    if Used(lens, n) <= Pow2(n) - spare { ScaleMono(Used(lens, n), Pow2(n) - spare, g - n); }
    ScaleSub(Pow2(n), spare, g - n);
    ScalePow(n, g - n);
    ScalePow(l - 1, g - n);
    assert l - 1 + (g - n) == g - w;
  }

  lemma CoverEnd(cs: CodeSet, n: nat)
    requires WfSet(cs) && n < cs.g
    ensures Cover(cs.lens, cs.g, n) < Pow2(cs.g) == Cover(cs.lens, cs.g, cs.g)
  {
    CoverMono(cs.lens, cs.g, n, cs.g - 1);
    CoverStep(cs.lens, cs.g, cs.g);
  }

  /** What the sizing loop promises about its result. */
  ghost predicate Sized(cs: CodeSet, pre: seq<bool>, k: nat, j: nat)
    requires |pre| < k <= cs.g
  {
    var z := if cs.g - |pre| > cs.l then cs.l else cs.g - |pre|;
    if j == k - |pre| then Covered(cs, pre, k)
    else
      && !Covered(cs, pre, k) && j > k - |pre|
      && (j < z ==> Covered(cs, pre, |pre| + j))
      && (j >= z ==> j == z || j == k - |pre| + 1)
  }

  function Min(a: nat, b: nat): nat { if a <= b then a else b }

  /** Close to the longest codes the width is right. */
  lemma LastWidth(cs: CodeSet, pre: seq<bool>, k: nat, a: nat, pos: nat, j: nat)
    requires WfSet(cs) && AtCode(cs, k, a, pos) && |pre| < k && Lo(pre, cs.g) == pos && Sized(cs, pre, k, j)
    requires |pre| + cs.l >= cs.g
    ensures 1 <= j <= cs.l && |pre| + j <= cs.g && WideEnough(cs, pre, j)
  {
    if k == cs.g { HiBound(pre, cs.g); }
  }

  /** Elsewhere it is right if the first code has fewer than l bits left, ... */
  lemma NearWidth(cs: CodeSet, pre: seq<bool>, k: nat, a: nat, pos: nat, j: nat)
    requires WfSet(cs) && AtCode(cs, k, a, pos) && |pre| < k && Lo(pre, cs.g) == pos && Sized(cs, pre, k, j)
    requires k < |pre| + cs.l < cs.g
    ensures 1 <= j <= cs.l && WideEnough(cs, pre, j) && !TooWide(cs, pre)
  {
    hide WfSet, Complete;
    CoverMono(cs.lens, cs.g, k, |pre| + cs.l - 1);
    ScaleMono(0, a + 1, cs.g - k);
  }

  /** ... and otherwise only if the codes below the prefix all have exactly l bits left. */
  lemma FarWidth(cs: CodeSet, pre: seq<bool>, k: nat, a: nat, pos: nat, j: nat)
    requires WfSet(cs) && AtCode(cs, k, a, pos) && |pre| < k && Lo(pre, cs.g) == pos && Sized(cs, pre, k, j)
    requires |pre| + cs.l <= k && |pre| + cs.l < cs.g
    ensures 1 <= j && (j > cs.l <==> TooWide(cs, pre)) && WideEnough(cs, pre, Min(j, cs.l))
  {
    hide Complete;
    var n := |pre| + cs.l;
    CoverMono(cs.lens, cs.g, n - 1, k - 1);
    if k > n {
      CoverMono(cs.lens, cs.g, n, k - 1);
    }
  }

  /** The width of a table below the root, in both cases. */
  lemma SubtableWidth(cs: CodeSet, pre: seq<bool>, k: nat, a: nat, pos: nat, j: nat)
    requires WfSet(cs) && AtCode(cs, k, a, pos) && |pre| < k && Lo(pre, cs.g) == pos && Sized(cs, pre, k, j)
    ensures 1 <= j && |pre| + Min(j, cs.l) <= cs.g && WideEnough(cs, pre, Min(j, cs.l)) &&
            (j > cs.l <==> TooWide(cs, pre))
  {
    if |pre| + cs.l < cs.g {
      if k < |pre| + cs.l { NearWidth(cs, pre, k, a, pos, j); } else { FarWidth(cs, pre, k, a, pos, j); }
    } else {
      LastWidth(cs, pre, k, a, pos, j);
    }
  }

  /** The root table has at least 2^l cells. */
  lemma RootWidth(cs: CodeSet, k: nat, j: nat)
    requires WfSet(cs) && 1 <= k <= cs.g
    requires Sized(cs, [], k, j)
    ensures j >= cs.l
  {
    if j < cs.l { CoverEnd(cs, j); }
  }

  /** A code that needs no further level fits in its table; one that does meets a table of full width. */
  lemma CodeWidth(cs: CodeSet, pre: seq<bool>, tb: nat, k: nat, a: nat, pos: nat)
    requires AtCode(cs, k, a, pos) && |pre| <= cs.g && pos < Hi(pre, cs.g) && WideEnough(cs, pre, tb) && tb <= cs.l
    ensures k <= |pre| + cs.l ==> k <= |pre| + tb
    ensures k > |pre| + cs.l ==> tb == cs.l
  {
    var n := |pre| + tb;
    if tb != cs.l && n != cs.g && k > n {
      CoverMono(cs.lens, cs.g, n, k - 1);
    }
  }

  // ---- the cells that no index of `l` bits reaches ----

  /** Such a cell of a table below the root holds what malloc left there, or a code of at most |pre| + l bits. */
  ghost predicate SpareCell(cs: CodeSet, pre: seq<bool>, wd: nat, i: nat, x: Huft, junk: Huft)
    requires |cs.ents| == |cs.lens|
  {
    x == junk || exists s: nat :: IsLeaf(cs, Cell(pre, wd, i), |pre|, x, s) && cs.lens[s] <= |pre| + cs.l
  }

  ghost predicate TableExtra(cs: CodeSet, t: nat, table: seq<Huft>, pre: seq<bool>, tb: nat, wd: nat, junk: Huft)
    requires 1 <= cs.l && |cs.ents| == |cs.lens|
  {
    && |table| == Pow2(wd) && MultipleOf(|pre|, cs.l) && |pre| <= cs.g && wd <= BMAX + 1
    && (t > 0 ==>
          && |pre| >= cs.l && tb == Min(wd, cs.l) && (wd > cs.l <==> TooWide(cs, pre))
          && forall i :: Pow2(tb) <= i < |table| ==> SpareCell(cs, pre, wd, i, table[i], junk))
  }

  ghost predicate Extra(cs: CodeSet, tables: seq<seq<Huft>>, sh: Shape, junk: Huft)
    requires WfSet(cs)
  {
    && |tables| == |sh.pre| == |sh.tbs| == |sh.wid|
    && forall t :: 0 <= t < |tables| ==> TableExtra(cs, t, tables[t], sh.pre[t], sh.tbs[t], sh.wid[t], junk)
  }

  lemma PlaceExtraTable(cs: CodeSet, t: nat, table: seq<Huft>, table': seq<Huft>, pre: seq<bool>, tb: nat, wd: nat,
                        junk: Huft, s: nat, x: Huft)
    requires WfSet(cs) && TableExtra(cs, t, table, pre, tb, wd, junk) && tb <= wd
    requires s < |cs.lens| && |pre| < cs.lens[s] <= |pre| + tb && pre <= CodeBits(cs.lens, s) && tb <= cs.l
    requires Filled(table, table', ValOf(CodeBits(cs.lens, s)[|pre|..]), Pow2(cs.lens[s] - |pre|), x)
    requires IsEntry(cs.ents[s], x, cs.lens[s] - |pre|)
    ensures TableExtra(cs, t, table', pre, tb, wd, junk)
  {
    hide Complete, TooWide;
    forall i | t > 0 && Pow2(tb) <= i < |table'|
      ensures SpareCell(cs, pre, wd, i, table'[i], junk)
    {
      FilledCells(pre, wd, CodeBits(cs.lens, s), i);
      assert SpareCell(cs, pre, wd, i, table[i], junk);
      if Hit(i, Pow2(cs.lens[s] - |pre|), ValOf(CodeBits(cs.lens, s)[|pre|..])) {
        assert IsLeaf(cs, Cell(pre, wd, i), |pre|, x, s);
      }
    }
  }

  lemma GrowExtraTable(cs: CodeSet, t: nat, table: seq<Huft>, pre: seq<bool>, tb: nat, wd: nat, junk: Huft, at: nat,
                       x: Huft)
    requires WfSet(cs) && TableExtra(cs, t, table, pre, tb, wd, junk) && at < Pow2(tb) <= |table|
    ensures TableExtra(cs, t, table[at := x], pre, tb, wd, junk)
  {
    hide Complete, TooWide, SpareCell;
  }

  lemma NewExtraTable(cs: CodeSet, t: nat, pre: seq<bool>, wd: nat, junk: Huft)
    requires WfSet(cs) && MultipleOf(|pre|, cs.l) && cs.l <= |pre| <= cs.g && (wd > cs.l <==> TooWide(cs, pre))
    requires wd <= BMAX + 1
    ensures TableExtra(cs, t, seq(Pow2(wd), _ => junk), pre, Min(wd, cs.l), wd, junk)
  {
  }
}
