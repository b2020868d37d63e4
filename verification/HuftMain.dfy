/** huft_build as a whole (inflate.c:267-461): the counts, the value table, the tables, the result. */
module HuftMain {
  import opened Bitstring
  import opened Codes
  import opened Interval
  import opened Huft
  import opened HuftSteps
  import opened HuftBuilder

  const N_MAX := 288

  // ---- the code set with dummy codes of the longest length ----

  /** `y` dummy codes of `g` bits complete the set (inflate.c:342). */
  ghost function Extend(b: seq<nat>, g: nat, y: nat): (r: seq<nat>)
    ensures |r| == |b| + y
  {
    b + Repeat(g, y)
  }

  lemma ExtendCount(b: seq<nat>, g: nat, y: nat, k: nat)
    ensures Count(Extend(b, g, y), k) == Count(b, k) + (if k == g then y else 0)
  {
    CountJoin(b, Repeat(g, y), k);
    CountRepeat(g, y, k);
  }

  lemma {:induction false} ExtendUsed(b: seq<nat>, g: nat, y: nat, k: nat)
    requires k <= g
    ensures Used(Extend(b, g, y), k) == Used(b, k) + (if k == g && g > 0 then y else 0)
  {
    if k == 0 {
    } else {
      ExtendUsed(b, g, y, k - 1);
      ExtendCount(b, g, y, k);
    }
  }

  /** Real symbols keep their codes. */
  lemma ExtendCode(b: seq<nat>, g: nat, y: nat, s: nat)
    requires s < |b| && 0 < b[s] <= g
    ensures Extend(b, g, y)[s] == b[s] && CodeBits(Extend(b, g, y), s) == CodeBits(b, s)
  {
    ExtendUsed(b, g, y, b[s] - 1);
    assert Extend(b, g, y)[..s] == b[..s];
  }

  // ---- how often each length occurs ----

  method CountLengths(b: seq<nat>) returns (c: seq<nat>)
    requires forall i :: 0 <= i < |b| ==> b[i] <= BMAX
    ensures |c| == BMAX + 1 && forall k :: 0 <= k <= BMAX ==> c[k] == Count(b, k)
  {
    c := seq(BMAX + 1, _ => 0);
    var i := 0;
    assert b[..0] == [];
    while i < |b|
      invariant 0 <= i <= |b| && |c| == BMAX + 1
      invariant forall k :: 0 <= k <= BMAX ==> c[k] == Count(b[..i], k)
    {
      assert b[..i + 1][..i] == b[..i];
      c := c[b[i] := c[b[i]] + 1];
      i := i + 1;
    }
    assert b[..i] == b;
  }

  /** The shortest length in use, 0 if there is none. */
  ghost function MinLen(b: seq<nat>): (k: nat)
    ensures forall i :: 0 <= i < |b| && b[i] > 0 ==> 0 < k <= b[i]
    ensures k > 0 ==> Count(b, k) > 0
  {
    if |b| == 0 then 0
    else
      var m, x := MinLen(b[..|b| - 1]), b[|b| - 1];
      if x > 0 && (m == 0 || x < m) then x else m
  }

  lemma MinLenIs(b: seq<nat>, k: nat)
    requires k > 0 && Count(b, k) > 0 && forall j :: 1 <= j < k ==> Count(b, j) == 0
    ensures MinLen(b) == k
  {
    if MinLen(b) == 0 || MinLen(b) > k { CountNone(b, k); }
  }

  lemma MaxLenIs(b: seq<nat>, g: nat)
    requires g > 0 && Count(b, g) > 0 && forall k :: g < k <= BMAX ==> Count(b, k) == 0
    requires forall i :: 0 <= i < |b| ==> b[i] <= BMAX
    ensures MaxLen(b) == g
  {
    MaxLenAtMost(b, BMAX);
    if MaxLen(b) < g { CountNone(b, g); }
  }

  /** Smallest and largest length in use (inflate.c:321-330). */
  method FindBounds(c: seq<nat>, ghost b: seq<nat>) returns (kmin: nat, g: nat)
    requires |c| == BMAX + 1 && forall k :: 0 <= k <= BMAX ==> c[k] == Count(b, k)
    requires MaxLen(b) > 0 && forall i :: 0 <= i < |b| ==> b[i] <= BMAX
    ensures 1 <= kmin <= g <= BMAX && g == MaxLen(b)
    ensures kmin == MinLen(b) && Count(b, kmin) > 0 && forall k :: 1 <= k < kmin ==> Count(b, k) == 0
  {
    ghost var m := MaxLen(b);
    assert m <= BMAX by { MaxLenAtMost(b, BMAX); }
    assert c[m] > 0;
    kmin := 1;
    while kmin <= BMAX && c[kmin] == 0
      invariant 1 <= kmin <= m
      invariant forall k :: 1 <= k < kmin ==> c[k] == 0
      decreases BMAX - kmin
    {
      kmin := kmin + 1;
    }
    g := BMAX;
    while g > 0 && c[g] == 0
      invariant m <= g <= BMAX
      invariant forall k :: g < k <= BMAX ==> c[k] == 0
    {
      g := g - 1;
    }
    MaxLenIs(b, g);
    MinLenIs(b, kmin);
  }

  lemma {:induction false} AllZero(b: seq<nat>)
    ensures Count(b, 0) == |b| <==> MaxLen(b) == 0
  {
    if |b| == 0 {
    } else {
      AllZero(b[..|b| - 1]);
    }
  }

  // ---- the code space that is left over ----

  lemma {:induction false} FreeNegative(b: seq<nat>, k: nat, k': nat)
    requires k <= k' && Free(b, k) < 0
    ensures Free(b, k') < 0
  {
    if k < k' { FreeNegative(b, k, k' - 1); }
  }

  /** inflate.c:337-341: `bad` is the return of 2, otherwise y codes of g bits are missing. */
  method Adjust(c: seq<nat>, kmin: nat, g: nat, ghost b: seq<nat>) returns (bad: bool, y: int)
    requires |c| == BMAX + 1 && 1 <= kmin <= g <= BMAX && forall k :: 0 <= k <= BMAX ==> c[k] == Count(b, k)
    requires forall k :: 1 <= k < kmin ==> Count(b, k) == 0
    ensures bad <==> Used(b, g) > Pow2(g)
    ensures !bad ==> y == Free(b, g) >= 0
  {
    y := Pow2(kmin);
    var j := kmin;
    UsedZero(b, kmin - 1);
    while j < g
      invariant kmin <= j <= g && y == 2 * Free(b, j - 1)
    {
      y := y - c[j];
      if y < 0 {
        FreeNegative(b, j, g);
        return true, y;
      }
      j := j + 1;
      y := 2 * y;
    }
    y := y - c[g];
    bad := y < 0;
  }

  // ---- sorting the symbols by length ----

  function Offset(b: seq<nat>, k: nat): nat {
    if k <= 1 then 0 else Offset(b, k - 1) + Count(b, k - 1)
  }

  /** The index of symbol `s` among the symbols sorted by length. */
  ghost function Place(b: seq<nat>, s: nat): nat
    requires s < |b|
  {
    Offset(b, b[s]) + Count(b[..s], b[s])
  }

  lemma {:induction false} OffsetSnoc(b: seq<nat>, x: nat, k: nat)
    ensures Offset(b + [x], k) == Offset(b, k) + (if 1 <= x < k then 1 else 0)
  {
    if k > 1 {
      OffsetSnoc(b, x, k - 1);
      assert (b + [x])[..|b|] == b;
    }
  }

  lemma {:induction false} OffsetBound(b: seq<nat>, k: nat)
    ensures Offset(b, k) + Count(b, 0) <= |b|
  {
    if |b| == 0 {
      OffsetNone(k);
    } else {
      var n := |b| - 1;
      OffsetBound(b[..n], k);
      OffsetSnoc(b[..n], b[n], k);
      assert b[..n] + [b[n]] == b;
    }
  }

  lemma {:induction false} OffsetNone(k: nat)
    ensures Offset([], k) == 0
  {
    if k > 1 { OffsetNone(k - 1); }
  }

  lemma {:induction false} OffsetMono(b: seq<nat>, k: nat, k': nat)
    requires k <= k'
    ensures Offset(b, k) <= Offset(b, k')
  {
    if k < k' { OffsetMono(b, k, k' - 1); }
  }

  /** The places are distinct and leave no room for a symbol of length zero. */
  lemma PlaceBound(b: seq<nat>, s: nat)
    requires s < |b| && b[s] > 0
    ensures Offset(b, b[s]) <= Place(b, s) < Offset(b, b[s] + 1) <= |b|
  {
    RankBound(b, s);
    OffsetBound(b, b[s] + 1);
  }

  lemma PlaceDistinct(b: seq<nat>, s: nat, t: nat)
    requires s < |b| && t < |b| && b[s] > 0 && b[t] > 0 && s != t
    ensures Place(b, s) != Place(b, t)
  {
    PlaceBound(b, s);
    PlaceBound(b, t);
    if b[s] < b[t] {
      OffsetMono(b, b[s] + 1, b[t]);
    } else if b[t] < b[s] {
      OffsetMono(b, b[t] + 1, b[s]);
    } else if s < t {
      CountPrefix(b, s, t, b[s]);
    } else {
      CountPrefix(b, t, s, b[s]);
    }
  }

  /** Where the symbols of a length begin among the sorted ones (inflate.c:346-350). */
  method Offsets(c: seq<nat>, g: nat, ghost b: seq<nat>) returns (x: seq<nat>)
    requires |c| == BMAX + 1 && 1 <= g <= BMAX && forall k :: 1 <= k < g ==> c[k] == Count(b, k)
    ensures |x| == BMAX + 1 && forall k :: 1 <= k <= g ==> x[k] == Offset(b, k)
  {
    x := seq(BMAX + 1, _ => 0);
    var j, i, p := 0, g - 1, 1;
    while i > 0
      invariant 0 <= i && p == g - i && |x| == BMAX + 1 && j == Offset(b, p)
      invariant forall k :: 1 <= k <= p ==> x[k] == Offset(b, k)
    {
      j := j + c[p];
      x := x[p + 1 := j];
      p := p + 1;
      i := i - 1;
    }
  }

  ghost predicate Arranged(b: seq<nat>, v: seq<nat>, n: nat) {
    n <= |b| <= |v| && forall s :: 0 <= s < n && b[s] > 0 ==> Place(b, s) < |v| && v[Place(b, s)] == s
  }

  lemma PlaceNext(b: seq<nat>, v: seq<nat>, i: nat)
    requires Arranged(b, v, i) && i < |b|
    ensures b[i] > 0 ==> Place(b, i) < |v| && Arranged(b, v[Place(b, i) := i], i + 1)
    ensures b[i] == 0 ==> Arranged(b, v, i + 1)
  {
    if b[i] > 0 {
      PlaceBound(b, i);
      forall s | 0 <= s < i && b[s] > 0
        ensures Place(b, s) != Place(b, i)
      {
        PlaceDistinct(b, s, i);
      }
    }
  }

  /** inflate.c:354-358; `junk` is what the uninitialised array v holds. */
  method SortValues(b: seq<nat>, x0: seq<nat>, g: nat, junk: seq<nat>) returns (v: seq<nat>)
    requires |x0| == BMAX + 1 && 1 <= g <= BMAX && forall k :: 1 <= k <= g ==> x0[k] == Offset(b, k)
    requires |b| <= |junk| && forall i :: 0 <= i < |b| ==> b[i] <= g
    ensures |v| == |junk| && Arranged(b, v, |b|)
  {
    hide Arranged, Place;
    v := junk;
    var x, i := x0, 0;
    assert b[..0] == [];
    PlacedNone(b, v);
    while i < |b|
      invariant 0 <= i <= |b| && |x| == BMAX + 1 && |v| == |junk|
      invariant forall k :: 1 <= k <= g ==> x[k] == Offset(b, k) + Count(b[..i], k)
      invariant Arranged(b, v, i)
    {
      var j := b[i];
      PlaceNext(b, v, i);
      assert b[..i + 1][..i] == b[..i];
      if j != 0 {
        PlaceIs(b, i);
        v := v[x[j] := i];
        x := x[j := x[j] + 1];
      }
      i := i + 1;
    }
  }

  lemma PlacedNone(b: seq<nat>, v: seq<nat>)
    requires |b| <= |v|
    ensures Arranged(b, v, 0)
  {
  }

  lemma PlaceIs(b: seq<nat>, i: nat)
    requires i < |b|
    ensures Place(b, i) == Offset(b, b[i]) + Count(b[..i], b[i])
  {
  }

  // ---- the entry of a symbol ----

  function At(list: seq<nat>, i: nat, default: nat): nat {
    if i < |list| then list[i] else default
  }

  /** inflate.c:427-437: simple codes stand for themselves, 256 ends the block, others come from the lists. */
  function EntryOf(sym: nat, simple: nat, d: seq<nat>, e: seq<nat>): Huft {
    if sym < simple then Huft(if sym < 256 then 16 else 15, 0, sym)
    else Huft(At(e, sym - simple, INVALID), 0, At(d, sym - simple, 0))
  }

  /** The entry made when the value pointer is at `q`; past the `n` values it is invalid. */
  function EntryAt(v: seq<nat>, n: nat, q: nat, simple: nat, d: seq<nat>, e: seq<nat>): Huft
    requires n <= |v|
  {
    if q >= n then Huft(INVALID, 0, 0) else EntryOf(v[q], simple, d, e)
  }

  /** The entries of all symbols, dummy codes included. */
  ghost function Ents(b: seq<nat>, v: seq<nat>, g: nat, y: nat, simple: nat, d: seq<nat>, e: seq<nat>): (r: seq<Huft>)
    requires |b| <= |v|
    ensures |r| == |b| + y
  {
    seq(|b| + y, s requires 0 <= s < |b| + y =>
      if s < |b| then EntryOf(s, simple, d, e)
      else EntryAt(v, |b|, Offset(b, g) + Count(b, g) + (s - |b|), simple, d, e))
  }

  ghost predicate ListOk(e: seq<nat>) {
    forall i :: 0 <= i < |e| ==> e[i] <= 16 || e[i] == INVALID
  }

  /** The code set that the tables are built for. */
  ghost function SetOf(b: seq<nat>, l: nat, v: seq<nat>, simple: nat, d: seq<nat>, e: seq<nat>): CodeSet
    requires |b| <= |v|
  {
    var g := MaxLen(b);
    var y := if Free(b, g) >= 0 then Free(b, g) else 0;
    CodeSet(Extend(b, g, y), g, l, Ents(b, v, g, y, simple, d, e))
  }

  lemma SetOk(b: seq<nat>, l: nat, v: seq<nat>, simple: nat, d: seq<nat>, e: seq<nat>)
    requires |b| <= |v| && 0 < MaxLen(b) <= BMAX && 1 <= l <= MaxLen(b) && Free(b, MaxLen(b)) >= 0 && ListOk(e)
    ensures WfSet(SetOf(b, l, v, simple, d, e))
  {
    hide Ents, ListOk;
    var g := MaxLen(b);
    ExtendUsed(b, g, Free(b, g), g);
    ExtendCount(b, g, Free(b, g), g);
    EntsOk(b, v, g, Free(b, g), simple, d, e);
  }

  lemma EntsOk(b: seq<nat>, v: seq<nat>, g: nat, y: nat, simple: nat, d: seq<nat>, e: seq<nat>)
    requires |b| <= |v| && ListOk(e)
    ensures forall s :: 0 <= s < |b| + y ==>
                          Ents(b, v, g, y, simple, d, e)[s].e <= 16 || Ents(b, v, g, y, simple, d, e)[s].e == INVALID
  {
    forall s | 0 <= s < |b| + y
      ensures Ents(b, v, g, y, simple, d, e)[s].e <= 16 || Ents(b, v, g, y, simple, d, e)[s].e == INVALID
    {
      if s < |b| {
        EntryOk(s, simple, d, e);
      } else if Offset(b, g) + Count(b, g) + (s - |b|) < |b| {
        EntryOk(v[Offset(b, g) + Count(b, g) + (s - |b|)], simple, d, e);
      }
    }
  }

  lemma EntryOk(sym: nat, simple: nat, d: seq<nat>, e: seq<nat>)
    requires ListOk(e)
    ensures EntryOf(sym, simple, d, e).e <= 16 || EntryOf(sym, simple, d, e).e == INVALID
  {
    if simple <= sym < simple + |e| { assert e[sym - simple] <= 16 || e[sym - simple] == INVALID; }
  }

  /** The value pointer at the `rank`-th code of `k` bits yields the entry of the symbol with that code. */
  lemma EntryIs(b: seq<nat>, l: nat, v: seq<nat>, simple: nat, d: seq<nat>, e: seq<nat>, s: nat)
    requires Arranged(b, v, |b|) && Free(b, MaxLen(b)) >= 0
    requires var lens := SetOf(b, l, v, simple, d, e).lens; s < |lens| && 0 < lens[s] <= MaxLen(b)
    ensures var cs := SetOf(b, l, v, simple, d, e);
            var k := cs.lens[s];
            cs.ents[s] == EntryAt(v, |b|, Offset(b, k) + Count(cs.lens[..s], k), simple, d, e)
  {
    hide Count, Offset, EntryOf, Free;
    var cs := SetOf(b, l, v, simple, d, e);
    var g, y := MaxLen(b), Free(b, MaxLen(b));
    if s < |b| {
      assert cs.lens[..s] == b[..s] && cs.lens[s] == b[s];
      PlaceBound(b, s);
      PlaceIs(b, s);
    } else {
      assert cs.lens[..s] == b + Repeat(g, s - |b|);
      CountJoin(b, Repeat(g, s - |b|), g);
      CountRepeat(g, s - |b|, g);
    }
  }

  // ---- all codes ----

  /** The builder in front of the `rank`-th code of `k` bits, or behind the last code. */
  ghost predicate Before(cs: CodeSet, B: Build, sh: Shape, k: nat, rank: nat, i: nat, junk: Huft) {
    && WfSet(cs) && 1 <= k <= cs.g && Extra(cs, B.tables, sh, junk)
    && CodePos(cs, k, rank) <= Pow2(cs.g)
    && (CodePos(cs, k, rank) < Pow2(cs.g) ==>
          Ready(cs, B, sh, CodeStr(cs, k, rank), CodePos(cs, k, rank)) && i == ValOf(CodeStr(cs, k, rank)))
    && (CodePos(cs, k, rank) == Pow2(cs.g) ==> Built(cs, B, sh, Pow2(cs.g)))
  }

  lemma LengthenPos(cs: CodeSet, k: nat)
    requires WfSet(cs) && 1 <= k < cs.g
    ensures CodePos(cs, k, Count(cs.lens, k)) == CodePos(cs, k + 1, 0) < Pow2(cs.g)
    ensures 2 * Used(cs.lens, k) < Pow2(k + 1)
  {
    hide WfSet, Cover;
    CoverStep(cs.lens, cs.g, k);
    ScaleOne(cs.g - k - 1);
    CoverEnd(cs, k);
    NotFull(cs.lens, cs.g, k);
  }

  lemma NotFull(lens: seq<nat>, m: nat, k: nat)
    requires k <= m && Cover(lens, m, k) < Pow2(m)
    ensures Used(lens, k) < Pow2(k)
  {
    ScalePow(k, m - k);
    ScaleLess(Used(lens, k), Pow2(k), m - k);
  }

  lemma LengthenStr(cs: CodeSet, k: nat)
    requires 1 <= k
    ensures CodeStr(cs, k + 1, 0) == CodeStr(cs, k, Count(cs.lens, k)) + [false]
  {
    var u := Used(cs.lens, k);
    assert u == 2 * Used(cs.lens, k - 1) + Count(cs.lens, k);
    assert (2 * u) / 2 == u && (2 * u) % 2 == 0;
  }

  lemma ReadyLonger(cs: CodeSet, B: Build, sh: Shape, t: seq<bool>, pos: nat)
    requires |B.u| > 0 && Ready(cs, B, sh, t, pos) && |t| < cs.g && Lo(t + [false], cs.g) == pos
    ensures Ready(cs, B, sh, t + [false], pos)
  {
    hide Inv;
  }

  /** From the codes of k bits to those of k + 1 bits: nothing changes but the name of the place. */
  lemma Lengthen(cs: CodeSet, B: Build, sh: Shape, k: nat, i: nat, junk: Huft)
    requires Before(cs, B, sh, k, Count(cs.lens, k), i, junk) && k < cs.g && |B.u| > 0
    ensures Before(cs, B, sh, k + 1, 0, i, junk)
  {
    hide Inv, Extra, Complete, Ready, CodeStr, CodePos;
    LengthenPos(cs, k);
    LengthenStr(cs, k);
    CodeLo(cs, k + 1, 0);
    var t := CodeStr(cs, k, Count(cs.lens, k));
    ValOfPadded(t, [false]);
    ReadyLonger(cs, B, sh, t, CodePos(cs, k + 1, 0));
  }

  lemma OneCodeBefore(cs: CodeSet, B: Build, sh: Shape, k: nat, rank: nat, i: nat, junk: Huft)
    requires WfSet(cs) && 1 <= k <= cs.g && rank < Count(cs.lens, k) && Extra(cs, B.tables, sh, junk)
    requires i == ValOf(CodeStr(cs, k, rank + 1)) && Built(cs, B, sh, CodePos(cs, k, rank + 1))
    requires CodePos(cs, k, rank + 1) < Pow2(cs.g) ==>
               Ready(cs, B, sh, CodeStr(cs, k, rank + 1), CodePos(cs, k, rank + 1))
    ensures Before(cs, B, sh, k, rank + 1, i, junk) && |B.u| > 0
  {
    hide Inv, Extra, Complete, Ready, CodeStr, CodePos;
    CodeFacts(cs, k, rank);
  }

  /** The codes of `k` bits (inflate.c:373-455). */
  method CodesOf(ghost cs: CodeSet, B0: Build, c: seq<nat>, g: nat, l: nat, k: nat, i0: nat, p0: nat, b: seq<nat>,
                 v: seq<nat>,
                 simple: nat, d: seq<nat>, e: seq<nat>, junk: Huft, ghost sh0: Shape)
    returns (B: Build, i: nat, p: nat, ghost sh: Shape)
    requires |b| <= |v| && Arranged(b, v, |b|) && Free(b, MaxLen(b)) >= 0
    requires cs == SetOf(b, l, v, simple, d, e) && cs.g == g == MaxLen(b) < |c| && cs.l == l
    requires forall n :: 1 <= n <= g ==> c[n] == Count(cs.lens, n)
    requires Before(cs, B0, sh0, k, 0, i0, junk) && p0 == Min(Offset(b, k), |b|)
    ensures Before(cs, B, sh, k, Count(cs.lens, k), i, junk) && p == Min(Offset(b, k) + Count(cs.lens, k), |b|)
    ensures |B0.u| > 0 || Count(cs.lens, k) > 0 ==> |B.u| > 0
  {
    hide Extra, Complete, Ready, CodeStr, CodePos, Built, EntryOf, Arranged, SetOf, Free;
    B, i, p, sh := B0, i0, p0, sh0;
    var a := c[k];
    ghost var rank := 0;
    while a > 0
      invariant 0 <= a && a + rank == c[k]
      invariant Before(cs, B, sh, k, rank, i, junk) && p == Min(Offset(b, k) + rank, |b|)
      invariant |B0.u| > 0 || rank > 0 ==> |B.u| > 0
    {
      a := a - 1;
      ghost var s := SymbolAt(cs.lens, k, rank);
      EntrySym(cs, b, l, v, simple, d, e, s);
      CodeFacts(cs, k, rank);
      var x := EntryAt(v, |b|, p, simple, d, e);
      if p < |b| { p := p + 1; }
      B, i, sh := OneCode(cs, B, c, g, l, k, a, i, x.e, x.v, junk, sh, s, rank);
      OneCodeBefore(cs, B, sh, k, rank, i, junk);
      rank := rank + 1;
    }
  }

  lemma EntrySym(cs: CodeSet, b: seq<nat>, l: nat, v: seq<nat>, simple: nat, d: seq<nat>, e: seq<nat>, s: nat)
    requires Arranged(b, v, |b|) && Free(b, MaxLen(b)) >= 0
    requires cs == SetOf(b, l, v, simple, d, e) && s < |cs.lens| == |cs.ents| && 0 < cs.lens[s] <= MaxLen(b)
    ensures var k := cs.lens[s];
            cs.ents[s] == EntryAt(v, |b|, Min(Offset(b, k) + Count(cs.lens[..s], k), |b|), simple, d, e)
  {
    hide SetOf, EntryOf, Arranged, Free;
    EntryIs(b, l, v, simple, d, e, s);
  }

  /** The main loop: lengths from short to long, and the codes of each (inflate.c:362-456). */
  method AllCodes(ghost cs: CodeSet, c: seq<nat>, kmin: nat, g: nat, l: nat, b: seq<nat>, v: seq<nat>,
                  simple: nat, d: seq<nat>, e: seq<nat>, junk: Huft)
    returns (tables: seq<seq<Huft>>, ghost sh: Shape)
    requires |b| <= |v| && Arranged(b, v, |b|) && Free(b, MaxLen(b)) >= 0
    requires cs == SetOf(b, l, v, simple, d, e) && cs.g == g == MaxLen(b) < |c| && cs.l == l && WfSet(cs)
    requires forall n :: 1 <= n <= g ==> c[n] == Count(cs.lens, n)
    requires 1 <= kmin <= l && Count(cs.lens, kmin) > 0 && forall n :: 1 <= n < kmin ==> Count(cs.lens, n) == 0
    requires forall n :: 1 <= n <= g ==> Offset(cs.lens, n) == Offset(b, n)
    ensures AllCells(cs, tables, sh) && Extra(cs, tables, sh, junk)
  {
    hide Extra, Complete, Ready, CodeStr, CodePos, Built, EntryOf, Arranged, SetOf, Free, AllCells;
    var B, i, p, k := Build([], [], [], 0 - l, 0), 0, 0, kmin;
    sh := Shape([], [], []);
    StartBefore(cs, kmin, junk);
    OffsetZero(cs.lens, kmin);
    while k <= g
      invariant kmin <= k <= g + 1
      invariant k <= g ==> Before(cs, B, sh, k, 0, i, junk) && p == Min(Offset(b, k), |b|)
      invariant k > kmin ==> |B.u| > 0
      invariant k == g + 1 ==> Before(cs, B, sh, g, Count(cs.lens, g), i, junk)
    {
      B, i, p, sh := CodesOf(cs, B, c, g, l, k, i, p, b, v, simple, d, e, junk, sh);
      if k < g {
        Lengthen(cs, B, sh, k, i, junk);
        assert Offset(cs.lens, k + 1) == Offset(cs.lens, k) + Count(cs.lens, k);
      }
      k := k + 1;
    }
    EndBefore(cs, B, sh, i, junk);
    tables := B.tables;
  }

  lemma StartBefore(cs: CodeSet, kmin: nat, junk: Huft)
    requires WfSet(cs) && 1 <= kmin <= cs.l && forall n :: 1 <= n < kmin ==> Count(cs.lens, n) == 0
    ensures Before(cs, Build([], [], [], 0 - cs.l, 0), Shape([], [], []), kmin, 0, 0, junk)
  {
    UsedZero(cs.lens, kmin - 1);
    ScaleOne(cs.g - kmin);
    ScaleOne(cs.g - (kmin - 1));
    CodeLo(cs, kmin, 0);
    ValOfCodeZero(kmin);
  }

  lemma {:induction false} ValOfCodeZero(k: nat)
    ensures ValOf(MsbBits(0, k)) == 0
  {
    if k == 0 {
    } else {
      ValOfCodeZero(k - 1);
      ValOfPadded(MsbBits(0, k - 1), [false]);
    }
  }

  lemma {:induction false} OffsetZero(lens: seq<nat>, k: nat)
    requires forall n :: 1 <= n < k ==> Count(lens, n) == 0
    ensures Offset(lens, k) == 0
  {
    if k > 1 { OffsetZero(lens, k - 1); }
  }

  lemma EndBefore(cs: CodeSet, B: Build, sh: Shape, i: nat, junk: Huft)
    requires Before(cs, B, sh, cs.g, Count(cs.lens, cs.g), i, junk)
    ensures AllCells(cs, B.tables, sh) && Extra(cs, B.tables, sh, junk)
  {
    hide Extra, AllCells, Inv;
    CoverStep(cs.lens, cs.g, cs.g);
    AllDone(cs, B.tables, sh, B.u);
  }

  lemma {:induction false} ExtendOffset(b: seq<nat>, g: nat, y: nat, k: nat)
    requires k <= g
    ensures Offset(Extend(b, g, y), k) == Offset(b, k)
  {
    if k > 1 {
      ExtendOffset(b, g, y, k - 1);
      ExtendCount(b, g, y, k - 1);
    }
  }

  // ---- the whole ----

  /** *m on return: the table bits, kept between the shortest and the longest length. */
  ghost function TableBits(b: seq<nat>, m: nat): nat {
    var l := if m < MinLen(b) then MinLen(b) else m;
    if l > MaxLen(b) then MaxLen(b) else l
  }

  /** What huft_build returns (malloc succeeding). */
  ghost function ResultOf(b: seq<nat>): nat {
    var g := MaxLen(b);
    if g == 0 then 0
    else if Used(b, g) > Pow2(g) then 2
    else if Used(b, g) < Pow2(g) && g != 1 then 1
    else 0
  }

  /**
   * The result in terms of Kraft's sum, in units of 2^-g: 2 when the codes need more than there is, 1 when they leave
   * something over and are not a single code of one bit.
   */
  lemma ResultIsKraft(b: seq<nat>)
    requires MaxLen(b) > 0
    ensures ResultOf(b) == 2 <==> KraftSum(b, MaxLen(b)) > Pow2(MaxLen(b))
    ensures ResultOf(b) == 1 <==> KraftSum(b, MaxLen(b)) < Pow2(MaxLen(b)) && MaxLen(b) != 1
    ensures ResultOf(b) <= 2
  {
    UsedIsKraft(b, MaxLen(b));
  }

  lemma SetCounts(b: seq<nat>, l: nat, v: seq<nat>, simple: nat, d: seq<nat>, e: seq<nat>, c: seq<nat>, y: nat,
                  kmin: nat)
    requires |b| <= |v| && |c| == BMAX + 1 && 0 < MaxLen(b) <= BMAX && y == Free(b, MaxLen(b))
    requires forall k :: 0 <= k <= BMAX ==> c[k] == Count(b, k)
    requires kmin <= MaxLen(b) && forall n :: 1 <= n < kmin ==> Count(b, n) == 0
    ensures var g, lens := MaxLen(b), SetOf(b, l, v, simple, d, e).lens;
            && (forall n :: 1 <= n <= g ==> c[g := c[g] + y][n] == Count(lens, n))
            && (forall n :: 1 <= n <= g ==> Offset(lens, n) == Offset(b, n))
            && (forall n :: 1 <= n < kmin ==> Count(lens, n) == 0)
            && (kmin > 0 && Count(b, kmin) > 0 ==> Count(lens, kmin) > 0)
  {
    var g, lens := MaxLen(b), SetOf(b, l, v, simple, d, e).lens;
    forall n | 1 <= n <= g
      ensures c[g := c[g] + y][n] == Count(lens, n) && Offset(lens, n) == Offset(b, n)
    {
      ExtendCount(b, g, y, n);
      ExtendOffset(b, g, y, n);
    }
    if kmin > 0 { ExtendCount(b, g, y, kmin); }
  }

  /** Callers pass lengths of at most BMAX bits for at most N_MAX symbols. */
  method BuildTables(b: seq<nat>, simple: nat, d: seq<nat>, e: seq<nat>, m: nat, vjunk: seq<nat>, junk: Huft)
    returns (result: nat, tables: seq<seq<Huft>>, l: nat, ghost v: seq<nat>, ghost sh: Shape)
    requires 1 <= |b| <= N_MAX == |vjunk| && (forall i :: 0 <= i < |b| ==> b[i] <= BMAX) && ListOk(e)
    ensures result == ResultOf(b)
    ensures MaxLen(b) == 0 ==> tables == [] && l == 0
    ensures MaxLen(b) > 0 ==> l == TableBits(b, m)
    ensures |v| == N_MAX
    ensures MaxLen(b) > 0 && result != 2 ==>
              AllCells(SetOf(b, l, v, simple, d, e), tables, sh) &&
                Extra(SetOf(b, l, v, simple, d, e), tables, sh, junk)
  {
    hide AllCells, Extra, SetOf, WfSet, Arranged;
    v, sh, tables := vjunk, Shape([], [], []), [];
    var c := CountLengths(b);
    AllZero(b);
    if c[0] == |b| {
      return 0, [], 0, v, sh;
    }
    MaxLenAtMost(b, BMAX);
    var kmin, g := FindBounds(c, b);
    l := m;
    if l < kmin { l := kmin; }
    if l > g { l := g; }
    var bad, y := Adjust(c, kmin, g, b);
    if bad {
      return 2, [], l, v, sh;
    }
    var x := Offsets(c, g, b);
    var sorted := SortValues(b, x, g, vjunk);
    v := sorted;
    ghost var cs := SetOf(b, l, v, simple, d, e);
    SetOk(b, l, v, simple, d, e);
    SetCounts(b, l, v, simple, d, e, c, y, kmin);
    SetFields(b, l, v, simple, d, e);
    c := c[g := c[g] + y];
    tables, sh := AllCodes(cs, c, kmin, g, l, b, sorted, simple, d, e, junk);
    result := if y != 0 && g != 1 then 1 else 0;
  }

  lemma SetFields(b: seq<nat>, l: nat, v: seq<nat>, simple: nat, d: seq<nat>, e: seq<nat>)
    requires |b| <= |v|
    ensures SetOf(b, l, v, simple, d, e).g == MaxLen(b) && SetOf(b, l, v, simple, d, e).l == l
  {
  }
}
