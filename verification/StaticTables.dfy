/** The tables that ct_init (trees.c:332-402) builds for lengths, distances and the static trees. */
module StaticTables {
  import opened Bitstring
  import opened Codes
  import opened Rfc1951
  import opened FixedCodes
  import opened TokenCode

  // ---- codes of lengths and distances ----

  lemma {:induction false} BaseRises(base: seq<nat>, i: nat, j: nat)
    requires i <= j < |base| && forall c :: 0 <= c < |base| - 1 ==> base[c] < base[c + 1]
    ensures base[i] <= base[j]
  {
    if i < j { BaseRises(base, i, j - 1); }
  }

  lemma {:induction false} FindCodeIs(base: seq<nat>, v: nat, c0: nat, c: nat)
    requires c <= c0 < |base| && base[0] <= v && (forall k :: 0 <= k < |base| - 1 ==> base[k] < base[k + 1])
    requires base[c] <= v && (c + 1 < |base| ==> v < base[c + 1])
    ensures FindCode(base, v, c0) == c
  {
    if c < c0 {
      BaseRises(base, c + 1, c0);
      FindCodeIs(base, v, c0 - 1, c);
    }
  }

  lemma LengthSteps()
    ensures |LENGTH_BASE| == |LENGTH_EXTRA| == 29 && LENGTH_BASE[0] == 3 && LENGTH_BASE[28] == 258
    ensures forall c :: 0 <= c < 28 ==> LENGTH_BASE[c] < LENGTH_BASE[c + 1]
    ensures forall c :: 0 <= c < 27 ==> LENGTH_BASE[c] + Pow2(LENGTH_EXTRA[c]) == LENGTH_BASE[c + 1]
    ensures LENGTH_BASE[27] + Pow2(LENGTH_EXTRA[27]) == 259
  {
    Pow2Values();
  }

  lemma DistSteps()
    ensures |DIST_BASE| == |DIST_EXTRA| == 30 && DIST_BASE[0] == 1 && DIST_BASE[16] == 257
    ensures forall c :: 0 <= c < 29 ==> DIST_BASE[c] < DIST_BASE[c + 1]
    ensures forall c :: 0 <= c < 29 ==> DIST_BASE[c] + Pow2(DIST_EXTRA[c]) == DIST_BASE[c + 1]
    ensures DIST_BASE[29] + Pow2(DIST_EXTRA[29]) == 32769
  {
    Pow2Values();
  }

  lemma LenCodeIs(len: nat, c: nat)
    requires 3 <= len <= 258 && c < 29 && LENGTH_BASE[c] <= len && (c < 28 ==> len < LENGTH_BASE[c + 1])
    ensures LenCode(len) == c
  {
    LengthSteps();
    FindCodeIs(LENGTH_BASE, len, 28, c);
  }

  lemma DistCodeIs(dist: nat, c: nat)
    requires 1 <= dist <= 32768 && c < 30 && DIST_BASE[c] <= dist && (c < 29 ==> dist < DIST_BASE[c + 1])
    ensures DistCode(dist) == c
  {
    DistSteps();
    FindCodeIs(DIST_BASE, dist, 29, c);
  }

  /** length_code and base_length; entry 28 of base_length is never written. */
  ghost predicate LengthTables(lengthCode: seq<nat>, baseLength: seq<nat>) {
    && |lengthCode| == 256 && |baseLength| == 29
    && (forall lc :: 0 <= lc < 256 ==> lengthCode[lc] == LenCode(lc + 3))
    && forall c :: 0 <= c < 28 ==> baseLength[c] + 3 == LENGTH_BASE[c]
  }

  /** trees.c:349-361 */
  method InitLengths() returns (lengthCode: seq<nat>, baseLength: seq<nat>)
    ensures LengthTables(lengthCode, baseLength)
  {
    hide LENGTH_BASE, LENGTH_EXTRA, LenCode, Pow2;
    LengthSteps();
    lengthCode, baseLength := seq(256, i => 0), seq(29, i => 0);
    var length, code := 0, 0;
    while code < 28
      invariant 0 <= code <= 28 && |lengthCode| == 256 && |baseLength| == 29
      invariant length + 3 == if code < 28 then LENGTH_BASE[code] else 259
      invariant forall lc :: 0 <= lc < length && lc < 255 ==> lengthCode[lc] == LenCode(lc + 3)
      invariant forall c :: 0 <= c < code ==> baseLength[c] + 3 == LENGTH_BASE[c]
    {
      baseLength := baseLength[code := length];
      BaseRises(LENGTH_BASE, code + 1, 28);
      var n := 0;
      while n < Pow2(LENGTH_EXTRA[code])
        invariant 0 <= n <= Pow2(LENGTH_EXTRA[code]) && length + 3 == LENGTH_BASE[code] + n && |lengthCode| == 256
        invariant forall lc :: 0 <= lc < length && lc < 255 ==> lengthCode[lc] == LenCode(lc + 3)
      {
        if length < 255 { LenCodeIs(length + 3, code); }
        lengthCode := lengthCode[length := code];
        length := length + 1;
        n := n + 1;
      }
      code := code + 1;
    }
    LenCodeIs(258, 28);
    lengthCode := lengthCode[length - 1 := code];
  }

  /** d_code of the source. */
  function DCode(distCode: seq<nat>, dist: nat): nat
    requires |distCode| == 512 && dist < 32768
  {
    if dist < 256 then distCode[dist] else distCode[256 + dist / 128]
  }

  ghost predicate DistTables(distCode: seq<nat>, baseDist: seq<nat>) {
    && |distCode| == 512 && |baseDist| == 30
    && (forall d :: 0 <= d < 32768 ==> DCode(distCode, d) == DistCode(d + 1))
    && forall c :: 0 <= c < 30 ==> baseDist[c] + 1 == DIST_BASE[c]
  }

  /** The codes of short distances (trees.c:364-370). */
  method InitNear() returns (distCode: seq<nat>, baseDist: seq<nat>)
    ensures |distCode| == 512 && |baseDist| == 30
    ensures forall d :: 0 <= d < 256 ==> distCode[d] == DistCode(d + 1)
    ensures forall c :: 0 <= c < 16 ==> baseDist[c] + 1 == DIST_BASE[c]
  {
    hide DIST_BASE, DIST_EXTRA, DistCode, Pow2;
    DistSteps();
    distCode, baseDist := seq(512, i => 0), seq(30, i => 0);
    var dist, code := 0, 0;
    while code < 16
      invariant 0 <= code <= 16 && |distCode| == 512 && |baseDist| == 30 && dist + 1 == DIST_BASE[code]
      invariant forall d :: 0 <= d < dist ==> d < 512 && distCode[d] == DistCode(d + 1)
      invariant forall c :: 0 <= c < code ==> baseDist[c] + 1 == DIST_BASE[c]
    {
      baseDist := baseDist[code := dist];
      BaseRises(DIST_BASE, code + 1, 16);
      var n := 0;
      while n < Pow2(DIST_EXTRA[code])
        invariant 0 <= n <= Pow2(DIST_EXTRA[code]) && dist + 1 == DIST_BASE[code] + n && |distCode| == 512
        invariant forall d :: 0 <= d < dist ==> d < 512 && distCode[d] == DistCode(d + 1)
      {
        DistCodeIs(dist + 1, code);
        distCode := distCode[dist := code];
        dist := dist + 1;
        n := n + 1;
      }
      code := code + 1;
    }
  }

  lemma FarSteps(c: nat)
    requires 16 <= c < 30
    ensures DIST_EXTRA[c] >= 7 && Pow2(DIST_EXTRA[c]) == 128 * Pow2(DIST_EXTRA[c] - 7) && (DIST_BASE[c] - 1) % 128 == 0
  {
    Pow2Values();
  }

  /** Entry 256 + e stands for all distances d with d / 128 == e. */
  ghost predicate FarCode(distCode: seq<nat>, e: nat)
    requires |distCode| == 512 && e < 256
  {
    forall dist :: 128 * e < dist <= 128 * e + 128 ==> distCode[256 + e] == DistCode(dist)
  }

  lemma FarIs(distCode: seq<nat>, e: nat, c: nat)
    requires |distCode| == 512 && e < 256 && 16 <= c < 30 && distCode[256 + e] == c
    requires DIST_BASE[c] <= 128 * e + 1 && 128 * e + 128 < DIST_BASE[c] + Pow2(DIST_EXTRA[c])
    ensures FarCode(distCode, e)
  {
    hide DIST_BASE, DIST_EXTRA, DistCode, Pow2;
    DistSteps();
    forall dist | 128 * e < dist <= 128 * e + 128
      ensures DistCode(dist) == c
    {
      DistCodeIs(dist, c);
    }
  }

  /** The codes of long distances, of which 7 bits are left out (trees.c:372-378). */
  method InitFar(distCode0: seq<nat>, baseDist0: seq<nat>) returns (distCode: seq<nat>, baseDist: seq<nat>)
    requires |distCode0| == 512 && |baseDist0| == 30
    requires forall d :: 0 <= d < 256 ==> distCode0[d] == DistCode(d + 1)
    requires forall c :: 0 <= c < 16 ==> baseDist0[c] + 1 == DIST_BASE[c]
    ensures DistTables(distCode, baseDist)
  {
    hide DIST_BASE, DIST_EXTRA, DistCode, Pow2, FarCode;
    DistSteps();
    distCode, baseDist := distCode0, baseDist0;
    var dist, code := 2, 16;
    while code < 30
      invariant 16 <= code <= 30 && 2 <= dist <= 256 && |distCode| == 512 && |baseDist| == 30
      invariant 128 * dist + 1 == if code < 30 then DIST_BASE[code] else 32769
      invariant forall d :: 0 <= d < 256 ==> distCode[d] == DistCode(d + 1)
      invariant forall e :: 2 <= e < dist ==> FarCode(distCode, e)
      invariant forall c :: 0 <= c < code ==> baseDist[c] + 1 == DIST_BASE[c]
    {
      FarSteps(code);
      baseDist := baseDist[code := dist * 128];
      if code < 29 { BaseRises(DIST_BASE, code + 1, 29); }
      ghost var d0 := dist;
      var n := 0;
      while n < Pow2(DIST_EXTRA[code] - 7)
        invariant 0 <= n <= Pow2(DIST_EXTRA[code] - 7) && dist == d0 + n && |distCode| == 512
        invariant forall d :: 0 <= d < 256 ==> distCode[d] == DistCode(d + 1)
        invariant forall e :: 2 <= e < dist ==> FarCode(distCode, e)
      {
        assert 128 * (dist + 1) + 1 <= DIST_BASE[code] + Pow2(DIST_EXTRA[code]) <= 32769;
        ghost var was := distCode;
        distCode := distCode[256 + dist := code];
        FarIs(distCode, dist, code);
        forall e | 2 <= e < dist ensures FarCode(distCode, e) { FarSame(was, distCode, e); }
        dist := dist + 1;
        n := n + 1;
      }
      code := code + 1;
    }
    FarAll(distCode);
  }

  lemma FarSame(a: seq<nat>, b: seq<nat>, e: nat)
    requires |a| == |b| == 512 && e < 256 && a[256 + e] == b[256 + e] && FarCode(a, e)
    ensures FarCode(b, e)
  {
  }

  lemma FarAll(distCode: seq<nat>)
    requires |distCode| == 512 && forall d :: 0 <= d < 256 ==> distCode[d] == DistCode(d + 1)
    requires forall e :: 2 <= e < 256 ==> FarCode(distCode, e)
    ensures forall d :: 0 <= d < 32768 ==> DCode(distCode, d) == DistCode(d + 1)
  {
    hide DistCode;
    forall d | 0 <= d < 32768
      ensures DCode(distCode, d) == DistCode(d + 1)
    {
      if d >= 256 {
        var e := d / 128;
        assert FarCode(distCode, e);
      }
    }
  }

  // ---- the static trees ----

  /** The codes of a tree, ready for send_code. */
  ghost predicate StaticTree(fc: seq<nat>, lens: seq<nat>) {
    |fc| == |lens| && forall n :: 0 <= n < |lens| ==> HasCode(fc[n], lens, n)
  }

  lemma FixedFits()
    ensures Fits(FixedLits(), MAX_BITS) && Fits(FixedDists(), MAX_BITS)
  {
    FixedComplete();
    MaxLenAtMost(FixedLits(), 9);
    FitsUp(FixedLits(), 9, MAX_BITS);
    FitsUp(FixedDists(), 5, MAX_BITS);
  }

  /** trees.c:382-392 */
  method InitStaticLits() returns (fc: seq<nat>, dl: seq<nat>)
    ensures dl == FixedLits() && StaticTree(fc, FixedLits())
  {
    hide HasCode, FixedLen, Fits, Count;
    var blCount: seq<nat> := seq(MAX_BITS + 1, i => 0);
    dl := [];
    FixedLens();
    while |dl| <= 143
      invariant |dl| <= 144 && dl == FixedLits()[..|dl|] && blCount == seq(16, i => 0)[8 := |dl|]
    {
      blCount := blCount[8 := blCount[8] + 1];
      dl := dl + [8];
    }
    while |dl| <= 255
      invariant 144 <= |dl| <= 256 && dl == FixedLits()[..|dl|] && blCount == seq(16, i => 0)[8 := 144][9 := |dl| - 144]
    {
      blCount := blCount[9 := blCount[9] + 1];
      dl := dl + [9];
    }
    while |dl| <= 279
      invariant 256 <= |dl| <= 280 && dl == FixedLits()[..|dl|] &&
                blCount == seq(16, i => 0)[8 := 144][9 := 112][7 := |dl| - 256]
    {
      blCount := blCount[7 := blCount[7] + 1];
      dl := dl + [7];
    }
    while |dl| <= 287
      invariant 280 <= |dl| <= 288 && dl == FixedLits()[..|dl|]
      invariant blCount == seq(16, i => 0)[8 := 144 + (|dl| - 280)][9 := 112][7 := 24]
    {
      blCount := blCount[8 := blCount[8] + 1];
      dl := dl + [8];
    }
    assert dl == FixedLits();
    FixedFits();
    FixedCounts(blCount);
    fc := GenCodes(seq(288, i => 0), dl, blCount);
  }

  lemma FixedLens()
    ensures |FixedLits()| == 288
    ensures forall s :: 0 <= s < 288 ==>
                          FixedLits()[s] == if s < 144 then 8 else if s < 256 then 9 else if s < 280 then 7 else 8
  {
  }

  lemma FixedCounts(c: seq<nat>)
    requires |c| == 16 &&
             forall b :: 0 <= b < 16 ==>
                           c[b] == if b == 7 then 24 else if b == 8 then 152 else if b == 9 then 112 else 0
    ensures Counted(c, FixedLits())
  {
    forall b | 1 <= b <= MAX_BITS ensures c[b] == Count(FixedLits(), b) { FixedCount(b); }
  }

  lemma FixedDistCode(n: nat)
    requires n < 30
    ensures CodeBits(FixedDists(), n) == MsbBits(n, 5)
  {
    var d := FixedDists();
    assert d[..n] == Repeat(5, n);
    CountRepeat(5, n, 5);
    forall l: nat | 1 <= l <= 4 ensures Count(d, l) == 0 { CountRepeat(5, 30, l); }
    UsedZero(d, 4);
  }

  /** trees.c:395-398 */
  method InitStaticDists() returns (fc: seq<nat>, dl: seq<nat>)
    ensures dl == FixedDists() && StaticTree(fc, FixedDists())
  {
    fc, dl := [], [];
    while |dl| < 30
      invariant |fc| == |dl| <= 30 && dl == FixedDists()[..|dl|]
      invariant forall n :: 0 <= n < |fc| ==> HasCode(fc[n], FixedDists(), n)
    {
      var code := BiReverse(|dl|, 5);
      FixedDistCode(|dl|);
      fc, dl := fc + [code], dl + [5];
    }
    assert dl == FixedDists();
  }
}
