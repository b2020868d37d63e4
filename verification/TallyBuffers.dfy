/** ct_tally (trees.c:958-1006): the buffers of literals, lengths, distances and flags, and the frequencies. */
module TallyBuffers {
  import opened Bitstring
  import opened Rfc1951
  import opened TokenCode
  import opened StaticTables
  import opened Totals

  const LIT_BUFSIZE := 0x8000
  const DIST_BUFSIZE := 0x8000
  const L_CODES := 286
  const D_CODES := 30

  /** l_buf, d_buf, flag_buf with their running indices, and the flags not yet stored. */
  datatype Buffers = Buffers(lBuf: seq<nat>, dBuf: seq<nat>, flagBuf: seq<nat>,
                             lastLit: nat, lastDist: nat, lastFlags: nat, flags: nat, flagBit: nat)

  // ---- what the buffers stand for ----

  function Low(t: Token): int {
    match t
    case Literal(b) => b
    case Match(len, _) => len - 3
  }

  ghost function Flags(ts: seq<Token>): (r: seq<bool>)
    ensures |r| == |ts| && forall i :: 0 <= i < |ts| ==> r[i] == ts[i].Match?
  {
    seq(|ts|, i requires 0 <= i < |ts| => ts[i].Match?)
  }

  ghost function Dists(ts: seq<Token>): (r: seq<int>)
    ensures |r| <= |ts|
  {
    if |ts| == 0 then []
    else
      var t := ts[|ts| - 1];
      Dists(ts[..|ts| - 1]) + if t.Match? then [t.dist - 1] else []
  }

  /** The buffers hold the tokens `ts`. */
  ghost predicate Holds(B: Buffers, ts: seq<Token>) {
    && |B.lBuf| == LIT_BUFSIZE && |B.dBuf| == DIST_BUFSIZE && |B.flagBuf| == LIT_BUFSIZE / 8
    && B.lastLit == |ts| < LIT_BUFSIZE && (forall i :: 0 <= i < |ts| ==> ValidToken(ts[i]) && B.lBuf[i] == Low(ts[i]))
    && B.lastDist == |Dists(ts)| && (forall j :: 0 <= j < B.lastDist ==> B.dBuf[j] == Dists(ts)[j])
    && B.lastFlags == |ts| / 8 && B.flagBit == Pow2(|ts| % 8) && B.flags == ValOf(Flags(ts)[8 * B.lastFlags..])
    && forall j :: 0 <= j < B.lastFlags ==> B.flagBuf[j] == ValOf(Flags(ts)[8 * j..8 * j + 8])
  }

  method EmptyBuffers(B0: Buffers) returns (B: Buffers)
    requires |B0.lBuf| == LIT_BUFSIZE && |B0.dBuf| == DIST_BUFSIZE && |B0.flagBuf| == LIT_BUFSIZE / 8
    ensures Holds(B, [])
  {
    B := B0.(lastLit := 0, lastDist := 0, lastFlags := 0, flags := 0, flagBit := 1);
    assert Flags([])[8 * 0..] == [];
  }

  // ---- one token more ----

  lemma LowSnoc(B: Buffers, ts: seq<Token>, t: Token, lBuf: seq<nat>)
    requires Holds(B, ts) && |ts| + 1 < LIT_BUFSIZE && ValidToken(t) && lBuf == B.lBuf[|ts| := Low(t)]
    ensures forall i :: 0 <= i < |ts + [t]| ==> ValidToken((ts + [t])[i]) && lBuf[i] == Low((ts + [t])[i])
  {
  }

  lemma DistsSnoc(ts: seq<Token>, t: Token)
    ensures Dists(ts + [t]) == Dists(ts) + if t.Match? then [t.dist - 1] else []
  {
    assert (ts + [t])[..|ts|] == ts;
  }

  lemma OrBit(v: nat, n: nat)
    requires v < Pow2(n)
    ensures Or(v, Pow2(n)) == v + Pow2(n)
  {
    OrDisjoint(v, 1, n);
    assert 1 * Pow2(n) == Pow2(n);
  }

  lemma OneVal(b: bool)
    ensures ValOf([b]) == if b then 1 else 0
  {
    assert [b][1..] == [];
  }

  /** The flags of the current group, with one more. */
  lemma FlagsGrow(bits: seq<bool>, b: bool)
    requires |bits| < 8
    ensures ValOf(bits + [b]) == (if b then Or(ValOf(bits), Pow2(|bits|)) else ValOf(bits)) < 256
  {
    hide ValOf, Or;
    ValOfJoin(bits, [b]);
    OneVal(b);
    OrBit(ValOf(bits), |bits|);
    Pow2Values();
    Pow2Mono(|bits| + 1, 8);
    assert |bits + [b]| == |bits| + 1;
  }

  /** The fields of the flags after one more token; `full` when a group of eight is complete. */
  lemma FlagsSnoc(ts: seq<Token>, t: Token, k: nat)
    requires k == |ts| / 8
    ensures var ts' := ts + [t];
            && Flags(ts')[8 * k..] == Flags(ts)[8 * k..] + [t.Match?]
            && (forall j :: 0 <= j < k ==> Flags(ts')[8 * j..8 * j + 8] == Flags(ts)[8 * j..8 * j + 8])
            && (|ts'| % 8 == 0 ==> && |ts'| / 8 == k + 1 && Flags(ts')[8 * k..8 * k + 8] == Flags(ts')[8 * k..]
                                   && Flags(ts')[8 * (k + 1)..] == [])
            && (|ts'| % 8 != 0 ==> |ts'| / 8 == k && |ts'| % 8 == |ts| % 8 + 1)
  {
  }

  /** The flag part of ct_tally (trees.c:977-985). */
  method TallyFlag(B: Buffers, isMatch: bool, ghost ts: seq<Token>, ghost t: Token)
    returns (flagBuf: seq<nat>, lastFlags: nat, flags: nat, flagBit: nat)
    requires Holds(B, ts) && |ts| + 1 < LIT_BUFSIZE && isMatch == t.Match?
    ensures |flagBuf| == LIT_BUFSIZE / 8 && lastFlags == |ts + [t]| / 8
    ensures flagBit == Pow2(|ts + [t]| % 8) && flags == ValOf(Flags(ts + [t])[8 * lastFlags..])
    ensures forall j :: 0 <= j < lastFlags ==> flagBuf[j] == ValOf(Flags(ts + [t])[8 * j..8 * j + 8])
  {
    hide ValOf, Flags, Or, Pow2, Dists;
    flagBuf, lastFlags, flags, flagBit := B.flagBuf, B.lastFlags, B.flags, B.flagBit;
    FlagsSnoc(ts, t, lastFlags);
    FlagsGrow(Flags(ts)[8 * lastFlags..], t.Match?);
    if isMatch { flags := Or(flags, flagBit); }
    flagBit := (flagBit * 2) % 256;
    if (B.lastLit + 1) % 8 == 0 {
      flagBuf := flagBuf[lastFlags := flags];
      lastFlags := lastFlags + 1;
      flags, flagBit := 0, 1;
      EmptyVal();
    } else {
      NextBit(|ts| % 8);
    }
  }

  lemma EmptyVal()
    ensures ValOf([]) == 0 && Pow2(0) == 1
  {
  }

  lemma NextBit(k: nat)
    requires k < 7
    ensures (Pow2(k) * 2) % 256 == Pow2(k + 1)
  {
    Pow2Values();
    Pow2Mono(k + 1, 7);
  }

  /** The buffer part of ct_tally (trees.c:962-985): `dist` is 0 for a literal, `lc` the byte or the length minus 3. */
  method TallyToken(B: Buffers, dist: nat, lc: nat, ghost ts: seq<Token>) returns (r: Buffers)
    requires Holds(B, ts) && |ts| + 1 < LIT_BUFSIZE && lc < 256 && dist <= 32768
    ensures Holds(r, ts + [TokenOf(dist, lc)])
  {
    hide ValOf, Or, Dists, Flags;
    ghost var t := TokenOf(dist, lc);
    var flagBuf, lastFlags, flags, flagBit := TallyFlag(B, dist != 0, ts, t);
    DistsSnoc(ts, t);
    LowSnoc(B, ts, t, B.lBuf[|ts| := lc]);
    r := B.(lBuf := B.lBuf[B.lastLit := lc], lastLit := B.lastLit + 1,
            flagBuf := flagBuf, lastFlags := lastFlags, flags := flags, flagBit := flagBit);
    if dist != 0 {
      r := r.(dBuf := B.dBuf[B.lastDist := dist - 1], lastDist := B.lastDist + 1);
    }
  }

  function TokenOf(dist: nat, lc: nat): (t: Token)
    requires lc < 256
    ensures dist <= 32768 ==> ValidToken(t) && Low(t) == lc
  {
    if dist == 0 then Literal(lc) else Match(lc + 3, dist)
  }

  // ---- frequencies ----

  function LitSym(t: Token): (s: nat)
    requires ValidToken(t)
    ensures s < L_CODES && s != END_BLOCK
  {
    match t
    case Literal(b) => b
    case Match(len, _) => 257 + LenCode(len)
  }

  ghost predicate AllValid(ts: seq<Token>) {
    forall i :: 0 <= i < |ts| ==> ValidToken(ts[i])
  }

  function Zeros16(n: nat): (r: seq<nat>)
    ensures |r| == n && forall i :: 0 <= i < n ==> r[i] == 0
  {
    seq(n, i => 0)
  }

  /** Uses of the literal and length codes, the end of the block included. */
  ghost function LitFreq(ts: seq<Token>): (r: seq<nat>)
    requires AllValid(ts)
    ensures |r| == L_CODES
  {
    if |ts| == 0 then Zeros16(L_CODES)[END_BLOCK := 1]
    else
      var r, s := LitFreq(ts[..|ts| - 1]), LitSym(ts[|ts| - 1]);
      r[s := r[s] + 1]
  }

  /** Uses of the distance codes. */
  ghost function DistFreq(ts: seq<Token>): (r: seq<nat>)
    requires AllValid(ts)
    ensures |r| == D_CODES
  {
    if |ts| == 0 then Zeros16(D_CODES)
    else
      var r, t := DistFreq(ts[..|ts| - 1]), ts[|ts| - 1];
      if t.Match? then r[DistCode(t.dist) := r[DistCode(t.dist)] + 1] else r
  }

  lemma SumMore(s: seq<nat>, i: nat)
    requires i < |s|
    ensures Sum(s[i := s[i] + 1]) == Sum(s) + 1
  {
    SumUpdate(s, i, s[i] + 1);
  }

  lemma {:induction false} FreqSums(ts: seq<Token>)
    requires AllValid(ts)
    ensures Sum(LitFreq(ts)) == |ts| + 1 && Sum(DistFreq(ts)) <= |ts|
  {
    hide LitSym, DistCode, Sum, Zeros16;
    if |ts| == 0 {
      SumZeros(Zeros16(L_CODES));
      SumUpdate(Zeros16(L_CODES), END_BLOCK, 1);
      SumZeros(Zeros16(D_CODES));
    } else {
      var p, t := ts[..|ts| - 1], ts[|ts| - 1];
      FreqSums(p);
      SumMore(LitFreq(p), LitSym(t));
      if t.Match? { SumMore(DistFreq(p), DistCode(t.dist)); }
    }
  }

  /** The frequency fields of the two dynamic trees. */
  ghost predicate Freqs(lFc: seq<nat>, dFc: seq<nat>, ts: seq<Token>) {
    AllValid(ts) && LitFreq(ts) <= lFc && DistFreq(ts) <= dFc
  }

  /** The frequency part of ct_tally (trees.c:963-975), with the 16-bit counters. */
  method TallyFreq(lFc0: seq<nat>, dFc0: seq<nat>, dist: nat, lc: nat, lengthCode: seq<nat>, distCode: seq<nat>,
                   ghost baseLength: seq<nat>, ghost baseDist: seq<nat>, ghost ts: seq<Token>)
    returns (lFc: seq<nat>, dFc: seq<nat>)
    requires Freqs(lFc0, dFc0, ts) && |ts| + 1 < LIT_BUFSIZE && lc < 256 && dist <= 32768
    requires LengthTables(lengthCode, baseLength) && DistTables(distCode, baseDist)
    ensures |lFc| == |lFc0| && |dFc| == |dFc0| && Freqs(lFc, dFc, ts + [TokenOf(dist, lc)])
  {
    hide LenCode, DistCode, Sum, LitFreq, DistFreq, LitSym;
    ghost var t := TokenOf(dist, lc);
    FreqSnoc(ts, t);
    FreqSums(ts);
    lFc, dFc := lFc0, dFc0;
    if dist == 0 {
      LitSymIs(t, lc, lengthCode, baseLength);
      Bumped(LitFreq(ts), lFc, lc);
      lFc := lFc[lc := (lFc[lc] + 1) % 65536];
    } else {
      LitSymIs(t, lc, lengthCode, baseLength);
      var s, c := lengthCode[lc] + 257, DCode(distCode, dist - 1);
      Bumped(LitFreq(ts), lFc, s);
      Bumped(DistFreq(ts), dFc, c);
      lFc := lFc[s := (lFc[s] + 1) % 65536];
      dFc := dFc[c := (dFc[c] + 1) % 65536];
    }
  }

  lemma LitSymIs(t: Token, lc: nat, lengthCode: seq<nat>, baseLength: seq<nat>)
    requires ValidToken(t) && lc < 256 && Low(t) == lc && LengthTables(lengthCode, baseLength)
    ensures LitSym(t) == if t.Match? then lengthCode[lc] + 257 else lc
  {
    hide LenCode, LENGTH_BASE;
  }

  lemma Bumped(F: seq<nat>, f: seq<nat>, s: nat)
    requires F <= f && s < |F| && Sum(F) < 65535
    ensures F[s := F[s] + 1] <= f[s := (f[s] + 1) % 65536]
  {
    SumAt(F, s);
  }

  lemma ValidSnoc(ts: seq<Token>, t: Token)
    requires AllValid(ts) && ValidToken(t)
    ensures AllValid(ts + [t]) && (ts + [t])[..|ts|] == ts && (ts + [t])[|ts|] == t
  {
    hide ValidToken;
  }

  lemma FreqSnoc(ts: seq<Token>, t: Token)
    requires AllValid(ts) && ValidToken(t)
    ensures AllValid(ts + [t])
    ensures LitFreq(ts + [t]) == LitFreq(ts)[LitSym(t) := LitFreq(ts)[LitSym(t)] + 1]
    ensures DistFreq(ts + [t]) == if t.Match? then DistFreq(ts)[DistCode(t.dist) := DistFreq(ts)[DistCode(t.dist)] + 1]
                                  else DistFreq(ts)
  {
    hide LitSym, DistCode, ValidToken, Zeros16, AllValid;
    ValidSnoc(ts, t);
  }
}
