/** The guess that ct_tally makes now and then (trees.c:986-1000): has the block compressed well enough to end it? */
module BlockStop {
  import opened Rfc1951
  import opened Huffman
  import opened TokenCode
  import opened TallyBuffers
  import opened BlockLength

  /** Distance bits of the tokens if every distance code had five bits. */
  ghost function GuessBits(ts: seq<Token>): nat
    requires AllValid(ts)
  {
    if |ts| == 0 then 0
    else
      var t := ts[|ts| - 1];
      GuessBits(ts[..|ts| - 1]) + if t.Match? then 5 + DIST_EXTRA[DistCode(t.dist)] else 0
  }

  /** Few matches so far, and eight bits a token with the distance bits are less than half of the input. */
  ghost predicate Profitable(ts: seq<Token>, inLength: nat)
    requires AllValid(ts)
  {
    |Dists(ts)| < |ts| / 2 && (8 * |ts| + GuessBits(ts)) / 8 < inLength / 2
  }

  ghost function Weights(): (w: seq<nat>)
    ensures |w| == D_CODES && forall d :: 0 <= d < D_CODES ==> w[d] == 5 + DIST_EXTRA[d]
  {
    seq(D_CODES, d requires 0 <= d < D_CODES => 5 + DIST_EXTRA[d])
  }

  /** Summing over the codes is summing over the tokens. */
  lemma {:induction false} GuessIsDot(ts: seq<Token>)
    requires AllValid(ts)
    ensures GuessBits(ts) == Dot(DistFreq(ts), Weights())
  {
    hide Dot, DistCode, Weights, DIST_EXTRA;
    if |ts| == 0 {
      DotZero(Zeros16(D_CODES), Weights());
    } else {
      var p, t := ts[..|ts| - 1], ts[|ts| - 1];
      GuessIsDot(p);
      if t.Match? { DotBump(DistFreq(p), Weights(), DistCode(t.dist)); }
    }
  }

  lemma DotNext(f: seq<nat>, w: seq<nat>, d: nat)
    requires d < |f| && d < |w|
    ensures Dot(f[..d + 1], w[..d + 1]) == Dot(f[..d], w[..d]) + f[d] * w[d]
  {
    assert f[..d + 1] == f[..d] + [f[d]] && w[..d + 1] == w[..d] + [w[d]];
    DotSnoc(f[..d], w[..d], f[d], w[d]);
  }

  method WorthStopping(dFc: seq<nat>, lastLit: nat, lastDist: nat, inLength: nat,
                       ghost ts: seq<Token>) returns (stop: bool)
    requires AllValid(ts) && DistFreq(ts) <= dFc && lastLit == |ts| && lastDist == |Dists(ts)|
    ensures stop == Profitable(ts, inLength)
  {
    hide Dot, DistFreq, GuessBits, Weights, Dists, DIST_EXTRA;
    ghost var f, w := DistFreq(ts), Weights();
    GuessIsDot(ts);
    BaseSizes();
    DotZero(f[..0], w[..0]);
    var outLength: nat := 8 * lastLit;
    var dcode := 0;
    while dcode < D_CODES
      invariant 0 <= dcode <= D_CODES && outLength == 8 * lastLit + Dot(f[..dcode], w[..dcode])
    {
      DotNext(f, w, dcode);
      assert dFc[dcode] == f[dcode];
      outLength := outLength + dFc[dcode] * (5 + DIST_EXTRA[dcode]);
      dcode := dcode + 1;
    }
    assert f[..dcode] == f && w[..dcode] == w;
    stop := lastDist < lastLit / 2 && outLength / 8 < inLength / 2;
  }
}
