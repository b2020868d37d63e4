/** Whole streams: blocks one after the other, and the tokens of a block against the data. */
module Stream {
  import opened Bitstring
  import opened Codes
  import opened Rfc1951
  import opened BlockMeaning

  ghost predicate Continues(bits: seq<bool>, out: seq<byte>, rest: seq<bool>) {
    RefStream([], bits + rest, 0) == RefStream(out, rest, |bits|)
  }

  /** The bits are blocks, none of them the last, that decode to `out`. */
  ghost predicate StreamTo(bits: seq<bool>, out: seq<byte>) {
    forall rest :: Continues(bits, out, rest)
  }

  /** The bits are a complete stream for `out`. */
  ghost predicate StreamIs(bits: seq<bool>, out: seq<byte>) {
    forall rest :: Ends(bits, out, rest)
  }

  ghost predicate Ends(bits: seq<bool>, out: seq<byte>, rest: seq<bool>) {
    RefStream([], bits + rest, 0) == Done(out, rest)
  }

  lemma StreamStart()
    ensures StreamTo([], [])
  {
    forall rest: seq<bool>
      ensures Continues([], [], rest)
    {
      assert [] + rest == rest;
    }
  }

  /** A block in front of the rest. */
  lemma OneBlock(out: seq<byte>, bk: seq<bool>, pos: nat, last: bool, ts: seq<Token>, buf: Option<seq<byte>>,
                 rest: seq<bool>)
    requires BlockOf(bk, pos, last, ts, buf) && AllReach(out, ts) && (buf.Some? ==> Expand(out, ts) == out + buf.value)
    ensures RefStream(out, bk + rest,
                      pos) == if last then Done(Expand(out, ts), rest) else RefStream(Expand(out, ts), rest, pos + |bk|)
  {
    hide RefBody, Expand, AllReach, ValOf;
    assert BodyIs(bk, pos, ts, buf, out, rest);
    assert (bk + rest)[1..3] == bk[1..3] && (bk + rest)[3..] == bk[3..] + rest;
  }

  lemma BlockExtends(bits: seq<bool>, out: seq<byte>, bk: seq<bool>, last: bool, ts: seq<Token>, buf: Option<seq<byte>>)
    requires StreamTo(bits, out) && BlockOf(bk, |bits|, last, ts, buf) && AllReach(out, ts) &&
             (buf.Some? ==> Expand(out, ts) == out + buf.value)
    ensures !last ==> StreamTo(bits + bk, Expand(out, ts))
    ensures last ==> StreamIs(bits + bk, Expand(out, ts))
  {
    hide BlockOf, Expand, AllReach, RefStream;
    forall rest: seq<bool>
      ensures if last then Ends(bits + bk, Expand(out, ts), rest) else Continues(bits + bk, Expand(out, ts), rest)
    {
      assert Continues(bits, out, bk + rest);
      ConcatAssoc(bits, bk, rest);
      OneBlock(out, bk, |bits|, last, ts, buf, rest);
    }
  }

  // ---- tokens that reproduce the data ----

  lemma {:induction false} ExpandOne(out: seq<byte>, ts: seq<Token>, t: Token)
    requires AllReach(out, ts) && Reaches(Expand(out, ts), t)
    ensures AllReach(out, ts + [t]) && Expand(out, ts + [t]) == Expand1(Expand(out, ts), t)
    decreases |ts|
  {
    if |ts| == 0 {
      assert ts + [t] == [t] && [t][1..] == [];
    } else {
      ExpandOne(Expand1(out, ts[0]), ts[1..], t);
      assert (ts + [t])[1..] == ts[1..] + [t];
    }
  }

  /** The data repeat themselves at distance `dist` for `len` bytes from `p` on. */
  ghost predicate Repeats(data: seq<byte>, p: nat, len: nat, dist: nat) {
    1 <= dist <= p && p + len <= |data| && forall i :: p <= i < p + len ==> data[i] == data[i - dist]
  }

  lemma {:induction false} CopyIsData(data: seq<byte>, p: nat, len: nat, dist: nat)
    requires Repeats(data, p, len, dist)
    ensures Copy(data[..p], len, dist) == data[..p + len]
    decreases len
  {
    if len == 0 {
    } else {
      assert data[p] == data[p - dist];
      assert data[..p] + [data[p]] == data[..p + 1];
      CopyIsData(data, p + 1, len - 1, dist);
    }
  }

  /** The tokens so far, from byte `start` of the data on, stand for the data up to `p`. */
  ghost predicate Covers(data: seq<byte>, start: nat, p: nat, ts: seq<Token>) {
    start <= p <= |data| && AllReach(data[..start], ts) && Expand(data[..start], ts) == data[..p]
  }

  lemma CoverLiteral(data: seq<byte>, start: nat, p: nat, ts: seq<Token>)
    requires Covers(data, start, p, ts) && p < |data|
    ensures Covers(data, start, p + 1, ts + [Literal(data[p])])
  {
    ExpandOne(data[..start], ts, Literal(data[p]));
  }

  lemma CoverMatch(data: seq<byte>, start: nat, p: nat, ts: seq<Token>, len: nat, dist: nat)
    requires Covers(data, start, p, ts) && Repeats(data, p, len, dist)
    ensures Covers(data, start, p + len, ts + [Match(len, dist)])
  {
    hide Copy, Expand, AllReach;
    ExpandOne(data[..start], ts, Match(len, dist));
    CopyIsData(data, p, len, dist);
  }

  lemma CoverNone(data: seq<byte>, p: nat)
    requires p <= |data|
    ensures Covers(data, p, p, [])
  {
  }
}
