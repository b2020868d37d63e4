/** What each of the three kinds of block means to the reference decoder. */
module BlockMeaning {
  import opened Bitstring
  import opened BitIO
  import opened Codes
  import opened Rfc1951
  import opened TokenCode
  import opened DynamicCode
  import opened StaticTables

  /** The body of the block decodes to the expansion of the tokens, behind any output and before any other bits. */
  ghost predicate BodyIs(bk: seq<bool>, pos: nat, ts: seq<Token>, buf: Option<seq<byte>>, out: seq<byte>,
                         rest: seq<bool>)
    requires |bk| >= 3
  {
    AllReach(out, ts) && (buf.Some? ==> Expand(out, ts) == out + buf.value) ==>
      RefBody(ValOf(bk[1..3]), out, bk[3..] + rest, pos + 3) == Done(Expand(out, ts), rest)
  }

  /**
   * The bits `bk` at bit `pos` of the stream are a block for the tokens `ts`, which stand for the bytes `buf` if
   * those are known.
   */
  ghost predicate BlockOf(bk: seq<bool>, pos: nat, last: bool, ts: seq<Token>, buf: Option<seq<byte>>) {
    |bk| >= 3 && bk[0] == last && forall out, rest :: BodyIs(bk, pos, ts, buf, out, rest)
  }

  /** The three header bits. */
  ghost function Head(kind: nat, last: bool): (r: seq<bool>)
    ensures |r| == 3
  {
    BitsOf(2 * kind + (if last then 1 else 0), 3)
  }

  lemma HeadRead(kind: nat, last: bool, body: seq<bool>)
    requires kind <= 2
    ensures var bk := Head(kind, last) + body; bk[0] == last && ValOf(bk[1..3]) == kind && bk[3..] == body
  {
    var v := 2 * kind + (if last then 1 else 0);
    assert v / 2 == kind && (v % 2 == 1) == last;
    var h := Head(kind, last);
    assert h == [last] + BitsOf(kind, 2);
    Pow2Values();
    ValOfBitsOf(kind, 2);
    BitsOfSmall(kind, 2);
    assert (h + body)[1..3] == BitsOf(kind, 2);
  }

  lemma DynamicBlock(ll: seq<nat>, dl: seq<nat>, cl: seq<nat>, nb: nat, ts: seq<Token>, pos: nat, last: bool,
                     buf: Option<seq<byte>>)
    requires TreesOk(ll, dl, cl, nb) && AllCoded(ll, dl, ts) && END_BLOCK < |ll| && ll[END_BLOCK] > 0
    ensures BlockOf(Head(2, last) + (HeaderBits(ll, dl, cl, nb) + BlockBits(ll, dl, ts)), pos, last, ts, buf)
  {
    hide RefDynamic, Expand, AllReach, TreesOk, HeaderBits, BlockBits, ValOf, AllCoded, Head;
    var body := HeaderBits(ll, dl, cl, nb) + BlockBits(ll, dl, ts);
    HeadRead(2, last, body);
    forall out: seq<byte>, rest: seq<bool>
      ensures BodyIs(Head(2, last) + body, pos, ts, buf, out, rest)
    {
      if AllReach(out, ts) { DynamicDecodes(ll, dl, cl, nb, ts, out, rest); }
    }
  }

  lemma StaticBlock(ts: seq<Token>, pos: nat, last: bool, buf: Option<seq<byte>>)
    requires AllCoded(FixedLits(), FixedDists(), ts)
    ensures FixedLits()[END_BLOCK] > 0
    ensures BlockOf(Head(1, last) + BlockBits(FixedLits(), FixedDists(), ts), pos, last, ts, buf)
  {
    hide RefCodes, Expand, AllReach, BlockBits, ValOf, AllCoded, Head, Fits;
    var body := BlockBits(FixedLits(), FixedDists(), ts);
    HeadRead(1, last, body);
    FixedFits();
    forall out: seq<byte>, rest: seq<bool>
      ensures BodyIs(Head(1, last) + body, pos, ts, buf, out, rest)
    {
      if AllReach(out, ts) { BlockDecodes(FixedLits(), FixedDists(), MAX_BITS, ts, out, rest); }
    }
  }

  lemma {:induction false} BytesBack(buf: seq<byte>, rest: seq<bool>)
    ensures |BytesBits(buf)| == 8 * |buf| && RefBytes(BytesBits(buf) + rest, |buf|) == buf
    ensures (BytesBits(buf) + rest)[8 * |buf|..] == rest
  {
    if |buf| == 0 {
    } else {
      var t := buf[1..];
      BytesBack(t, rest);
      assert BytesBits(buf) + rest == BitsOf(buf[0], 8) + (BytesBits(t) + rest);
      Pow2Values();
      ExtraRead(buf[0], 8, BytesBits(t) + rest);
    }
  }

  /** A stored block is read back. */
  lemma StoredDecodes(buf: seq<byte>, pad: nat, out: seq<byte>, rest: seq<bool>)
    requires |buf| <= 65535
    ensures RefStored(out, (Zeros(pad) + StoredBits(buf, true)) + rest, pad) == Done(out + buf, rest)
  {
    hide BitsOf, ValOf, BytesBits, RefBytes, Zeros, Pow2;
    var n := |buf|;
    var a, b, c := BitsOf(n, 16), BitsOf(65535 - n, 16), BytesBits(buf);
    var bits := (Zeros(pad) + StoredBits(buf, true)) + rest;
    StoredShape(Zeros(pad), a, b, c, rest);
    assert bits == Zeros(pad) + (a + (b + (c + rest)));
    Pow2Values();
    ExtraRead(n, 16, b + (c + rest));
    ExtraRead(65535 - n, 16, c + rest);
    BytesBack(buf, rest);
    StoredPlaces(Zeros(pad), a, b, c, rest);
  }

  /** Where the four parts of a stored block stand. */
  lemma StoredPlaces(z: seq<bool>, a: seq<bool>, b: seq<bool>, c: seq<bool>, rest: seq<bool>)
    requires |a| == |b| == 16
    ensures var bits, p := z + (a + (b + (c + rest))), |z|;
            && bits[p..p + 16] == (a + (b + (c + rest)))[..16]
            && bits[p + 16..p + 32] == (b + (c + rest))[..16]
            && bits[p + 32..] == c + rest
            && bits[p + 32 + |c|..] == (c + rest)[|c|..]
  {
  }

  lemma StoredShape(z: seq<bool>, a: seq<bool>, b: seq<bool>, c: seq<bool>, rest: seq<bool>)
    ensures (z + ((a + b) + c)) + rest == z + (a + (b + (c + rest)))
  {
  }

  lemma StoredBlock(buf: seq<byte>, ts: seq<Token>, pos: nat, last: bool)
    requires |buf| <= 65535
    ensures BlockOf(Head(0, last) + (Zeros(Pad(pos + 3)) + StoredBits(buf, true)), pos, last, ts, Some(buf))
  {
    hide RefStored, Expand, AllReach, StoredBits, ValOf, Head, Zeros;
    var body := Zeros(Pad(pos + 3)) + StoredBits(buf, true);
    HeadRead(0, last, body);
    forall out: seq<byte>, rest: seq<bool>
      ensures BodyIs(Head(0, last) + body, pos, ts, Some(buf), out, rest)
    {
      StoredDecodes(buf, Pad(pos + 3), out, rest);
    }
  }
}
