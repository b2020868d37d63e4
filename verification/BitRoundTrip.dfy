/** Any list of numbers sent with send_bits is read back with NEEDBITS and DUMPBITS. */
module BitRoundTrip {
  import opened Bitstring
  import opened BitIO

  /** One call of send_bits. */
  datatype Send = Send(value: nat, length: nat)

  ghost predicate Sendable(sends: seq<Send>) {
    forall i :: 0 <= i < |sends| ==> sends[i].length <= 16 && sends[i].value < Pow2(sends[i].length)
  }

  /** The bits of all calls, each number with its lowest bit first. */
  ghost function SentBits(sends: seq<Send>): seq<bool> {
    if |sends| == 0 then []
    else
      var last := sends[|sends| - 1];
      SentBits(sends[..|sends| - 1]) + BitsOf(last.value, last.length)
  }

  lemma SentSnoc(sends: seq<Send>, i: nat)
    requires i < |sends|
    ensures SentBits(sends[..i + 1]) == SentBits(sends[..i]) + BitsOf(sends[i].value, sends[i].length)
  {
    hide BitsOf;
    assert sends[..i + 1][..i] == sends[..i];
  }

  method SendList(w: BitWriter, sends: seq<Send>)
    requires w.Valid() && Sendable(sends)
    modifies w
    ensures w.Valid() && w.Bits() == old(w.Bits()) + SentBits(sends)
  {
    hide BitsOf, BytesBits, SentBits, Pow2;
    ghost var bits := w.Bits();
    NothingSent(sends);
    var i := 0;
    while i < |sends|
      invariant 0 <= i <= |sends| && w.Valid() && w.Bits() == bits + SentBits(sends[..i])
    {
      SentSnoc(sends, i);
      ConcatAssoc(bits, SentBits(sends[..i]), BitsOf(sends[i].value, sends[i].length));
      w.SendBits(sends[i].value, sends[i].length);
      i := i + 1;
    }
    assert sends[..i] == sends;
  }

  lemma NothingSent(sends: seq<Send>)
    ensures SentBits(sends[..0]) == []
  {
  }

  /** The bits behind the first `i` calls begin with the number of call `i`. */
  lemma {:induction false} SentFrom(sends: seq<Send>, i: nat)
    requires i < |sends|
    ensures var k, n := |SentBits(sends[..i])|, sends[i].length;
            k + n <= |SentBits(sends)| && SentBits(sends)[k..k + n] == BitsOf(sends[i].value, n)
    decreases |sends|
  {
    hide BitsOf;
    var m := |sends| - 1;
    if i == m {
      assert sends[..i] == sends[..m];
    } else {
      SentFrom(sends[..m], i);
      assert sends[..m][..i] == sends[..i];
    }
  }

  ghost function Values(sends: seq<Send>): (r: seq<nat>)
    ensures |r| == |sends| && forall i :: 0 <= i < |r| ==> r[i] == sends[i].value
  {
    seq(|sends|, i requires 0 <= i < |sends| => sends[i].value)
  }

  /** What is read where number `i` begins is number `i`. */
  lemma NumberRead(sends: seq<Send>, i: nat, bits: seq<bool>, rest: seq<bool>)
    requires Sendable(sends) && i < |sends| && SentBits(sends) <= bits && |SentBits(sends[..i])| <= |bits| &&
             rest == bits[|SentBits(sends[..i])|..]
    ensures var n := sends[i].length;
            && |rest| >= n && ValOf(rest[..n]) == sends[i].value
            && |SentBits(sends[..i + 1])| <= |bits| && rest[n..] == bits[|SentBits(sends[..i + 1])|..]
  {
    hide BitsOf, ValOf, SentBits, Pow2;
    SentFrom(sends, i);
    SentSnoc(sends, i);
    var k, n, all := |SentBits(sends[..i])|, sends[i].length, SentBits(sends);
    assert all[k..k + n] == bits[k..k + n] == rest[..n];
    ValOfBitsOf(sends[i].value, n);
  }

  method ReadList(rd: BitReader, lengths: seq<nat>, ghost sends: seq<Send>) returns (values: seq<nat>)
    requires rd.Valid() && Sendable(sends) && |lengths| == |sends| &&
             (forall i :: 0 <= i < |sends| ==> lengths[i] == sends[i].length)
    requires SentBits(sends) <= rd.Rest()
    modifies rd`inptr, rd`bb, rd`bk
    ensures rd.Valid() && values == Values(sends) && rd.Pos() == old(rd.Pos()) + |SentBits(sends)|
  {
    hide BitsOf, BytesBits, ValOf, SentBits, Pow2;
    ghost var bits := rd.Rest();
    NothingSent(sends);
    values := [];
    var i := 0;
    while i < |lengths|
      invariant 0 <= i == |values| <= |lengths| && rd.Valid() && |SentBits(sends[..i])| <= |bits|
      invariant rd.Rest() == bits[|SentBits(sends[..i])|..] && rd.Pos() == old(rd.Pos()) + |SentBits(sends[..i])|
      invariant forall j :: 0 <= j < i ==> values[j] == sends[j].value
    {
      NumberRead(sends, i, bits, rd.Rest());
      SentSnoc(sends, i);
      var ok, v := rd.GetBits(lengths[i]);
      values := values + [v];
      i := i + 1;
    }
    assert sends[..i] == sends;
  }

  /** The numbers come back, and behind them the reader stands at the end of the bytes that were written. */
  method SendAndRead(sends: seq<Send>, lengths: seq<nat>) returns (out: seq<byte>, values: seq<nat>, inptr: nat)
    requires Sendable(sends) && |lengths| == |sends| && forall i :: 0 <= i < |sends| ==> lengths[i] == sends[i].length
    ensures BytesBits(out) == SentBits(sends) + Zeros(Pad(|SentBits(sends)|))
    ensures values == Values(sends) && inptr == |out|
  {
    hide BitsOf, BytesBits, ValOf, SentBits, Pow2, Zeros;
    var w := new BitWriter();
    SendList(w, sends);
    assert w.Bits() == SentBits(sends);
    w.Windup();
    var rd := new BitReader(w.out, 0);
    assert rd.Rest() == BytesBits(w.out);
    values := ReadList(rd, lengths, sends);
    WholeBytes(|SentBits(sends)|, |w.out|);
    rd.ReturnLookahead();
    out, inptr := w.out, rd.inptr;
  }
}
