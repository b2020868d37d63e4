/** inflate_dynamic (inflate.c:699-859): the code length code, and the code lengths it encodes. */
module InflateTrees {
  import opened Bitstring
  import opened BitIO
  import opened Codes
  import opened Huft
  import opened HuftMain
  import opened Rfc1951
  import opened InflateCodes

  // ---- the code length code lengths ----

  /** Where each symbol stands in CL_ORDER. */
  const CL_PLACE: seq<nat> := [3, 17, 15, 13, 11, 9, 7, 5, 4, 6, 8, 10, 12, 14, 16, 18, 0, 1, 2]

  lemma OrderPlaces()
    ensures |CL_ORDER| == |CL_PLACE| == 19
    ensures forall p :: 0 <= p < 19 ==> CL_PLACE[p] < 19 && CL_ORDER[CL_PLACE[p]] == p
    ensures forall j :: 0 <= j < 19 ==> CL_ORDER[j] < 19 && CL_PLACE[CL_ORDER[j]] == j
  {
  }

  /** `ll` has the lengths already read, and the reference has zeros for those still to be read. */
  ghost predicate Ordered(ll: seq<nat>, z: seq<nat>, j: nat, nb: nat)
    requires j <= 19 && nb <= 19
  {
    && |ll| == |z| == 19
    && (forall i :: 0 <= i < j ==> ll[CL_ORDER[i]] == z[CL_ORDER[i]])
    && (forall i :: nb <= i < 19 ==> z[CL_ORDER[i]] == 0)
    && forall p :: 0 <= p < 19 ==> z[p] <= 7
  }

  lemma OrderStep(ll: seq<nat>, z: seq<nat>, j: nat, nb: nat, x: nat)
    requires j < nb <= 19 && Ordered(ll, z, j, nb) && x <= 7
    ensures CL_ORDER[j] < 19 && Ordered(ll[CL_ORDER[j] := x], z[CL_ORDER[j] := x], j + 1, nb)
  {
    OrderPlaces();
  }

  lemma OrderZero(ll: seq<nat>, z: seq<nat>, j: nat, nb: nat)
    requires nb <= j < 19 && Ordered(ll, z, j, nb)
    ensures CL_ORDER[j] < 19 && Ordered(ll[CL_ORDER[j] := 0], z, j + 1, nb)
  {
    OrderPlaces();
  }

  lemma OrderEnd(ll: seq<nat>, z: seq<nat>, nb: nat)
    requires nb <= 19 && Ordered(ll, z, 19, nb)
    ensures ll == z
  {
    OrderPlaces();
    forall p | 0 <= p < 19
      ensures ll[p] == z[p]
    {
      assert CL_ORDER[CL_PLACE[p]] == p;
    }
  }

  lemma RefOrderStep(bits: seq<bool>, nb: nat, j: nat, z: seq<nat>)
    requires j < nb <= 19 == |z| && |bits| >= 3 * (nb - j)
    ensures CL_ORDER[j] < 19 &&
            RefOrder(bits, nb, j, z) == RefOrder(bits[3..], nb, j + 1, z[CL_ORDER[j] := ValOf(bits[..3])])
  {
  }

  /** The lengths that are in the file (inflate.c:747-752). */
  method ReadThrees(rd: BitReader, nb: nat, ll: seq<nat>) returns (ok: bool, cl: seq<nat>, ghost z: seq<nat>)
    requires rd.Valid() && nb <= 19 == |ll|
    modifies rd`inptr, rd`bb, rd`bk
    ensures rd.Valid() && ok == (|old(rd.Rest())| >= 3 * nb)
    ensures ok ==> rd.Rest() == old(rd.Rest())[3 * nb..]
    ensures ok ==> z == RefOrder(old(rd.Rest()), nb, 0, Repeat(0, 19)) && Ordered(cl, z, nb, nb)
  {
    hide Ordered, RefOrder, ValOf, BitsOf, BytesBits, Pow2;
    cl, z := ll, Repeat(0, 19);
    ghost var bits := rd.Rest();
    var j := 0;
    OrderStart(ll, z, nb);
    while j < nb
      invariant 0 <= j <= nb && rd.Valid() && 3 * j <= |bits| && rd.Rest() == bits[3 * j..] && |z| == |cl| == 19
      invariant Ordered(cl, z, j, nb)
      invariant |bits| >= 3 * nb ==> RefOrder(bits, nb, 0, Repeat(0, 19)) == RefOrder(bits[3 * j..], nb, j, z)
    {
      var x;
      ok, x := rd.GetBits(3);
      if !ok { return; }
      SmallThree(x);
      OrderStep(cl, z, j, nb, x);
      if |bits| >= 3 * nb { RefOrderStep(bits[3 * j..], nb, j, z); }
      cl, z := cl[CL_ORDER[j] := x], z[CL_ORDER[j] := x];
      j := j + 1;
      assert bits[3 * (j - 1)..][3..] == bits[3 * j..];
    }
    RefOrderEnd(bits[3 * nb..], nb, z);
    ok := true;
  }

  lemma SmallThree(x: nat)
    requires x < Pow2(3)
    ensures x <= 7
  {
    Pow2Values();
  }

  lemma RefOrderEnd(bits: seq<bool>, nb: nat, z: seq<nat>)
    requires nb <= 19 == |z|
    ensures RefOrder(bits, nb, nb, z) == z
  {
  }

  /** The lengths that are not in the file are zero (inflate.c:753-754). */
  method ZeroRest(ll: seq<nat>, nb: nat, ghost z: seq<nat>) returns (cl: seq<nat>)
    requires nb <= 19 && Ordered(ll, z, nb, nb)
    ensures cl == z && forall p :: 0 <= p < |cl| ==> cl[p] <= 7
  {
    cl := ll;
    var j := nb;
    while j < 19
      invariant nb <= j <= 19 && |z| == |cl| == 19 && Ordered(cl, z, j, nb)
    {
      OrderZero(cl, z, j, nb);
      cl := cl[CL_ORDER[j] := 0];
      j := j + 1;
    }
    OrderEnd(cl, z, nb);
  }

  // ---- which group of bits is which length ----

  /** Group `j` of three bits; groups that are not sent count as zero. */
  ghost function Group(bits: seq<bool>, nb: nat, j: nat): nat
    requires |bits| >= 3 * nb
  {
    if j < nb then ValOf(bits[3 * j..3 * j + 3]) else 0
  }

  /**
   * Section 3.2.7 of RFC 1951 in plain numbers: first the three repeat codes and the zero, then the lengths outwards
   * from 8, those above and those below in turn, the greater one first.
   */
  ghost predicate InOrder(r: seq<nat>, bits: seq<bool>, nb: nat)
    requires |bits| >= 3 * nb
  {
    && |r| == 19
    && r[16] == Group(bits, nb, 0) && r[17] == Group(bits, nb, 1) && r[18] == Group(bits, nb, 2)
    && r[0] == Group(bits, nb, 3)
    && (forall k :: 0 <= k < 8 ==> r[8 + k] == Group(bits, nb, 4 + 2 * k))
    && (forall k :: 0 <= k < 7 ==> r[7 - k] == Group(bits, nb, 5 + 2 * k))
  }

  lemma GroupNext(bits: seq<bool>, nb: nat, j: nat)
    requires j < nb && |bits| >= 3 * nb
    ensures Group(bits[3 * j..], nb - j, 0) == ValOf(bits[3 * j..][..3]) == Group(bits, nb, j)
  {
    assert bits[3 * j..][..3] == bits[3 * j..3 * j + 3] == bits[3 * j..][0..3];
  }

  /** What the reference has read when `j` groups are left behind. */
  ghost predicate ReadSoFar(z: seq<nat>, bits: seq<bool>, nb: nat, j: nat)
    requires |bits| >= 3 * nb
  {
    |z| == 19 && forall p :: 0 <= p < 19 ==> z[p] == if CL_PLACE[p] < j then Group(bits, nb, CL_PLACE[p]) else 0
  }

  lemma {:induction false} OrderReads(bits: seq<bool>, nb: nat, j: nat, z: seq<nat>)
    requires j <= nb <= 19 && |bits| >= 3 * nb && ReadSoFar(z, bits, nb, j)
    ensures ReadSoFar(RefOrder(bits[3 * j..], nb, j, z), bits, nb, nb)
    decreases nb - j
  {
    hide Group, ValOf;
    OrderPlaces();
    if j == nb {
    } else {
      var rest := bits[3 * j..];
      GroupNext(bits, nb, j);
      RefOrderStep(rest, nb, j, z);
      var z' := z[CL_ORDER[j] := ValOf(rest[..3])];
      assert rest[3..] == bits[3 * (j + 1)..];
      forall p | 0 <= p < 19
        ensures z'[p] == if CL_PLACE[p] < j + 1 then Group(bits, nb, CL_PLACE[p]) else 0
      {
        if p != CL_ORDER[j] { assert CL_PLACE[p] != j; }
      }
      OrderReads(bits, nb, j + 1, z');
    }
  }

  /** The order is that of the format. */
  lemma OrderIs(bits: seq<bool>, nb: nat)
    requires nb <= 19 && |bits| >= 3 * nb
    ensures InOrder(RefOrder(bits, nb, 0, Repeat(0, 19)), bits, nb)
  {
    hide RefOrder, ValOf;
    assert bits[3 * 0..] == bits;
    OrderReads(bits, nb, 0, Repeat(0, 19));
    PlacesAre();
  }

  lemma PlacesAre()
    ensures CL_PLACE[16] == 0 && CL_PLACE[17] == 1 && CL_PLACE[18] == 2 && CL_PLACE[0] == 3
    ensures forall k :: 0 <= k < 8 ==> CL_PLACE[8 + k] == 4 + 2 * k
    ensures forall k :: 0 <= k < 7 ==> CL_PLACE[7 - k] == 5 + 2 * k
  {
  }

  /** inflate.c:747-754; `ll` is the array before it is written. */
  method ReadOrder(rd: BitReader, nb: nat, ll: seq<nat>) returns (ok: bool, cl: seq<nat>)
    requires rd.Valid() && nb <= 19 == |ll|
    modifies rd`inptr, rd`bb, rd`bk
    ensures rd.Valid() && ok == (|old(rd.Rest())| >= 3 * nb)
    ensures ok ==> cl == RefOrder(old(rd.Rest()), nb, 0, Repeat(0, 19)) && rd.Rest() == old(rd.Rest())[3 * nb..]
    ensures ok ==> forall p :: 0 <= p < |cl| ==> cl[p] <= 7
    ensures ok ==> InOrder(cl, old(rd.Rest()), nb)
  {
    hide Ordered, RefOrder, InOrder;
    ghost var z;
    ghost var bits := rd.Rest();
    ok, cl, z := ReadThrees(rd, nb, ll);
    if ok {
      OrderIs(bits, nb);
      cl := ZeroRest(cl, nb, z);
    }
  }

  lemma OrderStart(ll: seq<nat>, z: seq<nat>, nb: nat)
    requires |ll| == 19 && nb <= 19 && z == Repeat(0, 19)
    ensures Ordered(ll, z, 0, nb)
  {
    OrderPlaces();
  }

  // ---- one code length symbol ----

  /** The tree of the code lengths is a single table. */
  ghost predicate LengthTree(cl: seq<nat>, tl: seq<seq<Huft>>, bl: nat, v: seq<nat>, sh: Shape) {
    |cl| == 19 && bl == MaxLen(cl) && Accepts(cl) && TreeFor(cl, 19, [], [], tl, bl, v, sh)
  }

  lemma FlatCell(cs: CodeSet, tables: seq<seq<Huft>>, sh: Shape, bits: seq<bool>)
    requires AllCells(cs, tables, sh) && cs.l == cs.g <= |bits|
    ensures var i := ValOf(bits[..cs.l]);
            && i < |tables[0]|
            && exists s: nat :: Starts(cs.lens, bits, s) && IsEntry(cs.ents[s], tables[0][i], cs.lens[s])
  {
    assert TableFits(cs, tables[0], sh.pre[0], sh.tbs[0]);
    var i := ValOf(bits[..cs.l]);
    BitsOfValOf(bits[..cs.l]);
    var cell := Cell(sh.pre[0], sh.tbs[0], i);
    var x := tables[0][i];
    assert CellOk(cs, sh, 0, i, x);
    assert x.v < |tables| ==> TableFits(cs, tables[x.v], sh.pre[x.v], sh.tbs[x.v]);
    var s :| IsLeaf(cs, cell, 0, x, s);
    assert cell <= bits;
    assert Starts(cs.lens, bits, s);
  }

  /** A cell gives the symbol of the code length code, or no code starts the bits. */
  ghost predicate GivesLength(cl: seq<nat>, bits: seq<bool>, x: Huft) {
    && 1 <= x.b <= MaxLen(cl)
    && var y := ReadSym(cl, bits);
       if y.Sym? then y.s < |cl| == 19 && x.v == y.s && x.b == cl[y.s]
       else y.NoCode? && Missing(cl) == Undefined
  }

  lemma OneCodeLeavesZeros(cl: seq<nat>)
    requires |cl| == 19 && Accepts(cl) && MaxLen(cl) > 0 && Count(cl, 0) == 0
    ensures Used(cl, MaxLen(cl)) == Pow2(MaxLen(cl))
  {
    CountAll(cl, MaxLen(cl));
  }

  lemma LengthCell(cl: seq<nat>, tl: seq<seq<Huft>>, bl: nat, v: seq<nat>, sh: Shape, bits: seq<bool>)
    requires LengthTree(cl, tl, bl, v, sh) && bl <= |bits|
    ensures |tl| > 0 && ValOf(bits[..bl]) < |tl[0]| && GivesLength(cl, bits, tl[0][ValOf(bits[..bl])])
  {
    hide AllCells, ReadSym, Missing;
    var cs := SetOf(cl, bl, v, 19, [], []);
    SetFields(cl, bl, v, 19, [], []);
    RootOf(cs, tl, sh);
    FlatCell(cs, tl, sh, bits);
    var x := tl[0][ValOf(bits[..bl])];
    var s: nat :| Starts(cs.lens, bits, s) && IsEntry(cs.ents[s], x, cs.lens[s]);
    RealOrMissing(cl, 19, [], [], tl, bl, v, sh, bits, s);
    SymbolMeans(cl, 19, [], [], bl, v, s);
    if Count(cl, 0) == 0 {
      OneCodeLeavesZeros(cl);
      NothingAdded(cl, bl, v);
    } else {
      ZerosUndefined(cl);
    }
  }

  lemma NothingAdded(cl: seq<nat>, bl: nat, v: seq<nat>)
    requires |cl| <= |v| && Free(cl, MaxLen(cl)) == 0
    ensures |SetOf(cl, bl, v, 19, [], []).lens| == |cl|
  {
  }

  lemma ZerosUndefined(cl: seq<nat>)
    requires Count(cl, 0) > 0
    ensures Missing(cl) == Undefined
  {
  }

  // ---- the code lengths ----

  method Append(ll: seq<nat>, x: nat, n: nat) returns (r: seq<nat>)
    ensures r == ll + Repeat(x, n)
  {
    r := ll;
    var j := n;
    while j > 0
      invariant 0 <= j <= n && r == ll + Repeat(x, n - j)
    {
      j := j - 1;
      r := r + [x];
    }
  }

  /** What the loop knows about the reference decoder when it stops. */
  ghost predicate LengthsMean(r: Lengths, st: Status, ll: seq<nat>, rest: seq<bool>) {
    match st
    case Ok => r == Failed(Undefined) || r == Got(ll, rest)
    case Error(code) => r == Failed(Bad(code)) || r == Failed(Undefined)
    case Eof => r.Got? ==> |r.rest| < BMAX
    case Crash => false
  }

  datatype Piece = One(x: nat) | Run(x: nat, n: nat) | No(why: Status)

  /** The reference decoder after one symbol of the code length code. */
  ghost predicate PieceMeans(cl: seq<nat>, n: nat, got: seq<nat>, last: nat, bits: seq<bool>, p: Piece,
                             rest: seq<bool>) {
    var r := RefLengths(cl, n, got, last, bits);
    match p
    case One(x) => |rest| < |bits| && x <= 15 && (r == Failed(Undefined) || r == RefLengths(cl, n, got + [x], x, rest))
    case Run(x, k) => |rest| < |bits| && (x == last || x == 0) &&
      (r == Failed(Undefined) || r == RefRun(cl, n, got, x, k, rest))
    case No(why) => why == Eof && (r.Got? ==> |r.rest| < BMAX)
  }

  ghost function RefRun(cl: seq<nat>, n: nat, got: seq<nat>, x: nat, k: nat, rest: seq<bool>): Lengths {
    if |got| + k > n then Failed(Bad(BAD_DATA)) else RefLengths(cl, n, got + Repeat(x, k), x, rest)
  }

  /** What a length symbol stands for (inflate.c:776-809). */
  ghost predicate SymMeans(cl: seq<nat>, n: nat, got: seq<nat>, last: nat, bits: seq<bool>, x: Huft) {
    && 1 <= x.b <= |bits|
    && var rest := bits[x.b..];
       if x.v < 16 then PieceMeans(cl, n, got, last, bits, One(x.v), rest)
       else
         var e := if x.v == 16 then 2 else if x.v == 17 then 3 else 7;
         if |rest| < e then PieceMeans(cl, n, got, last, bits, No(Eof), [])
         else
           PieceMeans(cl, n, got, last, bits,
                      Run(if x.v == 16 then last else 0, (if x.v < 18 then 3 else 11) + ValOf(rest[..e])), rest[e..])
  }

  lemma SymGives(cl: seq<nat>, n: nat, got: seq<nat>, last: nat, bits: seq<bool>, x: Huft)
    requires |got| < n && GivesLength(cl, bits, x) && x.b <= |bits|
    ensures SymMeans(cl, n, got, last, bits, x)
  {
    hide ReadSym, Missing, MaxLen;
  }

  /** One lookup in the single table (inflate.c:773-776); the links and the validity of an entry are not looked at. */
  method ReadCell(rd: BitReader, tl: seq<seq<Huft>>, bl: nat, ghost cl: seq<nat>, ghost v: seq<nat>, ghost sh: Shape)
    returns (ok: bool, x: Huft)
    requires rd.Valid() && LengthTree(cl, tl, bl, v, sh)
    modifies rd`inptr, rd`bb, rd`bk
    ensures rd.Valid() && (!ok ==> |old(rd.Rest())| < BMAX)
    ensures ok ==> GivesLength(cl, old(rd.Rest()), x) && x.b <= |old(rd.Rest())| && rd.Rest() == old(rd.Rest())[x.b..]
  {
    hide LengthTree, GivesLength;
    ghost var bits := rd.Rest();
    SmallTree(cl, tl, bl, v, sh);
    x := Huft(0, 0, 0);
    ok := rd.NeedBits(bl);
    if ok {
      LengthCell(cl, tl, bl, v, sh, bits);
      var i := rd.Peek(bl);
      x := tl[0][i];
      CellBits(cl, bits, x);
      rd.DumpBits(x.b);
    }
  }

  /** inflate.c:773-809 for one symbol, up to the lengths it stands for. */
  method ReadPiece(rd: BitReader, tl: seq<seq<Huft>>, bl: nat, last: nat,
                   ghost cl: seq<nat>, ghost v: seq<nat>, ghost sh: Shape, ghost n: nat, ghost got: seq<nat>)
    returns (p: Piece)
    requires rd.Valid() && LengthTree(cl, tl, bl, v, sh) && |got| < n
    modifies rd`inptr, rd`bb, rd`bk
    ensures rd.Valid() && PieceMeans(cl, n, got, last, old(rd.Rest()), p, rd.Rest())
  {
    hide LengthTree, RefLengths, RefRun, GivesLength, ValOf, PieceMeans;
    ghost var bits := rd.Rest();
    var ok, x := ReadCell(rd, tl, bl, cl, v, sh);
    if !ok {
      LengthsShort(cl, n, got, last, bits, rd.Rest());
      return No(Eof);
    }
    SymGives(cl, n, got, last, bits, x);
    if x.v < 16 { return One(x.v); }
    var e := if x.v == 16 then 2 else if x.v == 17 then 3 else 7;
    var k;
    ok, k := rd.GetBits(e);
    if !ok {
      PieceCut(cl, n, got, last, bits, rd.Rest());
      return No(Eof);
    }
    return Run(if x.v == 16 then last else 0, (if x.v < 18 then 3 else 11) + k);
  }

  lemma PieceCut(cl: seq<nat>, n: nat, got: seq<nat>, last: nat, bits: seq<bool>, rest: seq<bool>)
    requires PieceMeans(cl, n, got, last, bits, No(Eof), [])
    ensures PieceMeans(cl, n, got, last, bits, No(Eof), rest)
  {
  }

  lemma SmallTree(cl: seq<nat>, tl: seq<seq<Huft>>, bl: nat, v: seq<nat>, sh: Shape)
    requires LengthTree(cl, tl, bl, v, sh)
    ensures 1 <= bl == MaxLen(cl) <= BMAX
  {
  }

  lemma CellBits(cl: seq<nat>, bits: seq<bool>, x: Huft)
    requires GivesLength(cl, bits, x)
    ensures 1 <= x.b <= MaxLen(cl)
  {
  }

  lemma LengthsShort(cl: seq<nat>, n: nat, got: seq<nat>, last: nat, bits: seq<bool>, rest: seq<bool>)
    requires |bits| < BMAX
    ensures PieceMeans(cl, n, got, last, bits, No(Eof), rest)
  {
  }

  /** inflate.c:767-811 */
  method ReadLengths(rd: BitReader, tl: seq<seq<Huft>>, bl: nat, n: nat, ghost cl: seq<nat>, ghost v: seq<nat>,
                     ghost sh: Shape)
    returns (st: Status, ll: seq<nat>)
    requires rd.Valid() && LengthTree(cl, tl, bl, v, sh)
    modifies rd`inptr, rd`bb, rd`bk
    ensures rd.Valid() && LengthsMean(RefLengths(cl, n, [], 0, old(rd.Rest())), st, ll, rd.Rest())
    ensures st == Ok ==> |rd.Rest()| <= |old(rd.Rest())|
    ensures st == Ok ==> |ll| == n && forall i :: 0 <= i < |ll| ==> ll[i] <= 15
  {
    hide LengthTree, RefLengths;
    ll := [];
    var last := 0;
    ghost var r := RefLengths(cl, n, [], 0, rd.Rest());
    while |ll| < n
      invariant rd.Valid() && |ll| <= n && 0 <= last <= 15 && forall i :: 0 <= i < |ll| ==> ll[i] <= 15
      invariant |rd.Rest()| <= |old(rd.Rest())|
      invariant r == Failed(Undefined) || r == RefLengths(cl, n, ll, last, rd.Rest())
      decreases |rd.Rest()|
    {
      var p := ReadPiece(rd, tl, bl, last, cl, v, sh, n, ll);
      match p
      case No(why) => return why, ll;
      case One(x) =>
        ll, last := ll + [x], x;
      case Run(x, k) =>
        if |ll| + k > n { return Error(1), ll; }
        ll := Append(ll, x, k);
        last := x;
    }
    LengthsEnd(cl, n, ll, last, rd.Rest());
    return Ok, ll;
  }

  lemma LengthsEnd(cl: seq<nat>, n: nat, got: seq<nat>, last: nat, bits: seq<bool>)
    requires |got| >= n
    ensures RefLengths(cl, n, got, last, bits) == Got(got, bits)
  {
  }
}
