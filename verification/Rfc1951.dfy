/** RFC 1951 as a plain decoder: what a compressed stream means, with no tables, buffers or windows. */
module Rfc1951 {
  import opened Bitstring
  import opened Codes

  // Section 3.2.5: base values and extra bits of the length and distance codes.
  const LENGTH_BASE: seq<nat> := [3, 4, 5, 6, 7, 8, 9, 10, 11, 13, 15, 17, 19, 23, 27, 31,
                                  35, 43, 51, 59, 67, 83, 99, 115, 131, 163, 195, 227, 258]
  const LENGTH_EXTRA: seq<nat> := [0, 0, 0, 0, 0, 0, 0, 0, 1, 1, 1, 1, 2, 2, 2, 2,
                                   3, 3, 3, 3, 4, 4, 4, 4, 5, 5, 5, 5, 0]
  const DIST_BASE: seq<nat> := [1, 2, 3, 4, 5, 7, 9, 13, 17, 25, 33, 49, 65, 97, 129, 193,
                                257, 385, 513, 769, 1025, 1537, 2049, 3073, 4097, 6145, 8193, 12289, 16385, 24577]
  const DIST_EXTRA: seq<nat> := [0, 0, 0, 0, 1, 1, 2, 2, 3, 3, 4, 4, 5, 5, 6, 6,
                                 7, 7, 8, 8, 9, 9, 10, 10, 11, 11, 12, 12, 13, 13]
  // Section 3.2.7: the order of the code length code lengths.
  const CL_ORDER: seq<nat> := [16, 17, 18, 0, 8, 7, 9, 6, 10, 5, 11, 4, 12, 3, 13, 2, 14, 1, 15]

  const END_BLOCK := 256

  datatype Token = Literal(b: byte) | Match(len: nat, dist: nat)

  /** The result of decoding from some point: the output so far and the bits left, or why there is none. */
  datatype Outcome =
    | Done(out: seq<byte>, rest: seq<bool>)
    | Bad(code: nat)  // the data violate the format; the number is what inflate returns for this kind of violation
    | Short      // the data end too early
    | Undefined  // the source reads memory that nothing wrote, or through a null pointer

  // The numbers that inflate returns.
  const BAD_DATA := 1
  const BAD_TYPE := 2
  const INCOMPLETE := 1
  const OVERSUBSCRIBED := 2

  // ---- section 3.2.3: copying a match from the output so far ----

  function Copy(out: seq<byte>, len: nat, dist: nat): (r: seq<byte>)
    requires 1 <= dist <= |out|
    ensures |r| == |out| + len && out <= r
    decreases len
  {
    if len == 0 then out else Copy(out + [out[|out| - dist]], len - 1, dist)
  }

  ghost predicate Reaches(out: seq<byte>, t: Token) {
    t.Match? ==> 1 <= t.dist <= |out|
  }

  function Expand1(out: seq<byte>, t: Token): (r: seq<byte>)
    requires Reaches(out, t)
    ensures out <= r
  {
    match t
    case Literal(b) => out + [b]
    case Match(len, dist) => Copy(out, len, dist)
  }

  /** Every match of the tokens copies from bytes that are already there. */
  ghost predicate AllReach(out: seq<byte>, ts: seq<Token>)
    decreases |ts|
  {
    |ts| == 0 || (Reaches(out, ts[0]) && AllReach(Expand1(out, ts[0]), ts[1..]))
  }

  function Expand(out: seq<byte>, ts: seq<Token>): (r: seq<byte>)
    requires AllReach(out, ts)
    ensures out <= r
    decreases |ts|
  {
    if |ts| == 0 then out else Expand(Expand1(out, ts[0]), ts[1..])
  }

  // ---- symbols ----

  datatype Symbol = Sym(s: nat) | NoCode | MoreBits

  ghost function ReadSym(lens: seq<nat>, bits: seq<bool>): (r: Symbol)
    ensures r.Sym? ==> Starts(lens, bits, r.s)
  {
    match DecodeSym(lens, bits)
    case Some(s) => Sym(s)
    case None => if |bits| >= MaxLen(lens) then NoCode else MoreBits
  }

  /** Bits that no code of an incomplete set starts: an error, or not defined when some symbol has no code. */
  ghost function Missing(lens: seq<nat>): Outcome {
    if Count(lens, 0) == 0 then Bad(BAD_DATA) else Undefined
  }

  /** The lengths that huft_build accepts with result 0: none at all, a complete set, or a single code of one bit. */
  ghost predicate Accepts(lens: seq<nat>) {
    var g := MaxLen(lens);
    g == 0 || Used(lens, g) == Pow2(g) || (g == 1 && Used(lens, 1) <= 2)
  }

  /** Why lengths are not accepted: more codes than there is room for, or room left over. */
  ghost function BadLengths(lens: seq<nat>): nat {
    if Used(lens, MaxLen(lens)) > Pow2(MaxLen(lens)) then OVERSUBSCRIBED else INCOMPLETE
  }

  // ---- the body of a compressed block ----

  /** One distance: symbol, extra bits, and the copy. */
  ghost function RefMatch(dl: seq<nat>, out: seq<byte>, bits: seq<bool>, len: nat): (r: Outcome)
    ensures r.Done? ==> |r.rest| < |bits|
  {
    match ReadSym(dl, bits)
    case NoCode => Missing(dl)
    case MoreBits => Short
    case Sym(s) =>
      if s >= |DIST_BASE| then Undefined
      else
        var rest := bits[dl[s]..];
        var x := DIST_EXTRA[s];
        if |rest| < x then Short
        else
          var dist := DIST_BASE[s] + ValOf(rest[..x]);
          if dist > |out| then Undefined else Done(Copy(out, len, dist), rest[x..])
  }

  /** Decode symbols until the end-of-block code. */
  ghost function RefCodes(ll: seq<nat>, dl: seq<nat>, out: seq<byte>, bits: seq<bool>): (r: Outcome)
    ensures r.Done? ==> |r.rest| < |bits|
    decreases |bits|
  {
    match ReadSym(ll, bits)
    case NoCode => Missing(ll)
    case MoreBits => Short
    case Sym(s) =>
      var rest := bits[ll[s]..];
      if s < END_BLOCK then RefCodes(ll, dl, out + [s], rest)
      else if s == END_BLOCK then Done(out, rest)
      else if s - 257 >= |LENGTH_BASE| then Bad(BAD_DATA)
      else
        var x := LENGTH_EXTRA[s - 257];
        if |rest| < x then Short
        else
          var len := LENGTH_BASE[s - 257] + ValOf(rest[..x]);
          match RefMatch(dl, out, rest[x..], len)
          case Done(out', rest') => RefCodes(ll, dl, out', rest')
          case other => other
  }

  // ---- section 3.2.6 ----

  function FixedLen(s: nat): nat {
    if s < 144 then 8 else if s < 256 then 9 else if s < 280 then 7 else 8
  }

  function FixedLits(): (r: seq<nat>)
    ensures |r| == 288 && forall s :: 0 <= s < 288 ==> r[s] == FixedLen(s)
  {
    seq(288, s requires 0 <= s < 288 => FixedLen(s))
  }

  function FixedDists(): (r: seq<nat>)
    ensures |r| == 30 && forall s :: 0 <= s < 30 ==> r[s] == 5
  {
    Repeat(5, 30)
  }

  // ---- section 3.2.7 ----

  datatype Lengths = Got(lens: seq<nat>, rest: seq<bool>) | Failed(why: Outcome)

  /** Code lengths until there are `n`; `last` is the one a repeat code copies. */
  ghost function RefLengths(cl: seq<nat>, n: nat, got: seq<nat>, last: nat, bits: seq<bool>): (r: Lengths)
    ensures r.Got? && |got| <= n ==> |r.lens| == n
    ensures r.Got? ==> |r.rest| <= |bits|
    ensures r.Failed? ==> !r.why.Done?
    decreases |bits|
  {
    if |got| >= n then Got(got, bits)
    else
      match ReadSym(cl, bits)
      case NoCode => Failed(Missing(cl))
      case MoreBits => Failed(Short)
      case Sym(s) =>
        var rest := bits[cl[s]..];
        if s < 16 then RefLengths(cl, n, got + [s], s, rest)
        else
          var x := if s == 16 then 2 else if s == 17 then 3 else 7;
          if |rest| < x then Failed(Short)
          else
            var k := (if s == 18 then 11 else 3) + ValOf(rest[..x]);
            if |got| + k > n then Failed(Bad(BAD_DATA))
            else
              var y := if s == 16 then last else 0;
              RefLengths(cl, n, got + Repeat(y, k), y, rest[x..])
  }

  /** The code length code lengths, three bits each, in the order of CL_ORDER. */
  ghost function RefOrder(bits: seq<bool>, nb: nat, j: nat, cl: seq<nat>): (r: seq<nat>)
    requires j <= nb <= 19 && |cl| == 19 && |bits| >= 3 * (nb - j)
    ensures |r| == 19
    decreases nb - j
  {
    if j == nb then cl else RefOrder(bits[3..], nb, j + 1, cl[CL_ORDER[j] := ValOf(bits[..3])])
  }

  /** The body of a dynamic block whose code lengths are known, the first `nl` being those of the literals. */
  ghost function RefTrees(lens: seq<nat>, nl: nat, out: seq<byte>, rest: seq<bool>): (r: Outcome)
    requires nl <= |lens|
    ensures r.Done? ==> |r.rest| < |rest|
  {
    var ll, dl := lens[..nl], lens[nl..];
    if MaxLen(ll) == 0 then Undefined
    else if !Accepts(ll) then Bad(BadLengths(ll))
    else if !Accepts(dl) then Bad(BadLengths(dl))
    else RefCodes(ll, dl, out, rest)
  }

  /** The rest of a dynamic block whose code length code is known. */
  ghost function RefCoded(cl: seq<nat>, nl: nat, nd: nat, out: seq<byte>, bits: seq<bool>): (r: Outcome)
    requires nl + nd > 0
    ensures r.Done? ==> |r.rest| < |bits|
  {
    if MaxLen(cl) == 0 then Undefined
    else if !Accepts(cl) then Bad(BadLengths(cl))
    else
      match RefLengths(cl, nl + nd, [], 0, bits)
      case Failed(why) => why
      case Got(lens, rest) => RefTrees(lens, nl, out, rest)
  }

  ghost function RefDynamic(out: seq<byte>, bits: seq<bool>): (r: Outcome)
    ensures r.Done? ==> |r.rest| < |bits|
  {
    if |bits| < 14 then Short
    else
      var nl, nd, nb := 257 + ValOf(bits[..5]), 1 + ValOf(bits[5..10]), 4 + ValOf(bits[10..14]);
      if nl > 286 || nd > 30 then Bad(BAD_DATA)
      else if |bits| < 14 + 3 * nb then Short
      else
        assert Pow2(4) == 16;
        RefCoded(RefOrder(bits[14..], nb, 0, Repeat(0, 19)), nl, nd, out, bits[14 + 3 * nb..])
  }

  // ---- section 3.2.4 ----

  ghost function RefBytes(bits: seq<bool>, n: nat): (r: seq<byte>)
    requires |bits| >= 8 * n
    ensures |r| == n
  {
    if n == 0 then []
    else
      assert Pow2(8) == 256;
      [ValOf(bits[..8])] + RefBytes(bits[8..], n - 1)
  }

  /** `pad` bits bring the stream to a byte boundary. */
  ghost function RefStored(out: seq<byte>, bits: seq<bool>, pad: nat): (r: Outcome)
    ensures r.Done? ==> |r.rest| < |bits|
  {
    if |bits| < pad + 32 then Short
    else
      var n, c := ValOf(bits[pad..pad + 16]), ValOf(bits[pad + 16..pad + 32]);
      if n + c != 65535 then Bad(BAD_DATA)
      else if |bits| < pad + 32 + 8 * n then Short
      else Done(out + RefBytes(bits[pad + 32..], n), bits[pad + 32 + 8 * n..])
  }

  // ---- section 3.2.3: blocks ----

  /** One block after its three header bits; `pos` bits of the stream precede the block body. */
  ghost function RefBody(kind: nat, out: seq<byte>, bits: seq<bool>, pos: nat): (r: Outcome)
    ensures r.Done? ==> |r.rest| < |bits|
  {
    if kind == 2 then RefDynamic(out, bits)
    else if kind == 0 then RefStored(out, bits, (8 - pos % 8) % 8)
    else if kind == 1 then RefCodes(FixedLits(), FixedDists(), out, bits)
    else Bad(BAD_TYPE)
  }

  /** Blocks up to the one marked final. */
  ghost function RefStream(out: seq<byte>, bits: seq<bool>, pos: nat): (r: Outcome)
    ensures r.Done? ==> |r.rest| < |bits|
    decreases |bits|
  {
    if |bits| < 3 then Short
    else
      var body := RefBody(ValOf(bits[1..3]), out, bits[3..], pos + 3);
      if body.Done? && !bits[0] then RefStream(body.out, body.rest, pos + |bits| - |body.rest|) else body
  }
}
