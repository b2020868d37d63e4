/** The bits of literals and matches under two code length tables, and what the reference decoder makes of them. */
module TokenCode {
  import opened Bitstring
  import opened Codes
  import opened Rfc1951

  /** The last base value that does not exceed `v`, searched from `c` down. */
  function FindCode(base: seq<nat>, v: nat, c: nat): (r: nat)
    requires c < |base| && base[0] <= v
    ensures r <= c && base[r] <= v && (r < c ==> v < base[r + 1])
  {
    if base[c] <= v then c else FindCode(base, v, c - 1)
  }

  /** The code of a match length; 258 has a code of its own. */
  function LenCode(len: nat): (c: nat)
    requires 3 <= len <= 258
    ensures c < 29 && LENGTH_BASE[c] <= len < LENGTH_BASE[c] + Pow2(LENGTH_EXTRA[c])
  {
    var c := FindCode(LENGTH_BASE, len, |LENGTH_BASE| - 1);
    LenGap(len, c);
    c
  }

  /**
   * Section 3.2.5 of RFC 1951 in closed form. From 8 on every four length codes have one extra bit more, from 4 on
   * every
   * two distance codes, and each code begins where the one before ends; length 258 has a code of its own.
   */
  lemma TablesClosed()
    ensures |LENGTH_BASE| == |LENGTH_EXTRA| == 29 && |DIST_BASE| == |DIST_EXTRA| == 30
    ensures forall c :: 0 <= c < 8 ==> LENGTH_EXTRA[c] == 0 && LENGTH_BASE[c] == 3 + c
    ensures forall c :: 8 <= c < 28 ==>
                          LENGTH_EXTRA[c] == c / 4 - 1 && LENGTH_BASE[c] == 3 + (4 + c % 4) * Pow2(c / 4 - 1)
    ensures LENGTH_EXTRA[28] == 0 && LENGTH_BASE[28] == 258
    ensures forall c :: 0 <= c < 4 ==> DIST_EXTRA[c] == 0 && DIST_BASE[c] == 1 + c
    ensures forall c :: 4 <= c < 30 ==>
                          DIST_EXTRA[c] == c / 2 - 1 && DIST_BASE[c] == 1 + (2 + c % 2) * Pow2(c / 2 - 1)
  {
    LengthsClosed();
    DistsClosed();
  }

  lemma LengthsClosed()
    ensures forall c :: 8 <= c < 28 ==>
                          LENGTH_EXTRA[c] == c / 4 - 1 && LENGTH_BASE[c] == 3 + (4 + c % 4) * Pow2(c / 4 - 1)
  {
    Pow2Values();
  }

  lemma DistsClosed()
    ensures forall c :: 4 <= c < 30 ==>
                          DIST_EXTRA[c] == c / 2 - 1 && DIST_BASE[c] == 1 + (2 + c % 2) * Pow2(c / 2 - 1)
  {
    Pow2Values();
  }

  lemma LenGap(len: nat, c: nat)
    requires 3 <= len <= 258 && c < 29 && LENGTH_BASE[c] <= len && (c < 28 ==> len < LENGTH_BASE[c + 1])
    ensures len < LENGTH_BASE[c] + Pow2(LENGTH_EXTRA[c])
  {
    Pow2Values();
  }

  function DistCode(dist: nat): (c: nat)
    requires 1 <= dist <= 32768
    ensures c < 30 && DIST_BASE[c] <= dist < DIST_BASE[c] + Pow2(DIST_EXTRA[c])
  {
    var c := FindCode(DIST_BASE, dist, |DIST_BASE| - 1);
    DistGap(dist, c);
    c
  }

  lemma DistGap(dist: nat, c: nat)
    requires 1 <= dist <= 32768 && c < 30 && DIST_BASE[c] <= dist && (c < 29 ==> dist < DIST_BASE[c + 1])
    ensures dist < DIST_BASE[c] + Pow2(DIST_EXTRA[c])
  {
    Pow2Values();
  }

  predicate ValidToken(t: Token) {
    t.Match? ==> 3 <= t.len <= 258 && 1 <= t.dist <= 32768
  }

  /** The literal tree has a code for matches of this length. */
  ghost predicate HasLen(ll: seq<nat>, len: nat) {
    3 <= len <= 258 && 257 + LenCode(len) < |ll| && ll[257 + LenCode(len)] > 0
  }

  /** The distance tree has a code for this distance. */
  ghost predicate HasDist(dl: seq<nat>, dist: nat) {
    1 <= dist <= 32768 && DistCode(dist) < |dl| && dl[DistCode(dist)] > 0
  }

  /** Both trees have codes for the symbols of the token. */
  ghost predicate Coded(ll: seq<nat>, dl: seq<nat>, t: Token) {
    match t
    case Literal(b) => b < |ll| && ll[b] > 0
    case Match(len, dist) => HasLen(ll, len) && HasDist(dl, dist)
  }

  ghost function LenBits(ll: seq<nat>, len: nat): seq<bool>
    requires HasLen(ll, len)
  {
    var c := LenCode(len);
    CodeBits(ll, 257 + c) + BitsOf(len - LENGTH_BASE[c], LENGTH_EXTRA[c])
  }

  ghost function DistBits(dl: seq<nat>, dist: nat): seq<bool>
    requires HasDist(dl, dist)
  {
    var c := DistCode(dist);
    CodeBits(dl, c) + BitsOf(dist - DIST_BASE[c], DIST_EXTRA[c])
  }

  ghost function TokenBits(ll: seq<nat>, dl: seq<nat>, t: Token): seq<bool>
    requires Coded(ll, dl, t)
  {
    match t
    case Literal(b) => CodeBits(ll, b)
    case Match(len, dist) => LenBits(ll, len) + DistBits(dl, dist)
  }

  ghost predicate AllCoded(ll: seq<nat>, dl: seq<nat>, ts: seq<Token>) {
    forall i :: 0 <= i < |ts| ==> Coded(ll, dl, ts[i])
  }

  ghost function TokensBits(ll: seq<nat>, dl: seq<nat>, ts: seq<Token>): seq<bool>
    requires AllCoded(ll, dl, ts)
  {
    if |ts| == 0 then [] else TokensBits(ll, dl, ts[..|ts| - 1]) + TokenBits(ll, dl, ts[|ts| - 1])
  }

  // ---- decoding ----

  lemma SymbolRead(lens: seq<nat>, m: nat, s: nat, rest: seq<bool>)
    requires Fits(lens, m) && s < |lens| && lens[s] > 0
    ensures ReadSym(lens, CodeBits(lens, s) + rest) == Sym(s)
    ensures (CodeBits(lens, s) + rest)[lens[s]..] == rest
  {
    DecodeSymIs(lens, m, CodeBits(lens, s) + rest, s);
  }

  lemma ExtraRead(v: nat, n: nat, rest: seq<bool>)
    requires v < Pow2(n)
    ensures var bits := BitsOf(v, n) + rest; ValOf(bits[..n]) == v && bits[n..] == rest
  {
    ValOfBitsOf(v, n);
    BitsOfSmall(v, n);
    assert (BitsOf(v, n) + rest)[..n] == BitsOf(v, n);
  }

  /** The distance symbol and its extra bits are read. */
  lemma MatchRead(dl: seq<nat>, bits: seq<bool>, s: nat, x: nat, more: seq<bool>, out: seq<byte>, len: nat)
    requires s < 30 && s < |dl| && ReadSym(dl, bits) == Sym(s) && x == DIST_EXTRA[s]
    requires dl[s] <= |bits| && bits[dl[s]..] == more && x <= |more| && DIST_BASE[s] + ValOf(more[..x]) <= |out|
    ensures RefMatch(dl, out, bits, len) == Done(Copy(out, len, DIST_BASE[s] + ValOf(more[..x])), more[x..])
  {
    hide ReadSym, Copy, ValOf;
  }

  lemma DistDecodes(dl: seq<nat>, m: nat, dist: nat, out: seq<byte>, len: nat, rest: seq<bool>)
    requires Fits(dl, m) && 1 <= dist <= 32768 && dist <= |out| && DistCode(dist) < |dl| && dl[DistCode(dist)] > 0
    ensures RefMatch(dl, out, DistBits(dl, dist) + rest, len) == Done(Copy(out, len, dist), rest)
  {
    hide ReadSym, Copy, DistCode, RefMatch, ValOf, BitsOf, CodeBits, DIST_BASE, DIST_EXTRA;
    BaseSizes();
    var c := DistCode(dist);
    var n := DIST_EXTRA[c];
    var x := BitsOf(dist - DIST_BASE[c], n);
    ConcatAssoc(CodeBits(dl, c), x, rest);
    SymbolRead(dl, m, c, x + rest);
    ExtraRead(dist - DIST_BASE[c], n, rest);
    MatchRead(dl, DistBits(dl, dist) + rest, c, n, x + rest, out, len);
  }

  lemma BaseSizes()
    ensures |LENGTH_BASE| == |LENGTH_EXTRA| == 29 && |DIST_BASE| == |DIST_EXTRA| == 30
  {
  }

  lemma LiteralDecodes(ll: seq<nat>, dl: seq<nat>, m: nat, b: byte, out: seq<byte>, rest: seq<bool>)
    requires Fits(ll, m) && b < |ll| && ll[b] > 0
    ensures RefCodes(ll, dl, out, CodeBits(ll, b) + rest) == RefCodes(ll, dl, out + [b], rest)
  {
    hide ReadSym;
    SymbolRead(ll, m, b, rest);
  }

  /** The length symbol and its extra bits are read, and the distance follows. */
  lemma LengthRead(ll: seq<nat>, dl: seq<nat>, bits: seq<bool>, c: nat, x: nat, more: seq<bool>, out: seq<byte>,
                   out': seq<byte>, rest: seq<bool>)
    requires c < 29 && 257 + c < |ll| && ReadSym(ll, bits) == Sym(257 + c) && x == LENGTH_EXTRA[c]
    requires ll[257 + c] <= |bits| && bits[ll[257 + c]..] == more && x <= |more|
    requires RefMatch(dl, out, more[x..], LENGTH_BASE[c] + ValOf(more[..x])) == Done(out', rest)
    ensures RefCodes(ll, dl, out, bits) == RefCodes(ll, dl, out', rest)
  {
    hide ReadSym, RefMatch, ValOf;
  }

  lemma MatchDecodes(ll: seq<nat>, dl: seq<nat>, m: nat, len: nat, dist: nat, out: seq<byte>, rest: seq<bool>)
    requires Fits(ll, m) && Fits(dl, m) && Coded(ll, dl, Match(len, dist)) && dist <= |out|
    ensures RefCodes(ll, dl, out, (LenBits(ll, len) + DistBits(dl, dist)) + rest) == RefCodes(ll, dl,
        Copy(out, len, dist), rest)
  {
    hide ReadSym, Copy, LenCode, DistCode, DistBits, RefMatch, RefCodes, LenBits, Fits;
    var db := DistBits(dl, dist);
    ConcatAssoc(LenBits(ll, len), db, rest);
    DistDecodes(dl, m, dist, out, len, rest);
    LengthDecodes(ll, dl, m, len, out, db + rest, Copy(out, len, dist), rest);
  }

  lemma LengthDecodes(ll: seq<nat>, dl: seq<nat>, m: nat, len: nat, out: seq<byte>, tail: seq<bool>, out': seq<byte>,
                      rest: seq<bool>)
    requires Fits(ll, m) && 3 <= len <= 258 && 257 + LenCode(len) < |ll| && ll[257 + LenCode(len)] > 0
    requires RefMatch(dl, out, tail, len) == Done(out', rest)
    ensures RefCodes(ll, dl, out, LenBits(ll, len) + tail) == RefCodes(ll, dl, out', rest)
  {
    hide ReadSym, LenCode, RefMatch, RefCodes, ValOf, BitsOf, CodeBits, LENGTH_BASE, LENGTH_EXTRA, Fits;
    BaseSizes();
    var c := LenCode(len);
    var n := LENGTH_EXTRA[c];
    var x := BitsOf(len - LENGTH_BASE[c], n);
    ConcatAssoc(CodeBits(ll, 257 + c), x, tail);
    SymbolRead(ll, m, 257 + c, x + tail);
    ExtraRead(len - LENGTH_BASE[c], n, tail);
    LengthRead(ll, dl, LenBits(ll, len) + tail, c, n, x + tail, out, out', rest);
  }

  lemma TokenDecodes(ll: seq<nat>, dl: seq<nat>, m: nat, t: Token, out: seq<byte>, rest: seq<bool>)
    requires Fits(ll, m) && Fits(dl, m) && Coded(ll, dl, t) && Reaches(out, t)
    ensures RefCodes(ll, dl, out, TokenBits(ll, dl, t) + rest) == RefCodes(ll, dl, Expand1(out, t), rest)
  {
    hide RefCodes, CodeBits;
    match t
    case Literal(b) => LiteralDecodes(ll, dl, m, b, out, rest);
    case Match(len, dist) => MatchDecodes(ll, dl, m, len, dist, out, rest);
  }

  lemma {:induction false} ExpandSnoc(out: seq<byte>, ts: seq<Token>)
    requires |ts| > 0 && AllReach(out, ts)
    ensures var ts', t := ts[..|ts| - 1], ts[|ts| - 1];
            AllReach(out, ts') && Reaches(Expand(out, ts'), t) && Expand(out, ts) == Expand1(Expand(out, ts'), t)
    decreases |ts|
  {
    if |ts| > 1 {
      ExpandSnoc(Expand1(out, ts[0]), ts[1..]);
      assert ts[..|ts| - 1][1..] == ts[1..][..|ts| - 2];
    }
  }

  /** The reference decoder turns the bits of the tokens back into what the tokens stand for. */
  lemma {:induction false} TokensDecode(ll: seq<nat>, dl: seq<nat>, m: nat, ts: seq<Token>, out: seq<byte>,
                                        rest: seq<bool>)
    requires Fits(ll, m) && Fits(dl, m) && AllCoded(ll, dl, ts) && AllReach(out, ts)
    ensures RefCodes(ll, dl, out, TokensBits(ll, dl, ts) + rest) == RefCodes(ll, dl, Expand(out, ts), rest)
  {
    hide RefCodes, TokenBits, Fits, Coded;
    if |ts| > 0 {
      var ts', t := ts[..|ts| - 1], ts[|ts| - 1];
      ExpandSnoc(out, ts);
      ConcatAssoc(TokensBits(ll, dl, ts'), TokenBits(ll, dl, t), rest);
      TokensDecode(ll, dl, m, ts', out, TokenBits(ll, dl, t) + rest);
      TokenDecodes(ll, dl, m, t, Expand(out, ts'), rest);
    } else {
      assert TokensBits(ll, dl, ts) + rest == rest;
    }
  }

  /** The body of a compressed block: the tokens and the end-of-block code. */
  ghost function BlockBits(ll: seq<nat>, dl: seq<nat>, ts: seq<Token>): seq<bool>
    requires AllCoded(ll, dl, ts) && END_BLOCK < |ll| && ll[END_BLOCK] > 0
  {
    TokensBits(ll, dl, ts) + CodeBits(ll, END_BLOCK)
  }

  lemma BlockDecodes(ll: seq<nat>, dl: seq<nat>, m: nat, ts: seq<Token>, out: seq<byte>, rest: seq<bool>)
    requires Fits(ll, m) && Fits(dl, m) && AllCoded(ll, dl, ts) && AllReach(out, ts) && END_BLOCK < |ll| &&
             ll[END_BLOCK] > 0
    ensures RefCodes(ll, dl, out, BlockBits(ll, dl, ts) + rest) == Done(Expand(out, ts), rest)
  {
    hide ReadSym, TokensBits, Expand;
    var e := CodeBits(ll, END_BLOCK);
    assert BlockBits(ll, dl, ts) + rest == TokensBits(ll, dl, ts) + (e + rest);
    TokensDecode(ll, dl, m, ts, out, e + rest);
    SymbolRead(ll, m, END_BLOCK, rest);
  }
}
