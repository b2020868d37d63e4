/** compress_block (trees.c:1011-1055): the buffered tokens are sent with the codes of two trees. */
module CompressBlock {
  import opened Bitstring
  import opened BitIO
  import opened Codes
  import opened Rfc1951
  import opened TokenCode
  import opened TreeSend
  import opened StaticTables
  import opened TallyBuffers

  datatype Tables = Tables(lengthCode: seq<nat>, baseLength: seq<nat>, distCode: seq<nat>, baseDist: seq<nat>)

  ghost predicate TablesOk(T: Tables) {
    LengthTables(T.lengthCode, T.baseLength) && DistTables(T.distCode, T.baseDist)
  }

  // ---- one match ----

  lemma LenRoom(lc: nat, T: Tables)
    requires lc < 256 && TablesOk(T)
    ensures var c := T.lengthCode[lc];
            && c == LenCode(lc + 3) < 29 && LENGTH_EXTRA[c] <= 5
            && (LENGTH_EXTRA[c] != 0 ==> c < 28 && T.baseLength[c] + 3 == LENGTH_BASE[c])
            && (LENGTH_EXTRA[c] == 0 ==> lc + 3 == LENGTH_BASE[c])
  {
    hide LenCode;
    LengthSteps();
    assert LENGTH_EXTRA[28] == 0;
    assert Pow2(0) == 1;
  }

  /** A code, and the extra bits if it has any. */
  method SendExtra(w: BitWriter, code: nat, v: nat, extra: nat, fc: seq<nat>, dl: seq<nat>, ghost lens: seq<nat>)
    requires w.Valid() && CodeTable(fc, dl, lens) && code < |lens| && lens[code] > 0 && extra <= 16 && v < Pow2(extra)
    modifies w
    ensures w.Valid() && w.Bits() == old(w.Bits()) + (CodeBits(lens, code) + BitsOf(v, extra))
  {
    hide CodeTable, CodeBits, BitsOf;
    ghost var bits := w.Bits();
    SendCode(w, code, fc, dl, lens);
    if extra != 0 {
      w.SendBits(v, extra);
      ConcatAssoc(bits, CodeBits(lens, code), BitsOf(v, extra));
    } else {
      ConcatEmpty(CodeBits(lens, code), v);
    }
  }

  /** The length of a match (trees.c:1032-1038). */
  method SendLength(w: BitWriter, lc: nat, T: Tables, fc: seq<nat>, dl: seq<nat>, ghost ll: seq<nat>)
    requires w.Valid() && TablesOk(T) && CodeTable(fc, dl, ll) && lc < 256 && HasLen(ll, lc + 3)
    modifies w
    ensures w.Valid() && w.Bits() == old(w.Bits()) + LenBits(ll, lc + 3)
  {
    hide CodeTable, CodeBits, LenCode, TablesOk, BitsOf, LENGTH_BASE, LENGTH_EXTRA;
    BaseSizes();
    LenRoom(lc, T);
    TableSizes(T);
    var code := T.lengthCode[lc];
    var extra := LENGTH_EXTRA[code];
    SendExtra(w, code + 257, if extra != 0 then lc - T.baseLength[code] else 0, extra, fc, dl, ll);
  }

  lemma TableSizes(T: Tables)
    requires TablesOk(T)
    ensures |T.lengthCode| == 256 && |T.baseLength| == 29 && |T.distCode| == 512 && |T.baseDist| == 30
  {
  }

  lemma DistRoom(dist: nat, T: Tables)
    requires dist < 32768 && TablesOk(T)
    ensures var c := DCode(T.distCode, dist);
            && c == DistCode(dist + 1) < 30 && DIST_EXTRA[c] <= 13 && T.baseDist[c] + 1 == DIST_BASE[c]
            && (DIST_EXTRA[c] == 0 ==> dist + 1 == DIST_BASE[c])
  {
    hide DistCode;
    DistSteps();
    assert Pow2(0) == 1;
  }

  /** The distance of a match, less 1 (trees.c:1039-1049). */
  method SendDist(w: BitWriter, dist: nat, T: Tables, fc: seq<nat>, dl: seq<nat>, ghost lens: seq<nat>)
    requires w.Valid() && TablesOk(T) && CodeTable(fc, dl, lens) && dist < 32768 && HasDist(lens, dist + 1)
    modifies w
    ensures w.Valid() && w.Bits() == old(w.Bits()) + DistBits(lens, dist + 1)
  {
    hide CodeTable, CodeBits, DistCode, TablesOk, BitsOf, DCode, DIST_BASE, DIST_EXTRA;
    BaseSizes();
    DistRoom(dist, T);
    TableSizes(T);
    var code := DCode(T.distCode, dist);
    SendExtra(w, code, dist - T.baseDist[code], DIST_EXTRA[code], fc, dl, lens);
  }

  // ---- reading the buffers ----

  lemma {:induction false} DistsPrefix(ts: seq<Token>, i: nat)
    requires i <= |ts|
    ensures Dists(ts[..i]) <= Dists(ts)
  {
    if i < |ts| {
      DistsPrefix(ts[..|ts| - 1], i);
      assert ts[..|ts| - 1][..i] == ts[..i];
    } else {
      assert ts[..i] == ts;
    }
  }

  /** The distance of match `i` stands behind those of the matches before it. */
  lemma DistAt(ts: seq<Token>, i: nat)
    requires i < |ts|
    ensures |Dists(ts[..i + 1])| == |Dists(ts[..i])| + if ts[i].Match? then 1 else 0
    ensures ts[i].Match? ==> |Dists(ts[..i])| < |Dists(ts)| && Dists(ts)[|Dists(ts[..i])|] == ts[i].dist - 1
  {
    hide Dists;
    assert ts[..i + 1] == ts[..i] + [ts[i]];
    DistsSnoc(ts[..i], ts[i]);
    DistsPrefix(ts, i + 1);
  }

  function Least(a: nat, b: nat): nat {
    if a < b then a else b
  }

  /** All flags are stored, the last group included. */
  ghost predicate Stored(B: Buffers, ts: seq<Token>) {
    && Holds(B, ts)
    && forall j :: 0 <= j <= B.lastFlags ==> B.flagBuf[j] == ValOf(Flags(ts)[8 * j..Least(8 * j + 8, |ts|)])
  }

  /** The unfinished group of flags joins the finished ones (trees.c:861). */
  method SaveFlags(B: Buffers, ghost ts: seq<Token>) returns (r: Buffers)
    requires Holds(B, ts)
    ensures Stored(r, ts)
  {
    hide ValOf, Dists;
    r := B.(flagBuf := B.flagBuf[B.lastFlags := B.flags]);
    forall j | 0 <= j <= B.lastFlags
      ensures r.flagBuf[j] == ValOf(Flags(ts)[8 * j..Least(8 * j + 8, |ts|)])
    {
      if j == B.lastFlags {
        assert Flags(ts)[8 * j..Least(8 * j + 8, |ts|)] == Flags(ts)[8 * j..];
      }
    }
  }

  lemma FlagBit(s: seq<bool>)
    requires |s| > 0
    ensures ValOf(s) % 2 == (if s[0] then 1 else 0) && ValOf(s) / 2 == ValOf(s[1..])
  {
  }

  lemma LowBit(v: nat)
    ensures And(v, 1) == v % 2
  {
    AndMask(v, 1);
    assert Pow2(1) == 2 * Pow2(0);
  }

  /** The flag of token lx, and the flags that are left of its group. */
  ghost predicate FlagAt(ts: seq<Token>, lx: nat, fx: nat, flag: nat) {
    lx <= |ts| && fx == (lx + 7) / 8 && lx <= Least(8 * fx, |ts|) && flag == ValOf(Flags(ts)[lx..Least(8 * fx, |ts|)])
  }

  /** trees.c:1025-1027 and 1051: the next flag. */
  method NextFlag(B: Buffers, lx: nat, fx0: nat, flag0: nat, ghost ts: seq<Token>)
    returns (fx: nat, isMatch: bool, flag: nat)
    requires Stored(B, ts) && lx < |ts| && FlagAt(ts, lx, fx0, flag0)
    ensures isMatch == ts[lx].Match? && FlagAt(ts, lx + 1, fx, flag)
  {
    hide ValOf, Dists, Holds, Flags, Stored, And, Shr;
    fx, flag := fx0, flag0;
    ghost var s := Flags(ts);
    FlagIndex(B, ts, lx);
    if lx % 8 == 0 {
      flag := B.flagBuf[fx];
      fx := fx + 1;
    }
    ghost var end := Least(8 * fx, |ts|);
    assert flag == ValOf(s[lx..end]);
    FlagBit(s[lx..end]);
    assert s[lx..end][1..] == s[lx + 1..end];
    LowBit(flag);
    ShrOne(flag);
    isMatch := And(flag, 1) != 0;
    flag := Shr(flag, 1);
  }

  lemma FlagIndex(B: Buffers, ts: seq<Token>, lx: nat)
    requires Stored(B, ts) && lx < |ts|
    ensures lx / 8 <= B.lastFlags < |B.flagBuf| &&
            B.flagBuf[lx / 8] == ValOf(Flags(ts)[8 * (lx / 8)..Least(8 * (lx / 8) + 8, |ts|)])
  {
    hide ValOf, Dists, Flags;
  }

  // ---- the block ----

  /** A match: length and distance. */
  method SendPair(w: BitWriter, lc: nat, dist: nat, T: Tables, lfc: seq<nat>, ldl: seq<nat>, dfc: seq<nat>,
                  ddl: seq<nat>,
                  ghost ll: seq<nat>, ghost dl: seq<nat>)
    requires w.Valid() && TablesOk(T) && CodeTable(lfc, ldl, ll) && CodeTable(dfc, ddl, dl)
    requires lc < 256 && dist < 32768 && Coded(ll, dl, Match(lc + 3, dist + 1))
    modifies w
    ensures w.Valid() && w.Bits() == old(w.Bits()) + TokenBits(ll, dl, Match(lc + 3, dist + 1))
  {
    hide TablesOk, CodeTable, HasLen, HasDist, LenBits, DistBits;
    ghost var bits := w.Bits();
    SendLength(w, lc, T, lfc, ldl, ll);
    SendDist(w, dist, T, dfc, ddl, dl);
    ConcatAssoc(bits, LenBits(ll, lc + 3), DistBits(dl, dist + 1));
  }

  /** One token (trees.c:1026-1050). */
  method SendToken(w: BitWriter, B: Buffers, lx: nat, dx: nat, isMatch: bool, T: Tables,
                   lfc: seq<nat>, ldl: seq<nat>, dfc: seq<nat>, ddl: seq<nat>, ghost ll: seq<nat>, ghost dl: seq<nat>,
                     ghost ts: seq<Token>)
    requires w.Valid() && TablesOk(T) && CodeTable(lfc, ldl, ll) && CodeTable(dfc, ddl, dl) && Holds(B, ts)
    requires lx < |ts| && dx == |Dists(ts[..lx])| && isMatch == ts[lx].Match? && Coded(ll, dl, ts[lx])
    modifies w
    ensures w.Valid() && w.Bits() == old(w.Bits()) + TokenBits(ll, dl, ts[lx])
  {
    hide TablesOk, CodeTable, HasLen, HasDist, LenBits, DistBits, Holds, Dists, ValidToken, CodeBits;
    TokenAt(B, ts, lx, dx);
    var lc := B.lBuf[lx];
    if !isMatch {
      SendCode(w, lc, lfc, ldl, ll);
    } else {
      SendPair(w, lc, B.dBuf[dx], T, lfc, ldl, dfc, ddl, ll, dl);
    }
  }

  lemma TokenAt(B: Buffers, ts: seq<Token>, lx: nat, dx: nat)
    requires Holds(B, ts) && lx < |ts| && dx == |Dists(ts[..lx])|
    ensures lx < |B.lBuf| &&
            ts[lx] == if ts[lx].Match? then Match(B.lBuf[lx] + 3, if dx < |B.dBuf| then B.dBuf[dx] + 1 else 0)
                      else Literal(B.lBuf[lx] % 256)
    ensures B.lBuf[lx] < 256 && (ts[lx].Match? ==> dx < |B.dBuf| && B.dBuf[dx] < 32768)
  {
    hide Flags, ValOf, Dists;
    DistAt(ts, lx);
    assert ValidToken(ts[lx]) && B.lBuf[lx] == Low(ts[lx]);
  }

  lemma TokensSnoc(ll: seq<nat>, dl: seq<nat>, ts: seq<Token>, i: nat)
    requires AllCoded(ll, dl, ts) && i < |ts|
    ensures AllCoded(ll, dl, ts[..i]) && AllCoded(ll, dl, ts[..i + 1]) && Coded(ll, dl, ts[i])
    ensures TokensBits(ll, dl, ts[..i + 1]) == TokensBits(ll, dl, ts[..i]) + TokenBits(ll, dl, ts[i])
  {
    assert ts[..i + 1][..i] == ts[..i];
  }

  /** compress_block: all buffered tokens, and the code that ends the block. */
  method SendBlock(w: BitWriter, B: Buffers, T: Tables, lfc: seq<nat>, ldl: seq<nat>, dfc: seq<nat>, ddl: seq<nat>,
                   ghost ll: seq<nat>, ghost dl: seq<nat>, ghost ts: seq<Token>)
    requires w.Valid() && TablesOk(T) && CodeTable(lfc, ldl, ll) && CodeTable(dfc, ddl, dl) && Stored(B, ts)
    requires AllCoded(ll, dl, ts) && END_BLOCK < |ll| && ll[END_BLOCK] > 0
    modifies w
    ensures w.Valid() && w.Bits() == old(w.Bits()) + BlockBits(ll, dl, ts)
  {
    hide TablesOk, CodeTable, TokenBits, TokensBits, Coded, Dists, FlagAt, Flags, ValOf, AllCoded;
    ghost var bits := w.Bits();
    var lx, dx, fx, flag := 0, 0, 0, 0;
    StartFlags(ll, dl, ts);
    while lx < B.lastLit
      invariant 0 <= lx <= |ts| && w.Valid() && FlagAt(ts, lx, fx, flag) && dx == |Dists(ts[..lx])|
      invariant AllCoded(ll, dl, ts[..lx]) && w.Bits() == bits + TokensBits(ll, dl, ts[..lx])
    {
      var isMatch;
      fx, isMatch, flag := NextFlag(B, lx, fx, flag, ts);
      TokensSnoc(ll, dl, ts, lx);
      SendToken(w, B, lx, dx, isMatch, T, lfc, ldl, dfc, ddl, ll, dl, ts);
      ConcatAssoc(bits, TokensBits(ll, dl, ts[..lx]), TokenBits(ll, dl, ts[lx]));
      DistAt(ts, lx);
      if isMatch { dx := dx + 1; }
      lx := lx + 1;
    }
    assert ts[..lx] == ts;
    SendCode(w, END_BLOCK, lfc, ldl, ll);
    ConcatAssoc(bits, TokensBits(ll, dl, ts), CodeBits(ll, END_BLOCK));
  }

  lemma StartFlags(ll: seq<nat>, dl: seq<nat>, ts: seq<Token>)
    ensures FlagAt(ts, 0, 0, 0) && |Dists(ts[..0])| == 0 && AllCoded(ll, dl, ts[..0]) &&
            TokensBits(ll, dl, ts[..0]) == []
  {
    assert Flags(ts)[0..0] == [];
  }
}
