/** The decoding loop inflate_codes (inflate.c:486-591) against the reference decoder. */
module InflateCodes {
  import opened Bitstring
  import opened BitIO
  import opened Codes
  import opened Huft
  import opened HuftMain
  import opened Rfc1951
  import opened OutputWindow

  const CPLENS: seq<nat> := LENGTH_BASE + [0, 0]
  const CPLEXT: seq<nat> := LENGTH_EXTRA + [INVALID, INVALID]

  /** Ok, the error return of the source, the abort of get_byte() at the end of the file, or a null table. */
  datatype Status = Ok | Error(code: nat) | Eof | Crash

  // ---- what a walk says about the symbols ----

  /** The tables were built for the lengths `lens`. */
  ghost predicate TreeFor(lens: seq<nat>, simple: nat, d: seq<nat>, e: seq<nat>, tables: seq<seq<Huft>>, l: nat,
                          v: seq<nat>, sh: Shape)
  {
    && |lens| <= |v| && 0 < MaxLen(lens) <= BMAX && Free(lens, MaxLen(lens)) >= 0
    && AllCells(SetOf(lens, l, v, simple, d, e), tables, sh)
    && Exact(sh)
  }

  /** A code of the filled-out set is a code of the set itself, or no code of it starts the bits. */
  lemma RealOrMissing(lens: seq<nat>, simple: nat, d: seq<nat>, e: seq<nat>, tables: seq<seq<Huft>>, l: nat,
                      v: seq<nat>, sh: Shape, bits: seq<bool>, s: nat)
    requires TreeFor(lens, simple, d, e, tables, l, v, sh) && Starts(SetOf(lens, l, v, simple, d, e).lens, bits, s)
    ensures s < |lens| ==> ReadSym(lens, bits) == Sym(s)
    ensures s >= |lens| ==> ReadSym(lens, bits) == NoCode
  {
    var cs := SetOf(lens, l, v, simple, d, e);
    var g, y := MaxLen(lens), Free(lens, MaxLen(lens));
    OneSymbol(cs.lens, g, bits, s);
    forall s': nat | Starts(lens, bits, s')
      ensures s' == s
    {
      ExtendCode(lens, g, y, s');
      assert Starts(cs.lens, bits, s');
    }
    if s < |lens| {
      ExtendCode(lens, g, y, s);
      assert Starts(lens, bits, s);
    }
  }

  /** Entries of dummy codes: invalid when every symbol has a code. */
  lemma DummyEntry(lens: seq<nat>, simple: nat, d: seq<nat>, e: seq<nat>, l: nat, v: seq<nat>, s: nat)
    requires |lens| <= |v| && 0 < MaxLen(lens) && Free(lens, MaxLen(lens)) >= 0
    requires |lens| <= s < |SetOf(lens, l, v, simple, d, e).lens| && Count(lens, 0) == 0
    ensures SetOf(lens, l, v, simple, d, e).ents[s].e == INVALID
  {
    var g := MaxLen(lens);
    CountAll(lens, g);
    var q := Offset(lens, g) + Count(lens, g) + (s - |lens|);
    assert Offset(lens, g + 1) == Offset(lens, g) + Count(lens, g);
    assert SetOf(lens, l, v, simple, d, e).ents[s] == EntryAt(v, |lens|, q, simple, d, e);
  }

  lemma {:induction false} CountAll(lens: seq<nat>, g: nat)
    requires Count(lens, 0) == 0 && forall i :: 0 <= i < |lens| ==> lens[i] <= g
    ensures Offset(lens, g + 1) == |lens|
  {
    if |lens| == 0 {
      OffsetNone(g + 1);
    } else {
      var n := |lens| - 1;
      CountAll(lens[..n], g);
      OffsetSnoc(lens[..n], lens[n], g + 1);
      assert lens[..n] + [lens[n]] == lens;
    }
  }

  /** The meaning of a lookup in terms of the reference decoder. */
  ghost predicate Means(lens: seq<nat>, simple: nat, d: seq<nat>, e: seq<nat>, bits: seq<bool>, r: Looked) {
    match r
    case Found(xe, xv, n) =>
      var y := ReadSym(lens, bits);
      && 1 <= n <= |bits| && xe <= 16
      && if y.Sym? then xe == EntryOf(y.s, simple, d, e).e && xv == EntryOf(y.s, simple, d, e).v && n == lens[y.s]
         else y.NoCode? && Missing(lens) == Undefined
    case Invalid =>
      var y := ReadSym(lens, bits);
      if y.Sym? then EntryOf(y.s, simple, d, e).e == INVALID else y.NoCode?
    case Short => |bits| < BMAX
    case Wild => false
  }

  lemma WalkMeans(lens: seq<nat>, simple: nat, d: seq<nat>, e: seq<nat>, tables: seq<seq<Huft>>, l: nat,
                  v: seq<nat>, sh: Shape, bits: seq<bool>)
    requires TreeFor(lens, simple, d, e, tables, l, v, sh)
    ensures Means(lens, simple, d, e, bits, Lookup(tables, 0, l, bits))
  {
    hide AllCells, Lookup, Missing, ReadSym;
    var cs := SetOf(lens, l, v, simple, d, e);
    SetFields(lens, l, v, simple, d, e);
    RootOf(cs, tables, sh);
    LookupExplains(cs, tables, sh, 0, bits);
    NilConcat(bits);
    match Lookup(tables, 0, l, bits)
    case Found(xe, xv, n) =>
      var s: nat :| Starts(cs.lens, bits, s) && xe == cs.ents[s].e <= 16 && xv == cs.ents[s].v && n == cs.lens[s];
      RealOrMissing(lens, simple, d, e, tables, l, v, sh, bits, s);
      SymbolMeans(lens, simple, d, e, l, v, s);
    case Invalid =>
      var s: nat :| Starts(cs.lens, bits, s) && cs.ents[s].e == INVALID;
      RealOrMissing(lens, simple, d, e, tables, l, v, sh, bits, s);
      SymbolMeans(lens, simple, d, e, l, v, s);
    case _ =>
  }

  lemma RootOf(cs: CodeSet, tables: seq<seq<Huft>>, sh: Shape)
    requires AllCells(cs, tables, sh)
    ensures |tables| > 0 && |sh.pre| == |sh.tbs| == |tables| && sh.pre[0] == [] && sh.tbs[0] == cs.l
    ensures |cs.ents| == |cs.lens| && cs.g <= BMAX
  {
  }

  lemma SymbolMeans(lens: seq<nat>, simple: nat, d: seq<nat>, e: seq<nat>, l: nat, v: seq<nat>, s: nat)
    requires |lens| <= |v| && 0 < MaxLen(lens) && Free(lens, MaxLen(lens)) >= 0
    requires s < |SetOf(lens, l, v, simple, d, e).lens|
    ensures var cs := SetOf(lens, l, v, simple, d, e);
            && (s < |lens| ==> cs.ents[s] == EntryOf(s, simple, d, e) && cs.lens[s] == lens[s])
            && (s >= |lens| && cs.ents[s].e != INVALID ==> Missing(lens) == Undefined)
  {
    if s >= |lens| && Count(lens, 0) == 0 {
      DummyEntry(lens, simple, d, e, l, v, s);
    }
  }

  // ---- the lookup loop ----

  /** What the walk may rely on at a cell. */
  ghost predicate GoodCell(tables: seq<seq<Huft>>, sh: Shape, t: nat, x: Huft)
    requires t < |tables| == |sh.tbs|
  {
    x.e == INVALID || (x.b <= sh.tbs[t] && (x.e <= 16 || (t < x.v < |tables| && x.e == 16 + sh.tbs[x.v] < INVALID)))
  }

  lemma CellAt(cs: CodeSet, tables: seq<seq<Huft>>, sh: Shape, t: nat, bits: seq<bool>)
    requires AllCells(cs, tables, sh) && Exact(sh) && t < |tables|
    ensures |tables| == |sh.tbs| && 1 <= sh.tbs[t] <= 16
    ensures |bits| >= sh.tbs[t] ==>
              var i := ValOf(bits[..sh.tbs[t]]); i < |tables[t]| && GoodCell(tables, sh, t, tables[t][i])
  {
    assert TableFits(cs, tables[t], sh.pre[t], sh.tbs[t]);
    if |bits| >= sh.tbs[t] {
      var i := ValOf(bits[..sh.tbs[t]]);
      assert CellOk(cs, sh, t, i, tables[t][i]);
      var v := tables[t][i].v;
      if v < |tables| { assert TableFits(cs, tables[v], sh.pre[v], sh.tbs[v]); }
    }
  }

  lemma LookupStep(tables: seq<seq<Huft>>, sh: Shape, t: nat, bits: seq<bool>)
    requires t < |tables| == |sh.tbs| && |bits| >= sh.tbs[t]
    requires ValOf(bits[..sh.tbs[t]]) < |tables[t]| && GoodCell(tables, sh, t, tables[t][ValOf(bits[..sh.tbs[t]])])
    ensures var x := tables[t][ValOf(bits[..sh.tbs[t]])];
            Lookup(tables, t, sh.tbs[t], bits) ==
            if x.e == INVALID then Invalid
            else if x.e <= 16 then Found(x.e, x.v, x.b)
            else Later(Lookup(tables, x.v, sh.tbs[x.v], bits[x.b..]), x.b)
  {
  }

  lemma LaterLater(r: Looked, a: nat, b: nat)
    ensures Later(Later(r, a), b) == Later(r, b + a)
  {
  }

  /** inflate.c:511-520 (and 543-552): NEEDBITS, index, follow links, DUMPBITS. */
  method Walk(rd: BitReader, tables: seq<seq<Huft>>, bl: nat, ghost cs: CodeSet, ghost sh: Shape) returns (r: Looked)
    requires rd.Valid() && AllCells(cs, tables, sh) && Exact(sh) && cs.l == bl
    modifies rd`inptr, rd`bb, rd`bk
    ensures rd.Valid()
    ensures r == Lookup(tables, 0, bl, old(rd.Rest()))
    ensures r.Found? ==>
              r.used <= |old(rd.Rest())| && rd.Rest() == old(rd.Rest())[r.used..] && rd.Pos() == old(rd.Pos()) + r.used
  {
    hide AllCells, Lookup, Exact, BitsOf, BytesBits, Pow2, ValOf;
    var t, nb, used := 0, bl, 0;
    ghost var rest0 := rd.Rest();
    RootOf(cs, tables, sh);
    LaterZero(Lookup(tables, 0, bl, rest0));
    while true
      invariant rd.Valid() && t < |tables| == |sh.tbs| && nb == sh.tbs[t]
      invariant 0 <= used <= |rest0| && rd.Rest() == rest0[used..] && rd.Pos() == old(rd.Pos()) + used
      invariant Lookup(tables, 0, bl, rest0) == Later(Lookup(tables, t, nb, rd.Rest()), used)
      decreases |tables| - t
    {
      CellAt(cs, tables, sh, t, rd.Rest());
      var ok := rd.NeedBits(nb);
      if !ok {
        LookupShort(tables, t, nb, rd.Rest());
        return Looked.Short;
      }
      LookupStep(tables, sh, t, rd.Rest());
      var i := rd.Peek(nb);
      var x := tables[t][i];
      if x.e == INVALID { return Invalid; }
      rd.DumpBits(x.b);
      if x.e > 16 { LaterLater(Lookup(tables, x.v, x.e - 16, rd.Rest()), x.b, used); }
      used := used + x.b;
      if x.e <= 16 {
        return Found(x.e, x.v, used);
      }
      t, nb := x.v, x.e - 16;
    }
  }

  lemma LaterZero(r: Looked)
    ensures Later(r, 0) == r
  {
  }

  lemma LookupShort(tables: seq<seq<Huft>>, t: nat, nb: nat, bits: seq<bool>)
    requires |bits| < nb
    ensures Lookup(tables, t, nb, bits) == Looked.Short
  {
  }

  // ---- one literal or match ----

  ghost predicate LitTree(ll: seq<nat>, tl: seq<seq<Huft>>, bl: nat, v: seq<nat>, sh: Shape) {
    |ll| <= 288 && TreeFor(ll, 257, CPLENS, CPLEXT, tl, bl, v, sh)
  }

  /** Without any distance code there is no table. */
  ghost predicate DistTree(dl: seq<nat>, td: seq<seq<Huft>>, bd: nat, v: seq<nat>, sh: Shape) {
    && 1 <= |dl| <= 30
    && if MaxLen(dl) == 0 then td == [] else TreeFor(dl, 0, DIST_BASE, DIST_EXTRA, td, bd, v, sh)
  }

  datatype Step = Go | End | Stop(why: Status)

  /** What a return in the middle of a block says about the reference decoder from there. */
  ghost predicate Stops(r: Outcome, why: Status) {
    match why
    case Ok => false
    case Error(code) => r == Bad(code) || r.Undefined?
    case Eof => !(r.Done? && |r.rest| >= BMAX)
    case Crash => r.Undefined?
  }

  lemma EntryKind(s: nat)
    requires s < 288
    ensures var x := EntryOf(s, 257, CPLENS, CPLEXT);
            && (s < 256 ==> x.e == 16 && x.v == s)
            && (s == 256 ==> x.e == 15)
            && (s > 256 && s - 257 < |LENGTH_BASE| ==> x.e == LENGTH_EXTRA[s - 257] <= 5 && x.v == LENGTH_BASE[s - 257])
            && (s > 256 && s - 257 >= |LENGTH_BASE| ==> x.e == INVALID)
  {
  }

  lemma DistKind(s: nat)
    requires s < 30
    ensures var x := EntryOf(s, 0, DIST_BASE, DIST_EXTRA);
            x.e == DIST_EXTRA[s] <= 13 && x.v == DIST_BASE[s] >= 1 && x.v + Pow2(x.e) - 1 <= WSIZE
  {
    Pow2Values();
  }

  lemma NoDists(dl: seq<nat>, bits: seq<bool>)
    requires |dl| >= 1 && MaxLen(dl) == 0
    ensures ReadSym(dl, bits) == NoCode && Missing(dl) == Undefined
  {
    AllZero(dl);
  }

  /** What the lookup of a distance and its extra bits say about the reference decoder. */
  ghost predicate MatchMeans(dl: seq<nat>, out: seq<byte>, bits: seq<bool>, len: nat, x: Looked) {
    var r := RefMatch(dl, out, bits, len);
    match x
    case Found(e, v, n) =>
      && n <= |bits| && e <= 16
      && var rest := bits[n..];
         if |rest| < e then Stops(r, Eof)
         else
           var dist := v + ValOf(rest[..e]);
           r.Undefined? || (1 <= dist <= WSIZE && dist <= |out| && r == Done(Copy(out, len, dist), rest[e..]))
    case Invalid => Stops(r, Error(1))
    case Short => Stops(r, Eof)
    case Wild => false
  }

  lemma MatchLooked(dl: seq<nat>, out: seq<byte>, bits: seq<bool>, len: nat, x: Looked)
    requires 1 <= |dl| <= 30 && Means(dl, 0, DIST_BASE, DIST_EXTRA, bits, x)
    ensures MatchMeans(dl, out, bits, len, x)
  {
    hide Copy, ReadSym;
    var y := ReadSym(dl, bits);
    if y.Sym? {
      DistKind(y.s);
      if x.Found? { MatchFound(dl, out, bits, len, y.s, x.e, x.v, x.used); }
    }
  }

  lemma MatchFound(dl: seq<nat>, out: seq<byte>, bits: seq<bool>, len: nat, s: nat, e: nat, v: nat, n: nat)
    requires s < |dl| <= 30 && ReadSym(dl, bits) == Sym(s) && n == dl[s] <= |bits|
    requires e == DIST_EXTRA[s] <= 13 && v == DIST_BASE[s] >= 1 && v + Pow2(e) - 1 <= WSIZE
    ensures MatchMeans(dl, out, bits, len, Found(e, v, n))
  {
    hide Copy, ReadSym;
  }

  /** The distance of a match (inflate.c:543-555). */
  method ReadDist(rd: BitReader, td: seq<seq<Huft>>, bd: nat,
                  ghost dl: seq<nat>, ghost v: seq<nat>, ghost sh: Shape, ghost out: seq<byte>, ghost len: nat)
    returns (st: Step, dist: nat)
    requires rd.Valid() && DistTree(dl, td, bd, v, sh)
    modifies rd`inptr, rd`bb, rd`bk
    ensures rd.Valid() && !st.End?
    ensures st.Go? ==> |rd.Rest()| <= |old(rd.Rest())|
    ensures st.Go? ==> var r := RefMatch(dl, out, old(rd.Rest()), len);
                       r.Undefined? || (1 <= dist <= WSIZE && dist <= |out| &&
                                        r == Done(Copy(out, len, dist), rd.Rest()))
    ensures st.Stop? ==> Stops(RefMatch(dl, out, old(rd.Rest()), len), st.why)
  {
    hide AllCells, Lookup, RefMatch, Copy, Means, TreeFor, SetOf, Exact, ValOf, DistTree;
    ghost var bits := rd.Rest();
    dist := 0;
    if |td| == 0 {
      NullTable(dl, td, bd, v, sh, out, bits, len);
      return Stop(Crash), 0;
    }
    NotNull(dl, td, bd, v, sh);
    WalkMeans(dl, 0, DIST_BASE, DIST_EXTRA, td, bd, v, sh, bits);
    var x := Walk(rd, td, bd, SetOf(dl, bd, v, 0, DIST_BASE, DIST_EXTRA), sh);
    MatchLooked(dl, out, bits, len, x);
    if x.Short? { return Stop(Eof), 0; }
    if x.Invalid? { return Stop(Error(1)), 0; }
    var ok, extra := rd.GetBits(x.e);
    if !ok { return Stop(Eof), 0; }
    return Go, x.v + extra;
  }

  /** The distance of a match and the copy (inflate.c:543-579). */
  method DistAndCopy(rd: BitReader, win: Window, td: seq<seq<Huft>>, bd: nat, len: nat,
                     ghost dl: seq<nat>, ghost v: seq<nat>, ghost sh: Shape)
    returns (st: Step)
    requires rd.Valid() && win.Valid() && DistTree(dl, td, bd, v, sh)
    modifies rd`inptr, rd`bb, rd`bk, win, win.slide
    ensures rd.Valid() && win.Valid() && !st.End?
    ensures st.Go? ==> |rd.Rest()| <= |old(rd.Rest())|
    ensures st.Go? ==> var r := RefMatch(dl, old(win.History()), old(rd.Rest()), len);
                       r.Undefined? || r == Done(win.History(), rd.Rest())
    ensures st.Stop? ==> Stops(RefMatch(dl, old(win.History()), old(rd.Rest()), len), st.why)
  {
    hide RefMatch, Copy, DistTree, Stops;
    var dist;
    st, dist := ReadDist(rd, td, bd, dl, v, sh, win.History(), len);
    if st.Go? {
      win.CopyMatch(len, dist);
    }
  }

  lemma NullTable(dl: seq<nat>, td: seq<seq<Huft>>, bd: nat, v: seq<nat>, sh: Shape, out: seq<byte>, bits: seq<bool>,
                  len: nat)
    requires DistTree(dl, td, bd, v, sh) && td == []
    ensures RefMatch(dl, out, bits, len).Undefined?
  {
    NoDists(dl, bits);
  }

  lemma NotNull(dl: seq<nat>, td: seq<seq<Huft>>, bd: nat, v: seq<nat>, sh: Shape)
    requires DistTree(dl, td, bd, v, sh) && td != []
    ensures TreeFor(dl, 0, DIST_BASE, DIST_EXTRA, td, bd, v, sh) && |dl| <= |v| && 1 <= |dl| <= 30
    ensures AllCells(SetOf(dl, bd, v, 0, DIST_BASE, DIST_EXTRA), td, sh) && Exact(sh)
    ensures SetOf(dl, bd, v, 0, DIST_BASE, DIST_EXTRA).l == bd
  {
  }

  // ---- the literal/length symbol ----

  datatype Head = Lit(b: byte) | EndOfBlock | Len(len: nat) | Cut(why: Status)

  /** The reference decoder continues with the distance of a match. */
  ghost function AfterLength(ll: seq<nat>, dl: seq<nat>, out: seq<byte>, rest: seq<bool>, len: nat): Outcome {
    match RefMatch(dl, out, rest, len)
    case Done(out', rest') => RefCodes(ll, dl, out', rest')
    case other => other
  }

  ghost predicate HeadMeans(ll: seq<nat>, dl: seq<nat>, out: seq<byte>, bits: seq<bool>, h: Head, rest: seq<bool>) {
    var r := RefCodes(ll, dl, out, bits);
    match h
    case Lit(b) => |rest| < |bits| && (r.Undefined? || r == RefCodes(ll, dl, out + [b], rest))
    case EndOfBlock => |rest| < |bits| && (r.Undefined? || r == Done(out, rest))
    case Len(len) => |rest| < |bits| && (r.Undefined? || r == AfterLength(ll, dl, out, rest, len))
    case Cut(why) => Stops(r, why)
  }

  /** What to do with the entry found (inflate.c:520-540), `rest` being the bits behind its code. */
  ghost predicate LookedMeans(ll: seq<nat>, dl: seq<nat>, out: seq<byte>, bits: seq<bool>, x: Looked) {
    match x
    case Found(e, v, n) =>
      && 1 <= n <= |bits| && e <= 16
      && var rest := bits[n..];
         if e == 16 then HeadMeans(ll, dl, out, bits, Lit(v % 256), rest)
         else if e == 15 then HeadMeans(ll, dl, out, bits, EndOfBlock, rest)
         else if |rest| < e then HeadMeans(ll, dl, out, bits, Cut(Eof), [])
         else HeadMeans(ll, dl, out, bits, Len(v + ValOf(rest[..e])), rest[e..])
    case Invalid => HeadMeans(ll, dl, out, bits, Cut(Error(1)), [])
    case Short => HeadMeans(ll, dl, out, bits, Cut(Eof), [])
    case Wild => false
  }

  /** The reference decoder after a literal/length symbol. */
  lemma RefUnfold(ll: seq<nat>, dl: seq<nat>, out: seq<byte>, bits: seq<bool>, s: nat)
    requires s < |ll| && ReadSym(ll, bits) == Sym(s) && ll[s] <= |bits|
    ensures var r, rest := RefCodes(ll, dl, out, bits), bits[ll[s]..];
            && (s < END_BLOCK ==> r == RefCodes(ll, dl, out + [s], rest))
            && (s == END_BLOCK ==> r == Done(out, rest))
            && (s > END_BLOCK && s - 257 >= |LENGTH_BASE| ==> r == Bad(BAD_DATA))
            && (s > END_BLOCK && s - 257 < |LENGTH_BASE| ==>
                  var x := LENGTH_EXTRA[s - 257];
                  r == if |rest| < x then Outcome.Short
                       else AfterLength(ll, dl, out, rest[x..], LENGTH_BASE[s - 257] + ValOf(rest[..x])))
  {
    hide ReadSym, RefMatch, ValOf;
  }

  lemma SymFound(ll: seq<nat>, dl: seq<nat>, out: seq<byte>, bits: seq<bool>, s: nat, e: nat, v: nat, n: nat)
    requires s < |ll| <= 288 && ReadSym(ll, bits) == Sym(s) && 1 <= n == ll[s] <= |bits| && e <= 16
    requires e == EntryOf(s, 257, CPLENS, CPLEXT).e && v == EntryOf(s, 257, CPLENS, CPLEXT).v
    ensures LookedMeans(ll, dl, out, bits, Found(e, v, n))
  {
    hide ReadSym, RefMatch, EntryOf, ValOf, RefCodes, AfterLength;
    EntryKind(s);
    RefUnfold(ll, dl, out, bits, s);
  }

  lemma SymLooked(ll: seq<nat>, dl: seq<nat>, out: seq<byte>, bits: seq<bool>, x: Looked)
    requires |ll| <= 288 && Means(ll, 257, CPLENS, CPLEXT, bits, x)
    ensures LookedMeans(ll, dl, out, bits, x)
  {
    hide ReadSym, RefMatch, EntryOf, Missing;
    var y := ReadSym(ll, bits);
    if y.Sym? {
      EntryKind(y.s);
      if x.Found? { SymFound(ll, dl, out, bits, y.s, x.e, x.v, x.used); }
    } else {
      MissingKinds(ll);
    }
  }

  lemma MissingKinds(lens: seq<nat>)
    ensures Missing(lens) == Bad(BAD_DATA) || Missing(lens) == Undefined
  {
  }

  lemma LitFacts(ll: seq<nat>, tl: seq<seq<Huft>>, bl: nat, v: seq<nat>, sh: Shape)
    requires LitTree(ll, tl, bl, v, sh)
    ensures TreeFor(ll, 257, CPLENS, CPLEXT, tl, bl, v, sh) && |ll| <= |v| && |ll| <= 288
    ensures AllCells(SetOf(ll, bl, v, 257, CPLENS, CPLEXT), tl, sh) && Exact(sh)
    ensures SetOf(ll, bl, v, 257, CPLENS, CPLEXT).l == bl
  {
  }

  /** inflate.c:511-540 up to the copy length. */
  method ReadHead(rd: BitReader, tl: seq<seq<Huft>>, bl: nat,
                  ghost ll: seq<nat>, ghost dl: seq<nat>, ghost v: seq<nat>, ghost sh: Shape, ghost out: seq<byte>)
    returns (h: Head)
    requires rd.Valid() && LitTree(ll, tl, bl, v, sh)
    modifies rd`inptr, rd`bb, rd`bk
    ensures rd.Valid() && HeadMeans(ll, dl, out, old(rd.Rest()), h, rd.Rest())
  {
    hide AllCells, Lookup, Means, TreeFor, SetOf, Exact, LitTree, RefCodes, AfterLength, Stops;
    ghost var bits := rd.Rest();
    LitFacts(ll, tl, bl, v, sh);
    WalkMeans(ll, 257, CPLENS, CPLEXT, tl, bl, v, sh, bits);
    var x := Walk(rd, tl, bl, SetOf(ll, bl, v, 257, CPLENS, CPLEXT), sh);
    SymLooked(ll, dl, out, bits, x);
    if x.Short? { return Cut(Eof); }
    if x.Invalid? { return Cut(Error(1)); }
    if x.e == 16 { return Lit(x.v % 256); }
    if x.e == 15 { return EndOfBlock; }
    var ok, extra := rd.GetBits(x.e);
    if !ok { return Cut(Eof); }
    return Len(x.v + extra);
  }

  /** The outcome of a block agrees with the reference decoder. */
  ghost predicate Agrees(r: Outcome, st: Status, out: seq<byte>, rest: seq<bool>) {
    if st == Ok then r.Undefined? || r == Done(out, rest) else Stops(r, st)
  }

  lemma StopsHere(r: Outcome, here: Outcome, why: Status)
    requires Stops(here, why) && (r.Undefined? || r == here)
    ensures Agrees(r, why, [], [])
    ensures why != Ok && Stops(r, why)
  {
  }

  lemma StopsInMatch(ll: seq<nat>, dl: seq<nat>, out: seq<byte>, rest: seq<bool>, len: nat, why: Status)
    requires Stops(RefMatch(dl, out, rest, len), why)
    ensures Stops(AfterLength(ll, dl, out, rest, len), why)
  {
    hide RefMatch;
  }

  lemma GoesOn(ll: seq<nat>, dl: seq<nat>, out: seq<byte>, rest: seq<bool>, len: nat, out': seq<byte>, rest': seq<bool>)
    requires var m := RefMatch(dl, out, rest, len); m.Undefined? || m == Done(out', rest')
    ensures var a := AfterLength(ll, dl, out, rest, len); a.Undefined? || a == RefCodes(ll, dl, out', rest')
  {
    hide RefMatch;
  }

  /** One turn of the loop of inflate_codes. */
  method OneToken(rd: BitReader, win: Window, tl: seq<seq<Huft>>, td: seq<seq<Huft>>, bl: nat, bd: nat,
                  ghost ll: seq<nat>, ghost dl: seq<nat>, ghost vl: seq<nat>, ghost vd: seq<nat>, ghost shl: Shape,
                    ghost shd: Shape)
    returns (st: Step)
    requires rd.Valid() && win.Valid() && LitTree(ll, tl, bl, vl, shl) && DistTree(dl, td, bd, vd, shd)
    modifies rd`inptr, rd`bb, rd`bk, win, win.slide
    ensures rd.Valid() && win.Valid()
    ensures var r := RefCodes(ll, dl, old(win.History()), old(rd.Rest()));
            match st
            case Go => |rd.Rest()| < |old(rd.Rest())| &&
              (r.Undefined? || r == RefCodes(ll, dl, win.History(), rd.Rest()))
            case End => |rd.Rest()| < |old(rd.Rest())| && (r.Undefined? || r == Done(win.History(), rd.Rest()))
            case Stop(why) => Stops(r, why) && why != Ok
  {
    hide LitTree, DistTree, RefCodes, RefMatch, AfterLength, Copy;
    ghost var r, out := RefCodes(ll, dl, win.History(), rd.Rest()), win.History();
    var h := ReadHead(rd, tl, bl, ll, dl, vl, shl, win.History());
    match h
    case Lit(b) =>
      win.Put(b);
      return Go;
    case EndOfBlock =>
      return End;
    case Len(len) =>
      ghost var rest := rd.Rest();
      st := DistAndCopy(rd, win, td, bd, len, dl, vd, shd);
      if st.Stop? {
        StopsInMatch(ll, dl, out, rest, len, st.why);
        StopsHere(r, AfterLength(ll, dl, out, rest, len), st.why);
      } else {
        GoesOn(ll, dl, out, rest, len, win.History(), rd.Rest());
      }
    case Cut(why) =>
      return Stop(why);
  }

  /** inflate_codes */
  method DecodeBlock(rd: BitReader, win: Window, tl: seq<seq<Huft>>, td: seq<seq<Huft>>, bl: nat, bd: nat,
                     ghost ll: seq<nat>, ghost dl: seq<nat>, ghost vl: seq<nat>, ghost vd: seq<nat>, ghost shl: Shape,
                       ghost shd: Shape)
    returns (st: Status)
    requires rd.Valid() && win.Valid() && LitTree(ll, tl, bl, vl, shl) && DistTree(dl, td, bd, vd, shd)
    modifies rd`inptr, rd`bb, rd`bk, win, win.slide
    ensures rd.Valid() && win.Valid()
    ensures Agrees(RefCodes(ll, dl, old(win.History()), old(rd.Rest())), st, win.History(), rd.Rest())
    ensures st == Ok ==> |rd.Rest()| <= |old(rd.Rest())|
  {
    hide LitTree, DistTree, RefCodes, Stops;
    ghost var r := RefCodes(ll, dl, win.History(), rd.Rest());
    while true
      invariant rd.Valid() && win.Valid()
      invariant r.Undefined? || r == RefCodes(ll, dl, win.History(), rd.Rest())
      invariant |rd.Rest()| <= |old(rd.Rest())|
      decreases |rd.Rest()|
    {
      ghost var here := RefCodes(ll, dl, win.History(), rd.Rest());
      var s := OneToken(rd, win, tl, td, bl, bd, ll, dl, vl, vd, shl, shd);
      if s.End? {
        return Ok;
      }
      if s.Stop? {
        StopsHere(r, here, s.why);
        return s.why;
      }
    }
  }
}
