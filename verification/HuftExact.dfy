/** When the tables of huft_build decode: exactly for the sets that Safe describes. */
module HuftExact {
  import opened Bitstring
  import opened Codes
  import opened Interval
  import opened Huft
  import opened HuftSteps

  ghost function Ones(n: nat): (s: seq<bool>)
    ensures |s| == n && forall i :: 0 <= i < n ==> s[i]
  {
    seq(n, _ => true)
  }

  lemma {:induction false} OnesVal(n: nat)
    ensures ValOf(Ones(n)) == Pow2(n) - 1
  {
    if n == 0 {
    } else {
      OnesVal(n - 1);
      assert Ones(n)[1..] == Ones(n - 1);
    }
  }

  lemma {:induction false} OnesHi(n: nat, g: nat)
    requires n <= g
    ensures Hi(Ones(n), g) == Pow2(g)
  {
    if n == 0 {
    } else {
      OnesHi(n - 1, g - 1);
      assert Ones(n)[1..] == Ones(n - 1);
    }
  }

  lemma OnesCell(n: nat, tb: nat)
    ensures Pow2(tb) >= 1 && Cell(Ones(n), tb, Pow2(tb) - 1) == Ones(n + tb)
  {
    OnesVal(tb);
    BitsOfValOf(Ones(tb));
    assert Ones(n) + Ones(tb) == Ones(n + tb);
  }

  /** Only a code of the longest length consists of ones alone. */
  lemma NotOnes(cs: CodeSet, s: nat, n: nat)
    requires WfSet(cs) && s < |cs.lens| && 0 < cs.lens[s] < cs.g && cs.lens[s] <= n
    ensures !(CodeBits(cs.lens, s) <= Ones(n))
  {
    var c := CodeBits(cs.lens, s);
    if c <= Ones(n) {
      assert c == Ones(cs.lens[s]);
      OnesHi(cs.lens[s], cs.g);
      CodeSpan(cs.lens, cs.g, s);
      CoverEnd(cs, cs.lens[s]);
    }
  }

  /** The last code consists of ones. */
  lemma LastIsOnes(cs: CodeSet, s: nat)
    requires WfSet(cs) && s < |cs.lens| && cs.lens[s] == cs.g && Count(cs.lens[..s], cs.g) == Count(cs.lens, cs.g) - 1
    ensures CodeBits(cs.lens, s) == Ones(cs.g)
  {
    var c := CodeBits(cs.lens, s);
    CodeSpan(cs.lens, cs.g, s);
    CoverStep(cs.lens, cs.g, cs.g);
    OnesHi(cs.g, cs.g);
    Inside(c, Ones(cs.g), cs.g);
    assert c == Ones(cs.g);
  }

  lemma {:induction false} SameLevel(w: nat, tb: nat, l: nat)
    requires MultipleOf(w, l) && MultipleOf(w + tb, l) && 1 <= tb <= l
    ensures tb == l
    decreases w
  {
    if w == 0 {
    } else {
      SameLevel(w - l, tb, l);
    }
  }

  /** An unsafe set has a prefix of ones that is too wide. */
  lemma UnsafeIsWide(cs: CodeSet, w: nat)
    requires WfSet(cs) && cs.l <= w && w + cs.l < cs.g && !Roomy(cs.lens, w + cs.l - 1, cs.l)
    ensures TooWide(cs, Ones(w))
  {
    RoomyCover(cs.lens, cs.g, w + cs.l - 1, w, cs.l);
    OnesHi(w, cs.g);
    CoverEnd(cs, w + cs.l);
  }

  /** The bits by which the lookup indexes table `t`. */
  ghost function IndexBits(cs: CodeSet, sh: Shape, t: nat): nat
    requires t < |sh.wid|
  {
    if t == 0 then cs.l else sh.wid[t]
  }

  /** In a table that is too wide, the walk along ones meets a cell that was never written. */
  lemma WideCell(cs: CodeSet, tables: seq<seq<Huft>>, sh: Shape, junk: Huft, t: nat, r: nat, n: nat)
    requires AllCells(cs, tables, sh) && Extra(cs, tables, sh, junk) && junk.e == INVALID
    requires 0 < t < |tables| && sh.pre[t] == Ones(r) && r + cs.l < cs.g && sh.wid[t] > cs.l && n >= sh.wid[t]
    ensures Lookup(tables, t, sh.wid[t], Ones(n)) == Invalid
  {
    var wd := sh.wid[t];
    assert TableExtra(cs, t, tables[t], sh.pre[t], sh.tbs[t], wd, junk);
    var i := Pow2(wd) - 1;
    assert Ones(n)[..wd] == Ones(wd);
    OnesVal(wd);
    Pow2Strict(cs.l, wd);
    OnesCell(r, wd);
    assert SpareCell(cs, sh.pre[t], wd, i, tables[t][i], junk);
    if tables[t][i] != junk {
      var s: nat :| && IsLeaf(cs, Cell(sh.pre[t], wd, i), |sh.pre[t]|, tables[t][i], s)
                    && cs.lens[s] <= |sh.pre[t]| + cs.l;
      NotOnes(cs, s, r + wd);
    }
  }

  /** A table of proper width sends the walk along ones one level down. */
  lemma OnesLink(cs: CodeSet, tables: seq<seq<Huft>>, sh: Shape, junk: Huft, t: nat, r: nat)
    requires AllCells(cs, tables, sh) && Extra(cs, tables, sh, junk)
    requires t < |tables| && sh.pre[t] == Ones(r) && r + cs.l < cs.g
    ensures sh.tbs[t] == cs.l && Pow2(cs.l) - 1 < |tables[t]|
    ensures IsLink(sh, t, Ones(r + cs.l), r, tables[t][Pow2(cs.l) - 1])
  {
    hide TooWide, SpareCell, Complete, Done, CellOk;
    var tb := sh.tbs[t];
    OnesCellLinks(cs, tables, sh, t, r);
    var v := tables[t][Pow2(tb) - 1].v;
    assert TableExtra(cs, t, tables[t], sh.pre[t], tb, sh.wid[t], junk);
    assert TableExtra(cs, v, tables[v], sh.pre[v], sh.tbs[v], sh.wid[v], junk);
    SameLevel(r, tb, cs.l);
  }

  lemma OnesCellLinks(cs: CodeSet, tables: seq<seq<Huft>>, sh: Shape, t: nat, r: nat)
    requires AllCells(cs, tables, sh) && t < |tables| && sh.pre[t] == Ones(r) && r + cs.l < cs.g
    ensures var tb := sh.tbs[t];
            1 <= tb <= cs.l && Pow2(tb) - 1 < |tables[t]| && IsLink(sh, t, Ones(r + tb), r, tables[t][Pow2(tb) - 1])
  {
    hide Ones, Complete, Cell, IsLink;
    var tb := sh.tbs[t];
    assert TableFits(cs, tables[t], sh.pre[t], tb);
    OnesCell(r, tb);
    MustLink(cs, sh, t, Pow2(tb) - 1, tables[t][Pow2(tb) - 1], r + tb);
  }

  lemma MustLink(cs: CodeSet, sh: Shape, t: nat, i: nat, x: Huft, n: nat)
    requires WfSet(cs) && t < |sh.pre| == |sh.tbs| == |sh.wid| && CellOk(cs, sh, t, i, x) && n < cs.g
    requires Cell(sh.pre[t], sh.tbs[t], i) == Ones(n)
    ensures IsLink(sh, t, Ones(n), |sh.pre[t]|, x)
  {
    hide Ones, Complete;
    OnesNotLeaf(cs, |sh.pre[t]|, n, x);
  }

  lemma OnesNotLeaf(cs: CodeSet, r: nat, n: nat, x: Huft)
    requires WfSet(cs) && n < cs.g
    ensures forall s :: !IsLeaf(cs, Ones(n), r, x, s)
  {
    forall s | IsLeaf(cs, Ones(n), r, x, s)
      ensures false
    {
      NotOnes(cs, s, n);
    }
  }

  /** One level of the walk along ones. */
  lemma OnesStep(cs: CodeSet, tables: seq<seq<Huft>>, sh: Shape, t: nat, r: nat, n: nat)
    requires t < |tables| == |sh.pre| == |sh.tbs| == |sh.wid| && 1 <= cs.l <= n && Pow2(cs.l) - 1 < |tables[t]|
    requires IsLink(sh, t, Ones(r + cs.l), r, tables[t][Pow2(cs.l) - 1])
    requires 1 <= sh.wid[tables[t][Pow2(cs.l) - 1].v] <= BMAX + 1
    ensures var v := tables[t][Pow2(cs.l) - 1].v;
            Lookup(tables, t, cs.l, Ones(n)) == Later(Lookup(tables, v, sh.wid[v], Ones(n - cs.l)), cs.l)
  {
    OnesVal(cs.l);
    assert Ones(n)[..cs.l] == Ones(cs.l) && Ones(n)[cs.l..] == Ones(n - cs.l);
    LinkStep(tables, t, cs.l, Ones(n), tables[t][Pow2(cs.l) - 1]);
  }

  lemma {:induction false} OnesWalk(cs: CodeSet, tables: seq<seq<Huft>>, sh: Shape, junk: Huft, w: nat, t: nat, r: nat,
                                    n: nat)
    requires AllCells(cs, tables, sh) && Extra(cs, tables, sh, junk) && junk.e == INVALID
    requires t < |tables| && sh.pre[t] == Ones(r) && r <= w && w + cs.l < cs.g && TooWide(cs, Ones(w)) && cs.l <= w
    requires MultipleOf(r, cs.l) && MultipleOf(w, cs.l) && n >= 64 - r
    ensures Lookup(tables, t, IndexBits(cs, sh, t), Ones(n)) == Invalid
    decreases w - r
  {
    hide AllCells, Extra, TooWide, IsLink;
    WidthOf(cs, tables, sh, junk, t);
    if t > 0 && sh.wid[t] > cs.l {
      WideCell(cs, tables, sh, junk, t, r, n);
    } else {
      OnesLink(cs, tables, sh, junk, t, r);
      var v := tables[t][Pow2(cs.l) - 1].v;
      LinkFacts(sh, t, Ones(r + cs.l), r, tables[t][Pow2(cs.l) - 1]);
      WidthOf(cs, tables, sh, junk, v);
      LevelsApart(r, w, cs.l);
      OnesStep(cs, tables, sh, t, r, n);
      OnesWalk(cs, tables, sh, junk, w, v, r + cs.l, n - cs.l);
    }
  }

  lemma LinkFacts(sh: Shape, t: nat, cell: seq<bool>, w: nat, x: Huft)
    requires IsLink(sh, t, cell, w, x)
    ensures t < x.v < |sh.pre| && sh.pre[x.v] == cell
  {
  }

  lemma WidthOf(cs: CodeSet, tables: seq<seq<Huft>>, sh: Shape, junk: Huft, t: nat)
    requires AllCells(cs, tables, sh) && Extra(cs, tables, sh, junk) && t < |tables|
    ensures |tables| == |sh.pre| == |sh.tbs| == |sh.wid| && 1 <= cs.l <= cs.g <= BMAX
    ensures t == 0 ==> |sh.pre[t]| == 0
    ensures t > 0 ==>
              1 <= sh.wid[t] <= BMAX + 1 && |sh.pre[t]| <= cs.g && (sh.wid[t] > cs.l <==> TooWide(cs, sh.pre[t]))
    ensures t > 0 && sh.wid[t] <= cs.l ==> sh.wid[t] == sh.tbs[t]
  {
    assert TableExtra(cs, t, tables[t], sh.pre[t], sh.tbs[t], sh.wid[t], junk);
    assert TableFits(cs, tables[t], sh.pre[t], sh.tbs[t]);
  }

  lemma {:induction false} LevelsApart(r: nat, w: nat, l: nat)
    requires MultipleOf(r, l) && MultipleOf(w, l) && r < w
    ensures r + l <= w && MultipleOf(r + l, l)
    decreases w
  {
    if r == 0 {
    } else {
      LevelsApart(r - l, w - l, l);
    }
  }

  // ---- the theorem ----

  ghost predicate Decodes(cs: CodeSet, tables: seq<seq<Huft>>)
    requires |cs.ents| == |cs.lens|
  {
    forall s: nat, bits :: Starts(cs.lens, bits, s) && |bits| >= cs.g ==>
                             Lookup(tables, 0, cs.l, bits) == Found(cs.ents[s].e, cs.ents[s].v, cs.lens[s])
  }

  lemma SafeIsExact(cs: CodeSet, tables: seq<seq<Huft>>, sh: Shape, junk: Huft)
    requires AllCells(cs, tables, sh) && Extra(cs, tables, sh, junk) && Safe(cs.lens, cs.g, cs.l)
    ensures Exact(sh)
  {
    forall t | 0 < t < |sh.wid|
      ensures sh.wid[t] == sh.tbs[t]
    {
      assert TableExtra(cs, t, tables[t], sh.pre[t], sh.tbs[t], sh.wid[t], junk);
      SafeNotWide(cs, sh.pre[t]);
    }
  }

  /**
   * For a complete set whose symbols all have valid entries, and with unwritten cells marked invalid, the walk finds
   * every symbol behind its code if and only if the set is safe for the given table bits.
   */
  lemma DecodesIff(cs: CodeSet, tables: seq<seq<Huft>>, sh: Shape, junk: Huft)
    requires AllCells(cs, tables, sh) && Extra(cs, tables, sh, junk) && junk.e == INVALID
    requires forall s :: 0 <= s < |cs.lens| && cs.lens[s] > 0 ==> cs.ents[s].e != INVALID
    ensures Decodes(cs, tables) <==> Safe(cs.lens, cs.g, cs.l)
  {
    if Safe(cs.lens, cs.g, cs.l) {
      SafeIsExact(cs, tables, sh, junk);
      forall s: nat, bits | Starts(cs.lens, bits, s) && |bits| >= cs.g
        ensures Lookup(tables, 0, cs.l, bits) == Found(cs.ents[s].e, cs.ents[s].v, cs.lens[s])
      {
        TablesDecode(cs, tables, sh, bits, s);
      }
    } else {
      UnsafeFails(cs, tables, sh, junk);
    }
  }

  lemma UnsafeFails(cs: CodeSet, tables: seq<seq<Huft>>, sh: Shape, junk: Huft)
    requires AllCells(cs, tables, sh) && Extra(cs, tables, sh, junk) && junk.e == INVALID && !Safe(cs.lens, cs.g, cs.l)
    ensures !Decodes(cs, tables)
  {
    var w: nat :| 1 <= cs.l <= w && w + cs.l < cs.g && MultipleOf(w, cs.l) && !Roomy(cs.lens, w + cs.l - 1, cs.l);
    UnsafeIsWide(cs, w);
    assert Ones(0) == [];
    OnesWalk(cs, tables, sh, junk, w, 0, 0, 64);
    var s := LastSymbol(cs);
    assert Ones(64)[..cs.g] == Ones(cs.g);
    assert Starts(cs.lens, Ones(64), s);
  }

  lemma LastSymbol(cs: CodeSet) returns (s: nat)
    requires WfSet(cs)
    ensures s < |cs.lens| && cs.lens[s] == cs.g && CodeBits(cs.lens, s) == Ones(cs.g)
  {
    s := SymbolAt(cs.lens, cs.g, Count(cs.lens, cs.g) - 1);
    LastIsOnes(cs, s);
  }
}
