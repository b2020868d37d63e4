/** The decoding tables of huft_build (inflate.c): what they must contain, and the steps that fill them. */
module Huft {
  import opened Bitstring
  import opened Codes
  import opened Interval

  /** struct huft; `v` is the union of v.n and v.t, a table being named by its number in the list of tables. */
  datatype Huft = Huft(e: nat, b: nat, v: nat)

  const INVALID := 99
  const BMAX := 16

  /** A complete set of code lengths, its longest length `g`, the table bits `l`, and the entry of each symbol. */
  datatype CodeSet = CodeSet(lens: seq<nat>, g: nat, l: nat, ents: seq<Huft>)

  /**
   * Where each table hangs in the code tree: its prefix, the number of bits that may index it, and the number of
   * bits it was made for. The last two differ for a table of more than `l` bits.
   */
  datatype Shape = Shape(pre: seq<seq<bool>>, tbs: seq<nat>, wid: seq<nat>)

  ghost predicate WfSet(cs: CodeSet) {
    && 1 <= cs.l <= cs.g <= BMAX
    && Complete(cs.lens, cs.g)
    && Count(cs.lens, cs.g) > 0
    && |cs.ents| == |cs.lens|
    && forall s :: 0 <= s < |cs.ents| ==> cs.ents[s].e <= 16 || cs.ents[s].e == INVALID
  }

  ghost predicate WfShape(cs: CodeSet, tables: seq<seq<Huft>>, sh: Shape) {
    && |tables| == |sh.pre| == |sh.tbs| == |sh.wid|
    && (forall t :: 0 <= t < |tables| ==> TableFits(cs, tables[t], sh.pre[t], sh.tbs[t]))
    && (|tables| > 0 ==> sh.pre[0] == [] && sh.tbs[0] == cs.l)
  }

  ghost predicate TableFits(cs: CodeSet, table: seq<Huft>, pre: seq<bool>, tb: nat) {
    1 <= tb <= cs.l && |pre| + tb <= cs.g && |table| >= Pow2(tb)
  }

  /** The bits that lead to cell `i` of a table of prefix `pre`. */
  ghost function Cell(pre: seq<bool>, tb: nat, i: nat): (s: seq<bool>)
    ensures |s| == |pre| + tb && pre <= s
  {
    pre + BitsOf(i, tb)
  }

  ghost predicate IsLeaf(cs: CodeSet, cell: seq<bool>, w: nat, x: Huft, s: nat)
    requires |cs.ents| == |cs.lens|
  {
    && s < |cs.lens|
    && w < cs.lens[s]
    && CodeBits(cs.lens, s) <= cell
    && IsEntry(cs.ents[s], x, cs.lens[s] - w)
  }

  /** `x` is the entry `y` for a code with `b` bits left; an invalid entry has no value. */
  ghost predicate IsEntry(y: Huft, x: Huft, b: int) {
    x.e == y.e && x.b == b && (x.e != INVALID ==> x.v == y.v)
  }

  ghost predicate IsLink(sh: Shape, t: nat, cell: seq<bool>, w: nat, x: Huft) {
    && t < x.v < |sh.pre| == |sh.tbs| == |sh.wid|
    && sh.pre[x.v] == cell
    && x.e == 16 + sh.wid[x.v]
    && x.b == |cell| - w
  }

  ghost predicate CellOk(cs: CodeSet, sh: Shape, t: nat, i: nat, x: Huft)
    requires |cs.ents| == |cs.lens| && t < |sh.pre| == |sh.tbs| == |sh.wid|
  {
    var cell := Cell(sh.pre[t], sh.tbs[t], i);
    IsLink(sh, t, cell, |sh.pre[t]|, x) || exists s :: IsLeaf(cs, cell, |sh.pre[t]|, x, s)
  }

  /** Every cell that starts before `pos` in the code tree holds what it should. */
  ghost predicate Done(cs: CodeSet, tables: seq<seq<Huft>>, sh: Shape, pos: nat)
    requires WfSet(cs) && WfShape(cs, tables, sh)
  {
    forall t, i :: 0 <= t < |tables| && 0 <= i < Pow2(sh.tbs[t]) && Lo(Cell(sh.pre[t], sh.tbs[t], i), cs.g) < pos ==>
                     CellOk(cs, sh, t, i, tables[t][i])
  }

  /** A table is wide enough for every code below its prefix that does not need a further table. */
  ghost predicate WideEnough(cs: CodeSet, pre: seq<bool>, tb: nat) {
    |pre| + tb <= cs.g && (tb == cs.l || |pre| + tb == cs.g || Hi(pre, cs.g) <= Cover(cs.lens, cs.g, |pre| + tb))
  }

  /** The stack u[0..h]: each table hangs from the one below it, and `pos` lies in all of them. */
  ghost predicate Stack(cs: CodeSet, tables: seq<seq<Huft>>, sh: Shape, u: seq<nat>, pos: nat)
    requires WfSet(cs) && WfShape(cs, tables, sh)
  {
    && |u| > 0
    && u[0] == 0
    && (forall r :: 0 <= r < |u| ==> u[r] < |tables|)
    && (forall r :: 0 <= r < |u| ==> OnPath(cs, sh, u[r], pos))
    && (forall r :: 0 <= r < |u| - 1 ==> Hangs(cs, tables, sh, u[r], u[r + 1]))
  }

  ghost predicate OnPath(cs: CodeSet, sh: Shape, t: nat, pos: nat)
    requires t < |sh.pre| == |sh.tbs| == |sh.wid|
  {
    && |sh.pre[t]| <= cs.g
    && Lo(sh.pre[t], cs.g) <= pos <= Hi(sh.pre[t], cs.g)
    && WideEnough(cs, sh.pre[t], sh.tbs[t])
  }

  /** Table `c` is linked from the full-width table `t`. */
  ghost predicate Hangs(cs: CodeSet, tables: seq<seq<Huft>>, sh: Shape, t: nat, c: nat)
    requires WfSet(cs) && WfShape(cs, tables, sh) && t < |tables| && c < |tables|
  {
    && sh.tbs[t] == cs.l
    && |sh.pre[c]| == |sh.pre[t]| + cs.l
    && sh.pre[t] <= sh.pre[c]
    && exists i :: 0 <= i < Pow2(cs.l) && sh.pre[c] == Cell(sh.pre[t], cs.l, i) && CellOk(cs, sh, t, i, tables[t][i])
  }

  /** Tables that were left are complete. */
  ghost predicate Left(cs: CodeSet, sh: Shape, u: seq<nat>, pos: nat) {
    forall t :: 0 <= t < |sh.pre| && t !in u ==> |sh.pre[t]| <= cs.g && Hi(sh.pre[t], cs.g) <= pos
  }

  ghost predicate Inv(cs: CodeSet, tables: seq<seq<Huft>>, sh: Shape, u: seq<nat>, pos: nat) {
    && WfSet(cs)
    && WfShape(cs, tables, sh)
    && Done(cs, tables, sh, pos)
    && Stack(cs, tables, sh, u, pos)
    && Left(cs, sh, u, pos)
  }

  // ---- one code is stored in the top table ----

  /** The table with `x` stored at start, start + step, ... */
  ghost predicate Filled(before: seq<Huft>, after: seq<Huft>, start: nat, step: nat, x: Huft)
    requires step > 0
  {
    |after| == |before| && forall i :: 0 <= i < |before| ==> after[i] == if Hit(i, step, start) then x else before[i]
  }

  ghost predicate Hit(i: nat, step: nat, start: nat)
    requires step > 0
  {
    i % step == start
  }

  /** The cells that q[j] = r reaches are those whose bits extend the code. */
  lemma FilledCells(pre: seq<bool>, tb: nat, code: seq<bool>, i: nat)
    requires pre <= code && |code| <= |pre| + tb
    ensures Hit(i, Pow2(|code| - |pre|), ValOf(code[|pre|..])) <==> (code <= Cell(pre, tb, i))
  {
    var n := |code| - |pre|;
    var tail := code[|pre|..];
    var cell := Cell(pre, tb, i);
    BitsOfShr(i, n, tb - n);
    assert BitsOf(i, tb)[..n] == BitsOf(i, n);
    ValOfBitsOf(i, n);
    assert code == pre + tail;
    assert cell[..|code|] == pre + BitsOf(i, n);
    if ValOf(tail) == i % Pow2(n) {
      ValOfInjective(tail, BitsOf(i, n));
    }
    if code <= cell {
      assert tail == cell[..|code|][|pre|..] == BitsOf(i, n);
    }
  }

  ghost predicate Placing(cs: CodeSet, sh: Shape, u: seq<nat>, pos: nat, s: nat)
    requires WfSet(cs) && |u| > 0
  {
    && s < |cs.lens| && cs.lens[s] > 0
    && Lo(CodeBits(cs.lens, s), cs.g) == pos
    && var top := u[|u| - 1];
       && top < |sh.pre| == |sh.tbs| == |sh.wid|
       && sh.pre[top] <= CodeBits(cs.lens, s)
       && |sh.pre[top]| < cs.lens[s] <= |sh.pre[top]| + sh.tbs[top]
  }

  ghost predicate Placed(cs: CodeSet, tables: seq<seq<Huft>>, tables': seq<seq<Huft>>, sh: Shape, top: nat, s: nat,
                         x: Huft)
    requires WfSet(cs) && s < |cs.lens| && cs.lens[s] > 0 && top < |sh.pre| == |tables|
    requires sh.pre[top] <= CodeBits(cs.lens, s)
  {
    var w, code := |sh.pre[top]|, CodeBits(cs.lens, s);
    && |tables'| == |tables|
    && (forall t :: 0 <= t < |tables| && t != top ==> tables'[t] == tables[t])
    && Filled(tables[top], tables'[top], ValOf(code[w..]), Pow2(cs.lens[s] - w), x)
    && IsEntry(cs.ents[s], x, cs.lens[s] - w)
  }

  lemma PlaceShape(cs: CodeSet, tables: seq<seq<Huft>>, tables': seq<seq<Huft>>, sh: Shape, u: seq<nat>, pos: nat,
                   s: nat, x: Huft)
    requires Inv(cs, tables, sh, u, pos) && Placing(cs, sh, u, pos, s)
    requires Placed(cs, tables, tables', sh, u[|u| - 1], s, x)
    ensures WfShape(cs, tables', sh)
  {
    forall t | 0 <= t < |tables'|
      ensures TableFits(cs, tables'[t], sh.pre[t], sh.tbs[t])
    {
      assert TableFits(cs, tables[t], sh.pre[t], sh.tbs[t]);
    }
  }

  /** A cell of the top table, after the code of `s` was stored. */
  lemma PlaceTop(cs: CodeSet, tables: seq<seq<Huft>>, tables': seq<seq<Huft>>, sh: Shape, u: seq<nat>, pos: nat,
                 s: nat, x: Huft, i: nat)
    requires Inv(cs, tables, sh, u, pos) && Placing(cs, sh, u, pos, s)
    requires Placed(cs, tables, tables', sh, u[|u| - 1], s, x)
    requires var top := u[|u| - 1];
             i < Pow2(sh.tbs[top]) && Lo(Cell(sh.pre[top], sh.tbs[top], i), cs.g) < Hi(CodeBits(cs.lens, s), cs.g)
    ensures i < |tables'[u[|u| - 1]]| && CellOk(cs, sh, u[|u| - 1], i, tables'[u[|u| - 1]][i])
  {
    var top := u[|u| - 1];
    var code, cell := CodeBits(cs.lens, s), Cell(sh.pre[top], sh.tbs[top], i);
    assert TableFits(cs, tables[top], sh.pre[top], sh.tbs[top]);
    FilledCells(sh.pre[top], sh.tbs[top], code, i);
    if code <= cell {
      assert IsLeaf(cs, cell, |sh.pre[top]|, tables'[top][i], s);
    } else {
      if Lo(cell, cs.g) >= pos { Inside(code, cell, cs.g); }
      assert CellOk(cs, sh, top, i, tables[top][i]);
    }
  }

  /** A cell of any other table: complete before, or the link to the next table of the stack. */
  lemma PlaceOther(cs: CodeSet, tables: seq<seq<Huft>>, sh: Shape, u: seq<nat>, pos: nat, s: nat, t: nat, i: nat)
    requires Inv(cs, tables, sh, u, pos) && Placing(cs, sh, u, pos, s)
    requires t < |tables| && t != u[|u| - 1] && i < Pow2(sh.tbs[t])
    requires Lo(Cell(sh.pre[t], sh.tbs[t], i), cs.g) < Hi(CodeBits(cs.lens, s), cs.g)
    ensures i < |tables[t]| && CellOk(cs, sh, t, i, tables[t][i])
  {
    assert TableFits(cs, tables[t], sh.pre[t], sh.tbs[t]);
    var cell := Cell(sh.pre[t], sh.tbs[t], i);
    if Lo(cell, cs.g) < pos {
    } else if t !in u {
      Nest(sh.pre[t], cell, cs.g);
    } else {
      var r :| 0 <= r < |u| && u[r] == t;
      PlaceBelow(cs, tables, sh, u, pos, s, r, i);
    }
  }

  lemma PlaceBelow(cs: CodeSet, tables: seq<seq<Huft>>, sh: Shape, u: seq<nat>, pos: nat, s: nat, r: nat, i: nat)
    requires WfSet(cs) && WfShape(cs, tables, sh) && Stack(cs, tables, sh, u, pos) && Placing(cs, sh, u, pos, s)
    requires r < |u| - 1 && i < Pow2(sh.tbs[u[r]])
    requires |sh.pre[u[r]]| + sh.tbs[u[r]] <= cs.g
    requires pos <= Lo(Cell(sh.pre[u[r]], sh.tbs[u[r]], i), cs.g) < Hi(CodeBits(cs.lens, s), cs.g)
    ensures i < |tables[u[r]]| && CellOk(cs, sh, u[r], i, tables[u[r]][i])
  {
    var top := u[|u| - 1];
    StackNest(cs, tables, sh, u, pos, r + 1);
    Nest(sh.pre[top], CodeBits(cs.lens, s), cs.g);
    assert OnPath(cs, sh, u[r + 1], pos) && Hangs(cs, tables, sh, u[r], u[r + 1]);
    LinkCell(cs, tables, sh, u[r], u[r + 1], i);
  }

  /** The only cell of `t` that starts inside the table `c` hanging from it is the link to it. */
  lemma LinkCell(cs: CodeSet, tables: seq<seq<Huft>>, sh: Shape, t: nat, c: nat, i: nat)
    requires WfSet(cs) && WfShape(cs, tables, sh) && t < |tables| && c < |tables| && Hangs(cs, tables, sh, t, c)
    requires i < Pow2(sh.tbs[t]) && |sh.pre[c]| <= cs.g
    requires Lo(sh.pre[c], cs.g) <= Lo(Cell(sh.pre[t], sh.tbs[t], i), cs.g) < Hi(sh.pre[c], cs.g)
    ensures i < |tables[t]| && CellOk(cs, sh, t, i, tables[t][i])
  {
    assert TableFits(cs, tables[t], sh.pre[t], sh.tbs[t]);
    var cell, next := Cell(sh.pre[t], cs.l, i), sh.pre[c];
    Inside(next, cell, cs.g);
    assert next == cell;
    CellInjective(sh.pre[t], cs.l, i);
  }

  /** Cells of one table with the same bits are the same cell. */
  lemma CellInjective(pre: seq<bool>, tb: nat, i: nat)
    requires i < Pow2(tb)
    ensures forall j :: 0 <= j < Pow2(tb) && Cell(pre, tb, j) == Cell(pre, tb, i) ==> j == i
  {
    forall j | 0 <= j < Pow2(tb) && Cell(pre, tb, j) == Cell(pre, tb, i)
      ensures j == i
    {
      assert BitsOf(j, tb) == Cell(pre, tb, j)[|pre|..] == BitsOf(i, tb);
      BitsOfSmall(i, tb);
      BitsOfSmall(j, tb);
    }
  }

  lemma {:induction false} StackNested(cs: CodeSet, tables: seq<seq<Huft>>, sh: Shape, u: seq<nat>, pos: nat, r: nat)
    requires WfSet(cs) && WfShape(cs, tables, sh) && Stack(cs, tables, sh, u, pos) && r < |u|
    ensures sh.pre[u[r]] <= sh.pre[u[|u| - 1]]
    ensures r < |u| - 1 ==> |sh.pre[u[r]]| + cs.l <= |sh.pre[u[|u| - 1]]|
    decreases |u| - r
  {
    if r < |u| - 1 {
      assert Hangs(cs, tables, sh, u[r], u[r + 1]);
      StackNested(cs, tables, sh, u, pos, r + 1);
    }
  }

  lemma StackNest(cs: CodeSet, tables: seq<seq<Huft>>, sh: Shape, u: seq<nat>, pos: nat, r: nat)
    requires WfSet(cs) && WfShape(cs, tables, sh) && Stack(cs, tables, sh, u, pos) && r < |u|
    ensures |sh.pre[u[r]]| <= |sh.pre[u[|u| - 1]]| <= cs.g
    ensures Lo(sh.pre[u[r]], cs.g) <= Lo(sh.pre[u[|u| - 1]], cs.g)
    ensures Hi(sh.pre[u[|u| - 1]], cs.g) <= Hi(sh.pre[u[r]], cs.g)
  {
    StackNested(cs, tables, sh, u, pos, r);
    assert OnPath(cs, sh, u[|u| - 1], pos);
    Nest(sh.pre[u[r]], sh.pre[u[|u| - 1]], cs.g);
  }

  lemma PlaceStack(cs: CodeSet, tables: seq<seq<Huft>>, tables': seq<seq<Huft>>, sh: Shape, u: seq<nat>, pos: nat,
                   s: nat, x: Huft)
    requires Inv(cs, tables, sh, u, pos) && Placing(cs, sh, u, pos, s)
    requires Placed(cs, tables, tables', sh, u[|u| - 1], s, x) && WfShape(cs, tables', sh)
    ensures Stack(cs, tables', sh, u, Hi(CodeBits(cs.lens, s), cs.g))
  {
    var top, code := u[|u| - 1], CodeBits(cs.lens, s);
    forall r | 0 <= r < |u|
      ensures OnPath(cs, sh, u[r], Hi(code, cs.g))
    {
      assert OnPath(cs, sh, u[r], pos);
      StackNested(cs, tables, sh, u, pos, r);
      ComparablePrefixes(sh.pre[u[r]], sh.pre[top], code);
      assert sh.pre[u[r]] <= code;
      Nest(sh.pre[u[r]], code, cs.g);
    }
    forall r | 0 <= r < |u| - 1
      ensures Hangs(cs, tables', sh, u[r], u[r + 1])
    {
      StackNested(cs, tables, sh, u, pos, r);
      assert Hangs(cs, tables, sh, u[r], u[r + 1]);
      assert tables'[u[r]] == tables[u[r]];
    }
  }

  /** Storing the code of `s` moves the invariant past it. */
  lemma Place(cs: CodeSet, tables: seq<seq<Huft>>, tables': seq<seq<Huft>>, sh: Shape, u: seq<nat>, pos: nat, s: nat,
              x: Huft)
    requires Inv(cs, tables, sh, u, pos) && Placing(cs, sh, u, pos, s)
    requires Placed(cs, tables, tables', sh, u[|u| - 1], s, x)
    ensures Inv(cs, tables', sh, u, Hi(CodeBits(cs.lens, s), cs.g))
  {
    PlaceShape(cs, tables, tables', sh, u, pos, s, x);
    PlaceStack(cs, tables, tables', sh, u, pos, s, x);
    var top, pos' := u[|u| - 1], Hi(CodeBits(cs.lens, s), cs.g);
    forall t, i | 0 <= t < |tables'| && 0 <= i < Pow2(sh.tbs[t]) && Lo(Cell(sh.pre[t], sh.tbs[t], i), cs.g) < pos'
      ensures CellOk(cs, sh, t, i, tables'[t][i])
    {
      if t == top {
        PlaceTop(cs, tables, tables', sh, u, pos, s, x, i);
      } else {
        PlaceOther(cs, tables, sh, u, pos, s, t, i);
      }
    }
  }

  // ---- a new table ----

  /** A new table hangs from a cell of the top one. */
  ghost predicate NewTable(cs: CodeSet, tables: seq<seq<Huft>>, tables': seq<seq<Huft>>, sh: Shape, top: nat, at: nat,
                           table: seq<Huft>, tb: nat, wd: nat)
  {
    && top < |tables| && at < |tables[top]|
    && |table| >= Pow2(tb)
    && tables' == tables[top := tables[top][at := Huft(16 + wd, cs.l, |tables|)]] + [table]
  }

  lemma GrowCell(cs: CodeSet, sh: Shape, pre: seq<bool>, tb: nat, wd: nat, t: nat, i: nat, x: Huft)
    requires |cs.ents| == |cs.lens| && t < |sh.pre| == |sh.tbs| == |sh.wid| && CellOk(cs, sh, t, i, x)
    ensures CellOk(cs, Shape(sh.pre + [pre], sh.tbs + [tb], sh.wid + [wd]), t, i, x)
  {
    var sh' := Shape(sh.pre + [pre], sh.tbs + [tb], sh.wid + [wd]);
    var cell := Cell(sh.pre[t], sh.tbs[t], i);
    if IsLink(sh, t, cell, |sh.pre[t]|, x) {
      assert IsLink(sh', t, cell, |sh.pre[t]|, x);
    }
  }

  ghost predicate Growing(cs: CodeSet, sh: Shape, u: seq<nat>, pos: nat, pre: seq<bool>, tb: nat, at: nat)
    requires |u| > 0
  {
    var top := u[|u| - 1];
    && top < |sh.pre| == |sh.tbs| == |sh.wid|
    && sh.tbs[top] == cs.l
    && 1 <= tb <= cs.l && |pre| + tb <= cs.g
    && at < Pow2(cs.l) && pre == Cell(sh.pre[top], cs.l, at)
    && Lo(pre, cs.g) == pos
    && WideEnough(cs, pre, tb)
  }

  lemma GrowShape(cs: CodeSet, tables: seq<seq<Huft>>, tables': seq<seq<Huft>>, sh: Shape, u: seq<nat>, pos: nat,
                  pre: seq<bool>, tb: nat, wd: nat, at: nat, table: seq<Huft>)
    requires Inv(cs, tables, sh, u, pos) && Growing(cs, sh, u, pos, pre, tb, at)
    requires NewTable(cs, tables, tables', sh, u[|u| - 1], at, table, tb, wd)
    ensures WfShape(cs, tables', Shape(sh.pre + [pre], sh.tbs + [tb], sh.wid + [wd]))
  {
    var sh' := Shape(sh.pre + [pre], sh.tbs + [tb], sh.wid + [wd]);
    forall t | 0 <= t < |tables'|
      ensures TableFits(cs, tables'[t], sh'.pre[t], sh'.tbs[t])
    {
      if t < |tables| {
        assert TableFits(cs, tables[t], sh.pre[t], sh.tbs[t]);
      }
    }
  }

  lemma GrowDone(cs: CodeSet, tables: seq<seq<Huft>>, tables': seq<seq<Huft>>, sh: Shape, u: seq<nat>, pos: nat,
                 pre: seq<bool>, tb: nat, wd: nat, at: nat, table: seq<Huft>)
    requires Inv(cs, tables, sh, u, pos) && Growing(cs, sh, u, pos, pre, tb, at)
    requires NewTable(cs, tables, tables', sh, u[|u| - 1], at, table, tb, wd)
    requires WfShape(cs, tables', Shape(sh.pre + [pre], sh.tbs + [tb], sh.wid + [wd]))
    ensures Done(cs, tables', Shape(sh.pre + [pre], sh.tbs + [tb], sh.wid + [wd]), pos)
  {
    var sh', top := Shape(sh.pre + [pre], sh.tbs + [tb], sh.wid + [wd]), u[|u| - 1];
    forall t, i | 0 <= t < |tables'| && 0 <= i < Pow2(sh'.tbs[t]) && Lo(Cell(sh'.pre[t], sh'.tbs[t], i), cs.g) < pos
      ensures CellOk(cs, sh', t, i, tables'[t][i])
    {
      if t < |tables| {
        assert TableFits(cs, tables[t], sh.pre[t], sh.tbs[t]);
        assert CellOk(cs, sh, t, i, tables[t][i]);
        GrowCell(cs, sh, pre, tb, wd, t, i, tables[t][i]);
      } else {
        Nest(pre, Cell(pre, tb, i), cs.g);
      }
    }
  }

  lemma GrowHangs(cs: CodeSet, tables: seq<seq<Huft>>, tables': seq<seq<Huft>>, sh: Shape, u: seq<nat>, pos: nat,
                  pre: seq<bool>, tb: nat, wd: nat, at: nat, table: seq<Huft>, r: nat)
    requires Inv(cs, tables, sh, u, pos) && Growing(cs, sh, u, pos, pre, tb, at)
    requires NewTable(cs, tables, tables', sh, u[|u| - 1], at, table, tb, wd) && r < |u|
    requires WfShape(cs, tables', Shape(sh.pre + [pre], sh.tbs + [tb], sh.wid + [wd]))
    ensures Hangs(cs, tables', Shape(sh.pre + [pre], sh.tbs + [tb], sh.wid + [wd]), u[r], (u + [|tables|])[r + 1])
  {
    var sh', top := Shape(sh.pre + [pre], sh.tbs + [tb], sh.wid + [wd]), u[|u| - 1];
    if r < |u| - 1 {
      assert Hangs(cs, tables, sh, u[r], u[r + 1]);
      StackNested(cs, tables, sh, u, pos, r);
      var i :| 0 <= i < Pow2(cs.l) && sh.pre[u[r + 1]] == Cell(sh.pre[u[r]], cs.l, i)
               && CellOk(cs, sh, u[r], i, tables[u[r]][i]);
      GrowCell(cs, sh, pre, tb, wd, u[r], i, tables[u[r]][i]);
      assert tables'[u[r]] == tables[u[r]];
    } else {
      assert tables'[top][at] == Huft(16 + wd, cs.l, |tables|);
      assert IsLink(sh', top, pre, |sh.pre[top]|, tables'[top][at]);
      assert CellOk(cs, sh', top, at, tables'[top][at]);
    }
  }

  lemma GrowStack(cs: CodeSet, tables: seq<seq<Huft>>, tables': seq<seq<Huft>>, sh: Shape, u: seq<nat>, pos: nat,
                  pre: seq<bool>, tb: nat, wd: nat, at: nat, table: seq<Huft>)
    requires Inv(cs, tables, sh, u, pos) && Growing(cs, sh, u, pos, pre, tb, at)
    requires NewTable(cs, tables, tables', sh, u[|u| - 1], at, table, tb, wd)
    requires WfShape(cs, tables', Shape(sh.pre + [pre], sh.tbs + [tb], sh.wid + [wd]))
    ensures Stack(cs, tables', Shape(sh.pre + [pre], sh.tbs + [tb], sh.wid + [wd]), u + [|tables|], pos)
  {
    var sh', u' := Shape(sh.pre + [pre], sh.tbs + [tb], sh.wid + [wd]), u + [|tables|];
    forall r | 0 <= r < |u'|
      ensures OnPath(cs, sh', u'[r], pos)
    {
      if r < |u| { assert OnPath(cs, sh, u[r], pos); }
    }
    forall r | 0 <= r < |u'| - 1
      ensures Hangs(cs, tables', sh', u'[r], u'[r + 1])
    {
      GrowHangs(cs, tables, tables', sh, u, pos, pre, tb, wd, at, table, r);
    }
  }

  lemma GrowLeft(cs: CodeSet, sh: Shape, u: seq<nat>, pos: nat, pre: seq<bool>, tb: nat, wd: nat)
    requires Left(cs, sh, u, pos) && |sh.pre| == |sh.tbs| == |sh.wid|
    ensures Left(cs, Shape(sh.pre + [pre], sh.tbs + [tb], sh.wid + [wd]), u + [|sh.pre|], pos)
  {
    assert forall t :: t in u ==> t in u + [|sh.pre|];
  }

  /** A new table under the top one keeps the invariant, and becomes the top. */
  lemma Grow(cs: CodeSet, tables: seq<seq<Huft>>, tables': seq<seq<Huft>>, sh: Shape, u: seq<nat>, pos: nat,
             pre: seq<bool>, tb: nat, wd: nat, at: nat, table: seq<Huft>)
    requires Inv(cs, tables, sh, u, pos) && Growing(cs, sh, u, pos, pre, tb, at)
    requires NewTable(cs, tables, tables', sh, u[|u| - 1], at, table, tb, wd)
    ensures Inv(cs, tables', Shape(sh.pre + [pre], sh.tbs + [tb], sh.wid + [wd]), u + [|tables|], pos)
  {
    GrowShape(cs, tables, tables', sh, u, pos, pre, tb, wd, at, table);
    GrowDone(cs, tables, tables', sh, u, pos, pre, tb, wd, at, table);
    GrowStack(cs, tables, tables', sh, u, pos, pre, tb, wd, at, table);
    GrowLeft(cs, sh, u, pos, pre, tb, wd);
  }

  // ---- leaving a table ----

  /** Popping the top table is sound once its last code was stored. */
  lemma Pop(cs: CodeSet, tables: seq<seq<Huft>>, sh: Shape, u: seq<nat>, pos: nat)
    requires Inv(cs, tables, sh, u, pos) && |u| > 1
    requires Hi(sh.pre[u[|u| - 1]], cs.g) <= pos
    ensures Inv(cs, tables, sh, u[..|u| - 1], pos)
    ensures |sh.pre[u[|u| - 2]]| + cs.l == |sh.pre[u[|u| - 1]]|
  {
    var u' := u[..|u| - 1];
    assert Hangs(cs, tables, sh, u[|u| - 2], u[|u| - 1]);
    forall r | 0 <= r < |u'| - 1
      ensures Hangs(cs, tables, sh, u'[r], u'[r + 1])
    {
      assert Hangs(cs, tables, sh, u[r], u[r + 1]);
    }
    forall t | 0 <= t < |sh.pre| && t !in u'
      ensures |sh.pre[t]| <= cs.g && Hi(sh.pre[t], cs.g) <= pos
    {
      if t in u {
        assert t == u[|u| - 1];
        assert OnPath(cs, sh, t, pos);
      }
    }
  }

  // ---- walking the tables ----

  datatype Looked =
    | Found(e: nat, v: nat, used: nat)  // entry reached, and the bits dropped on the way
    | Short                             // the bits ran out
    | Invalid                           // an entry with e == 99
    | Wild                              // the walk left the tables

  /** The lookup of inflate_codes from table `t`, indexed by `nb` bits. */
  function Lookup(tables: seq<seq<Huft>>, t: nat, nb: nat, bits: seq<bool>): Looked
    decreases |tables| - t
  {
    if |bits| < nb then Short
    else
      var i := ValOf(bits[..nb]);
      if t >= |tables| || i >= |tables[t]| then Wild
      else
        var x := tables[t][i];
        if x.e == INVALID then Invalid
        else if x.b > |bits| then Wild
        else if x.e <= 16 then Found(x.e, x.v, x.b)
        else if x.v <= t then Wild
        else
          match Lookup(tables, x.v, x.e - 16, bits[x.b..])
          case Found(e, v, n) => Found(e, v, x.b + n)
          case other => other
  }

  ghost predicate AllCells(cs: CodeSet, tables: seq<seq<Huft>>, sh: Shape) {
    && WfSet(cs) && WfShape(cs, tables, sh) && |tables| > 0
    && forall t, i :: 0 <= t < |tables| && 0 <= i < Pow2(sh.tbs[t]) ==> CellOk(cs, sh, t, i, tables[t][i])
  }

  /** When every code is stored, every cell is right. */
  lemma AllDone(cs: CodeSet, tables: seq<seq<Huft>>, sh: Shape, u: seq<nat>)
    requires Inv(cs, tables, sh, u, Pow2(cs.g))
    ensures AllCells(cs, tables, sh)
  {
    forall t, i | 0 <= t < |tables| && 0 <= i < Pow2(sh.tbs[t])
      ensures CellOk(cs, sh, t, i, tables[t][i])
    {
      assert TableFits(cs, tables[t], sh.pre[t], sh.tbs[t]);
      HiBound(Cell(sh.pre[t], sh.tbs[t], i), cs.g);
    }
  }

  /** What a walk from table `t` says about the bits from the root on. */
  ghost predicate Explains(cs: CodeSet, pre: seq<bool>, bits: seq<bool>, r: Looked)
    requires |cs.ents| == |cs.lens|
  {
    match r
    case Found(e, v, n) =>
      exists s: nat ::
        && Starts(cs.lens, pre + bits, s)
        && e == cs.ents[s].e <= 16 && v == cs.ents[s].v && |pre| + n == cs.lens[s]
    case Invalid => exists s: nat :: Starts(cs.lens, pre + bits, s) && cs.ents[s].e == INVALID
    case Short => |pre| + |bits| < cs.g
    case Wild => false
  }

  /** Every table below the root is indexed by as many bits as it was made for. */
  ghost predicate Exact(sh: Shape) {
    |sh.tbs| == |sh.wid| && forall t :: 0 < t < |sh.wid| ==> sh.wid[t] == sh.tbs[t]
  }

  lemma {:induction false} LookupExplains(cs: CodeSet, tables: seq<seq<Huft>>, sh: Shape, t: nat, bits: seq<bool>)
    requires AllCells(cs, tables, sh) && Exact(sh) && t < |tables|
    ensures Explains(cs, sh.pre[t], bits, Lookup(tables, t, sh.tbs[t], bits))
    decreases |tables| - t
  {
    var pre, tb := sh.pre[t], sh.tbs[t];
    assert TableFits(cs, tables[t], pre, tb);
    if |bits| >= tb {
      var i := ValOf(bits[..tb]);
      BitsOfValOf(bits[..tb]);
      var cell := Cell(pre, tb, i);
      assert cell <= pre + bits;
      var x := tables[t][i];
      assert CellOk(cs, sh, t, i, x);
      if IsLink(sh, t, cell, |pre|, x) {
        assert TableFits(cs, tables[x.v], sh.pre[x.v], sh.tbs[x.v]);
        LinkStep(tables, t, tb, bits, x);
        LookupExplains(cs, tables, sh, x.v, bits[tb..]);
        LinkExplains(cs, pre, bits, tb, sh.pre[x.v], Lookup(tables, x.v, sh.tbs[x.v], bits[tb..]));
      } else {
        var s :| IsLeaf(cs, cell, |pre|, x, s);
        assert Starts(cs.lens, pre + bits, s);
      }
    }
  }

  ghost function Later(r: Looked, b: nat): Looked {
    match r
    case Found(e, v, n) => Found(e, v, b + n)
    case other => other
  }

  lemma LinkStep(tables: seq<seq<Huft>>, t: nat, tb: nat, bits: seq<bool>, x: Huft)
    requires t < |tables| && tb <= |bits|
    requires ValOf(bits[..tb]) < |tables[t]| && x == tables[t][ValOf(bits[..tb])]
    requires t < x.v && x.b == tb && 16 < x.e < INVALID
    ensures Lookup(tables, t, tb, bits) == Later(Lookup(tables, x.v, x.e - 16, bits[tb..]), tb)
  {
  }

  lemma LinkExplains(cs: CodeSet, pre: seq<bool>, bits: seq<bool>, tb: nat, pre': seq<bool>, r: Looked)
    requires |cs.ents| == |cs.lens| && tb <= |bits| && pre' == pre + bits[..tb] && Explains(cs, pre', bits[tb..], r)
    ensures Explains(cs, pre, bits, Later(r, tb))
  {
    assert pre' + bits[tb..] == pre + bits;
  }

  lemma NilConcat(bits: seq<bool>)
    ensures [] + bits == bits
  {
  }

  lemma OneSymbol(lens: seq<nat>, m: nat, bits: seq<bool>, s: nat)
    requires Fits(lens, m) && Starts(lens, bits, s)
    ensures forall s': nat :: Starts(lens, bits, s') ==> s' == s
  {
    forall s': nat | Starts(lens, bits, s')
      ensures s' == s
    {
      DecodeSymIs(lens, m, bits, s);
      DecodeSymIs(lens, m, bits, s');
    }
  }

  /** The tables decode like the code itself: the walk finds the symbol whose code starts the bits. */
  lemma TablesDecode(cs: CodeSet, tables: seq<seq<Huft>>, sh: Shape, bits: seq<bool>, s: nat)
    requires AllCells(cs, tables, sh) && Exact(sh) && |bits| >= cs.g && Starts(cs.lens, bits, s)
    ensures Lookup(tables, 0, cs.l, bits) == if cs.ents[s].e == INVALID then Invalid
                                             else Found(cs.ents[s].e, cs.ents[s].v, cs.lens[s])
  {
    NilConcat(bits);
    LookupExplains(cs, tables, sh, 0, bits);
    OneSymbol(cs.lens, cs.g, bits, s);
  }
}
