/** huft_build (inflate.c:267-461). */
module HuftBuilder {
  import opened Bitstring
  import opened Codes
  import opened Interval
  import opened Huft
  import opened HuftSteps

  /** The tables built so far, the table stack u[0..h], the code stack x[0..h], w == l*h, and the current table q. */
  datatype Build = Build(tables: seq<seq<Huft>>, u: seq<nat>, x: seq<nat>, w: int, q: nat)

  ghost predicate Built(cs: CodeSet, B: Build, sh: Shape, pos: nat) {
    && Inv(cs, B.tables, sh, B.u, pos)
    && |B.u| > 0 && B.u[|B.u| - 1] < |B.tables| == |sh.pre| == |sh.tbs| == |sh.wid|
    && B.w == |sh.pre[B.u[|B.u| - 1]]|
    && B.q < |B.tables|
    && CodeStack(B.x, sh, B.u)
  }

  /** x[r] is the pattern of the codes in table u[r]. */
  ghost predicate CodeStack(x: seq<nat>, sh: Shape, u: seq<nat>) {
    |x| == |u| && forall r :: 0 <= r < |u| ==> u[r] < |sh.pre| && x[r] == ValOf(sh.pre[u[r]])
  }

  lemma CodeStackPush(x: seq<nat>, sh: Shape, u: seq<nat>, pre: seq<bool>, tb: nat, wd: nat)
    requires CodeStack(x, sh, u)
    ensures CodeStack(x + [ValOf(pre)], Shape(sh.pre + [pre], sh.tbs + [tb], sh.wid + [wd]), u + [|sh.pre|])
  {
  }

  ghost predicate ZerosFrom(t: seq<bool>, n: int) {
    forall i :: 0 <= i < |t| && n <= i ==> !t[i]
  }

  /** The builder is ready for the code `t` of `k` bits that starts at `pos`. */
  ghost predicate Ready(cs: CodeSet, B: Build, sh: Shape, t: seq<bool>, pos: nat) {
    && |t| <= cs.g && Lo(t, cs.g) == pos
    && if |B.u| == 0 then
         B.tables == [] && B.x == [] && sh == Shape([], [], []) && B.w + cs.l == 0 && pos == 0 && |t| <= cs.l
       else
         ReadyAt(cs, B, sh, t, pos)
  }

  ghost predicate ReadyAt(cs: CodeSet, B: Build, sh: Shape, t: seq<bool>, pos: nat) {
    && Built(cs, B, sh, pos)
    && sh.pre[B.u[|B.u| - 1]] <= t
    && B.w < |t| <= cs.g && Lo(t, cs.g) == pos
    && ZerosFrom(t, B.w + cs.l)
    && (|t| <= B.w + cs.l ==> B.q == B.u[|B.u| - 1])
  }

  // ---- making tables up to the required level ----

  /** Shifting the reversed code down by `w` leaves the bits behind the first `w`. */
  lemma {:induction false} ShrCode(t: seq<bool>, w: nat)
    requires w <= |t|
    ensures Shr(ValOf(t), w) == ValOf(t[w..]) < Pow2(|t| - w)
  {
    if w == 0 {
      assert t[0..] == t;
    } else {
      ShrCode(t[1..], w - 1);
      assert t[1..][w - 1..] == t[w..];
      assert ValOf(t) / 2 == ValOf(t[1..]);
    }
  }

  lemma ValOfPadded(s: seq<bool>, z: seq<bool>)
    requires forall i :: 0 <= i < |z| ==> !z[i]
    ensures ValOf(s + z) == ValOf(s)
  {
    ValOfJoin(s, z);
    ValOfZeros(z);
  }

  lemma ZeroTail(t: seq<bool>, w: nat, l: nat)
    requires w + l <= |t| && ZerosFrom(t, w + l)
    ensures ValOf(t[w..]) < Pow2(l) && Cell(t[..w], l, ValOf(t[w..])) == t[..w + l]
    ensures ValOf(t) == ValOf(t[..w + l])
  {
    assert t[w..] == t[w..w + l] + t[w + l..] && t == t[..w + l] + t[w + l..];
    ValOfPadded(t[w..w + l], t[w + l..]);
    ValOfPadded(t[..w + l], t[w + l..]);
    BitsOfValOf(t[w..w + l]);
  }

  /** The same shift names the cell from which the table for the next `l` bits hangs. */
  lemma LinkIndex(t: seq<bool>, w: nat, l: nat)
    requires w + l <= |t| && ZerosFrom(t, w + l)
    ensures Shr(ValOf(t), w) < Pow2(l) && Cell(t[..w], l, Shr(ValOf(t), w)) == t[..w + l]
    ensures ValOf(t) == ValOf(t[..w + l])
  {
    ShrCode(t, w);
    ZeroTail(t, w, l);
  }

  /** The first table: nothing to connect it to. */
  lemma RootBuilt(cs: CodeSet, table: seq<Huft>, wd: nat, t: seq<bool>)
    requires WfSet(cs) && |table| >= Pow2(cs.l) && |t| <= cs.g && Lo(t, cs.g) == 0
    ensures Built(cs, Build([table], [0], [0], 0, 0), Shape([[]], [cs.l], [wd]), 0)
  {
    var sh := Shape([[]], [cs.l], [wd]);
    assert TableFits(cs, table, [], cs.l);
    assert Lo([], cs.g) == 0;
    assert OnPath(cs, sh, 0, 0);
    assert ValOf([]) == 0;
  }

  /** The bits of the next table on the path of the code `t`. */
  method SubtableBits(ghost cs: CodeSet, B: Build, c: seq<nat>, g: nat, l: nat, k: nat, a: nat,
                      ghost sh: Shape, ghost t: seq<bool>, ghost pos: nat)
    returns (j: nat)
    requires cs.g == g < |c| && cs.l == l
    requires forall b :: 1 <= b <= g ==> c[b] == Count(cs.lens, b)
    requires ReadyAt(cs, B, sh, t, pos) && |t| == k > B.w + l && AtCode(cs, k, a, pos)
    ensures 1 <= j <= BMAX + 1 && B.w + l + Min(j, l) <= g && WideEnough(cs, t[..B.w + l], Min(j, l))
    ensures Lo(t[..B.w + l], g) == pos && (j > l <==> TooWide(cs, t[..B.w + l]))
  {
    ghost var pre := t[..B.w + l];
    AlignedZeros(pre, t, g);
    j := SizeTable(cs, c, g, l, k, B.w + l, a, pre, pos);
    SubtableWidth(cs, pre, k, a, pos, j);
  }

  /** inflate.c:399-420: allocate a table of 2^j cells and connect it to the last one. */
  function Connect(B: Build, l: nat, i: nat, j: nat, junk: Huft): Build
    requires |B.u| > 0 && B.u[|B.u| - 1] < |B.tables| && B.w >= 0 && Shr(i, B.w) < |B.tables[B.u[|B.u| - 1]]|
  {
    var id, parent := |B.tables|, B.u[|B.u| - 1];
    var linked := B.tables[parent][Shr(i, B.w) := Huft(16 + j, l, id)];
    Build(B.tables[parent := linked] + [seq(Pow2(j), _ => junk)], B.u + [id], B.x + [i], B.w + l, id)
  }

  /** The shape with the table that Connect adds. */
  ghost function Longer(cs: CodeSet, sh: Shape, pre: seq<bool>, j: nat): Shape {
    Shape(sh.pre + [pre], sh.tbs + [Min(j, cs.l)], sh.wid + [j])
  }

  ghost predicate Connecting(cs: CodeSet, B: Build, sh: Shape, t: seq<bool>, pos: nat, a: nat, j: nat) {
    && ReadyAt(cs, B, sh, t, pos) && |t| > B.w + cs.l && AtCode(cs, |t|, a, pos)
    && Lo(t[..B.w + cs.l], cs.g) == pos
    && 1 <= cs.l && 1 <= j <= BMAX + 1 && B.w + cs.l + Min(j, cs.l) <= cs.g
    && WideEnough(cs, t[..B.w + cs.l], Min(j, cs.l))
  }

  lemma ConnectBuilt(cs: CodeSet, B: Build, sh: Shape, t: seq<bool>, pos: nat, a: nat, j: nat, junk: Huft)
    requires Connecting(cs, B, sh, t, pos, a, j)
    ensures Shr(ValOf(t), B.w) < |B.tables[B.u[|B.u| - 1]]|
    ensures Growing(cs, sh, B.u, pos, t[..B.w + cs.l], Min(j, cs.l), Shr(ValOf(t), B.w))
    ensures Built(cs, Connect(B, cs.l, ValOf(t), j, junk), Longer(cs, sh, t[..B.w + cs.l], j), pos)
  {
    hide Inv, Growing, WideEnough;
    LinkIndex(t, B.w, cs.l);
    AddSafe(cs, B, sh, t, pos, a, Shr(ValOf(t), B.w), Min(j, cs.l));
    ConnectGrows(cs, B, sh, t, pos, j, junk);
  }

  lemma ConnectGrows(cs: CodeSet, B: Build, sh: Shape, t: seq<bool>, pos: nat, j: nat, junk: Huft)
    requires Built(cs, B, sh, pos) && |t| > B.w + cs.l && ValOf(t) == ValOf(t[..B.w + cs.l])
    requires Growing(cs, sh, B.u, pos, t[..B.w + cs.l], Min(j, cs.l), Shr(ValOf(t), B.w))
    requires Shr(ValOf(t), B.w) < |B.tables[B.u[|B.u| - 1]]|
    ensures Built(cs, Connect(B, cs.l, ValOf(t), j, junk), Longer(cs, sh, t[..B.w + cs.l], j), pos)
  {
    hide Inv, Growing, NewTable;
    var B', tb := Connect(B, cs.l, ValOf(t), j, junk), Min(j, cs.l);
    CodeStackPush(B.x, sh, B.u, t[..B.w + cs.l], tb, j);
    ConnectNewTable(cs, B, sh, t, j, junk);
    Grow(cs, B.tables, B'.tables, sh, B.u, pos, t[..B.w + cs.l], tb, j, Shr(ValOf(t), B.w), seq(Pow2(j), _ => junk));
  }

  lemma ConnectNewTable(cs: CodeSet, B: Build, sh: Shape, t: seq<bool>, j: nat, junk: Huft)
    requires |B.u| > 0 && B.u[|B.u| - 1] < |B.tables| && B.w >= 0 && Shr(ValOf(t), B.w) < |B.tables[B.u[|B.u| - 1]]|
    ensures NewTable(cs, B.tables, Connect(B, cs.l, ValOf(t), j, junk).tables, sh, B.u[|B.u| - 1], Shr(ValOf(t), B.w),
                     seq(Pow2(j), _ => junk), Min(j, cs.l), j)
  {
    Pow2Mono(Min(j, cs.l), j);
  }

  lemma ConnectExtra(cs: CodeSet, B: Build, sh: Shape, t: seq<bool>, pos: nat, j: nat, junk: Huft)
    requires Built(cs, B, sh, pos) && |t| > B.w + cs.l && WfSet(cs) && Extra(cs, B.tables, sh, junk)
    requires Growing(cs, sh, B.u, pos, t[..B.w + cs.l], Min(j, cs.l), Shr(ValOf(t), B.w))
    requires Shr(ValOf(t), B.w) < |B.tables[B.u[|B.u| - 1]]|
    requires j <= BMAX + 1 && (j > cs.l <==> TooWide(cs, t[..B.w + cs.l]))
    ensures Extra(cs, Connect(B, cs.l, ValOf(t), j, junk).tables, Longer(cs, sh, t[..B.w + cs.l], j), junk)
  {
    hide Inv, TableExtra, WideEnough, TooWide, Complete;
    var B', sh', top := Connect(B, cs.l, ValOf(t), j, junk), Longer(cs, sh, t[..B.w + cs.l], j), B.u[|B.u| - 1];
    ParentMultiple(cs, B.tables, sh, junk, top);
    forall r | 0 <= r < |B'.tables|
      ensures TableExtra(cs, r, B'.tables[r], sh'.pre[r], sh'.tbs[r], sh'.wid[r], junk)
    {
      if r < |B.tables| {
        assert TableExtra(cs, r, B.tables[r], sh.pre[r], sh.tbs[r], sh.wid[r], junk);
        if r == top {
          TopRoom(cs, B, sh, pos);
          GrowExtraTable(cs, r, B.tables[r], sh.pre[r], sh.tbs[r], sh.wid[r], junk, Shr(ValOf(t), B.w),
                         Huft(16 + j, cs.l, |B.tables|));
        }
      } else {
        NewExtraTable(cs, r, t[..B.w + cs.l], j, junk);
      }
    }
  }

  lemma TopRoom(cs: CodeSet, B: Build, sh: Shape, pos: nat)
    requires Built(cs, B, sh, pos)
    ensures var top := B.u[|B.u| - 1]; Pow2(sh.tbs[top]) <= |B.tables[top]| && 1 <= sh.tbs[top] <= cs.l
    ensures |sh.pre[B.u[|B.u| - 1]]| <= cs.g
  {
    var top := B.u[|B.u| - 1];
    assert TableFits(cs, B.tables[top], sh.pre[top], sh.tbs[top]);
  }

  lemma ParentMultiple(cs: CodeSet, tables: seq<seq<Huft>>, sh: Shape, junk: Huft, t: nat)
    requires WfSet(cs) && Extra(cs, tables, sh, junk) && t < |tables|
    ensures MultipleOf(|sh.pre[t]| + cs.l, cs.l)
  {
    assert TableExtra(cs, t, tables[t], sh.pre[t], sh.tbs[t], sh.wid[t], junk);
  }

  lemma ConnectReady(cs: CodeSet, B: Build, sh: Shape, t: seq<bool>, pos: nat, j: nat, junk: Huft)
    requires ReadyAt(cs, B, sh, t, pos) && |t| > B.w + cs.l
    requires Shr(ValOf(t), B.w) < |B.tables[B.u[|B.u| - 1]]|
    requires Built(cs, Connect(B, cs.l, ValOf(t), j, junk), Longer(cs, sh, t[..B.w + cs.l], j), pos)
    ensures ReadyAt(cs, Connect(B, cs.l, ValOf(t), j, junk), Longer(cs, sh, t[..B.w + cs.l], j), t, pos)
  {
    hide Inv;
  }

  lemma AddSafe(cs: CodeSet, B: Build, sh: Shape, t: seq<bool>, pos: nat, a: nat, at: nat, tb: nat)
    requires ReadyAt(cs, B, sh, t, pos) && |t| > B.w + cs.l && AtCode(cs, |t|, a, pos)
    requires at < Pow2(cs.l) && Cell(t[..B.w], cs.l, at) == t[..B.w + cs.l]
    requires Lo(t[..B.w + cs.l], cs.g) == pos
    requires 1 <= tb <= cs.l && B.w + cs.l + tb <= cs.g && WideEnough(cs, t[..B.w + cs.l], tb)
    ensures Growing(cs, sh, B.u, pos, t[..B.w + cs.l], tb, at)
    ensures at < |B.tables[B.u[|B.u| - 1]]|
  {
    var top := B.u[|B.u| - 1];
    var pre := sh.pre[top];
    assert TableFits(cs, B.tables[top], pre, sh.tbs[top]);
    assert OnPath(cs, sh, top, pos);
    assert pre == t[..B.w];
    Nest(pre, t, cs.g);
    CodeWidth(cs, pre, sh.tbs[top], |t|, a, pos);
  }

  method MakeRoot(ghost cs: CodeSet, c: seq<nat>, g: nat, l: nat, k: nat, a: nat, junk: Huft, ghost t: seq<bool>)
    returns (B: Build, ghost sh: Shape)
    requires WfSet(cs) && cs.g == g < |c| && cs.l == l && forall b :: 1 <= b <= g ==> c[b] == Count(cs.lens, b)
    requires 1 <= |t| == k <= l && Lo(t, g) == 0 && AtCode(cs, k, a, 0)
    ensures ReadyAt(cs, B, sh, t, 0) && Extra(cs, B.tables, sh, junk)
  {
    assert Lo([], g) == 0;
    var j := SizeTable(cs, c, g, l, k, 0, a, [], 0);
    RootWidth(cs, k, j);
    Pow2Mono(l, j);
    var root := seq(Pow2(j), _ => junk);
    RootBuilt(cs, root, j, t);
    B, sh := Build([root], [0], [0], 0, 0), Shape([[]], [l], [j]);
    assert TableExtra(cs, 0, root, [], l, j, junk);
  }

  /** As many new tables as the length of the code needs, each hung from the last (inflate.c:378-421). */
  method MakeLevels(ghost cs: CodeSet, B0: Build, c: seq<nat>, g: nat, l: nat, k: nat, a: nat, i: nat, junk: Huft,
                    ghost sh0: Shape, ghost t: seq<bool>, ghost pos: nat)
    returns (B: Build, ghost sh: Shape)
    requires WfSet(cs) && cs.g == g < |c| && cs.l == l
    requires forall b :: 1 <= b <= g ==> c[b] == Count(cs.lens, b)
    requires Ready(cs, B0, sh0, t, pos) && |t| == k >= 1 && i == ValOf(t) && AtCode(cs, k, a, pos)
    requires Extra(cs, B0.tables, sh0, junk)
    ensures ReadyAt(cs, B, sh, t, pos) && k <= B.w + l && Extra(cs, B.tables, sh, junk)
  {
    hide Inv, Growing, WideEnough, Extra, TooWide, AtCode, Complete;
    B, sh := B0, sh0;
    if |B.u| == 0 {
      B, sh := MakeRoot(cs, c, g, l, k, a, junk, t);
    }
    while k > B.w + l
      invariant ReadyAt(cs, B, sh, t, pos) && Extra(cs, B.tables, sh, junk)
      decreases k - B.w
    {
      var j := SubtableBits(cs, B, c, g, l, k, a, sh, t, pos);
      ConnectBuilt(cs, B, sh, t, pos, a, j, junk);
      ConnectExtra(cs, B, sh, t, pos, j, junk);
      ConnectReady(cs, B, sh, t, pos, j, junk);
      sh := Longer(cs, sh, t[..B.w + l], j);
      B := Connect(B, l, i, j, junk);
    }
  }

  // ---- storing one code ----

  lemma StorePlaces(cs: CodeSet, B: Build, sh: Shape, pos: nat, s: nat, a: nat)
    requires s < |cs.lens| && cs.lens[s] > 0 && ReadyAt(cs, B, sh, CodeBits(cs.lens, s), pos)
    requires AtCode(cs, cs.lens[s], a, pos) && cs.lens[s] <= B.w + cs.l
    ensures Placing(cs, sh, B.u, pos, s)
  {
    var top := B.u[|B.u| - 1];
    assert TableFits(cs, B.tables[top], sh.pre[top], sh.tbs[top]);
    assert OnPath(cs, sh, top, pos);
    Nest(sh.pre[top], CodeBits(cs.lens, s), cs.g);
    CodeWidth(cs, sh.pre[top], sh.tbs[top], cs.lens[s], a, pos);
  }

  lemma StoreExtra(cs: CodeSet, tables: seq<seq<Huft>>, tables': seq<seq<Huft>>, sh: Shape, u: seq<nat>, pos: nat,
                   s: nat, x: Huft, junk: Huft)
    requires Inv(cs, tables, sh, u, pos) && Placing(cs, sh, u, pos, s) && Extra(cs, tables, sh, junk)
    requires Placed(cs, tables, tables', sh, u[|u| - 1], s, x)
    ensures Extra(cs, tables', sh, junk)
  {
    hide Done, Left, TableExtra, Complete;
    var top := u[|u| - 1];
    forall t | 0 <= t < |tables'|
      ensures TableExtra(cs, t, tables'[t], sh.pre[t], sh.tbs[t], sh.wid[t], junk)
    {
      assert TableExtra(cs, t, tables[t], sh.pre[t], sh.tbs[t], sh.wid[t], junk);
      if t == top {
        assert TableFits(cs, tables[t], sh.pre[t], sh.tbs[t]);
        WideAtLeast(cs, t, tables[t], sh.pre[t], sh.tbs[t], sh.wid[t], junk);
        PlaceExtraTable(cs, t, tables[t], tables'[t], sh.pre[t], sh.tbs[t], sh.wid[t], junk, s, x);
      }
    }
  }

  lemma WideAtLeast(cs: CodeSet, t: nat, table: seq<Huft>, pre: seq<bool>, tb: nat, wd: nat, junk: Huft)
    requires WfSet(cs) && TableExtra(cs, t, table, pre, tb, wd, junk) && TableFits(cs, table, pre, tb)
    ensures tb <= wd
  {
    if wd < tb { Pow2Strict(wd, tb); }
  }

  /** inflate.c:424, 440-442: the entry goes to every cell that starts with the code. */
  method StoreCode(ghost cs: CodeSet, B: Build, k: nat, i: nat, x: Huft, ghost sh: Shape, ghost pos: nat, ghost s: nat,
                   ghost a: nat,
                   ghost junk: Huft)
    returns (B': Build)
    requires s < |cs.lens| && cs.lens[s] == k > 0 && ReadyAt(cs, B, sh, CodeBits(cs.lens, s), pos)
    requires AtCode(cs, k, a, pos) && k <= B.w + cs.l && i == ValOf(CodeBits(cs.lens, s))
    requires IsEntry(cs.ents[s], x, k - B.w) && Extra(cs, B.tables, sh, junk)
    ensures B' == B.(tables := B'.tables) && Built(cs, B', sh, Hi(CodeBits(cs.lens, s), cs.g))
    ensures Extra(cs, B'.tables, sh, junk)
  {
    hide Inv, Extra, AtCode;
    ghost var code := CodeBits(cs.lens, s);
    StorePlaces(cs, B, sh, pos, s, a);
    ShrCode(code, B.w);
    var table := Fill(B.tables[B.q], Shr(i, B.w), Pow2(k - B.w), x);
    B' := B.(tables := B.tables[B.q := table]);
    Place(cs, B.tables, B'.tables, sh, B.u, pos, s, x);
    StoreExtra(cs, B.tables, B'.tables, sh, B.u, pos, s, x, junk);
  }

  // ---- backing up over finished tables ----

  /** Masking the reversed code to `w` bits gives the pattern of its first `w` bits. */
  lemma PatternOf(t: seq<bool>, w: nat, pre: seq<bool>)
    requires w == |pre| <= |t|
    ensures And(ValOf(t), Mask(w)) == ValOf(pre) <==> pre <= t
  {
    AndMask(ValOf(t), w);
    ValOfJoin(t[..w], t[w..]);
    assert t == t[..w] + t[w..];
    MulComm(Pow2(w), ValOf(t[w..]));
    DivModUnique(ValOf(t), ValOf(t[w..]), ValOf(t[..w]), Pow2(w));
    if ValOf(pre) == ValOf(t[..w]) { ValOfInjective(pre, t[..w]); }
    if pre <= t { assert t[..w] == pre; }
  }

  /** The next code starts at `pos`, or no code is left. */
  ghost predicate NextStarts(cs: CodeSet, t: seq<bool>, pos: nat) {
    |t| <= cs.g && (pos == Pow2(cs.g) || Lo(t, cs.g) == pos)
  }

  /** A table that the next code is not in is finished. */
  lemma LeaveTable(cs: CodeSet, pre: seq<bool>, t: seq<bool>, pos: nat)
    requires NextStarts(cs, t, pos) && |pre| <= |t| && !(pre <= t) && Lo(pre, cs.g) <= pos
    ensures Hi(pre, cs.g) <= pos
  {
    HiBound(pre, cs.g);
    Apart(pre, t, cs.g);
  }

  /** A code that starts right behind the string `pre` has zeros from that depth on. */
  lemma ZerosBehind(pre: seq<bool>, t: seq<bool>, g: nat)
    requires |pre| <= |t| <= g && !(pre <= t) && Hi(pre, g) == Lo(t, g)
    ensures ZerosFrom(t, |pre|)
  {
    var q := t[..|pre|];
    Nest(q, t, g);
    assert !(pre <= q);
    Apart(pre, q, g);
    LoTail(q, t, g);
  }

  lemma {:induction false} LoTail(q: seq<bool>, t: seq<bool>, g: nat)
    requires q <= t && |t| <= g && Lo(t, g) <= Lo(q, g)
    ensures ZerosFrom(t, |q|)
    decreases |t|
  {
    if |t| > |q| {
      var n := |t| - 1;
      LoSnoc(t[..n], t[n], g);
      assert t[..n] + [t[n]] == t;
      Nest(q, t[..n], g);
      LoTail(q, t[..n], g);
    }
  }

  ghost function Popped(B: Build, l: nat): Build
    requires |B.u| > 1 && |B.x| == |B.u|
  {
    Build(B.tables, B.u[..|B.u| - 1], B.x[..|B.x| - 1], B.w - l, B.q)
  }

  lemma PopBuilt(cs: CodeSet, B: Build, sh: Shape, t: seq<bool>, pos: nat)
    requires Built(cs, B, sh, pos) && B.w <= |t| && NextStarts(cs, t, pos) && !(sh.pre[B.u[|B.u| - 1]] <= t)
    ensures |B.u| > 1 && |B.x| == |B.u| && Built(cs, Popped(B, cs.l), sh, pos)
    ensures pos < Pow2(cs.g) ==> ZerosFrom(t, B.w)
  {
    var top := B.u[|B.u| - 1];
    assert OnPath(cs, sh, top, pos);
    LeaveTable(cs, sh.pre[top], t, pos);
    Pop(cs, B.tables, sh, B.u, pos);
    if pos < Pow2(cs.g) { ZerosBehind(sh.pre[top], t, cs.g); }
  }

  /** Tables that the next code does not start in are left behind (inflate.c:450-454). */
  method Backup(ghost cs: CodeSet, B0: Build, l: nat, k: nat, i: nat, ghost sh: Shape, ghost t: seq<bool>,
                ghost pos: nat)
    returns (B: Build)
    requires Built(cs, B0, sh, pos) && B0.w < k == |t| && i == ValOf(t) && NextStarts(cs, t, pos) && cs.l == l
    ensures Built(cs, B, sh, pos) && B.tables == B0.tables && B.q == B0.q
    ensures sh.pre[B.u[|B.u| - 1]] <= t && B.w < k
    ensures B == B0 || (B.w + l < k && (pos < Pow2(cs.g) ==> ZerosFrom(t, B.w + l)))
  {
    hide Inv;
    B := B0;
    while And(i, Mask(B.w)) != B.x[|B.u| - 1]
      invariant Built(cs, B, sh, pos) && B.w < k && B.tables == B0.tables && B.q == B0.q
      invariant B == B0 || (B.w + l < k && (pos < Pow2(cs.g) ==> ZerosFrom(t, B.w + l)))
      decreases |B.u|
    {
      PatternOf(t, B.w, sh.pre[B.u[|B.u| - 1]]);
      PopBuilt(cs, B, sh, t, pos);
      B := Build(B.tables, B.u[..|B.u| - 1], B.x[..|B.x| - 1], B.w - l, B.q);
    }
    PatternOf(t, B.w, sh.pre[B.u[|B.u| - 1]]);
  }

  // ---- all codes of one length ----

  /** The `rank`-th code of `k` bits, and where it starts. */
  ghost function CodeStr(cs: CodeSet, k: nat, rank: nat): (t: seq<bool>)
    requires k >= 1
    ensures |t| == k
  {
    MsbBits(2 * Used(cs.lens, k - 1) + rank, k)
  }

  ghost function CodePos(cs: CodeSet, k: nat, rank: nat): nat
    requires 1 <= k <= cs.g
  {
    Cover(cs.lens, cs.g, k - 1) + Scale(rank, cs.g - k)
  }

  lemma CodeLo(cs: CodeSet, k: nat, rank: nat)
    requires 1 <= k <= cs.g && 2 * Used(cs.lens, k - 1) + rank < Pow2(k)
    ensures Lo(CodeStr(cs, k, rank), cs.g) == CodePos(cs, k, rank)
  {
    LoCode(2 * Used(cs.lens, k - 1) + rank, k, cs.g);
    ScaleTwice(Used(cs.lens, k - 1), cs.g - k);
    ScaleAdd(2 * Used(cs.lens, k - 1), rank, cs.g - k);
  }

  lemma CodeEnd(cs: CodeSet, k: nat, rank: nat)
    requires 1 <= k <= cs.g
    ensures CodePos(cs, k, rank + 1) == CodePos(cs, k, rank) + Pow2(cs.g - k)
    ensures rank < Count(cs.lens, k) ==> AtCode(cs, k, Count(cs.lens, k) - rank - 1, CodePos(cs, k, rank))
  {
    var n := Count(cs.lens, k);
    ScaleAdd(rank, 1, cs.g - k);
    ScaleOne(cs.g - k);
    if rank < n {
      CoverStep(cs.lens, cs.g, k);
      ScaleSub(n, rank, cs.g - k);
    }
  }

  /** Facts about the next code and the one after it. */
  lemma CodeFacts(cs: CodeSet, k: nat, rank: nat)
    requires WfSet(cs) && 1 <= k <= cs.g && rank < Count(cs.lens, k)
    ensures AtCode(cs, k, Count(cs.lens, k) - rank - 1, CodePos(cs, k, rank))
    ensures Lo(CodeStr(cs, k, rank), cs.g) == CodePos(cs, k, rank) < Pow2(cs.g)
    ensures Hi(CodeStr(cs, k, rank), cs.g) == CodePos(cs, k, rank + 1) <= Pow2(cs.g)
    ensures Succ(CodeStr(cs, k, rank)) == CodeStr(cs, k, rank + 1)
    ensures NextStarts(cs, CodeStr(cs, k, rank + 1), CodePos(cs, k, rank + 1))
  {
    hide CodeStr, CodePos, AtCode, Complete;
    var c := 2 * Used(cs.lens, k - 1) + rank;
    CompleteAt(cs.lens, cs.g, k);
    CodeLo(cs, k, rank);
    CodeEnd(cs, k, rank);
    HiBound(CodeStr(cs, k, rank), cs.g);
    CodeSucc(cs, k, rank);
    if c + 1 < Pow2(k) {
      CodeLo(cs, k, rank + 1);
    } else {
      LastCode(cs, k, rank);
    }
  }

  lemma CodeSucc(cs: CodeSet, k: nat, rank: nat)
    requires 1 <= k && 2 * Used(cs.lens, k - 1) + rank < Pow2(k)
    ensures Succ(CodeStr(cs, k, rank)) == CodeStr(cs, k, rank + 1)
  {
    SuccBits(2 * Used(cs.lens, k - 1) + rank, k);
  }

  lemma CompleteAt(lens: seq<nat>, m: nat, k: nat)
    requires Complete(lens, m) && k <= m
    ensures Used(lens, k) <= Pow2(k)
  {
    FitsAt(lens, m, k);
  }

  lemma LastCode(cs: CodeSet, k: nat, rank: nat)
    requires 1 <= k <= cs.g && 2 * Used(cs.lens, k - 1) + rank + 1 == Pow2(k)
    ensures CodePos(cs, k, rank + 1) == Pow2(cs.g)
  {
    ScaleTwice(Used(cs.lens, k - 1), cs.g - k);
    ScaleAdd(2 * Used(cs.lens, k - 1), rank + 1, cs.g - k);
    ScalePow(k, cs.g - k);
  }

  /** One code: inflate.c:376-454 without the choice of the entry. */
  method OneCode(ghost cs: CodeSet, B0: Build, c: seq<nat>, g: nat, l: nat, k: nat, a: nat, i0: nat, e: nat, v: nat,
                 junk: Huft,
                 ghost sh0: Shape, ghost s: nat, ghost rank: nat)
    returns (B: Build, i: nat, ghost sh: Shape)
    requires WfSet(cs) && cs.g == g < |c| && cs.l == l && Extra(cs, B0.tables, sh0, junk)
    requires forall b :: 1 <= b <= g ==> c[b] == Count(cs.lens, b)
    requires s < |cs.lens| && 1 <= k == cs.lens[s] && rank == Count(cs.lens[..s], k) &&
             a == Count(cs.lens, k) - rank - 1
    requires cs.ents[s].e == e && (e != INVALID ==> cs.ents[s].v == v)
    requires Ready(cs, B0, sh0, CodeStr(cs, k, rank), CodePos(cs, k, rank)) && i0 == ValOf(CodeStr(cs, k, rank))
    ensures i == ValOf(CodeStr(cs, k, rank + 1)) && Extra(cs, B.tables, sh, junk)
    ensures Built(cs, B, sh, CodePos(cs, k, rank + 1))
    ensures CodePos(cs, k, rank + 1) < Pow2(g) ==> Ready(cs, B, sh, CodeStr(cs, k, rank + 1), CodePos(cs, k, rank + 1))
  {
    hide Inv, WideEnough, CodePos, AtCode, Extra;
    ghost var t, t' := CodeStr(cs, k, rank), CodeStr(cs, k, rank + 1);
    ghost var pos, pos' := CodePos(cs, k, rank), CodePos(cs, k, rank + 1);
    CodeFacts(cs, k, rank);
    var B1, sh1 := MakeLevels(cs, B0, c, g, l, k, a, i0, junk, sh0, t, pos);
    sh := sh1;
    var B2 := StoreCode(cs, B1, k, i0, Huft(e, k - B1.w, v), sh, pos, s, a, junk);
    i := Increment(i0, k, t);
    B := Backup(cs, B2, l, k, i, sh, t', pos');
  }
}
