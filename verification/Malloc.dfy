/** kernel2/malloc.c: the free list lives in the memory it manages. */
module Malloc {
  import opened Memory32
  import opened FreeList

  const PAGE_SIZE := 4096

  // ---- the headers in memory ----

  /** Fields of struct _malloc_header at address `a`. */
  function FlagsAt(m: Memory, a: nat): (v: nat)
    ensures v < SPACE
  {
    Word(m, a)
  }

  function SizeAt(m: Memory, a: nat): (v: nat)
    ensures v < SPACE
  {
    Word(m, a + 4)
  }

  function NextAt(m: Memory, a: nat): (v: nat)
    ensures v < SPACE
  {
    Word(m, a + 8)
  }

  ghost predicate IsHeader(m: Memory, b: Block, flags: nat) {
    FlagsAt(m, b.addr) == flags && SizeAt(m, b.addr) == b.size
  }

  /** Address of the first block, or what follows when there is none. */
  function First(s: seq<Block>, next: nat): nat {
    if |s| == 0 then next else s[0].addr
  }

  /** The blocks have free headers, each pointing at the one behind it, the last one at `next`. */
  ghost predicate Linked(m: Memory, s: seq<Block>, next: nat) {
    forall i :: 0 <= i < |s| ==> IsHeader(m, s[i], 0) && NextAt(m, s[i].addr) == First(s[i + 1..], next)
  }

  ghost predicate InUse(m: Memory, live: seq<Block>) {
    forall i :: 0 <= i < |live| ==> IsHeader(m, live[i], 1)
  }

  ghost predicate Below(bs: seq<Block>) {
    forall i :: 0 <= i < |bs| ==> bs[i].End() < SPACE
  }

  lemma LinkedJoin(m: Memory, a: seq<Block>, b: seq<Block>, next: nat)
    ensures Linked(m, a + b, next) == (Linked(m, a, First(b, next)) && Linked(m, b, next))
  {
    hide IsHeader, NextAt;
    var s := a + b;
    assert forall i :: 0 <= i < |a| ==> s[i] == a[i] && First(s[i + 1..], next) == First(a[i + 1..], First(b, next));
    assert forall i :: 0 <= i < |b| ==> s[|a| + i] == b[i] && s[|a| + i + 1..] == b[i + 1..];
    if Linked(m, s, next) {
      forall i | 0 <= i < |b|
        ensures IsHeader(m, b[i], 0) && NextAt(m, b[i].addr) == First(b[i + 1..], next)
      {
        assert IsHeader(m, s[|a| + i], 0);
      }
    }
    if Linked(m, a, First(b, next)) && Linked(m, b, next) {
      forall i | 0 <= i < |s|
        ensures IsHeader(m, s[i], 0) && NextAt(m, s[i].addr) == First(s[i + 1..], next)
      {
        if i >= |a| { assert IsHeader(m, b[i - |a|], 0); }
      }
    }
  }

  // ---- what an update keeps ----

  /** Only bytes of the blocks `bs` differ. */
  ghost predicate Changed(m: Memory, n: Memory, bs: seq<Block>) {
    forall x :: 0 <= x < SPACE && Cover(bs, x) == 0 ==> m[x] == n[x]
  }

  lemma ChangedJoin(m: Memory, n: Memory, p: Memory, a: seq<Block>, b: seq<Block>, all: seq<Block>)
    requires Changed(m, n, a) && Changed(n, p, b)
    requires forall x :: 0 <= x < SPACE && Cover(all, x) == 0 ==> Cover(a, x) == 0 && Cover(b, x) == 0
    ensures Changed(m, p, all)
  {
  }

  lemma ApartCover(bs: seq<Block>, b: Block, x: int)
    requires ApartAll(bs, b) && b.addr <= x < b.End()
    ensures Cover(bs, x) == 0
  {
    CoverNone(bs, x);
  }

  lemma WordStays(m: Memory, n: Memory, bs: seq<Block>, b: Block, a: nat)
    requires Changed(m, n, bs) && ApartAll(bs, b) && b.addr <= a && a + 4 <= b.End() < SPACE
    ensures Word(n, a) == Word(m, a)
  {
    ApartCover(bs, b, a);
    ApartCover(bs, b, a + 1);
    ApartCover(bs, b, a + 2);
    ApartCover(bs, b, a + 3);
    InSpace(a);
    InSpace(a + 1);
    InSpace(a + 2);
    InSpace(a + 3);
  }

  lemma HeaderStays(m: Memory, n: Memory, bs: seq<Block>, b: Block)
    requires Changed(m, n, bs) && ApartAll(bs, b) && b.size >= HEADER && b.End() < SPACE
    ensures FlagsAt(n, b.addr) == FlagsAt(m, b.addr) && SizeAt(n, b.addr) == SizeAt(m, b.addr) &&
            NextAt(n, b.addr) == NextAt(m, b.addr)
  {
    hide Word, Changed;
    WordStays(m, n, bs, b, b.addr);
    WordStays(m, n, bs, b, b.addr + 4);
    WordStays(m, n, bs, b, b.addr + 8);
  }

  ghost predicate ApartLists(s: seq<Block>, bs: seq<Block>) {
    forall i :: 0 <= i < |s| ==> ApartAll(bs, s[i])
  }

  /** The headers of `s` lie outside the blocks `bs`. */
  ghost predicate HeadersApart(s: seq<Block>, bs: seq<Block>) {
    forall i :: 0 <= i < |s| ==> ApartAll(bs, Block(s[i].addr, HEADER)) && s[i].addr + HEADER < SPACE
  }

  lemma HeadersOf(s: seq<Block>, bs: seq<Block>)
    requires ApartLists(s, bs) && Sized(s) && Below(s)
    ensures HeadersApart(s, bs)
  {
    forall i | 0 <= i < |s|
      ensures ApartAll(bs, Block(s[i].addr, HEADER))
    {
      assert ApartAll(bs, s[i]);
    }
  }

  lemma LinkedStays(m: Memory, n: Memory, bs: seq<Block>, s: seq<Block>, next: nat)
    requires Changed(m, n, bs) && HeadersApart(s, bs) && Linked(m, s, next)
    ensures Linked(n, s, next)
  {
    hide Changed, FlagsAt, SizeAt, NextAt;
    forall i | 0 <= i < |s|
      ensures IsHeader(n, s[i], 0) && NextAt(n, s[i].addr) == First(s[i + 1..], next)
    {
      HeaderStays(m, n, bs, Block(s[i].addr, HEADER));
    }
  }

  lemma InUseStays(m: Memory, n: Memory, bs: seq<Block>, live: seq<Block>)
    requires Changed(m, n, bs) && HeadersApart(live, bs) && InUse(m, live)
    ensures InUse(n, live)
  {
    hide Changed, FlagsAt, SizeAt, NextAt;
    forall i | 0 <= i < |live|
      ensures IsHeader(n, live[i], 1)
    {
      HeaderStays(m, n, bs, Block(live[i].addr, HEADER));
    }
  }

  lemma OnlyIn(m: Memory, n: Memory, b: Block, lo: nat, hi: nat)
    requires SameOutside(m, n, lo, hi) && b.addr <= lo && hi <= b.End()
    ensures Changed(m, n, [b])
  {
    assert forall x :: Cover([b], x) == Has(b, x) + Cover([], x);
  }

  /** A field of a block's header is written: offset 0 (flags), 4 (size) or 8 (next). */
  lemma SetField(m: Memory, b: Block, off: nat, v: nat)
    requires b.size >= HEADER && b.End() < SPACE && v < SPACE && (off == 0 || off == 4 || off == 8)
    ensures var n := PutWord(m, b.addr + off, v);
            && Changed(m, n, [b])
            && FlagsAt(n, b.addr) == (if off == 0 then v else FlagsAt(m, b.addr))
            && SizeAt(n, b.addr) == (if off == 4 then v else SizeAt(m, b.addr))
            && NextAt(n, b.addr) == (if off == 8 then v else NextAt(m, b.addr))
  {
    hide Word, PutWord, SameOutside, Changed;
    var a := b.addr + off;
    var n := PutWord(m, a, v);
    PutGet(m, a, v);
    OnlyIn(m, n, b, a, a + 4);
    if off != 0 { WordKept(m, n, a, a + 4, b.addr); }
    if off != 4 { WordKept(m, n, a, a + 4, b.addr + 4); }
    if off != 8 { WordKept(m, n, a, a + 4, b.addr + 8); }
  }

  // ---- the list in memory ----

  ghost predicate Placed(free: seq<Block>) {
    Sorted(free) && Sized(free) && Below(free)
  }

  ghost predicate Sound(h: Block) {
    h.addr >= HEADER && h.size >= HEADER && h.End() < SPACE
  }

  lemma PartsPlaced(a: seq<Block>, c: Block, b: seq<Block>)
    requires Placed(a + ([c] + b))
    ensures Placed(a) && Sound(c) && Placed(b)
  {
    var s := a + ([c] + b);
    assert s[|a|] == c && s[..|a|] == a && s[|a| + 1..] == b;
    hide Sorted;
    PlacedSlice(s, 0, |a|);
    PlacedSlice(s, |a| + 1, |s|);
  }

  lemma PlacedSlice(s: seq<Block>, i: nat, j: nat)
    requires Placed(s) && i <= j <= |s|
    ensures Placed(s[i..j])
  {
  }

  lemma PartsApart(a: seq<Block>, c: Block, b: seq<Block>)
    requires Sorted(a + ([c] + b))
    ensures ApartAll(a, c) && ApartAll(b, c)
  {
    var s := a + ([c] + b);
    forall i | 0 <= i < |a|
      ensures Apart(a[i], c)
    {
      assert s[i].End() <= s[|a|].addr;
    }
    forall i | 0 <= i < |b|
      ensures Apart(b[i], c)
    {
      assert s[|a|].End() <= s[|a| + 1 + i].addr;
    }
  }

  lemma Around(a: seq<Block>, c: Block, b: seq<Block>)
    requires Placed(a + ([c] + b))
    ensures Placed(a) && Sound(c) && Placed(b) && HeadersApart(a, [c]) && HeadersApart(b, [c])
  {
    hide Sorted, HeadersApart, ApartAll;
    PartsPlaced(a, c, b);
    PartsApart(a, c, b);
    HeadersOfOne(a, c);
    HeadersOfOne(b, c);
  }

  lemma HeadersOfOne(s: seq<Block>, h: Block)
    requires Sized(s) && Below(s) && ApartAll(s, h)
    ensures HeadersApart(s, [h])
  {
  }

  lemma LinkedOne(m: Memory, b: Block, next: nat)
    ensures Linked(m, [b], next) == (IsHeader(m, b, 0) && NextAt(m, b.addr) == next)
  {
    assert [b][0] == b && [b][1..] == [];
  }

  /** One block of the list is rewritten in its place. */
  lemma Replace(m: Memory, n: Memory, a: seq<Block>, c: Block, d: Block, tail: seq<Block>)
    requires Linked(m, a, c.addr) && HeadersApart(a, [c]) && Changed(m, n, [c])
    requires IsHeader(n, d, 0) && NextAt(n, d.addr) == First(tail, 0) && d.addr == c.addr
    requires HeadersApart(tail, [c]) && Linked(m, tail, 0)
    ensures Linked(n, a + ([d] + tail), 0)
  {
    hide Linked, Changed, IsHeader, NextAt, HeadersApart;
    LinkedStays(m, n, [c], a, c.addr);
    LinkedStays(m, n, [c], tail, 0);
    LinkedOne(n, d, First(tail, 0));
    LinkedJoin(n, [d], tail, 0);
    LinkedJoin(n, a, [d] + tail, 0);
  }

  ghost predicate OnList(m: Memory, first: nat, free: seq<Block>) {
    first == First(free, 0) && Linked(m, free, 0) && Placed(free)
  }

  lemma HeadersCons(h: Block, s: seq<Block>, c: Block)
    requires HeadersApart(s, [c]) && Sound(h) && Apart(h, c)
    ensures HeadersApart([h] + s, [c])
  {
    var t := [h] + s;
    forall i | 0 <= i < |t|
      ensures ApartAll([c], Block(t[i].addr, HEADER)) && t[i].addr + HEADER < SPACE
    {
      if i > 0 {
        assert t[i] == s[i - 1];
      }
    }
  }

  /** The new block becomes the first one (malloc.c:54-61). */
  lemma LinkFront(m: Memory, free: seq<Block>, h: Block)
    requires Linked(m, free, 0) && Placed(free) && Sound(h) && ApartAll(free, h) && IsHeader(m, h, 0)
    ensures First(free, 0) < SPACE && Linked(PutWord(m, h.addr + 8, First(free, 0)), [h] + free, 0)
    ensures Changed(m, PutWord(m, h.addr + 8, First(free, 0)), [h])
  {
    hide Linked, Changed, FlagsAt, SizeAt, NextAt, PutWord, HeadersApart;
    assert |free| > 0 ==> free[0].End() < SPACE;
    var n := PutWord(m, h.addr + 8, First(free, 0));
    SetField(m, h, 8, First(free, 0));
    HeadersOfOne(free, h);
    LinkedStays(m, n, [h], free, 0);
    LinkedOne(n, h, First(free, 0));
    LinkedJoin(n, [h], free, 0);
  }

  ghost function Behind(m: Memory, c: Block, h: Block): Memory
    requires Sound(h)
  {
    PutWord(PutWord(m, h.addr + 8, NextAt(m, c.addr)), c.addr + 8, h.addr)
  }

  lemma NextIs(m: Memory, a: seq<Block>, c: Block, b: seq<Block>)
    requires Linked(m, a + ([c] + b), 0)
    ensures NextAt(m, c.addr) == First(b, 0) && IsHeader(m, c, 0) && Linked(m, b, 0) && Linked(m, a, c.addr)
  {
    hide Linked, NextAt, IsHeader;
    LinkedJoin(m, a, [c] + b, 0);
    LinkedJoin(m, [c], b, 0);
    LinkedOne(m, c, First(b, 0));
  }

  lemma ApartParts(a: seq<Block>, c: Block, b: seq<Block>, h: Block)
    requires ApartAll(a + ([c] + b), h)
    ensures ApartAll(a, h) && Apart(c, h) && ApartAll(b, h)
  {
    var s := a + ([c] + b);
    assert s[|a|] == c;
    assert forall i :: 0 <= i < |a| ==> a[i] == s[i];
    assert forall i :: 0 <= i < |b| ==> b[i] == s[|a| + 1 + i];
  }

  /** The new block is linked behind `c` (malloc.c:69-70). */
  lemma LinkBehind(m: Memory, a: seq<Block>, c: Block, b: seq<Block>, h: Block)
    requires Linked(m, a + ([c] + b), 0) && Placed(a + ([c] + b)) && Sound(h) && ApartAll(a + ([c] + b), h) &&
             IsHeader(m, h, 0)
    ensures Linked(Behind(m, c, h), a + ([c] + ([h] + b)), 0)
    ensures Changed(m, Behind(m, c, h), [c, h])
  {
    hide Linked, Changed, FlagsAt, SizeAt, NextAt, PutWord, HeadersApart, Placed;
    var free := a + ([c] + b);
    NextIs(m, a, c, b);
    var n, p := PutWord(m, h.addr + 8, NextAt(m, c.addr)), Behind(m, c, h);
    SetField(m, h, 8, NextAt(m, c.addr));
    PlacedParts(free);
    HeadersOfOne(free, h);
    LinkedStays(m, n, [h], free, 0);
    NextIs(n, a, c, b);
    LinkedOne(n, h, First(b, 0));
    LinkedJoin(n, [h], b, 0);
    Around(a, c, b);
    SetField(n, c, 8, h.addr);
    ApartParts(a, c, b, h);
    HeadersCons(h, b, c);
    Replace(n, p, a, c, c, [h] + b);
    ChangedTwo(m, n, p, c, h);
  }

  lemma PlacedParts(free: seq<Block>)
    requires Placed(free)
    ensures Sorted(free) && Sized(free) && Below(free)
  {
  }

  lemma ChangedTwo(m: Memory, n: Memory, p: Memory, c: Block, h: Block)
    requires Changed(m, n, [h]) && Changed(n, p, [c])
    ensures Changed(m, p, [c, h])
  {
    forall x | 0 <= x < SPACE && Cover([c, h], x) == 0
      ensures Cover([h], x) == 0 && Cover([c], x) == 0
    {
      assert [c, h] == [c] + [h];
      CoverJoin([c], [h], x);
    }
  }

  /** The block before grows by the new one (malloc.c:65-67). */
  lemma GrowLeft(m: Memory, a: seq<Block>, c: Block, b: seq<Block>, size: nat)
    requires Linked(m, a + ([c] + b), 0) && Placed(a + ([c] + b)) && size < SPACE
    ensures Linked(PutWord(m, c.addr + 4, size), a + ([Block(c.addr, size)] + b), 0)
    ensures Changed(m, PutWord(m, c.addr + 4, size), [c])
  {
    hide Linked, Changed, FlagsAt, SizeAt, NextAt, PutWord, HeadersApart, Placed;
    NextIs(m, a, c, b);
    Around(a, c, b);
    SetField(m, c, 4, size);
    Replace(m, PutWord(m, c.addr + 4, size), a, c, Block(c.addr, size), b);
  }

  /** The memory after the block behind is joined (malloc.c:79-80). */
  ghost function Joined(m: Memory, h: nat): Memory {
    var next := NextAt(m, h);
    var n := PutWord(m, h + 4, (SizeAt(m, h) + SizeAt(m, next)) % SPACE);
    PutWord(n, h + 8, NextAt(n, next))
  }

  lemma JoinedFields(m: Memory, h: Block)
    requires Sound(h)
    ensures var p, next := Joined(m, h.addr), NextAt(m, h.addr);
            && Changed(m, p, [h])
            && FlagsAt(p, h.addr) == FlagsAt(m, h.addr)
            && SizeAt(p, h.addr) == (SizeAt(m, h.addr) + SizeAt(m, next)) % SPACE
    ensures var p, e := Joined(m, h.addr), Block(NextAt(m, h.addr), HEADER);
            Apart(h, e) && e.End() < SPACE ==> NextAt(p, h.addr) == NextAt(m, e.addr)
  {
    hide Changed, FlagsAt, SizeAt, NextAt, PutWord;
    var next := NextAt(m, h.addr);
    var size := (SizeAt(m, h.addr) + SizeAt(m, next)) % SPACE;
    var n := PutWord(m, h.addr + 4, size);
    SetField(m, h, 4, size);
    var p := PutWord(n, h.addr + 8, NextAt(n, next));
    SetField(n, h, 8, NextAt(n, next));
    ChangedJoin(m, n, p, [h], [h], [h]);
    var e := Block(next, HEADER);
    if Apart(h, e) && e.End() < SPACE { HeaderStays(m, n, [h], e); }
  }

  /** The block behind is joined to the new one. */
  lemma GrowNext(m: Memory, a: seq<Block>, h: Block, e: Block, r: seq<Block>)
    requires Linked(m, a + ([h] + ([e] + r)), 0) && HeadersApart(a, [h]) && HeadersApart([e] + r, [h])
    requires Sound(h) && Sound(e) && h.End() == e.addr
    ensures Linked(Joined(m, h.addr), a + ([Block(h.addr, h.size + e.size)] + r), 0)
    ensures Changed(m, Joined(m, h.addr), [h])
  {
    hide Linked, Changed, FlagsAt, SizeAt, NextAt, PutWord, HeadersApart, Placed, Joined;
    var er := [e] + r;
    NextIs(m, a, h, er);
    NextIs(m, [], e, r) by { assert [] + ([e] + r) == er; }
    JoinedFields(m, h);
    HeadersTail(e, r, h);
    Replace(m, Joined(m, h.addr), a, h, Block(h.addr, h.size + e.size), r);
  }

  lemma HeadersTail(e: Block, r: seq<Block>, h: Block)
    requires HeadersApart([e] + r, [h])
    ensures HeadersApart(r, [h])
  {
    var s := [e] + r;
    assert forall i :: 0 <= i < |r| ==> r[i] == s[i + 1];
  }

  /** After the block before has grown, whatever is written into the old header is inside that block. */
  lemma StaleJoin(m: Memory, a: seq<Block>, c: Block, b: seq<Block>, h: Block)
    requires Placed(a + ([c] + b)) && ApartAll(a + ([c] + b), h) && c.End() == h.addr && Sound(h)
    requires Linked(m, a + ([Block(c.addr, c.size + h.size)] + b), 0)
    ensures Linked(Joined(m, h.addr), a + ([Block(c.addr, c.size + h.size)] + b), 0)
    ensures Changed(m, Joined(m, h.addr), [h])
  {
    hide Linked, Changed, FlagsAt, SizeAt, NextAt, PutWord, Joined, HeadersApart;
    JoinedFields(m, h);
    StaleApart(a, c, b, h);
    LinkedStays(m, Joined(m, h.addr), [h], a + ([Block(c.addr, c.size + h.size)] + b), 0);
  }

  lemma StaleApart(a: seq<Block>, c: Block, b: seq<Block>, h: Block)
    requires Placed(a + ([c] + b)) && ApartAll(a + ([c] + b), h) && c.End() == h.addr && Sound(h)
    ensures HeadersApart(a + ([Block(c.addr, c.size + h.size)] + b), [h])
  {
    var s, t := a + ([c] + b), a + ([Block(c.addr, c.size + h.size)] + b);
    forall i | 0 <= i < |t|
      ensures ApartAll([h], Block(t[i].addr, HEADER)) && t[i].addr + HEADER < SPACE
    {
      assert Apart(s[i], h) && s[i].size >= HEADER && s[i].End() < SPACE && t[i].addr == s[i].addr;
    }
  }

  /** The last statement of _malloc_insertlist (malloc.c:78-81). */
  ghost function JoinStep(m: Memory, h: nat): Memory {
    if (h + SizeAt(m, h)) % SPACE == NextAt(m, h) then Joined(m, h) else m
  }

  lemma JoinDone(m: Memory, a: seq<Block>, h: Block, b: seq<Block>)
    requires Linked(m, a + ([h] + b), 0) && Sound(h)
    requires Placed(a) && Placed(b) && ApartAll(a, h) && ApartAll(b, h)
    ensures Linked(JoinStep(m, h.addr), a + JoinNext(h, b), 0)
    ensures Changed(m, JoinStep(m, h.addr), [h])
  {
    hide Linked, Changed, FlagsAt, SizeAt, NextAt, PutWord, HeadersApart, Joined;
    NextIs(m, a, h, b);
    HeadersOfOne(a, h);
    HeadersOfOne(b, h);
    if |b| > 0 && h.End() == b[0].addr {
      assert b == [b[0]] + b[1..];
      GrowNext(m, a, h, b[0], b[1..]);
    } else {
      InSpace(h.End());
      assert Changed(m, m, [h]) by { SameAll(m, [h]); }
    }
  }

  lemma SameAll(m: Memory, bs: seq<Block>)
    ensures Changed(m, m, bs)
  {
  }

  /** The new block is put before the list. */
  lemma InsertedFront(m: Memory, free: seq<Block>, h: Block)
    requires Linked(m, free, 0) && Placed(free) && Sound(h) && ApartAll(free, h) && IsHeader(m, h, 0)
    ensures First(free, 0) < SPACE
    ensures var p := JoinStep(PutWord(m, h.addr + 8, First(free, 0)), h.addr);
            Linked(p, JoinNext(h, free), 0) && Changed(m, p, [h])
  {
    hide Linked, Changed, IsHeader, PutWord, JoinNext, JoinStep;
    LinkFront(m, free, h);
    var n := PutWord(m, h.addr + 8, First(free, 0));
    var p := JoinStep(n, h.addr);
    assert [] + ([h] + free) == [h] + free && [] + JoinNext(h, free) == JoinNext(h, free);
    JoinDone(n, [], h, free);
    ChangedJoin(m, n, p, [h], [h], [h]);
  }

  lemma CoverParts(c: Block, h: Block, x: int)
    ensures Cover([c, h], x) == Has(c, x) + Has(h, x) && Cover([h], x) == Has(h, x) && Cover([c], x) == Has(c, x)
  {
    assert [c, h] == [c] + [h];
    CoverJoin([c], [h], x);
    assert Cover([], x) == 0;
  }

  lemma ChangedMore(m: Memory, n: Memory, p: Memory, c: Block, h: Block)
    requires (Changed(m, n, [c]) || Changed(m, n, [c, h])) && Changed(n, p, [h])
    ensures Changed(m, p, [c, h])
  {
    forall x | 0 <= x < SPACE && Cover([c, h], x) == 0
      ensures m[x] == p[x]
    {
      CoverParts(c, h, x);
    }
  }

  /** The new block touches the one before. */
  lemma InsertedLeft(m: Memory, a: seq<Block>, c: Block, b: seq<Block>, h: Block)
    requires Linked(m, a + ([c] + b), 0) && Placed(a + ([c] + b)) && Sound(h) && ApartAll(a + ([c] + b), h) &&
             c.End() == h.addr
    ensures c.size + h.size < SPACE
    ensures var p := JoinStep(PutWord(m, c.addr + 4, c.size + h.size), h.addr);
            Linked(p, a + After(c, h, b), 0) && Changed(m, p, [c, h])
  {
    hide Linked, Changed, PutWord, Placed, Joined, SizeAt, NextAt;
    var n := PutWord(m, c.addr + 4, c.size + h.size);
    GrowLeft(m, a, c, b, c.size + h.size);
    StaleJoin(n, a, c, b, h);
    SameAll(n, [h]);
    ChangedMore(m, n, JoinStep(n, h.addr), c, h);
  }

  /** The new block lies behind `c` without touching it. */
  lemma InsertedBehind(m: Memory, a: seq<Block>, c: Block, b: seq<Block>, h: Block)
    requires Linked(m, a + ([c] + b), 0) && Placed(a + ([c] + b)) && Sound(h) && ApartAll(a + ([c] + b), h) &&
             IsHeader(m, h, 0)
    requires c.End() != h.addr
    ensures var p := JoinStep(Behind(m, c, h), h.addr);
            Linked(p, a + After(c, h, b), 0) && Changed(m, p, [c, h])
  {
    hide Linked, Changed, PutWord, Joined, IsHeader, JoinNext, Behind, JoinStep, Sorted;
    var n := Behind(m, c, h);
    LinkBehind(m, a, c, b, h);
    PartsPlaced(a, c, b);
    ApartParts(a, c, b, h);
    PlacedSlice(a + ([c] + b), 0, |a| + 1);
    assert (a + ([c] + b))[0..|a| + 1] == a + [c];
    assert a + ([c] + ([h] + b)) == (a + [c]) + ([h] + b);
    assert ApartAll(a + [c], h);
    JoinDone(n, a + [c], h, b);
    assert (a + [c]) + JoinNext(h, b) == a + ([c] + JoinNext(h, b));
    ChangedMore(m, n, JoinStep(n, h.addr), c, h);
  }

  // ---- taking a block ----

  /** The flag word with its lowest bit set (malloc.c:121). */
  function SetUsed(flags: nat): (r: nat)
    requires flags < SPACE
    ensures r < SPACE
  {
    if flags % 2 == 0 then flags + 1 else flags
  }

  ghost predicate Within(b: Block, c: Block) {
    c.addr <= b.addr && b.End() <= c.End()
  }

  lemma ChangedWithin(m: Memory, n: Memory, b: Block, c: Block)
    requires Changed(m, n, [b]) && Within(b, c)
    ensures Changed(m, n, [c])
  {
    forall x | 0 <= x < SPACE && Cover([c], x) == 0
      ensures Cover([b], x) == 0
    {
      CoverParts(b, c, x);
    }
  }

  /** The block is taken whole. */
  lemma TakenWhole(m: Memory, c: Block)
    requires Sound(c) && IsHeader(m, c, 0)
    ensures var n := PutWord(m, c.addr, SetUsed(FlagsAt(m, c.addr)));
            IsHeader(n, c, 1) && NextAt(n, c.addr) == NextAt(m, c.addr) && Changed(m, n, [c])
  {
    hide Changed, PutWord;
    SetField(m, c, 0, SetUsed(FlagsAt(m, c.addr)));
  }

  /** The header of the second half is written (malloc.c:127-130). */
  ghost function NewHalf(m: Memory, c: nat, size: nat): Memory {
    var h := (c + size) % SPACE;
    var m1 := PutWord(m, h, 0);
    var m2 := PutWord(m1, h + 4, (SizeAt(m1, c) - size) % SPACE);
    PutWord(m2, h + 8, NextAt(m2, c))
  }

  lemma NewHalfFields(m: Memory, c: Block, size: nat)
    requires Sound(c) && IsHeader(m, c, 0) && HEADER <= size && size + HEADER <= c.size
    ensures var n, h := NewHalf(m, c.addr, size), Block(c.addr + size, c.size - size);
            && IsHeader(n, h, 0) && NextAt(n, h.addr) == NextAt(m, c.addr)
            && FlagsAt(n, c.addr) == 0 && Changed(m, n, [h])
  {
    hide Changed, PutWord, FlagsAt, SizeAt, NextAt;
    var h, k := Block(c.addr + size, c.size - size), Block(c.addr, HEADER);
    InSpace(h.addr);
    InSpace(c.size - size);
    var m1 := PutWord(m, h.addr, 0);
    SetField(m, h, 0, 0);
    HeaderStays(m, m1, [h], k);
    var m2 := PutWord(m1, h.addr + 4, c.size - size);
    SetField(m1, h, 4, c.size - size);
    HeaderStays(m1, m2, [h], k);
    var m3 := PutWord(m2, h.addr + 8, NextAt(m2, c.addr));
    SetField(m2, h, 8, NextAt(m2, c.addr));
    HeaderStays(m2, m3, [h], k);
    ChangedJoin(m, m1, m2, [h], [h], [h]);
    ChangedJoin(m, m2, m3, [h], [h], [h]);
  }

  /** The first half is cut to size and marked (malloc.c:131-132). */
  ghost function FirstHalf(m: Memory, c: nat, size: nat): Memory
    requires size < SPACE
  {
    var n := PutWord(m, c + 4, size);
    PutWord(n, c, SetUsed(FlagsAt(n, c)))
  }

  lemma FirstHalfFields(m: Memory, c: Block, size: nat)
    requires Sound(c) && FlagsAt(m, c.addr) == 0 && HEADER <= size && size + HEADER <= c.size
    ensures var n, b := FirstHalf(m, c.addr, size), Block(c.addr, size);
            IsHeader(n, b, 1) && Changed(m, n, [b])
  {
    hide Changed, PutWord, FlagsAt, SizeAt, NextAt;
    var b := Block(c.addr, size);
    var n := PutWord(m, c.addr + 4, size);
    SetField(m, b, 4, size);
    var p := PutWord(n, c.addr, SetUsed(FlagsAt(n, c.addr)));
    SetField(n, b, 0, SetUsed(FlagsAt(n, c.addr)));
    ChangedJoin(m, n, p, [b], [b], [b]);
  }

  ghost function Halves(m: Memory, c: nat, size: nat): Memory
    requires size < SPACE
  {
    FirstHalf(NewHalf(m, c, size), c, size)
  }

  lemma TakenSplit(m: Memory, c: Block, size: nat)
    requires Sound(c) && IsHeader(m, c, 0) && HEADER <= size && size + HEADER <= c.size
    ensures var n, h := Halves(m, c.addr, size), Block(c.addr + size, c.size - size);
            && IsHeader(n, Block(c.addr, size), 1) && IsHeader(n, h, 0) && NextAt(n, h.addr) == NextAt(m, c.addr)
            && Changed(m, n, [c])
  {
    hide Changed, FlagsAt, SizeAt, NextAt, NewHalf, FirstHalf;
    var b, h := Block(c.addr, size), Block(c.addr + size, c.size - size);
    var n := NewHalf(m, c.addr, size);
    var p := FirstHalf(n, c.addr, size);
    NewHalfFields(m, c, size);
    FirstHalfFields(n, c, size);
    HeaderStays(n, p, [b], h);
    ChangedWithin(m, n, h, c);
    ChangedWithin(n, p, b, c);
    ChangedJoin(m, n, p, [c], [c], [c]);
  }

  /** The list without the taken block `x`, when blocks remain before it. */
  lemma Relinked(m: Memory, a: seq<Block>, last: Block, x: Block, t: seq<Block>)
    requires Linked(m, a + [last], x.addr) && Linked(m, t, 0) && Placed(a + ([last] + t)) &&
             ApartAll(a + ([last] + t), x)
    requires IsHeader(m, x, 1) && Sound(x)
    ensures First(t, 0) < SPACE
    ensures var p := PutWord(m, last.addr + 8, First(t, 0));
            Linked(p, a + ([last] + t), 0) && IsHeader(p, x, 1) && Changed(m, p, [last])
  {
    hide Linked, Changed, PutWord, FlagsAt, SizeAt, NextAt, Sorted, HeadersApart;
    Around(a, last, t);
    assert |t| > 0 ==> t[0].End() < SPACE;
    LinkedJoin(m, a, [last], x.addr);
    LinkedOne(m, last, x.addr);
    var p := PutWord(m, last.addr + 8, First(t, 0));
    SetField(m, last, 8, First(t, 0));
    Replace(m, p, a, last, last, t);
    ApartParts(a, last, t, x);
    HeaderStays(m, p, [last], x);
  }

  /** Memory and first block after the block at `cur`, found behind `last`, is taken (malloc.c:120-136). */
  ghost function CutMem(m: Memory, cur: nat, last: nat, size: nat): Memory
    requires size < SPACE
  {
    if size == SizeAt(m, cur) then
      var n := PutWord(m, cur, SetUsed(FlagsAt(m, cur)));
      if last == 0 then n else PutWord(n, last + 8, NextAt(n, cur))
    else
      var n := Halves(m, cur, size);
      if last == 0 then n else PutWord(n, last + 8, (cur + size) % SPACE)
  }

  ghost function CutFirst(m: Memory, first: nat, cur: nat, last: nat, size: nat): nat
    requires size < SPACE
  {
    if last != 0 then first
    else if size == SizeAt(m, cur) then NextAt(PutWord(m, cur, SetUsed(FlagsAt(m, cur))), cur)
    else (cur + size) % SPACE
  }

  function Last(free: seq<Block>, k: nat): nat
    requires k <= |free|
  {
    if k == 0 then 0 else free[k - 1].addr
  }

  /** Memory before the link: the taken block is marked, and what is left leads to the rest of the list. */
  lemma CutHalf(m: Memory, a: seq<Block>, c: Block, b: seq<Block>, size: nat)
    requires Linked(m, a + ([c] + b), 0) && Placed(a + ([c] + b)) && Suits(c, size) && HEADER <= size < SPACE
    ensures var n := if size == c.size then PutWord(m, c.addr, SetUsed(FlagsAt(m, c.addr)))
                     else Halves(m, c.addr, size);
            && Linked(n, a, c.addr) && Linked(n, Left(c, size) + b, 0) && IsHeader(n, Block(c.addr, size), 1)
            && Changed(m, n, [c]) && SizeAt(m, c.addr) == c.size
            && First(Left(c, size) + b, 0) == if size == c.size then NextAt(n, c.addr) else (c.addr + size) % SPACE
  {
    hide Linked, Changed, PutWord, FlagsAt, SizeAt, NextAt, HeadersApart, Halves, Placed;
    NextIs(m, a, c, b);
    Around(a, c, b);
    if size == c.size {
      var n := PutWord(m, c.addr, SetUsed(FlagsAt(m, c.addr)));
      TakenWhole(m, c);
      LinkedStays(m, n, [c], a, c.addr);
      LinkedStays(m, n, [c], b, 0);
      assert Left(c, size) + b == b;
    } else {
      var n, h := Halves(m, c.addr, size), Block(c.addr + size, c.size - size);
      TakenSplit(m, c, size);
      LinkedStays(m, n, [c], a, c.addr);
      LinkedStays(m, n, [c], b, 0);
      LinkedOne(n, h, First(b, 0));
      LinkedJoin(n, [h], b, 0);
      InSpace(h.addr);
    }
  }

  lemma ChangedFree(m: Memory, n: Memory, bs: seq<Block>, free: seq<Block>)
    requires Changed(m, n, bs) && forall i :: 0 <= i < |bs| ==> bs[i] in free
    ensures Changed(m, n, free)
  {
    forall x | 0 <= x < SPACE && Cover(free, x) == 0
      ensures Cover(bs, x) == 0
    {
      forall i | 0 <= i < |bs|
        ensures Has(bs[i], x) == 0
      {
        var j :| 0 <= j < |free| && free[j] == bs[i];
        CoverAt(free, j, x);
      }
      CoverNone(bs, x);
    }
  }

  /** The first block is taken. */
  lemma CutFront(m: Memory, c: Block, b: seq<Block>, size: nat)
    requires Linked(m, [] + ([c] + b), 0) && Placed([] + ([c] + b)) && Suits(c, size) && HEADER <= size < SPACE
    ensures var p, t := CutMem(m, c.addr, 0, size), Left(c, size) + b;
            && Linked(p, t, 0) && CutFirst(m, c.addr, c.addr, 0, size) == First(t, 0)
            && IsHeader(p, Block(c.addr, size), 1) && Changed(m, p, [c])
  {
    hide Linked, Changed, PutWord, FlagsAt, SizeAt, NextAt, Halves, Placed, Left;
    CutHalf(m, [], c, b, size);
  }

  /** A block behind another one is taken. */
  lemma CutBehind(m: Memory, a: seq<Block>, last: Block, c: Block, b: seq<Block>, size: nat)
    requires Linked(m, (a + [last]) + ([c] + b), 0) && Placed((a + [last]) + ([c] + b)) && Suits(c, size) &&
             HEADER <= size < SPACE
    requires var t := Left(c, size) + b; Placed(a + ([last] + t)) && ApartAll(a + ([last] + t), Block(c.addr, size))
    ensures var p, t := CutMem(m, c.addr, last.addr, size), Left(c, size) + b;
            && Linked(p, a + ([last] + t), 0) && IsHeader(p, Block(c.addr, size), 1) && Changed(m, p, [last, c])
  {
    hide Linked, Changed, PutWord, FlagsAt, SizeAt, NextAt, Halves, Placed, ApartAll, Left;
    var n := if size == c.size then PutWord(m, c.addr, SetUsed(FlagsAt(m, c.addr))) else Halves(m, c.addr, size);
    CutHalf(m, a + [last], c, b, size);
    PartsPlaced(a, last, Left(c, size) + b);
    PartsPlaced(a + [last], c, b);
    Relinked(n, a, last, Block(c.addr, size), Left(c, size) + b);
    ChangedTwo(m, n, CutMem(m, c.addr, last.addr, size), last, c);
  }

  lemma CutDone(m: Memory, first: nat, free: seq<Block>, k: nat, size: nat)
    requires OnList(m, first, free) && k < |free| && Suits(free[k], size) && HEADER <= size < SPACE
    ensures var c, l := free[k].addr, Last(free, k);
            && OnList(CutMem(m, c, l, size), CutFirst(m, first, c, l, size), Take(free, k, size))
            && IsHeader(CutMem(m, c, l, size), Block(c, size), 1) && Changed(m, CutMem(m, c, l, size), free)
  {
    hide Linked, Changed, IsHeader, CutMem, CutFirst, Sorted, Left, Sized, Below;
    var c, b, l := free[k], free[k + 1..], Last(free, k);
    var t, p := Left(c, size) + b, CutMem(m, c.addr, l, size);
    TakeSorted(free, k, size);
    TakeBelow(free, k, size);
    if k == 0 {
      assert free == [] + ([c] + b) && Take(free, k, size) == t;
      CutFront(m, c, b, size);
      ChangedFree(m, p, [c], free);
    } else {
      var last, a := free[k - 1], free[..k - 1];
      assert free == (a + [last]) + ([c] + b) && Take(free, k, size) == a + ([last] + t);
      CutBehind(m, a, last, c, b, size);
      ChangedFree(m, p, [last, c], free);
      FirstKept(m, free, k, size, first);
    }
  }

  lemma FirstKept(m: Memory, free: seq<Block>, k: nat, size: nat, first: nat)
    requires 0 < k < |free| && Suits(free[k], size) && size < SPACE && first == First(free, 0) && Sized(free)
    ensures CutFirst(m, first, free[k].addr, Last(free, k), size) == First(Take(free, k, size), 0)
  {
  }

  lemma TakeBelow(free: seq<Block>, k: nat, size: nat)
    requires Below(free) && k < |free| && Suits(free[k], size)
    ensures Below(Take(free, k, size))
  {
  }

  /** Whatever the request, the size field of the taken block is the request. */
  lemma CutSize(m: Memory, free: seq<Block>, k: nat, size: nat)
    requires Linked(m, free, 0) && Placed(free) && k < |free| && size < SPACE
    ensures SizeAt(CutMem(m, free[k].addr, Last(free, k), size), free[k].addr) == size
  {
    hide Linked, Changed, PutWord, FlagsAt, NextAt, NewHalf, Sorted, Word, SameOutside;
    var c := free[k];
    var n := if size == SizeAt(m, c.addr) then PutWord(m, c.addr, SetUsed(FlagsAt(m, c.addr)))
             else Halves(m, c.addr, size);
    if size == SizeAt(m, c.addr) {
      PutGet(m, c.addr, SetUsed(FlagsAt(m, c.addr)));
      WordKept(m, n, c.addr, c.addr + 4, c.addr + 4);
    } else {
      var h := NewHalf(m, c.addr, size);
      var q := PutWord(h, c.addr + 4, size);
      PutGet(h, c.addr + 4, size);
      PutGet(q, c.addr, SetUsed(FlagsAt(q, c.addr)));
      WordKept(q, n, c.addr, c.addr + 4, c.addr + 4);
    }
    if k > 0 {
      var v := if size == SizeAt(m, c.addr) then NextAt(n, c.addr) else (c.addr + size) % SPACE;
      BeforeIt(free, k);
      PutGet(n, free[k - 1].addr + 8, v);
      WordKept(n, PutWord(n, free[k - 1].addr + 8, v), free[k - 1].addr + 8, free[k - 1].addr + 12, c.addr + 4);
    }
  }

  lemma BeforeIt(free: seq<Block>, k: nat)
    requires Placed(free) && 0 < k < |free|
    ensures free[k - 1].addr + HEADER <= free[k].addr && free[k - 1].addr > 0
  {
    assert free[k - 1].End() <= free[k].addr;
  }
}
