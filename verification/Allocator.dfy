/** The allocator of kernel2/malloc.c as an object: every byte it was given has one owner at any time. */
module Allocator {
  import opened Memory32
  import opened FreeList
  import opened Malloc

  // ---- ownership ----

  /** Every byte given to the allocator lies in exactly one block, free or in use; no other byte lies in one. */
  ghost predicate Owned(free: seq<Block>, live: seq<Block>, given: seq<Block>) {
    && (forall x :: Cover(free, x) + Cover(live, x) == Cover(given, x) <= 1)
    && Total(free) + Total(live) == Total(given)
  }

  lemma ApartByCover(bs: seq<Block>, b: Block)
    requires Sized(bs) && b.size > 0 && forall x :: Cover(bs, x) + Has(b, x) <= 1
    ensures ApartAll(bs, b)
  {
    forall i | 0 <= i < |bs|
      ensures Apart(bs[i], b)
    {
      var x := if bs[i].addr < b.addr then b.addr else bs[i].addr;
      CoverAt(bs, i, x);
      assert Cover(bs, x) + Has(b, x) <= 1;
    }
  }

  /** Blocks in use overlap neither each other nor free blocks. */
  lemma OwnedApart(free: seq<Block>, live: seq<Block>, given: seq<Block>)
    requires Owned(free, live, given) && Sized(free) && Sized(live)
    ensures ApartLists(live, free)
    ensures forall i, j :: 0 <= i < j < |live| ==> Apart(live[i], live[j])
  {
    forall i | 0 <= i < |live|
      ensures ApartAll(free, live[i])
    {
      LiveFree(free, live, given, i);
    }
    forall i, j | 0 <= i < j < |live|
      ensures Apart(live[i], live[j])
    {
      var x := if live[i].addr < live[j].addr then live[j].addr else live[i].addr;
      CoverTwo(live, i, j, x);
      assert Cover(free, x) + Cover(live, x) <= 1;
    }
  }

  lemma LiveFree(free: seq<Block>, live: seq<Block>, given: seq<Block>, i: nat)
    requires Owned(free, live, given) && Sized(free) && Sized(live) && i < |live|
    ensures ApartAll(free, live[i])
  {
    forall x
      ensures Cover(free, x) + Has(live[i], x) <= 1
    {
      CoverAt(live, i, x);
      assert Cover(free, x) + Cover(live, x) <= 1;
    }
    ApartByCover(free, live[i]);
  }

  /** A byte that is given belongs to one block and to no other. */
  lemma OneOwner(free: seq<Block>, live: seq<Block>, given: seq<Block>, x: int)
    requires Owned(free, live, given) && Cover(given, x) > 0
    ensures Cover(free + live, x) == 1
  {
    CoverJoin(free, live, x);
    assert Cover(free, x) + Cover(live, x) == Cover(given, x) <= 1;
  }

  function Drop(live: seq<Block>, i: nat): seq<Block>
    requires i < |live|
  {
    live[..i] + live[i + 1..]
  }

  lemma DropCovers(live: seq<Block>, i: nat, x: int)
    requires i < |live|
    ensures Cover(live, x) == Cover(Drop(live, i), x) + Has(live[i], x) &&
            Total(live) == Total(Drop(live, i)) + live[i].size
  {
    assert live == live[..i] + ([live[i]] + live[i + 1..]);
    CoverJoin(live[..i], [live[i]] + live[i + 1..], x);
    CoverJoin([live[i]], live[i + 1..], x);
    CoverJoin(live[..i], live[i + 1..], x);
    CoverParts(live[i], live[i], x);
    assert Total([]) == 0;
  }

  lemma CoverSnoc(bs: seq<Block>, b: Block, x: int)
    ensures Cover(bs + [b], x) == Cover(bs, x) + Has(b, x) && Total(bs + [b]) == Total(bs) + b.size
  {
    CoverJoin(bs, [b], x);
    CoverParts(b, b, x);
    assert Total([]) == 0;
  }

  /** Memory that no block overlaps is donated. */
  ghost predicate Fresh(given: seq<Block>, b: Block) {
    forall x :: Cover(given, x) + Has(b, x) <= 1
  }

  lemma OwnedDonate(free: seq<Block>, live: seq<Block>, given: seq<Block>, h: Block)
    requires Owned(free, live, given) && Fresh(given, h)
    ensures Owned(Insert(free, h), live, given + [h])
  {
    hide Insert;
    forall x
      ensures Cover(Insert(free, h), x) + Cover(live, x) == Cover(given + [h], x) <= 1
    {
      InsertCovers(free, h, x);
      CoverSnoc(given, h, x);
      assert Cover(free, x) + Cover(live, x) == Cover(given, x);
      assert Cover(given, x) + Has(h, x) <= 1;
    }
    InsertCovers(free, h, 0);
    CoverSnoc(given, h, 0);
  }

  lemma OwnedTake(free: seq<Block>, live: seq<Block>, given: seq<Block>, k: nat, size: nat)
    requires Owned(free, live, given) && k < |free| && Suits(free[k], size)
    ensures Owned(Take(free, k, size), live + [Block(free[k].addr, size)], given)
  {
    hide Take;
    var b := Block(free[k].addr, size);
    forall x
      ensures Cover(Take(free, k, size), x) + Cover(live + [b], x) == Cover(given, x) <= 1
    {
      TakeCovers(free, k, size, x);
      CoverSnoc(live, b, x);
      assert Cover(free, x) + Cover(live, x) == Cover(given, x);
    }
    TakeCovers(free, k, size, 0);
    CoverSnoc(live, b, 0);
  }

  lemma OwnedFree(free: seq<Block>, live: seq<Block>, given: seq<Block>, i: nat)
    requires Owned(free, live, given) && i < |live|
    ensures Owned(Insert(free, live[i]), Drop(live, i), given)
  {
    hide Insert, Drop;
    forall x
      ensures Cover(Insert(free, live[i]), x) + Cover(Drop(live, i), x) == Cover(given, x) <= 1
    {
      InsertCovers(free, live[i], x);
      DropCovers(live, i, x);
      assert Cover(free, x) + Cover(live, x) == Cover(given, x);
    }
    InsertCovers(free, live[i], 0);
    DropCovers(live, i, 0);
  }

  // ---- states ----

  ghost predicate State(m: Memory, first: nat, free: seq<Block>, live: seq<Block>, given: seq<Block>) {
    OnList(m, first, free) && InUse(m, live) && Sized(live) && Below(live) && Owned(free, live, given)
  }

  lemma ApartSnoc(live: seq<Block>, free: seq<Block>, h: Block)
    requires ApartLists(live, free) && ApartAll(live, h)
    ensures ApartLists(live, free + [h])
  {
    var s := free + [h];
    forall i | 0 <= i < |live|
      ensures ApartAll(s, live[i])
    {
      forall j | 0 <= j < |s|
        ensures Apart(s[j], live[i])
      {
        assert ApartAll(free, live[i]);
        if j < |free| { assert s[j] == free[j]; }
      }
    }
  }

  lemma ChangedWider(m: Memory, n: Memory, free: seq<Block>, h: Block)
    requires Changed(m, n, [h])
    ensures Changed(m, n, free + [h])
  {
    forall x | 0 <= x < SPACE && Cover(free + [h], x) == 0
      ensures Cover([h], x) == 0
    {
      CoverJoin(free, [h], x);
    }
  }

  /** The header of donated memory is written (malloc.c:92-93). */
  ghost function NewHeader(m: Memory, addr: nat, size: nat): Memory
    requires size < SPACE
  {
    PutWord(PutWord(m, addr, 0), addr + 4, size)
  }

  lemma NewHeaderFields(m: Memory, h: Block)
    requires Sound(h)
    ensures IsHeader(NewHeader(m, h.addr, h.size), h, 0) && Changed(m, NewHeader(m, h.addr, h.size), [h])
  {
    hide Changed, PutWord, FlagsAt, SizeAt, NextAt;
    var n := PutWord(m, h.addr, 0);
    SetField(m, h, 0, 0);
    SetField(n, h, 4, h.size);
    ChangedJoin(m, n, NewHeader(m, h.addr, h.size), [h], [h], [h]);
  }

  lemma FreshApart(free: seq<Block>, live: seq<Block>, given: seq<Block>, h: Block)
    requires Owned(free, live, given) && Fresh(given, h) && Sound(h) && Sized(free) && Sized(live)
    ensures ApartAll(free, h) && ApartAll(live, h)
  {
    forall x
      ensures Cover(free, x) + Has(h, x) <= 1 && Cover(live, x) + Has(h, x) <= 1
    {
      assert Cover(free, x) + Cover(live, x) == Cover(given, x);
      assert Cover(given, x) + Has(h, x) <= 1;
    }
    ApartByCover(free, h);
    ApartByCover(live, h);
  }

  /** The list and the blocks in use, when memory only changes in `h`, which is apart from them. */
  lemma OthersStay(m: Memory, n: Memory, first: nat, free: seq<Block>, live: seq<Block>, h: Block)
    requires OnList(m, first, free) && InUse(m, live) && Sized(live) && Below(live)
    requires Changed(m, n, [h]) && ApartAll(free, h) && ApartAll(live, h)
    ensures OnList(n, first, free) && InUse(n, live)
  {
    hide Changed, Linked, InUse, HeadersApart, Sorted;
    HeadersOfOne(free, h);
    HeadersOfOne(live, h);
    LinkedStays(m, n, [h], free, 0);
    InUseStays(m, n, [h], live);
  }

  /** Before the list is changed by a donation. */
  lemma DonateReady(m: Memory, first: nat, free: seq<Block>, live: seq<Block>, given: seq<Block>, h: Block)
    requires State(m, first, free, live, given) && Sound(h) && Fresh(given, h)
    ensures var n := NewHeader(m, h.addr, h.size);
            OnList(n, first, free) && InUse(n, live) && IsHeader(n, h, 0) && Changed(m, n, [h])
    ensures ApartAll(free, h) && ApartLists(live, free + [h])
  {
    hide Changed, Linked, InUse, Sorted, NewHeader, Owned, ApartAll, ApartLists, Fresh;
    FreshApart(free, live, given, h);
    OwnedApart(free, live, given);
    ApartSnoc(live, free, h);
    NewHeaderFields(m, h);
    OthersStay(m, NewHeader(m, h.addr, h.size), first, free, live, h);
  }

  lemma DropApart(live: seq<Block>, i: nat)
    requires i < |live| && forall a, b :: 0 <= a < b < |live| ==> Apart(live[a], live[b])
    ensures ApartAll(Drop(live, i), live[i])
  {
    var d := Drop(live, i);
    forall j | 0 <= j < |d|
      ensures Apart(d[j], live[i])
    {
      if j < i {
        assert Apart(live[j], live[i]);
      } else {
        assert d[j] == live[j + 1];
        assert Apart(live[i], live[j + 1]);
      }
    }
  }

  lemma DropParts(m: Memory, live: seq<Block>, free: seq<Block>, i: nat)
    requires i < |live| && InUse(m, live) && Sized(live) && Below(live) && ApartLists(live, free)
    ensures InUse(m, Drop(live, i)) && Sized(Drop(live, i)) && Below(Drop(live, i)) && ApartLists(Drop(live, i), free)
    ensures Sound(live[i]) && IsHeader(m, live[i], 1) && ApartAll(free, live[i])
  {
    hide IsHeader, ApartAll;
    var d := Drop(live, i);
    forall j | 0 <= j < |d|
      ensures IsHeader(m, d[j], 1) && d[j].addr >= HEADER && d[j].size >= HEADER && d[j].End() < SPACE &&
              ApartAll(free, d[j])
    {
      var k := if j < i then j else j + 1;
      assert d[j] == live[k];
    }
  }

  /** Before the list is changed by free: the block is marked (malloc.c:189). */
  lemma FreeReady(m: Memory, first: nat, free: seq<Block>, live: seq<Block>, given: seq<Block>, i: nat)
    requires State(m, first, free, live, given) && i < |live|
    ensures Sound(live[i]) && ApartAll(free, live[i]) && ApartLists(Drop(live, i), free + [live[i]])
    ensures var n, h := PutWord(m, live[i].addr, 0), live[i];
            OnList(n, first, free) && InUse(n, Drop(live, i)) && IsHeader(n, h, 0) && Changed(m, n, [h])
    ensures Sized(Drop(live, i)) && Below(Drop(live, i))
  {
    hide Changed, Linked, InUse, Sorted, PutWord, Owned, ApartAll, ApartLists, FlagsAt, SizeAt, NextAt, Drop;
    OwnedApart(free, live, given);
    DropParts(m, live, free, i);
    DropApart(live, i);
    ApartSnoc(Drop(live, i), free, live[i]);
    SetField(m, live[i], 0, 0);
    OthersStay(m, PutWord(m, live[i].addr, 0), first, free, Drop(live, i), live[i]);
  }

  /** A block was inserted. */
  lemma InsertKeeps(m: Memory, n: Memory, free: seq<Block>, live: seq<Block>, h: Block)
    requires InUse(m, live) && Sized(live) && Below(live) && ApartLists(live, free + [h]) && Changed(m, n, free + [h])
    ensures InUse(n, live)
  {
    hide Changed, InUse, HeadersApart, ApartLists;
    HeadersOf(live, free + [h]);
    InUseStays(m, n, free + [h], live);
  }

  /** A block was taken. */
  lemma TakeKeeps(m: Memory, n: Memory, free: seq<Block>, live: seq<Block>, given: seq<Block>, b: Block)
    requires InUse(m, live) && Sized(live) && Below(live) && Sized(free) && Owned(free, live, given) &&
             Changed(m, n, free)
    requires IsHeader(n, b, 1) && Sound(b)
    ensures InUse(n, live + [b]) && Sized(live + [b]) && Below(live + [b])
  {
    hide Changed, IsHeader, HeadersApart, ApartLists, Owned;
    OwnedApart(free, live, given);
    HeadersOf(live, free);
    InUseStays(m, n, free, live);
  }

  // ---- requests ----

  /** The pages that the page allocator supplies, in turn; it returns 0 when it has none. */
  function Pages(pages: seq<nat>): seq<Block> {
    if |pages| == 0 then [] else (if pages[0] == 0 then [] else [Block(pages[0], PAGE_SIZE)]) + Pages(pages[1..])
  }

  /** No page overlaps another one or memory given before. */
  ghost predicate Supply(given: seq<Block>, pages: seq<nat>) {
    && (forall i :: 0 <= i < |pages| && pages[i] != 0 ==> Sound(Block(pages[i], PAGE_SIZE)))
    && forall x :: Cover(given, x) + Cover(Pages(pages), x) <= 1
  }

  lemma SupplyNext(given: seq<Block>, pages: seq<nat>)
    requires |pages| > 0 && Supply(given, pages)
    ensures pages[0] == 0 ==> Pages(pages) == Pages(pages[1..]) && Supply(given, pages[1..])
    ensures pages[0] != 0 ==> var b := Block(pages[0], PAGE_SIZE);
                              && Sound(b) && Fresh(given, b) && Pages(pages) == [b] + Pages(pages[1..])
                              && Supply(given + [b], pages[1..])
  {
    if pages[0] == 0 {
      assert [] + Pages(pages[1..]) == Pages(pages[1..]);
    } else {
      var b := Block(pages[0], PAGE_SIZE);
      forall x
        ensures Cover(given, x) + Has(b, x) <= 1 && Cover(given + [b], x) + Cover(Pages(pages[1..]), x) <= 1
      {
        assert Cover(given, x) + Cover(Pages(pages), x) <= 1;
        CoverJoin([b], Pages(pages[1..]), x);
        CoverParts(b, b, x);
        CoverSnoc(given, b, x);
      }
    }
  }

  /** The test of _malloc_getfree, with the sum in 32 bits. */
  ghost predicate Taken(b: Block, size: nat) {
    b.size == size || b.size >= (size + HEADER) % SPACE
  }

  /** The list after the given number of pages was added to it. */
  ghost function Fed(free: seq<Block>, pages: seq<nat>, n: nat): seq<Block>
    requires n <= |pages|
  {
    if n == 0 then free
    else
      var f := Fed(free, pages, n - 1);
      if pages[n - 1] == 0 then f else Insert(f, Block(pages[n - 1], PAGE_SIZE))
  }

  ghost predicate NoneTaken(free: seq<Block>, size: nat) {
    forall i :: 0 <= i < |free| ==> !Taken(free[i], size)
  }

  ghost predicate FirstTaken(free: seq<Block>, k: nat, size: nat) {
    k < |free| && Taken(free[k], size) && forall i :: 0 <= i < k ==> !Taken(free[i], size)
  }

  lemma LinkAt(m: Memory, free: seq<Block>, k: nat)
    requires Linked(m, free, 0) && k < |free| && Placed(free)
    ensures NextAt(m, free[k].addr) == (if k + 1 < |free| then free[k + 1].addr else 0) &&
            SizeAt(m, free[k].addr) == free[k].size
    ensures free[k].addr > 0 && free[k].End() < SPACE
  {
    hide NextAt, SizeAt, FlagsAt, Sorted;
    assert IsHeader(m, free[k], 0) && NextAt(m, free[k].addr) == First(free[k + 1..], 0);
  }

  lemma FreeIs(free: seq<Block>, k: nat)
    requires k < |free|
    ensures free == free[..k] + ([free[k]] + free[k + 1..])
  {
  }

  lemma InsertedPlaced(free: seq<Block>, h: Block)
    requires Placed(free) && Sound(h) && ApartAll(free, h)
    ensures Placed(Insert(free, h))
  {
    hide Insert, Sorted;
    InsertSorted(free, h, 0);
    InsertBelow(free, h, SPACE);
  }

  /** The memory after _malloc_insertlist when the new block comes first. */
  lemma FrontDone(m: Memory, first: nat, free: seq<Block>, h: Block)
    requires OnList(m, first, free) && Sound(h) && ApartAll(free, h) && IsHeader(m, h, 0) &&
             (|free| == 0 || h.addr < free[0].addr)
    ensures First(free, 0) < SPACE
    ensures var p := JoinStep(PutWord(m, h.addr + 8, First(free, 0)), h.addr);
            OnList(p, h.addr, Insert(free, h)) && Changed(m, p, free + [h])
  {
    hide Linked, Changed, PutWord, JoinStep, IsHeader, Sorted;
    InsertedFront(m, free, h);
    InsertedPlaced(free, h);
    ChangedWider(m, JoinStep(PutWord(m, h.addr + 8, First(free, 0)), h.addr), free, h);
  }

  lemma AfterFirst(free: seq<Block>, h: Block, k: nat)
    requires k < |free|
    ensures First(free[..k] + After(free[k], h, free[k + 1..]), 0) == free[0].addr
  {
  }

  lemma ChangedPair(m: Memory, n: Memory, free: seq<Block>, k: nat, h: Block)
    requires k < |free| && Changed(m, n, [free[k], h])
    ensures Changed(m, n, free + [h])
  {
    var all := free + [h];
    assert all[k] == free[k] && all[|free|] == h;
    ChangedFree(m, n, [free[k], h], all);
  }

  /** The memory after _malloc_insertlist when the new block comes behind block `k`. */
  lemma BehindDone(m: Memory, first: nat, free: seq<Block>, k: nat, h: Block)
    requires OnList(m, first, free) && Sound(h) && ApartAll(free, h) && IsHeader(m, h, 0) && Between(free, h, k)
    ensures free[k].End() == h.addr ==> free[k].size + h.size < SPACE
    ensures var c := free[k];
            var n := if c.End() == h.addr then PutWord(m, c.addr + 4, c.size + h.size) else Behind(m, c, h);
            var p := JoinStep(n, h.addr);
            OnList(p, first, Insert(free, h)) && Changed(m, p, free + [h])
  {
    hide Linked, Changed, PutWord, JoinStep, IsHeader, Sorted, Behind, After, Insert;
    var c := free[k];
    FreeIs(free, k);
    InsertAt(free, h, k);
    InsertedPlaced(free, h);
    AfterFirst(free, h, k);
    if c.End() == h.addr {
      InsertedLeft(m, free[..k], c, free[k + 1..], h);
      ChangedPair(m, JoinStep(PutWord(m, c.addr + 4, c.size + h.size), h.addr), free, k, h);
    } else {
      InsertedBehind(m, free[..k], c, free[k + 1..], h);
      ChangedPair(m, JoinStep(Behind(m, c, h), h.addr), free, k, h);
    }
  }

  lemma {:induction false} PagesSnoc(pages: seq<nat>, n: nat)
    requires n < |pages|
    ensures Pages(pages[..n + 1]) == Pages(pages[..n]) + if pages[n] == 0 then [] else [Block(pages[n], PAGE_SIZE)]
  {
    if n > 0 {
      PagesSnoc(pages[1..], n - 1);
      assert pages[..n + 1][1..] == pages[1..][..n] && pages[..n][1..] == pages[1..][..n - 1];
    } else {
      assert pages[..1][1..] == [] && pages[..0] == [];
    }
  }

  /** What became of the free bytes: none was handed out, and the pages were added. */
  lemma GrownFree(free: seq<Block>, live: seq<Block>, given: seq<Block>, more: seq<Block>, free': seq<Block>, x: int)
    requires Owned(free, live, given) && Owned(free', live, given + more)
    ensures Cover(free', x) == Cover(free + more, x)
  {
    CoverJoin(free, more, x);
    CoverJoin(given, more, x);
    assert Cover(free, x) + Cover(live, x) == Cover(given, x);
    assert Cover(free', x) + Cover(live, x) == Cover(given + more, x);
  }

  lemma ChangedGrown(m: Memory, n: Memory, p: Memory, free: seq<Block>, live: seq<Block>, given: seq<Block>,
                     more: seq<Block>, free': seq<Block>, h: seq<Block>)
    requires Owned(free, live, given) && Owned(free', live, given + more)
    requires Changed(m, n, free + more) && Changed(n, p, free' + h)
    ensures Changed(m, p, free + (more + h))
  {
    hide Owned;
    forall x | 0 <= x < SPACE && Cover(free + (more + h), x) == 0
      ensures m[x] == p[x]
    {
      GrownFree(free, live, given, more, free', x);
      CoverJoin(free, more + h, x);
      CoverJoin(more, h, x);
      CoverJoin(free, more, x);
      CoverJoin(free', h, x);
    }
  }

  /** A request that does not wrap around is served as intended. */
  lemma TakenSuits(b: Block, size: nat)
    requires size + HEADER < SPACE
    ensures Taken(b, size) == Suits(b, size)
  {
    InSpace(size + HEADER);
  }

  /** The taken block is in use now: `m` and `n` are the memory before and after. */
  lemma TakeDone(m: Memory, n: Memory, first: nat, first': nat, free: seq<Block>, live: seq<Block>, given: seq<Block>,
                 k: nat, size: nat)
    requires State(m, first, free, live, given) && k < |free| && Suits(free[k], size) && HEADER <= size
    requires OnList(n, first', Take(free, k, size)) && IsHeader(n, Block(free[k].addr, size), 1) && Changed(m, n, free)
    ensures State(n, first', Take(free, k, size), live + [Block(free[k].addr, size)], given)
  {
    hide OnList, Changed, InUse, Owned, Take, IsHeader;
    FreeSized(m, first, free, k);
    OwnedTake(free, live, given, k, size);
    TakeKeeps(m, n, free, live, given, Block(free[k].addr, size));
  }

  lemma FreeSized(m: Memory, first: nat, free: seq<Block>, k: nat)
    requires OnList(m, first, free) && k < |free|
    ensures Sized(free) && Sound(free[k]) && first == free[0].addr && Linked(m, free, 0) && Placed(free)
  {
  }

  /** The whole block, header and data, is the same in both memories. */
  ghost predicate SameBytes(m: Memory, n: Memory, b: Block) {
    forall x :: b.addr <= x < b.End() && x < SPACE ==> m[x] == n[x]
  }

  /** Changes inside free blocks and newly given memory spare the blocks in use. */
  lemma LiveKept(m: Memory, n: Memory, free: seq<Block>, live: seq<Block>, given: seq<Block>, more: seq<Block>)
    requires Owned(free, live, given) && Changed(m, n, free + more) && forall x :: Cover(given, x) + Cover(more, x) <= 1
    ensures forall i :: 0 <= i < |live| ==> SameBytes(m, n, live[i])
  {
    forall i, x | 0 <= i < |live| && live[i].addr <= x < live[i].End() && x < SPACE
      ensures m[x] == n[x]
    {
      CoverAt(live, i, x);
      CoverJoin(free, more, x);
      assert Cover(free, x) + Cover(live, x) == Cover(given, x);
      assert Cover(given, x) + Cover(more, x) <= 1;
    }
  }

  lemma SupplyFirst(given: seq<Block>, pages: seq<nat>, n: nat)
    requires Supply(given, pages) && n <= |pages|
    ensures forall x :: Cover(given, x) + Cover(Pages(pages[..n]), x) <= 1
  {
    forall x
      ensures Cover(given, x) + Cover(Pages(pages[..n]), x) <= 1
    {
      assert Cover(given, x) + Cover(Pages(pages), x) <= 1;
      PagesJoin(pages, n);
      CoverJoin(Pages(pages[..n]), Pages(pages[n..]), x);
    }
  }

  lemma {:induction false} PagesJoin(pages: seq<nat>, n: nat)
    requires n <= |pages|
    ensures Pages(pages) == Pages(pages[..n]) + Pages(pages[n..])
  {
    if n == 0 {
      assert pages[..0] == [] && pages[0..] == pages;
    } else {
      PagesJoin(pages[1..], n - 1);
      assert pages[..n][1..] == pages[1..][..n - 1] && pages[1..][n - 1..] == pages[n..];
    }
  }

  /** A request whose size wraps around, alone or with a second header, records no usable block. */
  lemma WrappedRequest(cur: nat, size: nat)
    requires HEADER <= cur && size < SPACE
    ensures var b := (size + HEADER) % SPACE;
            size + 2 * HEADER < SPACE <==> HEADER <= b && b + HEADER < SPACE
    ensures size + 2 * HEADER >= SPACE ==> !Sound(Block(cur, (size + HEADER) % SPACE))
    ensures size + 2 * HEADER < SPACE ==> (size + HEADER) % SPACE == size + HEADER
  {
    if size + HEADER < SPACE {
      InSpace(size + HEADER);
    } else {
      assert (size + HEADER) % SPACE == size + HEADER - SPACE;
    }
  }

  /**
   * What the search for a block promises: `n` pages were added before the first block that can be taken was block
   * `k`.
   */
  ghost predicate FoundAfter(free: seq<Block>, pages: seq<nat>, n: nat, k: nat, size: nat) {
    && n <= |pages| && FirstTaken(Fed(free, pages, n), k, size)
    && forall u :: 0 <= u < n ==> NoneTaken(Fed(free, pages, u), size)
  }

  lemma GrownNone(m: Memory, free: seq<Block>, given: seq<Block>, pages: seq<nat>)
    ensures given + Pages(pages[..0]) == given && Changed(m, m, free + Pages(pages[..0])) && pages[0..] == pages
  {
    SameAll(m, free + Pages(pages[..0]));
  }

  lemma TakeGrown(m: Memory, n: Memory, p: Memory, free: seq<Block>, live: seq<Block>, given: seq<Block>,
                  more: seq<Block>, free': seq<Block>)
    requires Owned(free, live, given) && Owned(free', live, given + more) && Changed(m, n, free + more) &&
             Changed(n, p, free')
    ensures Changed(m, p, free + more)
  {
    hide Owned, Changed;
    assert free' + [] == free' && more + [] == more;
    ChangedGrown(m, n, p, free, live, given, more, free', []);
  }

  /** An owner writes into its data: headers are out of reach. */
  lemma WriteKeeps(m: Memory, first: nat, free: seq<Block>, live: seq<Block>, given: seq<Block>, i: nat, x: nat,
                   v: octet)
    requires State(m, first, free, live, given) && i < |live| && live[i].addr + HEADER <= x < live[i].End()
    ensures x < SPACE && State(m[x := v], first, free, live, given)
  {
    hide Linked, InUse, Sorted, Owned, HeadersApart, ApartAll, ApartLists, Changed;
    var n, d := m[x := v], Block(live[i].addr + HEADER, live[i].size - HEADER);
    DataChanged(m, n, d, x);
    OwnedApart(free, live, given);
    DataApart(free, live, i, d);
    LinkedStays(m, n, [d], free, 0);
    InUseStays(m, n, [d], live);
  }

  lemma DataChanged(m: Memory, n: Memory, d: Block, x: nat)
    requires d.addr <= x < d.End() && x < SPACE && n == m[x := n[x]]
    ensures Changed(m, n, [d])
  {
    forall y | 0 <= y < SPACE && Cover([d], y) == 0
      ensures m[y] == n[y]
    {
      CoverParts(d, d, y);
    }
  }

  lemma DataApart(free: seq<Block>, live: seq<Block>, i: nat, d: Block)
    requires i < |live| && Sized(free) && Sized(live) && Below(free) && Below(live) && ApartLists(live, free)
    requires forall a, b :: 0 <= a < b < |live| ==> Apart(live[a], live[b])
    requires d == Block(live[i].addr + HEADER, live[i].size - HEADER)
    ensures HeadersApart(free, [d]) && HeadersApart(live, [d])
  {
    assert ApartAll(free, live[i]);
    forall j | 0 <= j < |free|
      ensures ApartAll([d], Block(free[j].addr, HEADER))
    {
      assert Apart(free[j], live[i]);
    }
    forall j | 0 <= j < |live|
      ensures ApartAll([d], Block(live[j].addr, HEADER))
    {
      if j < i {
        assert Apart(live[j], live[i]);
      } else if i < j {
        assert Apart(live[i], live[j]);
      }
    }
  }

  lemma OthersKept(m: Memory, n: Memory, bs: seq<Block>, live: seq<Block>)
    requires Changed(m, n, bs) && ApartLists(live, bs)
    ensures forall j :: 0 <= j < |live| ==> SameBytes(m, n, live[j])
  {
    forall j, x | 0 <= j < |live| && live[j].addr <= x < live[j].End() && x < SPACE
      ensures m[x] == n[x]
    {
      ApartCover(bs, live[j], x);
    }
  }

  class Heap {
    var mem: Memory
    var firstfree: nat
    ghost var free: seq<Block>
    ghost var live: seq<Block>
    ghost var given: seq<Block>

    ghost predicate Valid()
      reads this
    {
      State(mem, firstfree, free, live, given)
    }

    /** malloc_init */
    constructor (m: Memory)
      ensures Valid() && mem == m && free == live == given == []
    {
      mem, firstfree := m, 0;
      free, live, given := [], [], [];
    }

    /** The search for the block before (malloc.c:63-64, 74). */
    method FindBefore(header: nat, ghost h: Block) returns (cur: nat, ghost k: nat)
      requires OnList(mem, firstfree, free) && ApartAll(free, h) && Sound(h) && h.addr == header
      requires |free| > 0 && free[0].addr <= header
      ensures Between(free, h, k) && cur == free[k].addr
    {
      hide Linked, Sorted, FlagsAt, SizeAt, NextAt;
      cur, k := firstfree, 0;
      LinkAt(mem, free, k);
      assert Apart(free[0], h);
      while cur != 0
        invariant k < |free| && cur == free[k].addr < header
        decreases |free| - k
      {
        LinkAt(mem, free, k);
        if k + 1 < |free| { assert Apart(free[k + 1], h); }
        if cur < header && (NextAt(mem, cur) > header || NextAt(mem, cur) == 0) { break; }
        cur := NextAt(mem, cur);
        k := k + 1;
      }
    }

    /** The first half of _malloc_insertlist (malloc.c:54-76). */
    method LinkBlock(header: nat, ghost h: Block)
      requires OnList(mem, firstfree, free) && Sound(h) && h.addr == header && IsHeader(mem, h, 0) && ApartAll(free, h)
      modifies this`mem, this`firstfree
      ensures var p := JoinStep(mem, header);
              OnList(p, firstfree, Insert(free, h)) && Changed(old(mem), p, free + [h])
    {
      hide Linked, Changed, PutWord, JoinStep, FlagsAt, SizeAt, NextAt, Sorted, Insert, ApartAll;
      assert |free| > 0 ==> free[0].addr > 0;
      if firstfree == 0 {
        FrontDone(mem, firstfree, free, h);
        firstfree := header;
        mem := PutWord(mem, header + 8, 0);
      } else if header < firstfree {
        FrontDone(mem, firstfree, free, h);
        mem := PutWord(mem, header + 8, firstfree);
        firstfree := header;
      } else {
        var cur;
        ghost var k;
        cur, k := FindBefore(header, h);
        LinkAt(mem, free, k);
        BehindDone(mem, firstfree, free, k, h);
        InSpace(free[k].End());
        if (cur + SizeAt(mem, cur)) % SPACE == header {
          InSpace(free[k].size + h.size);
          mem := PutWord(mem, cur + 4, (SizeAt(mem, cur) + SizeAt(mem, header)) % SPACE);
        } else {
          mem := PutWord(mem, header + 8, NextAt(mem, cur));
          mem := PutWord(mem, cur + 8, header);
        }
      }
    }

    /** _malloc_insertlist */
    method InsertList(header: nat, ghost h: Block)
      requires OnList(mem, firstfree, free) && Sound(h) && h.addr == header && IsHeader(mem, h, 0) && ApartAll(free, h)
      modifies this`mem, this`firstfree, this`free
      ensures OnList(mem, firstfree, free) && free == Insert(old(free), h) && Changed(old(mem), mem, old(free) + [h])
    {
      hide OnList, Changed, PutWord, FlagsAt, SizeAt, NextAt, Insert, ApartAll;
      LinkBlock(header, h);
      ghost var m := mem;
      if (header + SizeAt(mem, header)) % SPACE == NextAt(mem, header) {
        var next := NextAt(mem, header);
        mem := PutWord(mem, header + 4, (SizeAt(mem, header) + SizeAt(mem, next)) % SPACE);
        mem := PutWord(mem, header + 8, NextAt(mem, next));
      }
      assert mem == JoinStep(m, header);
      free := Insert(free, h);
    }

    /** malloc_donatemem */
    method DonateMem(addr: nat, size: nat)
      requires Valid() && (addr != 0 ==> Sound(Block(addr, size)) && Fresh(given, Block(addr, size)))
      modifies this
      ensures Valid() && live == old(live)
      ensures addr == 0 ==> mem == old(mem) && free == old(free) && given == old(given)
      ensures addr != 0 ==> var h := Block(addr, size);
                            free == Insert(old(free), h) && given == old(given) + [h] &&
                              Changed(old(mem), mem, old(free) + [h])
    {
      hide OnList, Changed, PutWord, Insert, ApartAll, InUse, Owned, ApartLists, Fresh;
      if addr != 0 {
        ghost var h := Block(addr, size);
        ghost var m := mem;
        DonateReady(mem, firstfree, free, live, given, h);
        mem := PutWord(mem, addr, 0);
        mem := PutWord(mem, addr + 4, size);
        ghost var n := mem;
        InsertList(addr, h);
        InsertKeeps(n, mem, old(free), live, h);
        OwnedDonate(old(free), live, given, h);
        given := given + [h];
        ChangedWider(m, n, old(free), h);
        ChangedJoin(m, n, mem, old(free) + [h], old(free) + [h], old(free) + [h]);
      }
    }

    /** One pass over the list (malloc.c:115-139): the first block that can be taken, and the one before it. */
    method Search(size: nat) returns (cur: nat, last: nat, ghost k: nat)
      requires OnList(mem, firstfree, free) && size < SPACE
      ensures cur == 0 ==>
                forall i :: 0 <= i < |free| ==> free[i].size != size && free[i].size < (size + HEADER) % SPACE
      ensures cur != 0 ==>
                && k < |free| && cur == free[k].addr && last == Last(free, k)
                && (free[k].size == size || free[k].size >= (size + HEADER) % SPACE)
                && forall i :: 0 <= i < k ==> free[i].size != size && free[i].size < (size + HEADER) % SPACE
      ensures if cur == 0 then NoneTaken(free, size) else FirstTaken(free, k, size)
    {
      hide Linked, Sorted, FlagsAt, SizeAt, NextAt;
      cur, last, k := firstfree, 0, 0;
      while cur != 0
        invariant k <= |free| && cur == (if k < |free| then free[k].addr else 0) && last == Last(free, k)
        invariant forall i :: 0 <= i < k ==> free[i].size != size && free[i].size < (size + HEADER) % SPACE
        decreases |free| - k
      {
        LinkAt(mem, free, k);
        if size == SizeAt(mem, cur) || SizeAt(mem, cur) >= (size + HEADER) % SPACE { return; }
        last := cur;
        cur := NextAt(mem, cur);
        k := k + 1;
      }
      if k < |free| { LinkAt(mem, free, k); }
    }

    /**
     * A block is taken out of the list, or its first part is (malloc.c:120-136). The headers in memory then form the
     * list without it, and its own header says that it is in use; only free bytes change. A request that wraps around
     * gets the size that was asked for recorded, and nothing else is promised of it.
     */
    method Cut(cur: nat, last: nat, size: nat, ghost k: nat)
      requires OnList(mem, firstfree, free) && k < |free| && cur == free[k].addr && last == Last(free, k) &&
               size < SPACE
      modifies this`mem, this`firstfree
      ensures SizeAt(mem, cur) == size
      ensures HEADER <= size && Suits(free[k], size) ==>
                && OnList(mem, firstfree, Take(free, k, size)) && IsHeader(mem, Block(cur, size), 1)
                && Changed(old(mem), mem, free)
    {
      hide OnList, PutWord, FlagsAt, SizeAt, NextAt, SetUsed, Take, IsHeader, Changed;
      ghost var m, first := mem, firstfree;
      if size == SizeAt(mem, cur) {
        mem := PutWord(mem, cur, SetUsed(FlagsAt(mem, cur)));
        if last == 0 {
          firstfree := NextAt(mem, cur);
        } else {
          mem := PutWord(mem, last + 8, NextAt(mem, cur));
        }
      } else {
        var half := (cur + size) % SPACE;
        mem := PutWord(mem, half, 0);
        mem := PutWord(mem, half + 4, (SizeAt(mem, cur) - size) % SPACE);
        mem := PutWord(mem, half + 8, NextAt(mem, cur));
        mem := PutWord(mem, cur + 4, size);
        mem := PutWord(mem, cur, SetUsed(FlagsAt(mem, cur)));
        if last == 0 {
          firstfree := half;
        } else {
          mem := PutWord(mem, last + 8, half);
        }
      }
      assert mem == CutMem(m, cur, last, size) && firstfree == CutFirst(m, first, cur, last, size);
      FreeSized(m, first, free, k);
      CutSize(m, free, k, size);
      if HEADER <= size && Suits(free[k], size) { CutDone(m, first, free, k, size); }
    }

    /** One round of _malloc_getfree; 0 when no block was found. */
    method TryFree(size: nat) returns (cur: nat, ghost k: nat)
      requires Valid() && size < SPACE
      modifies this
      ensures given == old(given)
      ensures cur == 0 ==> Valid() && mem == old(mem) && free == old(free) && live == old(live) && NoneTaken(free, size)
      ensures cur != 0 ==>
                FirstTaken(old(free), k, size) && cur == old(free)[k].addr && SizeAt(mem, cur) == size && cur >= HEADER
      ensures cur != 0 && HEADER <= size && size + HEADER < SPACE ==>
                && Suits(old(free)[k], size) && free == Take(old(free), k, size)
                && live == old(live) + [Block(cur, size)]
                && Valid() && Changed(old(mem), mem, old(free))
    {
      hide OnList, Changed, CutMem, CutFirst, InUse, Owned, Take, IsHeader, Taken, SizeAt, Sized;
      var last;
      cur, last, k := Search(size);
      if cur != 0 {
        FreeSized(mem, firstfree, free, k);
        Cut(cur, last, size, k);
        if HEADER <= size && size + HEADER < SPACE {
          TakenSuits(old(free)[k], size);
          TakeDone(old(mem), mem, old(firstfree), firstfree, free, live, given, k, size);
          free, live := Take(free, k, size), live + [Block(cur, size)];
        }
      }
    }

    /** _malloc_getmem */
    method GetMem(page: nat)
      requires Valid() && (page != 0 ==> Sound(Block(page, PAGE_SIZE)) && Fresh(given, Block(page, PAGE_SIZE)))
      modifies this
      ensures Valid() && live == old(live)
      ensures page == 0 ==> mem == old(mem) && free == old(free) && given == old(given)
      ensures page != 0 ==> var h := Block(page, PAGE_SIZE);
                            free == Insert(old(free), h) && given == old(given) + [h] &&
                              Changed(old(mem), mem, old(free) + [h])
    {
      hide Valid, Changed, Insert, Fresh;
      DonateMem(page, PAGE_SIZE);
    }

    /** A page is asked for, and the search starts again (malloc.c:140). */
    method MorePages(pages: seq<nat>, n: nat, ghost free0: seq<Block>, ghost given0: seq<Block>, ghost m0: Memory)
      requires Valid() && n < |pages| && Supply(given, pages[n..]) && free == Fed(free0, pages, n)
      requires Owned(free0, live, given0) && given == given0 + Pages(pages[..n]) &&
               Changed(m0, mem, free0 + Pages(pages[..n]))
      modifies this
      ensures Valid() && live == old(live) && Supply(given, pages[n + 1..]) && free == Fed(free0, pages, n + 1)
      ensures given == given0 + Pages(pages[..n + 1]) && Changed(m0, mem, free0 + Pages(pages[..n + 1]))
    {
      hide Changed, Insert, Fresh, Supply, Pages, OnList, InUse, Owned;
      ghost var m, f, more := mem, free, Pages(pages[..n]);
      ghost var h := if pages[n] == 0 then [] else [Block(pages[n], PAGE_SIZE)];
      SupplyNext(given, pages[n..]);
      assert pages[n..][1..] == pages[n + 1..];
      PagesSnoc(pages, n);
      GetMem(pages[n]);
      if pages[n] == 0 {
        assert more + [] == more;
      } else {
        ChangedGrown(m0, m, mem, free0, live, given0, more, f, h);
        assert given0 + (more + h) == (given0 + more) + h;
      }
    }

    /**
     * _malloc_getfree: the page allocator supplies `pages` in turn. The source goes on asking for pages until a
     * block is found; 0 is returned when the supply ends before that.
     */
    method GetFree(size: nat, pages: seq<nat>) returns (cur: nat, ghost n: nat, ghost k: nat)
      requires Valid() && size < SPACE && Supply(given, pages)
      modifies this
      ensures n <= |pages| && given == old(given) + Pages(pages[..n])
      ensures cur == 0 ==> && n == |pages| && (forall u :: 0 <= u <= n ==> NoneTaken(Fed(old(free), pages, u), size))
                           && Valid() && live == old(live) && free == Fed(old(free), pages, n)
      ensures cur != 0 ==>
                FoundAfter(old(free), pages, n, k, size) && cur == Fed(old(free), pages, n)[k].addr &&
                SizeAt(mem, cur) == size && cur >= HEADER
      ensures cur != 0 && HEADER <= size && size + HEADER < SPACE ==>
                && Suits(Fed(old(free), pages, n)[k], size) && free == Take(Fed(old(free), pages, n), k, size)
                && live == old(live) + [Block(cur, size)] && Valid()
      ensures cur == 0 || (HEADER <= size && size + HEADER < SPACE) ==>
                Changed(old(mem), mem, old(free) + Pages(pages[..n]))
    {
      hide Changed, Insert, Fresh, Supply, Pages, OnList, InUse, Owned, Taken, Take, SizeAt, NoneTaken;
      n := 0;
      var used: nat := 0;
      GrownNone(mem, free, given, pages);
      while true
        invariant n == used <= |pages| && Valid() && live == old(live) && Supply(given, pages[used..])
        invariant free == Fed(old(free), pages, used) && given == old(given) + Pages(pages[..used])
        invariant Changed(old(mem), mem, old(free) + Pages(pages[..used]))
        invariant forall u :: 0 <= u < used ==> NoneTaken(Fed(old(free), pages, u), size)
        decreases |pages| - used
      {
        ghost var m, f := mem, free;
        cur, k := TryFree(size);
        if cur != 0 {
          if HEADER <= size && size + HEADER < SPACE {
            TakeGrown(old(mem), m, mem, old(free), old(live), old(given), Pages(pages[..used]), f);
          }
          return;
        }
        if used == |pages| { return; }
        MorePages(pages, used, old(free), old(given), old(mem));
        used := used + 1;
        n := used;
      }
    }

    /**
     * malloc. The request is served from the first block that fits; a request that wraps around 32 bits, and only
     * such a request, leaves a header that describes no block.
     */
    method Alloc(size: nat, pages: seq<nat>) returns (address: nat, ghost n: nat, ghost k: nat)
      requires Valid() && size < SPACE && Supply(given, pages)
      modifies this
      ensures n <= |pages| && given == old(given) + Pages(pages[..n])
      ensures address == 0 ==>
                && n == |pages|
                && (forall u :: 0 <= u <= n ==> NoneTaken(Fed(old(free), pages, u), (size + HEADER) % SPACE))
                && Valid() && live == old(live) && free == Fed(old(free), pages, n)
      ensures address != 0 ==> address >= 2 * HEADER
      ensures address != 0 ==>
                (size + 2 * HEADER < SPACE <==> Sound(Block(address - HEADER, SizeAt(mem, address - HEADER))))
      ensures address != 0 && size + 2 * HEADER < SPACE ==>
                && FoundAfter(old(free), pages, n, k, size + HEADER)
                && address == Fed(old(free), pages, n)[k].addr + HEADER
                && Suits(Fed(old(free), pages, n)[k], size + HEADER)
                && free == Take(Fed(old(free), pages, n), k, size + HEADER)
                && live == old(live) + [Block(address - HEADER, size + HEADER)] && Valid()
      ensures address == 0 || size + 2 * HEADER < SPACE ==>
                forall i :: 0 <= i < |old(live)| ==> SameBytes(old(mem), mem, old(live)[i])
    {
      hide Changed, Supply, Pages, OnList, InUse, Owned, Taken, Take, SizeAt, NoneTaken, FoundAfter, SameBytes;
      var cur;
      cur, n, k := GetFree((size + HEADER) % SPACE, pages);
      if cur == 0 {
        address := 0;
      } else {
        address := cur + HEADER;
        WrappedRequest(cur, size);
        assert size + 2 * HEADER < SPACE ==> live[|live| - 1] == Block(cur, size + HEADER);
      }
      if cur == 0 || size + 2 * HEADER < SPACE {
        SupplyFirst(old(given), pages, n);
        LiveKept(old(mem), mem, old(free), old(live), old(given), Pages(pages[..n]));
      }
    }

    /** free, of the block in use whose data begin at the address. */
    method Free(address: nat, ghost i: nat)
      requires Valid() && i < |live| && address == live[i].addr + HEADER
      modifies this
      ensures Valid() && given == old(given) && live == Drop(old(live), i) && free == Insert(old(free), old(live)[i])
      ensures forall j :: 0 <= j < |live| ==> SameBytes(old(mem), mem, live[j])
    {
      hide Changed, OnList, InUse, Owned, Insert, Drop, ApartAll, ApartLists, PutWord, SameBytes;
      ghost var h, m := live[i], mem;
      FreeReady(mem, firstfree, free, live, given, i);
      var header := address - HEADER;
      mem := PutWord(mem, header, 0);
      ghost var n := mem;
      InsertList(header, h);
      InsertKeeps(n, mem, old(free), Drop(old(live), i), h);
      OwnedFree(old(free), old(live), given, i);
      live := Drop(live, i);
      ChangedWider(m, n, old(free), h);
      ChangedJoin(m, n, mem, old(free) + [h], old(free) + [h], old(free) + [h]);
      OthersKept(m, mem, old(free) + [h], live);
    }

    /** The owner of a block in use writes one byte of its data. */
    method Write(x: nat, v: octet, ghost i: nat)
      requires Valid() && i < |live| && live[i].addr + HEADER <= x < live[i].End()
      modifies this`mem
      ensures Valid() && x < SPACE && mem == old(mem)[x := v]
    {
      hide OnList, InUse, Owned;
      WriteKeeps(mem, firstfree, free, live, given, i, x, v);
      mem := mem[x := v];
    }
  }
}
