/** The free list of kernel2/malloc.c as a sequence of blocks, in the order of their addresses. */
module FreeList {
  const HEADER := 12   // sizeof(struct _malloc_header)

  /** A block, its header included. */
  datatype Block = Block(addr: nat, size: nat) {
    function End(): nat {
      addr + size
    }
  }

  ghost predicate Apart(a: Block, b: Block) {
    a.End() <= b.addr || b.End() <= a.addr
  }

  ghost predicate ApartAll(bs: seq<Block>, b: Block) {
    forall i :: 0 <= i < |bs| ==> Apart(bs[i], b)
  }

  /** In address order, without overlap. */
  ghost predicate Sorted(bs: seq<Block>) {
    forall i, j :: 0 <= i < j < |bs| ==> bs[i].End() <= bs[j].addr
  }

  ghost predicate Sized(bs: seq<Block>) {
    forall i :: 0 <= i < |bs| ==> bs[i].addr >= HEADER && bs[i].size >= HEADER
  }

  // ---- what is owned ----

  function Total(bs: seq<Block>): nat {
    if |bs| == 0 then 0 else bs[0].size + Total(bs[1..])
  }

  function Has(b: Block, x: int): nat {
    if b.addr <= x < b.End() then 1 else 0
  }

  /** How many of the blocks the byte `x` lies in. */
  function Cover(bs: seq<Block>, x: int): nat {
    if |bs| == 0 then 0 else Has(bs[0], x) + Cover(bs[1..], x)
  }

  lemma {:induction false} CoverJoin(a: seq<Block>, b: seq<Block>, x: int)
    ensures Cover(a + b, x) == Cover(a, x) + Cover(b, x) && Total(a + b) == Total(a) + Total(b)
  {
    if |a| == 0 {
      assert a + b == b;
    } else {
      assert (a + b)[1..] == a[1..] + b;
      CoverJoin(a[1..], b, x);
    }
  }

  lemma {:induction false} CoverAt(bs: seq<Block>, i: nat, x: int)
    requires i < |bs|
    ensures Has(bs[i], x) <= Cover(bs, x)
  {
    if i == 0 {
    } else {
      CoverAt(bs[1..], i - 1, x);
    }
  }

  lemma {:induction false} CoverTwo(bs: seq<Block>, i: nat, j: nat, x: int)
    requires i < j < |bs|
    ensures Has(bs[i], x) + Has(bs[j], x) <= Cover(bs, x)
  {
    if i > 0 {
      CoverTwo(bs[1..], i - 1, j - 1, x);
    } else {
      CoverAt(bs[1..], j - 1, x);
    }
  }

  lemma {:induction false} CoverNone(bs: seq<Block>, x: int)
    requires forall i :: 0 <= i < |bs| ==> Has(bs[i], x) == 0
    ensures Cover(bs, x) == 0
  {
    if |bs| == 0 {
    } else {
      CoverNone(bs[1..], x);
    }
  }

  // ---- inserting ----

  function JoinNext(h: Block, rest: seq<Block>): seq<Block> {
    if |rest| > 0 && h.End() == rest[0].addr then [Block(h.addr, h.size + rest[0].size)] + rest[1..] else [h] + rest
  }

  /** The new block behind `c`: joined to it, or else linked behind it. */
  function After(c: Block, h: Block, rest: seq<Block>): seq<Block> {
    if c.End() == h.addr then [Block(c.addr, c.size + h.size)] + rest else [c] + JoinNext(h, rest)
  }

  /** The list after _malloc_insertlist. A block joined to the one before is not joined to the one behind. */
  function Insert(free: seq<Block>, h: Block): seq<Block> {
    if |free| == 0 || h.addr < free[0].addr then JoinNext(h, free)
    else if |free| == 1 || h.addr < free[1].addr then After(free[0], h, free[1..])
    else [free[0]] + Insert(free[1..], h)
  }

  /** The place where the search for the previous block ends. */
  ghost predicate Between(free: seq<Block>, h: Block, k: nat) {
    k < |free| && free[k].addr < h.addr && (k + 1 < |free| ==> h.addr < free[k + 1].addr)
  }

  lemma {:induction false} InsertAt(free: seq<Block>, h: Block, k: nat)
    requires Sorted(free) && Sized(free) && Between(free, h, k)
    ensures Insert(free, h) == free[..k] + After(free[k], h, free[k + 1..])
  {
    hide After;
    if k > 0 {
      var rest := free[1..];
      assert free[0].addr < free[1].addr <= free[k].addr;
      InsertAt(rest, h, k - 1);
      assert rest[k - 1] == free[k] && rest[k..] == free[k + 1..];
      assert free[..k] == [free[0]] + rest[..k - 1];
      Regroup(free[0], rest[..k - 1], After(free[k], h, free[k + 1..]));
    } else {
      assert free[..0] == [];
    }
  }

  lemma Regroup(b: Block, a: seq<Block>, c: seq<Block>)
    ensures [b] + (a + c) == ([b] + a) + c
  {
  }

  /** Nothing is lost and nothing is gained. */
  lemma {:induction false} InsertCovers(free: seq<Block>, h: Block, x: int)
    ensures Cover(Insert(free, h), x) == Cover(free, x) + Has(h, x)
    ensures Total(Insert(free, h)) == Total(free) + h.size
  {
    if |free| == 0 || h.addr < free[0].addr {
      NextCovers(h, free, x);
    } else if |free| == 1 || h.addr < free[1].addr {
      if free[0].End() == h.addr {
        CoverJoin([Block(free[0].addr, free[0].size + h.size)], free[1..], x);
      } else {
        CoverJoin([free[0]], JoinNext(h, free[1..]), x);
        NextCovers(h, free[1..], x);
      }
    } else {
      CoverJoin([free[0]], Insert(free[1..], h), x);
      InsertCovers(free[1..], h, x);
    }
  }

  lemma NextCovers(h: Block, rest: seq<Block>, x: int)
    ensures Cover(JoinNext(h, rest), x) == Cover(rest, x) + Has(h, x)
    ensures Total(JoinNext(h, rest)) == Total(rest) + h.size
  {
    if |rest| > 0 && h.End() == rest[0].addr {
      CoverJoin([Block(h.addr, h.size + rest[0].size)], rest[1..], x);
    } else {
      CoverJoin([h], rest, x);
    }
  }

  ghost predicate From(bs: seq<Block>, lo: nat) {
    forall i :: 0 <= i < |bs| ==> bs[i].addr >= lo
  }

  lemma SortedCons(b: Block, rest: seq<Block>, lo: nat)
    requires Sorted(rest) && Sized(rest) && From(rest, b.End()) && b.size >= HEADER && b.addr >= HEADER && b.addr >= lo
    ensures Sorted([b] + rest) && Sized([b] + rest) && From([b] + rest, lo)
  {
  }

  lemma TailSorted(free: seq<Block>, h: Block)
    requires |free| > 0 && Sorted(free) && Sized(free) && ApartAll(free, h)
    ensures Sorted(free[1..]) && Sized(free[1..]) && From(free[1..], free[0].End()) && ApartAll(free[1..], h) &&
            Apart(free[0], h)
  {
  }

  lemma JoinSorted(h: Block, rest: seq<Block>, lo: nat)
    requires Sorted(rest) && Sized(rest) && From(rest, h.End()) && h.addr >= HEADER && h.size >= HEADER && h.addr >= lo
    ensures Sorted(JoinNext(h, rest)) && Sized(JoinNext(h, rest)) && From(JoinNext(h, rest), lo)
  {
    if |rest| > 0 && h.End() == rest[0].addr {
      SortedCons(Block(h.addr, h.size + rest[0].size), rest[1..], lo);
    } else {
      SortedCons(h, rest, lo);
    }
  }

  lemma FromFirst(rest: seq<Block>, h: Block)
    requires Sorted(rest) && Sized(rest) && ApartAll(rest, h) && h.size > 0 && (|rest| > 0 ==> h.addr < rest[0].addr)
    ensures From(rest, h.End())
  {
    if |rest| > 0 { assert Apart(rest[0], h); }
  }

  /** The list stays in order. */
  lemma {:induction false} InsertSorted(free: seq<Block>, h: Block, lo: nat)
    requires Sorted(free) && Sized(free) && ApartAll(free, h) && h.addr >= HEADER && h.size >= HEADER &&
             h.addr >= lo && From(free, lo)
    ensures Sorted(Insert(free, h)) && Sized(Insert(free, h)) && From(Insert(free, h), lo)
  {
    hide Sorted, JoinNext;
    if |free| == 0 || h.addr < free[0].addr {
      FromFirst(free, h);
      JoinSorted(h, free, lo);
    } else {
      TailSorted(free, h);
      var rest := free[1..];
      if |free| == 1 || h.addr < free[1].addr {
        FromFirst(rest, h);
        if free[0].End() == h.addr {
          SortedCons(Block(free[0].addr, free[0].size + h.size), rest, lo);
        } else {
          JoinSorted(h, rest, free[0].End());
          SortedCons(free[0], JoinNext(h, rest), lo);
        }
      } else {
        InsertSorted(rest, h, free[0].End());
        SortedCons(free[0], Insert(rest, h), lo);
      }
    }
  }

  lemma {:induction false} InsertBelow(free: seq<Block>, h: Block, top: nat)
    requires (forall i :: 0 <= i < |free| ==> free[i].End() < top) && h.End() < top
    ensures forall i :: 0 <= i < |Insert(free, h)| ==> Insert(free, h)[i].End() < top
  {
    if |free| == 0 || h.addr < free[0].addr {
    } else if |free| == 1 || h.addr < free[1].addr {
    } else {
      InsertBelow(free[1..], h, top);
    }
  }

  // ---- when neighbours are joined ----

  /** No two neighbours of the list touch. */
  ghost predicate Coalesced(free: seq<Block>) {
    forall i :: 0 <= i < |free| - 1 ==> free[i].End() != free[i + 1].addr
  }

  ghost predicate TouchesLeft(free: seq<Block>, h: Block) {
    exists i :: 0 <= i < |free| && free[i].End() == h.addr
  }

  ghost predicate TouchesRight(free: seq<Block>, h: Block) {
    exists i :: 0 <= i < |free| && h.End() == free[i].addr
  }

  lemma TouchesTail(free: seq<Block>, h: Block)
    requires |free| > 1 && Sorted(free) && Sized(free) && free[1].addr < h.addr
    ensures TouchesLeft(free, h) == TouchesLeft(free[1..], h) && TouchesRight(free, h) == TouchesRight(free[1..], h)
  {
    var rest := free[1..];
    assert free[0].End() <= free[1].addr;
    if TouchesLeft(free, h) {
      var i :| 0 <= i < |free| && free[i].End() == h.addr;
      assert rest[i - 1].End() == h.addr;
    }
    if TouchesLeft(rest, h) {
      var i :| 0 <= i < |rest| && rest[i].End() == h.addr;
      assert free[i + 1].End() == h.addr;
    }
    if TouchesRight(free, h) {
      var i :| 0 <= i < |free| && h.End() == free[i].addr;
      assert h.End() == rest[i - 1].addr;
    }
    if TouchesRight(rest, h) {
      var i :| 0 <= i < |rest| && h.End() == rest[i].addr;
      assert h.End() == free[i + 1].addr;
    }
  }

  /** Behind the new block only the first one of the rest can touch it. */
  lemma TouchesFirst(free: seq<Block>, h: Block, k: nat)
    requires Sorted(free) && Sized(free) && ApartAll(free, h) && h.size > 0 && k <= |free|
    requires (forall i :: 0 <= i < k ==> free[i].addr < h.addr) && (k < |free| ==> h.addr < free[k].addr)
    ensures TouchesRight(free, h) == (k < |free| && h.End() == free[k].addr)
    ensures TouchesLeft(free, h) == (k > 0 && free[k - 1].End() == h.addr)
  {
    if k < |free| { assert Apart(free[k], h); }
    if TouchesRight(free, h) {
      var i :| 0 <= i < |free| && h.End() == free[i].addr;
      assert k <= i;
    }
    if TouchesLeft(free, h) {
      var i :| 0 <= i < |free| && free[i].End() == h.addr;
      assert i < k;
    }
  }

  lemma CoalescedCons(b: Block, rest: seq<Block>)
    ensures Coalesced([b] + rest) == (Coalesced(rest) && (|rest| > 0 ==> b.End() != rest[0].addr))
  {
    var all := [b] + rest;
    if Coalesced(all) {
      forall i | 0 <= i < |rest| - 1
        ensures rest[i].End() != rest[i + 1].addr
      {
        assert all[i + 1].End() != all[i + 2].addr;
      }
      assert |rest| > 0 ==> all[0].End() != all[1].addr;
    }
  }

  lemma CoalescedTail(free: seq<Block>)
    requires |free| > 0 && Coalesced(free)
    ensures Coalesced(free[1..]) && (|free| > 1 ==> free[0].End() != free[1].addr)
  {
    assert free == [free[0]] + free[1..];
    CoalescedCons(free[0], free[1..]);
  }

  lemma JoinCoalesced(h: Block, rest: seq<Block>)
    requires Coalesced(rest)
    ensures Coalesced(JoinNext(h, rest)) && JoinNext(h, rest)[0].addr == h.addr
  {
    hide Coalesced;
    if |rest| > 0 && h.End() == rest[0].addr {
      CoalescedTail(rest);
      CoalescedCons(Block(h.addr, h.size + rest[0].size), rest[1..]);
    } else {
      CoalescedCons(h, rest);
    }
  }

  lemma AfterCoalesced(c: Block, h: Block, rest: seq<Block>)
    requires Coalesced(rest)
    ensures Coalesced(After(c, h, rest)) == !(c.End() == h.addr && |rest| > 0 && h.End() == rest[0].addr)
    ensures |After(c, h, rest)| > 0 && After(c, h, rest)[0].addr == c.addr
  {
    hide Coalesced;
    if c.End() == h.addr {
      CoalescedCons(Block(c.addr, c.size + h.size), rest);
    } else {
      JoinCoalesced(h, rest);
      CoalescedCons(c, JoinNext(h, rest));
    }
  }

  lemma {:induction false} InsertFirst(free: seq<Block>, h: Block)
    requires |free| > 0 && !(h.addr < free[0].addr)
    ensures |Insert(free, h)| > 0 && Insert(free, h)[0].addr == free[0].addr
  {
  }

  /** A list without touching neighbours stays one, except when the new block fills a gap between two blocks. */
  lemma {:induction false} InsertCoalesced(free: seq<Block>, h: Block)
    requires Sorted(free) && Sized(free) && ApartAll(free, h) && h.size > 0 && Coalesced(free)
    ensures Coalesced(Insert(free, h)) == !(TouchesLeft(free, h) && TouchesRight(free, h))
  {
    hide Coalesced, TouchesLeft, TouchesRight;
    if |free| == 0 || h.addr < free[0].addr {
      TouchesFirst(free, h, 0);
      JoinCoalesced(h, free);
    } else {
      CoalescedTail(free);
      assert Apart(free[0], h);
      if |free| == 1 || h.addr < free[1].addr {
        TouchesFirst(free, h, 1);
        AfterCoalesced(free[0], h, free[1..]);
      } else {
        TailSorted(free, h);
        assert Apart(free[1], h);
        TouchesTail(free, h);
        InsertCoalesced(free[1..], h);
        InsertFirst(free[1..], h);
        CoalescedCons(free[0], Insert(free[1..], h));
      }
    }
  }

  /** Three blocks that touch, the middle one freed last: two list entries remain. */
  lemma GapLeavesTwo()
    ensures var free, h := [Block(4096, 16), Block(4128, 16)], Block(4112, 16);
            Coalesced(free) && Insert(free, h) == [Block(4096, 32), Block(4128, 16)] && !Coalesced(Insert(free, h))
  {
    var r := [Block(4096, 32), Block(4128, 16)];
    assert r[0].End() == r[1].addr;
  }

  // ---- taking ----

  /** The block can serve a request for `size` bytes, header included: exactly, or with room for another header. */
  predicate Suits(b: Block, size: nat) {
    b.size == size || b.size >= size + HEADER
  }

  /** What is left of the block in the list. */
  function Left(b: Block, size: nat): seq<Block>
    requires Suits(b, size)
  {
    if b.size == size then [] else [Block(b.addr + size, b.size - size)]
  }

  function Take(free: seq<Block>, k: nat, size: nat): seq<Block>
    requires k < |free| && Suits(free[k], size)
  {
    free[..k] + (Left(free[k], size) + free[k + 1..])
  }

  lemma TakeCovers(free: seq<Block>, k: nat, size: nat, x: int)
    requires k < |free| && Suits(free[k], size)
    ensures Cover(free, x) == Cover(Take(free, k, size), x) + Has(Block(free[k].addr, size), x)
    ensures Total(free) == Total(Take(free, k, size)) + size
  {
    var b, l := free[k], Left(free[k], size);
    assert free == free[..k] + ([b] + free[k + 1..]);
    CoverJoin(free[..k], [b] + free[k + 1..], x);
    CoverJoin([b], free[k + 1..], x);
    CoverJoin(free[..k], l + free[k + 1..], x);
    CoverJoin(l, free[k + 1..], x);
    LeftCovers(b, size, x);
  }

  lemma LeftCovers(b: Block, size: nat, x: int)
    requires Suits(b, size)
    ensures Cover([b], x) == Cover(Left(b, size), x) + Has(Block(b.addr, size), x) &&
            Total([b]) == Total(Left(b, size)) + size
  {
    assert Cover([], x) == 0 && Total([]) == 0;
  }

  lemma TakeSorted(free: seq<Block>, k: nat, size: nat)
    requires Sorted(free) && Sized(free) && k < |free| && Suits(free[k], size)
    ensures Sorted(Take(free, k, size)) && Sized(Take(free, k, size)) &&
            ApartAll(Take(free, k, size), Block(free[k].addr, size))
  {
    var t := Take(free, k, size);
    if free[k].size == size {
      assert forall i :: 0 <= i < |t| ==> t[i] == free[if i < k then i else i + 1];
    } else {
      assert t == free[k := Left(free[k], size)[0]];
    }
  }

}
