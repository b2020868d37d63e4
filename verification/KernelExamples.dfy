/** Calls that break the invariants of the kernel's allocator and of its scheduler. */
module KernelExamples {
  import opened Memory32
  import opened FreeList
  import opened Malloc
  import Allocator
  import Scheduler

  lemma OneFree(b: Block)
    ensures Insert([], b) == [b]
  {
  }

  /** A request of 2^32 - 16 bytes is served from one page: the header it leaves describes no block. */
  method AllocWrapped(m: Memory) returns (heap: Allocator.Heap, address: nat)
    ensures address >= HEADER && !Sound(Block(address - HEADER, SizeAt(heap.mem, address - HEADER)))
  {
    hide SizeAt, Allocator.State, Changed, Allocator.FoundAfter, Allocator.NoneTaken, Allocator.Fed, Insert, Take,
         Allocator.Supply, Allocator.Fresh, Allocator.Pages, Allocator.SameBytes;
    heap := new Allocator.Heap(m);
    var b := Block(PAGE_SIZE, PAGE_SIZE);
    NothingGiven(b);
    heap.DonateMem(PAGE_SIZE, PAGE_SIZE);
    OneFree(b);
    NoPages(heap.given, b);
    Served(b);
    ghost var n, k;
    address, n, k := heap.Alloc(WRAPPED, []);
  }

  const WRAPPED := 0xFFFFFFF0

  lemma Served(b: Block)
    requires b.size == PAGE_SIZE
    ensures !Allocator.NoneTaken(Allocator.Fed([b], [], 0), (WRAPPED + HEADER) % SPACE)
  {
    assert Allocator.Taken([b][0], (WRAPPED + HEADER) % SPACE);
  }

  lemma NothingGiven(b: Block)
    ensures Allocator.Fresh([], b)
  {
  }

  lemma NoPages(given: seq<Block>, b: Block)
    requires given == [] + [b]
    ensures Allocator.Supply(given, [])
  {
    forall x
      ensures Cover(given, x) + Cover(Allocator.Pages([]), x) <= 1
    {
      CoverParts(b, b, x);
      assert given == [b];
    }
  }

  /** A process is created, runs and exits; sent to sleep afterwards, it stands in a list again. */
  method SleepAfterExit() returns (ps: Scheduler.Processes)
    ensures !ps.Valid()
  {
    hide Scheduler.Lists, Scheduler.Push, Scheduler.Remove, Scheduler.Choose;
    ps := new Scheduler.Processes();
    var p := ps.Create(0, 0, true, Scheduler.Proc(0, 0, 0, 0, false, false, 0, false, 0, false, 0, 0));
    var o := ps.Schedule();
    RunsAlone(ps, p);
    ps.Exit(0);
    ps.Sleep(p);
  }

  lemma RunsAlone(ps: Scheduler.Processes, p: Scheduler.Pid)
    requires ps.Valid() && ps.running == Scheduler.Push([], p) && ps.current != 0
    ensures ps.current == p
  {
  }
}
