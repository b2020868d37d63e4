/** The process lists and the scheduler of kernel2/procm.c. */
module Scheduler {
  import opened RoundRobin
  import opened Totals

  /** A process is known by its PID; 0 stands for the null pointer. */
  type Pid = int

  /**
   * The fields of proc_t that the scheduler uses. `waitStat` says that wait_stat is not null, `status` is what it
   * refers to, and `eax` the register in which a system call returns its result.
   */
  datatype Proc = Proc(parent: Pid, gid: int, nice: int, ticksRem: nat, isSleeping: bool, defunc: bool, ret: int,
                       wait: bool, waitPid: int, waitStat: bool, eax: int, status: int)

  /** NICE2TICKS */
  function Slice(nice: int): (n: nat)
    ensures n > 0
  {
    1
  }

  // ---- lists ----

  ghost predicate NoDup(s: seq<Pid>) {
    forall i, j :: 0 <= i < j < |s| ==> s[i] != s[j]
  }

  /** llist_remove of what llist_find finds; nothing happens when it finds nothing. */
  function Remove(s: seq<Pid>, p: Pid): (r: seq<Pid>)
    ensures forall x :: x in r ==> x in s
    ensures forall x :: x in s && x != p ==> x in r
    ensures p !in s ==> r == s
    ensures p in s ==> exists i :: Dropped(s, p, r, i)
  {
    if |s| == 0 then []
    else if s[0] == p then
      assert Dropped(s, p, s[1..], 0);
      s[1..]
    else
      var r := Remove(s[1..], p);
      RemoveTail(s, p, r);
      [s[0]] + r
  }

  /** `r` is `s` without its element `i`, which is the first `p`. */
  ghost predicate Dropped(s: seq<Pid>, p: Pid, r: seq<Pid>, i: int) {
    0 <= i < |s| && s[i] == p && p !in s[..i] && r == s[..i] + s[i + 1..]
  }

  lemma RemoveTail(s: seq<Pid>, p: Pid, r: seq<Pid>)
    requires |s| > 0 && s[0] != p && (p in s[1..] ==> exists i :: Dropped(s[1..], p, r, i))
    ensures p in s ==> exists i :: Dropped(s, p, [s[0]] + r, i)
  {
    if p in s {
      var i :| Dropped(s[1..], p, r, i);
      assert s[..i + 1] == [s[0]] + s[1..][..i] && s[i + 2..] == s[1..][i + 1..];
      assert Dropped(s, p, [s[0]] + r, i + 1);
    }
  }

  lemma RemoveGone(s: seq<Pid>, p: Pid)
    requires NoDup(s)
    ensures NoDup(Remove(s, p)) && p !in Remove(s, p)
  {
    hide Remove;
    var r := Remove(s, p);
    if p in s {
      var i :| Dropped(s, p, r, i);
      forall a, b | 0 <= a < b < |r|
        ensures r[a] != r[b]
      {
        assert r[a] == s[if a < i then a else a + 1] && r[b] == s[if b < i then b else b + 1];
      }
      forall a | 0 <= a < |r|
        ensures r[a] != p
      {
        assert r[a] == s[if a < i then a else a + 1];
      }
    }
  }

  /** llist_push puts the element first. */
  function Push(s: seq<Pid>, p: Pid): (r: seq<Pid>)
    ensures forall x :: x in r <==> x == p || x in s
    ensures NoDup(s) && p !in s ==> NoDup(r)
    ensures |r| == |s| + 1 && r[0] == p && r[1..] == s
  {
    [p] + s
  }

  /** A live process stands in the list that its flag names, and only there; an exited one in none. */
  ghost predicate Listed(procs: map<Pid, Proc>, running: seq<Pid>, sleeping: seq<Pid>, p: Pid) {
    && (p in running <==> p in procs && !procs[p].defunc && !procs[p].isSleeping)
    && (p in sleeping <==> p in procs && !procs[p].defunc && procs[p].isSleeping)
  }

  ghost predicate Lists(procs: map<Pid, Proc>, running: seq<Pid>, sleeping: seq<Pid>) {
    && (forall p :: Listed(procs, running, sleeping, p))
    && NoDup(running) && NoDup(sleeping) && 0 !in procs
  }

  // ---- choosing ----

  function TicksOf(procs: map<Pid, Proc>, running: seq<Pid>): (t: seq<nat>)
    requires forall i :: 0 <= i < |running| ==> running[i] in procs
    ensures |t| == |running|
  {
    seq(|running|, i requires 0 <= i < |running| => procs[running[i]].ticksRem)
  }

  function SlicesOf(procs: map<Pid, Proc>, running: seq<Pid>): (t: seq<nat>)
    requires forall i :: 0 <= i < |running| ==> running[i] in procs
    ensures |t| == |running| && forall i :: 0 <= i < |t| ==> t[i] > 0
  {
    seq(|running|, i requires 0 <= i < |running| => Slice(procs[running[i]].nice))
  }

  function Charged(procs: map<Pid, Proc>, p: Pid): map<Pid, Proc>
    requires p in procs ==> procs[p].ticksRem > 0
  {
    if p in procs then procs[p := procs[p].(ticksRem := procs[p].ticksRem - 1)] else procs
  }

  function Refilled(procs: map<Pid, Proc>, running: seq<Pid>): map<Pid, Proc> {
    map p | p in procs :: if p in running then procs[p].(ticksRem := Slice(procs[p].nice)) else procs[p]
  }

  datatype Choice = Choice(procs: map<Pid, Proc>, current: Pid)

  /** What proc_shedule makes of a list that is not empty. */
  function Choose(procs: map<Pid, Proc>, running: seq<Pid>, current: Pid): Choice
    requires |running| > 0 && (forall i :: 0 <= i < |running| ==> running[i] in procs)
    requires current in procs ==> procs[current].ticksRem > 0
  {
    var c := Charged(procs, current);
    var r := LastReady(TicksOf(c, running));
    if r >= 0 then Choice(c, running[r]) else Choice(Refilled(c, running), running[0])
  }

  /** Nothing but ticks differs. */
  ghost predicate OnlyTicks(procs: map<Pid, Proc>, procs': map<Pid, Proc>) {
    procs.Keys == procs'.Keys && forall p :: p in procs ==> procs'[p] == procs[p].(ticksRem := procs'[p].ticksRem)
  }

  lemma ListsSame(procs: map<Pid, Proc>, procs': map<Pid, Proc>, running: seq<Pid>, sleeping: seq<Pid>)
    requires Lists(procs, running, sleeping) && OnlyTicks(procs, procs')
    ensures Lists(procs', running, sleeping)
  {
    forall p
      ensures Listed(procs', running, sleeping, p)
    {
      assert Listed(procs, running, sleeping, p);
    }
  }

  lemma ChargeOnly(procs: map<Pid, Proc>, running: seq<Pid>, p: Pid)
    requires p in procs ==> procs[p].ticksRem > 0
    ensures OnlyTicks(procs, Charged(procs, p)) && OnlyTicks(procs, Refilled(Charged(procs, p), running))
  {
  }

  lemma RunningKnown(procs: map<Pid, Proc>, running: seq<Pid>, sleeping: seq<Pid>)
    requires Lists(procs, running, sleeping)
    ensures forall i :: 0 <= i < |running| ==> running[i] in procs
  {
    forall i | 0 <= i < |running|
      ensures running[i] in procs
    {
      assert Listed(procs, running, sleeping, running[i]);
    }
  }

  lemma ChooseKeeps(procs: map<Pid, Proc>, running: seq<Pid>, sleeping: seq<Pid>, current: Pid)
    requires Lists(procs, running, sleeping) && |running| > 0 && (current in procs ==> procs[current].ticksRem > 0)
    requires forall i :: 0 <= i < |running| ==> running[i] in procs
    ensures var c := Choose(procs, running, current);
            && Lists(c.procs, running, sleeping) && c.current in running && c.current in c.procs
            && c.procs[c.current].ticksRem > 0
            && OnlyTicks(procs, c.procs)
  {
    hide Lists, OnlyTicks;
    var c := Choose(procs, running, current);
    ChargeOnly(procs, running, current);
    ListsSame(procs, c.procs, running, sleeping);
  }

  // ---- lists and flags change together ----

  /** PIDs are used once, parents stay known, and an exited process does not sleep. */
  ghost predicate Known(procs: map<Pid, Proc>, nextpid: Pid, p: Pid)
    requires p in procs
  {
    0 < p < nextpid && (procs[p].parent == 0 || procs[p].parent in procs) && (procs[p].defunc ==> !procs[p].isSleeping)
  }

  /** Processes are not forgotten, and those that exited stay exited. */
  ghost predicate Later(before: map<Pid, Proc>, after: map<Pid, Proc>) {
    forall p :: p in before ==> p in after && (before[p].defunc ==> after[p].defunc)
  }

  lemma SleepKeeps(procs: map<Pid, Proc>, running: seq<Pid>, sleeping: seq<Pid>, p: Pid)
    requires Lists(procs, running, sleeping) && p in procs && !procs[p].defunc && !procs[p].isSleeping
    ensures Lists(procs[p := procs[p].(isSleeping := true)], Remove(running, p), Push(sleeping, p))
  {
    hide Remove, Push;
    assert Listed(procs, running, sleeping, p);
    RemoveGone(running, p);
    var procs', r, s := procs[p := procs[p].(isSleeping := true)], Remove(running, p), Push(sleeping, p);
    forall x
      ensures Listed(procs', r, s, x)
    {
      assert Listed(procs, running, sleeping, x);
    }
  }

  lemma WakeKeeps(procs: map<Pid, Proc>, running: seq<Pid>, sleeping: seq<Pid>, p: Pid)
    requires Lists(procs, running, sleeping) && p in procs && !procs[p].defunc && procs[p].isSleeping
    ensures Lists(procs[p := procs[p].(isSleeping := false)], Push(running, p), Remove(sleeping, p))
  {
    hide Remove, Push;
    assert Listed(procs, running, sleeping, p);
    RemoveGone(sleeping, p);
    var procs', r, s := procs[p := procs[p].(isSleeping := false)], Push(running, p), Remove(sleeping, p);
    forall x
      ensures Listed(procs', r, s, x)
    {
      assert Listed(procs, running, sleeping, x);
    }
  }

  lemma ExitKeeps(procs: map<Pid, Proc>, running: seq<Pid>, sleeping: seq<Pid>, p: Pid, ret: int)
    requires Lists(procs, running, sleeping) && p in running
    ensures p in procs && Lists(procs[p := procs[p].(ret := ret, defunc := true)], Remove(running, p), sleeping)
  {
    hide Remove;
    assert Listed(procs, running, sleeping, p);
    RemoveGone(running, p);
    var procs', r := procs[p := procs[p].(ret := ret, defunc := true)], Remove(running, p);
    forall x
      ensures Listed(procs', r, sleeping, x)
    {
      assert Listed(procs, running, sleeping, x);
    }
  }

  lemma CreateKeeps(procs: map<Pid, Proc>, running: seq<Pid>, sleeping: seq<Pid>, p: Pid, q: Proc)
    requires Lists(procs, running, sleeping) && p !in procs && p != 0 && !q.defunc
    ensures Lists(procs[p := q],
                  if q.isSleeping then running else Push(running, p),
                  if q.isSleeping then Push(sleeping, p) else sleeping)
  {
    hide Push;
    assert Listed(procs, running, sleeping, p);
    var r := if q.isSleeping then running else Push(running, p);
    var s := if q.isSleeping then Push(sleeping, p) else sleeping;
    var procs' := procs[p := q];
    forall x
      ensures Listed(procs', r, s, x)
    {
      assert Listed(procs, running, sleeping, x);
    }
  }

  lemma ListedOne(procs: map<Pid, Proc>, running: seq<Pid>, sleeping: seq<Pid>, p: Pid)
    requires Lists(procs, running, sleeping)
    ensures Listed(procs, running, sleeping, p)
  {
  }

  /** A parent that was told which child exited, and with which result if it asked for that. */
  function Told(q: Proc, child: Pid, ret: int): Proc {
    q.(wait := false, eax := child, status := if q.waitStat then ret else q.status)
  }

  /**
   * The parent `q` of the exited `p` waits no more, has its number and, if it asked for it, its result, and runs unless
   * it has exited itself.
   */
  ghost predicate Awake(before: map<Pid, Proc>, after: map<Pid, Proc>, running: seq<Pid>, p: Pid, q: Pid, ret: int) {
    && q in before && q in after && !after[q].wait && (q != p && !before[q].defunc ==> q in running)
    && after[q].eax == p && (before[q].waitStat ==> after[q].status == ret)
  }

  // ---- the object ----

  datatype Outcome = Shutdown | Idle | Dispatch

  class Processes {
    var procs: map<Pid, Proc>     // proc_all
    var running: seq<Pid>
    var sleeping: seq<Pid>
    var current: Pid
    var nextpid: Pid

    ghost predicate Sane()
      reads this
    {
      && Lists(procs, running, sleeping) && nextpid > 0
      && (forall p :: p in procs ==> Known(procs, nextpid, p))
      && (current != 0 ==> current in procs && procs[current].ticksRem > 0)
    }

    /** The process that runs is runnable and has ticks left. */
    ghost predicate Valid()
      reads this
    {
      Sane() && (current != 0 ==> current in running)
    }

    /** proc_init */
    constructor ()
      ensures Valid() && procs == map[] && running == sleeping == [] && current == 0
    {
      procs, running, sleeping, current, nextpid := map[], [], [], 0, 1;
    }

    /** The search for a process with ticks left (procm.c:282-284). */
    method FindReady() returns (r: Pid)
      requires forall i :: 0 <= i < |running| ==> running[i] in procs
      requires 0 !in procs
      ensures var l := LastReady(TicksOf(procs, running)); r == if l >= 0 then running[l] else 0
    {
      r := 0;
      var i := 0;
      while i < |running|
        invariant 0 <= i <= |running|
        invariant var l := LastReady(TicksOf(procs, running[..i])); r == if l >= 0 then running[l] else 0
      {
        assert TicksOf(procs, running[..i + 1])[..i] == TicksOf(procs, running[..i]);
        if procs[running[i]].ticksRem > 0 { r := running[i]; }
        i := i + 1;
      }
      assert running[..i] == running;
    }

    /** All slices are filled (procm.c:289). */
    method Refill()
      requires forall i :: 0 <= i < |running| ==> running[i] in procs
      modifies this`procs
      ensures procs == Refilled(old(procs), running)
    {
      var i := 0;
      while i < |running|
        invariant 0 <= i <= |running|
        invariant procs == Refilled(old(procs), running[..i])
      {
        var p := running[i];
        procs := procs[p := procs[p].(ticksRem := Slice(procs[p].nice))];
        assert running[..i + 1] == running[..i] + [p];
        i := i + 1;
      }
      assert running[..i] == running;
    }

    /** proc_shedule. Shutting down and idling do not return to the caller. */
    method Schedule() returns (o: Outcome)
      requires Sane()
      modifies this`procs, this`current
      ensures Sane() && (o != Shutdown ==> Valid()) && OnlyTicks(old(procs), procs)
      ensures running == [] ==>
                o == (if sleeping == [] then Shutdown else Idle) && procs == old(procs) && (o == Idle ==> current == 0)
      ensures running != [] ==> o == Dispatch && (forall i :: 0 <= i < |running| ==> running[i] in old(procs))
                                && Choice(procs, current) == Choose(old(procs), running, old(current))
                                && current in running && current != 0
    {
      hide Lists;
      if |running| == 0 {
        if |sleeping| == 0 { return Shutdown; }
        current := 0;
        return Idle;
      }
      RunningKnown(procs, running, sleeping);
      ChooseKeeps(procs, running, sleeping, current);
      NoNull(procs, running, sleeping);
      if current != 0 {
        procs := procs[current := procs[current].(ticksRem := procs[current].ticksRem - 1)];
        current := 0;
      }
      current := FindReady();
      if current == 0 {
        Refill();
        current := running[0];
      }
      o := Dispatch;
    }

    /** proc_create; the fields that it leaves as the allocator returned them are those of `raw`. */
    method Create(parent: Pid, gid: int, runs: bool, raw: Proc) returns (p: Pid)
      requires Valid() && (parent == 0 || parent in procs)
      modifies this
      ensures Valid() && Later(old(procs), procs) && current == old(current)
      ensures p !in old(procs) &&
              procs == old(procs)[p := raw.(parent := parent, gid := gid, nice := 0, ticksRem := Slice(0),
                                            isSleeping := !runs, defunc := false, eax := 0)]
      ensures running == (if runs then Push(old(running), p) else old(running))
      ensures sleeping == (if runs then old(sleeping) else Push(old(sleeping), p))
    {
      hide Lists, Push;
      p := nextpid;
      nextpid := nextpid + 1;
      var q := raw.(parent := parent, gid := gid, nice := 0, ticksRem := Slice(0), isSleeping := !runs,
                    defunc := false, eax := 0);
      CreateKeeps(procs, running, sleeping, p, q);
      procs := procs[p := q];
      if runs {
        running := Push(running, p);
      } else {
        sleeping := Push(sleeping, p);
      }
    }

    /** proc_sleep: all is well exactly when the process has not exited. */
    method Sleep(p: Pid)
      requires Valid() && p in procs
      modifies this
      ensures Valid() <==> !old(procs[p].defunc)
      ensures Later(old(procs), procs)
      ensures old(procs[p].isSleeping) ==>
                procs == old(procs) && running == old(running) && sleeping == old(sleeping) && current == old(current)
      ensures !old(procs[p].isSleeping) ==> running == Remove(old(running), p) && sleeping == Push(old(sleeping), p)
                                             && OnlyTicks(old(procs)[p := old(procs[p]).(isSleeping := true)], procs)
      ensures !old(procs[p].isSleeping) && p != old(current) ==>
                current == old(current) && procs == old(procs)[p := old(procs[p]).(isSleeping := true)]
      ensures !old(procs[p].isSleeping) && p == old(current) && running == [] ==> current == 0
      ensures !old(procs[p].isSleeping) && p == old(current) && running != [] ==>
                var was := old(procs)[p := old(procs[p]).(isSleeping := true)];
                && (forall i :: 0 <= i < |running| ==> running[i] in was)
                && Choice(procs, current) == Choose(was, running, p) && current in running && current != 0
    {
      hide Lists, Push, Remove, Choose, Listed;
      ListedOne(procs, running, sleeping, p);
      if !procs[p].isSleeping {
        if !procs[p].defunc { SleepKeeps(procs, running, sleeping, p); }
        running := Remove(running, p);
        sleeping := Push(sleeping, p);
        procs := procs[p := procs[p].(isSleeping := true)];
        assert procs[p].defunc ==> !Known(procs, nextpid, p);
        if p == current {
          var o := Schedule();
        }
      }
    }

    /** proc_wake */
    method Wake(p: Pid)
      requires Valid() && p in procs
      modifies this`procs, this`running, this`sleeping
      ensures Valid() && Later(old(procs), procs)
      ensures !old(procs[p].isSleeping) ==> procs == old(procs) && running == old(running) && sleeping == old(sleeping)
      ensures old(procs[p].isSleeping) ==> && running == Push(old(running), p) && sleeping == Remove(old(sleeping), p)
                                            && procs == old(procs)[p := old(procs[p]).(isSleeping := false)]
    {
      hide Lists, Push, Remove;
      if procs[p].isSleeping {
        WakeKeeps(procs, running, sleeping, p);
        sleeping := Remove(sleeping, p);
        running := Push(running, p);
        procs := procs[p := procs[p].(isSleeping := false)];
      }
    }

    /** The parent is told, if it waits for a process like the current one (procm.c:515-529). */
    method WakeParent(ret: int) returns (told: bool)
      requires Valid() && current != 0
      modifies this`procs, this`running, this`sleeping
      ensures Valid() && Later(old(procs), procs) && current in procs && Known(old(procs), nextpid, current)
      ensures told <==> var me, q := old(procs[current]), old(procs[current].parent);
                        && q != 0 && old(procs)[q].wait
                        && (|| old(procs)[q].waitPid == -1 || old(procs)[q].waitPid == current
                            || (old(procs)[q].waitPid == 0 && me.gid == old(procs)[q].gid)
                            || (old(procs)[q].waitPid < -1 && -old(procs)[q].waitPid == me.gid))
      ensures !told ==> procs == old(procs) && running == old(running) && sleeping == old(sleeping)
      ensures told ==>
                var q := procs[current].parent;
                && q == old(procs[current].parent) && q in procs
                && procs == old(procs)[q := Told(old(procs)[q], current, ret).(isSleeping := false)]
                && running == (if old(procs)[q].isSleeping then Push(old(running), q) else old(running))
                && sleeping == (if old(procs)[q].isSleeping then Remove(old(sleeping), q) else old(sleeping))
    {
      hide Lists, Push, Remove;
      assert Known(procs, nextpid, current);
      told := false;
      var q := procs[current].parent;
      if q != 0 {
        if procs[q].wait {
          var pid := procs[q].waitPid;
          if || pid == -1 || pid == current || (pid == 0 && procs[current].gid == procs[q].gid)
             || (pid < -1 && -pid == procs[current].gid)
          {
            var r := procs[q].(eax := current);
            if r.waitStat {
              r := r.(status := ret);
            }
            r := r.(wait := false);
            WaitKeeps(procs, running, sleeping, q, r);
            procs := procs[q := r];
            Wake(q);
            told := true;
          }
        }
      }
    }

    /**
     * proc_exit. A parent that waits is woken in four cases: it waits for any child, for this one, for one of its own
     * group, or for one of the group of this one.
     */
    method Exit(ret: int)
      requires Valid() && current != 0
      modifies this`procs, this`running, this`sleeping, this`current
      ensures Valid() && Later(old(procs), procs) && current == 0 && Known(old(procs), nextpid, old(current))
      ensures var p := old(current);
              p in procs && procs[p].defunc && procs[p].ret == ret && p !in running && p !in sleeping
      ensures procs.Keys == old(procs.Keys)
      ensures forall x :: x in procs && x != old(current) && x != old(procs[current].parent) ==>
                            procs[x] == old(procs)[x]
      ensures var p, q := old(current), old(procs[current].parent);
              q != 0 && old(procs)[q].wait && old(procs)[q].waitPid == -1 ==>
                Awake(old(procs), procs, running, p, q, ret)
      ensures var p, q := old(current), old(procs[current].parent);
              q != 0 && old(procs)[q].wait && old(procs)[q].waitPid == p ==>
                Awake(old(procs), procs, running, p, q, ret)
      ensures var p, q := old(current), old(procs[current].parent);
              q != 0 && old(procs)[q].wait && old(procs)[q].waitPid == 0 && old(procs)[p].gid == old(procs)[q].gid ==>
                Awake(old(procs), procs, running, p, q, ret)
      ensures var p, q := old(current), old(procs[current].parent);
              q != 0 && old(procs)[q].wait && old(procs)[q].waitPid < -1 &&
              -old(procs)[q].waitPid == old(procs)[p].gid ==>
                Awake(old(procs), procs, running, p, q, ret)
      ensures var p, q := old(current), old(procs[current].parent);
              (|| q == 0 || !old(procs)[q].wait
               || (&& old(procs)[q].waitPid != -1 && old(procs)[q].waitPid != p
                   && !(old(procs)[q].waitPid == 0 && old(procs)[p].gid == old(procs)[q].gid)
                   && !(old(procs)[q].waitPid < -1 && -old(procs)[q].waitPid == old(procs)[p].gid))) ==>
                && running == Remove(old(running), p) && sleeping == old(sleeping)
                && procs == old(procs)[p := old(procs)[p].(ret := ret, defunc := true)]
    {
      hide Lists, Push, Remove;
      ListedOne(procs, running, sleeping, current);
      var told := WakeParent(ret);
      ListedOne(procs, running, sleeping, current);
      ListedOne(procs, running, sleeping, procs[current].parent);
      ExitKeeps(procs, running, sleeping, current, ret);
      procs := procs[current := procs[current].(ret := ret, defunc := true)];
      running := Remove(running, current);
      ListedOne(procs, running, sleeping, current);
      current := 0;
    }

    /** proc_waitpid: `stat` is what is stored at the caller's reference when the result is not -1. */
    method WaitPid(pid: int, waitStat: bool) returns (r: int, stat: int)
      requires Valid() && current != 0
      modifies this
      ensures Valid() && Later(old(procs), procs)
      ensures pid > 0 && pid !in old(procs) ==>
                r == -1 && procs == old(procs) && current == old(current) &&
                running == old(running) && sleeping == old(sleeping)
      ensures pid > 0 && pid in old(procs) && old(procs)[pid].defunc ==>
                r == pid && stat == old(procs)[pid].ret && procs == old(procs) && current == old(current) &&
                running == old(running) && sleeping == old(sleeping)
      ensures !(pid > 0 && (pid !in old(procs) || old(procs)[pid].defunc)) ==>
                r == -1 && var c := old(current);
                           var w := old(procs[c]).(waitPid := pid, waitStat := waitStat, wait := true,
                                                   isSleeping := true);
                           && c in procs && procs[c].wait && procs[c].waitPid == pid
                           && c in sleeping && current != c && running == Remove(old(running), c)
                           && (running != [] ==> current in running && current != 0)
                           && OnlyTicks(old(procs)[c := w], procs)
    {
      hide Lists, Push, Remove, Choose, Listed;
      r, stat := -1, 0;
      if pid > 0 {
        if pid !in procs { return; }
        if procs[pid].defunc { return pid, procs[pid].ret; }
      }
      ListedOne(procs, running, sleeping, current);
      ghost var c := current;
      var q := procs[current].(waitPid := pid, waitStat := waitStat, wait := true);
      WaitKeeps(procs, running, sleeping, current, q);
      procs := procs[current := q];
      ListedOne(procs, running, sleeping, current);
      Sleep(current);
      ListedOne(procs, running, sleeping, c);
    }
  }

  lemma NoNull(procs: map<Pid, Proc>, running: seq<Pid>, sleeping: seq<Pid>)
    requires Lists(procs, running, sleeping)
    ensures 0 !in procs
  {
  }

  /** Waiting does not change the lists. */
  lemma WaitKeeps(procs: map<Pid, Proc>, running: seq<Pid>, sleeping: seq<Pid>, p: Pid, q: Proc)
    requires Lists(procs, running, sleeping) && p in procs && q.defunc == procs[p].defunc &&
             q.isSleeping == procs[p].isSleeping
    ensures Lists(procs[p := q], running, sleeping)
  {
    var procs' := procs[p := q];
    forall x
      ensures Listed(procs', running, sleeping, x)
    {
      assert Listed(procs, running, sleeping, x);
    }
  }

  // ---- runs of timer ticks ----

  /** The list of runnable processes and the one that runs. */
  ghost predicate Steady(c: Choice, running: seq<Pid>) {
    && NoDup(running) && (forall i :: 0 <= i < |running| ==> running[i] in c.procs)
    && c.current in running && c.procs[c.current].ticksRem > 0
  }

  function Place(s: seq<Pid>, p: Pid): (i: nat)
    requires p in s
    ensures i < |s| && s[i] == p
  {
    if s[0] == p then 0 else 1 + Place(s[1..], p)
  }

  function SlotOf(c: Choice, running: seq<Pid>): Slot
    requires (forall i :: 0 <= i < |running| ==> running[i] in c.procs) && c.current in running
  {
    Slot(TicksOf(c.procs, running), Place(running, c.current))
  }

  lemma ChargeIs(procs: map<Pid, Proc>, running: seq<Pid>, i: nat)
    requires NoDup(running) && i < |running| && (forall j :: 0 <= j < |running| ==> running[j] in procs) &&
             procs[running[i]].ticksRem > 0
    ensures var t := TicksOf(procs, running); TicksOf(Charged(procs, running[i]), running) == t[i := t[i] - 1]
  {
  }

  lemma RefillIs(procs: map<Pid, Proc>, running: seq<Pid>)
    requires forall j :: 0 <= j < |running| ==> running[j] in procs
    ensures TicksOf(Refilled(procs, running), running) == SlicesOf(procs, running)
  {
  }

  lemma SlicesSame(procs: map<Pid, Proc>, procs': map<Pid, Proc>, running: seq<Pid>)
    requires (forall j :: 0 <= j < |running| ==> running[j] in procs) && OnlyTicks(procs, procs')
    ensures SlicesOf(procs', running) == SlicesOf(procs, running)
  {
  }

  lemma PlaceIs(s: seq<Pid>, i: nat)
    requires NoDup(s) && i < |s|
    ensures Place(s, s[i]) == i
  {
  }

  /** One call of proc_shedule while the list stays as it is. */
  function Next(c: Choice, running: seq<Pid>): Choice
    requires Steady(c, running)
  {
    Choose(c.procs, running, c.current)
  }

  lemma NextIsTick(c: Choice, running: seq<Pid>)
    requires Steady(c, running)
    ensures var d := Next(c, running);
            && Steady(d, running) && OnlyTicks(c.procs, d.procs)
            && Running(SlotOf(c, running), SlicesOf(c.procs, running))
            && SlotOf(d, running) == Tick(SlotOf(c, running), SlicesOf(c.procs, running))
  {
    hide TicksOf, SlicesOf, OnlyTicks, Charged, Refilled, Place;
    var i, procs := Place(running, c.current), Charged(c.procs, c.current);
    TicksAre(c.procs, running);
    ChargeOnly(c.procs, running, c.current);
    ChargeIs(c.procs, running, i);
    SameKeys(c.procs, procs);
    SameKeys(c.procs, Refilled(procs, running));
    TicksAre(procs, running);
    var r := LastReady(TicksOf(procs, running));
    if r >= 0 {
      PlaceIs(running, r);
    } else {
      RefillIs(procs, running);
      SlicesSame(c.procs, procs, running);
      TicksAre(Refilled(procs, running), running);
      PlaceIs(running, 0);
    }
  }

  lemma SameKeys(procs: map<Pid, Proc>, procs': map<Pid, Proc>)
    requires OnlyTicks(procs, procs')
    ensures procs.Keys == procs'.Keys
  {
  }

  lemma TicksAre(procs: map<Pid, Proc>, running: seq<Pid>)
    requires forall j :: 0 <= j < |running| ==> running[j] in procs
    ensures var t := TicksOf(procs, running); forall j :: 0 <= j < |running| ==> t[j] == procs[running[j]].ticksRem
  {
  }

  function Timer(c: Choice, running: seq<Pid>, n: nat): (d: Choice)
    requires Steady(c, running)
    ensures Steady(d, running)
  {
    if n == 0 then c
    else
      var b := Timer(c, running, n - 1);
      NextIsTick(b, running);
      Next(b, running)
  }

  /** In how many of the next `n` ticks the process runs. */
  function Ran(c: Choice, running: seq<Pid>, n: nat, p: Pid): nat
    requires Steady(c, running)
  {
    if n == 0 then 0 else Ran(c, running, n - 1, p) + if Timer(c, running, n - 1).current == p then 1 else 0
  }

  lemma {:induction false} TimerIs(c: Choice, running: seq<Pid>, n: nat, i: nat)
    requires Steady(c, running) && i < |running| && Running(SlotOf(c, running), SlicesOf(c.procs, running))
    ensures OnlyTicks(c.procs, Timer(c, running, n).procs)
    ensures SlotOf(Timer(c, running, n), running) == Ticks(SlotOf(c, running), SlicesOf(c.procs, running), n)
    ensures Ran(c, running, n, running[i]) == Turns(SlotOf(c, running), SlicesOf(c.procs, running), n, i)
  {
    hide TicksOf, SlicesOf, Next, Tick, Place;
    if n == 0 {
    } else {
      TimerIs(c, running, n - 1, i);
      var b := Timer(c, running, n - 1);
      NextIsTick(b, running);
      SlicesSame(c.procs, b.procs, running);
      PlaceIs(running, i);
    }
  }

  /** From full slices, `k` rounds give every runnable process `k` times its slice, no more and no less. */
  lemma Fair(c: Choice, running: seq<Pid>, k: nat, i: nat)
    requires Steady(c, running) && i < |running| && c.current == running[0] &&
             TicksOf(c.procs, running) == SlicesOf(c.procs, running)
    ensures Ran(c, running, k * Sum(SlicesOf(c.procs, running)), running[i]) == k * Slice(c.procs[running[i]].nice)
  {
    hide Ticks, Turns, Sum, Ran, Next, Tick, Place, TicksOf, Slice;
    var slices := SlicesOf(c.procs, running);
    NextIsTick(c, running);
    PlaceIs(running, 0);
    Rounds(slices, k, i);
    TimerIs(c, running, k * Sum(slices), i);
  }

  lemma {:induction false} SumOnes(s: seq<nat>)
    requires forall i :: 0 <= i < |s| ==> s[i] == 1
    ensures Sum(s) == |s|
  {
    if |s| == 0 {
    } else {
      SumOnes(s[..|s| - 1]);
    }
  }

  /**
   * The nice value makes no difference: in `k` times as many ticks as there are processes, each of them runs `k`
   * times.
   */
  lemma EqualShares(c: Choice, running: seq<Pid>, k: nat, i: nat)
    requires Steady(c, running) && i < |running| && c.current == running[0]
    requires forall j :: 0 <= j < |running| ==> running[j] in c.procs && c.procs[running[j]].ticksRem == 1
    ensures Ran(c, running, k * |running|, running[i]) == k
  {
    hide Ran, Next;
    assert TicksOf(c.procs, running) == SlicesOf(c.procs, running);
    SumOnes(SlicesOf(c.procs, running));
    Fair(c, running, k, i);
  }

  /** Whatever is left of the slices, every runnable process runs before the second refill. */
  lemma RunsSoon(c: Choice, running: seq<Pid>, i: nat)
    requires Steady(c, running) && i < |running|
    ensures Ran(c, running, Sum(TicksOf(c.procs, running)) + Sum(SlicesOf(c.procs, running)), running[i]) > 0
  {
    hide Ticks, Turns, Sum, Ran, Next, Tick, Place, TicksOf, SlicesOf;
    NextIsTick(c, running);
    NoStarving(SlotOf(c, running), SlicesOf(c.procs, running), i);
    TimerIs(c, running, Sum(TicksOf(c.procs, running)) + Sum(SlicesOf(c.procs, running)), i);
  }
}
