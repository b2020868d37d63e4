/**
 * A parent that waits and a child that exits (kernel2/procm.c): the two calls meet.
 */
module Waiting {
  import opened Totals
  import opened Scheduler

  /** A process that ran in some of the ticks was chosen in one of them. */
  lemma {:induction false} SomeTurn(c: Choice, running: seq<Pid>, n: nat, p: Pid) returns (k: nat)
    requires Steady(c, running) && Ran(c, running, n, p) > 0
    ensures k < n && Timer(c, running, k).current == p
  {
    hide Timer, Steady;
    if Timer(c, running, n - 1).current == p {
      k := n - 1;
    } else {
      k := SomeTurn(c, running, n - 1, p);
    }
  }

  /** The tick that gives a runnable process its turn. */
  lemma TurnOf(c: Choice, running: seq<Pid>, p: Pid) returns (k: nat)
    requires Steady(c, running) && p in running
    ensures Timer(c, running, k).current == p
  {
    hide Steady, Ran, Timer, Place, TicksOf, SlicesOf, Sum;
    var i := Place(running, p);
    SteadyKnown(c, running);
    RunsSoon(c, running, i);
    k := SomeTurn(c, running, Sum(TicksOf(c.procs, running)) + Sum(SlicesOf(c.procs, running)), p);
  }

  lemma SteadyKnown(c: Choice, running: seq<Pid>)
    requires Steady(c, running)
    ensures forall i :: 0 <= i < |running| ==> running[i] in c.procs
  {
  }

  lemma OnlyTicksOn(a: map<Pid, Proc>, b: map<Pid, Proc>, c: map<Pid, Proc>)
    requires OnlyTicks(a, b) && OnlyTicks(b, c)
    ensures OnlyTicks(a, c)
  {
  }

  lemma RemoveOther(s: seq<Pid>, p: Pid, x: Pid)
    requires x in s && x != p
    ensures x in Remove(s, p)
  {
  }

  lemma SteadyNow(ps: Processes)
    requires ps.Valid() && ps.current != 0
    ensures Steady(Choice(ps.procs, ps.current), ps.running)
  {
    RunningKnown(ps.procs, ps.running, ps.sleeping);
  }

  /** Timer ticks come until the process has its turn. */
  method Until(ps: Processes, p: Pid)
    requires ps.Valid() && ps.current != 0 && p in ps.running
    modifies ps`procs, ps`current
    ensures ps.Valid() && ps.current == p && OnlyTicks(old(ps.procs), ps.procs)
  {
    hide Steady, Timer, OnlyTicks, Choose, Lists;
    SteadyNow(ps);
    ghost var c, i := Choice(ps.procs, ps.current), 0;
    ghost var k := TurnOf(c, ps.running, p);
    OnlyTicksSame(ps.procs);
    TimerNext(c, ps.running, 0);
    while ps.current != p
      invariant ps.Valid() && ps.current != 0 && i <= k
      invariant Choice(ps.procs, ps.current) == Timer(c, ps.running, i) && OnlyTicks(old(ps.procs), ps.procs)
      decreases k - i
    {
      ghost var was := ps.procs;
      TimerNext(c, ps.running, i);
      var o := ps.Schedule();
      OnlyTicksOn(old(ps.procs), was, ps.procs);
      i := i + 1;
    }
  }

  lemma OnlyTicksSame(a: map<Pid, Proc>)
    ensures OnlyTicks(a, a)
  {
  }

  lemma TimerNext(c: Choice, running: seq<Pid>, n: nat)
    requires Steady(c, running)
    ensures var b := Timer(c, running, n);
            Steady(b, running) && Timer(c, running, n + 1) == Next(b, running) && Timer(c, running, 0) == c
  {
  }

  /**
   * A process calls proc_waitpid, the timer ticks until one of its children runs, and that child calls proc_exit.
   * Then the parent is awake in the four cases that waitpid names, with the number and the result of the child, and
   * asleep and still waiting in every other.
   */
  method WaitMeetsExit(ps: Processes, pid: int, waitStat: bool, child: Pid, ret: int)
    requires ps.Valid() && ps.current != 0 && ps.current in ps.procs
    requires child in ps.running && child in ps.procs && child != ps.current && ps.procs[child].parent == ps.current
    requires pid > 0 ==> pid in ps.procs && !ps.procs[pid].defunc
    modifies ps
    ensures ps.Valid() && old(ps.current) in ps.procs
    ensures child in ps.procs && ps.procs[child].defunc && ps.procs[child].ret == ret
    ensures var parent := old(ps.current);
            var gid, own := old(ps.procs[child].gid), old(ps.procs[ps.current].gid);
            pid == child || pid == -1 || (pid == 0 && gid == own) || (pid < -1 && gid == -pid) ==>
              && parent in ps.running && !ps.procs[parent].wait
              && ps.procs[parent].eax == child && (waitStat ==> ps.procs[parent].status == ret)
    ensures var parent := old(ps.current);
            var gid, own := old(ps.procs[child].gid), old(ps.procs[ps.current].gid);
            && (pid > 0 && pid != child ==> parent in ps.sleeping && ps.procs[parent].wait)
            && (pid == 0 && gid != own ==> parent in ps.sleeping && ps.procs[parent].wait)
            && (pid < -1 && gid != -pid ==> parent in ps.sleeping && ps.procs[parent].wait)
  {
    hide Lists, Steady, Remove;
    RemoveOther(ps.running, ps.current, child);
    ListedOne(ps.procs, ps.running, ps.sleeping, ps.current);
    var r, stat := ps.WaitPid(pid, waitStat);
    Until(ps, child);
    ps.Exit(ret);
  }
}
