/** The time slices of proc_shedule, for a fixed list of runnable processes. */
module RoundRobin {
  import opened Totals

  /** Ticks left to each process of the list, and the place of the one that runs. */
  datatype Slot = Slot(ticks: seq<nat>, cur: nat)

  /** The last place with ticks left, or -1: the search of the source goes on after a hit. */
  function LastReady(t: seq<nat>): (r: int)
    ensures -1 <= r < |t|
    ensures r >= 0 ==> t[r] > 0 && forall j :: r < j < |t| ==> t[j] == 0
    ensures r < 0 ==> forall j :: 0 <= j < |t| ==> t[j] == 0
  {
    if |t| == 0 then -1
    else if t[|t| - 1] > 0 then |t| - 1
    else LastReady(t[..|t| - 1])
  }

  ghost predicate Running(s: Slot, slices: seq<nat>) {
    && |s.ticks| == |slices| && s.cur < |slices| && s.ticks[s.cur] > 0
    && forall i :: 0 <= i < |slices| ==> slices[i] > 0
  }

  /** One timer tick: the process that ran is charged; when nobody has ticks left, all slices are filled. */
  function Tick(s: Slot, slices: seq<nat>): Slot
    requires s.cur < |s.ticks| && s.ticks[s.cur] > 0
  {
    var t := s.ticks[s.cur := s.ticks[s.cur] - 1];
    var r := LastReady(t);
    if r >= 0 then Slot(t, r) else Slot(slices, 0)
  }

  lemma TickRuns(s: Slot, slices: seq<nat>)
    requires Running(s, slices)
    ensures Running(Tick(s, slices), slices)
  {
  }

  function Ticks(s: Slot, slices: seq<nat>, n: nat): (r: Slot)
    requires Running(s, slices)
    ensures Running(r, slices)
  {
    if n == 0 then s
    else
      var p := Ticks(s, slices, n - 1);
      TickRuns(p, slices);
      Tick(p, slices)
  }

  /** In how many of the next `n` ticks process `i` runs. */
  function Turns(s: Slot, slices: seq<nat>, n: nat, i: nat): nat
    requires Running(s, slices)
  {
    if n == 0 then 0 else Turns(s, slices, n - 1, i) + if Ticks(s, slices, n - 1).cur == i then 1 else 0
  }

  lemma SumZero(t: seq<nat>)
    ensures Sum(t) == 0 <==> forall i :: 0 <= i < |t| ==> t[i] == 0
  {
    if Sum(t) == 0 {
      forall i | 0 <= i < |t|
        ensures t[i] == 0
      {
        SumAt(t, i);
      }
    } else if forall i :: 0 <= i < |t| ==> t[i] == 0 {
      SumZeros(t);
    }
  }

  /** One tick: either one tick less is left in all, or none was left and the slices are full again. */
  lemma TickSpends(s: Slot, slices: seq<nat>)
    requires Running(s, slices)
    ensures Sum(s.ticks) > 0
    ensures Sum(s.ticks) > 1 ==>
              Tick(s, slices).ticks == s.ticks[s.cur := s.ticks[s.cur] - 1] &&
              Sum(Tick(s, slices).ticks) == Sum(s.ticks) - 1
    ensures Sum(s.ticks) == 1 ==>
              Tick(s, slices) == Slot(slices, 0) &&
              forall i :: 0 <= i < |slices| ==> s.ticks[i] == if i == s.cur then 1 else 0
  {
    var t := s.ticks[s.cur := s.ticks[s.cur] - 1];
    SumUpdate(s.ticks, s.cur, s.ticks[s.cur] - 1);
    SumZero(t);
    if Sum(s.ticks) == 1 {
      assert t[s.cur] == 0;
      forall i | 0 <= i < |slices|
        ensures s.ticks[i] == if i == s.cur then 1 else 0
      {
        assert t[i] == 0;
      }
    }
  }

  /** Until the slices are filled again, ticks left and turns taken add up. */
  lemma {:induction false} Spend(s: Slot, slices: seq<nat>, n: nat, i: nat)
    requires Running(s, slices) && n < Sum(s.ticks) && i < |slices|
    ensures Sum(Ticks(s, slices, n).ticks) == Sum(s.ticks) - n
    ensures Ticks(s, slices, n).ticks[i] + Turns(s, slices, n, i) == s.ticks[i]
  {
    hide Tick;
    if n == 0 {
    } else {
      Spend(s, slices, n - 1, i);
      TickSpends(Ticks(s, slices, n - 1), slices);
    }
  }

  /** All slices are filled after as many ticks as were left, and every process has had its ticks. */
  lemma SpendAll(s: Slot, slices: seq<nat>, i: nat)
    requires Running(s, slices) && i < |slices|
    ensures Ticks(s, slices, Sum(s.ticks)) == Slot(slices, 0)
    ensures Turns(s, slices, Sum(s.ticks), i) == s.ticks[i]
  {
    TickSpends(s, slices);
    var n := Sum(s.ticks);
    Spend(s, slices, n - 1, i);
    TickSpends(Ticks(s, slices, n - 1), slices);
  }

  lemma {:induction false} TicksJoin(s: Slot, slices: seq<nat>, a: nat, b: nat, i: nat)
    requires Running(s, slices)
    ensures Ticks(s, slices, a + b) == Ticks(Ticks(s, slices, a), slices, b)
    ensures Turns(s, slices, a + b, i) == Turns(s, slices, a, i) + Turns(Ticks(s, slices, a), slices, b, i)
  {
    hide Tick, Running;
    if b == 0 {
    } else {
      TicksJoin(s, slices, a, b - 1, i);
      assert a + b - 1 == a + (b - 1);
    }
  }

  lemma NoTicks(s: Slot, slices: seq<nat>, i: nat)
    requires Running(s, slices)
    ensures Ticks(s, slices, 0) == s && Turns(s, slices, 0, i) == 0
  {
  }

  /** `k` rounds from full slices: each process ran exactly `k` times its slice. */
  lemma {:induction false} Rounds(slices: seq<nat>, k: nat, i: nat)
    requires Running(Slot(slices, 0), slices) && i < |slices|
    ensures Ticks(Slot(slices, 0), slices, k * Sum(slices)) == Slot(slices, 0)
    ensures Turns(Slot(slices, 0), slices, k * Sum(slices), i) == k * slices[i]
  {
    hide Tick, Ticks, Turns, Sum;
    var s, t := Slot(slices, 0), Sum(slices);
    if k > 0 {
      Rounds(slices, k - 1, i);
      SpendAll(s, slices, i);
      assert k * t == (k - 1) * t + t;
      TicksJoin(s, slices, (k - 1) * t, t, i);
      assert k * slices[i] == (k - 1) * slices[i] + slices[i];
    } else {
      assert k * t == 0;
      NoTicks(s, slices, i);
    }
  }

  /** Nobody starves: within the ticks that are left and one round more, every process runs. */
  lemma NoStarving(s: Slot, slices: seq<nat>, i: nat)
    requires Running(s, slices) && i < |slices|
    ensures Turns(s, slices, Sum(s.ticks) + Sum(slices), i) == s.ticks[i] + slices[i] > 0
  {
    hide Tick, Ticks, Turns, Sum;
    SpendAll(s, slices, i);
    SpendAll(Slot(slices, 0), slices, i);
    TicksJoin(s, slices, Sum(s.ticks), Sum(slices), i);
  }
}
