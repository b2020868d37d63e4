/** Sums of numbers. */
module Totals {
  function Sum(s: seq<nat>): nat {
    if |s| == 0 then 0 else Sum(s[..|s| - 1]) + s[|s| - 1]
  }

  lemma {:induction false} SumUpdate(s: seq<nat>, i: nat, x: nat)
    requires i < |s|
    ensures Sum(s[i := x]) + s[i] == Sum(s) + x
  {
    var n := |s| - 1;
    if i < n {
      SumUpdate(s[..n], i, x);
      assert s[i := x][..n] == s[..n][i := x];
    } else {
      assert s[i := x][..n] == s[..n];
    }
  }

  lemma {:induction false} SumZeros(s: seq<nat>)
    requires forall i :: 0 <= i < |s| ==> s[i] == 0
    ensures Sum(s) == 0
  {
    if |s| == 0 {
    } else {
      SumZeros(s[..|s| - 1]);
    }
  }

  lemma SumLast(s: seq<nat>)
    requires |s| > 0 && forall i :: 0 <= i < |s| - 1 ==> s[i] == 0
    ensures Sum(s) == s[|s| - 1]
  {
    SumZeros(s[..|s| - 1]);
  }

  lemma {:induction false} SumAt(s: seq<nat>, i: nat)
    requires i < |s|
    ensures s[i] <= Sum(s)
  {
    if i < |s| - 1 { SumAt(s[..|s| - 1], i); }
  }
}
