/** The first pass of gen_bitlen (trees.c:483-522): lengths from the fathers down, cut at max_length. */
module BitLengths {
  import opened Bitstring
  import opened Codes
  import opened Totals

  /** Internal node elems + i is among the first `n`. */
  ghost predicate Occurs(E: seq<nat>, n: nat, elems: nat, i: nat) {
    exists v :: 0 <= v < n && v < |E| && E[v] == elems + i
  }

  /**
   * The tree as the merging loop left it: sons E[2j] and E[2j + 1] belong to internal node elems + j, leaves are
   * below `size`, and `k` is the number of internal nodes, the last of which is the root.
   */
  ghost predicate TreeIn(E: seq<nat>, elems: nat, k: nat, size: nat) {
    && |E| == 2 * k && k >= 1 && size <= elems
    && (forall u :: 0 <= u < 2 * k ==> if E[u] >= elems then E[u] - elems < u / 2 else E[u] < size)
    && (forall u, v :: 0 <= u < v < 2 * k ==> E[u] != E[v])
    && (forall i :: 0 <= i < k - 1 ==> Occurs(E, 2 * k, elems, i))
  }

  /**
   * Lengths so far: `al` of the internal nodes, -1 where there is none yet, and `ls` of the leaves, 0 where there is
   * none yet.
   */
  ghost predicate Assigned(E: seq<nat>, elems: nat, k: nat, size: nat, max: nat, n: nat, al: seq<int>, ls: seq<nat>) {
    && n <= 2 * k == |E| && |al| == k && |ls| == size
    && (forall i :: 0 <= i < k ==> -1 <= al[i] <= max)
    && (forall s :: 0 <= s < size ==> ls[s] <= max)
    && (forall v :: 0 <= v < n && E[v] >= elems ==> E[v] - elems < k && al[E[v] - elems] == -1)
    && (forall v :: 0 <= v < n && E[v] < elems ==> E[v] < size && ls[E[v]] == 0)
    && (forall i :: 0 <= i < k && al[i] == -1 ==> Occurs(E, n, elems, i))
    && (forall v :: n <= v < 2 * k && E[v] < elems ==> E[v] < size && ls[E[v]] >= 1)
    && (forall s :: 0 <= s < size && ls[s] >= 1 ==> Waits(E, 2 * k, s))
  }

  /** `s` is among the first `n` nodes. */
  ghost predicate Waits(E: seq<nat>, n: nat, s: nat) {
    exists v :: 0 <= v < n && v < |E| && E[v] == s
  }

  lemma AssignedStart(E: seq<nat>, elems: nat, k: nat, size: nat, max: nat, al: seq<int>, ls: seq<nat>)
    requires TreeIn(E, elems, k, size) && |al| == k && |ls| == size
    requires forall i :: 0 <= i < k ==> al[i] == if i == k - 1 then 0 else -1
    requires forall s :: 0 <= s < size ==> ls[s] == 0
    ensures Assigned(E, elems, k, size, max, 2 * k, al, ls)
  {
  }

  /** The father of the node that comes next has its length. */
  lemma FatherDone(E: seq<nat>, elems: nat, k: nat, size: nat, max: nat, n: nat, al: seq<int>, ls: seq<nat>)
    requires TreeIn(E, elems, k, size) && Assigned(E, elems, k, size, max, n, al, ls) && n >= 1
    ensures (n - 1) / 2 < k && 0 <= al[(n - 1) / 2] <= max
  {
  }

  function Cut(b: nat, max: nat): nat {
    if b + 1 > max then max else b + 1
  }

  ghost function NextAl(E: seq<nat>, elems: nat, n: nat, al: seq<int>, nb: nat): seq<int>
    requires n < |E| && (E[n] >= elems ==> E[n] - elems < |al|)
  {
    if E[n] >= elems then al[E[n] - elems := nb] else al
  }

  ghost function NextLs(E: seq<nat>, elems: nat, n: nat, ls: seq<nat>, nb: nat): seq<nat>
    requires n < |E| && (E[n] < elems ==> E[n] < |ls|)
  {
    if E[n] < elems then ls[E[n] := nb] else ls
  }

  lemma AssignedStep(E: seq<nat>, elems: nat, k: nat, size: nat, max: nat, n: nat, al: seq<int>, ls: seq<nat>, nb: nat)
    requires TreeIn(E, elems, k, size) && Assigned(E, elems, k, size, max, n + 1, al, ls) && 1 <= nb <= max
    ensures Assigned(E, elems, k, size, max, n, NextAl(E, elems, n, al, nb), NextLs(E, elems, n, ls, nb))
  {
    if E[n] >= elems {
      StepInner(E, elems, k, size, max, n, al, ls, nb);
    } else {
      StepLeaf(E, elems, k, size, max, n, al, ls, nb);
    }
  }

  lemma StepInner(E: seq<nat>, elems: nat, k: nat, size: nat, max: nat, n: nat, al: seq<int>, ls: seq<nat>, nb: nat)
    requires TreeIn(E, elems, k, size) && Assigned(E, elems, k, size, max, n + 1, al, ls) && 1 <= nb <= max &&
             E[n] >= elems
    ensures Assigned(E, elems, k, size, max, n, al[E[n] - elems := nb], ls)
  {
    hide Occurs;
    var al' := al[E[n] - elems := nb];
    forall i | 0 <= i < k && al'[i] == -1
      ensures Occurs(E, n, elems, i)
    {
      OccursBefore(E, n, elems, i);
    }
  }

  lemma StepLeaf(E: seq<nat>, elems: nat, k: nat, size: nat, max: nat, n: nat, al: seq<int>, ls: seq<nat>, nb: nat)
    requires TreeIn(E, elems, k, size) && Assigned(E, elems, k, size, max, n + 1, al, ls) && 1 <= nb <= max &&
             E[n] < elems
    ensures Assigned(E, elems, k, size, max, n, al, ls[E[n] := nb])
  {
    hide Occurs, Waits;
    WaitsAt(E, n, k);
    forall i | 0 <= i < k && al[i] == -1
      ensures Occurs(E, n, elems, i)
    {
      OccursBefore(E, n, elems, i);
    }
  }

  lemma WaitsAt(E: seq<nat>, n: nat, k: nat)
    requires n < 2 * k == |E|
    ensures Waits(E, 2 * k, E[n])
  {
  }

  lemma OccursBefore(E: seq<nat>, n: nat, elems: nat, i: nat)
    requires n < |E| && Occurs(E, n + 1, elems, i) && E[n] != elems + i
    ensures Occurs(E, n, elems, i)
  {
    var v :| 0 <= v < n + 1 && v < |E| && E[v] == elems + i;
    assert v != n;
  }

  // ---- sums of weights that depend on the length only ----

  ghost function LeafTerms(ls: seq<nat>, wt: seq<nat>): (r: seq<nat>)
    ensures |r| == |ls|
  {
    seq(|ls|, s requires 0 <= s < |ls| => if 0 < ls[s] < |wt| then wt[ls[s]] else 0)
  }

  ghost function NodeTerms(al: seq<int>, wt: seq<nat>): (r: seq<nat>)
    ensures |r| == |al|
  {
    seq(|al|, i requires 0 <= i < |al| => if 0 <= al[i] < |wt| then wt[al[i]] else 0)
  }

  /** Half of the weight of the father whose first son is done. */
  ghost function HalfTerm(al: seq<int>, wt: seq<nat>, n: nat): nat
    requires n / 2 <= |al|
  {
    if n % 2 == 1 && n / 2 < |al| && 0 <= al[n / 2] < |wt| then wt[al[n / 2]] / 2 else 0
  }

  /** Leaves, internal nodes whose sons come later, and half of a father between its two sons. */
  ghost function Frontier(ls: seq<nat>, al: seq<int>, wt: seq<nat>, n: nat): nat
    requires n / 2 <= |al|
  {
    Sum(LeafTerms(ls, wt)) + Sum(NodeTerms(al, wt)[..n / 2]) + HalfTerm(al, wt, n)
  }

  lemma LeafTermsStep(ls: seq<nat>, wt: seq<nat>, s: nat, nb: nat)
    requires s < |ls| && ls[s] == 0 && 0 < nb < |wt|
    ensures Sum(LeafTerms(ls[s := nb], wt)) == Sum(LeafTerms(ls, wt)) + wt[nb]
  {
    assert LeafTerms(ls[s := nb], wt) == LeafTerms(ls, wt)[s := wt[nb]];
    SumUpdate(LeafTerms(ls, wt), s, wt[nb]);
  }

  lemma NodeTermsStep(al: seq<int>, wt: seq<nat>, i: nat, nb: nat, j: nat)
    requires i < j <= |al| && al[i] == -1 && nb < |wt|
    ensures Sum(NodeTerms(al[i := nb], wt)[..j]) == Sum(NodeTerms(al, wt)[..j]) + wt[nb]
  {
    assert NodeTerms(al[i := nb], wt)[..j] == NodeTerms(al, wt)[..j][i := wt[nb]];
    SumUpdate(NodeTerms(al, wt)[..j], i, wt[nb]);
  }

  /** The sons of an internal node, or half of it, leave the sum of those that come later. */
  lemma NodeLeaves(al: seq<int>, wt: seq<nat>, n: nat)
    requires (n + 1) / 2 <= |al| && n / 2 < |al| && 0 <= al[n / 2] < |wt| && wt[al[n / 2]] % 2 == 0
    ensures Sum(NodeTerms(al, wt)[..(n + 1) / 2]) + HalfTerm(al, wt, n + 1)
            == Sum(NodeTerms(al, wt)[..n / 2]) + HalfTerm(al, wt, n) + wt[al[n / 2]] / 2
  {
    var t := NodeTerms(al, wt);
    if n % 2 == 1 {
      var j := n / 2;
      assert (n + 1) / 2 == j + 1;
      assert t[..j + 1][..j] == t[..j];
      assert Sum(t[..j + 1]) == Sum(t[..j]) + t[j];
    }
  }

  /** A node with length `nb` replaces half of its father. */
  lemma FrontierStep(E: seq<nat>, elems: nat, k: nat, size: nat, max: nat, n: nat, al: seq<int>, ls: seq<nat>, nb: nat,
                     wt: seq<nat>)
    requires TreeIn(E, elems, k, size) && Assigned(E, elems, k, size, max, n + 1, al, ls) && 1 <= nb <= max &&
             |wt| == max + 1
    requires 0 <= al[n / 2] && wt[al[n / 2]] % 2 == 0
    ensures Frontier(NextLs(E, elems, n, ls, nb), NextAl(E, elems, n, al, nb), wt, n) + wt[al[n / 2]] / 2
            == Frontier(ls, al, wt, n + 1) + wt[nb]
  {
    hide LeafTerms, NodeTerms, Sum, Occurs;
    NodeLeaves(al, wt, n);
    if E[n] >= elems {
      NodeTermsStep(al, wt, E[n] - elems, nb, n / 2);
    } else {
      LeafTermsStep(ls, wt, E[n], nb);
    }
  }

  // ---- Kraft's sum and the nodes of length max ----

  /** Twice the share of the code space that a code of each length takes, in units of 2^-max. */
  ghost function KraftTable(max: nat): (r: seq<nat>)
    ensures |r| == max + 1 && forall b :: 0 <= b <= max ==> r[b] == Pow2(max + 1 - b)
  {
    seq(max + 1, b requires 0 <= b < max + 1 => Pow2(max + 1 - b))
  }

  ghost function MaxTable(max: nat): (r: seq<nat>)
    ensures |r| == max + 1 && forall b :: 0 <= b <= max ==> r[b] == if b == max then 2 else 0
  {
    seq(max + 1, b => if b == max then 2 else 0)
  }

  /** The frontier takes the whole code space and half a unit more for every overflow; `exact` nodes have depth max. */
  ghost predicate Balanced(ls: seq<nat>, al: seq<int>, n: nat, max: nat, overflow: nat, exact: nat)
    requires n / 2 <= |al|
  {
    && Frontier(ls, al, KraftTable(max), n) == Pow2(max + 1) + overflow
    && Frontier(ls, al, MaxTable(max), n) == overflow + 2 * exact
    && (exact == 0 ==> overflow == 0 && forall i :: 0 <= i < |al| ==> al[i] != max)
  }

  lemma BalancedStep(E: seq<nat>, elems: nat, k: nat, size: nat, max: nat, n: nat, al: seq<int>, ls: seq<nat>,
                     overflow: nat, exact: nat)
    requires TreeIn(E, elems, k, size) && Assigned(E, elems, k, size, max, n + 1, al, ls) && max >= 1
    requires Balanced(ls, al, n + 1, max, overflow, exact) && 0 <= al[n / 2]
    ensures var b := al[n / 2];
            var nb := Cut(b, max);
            Balanced(NextLs(E, elems, n, ls, nb), NextAl(E, elems, n, al, nb), n, max,
                     overflow + (if b == max then 1 else 0), exact + (if b == max - 1 then 1 else 0))
  {
    hide Frontier, Occurs;
    var b := al[n / 2];
    var nb := Cut(b, max);
    assert Pow2(max + 1 - b) == 2 * Pow2(max - b);
    FrontierStep(E, elems, k, size, max, n, al, ls, nb, KraftTable(max));
    FrontierStep(E, elems, k, size, max, n, al, ls, nb, MaxTable(max));
    assert Pow2(1) == 2 * Pow2(0);
  }

  lemma FrontierStart(k: nat, size: nat, max: nat, al: seq<int>, ls: seq<nat>, wt: seq<nat>)
    requires k >= 1 && |al| == k && |ls| == size && |wt| == max + 1
    requires forall i :: 0 <= i < k ==> al[i] == if i == k - 1 then 0 else -1
    requires forall s :: 0 <= s < size ==> ls[s] == 0
    ensures Frontier(ls, al, wt, 2 * k) == wt[0]
  {
    SumZeros(LeafTerms(ls, wt));
    SumLast(NodeTerms(al, wt));
    assert NodeTerms(al, wt)[..k] == NodeTerms(al, wt);
  }

  lemma BalancedStart(k: nat, size: nat, max: nat, al: seq<int>, ls: seq<nat>)
    requires k >= 1 && |al| == k && |ls| == size && max >= 1
    requires forall i :: 0 <= i < k ==> al[i] == if i == k - 1 then 0 else -1
    requires forall s :: 0 <= s < size ==> ls[s] == 0
    ensures Balanced(ls, al, 2 * k, max, 0, 0)
  {
    FrontierStart(k, size, max, al, ls, KraftTable(max));
    FrontierStart(k, size, max, al, ls, MaxTable(max));
  }

  lemma {:induction false} LeafKraft(ls: seq<nat>, max: nat)
    requires forall s :: 0 <= s < |ls| ==> ls[s] <= max
    ensures Sum(LeafTerms(ls, KraftTable(max))) == 2 * KraftSum(ls, max)
  {
    if |ls| == 0 {
    } else {
      var n := |ls| - 1;
      LeafKraft(ls[..n], max);
      assert LeafTerms(ls, KraftTable(max))[..n] == LeafTerms(ls[..n], KraftTable(max));
      assert ls[n] > 0 ==> Pow2(max + 1 - ls[n]) == 2 * Pow2(max - ls[n]);
    }
  }

  lemma {:induction false} LeafMax(ls: seq<nat>, max: nat)
    requires max >= 1 && forall s :: 0 <= s < |ls| ==> ls[s] <= max
    ensures Sum(LeafTerms(ls, MaxTable(max))) == 2 * Count(ls, max)
  {
    if |ls| == 0 {
    } else {
      var n := |ls| - 1;
      LeafMax(ls[..n], max);
      assert LeafTerms(ls, MaxTable(max))[..n] == LeafTerms(ls[..n], MaxTable(max));
    }
  }

  /**
   * When all leaves have their lengths: Kraft's sum is 1 plus the overflow, and there are codes of length max to
   * spare.
   */
  lemma BalancedEnd(ls: seq<nat>, al: seq<int>, max: nat, overflow: nat, exact: nat)
    requires max >= 1 && Balanced(ls, al, 0, max, overflow, exact) && forall s :: 0 <= s < |ls| ==> ls[s] <= max
    ensures 2 * Used(ls, max) == Pow2(max + 1) + overflow
    ensures 2 * Count(ls, max) == overflow + 2 * exact && (overflow > 0 ==> exact > 0)
  {
    assert NodeTerms(al, KraftTable(max))[..0] == [] && NodeTerms(al, MaxTable(max))[..0] == [];
    LeafKraft(ls, max);
    LeafMax(ls, max);
    UsedIsKraft(ls, max);
  }
}
