/** Bit strings as intervals: string s stands for the numbers of `g` bits that start with s. */
module Interval {
  import opened Bitstring

  /** First `g`-bit number that starts with `s`. */
  function Lo(s: seq<bool>, g: nat): (r: nat)
    requires |s| <= g
  {
    if |s| == 0 then 0 else (if s[0] then Pow2(g - 1) else 0) + Lo(s[1..], g - 1)
  }

  /** One more than the last `g`-bit number that starts with `s`. */
  function Hi(s: seq<bool>, g: nat): (r: nat)
    requires |s| <= g
    ensures Lo(s, g) < r
  {
    Lo(s, g) + Pow2(g - |s|)
  }

  lemma {:induction false} HiBound(s: seq<bool>, g: nat)
    requires |s| <= g
    ensures Hi(s, g) <= Pow2(g)
  {
    if |s| == 0 {
    } else {
      HiBound(s[1..], g - 1);
    }
  }

  /** A longer string is a sub-interval of each of its prefixes. */
  lemma {:induction false} Nest(s: seq<bool>, t: seq<bool>, g: nat)
    requires s <= t && |t| <= g
    ensures Lo(s, g) <= Lo(t, g) && Hi(t, g) <= Hi(s, g)
  {
    if |s| == 0 {
      HiBound(t, g);
    } else {
      assert s[1..] <= t[1..];
      Nest(s[1..], t[1..], g - 1);
    }
  }

  /** Strings that do not extend each other are disjoint. */
  lemma {:induction false} Apart(s: seq<bool>, t: seq<bool>, g: nat)
    requires |s| <= |t| <= g && !(s <= t)
    ensures Hi(t, g) <= Lo(s, g) || Hi(s, g) <= Lo(t, g)
  {
    if s[0] == t[0] {
      Apart(s[1..], t[1..], g - 1);
    } else {
      HiBound(s[1..], g - 1);
      HiBound(t[1..], g - 1);
    }
  }

  /** Contrapositive of Apart: a string that starts inside another one extends it. */
  lemma Inside(s: seq<bool>, t: seq<bool>, g: nat)
    requires |s| <= |t| <= g && Lo(s, g) <= Lo(t, g) < Hi(s, g)
    ensures s <= t
  {
    if !(s <= t) { Apart(s, t, g); }
  }

  lemma {:induction false} LoZeros(s: seq<bool>, z: seq<bool>, g: nat)
    requires |s| + |z| <= g && forall i :: 0 <= i < |z| ==> !z[i]
    ensures Lo(s + z, g) == Lo(s, g)
    decreases |s| + |z|
  {
    if |s| > 0 {
      assert (s + z)[1..] == s[1..] + z;
      LoZeros(s[1..], z, g - 1);
    } else if |z| > 0 {
      assert s + z == z;
      LoZeros([], z[1..], g - 1);
      assert [] + z[1..] == z[1..];
    }
  }

  lemma {:induction false} LoSnoc(s: seq<bool>, x: bool, g: nat)
    requires |s| + 1 <= g
    ensures Lo(s + [x], g) == Lo(s, g) + (if x then Pow2(g - |s| - 1) else 0)
  {
    if |s| == 0 {
      assert s + [x] == [x] && [x][1..] == [];
    } else {
      assert (s + [x])[1..] == s[1..] + [x];
      LoSnoc(s[1..], x, g - 1);
    }
  }

  /** The start of a `k`-bit code is its value shifted to `g` bits. */
  lemma {:induction false} LoCode(c: nat, k: nat, g: nat)
    requires c < Pow2(k) && k <= g
    ensures Lo(MsbBits(c, k), g) == Scale(c, g - k)
  {
    if k == 0 {
      ScaleOne(g);
    } else {
      LoCode(c / 2, k - 1, g);
      LoSnoc(MsbBits(c / 2, k - 1), c % 2 == 1, g);
      ScaleTwice(c / 2, g - k);
      ScaleAdd(2 * (c / 2), c % 2, g - k);
      ScaleOne(g - k);
    }
  }

  /** A string of zero bits behind `s` is what makes both start at the same place. */
  lemma AlignedZeros(s: seq<bool>, t: seq<bool>, g: nat)
    requires s <= t && |t| <= g && forall i :: |s| <= i < |t| ==> !t[i]
    ensures Lo(t, g) == Lo(s, g)
  {
    assert t == s + t[|s|..];
    LoZeros(s, t[|s|..], g);
  }
}
