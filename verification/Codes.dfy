/** Canonical Huffman codes (section 3.2.2 of RFC 1951), bi_reverse of bits.c and gen_codes of trees.c. */
module Codes {
  import opened Bitstring
  import opened Interval

  const MAX_BITS := 15

  /** Number of symbols whose code length is `l`. */
  function Count(lens: seq<nat>, l: nat): (c: nat)
    ensures c <= |lens|
  {
    if |lens| == 0 then 0
    else Count(lens[..|lens| - 1], l) + (if lens[|lens| - 1] == l then 1 else 0)
  }

  /** Number of `l`-bit patterns taken by the codes of length 1 to `l`. */
  function Used(lens: seq<nat>, l: nat): nat {
    if l == 0 then 0 else 2 * Used(lens, l - 1) + Count(lens, l)
  }

  /** The canonical code of symbol `s`, most significant bit first. */
  function Code(lens: seq<nat>, s: nat): nat
    requires s < |lens| && lens[s] > 0
  {
    2 * Used(lens, lens[s] - 1) + Count(lens[..s], lens[s])
  }

  /** The bits of the code of `s` in the order they are sent. */
  function CodeBits(lens: seq<nat>, s: nat): (b: seq<bool>)
    requires s < |lens| && lens[s] > 0
    ensures |b| == lens[s]
  {
    MsbBits(Code(lens, s), lens[s])
  }

  /** Kraft's inequality for lengths of at most `m` bits; equality is a complete code. */
  ghost predicate Fits(lens: seq<nat>, m: nat) {
    (forall i :: 0 <= i < |lens| ==> lens[i] <= m) && Used(lens, m) <= Pow2(m)
  }

  ghost predicate Complete(lens: seq<nat>, m: nat) {
    (forall i :: 0 <= i < |lens| ==> lens[i] <= m) && Used(lens, m) == Pow2(m)
  }

  // ---- counting ----

  /** The longest length in use, 0 if there is none. */
  ghost function MaxLen(b: seq<nat>): (g: nat)
    ensures forall i :: 0 <= i < |b| ==> b[i] <= g
    ensures g > 0 ==> Count(b, g) > 0
  {
    if |b| == 0 then 0
    else
      var m, x := MaxLen(b[..|b| - 1]), b[|b| - 1];
      if x > m then x else m
  }

  lemma {:induction false} MaxLenAtMost(b: seq<nat>, g: nat)
    requires forall i :: 0 <= i < |b| ==> b[i] <= g
    ensures MaxLen(b) <= g
  {
    if |b| == 0 {
    } else {
      MaxLenAtMost(b[..|b| - 1], g);
    }
  }

  /** Patterns of `k` bits that no code of up to `k` bits takes; negative when there are too many codes. */
  ghost function Free(b: seq<nat>, k: nat): int {
    Pow2(k) - Used(b, k)
  }

  lemma {:induction false} CountNone(lens: seq<nat>, l: nat)
    requires forall i :: 0 <= i < |lens| ==> lens[i] != l
    ensures Count(lens, l) == 0
  {
    if |lens| == 0 {
    } else {
      CountNone(lens[..|lens| - 1], l);
    }
  }

  function Repeat(x: nat, n: nat): (s: seq<nat>)
    ensures |s| == n && forall i :: 0 <= i < n ==> s[i] == x
  {
    seq(n, _ => x)
  }

  lemma {:induction false} CountJoin(a: seq<nat>, b: seq<nat>, l: nat)
    ensures Count(a + b, l) == Count(a, l) + Count(b, l)
  {
    if |b| == 0 {
      assert a + b == a;
    } else {
      CountJoin(a, b[..|b| - 1], l);
      assert (a + b)[..|a + b| - 1] == a + b[..|b| - 1];
    }
  }

  lemma {:induction false} CountRepeat(x: nat, n: nat, l: nat)
    ensures Count(Repeat(x, n), l) == if x == l then n else 0
  {
    if n == 0 {
    } else {
      CountRepeat(x, n - 1, l);
      assert Repeat(x, n)[..n - 1] == Repeat(x, n - 1);
    }
  }

  lemma {:induction false} UsedZero(lens: seq<nat>, n: nat)
    requires forall l: nat :: 1 <= l <= n ==> Count(lens, l) == 0
    ensures Used(lens, n) == 0
  {
    if n == 0 {
    } else {
      UsedZero(lens, n - 1);
    }
  }

  lemma {:induction false} CountPrefix(lens: seq<nat>, i: nat, j: nat, l: nat)
    requires i <= j <= |lens|
    ensures Count(lens[..i], l) <= Count(lens[..j], l)
    ensures i < j && lens[i] == l ==> Count(lens[..i], l) < Count(lens[..j], l)
  {
    if i < j {
      CountPrefix(lens, i, j - 1, l);
      assert lens[..j][..j - 1] == lens[..j - 1];
    }
  }

  lemma RankBound(lens: seq<nat>, s: nat)
    requires s < |lens|
    ensures Count(lens[..s], lens[s]) < Count(lens, lens[s])
  {
    CountPrefix(lens, s, |lens|, lens[s]);
    assert lens[..|lens|] == lens;
  }

  lemma {:induction false} UsedAbove(lens: seq<nat>, g: nat, m: nat)
    requires g <= m && forall i :: 0 <= i < |lens| ==> lens[i] <= g
    ensures Used(lens, m) == Scale(Used(lens, g), m - g)
  {
    if m > g {
      UsedAbove(lens, g, m - 1);
      CountNone(lens, m);
    }
  }

  /** A code for a shorter limit is one for a longer limit. */
  lemma FitsUp(lens: seq<nat>, m: nat, m': nat)
    requires Fits(lens, m) && m <= m'
    ensures Fits(lens, m')
  {
    UsedAbove(lens, m, m');
    ScaleMono(Used(lens, m), Pow2(m), m' - m);
    ScalePow(m, m' - m);
  }

  /** The symbol with the `rank`-th code of length `k`. */
  lemma {:induction false} SymbolAt(lens: seq<nat>, k: nat, rank: nat) returns (s: nat)
    requires rank < Count(lens, k)
    ensures s < |lens| && lens[s] == k && Count(lens[..s], k) == rank
  {
    var n := |lens| - 1;
    if lens[n] == k && Count(lens[..n], k) == rank {
      s := n;
    } else {
      s := SymbolAt(lens[..n], k, rank);
      assert lens[..n][..s] == lens[..s];
    }
  }

  /** The codes of length 1 to `n` take up the first Cover(lens, m, n) of the 2^m patterns of `m` bits. */
  ghost function Cover(lens: seq<nat>, m: nat, n: nat): nat
    requires n <= m
  {
    Scale(Used(lens, n), m - n)
  }

  lemma CoverStep(lens: seq<nat>, m: nat, n: nat)
    requires 0 < n <= m
    ensures Cover(lens, m, n) == Cover(lens, m, n - 1) + Scale(Count(lens, n), m - n)
  {
    ScaleTwice(Used(lens, n - 1), m - n);
    ScaleAdd(2 * Used(lens, n - 1), Count(lens, n), m - n);
  }

  lemma {:induction false} CoverMono(lens: seq<nat>, m: nat, n: nat, n': nat)
    requires n <= n' <= m
    ensures Cover(lens, m, n) <= Cover(lens, m, n')
  {
    if n < n' {
      CoverMono(lens, m, n, n' - 1);
      CoverStep(lens, m, n');
    }
  }

  /** Kraft's inequality holds for the codes up to any length. */
  lemma FitsAt(lens: seq<nat>, m: nat, l: nat)
    requires Used(lens, m) <= Pow2(m) && l <= m
    ensures Used(lens, l) <= Pow2(l)
  {
    CoverMono(lens, m, l, m);
    ScalePow(l, m - l);
    ScaleCancel(Used(lens, l), Pow2(l), m - l);
  }

  /** A code is smaller than the patterns taken at its length, hence fits in its length. */
  lemma CodeBound(lens: seq<nat>, m: nat, s: nat)
    requires Fits(lens, m) && s < |lens| && lens[s] > 0
    ensures Code(lens, s) < Used(lens, lens[s]) <= Pow2(lens[s])
  {
    RankBound(lens, s);
    FitsAt(lens, m, lens[s]);
  }

  lemma CodeEndsBelow(lens: seq<nat>, m: nat, k: nat, rank: nat)
    requires 0 < k <= m && rank < Count(lens, k)
    ensures Scale(rank + 1, m - k) == Scale(rank, m - k) + Pow2(m - k)
    ensures Cover(lens, m, k - 1) + Scale(rank + 1, m - k) <= Cover(lens, m, k)
  {
    CoverStep(lens, m, k);
    ScaleMono(rank + 1, Count(lens, k), m - k);
    ScaleAdd(rank, 1, m - k);
    ScaleOne(m - k);
  }

  /** The place of a code among all `m`-bit patterns. */
  lemma CodeSpan(lens: seq<nat>, m: nat, s: nat)
    requires Fits(lens, m) && s < |lens| && lens[s] > 0
    ensures var k, rank := lens[s], Count(lens[..s], lens[s]);
            && Lo(CodeBits(lens, s), m) == Cover(lens, m, k - 1) + Scale(rank, m - k)
            && Hi(CodeBits(lens, s), m) == Cover(lens, m, k - 1) + Scale(rank + 1, m - k) <= Cover(lens, m, k)
  {
    var k, rank := lens[s], Count(lens[..s], lens[s]);
    CodeBound(lens, m, s);
    LoCode(Code(lens, s), k, m);
    ScaleTwice(Used(lens, k - 1), m - k);
    ScaleAdd(2 * Used(lens, k - 1), rank, m - k);
    CodeEndsBelow(lens, m, k, rank) by { RankBound(lens, s); }
  }

  /** Shorter codes come first in lexicographic order, and codes of one length follow the symbols. */
  lemma CodeOrder(lens: seq<nat>, m: nat, s: nat, t: nat)
    requires Fits(lens, m) && s < |lens| && t < |lens| && 0 < lens[s] && 0 < lens[t]
    requires lens[s] < lens[t] || (lens[s] == lens[t] && s < t)
    ensures Hi(CodeBits(lens, s), m) <= Lo(CodeBits(lens, t), m)
  {
    CodeSpan(lens, m, s);
    CodeSpan(lens, m, t);
    if lens[s] < lens[t] {
      CoverMono(lens, m, lens[s], lens[t] - 1);
    } else {
      CountPrefix(lens, s, t, lens[s]);
      ScaleMono(Count(lens[..s], lens[s]) + 1, Count(lens[..t], lens[s]), m - lens[s]);
    }
  }

  /** No code is a prefix of another one. */
  lemma PrefixFree(lens: seq<nat>, m: nat, s: nat, t: nat)
    requires Fits(lens, m) && s < |lens| && t < |lens| && 0 < lens[s] && 0 < lens[t] && s != t
    ensures !(CodeBits(lens, s) <= CodeBits(lens, t))
  {
    if lens[s] < lens[t] || (lens[s] == lens[t] && s < t) {
      CodeOrder(lens, m, s, t);
    } else {
      CodeOrder(lens, m, t, s);
    }
    if CodeBits(lens, s) <= CodeBits(lens, t) {
      Nest(CodeBits(lens, s), CodeBits(lens, t), m);
    }
  }

  lemma ComparablePrefixes<T>(a: seq<T>, b: seq<T>, u: seq<T>)
    requires a <= u && b <= u && |a| <= |b|
    ensures a <= b
  {
    assert a == u[..|a|] && b == u[..|b|];
  }

  // ---- decoding, without any table ----

  datatype Option<T> = None | Some(value: T)

  ghost predicate Starts(lens: seq<nat>, bits: seq<bool>, s: nat) {
    s < |lens| && lens[s] > 0 && CodeBits(lens, s) <= bits
  }

  /** The symbol whose code starts `bits`, if there is one. */
  ghost function DecodeSym(lens: seq<nat>, bits: seq<bool>): Option<nat> {
    if exists s: nat :: Starts(lens, bits, s) then
      var s: nat :| Starts(lens, bits, s); Some(s)
    else None
  }

  /** At most one code starts a given bit string. */
  lemma DecodeSymIs(lens: seq<nat>, m: nat, bits: seq<bool>, s: nat)
    requires Fits(lens, m) && Starts(lens, bits, s)
    ensures DecodeSym(lens, bits) == Some(s)
  {
    var t := DecodeSym(lens, bits).value;
    if t != s {
      if lens[s] <= lens[t] {
        ComparablePrefixes(CodeBits(lens, s), CodeBits(lens, t), bits);
        PrefixFree(lens, m, s, t);
      } else {
        ComparablePrefixes(CodeBits(lens, t), CodeBits(lens, s), bits);
        PrefixFree(lens, m, t, s);
      }
    }
  }

  // ---- Kraft's sum ----

  function Weight(l: nat, m: nat): nat {
    if 1 <= l <= m then Pow2(m - l) else 0
  }

  function KraftSum(lens: seq<nat>, m: nat): nat {
    if |lens| == 0 then 0 else KraftSum(lens[..|lens| - 1], m) + Weight(lens[|lens| - 1], m)
  }

  lemma {:induction false} UsedSnoc(lens: seq<nat>, x: nat, m: nat)
    ensures Used(lens + [x], m) == Used(lens, m) + Weight(x, m)
  {
    if m == 0 {
    } else {
      UsedSnoc(lens, x, m - 1);
      assert (lens + [x])[..|lens|] == lens;
      assert Count(lens + [x], m) == Count(lens, m) + (if x == m then 1 else 0);
    }
  }

  /** The patterns taken are Kraft's sum in units of 2^-m. */
  lemma {:induction false} UsedIsKraft(lens: seq<nat>, m: nat)
    ensures Used(lens, m) == KraftSum(lens, m)
  {
    if |lens| == 0 {
      UsedEmpty(m);
    } else {
      var n := |lens| - 1;
      UsedIsKraft(lens[..n], m);
      UsedSnoc(lens[..n], lens[n], m);
      assert lens[..n] + [lens[n]] == lens;
    }
  }

  lemma {:induction false} UsedEmpty(m: nat)
    ensures Used([], m) == 0
  {
    if m == 0 {
    } else {
      UsedEmpty(m - 1);
    }
  }

  // ---- bi_reverse ----

  function Rev(s: seq<bool>): (r: seq<bool>)
    ensures |r| == |s|
  {
    if |s| == 0 then [] else Rev(s[1..]) + [s[0]]
  }

  lemma {:induction false} MsbBitsIsRev(v: nat, n: nat)
    ensures MsbBits(v, n) == Rev(BitsOf(v, n))
  {
    if n == 0 {
    } else {
      MsbBitsIsRev(v / 2, n - 1);
      assert BitsOf(v, n)[1..] == BitsOf(v / 2, n - 1);
    }
  }

  lemma {:induction false} MsbValIsRev(s: seq<bool>)
    ensures MsbVal(s) == ValOf(Rev(s))
  {
    if |s| == 0 {
    } else {
      var n := |s|;
      MsbValIsRev(s[..n - 1]);
      RevSnoc(s[..n - 1], s[n - 1]);
      assert s[..n - 1] + [s[n - 1]] == s;
      var r := Rev(s);
      assert r[0] == s[n - 1] && r[1..] == Rev(s[..n - 1]);
    }
  }

  lemma {:induction false} RevSnoc(s: seq<bool>, x: bool)
    ensures Rev(s + [x]) == [x] + Rev(s)
  {
    if |s| == 0 {
      assert s + [x] == [x] && [x][1..] == [];
    } else {
      RevSnoc(s[1..], x);
      assert (s + [x])[1..] == s[1..] + [x];
    }
  }

  /** What bi_reverse computes is sent least significant bit first as the code itself. */
  lemma ReversedBits(code: nat, n: nat)
    ensures BitsOf(MsbVal(BitsOf(code, n)), n) == MsbBits(code, n)
  {
    MsbBitsIsRev(code, n);
    MsbValIsRev(BitsOf(code, n));
    BitsOfValOf(Rev(BitsOf(code, n)));
  }

  lemma OrLowBit(x: nat, c: nat)
    ensures Or(2 * x, And(c, 1)) == 2 * x + c % 2
  {
    AndMask(c, 1);
    assert Mask(1) == 1 && Pow2(1) == 2;
    OrRightZero(x);
  }

  lemma {:induction false} OrRightZero(x: nat)
    ensures Or(x, 0) == x
  {
    if x == 0 {
    } else {
      OrRightZero(x / 2);
    }
  }

  /** One step of bi_reverse: the next bit of the code joins the result, which still fits in 16 bits. */
  lemma ReverseStep(code: nat, t: nat, c: nat, res: nat)
    requires c == Shr(code, t) && res == 2 * MsbVal(BitsOf(code, t)) && t < 15
    ensures Shr(c, 1) == Shr(code, t + 1)
    ensures Shl(Or(res, And(c, 1)), 1) == 2 * MsbVal(BitsOf(code, t + 1)) < Pow2(16)
  {
    hide Or, And;
    BitsOfShr(code, t, 1);
    ShrStep(code, t);
    assert BitsOf(c, 1) == [c % 2 == 1] by { assert BitsOf(c / 2, 0) == []; }
    var bits := BitsOf(code, t + 1);
    assert bits[..t] == BitsOf(code, t) && bits[t] == (c % 2 == 1);
    OrLowBit(MsbVal(BitsOf(code, t)), c);
    assert Pow2(1) == 2 * Pow2(0);
    Pow2Mono(t + 2, 16);
  }

  /** bi_reverse, for code lengths of 1 to 15. */
  method BiReverse(code: nat, len: nat) returns (r: nat)
    requires 1 <= len <= 15
    ensures r < Pow2(len) && BitsOf(r, len) == MsbBits(code, len)
  {
    hide Or, And, Shr, Shl, Pow2;
    var res, c, n := 0, code, len;
    NothingReversed(code);
    while n > 0
      invariant 0 <= n <= len
      invariant c == Shr(code, len - n)
      invariant res == 2 * MsbVal(BitsOf(code, len - n)) < Pow2(16)
    {
      ReverseStep(code, len - n, c, res);
      res := Or(res, And(c, 1));
      c := Shr(c, 1);
      res := Shl(res, 1);
      n := n - 1;
    }
    ReversedBits(code, len);
    r := Shr(res, 1);
    ShrOne(res);
  }

  lemma NothingReversed(code: nat)
    ensures Shr(code, 0) == code && MsbVal(BitsOf(code, 0)) == 0 < Pow2(16)
  {
    Pow2Values();
  }

  lemma ShrOne(v: nat)
    ensures Shr(v, 1) == v / 2
  {
    assert Shr(v / 2, 0) == v / 2;
  }

  lemma {:induction false} ShrStep(v: nat, t: nat)
    ensures Shr(v, t + 1) == Shr(v, t) / 2 == Shr(Shr(v, t), 1)
  {
    if t == 0 {
    } else {
      ShrStep(v / 2, t - 1);
    }
    ShrOne(Shr(v, t));
  }

  // ---- gen_codes ----

  /** What gen_codes expects of bl_count: how often each length occurs. */
  ghost predicate Counted(counts: seq<nat>, lens: seq<nat>) {
    && |counts| == MAX_BITS + 1
    && counts[0] == 0
    && forall b :: 1 <= b <= MAX_BITS ==> counts[b] == Count(lens, b)
  }

  /** The first loop of gen_codes; next_code and code are 16-bit. */
  method NextCodes(blCount: seq<nat>, ghost lens: seq<nat>) returns (nextCode: seq<nat>)
    requires Fits(lens, MAX_BITS) && Counted(blCount, lens)
    ensures |nextCode| == MAX_BITS + 1
    ensures forall b :: 1 <= b <= MAX_BITS ==> nextCode[b] == 2 * Used(lens, b - 1)
  {
    nextCode := seq(MAX_BITS + 1, i => 0);
    var code := 0;
    var bits := 1;
    assert Used(lens, 0) == 0;
    while bits <= MAX_BITS
      invariant 1 <= bits <= MAX_BITS + 1 && |nextCode| == MAX_BITS + 1
      invariant bits == 1 ==> code == 0
      invariant bits > 1 ==> code == 2 * Used(lens, bits - 2)
      invariant forall b :: 1 <= b < bits ==> nextCode[b] == 2 * Used(lens, b - 1)
    {
      FitsAt(lens, MAX_BITS, bits - 1);
      Pow2Values();
      Pow2Mono(bits, 15);
      assert bits > 1 ==> Used(lens, bits - 1) == 2 * Used(lens, bits - 2) + Count(lens, bits - 1);
      code := ((code + blCount[bits - 1]) * 2) % 65536;
      nextCode := nextCode[bits := code];
      bits := bits + 1;
    }
  }

  /** next_code after the symbols below `n` have their codes. */
  ghost predicate NextAt(next: seq<nat>, lens: seq<nat>, n: nat)
    requires n <= |lens|
  {
    |next| == MAX_BITS + 1 && forall b :: 1 <= b <= MAX_BITS ==> next[b] == 2 * Used(lens, b - 1) + Count(lens[..n], b)
  }

  lemma NextStep(next: seq<nat>, lens: seq<nat>, n: nat)
    requires n < |lens| && NextAt(next, lens, n) && Fits(lens, MAX_BITS)
    ensures lens[n] == 0 ==> NextAt(next, lens, n + 1)
    ensures lens[n] > 0 ==> next[lens[n]] == Code(lens, n) < Pow2(lens[n])
                            && NextAt(next[lens[n] := (next[lens[n]] + 1) % 65536], lens, n + 1)
  {
    assert lens[..n + 1][..n] == lens[..n];
    if lens[n] > 0 {
      CodeBound(lens, MAX_BITS, n);
      CodeIn16(lens[n], Code(lens, n));
    }
  }

  /** The symbol has its code, in the form send_code sends it. */
  ghost predicate HasCode(c: nat, lens: seq<nat>, n: nat)
    requires n < |lens|
  {
    lens[n] > 0 ==> c < Pow2(lens[n]) && BitsOf(c, lens[n]) == CodeBits(lens, n)
  }

  /** What is sent for one symbol of such a table never starts what is sent for another one. */
  lemma SentPrefixFree(r: seq<nat>, lens: seq<nat>, s: nat, t: nat)
    requires |lens| <= |r| && Fits(lens, MAX_BITS) && forall n :: 0 <= n < |lens| ==> HasCode(r[n], lens, n)
    requires s < |lens| && t < |lens| && s != t && lens[s] > 0 && lens[t] > 0
    ensures !(BitsOf(r[s], lens[s]) <= BitsOf(r[t], lens[t]))
  {
    assert HasCode(r[s], lens, s) && HasCode(r[t], lens, t);
    PrefixFree(lens, MAX_BITS, s, t);
  }

  /** Give every symbol of non-zero length its code, bit-reversed for sending, in the table `fc`. */
  method GenCodes(fc: seq<nat>, lens: seq<nat>, blCount: seq<nat>) returns (r: seq<nat>)
    requires |lens| <= |fc| && Fits(lens, MAX_BITS) && Counted(blCount, lens)
    ensures |r| == |fc|
    ensures forall n :: 0 <= n < |lens| ==> HasCode(r[n], lens, n)
    ensures forall n :: 0 <= n < |fc| && (n >= |lens| || lens[n] == 0) ==> r[n] == fc[n]
  {
    var nextCode := NextCodes(blCount, lens);
    var n := 0;
    r := fc;
    assert lens[..0] == [];
    assert NextAt(nextCode, lens, 0);
    while n < |lens|
      invariant 0 <= n <= |lens| && |r| == |fc|
      invariant NextAt(nextCode, lens, n)
      invariant forall k :: 0 <= k < n ==> HasCode(r[k], lens, k)
      invariant forall k :: 0 <= k < |fc| && (k >= n || lens[k] == 0) ==> r[k] == fc[k]
    {
      NextStep(nextCode, lens, n);
      var len := lens[n];
      if len != 0 {
        var code := BiReverse(nextCode[len], len);
        r := r[n := code];
        nextCode := nextCode[len := (nextCode[len] + 1) % 65536];
      }
      n := n + 1;
    }
  }

  lemma CodeIn16(len: nat, c: nat)
    requires len <= MAX_BITS && c < Pow2(len)
    ensures (c + 1) % 65536 == c + 1
  {
    Pow2Values();
    Pow2Mono(len, 15);
  }
}
