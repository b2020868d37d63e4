/** Bit strings in transmission order, and the machine-word operators of the C source on naturals. */
module Bitstring {

  type byte = x: int | 0 <= x < 256

  function Pow2(n: nat): (p: nat)
    ensures p >= 1
  {
    if n == 0 then 1 else 2 * Pow2(n - 1)
  }

  /** The low `n` bits of `v`, least significant first. */
  function BitsOf(v: nat, n: nat): (s: seq<bool>)
    ensures |s| == n
  {
    if n == 0 then [] else [v % 2 == 1] + BitsOf(v / 2, n - 1)
  }

  /** The number whose bits are `s`, least significant first. */
  function ValOf(s: seq<bool>): (v: nat)
    ensures v < Pow2(|s|)
  {
    if |s| == 0 then 0 else (if s[0] then 1 else 0) + 2 * ValOf(s[1..])
  }

  /** The number whose bits are `s`, most significant first. */
  function MsbVal(s: seq<bool>): (v: nat)
    ensures v < Pow2(|s|)
  {
    if |s| == 0 then 0 else 2 * MsbVal(s[..|s| - 1]) + (if s[|s| - 1] then 1 else 0)
  }

  /** The low `n` bits of `v`, most significant first: the order in which a Huffman code is sent. */
  function MsbBits(v: nat, n: nat): (s: seq<bool>)
    ensures |s| == n
  {
    if n == 0 then [] else MsbBits(v / 2, n - 1) + [v % 2 == 1]
  }

  function BytesBits(bs: seq<byte>): (s: seq<bool>)
    ensures |s| == 8 * |bs|
  {
    if |bs| == 0 then [] else BitsOf(bs[0], 8) + BytesBits(bs[1..])
  }

  function Zeros(n: nat): (s: seq<bool>)
    ensures |s| == n && forall i :: 0 <= i < n ==> !s[i]
  {
    seq(n, i => false)
  }

  // ---- the operators |, & and ^ of the source ----

  function Or(a: nat, b: nat): nat {
    if a == 0 && b == 0 then 0
    else 2 * Or(a / 2, b / 2) + (if a % 2 == 1 || b % 2 == 1 then 1 else 0)
  }

  function And(a: nat, b: nat): nat {
    if a == 0 || b == 0 then 0
    else 2 * And(a / 2, b / 2) + (if a % 2 == 1 && b % 2 == 1 then 1 else 0)
  }

  function Xor(a: nat, b: nat): nat {
    if a == 0 && b == 0 then 0
    else 2 * Xor(a / 2, b / 2) + (if a % 2 != b % 2 then 1 else 0)
  }

  function Shl(a: nat, n: nat): nat { a * Pow2(n) }
  function Shr(a: nat, n: nat): nat { if n == 0 then a else Shr(a / 2, n - 1) }

  /** `mask_bits[n]` of inflate.c: n one bits. */
  function Mask(n: nat): nat { Pow2(n) - 1 }

  // ---- powers of two ----

  lemma {:induction false} Pow2Add(m: nat, n: nat)
    ensures Pow2(m + n) == Pow2(m) * Pow2(n)
  {
    if m == 0 {
    } else {
      Pow2Add(m - 1, n);
      assert Pow2(m + n) == 2 * Pow2(m - 1 + n);
    }
  }

  lemma {:induction false} Pow2Mono(m: nat, n: nat)
    requires m <= n
    ensures Pow2(m) <= Pow2(n)
  {
    if m < n { Pow2Mono(m, n - 1); }
  }

  lemma Pow2Strict(m: nat, n: nat)
    requires m < n
    ensures 2 * Pow2(m) <= Pow2(n)
  {
    Pow2Mono(m + 1, n);
  }

  lemma Pow2Values()
    ensures Pow2(1) == 2 && Pow2(2) == 4 && Pow2(3) == 8 && Pow2(4) == 16 && Pow2(5) == 32 && Pow2(6) == 64
    ensures Pow2(7) == 128 && Pow2(8) == 256 && Pow2(9) == 512 && Pow2(10) == 1024 && Pow2(11) == 2048
    ensures Pow2(12) == 4096 && Pow2(13) == 8192 && Pow2(14) == 16384 && Pow2(15) == 32768 && Pow2(16) == 65536
  {
    assert Pow2(4) == 16;
    assert Pow2(8) == 256;
    assert Pow2(12) == 4096;
    assert Pow2(16) == 65536;
  }

  lemma ConcatAssoc<T>(a: seq<T>, b: seq<T>, c: seq<T>)
    ensures (a + b) + c == a + (b + c)
  {
  }

  /** a * 2^n, by doubling, so that no proof about codes multiplies two unknowns. */
  function Scale(a: nat, n: nat): (r: nat)
    ensures a > 0 ==> r > 0
  {
    if n == 0 then a else 2 * Scale(a, n - 1)
  }

  lemma {:induction false} ScaleAdd(a: nat, b: nat, n: nat)
    ensures Scale(a + b, n) == Scale(a, n) + Scale(b, n)
  {
    if n == 0 {
    } else {
      ScaleAdd(a, b, n - 1);
    }
  }

  lemma ScaleSub(a: nat, b: nat, n: nat)
    requires b <= a
    ensures Scale(a - b, n) == Scale(a, n) - Scale(b, n)
  {
    ScaleAdd(a - b, b, n);
  }

  lemma ScaleMono(a: nat, b: nat, n: nat)
    requires a <= b
    ensures Scale(a, n) <= Scale(b, n)
    ensures a < b ==> Scale(a, n) < Scale(b, n)
  {
    ScaleAdd(a, b - a, n);
  }

  lemma ScaleCancel(a: nat, b: nat, n: nat)
    requires Scale(a, n) <= Scale(b, n)
    ensures a <= b
  {
    if a > b { ScaleMono(b, a, n); }
  }

  lemma ScaleLess(a: nat, b: nat, n: nat)
    requires Scale(a, n) < Scale(b, n)
    ensures a < b
  {
    if a >= b { ScaleMono(b, a, n); }
  }

  lemma {:induction false} ScalePow(m: nat, n: nat)
    ensures Scale(Pow2(m), n) == Pow2(m + n)
  {
    if n == 0 {
    } else {
      ScalePow(m, n - 1);
    }
  }

  lemma {:induction false} ScaleTwice(a: nat, n: nat)
    ensures Scale(2 * a, n) == Scale(a, n + 1)
  {
    if n == 0 {
    } else {
      ScaleTwice(a, n - 1);
    }
  }

  lemma {:induction false} ScaleOne(n: nat)
    ensures Scale(1, n) == Pow2(n) && Scale(0, n) == 0
  {
    if n == 0 {
    } else {
      ScaleOne(n - 1);
    }
  }

  // Nonlinear facts about quotient and remainder, stated once.
  lemma DivModUnique(a: int, q: int, r: int, m: int)
    requires m > 0 && 0 <= r < m && a == q * m + r
    ensures a / m == q && a % m == r
  {
    var q' := a / m;
    var r' := a % m;
    assert a == q' * m + r';
    assert (q - q') * m == r' - r;
    if q > q' {
      MulMono(1, q - q', m);
    }
    if q < q' {
      MulMono(q - q', -1, m);
    }
  }

  lemma MulMono(a: int, b: int, m: int)
    requires a <= b && m >= 0
    ensures a * m <= b * m
  {
  }

  lemma TwiceSum(a: int, p: int, b: int, x: int)
    ensures 2 * (a * p + b) + x == a * (2 * p) + (2 * b + x)
  {
  }

  lemma MulComm(a: int, b: int)
    ensures a * b == b * a
  {
  }

  /** v / 2 / 2^n == v / 2^(n+1) and the matching remainder. */
  lemma DivHalf(v: nat, n: nat)
    ensures v / Pow2(n + 1) == v / 2 / Pow2(n)
    ensures v % Pow2(n + 1) == v % 2 + 2 * ((v / 2) % Pow2(n))
  {
    var p := Pow2(n);
    var h := v / 2;
    var q := h / p;
    var r := h % p;
    assert h == q * p + r;
    assert v == 2 * h + v % 2;
    assert v == q * (2 * p) + (2 * r + v % 2) by {
      assert 2 * (q * p) == q * (2 * p);
    }
    DivModUnique(v, q, 2 * r + v % 2, 2 * p);
  }

  // ---- bit strings and numbers ----

  lemma {:induction false} ValOfBitsOf(v: nat, n: nat)
    ensures ValOf(BitsOf(v, n)) == v % Pow2(n)
  {
    if n == 0 {
    } else {
      ValOfBitsOf(v / 2, n - 1);
      DivHalf(v, n - 1);
      assert BitsOf(v, n)[1..] == BitsOf(v / 2, n - 1);
    }
  }

  lemma {:induction false} BitsOfValOf(s: seq<bool>)
    ensures BitsOf(ValOf(s), |s|) == s
  {
    if |s| == 0 {
    } else {
      BitsOfValOf(s[1..]);
      var v := ValOf(s);
      assert v / 2 == ValOf(s[1..]);
      assert s == [s[0]] + s[1..];
    }
  }

  lemma BitsOfSmall(v: nat, n: nat)
    requires v < Pow2(n)
    ensures ValOf(BitsOf(v, n)) == v
  {
    ValOfBitsOf(v, n);
    DivModUnique(v, 0, v, Pow2(n));
  }

  lemma {:induction false} BitsOfShr(v: nat, m: nat, n: nat)
    ensures BitsOf(v, m + n) == BitsOf(v, m) + BitsOf(Shr(v, m), n)
  {
    if m == 0 {
      assert BitsOf(v, 0) + BitsOf(v, n) == BitsOf(v, n);
    } else {
      var h, x := v / 2, [v % 2 == 1];
      BitsOfShr(h, m - 1, n);
      var a, b := BitsOf(h, m - 1), BitsOf(Shr(h, m - 1), n);
      assert BitsOf(v, m + n) == x + (a + b) by { assert m + n - 1 == m - 1 + n; }
      assert (x + a) + b == x + (a + b);
    }
  }

  lemma {:induction false} ShrIsDiv(v: nat, m: nat)
    ensures Shr(v, m) == v / Pow2(m)
  {
    if m == 0 {
    } else {
      ShrIsDiv(v / 2, m - 1);
      DivHalf(v, m - 1);
    }
  }

  /** Only the value modulo 2^n matters. */
  lemma {:induction false} BitsOfMod(v: nat, n: nat)
    ensures BitsOf(v % Pow2(n), n) == BitsOf(v, n)
  {
    ValOfBitsOf(v, n);
    BitsOfValOf(BitsOf(v, n));
  }

  lemma BitsOfJoin(a: nat, m: nat, b: nat, n: nat)
    requires a < Pow2(m)
    ensures BitsOf(a + b * Pow2(m), m + n) == BitsOf(a, m) + BitsOf(b, n)
  {
    var v := a + b * Pow2(m);
    DivModUnique(v, b, a, Pow2(m));
    ShrIsDiv(v, m);
    BitsOfShr(v, m, n);
    BitsOfMod(v, m);
  }

  lemma {:induction false} ValOfJoin(s: seq<bool>, t: seq<bool>)
    ensures ValOf(s + t) == ValOf(s) + Pow2(|s|) * ValOf(t)
  {
    if |s| == 0 {
      assert s + t == t;
    } else {
      ValOfJoin(s[1..], t);
      assert (s + t)[1..] == s[1..] + t && (s + t)[0] == s[0];
      TwiceSum(ValOf(t), Pow2(|s| - 1), ValOf(s[1..]), if s[0] then 1 else 0);
      MulComm(Pow2(|s| - 1), ValOf(t));
      MulComm(Pow2(|s|), ValOf(t));
    }
  }

  lemma {:induction false} BytesBitsJoin(a: seq<byte>, b: seq<byte>)
    ensures BytesBits(a + b) == BytesBits(a) + BytesBits(b)
  {
    hide BitsOf, Pow2;
    if |a| == 0 {
      assert a + b == b;
    } else {
      BytesBitsJoin(a[1..], b);
      assert (a + b)[1..] == a[1..] + b;
      assert (a + b)[0] == a[0];
    }
  }

  lemma BytesBitsOne(b: byte)
    ensures BytesBits([b]) == BitsOf(b, 8)
  {
    assert [b][1..] == [];
  }

  // ---- MSB-first numbers ----

  lemma {:induction false} MsbValMsbBits(v: nat, n: nat)
    ensures MsbVal(MsbBits(v, n)) == v % Pow2(n)
  {
    if n == 0 {
    } else {
      MsbValMsbBits(v / 2, n - 1);
      DivHalf(v, n - 1);
      assert MsbBits(v, n)[..n - 1] == MsbBits(v / 2, n - 1);
    }
  }

  lemma {:induction false} MsbBitsMsbVal(s: seq<bool>)
    ensures MsbBits(MsbVal(s), |s|) == s
  {
    if |s| == 0 {
    } else {
      var n := |s|;
      MsbBitsMsbVal(s[..n - 1]);
      assert s == s[..n - 1] + [s[n - 1]];
      assert MsbVal(s) / 2 == MsbVal(s[..n - 1]);
    }
  }

  lemma MsbBitsSmall(v: nat, n: nat)
    requires v < Pow2(n)
    ensures MsbVal(MsbBits(v, n)) == v
  {
    MsbValMsbBits(v, n);
    DivModUnique(v, 0, v, Pow2(n));
  }

  lemma MsbValInjective(s: seq<bool>, t: seq<bool>)
    requires |s| == |t| && MsbVal(s) == MsbVal(t)
    ensures s == t
  {
    MsbBitsMsbVal(s);
    MsbBitsMsbVal(t);
  }

  lemma ValOfInjective(s: seq<bool>, t: seq<bool>)
    requires |s| == |t| && ValOf(s) == ValOf(t)
    ensures s == t
  {
    BitsOfValOf(s);
    BitsOfValOf(t);
  }

  lemma {:induction false} ValOfZeros(s: seq<bool>)
    requires forall i :: 0 <= i < |s| ==> !s[i]
    ensures ValOf(s) == 0 && MsbVal(s) == 0
    decreases |s|
  {
    if |s| == 0 {
    } else {
      ValOfZeros(s[1..]);
      ValOfZeros(s[..|s| - 1]);
    }
  }

  // ---- the machine operators, bit by bit ----

  lemma {:induction false} OrZero(a: nat)
    ensures Or(0, a) == a
  {
    if a == 0 {
    } else {
      OrZero(a / 2);
    }
  }

  lemma {:induction false} OrDisjoint(a: nat, b: nat, n: nat)
    requires a < Pow2(n)
    ensures Or(a, b * Pow2(n)) == a + b * Pow2(n)
  {
    if n == 0 {
      OrZero(b);
    } else {
      var c := b * Pow2(n);
      assert c == 2 * (b * Pow2(n - 1));
      assert c / 2 == b * Pow2(n - 1) && c % 2 == 0;
      OrDisjoint(a / 2, b, n - 1);
    }
  }

  lemma {:induction false} AndMask(a: nat, n: nat)
    ensures And(a, Mask(n)) == a % Pow2(n)
  {
    hide And;
    if n == 0 {
      AndNone(a);
    } else {
      AndMask(a / 2, n - 1);
      DivHalf(a, n - 1);
      AndOdd(a, Mask(n - 1));
    }
  }

  lemma AndNone(a: nat)
    ensures And(a, 0) == 0
  {
  }

  lemma AndOdd(a: nat, m: nat)
    ensures And(a, 2 * m + 1) == 2 * And(a / 2, m) + a % 2
  {
    assert (2 * m + 1) / 2 == m && (2 * m + 1) % 2 == 1;
  }

  lemma {:induction false} BitsOfXor(a: nat, b: nat, n: nat)
    ensures forall i :: 0 <= i < n ==> BitsOf(Xor(a, b), n)[i] == (BitsOf(a, n)[i] != BitsOf(b, n)[i])
  {
    if n == 0 {
    } else {
      var x := Xor(a, b);
      assert x / 2 == Xor(a / 2, b / 2) && (x % 2 == 1) == (a % 2 != b % 2);
      BitsOfXor(a / 2, b / 2, n - 1);
    }
  }

  lemma {:induction false} BitsOfAnd(a: nat, b: nat, n: nat)
    ensures forall i :: 0 <= i < n ==> BitsOf(And(a, b), n)[i] == (BitsOf(a, n)[i] && BitsOf(b, n)[i])
  {
    if n == 0 {
    } else {
      var x := And(a, b);
      assert x / 2 == And(a / 2, b / 2) && (x % 2 == 1) == (a % 2 == 1 && b % 2 == 1);
      BitsOfAnd(a / 2, b / 2, n - 1);
    }
  }

  /** The bits of a power of two: a single one. */
  lemma {:induction false} BitsOfPow2(p: nat, n: nat)
    ensures forall i :: 0 <= i < n ==> BitsOf(Pow2(p), n)[i] == (i == p)
  {
    if n == 0 {
    } else {
      if p == 0 {
        BitsOfZero(n - 1);
      } else {
        BitsOfPow2(p - 1, n - 1);
      }
    }
  }

  lemma {:induction false} BitsOfZero(n: nat)
    ensures BitsOf(0, n) == Zeros(n)
  {
    if n == 0 {
    } else {
      BitsOfZero(n - 1);
    }
  }

  lemma {:induction false} XorBound(a: nat, b: nat, n: nat)
    requires a < Pow2(n) && b < Pow2(n)
    ensures Xor(a, b) < Pow2(n)
  {
    if n == 0 {
    } else {
      XorBound(a / 2, b / 2, n - 1);
    }
  }
}
