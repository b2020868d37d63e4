/** UPDATE_HASH (deflate.c:267): the rolling hash of three bytes. */
module Hash {
  import opened Bitstring

  const HASH_SIZE := 0x8000
  const HASH_MASK := 0x7fff
  const H_SHIFT := 5

  function Update(h: nat, c: nat): nat {
    And(Xor(Shl(h, H_SHIFT), c), HASH_MASK)
  }

  lemma UpdateIs(h: nat, c: nat)
    ensures Update(h, c) < HASH_SIZE && BitsOf(Update(h, c), 15) == BitsOf(Xor(Shl(h, 5), c), 15)
  {
    hide Xor, BitsOf, And, Shl;
    Pow2Values();
    AndMask(Xor(Shl(h, 5), c), 15);
    BitsOfMod(Xor(Shl(h, 5), c), 15);
  }

  lemma ShiftedBits(h: nat)
    ensures forall i :: 0 <= i < 15 ==> BitsOf(Shl(h, 5), 15)[i] == (i >= 5 && BitsOf(h, 15)[i - 5])
  {
    assert Shl(h, 5) == 0 + h * Pow2(5);
    BitsOfJoin(0, 5, h, 10);
    BitsOfZero(5);
    BitsOfShr(h, 10, 5);
    assert BitsOf(h, 15)[..10] == BitsOf(h, 10);
  }

  /** Bit `i` of the hash comes from the byte, or from five places below in the old hash. */
  ghost predicate Mixed(r: seq<bool>, h: seq<bool>, c: seq<bool>) {
    |r| == |h| == |c| == 15 && forall i :: 0 <= i < 15 ==> r[i] == ((i >= 5 && h[i - 5]) != c[i])
  }

  lemma UpdateBits(h: nat, c: nat)
    ensures Mixed(BitsOf(Update(h, c), 15), BitsOf(h, 15), BitsOf(c, 15))
  {
    hide Xor, BitsOf, And, Shl, Update;
    UpdateIs(h, c);
    BitsOfXor(Shl(h, 5), c, 15);
    ShiftedBits(h);
  }

  /** The hash of a string of three bytes. */
  function Hash3(b0: nat, b1: nat, b2: nat): nat {
    Update(Update(Update(0, b0), b1), b2)
  }

  lemma SameBits(a: nat, b: nat)
    requires a < 0x8000 && b < 0x8000 && BitsOf(a, 15) == BitsOf(b, 15)
    ensures a == b
  {
    Pow2Values();
    BitsOfSmall(a, 15);
    BitsOfSmall(b, 15);
  }

  lemma MixThree(h: seq<bool>, g: seq<bool>, c0: seq<bool>, c1: seq<bool>, c2: seq<bool>,
                 x0: seq<bool>, x1: seq<bool>, x2: seq<bool>, y0: seq<bool>, y1: seq<bool>, y2: seq<bool>)
    requires Mixed(x0, h, c0) && Mixed(x1, x0, c1) && Mixed(x2, x1, c2)
    requires Mixed(y0, g, c0) && Mixed(y1, y0, c1) && Mixed(y2, y1, c2)
    ensures x2 == y2
  {
    assert forall i :: 0 <= i < 5 ==> x0[i] == y0[i];
    assert forall i :: 0 <= i < 10 ==> x1[i] == y1[i];
    assert forall i :: 0 <= i < 15 ==> x2[i] == y2[i];
  }

  /** After three steps nothing is left of the old hash. */
  lemma Rolls(h: nat, b0: nat, b1: nat, b2: nat)
    ensures Update(Update(Update(h, b0), b1), b2) == Hash3(b0, b1, b2) < HASH_SIZE
  {
    hide Update, BitsOf, Mixed;
    var x0, y0 := Update(h, b0), Update(0, b0);
    var x1, y1 := Update(x0, b1), Update(y0, b1);
    UpdateBits(h, b0);
    UpdateBits(0, b0);
    UpdateBits(x0, b1);
    UpdateBits(y0, b1);
    UpdateBits(x1, b2);
    UpdateBits(y1, b2);
    UpdateIs(x1, b2);
    UpdateIs(y1, b2);
    MixThree(BitsOf(h, 15), BitsOf(0, 15), BitsOf(b0, 15), BitsOf(b1, 15), BitsOf(b2, 15), BitsOf(x0, 15),
             BitsOf(x1, 15),
             BitsOf(Update(x1, b2), 15), BitsOf(y0, 15), BitsOf(y1, 15), BitsOf(Update(y1, b2), 15));
    SameBits(Update(x1, b2), Update(y1, b2));
  }

  /** The next hash from the last one. */
  lemma RollsOn(b0: nat, b1: nat, b2: nat, b3: nat)
    ensures Update(Hash3(b0, b1, b2), b3) == Hash3(b1, b2, b3) < HASH_SIZE
  {
    hide Update;
    Rolls(Update(0, b0), b1, b2, b3);
  }

  lemma MixCancel(r: seq<bool>, h: seq<bool>, a: seq<bool>, b: seq<bool>)
    requires Mixed(r, h, a) && Mixed(r, h, b)
    ensures a == b
  {
    forall i | 0 <= i < 15
      ensures a[i] == b[i]
    {
      assert r[i] == ((i >= 5 && h[i - 5]) != a[i]);
      assert r[i] == ((i >= 5 && h[i - 5]) != b[i]);
    }
  }

  /** Equal hashes and equal first two bytes leave no choice for the third. */
  lemma ThirdEqual(b0: nat, b1: nat, x: byte, y: byte)
    requires Hash3(b0, b1, x) == Hash3(b0, b1, y)
    ensures x == y
  {
    hide Update, BitsOf, Mixed;
    var h := Update(Update(0, b0), b1);
    UpdateBits(h, x);
    UpdateBits(h, y);
    MixCancel(BitsOf(Update(h, x), 15), BitsOf(h, 15), BitsOf(x, 15), BitsOf(y, 15));
    SameBits(x, y);
  }

  lemma UpdateZero(b: byte)
    ensures Update(0, b) == b
  {
    hide Update, BitsOf;
    UpdateBits(0, b);
    BitsOfZero(15);
    UpdateIs(0, b);
    assert BitsOf(Update(0, b), 15) == BitsOf(b, 15);
    SameBits(Update(0, b), b);
  }
}
