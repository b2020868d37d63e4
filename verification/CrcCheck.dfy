/** The check value of section 8 of RFC 1952, without the initial register of updcrc. */
module CrcCheck {
  import opened Bitstring
  import opened Crc
  import opened GzipFile

  // ---- a byte and its complement ----

  lemma OneMore(u: bv32, v: bv32)
    requires u < 255 && v == u + 1
    ensures v < 256 && v as int == u as int + 1
  {
  }

  lemma {:induction false} ByteBits(b: byte) returns (v: bv32)
    ensures v < 256 && v as int == b
  {
    if b == 0 {
      v := 0;
    } else {
      var u := ByteBits(b - 1);
      v := u + 1;
      SmallBits(u, b);
      OneMore(u, v);
    }
  }

  lemma SmallBits(u: bv32, b: byte)
    requires u < 256 && u as int == b - 1
    ensures u < 255
  {
  }

  lemma BackToBits(v: bv32, b: byte)
    requires v < 256 && v as int == b
    ensures b as bv32 == v
  {
  }

  lemma FlipBits(v: bv32, w: bv32)
    requires v < 256 && w == v ^ 255
    ensures w < 256 && w as int == 255 - (v as int)
  {
  }

  function Wide(b: byte): bv32 {
    b as bv32
  }

  lemma WideIs(b: byte) returns (v: bv32)
    ensures v == Wide(b) && v < 256 && v as int == b
  {
    v := ByteBits(b);
    BackToBits(v, b);
  }

  lemma WideFrom(v: bv32, b: byte)
    requires v < 256 && v as int == b
    ensures Wide(b) == v
  {
    BackToBits(v, b);
  }

  lemma FlipWide(b: byte, c: byte)
    requires c == 255 - b
    ensures Wide(c) == Wide(b) ^ 255
  {
    hide Wide;
    var v := WideIs(b);
    var w := v ^ 255;
    FlipBits(v, w);
    WideFrom(w, c);
  }

  lemma Masked(c: bv32, d: bv32, m: bv32, v: bv32, w: bv32, x: bv32, y: bv32, hi: bv32, hi4: bv32, up: bv32)
    requires d == c ^ m && m & 255 == 255 && up == m >> 8 && w == v ^ 255
    requires x == d ^ v && y == c ^ w && hi == m ^ 255 && hi4 == hi >> 4
    ensures x == y ^ hi && hi & 15 == 0 && hi4 & 15 == 0 && hi4 >> 4 == up
  {
  }

  lemma WideByte(c: bv32, b: byte, v: bv32, x: bv32)
    requires v == Wide(b) && x == c ^ v
    ensures CrcByte(c, b) == Step8(x)
  {
    hide Step8;
  }

  /** Ones in the low byte of the register complement the byte that comes next. */
  lemma FlippedByte(c: bv32, d: bv32, m: bv32, b: byte, up: bv32)
    requires d == c ^ m && m & 255 == 255 && up == m >> 8
    ensures CrcByte(d, b) == Plus(CrcByte(c, 255 - b), up)
  {
    hide Wide, Step8, Plus, CrcByte;
    FlipWide(b, 255 - b);
    var v, w := Wide(b), Wide(255 - b);
    var x, y, hi := d ^ v, c ^ w, m ^ 255;
    var hi4 := hi >> 4;
    Masked(c, d, m, v, w, x, y, hi, hi4, up);
    WideByte(d, b, v, x);
    WideByte(c, 255 - b, w, y);
    PlusIs(y, hi, x);
    Step8Plus(y, hi, x);
    HighGone(hi, hi4, up);
  }

  // ---- the first four bytes ----

  /** The first four bytes complemented. */
  function Flip(s: seq<byte>): (r: seq<byte>) {
    seq(|s|, i requires 0 <= i < |s| => if i < 4 then 255 - s[i] else s[i])
  }

  /** What is left of 32 ones after `n` bytes. */
  function Ones(n: nat): bv32 {
    if n == 0 then 0xffffffff
    else if n == 1 then 0x00ffffff
    else if n == 2 then 0x0000ffff
    else if n == 3 then 0x000000ff
    else 0
  }

  lemma OnesNext(n: nat, m: bv32, up: bv32)
    requires n < 4 && m == Ones(n) && up == Ones(n + 1)
    ensures m & 255 == 255 && up == m >> 8
  {
  }

  lemma {:induction false} FlippedStart(s: seq<byte>)
    requires |s| <= 4
    ensures Register(0xffffffff, s) == Plus(Register(0, Flip(s)), Ones(|s|))
  {
    hide CrcByte, Plus;
    if |s| == 0 {
      PlusIs(0, 0xffffffff, 0xffffffff);
    } else {
      var n := |s| - 1;
      FlippedStart(s[..n]);
      assert Flip(s)[..n] == Flip(s[..n]);
      var c, d, m, up := Register(0, Flip(s[..n])), Register(0xffffffff, s[..n]), Ones(n), Ones(n + 1);
      OnesNext(n, m, up);
      PlusMeans(c, m, d);
      FlippedByte(c, d, m, s[n], up);
    }
  }

  lemma PlusZero(a: bv32)
    ensures Plus(a, 0) == a
  {
  }

  /** All ones in the register do what complementing the first four bytes does. */
  lemma FlippedAll(s: seq<byte>)
    ensures Register(0xffffffff, s) == Plus(Register(0, Flip(s)), Ones(|s|))
  {
    hide CrcByte, Plus, Register;
    if |s| <= 4 {
      FlippedStart(s);
    } else {
      FlippedStart(s[..4]);
      PlusZero(Register(0, Flip(s[..4])));
      RegisterJoin(0xffffffff, s[..4], s[4..]);
      RegisterJoin(0, Flip(s[..4]), s[4..]);
      assert s[..4] + s[4..] == s;
      assert Flip(s[..4]) + s[4..] == Flip(s);
      PlusZero(Register(0, Flip(s)));
    }
  }

  lemma Complement(a: bv32, r: bv32)
    requires r == a ^ 0xffffffff
    ensures r == !a
  {
  }

  lemma NothingLeft(n: nat, c: bv32, d: bv32)
    requires d == Plus(c, Ones(n))
    ensures n >= 4 ==> d == c
  {
  }

  /** The complement of a register, as a number. */
  ghost function NumberOf(c: bv32): nat {
    (!c) as nat
  }

  lemma NumberIs(d: bv32, r: bv32)
    requires r == !d
    ensures NumberOf(d) == r as nat
  {
  }

  lemma CrcNamed(s: seq<byte>, d: bv32, r: bv32)
    requires d == Register(0xffffffff, s) && r == d ^ 0xffffffff
    ensures CrcOf(s) == r as nat
  {
    hide Register;
  }

  lemma CrcIs(s: seq<byte>, d: bv32)
    requires d == Register(0xffffffff, s)
    ensures CrcOf(s) == NumberOf(d)
  {
    hide Register, CrcOf, NumberOf;
    var r := d ^ 0xffffffff;
    Complement(d, r);
    CrcNamed(s, d, r);
    NumberIs(d, r);
  }

  /** The check value of no bytes. */
  lemma CrcNone()
    ensures CrcOf([]) == 0
  {
  }

  /** For any number of bytes, what is left of the ones is added. */
  lemma CrcShort(s: seq<byte>)
    ensures CrcOf(s) == NumberOf(Plus(Register(0, Flip(s)), Ones(|s|)))
  {
    hide Plus, Flip, Register, CrcOf, Ones, NumberOf;
    FlippedAll(s);
    CrcIs(s, Register(0xffffffff, s));
  }

  /**
   * The check value of four bytes or more: the complement of the remainder of the bytes, the first four
   * complemented.
   */
  lemma CrcLong(s: seq<byte>)
    requires |s| >= 4
    ensures CrcOf(s) == NumberOf(Register(0, Flip(s)))
  {
    hide Plus, Flip, Register, CrcOf, Ones, NumberOf;
    CrcShort(s);
    NothingLeft(|s|, Register(0, Flip(s)), Plus(Register(0, Flip(s)), Ones(|s|)));
  }
}
