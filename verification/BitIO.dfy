/** bits.c (the bit packer of the compressor) and the NEEDBITS/DUMPBITS macros of inflate.c. */
module BitIO {
  import opened Bitstring

  const BUF_SIZE := 16

  /** Number of zero bits that bring a string of `n` bits to a byte boundary. */
  function Pad(n: nat): (p: nat)
    ensures p < 8 && (n + p) % 8 == 0
  {
    (8 - n % 8) % 8
  }

  lemma PadAligned(n: nat, valid: nat)
    requires n % 8 == 0 && valid <= 16
    ensures Pad(n + valid) == if valid > 8 then 16 - valid else if valid > 0 then 8 - valid else 0
  {
  }

  lemma WholeBytes(n: nat, bytes: nat)
    requires 8 * bytes == n + Pad(n)
    ensures (n + 7) / 8 == bytes
  {
  }

  lemma ModSmall(v: nat, m: nat)
    requires v < m
    ensures v % m == v
  {
  }

  lemma ConcatEmpty(a: seq<bool>, v: nat)
    ensures a + BitsOf(v, 0) == a
  {
  }

  /** A value or-ed in above the valid bits and cut to 16 bits concatenates bit strings. */
  lemma OrShift16(buf: nat, valid: nat, value: nat, keep: nat)
    requires buf < Pow2(valid) && valid + keep == BUF_SIZE
    ensures var w := Or(buf, Shl(value, valid)) % 65536;
            w < 65536 && BitsOf(w, 16) == BitsOf(buf, valid) + BitsOf(value, keep)
  {
    OrDisjoint(buf, value, valid);
    Pow2Values();
    BitsOfMod(buf + value * Pow2(valid), 16);
    BitsOfJoin(buf, valid, value, keep);
  }

  lemma SplitShort(w: nat)
    requires w < 65536
    ensures BytesBits([w % 256, w / 256]) == BitsOf(w, 16)
  {
    Pow2Values();
    BitsOfJoin(w % 256, 8, w / 256, 8);
    BytesBitsJoin([w % 256], [w / 256]);
    assert [w % 256] + [w / 256] == [w % 256, w / 256];
    BytesBitsOne(w % 256);
    BytesBitsOne(w / 256);
  }

  lemma {:induction false} BytesBitsAt(bs: seq<byte>, i: nat)
    requires i < |bs|
    ensures BytesBits(bs)[8 * i..8 * i + 8] == BitsOf(bs[i], 8)
  {
    hide BitsOf;
    if i > 0 {
      BytesBitsAt(bs[1..], i - 1);
      SliceBehind(BitsOf(bs[0], 8), BytesBits(bs[1..]), 8 * (i - 1), 8);
    } else {
      SliceFirst(BitsOf(bs[0], 8), BytesBits(bs[1..]));
    }
  }

  lemma SliceBehind(a: seq<bool>, b: seq<bool>, k: nat, n: nat)
    requires k + n <= |b|
    ensures (a + b)[|a| + k..|a| + k + n] == b[k..k + n]
  {
  }

  lemma SliceFirst(a: seq<bool>, b: seq<bool>)
    ensures (a + b)[0..|a|] == a
  {
  }

  /** send_bits when the value does not fit: one 16-bit word goes out, the rest stays in the buffer. */
  lemma Spill(sent: seq<bool>, buf: nat, valid: nat, value: nat, length: nat, w: nat, left: nat)
    requires valid <= 16 && length <= 16 && valid > 16 - length && buf < Pow2(valid) && value < Pow2(length)
    requires w == Or(buf, Shl(value, valid)) % 65536 && left == Shr(value % 65536, 16 - valid)
    ensures w < 65536 && left < Pow2(valid + length - 16)
    ensures (sent + BitsOf(w, 16)) + BitsOf(left, valid + length - 16)
            == (sent + BitsOf(buf, valid)) + BitsOf(value, length)
  {
    hide BitsOf, Or, Shl, Shr, Pow2;
    var keep := 16 - valid;
    OrShift16(buf, valid, value, keep);
    SentBeyond(value, length, keep);
    Fits16(value, length);
    MiddleJoin(sent, BitsOf(buf, valid), BitsOf(value, keep), BitsOf(Shr(value, keep), length - keep));
  }

  lemma MiddleJoin(a: seq<bool>, x: seq<bool>, y: seq<bool>, z: seq<bool>)
    ensures (a + (x + y)) + z == (a + x) + (y + z)
  {
  }

  lemma Fits16(v: nat, n: nat)
    requires n <= 16 && v < Pow2(n)
    ensures v % 65536 == v
  {
    Pow2Mono(n, 16);
    Pow2Values();
    ModSmall(v, 65536);
  }

  /** send_bits when the value fits in the buffer. */
  lemma Room(sent: seq<bool>, buf: nat, valid: nat, value: nat, length: nat, w: nat)
    requires valid + length <= 16 && buf < Pow2(valid) && value < Pow2(length)
    requires w == Or(buf, Shl(value, valid)) % 65536
    ensures w < Pow2(valid + length)
    ensures sent + BitsOf(w, valid + length) == (sent + BitsOf(buf, valid)) + BitsOf(value, length)
  {
    var sum := buf + value * Pow2(valid);
    OrDisjoint(buf, value, valid);
    BitsOfJoin(buf, valid, value, length);
    JoinBound(buf, valid, value, length);
    Fits16(sum, valid + length);
    ConcatAssoc(sent, BitsOf(buf, valid), BitsOf(value, length));
  }

  /** bi_windup: the padding bits are zero because the unused bits of the buffer are. */
  lemma WindupBits(sent: seq<bool>, buf: nat, valid: nat)
    requires valid <= 16 && |sent| % 8 == 0 && buf < Pow2(valid)
    ensures var pad := Pad(|sent + BitsOf(buf, valid)|);
            && (valid > 8 ==> buf < 65536 && sent + BitsOf(buf, 16) == (sent + BitsOf(buf, valid)) + Zeros(pad))
            && (0 < valid <= 8 ==> buf < 256 && sent + BitsOf(buf, 8) == (sent + BitsOf(buf, valid)) + Zeros(pad))
            && (valid == 0 ==> sent == (sent + BitsOf(buf, valid)) + Zeros(pad))
  {
    hide BitsOf, Zeros, Pad, Pow2;
    PadAligned(|sent|, valid);
    if valid > 8 {
      Widened(sent, buf, valid, 16);
    } else if valid > 0 {
      Widened(sent, buf, valid, 8);
    }
  }

  lemma Widened(sent: seq<bool>, buf: nat, valid: nat, n: nat)
    requires (n == 8 || n == 16) && valid <= n && buf < Pow2(valid)
    ensures buf < Pow2(n) && Pow2(8) == 256 && Pow2(16) == 65536
    ensures sent + BitsOf(buf, n) == (sent + BitsOf(buf, valid)) + Zeros(n - valid)
  {
    hide BitsOf;
    PadBuffer(buf, valid, n - valid);
    ConcatAssoc(sent, BitsOf(buf, valid), Zeros(n - valid));
    Pow2Mono(valid, n);
    Pow2Values();
  }

  /** b & mask_bits[n] is the number formed by the first n bits of the buffer. */
  lemma LowBits(bb: nat, bk: nat, n: nat)
    requires n <= bk
    ensures And(bb, Mask(n)) == ValOf(BitsOf(bb, bk)[..n])
  {
    AndMask(bb, n);
    BitsOfShr(bb, n, bk - n);
    assert BitsOf(bb, bk)[..n] == BitsOf(bb, n);
    ValOfBitsOf(bb, n);
  }

  lemma SliceJoin(s: seq<bool>, a: nat, b: nat, c: nat)
    requires a <= b <= c <= |s|
    ensures s[a..b] + s[b..c] == s[a..c]
  {
  }

  lemma SliceFront(s: seq<bool>, a: nat, b: nat, n: nat)
    requires a + n <= b <= |s|
    ensures s[a..][..n] == s[a..b][..n]
  {
  }

  /** One NEEDBITS step: the next byte of the file lands above the bk buffered bits. */
  lemma LoadByte(file: seq<byte>, inptr: nat, bb: nat, bk: nat)
    requires inptr < |file| && bk <= 8 * inptr && bb < Pow2(bk)
    requires BitsOf(bb, bk) == BytesBits(file)[8 * inptr - bk..8 * inptr]
    ensures var w := Or(bb, Shl(file[inptr], bk));
            w < Pow2(bk + 8) && BitsOf(w, bk + 8) == BytesBits(file)[8 * inptr - bk..8 * inptr + 8]
  {
    hide BitsOf, BytesBits, Or;
    OrDisjoint(bb, file[inptr], bk);
    BitsOfJoin(bb, bk, file[inptr], 8);
    Pow2Values();
    JoinBound(bb, bk, file[inptr], 8);
    BytesBitsAt(file, inptr);
    SliceJoin(BytesBits(file), 8 * inptr - bk, 8 * inptr, 8 * inptr + 8);
  }

  class BitWriter {
    var out: seq<byte>     // the bytes of the compressed file so far
    var biBuf: nat
    var biValid: nat

    /** The buffer holds no more than its valid bits. */
    ghost predicate Valid()
      reads this
    {
      biValid <= BUF_SIZE && biBuf < Pow2(biValid)
    }

    /** Everything sent so far, in transmission order. */
    ghost function Bits(): (s: seq<bool>)
      reads this
      ensures |s| == 8 * |out| + biValid
    {
      BytesBits(out) + BitsOf(biBuf, biValid)
    }

    constructor ()
      ensures Valid() && Bits() == [] && out == []
    {
      out, biBuf, biValid := [], 0, 0;
    }

    method PutByte(b: byte)
      modifies this`out
      ensures out == old(out) + [b]
      ensures BytesBits(out) == old(BytesBits(out)) + BitsOf(b, 8)
    {
      BytesBitsJoin(out, [b]);
      BytesBitsOne(b);
      out := out + [b];
    }

    method PutShort(w: nat)
      requires w < 65536
      modifies this`out
      ensures |out| == |old(out)| + 2
      ensures BytesBits(out) == old(BytesBits(out)) + BitsOf(w, 16)
    {
      BytesBitsJoin(out, [w % 256, w / 256]);
      SplitShort(w);
      out := out + [w % 256, w / 256];
    }

    /** send_bits, under its own condition on the arguments (bits.c:116). */
    method SendBits(value: nat, length: nat)
      requires Valid() && length <= 16 && value < Pow2(length)
      modifies this
      ensures Valid() && Bits() == old(Bits()) + BitsOf(value, length)
    {
      hide Or, Shl, BitsOf, BytesBits, Pow2;
      if biValid > BUF_SIZE - length {
        var w, left := Or(biBuf, Shl(value, biValid)) % 65536, Shr(value % 65536, BUF_SIZE - biValid);
        Spill(BytesBits(out), biBuf, biValid, value, length, w, left);
        PutShort(w);
        biBuf := left;
        biValid := biValid + length - BUF_SIZE;
      } else {
        var w := Or(biBuf, Shl(value, biValid)) % 65536;
        Room(BytesBits(out), biBuf, biValid, value, length, w);
        biBuf := w;
        biValid := biValid + length;
      }
    }

    method Windup()
      requires Valid()
      modifies this
      ensures Valid() && biValid == 0
      ensures Bits() == BytesBits(out) == old(Bits()) + Zeros(Pad(|old(Bits())|))
    {
      WindupBits(BytesBits(out), biBuf, biValid);
      if biValid > 8 {
        PutShort(biBuf);
      } else if biValid > 0 {
        PutByte(biBuf);
      }
      biBuf := 0;
      biValid := 0;
      assert BitsOf(0, 0) == [];
    }

    method PutBytes(buf: seq<byte>)
      requires biValid == 0
      modifies this`out
      ensures BytesBits(out) == old(BytesBits(out)) + BytesBits(buf)
    {
      var i := 0;
      while i < |buf|
        invariant 0 <= i <= |buf| && out == old(out) + buf[..i]
      {
        PutByte(buf[i]);
        i := i + 1;
      }
      assert buf[..i] == buf;
      BytesBitsJoin(old(out), buf);
    }

    method PutLengths(n: nat)
      requires n < 65536
      modifies this`out
      ensures BytesBits(out) == old(BytesBits(out)) + LengthBits(n)
    {
      ghost var lead := BytesBits(out);
      PutShort(n);
      PutShort(65535 - n);
      ConcatAssoc(lead, BitsOf(n, 16), BitsOf(65535 - n, 16));
    }

    /** copy_block: bytes as they are, on a byte boundary, behind LEN and NLEN if `header`. */
    method CopyBlock(buf: seq<byte>, header: bool)
      requires Valid()
      modifies this
      ensures Valid() && biValid == 0
      ensures Bits() == old(Bits()) + Zeros(Pad(|old(Bits())|)) + StoredBits(buf, header)
    {
      Windup();
      ghost var lead := BytesBits(out);
      if header {
        PutLengths(|buf| % 65536);
        PutBytes(buf);
        ConcatAssoc(lead, LengthBits(|buf| % 65536), BytesBits(buf));
      } else {
        PutBytes(buf);
      }
      ConcatEmpty(BytesBits(out), biBuf);
    }
  }

  /** LEN and NLEN of a stored block (section 3.2.4 of RFC 1951). */
  ghost function LengthBits(n: nat): (s: seq<bool>)
    requires n < 65536
    ensures |s| == 32
  {
    BitsOf(n, 16) + BitsOf(65535 - n, 16)
  }

  /** What copy_block puts after the padding. */
  ghost function StoredBits(buf: seq<byte>, header: bool): seq<bool> {
    if header then LengthBits(|buf| % 65536) + BytesBits(buf) else BytesBits(buf)
  }

  lemma JoinBound(a: nat, m: nat, b: nat, n: nat)
    requires a < Pow2(m) && b < Pow2(n)
    ensures a + b * Pow2(m) < Pow2(m + n)
  {
    Pow2Add(m, n);
    MulMono(b + 1, Pow2(n), Pow2(m));
    assert (b + 1) * Pow2(m) == b * Pow2(m) + Pow2(m);
  }

  /** The bits of value that did not fit in bi_buf. */
  lemma SentBeyond(value: nat, length: nat, keep: nat)
    requires length <= 16 && value < Pow2(length) && keep < length
    ensures value < 65536 && Shr(value, keep) < Pow2(length - keep)
    ensures BitsOf(value, length) == BitsOf(value, keep) + BitsOf(Shr(value, keep), length - keep)
  {
    Pow2Values();
    Pow2Mono(length, 16);
    BitsOfShr(value, keep, length - keep);
    ShrBound(value, keep, length - keep);
  }

  lemma {:induction false} ShrBound(v: nat, m: nat, n: nat)
    requires v < Pow2(m + n)
    ensures Shr(v, m) < Pow2(n)
  {
    if m == 0 {
    } else {
      assert Pow2(m + n) == 2 * Pow2(m - 1 + n);
      ShrBound(v / 2, m - 1, n);
    }
  }

  lemma PadBuffer(buf: nat, valid: nat, pad: nat)
    requires buf < Pow2(valid)
    ensures BitsOf(buf, valid + pad) == BitsOf(buf, valid) + Zeros(pad)
  {
    BitsOfJoin(buf, valid, 0, pad);
    BitsOfZero(pad);
  }

  class BitReader {
    var input: seq<byte>   // the compressed file; get_byte() aborts at its end
    var inptr: nat
    var bb: nat
    var bk: nat

    /** Number of bits of the file consumed so far. */
    ghost function Pos(): int
      reads this
    {
      8 * inptr - bk
    }

    /** bb holds exactly the bk bits of the file that were read but not consumed. */
    ghost predicate Valid()
      reads this
    {
      && inptr <= |input|
      && bk <= 8 * inptr
      && bk <= 23
      && bb < Pow2(bk)
      && BitsOf(bb, bk) == BytesBits(input)[Pos()..8 * inptr]
    }

    /** The bits still to be consumed. */
    ghost function Rest(): (s: seq<bool>)
      requires Valid()
      reads this
      ensures |s| == 8 * |input| - Pos()
    {
      BytesBits(input)[Pos()..]
    }

    /** The file is read from byte `start` on. */
    constructor (file: seq<byte>, start: nat)
      requires start <= |file|
      ensures Valid() && input == file && inptr == start && bk == 0
    {
      input, inptr, bb, bk := file, start, 0, 0;
      new;
      assert BitsOf(bb, bk) == BytesBits(input)[Pos()..8 * inptr];
    }

    /** NEEDBITS(n): false when the file ends before n bits are there. */
    method NeedBits(n: nat) returns (ok: bool)
      requires Valid() && n <= 16
      modifies this`inptr, this`bb, this`bk
      ensures Valid() && Pos() == old(Pos()) && Rest() == old(Rest())
      ensures ok == (|Rest()| >= n)
      ensures ok ==> bk >= n
    {
      hide BitsOf, BytesBits, Or, Shl, Pow2;
      while bk < n
        invariant Valid() && Pos() == old(Pos())
      {
        if inptr == |input| { return false; }
        LoadByte(input, inptr, bb, bk);
        bb := Or(bb, Shl(input[inptr], bk));
        bk := bk + 8;
        inptr := inptr + 1;
      }
      ok := true;
    }

    /** DUMPBITS(n) */
    method DumpBits(n: nat)
      requires Valid() && n <= bk
      modifies this`bb, this`bk
      ensures Valid() && Pos() == old(Pos()) + n && Rest() == old(Rest())[n..]
      ensures bk == old(bk) - n
    {
      BitsOfShr(bb, n, bk - n);
      ShrBound(bb, n, bk - n);
      bb := Shr(bb, n);
      bk := bk - n;
      assert BitsOf(bb, bk) == old(BitsOf(bb, bk))[n..];
    }

    /** b & mask_bits[n] */
    method Peek(n: nat) returns (v: nat)
      requires Valid() && n <= bk
      ensures v == ValOf(Rest()[..n]) && v < Pow2(n)
    {
      hide BitsOf, BytesBits, ValOf, And, Pow2;
      LowBits(bb, bk, n);
      SliceFront(BytesBits(input), Pos(), 8 * inptr, n);
      v := And(bb, Mask(n));
    }

    /** The idiom of inflate.c: ask for bits, mask them out, and drop them. */
    method GetBits(n: nat) returns (ok: bool, v: nat)
      requires Valid() && n <= 16
      modifies this`inptr, this`bb, this`bk
      ensures Valid()
      ensures ok == (|old(Rest())| >= n)
      ensures ok ==> v == ValOf(old(Rest())[..n]) && v < Pow2(n)
                     && Rest() == old(Rest())[n..] && Pos() == old(Pos()) + n
    {
      ok := NeedBits(n);
      v := 0;
      if ok {
        v := Peek(n);
        DumpBits(n);
      }
    }

    /** The end of inflate(): whole bytes of lookahead go back to the input. */
    method ReturnLookahead()
      requires Valid()
      modifies this`inptr, this`bk
      ensures inptr == (old(Pos()) + 7) / 8 && bk == 8 * inptr - old(Pos())
    {
      while bk >= 8
        invariant bk <= 8 * inptr && 8 * inptr - bk == old(Pos())
      {
        bk := bk - 8;
        inptr := inptr - 1;
      }
    }
  }
}
