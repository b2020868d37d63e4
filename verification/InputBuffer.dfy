/** The input buffer: get_byte and fill_inbuf (gzip.h:186-187, util.c:83-104). */
module InputBuffer {
  import opened Bitstring

  const INBUFSIZ := 0x8000

  /** A byte was got, and the buffer is empty: the position is at the end of a buffer or of the file. */
  predicate BufferEmpty(file: seq<byte>, p: nat) {
    p % INBUFSIZ == 0 || p == |file|
  }

  /** The bytes that are read into one buffer. */
  function Piece(file: seq<byte>, p: nat): seq<byte>
    requires p <= |file|
  {
    if p + INBUFSIZ <= |file| then file[p..p + INBUFSIZ] else file[p..]
  }

  class Input {
    const file: seq<byte>
    var inbuf: seq<byte>       // insize is its length
    var inptr: nat
    var base: nat              // where the buffer lies in the file

    ghost function Pos(): nat
      reads this
    {
      base + inptr
    }

    ghost predicate Valid()
      reads this
    {
      && inptr <= |inbuf| && base <= |file|
      && (if inbuf == [] then base == 0 else base % INBUFSIZ == 0 && inbuf == Piece(file, base))
    }

    /** clear_bufs */
    constructor (f: seq<byte>)
      ensures Valid() && file == f && Pos() == 0
    {
      file, inbuf, inptr, base := f, [], 0, 0;
    }

    /** fill_inbuf, however many bytes every read brings: the next piece, or nothing at the end of the file. */
    method FillInbuf() returns (ok: bool, b: byte)
      requires Valid() && inptr == |inbuf|
      modifies this
      ensures Valid() && ok == (old(Pos()) < |file|)
      ensures ok ==> b == file[old(Pos())] && Pos() == old(Pos()) + 1 && inptr == 1 <= |inbuf|
      ensures !ok ==> Pos() == old(Pos())
    {
      var at := base + |inbuf|;
      var got := [];
      while |got| < INBUFSIZ
        invariant |got| <= INBUFSIZ && at + |got| <= |file| && got == file[at..at + |got|]
        modifies {}
      {
        var left := |file| - (at + |got|);
        if left == 0 { break; }
        var len := ReadSome(left, INBUFSIZ - |got|);
        got := got + file[at + |got|..at + |got| + len];
      }
      if |got| == 0 { return false, 0; }
      assert at % INBUFSIZ == 0;
      inbuf, inptr, base := got, 1, at;
      return true, inbuf[0];
    }

    /** read(): at least one byte when there are some, and no more than there is room for. */
    static method ReadSome(left: nat, room: nat) returns (len: nat)
      requires left > 0 && room > 0
      ensures 1 <= len <= left && len <= room
    {
      len :| 1 <= len <= left && len <= room;
    }

    /** get_byte: the bytes of the file one after the other; and inptr meets insize at these places and no others. */
    method GetByte() returns (ok: bool, b: byte)
      requires Valid()
      modifies this
      ensures Valid() && ok == (old(Pos()) < |file|)
      ensures ok ==> b == file[old(Pos())] && Pos() == old(Pos()) + 1
      ensures ok ==> (inptr == |inbuf| <==> BufferEmpty(file, Pos()))
    {
      if inptr < |inbuf| {
        ok, b := true, inbuf[inptr];
        inptr := inptr + 1;
      } else {
        ok, b := FillInbuf();
      }
    }
  }
}
