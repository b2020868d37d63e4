/** zip and unzip (zip.c:26-88, unzip.c:30-77): a whole member of a gzip file, and the round trip. */
module GzipFile {
  import opened Bitstring
  import opened BitIO
  import opened Codes
  import opened Rfc1951
  import opened Huft
  import opened OutputWindow
  import opened InflateCodes
  import opened Inflate
  import opened TallyBuffers
  import opened BlockTrees
  import opened FlushBlock
  import opened Stream
  import opened HashChains
  import opened DeflateSteps
  import opened DeflateFast
  import opened Crc
  import opened GzipHeader

  // ---- the reference decoder at other places of a file ----

  lemma {:induction false} StreamShift(out: seq<byte>, bits: seq<bool>, pos: nat, k: nat)
    ensures RefStream(out, bits, pos + 8 * k) == RefStream(out, bits, pos)
    decreases |bits|
  {
    hide RefDynamic, RefStored, RefCodes, ValOf;
    if |bits| >= 3 {
      assert (pos + 8 * k + 3) % 8 == (pos + 3) % 8;
      var kind := ValOf(bits[1..3]);
      assert RefBody(kind, out, bits[3..], pos + 8 * k + 3) == RefBody(kind, out, bits[3..], pos + 3);
      var body := RefBody(kind, out, bits[3..], pos + 3);
      if body.Done? && !bits[0] {
        StreamShift(body.out, body.rest, pos + |bits| - |body.rest|, k);
      }
    }
  }

  lemma BytesSkip(a: seq<byte>, b: seq<byte>)
    ensures BytesBits(a + b)[8 * |a|..] == BytesBits(b)
  {
    BytesBitsJoin(a, b);
    BytesLen(a);
  }

  lemma {:induction false} BytesLen(a: seq<byte>)
    ensures |BytesBits(a)| == 8 * |a|
  {
    if |a| == 0 {
    } else {
      BytesLen(a[1..]);
    }
  }

  /** A stream between other bytes is decoded, and the bytes behind it are left. */
  lemma StreamInFile(head: seq<byte>, body: seq<byte>, tail: seq<byte>, data: seq<byte>)
    requires FileFor(body, data)
    ensures exists pad: nat ::
              pad < 8 && RefFile(head + (body + tail), |head|) == Done(data, Zeros(pad) + BytesBits(tail))
  {
    hide RefStream, StreamIs;
    var bits, pad :| IsPadded(body, data, bits, pad);
    BytesSkip(head, body + tail);
    BytesBitsJoin(body, tail);
    var rest := Zeros(pad) + BytesBits(tail);
    ConcatAssoc(bits, Zeros(pad), BytesBits(tail));
    StreamAt(bits, data, rest);
    StreamShift([], bits + rest, 0, |head|);
  }

  lemma StreamAt(bits: seq<bool>, data: seq<byte>, rest: seq<bool>)
    requires StreamIs(bits, data)
    ensures RefStream([], bits + rest, 0) == Done(data, rest)
  {
    assert Ends(bits, data, rest);
  }

  // ---- the check value ----

  /** The result of updcrc: the complement of the register. */
  ghost function CrcOf(s: seq<byte>): nat {
    (Register(INIT_CRC, s) ^ 0xffffffff) as nat
  }

  lemma CrcBound(s: seq<byte>)
    ensures CrcOf(s) < TWO32
  {
  }

  /** updcrc over all bytes; by RegisterJoin it does not matter in which pieces they come. */
  method CheckValue(s: seq<byte>) returns (v: nat)
    ensures v == CrcOf(s)
  {
    hide Register;
    var c := UpdateCrc(INIT_CRC, s);
    v := (c ^ 0xffffffff) as nat;
  }

  // ---- zip ----

  /** The header that zip writes: the level in the extra flags, UNIX, and the name if it is saved. */
  function ZipHead(level: nat, timeStamp: nat, name: Option<seq<byte>>): Header {
    var extra := if level == 1 then 4 else if level == 9 then 2 else 0;
    Header(false, false, 0, timeStamp % TWO32, extra, 3, Fields(None, None, name, None))
  }

  lemma LongSame(n: nat)
    ensures Long4(n % TWO32) == Long4(n)
  {
    LongBack(n);
    LongForth(Long4(n));
  }

  /** Memory as it is found: the arrays of trees.c and deflate.c before they are written. */
  datatype Memory = Memory(trees: Trees, buffers: Buffers, window: seq<byte>, prev: seq<nat>, matchStart: int)

  ghost predicate MemoryOk(M: Memory) {
    && Sized(M.trees) && |M.buffers.lBuf| == LIT_BUFSIZE && |M.buffers.dBuf| == DIST_BUFSIZE
    && |M.buffers.flagBuf| == LIT_BUFSIZE / 8
    && |M.window| == MEMORY && |M.prev| == WSIZE
  }

  /** The header is put out byte by byte (zip.c:39-65). */
  method PutHeader(level: nat, timeStamp: nat, name: Option<seq<byte>>) returns (header: seq<byte>)
    ensures header == HeadBytes(ZipHead(level, timeStamp, name))
  {
    hide Long4;
    var flags := if name.Some? then 0x08 else 0;
    var deflateFlags := if level == 1 then 4 else if level == 9 then 2 else 0;
    header := [0x1f, 0x8b, 8, flags] + Long4(timeStamp) + [deflateFlags, 0x03];
    if name.Some? {
      header := header + name.value + [0];
    }
    LongSame(timeStamp);
  }

  /** zip(): header, stream, check value and length; `start` is where the stream begins. */
  method Zip(data: seq<byte>, level: nat, timeStamp: nat, name: Option<seq<byte>>, M: Memory)
    returns (file: seq<byte>, start: nat)
    requires 1 <= level <= 9 && MemoryOk(M)
    ensures start <= |file| && file[..start] == HeadBytes(ZipHead(level, timeStamp, name))
    ensures exists body :: file == file[..start] + (body + (Long4(CrcOf(data)) + Long4(|data|))) && FileFor(body, data)
  {
    hide FileFor, CrcOf, Long4, HeadBytes;
    var w := new BitWriter();
    var e := new Encoder(w, M.trees, M.buffers);
    var header := PutHeader(level, timeStamp, name);
    var len := Compress(e, level, data, M.window, M.prev, M.matchStart);
    var crc := CheckValue(data);
    var tail := Long4(crc) + Long4(|data|);
    file, start := header + (w.out + tail), |header|;
    assert file[..start] == header;
  }

  // ---- unzip ----

  datatype Result = Good(out: seq<byte>) | FormatError(code: nat) | UnexpectedEnd | NullTable | CrcError | LengthError

  /** The check value and the length at byte `p` of the file are those of `out`. */
  ghost predicate Checks(file: seq<byte>, p: nat, out: seq<byte>) {
    p + 8 <= |file| && LongOf(file[p..p + 4]) == CrcOf(out) && LongOf(file[p + 4..p + 8]) == |out| % TWO32
  }

  /** What a result of unzip says about the stream, `ref` being the outcome of the reference decoder. */
  ghost predicate Unzips(ref: Outcome, file: seq<byte>, r: Result) {
    match r
    case Good(out) => ref.Undefined? ||
      (ref.Done? && out == ref.out && Ended(ref, file) && Checks(file, |file| - |ref.rest| / 8, out))
    case FormatError(code) => ref == Bad(code) || ref.Undefined?
    case UnexpectedEnd => !(ref.Done? && Ended(ref, file))
    case NullTable => ref.Undefined?
    case _ => ref.Undefined? || (ref.Done? && Ended(ref, file) && !Checks(file, |file| - |ref.rest| / 8, ref.out))
  }

  /** Eight more bytes follow the stream. */
  ghost predicate Ended(ref: Outcome, file: seq<byte>)
    requires ref.Done?
  {
    64 <= |ref.rest| && |ref.rest| / 8 <= |file|
  }

  lemma StoppedMeans(ref: Outcome, file: seq<byte>, st: Status)
    requires st != Ok && Stops(ref, st)
    ensures Unzips(ref, file,
                   match st case Error(code) => FormatError(code) case Eof => UnexpectedEnd case _ => NullTable)
  {
    hide Checks;
  }

  lemma OkMeans(ref: Outcome, file: seq<byte>, out: seq<byte>, p: nat, r: Result)
    requires ref.Undefined? || (ref.Done? && out == ref.out && p == |file| - |ref.rest| / 8)
    requires r == (if p + 8 > |file| then UnexpectedEnd else if Checks(file, p, out) then Good(out)
                   else if LongOf(file[p..p + 4]) != CrcOf(out) then CrcError else LengthError)
    ensures Unzips(ref, file, r)
  {
    hide CrcOf, LongOf;
  }

  /** inflate() on a fresh window. */
  method InflateFile(file: seq<byte>, start: nat, slide: array<byte>) returns (st: Status, out: seq<byte>, p: nat)
    requires start <= |file| && slide.Length == WSIZE
    modifies slide
    ensures st == Ok ==>
              var ref := RefFile(file, start);
              start < p <= |file| && (ref.Undefined? || (ref.Done? && out == ref.out && p == |file| - |ref.rest| / 8))
    ensures st != Ok ==> Stops(RefFile(file, start), st)
  {
    hide RefFile, Stops, BytesBits, BitsOf;
    var rd := new BitReader(file, start);
    var win := new Window(slide);
    st := InflateAll(rd, win);
    out, p := win.out, rd.inptr;
  }

  /** unzip() of the stream that begins at byte `start` of the file. */
  method Unzip(file: seq<byte>, start: nat, slide: array<byte>) returns (r: Result, end: nat)
    requires start <= |file| && slide.Length == WSIZE
    modifies slide
    ensures Unzips(RefFile(file, start), file, r)
    ensures r.Good? ==> start < end <= |file|
    ensures r.Good? && RefFile(file, start).Done? ==> end == |file| - |RefFile(file, start).rest| / 8 + 8
  {
    hide RefFile, CrcOf, LongOf, Unzips, Stops;
    var st, out, p := InflateFile(file, start, slide);
    if st != Ok {
      StoppedMeans(RefFile(file, start), file, st);
      return match st case Error(code) => FormatError(code) case Eof => UnexpectedEnd case _ => NullTable, 0;
    }
    r, end := CheckTail(file, p, out);
    OkMeans(RefFile(file, start), file, out, p, r);
  }

  /** unzip.c:58-76 */
  method CheckTail(file: seq<byte>, p: nat, out: seq<byte>) returns (r: Result, end: nat)
    ensures end == p + 8
    ensures r == (if p + 8 > |file| then UnexpectedEnd else if Checks(file, p, out) then Good(out)
                  else if LongOf(file[p..p + 4]) != CrcOf(out) then CrcError else LengthError)
  {
    hide CrcOf, LongOf;
    end := p + 8;
    if end > |file| { return UnexpectedEnd, end; }
    var crc := CheckValue(out);
    if LongOf(file[p..p + 4]) != crc { return CrcError, end; }
    if LongOf(file[p + 4..p + 8]) != |out| % TWO32 { return LengthError, end; }
    return Good(out), end;
  }

  // ---- the round trip ----

  lemma TailChecks(head: seq<byte>, body: seq<byte>, data: seq<byte>, file: seq<byte>, rest: seq<bool>, pad: nat)
    requires file == head + (body + (Long4(CrcOf(data)) + Long4(|data|))) && pad < 8
    requires rest == Zeros(pad) + BytesBits(Long4(CrcOf(data)) + Long4(|data|))
    ensures 64 <= |rest| && |rest| / 8 <= |file| && Checks(file, |file| - |rest| / 8, data)
  {
    hide CrcOf, Long4, LongOf;
    var a, b := Long4(CrcOf(data)), Long4(|data|);
    BytesLen(a + b);
    var p := |file| - |rest| / 8;
    assert p == |head| + |body|;
    assert file[p..p + 4] == a && file[p + 4..p + 8] == b;
    LongBack(CrcOf(data));
    LongBack(|data|);
    CrcBound(data);
    ModSmall(CrcOf(data), TWO32);
  }

  /** Whatever unzip says of a file that zip wrote, it is the data. */
  lemma UnzipsBack(head: seq<byte>, body: seq<byte>, data: seq<byte>, file: seq<byte>, r: Result)
    requires FileFor(body, data) && file == head + (body + (Long4(CrcOf(data)) + Long4(|data|))) &&
             Unzips(RefFile(file, |head|), file, r)
    ensures r == Good(data)
  {
    hide CrcOf, Long4, LongOf, FileFor, RefFile, Checks;
    var tail := Long4(CrcOf(data)) + Long4(|data|);
    StreamInFile(head, body, tail, data);
    var pad: nat :| pad < 8 && RefFile(head + (body + tail), |head|) == Done(data, Zeros(pad) + BytesBits(tail));
    TailChecks(head, body, data, file, Zeros(pad) + BytesBits(tail), pad);
  }

  /** Every file comes back: for all data, levels, names, time stamps and memory contents. */
  method RoundTrip(data: seq<byte>, level: nat, timeStamp: nat, name: Option<seq<byte>>, M: Memory,
                   slide: array<byte>) returns (r: Result)
    requires 1 <= level <= 9 && MemoryOk(M) && slide.Length == WSIZE
    modifies slide
    ensures r == Good(data)
  {
    hide CrcOf, Long4, FileFor, Unzips, RefFile, MemoryOk;
    var file, start := Zip(data, level, timeStamp, name, M);
    ghost var end;
    r, end := Unzip(file, start, slide);
    ghost var body :| file == file[..start] + (body + (Long4(CrcOf(data)) + Long4(|data|))) && FileFor(body, data);
    UnzipsBack(file[..start], body, data, file, r);
  }
}
