/** Files of several members: the loop of treat_file (gzip.c:544-555) around get_method and unzip. */
module Members {
  import opened Bitstring
  import opened BitIO
  import opened Codes
  import opened Rfc1951
  import opened OutputWindow
  import opened Inflate
  import opened BlockMeaning
  import opened Stream
  import opened DeflateSteps
  import opened InputBuffer
  import opened GzipHeader
  import opened GzipFile

  // ---- a member in the middle of a file ----

  /** A header, a stream for the data, the check value and the length. */
  ghost predicate IsMember(f: seq<byte>, h: Header, data: seq<byte>) {
    HeadOk(h) && exists body :: IsBody(f, h, data, body)
  }

  ghost predicate IsBody(f: seq<byte>, h: Header, data: seq<byte>, body: seq<byte>) {
    h.reserved < 4 && f == HeadBytes(h) + (body + (Long4(CrcOf(data)) + Long4(|data|))) && FileFor(body, data)
  }

  lemma TailInside(head: seq<byte>, body: seq<byte>, data: seq<byte>, more: seq<byte>, file: seq<byte>,
                   rest: seq<bool>, pad: nat)
    requires file == head + (body + (Long4(CrcOf(data)) + Long4(|data|) + more)) && pad < 8
    requires rest == Zeros(pad) + BytesBits(Long4(CrcOf(data)) + Long4(|data|) + more)
    ensures 64 <= |rest| && |file| - |rest| / 8 == |head| + |body| && Checks(file, |head| + |body|, data)
  {
    hide CrcOf, Long4, LongOf;
    var a, b := Long4(CrcOf(data)), Long4(|data|);
    BytesLen(a + b + more);
    var p := |head| + |body|;
    assert file[p..p + 4] == a && file[p + 4..p + 8] == b;
    LongBack(CrcOf(data));
    LongBack(|data|);
    CrcBound(data);
    ModSmall(CrcOf(data), TWO32);
  }

  /** What unzip makes of a member, whatever comes before and behind it. */
  lemma UnzipsMember(pre: seq<byte>, f: seq<byte>, more: seq<byte>, h: Header, data: seq<byte>, file: seq<byte>,
                     r: Result, end: nat)
    requires IsMember(f, h, data) && file == pre + (f + more)
    requires var start := |pre| + |HeadBytes(h)|;
             && start <= |file| && Unzips(RefFile(file, start), file, r)
             && (r.Good? && RefFile(file, start).Done? ==> end == |file| - |RefFile(file, start).rest| / 8 + 8)
    ensures r == Good(data) && end == |pre| + |f|
  {
    hide CrcOf, Long4, LongOf, FileFor, RefFile, Checks, HeadBytes;
    var body :| IsBody(f, h, data, body);
    var head, tail := pre + HeadBytes(h), Long4(CrcOf(data)) + Long4(|data|) + more;
    assert file == head + (body + tail);
    StreamInFile(head, body, tail, data);
    var pad: nat :| pad < 8 && RefFile(head + (body + tail), |head|) == Done(data, Zeros(pad) + BytesBits(tail));
    TailInside(head, body, data, more, file, Zeros(pad) + BytesBits(tail), pad);
  }

  // ---- lists of members ----

  datatype Member = Member(bytes: seq<byte>, head: Header, data: seq<byte>)

  ghost function BytesOf(ms: seq<Member>): seq<byte> {
    if |ms| == 0 then [] else BytesOf(ms[..|ms| - 1]) + ms[|ms| - 1].bytes
  }

  ghost function DataOf(ms: seq<Member>): seq<byte> {
    if |ms| == 0 then [] else DataOf(ms[..|ms| - 1]) + ms[|ms| - 1].data
  }

  /** Every member is one, and get_method accepts its header. */
  ghost predicate AllMembers(ms: seq<Member>, o: Options) {
    forall i :: 0 <= i < |ms| ==> IsMember(ms[i].bytes, ms[i].head, ms[i].data) &&
                                  Accepted(o, i + 1, ms[i].head, 0).Deflated?
  }

  /** What follows the last member: nothing, or something that is not the start of a member. */
  ghost predicate Junk(junk: seq<byte>, o: Options) {
    junk == [] || (|junk| >= 2 && !Magic(junk) && !(o.force > 0 && o.toStdout))
  }

  lemma BytesNext(ms: seq<Member>, k: nat)
    requires k < |ms|
    ensures BytesOf(ms[..k + 1]) == BytesOf(ms[..k]) + ms[k].bytes &&
            DataOf(ms[..k + 1]) == DataOf(ms[..k]) + ms[k].data
  {
    assert ms[..k + 1][..k] == ms[..k];
  }

  lemma {:induction false} BytesJoin(a: seq<Member>, b: seq<Member>)
    ensures BytesOf(a + b) == BytesOf(a) + BytesOf(b)
  {
    if |b| == 0 {
      assert a + b == a;
    } else {
      BytesJoin(a, b[..|b| - 1]);
      assert (a + b)[..|a + b| - 1] == a + b[..|b| - 1];
    }
  }

  /** The file is the members, one behind the other, and what follows them. */
  ghost predicate FileOf(file: seq<byte>, ms: seq<Member>, junk: seq<byte>, o: Options) {
    |ms| > 0 && AllMembers(ms, o) && Junk(junk, o) && file == BytesOf(ms) + junk
  }

  lemma Around(file: seq<byte>, ms: seq<Member>, junk: seq<byte>, o: Options, k: nat)
    requires FileOf(file, ms, junk, o) && k < |ms|
    ensures file == BytesOf(ms[..k]) + (ms[k].bytes + (BytesOf(ms[k + 1..]) + junk))
    ensures IsMember(ms[k].bytes, ms[k].head, ms[k].data) && Accepted(o, k + 1, ms[k].head, 0).Deflated?
    ensures BytesOf(ms[..k + 1]) == BytesOf(ms[..k]) + ms[k].bytes &&
            DataOf(ms[..k + 1]) == DataOf(ms[..k]) + ms[k].data
  {
    hide IsMember, Accepted;
    BytesNext(ms, k);
    BytesJoin(ms[..k + 1], ms[k + 1..]);
    assert ms[..k + 1] + ms[k + 1..] == ms;
  }

  lemma MemberStarts(pre: seq<byte>, f: seq<byte>, more: seq<byte>, h: Header, data: seq<byte>, file: seq<byte>)
    requires IsMember(f, h, data) && file == pre + (f + more)
    ensures h.reserved < 4 && |HeadBytes(h)| <= |f| && HeadAt(file[|pre|..], h, f[|HeadBytes(h)|..] + more) && |f| >= 18
  {
    hide CrcOf, Long4, FileFor, FlagByte, FieldBytes;
    var body :| IsBody(f, h, data, body);
  }

  /** get_method at the start of a member. */
  lemma MethodAt(file: seq<byte>, ms: seq<Member>, junk: seq<byte>, o: Options, k: nat, m: Method)
    requires FileOf(file, ms, junk, o) && k < |ms|
    requires |BytesOf(ms[..k])| <= |file| &&
             forall h, rest :: HeadAt(file[|BytesOf(ms[..k])|..], h, rest) ==>
                                 m == Accepted(o, k + 1, h, |file| - |rest|)
    ensures ms[k].head.reserved < 4 && m.Deflated? && m.end == |BytesOf(ms[..k])| + |HeadBytes(ms[k].head)|
  {
    hide BytesOf, IsMember, HeadAt, HeadBytes;
    var pre, f, h, more := BytesOf(ms[..k]), ms[k].bytes, ms[k].head, BytesOf(ms[k + 1..]) + junk;
    Around(file, ms, junk, o, k);
    MemberStarts(pre, f, more, h, ms[k].data, file);
  }

  datatype Ending = Finished | Trailing | Broken(result: Result) | Refused(why: Method)

  /** The first `k` members were taken: the first that ends where a buffer ends is the last of them. */
  ghost predicate Taken(ms: seq<Member>, k: nat) {
    && 1 <= k <= |ms| && (k == |ms| || |BytesOf(ms[..k])| % INBUFSIZ == 0)
    && Inside(ms, k)
  }

  /** None of the members before number `k` ends where a buffer ends. */
  ghost predicate Inside(ms: seq<Member>, k: nat)
    requires k <= |ms|
  {
    forall j :: 1 <= j < k ==> |BytesOf(ms[..j])| % INBUFSIZ != 0
  }

  /** Before member `k`: the ones before it came out, and none of them ended where a buffer ends. */
  ghost predicate Going(file: seq<byte>, ms: seq<Member>, k: nat, out: seq<byte>, p: nat) {
    && k < |ms| && out == DataOf(ms[..k]) && ms[k].head.reserved < 4
    && p == |BytesOf(ms[..k])| + |HeadBytes(ms[k].head)|
    && Inside(ms, k + 1)
  }

  /** Behind a member that ends where a buffer ends there are no data. */
  ghost predicate Whole(ms: seq<Member>) {
    forall j :: 1 <= j < |ms| && |BytesOf(ms[..j])| % INBUFSIZ == 0 ==> DataOf(ms[j..]) == []
  }

  /**
   * The members of a file are decompressed one after the other. Of a file made of members, with or without trailing
   * garbage, the data of the first `k` come out, where member `k` is the last one, or the first that ends at a multiple
   * of the size of the input buffer. All data come out if and only if there are none behind such a member.
   */
  method Gunzip(file: seq<byte>, o: Options, slide: array<byte>, ghost ms: seq<Member>, ghost junk: seq<byte>)
    returns (out: seq<byte>, e: Ending, ghost k: nat)
    requires o.room > 0 && slide.Length == WSIZE
    modifies slide
    ensures FileOf(file, ms, junk, o) ==>
              Taken(ms, k) && out == DataOf(ms[..k]) && (e.Finished? || (e.Trailing? && k == |ms| && junk != []))
    ensures FileOf(file, ms, junk, o) ==> (out == DataOf(ms) <==> Whole(ms))
  {
    hide FileOf, BytesOf, DataOf, Accepted, HeadAt, HeadBytes, Going, Taken, Inside, BufferEmpty, Magic, Unzips,
         RefFile, Whole;
    out, k := [], 0;
    ghost var ok := FileOf(file, ms, junk, o);
    var m := GetMethod(file, 0, o, 1);
    if ok { FirstMember(file, ms, junk, o, m); }
    if !m.Deflated? { return out, Refused(m), k; }
    var p, part := m.end, 1;
    while true
      invariant p <= |file| && part >= 1
      invariant ok ==> part == k + 1 && Going(file, ms, k, out, p)
      decreases |file| - p
    {
      var r, end := Unzip(file, p, slide);
      if ok {
        GoingOn(file, ms, k, out, p);
        MemberOut(file, ms, junk, o, k, out, p, r, end);
      }
      if !r.Good? { return out, Broken(r), k; }
      out := out + r.out;
      if BufferEmpty(file, end) {
        if ok { AllOut(ms, k + 1); }
        return out, Finished, k + 1;
      }
      part := part + 1;
      m := GetMethod(file, end, o, part);
      if ok { NextMember(file, ms, junk, o, k, out, end, m); }
      k := k + 1;
      if !m.Deflated? {
        if ok { AllOut(ms, k); }
        return out, if m.Garbage? then Trailing else Refused(m), k;
      }
      p := m.end;
    }
  }

  lemma {:induction false} DataJoin(a: seq<Member>, b: seq<Member>)
    ensures DataOf(a + b) == DataOf(a) + DataOf(b)
  {
    if |b| == 0 {
      assert a + b == a;
    } else {
      DataJoin(a, b[..|b| - 1]);
      assert (a + b)[..|a + b| - 1] == a + b[..|b| - 1];
    }
  }

  lemma DataSplit(ms: seq<Member>, k: nat)
    requires k <= |ms|
    ensures DataOf(ms) == DataOf(ms[..k]) + DataOf(ms[k..])
  {
    assert ms == ms[..k] + ms[k..];
    DataJoin(ms[..k], ms[k..]);
  }

  lemma AllOut(ms: seq<Member>, k: nat)
    requires Taken(ms, k)
    ensures DataOf(ms[..k]) == DataOf(ms) <==> Whole(ms)
  {
    hide DataOf, BytesOf;
    DataSplit(ms, k);
    if k == |ms| {
      assert ms[..k] == ms;
    } else if DataOf(ms[k..]) == [] {
      forall j | 1 <= j < |ms| && |BytesOf(ms[..j])| % INBUFSIZ == 0
        ensures DataOf(ms[j..]) == []
      {
        assert k <= j;
        DataSplit(ms[k..], j - k);
        assert ms[k..][j - k..] == ms[j..];
      }
    }
  }

  lemma GoingOn(file: seq<byte>, ms: seq<Member>, k: nat, out: seq<byte>, p: nat)
    requires Going(file, ms, k, out, p)
    ensures k < |ms|
  {
  }

  lemma FirstMember(file: seq<byte>, ms: seq<Member>, junk: seq<byte>, o: Options, m: Method)
    requires FileOf(file, ms, junk, o)
    requires forall h, rest :: HeadAt(file[0..], h, rest) ==> m == Accepted(o, 1, h, |file| - |rest|)
    ensures m.Deflated? && Going(file, ms, 0, [], m.end)
  {
    hide FileOf, HeadAt, Accepted, HeadBytes;
    assert BytesOf(ms[..0]) == [] && DataOf(ms[..0]) == [];
    FileSome(file, ms, junk, o);
    MethodAt(file, ms, junk, o, 0, m);
  }

  lemma FileSome(file: seq<byte>, ms: seq<Member>, junk: seq<byte>, o: Options)
    requires FileOf(file, ms, junk, o)
    ensures |ms| > 0
  {
  }

  lemma MemberOut(file: seq<byte>, ms: seq<Member>, junk: seq<byte>, o: Options, k: nat, out: seq<byte>, p: nat,
                  r: Result, end: nat)
    requires FileOf(file, ms, junk, o) && Going(file, ms, k, out, p) && p <= |file|
    requires Unzips(RefFile(file, p), file, r)
    requires r.Good? && RefFile(file, p).Done? ==> end == |file| - |RefFile(file, p).rest| / 8 + 8
    ensures r == Good(ms[k].data) && end == |BytesOf(ms[..k + 1])| <= |file| && out + ms[k].data == DataOf(ms[..k + 1])
    ensures BufferEmpty(file, end) ==> Taken(ms, k + 1)
    ensures !BufferEmpty(file, end) ==> end < |file| && (k + 1 == |ms| || Inside(ms, k + 2)) && Inside(ms, k + 1)
  {
    hide FileOf, BytesOf, DataOf, IsMember, Unzips, RefFile, HeadBytes, Accepted;
    Around(file, ms, junk, o, k);
    var pre, f, h, more := BytesOf(ms[..k]), ms[k].bytes, ms[k].head, BytesOf(ms[k + 1..]) + junk;
    UnzipsMember(pre, f, more, h, ms[k].data, file, r, end);
    if end == |file| { AtEnd(file, ms, junk, o, k); }
  }

  /** Only the last member ends where the file does. */
  lemma AtEnd(file: seq<byte>, ms: seq<Member>, junk: seq<byte>, o: Options, k: nat)
    requires FileOf(file, ms, junk, o) && k < |ms| && |BytesOf(ms[..k + 1])| == |file|
    ensures k + 1 == |ms| && junk == []
  {
    hide FileOf, BytesOf, IsMember, HeadBytes, Accepted;
    Around(file, ms, junk, o, k);
    if k + 1 < |ms| {
      Around(file, ms, junk, o, k + 1);
      MemberStarts(BytesOf(ms[..k + 1]), ms[k + 1].bytes, BytesOf(ms[k + 2..]) + junk, ms[k + 1].head, ms[k + 1].data,
                   file);
      assert false;
    }
  }

  /** Behind member `k`: the next one, or what follows the last. */
  lemma NextMember(file: seq<byte>, ms: seq<Member>, junk: seq<byte>, o: Options, k: nat, out: seq<byte>, end: nat,
                   m: Method)
    requires FileOf(file, ms, junk, o) && k < |ms| && end == |BytesOf(ms[..k + 1])| < |file|
    requires out == DataOf(ms[..k + 1]) && (k + 1 == |ms| || Inside(ms, k + 2)) && Inside(ms, k + 1)
    requires forall h, rest :: HeadAt(file[end..], h, rest) ==> m == Accepted(o, k + 2, h, |file| - |rest|)
    requires m.Copied? || m.NotGzip? || m.Garbage? <==>
             !Magic(file[end..]) && (end + 2 <= |file| || (o.force > 0 && o.toStdout))
    requires (m.Copied? ==> o.force > 0 && o.toStdout) && !m.NotGzip?
    ensures k + 1 < |ms| ==> m.Deflated? && Going(file, ms, k + 1, out, m.end)
    ensures k + 1 == |ms| ==> m.Garbage? && junk != [] && Taken(ms, k + 1)
  {
    hide BytesOf, Inside, IsMember, HeadBytes, Accepted, HeadAt;
    if k + 1 < |ms| {
      MethodAt(file, ms, junk, o, k + 1, m);
    } else {
      assert ms[..k + 1] == ms;
      assert file[end..] == junk;
    }
  }

  // ---- zip, several times, and back ----

  datatype Input = Input(data: seq<byte>, level: nat, timeStamp: nat, name: Option<seq<byte>>)

  /** A level, and a name without a zero that fits where it is taken over. */
  predicate InputOk(x: Input, o: Options) {
    1 <= x.level <= 9 && (x.name.Some? ==> 0 !in x.name.value && (Kept(o, 1) ==> |x.name.value| < o.room))
  }

  lemma ZipMember(file: seq<byte>, start: nat, x: Input, o: Options, part: nat)
    requires InputOk(x, o) && start <= |file| && part >= 1
    requires file[..start] == HeadBytes(ZipHead(x.level, x.timeStamp, x.name))
    requires exists body ::
               file == file[..start] + (body + (Long4(CrcOf(x.data)) + Long4(|x.data|))) && FileFor(body, x.data)
    ensures IsMember(file, ZipHead(x.level, x.timeStamp, x.name), x.data)
    ensures Accepted(o, part, ZipHead(x.level, x.timeStamp, x.name), 0).Deflated?
  {
    hide HeadBytes, CrcOf, Long4, FileFor;
    var body :| file == file[..start] + (body + (Long4(CrcOf(x.data)) + Long4(|x.data|))) && FileFor(body, x.data);
    assert IsBody(file, ZipHead(x.level, x.timeStamp, x.name), x.data, body);
  }

  ghost predicate SameData(xs: seq<Input>, ms: seq<Member>) {
    |xs| == |ms| && forall i :: 0 <= i < |xs| ==> ms[i].data == xs[i].data
  }

  /** The inputs are compressed one by one, and the results put one behind the other. */
  method ZipMany(xs: seq<Input>, o: Options, M: Memory) returns (file: seq<byte>, ghost ms: seq<Member>)
    requires MemoryOk(M) && forall i :: 0 <= i < |xs| ==> InputOk(xs[i], o)
    ensures SameData(xs, ms) && AllMembers(ms, o) && file == BytesOf(ms)
  {
    hide MemoryOk, InputOk, IsMember, Accepted, HeadBytes, CrcOf, Long4, FileFor, ZipHead;
    file, ms := [], [];
    var i := 0;
    while i < |xs|
      invariant 0 <= i <= |xs| && SameData(xs[..i], ms) && AllMembers(ms, o) && file == BytesOf(ms)
    {
      var x := xs[i];
      InputLevel(x, o);
      var f, start := Zip(x.data, x.level, x.timeStamp, x.name, M);
      ZipMember(f, start, x, o, i + 1);
      ghost var was := ms;
      file, ms := file + f, ms + [Member(f, ZipHead(x.level, x.timeStamp, x.name), x.data)];
      assert ms[..|ms| - 1] == was;
      i := i + 1;
    }
  }

  lemma InputLevel(x: Input, o: Options)
    requires InputOk(x, o)
    ensures 1 <= x.level <= 9
  {
  }

  /** Every list of files comes back, unless the file of one of them ends where an input buffer ends. */
  method ManyBack(xs: seq<Input>, o: Options, M: Memory, slide: array<byte>)
    returns (file: seq<byte>, out: seq<byte>, ghost ms: seq<Member>)
    requires |xs| > 0 && MemoryOk(M) && o.room > 0 && slide.Length == WSIZE
    requires forall i :: 0 <= i < |xs| ==> InputOk(xs[i], o)
    modifies slide
    ensures SameData(xs, ms) && file == BytesOf(ms) && (out == DataOf(ms) <==> Whole(ms))
    ensures |xs| == 1 ==> out == xs[0].data
  {
    hide MemoryOk, InputOk, AllMembers, Whole, Taken, BytesOf, DataOf;
    file, ms := ZipMany(xs, o, M);
    var e;
    ghost var k;
    out, e, k := Gunzip(file, o, slide, ms, []);
    if |ms| == 1 {
      OneWhole(ms[0]);
      assert ms == [ms[0]];
    }
  }

  lemma OneWhole(m: Member)
    ensures Whole([m]) && DataOf([m]) == m.data
  {
    assert [m][..0] == [];
  }

  // ---- a member that is lost ----

  ghost function Literals(data: seq<byte>): seq<Token> {
    if |data| == 0 then [] else Literals(data[..|data| - 1]) + [Literal(data[|data| - 1])]
  }

  lemma {:induction false} LiteralsCover(data: seq<byte>, n: nat)
    requires n <= |data|
    ensures Covers(data, 0, n, Literals(data[..n]))
  {
    hide Covers;
    if n == 0 {
      CoverNone(data, 0);
    } else {
      LiteralsCover(data, n - 1);
      CoverLiteral(data, 0, n - 1, Literals(data[..n - 1]));
      assert data[..n][..n - 1] == data[..n - 1];
    }
  }

  /** One stored block, the last, as bytes. */
  function StoredBytes(data: seq<byte>): seq<byte>
    requires |data| <= 65535
  {
    [1] + (Short2(|data|) + (Short2(65535 - |data|) + data))
  }

  lemma StoredBytesBits(data: seq<byte>)
    requires |data| <= 65535
    ensures BytesBits(StoredBytes(data)) == Head(0, true) + (Zeros(5) + StoredBits(data, true))
  {
    hide BytesBits, BitsOf;
    var n := |data|;
    BytesBitsJoin([1], Short2(n) + (Short2(65535 - n) + data));
    BytesBitsJoin(Short2(n), Short2(65535 - n) + data);
    BytesBitsJoin(Short2(65535 - n), data);
    ShortBits(n);
    ShortBits(65535 - n);
    FirstByte();
    ConcatAssoc(Head(0, true), Zeros(5), StoredBits(data, true));
    ConcatAssoc(BitsOf(n, 16), BitsOf(65535 - n, 16), BytesBits(data));
  }

  lemma ShortBits(n: nat)
    requires n <= 65535
    ensures BytesBits(Short2(n)) == BitsOf(n, 16)
  {
    hide BytesBits, BitsOf;
    SplitShort(n);
    ModSmall(n / 256, 256);
  }

  lemma FirstByte()
    ensures BytesBits([1]) == Head(0, true) + Zeros(5)
  {
    Pow2Values();
    BitsOfJoin(1, 3, 0, 5);
    BitsZero();
  }

  lemma BitsZero()
    ensures BitsOf(0, 5) == Zeros(5)
  {
  }

  /** Any data of at most 65535 bytes as a file with a single stored block. */
  lemma StoredFile(data: seq<byte>)
    requires |data| <= 65535
    ensures FileFor(StoredBytes(data), data)
  {
    hide BytesBits, StoredBits, Covers, BlockOf, StreamTo, StreamIs;
    var bits := Head(0, true) + (Zeros(5) + StoredBits(data, true));
    StoredBytesBits(data);
    LiteralsCover(data, |data|);
    assert data[..|data|] == data;
    StoredBlock(data, Literals(data), 0, true);
    StreamStart();
    WholeCover(data);
    BlockExtends([], [], bits, true, Literals(data), Some(data));
    assert [] + bits == bits && bits + Zeros(0) == bits;
    DeflateSteps.Finished(bits, data, StoredBytes(data), 0);
  }

  lemma WholeCover(data: seq<byte>)
    requires Covers(data, 0, |data|, Literals(data))
    ensures AllReach([], Literals(data)) && Expand([], Literals(data)) == data
  {
    assert data[..0] == [];
    assert data[..|data|] == data;
  }

  /**
   * 32745 bytes in a stored block make a member of 32768 bytes. Of that member and any other with data behind it, only
   * the first comes out.
   */
  lemma Lost(data: seq<byte>, m: Member) returns (first: Member)
    requires |data| == 32745 && m.data != []
    ensures IsMember(first.bytes, first.head, first.data) && first.data == data && |first.bytes| == INBUFSIZ
    ensures !Whole([first, m])
  {
    hide CrcOf, Long4, FileFor, BytesOf;
    var h := ZipHead(6, 0, None);
    var body, tail := StoredBytes(data), Long4(CrcOf(data)) + Long4(|data|);
    StoredFile(data);
    first := Member(HeadBytes(h) + (body + tail), h, data);
    assert IsBody(first.bytes, h, data, body);
    var ms := [first, m];
    OneBytes(first, m);
    assert ms[1..] == [m];
    OneWhole(m);
  }

  lemma OneBytes(a: Member, b: Member)
    ensures BytesOf([a, b][..1]) == a.bytes
  {
    assert [a, b][..1] == [a] && [a][..0] == [];
  }
}
