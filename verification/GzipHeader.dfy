/** The header of a member: what zip writes and get_method reads (gzip.c:813-941, gzip.h:140-152). */
module GzipHeader {
  import opened Bitstring
  import opened BitIO
  import opened Codes

  // ---- numbers of several bytes, lowest first ----

  const TWO32 := 0x1_0000_0000

  /** put_long */
  function Long4(n: nat): (r: seq<byte>)
    ensures |r| == 4
  {
    [n % 256, n / 256 % 256, n / 256 / 256 % 256, n / 256 / 256 / 256 % 256]
  }

  /** LG of the source. */
  function LongOf(b: seq<byte>): nat
    requires |b| == 4
  {
    var b0: int, b1: int, b2: int, b3: int := b[0], b[1], b[2], b[3];
    b0 + 256 * b1 + 65536 * b2 + 16777216 * b3
  }

  lemma LongBack(n: nat)
    ensures LongOf(Long4(n)) == n % TWO32
  {
    var q1, q2, q3, q4 := n / 256, n / 256 / 256, n / 256 / 256 / 256, n / 256 / 256 / 256 / 256;
    FourDigits(n, q1, q2, q3, q4, n % 256, q1 % 256, q2 % 256, q3 % 256);
  }

  lemma FourDigits(n: nat, q1: nat, q2: nat, q3: nat, q4: nat, b0: nat, b1: nat, b2: nat, b3: nat)
    requires n == 256 * q1 + b0 && q1 == 256 * q2 + b1 && q2 == 256 * q3 + b2 && q3 == 256 * q4 + b3
    requires b0 < 256 && b1 < 256 && b2 < 256 && b3 < 256
    ensures n % TWO32 == b0 + 256 * b1 + 65536 * b2 + 16777216 * b3
  {
    DivModUnique(n, q4, b0 + 256 * b1 + 65536 * b2 + 16777216 * b3, TWO32);
  }

  lemma LongForth(b: seq<byte>)
    requires |b| == 4
    ensures LongOf(b) < TWO32 && Long4(LongOf(b)) == b
  {
    var b0: int, b1: int, b2: int, b3: int := b[0], b[1], b[2], b[3];
    DivModUnique(LongOf(b), b1 + 256 * b2 + 65536 * b3, b0, 256);
    DivModUnique(b1 + 256 * b2 + 65536 * b3, b2 + 256 * b3, b1, 256);
    DivModUnique(b2 + 256 * b3, b3, b2, 256);
  }

  /** Lowest byte first, as the bits of a byte are lowest first. */
  lemma LongBits(n: nat)
    ensures BytesBits(Long4(n)) == BitsOf(n % TWO32, 32)
  {
    hide BytesBits, BitsOf;
    var b := Long4(n);
    var b0: int, b1: int, b2: int, b3: int := b[0], b[1], b[2], b[3];
    LongBack(n);
    Pow2Values();
    BitsOfJoin(b0 + 256 * b1, 16, b2 + 256 * b3, 16);
    PairBits(b0, b1);
    PairBits(b2, b3);
    BytesBitsJoin([b0, b1], [b2, b3]);
    assert b == [b0, b1] + [b2, b3];
  }

  lemma PairBits(a: byte, b: byte)
    ensures BytesBits([a, b]) == BitsOf(a as nat + 256 * b as nat, 16) && a as nat + 256 * b as nat < 65536
  {
    hide BytesBits, BitsOf;
    var v: nat := a as nat + 256 * b as nat;
    DivModUnique(v, b, a, 256);
    SplitShort(v);
  }

  function Short2(n: nat): (r: seq<byte>)
    ensures |r| == 2
  {
    [n % 256, n / 256 % 256]
  }

  // ---- the form of a header ----

  /** The fields that the flags announce. */
  datatype Fields = Fields(part: Option<nat>, extra: Option<seq<byte>>, name: Option<seq<byte>>,
                           comment: Option<seq<byte>>)

  datatype Header = Header(early: bool, text: bool, reserved: nat, time: nat, xfl: byte, os: byte, fields: Fields)

  predicate FieldsOk(f: Fields) {
    && (f.part.Some? ==> f.part.value < 65536) && (f.extra.Some? ==> |f.extra.value| < 65536)
    && (f.name.Some? ==> 0 !in f.name.value) && (f.comment.Some? ==> 0 !in f.comment.value)
  }

  predicate HeadOk(h: Header) {
    h.reserved < 4 && h.time < TWO32 && FieldsOk(h.fields)
  }

  function PartBytes(p: Option<nat>): seq<byte> {
    if p.Some? then Short2(p.value) else []
  }

  function ExtraBytes(x: Option<seq<byte>>): seq<byte> {
    if x.Some? then Short2(|x.value|) + x.value else []
  }

  function StringBytes(x: Option<seq<byte>>): seq<byte> {
    if x.Some? then x.value + [0] else []
  }

  function FieldBytes(f: Fields): seq<byte> {
    PartBytes(f.part) + (ExtraBytes(f.extra) + (StringBytes(f.name) + StringBytes(f.comment)))
  }

  function If(b: bool, v: nat): nat {
    if b then v else 0
  }

  function FlagByte(h: Header): byte
    requires h.reserved < 4
  {
    If(h.text, 1) + If(h.fields.part.Some?, 2) + If(h.fields.extra.Some?, 4) + If(h.fields.name.Some?, 8) +
    If(h.fields.comment.Some?, 16) + 64 * h.reserved
  }

  /** Magic number, method 8, flags, time stamp, two bytes that are ignored, and the fields. */
  function HeadBytes(h: Header): seq<byte>
    requires h.reserved < 4
  {
    [0x1f, if h.early then 0x9e else 0x8b, 8, FlagByte(h)] + (Long4(h.time) + ([h.xfl, h.os] + FieldBytes(h.fields)))
  }

  /** The bytes start with the header. */
  ghost predicate HeadAt(s: seq<byte>, h: Header, rest: seq<byte>) {
    HeadOk(h) && s == HeadBytes(h) + rest
  }

  // ---- reading the fields ----

  datatype Got<T> = Nothing | Got(value: T, rest: seq<byte>)

  function ReadPart(on: bool, s: seq<byte>): Got<Option<nat>> {
    if !on then Got(None, s)
    else if |s| < 2 then Nothing
    else Got(Some(s[0] as nat + 256 * s[1] as nat), s[2..])
  }

  function ReadExtra(on: bool, s: seq<byte>): Got<Option<seq<byte>>> {
    if !on then Got(None, s)
    else if |s| < 2 || |s| < 2 + (s[0] as nat + 256 * s[1] as nat) then Nothing
    else var n := s[0] as nat + 256 * s[1] as nat; Got(Some(s[2..2 + n]), s[2 + n..])
  }

  /** How many bytes come before the first zero. */
  function BeforeZero(s: seq<byte>): (n: nat)
    ensures n <= |s| && 0 !in s[..n] && (n < |s| ==> s[n] == 0)
  {
    if |s| == 0 || s[0] == 0 then 0 else 1 + BeforeZero(s[1..])
  }

  function ReadString(on: bool, s: seq<byte>): Got<Option<seq<byte>>> {
    if !on then Got(None, s)
    else if BeforeZero(s) == |s| then Nothing
    else Got(Some(s[..BeforeZero(s)]), s[BeforeZero(s) + 1..])
  }

  lemma ZeroIs(s: seq<byte>, n: nat)
    requires n < |s| && s[n] == 0 && 0 !in s[..n]
    ensures BeforeZero(s) == n
  {
  }

  lemma ShortDigits(n: nat, b0: nat, b1: nat)
    requires n < 65536 && b0 == n % 256 && b1 == n / 256 % 256
    ensures b0 + 256 * b1 == n
  {
  }

  lemma PartBack(p: Option<nat>, rest: seq<byte>)
    requires p.Some? ==> p.value < 65536
    ensures ReadPart(p.Some?, PartBytes(p) + rest) == Got(p, rest)
  {
    if p.Some? {
      var s := PartBytes(p) + rest;
      ShortDigits(p.value, s[0], s[1]);
    } else {
      assert PartBytes(p) + rest == rest;
    }
  }

  lemma ExtraBack(x: Option<seq<byte>>, rest: seq<byte>)
    requires x.Some? ==> |x.value| < 65536
    ensures ReadExtra(x.Some?, ExtraBytes(x) + rest) == Got(x, rest)
  {
    var s := ExtraBytes(x) + rest;
    if x.Some? {
      var n := |x.value|;
      ShortDigits(n, s[0], s[1]);
      assert s[2..2 + n] == x.value && s[2 + n..] == rest;
    } else {
      assert s == rest;
    }
  }

  lemma StringBack(x: Option<seq<byte>>, rest: seq<byte>)
    requires x.Some? ==> 0 !in x.value
    ensures ReadString(x.Some?, StringBytes(x) + rest) == Got(x, rest)
  {
    var s := StringBytes(x) + rest;
    if x.Some? {
      var n := |x.value|;
      assert s[..n] == x.value && s[n + 1..] == rest;
      ZeroIs(s, n);
    } else {
      assert s == rest;
    }
  }

  lemma PartForth(on: bool, s: seq<byte>, p: Option<nat>, rest: seq<byte>)
    requires ReadPart(on, s) == Got(p, rest)
    ensures p.Some? == on && (on ==> p.value < 65536) && s == PartBytes(p) + rest
  {
  }

  lemma ExtraForth(on: bool, s: seq<byte>, x: Option<seq<byte>>, rest: seq<byte>)
    requires ReadExtra(on, s) == Got(x, rest)
    ensures x.Some? == on && (on ==> |x.value| < 65536) && s == ExtraBytes(x) + rest
  {
    if on {
      var b0: nat, b1: nat := s[0], s[1];
      DivModUnique(b0 + 256 * b1, b1, b0, 256);
      assert x.value == s[2..2 + (b0 + 256 * b1)];
      assert Short2(|x.value|) == s[..2];
      assert s == s[..2] + (x.value + rest);
    }
  }

  lemma StringForth(on: bool, s: seq<byte>, x: Option<seq<byte>>, rest: seq<byte>)
    requires ReadString(on, s) == Got(x, rest)
    ensures x.Some? == on && (on ==> 0 !in x.value) && s == StringBytes(x) + rest
  {
  }

  /** One field after the other. */
  function ReadFields(part: bool, extra: bool, name: bool, comment: bool, s: seq<byte>): Got<Fields> {
    var a := ReadPart(part, s);
    if a.Nothing? then Nothing
    else
      var b := ReadExtra(extra, a.rest);
      if b.Nothing? then Nothing
      else
        var c := ReadString(name, b.rest);
        if c.Nothing? then Nothing
        else
          var d := ReadString(comment, c.rest);
          if d.Nothing? then Nothing else Got(Fields(a.value, b.value, c.value, d.value), d.rest)
  }

  lemma FieldsJoin(f: Fields, rest: seq<byte>, s3: seq<byte>, s2: seq<byte>, s1: seq<byte>)
    requires s3 == StringBytes(f.comment) + rest && s2 == StringBytes(f.name) + s3 && s1 == ExtraBytes(f.extra) + s2
    ensures PartBytes(f.part) + s1 == FieldBytes(f) + rest
  {
    hide PartBytes, ExtraBytes, StringBytes;
  }

  lemma FieldsBack(f: Fields, rest: seq<byte>)
    requires FieldsOk(f)
    ensures ReadFields(f.part.Some?, f.extra.Some?, f.name.Some?, f.comment.Some?, FieldBytes(f) + rest)
            == Got(f, rest)
  {
    hide PartBytes, ExtraBytes, StringBytes, FieldBytes, ReadPart, ReadExtra, ReadString;
    var s3 := StringBytes(f.comment) + rest;
    var s2 := StringBytes(f.name) + s3;
    var s1 := ExtraBytes(f.extra) + s2;
    FieldsJoin(f, rest, s3, s2, s1);
    PartBack(f.part, s1);
    ExtraBack(f.extra, s2);
    StringBack(f.name, s3);
    StringBack(f.comment, rest);
  }

  lemma FieldsForth(part: bool, extra: bool, name: bool, comment: bool, s: seq<byte>, f: Fields, rest: seq<byte>)
    requires ReadFields(part, extra, name, comment, s) == Got(f, rest)
    ensures FieldsOk(f) && s == FieldBytes(f) + rest && f.part.Some? == part && f.extra.Some? == extra &&
            f.name.Some? == name && f.comment.Some? == comment
  {
    hide PartBytes, ExtraBytes, StringBytes, FieldBytes, ReadPart, ReadExtra, ReadString;
    var a := ReadPart(part, s);
    var b := ReadExtra(extra, a.rest);
    var c := ReadString(name, b.rest);
    PartForth(part, s, f.part, a.rest);
    ExtraForth(extra, a.rest, f.extra, b.rest);
    StringForth(name, b.rest, f.name, c.rest);
    StringForth(comment, c.rest, f.comment, rest);
    FieldsJoin(f, rest, c.rest, b.rest, a.rest);
  }

  // ---- reading the header ----

  /** The bit of the given weight. */
  predicate Flag(f: nat, weight: nat)
    requires weight > 0
  {
    f / weight % 2 == 1
  }

  predicate Magic(s: seq<byte>) {
    |s| >= 2 && s[0] == 0x1f && (s[1] == 0x8b || s[1] == 0x9e)
  }

  function ReadHead(s: seq<byte>): Got<Header> {
    if |s| < 10 || !Magic(s) || s[2] != 8 || Flag(s[3], 32) then Nothing
    else
      var f := ReadFields(Flag(s[3], 2), Flag(s[3], 4), Flag(s[3], 8), Flag(s[3], 16), s[10..]);
      if f.Nothing? then Nothing
      else
        var h := Header(s[1] == 0x9e, Flag(s[3], 1), s[3] as nat / 64, LongOf(s[4..8]), s[8], s[9], f.value);
        Got(h, f.rest)
  }

  lemma OneFlag(f: nat, low: nat, weight: nat, bit: bool, up: nat)
    requires low < weight && f == (If(bit, 1) + 2 * up) * weight + low
    ensures Flag(f, weight) == bit && f / weight == If(bit, 1) + 2 * up
  {
    DivModUnique(f, If(bit, 1) + 2 * up, low, weight);
    DivModUnique(If(bit, 1) + 2 * up, up, If(bit, 1), 2);
  }

  lemma FlagsBack(f: nat, a: bool, b: bool, c: bool, d: bool, e: bool, r: nat)
    requires f == If(a, 1) + If(b, 2) + If(c, 4) + If(d, 8) + If(e, 16) + 64 * r
    ensures Flag(f, 1) == a && Flag(f, 2) == b && Flag(f, 4) == c && Flag(f, 8) == d && Flag(f, 16) == e &&
            !Flag(f, 32) && f / 64 == r
  {
    hide Flag;
    var g5 := If(e, 1) + 4 * r;
    var g4 := If(d, 1) + 2 * g5;
    var g3 := If(c, 1) + 2 * g4;
    OneFlag(f, 0, 1, a, If(b, 1) + 2 * g3);
    OneFlag(f, If(a, 1), 2, b, g3);
    OneFlag(f, If(a, 1) + If(b, 2), 4, c, g4);
    OneFlag(f, If(a, 1) + If(b, 2) + If(c, 4), 8, d, g5);
    OneFlag(f, If(a, 1) + If(b, 2) + If(c, 4) + If(d, 8), 16, e, 2 * r);
    OneFlag(f, If(a, 1) + If(b, 2) + If(c, 4) + If(d, 8) + If(e, 16), 32, false, r);
    DivModUnique(f, r, f - 64 * r, 64);
  }

  lemma Halve(f: nat, weight: nat, twice: nat)
    requires weight > 0 && twice == 2 * weight
    ensures f / weight == If(Flag(f, weight), 1) + 2 * (f / twice)
  {
    var q, r := f / weight, f % weight;
    var g, bit := q / 2, q % 2;
    Regroup(f, q, r, g, bit, weight);
    DivModUnique(f, g, bit * weight + r, twice);
  }

  lemma Regroup(f: nat, q: nat, r: nat, g: nat, bit: nat, weight: nat)
    requires f == q * weight + r && q == 2 * g + bit && r < weight && bit <= 1
    ensures f == g * (2 * weight) + (bit * weight + r) && 0 <= bit * weight + r < 2 * weight
  {
  }

  lemma FlagsSum(f: nat, g1: nat, g2: nat, g3: nat, g4: nat, g5: nat, g6: nat, a: bool, b: bool, c: bool, d: bool,
                 e: bool)
    requires f == If(a, 1) + 2 * g1 && g1 == If(b, 1) + 2 * g2 && g2 == If(c, 1) + 2 * g3
    requires g3 == If(d, 1) + 2 * g4 && g4 == If(e, 1) + 2 * g5 && g5 == 2 * g6
    ensures f == If(a, 1) + If(b, 2) + If(c, 4) + If(d, 8) + If(e, 16) + 64 * g6
  {
  }

  lemma FlagsForth(f: nat)
    requires f < 256 && !Flag(f, 32)
    ensures f == If(Flag(f, 1), 1) + If(Flag(f, 2), 2) + If(Flag(f, 4), 4) + If(Flag(f, 8), 8) + If(Flag(f, 16), 16) +
                 64 * (f / 64)
  {
    hide Flag, If;
    Halve(f, 1, 2);
    Halve(f, 2, 4);
    Halve(f, 4, 8);
    Halve(f, 8, 16);
    Halve(f, 16, 32);
    Halve(f, 32, 64);
    NoFlag();
    FlagsSum(f, f / 2, f / 4, f / 8, f / 16, f / 32, f / 64, Flag(f, 1), Flag(f, 2), Flag(f, 4), Flag(f, 8),
             Flag(f, 16));
  }

  lemma NoFlag()
    ensures If(false, 1) == 0
  {
  }

  lemma HeadSplit(s: seq<byte>, h: Header, rest: seq<byte>)
    requires h.reserved < 4 && s == HeadBytes(h) + rest
    ensures |s| >= 10 && s[0] == 0x1f && s[1] == (if h.early then 0x9e else 0x8b) && s[2] == 8 && s[3] == FlagByte(h)
    ensures s[4..8] == Long4(h.time) && s[8] == h.xfl && s[9] == h.os && s[10..] == FieldBytes(h.fields) + rest
  {
    hide Long4, FieldBytes, FlagByte;
  }

  /** Every header is read back, whatever follows it. */
  lemma HeadBack(h: Header, rest: seq<byte>)
    requires HeadOk(h)
    ensures ReadHead(HeadBytes(h) + rest) == Got(h, rest)
  {
    hide HeadBytes, FieldBytes, ReadFields, Flag, LongOf, Long4, If;
    var s := HeadBytes(h) + rest;
    HeadSplit(s, h, rest);
    var f := h.fields;
    FlagsBack(s[3], h.text, f.part.Some?, f.extra.Some?, f.name.Some?, f.comment.Some?, h.reserved);
    FieldsBack(f, rest);
    LongBack(h.time);
    ModSmall(h.time, TWO32);
  }

  lemma HeadJoin(s: seq<byte>, h: Header, rest: seq<byte>)
    requires h.reserved < 4 && |s| >= 10
    requires s[0] == 0x1f && s[1] == (if h.early then 0x9e else 0x8b) && s[2] == 8 && s[3] == FlagByte(h)
    requires s[4..8] == Long4(h.time) && s[8] == h.xfl && s[9] == h.os && s[10..] == FieldBytes(h.fields) + rest
    ensures s == HeadBytes(h) + rest
  {
    hide Long4, FieldBytes, FlagByte;
    assert s == s[..4] + (s[4..8] + (s[8..10] + s[10..]));
  }

  /** What is read is a header. */
  lemma HeadForth(s: seq<byte>, h: Header, rest: seq<byte>)
    requires ReadHead(s) == Got(h, rest)
    ensures HeadAt(s, h, rest)
  {
    hide HeadBytes, FieldBytes, ReadFields, Flag, LongOf, Long4, If;
    FlagsForth(s[3]);
    FieldsForth(Flag(s[3], 2), Flag(s[3], 4), Flag(s[3], 8), Flag(s[3], 16), s[10..], h.fields, rest);
    LongForth(s[4..8]);
    HeadJoin(s, h, rest);
  }

  // ---- get_method ----

  /** -f (how often), -c, -n, and the room for a name behind the directory in ofname. */
  datatype Options = Options(force: nat, toStdout: bool, noName: bool, room: nat)

  /**
   * The header ends at `end`, with a time stamp (0 for none) and a name that is taken over; the input is copied as it
   * is; or one of the complaints: unknown magic number at the start or behind a member, unknown method, encryption,
   * several parts, reserved flags, a name that is too long, the end of the input.
   */
  datatype Method = Deflated(end: nat, stamp: nat, name: Option<seq<byte>>) | Copied | NotGzip | Garbage | UnknownMethod
                  | Encrypted | MultiPart | ReservedFlags | LongName | InputEnds

  /** The name of the header becomes the name of the output. */
  predicate Kept(o: Options, part: nat) {
    !o.noName && !o.toStdout && part <= 1
  }

  /** What get_method makes of a header. */
  function Accepted(o: Options, part: nat, h: Header, end: nat): Method {
    if h.fields.part.Some? && o.force <= 1 then MultiPart
    else if h.reserved != 0 && o.force <= 1 then ReservedFlags
    else if Kept(o, part) && h.fields.name.Some? && |h.fields.name.value| >= o.room then LongName
    else Deflated(end, h.time, if Kept(o, part) then h.fields.name else None)
  }

  /** The extra field is skipped. */
  method PassExtra(file: seq<byte>, p: nat) returns (ok: bool, q: nat)
    requires p <= |file|
    ensures var g := ReadExtra(true, file[p..]);
            ok == g.Got? && (ok ==> p <= q <= |file| && file[q..] == g.rest)
  {
    q := p;
    if q + 2 > |file| { return false, q; }
    var len: nat := file[q] as nat + 256 * file[q + 1] as nat;
    q := q + 2;
    ghost var n := len;
    while len > 0
      invariant q <= |file| && q + len == p + 2 + n
    {
      if q >= |file| { return false, q; }
      q, len := q + 1, len - 1;
    }
    ok := true;
  }

  /** Bytes are skipped up to the first zero. */
  method PassString(file: seq<byte>, p: nat) returns (ok: bool, q: nat)
    requires p <= |file|
    ensures var g := ReadString(true, file[p..]);
            ok == g.Got? && (ok ==> p <= q <= |file| && file[q..] == g.rest)
  {
    hide BeforeZero;
    q := p;
    while true
      invariant p <= q <= |file| && 0 !in file[p..][..q - p]
      decreases |file| - q
    {
      if q >= |file| {
        assert file[p..][..q - p] == file[p..];
        return false, q;
      }
      var c := file[q];
      q := q + 1;
      assert file[p..][..q - p] == file[p..][..q - 1 - p] + [c];
      if c == 0 {
        ZeroIs(file[p..], q - 1 - p);
        assert file[q..] == file[p..][q - p..];
        return true, q;
      }
    }
  }

  datatype Naming = Named | TooLong | NoMore

  /** The name is copied, as long as there is room for it and the zero behind it. */
  method CopyName(file: seq<byte>, p: nat, room: nat) returns (st: Naming, q: nat, name: seq<byte>)
    requires p <= |file| && room > 0
    ensures var g := ReadString(true, file[p..]);
            && (g.Got? && |g.value.value| < room <==> st == Named)
            && (g.Got? && |g.value.value| >= room ==> st == TooLong)
            && (st == Named ==> p <= q <= |file| && file[q..] == g.rest && name == g.value.value)
  {
    hide BeforeZero;
    q, name := p, [];
    while true
      invariant p <= q <= |file| && name == file[p..][..q - p] && 0 !in name && |name| < room
      decreases |file| - q
    {
      if q >= |file| {
        assert file[p..][..q - p] == file[p..];
        return NoMore, q, name;
      }
      var c := file[q];
      q := q + 1;
      assert file[p..][..q - p] == file[p..][..q - 1 - p] + [c];
      if c == 0 {
        ZeroIs(file[p..], q - 1 - p);
        assert file[q..] == file[p..][q - p..];
        return Named, q, name;
      }
      name := name + [c];
      if |name| >= room {
        LongZero(file[p..], name);
        return TooLong, q, name;
      }
    }
  }

  lemma LongZero(s: seq<byte>, name: seq<byte>)
    requires name <= s && 0 !in name
    ensures ReadString(true, s).Got? ==> |name| <= |ReadString(true, s).value.value|
  {
    assert forall k :: 0 <= k < |name| ==> s[k] == name[k] != 0;
  }

  /** The part number and the extra field (gzip.c:877-893). */
  method PassNumbers(file: seq<byte>, p: nat, flags: byte) returns (ok: bool, q: nat)
    requires p <= |file|
    ensures var a := ReadPart(Flag(flags, 2), file[p..]);
            && ok == (a.Got? && ReadExtra(Flag(flags, 4), a.rest).Got?)
            && (ok ==> p <= q <= |file| && file[q..] == ReadExtra(Flag(flags, 4), a.rest).rest)
  {
    hide Flag, ReadExtra, ReadString;
    ok, q := true, p;
    if Flag(flags, 2) {
      if q + 2 > |file| { return false, q; }
      q := q + 2;
      assert file[q..] == file[p..][2..];
    }
    NotOn(file[q..]);
    if Flag(flags, 4) {
      ok, q := PassExtra(file, q);
    }
  }

  /** The name and the comment (gzip.c:895-917). */
  method GetStrings(file: seq<byte>, p: nat, flags: byte, o: Options, part: nat)
    returns (st: Naming, q: nat, name: Option<seq<byte>>)
    requires p <= |file| && o.room > 0
    ensures var c := ReadString(Flag(flags, 8), file[p..]);
            && (st == Named ==>
                  && c.Got? && name == (if Kept(o, part) then c.value else None)
                  && var d := ReadString(Flag(flags, 16), c.rest);
                     d.Got? && p <= q <= |file| && file[q..] == d.rest)
            && (c.Got? && ReadString(Flag(flags, 16), c.rest).Got? ==>
                  st == if Kept(o, part) && c.value.Some? && |c.value.value| >= o.room then TooLong else Named)
  {
    hide Flag, ReadExtra, ReadString, Kept;
    var ok;
    st, q, name := Named, p, None;
    NotOn(file[q..]);
    if Flag(flags, 8) {
      if Kept(o, part) {
        var x;
        st, q, x := CopyName(file, q, o.room);
        if st != Named { return; }
        name := Some(x);
      } else {
        ok, q := PassString(file, q);
        if !ok { return NoMore, q, name; }
      }
    }
    NotOn(file[q..]);
    if Flag(flags, 16) {
      ok, q := PassString(file, q);
      if !ok { return NoMore, q, name; }
    }
  }

  lemma NotOn(s: seq<byte>)
    ensures ReadExtra(false, s) == Got(None, s) && ReadString(false, s) == Got(None, s)
    ensures ReadString(true, s).Got? ==> ReadString(true, s).value.Some?
  {
  }

  /** The fields behind the tenth byte. */
  method GetFields(file: seq<byte>, p: nat, flags: byte, o: Options, part: nat)
    returns (st: Naming, q: nat, name: Option<seq<byte>>)
    requires p <= |file| && o.room > 0
    ensures var g := ReadFields(Flag(flags, 2), Flag(flags, 4), Flag(flags, 8), Flag(flags, 16), file[p..]);
            && (st == Named ==>
                  g.Got? && q == |file| - |g.rest| && name == (if Kept(o, part) then g.value.name else None))
            && (g.Got? ==>
                  var n := g.value.name;
                  st == if Kept(o, part) && n.Some? && |n.value| >= o.room then TooLong else Named)
  {
    hide Flag, ReadPart, ReadExtra, ReadString, Kept;
    var ok;
    ok, q := PassNumbers(file, p, flags);
    if !ok { return NoMore, q, None; }
    st, q, name := GetStrings(file, q, flags, o, part);
  }

  /**
   * get_method: a header is accepted or refused by what it says, and nothing but a header is accepted. Without the
   * magic number the input is copied as it is, or refused, or ignored behind the first member.
   */
  method GetMethod(file: seq<byte>, i: nat, o: Options, part: nat) returns (r: Method)
    requires i <= |file| && o.room > 0 && part >= 1
    ensures forall h, rest :: HeadAt(file[i..], h, rest) ==> r == Accepted(o, part, h, |file| - |rest|)
    ensures r.Deflated? ==>
              && i + 10 <= r.end <= |file|
              && exists h, rest :: HeadAt(file[i..], h, rest) && r == Accepted(o, part, h, |file| - |rest|)
    ensures r.Copied? || r.NotGzip? || r.Garbage? <==>
            !Magic(file[i..]) && (i + 2 <= |file| || (o.force > 0 && o.toStdout))
    ensures r.Copied? ==> o.force > 0 && o.toStdout
    ensures r.NotGzip? ==> part == 1
    ensures r.Garbage? ==> part > 1
    ensures r.UnknownMethod? <==> Magic(file[i..]) && i + 3 <= |file| && file[i + 2] != 8
    ensures r.Encrypted? <==> Magic(file[i..]) && i + 4 <= |file| && file[i + 2] == 8 && Flag(file[i + 3], 32)
  {
    hide Flag, ReadFields, Kept, LongOf, HeadBytes, HeadOk;
    r := FindMethod(file, i, o, part);
    var g := ReadHead(file[i..]);
    forall h, rest | HeadAt(file[i..], h, rest)
      ensures g == Got(h, rest)
    {
      StartsMeans(file[i..], h, rest);
    }
    if g.Got? {
      HeadForth(file[i..], g.value, g.rest);
      HeadLong(file[i..], g.value, g.rest);
    }
  }

  lemma HeadLong(s: seq<byte>, h: Header, rest: seq<byte>)
    requires HeadAt(s, h, rest)
    ensures |s| >= 10 + |rest|
  {
    hide FlagByte, FieldBytes, Long4;
  }

  lemma StartsMeans(s: seq<byte>, h: Header, rest: seq<byte>)
    requires HeadAt(s, h, rest)
    ensures ReadHead(s) == Got(h, rest)
  {
    hide HeadBytes, ReadHead;
    HeadBack(h, rest);
  }

  /** The same, in terms of what is read. */
  method FindMethod(file: seq<byte>, i: nat, o: Options, part: nat) returns (r: Method)
    requires i <= |file| && o.room > 0 && part >= 1
    ensures var g := ReadHead(file[i..]);
            (g.Got? ==> r == Accepted(o, part, g.value, |file| - |g.rest|)) && (r.Deflated? ==> g.Got?)
    ensures r.Copied? || r.NotGzip? || r.Garbage? <==>
            !Magic(file[i..]) && (i + 2 <= |file| || (o.force > 0 && o.toStdout))
    ensures (r.Copied? ==> o.force > 0 && o.toStdout) && (r.NotGzip? ==> part == 1) && (r.Garbage? ==> part > 1)
    ensures r.UnknownMethod? <==> Magic(file[i..]) && i + 3 <= |file| && file[i + 2] != 8
    ensures r.Encrypted? <==> Magic(file[i..]) && i + 4 <= |file| && file[i + 2] == 8 && Flag(file[i + 3], 32)
  {
    hide Flag, ReadFields, Kept;
    var through := o.force > 0 && o.toStdout;
    var m0, m1 := 0xff, 0xff;
    if i + 2 <= |file| {
      m0, m1 := file[i], file[i + 1];
    } else if !through {
      return InputEnds;
    }
    if m0 != 0x1f || (m1 != 0x8b && m1 != 0x9e) {
      return if through then Copied else if part == 1 then NotGzip else Garbage;
    }
    if i + 2 >= |file| { return InputEnds; }
    if file[i + 2] != 8 { return UnknownMethod; }
    if i + 3 >= |file| { return InputEnds; }
    var flags := file[i + 3];
    if Flag(flags, 32) { return Encrypted; }
    r := FindDeflated(file, i, flags, o, part);
  }

  /** The header from the flags on. */
  method FindDeflated(file: seq<byte>, i: nat, flags: byte, o: Options, part: nat) returns (r: Method)
    requires i + 4 <= |file| && o.room > 0 && part >= 1 && Magic(file[i..]) && file[i + 2] == 8
    requires file[i + 3] == flags && !Flag(flags, 32)
    ensures var g := ReadHead(file[i..]);
            (g.Got? ==> r == Accepted(o, part, g.value, |file| - |g.rest|)) && (r.Deflated? ==> g.Got?)
    ensures !r.Copied? && !r.NotGzip? && !r.Garbage? && !r.UnknownMethod? && !r.Encrypted?
  {
    hide Flag, ReadFields, Kept;
    if i + 10 <= |file| { FieldsAsked(flags, file[i..][10..]); }
    if Flag(flags, 2) && o.force <= 1 { return MultiPart; }
    if flags >= 64 && o.force <= 1 { return ReservedFlags; }
    if i + 10 > |file| { return InputEnds; }
    var stamp: nat := file[i + 4] as nat + 256 * file[i + 5] as nat + 65536 * file[i + 6] as nat
                      + 16777216 * file[i + 7] as nat;
    var st, q, name := GetFields(file, i + 10, flags, o, part);
    assert file[i..][10..] == file[i + 10..];
    if st == NoMore { return InputEnds; }
    if st == TooLong { return LongName; }
    r := Deflated(q, stamp, name);
  }

  lemma FieldsAsked(flags: byte, s: seq<byte>)
    ensures var g := ReadFields(Flag(flags, 2), Flag(flags, 4), Flag(flags, 8), Flag(flags, 16), s);
            g.Got? ==> (g.value.part.Some? <==> Flag(flags, 2))
  {
    hide Flag, ReadExtra, ReadString;
  }
}
