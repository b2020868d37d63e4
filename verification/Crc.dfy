/** updcrc (util.c:50-68): the table-driven CRC-32 against division by the polynomial, bit by bit. */
module Crc {
  import opened Bitstring

  /** The polynomial of CRC-32, reflected. */
  const POLY: bv32 := 0xedb88320

  /** One bit of the division. */
  function Step(c: bv32): bv32 {
    if c & 1 == 1 then (c >> 1) ^ POLY else c >> 1
  }

  /** Addition without carry. */
  function Plus(a: bv32, b: bv32): bv32 {
    a ^ b
  }

  function Step4(c: bv32): bv32 {
    Step(Step(Step(Step(c))))
  }

  function Step8(c: bv32): bv32 {
    Step4(Step4(c))
  }

  /** One byte through the register, bit by bit. */
  function CrcByte(c: bv32, b: byte): bv32 {
    Step8(c ^ (b as bv32))
  }

  /** A string of bytes through the register. */
  function Register(c: bv32, s: seq<byte>): bv32 {
    if |s| == 0 then c else CrcByte(Register(c, s[..|s| - 1]), s[|s| - 1])
  }

  lemma {:induction false} RegisterJoin(c: bv32, s: seq<byte>, t: seq<byte>)
    ensures Register(c, s + t) == Register(Register(c, s), t)
  {
    hide CrcByte;
    if |t| == 0 {
      assert s + t == s;
    } else {
      RegisterJoin(c, s, t[..|t| - 1]);
      assert (s + t)[..|s + t| - 1] == s + t[..|t| - 1];
    }
  }

  // ---- crc_32_tab, sixteen entries to a row ----

  datatype Row = Row(e0: bv32, e1: bv32, e2: bv32, e3: bv32, e4: bv32, e5: bv32, e6: bv32, e7: bv32,
                     e8: bv32, e9: bv32, e10: bv32, e11: bv32, e12: bv32, e13: bv32, e14: bv32, e15: bv32)

  const ROW_0: Row := Row(
    0x00000000, 0x77073096, 0xee0e612c, 0x990951ba, 0x076dc419, 0x706af48f, 0xe963a535, 0x9e6495a3,
    0x0edb8832, 0x79dcb8a4, 0xe0d5e91e, 0x97d2d988, 0x09b64c2b, 0x7eb17cbd, 0xe7b82d07, 0x90bf1d91)
  const ROW_1: Row := Row(
    0x1db71064, 0x6ab020f2, 0xf3b97148, 0x84be41de, 0x1adad47d, 0x6ddde4eb, 0xf4d4b551, 0x83d385c7,
    0x136c9856, 0x646ba8c0, 0xfd62f97a, 0x8a65c9ec, 0x14015c4f, 0x63066cd9, 0xfa0f3d63, 0x8d080df5)
  const ROW_2: Row := Row(
    0x3b6e20c8, 0x4c69105e, 0xd56041e4, 0xa2677172, 0x3c03e4d1, 0x4b04d447, 0xd20d85fd, 0xa50ab56b,
    0x35b5a8fa, 0x42b2986c, 0xdbbbc9d6, 0xacbcf940, 0x32d86ce3, 0x45df5c75, 0xdcd60dcf, 0xabd13d59)
  const ROW_3: Row := Row(
    0x26d930ac, 0x51de003a, 0xc8d75180, 0xbfd06116, 0x21b4f4b5, 0x56b3c423, 0xcfba9599, 0xb8bda50f,
    0x2802b89e, 0x5f058808, 0xc60cd9b2, 0xb10be924, 0x2f6f7c87, 0x58684c11, 0xc1611dab, 0xb6662d3d)
  const ROW_4: Row := Row(
    0x76dc4190, 0x01db7106, 0x98d220bc, 0xefd5102a, 0x71b18589, 0x06b6b51f, 0x9fbfe4a5, 0xe8b8d433,
    0x7807c9a2, 0x0f00f934, 0x9609a88e, 0xe10e9818, 0x7f6a0dbb, 0x086d3d2d, 0x91646c97, 0xe6635c01)
  const ROW_5: Row := Row(
    0x6b6b51f4, 0x1c6c6162, 0x856530d8, 0xf262004e, 0x6c0695ed, 0x1b01a57b, 0x8208f4c1, 0xf50fc457,
    0x65b0d9c6, 0x12b7e950, 0x8bbeb8ea, 0xfcb9887c, 0x62dd1ddf, 0x15da2d49, 0x8cd37cf3, 0xfbd44c65)
  const ROW_6: Row := Row(
    0x4db26158, 0x3ab551ce, 0xa3bc0074, 0xd4bb30e2, 0x4adfa541, 0x3dd895d7, 0xa4d1c46d, 0xd3d6f4fb,
    0x4369e96a, 0x346ed9fc, 0xad678846, 0xda60b8d0, 0x44042d73, 0x33031de5, 0xaa0a4c5f, 0xdd0d7cc9)
  const ROW_7: Row := Row(
    0x5005713c, 0x270241aa, 0xbe0b1010, 0xc90c2086, 0x5768b525, 0x206f85b3, 0xb966d409, 0xce61e49f,
    0x5edef90e, 0x29d9c998, 0xb0d09822, 0xc7d7a8b4, 0x59b33d17, 0x2eb40d81, 0xb7bd5c3b, 0xc0ba6cad)
  const ROW_8: Row := Row(
    0xedb88320, 0x9abfb3b6, 0x03b6e20c, 0x74b1d29a, 0xead54739, 0x9dd277af, 0x04db2615, 0x73dc1683,
    0xe3630b12, 0x94643b84, 0x0d6d6a3e, 0x7a6a5aa8, 0xe40ecf0b, 0x9309ff9d, 0x0a00ae27, 0x7d079eb1)
  const ROW_9: Row := Row(
    0xf00f9344, 0x8708a3d2, 0x1e01f268, 0x6906c2fe, 0xf762575d, 0x806567cb, 0x196c3671, 0x6e6b06e7,
    0xfed41b76, 0x89d32be0, 0x10da7a5a, 0x67dd4acc, 0xf9b9df6f, 0x8ebeeff9, 0x17b7be43, 0x60b08ed5)
  const ROW_10: Row := Row(
    0xd6d6a3e8, 0xa1d1937e, 0x38d8c2c4, 0x4fdff252, 0xd1bb67f1, 0xa6bc5767, 0x3fb506dd, 0x48b2364b,
    0xd80d2bda, 0xaf0a1b4c, 0x36034af6, 0x41047a60, 0xdf60efc3, 0xa867df55, 0x316e8eef, 0x4669be79)
  const ROW_11: Row := Row(
    0xcb61b38c, 0xbc66831a, 0x256fd2a0, 0x5268e236, 0xcc0c7795, 0xbb0b4703, 0x220216b9, 0x5505262f,
    0xc5ba3bbe, 0xb2bd0b28, 0x2bb45a92, 0x5cb36a04, 0xc2d7ffa7, 0xb5d0cf31, 0x2cd99e8b, 0x5bdeae1d)
  const ROW_12: Row := Row(
    0x9b64c2b0, 0xec63f226, 0x756aa39c, 0x026d930a, 0x9c0906a9, 0xeb0e363f, 0x72076785, 0x05005713,
    0x95bf4a82, 0xe2b87a14, 0x7bb12bae, 0x0cb61b38, 0x92d28e9b, 0xe5d5be0d, 0x7cdcefb7, 0x0bdbdf21)
  const ROW_13: Row := Row(
    0x86d3d2d4, 0xf1d4e242, 0x68ddb3f8, 0x1fda836e, 0x81be16cd, 0xf6b9265b, 0x6fb077e1, 0x18b74777,
    0x88085ae6, 0xff0f6a70, 0x66063bca, 0x11010b5c, 0x8f659eff, 0xf862ae69, 0x616bffd3, 0x166ccf45)
  const ROW_14: Row := Row(
    0xa00ae278, 0xd70dd2ee, 0x4e048354, 0x3903b3c2, 0xa7672661, 0xd06016f7, 0x4969474d, 0x3e6e77db,
    0xaed16a4a, 0xd9d65adc, 0x40df0b66, 0x37d83bf0, 0xa9bcae53, 0xdebb9ec5, 0x47b2cf7f, 0x30b5ffe9)
  const ROW_15: Row := Row(
    0xbdbdf21c, 0xcabac28a, 0x53b39330, 0x24b4a3a6, 0xbad03605, 0xcdd70693, 0x54de5729, 0x23d967bf,
    0xb3667a2e, 0xc4614ab8, 0x5d681b02, 0x2a6f2b94, 0xb40bbe37, 0xc30c8ea1, 0x5a05df1b, 0x2d02ef8d)

  /** The entry of a row with the number of bits p, q, s, t. */
  function Pick(r: Row, p: bool, q: bool, s: bool, t: bool): bv32 {
    if p then
      if q then (if s then (if t then r.e15 else r.e14) else (if t then r.e13 else r.e12))
      else (if s then (if t then r.e11 else r.e10) else (if t then r.e9 else r.e8))
    else
      if q then (if s then (if t then r.e7 else r.e6) else (if t then r.e5 else r.e4))
      else (if s then (if t then r.e3 else r.e2) else (if t then r.e1 else r.e0))
  }

  function RowOf(p: bool, q: bool, s: bool, t: bool): Row {
    if p then
      if q then (if s then (if t then ROW_15 else ROW_14) else (if t then ROW_13 else ROW_12))
      else (if s then (if t then ROW_11 else ROW_10) else (if t then ROW_9 else ROW_8))
    else
      if q then (if s then (if t then ROW_7 else ROW_6) else (if t then ROW_5 else ROW_4))
      else (if s then (if t then ROW_3 else ROW_2) else (if t then ROW_1 else ROW_0))
  }

  function Low(p: bool, q: bool, s: bool, t: bool): bv32 {
    if p then
      if q then (if s then (if t then 15 else 14) else (if t then 13 else 12))
      else (if s then (if t then 11 else 10) else (if t then 9 else 8))
    else
      if q then (if s then (if t then 7 else 6) else (if t then 5 else 4))
      else (if s then (if t then 3 else 2) else (if t then 1 else 0))
  }

  function High(p: bool, q: bool, s: bool, t: bool): bv32 {
    if p then
      if q then (if s then (if t then 0xf0 else 0xe0) else (if t then 0xd0 else 0xc0))
      else (if s then (if t then 0xb0 else 0xa0) else (if t then 0x90 else 0x80))
    else
      if q then (if s then (if t then 0x70 else 0x60) else (if t then 0x50 else 0x40))
      else (if s then (if t then 0x30 else 0x20) else (if t then 0x10 else 0x00))
  }

  /** crc_32_tab[i & 0xff] */
  function Entry(i: bv32): bv32 {
    Pick(RowOf(i & 128 != 0, i & 64 != 0, i & 32 != 0, i & 16 != 0), i & 8 != 0, i & 4 != 0, i & 2 != 0, i & 1 != 0)
  }

  // ---- the table is the division of every byte ----

  /** A row is its first entry, plus the first row without carry. */
  ghost predicate RowOk(r: Row) {
    && r.e1 == Plus(r.e0, ROW_0.e1) && r.e2 == Plus(r.e0, ROW_0.e2) && r.e3 == Plus(r.e0, ROW_0.e3)
    && r.e4 == Plus(r.e0, ROW_0.e4)
    && r.e5 == Plus(r.e0, ROW_0.e5) && r.e6 == Plus(r.e0, ROW_0.e6) && r.e7 == Plus(r.e0, ROW_0.e7)
    && r.e8 == Plus(r.e0, ROW_0.e8)
    && r.e9 == Plus(r.e0, ROW_0.e9) && r.e10 == Plus(r.e0, ROW_0.e10) && r.e11 == Plus(r.e0, ROW_0.e11)
    && r.e12 == Plus(r.e0, ROW_0.e12)
    && r.e13 == Plus(r.e0, ROW_0.e13) && r.e14 == Plus(r.e0, ROW_0.e14) && r.e15 == Plus(r.e0, ROW_0.e15)
  }

  lemma Rows0()
    ensures RowOk(ROW_0) && RowOk(ROW_1) && RowOk(ROW_2) && RowOk(ROW_3)
  {
  }

  lemma Rows4()
    ensures RowOk(ROW_4) && RowOk(ROW_5) && RowOk(ROW_6) && RowOk(ROW_7)
  {
  }

  lemma Rows8()
    ensures RowOk(ROW_8) && RowOk(ROW_9) && RowOk(ROW_10) && RowOk(ROW_11)
  {
  }

  lemma Rows12()
    ensures RowOk(ROW_12) && RowOk(ROW_13) && RowOk(ROW_14) && RowOk(ROW_15)
  {
  }

  lemma RowIs()
    ensures ROW_0.e0 == Step8(0) && ROW_0.e1 == Step8(1) && ROW_0.e2 == Step8(2) && ROW_0.e3 == Step8(3) &&
            ROW_0.e4 == Step8(4) && ROW_0.e5 == Step8(5) && ROW_0.e6 == Step8(6) && ROW_0.e7 == Step8(7)
    ensures ROW_0.e8 == Step8(8) && ROW_0.e9 == Step8(9) && ROW_0.e10 == Step8(10) && ROW_0.e11 == Step8(11) &&
            ROW_0.e12 == Step8(12) && ROW_0.e13 == Step8(13) && ROW_0.e14 == Step8(14) && ROW_0.e15 == Step8(15)
  {
  }

  lemma LowColumnIs()
    ensures ROW_0.e0 == Step8(0x00) && ROW_1.e0 == Step8(0x10) && ROW_2.e0 == Step8(0x20) && ROW_3.e0 == Step8(0x30) &&
            ROW_4.e0 == Step8(0x40) && ROW_5.e0 == Step8(0x50) && ROW_6.e0 == Step8(0x60) && ROW_7.e0 == Step8(0x70)
  {
  }

  lemma HighColumnIs()
    ensures ROW_8.e0 == Step8(0x80) && ROW_9.e0 == Step8(0x90) && ROW_10.e0 == Step8(0xa0) &&
            ROW_11.e0 == Step8(0xb0) && ROW_12.e0 == Step8(0xc0) && ROW_13.e0 == Step8(0xd0) &&
            ROW_14.e0 == Step8(0xe0) && ROW_15.e0 == Step8(0xf0)
  {
  }

  lemma FirstRow(p: bool, q: bool, s: bool, t: bool)
    ensures Pick(ROW_0, p, q, s, t) == Step8(Low(p, q, s, t))
  {
    hide Step8, ROW_0;
    RowIs();
  }

  lemma FirstColumn(p: bool, q: bool, s: bool, t: bool)
    ensures RowOf(p, q, s, t).e0 == Step8(High(p, q, s, t))
  {
    hide Step8;
    LowColumnIs();
    HighColumnIs();
  }

  lemma AnyRow(p: bool, q: bool, s: bool, t: bool)
    ensures RowOk(RowOf(p, q, s, t))
  {
    hide RowOk;
    Rows0();
    Rows4();
    Rows8();
    Rows12();
  }

  lemma RowPlus(r: Row, p: bool, q: bool, s: bool, t: bool)
    requires RowOk(r)
    ensures Pick(r, p, q, s, t) == Plus(r.e0, Pick(ROW_0, p, q, s, t))
  {
    hide ROW_0, Plus;
    ZeroEntry(r);
  }

  lemma ZeroEntry(r: Row)
    ensures r.e0 == Plus(r.e0, ROW_0.e0)
  {
  }

  // ---- the division is linear; every value has a name of its own here ----

  lemma PlusHalves(a: bv32, b: bv32, c: bv32, ah: bv32, bh: bv32, ch: bv32)
    requires c == a ^ b && ah == a >> 1 && bh == b >> 1 && ch == c >> 1
    ensures ch == ah ^ bh && c & 1 == (a & 1) ^ (b & 1) && (a & 1 == 0 || a & 1 == 1) && (b & 1 == 0 || b & 1 == 1)
  {
  }

  lemma StepIs(c: bv32, ch: bv32, c1: bv32)
    requires ch == c >> 1 && c1 == Step(c)
    ensures (c & 1 == 1 ==> c1 == ch ^ POLY) && (c & 1 == 0 ==> c1 == ch)
  {
  }

  lemma BothOdd(a: bv32, b: bv32, c: bv32, x: bv32, y: bv32)
    requires c == a ^ b && x == a ^ POLY && y == b ^ POLY
    ensures c == x ^ y
  {
  }

  lemma OneOdd(a: bv32, b: bv32, c: bv32, x: bv32, z: bv32)
    requires c == a ^ b && x == a ^ POLY && z == c ^ POLY
    ensures z == x ^ b && z == b ^ x
  {
  }

  lemma Combine(pa: bv32, pb: bv32, pc: bv32, ah: bv32, bh: bv32, ch: bv32, a1: bv32, b1: bv32, c1: bv32)
    requires (pa == 0 || pa == 1) && (pb == 0 || pb == 1) && pc == pa ^ pb && ch == ah ^ bh
    requires (pa == 1 ==> a1 == ah ^ POLY) && (pa == 0 ==> a1 == ah)
    requires (pb == 1 ==> b1 == bh ^ POLY) && (pb == 0 ==> b1 == bh)
    requires (pc == 1 ==> c1 == ch ^ POLY) && (pc == 0 ==> c1 == ch)
    ensures c1 == a1 ^ b1
  {
    if pa == 1 && pb == 1 {
      BothOdd(ah, bh, ch, a1, b1);
    } else if pa == 1 {
      OneOdd(ah, bh, ch, a1, c1);
    } else if pb == 1 {
      Swapped(ah, bh, ch);
      OneOdd(bh, ah, ch, b1, c1);
    }
  }

  lemma Swapped(a: bv32, b: bv32, c: bv32)
    requires c == a ^ b
    ensures c == b ^ a
  {
  }

  lemma StepXor(a: bv32, b: bv32, c: bv32, a1: bv32, b1: bv32, c1: bv32)
    requires c == a ^ b && a1 == Step(a) && b1 == Step(b) && c1 == Step(c)
    ensures c1 == a1 ^ b1
  {
    hide Step;
    var ah, bh, ch := a >> 1, b >> 1, c >> 1;
    PlusHalves(a, b, c, ah, bh, ch);
    StepIs(a, ah, a1);
    StepIs(b, bh, b1);
    StepIs(c, ch, c1);
    Combine(a & 1, b & 1, c & 1, ah, bh, ch, a1, b1, c1);
  }

  lemma StepPlus(a: bv32, b: bv32, c: bv32)
    requires c == Plus(a, b)
    ensures Step(c) == Plus(Step(a), Step(b))
  {
    hide Step, Plus;
    StepNamed(a, b, c, Step(a), Step(b), Step(c));
  }

  lemma StepNamed(a: bv32, b: bv32, c: bv32, a1: bv32, b1: bv32, c1: bv32)
    requires c == Plus(a, b) && a1 == Step(a) && b1 == Step(b) && c1 == Step(c)
    ensures c1 == Plus(a1, b1)
  {
    hide Step, Plus;
    PlusMeans(a, b, c);
    StepXor(a, b, c, a1, b1, c1);
    PlusIs(a1, b1, c1);
  }

  lemma PlusMeans(a: bv32, b: bv32, c: bv32)
    requires c == Plus(a, b)
    ensures c == a ^ b
  {
  }

  lemma Step4Plus(a: bv32, b: bv32, c: bv32)
    requires c == Plus(a, b)
    ensures Step4(c) == Plus(Step4(a), Step4(b))
  {
    hide Step, Plus;
    StepPlus(a, b, c);
    StepPlus(Step(a), Step(b), Step(c));
    StepPlus(Step(Step(a)), Step(Step(b)), Step(Step(c)));
    StepPlus(Step(Step(Step(a))), Step(Step(Step(b))), Step(Step(Step(c))));
  }

  lemma Step8Plus(a: bv32, b: bv32, c: bv32)
    requires c == Plus(a, b)
    ensures Step8(c) == Plus(Step8(a), Step8(b))
  {
    hide Step4, Plus;
    Step4Plus(a, b, c);
    Step4Plus(Step4(a), Step4(b), Step4(c));
  }

  lemma LowZeros(x: bv32, y: bv32)
    requires x & 15 == 0 && y == x >> 4
    ensures Step4(x) == y
  {
  }

  lemma HighBits(x: bv32, lo: bv32, hi: bv32, hi4: bv32)
    requires lo == x & 255 && hi == x & 0xffffff00 && hi4 == hi >> 4
    ensures x == lo ^ hi && hi & 15 == 0 && hi4 & 15 == 0 && hi4 >> 4 == x >> 8
  {
  }

  lemma PlusIs(a: bv32, b: bv32, c: bv32)
    requires c == a ^ b
    ensures c == Plus(a, b)
  {
  }

  lemma HighGone(hi: bv32, hi4: bv32, up: bv32)
    requires hi & 15 == 0 && hi4 == hi >> 4 && hi4 & 15 == 0 && up == hi4 >> 4
    ensures Step8(hi) == up
  {
    hide Step4;
    LowZeros(hi, hi4);
    LowZeros(hi4, up);
  }

  /** Eight bits of the division: the low byte by the table, the others by a shift. */
  lemma ByTable(x: bv32, lo: bv32, up: bv32)
    requires lo == x & 255 && up == x >> 8
    ensures Step8(x) == Plus(Step8(lo), up)
  {
    hide Step8, Plus;
    var hi := x & 0xffffff00;
    var hi4 := hi >> 4;
    HighBits(x, lo, hi, hi4);
    HighGone(hi, hi4, up);
    PlusIs(lo, hi, x);
    Step8Plus(lo, hi, x);
  }

  lemma Nibbles(i: bv32)
    requires i <= 255
    ensures i == Plus(High(i & 128 != 0, i & 64 != 0, i & 32 != 0, i & 16 != 0),
                      Low(i & 8 != 0, i & 4 != 0, i & 2 != 0, i & 1 != 0))
  {
  }

  lemma EntryParts(p: bool, q: bool, s: bool, t: bool, p': bool, q': bool, s': bool, t': bool, i: bv32)
    requires i == Plus(High(p, q, s, t), Low(p', q', s', t'))
    ensures Pick(RowOf(p, q, s, t), p', q', s', t') == Step8(i)
  {
    hide Step8, RowOf, Pick, RowOk, ROW_0, Plus, High, Low;
    AnyRow(p, q, s, t);
    RowPlus(RowOf(p, q, s, t), p', q', s', t');
    FirstRow(p', q', s', t');
    FirstColumn(p, q, s, t);
    Step8Plus(High(p, q, s, t), Low(p', q', s', t'), i);
  }

  /** Every entry of the table is the division of its index. */
  lemma EntryIs(i: bv32)
    requires i <= 255
    ensures Entry(i) == Step8(i)
  {
    hide Step8, RowOf, Pick, Plus, High, Low;
    Nibbles(i);
    EntryParts(i & 128 != 0, i & 64 != 0, i & 32 != 0, i & 16 != 0, i & 8 != 0, i & 4 != 0, i & 2 != 0, i & 1 != 0, i);
  }

  lemma ByteSmall(b: byte)
    ensures (b as bv32) >> 8 == 0
  {
  }

  lemma XorUp(c: bv32, v: bv32, x: bv32, up: bv32)
    requires v >> 8 == 0 && x == c ^ v && up == x >> 8
    ensures up == c >> 8
  {
  }

  /** One turn of the loop of updcrc. */
  lemma ByteStep(c: bv32, b: byte, v: bv32, x: bv32, lo: bv32, up: bv32)
    requires v == b as bv32 && x == c ^ v && lo == x & 255 && up == c >> 8
    ensures Plus(Entry(lo), up) == CrcByte(c, b)
  {
    hide Step8, Entry, Plus;
    ByteSmall(b);
    LowByte(x, lo);
    XorUp(c, v, x, x >> 8);
    EntryIs(lo);
    ByTable(x, lo, up);
  }

  lemma LowByte(x: bv32, lo: bv32)
    requires lo == x & 255
    ensures lo <= 255
  {
  }

  const INIT_CRC: bv32 := 0xffffffff

  /** updcrc on a non-null buffer: the register afterwards; its complement is the result. */
  method UpdateCrc(crc: bv32, s: seq<byte>) returns (c: bv32)
    ensures c == Register(crc, s)
  {
    hide CrcByte, Entry, Plus;
    c := crc;
    var i := 0;
    while i < |s|
      invariant 0 <= i <= |s| && c == Register(crc, s[..i])
    {
      var v := s[i] as bv32;
      var x, up := c ^ v, c >> 8;
      var lo := x & 255;
      ByteStep(c, s[i], v, x, lo, up);
      assert s[..i + 1][..i] == s[..i];
      c := Plus(Entry(lo), up);
      i := i + 1;
    }
    assert s[..|s|] == s;
  }

  // ---- in pieces ----

  ghost function Flatten(pieces: seq<seq<byte>>): seq<byte> {
    if |pieces| == 0 then [] else Flatten(pieces[..|pieces| - 1]) + pieces[|pieces| - 1]
  }

  lemma FlattenSnoc(pieces: seq<seq<byte>>, i: nat)
    requires i < |pieces|
    ensures Flatten(pieces[..i + 1]) == Flatten(pieces[..i]) + pieces[i]
  {
    assert pieces[..i + 1][..i] == pieces[..i];
  }

  /** One call of updcrc for every piece, as flush_window makes them: the register of all bytes in a row. */
  method UpdatePieces(crc: bv32, pieces: seq<seq<byte>>) returns (c: bv32)
    ensures c == Register(crc, Flatten(pieces))
  {
    hide Register, Flatten;
    c := crc;
    NoPieces(crc, pieces);
    var i := 0;
    while i < |pieces|
      invariant 0 <= i <= |pieces| && c == Register(crc, Flatten(pieces[..i]))
    {
      FlattenSnoc(pieces, i);
      RegisterJoin(crc, Flatten(pieces[..i]), pieces[i]);
      c := UpdateCrc(c, pieces[i]);
      i := i + 1;
    }
    assert pieces[..i] == pieces;
  }

  lemma NoPieces(crc: bv32, pieces: seq<seq<byte>>)
    ensures Register(crc, Flatten(pieces[..0])) == crc
  {
  }
}
