/** A 32-bit address space of bytes, with the little-endian words the kernel keeps in it. */
module Memory32 {
  const SPACE := 0x1_0000_0000

  newtype octet = x: int | 0 <= x < 256

  type Memory = m: seq<octet> | |m| == SPACE witness seq(SPACE, i => 0)

  /** Addresses wrap around at the end of the address space. */
  function At(m: Memory, a: nat): octet {
    m[a % SPACE]
  }

  function Word(m: Memory, a: nat): (v: nat)
    ensures v < SPACE
  {
    At(m, a) as int + 256 * (At(m, a + 1) as int) + 65536 * (At(m, a + 2) as int) + 16777216 * (At(m, a + 3) as int)
  }

  function PutByte(m: Memory, a: nat, v: octet): Memory {
    m[a % SPACE := v]
  }

  function PutWord(m: Memory, a: nat, v: nat): Memory
    requires v < SPACE
  {
    var m1 := PutByte(m, a, (v % 256) as octet);
    var m2 := PutByte(m1, a + 1, (v / 256 % 256) as octet);
    var m3 := PutByte(m2, a + 2, (v / 65536 % 256) as octet);
    PutByte(m3, a + 3, (v / 16777216) as octet)
  }

  /** Every byte outside [lo, hi) is the same in both memories. */
  ghost predicate SameOutside(m: Memory, n: Memory, lo: nat, hi: nat) {
    forall x: nat :: x < SPACE && (x < lo || hi <= x) ==> m[x] == n[x]
  }

  lemma SplitWord(v: nat)
    requires v < SPACE
    ensures v == v % 256 + 256 * (v / 256 % 256) + 65536 * (v / 65536 % 256) + 16777216 * (v / 16777216)
    ensures v / 16777216 < 256
  {
  }

  lemma InSpace(a: nat)
    requires a < SPACE
    ensures a % SPACE == a
  {
  }

  /** A word put at `a` is read back, and the bytes around it stay. */
  lemma PutGet(m: Memory, a: nat, v: nat)
    requires a + 4 <= SPACE && v < SPACE
    ensures Word(PutWord(m, a, v), a) == v
    ensures SameOutside(m, PutWord(m, a, v), a, a + 4)
  {
    SplitWord(v);
    InSpace(a);
    InSpace(a + 1);
    InSpace(a + 2);
    InSpace(a + 3);
  }

  lemma WordKept(m: Memory, n: Memory, lo: nat, hi: nat, a: nat)
    requires SameOutside(m, n, lo, hi) && a + 4 <= SPACE && (a + 4 <= lo || hi <= a)
    ensures Word(n, a) == Word(m, a)
  {
    InSpace(a);
    InSpace(a + 1);
    InSpace(a + 2);
    InSpace(a + 3);
  }

}
