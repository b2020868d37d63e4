/** The fixed codes of section 3.2.6 of RFC 1951. */
module FixedCodes {
  import opened Bitstring
  import opened Codes
  import opened Rfc1951

  lemma MaxLenIs(b: seq<nat>, i: nat)
    requires i < |b| && forall j :: 0 <= j < |b| ==> b[j] <= b[i]
    ensures MaxLen(b) == b[i]
  {
    if MaxLen(b) > 0 {
      var s := SymbolAt(b, MaxLen(b), 0);
    }
  }

  lemma FixedCount(l: nat)
    ensures Count(FixedLits(), l) == if l == 7 then 24 else if l == 8 then 152 else if l == 9 then 112 else 0
  {
    var a, b, c, d := Repeat(8, 144), Repeat(9, 112), Repeat(7, 24), Repeat(8, 8);
    assert FixedLits() == a + b + c + d;
    CountJoin(a + b + c, d, l);
    CountJoin(a + b, c, l);
    CountJoin(a, b, l);
    CountRepeat(8, 144, l);
    CountRepeat(9, 112, l);
    CountRepeat(7, 24, l);
    CountRepeat(8, 8, l);
  }

  /** The fixed literal code is complete, and the fixed distance code is not. */
  lemma FixedComplete()
    ensures MaxLen(FixedLits()) == 9 && Used(FixedLits(), 9) == Pow2(9)
    ensures MaxLen(FixedDists()) == 5 && Used(FixedDists(), 5) == 30 < Pow2(5)
  {
    var f, d := FixedLits(), FixedDists();
    MaxLenIs(f, 144);
    MaxLenIs(d, 0);
    forall l: nat
      ensures Count(f, l) == if l == 7 then 24 else if l == 8 then 152 else if l == 9 then 112 else 0
    {
      FixedCount(l);
    }
    forall l: nat ensures Count(d, l) == if l == 5 then 30 else 0 { CountRepeat(5, 30, l); }
    UsedZero(f, 6);
    UsedZero(d, 4);
    assert Used(f, 7) == 24 && Used(f, 8) == 200 && Used(f, 9) == 512;
    Pow2Values();
    assert Pow2(9) == 2 * Pow2(8);
  }
}
