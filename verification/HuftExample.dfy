/** A complete set of code lengths that the tables of huft_build do not decode. */
module HuftExample {
  import opened Bitstring
  import opened Codes
  import opened FixedCodes
  import opened Huft
  import opened HuftSteps
  import opened HuftExact
  import HuftMain

  /** 63 codes of 6 bits, and 128 codes of 13 bits. */
  function Lopsided(): seq<nat> {
    Repeat(6, 63) + Repeat(13, 128)
  }

  lemma LopsidedCount(l: nat)
    ensures Count(Lopsided(), l) == if l == 6 then 63 else if l == 13 then 128 else 0
  {
    CountJoin(Repeat(6, 63), Repeat(13, 128), l);
    CountRepeat(6, 63, l);
    CountRepeat(13, 128, l);
  }

  lemma LopsidedUsed()
    ensures Used(Lopsided(), 11) == 2016 && Used(Lopsided(), 13) == 8192
  {
    var c := Lopsided();
    forall l: nat ensures Count(c, l) == if l == 6 then 63 else if l == 13 then 128 else 0 { LopsidedCount(l); }
    UsedZero(c, 5);
    assert Used(c, 6) == 63 && Used(c, 7) == 126 && Used(c, 8) == 252 && Used(c, 9) == 504 && Used(c, 10) == 1008;
    assert Used(c, 11) == 2016 && Used(c, 12) == 4032;
  }

  /** The set is complete, and with 6 table bits it is not safe: its tables do not decode it. */
  lemma LopsidedUnsafe()
    ensures |Lopsided()| <= 288 && MaxLen(Lopsided()) == 13 && Complete(Lopsided(), 13) && !Safe(Lopsided(), 13, 6)
  {
    var c := Lopsided();
    LopsidedUsed();
    MaxLenIs(c, 63);
    Pow2Values();
    assert Pow2(9) == 512 && Pow2(10) == 1024 && Pow2(11) == 2048 && Pow2(12) == 4096 && Pow2(13) == 8192;
    assert !Roomy(c, 6 + 6 - 1, 6) by { assert Pow2(5) == 32; }
    assert MultipleOf(6, 6) by { assert MultipleOf(0, 6); }
  }

  /** Whatever entries it gets, huft_build with 6 table bits leaves a code of this set that is not found. */
  lemma LopsidedFails(cs: CodeSet, tables: seq<seq<Huft>>, sh: Shape, junk: Huft)
    requires cs.lens == Lopsided() && cs.g == 13 && cs.l == 6
    requires AllCells(cs, tables, sh) && Extra(cs, tables, sh, junk) && junk.e == INVALID
    ensures !Decodes(cs, tables)
  {
    LopsidedUnsafe();
    UnsafeFails(cs, tables, sh, junk);
  }

  lemma LopsidedSet(l: nat, v: seq<nat>)
    requires |v| == HuftMain.N_MAX
    ensures HuftMain.ResultOf(Lopsided()) == 0 && HuftMain.TableBits(Lopsided(), 6) == 6
    ensures var cs := HuftMain.SetOf(Lopsided(), l, v, 288, [], []);
            cs.lens == Lopsided() && |cs.ents| == |cs.lens| && cs.g == 13 && cs.l == l
  {
    hide Lopsided, Count, HuftMain.Ents;
    var c := Lopsided();
    LopsidedUnsafe();
    LopsidedCount(13);
    HuftMain.MinLenIs(c, 6) by { LopsidedShortest(); }
    assert HuftMain.Extend(c, 13, 0) == c;
  }

  lemma LopsidedShortest()
    ensures Count(Lopsided(), 6) > 0 && (forall k :: 1 <= k < 6 ==> Count(Lopsided(), k) == 0)
  {
    LopsidedCount(6);
    forall k | 1 <= k < 6 ensures Count(Lopsided(), k) == 0 { LopsidedCount(k); }
  }

  /** huft_build called on the set: it reports success, and its tables miss a code. */
  method BuildLopsided() returns (result: nat, tables: seq<seq<Huft>>, l: nat, ghost cs: CodeSet)
    ensures result == 0 && l == 6 && cs.lens == Lopsided() && Complete(cs.lens, 13)
    ensures |cs.ents| == |cs.lens| && !Decodes(cs, tables)
  {
    hide Lopsided, Complete, Decodes, AllCells, Extra, HuftMain.SetOf, HuftMain.ResultOf, HuftMain.TableBits;
    ghost var v, sh;
    var junk := Huft(INVALID, 0, 0);
    LopsidedUnsafe();
    result, tables, l, v, sh := HuftMain.BuildTables(Lopsided(), 288, [], [], 6, seq(288, _ => 0), junk);
    LopsidedSet(l, v);
    cs := HuftMain.SetOf(Lopsided(), l, v, 288, [], []);
    LopsidedFails(cs, tables, sh, junk);
  }
}
