/**
 The check values that crc16.c and crc64.c give for the message "123456789".
 */
module CrcCheck {
  import opened Crc
  import opened CrcBits
  import opened CrcTables
  import KeySlot
  import DumpPayload

  function Digits(): seq<bv8> { [0x31, 0x32, 0x33, 0x34, 0x35, 0x36, 0x37, 0x38, 0x39] }

  lemma FeedIs16(c: bv16, b: bv8)
    ensures Feed(Ops16(), c, b) == Eight16(Xor16(c, Lift16(b)))
  {}

  lemma FeedIs64(c: bv64, b: bv8)
    ensures Feed(Ops64(), c, b) == Eight64(Xor64(c, Lift64(b)))
  {}

  lemma Nine<T, B>(o: Ops<T, B>, s: seq<B>, c0: T, c1: T, c2: T, c3: T, c4: T, c5: T, c6: T, c7: T, c8: T, c9: T)
    requires |s| == 9
    requires Feed(o, c0, s[0]) == c1
    requires Feed(o, c1, s[1]) == c2
    requires Feed(o, c2, s[2]) == c3
    requires Feed(o, c3, s[3]) == c4
    requires Feed(o, c4, s[4]) == c5
    requires Feed(o, c5, s[5]) == c6
    requires Feed(o, c6, s[6]) == c7
    requires Feed(o, c7, s[7]) == c8
    requires Feed(o, c8, s[8]) == c9
    ensures Divide(o, c0, s) == c9
  {
    var c := [c0, c1, c2, c3, c4, c5, c6, c7, c8, c9];
    var i := 0;
    while i < 9
      invariant 0 <= i <= 9 && Divide(o, c0, s) == Divide(o, c[i], s[i..])
    {
      assert s[i..][1..] == s[i + 1..] && s[i..][0] == s[i];
      i := i + 1;
    }
  }

  lemma Step16At0()
    ensures Feed(Ops16(), 0x0, 0x31) == 0x2672
  {
    FeedIs16(0x0, 0x31);
  }

  lemma Step16At1()
    ensures Feed(Ops16(), 0x2672, 0x32) == 0x20b5
  {
    FeedIs16(0x2672, 0x32);
  }

  lemma Step16At2()
    ensures Feed(Ops16(), 0x20b5, 0x33) == 0x9752
  {
    FeedIs16(0x20b5, 0x33);
  }

  lemma Step16At3()
    ensures Feed(Ops16(), 0x9752, 0x34) == 0xd789
  {
    FeedIs16(0x9752, 0x34);
  }

  lemma Step16At4()
    ensures Feed(Ops16(), 0xd789, 0x35) == 0x546c
  {
    FeedIs16(0xd789, 0x35);
  }

  lemma Step16At5()
    ensures Feed(Ops16(), 0x546c, 0x36) == 0x20e4
  {
    FeedIs16(0x546c, 0x36);
  }

  lemma Step16At6()
    ensures Feed(Ops16(), 0x20e4, 0x37) == 0x86d6
  {
    FeedIs16(0x20e4, 0x37);
  }

  lemma Step16At7()
    ensures Feed(Ops16(), 0x86d6, 0x38) == 0x9015
  {
    FeedIs16(0x86d6, 0x38);
  }

  lemma Step16At8()
    ensures Feed(Ops16(), 0x9015, 0x39) == 0x31c3
  {
    FeedIs16(0x9015, 0x39);
  }

  lemma Step64At0()
    ensures Feed(Ops64(), 0x0, 0x31) == 0xfdc17184a9f739fa
  {
    FeedIs64(0x0, 0x31);
  }

  lemma Step64At1()
    ensures Feed(Ops64(), 0xfdc17184a9f739fa, 0x32) == 0xe10364513a98ed96
  {
    FeedIs64(0xfdc17184a9f739fa, 0x32);
  }

  lemma Step64At2()
    ensures Feed(Ops64(), 0xe10364513a98ed96, 0x33) == 0xd5bcfb814479b1ac
  {
    FeedIs64(0xe10364513a98ed96, 0x33);
  }

  lemma Step64At3()
    ensures Feed(Ops64(), 0xd5bcfb814479b1ac, 0x34) == 0x43593c5dcda521f0
  {
    FeedIs64(0xd5bcfb814479b1ac, 0x34);
  }

  lemma Step64At4()
    ensures Feed(Ops64(), 0x43593c5dcda521f0, 0x35) == 0xf0758513239c7e0d
  {
    FeedIs64(0x43593c5dcda521f0, 0x35);
  }

  lemma Step64At5()
    ensures Feed(Ops64(), 0xf0758513239c7e0d, 0x36) == 0xa3a90925b2ab4903
  {
    FeedIs64(0xf0758513239c7e0d, 0x36);
  }

  lemma Step64At6()
    ensures Feed(Ops64(), 0xa3a90925b2ab4903, 0x37) == 0x47824d362431ad45
  {
    FeedIs64(0xa3a90925b2ab4903, 0x37);
  }

  lemma Step64At7()
    ensures Feed(Ops64(), 0x47824d362431ad45, 0x38) == 0x49ec20b315e86dc2
  {
    FeedIs64(0x47824d362431ad45, 0x38);
  }

  lemma Step64At8()
    ensures Feed(Ops64(), 0x49ec20b315e86dc2, 0x39) == 0xe9c6d914c4b8d9ca
  {
    FeedIs64(0x49ec20b315e86dc2, 0x39);
  }

  lemma Check16(s: seq<bv8>)
    requires s == Digits()
    ensures KeySlot.Crc16(s) == 0x31c3
  {
    Step16At0();
    Step16At1();
    Step16At2();
    Step16At3();
    Step16At4();
    Step16At5();
    Step16At6();
    Step16At7();
    Step16At8();
    Nine(Ops16(), s, 0x0, 0x2672, 0x20b5, 0x9752, 0xd789, 0x546c, 0x20e4, 0x86d6, 0x9015, 0x31c3);
  }

  lemma Check64(s: seq<bv8>)
    requires s == Digits()
    ensures DumpPayload.Crc64(s) == 0xe9c6d914c4b8d9ca
  {
    Step64At0();
    Step64At1();
    Step64At2();
    Step64At3();
    Step64At4();
    Step64At5();
    Step64At6();
    Step64At7();
    Step64At8();
    Nine(Ops64(), s, 0x0, 0xfdc17184a9f739fa, 0xe10364513a98ed96, 0xd5bcfb814479b1ac, 0x43593c5dcda521f0, 0xf0758513239c7e0d, 0xa3a90925b2ab4903, 0x47824d362431ad45, 0x49ec20b315e86dc2, 0xe9c6d914c4b8d9ca);
  }
}
