/** The words and masks of a 64 bit server. */
module WordBits {
  import opened Bitfield
  import opened ByteBits
  import opened Bitpos

  /** The mask after `k` moves to the right. */
  function MaskAt(k: nat): bv64 { if k == 0 then 0x8000_0000_0000_0000 else Next(MaskAt(k - 1)) }

  function Next(m: bv64): bv64 { m >> 1 }

  predicate Gone(m: bv64) { m == 0 }

  predicate Meets(m: bv64, x: bv64) { m & x != 0 }

  function Load(x: bv64, y: bv8): bv64 { (x << 8) | (y as bv64) }

  function Word64(a: bv8, b: bv8, c: bv8, d: bv8, e: bv8, f: bv8, g: bv8, h: bv8): bv64 {
    Load(Load(Load(Load(Load(Load(Load(Load(0, a), b), c), d), e), f), g), h)
  }

  function ReadWord(t: seq<bv8>): bv64 {
    if |t| == 8 then Word64(t[7], t[6], t[5], t[4], t[3], t[2], t[1], t[0]) else 0
  }

  function Machine(): Words<bv8, bv64, bv64> {
    Words(0xff, 0, ReadWord, 0xffff_ffff_ffff_ffff, 0, Load, 0x8000_0000_0000_0000, Next, Gone, Meets, MaskAt)
  }

  /** The mask is a single bit, or gone. */
  predicate Single(m: bv64) { m & (m - 1) == 0 }

  lemma SingleMoves(m: bv64)
    requires m & (m - 1) == 0
    ensures (m >> 1) & ((m >> 1) - 1) == 0
  {}

  lemma SingleHigh(m: bv64)
    requires m & (m - 1) == 0 && m >> 8 != 0
    ensures m & 0xff == 0
  {}

  lemma {:induction false} MaskSingle(k: nat)
    ensures Single(MaskAt(k))
    decreases k
  {
    if k > 0 {
      MaskSingle(k - 1);
      SingleMoves(MaskAt(k - 1));
    }
  }

  lemma ShiftsSwap(m: bv64)
    ensures (m >> 1) >> 8 == (m >> 8) >> 1
  {}

  lemma {:induction false} MaskByteOn(k: nat)
    ensures MaskAt(k + 8) == MaskAt(k) >> 8
    decreases k
  {
    if k == 0 {
      assert MaskAt(1) == 0x4000_0000_0000_0000 && MaskAt(2) == 0x2000_0000_0000_0000 && MaskAt(3) == 0x1000_0000_0000_0000;
      assert MaskAt(4) == 0x0800_0000_0000_0000 && MaskAt(5) == 0x0400_0000_0000_0000 && MaskAt(6) == 0x0200_0000_0000_0000;
      assert MaskAt(7) == 0x0100_0000_0000_0000 && MaskAt(8) == 0x0080_0000_0000_0000;
    } else {
      MaskByteOn(k - 1);
      ShiftsSwap(MaskAt(k - 1));
    }
  }

  /** The last byte of masks, and the end. */
  lemma LastMasks()
    ensures MaskAt(56) == 0x80 && MaskAt(57) == 0x40 && MaskAt(58) == 0x20 && MaskAt(59) == 0x10
    ensures MaskAt(60) == 0x08 && MaskAt(61) == 0x04 && MaskAt(62) == 0x02 && MaskAt(63) == 0x01 && MaskAt(64) == 0
  {
    MaskByteOn(0);
    MaskByteOn(8);
    MaskByteOn(16);
    MaskByteOn(24);
    MaskByteOn(32);
    MaskByteOn(40);
    MaskByteOn(48);
  }

  lemma {:induction false} GoneStays(k: nat, n: nat)
    requires k <= n && MaskAt(k) == 0
    ensures MaskAt(n) == 0
    decreases n
  {
    if k < n { GoneStays(k, n - 1); }
  }

  lemma MaskThere(k: nat)
    requires k < 64
    ensures MaskAt(k) != 0
  {
    LastMasks();
    if MaskAt(k) == 0 { GoneStays(k, 63); }
  }

  lemma MaskHigh(k: nat)
    requires k < 56
    ensures MaskAt(k) & 0xff == 0
  {
    MaskByteOn(k);
    MaskThere(k + 8);
    MaskSingle(k);
    SingleHigh(MaskAt(k));
  }

  lemma MaskLow(k: nat)
    requires 56 <= k < 64
    ensures MaskAt(k) == Mask(k - 56) as bv64
  {
    LastMasks();
    if k == 56 {} else if k == 57 {} else if k == 58 {} else if k == 59 {}
    else if k == 60 {} else if k == 61 {} else if k == 62 {} else {}
  }

  lemma MaskMoves(k: nat)
    ensures MaskLaw(Machine(), k)
  {
    LastMasks();
    if k < 64 { MaskThere(k); }
  }

  /** A mask above the last byte sees the word before the move. */
  lemma UpperMask(x: bv64, y: bv8, m: bv64)
    requires m & 0xff == 0
    ensures (m & ((x << 8) | (y as bv64)) != 0) == ((m >> 8) & x != 0)
  {}

  lemma LowerMask(x: bv64, y: bv8, m: bv64, n: bv8)
    requires m == n as bv64
    ensures Meets(m, Load(x, y)) == (y & n != 0)
  {}

  lemma LoadUpper(x: bv64, y: bv8, k: nat)
    requires k < 56
    ensures Meets(MaskAt(k), Load(x, y)) == Meets(MaskAt(k + 8), x)
  {
    MaskHigh(k);
    MaskByteOn(k);
    UpperMask(x, y, MaskAt(k));
  }

  lemma LoadLower(x: bv64, y: bv8, k: nat)
    requires 56 <= k < 64
    ensures Meets(MaskAt(k), Load(x, y)) == Test(y, k - 56)
  {
    MaskLow(k);
    LowerMask(x, y, MaskAt(k), Mask(k - 56));
  }

  lemma MachineLoad(x: bv64, y: bv8, k: nat)
    ensures LoadLaw(Bytes(), Machine(), x, y, k)
  {
    if k < 56 { LoadUpper(x, y, k); } else if k < 64 { LoadLower(x, y, k); }
  }

  /** A word is full or empty when its bytes are. */
  lemma WordParts(a: bv8, b: bv8, c: bv8, d: bv8, e: bv8, f: bv8, g: bv8, h: bv8)
    ensures Word64(a, b, c, d, e, f, g, h) == 0xffff_ffff_ffff_ffff <==>
            a == 0xff && b == 0xff && c == 0xff && d == 0xff && e == 0xff && f == 0xff && g == 0xff && h == 0xff
    ensures Word64(a, b, c, d, e, f, g, h) == 0 <==>
            a == 0 && b == 0 && c == 0 && d == 0 && e == 0 && f == 0 && g == 0 && h == 0
  {}

  lemma MachineRead(t: seq<bv8>)
    ensures ReadLaw(Machine(), t)
  {
    if |t| == 8 { WordParts(t[7], t[6], t[5], t[4], t[3], t[2], t[1], t[0]); }
  }

  lemma ByteParts(y: bv8)
    ensures y == 0xff <==>
      y & 0x80 != 0 && y & 0x40 != 0 && y & 0x20 != 0 && y & 0x10 != 0 && y & 0x08 != 0 && y & 0x04 != 0 && y & 0x02 != 0 && y & 0x01 != 0
    ensures y == 0 <==>
      y & 0x80 == 0 && y & 0x40 == 0 && y & 0x20 == 0 && y & 0x10 == 0 && y & 0x08 == 0 && y & 0x04 == 0 && y & 0x02 == 0 && y & 0x01 == 0
  {}

  lemma TestsUpper(y: bv8)
    ensures Bytes().test(y, 0) == (y & 0x80 != 0) && Bytes().test(y, 1) == (y & 0x40 != 0)
    ensures Bytes().test(y, 2) == (y & 0x20 != 0) && Bytes().test(y, 3) == (y & 0x10 != 0)
  {}

  lemma TestsLower(y: bv8)
    ensures Bytes().test(y, 4) == (y & 0x08 != 0) && Bytes().test(y, 5) == (y & 0x04 != 0)
    ensures Bytes().test(y, 6) == (y & 0x02 != 0) && Bytes().test(y, 7) == (y & 0x01 != 0)
  {}

  lemma MachineByte(y: bv8)
    ensures ByteLaw(Bytes(), Machine(), y)
  {
    ByteParts(y);
    TestsUpper(y);
    TestsLower(y);
  }

  /** No bit at the mask or to the right of it. */
  predicate ClearFrom(m: bv64, x: bv64) { (m | (m - 1)) & x == 0 }

  lemma ClearOneMore(m: bv64, x: bv64)
    requires Single(m) && Next(m) != 0 && !Meets(m, x) && ClearFrom(Next(m), x)
    ensures ClearFrom(m, x)
  {}

  lemma {:induction false} NoneBelow(k: nat, x: bv64)
    requires k < 64 && forall j: nat {:trigger MaskAt(j)} :: k <= j < 64 ==> !Meets(MaskAt(j), x)
    ensures ClearFrom(MaskAt(k), x)
    decreases 64 - k
  {
    if k == 63 {
      LastMasks();
      ClearLast(x);
    } else {
      NoneBelow(k + 1, x);
      MaskSingle(k);
      MaskThere(k + 1);
      ClearOneMore(MaskAt(k), x);
    }
  }

  lemma ClearLast(x: bv64)
    ensures !Meets(1, x) ==> ClearFrom(1, x)
  {}

  lemma AllBelowFirst(x: bv64)
    requires ClearFrom(0x8000_0000_0000_0000, x)
    ensures x == 0
  {}

  lemma MachineZero(x: bv64)
    ensures ZeroLaw(Machine(), x)
  {
    if forall k: nat :: k < 64 ==> !Machine().meets(Machine().mask(k), x) {
      forall j: nat | j < 64 ensures !Meets(MaskAt(j), x) { assert !Machine().meets(Machine().mask(j), x); }
      NoneBelow(0, x);
      AllBelowFirst(x);
    }
  }

  lemma MachineLawful()
    ensures WordsLawful(Bytes(), Machine())
  {
    forall x: bv64, y: bv8, k: nat ensures LoadLaw(Bytes(), Machine(), x, y, k) { MachineLoad(x, y, k); }
    forall t: seq<bv8> ensures ReadLaw(Machine(), t) { MachineRead(t); }
    forall y: bv8 ensures ByteLaw(Bytes(), Machine(), y) { MachineByte(y); }
    forall k: nat ensures MaskLaw(Machine(), k) { MaskMoves(k); }
    forall x: bv64 ensures ZeroLaw(Machine(), x) { MachineZero(x); }
  }
}
