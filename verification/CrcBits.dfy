/**
 The register operations of the two checksums, and the laws they keep.
 */
module CrcBits {
  import opened CrcTables
  import opened Crc

  // -------------------------------------------------------------------- CRC-16

  function Xor16(a: bv16, b: bv16): bv16 { a ^ b }

  function Shift16(a: bv16): bv16 { a << 1 }

  predicate Clear16(a: bv16) { a & 0x8000 == 0 }

  function Lift16(b: bv8): bv16 { (b as bv16) << 8 }

  function Index16(c: bv16, b: bv8): bv8 { ((c >> 8) as bv8) ^ b }

  function Rest16(c: bv16): bv16 { c & 0xff }

  function Drop16(c: bv16): bv16 { c << 8 }

  function Ops16(): Ops<bv16, bv8> {
    Ops(Step16, Xor16, Shift16, Clear16, Lift16, Index16, Rest16, Drop16, Table16)
  }

  lemma ShiftXor16(a: bv16, b: bv16)
    ensures Shift16(Xor16(a, b)) == Xor16(Shift16(a), Shift16(b))
  {}

  lemma XorPoly16(a: bv16, b: bv16)
    ensures Xor16(Xor16(a, b), 0x1021) == Xor16(Xor16(a, 0x1021), b)
  {}

  lemma ClearXor16(d: bv16, x: bv16)
    requires Clear16(x)
    ensures Clear16(Xor16(d, x)) <==> Clear16(d)
  {}

  lemma OddStep16(c: bv16)
    requires !Clear16(c)
    ensures Step16(c) == Xor16(Shift16(c), 0x1021)
  {}

  lemma EvenStep16(c: bv16)
    requires Clear16(c)
    ensures Step16(c) == Shift16(c)
  {}

  /** A clear bit at the end of `x` leaves the polynomial to `d`. */
  lemma StepOver16(d: bv16, x: bv16)
    requires Clear16(x)
    ensures Step16(Xor16(d, x)) == Xor16(Step16(d), Shift16(x))
  {
    ClearXor16(d, x);
    ShiftXor16(d, x);
    if Clear16(d) {
      EvenStep16(d);
      EvenStep16(Xor16(d, x));
    } else {
      OddStep16(d);
      OddStep16(Xor16(d, x));
      XorPoly16(Shift16(d), Shift16(x));
    }
  }

  lemma StepXor16(d: bv16, x: bv16)
    ensures Ops16().step(Ops16().xor(d, x)) == Step16(Xor16(d, x))
  {}

  lemma XorStep16(d: bv16, x: bv16)
    ensures Ops16().xor(Ops16().step(d), Ops16().shift(x)) == Xor16(Step16(d), Shift16(x))
  {}

  lemma StepLaw16(d: bv16, x: bv16)
    ensures StepLaw(Ops16(), d, x)
  {
    if Ops16().clear(x) {
      StepXor16(d, x);
      XorStep16(d, x);
      StepOver16(d, x);
    }
  }

  lemma SwapLaw16(d: bv16, x: bv16)
    ensures SwapLaw(Ops16(), d, x)
  {}

  lemma TableLaw16(i: bv8)
    ensures TableLaw(Ops16(), i)
  {
    Table16Bits(i);
  }

  lemma SplitLaw16(c: bv16, b: bv8)
    ensures SplitLaw(Ops16(), c, b)
  {}

  lemma RestLaw16(c: bv16)
    ensures RestLaw(Ops16(), c)
  {}

  /** CRC-16/XMODEM: the table of crc16.c belongs to x^16 + x^12 + x^5 + 1. */
  lemma Laws16()
    ensures Laws(Ops16())
  {
    forall d: bv16, x: bv16 ensures StepLaw(Ops16(), d, x) { StepLaw16(d, x); }
    forall d: bv16, x: bv16 ensures SwapLaw(Ops16(), d, x) { SwapLaw16(d, x); }
    forall i: bv8 ensures TableLaw(Ops16(), i) { TableLaw16(i); }
    forall c: bv16, b: bv8 ensures SplitLaw(Ops16(), c, b) { SplitLaw16(c, b); }
    forall c: bv16 ensures RestLaw(Ops16(), c) { RestLaw16(c); }
  }

  // -------------------------------------------------------------------- CRC-64

  function Xor64(a: bv64, b: bv64): bv64 { a ^ b }

  function Shift64(a: bv64): bv64 { a >> 1 }

  predicate Clear64(a: bv64) { a & 1 == 0 }

  function Lift64(b: bv8): bv64 { b as bv64 }

  function Index64(c: bv64, b: bv8): bv8 { ((c & 0xff) as bv8) ^ b }

  function Rest64(c: bv64): bv64 { c & 0xffff_ffff_ffff_ff00 }

  function Drop64(c: bv64): bv64 { c >> 8 }

  function Ops64(): Ops<bv64, bv8> {
    Ops(Step64, Xor64, Shift64, Clear64, Lift64, Index64, Rest64, Drop64, Table64)
  }

  lemma ShiftXor64(a: bv64, b: bv64)
    ensures Shift64(Xor64(a, b)) == Xor64(Shift64(a), Shift64(b))
  {}

  lemma XorPoly64(a: bv64, b: bv64)
    ensures Xor64(Xor64(a, b), 0x95ac9329ac4bc9b5) == Xor64(Xor64(a, 0x95ac9329ac4bc9b5), b)
  {}

  lemma ClearXor64(d: bv64, x: bv64)
    requires Clear64(x)
    ensures Clear64(Xor64(d, x)) <==> Clear64(d)
  {}

  lemma OddStep64(c: bv64)
    requires !Clear64(c)
    ensures Step64(c) == Xor64(Shift64(c), 0x95ac9329ac4bc9b5)
  {}

  lemma EvenStep64(c: bv64)
    requires Clear64(c)
    ensures Step64(c) == Shift64(c)
  {}

  /** A clear bit at the end of `x` leaves the polynomial to `d`. */
  lemma StepOver64(d: bv64, x: bv64)
    requires Clear64(x)
    ensures Step64(Xor64(d, x)) == Xor64(Step64(d), Shift64(x))
  {
    ClearXor64(d, x);
    ShiftXor64(d, x);
    if Clear64(d) {
      EvenStep64(d);
      EvenStep64(Xor64(d, x));
    } else {
      OddStep64(d);
      OddStep64(Xor64(d, x));
      XorPoly64(Shift64(d), Shift64(x));
    }
  }

  lemma StepXor64(d: bv64, x: bv64)
    ensures Ops64().step(Ops64().xor(d, x)) == Step64(Xor64(d, x))
  {}

  lemma XorStep64(d: bv64, x: bv64)
    ensures Ops64().xor(Ops64().step(d), Ops64().shift(x)) == Xor64(Step64(d), Shift64(x))
  {}

  lemma StepLaw64(d: bv64, x: bv64)
    ensures StepLaw(Ops64(), d, x)
  {
    if Ops64().clear(x) {
      StepXor64(d, x);
      XorStep64(d, x);
      StepOver64(d, x);
    }
  }

  lemma SwapLaw64(d: bv64, x: bv64)
    ensures SwapLaw(Ops64(), d, x)
  {}

  lemma TableLaw64(i: bv8)
    ensures TableLaw(Ops64(), i)
  {
    Table64Bits(i);
  }

  lemma SplitLaw64(c: bv64, b: bv8)
    ensures SplitLaw(Ops64(), c, b)
  {}

  lemma RestLaw64(c: bv64)
    ensures RestLaw(Ops64(), c)
  {}

  /** The table of crc64.c belongs to the Jones polynomial, reflected. */
  lemma Laws64()
    ensures Laws(Ops64())
  {
    forall d: bv64, x: bv64 ensures StepLaw(Ops64(), d, x) { StepLaw64(d, x); }
    forall d: bv64, x: bv64 ensures SwapLaw(Ops64(), d, x) { SwapLaw64(d, x); }
    forall i: bv8 ensures TableLaw(Ops64(), i) { TableLaw64(i); }
    forall c: bv64, b: bv8 ensures SplitLaw(Ops64(), c, b) { SplitLaw64(c, b); }
    forall c: bv64 ensures RestLaw(Ops64(), c) { RestLaw64(c); }
  }

  lemma StepInjective64(a: bv64, b: bv64)
    requires Step64(a) == Step64(b)
    ensures a == b
  {}

  lemma XorInjective64(c: bv64, a: bv64, b: bv64)
    ensures c ^ a == c ^ b ==> a == b
    ensures a ^ c == b ^ c ==> a == b
  {}

  lemma LiftInjective64(a: bv8, b: bv8)
    ensures a as bv64 == b as bv64 ==> a == b
  {}

  lemma Reversible64()
    ensures Reversible(Ops64())
  {
    var o := Ops64();
    forall a: bv64, b: bv64 | o.step(a) == o.step(b) ensures a == b { StepInjective64(a, b); }
    forall c: bv64, a: bv64, b: bv64 | o.xor(c, a) == o.xor(c, b) ensures a == b { XorInjective64(c, a, b); }
    forall c: bv64, a: bv64, b: bv64 | o.xor(a, c) == o.xor(b, c) ensures a == b { XorInjective64(c, a, b); }
    forall a: bv8, b: bv8 | o.lift(a) == o.lift(b) ensures a == b { LiftInjective64(a, b); }
  }
}
