/** Bytes as bit vectors, with the masks and shifts of the server. */
module ByteBits {
  import opened Bitfield

  function Mask(k: nat): bv8 {
    if k == 0 then 0x80 else if k == 1 then 0x40 else if k == 2 then 0x20 else if k == 3 then 0x10
    else if k == 4 then 0x08 else if k == 5 then 0x04 else if k == 6 then 0x02 else 0x01
  }

  predicate Test(v: bv8, k: nat) { v & Mask(k) != 0 }

  /** Bit `k` is the one that a shift by `7 - k` brings to the end. */
  lemma TestIs(v: bv8)
    ensures Test(v, 0) <==> (v >> 7) & 1 == 1
    ensures Test(v, 1) <==> (v >> 6) & 1 == 1
    ensures Test(v, 2) <==> (v >> 5) & 1 == 1
    ensures Test(v, 3) <==> (v >> 4) & 1 == 1
    ensures Test(v, 4) <==> (v >> 3) & 1 == 1
    ensures Test(v, 5) <==> (v >> 2) & 1 == 1
    ensures Test(v, 6) <==> (v >> 1) & 1 == 1
    ensures Test(v, 7) <==> v & 1 == 1
  {}

  function SetTo(v: bv8, k: nat, b: bool): bv8 { if b then (v & !Mask(k)) | Mask(k) else v & !Mask(k) }

  function Bytes(): Bits<bv8> { Bits(0, Test, SetTo) }

  lemma MasksApart(v: bv8, m: bv8, n: bv8)
    ensures m & n == 0 ==> ((v & !m) | m) & n == v & n && (v & !m) & n == v & n
    ensures ((v & !m) | m) & m == m && (v & !m) & m == 0
  {}

  lemma MasksDiffer(k: nat, l: nat)
    requires k < 8 && l < 8
    ensures Mask(k) != 0 && (k != l ==> Mask(k) & Mask(l) == 0)
  {}

  lemma BytesSetLaw(v: bv8, k: nat, b: bool, l: nat)
    ensures SetLaw(Bytes(), v, k, b, l)
  {
    if k < 8 && l < 8 {
      MasksDiffer(k, l);
      SetThenTest(v, k, b, l, Mask(k), Mask(l));
    }
  }

  lemma SetThenTest(v: bv8, k: nat, b: bool, l: nat, m: bv8, n: bv8)
    requires k < 8 && l < 8 && m == Mask(k) && n == Mask(l) && m != 0 && (k != l ==> m & n == 0)
    ensures Test(SetTo(v, k, b), l) == if k == l then b else Test(v, l)
  {
    MasksApart(v, m, n);
  }

  lemma ZeroTests(k: nat)
    ensures !Test(0, k)
  {}

  lemma BytesLawful()
    ensures Lawful(Bytes())
  {
    forall v: bv8, k: nat, b: bool, l: nat ensures SetLaw(Bytes(), v, k, b, l) { BytesSetLaw(v, k, b, l); }
    forall k: nat | k < 8 ensures !Bytes().test(Bytes().zero, k) { ZeroTests(k); }
  }
}
