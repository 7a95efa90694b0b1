/**
 What BITOP computes, bit by bit: a bit of the result from the same bit of every string.
 */
module BitopMeaning {
  import opened Bitop
  import opened WordOps
  import opened ByteBits

  // ---------------------------------------------------------------- one byte

  predicate One(m: bv8) { m != 0 && m & (m - 1) == 0 }

  lemma MaskAnd(a: bv8, b: bv8, m: bv8)
    requires One(m)
    ensures (a & b) & m != 0 <==> a & m != 0 && b & m != 0
  {}

  lemma MaskOr(a: bv8, b: bv8, m: bv8)
    requires One(m)
    ensures (a | b) & m != 0 <==> a & m != 0 || b & m != 0
  {}

  lemma MaskXor(a: bv8, b: bv8, m: bv8)
    requires One(m)
    ensures (a ^ b) & m != 0 <==> (a & m != 0) != (b & m != 0)
  {}

  lemma MaskNot(a: bv8, m: bv8)
    requires One(m)
    ensures !a & m != 0 <==> a & m == 0
  {}

  lemma MaskIsOne(k: nat)
    ensures One(Mask(k))
  {}

  lemma AndTest(a: bv8, b: bv8, c: bv8, k: nat)
    requires c == ByteOp(And, a, b)
    ensures Test(c, k) <==> Test(a, k) && Test(b, k)
  {
    MaskIsOne(k);
    Through(a, b, c, k, Mask(k));
    MaskAnd(a, b, Mask(k));
  }

  /** The test of three bytes, with the mask as it is. */
  lemma Through(a: bv8, b: bv8, c: bv8, k: nat, m: bv8)
    requires m == Mask(k)
    ensures (Test(a, k) <==> a & m != 0) && (Test(b, k) <==> b & m != 0) && (Test(c, k) <==> c & m != 0)
  {}

  lemma OrTest(a: bv8, b: bv8, c: bv8, k: nat)
    requires c == ByteOp(Or, a, b)
    ensures Test(c, k) <==> Test(a, k) || Test(b, k)
  {
    MaskIsOne(k);
    Through(a, b, c, k, Mask(k));
    MaskOr(a, b, Mask(k));
  }

  lemma XorTest(a: bv8, b: bv8, c: bv8, k: nat)
    requires c == ByteOp(Xor, a, b)
    ensures Test(c, k) <==> Test(a, k) != Test(b, k)
  {
    MaskIsOne(k);
    Through(a, b, c, k, Mask(k));
    MaskXor(a, b, Mask(k));
  }

  lemma NotTest(a: bv8, c: bv8, k: nat)
    requires c == Not8(a)
    ensures Test(c, k) <==> !Test(a, k)
  {
    MaskIsOne(k);
    Through(a, a, c, k, Mask(k));
    MaskNot(a, Mask(k));
  }

  lemma ByteOpBits(a: bv8, b: bv8, k: nat)
    ensures Test(ByteOp(And, a, b), k) <==> Test(a, k) && Test(b, k)
    ensures Test(ByteOp(Or, a, b), k) <==> Test(a, k) || Test(b, k)
    ensures Test(ByteOp(Xor, a, b), k) <==> Test(a, k) != Test(b, k)
    ensures Test(Not8(a), k) <==> !Test(a, k)
  {
    AndTest(a, b, ByteOp(And, a, b), k);
    OrTest(a, b, ByteOp(Or, a, b), k);
    XorTest(a, b, ByteOp(Xor, a, b), k);
    NotTest(a, Not8(a), k);
  }

  // -------------------------------------------------------------- all strings

  /** Bit `k` of byte `j`, zero past the end of the string. */
  predicate BitIn(s: seq<bv8>, j: nat, k: nat) { j < |s| && Test(s[j], k) }

  /** How many of the first `n` strings have the bit. */
  function Having(srcs: seq<seq<bv8>>, j: nat, k: nat, n: nat): nat
    requires n <= |srcs|
  {
    if n == 0 then 0 else Having(srcs, j, k, n - 1) + (if BitIn(srcs[n - 1], j, k) then 1 else 0)
  }

  lemma AtBit(s: seq<bv8>, j: nat, k: nat)
    ensures Test(At(Server(), s, j), k) <==> BitIn(s, j, k)
  {
    ZeroTests(k);
  }

  /** AND has a bit that all strings have, OR one that some string has, XOR one that an odd number of
      strings has. */
  lemma {:induction false} FoldBits(op: Op, srcs: seq<seq<bv8>>, j: nat, k: nat, n: nat)
    requires 1 <= n <= |srcs|
    ensures op.And? ==> (Test(Fold(Server(), op, srcs, j, n), k) <==> Having(srcs, j, k, n) == n)
    ensures op.Or? ==> (Test(Fold(Server(), op, srcs, j, n), k) <==> Having(srcs, j, k, n) > 0)
    ensures op.Xor? ==> (Test(Fold(Server(), op, srcs, j, n), k) <==> Having(srcs, j, k, n) % 2 == 1)
    ensures Having(srcs, j, k, n) <= n
    decreases n
  {
    AtBit(srcs[n - 1], j, k);
    if n == 1 {
      assert Having(srcs, j, k, 0) == 0;
    } else {
      FoldBits(op, srcs, j, k, n - 1);
      ByteOpBits(Fold(Server(), op, srcs, j, n - 1), At(Server(), srcs[n - 1], j), k);
    }
  }

  /** NOT has the bits that its only string has not. */
  lemma NotBits(srcs: seq<seq<bv8>>, j: nat, k: nat)
    requires |srcs| == 1
    ensures Test(Fold(Server(), Not, srcs, j, 1), k) <==> !BitIn(srcs[0], j, k)
  {
    AtBit(srcs[0], j, k);
    ByteOpBits(At(Server(), srcs[0], j), 0, k);
  }

  /** BITOP of the server: which bits the result has. */
  method BitopServer(op: Op, keys: seq<Found<bv8>>) returns (ok: bool, res: seq<bv8>, ghost srcs: seq<seq<bv8>>)
    requires keys != []
    ensures ok <==> !(op.Not? && |keys| != 1)
    ensures ok ==> |srcs| == |keys| && forall i :: 0 <= i < |keys| ==> srcs[i] == if keys[i].Present? then keys[i].s else []
    ensures ok ==> (forall i :: 0 <= i < |srcs| ==> |srcs[i]| <= |res|) && exists i :: 0 <= i < |srcs| && |srcs[i]| == |res|
    ensures ok ==> forall j: nat, k: nat :: j < |res| && k < 8 ==>
      var h := Having(srcs, j, k, |keys|);
      Test(res[j], k) == match op case And => h == |keys| case Or => h > 0 case Xor => h % 2 == 1 case Not => h == 0
  {
    ServerLawful();
    ok, res, srcs := BitopCommand(Server(), op, keys);
    if ok {
      forall j: nat, k: nat | j < |res| && k < 8
        ensures var h := Having(srcs, j, k, |keys|);
                Test(res[j], k) == match op case And => h == |keys| case Or => h > 0 case Xor => h % 2 == 1 case Not => h == 0
      {
        FoldBits(op, srcs, j, k, |keys|);
        if op.Not? {
          NotBits(srcs, j, k);
          assert Having(srcs, j, k, 0) == 0;
        }
      }
    }
  }
}
