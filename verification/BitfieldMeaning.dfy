/**
 What BITFIELD replies and stores, spelled out operation by operation and policy by policy.
 */
module BitfieldMeaning {
  import opened Basics
  import opened Bitfield
  import ByteBits

  // ----------------------------------------------------------------- numbers

  lemma PowersOfTwo(n: nat)
    ensures Pow2(0) == 1 && Pow2(n + 1) == 2 * Pow2(n) && Pow2(8) == 256
  {}

  /** A field of `n` bits holds the number below 2^n whose binary digits they are, the first bit the
      most significant. */
  lemma {:induction false} ReadDigits(f: nat -> bool, off: nat, n: nat, i: nat)
    requires i < n
    ensures Read(f, off, n) < Pow2(n)
    ensures Read(f, off, n) / Pow2(n - 1 - i) % 2 == if f(off + i) then 1 else 0
    decreases n
  {
    ReadBound(f, off, n);
    var r, b := Read(f, off, n - 1), if f(off + n - 1) then 1 else 0;
    assert Read(f, off, n) == 2 * r + b;
    if i == n - 1 {
      assert Pow2(0) == 1;
    } else {
      ReadDigits(f, off, n - 1, i);
      HalfDown(r, b, Pow2(n - 2 - i));
    }
  }

  lemma HalfDown(r: nat, b: nat, p: nat)
    requires b < 2 && p > 0
    ensures (2 * r + b) / (2 * p) == r / p
  {
    var q, m := r / p, r % p;
    assert r == p * q + m && 2 * r + b == (2 * p) * q + (2 * m + b);
    assert 0 <= 2 * m + b < 2 * p;
    Quotient(2 * r + b, 2 * p, q, 2 * m + b);
  }

  lemma Quotient(x: int, d: int, q: int, m: int)
    requires d > 0 && x == d * q + m && 0 <= m < d
    ensures x / d == q
  {
    DivModUnique(x, d, q, m);
  }

  /** Bit `i` of a string is in byte `i / 8`, the most significant first; there are only zeros
      behind the string. */
  lemma BitIs(s: seq<bv8>, i: nat)
    ensures i / 8 >= |s| ==> !BitAt(ByteBits.Bytes(), s, i)
    ensures i / 8 < |s| && i % 8 == 0 ==> (BitAt(ByteBits.Bytes(), s, i) <==> (s[i / 8] >> 7) & 1 == 1)
    ensures i / 8 < |s| && i % 8 == 7 ==> (BitAt(ByteBits.Bytes(), s, i) <==> s[i / 8] & 1 == 1)
  {
    if i / 8 < |s| { ByteBits.TestIs(s[i / 8]); }
  }

  // ------------------------------------------------------------ one operation

  /** What a field reads as: its number, or from half of its range on that number less 2^n. */
  lemma FieldIs(f: nat -> bool, op: Op)
    requires op.bits >= 1
    ensures var u := Read(f, op.offset, op.bits);
            OldValue(f, op) == if op.signed && u >= Pow2(op.bits - 1) then u - Pow2(op.bits) else u
  {}

  /** The range of a field: 0 to 2^n - 1, or -2^(n-1) to 2^(n-1) - 1. */
  lemma RangeIs(n: nat)
    requires n >= 1
    ensures Min(false, n) == 0 && Max(false, n) == Pow2(n) - 1
    ensures Min(true, n) == 0 - Pow2(n - 1) && Max(true, n) == Pow2(n - 1) - 1
  {}

  /** GET replies what the field reads as, and writes nothing. */
  lemma GetIs(f: nat -> bool, op: Op)
    requires ValidOp(op) && op.code == Get
    ensures Execute(f, op) == Effect(Some(OldValue(f, op)), f)
  {}

  /** Number `w` wanted by SET or INCRBY: the field is to read as `v` afterwards. */
  ghost predicate Stores(op: Op, w: int, v: int)
    requires op.bits >= 1
  {
    var lo, hi := if op.signed then 0 - Pow2(op.bits - 1) else 0, if op.signed then Pow2(op.bits - 1) - 1 else Pow2(op.bits) - 1;
    && lo <= v <= hi
    && (lo <= w <= hi ==> v == w)
    && (op.policy == Wrap ==> (v - w) % Pow2(op.bits) == 0)
    && (op.policy == Sat && w > hi ==> v == hi)
    && (op.policy == Sat && w < lo ==> v == lo)
  }

  /** SET wants its argument, INCRBY the old number and its argument. SET replies the old number,
      INCRBY the new one. Under FAIL a number out of range is not stored, and nothing is replied.
      Otherwise the field reads as the policy says, and no other bit changes. */
  lemma WriteIs(f: nat -> bool, op: Op, w: int)
    requires ValidOp(op) && op.code != Get
    requires w == if op.code == IncrBy then OldValue(f, op) + op.arg else if op.signed then op.arg else op.arg % TWO64
    ensures var fits := if op.signed then 0 - Pow2(op.bits - 1) <= w < Pow2(op.bits - 1) else 0 <= w < Pow2(op.bits);
            if !fits && op.policy == Fail then Execute(f, op) == Effect(None, f)
            else
              var e := Execute(f, op);
              && Stores(op, w, OldValue(e.bits, op))
              && e.reply == Some(if op.code == Set then OldValue(f, op) else OldValue(e.bits, op))
              && forall i: nat :: i < op.offset || i >= op.offset + op.bits ==> e.bits(i) == f(i)
  {
    RangeIs(op.bits);
    if !(Overflows(f, op) && op.policy.Fail?) {
      WrittenIsRead(f, op);
      SettledStores(op, w, Settle(op.signed, op.bits, w, op.policy));
    }
  }

  lemma SettledStores(op: Op, w: int, v: int)
    requires op.bits >= 1 && v == Settle(op.signed, op.bits, w, op.policy)
    requires !(op.policy.Fail? && !(Min(op.signed, op.bits) <= w <= Max(op.signed, op.bits)))
    ensures Stores(op, w, v)
  {
    RangeIs(op.bits);
    if v == w {
      DivModUnique(v - w, Pow2(op.bits), 0, 0);
    } else if op.policy.Wrap? {
      ReducedIs(op.signed, op.bits, w);
    }
  }

  lemma ReducedIs(signed: bool, n: nat, w: int)
    requires n >= 1
    ensures Min(signed, n) <= Reduced(signed, n, w) <= Max(signed, n) && (Reduced(signed, n, w) - w) % Pow2(n) == 0
  {
    SettleRange(signed, n, w);
    var d := Pow2(n);
    var m := w % d;
    Remainder(w, d, 0);
    Remainder(w, d, 1);
  }

  /** A number and its remainder, or its remainder less the divisor, differ by whole divisors. */
  lemma Remainder(w: int, d: int, k: int)
    requires d > 0
    ensures (w % d - k * d - w) % d == 0
  {
    var q := w / d;
    assert w == d * q + w % d;
    assert d * (0 - q - k) == 0 - d * q - k * d;
    DivModUnique(w % d - k * d - w, d, 0 - q - k, 0);
  }

  // ------------------------------------------------------------ all operations

  /** Operations are carried out one after the other, and replied to in order. */
  lemma {:induction false} OneMoreOperation(f: nat -> bool, ops: seq<Op>, op: Op, replies: seq<Option<int>>)
    requires ValidOp(op) && forall i :: 0 <= i < |ops| ==> ValidOp(ops[i])
    ensures ExecuteAll(f, [], replies) == Trace(replies, f)
    ensures var t := ExecuteAll(f, ops, replies);
            ExecuteAll(f, ops + [op], replies) == Trace(t.replies + [Execute(t.bits, op).reply], Execute(t.bits, op).bits)
    decreases |ops|
  {
    if ops == [] {
      assert [op][1..] == [];
      assert ops + [op] == [op];
    } else {
      assert (ops + [op])[0] == ops[0] && (ops + [op])[1..] == ops[1..] + [op];
      OneMoreOperation(Execute(f, ops[0]).bits, ops[1..], op, replies + [Execute(f, ops[0]).reply]);
    }
  }
}
