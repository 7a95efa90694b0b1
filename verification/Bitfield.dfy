/**
 Integers of 1 to 63 bits at any bit offset of a string.

 How a byte holds its bits is a parameter (`Bits`, with the law `Lawful`); `ByteBits` gives
 the masks and shifts of the server.
 */
module Bitfield {
  import opened Basics

  // ------------------------------------------------------------------ numbers

  function Pow2(n: nat): (r: nat)
    ensures r >= 1
  {
    if n == 0 then 1 else 2 * Pow2(n - 1)
  }

  /** The binary digit of weight 2^k. */
  function Digit(v: nat, k: nat): bool { v / Pow2(k) % 2 == 1 }

  lemma {:induction false} PowSplit(m: nat, n: nat)
    ensures Pow2(m + n) == Pow2(m) * Pow2(n)
    decreases m
  {
    if m > 0 {
      PowSplit(m - 1, n);
      assert Pow2(m + n) == 2 * Pow2(m - 1 + n);
      assert 2 * (Pow2(m - 1) * Pow2(n)) == (2 * Pow2(m - 1)) * Pow2(n);
    }
  }

  lemma MulStep(a: int, b: int, d: nat)
    requires a < b
    ensures a * d + d <= b * d
  {
    assert b * d == a * d + d + (b - a - 1) * d;
    assert (b - a - 1) * d >= 0;
  }

  lemma DivModUnique(v: int, d: nat, q: int, r: int)
    requires d >= 1 && v == q * d + r && 0 <= r < d
    ensures v / d == q && v % d == r
  {
    var p := v / d;
    assert v == p * d + v % d;
    if q < p { MulStep(q, p, d); } else if p < q { MulStep(p, q, d); }
  }

  /** The higher digits of a number are those of its half. */
  lemma DigitHalf(v: nat, k: nat)
    ensures Digit(v, k + 1) == Digit(v / 2, k)
  {
    var d := Pow2(k);
    var h, b := v / 2, v % 2;
    var q, r := h / d, h % d;
    assert v == q * (2 * d) + (2 * r + b) by {
      assert h == q * d + r;
      assert 2 * (q * d) == q * (2 * d);
    }
    DivModUnique(v, 2 * d, q, 2 * r + b);
  }

  lemma ModDouble(v: nat, d: nat)
    requires d >= 1
    ensures v % (2 * d) == 2 * (v / 2 % d) + v % 2
  {
    var h, b := v / 2, v % 2;
    var q, r := h / d, h % d;
    assert v == q * (2 * d) + (2 * r + b) by {
      assert h == q * d + r;
      assert 2 * (q * d) == q * (2 * d);
    }
    DivModUnique(v, 2 * d, q, 2 * r + b);
  }

  /** Reducing first by a multiple changes nothing. */
  lemma ModMod(v: int, d: nat, k: nat)
    requires d >= 1 && k >= 1
    ensures d * k >= 1 && v % (d * k) % d == v % d
  {
    MulStep(0, k, d);
    var m := d * k;
    assert m == k * d;
    var q, r := v / m, v % m;
    var q2, r2 := r / d, r % d;
    assert v == q * m + r && r == q2 * d + r2;
    assert q * m == (q * k) * d;
    assert v == (q * k + q2) * d + r2 by {
      assert (q * k) * d + q2 * d == (q * k + q2) * d;
    }
    DivModUnique(v, d, q * k + q2, r2);
  }

  // ------------------------------------------------- reading and writing bits

  /** The number in `n` bits from `off`, most significant first. */
  ghost function Read(f: nat -> bool, off: nat, n: nat): nat {
    if n == 0 then 0 else 2 * Read(f, off, n - 1) + (if f(off + n - 1) then 1 else 0)
  }

  /** The bits with `n` of them, from `off`, holding a number. */
  ghost function Put(f: nat -> bool, off: nat, n: nat, v: nat): nat -> bool {
    (i: nat) => if off <= i < off + n then Digit(v, off + n - 1 - i) else f(i)
  }

  ghost predicate Holds(f: nat -> bool, off: nat, n: nat, v: nat) {
    forall i: nat {:trigger f(i)} :: off <= i < off + n ==> f(i) == Digit(v, off + n - 1 - i)
  }

  lemma {:induction false} ReadHeld(f: nat -> bool, off: nat, n: nat, v: nat)
    requires Holds(f, off, n, v)
    ensures Read(f, off, n) == v % Pow2(n)
    decreases n
  {
    if n > 0 {
      forall i: nat | off <= i < off + n - 1 ensures f(i) == Digit(v / 2, off + n - 2 - i) {
        DigitHalf(v, off + n - 2 - i);
      }
      ReadHeld(f, off, n - 1, v / 2);
      ModDouble(v, Pow2(n - 1));
      assert f(off + n - 1) == Digit(v, 0);
    }
  }

  /** What was put is read back, reduced to the width. */
  lemma ReadPut(f: nat -> bool, off: nat, n: nat, v: nat)
    ensures Read(Put(f, off, n, v), off, n) == v % Pow2(n)
  {
    ReadHeld(Put(f, off, n, v), off, n, v);
  }

  /** A field that does not meet the one written keeps its number. */
  lemma {:induction false} ReadElsewhere(f: nat -> bool, off: nat, n: nat, v: nat, off2: nat, m: nat)
    requires off2 + m <= off || off + n <= off2
    ensures Read(Put(f, off, n, v), off2, m) == Read(f, off2, m)
    decreases m
  {
    if m > 0 { ReadElsewhere(f, off, n, v, off2, m - 1); }
  }

  lemma {:induction false} ReadSame(f: nat -> bool, g: nat -> bool, off: nat, off2: nat, n: nat)
    requires forall i: nat {:trigger f(i)} :: off <= i < off + n ==> f(i) == g(i - off + off2)
    ensures Read(f, off, n) == Read(g, off2, n)
    decreases n
  {
    if n > 0 {
      ReadSame(f, g, off, off2, n - 1);
      assert f(off + n - 1) == g(off2 + n - 1);
    }
  }

  lemma {:induction false} ReadBound(f: nat -> bool, off: nat, n: nat)
    ensures Read(f, off, n) < Pow2(n)
    decreases n
  {
    if n > 0 { ReadBound(f, off, n - 1); }
  }

  // ---------------------------------------------------------- two's complement

  /** The signed reading of `n` bits. */
  function Signed(u: nat, n: nat): int
    requires n >= 1
  {
    if u >= Pow2(n - 1) then u - Pow2(n) else u
  }

  function Greatest(n: nat): int
    requires n >= 1
  {
    Pow2(n - 1) - 1
  }

  function Least(n: nat): int
    requires n >= 1
  {
    0 - Pow2(n - 1)
  }

  lemma SignedInRange(u: nat, n: nat)
    requires n >= 1 && u < Pow2(n)
    ensures Least(n) <= Signed(u, n) <= Greatest(n) && Signed(u, n) % Pow2(n) == u
  {
    var v, d := Signed(u, n), Pow2(n);
    if u >= Pow2(n - 1) {
      DivModUnique(v, d, -1, u);
    } else {
      DivModUnique(v, d, 0, u);
    }
  }

  /** A number in range survives being reduced and read back. */
  lemma SignedRoundTrip(v: int, n: nat)
    requires n >= 1 && Least(n) <= v <= Greatest(n)
    ensures Signed(v % Pow2(n), n) == v
  {
    if v >= 0 {
      DivModUnique(v, Pow2(n), 0, v);
    } else {
      DivModUnique(v, Pow2(n), -1, v + Pow2(n));
    }
  }

  // ----------------------------------------------------------------- overflow

  datatype Policy = Wrap | Sat | Fail

  const TWO64: nat := 0x1_0000_0000_0000_0000
  const TWO63: nat := 0x8000_0000_0000_0000

  function Max(signed: bool, n: nat): int
    requires n >= 1
  {
    if signed then Greatest(n) else Pow2(n) - 1
  }

  function Min(signed: bool, n: nat): int
    requires n >= 1
  {
    if signed then Least(n) else 0
  }

  /** The number in range that has the same low bits. */
  function Reduced(signed: bool, n: nat, v: int): int
    requires n >= 1
  {
    if signed then Signed(v % Pow2(n), n) else v % Pow2(n)
  }

  /** What the policy makes of a sum. */
  function Settle(signed: bool, n: nat, v: int, p: Policy): (stored: int)
    requires n >= 1
    ensures p.Fail? || Min(signed, n) <= stored <= Max(signed, n)
    ensures Min(signed, n) <= v <= Max(signed, n) ==> stored == v
  {
    SettleRange(signed, n, v);
    if Min(signed, n) <= v <= Max(signed, n) || p.Fail? then v
    else if p.Wrap? then Reduced(signed, n, v)
    else if v > Max(signed, n) then Max(signed, n) else Min(signed, n)
  }

  lemma SettleRange(signed: bool, n: nat, v: int)
    requires n >= 1
    ensures Min(signed, n) <= Reduced(signed, n, v) <= Max(signed, n)
  {
    SignedInRange(v % Pow2(n), n);
  }

  lemma {:induction false} PowMono(m: nat, n: nat)
    requires m <= n
    ensures Pow2(m) <= Pow2(n)
    decreases n
  {
    if m < n { PowMono(m, n - 1); }
  }

  lemma Pow63()
    ensures Pow2(63) == TWO63 && Pow2(64) == TWO64
  {
    assert Pow2(7) == 128;
    PowSplit(7, 1);
    PowSplit(8, 8);
    PowSplit(16, 16);
    PowSplit(32, 16);
    PowSplit(48, 8);
    PowSplit(56, 7);
    PowSplit(56, 8);
  }

  lemma WidthBound(n: nat)
    requires 1 <= n <= 63
    ensures Pow2(n) <= TWO63 && Pow2(n - 1) <= TWO63 / 2 && Pow2(n) == 2 * Pow2(n - 1)
    ensures TWO64 == Pow2(n) * Pow2(64 - n)
  {
    Pow63();
    PowMono(n, 63);
    PowSplit(n, 64 - n);
  }

  /** The code's result: 1, -1 or 0, and the limit where it sets one. */
  datatype Checked = Checked(overflow: int, limit: int)

  /** checkUnsignedBitfieldOverflow. */
  method CheckUnsigned(value: nat, incr: int, n: nat, p: Policy) returns (r: Checked)
    requires 1 <= n <= 63 && value < TWO64 && 0 - TWO63 <= incr < TWO63
    ensures r.overflow != 0 <==> !(0 <= value + incr <= Max(false, n)) || value > Max(false, n)
    ensures value <= Max(false, n) && !p.Wrap? ==> (r.overflow == 1 <==> value + incr > Max(false, n))
    ensures r.overflow != 0 && !p.Fail? && (value <= Max(false, n) || incr == 0) ==>
      r.limit == Settle(false, n, value + incr, p)
  {
    WidthBound(n);
    var max := Pow2(n) - 1;
    var maxincr, minincr := max - value, 0 - value;
    var wrapped := (value + incr) % TWO64 % Pow2(n);
    ModMod(value + incr, Pow2(n), Pow2(64 - n));
    if value > max || (incr > 0 && incr > maxincr) {
      return Checked(1, if p.Wrap? then wrapped else max);
    } else if incr < 0 && incr < minincr {
      return Checked(if p.Wrap? then 1 else -1, if p.Wrap? then wrapped else 0);
    }
    return Checked(0, 0);
  }

  /** The differences the code forms stay within 64 bits. */
  predicate Defined(value: int, n: nat)
    requires n >= 1
  {
    && 0 - TWO63 <= value < TWO63
    && 0 - TWO63 <= Greatest(n) - value < TWO63 && 0 - TWO63 <= Least(n) - value < TWO63
  }

  /** checkSignedBitfieldOverflow. */
  method CheckSigned(value: int, incr: int, n: nat, p: Policy) returns (r: Checked)
    requires 1 <= n <= 63 && Defined(value, n) && 0 - TWO63 <= incr < TWO63
    ensures r.overflow != 0 <==>
      !(Least(n) <= value + incr <= Greatest(n)) || !(Least(n) <= value <= Greatest(n))
    ensures (Least(n) <= value <= Greatest(n) || incr == 0) && !p.Wrap? ==>
      (r.overflow == 1 <==> value + incr > Greatest(n))
    ensures r.overflow != 0 && !p.Fail? && (Least(n) <= value <= Greatest(n) || incr == 0) ==>
      r.limit == Settle(true, n, value + incr, p)
  {
    WidthBound(n);
    var max := Pow2(n - 1) - 1;
    var min := 0 - max - 1;
    var maxincr, minincr := max - value, min - value;
    var c := (value + incr) % TWO64;
    ModMod(value + incr, Pow2(n), Pow2(64 - n));
    var low := c % Pow2(n);
    var wrapped := if low >= Pow2(n - 1) then low - Pow2(n) else low;
    if value > max || incr > maxincr || (value >= 0 && incr > 0 && incr > maxincr) {
      return Checked(1, if p.Wrap? then wrapped else max);
    } else if value < min || incr < minincr || (value < 0 && incr < 0 && incr < minincr) {
      return Checked(if p.Wrap? then 1 else -1, if p.Wrap? then wrapped else min);
    }
    return Checked(0, 0);
  }

  // ------------------------------------------------------------- bytes in place

  /** How a byte holds eight bits: bit 0 is the most significant. */
  datatype Bits<!B> = Bits(zero: B, test: (B, nat) -> bool, set_: (B, nat, bool) -> B)

  ghost predicate SetLaw<B>(o: Bits<B>, v: B, k: nat, b: bool, l: nat) {
    k < 8 && l < 8 ==> o.test(o.set_(v, k, b), l) == (if k == l then b else o.test(v, l))
  }

  ghost predicate Lawful<B(!new)>(o: Bits<B>) {
    && (forall v: B, k: nat, b: bool, l: nat {:trigger SetLaw(o, v, k, b, l)} :: SetLaw(o, v, k, b, l))
    && (forall k: nat {:trigger o.test(o.zero, k)} :: k < 8 ==> !o.test(o.zero, k))
  }

  /** The bits of a string, followed by zeros for ever. */
  ghost function BitAt<B>(o: Bits<B>, s: seq<B>, i: nat): bool { i / 8 < |s| && o.test(s[i / 8], i % 8) }

  ghost function BitsOf<B>(o: Bits<B>, s: seq<B>): nat -> bool { (i: nat) => BitAt(o, s, i) }

  ghost predicate Agrees<B>(o: Bits<B>, s: seq<B>, f: nat -> bool) {
    forall i: nat {:trigger f(i)} :: f(i) == BitAt(o, s, i)
  }

  lemma SetOneBit<B(!new)>(o: Bits<B>, s: seq<B>, at: nat, b: bool, i: nat)
    requires Lawful(o) && at / 8 < |s|
    ensures BitAt(o, s[at / 8 := o.set_(s[at / 8], at % 8, b)], i) == if i == at then b else BitAt(o, s, i)
  {
    assert SetLaw(o, s[at / 8], at % 8, b, i % 8);
    assert i / 8 == at / 8 && i % 8 == at % 8 ==> i == at;
  }

  /** setUnsignedBitfield: one bit after the other, most significant first. */
  method SetUnsigned<B(!new)>(o: Bits<B>, p: array<B>, offset: nat, n: nat, value: nat)
    requires Lawful(o) && (n > 0 ==> (offset + n - 1) / 8 < p.Length)
    modifies p
    ensures forall i: nat ::
      BitAt(o, p[..], i) == (if offset <= i < offset + n then Digit(value, offset + n - 1 - i) else old(BitAt(o, p[..], i)))
  {
    var at, j := offset, 0;
    while j < n
      invariant 0 <= j <= n && at == offset + j
      invariant forall i: nat ::
        BitAt(o, p[..], i) == (if offset <= i < at then Digit(value, offset + n - 1 - i) else old(BitAt(o, p[..], i)))
    {
      var bitval := value / Pow2(n - 1 - j) % 2 == 1;
      ghost var before := p[..];
      p[at / 8] := o.set_(p[at / 8], at % 8, bitval);
      assert p[..] == before[at / 8 := o.set_(before[at / 8], at % 8, bitval)];
      forall i: nat ensures BitAt(o, p[..], i) == if i == at then bitval else BitAt(o, before, i) {
        SetOneBit(o, before, at, bitval, i);
      }
      at, j := at + 1, j + 1;
    }
  }

  /** getUnsignedBitfield. */
  method GetUnsigned<B>(o: Bits<B>, p: seq<B>, offset: nat, n: nat) returns (value: nat)
    requires n > 0 ==> (offset + n - 1) / 8 < |p|
    ensures value == Read(BitsOf(o, p), offset, n)
  {
    value := 0;
    var at, j := offset, 0;
    while j < n
      invariant 0 <= j <= n && at == offset + j && value == Read(BitsOf(o, p), offset, j)
    {
      var bit := if o.test(p[at / 8], at % 8) then 1 else 0;
      value := 2 * value + bit;
      at, j := at + 1, j + 1;
    }
  }

  /** getSignedBitfield: a set top bit is propagated upwards. */
  method GetSigned<B>(o: Bits<B>, p: seq<B>, offset: nat, n: nat) returns (value: int)
    requires n >= 1 && (offset + n - 1) / 8 < |p|
    ensures value == Signed(Read(BitsOf(o, p), offset, n), n)
  {
    var u := GetUnsigned(o, p, offset, n);
    value := if u >= Pow2(n - 1) then u - Pow2(n) else u;
  }

  // --------------------------------------------------------------- the command

  datatype Code = Get | Set | IncrBy

  datatype Op = Op(code: Code, signed: bool, bits: nat, offset: nat, arg: int, policy: Policy)

  predicate ValidOp(op: Op) {
    && 1 <= op.bits <= 63 && 0 - TWO63 <= op.arg < TWO63
    && (op.code.Set? && op.signed ==> Defined(op.arg, op.bits))
  }

  predicate Writes(op: Op) { !op.code.Get? }

  ghost function OldValue(f: nat -> bool, op: Op): int
    requires op.bits >= 1
  {
    var u := Read(f, op.offset, op.bits);
    if op.signed then Signed(u, op.bits) else u
  }

  /** The number an operation wants to store. An unsigned SET takes its argument as 64 bits. */
  ghost function Wanted(f: nat -> bool, op: Op): int
    requires op.bits >= 1
  {
    if op.code.IncrBy? then OldValue(f, op) + op.arg else if op.signed then op.arg else op.arg % TWO64
  }

  ghost predicate Overflows(f: nat -> bool, op: Op)
    requires op.bits >= 1
  {
    !(Min(op.signed, op.bits) <= Wanted(f, op) <= Max(op.signed, op.bits))
  }

  datatype Effect = Effect(reply: Option<int>, bits: nat -> bool)

  /** One operation on a string of bits that has no end. */
  ghost function Execute(f: nat -> bool, op: Op): Effect
    requires op.bits >= 1
  {
    if op.code.Get? then Effect(Some(OldValue(f, op)), f)
    else if Overflows(f, op) && op.policy.Fail? then Effect(None, f)
    else
      var v := Settle(op.signed, op.bits, Wanted(f, op), op.policy);
      Effect(Some(if op.code.IncrBy? then v else OldValue(f, op)), Put(f, op.offset, op.bits, v % TWO64))
  }

  datatype Trace = Trace(replies: seq<Option<int>>, bits: nat -> bool)

  ghost function ExecuteAll(f: nat -> bool, ops: seq<Op>, replies: seq<Option<int>>): Trace
    requires forall i :: 0 <= i < |ops| ==> ValidOp(ops[i])
    decreases |ops|
  {
    if ops == [] then Trace(replies, f)
    else
      assert ValidOp(ops[0]);
      ExecuteAll(Execute(f, ops[0]).bits, ops[1..], replies + [Execute(f, ops[0]).reply])
  }

  /** Reading the field of an operation after it wrote: the stored number is there. */
  lemma WrittenIsRead(f: nat -> bool, op: Op)
    requires ValidOp(op) && Writes(op) && !(Overflows(f, op) && op.policy.Fail?)
    ensures var g := Execute(f, op).bits;
            OldValue(g, op) == Settle(op.signed, op.bits, Wanted(f, op), op.policy)
  {
    var v := Settle(op.signed, op.bits, Wanted(f, op), op.policy);
    ReadPut(f, op.offset, op.bits, v % TWO64);
    WidthBound(op.bits);
    ModMod(v, Pow2(op.bits), Pow2(64 - op.bits));
    if op.signed { SignedRoundTrip(v, op.bits); } else { DivModUnique(v, Pow2(op.bits), 0, v); }
  }

  /** Fields apart from the written one keep their numbers. */
  lemma OthersKeep(f: nat -> bool, op: Op, off: nat, n: nat)
    requires ValidOp(op) && (off + n <= op.offset || op.offset + op.bits <= off)
    ensures Read(Execute(f, op).bits, off, n) == Read(f, off, n)
  {
    if Writes(op) && !(Overflows(f, op) && op.policy.Fail?) {
      ReadElsewhere(f, op.offset, op.bits, Settle(op.signed, op.bits, Wanted(f, op), op.policy) % TWO64, off, n);
    }
  }

  lemma ReadAgrees<B>(o: Bits<B>, s: seq<B>, f: nat -> bool, off: nat, n: nat)
    requires Agrees(o, s, f)
    ensures Read(f, off, n) == Read(BitsOf(o, s), off, n)
  {
    ReadSame(f, BitsOf(o, s), off, off, n);
  }

  /** The new value of a write: what to store and whether the range was left. */
  method NewValue(signed: bool, n: nat, base: int, incr: int, p: Policy) returns (v: int, over: bool)
    requires 1 <= n <= 63 && 0 - TWO63 <= incr < TWO63
    requires if signed then Defined(base, n) else 0 <= base < TWO64
    requires incr == 0 || Min(signed, n) <= base <= Max(signed, n)
    ensures over <==> !(Min(signed, n) <= base + incr <= Max(signed, n))
    ensures !(over && p.Fail?) ==> v == Settle(signed, n, base + incr, p)
  {
    WidthBound(n);
    var r: Checked;
    if signed {
      r := CheckSigned(base, incr, n, p);
    } else {
      r := CheckUnsigned(base, incr, n, p);
    }
    over := r.overflow != 0;
    v := if over then r.limit else base + incr;
  }

  lemma InRangeDefined(v: int, n: nat)
    requires 1 <= n <= 63 && Least(n) <= v <= Greatest(n)
    ensures Defined(v, n)
  {
    WidthBound(n);
  }

  /** The old value, the new one, and whether it leaves the range. */
  method Compute<B>(o: Bits<B>, p: seq<B>, op: Op, ghost f: nat -> bool) returns (oldval: int, v: int, over: bool)
    requires ValidOp(op) && Writes(op) && Agrees(o, p, f) && (op.offset + op.bits - 1) / 8 < |p|
    ensures oldval == OldValue(f, op) && over == Overflows(f, op)
    ensures !(over && op.policy.Fail?) ==> v == Settle(op.signed, op.bits, Wanted(f, op), op.policy)
  {
    oldval := GetOld(o, p, op, f);
    if op.code.IncrBy? {
      v, over := NewValue(op.signed, op.bits, oldval, op.arg, op.policy);
    } else {
      v, over := NewValue(op.signed, op.bits, if op.signed then op.arg else op.arg % TWO64, 0, op.policy);
    }
  }

  method GetOld<B>(o: Bits<B>, p: seq<B>, op: Op, ghost f: nat -> bool) returns (oldval: int)
    requires ValidOp(op) && Agrees(o, p, f) && (op.offset + op.bits - 1) / 8 < |p|
    ensures oldval == OldValue(f, op) && Min(op.signed, op.bits) <= oldval <= Max(op.signed, op.bits)
    ensures if op.signed then Defined(oldval, op.bits) else 0 <= oldval < TWO64
  {
    ReadAgrees(o, p, f, op.offset, op.bits);
    ReadBound(f, op.offset, op.bits);
    WidthBound(op.bits);
    SignedInRange(Read(f, op.offset, op.bits), op.bits);
    if op.signed {
      oldval := GetSigned(o, p, op.offset, op.bits);
      InRangeDefined(oldval, op.bits);
    } else {
      oldval := GetUnsigned(o, p, op.offset, op.bits);
    }
  }

  /** SET and INCRBY. */
  method ExecuteWrite<B(!new)>(o: Bits<B>, p: array<B>, op: Op, ghost f: nat -> bool) returns (reply: Option<int>)
    requires Lawful(o) && ValidOp(op) && Writes(op) && Agrees(o, p[..], f)
    requires (op.offset + op.bits - 1) / 8 < p.Length
    modifies p
    ensures reply == Execute(f, op).reply && Agrees(o, p[..], Execute(f, op).bits)
  {
    var oldval, v, over := Compute(o, p[..], op, f);
    if over && op.policy.Fail? { return None; }
    SetUnsigned(o, p, op.offset, op.bits, v % TWO64);
    reply := Some(if op.code.IncrBy? then v else oldval);
  }

  /** GET: up to nine bytes are copied to a buffer of zeros and read there. */
  method ExecuteGet<B(!new)>(o: Bits<B>, s: seq<B>, op: Op, ghost f: nat -> bool) returns (reply: Option<int>)
    requires Lawful(o) && ValidOp(op) && !Writes(op) && Agrees(o, s, f)
    ensures reply == Execute(f, op).reply
  {
    var buf := new B[9](_ => o.zero);
    var byte := op.offset / 8;
    var i := 0;
    while i < 9 && i + byte < |s|
      invariant 0 <= i <= 9 && (i == 0 || i + byte <= |s|)
      invariant forall k :: 0 <= k < 9 ==> buf[k] == (if k < i then s[k + byte] else o.zero)
    {
      buf[i] := s[i + byte];
      i := i + 1;
    }
    var at := op.offset - byte * 8;
    forall j: nat | op.offset <= j < op.offset + op.bits ensures f(j) == BitsOf(o, buf[..])(j - op.offset + at) {
      var k := j - op.offset + at;
      assert k == j - byte * 8 && k / 8 == j / 8 - byte && k % 8 == j % 8 && k / 8 < 9;
      assert buf[..][k / 8] == buf[k / 8];
    }
    ReadSame(f, BitsOf(o, buf[..]), op.offset, at, op.bits);
    if op.signed {
      var v := GetSigned(o, buf[..], at, op.bits);
      return Some(v);
    } else {
      var v := GetUnsigned(o, buf[..], at, op.bits);
      return Some(v);
    }
  }

  /** The last byte any write reaches, or -1 when all operations only read. */
  method LastByte(ops: seq<Op>) returns (last: int)
    requires forall i :: 0 <= i < |ops| ==> ValidOp(ops[i])
    ensures last >= -1 && (last == -1 <==> forall i :: 0 <= i < |ops| ==> !Writes(ops[i]))
    ensures forall i :: 0 <= i < |ops| && Writes(ops[i]) ==> (ops[i].offset + ops[i].bits - 1) / 8 <= last
  {
    var readonly, highest, i := true, 0, 0;
    while i < |ops|
      invariant 0 <= i <= |ops| && highest >= 0
      invariant readonly <==> forall k :: 0 <= k < i ==> !Writes(ops[k])
      invariant forall k :: 0 <= k < i && Writes(ops[k]) ==> ops[k].offset + ops[k].bits - 1 <= highest
    {
      if Writes(ops[i]) {
        readonly := false;
        if highest < ops[i].offset + ops[i].bits - 1 { highest := ops[i].offset + ops[i].bits - 1; }
      }
      i := i + 1;
    }
    last := if readonly then -1 else highest / 8;
  }

  /** sdsgrowzero: room up to byte `last`, filled with zeros. */
  method Grow<B(!new)>(o: Bits<B>, s: seq<B>, last: int) returns (p: array<B>)
    requires Lawful(o) && last >= -1
    ensures fresh(p) && last < p.Length && p.Length >= |s| && (last < |s| ==> p.Length == |s|)
    ensures forall i: nat :: BitAt(o, p[..], i) == BitAt(o, s, i)
  {
    var len := if last < |s| then |s| else last + 1;
    p := new B[len](k => if 0 <= k < |s| then s[k] else o.zero);
    assert forall k :: 0 <= k < len ==> p[..][k] == if k < |s| then s[k] else o.zero;
  }

  /** bitfieldCommand after its arguments are parsed: all operations, in order, on a string that
      is first grown to hold every write. */
  method BitfieldCommand<B(!new)>(o: Bits<B>, s: seq<B>, ops: seq<Op>) returns (r: seq<B>, replies: seq<Option<int>>)
    requires Lawful(o) && forall i :: 0 <= i < |ops| ==> ValidOp(ops[i])
    ensures replies == ExecuteAll(BitsOf(o, s), ops, []).replies
    ensures Agrees(o, r, ExecuteAll(BitsOf(o, s), ops, []).bits)
    ensures |r| >= |s| && ((forall i :: 0 <= i < |ops| ==> !Writes(ops[i])) ==> |r| == |s|)
  {
    var last := LastByte(ops);
    var p := Grow(o, s, last);
    replies := [];
    ghost var f := BitsOf(o, s);
    var j := 0;
    assert ops[0..] == ops;
    while j < |ops|
      invariant 0 <= j <= |ops| && Agrees(o, p[..], f) && fresh(p)
      invariant ExecuteAll(BitsOf(o, s), ops, []) == ExecuteAll(f, ops[j..], replies)
    {
      var op := ops[j];
      var reply: Option<int>;
      if Writes(op) {
        reply := ExecuteWrite(o, p, op, f);
      } else {
        reply := ExecuteGet(o, p[..], op, f);
      }
      assert ops[j..][0] == op && ops[j..][1..] == ops[j + 1..];
      f, replies, j := Execute(f, op).bits, replies + [reply], j + 1;
    }
    assert ops[j..] == [];
    r := p[..];
  }
}
