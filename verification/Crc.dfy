/**
 Table driven checksums refine division by the generator polynomial, bit by bit.

 A checksum is given by its register operations (`Ops`); `Laws` is what they owe each
 other. The two checksums of the server are the instances in `CrcBits`.
 */
module Crc {
  datatype Ops<!T, !B> = Ops(
    step: T -> T,           // one bit of division
    xor: (T, T) -> T,
    shift: T -> T,          // what a step does to bits that the polynomial does not meet
    clear: T -> bool,       // the next bit to leave the register is zero
    lift: B -> T,           // a byte, where it enters the register
    index: (T, B) -> B,     // the byte of the register that leaves next, combined with the input
    rest: T -> T,           // the other bytes of the register
    drop: T -> T,           // the register moved on by a byte
    table: B -> T)

  function Eight<T>(step: T -> T, c: T): T { step(step(step(step(step(step(step(step(c)))))))) }

  ghost predicate ClearEight<T>(shift: T -> T, clear: T -> bool, x: T) {
    && clear(x) && clear(shift(x)) && clear(shift(shift(x))) && clear(shift(shift(shift(x))))
    && var y := shift(shift(shift(shift(x))));
       clear(y) && clear(shift(y)) && clear(shift(shift(y))) && clear(shift(shift(shift(y))))
  }

  ghost predicate StepLaw<T, B>(o: Ops<T, B>, d: T, x: T) {
    o.clear(x) ==> o.step(o.xor(d, x)) == o.xor(o.step(d), o.shift(x))
  }

  ghost predicate SwapLaw<T, B>(o: Ops<T, B>, d: T, x: T) { o.xor(d, x) == o.xor(x, d) }

  ghost predicate TableLaw<T, B>(o: Ops<T, B>, i: B) { o.table(i) == Eight(o.step, o.lift(i)) }

  ghost predicate SplitLaw<T, B>(o: Ops<T, B>, c: T, b: B) {
    o.xor(c, o.lift(b)) == o.xor(o.lift(o.index(c, b)), o.rest(c))
  }

  ghost predicate RestLaw<T, B>(o: Ops<T, B>, c: T) {
    ClearEight(o.shift, o.clear, o.rest(c)) && Eight(o.shift, o.rest(c)) == o.drop(c)
  }

  ghost predicate Laws<T(!new), B(!new)>(o: Ops<T, B>) {
    && (forall d: T, x: T {:trigger StepLaw(o, d, x)} :: StepLaw(o, d, x))
    && (forall d: T, x: T {:trigger SwapLaw(o, d, x)} :: SwapLaw(o, d, x))
    && (forall i: B {:trigger TableLaw(o, i)} :: TableLaw(o, i))
    && (forall c: T, b: B {:trigger SplitLaw(o, c, b)} :: SplitLaw(o, c, b))
    && (forall c: T {:trigger RestLaw(o, c)} :: RestLaw(o, c))
  }

  /** Divide by the eight bits of one more byte. */
  function Feed<T, B>(o: Ops<T, B>, c: T, b: B): T { Eight(o.step, o.xor(c, o.lift(b))) }

  /** Divide by all bytes of a message. */
  function Divide<T, B>(o: Ops<T, B>, c: T, s: seq<B>): T
    decreases |s|
  {
    if s == [] then c else Divide(o, Feed(o, c, s[0]), s[1..])
  }

  /** Eight steps pass by what every one of them passes by. */
  lemma EightOver<T(!new), B(!new)>(o: Ops<T, B>, d: T, x: T)
    requires Laws(o) && ClearEight(o.shift, o.clear, x)
    ensures Eight(o.step, o.xor(d, x)) == o.xor(Eight(o.step, d), Eight(o.shift, x))
  {
    var d1, x1 := o.step(d), o.shift(x);
    var d2, x2 := o.step(d1), o.shift(x1);
    var d3, x3 := o.step(d2), o.shift(x2);
    var d4, x4 := o.step(d3), o.shift(x3);
    var d5, x5 := o.step(d4), o.shift(x4);
    var d6, x6 := o.step(d5), o.shift(x5);
    var d7, x7 := o.step(d6), o.shift(x6);
    assert StepLaw(o, d, x) && StepLaw(o, d1, x1) && StepLaw(o, d2, x2) && StepLaw(o, d3, x3);
    assert StepLaw(o, d4, x4) && StepLaw(o, d5, x5) && StepLaw(o, d6, x6) && StepLaw(o, d7, x7);
  }

  /** One lookup is eight steps of division. */
  lemma LookupDivides<T(!new), B(!new)>(o: Ops<T, B>, c: T, b: B)
    requires Laws(o)
    ensures o.xor(o.drop(c), o.table(o.index(c, b))) == Feed(o, c, b)
  {
    var i := o.index(c, b);
    assert TableLaw(o, i) && SplitLaw(o, c, b) && RestLaw(o, c);
    EightOver(o, o.lift(i), o.rest(c));
    assert SwapLaw(o, o.drop(c), o.table(i));
  }

  lemma {:induction false} DivideSnoc<T, B>(o: Ops<T, B>, c: T, s: seq<B>, b: B)
    ensures Divide(o, c, s + [b]) == Feed(o, Divide(o, c, s), b)
    decreases |s|
  {
    if s == [] {
      assert (s + [b])[1..] == [];
    } else {
      assert (s + [b])[1..] == s[1..] + [b];
      DivideSnoc(o, Feed(o, c, s[0]), s[1..], b);
    }
  }

  /** The loop of crc16 and crc64: one lookup per byte. */
  method Checksum<T(!new), B(!new)>(o: Ops<T, B>, init: T, s: seq<B>) returns (crc: T)
    requires Laws(o)
    ensures crc == Divide(o, init, s)
  {
    crc := init;
    var j := 0;
    assert s[..0] == [];
    while j < |s|
      invariant 0 <= j <= |s| && crc == Divide(o, init, s[..j])
    {
      LookupDivides(o, crc, s[j]);
      DivideSnoc(o, init, s[..j], s[j]);
      assert s[..j + 1] == s[..j] + [s[j]];
      crc := o.xor(o.drop(crc), o.table(o.index(crc, s[j])));
      j := j + 1;
    }
    assert s[..j] == s;
  }

  // ---------------------------------------------------------- what it detects

  ghost predicate Reversible<T(!new), B(!new)>(o: Ops<T, B>) {
    && (forall a: T, b: T {:trigger o.step(a), o.step(b)} :: o.step(a) == o.step(b) ==> a == b)
    && (forall c: T, a: T, b: T {:trigger o.xor(c, a), o.xor(c, b)} :: o.xor(c, a) == o.xor(c, b) ==> a == b)
    && (forall c: T, a: T, b: T {:trigger o.xor(a, c), o.xor(b, c)} :: o.xor(a, c) == o.xor(b, c) ==> a == b)
    && (forall a: B, b: B {:trigger o.lift(a), o.lift(b)} :: o.lift(a) == o.lift(b) ==> a == b)
  }

  /** One byte can be undone, knowing it, and known, undoing it. */
  lemma FeedReversible<T(!new), B(!new)>(o: Ops<T, B>, c: T, d: T, a: B, b: B)
    requires Reversible(o) && Feed(o, c, a) == Feed(o, d, b)
    ensures a == b ==> c == d
    ensures c == d ==> a == b
  {}

  lemma {:induction false} DivideReversible<T(!new), B(!new)>(o: Ops<T, B>, c: T, d: T, s: seq<B>)
    requires Reversible(o) && c != d
    ensures Divide(o, c, s) != Divide(o, d, s)
    decreases |s|
  {
    if s != [] {
      if Feed(o, c, s[0]) == Feed(o, d, s[0]) { FeedReversible(o, c, d, s[0], s[0]); }
      DivideReversible(o, Feed(o, c, s[0]), Feed(o, d, s[0]), s[1..]);
    }
  }

  /** Changing one byte of a message changes its checksum. */
  lemma {:induction false} OneByteDetected<T(!new), B(!new)>(o: Ops<T, B>, c: T, s: seq<B>, k: nat, b: B)
    requires Reversible(o) && k < |s| && b != s[k]
    ensures Divide(o, c, s[k := b]) != Divide(o, c, s)
    decreases |s|
  {
    var t := s[k := b];
    if k == 0 {
      if Feed(o, c, s[0]) == Feed(o, c, b) { FeedReversible(o, c, c, s[0], b); }
      assert t[1..] == s[1..];
      DivideReversible(o, Feed(o, c, b), Feed(o, c, s[0]), s[1..]);
    } else {
      assert t[1..] == s[1..][k - 1 := b];
      OneByteDetected(o, Feed(o, c, s[0]), s[1..], k - 1, b);
    }
  }
}
