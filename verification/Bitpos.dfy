/**
 The first set or clear bit of a string: whole words that cannot hold it are skipped, and
 the word where it must be is scanned with a moving mask.

 Words and masks are parameters with laws; `WordBits` gives those of the server.
 */
module Bitpos {
  import opened Bitfield

  datatype Words<!B, !W, !M> = Words(
    ones: B,                  // a byte of set bits
    zeros: B,                 // a byte of clear bits
    read: seq<B> -> W,        // eight bytes in memory, as one word
    allOnes: W,
    allZeros: W,
    load: (W, B) -> W,        // move the word on by a byte and bring one in
    first: M,                 // the mask of the leftmost bit
    next: M -> M,
    gone: M -> bool,
    meets: (M, W) -> bool,
    mask: nat -> M)           // the mask after so many moves

  ghost predicate LoadLaw<B, W, M>(b: Bits<B>, w: Words<B, W, M>, x: W, y: B, k: nat) {
    k < 64 ==> w.meets(w.mask(k), w.load(x, y)) == (if k < 56 then w.meets(w.mask(k + 8), x) else b.test(y, k - 56))
  }

  ghost predicate ReadLaw<B, W, M>(w: Words<B, W, M>, t: seq<B>) {
    |t| == 8 ==>
      && (w.read(t) == w.allOnes <==> forall i :: 0 <= i < 8 ==> t[i] == w.ones)
      && (w.read(t) == w.allZeros <==> forall i :: 0 <= i < 8 ==> t[i] == w.zeros)
  }

  /** A byte that is not full has a clear bit, one that is not empty a set bit. */
  ghost predicate ByteLaw<B, W, M>(b: Bits<B>, w: Words<B, W, M>, y: B) {
    && (y == w.ones <==> forall k: nat :: k < 8 ==> b.test(y, k))
    && (y == w.zeros <==> forall k: nat :: k < 8 ==> !b.test(y, k))
  }

  ghost predicate MaskLaw<B, W, M>(w: Words<B, W, M>, k: nat) {
    (k < 64 ==> !w.gone(w.mask(k)) && w.next(w.mask(k)) == w.mask(k + 1)) && (k == 64 ==> w.gone(w.mask(k)))
  }

  ghost predicate ZeroLaw<B, W, M>(w: Words<B, W, M>, x: W) {
    x == w.allZeros <==> forall k: nat :: k < 64 ==> !w.meets(w.mask(k), x)
  }

  ghost predicate WordsLawful<B(!new), W(!new), M>(b: Bits<B>, w: Words<B, W, M>) {
    && w.first == w.mask(0) && b.zero == w.zeros
    && (forall x: W, y: B, k: nat {:trigger LoadLaw(b, w, x, y, k)} :: LoadLaw(b, w, x, y, k))
    && (forall t: seq<B> {:trigger ReadLaw(w, t)} :: ReadLaw(w, t))
    && (forall y: B {:trigger ByteLaw(b, w, y)} :: ByteLaw(b, w, y))
    && (forall k: nat {:trigger MaskLaw(w, k)} :: MaskLaw(w, k))
    && (forall x: W {:trigger ZeroLaw(w, x)} :: ZeroLaw(w, x))
  }

  // ------------------------------------------------------------------ skipping

  /** No bit before byte `p` is the wanted one. */
  ghost predicate NoneBefore<B>(b: Bits<B>, s: seq<B>, p: nat, bit: bool) {
    forall i: nat {:trigger BitAt(b, s, i)} :: i < 8 * p ==> BitAt(b, s, i) != bit
  }

  lemma SkipByte<B(!new), W(!new), M>(b: Bits<B>, w: Words<B, W, M>, s: seq<B>, p: nat, bit: bool)
    requires WordsLawful(b, w) && p < |s| && NoneBefore(b, s, p, bit) && s[p] == (if bit then w.zeros else w.ones)
    ensures NoneBefore(b, s, p + 1, bit)
  {
    assert ByteLaw(b, w, s[p]);
    forall i: nat | i < 8 * (p + 1) ensures BitAt(b, s, i) != bit {
      if i >= 8 * p { assert i / 8 == p; }
    }
  }

  lemma {:induction false} SkipBytes<B(!new), W(!new), M>(b: Bits<B>, w: Words<B, W, M>, s: seq<B>, p: nat, n: nat, bit: bool)
    requires WordsLawful(b, w) && p + n <= |s| && NoneBefore(b, s, p, bit)
    requires forall i :: p <= i < p + n ==> s[i] == (if bit then w.zeros else w.ones)
    ensures NoneBefore(b, s, p + n, bit)
    decreases n
  {
    if n > 0 {
      SkipByte(b, w, s, p, bit);
      SkipBytes(b, w, s, p + 1, n - 1, bit);
    }
  }

  /** Among the next 64 bits there is a wanted one. */
  ghost predicate Near<B>(b: Bits<B>, s: seq<B>, p: nat, bit: bool) {
    exists i: nat :: 8 * p <= i < 8 * p + 64 && BitAt(b, s, i) == bit
  }

  lemma ByteNear<B(!new), W(!new), M>(b: Bits<B>, w: Words<B, W, M>, s: seq<B>, p: nat, j: nat, bit: bool)
    requires WordsLawful(b, w) && j < 8 && p + j < |s| && s[p + j] != (if bit then w.zeros else w.ones)
    ensures Near(b, s, p, bit)
  {
    assert ByteLaw(b, w, s[p + j]);
    var k: nat :| k < 8 && b.test(s[p + j], k) == bit;
    var at := 8 * j + k;
    assert (8 * p + at) / 8 == p + j && (8 * p + at) % 8 == k;
    assert BitAt(b, s, 8 * p + at) == bit;
  }

  /** The two skipping loops: they stop at a byte such that nothing before it matters, and
      either the bit is near or less than a word is left. */
  method Skip<B(==, !new), W(==, !new), M>(b: Bits<B>, w: Words<B, W, M>, s: seq<B>, address: nat, bit: bool) returns (p: nat)
    requires WordsLawful(b, w)
    ensures p <= |s| && NoneBefore(b, s, p, bit)
    ensures Near(b, s, p, bit) || |s| - p < 8
  {
    var skip := if bit then w.zeros else w.ones;
    p := 0;
    while (address + p) % 8 != 0 && p < |s|
      invariant 0 <= p <= |s| && NoneBefore(b, s, p, bit)
      decreases |s| - p
    {
      if s[p] != skip {
        ByteNear(b, w, s, p, 0, bit);
        return;
      }
      SkipByte(b, w, s, p, bit);
      p := p + 1;
    }
    var skipWord := if bit then w.allZeros else w.allOnes;
    while |s| - p >= 8
      invariant 0 <= p <= |s| && NoneBefore(b, s, p, bit)
      decreases |s| - p
    {
      var t := s[p..p + 8];
      assert ReadLaw(w, t);
      if w.read(t) != skipWord {
        var j :| 0 <= j < 8 && t[j] != skip;
        ByteNear(b, w, s, p, j, bit);
        return;
      }
      assert forall i :: p <= i < p + 8 ==> s[i] == t[i - p];
      SkipBytes(b, w, s, p, 8, bit);
      p := p + 8;
    }
  }

  // ------------------------------------------------------------------ scanning

  /** The lowest `8 * j` bits of the word are the next bits of the string. */
  ghost predicate Loaded<B, W, M>(b: Bits<B>, w: Words<B, W, M>, s: seq<B>, p: nat, x: W, j: nat)
    requires j <= 8
  {
    forall k: nat {:trigger w.mask(k)} :: 64 - 8 * j <= k < 64 ==>
      w.meets(w.mask(k), x) == BitAt(b, s, 8 * p + k - (64 - 8 * j))
  }

  lemma LoadNext<B(!new), W(!new), M>(b: Bits<B>, w: Words<B, W, M>, s: seq<B>, p: nat, x: W, j: nat, y: B)
    requires Lawful(b) && WordsLawful(b, w) && j < 8 && Loaded(b, w, s, p, x, j)
    requires y == if p + j < |s| then s[p + j] else w.zeros
    ensures Loaded(b, w, s, p, w.load(x, y), j + 1)
  {
    forall k: nat | 64 - 8 * (j + 1) <= k < 64
      ensures w.meets(w.mask(k), w.load(x, y)) == BitAt(b, s, 8 * p + k - (64 - 8 * (j + 1)))
    {
      assert LoadLaw(b, w, x, y, k);
      var i: nat := 8 * p + k - (64 - 8 * (j + 1));
      if k < 56 {
        assert w.meets(w.mask(k + 8), x) == BitAt(b, s, 8 * p + (k + 8) - (64 - 8 * j));
      } else {
        assert i / 8 == p + j && i % 8 == k - 56;
        assert !b.test(b.zero, k - 56);
      }
    }
  }

  /** The loading loop: eight bytes, padded with zeros. */
  method LoadWord<B(!new), W(!new), M>(b: Bits<B>, w: Words<B, W, M>, s: seq<B>, p: nat) returns (word: W)
    requires Lawful(b) && WordsLawful(b, w)
    ensures Loaded(b, w, s, p, word, 8)
  {
    word := w.allZeros;
    var j := 0;
    while j < 8
      invariant 0 <= j <= 8 && Loaded(b, w, s, p, word, j)
    {
      var y := if p + j < |s| then s[p + j] else w.zeros;
      LoadNext(b, w, s, p, word, j, y);
      word, j := w.load(word, y), j + 1;
    }
  }

  /** The position is the first wanted bit; a string of set bits ends with a clear one. */
  ghost predicate FirstAt<B>(b: Bits<B>, s: seq<B>, bit: bool, pos: nat) {
    BitAt(b, s, pos) == bit && forall i: nat {:trigger BitAt(b, s, i)} :: i < pos ==> BitAt(b, s, i) != bit
  }

  lemma BeyondEnd<B>(b: Bits<B>, s: seq<B>, i: nat)
    requires i >= 8 * |s|
    ensures !BitAt(b, s, i)
  {}

  ghost predicate NoneUnder<B>(b: Bits<B>, s: seq<B>, n: nat, bit: bool) {
    forall i: nat {:trigger BitAt(b, s, i)} :: i < n ==> BitAt(b, s, i) != bit
  }

  /** The mask meets the word at the bit it stands for, and then moves on. */
  lemma ScanStep<B(!new), W(!new), M>(b: Bits<B>, w: Words<B, W, M>, s: seq<B>, p: nat, word: W, k: nat, bit: bool)
    requires WordsLawful(b, w) && Loaded(b, w, s, p, word, 8) && k <= 64 && !w.gone(w.mask(k)) && MaskLaw(w, k)
    requires NoneUnder(b, s, 8 * p + k, bit)
    ensures k < 64 && w.next(w.mask(k)) == w.mask(k + 1) && MaskLaw(w, k + 1)
    ensures if w.meets(w.mask(k), word) == bit then FirstAt(b, s, bit, 8 * p + k) else NoneUnder(b, s, 8 * p + k + 1, bit)
  {
    assert k < 64 ==> w.meets(w.mask(k), word) == BitAt(b, s, 8 * p + k);
  }

  lemma StillThere<B>(b: Bits<B>, s: seq<B>, p: nat, k: nat, bit: bool)
    requires Near(b, s, p, bit) && NoneUnder(b, s, 8 * p + k, bit)
    ensures k < 64
  {}

  /** The scan of one word, which holds a wanted bit, never runs off its end. */
  method ScanWord<B(!new), W(!new), M>(b: Bits<B>, w: Words<B, W, M>, s: seq<B>, p: nat, word: W, bit: bool) returns (pos: nat)
    requires WordsLawful(b, w) && Loaded(b, w, s, p, word, 8) && NoneBefore(b, s, p, bit) && Near(b, s, p, bit)
    ensures FirstAt(b, s, bit, pos)
  {
    pos := 8 * p;
    var one := w.first;
    ghost var k: nat := 0;
    assert MaskLaw(w, 0);
    assert NoneUnder(b, s, 8 * p, bit);
    StillThere(b, s, p, 0, bit);
    while !w.gone(one)
      invariant k < 64 && pos == 8 * p + k && one == w.mask(k) && MaskLaw(w, k)
      invariant NoneUnder(b, s, pos, bit)
      decreases 64 - k
    {
      ScanStep(b, w, s, p, word, k, bit);
      if w.meets(one, word) == bit { return; }
      pos, one, k := pos + 1, w.next(one), k + 1;
      StillThere(b, s, p, k, bit);
    }
    assert false;
  }

  /** redisBitpos of a string that starts at an address. */
  method RedisBitpos<B(==, !new), W(==, !new), M>(b: Bits<B>, w: Words<B, W, M>, s: seq<B>, address: nat, bit: bool) returns (pos: int)
    requires Lawful(b) && WordsLawful(b, w)
    ensures pos == -1 || pos >= 0
    ensures pos >= 0 ==> FirstAt(b, s, bit, pos) && pos <= 8 * |s| && (bit ==> pos < 8 * |s|)
    ensures pos == -1 <==> bit && forall i: nat :: i < 8 * |s| ==> !BitAt(b, s, i)
  {
    var p := Skip(b, w, s, address, bit);
    var word := LoadWord(b, w, s, p);
    assert ZeroLaw(w, word);
    if bit && word == w.allZeros {
      NothingThere(b, w, s, p, word);
      return -1;
    }
    WantedIsNear(b, w, s, p, word, bit);
    var at := ScanWord(b, w, s, p, word, bit);
    BeyondEnd(b, s, 8 * |s|);
    if at >= 8 * |s| { BeyondEnd(b, s, at); }
    pos := at;
  }

  /** A word that is not all zeros has a set bit; a word that ends behind the string has a clear one. */
  lemma WantedIsNear<B(!new), W(!new), M>(b: Bits<B>, w: Words<B, W, M>, s: seq<B>, p: nat, word: W, bit: bool)
    requires WordsLawful(b, w) && p <= |s| && Loaded(b, w, s, p, word, 8)
    requires Near(b, s, p, bit) || |s| - p < 8
    requires bit ==> word != w.allZeros
    ensures Near(b, s, p, bit)
  {
    assert ZeroLaw(w, word);
    if bit {
      var k: nat :| k < 64 && w.meets(w.mask(k), word);
      assert BitAt(b, s, 8 * p + k);
    } else if |s| - p < 8 {
      BeyondEnd(b, s, 8 * |s|);
    }
  }

  lemma NothingThere<B(!new), W(!new), M>(b: Bits<B>, w: Words<B, W, M>, s: seq<B>, p: nat, word: W)
    requires WordsLawful(b, w) && p <= |s| && Loaded(b, w, s, p, word, 8) && word == w.allZeros
    requires NoneBefore(b, s, p, true) && (Near(b, s, p, true) || |s| - p < 8)
    ensures forall i: nat :: i < 8 * |s| ==> !BitAt(b, s, i)
  {
    assert ZeroLaw(w, word);
    forall i: nat | 8 * p <= i < 8 * p + 64 ensures !BitAt(b, s, i) {
      var k: nat := i - 8 * p;
      assert !w.meets(w.mask(k), word);
    }
  }
}
