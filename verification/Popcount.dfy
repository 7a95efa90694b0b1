/**
 Counting the bits of a string: byte by byte through a table, and seven words at a time
 inside one 32 bit register.
 */
module Popcount {
  import opened Bitfield

  // ------------------------------------------------------------------- bytes

  function Bit(b: bv8, m: bv8): nat { if b & m != 0 then 1 else 0 }

  /** The number of set bits of a byte. */
  function Ones(b: bv8): nat {
    Bit(b, 0x01) + Bit(b, 0x02) + Bit(b, 0x04) + Bit(b, 0x08) + Bit(b, 0x10) + Bit(b, 0x20) + Bit(b, 0x40) + Bit(b, 0x80)
  }

  function Total(s: seq<bv8>): nat {
    if s == [] then 0 else Ones(s[0]) + Total(s[1..])
  }

  function Pick(lo: bv8, a0: nat, a1: nat, a2: nat, a3: nat, a4: nat, a5: nat, a6: nat, a7: nat,
                a8: nat, a9: nat, a10: nat, a11: nat, a12: nat, a13: nat, a14: nat, a15: nat): nat
  {
    if lo & 8 == 0 then
      if lo & 4 == 0 then (if lo & 2 == 0 then (if lo & 1 == 0 then a0 else a1) else (if lo & 1 == 0 then a2 else a3))
      else (if lo & 2 == 0 then (if lo & 1 == 0 then a4 else a5) else (if lo & 1 == 0 then a6 else a7))
    else
      if lo & 4 == 0 then (if lo & 2 == 0 then (if lo & 1 == 0 then a8 else a9) else (if lo & 1 == 0 then a10 else a11))
      else (if lo & 2 == 0 then (if lo & 1 == 0 then a12 else a13) else (if lo & 1 == 0 then a14 else a15))
  }

  /** The table of bit counts, sixteen entries a row. */
  function BitsInByte(b: bv8): nat {
    var lo := b & 0x0f;
    if b < 0x10 then Pick(lo, 0, 1, 1, 2, 1, 2, 2, 3, 1, 2, 2, 3, 2, 3, 3, 4)
    else if b < 0x20 then Pick(lo, 1, 2, 2, 3, 2, 3, 3, 4, 2, 3, 3, 4, 3, 4, 4, 5)
    else if b < 0x30 then Pick(lo, 1, 2, 2, 3, 2, 3, 3, 4, 2, 3, 3, 4, 3, 4, 4, 5)
    else if b < 0x40 then Pick(lo, 2, 3, 3, 4, 3, 4, 4, 5, 3, 4, 4, 5, 4, 5, 5, 6)
    else if b < 0x50 then Pick(lo, 1, 2, 2, 3, 2, 3, 3, 4, 2, 3, 3, 4, 3, 4, 4, 5)
    else if b < 0x60 then Pick(lo, 2, 3, 3, 4, 3, 4, 4, 5, 3, 4, 4, 5, 4, 5, 5, 6)
    else if b < 0x70 then Pick(lo, 2, 3, 3, 4, 3, 4, 4, 5, 3, 4, 4, 5, 4, 5, 5, 6)
    else if b < 0x80 then Pick(lo, 3, 4, 4, 5, 4, 5, 5, 6, 4, 5, 5, 6, 5, 6, 6, 7)
    else if b < 0x90 then Pick(lo, 1, 2, 2, 3, 2, 3, 3, 4, 2, 3, 3, 4, 3, 4, 4, 5)
    else if b < 0xa0 then Pick(lo, 2, 3, 3, 4, 3, 4, 4, 5, 3, 4, 4, 5, 4, 5, 5, 6)
    else if b < 0xb0 then Pick(lo, 2, 3, 3, 4, 3, 4, 4, 5, 3, 4, 4, 5, 4, 5, 5, 6)
    else if b < 0xc0 then Pick(lo, 3, 4, 4, 5, 4, 5, 5, 6, 4, 5, 5, 6, 5, 6, 6, 7)
    else if b < 0xd0 then Pick(lo, 2, 3, 3, 4, 3, 4, 4, 5, 3, 4, 4, 5, 4, 5, 5, 6)
    else if b < 0xe0 then Pick(lo, 3, 4, 4, 5, 4, 5, 5, 6, 4, 5, 5, 6, 5, 6, 6, 7)
    else if b < 0xf0 then Pick(lo, 3, 4, 4, 5, 4, 5, 5, 6, 4, 5, 5, 6, 5, 6, 6, 7)
    else Pick(lo, 4, 5, 5, 6, 5, 6, 6, 7, 5, 6, 6, 7, 6, 7, 7, 8)
  }

  lemma TableCounts(b: bv8)
    ensures BitsInByte(b) == Ones(b)
  {}

  // ------------------------------------------------------------ inside a word

  function Pairs(w: bv32): bv32 { w - ((w >> 1) & 0x55555555) }

  function Nibbles(x: bv32): bv32 { (x & 0x33333333) + ((x >> 2) & 0x33333333) }

  function Bytes(x: bv32): bv32 { (x + (x >> 4)) & 0x0F0F0F0F }

  function Pairs8(w: bv8): bv8 { w - ((w >> 1) & 0x55) }

  function Nibbles8(x: bv8): bv8 { (x & 0x33) + ((x >> 2) & 0x33) }

  function Bytes8(x: bv8): bv8 { (x + (x >> 4)) & 0x0F }

  /** A word of four bytes, `d` the least significant. */
  function Word(a: bv8, b: bv8, c: bv8, d: bv8): bv32 {
    ((a as bv32) << 24) | ((b as bv32) << 16) | ((c as bv32) << 8) | (d as bv32)
  }

  lemma PairsByByte(a: bv8, b: bv8, c: bv8, d: bv8)
    ensures Pairs(Word(a, b, c, d)) == Word(Pairs8(a), Pairs8(b), Pairs8(c), Pairs8(d))
  {}

  lemma NibblesByByte(a: bv8, b: bv8, c: bv8, d: bv8)
    ensures Nibbles(Word(a, b, c, d)) == Word(Nibbles8(a), Nibbles8(b), Nibbles8(c), Nibbles8(d))
  {}

  /** Counts of at most seven in a half byte leave room for the sum. */
  lemma BytesByByte(a: bv8, b: bv8, c: bv8, d: bv8)
    requires a & 0x88 == 0 && b & 0x88 == 0 && c & 0x88 == 0 && d & 0x88 == 0
    ensures Bytes(Word(a, b, c, d)) == Word(Bytes8(a), Bytes8(b), Bytes8(c), Bytes8(d))
  {}

  lemma NibblesSmall(b: bv8)
    ensures Nibbles8(Pairs8(b)) & 0x88 == 0
  {}

  /** In one byte the three steps count its bits. */
  lemma StepsCount(b: bv8)
    ensures Bytes8(Nibbles8(Pairs8(b))) <= 8 && Bytes8(Nibbles8(Pairs8(b))) as int == Ones(b) <= 8
  {}

  lemma WordValue(a: bv8, b: bv8, c: bv8, d: bv8)
    requires a <= 8 && b <= 8 && c <= 8 && d <= 8
    ensures Word(a, b, c, d) as int == (a as int) * 0x1000000 + (b as int) * 0x10000 + (c as int) * 0x100 + (d as int)
  {}

  /** Four counts side by side in a register. */
  function Lanes(a: nat, b: nat, c: nat, d: nat): nat { a * 0x1000000 + b * 0x10000 + c * 0x100 + d }

  /** The three steps on a word count the bits of each of its bytes. */
  lemma WordCounts(a: bv8, b: bv8, c: bv8, d: bv8)
    ensures Bytes(Nibbles(Pairs(Word(a, b, c, d)))) as int == Lanes(Ones(a), Ones(b), Ones(c), Ones(d))
  {
    PairsByByte(a, b, c, d);
    NibblesByByte(Pairs8(a), Pairs8(b), Pairs8(c), Pairs8(d));
    NibblesSmall(a);
    NibblesSmall(b);
    NibblesSmall(c);
    NibblesSmall(d);
    BytesByByte(Nibbles8(Pairs8(a)), Nibbles8(Pairs8(b)), Nibbles8(Pairs8(c)), Nibbles8(Pairs8(d)));
    StepsCount(a);
    StepsCount(b);
    StepsCount(c);
    StepsCount(d);
    WordValue(Bytes8(Nibbles8(Pairs8(a))), Bytes8(Nibbles8(Pairs8(b))), Bytes8(Nibbles8(Pairs8(c))), Bytes8(Nibbles8(Pairs8(d))));
  }

  const TWO32: nat := 0x1_0000_0000

  /** With at most 56 in a lane, 224 in all, the multiplication collects the lanes in the top
      byte without a carry reaching it. */
  lemma TopByteCollects(a: nat, b: nat, c: nat, d: nat)
    requires a <= 56 && b <= 56 && c <= 56 && d <= 56
    ensures Lanes(a, b, c, d) < TWO32
    ensures Lanes(a, b, c, d) * 0x01010101 % TWO32 / 0x1000000 == a + b + c + d
  {
    var low := (b + c + d) * 0x10000 + (c + d) * 0x100 + d;
    var kept := (a + b + c + d) * 0x1000000 + low;
    DivModUnique(Lanes(a, b, c, d) * 0x01010101, TWO32, a * 0x10101 + b * 0x101 + c, kept);
    DivModUnique(kept, 0x1000000, a + b + c + d, low);
  }

  // --------------------------------------------------------------- the method

  lemma {:induction false} TotalConcat(s: seq<bv8>, t: seq<bv8>)
    ensures Total(s + t) == Total(s) + Total(t)
    decreases |s|
  {
    if s == [] {
      assert s + t == t;
    } else {
      assert (s + t)[1..] == s[1..] + t;
      TotalConcat(s[1..], t);
    }
  }

  lemma TotalSnoc(s: seq<bv8>, j: nat)
    requires j < |s|
    ensures Total(s[..j + 1]) == Total(s[..j]) + Ones(s[j])
  {
    var one := [s[j]];
    assert s[..j + 1] == s[..j] + one && one[1..] == [];
    TotalConcat(s[..j], one);
  }

  lemma TotalFour(s: seq<bv8>, j: nat)
    requires j + 4 <= |s|
    ensures Total(s[..j + 4]) == Total(s[..j]) + Ones(s[j + 3]) + Ones(s[j + 2]) + Ones(s[j + 1]) + Ones(s[j])
  {
    TotalSnoc(s, j);
    TotalSnoc(s, j + 1);
    TotalSnoc(s, j + 2);
    TotalSnoc(s, j + 3);
  }

  /** The three steps on one word. */
  method CountWord(a: bv8, b: bv8, c: bv8, d: bv8) returns (n: nat)
    ensures n == Lanes(Ones(a), Ones(b), Ones(c), Ones(d))
    ensures Ones(a) <= 8 && Ones(b) <= 8 && Ones(c) <= 8 && Ones(d) <= 8
  {
    WordCounts(a, b, c, d);
    StepsCount(a);
    StepsCount(b);
    StepsCount(c);
    StepsCount(d);
    n := Bytes(Nibbles(Pairs(Word(a, b, c, d)))) as int;
  }

  /** Four counts, one per byte of the words seen so far. */
  datatype Counts = Counts(a: nat, b: nat, c: nat, d: nat)

  ghost function Register(c: Counts): nat { Lanes(c.a, c.b, c.c, c.d) }

  ghost function Sum(c: Counts): nat { c.a + c.b + c.c + c.d }

  ghost predicate AtMost(c: Counts, m: nat) { c.a <= m && c.b <= m && c.c <= m && c.d <= m }

  ghost function Plus(c: Counts, e: Counts): Counts { Counts(c.a + e.a, c.b + e.b, c.c + e.c, c.d + e.d) }

  method CountAt(s: seq<bv8>, p: nat) returns (n: nat, ghost e: Counts)
    requires p + 4 <= |s|
    ensures IsCount(e, n, 8, Total(s[..p + 4]) - Total(s[..p]))
  {
    TotalFour(s, p);
    n, e := CountFour(s[p + 3], s[p + 2], s[p + 1], s[p], Total(s[..p + 4]) - Total(s[..p]));
  }

  method CountFour(a: bv8, b: bv8, c: bv8, d: bv8, ghost total: int) returns (n: nat, ghost e: Counts)
    requires total == Ones(a) + Ones(b) + Ones(c) + Ones(d)
    ensures IsCount(e, n, 8, total)
  {
    n := CountWord(a, b, c, d);
    e := Counts(Ones(a), Ones(b), Ones(c), Ones(d));
    CountsAre(e, n, total);
  }

  lemma CountsAre(e: Counts, n: nat, total: int)
    requires n == Lanes(e.a, e.b, e.c, e.d) && e.a <= 8 && e.b <= 8 && e.c <= 8 && e.d <= 8
    requires e.a + e.b + e.c + e.d == total
    ensures IsCount(e, n, 8, total)
  {}

  /** The register after some words: four counts below a bound, with this sum. */
  ghost predicate IsCount(c: Counts, sum: nat, m: nat, total: int) {
    sum == Register(c) && AtMost(c, m) && Sum(c) == total
  }

  /** Lanes add up without a carry as long as each stays below 56. */
  lemma AddLanes(c: Counts, e: Counts, m: nat, sum: nat, n: nat, total: int, more: int)
    requires IsCount(c, sum, m, total) && IsCount(e, n, 8, more) && m <= 48
    ensures sum + n < TWO32 && IsCount(Plus(c, e), sum + n, m + 8, total + more)
  {}

  /** Addition in the register. */
  method Add(a: nat, b: nat) returns (r: nat)
    requires a + b < TWO32
    ensures r == a + b
  {
    r := (a + b) % TWO32;
  }

  /** One more word. */
  method AddWord(s: seq<bv8>, p: nat, sum: nat, ghost c: Counts, ghost m: nat, ghost total: int) returns (r: nat, ghost d: Counts)
    requires p + 4 <= |s| && m <= 48 && IsCount(c, sum, m, total)
    ensures IsCount(d, r, m + 8, total + (Total(s[..p + 4]) - Total(s[..p])))
  {
    var n, e := CountAt(s, p);
    AddLanes(c, e, m, sum, n, total, Total(s[..p + 4]) - Total(s[..p]));
    r := Add(sum, n);
    d := Plus(c, e);
  }

  /** The multiplication that collects the counts. */
  method Collect(sum: nat, ghost c: Counts, ghost total: int) returns (bits: nat)
    requires IsCount(c, sum, 56, total)
    ensures bits == total
  {
    TopByteCollects(c.a, c.b, c.c, c.d);
    bits := sum * 0x01010101 % TWO32 / 0x1000000;
  }

  /** Seven words at a time. */
  method Block(s: seq<bv8>, at: nat) returns (bits: nat)
    requires at + 28 <= |s|
    ensures bits == Total(s[..at + 28]) - Total(s[..at])
  {
    ghost var c := Counts(0, 0, 0, 0);
    ghost var t0 := Total(s[..at]);
    var sum;
    sum, c := AddWord(s, at, 0, c, 0, 0);
    sum, c := AddWord(s, at + 4, sum, c, 8, Total(s[..at + 4]) - t0);
    sum, c := AddWord(s, at + 8, sum, c, 16, Total(s[..at + 8]) - t0);
    sum, c := AddWord(s, at + 12, sum, c, 24, Total(s[..at + 12]) - t0);
    sum, c := AddWord(s, at + 16, sum, c, 32, Total(s[..at + 16]) - t0);
    sum, c := AddWord(s, at + 20, sum, c, 40, Total(s[..at + 20]) - t0);
    sum, c := AddWord(s, at + 24, sum, c, 48, Total(s[..at + 24]) - t0);
    bits := Collect(sum, c, Total(s[..at + 28]) - t0);
  }

  /** One byte through the table. */
  method CountByte(s: seq<bv8>, p: nat, bits: nat) returns (r: nat)
    requires p < |s| && bits == Total(s[..p])
    ensures r == Total(s[..p + 1])
  {
    TableCounts(s[p]);
    TotalSnoc(s, p);
    r := bits + BitsInByte(s[p]);
  }

  /** redisPopcount of a string that starts at an address. */
  method RedisPopcount(s: seq<bv8>, address: nat) returns (bits: nat)
    ensures bits == Total(s)
  {
    bits := 0;
    var p := 0;
    while (address + p) % 4 != 0 && p < |s|
      invariant 0 <= p <= |s| && bits == Total(s[..p])
      decreases |s| - p
    {
      bits := CountByte(s, p, bits);
      p := p + 1;
    }
    while |s| - p >= 28
      invariant 0 <= p <= |s| && bits == Total(s[..p])
      decreases |s| - p
    {
      var n := Block(s, p);
      bits, p := bits + n, p + 28;
    }
    while p < |s|
      invariant 0 <= p <= |s| && bits == Total(s[..p])
    {
      bits := CountByte(s, p, bits);
      p := p + 1;
    }
    assert s[..p] == s;
  }
}
