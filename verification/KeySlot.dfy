/**
 The hash slot of a key, as the server and as the cluster tool compute it.
 */
module KeySlot {
  import opened Crc
  import opened CrcBits
  import opened CrcTables

  const OPEN: bv8 := 123
  const CLOSE: bv8 := 125

  // -------------------------------------------------------- what is hashed

  /** The first position of a byte at or after `from`, or the length. */
  function FirstFrom<B(==)>(key: seq<B>, from: nat, b: B): (p: nat)
    requires from <= |key|
    ensures from <= p <= |key| && (p < |key| ==> key[p] == b) && forall i :: from <= i < p ==> key[i] != b
    decreases |key| - from
  {
    if from == |key| || key[from] == b then from else FirstFrom(key, from + 1, b)
  }

  /** What stands between the first brace and the first closing brace after it, when that is
      not empty; the whole key otherwise. */
  function Tag<B(==)>(key: seq<B>, open: B, close: B): seq<B> {
    var s := FirstFrom(key, 0, open);
    if s == |key| then key
    else
      var e := FirstFrom(key, s + 1, close);
      if e == |key| || e == s + 1 then key else key[s + 1..e]
  }

  /** The two loops of keyHashSlot. */
  method ScanTag<B(==)>(key: seq<B>, open: B, close: B) returns (part: seq<B>)
    ensures part == Tag(key, open, close)
  {
    var s := 0;
    while s < |key| && key[s] != open
      invariant 0 <= s <= |key| && forall i :: 0 <= i < s ==> key[i] != open
    {
      s := s + 1;
    }
    if s == |key| { return key; }
    var e := s + 1;
    while e < |key| && key[e] != close
      invariant s < e <= |key| && forall i :: s < i < e ==> key[i] != close
    {
      e := e + 1;
    }
    if e == |key| || e == s + 1 { return key; }
    return key[s + 1..e];
  }

  /** The two searches of key_to_slot: each is nil or a position. */
  method SearchTag<B(==)>(key: seq<B>, open: B, close: B) returns (part: seq<B>)
    ensures part == Tag(key, open, close)
  {
    part := key;
    var s := FirstFrom(key, 0, open);
    if s < |key| {
      var e := FirstFrom(key, s + 1, close);
      if e < |key| && e != s + 1 { part := key[s + 1..e]; }
    }
  }

  function HashTag(key: seq<bv8>): seq<bv8> { Tag(key, OPEN, CLOSE) }

  /** From the first `{` at `s` and the first `}` after it at `e`: what is between them, if anything
      is; without such a pair the whole key. */
  lemma HashTagIs(key: seq<bv8>, s: nat, e: nat)
    requires s <= |key| && (forall i :: 0 <= i < s ==> key[i] != 123) && (s < |key| ==> key[s] == 123)
    requires s < |key| ==> s < e <= |key| && (forall i :: s < i < e ==> key[i] != 125) && (e < |key| ==> key[e] == 125)
    ensures HashTag(key) == if s == |key| || e == |key| || e == s + 1 then key else key[s + 1..e]
  {
    assert FirstFrom(key, 0, OPEN) == s;
    if s < |key| { assert FirstFrom(key, s + 1, CLOSE) == e; }
  }

  /** CRC-16/XMODEM of a message, by division. */
  function Crc16(s: seq<bv8>): bv16 { Divide(Ops16(), 0, s) }

  function Slot(key: seq<bv8>): bv16 { Crc16(HashTag(key)) & 0x3fff }

  lemma SlotInRange(key: seq<bv8>)
    ensures (Slot(key) as int) < 16384
  {
    MaskInRange(Crc16(HashTag(key)));
  }

  /** The slot is the CRC of what is hashed, modulo the number of slots. */
  lemma SlotIs(key: seq<bv8>)
    ensures Slot(key) as bv32 == (Crc16(HashTag(key)) as bv32) % 16384
  {
    ModIsMask(Crc16(HashTag(key)));
  }

  lemma MaskInRange(c: bv16)
    ensures ((c & 0x3fff) as int) < 16384
  {}

  // ------------------------------------------------------------- the server

  method ServerCrc16(s: seq<bv8>) returns (crc: bv16)
    ensures crc == Crc16(s)
  {
    Laws16();
    crc := Checksum(Ops16(), 0, s);
  }

  /** keyHashSlot. */
  method KeyHashSlot(key: seq<bv8>) returns (slot: bv16)
    ensures slot == Slot(key)
  {
    var part := ScanTag(key, OPEN, CLOSE);
    var crc := ServerCrc16(part);
    return crc & 0x3fff;
  }

  // ----------------------------------------------------------- the cluster tool

  function Widen(c: bv16): bv32 { c as bv32 }

  function WideIndex(crc: bv32, b: bv8): bv8 { (((crc >> 8) ^ (b as bv32)) & 0xff) as bv8 }

  function WideJoin(crc: bv32, t: bv16): bv32 { ((crc << 8) & 0xffff) ^ (t as bv32) }

  /** The loop body of the tool's crc16: its integers do not wrap, so the register is masked. */
  function WideLook(crc: bv32, b: bv8): bv32 { WideJoin(crc, Table16(WideIndex(crc, b))) }

  lemma IndexWide(c: bv16, b: bv8)
    ensures WideIndex(Widen(c), b) == Index16(c, b)
  {}

  lemma JoinWide(c: bv16, t: bv16)
    ensures WideJoin(Widen(c), t) == Widen(Xor16(Drop16(c), t))
  {}

  lemma LookIs(c: bv16, b: bv8)
    ensures Ops16().xor(Ops16().drop(c), Ops16().table(Ops16().index(c, b))) == Xor16(Drop16(c), Table16(Index16(c, b)))
  {}

  lemma LookWide(c: bv16, b: bv8)
    ensures WideLook(Widen(c), b) == Widen(Xor16(Drop16(c), Table16(Index16(c, b))))
  {
    IndexWide(c, b);
    JoinWide(c, Table16(Index16(c, b)));
  }

  /** A wide register does what a register of sixteen bits does. */
  ghost predicate Simulates<T, B, W>(o: Ops<T, B>, widen: T -> W, look: (W, B) -> W, c: T, b: B) {
    look(widen(c), b) == widen(o.xor(o.drop(c), o.table(o.index(c, b))))
  }

  lemma WideSimulates(c: bv16, b: bv8)
    ensures Simulates(Ops16(), Widen, WideLook, c, b)
  {
    LookIs(c, b);
    LookWide(c, b);
  }

  method WideChecksum<T(!new), B(!new), W>(ghost o: Ops<T, B>, ghost widen: T -> W, look: (W, B) -> W, ghost init: T, start: W, s: seq<B>)
    returns (crc: W)
    requires Laws(o) && start == widen(init)
    requires forall c: T, b: B {:trigger Simulates(o, widen, look, c, b)} :: Simulates(o, widen, look, c, b)
    ensures crc == widen(Divide(o, init, s))
  {
    crc := start;
    ghost var c := init;
    var j := 0;
    assert s[..0] == [];
    while j < |s|
      invariant 0 <= j <= |s| && c == Divide(o, init, s[..j]) && crc == widen(c)
    {
      LookupDivides(o, c, s[j]);
      DivideSnoc(o, init, s[..j], s[j]);
      assert s[..j + 1] == s[..j] + [s[j]];
      assert Simulates(o, widen, look, c, s[j]);
      crc, c := look(crc, s[j]), o.xor(o.drop(c), o.table(o.index(c, s[j])));
      j := j + 1;
    }
    assert s[..j] == s;
  }

  method ToolCrc16(s: seq<bv8>) returns (crc: bv32)
    ensures crc == Widen(Crc16(s))
  {
    Laws16();
    forall c: bv16, b: bv8 ensures Simulates(Ops16(), Widen, WideLook, c, b) { WideSimulates(c, b); }
    crc := WideChecksum(Ops16(), Widen, WideLook, 0, 0, s);
  }

  lemma ModIsMask(c: bv16)
    ensures (c as bv32) % 16384 == (c & 0x3fff) as bv32
  {}

  /** The wide register is reduced by a division, which keeps its low 14 bits. */
  method LowBits(crc: bv32, ghost c: bv16) returns (slot: bv32)
    requires crc == c as bv32
    ensures slot == (c & 0x3fff) as bv32
  {
    ModIsMask(c);
    slot := crc % 16384;
  }

  /** key_to_slot. */
  method KeyToSlot(key: seq<bv8>) returns (slot: bv32)
    ensures slot == Slot(key) as bv32
  {
    var part := SearchTag(key, OPEN, CLOSE);
    var crc := ToolCrc16(part);
    slot := LowBits(crc, Crc16(part));
  }
}
