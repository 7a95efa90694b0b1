/**
 The slots part of a line of the nodes configuration: a bitmap printed as ranges, and
 loaded back one slot at a time.
 */
module NodeDescription {
  import opened Basics
  import opened Resp
  import opened SlotTable

  datatype Range = Range(start: int, stop: int)

  // ------------------------------------------------------------------- ranges

  /** Ascending ranges with a gap between neighbours, so none could be longer. */
  ghost predicate Maximal(rs: seq<Range>) {
    && (forall i :: 0 <= i < |rs| ==> 0 <= rs[i].start <= rs[i].stop)
    && (forall i, j :: 0 <= i < j < |rs| ==> rs[i].stop + 1 < rs[j].start)
  }

  ghost predicate In(rs: seq<Range>, k: int) {
    exists i :: 0 <= i < |rs| && rs[i].start <= k <= rs[i].stop
  }

  /** The ranges hold exactly the set bits. */
  ghost predicate Describes(rs: seq<Range>, bits: seq<bool>) {
    && Maximal(rs)
    && (forall i :: 0 <= i < |rs| ==> rs[i].stop < |bits|)
    && (forall k :: 0 <= k < |bits| ==> (bits[k] <==> In(rs, k)))
  }

  lemma InSnoc(rs: seq<Range>, r: Range, k: int)
    ensures In(rs + [r], k) <==> In(rs, k) || r.start <= k <= r.stop
  {
    var ss := rs + [r];
    if In(rs, k) {
      var i :| 0 <= i < |rs| && rs[i].start <= k <= rs[i].stop;
      assert ss[i] == rs[i];
    }
    if r.start <= k <= r.stop { assert ss[|rs|] == r; }
  }

  lemma PrefixIn(rs: seq<Range>, i: nat, k: int)
    requires i < |rs|
    ensures In(rs[..i + 1], k) <==> In(rs[..i], k) || rs[i].start <= k <= rs[i].stop
    ensures In(rs[..i + 1], k) ==> In(rs, k)
  {
    assert rs[..i + 1] == rs[..i] + [rs[i]];
    InSnoc(rs[..i], rs[i], k);
  }

  /** The loop of clusterGenNodeDescription, with its extra step at the last slot. */
  method SlotRanges(bits: seq<bool>) returns (rs: seq<Range>)
    ensures Describes(rs, bits)
  {
    rs := [];
    var start, j := -1, 0;
    while j < |bits|
      invariant 0 <= j <= |bits| + 1 && Maximal(rs)
      invariant start == -1 || (0 <= start < j < |bits| && forall k :: start <= k < j ==> bits[k])
      invariant forall i :: 0 <= i < |rs| ==> rs[i].stop < |bits| && rs[i].stop + 1 < (if start == -1 then j + 1 else start)
      invariant start == -1 && j < |bits| ==> forall i :: 0 <= i < |rs| ==> rs[i].stop + 1 < j
      invariant forall k :: 0 <= k < (if start == -1 then j else start) && k < |bits| ==> (bits[k] <==> In(rs, k))
      decreases |bits| + 1 - j
    {
      var bit := bits[j];
      if bit && start == -1 { start := j; }
      if start != -1 && (!bit || j == |bits| - 1) {
        if bit && j == |bits| - 1 { j := j + 1; }
        var r := Range(start, j - 1);
        forall k | 0 <= k < j && k < |bits| ensures bits[k] <==> In(rs + [r], k) {
          InSnoc(rs, r, k);
          assert k >= start ==> !In(rs, k);
        }
        if j < |bits| {
          InSnoc(rs, r, j);
          assert !In(rs, j);
        }
        rs, start := rs + [r], -1;
      } else if start == -1 {
        assert !In(rs, j);
      }
      j := j + 1;
    }
  }

  // ------------------------------------------------------------------- tokens

  function PrintRange(r: Range): bytes
    requires 0 <= r.start <= r.stop
  {
    if r.start == r.stop then Decimal(r.start) else Decimal(r.start) + [MINUS] + Decimal(r.stop)
  }

  /** One slot is printed by itself, several as the first, a minus sign and the last. */
  lemma TokenIs(start: nat, stop: nat)
    requires start <= stop
    ensures PrintRange(Range(start, stop)) == if start == stop then Decimal(start) else Decimal(start) + [45] + Decimal(stop)
    ensures PrintRange(Range(0, 5)) == [48, 45, 53] && PrintRange(Range(7, 7)) == [55]
  {}

  /** strchr: the first position of a byte, or the length. */
  function IndexOf(t: bytes, b: byte): (p: nat)
    ensures p <= |t| && (p < |t| ==> t[p] == b) && forall i :: 0 <= i < p ==> t[i] != b
  {
    if t == [] then 0 else if t[0] == b then 0 else 1 + IndexOf(t[1..], b)
  }

  function ParseRange(t: bytes): Range {
    var p := IndexOf(t, MINUS);
    if p == |t| then Range(ParseInt(t), ParseInt(t)) else Range(ParseInt(t[..p]), ParseInt(t[p + 1..]))
  }

  lemma RangeRoundTrip(r: Range)
    requires 0 <= r.start <= r.stop
    ensures ParseRange(PrintRange(r)) == r
  {
    var t, a, b := PrintRange(r), Decimal(r.start), Decimal(r.stop);
    DecimalDigits(r.start);
    DecimalDigits(r.stop);
    ParsePrintInt(r.start);
    ParsePrintInt(r.stop);
    if r.start != r.stop {
      assert forall i :: 0 <= i < |a| ==> t[i] == a[i];
      assert t[|a|] == MINUS;
      assert IndexOf(t, MINUS) == |a|;
      assert t[..|a|] == a && t[|a| + 1..] == b;
    }
  }

  function PrintRanges(rs: seq<Range>): seq<bytes>
    requires forall i :: 0 <= i < |rs| ==> 0 <= rs[i].start <= rs[i].stop
  {
    seq(|rs|, i requires 0 <= i < |rs| => PrintRange(rs[i]))
  }

  /** The slots of a line, as it is saved. */
  method GenSlots(n: Node) returns (tokens: seq<bytes>)
    ensures exists rs :: Describes(rs, n.bits) && tokens == PrintRanges(rs)
  {
    var ranges := SlotRanges(n.bits);
    tokens := PrintRanges(ranges);
  }

  // ------------------------------------------------------------------ loading

  /** One token of a line: every slot of the range is added. */
  method LoadRange(st: ClusterState, n: Node, r: Range) returns (ok: bool)
    requires st.Valid() && n in st.nodes && forall k :: 0 <= k < SLOTS ==> st.importing[k] == null
    modifies st.slots, st.nodes`bits, st.nodes`numslots
    ensures st.Valid() && (ok <==> 0 <= r.start < SLOTS && 0 <= r.stop < SLOTS)
    ensures forall k :: 0 <= k < SLOTS ==>
      st.slots[k] == (if ok && r.start <= k <= r.stop && old(st.slots[k]) == null then n else old(st.slots[k]))
  {
    if r.start < 0 || r.start >= SLOTS || r.stop < 0 || r.stop >= SLOTS { return false; }
    var start := r.start;
    while start <= r.stop
      invariant r.start <= start && (start <= r.stop + 1 || start == r.start) && st.Valid()
      invariant forall k :: 0 <= k < SLOTS ==>
        st.slots[k] == (if r.start <= k < start && k <= r.stop && old(st.slots[k]) == null then n else old(st.slots[k]))
    {
      var _ := st.AddSlot(n, start);
      start := start + 1;
    }
    ok := true;
  }

  /** Loading the printed slots of a node binds them to it. */
  method LoadSlots(st: ClusterState, n: Node, tokens: seq<bytes>, ghost rs: seq<Range>, ghost bits: seq<bool>)
    requires st.Valid() && n in st.nodes && forall k :: 0 <= k < SLOTS ==> st.importing[k] == null
    requires |bits| == SLOTS && Describes(rs, bits) && tokens == PrintRanges(rs)
    requires forall k :: 0 <= k < SLOTS && bits[k] ==> st.slots[k] == null
    modifies st.slots, st.nodes`bits, st.nodes`numslots
    ensures st.Valid()
    ensures forall k :: 0 <= k < SLOTS ==> st.slots[k] == (if bits[k] then n else old(st.slots[k]))
  {
    var i := 0;
    while i < |tokens|
      invariant 0 <= i <= |tokens| && st.Valid()
      invariant forall k :: 0 <= k < SLOTS ==> st.slots[k] == (if In(rs[..i], k) then n else old(st.slots[k]))
    {
      var r := ParseRange(tokens[i]);
      assert r == rs[i] by { RangeRoundTrip(rs[i]); }
      var _ := LoadRange(st, n, r);
      forall k | 0 <= k < SLOTS ensures st.slots[k] == (if In(rs[..i + 1], k) then n else old(st.slots[k])) {
        PrefixIn(rs, i, k);
      }
      i := i + 1;
    }
    assert rs[..i] == rs;
  }

  /** Loading the lines of all saved nodes rebuilds the owner table and every bitmap. */
  method LoadNodes(st: ClusterState, ns: seq<Node>, lines: seq<seq<bytes>>,
                   ghost ranges: seq<seq<Range>>, ghost bitmaps: seq<seq<bool>>)
    requires st.Valid() && |ns| == |lines| == |ranges| == |bitmaps|
    requires forall k :: 0 <= k < SLOTS ==> st.importing[k] == null && st.slots[k] == null
    requires forall i :: 0 <= i < |ns| ==> ns[i] in st.nodes && |bitmaps[i]| == SLOTS
    requires forall i :: 0 <= i < |ns| ==> Describes(ranges[i], bitmaps[i]) && lines[i] == PrintRanges(ranges[i])
    requires forall i, j, k :: 0 <= i < j < |ns| && 0 <= k < SLOTS ==> ns[i] != ns[j] && !(bitmaps[i][k] && bitmaps[j][k])
    modifies st.slots, st.nodes`bits, st.nodes`numslots
    ensures st.Valid() && forall i :: 0 <= i < |ns| ==> ns[i].bits == bitmaps[i]
  {
    var i := 0;
    while i < |ns|
      invariant 0 <= i <= |ns| && st.Valid()
      invariant forall j, k :: 0 <= j < |ns| && 0 <= k < SLOTS && bitmaps[j][k] ==> st.slots[k] == (if j < i then ns[j] else null)
      invariant forall j, k :: 0 <= j < |ns| && 0 <= k < SLOTS && st.slots[k] == ns[j] ==> j < i && bitmaps[j][k]
    {
      LoadSlots(st, ns[i], lines[i], ranges[i], bitmaps[i]);
      i := i + 1;
    }
    forall j | 0 <= j < |ns| ensures ns[j].bits == bitmaps[j] {
      assert forall k :: 0 <= k < SLOTS ==> (ns[j].bits[k] <==> st.slots[k] == ns[j]);
    }
  }
}
