/**
 The writing side of the log as the server's fields hold it: the rewrite buffer in
 fixed size blocks, the append buffer, and the handlers that change them.
 */
module AofWriter {
  import opened Resp
  import opened Keyspace

  /** The bytes per block. */
  const BLOCK_SIZE: nat := 10485760

  class Block {
    var used: nat
    var free: nat
    const buf: array<byte>

    ghost predicate Valid()
      reads this
    {
      used + free == BLOCK_SIZE == buf.Length
    }

    ghost function Contents(): bytes
      requires Valid()
      reads this, buf
    {
      buf[..used]
    }

    constructor ()
      ensures Valid() && fresh(buf) && used == 0
    {
      buf := new byte[BLOCK_SIZE];
      used, free := 0, BLOCK_SIZE;
    }

    /** memcpy of what fits behind the used part. */
    method Fill(s: bytes) returns (n: nat)
      requires Valid()
      modifies this, buf
      ensures Valid() && n == (if old(free) < |s| then old(free) else |s|)
      ensures Contents() == old(Contents()) + s[..n]
    {
      n := if free < |s| then free else |s|;
      ghost var was := buf[..used];
      forall i | 0 <= i < n { buf[used + i] := s[i]; }
      used, free := used + n, free - n;
      assert buf[..used] == was + s[..n];
    }

    /** memmove of the unsent part to the front. */
    method Shift(n: nat)
      requires Valid() && n <= used
      modifies this, buf
      ensures Valid() && Contents() == old(Contents())[n..]
    {
      ghost var was := buf[..used];
      forall i | 0 <= i < used - n { buf[i] := buf[i + n]; }
      used, free := used - n, free + n;
      assert buf[..used] == was[n..];
    }
  }

  /** The blocks do not share storage. */
  ghost predicate Apart(bs: seq<Block>)
    reads bs
  {
    forall i, j :: 0 <= i < j < |bs| ==> bs[i] != bs[j] && bs[i].buf != bs[j].buf
  }

  ghost predicate AllValid(bs: seq<Block>)
    reads bs
  {
    forall i :: 0 <= i < |bs| ==> bs[i].Valid()
  }

  ghost function Arrays(bs: seq<Block>): set<object> {
    set i | 0 <= i < |bs| :: bs[i].buf
  }

  ghost function Texts(bs: seq<Block>): (ts: seq<bytes>)
    requires AllValid(bs)
    reads bs, Arrays(bs)
    ensures |ts| == |bs| && forall i :: 0 <= i < |bs| ==> ts[i] == bs[i].Contents()
  {
    seq(|bs|, i requires 0 <= i < |bs| && AllValid(bs) reads bs, Arrays(bs) => bs[i].Contents())
  }

  ghost function Join(ts: seq<bytes>): bytes {
    if ts == [] then [] else ts[0] + Join(ts[1..])
  }

  lemma {:induction false} JoinSnoc(ts: seq<bytes>, t: bytes)
    ensures Join(ts + [t]) == Join(ts) + t
    decreases |ts|
  {
    if ts == [] {
      assert [t][1..] == [];
    } else {
      assert (ts + [t])[1..] == ts[1..] + [t];
      JoinSnoc(ts[1..], t);
    }
  }

  /** Growing the last text grows the whole at its end. */
  lemma JoinGrow(ts: seq<bytes>, us: seq<bytes>, piece: bytes)
    requires |ts| == |us| > 0 && us[..|us| - 1] == ts[..|ts| - 1] && us[|us| - 1] == ts[|ts| - 1] + piece
    ensures Join(us) == Join(ts) + piece
  {
    var init, last := ts[..|ts| - 1], ts[|ts| - 1];
    assert ts == init + [last] && us == init + [last + piece];
    JoinSnoc(init, last);
    JoinSnoc(init, last + piece);
    Regroup(Join(init), last, piece);
  }

  class RewriteBuffer {
    var blocks: seq<Block>

    /** Whether the event that sends the blocks to the child is installed. */
    var sending: bool

    /** The objects this buffer may change: itself, its blocks and their storage. */
    ghost var Repr: set<object>

    ghost predicate Valid()
      reads this, Repr
    {
      && this in Repr
      && (forall i :: 0 <= i < |blocks| ==> blocks[i] in Repr && blocks[i].buf in Repr)
      && AllValid(blocks) && Apart(blocks)
    }

    ghost function Contents(): bytes
      requires Valid()
      reads Repr, this
    {
      Join(Texts(blocks))
    }

    constructor ()
      ensures Valid() && blocks == [] && Contents() == [] && !sending && fresh(Repr)
    {
      blocks, sending, Repr := [], false, {this};
    }

    method FillLast(s: bytes) returns (n: nat)
      requires Valid() && blocks != []
      modifies blocks[|blocks| - 1], blocks[|blocks| - 1].buf
      ensures Valid() && n <= |s|
      ensures Contents() == old(Contents()) + s[..n]
      ensures n == |s| || blocks[|blocks| - 1].free == 0
      ensures old(blocks[|blocks| - 1].free) > 0 && s != [] ==> n > 0
    {
      ghost var ts := Texts(blocks);
      var k := |blocks| - 1;
      n := blocks[k].Fill(s);
      JoinGrow(ts, Texts(blocks), s[..n]);
    }

    method AddBlock()
      requires Valid()
      modifies this
      ensures Valid() && |blocks| == |old(blocks)| + 1 && sending == old(sending)
      ensures fresh(Repr - old(Repr))
      ensures Contents() == old(Contents()) && blocks[|blocks| - 1].free == BLOCK_SIZE
    {
      var block := new Block();
      Push(block);
    }

    method Push(block: Block)
      requires Valid() && block.Valid() && block !in Repr && block.buf !in Repr
      modifies this`blocks, this`Repr
      ensures Valid() && blocks == old(blocks) + [block] && Repr == old(Repr) + {block, block.buf}
      ensures Contents() == old(Contents()) + block.Contents()
      ensures block.used == 0 ==> Contents() == old(Contents())
    {
      ghost var ts := Texts(blocks);
      blocks, Repr := blocks + [block], Repr + {block, block.buf};
      assert Texts(blocks) == ts + [block.Contents()];
      JoinSnoc(ts, block.Contents());
    }

    /** One turn of the append loop: fill the last block, and open another if bytes are left. */
    method AppendSome(s: bytes) returns (n: nat)
      requires Valid() && s != []
      modifies Repr
      ensures Valid() && fresh(Repr - old(Repr)) && n <= |s|
      ensures Contents() == old(Contents()) + s[..n]
      ensures n < |s| ==> blocks != [] && blocks[|blocks| - 1].free > 0
      ensures old(blocks != [] && blocks[|blocks| - 1].free > 0) ==> n > 0
    {
      n := 0;
      assert s[..0] == [];
      if blocks != [] { n := FillLast(s); }
      if n < |s| { AddBlock(); }
    }

    /** One turn of the append loop, with what was there before it began. */
    method AppendFrom(s: bytes, i: nat, ghost was: bytes) returns (n: nat)
      requires Valid() && i < |s| && Contents() == was + s[..i]
      modifies Repr
      ensures Valid() && fresh(Repr - old(Repr)) && i + n <= |s| && Contents() == was + s[..i + n]
      ensures i + n < |s| ==> blocks != [] && blocks[|blocks| - 1].free > 0
      ensures old(blocks != [] && blocks[|blocks| - 1].free > 0) ==> n > 0
    {
      n := AppendSome(s[i..]);
      Slices(was, s, i, n);
    }

    /** The append loop: the bytes go in at the end, across as many blocks as they need. */
    method AppendAll(s: bytes)
      requires Valid()
      modifies Repr
      ensures Valid() && Contents() == old(Contents()) + s && fresh(Repr - old(Repr))
    {
      var i := 0;
      ghost var was, room := Contents(), false;
      assert s[..0] == [];
      while i < |s|
        invariant i <= |s| && Valid() && fresh(Repr - old(Repr)) && Contents() == was + s[..i]
        invariant room && i < |s| ==> blocks != [] && blocks[|blocks| - 1].free > 0
        decreases |s| - i, !room
      {
        var n := AppendFrom(s, i, was);
        i, room := i + n, true;
      }
      assert s[..i] == s;
    }

    /** aofRewriteBufferAppend. */
    method Append(s: bytes)
      requires Valid()
      modifies Repr
      ensures Valid() && Contents() == old(Contents()) + s && sending && fresh(Repr - old(Repr))
    {
      AppendAll(s);
      SetSending(true);
    }

    /** aeCreateFileEvent and aeDeleteFileEvent. */
    method SetSending(on: bool)
      requires Valid()
      modifies this`sending
      ensures Valid() && Contents() == old(Contents()) && sending == on
    {
      sending := on;
      assert Texts(blocks) == old(Texts(blocks));
    }

    /** Write `n` bytes of the first block to the pipe. */
    method SendFirst(n: nat) returns (piece: bytes)
      requires Valid() && blocks != [] && n <= blocks[0].used
      modifies blocks[0], blocks[0].buf
      ensures Valid() && |piece| == n && old(Contents()) == piece + Contents()
    {
      ghost var ts := Texts(blocks);
      piece := blocks[0].buf[..n];
      blocks[0].Shift(n);
      ghost var us := Texts(blocks);
      assert us[1..] == ts[1..] && ts[0] == piece + us[0];
      Regroup(piece, us[0], Join(us[1..]));
    }

    /** listDelNode of a first block that is used up. */
    method DropFirst()
      requires Valid() && blocks != [] && blocks[0].used == 0
      modifies this`blocks
      ensures Valid() && blocks == old(blocks)[1..] && Contents() == old(Contents()) && sending == old(sending)
    {
      ghost var ts := Texts(blocks);
      blocks := blocks[1..];
      assert Texts(blocks) == ts[1..] && ts[0] == [];
      assert ts[0] + Join(ts[1..]) == Join(ts[1..]);
    }

    /** aofChildWriteDiffData: bytes leave from the front. `accepts` is how much each
        write(2) takes; when it is used up the pipe is full. */
    method ChildWriteDiffData(stop: bool, accepts: seq<nat>) returns (sent: bytes)
      requires Valid()
      modifies Repr
      ensures Valid() && old(Contents()) == sent + Contents() && Repr == old(Repr)
      ensures stop ==> sent == [] && !sending
      ensures !sending ==> stop || blocks == [] || !old(sending)
    {
      sent := [];
      var k := 0;
      ghost var whole := Contents();
      while !stop && blocks != []
        invariant Valid() && whole == sent + Contents() && k <= |accepts| && sending == old(sending)
        invariant Repr == old(Repr)
        invariant stop ==> sent == []
        decreases |accepts| - k, |blocks|
      {
        if blocks[0].used > 0 {
          if k == |accepts| || accepts[k] == 0 { return; }
          var n := if accepts[k] < blocks[0].used then accepts[k] else blocks[0].used;
          ghost var before := sent;
          var piece := SendFirst(n);
          Regroup(before, piece, Contents());
          sent, k := sent + piece, k + 1;
        }
        if blocks[0].used == 0 { DropFirst(); }
      }
      SetSending(false);
    }

    /** aofRewriteBufferSize. */
    method Size() returns (size: nat)
      requires Valid()
      ensures size == |Contents()|
    {
      size := 0;
      var i := 0;
      ghost var ts := Texts(blocks);
      while i < |blocks|
        invariant i <= |blocks| && size == |Join(ts[..i])|
      {
        assert ts[..i + 1] == ts[..i] + [ts[i]];
        JoinSnoc(ts[..i], ts[i]);
        size, i := size + blocks[i].used, i + 1;
      }
      assert i == |ts| && ts[..i] == ts && ts == Texts(blocks);
    }

    /** Each write takes all of its block; empty blocks are not written. */
    ghost predicate TakenWhole(accepts: seq<nat>)
      requires Valid()
      reads this, Repr
    {
      forall i :: 0 <= i < |blocks| && blocks[i].used > 0 ==> i < |accepts| && accepts[i] >= blocks[i].used
    }

    /** aofRewriteBufferWrite: all blocks go to the new file, or a short write ends it. */
    method Write(accepts: seq<nat>) returns (ok: bool, out: bytes)
      requires Valid()
      ensures ok ==> out == Contents()
      ensures ok == TakenWhole(accepts)
      ensures ok <==> forall i :: 0 <= i < |blocks| && blocks[i].used > 0 ==> i < |accepts| && accepts[i] >= blocks[i].used
    {
      out := [];
      var i := 0;
      ghost var ts := Texts(blocks);
      while i < |blocks|
        invariant i <= |blocks| && out == Join(ts[..i])
        invariant forall j :: 0 <= j < i && blocks[j].used > 0 ==> j < |accepts| && accepts[j] >= blocks[j].used
      {
        if blocks[i].used > 0 {
          if i >= |accepts| || accepts[i] < blocks[i].used { return false, out; }
        }
        assert ts[..i + 1] == ts[..i] + [ts[i]];
        JoinSnoc(ts[..i], ts[i]);
        out, i := out + blocks[i].buf[..blocks[i].used], i + 1;
      }
      assert i == |ts| && ts[..i] == ts && ts == Texts(blocks);
      ok := true;
    }
  }

  lemma Slices(was: bytes, s: bytes, i: nat, n: nat)
    requires i + n <= |s|
    ensures (was + s[..i]) + s[i..][..n] == was + s[..i + n]
  {}
}
