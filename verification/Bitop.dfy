/**
 BITOP: four words at a time as long as every key has data, then byte by byte.

 Words are a parameter: `LoadLaw` says how operations meet a word that is put together byte
 by byte. `WordOps` proves it for the server's words.
 */
module Bitop {
  datatype Op = And | Or | Xor | Not

  datatype Ops<!B, !W> = Ops(
    zero: B,
    byte: (Op, B, B) -> B,
    flip: B -> B,
    empty: W,
    load: (W, B) -> W,          // a word moved on by a byte, with one brought in
    word: (Op, W, W) -> W,
    flipWord: W -> W,
    bytes: W -> seq<B>)         // the bytes of a word, as they lie in memory

  /** Eight bytes of memory as a word: the first is the least significant. */
  function Read<B, W>(o: Ops<B, W>, x: W, t: seq<B>): W
    requires |t| == 8
  {
    o.load(o.load(o.load(o.load(o.load(o.load(o.load(o.load(x, t[7]), t[6]), t[5]), t[4]), t[3]), t[2]), t[1]), t[0])
  }

  ghost predicate LoadLaw<B, W>(o: Ops<B, W>, op: Op, x: W, y: B, u: W, v: B) {
    && o.word(op, o.load(x, y), o.load(u, v)) == o.load(o.word(op, x, u), o.byte(op, y, v))
    && o.flipWord(o.load(x, y)) == o.load(o.flipWord(x), o.flip(y))
  }

  ghost predicate BytesLaw<B, W>(o: Ops<B, W>, x: W, t: seq<B>) { |t| == 8 ==> o.bytes(Read(o, x, t)) == t }

  ghost predicate Lawful<B(!new), W(!new)>(o: Ops<B, W>) {
    && (forall op: Op, x: W, y: B, u: W, v: B {:trigger LoadLaw(o, op, x, y, u, v)} :: LoadLaw(o, op, x, y, u, v))
    && (forall x: W, t: seq<B> {:trigger BytesLaw(o, x, t)} :: BytesLaw(o, x, t))
  }

  /** An operation on words is the operation on each of their bytes. */
  lemma WordByBytes<B(!new), W(!new)>(o: Ops<B, W>, op: Op, t: seq<B>, u: seq<B>)
    requires Lawful(o) && |t| == |u| == 8
    ensures var r := o.bytes(o.word(op, Read(o, o.empty, t), Read(o, o.empty, u)));
            |r| == 8 && forall i :: 0 <= i < 8 ==> r[i] == o.byte(op, t[i], u[i])
  {
    var r := [o.byte(op, t[0], u[0]), o.byte(op, t[1], u[1]), o.byte(op, t[2], u[2]), o.byte(op, t[3], u[3]),
              o.byte(op, t[4], u[4]), o.byte(op, t[5], u[5]), o.byte(op, t[6], u[6]), o.byte(op, t[7], u[7])];
    var x7, y7 := o.load(o.empty, t[7]), o.load(o.empty, u[7]);
    var x6, y6 := o.load(x7, t[6]), o.load(y7, u[6]);
    var x5, y5 := o.load(x6, t[5]), o.load(y6, u[5]);
    var x4, y4 := o.load(x5, t[4]), o.load(y5, u[4]);
    var x3, y3 := o.load(x4, t[3]), o.load(y4, u[3]);
    var x2, y2 := o.load(x3, t[2]), o.load(y3, u[2]);
    var x1, y1 := o.load(x2, t[1]), o.load(y2, u[1]);
    assert LoadLaw(o, op, o.empty, t[7], o.empty, u[7]) && LoadLaw(o, op, x7, t[6], y7, u[6]);
    assert LoadLaw(o, op, x6, t[5], y6, u[5]) && LoadLaw(o, op, x5, t[4], y5, u[4]);
    assert LoadLaw(o, op, x4, t[3], y4, u[3]) && LoadLaw(o, op, x3, t[2], y3, u[2]);
    assert LoadLaw(o, op, x2, t[1], y2, u[1]) && LoadLaw(o, op, x1, t[0], y1, u[0]);
    assert BytesLaw(o, o.word(op, o.empty, o.empty), r);
  }

  lemma FlipByBytes<B(!new), W(!new)>(o: Ops<B, W>, t: seq<B>)
    requires Lawful(o) && |t| == 8
    ensures var r := o.bytes(o.flipWord(Read(o, o.empty, t)));
            |r| == 8 && forall i :: 0 <= i < 8 ==> r[i] == o.flip(t[i])
  {
    var r := [o.flip(t[0]), o.flip(t[1]), o.flip(t[2]), o.flip(t[3]), o.flip(t[4]), o.flip(t[5]), o.flip(t[6]), o.flip(t[7])];
    var x7 := o.load(o.empty, t[7]);
    var x6 := o.load(x7, t[6]);
    var x5 := o.load(x6, t[5]);
    var x4 := o.load(x5, t[4]);
    var x3 := o.load(x4, t[3]);
    var x2 := o.load(x3, t[2]);
    var x1 := o.load(x2, t[1]);
    assert LoadLaw(o, Not, o.empty, t[7], o.empty, t[7]) && LoadLaw(o, Not, x7, t[6], x7, t[6]);
    assert LoadLaw(o, Not, x6, t[5], x6, t[5]) && LoadLaw(o, Not, x5, t[4], x5, t[4]);
    assert LoadLaw(o, Not, x4, t[3], x4, t[3]) && LoadLaw(o, Not, x3, t[2], x3, t[2]);
    assert LoadLaw(o, Not, x2, t[1], x2, t[1]) && LoadLaw(o, Not, x1, t[0], x1, t[0]);
    assert BytesLaw(o, o.flipWord(o.empty), r);
  }

  // ------------------------------------------------------------------ meaning

  /** A byte of a string, or zero past its end. */
  function At<B, W>(o: Ops<B, W>, s: seq<B>, j: nat): B { if j < |s| then s[j] else o.zero }

  /** The operation folded over byte `j` of the first `n` strings. */
  function Fold<B, W>(o: Ops<B, W>, op: Op, srcs: seq<seq<B>>, j: nat, n: nat): B
    requires 1 <= n <= |srcs|
  {
    if n == 1 then (if op.Not? then o.flip(At(o, srcs[0], j)) else At(o, srcs[0], j))
    else if op.Not? then Fold(o, op, srcs, j, n - 1)
    else o.byte(op, Fold(o, op, srcs, j, n - 1), At(o, srcs[n - 1], j))
  }

  // ------------------------------------------------------------ the fast path

  /** One word of the result combined with one word of a source. */
  method CombineWord<B(!new), W(!new)>(o: Ops<B, W>, op: Op, res: array<B>, at: nat, s: seq<B>)
    requires Lawful(o) && at + 8 <= res.Length && at + 8 <= |s| && !op.Not?
    modifies res
    ensures forall k :: 0 <= k < res.Length ==>
      res[k] == (if at <= k < at + 8 then o.byte(op, old(res[k]), s[k]) else old(res[k]))
  {
    var t, u := res[at..at + 8], s[at..at + 8];
    WordByBytes(o, op, t, u);
    var w := o.bytes(o.word(op, Read(o, o.empty, t), Read(o, o.empty, u)));
    forall i | 0 <= i < 8 { res[at + i] := w[i]; }
  }

  method FlipWord<B(!new), W(!new)>(o: Ops<B, W>, res: array<B>, at: nat)
    requires Lawful(o) && at + 8 <= res.Length
    modifies res
    ensures forall k :: 0 <= k < res.Length ==> res[k] == (if at <= k < at + 8 then o.flip(old(res[k])) else old(res[k]))
  {
    var t := res[at..at + 8];
    FlipByBytes(o, t);
    var w := o.bytes(o.flipWord(Read(o, o.empty, t)));
    forall i | 0 <= i < 8 { res[at + i] := w[i]; }
  }

  /** Four words of the result combined with four words of a source. */
  method CombineFour<B(!new), W(!new)>(o: Ops<B, W>, op: Op, res: array<B>, at: nat, s: seq<B>)
    requires Lawful(o) && at + 32 <= res.Length && at + 32 <= |s| && !op.Not?
    modifies res
    ensures forall k :: 0 <= k < res.Length ==>
      res[k] == (if at <= k < at + 32 then o.byte(op, old(res[k]), s[k]) else old(res[k]))
  {
    CombineWord(o, op, res, at, s);
    CombineWord(o, op, res, at + 8, s);
    CombineWord(o, op, res, at + 16, s);
    CombineWord(o, op, res, at + 24, s);
  }

  method FlipFour<B(!new), W(!new)>(o: Ops<B, W>, res: array<B>, at: nat)
    requires Lawful(o) && at + 32 <= res.Length
    modifies res
    ensures forall k :: 0 <= k < res.Length ==> res[k] == (if at <= k < at + 32 then o.flip(old(res[k])) else old(res[k]))
  {
    FlipWord(o, res, at);
    FlipWord(o, res, at + 8);
    FlipWord(o, res, at + 16);
    FlipWord(o, res, at + 24);
  }

  /** One turn of the fast path: 32 bytes over all keys. */
  method FastBlock<B(!new), W(!new)>(o: Ops<B, W>, op: Op, srcs: seq<seq<B>>, res: array<B>, at: nat)
    requires Lawful(o) && srcs != [] && at + 32 <= res.Length && (op.Not? ==> |srcs| == 1)
    requires forall i :: 0 <= i < |srcs| ==> at + 32 <= |srcs[i]|
    requires forall k :: at <= k < at + 32 ==> res[k] == srcs[0][k]
    modifies res
    ensures forall k :: 0 <= k < res.Length ==>
      res[k] == (if at <= k < at + 32 then Fold(o, op, srcs, k, |srcs|) else old(res[k]))
  {
    if op.Not? {
      FlipFour(o, res, at);
      return;
    }
    var i := 1;
    while i < |srcs|
      invariant 1 <= i <= |srcs|
      invariant forall k :: 0 <= k < res.Length ==>
        res[k] == (if at <= k < at + 32 then Fold(o, op, srcs, k, i) else old(res[k]))
    {
      CombineFour(o, op, res, at, srcs[i]);
      i := i + 1;
    }
  }

  /** The fast path: as many blocks of 32 bytes as every key fills. */
  method FastPath<B(!new), W(!new)>(o: Ops<B, W>, op: Op, srcs: seq<seq<B>>, res: array<B>, minlen: nat) returns (j: nat)
    requires Lawful(o) && srcs != [] && minlen <= res.Length && (op.Not? ==> |srcs| == 1)
    requires forall i :: 0 <= i < |srcs| ==> minlen <= |srcs[i]|
    modifies res
    ensures j <= minlen && forall k :: 0 <= k < j ==> res[k] == Fold(o, op, srcs, k, |srcs|)
  {
    forall k | 0 <= k < minlen { res[k] := srcs[0][k]; }
    j := 0;
    var left := minlen;
    while left >= 32
      invariant j + left == minlen
      invariant forall k :: 0 <= k < j ==> res[k] == Fold(o, op, srcs, k, |srcs|)
      invariant forall k :: j <= k < minlen ==> res[k] == srcs[0][k]
    {
      FastBlock(o, op, srcs, res, j);
      j, left := j + 32, left - 32;
    }
  }

  // --------------------------------------------------------------- the command

  /** The lookup loop: a missing key is an empty string and brings the shortest length to zero. */
  method Lengths<B>(keys: seq<Found<B>>) returns (srcs: seq<seq<B>>, minlen: nat, maxlen: nat)
    requires keys != []
    ensures |srcs| == |keys| && forall i :: 0 <= i < |keys| ==> srcs[i] == if keys[i].Present? then keys[i].s else []
    ensures forall i :: 0 <= i < |srcs| ==> minlen <= |srcs[i]| <= maxlen
    ensures exists i :: 0 <= i < |srcs| && |srcs[i]| == maxlen
  {
    srcs, minlen, maxlen := [], 0, 0;
    var j := 0;
    while j < |keys|
      invariant 0 <= j <= |keys| && |srcs| == j
      invariant forall i :: 0 <= i < j ==> srcs[i] == if keys[i].Present? then keys[i].s else []
      invariant forall i :: 0 <= i < j ==> minlen <= |srcs[i]| <= maxlen
      invariant j > 0 ==> exists i :: 0 <= i < j && |srcs[i]| == maxlen
      invariant j == 0 ==> maxlen == 0
    {
      var before := srcs;
      if keys[j].Missing? {
        srcs, minlen := srcs + [[]], 0;
        if j == 0 { assert |srcs[0]| == maxlen; }
      } else {
        srcs := srcs + [keys[j].s];
        if |keys[j].s| > maxlen { maxlen := |keys[j].s|; }
        if j == 0 || |keys[j].s| < minlen { minlen := |keys[j].s|; }
      }
      assert forall i :: 0 <= i < j ==> srcs[i] == before[i];
      assert |srcs[j]| == maxlen || exists i :: 0 <= i < j && |srcs[i]| == maxlen;
      j := j + 1;
    }
  }

  datatype Found<B> = Missing | Present(s: seq<B>)

  /** One byte of the slow path. */
  method SlowByte<B, W>(o: Ops<B, W>, op: Op, srcs: seq<seq<B>>, j: nat) returns (output: B)
    requires srcs != [] && (op.Not? ==> |srcs| == 1)
    ensures output == Fold(o, op, srcs, j, |srcs|)
  {
    output := if |srcs[0]| <= j then o.zero else srcs[0][j];
    if op.Not? { output := o.flip(output); }
    var i := 1;
    while i < |srcs|
      invariant 1 <= i <= |srcs| && output == Fold(o, op, srcs, j, i)
    {
      var byte := if |srcs[i]| <= j then o.zero else srcs[i][j];
      output := o.byte(op, output, byte);
      i := i + 1;
    }
  }

  /** The fast path where it applies, and byte by byte from there. */
  method Compute<B(!new), W(!new)>(o: Ops<B, W>, op: Op, srcs: seq<seq<B>>, out: array<B>, minlen: nat)
    requires Lawful(o) && srcs != [] && minlen <= out.Length && (op.Not? ==> |srcs| == 1)
    requires forall i :: 0 <= i < |srcs| ==> minlen <= |srcs[i]|
    modifies out
    ensures forall k :: 0 <= k < out.Length ==> out[k] == Fold(o, op, srcs, k, |srcs|)
  {
    var j := 0;
    if minlen >= 32 && |srcs| <= 16 { j := FastPath(o, op, srcs, out, minlen); }
    while j < out.Length
      invariant 0 <= j <= out.Length && forall k :: 0 <= k < j ==> out[k] == Fold(o, op, srcs, k, |srcs|)
    {
      out[j] := SlowByte(o, op, srcs, j);
      j := j + 1;
    }
  }

  /** bitopCommand: the result is the fold, byte by byte, over the padded strings; None when NOT
      is given several keys. */
  method BitopCommand<B(!new), W(!new)>(o: Ops<B, W>, op: Op, keys: seq<Found<B>>) returns (ok: bool, res: seq<B>, ghost srcs: seq<seq<B>>)
    requires Lawful(o) && keys != []
    ensures ok <==> !(op.Not? && |keys| != 1)
    ensures ok ==> |srcs| == |keys| && forall i :: 0 <= i < |keys| ==> srcs[i] == if keys[i].Present? then keys[i].s else []
    ensures ok ==> (forall i :: 0 <= i < |srcs| ==> |srcs[i]| <= |res|) && exists i :: 0 <= i < |srcs| && |srcs[i]| == |res|
    ensures ok ==> forall k :: 0 <= k < |res| ==> res[k] == Fold(o, op, srcs, k, |keys|)
  {
    if op.Not? && |keys| != 1 { return false, [], []; }
    var all, minlen, maxlen := Lengths(keys);
    srcs := all;
    var out := new B[maxlen](_ => o.zero);
    Compute(o, op, all, out, minlen);
    ok, res := true, out[..];
  }
}
