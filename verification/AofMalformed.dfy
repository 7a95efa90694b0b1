/**
 Files that were not cut but damaged: where the loader gives up, and where the checker does.
 */
module AofMalformed {
  import opened Basics
  import opened Resp
  import opened AofRecovery
  import L = AofLoader

  // ------------------------------------------------------------------ loader

  /** The first byte of a line is on it. */
  lemma LineStarts(f: bytes, p: nat)
    requires p < |f|
    ensures Line(f, p) != [] && Line(f, p)[0] == f[p]
  {}

  /** fgets with 128 bytes of room: up to and with the first line end, 127 bytes at most. */
  lemma {:induction false} LineIs(f: bytes, p: nat, room: nat)
    requires p <= |f|
    ensures var n := LineLen(f, p, room);
            && n <= room && p + n <= |f| && (forall i :: p <= i < p + n - 1 ==> f[i] != 10)
            && (n == room || p + n == |f| || (n > 0 && f[p + n - 1] == 10))
    ensures LINE_ROOM == 127
    decreases room
  {
    if room > 0 && p < |f| { LineIs(f, p + 1, room - 1); }
  }

  /** strtol skips spaces, takes one sign, and stops at what is no digit; without a digit it takes
      nothing. */
  lemma StrtolIs()
    ensures Strtol([32, 9, 49, 50, 120], 0) == (12, 4) && Strtol([45, 53], 0) == (-5, 2) && Strtol([43, 55], 0) == (7, 2)
    ensures Strtol([120], 0) == (0, 0) && Strtol([45, 45, 49], 0) == (0, 0) && Strtol([], 0) == (0, 0)
  {
    assert Digits([32, 9, 49, 50, 120], 2, 0) == Digits([32, 9, 49, 50, 120], 3, 1) == Digits([32, 9, 49, 50, 120], 4, 12) == (12, 4);
    assert SkipSpaces([32, 9, 49, 50, 120], 0) == SkipSpaces([32, 9, 49, 50, 120], 1) == SkipSpaces([32, 9, 49, 50, 120], 2) == 2;
    assert Digits([45, 53], 1, 0) == Digits([45, 53], 2, 5) == (5, 2);
    assert Digits([43, 55], 1, 0) == Digits([43, 55], 2, 7) == (7, 2);
  }

  /** MULTI opens a transaction for the loader, EXEC and DISCARD close it, whatever was open. */
  lemma MultiIs(multi: bool, c: Argv)
    ensures c == [[77, 85, 76, 84, 73]] ==> L.MultiAfter(multi, c)
    ensures c == [[69, 88, 69, 67]] || c == [[68, 73, 83, 67, 65, 82, 68]] ==> !L.MultiAfter(multi, c)
    ensures c == [[71, 69, 84]] ==> L.MultiAfter(multi, c) == multi
  {
    assert |MULTI| == 5 && |EXEC| == 4 && |L.DISCARD| == 7;
    if c == [[69, 88, 69, 67]] { assert SameName(c[0], EXEC) && !SameName(c[0], MULTI); }
    if c == [[68, 73, 83, 67, 65, 82, 68]] { assert SameName(c[0], L.DISCARD) && Lower(c[0][0]) == 100; }
  }

  /** Commands are run up to the damage, and then the server exits. */
  lemma DamageIsFatal(log: seq<Argv>, junk: bytes, f: bytes)
    requires forall i :: 0 <= i < |log| ==> PlainCommand(log[i])
    requires junk != [] && junk[0] != 42 && f == EncodeAll(log) + junk
    ensures L.Load(f) == L.Fatal(log)
  {
    L.FileLoads(f);
    L.CommandsMove(f);
    ReadsAllThenFails(L.CommandsIn(f), f, log, junk);
  }

  lemma ReadsAllThenFails(cs: nat -> L.Loaded, f: bytes, log: seq<Argv>, junk: bytes)
    requires forall i :: 0 <= i < |log| ==> WellFormed(log[i])
    requires junk != [] && junk[0] != 42 && f == EncodeAll(log) + junk
    requires L.LoadsFrom(cs, f) && L.Moving(cs, |f|) && cs == L.CommandsIn(f)
    ensures L.LoadFrom(cs, |f|, 0, [], false) == L.Fatal(log)
  {
    assert At(f, 0, EncodeAll(log));
    var k, q := L.LoadCut(cs, f, 0, log);
    NoCut(f, log, k, q);
    assert log[..k] == log && [] + log == log;
    L.LoadRuns(cs, |f|, 0, log, q, [], false);
    BadStart(f, q);
  }

  lemma BadStart(f: bytes, q: nat)
    requires q < |f| && f[q] != 42
    ensures L.CommandsIn(f)(q) == L.BadFormat
  {
    LineStarts(f, q);
  }

  /** A text that is there in full is not cut anywhere. */
  lemma NoCut(f: bytes, log: seq<Argv>, k: nat, q: nat)
    requires k <= |log| && q == |EncodeAll(log[..k])| && |f| > |EncodeAll(log)|
    requires k < |log| ==> CutIn(f, q, Encode(log[k]))
    ensures k == |log| && q == |EncodeAll(log)|
  {
    assert log[..|log|] == log;
    if k < |log| {
      EncodeAllSnoc(log, k);
      PrefixLen(log, k + 1, |log|);
    }
  }

  /** A command must have a count of one or more, and every argument a length of zero or more. */
  lemma BadCount(f: bytes, p: nat)
    requires p < |f| && f[p] == 42 && |Line(f, p)| > 1 && Line(f, p)[1] != 0 && Strtol(Line(f, p), 1).0 < 1
    ensures L.LoadHead(f, p) == L.HeadBad
  {}

  lemma BadArgument(f: bytes, p: nat)
    requires p < |f| && (f[p] != 36 || Strtol(Line(f, p), 1).0 < 0)
    ensures L.LoadArg(f, p) == L.ArgBad
  {
    LineStarts(f, p);
  }

  /** An argument that is not there in full, with the two bytes behind it, is a short read. */
  lemma ShortArgument(f: bytes, p: nat)
    requires p < |f| && f[p] == 36 && Strtol(Line(f, p), 1).0 >= 0
    requires p + |Line(f, p)| + Strtol(Line(f, p), 1).0 + 2 > |f|
    ensures L.LoadArg(f, p) == L.ArgShort && L.LoadArg(f, |f|) == L.ArgShort
  {
    LineStarts(f, p);
  }

  // ----------------------------------------------------------------- checker

  /** The checker stops at an EXEC without MULTI. */
  lemma LoneExec(c: Argv, rest: seq<Argv>)
    requires WellFormed(c) && IsExec(c[0])
    ensures Checked(EncodeAll([c] + rest)) == 0
  {
    var f := EncodeAll([c] + rest);
    FileReads(f);
    CommandsAdvance(f);
    assert ([c] + rest)[1..] == rest;
    assert f == Encode(c) + EncodeAll(rest);
    assert At(f, 0, Encode(c));
    if IsMulti(c[0]) { NamesDiffer(c[0]); }
  }

  /** And at a second MULTI: nothing from the first on counts, whatever follows. */
  lemma SecondMulti(b: Argv, c: Argv, rest: seq<Argv>)
    requires WellFormed(b) && IsMulti(b[0]) && WellFormed(c) && IsMulti(c[0])
    ensures Checked(EncodeAll([b, c] + rest)) == 0
  {
    var log, more := [b, c] + rest, [c] + rest;
    var f := EncodeAll(log);
    assert log[1..] == more && more[1..] == rest && log[0] == b && more[0] == c;
    assert EncodeAll(log) == Encode(b) + EncodeAll(more);
    FileReads(f);
    CommandsAdvance(f);
    TwoAt(f, Encode(b), Encode(c), EncodeAll(rest));
    StopsAtSecond(CommandsOf(f), |f|, b, c);
  }

  lemma TwoAt(f: bytes, x: bytes, y: bytes, z: bytes)
    requires f == x + (y + z)
    ensures At(f, 0, x) && At(f, |x|, y)
  {}

  lemma StopsAtSecond(cs: nat -> Command, size: nat, b: Argv, c: Argv)
    requires Advancing(cs, size) && b != [] && c != [] && IsMulti(b[0]) && IsMulti(c[0])
    requires cs(0).Command? && cs(0).args == b && cs(cs(0).next).Command? && cs(cs(0).next).args == c
    ensures CheckFrom(cs, size, 0, 0, 0) == 0
  {}
}
