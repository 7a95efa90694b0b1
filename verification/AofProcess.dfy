/**
 The server process as the holder of the log: its fields, the handlers that change
 them, and the step of `AofLog` that each handler is.
 */
module AofProcess {
  import opened Basics
  import opened Resp
  import opened Keyspace
  import opened AofCommands
  import opened AofRewrite
  import opened AofExpire
  import opened AofFeed
  import opened AofServer
  import opened AofWriter
  import opened AofRecovery
  import L = AofLog
  import Loader = AofLoader

  /** A SELECT if the database changes. */
  method SelectIfNeeded(sel: Option<nat>, db: nat) returns (text: bytes)
    ensures text == EncodeAll(if sel == Some(db) then [] else [Select(db)])
  {
    text := [];
    if sel != Some(db) {
      text := CatGenericCommand(text, Select(db));
      EncodeOne(Select(db));
    }
  }

  /** The text of one feed, unless it stops the server. */
  method FeedText(sel: Option<nat>, db: nat, now: int, argv: Argv) returns (stopped: bool, text: bytes, ghost cs: seq<Argv>)
    ensures stopped <==> Stops(argv)
    ensures !stopped ==> cs == Translate(now, argv)
    ensures !stopped ==> text == EncodeAll((if sel == Some(db) then [] else [Select(db)]) + cs)
  {
    var head := SelectIfNeeded(sel, db);
    stopped, text, cs := FeedAfter(head, now, argv);
    EncodeAllConcat(if sel == Some(db) then [] else [Select(db)], cs);
  }

  method FeedAfter(head: bytes, now: int, argv: Argv) returns (stopped: bool, text: bytes, ghost cs: seq<Argv>)
    ensures stopped <==> Stops(argv)
    ensures !stopped ==> cs == Translate(now, argv) && text == head + EncodeAll(cs)
  {
    stopped, text := FeedCommands(head, now, argv);
    cs := if stopped then [] else Translate(now, argv);
  }

  lemma FeedPrints(other: Other, dbnum: nat, s: L.State, db: nat, cs: seq<Argv>, text: bytes)
    requires text == EncodeAll((if s.sel == Some(db) then [] else [Select(db)]) + cs)
    ensures L.Feed(ServerEnv(other, dbnum), s, db, cs) == L.Appended(s, db, text)
  {}

  class Server {
    var mode: L.Mode
    var file: bytes
    var buf: bytes
    var size: nat
    var sel: Option<nat>
    var childRunning: bool
    var stopSendingDiff: bool
    var rewrite: RewriteBuffer

    /** What the child process holds, the clock, and the dataset. */
    ghost var child: L.Child
    ghost var clock: int
    ghost var data: seq<Db>

    ghost predicate Valid()
      reads this, rewrite, rewrite.Repr
    {
      && this !in rewrite.Repr && rewrite.Valid()
      && childRunning == child.Child? && (child.Child? ==> stopSendingDiff == child.stop)
      && (if child.Child? then child.blocks == rewrite.Contents() else rewrite.Contents() == [])
    }

    ghost function Abs(): L.State
      reads this
    {
      L.State(mode, file, buf, size, sel, child, clock, data)
    }

    constructor (on: bool, ghost now: int, ghost start: seq<Db>)
      ensures Valid() && fresh(rewrite) && fresh(rewrite.Repr)
      ensures Abs() == L.State(if on then L.On else L.Off, [], [], 0, None, L.NoChild, now, start)
    {
      mode := if on then L.On else L.Off;
      file, buf, size, sel, childRunning, stopSendingDiff := [], [], 0, None, false, false;
      child, clock, data := L.NoChild, now, start;
      rewrite := new RewriteBuffer();
    }

    /** feedAppendOnlyFile: SELECT if the database changes, then the translated command. A SET
        in which both units are found stops the server before anything is appended. */
    method FeedAppendOnlyFile(db: nat, now: int, argv: Argv, ghost other: Other, ghost dbnum: nat)
      returns (stopped: bool, text: bytes, ghost cs: seq<Argv>)
      requires Valid()
      modifies this, rewrite.Repr
      ensures Valid() && rewrite == old(rewrite) && fresh(rewrite.Repr - old(rewrite.Repr))
      ensures stopped <==> Stops(argv)
      ensures !stopped ==> text == EncodeAll((if old(sel) == Some(db) then [] else [Select(db)]) + cs)
      ensures !stopped ==> Abs() == L.Feed(ServerEnv(other, dbnum), old(Abs()), db, cs)
      ensures stopped ==> Abs() == old(Abs()).(sel := Some(db))
      ensures mode == old(mode) && file == old(file) && size == old(size) && sel == Some(db)
      ensures buf == if mode.On? && !stopped then old(buf) + text else old(buf)
      ensures rewrite.Contents() == if childRunning && !stopped then old(rewrite.Contents()) + text else old(rewrite.Contents())
      ensures !stopped ==> cs == Translate(now, argv)
    {
      stopped, text, cs := FeedText(sel, db, now, argv);
      FeedOrStop(stopped, db, text, cs, other, dbnum);
    }

    /** What a feed does once it is known whether the assertion holds. */
    method FeedOrStop(stopped: bool, db: nat, text: bytes, ghost cs: seq<Argv>, ghost other: Other, ghost dbnum: nat)
      requires Valid() && (!stopped ==> text == EncodeAll((if sel == Some(db) then [] else [Select(db)]) + cs))
      modifies this, rewrite.Repr
      ensures Valid() && rewrite == old(rewrite) && fresh(rewrite.Repr - old(rewrite.Repr))
      ensures !stopped ==> Abs() == L.Feed(ServerEnv(other, dbnum), old(Abs()), db, cs)
      ensures stopped ==> Abs() == old(Abs()).(sel := Some(db))
      ensures mode == old(mode) && file == old(file) && size == old(size) && sel == Some(db)
      ensures buf == if mode.On? && !stopped then old(buf) + text else old(buf)
      ensures rewrite.Contents() == if childRunning && !stopped then old(rewrite.Contents()) + text else old(rewrite.Contents())
    {
      if stopped {
        sel := Some(db);
        return;
      }
      FeedPrints(other, dbnum, Abs(), db, cs, text);
      AppendText(db, text);
    }

    method AppendText(db: nat, text: bytes)
      requires Valid()
      modifies this, rewrite.Repr
      ensures Valid() && rewrite == old(rewrite) && fresh(rewrite.Repr - old(rewrite.Repr))
      ensures Abs() == L.Appended(old(Abs()), db, text)
      ensures mode == old(mode) && file == old(file) && size == old(size) && childRunning == old(childRunning)
      ensures sel == Some(db) && buf == if mode.On? then old(buf) + text else old(buf)
      ensures rewrite.Contents() == if childRunning then old(rewrite.Contents()) + text else old(rewrite.Contents())
    {
      sel := Some(db);
      if mode.On? { buf := buf + text; }
      if childRunning { AppendToChild(text); }
    }

    method AppendToChild(text: bytes)
      requires Valid() && child.Child?
      modifies `child, rewrite.Repr
      ensures Valid() && fresh(rewrite.Repr - old(rewrite.Repr))
      ensures rewrite.Contents() == old(rewrite.Contents()) + text
      ensures child == old(child).(blocks := old(child).blocks + text, fed := old(child).fed + text)
    {
      rewrite.Append(text);
      child := child.(blocks := child.blocks + text, fed := child.fed + text);
    }

    /** What the writes of one flush amount to. */
    function Outcome(nwritten: int, truncated: bool): L.Written
      requires nwritten <= |buf|
      reads this
    {
      if nwritten == |buf| then L.Full
      else if nwritten < 0 then L.Failed
      else if truncated then L.ShortUndone(nwritten)
      else L.ShortKept(nwritten)
    }

    /** A write that took less than the buffer: what is in the file after it, and how much of the
        buffer is to be counted as written. */
    method WriteShort(nwritten: int, truncated: bool) returns (n: int)
      requires -1 <= nwritten < |buf|
      modifies `file
      ensures n == (if truncated then -1 else nwritten)
      ensures file == if nwritten == -1 then old(file)
                      else if truncated then L.Truncate(old(file) + buf[..nwritten], size)
                      else old(file) + buf[..nwritten]
    {
      n := nwritten;
      if n > 0 { file := file + buf[..n]; }
      assert nwritten == 0 ==> old(file) + buf[..nwritten] == old(file);
      if n != -1 && truncated {
        file := L.Truncate(file, size);
        n := -1;
      }
    }

    /** Cutting a file is keeping a start of it, and does nothing to a file that is shorter. */
    lemma TruncateIs(f: bytes, n: nat)
      ensures L.Truncate(f, n) <= f && |L.Truncate(f, n)| == if n <= |f| then n else |f|
    {}

    /** The part that was written leaves the buffer. */
    method Advance(n: int)
      requires -1 <= n <= |buf|
      modifies `size, `buf
      ensures size == old(size) + (if n > 0 then n else 0) && buf == old(buf)[if n > 0 then n else 0..]
    {
      if n > 0 {
        size := size + n;
        buf := buf[n..];
      }
    }

    /** flushAppendOnlyFile. `nwritten` is what write(2) returned, `truncated` whether
        ftruncate(2) worked; with no descriptor open a write fails. A flush may be put off
        while an fsync is in progress; when every write must be synced, a failed one ends
        the process. */
    method FlushAppendOnlyFile(postpone: bool, nwritten: int, truncated: bool, always: bool) returns (exited: bool)
      requires Valid() && -1 <= nwritten <= |buf| && (mode.Off? && buf != [] ==> nwritten == -1)
      modifies `file, `size, `buf
      ensures Valid()
      ensures old(buf) == [] || postpone ==> !exited && Abs() == old(Abs())
      ensures old(buf) != [] && !postpone && !exited ==> Abs() == L.Flushed(old(Abs()), old(Outcome(nwritten, truncated)))
      ensures exited <==> old(buf) != [] && !postpone && always && nwritten != |old(buf)|
      ensures var moved := old(buf) != [] && !postpone && !exited;
        && (!moved || nwritten == -1 ==> (!exited ==> file == old(file)) && buf == old(buf) && size == old(size))
        && (moved && nwritten == |old(buf)| ==>
              file == old(file) + old(buf) && buf == [] && size == old(size) + |old(buf)|)
        && (moved && 0 <= nwritten < |old(buf)| && !truncated ==>
              file == old(file) + old(buf)[..nwritten] && buf == old(buf)[nwritten..] && size == old(size) + nwritten)
        && (moved && 0 <= nwritten < |old(buf)| && truncated ==>
              buf == old(buf) && size == old(size) && file == L.Truncate(old(file) + old(buf)[..nwritten], size))
    {
      exited := false;
      if |buf| == 0 || postpone { return; }
      if nwritten == |buf| {
        WriteAll();
        return;
      }
      var n := WriteShort(nwritten, truncated);
      if always { return true; }
      Advance(n);
    }

    method WriteAll()
      requires !mode.Off?
      modifies `file, `size, `buf
      ensures Abs() == L.Flushed(old(Abs()), L.Full)
    {
      file := file + buf;
      size, buf := size + |buf|, [];
    }

    /** backgroundRewriteDoneHandler. `moved` is whether the new file could be opened and
        renamed, `accepts` what each write of the last blocks takes. */
    method BackgroundRewriteDone(childOk: bool, output: bytes, moved: bool, accepts: seq<nat>) returns (switched: bool)
      requires Valid() && child.Child? && (childOk ==> child.phase == L.Finished(output))
      modifies this
      ensures Valid() && fresh(rewrite) && fresh(rewrite.Repr)
      ensures switched <==> childOk && moved && old(rewrite.TakenWhole(accepts))
      ensures Abs() == L.Reaping(old(Abs()), if switched then L.Switched else if childOk then L.TempFailed else L.ChildFailed)
      ensures !childRunning && child.NoChild? && data == old(data)
      ensures !switched || old(mode).Off? ==> mode == old(mode) && buf == old(buf) && size == old(size) && sel == old(sel)
      ensures file == if switched then output + old(rewrite.Contents()) else old(file)
      ensures switched && !old(mode).Off? ==> mode.On? && buf == [] && size == |file| && sel == None
    {
      switched := false;
      ghost var blocks := child.blocks;
      if childOk {
        var ok, last := rewrite.Write(accepts);
        if ok && moved {
          assert last == blocks;
          SwitchFile(output + last);
          switched := true;
        }
      }
      rewrite := new RewriteBuffer();
      childRunning, child := false, L.NoChild;
    }

    /** The new file takes over; a log that is on starts afresh with it. */
    method SwitchFile(f: bytes)
      modifies this
      ensures rewrite == old(rewrite) && rewrite.Repr == old(rewrite.Repr)
      ensures var s := old(Abs());
              Abs() == if s.mode.Off? then s.(file := f)
                       else s.(file := f, size := |f|, sel := None, buf := [], mode := L.On)
    {
      file := f;
      if !mode.Off? { sel, size, buf := None, |file|, []; }
      if mode.WaitRewrite? { mode := L.On; }
    }

    /** The parent's half of rewriteAppendOnlyFileBackground. */
    method Forked()
      requires Valid() && child.NoChild?
      modifies this
      ensures Valid() && rewrite == old(rewrite) && rewrite.Repr == old(rewrite.Repr)
      ensures Abs() == L.Forking(old(Abs()))
      ensures sel == None && childRunning && !stopSendingDiff && file == old(file) && buf == old(buf) && mode == old(mode)
      ensures child.Child? && child.snapshot == data == old(data) && child.forked == clock && child.clock == None
    {
      sel, childRunning, stopSendingDiff := None, true, false;
      child := L.Child(data, clock, None, [], [], [], false, L.Working, []);
    }

    /** aofChildPipeReadable: the child asked, so no more of the difference is sent. */
    method ChildPipeReadable()
      requires Valid() && child.Child?
      modifies this
      ensures Valid() && rewrite == old(rewrite) && rewrite.Repr == old(rewrite.Repr)
      ensures Abs() == old(Abs()).(child := old(child).(stop := true))
    {
      stopSendingDiff := true;
      child := child.(stop := true);
    }

    /** aofChildWriteDiffData as a step: bytes leave the blocks for the pipe. */
    method SendDiff(accepts: seq<nat>) returns (n: nat)
      requires Valid() && child.Child?
      modifies this, rewrite.Repr
      ensures Valid() && rewrite == old(rewrite) && n <= |old(child).blocks| && (old(child).stop ==> n == 0)
      ensures Abs() == old(Abs()).(child := old(child).(
        pipe := old(child).pipe + old(child).blocks[..n], blocks := old(child).blocks[n..]))
    {
      ghost var blocks := child.blocks;
      var sent := rewrite.ChildWriteDiffData(stopSendingDiff, accepts);
      n := |sent|;
      assert blocks[..n] == sent && blocks[n..] == rewrite.Contents();
      child := child.(pipe := child.pipe + sent, blocks := rewrite.Contents());
    }
  }

  // ------------------------------------------------ handlers and steps meet

  /** What is logged for a client command, after the DELs of the keys it found expired, is an
      enabled step, and the step does to the dataset what the command did. */
  lemma ClientCommandStep(other: Other, keys: Keys, dbnum: nat, a: Argv, s: L.State, db: nat)
    requires 0 < dbnum < 0x8000_0000 && Local(other, keys) && db < |s.data|
    requires PlainCommand(a) && !Named(a, SELECT) && forall k :: k in s.data[db] ==> FitsLine(|k|)
    requires var r := Execute(other, keys, s.now, a, s.data[db]);
             TimesFit(r.db) && (r.logged.Some? ==> !Stops(r.logged.value))
    ensures var r, env := Execute(other, keys, s.now, a, s.data[db]), ServerEnv(other, dbnum);
            && L.Enabled(env, s, L.Command(db, Logged(s.now, r)))
            && L.Next(env, s, L.Command(db, Logged(s.now, r))).data == s.data[db := r.db]
  {
    var r, env := Execute(other, keys, s.now, a, s.data[db]), ServerEnv(other, dbnum);
    var cs := Logged(s.now, r);
    LoggedPlain(other, keys, s.now, a, s.data[db]);
    PlainIsCommand(other, dbnum, cs);
    LoggedRuns(other, keys, dbnum, s.now, a, s.data[db]);
    assert L.Enabled(env, s, L.Command(db, cs));
  }

  lemma LoggedRuns(other: Other, keys: Keys, dbnum: nat, now: int, a: Argv, db: Db)
    requires Local(other, keys)
    requires var r := Execute(other, keys, now, a, db); r.logged.Some? ==> !Stops(r.logged.value)
    ensures var r, env := Execute(other, keys, now, a, db), ServerEnv(other, dbnum);
            L.RunAll(env, db, Logged(now, r)) == r.db && L.Tolerates(env, now, db, Logged(now, r))
  {
    var cs := Logged(now, Execute(other, keys, now, a, db));
    TranslationKeepsMeaning(other, keys, now, a, db);
    forall d | Trimmed(now, d, db) ensures Trimmed(now, ExecAll(Executor(other), cs, d), ExecAll(Executor(other), cs, db)) {
      LoggedTolerates(other, keys, now, a, d, db);
    }
    ExecTolerates(other, dbnum, now, db, cs);
  }

  lemma DelRuns(other: Other, dbnum: nat, now: int, db: Db, k: bytes, cs: seq<Argv>)
    requires cs == [[DEL, k]]
    ensures L.RunAll(ServerEnv(other, dbnum), db, cs) == db - {k} && L.Tolerates(ServerEnv(other, dbnum), now, db, cs)
  {
    DelExec(other, k, db);
    forall d | Trimmed(now, d, db) ensures Trimmed(now, ExecAll(Executor(other), cs, d), ExecAll(Executor(other), cs, db)) {
      DelTolerates(other, now, k, d, db);
    }
    ExecTolerates(other, dbnum, now, db, cs);
  }

  /** A key may be expired, with a DEL in the log, at any time. */
  lemma ExpiryStep(other: Other, dbnum: nat, s: L.State, db: nat, k: bytes)
    requires 0 < dbnum < 0x8000_0000 && db < |s.data| && FitsLine(|k|)
    ensures L.Enabled(ServerEnv(other, dbnum), s, L.Command(db, [[DEL, k]]))
    ensures L.Next(ServerEnv(other, dbnum), s, L.Command(db, [[DEL, k]])).data == s.data[db := s.data[db] - {k}]
  {
    var cs: seq<Argv> := [[DEL, k]];
    DelPlain(k);
    PlainIsCommand(other, dbnum, cs);
    DelRuns(other, dbnum, s.now, s.data[db], k, cs);
  }

  /** What rewriteAppendOnlyFileRio prints for the snapshot, at the time the child read, is a dump
      with which the child can finish. */
  lemma PrintedDumpFinishes(other: Other, s: L.State, out: bytes, dump: seq<Argv>)
    requires s.child.Child? && s.child.phase.Asked? && s.child.stop && s.child.clock.Some?
    requires DumpsUpto(other, s.child.clock.value, s.child.snapshot, |s.child.snapshot|, out, dump)
    ensures var env := ServerEnv(other, |s.child.snapshot|);
            && L.Enabled(env, s, L.Finish(dump))
            && L.Next(env, s, L.Finish(dump)).child.phase == L.Finished(out + (s.child.diff + s.child.pipe))
  {
    DumpIsDump(other, s.child.clock.value, s.child.snapshot, out, dump);
  }

  // ------------------------------------------------------------ the main law

  /** After a full flush the same holds of the file by itself. */
  lemma FlushedFileRebuildsDataset(other: Other, dbnum: nat, s: L.State, es: seq<L.Event>, t: L.State, u: L.State)
    requires 0 < dbnum < 0x8000_0000
    requires L.Boot(ServerEnv(other, dbnum), s) && L.Run(ServerEnv(other, dbnum), s, es, t) && t.mode.On?
    requires L.AllInTime(ServerEnv(other, dbnum), s, es)
    requires L.Enabled(ServerEnv(other, dbnum), t, L.Flush(L.Full)) && u == L.Next(ServerEnv(other, dbnum), t, L.Flush(L.Full))
    ensures var r := Loader.Load(u.file);
            && u.buf == [] && r.Whole?
            && TrimmedAll(u.now, L.Replay(ServerEnv(other, dbnum), L.Client(0, EmptyData(dbnum)), r.ran).data, u.data)
  {
    LoadRebuildsDataset(other, dbnum, s, es, t, t.now);
    assert u.file == t.file + t.buf && u.buf == [] && u.data == t.data && u.now == t.now;
  }

  /** Loading the file followed by the buffer, at any point of any run at which the log is
      on, reads every command and rebuilds the dataset: from then on a client cannot tell
      what was loaded from what the server held. */
  lemma LoadRebuildsDataset(other: Other, dbnum: nat, s: L.State, es: seq<L.Event>, t: L.State, later: int)
    requires 0 < dbnum < 0x8000_0000 && t.now <= later
    requires L.Boot(ServerEnv(other, dbnum), s) && L.Run(ServerEnv(other, dbnum), s, es, t) && t.mode.On?
    requires L.AllInTime(ServerEnv(other, dbnum), s, es)
    ensures var r := Loader.Load(t.file + t.buf);
            var loaded := L.Replay(ServerEnv(other, dbnum), L.Client(0, EmptyData(dbnum)), r.ran).data;
            && r.Whole? && TrimmedAll(t.now, loaded, t.data)
            && forall i :: 0 <= i < |t.data| ==> Live(later, loaded[i]) == Live(later, t.data[i])
  {
    var env := ServerEnv(other, dbnum);
    ServerLawful(other, dbnum);
    var log := L.LogReplaysToDataset(env, s, es, t);
    forall i | 0 <= i < |log| ensures PlainCommand(log[i]) { assert env.plain(log[i]); }
    Loader.WholeLogLoads(log);
    var loaded := L.Replay(env, env.start, log).data;
    forall i | 0 <= i < |t.data| ensures Live(later, loaded[i]) == Live(later, t.data[i]) {
      TrimmedShowsSame(t.now, later, loaded[i], t.data[i]);
    }
  }
}
