/**
 The append only file over whole runs of a server: commands, flushes that fail
 half way, background rewrites with their pipe to the child, and switching the
 log off and on.

 What a command does and how it is printed are parameters (`Env`), so the
 invariant holds for every command set; `AofServer` supplies the real ones.
 */
module AofLog {
  import opened Basics
  import opened Resp
  import opened Keyspace

  /** The loading client: its selected database and the dataset. */
  datatype Client = Client(db: nat, data: seq<Db>)

  datatype Env = Env(
    dbnum: nat,
    step: (Client, Argv) -> Client,
    run: (Argv, Db) -> Db,
    select: nat -> Argv,
    text: seq<Argv> -> bytes,
    plain: Argv -> bool,
    start: Client)

  /** SELECT moves the client, any other plain command changes its database only,
      and the text of a log is the text of its parts. */
  ghost predicate Lawful(env: Env) {
    && env.start.db < env.dbnum == |env.start.data|
    && (forall c: Client, k: nat {:trigger env.step(c, env.select(k))} :: k < |c.data| ==> env.step(c, env.select(k)) == c.(db := k))
    && (forall k: nat :: k < env.dbnum ==> env.plain(env.select(k)))
    && (forall c: Client, a: Argv {:trigger env.step(c, a)} :: env.plain(a) && c.db < |c.data| && (forall k: nat :: a != env.select(k)) ==>
          env.step(c, a) == c.(data := c.data[c.db := env.run(a, c.data[c.db])]))
    && (forall a: seq<Argv>, b: seq<Argv> {:trigger env.text(a + b)} :: env.text(a + b) == env.text(a) + env.text(b))
    && env.text([]) == []
  }

  ghost predicate Loggable(env: Env, log: seq<Argv>) {
    forall i :: 0 <= i < |log| ==> env.plain(log[i])
  }

  /** A command as it reaches the log: plain, and no SELECT. */
  ghost predicate IsCommand(env: Env, a: Argv) {
    env.plain(a) && forall k: nat :: a != env.select(k)
  }

  function Replay(env: Env, c: Client, log: seq<Argv>): Client
    decreases |log|
  {
    if log == [] then c else Replay(env, env.step(c, log[0]), log[1..])
  }

  function RunAll(env: Env, db: Db, cs: seq<Argv>): Db
    decreases |cs|
  {
    if cs == [] then db else RunAll(env, env.run(cs[0], db), cs[1..])
  }

  // ------------------------------------------------------------------- state

  datatype Mode = Off | On | WaitRewrite

  datatype Phase = Working | Asked | Finished(output: bytes)

  /** The rewriting child and the difference on its way to it. It was forked at one
      time and reads the clock for itself, once, at another. `fed` records every byte
      fed since the fork. */
  datatype Child =
    | NoChild
    | Child(snapshot: seq<Db>, forked: int, clock: Option<int>, diff: bytes, pipe: bytes, blocks: bytes,
            stop: bool, phase: Phase, fed: bytes)

  datatype State = State(
    mode: Mode,
    file: bytes,
    buf: bytes,
    size: nat,
    sel: Option<nat>,
    child: Child,
    now: int,
    data: seq<Db>)

  /** What write(2) and ftruncate(2) did with the buffer. */
  datatype Written = Full | Failed | ShortUndone(n: nat) | ShortKept(n: nat)

  datatype Reaped = ChildFailed | TempFailed | Switched

  datatype Started = OpenFailed | ForkFailed | Waiting | Forked

  datatype Event =
    | Tick(now: int)
    | Command(db: nat, cs: seq<Argv>)
    | Flush(w: Written)
    | Fork
    | ReadClock
    | ToPipe(n: nat)
    | FromPipe(n: nat)
    | Ask
    | Ack
    | Finish(dump: seq<Argv>)
    | Reap(r: Reaped)
    | Stop(w: Written)
    | Start(how: Started)

  // ------------------------------------------------------------------- steps

  /** What feedAppendOnlyFile prints: a SELECT only when the database changes. */
  function Entries(env: Env, s: State, db: nat, cs: seq<Argv>): seq<Argv> {
    (if s.sel == Some(db) then [] else [env.select(db)]) + cs
  }

  /** The state after `t` was fed for database `db`. */
  function Appended(s: State, db: nat, t: bytes): State {
    s.(sel := Some(db),
       buf := if s.mode.On? then s.buf + t else s.buf,
       child := if s.child.Child? then s.child.(blocks := s.child.blocks + t, fed := s.child.fed + t) else s.child)
  }

  function Feed(env: Env, s: State, db: nat, cs: seq<Argv>): State {
    Appended(s, db, env.text(Entries(env, s, db, cs)))
  }

  function Execute(env: Env, s: State, db: nat, cs: seq<Argv>): State
    requires db < |s.data|
  {
    s.(data := s.data[db := RunAll(env, s.data[db], cs)])
  }

  /** The first `n` bytes of the file; a file never has a hole here. */
  function Truncate(f: bytes, n: nat): bytes { if n <= |f| then f[..n] else f }

  predicate Possible(s: State, w: Written) {
    match w
    case Full => !s.mode.Off? || s.buf == []
    case Failed => true
    case ShortUndone(n) => !s.mode.Off? && n < |s.buf|
    case ShortKept(n) => !s.mode.Off? && n < |s.buf|
  }

  /** flushAppendOnlyFile: after a short write the partial data is cut off again,
      or, when even that fails, the written part is dropped from the buffer. */
  function Flushed(s: State, w: Written): State
    requires Possible(s, w)
  {
    match w
    case Full => s.(file := s.file + s.buf, size := s.size + |s.buf|, buf := [])
    case Failed => s
    case ShortUndone(n) => s.(file := Truncate(s.file + s.buf[..n], s.size))
    case ShortKept(n) => s.(file := s.file + s.buf[..n], size := s.size + n, buf := s.buf[n..])
  }

  function Forking(s: State): State {
    s.(sel := None, child := Child(s.data, s.now, None, [], [], [], false, Working, []))
  }

  /** backgroundRewriteDoneHandler: on success the child's output and what is left in
      the blocks replace the file. */
  function Reaping(s: State, r: Reaped): State
    requires s.child.Child? && (r.Switched? ==> s.child.phase.Finished?)
  {
    if r.Switched? then
      var f := s.child.phase.output + s.child.blocks;
      if s.mode.Off? then s.(file := f, child := NoChild)
      else s.(file := f, size := |f|, sel := None, buf := [], child := NoChild, mode := On)
    else s.(child := NoChild)
  }

  /** Replayed from nothing, `dump` gives the dataset, if not all of what had expired at `now`. */
  ghost predicate IsDump(env: Env, now: int, dump: seq<Argv>, data: seq<Db>) {
    var c := Replay(env, env.start, dump);
    Loggable(env, dump) && TrimmedAll(now, c.data, data) && c.db < env.dbnum
  }

  /** The commands do the same to a database that lacks expired entries, but for those entries. */
  ghost predicate Tolerates(env: Env, now: int, db: Db, cs: seq<Argv>) {
    forall d :: Trimmed(now, d, db) ==> Trimmed(now, RunAll(env, d, cs), RunAll(env, db, cs))
  }

  ghost predicate Enabled(env: Env, s: State, e: Event) {
    match e
    case Tick(now) => s.now <= now
    case Command(db, cs) =>
      db < |s.data| && (forall i :: 0 <= i < |cs| ==> IsCommand(env, cs[i])) && Tolerates(env, s.now, s.data[db], cs)
    case Flush(w) => Possible(s, w)
    case Fork => s.child.NoChild?
    case ReadClock => s.child.Child? && s.child.phase.Working? && s.child.clock.None?
    case ToPipe(n) => s.child.Child? && !s.child.stop && n <= |s.child.blocks|
    case FromPipe(n) => s.child.Child? && !s.child.phase.Finished? && n <= |s.child.pipe|
    case Ask => s.child.Child? && s.child.phase.Working? && s.child.clock.Some?
    case Ack => s.child.Child? && s.child.phase.Asked? && !s.child.stop
    case Finish(dump) => s.child.Child? && s.child.phase.Asked? && s.child.stop &&
                        s.child.clock.Some? && IsDump(env, s.child.clock.value, dump, s.child.snapshot)
    case Reap(r) => s.child.Child? && (r.ChildFailed? || s.child.phase.Finished?)
    case Stop(w) => !s.mode.Off? && Possible(s, w)
    case Start(how) => s.mode.Off? && (how.Waiting? ==> s.child.NoChild?)
  }

  ghost function Next(env: Env, s: State, e: Event): State
    requires Enabled(env, s, e)
  {
    match e
    case Tick(now) => s.(now := now)
    case Command(db, cs) => Execute(env, if s.mode.Off? then s else Feed(env, s, db, cs), db, cs)
    case Flush(w) => Flushed(s, w)
    case Fork => Forking(s)
    case ReadClock => s.(child := s.child.(clock := Some(s.now)))
    case ToPipe(n) =>
      s.(child := s.child.(pipe := s.child.pipe + s.child.blocks[..n], blocks := s.child.blocks[n..]))
    case FromPipe(n) =>
      s.(child := s.child.(diff := s.child.diff + s.child.pipe[..n], pipe := s.child.pipe[n..]))
    case Ask => s.(child := s.child.(phase := Asked))
    case Ack => s.(child := s.child.(stop := true))
    case Finish(dump) =>
      var diff := s.child.diff + s.child.pipe;
      s.(child := s.child.(diff := diff, pipe := [], phase := Finished(env.text(dump) + diff)))
    case Reap(r) => Reaping(s, r)
    case Stop(w) => Flushed(s, w).(sel := None, mode := Off, child := NoChild)
    case Start(how) =>
      match how
      case OpenFailed => s
      case ForkFailed => s.(child := NoChild)
      case Waiting => s.(mode := WaitRewrite)
      case Forked => Forking(s).(mode := WaitRewrite)
  }

  // -------------------------------------------------------------- invariants

  /** Nothing fed to the child is lost, repeated or reordered. */
  ghost predicate Conserved(c: Child) {
    c.Child? ==>
      && c.fed == c.diff + c.pipe + c.blocks
      && (c.phase.Working? ==> !c.stop)
      && (!c.phase.Working? ==> c.clock.Some?)
      && (c.phase.Finished? ==> c.stop && c.pipe == [])
  }

  /** Replaying `log` gives the dataset, up to expired entries, and leaves the client where the writer thinks it is. */
  ghost predicate Rebuilds(env: Env, c: Client, log: seq<Argv>, now: int, data: seq<Db>, sel: Option<nat>) {
    && Loggable(env, log)
    && TrimmedAll(now, Replay(env, c, log).data, data)
    && (sel.Some? ==> Replay(env, c, log).db == sel.value)
  }

  /** The entries the child will leave out had expired by then, as far as is known. */
  function Base(c: Child): int
    requires c.Child?
  {
    if c.clock.Some? then c.clock.value else c.forked
  }

  /** The bytes fed since the fork are a log that turns the snapshot, with or without
      its expired entries, into the dataset, whatever database is selected before it. */
  ghost predicate DiffSound(env: Env, s: State, diff: seq<Argv>) {
    && s.child.Child? && env.text(diff) == s.child.fed
    && (diff == [] <==> s.sel.None?)
    && (forall k: nat, d: seq<Db> {:trigger Client(k, d)} :: k < |s.data| && TrimmedAll(Base(s.child), d, s.child.snapshot) ==>
          Rebuilds(env, Client(k, d), diff, s.now, s.data, s.sel))
  }

  ghost predicate LogSound(env: Env, s: State, log: seq<Argv>) {
    env.text(log) == s.file + s.buf && Rebuilds(env, env.start, log, s.now, s.data, s.sel)
  }

  ghost predicate OutputSound(env: Env, c: Child, dump: seq<Argv>) {
    && c.Child? && c.phase.Finished? && c.clock.Some? && IsDump(env, c.clock.value, dump, c.snapshot)
    && c.phase.output == env.text(dump) + c.diff
  }

  /** The stream to the child, and what the child made of its snapshot. */
  ghost predicate Flows(env: Env, s: State) {
    && Conserved(s.child)
    && (s.child.Child? && s.child.phase.Finished? ==> exists dump :: OutputSound(env, s.child, dump))
  }

  ghost predicate Inv(env: Env, s: State) {
    && |s.data| == env.dbnum
    && (s.sel.Some? ==> s.sel.value < env.dbnum)
    && Flows(env, s)
    && (s.child.Child? ==> |s.child.snapshot| == env.dbnum && Base(s.child) <= s.now)
    && (!s.mode.Off? && s.child.Child? ==> exists diff :: DiffSound(env, s, diff))
    && (s.mode.On? ==> s.size == |s.file| && exists log :: LogSound(env, s, log))
  }

  // ------------------------------------------------------------ small lemmas

  lemma {:induction false} ReplayConcat(env: Env, c: Client, a: seq<Argv>, b: seq<Argv>)
    ensures Replay(env, c, a + b) == Replay(env, Replay(env, c, a), b)
    decreases |a|
  {
    if a == [] {
      assert a + b == b;
    } else {
      assert (a + b)[1..] == a[1..] + b;
      ReplayConcat(env, env.step(c, a[0]), a[1..], b);
    }
  }

  /** Commands act on the selected database alone. */
  lemma {:induction false} ReplayCommands(env: Env, c: Client, cs: seq<Argv>)
    requires Lawful(env) && c.db < |c.data| && forall i :: 0 <= i < |cs| ==> IsCommand(env, cs[i])
    ensures Replay(env, c, cs) == c.(data := c.data[c.db := RunAll(env, c.data[c.db], cs)])
    decreases |cs|
  {
    if cs == [] {
      assert c.data[c.db := c.data[c.db]] == c.data;
    } else {
      assert IsCommand(env, cs[0]);
      var d := env.step(c, cs[0]);
      assert d == c.(data := c.data[c.db := env.run(cs[0], c.data[c.db])]);
      ReplayCommands(env, d, cs[1..]);
      var db := RunAll(env, c.data[c.db], cs);
      assert d.data[c.db := db] == c.data[c.db := db];
    }
  }

  /** Replaying what is fed for a command, after a log that rebuilds the dataset,
      rebuilds the dataset after the command. */
  lemma EntriesRebuild(env: Env, s: State, c: Client, log: seq<Argv>, db: nat, cs: seq<Argv>)
    requires Lawful(env) && Rebuilds(env, c, log, s.now, s.data, s.sel)
    requires |s.data| == env.dbnum && Enabled(env, s, Command(db, cs))
    ensures Rebuilds(env, c, log + Entries(env, s, db, cs), s.now, Execute(env, s, db, cs).data, Some(db))
  {
    var head: seq<Argv> := if s.sel == Some(db) then [] else [env.select(db)];
    var c1 := Replay(env, c, log);
    ReplayConcat(env, c, log, head + cs);
    ReplayConcat(env, c1, head, cs);
    var c2 := Replay(env, c1, head);
    assert c2 == c1.(db := db) by {
      if head != [] { assert head[1..] == []; }
    }
    ReplayCommands(env, c2, cs);
    assert Trimmed(s.now, c1.data[db], s.data[db]);
    TrimmedPut(s.now, c1.data, s.data, db, RunAll(env, c1.data[db], cs), RunAll(env, s.data[db], cs));
    EntriesLoggable(env, s, log, db, cs);
  }

  lemma TrimmedPut(now: int, d: seq<Db>, data: seq<Db>, i: nat, a: Db, b: Db)
    requires TrimmedAll(now, d, data) && i < |data| && Trimmed(now, a, b)
    ensures TrimmedAll(now, d[i := a], data[i := b])
  {}

  lemma EntriesLoggable(env: Env, s: State, log: seq<Argv>, db: nat, cs: seq<Argv>)
    requires Lawful(env) && Loggable(env, log) && db < env.dbnum && forall i :: 0 <= i < |cs| ==> IsCommand(env, cs[i])
    ensures Loggable(env, log + Entries(env, s, db, cs))
  {
    var all, head := log + Entries(env, s, db, cs), |Entries(env, s, db, cs)| - |cs|;
    forall i | 0 <= i < |all| ensures env.plain(all[i]) {
      if i >= |log| + head { assert IsCommand(env, cs[i - |log| - head]); }
    }
  }

  // ----------------------------------------------------- every step keeps Inv

  lemma CommandKeeps(env: Env, s: State, db: nat, cs: seq<Argv>)
    requires Lawful(env) && Inv(env, s) && Enabled(env, s, Command(db, cs))
    ensures Inv(env, Next(env, s, Command(db, cs)))
  {
    var t := Next(env, s, Command(db, cs));
    StepFlows(env, s, Command(db, cs));
    if !s.mode.Off? && s.child.Child? {
      var diff :| DiffSound(env, s, diff);
      FeedDiff(env, s, db, cs, diff);
    }
    if s.mode.On? {
      var log :| LogSound(env, s, log);
      FeedLog(env, s, db, cs, log);
    }
  }

  lemma FeedLog(env: Env, s: State, db: nat, cs: seq<Argv>, log: seq<Argv>)
    requires Lawful(env) && |s.data| == env.dbnum && Enabled(env, s, Command(db, cs)) && s.mode.On?
    requires LogSound(env, s, log)
    ensures LogSound(env, Next(env, s, Command(db, cs)), log + Entries(env, s, db, cs))
  {
    EntriesRebuild(env, s, env.start, log, db, cs);
    assert env.text(log + Entries(env, s, db, cs)) == s.file + s.buf + env.text(Entries(env, s, db, cs));
  }

  lemma FeedDiff(env: Env, s: State, db: nat, cs: seq<Argv>, diff: seq<Argv>)
    requires Lawful(env) && |s.data| == env.dbnum && Enabled(env, s, Command(db, cs)) && !s.mode.Off?
    requires DiffSound(env, s, diff)
    ensures DiffSound(env, Next(env, s, Command(db, cs)), diff + Entries(env, s, db, cs))
  {
    var t := Next(env, s, Command(db, cs));
    forall k: nat, d: seq<Db> {:trigger Client(k, d)} | k < |t.data| && TrimmedAll(Base(t.child), d, t.child.snapshot)
      ensures Rebuilds(env, Client(k, d), diff + Entries(env, s, db, cs), t.now, t.data, t.sel)
    {
      EntriesRebuild(env, s, Client(k, d), diff, db, cs);
    }
    assert env.text(diff + Entries(env, s, db, cs)) == s.child.fed + env.text(Entries(env, s, db, cs));
    assert diff + Entries(env, s, db, cs) != [];
  }

  /** A flush moves bytes from the buffer to the file, or puts the file back as it was. */
  lemma FlushMoves(s: State, w: Written)
    requires Possible(s, w) && s.size == |s.file|
    ensures Flushed(s, w).file + Flushed(s, w).buf == s.file + s.buf
    ensures Flushed(s, w).size == |Flushed(s, w).file|
    ensures w.Full? ==> Flushed(s, w).file == s.file + s.buf && Flushed(s, w).buf == []
    ensures w.ShortKept? ==> Flushed(s, w).file == s.file + s.buf[..w.n] && Flushed(s, w).buf == s.buf[w.n..]
    ensures w.Failed? || w.ShortUndone? ==> Flushed(s, w).file == s.file && Flushed(s, w).buf == s.buf
  {
    match w
    case Full => assert s.file + s.buf + [] == s.file + s.buf;
    case Failed =>
    case ShortUndone(n) => assert (s.file + s.buf[..n])[..s.size] == s.file;
    case ShortKept(n) => assert s.buf[..n] + s.buf[n..] == s.buf;
  }

  /** Inv looks at the log, the size, the dataset, the selected database and the child. */
  lemma SameLog(env: Env, s: State, t: State)
    requires Inv(env, s) && t.data == s.data && t.sel == s.sel && t.child == s.child && t.mode == s.mode && t.now == s.now
    requires s.mode.On? ==> t.file + t.buf == s.file + s.buf && t.size == |t.file|
    ensures Inv(env, t)
  {
    if !s.mode.Off? && s.child.Child? {
      var diff :| DiffSound(env, s, diff);
      assert DiffSound(env, t, diff);
    }
    if s.mode.On? {
      var log :| LogSound(env, s, log);
      assert LogSound(env, t, log);
    }
  }

  /** A fork starts an empty difference; the next command will print a SELECT. */
  lemma ForkKeeps(env: Env, s: State, mode: Mode)
    requires Lawful(env) && Inv(env, s) && (mode.On? ==> s.mode.On?)
    ensures Inv(env, Forking(s).(mode := mode))
  {
    var t := Forking(s).(mode := mode);
    assert DiffSound(env, t, []);
    if mode.On? {
      var log :| LogSound(env, s, log);
      assert LogSound(env, t, log);
    }
  }

  lemma ToPipeConserved(c: Child, n: nat)
    requires Conserved(c) && c.Child? && !c.stop && n <= |c.blocks|
    ensures Conserved(c.(pipe := c.pipe + c.blocks[..n], blocks := c.blocks[n..]))
  {
    assert c.blocks[..n] + c.blocks[n..] == c.blocks;
    assert c.diff + (c.pipe + c.blocks[..n]) + c.blocks[n..] == c.diff + c.pipe + (c.blocks[..n] + c.blocks[n..]);
  }

  lemma FromPipeConserved(c: Child, n: nat)
    requires Conserved(c) && c.Child? && !c.phase.Finished? && n <= |c.pipe|
    ensures Conserved(c.(diff := c.diff + c.pipe[..n], pipe := c.pipe[n..]))
  {
    assert c.pipe[..n] + c.pipe[n..] == c.pipe;
    assert (c.diff + c.pipe[..n]) + c.pipe[n..] + c.blocks == c.diff + (c.pipe[..n] + c.pipe[n..]) + c.blocks;
  }

  lemma StepFlows(env: Env, s: State, e: Event)
    requires Flows(env, s) && Enabled(env, s, e)
    ensures Flows(env, Next(env, s, e))
  {
    var c, t := s.child, Next(env, s, e);
    if c.Child? && c.phase.Finished? {
      var dump :| OutputSound(env, c, dump);
      assert t.child.Child? && t.child.phase.Finished? ==> OutputSound(env, t.child, dump);
    }
    match e
    case ToPipe(n) => ToPipeConserved(c, n);
    case FromPipe(n) => FromPipeConserved(c, n);
    case Finish(dump) => assert OutputSound(env, t.child, dump);
    case _ =>
  }

  /** The child's own steps move the difference along and touch nothing else. */
  lemma ChildKeeps(env: Env, s: State, c: Child)
    requires Inv(env, s) && s.child.Child? && c.Child?
    requires c.snapshot == s.child.snapshot && c.fed == s.child.fed && Base(c) == Base(s.child)
    requires Flows(env, s.(child := c))
    ensures Inv(env, s.(child := c))
  {
    var t := s.(child := c);
    if !s.mode.Off? {
      var diff :| DiffSound(env, s, diff);
      assert DiffSound(env, t, diff);
    }
    if s.mode.On? {
      var log :| LogSound(env, s, log);
      assert LogSound(env, t, log);
    }
  }

  /** Expired entries stay expired. */
  lemma TickKeeps(env: Env, s: State, now: int)
    requires Inv(env, s) && s.now <= now
    ensures Inv(env, s.(now := now))
  {
    var t := s.(now := now);
    if !s.mode.Off? && s.child.Child? {
      var diff :| DiffSound(env, s, diff);
      forall k: nat, d: seq<Db> {:trigger Client(k, d)} | k < |t.data| && TrimmedAll(Base(t.child), d, t.child.snapshot)
        ensures Rebuilds(env, Client(k, d), diff, t.now, t.data, t.sel)
      {
        TrimmedLater(s.now, now, Replay(env, Client(k, d), diff).data, s.data);
      }
      assert DiffSound(env, t, diff);
    }
    if s.mode.On? {
      var log :| LogSound(env, s, log);
      TrimmedLater(s.now, now, Replay(env, env.start, log).data, s.data);
      assert LogSound(env, t, log);
    }
  }

  /** The child reads its clock in time: nothing was fed since the fork, or nothing expired since. */
  ghost predicate InTime(s: State, e: Event) {
    e.ReadClock? && s.child.Child? ==> s.sel.None? || NoneExpires(s.child.snapshot, s.child.forked, s.now)
  }

  /** What had expired when the child read its clock had expired before anything was fed. */
  lemma ReadClockDiff(env: Env, s: State, diff: seq<Argv>)
    requires Inv(env, s) && Enabled(env, s, ReadClock) && InTime(s, ReadClock) && DiffSound(env, s, diff)
    ensures DiffSound(env, Next(env, s, ReadClock), diff)
  {
    var t := Next(env, s, ReadClock);
    forall k: nat, d: seq<Db> {:trigger Client(k, d)} | k < |t.data| && TrimmedAll(Base(t.child), d, t.child.snapshot)
      ensures Rebuilds(env, Client(k, d), diff, t.now, t.data, t.sel)
    {
      if s.sel.None? {
        assert TrimmedAll(s.child.forked, s.child.snapshot, s.child.snapshot);
        assert Rebuilds(env, Client(k, s.child.snapshot), diff, s.now, s.data, s.sel);
        TrimmedTwice(s.now, d, s.child.snapshot, s.data);
      } else {
        TrimmedEarlier(s.child.forked, s.now, d, s.child.snapshot);
      }
    }
  }

  lemma ReadClockKeeps(env: Env, s: State)
    requires Inv(env, s) && Enabled(env, s, ReadClock) && InTime(s, ReadClock)
    ensures Inv(env, Next(env, s, ReadClock))
  {
    var t := Next(env, s, ReadClock);
    if !s.mode.Off? {
      var diff :| DiffSound(env, s, diff);
      ReadClockDiff(env, s, diff);
    }
    if s.mode.On? {
      var log :| LogSound(env, s, log);
      assert LogSound(env, t, log);
    }
  }

  lemma PipeKeeps(env: Env, s: State, e: Event)
    requires Lawful(env) && Inv(env, s) && Enabled(env, s, e)
    requires e.ToPipe? || e.FromPipe? || e.Ask? || e.Ack? || e.Finish?
    ensures Inv(env, Next(env, s, e))
  {
    StepFlows(env, s, e);
    ChildKeeps(env, s, Next(env, s, e).child);
  }

  lemma ReapKeeps(env: Env, s: State, r: Reaped)
    requires Lawful(env) && Inv(env, s) && Enabled(env, s, Reap(r))
    ensures Inv(env, Next(env, s, Reap(r)))
  {
    var t := Next(env, s, Reap(r));
    if !r.Switched? {
      if s.mode.On? {
        var log :| LogSound(env, s, log);
        assert LogSound(env, t, log);
      }
    } else if !s.mode.Off? {
      SwitchRebuilds(env, s, t);
    }
  }

  lemma SwitchText(dump: bytes, diff: bytes, pipe: bytes, blocks: bytes)
    ensures pipe == [] ==> dump + (diff + pipe + blocks) == (dump + diff) + blocks + []
  {
    assert pipe == [] ==> diff + pipe == diff;
  }

  /** The rewritten file followed by the last of the difference is a log of the dataset. */
  lemma SwitchRebuilds(env: Env, s: State, t: State)
    requires Lawful(env) && Inv(env, s) && !s.mode.Off? && s.child.Child? && s.child.phase.Finished?
    requires t.file == s.child.phase.output + s.child.blocks && t.buf == [] && t.data == s.data && t.now == s.now && t.sel.None?
    ensures exists log :: LogSound(env, t, log)
  {
    var dump :| OutputSound(env, s.child, dump);
    var diff :| DiffSound(env, s, diff);
    var c := Replay(env, env.start, dump);
    assert c == Client(c.db, c.data);
    assert Rebuilds(env, Client(c.db, c.data), diff, s.now, s.data, s.sel);
    ReplayConcat(env, env.start, dump, diff);
    SwitchText(env.text(dump), s.child.diff, s.child.pipe, s.child.blocks);
    assert env.text(dump + diff) == env.text(dump) + s.child.fed;
    assert LogSound(env, t, dump + diff);
  }

  lemma StepKeeps(env: Env, s: State, e: Event)
    requires Lawful(env) && Inv(env, s) && Enabled(env, s, e) && InTime(s, e)
    ensures Inv(env, Next(env, s, e))
  {
    match e
    case Tick(now) => TickKeeps(env, s, now);
    case Command(db, cs) => CommandKeeps(env, s, db, cs);
    case Flush(w) =>
      if s.mode.On? { FlushMoves(s, w); }
      SameLog(env, s, Flushed(s, w));
    case Fork => ForkKeeps(env, s, s.mode);
    case ReadClock => ReadClockKeeps(env, s);
    case Reap(r) => ReapKeeps(env, s, r);
    case Stop(w) =>
    case Start(how) =>
      if how.Forked? { ForkKeeps(env, s, WaitRewrite); }
    case _ => PipeKeeps(env, s, e);
  }

  ghost predicate Run(env: Env, s: State, es: seq<Event>, t: State)
    decreases |es|
  {
    if es == [] then s == t
    else Enabled(env, s, es[0]) && Run(env, Next(env, s, es[0]), es[1..], t)
  }

  /** Every child of the run reads its clock in time. */
  ghost predicate AllInTime(env: Env, s: State, es: seq<Event>)
    decreases |es|
  {
    es != [] && Enabled(env, s, es[0]) ==> InTime(s, es[0]) && AllInTime(env, Next(env, s, es[0]), es[1..])
  }

  lemma {:induction false} RunKeeps(env: Env, s: State, es: seq<Event>, t: State)
    requires Lawful(env) && Inv(env, s) && Run(env, s, es, t) && AllInTime(env, s, es)
    ensures Inv(env, t)
    decreases |es|
  {
    if es != [] {
      StepKeeps(env, s, es[0]);
      RunKeeps(env, Next(env, s, es[0]), es[1..], t);
    }
  }

  /** A server that has just started: an empty dataset, an empty log, on or off. */
  ghost predicate Boot(env: Env, s: State) {
    && s.data == env.start.data && s.file == s.buf == [] && s.size == 0
    && s.sel.None? && s.child.NoChild? && !s.mode.WaitRewrite?
  }

  // ---------------------------------------------------- two feeds in a row

  /** Feeding commands one after the other for one database prints what feeding all does. */
  lemma FeedTwice(env: Env, s: State, db: nat, cs: seq<Argv>, more: seq<Argv>)
    requires Lawful(env)
    ensures Feed(env, Feed(env, s, db, cs), db, more) == Feed(env, s, db, cs + more)
  {
    var a, b := Entries(env, s, db, cs), env.text(more);
    assert Entries(env, s, db, cs + more) == a + more;
    assert env.text(a + more) == env.text(a) + b;
    assert Entries(env, Feed(env, s, db, cs), db, more) == more;
    AppendTwice(s, db, env.text(a), b);
  }

  lemma AppendTwice(s: State, db: nat, a: bytes, b: bytes)
    ensures Appended(Appended(s, db, a), db, b) == Appended(s, db, a + b)
  {
    assert s.buf + a + b == s.buf + (a + b);
    if s.child.Child? {
      assert s.child.blocks + a + b == s.child.blocks + (a + b);
      assert s.child.fed + a + b == s.child.fed + (a + b);
    }
  }

  lemma BootInv(env: Env, s: State)
    requires Lawful(env) && Boot(env, s)
    ensures Inv(env, s)
  {
    assert Replay(env, env.start, []) == env.start;
    assert LogSound(env, s, []);
  }

  /** Through any interleaving of commands, flushes, rewrites, stops, starts and time passing:
      when the log is on, the file followed by the buffer is the text of a log that replays,
      from an empty dataset, to the dataset, if not all of what has expired. */
  lemma LogReplaysToDataset(env: Env, s: State, es: seq<Event>, t: State) returns (log: seq<Argv>)
    requires Lawful(env) && Boot(env, s) && Run(env, s, es, t) && AllInTime(env, s, es) && t.mode.On?
    ensures Loggable(env, log) && env.text(log) == t.file + t.buf
    ensures TrimmedAll(t.now, Replay(env, env.start, log).data, t.data)
  {
    BootInv(env, s);
    RunKeeps(env, s, es, t);
    log :| LogSound(env, t, log);
  }

  /** Throughout a rewrite the bytes fed since the fork are the child's difference,
      then the pipe, then the blocks; once the child is done the pipe is empty, so a
      switch yields the dump followed by exactly those bytes. */
  lemma DiffStreamConserved(env: Env, s: State, es: seq<Event>, t: State)
    requires Boot(env, s) && Run(env, s, es, t) && t.child.Child?
    ensures t.child.fed == t.child.diff + t.child.pipe + t.child.blocks
    ensures t.child.phase.Finished? ==> exists dump :: FileOnSwitch(env, t.child, dump)
  {
    RunFlows(env, s, es, t);
    if t.child.phase.Finished? {
      var dump :| OutputSound(env, t.child, dump);
      assert t.child.fed == t.child.diff + t.child.blocks;
      assert FileOnSwitch(env, t.child, dump);
    }
  }

  /** After a full flush the file by itself is the text of a log of the dataset. */
  lemma FlushedFileIsLog(env: Env, s: State, es: seq<Event>, t: State) returns (log: seq<Argv>)
    requires Lawful(env) && Boot(env, s) && Run(env, s, es, t) && AllInTime(env, s, es) && t.mode.On?
    ensures Enabled(env, t, Flush(Full))
    ensures var u := Next(env, t, Flush(Full));
            && u.buf == [] && u.file == t.file + t.buf && u.size == |u.file| && u.data == t.data
            && Loggable(env, log) && env.text(log) == u.file
            && TrimmedAll(u.now, Replay(env, env.start, log).data, u.data)
  {
    BootInv(env, s);
    RunKeeps(env, s, es, t);
    FlushMoves(t, Full);
    log :| LogSound(env, t, log);
  }

  /** A switch replaces the file by the child's output and the last blocks; what was in the
      buffer is in them already. */
  lemma SwitchReplaces(env: Env, s: State)
    requires Enabled(env, s, Reap(Switched))
    ensures var t := Next(env, s, Reap(Switched));
            && t.file == s.child.phase.output + s.child.blocks && t.child.NoChild? && t.data == s.data
            && (if s.mode.Off? then t.mode.Off? && t.buf == s.buf
                else t.mode.On? && t.buf == [] && t.size == |t.file| && t.sel.None?)
  {}

  /** What a switch would make the log is a dump and everything fed since the fork. */
  ghost predicate FileOnSwitch(env: Env, c: Child, dump: seq<Argv>) {
    && c.Child? && c.phase.Finished? && c.clock.Some?
    && IsDump(env, c.clock.value, dump, c.snapshot)
    && c.phase.output + c.blocks == env.text(dump) + c.fed
  }

  lemma {:induction false} RunFlows(env: Env, s: State, es: seq<Event>, t: State)
    requires Flows(env, s) && Run(env, s, es, t)
    ensures Flows(env, t)
    decreases |es|
  {
    if es != [] {
      StepFlows(env, s, es[0]);
      RunFlows(env, Next(env, s, es[0]), es[1..], t);
    }
  }
}
