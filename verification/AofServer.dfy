/**
 The log of a real server: SELECT, the rewrite of all databases, and what loading a
 rewritten log gives back.
 */
module AofServer {
  import opened Basics
  import opened Resp
  import opened Keyspace
  import opened AofRecovery
  import opened AofCommands
  import opened AofRewrite
  import L = AofLog
  import Loader = AofLoader

  // --------------------------------------------------------- the environment

  function Select(k: nat): Argv { [SELECT, Decimal(k)] }

  function Step(other: Other): (L.Client, Argv) -> L.Client {
    (c: L.Client, a: Argv) =>
      if Named(a, SELECT) then
        if |a| == 2 && 0 <= ParseInt(a[1]) < |c.data| then c.(db := ParseInt(a[1])) else c
      else if c.db < |c.data| then c.(data := c.data[c.db := Exec(other, a, c.data[c.db])])
      else c
  }

  /** A command that can stand in a log by itself; a SELECT only as the server prints it. */
  function Plain(dbnum: nat): Argv -> bool {
    (a: Argv) =>
      && PlainCommand(a)
      && (Named(a, SELECT) ==> |a| == 2 && 0 <= ParseInt(a[1]) < dbnum && a == Select(ParseInt(a[1])))
  }

  function EmptyData(n: nat): (r: seq<Db>)
    ensures |r| == n && forall i :: 0 <= i < n ==> r[i] == map[]
  {
    seq(n, i => map[])
  }

  function ServerEnv(other: Other, dbnum: nat): L.Env {
    L.Env(dbnum, Step(other), Executor(other), Select, EncodeAll, Plain(dbnum), L.Client(0, EmptyData(dbnum)))
  }

  lemma SelectParses(k: nat)
    ensures ParseInt(Decimal(k)) == k && Named(Select(k), SELECT)
  {
    ParsePrintInt(k);
  }

  lemma HeaderText(prefix: byte, n: nat)
    requires n < 10
    ensures Header(prefix, n) == [prefix, 48 + n, 13, 10]
  {}

  lemma BulkText(a: bytes)
    requires |a| < 10
    ensures Bulk(a) == [36, 48 + |a|, 13, 10] + a + [13, 10]
  {
    HeaderText(DOLLAR, |a|);
  }

  lemma TwoText(a: bytes, b: bytes)
    requires |a| < 10 && |b| < 10
    ensures Encode([a, b]) == [42, 50, 13, 10] + ([36, 48 + |a|, 13, 10] + a + [13, 10]) + ([36, 48 + |b|, 13, 10] + b + [13, 10])
  {
    var s: Argv := [a, b];
    assert s[1..] == [b] && s[1..][1..] == [];
    HeaderText(STAR, 2);
    BulkText(a);
    BulkText(b);
    assert Bulks(s) == Bulk(a) + Bulks([b]) && Bulks([b]) == Bulk(b) + [] == Bulk(b);
    Regroup(Header(STAR, 2), Bulk(a), Bulk(b));
  }

  /** SELECT 0 as it stands in the file. */
  lemma SelectText(e: bytes)
    requires e == Encode(Select(0))
    ensures e == [42, 50, 13, 10, 36, 54, 13, 10, 83, 69, 76, 69, 67, 84, 13, 10, 36, 49, 13, 10, 48, 13, 10]
  {
    TwoText(SELECT, [48]);
  }

  lemma SelectPlain(dbnum: nat, k: nat)
    requires k < dbnum < 0x8000_0000
    ensures Plain(dbnum)(Select(k))
  {
    SelectParses(k);
    DecimalShort(k);
    SmallFits(2);
    SmallFits(6);
    SmallFits(|Decimal(k)|);
  }

  lemma StepSelects(other: Other, c: L.Client, k: nat)
    requires k < |c.data|
    ensures Step(other)(c, Select(k)) == c.(db := k)
  {
    SelectParses(k);
  }

  lemma StepRuns(other: Other, dbnum: nat, c: L.Client, a: Argv)
    requires Plain(dbnum)(a) && c.db < |c.data| && forall k: nat :: a != Select(k)
    ensures Step(other)(c, a) == c.(data := c.data[c.db := Executor(other)(a, c.data[c.db])])
  {
    var k := if |a| >= 2 then ParseInt(a[1]) else 0;
    assert k >= 0 ==> a != Select(k);
  }

  lemma SelectsMove(other: Other, env: L.Env)
    requires env.step == Step(other) && env.select == Select
    ensures forall c: L.Client, k: nat {:trigger env.step(c, env.select(k))} :: k < |c.data| ==>
      env.step(c, env.select(k)) == c.(db := k)
  {
    forall c: L.Client, k: nat | k < |c.data| ensures env.step(c, env.select(k)) == c.(db := k) {
      StepSelects(other, c, k);
    }
  }

  lemma SelectsArePlain(env: L.Env, dbnum: nat)
    requires env.plain == Plain(dbnum) && env.select == Select && env.dbnum == dbnum < 0x8000_0000
    ensures forall k: nat :: k < env.dbnum ==> env.plain(env.select(k))
  {
    forall k: nat | k < dbnum ensures env.plain(env.select(k)) {
      SelectPlain(dbnum, k);
    }
  }

  lemma CommandsRun(other: Other, env: L.Env, dbnum: nat)
    requires env.step == Step(other) && env.select == Select && env.plain == Plain(dbnum) && env.run == Executor(other)
    ensures forall c: L.Client, a: Argv {:trigger env.step(c, a)} ::
      env.plain(a) && c.db < |c.data| && (forall k: nat :: a != env.select(k)) ==>
        env.step(c, a) == c.(data := c.data[c.db := env.run(a, c.data[c.db])])
  {
    forall c: L.Client, a: Argv | env.plain(a) && c.db < |c.data| && forall k: nat :: a != env.select(k)
      ensures env.step(c, a) == c.(data := c.data[c.db := env.run(a, c.data[c.db])])
    {
      assert forall k: nat :: a != Select(k) by {
        forall k: nat ensures a != Select(k) { assert a != env.select(k); }
      }
      StepRuns(other, dbnum, c, a);
    }
  }

  lemma TextsJoin(env: L.Env)
    requires env.text == EncodeAll
    ensures env.text([]) == []
    ensures forall a: seq<Argv>, b: seq<Argv> {:trigger env.text(a + b)} :: env.text(a + b) == env.text(a) + env.text(b)
  {
    forall a: seq<Argv>, b: seq<Argv> ensures env.text(a + b) == env.text(a) + env.text(b) {
      EncodeAllConcat(a, b);
    }
  }

  lemma ServerLawful(other: Other, dbnum: nat)
    requires 0 < dbnum < 0x8000_0000
    ensures L.Lawful(ServerEnv(other, dbnum))
  {
    var env := ServerEnv(other, dbnum);
    SelectsMove(other, env);
    SelectsArePlain(env, dbnum);
    CommandsRun(other, env, dbnum);
    TextsJoin(env);
  }

  lemma PlainIsCommand(other: Other, dbnum: nat, cs: seq<Argv>)
    requires PlainLog(cs)
    ensures forall i :: 0 <= i < |cs| ==> L.IsCommand(ServerEnv(other, dbnum), cs[i])
  {
    forall i | 0 <= i < |cs| ensures L.IsCommand(ServerEnv(other, dbnum), cs[i]) {
      assert PlainCommand(cs[i]);
      forall k: nat ensures cs[i] != Select(k) { SelectParses(k); }
    }
  }

  lemma {:induction false} RunAllIsExecAll(env: L.Env, db: Db, cs: seq<Argv>)
    ensures L.RunAll(env, db, cs) == ExecAll(env.run, cs, db)
    decreases |cs|
  {
    if cs != [] { RunAllIsExecAll(env, env.run(cs[0], db), cs[1..]); }
  }

  lemma ExecTolerates(other: Other, dbnum: nat, now: int, db: Db, cs: seq<Argv>)
    requires forall d :: Trimmed(now, d, db) ==> Trimmed(now, ExecAll(Executor(other), cs, d), ExecAll(Executor(other), cs, db))
    ensures L.RunAll(ServerEnv(other, dbnum), db, cs) == ExecAll(Executor(other), cs, db)
    ensures L.Tolerates(ServerEnv(other, dbnum), now, db, cs)
  {
    var env := ServerEnv(other, dbnum);
    RunAllIsExecAll(env, db, cs);
    forall d | Trimmed(now, d, db) ensures Trimmed(now, L.RunAll(env, d, cs), L.RunAll(env, db, cs)) {
      RunAllIsExecAll(env, d, cs);
    }
  }

  // ------------------------------------------------------ the whole rewrite

  /** What the server guarantees of its keyspace. */
  ghost predicate Sound(db: Db) {
    forall k :: k in db ==> FitsLine(|k|) && HasItems(db[k].value) && Fits(db[k].value) && TimeFits(db[k].expire)
  }

  /** One entry: its value, then its expire time. */
  method RewriteEntry(key: bytes, e: Entry, per: nat, ghost run: (Argv, Db) -> Db, ghost before: Db)
    returns (out: bytes, ghost cs: seq<Argv>)
    requires per >= 1 && 2 + per + per < 0x8000_0000_0000_0000 && Runs(run)
    requires FitsLine(|key|) && HasItems(e.value) && Fits(e.value) && TimeFits(e.expire) && key !in before
    ensures out == EncodeAll(cs) && PlainLog(cs)
    ensures ExecAll(run, cs, before) == before[key := e]
  {
    ghost var flat: Argv := [];
    if e.value.Str? {
      out := Encode([SET, key, e.value.s]);
      assert out == out + [];
    } else {
      var items := Enumerate(e.value);
      out := RewriteItems(KindOf(e.value), key, items, per);
      flat := items;
    }
    ghost var vs, es := ValueCommands(key, e.value, flat, per), ExpireCommands(key, e.expire);
    assert out == EncodeAll(vs) by {
      if e.value.Str? { EncodeOne([SET, key, e.value.s]); }
    }
    EncodeAllConcat(vs, es);
    if e.expire.Some? {
      out := out + Encode([PEXPIREAT, key, PrintInt(e.expire.value)]);
      EncodeOne([PEXPIREAT, key, PrintInt(e.expire.value)]);
    } else {
      assert es == [] && vs + es == vs;
    }
    cs := vs + es;
    EntryPlain(key, e, flat, per);
    PlainConcat(vs, es);
    EntryRebuilds(run, key, e, flat, per, before);
  }

  lemma EncodeOne(a: Argv)
    ensures EncodeAll([a]) == Encode(a)
  {
    assert [a][1..] == [];
  }

  /** `out` is the text of `cs`, and `cs` rebuilds what is live in `db`. */
  ghost predicate Dumps(run: (Argv, Db) -> Db, now: int, db: Db, out: bytes, cs: seq<Argv>) {
    out == EncodeAll(cs) && PlainLog(cs) && ExecAll(run, cs, map[]) == Live(now, db)
  }

  lemma LivePut(now: int, db: Db, key: bytes, e: Entry)
    ensures !Expired(now, e) ==> Live(now, db[key := e]) == Live(now, db)[key := e]
    ensures Expired(now, e) && key !in db ==> Live(now, db[key := e]) == Live(now, db)
  {}

  lemma DumpsMore(run: (Argv, Db) -> Db, now: int, db: Db, key: bytes, e: Entry,
                  out: bytes, cs: seq<Argv>, one: bytes, more: seq<Argv>)
    requires Dumps(run, now, db, out, cs) && !Expired(now, e)
    requires one == EncodeAll(more) && PlainLog(more)
    requires ExecAll(run, more, Live(now, db)) == Live(now, db)[key := e]
    ensures Dumps(run, now, db[key := e], out + one, cs + more)
  {
    EncodeAllConcat(cs, more);
    PlainConcat(cs, more);
    ExecAllConcat(run, cs, more, map[]);
    LivePut(now, db, key, e);
  }

  lemma PutBack(db: Db, rest: set<bytes>, key: bytes)
    requires key in rest && rest <= db.Keys
    ensures db - (rest - {key}) == (db - rest)[key := db[key]]
  {}

  method RewriteDb(db: Db, now: int, per: nat, ghost run: (Argv, Db) -> Db)
    returns (out: bytes, ghost cs: seq<Argv>)
    requires per >= 1 && 2 + per + per < 0x8000_0000_0000_0000 && Runs(run) && Sound(db)
    ensures Dumps(run, now, db, out, cs)
  {
    out, cs := [], [];
    var rest := db.Keys;
    assert Live(now, db - rest) == map[];
    while rest != {}
      invariant rest <= db.Keys && Dumps(run, now, db - rest, out, cs)
    {
      var key :| key in rest;
      ghost var before := db - rest;
      PutBack(db, rest, key);
      LivePut(now, before, key, db[key]);
      rest := rest - {key};
      if !Expired(now, db[key]) {
        var one, more := RewriteEntry(key, db[key], per, run, Live(now, before));
        DumpsMore(run, now, before, key, db[key], out, cs, one, more);
        out, cs := out + one, cs + more;
      }
    }
    assert db - rest == db;
  }

  /** The dataset with the first `j` databases kept live and the others empty. */
  ghost function Upto(now: int, data: seq<Db>, j: nat): (r: seq<Db>)
    requires j <= |data|
    ensures |r| == |data|
  {
    seq(|data|, i requires 0 <= i < |data| => if i < j then Live(now, data[i]) else map[])
  }

  lemma UptoNext(now: int, data: seq<Db>, j: nat)
    requires j < |data|
    ensures Upto(now, data, j)[j := Live(now, data[j])] == Upto(now, data, j + 1)
    ensures data[j] == map[] ==> Upto(now, data, j) == Upto(now, data, j + 1)
  {}

  lemma ReplayDb(env: L.Env, dump: seq<Argv>, j: nat, cs: seq<Argv>, data: seq<Db>, db: Db)
    requires L.Lawful(env) && L.Loggable(env, dump) && L.Replay(env, env.start, dump).data == data
    requires j < |data| == env.dbnum && data[j] == map[]
    requires ExecAll(env.run, cs, map[]) == db
    requires forall i :: 0 <= i < |cs| ==> L.IsCommand(env, cs[i])
    ensures L.Replay(env, env.start, dump + ([env.select(j)] + cs)) == L.Client(j, data[j := db])
    ensures L.Loggable(env, dump + ([env.select(j)] + cs))
  {
    var c := L.Replay(env, env.start, dump);
    var sel: seq<Argv> := [env.select(j)];
    L.ReplayConcat(env, env.start, dump, sel + cs);
    assert (sel + cs)[0] == env.select(j) && (sel + cs)[1..] == cs;
    var d := env.step(c, env.select(j));
    assert d == c.(db := j);
    L.ReplayCommands(env, d, cs);
    RunAllIsExecAll(env, map[], cs);
    var all := dump + (sel + cs);
    forall i | 0 <= i < |all| ensures env.plain(all[i]) {
      if i > |dump| { assert L.IsCommand(env, cs[i - |dump| - 1]); }
    }
  }

  lemma PrintSelected(dump: seq<Argv>, j: nat, cs: seq<Argv>)
    ensures EncodeAll(dump + ([Select(j)] + cs)) == EncodeAll(dump) + Encode(Select(j)) + EncodeAll(cs)
  {
    EncodeAllConcat(dump, [Select(j)] + cs);
    EncodeAllConcat([Select(j)], cs);
    EncodeOne(Select(j));
  }

  /** Replayed from nothing, `dump` gives exactly `data`. */
  ghost predicate Gives(env: L.Env, dump: seq<Argv>, data: seq<Db>) {
    var c := L.Replay(env, env.start, dump);
    L.Loggable(env, dump) && c.data == data && c.db < env.dbnum
  }

  ghost predicate DumpsUpto(other: Other, now: int, data: seq<Db>, j: nat, out: bytes, dump: seq<Argv>)
    requires j <= |data|
  {
    out == EncodeAll(dump) && Gives(ServerEnv(other, |data|), dump, Upto(now, data, j))
  }

  lemma DumpsNothing(other: Other, now: int, data: seq<Db>)
    requires |data| > 0
    ensures DumpsUpto(other, now, data, 0, [], [])
  {
    assert Upto(now, data, 0) == EmptyData(|data|);
  }

  lemma DumpsSkip(other: Other, now: int, data: seq<Db>, j: nat, out: bytes, dump: seq<Argv>)
    requires j < |data| && data[j] == map[] && DumpsUpto(other, now, data, j, out, dump)
    ensures DumpsUpto(other, now, data, j + 1, out, dump)
  {
    UptoNext(now, data, j);
  }

  lemma DumpsNext(other: Other, now: int, data: seq<Db>, j: nat, out: bytes, dump: seq<Argv>, text: bytes, cs: seq<Argv>)
    requires 0 < |data| < 0x8000_0000 && j < |data| && DumpsUpto(other, now, data, j, out, dump)
    requires Dumps(Executor(other), now, data[j], text, cs)
    ensures DumpsUpto(other, now, data, j + 1, out + Encode(Select(j)) + text, dump + ([Select(j)] + cs))
  {
    var env, done := ServerEnv(other, |data|), Upto(now, data, j);
    ServerLawful(other, |data|);
    PlainIsCommand(other, |data|, cs);
    ReplayDb(env, dump, j, cs, done, Live(now, data[j]));
    PrintSelected(dump, j, cs);
    UptoNext(now, data, j);
  }

  /** Loading `out` from nothing reads all of it and gives every database as far as it is live. */
  ghost predicate LoadsLive(other: Other, now: int, data: seq<Db>, out: bytes) {
    var r := Loader.Load(out);
    var after := L.Replay(ServerEnv(other, |data|), L.Client(0, EmptyData(|data|)), r.ran).data;
    r.Whole? && |after| == |data| && forall i :: 0 <= i < |data| ==> after[i] == Live(now, data[i])
  }

  lemma DumpLoads(other: Other, now: int, data: seq<Db>, out: bytes, dump: seq<Argv>)
    requires 0 < |data| < 0x8000_0000 && DumpsUpto(other, now, data, |data|, out, dump)
    ensures LoadsLive(other, now, data, out)
  {
    var env := ServerEnv(other, |data|);
    forall i | 0 <= i < |dump| ensures PlainCommand(dump[i]) { assert env.plain(dump[i]); }
    Loader.WholeLogLoads(dump);
  }

  /** It is the dump that a child which read its clock at `now` may end with. */
  lemma DumpIsDump(other: Other, now: int, data: seq<Db>, out: bytes, dump: seq<Argv>)
    requires DumpsUpto(other, now, data, |data|, out, dump)
    ensures L.IsDump(ServerEnv(other, |data|), now, dump, data)
  {
    forall i | 0 <= i < |data| ensures Trimmed(now, Upto(now, data, |data|)[i], data[i]) { LiveTrims(now, data[i]); }
  }

  /** rewriteAppendOnlyFileRio: the text printed is a dump of what is live, and loading it
      from nothing rebuilds exactly that. */
  method RewriteAppendOnlyFileRio(data: seq<Db>, now: int, per: nat, ghost other: Other)
    returns (out: bytes, ghost dump: seq<Argv>)
    requires 0 < |data| < 0x8000_0000 && per >= 1 && 2 + per + per < 0x8000_0000_0000_0000
    requires forall i :: 0 <= i < |data| ==> Sound(data[i])
    ensures DumpsUpto(other, now, data, |data|, out, dump)
    ensures LoadsLive(other, now, data, out)
  {
    ExecutorRuns(other);
    out, dump := [], [];
    var j := 0;
    DumpsNothing(other, now, data);
    while j < |data|
      invariant 0 <= j <= |data| && DumpsUpto(other, now, data, j, out, dump)
    {
      if data[j] != map[] {
        var text, cs := RewriteDb(data[j], now, per, Executor(other));
        DumpsNext(other, now, data, j, out, dump, text, cs);
        out, dump := out + Encode(Select(j)) + text, dump + ([Select(j)] + cs);
      } else {
        DumpsSkip(other, now, data, j, out, dump);
      }
      j := j + 1;
    }
    DumpLoads(other, now, data, out, dump);
  }
}
