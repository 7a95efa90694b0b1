/**
 The child of a rewrite reads its clock after the fork. What happens when a key expires in
 between, while the server still writes to it.
 */
module AofLateClock {
  import opened Basics
  import opened Resp
  import opened Keyspace
  import opened AofRecovery
  import opened AofCommands
  import opened AofRewrite
  import opened AofFeed
  import opened AofServer
  import L = AofLog
  import Loader = AofLoader

  // --------------------------------------------------------- one command exactly

  /** Commands that bring something to life at a key that was left out as expired. */
  predicate Revives(clock: int, op: Op) {
    match op
    case OpExpire(_, t) => t >= clock
    case OpPush(_, _) => true
    case OpAdd(_, _) => true
    case OpScore(_, items) => |items| % 2 == 0
    case OpFields(_, items) => |items| % 2 == 0
    case _ => false
  }

  /** A dump that leaves out what had expired at `clock`, followed by one command that the
      server carried out on everything, shows what the server shows, iff the command is not
      one of those on one of those keys. */
  lemma OneCommandExact(other: Other, clock: int, op: Op, db: Db)
    requires !op.OpOther?
    ensures Live(clock, Apply(other, op, Live(clock, db))) == Live(clock, Apply(other, op, db))
            <==> !(op.key in db && Expired(clock, db[op.key]) && Revives(clock, op))
  {
    if op.key in db && Expired(clock, db[op.key]) && Revives(clock, op) {
      RevivedDiffers(other, clock, op, db);
    } else {
      OthersSame(other, clock, op, db);
    }
  }

  /** The key is alive on one side only. */
  lemma RevivedDiffers(other: Other, clock: int, op: Op, db: Db)
    requires !op.OpOther? && op.key in db && Expired(clock, db[op.key]) && Revives(clock, op)
    ensures op.key in Live(clock, Apply(other, op, Live(clock, db))) <==> op.key !in Live(clock, Apply(other, op, db))
  {}

  lemma OthersSame(other: Other, clock: int, op: Op, db: Db)
    requires !op.OpOther? && !(op.key in db && Expired(clock, db[op.key]) && Revives(clock, op))
    ensures Live(clock, Apply(other, op, Live(clock, db))) == Live(clock, Apply(other, op, db))
  {
    var l, k := Live(clock, db), op.key;
    var a, b := Apply(other, op, l), Apply(other, op, db);
    forall j ensures (j in Live(clock, a) <==> j in Live(clock, b)) && (j in Live(clock, a) ==> a[j] == b[j]) {
      if j != k { assert (j in a <==> j in l) && (j in b <==> j in db); }
    }
  }

  // ------------------------------------------------- many commands exactly

  function RunOps(other: Other, ops: seq<Op>, db: Db): Db
    decreases |ops|
  {
    if ops == [] then db else RunOps(other, ops[1..], Apply(other, ops[0], db))
  }

  /** Commands that are modelled by themselves, no two on the same key. */
  ghost predicate OncePerKey(ops: seq<Op>) {
    && (forall i :: 0 <= i < |ops| ==> !ops[i].OpOther?)
    && (forall i, j :: 0 <= i < j < |ops| ==> ops[i].key != ops[j].key)
  }

  ghost predicate Same(a: Db, b: Db, k: bytes) { (k in a <==> k in b) && (k in a ==> a[k] == b[k]) }

  lemma ApplyElsewhere(other: Other, op: Op, db: Db, k: bytes)
    requires !op.OpOther? && k != op.key
    ensures Same(Apply(other, op, db), db, k)
  {}

  lemma ApplyAtKey(other: Other, op: Op, a: Db, b: Db)
    requires !op.OpOther? && Same(a, b, op.key)
    ensures Same(Apply(other, op, a), Apply(other, op, b), op.key)
  {}

  lemma {:induction false} OpsElsewhere(other: Other, ops: seq<Op>, db: Db, k: bytes)
    requires forall i :: 0 <= i < |ops| ==> !ops[i].OpOther? && ops[i].key != k
    ensures Same(RunOps(other, ops, db), db, k)
    decreases |ops|
  {
    if ops != [] {
      ApplyElsewhere(other, ops[0], db, k);
      OpsElsewhere(other, ops[1..], Apply(other, ops[0], db), k);
    }
  }

  /** At the key of command `i` all commands do what that command does. */
  lemma {:induction false} OpsAtKey(other: Other, ops: seq<Op>, db: Db, i: nat)
    requires OncePerKey(ops) && i < |ops|
    ensures Same(RunOps(other, ops, db), Apply(other, ops[i], db), ops[i].key)
    decreases |ops|
  {
    var db1 := Apply(other, ops[0], db);
    if i == 0 {
      OpsElsewhere(other, ops[1..], db1, ops[0].key);
    } else {
      OpsAtKey(other, ops[1..], db1, i - 1);
      ApplyElsewhere(other, ops[0], db, ops[i].key);
      ApplyAtKey(other, ops[i], db1, db);
    }
  }

  ghost predicate LostOrRaised(clock: int, op: Op, db: Db) {
    !op.OpOther? && op.key in db && Expired(clock, db[op.key]) && Revives(clock, op)
  }

  ghost predicate SameLive(clock: int, a: Db, b: Db, k: bytes) { Same(Live(clock, a), Live(clock, b), k) }

  /** What clients see at the key of command `i`. */
  lemma SeenAtKey(other: Other, clock: int, ops: seq<Op>, db: Db, i: nat)
    requires OncePerKey(ops) && i < |ops|
    ensures SameLive(clock, RunOps(other, ops, Live(clock, db)), RunOps(other, ops, db), ops[i].key)
            <==> !LostOrRaised(clock, ops[i], db)
  {
    OpsAtKey(other, ops, db, i);
    OpsAtKey(other, ops, Live(clock, db), i);
    OneAtKey(other, clock, ops[i], db);
    SameThrough(clock, RunOps(other, ops, Live(clock, db)), Apply(other, ops[i], Live(clock, db)),
                RunOps(other, ops, db), Apply(other, ops[i], db), ops[i].key);
  }

  lemma OneAtKey(other: Other, clock: int, op: Op, db: Db)
    requires !op.OpOther?
    ensures SameLive(clock, Apply(other, op, Live(clock, db)), Apply(other, op, db), op.key) <==> !LostOrRaised(clock, op, db)
  {
    if LostOrRaised(clock, op, db) {
      RevivedDiffers(other, clock, op, db);
    } else {
      OthersSame(other, clock, op, db);
    }
  }

  lemma SameThrough(clock: int, a: Db, a1: Db, b: Db, b1: Db, k: bytes)
    requires Same(a, a1, k) && Same(b, b1, k)
    ensures SameLive(clock, a, b, k) <==> SameLive(clock, a1, b1, k)
  {}

  /** The same for any number of commands in the window: the rewritten log shows what the server
      shows iff none of them is one that revives, on a key that was left out as expired. */
  lemma ManyCommandsExact(other: Other, clock: int, ops: seq<Op>, db: Db)
    requires OncePerKey(ops)
    ensures Live(clock, RunOps(other, ops, Live(clock, db))) == Live(clock, RunOps(other, ops, db))
            <==> forall i :: 0 <= i < |ops| ==> !LostOrRaised(clock, ops[i], db)
  {
    var a, b := RunOps(other, ops, Live(clock, db)), RunOps(other, ops, db);
    forall i | 0 <= i < |ops| ensures SameLive(clock, a, b, ops[i].key) <==> !LostOrRaised(clock, ops[i], db) {
      SeenAtKey(other, clock, ops, db, i);
    }
    if forall i :: 0 <= i < |ops| ==> !LostOrRaised(clock, ops[i], db) {
      forall k ensures SameLive(clock, a, b, k) {
        if forall i :: 0 <= i < |ops| ==> ops[i].key != k {
          OpsElsewhere(other, ops, db, k);
          OpsElsewhere(other, ops, Live(clock, db), k);
        }
      }
      assert forall k :: k in Live(clock, a) <==> k in Live(clock, b) by {
        forall k ensures k in Live(clock, a) <==> k in Live(clock, b) { assert SameLive(clock, a, b, k); }
      }
      forall k | k in Live(clock, a) ensures Live(clock, a)[k] == Live(clock, b)[k] { assert SameLive(clock, a, b, k); }
    } else {
      var i :| 0 <= i < |ops| && LostOrRaised(clock, ops[i], db);
      assert !SameLive(clock, a, b, ops[i].key);
    }
  }

  // ------------------------------------------------------------------- a run

  const K: bytes := [107]
  const V: bytes := [118]

  function At(t: int): Db { map[K := Entry(Str(V), Some(t))] }

  /** What PSETEX and PEXPIRE log. */
  function Create(): seq<Argv> { [[SET, K, V], [PEXPIREAT, K, PrintInt(100)]] }

  function Extend(): seq<Argv> { [[PEXPIREAT, K, PrintInt(200)]] }

  lemma ShortPlain(t: nat)
    requires t < 1000
    ensures PlainLog([[PEXPIREAT, K, PrintInt(t)]]) && PlainLog([[SET, K, V]])
  {
    SmallFits(1);
    SmallFits(3);
    SmallFits(9);
    DecimalShort(t);
    SmallFits(|PrintInt(t)|);
    NamedPlain([PEXPIREAT, K, PrintInt(t)]);
    NamedPlain([SET, K, V]);
  }

  lemma CreateExec(other: Other)
    ensures ExecAll(Executor(other), Create(), map[]) == At(100)
  {
    assert Named([SET, K, V], SET);
    RunSetThenExpire(other, [SET, K, V], K, V, 100, map[]);
  }

  lemma ExtendExec(other: Other)
    ensures ExecAll(Executor(other), Extend(), At(100)) == At(200)
    ensures ExecAll(Executor(other), Extend(), map[]) == map[]
  {
    ParseExpire(K, 200);
    ExecOne(Executor(other), [PEXPIREAT, K, PrintInt(200)], At(100));
    ExecOne(Executor(other), [PEXPIREAT, K, PrintInt(200)], map[]);
  }

  /** The commands turn a database in which nothing has expired into another. */
  ghost predicate Turns(env: L.Env, now: int, cs: seq<Argv>, db: Db, next: Db) {
    && (forall i :: 0 <= i < |cs| ==> L.IsCommand(env, cs[i]))
    && L.Tolerates(env, now, db, cs) && L.RunAll(env, db, cs) == next
  }

  lemma ServerTurns(other: Other, env: L.Env, now: int, cs: seq<Argv>, db: Db, next: Db)
    requires env == ServerEnv(other, 1) && PlainLog(cs) && ExecAll(Executor(other), cs, db) == next
    requires forall k :: k in db ==> !Expired(now, db[k])
    ensures Turns(env, now, cs, db, next)
  {
    PlainIsCommand(other, 1, cs);
    assert forall d :: Trimmed(now, d, db) ==> d == db;
    ExecTolerates(other, 1, now, db, cs);
  }

  lemma Then(env: L.Env, s: L.State, e: L.Event, es: seq<L.Event>, t: L.State)
    requires L.Enabled(env, s, e) && L.Run(env, L.Next(env, s, e), es, t)
    ensures L.Run(env, s, [e] + es, t)
  {
    assert ([e] + es)[0] == e && ([e] + es)[1..] == es;
  }

  function Rest(): seq<L.Event> { [L.ReadClock] + ([L.Ask] + ([L.Ack] + ([L.Finish([])] + ([L.Reap(L.Switched)] + [])))) }

  /** The rewrite from the reading of the clock on: an empty dump takes over, and after it
      comes what was fed. */
  lemma SwitchRun(env: L.Env, s: L.State) returns (t: L.State)
    requires L.Lawful(env) && s.mode.On? && s.child.Child? && s.child.phase.Working? && s.child.clock.None?
    requires !s.child.stop && s.child.diff == [] && s.child.pipe == [] && L.IsDump(env, s.now, [], s.child.snapshot)
    ensures L.Run(env, s, Rest(), t)
    ensures t.mode.On? && t.now == s.now && t.data == s.data && t.buf == [] && t.file == s.child.blocks
  {
    var s1 := L.Next(env, s, L.ReadClock);
    var s2 := L.Next(env, s1, L.Ask);
    var s3 := L.Next(env, s2, L.Ack);
    var s4 := L.Next(env, s3, L.Finish([]));
    t := L.Next(env, s4, L.Reap(L.Switched));
    assert s4.child.phase.output == [];
    Then(env, s4, L.Reap(L.Switched), [], t);
    Then(env, s3, L.Finish([]), [L.Reap(L.Switched)] + [], t);
    Then(env, s2, L.Ack, [L.Finish([])] + ([L.Reap(L.Switched)] + []), t);
    Then(env, s1, L.Ask, [L.Ack] + ([L.Finish([])] + ([L.Reap(L.Switched)] + [])), t);
    Then(env, s, L.ReadClock, [L.Ask] + ([L.Ack] + ([L.Finish([])] + ([L.Reap(L.Switched)] + []))), t);
  }

  /** A key is put, and its time comes near; the child is forked, the key gets more time, and
      only then the child reads its clock. */
  function Events(create: seq<Argv>, extend: seq<Argv>): seq<L.Event> {
    Early(create, extend, Rest())
  }

  function Start(): L.State { L.State(L.On, [], [], 0, None, L.NoChild, 0, [map[]]) }

  /** The state when the child reads its clock: the snapshot holds the key with its old time. */
  ghost predicate Late(env: L.Env, s: L.State, extend: seq<Argv>, one: Db, two: Db) {
    && s.mode.On? && s.now == 101 && s.data == [two]
    && s.child == L.Child([one], 100, None, [], [], env.text([env.select(0)] + extend), false, L.Working,
                          env.text([env.select(0)] + extend))
  }

  function Early(create: seq<Argv>, extend: seq<Argv>, rest: seq<L.Event>): seq<L.Event> {
    [L.Command(0, create)] + ([L.Tick(100)] + ([L.Fork] + ([L.Command(0, extend)] + ([L.Tick(101)] + rest))))
  }

  lemma EarlyRun(env: L.Env, create: seq<Argv>, extend: seq<Argv>, one: Db, two: Db) returns (s: L.State)
    requires L.Lawful(env) && env.dbnum == 1
    requires Turns(env, 0, create, map[], one) && Turns(env, 100, extend, one, two)
    ensures Late(env, s, extend, one, two)
    ensures forall rest, t :: L.Run(env, s, rest, t) ==> L.Run(env, Start(), Early(create, extend, rest), t)
  {
    var s0 := Start();
    var s1 := L.Next(env, s0, L.Command(0, create));
    var s2 := L.Next(env, s1, L.Tick(100));
    var s3 := L.Next(env, s2, L.Fork);
    assert s3.data == [one] && s3.child == L.Child([one], 100, None, [], [], [], false, L.Working, []);
    var s4 := L.Next(env, s3, L.Command(0, extend));
    s := L.Next(env, s4, L.Tick(101));
    forall rest, t | L.Run(env, s, rest, t) ensures L.Run(env, s0, Early(create, extend, rest), t) {
      Then(env, s4, L.Tick(101), rest, t);
      Then(env, s3, L.Command(0, extend), [L.Tick(101)] + rest, t);
      Then(env, s2, L.Fork, [L.Command(0, extend)] + ([L.Tick(101)] + rest), t);
      Then(env, s1, L.Tick(100), [L.Fork] + ([L.Command(0, extend)] + ([L.Tick(101)] + rest)), t);
      Then(env, s0, L.Command(0, create), [L.Tick(100)] + ([L.Fork] + ([L.Command(0, extend)] + ([L.Tick(101)] + rest))), t);
    }
  }

  lemma WholeRun(env: L.Env, create: seq<Argv>, extend: seq<Argv>, one: Db, two: Db) returns (t: L.State)
    requires L.Lawful(env) && env.dbnum == 1 && env.start == L.Client(0, [map[]])
    requires Turns(env, 0, create, map[], one) && Turns(env, 100, extend, one, two)
    requires forall k :: k in one ==> Expired(101, one[k])
    ensures L.Run(env, Start(), Events(create, extend), t)
    ensures t.mode.On? && t.now == 101 && t.data == [two] && t.file + t.buf == env.text([env.select(0)] + extend)
  {
    var s := EarlyRun(env, create, extend, one, two);
    assert L.IsDump(env, 101, [], [one]);
    t := SwitchRun(env, s);
  }

  /** Replaying the new log finds no key to extend. */
  lemma ReplayExtend(env: L.Env, extend: seq<Argv>)
    requires L.Lawful(env) && env.dbnum == 1 && env.start == L.Client(0, [map[]])
    requires forall i :: 0 <= i < |extend| ==> L.IsCommand(env, extend[i])
    requires L.RunAll(env, map[], extend) == map[]
    ensures L.Replay(env, env.start, [env.select(0)] + extend).data == [map[]]
  {
    var log := [env.select(0)] + extend;
    assert log[0] == env.select(0) && log[1..] == extend;
    assert env.step(env.start, env.select(0)) == env.start;
    L.ReplayCommands(env, env.start, extend);
  }

  lemma ServerRun(other: Other, env: L.Env) returns (t: L.State)
    requires env == ServerEnv(other, 1)
    ensures L.Boot(env, Start()) && L.Run(env, Start(), Events(Create(), Extend()), t)
    ensures t.mode.On? && t.now == 101 && t.data == [At(200)] && t.file + t.buf == EncodeAll([Select(0)] + Extend())
    ensures L.Replay(env, env.start, [Select(0)] + Extend()).data == [map[]]
  {
    ServerLawful(other, 1);
    assert env.start == L.Client(0, [map[]]) by { assert EmptyData(1) == [map[]]; }
    ShortPlain(100);
    CreateExec(other);
    ServerTurns(other, env, 0, Create(), map[], At(100));
    ShortPlain(200);
    ExtendExec(other);
    ServerTurns(other, env, 100, Extend(), At(100), At(200));
    ServerTurns(other, env, 100, Extend(), map[], map[]);
    t := WholeRun(env, Create(), Extend(), At(100), At(200));
    ReplayExtend(env, Extend());
  }

  /** Loading the log from nothing reads all of it and gives `data`. */
  ghost predicate LoadsTo(env: L.Env, t: L.State, data: seq<Db>) {
    Loader.Load(t.file + t.buf).Whole? && L.Replay(env, env.start, Loader.Load(t.file + t.buf).ran).data == data
  }

  /** The server holds the key, with time left, and loading its log gives a database without it. */
  lemma LateClockLosesKey(other: Other, env: L.Env) returns (t: L.State)
    requires env == ServerEnv(other, 1)
    ensures L.Boot(env, Start()) && L.Run(env, Start(), Events(Create(), Extend()), t) && t.mode.On?
    ensures t.data == [At(200)] && !Expired(t.now, At(200)[K])
    ensures LoadsTo(env, t, [map[]])
  {
    t := ServerRun(other, env);
    var log := [Select(0)] + Extend();
    NewLogLoads(log);
  }

  lemma NewLogLoads(log: seq<Argv>)
    requires log == [Select(0)] + Extend()
    ensures Loader.Load(EncodeAll(log)) == Loader.Whole(log)
  {
    ShortPlain(200);
    SelectPlain(1, 0);
    Loader.WholeLogLoads(log);
  }
}
