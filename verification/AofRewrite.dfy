/**
 The rewrite of a whole dataset: the child prints commands that rebuild it from
 nothing. Iterators over sets, hashes and keys may visit in any order.
 */
module AofRewrite {
  import opened Basics
  import opened Resp
  import opened Keyspace
  import opened AofRecovery
  import opened AofCommands

  function KindOf(v: Value): Kind
    requires !v.Str?
  {
    match v
    case List(_) => Items
    case Set(_) => Members
    case ZSet(_) => Scores
    case Hash(_) => Fields
  }

  /** Every string of the value is short enough to print. */
  ghost predicate Fits(v: Value) {
    match v
    case Str(s) => FitsLine(|s|)
    case List(items) => forall x :: x in items ==> FitsLine(|x|)
    case Set(members) => forall x :: x in members ==> FitsLine(|x|)
    case ZSet(m) => forall x :: x in m ==> FitsLine(|x|) && FitsLine(|m[x]|)
    case Hash(m) => forall x :: x in m ==> FitsLine(|x|) && FitsLine(|m[x]|)
  }

  ghost predicate AllFit(a: Argv) { forall i :: 0 <= i < |a| ==> FitsLine(|a[i]|) }

  // ------------------------------------------------------------- enumeration

  method EnumerateSet(members: set<bytes>) returns (flat: seq<bytes>)
    ensures (set x | x in flat) == members
  {
    flat := [];
    var rest := members;
    while rest != {}
      invariant rest <= members && (set x | x in flat) == members - rest
    {
      var x :| x in rest;
      assert (set y | y in flat + [x]) == (set y | y in flat) + {x};
      rest, flat := rest - {x}, flat + [x];
    }
  }

  lemma PutField(m: map<bytes, bytes>, flat: Argv, rest: set<bytes>, x: bytes)
    requires |flat| % 2 == 0 && rest <= m.Keys && x in rest && PutFields(map[], flat) == m - rest
    ensures |flat + [x, m[x]]| % 2 == 0 && PutFields(map[], flat + [x, m[x]]) == m - (rest - {x})
  {
    var pair: Argv := [x, m[x]];
    PutFieldsConcat(map[], flat, pair);
    assert pair[2..] == [];
    assert (m - rest)[x := m[x]] == m - (rest - {x});
  }

  lemma PutScore(m: map<bytes, bytes>, flat: Argv, rest: set<bytes>, x: bytes)
    requires |flat| % 2 == 0 && rest <= m.Keys && x in rest && PutScores(map[], flat) == m - rest
    ensures |flat + [m[x], x]| % 2 == 0 && PutScores(map[], flat + [m[x], x]) == m - (rest - {x})
  {
    var pair: Argv := [m[x], x];
    PutScoresConcat(map[], flat, pair);
    assert pair[2..] == [];
    assert (m - rest)[x := m[x]] == m - (rest - {x});
  }

  method EnumerateFields(m: map<bytes, bytes>) returns (flat: seq<bytes>)
    ensures |flat| % 2 == 0 && PutFields(map[], flat) == m
    ensures Fits(Hash(m)) ==> AllFit(flat)
  {
    flat := [];
    var rest := m.Keys;
    assert m - rest == map[];
    while rest != {}
      invariant rest <= m.Keys && |flat| % 2 == 0
      invariant PutFields(map[], flat) == m - rest
      invariant Fits(Hash(m)) ==> AllFit(flat)
    {
      var x :| x in rest;
      PutField(m, flat, rest, x);
      rest, flat := rest - {x}, flat + [x, m[x]];
    }
    assert m - rest == m;
  }

  method EnumerateScores(m: map<bytes, bytes>) returns (flat: seq<bytes>)
    ensures |flat| % 2 == 0 && PutScores(map[], flat) == m
    ensures Fits(ZSet(m)) ==> AllFit(flat)
  {
    flat := [];
    var rest := m.Keys;
    assert m - rest == map[];
    while rest != {}
      invariant rest <= m.Keys && |flat| % 2 == 0
      invariant PutScores(map[], flat) == m - rest
      invariant Fits(ZSet(m)) ==> AllFit(flat)
    {
      var x :| x in rest;
      PutScore(m, flat, rest, x);
      rest, flat := rest - {x}, flat + [m[x], x];
    }
    assert m - rest == m;
  }

  /** What a rewrite streams for an aggregate: filling an empty one with it gives the value. */
  method Enumerate(v: Value) returns (flat: seq<bytes>)
    requires !v.Str?
    ensures Whole(KindOf(v), |flat|)
    ensures Fill(KindOf(v), Empty(KindOf(v)), flat) == v
    ensures Fits(v) ==> AllFit(flat)
  {
    match v {
      case List(items) =>
        flat := items;
        assert [] + items == items;
      case Set(members) =>
        flat := EnumerateSet(members);
        assert forall i :: 0 <= i < |flat| ==> flat[i] in (set x | x in flat);
      case ZSet(m) => flat := EnumerateScores(m);
      case Hash(m) => flat := EnumerateFields(m);
    }
  }

  // --------------------------------------------------------------- one entry

  ghost function ValueCommands(key: bytes, v: Value, flat: seq<bytes>, per: nat): seq<Argv>
    requires per >= 1 && (!v.Str? ==> Whole(KindOf(v), |flat|))
  {
    if v.Str? then [[SET, key, v.s]] else Chunks(KindOf(v), key, flat, per)
  }

  ghost function ExpireCommands(key: bytes, t: Option<int>): seq<Argv> {
    if t.Some? then [[PEXPIREAT, key, PrintInt(t.value)]] else []
  }

  /** The laws of execution that a rewrite relies on. */
  ghost predicate Runs(run: (Argv, Db) -> Db) {
    && FillsItems(run)
    && (forall key: bytes, s: bytes, db: Db {:trigger run([SET, key, s], db)} ::
          run([SET, key, s], db) == db[key := Entry(Str(s), None)])
    && (forall key: bytes, t: int, db: Db {:trigger run([PEXPIREAT, key, PrintInt(t)], db)} ::
          key in db ==> run([PEXPIREAT, key, PrintInt(t)], db) == db[key := db[key].(expire := Some(t))])
  }

  lemma ParseExpire(key: bytes, t: int)
    ensures Parse([PEXPIREAT, key, PrintInt(t)]) == OpExpire(key, t)
  {
    var a: Argv := [PEXPIREAT, key, PrintInt(t)];
    assert |SET| == 3 && |RPUSH| == 5 && |SADD| == 4 && |ZADD| == 4 && |HMSET| == 5 && |PEXPIREAT| == 9;
    assert |a[0]| == 9;
    ParsePrintInt(t);
  }

  lemma ParseSet(key: bytes, s: bytes)
    ensures Parse([SET, key, s]) == OpSet(key, s)
  {
    assert |[SET, key, s][0]| == 3;
  }

  lemma ExecutorRuns(other: Other)
    ensures Runs(Executor(other))
  {
    ExecutorFills(other);
    forall key: bytes, s: bytes, db: Db
      ensures Executor(other)([SET, key, s], db) == db[key := Entry(Str(s), None)]
    {
      ParseSet(key, s);
    }
    forall key: bytes, t: int, db: Db | key in db
      ensures Executor(other)([PEXPIREAT, key, PrintInt(t)], db) == db[key := db[key].(expire := Some(t))]
    {
      ParseExpire(key, t);
    }
  }

  lemma {:induction false} ExecOne(run: (Argv, Db) -> Db, a: Argv, db: Db)
    ensures ExecAll(run, [a], db) == run(a, db)
  {
    assert [a][1..] == [];
  }

  lemma ValueRebuilds(run: (Argv, Db) -> Db, key: bytes, v: Value, flat: seq<bytes>, per: nat, db: Db)
    requires Runs(run) && per >= 1 && key !in db && HasItems(v)
    requires !v.Str? ==> Whole(KindOf(v), |flat|) && Fill(KindOf(v), Empty(KindOf(v)), flat) == v
    ensures ExecAll(run, ValueCommands(key, v, flat, per), db) == db[key := Entry(v, None)]
  {
    if v.Str? {
      ExecOne(run, [SET, key, v.s], db);
    } else {
      assert flat != [];
      ChunksFill(run, KindOf(v), key, flat, per, db);
    }
  }

  /** Executing what is printed for an entry, where the key is absent, puts the entry there. */
  lemma EntryRebuilds(run: (Argv, Db) -> Db, key: bytes, e: Entry, flat: seq<bytes>, per: nat, db: Db)
    requires Runs(run) && per >= 1 && key !in db && HasItems(e.value)
    requires !e.value.Str? ==>
      Whole(KindOf(e.value), |flat|) && Fill(KindOf(e.value), Empty(KindOf(e.value)), flat) == e.value
    ensures ExecAll(run, ValueCommands(key, e.value, flat, per) + ExpireCommands(key, e.expire), db) == db[key := e]
  {
    var cs, es := ValueCommands(key, e.value, flat, per), ExpireCommands(key, e.expire);
    ExecAllConcat(run, cs, es, db);
    ValueRebuilds(run, key, e.value, flat, per, db);
    if e.expire.Some? {
      ExecOne(run, [PEXPIREAT, key, PrintInt(e.expire.value)], db[key := Entry(e.value, None)]);
      assert db[key := Entry(e.value, None)][key := e] == db[key := e];
    }
  }

  ghost predicate PlainLog(cs: seq<Argv>) {
    forall i :: 0 <= i < |cs| ==> PlainCommand(cs[i]) && !Named(cs[i], SELECT)
  }

  lemma PlainConcat(a: seq<Argv>, b: seq<Argv>)
    requires PlainLog(a) && PlainLog(b)
    ensures PlainLog(a + b)
  {}

  const SELECT: bytes := [83, 69, 76, 69, 67, 84]

  lemma SmallFits(n: nat)
    requires n < 1000
    ensures FitsLine(n)
  {
    SixtyFourBitFits(n);
  }

  predicate RewriteName(name: bytes) { name in [SET, RPUSH, SADD, ZADD, HMSET, PEXPIREAT] }

  lemma NamedPlain(a: Argv)
    requires WellFormed(a) && RewriteName(a[0])
    ensures PlainCommand(a) && !Named(a, SELECT)
  {
    assert a[0][0] in [83, 82, 90, 72, 80];
    if a[0][0] == 83 { assert a[0] == SET || a[0] == SADD; }
  }

  lemma {:induction false} ChunksPlain(k: Kind, key: bytes, flat: seq<bytes>, per: nat)
    requires per >= 1 && Whole(k, |flat|) && AllFit(flat) && FitsLine(|key|) && 2 + per + per < 0x8000_0000_0000_0000
    ensures PlainLog(Chunks(k, key, flat, per))
    decreases |flat|
  {
    if flat != [] {
      var n := Take(k, |flat|, per);
      var a: Argv := [Name(k), key] + flat[..n];
      SixtyFourBitFits(|a|);
      SmallFits(|Name(k)|);
      assert WellFormed(a);
      NamedPlain(a);
      ChunksPlain(k, key, flat[n..], per);
    }
  }

  lemma {:induction false} DecimalShort(n: nat)
    requires n < 0x8000_0000_0000_0000_0000
    ensures |Decimal(n)| <= 30
  {
    assert Pow10(10) == 10000000000;
    assert Pow10(20) == 100000000000000000000;
    assert Pow10(30) == 1000000000000000000000000000000;
    DecimalWidth(n, 30, Pow10(30));
  }

  ghost predicate TimeFits(t: Option<int>) {
    t.Some? ==> -0x8000_0000_0000_0000 <= t.value < 0x8000_0000_0000_0000
  }

  lemma EntryPlain(key: bytes, e: Entry, flat: seq<bytes>, per: nat)
    requires per >= 1 && 2 + per + per < 0x8000_0000_0000_0000 && FitsLine(|key|) && Fits(e.value) && TimeFits(e.expire)
    requires !e.value.Str? ==> Whole(KindOf(e.value), |flat|) && AllFit(flat)
    ensures PlainLog(ValueCommands(key, e.value, flat, per)) && PlainLog(ExpireCommands(key, e.expire))
  {
    SmallFits(3);
    SmallFits(9);
    if e.value.Str? {
      NamedPlain([SET, key, e.value.s]);
    } else {
      ChunksPlain(KindOf(e.value), key, flat, per);
    }
    if e.expire.Some? {
      var t := e.expire.value;
      DecimalShort(if t < 0 then -t else t);
      SmallFits(|PrintInt(t)|);
      NamedPlain([PEXPIREAT, key, PrintInt(t)]);
    }
  }
}
