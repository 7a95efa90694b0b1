/**
 Commands on databases that still hold expired entries: a command that touches none of
 them does the same whether they are there or not.
 */
module AofExpire {
  import opened Resp
  import opened Keyspace
  import opened AofRecovery
  import opened AofCommands
  import opened AofRewrite

  /** The keys of a command that is not modelled by itself. */
  type Keys = Argv -> seq<bytes>

  /** A command neither depends on the keys `x` nor changes them, if none is its own; it may
      delete them, as FLUSHDB does. */
  ghost predicate LocalAt(run: (Argv, Db) -> Db, a: Argv, touched: seq<bytes>, x: set<bytes>, db: Db) {
    (forall k :: k in touched ==> k !in x) ==>
      && run(a, db - x) == run(a, db) - x
      && forall k :: k in x && k in run(a, db) ==> k in db && run(a, db)[k] == db[k]
  }

  ghost predicate Local(other: Other, keys: Keys) {
    forall a: Argv, x: set<bytes>, db: Db {:trigger LocalAt(other, a, keys(a), x, db)} :: LocalAt(other, a, keys(a), x, db)
  }

  /** The keys that a command looks up. */
  function Touched(keys: Keys, a: Argv): seq<bytes> {
    match Parse(a)
    case OpOther(b) => keys(b)
    case op => [op.key]
  }

  lemma ApplyLocal(other: Other, op: Op, x: set<bytes>, db: Db)
    requires !op.OpOther? && op.key !in x
    ensures Apply(other, op, db - x) == Apply(other, op, db) - x
    ensures forall k :: k in x && k in Apply(other, op, db) ==> k in db && Apply(other, op, db)[k] == db[k]
  {
    assert op.key in db - x <==> op.key in db;
    assert op.key in db ==> (db - x)[op.key] == db[op.key];
  }

  lemma ExecLocal(other: Other, keys: Keys, a: Argv, x: set<bytes>, db: Db)
    requires Local(other, keys)
    ensures LocalAt(Executor(other), a, Touched(keys, a), x, db)
  {
    match Parse(a)
    case OpOther(b) =>
      assert LocalAt(other, a, keys(a), x, db);
      assert DropEmpty(other(a, db) - x) == DropEmpty(other(a, db)) - x;
    case op =>
      if op.key !in x { ApplyLocal(other, op, x, db); }
      assert op.key in Touched(keys, a);
  }

  /** None of the commands touches a key in `x`. */
  ghost predicate Untouched(keys: Keys, cs: seq<Argv>, x: set<bytes>) {
    forall i, k :: 0 <= i < |cs| && k in Touched(keys, cs[i]) ==> k !in x
  }

  lemma {:induction false} ExecAllLocal(other: Other, keys: Keys, cs: seq<Argv>, x: set<bytes>, db: Db)
    requires Local(other, keys) && Untouched(keys, cs, x)
    ensures var run := Executor(other);
            && ExecAll(run, cs, db - x) == ExecAll(run, cs, db) - x
            && forall k :: k in x && k in ExecAll(run, cs, db) ==> k in db && ExecAll(run, cs, db)[k] == db[k]
    decreases |cs|
  {
    if cs != [] {
      assert forall k :: k in Touched(keys, cs[0]) ==> k !in x;
      ExecLocal(other, keys, cs[0], x, db);
      ExecAllLocal(other, keys, cs[1..], x, Executor(other)(cs[0], db));
    }
  }

  /** Of the keys that the commands touch, those in the database have not expired. */
  ghost predicate TouchesLive(keys: Keys, now: int, cs: seq<Argv>, db: Db) {
    forall i, k :: 0 <= i < |cs| && k in Touched(keys, cs[i]) && k in db ==> !Expired(now, db[k])
  }

  /** Such commands do the same to a database that lacks some of the expired entries. */
  lemma LiveKeysTolerate(other: Other, keys: Keys, now: int, cs: seq<Argv>, d: Db, db: Db)
    requires Local(other, keys) && TouchesLive(keys, now, cs, db) && Trimmed(now, d, db)
    ensures Trimmed(now, ExecAll(Executor(other), cs, d), ExecAll(Executor(other), cs, db))
  {
    var x := db.Keys - d.Keys;
    assert d == db - x;
    ExecAllLocal(other, keys, cs, x, db);
  }

  // ------------------------------------------------------- expired keys go

  function Without(db: Db, ks: seq<bytes>): Db { db - (set k | k in ks) }

  /** expireIfNeeded on one key after the other: those that are deleted. */
  function ExpiredOf(now: int, ks: seq<bytes>, db: Db): (r: seq<bytes>)
    decreases |ks|
  {
    if ks == [] then []
    else if ks[0] in db && Expired(now, db[ks[0]]) then [ks[0]] + ExpiredOf(now, ks[1..], db - {ks[0]})
    else ExpiredOf(now, ks[1..], db)
  }

  /** Exactly the keys that have expired are deleted, each once. */
  lemma {:induction false} ExpiredOfExact(now: int, ks: seq<bytes>, db: Db)
    ensures var r := ExpiredOf(now, ks, db);
            && (forall k :: k in r <==> k in ks && k in db && Expired(now, db[k]))
            && forall i, j :: 0 <= i < j < |r| ==> r[i] != r[j]
    decreases |ks|
  {
    if ks != [] {
      ExpiredOfExact(now, ks[1..], db - {ks[0]});
      ExpiredOfExact(now, ks[1..], db);
    }
  }

  /** A DEL is logged for each. */
  function Dels(ks: seq<bytes>): (r: seq<Argv>)
    ensures |r| == |ks| && forall i :: 0 <= i < |ks| ==> r[i] == [DEL, ks[i]]
  {
    seq(|ks|, i requires 0 <= i < |ks| => [DEL, ks[i]])
  }

  lemma {:induction false} DelsDelete(other: Other, ks: seq<bytes>, db: Db)
    ensures ExecAll(Executor(other), Dels(ks), db) == Without(db, ks)
    decreases |ks|
  {
    if ks != [] {
      assert Dels(ks)[1..] == Dels(ks[1..]);
      DelsDelete(other, ks[1..], db - {ks[0]});
      assert Without(db - {ks[0]}, ks[1..]) == Without(db, ks);
    }
  }

  lemma DelExec(other: Other, k: bytes, db: Db)
    ensures ExecAll(Executor(other), [[DEL, k]], db) == db - {k}
  {
    ExecOne(Executor(other), [DEL, k], db);
  }

  /** Deleting a key is the same whether it is there or not. */
  lemma DelTolerates(other: Other, now: int, k: bytes, d: Db, db: Db)
    requires Trimmed(now, d, db)
    ensures Trimmed(now, ExecAll(Executor(other), [[DEL, k]], d), ExecAll(Executor(other), [[DEL, k]], db))
  {
    DelExec(other, k, d);
    DelExec(other, k, db);
  }
}
