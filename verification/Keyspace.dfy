/** The values a server keeps, database by database. */
module Keyspace {
  import opened Basics
  import opened Resp

  /** A sorted set keeps each score as it is printed. */
  datatype Value =
    | Str(s: bytes)
    | List(items: seq<bytes>)
    | Set(members: set<bytes>)
    | ZSet(scores: map<bytes, bytes>)
    | Hash(fields: map<bytes, bytes>)

  datatype Entry = Entry(value: Value, expire: Option<int>)

  type Db = map<bytes, Entry>

  // -------------------------------------------------------------------- time

  /** expireIfNeeded and the rewrite compare strictly. */
  predicate Expired(now: int, e: Entry) { e.expire.Some? && e.expire.value < now }

  /** A key is there until its time has passed, and for ever if it has none. */
  lemma ExpiresAfter(now: int, v: Value, t: int)
    ensures !Expired(now, Entry(v, None)) && !Expired(t, Entry(v, Some(t))) && Expired(t + 1, Entry(v, Some(t)))
    ensures Expired(now, Entry(v, Some(t))) <==> now > t
  {}

  /** What a client can still see at time `now`. */
  function Live(now: int, db: Db): Db { map k | k in db && !Expired(now, db[k]) :: db[k] }

  /** `d` is `db` without some of its expired entries. */
  ghost predicate Trimmed(now: int, d: Db, db: Db) {
    d.Keys <= db.Keys && forall k :: k in db ==> if k in d then d[k] == db[k] else Expired(now, db[k])
  }

  ghost predicate TrimmedAll(now: int, d: seq<Db>, data: seq<Db>) {
    |d| == |data| && forall i :: 0 <= i < |data| ==> Trimmed(now, d[i], data[i])
  }

  /** From then on clients see the same of both. */
  lemma TrimmedShowsSame(now: int, later: int, d: Db, db: Db)
    requires Trimmed(now, d, db) && now <= later
    ensures Live(later, d) == Live(later, db)
  {}

  lemma LiveTrims(now: int, db: Db)
    ensures Trimmed(now, Live(now, db), db)
  {}

  lemma TrimmedLater(now: int, later: int, d: seq<Db>, data: seq<Db>)
    requires TrimmedAll(now, d, data) && now <= later
    ensures TrimmedAll(later, d, data)
  {
    forall i | 0 <= i < |data| ensures Trimmed(later, d[i], data[i]) { assert Trimmed(now, d[i], data[i]); }
  }

  lemma TrimmedTwice(now: int, d: seq<Db>, e: seq<Db>, data: seq<Db>)
    requires TrimmedAll(now, d, e) && TrimmedAll(now, e, data)
    ensures TrimmedAll(now, d, data)
  {
    forall i | 0 <= i < |data| ensures Trimmed(now, d[i], data[i]) {
      assert Trimmed(now, d[i], e[i]) && Trimmed(now, e[i], data[i]);
    }
  }

  /** No entry expires from one time to the other. */
  ghost predicate NoneExpires(data: seq<Db>, from_: int, to: int) {
    forall i, k :: 0 <= i < |data| && k in data[i] && Expired(to, data[i][k]) ==> Expired(from_, data[i][k])
  }

  lemma TrimmedEarlier(from_: int, to: int, d: seq<Db>, data: seq<Db>)
    requires TrimmedAll(to, d, data) && NoneExpires(data, from_, to)
    ensures TrimmedAll(from_, d, data)
  {
    forall i | 0 <= i < |data| ensures Trimmed(from_, d[i], data[i]) { assert Trimmed(to, d[i], data[i]); }
  }
}
