/**
 The commands of the log and the rewrite of a dataset into them.

 The commands a rewrite emits have their real effect here; every other command
 is an arbitrary function on its database (`other`).
 */
module AofCommands {
  import opened Basics
  import opened Resp
  import opened Keyspace
  import opened AofRecovery

  const SET: bytes := [83, 69, 84]
  const RPUSH: bytes := [82, 80, 85, 83, 72]
  const SADD: bytes := [83, 65, 68, 68]
  const ZADD: bytes := [90, 65, 68, 68]
  const HMSET: bytes := [72, 77, 83, 69, 84]
  const PEXPIREAT: bytes := [80, 69, 88, 80, 73, 82, 69, 65, 84]
  const DEL: bytes := [68, 69, 76]

  /** The command table is looked up without regard to case. */
  predicate Named(a: Argv, name: bytes) {
    |a| >= 1 && |a[0]| == |name| && forall i :: 0 <= i < |name| ==> Lower(a[0][i]) == Lower(name[i])
  }

  /** A command as the server understands it. `RPUSH` and the like take flat item lists. */
  datatype Op =
    | OpSet(key: bytes, value: bytes)
    | OpPush(key: bytes, items: seq<bytes>)
    | OpAdd(key: bytes, items: seq<bytes>)
    | OpScore(key: bytes, items: seq<bytes>)
    | OpFields(key: bytes, items: seq<bytes>)
    | OpExpire(key: bytes, when_: int)
    | OpDel(key: bytes)
    | OpOther(argv: Argv)

  function Parse(a: Argv): Op {
    if |a| == 2 && Named(a, DEL) then OpDel(a[1])
    else if |a| < 3 then OpOther(a)
    else if Named(a, SET) && |a| == 3 then OpSet(a[1], a[2])
    else if Named(a, RPUSH) then OpPush(a[1], a[2..])
    else if Named(a, SADD) then OpAdd(a[1], a[2..])
    else if Named(a, ZADD) && |a| % 2 == 0 then OpScore(a[1], a[2..])
    else if Named(a, HMSET) && |a| % 2 == 0 then OpFields(a[1], a[2..])
    else if Named(a, PEXPIREAT) && |a| == 3 then OpExpire(a[1], ParseInt(a[2]))
    else OpOther(a)
  }

  /** Fields and values alternate; a later value wins. */
  function PutFields(m: map<bytes, bytes>, items: seq<bytes>): map<bytes, bytes>
    requires |items| % 2 == 0
    decreases |items|
  {
    if items == [] then m else PutFields(m[items[0] := items[1]], items[2..])
  }

  /** Scores and members alternate. */
  function PutScores(m: map<bytes, bytes>, items: seq<bytes>): map<bytes, bytes>
    requires |items| % 2 == 0
    decreases |items|
  {
    if items == [] then m else PutScores(m[items[1] := items[0]], items[2..])
  }

  /** The value a key holds after a write to an aggregate, keeping its expire time. */
  function Put(db: Db, key: bytes, v: Value): Db {
    db[key := Entry(v, if key in db then db[key].expire else None)]
  }

  function HasItems(v: Value): bool {
    match v
    case Str(_) => true
    case List(items) => items != []
    case Set(members) => members != {}
    case ZSet(scores) => scores != map[]
    case Hash(fields) => fields != map[]
  }

  /** The server never keeps an empty aggregate. */
  predicate NoEmpty(db: Db) { forall k :: k in db ==> HasItems(db[k].value) }

  function DropEmpty(db: Db): (r: Db)
    ensures NoEmpty(r)
    ensures NoEmpty(db) ==> r == db
  {
    map k | k in db && HasItems(db[k].value) :: db[k]
  }

  type Other = (Argv, Db) -> Db

  function Apply(other: Other, op: Op, db: Db): Db {
    match op
    case OpSet(key, v) => db[key := Entry(Str(v), None)]
    case OpPush(key, items) =>
      if key !in db then Put(db, key, List(items))
      else if db[key].value.List? then Put(db, key, List(db[key].value.items + items)) else db
    case OpAdd(key, items) =>
      var new_ := set x | x in items;
      if key !in db then Put(db, key, Set(new_))
      else if db[key].value.Set? then Put(db, key, Set(db[key].value.members + new_)) else db
    case OpScore(key, items) =>
      if |items| % 2 != 0 then db
      else if key !in db then Put(db, key, ZSet(PutScores(map[], items)))
      else if db[key].value.ZSet? then Put(db, key, ZSet(PutScores(db[key].value.scores, items))) else db
    case OpFields(key, items) =>
      if |items| % 2 != 0 then db
      else if key !in db then Put(db, key, Hash(PutFields(map[], items)))
      else if db[key].value.Hash? then Put(db, key, Hash(PutFields(db[key].value.fields, items))) else db
    case OpExpire(key, t) => if key in db then db[key := db[key].(expire := Some(t))] else db
    case OpDel(key) => db - {key}
    case OpOther(a) => DropEmpty(other(a, db))
  }

  function Exec(other: Other, a: Argv, db: Db): Db { Apply(other, Parse(a), db) }

  function Executor(other: Other): (Argv, Db) -> Db { (a: Argv, db: Db) => Exec(other, a, db) }

  function ExecAll(run: (Argv, Db) -> Db, cs: seq<Argv>, db: Db): Db
    decreases |cs|
  {
    if cs == [] then db else ExecAll(run, cs[1..], run(cs[0], db))
  }

  lemma {:induction false} ExecAllConcat(run: (Argv, Db) -> Db, a: seq<Argv>, b: seq<Argv>, db: Db)
    ensures ExecAll(run, a + b, db) == ExecAll(run, b, ExecAll(run, a, db))
    decreases |a|
  {
    if a == [] {
      assert a + b == b;
    } else {
      assert (a + b)[1..] == a[1..] + b;
      ExecAllConcat(run, a[1..], b, run(a[0], db));
    }
  }

  lemma ExecCons(run: (Argv, Db) -> Db, a: Argv, rest: seq<Argv>, db: Db)
    ensures ExecAll(run, [a] + rest, db) == ExecAll(run, rest, run(a, db))
  {
    assert ([a] + rest)[1..] == rest;
  }

  // ------------------------------------------------------------ item commands

  datatype Kind = Items | Members | Scores | Fields

  function Name(k: Kind): bytes {
    match k case Items => RPUSH case Members => SADD case Scores => ZADD case Fields => HMSET
  }

  /** Scores and fields take a pair of arguments per item. */
  predicate Paired(k: Kind) { k.Scores? || k.Fields? }

  /** So many arguments make whole items. */
  predicate Whole(k: Kind, n: int) { Paired(k) ==> n % 2 == 0 }

  /** The number of arguments that `n` items take. */
  function Args(k: Kind, n: nat): nat { if Paired(k) then n + n else n }

  /** The value that the items make, put into an empty aggregate of the kind. */
  function Empty(k: Kind): Value {
    match k
    case Items => List([])
    case Members => Set({})
    case Scores => ZSet(map[])
    case Fields => Hash(map[])
  }

  predicate OfKind(k: Kind, v: Value) {
    match k
    case Items => v.List?
    case Members => v.Set?
    case Scores => v.ZSet?
    case Fields => v.Hash?
  }

  function Fill(k: Kind, v: Value, flat: seq<bytes>): (r: Value)
    requires OfKind(k, v) && Whole(k, |flat|)
    ensures OfKind(k, r)
  {
    match k
    case Items => List(v.items + flat)
    case Members => Set(v.members + set x | x in flat)
    case Scores => ZSet(PutScores(v.scores, flat))
    case Fields => Hash(PutFields(v.fields, flat))
  }

  /** How many arguments the next command takes: at most `per` items. */
  function Take(k: Kind, len: nat, per: nat): (n: nat)
    requires per >= 1 && len > 0 && Whole(k, len)
    ensures 0 < n <= len && Whole(k, n) && Whole(k, len - n)
  {
    if len < Args(k, per) then len else Args(k, per)
  }

  function Chunks(k: Kind, key: bytes, flat: seq<bytes>, per: nat): seq<Argv>
    requires per >= 1 && Whole(k, |flat|)
    decreases |flat|
  {
    if flat == [] then []
    else
      var n := Take(k, |flat|, per);
      [[Name(k), key] + flat[..n]] + Chunks(k, key, flat[n..], per)
  }

  /** Every command but the last has as many items as are allowed in one. */
  lemma {:induction false} ChunkSizes(k: Kind, key: bytes, flat: seq<bytes>, per: nat, i: nat)
    requires per >= 1 && Whole(k, |flat|) && i < |Chunks(k, key, flat, per)|
    ensures var c := Chunks(k, key, flat, per)[i];
            && |c| >= 3 && c[0] == Name(k) && c[1] == key
            && (i + 1 < |Chunks(k, key, flat, per)| ==> |c| == 2 + Args(k, per))
            && |c| <= 2 + Args(k, per)
    decreases |flat|
  {
    var n := Take(k, |flat|, per);
    if i > 0 {
      ChunkSizes(k, key, flat[n..], per, i - 1);
    } else if |Chunks(k, key, flat, per)| > 1 {
      assert flat[n..] != [];
    }
  }

  /** The names as they are written to the log. */
  lemma Spelling()
    ensures Name(Items) == [82, 80, 85, 83, 72] && Name(Members) == [83, 65, 68, 68]
    ensures Name(Scores) == [90, 65, 68, 68] && Name(Fields) == [72, 77, 83, 69, 84]
    ensures SET == [83, 69, 84] && DEL == [68, 69, 76] && PEXPIREAT == [80, 69, 88, 80, 73, 82, 69, 65, 84]
    ensures MULTI == [109, 117, 108, 116, 105] && EXEC == [101, 120, 101, 99]
  {}

  lemma {:induction false} PutFieldsConcat(m: map<bytes, bytes>, a: seq<bytes>, b: seq<bytes>)
    requires |a| % 2 == 0 && |b| % 2 == 0
    ensures |a + b| % 2 == 0 && PutFields(m, a + b) == PutFields(PutFields(m, a), b)
    decreases |a|
  {
    if a == [] {
      assert a + b == b;
    } else {
      assert (a + b)[2..] == a[2..] + b;
      PutFieldsConcat(m[a[0] := a[1]], a[2..], b);
    }
  }

  lemma {:induction false} PutScoresConcat(m: map<bytes, bytes>, a: seq<bytes>, b: seq<bytes>)
    requires |a| % 2 == 0 && |b| % 2 == 0
    ensures |a + b| % 2 == 0 && PutScores(m, a + b) == PutScores(PutScores(m, a), b)
    decreases |a|
  {
    if a == [] {
      assert a + b == b;
    } else {
      assert (a + b)[2..] == a[2..] + b;
      PutScoresConcat(m[a[1] := a[0]], a[2..], b);
    }
  }

  lemma FillConcat(k: Kind, v: Value, a: seq<bytes>, b: seq<bytes>)
    requires OfKind(k, v) && Whole(k, |a|) && Whole(k, |b|)
    ensures Whole(k, |a + b|) && Fill(k, v, a + b) == Fill(k, Fill(k, v, a), b)
  {
    match k
    case Items => assert v.items + (a + b) == v.items + a + b;
    case Members =>
      assert (set x | x in a + b) == (set x | x in a) + (set x | x in b);
    case Scores => PutScoresConcat(v.scores, a, b);
    case Fields => PutFieldsConcat(v.fields, a, b);
  }

  /** The aggregate at a key, or an empty one. */
  function Old(k: Kind, db: Db, key: bytes): (v: Value)
    requires key in db ==> OfKind(k, db[key].value)
    ensures OfKind(k, v)
  {
    if key in db then db[key].value else Empty(k)
  }

  /** Executing one item command fills the aggregate at its key. */
  ghost predicate FillsOne(run: (Argv, Db) -> Db, k: Kind, key: bytes, flat: seq<bytes>, db: Db) {
    flat != [] && Whole(k, |flat|) && (key in db ==> OfKind(k, db[key].value)) ==>
      run([Name(k), key] + flat, db) == Put(db, key, Fill(k, Old(k, db, key), flat))
  }

  ghost predicate FillsItems(run: (Argv, Db) -> Db) {
    forall k: Kind, key: bytes, flat: seq<bytes>, db: Db {:trigger FillsOne(run, k, key, flat, db)} ::
      FillsOne(run, k, key, flat, db)
  }

  function ItemOp(k: Kind, key: bytes, flat: seq<bytes>): Op {
    match k
    case Items => OpPush(key, flat)
    case Members => OpAdd(key, flat)
    case Scores => OpScore(key, flat)
    case Fields => OpFields(key, flat)
  }

  /** Two names of the same length differ in their first letters, or nowhere. */
  lemma OtherName(a: Argv, name: bytes, other: bytes)
    requires |a| >= 1 && a[0] == name && |name| == |other| >= 1 && Lower(name[0]) != Lower(other[0])
    ensures Named(a, name) && !Named(a, other)
  {}

  lemma ParseItems(k: Kind, key: bytes, flat: seq<bytes>)
    requires flat != [] && Whole(k, |flat|)
    ensures Parse([Name(k), key] + flat) == ItemOp(k, key, flat)
  {
    var a := [Name(k), key] + flat;
    assert a[2..] == flat && a[0] == Name(k) && a[1] == key;
    assert |SET| == 3 && |RPUSH| == 5 && |SADD| == 4 && |ZADD| == 4 && |HMSET| == 5;
    match k
    case Items => OtherName(a, RPUSH, HMSET);
    case Members => OtherName(a, SADD, ZADD);
    case Scores => OtherName(a, ZADD, SADD);
    case Fields => OtherName(a, HMSET, RPUSH);
  }

  lemma ApplyItems(other: Other, k: Kind, key: bytes, flat: seq<bytes>, db: Db)
    requires flat != [] && Whole(k, |flat|)
    requires key in db ==> OfKind(k, db[key].value)
    ensures Apply(other, ItemOp(k, key, flat), db) == Put(db, key, Fill(k, Old(k, db, key), flat))
  {
    match k
    case Items => assert [] + flat == flat;
    case Members => assert {} + (set x | x in flat) == (set x | x in flat);
    case Scores =>
    case Fields =>
  }

  lemma ItemCommand(other: Other, k: Kind, key: bytes, flat: seq<bytes>, db: Db)
    requires flat != [] && Whole(k, |flat|)
    requires key in db ==> OfKind(k, db[key].value)
    ensures Exec(other, [Name(k), key] + flat, db) == Put(db, key, Fill(k, Old(k, db, key), flat))
  {
    ParseItems(k, key, flat);
    ApplyItems(other, k, key, flat, db);
  }

  lemma ExecutorFills(other: Other)
    ensures FillsItems(Executor(other))
  {
    forall k: Kind, key: bytes, flat: seq<bytes>, db: Db ensures FillsOne(Executor(other), k, key, flat, db) {
      if flat != [] && Whole(k, |flat|) && (key in db ==> OfKind(k, db[key].value)) {
        ItemCommand(other, k, key, flat, db);
      }
    }
  }

  /** Filling with the first part and then with the rest. */
  lemma FillTwice(k: Kind, key: bytes, first: seq<bytes>, last: seq<bytes>, db: Db, db1: Db)
    requires Whole(k, |first|) && Whole(k, |last|) && (key in db ==> OfKind(k, db[key].value))
    requires db1 == Put(db, key, Fill(k, Old(k, db, key), first))
    ensures Whole(k, |first + last|)
    ensures Put(db1, key, Fill(k, Old(k, db1, key), last)) == Put(db, key, Fill(k, Old(k, db, key), first + last))
  {
    FillConcat(k, Old(k, db, key), first, last);
  }

  /** Executing all chunks fills the aggregate with all items, whatever the chunk size. */
  lemma {:induction false} ChunksFill(run: (Argv, Db) -> Db, k: Kind, key: bytes, flat: seq<bytes>, per: nat, db: Db)
    requires per >= 1 && Whole(k, |flat|) && flat != [] && FillsItems(run)
    requires key in db ==> OfKind(k, db[key].value)
    ensures ExecAll(run, Chunks(k, key, flat, per), db) == Put(db, key, Fill(k, Old(k, db, key), flat))
    decreases |flat|
  {
    var n := Take(k, |flat|, per);
    var first, last := flat[..n], flat[n..];
    var db1 := run([Name(k), key] + first, db);
    ExecCons(run, [Name(k), key] + first, Chunks(k, key, last, per), db);
    assert FillsOne(run, k, key, first, db);
    assert first + last == flat;
    if last == [] {
      assert first == flat;
    } else {
      ChunksFill(run, k, key, last, per, db1);
      FillTwice(k, key, first, last, db, db1);
    }
  }

  // -------------------------------------------------- the rewrite of one value

  lemma {:induction false} BulksConcat(a: Argv, b: Argv)
    ensures Bulks(a + b) == Bulks(a) + Bulks(b)
    decreases |a|
  {
    if a == [] {
      assert a + b == b;
    } else {
      assert (a + b)[1..] == a[1..] + b;
      BulksConcat(a[1..], b);
    }
  }

  /** The start of a command that takes `n` arguments after its key. */
  function Opening(name: bytes, key: bytes, n: nat): bytes {
    Header(STAR, 2 + n) + Bulk(name) + Bulk(key)
  }

  /** The count is announced first, then come as many arguments. */
  lemma CommandText(name: bytes, key: bytes, args: Argv, rest: seq<Argv>)
    ensures EncodeAll([[name, key] + args] + rest) ==
            Opening(name, key, |args|) + (Bulks(args) + EncodeAll(rest))
  {
    var two: Argv, last: Argv := [name, key], [key];
    BulksConcat(two, args);
    assert two[1..] == last && last[1..] == [];
    assert Bulks(last) == Bulk(key) + [];
    var all := [two + args] + rest;
    assert all[0] == two + args && all[1..] == rest;
  }

  function Least(a: nat, b: nat): nat { if a < b then a else b }

  function Printer(): Argv -> bytes { (args: Argv) => Bulks(args) }

  function Encoder(): seq<Argv> -> bytes { (cs: seq<Argv>) => EncodeAll(cs) }

  function Opener(name: bytes, key: bytes): nat -> bytes { (n: nat) => Opening(name, key, n) }

  ghost function Cutter(k: Kind, key: bytes, per: nat): Argv -> seq<Argv>
    requires per >= 1
  {
    (rest: Argv) => if Whole(k, |rest|) then Chunks(k, key, rest, per) else []
  }

  /** A command is printed as its opening and its arguments. */
  ghost predicate Prints(encode: seq<Argv> -> bytes, head: nat -> bytes, print_: Argv -> bytes, name: bytes, key: bytes) {
    && encode([]) == []
    && forall args: Argv, rest: seq<Argv> {:trigger encode([[name, key] + args] + rest)} ::
         encode([[name, key] + args] + rest) == head(|args|) + (print_(args) + encode(rest))
  }

  lemma PrinterPrints(name: bytes, key: bytes)
    ensures Prints(Encoder(), Opener(name, key), Printer(), name, key)
  {
    forall args: Argv, rest: seq<Argv>
      ensures Encoder()([[name, key] + args] + rest) == Opener(name, key)(|args|) + (Printer()(args) + Encoder()(rest))
    {
      CommandText(name, key, args, rest);
    }
  }

  /** What is printed for the items that are left. */
  function Tails(encode: seq<Argv> -> bytes, cut: Argv -> seq<Argv>): Argv -> bytes {
    (rest: Argv) => encode(cut(rest))
  }

  ghost predicate Concatenates(print_: Argv -> bytes) {
    && print_([]) == []
    && forall a: Argv, b: Argv {:trigger print_(a + b)} :: print_(a + b) == print_(a) + print_(b)
  }

  /** With `m` items to print, `tail` is a header, the items it announces, and the rest. */
  ghost predicate Opens(k: Kind, per: nat, head: nat -> bytes, print_: Argv -> bytes, tail: Argv -> bytes, s: Argv, m: nat) {
    m > 0 && |s| == Args(k, m) ==>
      var n := Args(k, Least(m, per));
      tail(s) == head(n) + (print_(s[..n]) + tail(s[n..]))
  }

  ghost predicate Streams(k: Kind, per: nat, head: nat -> bytes, print_: Argv -> bytes, tail: Argv -> bytes) {
    && tail([]) == []
    && forall s: Argv, m: nat {:trigger Opens(k, per, head, print_, tail, s, m)} :: Opens(k, per, head, print_, tail, s, m)
  }

  /** Printing `flat[p..q]` and then what follows it. */
  lemma PrintStep(print_: Argv -> bytes, flat: Argv, p: nat, q: nat, end: nat, out: bytes, rest: bytes)
    requires Concatenates(print_) && p <= q <= end <= |flat|
    ensures out + (print_(flat[p..end]) + rest) == (out + print_(flat[p..q])) + (print_(flat[q..end]) + rest)
  {
    assert flat[p..end] == flat[p..q] + flat[q..end];
    Regroup(print_(flat[p..q]), print_(flat[q..end]), rest);
    Regroup(out, print_(flat[p..q]), print_(flat[q..end]) + rest);
  }

  lemma HeadStep(k: Kind, per: nat, head: nat -> bytes, print_: Argv -> bytes, tail: Argv -> bytes,
                 flat: Argv, size: nat, i: nat, out: bytes)
    requires Concatenates(print_) && Streams(k, per, head, print_, tail)
    requires |flat| == Args(k, size) && i < size
    ensures var n := Least(size - i, per);
            out + (print_([]) + tail(flat[Args(k, i)..])) ==
            (out + head(Args(k, n))) + (print_(flat[Args(k, i)..Args(k, i + n)]) + tail(flat[Args(k, i + n)..]))
  {
    var n, s, p := Least(size - i, per), flat[Args(k, i)..], Args(k, i);
    assert Opens(k, per, head, print_, tail, s, size - i);
    assert s[..Args(k, n)] == flat[p..Args(k, i + n)] && s[Args(k, n)..] == flat[Args(k, i + n)..];
    assert print_([]) + tail(s) == tail(s);
    Regroup(out, head(Args(k, n)), print_(flat[p..Args(k, i + n)]) + tail(flat[Args(k, i + n)..]));
  }

  /** The loop of rewriteListObject and its three siblings: items are streamed, and
      each time `count` is zero a header announces how many will follow. */
  method StreamItems(k: Kind, flat: Argv, size: nat, per: nat, head: nat -> bytes, print_: Argv -> bytes,
                     ghost tail: Argv -> bytes)
    returns (out: bytes)
    requires per >= 1 && |flat| == Args(k, size)
    requires Concatenates(print_) && Streams(k, per, head, print_, tail)
    ensures out == tail(flat)
  {
    out := [];
    var count, items, i: nat := 0, size, 0;
    ghost var end: nat := 0;
    assert flat[0..] == flat && flat[0..0] == [] && out + ([] + tail(flat)) == tail(flat);
    while items > 0
      invariant i <= end <= size && items == size - i
      invariant 0 <= count < per
      invariant count == 0 ==> i == end
      invariant count > 0 ==> end == i + Least(size - i, per - count)
      invariant tail(flat) == out + (print_(flat[Args(k, i)..Args(k, end)]) + tail(flat[Args(k, end)..]))
      decreases items
    {
      if count == 0 {
        var cmdItems := if items > per then per else items;
        assert flat[Args(k, i)..Args(k, i)] == [];
        HeadStep(k, per, head, print_, tail, flat, size, i, out);
        out := out + head(Args(k, cmdItems));
        end := i + cmdItems;
      }
      PrintStep(print_, flat, Args(k, i), Args(k, i + 1), Args(k, end), out, tail(flat[Args(k, end)..]));
      out := out + print_(flat[Args(k, i)..Args(k, i + 1)]);
      count := count + 1;
      if count == per { count := 0; }
      items, i := items - 1, i + 1;
    }
    assert flat[|flat|..|flat|] == [] && flat[|flat|..] == [];
  }

  lemma PrinterConcatenates()
    ensures Concatenates(Printer())
  {
    forall a: Argv, b: Argv ensures Printer()(a + b) == Printer()(a) + Printer()(b) {
      BulksConcat(a, b);
    }
  }

  lemma CutterCuts(k: Kind, key: bytes, per: nat, s: Argv, m: nat)
    requires per >= 1 && m > 0 && |s| == Args(k, m)
    ensures var n := Args(k, Least(m, per)); var cut := Cutter(k, key, per);
            cut(s) == [[Name(k), key] + s[..n]] + cut(s[n..])
  {
    assert Take(k, |s|, per) == Args(k, Least(m, per));
  }

  lemma ChunksStream(k: Kind, key: bytes, per: nat, encode: seq<Argv> -> bytes, head: nat -> bytes,
                     print_: Argv -> bytes, name: bytes, cut: Argv -> seq<Argv>)
    requires per >= 1 && Prints(encode, head, print_, name, key) && name == Name(k) && cut == Cutter(k, key, per)
    ensures Streams(k, per, head, print_, Tails(encode, cut))
  {
    var tail := Tails(encode, cut);
    forall s: Argv, m: nat ensures Opens(k, per, head, print_, tail, s, m) {
      if m > 0 && |s| == Args(k, m) {
        var n := Args(k, Least(m, per));
        CutterCuts(k, key, per, s, m);
        assert encode([[name, key] + s[..n]] + cut(s[n..])) == head(|s[..n]|) + (print_(s[..n]) + encode(cut(s[n..])));
      }
    }
  }

  /** rewriteListObject, rewriteSetObject, rewriteSortedSetObject, rewriteHashObject. */
  method RewriteItems(k: Kind, key: bytes, flat: seq<bytes>, per: nat) returns (out: bytes)
    requires per >= 1 && Whole(k, |flat|)
    ensures out == EncodeAll(Chunks(k, key, flat, per))
  {
    var size := if Paired(k) then |flat| / 2 else |flat|;
    assert |flat| == Args(k, size);
    PrinterConcatenates();
    PrinterPrints(Name(k), key);
    var head := Opener(Name(k), key);
    ghost var cut := Cutter(k, key, per);
    ChunksStream(k, key, per, Encoder(), head, Printer(), Name(k), cut);
    out := StreamItems(k, flat, size, per, head, Printer(), Tails(Encoder(), cut));
  }
}
