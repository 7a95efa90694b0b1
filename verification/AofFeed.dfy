/**
 What a client command does at a frozen clock, and the commands feedAppendOnlyFile
 logs for it: relative expire times become absolute ones. One kind of SET that is
 accepted stops the server when it is logged.
 */
module AofFeed {
  import opened Basics
  import opened Resp
  import opened Keyspace
  import opened AofRecovery
  import opened AofCommands
  import opened AofRewrite
  import opened AofExpire

  const EXPIRE: bytes := [69, 88, 80, 73, 82, 69]
  const PEXPIRE: bytes := [80, 69, 88, 80, 73, 82, 69]
  const EXPIREAT: bytes := [69, 88, 80, 73, 82, 69, 65, 84]
  const SETEX: bytes := [83, 69, 84, 69, 88]
  const PSETEX: bytes := [80, 83, 69, 84, 69, 88]
  const EX: bytes := [101, 120]
  const PX: bytes := [112, 120]
  const NX: bytes := [110, 120]
  const XX: bytes := [120, 120]

  /** string2ll: only the canonical text of a 64 bit number. */
  function StrictInt(s: bytes): Option<int> {
    var n := ParseInt(s);
    if s == PrintInt(n) && -0x8000_0000_0000_0000 <= n < 0x8000_0000_0000_0000 then Some(n) else None
  }

  datatype Timed = Expire | PExpire | ExpireAt | PExpireAt | SetEx | PSetEx | SetOnly | Untimed

  function TimedKind(a: Argv): Timed {
    if Named(a, EXPIRE) then Expire
    else if Named(a, PEXPIRE) then PExpire
    else if Named(a, EXPIREAT) then ExpireAt
    else if Named(a, PEXPIREAT) then PExpireAt
    else if Named(a, SETEX) then SetEx
    else if Named(a, PSETEX) then PSetEx
    else if Named(a, SET) then SetOnly
    else Untimed
  }

  predicate InSeconds(t: Timed) { t.Expire? || t.ExpireAt? || t.SetEx? }

  predicate Relative(t: Timed) { t.Expire? || t.PExpire? || t.SetEx? || t.PSetEx? }

  /** The absolute time in milliseconds that a time argument stands for. */
  function AbsoluteTime(t: Timed, now: int, n: int): int {
    (if InSeconds(t) then n * 1000 else n) + (if Relative(t) then now else 0)
  }

  // ------------------------------------------------------------- SET options

  datatype SetOptions = SetOptions(nx: bool, xx: bool, ex: bool, px: bool, expire: bytes) | SyntaxError

  const NO_OPTIONS := SetOptions(false, false, false, false, [])

  /** setCommand's option loop from argument `j` on. */
  function ParseOptions(a: Argv, j: nat, o: SetOptions): SetOptions
    requires o.SetOptions?
    decreases |a| - j
  {
    if j >= |a| then o
    else if SameName(a[j], NX) && !o.xx then ParseOptions(a, j + 1, o.(nx := true))
    else if SameName(a[j], XX) && !o.nx then ParseOptions(a, j + 1, o.(xx := true))
    else if SameName(a[j], EX) && !o.px && j + 1 < |a| then ParseOptions(a, j + 2, o.(ex := true, expire := a[j + 1]))
    else if SameName(a[j], PX) && !o.ex && j + 1 < |a| then ParseOptions(a, j + 2, o.(px := true, expire := a[j + 1]))
    else SyntaxError
  }

  /** The arguments that the parser takes as expire values; all but the last are forgotten. */
  function ExpireValues(a: Argv, j: nat): seq<bytes>
    decreases |a| - j
  {
    if j >= |a| then []
    else if (SameName(a[j], EX) || SameName(a[j], PX)) && j + 1 < |a| then [a[j + 1]] + ExpireValues(a, j + 2)
    else ExpireValues(a, j + 1)
  }

  datatype Found = Found(ex: Option<bytes>, px: Option<bytes>)

  /** feedAppendOnlyFile looks at every argument, option or not. */
  function Scan(a: Argv, j: nat, f: Found): Found
    decreases |a| - j
  {
    if j >= |a| then f
    else
      var next := if j + 1 < |a| then a[j + 1] else [];
      Scan(a, j + 1, Found(if SameName(a[j], EX) then Some(next) else f.ex,
                           if SameName(a[j], PX) then Some(next) else f.px))
  }

  lemma NumberIsNoOption(s: bytes)
    requires StrictInt(s).Some?
    ensures !SameName(s, EX) && !SameName(s, PX)
  {
    var n := ParseInt(s);
    DecimalDigits(if n < 0 then -n else n);
    assert s[0] == MINUS || IsDigit(s[0]);
  }

  /** What the scan has found where the parser has come to. */
  ghost predicate InStep(o: SetOptions, f: Found) {
    && o.SetOptions? && !(o.ex && o.px)
    && (o.ex ==> f.ex.Some? && (StrictInt(o.expire).Some? ==> f.ex.value == o.expire))
    && (o.px ==> f.px.Some? && (StrictInt(o.expire).Some? ==> f.px.value == o.expire))
    && (!o.ex && !o.px ==> f == Found(None, None))
  }

  ghost predicate SpelledIn(name: bytes, vs: seq<bytes>) { exists v :: v in vs && SameName(v, name) }

  lemma OneName(s: bytes)
    ensures SameName(s, NX) ==> !SameName(s, XX) && !SameName(s, EX) && !SameName(s, PX)
    ensures SameName(s, XX) ==> !SameName(s, EX) && !SameName(s, PX)
    ensures SameName(s, EX) ==> !SameName(s, PX)
  {
    assert Lower(NX[0]) == 110 && Lower(XX[0]) == 120 && Lower(EX[0]) == 101 && Lower(PX[0]) == 112;
  }

  lemma SpelledCons(name: bytes, v: bytes, vs: seq<bytes>)
    ensures SpelledIn(name, [v] + vs) <==> SameName(v, name) || SpelledIn(name, vs)
  {
    assert SameName(v, name) ==> v in [v] + vs;
    assert forall w :: w in vs ==> w in [v] + vs;
    assert forall w :: w in [v] + vs ==> w == v || w in vs;
  }

  /** The scan finds the unit that the parser took, with the value it kept if that is a number;
      it finds the other unit as well iff one of the expire values spells it. */
  lemma {:induction false} ScanFindsOptions(a: Argv, j: nat, o: SetOptions, f: Found)
    requires InStep(o, f) && ParseOptions(a, j, o).SetOptions?
    ensures var r, g, vs := ParseOptions(a, j, o), Scan(a, j, f), ExpireValues(a, j);
            && InStep(r, g)
            && (r.ex ==> (g.px.Some? <==> f.px.Some? || SpelledIn(PX, vs)))
            && (r.px ==> (g.ex.Some? <==> f.ex.Some? || SpelledIn(EX, vs)))
    decreases |a| - j
  {
    if j < |a| {
      OneName(a[j]);
      if SameName(a[j], NX) {
        ScanFindsOptions(a, j + 1, o.(nx := true), f);
      } else if SameName(a[j], XX) {
        ScanFindsOptions(a, j + 1, o.(xx := true), f);
      } else {
        var v := a[j + 1];
        var next := if j + 2 < |a| then a[j + 2] else [];
        if StrictInt(v).Some? { NumberIsNoOption(v); }
        SpelledCons(PX, v, ExpireValues(a, j + 2));
        SpelledCons(EX, v, ExpireValues(a, j + 2));
        var f1 := if SameName(a[j], EX) then f.(ex := Some(v)) else f.(px := Some(v));
        var f2 := Found(if SameName(v, EX) then Some(next) else f1.ex, if SameName(v, PX) then Some(next) else f1.px);
        assert Scan(a, j, f) == Scan(a, j + 2, f2);
        var o1 := if SameName(a[j], EX) then o.(ex := true, expire := v) else o.(px := true, expire := v);
        ScanFindsOptions(a, j + 2, o1, f2);
        StaysOnUnit(a, j + 2, o1);
      }
    }
  }

  /** Once an expire value was taken, the unit stays. */
  lemma {:induction false} StaysOnUnit(a: Argv, j: nat, o: SetOptions)
    requires o.SetOptions? && o.ex != o.px && ParseOptions(a, j, o).SetOptions?
    ensures var r := ParseOptions(a, j, o); r.ex == o.ex && r.px == o.px
    decreases |a| - j
  {
    if j < |a| {
      OneName(a[j]);
      if SameName(a[j], NX) { StaysOnUnit(a, j + 1, o.(nx := true)); }
      else if SameName(a[j], XX) { StaysOnUnit(a, j + 1, o.(xx := true)); }
      else { StaysOnUnit(a, j + 2, o.(expire := a[j + 1])); }
    }
  }

  // -------------------------------------------------------- the client's view

  /** What a command leaves, and the command to log for it, if any. */
  datatype Effect = Effect(db: Db, logged: Option<Argv>)

  function SetKey(now: int, key: bytes, v: bytes, t: Timed, expire: Option<bytes>, a: Argv, db: Db): Effect {
    if expire.None? then Effect(db[key := Entry(Str(v), None)], Some(a))
    else
      var n := StrictInt(expire.value);
      if n.None? || n.value <= 0 then Effect(db, None)
      else Effect(db[key := Entry(Str(v), Some(AbsoluteTime(t, now, n.value)))], Some(a))
  }

  function ExpireKey(now: int, t: Timed, a: Argv, db: Db): Effect
    requires |a| == 3
  {
    var n := StrictInt(a[2]);
    if n.None? || a[1] !in db then Effect(db, None)
    else
      var when_ := AbsoluteTime(t, now, n.value);
      if when_ <= now then Effect(db - {a[1]}, Some([DEL, a[1]]))
      else Effect(db[a[1] := db[a[1]].(expire := Some(when_))], Some(a))
  }

  function SetCommand(now: int, a: Argv, db: Db): Effect
    requires |a| >= 3
  {
    var o := ParseOptions(a, 3, NO_OPTIONS);
    if o.SyntaxError? then Effect(db, None)
    else
      var e := if o.ex || o.px then Some(o.expire) else None;
      if (o.nx && a[1] in db) || (o.xx && a[1] !in db) then Effect(db, None)
      else SetKey(now, a[1], a[2], if o.px then PSetEx else SetEx, e, a, db)
  }

  /** A client command at a frozen clock, where the keys it looks up have not expired. A
      command of the wrong arity is refused; one that is not about time is `other`'s business. */
  function Perform(other: Other, now: int, a: Argv, db: Db): Effect {
    match TimedKind(a)
    case Expire => if |a| == 3 then ExpireKey(now, Expire, a, db) else Effect(db, None)
    case PExpire => if |a| == 3 then ExpireKey(now, PExpire, a, db) else Effect(db, None)
    case ExpireAt => if |a| == 3 then ExpireKey(now, ExpireAt, a, db) else Effect(db, None)
    case PExpireAt => if |a| == 3 then ExpireKey(now, PExpireAt, a, db) else Effect(db, None)
    case SetEx => if |a| == 4 then SetKey(now, a[1], a[3], SetEx, Some(a[2]), a, db) else Effect(db, None)
    case PSetEx => if |a| == 4 then SetKey(now, a[1], a[3], PSetEx, Some(a[2]), a, db) else Effect(db, None)
    case SetOnly => if |a| >= 3 then SetCommand(now, a, db) else Effect(db, None)
    case Untimed => Effect(Exec(other, a, db), Some(a))
  }

  predicate PositiveTime(s: bytes) { StrictInt(s).Some? && StrictInt(s).value > 0 }

  /** The keys that a command looks up, if it comes to that. */
  function LooksUp(keys: Keys, a: Argv): seq<bytes> {
    match TimedKind(a)
    case Untimed => Touched(keys, a)
    case SetEx => if |a| == 4 && PositiveTime(a[2]) then [a[1]] else []
    case PSetEx => if |a| == 4 && PositiveTime(a[2]) then [a[1]] else []
    case SetOnly =>
      if |a| < 3 then []
      else
        var o := ParseOptions(a, 3, NO_OPTIONS);
        if o.SetOptions? && (o.ex || o.px ==> PositiveTime(o.expire)) then [a[1]] else []
    case _ => if |a| == 3 && StrictInt(a[2]).Some? then [a[1]] else []
  }

  /** What a client command leaves, the keys that turned out to have expired, and the
      command to log for it, if any. */
  datatype Outcome = Outcome(db: Db, dropped: seq<bytes>, logged: Option<Argv>)

  /** A client command: keys that it looks up and that have expired are deleted first. */
  function Execute(other: Other, keys: Keys, now: int, a: Argv, db: Db): Outcome {
    var dropped := ExpiredOf(now, LooksUp(keys, a), db);
    var e := Perform(other, now, a, Without(db, dropped));
    Outcome(e.db, dropped, e.logged)
  }

  // ----------------------------------------------------------- what is logged

  /** catAppendOnlyExpireAtCommand. */
  function ExpireAtCommand(now: int, t: Timed, key: bytes, arg: bytes): Argv {
    [PEXPIREAT, key, PrintInt(AbsoluteTime(t, now, ParseInt(arg)))]
  }

  /** The assertion of feedAppendOnlyFile fails: both units were found in a SET. */
  predicate Stops(a: Argv) {
    TimedKind(a).SetOnly? && |a| > 3 && var f := Scan(a, 3, Found(None, None)); f.ex.Some? && f.px.Some?
  }

  function Translate(now: int, a: Argv): seq<Argv>
    requires !Stops(a)
  {
    var t := TimedKind(a);
    if (t.Expire? || t.PExpire? || t.ExpireAt?) && |a| >= 3 then [ExpireAtCommand(now, t, a[1], a[2])]
    else if (t.SetEx? || t.PSetEx?) && |a| >= 4 then
      [[SET, a[1], a[3]], ExpireAtCommand(now, t, a[1], a[2])]
    else if t.SetOnly? && |a| > 3 then
      var f := Scan(a, 3, Found(None, None));
      if f.ex.Some? then [a[..3], ExpireAtCommand(now, Expire, a[1], f.ex.value)]
      else if f.px.Some? then [a[..3], ExpireAtCommand(now, PExpire, a[1], f.px.value)]
      else [a[..3]]
    else [a]
  }

  lemma EncodeSnoc(cs: seq<Argv>, a: Argv)
    ensures EncodeAll(cs + [a]) == EncodeAll(cs) + Encode(a)
  {
    var all := cs + [a];
    EncodeAllSnoc(all, |cs|);
    assert all[..|cs| + 1] == all && all[..|cs|] == cs;
  }

  /** Print one more command. */
  method Cat(dst: bytes, a: Argv, ghost buf: bytes, ghost cs: seq<Argv>) returns (out: bytes)
    requires dst == buf + EncodeAll(cs)
    ensures out == buf + EncodeAll(cs + [a])
  {
    out := CatGenericCommand(dst, a);
    EncodeSnoc(cs, a);
    Regroup(buf, EncodeAll(cs), Encode(a));
  }

  /** The loop that looks for EX and PX in a SET. */
  method ScanOptions(a: Argv) returns (f: Found)
    requires |a| > 3
    ensures f == Scan(a, 3, Found(None, None))
  {
    var ex, px, i := None, None, 3;
    while i < |a|
      invariant 3 <= i <= |a| && Scan(a, 3, Found(None, None)) == Scan(a, i, Found(ex, px))
    {
      var next := if i + 1 < |a| then a[i + 1] else [];
      if SameName(a[i], EX) { ex := Some(next); }
      if SameName(a[i], PX) { px := Some(next); }
      i := i + 1;
    }
    f := Found(ex, px);
  }

  /** SET with options: the plain SET, and the expire time that was found. */
  method FeedSet(buf: bytes, now: int, a: Argv) returns (stopped: bool, out: bytes)
    requires TimedKind(a).SetOnly? && |a| > 3
    ensures stopped <==> Stops(a)
    ensures !stopped ==> out == buf + EncodeAll(Translate(now, a))
  {
    stopped := false;
    ghost var none: seq<Argv>, cs: seq<Argv> := [], [a[..3]];
    out := Cat(buf, a[..3], buf, none);
    assert none + [a[..3]] == cs;
    var f := ScanOptions(a);
    if f.ex.Some? && f.px.Some? { return true, out; }
    if f.ex.Some? { out := Cat(out, ExpireAtCommand(now, Expire, a[1], f.ex.value), buf, cs); }
    if f.px.Some? { out := Cat(out, ExpireAtCommand(now, PExpire, a[1], f.px.value), buf, cs); }
  }

  /** The commands feedAppendOnlyFile prints after the SELECT, unless it stops the server. */
  method FeedCommands(buf: bytes, now: int, a: Argv) returns (stopped: bool, out: bytes)
    ensures stopped <==> Stops(a)
    ensures !stopped ==> out == buf + EncodeAll(Translate(now, a))
  {
    stopped := false;
    var t := TimedKind(a);
    ghost var cs: seq<Argv> := [];
    assert buf == buf + EncodeAll(cs);
    if (t.Expire? || t.PExpire? || t.ExpireAt?) && |a| >= 3 {
      out := Cat(buf, ExpireAtCommand(now, t, a[1], a[2]), buf, cs);
    } else if (t.SetEx? || t.PSetEx?) && |a| >= 4 {
      var set3 := [SET, a[1], a[3]];
      out := Cat(buf, set3, buf, cs);
      out := Cat(out, ExpireAtCommand(now, t, a[1], a[2]), buf, [set3]);
      assert cs + [set3] == [set3];
    } else if t.SetOnly? && |a| > 3 {
      stopped, out := FeedSet(buf, now, a);
    } else {
      out := Cat(buf, a, buf, cs);
    }
  }

  // -------------------------------------------------------------- the theorem

  lemma RunSet(other: Other, a: Argv, db: Db)
    requires |a| == 3 && Named(a, SET)
    ensures Exec(other, a, db) == db[a[1] := Entry(Str(a[2]), None)]
  {}

  lemma RunSetThenExpire(other: Other, a: Argv, key: bytes, v: bytes, when_: int, db: Db)
    requires |a| == 3 && Named(a, SET) && a[1] == key && a[2] == v
    ensures ExecAll(Executor(other), [a, [PEXPIREAT, key, PrintInt(when_)]], db) == db[key := Entry(Str(v), Some(when_))]
  {
    var e: Argv := [PEXPIREAT, key, PrintInt(when_)];
    var d := db[key := Entry(Str(v), None)];
    ExecCons(Executor(other), a, [e], db);
    assert [a] + [e] == [a, e];
    RunSet(other, a, db);
    ExecOne(Executor(other), e, d);
    ParseExpire(key, when_);
    assert d[key := Entry(Str(v), Some(when_))] == db[key := Entry(Str(v), Some(when_))];
  }

  lemma RunExpire(other: Other, key: bytes, when_: int, db: Db)
    requires key in db
    ensures ExecAll(Executor(other), [[PEXPIREAT, key, PrintInt(when_)]], db) == db[key := db[key].(expire := Some(when_))]
  {
    ParseExpire(key, when_);
    ExecOne(Executor(other), [PEXPIREAT, key, PrintInt(when_)], db);
  }

  /** PEXPIREAT is logged as it came. */
  lemma RunPlainExpire(other: Other, a: Argv, db: Db)
    requires |a| == 3 && Named(a, PEXPIREAT) && a[1] in db
    ensures ExecAll(Executor(other), [a], db) == db[a[1] := db[a[1]].(expire := Some(ParseInt(a[2])))]
  {
    assert |a[0]| == 9;
    assert Parse(a) == OpExpire(a[1], ParseInt(a[2]));
    ExecOne(Executor(other), a, db);
  }

  lemma ExpireTranslates(other: Other, now: int, a: Argv, db: Db)
    requires |a| == 3 && TimedKind(a) in {Expire, PExpire, ExpireAt, PExpireAt}
    requires ExpireKey(now, TimedKind(a), a, db).logged.Some?
    ensures var r := ExpireKey(now, TimedKind(a), a, db);
            !Stops(r.logged.value) && ExecAll(Executor(other), Translate(now, r.logged.value), db) == r.db
  {
    var t, c := TimedKind(a), ExpireKey(now, TimedKind(a), a, db).logged.value;
    DelUntimed(a[1]);
    if c != a {
      assert Translate(now, c) == [c];
      DelExec(other, a[1], db);
    } else if t == PExpireAt {
      assert Translate(now, c) == [a];
      RunPlainExpire(other, a, db);
    } else {
      assert Translate(now, c) == [[PEXPIREAT, a[1], PrintInt(AbsoluteTime(t, now, ParseInt(a[2])))]];
      RunExpire(other, a[1], AbsoluteTime(t, now, ParseInt(a[2])), db);
    }
  }

  lemma SetExTranslates(other: Other, now: int, a: Argv, db: Db)
    requires |a| == 4 && TimedKind(a) in {SetEx, PSetEx}
    requires SetKey(now, a[1], a[3], TimedKind(a), Some(a[2]), a, db).logged.Some?
    ensures ExecAll(Executor(other), Translate(now, a), db) == SetKey(now, a[1], a[3], TimedKind(a), Some(a[2]), a, db).db
  {
    RunSetThenExpire(other, [SET, a[1], a[3]], a[1], a[3], AbsoluteTime(TimedKind(a), now, ParseInt(a[2])), db);
  }

  /** A SET that the parser accepts and in which an expire value, to be overridden by a later
      one, is the name of the other unit. */
  ghost predicate OtherUnitTaken(a: Argv) {
    TimedKind(a).SetOnly? && |a| > 3 &&
      var o, vs := ParseOptions(a, 3, NO_OPTIONS), ExpireValues(a, 3);
      o.SetOptions? && ((o.ex && SpelledIn(PX, vs)) || (o.px && SpelledIn(EX, vs)))
  }

  /** Of the SETs that the parser accepts, logging stops the server on exactly those. */
  lemma SetStopsIff(a: Argv)
    requires TimedKind(a).SetOnly? && |a| > 3 && ParseOptions(a, 3, NO_OPTIONS).SetOptions?
    ensures Stops(a) <==> OtherUnitTaken(a)
  {
    ScanFindsOptions(a, 3, NO_OPTIONS, Found(None, None));
  }

  lemma TenIsPositive(s: bytes)
    requires s == [49, 48]
    ensures StrictInt(s) == Some(10) && ParseInt(s) == 10
  {
    ParsePrintInt(10);
    assert PrintInt(10) == Decimal(1) + [48] == s;
  }

  /** The parser comes to the last EX, the scan to px. */
  lemma StoppingParse(a: Argv)
    requires |a| == 7 && a[3] == EX && a[4] == PX && a[5] == EX
    ensures ParseOptions(a, 3, NO_OPTIONS) == SetOptions(false, false, true, false, a[6])
  {
    OneName(EX);
    var o := SetOptions(false, false, true, false, PX);
    assert ParseOptions(a, 3, NO_OPTIONS) == ParseOptions(a, 5, o);
    assert ParseOptions(a, 5, o) == ParseOptions(a, 7, o.(expire := a[6]));
  }

  lemma StoppingValues(a: Argv)
    requires |a| == 7 && a[3] == EX && a[4] == PX && a[5] == EX
    ensures SpelledIn(PX, ExpireValues(a, 3))
  {
    SpelledCons(PX, PX, ExpireValues(a, 5));
    assert ExpireValues(a, 3) == [a[4]] + ExpireValues(a, 5);
  }

  /** SET key value EX px EX 10 is carried out, and then stops the server. */
  lemma AcceptedSetStops(other: Other, keys: Keys, now: int, db: Db, a: Argv)
    requires |a| == 7 && a[0] == SET && a[3..] == [EX, PX, EX, [49, 48]]
    ensures Execute(other, keys, now, a, db).logged == Some(a) && Stops(a)
  {
    assert a[3] == a[3..][0] && a[4] == a[3..][1] && a[5] == a[3..][2] && a[6] == a[3..][3];
    assert TimedKind(a).SetOnly? by { assert |a[0]| == 3; }
    TenIsPositive(a[6]);
    StoppingParse(a);
    StoppingValues(a);
    SetStopsIff(a);
  }

  /** What is printed for an accepted SET that does not stop the server. */
  lemma SetPrints(now: int, a: Argv, o: SetOptions)
    requires |a| > 3 && TimedKind(a).SetOnly? && !Stops(a) && o == ParseOptions(a, 3, NO_OPTIONS) && o.SetOptions?
    ensures o.ex || o.px ==> !(o.ex && o.px) && (StrictInt(o.expire).Some? ==>
              Translate(now, a) == [a[..3], ExpireAtCommand(now, if o.px then PExpire else Expire, a[1], o.expire)])
    ensures !o.ex && !o.px ==> Translate(now, a) == [a[..3]]
  {
    ScanFindsOptions(a, 3, NO_OPTIONS, Found(None, None));
  }

  /** What a SET with these options puts at its key. */
  function SetEntry(now: int, v: bytes, o: SetOptions): Entry
    requires o.SetOptions?
  {
    Entry(Str(v), if o.ex || o.px then Some(AbsoluteTime(if o.px then PExpire else Expire, now, ParseInt(o.expire))) else None)
  }

  lemma SetPuts(now: int, a: Argv, o: SetOptions, db: Db)
    requires |a| >= 3 && o == ParseOptions(a, 3, NO_OPTIONS) && SetCommand(now, a, db).logged.Some?
    ensures o.SetOptions? && (o.ex || o.px ==> StrictInt(o.expire).Some?)
    ensures SetCommand(now, a, db).db == db[a[1] := SetEntry(now, a[2], o)]
  {}

  lemma PrintedSetRuns(other: Other, now: int, a: Argv, o: SetOptions, cs: seq<Argv>, db: Db)
    requires |a| >= 3 && Named(a, SET) && o.SetOptions?
    requires cs == if o.ex || o.px then [a[..3], ExpireAtCommand(now, if o.px then PExpire else Expire, a[1], o.expire)] else [a[..3]]
    ensures ExecAll(Executor(other), cs, db) == db[a[1] := SetEntry(now, a[2], o)]
  {
    var set3 := a[..3];
    if o.ex || o.px {
      RunSetThenExpire(other, set3, a[1], a[2], AbsoluteTime(if o.px then PExpire else Expire, now, ParseInt(o.expire)), db);
    } else {
      RunSet(other, set3, db);
      ExecOne(Executor(other), set3, db);
    }
  }

  lemma SetTranslates(other: Other, now: int, a: Argv, o: SetOptions, db: Db)
    requires |a| >= 3 && TimedKind(a).SetOnly? && !Stops(a) && o == ParseOptions(a, 3, NO_OPTIONS)
    requires SetCommand(now, a, db).logged.Some?
    ensures ExecAll(Executor(other), Translate(now, a), db) == SetCommand(now, a, db).db
  {
    SetPuts(now, a, o, db);
    if |a| == 3 { assert a[..3] == a; } else { SetPrints(now, a, o); }
    PrintedSetRuns(other, now, a, o, Translate(now, a), db);
  }

  lemma PerformTranslates(other: Other, now: int, a: Argv, db: Db)
    requires Perform(other, now, a, db).logged.Some? && !Stops(a)
    ensures var r := Perform(other, now, a, db);
            !Stops(r.logged.value) && ExecAll(Executor(other), Translate(now, r.logged.value), db) == r.db
  {
    var t := TimedKind(a);
    if t in {Expire, PExpire, ExpireAt, PExpireAt} {
      ExpireTranslates(other, now, a, db);
    } else if t in {SetEx, PSetEx} {
      SetExTranslates(other, now, a, db);
    } else if t == SetOnly {
      SetTranslates(other, now, a, ParseOptions(a, 3, NO_OPTIONS), db);
    } else {
      ExecOne(Executor(other), a, db);
    }
  }

  /** What is logged for a client command: a DEL for every key that had expired, and the
      translation of the command, unless it stops the server. */
  function Logged(now: int, r: Outcome): seq<Argv>
    requires r.logged.Some? ==> !Stops(r.logged.value)
  {
    Dels(r.dropped) + if r.logged.Some? then Translate(now, r.logged.value) else []
  }

  /** Logging stops the server iff the command is a SET of that kind; otherwise executing
      what is logged for it does to the database what the command did. */
  lemma TranslationKeepsMeaning(other: Other, keys: Keys, now: int, a: Argv, db: Db)
    ensures var r := Execute(other, keys, now, a, db);
            && (r.logged.Some? ==> (Stops(r.logged.value) <==> OtherUnitTaken(a)))
            && (r.logged.None? || !OtherUnitTaken(a) ==> ExecAll(Executor(other), Logged(now, r), db) == r.db)
  {
    var r := Execute(other, keys, now, a, db);
    var db1 := Without(db, r.dropped);
    DelsDelete(other, r.dropped, db);
    if r.logged.Some? {
      LoggedStops(other, now, a, db1);
      if !OtherUnitTaken(a) {
        PerformTranslates(other, now, a, db1);
        ExecAllConcat(Executor(other), Dels(r.dropped), Translate(now, r.logged.value), db);
      }
    } else {
      assert Perform(other, now, a, db1).db == db1;
      assert Dels(r.dropped) + [] == Dels(r.dropped);
    }
  }

  lemma LoggedStops(other: Other, now: int, a: Argv, db: Db)
    requires Perform(other, now, a, db).logged.Some?
    ensures Stops(Perform(other, now, a, db).logged.value) <==> OtherUnitTaken(a)
  {
    var t, c := TimedKind(a), Perform(other, now, a, db).logged.value;
    if t.SetOnly? && |a| > 3 {
      SetStopsIff(a);
    } else if c != a {
      DelUntimed(a[1]);
    }
  }

  // ------------------------------------------- what it does on expired entries

  lemma TimeTouches(keys: Keys, now: int, t: Timed, key: bytes, arg: bytes)
    ensures Touched(keys, ExpireAtCommand(now, t, key, arg)) == [key]
  {
    ParseExpire(key, AbsoluteTime(t, now, ParseInt(arg)));
  }

  lemma ExpireTouches(keys: Keys, now: int, a: Argv, db: Db, i: nat)
    requires |a| == 3 && TimedKind(a) in {Expire, PExpire, ExpireAt, PExpireAt}
    requires ExpireKey(now, TimedKind(a), a, db).logged.Some? && !Stops(ExpireKey(now, TimedKind(a), a, db).logged.value)
    requires i < |Translate(now, ExpireKey(now, TimedKind(a), a, db).logged.value)|
    ensures Touched(keys, Translate(now, ExpireKey(now, TimedKind(a), a, db).logged.value)[i]) == [a[1]]
    ensures LooksUp(keys, a) == [a[1]]
  {
    DelUntimed(a[1]);
    TimeTouches(keys, now, TimedKind(a), a[1], a[2]);
  }

  lemma SetExTouches(keys: Keys, now: int, a: Argv, i: nat)
    requires |a| == 4 && TimedKind(a) in {SetEx, PSetEx} && i < |Translate(now, a)|
    ensures Touched(keys, Translate(now, a)[i]) == [a[1]]
  {
    ParseSet(a[1], a[3]);
    TimeTouches(keys, now, TimedKind(a), a[1], a[2]);
  }

  /** What is printed for a command touches no key that the command did not look up. */
  lemma TranslateTouches(other: Other, keys: Keys, now: int, a: Argv, db: Db, i: nat, k: bytes)
    requires Perform(other, now, a, db).logged.Some? && !Stops(Perform(other, now, a, db).logged.value)
    requires var cs := Translate(now, Perform(other, now, a, db).logged.value); i < |cs| && k in Touched(keys, cs[i])
    ensures k in LooksUp(keys, a)
  {
    var t := TimedKind(a);
    if t in {Expire, PExpire, ExpireAt, PExpireAt} {
      ExpireTouches(keys, now, a, db, i);
    } else if t in {SetEx, PSetEx} {
      SetExTouches(keys, now, a, i);
    } else if t.SetOnly? && |a| > 3 {
      SetTouches(keys, now, a, i);
    }
  }

  lemma SetTouches(keys: Keys, now: int, a: Argv, i: nat)
    requires |a| > 3 && TimedKind(a).SetOnly? && !Stops(a) && i < |Translate(now, a)|
    ensures Touched(keys, Translate(now, a)[i]) == [a[1]]
  {
    var f := Scan(a, 3, Found(None, None));
    assert Named(a[..3], SET);
    if f.ex.Some? { ParseExpire(a[1], AbsoluteTime(Expire, now, ParseInt(f.ex.value))); }
    if f.px.Some? { ParseExpire(a[1], AbsoluteTime(PExpire, now, ParseInt(f.px.value))); }
  }

  /** What is logged for a client command does the same to a database that lacks some of the
      expired entries. */
  lemma LoggedTolerates(other: Other, keys: Keys, now: int, a: Argv, d: Db, db: Db)
    requires Local(other, keys) && Trimmed(now, d, db)
    requires var r := Execute(other, keys, now, a, db); r.logged.Some? ==> !Stops(r.logged.value)
    ensures var cs := Logged(now, Execute(other, keys, now, a, db));
            Trimmed(now, ExecAll(Executor(other), cs, d), ExecAll(Executor(other), cs, db))
  {
    var run, r := Executor(other), Execute(other, keys, now, a, db);
    var d1, db1 := Without(d, r.dropped), Without(db, r.dropped);
    DelsDelete(other, r.dropped, d);
    DelsDelete(other, r.dropped, db);
    assert Trimmed(now, d1, db1);
    if r.logged.Some? {
      var cs := Translate(now, r.logged.value);
      ExpiredOfExact(now, LooksUp(keys, a), db);
      forall i, k | 0 <= i < |cs| && k in Touched(keys, cs[i]) && k in db1 ensures !Expired(now, db1[k]) {
        TranslateTouches(other, keys, now, a, db1, i, k);
      }
      LiveKeysTolerate(other, keys, now, cs, d1, db1);
      ExecAllConcat(run, Dels(r.dropped), cs, d);
      ExecAllConcat(run, Dels(r.dropped), cs, db);
    } else {
      assert Dels(r.dropped) + [] == Dels(r.dropped);
    }
  }

  // ------------------------------------------------------------- it is plain

  ghost predicate TimesFit(db: Db) { forall k :: k in db ==> TimeFits(db[k].expire) }

  lemma ExpireAtPlain(now: int, t: Timed, key: bytes, arg: bytes)
    requires FitsLine(|key|) && TimeFits(Some(AbsoluteTime(t, now, ParseInt(arg))))
    ensures PlainCommand(ExpireAtCommand(now, t, key, arg)) && !Named(ExpireAtCommand(now, t, key, arg), SELECT)
  {
    var when_ := AbsoluteTime(t, now, ParseInt(arg));
    DecimalShort(if when_ < 0 then -when_ else when_);
    SmallFits(|PrintInt(when_)|);
    SmallFits(3);
    SmallFits(9);
    NamedPlain(ExpireAtCommand(now, t, key, arg));
  }

  lemma SetPlain(a: Argv)
    requires WellFormed(a) && Named(a, SET) && |a| == 3
    ensures PlainCommand(a) && !Named(a, SELECT)
  {
    assert |a[0]| == 3;
  }

  lemma DelPlain(key: bytes)
    requires FitsLine(|key|)
    ensures PlainCommand([DEL, key]) && !Named([DEL, key], SELECT)
  {
    SmallFits(2);
    SmallFits(3);
    assert |[DEL, key][0]| == 3;
  }

  lemma ExpirePlain(now: int, t: Timed, a: Argv, db: Db)
    requires PlainCommand(a) && |a| == 3 && TimedKind(a) == t && t in {Expire, PExpire, ExpireAt, PExpireAt}
    requires ExpireKey(now, t, a, db).logged.Some? && TimesFit(ExpireKey(now, t, a, db).db) && !Named(a, SELECT)
    ensures !Stops(ExpireKey(now, t, a, db).logged.value)
    ensures PlainLog(Translate(now, ExpireKey(now, t, a, db).logged.value))
  {
    var r := ExpireKey(now, t, a, db);
    if r.logged.value != a {
      DelPlain(a[1]);
      DelUntimed(a[1]);
    } else if t != PExpireAt {
      assert a[1] in r.db;
      ExpireAtPlain(now, t, a[1], a[2]);
    }
  }

  lemma DelUntimed(key: bytes)
    ensures TimedKind([DEL, key]) == Untimed
  {
    var c: Argv := [DEL, key];
    assert |c[0]| == 3 && Lower(c[0][0]) == 100;
  }

  lemma SetExPlain(now: int, t: Timed, a: Argv, db: Db)
    requires PlainCommand(a) && |a| == 4 && TimedKind(a) == t && t in {SetEx, PSetEx}
    requires var r := SetKey(now, a[1], a[3], t, Some(a[2]), a, db); r.logged.Some? && TimesFit(r.db)
    ensures PlainLog(Translate(now, a))
  {
    assert a[1] in SetKey(now, a[1], a[3], t, Some(a[2]), a, db).db;
    SmallFits(3);
    SetPlain([SET, a[1], a[3]]);
    ExpireAtPlain(now, t, a[1], a[2]);
  }

  lemma SetOnlyPlain(now: int, a: Argv, db: Db)
    requires PlainCommand(a) && |a| > 3 && TimedKind(a).SetOnly? && !Stops(a)
    requires SetCommand(now, a, db).logged.Some? && TimesFit(SetCommand(now, a, db).db)
    ensures PlainLog(Translate(now, a))
  {
    assert a[1] in SetCommand(now, a, db).db;
    var o := ParseOptions(a, 3, NO_OPTIONS);
    SetPuts(now, a, o, db);
    SetPrints(now, a, o);
    SmallFits(3);
    SetPlain(a[..3]);
    if o.ex || o.px { ExpireAtPlain(now, if o.px then PExpire else Expire, a[1], o.expire); }
  }

  lemma TranslatePlain(other: Other, now: int, a: Argv, db: Db)
    requires PlainCommand(a) && !Named(a, SELECT)
    requires Perform(other, now, a, db).logged.Some? && !Stops(Perform(other, now, a, db).logged.value)
    requires TimesFit(Perform(other, now, a, db).db)
    ensures PlainLog(Translate(now, Perform(other, now, a, db).logged.value))
  {
    var t := TimedKind(a);
    if t in {Expire, PExpire, ExpireAt, PExpireAt} {
      ExpirePlain(now, t, a, db);
    } else if t in {SetEx, PSetEx} {
      SetExPlain(now, t, a, db);
    } else if t.SetOnly? && |a| > 3 {
      SetOnlyPlain(now, a, db);
    }
  }

  lemma LoggedPlain(other: Other, keys: Keys, now: int, a: Argv, db: Db)
    requires PlainCommand(a) && !Named(a, SELECT) && forall k :: k in db ==> FitsLine(|k|)
    requires var r := Execute(other, keys, now, a, db); TimesFit(r.db) && (r.logged.Some? ==> !Stops(r.logged.value))
    ensures PlainLog(Logged(now, Execute(other, keys, now, a, db)))
  {
    var r := Execute(other, keys, now, a, db);
    ExpiredOfExact(now, LooksUp(keys, a), db);
    forall i | 0 <= i < |r.dropped| ensures PlainCommand(Dels(r.dropped)[i]) && !Named(Dels(r.dropped)[i], SELECT) {
      assert r.dropped[i] in r.dropped;
      DelPlain(r.dropped[i]);
    }
    if r.logged.Some? {
      TranslatePlain(other, now, a, Without(db, r.dropped));
      PlainConcat(Dels(r.dropped), Translate(now, r.logged.value));
    }
  }
}
