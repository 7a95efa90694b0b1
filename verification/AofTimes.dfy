/**
 The times that commands name, the times they leave in the database, and the times that are
 logged for them, spelled out command by command.
 */
module AofTimes {
  import opened Basics
  import opened Resp
  import opened Keyspace
  import opened AofRecovery
  import opened AofCommands
  import opened AofRewrite
  import opened AofExpire
  import opened AofFeed

  // ------------------------------------------------------------------- names

  /** A command has one name. */
  lemma NamedOnce(a: Argv)
    requires a != []
    ensures Named(a, EXPIRE) ==> TimedKind(a) == Expire
    ensures Named(a, PEXPIRE) ==> TimedKind(a) == PExpire
    ensures Named(a, EXPIREAT) ==> TimedKind(a) == ExpireAt
    ensures Named(a, PEXPIREAT) ==> TimedKind(a) == PExpireAt
    ensures Named(a, SETEX) ==> TimedKind(a) == SetEx
    ensures Named(a, PSETEX) ==> TimedKind(a) == PSetEx
    ensures Named(a, SET) ==> TimedKind(a) == SetOnly
  {
    assert |EXPIRE| == 6 && |PEXPIRE| == 7 && |EXPIREAT| == 8 && |PEXPIREAT| == 9 && |SETEX| == 5 && |PSETEX| == 6 && |SET| == 3;
    assert Lower(EXPIRE[0]) == 101 && Lower(PSETEX[0]) == 112;
  }

  lemma Spelling()
    ensures EXPIRE == [69, 88, 80, 73, 82, 69] && PEXPIRE == [80] + EXPIRE && EXPIREAT == EXPIRE + [65, 84]
    ensures PEXPIREAT == [80] + EXPIREAT && SETEX == [83, 69, 84, 69, 88] && PSETEX == [80] + SETEX
    ensures EX == [101, 120] && PX == [112, 120] && NX == [110, 120] && XX == [120, 120]
  {}

  /** Letters count the same in either case; an option ends at its first zero byte. */
  lemma NamesAndCases(a: Argv)
    ensures SameName([69, 120], EX) && SameName([101, 88, 0, 1], EX) && !SameName([101], EX) && !SameName([101, 120, 49], EX)
    ensures a == [[83, 101, 84], [], []] ==> Named(a, SET)
    ensures a == [[83, 101, 84, 0], [], []] ==> !Named(a, SET)
  {
    assert Lower(69) == 101 && Lower(88) == 120 && Lower(83) == 115 && Lower(84) == 116;
  }

  /** A number is its own printed text, and fits in 64 bits. */
  lemma StrictIs(s: bytes, n: int)
    ensures StrictInt(s) == Some(n) <==> s == PrintInt(n) && -0x8000_0000_0000_0000 <= n < 0x8000_0000_0000_0000
  {
    ParsePrintInt(n);
  }

  // ---------------------------------------------------------- what is logged

  /** EXPIRE and PEXPIRE count from now, EXPIREAT and PEXPIREAT do not; seconds become milliseconds. */
  lemma ExpireIsLogged(now: int, a: Argv)
    requires |a| == 3
    ensures Named(a, EXPIRE) ==> !Stops(a) && Translate(now, a) == [[PEXPIREAT, a[1], PrintInt(now + 1000 * ParseInt(a[2]))]]
    ensures Named(a, PEXPIRE) ==> !Stops(a) && Translate(now, a) == [[PEXPIREAT, a[1], PrintInt(now + ParseInt(a[2]))]]
    ensures Named(a, EXPIREAT) ==> !Stops(a) && Translate(now, a) == [[PEXPIREAT, a[1], PrintInt(1000 * ParseInt(a[2]))]]
    ensures Named(a, PEXPIREAT) ==> !Stops(a) && Translate(now, a) == [a]
  {
    NamedOnce(a);
  }

  lemma SetExIsLogged(now: int, a: Argv)
    requires |a| == 4 && (Named(a, SETEX) || Named(a, PSETEX))
    ensures !Stops(a)
    ensures Named(a, SETEX) ==> Translate(now, a) == [[SET, a[1], a[3]], [PEXPIREAT, a[1], PrintInt(now + 1000 * ParseInt(a[2]))]]
    ensures Named(a, PSETEX) ==> Translate(now, a) == [[SET, a[1], a[3]], [PEXPIREAT, a[1], PrintInt(now + ParseInt(a[2]))]]
  {
    NamedOnce(a);
  }

  /** The command that stands for a time in seconds, and for one in milliseconds, from now. */
  lemma ExpireAtIs(now: int, key: bytes, arg: bytes)
    ensures ExpireAtCommand(now, Expire, key, arg) == [PEXPIREAT, key, PrintInt(now + 1000 * ParseInt(arg))]
    ensures ExpireAtCommand(now, PExpire, key, arg) == [PEXPIREAT, key, PrintInt(now + ParseInt(arg))]
  {}

  /** A SET that does not stop the server is logged without its options, and with the time of the
      unit that was given. */
  lemma SetIsLogged(now: int, a: Argv, o: SetOptions)
    requires |a| > 3 && TimedKind(a).SetOnly? && !Stops(a) && o == ParseOptions(a, 3, NO_OPTIONS) && o.SetOptions?
    requires o.ex || o.px ==> StrictInt(o.expire).Some?
    ensures o.ex ==> Translate(now, a) == [a[..3], [PEXPIREAT, a[1], PrintInt(now + 1000 * ParseInt(o.expire))]]
    ensures o.px ==> Translate(now, a) == [a[..3], [PEXPIREAT, a[1], PrintInt(now + ParseInt(o.expire))]]
    ensures !o.ex && !o.px ==> Translate(now, a) == [a[..3]]
  {
    SetPrints(now, a, o);
    ExpireAtIs(now, a[1], o.expire);
  }

  /** EXPIRE k 10 at time 1000000 is logged as PEXPIREAT k 1010000. */
  lemma ExpireTenSeconds(a: Argv)
    requires a == [EXPIRE, [107], [49, 48]]
    ensures !Stops(a)
    ensures Translate(1000000, a) == [[PEXPIREAT, [107], [49, 48, 49, 48, 48, 48, 48]]]
  {
    assert Named(a, EXPIRE);
    ExpireIsLogged(1000000, a);
    TenIsPositive(a[2]);
    PrintsMillion(1010000);
  }

  lemma PrintsMillion(n: int)
    requires n == 1010000
    ensures PrintInt(n) == [49, 48, 49, 48, 48, 48, 48]
  {
    DecimalTail(1, 0);
    DecimalTail(10, 1);
    DecimalTail(101, 0);
    DecimalTail(1010, 0);
    DecimalTail(10100, 0);
    DecimalTail(101000, 0);
  }

  lemma DecimalTail(n: nat, d: nat)
    requires n > 0 && d < 10
    ensures Decimal(10 * n + d) == Decimal(n) + [48 + d]
  {}

  // ---------------------------------------------------------- what it leaves

  /** A key gets time `t`, or goes when that has come. */
  ghost predicate GetsTime(now: int, key: bytes, t: int, a: Argv, db: Db, r: Effect)
    requires key in db
  {
    if t > now then r.db == db[key := Entry(db[key].value, Some(t))] && r.logged == Some(a)
    else r.db == (map k | k in db && k != key :: db[k]) && r.logged == Some([DEL, key])
  }

  /** What the four commands do to a key that is there, given a number. */
  lemma ExpireLeaves(other: Other, now: int, a: Argv, db: Db, n: int)
    requires |a| == 3 && a[1] in db && StrictInt(a[2]) == Some(n)
    ensures Named(a, EXPIRE) ==> GetsTime(now, a[1], now + 1000 * n, a, db, Perform(other, now, a, db))
    ensures Named(a, PEXPIRE) ==> GetsTime(now, a[1], now + n, a, db, Perform(other, now, a, db))
    ensures Named(a, EXPIREAT) ==> GetsTime(now, a[1], 1000 * n, a, db, Perform(other, now, a, db))
    ensures Named(a, PEXPIREAT) ==> GetsTime(now, a[1], n, a, db, Perform(other, now, a, db))
  {
    NamedOnce(a);
  }

  /** Without such a key, or without a number, nothing happens and nothing is logged. */
  lemma ExpireRefused(other: Other, now: int, a: Argv, db: Db)
    requires |a| == 3 && (a[1] !in db || StrictInt(a[2]).None?)
    requires Named(a, EXPIRE) || Named(a, PEXPIRE) || Named(a, EXPIREAT) || Named(a, PEXPIREAT)
    ensures Perform(other, now, a, db) == Effect(db, None)
  {
    NamedOnce(a);
  }

  /** SETEX and PSETEX want a positive time. */
  lemma SetExLeaves(other: Other, now: int, a: Argv, db: Db, n: Option<int>, r: Effect)
    requires |a| == 4 && (Named(a, SETEX) || Named(a, PSETEX)) && n == StrictInt(a[2]) && r == Perform(other, now, a, db)
    ensures n.None? || n.value <= 0 ==> r == Effect(db, None)
    ensures n.Some? && n.value > 0 && Named(a, SETEX) ==>
      r == Effect(db[a[1] := Entry(Str(a[3]), Some(now + 1000 * n.value))], Some(a))
    ensures n.Some? && n.value > 0 && Named(a, PSETEX) ==>
      r == Effect(db[a[1] := Entry(Str(a[3]), Some(now + n.value))], Some(a))
  {
    NamedOnce(a);
  }

  /** SET is refused when its options are, when its time is no positive number, and when the key is
      there under NX or is not there under XX. */
  lemma SetLeaves(other: Other, now: int, a: Argv, o: SetOptions, db: Db, r: Effect)
    requires |a| >= 3 && Named(a, SET) && o == ParseOptions(a, 3, NO_OPTIONS) && r == Perform(other, now, a, db)
    ensures o.SyntaxError? || (o.nx && a[1] in db) || (o.xx && a[1] !in db) ==> r == Effect(db, None)
    ensures o.SetOptions? && (o.ex || o.px) && (StrictInt(o.expire).None? || StrictInt(o.expire).value <= 0) ==> r == Effect(db, None)
    ensures o.SetOptions? && !(o.nx && a[1] in db) && !(o.xx && a[1] !in db) ==> SetDone(now, a, o, db, r)
  {
    NamedOnce(a);
    SetCommandDone(now, a, o, db, r);
  }

  /** The key gets the value, and the time of the unit that was given. */
  ghost predicate SetDone(now: int, a: Argv, o: SetOptions, db: Db, r: Effect)
    requires |a| >= 3 && o.SetOptions?
  {
    var n := StrictInt(o.expire);
    && (!o.ex && !o.px ==> r == Effect(db[a[1] := Entry(Str(a[2]), None)], Some(a)))
    && (o.px && n.Some? && n.value > 0 ==> r == Effect(db[a[1] := Entry(Str(a[2]), Some(now + n.value))], Some(a)))
    && (o.ex && !o.px && n.Some? && n.value > 0 ==>
          r == Effect(db[a[1] := Entry(Str(a[2]), Some(now + 1000 * n.value))], Some(a)))
  }

  lemma SetCommandIs(now: int, a: Argv, o: SetOptions, db: Db)
    requires |a| >= 3 && o == ParseOptions(a, 3, NO_OPTIONS)
    ensures o.SyntaxError? || (o.nx && a[1] in db) || (o.xx && a[1] !in db) ==> SetCommand(now, a, db) == Effect(db, None)
    ensures o.SetOptions? && !(o.nx && a[1] in db) && !(o.xx && a[1] !in db) ==>
      SetCommand(now, a, db) ==
      SetKey(now, a[1], a[2], if o.px then PSetEx else SetEx, if o.ex || o.px then Some(o.expire) else None, a, db)
  {}

  lemma SetCommandDone(now: int, a: Argv, o: SetOptions, db: Db, r: Effect)
    requires |a| >= 3 && o == ParseOptions(a, 3, NO_OPTIONS) && r == SetCommand(now, a, db)
    ensures o.SyntaxError? || (o.nx && a[1] in db) || (o.xx && a[1] !in db) ==> r == Effect(db, None)
    ensures o.SetOptions? && (o.ex || o.px) && (StrictInt(o.expire).None? || StrictInt(o.expire).value <= 0) ==> r == Effect(db, None)
    ensures o.SetOptions? && !(o.nx && a[1] in db) && !(o.xx && a[1] !in db) ==> SetDone(now, a, o, db, r)
  {
    SetCommandIs(now, a, o, db);
    if o.SetOptions? && !(o.nx && a[1] in db) && !(o.xx && a[1] !in db) {
      KeyIsDone(now, a, o, db, r);
    }
  }

  lemma KeyIsDone(now: int, a: Argv, o: SetOptions, db: Db, r: Effect)
    requires |a| >= 3 && o.SetOptions?
    requires r == SetKey(now, a[1], a[2], if o.px then PSetEx else SetEx, if o.ex || o.px then Some(o.expire) else None, a, db)
    ensures SetDone(now, a, o, db, r)
    ensures (o.ex || o.px) && (StrictInt(o.expire).None? || StrictInt(o.expire).value <= 0) ==> r == Effect(db, None)
  {
    SetKeyDone(now, a[1], a[2], if o.px then PSetEx else SetEx, if o.ex || o.px then Some(o.expire) else None, a, db);
  }

  lemma SetKeyDone(now: int, key: bytes, v: bytes, t: Timed, expire: Option<bytes>, a: Argv, db: Db)
    requires t == SetEx || t == PSetEx
    ensures var r := SetKey(now, key, v, t, expire, a, db);
            && (expire.None? ==> r == Effect(db[key := Entry(Str(v), None)], Some(a)))
            && (expire.Some? && (StrictInt(expire.value).None? || StrictInt(expire.value).value <= 0) ==> r == Effect(db, None))
            && (expire.Some? && StrictInt(expire.value).Some? && StrictInt(expire.value).value > 0 ==>
                  var n := StrictInt(expire.value).value;
                  r == Effect(db[key := Entry(Str(v), Some(now + if t == PSetEx then n else 1000 * n))], Some(a)))
  {}

  // ------------------------------------------------------------- the options

  /** One option, or one with its value. */
  lemma OneOption(a: Argv)
    requires |a| >= 3
    ensures |a| == 3 ==> ParseOptions(a, 3, NO_OPTIONS) == SetOptions(false, false, false, false, [])
    ensures |a| == 4 && SameName(a[3], NX) ==> ParseOptions(a, 3, NO_OPTIONS) == SetOptions(true, false, false, false, [])
    ensures |a| == 4 && SameName(a[3], XX) ==> ParseOptions(a, 3, NO_OPTIONS) == SetOptions(false, true, false, false, [])
    ensures |a| == 5 && SameName(a[3], EX) ==> ParseOptions(a, 3, NO_OPTIONS) == SetOptions(false, false, true, false, a[4])
    ensures |a| == 5 && SameName(a[3], PX) ==> ParseOptions(a, 3, NO_OPTIONS) == SetOptions(false, false, false, true, a[4])
    ensures |a| == 4 && !SameName(a[3], NX) && !SameName(a[3], XX) ==> ParseOptions(a, 3, NO_OPTIONS).SyntaxError?
  {
    if |a| > 3 { OneName(a[3]); }
  }

  /** Options that exclude each other. */
  lemma NotBoth(a: Argv)
    requires |a| == 5 && ((SameName(a[3], NX) && SameName(a[4], XX)) || (SameName(a[3], XX) && SameName(a[4], NX)))
    ensures ParseOptions(a, 3, NO_OPTIONS).SyntaxError?
  {
    OneName(a[3]);
    OneName(a[4]);
  }

  lemma NotBothUnits(a: Argv)
    requires |a| == 7 && ((SameName(a[3], EX) && SameName(a[5], PX)) || (SameName(a[3], PX) && SameName(a[5], EX)))
    ensures ParseOptions(a, 3, NO_OPTIONS).SyntaxError?
  {
    OneName(a[3]);
    OneName(a[5]);
  }
}
