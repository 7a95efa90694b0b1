/**
 Reading an append only file that may have been cut anywhere: the offline
 checker (redis-check-aof) and the loader of the server.
 */
module AofRecovery {
  import opened Basics
  import opened Resp

  // ------------------------------------------------------------------- names

  function Lower(b: byte): byte { if 65 <= b <= 90 then b + 32 else b }

  /** strcasecmp with a name that holds no zero byte: the C string `s` stops at its first zero. */
  predicate SameName(s: bytes, name: bytes) {
    && |name| <= |s| && (|s| == |name| || s[|name|] == 0)
    && forall i :: 0 <= i < |name| ==> Lower(s[i]) == Lower(name[i])
  }

  const MULTI: bytes := [109, 117, 108, 116, 105]
  const EXEC: bytes := [101, 120, 101, 99]

  predicate IsMulti(s: bytes) { SameName(s, MULTI) }
  predicate IsExec(s: bytes) { SameName(s, EXEC) }

  // ------------------------------------------------------- checker: readers

  datatype Number = NoNumber | Number(value: int, next: nat)
  datatype Text = NoText | Text(text: bytes, next: nat)
  datatype Command = NoCommand | Command(args: Argv, next: nat)

  /** readLong: a header line with the given prefix. */
  function ReadLong(f: bytes, p: nat, prefix: byte): (r: Number)
    requires p <= |f|
    ensures r.Number? ==> p < r.next <= |f|
  {
    var line := Line(f, p);
    if line == [] || line[0] != prefix then NoNumber
    else
      var v := Strtol(line, 1);
      if v.1 + 1 < |line| && line[v.1] == CR && line[v.1 + 1] == LF then Number(v.0, p + |line|) else NoNumber
  }

  /** readString: a length header, then that many bytes and a line end. */
  function ReadString(f: bytes, p: nat): (r: Text)
    ensures r.Text? ==> p < r.next <= |f|
  {
    if p > |f| then NoText
    else
      var h := ReadLong(f, p, DOLLAR);
      if h.NoNumber? || h.value < 0 || h.next + h.value + 2 > |f| then NoText
      else if f[h.next + h.value] != CR || f[h.next + h.value + 1] != LF then NoText
      else Text(f[h.next..h.next + h.value], h.next + h.value + 2)
  }

  /** The strings of one file, by position. */
  function Strings(f: bytes): nat -> Text { (p: nat) => ReadString(f, p) }

  function ReadArgs(strings: nat -> Text, p: nat, n: int, acc: Argv): (r: Command)
    ensures r.Command? ==> acc <= r.args
    decreases n
  {
    if n <= 0 then Command(acc, p)
    else
      var s := strings(p);
      if s.NoText? then NoCommand else ReadArgs(strings, s.next, n - 1, acc + [s.text])
  }

  lemma {:induction false} ReadArgsInFile(f: bytes, p: nat, n: int, acc: Argv)
    requires p <= |f|
    ensures ReadArgs(Strings(f), p, n, acc).Command? ==> p <= ReadArgs(Strings(f), p, n, acc).next <= |f|
    decreases n
  {
    if n > 0 && Strings(f)(p).Text? {
      ReadArgsInFile(f, Strings(f)(p).next, n - 1, acc + [Strings(f)(p).text]);
    }
  }

  /** The open transaction count after a command, or None where the checker stops. */
  function CountMulti(multi: int, args: Argv): Option<int> {
    if args == [] then Some(multi) else CountName(multi, args[0])
  }

  function CountName(multi: int, name: bytes): Option<int> {
    if IsMulti(name) then if multi != 0 then None else Some(multi + 1)
    else if IsExec(name) then if multi - 1 != 0 then None else Some(multi - 1)
    else Some(multi)
  }

  /** The command headers of one file, by position. */
  function Heads(f: bytes): nat -> Number {
    (p: nat) => if p > |f| then NoNumber else ReadLong(f, p, STAR)
  }

  /** A header and its arguments. */
  function ReadCommand(heads: nat -> Number, strings: nat -> Text, p: nat): Command {
    if heads(p).NoNumber? then NoCommand else ReadArgs(strings, heads(p).next, heads(p).value, [])
  }

  /** The commands of one file, by position. */
  function CommandsOf(f: bytes): nat -> Command {
    (p: nat) => ReadCommand(Heads(f), Strings(f), p)
  }

  lemma CommandsAdvance(f: bytes)
    ensures Advancing(CommandsOf(f), |f|)
  {
    forall p: nat | CommandsOf(f)(p).Command? ensures p < CommandsOf(f)(p).next <= |f| {
      var h := Heads(f)(p);
      ReadArgsInFile(f, h.next, h.value, []);
    }
  }

  ghost predicate Advancing(commands: nat -> Command, size: nat) {
    forall p: nat :: commands(p).Command? ==> p < commands(p).next <= size
  }

  /** What is left to do for the checker at position `p`; the result is the length it vouches for. */
  ghost function CheckFrom(commands: nat -> Command, size: nat, p: nat, multi: int, pos: nat): nat
    requires Advancing(commands, size)
    decreases size - p
  {
    var pos' := if multi == 0 then p else pos;
    var c := commands(p);
    if c.NoCommand? then pos'
    else
      var m := CountMulti(multi, c.args);
      if m.None? then pos' else CheckFrom(commands, size, c.next, m.value, pos')
  }

  ghost function Checked(f: bytes): nat {
    CommandsAdvance(f);
    CheckFrom(CommandsOf(f), |f|, 0, 0, 0)
  }

  /** MULTI opens a transaction that must not be open, EXEC closes one that must be. */
  method MoveMulti(was: int, name: bytes) returns (expected: bool, multi: int)
    ensures expected <==> CountName(was, name).Some?
    ensures expected ==> CountName(was, name) == Some(multi)
    ensures expected <==> !(IsMulti(name) && was != 0) && !(IsExec(name) && !IsMulti(name) && was != 1)
    ensures expected ==> multi == was + (if IsMulti(name) then 1 else if IsExec(name) then -1 else 0)
  {
    multi := was;
    if IsMulti(name) {
      multi := multi + 1;
      if was != 0 { return false, multi; }
    } else if IsExec(name) {
      multi := multi - 1;
      if multi != 0 { return false, multi; }
    }
    expected := true;
  }

  /** The argument loop of process(): the first argument moves the transaction count. */
  method CheckArguments(strings: nat -> Text, start: nat, argc: int, was: int)
    returns (complete: bool, q: nat, multi: int)
    ensures complete <==>
      ReadArgs(strings, start, argc, []).Command? && CountMulti(was, ReadArgs(strings, start, argc, []).args).Some?
    ensures complete ==>
      && q == ReadArgs(strings, start, argc, []).next
      && CountMulti(was, ReadArgs(strings, start, argc, []).args) == Some(multi)
  {
    q, multi := start, was;
    var i, left := 0, argc;
    ghost var args: Argv, goal := [], ReadArgs(strings, start, argc, []);
    while i < argc
      invariant 0 <= i == |args| && left == argc - i
      invariant goal == ReadArgs(strings, q, left, args)
      invariant if i == 0 then multi == was else CountName(was, args[0]) == Some(multi)
    {
      var str := strings(q);
      if str.NoText? { return false, q, multi; }
      ghost var args' := args + [str.text];
      assert args'[0] == if i == 0 then str.text else args[0];
      if i == 0 {
        var expected;
        expected, multi := MoveMulti(multi, str.text);
        if !expected { return false, q, multi; }
      }
      args, q, i, left := args', str.next, i + 1, left - 1;
    }
    complete := true;
  }

  /** process(): the loop of the checker. */
  method Process(f: bytes) returns (pos: nat)
    ensures pos == Checked(f)
  {
    var p, multi := 0, 0;
    pos := 0;
    ghost var commands := CommandsOf(f);
    CommandsAdvance(f);
    while true
      invariant p <= |f|
      invariant Checked(f) == CheckFrom(commands, |f|, p, multi, pos)
      decreases |f| - p
    {
      if multi == 0 { pos := p; }
      var head := ReadLong(f, p, STAR);
      assert commands(p) == ReadCommand(Heads(f), Strings(f), p) && Heads(f)(p) == head;
      if head.NoNumber? { break; }
      var complete, q, multi' := CheckArguments(Strings(f), head.next, head.value, multi);
      if !complete { break; }
      p, multi := q, multi';
    }
  }

  // ----------------------------------------------- checker: what it computes

  predicate WellFormed(cmd: Argv) {
    |cmd| >= 1 && FitsLine(|cmd|) && forall i :: 0 <= i < |cmd| ==> FitsLine(|cmd[i]|)
  }

  lemma ReadLongWhole(f: bytes, p: nat, prefix: byte, n: nat)
    requires At(f, p, Header(prefix, n)) && FitsLine(n) && prefix != LF
    ensures ReadLong(f, p, prefix) == Number(n, p + |Header(prefix, n)|)
  {
    HeaderLine(f, p, prefix, n);
  }

  lemma ReadLongCut(f: bytes, p: nat, prefix: byte, n: nat)
    requires CutIn(f, p, Header(prefix, n)) && FitsLine(n) && prefix != LF
    ensures ReadLong(f, p, prefix).NoNumber?
  {
    HeaderCutLine(f, p, prefix, n);
    assert forall k :: 0 <= k < |Line(f, p)| ==> Line(f, p)[k] == f[p + k];
  }

  lemma ReadStringWhole(f: bytes, p: nat, a: bytes)
    requires At(f, p, Bulk(a)) && FitsLine(|a|)
    ensures ReadString(f, p) == Text(a, p + |Bulk(a)|)
  {
    var h := Header(DOLLAR, |a|);
    assert Bulk(a) == h + (a + CRLF);
    AtSplit(f, p, h, a + CRLF);
    AtSplit(f, p + |h|, a, CRLF);
    ReadLongWhole(f, p, DOLLAR, |a|);
    var q := p + |h| + |a|;
    assert f[q..q + 2] == CRLF;
    assert f[q] == f[q..q + 2][0] && f[q + 1] == f[q..q + 2][1];
  }

  lemma ReadStringCut(f: bytes, p: nat, a: bytes)
    requires CutIn(f, p, Bulk(a)) && FitsLine(|a|)
    ensures ReadString(f, p).NoText?
  {
    var h := Header(DOLLAR, |a|);
    assert Bulk(a) == h + (a + CRLF);
    AtSplit(f, p, h, a + CRLF);
    if At(f, p, h) { ReadLongWhole(f, p, DOLLAR, |a|); } else { ReadLongCut(f, p, DOLLAR, |a|); }
  }

  /** Reading from `p` gives `args` one by one and ends at `q`. */
  predicate Yields(strings: nat -> Text, p: nat, args: Argv, q: nat)
    decreases |args|
  {
    if args == [] then p == q
    else strings(p).Text? && strings(p).text == args[0] && Yields(strings, strings(p).next, args[1..], q)
  }

  lemma {:induction false} ReadArgsYields(strings: nat -> Text, p: nat, args: Argv, q: nat, acc: Argv)
    requires Yields(strings, p, args, q)
    ensures ReadArgs(strings, p, |args|, acc) == Command(acc + args, q)
    decreases |args|
  {
    if args == [] {
      assert acc + args == acc;
    } else {
      ReadArgsYields(strings, strings(p).next, args[1..], q, acc + [args[0]]);
      assert acc + [args[0]] + args[1..] == acc + args;
    }
  }

  lemma {:induction false} ReadArgsStops(strings: nat -> Text, p: nat, args: Argv, q: nat, n: nat, acc: Argv)
    requires Yields(strings, p, args, q) && strings(q).NoText? && |args| < n
    ensures ReadArgs(strings, p, n, acc).NoCommand?
    decreases |args|
  {
    if args != [] { ReadArgsStops(strings, strings(p).next, args[1..], q, n - 1, acc + [args[0]]); }
  }

  /** `strings` reads the whole strings of `f` and refuses the one that `f` cuts. */
  ghost predicate ReadsStrings(strings: nat -> Text, f: bytes) {
    forall p: nat, a: bytes {:trigger At(f, p, Bulk(a))} :: FitsLine(|a|) ==>
      && (At(f, p, Bulk(a)) ==> strings(p) == Text(a, p + |Bulk(a)|))
      && (CutIn(f, p, Bulk(a)) ==> strings(p).NoText?)
  }

  lemma FileReadsStrings(f: bytes)
    ensures ReadsStrings(Strings(f), f)
  {
    forall p: nat, a: bytes | FitsLine(|a|)
      ensures At(f, p, Bulk(a)) ==> Strings(f)(p) == Text(a, p + |Bulk(a)|)
      ensures CutIn(f, p, Bulk(a)) ==> Strings(f)(p).NoText?
    {
      if At(f, p, Bulk(a)) { ReadStringWhole(f, p, a); }
      if CutIn(f, p, Bulk(a)) { ReadStringCut(f, p, a); }
    }
  }

  lemma {:induction false} BulksYield(strings: nat -> Text, f: bytes, p: nat, args: Argv) returns (k: nat, q: nat)
    requires ReadsStrings(strings, f)
    requires AtOrCut(f, p, Bulks(args)) && forall i :: 0 <= i < |args| ==> FitsLine(|args[i]|)
    ensures k <= |args| && Yields(strings, p, args[..k], q)
    ensures At(f, p, Bulks(args)) ==> k == |args| && q == p + |Bulks(args)|
    ensures !At(f, p, Bulks(args)) ==> k < |args| && strings(q).NoText?
    decreases |args|
  {
    k, q := 0, p;
    if args != [] {
      AtSplit(f, p, Bulk(args[0]), Bulks(args[1..]));
      if At(f, p, Bulk(args[0])) {
        k, q := BulksYield(strings, f, p + |Bulk(args[0])|, args[1..]);
        assert args[..k + 1][1..] == args[1..][..k];
        k := k + 1;
      }
    }
  }

  lemma ReadBody(strings: nat -> Text, f: bytes, p: nat, c: Argv)
    requires ReadsStrings(strings, f)
    requires AtOrCut(f, p, Bulks(c)) && forall i :: 0 <= i < |c| ==> FitsLine(|c[i]|)
    ensures At(f, p, Bulks(c)) ==> ReadArgs(strings, p, |c|, []) == Command(c, p + |Bulks(c)|)
    ensures !At(f, p, Bulks(c)) ==> ReadArgs(strings, p, |c|, []).NoCommand?
  {
    var k, q := BulksYield(strings, f, p, c);
    if k == |c| {
      assert c[..k] == c && [] + c == c;
      ReadArgsYields(strings, p, c, q, []);
    } else {
      ReadArgsStops(strings, p, c[..k], q, |c|, []);
    }
  }

  /** `commands` reads the whole commands of `f` and refuses the one that `f` cuts. */
  ghost predicate Reads(commands: nat -> Command, f: bytes) {
    forall p: nat, c: Argv {:trigger At(f, p, Encode(c))} :: WellFormed(c) ==>
      && (At(f, p, Encode(c)) ==> commands(p) == Command(c, p + |Encode(c)|))
      && (CutIn(f, p, Encode(c)) ==> commands(p).NoCommand?)
  }

  /** `heads` reads the whole command headers of `f` and refuses the one that `f` cuts. */
  ghost predicate ReadsHeads(heads: nat -> Number, f: bytes) {
    forall p: nat, n: nat {:trigger At(f, p, Header(STAR, n))} :: FitsLine(n) ==>
      && (At(f, p, Header(STAR, n)) ==> heads(p) == Number(n, p + |Header(STAR, n)|))
      && (CutIn(f, p, Header(STAR, n)) ==> heads(p).NoNumber?)
  }

  lemma FileReadsHeads(f: bytes)
    ensures ReadsHeads(Heads(f), f)
  {
    forall p: nat, n: nat | FitsLine(n)
      ensures At(f, p, Header(STAR, n)) ==> Heads(f)(p) == Number(n, p + |Header(STAR, n)|)
      ensures CutIn(f, p, Header(STAR, n)) ==> Heads(f)(p).NoNumber?
    {
      if At(f, p, Header(STAR, n)) { ReadLongWhole(f, p, STAR, n); }
      if CutIn(f, p, Header(STAR, n)) { ReadLongCut(f, p, STAR, n); }
    }
  }

  lemma ReadCommandAt(heads: nat -> Number, strings: nat -> Text, f: bytes, p: nat, c: Argv)
    requires ReadsHeads(heads, f) && ReadsStrings(strings, f)
    requires AtOrCut(f, p, Encode(c)) && WellFormed(c)
    ensures At(f, p, Encode(c)) ==> ReadCommand(heads, strings, p) == Command(c, p + |Encode(c)|)
    ensures !At(f, p, Encode(c)) ==> ReadCommand(heads, strings, p).NoCommand?
  {
    var h := Header(STAR, |c|);
    AtSplit(f, p, h, Bulks(c));
    if At(f, p, h) { ReadBody(strings, f, p + |h|, c); }
  }

  lemma FileReads(f: bytes)
    ensures Reads(CommandsOf(f), f)
  {
    FileReadsHeads(f);
    FileReadsStrings(f);
    CommandsRead(Heads(f), Strings(f), f, CommandsOf(f));
  }

  lemma CommandsRead(heads: nat -> Number, strings: nat -> Text, f: bytes, cs: nat -> Command)
    requires ReadsHeads(heads, f) && ReadsStrings(strings, f)
    requires forall p: nat :: cs(p) == ReadCommand(heads, strings, p)
    ensures Reads(cs, f)
  {
    forall p: nat, c: Argv | WellFormed(c)
      ensures At(f, p, Encode(c)) ==> cs(p) == Command(c, p + |Encode(c)|)
      ensures CutIn(f, p, Encode(c)) ==> cs(p).NoCommand?
    {
      if AtOrCut(f, p, Encode(c)) { ReadCommandAt(heads, strings, f, p, c); }
    }
  }

  // ------------------------------------------------------- top level units

  /** What a log is made of: plain commands and whole transactions. */
  datatype LogUnit = Plain(cmd: Argv) | Txn(begin: Argv, body: seq<Argv>, end: Argv)

  predicate PlainCommand(c: Argv) { WellFormed(c) && !IsMulti(c[0]) && !IsExec(c[0]) }

  predicate ValidUnit(u: LogUnit) {
    match u
    case Plain(c) => PlainCommand(c)
    case Txn(b, body, e) =>
      && WellFormed(b) && IsMulti(b[0]) && WellFormed(e) && IsExec(e[0])
      && forall i :: 0 <= i < |body| ==> PlainCommand(body[i])
  }

  function Commands(u: LogUnit): seq<Argv> {
    match u
    case Plain(c) => [c]
    case Txn(b, body, e) => [b] + body + [e]
  }

  function AllCommands(us: seq<LogUnit>): seq<Argv> {
    if us == [] then [] else Commands(us[0]) + AllCommands(us[1..])
  }

  function UnitLen(u: LogUnit): nat { |EncodeAll(Commands(u))| }

  function Lens(us: seq<LogUnit>): (ls: seq<nat>)
    ensures |ls| == |us|
  {
    if us == [] then [] else [UnitLen(us[0])] + Lens(us[1..])
  }

  function Sum(ls: seq<nat>): nat { if ls == [] then 0 else ls[0] + Sum(ls[1..]) }

  /** The total of the longest run of leading pieces that fits in `n`. */
  function Fitting(ls: seq<nat>, n: nat): nat {
    if ls == [] || ls[0] > n then 0 else ls[0] + Fitting(ls[1..], n - ls[0])
  }

  /** The length of the longest prefix of whole units within the first `n` bytes. */
  function WholeLen(us: seq<LogUnit>, n: nat): nat { Fitting(Lens(us), n) }

  lemma {:induction false} FittingAt(ls: seq<nat>, n: nat, j: nat)
    requires j <= |ls| && Sum(ls[..j]) <= n && (j < |ls| ==> Sum(ls[..j + 1]) > n)
    ensures Fitting(ls, n) == Sum(ls[..j])
    decreases |ls|
  {
    if j > 0 {
      assert ls[..j][1..] == ls[1..][..j - 1];
      if j < |ls| { assert ls[..j + 1][1..] == ls[1..][..j]; }
      FittingAt(ls[1..], n - ls[0], j - 1);
    } else if ls != [] {
      var one: seq<nat> := [ls[0]];
      assert ls[..1] == one && one[1..] == [];
    }
  }

  lemma {:induction false} FittingIsLongest(ls: seq<nat>, n: nat, k: nat)
    requires k <= |ls| && Sum(ls[..k]) <= n
    ensures Sum(ls[..k]) <= Fitting(ls, n) <= n
    decreases |ls|
  {
    if ls != [] && ls[0] <= n {
      if k > 0 { assert ls[..k][1..] == ls[1..][..k - 1]; }
      FittingIsLongest(ls[1..], n - ls[0], if k > 0 then k - 1 else 0);
    }
  }

  lemma {:induction false} LensPrefix(us: seq<LogUnit>, j: nat)
    requires j <= |us|
    ensures Lens(us)[..j] == Lens(us[..j])
    decreases |us|
  {
    if j > 0 {
      assert us[..j][1..] == us[1..][..j - 1];
      LensPrefix(us[1..], j - 1);
    }
  }

  lemma {:induction false} TextIsSum(us: seq<LogUnit>)
    ensures |EncodeAll(AllCommands(us))| == Sum(Lens(us))
    decreases |us|
  {
    if us != [] {
      EncodeAllConcat(Commands(us[0]), AllCommands(us[1..]));
      TextIsSum(us[1..]);
      assert Lens(us)[1..] == Lens(us[1..]);
    }
  }

  /** `WholeLen` is at most `n` and no shorter than any prefix of units that fits. */
  lemma WholeLenIsLongest(us: seq<LogUnit>, n: nat, k: nat)
    requires k <= |us| && |EncodeAll(AllCommands(us[..k]))| <= n
    ensures |EncodeAll(AllCommands(us[..k]))| <= WholeLen(us, n) <= n
  {
    TextIsSum(us[..k]);
    LensPrefix(us, k);
    FittingIsLongest(Lens(us), n, k);
  }

  /** It is the text of the first `j` units when the next one does not fit. */
  lemma WholeLenAt(us: seq<LogUnit>, n: nat, j: nat)
    requires j <= |us| && |EncodeAll(AllCommands(us[..j]))| <= n
    requires j < |us| ==> |EncodeAll(AllCommands(us[..j + 1]))| > n
    ensures WholeLen(us, n) == |EncodeAll(AllCommands(us[..j]))|
  {
    TextIsSum(us[..j]);
    LensPrefix(us, j);
    if j < |us| {
      TextIsSum(us[..j + 1]);
      LensPrefix(us, j + 1);
    }
    FittingAt(Lens(us), n, j);
  }

  lemma NamesDiffer(s: bytes)
    requires IsMulti(s)
    ensures !IsExec(s)
  {
    assert Lower(s[0]) == Lower(MULTI[0]);
  }

  // ------------------------------------------ from bytes to whole commands

  /** Reading from `p` gives the commands of `log` one by one and ends at `q`. */
  predicate Follows(cs: nat -> Command, p: nat, log: seq<Argv>, q: nat)
    decreases |log|
  {
    if log == [] then p == q
    else cs(p).Command? && cs(p).args == log[0] && Follows(cs, cs(p).next, log[1..], q)
  }

  lemma {:induction false} FollowsConcat(cs: nat -> Command, p: nat, a: seq<Argv>, b: seq<Argv>, q: nat) returns (m: nat)
    requires Follows(cs, p, a + b, q)
    ensures Follows(cs, p, a, m) && Follows(cs, m, b, q)
    decreases |a|
  {
    if a == [] {
      m := p;
      assert a + b == b;
    } else {
      assert (a + b)[1..] == a[1..] + b;
      m := FollowsConcat(cs, cs(p).next, a[1..], b, q);
    }
  }

  lemma {:induction false} FollowsUnique(cs: nat -> Command, p: nat, log: seq<Argv>, q: nat, q': nat)
    requires Follows(cs, p, log, q) && Follows(cs, p, log, q')
    ensures q == q'
    decreases |log|
  {
    if log != [] { FollowsUnique(cs, cs(p).next, log[1..], q, q'); }
  }

  /** A cut log reads as its `k` whole commands and then stops. */
  lemma {:induction false} ParseCut(cs: nat -> Command, f: bytes, p: nat, log: seq<Argv>) returns (k: nat, q: nat)
    requires Reads(cs, f) && AtOrCut(f, p, EncodeAll(log))
    requires forall i :: 0 <= i < |log| ==> WellFormed(log[i])
    ensures k <= |log| && Follows(cs, p, log[..k], q)
    ensures q == p + |EncodeAll(log[..k])| <= |f|
    ensures k < |log| ==> CutIn(f, q, Encode(log[k])) && cs(q).NoCommand?
    decreases |log|
  {
    k, q := 0, p;
    if log != [] {
      AtSplit(f, p, Encode(log[0]), EncodeAll(log[1..]));
      if At(f, p, Encode(log[0])) {
        k, q := ParseCut(cs, f, p + |Encode(log[0])|, log[1..]);
        assert log[..k + 1][1..] == log[1..][..k];
        k := k + 1;
      }
    }
  }

  // -------------------------------------------- the checker, command by command

  /** Inside a transaction with `k` of its remaining commands readable. */
  lemma {:induction false} CheckBody(cs: nat -> Command, size: nat, p: nat, rest: seq<Argv>, k: nat, q: nat, pos: nat)
    requires Advancing(cs, size) && k <= |rest| && |rest| >= 1
    requires Follows(cs, p, rest[..k], q) && (k < |rest| ==> cs(q).NoCommand?)
    requires WellFormed(rest[|rest| - 1]) && IsExec(rest[|rest| - 1][0])
    requires forall i :: 0 <= i < |rest| - 1 ==> PlainCommand(rest[i])
    ensures CheckFrom(cs, size, p, 1, pos) == if k == |rest| then CheckFrom(cs, size, q, 0, pos) else pos
    decreases |rest|
  {
    if k > 0 {
      assert rest[..k][1..] == rest[1..][..k - 1];
      if |rest| == 1 {
        if IsMulti(rest[0][0]) { NamesDiffer(rest[0][0]); }
      } else {
        CheckBody(cs, size, cs(p).next, rest[1..], k - 1, q, pos);
      }
    }
  }

  /** Over one unit if all its commands are readable, else stopped at its start. */
  lemma CheckUnit(cs: nat -> Command, size: nat, p: nat, u: LogUnit, k: nat, q: nat, pos: nat) returns (pos': nat)
    requires Advancing(cs, size) && ValidUnit(u) && k <= |Commands(u)|
    requires Follows(cs, p, Commands(u)[..k], q) && (k < |Commands(u)| ==> cs(q).NoCommand?)
    ensures CheckFrom(cs, size, p, 0, pos) ==
            if k == |Commands(u)| then CheckFrom(cs, size, q, 0, pos') else p
  {
    pos' := p;
    var all := Commands(u);
    if k > 0 {
      assert all[..k][1..] == all[1..][..k - 1];
      if u.Txn? {
        assert all[1..] == u.body + [u.end];
        CheckBody(cs, size, cs(p).next, all[1..], k - 1, q, p);
      }
    }
  }

  /** The first unit, if all its commands are readable. */
  lemma CheckFirst(cs: nat -> Command, size: nat, p: nat, u: LogUnit, rest: seq<Argv>, k: nat, q: nat, pos: nat)
    returns (m: nat, pos': nat)
    requires Advancing(cs, size) && ValidUnit(u) && |Commands(u)| <= k <= |Commands(u)| + |rest|
    requires Follows(cs, p, (Commands(u) + rest)[..k], q)
    ensures Follows(cs, p, Commands(u), m) && Follows(cs, m, rest[..k - |Commands(u)|], q)
    ensures CheckFrom(cs, size, p, 0, pos) == CheckFrom(cs, size, m, 0, pos')
  {
    var c := Commands(u);
    assert (c + rest)[..k] == c + rest[..k - |c|];
    m := FollowsConcat(cs, p, c, rest[..k - |c|], q);
    assert c[..|c|] == c;
    pos' := CheckUnit(cs, size, p, u, |c|, m, pos);
  }

  /** Over as many units as are readable in full: `j` of them. */
  lemma {:induction false} CheckUnits(cs: nat -> Command, size: nat, p: nat, us: seq<LogUnit>, k: nat, q: nat, pos: nat)
    returns (j: nat)
    requires Advancing(cs, size) && forall i :: 0 <= i < |us| ==> ValidUnit(us[i])
    requires k <= |AllCommands(us)| && Follows(cs, p, AllCommands(us)[..k], q) && cs(q).NoCommand?
    ensures j <= |us| && |AllCommands(us[..j])| <= k
    ensures j < |us| ==> k < |AllCommands(us[..j])| + |Commands(us[j])|
    ensures Follows(cs, p, AllCommands(us[..j]), CheckFrom(cs, size, p, 0, pos))
    decreases |us|
  {
    j := 0;
    assert us[..0] == [];
    if us != [] {
      var u, rest := Commands(us[0]), AllCommands(us[1..]);
      assert AllCommands(us) == u + rest;
      if k < |u| {
        assert (u + rest)[..k] == u[..k];
        var _ := CheckUnit(cs, size, p, us[0], k, q, pos);
      } else {
        var m, pos' := CheckFirst(cs, size, p, us[0], rest, k, q, pos);
        j := CheckUnits(cs, size, m, us[1..], k - |u|, q, pos');
        assert us[..j + 1][1..] == us[1..][..j];
        FollowsJoin(cs, p, u, m, AllCommands(us[1..][..j]), CheckFrom(cs, size, p, 0, pos));
        j := j + 1;
      }
    }
  }

  lemma {:induction false} FollowsJoin(cs: nat -> Command, p: nat, a: seq<Argv>, m: nat, b: seq<Argv>, q: nat)
    requires Follows(cs, p, a, m) && Follows(cs, m, b, q)
    ensures Follows(cs, p, a + b, q)
    decreases |a|
  {
    if a == [] {
      assert a + b == b;
    } else {
      FollowsJoin(cs, cs(p).next, a[1..], m, b, q);
      assert (a + b)[1..] == a[1..] + b;
    }
  }

  // ------------------------------------------------------ checker: the theorem

  lemma {:induction false} PrefixLen(log: seq<Argv>, i: nat, j: nat)
    requires i <= j <= |log|
    ensures |EncodeAll(log[..i])| <= |EncodeAll(log[..j])|
  {
    assert log[..j] == log[..i] + log[i..j];
    EncodeAllConcat(log[..i], log[i..j]);
  }

  lemma {:induction false} AllCommandsConcat(a: seq<LogUnit>, b: seq<LogUnit>)
    ensures AllCommands(a + b) == AllCommands(a) + AllCommands(b)
    decreases |a|
  {
    if a == [] {
      assert a + b == b;
    } else {
      assert (a + b)[1..] == a[1..] + b;
      AllCommandsConcat(a[1..], b);
    }
  }

  lemma AllCommandsPrefix(us: seq<LogUnit>, j: nat)
    requires j <= |us|
    ensures AllCommands(us[..j]) <= AllCommands(us)
  {
    assert us == us[..j] + us[j..];
    AllCommandsConcat(us[..j], us[j..]);
  }

  lemma AllCommandsSnoc(us: seq<LogUnit>, j: nat)
    requires j < |us|
    ensures AllCommands(us[..j + 1]) == AllCommands(us[..j]) + Commands(us[j])
  {
    var one: seq<LogUnit> := [us[j]];
    assert us[..j + 1] == us[..j] + one && one[1..] == [];
    AllCommandsConcat(us[..j], one);
    assert AllCommands(one) == Commands(us[j]) + [];
  }

  lemma {:induction false} AllWellFormed(us: seq<LogUnit>)
    requires forall i :: 0 <= i < |us| ==> ValidUnit(us[i])
    ensures forall i :: 0 <= i < |AllCommands(us)| ==> WellFormed(AllCommands(us)[i])
    decreases |us|
  {
    if us != [] {
      AllWellFormed(us[1..]);
      assert ValidUnit(us[0]);
    }
  }

  lemma EncodeAllSnoc(log: seq<Argv>, k: nat)
    requires k < |log|
    ensures EncodeAll(log[..k + 1]) == EncodeAll(log[..k]) + Encode(log[k])
  {
    var one: seq<Argv> := [log[k]];
    assert log[..k + 1] == log[..k] + one && one[1..] == [];
    EncodeAllConcat(log[..k], one);
    assert EncodeAll(one) == Encode(log[k]) + [];
  }

  /** Whole commands end where their text ends. */
  lemma {:induction false} FollowsText(cs: nat -> Command, f: bytes, p: nat, log: seq<Argv>)
    requires Reads(cs, f) && At(f, p, EncodeAll(log))
    requires forall i :: 0 <= i < |log| ==> WellFormed(log[i])
    ensures Follows(cs, p, log, p + |EncodeAll(log)|)
    decreases |log|
  {
    if log != [] {
      AtSplit(f, p, Encode(log[0]), EncodeAll(log[1..]));
      FollowsText(cs, f, p + |Encode(log[0])|, log[1..]);
    }
  }

  lemma PrefixAt(log: seq<Argv>, cut: nat, m: nat)
    requires m <= |log| && cut <= |EncodeAll(log)| && |EncodeAll(log[..m])| <= cut
    ensures At(EncodeAll(log)[..cut], 0, EncodeAll(log[..m]))
  {
    assert log == log[..m] + log[m..];
    EncodeAllConcat(log[..m], log[m..]);
  }

  lemma CutLog(log: seq<Argv>, cut: nat)
    requires cut <= |EncodeAll(log)|
    ensures AtOrCut(EncodeAll(log)[..cut], 0, EncodeAll(log))
  {
    var e := EncodeAll(log);
    assert e[..cut][0..] == e[..cut] && e[..|e|] == e;
  }

  /** The checker on any cut of any well formed log vouches for exactly the whole
      top level units: a transaction counts only with its EXEC. */
  lemma CheckerKeepsWholeUnits(us: seq<LogUnit>, cut: nat)
    requires forall i :: 0 <= i < |us| ==> ValidUnit(us[i])
    requires cut <= |EncodeAll(AllCommands(us))|
    ensures Checked(EncodeAll(AllCommands(us))[..cut]) == WholeLen(us, cut)
  {
    var f := EncodeAll(AllCommands(us))[..cut];
    FileReads(f);
    CommandsAdvance(f);
    CheckedIsWhole(CommandsOf(f), f, us, cut);
  }

  /** A prefix of the log that holds a command the cut does not. */
  lemma PrefixTooLong(log: seq<Argv>, a: seq<Argv>, k: nat, cut: nat)
    requires a <= log && k < |a| && cut < |EncodeAll(log[..k])| + |Encode(log[k])|
    ensures |EncodeAll(a)| > cut
  {
    EncodeAllSnoc(log, k);
    PrefixLen(log, k + 1, |a|);
    assert a == log[..|a|];
  }

  lemma CheckedPosition(cs: nat -> Command, f: bytes, log: seq<Argv>, cut: nat, m: nat, k: nat, r: nat)
    requires cut <= |EncodeAll(log)| && f == EncodeAll(log)[..cut] && m <= k <= |log|
    requires |EncodeAll(log[..k])| <= cut
    requires forall i :: 0 <= i < |log| ==> WellFormed(log[i])
    requires Reads(cs, f) && Follows(cs, 0, log[..m], r)
    ensures r == |EncodeAll(log[..m])| <= cut
  {
    PrefixLen(log, m, k);
    PrefixAt(log, cut, m);
    FollowsText(cs, f, 0, log[..m]);
    FollowsUnique(cs, 0, log[..m], |EncodeAll(log[..m])|, r);
  }

  lemma CheckedIsWhole(cs: nat -> Command, f: bytes, us: seq<LogUnit>, cut: nat)
    requires forall i :: 0 <= i < |us| ==> ValidUnit(us[i])
    requires cut <= |EncodeAll(AllCommands(us))| && f == EncodeAll(AllCommands(us))[..cut]
    requires Advancing(cs, |f|) && Reads(cs, f)
    ensures CheckFrom(cs, |f|, 0, 0, 0) == WholeLen(us, cut)
  {
    var log := AllCommands(us);
    CutLog(log, cut);
    AllWellFormed(us);
    var k, q := ParseCut(cs, f, 0, log);
    assert k == |log| ==> log[..k] == log;
    assert cs(q).NoCommand?;
    var j := CheckUnits(cs, |f|, 0, us, k, q, 0);
    AllCommandsPrefix(us, j);
    var m := |AllCommands(us[..j])|;
    assert AllCommands(us[..j]) == log[..m];
    CheckedPosition(cs, f, log, cut, m, k, CheckFrom(cs, |f|, 0, 0, 0));
    LastWholeUnit(us, log, cut, j, k);
  }

  /** The next unit is too long for the cut. */
  lemma LastWholeUnit(us: seq<LogUnit>, log: seq<Argv>, cut: nat, j: nat, k: nat)
    requires log == AllCommands(us) && j <= |us| && k <= |log| && |EncodeAll(AllCommands(us[..j]))| <= cut
    requires j < |us| ==> k < |AllCommands(us[..j])| + |Commands(us[j])|
    requires k < |log| ==> cut < |EncodeAll(log[..k])| + |Encode(log[k])|
    ensures WholeLen(us, cut) == |EncodeAll(AllCommands(us[..j]))|
  {
    if j < |us| {
      AllCommandsPrefix(us, j + 1);
      AllCommandsSnoc(us, j);
      PrefixTooLong(log, AllCommands(us[..j + 1]), k, cut);
    }
    WholeLenAt(us, cut, j);
  }
}
