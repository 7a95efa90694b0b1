/**
 The loader of the server: it runs every command it can read in full, and on a
 short read it cuts the file after the last of them.
 */
module AofLoader {
  import opened Basics
  import opened Resp
  import opened AofRecovery

  datatype Head = Head(argc: int, next: nat) | HeadEof | HeadShort | HeadBad
  datatype Arg = Arg(text: bytes, next: nat) | ArgShort | ArgBad
  datatype Loaded = Loaded(args: Argv, next: nat) | CleanEof | ShortRead | BadFormat

  /** The count line of a command. A lone star is a short read when the file ends there. */
  function LoadHead(f: bytes, p: nat): Head {
    if p >= |f| then HeadEof
    else
      var line := Line(f, p);
      if line == [] || line[0] != STAR then HeadBad
      else if |line| == 1 then HeadShort
      else if line[1] == 0 then
        if p + |line| == |f| && line[|line| - 1] != LF && |line| < LINE_ROOM then HeadShort else HeadBad
      else if Strtol(line, 1).0 < 1 then HeadBad
      else Head(Strtol(line, 1).0, p + |line|)
  }

  /** One argument: its length line, its bytes and two more, which are not looked at. */
  function LoadArg(f: bytes, p: nat): Arg {
    if p >= |f| then ArgShort
    else
      var line := Line(f, p);
      if line == [] || line[0] != DOLLAR then ArgBad
      else
        var len, q := Strtol(line, 1).0, p + |line|;
        if len < 0 then ArgBad
        else if q + len + 2 > |f| then ArgShort
        else Arg(f[q..q + len], q + len + 2)
  }

  function Heads(f: bytes): nat -> Head { (p: nat) => LoadHead(f, p) }

  function Arguments(f: bytes): nat -> Arg { (p: nat) => LoadArg(f, p) }

  function LoadArgs(strings: nat -> Arg, p: nat, n: int, acc: Argv): Loaded
    decreases n
  {
    if n <= 0 then Loaded(acc, p)
    else
      match strings(p)
      case ArgShort => ShortRead
      case ArgBad => BadFormat
      case Arg(text, next) => LoadArgs(strings, next, n - 1, acc + [text])
  }

  function LoadCommand(heads: nat -> Head, strings: nat -> Arg, p: nat): Loaded {
    match heads(p)
    case HeadEof => CleanEof
    case HeadShort => ShortRead
    case HeadBad => BadFormat
    case Head(argc, next) => LoadArgs(strings, next, argc, [])
  }

  function CommandsIn(f: bytes): nat -> Loaded {
    (p: nat) => LoadCommand(Heads(f), Arguments(f), p)
  }

  // ----------------------------------------------------------------- the loop

  const DISCARD: bytes := [100, 105, 115, 99, 97, 114, 100]

  /** The MULTI flag of the loading client after a command. */
  function MultiAfter(multi: bool, c: Argv): bool {
    if c == [] then multi
    else if IsMulti(c[0]) then true
    else if IsExec(c[0]) || SameName(c[0], DISCARD) then false
    else multi
  }

  /** How loading ends: at the end of the file, at a short read, or with the server exiting. */
  datatype Outcome = Whole(ran: seq<Argv>) | Short(ran: seq<Argv>, validUpTo: nat) | Fatal(ran: seq<Argv>)

  ghost predicate Moving(cs: nat -> Loaded, size: nat) {
    forall p: nat :: cs(p).Loaded? ==> p < cs(p).next <= size
  }

  ghost function LoadFrom(cs: nat -> Loaded, size: nat, p: nat, ran: seq<Argv>, multi: bool): Outcome
    requires Moving(cs, size)
    decreases size - p
  {
    match cs(p)
    case CleanEof => if multi then Short(ran, p) else Whole(ran)
    case ShortRead => Short(ran, p)
    case BadFormat => Fatal(ran)
    case Loaded(args, next) => LoadFrom(cs, size, next, ran + [args], MultiAfter(multi, args))
  }

  lemma {:induction false} LoadArgsInFile(f: bytes, p: nat, n: int, acc: Argv)
    requires p <= |f|
    ensures LoadArgs(Arguments(f), p, n, acc).Loaded? ==> p <= LoadArgs(Arguments(f), p, n, acc).next <= |f|
    decreases n
  {
    if n > 0 && Arguments(f)(p).Arg? {
      LoadArgsInFile(f, Arguments(f)(p).next, n - 1, acc + [Arguments(f)(p).text]);
    }
  }

  lemma CommandsMove(f: bytes)
    ensures Moving(CommandsIn(f), |f|)
  {
    forall p: nat | CommandsIn(f)(p).Loaded? ensures p < CommandsIn(f)(p).next <= |f| {
      var h := Heads(f)(p);
      LoadArgsInFile(f, h.next, h.argc, []);
    }
  }

  ghost function Load(f: bytes): Outcome {
    CommandsMove(f);
    LoadFrom(CommandsIn(f), |f|, 0, [], false)
  }

  method LoadArguments(strings: nat -> Arg, start: nat, argc: int) returns (r: Loaded)
    ensures r == LoadArgs(strings, start, argc, [])
  {
    var j, left, q, args: Argv := 0, argc, start, [];
    while j < argc
      invariant 0 <= j && left == argc - j
      invariant LoadArgs(strings, start, argc, []) == LoadArgs(strings, q, left, args)
    {
      match strings(q) {
        case ArgShort => return ShortRead;
        case ArgBad => return BadFormat;
        case Arg(text, next) =>
          args, q, j, left := args + [text], next, j + 1, left - 1;
      }
    }
    return Loaded(args, q);
  }

  /** The command loop: what was run, where it stopped, and why. */
  method LoadLoop(heads: nat -> Head, strings: nat -> Arg, ghost cs: nat -> Loaded, ghost size: nat)
    returns (r: Outcome)
    requires forall p: nat :: cs(p) == LoadCommand(heads, strings, p)
    requires Moving(cs, size)
    ensures r == LoadFrom(cs, size, 0, [], false)
  {
    var p, ran: seq<Argv>, multi := 0, [], false;
    while true
      invariant p <= size && LoadFrom(cs, size, 0, [], false) == LoadFrom(cs, size, p, ran, multi)
      decreases size - p
    {
      var head := heads(p);
      assert cs(p) == LoadCommand(heads, strings, p);
      if head.HeadEof? { break; }
      if head.HeadShort? { return Short(ran, p); }
      if head.HeadBad? { return Fatal(ran); }
      var c := LoadArguments(strings, head.next, head.argc);
      if c.ShortRead? { return Short(ran, p); }
      if !c.Loaded? {
        assert c.BadFormat? || c.CleanEof?;
        LoadArgsNotEof(strings, head.next, head.argc, []);
        return Fatal(ran);
      }
      ran, p, multi := ran + [c.args], c.next, MultiAfter(multi, c.args);
    }
    return if multi then Short(ran, p) else Whole(ran);
  }

  lemma {:induction false} LoadArgsNotEof(strings: nat -> Arg, p: nat, n: int, acc: Argv)
    ensures !LoadArgs(strings, p, n, acc).CleanEof?
    decreases n
  {
    if n > 0 && strings(p).Arg? { LoadArgsNotEof(strings, strings(p).next, n - 1, acc + [strings(p).text]); }
  }

  /** loadAppendOnlyFile: the commands it runs and the length it leaves the file
      with, or None when the server exits. */
  method LoadAppendOnlyFile(f: bytes, loadTruncated: bool) returns (ran: seq<Argv>, kept: Option<nat>)
    ensures f == [] ==> ran == [] && kept == Some(0)
    ensures f != [] ==>
      && ran == Load(f).ran
      && kept == match Load(f)
                 case Whole(_) => Some(|f|)
                 case Short(_, v) => if loadTruncated then Some(v) else None
                 case Fatal(_) => None
  {
    if |f| == 0 { return [], Some(0); }
    CommandsMove(f);
    var r := LoadLoop(Heads(f), Arguments(f), CommandsIn(f), |f|);
    ran := r.ran;
    match r {
      case Whole(_) => kept := Some(|f|);
      case Short(_, v) => kept := if loadTruncated then Some(v) else None;
      case Fatal(_) => kept := None;
    }
  }

  // ------------------------------------------------ readers on a cut file

  /** `strings` reads the whole arguments of `f`; at the one `f` cuts, and at the end, it comes up short. */
  ghost predicate ReadsArgs(strings: nat -> Arg, f: bytes) {
    && strings(|f|).ArgShort?
    && forall p: nat, a: bytes {:trigger At(f, p, Bulk(a))} :: FitsLine(|a|) ==>
         && (At(f, p, Bulk(a)) ==> strings(p) == Arg(a, p + |Bulk(a)|))
         && (CutIn(f, p, Bulk(a)) ==> strings(p).ArgShort?)
  }

  /** `heads` reads whole headers; a cut header gives a short read or a smaller count at the end of the file. */
  ghost predicate ReadsCounts(heads: nat -> Head, f: bytes) {
    && heads(|f|).HeadEof?
    && forall p: nat, n: nat {:trigger At(f, p, Header(STAR, n))} :: FitsLine(n) && n >= 1 ==>
         && (At(f, p, Header(STAR, n)) ==> heads(p) == Head(n, p + |Header(STAR, n)|))
         && (CutIn(f, p, Header(STAR, n)) && p < |f| ==>
               heads(p).HeadShort? || (heads(p).Head? && heads(p).argc >= 1 && heads(p).next == |f|))
  }

  lemma BulkParts(f: bytes, p: nat, h: bytes, a: bytes)
    requires At(f, p, h + (a + CRLF))
    ensures At(f, p, h) && p + |h| + |a| + 2 <= |f| && f[p + |h|..p + |h| + |a|] == a
  {
    AtSplit(f, p, h, a + CRLF);
    AtSplit(f, p + |h|, a, CRLF);
  }

  lemma ArgWhole(f: bytes, p: nat, a: bytes)
    requires At(f, p, Bulk(a)) && FitsLine(|a|)
    ensures LoadArg(f, p) == Arg(a, p + |Bulk(a)|)
  {
    var h := Header(DOLLAR, |a|);
    assert Bulk(a) == h + (a + CRLF);
    BulkParts(f, p, h, a);
    HeaderLine(f, p, DOLLAR, |a|);
    ArgRead(f, p, Line(f, p), |a|);
  }

  lemma ArgRead(f: bytes, p: nat, line: bytes, n: nat)
    requires p < |f| && line == Line(f, p) && line != [] && line[0] == DOLLAR && Strtol(line, 1).0 == n
    requires p + |line| + n + 2 <= |f|
    ensures LoadArg(f, p) == Arg(f[p + |line|..p + |line| + n], p + |line| + n + 2)
  {}

  lemma StrtolNonNegative(s: bytes, i: nat)
    requires i <= |s| && forall k :: i <= k < |s| ==> s[k] != MINUS
    ensures Strtol(s, i).0 >= 0
  {}

  lemma ArgCut(f: bytes, p: nat, a: bytes)
    requires CutIn(f, p, Bulk(a)) && FitsLine(|a|)
    ensures LoadArg(f, p).ArgShort?
  {
    var h := Header(DOLLAR, |a|);
    assert Bulk(a) == h + (a + CRLF);
    AtSplit(f, p, h, a + CRLF);
    if At(f, p, h) {
      HeaderLine(f, p, DOLLAR, |a|);
    } else if p < |f| {
      HeaderCutLine(f, p, DOLLAR, |a|);
      CutLine(f, p, DOLLAR, |a|);
      StrtolNonNegative(Line(f, p), 1);
    }
  }

  /** The line read from a cut header is a start of the header. */
  lemma CutLine(f: bytes, p: nat, prefix: byte, n: nat)
    requires CutIn(f, p, Header(prefix, n)) && p < |f| && LineLen(f, p, LINE_ROOM) == |f| - p
    ensures Line(f, p) == Header(prefix, n)[..|f| - p]
    ensures Line(f, p)[0] == prefix && p + |Line(f, p)| == |f|
    ensures forall k :: 1 <= k < |Line(f, p)| ==> IsDigit(Line(f, p)[k]) || Line(f, p)[k] == CR
    ensures |Line(f, p)| > 1 ==> Line(f, p)[1] == Decimal(n)[0]
  {
    DecimalDigits(n);
    var h := Header(prefix, n);
    assert f[p..|f|] == f[p..] == h[..|f| - p];
    assert forall k :: 1 <= k < |h| - 1 ==> h[k] == if k <= |Decimal(n)| then Decimal(n)[k - 1] else CR;
  }

  lemma {:induction false} LeadingDigit(n: nat)
    requires n >= 1
    ensures |Decimal(n)| >= 1 && Decimal(n)[0] != 48
    decreases n
  {
    DecimalDigits(n);
    if n >= 10 {
      LeadingDigit(n / 10);
      assert Decimal(n)[0] == Decimal(n / 10)[0];
    }
  }

  lemma {:induction false} DigitsGrow(s: bytes, i: nat, acc: nat)
    requires i <= |s|
    ensures Digits(s, i, acc).0 >= acc
    decreases |s| - i
  {
    if i < |s| && IsDigit(s[i]) { DigitsGrow(s, i + 1, acc * 10 + (s[i] - 48)); }
  }

  lemma HeadCut(f: bytes, p: nat, n: nat)
    requires CutIn(f, p, Header(STAR, n)) && FitsLine(n) && n >= 1 && p < |f|
    ensures var h := LoadHead(f, p); h.HeadShort? || (h.Head? && h.argc >= 1 && h.next == |f|)
  {
    HeaderCutLine(f, p, STAR, n);
    CutLine(f, p, STAR, n);
    LeadingDigit(n);
    DecimalDigits(n);
    var line := Line(f, p);
    if |line| > 1 {
      assert IsDigit(line[1]) && line[1] != 48;
      DigitsGrow(line, 2, line[1] - 48);
    }
  }

  lemma FileReadsArgs(f: bytes)
    ensures ReadsArgs(Arguments(f), f)
  {
    forall p: nat, a: bytes | FitsLine(|a|)
      ensures At(f, p, Bulk(a)) ==> Arguments(f)(p) == Arg(a, p + |Bulk(a)|)
      ensures CutIn(f, p, Bulk(a)) ==> Arguments(f)(p).ArgShort?
    {
      if At(f, p, Bulk(a)) { ArgWhole(f, p, a); }
      if CutIn(f, p, Bulk(a)) { ArgCut(f, p, a); }
    }
  }

  lemma HeadWhole(f: bytes, p: nat, n: nat)
    requires At(f, p, Header(STAR, n)) && FitsLine(n) && n >= 1
    ensures LoadHead(f, p) == Head(n, p + |Header(STAR, n)|)
  {
    HeaderLine(f, p, STAR, n);
    DecimalDigits(n);
    assert IsDigit(Header(STAR, n)[1]);
  }

  lemma FileReadsCounts(f: bytes)
    ensures ReadsCounts(Heads(f), f)
  {
    forall p: nat, n: nat | FitsLine(n) && n >= 1
      ensures At(f, p, Header(STAR, n)) ==> Heads(f)(p) == Head(n, p + |Header(STAR, n)|)
      ensures CutIn(f, p, Header(STAR, n)) && p < |f| ==>
        Heads(f)(p).HeadShort? || (Heads(f)(p).Head? && Heads(f)(p).argc >= 1 && Heads(f)(p).next == |f|)
    {
      if At(f, p, Header(STAR, n)) { HeadWhole(f, p, n); }
      if CutIn(f, p, Header(STAR, n)) && p < |f| { HeadCut(f, p, n); }
    }
  }

  // ------------------------------------------------- whole and cut commands

  lemma {:induction false} LoadBody(strings: nat -> Arg, f: bytes, p: nat, args: Argv, acc: Argv)
    requires ReadsArgs(strings, f)
    requires AtOrCut(f, p, Bulks(args)) && forall i :: 0 <= i < |args| ==> FitsLine(|args[i]|)
    ensures At(f, p, Bulks(args)) ==> LoadArgs(strings, p, |args|, acc) == Loaded(acc + args, p + |Bulks(args)|)
    ensures !At(f, p, Bulks(args)) ==> LoadArgs(strings, p, |args|, acc).ShortRead?
    decreases |args|
  {
    if args == [] {
      assert acc + args == acc;
    } else {
      AtSplit(f, p, Bulk(args[0]), Bulks(args[1..]));
      if At(f, p, Bulk(args[0])) {
        LoadBody(strings, f, p + |Bulk(args[0])|, args[1..], acc + [args[0]]);
        assert acc + [args[0]] + args[1..] == acc + args;
      }
    }
  }

  /** `cs` loads the whole commands of `f`, comes up short in a cut one and ends cleanly at the end. */
  ghost predicate LoadsFrom(cs: nat -> Loaded, f: bytes) {
    && cs(|f|).CleanEof?
    && forall p: nat, c: Argv {:trigger At(f, p, Encode(c))} :: WellFormed(c) ==>
         && (At(f, p, Encode(c)) ==> cs(p) == Loaded(c, p + |Encode(c)|))
         && (CutIn(f, p, Encode(c)) && p < |f| ==> cs(p).ShortRead?)
  }

  lemma LoadAt(heads: nat -> Head, strings: nat -> Arg, f: bytes, p: nat, c: Argv)
    requires ReadsCounts(heads, f) && ReadsArgs(strings, f)
    requires AtOrCut(f, p, Encode(c)) && WellFormed(c) && p < |f|
    ensures At(f, p, Encode(c)) ==> LoadCommand(heads, strings, p) == Loaded(c, p + |Encode(c)|)
    ensures !At(f, p, Encode(c)) ==> LoadCommand(heads, strings, p).ShortRead?
  {
    var h := Header(STAR, |c|);
    AtSplit(f, p, h, Bulks(c));
    if At(f, p, h) {
      LoadBody(strings, f, p + |h|, c, []);
      assert [] + c == c;
    }
  }

  lemma CommandsLoad(heads: nat -> Head, strings: nat -> Arg, f: bytes, cs: nat -> Loaded)
    requires ReadsCounts(heads, f) && ReadsArgs(strings, f)
    requires forall p: nat :: cs(p) == LoadCommand(heads, strings, p)
    ensures LoadsFrom(cs, f)
  {
    forall p: nat, c: Argv | WellFormed(c)
      ensures At(f, p, Encode(c)) ==> cs(p) == Loaded(c, p + |Encode(c)|)
      ensures CutIn(f, p, Encode(c)) && p < |f| ==> cs(p).ShortRead?
    {
      if AtOrCut(f, p, Encode(c)) && p < |f| { LoadAt(heads, strings, f, p, c); }
    }
  }

  lemma FileLoads(f: bytes)
    ensures LoadsFrom(CommandsIn(f), f)
  {
    FileReadsCounts(f);
    FileReadsArgs(f);
    CommandsLoad(Heads(f), Arguments(f), f, CommandsIn(f));
  }

  // ------------------------------------------------------------- the theorem

  function InMulti(multi: bool, log: seq<Argv>): bool
    decreases |log|
  {
    if log == [] then multi else InMulti(MultiAfter(multi, log[0]), log[1..])
  }

  function TextLens(log: seq<Argv>): (ls: seq<nat>)
    ensures |ls| == |log|
  {
    if log == [] then [] else [|Encode(log[0])|] + TextLens(log[1..])
  }

  function FittingCount(ls: seq<nat>, n: nat): (k: nat)
    ensures k <= |ls|
  {
    if ls == [] || ls[0] > n then 0 else 1 + FittingCount(ls[1..], n - ls[0])
  }

  /** How many leading commands are whole within the first `n` bytes. */
  function WholeCount(log: seq<Argv>, n: nat): (k: nat)
    ensures k <= |log|
  {
    FittingCount(TextLens(log), n)
  }

  lemma {:induction false} FittingCountAt(ls: seq<nat>, n: nat, k: nat)
    requires k <= |ls| && Sum(ls[..k]) <= n && (k < |ls| ==> n < Sum(ls[..k]) + ls[k])
    ensures FittingCount(ls, n) == k
    decreases |ls|
  {
    if k > 0 {
      assert ls[..k][1..] == ls[1..][..k - 1];
      FittingCountAt(ls[1..], n - ls[0], k - 1);
    }
  }

  lemma {:induction false} TextLensSum(log: seq<Argv>, k: nat)
    requires k <= |log|
    ensures Sum(TextLens(log)[..k]) == |EncodeAll(log[..k])|
    ensures k < |log| ==> TextLens(log)[k] == |Encode(log[k])|
    decreases |log|
  {
    if log != [] {
      var ls := TextLens(log);
      assert ls[1..] == TextLens(log[1..]);
      if k > 0 {
        TextLensSum(log[1..], k - 1);
        assert log[..k][1..] == log[1..][..k - 1];
        assert ls[..k][1..] == ls[1..][..k - 1];
      }
    }
  }

  /** The count is pinned down by the first command that does not fit. */
  lemma WholeCountAt(log: seq<Argv>, n: nat, k: nat)
    requires k <= |log| && |EncodeAll(log[..k])| <= n
    requires k < |log| ==> n < |EncodeAll(log[..k])| + |Encode(log[k])|
    ensures WholeCount(log, n) == k
  {
    TextLensSum(log, k);
    FittingCountAt(TextLens(log), n, k);
  }

  /** Loading from `p` gives the commands of `log` one by one and ends at `q`. */
  predicate Runs(cs: nat -> Loaded, p: nat, log: seq<Argv>, q: nat)
    decreases |log|
  {
    if log == [] then p == q
    else cs(p).Loaded? && cs(p).args == log[0] && Runs(cs, cs(p).next, log[1..], q)
  }

  lemma {:induction false} LoadRuns(cs: nat -> Loaded, size: nat, p: nat, log: seq<Argv>, q: nat, ran: seq<Argv>, multi: bool)
    requires Moving(cs, size) && Runs(cs, p, log, q)
    ensures LoadFrom(cs, size, p, ran, multi) == LoadFrom(cs, size, q, ran + log, InMulti(multi, log))
    decreases |log|
  {
    if log == [] {
      assert ran + log == ran;
    } else {
      LoadRuns(cs, size, cs(p).next, log[1..], q, ran + [log[0]], MultiAfter(multi, log[0]));
      assert ran + [log[0]] + log[1..] == ran + log;
    }
  }

  lemma ShortAt(cs: nat -> Loaded, f: bytes, p: nat, c: Argv)
    requires LoadsFrom(cs, f) && WellFormed(c) && CutIn(f, p, Encode(c)) && p < |f|
    ensures cs(p).ShortRead?
  {
    assert !At(f, p, Encode(c));
  }

  /** The first part is whole and the rest follows, or it is cut. */
  lemma PartOrCut(f: bytes, p: nat, x: bytes, y: bytes)
    requires AtOrCut(f, p, x + y)
    ensures if At(f, p, x) then AtOrCut(f, p + |x|, y) else p <= |f| && CutIn(f, p, x)
  {
    AtSplit(f, p, x, y);
  }

  /** A cut log loads as `k` whole commands, and then comes up short unless the text ends there. */
  lemma {:induction false} LoadCut(cs: nat -> Loaded, f: bytes, p: nat, log: seq<Argv>) returns (k: nat, q: nat)
    requires LoadsFrom(cs, f) && AtOrCut(f, p, EncodeAll(log))
    requires forall i :: 0 <= i < |log| ==> WellFormed(log[i])
    ensures k <= |log| && Runs(cs, p, log[..k], q)
    ensures q == p + |EncodeAll(log[..k])| <= |f|
    ensures k < |log| ==> CutIn(f, q, Encode(log[k])) && (q < |f| ==> cs(q).ShortRead?)
    decreases |log|
  {
    k, q := 0, p;
    assert log[..0] == [];
    if log != [] {
      PartOrCut(f, p, Encode(log[0]), EncodeAll(log[1..]));
      if At(f, p, Encode(log[0])) {
        k, q := LoadCut(cs, f, p + |Encode(log[0])|, log[1..]);
        OneMore(cs, f, p, log, k, q);
        k := k + 1;
      } else if p < |f| {
        ShortAt(cs, f, p, log[0]);
      }
    }
  }

  lemma OneMore(cs: nat -> Loaded, f: bytes, p: nat, log: seq<Argv>, k: nat, q: nat)
    requires LoadsFrom(cs, f) && log != [] && WellFormed(log[0]) && At(f, p, Encode(log[0]))
    requires k < |log| && Runs(cs, p + |Encode(log[0])|, log[1..][..k], q)
    ensures Runs(cs, p, log[..k + 1], q)
    ensures |EncodeAll(log[..k + 1])| == |Encode(log[0])| + |EncodeAll(log[1..][..k])|
  {
    assert log[..k + 1][1..] == log[1..][..k];
  }

  lemma LoadResult(cs: nat -> Loaded, f: bytes, log: seq<Argv>, cut: nat)
    requires Moving(cs, |f|) && LoadsFrom(cs, f) && |f| == cut
    requires AtOrCut(f, 0, EncodeAll(log)) && |EncodeAll(log)| >= |f|
    requires forall i :: 0 <= i < |log| ==> WellFormed(log[i])
    ensures var k := WholeCount(log, cut);
            var q := |EncodeAll(log[..k])|;
            LoadFrom(cs, |f|, 0, [], false) ==
              if q == cut && !InMulti(false, log[..k]) then Whole(log[..k]) else Short(log[..k], q)
  {
    var k, q := LoadCut(cs, f, 0, log);
    assert k == |log| ==> log[..k] == log;
    WholeCountAt(log, cut, k);
    LoadRuns(cs, |f|, 0, log[..k], q, [], false);
    assert [] + log[..k] == log[..k];
  }

  /** The loader on any cut of any well formed log runs exactly the commands that
      are whole and keeps exactly their text. Loading counts as a short read when
      the text does not end there, or a transaction is still open. */
  lemma LoaderRunsWholeCommands(log: seq<Argv>, cut: nat)
    requires forall i :: 0 <= i < |log| ==> WellFormed(log[i])
    requires cut <= |EncodeAll(log)|
    ensures var k := WholeCount(log, cut);
            var q := |EncodeAll(log[..k])|;
            Load(EncodeAll(log)[..cut]) ==
              if q == cut && !InMulti(false, log[..k]) then Whole(log[..k]) else Short(log[..k], q)
  {
    var f := EncodeAll(log)[..cut];
    FileLoads(f);
    CommandsMove(f);
    CutLog(log, cut);
    LoadResult(CommandsIn(f), f, log, cut);
  }

  /** An uncut log without transactions parses back to the printed commands. */
  lemma {:induction false} WholeLogLoads(log: seq<Argv>)
    requires forall i :: 0 <= i < |log| ==> PlainCommand(log[i])
    ensures Load(EncodeAll(log)) == Whole(log)
  {
    var e := EncodeAll(log);
    LoaderRunsWholeCommands(log, |e|);
    assert e[..|e|] == e;
    AllWhole(log);
    assert log[..|log|] == log;
    PlainStaysOut(log);
  }

  lemma AllWhole(log: seq<Argv>)
    ensures WholeCount(log, |EncodeAll(log)|) == |log|
  {
    assert log[..|log|] == log;
    WholeCountAt(log, |EncodeAll(log)|, |log|);
  }

  lemma {:induction false} PlainStaysOut(log: seq<Argv>)
    requires forall i :: 0 <= i < |log| ==> PlainCommand(log[i])
    ensures !InMulti(false, log)
    decreases |log|
  {
    if log != [] { PlainStaysOut(log[1..]); }
  }

  // --------------------------------------------- the loader and the checker

  predicate NoDiscard(c: Argv) { c == [] || !SameName(c[0], DISCARD) }

  /** A unit of a log the server writes: DISCARD is never logged. */
  predicate Loadable(u: LogUnit) {
    ValidUnit(u) && forall i :: 0 <= i < |Commands(u)| ==> NoDiscard(Commands(u)[i])
  }

  lemma {:induction false} InMultiConcat(multi: bool, a: seq<Argv>, b: seq<Argv>)
    ensures InMulti(multi, a + b) == InMulti(InMulti(multi, a), b)
    decreases |a|
  {
    if a == [] {
      assert a + b == b;
    } else {
      assert (a + b)[1..] == a[1..] + b;
      InMultiConcat(MultiAfter(multi, a[0]), a[1..], b);
    }
  }

  lemma {:induction false} BodyStaysIn(body: seq<Argv>)
    requires forall i :: 0 <= i < |body| ==> PlainCommand(body[i]) && NoDiscard(body[i])
    ensures InMulti(true, body)
    decreases |body|
  {
    if body != [] { BodyStaysIn(body[1..]); }
  }

  /** Part of a unit leaves a transaction open exactly when it is a proper, non empty part. */
  lemma UnitInMulti(u: LogUnit, d: nat)
    requires Loadable(u) && d <= |Commands(u)|
    ensures InMulti(false, Commands(u)[..d]) <==> 0 < d < |Commands(u)|
  {
    var cs := Commands(u);
    if d > 0 {
      match u
      case Plain(c) => assert cs[..d] == [c];
      case Txn(b, body, e) =>
        var n := if d < |cs| then d - 1 else |body|;
        var one: seq<Argv>, end: seq<Argv> := [b], if d < |cs| then [] else [e];
        assert cs[..d] == one + (body[..n] + end);
        InMultiConcat(false, one, body[..n] + end);
        InMultiConcat(true, body[..n], end);
        forall i | 0 <= i < |body| ensures NoDiscard(body[i]) { assert cs[i + 1] == body[i]; }
        BodyStaysIn(body[..n]);
        if IsMulti(e[0]) { NamesDiffer(e[0]); }
    }
  }

  lemma {:induction false} UnitsCloseAll(us: seq<LogUnit>)
    requires forall i :: 0 <= i < |us| ==> Loadable(us[i])
    ensures !InMulti(false, AllCommands(us))
    decreases |us|
  {
    if us != [] {
      var u := Commands(us[0]);
      UnitInMulti(us[0], |u|);
      assert u[..|u|] == u;
      InMultiConcat(false, u, AllCommands(us[1..]));
      UnitsCloseAll(us[1..]);
    }
  }

  /** The unit in which the first `k` commands end. */
  lemma {:induction false} Locate(us: seq<LogUnit>, k: nat) returns (j: nat)
    requires k <= |AllCommands(us)|
    ensures j <= |us| && |AllCommands(us[..j])| <= k
    ensures j < |us| ==> k < |AllCommands(us[..j])| + |Commands(us[j])|
    ensures j == |us| ==> k == |AllCommands(us)|
    decreases |us|
  {
    j := 0;
    assert us[..0] == [];
    if us != [] && |Commands(us[0])| <= k {
      j := Locate(us[1..], k - |Commands(us[0])|);
      assert us[..j + 1][1..] == us[1..][..j];
      j := j + 1;
      assert us[..|us|] == us;
    }
  }

  /** The commands before position `k`: whole units and part of the next. */
  lemma SplitAt(us: seq<LogUnit>, j: nat, k: nat)
    requires j < |us| && |AllCommands(us[..j])| <= k <= |AllCommands(us[..j])| + |Commands(us[j])|
    requires k <= |AllCommands(us)|
    ensures AllCommands(us)[..k] == AllCommands(us[..j]) + Commands(us[j])[..k - |AllCommands(us[..j])|]
  {
    AllCommandsPrefix(us, j + 1);
    AllCommandsSnoc(us, j);
    TakeFrom(AllCommands(us), AllCommands(us[..j]), Commands(us[j]), k);
  }

  lemma TakeFrom(all: seq<Argv>, a: seq<Argv>, b: seq<Argv>, k: nat)
    requires a + b <= all && |a| <= k <= |a| + |b|
    ensures all[..k] == a + b[..k - |a|]
  {}

  lemma OpenAt(us: seq<LogUnit>, j: nat, k: nat)
    requires j < |us| && |AllCommands(us[..j])| <= k < |AllCommands(us[..j])| + |Commands(us[j])|
    requires k <= |AllCommands(us)| && forall i :: 0 <= i < |us| ==> Loadable(us[i])
    ensures InMulti(false, AllCommands(us)[..k]) <==> |AllCommands(us[..j])| < k
  {
    var a := AllCommands(us[..j]);
    var part := Commands(us[j])[..k - |a|];
    SplitAt(us, j, k);
    InMultiConcat(false, a, part);
    UnitsCloseAll(us[..j]);
    UnitInMulti(us[j], k - |a|);
  }

  lemma LongerText(log: seq<Argv>, m: nat, k: nat)
    requires m < k <= |log|
    ensures |EncodeAll(log[..m])| < |EncodeAll(log[..k])|
  {
    EncodeAllSnoc(log, m);
    PrefixLen(log, m + 1, k);
  }

  /** The two lengths, for `k` whole commands of which `m` make whole units. */
  lemma SameLength(us: seq<LogUnit>, log: seq<Argv>, cut: nat, j: nat, m: nat, k: nat)
    requires log == AllCommands(us) && j <= |us| && m <= k <= |log| && AllCommands(us[..j]) == log[..m]
    requires |EncodeAll(log[..k])| <= cut
    requires j < |us| ==>
      && AllCommands(us[..j + 1]) <= log && k < |AllCommands(us[..j + 1])|
      && cut < |EncodeAll(log[..k])| + |Encode(log[k])|
    ensures |EncodeAll(log[..k])| == WholeLen(us, cut) <==> m == k
  {
    PrefixLen(log, m, k);
    if j < |us| { PrefixTooLong(log, AllCommands(us[..j + 1]), k, cut); }
    WholeLenAt(us, cut, j);
    if m < k { LongerText(log, m, k); }
  }

  /** The length the loader leaves a file with, when it may cut. */
  ghost function Kept(f: bytes): Option<nat> {
    match Load(f)
    case Whole(_) => Some(|f|)
    case Short(_, v) => Some(v)
    case Fatal(_) => None
  }

  lemma KeptOfCut(log: seq<Argv>, cut: nat)
    requires forall i :: 0 <= i < |log| ==> WellFormed(log[i])
    requires cut <= |EncodeAll(log)|
    ensures Kept(EncodeAll(log)[..cut]) == Some(|EncodeAll(log[..WholeCount(log, cut)])|)
  {
    LoaderRunsWholeCommands(log, cut);
  }

  lemma SameLengthIff(us: seq<LogUnit>, cut: nat)
    requires forall i :: 0 <= i < |us| ==> Loadable(us[i])
    ensures var log := AllCommands(us);
            var k := WholeCount(log, cut);
            |EncodeAll(log[..k])| == WholeLen(us, cut) <==> !InMulti(false, log[..k])
  {
    var log := AllCommands(us);
    var k := WholeCount(log, cut);
    WholeCountBounds(log, cut);
    var j := Locate(us, k);
    OpenIff(us, j, k);
    UnitEnds(us, j);
    SameLength(us, log, cut, j, |AllCommands(us[..j])|, k);
  }

  /** Where the first units end in the commands of all. */
  lemma UnitEnds(us: seq<LogUnit>, j: nat)
    requires j <= |us|
    ensures |AllCommands(us[..j])| <= |AllCommands(us)|
    ensures AllCommands(us)[..|AllCommands(us[..j])|] == AllCommands(us[..j])
    ensures j < |us| ==> AllCommands(us[..j + 1]) <= AllCommands(us)
                         && |AllCommands(us[..j + 1])| == |AllCommands(us[..j])| + |Commands(us[j])|
  {
    AllCommandsPrefix(us, j);
    if j < |us| {
      AllCommandsPrefix(us, j + 1);
      AllCommandsSnoc(us, j);
    }
  }

  /** A transaction is open exactly when commands follow the last whole unit. */
  lemma OpenIff(us: seq<LogUnit>, j: nat, k: nat)
    requires forall i :: 0 <= i < |us| ==> Loadable(us[i])
    requires j <= |us| && |AllCommands(us[..j])| <= k <= |AllCommands(us)|
    requires if j < |us| then k < |AllCommands(us[..j])| + |Commands(us[j])| else k == |AllCommands(us)|
    ensures InMulti(false, AllCommands(us)[..k]) <==> |AllCommands(us[..j])| < k
  {
    if j < |us| {
      OpenAt(us, j, k);
    } else {
      UnitsCloseAll(us);
      assert AllCommands(us)[..k] == AllCommands(us) && us[..j] == us;
    }
  }

  /** Loader and checker keep the same length of a cut log exactly when the whole
      commands left do not end inside a transaction: the loader keeps the started
      transaction, the checker drops it. */
  lemma LoaderAgreesWithChecker(us: seq<LogUnit>, cut: nat)
    requires forall i :: 0 <= i < |us| ==> Loadable(us[i])
    requires cut <= |EncodeAll(AllCommands(us))|
    ensures var log := AllCommands(us);
            var f := EncodeAll(log)[..cut];
            Kept(f) == Some(Checked(f)) <==> !InMulti(false, log[..WholeCount(log, cut)])
  {
    AllWellFormed(us);
    KeptOfCut(AllCommands(us), cut);
    CheckerKeepsWholeUnits(us, cut);
    SameLengthIff(us, cut);
  }

  lemma OneWhole(log: seq<Argv>)
    requires |log| >= 2
    ensures |Encode(log[0])| <= |EncodeAll(log)| && WholeCount(log, |Encode(log[0])|) == 1
    ensures log[..1] == [log[0]] && |EncodeAll(log[..1])| == |Encode(log[0])|
  {
    EncodeAllSnoc(log, 0);
    EncodeAllSnoc(log, 1);
    assert log[..0] == [] && log[..1] == [log[0]];
    PrefixLen(log, 1, 2);
    PrefixLen(log, 2, |log|);
    assert log[..|log|] == log;
    WholeCountAt(log, |Encode(log[0])|, 1);
  }

  /** A log cut behind the MULTI of its first transaction: the loader keeps the MULTI, the
      checker nothing. */
  lemma CutBehindMulti(b: Argv, body: seq<Argv>, e: Argv, log: seq<Argv>)
    requires Loadable(Txn(b, body, e)) && log == [b] + body + [e]
    ensures |Encode(b)| <= |EncodeAll(log)|
    ensures var f := EncodeAll(log)[..|Encode(b)|]; Kept(f) == Some(|Encode(b)|) && Checked(f) == 0
  {
    var us := [Txn(b, body, e)];
    assert us[1..] == [] && AllCommands(us) == log + [] == log && log[0] == b;
    AllWellFormed(us);
    OneWhole(log);
    KeptOfCut(log, |Encode(b)|);
    CheckerKeepsWholeUnits(us, |Encode(b)|);
    NoneFits(us, |Encode(b)|);
  }

  lemma NoneFits(us: seq<LogUnit>, cut: nat)
    requires us != [] && |EncodeAll(Commands(us[0]))| > cut
    ensures WholeLen(us, cut) == 0
  {}

  lemma {:induction false} FittingCountBounds(ls: seq<nat>, n: nat)
    ensures var k := FittingCount(ls, n); Sum(ls[..k]) <= n && (k < |ls| ==> n < Sum(ls[..k]) + ls[k])
    decreases |ls|
  {
    if ls != [] && ls[0] <= n {
      var k := FittingCount(ls, n);
      FittingCountBounds(ls[1..], n - ls[0]);
      assert ls[..k][1..] == ls[1..][..k - 1];
    }
  }

  lemma WholeCountBounds(log: seq<Argv>, n: nat)
    ensures var k := WholeCount(log, n);
            && |EncodeAll(log[..k])| <= n
            && (k < |log| ==> n < |EncodeAll(log[..k])| + |Encode(log[k])|)
  {
    FittingCountBounds(TextLens(log), n);
    TextLensSum(log, WholeCount(log, n));
  }
}
