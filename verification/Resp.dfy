/**
 The text format of the append only file, and the C library reads used on it.

 A command is a sequence of byte strings. It is printed as "*<count>CRLF" and
 then, for every argument, "$<length>CRLF<bytes>CRLF".
 */
module Resp {
  type byte = b: int | 0 <= b < 256
  type bytes = seq<byte>
  type Argv = seq<bytes>

  const CR: byte := 13
  const LF: byte := 10
  const CRLF: bytes := [13, 10]
  const STAR: byte := 42
  const DOLLAR: byte := 36
  const MINUS: byte := 45

  lemma Regroup(a: bytes, b: bytes, c: bytes)
    ensures a + (b + c) == (a + b) + c
  {}

  // ----------------------------------------------------------------- numbers

  /** ll2string on a non-negative number. */
  function Decimal(n: nat): bytes {
    if n < 10 then [48 + n] else Decimal(n / 10) + [48 + n % 10]
  }

  function PrintInt(n: int): bytes {
    if n < 0 then [MINUS] + Decimal(-n) else Decimal(n)
  }

  predicate IsDigit(b: byte) { 48 <= b <= 57 }

  predicate IsSpace(b: byte) { b == 32 || 9 <= b <= 13 }

  function SkipSpaces(s: bytes, i: nat): (j: nat)
    requires i <= |s|
    ensures i <= j <= |s|
    decreases |s| - i
  {
    if i < |s| && IsSpace(s[i]) then SkipSpaces(s, i + 1) else i
  }

  function Digits(s: bytes, i: nat, acc: nat): (r: (nat, nat))
    requires i <= |s|
    ensures i <= r.1 <= |s|
    decreases |s| - i
  {
    if i < |s| && IsDigit(s[i]) then Digits(s, i + 1, acc * 10 + (s[i] - 48)) else (acc, i)
  }

  /** strtol in base ten: the value and where it stopped. Nothing parsed gives zero at the start. */
  function Strtol(s: bytes, i: nat): (r: (int, nat))
    requires i <= |s|
    ensures i <= r.1 <= |s|
  {
    var j := SkipSpaces(s, i);
    var neg := j < |s| && s[j] == MINUS;
    var k := if j < |s| && (s[j] == MINUS || s[j] == 43) then j + 1 else j;
    var (v, e) := Digits(s, k, 0);
    var value: int := v;
    if e == k then (0, i) else (if neg then -value else value, e)
  }

  function Fold(ds: bytes, acc: nat): nat
    requires forall i :: 0 <= i < |ds| ==> IsDigit(ds[i])
  {
    if ds == [] then acc else assert IsDigit(ds[0]); Fold(ds[1..], acc * 10 + (ds[0] - 48))
  }

  lemma {:induction false} DecimalDigits(n: nat)
    ensures |Decimal(n)| >= 1
    ensures forall i :: 0 <= i < |Decimal(n)| ==> IsDigit(Decimal(n)[i])
    decreases n
  {
    if n >= 10 { DecimalDigits(n / 10); }
  }

  lemma {:induction false} FoldSnoc(ds: bytes, d: byte, acc: nat)
    requires forall i :: 0 <= i < |ds| ==> IsDigit(ds[i])
    requires IsDigit(d)
    ensures Fold(ds + [d], acc) == Fold(ds, acc) * 10 + (d - 48)
    decreases |ds|
  {
    if ds != [] {
      assert (ds + [d])[1..] == ds[1..] + [d];
      FoldSnoc(ds[1..], d, acc * 10 + (ds[0] - 48));
    }
  }

  lemma {:induction false} FoldDecimal(n: nat)
    ensures forall i :: 0 <= i < |Decimal(n)| ==> IsDigit(Decimal(n)[i])
    ensures Fold(Decimal(n), 0) == n
    decreases n
  {
    DecimalDigits(n);
    if n >= 10 {
      FoldDecimal(n / 10);
      FoldSnoc(Decimal(n / 10), 48 + n % 10, 0);
    }
  }

  lemma {:induction false} DigitsRun(s: bytes, i: nat, j: nat, acc: nat)
    requires i <= j <= |s|
    requires forall k :: i <= k < j ==> IsDigit(s[k])
    requires j < |s| ==> !IsDigit(s[j])
    ensures Digits(s, i, acc) == (Fold(s[i..j], acc), j)
    decreases j - i
  {
    if i < j {
      assert s[i..j][1..] == s[i + 1..j];
      DigitsRun(s, i + 1, j, acc * 10 + (s[i] - 48));
    }
  }

  /** Reading a printed number back gives the number. */
  lemma StrtolDecimal(pre: bytes, n: nat, rest: bytes)
    requires rest == [] || !IsDigit(rest[0])
    ensures Strtol(pre + Decimal(n) + rest, |pre|) == (n, |pre| + |Decimal(n)|)
  {
    var s, i, j := pre + Decimal(n) + rest, |pre|, |pre| + |Decimal(n)|;
    FoldDecimal(n);
    DecimalDigits(n);
    assert s[i..j] == Decimal(n);
    assert forall k :: i <= k < j ==> s[k] == Decimal(n)[k - i];
    assert j < |s| ==> s[j] == rest[0];
    DigitsRun(s, i, j, 0);
  }

  function ParseInt(s: bytes): int { Strtol(s, 0).0 }

  lemma ParsePrintInt(n: int)
    ensures ParseInt(PrintInt(n)) == n
  {
    if n < 0 {
      StrtolDecimal([MINUS], -n, []);
      var s := PrintInt(n);
      assert s == [MINUS] + Decimal(-n) + [];
      DecimalDigits(-n);
      FoldDecimal(-n);
      assert s[1..|s|] == Decimal(-n);
      assert forall k :: 1 <= k < |s| ==> s[k] == Decimal(-n)[k - 1];
      DigitsRun(s, 1, |s|, 0);
    } else {
      StrtolDecimal([], n, []);
      assert PrintInt(n) == [] + Decimal(n) + [];
    }
  }

  // ---------------------------------------------------------------- printing

  function Header(prefix: byte, n: nat): bytes { [prefix] + Decimal(n) + CRLF }

  function Bulk(a: bytes): bytes { Header(DOLLAR, |a|) + a + CRLF }

  function Bulks(args: Argv): bytes {
    if args == [] then [] else Bulk(args[0]) + Bulks(args[1..])
  }

  function Encode(cmd: Argv): bytes { Header(STAR, |cmd|) + Bulks(cmd) }

  function EncodeAll(log: seq<Argv>): bytes {
    if log == [] then [] else Encode(log[0]) + EncodeAll(log[1..])
  }

  lemma {:induction false} BulksSnoc(args: Argv, a: bytes)
    ensures Bulks(args + [a]) == Bulks(args) + Bulk(a)
    decreases |args|
  {
    if args == [] {
      assert [a][1..] == [];
    } else {
      assert (args + [a])[1..] == args[1..] + [a];
      BulksSnoc(args[1..], a);
    }
  }

  lemma {:induction false} EncodeAllConcat(a: seq<Argv>, b: seq<Argv>)
    ensures EncodeAll(a + b) == EncodeAll(a) + EncodeAll(b)
    decreases |a|
  {
    if a == [] {
      assert a + b == b;
    } else {
      assert (a + b)[1..] == a[1..] + b;
      EncodeAllConcat(a[1..], b);
    }
  }

  /** One argument of a command. */
  method CatArgument(dst: bytes, arg: bytes) returns (r: bytes)
    ensures r == dst + Bulk(arg)
  {
    r := dst + Header(DOLLAR, |arg|);
    r := r + arg;
    r := r + CRLF;
  }

  /** catAppendOnlyGenericCommand: append one printed command to a buffer. */
  lemma OneMoreBulk(pre: bytes, argv: Argv, j: nat)
    requires j < |argv|
    ensures (pre + Bulks(argv[..j])) + Bulk(argv[j]) == pre + Bulks(argv[..j + 1])
  {
    BulksSnoc(argv[..j], argv[j]);
    assert argv[..j] + [argv[j]] == argv[..j + 1];
  }

  method CatGenericCommand(dst: bytes, argv: Argv) returns (r: bytes)
    ensures r == dst + Encode(argv)
  {
    r := dst + Header(STAR, |argv|);
    ghost var pre := r;
    var j := 0;
    while j < |argv|
      invariant 0 <= j <= |argv|
      invariant r == pre + Bulks(argv[..j])
    {
      OneMoreBulk(pre, argv, j);
      r := CatArgument(r, argv[j]);
      j := j + 1;
    }
    assert argv[..|argv|] == argv;
    Regroup(dst, Header(STAR, |argv|), Bulks(argv));
  }

  // ----------------------------------------------------------------- reading

  /** How many bytes fgets takes into a 128 byte buffer from position `p`. */
  function LineLen(f: bytes, p: nat, room: nat): (n: nat)
    ensures n <= room && (p <= |f| ==> p + n <= |f|)
    decreases room
  {
    if room == 0 || p >= |f| then 0
    else if f[p] == LF then 1
    else 1 + LineLen(f, p + 1, room - 1)
  }

  const LINE_ROOM: nat := 127

  function Line(f: bytes, p: nat): bytes
    requires p <= |f|
  {
    f[p..p + LineLen(f, p, LINE_ROOM)]
  }

  /** The number fits in the line buffer, as every 64 bit length does. */
  predicate FitsLine(n: nat) { |Decimal(n)| <= 100 }

  lemma {:induction false} DecimalWidth(n: nat, k: nat, bound: nat)
    requires n < bound && k >= 1 && bound == Pow10(k)
    ensures |Decimal(n)| <= k
    decreases k
  {
    if n >= 10 {
      assert Pow10(1) == 10 * Pow10(0);
      DecimalWidth(n / 10, k - 1, Pow10(k - 1));
    }
  }

  function Pow10(k: nat): (r: nat)
    ensures r >= 1
  {
    if k == 0 then 1 else 10 * Pow10(k - 1)
  }

  /** Every length a 64 bit server can print fits. */
  lemma SixtyFourBitFits(n: nat)
    requires n < 0x8000_0000_0000_0000
    ensures FitsLine(n)
  {
    assert Pow10(4) == 10000;
    assert Pow10(8) == 100000000;
    assert Pow10(12) == 1000000000000;
    assert Pow10(16) == 10000000000000000;
    assert Pow10(20) == 100000000000000000000;
    DecimalWidth(n, 20, Pow10(20));
  }

  /** `s` is at `p`. */
  predicate At(f: bytes, p: nat, s: bytes) {
    p + |s| <= |f| && f[p..p + |s|] == s
  }

  /** The file ends at a point where `s` has started and not finished. */
  predicate CutIn(f: bytes, p: nat, s: bytes) {
    p <= |f| < p + |s| && f[p..] == s[..|f| - p]
  }

  /** Either all of `s` is at `p` or the file is cut in it. */
  predicate AtOrCut(f: bytes, p: nat, s: bytes) { At(f, p, s) || CutIn(f, p, s) }

  lemma AtSplit(f: bytes, p: nat, a: bytes, b: bytes)
    requires AtOrCut(f, p, a + b)
    ensures At(f, p, a) ==> AtOrCut(f, p + |a|, b)
    ensures !At(f, p, a) ==> CutIn(f, p, a)
    ensures At(f, p, a + b) <==> At(f, p, a) && At(f, p + |a|, b)
  {
    var s := a + b;
    assert s[..|a|] == a && s[|a|..] == b;
    if At(f, p, s) {
      assert f[p..p + |a|] == f[p..p + |s|][..|a|];
      assert f[p + |a|..p + |s|] == f[p..p + |s|][|a|..];
    } else {
      var n := |f| - p;
      if n >= |a| {
        assert f[p..p + |a|] == f[p..][..|a|] == s[..n][..|a|] == a;
        assert f[p + |a|..] == f[p..][|a|..] == s[..n][|a|..] == b[..n - |a|];
      } else {
        assert s[..n] == a[..n];
      }
    }
  }

  lemma {:induction false} LineLenTo(f: bytes, p: nat, q: nat, room: nat)
    requires p <= q < |f| && f[q] == LF && q - p < room
    requires forall k :: p <= k < q ==> f[k] != LF
    ensures LineLen(f, p, room) == q - p + 1
    decreases q - p
  {
    if p < q { LineLenTo(f, p + 1, q, room - 1); }
  }

  lemma {:induction false} LineLenEof(f: bytes, p: nat, room: nat)
    requires p <= |f| && |f| - p <= room
    requires forall k :: p <= k < |f| ==> f[k] != LF
    ensures LineLen(f, p, room) == |f| - p
    decreases room
  {
    if p < |f| { LineLenEof(f, p + 1, room - 1); }
  }

  /** fgets on a whole header reads exactly the header. */
  lemma HeaderLine(f: bytes, p: nat, prefix: byte, n: nat)
    requires At(f, p, Header(prefix, n)) && FitsLine(n) && prefix != LF
    ensures Line(f, p) == Header(prefix, n)
    ensures Strtol(Line(f, p), 1) == (n, 1 + |Decimal(n)|)
  {
    var h := Header(prefix, n);
    DecimalDigits(n);
    assert forall k :: p <= k < p + |h| ==> f[k] == h[k - p];
    LineLenTo(f, p, p + |h| - 1, LINE_ROOM);
    StrtolDecimal([prefix], n, CRLF);
  }

  /** fgets on a header the file cuts reads what is left, up to the end of the file. */
  lemma HeaderCutLine(f: bytes, p: nat, prefix: byte, n: nat)
    requires CutIn(f, p, Header(prefix, n)) && FitsLine(n) && prefix != LF
    ensures LineLen(f, p, LINE_ROOM) == |f| - p
    ensures forall k :: p <= k < |f| ==> f[k] != LF
  {
    var h := Header(prefix, n);
    DecimalDigits(n);
    assert forall k :: p <= k < |f| ==> f[k] == f[p..][k - p] == h[k - p];
    LineLenEof(f, p, LINE_ROOM);
  }
}
