/**
 The footer of a DUMP payload: two bytes of version and eight of CRC-64.
 */
module DumpPayload {
  import opened Crc
  import opened CrcBits

  /** How a payload is checked: its checksum, the bytes of a checksum, and the versions that may be read. */
  datatype Format<!T, !B> = Format(crc: seq<B> -> T, print_: T -> seq<B>, readable: (B, B) -> bool)

  predicate Accepts<T, B(==)>(f: Format<T, B>, p: seq<B>) {
    && |p| >= 10
    && f.readable(p[|p| - 10], p[|p| - 9])
    && f.print_(f.crc(p[..|p| - 8])) == p[|p| - 8..]
  }

  function Payload<T, B>(f: Format<T, B>, body: seq<B>, v0: B, v1: B): seq<B> {
    var p := body + [v0, v1];
    p + f.print_(f.crc(p))
  }

  /** The checksum sees every change of one byte. */
  ghost predicate Sees<T, B>(crc: seq<B> -> T, s: seq<B>, k: nat, b: B) {
    k < |s| && b != s[k] ==> crc(s[k := b]) != crc(s)
  }

  ghost predicate Sound<T(!new), B(!new)>(f: Format<T, B>) {
    && (forall s: seq<B>, k: nat, b: B {:trigger Sees(f.crc, s, k, b)} :: Sees(f.crc, s, k, b))
    && (forall c: T {:trigger f.print_(c)} :: |f.print_(c)| == 8)
    && (forall c: T, d: T {:trigger f.print_(c), f.print_(d)} :: f.print_(c) == f.print_(d) ==> c == d)
  }

  lemma BuiltIsAccepted<T(!new), B(!new)>(f: Format<T, B>, body: seq<B>, v0: B, v1: B)
    requires Sound(f) && f.readable(v0, v1)
    ensures Accepts(f, Payload(f, body, v0, v1))
  {
    var p, q := body + [v0, v1], Payload(f, body, v0, v1);
    assert q[..|q| - 8] == p && q[|q| - 8..] == f.print_(f.crc(p));
    assert q[|q| - 10] == v0 && q[|q| - 9] == v1;
  }

  lemma ChangedIsRefused<T(!new), B(!new)>(f: Format<T, B>, body: seq<B>, v0: B, v1: B, k: nat, b: B)
    requires Sound(f) && k < |Payload(f, body, v0, v1)| && b != Payload(f, body, v0, v1)[k]
    ensures !Accepts(f, Payload(f, body, v0, v1)[k := b])
  {
    var p, q := body + [v0, v1], Payload(f, body, v0, v1);
    var r := q[k := b];
    assert |r| == |p| + 8;
    if k < |p| {
      assert r[..|p|] == p[k := b] && r[|p|..] == f.print_(f.crc(p));
      assert Sees(f.crc, p, k, b);
    } else {
      assert r[..|p|] == p && r[|p|..] == f.print_(f.crc(p))[k - |p| := b];
      assert r[|p|..][k - |p|] == b;
    }
  }

  // ------------------------------------------------------------ this format

  const RDB_VERSION: bv16 := 8

  function Crc64(s: seq<bv8>): bv64 { Divide(Ops64(), 0, s) }

  /** memcpy of a checksum on a little endian machine. */
  function Little(c: bv64): seq<bv8> {
    [(c & 0xff) as bv8, ((c >> 8) & 0xff) as bv8, ((c >> 16) & 0xff) as bv8, ((c >> 24) & 0xff) as bv8,
     ((c >> 32) & 0xff) as bv8, ((c >> 40) & 0xff) as bv8, ((c >> 48) & 0xff) as bv8, ((c >> 56) & 0xff) as bv8]
  }

  /** The version, low byte first, is not newer than this server's. */
  predicate Readable(v0: bv8, v1: bv8) { ((v1 as bv16) << 8) | (v0 as bv16) <= RDB_VERSION }

  function Dump(): Format<bv64, bv8> { Format(Crc64, Little, Readable) }

  lemma BytesDiffer(c: bv64, d: bv64)
    requires (c & 0xff) as bv8 == (d & 0xff) as bv8 && ((c >> 8) & 0xff) as bv8 == ((d >> 8) & 0xff) as bv8
    requires ((c >> 16) & 0xff) as bv8 == ((d >> 16) & 0xff) as bv8 && ((c >> 24) & 0xff) as bv8 == ((d >> 24) & 0xff) as bv8
    requires ((c >> 32) & 0xff) as bv8 == ((d >> 32) & 0xff) as bv8 && ((c >> 40) & 0xff) as bv8 == ((d >> 40) & 0xff) as bv8
    requires ((c >> 48) & 0xff) as bv8 == ((d >> 48) & 0xff) as bv8 && ((c >> 56) & 0xff) as bv8 == ((d >> 56) & 0xff) as bv8
    ensures c == d
  {}

  lemma LittleInjective(c: bv64, d: bv64)
    requires Little(c) == Little(d)
    ensures c == d
  {
    var a, b := Little(c), Little(d);
    assert a[0] == b[0] && a[1] == b[1] && a[2] == b[2] && a[3] == b[3];
    assert a[4] == b[4] && a[5] == b[5] && a[6] == b[6] && a[7] == b[7];
    BytesDiffer(c, d);
  }

  /** The lowest byte comes first. */
  lemma LittleIs(c: bv64)
    ensures var l := Little(c);
            && |l| == 8
            && c == (l[0] as bv64) | ((l[1] as bv64) << 8) | ((l[2] as bv64) << 16) | ((l[3] as bv64) << 24)
                  | ((l[4] as bv64) << 32) | ((l[5] as bv64) << 40) | ((l[6] as bv64) << 48) | ((l[7] as bv64) << 56)
  {
    Recombined(c);
  }

  lemma Recombined(c: bv64)
    ensures c == (((c & 0xff) as bv8) as bv64) | ((((c >> 8) & 0xff) as bv8 as bv64) << 8)
               | ((((c >> 16) & 0xff) as bv8 as bv64) << 16) | ((((c >> 24) & 0xff) as bv8 as bv64) << 24)
               | ((((c >> 32) & 0xff) as bv8 as bv64) << 32) | ((((c >> 40) & 0xff) as bv8 as bv64) << 40)
               | ((((c >> 48) & 0xff) as bv8 as bv64) << 48) | ((((c >> 56) & 0xff) as bv8 as bv64) << 56)
  {}

  lemma CrcSees(s: seq<bv8>, k: nat, b: bv8)
    ensures Sees(Dump().crc, s, k, b)
  {
    if k < |s| && b != s[k] {
      Reversible64();
      OneByteDetected(Ops64(), 0, s, k, b);
    }
  }

  lemma DumpSound()
    ensures Sound(Dump())
  {
    forall s: seq<bv8>, k: nat, b: bv8 ensures Sees(Dump().crc, s, k, b) { CrcSees(s, k, b); }
    forall c: bv64, d: bv64 | Dump().print_(c) == Dump().print_(d) ensures c == d { LittleInjective(c, d); }
  }

  // -------------------------------------------------------------- the methods

  method ServerCrc64(s: seq<bv8>) returns (crc: bv64)
    ensures crc == Crc64(s)
  {
    Laws64();
    crc := Checksum(Ops64(), 0, s);
  }

  /** createDumpPayload after the object has been serialized into `body`. */
  method CreateDumpPayload(body: seq<bv8>) returns (p: seq<bv8>)
    ensures p == Payload(Dump(), body, 8, 0)
    ensures p == body + [8, 0] + Little(Crc64(body + [8, 0]))
  {
    p := body + [(RDB_VERSION & 0xff) as bv8, ((RDB_VERSION >> 8) & 0xff) as bv8];
    var crc := ServerCrc64(p);
    p := p + Little(crc);
  }

  /** verifyDumpPayload. */
  method VerifyDumpPayload(p: seq<bv8>) returns (ok: bool)
    ensures ok == Accepts(Dump(), p)
    ensures ok <==>
      && |p| >= 10 && ((p[|p| - 9] as bv16) << 8) | (p[|p| - 10] as bv16) <= 8
      && Little(Crc64(p[..|p| - 8])) == p[|p| - 8..]
  {
    if |p| < 10 { return false; }
    var footer := p[|p| - 10..];
    if ((footer[1] as bv16) << 8) | (footer[0] as bv16) > RDB_VERSION { return false; }
    var crc := ServerCrc64(p[..|p| - 8]);
    return Little(crc) == footer[2..];
  }

  /** A payload is accepted as it was built, and refused once any one byte of it, in the body,
      the version or the checksum, is changed. */
  lemma PayloadGuardsItself(body: seq<bv8>, k: nat, b: bv8)
    ensures Accepts(Dump(), Payload(Dump(), body, 8, 0))
    ensures k < |Payload(Dump(), body, 8, 0)| && b != Payload(Dump(), body, 8, 0)[k] ==>
            !Accepts(Dump(), Payload(Dump(), body, 8, 0)[k := b])
  {
    DumpSound();
    BuiltIsAccepted(Dump(), body, 8, 0);
    var p := Payload(Dump(), body, 8, 0);
    if k < |p| && b != p[k] { ChangedIsRefused(Dump(), body, 8, 0, k, b); }
  }
}
