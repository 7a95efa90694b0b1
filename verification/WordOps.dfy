/** The bitwise operations of the server, on bytes and on words of eight. */
module WordOps {
  import opened Bitop

  function And8(a: bv8, b: bv8): bv8 { a & b }
  function Or8(a: bv8, b: bv8): bv8 { a | b }
  function Xor8(a: bv8, b: bv8): bv8 { a ^ b }
  function Not8(a: bv8): bv8 { !a }
  function And64(a: bv64, b: bv64): bv64 { a & b }
  function Or64(a: bv64, b: bv64): bv64 { a | b }
  function Xor64(a: bv64, b: bv64): bv64 { a ^ b }
  function Not64(a: bv64): bv64 { !a }

  function Load(x: bv64, y: bv8): bv64 { (x << 8) | (y as bv64) }

  function ByteOp(op: Op, a: bv8, b: bv8): bv8 {
    match op case And => And8(a, b) case Or => Or8(a, b) case Xor => Xor8(a, b) case Not => a
  }

  function WordOp(op: Op, a: bv64, b: bv64): bv64 {
    match op case And => And64(a, b) case Or => Or64(a, b) case Xor => Xor64(a, b) case Not => a
  }

  function BytesOf(w: bv64): seq<bv8> {
    [(w & 0xff) as bv8, ((w >> 8) & 0xff) as bv8, ((w >> 16) & 0xff) as bv8, ((w >> 24) & 0xff) as bv8,
     ((w >> 32) & 0xff) as bv8, ((w >> 40) & 0xff) as bv8, ((w >> 48) & 0xff) as bv8, ((w >> 56) & 0xff) as bv8]
  }

  function Server(): Ops<bv8, bv64> { Ops(0, ByteOp, Not8, 0, Load, WordOp, Not64, BytesOf) }

  lemma AndLoad(x: bv64, y: bv8, u: bv64, v: bv8)
    ensures And64(Load(x, y), Load(u, v)) == Load(And64(x, u), And8(y, v))
  {}

  lemma OrLoad(x: bv64, y: bv8, u: bv64, v: bv8)
    ensures Or64(Load(x, y), Load(u, v)) == Load(Or64(x, u), Or8(y, v))
  {}

  lemma XorLoad(x: bv64, y: bv8, u: bv64, v: bv8)
    ensures Xor64(Load(x, y), Load(u, v)) == Load(Xor64(x, u), Xor8(y, v))
  {}

  lemma FlipShifted(x: bv64, y: bv8)
    ensures !((x << 8) | (y as bv64)) == ((!x) << 8) | ((!y) as bv64)
  {}

  lemma NotLoad(x: bv64, y: bv8, r: bv64)
    requires r == Load(x, y)
    ensures Not64(r) == Load(Not64(x), Not8(y))
  {
    FlipShifted(x, y);
    assert Not64(x) == !x;
    assert Not8(y) == !y;
  }

  lemma OpLoad(op: Op, x: bv64, y: bv8, u: bv64, v: bv8)
    ensures WordOp(op, Load(x, y), Load(u, v)) == Load(WordOp(op, x, u), ByteOp(op, y, v))
  {
    match op
    case And => AndLoad(x, y, u, v);
    case Or => OrLoad(x, y, u, v);
    case Xor => XorLoad(x, y, u, v);
    case Not =>
  }

  lemma ServerLoad(op: Op, x: bv64, y: bv8, u: bv64, v: bv8)
    ensures LoadLaw(Server(), op, x, y, u, v)
  {
    OpLoad(op, x, y, u, v);
    NotLoad(x, y, Load(x, y));
  }

  function Word64(x: bv64, a: bv8, b: bv8, c: bv8, d: bv8, e: bv8, f: bv8, g: bv8, h: bv8): bv64 {
    Load(Load(Load(Load(Load(Load(Load(Load(x, a), b), c), d), e), f), g), h)
  }

  /** Eight loads leave nothing of what was there, and the bytes can be taken out again. */
  lemma BytesBack(x: bv64, a: bv8, b: bv8, c: bv8, d: bv8, e: bv8, f: bv8, g: bv8, h: bv8)
    ensures BytesOf(Word64(x, a, b, c, d, e, f, g, h)) == [h, g, f, e, d, c, b, a]
  {}

  lemma ServerBytes(x: bv64, t: seq<bv8>)
    ensures BytesLaw(Server(), x, t)
  {
    if |t| == 8 {
      BytesBack(x, t[7], t[6], t[5], t[4], t[3], t[2], t[1], t[0]);
      assert t == [t[0], t[1], t[2], t[3], t[4], t[5], t[6], t[7]];
    }
  }

  lemma ServerLawful()
    ensures Lawful(Server())
  {
    forall op: Op, x: bv64, y: bv8, u: bv64, v: bv8 ensures LoadLaw(Server(), op, x, y, u, v) { ServerLoad(op, x, y, u, v); }
    forall x: bv64, t: seq<bv8> ensures BytesLaw(Server(), x, t) { ServerBytes(x, t); }
  }
}
