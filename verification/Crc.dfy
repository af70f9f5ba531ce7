/** The table-driven CRC-64 of a buffer, what it computes bit by bit, and its laws. */
module Crc {
  import opened CrcTable
  import opened Folds
  import opened Xors

  /** The CRC of a buffer, from a given register on. */
  function Crc64(crc: bv64, s: seq<bv8>): bv64 {
    Fold(Byte, crc, s)
  }

  // ---------------------------------------------------------------- the loop over a buffer

  function LowByte(c: bv64): bv8 {
    (c & 0xff) as bv8
  }

  /** What one look into the table makes of the register. */
  function TableByte(c: bv64, b: bv8): bv64 {
    Xor(TableAt(LowByte(c) ^ b), c >> 8)
  }

  lemma Split(c: bv64, b: bv8)
    ensures Xor(c, b as bv64) == Xor((LowByte(c) ^ b) as bv64, c & 0xffffffffffffff00)
    ensures (c & 0xffffffffffffff00) & 0xff == 0 && (c & 0xffffffffffffff00) >> 8 == c >> 8
  {
  }

  lemma HighPart(hi: bv64)
    requires hi & 0xff == 0
    ensures Iter(Step, hi, 8) == hi >> 8
  {
  }

  /** One look into the table does the work of eight steps. */
  lemma ByteByTable(c: bv64, b: bv8)
    ensures TableByte(c, b) == Byte(c, b)
  {
    Split(c, b);
    var hi, lo := c & 0xffffffffffffff00, LowByte(c) ^ b;
    TableRight(lo);
    HighPart(hi);
    IterLinear(lo as bv64, hi, 8);
  }

  lemma OneMore(c: bv64, s: seq<bv8>, j: nat)
    requires j < |s|
    ensures Crc64(c, s[j..]) == Crc64(Byte(c, s[j]), s[j + 1..])
  {
  }

  method HashCrc64(crc: bv64, s: seq<bv8>) returns (r: bv64)
    ensures r == Crc64(crc, s)
  {
    r := crc;
    for j := 0 to |s|
      invariant Crc64(r, s[j..]) == Crc64(crc, s)
    {
      OneMore(r, s, j);
      ByteByTable(r, s[j]);
      r := TableByte(r, s[j]);
    }
  }

  // ---------------------------------------------------------------- laws

  /** A buffer may be hashed in pieces. */
  lemma Concat(crc: bv64, a: seq<bv8>, b: seq<bv8>)
    ensures Crc64(crc, a + b) == Crc64(Crc64(crc, a), b)
  {
    FoldConcat(Byte, crc, a, b);
  }

  lemma ByteLinear(u: bv64, v: bv64, d: bv8, e: bv8)
    ensures Byte(Xor(u, v), XorByte(d, e)) == Xor(Byte(u, d), Byte(v, e))
  {
    Rearrange(u, v, d, e);
    IterLinear(Xor(u, d as bv64), Xor(v, e as bv64), 8);
  }

  /** The CRC is linear in the register and the buffer together. */
  lemma Linear(c: bv64, d: bv64, a: seq<bv8>, b: seq<bv8>)
    requires |a| == |b|
    ensures Crc64(Xor(c, d), Zip(XorByte, a, b)) == Xor(Crc64(c, a), Crc64(d, b))
  {
    forall u, v, x, y ensures Byte(Xor(u, v), XorByte(x, y)) == Xor(Byte(u, x), Byte(v, y)) {
      ByteLinear(u, v, x, y);
    }
    FoldHom(Byte, Xor, XorByte, c, d, a, b);
  }

  // ---------------------------------------------------------------- one bit at a time

  /** Takes one bit into the register and divides. */
  function BitIn(c: bv64, bit: bool): bv64 {
    Step(Xor(c, if bit then 1 else 0))
  }

  /** The low bits of a word, the lowest first. */
  function BitsOf(z: bv64, n: nat): seq<bool>
    decreases n
  {
    if n == 0 then [] else [z & 1 == 1] + BitsOf(z >> 1, n - 1)
  }

  function Drop(z: bv64, n: nat): bv64
    decreases n
  {
    if n == 0 then z else Drop(z >> 1, n - 1)
  }

  function AllBits(s: seq<bv8>): seq<bool> {
    if s == [] then [] else BitsOf(s[0] as bv64, 8) + AllBits(s[1..])
  }

  lemma LowBitOut(r: bv64, z: bv64)
    ensures Xor(r, z) == Xor(Xor(r, if z & 1 == 1 then 1 else 0), z & 0xfffffffffffffffe)
    ensures Step(z & 0xfffffffffffffffe) == z >> 1
  {
  }

  lemma BitStep(r: bv64, z: bv64)
    ensures Step(Xor(r, z)) == Xor(BitIn(r, z & 1 == 1), z >> 1)
  {
    LowBitOut(r, z);
    StepLinear(Xor(r, if z & 1 == 1 then 1 else 0), z & 0xfffffffffffffffe);
  }

  lemma {:induction false} IterIsBits(c: bv64, z: bv64, n: nat)
    ensures Iter(Step, Xor(c, z), n) == Xor(Fold(BitIn, c, BitsOf(z, n)), Drop(z, n))
    decreases n
  {
    if n > 0 {
      BitStep(c, z);
      IterIsBits(BitIn(c, z & 1 == 1), z >> 1, n - 1);
    }
  }

  lemma NothingLeft(b: bv8, x: bv64)
    ensures Drop(b as bv64, 8) == 0 && Xor(x, 0) == x
  {
  }

  lemma ByteIsBits(c: bv64, b: bv8)
    ensures Byte(c, b) == Fold(BitIn, c, BitsOf(b as bv64, 8))
  {
    IterIsBits(c, b as bv64, 8);
    NothingLeft(b, Fold(BitIn, c, BitsOf(b as bv64, 8)));
  }

  /** For every buffer the CRC is the division of its bits, one by one, the lowest of each byte first. */
  lemma {:induction false} DividesBits(crc: bv64, s: seq<bv8>)
    ensures Crc64(crc, s) == Fold(BitIn, crc, AllBits(s))
    decreases |s|
  {
    if s != [] {
      ByteIsBits(crc, s[0]);
      FoldConcat(BitIn, crc, BitsOf(s[0] as bv64, 8), AllBits(s[1..]));
      DividesBits(Byte(crc, s[0]), s[1..]);
    }
  }

  // ---------------------------------------------------------------- errors that are always seen

  lemma StepInjective(x: bv64, y: bv64)
    ensures Step(x) == Step(y) ==> x == y
  {
  }

  lemma XorCancels(x: bv64, y: bv64, b: bv8, d: bv8)
    ensures Xor(x, b as bv64) == Xor(y, b as bv64) ==> x == y
    ensures Xor(x, b as bv64) == Xor(x, d as bv64) ==> b == d
  {
  }

  lemma EightInjective(x: bv64, y: bv64)
    ensures Iter(Step, x, 8) == Iter(Step, y, 8) ==> x == y
  {
    forall u, v ensures Step(u) == Step(v) ==> u == v {
      StepInjective(u, v);
    }
    IterInjective(Step, x, y, 8);
  }

  lemma ByteInjective(x: bv64, y: bv64, b: bv8, d: bv8)
    ensures Byte(x, b) == Byte(y, b) ==> x == y
    ensures Byte(x, b) == Byte(x, d) ==> b == d
  {
    EightInjective(Xor(x, b as bv64), Xor(y, b as bv64));
    EightInjective(Xor(x, b as bv64), Xor(x, d as bv64));
    XorCancels(x, y, b, d);
  }

  /** Two buffers that differ in one byte only never have the same CRC. */
  lemma OneByteSeen(crc: bv64, a: seq<bv8>, b: bv8, d: bv8, s: seq<bv8>)
    ensures Crc64(crc, a + [b] + s) == Crc64(crc, a + [d] + s) ==> b == d
  {
    Concat(crc, a + [b], s);
    Concat(crc, a + [d], s);
    Concat(crc, a, [b]);
    Concat(crc, a, [d]);
    var x := Crc64(crc, a);
    OneByte(x, b);
    OneByte(x, d);
    forall u, v, e ensures Byte(u, e) == Byte(v, e) ==> u == v {
      ByteInjective(u, v, e, e);
    }
    FoldInjective(Byte, Byte(x, b), Byte(x, d), s);
    ByteInjective(x, x, b, d);
  }

  lemma OneByte(x: bv64, b: bv8)
    ensures Crc64(x, [b]) == Byte(x, b)
  {
    OneMore(x, [b], 0);
  }

  // ---------------------------------------------------------------- the known value

  lemma Known(c: bv64, b: bv8, r: bv64, s: seq<bv8>, j: nat)
    requires j < |s| && s[j] == b && Steps(c ^ (b as bv64), 8) == r
    ensures Crc64(c, s[j..]) == Crc64(r, s[j + 1..])
  {
  }

  lemma KnownHead(s: seq<bv8>)
    requires |s| == 9 && s[..5] == [0x31, 0x32, 0x33, 0x34, 0x35]
    ensures Crc64(0, s) == Crc64(0xf0758513239c7e0d, s[5..])
  {
    assert s[0] == s[..5][0] && s[1] == s[..5][1] && s[2] == s[..5][2] && s[3] == s[..5][3] && s[4] == s[..5][4];
    Known(0x0000000000000000, 0x31, 0xfdc17184a9f739fa, s, 0);
    Known(0xfdc17184a9f739fa, 0x32, 0xe10364513a98ed96, s, 1);
    Known(0xe10364513a98ed96, 0x33, 0xd5bcfb814479b1ac, s, 2);
    Known(0xd5bcfb814479b1ac, 0x34, 0x43593c5dcda521f0, s, 3);
    Known(0x43593c5dcda521f0, 0x35, 0xf0758513239c7e0d, s, 4);
    assert s[0..] == s;
  }

  /** The digits 1 to 9 have the CRC that the source names. */
  lemma KnownValue(s: seq<bv8>)
    requires |s| == 9 && s[..5] == [0x31, 0x32, 0x33, 0x34, 0x35] && s[5..] == [0x36, 0x37, 0x38, 0x39]
    ensures Crc64(0, s) == 0xe9c6d914c4b8d9ca
  {
    KnownHead(s);
    assert s[5] == s[5..][0] && s[6] == s[5..][1] && s[7] == s[5..][2] && s[8] == s[5..][3];
    Known(0xf0758513239c7e0d, 0x36, 0xa3a90925b2ab4903, s, 5);
    Known(0xa3a90925b2ab4903, 0x37, 0x47824d362431ad45, s, 6);
    Known(0x47824d362431ad45, 0x38, 0x49ec20b315e86dc2, s, 7);
    Known(0x49ec20b315e86dc2, 0x39, 0xe9c6d914c4b8d9ca, s, 8);
  }
}
