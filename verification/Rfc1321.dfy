/** The MD5 message digest as RFC 1321 defines it, on values. */
module Rfc1321 {
  import opened Words

  /** The four words of the MD buffer. */
  datatype Registers = Registers(a: Word, b: Word, c: Word, d: Word)

  /** Section 3.3. */
  const INITIAL := Registers(0x67452301, 0xefcdab89, 0x98badcfe, 0x10325476)

  /** The auxiliary functions of section 3.4. */
  function F(x: Word, y: Word, z: Word): (w: Word) { BitOr(BitAnd(x, y), BitAnd(BitNot(x), z)) }
  function G(x: Word, y: Word, z: Word): (w: Word) { BitOr(BitAnd(x, z), BitAnd(y, BitNot(z))) }
  function H(x: Word, y: Word, z: Word): (w: Word) { BitXor(BitXor(x, y), z) }
  function I(x: Word, y: Word, z: Word): (w: Word) { BitXor(y, BitOr(x, BitNot(z))) }

  /** F: if x then y else z, for each bit. */
  lemma {:induction false} FBit(x: Word, y: Word, z: Word, k: nat)
    requires k < 32
    ensures Bit(F(x, y, z), k) <==> if Bit(x, k) then Bit(y, k) else Bit(z, k)
  {
    hide Bit, BitAnd, BitOr, BitNot;
    NotBit(x, k);
    AndBit(x, y, k);
    AndBit(BitNot(x), z, k);
    OrBit(BitAnd(x, y), BitAnd(BitNot(x), z), k);
  }

  /** G: if z then x else y. */
  lemma {:induction false} GBit(x: Word, y: Word, z: Word, k: nat)
    requires k < 32
    ensures Bit(G(x, y, z), k) <==> if Bit(z, k) then Bit(x, k) else Bit(y, k)
  {
    hide Bit, BitAnd, BitOr, BitNot;
    NotBit(z, k);
    AndBit(x, z, k);
    AndBit(y, BitNot(z), k);
    OrBit(BitAnd(x, z), BitAnd(y, BitNot(z)), k);
  }

  /** H: the parity, set when one or all three of the bits are. */
  lemma {:induction false} HBit(x: Word, y: Word, z: Word, k: nat)
    requires k < 32
    ensures Bit(H(x, y, z), k) <==> ((Bit(x, k) != Bit(y, k)) != Bit(z, k))
  {
    hide Bit, BitXor;
    XorBit(x, y, k);
    XorBit(BitXor(x, y), z, k);
  }

  lemma {:induction false} IBit(x: Word, y: Word, z: Word, k: nat)
    requires k < 32
    ensures Bit(I(x, y, z), k) <==> (Bit(y, k) != (Bit(x, k) || !Bit(z, k)))
  {
    hide Bit, BitXor, BitOr, BitNot;
    NotBit(z, k);
    OrBit(x, BitNot(z), k);
    XorBit(y, BitOr(x, BitNot(z)), k);
  }

  function Auxiliary(i: nat, x: Word, y: Word, z: Word): (w: Word)
  {
    if i < 16 then F(x, y, z) else if i < 32 then G(x, y, z) else if i < 48 then H(x, y, z) else I(x, y, z)
  }

  /** The index k of the message word that operation i uses. */
  function WordIndex(i: nat): (k: nat)
    ensures k < 16
  {
    (if i < 16 then i else if i < 32 then 5 * i + 1 else if i < 48 then 3 * i + 5 else 7 * i) % 16
  }

  /** The shift amounts, four to a round. */
  function Shift(i: nat): (n: nat)
    requires i < 64
  {
    if i < 16 then OneOf(i % 4, 7, 12, 17, 22)
    else if i < 32 then OneOf(i % 4, 5, 9, 14, 20)
    else if i < 48 then OneOf(i % 4, 4, 11, 16, 23)
    else OneOf(i % 4, 6, 10, 15, 21)
  }

  function OneOf(k: nat, s0: nat, s1: nat, s2: nat, s3: nat): (n: nat) {
    if k == 0 then s0 else if k == 1 then s1 else if k == 2 then s2 else s3
  }

  /** The table T: element i is the integer part of 2^32 * abs(sin(i + 1)). */
  function Sine(i: nat): (w: Word)
    requires i < 64
  {
    if i < 16 then Sine1(i) else if i < 32 then Sine2(i) else if i < 48 then Sine3(i) else Sine4(i)
  }

  function Sine1(i: nat): (w: Word)
    requires 0 <= i < 16
  {
    match i
    case 0 => 0xd76aa478
    case 1 => 0xe8c7b756
    case 2 => 0x242070db
    case 3 => 0xc1bdceee
    case 4 => 0xf57c0faf
    case 5 => 0x4787c62a
    case 6 => 0xa8304613
    case 7 => 0xfd469501
    case 8 => 0x698098d8
    case 9 => 0x8b44f7af
    case 10 => 0xffff5bb1
    case 11 => 0x895cd7be
    case 12 => 0x6b901122
    case 13 => 0xfd987193
    case 14 => 0xa679438e
    case _ => 0x49b40821
  }

  function Sine2(i: nat): (w: Word)
    requires 16 <= i < 32
  {
    match i
    case 16 => 0xf61e2562
    case 17 => 0xc040b340
    case 18 => 0x265e5a51
    case 19 => 0xe9b6c7aa
    case 20 => 0xd62f105d
    case 21 => 0x02441453
    case 22 => 0xd8a1e681
    case 23 => 0xe7d3fbc8
    case 24 => 0x21e1cde6
    case 25 => 0xc33707d6
    case 26 => 0xf4d50d87
    case 27 => 0x455a14ed
    case 28 => 0xa9e3e905
    case 29 => 0xfcefa3f8
    case 30 => 0x676f02d9
    case _ => 0x8d2a4c8a
  }

  function Sine3(i: nat): (w: Word)
    requires 32 <= i < 48
  {
    match i
    case 32 => 0xfffa3942
    case 33 => 0x8771f681
    case 34 => 0x6d9d6122
    case 35 => 0xfde5380c
    case 36 => 0xa4beea44
    case 37 => 0x4bdecfa9
    case 38 => 0xf6bb4b60
    case 39 => 0xbebfbc70
    case 40 => 0x289b7ec6
    case 41 => 0xeaa127fa
    case 42 => 0xd4ef3085
    case 43 => 0x04881d05
    case 44 => 0xd9d4d039
    case 45 => 0xe6db99e5
    case 46 => 0x1fa27cf8
    case _ => 0xc4ac5665
  }

  function Sine4(i: nat): (w: Word)
    requires 48 <= i < 64
  {
    match i
    case 48 => 0xf4292244
    case 49 => 0x432aff97
    case 50 => 0xab9423a7
    case 51 => 0xfc93a039
    case 52 => 0x655b59c3
    case 53 => 0x8f0ccc92
    case 54 => 0xffeff47d
    case 55 => 0x85845dd1
    case 56 => 0x6fa87e4f
    case 57 => 0xfe2ce6e0
    case 58 => 0xa3014314
    case 59 => 0x4e0811a1
    case 60 => 0xf7537e82
    case 61 => 0xbd3af235
    case 62 => 0x2ad7d2bb
    case _ => 0xeb86d391
  }

  /** Operation i of section 3.4, a := b + ((a + f(b, c, d) + X[k] + T[i]) <<< s), after
      which the registers move one place round: [ABCD], [DABC], [CDAB], [BCDA]. */
  function Operation(i: nat, r: Registers, x: seq<Word>): (after: Registers)
    requires i < 64 && |x| == 16
  {
    var sum := (r.a + Auxiliary(i, r.b, r.c, r.d) + x[WordIndex(i)] + Sine(i)) % 0x1_0000_0000;
    Registers(r.d, Plus(r.b, RotateLeft(sum, Shift(i))), r.b, r.c)
  }

  /** The first n of the 64 operations. */
  function Operations(n: nat, r: Registers, x: seq<Word>): (after: Registers)
    requires n <= 64 && |x| == 16
  {
    if n == 0 then r else Operation(n - 1, Operations(n - 1, r, x), x)
  }

  /** The word of four bytes, low-order byte first (section 2). */
  function WordOf(b: seq<Byte>): (w: Word)
    requires |b| == 4
  {
    b[0] + 0x100 * (b[1] as int) + 0x1_0000 * (b[2] as int) + 0x100_0000 * (b[3] as int)
  }

  function BytesOf(w: Word): (b: seq<Byte>)
    ensures |b| == 4
  {
    [w % 0x100, w / 0x100 % 0x100, w / 0x1_0000 % 0x100, w / 0x100_0000]
  }

  function WordsOf(b: seq<Byte>): (w: seq<Word>)
    requires |b| % 4 == 0
    ensures |w| == |b| / 4
  {
    seq(|b| / 4, i requires 0 <= i < |b| / 4 => WordOf(b[4 * i..4 * i + 4]))
  }

  function AllBytesOf(w: seq<Word>): (b: seq<Byte>)
    ensures |b| == 4 * |w|
  {
    seq(4 * |w|, j requires 0 <= j < 4 * |w| => BytesOf(w[j / 4])[j % 4])
  }

  /** The effect of one 64-byte block on the MD buffer (section 3.4). */
  function Compress(h: Registers, block: seq<Byte>): (after: Registers)
    requires |block| == 64
  {
    var x := WordsOf(block);
    var r := Operations(4 * |x|, h, x);
    Registers(Plus(h.a, r.a), Plus(h.b, r.b), Plus(h.c, r.c), Plus(h.d, r.d))
  }

  /** The effect of the first n blocks of m. */
  function Absorb(m: seq<Byte>, n: nat): (after: Registers)
    requires 64 * n <= |m|
  {
    if n == 0 then INITIAL else Compress(Absorb(m, n - 1), m[64 * n - 64..64 * n])
  }

  function Zeros(n: nat): (z: seq<Byte>)
    ensures |z| == n
  {
    seq(n, _ => 0)
  }

  /** Section 3.2: the length in bits modulo 2^64, low-order word first. */
  function LengthBytes(n: nat): (b: seq<Byte>)
    ensures |b| == 8
  {
    var bits := 8 * n % 0x1_0000_0000_0000_0000;
    BytesOf(bits % 0x1_0000_0000) + BytesOf(bits / 0x1_0000_0000)
  }

  /** Section 3.1: one 1 bit, then the fewest 0 bits that make the length 56 modulo 64 bytes. */
  function Padded(m: seq<Byte>): (p: seq<Byte>)
    ensures |p| % 64 == 0
  {
    m + [0x80] + Zeros((55 - |m|) % 64) + LengthBytes(|m|)
  }

  function Digest(m: seq<Byte>): (d: seq<Byte>)
    ensures |d| == 16
  {
    var p := Padded(m);
    var h := Absorb(p, |p| / 64);
    BytesOf(h.a) + BytesOf(h.b) + BytesOf(h.c) + BytesOf(h.d)
  }
}
