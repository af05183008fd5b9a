/** The compression step of common/md5.cc: macros on four registers, fully unrolled. */
module Md5Transform {
  import opened Words
  import opened Rfc1321

  /** The three statements that FF, GG, HH and II have in common: add the value f of the
      auxiliary function, the message word and the constant, rotate, add b. */
  function Mix(a: Word, b: Word, f: Word, x: Word, s: nat, ac: Word): (w: Word)
    requires s <= 32
  {
    var sum := Plus(a, Plus(Plus(f, x), ac));
    Plus(BitOr(ShiftLeft(sum, s), ShiftRight(sum, 32 - s)), b)
  }

  function FF(a: Word, b: Word, c: Word, d: Word, x: Word, s: nat, ac: Word): (w: Word)
    requires s <= 32
  {
    Mix(a, b, F(b, c, d), x, s, ac)
  }

  function GG(a: Word, b: Word, c: Word, d: Word, x: Word, s: nat, ac: Word): (w: Word)
    requires s <= 32
  {
    Mix(a, b, G(b, c, d), x, s, ac)
  }

  function HH(a: Word, b: Word, c: Word, d: Word, x: Word, s: nat, ac: Word): (w: Word)
    requires s <= 32
  {
    Mix(a, b, H(b, c, d), x, s, ac)
  }

  function II(a: Word, b: Word, c: Word, d: Word, x: Word, s: nat, ac: Word): (w: Word)
    requires s <= 32
  {
    Mix(a, b, I(b, c, d), x, s, ac)
  }

  lemma {:induction false} SumOfFour(a: Word, f: Word, x: Word, t: Word)
    ensures Plus(a, Plus(Plus(f, x), t)) == (a + f + x + t) % 0x1_0000_0000
  {
    WrapOnce(t, f + x);
    WrapOnce(a, f + x + t);
  }

  /** Wrapping a partial sum early makes no difference. */
  lemma {:induction false} WrapOnce(a: Word, s: nat)
    ensures (a + s % 0x1_0000_0000) % 0x1_0000_0000 == (a + s) % 0x1_0000_0000
  {
    var q, r := s / 0x1_0000_0000, s % 0x1_0000_0000;
    RemainderIs(a + s, 0x1_0000_0000, q + (a + r) / 0x1_0000_0000, (a + r) % 0x1_0000_0000);
  }

  lemma {:induction false} PlusCommutes(a: Word, b: Word)
    ensures Plus(a, b) == Plus(b, a)
  {
  }

  /** A macro does what section 3.4 of RFC 1321 asks of operation i. */
  lemma {:induction false} MixOperates(i: nat, r: Registers, x: seq<Word>)
    requires |x| == 16 && i < 64
    ensures 0 < Shift(i) < 32
    ensures Operation(i, r, x)
         == Registers(r.d, Mix(r.a, r.b, Auxiliary(i, r.b, r.c, r.d), x[WordIndex(i)], Shift(i), Sine(i)), r.b, r.c)
  {
    hide Plus, Auxiliary, RotateLeft, BitOr, ShiftLeft, ShiftRight, WordIndex, Sine;
    var f, y, t := Auxiliary(i, r.b, r.c, r.d), x[WordIndex(i)], Sine(i);
    SumOfFour(r.a, f, y, t);
    var sum := Plus(r.a, Plus(Plus(f, y), t));
    RotateByShifts(sum, Shift(i));
    PlusCommutes(r.b, RotateLeft(sum, Shift(i)));
  }

  /** The macro that stands for operation i. */
  function Macro(i: nat, a: Word, b: Word, c: Word, d: Word, x: seq<Word>): (w: Word)
    requires i < 64 && |x| == 16
  {
    Mix(a, b, Auxiliary(i, b, c, d), x[WordIndex(i)], Shift(i), Sine(i))
  }

  /** Four macros in a row, after which every register is back in its place. */
  function Row(j: nat, r: Registers, x: seq<Word>): (after: Registers)
    requires j < 16 && |x| == 16
  {
    var a := Macro(4 * j, r.a, r.b, r.c, r.d, x);
    var d := Macro(4 * j + 1, r.d, a, r.b, r.c, x);
    var c := Macro(4 * j + 2, r.c, d, a, r.b, x);
    var b := Macro(4 * j + 3, r.b, c, d, a, x);
    Registers(a, b, c, d)
  }

  lemma {:induction false} RowOperates(j: nat, r: Registers, x: seq<Word>)
    requires |x| == 16 && j < 16
    ensures Operations(4 * j + 4, r, x) == Row(j, Operations(4 * j, r, x), x)
  {
    hide Mix, Auxiliary, WordIndex, Shift, Sine, Operation;
    MixOperates(4 * j, Operations(4 * j, r, x), x);
    MixOperates(4 * j + 1, Operations(4 * j + 1, r, x), x);
    MixOperates(4 * j + 2, Operations(4 * j + 2, r, x), x);
    MixOperates(4 * j + 3, Operations(4 * j + 3, r, x), x);
  }

  /** The four rows of round n. */
  lemma {:induction false} RoundOperates(n: nat, r: Registers, x: seq<Word>)
    requires |x| == 16 && n < 4
    ensures Operations(16 * n + 16, r, x)
         == Row(4 * n + 3, Row(4 * n + 2, Row(4 * n + 1, Row(4 * n, Operations(16 * n, r, x), x), x), x), x)
  {
    hide Row, Operations;
    RowOperates(4 * n, r, x);
    RowOperates(4 * n + 1, r, x);
    RowOperates(4 * n + 2, r, x);
    RowOperates(4 * n + 3, r, x);
  }

  method Round1(r: Registers, x: seq<Word>) returns (a: Word, b: Word, c: Word, d: Word)
    requires |x| == 16
    ensures Registers(a, b, c, d) == Row(3, Row(2, Row(1, Row(0, r, x), x), x), x)
  {
    hide Mix, F, G, H, I, Plus, Bitwise, BitAnd, BitOr, BitXor, BitNot, Pow2, Operations, WordsOf;
    a, b, c, d := r.a, r.b, r.c, r.d;
    ghost var q0 := Row(0, r, x);
    a := FF(a, b, c, d, x[0], 7, 0xd76aa478);
    d := FF(d, a, b, c, x[1], 12, 0xe8c7b756);
    c := FF(c, d, a, b, x[2], 17, 0x242070db);
    b := FF(b, c, d, a, x[3], 22, 0xc1bdceee);
    assert Registers(a, b, c, d) == q0;
    ghost var q1 := Row(1, q0, x);
    a := FF(a, b, c, d, x[4], 7, 0xf57c0faf);
    d := FF(d, a, b, c, x[5], 12, 0x4787c62a);
    c := FF(c, d, a, b, x[6], 17, 0xa8304613);
    b := FF(b, c, d, a, x[7], 22, 0xfd469501);
    assert Registers(a, b, c, d) == q1;
    ghost var q2 := Row(2, q1, x);
    a := FF(a, b, c, d, x[8], 7, 0x698098d8);
    d := FF(d, a, b, c, x[9], 12, 0x8b44f7af);
    c := FF(c, d, a, b, x[10], 17, 0xffff5bb1);
    b := FF(b, c, d, a, x[11], 22, 0x895cd7be);
    assert Registers(a, b, c, d) == q2;
    ghost var q3 := Row(3, q2, x);
    a := FF(a, b, c, d, x[12], 7, 0x6b901122);
    d := FF(d, a, b, c, x[13], 12, 0xfd987193);
    c := FF(c, d, a, b, x[14], 17, 0xa679438e);
    b := FF(b, c, d, a, x[15], 22, 0x49b40821);
    assert Registers(a, b, c, d) == q3;
  }

  method Round2(r: Registers, x: seq<Word>) returns (a: Word, b: Word, c: Word, d: Word)
    requires |x| == 16
    ensures Registers(a, b, c, d) == Row(7, Row(6, Row(5, Row(4, r, x), x), x), x)
  {
    hide Mix, F, G, H, I, Plus, Bitwise, BitAnd, BitOr, BitXor, BitNot, Pow2, Operations, WordsOf;
    a, b, c, d := r.a, r.b, r.c, r.d;
    ghost var q0 := Row(4, r, x);
    a := GG(a, b, c, d, x[1], 5, 0xf61e2562);
    d := GG(d, a, b, c, x[6], 9, 0xc040b340);
    c := GG(c, d, a, b, x[11], 14, 0x265e5a51);
    b := GG(b, c, d, a, x[0], 20, 0xe9b6c7aa);
    assert Registers(a, b, c, d) == q0;
    ghost var q1 := Row(5, q0, x);
    a := GG(a, b, c, d, x[5], 5, 0xd62f105d);
    d := GG(d, a, b, c, x[10], 9, 0x02441453);
    c := GG(c, d, a, b, x[15], 14, 0xd8a1e681);
    b := GG(b, c, d, a, x[4], 20, 0xe7d3fbc8);
    assert Registers(a, b, c, d) == q1;
    ghost var q2 := Row(6, q1, x);
    a := GG(a, b, c, d, x[9], 5, 0x21e1cde6);
    d := GG(d, a, b, c, x[14], 9, 0xc33707d6);
    c := GG(c, d, a, b, x[3], 14, 0xf4d50d87);
    b := GG(b, c, d, a, x[8], 20, 0x455a14ed);
    assert Registers(a, b, c, d) == q2;
    ghost var q3 := Row(7, q2, x);
    a := GG(a, b, c, d, x[13], 5, 0xa9e3e905);
    d := GG(d, a, b, c, x[2], 9, 0xfcefa3f8);
    c := GG(c, d, a, b, x[7], 14, 0x676f02d9);
    b := GG(b, c, d, a, x[12], 20, 0x8d2a4c8a);
    assert Registers(a, b, c, d) == q3;
  }

  method Round3(r: Registers, x: seq<Word>) returns (a: Word, b: Word, c: Word, d: Word)
    requires |x| == 16
    ensures Registers(a, b, c, d) == Row(11, Row(10, Row(9, Row(8, r, x), x), x), x)
  {
    hide Mix, F, G, H, I, Plus, Bitwise, BitAnd, BitOr, BitXor, BitNot, Pow2, Operations, WordsOf;
    a, b, c, d := r.a, r.b, r.c, r.d;
    ghost var q0 := Row(8, r, x);
    a := HH(a, b, c, d, x[5], 4, 0xfffa3942);
    d := HH(d, a, b, c, x[8], 11, 0x8771f681);
    c := HH(c, d, a, b, x[11], 16, 0x6d9d6122);
    b := HH(b, c, d, a, x[14], 23, 0xfde5380c);
    assert Registers(a, b, c, d) == q0;
    ghost var q1 := Row(9, q0, x);
    a := HH(a, b, c, d, x[1], 4, 0xa4beea44);
    d := HH(d, a, b, c, x[4], 11, 0x4bdecfa9);
    c := HH(c, d, a, b, x[7], 16, 0xf6bb4b60);
    b := HH(b, c, d, a, x[10], 23, 0xbebfbc70);
    assert Registers(a, b, c, d) == q1;
    ghost var q2 := Row(10, q1, x);
    a := HH(a, b, c, d, x[13], 4, 0x289b7ec6);
    d := HH(d, a, b, c, x[0], 11, 0xeaa127fa);
    c := HH(c, d, a, b, x[3], 16, 0xd4ef3085);
    b := HH(b, c, d, a, x[6], 23, 0x04881d05);
    assert Registers(a, b, c, d) == q2;
    ghost var q3 := Row(11, q2, x);
    a := HH(a, b, c, d, x[9], 4, 0xd9d4d039);
    d := HH(d, a, b, c, x[12], 11, 0xe6db99e5);
    c := HH(c, d, a, b, x[15], 16, 0x1fa27cf8);
    b := HH(b, c, d, a, x[2], 23, 0xc4ac5665);
    assert Registers(a, b, c, d) == q3;
  }

  method Round4(r: Registers, x: seq<Word>) returns (a: Word, b: Word, c: Word, d: Word)
    requires |x| == 16
    ensures Registers(a, b, c, d) == Row(15, Row(14, Row(13, Row(12, r, x), x), x), x)
  {
    hide Mix, F, G, H, I, Plus, Bitwise, BitAnd, BitOr, BitXor, BitNot, Pow2, Operations, WordsOf;
    a, b, c, d := r.a, r.b, r.c, r.d;
    ghost var q0 := Row(12, r, x);
    a := II(a, b, c, d, x[0], 6, 0xf4292244);
    d := II(d, a, b, c, x[7], 10, 0x432aff97);
    c := II(c, d, a, b, x[14], 15, 0xab9423a7);
    b := II(b, c, d, a, x[5], 21, 0xfc93a039);
    assert Registers(a, b, c, d) == q0;
    ghost var q1 := Row(13, q0, x);
    a := II(a, b, c, d, x[12], 6, 0x655b59c3);
    d := II(d, a, b, c, x[3], 10, 0x8f0ccc92);
    c := II(c, d, a, b, x[10], 15, 0xffeff47d);
    b := II(b, c, d, a, x[1], 21, 0x85845dd1);
    assert Registers(a, b, c, d) == q1;
    ghost var q2 := Row(14, q1, x);
    a := II(a, b, c, d, x[8], 6, 0x6fa87e4f);
    d := II(d, a, b, c, x[15], 10, 0xfe2ce6e0);
    c := II(c, d, a, b, x[6], 15, 0xa3014314);
    b := II(b, c, d, a, x[13], 21, 0x4e0811a1);
    assert Registers(a, b, c, d) == q2;
    ghost var q3 := Row(15, q2, x);
    a := II(a, b, c, d, x[4], 6, 0xf7537e82);
    d := II(d, a, b, c, x[11], 10, 0xbd3af235);
    c := II(c, d, a, b, x[2], 15, 0x2ad7d2bb);
    b := II(b, c, d, a, x[9], 21, 0xeb86d391);
    assert Registers(a, b, c, d) == q3;
  }
}
