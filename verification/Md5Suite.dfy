/** An entry of the test suite in section A.5 of RFC 1321, worked out operation by operation. It pins
    the tables, the shifts, the order of words and bytes and the initial state to known values. */
module Md5Suite {
  import opened Words
  import opened Rfc1321
  import opened WordVectors

  // ---- the auxiliary functions as the processor computes them

  function AuxiliaryQuad(i: nat, x: Quad, y: Quad, z: Quad): (q: Quad) {
    if i < 16 then OperateQuad(Or, OperateQuad(And, x, y), OperateQuad(And, NotQuad(x), z))
    else if i < 32 then OperateQuad(Or, OperateQuad(And, x, z), OperateQuad(And, y, NotQuad(z)))
    else if i < 48 then OperateQuad(Xor, OperateQuad(Xor, x, y), z)
    else OperateQuad(Xor, y, OperateQuad(Or, x, NotQuad(z)))
  }

  lemma {:induction false} FSpelled(x: Quad, y: Quad, z: Quad)
    ensures F(Spell(x), Spell(y), Spell(z)) == Spell(AuxiliaryQuad(0, x, y, z))
  {
    hide Spell, Bitwise, OperateQuad, NotQuad;
    QuadNegates(x);
    QuadOperates(And, x, y);
    QuadOperates(And, NotQuad(x), z);
    QuadOperates(Or, OperateQuad(And, x, y), OperateQuad(And, NotQuad(x), z));
  }

  lemma {:induction false} GSpelled(x: Quad, y: Quad, z: Quad)
    ensures G(Spell(x), Spell(y), Spell(z)) == Spell(AuxiliaryQuad(16, x, y, z))
  {
    hide Spell, Bitwise, OperateQuad, NotQuad;
    QuadNegates(z);
    QuadOperates(And, x, z);
    QuadOperates(And, y, NotQuad(z));
    QuadOperates(Or, OperateQuad(And, x, z), OperateQuad(And, y, NotQuad(z)));
  }

  lemma {:induction false} HSpelled(x: Quad, y: Quad, z: Quad)
    ensures H(Spell(x), Spell(y), Spell(z)) == Spell(AuxiliaryQuad(32, x, y, z))
  {
    hide Spell, Bitwise, OperateQuad, NotQuad;
    QuadOperates(Xor, x, y);
    QuadOperates(Xor, OperateQuad(Xor, x, y), z);
  }

  lemma {:induction false} ISpelled(x: Quad, y: Quad, z: Quad)
    ensures I(Spell(x), Spell(y), Spell(z)) == Spell(AuxiliaryQuad(48, x, y, z))
  {
    hide Spell, Bitwise, OperateQuad, NotQuad;
    QuadNegates(z);
    QuadOperates(Or, x, NotQuad(z));
    QuadOperates(Xor, y, OperateQuad(Or, x, NotQuad(z)));
  }

  lemma {:induction false} AuxiliarySpelled(i: nat, x: Quad, y: Quad, z: Quad)
    ensures Auxiliary(i, Spell(x), Spell(y), Spell(z)) == Spell(AuxiliaryQuad(i, x, y, z))
  {
    hide F, G, H, I, Spell, OperateQuad, NotQuad;
    if i < 16 {
      FSpelled(x, y, z);
    } else if i < 32 {
      GSpelled(x, y, z);
    } else if i < 48 {
      HSpelled(x, y, z);
    } else {
      ISpelled(x, y, z);
    }
  }

  function Spelled(a: Quad, b: Quad, c: Quad, d: Quad): (r: Registers) {
    Registers(Spell(a), Spell(b), Spell(c), Spell(d))
  }

  /** The registers before operation i. */
  predicate Reached(i: nat, x: seq<Word>, a: Quad, b: Quad, c: Quad, d: Quad) {
    i <= 64 && |x| == 16 && Operations(i, INITIAL, x) == Spelled(a, b, c, d)
  }

  /** Operation i, where w is the new word and the sum to be rotated has q above and r below the cut. */
  lemma {:induction false} Step(i: nat, x: seq<Word>, a: Quad, b: Quad, c: Quad, d: Quad, w: Quad, q: nat, r: nat)
    requires i < 64 && |x| == 16 && Reached(i, x, a, b, c, d)
    requires r < Pow2(32 - Shift(i)) && Spell(w) == (Spell(b) + r * Pow2(Shift(i)) + q) % 0x1_0000_0000
    requires (Spell(a) + Spell(AuxiliaryQuad(i, b, c, d)) + x[WordIndex(i)] + Sine(i)) % 0x1_0000_0000
          == Pow2(32 - Shift(i)) * q + r
    ensures Reached(i + 1, x, d, w, b, c)
  {
    hide Spell, Auxiliary, AuxiliaryQuad, Sine, RotateLeft, Pow2, WordIndex, Shift;
    AuxiliarySpelled(i, b, c, d);
    var sum := (Spell(a) + Auxiliary(i, Spell(b), Spell(c), Spell(d)) + x[WordIndex(i)] + Sine(i)) % 0x1_0000_0000;
    ShiftInRange(i);
    RotateByParts(sum, Shift(i), q, r);
  }

  lemma {:induction false} ShiftInRange(i: nat)
    requires i < 64
    ensures Shift(i) <= 32
  {
  }

  lemma {:induction false} Powers()
    ensures Pow2(4) == 0x10 && Pow2(5) == 0x20 && Pow2(6) == 0x40 && Pow2(7) == 0x80
    ensures Pow2(8) == 0x100 && Pow2(9) == 0x200 && Pow2(10) == 0x400 && Pow2(11) == 0x800
    ensures Pow2(12) == 0x1000 && Pow2(13) == 0x2000 && Pow2(14) == 0x4000 && Pow2(15) == 0x8000
    ensures Pow2(16) == 0x10000 && Pow2(17) == 0x20000 && Pow2(18) == 0x40000 && Pow2(19) == 0x80000
    ensures Pow2(20) == 0x100000 && Pow2(21) == 0x200000 && Pow2(22) == 0x400000 && Pow2(23) == 0x800000
    ensures Pow2(24) == 0x1000000 && Pow2(25) == 0x2000000 && Pow2(26) == 0x4000000 && Pow2(27) == 0x8000000
    ensures Pow2(28) == 0x10000000
  {
  }

  // ---- the alphabet

  const ALPHABET: seq<Byte> := [
    97, 98, 99, 100, 101, 102, 103, 104, 105, 106, 107, 108, 109, 110, 111, 112, 113, 114, 115, 116, 117, 118, 119,
    120, 121, 122
  ]

  const PADDED: seq<Byte> := ALPHABET + [0x80] + Zeros(29) + [208, 0, 0, 0, 0, 0, 0, 0]

  /** The words of its only block. */
  const BLOCK: seq<Word> := [
    0x64636261, 0x68676665, 0x6c6b6a69, 0x706f6e6d, 0x74737271, 0x78777675, 0x807a79,
    0x0, 0x0, 0x0, 0x0, 0x0, 0x0, 0x0, 0xd0, 0x0
  ]

  // What the registers take: operation i finds A, D, C and B in words i to i + 3 and makes word i + 4.
  const W0 := Quad(0x01, 0x23, 0x45, 0x67)
  const W1 := Quad(0x76, 0x54, 0x32, 0x10)
  const W2 := Quad(0xfe, 0xdc, 0xba, 0x98)
  const W3 := Quad(0x89, 0xab, 0xcd, 0xef)
  const W4 := Quad(0xa6, 0x17, 0xd1, 0xd6)
  const W5 := Quad(0xaa, 0xaa, 0xb1, 0xaa)
  const W6 := Quad(0xf1, 0x8c, 0x7d, 0x22)
  const W7 := Quad(0x12, 0xb8, 0x03, 0x45)
  const W8 := Quad(0x87, 0xf7, 0x15, 0xfe)
  const W9 := Quad(0x78, 0xb2, 0x11, 0xa8)
  const W10 := Quad(0xfc, 0x22, 0x11, 0xb7)
  const W11 := Quad(0x0d, 0xbb, 0x9b, 0xda)
  const W12 := Quad(0x99, 0x28, 0x75, 0xae)
  const W13 := Quad(0x7f, 0x75, 0xbe, 0x2b)
  const W14 := Quad(0x0b, 0xd8, 0x4b, 0x7d)
  const W15 := Quad(0xcb, 0xa5, 0xcf, 0x56)
  const W16 := Quad(0x16, 0xa3, 0x54, 0x17)
  const W17 := Quad(0x90, 0x7d, 0x56, 0x85)
  const W18 := Quad(0xd5, 0x74, 0xdf, 0x00)
  const W19 := Quad(0x7e, 0x6b, 0x8d, 0x60)
  const W20 := Quad(0xcc, 0x71, 0x80, 0x2d)
  const W21 := Quad(0x19, 0xe1, 0xce, 0x5d)
  const W22 := Quad(0x4b, 0x7e, 0xfe, 0xed)
  const W23 := Quad(0xb3, 0x45, 0x21, 0x4c)
  const W24 := Quad(0xe0, 0x43, 0x0c, 0x57)
  const W25 := Quad(0x2a, 0xfd, 0x7e, 0x97)
  const W26 := Quad(0x9d, 0xb4, 0x8a, 0xc2)
  const W27 := Quad(0xd4, 0x62, 0xf1, 0xc9)
  const W28 := Quad(0x3b, 0xae, 0xbf, 0x25)
  const W29 := Quad(0x04, 0x01, 0x98, 0x89)
  const W30 := Quad(0x5f, 0x36, 0xc8, 0xf8)
  const W31 := Quad(0x98, 0xb3, 0xd3, 0xe6)
  const W32 := Quad(0x10, 0x87, 0x4d, 0xf5)
  const W33 := Quad(0xe2, 0x72, 0x7b, 0x92)
  const W34 := Quad(0xc7, 0xaf, 0x69, 0x2e)
  const W35 := Quad(0x66, 0x57, 0xb3, 0xae)
  const W36 := Quad(0x0e, 0x68, 0xbf, 0xb4)
  const W37 := Quad(0x80, 0xfa, 0x8f, 0x4c)
  const W38 := Quad(0x0a, 0xed, 0x61, 0x23)
  const W39 := Quad(0x11, 0xe2, 0xa5, 0x06)
  const W40 := Quad(0x33, 0xc7, 0xc0, 0xb9)
  const W41 := Quad(0x7a, 0xdc, 0xe6, 0xf1)
  const W42 := Quad(0x1b, 0x45, 0xa9, 0x23)
  const W43 := Quad(0x99, 0xbf, 0x41, 0x8d)
  const W44 := Quad(0xad, 0x8e, 0xe8, 0xa3)
  const W45 := Quad(0x1c, 0xb1, 0xc0, 0x02)
  const W46 := Quad(0x8d, 0x46, 0xf6, 0x66)
  const W47 := Quad(0xf5, 0x5a, 0xa3, 0x90)
  const W48 := Quad(0x9c, 0x1f, 0xd4, 0xb5)
  const W49 := Quad(0x04, 0x49, 0x4b, 0xa0)
  const W50 := Quad(0xd8, 0x54, 0x3d, 0x70)
  const W51 := Quad(0x67, 0x03, 0xd1, 0x71)
  const W52 := Quad(0x6e, 0xdd, 0x32, 0xfc)
  const W53 := Quad(0x34, 0x6b, 0x45, 0x65)
  const W54 := Quad(0xcb, 0x02, 0x56, 0xb3)
  const W55 := Quad(0x97, 0xb1, 0xed, 0x33)
  const W56 := Quad(0xf1, 0x42, 0xe9, 0xc1)
  const W57 := Quad(0x7c, 0x98, 0xbb, 0xd9)
  const W58 := Quad(0x48, 0x80, 0xa6, 0x23)
  const W59 := Quad(0x1b, 0x7d, 0x87, 0x83)
  const W60 := Quad(0x08, 0xc2, 0x77, 0x00)
  const W61 := Quad(0xe7, 0xc2, 0x7f, 0x84)
  const W62 := Quad(0x7f, 0x24, 0xe2, 0xa3)
  const W63 := Quad(0x30, 0xc9, 0x6b, 0x5e)
  const W64 := Quad(0xc2, 0xd9, 0x8e, 0x70)
  const W65 := Quad(0x54, 0x13, 0xaf, 0x2b)
  const W66 := Quad(0x7f, 0x1e, 0x8f, 0xd3)
  const W67 := Quad(0xd8, 0xe6, 0x16, 0x11)

  lemma {:induction false} Steps0(i: nat, x: seq<Word>)
    requires i == 0 && x == BLOCK && Reached(i, x, W0, W3, W2, W1)
    ensures Reached(i + 2, x, W2, W5, W4, W3)
  {
    hide Pow2, Reached;
    Powers();
    Step(i, x, W0, W3, W2, W1, W4, 0x1d, 0x1ce06d8);
    Step(i + 1, x, W1, W4, W3, W2, W5, 0x304, 0xd3e09);
  }

  lemma {:induction false} Steps2(i: nat, x: seq<Word>)
    requires i == 2 && x == BLOCK && Reached(i, x, W2, W5, W4, W3)
    ensures Reached(i + 2, x, W4, W7, W6, W5)
  {
    hide Pow2, Reached;
    Powers();
    Step(i, x, W2, W5, W4, W3, W6, 0x1e247, 0x3be5);
    Step(i + 1, x, W3, W6, W5, W4, W7, 0x62b21, 0x8a);
  }

  lemma {:induction false} Steps4(i: nat, x: seq<Word>)
    requires i == 4 && x == BLOCK && Reached(i, x, W4, W7, W6, W5)
    ensures Reached(i + 2, x, W6, W9, W8, W7)
  {
    hide Pow2, Reached;
    Powers();
    Step(i, x, W4, W7, W6, W5, W8, 0x75, 0x172247e);
    Step(i + 1, x, W5, W8, W7, W6, W9, 0xaf1, 0xa9fbb);
  }

  lemma {:induction false} Steps6(i: nat, x: seq<Word>)
    requires i == 6 && x == BLOCK && Reached(i, x, W6, W9, W8, W7)
    ensures Reached(i + 2, x, W8, W11, W10, W9)
  {
    hide Pow2, Reached;
    Powers();
    Step(i, x, W6, W9, W8, W7, W10, 0x17084, 0x77f);
    Step(i + 1, x, W7, W10, W9, W8, W11, 0xa9811, 0x8e);
  }

  lemma {:induction false} Steps8(i: nat, x: seq<Word>)
    requires i == 8 && x == BLOCK && Reached(i, x, W8, W11, W10, W9)
    ensures Reached(i + 2, x, W10, W13, W12, W11)
  {
    hide Pow2, Reached;
    Powers();
    Step(i, x, W8, W11, W10, W9, W12, 0xc, 0x1a7b2db);
    Step(i + 1, x, W9, W12, W11, W10, W13, 0xce6, 0x7d494);
  }

  lemma {:induction false} Steps10(i: nat, x: seq<Word>)
    requires i == 10 && x == BLOCK && Reached(i, x, W10, W13, W12, W11)
    ensures Reached(i + 2, x, W12, W15, W14, W13)
  {
    hide Pow2, Reached;
    Powers();
    Step(i, x, W10, W13, W12, W11, W14, 0x1628c, 0x28c6);
    Step(i + 1, x, W11, W14, W13, W12, W15, 0x3cdc0, 0x366);
  }

  lemma {:induction false} Steps12(i: nat, x: seq<Word>)
    requires i == 12 && x == BLOCK && Reached(i, x, W12, W15, W14, W13)
    ensures Reached(i + 2, x, W14, W17, W16, W15)
  {
    hide Pow2, Reached;
    Powers();
    Step(i, x, W12, W15, W14, W13, W16, 0x4b, 0x18109fa);
    Step(i + 1, x, W13, W16, W15, W14, W17, 0xa7a, 0x6e01d);
  }

  lemma {:induction false} Steps14(i: nat, x: seq<Word>)
    requires i == 14 && x == BLOCK && Reached(i, x, W14, W17, W16, W15)
    ensures Reached(i + 2, x, W16, W19, W18, W17)
  {
    hide Pow2, Reached;
    Powers();
    Step(i, x, W14, W17, W16, W15, W18, 0xf745, 0x3dc4);
    Step(i + 1, x, W15, W18, W17, W16, W19, 0x2df6a9, 0x17e);
  }

  lemma {:induction false} Steps16(i: nat, x: seq<Word>)
    requires i == 16 && x == BLOCK && Reached(i, x, W16, W19, W18, W17)
    ensures Reached(i + 2, x, W18, W21, W20, W19)
  {
    hide Pow2, Reached;
    Powers();
    Step(i, x, W16, W19, W18, W17, W20, 0xe, 0x6679832);
    Step(i + 1, x, W17, W20, W19, W18, W21, 0x14d, 0x182737);
  }

  lemma {:induction false} Steps18(i: nat, x: seq<Word>)
    requires i == 18 && x == BLOCK && Reached(i, x, W18, W21, W20, W19)
    ensures Reached(i + 2, x, W20, W23, W22, W21)
  {
    hide Pow2, Reached;
    Powers();
    Step(i, x, W18, W21, W20, W19, W22, 0x1d32, 0x240be);
    Step(i + 1, x, W19, W22, W21, W20, W23, 0x2c768, 0x5e2);
  }

  lemma {:induction false} Steps20(i: nat, x: seq<Word>)
    requires i == 20 && x == BLOCK && Reached(i, x, W20, W23, W22, W21)
    ensures Reached(i + 2, x, W22, W25, W24, W23)
  {
    hide Pow2, Reached;
    Powers();
    Step(i, x, W20, W23, W22, W21, W24, 0xd, 0x5757f1);
    Step(i + 1, x, W21, W24, W23, W22, W25, 0x14a, 0x20395c);
  }

  lemma {:induction false} Steps22(i: nat, x: seq<Word>)
    requires i == 22 && x == BLOCK && Reached(i, x, W22, W25, W24, W23)
    ensures Reached(i + 2, x, W24, W27, W26, W25)
  {
    hide Pow2, Reached;
    Powers();
    Step(i, x, W22, W25, W24, W23, W26, 0x3773, 0xac2e);
    Step(i + 1, x, W23, W26, W25, W24, W27, 0x6ae37, 0x76);
  }

  lemma {:induction false} Steps24(i: nat, x: seq<Word>)
    requires i == 24 && x == BLOCK && Reached(i, x, W24, W27, W26, W25)
    ensures Reached(i + 2, x, W26, W29, W28, W27)
  {
    hide Pow2, Reached;
    Powers();
    Step(i, x, W24, W27, W26, W25, W28, 0x7, 0x2de725b);
    Step(i + 1, x, W25, W28, W27, W26, W29, 0xc9, 0x31ec29);
  }

  lemma {:induction false} Steps26(i: nat, x: seq<Word>)
    requires i == 26 && x == BLOCK && Reached(i, x, W26, W29, W28, W27)
    ensures Reached(i + 2, x, W28, W31, W30, W29)
  {
    hide Pow2, Reached;
    Powers();
    Step(i, x, W26, W29, W28, W27, W30, 0x355b, 0x1bcc0);
    Step(i + 1, x, W27, W30, W29, W28, W31, 0xb7d39, 0xee0);
  }

  lemma {:induction false} Steps28(i: nat, x: seq<Word>)
    requires i == 28 && x == BLOCK && Reached(i, x, W28, W31, W30, W29)
    ensures Reached(i + 1, x, W29, W32, W31, W30)
  {
    hide Pow2, Reached;
    Powers();
    Step(i, x, W28, W31, W30, W29, W32, 0x18, 0x73ce9b);
  }

  lemma {:induction false} Steps29(i: nat, x: seq<Word>)
    requires i == 29 && x == BLOCK && Reached(i, x, W29, W32, W31, W30)
    ensures Reached(i + 1, x, W30, W33, W32, W31)
  {
    hide Pow2, Reached;
    Powers();
    Step(i, x, W29, W32, W31, W30, W33, 0x1d2, 0x4e96f5);
  }

  lemma {:induction false} Steps30(i: nat, x: seq<Word>)
    requires i == 30 && x == BLOCK && Reached(i, x, W30, W33, W32, W31)
    ensures Reached(i + 2, x, W32, W35, W34, W33)
  {
    hide Pow2, Reached;
    Powers();
    Step(i, x, W30, W33, W32, W31, W34, 0x3ce5, 0x26fb8);
    Step(i + 1, x, W31, W34, W33, W32, W35, 0x9a79f, 0x804);
  }

  lemma {:induction false} Steps32(i: nat, x: seq<Word>)
    requires i == 32 && x == BLOCK && Reached(i, x, W32, W35, W34, W33)
    ensures Reached(i + 2, x, W34, W37, W36, W35)
  {
    hide Pow2, Reached;
    Powers();
    Step(i, x, W32, W35, W34, W33, W36, 0x8, 0x60c10a);
    Step(i + 1, x, W33, W36, W35, W34, W37, 0x272, 0x12fa12);
  }

  lemma {:induction false} Steps34(i: nat, x: seq<Word>)
    requires i == 34 && x == BLOCK && Reached(i, x, W34, W37, W36, W35)
    ensures Reached(i + 2, x, W36, W39, W38, W37)
  {
    hide Pow2, Reached;
    Powers();
    Step(i, x, W34, W37, W36, W35, W38, 0xf28a, 0xd6d1);
    Step(i + 1, x, W35, W38, W37, W36, W39, 0x43f507, 0x1c6);
  }

  lemma {:induction false} Steps36(i: nat, x: seq<Word>)
    requires i == 36 && x == BLOCK && Reached(i, x, W36, W39, W38, W37)
    ensures Reached(i + 2, x, W38, W41, W40, W39)
  {
    hide Pow2, Reached;
    Powers();
    Step(i, x, W36, W39, W38, W37, W40, 0x2, 0xb31ae52);
    Step(i + 1, x, W37, W40, W39, W38, W41, 0x547, 0x704c2);
  }

  lemma {:induction false} Steps38(i: nat, x: seq<Word>)
    requires i == 38 && x == BLOCK && Reached(i, x, W38, W41, W40, W39)
    ensures Reached(i + 2, x, W40, W43, W42, W41)
  {
    hide Pow2, Reached;
    Powers();
    Step(i, x, W38, W41, W40, W39, W42, 0x68a1, 0x31c2);
    Step(i + 1, x, W39, W42, W41, W40, W43, 0x187a7e, 0xd3);
  }

  lemma {:induction false} Steps40(i: nat, x: seq<Word>)
    requires i == 40 && x == BLOCK && Reached(i, x, W40, W43, W42, W41)
    ensures Reached(i + 2, x, W42, W45, W44, W43)
  {
    hide Pow2, Reached;
    Powers();
    Step(i, x, W40, W43, W42, W41, W44, 0x4, 0x16a6cf1);
    Step(i + 1, x, W41, W44, W43, W42, W45, 0x26f, 0xbdb04);
  }

  lemma {:induction false} Steps42(i: nat, x: seq<Word>)
    requires i == 42 && x == BLOCK && Reached(i, x, W42, W45, W44, W43)
    ensures Reached(i + 2, x, W44, W47, W46, W45)
  {
    hide Pow2, Reached;
    Powers();
    Step(i, x, W42, W45, W44, W43, W46, 0x9571, 0x6435);
    Step(i + 1, x, W43, W46, W45, W44, W47, 0x2d1468, 0x53);
  }

  lemma {:induction false} Steps44(i: nat, x: seq<Word>)
    requires i == 44 && x == BLOCK && Reached(i, x, W44, W47, W46, W45)
    ensures Reached(i + 2, x, W46, W49, W48, W47)
  {
    hide Pow2, Reached;
    Powers();
    Step(i, x, W44, W47, W46, W45, W48, 0x7, 0x2530c4a);
    Step(i + 1, x, W45, W48, W47, W46, W49, 0x168, 0x1d4ee5);
  }

  lemma {:induction false} Steps46(i: nat, x: seq<Word>)
    requires i == 46 && x == BLOCK && Reached(i, x, W46, W49, W48, W47)
    ensures Reached(i + 2, x, W48, W51, W50, W49)
  {
    hide Pow2, Reached;
    Powers();
    Step(i, x, W46, W49, W48, W47, W50, 0xbd4, 0xcff2);
    Step(i + 1, x, W47, W50, W49, W48, W51, 0x13ae8f, 0x3);
  }

  lemma {:induction false} Steps48(i: nat, x: seq<Word>)
    requires i == 48 && x == BLOCK && Reached(i, x, W48, W51, W50, W49)
    ensures Reached(i + 2, x, W50, W53, W52, W51)
  {
    hide Pow2, Reached;
    Powers();
    Step(i, x, W48, W51, W50, W49, W52, 0x7, 0x2298768);
    Step(i + 1, x, W49, W52, W51, W50, W53, 0x1c6, 0x1a44a3);
  }

  lemma {:induction false} Steps50(i: nat, x: seq<Word>)
    requires i == 50 && x == BLOCK && Reached(i, x, W50, W53, W52, W51)
    ensures Reached(i + 2, x, W52, W55, W54, W53)
  {
    hide Pow2, Reached;
    Powers();
    Step(i, x, W50, W53, W52, W51, W54, 0x1797, 0x9c21);
    Step(i + 1, x, W51, W54, W53, W52, W55, 0x17aecc, 0x404);
  }

  lemma {:induction false} Steps52(i: nat, x: seq<Word>)
    requires i == 52 && x == BLOCK && Reached(i, x, W52, W55, W54, W53)
    ensures Reached(i + 2, x, W54, W57, W56, W55)
  {
    hide Pow2, Reached;
    Powers();
    Step(i, x, W52, W55, W54, W53, W56, 0x1a, 0x237ee45);
    Step(i + 1, x, W53, W56, W55, W54, W57, 0x18b, 0x5f495);
  }

  lemma {:induction false} Steps54(i: nat, x: seq<Word>)
    requires i == 54 && x == BLOCK && Reached(i, x, W54, W57, W56, W55)
    ensures Reached(i + 2, x, W56, W59, W58, W57)
  {
    hide Pow2, Reached;
    Powers();
    Step(i, x, W54, W57, W56, W55, W58, 0x67cc, 0x93d5);
    Step(i + 1, x, W55, W58, W57, W56, W59, 0xfcd3, 0x2ff);
  }

  lemma {:induction false} Steps56(i: nat, x: seq<Word>)
    requires i == 56 && x == BLOCK && Reached(i, x, W56, W59, W58, W57)
    ensures Reached(i + 2, x, W58, W61, W60, W59)
  {
    hide Pow2, Reached;
    Powers();
    Step(i, x, W56, W59, W58, W57, W60, 0x2d, 0x1f3c113);
    Step(i + 1, x, W57, W60, W59, W58, W61, 0xdf, 0x210200);
  }

  lemma {:induction false} Steps58(i: nat, x: seq<Word>)
    requires i == 58 && x == BLOCK && Reached(i, x, W58, W61, W60, W59)
    ensures Reached(i + 2, x, W60, W63, W62, W61)
  {
    hide Pow2, Reached;
    Powers();
    Step(i, x, W58, W61, W60, W59, W62, 0x6198, 0x3ec4);
    Step(i + 1, x, W59, W62, W61, W60, W63, 0x9a4b1, 0x5d4);
  }

  lemma {:induction false} Steps60(i: nat, x: seq<Word>)
    requires i == 60 && x == BLOCK && Reached(i, x, W60, W63, W62, W61)
    ensures Reached(i + 2, x, W62, W65, W64, W63)
  {
    hide Pow2, Reached;
    Powers();
    Step(i, x, W60, W63, W62, W61, W64, 0x12, 0x488c42);
    Step(i + 1, x, W61, W64, W63, W62, W65, 0x192, 0x2ec80e);
  }

  lemma {:induction false} Steps62(i: nat, x: seq<Word>)
    requires i == 62 && x == BLOCK && Reached(i, x, W62, W65, W64, W63)
    ensures Reached(i + 2, x, W64, W67, W66, W65)
  {
    hide Pow2, Reached;
    Powers();
    Step(i, x, W62, W65, W64, W63, W66, 0xb2b, 0x14fc0);
    Step(i + 1, x, W63, W66, W65, W64, W67, 0x7c859, 0x1ec);
  }

  lemma {:induction false} AllSteps(x: seq<Word>)
    requires x == BLOCK
    ensures Reached(4 * |x|, x, W64, W67, W66, W65)
  {
    hide Reached;
    Begin(x);
    Steps0(0, x);
    Steps2(2, x);
    Steps4(4, x);
    Steps6(6, x);
    Steps8(8, x);
    Steps10(10, x);
    Steps12(12, x);
    Steps14(14, x);
    Steps16(16, x);
    Steps18(18, x);
    Steps20(20, x);
    Steps22(22, x);
    Steps24(24, x);
    Steps26(26, x);
    Steps28(28, x);
    Steps29(29, x);
    Steps30(30, x);
    Steps32(32, x);
    Steps34(34, x);
    Steps36(36, x);
    Steps38(38, x);
    Steps40(40, x);
    Steps42(42, x);
    Steps44(44, x);
    Steps46(46, x);
    Steps48(48, x);
    Steps50(50, x);
    Steps52(52, x);
    Steps54(54, x);
    Steps56(56, x);
    Steps58(58, x);
    Steps60(60, x);
    Steps62(62, x);
  }

  lemma {:induction false} Begin(x: seq<Word>)
    requires |x| == 16
    ensures Reached(0, x, W0, W3, W2, W1)
  {
  }

  lemma {:induction false} AlphabetLength()
    ensures LengthBytes(26) == [208, 0, 0, 0, 0, 0, 0, 0]
  {
  }

  lemma {:induction false} AlphabetPadded()
    ensures Padded(ALPHABET) == PADDED
  {
    hide LengthBytes;
    AlphabetLength();
    assert |ALPHABET| == 26;
  }

  lemma {:induction false} WordAt(p: seq<Byte>, k: nat)
    requires |p| == 64 && k < 16
    ensures WordsOf(p)[k] == p[4 * k] + 0x100 * (p[4 * k + 1] as int) + 0x1_0000 * (p[4 * k + 2] as int)
                             + 0x100_0000 * (p[4 * k + 3] as int)
  {
  }

  lemma {:induction false} AlphabetWords()
    ensures WordsOf(PADDED) == BLOCK
  {
    hide WordsOf;
    var w := WordsOf(PADDED);
    WordsBelow8();
    forall k | 8 <= k < 16 ensures w[k] == BLOCK[k] {
      WordAt(PADDED, k);
      ExpectedWord(k);
    }
  }

  lemma {:induction false} WordsBelow8()
    ensures forall k :: 0 <= k < 8 ==> WordsOf(PADDED)[k] == BLOCK[k]
  {
    hide WordsOf;
    var w := WordsOf(PADDED);
    WordAt(PADDED, 0);
    WordAt(PADDED, 1);
    WordAt(PADDED, 2);
    WordAt(PADDED, 3);
    WordAt(PADDED, 4);
    WordAt(PADDED, 5);
    WordAt(PADDED, 6);
    WordAt(PADDED, 7);
    assert w[0] == BLOCK[0] && w[1] == BLOCK[1] && w[2] == BLOCK[2] && w[3] == BLOCK[3];
    assert w[4] == BLOCK[4] && w[5] == BLOCK[5] && w[6] == BLOCK[6] && w[7] == BLOCK[7];
  }

  lemma {:induction false} ExpectedWord(k: nat)
    requires 8 <= k < 16
    ensures BLOCK[k] == PADDED[4 * k] + 0x100 * (PADDED[4 * k + 1] as int) + 0x1_0000 * (PADDED[4 * k + 2] as int)
                    + 0x100_0000 * (PADDED[4 * k + 3] as int)
  {
    assert k == 8 || k == 9 || k == 10 || k == 11 || k == 12 || k == 13 || k == 14 || k == 15;
  }

  /** MD5 ("abcdefghijklmnopqrstuvwxyz") = c3fcd3d76192e4007dfb496cca67e13b. */
  lemma {:induction false} AlphabetDigest()
    ensures Digest(ALPHABET) == [
      0xc3, 0xfc, 0xd3, 0xd7, 0x61, 0x92, 0xe4, 0x00, 0x7d, 0xfb, 0x49, 0x6c, 0xca, 0x67, 0xe1, 0x3b
    ]
  {
    AlphabetPadded();
    AlphabetCompressed();
    hide Compress, Padded, BytesOf;
    assert PADDED[0..64] == PADDED && |PADDED| == 64;
    assert Absorb(PADDED, 0) == INITIAL;
    assert Absorb(PADDED, 1) == Compress(INITIAL, PADDED);
    FinalBytes();
  }

  lemma {:induction false} AlphabetCompressed()
    ensures Compress(INITIAL, PADDED) == Registers(0xd7d3fcc3, 0x00e49261, 0x6c49fb7d, 0x3be167ca)
  {
    hide Operations, WordsOf;
    AlphabetWords();
    AllSteps(BLOCK);
  }

  lemma {:induction false} FinalBytes()
    ensures BytesOf(0xd7d3fcc3) == [0xc3, 0xfc, 0xd3, 0xd7]
    ensures BytesOf(0x00e49261) == [0x61, 0x92, 0xe4, 0x00]
    ensures BytesOf(0x6c49fb7d) == [0x7d, 0xfb, 0x49, 0x6c]
    ensures BytesOf(0x3be167ca) == [0xca, 0x67, 0xe1, 0x3b]
  {
  }
}
