/** 32-bit words as integers, with the C operators of `unsigned int` written out:
    addition wraps modulo 2^32, shifts drop the bits that leave the word and the
    bitwise operators work bit by bit. */
module Words {

  type Byte = x: int | 0 <= x < 0x100
  type Word = x: int | 0 <= x < 0x1_0000_0000

  datatype BitOperator = And | Or | Xor {
    predicate Apply(x: bool, y: bool) {
      match this
      case And => x && y
      case Or => x || y
      case Xor => x != y
    }
  }

  function Pow2(n: nat): (p: nat)
    ensures p >= 1
  {
    if n == 0 then 1 else 2 * Pow2(n - 1)
  }

  /** The low `n` bits of `x op y`. */
  function Bitwise(op: BitOperator, x: nat, y: nat, n: nat): (r: nat)
    ensures r < Pow2(n)
  {
    if n == 0 then 0
    else
      2 * Bitwise(op, x / 2, y / 2, n - 1) + (if op.Apply(x % 2 == 1, y % 2 == 1) then 1 else 0)
  }

  lemma {:induction false} Pow2At32()
    ensures Pow2(6) == 0x40 && Pow2(8) == 0x100 && Pow2(16) == 0x1_0000 && Pow2(24) == 0x100_0000
    ensures Pow2(3) == 8 && Pow2(29) == 0x2000_0000 && Pow2(30) == 0x4000_0000 && Pow2(31) == 0x8000_0000
    ensures Pow2(32) == 0x1_0000_0000
  {
    assert Pow2(8) == 0x100;
    assert Pow2(16) == 0x1_0000;
    assert Pow2(24) == 0x100_0000;
    assert Pow2(29) == 0x2000_0000;
  }

  function BitAnd(x: Word, y: Word): (w: Word) { Pow2At32(); Bitwise(And, x, y, 32) }
  function BitOr(x: Word, y: Word): (w: Word) { Pow2At32(); Bitwise(Or, x, y, 32) }
  function BitXor(x: Word, y: Word): (w: Word) { Pow2At32(); Bitwise(Xor, x, y, 32) }
  function BitNot(x: Word): (w: Word) { 0xffff_ffff - x }
  function Plus(x: Word, y: Word): (w: Word) { (x + y) % 0x1_0000_0000 }
  function ShiftLeft(x: Word, s: nat): (w: Word) { (x * Pow2(s)) % 0x1_0000_0000 }
  function ShiftRight(x: Word, s: nat): (w: Word) {
    assert 0 <= x / Pow2(s) <= x by { DivideShrinks(x, Pow2(s)); }
    x / Pow2(s)
  }

  lemma {:induction false} DivideShrinks(x: nat, d: nat)
    requires d >= 1
    ensures 0 <= x / d <= x
  {
    assert x == d * (x / d) + x % d;
  }

  lemma {:induction false} OrOfZero(y: nat, n: nat)
    requires y < Pow2(n)
    ensures Bitwise(Or, 0, y, n) == Bitwise(Or, y, 0, n) == y
  {
    if n > 0 { OrOfZero(y / 2, n - 1); }
  }

  /** An `or` of words that share no bit is their sum. */
  lemma {:induction false} OrOfDisjoint(x: nat, z: nat, k: nat, n: nat)
    requires x < Pow2(k) && x + z * Pow2(k) < Pow2(n)
    ensures Bitwise(Or, x, z * Pow2(k), n) == Bitwise(Or, z * Pow2(k), x, n) == x + z * Pow2(k)
    decreases n
  {
    if n == 0 || k == 0 {
      assert z * Pow2(0) == z;
      OrOfZero(x + z * Pow2(k), n);
    } else {
      var h := z * Pow2(k - 1);
      assert z * Pow2(k) == 2 * h by { Commute(2, z, Pow2(k - 1)); }
      OrOfDisjoint(x / 2, z, k - 1, n - 1);
      EvenOr(x, h, n);
    }
  }

  lemma {:induction false} EvenOr(x: nat, h: nat, n: nat)
    requires n > 0
    ensures Bitwise(Or, x, 2 * h, n) == 2 * Bitwise(Or, x / 2, h, n - 1) + x % 2
    ensures Bitwise(Or, 2 * h, x, n) == 2 * Bitwise(Or, h, x / 2, n - 1) + x % 2
  {
  }

  /** An `and` with a mask of k one bits keeps the remainder r modulo 2^k. */
  lemma {:induction false} AndOfMask(x: nat, k: nat, n: nat, q: nat, r: nat)
    requires k <= n && x == Pow2(k) * q + r && r < Pow2(k)
    ensures Bitwise(And, x, Pow2(k) - 1, n) == r
  {
    if k == 0 {
      AndOfZero(x, n);
    } else {
      var p := Pow2(k - 1);
      HalveMultiple(p, q, r);
      AndOfMask(x / 2, k - 1, n - 1, q, r / 2);
      OddAnd(x, p, n);
    }
  }

  lemma {:induction false} HalveMultiple(p: nat, q: nat, r: nat)
    ensures (2 * p * q + r) / 2 == p * q + r / 2 && (2 * p * q + r) % 2 == r % 2
  {
    assert 2 * p * q == 2 * (p * q);
  }

  lemma {:induction false} OddAnd(x: nat, p: nat, n: nat)
    requires n > 0 && p > 0
    ensures Bitwise(And, x, 2 * p - 1, n) == 2 * Bitwise(And, x / 2, p - 1, n - 1) + x % 2
  {
  }

  lemma {:induction false} AndOfZero(x: nat, n: nat)
    ensures Bitwise(And, x, 0, n) == 0
  {
    if n > 0 { AndOfZero(x / 2, n - 1); }
  }

  /** Quotient and remainder are unique. */
  lemma {:induction false} RemainderIs(x: int, d: nat, q: int, r: nat)
    requires r < d && x == d * q + r
    ensures x / d == q && x % d == r
  {
    var q', r' := x / d, x % d;
    assert x == d * q' + r' && 0 <= r' < d;
    if q' < q { MultiplyMonotone(q' + 1, q, d); }
    if q < q' { MultiplyMonotone(q + 1, q', d); }
  }

  lemma {:induction false} MultiplyMonotone(a: int, b: int, d: nat)
    requires a <= b
    ensures d * a <= d * b
  {
  }

  /** The circular left shift of a word by one place. */
  function RotateOne(x: Word): (w: Word) {
    2 * (x % 0x8000_0000) + x / 0x8000_0000
  }

  /** The circular left shift by s places: s times a shift by one place. */
  function RotateLeft(x: Word, s: nat): (w: Word) {
    if s == 0 then x else RotateOne(RotateLeft(x, s - 1))
  }

  lemma {:induction false} PowersMultiply(a: nat, b: nat)
    ensures Pow2(a) * Pow2(b) == Pow2(a + b)
  {
    if a > 0 { PowersMultiply(a - 1, b); assert Pow2(a) * Pow2(b) == 2 * (Pow2(a - 1) * Pow2(b)); }
  }

  lemma {:induction false} SplitProduct(p: int, q: int, r: int, m: int)
    ensures (p * q + r) * m == (p * m) * q + r * m
  {
    assert (p * q) * m == (p * m) * q;
  }

  /** The shifts and the `or` of the ROTATE_LEFT macro rotate the word. */
  lemma {:induction false} RotateByShifts(x: Word, s: nat)
    requires 0 < s < 32
    ensures BitOr(ShiftLeft(x, s), ShiftRight(x, 32 - s)) == RotateLeft(x, s)
  {
    var p := Pow2(32 - s);
    var q, r := x / p, x % p;
    DivideParts(x, p);
    RotateByParts(x, s, q, r);
    ShiftLeftParts(x, s, q, r);
    hide ShiftLeft;
    Pow2At32();
    OrOfDisjoint(q, r, s, 32);
  }

  /** A left shift keeps the low part only. */
  lemma {:induction false} ShiftLeftParts(x: Word, s: nat, q: nat, r: nat)
    requires 0 < s < 32 && x == Pow2(32 - s) * q + r && r < Pow2(32 - s)
    ensures ShiftLeft(x, s) == r * Pow2(s)
  {
    PowersMultiply(32 - s, s);
    Pow2At32();
    hide Pow2;
    var p, m := Pow2(32 - s), Pow2(s);
    HighPartFits(p, m, r);
    SplitProduct(p, q, r, m);
    RemainderIs(x * m, 0x1_0000_0000, q, r * m);
  }

  lemma {:induction false} DivideParts(x: nat, p: nat)
    requires p >= 1
    ensures x == p * (x / p) + x % p && 0 <= x / p && 0 <= x % p < p
  {
  }

  lemma {:induction false} HalveFactor(half: nat, q: nat, r: nat)
    requires r < half
    ensures half * q + r == (2 * half) * (q / 2) + (half * (q % 2) + r)
    ensures 0 <= half * (q % 2) + r < 2 * half
  {
    if q % 2 == 0 {
      Commute(half, 2, q / 2);
    } else {
      Commute(half, 2, q / 2);
      assert half * (2 * (q / 2) + 1) == half * (2 * (q / 2)) + half;
    }
  }

  lemma {:induction false} Commute(a: int, b: int, c: int)
    ensures a * (b * c) == b * (a * c)
  {
  }

  lemma {:induction false} HighPartFits(p: nat, m: nat, r: nat)
    requires r < p && m >= 1
    ensures 0 <= r * m && r * m + m <= p * m
  {
    MultiplyMonotone(r + 1, p, m);
  }

  /** One more place: the top bit b of the high part wraps round to the bottom. */
  lemma {:induction false} RotateOneByParts(y: Word, half: nat, m: nat, b: nat, r: nat, q0: nat)
    requires b < 2 && r < half && q0 < m && half * m == 0x8000_0000
    requires y == (half * b + r) * m + q0
    ensures RotateOne(y) == r * (2 * m) + (2 * q0 + b)
  {
    SplitProduct(half, b, r, m);
    HighPartFits(half, m, r);
    RemainderIs(y, 0x8000_0000, b, r * m + q0);
    Commute(2, r, m);
  }

  lemma {:induction false} RotateByParts(x: Word, s: nat, q: nat, r: nat)
    requires s <= 32 && x == Pow2(32 - s) * q + r && r < Pow2(32 - s)
    ensures RotateLeft(x, s) == r * Pow2(s) + q && q < Pow2(s)
  {
    if s == 0 {
      Pow2At32();
    } else {
      hide RotateLeft;
      HalveFactor(Pow2(32 - s), q, r);
      RotateByParts(x, s - 1, q / 2, Pow2(32 - s) * (q % 2) + r);
      RotateOnce(x, s, q / 2, q % 2, r);
    }
  }

  lemma {:induction false} RotateOnce(x: Word, s: nat, q0: nat, b: nat, r: nat)
    requires 0 < s <= 32 && b < 2 && r < Pow2(32 - s) && q0 < Pow2(s - 1)
    requires RotateLeft(x, s - 1) == (Pow2(32 - s) * b + r) * Pow2(s - 1) + q0
    ensures RotateLeft(x, s) == r * Pow2(s) + (2 * q0 + b)
  {
    hide RotateOne;
    PowersMultiply(32 - s, s - 1);
    Pow2At32();
    RotateOneByParts(RotateLeft(x, s - 1), Pow2(32 - s), Pow2(s - 1), b, r, q0);
  }

  // ---- the shifts and masks that the digest uses, as quotients and remainders

  lemma {:induction false} MaskByte(x: Word)
    ensures BitAnd(x, 0xff) == x % 0x100
  {
    Pow2At32();
    AndOfMask(x, 8, 32, x / 0x100, x % 0x100);
  }

  lemma {:induction false} MaskSixBits(x: Word)
    ensures BitAnd(x, 0x3f) == x % 0x40
  {
    Pow2At32();
    AndOfMask(x, 6, 32, x / 0x40, x % 0x40);
  }

  lemma {:induction false} ShiftRightIs(x: Word)
    ensures ShiftRight(x, 3) == x / 8 && ShiftRight(x, 29) == x / 0x2000_0000
    ensures ShiftRight(x, 8) == x / 0x100 && ShiftRight(x, 16) == x / 0x1_0000 && ShiftRight(x, 24) == x / 0x100_0000
  {
    Pow2At32();
  }

  lemma {:induction false} ShiftLeftIs(x: Word)
    ensures ShiftLeft(x, 3) == 8 * x % 0x1_0000_0000
    ensures x < 0x100 ==> ShiftLeft(x, 8) == 0x100 * x && ShiftLeft(x, 16) == 0x1_0000 * x
                          && ShiftLeft(x, 24) == 0x100_0000 * x
  {
    Pow2At32();
  }

  /** The next byte up is joined to the bytes below it by an `or`. */
  lemma {:induction false} OrNextByte(low: Word, b: Byte)
    ensures low < 0x100 ==> BitOr(low, 0x100 * b) == low + 0x100 * b
    ensures low < 0x1_0000 ==> BitOr(low, 0x1_0000 * b) == low + 0x1_0000 * b
    ensures low < 0x100_0000 ==> BitOr(low, 0x100_0000 * b) == low + 0x100_0000 * b
  {
    Pow2At32();
    if low < 0x100 { OrOfDisjoint(low, b, 8, 32); }
    if low < 0x1_0000 { OrOfDisjoint(low, b, 16, 32); }
    if low < 0x100_0000 { OrOfDisjoint(low, b, 24, 32); }
  }

  // ---- what the operators do to each bit

  /** Bit k of x. */
  predicate Bit(x: nat, k: nat) {
    x / Pow2(k) % 2 == 1
  }

  lemma {:induction false} LowestBit(x: nat)
    ensures Bit(x, 0) <==> x % 2 == 1
  {
    assert x / Pow2(0) == x;
  }

  lemma {:induction false} HigherBit(x: nat, k: nat)
    requires k > 0
    ensures Bit(x, k) <==> Bit(x / 2, k - 1)
  {
    var p, h := Pow2(k - 1), x / 2;
    var q, r := h / p, h % p;
    assert h == p * q + r;
    assert x == (2 * p) * q + (2 * r + x % 2) by { assert (2 * p) * q == 2 * (p * q); }
    RemainderIs(x, 2 * p, q, 2 * r + x % 2);
  }

  lemma {:induction false} BitwiseBit(op: BitOperator, x: nat, y: nat, n: nat, k: nat)
    requires k < n
    ensures Bit(Bitwise(op, x, y, n), k) <==> op.Apply(Bit(x, k), Bit(y, k))
  {
    var low := if op.Apply(x % 2 == 1, y % 2 == 1) then 1 else 0;
    var r, half := Bitwise(op, x, y, n), Bitwise(op, x / 2, y / 2, n - 1);
    assert r == 2 * half + low && r / 2 == half && r % 2 == low;
    hide Bit, Bitwise;
    if k == 0 {
      LowestBit(x);
      LowestBit(y);
      LowestBit(r);
    } else {
      HigherBit(x, k);
      HigherBit(y, k);
      HigherBit(r, k);
      BitwiseBit(op, x / 2, y / 2, n - 1, k - 1);
    }
  }

  lemma {:induction false} AndBit(x: Word, y: Word, k: nat)
    requires k < 32
    ensures Bit(BitAnd(x, y), k) <==> Bit(x, k) && Bit(y, k)
  {
    hide Bit, Bitwise;
    BitwiseBit(And, x, y, 32, k);
  }

  lemma {:induction false} OrBit(x: Word, y: Word, k: nat)
    requires k < 32
    ensures Bit(BitOr(x, y), k) <==> Bit(x, k) || Bit(y, k)
  {
    hide Bit, Bitwise;
    BitwiseBit(Or, x, y, 32, k);
  }

  lemma {:induction false} XorBit(x: Word, y: Word, k: nat)
    requires k < 32
    ensures Bit(BitXor(x, y), k) <==> Bit(x, k) != Bit(y, k)
  {
    hide Bit, Bitwise;
    BitwiseBit(Xor, x, y, 32, k);
  }

  lemma {:induction false} NotBit(x: Word, k: nat)
    requires k < 32
    ensures Bit(BitNot(x), k) <==> !Bit(x, k)
  {
    hide Bit;
    PowersMultiply(k, 32 - k);
    Pow2At32();
    var q, r, m := x / Pow2(k), x % Pow2(k), Pow2(31 - k);
    DivideParts(x, Pow2(k));
    BitIs(x, k, q, r);
    ComplementBit(x, k, m, q, r);
  }

  lemma {:induction false} ComplementBit(x: Word, k: nat, m: nat, q: nat, r: nat)
    requires Pow2(k) * (2 * m) == 0x1_0000_0000 && x == Pow2(k) * q + r && r < Pow2(k)
    ensures Bit(BitNot(x), k) <==> q % 2 == 0
  {
    hide Bit, Pow2;
    var p := Pow2(k);
    if 2 * m <= q { MultiplyMonotone(2 * m, q, p); }
    SubtractProducts(p, 2 * m, q);
    BitIs(BitNot(x), k, 2 * m - 1 - q, p - 1 - r);
  }

  lemma {:induction false} SubtractProducts(p: int, n: int, q: int)
    ensures p * (n - 1 - q) == p * n - p - p * q
  {
  }

  /** The circular shift by one place: bit 31 becomes bit 0, every other one moves one place up. */
  lemma {:induction false} RotateOneBit(x: Word, k: nat)
    requires k < 32
    ensures Bit(RotateOne(x), k) <==> Bit(x, if k == 0 then 31 else k - 1)
  {
    hide Bit;
    var y, low, top := RotateOne(x), x % 0x8000_0000, x / 0x8000_0000;
    if k == 0 {
      LowestBit(y);
      TopBit(x);
    } else {
      HigherBit(y, k);
      assert y / 2 == low;
      LowBits(low, top, k - 1);
    }
  }

  lemma {:induction false} TopBit(x: Word)
    ensures Bit(x, 31) <==> x >= 0x8000_0000
  {
    Pow2At32();
  }

  lemma {:induction false} LowBits(low: nat, top: nat, k: nat)
    requires k < 31
    ensures Bit(low + 0x8000_0000 * top, k) <==> Bit(low, k)
  {
    hide Bit;
    PowersMultiply(k, 30 - k);
    Pow2At32();
    var q, r := low / Pow2(k), low % Pow2(k);
    DivideParts(low, Pow2(k));
    BitIs(low, k, q, r);
    MultipleAdded(low, top, k, Pow2(30 - k), q, r);
  }

  lemma {:induction false} MultipleAdded(low: nat, top: nat, k: nat, m: nat, q: nat, r: nat)
    requires Pow2(k) * m == 0x4000_0000 && low == Pow2(k) * q + r && r < Pow2(k)
    ensures Bit(low + 0x8000_0000 * top, k) <==> q % 2 == 1
  {
    hide Bit, Pow2;
    var t := HighPart(Pow2(k), q, m, top);
    BitIs(low + 0x8000_0000 * top, k, q + 2 * t, r);
  }

  lemma {:induction false} BitIs(x: nat, k: nat, q: nat, r: nat)
    requires x == Pow2(k) * q + r && r < Pow2(k)
    ensures Bit(x, k) <==> q % 2 == 1
  {
    RemainderIs(x, Pow2(k), q, r);
  }

  lemma {:induction false} HighPart(p: nat, q: nat, m: nat, top: nat) returns (t: nat)
    requires p * m == 0x4000_0000
    ensures p * (q + 2 * t) == p * q + 0x8000_0000 * top
  {
    t := m * top;
    assert p * t == (p * m) * top;
    assert p * (q + 2 * t) == p * q + 2 * (p * t);
  }

  /** The circular shift by s places moves bit k to place k + s modulo 32. */
  lemma {:induction false} RotateBit(x: Word, s: nat, k: nat)
    requires k < 32
    ensures Bit(RotateLeft(x, s), (k + s) % 32) <==> Bit(x, k)
  {
    hide Bit, RotateOne;
    if s > 0 {
      RotateBit(x, s - 1, k);
      PlaceBefore(k + s);
      RotateOneBit(RotateLeft(x, s - 1), (k + s) % 32);
    }
  }

  lemma {:induction false} PlaceBefore(n: nat)
    requires n > 0
    ensures (n - 1) % 32 == if n % 32 == 0 then 31 else n % 32 - 1
  {
  }
}
