/** Words as bit vectors: an independent meaning of the bitwise operators, byte by byte. */
module WordVectors {
  import opened Words

  function Number(a: bv8): (n: nat)
    ensures n < 0x100
  {
    a as int
  }

  function Half(a: bv8): (h: bv8) { a >> 1 }

  predicate Odd(a: bv8) { a & 1 == 1 }

  lemma {:induction false} HalfNumber(a: bv8)
    ensures Number(a) / 2 == Number(Half(a)) && (Number(a) % 2 == 1 <==> Odd(a))
  {
  }

  lemma {:induction false} JoinHalf(a: bv8)
    ensures Number(a) == 2 * Number(Half(a)) + if Odd(a) then 1 else 0
  {
  }

  function Operate(op: BitOperator, a: bv8, b: bv8): (c: bv8) {
    match op
    case And => a & b
    case Or => a | b
    case Xor => a ^ b
  }

  lemma {:induction false} OperateHalf(op: BitOperator, a: bv8, b: bv8)
    ensures Half(Operate(op, a, b)) == Operate(op, Half(a), Half(b))
  {
  }

  lemma {:induction false} OperateOdd(op: BitOperator, a: bv8, b: bv8)
    ensures Odd(Operate(op, a, b)) <==> op.Apply(Odd(a), Odd(b))
  {
  }

  lemma {:induction false} ByteOperates(op: BitOperator, a: bv8, b: bv8, n: nat)
    requires n <= 8 && Number(a) < Pow2(n) && Number(b) < Pow2(n)
    ensures Bitwise(op, Number(a), Number(b), n) == Number(Operate(op, a, b))
  {
    if n == 0 {
      NoBits(op, a, b);
    } else {
      hide Number, Half, Odd, Operate;
      HalfNumber(a);
      HalfNumber(b);
      ByteOperates(op, Half(a), Half(b), n - 1);
      OperateHalf(op, a, b);
      OperateOdd(op, a, b);
      JoinHalf(Operate(op, a, b));
    }
  }

  lemma {:induction false} NoBits(op: BitOperator, a: bv8, b: bv8)
    requires Number(a) < 1 && Number(b) < 1
    ensures Number(Operate(op, a, b)) == 0
  {
    assert a == 0 && b == 0;
  }

  /** The operators work on the low k bits and on those above them separately. */
  lemma {:induction false} BitwiseSplit(op: BitOperator, x: nat, y: nat, u: nat, v: nat, k: nat, n: nat)
    requires u < Pow2(k) && v < Pow2(k)
    ensures Bitwise(op, Pow2(k) * x + u, Pow2(k) * y + v, k + n)
         == Pow2(k) * Bitwise(op, x, y, n) + Bitwise(op, u, v, k)
    decreases k
  {
    if k > 0 {
      var p, whole, whole2 := Pow2(k - 1), Pow2(k) * x + u, Pow2(k) * y + v;
      HalveMultiple(p, x, u);
      HalveMultiple(p, y, v);
      Unfold(op, whole, whole2, k + n);
      Unfold(op, u, v, k);
      BitwiseSplit(op, x, y, u / 2, v / 2, k - 1, n);
      hide Bitwise;
      Twice(p, Bitwise(op, x, y, n));
    }
  }

  lemma {:induction false} Unfold(op: BitOperator, x: nat, y: nat, n: nat)
    requires n > 0
    ensures Bitwise(op, x, y, n)
         == 2 * Bitwise(op, x / 2, y / 2, n - 1) + if op.Apply(x % 2 == 1, y % 2 == 1) then 1 else 0
  {
  }

  lemma {:induction false} Twice(p: nat, b: nat)
    ensures 2 * (p * b) == (2 * p) * b
  {
  }

  // ---- words of four such bytes, low-order byte first

  datatype Quad = Quad(b0: bv8, b1: bv8, b2: bv8, b3: bv8)

  function Spell(q: Quad): (w: Word) {
    Number(q.b0) + 0x100 * (Number(q.b1) + 0x100 * (Number(q.b2) + 0x100 * Number(q.b3)))
  }

  lemma {:induction false} LowestByte(op: BitOperator, x: nat, y: nat, a: bv8, b: bv8, n: nat)
    ensures Bitwise(op, Number(a) + 0x100 * x, Number(b) + 0x100 * y, 8 + n)
         == Number(Operate(op, a, b)) + 0x100 * Bitwise(op, x, y, n)
  {
    hide Bitwise, Number, Operate;
    Pow2At32();
    BitwiseSplit(op, x, y, Number(a), Number(b), 8, n);
    ByteOperates(op, a, b, 8);
  }

  function OperateQuad(op: BitOperator, x: Quad, y: Quad): (q: Quad) {
    Quad(Operate(op, x.b0, y.b0), Operate(op, x.b1, y.b1), Operate(op, x.b2, y.b2), Operate(op, x.b3, y.b3))
  }

  lemma {:induction false} QuadOperates(op: BitOperator, x: Quad, y: Quad)
    ensures Bitwise(op, Spell(x), Spell(y), 32) == Spell(OperateQuad(op, x, y))
  {
    hide Bitwise, Number, Operate, Pow2;
    UpperBytes(op, x, y);
    var x1: nat := Number(x.b1) + 0x100 * (Number(x.b2) + 0x100 * Number(x.b3));
    var y1: nat := Number(y.b1) + 0x100 * (Number(y.b2) + 0x100 * Number(y.b3));
    LowestByte(op, x1, y1, x.b0, y.b0, 24);
  }

  lemma {:induction false} UpperBytes(op: BitOperator, x: Quad, y: Quad)
    ensures Bitwise(op, Number(x.b1) + 0x100 * (Number(x.b2) + 0x100 * Number(x.b3)),
                    Number(y.b1) + 0x100 * (Number(y.b2) + 0x100 * Number(y.b3)), 24)
         == Number(Operate(op, x.b1, y.b1))
            + 0x100 * (Number(Operate(op, x.b2, y.b2)) + 0x100 * Number(Operate(op, x.b3, y.b3)))
  {
    hide Bitwise, Number, Operate, Pow2;
    var x2: nat := Number(x.b2) + 0x100 * Number(x.b3);
    var y2: nat := Number(y.b2) + 0x100 * Number(y.b3);
    HighestByte(op, x.b3, y.b3);
    LowestByte(op, Number(x.b3), Number(y.b3), x.b2, y.b2, 8);
    LowestByte(op, x2, y2, x.b1, y.b1, 16);
  }

  lemma {:induction false} HighestByte(op: BitOperator, a: bv8, b: bv8)
    ensures Bitwise(op, Number(a), Number(b), 8) == Number(Operate(op, a, b))
  {
    hide Bitwise, Number, Operate;
    Pow2At32();
    ByteOperates(op, a, b, 8);
  }

  function NotQuad(x: Quad): (q: Quad) {
    Quad(!x.b0, !x.b1, !x.b2, !x.b3)
  }

  lemma {:induction false} NotNumber(a: bv8)
    ensures Number(!a) == 0xff - Number(a)
  {
  }

  lemma {:induction false} QuadNegates(x: Quad)
    ensures BitNot(Spell(x)) == Spell(NotQuad(x))
  {
    hide Number;
    NotNumber(x.b0);
    NotNumber(x.b1);
    NotNumber(x.b2);
    NotNumber(x.b3);
  }
}
