/** The streaming digest of common/md5.cc. */
module Md5 {
  import opened Words
  import opened Rfc1321
  import opened Md5Transform

  const PADDING: seq<Byte> := [0x80] + Zeros(63)

  // ---- encode and decode

  /** Shifting and masking picks the bytes of a word. */
  lemma {:induction false} MaskedShifts(w: Word)
    ensures BitAnd(w, 0xff) == BytesOf(w)[0]
    ensures BitAnd(ShiftRight(w, 8), 0xff) == BytesOf(w)[1]
    ensures BitAnd(ShiftRight(w, 16), 0xff) == BytesOf(w)[2]
    ensures BitAnd(ShiftRight(w, 24), 0xff) == BytesOf(w)[3]
  {
    hide BitAnd, ShiftRight;
    ShiftRightIs(w);
    MaskByte(w);
    MaskByte(w / 0x100);
    MaskByte(w / 0x1_0000);
    MaskByte(w / 0x100_0000);
  }

  /** The `or` of four shifted bytes is the word they spell. */
  lemma {:induction false} ShiftedBytes(b: seq<Byte>)
    requires |b| == 4
    ensures BitOr(BitOr(BitOr(b[0], ShiftLeft(b[1], 8)), ShiftLeft(b[2], 16)), ShiftLeft(b[3], 24)) == WordOf(b)
  {
    hide BitOr, ShiftLeft;
    var b0: int, b1: int, b2: int, b3: int := b[0], b[1], b[2], b[3];
    ShiftLeftIs(b1);
    ShiftLeftIs(b2);
    ShiftLeftIs(b3);
    OrNextByte(b0, b1);
    OrNextByte(b0 + 0x100 * b1, b2);
    OrNextByte(b0 + 0x100 * b1 + 0x1_0000 * b2, b3);
  }

  lemma {:induction false} BytesOfWordOf(b: seq<Byte>)
    requires |b| == 4
    ensures BytesOf(WordOf(b)) == b
  {
    var w := WordOf(b);
    var high := b[2] + 0x100 * (b[3] as int);
    RemainderIs(w, 0x100, b[1] + 0x100 * high, b[0]);
    RemainderIs(w / 0x100, 0x100, high, b[1]);
    RemainderIs(w, 0x1_0000, high, b[0] + 0x100 * (b[1] as int));
    RemainderIs(high, 0x100, b[3], b[2]);
    RemainderIs(w, 0x100_0000, b[3], b[0] + 0x100 * (b[1] as int) + 0x1_0000 * (b[2] as int));
  }

  lemma {:induction false} WordOfBytesOf(w: Word)
    ensures WordOf(BytesOf(w)) == w
  {
    assert w / 0x100 / 0x100 == w / 0x1_0000;
    assert w / 0x1_0000 / 0x100 == w / 0x100_0000;
  }

  method Encode(input: seq<Word>, output: array<Byte>, length: nat)
    requires length == 4 * |input| == output.Length
    modifies output
    ensures output[..] == AllBytesOf(input)
  {
    hide BitAnd, ShiftRight, BytesOf, AllBytesOf;
    ghost var all := AllBytesOf(input);
    var i, j := 0, 0;
    while j < length
      invariant j == 4 * i <= length
      invariant output[..j] == all[..j]
    {
      MaskedShifts(input[i]);
      BytesAt(input, i);
      output[j] := BitAnd(input[i], 0xff);
      output[j + 1] := BitAnd(ShiftRight(input[i], 8), 0xff);
      output[j + 2] := BitAnd(ShiftRight(input[i], 16), 0xff);
      output[j + 3] := BitAnd(ShiftRight(input[i], 24), 0xff);
      assert output[..j + 4] == output[..j] + BytesOf(input[i]) == all[..j] + all[j..j + 4];
      i, j := i + 1, j + 4;
    }
  }

  method Decode(input: seq<Byte>, output: array<Word>, length: nat)
    requires length == |input| == 4 * output.Length
    modifies output
    ensures output[..] == WordsOf(input)
  {
    var i, j := 0, 0;
    while j < length
      invariant j == 4 * i <= length
      invariant forall k :: 0 <= k < i ==> output[k] == WordsOf(input)[k]
    {
      hide BitOr, ShiftLeft;
      ShiftedBytes(input[j..j + 4]);
      output[i] := BitOr(BitOr(BitOr(input[j], ShiftLeft(input[j + 1], 8)), ShiftLeft(input[j + 2], 16)),
                         ShiftLeft(input[j + 3], 24));
      i, j := i + 1, j + 4;
    }
  }

  /** Decoding undoes encoding on every list of words. */
  lemma {:induction false} DecodeEncode(w: seq<Word>)
    ensures WordsOf(AllBytesOf(w)) == w
  {
    hide BytesOf, WordOf;
    forall i | 0 <= i < |w| ensures WordsOf(AllBytesOf(w))[i] == w[i] {
      BytesAt(w, i);
      WordOfBytesOf(w[i]);
    }
  }

  lemma {:induction false} BytesAt(w: seq<Word>, i: nat)
    requires i < |w|
    ensures AllBytesOf(w)[4 * i..4 * i + 4] == BytesOf(w[i])
  {
    hide BytesOf;
    forall k | 0 <= k < 4 ensures AllBytesOf(w)[4 * i + k] == BytesOf(w[i])[k] {
      RemainderIs(4 * i + k, 4, i, k);
    }
  }

  /** Encoding undoes decoding on every length that is a multiple of 4. */
  lemma {:induction false} EncodeDecode(b: seq<Byte>)
    requires |b| % 4 == 0
    ensures AllBytesOf(WordsOf(b)) == b
  {
    forall j | 0 <= j < |b| ensures AllBytesOf(WordsOf(b))[j] == b[j] {
      var four := b[4 * (j / 4)..4 * (j / 4) + 4];
      hide BytesOf, WordOf;
      BytesOfWordOf(four);
    }
  }

  // ---- the bit counter

  /** The two count words hold the length n in bits, modulo 2^64. */
  predicate Counts(c0: Word, c1: Word, n: nat) {
    c0 + 0x1_0000_0000 * c1 == 8 * n % 0x1_0000_0000_0000_0000
  }

  /** The two count words after `length` more bytes, carry included. */
  lemma {:induction false} CountAdds(c0: Word, c1: Word, n: nat, length: Word)
    requires Counts(c0, c1, n)
    ensures var bits := ShiftLeft(length, 3);
            var low := Plus(c0, bits);
            var high := Plus(if low < bits then Plus(c1, 1) else c1, ShiftRight(length, 29));
            Counts(low, high, n + length)
  {
    hide ShiftLeft, ShiftRight, Plus;
    ShiftLeftIs(length);
    ShiftRightIs(length);
    var bits, top := ShiftLeft(length, 3), ShiftRight(length, 29);
    var carry := if Plus(c0, bits) < bits then 1 else 0;
    CarryOut(c0, bits);
    PlusTwice(c1, carry, top);
    CountsSum(c0, c1, n, length, bits, top, carry, Plus(c0, bits), Plus(Plus(c1, carry), top));
    PlusZero(c1);
  }

  lemma {:induction false} PlusZero(a: Word)
    ensures Plus(a, 0) == a
  {
  }

  lemma {:induction false} CountsSum(c0: Word, c1: Word, n: nat, length: nat,
                                      bits: int, top: int, carry: int, low: Word, high: Word)
    requires Counts(c0, c1, n) && bits == 8 * length - 0x1_0000_0000 * top
    requires c0 + bits == low + 0x1_0000_0000 * carry && high == (c1 + carry + top) % 0x1_0000_0000
    ensures Counts(low, high, n + length)
  {
    var t, wraps := 8 * n / 0x1_0000_0000_0000_0000, (c1 + carry + top) / 0x1_0000_0000;
    assert c1 + carry + top == 0x1_0000_0000 * wraps + high;
    RemainderIs(8 * (n + length), 0x1_0000_0000_0000_0000, t + wraps, low + 0x1_0000_0000 * (high as int));
  }

  /** Comparing the wrapped sum with a summand detects the carry. */
  lemma {:induction false} CarryOut(a: Word, b: Word)
    ensures a + b == Plus(a, b) + (if Plus(a, b) < b then 0x1_0000_0000 else 0)
  {
  }

  lemma {:induction false} PlusTwice(a: Word, b: Word, c: Word)
    ensures Plus(Plus(a, b), c) == (a + b + c) % 0x1_0000_0000
  {
  }

  /** The low count word gives the number of bytes in the buffer. */
  lemma {:induction false} IndexOfCount(c0: Word, c1: Word, n: nat)
    requires Counts(c0, c1, n)
    ensures BitAnd(ShiftRight(c0, 3), 0x3f) == n % 64
  {
    ShiftRightIs(c0);
    MaskSixBits(c0 / 8);
    var t := 8 * n / 0x1_0000_0000_0000_0000;
    assert 8 * n == 0x1_0000_0000_0000_0000 * t + 0x1_0000_0000 * c1 + c0;
    var u := n / 64 - 0x80_0000_0000_0000 * t - 0x80_0000 * c1;
    RemainderIs(c0 / 8, 64, u, n % 64);
  }

  // ---- the block loop

  /** The loop variable of `update` before pass k: a 32-bit counter that starts at partLen. */
  function Counter(index: nat, k: nat): (w: Word)
    requires index < 64
  {
    (64 - index + 64 * k) % 0x1_0000_0000
  }

  /** The loop test `i + 63 < length`, added in 32 bits, ever fails exactly for these lengths. */
  lemma {:induction false} LoopEnds(index: nat, length: nat)
    requires index < 64 && length >= 64 - index
    ensures (exists k: nat :: Plus(Counter(index, k), 63) >= length) <==> length <= 0xffff_ffff - index
  {
    if length <= 0xffff_ffff - index {
      var k := (length + index) / 64;
      assert 64 - index + 64 * k <= 0x1_0000_0000 - index;
      if 64 - index + 64 * k == 0x1_0000_0000 {
        assert Plus(Counter(index, k - 1), 63) >= length;
      } else {
        assert Plus(Counter(index, k), 63) >= length || Plus(Counter(index, k - 1), 63) >= length;
      }
    }
    forall k: nat ensures Plus(Counter(index, k), 63) <= 0xffff_ffff - index {
      var i := Counter(index, k);
      var w := (64 - index + 64 * k) / 0x1_0000_0000;
      assert i + index == 64 * (1 + k - 0x400_0000 * w);
    }
  }

  lemma {:induction false} AbsorbPrefix(m: seq<Byte>, x: seq<Byte>, n: nat)
    requires 64 * n <= |m|
    ensures Absorb(m + x, n) == Absorb(m, n)
  {
    hide Compress;
    if n > 0 {
      AbsorbLast(m, n);
      AbsorbLast(m + x, n);
      hide Absorb;
      AbsorbPrefix(m, x, n - 1);
      SliceOfPrefix(m, x, 64 * n - 64, 64 * n);
    }
  }

  lemma {:induction false} AbsorbLast(m: seq<Byte>, n: nat)
    requires 0 < n && 64 * n <= |m|
    ensures Absorb(m, n) == Compress(Absorb(m, n - 1), m[64 * n - 64..64 * n])
  {
    hide Compress;
  }

  lemma {:induction false} SliceOfPrefix(m: seq<Byte>, x: seq<Byte>, i: nat, j: nat)
    requires i <= j <= |m|
    ensures (m + x)[i..j] == m[i..j]
  {
  }

  function AllRows(h: Registers, x: seq<Word>): (after: Registers)
    requires |x| == 16
  {
    var r1 := Row(3, Row(2, Row(1, Row(0, h, x), x), x), x);
    var r2 := Row(7, Row(6, Row(5, Row(4, r1, x), x), x), x);
    var r3 := Row(11, Row(10, Row(9, Row(8, r2, x), x), x), x);
    Row(15, Row(14, Row(13, Row(12, r3, x), x), x), x)
  }

  /** The last four additions of `transform`. */
  function FeedForward(h: Registers, r: Registers): (after: Registers) {
    Registers(Plus(h.a, r.a), Plus(h.b, r.b), Plus(h.c, r.c), Plus(h.d, r.d))
  }

  /** The four rounds and the feed-forward are the compression function. */
  lemma {:induction false} CompressByRounds(h: Registers, block: seq<Byte>)
    requires |block| == 64
    ensures Compress(h, block) == FeedForward(h, AllRows(h, WordsOf(block)))
  {
    hide Row, Plus, Operation, WordsOf;
    var x := WordsOf(block);
    RoundOperates(0, h, x);
    RoundOperates(1, h, x);
    RoundOperates(2, h, x);
    RoundOperates(3, h, x);
  }

  /** What one call of `update` leaves in the buffer that held `index` bytes. */
  function BufferAfter(buffer: seq<Byte>, index: nat, input: seq<Byte>): (after: seq<Byte>)
    requires |buffer| == 64 && index < 64
    ensures |after| == 64
  {
    if |input| < 64 - index then buffer[..index] + input + buffer[index + |input|..]
    else
      var filled := buffer[..index] + input[..64 - index];
      var rest := input[|input| - (index + |input|) % 64..];
      rest + filled[|rest|..]
  }

  /** The same, when the first i bytes of the input completed k blocks. */
  lemma {:induction false} BufferAfterBlocks(buffer: seq<Byte>, index: nat, input: seq<Byte>, i: nat, k: nat)
    requires |buffer| == 64 && index < 64 && i <= |input| < i + 64 && index + i == 64 * k && k > 0
    ensures BufferAfter(buffer, index, input) == input[i..] + (buffer[..index] + input[..64 - index])[|input| - i..]
  {
    RemainderIs(index + |input|, 64, k, |input| - i);
  }

  lemma {:induction false} BufferAfterShort(buffer: seq<Byte>, index: nat, input: seq<Byte>)
    requires |buffer| == 64 && index + |input| < 64
    ensures BufferAfter(buffer, index, input) == buffer[..index] + input + buffer[index + |input|..]
  {
  }

  /** The bytes that the object stands for after `final`: the padding of the last call has
      overwritten the buffered bytes when they were 56 or more. */
  function Kept(m: seq<Byte>): (k: seq<Byte>)
    ensures |k| == |m|
  {
    var index := |m| % 64;
    if index < 56 then m else m[..|m| - index] + Zeros(56) + LengthBytes(|m|)[..index - 56]
  }

  /** The state after the complete blocks of m. */
  function Blocks(m: seq<Byte>): (after: Registers) {
    Absorb(m, |m| / 64)
  }

  /** The bytes of m after its last complete block. */
  function Tail(m: seq<Byte>): (t: seq<Byte>)
    ensures |t| == |m| % 64
  {
    m[|m| - |m| % 64..]
  }

  lemma {:induction false} EmptyMessage()
    ensures Blocks([]) == INITIAL && Tail([]) == [] && Counts(0, 0, 0)
  {
  }

  /** memcpy. */
  method CopyInto<T>(target: array<T>, at: nat, source: seq<T>)
    requires at + |source| <= target.Length
    modifies target
    ensures target[..] == old(target[..at]) + source + old(target[at + |source|..])
  {
    forall k | 0 <= k < |source| {
      target[at + k] := source[k];
    }
  }

  /** With n complete blocks and r bytes left over. */
  lemma {:induction false} SplitAt(m: seq<Byte>, n: nat, r: nat)
    requires |m| == 64 * n + r && r < 64
    ensures |m| / 64 == n && |m| % 64 == r && Blocks(m) == Absorb(m, n) && Tail(m) == m[64 * n..]
  {
    hide Absorb;
    RemainderIs(|m|, 64, n, r);
  }

  /** The buffered tail of m and the first bytes of the input make block n. */
  lemma {:induction false} FirstBlock(m: seq<Byte>, input: seq<Byte>, n: nat, r: nat)
    requires |m| == 64 * n + r && r < 64 <= r + |input|
    ensures Compress(Absorb(m, n), m[64 * n..] + input[..64 - r]) == Absorb(m + input, n + 1)
  {
    hide Compress;
    AbsorbPrefix(m, input, n);
    assert (m + input)[64 * n..64 * (n + 1)] == m[64 * n..] + input[..64 - r];
  }

  lemma {:induction false} NextBlock(m: seq<Byte>, input: seq<Byte>, n: nat, i: nat)
    requires |m| + i == 64 * n && i + 64 <= |input|
    ensures Compress(Absorb(m + input, n), input[i..i + 64]) == Absorb(m + input, n + 1)
  {
    hide Compress;
    assert (m + input)[64 * n..64 * (n + 1)] == input[i..i + 64];
  }

  /** The encoded counter is the length field of RFC 1321. */
  lemma {:induction false} CountBytes(c0: Word, c1: Word, n: nat)
    requires Counts(c0, c1, n)
    ensures AllBytesOf([c0, c1]) == LengthBytes(n)
  {
    var bits := 8 * n % 0x1_0000_0000_0000_0000;
    RemainderIs(bits, 0x1_0000_0000, c1, c0);
    TwoWords(c0, c1);
  }

  lemma {:induction false} TwoWords(c0: Word, c1: Word)
    ensures AllBytesOf([c0, c1]) == BytesOf(c0) + BytesOf(c1)
  {
    hide BytesOf;
    BytesAt([c0, c1], 0);
    BytesAt([c0, c1], 1);
    var all := AllBytesOf([c0, c1]);
    assert all == all[4 * 0..4 * 0 + 4] + all[4 * 1..4 * 1 + 4];
  }

  lemma {:induction false} FourWords(w: seq<Word>)
    requires |w| == 4
    ensures AllBytesOf(w) == BytesOf(w[0]) + BytesOf(w[1]) + BytesOf(w[2]) + BytesOf(w[3])
  {
    hide BytesOf;
    BytesAt(w, 0);
    BytesAt(w, 1);
    BytesAt(w, 2);
    BytesAt(w, 3);
    var all := AllBytesOf(w);
    assert all == all[4 * 0..4 * 0 + 4] + all[4 * 1..4 * 1 + 4] + all[4 * 2..4 * 2 + 4] + all[4 * 3..4 * 3 + 4];
  }

  function PadLength(index: nat): (n: nat)
    requires index < 64
  {
    if index < 56 then 56 - index else 120 - index
  }

  /** The padding that `final` pushes through `update` is that of RFC 1321. */
  lemma {:induction false} PaddedByUpdates(m: seq<Byte>)
    ensures m + PADDING[..PadLength(|m| % 64)] + LengthBytes(|m|) == Padded(m)
    ensures 1 <= PadLength(|m| % 64) <= 64
    ensures (|m| + PadLength(|m| % 64)) % 64 == 56
  {
    hide LengthBytes;
    var n, r, p := |m| / 64, |m| % 64, PadLength(|m| % 64);
    RemainderIs(|m| + p, 64, if r < 56 then n else n + 1, 56);
    RemainderIs(55 - |m|, 64, if r < 56 then -n else -n - 1, p - 1);
    assert PADDING[..p] == [0x80] + Zeros(p - 1);
  }

  /** The new buffer starts with the new tail. */
  lemma {:induction false} TailAfter(m: seq<Byte>, input: seq<Byte>, buffer: seq<Byte>)
    requires |buffer| == 64 && buffer[..|m| % 64] == Tail(m)
    ensures BufferAfter(buffer, |m| % 64, input)[..|m + input| % 64] == Tail(m + input)
  {
    var n, r := |m| / 64, |m| % 64;
    var k := (r + |input|) / 64;
    RemainderIs(|m| + |input|, 64, n + k, r + |input| - 64 * k);
    if k == 0 {
      BufferAfterShort(buffer, r, input);
    } else {
      BufferAfterBlocks(buffer, r, input, 64 * k - r, k);
    }
  }

  /** What the two updates of `final` leave in the buffer. */
  lemma {:induction false} KeptTail(m: seq<Byte>, buffer: seq<Byte>)
    requires |buffer| == 64 && buffer[..|m| % 64] == Tail(m)
    ensures var r := |m| % 64;
            var padded := BufferAfter(buffer, r, PADDING[..PadLength(r)]);
            BufferAfter(padded, 56, LengthBytes(|m|))[..r] == Tail(Kept(m))
  {
    hide LengthBytes;
    var r, p, length := |m| % 64, PadLength(|m| % 64), LengthBytes(|m|);
    var padded := BufferAfter(buffer, r, PADDING[..p]);
    BufferAfterBlocks(padded, 56, length, 8, 1);
    if r < 56 {
      BufferAfterShort(buffer, r, PADDING[..p]);
    } else {
      BufferAfterBlocks(buffer, r, PADDING[..p], 64 - r, 1);
      assert PADDING[..p][64 - r..] == Zeros(56);
    }
  }

  /** The complete blocks are kept. */
  lemma {:induction false} KeptBlocks(m: seq<Byte>)
    ensures Blocks(Kept(m)) == Blocks(m)
  {
    var n := |m| / 64;
    var whole := m[..64 * n];
    AbsorbPrefix(whole, m[64 * n..], n);
    assert whole + m[64 * n..] == m;
    if |m| % 64 >= 56 {
      AbsorbPrefix(whole, Tail(Kept(m)), n);
      assert whole + Tail(Kept(m)) == Kept(m);
    }
  }

  lemma {:induction false} DigestOfBlocks(m: seq<Byte>, state: seq<Word>)
    requires |state| == 4 && Registers(state[0], state[1], state[2], state[3]) == Blocks(Padded(m))
    ensures AllBytesOf(state) == Rfc1321.Digest(m)
  {
    hide Absorb, Padded, BytesOf;
    FourWords(state);
  }

  class MD5 {
    const state: array<Word>
    const count: array<Word>
    const buffer: array<Byte>
    const digest: array<Byte>
    var finished: bool
    /** The bytes taken in since the last reset. */
    ghost var message: seq<Byte>

    ghost predicate Layout()
    {
      state.Length == 4 && count.Length == 2 && buffer.Length == 64 && digest.Length == 16 &&
      state != count && buffer != digest &&
      state as object !in {buffer as object, digest} && count as object !in {buffer as object, digest}
    }

    ghost function Footprint(): (objects: set<object>)
    {
      {this, state, count, buffer, digest}
    }

    function Chaining(): (after: Registers)
      requires Layout()
      reads state
    {
      Registers(state[0], state[1], state[2], state[3])
    }

    /** The fields hold m: its complete blocks in the state, its tail in the buffer, its length
        in bits modulo 2^64 in the two count words. */
    ghost predicate Holds(m: seq<Byte>)
      reads state, count, buffer
    {
      Layout() &&
      Chaining() == Blocks(m) && Counts(count[0], count[1], |m|) && buffer[..|m| % 64] == Tail(m)
    }

    ghost predicate Valid()
      reads Footprint()
    {
      Holds(message) && !finished
    }

    constructor ()
      ensures Valid() && message == [] && fresh(Footprint())
    {
      state, count, buffer, digest := new Word[4], new Word[2], new Byte[64], new Byte[16];
      new;
      Reset();
    }

    method Reset()
      requires Layout()
      modifies Footprint()
      ensures Valid() && message == []
      ensures buffer[..] == old(buffer[..]) && digest[..] == old(digest[..])
    {
      hide Blocks, Tail, Counts;
      EmptyMessage();
      finished := false;
      count[0], count[1] := 0, 0;
      state[0] := 0x67452301;
      state[1] := 0xefcdab89;
      state[2] := 0x98badcfe;
      state[3] := 0x10325476;
      message := [];
    }

    /** The private `transform`: the unrolled steps are the compression function of RFC 1321. */
    method Transform(block: seq<Byte>)
      requires Layout() && |block| == 64
      modifies state
      ensures Chaining() == Compress(old(Chaining()), block)
    {
      hide Compress, Operations, Row, WordsOf;
      var x := new Word[16];
      Decode(block, x, 64);
      ghost var h := Chaining();
      ghost var words := WordsOf(block);
      var a, b, c, d := Round1(Chaining(), x[..]);
      a, b, c, d := Round2(Registers(a, b, c, d), x[..]);
      a, b, c, d := Round3(Registers(a, b, c, d), x[..]);
      a, b, c, d := Round4(Registers(a, b, c, d), x[..]);
      CompressByRounds(h, block);
      state[0] := Plus(state[0], a);
      state[1] := Plus(state[1], b);
      state[2] := Plus(state[2], c);
      state[3] := Plus(state[3], d);
    }

    /** The counter part of `update`. */
    method AddBits(length: Word, ghost n: nat)
      requires Layout() && Counts(count[0], count[1], n)
      modifies count
      ensures Counts(count[0], count[1], n + length)
    {
      hide Counts, ShiftLeft, ShiftRight;
      CountAdds(count[0], count[1], n, length);
      count[0] := Plus(count[0], ShiftLeft(length, 3));
      if count[0] < ShiftLeft(length, 3) {
        count[1] := Plus(count[1], 1);
      }
      count[1] := Plus(count[1], ShiftRight(length, 29));
    }

    /** The block loop of `update`, run on the input from offset `from`. */
    method TransformBlocks(input: seq<Byte>, from: Word, ghost m: seq<Byte>, ghost blocks: nat)
      returns (i: Word, ghost n: nat)
      requires Layout() && from <= |input| && |input| <= 0xffff_ffff - |m| % 64
      requires |m| + from == 64 * blocks && Chaining() == Absorb(m + input, blocks)
      modifies state
      ensures from <= i <= |input| < i + 64 && |m| + i == 64 * n && blocks <= n
      ensures Chaining() == Absorb(m + input, n)
    {
      hide Absorb, Compress;
      i, n := from, blocks;
      while Plus(i, 63) < |input|
        invariant from <= i <= |input| && |m| + i == 64 * n && blocks <= n
        invariant Chaining() == Absorb(m + input, n)
        decreases |input| - i
      {
        NextBlock(m, input, n, i);
        Transform(input[i..i + 64]);
        i, n := Plus(i, 64), n + 1;
      }
    }

    /** The branch of `update` for an input that completes the buffered block. */
    method FillAndTransform(input: seq<Byte>, index: Word, ghost m: seq<Byte>, ghost blocks: nat)
      returns (i: Word, ghost n: nat)
      requires Layout() && index < 64 <= index + |input| && |input| <= 0xffff_ffff - index
      requires |m| == 64 * blocks + index && Chaining() == Absorb(m, blocks) && buffer[..index] == m[64 * blocks..]
      modifies state, buffer
      ensures 64 - index <= i <= |input| < i + 64 && |m| + i == 64 * n && blocks < n
      ensures Chaining() == Absorb(m + input, n)
      ensures buffer[..] == old(buffer[..index]) + input[..64 - index]
    {
      hide Absorb, Compress;
      var partLen := 64 - index;
      RemainderIs(|m|, 64, blocks, index);
      CopyInto(buffer, index, input[..partLen]);
      FirstBlock(m, input, blocks, index);
      assert buffer[..] == m[64 * blocks..] + input[..partLen];
      Transform(buffer[..]);
      i, n := TransformBlocks(input, partLen, m, blocks + 1);
    }

    /** The private `update`, for every length on which its loop ends (LoopEnds). */
    method Update(input: seq<Byte>)
      requires Holds(message) && |input| <= 0xffff_ffff - |message| % 64
      modifies Footprint()
      ensures Valid() && message == old(message) + input
      ensures buffer[..] == BufferAfter(old(buffer[..]), |old(message)| % 64, input)
      ensures digest[..] == old(digest[..])
    {
      hide Counts, Blocks, Tail, Absorb, Compress, BitAnd, ShiftRight, BufferAfter;
      ghost var m, n, r, was := message, |message| / 64, |message| % 64, buffer[..];
      SplitAt(m, n, r);
      var length := |input|;
      finished := false;
      IndexOfCount(count[0], count[1], |m|);
      var index := BitAnd(ShiftRight(count[0], 3), 0x3f);
      AddBits(length, |m|);
      var partLen := 64 - index;
      var i: Word := 0;
      if length >= partLen {
        i, n := FillAndTransform(input, index, m, n);
        BufferAfterBlocks(was, r, input, i, n - |m| / 64);
        index := 0;
      } else {
        AbsorbPrefix(m, input, n);
        BufferAfterShort(was, r, input);
      }
      SplitAt(m + input, n, index + length - i);
      TailAfter(m, input, was);
      CopyInto(buffer, index, input[i..length]);
      message := m + input;
    }

    /** The part of `final` between saving and restoring state and counter. */
    method PadAndEncode()
      requires Holds(message)
      modifies Footprint()
      ensures Layout() && !finished && message == Padded(old(message))
      ensures digest[..] == Rfc1321.Digest(old(message))
      ensures buffer[..|old(message)| % 64] == Tail(Kept(old(message)))
    {
      hide Counts, Blocks, Tail, Absorb, Compress, BitAnd, ShiftRight, BufferAfter, Kept, Padded, LengthBytes,
           Rfc1321.Digest;
      ghost var m := message;
      var bits := new Byte[8];
      Encode(count[..], bits, 8);
      assert count[..] == [count[0], count[1]];
      CountBytes(count[0], count[1], |m|);
      IndexOfCount(count[0], count[1], |m|);
      var index := BitAnd(ShiftRight(count[0], 3), 0x3f);
      var padLen := if index < 56 then 56 - index else 120 - index;
      PaddedByUpdates(m);
      KeptTail(m, buffer[..]);
      Update(PADDING[..padLen]);
      Update(bits[..]);
      Encode(state[..], digest, 16);
      DigestOfBlocks(m, state[..]);
    }

    /** `final`: the digest of the bytes taken in. State and counter are put back; the object
        then stands for Kept of those bytes. */
    method Final()
      requires Holds(message)
      modifies Footprint()
      ensures Valid() && message == Kept(old(message))
      ensures digest[..] == Rfc1321.Digest(old(message))
      ensures state[..] == old(state[..]) && count[..] == old(count[..])
    {
      hide Counts, Blocks, Tail, Kept, Padded, Rfc1321.Digest;
      ghost var m := message;
      var oldState, oldCount := state[..], count[..];
      PadAndEncode();
      CopyInto(state, 0, oldState);
      CopyInto(count, 0, oldCount);
      assert state[..] == oldState && count[..] == oldCount;
      KeptBlocks(m);
      message := Kept(m);
    }

    /** `digest()`. The updates inside `final` clear `finished` again, so every call recomputes. */
    method Finish() returns (d: array<Byte>)
      requires Valid()
      modifies Footprint()
      ensures Valid() && message == Kept(old(message))
      ensures d == digest && d[..] == Rfc1321.Digest(old(message))
    {
      if !finished {
        finished := true;
        Final();
      }
      d := digest;
    }

    method ToString() returns (s: string)
      requires Valid()
      modifies Footprint()
      ensures Valid() && message == Kept(old(message))
      ensures s == Hex(Rfc1321.Digest(old(message)))
    {
      var d := Finish();
      s := BytesToHexString(d[..]);
    }

    /** The public `update` overloads: they start over. */
    method UpdateFromStart(input: seq<Byte>)
      requires Layout() && |input| <= 0xffff_ffff
      modifies Footprint()
      ensures Valid() && message == input
    {
      Reset();
      Update(input);
    }
  }

  function Concat(chunks: seq<seq<Byte>>): (bytes: seq<Byte>) {
    if chunks == [] then [] else Concat(chunks[..|chunks| - 1]) + chunks[|chunks| - 1]
  }

  /** `update` returns for chunk i (LoopEnds), with the bytes that the chunks before it left buffered. */
  ghost predicate Returns(chunks: seq<seq<Byte>>, i: nat)
    requires i < |chunks|
  {
    |chunks[i]| <= 0xffff_ffff - |Concat(chunks[..i])| % 64
  }

  /** One object, fed with any list of chunks: the digest is that of their concatenation. */
  method DigestOfChunks(chunks: seq<seq<Byte>>) returns (d: seq<Byte>)
    requires forall i :: 0 <= i < |chunks| ==> Returns(chunks, i)
    ensures d == Rfc1321.Digest(Concat(chunks))
  {
    hide Rfc1321.Digest, Blocks, Tail, Counts, BufferAfter, Kept;
    var md5 := new MD5();
    for i := 0 to |chunks|
      invariant fresh(md5.Footprint()) && md5.Valid() && md5.message == Concat(chunks[..i])
    {
      assert chunks[..i + 1][..i] == chunks[..i];
      assert Returns(chunks, i);
      md5.Update(chunks[i]);
    }
    assert chunks[..|chunks|] == chunks;
    var digest := md5.Finish();
    d := digest[..];
  }

  /** The use in src/futures_proxy.cc: the constructor, toString() for the signature, and toString()
      once more when the log line is written. */
  method SignThenLog(text: seq<Byte>) returns (signed: string, logged: string)
    requires |text| <= 0xffff_ffff
    ensures signed == Hex(Rfc1321.Digest(text)) && logged == Hex(Rfc1321.Digest(Kept(text)))
    ensures |text| % 64 < 56 ==> logged == signed
  {
    var md5 := new MD5();
    md5.UpdateFromStart(text);
    signed := md5.ToString();
    logged := md5.ToString();
  }

  // ---- hex output

  function HexDigit(n: nat): (d: char)
    requires n < 16
  {
    "0123456789abcdef"[n]
  }

  function HexByte(b: Byte): (s: string)
    ensures |s| == 2
  {
    [HexDigit(b / 16), HexDigit(b % 16)]
  }

  function Hex(bytes: seq<Byte>): (s: string)
    ensures |s| == 2 * |bytes|
  {
    if bytes == [] then "" else HexByte(bytes[0]) + Hex(bytes[1..])
  }

  method BytesToHexString(input: seq<Byte>) returns (str: string)
    ensures str == Hex(input)
  {
    str := "";
    for i := 0 to |input|
      invariant str + Hex(input[i..]) == Hex(input)
    {
      var t := input[i];
      var a := t / 16;
      var b := t % 16;
      assert Hex(input[i..]) == HexByte(t) + Hex(input[i + 1..]) by {
        assert input[i..][1..] == input[i + 1..];
      }
      str := str + [HexDigit(a)];
      str := str + [HexDigit(b)];
    }
  }

  /** The value of a hexadecimal digit, small letters only. */
  function HexValue(c: char): (n: int) {
    if '0' <= c <= '9' then c as int - 48 else if 'a' <= c <= 'f' then c as int - 87 else -1
  }

  /** Each byte is printed as two digits, the high half first. */
  lemma {:induction false} HexReads(bytes: seq<Byte>, k: nat)
    requires k < |bytes|
    ensures HexValue(Hex(bytes)[2 * k]) == bytes[k] / 16 && HexValue(Hex(bytes)[2 * k + 1]) == bytes[k] % 16
  {
    var first, more := HexByte(bytes[0]), Hex(bytes[1..]);
    assert Hex(bytes) == first + more;
    if k == 0 {
      HexDigitReads(bytes[0] / 16);
      HexDigitReads(bytes[0] % 16);
    } else {
      HexReads(bytes[1..], k - 1);
      assert Hex(bytes)[2 * k] == more[2 * (k - 1)] && Hex(bytes)[2 * k + 1] == more[2 * (k - 1) + 1];
    }
  }

  lemma {:induction false} HexDigitReads(n: nat)
    requires n < 16
    ensures HexValue(HexDigit(n)) == n
  {
  }

  /** Different digests print differently. */
  lemma {:induction false} HexInjective(a: seq<Byte>, b: seq<Byte>)
    requires Hex(a) == Hex(b)
    ensures a == b
  {
    if a != [] && b != [] {
      hide HexByte;
      assert HexByte(a[0]) == Hex(a)[..2] == Hex(b)[..2] == HexByte(b[0]);
      assert Hex(a[1..]) == Hex(a)[2..] == Hex(b)[2..] == Hex(b[1..]);
      HexByteInjective(a[0], b[0]);
      HexInjective(a[1..], b[1..]);
      assert a == [a[0]] + a[1..] && b == [b[0]] + b[1..];
    }
  }

  lemma {:induction false} HexByteInjective(a: Byte, b: Byte)
    requires HexByte(a) == HexByte(b)
    ensures a == b
  {
    hide HexDigit;
    assert HexByte(a)[0] == HexByte(b)[0] && HexByte(a)[1] == HexByte(b)[1];
    HexDigitInjective(a / 16, b / 16);
    HexDigitInjective(a % 16, b % 16);
  }

  lemma {:induction false} HexDigitInjective(m: nat, n: nat)
    requires m < 16 && n < 16
    ensures HexDigit(m) == HexDigit(n) ==> m == n
  {
  }

  // ---- which messages survive finalisation

  /** `final` leaves the object standing for the same bytes exactly when fewer than 56 bytes were
      buffered, or the buffered bytes already were the zeros and length bytes it writes there. */
  lemma {:induction false} KeptExactly(m: seq<Byte>)
    ensures Kept(m) == m
        <==> |m| % 64 < 56 || Tail(m) == Zeros(56) + LengthBytes(|m|)[..|m| % 64 - 56]
  {
    var whole := m[..|m| - |m| % 64];
    assert whole + Tail(m) == m;
    if |m| % 64 >= 56 {
      var t := Zeros(56) + LengthBytes(|m|)[..|m| % 64 - 56];
      assert Kept(m) == whole + t;
      if Kept(m) == m {
        assert t == Kept(m)[|whole|..] == Tail(m);
      }
    }
  }

  /** From the second finalisation on nothing changes any more. */
  lemma {:induction false} KeptTwice(m: seq<Byte>)
    ensures Kept(Kept(m)) == Kept(m)
  {
    KeptExactly(Kept(m));
    if |m| % 64 >= 56 {
      var whole := m[..|m| - |m| % 64];
      assert Kept(m) == whole + (Zeros(56) + LengthBytes(|m|)[..|m| % 64 - 56]);
    }
  }

  /** Fifty-six times the letter 'a' does not survive. */
  lemma {:induction false} KeptFails()
    ensures var m := seq(56, _ => 97 as Byte); Kept(m) != m
  {
    var m := seq(56, _ => 97 as Byte);
    KeptExactly(m);
    assert Tail(m)[0] == 97;
  }

  // ---- the two chunkings and the padding

  /** Distinct messages are padded to distinct byte sequences. */
  lemma {:induction false} PaddedInjective(a: seq<Byte>, b: seq<Byte>)
    requires Padded(a) == Padded(b)
    ensures a == b
  {
    if |a| > |b| {
      PaddedLength(a, b);
    } else if |b| > |a| {
      PaddedLength(b, a);
    }
    assert Padded(a)[..|a|] == a && Padded(b)[..|b|] == b;
  }

  /** The byte 0x80 that ends the longer message would have to be a padding zero of the shorter. */
  lemma {:induction false} PaddedLength(a: seq<Byte>, b: seq<Byte>)
    requires |a| > |b|
    ensures |Padded(a)| == |Padded(b)| ==> Padded(a)[|a|] != Padded(b)[|a|]
  {
    hide LengthBytes;
    assert Padded(a)[|a|] == 0x80;
    if |Padded(a)| == |Padded(b)| {
      assert Padded(b)[|a|] == Zeros((55 - |b|) % 64)[|a| - |b| - 1] == 0;
    }
  }
}
