/** The CRC-32 (ISO-HDLC) that seals the steps, streams and protocols of a StudyStart. */
module Crc {
  import opened Bytes

  /** The reflected polynomial of section 8.1.1.6.2 of ITU-T V.42. */
  const POLYNOMIAL: bv32 := 0xEDB8_8320
  const ALL_ONES: bv32 := 0xFFFF_FFFF

  /**
   * The 32-bit shift register. Wrapping the word keeps its bits out of the lemmas that only use
   * the register's algebra; those `hide` the four operations below.
   */
  datatype Register = Register(bits: bv32)

  const START := Register(ALL_ONES)

  function XorBits(a: bv32, b: bv32): bv32 {
    a ^ b
  }

  function Xor(a: Register, b: Register): Register {
    Register(XorBits(a.bits, b.bits))
  }

  /** One step: the low bit leaves and feeds the polynomial back. */
  function Out(x: bv32): bv32 {
    if x & 1 == 1 then (x >> 1) ^ POLYNOMIAL else x >> 1
  }

  function ShiftOut(r: Register): Register {
    Register(Out(r.bits))
  }

  function Up8(r: Register): Register {
    Register(r.bits << 8)
  }

  function FromBits(b7: bool, b6: bool, b5: bool, b4: bool, b3: bool, b2: bool, b1: bool, b0: bool): bv32 {
    (if b7 then 0x80 else 0) | (if b6 then 0x40 else 0) | (if b5 then 0x20 else 0) | (if b4 then 0x10 else 0) |
    (if b3 then 0x08 else 0) | (if b2 then 0x04 else 0) | (if b1 then 0x02 else 0) | (if b0 then 0x01 else 0)
  }

  predicate Bit(n: nat, k: nat)
    decreases k
  {
    if k == 0 then n % 2 == 1 else Bit(n / 2, k - 1)
  }

  /** The byte zero-extended, bit by bit. */
  function FromByte(b: Byte): Register {
    Register(FromBits(Bit(b, 7), Bit(b, 6), Bit(b, 5), Bit(b, 4), Bit(b, 3), Bit(b, 2), Bit(b, 1), Bit(b, 0)))
  }

  function ShiftBits(r: Register, bits: nat): Register
    decreases bits
  {
    if bits == 0 then r else ShiftBits(ShiftOut(r), bits - 1)
  }

  /** The register after `data` was shifted through it. */
  function Feed(r: Register, data: seq<Byte>): Register
    decreases data
  {
    if data == [] then r else Feed(ShiftBits(Xor(r, FromByte(data[0])), 8), data[1..])
  }

  function Crc32(data: seq<Byte>): Register {
    Xor(Feed(START, data), START)
  }

  /** The value a StudyStart carries and compares. */
  function Checksum(data: seq<Byte>): U32 {
    Crc32(data).bits as int
  }

  /** `dbm_crc32`: bitwise, one conditional XOR per bit, through a mask rather than a branch. */
  method ComputeCrc32(data: seq<Byte>) returns (checksum: U32)
    ensures checksum == Checksum(data)
  {
    hide ShiftOut, Xor, FromByte;
    var crc := START;
    var i := 0;
    while i < |data|
      invariant 0 <= i <= |data|
      invariant Feed(crc, data[i..]) == Feed(START, data)
    {
      assert data[i..][1..] == data[i + 1..];
      crc := Xor(crc, FromByte(data[i]));
      ghost var fed := crc;
      var bit := 0;
      while bit < 8
        invariant 0 <= bit <= 8
        invariant ShiftBits(crc, 8 - bit) == ShiftBits(fed, 8)
      {
        crc := MaskedShift(crc);
        bit := bit + 1;
      }
      i := i + 1;
    }
    checksum := Xor(crc, START).bits as int;
  }

  /** The loop body's branch-free form: all ones or all zeros masks the polynomial. */
  function MaskedShift(r: Register): (s: Register)
    ensures s == ShiftOut(r)
  {
    var mask := 0 - (r.bits & 1);
    Register((r.bits >> 1) ^ (POLYNOMIAL & mask))
  }

  // ---- The register is a linear bijection ------------------------------------

  lemma LowBitOfXor(x: bv32, y: bv32)
    ensures ((x ^ y) & 1 == 1) <==> ((x & 1 == 1) != (y & 1 == 1))
  {
  }

  lemma HalfOfXor(x: bv32, y: bv32)
    ensures (x ^ y) >> 1 == (x >> 1) ^ (y >> 1)
  {
  }

  lemma XorAssociates(a: bv32, b: bv32, c: bv32)
    ensures XorBits(XorBits(a, b), c) == XorBits(a, XorBits(b, c))
  {
  }

  lemma XorCommutes(a: bv32, b: bv32)
    ensures XorBits(a, b) == XorBits(b, a)
  {
  }

  lemma XorCancels(a: bv32, b: bv32, c: bv32)
    ensures XorBits(a, b) == XorBits(a, c) ==> b == c
  {
  }

  lemma XorGroup(a: Register, b: Register, c: Register)
    ensures Xor(Xor(a, b), c) == Xor(a, Xor(b, c))
    ensures Xor(a, b) == Xor(b, a)
    ensures Xor(a, b) == Xor(a, c) ==> b == c
  {
    hide XorBits;
    XorAssociates(a.bits, b.bits, c.bits);
    XorCommutes(a.bits, b.bits);
    XorCancels(a.bits, b.bits, c.bits);
  }

  lemma XorMovesOut(a: bv32, b: bv32, p: bv32)
    ensures (a ^ p) ^ (b ^ p) == a ^ b
    ensures (a ^ b) ^ p == a ^ (b ^ p) && (a ^ b) ^ p == (a ^ p) ^ b
  {
  }

  lemma OutLinear(x: bv32, y: bv32)
    ensures Out(x ^ y) == Out(x) ^ Out(y)
  {
    LowBitOfXor(x, y);
    HalfOfXor(x, y);
    XorMovesOut(x >> 1, y >> 1, POLYNOMIAL);
  }

  lemma OutDistributes(x: bv32, y: bv32)
    ensures Out(XorBits(x, y)) == XorBits(Out(x), Out(y))
  {
    hide Out;
    OutLinear(x, y);
  }

  lemma ShiftOutLinear(x: Register, y: Register)
    ensures ShiftOut(Xor(x, y)) == Xor(ShiftOut(x), ShiftOut(y))
  {
    hide Out, XorBits;
    OutDistributes(x.bits, y.bits);
  }

  lemma ShiftOutInjective(x: Register, y: Register)
    requires ShiftOut(x) == ShiftOut(y)
    ensures x == y
  {
  }

  lemma {:induction false} ShiftBitsLinear(x: Register, y: Register, bits: nat)
    ensures ShiftBits(Xor(x, y), bits) == Xor(ShiftBits(x, bits), ShiftBits(y, bits))
    decreases bits
  {
    hide ShiftOut, Xor;
    if bits > 0 {
      ShiftOutLinear(x, y);
      ShiftBitsLinear(ShiftOut(x), ShiftOut(y), bits - 1);
    }
  }

  lemma {:induction false} ShiftBitsInjective(x: Register, y: Register, bits: nat)
    requires ShiftBits(x, bits) == ShiftBits(y, bits)
    ensures x == y
    decreases bits
  {
    hide ShiftOut;
    if bits > 0 {
      ShiftBitsInjective(ShiftOut(x), ShiftOut(y), bits - 1);
      ShiftOutInjective(x, y);
    }
  }

  lemma {:induction false} ShiftBitsAdd(r: Register, m: nat, n: nat)
    ensures ShiftBits(ShiftBits(r, m), n) == ShiftBits(r, m + n)
    decreases m
  {
    hide ShiftOut;
    if m > 0 {
      ShiftBitsAdd(ShiftOut(r), m - 1, n);
    }
  }

  lemma {:induction false} FeedAppend(r: Register, a: seq<Byte>, b: seq<Byte>)
    ensures Feed(r, a + b) == Feed(Feed(r, a), b)
    decreases a
  {
    hide ShiftBits, Xor, FromByte;
    if a == [] {
      assert a + b == b;
    } else {
      assert (a + b)[1..] == a[1..] + b;
      FeedAppend(ShiftBits(Xor(r, FromByte(a[0])), 8), a[1..], b);
    }
  }

  lemma {:induction false} FeedInjective(x: Register, y: Register, data: seq<Byte>)
    requires Feed(x, data) == Feed(y, data)
    ensures x == y
    decreases data
  {
    hide ShiftBits, Xor, FromByte;
    if data != [] {
      var d := FromByte(data[0]);
      FeedInjective(ShiftBits(Xor(x, d), 8), ShiftBits(Xor(y, d), 8), data[1..]);
      ShiftBitsInjective(Xor(x, d), Xor(y, d), 8);
      XorGroup(x, d, d);
      XorGroup(y, d, d);
      XorGroup(d, x, y);
    }
  }

  // ---- A window of four bytes is one word --------------------------------------

  /** Up to four bytes as one little-endian word. */
  function Word(w: seq<Byte>): Register {
    if w == [] then Register(0) else Xor(FromByte(w[0]), Up8(Word(w[1..])))
  }

  /** The word uses only its first `n` bytes. */
  predicate Fits(r: Register, n: nat) {
    if n == 0 then r.bits == 0
    else if n == 1 then r.bits <= 0xFF
    else if n == 2 then r.bits <= 0xFFFF
    else if n == 3 then r.bits <= 0xFF_FFFF
    else true
  }

  lemma FromBitsInjective(a7: bool, a6: bool, a5: bool, a4: bool, a3: bool, a2: bool, a1: bool, a0: bool,
                          b7: bool, b6: bool, b5: bool, b4: bool, b3: bool, b2: bool, b1: bool, b0: bool)
    requires FromBits(a7, a6, a5, a4, a3, a2, a1, a0) == FromBits(b7, b6, b5, b4, b3, b2, b1, b0)
    ensures a7 == b7 && a6 == b6 && a5 == b5 && a4 == b4 && a3 == b3 && a2 == b2 && a1 == b1 && a0 == b0
  {
  }

  function Pow2(n: nat): nat {
    if n == 0 then 1 else 2 * Pow2(n - 1)
  }

  lemma {:induction false} SameBits(a: nat, b: nat, n: nat)
    requires a < Pow2(n) && b < Pow2(n)
    requires forall k: nat | k < n :: Bit(a, k) == Bit(b, k)
    ensures a == b
    decreases n
  {
    if n > 0 {
      assert Bit(a, 0) == Bit(b, 0);
      forall k: nat | k < n - 1
        ensures Bit(a / 2, k) == Bit(b / 2, k)
      {
        assert Bit(a, k + 1) == Bit(b, k + 1);
      }
      SameBits(a / 2, b / 2, n - 1);
    }
  }

  lemma SameByte(a: Byte, b: Byte)
    requires Bit(a, 7) == Bit(b, 7) && Bit(a, 6) == Bit(b, 6) && Bit(a, 5) == Bit(b, 5) && Bit(a, 4) == Bit(b, 4)
    requires Bit(a, 3) == Bit(b, 3) && Bit(a, 2) == Bit(b, 2) && Bit(a, 1) == Bit(b, 1) && Bit(a, 0) == Bit(b, 0)
    ensures a == b
  {
    hide Bit;
    assert Pow2(8) == 256;
    SameBits(a, b, 8);
  }

  lemma FromByteInjective(a: Byte, b: Byte)
    requires FromByte(a) == FromByte(b)
    ensures a == b
  {
    hide FromBits, Bit;
    FromBitsInjective(Bit(a, 7), Bit(a, 6), Bit(a, 5), Bit(a, 4), Bit(a, 3), Bit(a, 2), Bit(a, 1), Bit(a, 0),
                      Bit(b, 7), Bit(b, 6), Bit(b, 5), Bit(b, 4), Bit(b, 3), Bit(b, 2), Bit(b, 1), Bit(b, 0));
    SameByte(a, b);
  }

  lemma FromByteFits(b: Byte)
    ensures Fits(FromByte(b), 1)
  {
  }

  lemma FitsStep(lo: Register, hi: Register, n: nat)
    requires 1 <= n <= 4
    requires Fits(lo, 1) && Fits(hi, n - 1)
    ensures Fits(Xor(lo, Up8(hi)), n)
    ensures Fits(hi, 3)
  {
  }

  lemma {:induction false} WordFits(w: seq<Byte>)
    requires |w| <= 4
    ensures Fits(Word(w), |w|)
  {
    hide Xor, Up8, FromByte;
    if w != [] {
      WordFits(w[1..]);
      FromByteFits(w[0]);
      FitsStep(FromByte(w[0]), Word(w[1..]), |w|);
    }
  }

  lemma SplitWord(lo: Register, hi: Register, lo': Register, hi': Register)
    requires Fits(lo, 1) && Fits(lo', 1) && Fits(hi, 3) && Fits(hi', 3)
    requires Xor(lo, Up8(hi)) == Xor(lo', Up8(hi'))
    ensures lo == lo' && hi == hi'
  {
  }

  lemma {:induction false} WordInjective(a: seq<Byte>, b: seq<Byte>)
    requires |a| == |b| <= 4
    requires Word(a) == Word(b)
    ensures a == b
  {
    hide Xor, Up8, FromByte, Fits;
    if a != [] {
      var hi, hi' := Word(a[1..]), Word(b[1..]);
      FromByteFits(a[0]);
      FromByteFits(b[0]);
      WordFits(a[1..]);
      WordFits(b[1..]);
      FitsStep(FromByte(a[0]), hi, |a|);
      FitsStep(FromByte(b[0]), hi', |a|);
      SplitWord(FromByte(a[0]), hi, FromByte(b[0]), hi');
      FromByteInjective(a[0], b[0]);
      WordInjective(a[1..], b[1..]);
      assert a == [a[0]] + a[1..] && b == [b[0]] + b[1..];
    }
  }

  lemma EightZeroBits(x: bv32)
    requires x <= 0xFF_FFFF
    ensures Out(Out(Out(Out(Out(Out(Out(Out(x << 8)))))))) == x
  {
  }

  lemma EightSteps(r: Register)
    ensures ShiftBits(r, 8).bits == Out(Out(Out(Out(Out(Out(Out(Out(r.bits))))))))
  {
    hide Out;
    ShiftBitsAdd(r, 4, 4);
    FourSteps(r);
    FourSteps(ShiftBits(r, 4));
  }

  lemma FourSteps(r: Register)
    ensures ShiftBits(r, 4).bits == Out(Out(Out(Out(r.bits))))
  {
    hide Out;
    ShiftBitsAdd(r, 1, 3);
    ShiftBitsAdd(ShiftOut(r), 1, 2);
    ShiftBitsAdd(ShiftOut(ShiftOut(r)), 1, 1);
  }

  /** Shifting out eight zero bits only moves the register down. */
  lemma ShiftZeroByte(r: Register)
    requires Fits(r, 3)
    ensures ShiftBits(Up8(r), 8) == r
  {
    hide Out;
    EightSteps(Up8(r));
    EightZeroBits(r.bits);
  }

  /** A window of at most four bytes enters the register as one word. */
  lemma {:induction false} FeedIsWord(r: Register, w: seq<Byte>)
    requires |w| <= 4
    ensures Feed(r, w) == ShiftBits(Xor(r, Word(w)), 8 * |w|)
    decreases w
  {
    if w == [] {
      FeedNothing(r);
    } else {
      FeedIsWordStep(r, w);
    }
  }

  lemma FeedNothing(r: Register)
    ensures Xor(r, Register(0)) == r
  {
  }

  lemma {:induction false} FeedIsWordStep(r: Register, w: seq<Byte>)
    requires 1 <= |w| <= 4
    ensures Feed(r, w) == ShiftBits(Xor(r, Word(w)), 8 * |w|)
    decreases w, 0
  {
    hide ShiftBits, Xor, Up8, FromByte, Fits;
    var b, hi, n := FromByte(w[0]), Word(w[1..]), 8 * (|w| - 1);
    FromByteFits(w[0]);
    WordFits(w[1..]);
    FitsStep(b, hi, |w|);
    var fed := Xor(r, b);
    calc {
      Feed(r, w);
      Feed(ShiftBits(fed, 8), w[1..]);
      { FeedIsWord(ShiftBits(fed, 8), w[1..]); }
      ShiftBits(Xor(ShiftBits(fed, 8), hi), n);
      { ShiftZeroByte(hi); }
      ShiftBits(Xor(ShiftBits(fed, 8), ShiftBits(Up8(hi), 8)), n);
      { ShiftBitsLinear(fed, Up8(hi), 8); }
      ShiftBits(ShiftBits(Xor(fed, Up8(hi)), 8), n);
      { ShiftBitsAdd(Xor(fed, Up8(hi)), 8, n); }
      ShiftBits(Xor(fed, Up8(hi)), 8 * |w|);
      { XorGroup(r, b, Up8(hi)); }
      ShiftBits(Xor(r, Word(w)), 8 * |w|);
    }
  }

  // ---- Burst detection ---------------------------------------------------------

  lemma ChecksumInjective(x: Register, y: Register)
    ensures x.bits as int == y.bits as int ==> x == y
  {
    assert (x.bits as int) as bv32 == x.bits;
    assert (y.bits as int) as bv32 == y.bits;
  }

  /** Damage confined to four consecutive bytes always changes the CRC, in a span of any length. */
  lemma BurstDetected(before: seq<Byte>, a: seq<Byte>, b: seq<Byte>, after: seq<Byte>)
    requires |a| == |b| <= 4
    requires a != b
    ensures Checksum(before + a + after) != Checksum(before + b + after)
  {
    hide Feed, ShiftBits, Xor, Word;
    var r := Feed(START, before);
    FeedAppend(START, before + a, after);
    FeedAppend(START, before, a);
    FeedAppend(START, before + b, after);
    FeedAppend(START, before, b);
    var x, y := Feed(START, before + a + after), Feed(START, before + b + after);
    ChecksumInjective(Xor(x, START), Xor(y, START));
    if Xor(x, START) == Xor(y, START) {
      XorGroup(x, START, START);
      XorGroup(y, START, START);
      XorGroup(START, x, y);
      FeedInjective(Feed(r, a), Feed(r, b), after);
      FeedIsWord(r, a);
      FeedIsWord(r, b);
      ShiftBitsInjective(Xor(r, Word(a)), Xor(r, Word(b)), 8 * |a|);
      XorGroup(r, Word(a), Word(b));
      WordInjective(a, b);
    }
  }

  /** The seal of an empty span is 0: that is why an empty list carries CRC 0. */
  lemma EmptySeal()
    ensures Checksum([]) == 0
  {
    assert Feed(START, []) == START;
  }
}
