/**
 * Which CRC it is. Polynomials over GF(2) are the sets of their exponents, added by symmetric difference;
 * the register is the remainder of the message, first byte first and each byte low bit first, by the
 * generator of section 8.1.1.6.2 of ITU-T V.42.
 */
module CrcPolynomial {
  import opened Bytes
  import opened Crc

  type Poly = set<nat>

  const GENERATOR: Poly := {32, 26, 23, 22, 16, 12, 11, 10, 8, 7, 5, 4, 2, 1, 0}

  function Sum(a: Poly, b: Poly): Poly {
    (a - b) + (b - a)
  }

  /** Times x to the `k`. */
  function Raised(a: Poly, k: nat): Poly {
    set e | e in a :: e + k
  }

  // ---- Long division -----------------------------------------------------------------------

  /** The remainder of a polynomial of degree below `n`: from the top, every term from x^32 on is cancelled. */
  function Remainder(p: Poly, n: nat): Poly
    decreases n
  {
    if n <= 32 then p
    else if n - 1 in p then Remainder(Sum(p, Raised(GENERATOR, n - 33)), n - 1)
    else Remainder(p, n - 1)
  }

  predicate Below(p: Poly, n: nat) {
    forall e | e in p :: e < n
  }

  lemma RaisedIn(a: Poly, k: nat, e: nat)
    ensures e in Raised(a, k) <==> e >= k && e - k in a
  {
    if e >= k && e - k in a {
      assert e == (e - k) + k;
    }
  }

  lemma GeneratorBelow(k: nat)
    ensures Below(Raised(GENERATOR, k), k + 33) && k + 32 in Raised(GENERATOR, k)
  {
    RaisedIn(GENERATOR, k, k + 32);
  }

  /** It is a remainder: of degree below 32. */
  lemma {:induction false} RemainderIsShort(p: Poly, n: nat)
    requires Below(p, n)
    ensures Below(Remainder(p, n), 32)
    decreases n
  {
    if n > 32 {
      GeneratorBelow(n - 33);
      if n - 1 in p {
        RemainderIsShort(Sum(p, Raised(GENERATOR, n - 33)), n - 1);
      } else {
        RemainderIsShort(p, n - 1);
      }
    }
  }

  lemma {:induction false} ShortRemains(p: Poly, n: nat)
    requires Below(p, 32)
    ensures Remainder(p, n) == p
    decreases n
  {
    if n > 32 {
      ShortRemains(p, n - 1);
    }
  }

  lemma SumGroups(a: Poly, b: Poly, g: Poly)
    ensures Sum(Sum(a, g), b) == Sum(Sum(a, b), g) == Sum(a, Sum(b, g))
    ensures Sum(Sum(a, g), Sum(b, g)) == Sum(a, b)
  {
  }

  lemma {:induction false} RemainderAdds(a: Poly, b: Poly, n: nat)
    ensures Remainder(Sum(a, b), n) == Sum(Remainder(a, n), Remainder(b, n))
    decreases n
  {
    if n > 32 {
      var g := Raised(GENERATOR, n - 33);
      SumGroups(a, b, g);
      var a' := if n - 1 in a then Sum(a, g) else a;
      var b' := if n - 1 in b then Sum(b, g) else b;
      RemainderAdds(a', b', n - 1);
      hide Sum;
      assert n - 1 in Sum(a, b) <==> (n - 1 in a) != (n - 1 in b) by { SumIn(a, b, n - 1); }
    }
  }

  lemma SumIn(a: Poly, b: Poly, e: nat)
    ensures e in Sum(a, b) <==> (e in a) != (e in b)
  {
  }

  lemma {:induction false} RemainderStays(p: Poly, n: nat, m: nat)
    requires Below(p, n) && n <= m
    ensures Remainder(p, m) == Remainder(p, n)
    decreases m
  {
    if n < m {
      RemainderStays(p, n, m - 1);
      if m > 32 {
        assert m - 1 !in p;
      } else {
        assert n <= 32;
      }
    }
  }

  lemma RaisedTwice(a: Poly, j: nat, k: nat)
    ensures Raised(Raised(a, j), k) == Raised(a, j + k)
  {
    forall e: nat
      ensures e in Raised(Raised(a, j), k) <==> e in Raised(a, j + k)
    {
      RaisedIn(Raised(a, j), k, e);
      RaisedIn(a, j + k, e);
      if e >= k { RaisedIn(a, j, e - k); }
    }
  }

  lemma RaisedAdds(a: Poly, b: Poly, k: nat)
    ensures Raised(Sum(a, b), k) == Sum(Raised(a, k), Raised(b, k))
  {
    forall e: nat
      ensures e in Raised(Sum(a, b), k) <==> e in Sum(Raised(a, k), Raised(b, k))
    {
      RaisedIn(Sum(a, b), k, e);
      RaisedIn(a, k, e);
      RaisedIn(b, k, e);
    }
  }

  /** Raising a remainder, or what it is the remainder of, leaves the same remainder. */
  lemma {:induction false} RaisedRemainder(p: Poly, m: nat, k: nat)
    requires m >= 32 && Below(p, m)
    ensures Remainder(Raised(p, k), m + k) == Remainder(Raised(Remainder(p, m), k), 32 + k)
    decreases m
  {
    hide Raised, Sum;
    if m > 32 {
      var g := Raised(GENERATOR, m - 33);
      RaisedIn(p, k, m - 1 + k);
      if m - 1 in p {
        RaisedAdds(p, g, k);
        RaisedTwice(GENERATOR, m - 33, k);
        GeneratorBelow(m - 33);
        CancelledBelow(p, g, m);
        RaisedRemainder(Sum(p, g), m - 1, k);
      } else {
        RaisedRemainder(p, m - 1, k);
      }
    }
  }

  lemma CancelledBelow(p: Poly, g: Poly, m: nat)
    requires m > 0 && Below(p, m) && Below(g, m) && m - 1 in p && m - 1 in g
    ensures Below(Sum(p, g), m - 1)
  {
  }

  // ---- Registers and bytes as polynomials --------------------------------------------------------

  predicate Low(x: bv32) {
    x & 1 == 1
  }

  function Half(x: bv32): bv32 {
    x >> 1
  }

  /** The low `n` bits, the lowest the highest power. */
  function Terms(x: bv32, n: nat): Poly {
    if n == 0 then {} else (if Low(x) then {n - 1} else {}) + Terms(Half(x), n - 1)
  }

  function Of(r: Register): Poly {
    Terms(r.bits, 32)
  }

  /** The low `n` bits of a number, likewise. */
  function TermsOf(b: nat, n: nat): Poly
    decreases n
  {
    if n == 0 then {} else (if b % 2 == 1 then {n - 1} else {}) + TermsOf(b / 2, n - 1)
  }

  /** The message, its first byte the highest powers and in each byte the low bit first. */
  function OfMessage(data: seq<Byte>): Poly
    decreases |data|
  {
    if data == [] then {} else Sum(Raised(TermsOf(data[0], 8), 8 * (|data| - 1)), OfMessage(data[1..]))
  }

  lemma {:induction false} TermsBelow(x: bv32, n: nat)
    ensures Below(Terms(x, n), n)
    decreases n
  {
    hide Low, Half;
    if n > 0 {
      TermsBelow(Half(x), n - 1);
    }
  }

  lemma {:induction false} TermsOfBelow(b: nat, n: nat)
    ensures Below(TermsOf(b, n), n)
    decreases n
  {
    if n > 0 {
      TermsOfBelow(b / 2, n - 1);
    }
  }

  lemma LowAdds(x: bv32, y: bv32)
    ensures Low(x ^ y) <==> Low(x) != Low(y)
  {
    LowBitOfXor(x, y);
  }

  lemma HalfAdds(x: bv32, y: bv32)
    ensures Half(x ^ y) == Half(x) ^ Half(y)
  {
    HalfOfXor(x, y);
  }

  lemma XorParts(x: bv32, y: bv32)
    ensures Low(XorBits(x, y)) <==> Low(x) != Low(y)
    ensures Half(XorBits(x, y)) == XorBits(Half(x), Half(y))
  {
    hide Low, Half;
    LowAdds(x, y);
    HalfAdds(x, y);
  }

  lemma {:induction false} TermsAdd(x: bv32, y: bv32, n: nat)
    ensures Terms(XorBits(x, y), n) == Sum(Terms(x, n), Terms(y, n))
    decreases n
  {
    hide XorBits, Low, Half, Sum;
    if n == 0 {
      assert Sum({}, {}) == {} by { SumOfNothing(); }
    } else {
      XorParts(x, y);
      TermsAdd(Half(x), Half(y), n - 1);
      TermsBelow(Half(x), n - 1);
      TermsBelow(Half(y), n - 1);
      TopAdds(Low(x), Low(y), n - 1, Terms(Half(x), n - 1), Terms(Half(y), n - 1));
    }
  }

  lemma SumOfNothing()
    ensures Sum({}, {}) == {}
  {
  }

  lemma TopAdds(x: bool, y: bool, top: nat, a: Poly, b: Poly)
    requires Below(a, top) && Below(b, top)
    ensures Sum((if x then {top} else {}) + a, (if y then {top} else {}) + b)
            == (if x != y then {top} else {}) + Sum(a, b)
  {
  }

  function Halved(x: bv32, n: nat): bv32 {
    if n == 0 then x else Halved(Half(x), n - 1)
  }

  lemma LowOfZero()
    ensures !Low(0) && Half(0) == 0
  {
  }

  /** A number of at most `n` bits, read as `n + 1`, is raised by one. */
  lemma {:induction false} TermsRaised(x: bv32, n: nat)
    requires Halved(x, n) == 0
    ensures Terms(x, n + 1) == Raised(Terms(x, n), 1)
    decreases n
  {
    hide Low, Half, Raised;
    if n == 0 {
      LowOfZero();
      assert Terms(Half(x), 0) == {} == Raised({}, 1) by { RaisedNothing(); }
    } else {
      TermsRaised(Half(x), n - 1);
      TopRaised(Low(x), n - 1, Terms(Half(x), n - 1));
    }
  }

  lemma RaisedNothing()
    ensures Raised({}, 1) == {}
  {
  }

  lemma TopRaised(x: bool, top: nat, a: Poly)
    ensures Raised((if x then {top} else {}) + a, 1) == (if x then {top + 1} else {}) + Raised(a, 1)
  {
  }

  lemma {:induction false} HalvedAdds(x: bv32, m: nat, n: nat)
    ensures Halved(x, m + n) == Halved(Halved(x, m), n)
    decreases m
  {
    hide Half;
    if m > 0 {
      HalvedAdds(Half(x), m - 1, n);
    }
  }

  lemma FourHalves(x: bv32)
    ensures Halved(x, 4) == Half(Half(Half(Half(x))))
  {
    hide Half;
    HalvedAdds(x, 1, 3);
    HalvedAdds(Half(x), 1, 2);
    HalvedAdds(Half(Half(x)), 1, 1);
  }

  lemma EightHalves(x: bv32)
    ensures Halved(x, 8) == Half(Half(Half(Half(Half(Half(Half(Half(x))))))))
  {
    hide Half;
    FourHalves(x);
    FourHalves(Halved(x, 4));
    HalvedAdds(x, 4, 4);
  }

  lemma HalvesShift(x: bv32)
    ensures Half(Half(Half(Half(Half(Half(Half(Half(x)))))))) == x >> 8
  {
  }

  function BytesDropped(x: bv32, k: nat): bv32 {
    if k == 0 then x else BytesDropped(x >> 8, k - 1)
  }

  lemma ByteHalved(x: bv32)
    ensures Halved(x, 8) == x >> 8
  {
    hide Half;
    EightHalves(x);
    HalvesShift(x);
  }

  lemma {:induction false} BytesHalved(x: bv32, k: nat)
    ensures Halved(x, 8 * k) == BytesDropped(x, k)
    decreases k
  {
    hide Half;
    if k > 0 {
      ByteHalved(x);
      HalvedAdds(x, 8, 8 * (k - 1));
      BytesHalved(x >> 8, k - 1);
    }
  }

  lemma NothingLeft(x: bv32)
    ensures BytesDropped(x, 4) == 0
  {
    ShiftedOut(x);
    assert BytesDropped(x, 4) == BytesDropped(x >> 8, 3) == BytesDropped(x >> 8 >> 8, 2);
    assert BytesDropped(x >> 8 >> 8, 2) == BytesDropped(x >> 8 >> 8 >> 8, 1) == x >> 8 >> 8 >> 8 >> 8;
  }

  lemma ShiftedOut(x: bv32)
    ensures x >> 8 >> 8 >> 8 >> 8 == 0
  {
  }

  /** The top bit of a number halved is clear. */
  lemma HalfIsShort(x: bv32, n: nat)
    requires n + 1 == 32
    ensures Halved(Half(x), n) == 0
  {
    hide Half, BytesDropped;
    BytesHalved(x, (n + 1) / 8);
    NothingLeft(x);
  }

  // ---- The register is a remainder -----------------------------------------------------------------

  function FourOf(b0: bool, b1: bool, b2: bool, b3: bool, n: nat): Poly
    requires n >= 4
  {
    (if b0 then {n - 1} else {}) + (if b1 then {n - 2} else {}) + (if b2 then {n - 3} else {})
    + (if b3 then {n - 4} else {})
  }

  function EightOf(b0: bool, b1: bool, b2: bool, b3: bool, b4: bool, b5: bool, b6: bool, b7: bool, n: nat): Poly
    requires n >= 8
  {
    FourOf(b0, b1, b2, b3, n) + FourOf(b4, b5, b6, b7, n - 4)
  }

  /** The low byte's bits, each where the register has it. */
  function ByteTerms(x: bv32, n: nat): Poly
    requires n >= 8
  {
    EightOf(x & 0x01 != 0, x & 0x02 != 0, x & 0x04 != 0, x & 0x08 != 0, x & 0x10 != 0, x & 0x20 != 0, x & 0x40 != 0,
            x & 0x80 != 0, n)
  }

  lemma LowBits(x: bv32)
    ensures Low(x) == (x & 0x01 != 0) && Low(Half(x)) == (x & 0x02 != 0) && Low(Half(Half(x))) == (x & 0x04 != 0)
    ensures Low(Half(Half(Half(x)))) == (x & 0x08 != 0) && Low(Half(Half(Half(Half(x))))) == (x & 0x10 != 0)
    ensures Low(Half(Half(Half(Half(Half(x)))))) == (x & 0x20 != 0)
    ensures Low(Half(Half(Half(Half(Half(Half(x))))))) == (x & 0x40 != 0)
    ensures Low(Half(Half(Half(Half(Half(Half(Half(x)))))))) == (x & 0x80 != 0)
  {
  }

  lemma FourTerms(x: bv32, n: nat)
    requires n >= 4
    ensures Terms(x, n)
            == FourOf(Low(x), Low(Half(x)), Low(Half(Half(x))), Low(Half(Half(Half(x)))), n)
               + Terms(Half(Half(Half(Half(x)))), n - 4)
  {
    hide Low, Half;
    assert Terms(Half(x), n - 1) == (if Low(Half(x)) then {n - 2} else {}) + Terms(Half(Half(x)), n - 2);
    assert Terms(Half(Half(x)), n - 2)
           == (if Low(Half(Half(x))) then {n - 3} else {}) + Terms(Half(Half(Half(x))), n - 3);
  }

  lemma EightHalved(x: bv32, n: nat)
    requires n >= 8
    ensures var x1 := Half(x); var x2 := Half(x1); var x3 := Half(x2); var x4 := Half(x3);
            var x5 := Half(x4); var x6 := Half(x5); var x7 := Half(x6);
            Terms(x, n) == EightOf(Low(x), Low(x1), Low(x2), Low(x3), Low(x4), Low(x5), Low(x6), Low(x7), n)
                           + Terms(Half(x7), n - 8)
  {
    hide Low, Half, Terms, FourOf;
    FourTerms(x, n);
    FourTerms(Half(Half(Half(Half(x)))), n - 4);
  }

  lemma EightTerms(x: bv32, n: nat)
    requires n >= 8
    ensures Terms(x, n) == ByteTerms(x, n) + Terms(x >> 8, n - 8)
  {
    hide Low, Half, Terms, EightOf;
    EightHalved(x, n);
    LowBits(x);
    HalvesShift(x);
  }

  /** The constant the code feeds back is the generator without its leading term. */
  lemma PolynomialIsTheGenerator()
    ensures Terms(POLYNOMIAL, 32) == GENERATOR - {32}
  {
    hide Terms, ByteTerms;
    EightTerms(POLYNOMIAL, 32);
    EightTerms(POLYNOMIAL >> 8, 24);
    EightTerms(POLYNOMIAL >> 8 >> 8, 16);
    EightTerms(POLYNOMIAL >> 8 >> 8 >> 8, 8);
    PolynomialBytes();
    PolynomialTerms();
    assert Terms(0, 0) == {} by { NoTerms(); }
    assert GENERATOR - {32} == {26} + {23, 22, 16} + {12, 11, 10, 8} + {7, 5, 4, 2, 1, 0};
  }

  lemma NoTerms()
    ensures Terms(0, 0) == {}
  {
  }

  lemma PolynomialBytes()
    ensures POLYNOMIAL >> 8 == 0xED_B883 && POLYNOMIAL >> 8 >> 8 == 0xEDB8 && POLYNOMIAL >> 8 >> 8 >> 8 == 0xED
    ensures POLYNOMIAL >> 8 >> 8 >> 8 >> 8 == 0
  {
  }

  lemma PolynomialTerms()
    ensures ByteTerms(0xEDB8_8320, 32) == {26}
    ensures ByteTerms(0xED_B883, 24) == {23, 22, 16}
    ensures ByteTerms(0xEDB8, 16) == {12, 11, 10, 8}
    ensures ByteTerms(0xED, 8) == {7, 5, 4, 2, 1, 0}
  {
  }

  /** One bit shifted out multiplies by x. */
  lemma OutIsRaised(x: bv32, n: nat)
    requires n == 32
    ensures Terms(Out(x), n) == Remainder(Raised(Terms(x, n), 1), n + 1)
  {
    hide Terms, Out, Raised, Sum;
    var half := Terms(Half(x), n);
    HalfIsShort(x, n - 1);
    TermsRaised(Half(x), n - 1);
    TermsSplit(x, n);
    TopRaised(Low(x), n - 1, Terms(Half(x), n - 1));
    TermsBelow(Half(x), n);
    OutParts(x);
    ShortRemains(half, n);
    if Low(x) {
      TermsAdd(Half(x), POLYNOMIAL, n);
      PolynomialIsTheGenerator();
      RaisedByNothing(GENERATOR);
      LeadingCancels(half);
      assert Remainder({32} + half, n + 1) == Remainder(Sum({32} + half, GENERATOR), n);
      ShortRemains(Sum({32} + half, GENERATOR), n);
    } else {
      assert {} + half == half;
      assert n !in half;
    }
  }

  lemma TermsSplit(x: bv32, n: nat)
    requires n > 0
    ensures Terms(x, n) == (if Low(x) then {n - 1} else {}) + Terms(Half(x), n - 1)
  {
  }

  lemma OutParts(x: bv32)
    ensures Out(x) == if Low(x) then XorBits(Half(x), POLYNOMIAL) else Half(x)
  {
  }

  lemma RaisedByNothing(a: Poly)
    ensures Raised(a, 0) == a
  {
  }

  lemma LeadingCancels(half: Poly)
    requires Below(half, 32)
    ensures Sum({32} + half, GENERATOR) == Sum(half, GENERATOR - {32})
    ensures Below(Sum({32} + half, GENERATOR), 32)
  {
  }

  lemma {:induction false} BitsAreRaised(r: Register, bits: nat)
    ensures Of(ShiftBits(r, bits)) == Remainder(Raised(Of(r), bits), 32 + bits)
    decreases bits
  {
    hide Of, ShiftOut, Raised, Remainder;
    OfIsBelow(r);
    if bits == 0 {
      RaisedByNothing(Of(r));
      ShortRemains(Of(r), 32);
    } else {
      BitsAreRaised(ShiftOut(r), bits - 1);
      OneBit(r);
      RaisedBelow(Of(r), 32, 1);
      RaisedRemainder(Raised(Of(r), 1), 33, bits - 1);
      RaisedTwice(Of(r), 1, bits - 1);
    }
  }

  lemma OfIsBelow(r: Register)
    ensures Below(Of(r), 32)
  {
    TermsBelow(r.bits, 32);
  }

  lemma OneBit(r: Register)
    ensures Of(ShiftOut(r)) == Remainder(Raised(Of(r), 1), 33)
  {
    OutIsRaised(r.bits, 32);
  }

  lemma RaisedBelow(a: Poly, n: nat, k: nat)
    requires Below(a, n)
    ensures Below(Raised(a, k), n + k)
  {
  }

  // ---- The message ---------------------------------------------------------------------------------

  lemma FromBitsParts(b7: bool, b6: bool, b5: bool, b4: bool, b3: bool, b2: bool, b1: bool, b0: bool)
    ensures Low(FromBits(b7, b6, b5, b4, b3, b2, b1, b0)) == b0
    ensures Half(FromBits(b7, b6, b5, b4, b3, b2, b1, b0)) == FromBits(false, b7, b6, b5, b4, b3, b2, b1)
  {
  }

  lemma FromNoBits()
    ensures FromBits(false, false, false, false, false, false, false, false) == 0
  {
  }

  lemma {:induction false} TermsOfZero(n: nat)
    ensures Terms(0, n) == {}
  {
    LowOfZero();
    if n > 0 {
      TermsOfZero(n - 1);
    }
  }

  lemma BitTerms(b7: bool, b6: bool, b5: bool, b4: bool, b3: bool, b2: bool, b1: bool, b0: bool, n: nat)
    requires n >= 8
    ensures Terms(FromBits(b7, b6, b5, b4, b3, b2, b1, b0), n) == EightOf(b0, b1, b2, b3, b4, b5, b6, b7, n)
  {
    hide Low, Half, Terms, FromBits, EightOf;
    EightHalved(FromBits(b7, b6, b5, b4, b3, b2, b1, b0), n);
    FromBitsParts(b7, b6, b5, b4, b3, b2, b1, b0);
    FromBitsParts(false, b7, b6, b5, b4, b3, b2, b1);
    FromBitsParts(false, false, b7, b6, b5, b4, b3, b2);
    FromBitsParts(false, false, false, b7, b6, b5, b4, b3);
    FromBitsParts(false, false, false, false, b7, b6, b5, b4);
    FromBitsParts(false, false, false, false, false, b7, b6, b5);
    FromBitsParts(false, false, false, false, false, false, b7, b6);
    FromBitsParts(false, false, false, false, false, false, false, b7);
    FromNoBits();
    TermsOfZero(n - 8);
  }

  lemma FourNumberTerms(b: nat, n: nat)
    requires n >= 4
    ensures TermsOf(b, n) == FourOf(Bit(b, 0), Bit(b, 1), Bit(b, 2), Bit(b, 3), n) + TermsOf(b / 2 / 2 / 2 / 2, n - 4)
  {
    hide TermsOf;
    NumberStep(b, n);
    NumberStep(b / 2, n - 1);
    NumberStep(b / 2 / 2, n - 2);
    NumberStep(b / 2 / 2 / 2, n - 3);
  }

  lemma NumberStep(b: nat, n: nat)
    requires n > 0
    ensures TermsOf(b, n) == (if Bit(b, 0) then {n - 1} else {}) + TermsOf(b / 2, n - 1)
  {
  }

  lemma NumberTerms(b: nat, n: nat)
    requires n == 8
    ensures TermsOf(b, n)
            == EightOf(Bit(b, 0), Bit(b, 1), Bit(b, 2), Bit(b, 3), Bit(b, 4), Bit(b, 5), Bit(b, 6), Bit(b, 7), 8)
  {
    hide FourOf;
    FourNumberTerms(b, n);
    FourNumberTerms(b / 2 / 2 / 2 / 2, n - 4);
  }

  lemma EightRaised(b0: bool, b1: bool, b2: bool, b3: bool, b4: bool, b5: bool, b6: bool, b7: bool)
    ensures Raised(EightOf(b0, b1, b2, b3, b4, b5, b6, b7, 8), 24) == EightOf(b0, b1, b2, b3, b4, b5, b6, b7, 32)
  {
    hide FourOf;
    FourRaised(b0, b1, b2, b3, 8);
    FourRaised(b4, b5, b6, b7, 4);
    RaisedJoins(FourOf(b0, b1, b2, b3, 8), FourOf(b4, b5, b6, b7, 4), 24);
  }

  lemma FourRaised(b0: bool, b1: bool, b2: bool, b3: bool, n: nat)
    requires n >= 4
    ensures Raised(FourOf(b0, b1, b2, b3, n), 24) == FourOf(b0, b1, b2, b3, n + 24)
  {
    hide Raised;
    var x0: Poly, x1: Poly := if b0 then {n - 1} else {}, if b1 then {n - 2} else {};
    var x2: Poly, x3: Poly := if b2 then {n - 3} else {}, if b3 then {n - 4} else {};
    RaisedJoins(x0 + x1 + x2, x3, 24);
    RaisedJoins(x0 + x1, x2, 24);
    RaisedJoins(x0, x1, 24);
    OneRaised(b0, n - 1);
    OneRaised(b1, n - 2);
    OneRaised(b2, n - 3);
    OneRaised(b3, n - 4);
  }

  lemma OneRaised(b: bool, e: nat)
    ensures Raised(if b then {e} else {}, 24) == if b then {e + 24} else {}
  {
  }

  lemma RaisedJoins(a: Poly, b: Poly, k: nat)
    ensures Raised(a + b, k) == Raised(a, k) + Raised(b, k)
  {
  }

  /** A byte enters the register at its high powers. */
  lemma ByteEnters(r: Register, b: Byte)
    ensures Of(Xor(r, FromByte(b))) == Sum(Of(r), Raised(TermsOf(b, 8), 24))
  {
    hide Terms, TermsOf, FromBits, XorBits, Sum, Raised, EightOf, Bit;
    TermsAdd(r.bits, FromByte(b).bits, 32);
    BitTerms(Bit(b, 7), Bit(b, 6), Bit(b, 5), Bit(b, 4), Bit(b, 3), Bit(b, 2), Bit(b, 1), Bit(b, 0), 32);
    NumberTerms(b, 8);
    EightRaised(Bit(b, 0), Bit(b, 1), Bit(b, 2), Bit(b, 3), Bit(b, 4), Bit(b, 5), Bit(b, 6), Bit(b, 7));
  }

  lemma {:induction false} MessageBelow(data: seq<Byte>)
    ensures Below(OfMessage(data), 8 * |data|)
    decreases |data|
  {
    hide Raised, TermsOf;
    if data != [] {
      MessageBelow(data[1..]);
      TermsOfBelow(data[0], 8);
      RaisedBelow(TermsOf(data[0], 8), 8, 8 * (|data| - 1));
    }
  }

  /** What a register stands for once `data` is fed: itself raised by the data's length, and the data raised by 32. */
  function Fed(r: Register, data: seq<Byte>): Poly {
    Sum(Raised(Of(r), 8 * |data|), Raised(OfMessage(data), 32))
  }

  lemma FedFirst(r: Register, data: seq<Byte>)
    requires data != []
    ensures Fed(r, data)
            == Sum(Raised(Raised(Of(Xor(r, FromByte(data[0]))), 8), 8 * (|data| - 1)), Raised(OfMessage(data[1..]), 32))
  {
    hide Of, Xor, FromByte, Raised, TermsOf, Sum;
    var n, byte, rest := |data|, TermsOf(data[0], 8), OfMessage(data[1..]);
    ByteEnters(r, data[0]);
    RaisedTwice(Of(Xor(r, FromByte(data[0]))), 8, 8 * (n - 1));
    RaisedAdds(Of(r), Raised(byte, 24), 8 * n);
    RaisedTwice(byte, 24, 8 * n);
    RaisedAdds(Raised(byte, 8 * (n - 1)), rest, 32);
    RaisedTwice(byte, 8 * (n - 1), 32);
    SumGroups(Raised(Of(r), 8 * n), Raised(byte, 24 + 8 * n), Raised(rest, 32));
    SumCommutes(Raised(byte, 24 + 8 * n), Raised(rest, 32));
  }

  lemma SumCommutes(a: Poly, b: Poly)
    ensures Sum(a, b) == Sum(b, a)
  {
  }

  lemma {:induction false} FeedIsRemainder(r: Register, data: seq<Byte>)
    ensures Of(Feed(r, data)) == Remainder(Fed(r, data), 8 * |data| + 32)
    decreases |data|
  {
    hide Of, Xor, FromByte, ShiftBits, Raised, Sum, OfMessage, Fed, Remainder;
    if data == [] {
      NothingFed(r);
    } else {
      FeedStep(r, data);
    }
  }

  lemma NothingFed(r: Register)
    ensures Of(Feed(r, [])) == Remainder(Fed(r, []), 32)
  {
    RaisedByNothing(Of(r));
  }

  lemma {:induction false} FeedStep(r: Register, data: seq<Byte>)
    requires data != []
    ensures Of(Feed(r, data)) == Remainder(Fed(r, data), 8 * |data| + 32)
    decreases |data|, 0
  {
    hide Of, Xor, FromByte, ShiftBits, Raised, Sum, OfMessage, Remainder;
    var n, entered, rest := 8 * (|data| - 1), Xor(r, FromByte(data[0])), Raised(OfMessage(data[1..]), 32);
    var next := ShiftBits(entered, 8);
    var high := Raised(Raised(Of(entered), 8), n);
    FedFirst(r, data);
    RemainderAdds(high, rest, n + 40);
    BitsAreRaised(entered, 8);
    OfIsBelow(entered);
    RaisedBelow(Of(entered), 32, 8);
    RaisedRemainder(Raised(Of(entered), 8), 40, n);
    MessageBelow(data[1..]);
    RaisedBelow(OfMessage(data[1..]), n, 32);
    RemainderStays(rest, n + 32, n + 40);
    FeedIsRemainder(next, data[1..]);
    RemainderAdds(Raised(Of(next), n), rest, n + 32);
  }

  /** The first `n` powers, each once. */
  function Ones(n: nat): Poly {
    if n == 0 then {} else {n - 1} + Ones(n - 1)
  }

  /**
   * The register after any message is the remainder, by the generator, of the message raised by 32 with
   * 32 ones in front of it; what a study carries is that remainder with every bit turned.
   */
  lemma CrcIsTheRemainder(data: seq<Byte>)
    ensures var message := Sum(Raised(Ones(32), 8 * |data|), Raised(OfMessage(data), 32));
            var remainder := Remainder(message, 8 * |data| + 32);
            Below(remainder, 32) && Of(Crc32(data)) == Sum(remainder, Ones(32))
  {
    hide Feed, Raised, Sum, OfMessage, Remainder, XorBits, Terms, Ones;
    OnesAreAll();
    FeedIsRemainder(START, data);
    OfIsBelow(Feed(START, data));
    TermsAdd(Feed(START, data).bits, ALL_ONES, 32);
  }

  lemma OnesAreAll()
    ensures Of(START) == Ones(32)
  {
    hide Terms, ByteTerms, EightOf, Ones;
    EightTerms(ALL_ONES, 32);
    EightTerms(ALL_ONES >> 8, 24);
    EightTerms(ALL_ONES >> 8 >> 8, 16);
    EightTerms(ALL_ONES >> 8 >> 8 >> 8, 8);
    AllOnesBytes();
    TermsOfZero(0);
    EightOnes(32);
    EightOnes(24);
    EightOnes(16);
    EightOnes(8);
    assert Ones(0) == {} by { NoOnes(); }
  }

  lemma NoOnes()
    ensures Ones(0) == {}
  {
  }

  lemma AllOnesBytes()
    ensures ALL_ONES >> 8 == 0xFF_FFFF && ALL_ONES >> 8 >> 8 == 0xFFFF && ALL_ONES >> 8 >> 8 >> 8 == 0xFF
    ensures ALL_ONES >> 8 >> 8 >> 8 >> 8 == 0
    ensures ByteTerms(0xFFFF_FFFF, 32) == EightOf(true, true, true, true, true, true, true, true, 32)
    ensures ByteTerms(0xFF_FFFF, 24) == EightOf(true, true, true, true, true, true, true, true, 24)
    ensures ByteTerms(0xFFFF, 16) == EightOf(true, true, true, true, true, true, true, true, 16)
    ensures ByteTerms(0xFF, 8) == EightOf(true, true, true, true, true, true, true, true, 8)
  {
    hide EightOf;
  }

  lemma EightOnes(n: nat)
    requires n >= 8
    ensures Ones(n) == EightOf(true, true, true, true, true, true, true, true, n) + Ones(n - 8)
  {
    hide FourOf;
    FourOnes(n);
    FourOnes(n - 4);
  }

  lemma FourOnes(n: nat)
    requires n >= 4
    ensures Ones(n) == FourOf(true, true, true, true, n) + Ones(n - 4)
  {
    assert Ones(n - 1) == {n - 2} + Ones(n - 2);
    assert Ones(n - 3) == {n - 4} + Ones(n - 4);
  }

  // ---- The published check value ----------------------------------------------------------------------

  /** One byte's turn of the register, in numbers. */
  lemma Turn(x: bv32, data: seq<Byte>, byte: bv32, y: bv32)
    requires data != [] && FromByte(data[0]).bits == byte
    requires Out(Out(Out(Out(Out(Out(Out(Out(x ^ byte)))))))) == y
    ensures Feed(Register(x), data) == Feed(Register(y), data[1..])
  {
    hide Out, FromByte, ShiftBits;
    EightSteps(Register(x ^ byte));
  }

  /** A digit's bits, in numbers. */
  lemma DigitByte(b: Byte, b3: bool, b2: bool, b1: bool, b0: bool)
    requires b == 0x30 + (if b3 then 8 else 0) + (if b2 then 4 else 0) + (if b1 then 2 else 0) + (if b0 then 1 else 0)
    ensures FromByte(b).bits == FromBits(false, false, true, true, b3, b2, b1, b0)
  {
    hide FromBits;
    assert b / 2 / 2 / 2 / 2 == 3;
    assert b / 2 / 2 / 2 == 6 + if b3 then 1 else 0;
    assert b / 2 / 2 == 12 + (if b3 then 2 else 0) + if b2 then 1 else 0;
  }

  lemma DigitBits()
    ensures FromBits(false, false, true, true, false, false, false, true) == 0x31
    ensures FromBits(false, false, true, true, false, false, true, false) == 0x32
    ensures FromBits(false, false, true, true, false, false, true, true) == 0x33
    ensures FromBits(false, false, true, true, false, true, false, false) == 0x34
    ensures FromBits(false, false, true, true, false, true, false, true) == 0x35
    ensures FromBits(false, false, true, true, false, true, true, false) == 0x36
    ensures FromBits(false, false, true, true, false, true, true, true) == 0x37
    ensures FromBits(false, false, true, true, true, false, false, false) == 0x38
    ensures FromBits(false, false, true, true, true, false, false, true) == 0x39
  {
  }

  lemma DigitBytes()
    ensures FromByte(0x31).bits == 0x31
    ensures FromByte(0x32).bits == 0x32
    ensures FromByte(0x33).bits == 0x33
    ensures FromByte(0x34).bits == 0x34
    ensures FromByte(0x35).bits == 0x35
    ensures FromByte(0x36).bits == 0x36
    ensures FromByte(0x37).bits == 0x37
    ensures FromByte(0x38).bits == 0x38
    ensures FromByte(0x39).bits == 0x39
  {
    hide FromBits, FromByte;
    DigitBits();
    DigitByte(0x31, false, false, false, true);
    DigitByte(0x32, false, false, true, false);
    DigitByte(0x33, false, false, true, true);
    DigitByte(0x34, false, true, false, false);
    DigitByte(0x35, false, true, false, true);
    DigitByte(0x36, false, true, true, false);
    DigitByte(0x37, false, true, true, true);
    DigitByte(0x38, true, false, false, false);
    DigitByte(0x39, true, false, false, true);
  }

  lemma DigitTurns()
    ensures Out(Out(Out(Out(Out(Out(Out(Out(0xFFFF_FFFF ^ 0x31)))))))) == 0x7C23_1048
    ensures Out(Out(Out(Out(Out(Out(Out(Out(0x7C23_1048 ^ 0x32)))))))) == 0xB0AC_BB32
    ensures Out(Out(Out(Out(Out(Out(Out(Out(0xB0AC_BB32 ^ 0x33)))))))) == 0x77B7_9C2D
    ensures Out(Out(Out(Out(Out(Out(Out(Out(0x77B7_9C2D ^ 0x34)))))))) == 0x641C_1F5C
    ensures Out(Out(Out(Out(Out(Out(Out(Out(0x641C_1F5C ^ 0x35)))))))) == 0x340A_C5E3
    ensures Out(Out(Out(Out(Out(Out(Out(Out(0x340A_C5E3 ^ 0x36)))))))) == 0xF68D_2C9E
    ensures Out(Out(Out(Out(Out(Out(Out(Out(0xF68D_2C9E ^ 0x37)))))))) == 0xAFFC_9660
    ensures Out(Out(Out(Out(Out(Out(Out(Out(0xAFFC_9660 ^ 0x38)))))))) == 0x651F_2550
    ensures Out(Out(Out(Out(Out(Out(Out(Out(0x651F_2550 ^ 0x39)))))))) == 0x340B_C6D9
  {
  }

  lemma FirstDigits(data: seq<Byte>)
    requires |data| == 9 && data[..5] == [0x31, 0x32, 0x33, 0x34, 0x35]
    ensures Feed(START, data) == Feed(Register(0x340A_C5E3), data[5..])
  {
    hide Out, FromByte, Feed;
    DigitBytes();
    DigitTurns();
    assert forall k | 0 <= k < 5 :: data[k..][0] == data[..5][k];
    Turn(0xFFFF_FFFF, data, 0x31, 0x7C23_1048);
    Turn(0x7C23_1048, data[1..], 0x32, 0xB0AC_BB32);
    Turn(0xB0AC_BB32, data[2..], 0x33, 0x77B7_9C2D);
    Turn(0x77B7_9C2D, data[3..], 0x34, 0x641C_1F5C);
    Turn(0x641C_1F5C, data[4..], 0x35, 0x340A_C5E3);
    assert ALL_ONES == 0xFFFF_FFFF;
  }

  lemma LastDigits(data: seq<Byte>)
    requires data == [0x36, 0x37, 0x38, 0x39]
    ensures Feed(Register(0x340A_C5E3), data) == Register(0x340B_C6D9)
  {
    hide Out, FromByte, Feed;
    DigitBytes();
    DigitTurns();
    Turn(0x340A_C5E3, data, 0x36, 0xF68D_2C9E);
    Turn(0xF68D_2C9E, data[1..], 0x37, 0xAFFC_9660);
    Turn(0xAFFC_9660, data[2..], 0x38, 0x651F_2550);
    Turn(0x651F_2550, data[3..], 0x39, 0x340B_C6D9);
    assert data[1..][1..] == data[2..] && data[2..][1..] == data[3..] && data[3..][1..] == [];
    NothingToFeed(Register(0x340B_C6D9));
  }

  /** The check value every catalogue gives for CRC-32/ISO-HDLC: that of the nine digits. */
  lemma CheckValue()
    ensures Checksum([0x31, 0x32, 0x33, 0x34, 0x35, 0x36, 0x37, 0x38, 0x39]) == 0xCBF4_3926
  {
    hide Feed;
    var data: seq<Byte> := [0x31, 0x32, 0x33, 0x34, 0x35, 0x36, 0x37, 0x38, 0x39];
    FirstDigits(data);
    LastDigits(data[5..]);
  }

  lemma NothingToFeed(r: Register)
    ensures Feed(r, []) == r
  {
  }
}
