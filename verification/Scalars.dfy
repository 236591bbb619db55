/** The typed reads and writes of `.eap` frames: eighteen scalar types, of which the integers work. */
module Scalars {
  import opened Bytes

  const U8: Byte := 0
  const I8: Byte := 1
  const U16LE: Byte := 2
  const U16BE: Byte := 3
  const I16LE: Byte := 4
  const I16BE: Byte := 5
  const U32LE: Byte := 6
  const U32BE: Byte := 7
  const I32LE: Byte := 8
  const I32BE: Byte := 9
  const U64LE: Byte := 10
  const U64BE: Byte := 11
  const I64LE: Byte := 12
  const I64BE: Byte := 13
  const F32LE: Byte := 14
  const F32BE: Byte := 15
  const F64LE: Byte := 16
  const F64BE: Byte := 17

  /** Bytes the type occupies; 0 for a discriminant that names none. */
  function Width(ty: Byte): (w: nat)
    ensures w in {0, 1, 2, 4, 8}
    ensures w == 0 <==> ty > F64BE
  {
    if ty == U8 || ty == I8 then 1
    else if U16LE <= ty <= I16BE then 2
    else if U32LE <= ty <= I32BE || ty == F32LE || ty == F32BE then 4
    else if U64LE <= ty <= I64BE || ty == F64LE || ty == F64BE then 8
    else 0
  }

  predicate BigEndian(ty: Byte) {
    ty in {U16BE, I16BE, U32BE, I32BE, U64BE, I64BE}
  }

  predicate Signed(ty: Byte) {
    ty in {I8, I16LE, I16BE, I32LE, I32BE, I64LE, I64BE}
  }

  predicate Integer(ty: Byte) {
    ty <= I64BE
  }

  function Pow256(n: nat): (p: nat)
    ensures p > 0
  {
    if n == 0 then 1 else 256 * Pow256(n - 1)
  }

  function LittleEndian(s: seq<Byte>): nat {
    if s == [] then 0 else s[0] + 256 * LittleEndian(s[1..])
  }

  function Reversed(s: seq<Byte>): (r: seq<Byte>)
    ensures |r| == |s|
    ensures forall i | 0 <= i < |s| :: r[i] == s[|s| - 1 - i]
  {
    if s == [] then [] else Reversed(s[1..]) + [s[0]]
  }

  /** The low `w` bytes of `n`, least significant first. */
  function LowBytes(n: nat, w: nat): (s: seq<Byte>)
    ensures |s| == w
    decreases w
  {
    if w == 0 then [] else [n % 256] + LowBytes(n / 256, w - 1)
  }

  /** The same `w` bytes of `n`, most significant first. */
  function HighBytes(n: nat, w: nat): (s: seq<Byte>)
    ensures |s| == w
  {
    if w == 0 then [] else [n / Pow256(w - 1) % 256] + HighBytes(n, w - 1)
  }

  /** A `uint64_t` seen as an `int64_t`. */
  function AsSigned(u: U64): I64 {
    if u >= TWO_63 then u - TWO_64 else u
  }

  /** An `int64_t` seen as a `uint64_t`. */
  function AsUnsigned(v: I64): U64 {
    if v < 0 then v + TWO_64 else v
  }

  /** The number `w` bytes hold, by the type's order and sign, saturated at INT64_MAX. */
  function Meaning(ty: Byte, raw: seq<Byte>): I64
    requires Integer(ty) && |raw| == Width(ty)
  {
    var u := LittleEndian(if BigEndian(ty) then Reversed(raw) else raw);
    LittleEndianBound(if BigEndian(ty) then Reversed(raw) else raw);
    PowersOf256();
    if Signed(ty) && u >= Pow256(|raw|) / 2 then u - Pow256(|raw|)
    else if u > INT64_MAX then INT64_MAX
    else u
  }

  /** None: too short, or not an integer type. Never a zero. */
  function Read(ty: Byte, s: seq<Byte>): Option<I64> {
    var w := Width(ty);
    if w == 0 || !Integer(ty) || |s| < w then None else Some(Meaning(ty, s[..w]))
  }

  function Write(ty: Byte, value: I64): Option<seq<Byte>> {
    var w := Width(ty);
    if w == 0 || !Integer(ty) then None
    else
      Some(if BigEndian(ty) then HighBytes(AsUnsigned(value), w) else LowBytes(AsUnsigned(value), w))
  }

  // ---- The loops --------------------------------------------------------------------

  /** `scalar_read_i64`: accumulates most significant byte first, then extends the sign. */
  method ReadI64(ty: Byte, s: seq<Byte>) returns (r: Option<I64>)
    ensures r == Read(ty, s)
  {
    var w := Width(ty);
    if w == 0 || !Integer(ty) || |s| < w {
      return None;
    }
    var v := Accumulate(BigEndian(ty), s[..w]);
    SignOf(ty, s[..w], v);
    if Signed(ty) && w < 8 {
      if v >= Pow256(w) / 2 {
        v := v + (TWO_64 - Pow256(w));
      }
      r := Some(AsSigned(v));
    } else if ty == U64LE || ty == U64BE {
      r := Some(if v > INT64_MAX then INT64_MAX else v);
    } else {
      r := Some(AsSigned(v));
    }
  }

  /** The accumulation loop of `scalar_read_i64`, most significant byte first. */
  method Accumulate(bigEndian: bool, raw: seq<Byte>) returns (v: U64)
    requires |raw| <= 8
    ensures v == LittleEndian(if bigEndian then Reversed(raw) else raw)
  {
    var w, i := |raw|, 0;
    v := 0;
    ghost var order := if bigEndian then Reversed(raw) else raw;
    while i < w
      invariant 0 <= i <= w
      invariant v == LittleEndian(order[w - i..])
    {
      var src := if bigEndian then i else w - 1 - i;
      assert order[w - 1 - i..][1..] == order[w - i..];
      FitsU64(order[w - 1 - i..]);
      v := v * 256 + raw[src];
      i := i + 1;
    }
    assert order[0..] == order;
  }

  lemma FitsU64(s: seq<Byte>)
    requires |s| <= 8
    ensures LittleEndian(s) < TWO_64
  {
    LittleEndianBound(s);
    Pow256Monotone(|s|, 8);
    PowersOf256();
  }

  /** The sign extension of `scalar_read_i64` gives the type's meaning. */
  lemma SignOf(ty: Byte, raw: seq<Byte>, v: U64)
    requires Integer(ty) && |raw| == Width(ty)
    requires v == LittleEndian(if BigEndian(ty) then Reversed(raw) else raw)
    ensures v < Pow256(|raw|) <= TWO_64
    ensures Signed(ty) && |raw| < 8 && v >= Pow256(|raw|) / 2 ==>
              Meaning(ty, raw) == AsSigned(v + (TWO_64 - Pow256(|raw|)))
    ensures !(Signed(ty) && |raw| < 8 && v >= Pow256(|raw|) / 2) && ty !in {U64LE, U64BE} ==>
              Meaning(ty, raw) == AsSigned(v)
    ensures ty in {U64LE, U64BE} ==> Meaning(ty, raw) == if v > INT64_MAX then INT64_MAX else v
  {
    hide LittleEndian, Reversed, Pow256;
    LittleEndianBound(if BigEndian(ty) then Reversed(raw) else raw);
    PowersOf256();
  }

  lemma WriteIsWidth(ty: Byte, value: I64)
    ensures Write(ty, value).Some? <==> Integer(ty)
    ensures Integer(ty) ==> Width(ty) > 0
    ensures Write(ty, value).Some? ==> |Write(ty, value).value| == Width(ty)
  {
  }

  /** The byte `shift` bytes up in a value. */
  function ByteAt(value: nat, shift: nat): Byte {
    value / Pow256(shift) % 256
  }

  /** `scalar_write_i64`: truncates to the declared width, at `at` in `out`. */
  method WriteI64(ty: Byte, value: I64, out: array<Byte>, at: nat) returns (ok: bool, n: nat)
    requires at <= out.Length
    modifies out
    ensures ok <==> Write(ty, value).Some? && at + Width(ty) <= out.Length
    ensures ok ==> n == Width(ty) && out[..at + n] == old(out[..at]) + Write(ty, value).value
    ensures out[..at] == old(out[..at])
  {
    hide Write, Pow256, ByteAt, AsUnsigned, Width, Integer, BigEndian;
    var w := Width(ty);
    n := 0;
    WriteIsWidth(ty, value);
    if w == 0 || !Integer(ty) || out.Length - at < w {
      return false, 0;
    }
    var raw := AsUnsigned(value);
    ghost var bytes := Write(ty, value).value;
    var i := 0;
    while i < w
      invariant 0 <= i <= w
      invariant forall k | 0 <= k < at :: out[k] == old(out[k])
      invariant forall k | at <= k < at + i :: out[k] == bytes[k - at]
    {
      var shift := if BigEndian(ty) then w - 1 - i else i;
      ByteOfWrite(ty, value, i);
      out[at + i] := ByteAt(raw, shift);
      i := i + 1;
    }
    assert out[..at] == old(out[..at]) && out[..at + w] == old(out[..at]) + bytes;
    return true, w;
  }

  // ---- Positional arithmetic --------------------------------------------------------

  lemma PowersOf256()
    ensures Pow256(0) == 1 && Pow256(1) == 0x100 && Pow256(2) == 0x1_0000 && Pow256(4) == 0x1_0000_0000
    ensures Pow256(8) == TWO_64
  {
    assert Pow256(2) == 256 * Pow256(1);
    assert Pow256(3) == 256 * Pow256(2);
    assert Pow256(4) == 256 * Pow256(3);
    assert Pow256(5) == 256 * Pow256(4);
    assert Pow256(6) == 256 * Pow256(5);
    assert Pow256(7) == 256 * Pow256(6);
    assert Pow256(8) == 256 * Pow256(7);
  }

  lemma {:induction false} Pow256Monotone(m: nat, n: nat)
    requires m <= n
    ensures Pow256(m) <= Pow256(n)
    decreases n
  {
    if m < n {
      Pow256Monotone(m, n - 1);
    }
  }

  lemma {:induction false} LittleEndianBound(s: seq<Byte>)
    ensures LittleEndian(s) < Pow256(|s|)
  {
    if s != [] {
      LittleEndianBound(s[1..]);
    }
  }

  lemma SplitDivision(n: nat, p: nat)
    requires p > 0
    ensures n % (256 * p) == n % 256 + 256 * (n / 256 % p)
    ensures n / (256 * p) == n / 256 / p
  {
    var q, r := n / 256 / p, n / 256 % p;
    assert n / 256 == p * q + r;
    assert n == (256 * p) * q + (256 * r + n % 256);
    assert 256 * r + 256 <= 256 * p;
    UniqueDivision(n, 256 * p, q, 256 * r + n % 256);
  }

  lemma UniqueDivision(n: nat, d: nat, q: nat, r: nat)
    requires d > 0 && n == d * q + r && r < d
    ensures n / d == q && n % d == r
  {
    var q', r' := n / d, n % d;
    if q < q' {
      TimesMonotone(d, q + 1, q');
    } else if q' < q {
      TimesMonotone(d, q' + 1, q);
    }
  }

  lemma TimesMonotone(d: nat, x: nat, y: nat)
    requires x <= y
    ensures d * x <= d * y
    ensures d * x == if x > 0 then d * (x - 1) + d else 0
  {
  }

  lemma {:induction false} ValueOfLowBytes(n: nat, w: nat)
    ensures LittleEndian(LowBytes(n, w)) == n % Pow256(w)
    decreases w
  {
    if w > 0 {
      ValueOfLowBytes(n / 256, w - 1);
      assert LowBytes(n, w)[1..] == LowBytes(n / 256, w - 1);
      SplitDivision(n, Pow256(w - 1));
    }
  }

  lemma {:induction false} LowByteAt(n: nat, w: nat, k: nat)
    requires k < w
    ensures LowBytes(n, w)[k] == n / Pow256(k) % 256
    decreases w
  {
    if k > 0 {
      LowByteAt(n / 256, w - 1, k - 1);
      SplitDivision(n, Pow256(k - 1));
    }
  }

  lemma {:induction false} HighByteAt(n: nat, w: nat, k: nat)
    requires k < w
    ensures HighBytes(n, w)[k] == n / Pow256(w - 1 - k) % 256
    decreases w
  {
    if k > 0 {
      HighByteAt(n, w - 1, k - 1);
    }
  }

  /** Each byte of a write, by its place. */
  lemma ByteOfWrite(ty: Byte, value: I64, k: nat)
    requires Integer(ty) && k < Width(ty)
    ensures Write(ty, value).Some? && |Write(ty, value).value| == Width(ty)
    ensures Write(ty, value).value[k]
            == ByteAt(AsUnsigned(value), if BigEndian(ty) then Width(ty) - 1 - k else k)
  {
    HighByteAt(AsUnsigned(value), Width(ty), k);
    LowByteAt(AsUnsigned(value), Width(ty), k);
  }

  lemma {:induction false} ReversedAt(s: seq<Byte>, k: nat)
    requires k < |s|
    ensures Reversed(s)[k] == s[|s| - 1 - k]
    decreases |s|
  {
    if k < |s| - 1 {
      ReversedAt(s[1..], k);
    }
  }

  /** Most significant first is least significant first, backwards. */
  lemma HighIsLowReversed(n: nat, w: nat)
    ensures HighBytes(n, w) == Reversed(LowBytes(n, w))
  {
    hide HighBytes, LowBytes, Reversed, Pow256;
    forall k: nat | k < w
      ensures HighBytes(n, w)[k] == Reversed(LowBytes(n, w))[k]
    {
      HighByteAt(n, w, k);
      ReversedAt(LowBytes(n, w), k);
      LowByteAt(n, w, w - 1 - k);
    }
  }

  // ---- The types in numbers ---------------------------------------------------------------

  function Two(low: Byte, high: Byte): nat {
    low + 256 * high
  }

  function Four(b0: Byte, b1: Byte, b2: Byte, b3: Byte): nat {
    Two(b0, b1) + 65536 * Two(b2, b3)
  }

  function Eight(b0: Byte, b1: Byte, b2: Byte, b3: Byte, b4: Byte, b5: Byte, b6: Byte, b7: Byte): nat {
    Four(b0, b1, b2, b3) + 4294967296 * Four(b4, b5, b6, b7)
  }

  /** Two's complement of `2 * half` values. */
  function Complement(u: nat, half: nat): int {
    if u < half then u else u - 2 * half
  }

  /** The first bytes of each type, by its number in the manifest: unsigned and signed, low byte first and last. */
  function Unsigned(ty: Byte, s: seq<Byte>): Option<nat> {
    if ty <= 1 then if |s| < 1 then None else Some(s[0])
    else if ty == 2 || ty == 4 then if |s| < 2 then None else Some(Two(s[0], s[1]))
    else if ty == 3 || ty == 5 then if |s| < 2 then None else Some(Two(s[1], s[0]))
    else if ty == 6 || ty == 8 then if |s| < 4 then None else Some(Four(s[0], s[1], s[2], s[3]))
    else if ty == 7 || ty == 9 then if |s| < 4 then None else Some(Four(s[3], s[2], s[1], s[0]))
    else if ty == 10 || ty == 12 then
      if |s| < 8 then None else Some(Eight(s[0], s[1], s[2], s[3], s[4], s[5], s[6], s[7]))
    else if ty == 11 || ty == 13 then
      if |s| < 8 then None else Some(Eight(s[7], s[6], s[5], s[4], s[3], s[2], s[1], s[0]))
    else None
  }

  lemma UnfoldTwo(s: seq<Byte>)
    requires |s| >= 2
    ensures LittleEndian(s) == Two(s[0], s[1]) + 65536 * LittleEndian(s[2..])
  {
    assert s[1..][1..] == s[2..];
    assert LittleEndian(s[1..]) == s[1] + 256 * LittleEndian(s[2..]);
  }

  lemma UnfoldFour(s: seq<Byte>)
    requires |s| >= 4
    ensures LittleEndian(s) == Four(s[0], s[1], s[2], s[3]) + 4294967296 * LittleEndian(s[4..])
  {
    hide LittleEndian, Two;
    UnfoldTwo(s);
    UnfoldTwo(s[2..]);
    assert s[2..][2..] == s[4..];
  }

  lemma LittleInNumbers(s: seq<Byte>)
    ensures |s| == 1 ==> LittleEndian(s) == s[0]
    ensures |s| == 2 ==> LittleEndian(s) == Two(s[0], s[1])
    ensures |s| == 4 ==> LittleEndian(s) == Four(s[0], s[1], s[2], s[3])
    ensures |s| == 8 ==> LittleEndian(s) == Eight(s[0], s[1], s[2], s[3], s[4], s[5], s[6], s[7])
  {
    hide Two, Four;
    assert LittleEndian([]) == 0;
    if |s| == 1 {
      assert s[1..] == [];
    } else if |s| == 2 {
      UnfoldTwo(s);
      assert s[2..] == [];
    } else if |s| == 4 {
      UnfoldFour(s);
      assert s[4..] == [];
    } else if |s| == 8 {
      UnfoldFour(s);
      UnfoldFour(s[4..]);
      assert s[4..][4..] == [];
    }
  }

  /** What is read of any bytes, for each of the fourteen integer types, and nothing for any other. */
  lemma ReadInNumbers(ty: Byte, s: seq<Byte>)
    ensures Read(ty, s).Some? <==> Unsigned(ty, s).Some?
    ensures Unsigned(ty, s).Some? ==>
              var u := Unsigned(ty, s).value;
              Read(ty, s).value == if ty == 1 then Complement(u, 128)
                                   else if ty in {4, 5} then Complement(u, 32768)
                                   else if ty in {8, 9} then Complement(u, 2147483648)
                                   else if ty in {12, 13} then Complement(u, 9223372036854775808)
                                   else if u > 9223372036854775807 then 9223372036854775807
                                   else u
  {
    hide Two, Four, Eight, LittleEndian, Reversed;
    var w := Width(ty);
    if Integer(ty) && |s| >= w {
      var raw := s[..w];
      var order := if BigEndian(ty) then Reversed(raw) else raw;
      LittleInNumbers(order);
      MeaningOfValue(ty, raw, LittleEndian(order));
      LittleEndianBound(order);
      PowersOf256();
    }
  }

  // ---- What a manifest author may rely on -----------------------------------------

  /** `value` as the type's width and sign can hold it; an unsigned 64-bit field saturates. */
  function Reduced(ty: Byte, value: I64): int
    requires Integer(ty)
  {
    var m := Pow256(Width(ty));
    var u := AsUnsigned(value) % m;
    if Signed(ty) then (if u >= m / 2 then u - m else u)
    else if u > INT64_MAX then INT64_MAX
    else u
  }

  lemma ReversedTwice(s: seq<Byte>)
    ensures Reversed(Reversed(s)) == s
  {
  }

  /** Reading back what was written gives the value reduced to the type. */
  lemma ReadOfWrite(ty: Byte, value: I64, rest: seq<Byte>)
    requires Integer(ty)
    ensures Write(ty, value).Some?
    ensures Read(ty, Write(ty, value).value + rest) == Some(Reduced(ty, value))
  {
    hide LowBytes, LittleEndian, Meaning, Pow256, Reversed;
    var w, low := Width(ty), LowBytes(AsUnsigned(value), Width(ty));
    var raw := Write(ty, value).value;
    assert (raw + rest)[..w] == raw;
    ReversedTwice(low);
    HighIsLowReversed(AsUnsigned(value), w);
    assert (if BigEndian(ty) then Reversed(raw) else raw) == low;
    ValueOfLowBytes(AsUnsigned(value), w);
    MeaningOfValue(ty, raw, AsUnsigned(value) % Pow256(w));
  }

  lemma MeaningOfValue(ty: Byte, raw: seq<Byte>, u: nat)
    requires Integer(ty) && |raw| == Width(ty)
    requires u == LittleEndian(if BigEndian(ty) then Reversed(raw) else raw)
    ensures Meaning(ty, raw) == if Signed(ty) then (if u >= Pow256(|raw|) / 2 then u - Pow256(|raw|) else u)
                                else if u > INT64_MAX then INT64_MAX
                                else u
  {
    LittleEndianBound(if BigEndian(ty) then Reversed(raw) else raw);
    PowersOf256();
  }

  /** A 64-bit signed field loses nothing; a negative written as U64 reads as INT64_MAX. */
  lemma FullWidth(ty: Byte, value: I64)
    requires ty in {U64LE, U64BE, I64LE, I64BE}
    ensures Reduced(ty, value) == if Signed(ty) || value >= 0 then value else INT64_MAX
  {
    PowersOf256();
  }

  /** The narrower integer types keep the value modulo 2^(8w), in the type's own range. */
  lemma NarrowWidth(ty: Byte, value: I64)
    requires Integer(ty) && Width(ty) < 8
    ensures var m, r := Pow256(Width(ty)), Reduced(ty, value);
            && (r - value) % m == 0
            && (if Signed(ty) then -(m / 2) <= r < m / 2 else 0 <= r < m)
  {
    hide AsUnsigned;
    PowersOf256();
    KeptModulo(Pow256(Width(ty)), value, Signed(ty));
  }

  /** A value's remainder, moved into the signed range or not, differs from it by a multiple. */
  lemma KeptModulo(m: nat, value: I64, signed: bool)
    requires m in {0x100, 0x1_0000, 0x1_0000_0000}
    ensures var low := AsUnsigned(value) % m;
            var r := if signed && low >= m / 2 then low - m else low;
            (r - value) % m == 0 && (if signed then -(m / 2) <= r < m / 2 else 0 <= r < m)
  {
    var u := AsUnsigned(value);
    var wraps := if value < 0 then 1 else 0;
    var below := if signed && u % m >= m / 2 then 1 else 0;
    Multiple(u, m);
    Multiple(TWO_64, m);
    Regrouped(m, wraps, TWO_64 / m, u / m, below, u % m, value);
    MultipleLeavesNothing(wraps * (TWO_64 / m) - u / m - below, m);
  }

  lemma Regrouped(m: int, wraps: int, turn: int, whole: int, below: int, low: int, value: int)
    requires 0 <= wraps <= 1 && 0 <= below <= 1 && value + wraps * (turn * m) == whole * m + low
    ensures low - below * m - value == (wraps * turn - whole - below) * m
  {
  }

  lemma Multiple(u: nat, m: nat)
    requires m in {0x100, 0x1_0000, 0x1_0000_0000}
    ensures u == u / m * m + u % m && (u == TWO_64 ==> u % m == 0)
  {
  }

  lemma MultipleLeavesNothing(k: int, m: nat)
    requires m in {0x100, 0x1_0000, 0x1_0000_0000}
    ensures k * m % m == 0
  {
  }

  /** Each big-endian type writes the value's bytes by falling weight, its little-endian neighbour's in reverse. */
  lemma EndianMirror(little: Byte, big: Byte, value: I64)
    requires big == little + 1 && little in {U16LE, I16LE, U32LE, I32LE, U64LE, I64LE}
    ensures Write(little, value).Some? && Write(big, value) == Some(Reversed(Write(little, value).value))
    ensures forall k: nat | k < Width(big) ::
              Write(big, value).value[k] == ByteAt(AsUnsigned(value), Width(big) - 1 - k)
  {
    hide HighBytes, LowBytes, Reversed, Pow256, AsUnsigned, ByteAt;
    HighIsLowReversed(AsUnsigned(value), Width(big));
    forall k: nat | k < Width(big)
      ensures Write(big, value).value[k] == ByteAt(AsUnsigned(value), Width(big) - 1 - k)
    {
      ByteOfWrite(big, value, k);
    }
  }

  /** A read never depends on bytes past the scalar: a prefix gives the same value or none. */
  lemma ReadOfPrefix(ty: Byte, s: seq<Byte>, k: nat)
    requires k <= |s|
    ensures Read(ty, s[..k]) == None || Read(ty, s[..k]) == Read(ty, s)
  {
    var w := Width(ty);
    if w <= k {
      assert s[..k][..w] == s[..w];
    }
  }
}
