/**
 * The postcard wire format as this bench reads it: ULEB128 varints (section 7.6 of DWARF 5),
 * zigzag for signed integers, raw bytes, and length-prefixed sequences.
 *
 * `EncX(x, rest)` is the encoding of `x` followed by `rest`; `DecX(s)` is the value at the front of
 * `s` with what follows it, or None where the bench's reader returns -1.
 */
module Postcard {
  import opened Bytes

  /** A varint of more bytes than this cannot be a `uint64_t`. */
  const MAX_VARINT_BYTES: nat := 10

  type Parse<+T> = Option<(T, seq<Byte>)>

  // ---- Varints ---------------------------------------------------------------------

  function EncVarint(n: nat, rest: seq<Byte>): (s: seq<Byte>)
    ensures |s| > |rest|
  {
    if n < 0x80 then [n] + rest else [n % 0x80 + 0x80] + EncVarint(n / 0x80, rest)
  }

  /** The seven-bit groups at the front of `s`, at most `k` of them, the last without its high bit. */
  function Groups(s: seq<Byte>, k: nat): (r: Parse<nat>)
    ensures r.Some? ==> IsSuffix(r.value.1, s) && |r.value.1| < |s|
    decreases s, k
  {
    if s == [] || k == 0 then None
    else if s[0] < 0x80 then Some((s[0], s[1..]))
    else
      var (high, rest) :- Groups(s[1..], k - 1);
      Some((s[0] - 0x80 + 0x80 * high, rest))
  }

  /** The reader keeps only 64 bits: a tenth group's high bits are shifted out. */
  function DecVarint(s: seq<Byte>): (r: Parse<U64>)
    ensures r.Some? ==> IsSuffix(r.value.1, s) && |r.value.1| < |s|
  {
    var (n, rest) :- Groups(s, MAX_VARINT_BYTES);
    Some((n % TWO_64, rest))
  }

  function Pow128(n: nat): nat {
    if n == 0 then 1 else 0x80 * Pow128(n - 1)
  }

  lemma {:induction false} GroupsOfVarint(n: nat, k: nat, rest: seq<Byte>)
    requires k > 0 && n < Pow128(k)
    ensures Groups(EncVarint(n, rest), k) == Some((n, rest))
    decreases k
  {
    if n < 0x80 {
      assert EncVarint(n, rest)[1..] == rest;
    } else {
      assert k > 1 by { assert Pow128(1) == 0x80 * Pow128(0); }
      assert n / 0x80 < Pow128(k - 1) by { assert Pow128(k) == 0x80 * Pow128(k - 1); }
      GroupsOfVarint(n / 0x80, k - 1, rest);
      assert EncVarint(n, rest)[1..] == EncVarint(n / 0x80, rest);
    }
  }

  lemma TenGroups()
    ensures TWO_64 < Pow128(MAX_VARINT_BYTES)
  {
    assert Pow128(2) == 0x80 * Pow128(1);
    assert Pow128(3) == 0x80 * Pow128(2);
    assert Pow128(4) == 0x80 * Pow128(3);
    assert Pow128(5) == 0x80 * Pow128(4);
    assert Pow128(6) == 0x80 * Pow128(5);
    assert Pow128(7) == 0x80 * Pow128(6);
    assert Pow128(8) == 0x80 * Pow128(7);
    assert Pow128(9) == 0x80 * Pow128(8);
    assert Pow128(10) == 0x80 * Pow128(9);
  }

  lemma VarintRoundTrip(n: nat, rest: seq<Byte>)
    requires n < TWO_64
    ensures DecVarint(EncVarint(n, rest)) == Some((n, rest))
  {
    hide Groups, EncVarint, Pow128;
    TenGroups();
    GroupsOfVarint(n, MAX_VARINT_BYTES, rest);
  }

  /** How many bytes a reading of `s` took when it left `rest`. */
  function Taken(s: seq<Byte>, rest: seq<Byte>): nat {
    if |rest| <= |s| then |s| - |rest| else 0
  }

  /** The number read lies where its last group puts it. */
  lemma {:induction false} LastGroupRules(s: seq<Byte>, k: nat)
    requires Groups(s, k).Some?
    ensures var (n, rest) := Groups(s, k).value;
            var p := Taken(s, rest);
            && 1 <= p <= k && s[p - 1] < 0x80 && rest == s[p..]
            && s[p - 1] * Pow128(p - 1) <= n < (s[p - 1] + 1) * Pow128(p - 1)
    decreases k
  {
    if s[0] >= 0x80 {
      LastGroupRules(s[1..], k - 1);
      var (high, rest) := Groups(s[1..], k - 1).value;
      var p := Taken(s[1..], rest);
      assert s[1..][p..] == s[p + 1..];
      OneGroupUp(s[0] - 0x80, high, s[1..][p - 1], Pow128(p - 1));
      assert Pow128(p) == 0x80 * Pow128(p - 1);
    } else {
      assert Pow128(0) == 1;
    }
  }

  lemma OneGroupUp(group: nat, high: nat, last: nat, w: nat)
    requires group < 0x80 && last * w <= high < (last + 1) * w
    ensures last * (0x80 * w) <= group + 0x80 * high < (last + 1) * (0x80 * w)
  {
    assert last * (0x80 * w) == 0x80 * (last * w) && (last + 1) * (0x80 * w) == 0x80 * ((last + 1) * w);
  }

  /** Writing back what was read gives the same bytes exactly when no empty group stands last. */
  lemma {:induction false} GroupsAreMinimal(s: seq<Byte>, k: nat)
    requires Groups(s, k).Some?
    ensures var (n, rest) := Groups(s, k).value;
            var p := Taken(s, rest);
            p >= 1 && (n == 0 ==> s[p - 1] == 0) && (EncVarint(n, rest) == s <==> p == 1 || s[p - 1] != 0)
    decreases k
  {
    var (n, rest) := Groups(s, k).value;
    if s[0] < 0x80 {
      assert [s[0]] + s[1..] == s;
    } else {
      GroupsAreMinimal(s[1..], k - 1);
      var high := Groups(s[1..], k - 1).value.0;
      var p := Taken(s[1..], rest);
      assert s[1..][p - 1] == s[p];
      assert [s[0]] + s[1..] == s;
      if high == 0 {
        assert EncVarint(n, rest)[0] < 0x80;
      } else {
        assert n % 0x80 + 0x80 == s[0] && n / 0x80 == high;
        assert EncVarint(n, rest) == [s[0]] + EncVarint(high, rest);
        assert EncVarint(n, rest)[1..] == EncVarint(high, rest);
        assert p == 1 ==> high == s[1];
      }
    }
  }

  /**
   * Of all readable bytes, exactly these are what the writer would write for the number they give:
   * no empty group last, and nothing above the 64th bit in a tenth one.
   */
  lemma ReadingIsCanonical(s: seq<Byte>)
    requires DecVarint(s).Some?
    ensures var (n, rest) := DecVarint(s).value;
            var p := Taken(s, rest);
            && 1 <= p <= MAX_VARINT_BYTES && p <= |s|
            && (EncVarint(n, rest) == s <==> (p == 1 || s[p - 1] != 0) && (p < MAX_VARINT_BYTES || s[9] <= 1))
  {
    hide Groups, EncVarint, Pow128;
    var (g, rest) := Groups(s, MAX_VARINT_BYTES).value;
    var n, p := g % TWO_64, Taken(s, rest);
    LastGroupRules(s, MAX_VARINT_BYTES);
    GroupsAreMinimal(s, MAX_VARINT_BYTES);
    SixtyFourBits(s[p - 1], p, g);
    if g < TWO_64 {
      assert n == g;
    } else {
      TenGroups();
      GroupsOfVarint(n, MAX_VARINT_BYTES, rest);
    }
  }

  lemma SixtyFourBits(last: nat, p: nat, g: nat)
    requires 1 <= p <= MAX_VARINT_BYTES && last < 0x80
    requires last * Pow128(p - 1) <= g < (last + 1) * Pow128(p - 1)
    ensures g < TWO_64 <==> p < MAX_VARINT_BYTES || last <= 1
  {
    NinePowers();
    PowersRise(p - 1, 8);
  }

  lemma NinePowers()
    ensures Pow128(8) == 0x100_0000_0000_0000 && Pow128(9) == TWO_63
  {
    assert Pow128(2) == 0x80 * Pow128(1);
    assert Pow128(3) == 0x80 * Pow128(2);
    assert Pow128(4) == 0x80 * Pow128(3);
    assert Pow128(5) == 0x80 * Pow128(4);
    assert Pow128(6) == 0x80 * Pow128(5);
    assert Pow128(7) == 0x80 * Pow128(6);
    assert Pow128(8) == 0x80 * Pow128(7);
    assert Pow128(9) == 0x80 * Pow128(8);
  }

  lemma {:induction false} PowersRise(m: nat, n: nat)
    ensures m <= n ==> Pow128(m) <= Pow128(n)
    decreases n
  {
    if m < n {
      PowersRise(m, n - 1);
    }
  }

  /** Two byte strings that read as the same number: reading is not injective. */
  lemma VarintIsNotCanonical()
    ensures DecVarint([0x80, 0x00]) == DecVarint([0x00]) == Some((0, []))
  {
  }

  // ---- Zigzag ------------------------------------------------------------------------

  function ZigZag(n: I64): U64 {
    if n >= 0 then 2 * n else -2 * n - 1
  }

  function UnZigZag(u: U64): I64 {
    if u % 2 == 0 then u / 2 else -(u / 2) - 1
  }

  function EncSigned(n: I64, rest: seq<Byte>): seq<Byte> {
    EncVarint(ZigZag(n), rest)
  }

  function DecSigned(s: seq<Byte>): (r: Parse<I64>)
    ensures r.Some? ==> IsSuffix(r.value.1, s) && |r.value.1| < |s|
  {
    var (u, rest) :- DecVarint(s);
    Some((UnZigZag(u), rest))
  }

  lemma SignedRoundTrip(n: I64, rest: seq<Byte>)
    ensures DecSigned(EncSigned(n, rest)) == Some((n, rest))
  {
    VarintRoundTrip(ZigZag(n), rest);
  }

  // ---- Bytes, flags, strings ------------------------------------------------------------

  function EncByte(b: Byte, rest: seq<Byte>): seq<Byte> {
    [b] + rest
  }

  function EncFlag(b: bool, rest: seq<Byte>): seq<Byte> {
    EncByte(if b then 1 else 0, rest)
  }

  function DecByte(s: seq<Byte>): (r: Parse<Byte>)
    ensures r.Some? ==> IsSuffix(r.value.1, s) && |r.value.1| < |s|
  {
    if s == [] then None else Some((s[0], s[1..]))
  }

  /** Any non-zero byte reads as true. */
  function DecFlag(s: seq<Byte>): (r: Parse<bool>)
    ensures r.Some? ==> IsSuffix(r.value.1, s) && |r.value.1| < |s|
  {
    if s == [] then None else Some((s[0] != 0, s[1..]))
  }

  function DecRaw(s: seq<Byte>, n: nat): (r: Parse<seq<Byte>>)
    ensures r.Some? ==> IsSuffix(r.value.1, s) && |r.value.0| == n
  {
    if n > |s| then None else Some((s[..n], s[n..]))
  }

  function DecUuid(s: seq<Byte>): (r: Parse<Uuid>)
    ensures r.Some? ==> IsSuffix(r.value.1, s)
  {
    if 16 > |s| then None else Some((s[..16], s[16..]))
  }

  function EncString(t: seq<Byte>, rest: seq<Byte>): seq<Byte> {
    EncVarint(|t|, t + rest)
  }

  /** A string of at most `cap` bytes, refused rather than cut when it is longer. */
  function DecString(s: seq<Byte>, cap: nat): (r: Parse<seq<Byte>>)
    ensures r.Some? ==> IsSuffix(r.value.1, s) && |r.value.1| < |s| && |r.value.0| <= cap
  {
    var (n, rest) :- DecVarint(s);
    if n > cap || n > |rest| then None else Some((rest[..n], rest[n..]))
  }

  /** A length-prefixed run of `size`-byte elements, walked and not kept. */
  function DecSkip(s: seq<Byte>, size: nat): (r: Parse<()>)
    ensures r.Some? ==> IsSuffix(r.value.1, s) && |r.value.1| < |s|
  {
    var (n, rest) :- DecVarint(s);
    if n * size > |rest| then None else Some(((), rest[n * size..]))
  }

  lemma RawRoundTrip(t: seq<Byte>, rest: seq<Byte>)
    ensures DecRaw(t + rest, |t|) == Some((t, rest))
    ensures |t| == 16 ==> DecUuid(t + rest) == Some((t, rest))
    ensures (t + rest)[..|t|] == t && (t + rest)[|t|..] == rest
  {
  }

  lemma StringRoundTrip(t: seq<Byte>, cap: nat, rest: seq<Byte>)
    requires |t| < TWO_64
    ensures DecString(EncString(t, rest), cap) == if |t| <= cap then Some((t, rest)) else None
    ensures DecSkip(EncString(t, rest), 1) == Some(((), rest))
  {
    VarintRoundTrip(|t|, t + rest);
    RawRoundTrip(t, rest);
  }

  // ---- Sequences ---------------------------------------------------------------------------

  function EncEach<T>(xs: seq<T>, enc: (T, seq<Byte>) -> seq<Byte>, rest: seq<Byte>): seq<Byte>
    decreases |xs|
  {
    if xs == [] then rest else enc(xs[0], EncEach(xs[1..], enc, rest))
  }

  function EncList<T>(xs: seq<T>, enc: (T, seq<Byte>) -> seq<Byte>, rest: seq<Byte>): seq<Byte> {
    EncVarint(|xs|, EncEach(xs, enc, rest))
  }

  function DecEach<T>(n: nat, dec: seq<Byte> -> Parse<T>, s: seq<Byte>): (r: Parse<seq<T>>)
    ensures r.Some? ==> |r.value.0| == n
    decreases n
  {
    if n == 0 then Some(([], s))
    else
      var (x, rest) :- dec(s);
      var (xs, last) :- DecEach(n - 1, dec, rest);
      Some(([x] + xs, last))
  }

  /** A count above the cap is refused: nothing is ever cut to fit. */
  function DecList<T>(cap: nat, dec: seq<Byte> -> Parse<T>, s: seq<Byte>): (r: Parse<seq<T>>)
    ensures r.Some? ==> |r.value.0| <= cap
  {
    var (n, rest) :- DecVarint(s);
    if n > cap then None else DecEach(n, dec, rest)
  }

  ghost predicate Shrinks<T(!new)>(dec: seq<Byte> -> Parse<T>) {
    forall s :: dec(s).Some? ==> IsSuffix(dec(s).value.1, s)
  }

  lemma {:induction false} EachIsSuffix<T(!new)>(n: nat, dec: seq<Byte> -> Parse<T>, s: seq<Byte>)
    requires Shrinks(dec)
    ensures DecEach(n, dec, s).Some? ==> IsSuffix(DecEach(n, dec, s).value.1, s)
    decreases n
  {
    if n > 0 && dec(s).Some? {
      EachIsSuffix(n - 1, dec, dec(s).value.1);
    }
  }

  function Map<A, B>(f: A -> B, xs: seq<A>): (ys: seq<B>)
    ensures |ys| == |xs|
    ensures forall i | 0 <= i < |xs| :: ys[i] == f(xs[i])
    decreases |xs|
  {
    if xs == [] then [] else [f(xs[0])] + Map(f, xs[1..])
  }

  ghost predicate All<A>(p: A -> bool, xs: seq<A>) {
    forall x | x in xs :: p(x)
  }

  /** Whether `dec` reads `enc(x)` back as `strip(x)` exactly when `x` fits. */
  ghost predicate ReadsBack<A, B>(x: A, enc: (A, seq<Byte>) -> seq<Byte>, dec: seq<Byte> -> Parse<B>,
                                  strip: A -> B, fits: A -> bool)
  {
    forall rest :: dec(enc(x, rest)) == if fits(x) then Some((strip(x), rest)) else None
  }

  lemma {:induction false} EachRoundTrip<A(!new), B>(xs: seq<A>, enc: (A, seq<Byte>) -> seq<Byte>,
                                                     dec: seq<Byte> -> Parse<B>, strip: A -> B, fits: A -> bool,
                                                     rest: seq<Byte>)
    requires forall x | x in xs :: ReadsBack(x, enc, dec, strip, fits)
    ensures DecEach(|xs|, dec, EncEach(xs, enc, rest))
            == if All(fits, xs) then Some((Map(strip, xs), rest)) else None
    decreases |xs|
  {
    if xs != [] {
      assert xs[0] in xs && ReadsBack(xs[0], enc, dec, strip, fits);
      forall x | x in xs[1..]
        ensures ReadsBack(x, enc, dec, strip, fits)
      {
        assert x in xs;
      }
      assert forall x :: x in xs <==> x == xs[0] || x in xs[1..];
      EachRoundTrip(xs[1..], enc, dec, strip, fits, rest);
    }
  }

  lemma ListRoundTrip<A(!new), B>(xs: seq<A>, cap: nat, enc: (A, seq<Byte>) -> seq<Byte>,
                                  dec: seq<Byte> -> Parse<B>, strip: A -> B, fits: A -> bool, rest: seq<Byte>)
    requires |xs| < TWO_64
    requires forall x | x in xs :: ReadsBack(x, enc, dec, strip, fits)
    ensures DecList(cap, dec, EncList(xs, enc, rest))
            == if |xs| <= cap && All(fits, xs) then Some((Map(strip, xs), rest)) else None
  {
    VarintRoundTrip(|xs|, EncEach(xs, enc, rest));
    EachRoundTrip(xs, enc, dec, strip, fits, rest);
  }

  // ---- One step of a counted read loop --------------------------------------------------

  /** What a loop that has `done` its first elements still has to find. */
  function Onto<T>(done: seq<T>, more: Parse<seq<T>>): Parse<seq<T>> {
    if more.None? then None else Some((done + more.value.0, more.value.1))
  }

  lemma OntoStep<T>(done: seq<T>, n: nat, dec: seq<Byte> -> Parse<T>, s: seq<Byte>)
    requires n > 0
    ensures Onto(done, DecEach(n, dec, s))
            == if dec(s).None? then None
               else Onto(done + [dec(s).value.0], DecEach(n - 1, dec, dec(s).value.1))
  {
    if dec(s).Some? {
      var (x, rest) := dec(s).value;
      var more := DecEach(n - 1, dec, rest);
      if more.Some? {
        assert done + ([x] + more.value.0) == (done + [x]) + more.value.0;
      }
    }
  }

  lemma OntoEnd<T>(done: seq<T>, dec: seq<Byte> -> Parse<T>, s: seq<Byte>)
    ensures Onto(done, DecEach(0, dec, s)) == Some((done, s))
  {
    assert done + [] == done;
  }

  lemma OntoStart<T>(n: nat, dec: seq<Byte> -> Parse<T>, s: seq<Byte>)
    ensures Onto([], DecEach(n, dec, s)) == DecEach(n, dec, s)
  {
    var r := DecEach(n, dec, s);
    if r.Some? {
      assert [] + r.value.0 == r.value.0;
    }
  }

  /** `r` is what `parse` says the front of the buffer holds, and `rest` what is left after it. */
  ghost predicate Took<T>(parse: Parse<T>, r: Option<T>, rest: seq<Byte>) {
    if r.None? then parse.None? else parse == Some((r.value, rest))
  }

  // ---- The cursor -----------------------------------------------------------------------------

  /** A received buffer and the `*pos` every reader advances through it. */
  class Reader {
    const raw: seq<Byte>
    var pos: nat

    constructor (raw: seq<Byte>)
      ensures this.raw == raw && pos == 0 && Valid()
    {
      this.raw := raw;
      pos := 0;
    }

    predicate Valid()
      reads this
    {
      pos <= |raw|
    }

    function Rest(): seq<Byte>
      requires Valid()
      reads this
    {
      raw[pos..]
    }

    /** `pc_read_varint`. */
    method ReadVarint() returns (r: Option<U64>)
      requires Valid()
      modifies this
      ensures Valid() && pos >= old(pos) && Took(DecVarint(old(Rest())), r, Rest())
    {
      hide Groups, Carried, Shifted;
      CarryNothing(Rest(), MAX_VARINT_BYTES);
      var result: nat := 0;
      var shift: nat := 0;
      ghost var k: nat := MAX_VARINT_BYTES;
      while true
        invariant Valid() && pos >= old(pos)
        invariant k >= 1 && shift == 7 * (MAX_VARINT_BYTES - k)
        invariant Groups(old(Rest()), MAX_VARINT_BYTES) == Carried(result, shift, Groups(Rest(), k))
        decreases k
      {
        CarryEnds(result, shift, Rest(), k);
        if pos >= |raw| {
          return None;
        }
        ghost var s := Rest();
        var byte := raw[pos];
        pos := pos + 1;
        assert Rest() == s[1..];
        CarryGroup(result, shift, s, k);
        result := result + Shifted(byte % 0x80, shift);
        if byte < 0x80 {
          break;
        }
        shift := shift + 7;
        k := k - 1;
        CarryEnds(result, shift, s[1..], k);
        if shift >= 64 {
          return None;
        }
      }
      r := Some(result % TWO_64);
    }

    /** `pc_read_zigzag`. */
    method ReadSigned() returns (r: Option<I64>)
      requires Valid()
      modifies this
      ensures Valid() && pos >= old(pos) && Took(DecSigned(old(Rest())), r, Rest())
    {
      var u :- ReadVarint();
      return Some(UnZigZag(u));
    }

    method ReadByte() returns (r: Option<Byte>)
      requires Valid()
      modifies this
      ensures Valid() && pos >= old(pos) && Took(DecByte(old(Rest())), r, Rest())
    {
      if pos >= |raw| {
        return None;
      }
      r := Some(raw[pos]);
      pos := pos + 1;
    }

    method ReadFlag() returns (r: Option<bool>)
      requires Valid()
      modifies this
      ensures Valid() && pos >= old(pos) && Took(DecFlag(old(Rest())), r, Rest())
    {
      var b :- ReadByte();
      return Some(b != 0);
    }

    method ReadRaw(n: nat) returns (r: Option<seq<Byte>>)
      requires Valid()
      modifies this
      ensures Valid() && pos >= old(pos) && Took(DecRaw(old(Rest()), n), r, Rest())
    {
      if pos + n > |raw| {
        return None;
      }
      ghost var s := Rest();
      r := Some(raw[pos..pos + n]);
      pos := pos + n;
      assert s[..n] == r.value && s[n..] == Rest();
    }

    method ReadUuid() returns (r: Option<Uuid>)
      requires Valid()
      modifies this
      ensures Valid() && pos >= old(pos) && Took(DecUuid(old(Rest())), r, Rest())
    {
      if pos + 16 > |raw| {
        return None;
      }
      ghost var s := Rest();
      r := Some(raw[pos..pos + 16]);
      pos := pos + 16;
      assert s[..16] == r.value && s[16..] == Rest();
    }

    /** `pc_read_str`, with `cap` the room before the terminator. */
    method ReadString(cap: nat) returns (r: Option<seq<Byte>>)
      requires Valid()
      modifies this
      ensures Valid() && pos >= old(pos) && Took(DecString(old(Rest()), cap), r, Rest())
    {
      var n :- ReadVarint();
      if n > cap || pos + n > |raw| {
        return None;
      }
      ghost var s := Rest();
      r := Some(raw[pos..pos + n]);
      pos := pos + n;
      assert s[..n] == r.value && s[n..] == Rest();
    }

    /** `pc_skip_len_prefixed`. */
    method Skip(size: nat) returns (r: Option<()>)
      requires Valid()
      modifies this
      ensures Valid() && pos >= old(pos) && Took(DecSkip(old(Rest()), size), r, Rest())
    {
      var len :- ReadVarint();
      var n: nat := len * size;
      if pos + n > |raw| {
        return None;
      }
      ghost var s := Rest();
      pos := pos + n;
      assert s[n..] == Rest();
      return Some(());
    }
  }

  /** A seven-bit group moved up `shift` bits. */
  function Shifted(group: nat, shift: nat): nat {
    group * Pow128(shift / 7)
  }

  /** The groups read so far, worth `low`, below the groups still to come. */
  function Carried(low: nat, shift: nat, high: Parse<nat>): Parse<nat> {
    if high.None? then None else Some((low + Shifted(high.value.0, shift), high.value.1))
  }

  lemma CarryNothing(s: seq<Byte>, k: nat)
    ensures Carried(0, 0, Groups(s, k)) == Groups(s, k)
  {
  }

  lemma CarryEnds(low: nat, shift: nat, s: seq<Byte>, k: nat)
    ensures s == [] || k == 0 ==> Carried(low, shift, Groups(s, k)).None?
  {
  }

  lemma CarryGroup(low: nat, shift: nat, s: seq<Byte>, k: nat)
    requires s != [] && k > 0 && shift % 7 == 0
    ensures s[0] < 0x80 ==>
              Carried(low, shift, Groups(s, k)) == Some((low + Shifted(s[0] % 0x80, shift), s[1..]))
    ensures s[0] >= 0x80 ==>
              Carried(low, shift, Groups(s, k))
              == Carried(low + Shifted(s[0] % 0x80, shift), shift + 7, Groups(s[1..], k - 1))
  {
    if s[0] >= 0x80 && Groups(s[1..], k - 1).Some? {
      var h, w := Groups(s[1..], k - 1).value.0, Pow128(shift / 7);
      assert (shift + 7) / 7 == shift / 7 + 1 && Pow128(shift / 7 + 1) == 0x80 * w;
      ShiftDistributes(s[0] - 0x80, h, w);
    }
  }

  lemma ShiftDistributes(g: nat, h: nat, w: nat)
    ensures (g + 0x80 * h) * w == g * w + h * (0x80 * w)
  {
  }
}
