/** Bytes, C integer ranges and the option type every other module builds on. */
module Bytes {
  const TWO_8: int := 0x100
  const TWO_16: int := 0x1_0000
  const TWO_32: int := 0x1_0000_0000
  const TWO_63: int := 0x8000_0000_0000_0000
  const TWO_64: int := 0x1_0000_0000_0000_0000
  const INT64_MAX: int := TWO_63 - 1
  const INT64_MIN: int := -TWO_63

  /** One `uint8_t`. */
  type Byte = b: int | 0 <= b < 0x100

  /** `uint16_t`, `uint32_t`, `uint64_t` and `int64_t`. */
  type U16 = n: int | 0 <= n < TWO_16
  type U32 = n: int | 0 <= n < TWO_32
  type U64 = n: int | 0 <= n < TWO_64
  type I64 = n: int | INT64_MIN <= n <= INT64_MAX

  /** The 128-bit UUIDs of the link, kept as sixteen raw bytes. */
  type Uuid = u: seq<Byte> | |u| == 16 witness seq(16, _ => 0)

  datatype Option<+T> = None | Some(value: T) {
    predicate IsFailure() {
      None?
    }

    function PropagateFailure<U>(): Option<U>
      requires None?
    {
      None
    }

    function Extract(): T
      requires Some?
    {
      value
    }
  }

  /** `rest` is what is left of `s` after some prefix was consumed. */
  predicate IsSuffix(rest: seq<Byte>, s: seq<Byte>) {
    |rest| <= |s| && rest == s[|s| - |rest|..]
  }

  lemma SuffixOfSuffix(a: seq<Byte>, b: seq<Byte>, c: seq<Byte>)
    requires IsSuffix(a, b) && IsSuffix(b, c)
    ensures IsSuffix(a, c)
  {
  }
}
