/**
 * Consistent Overhead Byte Stuffing (Cheshire and Baker, IEEE/ACM ToN 1999), the framing of
 * every message on the link. The 0x00 delimiter itself is the caller's.
 */
module Cobs {
  import opened Bytes

  /** A block carries at most 254 data bytes; its code byte is then 0xFF and no zero is implied. */
  const MAX_RUN: nat := 254
  const FULL: Byte := 0xFF

  predicate ZeroFree(s: seq<Byte>) {
    forall i | 0 <= i < |s| :: s[i] != 0
  }

  /** The number of non-zero bytes `s` starts with, counted up to `cap`. */
  function LeadRun(s: seq<Byte>, cap: nat): (n: nat)
    ensures n <= |s| && n <= cap
    ensures ZeroFree(s[..n])
    ensures n < cap && n < |s| ==> s[n] == 0
    decreases s, cap
  {
    if cap == 0 || s == [] || s[0] == 0 then 0
    else
      var n := LeadRun(s[1..], cap - 1);
      assert s[..n + 1] == [s[0]] + s[1..][..n];
      n + 1
  }

  /** The stuffed form, block by block. */
  function Encoded(x: seq<Byte>): (y: seq<Byte>)
    ensures |y| > 0
    decreases |x|
  {
    var n := LeadRun(x, MAX_RUN);
    if n == MAX_RUN then [FULL] + x[..n] + Encoded(x[n..])
    else if n == |x| then [n + 1] + x
    else [n + 1] + x[..n] + Encoded(x[n + 1..])
  }

  /** What a receiver makes of stuffed bytes; None for a code byte of zero or past the end. */
  function Decoded(y: seq<Byte>): Option<seq<Byte>>
    decreases |y|
  {
    if y == [] then Some([])
    else if y[0] == 0 || y[0] > |y| then None
    else
      var rest := y[y[0]..];
      var tail :- Decoded(rest);
      Some(y[1..y[0]] + ImpliedZero(y[0], rest) + tail)
  }

  // ---- The encoder and decoder loops --------------------------------------------

  /** `cobs_encode`: one pass, each code byte's slot filled in when its block ends. */
  method Encode(input: seq<Byte>, output: array<Byte>) returns (length: nat)
    requires |input| + |input| / MAX_RUN + 1 <= output.Length
    modifies output
    ensures length <= output.Length
    ensures output[..length] == Encoded(input)
  {
    var readIndex := 0;
    var writeIndex := 1;
    var codeIndex := 0;
    var code := 1;
    hide Encoded, Pending, ZeroFree;
    ghost var done: seq<Byte>, run: seq<Byte> := [], [];
    PendingStart(input);
    while readIndex < |input|
      invariant 0 <= readIndex <= |input|
      invariant writeIndex == codeIndex + code && 1 <= code < FULL
      invariant writeIndex <= |input| + |input| / MAX_RUN + 1
      invariant codeIndex == |done| && code == |run| + 1
      invariant forall j | 0 <= j < codeIndex :: output[j] == done[j]
      invariant forall j | codeIndex < j < writeIndex :: output[j] == run[j - codeIndex - 1]
      invariant Pending(input, done, run, input[readIndex..])
    {
      ghost var rest := input[readIndex..];
      PendingFits(input, done, run, rest);
      if input[readIndex] == 0 {
        PendingZero(input, done, run, rest);
        output[codeIndex] := code;
        done, run := done + [code] + run, [];
        code := 1;
        codeIndex := writeIndex;
        writeIndex := writeIndex + 1;
        readIndex := readIndex + 1;
      } else {
        PendingByte(input, done, run, rest);
        output[writeIndex] := input[readIndex];
        run := run + [input[readIndex]];
        writeIndex := writeIndex + 1;
        readIndex := readIndex + 1;
        code := code + 1;
        if code == FULL {
          PendingFull(input, done, run, input[readIndex..]);
          output[codeIndex] := code;
          done, run := done + [code] + run, [];
          code := 1;
          codeIndex := writeIndex;
          writeIndex := writeIndex + 1;
        }
      }
      assert input[readIndex..] == rest[1..];
      PendingFits(input, done, run, input[readIndex..]);
    }
    assert input[readIndex..] == [];
    PendingEnds(input, done, run);
    output[codeIndex] := code;
    length := writeIndex;
    assert output[..length] == done + ([code] + run);
  }

  /** The encoder's progress: `done` is out, `run` is being collected, `rest` is unread. */
  ghost predicate Pending(input: seq<Byte>, done: seq<Byte>, run: seq<Byte>, rest: seq<Byte>) {
    ZeroFree(run) && |run| <= MAX_RUN && Encoded(input) == done + Encoded(run + rest)
  }

  lemma PendingStart(input: seq<Byte>)
    ensures Pending(input, [], [], input)
  {
    assert [] + input == input && [] + Encoded(input) == Encoded(input);
  }

  lemma PendingFits(input: seq<Byte>, done: seq<Byte>, run: seq<Byte>, rest: seq<Byte>)
    requires Pending(input, done, run, rest)
    ensures |done| + |run| + |rest| + 1 <= |input| + |input| / MAX_RUN + 1
  {
    hide Encoded;
    EncodedLength(input);
    EncodedLength(run + rest);
  }

  lemma PendingEnds(input: seq<Byte>, done: seq<Byte>, run: seq<Byte>)
    requires Pending(input, done, run, []) && |run| < MAX_RUN
    ensures Encoded(input) == done + ([|run| + 1] + run)
    ensures |done| + |run| + 1 <= |input| + |input| / MAX_RUN + 1
  {
    assert run + [] == run;
    EncodedShort(run);
    PendingFits(input, done, run, []);
  }

  lemma PendingByte(input: seq<Byte>, done: seq<Byte>, run: seq<Byte>, rest: seq<Byte>)
    requires Pending(input, done, run, rest) && |run| < MAX_RUN
    requires rest != [] && rest[0] != 0
    ensures Pending(input, done, run + [rest[0]], rest[1..])
  {
    assert run + [rest[0]] + rest[1..] == run + rest;
  }

  lemma PendingZero(input: seq<Byte>, done: seq<Byte>, run: seq<Byte>, rest: seq<Byte>)
    requires Pending(input, done, run, rest) && |run| < MAX_RUN
    requires rest != [] && rest[0] == 0
    ensures Pending(input, done + [|run| + 1] + run, [], rest[1..])
  {
    hide Encoded;
    EncodedAtZero(run, rest);
    assert done + ([|run| + 1] + run + Encoded(rest[1..])) == (done + [|run| + 1] + run) + Encoded(rest[1..]);
    assert [] + rest[1..] == rest[1..];
  }

  lemma PendingFull(input: seq<Byte>, done: seq<Byte>, run: seq<Byte>, rest: seq<Byte>)
    requires Pending(input, done, run, rest) && |run| == MAX_RUN
    ensures Pending(input, done + [FULL] + run, [], rest)
  {
    hide Encoded;
    EncodedFull(run, rest);
    assert done + ([FULL] + run + Encoded(rest)) == (done + [FULL] + run) + Encoded(rest);
    assert [] + rest == rest;
  }

  /**
   * `cobs_decode`: 0 for a malformed frame and for one whose decoding does not fit `output`.
   */
  method Decode(input: seq<Byte>, output: array<Byte>) returns (length: nat)
    modifies output
    ensures length <= output.Length
    ensures Decoded(input).Some? && |Decoded(input).value| <= output.Length ==>
              output[..length] == Decoded(input).value
    ensures Decoded(input).None? || |Decoded(input).value| > output.Length ==> length == 0
  {
    var readIndex := 0;
    var writeIndex := 0;
    hide Decoded;
    assert input[0..] == input;
    AfterNothing(Decoded(input));
    while readIndex < |input|
      invariant 0 <= readIndex <= |input|
      invariant 0 <= writeIndex <= output.Length
      invariant Decoded(input) == After(output[..writeIndex], Decoded(input[readIndex..]))
    {
      ghost var rest, done := input[readIndex..], output[..writeIndex];
      var code := input[readIndex];
      if code == 0 || (readIndex + code > |input| && code != 1) {
        DecodedMalformed(rest);
        return 0;
      }
      ghost var start, next := readIndex + 1, readIndex + code;
      DecodedBlock(input, readIndex, done);
      readIndex := readIndex + 1;
      var i := 1;
      while i < code
        invariant 1 <= i <= code
        invariant readIndex == start + i - 1
        invariant writeIndex == |done| + i - 1 <= output.Length
        invariant output[..writeIndex] == done + input[start..readIndex]
      {
        if writeIndex >= output.Length {
          return 0;
        }
        output[writeIndex] := input[readIndex];
        writeIndex := writeIndex + 1;
        readIndex := readIndex + 1;
        i := i + 1;
      }
      if code != FULL && readIndex != |input| {
        if writeIndex >= output.Length {
          return 0;
        }
        output[writeIndex] := 0;
        writeIndex := writeIndex + 1;
      }
      assert output[..writeIndex] == done + input[start..next] + ImpliedZero(code, input[next..]);
    }
    assert input[readIndex..] == [];
    DecodedNothing();
    length := writeIndex;
  }

  /** The zero a block stands for, unless it is full or the last one. */
  function ImpliedZero(code: Byte, rest: seq<Byte>): seq<Byte> {
    if code != FULL && rest != [] then [0] else []
  }

  /** `done`, then whatever the rest decodes to. */
  function After(done: seq<Byte>, rest: Option<seq<Byte>>): (all: Option<seq<Byte>>)
    ensures all.None? <==> rest.None?
    ensures all.Some? ==> |all.value| >= |done|
  {
    if rest.None? then None else Some(done + rest.value)
  }

  lemma AfterNothing(rest: Option<seq<Byte>>)
    ensures After([], rest) == rest
  {
    if rest.Some? {
      assert [] + rest.value == rest.value;
    }
  }

  // ---- One block at a time --------------------------------------------------------

  lemma {:induction false} LeadRunOfRun(run: seq<Byte>, rest: seq<Byte>, cap: nat)
    requires ZeroFree(run) && |run| <= cap
    requires |run| == cap || rest == [] || rest[0] == 0
    ensures LeadRun(run + rest, cap) == |run|
    decreases |run|
  {
    if run == [] {
      assert run + rest == rest;
    } else {
      assert (run + rest)[1..] == run[1..] + rest;
      LeadRunOfRun(run[1..], rest, cap - 1);
    }
  }

  lemma EncodedUnfolds(x: seq<Byte>)
    ensures var n := LeadRun(x, MAX_RUN);
            && (n == MAX_RUN ==> Encoded(x) == [n + 1] + x[..n] + Encoded(x[n..]))
            && (n == |x| < MAX_RUN ==> Encoded(x) == [n + 1] + x)
            && (n < |x| && n < MAX_RUN ==> Encoded(x) == [n + 1] + x[..n] + Encoded(x[n + 1..]))
  {
  }

  lemma DecodedMalformed(y: seq<Byte>)
    requires y != [] && (y[0] == 0 || y[0] > |y|)
    ensures Decoded(y).None?
  {
  }

  lemma DecodedNothing()
    ensures Decoded([]) == Some([])
  {
  }

  lemma DecodedOfBlock(run: seq<Byte>, rest: seq<Byte>)
    requires |run| <= MAX_RUN
    ensures Decoded([|run| + 1] + run + rest)
            == After(run + ImpliedZero(|run| + 1, rest), Decoded(rest))
  {
    var y := [|run| + 1] + run + rest;
    assert y[|run| + 1..] == rest && y[1..|run| + 1] == run;
  }

  lemma DecodedBlock(input: seq<Byte>, at: nat, done: seq<Byte>)
    requires at < |input|
    requires 0 < input[at] && at + input[at] <= |input|
    ensures var next := at + input[at];
            After(done, Decoded(input[at..]))
            == After(done + input[at + 1..next] + ImpliedZero(input[at], input[next..]), Decoded(input[next..]))
  {
    var next := at + input[at];
    var run, rest := input[at + 1..next], input[next..];
    assert input[at..] == [|run| + 1] + run + rest;
    DecodedOfBlock(run, rest);
    if Decoded(rest).Some? {
      var zero, tail := ImpliedZero(input[at], rest), Decoded(rest).value;
      assert done + (run + zero + tail) == (done + run + zero) + tail;
    }
  }

  lemma EncodedAtZero(run: seq<Byte>, rest: seq<Byte>)
    requires ZeroFree(run) && |run| < MAX_RUN
    requires rest != [] && rest[0] == 0
    ensures Encoded(run + rest) == [|run| + 1] + run + Encoded(rest[1..])
  {
    hide Encoded;
    LeadRunOfRun(run, rest, MAX_RUN);
    EncodedUnfolds(run + rest);
    assert (run + rest)[..|run|] == run;
    assert (run + rest)[|run| + 1..] == rest[1..];
  }

  lemma EncodedFull(run: seq<Byte>, rest: seq<Byte>)
    requires ZeroFree(run) && |run| == MAX_RUN
    ensures Encoded(run + rest) == [FULL] + run + Encoded(rest)
  {
    hide Encoded;
    LeadRunOfRun(run, rest, MAX_RUN);
    EncodedUnfolds(run + rest);
    assert (run + rest)[..|run|] == run;
    assert (run + rest)[|run|..] == rest;
  }

  lemma EncodedShort(run: seq<Byte>)
    requires ZeroFree(run) && |run| < MAX_RUN
    ensures Encoded(run) == [|run| + 1] + run
  {
    hide Encoded;
    assert run + [] == run;
    LeadRunOfRun(run, [], MAX_RUN);
    EncodedUnfolds(run);
  }

  // ---- What the framing promises ------------------------------------------------

  /** One byte more than the input, and at most one more for each 254 of it. */
  lemma {:induction false} EncodedLength(x: seq<Byte>)
    ensures |x| + 1 <= |Encoded(x)| <= |x| + |x| / MAX_RUN + 1
    decreases |x|
  {
    var n := LeadRun(x, MAX_RUN);
    if n == MAX_RUN {
      EncodedLength(x[n..]);
    } else if n < |x| {
      EncodedLength(x[n + 1..]);
    }
  }

  /** A stuffed frame never contains the delimiter. */
  lemma {:induction false} EncodedZeroFree(x: seq<Byte>)
    ensures ZeroFree(Encoded(x))
    decreases |x|
  {
    var n := LeadRun(x, MAX_RUN);
    if n == MAX_RUN {
      EncodedZeroFree(x[n..]);
    } else if n < |x| {
      EncodedZeroFree(x[n + 1..]);
    } else {
      assert x[..n] == x;
    }
  }

  /** Unstuffing undoes stuffing. */
  lemma {:induction false} DecodedOfEncoded(x: seq<Byte>)
    ensures Decoded(Encoded(x)) == Some(x)
    decreases |x|
  {
    hide Encoded, Decoded;
    var n := LeadRun(x, MAX_RUN);
    var run := x[..n];
    if n == MAX_RUN {
      var rest := Encoded(x[n..]);
      assert Encoded(x) == [n + 1] + run + rest by { EncodedUnfolds(x); }
      DecodedOfEncoded(x[n..]);
      DecodedOfBlock(run, rest);
      assert run + [] == run && x == run + x[n..];
    } else if n == |x| {
      assert x == run;
      EncodedShort(run);
      DecodedOfBlock(run, []);
      DecodedNothing();
      assert [n + 1] + run + [] == [n + 1] + run && (run + []) + [] == run;
    } else {
      var rest := Encoded(x[n + 1..]);
      assert Encoded(x) == [n + 1] + run + rest by { EncodedUnfolds(x); }
      DecodedOfEncoded(x[n + 1..]);
      DecodedOfBlock(run, rest);
      assert x == run + [0] + x[n + 1..];
    }
  }

  /** The code byte of the last block of a well-formed frame. */
  function LastCode(y: seq<Byte>): Byte
    requires y != []
    decreases |y|
  {
    if y[0] == 0 || y[0] >= |y| then y[0] else LastCode(y[y[0]..])
  }

  /**
   * Restuffing gives the frame back, save that a frame that ends in a full block gains the empty
   * block the encoder always opens after one: exactly then, and nothing else.
   */
  lemma {:induction false} EncodedOfDecoded(y: seq<Byte>)
    requires y != [] && ZeroFree(y) && Decoded(y).Some?
    ensures Encoded(Decoded(y).value) == if LastCode(y) == FULL then y + [1] else y
    decreases |y|
  {
    hide Encoded;
    var code := y[0];
    var run, rest := y[1..code], y[code..];
    assert y == [code] + run + rest;
    assert Decoded(y).value == run + ImpliedZero(code, rest) + Decoded(rest).value;
    hide Decoded;
    if rest == [] {
      DecodedNothing();
      assert Decoded(y).value == run;
      LastBlock(run);
    } else {
      EncodedOfDecoded(rest);
      InnerBlock(run, rest, Decoded(rest).value);
      assert [code] + run + (rest + [1]) == y + [1];
    }
  }

  lemma LastBlock(run: seq<Byte>)
    requires ZeroFree(run) && |run| <= MAX_RUN
    ensures Encoded(run) == if |run| == MAX_RUN then [FULL] + run + [1] else [|run| + 1] + run
  {
    if |run| == MAX_RUN {
      EncodedFull(run, []);
      EncodedShort([]);
      assert run + [] == run;
    } else {
      EncodedShort(run);
    }
  }

  lemma InnerBlock(run: seq<Byte>, rest: seq<Byte>, tail: seq<Byte>)
    requires ZeroFree(run) && |run| <= MAX_RUN && rest != []
    ensures Encoded(run + ImpliedZero(|run| + 1, rest) + tail) == [|run| + 1] + run + Encoded(tail)
  {
    hide Encoded;
    if |run| == MAX_RUN {
      EncodedFull(run, tail);
      assert run + ImpliedZero(|run| + 1, rest) == run;
    } else {
      var zeroTail := [0] + tail;
      EncodedAtZero(run, zeroTail);
      assert zeroTail[1..] == tail;
      assert run + [0] + tail == run + zeroTail;
    }
  }

  /** Frames that differ decode differently, once a trailing empty block is set aside. */
  lemma DecodedInjective(y: seq<Byte>, z: seq<Byte>)
    requires y != [] && z != [] && ZeroFree(y) && ZeroFree(z)
    requires Decoded(y).Some? && Decoded(y) == Decoded(z)
    ensures y == z || y == z + [1] || z == y + [1]
  {
    EncodedOfDecoded(y);
    EncodedOfDecoded(z);
    if LastCode(y) == FULL && LastCode(z) == FULL {
      assert y == (y + [1])[..|y|] && z == (z + [1])[..|z|];
    }
  }

  /**
   * The stuffing in numbers: up to 253 bytes without a zero, and the zero behind them, are a code byte one
   * above their number and themselves; 254 of them are 0xFF and themselves, and no zero is meant.
   */
  lemma BlocksInNumbers(run: seq<Byte>, rest: seq<Byte>)
    requires ZeroFree(run)
    ensures |run| < 254 ==> Encoded(run) == [|run| + 1] + run
    ensures |run| < 254 ==> Encoded(run + [0] + rest) == [|run| + 1] + run + Encoded(rest)
    ensures |run| == 254 ==> Encoded(run + rest) == [255] + run + Encoded(rest)
  {
    if |run| < 254 {
      EncodedAtZero(run, [0] + rest);
      EncodedShort(run);
      assert run + [0] + rest == run + ([0] + rest);
    } else if |run| == 254 {
      EncodedFull(run, rest);
    }
  }
}
