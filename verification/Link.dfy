/**
 * The receiving side of the link: bytes collected up to a delimiter and handed to the decoder, and
 * why damage to one frame never costs another.
 */
module Link {
  import opened Bytes
  import opened Messages
  import opened Frames
  import opened Decoder
  import Cobs

  const CAP: nat := MAX_INBOUND_FRAME_LEN

  /** The byte runs handed to the decoder, from a receiver already holding `held`. */
  function Handed(held: seq<Byte>, stream: seq<Byte>): seq<seq<Byte>>
    decreases |stream|
  {
    if stream == [] then []
    else if stream[0] == 0 then (if held == [] then [] else [held]) + Handed([], stream[1..])
    else if |held| < CAP then Handed(held + [stream[0]], stream[1..])
    else Handed([], stream[1..])
  }

  /** Those of them that decode, decoded. */
  function Decodings(frames: seq<seq<Byte>>): seq<Message>
    decreases |frames|
  {
    if frames == [] then []
    else
      var m := Unframed(frames[0]);
      (if m.Some? then [m.value] else []) + Decodings(frames[1..])
  }

  function Received(stream: seq<Byte>): seq<Message> {
    Decodings(Handed([], stream))
  }

  // ---- The receive loop --------------------------------------------------------------------

  class Receiver {
    const rxBuf: array<Byte>

    constructor ()
      ensures rxBuf.Length == CAP && fresh(rxBuf)
    {
      rxBuf := new Byte[CAP];
    }

    /**
     * `receive_message` on what the link delivers from `start` on: the next message, or None if the
     * bytes run out first. What it leaves is what the next call begins with.
     */
    method Receive(stream: seq<Byte>, start: nat) returns (m: Option<Message>, pos: nat)
      requires rxBuf.Length == CAP && start <= |stream|
      modifies rxBuf
      ensures start <= pos <= |stream| && (m.Some? ==> start < pos) && (m.None? ==> pos == |stream|)
      ensures Received(stream[start..]) == (if m.Some? then [m.value] else []) + Received(stream[pos..])
    {
      hide Handed, Unframed, Decodings;
      var rxLen := 0;
      pos := start;
      while pos < |stream|
        invariant start <= pos <= |stream| && rxLen <= CAP
        invariant Received(stream[start..]) == Decodings(Handed(rxBuf[..rxLen], stream[pos..]))
      {
        ghost var held, rest := rxBuf[..rxLen], stream[pos..];
        var byte := stream[pos];
        pos := pos + 1;
        assert rest[1..] == stream[pos..];
        HandedStep(held, rest);
        if byte == 0 {
          if rxLen > 0 {
            DecodingsStep(held, Handed([], stream[pos..]));
            m := DecodeFrame(rxBuf[..rxLen]);
            if m.Some? {
              return;
            }
          }
          rxLen := 0;
        } else if rxLen < CAP {
          rxBuf[rxLen] := byte;
          rxLen := rxLen + 1;
          assert rxBuf[..rxLen] == held + [byte];
        } else {
          rxLen := 0;
        }
        assert rxLen == 0 ==> rxBuf[..rxLen] == [];
      }
      m := None;
      NothingLeft(rxBuf[..rxLen], stream[pos..]);
    }

    /** Call after call, every message on the stream in the order it was sent. */
    method ReceiveAll(stream: seq<Byte>) returns (messages: seq<Message>)
      requires rxBuf.Length == CAP
      modifies rxBuf
      ensures messages == Received(stream)
    {
      hide Received;
      messages := [];
      var pos := 0;
      assert stream[0..] == stream && [] + Received(stream) == Received(stream);
      while pos < |stream|
        invariant pos <= |stream|
        invariant messages + Received(stream[pos..]) == Received(stream)
      {
        var m, next := Receive(stream, pos);
        if m.Some? {
          messages := messages + [m.value];
        }
        pos := next;
      }
      assert stream[pos..] == [];
      NothingReceived();
    }
  }

  lemma NothingReceived()
    ensures Received([]) == []
  {
  }

  lemma HandedStep(held: seq<Byte>, stream: seq<Byte>)
    requires stream != []
    ensures stream[0] == 0 ==>
              Handed(held, stream) == (if held == [] then [] else [held]) + Handed([], stream[1..])
    ensures stream[0] == 0 && held == [] ==> Handed(held, stream) == Handed([], stream[1..])
    ensures stream[0] != 0 && |held| < CAP ==> Handed(held, stream) == Handed(held + [stream[0]], stream[1..])
    ensures stream[0] != 0 && |held| >= CAP ==> Handed(held, stream) == Handed([], stream[1..])
  {
  }

  lemma DecodingsStep(frame: seq<Byte>, frames: seq<seq<Byte>>)
    ensures Decodings([frame] + frames)
            == (if Unframed(frame).Some? then [Unframed(frame).value] else []) + Decodings(frames)
    ensures Unframed(frame).None? ==> Decodings([frame] + frames) == Decodings(frames)
  {
    hide Unframed;
    assert ([frame] + frames)[1..] == frames;
  }

  lemma NothingLeft(held: seq<Byte>, stream: seq<Byte>)
    requires stream == []
    ensures Decodings(Handed(held, stream)) == [] == Received(stream)
  {
  }

  // ---- Resynchronisation ------------------------------------------------------------------------

  /** A delimiter forgets everything before it. */
  lemma {:induction false} DelimiterForgets(held: seq<Byte>, before: seq<Byte>, after: seq<Byte>)
    ensures Handed(held, before + [0] + after) == Handed(held, before + [0]) + Handed([], after)
    decreases |before|
  {
    var all, short := before + [0] + after, before + [0];
    if before == [] {
      assert all[1..] == after && short[1..] == [];
    } else {
      assert all[1..] == before[1..] + [0] + after && short[1..] == before[1..] + [0];
      DelimiterForgets([], before[1..], after);
      if before[0] != 0 && |held| < CAP {
        DelimiterForgets(held + [before[0]], before[1..], after);
      }
    }
  }

  lemma {:induction false} RunIsCollected(held: seq<Byte>, run: seq<Byte>, after: seq<Byte>)
    requires Cobs.ZeroFree(run) && |held| + |run| <= CAP && held + run != []
    ensures Handed(held, run + [0] + after) == [held + run] + Handed([], after)
    decreases |run|
  {
    var all := run + [0] + after;
    if run == [] {
      assert all[1..] == after && held + run == held;
    } else {
      assert all[1..] == run[1..] + [0] + after && (held + [run[0]]) + run[1..] == held + run;
      RunIsCollected(held + [run[0]], run[1..], after);
    }
  }

  /**
   * Every non-empty zero-free run that fits the buffer and stands between two delimiters is handed
   * over byte for byte, whatever came before it.
   */
  lemma Resynchronises(before: seq<Byte>, run: seq<Byte>, after: seq<Byte>)
    requires run != [] && Cobs.ZeroFree(run) && |run| <= CAP
    ensures Handed([], before + [0] + (run + [0] + after))
            == Handed([], before + [0]) + [run] + Handed([], after)
  {
    DelimiterForgets([], before, run + [0] + after);
    RunIsCollected([], run, after);
    assert [] + run == run;
    assert Handed([], before + [0]) + ([run] + Handed([], after))
           == Handed([], before + [0]) + [run] + Handed([], after);
  }

  /** What a run of `n` bytes leaves in the buffer: every `CAP + 1` of them leave nothing. */
  function Leftover(n: nat): (k: nat)
    ensures k <= n && k <= CAP
  {
    if n <= CAP then n else Leftover(n - (CAP + 1))
  }

  /**
   * A zero-free run of any length: the buffer starts over each time it fills and drops the byte that
   * did not fit, so what is left of the run at its end still reaches the decoder.
   */
  lemma {:induction false} OverlongTailIsHanded(held: seq<Byte>, run: seq<Byte>)
    requires Cobs.ZeroFree(run) && |held| <= CAP
    ensures var all := held + run;
            var left := Leftover(|all|);
            Handed(held, run + [0]) == if left == 0 then [] else [all[|all| - left..]]
    decreases |run|
  {
    var all := held + run;
    assert (run + [0])[1..] == if run == [] then [] else run[1..] + [0];
    if run == [] {
      assert all == held && all[0..] == all;
    } else if |held| < CAP {
      assert (held + [run[0]]) + run[1..] == all;
      OverlongTailIsHanded(held + [run[0]], run[1..]);
    } else {
      OverlongTailIsHanded([], run[1..]);
      assert [] + run[1..] == run[1..];
      SameTail(held, run, Leftover(|all|));
    }
  }

  lemma SameTail(held: seq<Byte>, run: seq<Byte>, left: nat)
    requires left <= |run| - 1
    ensures run[1..][|run| - 1 - left..] == (held + run)[|held| + |run| - left..]
  {
  }

  // ---- Messages among damage ------------------------------------------------------------------------

  lemma NoDecodings()
    ensures Decodings([]) == []
  {
  }

  lemma {:induction false} DecodingsAppend(a: seq<seq<Byte>>, b: seq<seq<Byte>>)
    ensures Decodings(a + b) == Decodings(a) + Decodings(b)
    decreases |a|
  {
    hide Unframed, Decodings;
    if a == [] {
      assert a + b == b;
      NoDecodings();
    } else {
      DecodingsAppend(a[1..], b);
      assert a + b == [a[0]] + (a[1..] + b) && a == [a[0]] + a[1..];
      DecodingsStep(a[0], a[1..] + b);
      DecodingsStep(a[0], a[1..]);
    }
  }

  /** A stretch of the stream up to a delimiter: a frame as it was sent, or anything at all. */
  datatype Part =
    | Intact(frame: seq<Byte>, message: Message)
    | Damage(bytes: seq<Byte>)

  predicate Whole(p: Part) {
    p.Intact? ==> Cobs.ZeroFree(p.frame) && Unframed(p.frame) == Some(p.message)
  }

  function BytesOf(p: Part): seq<Byte> {
    (if p.Intact? then p.frame else p.bytes) + [0]
  }

  function StreamOf(parts: seq<Part>): seq<Byte>
    decreases |parts|
  {
    if parts == [] then [] else BytesOf(parts[0]) + StreamOf(parts[1..])
  }

  function MessagesOf(parts: seq<Part>): seq<Message>
    decreases |parts|
  {
    if parts == [] then []
    else (if parts[0].Intact? then [parts[0].message] else Received(BytesOf(parts[0]))) + MessagesOf(parts[1..])
  }

  /** No frame the decoder could take is too long for the buffer. */
  lemma DecodableFits(frame: seq<Byte>)
    requires Unframed(frame).Some?
    ensures frame != [] && |frame| <= CAP
  {
    hide DecMessage;
  }

  /**
   * Every intact frame is received, once and in order, around whatever else the line carried; a
   * damaged stretch yields what it would yield on its own and disturbs no other.
   */
  lemma {:induction false} IntactFramesArrive(parts: seq<Part>)
    requires forall p | p in parts :: Whole(p)
    ensures Received(StreamOf(parts)) == MessagesOf(parts)
    decreases |parts|
  {
    hide Unframed, Handed, Decodings;
    if parts == [] {
      NothingReceived();
    } else {
      var p, rest := parts[0], StreamOf(parts[1..]);
      assert p in parts;
      IntactFramesArrive(parts[1..]);
      var bytes := if p.Intact? then p.frame else p.bytes;
      DelimiterForgets([], bytes, rest);
      DecodingsAppend(Handed([], bytes + [0]), Handed([], rest));
      if p.Intact? {
        DecodableFits(p.frame);
        OneFrame(p.frame, p.message);
      }
    }
  }

  lemma OneFrame(frame: seq<Byte>, m: Message)
    requires Cobs.ZeroFree(frame) && Unframed(frame) == Some(m) && frame != [] && |frame| <= CAP
    ensures Received(frame + [0]) == [m]
  {
    hide Unframed;
    RunIsCollected([], frame, []);
    assert frame + [0] + [] == frame + [0] && [] + frame == frame;
    DecodingsStep(frame, []);
    assert [frame] + [] == [frame];
    assert Handed([], []) == [];
    assert Decodings([]) == [];
  }
}
