/** One row of the GATT transcript: its bytes, and exactly which rows a stream record can hold. */
module Transcript {
  import opened Bytes
  import opened Postcard
  import opened Manifest
  import opened Messages
  import opened Spans
  import opened Encoder
  import opened Budgets

  const MAX_TRANSCRIPT_PAYLOAD_LEN: nat := 244

  datatype Entry = Entry(rxUtcMs: U64, direction: Byte, kind: Byte, service: Option<Uuid>, characteristic: Option<Uuid>,
                         attStatus: Byte, payload: seq<Byte>)

  function EncUuid(u: Uuid, rest: seq<Byte>): seq<Byte> {
    u + rest
  }

  function EncUuids(e: Entry, rest: seq<Byte>): seq<Byte> {
    EncOption(e.service, EncUuid, EncOption(e.characteristic, EncUuid, rest))
  }

  function EncEntry(e: Entry): seq<Byte> {
    EncVarint(e.rxUtcMs,
              EncVarint(e.direction,
                        EncVarint(e.kind, EncUuids(e, EncByte(e.attStatus, EncString(e.payload, []))))))
  }

  method PutOptionalUuid(w: Writer, o: Option<Uuid>, ghost rest: seq<Byte>) returns (ok: bool)
    requires w.Valid()
    modifies w, w.out
    ensures w.Valid() && Put(old(w.Written()), EncOption(o, EncUuid, rest), rest, ok, w.Written(), w.out.Length)
  {
    if o.None? {
      ok := w.PutByte(0, rest);
      return;
    }
    ok := w.PutByte(1, o.value + rest);
    if !ok {
      return;
    }
    ok := w.PutRaw(o.value, rest);
  }

  /** What follows the kind. */
  method PutTail(w: Writer, e: Entry) returns (ok: bool)
    requires w.Valid()
    modifies w, w.out
    ensures w.Valid()
    ensures Put(old(w.Written()), EncUuids(e, EncByte(e.attStatus, EncString(e.payload, []))), [], ok, w.Written(),
                w.out.Length)
  {
    hide EncOption, EncString;
    ghost var s5 := EncString(e.payload, []);
    ghost var s4 := EncByte(e.attStatus, s5);
    ghost var s3 := EncOption(e.characteristic, EncUuid, s4);
    ok := PutOptionalUuid(w, e.service, s3);
    if !ok {
      return;
    }
    ok := PutOptionalUuid(w, e.characteristic, s4);
    if !ok {
      return;
    }
    ok := w.PutByte(e.attStatus, s5);
    if !ok {
      return;
    }
    ok := w.PutString(e.payload, []);
  }

  /** `dbm_encode_transcript_entry`: -1 exactly when the row does not fit. */
  method EncodeEntry(e: Entry, out: array<Byte>) returns (n: int)
    modifies out
    ensures n == -1 || 0 <= n <= out.Length
    ensures n >= 0 <==> |EncEntry(e)| <= out.Length
    ensures n >= 0 ==> out[..n] == EncEntry(e)
  {
    hide EncVarint, EncUuids, EncByte;
    var w := new Writer(out);
    ghost var s2 := EncUuids(e, EncByte(e.attStatus, EncString(e.payload, [])));
    assert [] + EncEntry(e) == EncEntry(e);
    var ok := w.PutVarint(e.rxUtcMs, EncVarint(e.direction, EncVarint(e.kind, s2)));
    if !ok {
      return -1;
    }
    ok := w.PutVarint(e.direction, EncVarint(e.kind, s2));
    if !ok {
      return -1;
    }
    ok := w.PutVarint(e.kind, s2);
    if !ok {
      return -1;
    }
    ok := PutTail(w, e);
    if !ok {
      return -1;
    }
    assert w.Written() + [] == w.Written();
    return w.pos;
  }

  function UuidRoom(o: Option<Uuid>): nat {
    if o.Some? then 17 else 1
  }

  /** A byte as a varint. */
  function ByteRoom(b: Byte): nat {
    if b < 0x80 then 1 else 2
  }

  /** What a row takes besides its time stamp. */
  function FieldRoom(e: Entry): nat {
    ByteRoom(e.direction) + ByteRoom(e.kind) + UuidRoom(e.service) + UuidRoom(e.characteristic) + 1
    + (if |e.payload| < 0x80 then 1 else 2) + |e.payload|
  }

  lemma EntryLength(e: Entry)
    ensures |EncEntry(e)| >= |EncVarint(e.rxUtcMs, [])| + FieldRoom(e)
    ensures |e.payload| < 0x4000 ==> |EncEntry(e)| == |EncVarint(e.rxUtcMs, [])| + FieldRoom(e)
  {
    hide EncVarint, EncString;
    var s5 := EncString(e.payload, []);
    var s4 := EncByte(e.attStatus, s5);
    PayloadRoom(e.payload);
    OptionLength(e.characteristic, EncUuid, s4);
    OptionLength(e.service, EncUuid, EncOption(e.characteristic, EncUuid, s4));
    VarintLength(e.kind, EncUuids(e, s4));
    VarintLength(e.direction, EncVarint(e.kind, EncUuids(e, s4)));
    var s1 := EncVarint(e.direction, EncVarint(e.kind, EncUuids(e, s4)));
    VarintAppends(e.rxUtcMs, [], s1);
    assert [] + s1 == s1;
  }

  lemma PayloadRoom(t: seq<Byte>)
    ensures |EncString(t, [])| >= |t| + if |t| < 0x80 then 1 else 2
    ensures |t| < 0x4000 ==> |EncString(t, [])| == |t| + if |t| < 0x80 then 1 else 2
  {
    if |t| < 0x4000 {
      StringLength(t, []);
    } else {
      VarintOver(|t|, 1, t + []);
      PowersOf128();
    }
  }

  /** Which rows a stream record holds: those whose fields and time stamp come to at most 256 bytes. */
  lemma RowFitsExactly(e: Entry)
    ensures |EncEntry(e)| <= MAX_CHUNK_BYTES <==> |EncVarint(e.rxUtcMs, [])| + FieldRoom(e) <= MAX_CHUNK_BYTES
  {
    EntryLength(e);
  }

  /**
   * A full-MTU row fits a record only if it names nothing at all and its clock has not passed 2^35 ms,
   * thirteen months: with UTC time it is always counted as lost on the transcript's tap.
   */
  lemma FullMtuFitsExactly(e: Entry)
    requires e.direction < 0x80 && e.kind < 0x80 && |e.payload| == MAX_TRANSCRIPT_PAYLOAD_LEN
    ensures |EncEntry(e)| <= MAX_CHUNK_BYTES <==>
              e.service.None? && e.characteristic.None? && e.rxUtcMs < 0x8_0000_0000
  {
    EntryLength(e);
    VarintUnder(e.rxUtcMs, 5, []);
    VarintOver(e.rxUtcMs, 5, []);
    PowersOf128();
  }
}
