/**
 * What the host makes of the bytes the bench only ever sends: the three stream messages, and the
 * transcript rows some of their records hold. The reader is the host's, written from the wire format
 * (app/src/serial_protocol.h:230-290) and not from the bench's encoder.
 */
module HostReader {
  import opened Bytes
  import opened Postcard
  import opened Manifest
  import opened ManifestRoundTrip
  import opened Messages
  import opened MessageRoundTrip
  import opened Frames
  import opened Transcript
  import opened Budgets
  import Cobs

  // ---- Stream messages ----------------------------------------------------------------------

  function DecRecord(s: seq<Byte>): Parse<Record> {
    var (stamp, s1) :- DecVarint(s);
    var (bytes, s2) :- DecString(s1, 256);
    Some((Record(stamp, bytes), s2))
  }

  /** A stream message and nothing behind it. */
  function StreamMessage(s: seq<Byte>): Option<Message> {
    var (tag, s1) :- DecVarint(s);
    var (id, s2) :- DecByte(s1);
    if tag == 2 then
      if s2 == [] then Some(StreamOpen(id)) else None
    else if tag == 3 then
      var (records, s3) :- DecList(4, DecRecord, s2);
      if s3 == [] then Some(StreamChunkBatch(id, records)) else None
    else if tag == 4 then
      var (dropped, s3) :- DecVarint(s2);
      if s3 == [] && dropped < TWO_32 then Some(StreamClose(id, dropped)) else None
    else None
  }

  lemma RecordReadsBack(r: Record)
    requires |r.bytes| <= MAX_CHUNK_BYTES
    ensures ReadsBack(r, EncRecord, DecRecord, Same, Always)
  {
    hide EncVarint, DecVarint, EncString, DecString;
    forall rest
      ensures DecRecord(EncRecord(r, rest)) == Some((r, rest))
    {
      VarintRoundTrip(r.rxUtcMs, EncString(r.bytes, rest));
      StringRoundTrip(r.bytes, 256, rest);
    }
  }

  lemma RecordsReadBack(records: seq<Record>)
    requires |records| <= MAX_RECORDS && RecordsHold(records)
    ensures DecList(4, DecRecord, EncList(records, EncRecord, [])) == Some((records, []))
  {
    hide EncRecord, DecRecord, EncList, DecList;
    forall r | r in records { RecordReadsBack(r); }
    ListRoundTrip(records, 4, EncRecord, DecRecord, Same, Always, []);
    MapSame(records);
  }

  /** Every stream message the bench sends is the one the host reads. */
  lemma StreamMessageIsRead(m: Message)
    requires WellFormed(m) && OnlySent(m)
    ensures StreamMessage(EncMessage(m)) == Some(m)
  {
    hide EncVarint, DecVarint, EncList, DecList, EncRecord, DecRecord;
    VarintRoundTrip(MessageTag(m), EncBody(m, []));
    match m
    case StreamOpen(id) => assert EncBody(m, [])[1..] == [];
    case StreamChunkBatch(id, records) =>
      assert EncBody(m, [])[1..] == EncList(records, EncRecord, []);
      RecordsReadBack(records);
    case StreamClose(id, dropped) =>
      assert EncBody(m, [])[1..] == EncVarint(dropped, []);
      VarintRoundTrip(dropped, []);
  }

  /** And so through its frame: unstuffed, without the delimiter, it is the message. */
  lemma StreamFrameIsRead(m: Message)
    requires WellFormed(m) && OnlySent(m)
    ensures var f := Frame(m);
            && Cobs.ZeroFree(f[..|f| - 1]) && f[|f| - 1] == 0
            && Cobs.Decoded(f[..|f| - 1]).Some?
            && StreamMessage(Cobs.Decoded(f[..|f| - 1]).value) == Some(m)
  {
    hide EncMessage, Cobs.Encoded, Cobs.Decoded, StreamMessage, WellFormed;
    var raw := EncMessage(m);
    assert Frame(m)[..|Frame(m)| - 1] == Cobs.Encoded(raw);
    Cobs.EncodedZeroFree(raw);
    Cobs.DecodedOfEncoded(raw);
    StreamMessageIsRead(m);
  }

  // ---- Transcript rows -------------------------------------------------------------------------

  /** A row: when, which way, what, between whom, with what status, and the bytes. */
  function Row(s: seq<Byte>): Option<Entry> {
    var (stamp, s1) :- DecVarint(s);
    var (direction, s2) :- DecVarint(s1);
    var (kind, s3) :- DecVarint(s2);
    var (service, s4) :- DecOption(DecUuid, s3);
    var (characteristic, s5) :- DecOption(DecUuid, s4);
    var (status, s6) :- DecByte(s5);
    var (payload, s7) :- DecString(s6, 244);
    if s7 == [] && direction < 0x100 && kind < 0x100 then
      Some(Entry(stamp, direction, kind, service, characteristic, status, payload))
    else None
  }

  lemma UuidReadsBack(u: Uuid)
    ensures ReadsBack(u, EncUuid, DecUuid, Same, Always)
  {
    forall rest
      ensures DecUuid(EncUuid(u, rest)) == Some((u, rest))
    {
      RawRoundTrip(u, rest);
    }
  }

  /** Every row the bench writes is the one the host reads. */
  lemma RowIsRead(e: Entry)
    requires |e.payload| <= MAX_TRANSCRIPT_PAYLOAD_LEN
    ensures Row(EncEntry(e)) == Some(e)
  {
    hide EncVarint, DecVarint, EncString, DecString, EncOption, DecOption, EncUuid, DecUuid;
    var s6 := EncString(e.payload, []);
    var s5 := EncByte(e.attStatus, s6);
    var s4 := EncOption(e.characteristic, EncUuid, s5);
    var s3 := EncOption(e.service, EncUuid, s4);
    VarintRoundTrip(e.rxUtcMs, EncVarint(e.direction, EncVarint(e.kind, s3)));
    VarintRoundTrip(e.direction, EncVarint(e.kind, s3));
    VarintRoundTrip(e.kind, s3);
    if e.service.Some? { UuidReadsBack(e.service.value); }
    OptionReadsBack(e.service, EncUuid, DecUuid, Always, s4);
    if e.characteristic.Some? { UuidReadsBack(e.characteristic.value); }
    OptionReadsBack(e.characteristic, EncUuid, DecUuid, Always, s5);
    assert s5[1..] == s6;
    StringRoundTrip(e.payload, 244, []);
  }
}
