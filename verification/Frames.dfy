/** Whole messages and whole frames: what the bench encodes, it decodes to the same message. */
module Frames {
  import opened Bytes
  import opened Postcard
  import opened Messages
  import opened MessageRoundTrip
  import opened StudyRoundTrip
  import opened Crc
  import opened Spans
  import Cobs

  /** The bench writes no taps and no manifests of its own. */
  function AsHostStudy(s: Study): HostStudy {
    HostStudy(s.steps, s.stepsCrc, [], 0, s.logLevel, [], 0)
  }

  /**
   * The message as its receiver holds it. In a StudyStart the verdicts are the decoder's own, and
   * the fields the encoder writes as zero are zero.
   */
  function AsDecoded(m: Message): Message {
    if m.StudyStart? then StudyStart(Received(AsHostStudy(m.study))) else m
  }

  predicate OnlySent(m: Message) {
    m.StreamOpen? || m.StreamChunkBatch? || m.StreamClose?
  }

  lemma StudyStartReadsBack(s: Study, rest: seq<Byte>)
    requires WellFormed(StudyStart(s))
    ensures DecStudy(EncStudy(s, rest)) == Some((Received(AsHostStudy(s)), rest))
  {
    hide DecStudy, EncStep;
    var h := AsHostStudy(s);
    assert EncStudy(s, rest) == EncHostStudy(h, rest);
    StudyReadsBack(h, rest);
  }

  lemma HelloAckReadsBack(m: Message)
    requires m.HelloAck? && WellFormed(m)
    ensures DecBody(1, EncBody(m, [])) == Some((m, []))
  {
    hide EncVarint, DecVarint, EncString, DecString, EncStudy, DecStudy, EncResult, DecResult, EncList;
    var s2 := EncString(m.firmware, EncString(m.hardware, []));
    VarintRoundTrip(m.schema, EncFlag(m.compatible, s2));
    assert EncFlag(m.compatible, s2)[1..] == s2;
    StringRoundTrip(m.firmware, MAX_FIRMWARE_VERSION_LEN, EncString(m.hardware, []));
    StringRoundTrip(m.hardware, MAX_HARDWARE_ID_LEN, []);
  }

  lemma StepResultReadsBack(m: Message)
    requires m.StepResult? && WellFormed(m)
    ensures DecBody(7, EncBody(m, [])) == Some((m, []))
  {
    hide EncVarint, DecVarint, EncResult, DecResult;
    VarintRoundTrip(m.stepIndex, EncResult(m.result, []));
    ResultReadsBack(m.result, []);
  }

  lemma SmallBodyReadsBack(m: Message)
    requires WellFormed(m) && (m.Hello? || m.LogLine? || m.StudyDone?)
    ensures DecBody(MessageTag(m), EncBody(m, [])) == Some((m, []))
  {
    hide EncVarint, DecVarint, EncString, DecString;
    match m
    case Hello(schema, host) =>
      VarintRoundTrip(schema, EncVarint(host, []));
      VarintRoundTrip(host, []);
    case LogLine(text) => StringRoundTrip(text, MAX_LOG_LINE_LEN, []);
    case StudyDone(completed) => assert EncFlag(completed, [])[1..] == [];
  }

  lemma StudyBodyReadsBack(m: Message)
    requires m.StudyStart? && WellFormed(m)
    ensures DecBody(6, EncBody(m, [])) == Some((AsDecoded(m), []))
  {
    hide EncStudy, DecStudy, Received;
    StudyStartReadsBack(m.study, []);
  }

  lemma BodyReadsBack(m: Message)
    requires WellFormed(m)
    ensures DecBody(MessageTag(m), EncBody(m, [])) == if OnlySent(m) then None else Some((AsDecoded(m), []))
  {
    hide DecBody, EncBody, WellFormed, Received;
    match m
    case HelloAck(_, _, _, _) => HelloAckReadsBack(m);
    case StepResult(_, _) => StepResultReadsBack(m);
    case StudyStart(_) => StudyBodyReadsBack(m);
    case StreamOpen(_) => OnlySentIsUnknown(m);
    case StreamChunkBatch(_, _) => OnlySentIsUnknown(m);
    case StreamClose(_, _) => OnlySentIsUnknown(m);
    case _ => SmallBodyReadsBack(m);
  }

  lemma OnlySentIsUnknown(m: Message)
    requires OnlySent(m)
    ensures forall s :: DecBody(MessageTag(m), s).None?
  {
  }

  /** The stream messages alone have no decoder here; every other one comes back as it was sent. */
  lemma MessageReadsBack(m: Message)
    requires WellFormed(m)
    ensures DecMessage(EncMessage(m)) == if OnlySent(m) then None else Some(AsDecoded(m))
  {
    hide EncBody, DecBody, WellFormed, AsDecoded;
    VarintRoundTrip(MessageTag(m), EncBody(m, []));
    BodyReadsBack(m);
  }

  /** One message on the wire, its delimiter last. */
  function Frame(m: Message): seq<Byte> {
    Cobs.Encoded(EncMessage(m)) + [0]
  }

  /** A frame without its delimiter, as the receive loop hands it over. */
  function Unframed(frame: seq<Byte>): Option<Message> {
    if frame == [] || |frame| > MAX_FRAME_LEN then None
    else
      var raw :- Cobs.Decoded(frame);
      if raw == [] || |raw| > MAX_RAW_LEN then None else DecMessage(raw)
  }

  /**
   * The delimiter is the only zero in a frame, and what is in front of it decodes to the message,
   * for every message whose encoding is within the raw limit.
   */
  lemma FrameReadsBack(m: Message)
    requires WellFormed(m) && |EncMessage(m)| <= MAX_RAW_LEN
    ensures var f := Frame(m); Cobs.ZeroFree(f[..|f| - 1]) && f[|f| - 1] == 0
                               && Unframed(f[..|f| - 1]) == if OnlySent(m) then None else Some(AsDecoded(m))
  {
    hide EncBody, DecMessage, Cobs.Encoded, Cobs.Decoded, AsDecoded, WellFormed;
    var raw := EncMessage(m);
    assert Frame(m)[..|Frame(m)| - 1] == Cobs.Encoded(raw);
    Cobs.EncodedLength(raw);
    Cobs.EncodedZeroFree(raw);
    Cobs.DecodedOfEncoded(raw);
    MessageReadsBack(m);
  }

  /**
   * The seal a StudyStart's frame carries is judged by its receiver against the steps themselves: it is
   * good exactly when it is the CRC of their encoding, and the two lists the bench leaves out always are.
   */
  lemma StudySealsJudged(s: Study)
    requires WellFormed(StudyStart(s)) && |EncMessage(StudyStart(s))| <= MAX_RAW_LEN
    ensures var f := Frame(StudyStart(s));
            var received := Unframed(f[..|f| - 1]);
            && received.Some? && received.value.StudyStart?
            && var d := received.value.study;
               && d.steps == s.steps && d.logLevel == s.logLevel && !d.unsupported
               && (d.stepsCrcValid <==> Checksum(Span(s.steps, EncStep)) == s.stepsCrc)
               && d.streamsCrcValid && d.protocolsCrcValid
  {
    hide Frame, Unframed, EncMessage, EncStep;
    FrameReadsBack(StudyStart(s));
    NothingSealed();
  }
}
