/** The messages of the link: their fields, their encoding, and what the bench decodes. */
module Messages {
  import opened Bytes
  import opened Outcomes
  import opened Postcard
  import opened Manifest
  import opened Crc
  import Eap

  const MAX_FIRMWARE_VERSION_LEN: nat := 32
  const MAX_HARDWARE_ID_LEN: nat := 32
  const MAX_LOG_LINE_LEN: nat := 128
  const MAX_LOCAL_NAME_LEN: nat := 26
  const MAX_NAME_LEN: nat := 32
  const MAX_STEPS: nat := 16
  const MAX_FAIL_REASON_LEN: nat := 64
  const MAX_PAYLOAD_LEN: nat := 512
  const MAX_SERVICES: nat := 8
  const MAX_CHARACTERISTICS: nat := 16
  const MAX_CHUNK_BYTES: nat := 256
  const MAX_RECORDS: nat := 4
  const MAX_STREAMS: nat := 8
  const MAX_PROTOCOLS: nat := 2
  const MAX_PROTOCOLS_WIRE_LEN: nat := 3072
  const MAX_MONITOR_TARGETS: nat := 16
  const SECURITY_L4: Byte := 3
  const LOG_LEVEL_DBG: Byte := 4

  const MAX_STUDY_START_LEN: nat := 8 + MAX_STEPS * (MAX_PAYLOAD_LEN + 64) + 8 + MAX_PROTOCOLS_WIRE_LEN + 8
  const MAX_GATT_SERVICES_LEN: nat := 4 + MAX_SERVICES * (16 + 4 + MAX_CHARACTERISTICS * 17)
  const MAX_STEP_RESULT_LEN: nat :=
    24 + MAX_NAME_LEN + MAX_FAIL_REASON_LEN + MAX_PAYLOAD_LEN + MAX_GATT_SERVICES_LEN
    + Eap.MAX_STATE_NAME_LEN + MAX_FAIL_REASON_LEN + 8
  const MAX_RAW_LEN: nat :=
    if MAX_STUDY_START_LEN > MAX_STEP_RESULT_LEN then MAX_STUDY_START_LEN else MAX_STEP_RESULT_LEN
  const MAX_FRAME_LEN: nat := MAX_RAW_LEN + MAX_RAW_LEN / 254 + 2
  const MAX_OUTBOUND_RAW_LEN: nat := MAX_STEP_RESULT_LEN
  const MAX_OUTBOUND_FRAME_LEN: nat := MAX_OUTBOUND_RAW_LEN + MAX_OUTBOUND_RAW_LEN / 254 + 2
  const MAX_INBOUND_RAW_LEN: nat := MAX_STUDY_START_LEN + MAX_STREAMS * 16 + 16
  const MAX_INBOUND_FRAME_LEN: nat := MAX_INBOUND_RAW_LEN + MAX_INBOUND_RAW_LEN / 254 + 2

  // ---- Fields --------------------------------------------------------------------------

  const ZERO_UUID: Uuid := [0, 0, 0, 0, 0, 0, 0, 0, 0, 0, 0, 0, 0, 0, 0, 0]

  type Address = a: seq<Byte> | |a| == 6 witness seq(6, _ => 0)

  datatype GattOperation =
    | OpRead
    | OpWrite(payload: seq<Byte>)
    | OpNotify(timeoutMs: U32)
    | OpIndicate(timeoutMs: U32)
    | OpSubscribe
    | OpStreamCapture

  datatype PeerAddress = PeerAddress(address: Address, kind: Byte)

  datatype Action =
    | Advertise(localName: Option<seq<Byte>>, advIntervalMs: U16)
    | Connect(role: Byte, targetAddress: Option<PeerAddress>, targetName: Option<seq<Byte>>)
    | DataExchange(service: Uuid, characteristic: Uuid, operation: GattOperation)
    | GattDiscover
    | MonitorAll
    | MonitorStart
    | MonitorStop
    | SetSecurity(level: Byte)
    | Unbond
    | MonitorSelected(targets: seq<Eap.Source>)
    | MonitorSelectedStart(targets: seq<Eap.Source>)
    | RunProtocol(protocol: Byte, entryState: Byte)

  datatype Step = Step(name: seq<Byte>, action: Action, timeoutMs: U32, continueOnFail: bool, delayBeforeMs: U32)

  /** What the bench keeps of a declared tap. */
  datatype StreamTap = StreamTap(id: Byte, sourceTag: Byte, characteristic: Uuid, scopeTag: Byte,
                                 scopeFrom: U32, scopeTo: U32)

  /** A decoded StudyStart and the three verdicts the decoder reaches about its seals. */
  datatype Study = Study(steps: seq<Step>, stepsCrc: U32, stepsCrcValid: bool,
                         streams: seq<StreamTap>, streamsCrc: U32, streamsCrcValid: bool,
                         logLevel: Byte,
                         protocols: seq<Eap.ProtocolDef>, protocolsCrc: U32, protocolsCrcValid: bool,
                         unsupported: bool)

  datatype Characteristic = Characteristic(uuid: Uuid, properties: Byte)
  datatype Service = Service(uuid: Uuid, characteristics: seq<Characteristic>)
  datatype ProtocolOutcome = ProtocolOutcome(finalState: seq<Byte>, outcome: Outcome)

  datatype Result = Result(name: seq<Byte>, outcome: Outcome, captured: Option<seq<Byte>>,
                           services: Option<seq<Service>>, security: Option<Byte>,
                           protocol: Option<ProtocolOutcome>)

  datatype Record = Record(rxUtcMs: U64, bytes: seq<Byte>)

  datatype Message =
    | Hello(schema: U32, hostUtcMs: U64)
    | HelloAck(schema: U32, compatible: bool, firmware: seq<Byte>, hardware: seq<Byte>)
    | StreamOpen(id: Byte)
    | StreamChunkBatch(id: Byte, records: seq<Record>)
    | StreamClose(id: Byte, dropped: U32)
    | LogLine(text: seq<Byte>)
    | StudyStart(study: Study)
    | StepResult(stepIndex: U32, result: Result)
    | StudyDone(completed: bool)

  // ---- Encoding ----------------------------------------------------------------------------

  function EncTarget(t: Eap.Source, rest: seq<Byte>): seq<Byte> {
    t.service + (t.characteristic + rest)
  }

  function EncPeer(p: PeerAddress, rest: seq<Byte>): seq<Byte> {
    p.address + EncVarint(p.kind, rest)
  }

  function EncOperation(op: GattOperation, rest: seq<Byte>): seq<Byte> {
    match op
    case OpRead => EncVarint(0, rest)
    case OpWrite(payload) => EncVarint(1, EncString(payload, rest))
    case OpNotify(ms) => EncVarint(2, EncVarint(ms, rest))
    case OpIndicate(ms) => EncVarint(3, EncVarint(ms, rest))
    case OpSubscribe => EncVarint(4, rest)
    case OpStreamCapture => EncVarint(5, rest)
  }

  function ActionTag(a: Action): Byte {
    match a
    case Advertise(_, _) => 0
    case Connect(_, _, _) => 1
    case DataExchange(_, _, _) => 2
    case GattDiscover => 3
    case MonitorAll => 4
    case MonitorStart => 5
    case MonitorStop => 6
    case SetSecurity(_) => 7
    case Unbond => 8
    case MonitorSelected(_) => 9
    case MonitorSelectedStart(_) => 10
    case RunProtocol(_, _) => 11
  }

  /** The fields after the action tag; an Advertise step's service UUIDs are never stored. */
  function EncAction(a: Action, rest: seq<Byte>): seq<Byte> {
    match a
    case Advertise(name, interval) => EncOption(name, EncString, EncVarint(0, EncVarint(interval, rest)))
    case Connect(role, address, name) => EncVarint(role, EncOption(address, EncPeer, EncOption(name, EncString, rest)))
    case DataExchange(service, characteristic, op) => service + (characteristic + EncOperation(op, rest))
    case SetSecurity(level) => EncVarint(level, rest)
    case MonitorSelected(targets) => EncList(targets, EncTarget, rest)
    case MonitorSelectedStart(targets) => EncList(targets, EncTarget, rest)
    case RunProtocol(protocol, entry) => EncByte(protocol, EncByte(entry, rest))
    case _ => rest
  }

  function EncStep(s: Step, rest: seq<Byte>): seq<Byte> {
    EncString(s.name,
              EncVarint(ActionTag(s.action),
                        EncAction(s.action,
                                  EncVarint(s.timeoutMs, EncFlag(s.continueOnFail, EncVarint(s.delayBeforeMs, rest))))))
  }

  /** The bench's own encoder writes no taps and no protocols: their lists and seals are zeros. */
  function EncStudy(s: Study, rest: seq<Byte>): seq<Byte> {
    EncList(s.steps, EncStep,
            EncVarint(s.stepsCrc,
                      EncVarint(0, EncVarint(0, EncVarint(s.logLevel, EncVarint(0, EncVarint(0, rest)))))))
  }

  function EncOutcome(o: Outcome, rest: seq<Byte>): seq<Byte> {
    match o
    case Pass => EncVarint(0, rest)
    case Fail(reason) => EncVarint(1, EncString(reason, rest))
    case TimedOut => EncVarint(2, rest)
  }

  function EncCharacteristic(c: Characteristic, rest: seq<Byte>): seq<Byte> {
    c.uuid + EncByte(c.properties, rest)
  }

  function EncService(s: Service, rest: seq<Byte>): seq<Byte> {
    s.uuid + EncList(s.characteristics, EncCharacteristic, rest)
  }

  function EncServices(ss: seq<Service>, rest: seq<Byte>): seq<Byte> {
    EncList(ss, EncService, rest)
  }

  function EncLevel(level: Byte, rest: seq<Byte>): seq<Byte> {
    EncVarint(level, rest)
  }

  function EncProtocolOutcome(p: ProtocolOutcome, rest: seq<Byte>): seq<Byte> {
    EncString(p.finalState, EncOutcome(p.outcome, rest))
  }

  function EncResult(r: Result, rest: seq<Byte>): seq<Byte> {
    EncString(r.name,
              EncOutcome(r.outcome,
                         EncOption(r.captured, EncString,
                                   EncOption(r.services, EncServices,
                                             EncOption(r.security, EncLevel,
                                                       EncOption(r.protocol, EncProtocolOutcome, rest))))))
  }

  function EncRecord(r: Record, rest: seq<Byte>): seq<Byte> {
    EncVarint(r.rxUtcMs, EncString(r.bytes, rest))
  }

  function MessageTag(m: Message): Byte {
    match m
    case Hello(_, _) => 0
    case HelloAck(_, _, _, _) => 1
    case StreamOpen(_) => 2
    case StreamChunkBatch(_, _) => 3
    case StreamClose(_, _) => 4
    case LogLine(_) => 5
    case StudyStart(_) => 6
    case StepResult(_, _) => 7
    case StudyDone(_) => 8
  }

  function EncBody(m: Message, rest: seq<Byte>): seq<Byte> {
    match m
    case Hello(schema, host) => EncVarint(schema, EncVarint(host, rest))
    case HelloAck(schema, compatible, firmware, hardware) =>
      EncVarint(schema, EncFlag(compatible, EncString(firmware, EncString(hardware, rest))))
    case StreamOpen(id) => EncByte(id, rest)
    case StreamChunkBatch(id, records) => EncByte(id, EncList(records, EncRecord, rest))
    case StreamClose(id, dropped) => EncByte(id, EncVarint(dropped, rest))
    case LogLine(text) => EncString(text, rest)
    case StudyStart(study) => EncStudy(study, rest)
    case StepResult(index, result) => EncVarint(index, EncResult(result, rest))
    case StudyDone(completed) => EncFlag(completed, rest)
  }

  function EncMessage(m: Message): seq<Byte> {
    EncVarint(MessageTag(m), EncBody(m, []))
  }

  // ---- Decoding -----------------------------------------------------------------------------

  function DecTarget(s: seq<Byte>): Parse<Eap.Source> {
    var (service, s1) :- DecUuid(s);
    var (characteristic, s2) :- DecUuid(s1);
    Some((Eap.Source(service, characteristic), s2))
  }

  function DecPeer(s: seq<Byte>): Parse<PeerAddress> {
    if 6 > |s| then None
    else
      var (kind, s1) :- DecVarint(s[6..]);
      Some((PeerAddress(s[..6], kind % TWO_8), s1))
  }

  function DecLocalName(s: seq<Byte>): Parse<seq<Byte>> {
    DecString(s, MAX_LOCAL_NAME_LEN)
  }

  /** An operation it cannot walk past is a hard error. */
  function DecOperation(s: seq<Byte>): Parse<GattOperation> {
    var (kind, s1) :- DecVarint(s);
    if kind == 0 then Some((OpRead, s1))
    else if kind == 1 then
      var (payload, s2) :- DecString(s1, MAX_PAYLOAD_LEN);
      Some((OpWrite(payload), s2))
    else if kind == 2 || kind == 3 then
      var (ms, s2) :- DecVarint(s1);
      Some((if kind == 2 then OpNotify(ms % TWO_32) else OpIndicate(ms % TWO_32), s2))
    else if kind == 4 then Some((OpSubscribe, s1))
    else if kind == 5 then Some((OpStreamCapture, s1))
    else None
  }

  /** An unknown tag decodes to nothing, and to a note that it was met rather than to an error. */
  function DecAction(tag: nat, s: seq<Byte>): Parse<Option<Action>> {
    if tag == 0 then
      var (name, s1) :- DecOption(DecLocalName, s);
      var (_, s2) :- DecSkip(s1, 16);
      var (interval, s3) :- DecVarint(s2);
      Some((Some(Advertise(name, interval % TWO_16)), s3))
    else if tag == 1 then
      var (role, s1) :- DecVarint(s);
      var (address, s2) :- DecOption(DecPeer, s1);
      var (name, s3) :- DecOption(DecLocalName, s2);
      Some((Some(Connect(role % TWO_8, address, name)), s3))
    else if tag == 2 then
      var (t, s1) :- DecTarget(s);
      var (op, s2) :- DecOperation(s1);
      Some((Some(DataExchange(t.service, t.characteristic, op)), s2))
    else if tag == 7 then
      var (level, s1) :- DecVarint(s);
      if level > SECURITY_L4 then None else Some((Some(SetSecurity(level)), s1))
    else if tag == 9 || tag == 10 then
      var (targets, s1) :- DecList(MAX_MONITOR_TARGETS, DecTarget, s);
      Some((Some(if tag == 9 then MonitorSelected(targets) else MonitorSelectedStart(targets)), s1))
    else if tag == 11 then
      var (protocol, s1) :- DecByte(s);
      var (entry, s2) :- DecByte(s1);
      Some((Some(RunProtocol(protocol, entry)), s2))
    else if tag == 3 then Some((Some(GattDiscover), s))
    else if tag == 4 then Some((Some(MonitorAll), s))
    else if tag == 5 then Some((Some(MonitorStart), s))
    else if tag == 6 then Some((Some(MonitorStop), s))
    else if tag == 8 then Some((Some(Unbond), s))
    else Some((None, s))
  }

  function DecStep(s: seq<Byte>): Parse<Option<Step>> {
    var (name, s1) :- DecString(s, MAX_NAME_LEN);
    var (tag, s2) :- DecVarint(s1);
    var (action, s3) :- DecAction(tag, s2);
    if action.None? then Some((None, s3))
    else
      var (timeout, s4) :- DecVarint(s3);
      var (cont, s5) :- DecFlag(s4);
      var (delay, s6) :- DecVarint(s5);
      Some((Some(Step(name, action.value, timeout % TWO_32, cont, delay % TWO_32)), s6))
  }

  /** The steps up to the first whose action this build has no name for. */
  datatype Walked = Walked(steps: seq<Step>, unsupported: bool)

  function DecSteps(n: nat, s: seq<Byte>): Parse<Walked>
    decreases n
  {
    if n == 0 then Some((Walked([], false), s))
    else
      var (step, s1) :- DecStep(s);
      if step.None? then Some((Walked([], true), s1))
      else
        var (more, s2) :- DecSteps(n - 1, s1);
        Some((Walked([step.value] + more.steps, more.unsupported), s2))
  }

  datatype TapSource = TapSource(tag: Byte, characteristic: Uuid)

  /** A tap's source as far as it matters here: its tag, and the characteristic of a GattNotify. */
  function DecTapSource(s: seq<Byte>): Parse<TapSource> {
    var (tag, s1) :- DecVarint(s);
    if tag == 0 then
      var (t, s2) :- DecTarget(s1);
      Some((TapSource(0, t.characteristic), s2))
    else if tag == 1 then
      var (_, s2) :- DecVarint(s1);
      Some((TapSource(1, ZERO_UUID), s2))
    else if tag == 2 || tag == 3 then Some((TapSource(tag, ZERO_UUID), s1))
    else if tag == 4 then
      var (_, s2) :- DecSkip(s1, 1);
      Some((TapSource(4, ZERO_UUID), s2))
    else None
  }

  function DecTapEncoding(s: seq<Byte>): Parse<()> {
    var (tag, s1) :- DecVarint(s);
    if tag in {0, 1, 3, 4} then Some(((), s1))
    else if tag == 2 then
      var (_, s2) :- DecVarint(s1);
      var (_, s3) :- DecVarint(s2);
      var (_, s4) :- DecByte(s3);
      Some(((), s4))
    else if tag == 5 then
      var (_, s2) :- DecByte(s1);
      Some(((), s2))
    else None
  }

  function DecTap(s: seq<Byte>): Parse<StreamTap> {
    var (id, s1) :- DecByte(s);
    var (_, s2) :- DecSkip(s1, 1);
    var (source, s3) :- DecTapSource(s2);
    var (_, s4) :- DecTapEncoding(s3);
    var (scope, s5) :- DecVarint(s4);
    if scope == 0 then Some((StreamTap(id, source.tag, source.characteristic, 0, 0, 0), s5))
    else if scope == 1 then
      var (from, s6) :- DecVarint(s5);
      var (to, s7) :- DecVarint(s6);
      Some((StreamTap(id, source.tag, source.characteristic, 1, from % TWO_32, to % TWO_32), s7))
    else None
  }

  /** The bytes of `s` in front of `rest`. */
  function Consumed(s: seq<Byte>, rest: seq<Byte>): seq<Byte> {
    if |rest| <= |s| then s[..|s| - |rest|] else []
  }

  /** A list and its seal: the CRC of the elements' bytes, length prefix left out. */
  datatype Sealed<T> = Sealed(items: T, crc: U32, valid: bool)

  function DecSeal<T>(items: T, span: seq<Byte>, s: seq<Byte>): Parse<Sealed<T>> {
    var (crc, s1) :- DecVarint(s);
    Some((Sealed(items, crc % TWO_32, Checksum(span) == crc % TWO_32), s1))
  }

  function DecStreams(s: seq<Byte>): Parse<Sealed<seq<StreamTap>>> {
    var (n, s1) :- DecVarint(s);
    if n > MAX_STREAMS then None
    else
      var (taps, s2) :- DecEach(n, DecTap, s1);
      DecSeal(taps, Consumed(s1, s2), s2)
  }

  /** The byte cap is checked on the span the walk crossed. */
  function DecProtocols(s: seq<Byte>): Parse<Sealed<seq<Eap.ProtocolDef>>> {
    var (n, s1) :- DecVarint(s);
    if n > MAX_PROTOCOLS then None
    else
      var (defs, s2) :- DecEach(n, DecProtocol, s1);
      if |Consumed(s1, s2)| > MAX_PROTOCOLS_WIRE_LEN then None else DecSeal(defs, Consumed(s1, s2), s2)
  }

  function DecStudy(s: seq<Byte>): Parse<Study> {
    var (n, s1) :- DecVarint(s);
    if n > MAX_STEPS then None
    else
      var (walked, s2) :- DecSteps(n, s1);
      if walked.unsupported then
        Some((Study(walked.steps, 0, false, [], 0, false, 0, [], 0, false, true), s2))
      else
        var (steps, s3) :- DecSeal(walked.steps, Consumed(s1, s2), s2);
        var (streams, s4) :- DecStreams(s3);
        var (level, s5) :- DecVarint(s4);
        var (protocols, s6) :- DecProtocols(s5);
        Some((Study(steps.items, steps.crc, steps.valid, streams.items, streams.crc, streams.valid,
                    if level > LOG_LEVEL_DBG then LOG_LEVEL_DBG else level,
                    protocols.items, protocols.crc, protocols.valid, false),
              s6))
  }

  function DecReason(s: seq<Byte>): Parse<seq<Byte>> {
    DecString(s, MAX_FAIL_REASON_LEN)
  }

  function DecOutcome(s: seq<Byte>): Parse<Outcome> {
    var (tag, s1) :- DecVarint(s);
    if tag == 0 then Some((Pass, s1))
    else if tag == 1 then
      var (reason, s2) :- DecReason(s1);
      Some((Fail(reason), s2))
    else if tag == 2 then Some((TimedOut, s1))
    else None
  }

  function DecCaptured(s: seq<Byte>): Parse<seq<Byte>> {
    DecString(s, MAX_PAYLOAD_LEN)
  }

  function DecCharacteristic(s: seq<Byte>): Parse<Characteristic> {
    var (uuid, s1) :- DecUuid(s);
    var (properties, s2) :- DecByte(s1);
    Some((Characteristic(uuid, properties), s2))
  }

  function DecService(s: seq<Byte>): Parse<Service> {
    var (uuid, s1) :- DecUuid(s);
    var (characteristics, s2) :- DecList(MAX_CHARACTERISTICS, DecCharacteristic, s1);
    Some((Service(uuid, characteristics), s2))
  }

  function DecServices(s: seq<Byte>): Parse<seq<Service>> {
    DecList(MAX_SERVICES, DecService, s)
  }

  function DecLevel(s: seq<Byte>): Parse<Byte> {
    var (level, s1) :- DecVarint(s);
    if level > SECURITY_L4 then None else Some((level, s1))
  }

  function DecProtocolOutcome(s: seq<Byte>): Parse<ProtocolOutcome> {
    var (state, s1) :- DecString(s, Eap.MAX_STATE_NAME_LEN);
    var (outcome, s2) :- DecOutcome(s1);
    Some((ProtocolOutcome(state, outcome), s2))
  }

  function DecResult(s: seq<Byte>): Parse<Result> {
    var (name, s1) :- DecString(s, MAX_NAME_LEN);
    var (outcome, s2) :- DecOutcome(s1);
    var (captured, s3) :- DecOption(DecCaptured, s2);
    var (services, s4) :- DecOption(DecServices, s3);
    var (security, s5) :- DecOption(DecLevel, s4);
    var (protocol, s6) :- DecOption(DecProtocolOutcome, s5);
    Some((Result(name, outcome, captured, services, security, protocol), s6))
  }

  /** The stream messages are only ever sent: they decode as an unknown tag. */
  function DecBody(tag: nat, s: seq<Byte>): Parse<Message> {
    if tag == 0 then
      var (schema, s1) :- DecVarint(s);
      var (host, s2) :- DecVarint(s1);
      Some((Hello(schema % TWO_32, host), s2))
    else if tag == 1 then
      var (schema, s1) :- DecVarint(s);
      var (compatible, s2) :- DecFlag(s1);
      var (firmware, s3) :- DecString(s2, MAX_FIRMWARE_VERSION_LEN);
      var (hardware, s4) :- DecString(s3, MAX_HARDWARE_ID_LEN);
      Some((HelloAck(schema % TWO_32, compatible, firmware, hardware), s4))
    else if tag == 5 then
      var (text, s1) :- DecString(s, MAX_LOG_LINE_LEN);
      Some((LogLine(text), s1))
    else if tag == 6 then
      var (study, s1) :- DecStudy(s);
      Some((StudyStart(study), s1))
    else if tag == 7 then
      var (index, s1) :- DecVarint(s);
      var (result, s2) :- DecResult(s1);
      Some((StepResult(index % TWO_32, result), s2))
    else if tag == 8 then
      var (completed, s1) :- DecFlag(s);
      Some((StudyDone(completed), s1))
    else None
  }

  /** Bytes after the message are ignored. The tag is narrowed to the enum's 32 bits first. */
  function DecMessage(s: seq<Byte>): Option<Message> {
    var (tag, s1) :- DecVarint(s);
    var (m, _) :- DecBody(tag % TWO_32, s1);
    Some(m)
  }

  // ---- What the C structs can hold ---------------------------------------------------------

  /** A NUL-terminated array of `cap + 1` bytes holds this text. */
  predicate Text(s: seq<Byte>, cap: nat) {
    |s| <= cap && 0 !in s
  }

  predicate OptionalText(o: Option<seq<Byte>>, cap: nat) {
    o.Some? ==> Text(o.value, cap)
  }

  predicate ActionHolds(a: Action) {
    match a
    case Advertise(name, _) => OptionalText(name, MAX_LOCAL_NAME_LEN)
    case Connect(_, _, name) => OptionalText(name, MAX_LOCAL_NAME_LEN)
    case DataExchange(_, _, op) => op.OpWrite? ==> |op.payload| <= MAX_PAYLOAD_LEN
    case SetSecurity(level) => level <= SECURITY_L4
    case MonitorSelected(targets) => |targets| <= MAX_MONITOR_TARGETS
    case MonitorSelectedStart(targets) => |targets| <= MAX_MONITOR_TARGETS
    case _ => true
  }

  predicate StepHolds(s: Step) {
    Text(s.name, MAX_NAME_LEN) && ActionHolds(s.action)
  }

  predicate OutcomeHolds(o: Outcome) {
    o.Fail? ==> Text(o.reason, MAX_FAIL_REASON_LEN)
  }

  predicate ServiceHolds(s: Service) {
    |s.characteristics| <= MAX_CHARACTERISTICS
  }

  predicate ResultHolds(r: Result) {
    && Text(r.name, MAX_NAME_LEN)
    && OutcomeHolds(r.outcome)
    && (r.captured.Some? ==> |r.captured.value| <= MAX_PAYLOAD_LEN)
    && (r.services.Some? ==> |r.services.value| <= MAX_SERVICES && forall s | s in r.services.value :: ServiceHolds(s))
    && (r.security.Some? ==> r.security.value <= SECURITY_L4)
    && (r.protocol.Some? ==>
          Text(r.protocol.value.finalState, Eap.MAX_STATE_NAME_LEN) && OutcomeHolds(r.protocol.value.outcome))
  }

  predicate StepsHold(steps: seq<Step>) {
    forall s | s in steps :: StepHolds(s)
  }

  predicate RecordsHold(records: seq<Record>) {
    forall r | r in records :: |r.bytes| <= MAX_CHUNK_BYTES
  }

  /** Every field within its C array, every count within its cap. */
  predicate WellFormed(m: Message) {
    match m
    case HelloAck(_, _, firmware, hardware) =>
      Text(firmware, MAX_FIRMWARE_VERSION_LEN) && Text(hardware, MAX_HARDWARE_ID_LEN)
    case StreamChunkBatch(_, records) =>
      |records| <= MAX_RECORDS && RecordsHold(records)
    case LogLine(text) => Text(text, MAX_LOG_LINE_LEN)
    case StudyStart(s) => |s.steps| <= MAX_STEPS && StepsHold(s.steps) && s.logLevel <= LOG_LEVEL_DBG
    case StepResult(_, r) => ResultHolds(r)
    case _ => true
  }
}
