/** Decoding undoes encoding, message by message, and a StudyStart's seals say what they cover. */
module MessageRoundTrip {
  import opened Bytes
  import opened Outcomes
  import opened Postcard
  import opened Manifest
  import opened ManifestRoundTrip
  import opened Messages
  import opened Crc
  import Eap

  // ---- The parts of a step -----------------------------------------------------------------

  lemma TargetReadsBack(t: Eap.Source)
    ensures ReadsBack(t, EncTarget, DecTarget, Same, Always)
  {
    forall rest
      ensures DecTarget(EncTarget(t, rest)) == Some((t, rest))
    {
      RawRoundTrip(t.service, t.characteristic + rest);
      RawRoundTrip(t.characteristic, rest);
    }
  }

  lemma PeerReadsBack(p: PeerAddress)
    ensures ReadsBack(p, EncPeer, DecPeer, Same, Always)
  {
    hide EncVarint, DecVarint;
    forall rest
      ensures DecPeer(EncPeer(p, rest)) == Some((p, rest))
    {
      RawRoundTrip(p.address, EncVarint(p.kind, rest));
      VarintRoundTrip(p.kind, rest);
    }
  }

  function LocalNameFits(name: seq<Byte>): bool {
    |name| <= MAX_LOCAL_NAME_LEN
  }

  lemma LocalNameReadsBack(name: seq<Byte>)
    requires Countable(name)
    ensures ReadsBack(name, EncString, DecLocalName, Same, LocalNameFits)
  {
    forall rest
      ensures DecLocalName(EncString(name, rest)) == if LocalNameFits(name) then Some((name, rest)) else None
    {
      StringRoundTrip(name, MAX_LOCAL_NAME_LEN, rest);
    }
  }

  lemma OperationReadsBack(op: GattOperation, rest: seq<Byte>)
    requires op.OpWrite? ==> Countable(op.payload)
    ensures DecOperation(EncOperation(op, rest))
            == if op.OpWrite? && |op.payload| > MAX_PAYLOAD_LEN then None else Some((op, rest))
  {
    hide EncVarint, DecVarint, EncString, DecString;
    match op
    case OpRead => VarintRoundTrip(0, rest);
    case OpWrite(payload) =>
      VarintRoundTrip(1, EncString(payload, rest));
      StringRoundTrip(payload, MAX_PAYLOAD_LEN, rest);
    case OpNotify(ms) =>
      VarintRoundTrip(2, EncVarint(ms, rest));
      VarintRoundTrip(ms, rest);
    case OpIndicate(ms) =>
      VarintRoundTrip(3, EncVarint(ms, rest));
      VarintRoundTrip(ms, rest);
    case OpSubscribe => VarintRoundTrip(4, rest);
    case OpStreamCapture => VarintRoundTrip(5, rest);
  }

  predicate ActionCountable(a: Action) {
    match a
    case Advertise(name, _) => name.Some? ==> Countable(name.value)
    case Connect(_, _, name) => name.Some? ==> Countable(name.value)
    case DataExchange(_, _, op) => op.OpWrite? ==> Countable(op.payload)
    case MonitorSelected(targets) => Countable(targets)
    case MonitorSelectedStart(targets) => Countable(targets)
    case _ => true
  }

  /** The capacities the decoder checks; texts may hold any byte. */
  predicate ActionFits(a: Action) {
    match a
    case Advertise(name, _) => name.Some? ==> LocalNameFits(name.value)
    case Connect(_, _, name) => name.Some? ==> LocalNameFits(name.value)
    case DataExchange(_, _, op) => op.OpWrite? ==> |op.payload| <= MAX_PAYLOAD_LEN
    case SetSecurity(level) => level <= SECURITY_L4
    case MonitorSelected(targets) => |targets| <= MAX_MONITOR_TARGETS
    case MonitorSelectedStart(targets) => |targets| <= MAX_MONITOR_TARGETS
    case _ => true
  }

  lemma OptionalNameReadsBack(name: Option<seq<Byte>>, rest: seq<Byte>)
    requires name.Some? ==> Countable(name.value)
    ensures DecOption(DecLocalName, EncOption(name, EncString, rest))
            == if name.Some? && !LocalNameFits(name.value) then None else Some((name, rest))
  {
    if name.Some? { LocalNameReadsBack(name.value); }
    OptionReadsBack(name, EncString, DecLocalName, LocalNameFits, rest);
  }

  lemma AdvertiseReadsBack(a: Action, rest: seq<Byte>)
    requires a.Advertise? && ActionCountable(a)
    ensures DecAction(0, EncAction(a, rest)) == if ActionFits(a) then Some((Some(a), rest)) else None
  {
    hide EncVarint, DecVarint, EncOption, DecOption, DecSkip;
    var s2 := EncVarint(a.advIntervalMs, rest);
    OptionalNameReadsBack(a.localName, EncVarint(0, s2));
    NothingToSkip(s2);
    VarintRoundTrip(a.advIntervalMs, rest);
  }

  lemma NothingToSkip(rest: seq<Byte>)
    ensures DecSkip(EncVarint(0, rest), 16) == Some(((), rest))
  {
    VarintRoundTrip(0, rest);
  }

  lemma ConnectReadsBack(a: Action, rest: seq<Byte>)
    requires a.Connect? && ActionCountable(a)
    ensures DecAction(1, EncAction(a, rest)) == if ActionFits(a) then Some((Some(a), rest)) else None
  {
    hide EncVarint, DecVarint, EncOption, DecOption;
    var s2 := EncOption(a.targetName, EncString, rest);
    var s1 := EncOption(a.targetAddress, EncPeer, s2);
    VarintRoundTrip(a.role, s1);
    if a.targetAddress.Some? { PeerReadsBack(a.targetAddress.value); }
    OptionReadsBack(a.targetAddress, EncPeer, DecPeer, Always, s2);
    OptionalNameReadsBack(a.targetName, rest);
  }

  lemma TargetsReadBack(targets: seq<Eap.Source>, rest: seq<Byte>)
    requires Countable(targets)
    ensures DecList(MAX_MONITOR_TARGETS, DecTarget, EncList(targets, EncTarget, rest))
            == if |targets| <= MAX_MONITOR_TARGETS then Some((targets, rest)) else None
  {
    forall t | t in targets { TargetReadsBack(t); }
    ListRoundTrip(targets, MAX_MONITOR_TARGETS, EncTarget, DecTarget, Same, Always, rest);
    MapSame(targets);
  }

  lemma ActionReadsBack(a: Action, rest: seq<Byte>)
    requires ActionCountable(a)
    ensures DecAction(ActionTag(a), EncAction(a, rest)) == if ActionFits(a) then Some((Some(a), rest)) else None
  {
    match a
    case Advertise(_, _) => AdvertiseReadsBack(a, rest);
    case Connect(_, _, _) => ConnectReadsBack(a, rest);
    case DataExchange(service, characteristic, op) => DataExchangeReadsBack(a, rest);
    case SetSecurity(level) => VarintRoundTrip(level, rest);
    case MonitorSelected(targets) => TargetsReadBack(targets, rest);
    case MonitorSelectedStart(targets) => TargetsReadBack(targets, rest);
    case RunProtocol(protocol, entry) =>
      assert EncAction(a, rest)[1..] == EncByte(entry, rest);
      assert EncByte(entry, rest)[1..] == rest;
    case _ =>
  }

  lemma DataExchangeReadsBack(a: Action, rest: seq<Byte>)
    requires a.DataExchange? && ActionCountable(a)
    ensures DecAction(2, EncAction(a, rest)) == if ActionFits(a) then Some((Some(a), rest)) else None
  {
    hide DecOperation, EncOperation;
    var s1 := EncOperation(a.operation, rest);
    var t := Eap.Source(a.service, a.characteristic);
    TargetReadsBack(t);
    assert DecTarget(EncTarget(t, s1)) == Some((t, s1));
    OperationReadsBack(a.operation, rest);
  }

  predicate StepCountable(s: Step) {
    Countable(s.name) && ActionCountable(s.action)
  }

  predicate StepFits(s: Step) {
    |s.name| <= MAX_NAME_LEN && ActionFits(s.action)
  }

  lemma StepReadsBack(s: Step, rest: seq<Byte>)
    requires StepCountable(s)
    ensures DecStep(EncStep(s, rest)) == if StepFits(s) then Some((Some(s), rest)) else None
  {
    hide EncVarint, DecVarint, EncString, DecString, DecAction, EncAction, ActionFits;
    var s5 := EncVarint(s.delayBeforeMs, rest);
    var s4 := EncFlag(s.continueOnFail, s5);
    var s3 := EncVarint(s.timeoutMs, s4);
    var s2 := EncAction(s.action, s3);
    StringRoundTrip(s.name, MAX_NAME_LEN, EncVarint(ActionTag(s.action), s2));
    VarintRoundTrip(ActionTag(s.action), s2);
    ActionReadsBack(s.action, s3);
    VarintRoundTrip(s.timeoutMs, s4);
    assert s4[1..] == s5;
    VarintRoundTrip(s.delayBeforeMs, rest);
  }

  lemma {:induction false} StepsReadBack(steps: seq<Step>, rest: seq<Byte>)
    requires forall s | s in steps :: StepCountable(s)
    ensures DecSteps(|steps|, EncEach(steps, EncStep, rest))
            == if forall s | s in steps :: StepFits(s) then Some((Walked(steps, false), rest)) else None
    decreases |steps|
  {
    hide DecStep, EncStep, StepFits, StepCountable;
    if steps != [] {
      assert steps[0] in steps;
      assert forall s :: s in steps <==> s == steps[0] || s in steps[1..];
      StepReadsBack(steps[0], EncEach(steps[1..], EncStep, rest));
      StepsReadBack(steps[1..], rest);
      assert [steps[0]] + steps[1..] == steps;
    }
  }

  // ---- Taps as the host declares them ----------------------------------------------------------

  datatype TapOrigin =
    | GattNotify(service: Uuid, characteristic: Uuid)
    | PowerFrontEnd(sampleHz: U32)
    | GattTranscript
    | DevBenchLog
    | Signal(name: seq<Byte>)

  datatype TapEncoding =
    | Raw
    | Plain
    | Samples(layout: U32, unit: U32, channel: Byte)
    | Transcript
    | OutpostTrace
    | Struct(decoder: Byte)

  datatype Scope =
    | WholeStudy
    | Window(from: U32, to: U32)

  datatype NamedTap = NamedTap(id: Byte, name: seq<Byte>, origin: TapOrigin, encoding: TapEncoding, scope: Scope)

  function EncOrigin(o: TapOrigin, rest: seq<Byte>): seq<Byte> {
    match o
    case GattNotify(service, characteristic) => EncVarint(0, service + (characteristic + rest))
    case PowerFrontEnd(hz) => EncVarint(1, EncVarint(hz, rest))
    case GattTranscript => EncVarint(2, rest)
    case DevBenchLog => EncVarint(3, rest)
    case Signal(name) => EncVarint(4, EncString(name, rest))
  }

  function EncEncoding(e: TapEncoding, rest: seq<Byte>): seq<Byte> {
    match e
    case Raw => EncVarint(0, rest)
    case Plain => EncVarint(1, rest)
    case Samples(layout, unit, channel) => EncVarint(2, EncVarint(layout, EncVarint(unit, EncByte(channel, rest))))
    case Transcript => EncVarint(3, rest)
    case OutpostTrace => EncVarint(4, rest)
    case Struct(decoder) => EncVarint(5, EncByte(decoder, rest))
  }

  function EncScope(s: Scope, rest: seq<Byte>): seq<Byte> {
    match s
    case WholeStudy => EncVarint(0, rest)
    case Window(from, to) => EncVarint(1, EncVarint(from, EncVarint(to, rest)))
  }

  function EncTap(t: NamedTap, rest: seq<Byte>): seq<Byte> {
    EncByte(t.id, EncString(t.name, EncOrigin(t.origin, EncEncoding(t.encoding, EncScope(t.scope, rest)))))
  }

  function OriginTag(o: TapOrigin): Byte {
    match o
    case GattNotify(_, _) => 0
    case PowerFrontEnd(_) => 1
    case GattTranscript => 2
    case DevBenchLog => 3
    case Signal(_) => 4
  }

  /** The name, the encoding and the service are walked past; addressing and scope are kept. */
  function StripTap(t: NamedTap): StreamTap {
    StreamTap(t.id, OriginTag(t.origin), if t.origin.GattNotify? then t.origin.characteristic else ZERO_UUID,
              if t.scope.Window? then 1 else 0,
              if t.scope.Window? then t.scope.from else 0,
              if t.scope.Window? then t.scope.to else 0)
  }

  predicate TapCountable(t: NamedTap) {
    Countable(t.name) && (t.origin.Signal? ==> Countable(t.origin.name))
  }

  lemma OriginReadsBack(o: TapOrigin, rest: seq<Byte>)
    requires o.Signal? ==> Countable(o.name)
    ensures DecTapSource(EncOrigin(o, rest))
            == Some((TapSource(OriginTag(o), if o.GattNotify? then o.characteristic else ZERO_UUID), rest))
  {
    hide EncVarint, DecVarint, EncString, DecSkip;
    match o
    case GattNotify(service, characteristic) =>
      VarintRoundTrip(0, service + (characteristic + rest));
      RawRoundTrip(service, characteristic + rest);
      RawRoundTrip(characteristic, rest);
    case PowerFrontEnd(hz) =>
      VarintRoundTrip(1, EncVarint(hz, rest));
      VarintRoundTrip(hz, rest);
    case GattTranscript => VarintRoundTrip(2, rest);
    case DevBenchLog => VarintRoundTrip(3, rest);
    case Signal(name) =>
      VarintRoundTrip(4, EncString(name, rest));
      StringRoundTrip(name, 0, rest);
  }

  lemma EncodingReadsBack(e: TapEncoding, rest: seq<Byte>)
    ensures DecTapEncoding(EncEncoding(e, rest)) == Some(((), rest))
  {
    hide EncVarint, DecVarint;
    match e
    case Raw => VarintRoundTrip(0, rest);
    case Plain => VarintRoundTrip(1, rest);
    case Samples(layout, unit, channel) =>
      VarintRoundTrip(2, EncVarint(layout, EncVarint(unit, EncByte(channel, rest))));
      VarintRoundTrip(layout, EncVarint(unit, EncByte(channel, rest)));
      VarintRoundTrip(unit, EncByte(channel, rest));
      assert EncByte(channel, rest)[1..] == rest;
    case Transcript => VarintRoundTrip(3, rest);
    case OutpostTrace => VarintRoundTrip(4, rest);
    case Struct(decoder) =>
      VarintRoundTrip(5, EncByte(decoder, rest));
      assert EncByte(decoder, rest)[1..] == rest;
  }

  lemma TapReadsBack(t: NamedTap)
    requires TapCountable(t)
    ensures ReadsBack(t, EncTap, DecTap, StripTap, Always)
  {
    hide EncVarint, DecVarint, EncString, DecSkip, DecTapSource, EncOrigin, DecTapEncoding, EncEncoding;
    forall rest
      ensures DecTap(EncTap(t, rest)) == Some((StripTap(t), rest))
    {
      var s4 := EncScope(t.scope, rest);
      var s3 := EncEncoding(t.encoding, s4);
      var s2 := EncOrigin(t.origin, s3);
      assert EncTap(t, rest)[1..] == EncString(t.name, s2);
      StringRoundTrip(t.name, 0, s2);
      OriginReadsBack(t.origin, s3);
      EncodingReadsBack(t.encoding, s4);
      match t.scope
      case WholeStudy => VarintRoundTrip(0, rest);
      case Window(from, to) =>
        VarintRoundTrip(1, EncVarint(from, EncVarint(to, rest)));
        VarintRoundTrip(from, EncVarint(to, rest));
        VarintRoundTrip(to, rest);
    }
  }

  // ---- The parts of a step's result ----------------------------------------------------------

  lemma OutcomeReadsBack(o: Outcome, rest: seq<Byte>)
    requires OutcomeHolds(o)
    ensures DecOutcome(EncOutcome(o, rest)) == Some((o, rest))
  {
    hide EncVarint, DecVarint, EncString, DecString;
    match o
    case Pass => VarintRoundTrip(0, rest);
    case Fail(reason) =>
      VarintRoundTrip(1, EncString(reason, rest));
      StringRoundTrip(reason, MAX_FAIL_REASON_LEN, rest);
    case TimedOut => VarintRoundTrip(2, rest);
  }

  lemma CharacteristicReadsBack(c: Characteristic)
    ensures ReadsBack(c, EncCharacteristic, DecCharacteristic, Same, Always)
  {
    forall rest
      ensures DecCharacteristic(EncCharacteristic(c, rest)) == Some((c, rest))
    {
      RawRoundTrip(c.uuid, EncByte(c.properties, rest));
      assert EncByte(c.properties, rest)[1..] == rest;
    }
  }

  lemma ServiceReadsBack(s: Service)
    requires ServiceHolds(s)
    ensures ReadsBack(s, EncService, DecService, Same, Always)
  {
    hide EncList, DecList;
    forall rest
      ensures DecService(EncService(s, rest)) == Some((s, rest))
    {
      RawRoundTrip(s.uuid, EncList(s.characteristics, EncCharacteristic, rest));
      forall c | c in s.characteristics { CharacteristicReadsBack(c); }
      ListRoundTrip(s.characteristics, MAX_CHARACTERISTICS, EncCharacteristic, DecCharacteristic, Same, Always, rest);
      MapSame(s.characteristics);
    }
  }

  lemma ServicesReadBack(ss: seq<Service>)
    requires |ss| <= MAX_SERVICES && forall s | s in ss :: ServiceHolds(s)
    ensures ReadsBack(ss, EncServices, DecServices, Same, Always)
  {
    hide EncService, DecService, ServiceHolds, EncList, DecList;
    forall rest
      ensures DecServices(EncServices(ss, rest)) == Some((ss, rest))
    {
      forall s | s in ss { ServiceReadsBack(s); }
      ListRoundTrip(ss, MAX_SERVICES, EncService, DecService, Same, Always, rest);
      MapSame(ss);
    }
  }

  lemma CapturedReadsBack(payload: seq<Byte>)
    requires |payload| <= MAX_PAYLOAD_LEN
    ensures ReadsBack(payload, EncString, DecCaptured, Same, Always)
  {
    forall rest
      ensures DecCaptured(EncString(payload, rest)) == Some((payload, rest))
    {
      StringRoundTrip(payload, MAX_PAYLOAD_LEN, rest);
    }
  }

  lemma LevelReadsBack(level: Byte)
    requires level <= SECURITY_L4
    ensures ReadsBack(level, EncLevel, DecLevel, Same, Always)
  {
    forall rest
      ensures DecLevel(EncLevel(level, rest)) == Some((level, rest))
    {
      VarintRoundTrip(level, rest);
    }
  }

  lemma ProtocolOutcomeReadsBack(p: ProtocolOutcome)
    requires Text(p.finalState, Eap.MAX_STATE_NAME_LEN) && OutcomeHolds(p.outcome)
    ensures ReadsBack(p, EncProtocolOutcome, DecProtocolOutcome, Same, Always)
  {
    hide EncString, DecString, EncOutcome, DecOutcome;
    forall rest
      ensures DecProtocolOutcome(EncProtocolOutcome(p, rest)) == Some((p, rest))
    {
      StringRoundTrip(p.finalState, Eap.MAX_STATE_NAME_LEN, EncOutcome(p.outcome, rest));
      OutcomeReadsBack(p.outcome, rest);
    }
  }

  lemma ResultReadsBack(r: Result, rest: seq<Byte>)
    requires ResultHolds(r)
    ensures DecResult(EncResult(r, rest)) == Some((r, rest))
  {
    hide EncString, DecString, EncOutcome, DecOutcome, EncOption, DecOption;
    var s5 := EncOption(r.protocol, EncProtocolOutcome, rest);
    var s4 := EncOption(r.security, EncLevel, s5);
    var s3 := EncOption(r.services, EncServices, s4);
    var s2 := EncOption(r.captured, EncString, s3);
    StringRoundTrip(r.name, MAX_NAME_LEN, EncOutcome(r.outcome, s2));
    OutcomeReadsBack(r.outcome, s2);
    if r.captured.Some? { CapturedReadsBack(r.captured.value); }
    OptionReadsBack(r.captured, EncString, DecCaptured, Always, s3);
    if r.services.Some? { ServicesReadBack(r.services.value); }
    OptionReadsBack(r.services, EncServices, DecServices, Always, s4);
    if r.security.Some? { LevelReadsBack(r.security.value); }
    OptionReadsBack(r.security, EncLevel, DecLevel, Always, s5);
    if r.protocol.Some? { ProtocolOutcomeReadsBack(r.protocol.value); }
    OptionReadsBack(r.protocol, EncProtocolOutcome, DecProtocolOutcome, Always, rest);
  }
}
