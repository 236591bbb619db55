/** The decoder: a received frame unstuffed, then read field by field through one cursor. */
module Decoder {
  import opened Bytes
  import opened Outcomes
  import opened Postcard
  import opened Manifest
  import opened ManifestParser
  import opened Messages
  import opened Crc
  import opened Frames
  import Cobs
  import Eap

  // ---- Steps ----------------------------------------------------------------------------------

  method ReadOptionalString(c: Reader, cap: nat, ghost dec: seq<Byte> -> Parse<seq<Byte>>)
    returns (r: Option<Option<seq<Byte>>>)
    requires c.Valid()
    requires forall s :: dec(s) == DecString(s, cap)
    modifies c
    ensures c.Valid() && c.pos >= old(c.pos) && Took(DecOption(dec, old(c.Rest())), r, c.Rest())
  {
    hide DecString;
    var has :- c.ReadFlag();
    if !has {
      return Some(None);
    }
    var t :- c.ReadString(cap);
    return Some(Some(t));
  }

  method ReadTarget(c: Reader) returns (r: Option<Eap.Source>)
    requires c.Valid()
    modifies c
    ensures c.Valid() && c.pos >= old(c.pos) && Took(DecTarget(old(c.Rest())), r, c.Rest())
  {
    var service :- c.ReadUuid();
    var characteristic :- c.ReadUuid();
    return Some(Eap.Source(service, characteristic));
  }

  method ReadAdvertise(c: Reader) returns (r: Option<Option<Action>>)
    requires c.Valid()
    modifies c
    ensures c.Valid() && c.pos >= old(c.pos) && Took(DecAction(0, old(c.Rest())), r, c.Rest())
  {
    hide DecOption, DecSkip, DecVarint;
    var name :- ReadOptionalString(c, MAX_LOCAL_NAME_LEN, DecLocalName);
    var _ :- c.Skip(16);
    var interval :- c.ReadVarint();
    return Some(Some(Advertise(name, interval % TWO_16)));
  }

  method ReadPeer(c: Reader) returns (r: Option<Option<PeerAddress>>)
    requires c.Valid()
    modifies c
    ensures c.Valid() && c.pos >= old(c.pos) && Took(DecOption(DecPeer, old(c.Rest())), r, c.Rest())
  {
    hide DecVarint;
    var has :- c.ReadFlag();
    if !has {
      return Some(None);
    }
    var address :- c.ReadRaw(6);
    var kind :- c.ReadVarint();
    return Some(Some(PeerAddress(address, kind % TWO_8)));
  }

  method ReadConnect(c: Reader) returns (r: Option<Option<Action>>)
    requires c.Valid()
    modifies c
    ensures c.Valid() && c.pos >= old(c.pos) && Took(DecAction(1, old(c.Rest())), r, c.Rest())
  {
    hide DecOption, DecVarint;
    var role :- c.ReadVarint();
    var address :- ReadPeer(c);
    var name :- ReadOptionalString(c, MAX_LOCAL_NAME_LEN, DecLocalName);
    return Some(Some(Connect(role % TWO_8, address, name)));
  }

  method ReadOperation(c: Reader) returns (r: Option<GattOperation>)
    requires c.Valid()
    modifies c
    ensures c.Valid() && c.pos >= old(c.pos) && Took(DecOperation(old(c.Rest())), r, c.Rest())
  {
    hide DecVarint, DecString;
    var kind :- c.ReadVarint();
    if kind == 1 {
      var payload :- c.ReadString(MAX_PAYLOAD_LEN);
      return Some(OpWrite(payload));
    } else if kind == 2 || kind == 3 {
      var ms :- c.ReadVarint();
      return Some(if kind == 2 then OpNotify(ms % TWO_32) else OpIndicate(ms % TWO_32));
    } else if kind == 0 {
      return Some(OpRead);
    } else if kind == 4 {
      return Some(OpSubscribe);
    } else if kind == 5 {
      return Some(OpStreamCapture);
    }
    return None;
  }

  method ReadDataExchange(c: Reader) returns (r: Option<Option<Action>>)
    requires c.Valid()
    modifies c
    ensures c.Valid() && c.pos >= old(c.pos) && Took(DecAction(2, old(c.Rest())), r, c.Rest())
  {
    hide DecTarget, DecOperation;
    var t :- ReadTarget(c);
    var op :- ReadOperation(c);
    return Some(Some(DataExchange(t.service, t.characteristic, op)));
  }

  lemma TargetNeeds32(s: seq<Byte>)
    ensures DecTarget(s).Some? <==> |s| >= 32
    ensures DecTarget(s).Some? ==> |DecTarget(s).value.1| == |s| - 32
  {
  }

  /** `n` targets take exactly `32 n` bytes, so one check in front of the loop does for all. */
  lemma {:induction false} TargetsNeed32Each(n: nat, s: seq<Byte>)
    ensures DecEach(n, DecTarget, s).Some? <==> |s| >= 32 * n
    decreases n
  {
    hide DecTarget;
    if n > 0 {
      TargetNeeds32(s);
      if DecTarget(s).Some? {
        TargetsNeed32Each(n - 1, DecTarget(s).value.1);
      }
    }
  }

  method ReadTargets(c: Reader) returns (r: Option<seq<Eap.Source>>)
    requires c.Valid()
    modifies c
    ensures c.Valid() && c.pos >= old(c.pos) && Took(DecList(MAX_MONITOR_TARGETS, DecTarget, old(c.Rest())), r, c.Rest())
  {
    hide DecEach, DecVarint, DecTarget;
    var n :- c.ReadVarint();
    if n > MAX_MONITOR_TARGETS {
      return None;
    }
    TargetsNeed32Each(n, c.Rest());
    if c.pos + n * 32 > |c.raw| {
      return None;
    }
    var targets := [];
    ghost var start := c.Rest();
    OntoStart(n, DecTarget, start);
    while |targets| < n
      invariant c.Valid() && c.pos >= old(c.pos) && |targets| <= n
      invariant |c.Rest()| >= 32 * (n - |targets|)
      invariant Onto(targets, DecEach(n - |targets|, DecTarget, c.Rest())) == DecEach(n, DecTarget, start)
    {
      OntoStep(targets, n - |targets|, DecTarget, c.Rest());
      TargetNeeds32(c.Rest());
      var t := ReadTarget(c);
      targets := targets + [t.value];
    }
    OntoEnd(targets, DecTarget, c.Rest());
    return Some(targets);
  }

  /** The action switch of `decode_body`: Some(None) for a tag this build has no name for. */
  method ReadAction(c: Reader, tag: nat) returns (r: Option<Option<Action>>)
    requires c.Valid()
    modifies c
    ensures c.Valid() && c.pos >= old(c.pos) && Took(DecAction(tag, old(c.Rest())), r, c.Rest())
  {
    hide DecOption, DecSkip, DecVarint, DecTarget, DecOperation, DecList;
    if tag == 0 {
      r := ReadAdvertise(c);
    } else if tag == 1 {
      r := ReadConnect(c);
    } else if tag == 2 {
      r := ReadDataExchange(c);
    } else if tag == 7 {
      var level :- c.ReadVarint();
      if level > SECURITY_L4 {
        return None;
      }
      return Some(Some(SetSecurity(level)));
    } else if tag == 9 || tag == 10 {
      var targets :- ReadTargets(c);
      return Some(Some(if tag == 9 then MonitorSelected(targets) else MonitorSelectedStart(targets)));
    } else if tag == 11 {
      r := ReadRunProtocol(c);
    } else {
      return Some(FieldLess(tag));
    }
  }

  /** The two raw bytes are checked for together. */
  method ReadRunProtocol(c: Reader) returns (r: Option<Option<Action>>)
    requires c.Valid()
    modifies c
    ensures c.Valid() && c.pos >= old(c.pos) && Took(DecAction(11, old(c.Rest())), r, c.Rest())
  {
    if c.pos + 2 > |c.raw| {
      return None;
    }
    ghost var s := c.Rest();
    var protocol, entry := c.raw[c.pos], c.raw[c.pos + 1];
    c.pos := c.pos + 2;
    assert s[1..][1..] == c.Rest();
    return Some(Some(RunProtocol(protocol, entry)));
  }

  function FieldLess(tag: nat): Option<Action> {
    if tag == 3 then Some(GattDiscover)
    else if tag == 4 then Some(MonitorAll)
    else if tag == 5 then Some(MonitorStart)
    else if tag == 6 then Some(MonitorStop)
    else if tag == 8 then Some(Unbond)
    else None
  }

  method ReadStep(c: Reader) returns (r: Option<Option<Step>>)
    requires c.Valid()
    modifies c
    ensures c.Valid() && c.pos >= old(c.pos) && Took(DecStep(old(c.Rest())), r, c.Rest())
  {
    hide DecString, DecVarint, DecAction;
    var name :- c.ReadString(MAX_NAME_LEN);
    var tag :- c.ReadVarint();
    var action :- ReadAction(c, tag);
    if action.None? {
      return Some(None);
    }
    var timeout :- c.ReadVarint();
    var cont :- c.ReadFlag();
    var delay :- c.ReadVarint();
    return Some(Some(Step(name, action.value, timeout % TWO_32, cont, delay % TWO_32)));
  }

  /** What the step loop still has to find once it has `done`. */
  function StepsOnto(done: seq<Step>, more: Parse<Walked>): Parse<Walked> {
    if more.None? then None else Some((Walked(done + more.value.0.steps, more.value.0.unsupported), more.value.1))
  }

  lemma StepsOntoStep(done: seq<Step>, n: nat, s: seq<Byte>)
    requires n > 0
    ensures DecStep(s).None? ==> StepsOnto(done, DecSteps(n, s)).None?
    ensures DecStep(s).Some? && DecStep(s).value.0.None? ==>
              StepsOnto(done, DecSteps(n, s)) == Some((Walked(done, true), DecStep(s).value.1))
    ensures DecStep(s).Some? && DecStep(s).value.0.Some? ==>
              StepsOnto(done, DecSteps(n, s))
              == StepsOnto(done + [DecStep(s).value.0.value], DecSteps(n - 1, DecStep(s).value.1))
  {
    hide DecStep;
    assert done + [] == done;
    if DecStep(s).Some? && DecStep(s).value.0.Some? {
      var (step, rest) := DecStep(s).value;
      var more := DecSteps(n - 1, rest);
      if more.Some? {
        assert done + ([step.value] + more.value.0.steps) == (done + [step.value]) + more.value.0.steps;
      }
    }
  }

  lemma StepsOntoEnds(done: seq<Step>, n: nat, s: seq<Byte>)
    ensures StepsOnto([], DecSteps(n, s)) == DecSteps(n, s)
    ensures StepsOnto(done, DecSteps(0, s)) == Some((Walked(done, false), s))
  {
    hide DecStep;
    assert done + [] == done;
    var r := DecSteps(n, s);
    if r.Some? {
      assert [] + r.value.0.steps == r.value.0.steps;
    }
  }

  /** The step loop: it stops at the first step whose action it cannot name. */
  method ReadSteps(c: Reader, n: nat) returns (r: Option<Walked>)
    requires c.Valid()
    modifies c
    ensures c.Valid() && c.pos >= old(c.pos) && Took(DecSteps(n, old(c.Rest())), r, c.Rest())
  {
    hide DecSteps, DecStep, StepsOnto;
    var steps := [];
    ghost var start := c.Rest();
    StepsOntoEnds([], n, start);
    while |steps| < n
      invariant c.Valid() && c.pos >= old(c.pos) && |steps| <= n
      invariant StepsOnto(steps, DecSteps(n - |steps|, c.Rest())) == DecSteps(n, start)
    {
      StepsOntoStep(steps, n - |steps|, c.Rest());
      var step :- ReadStep(c);
      if step.None? {
        return Some(Walked(steps, true));
      }
      steps := steps + [step.value];
    }
    StepsOntoEnds(steps, n, c.Rest());
    return Some(Walked(steps, false));
  }

  // ---- Taps and seals ---------------------------------------------------------------------------

  method ReadTapSource(c: Reader) returns (r: Option<TapSource>)
    requires c.Valid()
    modifies c
    ensures c.Valid() && c.pos >= old(c.pos) && Took(DecTapSource(old(c.Rest())), r, c.Rest())
  {
    hide DecVarint, DecTarget, DecSkip;
    var tag :- c.ReadVarint();
    if tag == 0 {
      var t :- ReadTarget(c);
      return Some(TapSource(0, t.characteristic));
    } else if tag == 1 {
      var _ :- c.ReadVarint();
      return Some(TapSource(1, ZERO_UUID));
    } else if tag == 2 || tag == 3 {
      return Some(TapSource(tag, ZERO_UUID));
    } else if tag == 4 {
      var _ :- c.Skip(1);
      return Some(TapSource(4, ZERO_UUID));
    }
    return None;
  }

  method ReadTapEncoding(c: Reader) returns (r: Option<()>)
    requires c.Valid()
    modifies c
    ensures c.Valid() && c.pos >= old(c.pos) && Took(DecTapEncoding(old(c.Rest())), r, c.Rest())
  {
    hide DecVarint;
    var tag :- c.ReadVarint();
    if tag == 0 || tag == 1 || tag == 3 || tag == 4 {
      return Some(());
    } else if tag == 2 {
      var _ :- c.ReadVarint();
      var _ :- c.ReadVarint();
      var _ :- c.ReadByte();
      return Some(());
    } else if tag == 5 {
      var _ :- c.ReadByte();
      return Some(());
    }
    return None;
  }

  /** `pc_read_stream_tap`. */
  method ReadTap(c: Reader) returns (r: Option<StreamTap>)
    requires c.Valid()
    modifies c
    ensures c.Valid() && c.pos >= old(c.pos) && Took(DecTap(old(c.Rest())), r, c.Rest())
  {
    hide DecVarint, DecSkip, DecTapSource, DecTapEncoding;
    var id :- c.ReadByte();
    var _ :- c.Skip(1);
    var source :- ReadTapSource(c);
    var _ :- ReadTapEncoding(c);
    var scope :- c.ReadVarint();
    if scope == 0 {
      return Some(StreamTap(id, source.tag, source.characteristic, 0, 0, 0));
    } else if scope == 1 {
      var from :- c.ReadVarint();
      var to :- c.ReadVarint();
      return Some(StreamTap(id, source.tag, source.characteristic, 1, from % TWO_32, to % TWO_32));
    }
    return None;
  }

  lemma SpanWalked(raw: seq<Byte>, start: nat, pos: nat)
    requires start <= pos <= |raw|
    ensures raw[start..pos] == Consumed(raw[start..], raw[pos..])
  {
  }

  /** The CRC behind a walked span, judged against the bytes the walk crossed. */
  method ReadSeal<T>(c: Reader, items: T, start: nat) returns (r: Option<Sealed<T>>)
    requires c.Valid() && start <= c.pos
    modifies c
    ensures c.Valid() && c.pos >= old(c.pos)
    ensures Took(DecSeal(items, Consumed(c.raw[start..], old(c.Rest())), old(c.Rest())), r, c.Rest())
  {
    hide DecVarint, Checksum;
    SpanWalked(c.raw, start, c.pos);
    var end := c.pos;
    var crc :- c.ReadVarint();
    var own := ComputeCrc32(c.raw[start..end]);
    return Some(Sealed(items, crc % TWO_32, own == crc % TWO_32));
  }

  method ReadStreams(c: Reader) returns (r: Option<Sealed<seq<StreamTap>>>)
    requires c.Valid()
    modifies c
    ensures c.Valid() && c.pos >= old(c.pos) && Took(DecStreams(old(c.Rest())), r, c.Rest())
  {
    hide DecEach, DecVarint, DecTap, DecSeal, Consumed;
    var n :- c.ReadVarint();
    if n > MAX_STREAMS {
      return None;
    }
    var taps := [];
    var startPos := c.pos;
    ghost var start := c.Rest();
    OntoStart(n, DecTap, start);
    while |taps| < n
      invariant c.Valid() && c.pos >= startPos && |taps| <= n
      invariant Onto(taps, DecEach(n - |taps|, DecTap, c.Rest())) == DecEach(n, DecTap, start)
    {
      OntoStep(taps, n - |taps|, DecTap, c.Rest());
      var t :- ReadTap(c);
      taps := taps + [t];
    }
    OntoEnd(taps, DecTap, c.Rest());
    r := ReadSeal(c, taps, startPos);
  }

  method ReadProtocols(c: Reader) returns (r: Option<Sealed<seq<Eap.ProtocolDef>>>)
    requires c.Valid()
    modifies c
    ensures c.Valid() && c.pos >= old(c.pos) && Took(DecProtocols(old(c.Rest())), r, c.Rest())
  {
    hide DecEach, DecVarint, DecProtocol, DecSeal, Consumed;
    var n :- c.ReadVarint();
    if n > MAX_PROTOCOLS {
      return None;
    }
    var defs := [];
    var startPos := c.pos;
    ghost var start := c.Rest();
    OntoStart(n, DecProtocol, start);
    while |defs| < n
      invariant c.Valid() && c.pos >= startPos && |defs| <= n
      invariant Onto(defs, DecEach(n - |defs|, DecProtocol, c.Rest())) == DecEach(n, DecProtocol, start)
    {
      OntoStep(defs, n - |defs|, DecProtocol, c.Rest());
      var d :- ReadProtocol(c);
      defs := defs + [d];
    }
    OntoEnd(defs, DecProtocol, c.Rest());
    SpanWalked(c.raw, startPos, c.pos);
    if c.pos - startPos > MAX_PROTOCOLS_WIRE_LEN {
      return None;
    }
    r := ReadSeal(c, defs, startPos);
  }

  /** The StudyStart arm of `decode_body`. */
  method ReadStudy(c: Reader) returns (r: Option<Study>)
    requires c.Valid()
    modifies c
    ensures c.Valid() && c.pos >= old(c.pos) && Took(DecStudy(old(c.Rest())), r, c.Rest())
  {
    hide DecSteps, DecVarint, DecSeal, DecStreams, DecProtocols, Consumed;
    var n :- c.ReadVarint();
    if n > MAX_STEPS {
      return None;
    }
    var startPos := c.pos;
    var walked :- ReadSteps(c, n);
    if walked.unsupported {
      return Some(Study(walked.steps, 0, false, [], 0, false, 0, [], 0, false, true));
    }
    var steps :- ReadSeal(c, walked.steps, startPos);
    var streams :- ReadStreams(c);
    var level :- c.ReadVarint();
    var protocols :- ReadProtocols(c);
    return Some(Study(steps.items, steps.crc, steps.valid, streams.items, streams.crc, streams.valid,
                      if level > LOG_LEVEL_DBG then LOG_LEVEL_DBG else level,
                      protocols.items, protocols.crc, protocols.valid, false));
  }

  // ---- Results ---------------------------------------------------------------------------------------

  method ReadOutcome(c: Reader) returns (r: Option<Outcome>)
    requires c.Valid()
    modifies c
    ensures c.Valid() && c.pos >= old(c.pos) && Took(DecOutcome(old(c.Rest())), r, c.Rest())
  {
    hide DecVarint, DecString;
    var tag :- c.ReadVarint();
    if tag > 2 {
      return None;
    }
    if tag == 1 {
      var reason :- c.ReadString(MAX_FAIL_REASON_LEN);
      return Some(Fail(reason));
    }
    return Some(if tag == 0 then Pass else TimedOut);
  }

  method ReadCharacteristic(c: Reader) returns (r: Option<Characteristic>)
    requires c.Valid()
    modifies c
    ensures c.Valid() && c.pos >= old(c.pos) && Took(DecCharacteristic(old(c.Rest())), r, c.Rest())
  {
    var uuid :- c.ReadUuid();
    var properties :- c.ReadByte();
    return Some(Characteristic(uuid, properties));
  }

  method ReadService(c: Reader) returns (r: Option<Service>)
    requires c.Valid()
    modifies c
    ensures c.Valid() && c.pos >= old(c.pos) && Took(DecService(old(c.Rest())), r, c.Rest())
  {
    hide DecEach, DecVarint, DecCharacteristic;
    var uuid :- c.ReadUuid();
    var n :- c.ReadVarint();
    if n > MAX_CHARACTERISTICS {
      return None;
    }
    var chars := [];
    ghost var start := c.Rest();
    OntoStart(n, DecCharacteristic, start);
    while |chars| < n
      invariant c.Valid() && c.pos >= old(c.pos) && |chars| <= n
      invariant Onto(chars, DecEach(n - |chars|, DecCharacteristic, c.Rest())) == DecEach(n, DecCharacteristic, start)
    {
      OntoStep(chars, n - |chars|, DecCharacteristic, c.Rest());
      var x :- ReadCharacteristic(c);
      chars := chars + [x];
    }
    OntoEnd(chars, DecCharacteristic, c.Rest());
    return Some(Service(uuid, chars));
  }

  method ReadServices(c: Reader) returns (r: Option<seq<Service>>)
    requires c.Valid()
    modifies c
    ensures c.Valid() && c.pos >= old(c.pos) && Took(DecServices(old(c.Rest())), r, c.Rest())
  {
    hide DecEach, DecVarint, DecService;
    var n :- c.ReadVarint();
    if n > MAX_SERVICES {
      return None;
    }
    var services := [];
    ghost var start := c.Rest();
    OntoStart(n, DecService, start);
    while |services| < n
      invariant c.Valid() && c.pos >= old(c.pos) && |services| <= n
      invariant Onto(services, DecEach(n - |services|, DecService, c.Rest())) == DecEach(n, DecService, start)
    {
      OntoStep(services, n - |services|, DecService, c.Rest());
      var x :- ReadService(c);
      services := services + [x];
    }
    OntoEnd(services, DecService, c.Rest());
    return Some(services);
  }

  method ReadOptionalServices(c: Reader) returns (r: Option<Option<seq<Service>>>)
    requires c.Valid()
    modifies c
    ensures c.Valid() && c.pos >= old(c.pos) && Took(DecOption(DecServices, old(c.Rest())), r, c.Rest())
  {
    hide DecServices;
    var has :- c.ReadFlag();
    if !has {
      return Some(None);
    }
    var services :- ReadServices(c);
    return Some(Some(services));
  }

  method ReadOptionalLevel(c: Reader) returns (r: Option<Option<Byte>>)
    requires c.Valid()
    modifies c
    ensures c.Valid() && c.pos >= old(c.pos) && Took(DecOption(DecLevel, old(c.Rest())), r, c.Rest())
  {
    hide DecVarint;
    var has :- c.ReadFlag();
    if !has {
      return Some(None);
    }
    var level :- c.ReadVarint();
    if level > SECURITY_L4 {
      return None;
    }
    return Some(Some(level));
  }

  method ReadOptionalProtocol(c: Reader) returns (r: Option<Option<ProtocolOutcome>>)
    requires c.Valid()
    modifies c
    ensures c.Valid() && c.pos >= old(c.pos) && Took(DecOption(DecProtocolOutcome, old(c.Rest())), r, c.Rest())
  {
    hide DecString, DecOutcome;
    var has :- c.ReadFlag();
    if !has {
      return Some(None);
    }
    var state :- c.ReadString(Eap.MAX_STATE_NAME_LEN);
    var outcome :- ReadOutcome(c);
    return Some(Some(ProtocolOutcome(state, outcome)));
  }

  /** The StepResult arm of `decode_body`, after the step index. */
  method ReadResult(c: Reader) returns (r: Option<Result>)
    requires c.Valid()
    modifies c
    ensures c.Valid() && c.pos >= old(c.pos) && Took(DecResult(old(c.Rest())), r, c.Rest())
  {
    hide DecString, DecOutcome, DecOption;
    var name :- c.ReadString(MAX_NAME_LEN);
    var outcome :- ReadOutcome(c);
    var captured :- ReadOptionalString(c, MAX_PAYLOAD_LEN, DecCaptured);
    var services :- ReadOptionalServices(c);
    var security :- ReadOptionalLevel(c);
    var protocol :- ReadOptionalProtocol(c);
    return Some(Result(name, outcome, captured, services, security, protocol));
  }

  // ---- Messages and frames ------------------------------------------------------------------------------

  method ReadHelloAck(c: Reader) returns (r: Option<Message>)
    requires c.Valid()
    modifies c
    ensures c.Valid() && c.pos >= old(c.pos) && Took(DecBody(1, old(c.Rest())), r, c.Rest())
  {
    hide DecVarint, DecString;
    var schema :- c.ReadVarint();
    var compatible :- c.ReadFlag();
    var firmware :- c.ReadString(MAX_FIRMWARE_VERSION_LEN);
    var hardware :- c.ReadString(MAX_HARDWARE_ID_LEN);
    return Some(HelloAck(schema % TWO_32, compatible, firmware, hardware));
  }

  method ReadStepResult(c: Reader) returns (r: Option<Message>)
    requires c.Valid()
    modifies c
    ensures c.Valid() && c.pos >= old(c.pos) && Took(DecBody(7, old(c.Rest())), r, c.Rest())
  {
    hide DecVarint, DecResult;
    var index :- c.ReadVarint();
    var result :- ReadResult(c);
    return Some(StepResult(index % TWO_32, result));
  }

  /** The message switch of `decode_body`. */
  method ReadBody(c: Reader, tag: nat) returns (r: Option<Message>)
    requires c.Valid()
    modifies c
    ensures c.Valid() && c.pos >= old(c.pos) && Took(DecBody(tag, old(c.Rest())), r, c.Rest())
  {
    hide DecVarint, DecString, DecStudy, DecResult;
    if tag == 0 {
      var schema :- c.ReadVarint();
      var host :- c.ReadVarint();
      return Some(Hello(schema % TWO_32, host));
    } else if tag == 1 {
      r := ReadHelloAck(c);
    } else if tag == 5 {
      var text :- c.ReadString(MAX_LOG_LINE_LEN);
      return Some(LogLine(text));
    } else if tag == 6 {
      var study :- ReadStudy(c);
      return Some(StudyStart(study));
    } else if tag == 7 {
      r := ReadStepResult(c);
    } else if tag == 8 {
      var completed :- c.ReadFlag();
      return Some(StudyDone(completed));
    } else {
      return None;
    }
  }

  /** `decode_body`: bytes after the message are not looked at. */
  method DecodeBody(raw: seq<Byte>) returns (r: Option<Message>)
    ensures r == DecMessage(raw)
  {
    hide DecVarint, DecBody;
    var c := new Reader(raw);
    assert raw[0..] == raw;
    var tag :- c.ReadVarint();
    r := ReadBody(c, tag % TWO_32);
  }

  /** `dbm_decode_frame`: None for a frame too long, malformed, empty or unreadable. */
  method DecodeFrame(frame: seq<Byte>) returns (r: Option<Message>)
    ensures r == Unframed(frame)
  {
    hide DecMessage, Cobs.Decoded;
    if |frame| == 0 || |frame| > MAX_FRAME_LEN {
      return None;
    }
    var raw := new Byte[MAX_RAW_LEN];
    var len := Cobs.Decode(frame, raw);
    if len == 0 {
      return None;
    }
    r := DecodeBody(raw[..len]);
  }
}
