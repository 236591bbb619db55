/**
 * The encoder: a write cursor over a fixed buffer, and for each part of a message the code that
 * puts it there or finds no room for it.
 */
module Encoder {
  import opened Bytes
  import opened Outcomes
  import opened Postcard
  import opened Manifest
  import opened Messages
  import opened Spans
  import Cobs
  import Eap
  import Frames

  /**
   * What a put did to the buffer, with `rest` what the caller has still to write: on success the
   * bytes in front grew by exactly the part's own, and otherwise those did not fit.
   */
  ghost predicate Put(before: seq<Byte>, enc: seq<Byte>, rest: seq<Byte>, ok: bool, after: seq<Byte>, cap: nat) {
    if ok then before + enc == after + rest else |before| + |enc| > cap + |rest|
  }

  class Writer {
    const out: array<Byte>
    var pos: nat

    constructor (out: array<Byte>)
      ensures this.out == out && pos == 0 && Valid()
    {
      this.out := out;
      pos := 0;
    }

    ghost predicate Valid()
      reads this
    {
      pos <= out.Length
    }

    ghost function Written(): seq<Byte>
      requires Valid()
      reads this, out
    {
      out[..pos]
    }

    /** One bounds check and one copy. */
    method PutRaw(bytes: seq<Byte>, ghost rest: seq<Byte>) returns (ok: bool)
      requires Valid()
      modifies this, out
      ensures Valid() && Put(old(Written()), bytes + rest, rest, ok, Written(), out.Length)
    {
      if pos + |bytes| > out.Length {
        return false;
      }
      var i := 0;
      while i < |bytes|
        invariant i <= |bytes| && pos == old(pos)
        invariant out[..pos] == old(Written()) && out[pos..pos + i] == bytes[..i]
      {
        out[pos + i] := bytes[i];
        i := i + 1;
      }
      pos := pos + |bytes|;
      assert Written() == old(Written()) + bytes by {
        assert bytes[..i] == bytes;
        assert out[..old(pos) + i] == out[..old(pos)] + out[old(pos)..old(pos) + i];
      }
      assert old(Written()) + (bytes + rest) == (old(Written()) + bytes) + rest;
      return true;
    }

    /** `WRITE_VARINT`: `pc_write_varint` into a scratch buffer, then a checked copy. */
    method PutVarint(n: nat, ghost rest: seq<Byte>) returns (ok: bool)
      requires Valid()
      modifies this, out
      ensures Valid() && Put(old(Written()), EncVarint(n, rest), rest, ok, Written(), out.Length)
    {
      hide EncVarint;
      var buf := VarintBytes(n);
      VarintAppends(n, [], rest);
      assert [] + rest == rest;
      ok := PutRaw(buf, rest);
    }

    method PutByte(b: Byte, ghost rest: seq<Byte>) returns (ok: bool)
      requires Valid()
      modifies this, out
      ensures Valid() && Put(old(Written()), EncByte(b, rest), rest, ok, Written(), out.Length)
    {
      if pos + 1 > out.Length {
        return false;
      }
      out[pos] := b;
      pos := pos + 1;
      assert old(Written()) + ([b] + rest) == (old(Written()) + [b]) + rest;
      return true;
    }

    method PutFlag(b: bool, ghost rest: seq<Byte>) returns (ok: bool)
      requires Valid()
      modifies this, out
      ensures Valid() && Put(old(Written()), EncFlag(b, rest), rest, ok, Written(), out.Length)
    {
      ok := PutByte(if b then 1 else 0, rest);
    }

    /** `pc_write_bytes`: length and bytes are checked together, so it writes both or neither. */
    method PutString(t: seq<Byte>, ghost rest: seq<Byte>) returns (ok: bool)
      requires Valid()
      modifies this, out
      ensures Valid() && Put(old(Written()), EncString(t, rest), rest, ok, Written(), out.Length)
    {
      hide EncVarint, EncString;
      var len := VarintBytes(|t|);
      StringBytes(t, rest);
      ok := PutRaw(len + t, rest);
    }
  }

  lemma StringBytes(t: seq<Byte>, rest: seq<Byte>)
    ensures EncString(t, rest) == (EncVarint(|t|, []) + t) + rest
  {
    hide EncVarint;
    VarintAppends(|t|, [], t + rest);
    assert [] + (t + rest) == t + rest;
    assert (EncVarint(|t|, []) + t) + rest == EncVarint(|t|, []) + (t + rest);
  }

  /** `pc_write_varint`: seven bits at a time, low group first. */
  method VarintBytes(n: nat) returns (buf: seq<Byte>)
    ensures buf == EncVarint(n, [])
  {
    buf := [];
    var value := n;
    while value >= 0x80
      invariant buf + EncVarint(value, []) == EncVarint(n, [])
      decreases value
    {
      buf := buf + [value % 0x80 + 0x80];
      value := value / 0x80;
    }
    buf := buf + [value];
  }

  /** No encoder here ever writes less than nothing. */
  lemma TailsAreLonger()
    ensures forall n: nat, r :: |EncVarint(n, r)| > |r|
    ensures forall b: Byte, r :: |EncByte(b, r)| == |r| + 1
    ensures forall b: bool, r :: |EncFlag(b, r)| == |r| + 1
    ensures forall t: seq<Byte>, r :: |EncString(t, r)| >= |r| + |t|
  {
    hide EncVarint;
  }

  // ---- Steps ----------------------------------------------------------------------------------

  method PutOptionalString(w: Writer, o: Option<seq<Byte>>, ghost rest: seq<Byte>) returns (ok: bool)
    requires w.Valid()
    modifies w, w.out
    ensures w.Valid() && Put(old(w.Written()), EncOption(o, EncString, rest), rest, ok, w.Written(), w.out.Length)
  {
    hide EncString;
    if o.None? {
      ok := w.PutByte(0, rest);
      return;
    }
    TailsAreLonger();
    ok := w.PutByte(1, EncString(o.value, rest));
    if !ok {
      return;
    }
    ok := w.PutString(o.value, rest);
  }

  method PutAdvertise(w: Writer, a: Action, ghost rest: seq<Byte>) returns (ok: bool)
    requires a.Advertise? && w.Valid()
    modifies w, w.out
    ensures w.Valid() && Put(old(w.Written()), EncAction(a, rest), rest, ok, w.Written(), w.out.Length)
  {
    hide EncString, EncVarint, EncOption;
    TailsAreLonger();
    ok := PutOptionalString(w, a.localName, EncVarint(0, EncVarint(a.advIntervalMs, rest)));
    if !ok {
      return;
    }
    ok := w.PutVarint(0, EncVarint(a.advIntervalMs, rest));
    if !ok {
      return;
    }
    ok := w.PutVarint(a.advIntervalMs, rest);
  }

  method PutPeer(w: Writer, o: Option<PeerAddress>, ghost rest: seq<Byte>) returns (ok: bool)
    requires w.Valid()
    modifies w, w.out
    ensures w.Valid() && Put(old(w.Written()), EncOption(o, EncPeer, rest), rest, ok, w.Written(), w.out.Length)
  {
    hide EncVarint;
    if o.None? {
      ok := w.PutByte(0, rest);
      return;
    }
    TailsAreLonger();
    ok := w.PutByte(1, EncPeer(o.value, rest));
    if !ok {
      return;
    }
    ok := w.PutRaw(o.value.address, EncVarint(o.value.kind, rest));
    if !ok {
      return;
    }
    ok := w.PutVarint(o.value.kind, rest);
  }

  method PutConnect(w: Writer, a: Action, ghost rest: seq<Byte>) returns (ok: bool)
    requires a.Connect? && w.Valid()
    modifies w, w.out
    ensures w.Valid() && Put(old(w.Written()), EncAction(a, rest), rest, ok, w.Written(), w.out.Length)
  {
    hide EncString, EncVarint, EncOption, EncPeer;
    TailsAreLonger();
    ghost var s2 := EncOption(a.targetName, EncString, rest);
    ghost var s1 := EncOption(a.targetAddress, EncPeer, s2);
    OptionsAreLonger(a, rest);
    ok := w.PutVarint(a.role, s1);
    if !ok {
      return;
    }
    ok := PutPeer(w, a.targetAddress, s2);
    if !ok {
      return;
    }
    ok := PutOptionalString(w, a.targetName, rest);
  }

  lemma OptionsAreLonger(a: Action, rest: seq<Byte>)
    requires a.Connect?
    ensures var s2 := EncOption(a.targetName, EncString, rest);
            |EncOption(a.targetAddress, EncPeer, s2)| >= |s2| >= |rest|
  {
    hide EncVarint;
  }

  method PutOperation(w: Writer, op: GattOperation, ghost rest: seq<Byte>) returns (ok: bool)
    requires w.Valid()
    modifies w, w.out
    ensures w.Valid() && Put(old(w.Written()), EncOperation(op, rest), rest, ok, w.Written(), w.out.Length)
  {
    hide EncString, EncVarint;
    TailsAreLonger();
    match op
    case OpRead =>
      ok := w.PutVarint(0, rest);
    case OpWrite(payload) =>
      ok := w.PutVarint(1, EncString(payload, rest));
      if ok {
        ok := w.PutString(payload, rest);
      }
    case OpNotify(ms) =>
      ok := w.PutVarint(2, EncVarint(ms, rest));
      if ok {
        ok := w.PutVarint(ms, rest);
      }
    case OpIndicate(ms) =>
      ok := w.PutVarint(3, EncVarint(ms, rest));
      if ok {
        ok := w.PutVarint(ms, rest);
      }
    case OpSubscribe =>
      ok := w.PutVarint(4, rest);
    case OpStreamCapture =>
      ok := w.PutVarint(5, rest);
  }

  method PutTarget(w: Writer, t: Eap.Source, ghost rest: seq<Byte>) returns (ok: bool)
    requires w.Valid()
    modifies w, w.out
    ensures w.Valid() && Put(old(w.Written()), EncTarget(t, rest), rest, ok, w.Written(), w.out.Length)
  {
    ok := w.PutRaw(t.service + t.characteristic, rest);
    assert (t.service + t.characteristic) + rest == t.service + (t.characteristic + rest);
  }

  method PutDataExchange(w: Writer, a: Action, ghost rest: seq<Byte>) returns (ok: bool)
    requires a.DataExchange? && w.Valid()
    modifies w, w.out
    ensures w.Valid() && Put(old(w.Written()), EncAction(a, rest), rest, ok, w.Written(), w.out.Length)
  {
    hide EncOperation;
    OperationIsLonger(a.operation, rest);
    ok := PutTarget(w, Eap.Source(a.service, a.characteristic), EncOperation(a.operation, rest));
    if !ok {
      return;
    }
    ok := PutOperation(w, a.operation, rest);
  }

  lemma OperationIsLonger(op: GattOperation, rest: seq<Byte>)
    ensures |EncOperation(op, rest)| >= |rest|
  {
    hide EncVarint;
  }

  /** More targets than the struct's array holds are refused. */
  method PutTargets(w: Writer, targets: seq<Eap.Source>, ghost rest: seq<Byte>) returns (ok: bool)
    requires w.Valid()
    modifies w, w.out
    ensures w.Valid()
    ensures |targets| <= MAX_MONITOR_TARGETS ==>
              Put(old(w.Written()), EncList(targets, EncTarget, rest), rest, ok, w.Written(), w.out.Length)
    ensures |targets| > MAX_MONITOR_TARGETS ==> !ok
  {
    hide EncVarint, EncTarget;
    if |targets| > MAX_MONITOR_TARGETS {
      return false;
    }
    forall t | t in targets { TargetAppends(t); }
    EachLonger(targets, EncTarget, rest);
    ok := w.PutVarint(|targets|, EncEach(targets, EncTarget, rest));
    if !ok {
      return;
    }
    var i := 0;
    while i < |targets|
      invariant i <= |targets| && w.Valid()
      invariant old(w.Written()) + EncList(targets, EncTarget, rest) == w.Written() + EncEach(targets[i..], EncTarget, rest)
    {
      EachLonger(targets[i + 1..], EncTarget, rest);
      assert targets[i..][1..] == targets[i + 1..];
      ok := PutTarget(w, targets[i], EncEach(targets[i + 1..], EncTarget, rest));
      if !ok {
        return;
      }
      i := i + 1;
    }
  }

  /** What the encoder checks before it writes an action. */
  predicate ActionCounted(a: Action) {
    match a
    case MonitorSelected(targets) => |targets| <= MAX_MONITOR_TARGETS
    case MonitorSelectedStart(targets) => |targets| <= MAX_MONITOR_TARGETS
    case _ => true
  }

  method PutAction(w: Writer, a: Action, ghost rest: seq<Byte>) returns (ok: bool)
    requires w.Valid()
    modifies w, w.out
    ensures w.Valid()
    ensures ActionCounted(a) ==> Put(old(w.Written()), EncAction(a, rest), rest, ok, w.Written(), w.out.Length)
    ensures !ActionCounted(a) ==> !ok
  {
    hide EncVarint, EncOption, EncOperation, EncList;
    match a
    case Advertise(_, _) =>
      ok := PutAdvertise(w, a, rest);
    case Connect(_, _, _) =>
      ok := PutConnect(w, a, rest);
    case DataExchange(_, _, _) =>
      ok := PutDataExchange(w, a, rest);
    case SetSecurity(level) =>
      ok := w.PutVarint(level, rest);
    case MonitorSelected(targets) =>
      ok := PutTargets(w, targets, rest);
    case MonitorSelectedStart(targets) =>
      ok := PutTargets(w, targets, rest);
    case RunProtocol(protocol, entry) =>
      ok := w.PutRaw([protocol, entry], rest);
      assert [protocol] + ([entry] + rest) == [protocol, entry] + rest;
    case _ =>
      ok := true;
  }

  lemma ActionIsLonger(a: Action, rest: seq<Byte>)
    ensures |EncAction(a, rest)| >= |rest|
  {
    hide EncAction;
    ActionAppends(a, [], rest);
    assert [] + rest == rest;
  }

  method PutStep(w: Writer, s: Step, ghost rest: seq<Byte>) returns (ok: bool)
    requires w.Valid()
    modifies w, w.out
    ensures w.Valid()
    ensures ActionCounted(s.action) ==> Put(old(w.Written()), EncStep(s, rest), rest, ok, w.Written(), w.out.Length)
    ensures !ActionCounted(s.action) ==> !ok
  {
    hide EncVarint, EncString, EncFlag, EncAction, ActionCounted, ActionTag;
    TailsAreLonger();
    ghost var s5 := EncVarint(s.delayBeforeMs, rest);
    ghost var s4 := EncFlag(s.continueOnFail, s5);
    ghost var s3 := EncVarint(s.timeoutMs, s4);
    ghost var s2 := EncAction(s.action, s3);
    ActionIsLonger(s.action, s3);
    ok := w.PutString(s.name, EncVarint(ActionTag(s.action), s2));
    if !ok {
      return;
    }
    ok := w.PutVarint(ActionTag(s.action), s2);
    if !ok {
      return;
    }
    ok := PutAction(w, s.action, s3);
    if !ok {
      return;
    }
    ok := w.PutVarint(s.timeoutMs, s4);
    if !ok {
      return;
    }
    ok := w.PutFlag(s.continueOnFail, s5);
    if !ok {
      return;
    }
    ok := w.PutVarint(s.delayBeforeMs, rest);
  }

  predicate StepsCounted(steps: seq<Step>) {
    |steps| <= MAX_STEPS && forall s | s in steps :: ActionCounted(s.action)
  }

  method PutSteps(w: Writer, steps: seq<Step>, ghost rest: seq<Byte>) returns (ok: bool)
    requires w.Valid()
    modifies w, w.out
    ensures w.Valid()
    ensures StepsCounted(steps) ==>
              Put(old(w.Written()), EncList(steps, EncStep, rest), rest, ok, w.Written(), w.out.Length)
    ensures !StepsCounted(steps) ==> !ok
  {
    hide EncVarint, EncStep, ActionCounted;
    if |steps| > MAX_STEPS {
      return false;
    }
    forall s | s in steps { StepAppends(s); }
    EachLonger(steps, EncStep, rest);
    ok := w.PutVarint(|steps|, EncEach(steps, EncStep, rest));
    if !ok {
      return;
    }
    var i := 0;
    while i < |steps|
      invariant i <= |steps| && w.Valid() && ok
      invariant forall k | 0 <= k < i :: ActionCounted(steps[k].action)
      invariant old(w.Written()) + EncList(steps, EncStep, rest) == w.Written() + EncEach(steps[i..], EncStep, rest)
    {
      EachLonger(steps[i + 1..], EncStep, rest);
      assert steps[i..][1..] == steps[i + 1..];
      ok := PutStep(w, steps[i], EncEach(steps[i + 1..], EncStep, rest));
      if !ok {
        return;
      }
      i := i + 1;
    }
  }

  /** A study, its own lists of taps and protocols always written empty. */
  method PutStudy(w: Writer, s: Study, ghost rest: seq<Byte>) returns (ok: bool)
    requires w.Valid()
    modifies w, w.out
    ensures w.Valid()
    ensures StepsCounted(s.steps) ==> Put(old(w.Written()), EncStudy(s, rest), rest, ok, w.Written(), w.out.Length)
    ensures !StepsCounted(s.steps) ==> !ok
  {
    hide EncVarint, EncList, StepsCounted;
    TailsAreLonger();
    ghost var s1 := EncVarint(0, EncVarint(0, rest));
    ghost var s2 := EncVarint(0, EncVarint(0, EncVarint(s.logLevel, s1)));
    ok := PutSteps(w, s.steps, EncVarint(s.stepsCrc, s2));
    if !ok {
      return;
    }
    ok := w.PutVarint(s.stepsCrc, s2);
    if !ok {
      return;
    }
    ok := PutTwoZeros(w, EncVarint(s.logLevel, s1));
    if !ok {
      return;
    }
    ok := w.PutVarint(s.logLevel, s1);
    if !ok {
      return;
    }
    ok := PutTwoZeros(w, rest);
  }

  /** An empty list and the CRC of nothing. */
  method PutTwoZeros(w: Writer, ghost rest: seq<Byte>) returns (ok: bool)
    requires w.Valid()
    modifies w, w.out
    ensures w.Valid() && Put(old(w.Written()), EncVarint(0, EncVarint(0, rest)), rest, ok, w.Written(), w.out.Length)
  {
    hide EncVarint;
    ok := w.PutVarint(0, EncVarint(0, rest));
    if !ok {
      return;
    }
    ok := w.PutVarint(0, rest);
  }

  // ---- Results ------------------------------------------------------------------------------------

  method PutOutcome(w: Writer, o: Outcome, ghost rest: seq<Byte>) returns (ok: bool)
    requires w.Valid()
    modifies w, w.out
    ensures w.Valid() && Put(old(w.Written()), EncOutcome(o, rest), rest, ok, w.Written(), w.out.Length)
  {
    hide EncVarint, EncString;
    TailsAreLonger();
    match o
    case Pass =>
      ok := w.PutVarint(0, rest);
    case Fail(reason) =>
      ok := w.PutVarint(1, EncString(reason, rest));
      if ok {
        ok := w.PutString(reason, rest);
      }
    case TimedOut =>
      ok := w.PutVarint(2, rest);
  }

  method PutCharacteristics(w: Writer, cs: seq<Characteristic>, ghost rest: seq<Byte>) returns (ok: bool)
    requires w.Valid()
    modifies w, w.out
    ensures w.Valid()
    ensures |cs| <= MAX_CHARACTERISTICS ==>
              Put(old(w.Written()), EncList(cs, EncCharacteristic, rest), rest, ok, w.Written(), w.out.Length)
    ensures |cs| > MAX_CHARACTERISTICS ==> !ok
  {
    hide EncVarint;
    if |cs| > MAX_CHARACTERISTICS {
      return false;
    }
    CharacteristicsAreLonger(cs, rest);
    ok := w.PutVarint(|cs|, EncEach(cs, EncCharacteristic, rest));
    if !ok {
      return;
    }
    var i := 0;
    while i < |cs|
      invariant i <= |cs| && w.Valid()
      invariant old(w.Written()) + EncList(cs, EncCharacteristic, rest) == w.Written() + EncEach(cs[i..], EncCharacteristic, rest)
    {
      ghost var tail := EncEach(cs[i + 1..], EncCharacteristic, rest);
      CharacteristicsAreLonger(cs[i + 1..], rest);
      assert cs[i..][1..] == cs[i + 1..];
      assert (cs[i].uuid + [cs[i].properties]) + tail == cs[i].uuid + ([cs[i].properties] + tail);
      ok := w.PutRaw(cs[i].uuid + [cs[i].properties], tail);
      if !ok {
        return;
      }
      i := i + 1;
    }
  }

  lemma CharacteristicsAreLonger(cs: seq<Characteristic>, rest: seq<Byte>)
    ensures |EncEach(cs, EncCharacteristic, rest)| >= |rest|
    decreases |cs|
  {
  }

  predicate ServicesCounted(ss: seq<Service>) {
    |ss| <= MAX_SERVICES && forall s | s in ss :: |s.characteristics| <= MAX_CHARACTERISTICS
  }

  method PutService(w: Writer, s: Service, ghost rest: seq<Byte>) returns (ok: bool)
    requires w.Valid()
    modifies w, w.out
    ensures w.Valid()
    ensures |s.characteristics| <= MAX_CHARACTERISTICS ==>
              Put(old(w.Written()), EncService(s, rest), rest, ok, w.Written(), w.out.Length)
    ensures |s.characteristics| > MAX_CHARACTERISTICS ==> !ok
  {
    hide EncCharacteristic, EncVarint;
    CharacteristicsAreLonger(s.characteristics, rest);
    ok := w.PutRaw(s.uuid, EncList(s.characteristics, EncCharacteristic, rest));
    if !ok {
      return;
    }
    ok := PutCharacteristics(w, s.characteristics, rest);
  }

  method PutServices(w: Writer, ss: seq<Service>, ghost rest: seq<Byte>) returns (ok: bool)
    requires w.Valid()
    modifies w, w.out
    ensures w.Valid()
    ensures ServicesCounted(ss) ==> Put(old(w.Written()), EncServices(ss, rest), rest, ok, w.Written(), w.out.Length)
    ensures !ServicesCounted(ss) ==> !ok
  {
    hide EncVarint, EncService;
    if |ss| > MAX_SERVICES {
      return false;
    }
    forall s | s in ss { ServiceAppends(s); }
    EachLonger(ss, EncService, rest);
    ok := w.PutVarint(|ss|, EncEach(ss, EncService, rest));
    if !ok {
      return;
    }
    var i := 0;
    while i < |ss|
      invariant i <= |ss| && w.Valid() && ok
      invariant forall k | 0 <= k < i :: |ss[k].characteristics| <= MAX_CHARACTERISTICS
      invariant old(w.Written()) + EncServices(ss, rest) == w.Written() + EncEach(ss[i..], EncService, rest)
    {
      EachLonger(ss[i + 1..], EncService, rest);
      assert ss[i..][1..] == ss[i + 1..];
      ok := PutService(w, ss[i], EncEach(ss[i + 1..], EncService, rest));
      if !ok {
        return;
      }
      i := i + 1;
    }
  }

  method PutOptionalServices(w: Writer, o: Option<seq<Service>>, ghost rest: seq<Byte>) returns (ok: bool)
    requires w.Valid()
    modifies w, w.out
    ensures w.Valid()
    ensures (o.Some? ==> ServicesCounted(o.value)) ==>
              Put(old(w.Written()), EncOption(o, EncServices, rest), rest, ok, w.Written(), w.out.Length)
    ensures o.Some? && !ServicesCounted(o.value) ==> !ok
  {
    hide EncServices, ServicesCounted;
    if o.None? {
      ok := w.PutByte(0, rest);
      return;
    }
    ServicesAppend(o.value);
    Longer(o.value, EncServices, rest);
    ok := w.PutByte(1, EncServices(o.value, rest));
    if !ok {
      return;
    }
    ok := PutServices(w, o.value, rest);
  }

  method PutOptionalLevel(w: Writer, o: Option<Byte>, ghost rest: seq<Byte>) returns (ok: bool)
    requires w.Valid()
    modifies w, w.out
    ensures w.Valid() && Put(old(w.Written()), EncOption(o, EncLevel, rest), rest, ok, w.Written(), w.out.Length)
  {
    hide EncVarint;
    if o.None? {
      ok := w.PutByte(0, rest);
      return;
    }
    ok := w.PutByte(1, EncVarint(o.value, rest));
    if !ok {
      return;
    }
    ok := w.PutVarint(o.value, rest);
  }

  method PutOptionalProtocol(w: Writer, o: Option<ProtocolOutcome>, ghost rest: seq<Byte>) returns (ok: bool)
    requires w.Valid()
    modifies w, w.out
    ensures w.Valid() && Put(old(w.Written()), EncOption(o, EncProtocolOutcome, rest), rest, ok, w.Written(), w.out.Length)
  {
    hide EncOutcome, EncString;
    if o.None? {
      ok := w.PutByte(0, rest);
      return;
    }
    OutcomeIsLonger(o.value.outcome, rest);
    TailsAreLonger();
    ghost var s1 := EncOutcome(o.value.outcome, rest);
    ok := w.PutByte(1, EncString(o.value.finalState, s1));
    if !ok {
      return;
    }
    ok := w.PutString(o.value.finalState, s1);
    if !ok {
      return;
    }
    ok := PutOutcome(w, o.value.outcome, rest);
  }

  lemma OutcomeIsLonger(o: Outcome, rest: seq<Byte>)
    ensures |EncOutcome(o, rest)| >= |rest|
  {
    hide EncVarint;
  }

  predicate ResultCounted(r: Result) {
    r.services.Some? ==> ServicesCounted(r.services.value)
  }

  lemma ResultTailsAreLonger(r: Result, rest: seq<Byte>)
    ensures var s5 := EncOption(r.protocol, EncProtocolOutcome, rest);
            var s4 := EncOption(r.security, EncLevel, s5);
            var s3 := EncOption(r.services, EncServices, s4);
            var s2 := EncOption(r.captured, EncString, s3);
            |EncOutcome(r.outcome, s2)| >= |s2| >= |s3| >= |s4| >= |s5| >= |rest|
  {
    hide EncOutcome, EncServices, EncVarint;
    var s5 := EncOption(r.protocol, EncProtocolOutcome, rest);
    var s4 := EncOption(r.security, EncLevel, s5);
    var s3 := EncOption(r.services, EncServices, s4);
    var s2 := EncOption(r.captured, EncString, s3);
    if r.protocol.Some? { OutcomeIsLonger(r.protocol.value.outcome, rest); }
    if r.services.Some? {
      ServicesAppend(r.services.value);
      Longer(r.services.value, EncServices, s4);
    }
    OutcomeIsLonger(r.outcome, s2);
  }

  method PutResult(w: Writer, r: Result, ghost rest: seq<Byte>) returns (ok: bool)
    requires w.Valid()
    modifies w, w.out
    ensures w.Valid()
    ensures ResultCounted(r) ==> Put(old(w.Written()), EncResult(r, rest), rest, ok, w.Written(), w.out.Length)
    ensures !ResultCounted(r) ==> !ok
  {
    hide EncOption, EncOutcome, EncString, ServicesCounted;
    ghost var s5 := EncOption(r.protocol, EncProtocolOutcome, rest);
    ghost var s4 := EncOption(r.security, EncLevel, s5);
    ghost var s3 := EncOption(r.services, EncServices, s4);
    ghost var s2 := EncOption(r.captured, EncString, s3);
    ResultTailsAreLonger(r, rest);
    ok := w.PutString(r.name, EncOutcome(r.outcome, s2));
    if !ok {
      return;
    }
    ok := PutOutcome(w, r.outcome, s2);
    if !ok {
      return;
    }
    ok := PutOptionalString(w, r.captured, s3);
    if !ok {
      return;
    }
    ok := PutOptionalServices(w, r.services, s4);
    if !ok {
      return;
    }
    ok := PutOptionalLevel(w, r.security, s5);
    if !ok {
      return;
    }
    ok := PutOptionalProtocol(w, r.protocol, rest);
  }

  // ---- Records and whole messages ---------------------------------------------------------------------

  predicate RecordsCounted(rs: seq<Record>) {
    |rs| <= MAX_RECORDS && forall r | r in rs :: |r.bytes| <= MAX_CHUNK_BYTES
  }

  method PutRecords(w: Writer, rs: seq<Record>, ghost rest: seq<Byte>) returns (ok: bool)
    requires w.Valid() && |rs| <= MAX_RECORDS
    modifies w, w.out
    ensures w.Valid()
    ensures RecordsCounted(rs) ==>
              Put(old(w.Written()), EncList(rs, EncRecord, rest), rest, ok, w.Written(), w.out.Length)
    ensures !RecordsCounted(rs) ==> !ok
  {
    hide EncVarint, EncString;
    TailsAreLonger();
    RecordsAreLonger(rs, rest);
    ok := w.PutVarint(|rs|, EncEach(rs, EncRecord, rest));
    if !ok {
      return;
    }
    var i := 0;
    while i < |rs|
      invariant i <= |rs| && w.Valid() && ok
      invariant forall k | 0 <= k < i :: |rs[k].bytes| <= MAX_CHUNK_BYTES
      invariant old(w.Written()) + EncList(rs, EncRecord, rest) == w.Written() + EncEach(rs[i..], EncRecord, rest)
    {
      ghost var tail := EncEach(rs[i + 1..], EncRecord, rest);
      if |rs[i].bytes| > MAX_CHUNK_BYTES {
        return false;
      }
      RecordsAreLonger(rs[i + 1..], rest);
      assert rs[i..][1..] == rs[i + 1..];
      ok := w.PutVarint(rs[i].rxUtcMs, EncString(rs[i].bytes, tail));
      if !ok {
        return;
      }
      ok := w.PutString(rs[i].bytes, tail);
      if !ok {
        return;
      }
      i := i + 1;
    }
  }

  lemma RecordsAreLonger(rs: seq<Record>, rest: seq<Byte>)
    ensures |EncEach(rs, EncRecord, rest)| >= |rest|
  {
    forall r | r in rs { RecordAppends(r); }
    EachLonger(rs, EncRecord, rest);
  }

  /** Every count the encoder checks before it walks an array. */
  predicate Counted(m: Message) {
    match m
    case StreamChunkBatch(_, records) => RecordsCounted(records)
    case StudyStart(s) => StepsCounted(s.steps)
    case StepResult(_, r) => ResultCounted(r)
    case _ => true
  }

  /** `encode_body` after the tag. */
  method PutBody(w: Writer, m: Message) returns (ok: bool)
    requires w.Valid()
    modifies w, w.out
    ensures w.Valid()
    ensures Counted(m) ==> Put(old(w.Written()), EncBody(m, []), [], ok, w.Written(), w.out.Length)
    ensures !Counted(m) ==> !ok
  {
    hide EncVarint, EncString, EncByte, EncFlag, EncStudy, EncResult, StepsCounted, ResultCounted, EncList;
    TailsAreLonger();
    match m
    case Hello(schema, host) =>
      ok := w.PutVarint(schema, EncVarint(host, []));
      if ok {
        ok := w.PutVarint(host, []);
      }
    case HelloAck(schema, compatible, firmware, hardware) =>
      ok := PutHelloAck(w, m);
    case StreamOpen(id) =>
      ok := w.PutByte(id, []);
    case StreamChunkBatch(id, records) =>
      ok := PutChunkBatch(w, m);
    case StreamClose(id, dropped) =>
      ok := w.PutByte(id, EncVarint(dropped, []));
      if ok {
        ok := w.PutVarint(dropped, []);
      }
    case LogLine(text) =>
      ok := w.PutString(text, []);
    case StudyStart(study) =>
      ok := PutStudy(w, study, []);
    case StepResult(index, result) =>
      ok := w.PutVarint(index, EncResult(result, []));
      if ok {
        ok := PutResult(w, result, []);
      }
    case StudyDone(completed) =>
      ok := w.PutFlag(completed, []);
  }

  method PutHelloAck(w: Writer, m: Message) returns (ok: bool)
    requires m.HelloAck? && w.Valid()
    modifies w, w.out
    ensures w.Valid() && Put(old(w.Written()), EncBody(m, []), [], ok, w.Written(), w.out.Length)
  {
    hide EncVarint, EncString, EncFlag;
    TailsAreLonger();
    ghost var s2 := EncString(m.firmware, EncString(m.hardware, []));
    ok := w.PutVarint(m.schema, EncFlag(m.compatible, s2));
    if !ok {
      return;
    }
    ok := w.PutFlag(m.compatible, s2);
    if !ok {
      return;
    }
    ok := w.PutString(m.firmware, EncString(m.hardware, []));
    if !ok {
      return;
    }
    ok := w.PutString(m.hardware, []);
  }

  method PutChunkBatch(w: Writer, m: Message) returns (ok: bool)
    requires m.StreamChunkBatch? && w.Valid()
    modifies w, w.out
    ensures w.Valid()
    ensures RecordsCounted(m.records) ==> Put(old(w.Written()), EncBody(m, []), [], ok, w.Written(), w.out.Length)
    ensures !RecordsCounted(m.records) ==> !ok
  {
    hide EncList;
    if |m.records| > MAX_RECORDS {
      return false;
    }
    ok := w.PutByte(m.id, EncList(m.records, EncRecord, []));
    if !ok {
      return;
    }
    ok := PutRecords(w, m.records, []);
  }

  /** `encode_body`: it succeeds exactly when every count is in range and the encoding fits. */
  method EncodeBody(w: Writer, m: Message) returns (ok: bool)
    requires w.Valid() && w.pos == 0
    modifies w, w.out
    ensures w.Valid()
    ensures ok <==> Counted(m) && |EncMessage(m)| <= w.out.Length
    ensures ok ==> w.Written() == EncMessage(m)
  {
    hide EncVarint, EncBody, Counted, MessageTag;
    ok := w.PutVarint(MessageTag(m), EncBody(m, []));
    if !ok {
      return;
    }
    ok := PutBody(w, m);
    if ok {
      assert w.Written() + [] == w.Written() && [] + EncMessage(m) == EncMessage(m);
    }
  }

  /** The room `dbm_encode_frame` asks for: one byte more than the stuffing can ever use. */
  predicate FrameRoom(raw: nat, cap: nat) {
    raw + raw / 254 + 2 + 1 <= cap
  }

  /** `dbm_encode_frame`: -1, or the frame and its length. */
  method EncodeFrame(m: Message, out: array<Byte>) returns (n: int)
    modifies out
    ensures n == -1 || 0 <= n <= out.Length
    ensures n >= 0 <==> Counted(m) && |EncMessage(m)| <= MAX_RAW_LEN && FrameRoom(|EncMessage(m)|, out.Length)
    ensures n >= 0 ==> out[..n] == Frames.Frame(m)
  {
    hide EncMessage, Counted, Cobs.Encoded;
    var raw := new Byte[MAX_RAW_LEN];
    var w := new Writer(raw);
    var ok := EncodeBody(w, m);
    if !ok {
      return -1;
    }
    var cobsCap := w.pos + w.pos / 254 + 2;
    if cobsCap + 1 > out.Length {
      return -1;
    }
    var cobsLen := Cobs.Encode(raw[..w.pos], out);
    Cobs.EncodedLength(raw[..w.pos]);
    out[cobsLen] := 0;
    n := cobsLen + 1;
  }
}
