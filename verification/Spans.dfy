/**
 * What an element's bytes are does not depend on what follows them, so the span a seal covers is a
 * function of the sealed elements alone.
 */
module Spans {
  import opened Bytes
  import opened Postcard
  import opened Manifest
  import opened Messages
  import opened MessageRoundTrip
  import Eap

  ghost predicate Appends<T>(x: T, enc: (T, seq<Byte>) -> seq<Byte>) {
    forall r, t :: enc(x, r + t) == enc(x, r) + t
  }

  /** The bytes of the elements, without the length in front of them. */
  function Span<T>(xs: seq<T>, enc: (T, seq<Byte>) -> seq<Byte>): seq<Byte> {
    EncEach(xs, enc, [])
  }

  lemma {:induction false} VarintAppends(n: nat, r: seq<Byte>, t: seq<Byte>)
    ensures EncVarint(n, r + t) == EncVarint(n, r) + t
  {
    if n >= 0x80 {
      VarintAppends(n / 0x80, r, t);
    }
  }

  lemma PrimitivesAppend()
    ensures forall n: nat, r, t :: EncVarint(n, r + t) == EncVarint(n, r) + t
    ensures forall b: Byte, r, t :: EncByte(b, r + t) == EncByte(b, r) + t
    ensures forall b: bool, r, t :: EncFlag(b, r + t) == EncFlag(b, r) + t
    ensures forall n: I64, r, t :: EncSigned(n, r + t) == EncSigned(n, r) + t
    ensures forall u: seq<Byte>, r, t :: EncString(u, r + t) == EncString(u, r) + t
  {
    hide EncVarint;
    forall n: nat, r, t
      ensures EncVarint(n, r + t) == EncVarint(n, r) + t
    {
      VarintAppends(n, r, t);
    }
    forall u: seq<Byte>, r, t
      ensures EncString(u, r + t) == EncString(u, r) + t
    {
      assert u + (r + t) == (u + r) + t;
    }
  }

  lemma {:induction false} EachAppends<T(!new)>(xs: seq<T>, enc: (T, seq<Byte>) -> seq<Byte>, r: seq<Byte>, t: seq<Byte>)
    requires forall x | x in xs :: Appends(x, enc)
    ensures EncEach(xs, enc, r + t) == EncEach(xs, enc, r) + t
    decreases |xs|
  {
    if xs != [] {
      assert xs[0] in xs;
      EachAppends(xs[1..], enc, r, t);
      assert enc(xs[0], EncEach(xs[1..], enc, r) + t) == enc(xs[0], EncEach(xs[1..], enc, r)) + t;
    }
  }

  lemma ListAppends<T(!new)>(xs: seq<T>, enc: (T, seq<Byte>) -> seq<Byte>)
    requires forall x | x in xs :: Appends(x, enc)
    ensures forall r, t :: EncList(xs, enc, r + t) == EncList(xs, enc, r) + t
  {
    forall r, t
      ensures EncList(xs, enc, r + t) == EncList(xs, enc, r) + t
    {
      EachAppends(xs, enc, r, t);
      VarintAppends(|xs|, EncEach(xs, enc, r), t);
    }
  }

  lemma OptionAppends<T(!new)>(o: Option<T>, enc: (T, seq<Byte>) -> seq<Byte>)
    requires o.Some? ==> Appends(o.value, enc)
    ensures forall r, t :: EncOption(o, enc, r + t) == EncOption(o, enc, r) + t
  {
    forall r, t
      ensures EncOption(o, enc, r + t) == EncOption(o, enc, r) + t
    {
      if o.Some? {
        assert enc(o.value, r + t) == enc(o.value, r) + t;
      }
    }
  }

  lemma OptionalStringAppends(o: Option<seq<Byte>>)
    ensures forall r, t :: EncOption(o, EncString, r + t) == EncOption(o, EncString, r) + t
  {
    PrimitivesAppend();
    OptionAppends(o, EncString);
  }

  lemma SpanInFront<T(!new)>(xs: seq<T>, enc: (T, seq<Byte>) -> seq<Byte>, rest: seq<Byte>)
    requires forall x | x in xs :: Appends(x, enc)
    ensures EncEach(xs, enc, rest) == Span(xs, enc) + rest
    ensures Consumed(EncEach(xs, enc, rest), rest) == Span(xs, enc)
  {
    EachAppends(xs, enc, [], rest);
    assert [] + rest == rest;
  }

  // ---- Steps ---------------------------------------------------------------------------------

  lemma TargetAppends(s: Eap.Source)
    ensures Appends(s, EncTarget)
  {
    forall r, t
      ensures EncTarget(s, r + t) == EncTarget(s, r) + t
    {
      RawAppends(s.characteristic, r, t);
      RawAppends(s.service, s.characteristic + r, t);
    }
  }

  lemma RawAppends(u: seq<Byte>, r: seq<Byte>, t: seq<Byte>)
    ensures u + (r + t) == (u + r) + t
  {
  }

  lemma PeerAppends(p: PeerAddress)
    ensures Appends(p, EncPeer)
  {
    hide EncVarint;
    forall r, t
      ensures EncPeer(p, r + t) == EncPeer(p, r) + t
    {
      VarintAppends(p.kind, r, t);
      RawAppends(p.address, EncVarint(p.kind, r), t);
    }
  }

  lemma OperationAppends(op: GattOperation, r: seq<Byte>, t: seq<Byte>)
    ensures EncOperation(op, r + t) == EncOperation(op, r) + t
  {
    hide EncVarint, EncString;
    PrimitivesAppend();
  }

  lemma ActionAppends(a: Action, r: seq<Byte>, t: seq<Byte>)
    ensures EncAction(a, r + t) == EncAction(a, r) + t
  {
    hide EncVarint, EncString, EncOption, EncList, EncTarget, EncPeer, EncOperation, EncByte;
    PrimitivesAppend();
    match a
    case Advertise(name, _) => OptionalStringAppends(name);
    case Connect(_, address, name) =>
      if address.Some? { PeerAppends(address.value); }
      OptionAppends(address, EncPeer);
      OptionalStringAppends(name);
    case DataExchange(service, characteristic, op) =>
      OperationAppends(op, r, t);
      RawAppends(characteristic, EncOperation(op, r), t);
      RawAppends(service, characteristic + EncOperation(op, r), t);
    case MonitorSelected(targets) => TargetsAppend(targets);
    case MonitorSelectedStart(targets) => TargetsAppend(targets);
    case _ =>
  }

  lemma TargetsAppend(targets: seq<Eap.Source>)
    ensures forall r, t :: EncList(targets, EncTarget, r + t) == EncList(targets, EncTarget, r) + t
  {
    forall x | x in targets { TargetAppends(x); }
    ListAppends(targets, EncTarget);
  }

  lemma StepAppends(s: Step)
    ensures Appends(s, EncStep)
  {
    hide EncVarint, EncString, EncAction, EncFlag;
    PrimitivesAppend();
    forall r, t
      ensures EncStep(s, r + t) == EncStep(s, r) + t
    {
      ActionAppends(s.action, EncVarint(s.timeoutMs, EncFlag(s.continueOnFail, EncVarint(s.delayBeforeMs, r))), t);
    }
  }

  // ---- Taps -----------------------------------------------------------------------------------

  lemma OriginAppends(o: TapOrigin, r: seq<Byte>, t: seq<Byte>)
    ensures EncOrigin(o, r + t) == EncOrigin(o, r) + t
  {
    hide EncVarint, EncString;
    PrimitivesAppend();
    if o.GattNotify? {
      RawAppends(o.characteristic, r, t);
      RawAppends(o.service, o.characteristic + r, t);
    }
  }

  lemma EncodingAppends(e: TapEncoding, r: seq<Byte>, t: seq<Byte>)
    ensures EncEncoding(e, r + t) == EncEncoding(e, r) + t
  {
    hide EncVarint, EncByte;
    PrimitivesAppend();
  }

  lemma TapAppends(tap: NamedTap)
    ensures Appends(tap, EncTap)
  {
    hide EncVarint, EncString, EncByte, EncOrigin, EncEncoding;
    PrimitivesAppend();
    forall r, t
      ensures EncTap(tap, r + t) == EncTap(tap, r) + t
    {
      EncodingAppends(tap.encoding, EncScope(tap.scope, r), t);
      OriginAppends(tap.origin, EncEncoding(tap.encoding, EncScope(tap.scope, r)), t);
    }
  }

  // ---- Manifests ---------------------------------------------------------------------------------

  lemma OperandsAppend()
    ensures forall op, r, t :: EncOperand(op, r + t) == EncOperand(op, r) + t
  {
    hide EncVarint, EncByte, EncSigned;
    PrimitivesAppend();
  }

  lemma RememberAppends(x: Eap.Remember)
    ensures Appends(x, EncRemember)
  {
    hide EncVarint, EncByte, EncOperand;
    PrimitivesAppend();
    OperandsAppend();
  }

  lemma GuardAppends(x: Eap.GuardedGoto)
    ensures Appends(x, EncGuard)
  {
    hide EncVarint, EncByte, EncOperand;
    PrimitivesAppend();
    OperandsAppend();
  }

  lemma ArmAppends(x: Eap.EventArm)
    ensures Appends(x, EncArm)
  {
    hide EncByte, EncList, EncOption;
    PrimitivesAppend();
    forall y | y in x.remembers { RememberAppends(y); }
    ListAppends(x.remembers, EncRemember);
    forall y | y in x.guards { GuardAppends(y); }
    ListAppends(x.guards, EncGuard);
    OptionAppends(x.otherwise, EncByte);
  }

  lemma WriteAppends(x: Eap.WriteAction)
    ensures Appends(x, EncWrite)
  {
    hide EncByte, EncList, EncFlag;
    PrimitivesAppend();
    forall y | y in x.fields
      ensures Appends(y, EncWriteField)
    {
      hide EncVarint, EncOperand;
      OperandsAppend();
    }
    ListAppends(x.fields, EncWriteField);
  }

  lemma TimeoutAppends(x: Eap.TimeoutArm)
    ensures Appends(x, EncTimeout)
  {
    hide EncByte, EncVarint;
    PrimitivesAppend();
  }

  lemma ActiveAppends(a: Eap.ActiveState, r: seq<Byte>, t: seq<Byte>)
    ensures EncActive(a, r + t) == EncActive(a, r) + t
  {
    hide EncOption, EncList;
    if a.onEnter.Some? { WriteAppends(a.onEnter.value); }
    OptionAppends(a.onEnter, EncWrite);
    forall y | y in a.onEvent { ArmAppends(y); }
    ListAppends(a.onEvent, EncArm);
    if a.onTimeout.Some? { TimeoutAppends(a.onTimeout.value); }
    OptionAppends(a.onTimeout, EncTimeout);
  }

  lemma StateAppends(x: Eap.State)
    ensures Appends(x, EncState)
  {
    hide EncString, EncVarint, EncActive;
    PrimitivesAppend();
    forall r, t
      ensures EncState(x, r + t) == EncState(x, r) + t
    {
      if x.kind.Active? { ActiveAppends(x.kind.active, r, t); }
    }
  }

  lemma FieldAppends(x: NamedField)
    ensures Appends(x, EncField)
  {
    hide EncString, EncVarint;
    PrimitivesAppend();
  }

  lemma SpanReadAppends(x: NamedSpan)
    ensures Appends(x, EncSpan)
  {
    hide EncString, EncVarint, EncOption;
    PrimitivesAppend();
    OptionAppends(x.read.length, EncLength);
  }

  lemma SelectAppends(x: Eap.Select)
    ensures Appends(x, EncSelect)
  {
    hide EncString, EncVarint;
    PrimitivesAppend();
  }

  lemma FrameAppends(x: NamedFrame)
    ensures Appends(x, EncFrame)
  {
    hide EncString, EncByte, EncList, EncOption;
    PrimitivesAppend();
    if x.select.Some? { SelectAppends(x.select.value); }
    OptionAppends(x.select, EncSelect);
    forall y | y in x.fields { FieldAppends(y); }
    ListAppends(x.fields, EncField);
    forall y | y in x.spans { SpanReadAppends(y); }
    ListAppends(x.spans, EncSpan);
  }

  lemma SourceAppends(x: NamedSource)
    ensures Appends(x, EncSource)
  {
    hide EncString;
    PrimitivesAppend();
    forall r, t
      ensures EncSource(x, r + t) == EncSource(x, r) + t
    {
      RawAppends(x.source.characteristic, r, t);
      RawAppends(x.source.service, x.source.characteristic + r, t);
    }
  }

  lemma VarAppends(x: NamedVar)
    ensures Appends(x, EncVar)
  {
    hide EncString, EncSigned;
    PrimitivesAppend();
  }

  lemma ManifestAppends(m: Manifest)
    ensures Appends(m, EncManifest)
  {
    hide EncString, EncList;
    PrimitivesAppend();
    forall y | y in m.sources { SourceAppends(y); }
    ListAppends(m.sources, EncSource);
    forall y | y in m.frames { FrameAppends(y); }
    ListAppends(m.frames, EncFrame);
    forall y | y in m.session { VarAppends(y); }
    ListAppends(m.session, EncVar);
    forall y | y in m.states { StateAppends(y); }
    ListAppends(m.states, EncState);
  }

  // ---- Results, records ---------------------------------------------------------------------------

  lemma ServiceAppends(x: Service)
    ensures Appends(x, EncService)
  {
    hide EncList, EncByte;
    PrimitivesAppend();
    forall c | c in x.characteristics
      ensures Appends(c, EncCharacteristic)
    {
      forall r, t
        ensures EncCharacteristic(c, r + t) == EncCharacteristic(c, r) + t
      {
        RawAppends(c.uuid, EncByte(c.properties, r), t);
      }
    }
    ListAppends(x.characteristics, EncCharacteristic);
    forall r, t
      ensures EncService(x, r + t) == EncService(x, r) + t
    {
      RawAppends(x.uuid, EncList(x.characteristics, EncCharacteristic, r), t);
    }
  }

  lemma ServicesAppend(xs: seq<Service>)
    ensures Appends(xs, EncServices)
  {
    hide EncList, EncService;
    forall x | x in xs { ServiceAppends(x); }
    ListAppends(xs, EncService);
  }

  lemma RecordAppends(x: Record)
    ensures Appends(x, EncRecord)
  {
    hide EncString, EncVarint;
    PrimitivesAppend();
  }

  /** An encoding that appends is never shorter than what follows it. */
  lemma Longer<T(!new)>(x: T, enc: (T, seq<Byte>) -> seq<Byte>, rest: seq<Byte>)
    requires Appends(x, enc)
    ensures |enc(x, rest)| == |enc(x, [])| + |rest|
  {
    assert [] + rest == rest;
    assert enc(x, [] + rest) == enc(x, []) + rest;
  }

  lemma EachLonger<T(!new)>(xs: seq<T>, enc: (T, seq<Byte>) -> seq<Byte>, rest: seq<Byte>)
    requires forall x | x in xs :: Appends(x, enc)
    ensures |EncEach(xs, enc, rest)| >= |rest|
  {
    EachAppends(xs, enc, [], rest);
    assert [] + rest == rest;
  }
}
