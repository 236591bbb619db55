/**
 * The parser against the encoding: a manifest's bytes, whatever follows them, decode to that
 * manifest without its names exactly when every count is within the caps, and are refused otherwise.
 */
module ManifestRoundTrip {
  import opened Bytes
  import opened Postcard
  import opened Eap
  import opened Manifest

  predicate Always<T>(x: T) {
    true
  }

  lemma OperandReadsBack(op: Operand, rest: seq<Byte>)
    ensures DecOperand(EncOperand(op, rest)) == Some((op, rest))
  {
    hide Groups, EncVarint, DecVarint, DecSigned, EncSigned;
    match op
    case Literal(n) =>
      VarintRoundTrip(0, EncSigned(n, rest));
      SignedRoundTrip(n, rest);
    case Field(i) =>
      VarintRoundTrip(1, EncByte(i, rest));
    case Session(i) =>
      VarintRoundTrip(2, EncByte(i, rest));
    case SpanLen(i) =>
      VarintRoundTrip(3, EncByte(i, rest));
  }

  lemma ExprReadsBack(e: Expr, rest: seq<Byte>)
    ensures DecExpr(EncExpr(e, rest)) == Some((e, rest))
  {
    hide EncVarint, DecVarint, DecOperand, EncOperand;
    match e
    case Term(a) =>
      VarintRoundTrip(0, EncOperand(a, rest));
      OperandReadsBack(a, rest);
    case Add(a, b) =>
      VarintRoundTrip(1, EncOperand(a, EncOperand(b, rest)));
      OperandReadsBack(a, EncOperand(b, rest));
      OperandReadsBack(b, rest);
  }

  lemma ConditionReadsBack(c: Condition, rest: seq<Byte>)
    ensures DecCondition(EncCondition(c, rest)) == Some((c, rest))
  {
    hide EncVarint, DecVarint, DecOperand, EncOperand;
    var tail := EncOperand(c.rhs, rest);
    OperandReadsBack(c.lhs, EncVarint(CompareTag(c.op), tail));
    VarintRoundTrip(CompareTag(c.op), tail);
    OperandReadsBack(c.rhs, rest);
  }

  lemma RememberReadsBack(r: Remember)
    ensures ReadsBack(r, EncRemember, DecRemember, Same, Always)
  {
    hide DecExpr, EncExpr;
    forall rest
      ensures DecRemember(EncRemember(r, rest)) == Some((r, rest))
    {
      ExprReadsBack(r.value, rest);
      assert EncRemember(r, rest)[1..] == EncExpr(r.value, rest);
    }
  }

  lemma GuardReadsBack(g: GuardedGoto)
    ensures ReadsBack(g, EncGuard, DecGuard, Same, Always)
  {
    hide DecCondition, EncCondition;
    forall rest
      ensures DecGuard(EncGuard(g, rest)) == Some((g, rest))
    {
      ConditionReadsBack(g.cond, EncByte(g.target, rest));
    }
  }

  lemma MapSame<T>(xs: seq<T>)
    ensures Map(Same<T>, xs) == xs
  {
  }

  /** An `Option` whose content reads back reads back itself. */
  lemma OptionReadsBack<T(!new)>(o: Option<T>, enc: (T, seq<Byte>) -> seq<Byte>, dec: seq<Byte> -> Parse<T>,
                                 fits: T -> bool, rest: seq<Byte>)
    requires o.Some? ==> ReadsBack(o.value, enc, dec, Same, fits)
    ensures DecOption(dec, EncOption(o, enc, rest))
            == if o.Some? && !fits(o.value) then None else Some((o, rest))
  {
    if o.Some? {
      assert EncOption(o, enc, rest)[1..] == enc(o.value, rest);
      assert dec(enc(o.value, rest)) == if fits(o.value) then Some((o.value, rest)) else None;
    } else {
      assert EncOption(o, enc, rest)[1..] == rest;
    }
  }

  lemma ByteReadsBack(b: Byte)
    ensures ReadsBack(b, EncByte, DecByte, Same, Always)
  {
    forall rest
      ensures DecByte(EncByte(b, rest)) == Some((b, rest))
    {
      assert EncByte(b, rest)[1..] == rest;
    }
  }

  lemma ArmReadsBack(arm: EventArm)
    requires ArmCountable(arm)
    ensures ReadsBack(arm, EncArm, DecArm, Same, ArmFits)
  {
    hide DecList, EncList, DecOption, EncOption;
    forall rest
      ensures DecArm(EncArm(arm, rest)) == if ArmFits(arm) then Some((arm, rest)) else None
    {
      var s3 := EncOption(arm.otherwise, EncByte, rest);
      var s2 := EncList(arm.guards, EncGuard, s3);
      var s1 := EncList(arm.remembers, EncRemember, s2);
      assert EncArm(arm, rest)[1..] == s1;
      forall r | r in arm.remembers { RememberReadsBack(r); }
      ListRoundTrip(arm.remembers, MAX_REMEMBERS, EncRemember, DecRemember, Same, Always, s2);
      MapSame(arm.remembers);
      forall g | g in arm.guards { GuardReadsBack(g); }
      ListRoundTrip(arm.guards, MAX_GUARDS, EncGuard, DecGuard, Same, Always, s3);
      MapSame(arm.guards);
      if arm.otherwise.Some? { ByteReadsBack(arm.otherwise.value); }
      OptionReadsBack(arm.otherwise, EncByte, DecByte, Always, rest);
    }
  }

  lemma WriteFieldReadsBack(f: WriteField)
    ensures ReadsBack(f, EncWriteField, DecWriteField, Same, Always)
  {
    hide EncVarint, DecVarint, DecOperand, EncOperand;
    forall rest
      ensures DecWriteField(EncWriteField(f, rest)) == Some((f, rest))
    {
      VarintRoundTrip(f.ty, EncOperand(f.value, rest));
      OperandReadsBack(f.value, rest);
    }
  }

  lemma WriteReadsBack(w: WriteAction)
    requires Countable(w.fields)
    ensures ReadsBack(w, EncWrite, DecWrite, Same, WriteFits)
  {
    hide DecList, EncList;
    forall rest
      ensures DecWrite(EncWrite(w, rest)) == if WriteFits(w) then Some((w, rest)) else None
    {
      var s2 := EncFlag(w.withResponse, rest);
      assert EncWrite(w, rest)[1..] == EncList(w.fields, EncWriteField, s2);
      forall f | f in w.fields { WriteFieldReadsBack(f); }
      ListRoundTrip(w.fields, MAX_WRITE_FIELDS, EncWriteField, DecWriteField, Same, Always, s2);
      MapSame(w.fields);
      assert s2[1..] == rest;
    }
  }

  lemma TimeoutReadsBack(t: TimeoutArm)
    ensures ReadsBack(t, EncTimeout, DecTimeout, Same, Always)
  {
    hide EncVarint, DecVarint;
    forall rest
      ensures DecTimeout(EncTimeout(t, rest)) == Some((t, rest))
    {
      var s1 := EncByte(t.retry, EncByte(t.target, rest));
      VarintRoundTrip(t.afterMs, s1);
      assert s1[1..] == EncByte(t.target, rest);
      assert EncByte(t.target, rest)[1..] == rest;
    }
  }

  lemma ActiveReadsBack(a: ActiveState, rest: seq<Byte>)
    requires a.onEnter.Some? ==> Countable(a.onEnter.value.fields)
    requires Countable(a.onEvent) && forall arm | arm in a.onEvent :: ArmCountable(arm)
    ensures DecActive(EncActive(a, rest)) == if ActiveFits(a) then Some((a, rest)) else None
  {
    hide DecList, EncList, DecOption, EncOption;
    var s2 := EncOption(a.onTimeout, EncTimeout, rest);
    var s1 := EncList(a.onEvent, EncArm, s2);
    if a.onEnter.Some? { WriteReadsBack(a.onEnter.value); }
    OptionReadsBack(a.onEnter, EncWrite, DecWrite, WriteFits, s1);
    forall arm | arm in a.onEvent { ArmReadsBack(arm); }
    ListRoundTrip(a.onEvent, MAX_EVENT_ARMS, EncArm, DecArm, Same, ArmFits, s2);
    MapSame(a.onEvent);
    if a.onTimeout.Some? { TimeoutReadsBack(a.onTimeout.value); }
    OptionReadsBack(a.onTimeout, EncTimeout, DecTimeout, Always, rest);
  }

  lemma StateReadsBack(s: State)
    requires StateCountable(s)
    ensures ReadsBack(s, EncState, DecState, Same, StateFits)
  {
    hide DecString, EncString, EncVarint, DecVarint, DecActive, EncActive, ActiveFits;
    forall rest
      ensures DecState(EncState(s, rest)) == if StateFits(s) then Some((s, rest)) else None
    {
      match s.kind
      case Active(a) =>
        StringRoundTrip(s.name, MAX_STATE_NAME_LEN, EncVarint(0, EncActive(a, rest)));
        VarintRoundTrip(0, EncActive(a, rest));
        ActiveReadsBack(a, rest);
      case Terminal(pass) =>
        var tag := if pass then 0 else 1;
        StringRoundTrip(s.name, MAX_STATE_NAME_LEN, EncVarint(1, EncVarint(tag, rest)));
        VarintRoundTrip(1, EncVarint(tag, rest));
        VarintRoundTrip(tag, rest);
    }
  }

  function SelectFits(m: Select): bool {
    |m.eq| <= MAX_SELECT_LEN
  }

  lemma SelectReadsBack(m: Select)
    requires Countable(m.eq)
    ensures ReadsBack(m, EncSelect, DecSelect, Same, SelectFits)
  {
    hide DecString, EncString, EncVarint, DecVarint;
    forall rest
      ensures DecSelect(EncSelect(m, rest)) == if SelectFits(m) then Some((m, rest)) else None
    {
      VarintRoundTrip(m.offset, EncString(m.eq, rest));
      StringRoundTrip(m.eq, MAX_SELECT_LEN, rest);
    }
  }

  lemma FieldReadsBack(f: NamedField)
    requires Countable(f.name)
    ensures ReadsBack(f, EncField, DecField, StripField, Always)
  {
    hide DecString, EncString, EncVarint, DecVarint, DecSkip;
    forall rest
      ensures DecField(EncField(f, rest)) == Some((f.read, rest))
    {
      var s2 := EncVarint(f.read.ty, rest);
      StringRoundTrip(f.name, 0, EncVarint(f.read.offset, s2));
      VarintRoundTrip(f.read.offset, s2);
      VarintRoundTrip(f.read.ty, rest);
    }
  }

  lemma LengthReadsBack(n: U16)
    ensures ReadsBack(n, EncLength, DecLength, Same, Always)
  {
    hide EncVarint, DecVarint;
    forall rest
      ensures DecLength(EncLength(n, rest)) == Some((n, rest))
    {
      VarintRoundTrip(n, rest);
    }
  }

  lemma SpanReadsBack(sp: NamedSpan)
    requires Countable(sp.name)
    ensures ReadsBack(sp, EncSpan, DecSpan, StripSpan, Always)
  {
    hide EncString, EncVarint, DecVarint, DecSkip, DecOption, EncOption;
    forall rest
      ensures DecSpan(EncSpan(sp, rest)) == Some((sp.read, rest))
    {
      var s2 := EncOption(sp.read.length, EncLength, rest);
      StringRoundTrip(sp.name, 0, EncVarint(sp.read.offset, s2));
      VarintRoundTrip(sp.read.offset, s2);
      if sp.read.length.Some? { LengthReadsBack(sp.read.length.value); }
      OptionReadsBack(sp.read.length, EncLength, DecLength, Always, rest);
    }
  }

  lemma FrameReadsBack(f: NamedFrame)
    requires FrameCountable(f)
    ensures ReadsBack(f, EncFrame, DecFrame, StripFrame, NamedFrameFits)
  {
    hide EncString, DecSkip, DecOption, EncOption, DecList, EncList;
    forall rest
      ensures DecFrame(EncFrame(f, rest)) == if NamedFrameFits(f) then Some((StripFrame(f), rest)) else None
    {
      var s4 := EncList(f.spans, EncSpan, rest);
      var s3 := EncList(f.fields, EncField, s4);
      var s2 := EncOption(f.select, EncSelect, s3);
      var s1 := EncByte(f.source, s2);
      StringRoundTrip(f.name, 0, s1);
      assert s1[1..] == s2;
      if f.select.Some? { SelectReadsBack(f.select.value); }
      OptionReadsBack(f.select, EncSelect, DecSelect, SelectFits, s3);
      forall x | x in f.fields { FieldReadsBack(x); }
      ListRoundTrip(f.fields, MAX_FRAME_FIELDS, EncField, DecField, StripField, Always, s4);
      forall x | x in f.spans { SpanReadsBack(x); }
      ListRoundTrip(f.spans, MAX_FRAME_SPANS, EncSpan, DecSpan, StripSpan, Always, rest);
    }
  }

  lemma SourceReadsBack(s: NamedSource)
    requires Countable(s.alias)
    ensures ReadsBack(s, EncSource, DecSource, StripSource, Always)
  {
    hide EncString, DecSkip;
    forall rest
      ensures DecSource(EncSource(s, rest)) == Some((s.source, rest))
    {
      var s2 := s.source.characteristic + rest;
      StringRoundTrip(s.alias, 0, s.source.service + s2);
      RawRoundTrip(s.source.service, s2);
      RawRoundTrip(s.source.characteristic, rest);
    }
  }

  lemma VarReadsBack(v: NamedVar)
    requires Countable(v.name)
    ensures ReadsBack(v, EncVar, DecVar, StripVar, Always)
  {
    hide EncString, DecSkip, EncSigned, DecSigned;
    forall rest
      ensures DecVar(EncVar(v, rest)) == Some((v.initial, rest))
    {
      StringRoundTrip(v.name, 0, EncSigned(v.initial, rest));
      SignedRoundTrip(v.initial, rest);
    }
  }

  /** The whole manifest, followed by anything: decoded within the caps, refused beyond them. */
  lemma ManifestReadsBack(m: Manifest)
    requires ManifestCountable(m)
    ensures ReadsBack(m, EncManifest, DecProtocol, Strip, WithinCaps)
  {
    hide EncString, DecSkip, DecList, EncList, FrameCountable, StateCountable, NamedFrameFits, StateFits;
    forall rest
      ensures DecProtocol(EncManifest(m, rest)) == if WithinCaps(m) then Some((Strip(m), rest)) else None
    {
      var s4 := EncList(m.states, EncState, rest);
      var s3 := EncList(m.session, EncVar, s4);
      var s2 := EncList(m.frames, EncFrame, s3);
      var s1 := EncList(m.sources, EncSource, s2);
      StringRoundTrip(m.name, 0, s1);
      forall x | x in m.sources { SourceReadsBack(x); }
      ListRoundTrip(m.sources, MAX_SOURCES, EncSource, DecSource, StripSource, Always, s2);
      forall x | x in m.frames { FrameReadsBack(x); }
      ListRoundTrip(m.frames, MAX_FRAMES, EncFrame, DecFrame, StripFrame, NamedFrameFits, s3);
      forall x | x in m.session { VarReadsBack(x); }
      ListRoundTrip(m.session, MAX_SESSION_VARS, EncVar, DecVar, StripVar, Always, s4);
      forall x | x in m.states { StateReadsBack(x); }
      ListRoundTrip(m.states, MAX_STATES, EncState, DecState, Same, StateFits, rest);
      MapSame(m.states);
    }
  }

  // ---- What the parser guarantees, and what it leaves to the host ------------------------------

  lemma {:induction false} EachSatisfies<T(!new)>(n: nat, dec: seq<Byte> -> Parse<T>, p: T -> bool, s: seq<Byte>)
    requires forall t :: dec(t).Some? ==> p(dec(t).value.0)
    ensures DecEach(n, dec, s).Some? ==> All(p, DecEach(n, dec, s).value.0)
    decreases n
  {
    if n > 0 && dec(s).Some? {
      EachSatisfies(n - 1, dec, p, dec(s).value.1);
    }
  }

  lemma ListSatisfies<T(!new)>(cap: nat, dec: seq<Byte> -> Parse<T>, p: T -> bool)
    requires forall t :: dec(t).Some? ==> p(dec(t).value.0)
    ensures forall s :: DecList(cap, dec, s).Some? ==> All(p, DecList(cap, dec, s).value.0)
  {
    forall s | DecList(cap, dec, s).Some?
      ensures All(p, DecList(cap, dec, s).value.0)
    {
      var (n, rest) := DecVarint(s).value;
      EachSatisfies(n, dec, p, rest);
    }
  }

  lemma DecodedActiveFits()
    ensures forall s :: DecActive(s).Some? ==> ActiveFits(DecActive(s).value.0)
  {
    hide DecOption, DecVarint, DecByte, DecEach, DecFlag;
    forall s | DecActive(s).Some?
      ensures ActiveFits(DecActive(s).value.0)
    {
      DecodedWriteFits(s);
      var (_, s1) := DecOption(DecWrite, s).value;
      ListSatisfies(MAX_EVENT_ARMS, DecArm, ArmFits);
    }
  }

  lemma DecodedWriteFits(s: seq<Byte>)
    ensures DecOption(DecWrite, s).Some? && DecOption(DecWrite, s).value.0.Some? ==>
              WriteFits(DecOption(DecWrite, s).value.0.value)
  {
  }

  lemma DecodedStateFits()
    ensures forall s :: DecState(s).Some? ==> StateFits(DecState(s).value.0)
  {
    hide DecActive, DecVarint, DecString, ActiveFits;
    DecodedActiveFits();
  }

  lemma DecodedFrameFits()
    ensures forall s :: DecFrame(s).Some? ==> FrameFits(DecFrame(s).value.0)
  {
    hide DecList, DecByte, DecSkip, DecVarint;
    forall s | DecFrame(s).Some?
      ensures FrameFits(DecFrame(s).value.0)
    {
    }
  }

  /** Whatever the bytes, a manifest that came out of the parser is within every capacity. */
  lemma DecodedFits(s: seq<Byte>)
    requires DecProtocol(s).Some?
    ensures Fits(DecProtocol(s).value.0)
  {
    hide DecList, DecSkip, DecState, DecFrame, StateFits, FrameFits;
    DecodedFrameFits();
    ListSatisfies(MAX_FRAMES, DecFrame, FrameFits);
    DecodedStateFits();
    ListSatisfies(MAX_STATES, DecState, StateFits);
  }

  /** One state whose timeout goes to a state that does not exist. */
  const WANDERING: Manifest :=
    Manifest([], [], [], [], [State([], Active(ActiveState(None, [], Some(TimeoutArm(0, 0, 9)))))])

  /** The parser takes a goto it cannot follow: ranges are the host's to check. */
  lemma GotosAreNotChecked()
    ensures DecProtocol(EncManifest(WANDERING, [])) == Some((Strip(WANDERING), []))
    ensures Fits(Strip(WANDERING)) && !Valid(Strip(WANDERING))
  {
    hide EncManifest, DecProtocol;
    ManifestReadsBack(WANDERING);
    var def := Strip(WANDERING);
    assert def.states[0] in def.states && !StateTargetsIn(def.states[0], 1);
  }
}
