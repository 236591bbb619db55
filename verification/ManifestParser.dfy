/**
 * The manifest reader: one cursor over the received bytes, one method per reader of
 * `serial_protocol.c`, each proved to compute the parse that `Manifest` specifies.
 */
module ManifestParser {
  import opened Bytes
  import opened Postcard
  import opened Eap
  import opened Manifest

  /** `pc_read_eap_operand`: a fifth operand form is a hard error. */
  method ReadOperand(c: Reader) returns (r: Option<Operand>)
    requires c.Valid()
    modifies c
    ensures c.Valid() && c.pos >= old(c.pos) && Took(DecOperand(old(c.Rest())), r, c.Rest())
  {
    hide DecVarint, DecSigned;
    var kind :- c.ReadVarint();
    if kind == 0 {
      var n :- c.ReadSigned();
      return Some(Literal(n));
    } else if 1 <= kind <= 3 {
      var i :- c.ReadByte();
      return Some(if kind == 1 then Field(i) else if kind == 2 then Session(i) else SpanLen(i));
    }
    return None;
  }

  /** `pc_read_eap_expr`. */
  method ReadExpr(c: Reader) returns (r: Option<Expr>)
    requires c.Valid()
    modifies c
    ensures c.Valid() && c.pos >= old(c.pos) && Took(DecExpr(old(c.Rest())), r, c.Rest())
  {
    hide DecVarint, DecOperand;
    var kind :- c.ReadVarint();
    var a :- ReadOperand(c);
    if kind == 0 {
      return Some(Term(a));
    } else if kind == 1 {
      var b :- ReadOperand(c);
      return Some(Add(a, b));
    }
    return None;
  }

  /** `pc_read_eap_condition`. */
  method ReadCondition(c: Reader) returns (r: Option<Condition>)
    requires c.Valid()
    modifies c
    ensures c.Valid() && c.pos >= old(c.pos) && Took(DecCondition(old(c.Rest())), r, c.Rest())
  {
    hide DecVarint, DecOperand;
    var lhs :- ReadOperand(c);
    var op :- c.ReadVarint();
    if op > 5 {
      return None;
    }
    var rhs :- ReadOperand(c);
    return Some(Condition(lhs, CompareOf(op), rhs));
  }

  /** One `remember` of an arm. */
  method ReadRemember(c: Reader) returns (r: Option<Remember>)
    requires c.Valid()
    modifies c
    ensures c.Valid() && c.pos >= old(c.pos) && Took(DecRemember(old(c.Rest())), r, c.Rest())
  {
    hide DecExpr;
    var v :- c.ReadByte();
    var e :- ReadExpr(c);
    return Some(Remember(v, e));
  }

  /** One guarded goto of an arm. */
  method ReadGuard(c: Reader) returns (r: Option<GuardedGoto>)
    requires c.Valid()
    modifies c
    ensures c.Valid() && c.pos >= old(c.pos) && Took(DecGuard(old(c.Rest())), r, c.Rest())
  {
    hide DecCondition;
    var cond :- ReadCondition(c);
    var target :- c.ReadByte();
    return Some(GuardedGoto(cond, target));
  }

  /** The first counted loop of `pc_read_eap_event_arm`. */
  method ReadRemembers(c: Reader) returns (r: Option<seq<Remember>>)
    requires c.Valid()
    modifies c
    ensures c.Valid() && c.pos >= old(c.pos) && Took(DecList(MAX_REMEMBERS, DecRemember, old(c.Rest())), r, c.Rest())
  {
    hide DecEach, DecVarint, DecRemember;
    var n :- c.ReadVarint();
    if n > MAX_REMEMBERS {
      return None;
    }
    var remembers := [];
    ghost var start := c.Rest();
    OntoStart(n, DecRemember, start);
    while |remembers| < n
      invariant c.Valid() && c.pos >= old(c.pos) && |remembers| <= n
      invariant Onto(remembers, DecEach(n - |remembers|, DecRemember, c.Rest())) == DecEach(n, DecRemember, start)
    {
      OntoStep(remembers, n - |remembers|, DecRemember, c.Rest());
      var x :- ReadRemember(c);
      remembers := remembers + [x];
    }
    OntoEnd(remembers, DecRemember, c.Rest());
    return Some(remembers);
  }

  /** The second counted loop of `pc_read_eap_event_arm`. */
  method ReadGuards(c: Reader) returns (r: Option<seq<GuardedGoto>>)
    requires c.Valid()
    modifies c
    ensures c.Valid() && c.pos >= old(c.pos) && Took(DecList(MAX_GUARDS, DecGuard, old(c.Rest())), r, c.Rest())
  {
    hide DecEach, DecVarint, DecGuard;
    var n :- c.ReadVarint();
    if n > MAX_GUARDS {
      return None;
    }
    var guards := [];
    ghost var start := c.Rest();
    OntoStart(n, DecGuard, start);
    while |guards| < n
      invariant c.Valid() && c.pos >= old(c.pos) && |guards| <= n
      invariant Onto(guards, DecEach(n - |guards|, DecGuard, c.Rest())) == DecEach(n, DecGuard, start)
    {
      OntoStep(guards, n - |guards|, DecGuard, c.Rest());
      var x :- ReadGuard(c);
      guards := guards + [x];
    }
    OntoEnd(guards, DecGuard, c.Rest());
    return Some(guards);
  }

  /** `pc_read_eap_event_arm`: the Option byte is kept, not folded into a self-transition. */
  method ReadArm(c: Reader) returns (r: Option<EventArm>)
    requires c.Valid()
    modifies c
    ensures c.Valid() && c.pos >= old(c.pos) && Took(DecArm(old(c.Rest())), r, c.Rest())
  {
    hide DecList;
    var frame :- c.ReadByte();
    var remembers :- ReadRemembers(c);
    var guards :- ReadGuards(c);
    var hasOtherwise :- c.ReadFlag();
    var otherwise: Option<Byte> := None;
    if hasOtherwise {
      var target :- c.ReadByte();
      otherwise := Some(target);
    }
    return Some(EventArm(frame, remembers, guards, otherwise));
  }

  /** One field of a write. */
  method ReadWriteField(c: Reader) returns (r: Option<WriteField>)
    requires c.Valid()
    modifies c
    ensures c.Valid() && c.pos >= old(c.pos) && Took(DecWriteField(old(c.Rest())), r, c.Rest())
  {
    hide DecVarint, DecOperand;
    var ty :- c.ReadVarint();
    var value :- ReadOperand(c);
    return Some(WriteField(ty % TWO_8, value));
  }

  /** The counted loop of `pc_read_eap_write`. */
  method ReadWriteFields(c: Reader) returns (r: Option<seq<WriteField>>)
    requires c.Valid()
    modifies c
    ensures c.Valid() && c.pos >= old(c.pos) && Took(DecList(MAX_WRITE_FIELDS, DecWriteField, old(c.Rest())), r, c.Rest())
  {
    hide DecEach, DecVarint, DecWriteField;
    var n :- c.ReadVarint();
    if n > MAX_WRITE_FIELDS {
      return None;
    }
    var fields := [];
    ghost var start := c.Rest();
    OntoStart(n, DecWriteField, start);
    while |fields| < n
      invariant c.Valid() && c.pos >= old(c.pos) && |fields| <= n
      invariant Onto(fields, DecEach(n - |fields|, DecWriteField, c.Rest())) == DecEach(n, DecWriteField, start)
    {
      OntoStep(fields, n - |fields|, DecWriteField, c.Rest());
      var x :- ReadWriteField(c);
      fields := fields + [x];
    }
    OntoEnd(fields, DecWriteField, c.Rest());
    return Some(fields);
  }

  /** `pc_read_eap_write`. */
  method ReadWrite(c: Reader) returns (r: Option<WriteAction>)
    requires c.Valid()
    modifies c
    ensures c.Valid() && c.pos >= old(c.pos) && Took(DecWrite(old(c.Rest())), r, c.Rest())
  {
    hide DecList;
    var source :- c.ReadByte();
    var fields :- ReadWriteFields(c);
    var withResponse :- c.ReadFlag();
    return Some(WriteAction(source, fields, withResponse));
  }

  /** The counted loop of `pc_read_eap_state`: a third arm is refused, never dropped. */
  method ReadArms(c: Reader) returns (r: Option<seq<EventArm>>)
    requires c.Valid()
    modifies c
    ensures c.Valid() && c.pos >= old(c.pos) && Took(DecList(MAX_EVENT_ARMS, DecArm, old(c.Rest())), r, c.Rest())
  {
    hide DecEach, DecVarint, DecArm;
    var n :- c.ReadVarint();
    if n > MAX_EVENT_ARMS {
      return None;
    }
    var arms := [];
    ghost var start := c.Rest();
    OntoStart(n, DecArm, start);
    while |arms| < n
      invariant c.Valid() && c.pos >= old(c.pos) && |arms| <= n
      invariant Onto(arms, DecEach(n - |arms|, DecArm, c.Rest())) == DecEach(n, DecArm, start)
    {
      OntoStep(arms, n - |arms|, DecArm, c.Rest());
      var x :- ReadArm(c);
      arms := arms + [x];
    }
    OntoEnd(arms, DecArm, c.Rest());
    return Some(arms);
  }

  /** The timeout arm of an active state. */
  method ReadTimeout(c: Reader) returns (r: Option<TimeoutArm>)
    requires c.Valid()
    modifies c
    ensures c.Valid() && c.pos >= old(c.pos) && Took(DecTimeout(old(c.Rest())), r, c.Rest())
  {
    hide DecVarint;
    var ms :- c.ReadVarint();
    var retry :- c.ReadByte();
    var target :- c.ReadByte();
    return Some(TimeoutArm(ms % TWO_32, retry, target));
  }

  /** The active half of `pc_read_eap_state`. */
  method ReadActive(c: Reader) returns (r: Option<ActiveState>)
    requires c.Valid()
    modifies c
    ensures c.Valid() && c.pos >= old(c.pos) && Took(DecActive(old(c.Rest())), r, c.Rest())
  {
    hide DecList, DecWrite, DecTimeout, DecArm;
    var hasOnEnter :- c.ReadFlag();
    var onEnter: Option<WriteAction> := None;
    if hasOnEnter {
      var w :- ReadWrite(c);
      onEnter := Some(w);
    }
    var arms :- ReadArms(c);
    var hasOnTimeout :- c.ReadFlag();
    var onTimeout: Option<TimeoutArm> := None;
    if hasOnTimeout {
      var t :- ReadTimeout(c);
      onTimeout := Some(t);
    }
    return Some(ActiveState(onEnter, arms, onTimeout));
  }

  /** `pc_read_eap_state`: the name is the one string kept. */
  method ReadState(c: Reader) returns (r: Option<State>)
    requires c.Valid()
    modifies c
    ensures c.Valid() && c.pos >= old(c.pos) && Took(DecState(old(c.Rest())), r, c.Rest())
  {
    hide DecString, DecVarint, DecActive;
    var name :- c.ReadString(MAX_STATE_NAME_LEN);
    var kind :- c.ReadVarint();
    if kind == 1 {
      var outcome :- c.ReadVarint();
      if outcome > 1 {
        return None;
      }
      return Some(State(name, Terminal(outcome == 0)));
    } else if kind != 0 {
      return None;
    }
    var a :- ReadActive(c);
    return Some(State(name, Active(a)));
  }

  /** One frame field, its name walked and discarded. */
  method ReadField(c: Reader) returns (r: Option<ScalarRead>)
    requires c.Valid()
    modifies c
    ensures c.Valid() && c.pos >= old(c.pos) && Took(DecField(old(c.Rest())), r, c.Rest())
  {
    hide DecVarint, DecSkip;
    var _ :- c.Skip(1);
    var offset :- c.ReadVarint();
    var ty :- c.ReadVarint();
    return Some(ScalarRead(offset % TWO_16, ty % TWO_8));
  }

  /** One frame span, its name walked and discarded. */
  method ReadSpan(c: Reader) returns (r: Option<SpanRead>)
    requires c.Valid()
    modifies c
    ensures c.Valid() && c.pos >= old(c.pos) && Took(DecSpan(old(c.Rest())), r, c.Rest())
  {
    hide DecVarint, DecSkip;
    var _ :- c.Skip(1);
    var offset :- c.ReadVarint();
    var hasLength :- c.ReadFlag();
    var length: Option<U16> := None;
    if hasLength {
      var n :- c.ReadVarint();
      length := Some(n % TWO_16);
    }
    return Some(SpanRead(offset % TWO_16, length));
  }

  /** The field loop of `pc_read_eap_frame`. */
  method ReadFields(c: Reader) returns (r: Option<seq<ScalarRead>>)
    requires c.Valid()
    modifies c
    ensures c.Valid() && c.pos >= old(c.pos) && Took(DecList(MAX_FRAME_FIELDS, DecField, old(c.Rest())), r, c.Rest())
  {
    hide DecEach, DecVarint, DecField;
    var n :- c.ReadVarint();
    if n > MAX_FRAME_FIELDS {
      return None;
    }
    var fields := [];
    ghost var start := c.Rest();
    OntoStart(n, DecField, start);
    while |fields| < n
      invariant c.Valid() && c.pos >= old(c.pos) && |fields| <= n
      invariant Onto(fields, DecEach(n - |fields|, DecField, c.Rest())) == DecEach(n, DecField, start)
    {
      OntoStep(fields, n - |fields|, DecField, c.Rest());
      var x :- ReadField(c);
      fields := fields + [x];
    }
    OntoEnd(fields, DecField, c.Rest());
    return Some(fields);
  }

  /** The span loop of `pc_read_eap_frame`. */
  method ReadSpans(c: Reader) returns (r: Option<seq<SpanRead>>)
    requires c.Valid()
    modifies c
    ensures c.Valid() && c.pos >= old(c.pos) && Took(DecList(MAX_FRAME_SPANS, DecSpan, old(c.Rest())), r, c.Rest())
  {
    hide DecEach, DecVarint, DecSpan;
    var n :- c.ReadVarint();
    if n > MAX_FRAME_SPANS {
      return None;
    }
    var spans := [];
    ghost var start := c.Rest();
    OntoStart(n, DecSpan, start);
    while |spans| < n
      invariant c.Valid() && c.pos >= old(c.pos) && |spans| <= n
      invariant Onto(spans, DecEach(n - |spans|, DecSpan, c.Rest())) == DecEach(n, DecSpan, start)
    {
      OntoStep(spans, n - |spans|, DecSpan, c.Rest());
      var x :- ReadSpan(c);
      spans := spans + [x];
    }
    OntoEnd(spans, DecSpan, c.Rest());
    return Some(spans);
  }

  /** Its `select_if`: the option byte, then an offset narrowed to 16 bits and the bytes to match. */
  method ReadSelect(c: Reader) returns (r: Option<Option<Select>>)
    requires c.Valid()
    modifies c
    ensures c.Valid() && c.pos >= old(c.pos) && Took(DecOption(DecSelect, old(c.Rest())), r, c.Rest())
  {
    hide DecVarint, DecString;
    var hasSelect :- c.ReadFlag();
    if !hasSelect {
      return Some(None);
    }
    var offset :- c.ReadVarint();
    var eq :- c.ReadString(MAX_SELECT_LEN);
    return Some(Some(Select(offset % TWO_16, eq)));
  }

  /** `pc_read_eap_frame`. */
  method ReadFrame(c: Reader) returns (r: Option<Frame>)
    requires c.Valid()
    modifies c
    ensures c.Valid() && c.pos >= old(c.pos) && Took(DecFrame(old(c.Rest())), r, c.Rest())
  {
    hide DecVarint, DecSkip, DecList, DecOption, DecSelect, DecField, DecSpan;
    var _ :- c.Skip(1);
    var source :- c.ReadByte();
    var selectIf :- ReadSelect(c);
    var fields :- ReadFields(c);
    var spans :- ReadSpans(c);
    return Some(Frame(source, selectIf, fields, spans));
  }

  /** One source, its alias walked and discarded. */
  method ReadSource(c: Reader) returns (r: Option<Source>)
    requires c.Valid()
    modifies c
    ensures c.Valid() && c.pos >= old(c.pos) && Took(DecSource(old(c.Rest())), r, c.Rest())
  {
    hide DecSkip;
    var _ :- c.Skip(1);
    var service :- c.ReadUuid();
    var characteristic :- c.ReadUuid();
    return Some(Source(service, characteristic));
  }

  /** One session variable, its name walked and discarded. */
  method ReadVar(c: Reader) returns (r: Option<I64>)
    requires c.Valid()
    modifies c
    ensures c.Valid() && c.pos >= old(c.pos) && Took(DecVar(old(c.Rest())), r, c.Rest())
  {
    hide DecSkip, DecSigned;
    var _ :- c.Skip(1);
    var initial :- c.ReadSigned();
    return Some(initial);
  }

  /** The source loop of `pc_read_protocol_def`. */
  method ReadSources(c: Reader) returns (r: Option<seq<Source>>)
    requires c.Valid()
    modifies c
    ensures c.Valid() && c.pos >= old(c.pos) && Took(DecList(MAX_SOURCES, DecSource, old(c.Rest())), r, c.Rest())
  {
    hide DecEach, DecVarint, DecSource;
    var n :- c.ReadVarint();
    if n > MAX_SOURCES {
      return None;
    }
    var sources := [];
    ghost var start := c.Rest();
    OntoStart(n, DecSource, start);
    while |sources| < n
      invariant c.Valid() && c.pos >= old(c.pos) && |sources| <= n
      invariant Onto(sources, DecEach(n - |sources|, DecSource, c.Rest())) == DecEach(n, DecSource, start)
    {
      OntoStep(sources, n - |sources|, DecSource, c.Rest());
      var x :- ReadSource(c);
      sources := sources + [x];
    }
    OntoEnd(sources, DecSource, c.Rest());
    return Some(sources);
  }

  /** The frame loop of `pc_read_protocol_def`. */
  method ReadFrames(c: Reader) returns (r: Option<seq<Frame>>)
    requires c.Valid()
    modifies c
    ensures c.Valid() && c.pos >= old(c.pos) && Took(DecList(MAX_FRAMES, DecFrame, old(c.Rest())), r, c.Rest())
  {
    hide DecEach, DecVarint, DecFrame;
    var n :- c.ReadVarint();
    if n > MAX_FRAMES {
      return None;
    }
    var frames := [];
    ghost var start := c.Rest();
    OntoStart(n, DecFrame, start);
    while |frames| < n
      invariant c.Valid() && c.pos >= old(c.pos) && |frames| <= n
      invariant Onto(frames, DecEach(n - |frames|, DecFrame, c.Rest())) == DecEach(n, DecFrame, start)
    {
      OntoStep(frames, n - |frames|, DecFrame, c.Rest());
      var x :- ReadFrame(c);
      frames := frames + [x];
    }
    OntoEnd(frames, DecFrame, c.Rest());
    return Some(frames);
  }

  /** The session loop of `pc_read_protocol_def`. */
  method ReadSession(c: Reader) returns (r: Option<seq<I64>>)
    requires c.Valid()
    modifies c
    ensures c.Valid() && c.pos >= old(c.pos) && Took(DecList(MAX_SESSION_VARS, DecVar, old(c.Rest())), r, c.Rest())
  {
    hide DecEach, DecVarint, DecVar;
    var n :- c.ReadVarint();
    if n > MAX_SESSION_VARS {
      return None;
    }
    var vars := [];
    ghost var start := c.Rest();
    OntoStart(n, DecVar, start);
    while |vars| < n
      invariant c.Valid() && c.pos >= old(c.pos) && |vars| <= n
      invariant Onto(vars, DecEach(n - |vars|, DecVar, c.Rest())) == DecEach(n, DecVar, start)
    {
      OntoStep(vars, n - |vars|, DecVar, c.Rest());
      var x :- ReadVar(c);
      vars := vars + [x];
    }
    OntoEnd(vars, DecVar, c.Rest());
    return Some(vars);
  }

  /** The state loop of `pc_read_protocol_def`. */
  method ReadStates(c: Reader) returns (r: Option<seq<State>>)
    requires c.Valid()
    modifies c
    ensures c.Valid() && c.pos >= old(c.pos) && Took(DecList(MAX_STATES, DecState, old(c.Rest())), r, c.Rest())
  {
    hide DecEach, DecVarint, DecState;
    var n :- c.ReadVarint();
    if n > MAX_STATES {
      return None;
    }
    var states := [];
    ghost var start := c.Rest();
    OntoStart(n, DecState, start);
    while |states| < n
      invariant c.Valid() && c.pos >= old(c.pos) && |states| <= n
      invariant Onto(states, DecEach(n - |states|, DecState, c.Rest())) == DecEach(n, DecState, start)
    {
      OntoStep(states, n - |states|, DecState, c.Rest());
      var x :- ReadState(c);
      states := states + [x];
    }
    OntoEnd(states, DecState, c.Rest());
    return Some(states);
  }

  /** `pc_read_protocol_def`. */
  method ReadProtocol(c: Reader) returns (r: Option<ProtocolDef>)
    requires c.Valid()
    modifies c
    ensures c.Valid() && c.pos >= old(c.pos) && Took(DecProtocol(old(c.Rest())), r, c.Rest())
  {
    hide DecSkip, DecList;
    var _ :- c.Skip(1);
    var sources :- ReadSources(c);
    var frames :- ReadFrames(c);
    var session :- ReadSession(c);
    var states :- ReadStates(c);
    return Some(ProtocolDef(sources, frames, session, states));
  }
}
