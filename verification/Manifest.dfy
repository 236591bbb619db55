/**
 * An `.eap` manifest as the host writes it, names and all, its postcard encoding, and what the
 * bench's parser makes of those bytes.
 */
module Manifest {
  import opened Bytes
  import opened Postcard
  import opened Eap

  datatype NamedSource = NamedSource(alias: seq<Byte>, source: Source)
  datatype NamedField = NamedField(name: seq<Byte>, read: ScalarRead)
  datatype NamedSpan = NamedSpan(name: seq<Byte>, read: SpanRead)
  datatype NamedFrame = NamedFrame(name: seq<Byte>, source: Byte, select: Option<Select>,
                                   fields: seq<NamedField>, spans: seq<NamedSpan>)
  datatype NamedVar = NamedVar(name: seq<Byte>, initial: I64)
  datatype Manifest = Manifest(name: seq<Byte>, sources: seq<NamedSource>, frames: seq<NamedFrame>,
                               session: seq<NamedVar>, states: seq<State>)

  // ---- The encoding ------------------------------------------------------------------

  function EncOption<T>(o: Option<T>, enc: (T, seq<Byte>) -> seq<Byte>, rest: seq<Byte>): seq<Byte> {
    if o.None? then EncByte(0, rest) else EncByte(1, enc(o.value, rest))
  }

  function EncOperand(op: Operand, rest: seq<Byte>): seq<Byte> {
    match op
    case Literal(n) => EncVarint(0, EncSigned(n, rest))
    case Field(i) => EncVarint(1, EncByte(i, rest))
    case Session(i) => EncVarint(2, EncByte(i, rest))
    case SpanLen(i) => EncVarint(3, EncByte(i, rest))
  }

  function EncExpr(e: Expr, rest: seq<Byte>): seq<Byte> {
    match e
    case Term(a) => EncVarint(0, EncOperand(a, rest))
    case Add(a, b) => EncVarint(1, EncOperand(a, EncOperand(b, rest)))
  }

  function CompareTag(op: CompareOp): Byte {
    match op
    case Eq => 0
    case Ne => 1
    case Lt => 2
    case Le => 3
    case Gt => 4
    case Ge => 5
  }

  function EncCondition(c: Condition, rest: seq<Byte>): seq<Byte> {
    EncOperand(c.lhs, EncVarint(CompareTag(c.op), EncOperand(c.rhs, rest)))
  }

  function EncRemember(r: Remember, rest: seq<Byte>): seq<Byte> {
    EncByte(r.variable, EncExpr(r.value, rest))
  }

  function EncGuard(g: GuardedGoto, rest: seq<Byte>): seq<Byte> {
    EncCondition(g.cond, EncByte(g.target, rest))
  }

  function EncArm(arm: EventArm, rest: seq<Byte>): seq<Byte> {
    EncByte(arm.frame,
            EncList(arm.remembers, EncRemember,
                    EncList(arm.guards, EncGuard, EncOption(arm.otherwise, EncByte, rest))))
  }

  function EncWriteField(f: WriteField, rest: seq<Byte>): seq<Byte> {
    EncVarint(f.ty, EncOperand(f.value, rest))
  }

  function EncWrite(w: WriteAction, rest: seq<Byte>): seq<Byte> {
    EncByte(w.source, EncList(w.fields, EncWriteField, EncFlag(w.withResponse, rest)))
  }

  function EncTimeout(t: TimeoutArm, rest: seq<Byte>): seq<Byte> {
    EncVarint(t.afterMs, EncByte(t.retry, EncByte(t.target, rest)))
  }

  function EncActive(a: ActiveState, rest: seq<Byte>): seq<Byte> {
    EncOption(a.onEnter, EncWrite, EncList(a.onEvent, EncArm, EncOption(a.onTimeout, EncTimeout, rest)))
  }

  function EncState(s: State, rest: seq<Byte>): seq<Byte> {
    EncString(s.name,
              match s.kind
              case Active(a) => EncVarint(0, EncActive(a, rest))
              case Terminal(pass) => EncVarint(1, EncVarint(if pass then 0 else 1, rest)))
  }

  function EncSelect(m: Select, rest: seq<Byte>): seq<Byte> {
    EncVarint(m.offset, EncString(m.eq, rest))
  }

  function EncField(f: NamedField, rest: seq<Byte>): seq<Byte> {
    EncString(f.name, EncVarint(f.read.offset, EncVarint(f.read.ty, rest)))
  }

  function EncLength(n: U16, rest: seq<Byte>): seq<Byte> {
    EncVarint(n, rest)
  }

  function EncSpan(sp: NamedSpan, rest: seq<Byte>): seq<Byte> {
    EncString(sp.name, EncVarint(sp.read.offset, EncOption(sp.read.length, EncLength, rest)))
  }

  function EncFrame(f: NamedFrame, rest: seq<Byte>): seq<Byte> {
    EncString(f.name,
              EncByte(f.source,
                      EncOption(f.select, EncSelect,
                                EncList(f.fields, EncField, EncList(f.spans, EncSpan, rest)))))
  }

  function EncSource(s: NamedSource, rest: seq<Byte>): seq<Byte> {
    EncString(s.alias, s.source.service + (s.source.characteristic + rest))
  }

  function EncVar(v: NamedVar, rest: seq<Byte>): seq<Byte> {
    EncString(v.name, EncSigned(v.initial, rest))
  }

  function EncManifest(m: Manifest, rest: seq<Byte>): seq<Byte> {
    EncString(m.name,
              EncList(m.sources, EncSource,
                      EncList(m.frames, EncFrame, EncList(m.session, EncVar, EncList(m.states, EncState, rest)))))
  }

  // ---- The parser ----------------------------------------------------------------------

  function DecOption<T>(dec: seq<Byte> -> Parse<T>, s: seq<Byte>): Parse<Option<T>> {
    var (some, s1) :- DecFlag(s);
    if !some then Some((None, s1))
    else
      var (x, s2) :- dec(s1);
      Some((Some(x), s2))
  }

  function DecOperand(s: seq<Byte>): Parse<Operand> {
    var (kind, s1) :- DecVarint(s);
    if kind == 0 then
      var (n, s2) :- DecSigned(s1);
      Some((Literal(n), s2))
    else if 1 <= kind <= 3 then
      var (i, s2) :- DecByte(s1);
      Some((if kind == 1 then Field(i) else if kind == 2 then Session(i) else SpanLen(i), s2))
    else None
  }

  function DecExpr(s: seq<Byte>): Parse<Expr> {
    var (kind, s1) :- DecVarint(s);
    var (a, s2) :- DecOperand(s1);
    if kind == 0 then Some((Term(a), s2))
    else if kind == 1 then
      var (b, s3) :- DecOperand(s2);
      Some((Add(a, b), s3))
    else None
  }

  function CompareOf(tag: nat): CompareOp
    requires tag <= 5
  {
    if tag == 0 then Eq else if tag == 1 then Ne else if tag == 2 then Lt
    else if tag == 3 then Le else if tag == 4 then Gt else Ge
  }

  function DecCondition(s: seq<Byte>): Parse<Condition> {
    var (l, s1) :- DecOperand(s);
    var (op, s2) :- DecVarint(s1);
    if op > 5 then None
    else
      var (r, s3) :- DecOperand(s2);
      Some((Condition(l, CompareOf(op), r), s3))
  }

  function DecRemember(s: seq<Byte>): Parse<Remember> {
    var (v, s1) :- DecByte(s);
    var (e, s2) :- DecExpr(s1);
    Some((Remember(v, e), s2))
  }

  function DecGuard(s: seq<Byte>): Parse<GuardedGoto> {
    var (c, s1) :- DecCondition(s);
    var (t, s2) :- DecByte(s1);
    Some((GuardedGoto(c, t), s2))
  }

  function DecArm(s: seq<Byte>): Parse<EventArm> {
    var (frame, s1) :- DecByte(s);
    var (rs, s2) :- DecList(MAX_REMEMBERS, DecRemember, s1);
    var (gs, s3) :- DecList(MAX_GUARDS, DecGuard, s2);
    var (o, s4) :- DecOption(DecByte, s3);
    Some((EventArm(frame, rs, gs, o), s4))
  }

  /** The type's varint is narrowed to a byte, as the C struct's field is. */
  function DecWriteField(s: seq<Byte>): Parse<WriteField> {
    var (ty, s1) :- DecVarint(s);
    var (v, s2) :- DecOperand(s1);
    Some((WriteField(ty % TWO_8, v), s2))
  }

  function DecWrite(s: seq<Byte>): Parse<WriteAction> {
    var (source, s1) :- DecByte(s);
    var (fields, s2) :- DecList(MAX_WRITE_FIELDS, DecWriteField, s1);
    var (ack, s3) :- DecFlag(s2);
    Some((WriteAction(source, fields, ack), s3))
  }

  function DecTimeout(s: seq<Byte>): Parse<TimeoutArm> {
    var (ms, s1) :- DecVarint(s);
    var (retry, s2) :- DecByte(s1);
    var (target, s3) :- DecByte(s2);
    Some((TimeoutArm(ms % TWO_32, retry, target), s3))
  }

  function DecActive(s: seq<Byte>): Parse<ActiveState> {
    var (w, s1) :- DecOption(DecWrite, s);
    var (arms, s2) :- DecList(MAX_EVENT_ARMS, DecArm, s1);
    var (t, s3) :- DecOption(DecTimeout, s2);
    Some((ActiveState(w, arms, t), s3))
  }

  function DecState(s: seq<Byte>): Parse<State> {
    var (name, s1) :- DecString(s, MAX_STATE_NAME_LEN);
    var (kind, s2) :- DecVarint(s1);
    if kind == 0 then
      var (a, s3) :- DecActive(s2);
      Some((State(name, Active(a)), s3))
    else if kind == 1 then
      var (outcome, s3) :- DecVarint(s2);
      if outcome > 1 then None else Some((State(name, Terminal(outcome == 0)), s3))
    else None
  }

  function DecSelect(s: seq<Byte>): Parse<Select> {
    var (offset, s1) :- DecVarint(s);
    var (eq, s2) :- DecString(s1, MAX_SELECT_LEN);
    Some((Select(offset % TWO_16, eq), s2))
  }

  function DecField(s: seq<Byte>): Parse<ScalarRead> {
    var (_, s1) :- DecSkip(s, 1);
    var (offset, s2) :- DecVarint(s1);
    var (ty, s3) :- DecVarint(s2);
    Some((ScalarRead(offset % TWO_16, ty % TWO_8), s3))
  }

  function DecLength(s: seq<Byte>): Parse<U16> {
    var (n, s1) :- DecVarint(s);
    Some((n % TWO_16, s1))
  }

  function DecSpan(s: seq<Byte>): Parse<SpanRead> {
    var (_, s1) :- DecSkip(s, 1);
    var (offset, s2) :- DecVarint(s1);
    var (n, s3) :- DecOption(DecLength, s2);
    Some((SpanRead(offset % TWO_16, n), s3))
  }

  function DecFrame(s: seq<Byte>): Parse<Frame> {
    var (_, s1) :- DecSkip(s, 1);
    var (source, s2) :- DecByte(s1);
    var (select, s3) :- DecOption(DecSelect, s2);
    var (fields, s4) :- DecList(MAX_FRAME_FIELDS, DecField, s3);
    var (spans, s5) :- DecList(MAX_FRAME_SPANS, DecSpan, s4);
    Some((Frame(source, select, fields, spans), s5))
  }

  function DecSource(s: seq<Byte>): Parse<Source> {
    var (_, s1) :- DecSkip(s, 1);
    var (service, s2) :- DecUuid(s1);
    var (characteristic, s3) :- DecUuid(s2);
    Some((Source(service, characteristic), s3))
  }

  function DecVar(s: seq<Byte>): Parse<I64> {
    var (_, s1) :- DecSkip(s, 1);
    var (n, s2) :- DecSigned(s1);
    Some((n, s2))
  }

  function DecProtocol(s: seq<Byte>): Parse<ProtocolDef> {
    var (_, s1) :- DecSkip(s, 1);
    var (sources, s2) :- DecList(MAX_SOURCES, DecSource, s1);
    var (frames, s3) :- DecList(MAX_FRAMES, DecFrame, s2);
    var (session, s4) :- DecList(MAX_SESSION_VARS, DecVar, s3);
    var (states, s5) :- DecList(MAX_STATES, DecState, s4);
    Some((ProtocolDef(sources, frames, session, states), s5))
  }

  // ---- What survives: everything but the names ------------------------------------------

  function StripField(f: NamedField): ScalarRead {
    f.read
  }

  function StripSpan(sp: NamedSpan): SpanRead {
    sp.read
  }

  function StripFrame(f: NamedFrame): Frame {
    Frame(f.source, f.select, Map(StripField, f.fields), Map(StripSpan, f.spans))
  }

  function StripSource(s: NamedSource): Source {
    s.source
  }

  function StripVar(v: NamedVar): I64 {
    v.initial
  }

  function Same<T>(x: T): T {
    x
  }

  function Strip(m: Manifest): ProtocolDef {
    ProtocolDef(Map(StripSource, m.sources), Map(StripFrame, m.frames), Map(StripVar, m.session), m.states)
  }

  // ---- Sizes a host value can have --------------------------------------------------------

  predicate Countable<T>(xs: seq<T>) {
    |xs| < TWO_64
  }

  predicate ArmCountable(arm: EventArm) {
    Countable(arm.remembers) && Countable(arm.guards)
  }

  predicate StateCountable(s: State) {
    && Countable(s.name)
    && (s.kind.Active? ==>
          var a := s.kind.active;
          && (a.onEnter.Some? ==> Countable(a.onEnter.value.fields))
          && Countable(a.onEvent)
          && forall arm | arm in a.onEvent :: ArmCountable(arm))
  }

  predicate FrameCountable(f: NamedFrame) {
    && Countable(f.name) && Countable(f.fields) && Countable(f.spans)
    && (f.select.Some? ==> Countable(f.select.value.eq))
    && (forall x | x in f.fields :: Countable(x.name))
    && (forall x | x in f.spans :: Countable(x.name))
  }

  /** Every length in the manifest fits the varint that carries it. */
  predicate ManifestCountable(m: Manifest) {
    && Countable(m.name) && Countable(m.sources) && Countable(m.frames) && Countable(m.session)
    && Countable(m.states)
    && (forall x | x in m.sources :: Countable(x.alias))
    && (forall x | x in m.frames :: FrameCountable(x))
    && (forall x | x in m.session :: Countable(x.name))
    && (forall x | x in m.states :: StateCountable(x))
  }

  // ---- The caps -------------------------------------------------------------------------------

  predicate NamedFrameFits(f: NamedFrame) {
    && (f.select.Some? ==> |f.select.value.eq| <= MAX_SELECT_LEN)
    && |f.fields| <= MAX_FRAME_FIELDS
    && |f.spans| <= MAX_FRAME_SPANS
  }

  /** Every count in the manifest is within the bench's own capacity. */
  predicate WithinCaps(m: Manifest) {
    && |m.sources| <= MAX_SOURCES
    && |m.frames| <= MAX_FRAMES
    && |m.session| <= MAX_SESSION_VARS
    && |m.states| <= MAX_STATES
    && (forall f | f in m.frames :: NamedFrameFits(f))
    && (forall s | s in m.states :: StateFits(s))
  }
}
