/**
 * The resolved `.eap` manifest: one protocol as the bench holds and executes it, with every
 * cross-reference an index and every name but a state's discarded.
 */
module Eap {
  import opened Bytes

  const MAX_SOURCES: nat := 6
  const MAX_FRAMES: nat := 8
  const MAX_FRAME_FIELDS: nat := 8
  const MAX_FRAME_SPANS: nat := 4
  const MAX_SESSION_VARS: nat := 6
  const MAX_STATES: nat := 12
  const MAX_STATE_NAME_LEN: nat := 24
  const MAX_EVENT_ARMS: nat := 2
  const MAX_GUARDS: nat := 2
  const MAX_REMEMBERS: nat := 2
  const MAX_WRITE_FIELDS: nat := 6
  const MAX_SELECT_LEN: nat := 8
  const MAX_FAIL_REASON_LEN: nat := 64
  const MAX_WRITE_PAYLOAD_LEN: nat := MAX_WRITE_FIELDS * 8

  datatype Operand =
    | Literal(value: I64)
    | Field(field: Byte)
    | Session(variable: Byte)
    | SpanLen(span: Byte)

  datatype Expr =
    | Term(a: Operand)
    | Add(a: Operand, b: Operand)

  datatype CompareOp = Eq | Ne | Lt | Le | Gt | Ge

  datatype Condition = Condition(lhs: Operand, op: CompareOp, rhs: Operand)

  datatype Remember = Remember(variable: Byte, value: Expr)

  datatype GuardedGoto = GuardedGoto(cond: Condition, target: Byte)

  /** No `otherwise` leaves the machine where it is; `otherwise` back to this state re-enters it. */
  datatype EventArm = EventArm(frame: Byte, remembers: seq<Remember>, guards: seq<GuardedGoto>,
                               otherwise: Option<Byte>)

  /** `ty` is a scalar type's discriminant, kept as the raw byte the decoder narrowed it to. */
  datatype WriteField = WriteField(ty: Byte, value: Operand)

  datatype WriteAction = WriteAction(source: Byte, fields: seq<WriteField>, withResponse: bool)

  datatype TimeoutArm = TimeoutArm(afterMs: U32, retry: Byte, target: Byte)

  datatype ActiveState = ActiveState(onEnter: Option<WriteAction>, onEvent: seq<EventArm>,
                                     onTimeout: Option<TimeoutArm>)

  datatype StateKind =
    | Active(active: ActiveState)
    | Terminal(pass: bool)

  datatype State = State(name: seq<Byte>, kind: StateKind)

  datatype ScalarRead = ScalarRead(offset: U16, ty: Byte)

  /** No length means the rest of the payload. */
  datatype SpanRead = SpanRead(offset: U16, length: Option<U16>)

  datatype Select = Select(offset: U16, eq: seq<Byte>)

  datatype Frame = Frame(source: Byte, select: Option<Select>, fields: seq<ScalarRead>, spans: seq<SpanRead>)

  datatype Source = Source(service: Uuid, characteristic: Uuid)

  datatype ProtocolDef = ProtocolDef(sources: seq<Source>, frames: seq<Frame>, sessionInitial: seq<I64>,
                                     states: seq<State>)

  // ---- The capacities the decoder enforces ---------------------------------------

  predicate ArmFits(arm: EventArm) {
    |arm.remembers| <= MAX_REMEMBERS && |arm.guards| <= MAX_GUARDS
  }

  predicate WriteFits(w: WriteAction) {
    |w.fields| <= MAX_WRITE_FIELDS
  }

  predicate ActiveFits(a: ActiveState) {
    && (a.onEnter.Some? ==> WriteFits(a.onEnter.value))
    && |a.onEvent| <= MAX_EVENT_ARMS
    && (forall arm | arm in a.onEvent :: ArmFits(arm))
  }

  predicate StateFits(s: State) {
    |s.name| <= MAX_STATE_NAME_LEN && (s.kind.Active? ==> ActiveFits(s.kind.active))
  }

  predicate FrameFits(f: Frame) {
    && (f.select.Some? ==> |f.select.value.eq| <= MAX_SELECT_LEN)
    && |f.fields| <= MAX_FRAME_FIELDS
    && |f.spans| <= MAX_FRAME_SPANS
  }

  /** What a decoded manifest always satisfies. */
  predicate Fits(def: ProtocolDef) {
    && |def.sources| <= MAX_SOURCES
    && |def.frames| <= MAX_FRAMES
    && |def.sessionInitial| <= MAX_SESSION_VARS
    && |def.states| <= MAX_STATES
    && (forall f | f in def.frames :: FrameFits(f))
    && (forall s | s in def.states :: StateFits(s))
  }

  // ---- The ranges the host checks and the decoder does not -----------------------

  predicate ArmTargetsIn(arm: EventArm, states: nat) {
    && (forall g | g in arm.guards :: g.target < states)
    && (arm.otherwise.Some? ==> arm.otherwise.value < states)
  }

  predicate StateTargetsIn(s: State, states: nat) {
    s.kind.Active? ==>
      && (forall arm | arm in s.kind.active.onEvent :: ArmTargetsIn(arm, states))
      && (s.kind.active.onTimeout.Some? ==> s.kind.active.onTimeout.value.target < states)
  }

  /** A manifest whose every goto names a state: what `validate_protocol` lets through. */
  predicate Valid(def: ProtocolDef) {
    Fits(def) && forall s | s in def.states :: StateTargetsIn(s, |def.states|)
  }
}
