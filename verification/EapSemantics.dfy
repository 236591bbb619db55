/**
 * What an `.eap` machine means, stated without loops: the least matching frame, the first arm that
 * names it, remembers folded in order, the first guard that holds.
 */
module EapSemantics {
  import opened Bytes
  import opened Outcomes
  import opened Eap
  import Scalars

  /** A notification's bytes; a `size_t` far below the session variables' range. */
  type Payload = p: seq<Byte> | |p| <= INT64_MAX

  datatype Event =
    | Notify(source: Byte, payload: Payload)
    | Timeout

  /** What the caller does next. A write arms the state's deadline as a wait does. */
  datatype Step =
    | Write(source: Byte, withResponse: bool, payload: seq<Byte>, deadline: Option<U32>)
    | Wait(deadline: Option<U32>)
    | Done(finalState: seq<Byte>, outcome: Outcome)

  datatype Machine = Machine(state: nat, session: seq<I64>, retries: nat, finished: bool)

  // ---- Operands, expressions, conditions -------------------------------------------

  /** None: a reference that does not exist, or a payload too short to contain it. Never a zero. */
  function Resolve(op: Operand, session: seq<I64>, frame: Option<Frame>, payload: Payload): Option<I64> {
    match op
    case Literal(v) => Some(v)
    case Session(i) => if i < |session| then Some(session[i]) else None
    case Field(i) =>
      if frame.None? || i >= |frame.value.fields| then None
      else
        var read := frame.value.fields[i];
        if read.offset > |payload| then None else Scalars.Read(read.ty, payload[read.offset..])
    case SpanLen(i) =>
      if frame.None? || i >= |frame.value.spans| then None
      else SpanLength(frame.value.spans[i], payload)
  }

  function SpanLength(span: SpanRead, payload: Payload): Option<I64> {
    if span.offset > |payload| then None
    else if span.length.None? then Some(|payload| - span.offset)
    else if span.length.value > |payload| - span.offset then None
    else Some(span.length.value)
  }

  function Clamp(n: int): I64 {
    if n > INT64_MAX then INT64_MAX else if n < INT64_MIN then INT64_MIN else n
  }

  function Evaluate(e: Expr, session: seq<I64>, frame: Option<Frame>, payload: Payload): Option<I64> {
    match e
    case Term(a) => Resolve(a, session, frame, payload)
    case Add(a, b) =>
      var x :- Resolve(a, session, frame, payload);
      var y :- Resolve(b, session, frame, payload);
      Some(Clamp(x + y))
  }

  predicate Compare(op: CompareOp, l: int, r: int) {
    match op
    case Eq => l == r
    case Ne => l != r
    case Lt => l < r
    case Le => l <= r
    case Gt => l > r
    case Ge => l >= r
  }

  /** An operand that does not resolve makes the condition false, never true. */
  predicate Holds(c: Condition, session: seq<I64>, frame: Option<Frame>, payload: Payload) {
    var l, r := Resolve(c.lhs, session, frame, payload), Resolve(c.rhs, session, frame, payload);
    l.Some? && r.Some? && Compare(c.op, l.value, r.value)
  }

  /** The comparison as the sign of a difference. */
  predicate BySign(op: CompareOp, difference: int) {
    match op
    case Eq => difference == 0
    case Ne => !(difference == 0)
    case Lt => difference < 0
    case Ge => !(difference < 0)
    case Gt => difference > 0
    case Le => !(difference > 0)
  }

  /** A condition asks for the sign of its left operand less its right one. */
  lemma HoldsBySign(c: Condition, session: seq<I64>, frame: Option<Frame>, payload: Payload)
    ensures var l, r := Resolve(c.lhs, session, frame, payload), Resolve(c.rhs, session, frame, payload);
            Holds(c, session, frame, payload) <==> l.Some? && r.Some? && BySign(c.op, l.value - r.value)
  {
    hide Resolve;
  }

  // ---- Frame selection ----------------------------------------------------------------

  /** The magic lies whole inside the payload, at its offset; no magic matches anything. */
  predicate Matches(f: Frame, payload: seq<Byte>) {
    f.select.Some? ==>
      var m := f.select.value;
      m.offset + |m.eq| <= |payload| && payload[m.offset..m.offset + |m.eq|] == m.eq
  }

  predicate Takes(f: Frame, source: Byte, payload: seq<Byte>) {
    f.source == source && Matches(f, payload)
  }

  /** The least frame index that takes the notification. */
  ghost predicate IsSelected(frames: seq<Frame>, source: Byte, payload: seq<Byte>, i: nat) {
    i < |frames| && Takes(frames[i], source, payload) &&
    forall j | 0 <= j < i :: !Takes(frames[j], source, payload)
  }

  function FrameFor(frames: seq<Frame>, source: Byte, payload: seq<Byte>): (r: Option<nat>)
    ensures r.Some? ==> IsSelected(frames, source, payload, r.value)
    ensures r.None? ==> forall j | 0 <= j < |frames| :: !Takes(frames[j], source, payload)
  {
    if frames == [] then None
    else
      var last := |frames| - 1;
      var earlier := FrameFor(frames[..last], source, payload);
      if earlier.Some? then earlier
      else if Takes(frames[last], source, payload) then
        assert forall j | 0 <= j < last :: frames[j] == frames[..last][j];
        Some(last)
      else
        assert forall j | 0 <= j < last :: frames[j] == frames[..last][j];
        None
  }

  /** The payload shows the frame's magic, if it has any: so many bytes, the magic, and anything. */
  ghost predicate Shows(f: Frame, payload: seq<Byte>) {
    f.select.None?
    || exists before: seq<Byte>, after: seq<Byte> ::
         |before| == f.select.value.offset && before + f.select.value.eq + after == payload
  }

  lemma MatchesExactly(f: Frame, payload: seq<Byte>)
    ensures Matches(f, payload) <==> Shows(f, payload)
  {
    if f.select.Some? {
      var m := f.select.value;
      if Matches(f, payload) {
        assert payload[..m.offset] + m.eq + payload[m.offset + |m.eq|..] == payload;
      }
      if before: seq<Byte>, after: seq<Byte> :| |before| == m.offset && before + m.eq + after == payload {
        assert payload[m.offset..m.offset + |m.eq|] == m.eq;
      }
    }
  }

  /** A notification is the least frame of its own source whose magic it shows, and none only if there is none. */
  lemma FrameForExactly(frames: seq<Frame>, source: Byte, payload: seq<Byte>)
    ensures var r := FrameFor(frames, source, payload);
            && (r.Some? ==> r.value < |frames| && frames[r.value].source == source && Shows(frames[r.value], payload))
            && forall j | 0 <= j < (if r.Some? then r.value else |frames|) ::
                 frames[j].source == source ==> !Shows(frames[j], payload)
  {
    hide Matches, Shows;
    forall f | f in frames { MatchesExactly(f, payload); }
    assert forall j | 0 <= j < |frames| :: frames[j] in frames;
  }

  /** The first arm of the state that names the frame. */
  ghost predicate IsFirstArm(arms: seq<EventArm>, frame: nat, i: nat) {
    i < |arms| && arms[i].frame == frame && forall j | 0 <= j < i :: arms[j].frame != frame
  }

  function ArmFor(arms: seq<EventArm>, frame: nat): (r: Option<nat>)
    ensures r.Some? ==> IsFirstArm(arms, frame, r.value)
    ensures r.None? ==> forall j | 0 <= j < |arms| :: arms[j].frame != frame
  {
    if arms == [] then None
    else if arms[0].frame == frame then Some(0)
    else
      var rest := ArmFor(arms[1..], frame);
      assert forall j | 1 <= j < |arms| :: arms[j] == arms[1..][j - 1];
      if rest.Some? then Some(rest.value + 1) else None
  }

  // ---- Remembers, then guards ------------------------------------------------------------

  /** One `remember`: skipped when its value does not resolve or its variable does not exist. */
  function Remembered(r: Remember, session: seq<I64>, frame: Frame, payload: Payload): (s: seq<I64>)
    ensures |s| == |session|
  {
    var v := Evaluate(r.value, session, Some(frame), payload);
    if v.Some? && r.variable < |session| then session[r.variable := v.value] else session
  }

  /** All of an arm's remembers, each seeing what the ones before it stored. */
  function RememberedAll(rs: seq<Remember>, session: seq<I64>, frame: Frame, payload: Payload): (s: seq<I64>)
    ensures |s| == |session|
    decreases |rs|
  {
    if rs == [] then session
    else
      var last := |rs| - 1;
      Remembered(rs[last], RememberedAll(rs[..last], session, frame, payload), frame, payload)
  }

  ghost predicate IsFirstGuard(guards: seq<GuardedGoto>, session: seq<I64>, frame: Frame, payload: Payload, i: nat) {
    i < |guards| && Holds(guards[i].cond, session, Some(frame), payload) &&
    forall j | 0 <= j < i :: !Holds(guards[j].cond, session, Some(frame), payload)
  }

  function GuardFor(guards: seq<GuardedGoto>, session: seq<I64>, frame: Frame, payload: Payload): (r: Option<nat>)
    ensures r.Some? ==> IsFirstGuard(guards, session, frame, payload, r.value)
    ensures r.None? ==> forall j | 0 <= j < |guards| :: !Holds(guards[j].cond, session, Some(frame), payload)
  {
    if guards == [] then None
    else if Holds(guards[0].cond, session, Some(frame), payload) then Some(0)
    else
      var rest := GuardFor(guards[1..], session, frame, payload);
      assert forall j | 1 <= j < |guards| :: guards[j] == guards[1..][j - 1];
      if rest.Some? then Some(rest.value + 1) else None
  }

  /** The first guard that holds decides; then `otherwise`; else the machine stays put. */
  function Target(arm: EventArm, session: seq<I64>, frame: Frame, payload: Payload): Option<nat> {
    var g := GuardFor(arm.guards, session, frame, payload);
    if g.Some? then Some(arm.guards[g.value].target)
    else if arm.otherwise.Some? then Some(arm.otherwise.value)
    else None
  }

  // ---- Writes -------------------------------------------------------------------------------

  /** An `on_enter` payload: every field resolved and written in order, or nothing at all. */
  function Payloads(fields: seq<WriteField>, session: seq<I64>): Option<seq<Byte>>
    decreases |fields|
  {
    if fields == [] then Some([])
    else
      var last := |fields| - 1;
      var before :- Payloads(fields[..last], session);
      var v :- Resolve(fields[last].value, session, None, []);
      var bytes :- Scalars.Write(fields[last].ty, v);
      Some(before + bytes)
  }

  lemma {:induction false} PayloadLength(fields: seq<WriteField>, session: seq<I64>)
    ensures Payloads(fields, session).Some? ==> |Payloads(fields, session).value| <= 8 * |fields|
    decreases |fields|
  {
    if fields != [] {
      PayloadLength(fields[..|fields| - 1], session);
    }
  }

  lemma PayloadsStart(fields: seq<WriteField>, session: seq<I64>)
    ensures Payloads(fields[..0], session) == Some([])
  {
  }

  lemma PayloadsStep(fields: seq<WriteField>, i: nat, session: seq<I64>)
    requires i < |fields| && Payloads(fields[..i], session).Some?
    ensures var v := Resolve(fields[i].value, session, None, []);
            Payloads(fields[..i + 1], session)
            == if v.None? || Scalars.Write(fields[i].ty, v.value).None? then None
               else Some(Payloads(fields[..i], session).value + Scalars.Write(fields[i].ty, v.value).value)
  {
    hide Scalars.Write, Resolve;
    assert fields[..i + 1][..i] == fields[..i];
  }

  /** A field that does not resolve stops the whole payload. */
  lemma {:induction false} PayloadsStop(fields: seq<WriteField>, i: nat, session: seq<I64>)
    requires i < |fields| && Payloads(fields[..i + 1], session).None?
    ensures Payloads(fields, session).None?
    decreases |fields|
  {
    hide Scalars.Write, Resolve;
    var last := |fields| - 1;
    if i < last {
      assert fields[..last][..i + 1] == fields[..i + 1];
      PayloadsStop(fields[..last], i, session);
    } else {
      assert fields[..i + 1] == fields;
    }
  }

  // ---- Texts --------------------------------------------------------------------------------

  function Ascii(text: string): (s: seq<Byte>)
    ensures |s| == |text|
  {
    seq(|text|, i requires 0 <= i < |text| => if text[i] as int < 128 then text[i] as int else 63)
  }

  /** A C string: the bytes before the first NUL. */
  function CString(s: seq<Byte>): (c: seq<Byte>)
    ensures |c| <= |s| && c == s[..|c|] && 0 !in c
    ensures |c| < |s| ==> s[|c|] == 0
    ensures 0 !in s ==> c == s
  {
    if s == [] || s[0] == 0 then [] else [s[0]] + CString(s[1..])
  }

  function Clip(s: seq<Byte>, cap: nat): seq<Byte> {
    if |s| <= cap then s else s[..cap]
  }

  function TerminalReason(name: seq<Byte>): (r: seq<Byte>)
    ensures |r| <= MAX_FAIL_REASON_LEN
  {
    Ascii("protocol reached terminal state ") + Clip(CString(name), MAX_FAIL_REASON_LEN - 32)
  }

  function Unresolved(): (r: seq<Byte>)
    ensures |r| <= MAX_FAIL_REASON_LEN
  {
    Ascii("protocol write operand did not resolve")
  }

  // ---- The machine ----------------------------------------------------------------------------

  predicate InStep(def: ProtocolDef, m: Machine) {
    m.state < |def.states| && |m.session| == |def.sessionInitial|
  }

  function Initial(def: ProtocolDef, entry: nat): Machine {
    Machine(entry, def.sessionInitial, 0, false)
  }

  function NameOf(def: ProtocolDef, m: Machine): seq<Byte>
    requires m.state < |def.states|
  {
    CString(def.states[m.state].name)
  }

  function Deadline(a: ActiveState): Option<U32> {
    if a.onTimeout.Some? then Some(a.onTimeout.value.afterMs) else None
  }

  /** Entering the current state, whether for the first time or as a retry. */
  function Entered(def: ProtocolDef, m: Machine): (Machine, Step)
    requires m.state < |def.states|
  {
    match def.states[m.state].kind
    case Terminal(pass) =>
      (m.(finished := true),
       Done(NameOf(def, m), if pass then Pass else Fail(TerminalReason(def.states[m.state].name))))
    case Active(a) =>
      if a.onEnter.None? then (m, Wait(Deadline(a)))
      else
        var w, bytes := a.onEnter.value, Payloads(a.onEnter.value.fields, m.session);
        if bytes.None? then (m.(finished := true), Done(NameOf(def, m), Fail(Unresolved())))
        else (m, Write(w.source, w.withResponse, bytes.value, Deadline(a)))
  }

  /** A transition resets the retry counter; a retry does not. */
  function GoTo(def: ProtocolDef, m: Machine, target: nat): (Machine, Step)
    requires target < |def.states|
  {
    Entered(def, m.(state := target, retries := 0))
  }

  function OnTimeout(def: ProtocolDef, m: Machine, a: ActiveState): (Machine, Step)
    requires Valid(def) && InStep(def, m) && def.states[m.state].kind == Active(a)
  {
    assert def.states[m.state] in def.states;
    if a.onTimeout.None? then (m, Wait(None))
    else if m.retries < a.onTimeout.value.retry then Entered(def, m.(retries := m.retries + 1))
    else GoTo(def, m, a.onTimeout.value.target)
  }

  function OnNotify(def: ProtocolDef, m: Machine, a: ActiveState, source: Byte, payload: Payload): (Machine, Step)
    requires Valid(def) && InStep(def, m) && def.states[m.state].kind == Active(a)
  {
    var f := FrameFor(def.frames, source, payload);
    if f.None? then (m, Wait(Deadline(a)))
    else
      var i := ArmFor(a.onEvent, f.value);
      if i.None? then (m, Wait(Deadline(a)))
      else
        var arm, frame := a.onEvent[i.value], def.frames[f.value];
        var session := RememberedAll(arm.remembers, m.session, frame, payload);
        var target := Target(arm, session, frame, payload);
        TargetInRange(def, m.state, a, i.value, session, frame, payload);
        if target.None? then (m.(session := session), Wait(Deadline(a)))
        else GoTo(def, m.(session := session), target.value)
  }

  lemma TargetInRange(def: ProtocolDef, s: nat, a: ActiveState, i: nat, session: seq<I64>, frame: Frame,
                      payload: Payload)
    requires Valid(def) && s < |def.states| && def.states[s].kind == Active(a) && i < |a.onEvent|
    ensures var t := Target(a.onEvent[i], session, frame, payload); t.Some? ==> t.value < |def.states|
  {
    assert def.states[s] in def.states && a.onEvent[i] in a.onEvent;
    assert StateTargetsIn(def.states[s], |def.states|);
    assert ArmTargetsIn(a.onEvent[i], |def.states|);
    var g := GuardFor(a.onEvent[i].guards, session, frame, payload);
    if g.Some? {
      assert a.onEvent[i].guards[g.value] in a.onEvent[i].guards;
    }
  }

  /**
   * One event. A finished run answers Pass whatever its verdict was: that is why no caller may feed
   * it again.
   */
  function Next(def: ProtocolDef, m: Machine, ev: Event): (r: (Machine, Step))
    requires Valid(def) && InStep(def, m)
  {
    if m.finished then (m, Done(NameOf(def, m), Pass))
    else
      match def.states[m.state].kind
      case Terminal(_) => Entered(def, m)
      case Active(a) =>
        match ev
        case Timeout => OnTimeout(def, m, a)
        case Notify(source, payload) => OnNotify(def, m, a, source, payload)
  }

  function Abandoned(def: ProtocolDef, m: Machine): (Machine, Step)
    requires m.state < |def.states|
  {
    (m.(finished := true), Done(NameOf(def, m), TimedOut))
  }
}
