/** The interpreter: `struct eap_run` and the calls that move it in place. */
module EapInterp {
  import opened Bytes
  import opened Outcomes
  import opened Eap
  import opened EapSemantics
  import Scalars

  class EapRun {
    var def: ProtocolDef
    var session: array<I64>
    var state: nat
    var retries: nat
    var finished: bool

    constructor ()
      ensures fresh(session) && session.Length == MAX_SESSION_VARS
    {
      def := ProtocolDef([], [], [], []);
      session := new I64[MAX_SESSION_VARS](_ => 0);
      state, retries, finished := 0, 0, false;
    }

    ghost predicate Ready()
      reads this, session
    {
      && Eap.Valid(def)
      && session.Length == MAX_SESSION_VARS
      && state < |def.states|
    }

    /** The machine this run stands for. */
    ghost function Machine(): (m: Machine)
      requires Ready()
      reads this, session
      ensures InStep(def, m)
    {
      EapSemantics.Machine(state, session[..|def.sessionInitial|], retries, finished)
    }

    /** `eap_run_start`: -1 for no manifest or an entry state it does not have. */
    method Start(manifest: Option<ProtocolDef>, entry: Byte) returns (status: int)
      requires session.Length == MAX_SESSION_VARS
      requires manifest.Some? ==> Eap.Valid(manifest.value)
      modifies this, session
      ensures session == old(session)
      ensures status == if manifest.None? || entry >= |manifest.value.states| then -1 else 0
      ensures status == -1 ==> unchanged(this) && unchanged(session)
      ensures status == 0 ==> Ready() && def == manifest.value && Machine() == Initial(def, entry)
    {
      if manifest.None? || entry >= |manifest.value.states| {
        return -1;
      }
      def, state, retries, finished := manifest.value, entry, 0, false;
      var n := |def.sessionInitial|;
      var i := 0;
      while i < n
        invariant 0 <= i <= n
        invariant def == manifest.value && state == entry && retries == 0 && !finished
        invariant session == old(session) && session[..i] == def.sessionInitial[..i]
      {
        session[i] := def.sessionInitial[i];
        i := i + 1;
      }
      assert session[..n] == def.sessionInitial;
      return 0;
    }

    // ---- The expression set ---------------------------------------------------------

    method EvalOperand(op: Operand, frame: Option<Frame>, payload: Payload) returns (v: Option<I64>)
      requires Ready()
      ensures v == Resolve(op, Machine().session, frame, payload)
    {
      match op
      case Literal(value) =>
        return Some(value);
      case Session(i) =>
        if i >= |def.sessionInitial| {
          return None;
        }
        return Some(session[i]);
      case Field(i) =>
        if frame.None? || i >= |frame.value.fields| {
          return None;
        }
        var read := frame.value.fields[i];
        if read.offset > |payload| {
          return None;
        }
        v := Scalars.ReadI64(read.ty, payload[read.offset..]);
      case SpanLen(i) =>
        if frame.None? || i >= |frame.value.spans| {
          return None;
        }
        var span := frame.value.spans[i];
        if span.offset > |payload| {
          return None;
        }
        var available := |payload| - span.offset;
        if span.length.None? {
          return Some(available);
        }
        if span.length.value > available {
          return None;
        }
        return Some(span.length.value);
    }

    /** `Add` saturates: each side of the range is tested before the sum is formed. */
    method EvalExpr(e: Expr, frame: Option<Frame>, payload: Payload) returns (v: Option<I64>)
      requires Ready()
      ensures v == Evaluate(e, Machine().session, frame, payload)
    {
      var a := EvalOperand(e.a, frame, payload);
      if a.None? || e.Term? {
        return a;
      }
      var b := EvalOperand(e.b, frame, payload);
      if b.None? {
        return None;
      }
      if b.value > 0 && a.value > INT64_MAX - b.value {
        return Some(INT64_MAX);
      } else if b.value < 0 && a.value < INT64_MIN - b.value {
        return Some(INT64_MIN);
      }
      return Some(a.value + b.value);
    }

    method EvalCondition(c: Condition, frame: Option<Frame>, payload: Payload) returns (b: bool)
      requires Ready()
      ensures b == Holds(c, Machine().session, frame, payload)
      ensures var l := Resolve(c.lhs, Machine().session, frame, payload);
              var r := Resolve(c.rhs, Machine().session, frame, payload);
              b <==> l.Some? && r.Some? && BySign(c.op, l.value - r.value)
    {
      HoldsBySign(c, Machine().session, frame, payload);
      var l := EvalOperand(c.lhs, frame, payload);
      if l.None? {
        return false;
      }
      var r := EvalOperand(c.rhs, frame, payload);
      if r.None? {
        return false;
      }
      match c.op
      case Eq => return l.value == r.value;
      case Ne => return l.value != r.value;
      case Lt => return l.value < r.value;
      case Le => return l.value <= r.value;
      case Gt => return l.value > r.value;
      case Ge => return l.value >= r.value;
    }

    method SelectFrame(source: Byte, payload: Payload) returns (r: Option<nat>)
      requires Ready()
      ensures r.Some? ==> IsSelected(def.frames, source, payload, r.value)
      ensures r.None? ==> forall i | 0 <= i < |def.frames| :: !Takes(def.frames[i], source, payload)
    {
      var i := 0;
      while i < |def.frames|
        invariant 0 <= i <= |def.frames|
        invariant forall j | 0 <= j < i :: !Takes(def.frames[j], source, payload)
      {
        if def.frames[i].source == source && Matches(def.frames[i], payload) {
          return Some(i);
        }
        i := i + 1;
      }
      return None;
    }

    /** `encode_write`: the fields back to back, or false and nothing to send. */
    method EncodeWrite(w: WriteAction, out: array<Byte>) returns (ok: bool, n: nat)
      requires Ready() && WriteFits(w)
      requires out.Length == MAX_WRITE_PAYLOAD_LEN && out as object != session as object
      modifies out
      ensures ok <==> Payloads(w.fields, old(Machine()).session).Some?
      ensures ok ==> n <= out.Length && out[..n] == Payloads(w.fields, old(Machine()).session).value
      ensures Ready() && Machine() == old(Machine())
    {
      hide Scalars.Write, Resolve, Payloads;
      ghost var vars := Machine().session;
      PayloadsStart(w.fields, vars);
      n := 0;
      var i := 0;
      while i < |w.fields|
        invariant 0 <= i <= |w.fields|
        invariant n <= 8 * i
        invariant unchanged(session) && Machine().session == vars
        invariant Payloads(w.fields[..i], vars) == Some(out[..n])
      {
        PayloadsStep(w.fields, i, vars);
        var v := EvalOperand(w.fields[i].value, None, []);
        if v.None? {
          PayloadsStop(w.fields, i, vars);
          return false, 0;
        }
        var ok', written := Scalars.WriteI64(w.fields[i].ty, v.value, out, n);
        if !ok' {
          PayloadsStop(w.fields, i, vars);
          return false, 0;
        }
        n := n + written;
        i := i + 1;
      }
      assert w.fields[..i] == w.fields;
      return true, n;
    }

    // ---- The machine ------------------------------------------------------------------

    /** `on_entered`: the write, the wait or the verdict of the state the run is in. */
    method OnEntered() returns (step: Step)
      requires Ready()
      modifies this`finished
      ensures Ready() && (Machine(), step) == Entered(def, old(Machine()))
    {
      var st := def.states[state];
      assert st in def.states && StateFits(st);
      match st.kind
      case Terminal(pass) =>
        finished := true;
        if pass {
          return Done(CString(st.name), Pass);
        }
        return Done(CString(st.name), Fail(TerminalReason(st.name)));
      case Active(a) =>
        if a.onEnter.None? {
          return Wait(Deadline(a));
        }
        var payload := new Byte[MAX_WRITE_PAYLOAD_LEN](_ => 0);
        var ok, n := EncodeWrite(a.onEnter.value, payload);
        if !ok {
          finished := true;
          return Done(CString(st.name), Fail(Unresolved()));
        }
        return Write(a.onEnter.value.source, a.onEnter.value.withResponse, payload[..n], Deadline(a));
    }

    /** `eap_run_enter`: a fresh entry, with no retries spent. */
    method Enter() returns (step: Step)
      requires Ready()
      modifies this`retries, this`finished
      ensures Ready() && (Machine(), step) == GoTo(def, old(Machine()), old(state))
    {
      retries := 0;
      step := OnEntered();
    }

    method HandleTimeout() returns (step: Step)
      requires Ready() && !finished && def.states[state].kind.Active?
      modifies this`state, this`retries, this`finished
      ensures Ready() && (Machine(), step) == Next(def, old(Machine()), Timeout)
    {
      var a := def.states[state].kind.active;
      assert def.states[state] in def.states;
      if a.onTimeout.None? {
        return Wait(None);
      }
      if retries < a.onTimeout.value.retry {
        retries := retries + 1;
        step := OnEntered();
        return;
      }
      state := a.onTimeout.value.target;
      step := Enter();
    }

    method HandleNotify(source: Byte, payload: Payload) returns (step: Step)
      requires Ready() && !finished && def.states[state].kind.Active?
      modifies this`state, this`retries, this`finished, session
      ensures Ready() && (Machine(), step) == Next(def, old(Machine()), Notify(source, payload))
    {
      var a := def.states[state].kind.active;
      var f := SelectFrame(source, payload);
      if f.None? {
        return Wait(Deadline(a));
      }
      var arm: Option<EventArm> := None;
      var i := 0;
      while i < |a.onEvent|
        invariant 0 <= i <= |a.onEvent|
        invariant arm == None
        invariant forall j | 0 <= j < i :: a.onEvent[j].frame != f.value
      {
        if a.onEvent[i].frame == f.value {
          arm := Some(a.onEvent[i]);
          break;
        }
        i := i + 1;
      }
      if arm.None? {
        return Wait(Deadline(a));
      }
      assert IsFirstArm(a.onEvent, f.value, i);
      var frame := def.frames[f.value];
      ApplyRemembers(arm.value.remembers, frame, payload);
      var target := PickTarget(arm.value, frame, payload);
      TargetInRange(def, state, a, i, Machine().session, frame, payload);
      if target.None? {
        return Wait(Deadline(a));
      }
      state := target.value;
      step := Enter();
    }

    /** The remember loop of `on_notify`: each value is computed from what the ones before it left. */
    method ApplyRemembers(remembers: seq<Remember>, frame: Frame, payload: Payload)
      requires Ready()
      modifies session
      ensures Ready()
      ensures Machine() == old(Machine()).(session := RememberedAll(remembers, old(Machine()).session, frame, payload))
    {
      ghost var vars := Machine().session;
      var i := 0;
      while i < |remembers|
        invariant 0 <= i <= |remembers|
        invariant Ready()
        invariant Machine() == old(Machine()).(session := RememberedAll(remembers[..i], vars, frame, payload))
      {
        assert remembers[..i + 1][..i] == remembers[..i];
        var v := EvalExpr(remembers[i].value, Some(frame), payload);
        if v.Some? {
          if remembers[i].variable < |def.sessionInitial| {
            session[remembers[i].variable] := v.value;
          }
        }
        i := i + 1;
      }
      assert remembers[..i] == remembers;
    }

    /** The guard loop of `on_notify`: first match wins, then `otherwise`. */
    method PickTarget(arm: EventArm, frame: Frame, payload: Payload) returns (target: Option<Byte>)
      requires Ready()
      ensures target == Target(arm, Machine().session, frame, payload)
    {
      target := None;
      var i := 0;
      while i < |arm.guards|
        invariant 0 <= i <= |arm.guards|
        invariant forall j | 0 <= j < i :: !Holds(arm.guards[j].cond, Machine().session, Some(frame), payload)
      {
        var holds := EvalCondition(arm.guards[i].cond, Some(frame), payload);
        if holds {
          return Some(arm.guards[i].target);
        }
        i := i + 1;
      }
      if arm.otherwise.Some? {
        target := arm.otherwise;
      }
    }

    /** `eap_run_on_event`. */
    method OnEvent(ev: Event) returns (step: Step)
      requires Ready()
      modifies this`state, this`retries, this`finished, session
      ensures Ready() && (Machine(), step) == Next(def, old(Machine()), ev)
    {
      if finished {
        return Done(CString(def.states[state].name), Pass);
      }
      if !def.states[state].kind.Active? {
        step := OnEntered();
        return;
      }
      match ev
      case Timeout =>
        step := HandleTimeout();
      case Notify(source, payload) =>
        step := HandleNotify(source, payload);
    }

    /** `eap_run_abandon`: the step's own timeout ran out. */
    method Abandon() returns (step: Step)
      requires Ready()
      modifies this`finished
      ensures Ready() && (Machine(), step) == Abandoned(def, old(Machine()))
    {
      finished := true;
      return Done(CString(def.states[state].name), TimedOut);
    }
  }
}
