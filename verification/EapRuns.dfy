/** What holds over whole runs of an `.eap` machine, for every valid manifest and event sequence. */
module EapRuns {
  import opened Bytes
  import opened Outcomes
  import opened Eap
  import opened EapSemantics
  import Scalars

  /** A run that has been entered and then fed `events`. */
  function Run(def: ProtocolDef, m: Machine, events: seq<Event>): (r: Machine)
    requires Eap.Valid(def) && InStep(def, m)
    ensures InStep(def, r)
    decreases |events|
  {
    if events == [] then m
    else
      var before := Run(def, m, events[..|events| - 1]);
      NextStaysIn(def, before, events[|events| - 1]);
      Next(def, before, events[|events| - 1]).0
  }

  lemma NextStaysIn(def: ProtocolDef, m: Machine, ev: Event)
    requires Eap.Valid(def) && InStep(def, m)
    ensures InStep(def, Next(def, m, ev).0)
  {
    if !m.finished && def.states[m.state].kind.Active? {
      var a := def.states[m.state].kind.active;
      assert def.states[m.state] in def.states;
      if ev.Notify? {
        var f := FrameFor(def.frames, ev.source, ev.payload);
        if f.Some? {
          var i := ArmFor(a.onEvent, f.value);
          if i.Some? {
            var session := RememberedAll(a.onEvent[i.value].remembers, m.session, def.frames[f.value], ev.payload);
            TargetInRange(def, m.state, a, i.value, session, def.frames[f.value], ev.payload);
          }
        }
      }
    }
  }

  // ---- Safety: what every reachable machine and every step keep ------------------------

  function RetryOf(s: State): nat {
    if s.kind.Active? && s.kind.active.onTimeout.Some? then s.kind.active.onTimeout.value.retry else 0
  }

  /** Retries never pass the state's own, and only an active state is ever waited in. */
  predicate Safe(def: ProtocolDef, m: Machine) {
    && InStep(def, m)
    && m.retries <= RetryOf(def.states[m.state])
    && (!m.finished ==> def.states[m.state].kind.Active?)
  }

  /** A write goes to the state's own source, within the payload buffer; a verdict names the state. */
  predicate SafeStep(def: ProtocolDef, m: Machine, step: Step)
    requires InStep(def, m)
  {
    match step
    case Write(source, withResponse, payload, _) =>
      && |payload| <= MAX_WRITE_PAYLOAD_LEN
      && def.states[m.state].kind.Active?
      && def.states[m.state].kind.active.onEnter.Some?
      && var w := def.states[m.state].kind.active.onEnter.value;
         source == w.source && withResponse == w.withResponse && Payloads(w.fields, m.session) == Some(payload)
    case Wait(_) => !m.finished
    case Done(name, _) => m.finished && name == NameOf(def, m)
  }

  lemma EnteredIsSafe(def: ProtocolDef, m: Machine)
    requires Eap.Valid(def) && InStep(def, m) && !m.finished
    requires m.retries <= RetryOf(def.states[m.state])
    ensures Safe(def, Entered(def, m).0) && SafeStep(def, Entered(def, m).0, Entered(def, m).1)
    ensures Entered(def, m).0 == m.(finished := Entered(def, m).0.finished)
  {
    var st := def.states[m.state];
    assert st in def.states && StateFits(st);
    if st.kind.Active? && st.kind.active.onEnter.Some? {
      PayloadLength(st.kind.active.onEnter.value.fields, m.session);
    }
  }

  lemma NextIsSafe(def: ProtocolDef, m: Machine, ev: Event)
    requires Eap.Valid(def) && Safe(def, m)
    ensures Safe(def, Next(def, m, ev).0) && SafeStep(def, Next(def, m, ev).0, Next(def, m, ev).1)
  {
    NextStaysIn(def, m, ev);
    if !m.finished {
      var a := def.states[m.state].kind.active;
      assert def.states[m.state] in def.states;
      match ev
      case Timeout =>
        if a.onTimeout.Some? {
          if m.retries < a.onTimeout.value.retry {
            EnteredIsSafe(def, m.(retries := m.retries + 1));
          } else {
            EnteredIsSafe(def, m.(state := a.onTimeout.value.target, retries := 0));
          }
        }
      case Notify(source, payload) =>
        var f := FrameFor(def.frames, source, payload);
        if f.Some? {
          var i := ArmFor(a.onEvent, f.value);
          if i.Some? {
            var frame := def.frames[f.value];
            var session := RememberedAll(a.onEvent[i.value].remembers, m.session, frame, payload);
            TargetInRange(def, m.state, a, i.value, session, frame, payload);
            var t := Target(a.onEvent[i.value], session, frame, payload);
            if t.Some? {
              EnteredIsSafe(def, m.(session := session, state := t.value, retries := 0));
            }
          }
        }
    }
  }

  /** The machine a caller holds after entering at `entry` and feeding `events`. */
  function Reached(def: ProtocolDef, entry: nat, events: seq<Event>): Machine
    requires Eap.Valid(def) && entry < |def.states|
  {
    Run(def, Entered(def, Initial(def, entry)).0, events)
  }

  lemma {:induction false} ReachedIsSafe(def: ProtocolDef, entry: nat, events: seq<Event>)
    requires Eap.Valid(def) && entry < |def.states|
    ensures Safe(def, Reached(def, entry, events))
    decreases |events|
  {
    var m := Entered(def, Initial(def, entry)).0;
    EnteredIsSafe(def, Initial(def, entry));
    if events != [] {
      ReachedIsSafe(def, entry, events[..|events| - 1]);
      NextIsSafe(def, Run(def, m, events[..|events| - 1]), events[|events| - 1]);
    }
  }

  // ---- The end of a run ------------------------------------------------------------------

  /** After the end neither state nor session moves again. */
  lemma {:induction false} FinishedIsStable(def: ProtocolDef, m: Machine, events: seq<Event>)
    requires Eap.Valid(def) && InStep(def, m) && m.finished
    ensures Run(def, m, events) == m
    decreases |events|
  {
    if events != [] {
      FinishedIsStable(def, m, events[..|events| - 1]);
    }
  }

  /**
   * The verdict is another matter. Feeding a finished run repeats its verdict exactly when that
   * verdict was Pass: a caller must not ask twice.
   */
  lemma VerdictRepeatsOnlyIfPass(def: ProtocolDef, m: Machine, ev: Event, again: Event)
    requires Eap.Valid(def) && Safe(def, m) && !m.finished
    requires Next(def, m, ev).1.Done?
    ensures var (m', verdict) := Next(def, m, ev);
            InStep(def, m') && (Next(def, m', again) == (m', verdict) <==> verdict.outcome.Pass?)
  {
    NextIsSafe(def, m, ev);
  }

  /** A failed run that answers Pass when it is fed once more. */
  lemma FailedRunAnswersPass()
    ensures var def := ProtocolDef([], [], [], [State([], Terminal(false))]);
            && Eap.Valid(def)
            && Entered(def, Initial(def, 0)).1.outcome.Fail?
            && Next(def, Entered(def, Initial(def, 0)).0, Timeout).1 == Done([], Pass)
  {
    var def := ProtocolDef([], [], [], [State([], Terminal(false))]);
    assert Eap.Valid(def);
  }

  /** The reason a terminal state reports is never cut: a state name leaves room to spare. */
  lemma TerminalReasonWhole(def: ProtocolDef, s: nat)
    requires Fits(def) && s < |def.states|
    ensures TerminalReason(def.states[s].name)
            == Ascii("protocol reached terminal state ") + CString(def.states[s].name)
  {
    assert def.states[s] in def.states;
  }

  // ---- Silence terminates -------------------------------------------------------------------

  function TimeoutTarget(s: State): nat
    requires s.kind.Active? && s.kind.active.onTimeout.Some?
  {
    s.kind.active.onTimeout.value.target
  }

  predicate EveryStateTimesOut(def: ProtocolDef) {
    forall s | 0 <= s < |def.states| ::
      def.states[s].kind.Active? ==> def.states[s].kind.active.onTimeout.Some?
  }

  /** `rank` falls along every timeout goto: there is no cycle of them. */
  predicate Descends(def: ProtocolDef, rank: seq<nat>)
    requires Eap.Valid(def) && EveryStateTimesOut(def)
  {
    && |rank| == |def.states|
    && forall s | 0 <= s < |def.states| && def.states[s].kind.Active? ::
         TimeoutTarget(def.states[s]) < |rank| && rank[TimeoutTarget(def.states[s])] < rank[s]
  }

  function Expiries(s: State): nat {
    if s.kind.Active? then RetryOf(s) + 1 else 0
  }

  /** The sum of retry + 1 over the active states among the first `n`. */
  function TotalExpiries(states: seq<State>, n: nat): nat
    requires n <= |states|
  {
    if n == 0 then 0 else TotalExpiries(states, n - 1) + Expiries(states[n - 1])
  }

  /** The same sum over the states of rank at most `bound`. */
  function RankedExpiries(states: seq<State>, rank: seq<nat>, bound: int, n: nat): nat
    requires n <= |states| == |rank|
  {
    if n == 0 then 0
    else RankedExpiries(states, rank, bound, n - 1) + (if rank[n - 1] <= bound then Expiries(states[n - 1]) else 0)
  }

  /** Expiries along the chain of timeout gotos from `s`. */
  function ChainExpiries(def: ProtocolDef, rank: seq<nat>, s: nat): nat
    requires Eap.Valid(def) && EveryStateTimesOut(def) && Descends(def, rank) && s < |def.states|
    decreases rank[s]
  {
    if def.states[s].kind.Terminal? then 0
    else Expiries(def.states[s]) + ChainExpiries(def, rank, TimeoutTarget(def.states[s]))
  }

  lemma {:induction false} RankedAtMostTotal(states: seq<State>, rank: seq<nat>, bound: int, n: nat)
    requires n <= |states| == |rank|
    ensures RankedExpiries(states, rank, bound, n) <= TotalExpiries(states, n)
    decreases n
  {
    if n > 0 {
      RankedAtMostTotal(states, rank, bound, n - 1);
    }
  }

  lemma {:induction false} RankedSplits(states: seq<State>, rank: seq<nat>, s: nat, low: int, n: nat)
    requires s < |states| == |rank| && n <= |states| && low < rank[s]
    ensures RankedExpiries(states, rank, rank[s], n)
            >= RankedExpiries(states, rank, low, n) + (if s < n then Expiries(states[s]) else 0)
    decreases n
  {
    if n > 0 {
      RankedSplits(states, rank, s, low, n - 1);
    }
  }

  lemma {:induction false} ChainAtMostRanked(def: ProtocolDef, rank: seq<nat>, s: nat)
    requires Eap.Valid(def) && EveryStateTimesOut(def) && Descends(def, rank) && s < |def.states|
    ensures ChainExpiries(def, rank, s) <= RankedExpiries(def.states, rank, rank[s], |def.states|)
    decreases rank[s]
  {
    if def.states[s].kind.Active? {
      var t := TimeoutTarget(def.states[s]);
      ChainAtMostRanked(def, rank, t);
      RankedSplits(def.states, rank, s, rank[t], |def.states|);
    }
  }

  function Silence(n: nat): (events: seq<Event>)
    ensures |events| == n && forall e | e in events :: e == Timeout
  {
    seq(n, _ => Timeout)
  }

  /** Expiries still to come before the machine must have ended. */
  function Remaining(def: ProtocolDef, rank: seq<nat>, m: Machine): nat
    requires Eap.Valid(def) && EveryStateTimesOut(def) && Descends(def, rank) && Safe(def, m)
  {
    if m.finished then 0
    else
      var s := def.states[m.state];
      RetryOf(s) - m.retries + 1 + ChainExpiries(def, rank, TimeoutTarget(s))
  }

  lemma TimeoutAdvances(def: ProtocolDef, rank: seq<nat>, m: Machine)
    requires Eap.Valid(def) && EveryStateTimesOut(def) && Descends(def, rank) && Safe(def, m) && !m.finished
    ensures var m' := Next(def, m, Timeout).0;
            Safe(def, m') && Remaining(def, rank, m') < Remaining(def, rank, m)
  {
    NextIsSafe(def, m, Timeout);
    var a := def.states[m.state].kind.active;
    assert def.states[m.state] in def.states;
    if m.retries < a.onTimeout.value.retry {
      EnteredIsSafe(def, m.(retries := m.retries + 1));
    } else {
      EnteredIsSafe(def, m.(state := a.onTimeout.value.target, retries := 0));
    }
  }

  lemma {:induction false} SilenceEnds(def: ProtocolDef, rank: seq<nat>, m: Machine, n: nat)
    requires Eap.Valid(def) && EveryStateTimesOut(def) && Descends(def, rank) && Safe(def, m)
    ensures var r := Run(def, m, Silence(n));
            Safe(def, r) && (r.finished || Remaining(def, rank, r) + n <= Remaining(def, rank, m))
    decreases n
  {
    if n > 0 {
      assert Silence(n)[..n - 1] == Silence(n - 1);
      SilenceEnds(def, rank, m, n - 1);
      var before := Run(def, m, Silence(n - 1));
      if !before.finished {
        TimeoutAdvances(def, rank, before);
      }
    }
  }

  /**
   * If every active state times out and no timeout gotos form a cycle, timeouts alone end the run
   * within the sum of retry + 1 over the active states.
   */
  lemma SilenceTerminates(def: ProtocolDef, rank: seq<nat>, entry: nat)
    requires Eap.Valid(def) && EveryStateTimesOut(def) && Descends(def, rank) && entry < |def.states|
    ensures Reached(def, entry, Silence(TotalExpiries(def.states, |def.states|))).finished
  {
    var m := Entered(def, Initial(def, entry)).0;
    EnteredIsSafe(def, Initial(def, entry));
    var n := TotalExpiries(def.states, |def.states|);
    SilenceEnds(def, rank, m, n);
    ChainAtMostRanked(def, rank, entry);
    RankedAtMostTotal(def.states, rank, rank[entry], |def.states|);
    var r := Run(def, m, Silence(n));
    assert !m.finished ==> Remaining(def, rank, m) == ChainExpiries(def, rank, entry);
    RemainingIsPositive(def, rank, r);
  }

  lemma RemainingIsPositive(def: ProtocolDef, rank: seq<nat>, m: Machine)
    requires Eap.Valid(def) && EveryStateTimesOut(def) && Descends(def, rank) && Safe(def, m)
    ensures m.finished || Remaining(def, rank, m) >= 1
  {
  }

  /** A state entered just now that writes: no retries spent yet. */
  predicate FreshWriter(def: ProtocolDef, m: Machine) {
    && Eap.Valid(def) && Safe(def, m) && !m.finished && m.retries == 0
    && def.states[m.state].kind.active.onTimeout.Some?
    && Entered(def, m).1.Write?
  }

  lemma RetryStep(def: ProtocolDef, m: Machine, k: nat)
    requires FreshWriter(def, m) && k < RetryOf(def.states[m.state])
    ensures Next(def, m.(retries := k), Timeout) == (m.(retries := k + 1), Entered(def, m).1)
  {
  }

  lemma {:induction false} SilenceSpendsRetries(def: ProtocolDef, m: Machine, k: nat)
    requires FreshWriter(def, m) && k <= RetryOf(def.states[m.state])
    ensures Run(def, m, Silence(k)) == m.(retries := k)
    decreases k
  {
    hide Next, Entered, Safe;
    if k > 0 {
      assert Silence(k)[..k - 1] == Silence(k - 1);
      SilenceSpendsRetries(def, m, k - 1);
      RetryStep(def, m, k - 1);
    }
  }

  /**
   * Retry means "send it again": a freshly entered state repeats the identical write for each of
   * its first `retry` expiries, so `retry + 1` times in all, and the next expiry takes its goto.
   */
  lemma RetryRepeatsTheWrite(def: ProtocolDef, m: Machine, k: nat)
    requires FreshWriter(def, m) && k <= RetryOf(def.states[m.state])
    ensures TimeoutTarget(def.states[m.state]) < |def.states|
    ensures var (m', step) := Next(def, Run(def, m, Silence(k)), Timeout);
            if k < RetryOf(def.states[m.state])
            then m' == m.(retries := k + 1) && step == Entered(def, m).1
            else (m', step) == GoTo(def, m, TimeoutTarget(def.states[m.state]))
  {
    assert def.states[m.state] in def.states;
    hide Next, Entered, Safe;
    SilenceSpendsRetries(def, m, k);
    if k < RetryOf(def.states[m.state]) {
      RetryStep(def, m, k);
    } else {
      RetriesSpent(def, m);
    }
  }

  lemma RetriesSpent(def: ProtocolDef, m: Machine)
    requires FreshWriter(def, m)
    ensures TimeoutTarget(def.states[m.state]) < |def.states|
    ensures Next(def, m.(retries := RetryOf(def.states[m.state])), Timeout)
            == GoTo(def, m, TimeoutTarget(def.states[m.state]))
  {
    assert def.states[m.state] in def.states;
  }

  /** A run abandoned is over where it sat, timed out, and no event moves it again. */
  lemma AbandonedIsOver(def: ProtocolDef, m: Machine, events: seq<Event>)
    requires Eap.Valid(def) && InStep(def, m)
    ensures var (over, step) := Abandoned(def, m);
            && step == Done(NameOf(def, m), TimedOut)
            && Run(def, over, events).state == m.state && Run(def, over, events).session == m.session
            && Run(def, over, events).finished
  {
    hide Eap.Valid, Next;
    FinishedIsStable(def, Abandoned(def, m).0, events);
  }

  /** A remember sees what the one before it stored: `v = n; w = v` makes `w` what `v` was made. */
  lemma RememberSeesTheOneBefore(session: seq<I64>, frame: Frame, payload: Payload, v: Byte, w: Byte, n: I64)
    requires v < |session| && w < |session|
    ensures var after := RememberedAll([Remember(v, Term(Literal(n))), Remember(w, Term(Session(v)))], session, frame,
                                       payload);
            after == session[v := n][w := n]
  {
    var rs := [Remember(v, Term(Literal(n))), Remember(w, Term(Session(v)))];
    assert rs[..1] == [rs[0]] && rs[..1][..0] == [];
    assert RememberedAll(rs[..1], session, frame, payload) == session[v := n];
  }

  /** A span is as long as it declares, if the payload holds that much from its offset on, and else has no length. */
  lemma SpanIsInside(span: SpanRead, payload: Payload)
    ensures SpanLength(span, payload).Some? <==>
              span.offset + (if span.length.Some? then span.length.value else 0) <= |payload|
    ensures SpanLength(span, payload).Some? ==>
              var n := SpanLength(span, payload).value;
              if span.length.Some? then n == span.length.value else span.offset + n == |payload|
  {
  }

  // ---- The pump counter ------------------------------------------------------------------

  predicate CountsSpans(r: Remember, v: Byte) {
    r.variable == v ==> r.value.Add? && r.value.a == Session(v) && r.value.b.SpanLen?
  }

  /** Every remember on `v` has the form `v = v + len(span)`. */
  predicate IsPumpCounter(def: ProtocolDef, v: Byte) {
    forall s | s in def.states && s.kind.Active? ::
      forall arm | arm in s.kind.active.onEvent ::
        forall r | r in arm.remembers :: CountsSpans(r, v)
  }

  /** The span length one remember adds to `v`, 0 when it does not resolve or is on another variable. */
  function SpanOf(r: Remember, v: Byte, frame: Frame, payload: Payload): nat {
    if r.variable != v || !r.value.Add? || !r.value.b.SpanLen? || r.value.b.span >= |frame.spans| then 0
    else
      var span := frame.spans[r.value.b.span];
      if span.length.Some? then if |payload| < span.offset + span.length.value then 0 else span.length.value
      else if |payload| < span.offset then 0 else |payload| - span.offset
  }

  function SpansOf(rs: seq<Remember>, v: Byte, frame: Frame, payload: Payload): nat
    decreases |rs|
  {
    if rs == [] then 0
    else SpansOf(rs[..|rs| - 1], v, frame, payload) + SpanOf(rs[|rs| - 1], v, frame, payload)
  }

  /** The bytes an event hands to the counter: those of the arm that consumes it, if one does. */
  function Pumped(def: ProtocolDef, m: Machine, ev: Event, v: Byte): nat
    requires Eap.Valid(def) && InStep(def, m)
  {
    if m.finished || def.states[m.state].kind.Terminal? || ev.Timeout? then 0
    else
      var f := FrameFor(def.frames, ev.source, ev.payload);
      if f.None? then 0
      else
        var i := ArmFor(def.states[m.state].kind.active.onEvent, f.value);
        if i.None? then 0
        else
          SpansOf(def.states[m.state].kind.active.onEvent[i.value].remembers, v, def.frames[f.value], ev.payload)
  }

  function TotalPumped(def: ProtocolDef, m: Machine, events: seq<Event>, v: Byte): nat
    requires Eap.Valid(def) && InStep(def, m)
    decreases |events|
  {
    if events == [] then 0
    else
      var before := events[..|events| - 1];
      TotalPumped(def, m, before, v) + Pumped(def, Run(def, m, before), events[|events| - 1], v)
  }

  function Capped(n: int): int {
    if n > INT64_MAX then INT64_MAX else n
  }

  lemma {:induction false} RemembersCount(rs: seq<Remember>, session: seq<I64>, v: Byte, frame: Frame, payload: Payload)
    requires v < |session|
    requires forall r | r in rs :: CountsSpans(r, v)
    ensures RememberedAll(rs, session, frame, payload)[v] == Capped(session[v] + SpansOf(rs, v, frame, payload))
    decreases |rs|
  {
    if rs != [] {
      var last := |rs| - 1;
      RemembersCount(rs[..last], session, v, frame, payload);
      assert rs[last] in rs;
      if SpanOf(rs[last], v, frame, payload) > 0 { SpanIsInside(frame.spans[rs[last].value.b.span], payload); }
    }
  }

  lemma EnteredKeepsSession(def: ProtocolDef, m: Machine)
    requires m.state < |def.states|
    ensures Entered(def, m).0.session == m.session
  {
  }

  /** Only a notification that some arm consumes changes a session variable. */
  lemma SessionAfter(def: ProtocolDef, m: Machine, ev: Event)
    requires Eap.Valid(def) && InStep(def, m)
    ensures Next(def, m, ev).0.session
            == if m.finished || def.states[m.state].kind.Terminal? || ev.Timeout? then m.session
               else
                 var a, f := def.states[m.state].kind.active, FrameFor(def.frames, ev.source, ev.payload);
                 if f.None? || ArmFor(a.onEvent, f.value).None? then m.session
                 else RememberedAll(a.onEvent[ArmFor(a.onEvent, f.value).value].remembers, m.session,
                                    def.frames[f.value], ev.payload)
  {
    hide FrameFor, ArmFor, RememberedAll, Target, Entered;
    if !m.finished {
      if def.states[m.state].kind.Terminal? {
        EnteredKeepsSession(def, m);
      } else {
        var a := def.states[m.state].kind.active;
        match ev
        case Timeout => TimeoutKeepsSession(def, m, a);
        case Notify(source, payload) => NotifyRemembers(def, m, a, source, payload);
      }
    }
  }

  lemma TimeoutKeepsSession(def: ProtocolDef, m: Machine, a: ActiveState)
    requires Eap.Valid(def) && InStep(def, m) && def.states[m.state].kind == Active(a)
    ensures OnTimeout(def, m, a).0.session == m.session
  {
    hide Entered;
    assert def.states[m.state] in def.states;
    if a.onTimeout.Some? {
      EnteredKeepsSession(def, m.(retries := m.retries + 1));
      EnteredKeepsSession(def, m.(state := a.onTimeout.value.target, retries := 0));
    }
  }

  lemma NotifyRemembers(def: ProtocolDef, m: Machine, a: ActiveState, source: Byte, payload: Payload)
    requires Eap.Valid(def) && InStep(def, m) && def.states[m.state].kind == Active(a)
    ensures var f := FrameFor(def.frames, source, payload);
            OnNotify(def, m, a, source, payload).0.session
            == if f.None? || ArmFor(a.onEvent, f.value).None? then m.session
               else RememberedAll(a.onEvent[ArmFor(a.onEvent, f.value).value].remembers, m.session,
                                  def.frames[f.value], payload)
  {
    hide FrameFor, ArmFor, RememberedAll, Target, Entered;
    var f := FrameFor(def.frames, source, payload);
    if f.Some? {
      var i := ArmFor(a.onEvent, f.value);
      if i.Some? {
        var arm, frame := a.onEvent[i.value], def.frames[f.value];
        var session := RememberedAll(arm.remembers, m.session, frame, payload);
        TargetInRange(def, m.state, a, i.value, session, frame, payload);
        var target := Target(arm, session, frame, payload);
        if target.Some? {
          EnteredKeepsSession(def, m.(session := session, state := target.value, retries := 0));
        }
      }
    }
  }

  lemma NextCounts(def: ProtocolDef, m: Machine, ev: Event, v: Byte)
    requires Eap.Valid(def) && InStep(def, m) && v < |m.session|
    requires IsPumpCounter(def, v)
    ensures var m' := Next(def, m, ev).0;
            |m'.session| == |m.session| && m'.session[v] == Capped(m.session[v] + Pumped(def, m, ev, v))
  {
    hide Next, FrameFor, ArmFor, RememberedAll, SpansOf, Eap.Valid;
    SessionAfter(def, m, ev);
    if !m.finished && def.states[m.state].kind.Active? && ev.Notify? {
      var a := def.states[m.state].kind.active;
      assert def.states[m.state] in def.states;
      var f := FrameFor(def.frames, ev.source, ev.payload);
      if f.Some? {
        var i := ArmFor(a.onEvent, f.value);
        if i.Some? {
          assert a.onEvent[i.value] in a.onEvent;
          RemembersCount(a.onEvent[i.value].remembers, m.session, v, def.frames[f.value], ev.payload);
        }
      }
    }
  }

  /**
   * After any events the counter is the initial value plus every byte its arms consumed, capped at
   * INT64_MAX: it neither wraps nor decreases.
   */
  lemma {:induction false} PumpCounter(def: ProtocolDef, m: Machine, events: seq<Event>, v: Byte)
    requires Eap.Valid(def) && InStep(def, m) && v < |m.session|
    requires IsPumpCounter(def, v)
    ensures |Run(def, m, events).session| == |m.session|
    ensures Run(def, m, events).session[v] == Capped(m.session[v] + TotalPumped(def, m, events, v))
    ensures Run(def, m, events).session[v] >= m.session[v]
    decreases |events|
  {
    hide Next, Pumped, IsPumpCounter, Eap.Valid;
    if events != [] {
      var before := events[..|events| - 1];
      PumpCounter(def, m, before, v);
      NextCounts(def, Run(def, m, before), events[|events| - 1], v);
    }
  }

  /** An arm that asks its first guard about the counter. */
  predicate AsksFirst(arm: EventArm, v: Byte, op: CompareOp, n: I64) {
    arm.guards != [] && arm.guards[0].cond == Condition(Session(v), op, Literal(n))
  }

  /** The first guard sees the counter with the bytes of its own notification already in it. */
  lemma GuardSeesTheCounter(arm: EventArm, session: seq<I64>, frame: Frame, payload: Payload, v: Byte, op: CompareOp,
                            n: I64)
    requires v < |session| && AsksFirst(arm, v, op, n)
    requires forall r | r in arm.remembers :: CountsSpans(r, v)
    ensures var after := RememberedAll(arm.remembers, session, frame, payload);
            var total := Capped(session[v] + SpansOf(arm.remembers, v, frame, payload));
            Target(arm, after, frame, payload)
            == if BySign(op, total - n) then Some(arm.guards[0].target)
               else Target(arm.(guards := arm.guards[1..]), after, frame, payload)
  {
    hide RememberedAll, SpansOf, Capped, Holds, BySign;
    var after := RememberedAll(arm.remembers, session, frame, payload);
    RemembersCount(arm.remembers, session, v, frame, payload);
    HoldsBySign(arm.guards[0].cond, after, Some(frame), payload);
    assert Resolve(Session(v), after, Some(frame), payload) == Some(after[v]);
  }

  /**
   * When the pump loop leaves: a notification whose arm first asks the counter `v op n` takes that goto
   * exactly when the counter, with the notification's own bytes in it, stands so to `n`; otherwise the
   * rest of the arm decides.
   */
  lemma PumpLeavesExactly(def: ProtocolDef, m: Machine, source: Byte, payload: Payload, f: nat, i: nat, v: Byte,
                          op: CompareOp, n: I64)
    requires Eap.Valid(def) && InStep(def, m) && v < |m.session| && IsPumpCounter(def, v)
    requires !m.finished && def.states[m.state].kind.Active?
    requires FrameFor(def.frames, source, payload) == Some(f) && f < |def.frames|
    requires var arms := def.states[m.state].kind.active.onEvent;
             ArmFor(arms, f) == Some(i) && i < |arms| && AsksFirst(arms[i], v, op, n)
    ensures var a, ev := def.states[m.state].kind.active, Notify(source, payload);
            var arm, frame := a.onEvent[i], def.frames[f];
            var after := RememberedAll(arm.remembers, m.session, frame, payload);
            var elsewhere := Target(arm.(guards := arm.guards[1..]), after, frame, payload);
            var goes := BySign(op, Capped(m.session[v] + Pumped(def, m, ev, v)) - n);
            && (goes ==> arm.guards[0].target < |def.states|
                         && Next(def, m, ev) == GoTo(def, m.(session := after), arm.guards[0].target))
            && (!goes && elsewhere.None? ==>
                  Next(def, m, ev) == (m.(session := after), Wait(Deadline(a))))
            && (!goes && elsewhere.Some? ==>
                  elsewhere.value < |def.states| && Next(def, m, ev) == GoTo(def, m.(session := after), elsewhere.value))
  {
    hide FrameFor, ArmFor, RememberedAll, SpansOf, Capped, Target, BySign, Eap.Valid, GoTo;
    var a := def.states[m.state].kind.active;
    var arm, frame := a.onEvent[i], def.frames[f];
    var after := RememberedAll(arm.remembers, m.session, frame, payload);
    assert def.states[m.state] in def.states && arm in a.onEvent;
    GuardSeesTheCounter(arm, m.session, frame, payload, v, op, n);
    TargetInRange(def, m.state, a, i, after, frame, payload);
    assert Next(def, m, Notify(source, payload)) == OnNotify(def, m, a, source, payload);
  }

  /** A loop that asks only `v >= n`, or only `v < n`, goes on exactly while fewer than `n` bytes have come. */
  lemma PumpLoopEnds(def: ProtocolDef, m: Machine, source: Byte, payload: Payload, f: nat, i: nat, v: Byte,
                     op: CompareOp, n: I64)
    requires Eap.Valid(def) && InStep(def, m) && v < |m.session| && IsPumpCounter(def, v)
    requires !m.finished && def.states[m.state].kind.Active?
    requires FrameFor(def.frames, source, payload) == Some(f) && f < |def.frames|
    requires var arms := def.states[m.state].kind.active.onEvent;
             && ArmFor(arms, f) == Some(i) && i < |arms| && AsksFirst(arms[i], v, op, n)
             && |arms[i].guards| == 1 && arms[i].otherwise.None? && arms[i].guards[0].target != m.state
    ensures var m' := Next(def, m, Notify(source, payload)).0;
            var total := Capped(m.session[v] + Pumped(def, m, Notify(source, payload), v));
            && (op.Ge? ==> (m'.state != m.state <==> total >= n))
            && (op.Lt? ==> (m'.state != m.state <==> total < n))
            && (op.Eq? ==> (m'.state != m.state <==> total == n))
            && (op.Gt? ==> (m'.state != m.state <==> total > n))
            && (op.Le? ==> (m'.state != m.state <==> total <= n))
            && (op.Ne? ==> (m'.state != m.state <==> total != n))
  {
    hide FrameFor, ArmFor, RememberedAll, SpansOf, Capped, Eap.Valid, Next, Pumped, IsPumpCounter;
    PumpLeavesExactly(def, m, source, payload, f, i, v, op, n);
    var arm := def.states[m.state].kind.active.onEvent[i];
    assert arm.guards[1..] == [];
  }

  // ---- Truncated payloads --------------------------------------------------------------------

  /**
   * On a prefix of a payload, a field or a span of declared length either does not resolve or has
   * the value it has on the whole: truncation never invents a number.
   */
  lemma PrefixResolvesTheSame(op: Operand, session: seq<I64>, frame: Frame, payload: Payload, k: nat)
    requires k <= |payload|
    requires op.SpanLen? && op.span < |frame.spans| ==> frame.spans[op.span].length.Some?
    ensures var part := Resolve(op, session, Some(frame), payload[..k]);
            part == None || part == Resolve(op, session, Some(frame), payload)
  {
    if op.Field? && op.field < |frame.fields| {
      var read := frame.fields[op.field];
      if read.offset <= k {
        assert payload[..k][read.offset..] == payload[read.offset..][..k - read.offset];
        Scalars.ReadOfPrefix(read.ty, payload[read.offset..], k - read.offset);
      }
    }
  }

  /** A frame whose magic a prefix already shows stays the frame the whole payload shows. */
  lemma PrefixMatchIsAMatch(f: Frame, payload: seq<Byte>, k: nat)
    requires k <= |payload| && Matches(f, payload[..k])
    ensures Matches(f, payload)
  {
    if f.select.Some? {
      var m := f.select.value;
      assert payload[..k][m.offset..m.offset + |m.eq|] == payload[m.offset..m.offset + |m.eq|];
    }
  }
}
