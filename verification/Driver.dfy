/**
 * The loop that drives a protocol run over a live link: it performs the machine's writes, waits for
 * a notification or a deadline, and reports how the run ended.
 *
 * The clock, the arrivals in the notification queue and the writes' results are the environment's: one
 * `Turn` holds what clock and link answer during one pass of the loop. What a pass gets out of the queue
 * follows from the arrivals and from how long it waits.
 */
module Driver {
  import opened Bytes
  import opened Outcomes
  import opened Eap
  import opened EapSemantics
  import opened EapInterp
  import opened EapRuns

  /** A notification in the queue, and when it got there. */
  datatype Arrival = Arrival(at: int, source: Byte, payload: Payload)

  /** How a write comes back, the clock when the wait is armed, and how late a wait that expires is noticed. */
  datatype Turn = Turn(write: Outcome, armed: int, late: nat)

  datatype ProtocolReport = ProtocolReport(finalState: seq<Byte>, outcome: Outcome)
  datatype Report = Report(outcome: Outcome, protocol: Option<ProtocolReport>)

  /** How a run came to its end. */
  datatype Ending =
    | Unfinished
    | Verdict(outcome: Outcome)
    | WriteRefused(outcome: Outcome)
    | DeadlinePassed

  /** The events the machine was fed, the turns that took, and the ending. */
  datatype Course = Course(events: seq<Event>, turns: nat, ending: Ending)

  function Later(ev: Event, c: Course): Course {
    Course([ev] + c.events, c.turns + 1, c.ending)
  }

  // ---- Writing and waiting ----------------------------------------------------------------

  function Digits(n: nat): string {
    if n < 10 then ["0123456789"[n]] else Digits(n / 10) + ["0123456789"[n % 10]]
  }

  /** What decimal digits stand for. */
  function ValueOf(digits: string): nat {
    if digits == "" then 0
    else
      var last := digits[|digits| - 1];
      10 * ValueOf(digits[..|digits| - 1]) + if '0' <= last <= '9' then last as int - '0' as int else 0
  }

  /** A number is printed in decimal, without leading zeros. */
  lemma {:induction false} DigitsAreDecimal(n: nat)
    ensures ValueOf(Digits(n)) == n && Digits(n) != "" && (n > 0 ==> Digits(n)[0] != '0')
    ensures forall c | c in Digits(n) :: '0' <= c <= '9'
  {
    DigitIs(n % 10);
    if n < 10 {
      assert Digits(n)[..0] == "";
    } else {
      DigitsAreDecimal(n / 10);
      ValueNext(Digits(n / 10), "0123456789"[n % 10]);
    }
  }

  lemma DigitIs(d: nat)
    requires d < 10
    ensures '0' <= "0123456789"[d] <= '9' && "0123456789"[d] as int == '0' as int + d
  {
  }

  lemma ValueNext(front: string, last: char)
    requires '0' <= last <= '9'
    ensures ValueOf(front + [last]) == 10 * ValueOf(front) + (last as int - '0' as int)
  {
    assert (front + [last])[..|front|] == front;
  }

  function NoSuchSource(source: Byte): seq<Byte> {
    Ascii("protocol write names source " + Digits(source) + ", which does not exist")
  }

  /** `protocol_write`: a source the manifest does not have is never written to. */
  function Written(def: ProtocolDef, source: Byte, link: Outcome): Outcome {
    if source >= |def.sources| then Fail(NoSuchSource(source)) else link
  }

  /** `protocol_state_deadline`: the state's own, counted from now, unless the step's comes first. */
  function WaitsUntil(step: Step, armed: int, deadline: int): int
    requires !step.Done?
  {
    if step.deadline.None? || armed + step.deadline.value >= deadline then deadline else armed + step.deadline.value
  }

  /** What `k_msgq_get` comes back with: the next notification, or nothing by the time `now`. */
  datatype Poll =
    | Note(arrival: Arrival)
    | Nothing(now: int)

  /** The queue gives up its head if it is there when asked or gets there before the wait is over. */
  function Polled(step: Step, deadline: int, queue: seq<Arrival>, t: Turn): Poll
    requires !step.Done?
  {
    var until := WaitsUntil(step, t.armed, deadline);
    if queue != [] && (queue[0].at <= until || queue[0].at <= t.armed) then Note(queue[0])
    else Nothing((if until >= t.armed then until else t.armed) + t.late)
  }

  function EventOf(p: Poll): Event {
    if p.Note? then Notify(p.arrival.source, p.arrival.payload) else Timeout
  }

  function Left(p: Poll, queue: seq<Arrival>): seq<Arrival> {
    if p.Note? && queue != [] then queue[1..] else queue
  }

  // ---- What the loop does, turn by turn ----------------------------------------------------------

  /** The loop from machine `m`, whose last step was `step`, against an environment. */
  function Follow(def: ProtocolDef, m: Machine, step: Step, deadline: int, queue: seq<Arrival>, env: seq<Turn>): Course
    requires Eap.Valid(def) && InStep(def, m)
    decreases |env|
  {
    if step.Done? then Course([], 0, Verdict(step.outcome))
    else if env == [] then Course([], 0, Unfinished)
    else
      var t, p := env[0], Polled(step, deadline, queue, env[0]);
      if step.Write? && !Written(def, step.source, t.write).Pass? then
        Course([], 1, WriteRefused(Written(def, step.source, t.write)))
      else if p.Nothing? && p.now >= deadline then Course([], 1, DeadlinePassed)
      else
        var ev := EventOf(p);
        NextStaysIn(def, m, ev);
        Later(ev, Follow(def, Next(def, m, ev).0, Next(def, m, ev).1, deadline, Left(p, queue), env[1..]))
  }

  function Start(def: ProtocolDef, entry: nat): (Machine, Step)
    requires entry < |def.states|
  {
    GoTo(def, Initial(def, entry), entry)
  }

  /** The whole run, from entry. */
  function Drive(def: ProtocolDef, entry: nat, deadline: int, queue: seq<Arrival>, env: seq<Turn>): Course
    requires Eap.Valid(def) && entry < |def.states|
  {
    var (m, step) := Start(def, entry);
    Follow(def, m, step, deadline, queue, env)
  }

  /** The state the machine sat in when the run ended. */
  function EndsIn(def: ProtocolDef, entry: nat, deadline: int, queue: seq<Arrival>, env: seq<Turn>): Machine
    requires Eap.Valid(def) && entry < |def.states|
  {
    Run(def, Start(def, entry).0, Drive(def, entry, deadline, queue, env).events)
  }

  function ReportOf(ending: Ending, name: seq<Byte>): Option<Report> {
    match ending
    case Unfinished => None
    case Verdict(o) => Some(Report(o, Some(ProtocolReport(name, o))))
    case WriteRefused(o) => Some(Report(o, Some(ProtocolReport(name, Fail([])))))
    case DeadlinePassed => Some(Report(TimedOut, Some(ProtocolReport(name, TimedOut))))
  }

  /** What the whole run reports. */
  function Reported(def: ProtocolDef, entry: nat, deadline: int, queue: seq<Arrival>, env: seq<Turn>): Option<Report>
    requires Eap.Valid(def) && entry < |def.states|
  {
    ReportOf(Drive(def, entry, deadline, queue, env).ending, NameOf(def, EndsIn(def, entry, deadline, queue, env)))
  }

  // ---- Courses, piece by piece ---------------------------------------------------------------------

  function Before(events: seq<Event>, turns: nat, c: Course): Course {
    Course(events + c.events, turns + c.turns, c.ending)
  }

  lemma BeforeLater(events: seq<Event>, turns: nat, ev: Event, c: Course)
    ensures Before(events, turns, Later(ev, c)) == Before(events + [ev], turns + 1, c)
  {
    assert events + ([ev] + c.events) == (events + [ev]) + c.events;
  }

  lemma BeforeNothing(c: Course)
    ensures Before([], 0, c) == c
  {
    assert [] + c.events == c.events;
  }

  lemma BeforeEnds(events: seq<Event>, turns: nat, n: nat, ending: Ending)
    ensures Before(events, turns, Course([], n, ending)) == Course(events, turns + n, ending)
  {
    assert events + [] == events;
  }

  lemma RunNothing(def: ProtocolDef, m: Machine)
    requires Eap.Valid(def) && InStep(def, m)
    ensures Run(def, m, []) == m
  {
  }

  lemma RunExtends(def: ProtocolDef, m: Machine, events: seq<Event>, ev: Event)
    requires Eap.Valid(def) && InStep(def, m)
    ensures Run(def, m, events + [ev]) == Next(def, Run(def, m, events), ev).0
  {
    assert (events + [ev])[..|events|] == events;
  }

  lemma {:induction false} RunFirst(def: ProtocolDef, m: Machine, ev: Event, events: seq<Event>)
    requires Eap.Valid(def) && InStep(def, m) && InStep(def, Next(def, m, ev).0)
    ensures Run(def, m, [ev] + events) == Run(def, Next(def, m, ev).0, events)
    decreases |events|
  {
    hide Next, Eap.Valid;
    if events == [] {
      assert [ev] + events == [] + [ev];
      RunNothing(def, m);
      RunExtends(def, m, [], ev);
    } else {
      var before, last := events[..|events| - 1], events[|events| - 1];
      RunFirst(def, m, ev, before);
      assert [ev] + events == ([ev] + before) + [last];
      RunExtends(def, m, [ev] + before, last);
    }
  }

  /** A turn that ends in an event to the machine: the write went through, the deadline has not passed. */
  predicate Feeds(def: ProtocolDef, step: Step, deadline: int, queue: seq<Arrival>, env: seq<Turn>) {
    && !step.Done? && env != []
    && (step.Write? ==> Written(def, step.source, env[0].write).Pass?)
    && var p := Polled(step, deadline, queue, env[0]); !(p.Nothing? && p.now >= deadline)
  }

  lemma FollowFeeds(def: ProtocolDef, m: Machine, step: Step, deadline: int, queue: seq<Arrival>, env: seq<Turn>)
    requires Eap.Valid(def) && InStep(def, m) && Feeds(def, step, deadline, queue, env)
    ensures var p := Polled(step, deadline, queue, env[0]);
            var (m', step') := Next(def, m, EventOf(p));
            && InStep(def, m')
            && Follow(def, m, step, deadline, queue, env)
               == Later(EventOf(p), Follow(def, m', step', deadline, Left(p, queue), env[1..]))
  {
    hide Next, Polled;
    NextStaysIn(def, m, EventOf(Polled(step, deadline, queue, env[0])));
  }

  lemma FollowEnds(def: ProtocolDef, m: Machine, step: Step, deadline: int, queue: seq<Arrival>, env: seq<Turn>)
    requires Eap.Valid(def) && InStep(def, m) && !Feeds(def, step, deadline, queue, env)
    ensures var c := Follow(def, m, step, deadline, queue, env); c.events == [] && c.turns <= |env|
    ensures var c := Follow(def, m, step, deadline, queue, env);
            c.ending == if step.Done? then Verdict(step.outcome)
                        else if env == [] then Unfinished
                        else if step.Write? && !Written(def, step.source, env[0].write).Pass?
                        then WriteRefused(Written(def, step.source, env[0].write))
                        else DeadlinePassed
    ensures Follow(def, m, step, deadline, queue, env).ending.DeadlinePassed? ==>
              && Follow(def, m, step, deadline, queue, env).turns == 1
              && Polled(step, deadline, queue, env[0]).Nothing? && Polled(step, deadline, queue, env[0]).now >= deadline
  {
    hide Next, Polled, Written;
  }

  // ---- The machine the driver works with ------------------------------------------------------------

  /** A machine the driver is still working with, or the one whose verdict it is about to read. */
  predicate Coherent(def: ProtocolDef, m: Machine, step: Step) {
    && Eap.Valid(def) && Safe(def, m) && SafeStep(def, m, step)
    && (step.Done? <==> m.finished)
    && (step.Done? ==> !step.outcome.TimedOut?
                       && (step.outcome.Pass? ==> def.states[m.state].kind == Terminal(true)))
    && (def.states[m.state].kind.Terminal? ==> step.Done? && (step.outcome.Pass? <==> def.states[m.state].kind.pass))
    && (!step.Done? ==> def.states[m.state].kind.Active? && step.deadline == Deadline(def.states[m.state].kind.active))
  }

  lemma EnteredIsCoherent(def: ProtocolDef, m: Machine)
    requires Eap.Valid(def) && InStep(def, m) && !m.finished && m.retries <= RetryOf(def.states[m.state])
    ensures Coherent(def, Entered(def, m).0, Entered(def, m).1)
  {
    EnteredIsSafe(def, m);
  }

  /** Every event to an unfinished machine leaves it unfinished or hands back its verdict. */
  lemma NextIsCoherent(def: ProtocolDef, m: Machine, ev: Event)
    requires Eap.Valid(def) && Safe(def, m) && !m.finished
    ensures Coherent(def, Next(def, m, ev).0, Next(def, m, ev).1)
  {
    NextIsSafe(def, m, ev);
    var a := def.states[m.state].kind.active;
    assert def.states[m.state] in def.states;
    match ev
    case Timeout =>
      if a.onTimeout.Some? {
        if m.retries < a.onTimeout.value.retry {
          EnteredIsCoherent(def, m.(retries := m.retries + 1));
        } else {
          EnteredIsCoherent(def, m.(state := a.onTimeout.value.target, retries := 0));
        }
      }
    case Notify(source, payload) =>
      var f := FrameFor(def.frames, source, payload);
      if f.Some? {
        var i := ArmFor(a.onEvent, f.value);
        if i.Some? {
          var frame := def.frames[f.value];
          var session := RememberedAll(a.onEvent[i.value].remembers, m.session, frame, payload);
          TargetInRange(def, m.state, a, i.value, session, frame, payload);
          var t := Target(a.onEvent[i.value], session, frame, payload);
          if t.Some? {
            EnteredIsCoherent(def, m.(session := session, state := t.value, retries := 0));
          }
        }
      }
  }

  lemma EntryIsCoherent(def: ProtocolDef, entry: nat)
    requires Eap.Valid(def) && entry < |def.states|
    ensures Coherent(def, Start(def, entry).0, Start(def, entry).1)
  {
    EnteredIsCoherent(def, Initial(def, entry));
  }

  // ---- The loop itself ---------------------------------------------------------------------------

  /** The loop after `i` turns and `q` notifications, having fed `events`. */
  ghost predicate Midway(def: ProtocolDef, entry: nat, deadline: int, queue: seq<Arrival>, env: seq<Turn>,
                         m: Machine, step: Step, events: seq<Event>, i: nat, q: nat)
  {
    && Eap.Valid(def) && entry < |def.states| && i <= |env| && q <= |queue|
    && Coherent(def, m, step) && m == Run(def, Start(def, entry).0, events)
    && Drive(def, entry, deadline, queue, env)
       == Before(events, i, Follow(def, m, step, deadline, queue[q..], env[i..]))
  }

  lemma MidwayStart(def: ProtocolDef, entry: nat, deadline: int, queue: seq<Arrival>, env: seq<Turn>)
    requires Eap.Valid(def) && entry < |def.states|
    ensures var (m, step) := Start(def, entry); Midway(def, entry, deadline, queue, env, m, step, [], 0, 0)
  {
    hide Follow, Run, Coherent, Eap.Valid, GoTo;
    EntryIsCoherent(def, entry);
    var (m, step) := Start(def, entry);
    CoherentStaysIn(def, m, step);
    BeforeNothing(Follow(def, m, step, deadline, queue, env));
    assert queue[0..] == queue && env[0..] == env;
    RunNothing(def, m);
  }

  lemma CoherentStaysIn(def: ProtocolDef, m: Machine, step: Step)
    requires Coherent(def, m, step)
    ensures InStep(def, m) && Eap.Valid(def)
  {
  }

  lemma MidwayStep(def: ProtocolDef, entry: nat, deadline: int, queue: seq<Arrival>, env: seq<Turn>,
                   m: Machine, step: Step, events: seq<Event>, i: nat, q: nat)
    requires Midway(def, entry, deadline, queue, env, m, step, events, i, q)
    requires Feeds(def, step, deadline, queue[q..], env[i..])
    ensures var p := Polled(step, deadline, queue[q..], env[i]);
            var (m', step') := Next(def, m, EventOf(p));
            var q' := if p.Note? then q + 1 else q;
            Midway(def, entry, deadline, queue, env, m', step', events + [EventOf(p)], i + 1, q')
  {
    hide Follow, Run, Next, Eap.Valid, Written, CString;
    var rest, turns := queue[q..], env[i..];
    var p := Polled(step, deadline, rest, turns[0]);
    var ev := EventOf(p);
    FollowFeeds(def, m, step, deadline, rest, turns);
    NextIsCoherent(def, m, ev);
    RunExtends(def, Start(def, entry).0, events, ev);
    assert turns[1..] == env[i + 1..];
    assert p.Note? ==> rest != [] && rest[1..] == queue[q + 1..];
    var (m', step') := Next(def, m, ev);
    BeforeLater(events, i, ev, Follow(def, m', step', deadline, Left(p, rest), turns[1..]));
  }

  /** Where the loop comes out, the report is the run's. */
  lemma MidwayEnds(def: ProtocolDef, entry: nat, deadline: int, queue: seq<Arrival>, env: seq<Turn>,
                   m: Machine, step: Step, events: seq<Event>, i: nat, q: nat)
    requires Midway(def, entry, deadline, queue, env, m, step, events, i, q)
    requires !Feeds(def, step, deadline, queue[q..], env[i..])
    ensures InStep(def, m)
    ensures var c := Follow(def, m, step, deadline, queue[q..], env[i..]);
            Reported(def, entry, deadline, queue, env) == ReportOf(c.ending, NameOf(def, m))
  {
    hide Follow, Run, Next, Eap.Valid, Written, CString, Feeds;
    FollowEnds(def, m, step, deadline, queue[q..], env[i..]);
    var c := Follow(def, m, step, deadline, queue[q..], env[i..]);
    BeforeEnds(events, i, c.turns, c.ending);
  }

  function NoSuchEntry(entry: Byte): seq<Byte> {
    Ascii("protocol entry state " + Digits(entry) + " does not exist")
  }

  /**
   * `execute_run_protocol` once subscribed. None while the environment leaves it running; otherwise
   * the report, which always carries the name of the state the machine sat in.
   */
  method Execute(def: ProtocolDef, entry: Byte, deadline: int, queue: seq<Arrival>, env: seq<Turn>)
    returns (report: Option<Report>)
    requires Eap.Valid(def)
    ensures entry >= |def.states| ==> report == Some(Report(Fail(NoSuchEntry(entry)), None))
    ensures entry < |def.states| ==> report == Reported(def, entry, deadline, queue, env)
  {
    hide Next, Entered, Eap.Valid, Written, Run, Follow, Midway, CString, Reported, Coherent, WaitsUntil;
    if entry >= |def.states| {
      return Some(Report(Fail(NoSuchEntry(entry)), None));
    }
    var run := new EapRun();
    var _ := run.Start(Some(def), entry);
    var step := run.Enter();
    ghost var events: seq<Event> := [];
    MidwayStart(def, entry, deadline, queue, env);
    var i: nat := 0;
    var q: nat := 0;
    while true
      invariant i <= |env| && q <= |queue| && run.Ready() && run.def == def && fresh(run) && fresh(run.session)
      invariant Midway(def, entry, deadline, queue, env, run.Machine(), step, events, i, q)
      decreases |env| - i
    {
      ghost var m := run.Machine();
      MidwayNames(def, entry, deadline, queue, env, m, step, events, i, q);
      if step.Done? {
        return Some(Report(step.outcome, Some(ProtocolReport(step.finalState, step.outcome))));
      }
      if i == |env| {
        return None;
      }
      if step.Write? {
        var result := Written(def, step.source, env[i].write);
        if !result.Pass? {
          var whereNow := run.Abandon();
          return Some(Report(result, Some(ProtocolReport(whereNow.finalState, Fail([])))));
        }
      }
      var until := WaitsUntil(step, env[i].armed, deadline);
      if q < |queue| && (queue[q].at <= until || queue[q].at <= env[i].armed) {
        ghost var ev := Notify(queue[q].source, queue[q].payload);
        MidwayStep(def, entry, deadline, queue, env, m, step, events, i, q);
        step := run.OnEvent(Notify(queue[q].source, queue[q].payload));
        events := events + [ev];
        i := i + 1;
        q := q + 1;
        continue;
      }
      var now := (if until >= env[i].armed then until else env[i].armed) + env[i].late;
      if now >= deadline {
        step := run.Abandon();
        return Some(Report(step.outcome, Some(ProtocolReport(step.finalState, step.outcome))));
      }
      MidwayStep(def, entry, deadline, queue, env, m, step, events, i, q);
      step := run.OnEvent(Timeout);
      events := events + [Timeout];
      i := i + 1;
    }
  }

  /** What each way out of the loop has to report. */
  lemma MidwayNames(def: ProtocolDef, entry: nat, deadline: int, queue: seq<Arrival>, env: seq<Turn>,
                    m: Machine, step: Step, events: seq<Event>, i: nat, q: nat)
    requires Midway(def, entry, deadline, queue, env, m, step, events, i, q)
    ensures InStep(def, m)
    ensures step.Done? ==> step.finalState == NameOf(def, m)
    ensures !Feeds(def, step, deadline, queue[q..], env[i..]) ==>
              Reported(def, entry, deadline, queue, env)
              == if step.Done? then Some(Report(step.outcome, Some(ProtocolReport(step.finalState, step.outcome))))
                 else if i == |env| then None
                 else if step.Write? && !Written(def, step.source, env[i].write).Pass?
                 then Some(Report(Written(def, step.source, env[i].write), Some(ProtocolReport(NameOf(def, m), Fail([])))))
                 else Some(Report(TimedOut, Some(ProtocolReport(NameOf(def, m), TimedOut))))
  {
    hide Follow, Run, Next, Eap.Valid, Written, CString, Feeds, Reported;
    if !Feeds(def, step, deadline, queue[q..], env[i..]) {
      MidwayEnds(def, entry, deadline, queue, env, m, step, events, i, q);
      FollowEnds(def, m, step, deadline, queue[q..], env[i..]);
    }
  }

  // ---- What every run keeps ------------------------------------------------------------------

  /** What the run's course says about the machine it leaves behind. */
  ghost predicate CourseHolds(def: ProtocolDef, m0: Machine, c: Course, env: seq<Turn>)
    requires Eap.Valid(def) && InStep(def, m0)
  {
    var m := Run(def, m0, c.events);
    && |c.events| <= c.turns <= |env|
    && (forall k | 0 <= k < |c.events| :: !Run(def, m0, c.events[..k]).finished)
    && (c.ending.Verdict? <==> m.finished)
    && (c.ending.Verdict? ==> (c.ending.outcome.Pass? <==> def.states[m.state].kind == Terminal(true)))
    && (!c.ending.Verdict? ==> def.states[m.state].kind.Active?)
    && (c.ending.Verdict? ==> !c.ending.outcome.TimedOut?)
    && (c.ending.WriteRefused? ==> !c.ending.outcome.Pass? && Entered(def, m).1.Write?)
  }

  lemma CourseStep(def: ProtocolDef, m: Machine, ev: Event, c: Course, env: seq<Turn>)
    requires Eap.Valid(def) && InStep(def, m) && !m.finished && InStep(def, Next(def, m, ev).0) && env != []
    requires CourseHolds(def, Next(def, m, ev).0, c, env[1..])
    ensures CourseHolds(def, m, Later(ev, c), env)
  {
    hide Next, Eap.Valid, Run, Entered;
    var m' := Next(def, m, ev).0;
    var events := [ev] + c.events;
    RunFirst(def, m, ev, c.events);
    forall k | 0 <= k < |events|
      ensures !Run(def, m, events[..k]).finished
    {
      if k == 0 {
        RunNothing(def, m);
      } else {
        assert events[..k] == [ev] + c.events[..k - 1];
        RunFirst(def, m, ev, c.events[..k - 1]);
      }
    }
  }

  lemma {:induction false} FollowHolds(def: ProtocolDef, m: Machine, step: Step, deadline: int, queue: seq<Arrival>,
                                       env: seq<Turn>)
    requires Coherent(def, m, step)
    ensures CourseHolds(def, m, Follow(def, m, step, deadline, queue, env), env)
    decreases |env|
  {
    hide Next, Entered, Eap.Valid, Run, CString, Follow, Polled, Written;
    RunNothing(def, m);
    if Feeds(def, step, deadline, queue, env) {
      var p := Polled(step, deadline, queue, env[0]);
      var ev := EventOf(p);
      FollowFeeds(def, m, step, deadline, queue, env);
      NextIsCoherent(def, m, ev);
      var (m', step') := Next(def, m, ev);
      FollowHolds(def, m', step', deadline, Left(p, queue), env[1..]);
      CourseStep(def, m, ev, Follow(def, m', step', deadline, Left(p, queue), env[1..]), env);
    } else {
      FollowEnds(def, m, step, deadline, queue, env);
      if step.Write? { WriteIsEntry(def, m, step); }
    }
  }

  lemma WriteIsEntry(def: ProtocolDef, m: Machine, step: Step)
    requires Coherent(def, m, step) && step.Write?
    ensures Entered(def, m).1.Write?
  {
  }

  /**
   * For every clock, queue and write result: the machine is never fed once it has ended, Pass is
   * reported exactly when it sits in a passing terminal state, and the protocol's TimedOut exactly
   * when the step's own deadline was found to have passed.
   */
  lemma RunReportsTheMachine(def: ProtocolDef, entry: nat, deadline: int, queue: seq<Arrival>, env: seq<Turn>)
    requires Eap.Valid(def) && entry < |def.states|
    ensures var c, m := Drive(def, entry, deadline, queue, env), EndsIn(def, entry, deadline, queue, env);
            && CourseHolds(def, Start(def, entry).0, c, env)
            && var report := Reported(def, entry, deadline, queue, env);
               report.Some? ==>
                 var r := report.value;
                 && r.protocol.value.finalState == NameOf(def, m)
                 && (r.outcome.Pass? <==> def.states[m.state].kind == Terminal(true))
                 && (r.protocol.value.outcome.Pass? <==> r.outcome.Pass?)
                 && (r.protocol.value.outcome.TimedOut? <==> c.ending.DeadlinePassed?)
  {
    hide Entered, Eap.Valid, Run, Follow;
    var (m, step) := Start(def, entry);
    EntryIsCoherent(def, entry);
    FollowHolds(def, m, step, deadline, queue, env);
  }

  // ---- Deadlines, over whole runs ----------------------------------------------------------------

  /** How many of the first `i` events were notifications. */
  function Delivered(events: seq<Event>, i: nat): (q: nat)
    requires i <= |events|
    ensures q <= i
  {
    if i == 0 then 0 else Delivered(events, i - 1) + if events[i - 1].Notify? then 1 else 0
  }

  /** The machine and its step in front of turn `i`. */
  function At(def: ProtocolDef, entry: nat, events: seq<Event>, i: nat): (Machine, Step)
    requires Eap.Valid(def) && entry < |def.states| && i <= |events|
  {
    if i == 0 then Start(def, entry) else Next(def, Run(def, Start(def, entry).0, events[..i - 1]), events[i - 1])
  }

  lemma AtIsRun(def: ProtocolDef, entry: nat, events: seq<Event>, i: nat)
    requires Eap.Valid(def) && entry < |def.states| && i <= |events|
    ensures At(def, entry, events, i).0 == Run(def, Start(def, entry).0, events[..i])
  {
    hide Next, Eap.Valid;
    if i == 0 {
      RunNothing(def, Start(def, entry).0);
    } else {
      assert events[..i] == events[..i - 1] + [events[i - 1]];
      RunExtends(def, Start(def, entry).0, events[..i - 1], events[i - 1]);
    }
  }

  /** Turn `i` of a run that fed an event there, as the loop found it. */
  lemma {:induction false} TurnOf(def: ProtocolDef, entry: nat, deadline: int, queue: seq<Arrival>, env: seq<Turn>,
                                  i: nat)
    requires Eap.Valid(def) && entry < |def.states|
    requires i <= |Drive(def, entry, deadline, queue, env).events|
    ensures var events := Drive(def, entry, deadline, queue, env).events;
            var (m, step) := At(def, entry, events, i);
            && Midway(def, entry, deadline, queue, env, m, step, events[..i], i, Delivered(events, i))
            && (i < |events| ==>
                  var rest := queue[Delivered(events, i)..];
                  && Feeds(def, step, deadline, rest, env[i..])
                  && events[i] == EventOf(Polled(step, deadline, rest, env[i])))
    decreases i
  {
    hide Next, Eap.Valid, Run, Follow, CString, Polled, Feeds;
    var c := Drive(def, entry, deadline, queue, env);
    if i == 0 {
      MidwayStart(def, entry, deadline, queue, env);
      assert c.events[..0] == [];
    } else {
      TurnOf(def, entry, deadline, queue, env, i - 1);
      var (m, step) := At(def, entry, c.events, i - 1);
      AtIsRun(def, entry, c.events, i - 1);
      MidwayStep(def, entry, deadline, queue, env, m, step, c.events[..i - 1], i - 1, Delivered(c.events, i - 1));
      assert c.events[..i] == c.events[..i - 1] + [c.events[i - 1]];
    }
    if i < |c.events| {
      var (m, step) := At(def, entry, c.events, i);
      TurnFeeds(def, entry, deadline, queue, env, m, step, c.events[..i], i, Delivered(c.events, i));
    }
  }

  lemma TurnFeeds(def: ProtocolDef, entry: nat, deadline: int, queue: seq<Arrival>, env: seq<Turn>,
                  m: Machine, step: Step, events: seq<Event>, i: nat, q: nat)
    requires Midway(def, entry, deadline, queue, env, m, step, events, i, q)
    requires var all := Drive(def, entry, deadline, queue, env).events; i == |events| < |all| && events == all[..i]
    ensures Feeds(def, step, deadline, queue[q..], env[i..])
    ensures Drive(def, entry, deadline, queue, env).events[i] == EventOf(Polled(step, deadline, queue[q..], env[i]))
  {
    hide Next, Eap.Valid, Run, Follow, CString, Polled, Feeds;
    var rest, turns := queue[q..], env[i..];
    var c := Follow(def, m, step, deadline, rest, turns);
    BeforeEnds(events, i, c.turns, c.ending);
    if Feeds(def, step, deadline, rest, turns) {
      FollowFeeds(def, m, step, deadline, rest, turns);
      FeedsHasTurn(def, step, deadline, rest, turns);
      assert turns[0] == env[i];
    } else {
      FollowEnds(def, m, step, deadline, rest, turns);
    }
  }

  lemma FeedsHasTurn(def: ProtocolDef, step: Step, deadline: int, queue: seq<Arrival>, env: seq<Turn>)
    requires Feeds(def, step, deadline, queue, env)
    ensures env != [] && !step.Done?
  {
  }

  /** Where the events end, the loop goes no further. */
  lemma LastTurn(def: ProtocolDef, entry: nat, deadline: int, queue: seq<Arrival>, env: seq<Turn>)
    requires Eap.Valid(def) && entry < |def.states|
    ensures var c := Drive(def, entry, deadline, queue, env);
            var i, q := |c.events|, Delivered(c.events, |c.events|);
            var (m, step) := At(def, entry, c.events, i);
            && i <= |env| && q <= |queue| && InStep(def, m)
            && !Feeds(def, step, deadline, queue[q..], env[i..])
            && c.ending == Follow(def, m, step, deadline, queue[q..], env[i..]).ending
  {
    hide Next, Eap.Valid, Run, Follow, CString, Polled, Feeds;
    var events := Drive(def, entry, deadline, queue, env).events;
    var i, q := |events|, Delivered(events, |events|);
    var (m, step) := At(def, entry, events, i);
    TurnOf(def, entry, deadline, queue, env, i);
    CoherentStaysIn(def, m, step);
    var c := Follow(def, m, step, deadline, queue[q..], env[i..]);
    assert c.events == [] by {
      assert |events + c.events| == |events| + |c.events|;
      assert events[..i] == events;
    }
    if Feeds(def, step, deadline, queue[q..], env[i..]) {
      FollowFeeds(def, m, step, deadline, queue[q..], env[i..]);
    }
  }

  /** A run that ends on the step's deadline ends on a turn that found nothing until the deadline had passed. */
  lemma DeadlineWasPassed(def: ProtocolDef, entry: nat, deadline: int, queue: seq<Arrival>, env: seq<Turn>)
    requires Eap.Valid(def) && entry < |def.states|
    requires Drive(def, entry, deadline, queue, env).ending.DeadlinePassed?
    ensures var events := Drive(def, entry, deadline, queue, env).events;
            var i, q, step := |events|, Delivered(events, |events|), At(def, entry, events, |events|).1;
            && i < |env| && q <= |queue| && !step.Done?
            && var p := Polled(step, deadline, queue[q..], env[i]); p.Nothing? && p.now >= deadline
  {
    hide Next, Eap.Valid, Run, Follow, CString, Polled, Feeds, Drive, At;
    var events := Drive(def, entry, deadline, queue, env).events;
    var i, q := |events|, Delivered(events, |events|);
    var (m, step) := At(def, entry, events, i);
    LastTurn(def, entry, deadline, queue, env);
    FollowEnds(def, m, step, deadline, queue[q..], env[i..]);
  }

  /**
   * How every run ends: on a verdict when the machine has one, unfinished when the environment has no
   * more turns, refused when the last step writes to a source the manifest does not have or the link did
   * not take the write, and otherwise on the deadline. A write the link refused is reported as the link
   * put it.
   */
  lemma EndingIsExactly(def: ProtocolDef, entry: nat, deadline: int, queue: seq<Arrival>, env: seq<Turn>)
    requires Eap.Valid(def) && entry < |def.states|
    ensures var c := Drive(def, entry, deadline, queue, env);
            var i, step := |c.events|, At(def, entry, c.events, |c.events|).1;
            && i <= |env|
            && (c.ending.Verdict? <==> step.Done?)
            && (c.ending.Unfinished? <==> !step.Done? && i == |env|)
            && (c.ending.WriteRefused? <==>
                  step.Write? && i < |env| && (|def.sources| <= step.source || !env[i].write.Pass?))
            && (c.ending.Verdict? ==> c.ending.outcome == step.outcome)
            && (c.ending.WriteRefused? ==>
                  if step.source < |def.sources| then c.ending.outcome == env[i].write else c.ending.outcome.Fail?)
  {
    hide Next, Eap.Valid, Run, Follow, CString, Polled, Feeds, Drive, At;
    var events := Drive(def, entry, deadline, queue, env).events;
    var i, q := |events|, Delivered(events, |events|);
    var (m, step) := At(def, entry, events, i);
    LastTurn(def, entry, deadline, queue, env);
    FollowEnds(def, m, step, deadline, queue[q..], env[i..]);
  }

  /** Every turn that fed an event had its write, if it had one, taken by a source of the manifest. */
  lemma FedWritesWereTaken(def: ProtocolDef, entry: nat, deadline: int, queue: seq<Arrival>, env: seq<Turn>, i: nat)
    requires Eap.Valid(def) && entry < |def.states|
    requires i < |Drive(def, entry, deadline, queue, env).events|
    ensures var step := At(def, entry, Drive(def, entry, deadline, queue, env).events, i).1;
            i < |env| && (step.Write? ==> step.source < |def.sources| && env[i].write.Pass?)
  {
    hide Next, Eap.Valid, Run, Follow, CString, Polled, Drive;
    TurnOf(def, entry, deadline, queue, env, i);
    assert env[i..][0] == env[i];
  }

  /** A manifest that writes only to its own sources, on a link that takes every write, is never refused one. */
  lemma NoWriteIsRefused(def: ProtocolDef, entry: nat, deadline: int, queue: seq<Arrival>, env: seq<Turn>)
    requires Eap.Valid(def) && entry < |def.states|
    requires forall s | s in def.states && s.kind.Active? && s.kind.active.onEnter.Some? ::
               s.kind.active.onEnter.value.source < |def.sources|
    requires forall t | t in env :: t.write.Pass?
    ensures !Drive(def, entry, deadline, queue, env).ending.WriteRefused?
  {
    hide Next, Eap.Valid, Run, Follow, CString, Polled, Drive, At;
    var events := Drive(def, entry, deadline, queue, env).events;
    var (m, step) := At(def, entry, events, |events|);
    EndingIsExactly(def, entry, deadline, queue, env);
    TurnOf(def, entry, deadline, queue, env, |events|);
    assert def.states[m.state] in def.states;
  }

  /**
   * Over every run: turn `i` feeds a timeout exactly when the state declares one, nothing got into the
   * queue within its whole time from when this turn armed its wait, and the step's deadline had not
   * passed by then.
   */
  lemma TimeoutsAreDue(def: ProtocolDef, entry: nat, deadline: int, queue: seq<Arrival>, env: seq<Turn>, i: nat)
    requires Eap.Valid(def) && entry < |def.states|
    requires i < |Drive(def, entry, deadline, queue, env).events|
    ensures var events := Drive(def, entry, deadline, queue, env).events;
            var m := Run(def, Start(def, entry).0, events[..i]);
            && i < |env| && Delivered(events, i) <= |queue| && def.states[m.state].kind.Active?
            && var a, t, rest := def.states[m.state].kind.active, env[i], queue[Delivered(events, i)..];
               events[i].Timeout? <==>
                 && a.onTimeout.Some?
                 && var until := t.armed + a.onTimeout.value.afterMs;
                    until + t.late < deadline && (rest == [] || rest[0].at > until)
  {
    hide Next, Eap.Valid, Run, Follow, CString, Drive, Written;
    var events := Drive(def, entry, deadline, queue, env).events;
    TurnOf(def, entry, deadline, queue, env, i);
    AtIsRun(def, entry, events, i);
    var (m, step) := At(def, entry, events, i);
    assert !step.Done? && env[i..][0] == env[i];
  }

  /** A notification that leaves the machine in its state: ignored, or consumed without a goto. */
  predicate StaysPut(def: ProtocolDef, m: Machine, ev: Event)
    requires InStep(def, m)
  {
    && ev.Notify? && !m.finished && def.states[m.state].kind.Active?
    && var a, f := def.states[m.state].kind.active, FrameFor(def.frames, ev.source, ev.payload);
       f.Some? && ArmFor(a.onEvent, f.value).Some? ==>
         var arm, frame := a.onEvent[ArmFor(a.onEvent, f.value).value], def.frames[f.value];
         Target(arm, RememberedAll(arm.remembers, m.session, frame, ev.payload), frame, ev.payload).None?
  }

  lemma StayingIsWaiting(def: ProtocolDef, m: Machine, ev: Event)
    requires Eap.Valid(def) && InStep(def, m) && StaysPut(def, m, ev)
    ensures var (m', step) := Next(def, m, ev);
            m' == m.(session := m'.session) && step == Wait(Deadline(def.states[m.state].kind.active))
  {
  }

  /** The turn that began with the state being entered, for turn `i`: no event since has left or re-entered it. */
  function EntryTurn(def: ProtocolDef, entry: nat, events: seq<Event>, i: nat): (j: nat)
    requires Eap.Valid(def) && entry < |def.states| && i <= |events|
    ensures j <= i
  {
    if i == 0 then 0
    else if StaysPut(def, Run(def, Start(def, entry).0, events[..i - 1]), events[i - 1]) then
      EntryTurn(def, entry, events, i - 1)
    else i
  }

  lemma {:induction false} SameSinceEntry(def: ProtocolDef, entry: nat, events: seq<Event>, i: nat)
    requires Eap.Valid(def) && entry < |def.states| && i <= |events|
    ensures var m0, j := Start(def, entry).0, EntryTurn(def, entry, events, i);
            Run(def, m0, events[..i]) == Run(def, m0, events[..j]).(session := Run(def, m0, events[..i]).session)
    decreases i
  {
    hide Next, Eap.Valid, StaysPut;
    var m0 := Start(def, entry).0;
    if i > 0 && StaysPut(def, Run(def, m0, events[..i - 1]), events[i - 1]) {
      SameSinceEntry(def, entry, events, i - 1);
      StayingIsWaiting(def, Run(def, m0, events[..i - 1]), events[i - 1]);
      assert events[..i] == events[..i - 1] + [events[i - 1]];
      RunExtends(def, m0, events[..i - 1], events[i - 1]);
    }
  }

  predicate Monotone(env: seq<Turn>) {
    forall i, j | 0 <= i <= j < |env| :: env[i].armed <= env[j].armed
  }

  /**
   * Whether a wait ends when one counted from the state's entry would: exactly when the state declares
   * no timeout, no time has passed since entry, or the step's deadline comes first either way. A timeout
   * is otherwise fed later than one counted from entry, by all the time since entry.
   */
  lemma WaitCountsFromEntry(def: ProtocolDef, entry: nat, deadline: int, queue: seq<Arrival>, env: seq<Turn>, i: nat)
    requires Eap.Valid(def) && entry < |def.states| && Monotone(env)
    requires i < |Drive(def, entry, deadline, queue, env).events|
    ensures var events := Drive(def, entry, deadline, queue, env).events;
            var m, j := Run(def, Start(def, entry).0, events[..i]), EntryTurn(def, entry, events, i);
            var (_, step) := At(def, entry, events, i);
            && i < |env| && def.states[m.state].kind.Active? && !step.Done?
            && Run(def, Start(def, entry).0, events[..j]).state == m.state
            && var a, entered, armed := def.states[m.state].kind.active, env[j].armed, env[i].armed;
               && (WaitsUntil(step, armed, deadline) == WaitsUntil(step, entered, deadline) <==>
                     a.onTimeout.None? || armed == entered || entered + a.onTimeout.value.afterMs >= deadline)
               && (events[i].Timeout? ==>
                     && a.onTimeout.Some?
                     && WaitsUntil(step, armed, deadline) == entered + a.onTimeout.value.afterMs + (armed - entered))
  {
    hide Next, Eap.Valid, Run, Follow, CString, Drive, Written, EntryTurn;
    var events := Drive(def, entry, deadline, queue, env).events;
    TurnOf(def, entry, deadline, queue, env, i);
    AtIsRun(def, entry, events, i);
    SameSinceEntry(def, entry, events, i);
    TimeoutsAreDue(def, entry, deadline, queue, env, i);
    var (m, step) := At(def, entry, events, i);
    assert env[EntryTurn(def, entry, events, i)].armed <= env[i].armed;
  }

  // ---- A timeout that never comes --------------------------------------------------------------------

  /** Each turn finds the next notification in time for its own wait. */
  predicate InTime(step: Step, deadline: int, queue: seq<Arrival>, env: seq<Turn>)
    requires !step.Done?
  {
    && |env| <= |queue|
    && forall i | 0 <= i < |env| ::
         queue[i].at <= WaitsUntil(step, env[i].armed, deadline) || queue[i].at <= env[i].armed
  }

  /** Every notification leaves the machine where it is. */
  predicate AllStayPut(def: ProtocolDef, m: Machine, queue: seq<Arrival>)
    requires Eap.Valid(def) && InStep(def, m)
    decreases |queue|
  {
    queue != [] ==>
      var ev := Notify(queue[0].source, queue[0].payload);
      && StaysPut(def, m, ev)
      && (NextStaysIn(def, m, ev); AllStayPut(def, Next(def, m, ev).0, queue[1..]))
  }

  /** Notifications that change no state, each in time for the wait the one before it armed: no timeout is ever fed. */
  lemma {:induction false} StayingFramesStarve(def: ProtocolDef, m: Machine, step: Step, deadline: int,
                                               queue: seq<Arrival>, env: seq<Turn>)
    requires Coherent(def, m, step) && step.Wait?
    requires AllStayPut(def, m, queue) && InTime(step, deadline, queue, env)
    ensures var c := Follow(def, m, step, deadline, queue, env);
            && c.ending.Unfinished? && |c.events| == |env| && (forall e | e in c.events :: e.Notify?)
    decreases |env|
  {
    hide Eap.Valid, Run, CString, Next, StaysPut, Follow, WaitsUntil;
    if env == [] {
      FollowEnds(def, m, step, deadline, queue, env);
    } else {
      var ev := Notify(queue[0].source, queue[0].payload);
      assert Polled(step, deadline, queue, env[0]) == Note(queue[0]);
      NextStaysIn(def, m, ev);
      StayingIsWaiting(def, m, ev);
      StaysUnfinished(def, m, ev);
      NextIsCoherent(def, m, ev);
      FollowFeeds(def, m, step, deadline, queue, env);
      var (m', step') := Next(def, m, ev);
      assert step' == step;
      StayingFramesStarve(def, m', step', deadline, queue[1..], env[1..]);
    }
  }

  lemma StaysUnfinished(def: ProtocolDef, m: Machine, ev: Event)
    requires InStep(def, m) && StaysPut(def, m, ev)
    ensures !m.finished
  {
  }

  /** One state that gives up after a second, and no frame that interests it. */
  const PATIENT: ProtocolDef :=
    ProtocolDef([], [], [], [State([], Active(ActiveState(None, [], Some(TimeoutArm(1000, 0, 1))))),
                             State([], Terminal(false))])

  /** A notification every 900 ms, and a loop that is never late. */
  function Chatter(n: nat): seq<Arrival> {
    seq(n, i requires 0 <= i < n => Arrival(900 * i + 900, 0, []))
  }

  function Ticks(n: nat): seq<Turn> {
    seq(n, i requires 0 <= i < n => Turn(Pass, 900 * i, 0))
  }

  lemma {:induction false} PatientStays(m: Machine, queue: seq<Arrival>)
    requires Eap.Valid(PATIENT) && InStep(PATIENT, m) && m.state == 0 && !m.finished
    ensures AllStayPut(PATIENT, m, queue)
    decreases |queue|
  {
    if queue != [] {
      var ev := Notify(queue[0].source, queue[0].payload);
      NextStaysIn(PATIENT, m, ev);
      StayingIsWaiting(PATIENT, m, ev);
      PatientStays(Next(PATIENT, m, ev).0, queue[1..]);
    }
  }

  /**
   * However long it goes on: entered at 0 with a second to give up in, the state has sat through
   * `900 n` ms of chatter and not one timeout has been fed.
   */
  lemma ChatterStarvesTheTimeout(n: nat, deadline: int)
    requires deadline >= 900 * n
    ensures Eap.Valid(PATIENT) && Monotone(Ticks(n))
    ensures var c := Drive(PATIENT, 0, deadline, Chatter(n), Ticks(n));
            && c.ending.Unfinished? && |c.events| == n && (forall e | e in c.events :: e.Notify?)
            && (forall i | 0 <= i <= n :: EntryTurn(PATIENT, 0, c.events, i) == 0)
            && (n >= 3 ==> Ticks(n)[n - 1].armed > Ticks(n)[0].armed + 1000)
  {
    assert Eap.Valid(PATIENT);
    EntryIsCoherent(PATIENT, 0);
    var (m, step) := Start(PATIENT, 0);
    PatientStays(m, Chatter(n));
    StayingFramesStarve(PATIENT, m, step, deadline, Chatter(n), Ticks(n));
    var events := Drive(PATIENT, 0, deadline, Chatter(n), Ticks(n)).events;
    forall i | 0 <= i <= n
      ensures EntryTurn(PATIENT, 0, events, i) == 0
    {
      PatientNeverLeaves(events, i);
    }
  }

  lemma {:induction false} PatientNeverLeaves(events: seq<Event>, i: nat)
    requires Eap.Valid(PATIENT) && i <= |events| && forall e | e in events :: e.Notify?
    ensures EntryTurn(PATIENT, 0, events, i) == 0
    ensures Run(PATIENT, Start(PATIENT, 0).0, events[..i]) == Start(PATIENT, 0).0
    decreases i
  {
    var m := Start(PATIENT, 0).0;
    if i == 0 {
      RunNothing(PATIENT, m);
    } else {
      PatientNeverLeaves(events, i - 1);
      assert events[i - 1] in events;
      assert events[..i] == events[..i - 1] + [events[i - 1]];
      RunExtends(PATIENT, m, events[..i - 1], events[i - 1]);
    }
  }
}
