/**
 * The study dispatcher: capture windows opened and closed around the steps, one result per step,
 * and the trace all of it leaves on the link.
 *
 * What the bridge reports for each step, and what the capture threads lose meanwhile, is the world's.
 */
module Dispatch {
  import opened Bytes
  import opened Outcomes
  import opened Messages
  import EapSemantics
  import Driver
  import Eap

  const SCOPE_WHOLE_STUDY: Byte := 0
  const SOURCE_GATT_NOTIFY: Byte := 0
  const SOURCE_GATT_TRANSCRIPT: Byte := 2
  const SOURCE_SIGNAL: Byte := 4

  /** `dbm_stream_tap_is_ours`: everything but a Signal tap, which Core produces itself. */
  predicate Ours(t: StreamTap) {
    t.sourceTag != SOURCE_SIGNAL
  }

  /** `dbm_stream_tap_covers`: a window's end is inclusive. */
  predicate Covers(t: StreamTap, step: nat) {
    t.scopeTag == SCOPE_WHOLE_STUDY || t.scopeFrom <= step <= t.scopeTo
  }

  datatype Remark =
    | UnsupportedAction
    | StepsMismatch
    | StreamsMismatch
    | LevelNotReached(want: Byte, reached: Byte)
    | WindowLeftOpen
    | NotExhaustive(rows: nat)

  /** What the dispatcher does that can be seen: messages on the link, and a step's action running. */
  datatype Act =
    | Log(remark: Remark)
    | Opened(tap: nat, id: Byte)
    | Closed(tap: nat, id: Byte, dropped: nat)
    | Acting(step: nat)
    | Reported(step: nat, verdict: Outcome)
    | Done(completed: bool)

  /** How a step's action ends, and the records lost meanwhile, by tap and of the transcript. */
  datatype StepEnd = StepEnd(verdict: Outcome, lost: seq<nat>, rows: nat)

  datatype World = World(reached: Byte, ends: seq<StepEnd>, windowOpen: bool, drain: StepEnd)

  function EndOf(world: World, i: nat): StepEnd {
    if i < |world.ends| then world.ends[i] else StepEnd(Pass, [], 0)
  }

  // ---- Windows --------------------------------------------------------------------------------

  /** Whether tap `k` should be open for a step; a tap that is not ours stays as it is. */
  predicate Wanted(taps: seq<StreamTap>, open: seq<bool>, step: nat, k: nat)
    requires k < |taps| == |open|
  {
    if Ours(taps[k]) then Covers(taps[k], step) else open[k]
  }

  function Synced(taps: seq<StreamTap>, open: seq<bool>, step: nat): (want: seq<bool>)
    requires |taps| == |open|
    ensures |want| == |taps| && forall k | 0 <= k < |taps| :: want[k] == Wanted(taps, open, step, k)
  {
    seq(|taps|, k requires 0 <= k < |taps| => Wanted(taps, open, step, k))
  }

  /** After the end nothing of ours is open, whatever its scope says. */
  function Shut(taps: seq<StreamTap>, open: seq<bool>): (want: seq<bool>)
    requires |taps| == |open|
    ensures |want| == |taps| && forall k | 0 <= k < |taps| :: want[k] == (!Ours(taps[k]) && open[k])
  {
    seq(|taps|, k requires 0 <= k < |taps| => !Ours(taps[k]) && open[k])
  }

  function Move(taps: seq<StreamTap>, open: seq<bool>, want: seq<bool>, dropped: seq<nat>, k: nat): seq<Act>
    requires k < |taps| == |open| == |want| == |dropped|
  {
    if want[k] == open[k] then []
    else if want[k] then [Opened(k, taps[k].id)]
    else [Closed(k, taps[k].id, dropped[k])]
  }

  /** The transitions of the first `n` taps, in order; each close carries the tap's own loss. */
  function Moves(taps: seq<StreamTap>, open: seq<bool>, want: seq<bool>, dropped: seq<nat>, n: nat): seq<Act>
    requires n <= |taps| == |open| == |want| == |dropped|
  {
    if n == 0 then [] else Moves(taps, open, want, dropped, n - 1) + Move(taps, open, want, dropped, n - 1)
  }

  lemma NoMoves(prior: seq<Act>, taps: seq<StreamTap>, open: seq<bool>, want: seq<bool>, dropped: seq<nat>)
    requires |taps| == |open| == |want| == |dropped|
    ensures prior + Moves(taps, open, want, dropped, 0) == prior
  {
  }

  lemma MovesStep(prior: seq<Act>, taps: seq<StreamTap>, open: seq<bool>, want: seq<bool>, dropped: seq<nat>, k: nat)
    requires k < |taps| == |open| == |want| == |dropped|
    ensures prior + Moves(taps, open, want, dropped, k + 1)
            == prior + Moves(taps, open, want, dropped, k) + Move(taps, open, want, dropped, k)
    ensures want[k] == open[k] ==>
              prior + Moves(taps, open, want, dropped, k + 1) == prior + Moves(taps, open, want, dropped, k)
  {
  }

  function LostAt(lost: seq<nat>, k: nat): nat {
    if k < |lost| then lost[k] else 0
  }

  /** Only an open tap is charged for what is lost. */
  function Charged(dropped: seq<nat>, open: seq<bool>, lost: seq<nat>): (after: seq<nat>)
    requires |dropped| == |open|
    ensures |after| == |dropped|
    ensures forall k | 0 <= k < |dropped| :: after[k] == dropped[k] + if open[k] then LostAt(lost, k) else 0
  {
    seq(|dropped|, k requires 0 <= k < |dropped| => dropped[k] + if open[k] then LostAt(lost, k) else 0)
  }

  // ---- Steps ----------------------------------------------------------------------------------

  /** `protocol_index_valid`: what is wrong with a RunProtocol step's indices, if anything. */
  function IndexFault(study: Study, action: Action): Option<Outcome> {
    if !action.RunProtocol? then None
    else if action.protocol >= |study.protocols| then
      Some(Fail(EapSemantics.Ascii("step names protocol " + Driver.Digits(action.protocol) + "; this study carries "
                               + Driver.Digits(|study.protocols|))))
    else if action.entryState >= |study.protocols[action.protocol].states| then
      Some(Fail(EapSemantics.Ascii("protocol " + Driver.Digits(action.protocol) + " has no state "
                               + Driver.Digits(action.entryState))))
    else None
  }

  /** Whether the study goes on after step `i`. */
  predicate GoesOn(study: Study, world: World, i: nat)
    requires i < |study.steps|
  {
    && IndexFault(study, study.steps[i].action).None?
    && (EndOf(world, i).verdict.Pass? || study.steps[i].continueOnFail)
  }

  datatype Windows = Windows(open: seq<bool>, dropped: seq<nat>, rows: nat)
  datatype Phase = Phase(acts: seq<Act>, windows: Windows, ran: nat, completed: bool)

  predicate Parallel(study: Study, w: Windows) {
    |w.open| == |study.streams| == |w.dropped|
  }

  /** The windows once step `i` has run. */
  function After(study: Study, world: World, i: nat, w: Windows): (w': Windows)
    requires Parallel(study, w)
    ensures Parallel(study, w')
  {
    var open := Synced(study.streams, w.open, i);
    Windows(open, Charged(w.dropped, open, EndOf(world, i).lost), w.rows + EndOf(world, i).rows)
  }

  /** The sync in front of step `i`. */
  function Around(study: Study, w: Windows, i: nat): seq<Act>
    requires Parallel(study, w)
  {
    Moves(study.streams, w.open, Synced(study.streams, w.open, i), w.dropped, |study.streams|)
  }

  /** The steps from `i` on. `ran` counts the steps whose action ran. */
  function Steps(study: Study, world: World, i: nat, w: Windows): (p: Phase)
    requires i <= |study.steps| && Parallel(study, w)
    ensures Parallel(study, p.windows) && i <= p.ran <= |study.steps|
    decreases |study.steps| - i
  {
    if i == |study.steps| then Phase([], w, i, true)
    else
      var fault := IndexFault(study, study.steps[i].action);
      if fault.Some? then Phase([Reported(i, fault.value)], w, i, false)
      else
        var acts := Around(study, w, i) + [Acting(i), Reported(i, EndOf(world, i).verdict)];
        if !GoesOn(study, world, i) then Phase(acts, After(study, world, i, w), i + 1, false)
        else
          var rest := Steps(study, world, i + 1, After(study, world, i, w));
          rest.(acts := acts + rest.acts)
  }

  /** One turn of the step loop, with `done` behind it. */
  lemma StepsTurn(study: Study, world: World, i: nat, w: Windows, done: seq<Act>)
    requires i < |study.steps| && Parallel(study, w)
    ensures var p, fault := Steps(study, world, i, w), IndexFault(study, study.steps[i].action);
            var acts := Around(study, w, i) + [Acting(i), Reported(i, EndOf(world, i).verdict)];
            && (fault.Some? ==> p == Phase([Reported(i, fault.value)], w, i, false))
            && (fault.None? && !GoesOn(study, world, i) ==> p == Phase(acts, After(study, world, i, w), i + 1, false))
            && (fault.None? && GoesOn(study, world, i) ==>
                  var rest := Steps(study, world, i + 1, After(study, world, i, w));
                  p.(acts := done + p.acts) == rest.(acts := (done + acts) + rest.acts))
  {
    hide IndexFault, Around, After;
    if GoesOn(study, world, i) {
      var acts := Around(study, w, i) + [Acting(i), Reported(i, EndOf(world, i).verdict)];
      var rest := Steps(study, world, i + 1, After(study, world, i, w));
      assert done + (acts + rest.acts) == (done + acts) + rest.acts;
    }
  }

  lemma StepsEnd(study: Study, world: World, w: Windows, done: seq<Act>)
    requires Parallel(study, w)
    ensures Steps(study, world, |study.steps|, w) == Phase([], w, |study.steps|, true) && done + [] == done
  {
  }

  function Fresh(study: Study): (w: Windows)
    ensures Parallel(study, w)
  {
    Windows(seq(|study.streams|, _ => false), seq(|study.streams|, _ => 0), 0)
  }

  function Opening(study: Study): (w: Windows)
    ensures Parallel(study, w)
  {
    Fresh(study).(open := Synced(study.streams, Fresh(study).open, 0))
  }

  function Body(study: Study, world: World): (p: Phase)
    ensures Parallel(study, p.windows) && p.ran <= |study.steps|
  {
    Steps(study, world, 0, Opening(study))
  }

  function LevelRemark(study: Study, world: World): seq<Act> {
    if world.reached != study.logLevel then [Log(LevelNotReached(study.logLevel, world.reached))] else []
  }

  /** What follows the last step: the drain, every window shut, the verdict. */
  function Ending(study: Study, world: World, p: Phase): seq<Act>
    requires Parallel(study, p.windows)
  {
    var dropped := Charged(p.windows.dropped, p.windows.open, world.drain.lost);
    var rows := p.windows.rows + world.drain.rows;
    (if world.windowOpen then [Log(WindowLeftOpen)] else [])
    + (Moves(study.streams, p.windows.open, Shut(study.streams, p.windows.open), dropped, |study.streams|)
       + ((if rows > 0 then [Log(NotExhaustive(rows))] else []) + [Done(p.completed)]))
  }

  /** The guards in front of the study; the protocols' seal is not among them. */
  function Refusal(study: Study): Option<Remark> {
    if study.unsupported then Some(UnsupportedAction)
    else if !study.stepsCrcValid then Some(StepsMismatch)
    else if !study.streamsCrcValid then Some(StreamsMismatch)
    else None
  }

  /** Everything a study leaves on the link. */
  function Trace(study: Study, world: World): seq<Act> {
    if Refusal(study).Some? then [Log(Refusal(study).value), Done(false)]
    else
      LevelRemark(study, world)
      + (Around(study, Fresh(study), 0) + (Body(study, world).acts + Ending(study, world, Body(study, world))))
  }

  // ---- The dispatcher itself ------------------------------------------------------------------------

  class Dispatcher {
    const tapOpen: array<bool>
    const tapDropped: array<nat>
    var taps: seq<StreamTap>
    var transcriptTap: int
    var transcriptTapOpen: bool
    var transcriptDropped: nat
    var stepIndex: nat
    var sent: seq<Act>

    constructor ()
      ensures Valid() && sent == [] && fresh(tapOpen) && fresh(tapDropped)
    {
      tapOpen := new bool[MAX_STREAMS](_ => false);
      tapDropped := new nat[MAX_STREAMS](_ => 0);
      taps, transcriptTap, transcriptTapOpen, transcriptDropped, stepIndex, sent := [], -1, false, 0, 0, [];
    }

    /** The flag the sink samples says what the array says. */
    ghost predicate Valid()
      reads this, tapOpen
    {
      && tapOpen.Length == tapDropped.Length == MAX_STREAMS && |taps| <= MAX_STREAMS
      && -1 <= transcriptTap < |taps|
      && transcriptTapOpen == (transcriptTap >= 0 && tapOpen[transcriptTap])
    }

    ghost function State(): (w: Windows)
      requires Valid()
      reads this, tapOpen, tapDropped
      ensures |w.open| == |w.dropped| == |taps|
    {
      Windows(tapOpen[..|taps|], tapDropped[..|taps|], transcriptDropped)
    }

    /** `set_tap_open`. */
    method SetTapOpen(index: nat, open: bool, dropped: nat)
      requires Valid() && index < |taps|
      modifies this`sent, this`transcriptTapOpen, tapOpen
      ensures Valid()
      ensures forall k | 0 <= k < MAX_STREAMS :: tapOpen[k] == if k == index then open else old(tapOpen[k])
      ensures sent == old(sent)
                      + [if open then Opened(index, taps[index].id) else Closed(index, taps[index].id, dropped)]
    {
      sent := sent + [if open then Opened(index, taps[index].id) else Closed(index, taps[index].id, dropped)];
      tapOpen[index] := open;
      if index == transcriptTap {
        transcriptTapOpen := open;
      }
    }

    /** `sync_taps_for_step`: only the transitions are sent. */
    method SyncTaps(step: nat)
      requires Valid()
      modifies this`sent, this`transcriptTapOpen, tapOpen
      ensures Valid() && State() == old(State()).(open := Synced(taps, old(State()).open, step))
      ensures sent == old(sent) + Moves(taps, old(State()).open, Synced(taps, old(State()).open, step),
                                        old(State()).dropped, |taps|)
    {
      hide Synced, Covers, Moves;
      ghost var w := State();
      ghost var want := Synced(taps, w.open, step);
      var i := 0;
      NoMoves(sent, taps, w.open, want, w.dropped);
      while i < |taps|
        invariant i <= |taps| && Valid()
        invariant forall k | 0 <= k < |taps| :: tapOpen[k] == if k < i then want[k] else w.open[k]
        invariant sent == old(sent) + Moves(taps, w.open, want, w.dropped, i)
      {
        MovesStep(old(sent), taps, w.open, want, w.dropped, i);
        if Ours(taps[i]) {
          var wantOpen := Covers(taps[i], step);
          if wantOpen != tapOpen[i] {
            SetTapOpen(i, wantOpen, if wantOpen then 0 else tapDropped[i]);
          }
        }
        i := i + 1;
      }
      assert tapOpen[..|taps|] == want;
    }

    /** `close_all_taps`. */
    method CloseAllTaps()
      requires Valid()
      modifies this`sent, this`transcriptTapOpen, tapOpen
      ensures Valid() && State() == old(State()).(open := Shut(taps, old(State()).open))
      ensures sent == old(sent) + Moves(taps, old(State()).open, Shut(taps, old(State()).open),
                                        old(State()).dropped, |taps|)
    {
      hide Shut, Moves;
      ghost var w := State();
      ghost var want := Shut(taps, w.open);
      var i := 0;
      NoMoves(sent, taps, w.open, want, w.dropped);
      while i < |taps|
        invariant i <= |taps| && Valid()
        invariant forall k | 0 <= k < |taps| :: tapOpen[k] == if k < i then want[k] else w.open[k]
        invariant sent == old(sent) + Moves(taps, w.open, want, w.dropped, i)
      {
        MovesStep(old(sent), taps, w.open, want, w.dropped, i);
        if Ours(taps[i]) && tapOpen[i] {
          SetTapOpen(i, false, tapDropped[i]);
        }
        i := i + 1;
      }
      assert tapOpen[..|taps|] == want;
    }

    /** `load_study_taps`: the transcript's tap is the first declared as one. */
    method LoadTaps(study: Study)
      requires tapOpen.Length == tapDropped.Length == MAX_STREAMS && |study.streams| <= MAX_STREAMS
      modifies this`taps, this`transcriptTap, this`transcriptTapOpen, this`transcriptDropped, tapOpen, tapDropped
      ensures Valid() && taps == study.streams && State() == Fresh(study)
      ensures transcriptTap >= 0 ==> taps[transcriptTap].sourceTag == SOURCE_GATT_TRANSCRIPT
      ensures forall k | 0 <= k < |taps| && taps[k].sourceTag == SOURCE_GATT_TRANSCRIPT :: 0 <= transcriptTap <= k
    {
      taps, transcriptTap, transcriptTapOpen, transcriptDropped := [], -1, false, 0;
      forall k | 0 <= k < MAX_STREAMS { tapOpen[k] := false; }
      forall k | 0 <= k < MAX_STREAMS { tapDropped[k] := 0; }
      var i := 0;
      while i < |study.streams|
        invariant i <= |study.streams| && taps == study.streams[..i] && !transcriptTapOpen && transcriptDropped == 0
        invariant forall k | 0 <= k < MAX_STREAMS :: !tapOpen[k] && tapDropped[k] == 0
        invariant -1 <= transcriptTap < i
        invariant transcriptTap >= 0 ==> taps[transcriptTap].sourceTag == SOURCE_GATT_TRANSCRIPT
        invariant forall k | 0 <= k < i && taps[k].sourceTag == SOURCE_GATT_TRANSCRIPT :: 0 <= transcriptTap <= k
      {
        taps := taps + [study.streams[i]];
        if taps[i].sourceTag == SOURCE_GATT_TRANSCRIPT && transcriptTap < 0 {
          transcriptTap := i;
        }
        i := i + 1;
      }
      assert tapOpen[..|taps|] == Fresh(study).open && tapDropped[..|taps|] == Fresh(study).dropped;
    }

    /** While an action runs, the capture threads charge what they lose, to the taps that are open. */
    method Lose(end: StepEnd)
      requires Valid()
      modifies this`transcriptDropped, tapDropped
      ensures Valid()
      ensures State() == old(State()).(dropped := Charged(old(State()).dropped, old(State()).open, end.lost),
                                       rows := old(State()).rows + end.rows)
    {
      var i := 0;
      while i < |taps|
        invariant i <= |taps| && Valid() && transcriptDropped == old(transcriptDropped)
        invariant forall k | 0 <= k < |taps| ::
                    tapDropped[k] == old(tapDropped[k]) + if k < i && tapOpen[k] then LostAt(end.lost, k) else 0
      {
        if tapOpen[i] {
          tapDropped[i] := tapDropped[i] + LostAt(end.lost, i);
        }
        i := i + 1;
      }
      transcriptDropped := transcriptDropped + end.rows;
      assert tapDropped[..|taps|] == Charged(old(State()).dropped, old(State()).open, end.lost);
    }

    /** One step whose indices are sound: stamped, its windows brought into line, run, reported. */
    method RunStep(study: Study, world: World, i: nat) returns (verdict: Outcome)
      requires Valid() && taps == study.streams && i < |study.steps|
      modifies this`sent, this`transcriptTapOpen, this`transcriptDropped, this`stepIndex, tapOpen, tapDropped
      ensures Valid() && State() == After(study, world, i, old(State())) && stepIndex == i
      ensures verdict == EndOf(world, i).verdict
      ensures sent == old(sent) + (Around(study, old(State()), i) + [Acting(i), Reported(i, verdict)])
    {
      hide Synced, Charged, Moves;
      ghost var w := State();
      stepIndex := i;
      SyncTaps(i);
      sent := sent + [Acting(i)];
      Lose(EndOf(world, i));
      verdict := EndOf(world, i).verdict;
      sent := sent + [Reported(i, verdict)];
      assert old(sent) + Around(study, w, i) + [Acting(i)] + [Reported(i, verdict)]
             == old(sent) + (Around(study, w, i) + [Acting(i), Reported(i, verdict)]);
    }

    /** The step loop of `dispatch_study`. */
    method RunSteps(study: Study, world: World) returns (completed: bool)
      requires Valid() && taps == study.streams
      modifies this`sent, this`transcriptTapOpen, this`transcriptDropped, this`stepIndex, tapOpen, tapDropped
      ensures Valid() && taps == study.streams
      ensures var p := Steps(study, world, 0, old(State()));
              sent == old(sent) + p.acts && State() == p.windows && completed == p.completed
    {
      hide Steps, Synced, Charged, Moves, IndexFault, After, Around;
      completed := true;
      ghost var whole := Steps(study, world, 0, State());
      ghost var done: seq<Act> := [];
      assert sent == sent + done && done + whole.acts == whole.acts;
      var i := 0;
      while i < |study.steps|
        invariant i <= |study.steps| && Valid() && taps == study.streams && completed
        invariant sent == old(sent) + done
        invariant var rest := Steps(study, world, i, State()); whole == rest.(acts := done + rest.acts)
      {
        var step := study.steps[i];
        StepsTurn(study, world, i, State(), done);
        var fault := IndexFault(study, step.action);
        if fault.Some? {
          sent := sent + [Reported(i, fault.value)];
          assert sent == old(sent) + (done + [Reported(i, fault.value)]);
          completed := false;
          return;
        }
        ghost var acts := Around(study, State(), i) + [Acting(i), Reported(i, EndOf(world, i).verdict)];
        var verdict := RunStep(study, world, i);
        done := done + acts;
        assert sent == old(sent) + done;
        if !verdict.Pass? && !step.continueOnFail {
          completed := false;
          return;
        }
        i := i + 1;
      }
      StepsEnd(study, world, State(), done);
    }

    /** `dispatch_study`: the trace of the study, whatever the world does. */
    method Dispatch(study: Study, world: World)
      requires Valid() && |study.streams| <= MAX_STREAMS
      modifies this, tapOpen, tapDropped
      ensures Valid() && sent == old(sent) + Trace(study, world)
    {
      hide Moves, Steps, Synced, Shut, Charged, Ending, IndexFault;
      var refusal := Refusal(study);
      if refusal.Some? {
        sent := sent + [Log(refusal.value)];
        sent := sent + [Done(false)];
        return;
      }
      ghost var before := sent;
      if world.reached != study.logLevel {
        sent := sent + [Log(LevelNotReached(study.logLevel, world.reached))];
      }
      ghost var a := LevelRemark(study, world);
      assert sent == before + a;
      LoadTaps(study);
      SyncTaps(0);
      ghost var b := Around(study, Fresh(study), 0);
      assert State() == Opening(study);
      assert sent == before + a + b;
      var completed := RunSteps(study, world);
      ghost var p := Body(study, world);
      Finish(study, world, p, completed);
      ghost var e := Ending(study, world, p);
      assert before + a + b + p.acts + e == before + (a + (b + (p.acts + e)));
    }

    /** The end of `dispatch_study`, in its order: window, drain, closes, report, StudyDone. */
    method Finish(study: Study, world: World, ghost p: Phase, completed: bool)
      requires Valid() && taps == study.streams && Parallel(study, p.windows)
      requires State() == p.windows && completed == p.completed
      modifies this`sent, this`transcriptTapOpen, this`transcriptDropped, tapOpen, tapDropped
      ensures Valid() && sent == old(sent) + Ending(study, world, p)
    {
      hide Moves, Shut, Charged;
      if world.windowOpen {
        sent := sent + [Log(WindowLeftOpen)];
      }
      ghost var s1 := if world.windowOpen then [Log(WindowLeftOpen)] else [];
      assert sent == old(sent) + s1;
      Lose(world.drain);
      ghost var w := State();
      CloseAllTaps();
      ghost var s2 := Moves(taps, w.open, Shut(taps, w.open), w.dropped, |taps|);
      ghost var rows := w.rows;
      if transcriptDropped > 0 {
        sent := sent + [Log(NotExhaustive(transcriptDropped))];
      }
      ghost var s3 := if rows > 0 then [Log(NotExhaustive(rows))] else [];
      assert sent == old(sent) + s1 + s2 + s3;
      sent := sent + [Done(completed)];
      assert old(sent) + s1 + s2 + s3 + [Done(completed)] == old(sent) + (s1 + (s2 + (s3 + [Done(completed)])));
    }
  }
}
