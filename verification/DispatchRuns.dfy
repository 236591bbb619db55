/** What every study leaves on the link, whatever its steps do and whatever is lost meanwhile. */
module DispatchRuns {
  import opened Bytes
  import opened Outcomes
  import opened Messages
  import opened Dispatch

  // ---- Reading a trace -----------------------------------------------------------------------

  /** The acts that concern one tap. */
  function TapActs(acts: seq<Act>, k: nat): seq<Act>
    decreases |acts|
  {
    if acts == [] then []
    else
      var here := match acts[0] case Opened(t, _) => t == k case Closed(t, _, _) => t == k case _ => false;
      (if here then [acts[0]] else []) + TapActs(acts[1..], k)
  }

  /** The step indices of the results, in the order they were sent. */
  function Results(acts: seq<Act>): seq<nat>
    decreases |acts|
  {
    if acts == [] then []
    else (if acts[0].Reported? then [acts[0].step] else []) + Results(acts[1..])
  }

  function Count(from: nat, to: nat): (ns: seq<nat>)
    ensures |ns| == if from <= to then to - from else 0
    ensures forall j | 0 <= j < |ns| :: ns[j] == from + j
    decreases if from <= to then to - from else 0
  {
    if from >= to then [] else [from] + Count(from + 1, to)
  }

  predicate AllClosed(open: seq<bool>) {
    forall k | 0 <= k < |open| :: !open[k]
  }

  /**
   * A trace replayed against which taps are open: None as soon as an open tap is opened, a closed
   * one closed, one that is not ours announced at all, or an action runs with a tap open that its
   * scope does not cover or closed that it does.
   */
  function Replay(taps: seq<StreamTap>, open: seq<bool>, acts: seq<Act>): (r: Option<seq<bool>>)
    requires |open| == |taps|
    ensures r.Some? ==> |r.value| == |taps|
    decreases |acts|
  {
    if acts == [] then Some(open)
    else
      match acts[0]
      case Opened(k, id) =>
        if k < |taps| && Ours(taps[k]) && id == taps[k].id && !open[k]
        then Replay(taps, open[k := true], acts[1..]) else None
      case Closed(k, id, _) =>
        if k < |taps| && Ours(taps[k]) && id == taps[k].id && open[k]
        then Replay(taps, open[k := false], acts[1..]) else None
      case Acting(step) =>
        if RightlyOpen(taps, open, step) then Replay(taps, open, acts[1..]) else None
      case _ => Replay(taps, open, acts[1..])
  }

  predicate RightlyOpen(taps: seq<StreamTap>, open: seq<bool>, step: nat)
    requires |open| == |taps|
  {
    forall k | 0 <= k < |taps| :: open[k] <==> Ours(taps[k]) && Covers(taps[k], step)
  }

  lemma {:induction false} ReplayAppends(taps: seq<StreamTap>, open: seq<bool>, a: seq<Act>, b: seq<Act>)
    requires |open| == |taps|
    ensures Replay(taps, open, a + b)
            == if Replay(taps, open, a).None? then None else Replay(taps, Replay(taps, open, a).value, b)
    decreases |a|
  {
    if a == [] {
      assert a + b == b;
    } else {
      assert (a + b)[1..] == a[1..] + b;
      match a[0]
      case Opened(k, _) =>
        if k < |taps| { ReplayAppends(taps, open[k := true], a[1..], b); }
      case Closed(k, _, _) =>
        if k < |taps| { ReplayAppends(taps, open[k := false], a[1..], b); }
      case _ => ReplayAppends(taps, open, a[1..], b);
    }
  }

  lemma {:induction false} TapActsAppend(a: seq<Act>, b: seq<Act>, k: nat)
    ensures TapActs(a + b, k) == TapActs(a, k) + TapActs(b, k)
    decreases |a|
  {
    if a == [] {
      assert a + b == b;
    } else {
      assert (a + b)[1..] == a[1..] + b;
      TapActsAppend(a[1..], b, k);
    }
  }

  lemma {:induction false} ResultsAppend(a: seq<Act>, b: seq<Act>)
    ensures Results(a + b) == Results(a) + Results(b)
    decreases |a|
  {
    if a == [] {
      assert a + b == b;
    } else {
      ResultsAppend(a[1..], b);
      assert (a + b)[1..] == a[1..] + b && (a + b)[0] == a[0];
      var here: seq<nat> := if a[0].Reported? then [a[0].step] else [];
      assert Results(a + b) == here + (Results(a[1..]) + Results(b));
      assert here + (Results(a[1..]) + Results(b)) == (here + Results(a[1..])) + Results(b);
    }
  }

  /** At most one act that is no result. */
  lemma OneAct(acts: seq<Act>)
    requires |acts| <= 1
    ensures Results(acts) == if acts == [] || !acts[0].Reported? then [] else [acts[0].step]
  {
    if acts != [] {
      assert acts[1..] == [];
    }
  }

  // ---- Transitions --------------------------------------------------------------------------------

  lemma {:induction false} TapActsOfMoves(taps: seq<StreamTap>, open: seq<bool>, want: seq<bool>, dropped: seq<nat>,
                                          n: nat, k: nat)
    requires n <= |taps| == |open| == |want| == |dropped| && k < |taps|
    ensures TapActs(Moves(taps, open, want, dropped, n), k)
            == if k < n then Move(taps, open, want, dropped, k) else []
    decreases n
  {
    hide TapActs, Move;
    if n == 0 {
      QuietTap([], k);
    } else {
      var front, last := Moves(taps, open, want, dropped, n - 1), Move(taps, open, want, dropped, n - 1);
      TapActsOfMoves(taps, open, want, dropped, n - 1, k);
      TapActsAppend(front, last, k);
      TapActsOfMove(taps, open, want, dropped, n - 1, k);
      assert TapActs(front, k) + [] == TapActs(front, k) && [] + TapActs(last, k) == TapActs(last, k);
    }
  }

  lemma TapActsOfMove(taps: seq<StreamTap>, open: seq<bool>, want: seq<bool>, dropped: seq<nat>, i: nat, k: nat)
    requires i < |taps| == |open| == |want| == |dropped|
    ensures TapActs(Move(taps, open, want, dropped, i), k)
            == if k == i then Move(taps, open, want, dropped, i) else []
  {
    var move := Move(taps, open, want, dropped, i);
    if move != [] { assert move[1..] == []; }
  }

  lemma {:induction false} MovesReportNothing(taps: seq<StreamTap>, open: seq<bool>, want: seq<bool>,
                                              dropped: seq<nat>, n: nat)
    requires n <= |taps| == |open| == |want| == |dropped|
    ensures Results(Moves(taps, open, want, dropped, n)) == []
    ensures forall a | a in Moves(taps, open, want, dropped, n) :: a.Opened? || a.Closed?
    decreases n
  {
    if n > 0 {
      MovesReportNothing(taps, open, want, dropped, n - 1);
      var last := Move(taps, open, want, dropped, n - 1);
      ResultsAppend(Moves(taps, open, want, dropped, n - 1), last);
      if last != [] { assert last[1..] == []; }
    }
  }

  lemma {:induction false} ReplayMoves(taps: seq<StreamTap>, open: seq<bool>, want: seq<bool>, dropped: seq<nat>,
                                       n: nat)
    requires n <= |taps| == |open| == |want| == |dropped|
    requires forall k | 0 <= k < |taps| && !Ours(taps[k]) :: want[k] == open[k]
    ensures Replay(taps, open, Moves(taps, open, want, dropped, n)) == Some(want[..n] + open[n..])
    decreases n
  {
    hide Replay, Move;
    if n == 0 {
      assert want[..0] + open[0..] == open;
      NothingReplayed(taps, open);
    } else {
      var so := want[..n - 1] + open[n - 1..];
      ReplayMoves(taps, open, want, dropped, n - 1);
      ReplayAppends(taps, open, Moves(taps, open, want, dropped, n - 1), Move(taps, open, want, dropped, n - 1));
      MoveReplays(taps, so, open, want, dropped, n - 1);
      assert so[n - 1 := want[n - 1]] == want[..n] + open[n..];
    }
  }

  lemma NothingReplayed(taps: seq<StreamTap>, open: seq<bool>)
    requires |taps| == |open|
    ensures Replay(taps, open, []) == Some(open)
  {
  }

  lemma MoveReplays(taps: seq<StreamTap>, so: seq<bool>, open: seq<bool>, want: seq<bool>, dropped: seq<nat>, k: nat)
    requires k < |taps| == |open| == |want| == |dropped| == |so|
    requires so[k] == open[k] && (!Ours(taps[k]) ==> want[k] == open[k])
    ensures Replay(taps, so, Move(taps, open, want, dropped, k)) == Some(so[k := want[k]])
  {
    var move := Move(taps, open, want, dropped, k);
    if move == [] {
      assert so[k := want[k]] == so;
    } else {
      assert move[1..] == [];
      NothingReplayed(taps, so[k := want[k]]);
    }
  }

  // ---- Windows around the steps ---------------------------------------------------------------------

  /** The windows are as the sync in front of step `step` left them, and nobody else's is open. */
  predicate InLine(study: Study, w: Windows, step: nat) {
    Parallel(study, w) && RightlyOpen(study.streams, w.open, step)
  }

  lemma AroundReplays(study: Study, w: Windows, from: nat, i: nat)
    requires InLine(study, w, from)
    ensures var want := Synced(study.streams, w.open, i);
            Replay(study.streams, w.open, Around(study, w, i)) == Some(want) && RightlyOpen(study.streams, want, i)
  {
    var want := Synced(study.streams, w.open, i);
    ReplayMoves(study.streams, w.open, want, w.dropped, |study.streams|);
    assert want[..|study.streams|] + w.open[|study.streams|..] == want;
  }

  lemma RunReplays(taps: seq<StreamTap>, open: seq<bool>, i: nat, verdict: Outcome)
    requires |open| == |taps| && RightlyOpen(taps, open, i)
    ensures Replay(taps, open, [Acting(i), Reported(i, verdict)]) == Some(open)
  {
    var run: seq<Act> := [Acting(i), Reported(i, verdict)];
    assert run[1..] == [Reported(i, verdict)] && run[1..][1..] == [];
    assert Replay(taps, open, run[1..]) == Some(open);
  }

  lemma {:induction false} StepsReplay(study: Study, world: World, i: nat, w: Windows, from: nat)
    requires i <= |study.steps| && InLine(study, w, from)
    ensures var p := Steps(study, world, i, w);
            && Replay(study.streams, w.open, p.acts) == Some(p.windows.open)
            && exists step :: InLine(study, p.windows, step)
    decreases |study.steps| - i
  {
    hide IndexFault, Around, Synced;
    if i == |study.steps| || IndexFault(study, study.steps[i].action).Some? {
    } else {
      var taps := study.streams;
      var around, run := Around(study, w, i), [Acting(i), Reported(i, EndOf(world, i).verdict)];
      var w' := After(study, world, i, w);
      AroundReplays(study, w, from, i);
      ReplayAppends(taps, w.open, around, run);
      RunReplays(taps, w'.open, i, EndOf(world, i).verdict);
      assert InLine(study, w', i);
      if GoesOn(study, world, i) {
        StepsReplay(study, world, i + 1, w', i);
        ReplayAppends(taps, w.open, around + run, Steps(study, world, i + 1, w').acts);
      }
    }
  }

  lemma QuietReplays(taps: seq<StreamTap>, open: seq<bool>, acts: seq<Act>)
    requires |open| == |taps| && forall a | a in acts :: a.Log? || a.Reported? || a.Done?
    ensures Replay(taps, open, acts) == Some(open)
    decreases |acts|
  {
    if acts != [] {
      assert acts[0] in acts;
      QuietReplays(taps, open, acts[1..]);
    }
  }

  lemma EndingReplays(study: Study, world: World, p: Phase, step: nat)
    requires InLine(study, p.windows, step)
    ensures var r := Replay(study.streams, p.windows.open, Ending(study, world, p));
            r.Some? && AllClosed(r.value)
  {
    hide Shut;
    var taps, open := study.streams, p.windows.open;
    var dropped := Charged(p.windows.dropped, p.windows.open, world.drain.lost);
    var rows := p.windows.rows + world.drain.rows;
    var s1: seq<Act> := if world.windowOpen then [Log(WindowLeftOpen)] else [];
    var s2 := Moves(taps, open, Shut(taps, open), dropped, |taps|);
    var s3: seq<Act> := (if rows > 0 then [Log(NotExhaustive(rows))] else []) + [Act.Done(p.completed)];
    assert Ending(study, world, p) == s1 + (s2 + s3);
    ReplayAppends(taps, open, s1, s2 + s3);
    QuietReplays(taps, open, s1);
    ReplayAppends(taps, open, s2, s3);
    ReplayMoves(taps, open, Shut(taps, open), dropped, |taps|);
    assert Shut(taps, open)[..|taps|] + open[|taps|..] == Shut(taps, open);
    QuietReplays(taps, Shut(taps, open), s3);
  }

  /**
   * Every window is announced before the action it covers and never twice, no action runs with a
   * window wrongly open or shut, and at the end of every study nothing is left open.
   */
  lemma WindowsFollowTheSteps(study: Study, world: World)
    ensures var r := Replay(study.streams, Fresh(study).open, Trace(study, world));
            r.Some? && AllClosed(r.value)
  {
    hide Steps, Around, Ending, IndexFault;
    var taps, open := study.streams, Fresh(study).open;
    var refusal := Refusal(study);
    if refusal.Some? {
      QuietReplays(taps, open, Trace(study, world));
    } else {
      var a, b, p := LevelRemark(study, world), Around(study, Fresh(study), 0), Body(study, world);
      var e := Ending(study, world, p);
      ReplayAppends(taps, open, a, b + (p.acts + e));
      QuietReplays(taps, open, a);
      ReplayAppends(taps, open, b, p.acts + e);
      OpeningReplays(study);
      ReplayAppends(taps, Opening(study).open, p.acts, e);
      StepsReplay(study, world, 0, Opening(study), 0);
      var step :| InLine(study, p.windows, step);
      EndingReplays(study, world, p, step);
    }
  }

  lemma OpeningReplays(study: Study)
    ensures Replay(study.streams, Fresh(study).open, Around(study, Fresh(study), 0)) == Some(Opening(study).open)
    ensures InLine(study, Opening(study), 0)
  {
    var taps, open := study.streams, Fresh(study).open;
    var want := Synced(taps, open, 0);
    ReplayMoves(taps, open, want, Fresh(study).dropped, |taps|);
    assert want[..|taps|] + open[|taps|..] == want;
  }

  // ---- Results and the verdict ------------------------------------------------------------------------

  lemma {:induction false} StepsReport(study: Study, world: World, i: nat, w: Windows)
    requires i <= |study.steps| && Parallel(study, w)
    ensures var p := Steps(study, world, i, w);
            && (exists n :: i <= n <= |study.steps| && Results(p.acts) == Count(i, n))
            && (p.completed <==> forall j | i <= j < |study.steps| :: GoesOn(study, world, j))
            && (p.completed ==> Results(p.acts) == Count(i, |study.steps|))
            && forall a | a in p.acts :: !a.Done?
    decreases |study.steps| - i
  {
    hide IndexFault, After, Around, Results, Count;
    var n := |study.steps|;
    CountUnfolds(i, n);
    if i == n {
      OneAct([]);
    } else if IndexFault(study, study.steps[i].action).Some? {
      OneAct(Steps(study, world, i, w).acts);
      CountUnfolds(i, i + 1);
      assert Results(Steps(study, world, i, w).acts) == Count(i, i + 1);
      assert !GoesOn(study, world, i);
    } else {
      var acts := Around(study, w, i) + [Acting(i), Reported(i, EndOf(world, i).verdict)];
      TurnReports(study, w, i, EndOf(world, i).verdict);
      if GoesOn(study, world, i) {
        var rest := Steps(study, world, i + 1, After(study, world, i, w));
        StepsReport(study, world, i + 1, After(study, world, i, w));
        ResultsAppend(acts, rest.acts);
        var m :| i + 1 <= m <= n && Results(rest.acts) == Count(i + 1, m);
        CountUnfolds(i, m);
        assert Results(Steps(study, world, i, w).acts) == Count(i, m);
      } else {
        CountUnfolds(i, i + 1);
        assert Results(Steps(study, world, i, w).acts) == Count(i, i + 1);
      }
    }
  }

  lemma CountUnfolds(from: nat, to: nat)
    ensures from < to ==> Count(from, to) == [from] + Count(from + 1, to)
    ensures from >= to ==> Count(from, to) == []
    ensures to == from + 1 ==> Count(from, to) == [from]
  {
    assert Count(from + 1, from + 1) == [];
  }

  /** One step's turn: its windows report nothing, and it reports itself. */
  lemma TurnReports(study: Study, w: Windows, i: nat, verdict: Outcome)
    requires Parallel(study, w)
    ensures var acts := Around(study, w, i) + [Acting(i), Reported(i, verdict)];
            Results(acts) == [i] && forall a | a in acts :: !a.Done?
  {
    hide Moves, Results, Synced;
    MovesReportNothing(study.streams, w.open, Synced(study.streams, w.open, i), w.dropped, |study.streams|);
    ResultsAppend(Around(study, w, i), [Acting(i), Reported(i, verdict)]);
    ResultsAppend([Acting(i)], [Reported(i, verdict)]);
    OneAct([Acting(i)]);
    OneAct([Reported(i, verdict)]);
    assert [Acting(i)] + [Reported(i, verdict)] == [Acting(i), Reported(i, verdict)];
  }

  lemma EndingReports(study: Study, world: World, p: Phase)
    requires Parallel(study, p.windows)
    ensures var e := Ending(study, world, p);
            && Results(e) == [] && e != [] && e[|e| - 1] == Act.Done(p.completed)
            && forall a | a in e[..|e| - 1] :: !a.Done?
  {
    hide Moves, Shut, Charged, Results;
    var dropped := Charged(p.windows.dropped, p.windows.open, world.drain.lost);
    var rows := p.windows.rows + world.drain.rows;
    var s1: seq<Act> := if world.windowOpen then [Log(WindowLeftOpen)] else [];
    var s2 := Moves(study.streams, p.windows.open, Shut(study.streams, p.windows.open), dropped, |study.streams|);
    var s3: seq<Act> := if rows > 0 then [Log(NotExhaustive(rows))] else [];
    MovesReportNothing(study.streams, p.windows.open, Shut(study.streams, p.windows.open), dropped, |study.streams|);
    assert Ending(study, world, p) == (s1 + s2 + s3) + [Act.Done(p.completed)];
    FourParts(s1, s2, s3, p.completed);
  }

  lemma FourParts(s1: seq<Act>, s2: seq<Act>, s3: seq<Act>, completed: bool)
    requires |s1| <= 1 && |s3| <= 1 && Results(s2) == []
    requires forall a | a in s1 + s2 + s3 :: !a.Done? && !a.Reported?
    ensures var e := (s1 + s2 + s3) + [Act.Done(completed)];
            Results(e) == [] && e[|e| - 1] == Act.Done(completed) && e[..|e| - 1] == s1 + s2 + s3
  {
    hide Results;
    ResultsAppend(s1 + s2 + s3, [Act.Done(completed)]);
    ResultsAppend(s1 + s2, s3);
    ResultsAppend(s1, s2);
    OneAct(s1);
    OneAct(s3);
    OneAct([Act.Done(completed)]);
    if s1 != [] { assert s1[0] in s1 + s2 + s3; }
    if s3 != [] { assert s3[0] in s1 + s2 + s3; }
  }

  /**
   * The results are numbered from 0 without a gap, exactly one StudyDone ends the trace, and it says
   * completed exactly when no guard refused the study and every step had sound indices and either
   * passed or was allowed to fail.
   */
  lemma StudyIsReported(study: Study, world: World)
    ensures var t := Trace(study, world);
            && (exists n :: 0 <= n <= |study.steps| && Results(t) == Count(0, n))
            && t != [] && t[|t| - 1].Done? && (forall a | a in t[..|t| - 1] :: !a.Done?)
            && (t[|t| - 1].completed <==>
                  && !study.unsupported && study.stepsCrcValid && study.streamsCrcValid
                  && forall i | 0 <= i < |study.steps| ::
                       && SoundIndices(study, study.steps[i].action)
                       && (EndOf(world, i).verdict.Pass? || study.steps[i].continueOnFail))
            && (t[|t| - 1].completed ==> |Results(t)| == |study.steps|)
  {
    hide Steps, Moves, Ending, IndexFault, Synced, Opening, Count, Results, Fresh, SoundIndices;
    var refusal := Refusal(study);
    forall i | 0 <= i < |study.steps|
      ensures GoesOn(study, world, i)
              <==> && SoundIndices(study, study.steps[i].action)
                   && (EndOf(world, i).verdict.Pass? || study.steps[i].continueOnFail)
    {
      IndexFaultExactly(study, study.steps[i].action);
    }
    if refusal.Some? {
      RefusalReports(refusal.value);
    } else {
      StudyBodyReports(study, world);
    }
  }

  lemma RefusalReports(remark: Remark)
    ensures Results([Log(remark), Act.Done(false)]) == [] == Count(0, 0)
  {
    assert [Log(remark), Act.Done(false)][1..] == [Act.Done(false)] && [Act.Done(false)][1..] == [];
    assert Results([Act.Done(false)]) == [];
  }

  lemma StudyBodyReports(study: Study, world: World)
    requires Refusal(study).None?
    ensures var t, p := Trace(study, world), Body(study, world);
            && Results(t) == Results(p.acts)
            && (exists n :: 0 <= n <= |study.steps| && Results(t) == Count(0, n))
            && t != [] && t[|t| - 1] == Act.Done(p.completed) && (forall a | a in t[..|t| - 1] :: !a.Done?)
            && (p.completed <==> forall i | 0 <= i < |study.steps| :: GoesOn(study, world, i))
            && (p.completed ==> |Results(t)| == |study.steps|)
  {
    hide Steps, Moves, Ending, IndexFault, Synced, GoesOn, Opening, Count, Results, Fresh, Refusal;
    var a, b, p := LevelRemark(study, world), Around(study, Fresh(study), 0), Body(study, world);
    var e := Ending(study, world, p);
    assert Trace(study, world) == a + b + p.acts + e;
    StepsReport(study, world, 0, Opening(study));
    EndingReports(study, world, p);
    MovesReportNothing(study.streams, Fresh(study).open, Synced(study.streams, Fresh(study).open, 0),
                       Fresh(study).dropped, |study.streams|);
    OneAct(a);
    ResultsAppend(a + b + p.acts, e);
    ResultsAppend(a + b, p.acts);
    ResultsAppend(a, b);
    var t := Trace(study, world);
    assert t[..|t| - 1] == a + b + p.acts + e[..|e| - 1];
    CountLength(|study.steps|);
  }

  lemma CountLength(n: nat)
    ensures |Count(0, n)| == n
  {
  }

  // ---- The script ----------------------------------------------------------------------------------

  /** The step's indices, if it has any, name a protocol the study carries and a state that protocol has. */
  predicate SoundIndices(study: Study, action: Action) {
    action.RunProtocol? ==>
      action.protocol < |study.protocols| && action.entryState < |study.protocols[action.protocol].states|
  }

  /** Exactly the other steps are stopped, each with a failure. */
  lemma IndexFaultExactly(study: Study, action: Action)
    ensures IndexFault(study, action).None? <==> SoundIndices(study, action)
    ensures IndexFault(study, action).Some? ==> IndexFault(study, action).value.Fail?
  {
  }

  /** The steps from `i` on, without windows: each run and reported, up to the first that stops the study. */
  function Script(study: Study, world: World, i: nat): seq<Act>
    requires i <= |study.steps|
    decreases |study.steps| - i
  {
    if i == |study.steps| then [Act.Done(true)]
    else
      var step, verdict := study.steps[i], EndOf(world, i).verdict;
      if !SoundIndices(study, step.action) then
        [Reported(i, IndexFault(study, step.action).Extract()), Act.Done(false)]
      else
        [Acting(i), Reported(i, verdict)]
        + if verdict.Pass? || step.continueOnFail then Script(study, world, i + 1) else [Act.Done(false)]
  }

  /** A trace without its windows and remarks. */
  function Bare(acts: seq<Act>): seq<Act>
    decreases |acts|
  {
    if acts == [] then []
    else (if acts[0].Opened? || acts[0].Closed? || acts[0].Log? then [] else [acts[0]]) + Bare(acts[1..])
  }

  lemma {:induction false} BareAppends(a: seq<Act>, b: seq<Act>)
    ensures Bare(a + b) == Bare(a) + Bare(b)
    decreases |a|
  {
    if a == [] {
      assert a + b == b;
    } else {
      BareAppends(a[1..], b);
      assert (a + b)[1..] == a[1..] + b && (a + b)[0] == a[0];
      var here: seq<Act> := if a[0].Opened? || a[0].Closed? || a[0].Log? then [] else [a[0]];
      assert here + (Bare(a[1..]) + Bare(b)) == (here + Bare(a[1..])) + Bare(b);
    }
  }

  lemma {:induction false} NothingBare(acts: seq<Act>)
    requires forall a | a in acts :: a.Opened? || a.Closed? || a.Log?
    ensures Bare(acts) == []
    decreases |acts|
  {
    if acts != [] {
      assert acts[0] in acts;
      NothingBare(acts[1..]);
    }
  }

  lemma {:induction false} AllBare(acts: seq<Act>)
    requires forall a | a in acts :: !a.Opened? && !a.Closed? && !a.Log?
    ensures Bare(acts) == acts
    decreases |acts|
  {
    if acts != [] {
      assert acts[0] in acts;
      AllBare(acts[1..]);
    }
  }

  lemma AroundIsBare(study: Study, w: Windows, i: nat)
    requires Parallel(study, w)
    ensures Bare(Around(study, w, i)) == []
  {
    hide Moves, Bare;
    MovesReportNothing(study.streams, w.open, Synced(study.streams, w.open, i), w.dropped, |study.streams|);
    NothingBare(Around(study, w, i));
  }

  lemma {:induction false} StepsFollowTheScript(study: Study, world: World, i: nat, w: Windows)
    requires i <= |study.steps| && Parallel(study, w)
    ensures var p := Steps(study, world, i, w);
            Bare(p.acts) + [Act.Done(p.completed)] == Script(study, world, i)
    decreases |study.steps| - i
  {
    hide IndexFault, Around, After, Bare, SoundIndices;
    if i == |study.steps| {
      AllBare([]);
    } else {
      IndexFaultExactly(study, study.steps[i].action);
      var run := [Acting(i), Reported(i, EndOf(world, i).verdict)];
      AroundIsBare(study, w, i);
      BareAppends(Around(study, w, i), run);
      AllBare(run);
      assert [] + run == run;
      if IndexFault(study, study.steps[i].action).Some? {
        AllBare(Steps(study, world, i, w).acts);
      } else if GoesOn(study, world, i) {
        var rest := Steps(study, world, i + 1, After(study, world, i, w));
        StepsFollowTheScript(study, world, i + 1, After(study, world, i, w));
        BareAppends(Around(study, w, i) + run, rest.acts);
        assert run + Bare(rest.acts) + [Act.Done(rest.completed)]
               == run + (Bare(rest.acts) + [Act.Done(rest.completed)]);
      }
    }
  }

  lemma EndingIsBare(study: Study, world: World, p: Phase)
    requires Parallel(study, p.windows)
    ensures Bare(Ending(study, world, p)) == [Act.Done(p.completed)]
  {
    hide Moves, Shut, Charged, Bare;
    var dropped := Charged(p.windows.dropped, p.windows.open, world.drain.lost);
    var rows := p.windows.rows + world.drain.rows;
    var s1: seq<Act> := if world.windowOpen then [Log(WindowLeftOpen)] else [];
    var s2 := Moves(study.streams, p.windows.open, Shut(study.streams, p.windows.open), dropped, |study.streams|);
    var s3: seq<Act> := if rows > 0 then [Log(NotExhaustive(rows))] else [];
    MovesReportNothing(study.streams, p.windows.open, Shut(study.streams, p.windows.open), dropped, |study.streams|);
    assert Ending(study, world, p) == (s1 + s2 + s3) + [Act.Done(p.completed)];
    OnlyLastIsBare(s1 + s2 + s3, Act.Done(p.completed));
  }

  lemma OnlyLastIsBare(acts: seq<Act>, last: Act)
    requires last.Done? && forall a | a in acts :: a.Opened? || a.Closed? || a.Log?
    ensures Bare(acts + [last]) == [last]
  {
    hide Bare;
    NothingBare(acts);
    AllBare([last]);
    BareAppends(acts, [last]);
  }

  /**
   * Apart from windows and remarks, a study that carries an action this build has no name for, or whose
   * steps or streams arrived corrupt, leaves one StudyDone(false); every other leaves its script.
   */
  lemma TraceFollowsTheScript(study: Study, world: World)
    ensures Bare(Trace(study, world))
            == if study.unsupported || !study.stepsCrcValid || !study.streamsCrcValid then [Act.Done(false)]
               else Script(study, world, 0)
  {
    hide Steps, Moves, Ending, Opening, Fresh, Bare, Script;
    if Refusal(study).Some? {
      NothingBare([Log(Refusal(study).value)]);
      AllBare([Act.Done(false)]);
      BareAppends([Log(Refusal(study).value)], [Act.Done(false)]);
      assert [Log(Refusal(study).value)] + [Act.Done(false)] == Trace(study, world);
      assert [] + [Act.Done(false)] == [Act.Done(false)];
    } else {
      var a, b, p := LevelRemark(study, world), Around(study, Fresh(study), 0), Body(study, world);
      var e := Ending(study, world, p);
      assert Trace(study, world) == (a + b) + (p.acts + e);
      NothingBare(a);
      AroundIsBare(study, Fresh(study), 0);
      BareAppends(a, b);
      BareAppends(a + b, p.acts + e);
      BareAppends(p.acts, e);
      EndingIsBare(study, world, p);
      StepsFollowTheScript(study, world, 0, Opening(study));
      assert [] + [] + (Bare(p.acts) + [Act.Done(p.completed)]) == Bare(p.acts) + [Act.Done(p.completed)];
    }
  }

  // ---- Remarks --------------------------------------------------------------------------------------

  function Remarks(acts: seq<Act>): seq<Remark>
    decreases |acts|
  {
    if acts == [] then [] else (if acts[0].Log? then [acts[0].remark] else []) + Remarks(acts[1..])
  }

  lemma {:induction false} RemarksAppend(a: seq<Act>, b: seq<Act>)
    ensures Remarks(a + b) == Remarks(a) + Remarks(b)
    decreases |a|
  {
    if a == [] {
      assert a + b == b;
    } else {
      RemarksAppend(a[1..], b);
      assert (a + b)[1..] == a[1..] + b && (a + b)[0] == a[0];
      var here: seq<Remark> := if a[0].Log? then [a[0].remark] else [];
      assert here + (Remarks(a[1..]) + Remarks(b)) == (here + Remarks(a[1..])) + Remarks(b);
    }
  }

  lemma {:induction false} NothingRemarked(acts: seq<Act>)
    requires forall a | a in acts :: !a.Log?
    ensures Remarks(acts) == []
    decreases |acts|
  {
    if acts != [] {
      assert acts[0] in acts;
      NothingRemarked(acts[1..]);
    }
  }

  /** The transcript rows lost by the steps before `n`. */
  function RowsLost(world: World, n: nat): nat {
    if n == 0 then 0 else RowsLost(world, n - 1) + EndOf(world, n - 1).rows
  }

  lemma {:induction false} StepsRemarkNothing(study: Study, world: World, i: nat, w: Windows)
    requires i <= |study.steps| && Parallel(study, w) && w.rows == RowsLost(world, i)
    ensures var p := Steps(study, world, i, w);
            Remarks(p.acts) == [] && p.windows.rows == RowsLost(world, p.ran)
    decreases |study.steps| - i
  {
    hide IndexFault, Moves, Synced, Charged, Remarks;
    if i == |study.steps| || IndexFault(study, study.steps[i].action).Some? {
      NothingRemarked(Steps(study, world, i, w).acts);
    } else {
      var acts := Around(study, w, i) + [Acting(i), Reported(i, EndOf(world, i).verdict)];
      MovesReportNothing(study.streams, w.open, Synced(study.streams, w.open, i), w.dropped, |study.streams|);
      NothingRemarked(acts);
      if GoesOn(study, world, i) {
        var rest := Steps(study, world, i + 1, After(study, world, i, w));
        StepsRemarkNothing(study, world, i + 1, After(study, world, i, w));
        RemarksAppend(acts, rest.acts);
      }
    }
  }

  lemma OneRemark(acts: seq<Act>)
    requires |acts| <= 1 && forall a | a in acts :: a.Log?
    ensures Remarks(acts) == if acts == [] then [] else [acts[0].remark]
  {
    if acts != [] { assert acts[1..] == []; }
  }

  lemma EndingRemarks(study: Study, world: World, p: Phase)
    requires Parallel(study, p.windows)
    ensures var lost := p.windows.rows + world.drain.rows;
            Remarks(Ending(study, world, p))
            == (if world.windowOpen then [WindowLeftOpen] else []) + (if lost > 0 then [NotExhaustive(lost)] else [])
  {
    hide Moves, Shut, Charged, Remarks;
    var dropped := Charged(p.windows.dropped, p.windows.open, world.drain.lost);
    var rows := p.windows.rows + world.drain.rows;
    var s1: seq<Act> := if world.windowOpen then [Log(WindowLeftOpen)] else [];
    var s2 := Moves(study.streams, p.windows.open, Shut(study.streams, p.windows.open), dropped, |study.streams|);
    var s3: seq<Act> := if rows > 0 then [Log(NotExhaustive(rows))] else [];
    MovesReportNothing(study.streams, p.windows.open, Shut(study.streams, p.windows.open), dropped, |study.streams|);
    assert Ending(study, world, p) == ((s1 + s2) + s3) + [Act.Done(p.completed)];
    OneRemark(s1);
    NothingRemarked(s2);
    OneRemark(s3);
    NothingRemarked([Act.Done(p.completed)]);
    RemarksAppend(s1, s2);
    RemarksAppend(s1 + s2, s3);
    RemarksAppend((s1 + s2) + s3, [Act.Done(p.completed)]);
  }

  /**
   * What a study has logged: why it was refused, the action first and the steps before the streams; or the
   * verbosity this build does not reach, a window the steps left open, and how many transcript rows were lost.
   */
  lemma RemarksAreExactly(study: Study, world: World)
    ensures var lost := RowsLost(world, Body(study, world).ran) + world.drain.rows;
            Remarks(Trace(study, world))
            == if study.unsupported then [UnsupportedAction]
               else if !study.stepsCrcValid then [StepsMismatch]
               else if !study.streamsCrcValid then [StreamsMismatch]
               else (if study.logLevel == world.reached then [] else [LevelNotReached(study.logLevel, world.reached)])
                    + (if world.windowOpen then [WindowLeftOpen] else [])
                    + (if lost == 0 then [] else [NotExhaustive(lost)])
  {
    hide Steps, Moves, Ending, Remarks, Synced;
    if Refusal(study).Some? {
      OneRemark([Log(Refusal(study).value)]);
      NothingRemarked([Act.Done(false)]);
      RemarksAppend([Log(Refusal(study).value)], [Act.Done(false)]);
      assert [Log(Refusal(study).value)] + [Act.Done(false)] == Trace(study, world);
    } else {
      var a, b, p := LevelRemark(study, world), Around(study, Fresh(study), 0), Body(study, world);
      var e := Ending(study, world, p);
      assert Trace(study, world) == (a + b) + (p.acts + e);
      OneRemark(a);
      MovesReportNothing(study.streams, Fresh(study).open, Synced(study.streams, Fresh(study).open, 0),
                         Fresh(study).dropped, |study.streams|);
      NothingRemarked(b);
      RemarksAppend(a, b);
      RemarksAppend(p.acts, e);
      RemarksAppend(a + b, p.acts + e);
      StepsRemarkNothing(study, world, 0, Opening(study));
      EndingRemarks(study, world, p);
    }
  }

  // ---- One tap's story ----------------------------------------------------------------------------

  /** What the steps before `n` that tap `k` covers lost on it. */
  function LostWhileOpen(t: StreamTap, world: World, k: nat, n: nat): nat {
    if n == 0 then 0
    else LostWhileOpen(t, world, k, n - 1)
         + if Ours(t) && Covers(t, n - 1) then LostAt(EndOf(world, n - 1).lost, k) else 0
  }

  /** The last step synced to once `ran` steps have run: the first is synced to before any does. */
  function LastSynced(ran: nat): nat {
    if ran == 0 then 0 else ran - 1
  }

  /** What the tap's close reports: all it lost while its window was open, the drain's too if it was the last. */
  function LossAtClose(study: Study, world: World, k: nat, ran: nat): nat
    requires k < |study.streams|
  {
    var t := study.streams[k];
    LostWhileOpen(t, world, k, ran) + if Covers(t, LastSynced(ran)) then LostAt(world.drain.lost, k) else 0
  }

  function OpenAct(study: Study, k: nat): Act
    requires k < |study.streams|
  {
    Opened(k, study.streams[k].id)
  }

  function CloseAct(study: Study, world: World, k: nat, ran: nat): Act
    requires k < |study.streams|
  {
    Closed(k, study.streams[k].id, LossAtClose(study, world, k, ran))
  }

  /** Whether one of the steps `from` up to `to` falls in the tap's scope. */
  ghost predicate Meets(t: StreamTap, from: nat, to: nat) {
    exists j: nat :: from <= j < to && Covers(t, j)
  }

  /** What is still to be told of a tap that is `open`, when the steps `i` up to `ran` are still to run. */
  ghost function StoryFrom(study: Study, world: World, k: nat, open: bool, i: nat, ran: nat): seq<Act>
    requires k < |study.streams|
  {
    if !Ours(study.streams[k]) then []
    else if open then [CloseAct(study, world, k, ran)]
    else if Meets(study.streams[k], i, ran) then [OpenAct(study, k), CloseAct(study, world, k, ran)]
    else []
  }

  lemma {:induction false} QuietTap(acts: seq<Act>, k: nat)
    requires forall a | a in acts :: !a.Opened? && !a.Closed?
    ensures TapActs(acts, k) == []
    decreases |acts|
  {
    if acts != [] {
      assert acts[0] in acts;
      QuietTap(acts[1..], k);
    }
  }

  /** The sync that decides is the one in front of the last step, or the one before the first. */
  predicate Caught(study: Study, world: World, k: nat, i: nat, w: Windows)
    requires k < |study.streams| && Parallel(study, w)
  {
    && w.open[k] == (Ours(study.streams[k]) && Covers(study.streams[k], LastSynced(i)))
    && w.dropped[k] == LostWhileOpen(study.streams[k], world, k, i)
  }

  lemma EndingStory(study: Study, world: World, k: nat, p: Phase)
    requires k < |study.streams| && Parallel(study, p.windows) && Caught(study, world, k, p.ran, p.windows)
    ensures TapActs(Ending(study, world, p), k) == StoryFrom(study, world, k, p.windows.open[k], p.ran, p.ran)
  {
    hide Moves, TapActs, LostWhileOpen;
    var taps, open := study.streams, p.windows.open;
    var dropped := Charged(p.windows.dropped, p.windows.open, world.drain.lost);
    var rows := p.windows.rows + world.drain.rows;
    var s1: seq<Act> := if world.windowOpen then [Log(WindowLeftOpen)] else [];
    var s2 := Moves(taps, open, Shut(taps, open), dropped, |taps|);
    var s3: seq<Act> := (if rows > 0 then [Log(NotExhaustive(rows))] else []) + [Act.Done(p.completed)];
    assert Ending(study, world, p) == s1 + (s2 + s3);
    TapActsAppend(s1, s2 + s3, k);
    TapActsAppend(s2, s3, k);
    QuietTap(s1, k);
    QuietTap(s3, k);
    TapActsOfMoves(taps, open, Shut(taps, open), dropped, |taps|, k);
  }

  lemma {:induction false} StepsStory(study: Study, world: World, k: nat, i: nat, w: Windows)
    requires k < |study.streams| && i <= |study.steps| && Parallel(study, w) && Caught(study, world, k, i, w)
    ensures var p := Steps(study, world, i, w);
            && TapActs(p.acts, k) + TapActs(Ending(study, world, p), k)
               == StoryFrom(study, world, k, w.open[k], i, p.ran)
    decreases |study.steps| - i
  {
    hide IndexFault, Moves, TapActs, Ending, StoryFrom, Caught, Synced, GoesOn;
    var p := Steps(study, world, i, w);
    if i == |study.steps| || IndexFault(study, study.steps[i].action).Some? {
      EndingStory(study, world, k, p);
      QuietTap(p.acts, k);
    } else {
      var around, run := Around(study, w, i), [Acting(i), Reported(i, EndOf(world, i).verdict)];
      var w' := After(study, world, i, w);
      TapActsOfMoves(study.streams, w.open, Synced(study.streams, w.open, i), w.dropped, |study.streams|, k);
      TapActsAppend(around, run, k);
      QuietTap(run, k);
      CaughtNext(study, world, k, i, w);
      var move := Move(study.streams, w.open, Synced(study.streams, w.open, i), w.dropped, k);
      assert TapActs(around + run, k) == move;
      if GoesOn(study, world, i) {
        StepsStory(study, world, k, i + 1, w');
        var rest := Steps(study, world, i + 1, w');
        TapActsAppend(around + run, rest.acts, k);
        assert p == rest.(acts := (around + run) + rest.acts);
        assert Ending(study, world, p) == Ending(study, world, rest) by { SameEnding(study, world, p, rest); }
        StoryUnfolds(study, world, k, i, w, p.ran);
        assert move + TapActs(rest.acts, k) + TapActs(Ending(study, world, p), k)
               == move + (TapActs(rest.acts, k) + TapActs(Ending(study, world, p), k));
      } else {
        EndingStory(study, world, k, p);
        StoryUnfolds(study, world, k, i, w, p.ran);
      }
    }
  }

  lemma SameEnding(study: Study, world: World, p: Phase, q: Phase)
    requires Parallel(study, p.windows) && p.windows == q.windows && p.completed == q.completed
    ensures Ending(study, world, p) == Ending(study, world, q)
  {
  }

  lemma CaughtNext(study: Study, world: World, k: nat, i: nat, w: Windows)
    requires k < |study.streams| && Parallel(study, w) && Caught(study, world, k, i, w)
    ensures Caught(study, world, k, i + 1, After(study, world, i, w))
  {
  }

  /** A tap that no step from `i` on covers loses nothing more. */
  lemma {:induction false} NothingMore(t: StreamTap, world: World, k: nat, i: nat, n: nat)
    requires i <= n && !Meets(t, i, n)
    ensures LostWhileOpen(t, world, k, n) == LostWhileOpen(t, world, k, i)
    decreases n
  {
    if i < n {
      assert !Covers(t, n - 1);
      NothingMore(t, world, k, i, n - 1);
    }
  }

  /** A window is one stretch of steps: what a sync changes is what the story still has to tell. */
  lemma StoryUnfolds(study: Study, world: World, k: nat, i: nat, w: Windows, ran: nat)
    requires k < |study.streams| && Parallel(study, w) && Caught(study, world, k, i, w) && ran > i
    ensures var w' := After(study, world, i, w);
            StoryFrom(study, world, k, w.open[k], i, ran)
            == Move(study.streams, w.open, Synced(study.streams, w.open, i), w.dropped, k)
               + StoryFrom(study, world, k, w'.open[k], i + 1, ran)
  {
    var t := study.streams[k];
    if Ours(t) {
      if Covers(t, i) {
        assert Meets(t, i, ran);
      } else if w.open[k] {
        assert !Meets(t, i, ran);
        NothingMore(t, world, k, i, ran);
      } else {
        assert Meets(t, i, ran) == Meets(t, i + 1, ran) by {
          if Meets(t, i, ran) {
            var j: nat :| i <= j < ran && Covers(t, j);
            assert i + 1 <= j < ran;
          }
        }
      }
    }
  }

  /**
   * Each tap of ours whose scope meets a synced step is opened once and then closed once, with all it
   * lost up to the close; every other tap is never mentioned. The sync in front of the first step
   * counts even when no step runs.
   */
  lemma TapStory(study: Study, world: World, k: nat)
    requires Refusal(study).None? && k < |study.streams|
    ensures var t, ran := study.streams[k], Body(study, world).ran;
            TapActs(Trace(study, world), k)
            == if Ours(t) && (Covers(t, 0) || Meets(t, 0, ran))
               then [OpenAct(study, k), CloseAct(study, world, k, ran)] else []
  {
    hide Steps, Moves, TapActs, Ending, Refusal;
    var a, b, p := LevelRemark(study, world), Around(study, Fresh(study), 0), Body(study, world);
    var e := Ending(study, world, p);
    assert Trace(study, world) == a + (b + (p.acts + e));
    TapActsAppend(a, b + (p.acts + e), k);
    TapActsAppend(b, p.acts + e, k);
    TapActsAppend(p.acts, e, k);
    QuietTap(a, k);
    var want := Synced(study.streams, Fresh(study).open, 0);
    TapActsOfMoves(study.streams, Fresh(study).open, want, Fresh(study).dropped, |study.streams|, k);
    StepsStory(study, world, k, 0, Opening(study));
  }

  // ---- The seal nobody asks for ---------------------------------------------------------------------

  lemma {:induction false} StepsIgnoreTheSeal(study: Study, valid: bool, world: World, i: nat, w: Windows)
    requires i <= |study.steps| && Parallel(study, w)
    ensures Steps(study.(protocolsCrcValid := valid), world, i, w) == Steps(study, world, i, w)
    decreases |study.steps| - i
  {
    hide Moves, Synced, Charged;
    var other := study.(protocolsCrcValid := valid);
    if i < |study.steps| {
      assert IndexFault(other, study.steps[i].action) == IndexFault(study, study.steps[i].action);
      StepsIgnoreTheSeal(study, valid, world, i + 1, After(study, world, i, w));
    }
  }

  /** A study whose protocols arrived corrupt runs exactly as if they had not. */
  lemma ProtocolsSealIsIgnored(study: Study, valid: bool, world: World)
    ensures Trace(study.(protocolsCrcValid := valid), world) == Trace(study, world)
  {
    hide Steps, Moves, Synced, Charged, Shut;
    StepsIgnoreTheSeal(study, valid, world, 0, Opening(study));
  }
}
