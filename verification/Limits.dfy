/**
 * The bench's limits in numbers, as the host and the wire see them: which studies arrive, which messages
 * go out, which runs of bytes the link hands over.
 */
module Limits {
  import opened Bytes
  import Eap
  import opened Manifest
  import opened Messages
  import opened MessageRoundTrip
  import opened StudyRoundTrip
  import opened Frames
  import opened Budgets
  import opened Link
  import Outcomes
  import Postcard
  import Spans
  import Cobs

  // ---- What a host may send ----------------------------------------------------------------------

  predicate StateInNumbers(s: Eap.State) {
    && |s.name| < 25
    && (s.kind.Active? ==>
          && (s.kind.active.onEnter.Some? ==> |s.kind.active.onEnter.value.fields| < 7)
          && |s.kind.active.onEvent| < 3
          && forall arm | arm in s.kind.active.onEvent :: |arm.remembers| < 3 && |arm.guards| < 3)
  }

  predicate FrameInNumbers(f: NamedFrame) {
    (f.select.Some? ==> |f.select.value.eq| < 9) && |f.fields| < 9 && |f.spans| < 5
  }

  predicate ManifestInNumbers(m: Manifest) {
    && |m.sources| < 7 && |m.frames| < 9 && |m.session| < 7 && |m.states| < 13
    && (forall f | f in m.frames :: FrameInNumbers(f))
    && (forall s | s in m.states :: StateInNumbers(s))
  }

  predicate ActionInNumbers(a: Action) {
    && (a.Advertise? && a.localName.Some? ==> |a.localName.value| < 27)
    && (a.Connect? && a.targetName.Some? ==> |a.targetName.value| < 27)
    && (a.DataExchange? && a.operation.OpWrite? ==> |a.operation.payload| < 513)
    && (a.SetSecurity? ==> a.level < 4)
    && (a.MonitorSelected? || a.MonitorSelectedStart? ==> |a.targets| < 17)
  }

  predicate StudyInNumbers(h: HostStudy) {
    && |h.steps| < 17 && (forall s | s in h.steps :: |s.name| < 33 && ActionInNumbers(s.action))
    && |h.taps| < 9
    && |h.manifests| < 3 && (forall m | m in h.manifests :: ManifestInNumbers(m))
    && |Spans.Span(h.manifests, EncManifest)| < 3073
  }

  lemma ManifestCaps(m: Manifest)
    ensures WithinCaps(m) <==> ManifestInNumbers(m)
  {
    assert forall s :: Eap.StateFits(s) <==> StateInNumbers(s);
    assert forall f :: NamedFrameFits(f) <==> FrameInNumbers(f);
  }

  lemma StepCaps(s: Step)
    ensures StepFits(s) <==> |s.name| < 33 && ActionInNumbers(s.action)
  {
  }

  /** A host's study arrives exactly when it is within these numbers and takes fewer than 12,312 bytes. */
  lemma HostStudyArrivesInNumbers(h: HostStudy)
    requires HostCountable(h)
    ensures Unframed(HostFrame(h)).Some? <==> StudyInNumbers(h) && |EncHostStudy(h, [])| < 12312
  {
    hide Unframed, HostFrame, EncHostStudy, WithinCaps, ManifestInNumbers, StepFits, ActionInNumbers, HostCountable;
    HostStudyArrives(h);
    forall m | m in h.manifests { ManifestCaps(m); }
    forall s | s in h.steps { StepCaps(s); }
  }

  // ---- What the bench may send ---------------------------------------------------------------------

  predicate TextInNumbers(s: seq<Byte>, n: nat) {
    |s| < n && forall b | b in s :: b != 0
  }

  predicate OutcomeInNumbers(o: Outcomes.Outcome) {
    o.Fail? ==> TextInNumbers(o.reason, 65)
  }

  predicate ResultInNumbers(r: Result) {
    && TextInNumbers(r.name, 33) && OutcomeInNumbers(r.outcome)
    && (r.captured.Some? ==> |r.captured.value| < 513)
    && (r.services.Some? ==>
          |r.services.value| < 9 && forall s | s in r.services.value :: |s.characteristics| < 17)
    && (r.security.Some? ==> r.security.value < 4)
    && (r.protocol.Some? ==>
          TextInNumbers(r.protocol.value.finalState, 25) && OutcomeInNumbers(r.protocol.value.outcome))
  }

  predicate MessageInNumbers(m: Message) {
    match m
    case HelloAck(_, _, firmware, hardware) => TextInNumbers(firmware, 33) && TextInNumbers(hardware, 33)
    case StreamChunkBatch(_, records) => |records| < 5 && forall r | r in records :: |r.bytes| < 257
    case LogLine(text) => TextInNumbers(text, 129)
    case StepResult(_, result) => ResultInNumbers(result)
    case _ => true
  }

  /** Every message but a study within these numbers goes out: its frame is at most 3,041 bytes. */
  lemma OutboundInNumbers(m: Message)
    requires !m.StudyStart? && !m.Hello?
    ensures WellFormed(m) <==> MessageInNumbers(m)
    ensures MessageInNumbers(m) ==> |Frames.Frame(m)| < 3042
  {
    hide EncMessage, Cobs.Encoded;
    assert forall s: seq<Byte> :: 0 !in s <==> forall b | b in s :: b != 0;
    if MessageInNumbers(m) {
      OutboundLength(m);
      Cobs.EncodedLength(EncMessage(m));
    }
  }

  // ---- What the link hands over ---------------------------------------------------------------------

  /** A run of bytes without a zero in it is handed over whole exactly when it is of 1 to 12,507 bytes. */
  lemma RunsHandedInNumbers(run: seq<Byte>)
    requires Cobs.ZeroFree(run)
    ensures Handed([], run + [0]) == [run] <==> 0 < |run| < 12508
  {
    hide Handed;
    OverlongTailIsHanded([], run);
    assert [] + run == run;
    var left := Leftover(|run|);
    if left > 0 {
      assert |run[|run| - left..]| == left;
      assert left == |run| ==> run[0..] == run;
    }
  }
}
