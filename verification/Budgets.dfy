/**
 * The length budgets of the link: what an outbound message can come to, what the frame buffers can
 * take, and where a budget is short.
 */
module Budgets {
  import opened Bytes
  import opened Outcomes
  import opened Postcard
  import opened Manifest
  import opened ManifestRoundTrip
  import opened Messages
  import opened MessageRoundTrip
  import opened StudyRoundTrip
  import opened Spans
  import opened Frames
  import opened Encoder
  import Cobs
  import Eap

  // ---- Lengths of the parts -----------------------------------------------------------------

  /** Seven bits to the byte. */
  lemma VarintLength(n: nat, rest: seq<Byte>)
    requires n < TWO_64
    ensures n < 0x80 ==> |EncVarint(n, rest)| == |rest| + 1
    ensures 0x80 <= n < 0x4000 ==> |EncVarint(n, rest)| == |rest| + 2
    ensures n < TWO_32 ==> |EncVarint(n, rest)| <= |rest| + 5
    ensures 0x1000_0000 <= n < TWO_32 ==> |EncVarint(n, rest)| == |rest| + 5
    ensures |EncVarint(n, rest)| <= |rest| + 10
  {
    hide EncVarint;
    VarintUnder(n, 10, rest);
    if n < 0x80 { VarintUnder(n, 1, rest); }
    if n < 0x4000 { VarintUnder(n, 2, rest); }
    if n < TWO_32 { VarintUnder(n, 5, rest); }
    if 0x80 <= n { VarintOver(n, 1, rest); }
    if 0x1000_0000 <= n { VarintOver(n, 4, rest); }
    PowersOf128();
  }

  lemma PowersOf128()
    ensures Pow128(1) == 0x80 && Pow128(2) == 0x4000 && Pow128(4) == 0x1000_0000
    ensures Pow128(5) == 0x8_0000_0000 && Pow128(10) > TWO_64
  {
    assert Pow128(0) == 1;
    assert Pow128(1) == 0x80 * Pow128(0);
    assert Pow128(2) == 0x80 * Pow128(1);
    assert Pow128(3) == 0x80 * Pow128(2);
    assert Pow128(4) == 0x80 * Pow128(3);
    assert Pow128(5) == 0x80 * Pow128(4);
    TenGroups();
  }

  lemma {:induction false} VarintUnder(n: nat, k: nat, rest: seq<Byte>)
    requires k > 0
    ensures n < Pow128(k) ==> |EncVarint(n, rest)| <= |rest| + k
    decreases k
  {
    if n >= 0x80 && n < Pow128(k) {
      assert k > 1 by { assert Pow128(1) == 0x80 * Pow128(0); }
      assert Pow128(k) == 0x80 * Pow128(k - 1);
      VarintUnder(n / 0x80, k - 1, rest);
    }
  }

  lemma {:induction false} VarintOver(n: nat, k: nat, rest: seq<Byte>)
    ensures n >= Pow128(k) ==> |EncVarint(n, rest)| > |rest| + k
    decreases k
  {
    if k > 0 && n >= Pow128(k) {
      assert Pow128(k) == 0x80 * Pow128(k - 1);
      AtLeastOne(k - 1);
      VarintOver(n / 0x80, k - 1, rest);
    }
  }

  lemma {:induction false} AtLeastOne(k: nat)
    ensures Pow128(k) >= 1
  {
    if k > 0 { AtLeastOne(k - 1); }
  }

  lemma StringLength(t: seq<Byte>, rest: seq<Byte>)
    requires |t| < 0x4000
    ensures |EncString(t, rest)| == |rest| + |t| + if |t| < 0x80 then 1 else 2
  {
    VarintLength(|t|, t + rest);
  }

  lemma OptionLength<T>(o: Option<T>, enc: (T, seq<Byte>) -> seq<Byte>, rest: seq<Byte>)
    ensures |EncOption(o, enc, rest)| == 1 + if o.None? then |rest| else |enc(o.value, rest)|
  {
  }

  lemma {:induction false} EachLength<T>(xs: seq<T>, enc: (T, seq<Byte>) -> seq<Byte>, rest: seq<Byte>, most: nat)
    requires forall x, r | x in xs :: |enc(x, r)| <= |r| + most
    ensures |EncEach(xs, enc, rest)| <= |rest| + most * |xs|
    decreases |xs|
  {
    if xs != [] {
      assert xs[0] in xs;
      EachLength(xs[1..], enc, rest, most);
      MoreOf(most, |xs|);
    }
  }

  lemma MoreOf(most: nat, n: nat)
    requires n > 0
    ensures most + most * (n - 1) == most * n
  {
  }

  lemma NoMoreThan(most: nat, n: nat, cap: nat)
    requires n <= cap
    ensures most * n <= most * cap
  {
  }

  // ---- Outbound messages -------------------------------------------------------------------

  lemma OutcomeLength(o: Outcome, rest: seq<Byte>)
    requires OutcomeHolds(o)
    ensures |EncOutcome(o, rest)| <= |rest| + 2 + MAX_FAIL_REASON_LEN
  {
    hide EncVarint, EncString;
    match o
    case Pass => VarintLength(0, rest);
    case Fail(reason) =>
      VarintLength(1, EncString(reason, rest));
      StringLength(reason, rest);
    case TimedOut => VarintLength(2, rest);
  }

  lemma ServiceLength(s: Service, rest: seq<Byte>)
    requires ServiceHolds(s)
    ensures |EncService(s, rest)| <= |rest| + 16 + 1 + 17 * MAX_CHARACTERISTICS
  {
    hide EncVarint;
    EachLength(s.characteristics, EncCharacteristic, rest, 17);
    NoMoreThan(17, |s.characteristics|, MAX_CHARACTERISTICS);
    VarintLength(|s.characteristics|, EncEach(s.characteristics, EncCharacteristic, rest));
  }

  lemma ServicesLength(ss: seq<Service>, rest: seq<Byte>)
    requires |ss| <= MAX_SERVICES && forall s | s in ss :: ServiceHolds(s)
    ensures |EncServices(ss, rest)| <= |rest| + 1 + 289 * MAX_SERVICES
  {
    hide EncVarint, EncService, ServiceHolds;
    forall s, r | s in ss
      ensures |EncService(s, r)| <= |r| + 289
    {
      ServiceLength(s, r);
    }
    EachLength(ss, EncService, rest, 289);
    NoMoreThan(289, |ss|, MAX_SERVICES);
    VarintLength(|ss|, EncEach(ss, EncService, rest));
  }

  lemma ProtocolOutcomeLength(p: ProtocolOutcome, rest: seq<Byte>)
    requires Text(p.finalState, Eap.MAX_STATE_NAME_LEN) && OutcomeHolds(p.outcome)
    ensures |EncProtocolOutcome(p, rest)| <= |rest| + 1 + Eap.MAX_STATE_NAME_LEN + 2 + MAX_FAIL_REASON_LEN
  {
    hide EncString, EncOutcome;
    StringLength(p.finalState, EncOutcome(p.outcome, rest));
    OutcomeLength(p.outcome, rest);
  }

  /** The longest StepResult is 3022 bytes behind its tag and index. */
  lemma ResultLength(r: Result)
    requires ResultHolds(r)
    ensures |EncResult(r, [])| <= 3022
  {
    hide EncString, EncOutcome, EncOption, EncServices, EncVarint, EncProtocolOutcome;
    var s5 := EncOption(r.protocol, EncProtocolOutcome, []);
    var s4 := EncOption(r.security, EncLevel, s5);
    var s3 := EncOption(r.services, EncServices, s4);
    var s2 := EncOption(r.captured, EncString, s3);
    OptionLength(r.protocol, EncProtocolOutcome, []);
    if r.protocol.Some? { ProtocolOutcomeLength(r.protocol.value, []); }
    OptionLength(r.security, EncLevel, s5);
    if r.security.Some? { VarintLength(r.security.value, s5); }
    OptionLength(r.services, EncServices, s4);
    if r.services.Some? { ServicesLength(r.services.value, s4); }
    OptionLength(r.captured, EncString, s3);
    if r.captured.Some? { StringLength(r.captured.value, s3); }
    OutcomeLength(r.outcome, s2);
    StringLength(r.name, EncOutcome(r.outcome, s2));
  }

  lemma RecordLength(r: Record, rest: seq<Byte>)
    requires |r.bytes| <= MAX_CHUNK_BYTES
    ensures |EncRecord(r, rest)| <= |rest| + 10 + 2 + MAX_CHUNK_BYTES
  {
    hide EncVarint, EncString;
    VarintLength(r.rxUtcMs, EncString(r.bytes, rest));
    StringLength(r.bytes, rest);
  }

  lemma RecordsLength(rs: seq<Record>)
    requires |rs| <= MAX_RECORDS && RecordsHold(rs)
    ensures |EncList(rs, EncRecord, [])| <= 1 + 268 * MAX_RECORDS
  {
    hide EncVarint, EncRecord;
    forall r, rest | r in rs
      ensures |EncRecord(r, rest)| <= |rest| + 268
    {
      RecordLength(r, rest);
    }
    EachLength(rs, EncRecord, [], 268);
    NoMoreThan(268, |rs|, MAX_RECORDS);
    VarintLength(|rs|, EncEach(rs, EncRecord, []));
  }

  /** The messages this bench sends. */
  predicate Outbound(m: Message) {
    !m.Hello? && !m.StudyStart?
  }

  const LONGEST_OUTBOUND: nat := 3028

  lemma BodyLength(m: Message)
    requires Outbound(m) && WellFormed(m)
    ensures |EncBody(m, [])| <= LONGEST_OUTBOUND - 1
  {
    hide EncVarint, EncString, EncResult, EncList, ResultHolds, RecordsHold;
    match m
    case HelloAck(schema, compatible, firmware, hardware) =>
      VarintLength(schema, EncFlag(compatible, EncString(firmware, EncString(hardware, []))));
      StringLength(firmware, EncString(hardware, []));
      StringLength(hardware, []);
    case StreamOpen(_) =>
    case StreamChunkBatch(_, records) => RecordsLength(records);
    case StreamClose(_, dropped) => VarintLength(dropped, []);
    case LogLine(text) => StringLength(text, []);
    case StepResult(index, result) =>
      VarintLength(index, EncResult(result, []));
      ResultLength(result);
    case StudyDone(_) =>
  }

  /** Every outbound message within its fields' capacities is within the raw budget, 40 bytes under it. */
  lemma OutboundLength(m: Message)
    requires Outbound(m) && WellFormed(m)
    ensures |EncMessage(m)| <= LONGEST_OUTBOUND < MAX_OUTBOUND_RAW_LEN <= MAX_RAW_LEN
  {
    hide EncVarint, EncBody, WellFormed;
    VarintLength(MessageTag(m), EncBody(m, []));
    BodyLength(m);
  }

  /** The frame buffer takes every raw length under the budget, and not the budget itself. */
  lemma BudgetIsOneShort(raw: nat)
    ensures FrameRoom(raw, MAX_OUTBOUND_FRAME_LEN) <==> raw < MAX_OUTBOUND_RAW_LEN
  {
  }

  lemma WellFormedIsCounted(m: Message)
    requires WellFormed(m)
    ensures Counted(m)
  {
  }

  /** `send_message_locked` never drops a message: its buffer always holds the frame. */
  method SendFrame(m: Message) returns (frame: seq<Byte>)
    requires Outbound(m) && WellFormed(m)
    ensures frame == Frame(m)
  {
    hide WellFormed, Outbound, EncMessage, Counted, Frame;
    var out := new Byte[MAX_OUTBOUND_FRAME_LEN];
    OutboundLength(m);
    BudgetIsOneShort(|EncMessage(m)|);
    WellFormedIsCounted(m);
    var n := EncodeFrame(m, out);
    frame := out[..n];
  }

  // ---- A study the budget does not cover ------------------------------------------------------

  function HostFrame(h: HostStudy): seq<Byte> {
    Cobs.Encoded(EncVarint(6, EncHostStudy(h, [])))
  }

  lemma StudyTagged(body: seq<Byte>)
    ensures DecMessage(EncVarint(6, body))
            == if DecStudy(body).None? then None else Some(StudyStart(DecStudy(body).value.0))
  {
    hide EncVarint, DecVarint, DecStudy, DecResult, DecString, DecFlag;
    VarintRoundTrip(6, body);
  }

  /** A host's study arrives exactly when it is within every capacity and within the raw buffer. */
  lemma HostStudyArrives(h: HostStudy)
    requires HostCountable(h)
    ensures Unframed(HostFrame(h))
            == if Accepted(h) && |EncHostStudy(h, [])| < MAX_RAW_LEN then Some(StudyStart(Received(h))) else None
  {
    hide EncVarint, EncHostStudy, Cobs.Encoded, Cobs.Decoded, DecMessage, DecStudy, Accepted, Received, HostCountable;
    var body := EncHostStudy(h, []);
    var raw := EncVarint(6, body);
    VarintLength(6, body);
    Cobs.EncodedLength(raw);
    Cobs.DecodedOfEncoded(raw);
    StudyTagged(body);
    StudyReadsBack(h, []);
  }

  /** The longest step: 592 bytes, of which the study's budget counts 576. */
  predicate LongestStep(s: Step) {
    && |s.name| == MAX_NAME_LEN
    && s.action.DataExchange? && s.action.operation.OpWrite? && |s.action.operation.payload| == MAX_PAYLOAD_LEN
    && s.timeoutMs >= 0x1000_0000 && s.delayBeforeMs >= 0x1000_0000
  }

  lemma LongestStepLength(s: Step, rest: seq<Byte>)
    requires LongestStep(s)
    ensures |EncStep(s, rest)| == |rest| + 592
  {
    hide EncVarint, EncString;
    var s5 := EncVarint(s.delayBeforeMs, rest);
    var s3 := EncVarint(s.timeoutMs, EncFlag(s.continueOnFail, s5));
    VarintLength(s.delayBeforeMs, rest);
    VarintLength(s.timeoutMs, EncFlag(s.continueOnFail, s5));
    StringLength(s.action.operation.payload, s3);
    VarintLength(1, EncString(s.action.operation.payload, s3));
    var s2 := EncAction(s.action, s3);
    VarintLength(2, s2);
    StringLength(s.name, EncVarint(2, s2));
  }

  lemma {:induction false} LongestStepsLength(steps: seq<Step>, rest: seq<Byte>)
    requires forall s | s in steps :: LongestStep(s)
    ensures |EncEach(steps, EncStep, rest)| == |rest| + 592 * |steps|
    decreases |steps|
  {
    hide EncStep, LongestStep;
    if steps != [] {
      assert steps[0] in steps;
      LongestStepLength(steps[0], EncEach(steps[1..], EncStep, rest));
      LongestStepsLength(steps[1..], rest);
    }
  }

  /** A study within every capacity, its steps of the longest kind, that no frame can carry. */
  lemma LegalStudyTooLong(h: HostStudy)
    requires HostCountable(h) && Accepted(h)
    requires |h.steps| == MAX_STEPS && forall s | s in h.steps :: LongestStep(s)
    requires |Span(h.manifests, EncManifest)| >= 2833
    ensures Unframed(HostFrame(h)).None?
  {
    hide EncVarint, EncStep, EncEach, EncTap, EncManifest, Accepted, HostCountable, LongestStep, Unframed, HostFrame;
    HostStudyArrives(h);
    var s6 := EncVarint(h.manifestsCrc, []);
    forall m | m in h.manifests { ManifestAppends(m); }
    SpanInFront(h.manifests, EncManifest, s6);
    var s5 := EncManifests(h, []);
    var s4 := EncVarint(h.tapsCrc, EncVarint(h.level, s5));
    forall t | t in h.taps { TapAppends(t); }
    EachLonger(h.taps, EncTap, s4);
    LongestStepsLength(h.steps, EncVarint(h.stepsCrc, EncTaps(h, [])));
  }

  /** Such a study: sixteen long writes and one manifest with a long name. */
  function LongStudy(name: seq<Byte>, step: Step): HostStudy {
    HostStudy(Repeated(step, MAX_STEPS), 0, [], 0, 0, [Manifest(name, [], [], [], [])], 0)
  }

  function Repeated<T>(x: T, n: nat): (xs: seq<T>)
    ensures |xs| == n && forall y | y in xs :: y == x
  {
    if n == 0 then [] else [x] + Repeated(x, n - 1)
  }

  lemma OneListed<T>(x: T, enc: (T, seq<Byte>) -> seq<Byte>)
    ensures Span([x], enc) == enc(x, [])
  {
    var xs := [x];
    assert xs[1..] == [];
    assert EncEach(xs[1..], enc, []) == [];
    assert EncEach(xs, enc, []) == enc(xs[0], EncEach(xs[1..], enc, []));
  }

  lemma NothingListed<T>(enc: (T, seq<Byte>) -> seq<Byte>, rest: seq<Byte>)
    ensures EncList([], enc, rest) == EncVarint(0, rest)
  {
  }

  /** A manifest of nothing but a name: the name is walked past, and still has to be carried. */
  lemma NameOnly(name: seq<Byte>)
    requires 0x80 <= |name| < 0x4000
    ensures |EncManifest(Manifest(name, [], [], [], []), [])| == |name| + 6
  {
    hide EncVarint, EncString, EncList;
    var s1 := EncVarint(0, []);
    var s2, s3, s4 := EncVarint(0, s1), EncVarint(0, EncVarint(0, s1)), EncVarint(0, EncVarint(0, EncVarint(0, s1)));
    NothingListed(EncState, []);
    NothingListed(EncVar, s1);
    NothingListed(EncFrame, s2);
    NothingListed(EncSource, s3);
    VarintLength(0, []);
    VarintLength(0, s1);
    VarintLength(0, s2);
    VarintLength(0, s3);
    StringLength(name, s4);
  }

  lemma LongStudyIsLegal(name: seq<Byte>, step: Step)
    requires |name| == 2900 && LongestStep(step)
    ensures HostCountable(LongStudy(name, step)) && Accepted(LongStudy(name, step))
    ensures Unframed(HostFrame(LongStudy(name, step))).None?
  {
    hide EncVarint, EncString, EncManifest, Unframed, HostFrame;
    var h := LongStudy(name, step);
    NameOnly(name);
    OneListed(h.manifests[0], EncManifest);
    LegalStudyTooLong(h);
  }
}
