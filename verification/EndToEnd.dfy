/** From the wire to the bench: the message loop, and a study sent over a noisy line to run on it. */
module EndToEnd {
  import opened Bytes
  import opened Messages
  import opened StudyRoundTrip
  import opened Frames
  import opened Budgets
  import opened Link
  import opened Dispatch
  import opened DispatchRuns
  import opened MessageRoundTrip
  import opened Manifest
  import Eap
  import EapRuns
  import Driver
  import Postcard
  import Spans
  import Crc
  import Cobs

  // ---- The message loop --------------------------------------------------------------------------

  /** What the loop does with a message: answer a Hello, or dispatch a study, or log that nobody asked for it. */
  datatype Deed =
    | Greeted(compatible: bool)
    | Dispatched(study: Study)
    | Unasked(study: Study)

  function DeedOf(awaiting: bool, schema: U32, m: Message): seq<Deed> {
    match m
    case Hello(theirs, _) => [Greeted(theirs == schema)]
    case StudyStart(study) => if awaiting then [Dispatched(study)] else [Unasked(study)]
    case _ => []
  }

  /** `awaiting_study` after these messages, on a bench of this schema. */
  predicate Awaiting(messages: seq<Message>, schema: U32)
    decreases |messages|
  {
    messages != []
    && var last := messages[|messages| - 1];
       if last.Hello? then last.schema == schema
       else !last.StudyStart? && Awaiting(messages[..|messages| - 1], schema)
  }

  function Deeds(messages: seq<Message>, schema: U32): seq<Deed>
    decreases |messages|
  {
    if messages == [] then []
    else
      var before := messages[..|messages| - 1];
      Deeds(before, schema) + DeedOf(Awaiting(before, schema), schema, messages[|messages| - 1])
  }

  lemma DeedsStep(before: seq<Message>, m: Message, schema: U32)
    ensures Deeds(before + [m], schema) == Deeds(before, schema) + DeedOf(Awaiting(before, schema), schema, m)
    ensures Awaiting(before + [m], schema)
            == if m.Hello? then m.schema == schema else !m.StudyStart? && Awaiting(before, schema)
  {
    var all := before + [m];
    assert all[..|all| - 1] == before && all[|all| - 1] == m;
  }

  /** `main`'s loop on what the link delivers: one message received and dealt with at a time. */
  method MessageLoop(rx: Receiver, stream: seq<Byte>, schema: U32) returns (deeds: seq<Deed>)
    requires rx.rxBuf.Length == CAP
    modifies rx.rxBuf
    ensures deeds == Deeds(Link.Received(stream), schema)
  {
    hide Link.Received, Deeds, Awaiting, DeedOf;
    ghost var heard: seq<Message> := [];
    deeds := [];
    var awaiting := false;
    var pos := 0;
    assert stream[0..] == stream && [] + Link.Received(stream) == Link.Received(stream);
    NothingHeard(schema);
    while pos < |stream|
      invariant pos <= |stream|
      invariant heard + Link.Received(stream[pos..]) == Link.Received(stream)
      invariant deeds == Deeds(heard, schema) && awaiting == Awaiting(heard, schema)
    {
      var m, next := rx.Receive(stream, pos);
      pos := next;
      if m.Some? {
        DeedsStep(heard, m.value, schema);
        heard := heard + [m.value];
        DeedIs(awaiting, schema, m.value);
        match m.value {
          case Hello(theirs, _) =>
            awaiting := theirs == schema;
            deeds := deeds + [Greeted(awaiting)];
          case StudyStart(study) =>
            deeds := deeds + [if awaiting then Dispatched(study) else Unasked(study)];
            awaiting := false;
          case _ =>
        }
      }
    }
    assert stream[pos..] == [] && heard + [] == heard;
    NothingReceived();
  }

  lemma NothingHeard(schema: U32)
    ensures Deeds([], schema) == [] && !Awaiting([], schema)
  {
  }

  lemma DeedIs(awaiting: bool, schema: U32, m: Message)
    ensures m.Hello? ==> DeedOf(awaiting, schema, m) == [Greeted(m.schema == schema)]
    ensures m.StudyStart? ==>
              DeedOf(awaiting, schema, m) == [if awaiting then Dispatched(m.study) else Unasked(m.study)]
    ensures !m.Hello? && !m.StudyStart? ==> DeedOf(awaiting, schema, m) == []
  {
  }

  // ---- Which studies are dispatched ----------------------------------------------------------------

  /** Neither a Hello nor a StudyStart: the loop passes it over. */
  predicate PassedOver(m: Message) {
    !m.Hello? && !m.StudyStart?
  }

  /** The last Hello or StudyStart before message `i` is a Hello of the bench's own schema. */
  ghost predicate Awaited(messages: seq<Message>, schema: U32, i: nat)
    requires i <= |messages|
  {
    exists k: nat :: k < i && messages[k].Hello? && messages[k].schema == schema
                     && forall j | k < j < i :: PassedOver(messages[j])
  }

  lemma {:induction false} AwaitingIsAwaited(messages: seq<Message>, schema: U32, n: nat)
    requires n <= |messages|
    ensures Awaiting(messages[..n], schema) <==> Awaited(messages, schema, n)
    decreases n
  {
    if n > 0 {
      var last := messages[n - 1];
      assert messages[..n] == messages[..n - 1] + [last];
      DeedsStep(messages[..n - 1], last, schema);
      AwaitingIsAwaited(messages, schema, n - 1);
      AwaitedStep(messages, schema, n - 1);
    }
  }

  lemma AwaitedStep(messages: seq<Message>, schema: U32, i: nat)
    requires i < |messages|
    ensures Awaited(messages, schema, i + 1)
            <==> if messages[i].Hello? then messages[i].schema == schema
                 else !messages[i].StudyStart? && Awaited(messages, schema, i)
  {
    if k: nat :| k < i + 1 && messages[k].Hello? && messages[k].schema == schema
                 && forall j | k < j < i + 1 :: PassedOver(messages[j]) {
      assert k < i ==> PassedOver(messages[i]);
    }
  }

  /** The studies among the first `n` messages that a Hello of the bench's own schema asked for. */
  ghost function AskedFor(messages: seq<Message>, schema: U32, n: nat): seq<Study>
    requires n <= |messages|
  {
    if n == 0 then []
    else
      AskedFor(messages, schema, n - 1)
      + if messages[n - 1].StudyStart? && Awaited(messages, schema, n - 1) then [messages[n - 1].study] else []
  }

  function Studies(deeds: seq<Deed>): seq<Study>
    decreases |deeds|
  {
    if deeds == [] then []
    else
      var last := deeds[|deeds| - 1];
      Studies(deeds[..|deeds| - 1]) + if last.Dispatched? then [last.study] else []
  }

  lemma StudiesStep(deeds: seq<Deed>, more: seq<Deed>)
    requires |more| <= 1
    ensures Studies(deeds + more) == Studies(deeds)
                                     + if more != [] && more[0].Dispatched? then [more[0].study] else []
  {
    if more == [] {
      assert deeds + more == deeds;
    } else {
      assert (deeds + more)[..|deeds|] == deeds;
    }
  }

  /**
   * Whatever is received, in whatever order: the studies dispatched are exactly those whose last Hello or
   * StudyStart before them was a Hello of the bench's own schema, each once and in order.
   */
  lemma {:induction false} DispatchedExactlyWhenAskedFor(messages: seq<Message>, schema: U32, n: nat)
    requires n <= |messages|
    ensures Studies(Deeds(messages[..n], schema)) == AskedFor(messages, schema, n)
    decreases n
  {
    hide Awaiting, Awaited, DeedOf, Deeds, Studies;
    if n == 0 {
      NothingHeard(schema);
      assert Studies([]) == [] by { NoStudies(); }
    } else {
      var before, last := messages[..n - 1], messages[n - 1];
      assert messages[..n] == before + [last];
      DispatchedExactlyWhenAskedFor(messages, schema, n - 1);
      DeedsStep(before, last, schema);
      DeedIs(Awaiting(before, schema), schema, last);
      StudiesStep(Deeds(before, schema), DeedOf(Awaiting(before, schema), schema, last));
      AwaitingIsAwaited(messages, schema, n - 1);
    }
  }

  lemma NoStudies()
    ensures Studies([]) == []
  {
  }

  /** What was done with the first messages is not undone by the ones after. */
  lemma {:induction false} DeedsKeep(before: seq<Message>, after: seq<Message>, schema: U32)
    ensures Deeds(before, schema) <= Deeds(before + after, schema)
    decreases |after|
  {
    hide DeedOf, Awaiting, Deeds;
    if after == [] {
      assert before + after == before;
    } else {
      var most, last := before + after[..|after| - 1], after[|after| - 1];
      assert before + after == most + [last];
      DeedsKeep(before, after[..|after| - 1], schema);
      DeedsStep(most, last, schema);
    }
  }

  // ---- A study on the wire ---------------------------------------------------------------------------

  /** Both seals the dispatcher asks about are those of what they seal. */
  predicate Sealed(h: HostStudy) {
    && Crc.Checksum(Spans.Span(h.steps, EncStep)) == h.stepsCrc
    && Crc.Checksum(Spans.Span(h.taps, EncTap)) == h.tapsCrc
  }

  /** A sealed study's steps are the host's and none of the guards refuses it; any other leaves only why. */
  lemma RunsExactlyWhenSealed(h: HostStudy, world: World)
    ensures var study := StudyRoundTrip.Received(h);
            && study.steps == h.steps
            && (Sealed(h) <==> Refusal(study).None?)
            && (!Sealed(h) ==> exists why :: Trace(study, world) == [Log(why), Act.Done(false)])
  {
    hide Steps, Ending, Body, Around;
    var study := StudyRoundTrip.Received(h);
    if !Sealed(h) {
      assert Trace(study, world) == [Log(Refusal(study).value), Act.Done(false)];
    }
  }

  /** A host's study frame between delimiters, whatever the line carried before and after. */
  lemma StudyIsReceived(before: seq<Byte>, h: HostStudy, after: seq<Byte>)
    requires HostCountable(h) && Accepted(h) && |EncHostStudy(h, [])| < MAX_RAW_LEN
    ensures Link.Received(before + [0] + HostFrame(h) + [0] + after)
            == Link.Received(before + [0]) + [StudyStart(StudyRoundTrip.Received(h))] + Link.Received(after)
  {
    hide HostCountable, Accepted, EncHostStudy, Cobs.Encoded;
    HostStudyArrives(h);
    Cobs.EncodedZeroFree(Postcard.EncVarint(6, EncHostStudy(h, [])));
    IntactIsReceived(before, HostFrame(h), StudyStart(StudyRoundTrip.Received(h)), after);
  }

  lemma IntactIsReceived(before: seq<Byte>, frame: seq<Byte>, m: Message, after: seq<Byte>)
    requires Cobs.ZeroFree(frame) && Unframed(frame) == Some(m)
    ensures Link.Received(before + [0] + frame + [0] + after)
            == Link.Received(before + [0]) + [m] + Link.Received(after)
  {
    hide Unframed, Handed, Decodings;
    var front, rest := Handed([], before + [0]), Handed([], after);
    DecodableFits(frame);
    Resynchronises(before, frame, after);
    assert before + [0] + frame + [0] + after == before + [0] + (frame + [0] + after);
    assert front + [frame] + rest == front + ([frame] + rest);
    DecodingsAppend(front, [frame] + rest);
    DecodingsStep(frame, rest);
  }

  /**
   * Whatever came before, a study within the capacities and the frame is dispatched exactly when the last
   * Hello or StudyStart received was a Hello of the bench's own schema, and then runs exactly when it is
   * sealed; nothing that follows changes that.
   */
  lemma StudyRunsExactlyWhenAskedForAndSealed(before: seq<Byte>, h: HostStudy, after: seq<Byte>, schema: U32,
                                              world: World)
    requires HostCountable(h) && Accepted(h) && |EncHostStudy(h, [])| < MAX_RAW_LEN
    ensures var earlier, study := Link.Received(before + [0]), StudyRoundTrip.Received(h);
            var deed := if Awaited(earlier, schema, |earlier|) then Dispatched(study) else Unasked(study);
            && Deeds(earlier, schema) + [deed]
               <= Deeds(Link.Received(before + [0] + HostFrame(h) + [0] + after), schema)
            && study.steps == h.steps
            && (Sealed(h) <==> Refusal(study).None?)
            && (!Sealed(h) ==> exists why :: Trace(study, world) == [Log(why), Act.Done(false)])
  {
    hide HostCountable, Accepted, EncHostStudy, HostFrame, Link.Received, Deeds, Awaiting, Awaited, Sealed, Refusal,
      Trace, StudyRoundTrip.Received;
    var earlier, m := Link.Received(before + [0]), StudyStart(StudyRoundTrip.Received(h));
    StudyIsReceived(before, h, after);
    DeedsStep(earlier, m, schema);
    assert earlier[..|earlier|] == earlier;
    AwaitingIsAwaited(earlier, schema, |earlier|);
    DeedsKeep(earlier + [m], Link.Received(after), schema);
    RunsExactlyWhenSealed(h, world);
  }

  /**
   * The handshake, then anything that yields no Hello and no StudyStart, then the study: it is dispatched
   * exactly when the Hello named the bench's own schema.
   */
  lemma HandshakeThenStudy(before: seq<Byte>, theirs: U32, host: U64, noise: seq<Byte>, h: HostStudy, schema: U32)
    requires HostCountable(h) && Accepted(h) && |EncHostStudy(h, [])| < MAX_RAW_LEN
    requires forall m | m in Link.Received(noise + [0]) :: PassedOver(m)
    ensures var stream := before + [0] + Frame(Hello(theirs, host)) + noise + [0] + HostFrame(h) + [0];
            var study, deeds := StudyRoundTrip.Received(h), Deeds(Link.Received(stream), schema);
            && deeds != []
            && deeds[|deeds| - 1] == if theirs == schema then Dispatched(study) else Unasked(study)
  {
    hide HostCountable, Accepted, EncHostStudy, HostFrame, Link.Received, Deeds, Awaiting, Frame,
      StudyRoundTrip.Received;
    var hello, m := Hello(theirs, host), StudyStart(StudyRoundTrip.Received(h));
    var greeting := before + [0] + Frame(hello) + noise;
    var earlier, first := Link.Received(greeting + [0]), Link.Received(before + [0]);
    var between := Link.Received(noise + [0]);
    HelloIsReceived(before, theirs, host, noise + [0]);
    assert before + [0] + Frame(hello) + (noise + [0]) == greeting + [0];
    assert earlier == first + [hello] + between;
    LastGreetingDecides(first, hello, between, schema);
    StudyIsReceived(greeting, h, []);
    NothingReceived();
    assert greeting + [0] + HostFrame(h) + [0] + [] == greeting + [0] + HostFrame(h) + [0];
    assert earlier + [m] + [] == earlier + [m];
    DeedsStep(earlier, m, schema);
    assert earlier[..|earlier|] == earlier;
    AwaitingIsAwaited(earlier, schema, |earlier|);
  }

  lemma HelloIsReceived(before: seq<Byte>, theirs: U32, host: U64, after: seq<Byte>)
    ensures Link.Received(before + [0] + Frame(Hello(theirs, host)) + after)
            == Link.Received(before + [0]) + [Hello(theirs, host)] + Link.Received(after)
  {
    hide Unframed, EncMessage, Link.Received;
    var hello := Hello(theirs, host);
    HelloLength(theirs, host);
    FrameReadsBack(hello);
    var frame := Cobs.Encoded(EncMessage(hello));
    assert Frame(hello)[..|frame|] == frame;
    IntactIsReceived(before, frame, hello, after);
    assert before + [0] + frame + [0] + after == before + [0] + Frame(hello) + after;
  }

  lemma HelloLength(theirs: U32, host: U64)
    ensures |EncMessage(Hello(theirs, host))| <= MAX_RAW_LEN
  {
    hide Postcard.EncVarint;
    VarintLength(host, []);
    VarintLength(theirs, Postcard.EncVarint(host, []));
    VarintLength(0, Postcard.EncVarint(theirs, Postcard.EncVarint(host, [])));
  }

  lemma LastGreetingDecides(first: seq<Message>, hello: Message, between: seq<Message>, schema: U32)
    requires hello.Hello? && forall m | m in between :: PassedOver(m)
    ensures var messages := first + [hello] + between;
            Awaited(messages, schema, |messages|) <==> hello.schema == schema
  {
    var messages, n := first + [hello] + between, |first|;
    assert messages[n] == hello;
    forall j | n < j < |messages|
      ensures PassedOver(messages[j])
    {
      assert messages[j] == between[j - n - 1];
    }
    if k: nat :| k < |messages| && messages[k].Hello? && messages[k].schema == schema
                 && forall j | k < j < |messages| :: PassedOver(messages[j]) {
      assert k == n;
    }
  }

  // ---- What a declared tap gets --------------------------------------------------------------------------

  /** Whether a declared scope holds one of the first `steps` steps. */
  predicate Reaches(scope: Scope, steps: nat) {
    match scope
    case WholeStudy => steps > 0
    case Window(from, to) => from <= to && from < steps
  }

  /** What a tap comes to on the bench, by its declaration. */
  lemma TapKinds(t: NamedTap, step: nat)
    ensures Ours(StripTap(t)) <==> !t.origin.Signal?
    ensures StripTap(t).sourceTag == SOURCE_GATT_TRANSCRIPT <==> t.origin.GattTranscript?
    ensures StripTap(t).sourceTag == SOURCE_GATT_NOTIFY <==> t.origin.GattNotify?
    ensures Covers(StripTap(t), step) <==> t.scope.WholeStudy? || t.scope.from <= step < t.scope.to + 1
  {
  }

  lemma MeetsExactly(t: NamedTap, steps: nat)
    ensures Meets(StripTap(t), 0, steps) <==> Reaches(t.scope, steps)
  {
    hide Covers, StripTap;
    if Reaches(t.scope, steps) {
      var j := if t.scope.WholeStudy? then 0 else t.scope.from;
      TapKinds(t, j);
      assert Covers(StripTap(t), j);
    }
    forall j: nat | j < steps && Covers(StripTap(t), j)
      ensures Reaches(t.scope, steps)
    {
      TapKinds(t, j);
    }
  }

  /**
   * A tap the host declared in a sealed study is opened once and closed once if it is not a Signal and its
   * scope holds a step that ran, or the first if none did; and otherwise the link never hears of it.
   */
  lemma DeclaredTapIsHeardExactly(h: HostStudy, k: nat, world: World)
    requires Sealed(h) && k < |h.taps|
    ensures var study := StudyRoundTrip.Received(h);
            var ran := Body(study, world).ran;
            var heard := !h.taps[k].origin.Signal? && Reaches(h.taps[k].scope, if ran == 0 then 1 else ran);
            && |study.streams| == |h.taps|
            && TapActs(Trace(study, world), k)
               == (if heard then [Opened(k, h.taps[k].id), CloseAct(study, world, k, ran)] else [])
            && CloseAct(study, world, k, ran).Closed? && CloseAct(study, world, k, ran).id == h.taps[k].id
  {
    hide Trace, Body, Covers, Meets, Reaches, Ours;
    var study, t := StudyRoundTrip.Received(h), h.taps[k];
    var ran := Body(study, world).ran;
    RunsExactlyWhenSealed(h, world);
    TapStory(study, world, k);
    TapKinds(t, 0);
    MeetsExactly(t, ran);
    ReachesFirst(t.scope, ran);
  }

  lemma ReachesFirst(scope: Scope, ran: nat)
    ensures (scope.WholeStudy? || scope.from <= 0 < scope.to + 1) || Reaches(scope, ran)
            <==> Reaches(scope, if ran == 0 then 1 else ran)
  {
  }

  // ---- What a completed study says of its protocols ----------------------------------------------------

  /**
   * When the bench says a study is completed, every protocol step in it that was not allowed to fail, and
   * whose verdict is what its run reported, left the device in a state the manifest calls a pass.
   */
  lemma CompletedProtocolsPassed(study: Study, world: World, i: nat, deadline: int, queue: seq<Driver.Arrival>,
                                 env: seq<Driver.Turn>)
    requires i < |study.steps| && study.steps[i].action.RunProtocol? && !study.steps[i].continueOnFail
    requires study.steps[i].action.protocol < |study.protocols|
    requires var def := study.protocols[study.steps[i].action.protocol];
             var entry := study.steps[i].action.entryState;
             && Eap.Valid(def) && entry < |def.states|
             && Driver.Reported(def, entry, deadline, queue, env).Some?
             && EndOf(world, i).verdict == Driver.Reported(def, entry, deadline, queue, env).value.outcome
    requires Act.Done(true) in Trace(study, world)
    ensures var def := study.protocols[study.steps[i].action.protocol];
            var end := Driver.EndsIn(def, study.steps[i].action.entryState, deadline, queue, env);
            end.state < |def.states| && def.states[end.state].kind == Eap.Terminal(true)
  {
    hide Trace, Driver.Reported, Driver.Drive, EapRuns.Run;
    StudyIsReported(study, world);
    OnlyDone(Trace(study, world), Act.Done(true));
    assert EndOf(world, i).verdict.Pass?;
    Driver.RunReportsTheMachine(study.protocols[study.steps[i].action.protocol], study.steps[i].action.entryState,
                                deadline, queue, env);
  }

  lemma OnlyDone(acts: seq<Act>, done: Act)
    requires done.Done? && done in acts && forall a | a in acts[..|acts| - 1] :: !a.Done?
    ensures acts[|acts| - 1] == done
  {
    assert acts == acts[..|acts| - 1] + [acts[|acts| - 1]];
  }
}
