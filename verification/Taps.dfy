/**
 * Captured traffic on its way to the declared taps: the sink the radio thread calls, the bounded
 * queue, the sender's fan-out, and the count of what was lost on each tap.
 *
 * `Bench` is the state two threads share, as values; `Step` is one of their atomic moves, so a
 * sequence of steps is an interleaving. `Capture` is the code that makes those moves.
 */
module Taps {
  import opened Bytes
  import opened Messages
  import opened Dispatch
  import opened Transcript

  const QUEUE_DEPTH: nat := 16
  const EVT_NOTIFICATION: Byte := 11
  const EVT_INDICATION: Byte := 12

  /** What the sender has in hand, and the tap it looks at next; past the last tap comes the transcript. */
  datatype Hand =
    | Idle
    | Serving(entry: Entry, next: nat)

  /**
   * `sent` and `lost` are, by tap, the entries put on the wire and the entries charged; `upstream`
   * counts what the bridge itself lost before the sink ever saw it.
   */
  datatype Bench = Bench(taps: seq<StreamTap>, open: seq<bool>, transcript: Option<nat>,
                         queue: seq<Entry>, hand: Hand, dropped: seq<nat>, rows: nat,
                         sent: seq<seq<Entry>>, lost: seq<seq<Entry>>, upstream: seq<nat>, wire: seq<Message>)

  datatype Step =
    | Arrive(entry: Entry)
    | LoseUpstream(characteristic: Uuid)
    | Take
    | Serve
    | OpenTap(tap: nat)
    | ShutTap(tap: nat)

  predicate Shaped(b: Bench) {
    && |b.open| == |b.dropped| == |b.sent| == |b.lost| == |b.upstream| == |b.taps|
    && (b.transcript.Some? ==>
          b.transcript.value < |b.taps| && b.taps[b.transcript.value].sourceTag == SOURCE_GATT_TRANSCRIPT)
    && (b.hand.Serving? ==> b.hand.next <= |b.taps|)
  }

  // ---- Who wants what --------------------------------------------------------------------------

  /** Notification data of one characteristic, as a GattNotify tap declares it. */
  predicate Names(t: StreamTap, characteristic: Uuid) {
    t.sourceTag == SOURCE_GATT_NOTIFY && t.characteristic == characteristic
  }

  predicate IsData(e: Entry) {
    e.characteristic.Some? && (e.kind == EVT_NOTIFICATION || e.kind == EVT_INDICATION)
  }

  predicate NotifyWants(b: Bench, k: nat, e: Entry)
    requires Shaped(b) && k < |b.taps|
  {
    b.open[k] && IsData(e) && Names(b.taps[k], e.characteristic.value)
  }

  predicate TranscriptWants(b: Bench, k: nat)
    requires Shaped(b) && k < |b.taps|
  {
    b.open[k] && b.transcript == Some(k)
  }

  predicate Wants(b: Bench, k: nat, e: Entry)
    requires Shaped(b) && k < |b.taps|
  {
    NotifyWants(b, k, e) || TranscriptWants(b, k)
  }

  predicate AnyoneWants(b: Bench, e: Entry)
    requires Shaped(b)
  {
    exists k :: 0 <= k < |b.taps| && Wants(b, k, e)
  }

  /** The same taps, and tap `k` as open as before. */
  predicate SameTap(a: Bench, b: Bench, k: nat)
    requires Shaped(a) && Shaped(b)
  {
    a.taps == b.taps && a.transcript == b.transcript && (k < |a.taps| ==> a.open[k] == b.open[k])
  }

  /** A move that opens or shuts tap `k`. */
  predicate Touches(s: Step, k: nat) {
    (s.OpenTap? || s.ShutTap?) && s.tap == k
  }

  predicate SameWindows(a: Bench, b: Bench) {
    a.taps == b.taps && a.open == b.open && a.transcript == b.transcript
  }

  // ---- The moves ---------------------------------------------------------------------------------

  function Charge(b: Bench, k: nat, e: Entry): (b': Bench)
    requires Shaped(b) && k < |b.taps|
    ensures Shaped(b') && SameWindows(b, b')
  {
    b.(dropped := b.dropped[k := b.dropped[k] + 1], lost := b.lost[k := b.lost[k] + [e]], rows := b.rows + 1)
  }

  /** A full queue: the entry is lost to every tap that would have had it. */
  function ChargeAll(b: Bench, e: Entry): (b': Bench)
    requires Shaped(b)
    ensures Shaped(b') && SameWindows(b, b')
  {
    b.(rows := b.rows + 1,
       dropped := seq(|b.taps|, k requires 0 <= k < |b.taps| => b.dropped[k] + if Wants(b, k, e) then 1 else 0),
       lost := seq(|b.taps|, k requires 0 <= k < |b.taps| => b.lost[k] + if Wants(b, k, e) then [e] else []))
  }

  function LoseAll(b: Bench, u: Uuid): (b': Bench)
    requires Shaped(b)
    ensures Shaped(b') && SameWindows(b, b')
  {
    var hit := seq(|b.taps|, k requires 0 <= k < |b.taps| => if b.open[k] && Names(b.taps[k], u) then 1 else 0);
    b.(dropped := seq(|b.taps|, k requires 0 <= k < |b.taps| => b.dropped[k] + hit[k]),
       upstream := seq(|b.taps|, k requires 0 <= k < |b.taps| => b.upstream[k] + hit[k]))
  }

  /** One record on one tap. */
  function Send(b: Bench, k: nat, e: Entry, bytes: seq<Byte>): (b': Bench)
    requires Shaped(b) && k < |b.taps|
    ensures Shaped(b') && SameWindows(b, b')
  {
    b.(sent := b.sent[k := b.sent[k] + [e]],
       wire := b.wire + [StreamChunkBatch(b.taps[k].id, [Record(e.rxUtcMs, bytes)])])
  }

  /** The raw value to a GattNotify tap, the whole row to the transcript's. */
  function ServeTap(b: Bench, k: nat, e: Entry): (b': Bench)
    requires Shaped(b) && k < |b.taps|
    ensures Shaped(b') && SameWindows(b, b')
  {
    if !NotifyWants(b, k, e) then b
    else if |e.payload| > MAX_CHUNK_BYTES then Charge(b, k, e)
    else Send(b, k, e, e.payload)
  }

  function ServeTranscript(b: Bench, e: Entry): (b': Bench)
    requires Shaped(b)
    ensures Shaped(b') && SameWindows(b, b')
  {
    if b.transcript.None? || !b.open[b.transcript.value] then b
    else if |EncEntry(e)| > MAX_CHUNK_BYTES then Charge(b, b.transcript.value, e)
    else Send(b, b.transcript.value, e, EncEntry(e))
  }

  /** `set_tap_open`: the message, the close with the tap's own counter, and the flag. */
  function SetOpen(b: Bench, k: nat, open: bool): (b': Bench)
    requires Shaped(b)
    ensures Shaped(b') && forall j | j != k :: SameTap(b, b', j)
  {
    if k >= |b.taps| then b
    else
      var id := b.taps[k].id;
      b.(open := b.open[k := open],
         wire := b.wire + [if open then StreamOpen(id) else StreamClose(id, b.dropped[k] % TWO_32)])
  }

  function Advance(b: Bench, s: Step): (b': Bench)
    requires Shaped(b)
    ensures Shaped(b') && b'.taps == b.taps && forall k | !Touches(s, k) :: SameTap(b, b', k)
  {
    match s
    case Arrive(e) =>
      if !AnyoneWants(b, e) then b
      else if |b.queue| < QUEUE_DEPTH then b.(queue := b.queue + [e])
      else ChargeAll(b, e)
    case LoseUpstream(u) => LoseAll(b, u)
    case Take =>
      if b.hand.Serving? || b.queue == [] then b else b.(hand := Serving(b.queue[0], 0), queue := b.queue[1..])
    case Serve =>
      if b.hand.Idle? then b
      else if b.hand.next < |b.taps| then
        ServeTap(b, b.hand.next, b.hand.entry).(hand := Serving(b.hand.entry, b.hand.next + 1))
      else ServeTranscript(b, b.hand.entry).(hand := Idle)
    case OpenTap(k) => SetOpen(b, k, true)
    case ShutTap(k) => SetOpen(b, k, false)
  }

  /** The steps in order. */
  function Interleaved(b: Bench, steps: seq<Step>): (b': Bench)
    requires Shaped(b)
    ensures Shaped(b') && b'.taps == b.taps
    decreases |steps|
  {
    if steps == [] then b
    else Advance(Interleaved(b, steps[..|steps| - 1]), steps[|steps| - 1])
  }

  // ---- Conservation ---------------------------------------------------------------------------------

  function WantedOf(b: Bench, k: nat, entries: seq<Entry>): seq<Entry>
    requires Shaped(b) && k < |b.taps|
    decreases |entries|
  {
    if entries == [] then []
    else (if Wants(b, k, entries[0]) then [entries[0]] else []) + WantedOf(b, k, entries[1..])
  }

  /** Whether the sender still has to look at tap `k` for the entry in its hand. */
  predicate StillToServe(b: Bench, k: nat)
    requires Shaped(b) && k < |b.taps| && b.hand.Serving?
  {
    if NotifyWants(b, k, b.hand.entry) then b.hand.next <= k else TranscriptWants(b, k)
  }

  function InHand(b: Bench, k: nat): seq<Entry>
    requires Shaped(b) && k < |b.taps|
  {
    if b.hand.Serving? && StillToServe(b, k) then [b.hand.entry] else []
  }

  /** Everything tap `k` was promised, wherever it is now. */
  function Account(b: Bench, k: nat): multiset<Entry>
    requires Shaped(b) && k < |b.taps|
  {
    multiset(b.sent[k]) + multiset(b.lost[k]) + multiset(InHand(b, k)) + multiset(WantedOf(b, k, b.queue))
  }

  lemma {:induction false} WantedSame(a: Bench, b: Bench, k: nat, entries: seq<Entry>)
    requires Shaped(a) && Shaped(b) && SameTap(a, b, k) && k < |a.taps|
    ensures WantedOf(a, k, entries) == WantedOf(b, k, entries)
    decreases |entries|
  {
    if entries != [] {
      WantedSame(a, b, k, entries[1..]);
    }
  }

  lemma {:induction false} WantedAppend(b: Bench, k: nat, entries: seq<Entry>, e: Entry)
    requires Shaped(b) && k < |b.taps|
    ensures WantedOf(b, k, entries + [e]) == WantedOf(b, k, entries) + if Wants(b, k, e) then [e] else []
    decreases |entries|
  {
    if entries == [] {
      assert (entries + [e])[1..] == [];
    } else {
      assert (entries + [e])[1..] == entries[1..] + [e];
      WantedAppend(b, k, entries[1..], e);
    }
  }

  lemma HandSame(a: Bench, b: Bench, k: nat)
    requires Shaped(a) && Shaped(b) && SameTap(a, b, k) && k < |a.taps| && a.hand == b.hand
    ensures InHand(a, k) == InHand(b, k)
  {
  }

  lemma WantsSame(a: Bench, b: Bench, k: nat, e: Entry)
    requires Shaped(a) && Shaped(b) && SameTap(a, b, k) && k < |a.taps|
    ensures Wants(a, k, e) == Wants(b, k, e)
  {
  }

  /** The account's parts, one by one. */
  lemma AccountOf(b: Bench, k: nat, sent: seq<Entry>, lost: seq<Entry>, hand: seq<Entry>, queued: seq<Entry>)
    requires Shaped(b) && k < |b.taps|
    requires b.sent[k] == sent && b.lost[k] == lost && InHand(b, k) == hand && WantedOf(b, k, b.queue) == queued
    ensures Account(b, k) == multiset(sent) + multiset(lost) + multiset(hand) + multiset(queued)
  {
  }

  lemma ArriveConserves(b: Bench, k: nat, e: Entry)
    requires Shaped(b) && k < |b.taps|
    ensures Account(Advance(b, Arrive(e)), k) == Account(b, k) + if Wants(b, k, e) then multiset{e} else multiset{}
  {
    hide Account, InHand, WantedOf, Wants;
    var b' := Advance(b, Arrive(e));
    var sent, lost, hand, queued := b.sent[k], b.lost[k], InHand(b, k), WantedOf(b, k, b.queue);
    var more := if Wants(b, k, e) then [e] else [];
    AccountOf(b, k, sent, lost, hand, queued);
    HandSame(b, b', k);
    WantedSame(b, b', k, b.queue);
    if !AnyoneWants(b, e) {
      assert more == [];
    } else if |b.queue| < QUEUE_DEPTH {
      WantedSame(b, b', k, b.queue + [e]);
      WantedAppend(b, k, b.queue, e);
      AccountOf(b', k, sent, lost, hand, queued + more);
    } else {
      AccountOf(b', k, sent, lost + more, hand, queued);
    }
  }

  lemma TakeConserves(b: Bench, k: nat)
    requires Shaped(b) && k < |b.taps|
    ensures Account(Advance(b, Take), k) == Account(b, k)
  {
    hide Account, InHand, Wants;
    if b.hand.Idle? && b.queue != [] {
      var b' := Advance(b, Take);
      var e, rest := b.queue[0], WantedOf(b, k, b.queue[1..]);
      var first := if Wants(b, k, e) then [e] else [];
      WantedSame(b, b', k, b'.queue);
      TakenInHand(b, k);
      AccountOf(b, k, b.sent[k], b.lost[k], [], first + rest);
      AccountOf(b', k, b.sent[k], b.lost[k], first, rest);
    }
  }

  lemma TakenInHand(b: Bench, k: nat)
    requires Shaped(b) && k < |b.taps| && b.hand.Idle? && b.queue != []
    ensures InHand(b, k) == []
    ensures InHand(Advance(b, Take), k) == if Wants(b, k, b.queue[0]) then [b.queue[0]] else []
  {
  }

  /** Serving an entry to a tap it is for moves it from the hand to the wire or to the loss. */
  lemma ServedConserves(b: Bench, b': Bench, k: nat, e: Entry)
    requires Shaped(b) && Shaped(b') && SameTap(b, b', k) && k < |b.taps|
    requires InHand(b, k) == [e] && InHand(b', k) == [] && b'.queue == b.queue
    requires || (b'.sent[k] == b.sent[k] + [e] && b'.lost[k] == b.lost[k])
             || (b'.lost[k] == b.lost[k] + [e] && b'.sent[k] == b.sent[k])
    ensures Account(b', k) == Account(b, k)
  {
    hide Account, InHand, WantedOf, Wants;
    WantedSame(b, b', k, b.queue);
    var queued := WantedOf(b, k, b.queue);
    AccountOf(b, k, b.sent[k], b.lost[k], [e], queued);
    AccountOf(b', k, b'.sent[k], b'.lost[k], [], queued);
  }

  lemma UntouchedConserves(b: Bench, b': Bench, k: nat)
    requires Shaped(b) && Shaped(b') && SameTap(b, b', k) && k < |b.taps|
    requires InHand(b, k) == InHand(b', k) && b'.queue == b.queue
    requires b'.sent[k] == b.sent[k] && b'.lost[k] == b.lost[k]
    ensures Account(b', k) == Account(b, k)
  {
    hide InHand, WantedOf, Wants;
    WantedSame(b, b', k, b.queue);
  }

  lemma ServeConserves(b: Bench, k: nat)
    requires Shaped(b) && k < |b.taps|
    ensures Account(Advance(b, Serve), k) == Account(b, k)
  {
    hide Account, EncEntry, IsData, Names;
    var b' := Advance(b, Serve);
    if b.hand.Serving? {
      var e, n := b.hand.entry, b.hand.next;
      if (n == k && NotifyWants(b, k, e)) || (n == |b.taps| && TranscriptWants(b, k)) {
        if n == |b.taps| { TranscriptIsNoNotify(b, k, e); }
        ServedConserves(b, b', k, e);
      } else {
        UntouchedConserves(b, b', k);
      }
    }
  }

  lemma TranscriptIsNoNotify(b: Bench, k: nat, e: Entry)
    requires Shaped(b) && k < |b.taps| && TranscriptWants(b, k)
    ensures !NotifyWants(b, k, e)
  {
  }

  lemma UpstreamConserves(b: Bench, k: nat, u: Uuid)
    requires Shaped(b) && k < |b.taps|
    ensures Account(Advance(b, LoseUpstream(u)), k) == Account(b, k)
  {
    hide Account, InHand, Wants;
    HandSame(b, Advance(b, LoseUpstream(u)), k);
    UntouchedConserves(b, Advance(b, LoseUpstream(u)), k);
  }

  /** The entries that reached the sink while tap `k`, open, wanted them. */
  function Promised(b: Bench, k: nat, steps: seq<Step>): seq<Entry>
    requires Shaped(b) && k < |b.taps|
    decreases |steps|
  {
    if steps == [] then []
    else
      var last := steps[|steps| - 1];
      Promised(b, k, steps[..|steps| - 1]) + if last.Arrive? && Wants(b, k, last.entry) then [last.entry] else []
  }

  /** The notifications and indications among the arrivals that carried one characteristic's data. */
  function DataOf(characteristic: Uuid, steps: seq<Step>): seq<Entry>
    decreases |steps|
  {
    if steps == [] then []
    else
      var last := steps[|steps| - 1];
      DataOf(characteristic, steps[..|steps| - 1])
      + if last.Arrive? && last.entry.characteristic == Some(characteristic) && 11 <= last.entry.kind <= 12
        then [last.entry] else []
  }

  function ArrivalsOf(steps: seq<Step>): seq<Entry>
    decreases |steps|
  {
    if steps == [] then []
    else
      ArrivalsOf(steps[..|steps| - 1]) + if steps[|steps| - 1].Arrive? then [steps[|steps| - 1].entry] else []
  }

  /**
   * What a tap is promised while its window stays as it is: nothing while it is shut; open, the
   * transcript's tap every arrival, a characteristic's tap that characteristic's notifications and
   * indications, and any other tap nothing.
   */
  lemma {:induction false} PromisedExactly(b: Bench, k: nat, steps: seq<Step>)
    requires Shaped(b) && k < |b.taps|
    ensures Promised(b, k, steps)
            == if !b.open[k] then []
               else if b.transcript == Some(k) then ArrivalsOf(steps)
               else if b.taps[k].sourceTag == 0 then DataOf(b.taps[k].characteristic, steps)
               else []
    decreases |steps|
  {
    if steps != [] {
      PromisedExactly(b, k, steps[..|steps| - 1]);
    }
  }

  /** Other taps' windows are none of tap `k`'s business. */
  lemma WindowConserves(b: Bench, k: nat, s: Step)
    requires Shaped(b) && k < |b.taps| && (s.OpenTap? || s.ShutTap?) && !Touches(s, k)
    ensures Account(Advance(b, s), k) == Account(b, k)
  {
    hide Account, InHand, Wants;
    HandSame(b, Advance(b, s), k);
    UntouchedConserves(b, Advance(b, s), k);
  }

  lemma AdvanceConserves(b: Bench, k: nat, s: Step)
    requires Shaped(b) && k < |b.taps| && !Touches(s, k)
    ensures Account(Advance(b, s), k)
            == Account(b, k) + if s.Arrive? && Wants(b, k, s.entry) then multiset{s.entry} else multiset{}
  {
    hide Account, Advance;
    match s
    case Arrive(e) => ArriveConserves(b, k, e);
    case LoseUpstream(u) => UpstreamConserves(b, k, u);
    case Take => TakeConserves(b, k);
    case Serve => ServeConserves(b, k);
    case OpenTap(_) => WindowConserves(b, k, s);
    case ShutTap(_) => WindowConserves(b, k, s);
  }

  /** No step opens or shuts tap `k`. */
  predicate LeavesAlone(steps: seq<Step>, k: nat) {
    forall s | s in steps :: !Touches(s, k)
  }

  lemma FrontLeavesAlone(steps: seq<Step>, k: nat)
    requires steps != [] && LeavesAlone(steps, k)
    ensures LeavesAlone(steps[..|steps| - 1], k) && !Touches(steps[|steps| - 1], k)
  {
    assert steps[|steps| - 1] in steps;
  }

  lemma {:induction false} StaysOpen(b: Bench, k: nat, steps: seq<Step>)
    requires Shaped(b) && LeavesAlone(steps, k)
    ensures SameTap(b, Interleaved(b, steps), k)
    decreases |steps|
  {
    hide Advance, Touches;
    if steps != [] {
      FrontLeavesAlone(steps, k);
      StaysOpen(b, k, steps[..|steps| - 1]);
    }
  }

  /**
   * However the threads interleave, while tap `k`'s own window stays as it is: every entry the tap, open,
   * wanted is exactly one of sent, charged, queued or in the sender's hand, as often as it arrived.
   */
  lemma {:induction false} NothingIsMislaid(b: Bench, k: nat, steps: seq<Step>)
    requires Shaped(b) && k < |b.taps| && LeavesAlone(steps, k)
    ensures Account(Interleaved(b, steps), k) == Account(b, k) + multiset(Promised(b, k, steps))
    decreases |steps|
  {
    hide Account, Advance, Wants, Touches;
    if steps == [] {
      assert multiset(Promised(b, k, steps)) == multiset{};
    } else {
      var before, last := steps[..|steps| - 1], steps[|steps| - 1];
      FrontLeavesAlone(steps, k);
      NothingIsMislaid(b, k, before);
      AdvanceConserves(Interleaved(b, before), k, last);
      if last.Arrive? {
        StaysOpen(b, k, before);
        WantsSame(b, Interleaved(b, before), k, last.entry);
      }
    }
  }

  /** What is waiting for tap `k`, in the sender's hand and in the queue. */
  function Waiting(b: Bench, k: nat): multiset<Entry>
    requires Shaped(b) && k < |b.taps|
  {
    multiset(InHand(b, k)) + multiset(WantedOf(b, k, b.queue))
  }

  // ---- Counters, capacity, and the wire ------------------------------------------------------------

  /** A record the link never drops: well-formed, so within the outbound budget. */
  predicate Fits(m: Message) {
    (m.StreamOpen? || m.StreamChunkBatch? || m.StreamClose?) && WellFormed(m)
  }

  /** An entry tap `k` is there for, whether or not it is open just now. */
  predicate Entitled(b: Bench, k: nat, e: Entry)
    requires Shaped(b) && k < |b.taps|
  {
    b.transcript == Some(k) || (IsData(e) && Names(b.taps[k], e.characteristic.value))
  }

  /** Nothing is sent or charged on a tap that it is not for. */
  ghost predicate OnlyTheirs(b: Bench)
    requires Shaped(b)
  {
    forall k, e | 0 <= k < |b.taps| && (e in b.sent[k] || e in b.lost[k]) :: Entitled(b, k, e)
  }

  /** A tap's counter is what was charged to it; the queue is never over its depth. */
  ghost predicate Sound(b: Bench) {
    && Shaped(b) && |b.queue| <= QUEUE_DEPTH && ChargesCounted(b) && RowsCounted(b) && OnlyTheirs(b)
    && forall m | m in b.wire :: Fits(m)
  }

  predicate ChargesCounted(b: Bench)
    requires Shaped(b)
  {
    forall k | 0 <= k < |b.taps| :: b.dropped[k] == |b.lost[k]| + b.upstream[k]
  }

  /** Some row was lost exactly when the count of lost rows says so. */
  predicate RowsCounted(b: Bench)
    requires Shaped(b)
  {
    b.rows == 0 <==> forall k | 0 <= k < |b.taps| :: b.lost[k] == []
  }

  lemma ChargedIsCounted(b: Bench, k: nat, e: Entry)
    requires Shaped(b) && k < |b.taps|
    ensures RowsCounted(Charge(b, k, e))
    ensures Wants(b, k, e) ==> RowsCounted(ChargeAll(b, e))
  {
    hide Wants;
    assert Charge(b, k, e).lost[k] != [];
    assert Wants(b, k, e) ==> ChargeAll(b, e).lost[k] != [];
  }

  lemma AdvanceCountsRows(b: Bench, s: Step)
    requires Shaped(b) && RowsCounted(b)
    ensures RowsCounted(Advance(b, s))
  {
    hide EncEntry, IsData, Names, Charge, ChargeAll;
    match s
    case Arrive(e) =>
      if AnyoneWants(b, e) {
        var k :| 0 <= k < |b.taps| && Wants(b, k, e);
        ChargedIsCounted(b, k, e);
      }
    case Serve =>
      if b.hand.Serving? {
        if b.hand.next < |b.taps| {
          ChargedIsCounted(b, b.hand.next, b.hand.entry);
        } else if b.transcript.Some? {
          ChargedIsCounted(b, b.transcript.value, b.hand.entry);
        }
      }
    case _ =>
  }

  /** One entry more, on a tap it is for, or on every tap that wants it. */
  lemma ChargedIsTheirs(b: Bench, k: nat, e: Entry, bytes: seq<Byte>)
    requires Shaped(b) && k < |b.taps| && OnlyTheirs(b)
    ensures Entitled(b, k, e) ==> OnlyTheirs(Charge(b, k, e)) && OnlyTheirs(Send(b, k, e, bytes))
    ensures OnlyTheirs(ChargeAll(b, e))
  {
    hide IsData, Names;
  }

  lemma AdvanceOnlyTheirs(b: Bench, s: Step)
    requires Shaped(b) && OnlyTheirs(b)
    ensures OnlyTheirs(Advance(b, s))
  {
    hide EncEntry, Names, Charge, ChargeAll, Send, OnlyTheirs;
    match s
    case Arrive(e) =>
      if AnyoneWants(b, e) && |b.queue| >= QUEUE_DEPTH {
        ChargedIsTheirs(b, 0, e, []);
      } else {
        TheirsSame(b, Advance(b, s));
      }
    case Serve =>
      if b.hand.Serving? {
        var e, n := b.hand.entry, b.hand.next;
        if n < |b.taps| {
          ChargedIsTheirs(b, n, e, e.payload);
          TheirsSame(ServeTap(b, n, e), Advance(b, s));
        } else {
          if b.transcript.Some? { ChargedIsTheirs(b, b.transcript.value, e, EncEntry(e)); }
          TheirsSame(ServeTranscript(b, e), Advance(b, s));
        }
      }
    case LoseUpstream(_) => TheirsSame(b, Advance(b, s));
    case Take => TheirsSame(b, Advance(b, s));
    case OpenTap(_) => TheirsSame(b, Advance(b, s));
    case ShutTap(_) => TheirsSame(b, Advance(b, s));
  }

  lemma TheirsSame(a: Bench, b: Bench)
    requires Shaped(a) && Shaped(b) && OnlyTheirs(a)
    requires a.taps == b.taps && a.transcript == b.transcript && a.sent == b.sent && a.lost == b.lost
    ensures OnlyTheirs(b)
  {
  }

  lemma AdvanceIsSound(b: Bench, s: Step)
    requires Sound(b)
    ensures Sound(Advance(b, s))
  {
    hide EncEntry, RowsCounted, OnlyTheirs, ChargesCounted, Wants, NotifyWants;
    AdvanceCountsRows(b, s);
    AdvanceOnlyTheirs(b, s);
    AdvanceCountsCharges(b, s);
  }

  lemma AdvanceCountsCharges(b: Bench, s: Step)
    requires Shaped(b) && ChargesCounted(b)
    ensures ChargesCounted(Advance(b, s))
  {
    hide EncEntry, Wants, NotifyWants;
  }

  /**
   * Over any interleaving, windows moving or not: the counters keep to what was charged, no entry is sent
   * or charged on a tap it is not for, and every message sent is one the link never drops.
   */
  lemma {:induction false} CountersAreHonest(b: Bench, steps: seq<Step>)
    requires Sound(b)
    ensures Sound(Interleaved(b, steps))
    decreases |steps|
  {
    hide Advance, ChargesCounted, RowsCounted, OnlyTheirs, Fits;
    if steps != [] {
      CountersAreHonest(b, steps[..|steps| - 1]);
      AdvanceIsSound(Interleaved(b, steps[..|steps| - 1]), steps[|steps| - 1]);
    }
  }

  /** While a tap stays shut it neither sends nor is charged. */
  lemma {:induction false} ShutIsQuiet(b: Bench, k: nat, steps: seq<Step>)
    requires Sound(b) && k < |b.taps| && !b.open[k] && LeavesAlone(steps, k)
    ensures var b' := Interleaved(b, steps);
            b'.sent[k] == b.sent[k] && b'.lost[k] == b.lost[k] && b'.dropped[k] == b.dropped[k]
    decreases |steps|
  {
    hide Advance, ChargesCounted, RowsCounted, OnlyTheirs, Fits, Touches;
    if steps != [] {
      var before := steps[..|steps| - 1];
      FrontLeavesAlone(steps, k);
      ShutIsQuiet(b, k, before);
      StaysOpen(b, k, before);
      CountersAreHonest(b, before);
      ShutAdvance(Interleaved(b, before), k, steps[|steps| - 1]);
    }
  }

  lemma ShutAdvance(b: Bench, k: nat, s: Step)
    requires Sound(b) && k < |b.taps| && !b.open[k]
    ensures var b' := Advance(b, s);
            b'.sent[k] == b.sent[k] && b'.lost[k] == b.lost[k] && b'.dropped[k] == b.dropped[k]
  {
    hide EncEntry, RowsCounted, OnlyTheirs;
  }

  /** What tap `k` was charged between two moments, by the sink, by the sender and for the bridge. */
  function ChargedSince(a: Bench, b: Bench, k: nat): int
    requires Shaped(a) && Shaped(b) && k < |a.taps| == |b.taps|
  {
    |b.lost[k]| + b.upstream[k] as int - |a.lost[k]| - a.upstream[k] as int
  }

  /**
   * A window, from its StreamOpen to its StreamClose, whatever else interleaves. The close carries the
   * tap's counter, which grew by exactly what was charged since the open; and what was charged, with what
   * was sent since and what is then still queued or in the sender's hand, is what was waiting at the open
   * and what arrived since.
   */
  lemma CloseReportsTheWindow(b: Bench, k: nat, steps: seq<Step>)
    requires Sound(b) && k < |b.taps| && !b.open[k] && LeavesAlone(steps, k)
    ensures var begun := Advance(b, OpenTap(k));
            var last := Interleaved(begun, steps);
            var closed := Advance(last, ShutTap(k));
            && begun.wire == b.wire + [StreamOpen(b.taps[k].id)]
            && closed.wire == last.wire + [StreamClose(b.taps[k].id, last.dropped[k] % TWO_32)]
            && last.dropped[k] as int - b.dropped[k] as int == ChargedSince(b, last, k)
            && multiset(last.sent[k]) + multiset(last.lost[k]) + Waiting(last, k)
               == multiset(b.sent[k]) + multiset(b.lost[k]) + Waiting(begun, k)
                  + multiset(Promised(begun, k, steps))
  {
    hide Waiting, Interleaved, Promised, RowsCounted, OnlyTheirs, InHand, WantedOf, Fits;
    var begun := Advance(b, OpenTap(k));
    AdvanceIsSound(b, OpenTap(k));
    CountersAreHonest(begun, steps);
    NothingIsMislaid(begun, k, steps);
    StaysOpen(begun, k, steps);
    AccountIs(begun, k);
    AccountIs(Interleaved(begun, steps), k);
  }

  lemma AccountIs(b: Bench, k: nat)
    requires Shaped(b) && k < |b.taps|
    ensures Account(b, k) == multiset(b.sent[k]) + multiset(b.lost[k]) + Waiting(b, k)
  {
  }

  // ---- What the wire says ---------------------------------------------------------------------------

  /** An entry as tap `k`'s records hold it: the transcript's tap the whole row, any other the value alone. */
  function Rendering(b: Bench, k: nat, e: Entry): Record {
    Record(e.rxUtcMs, if b.transcript == Some(k) then EncEntry(e) else e.payload)
  }

  function Renderings(b: Bench, k: nat, entries: seq<Entry>): seq<Record> {
    seq(|entries|, i requires 0 <= i < |entries| => Rendering(b, k, entries[i]))
  }

  /** The records on the wire under one id, in order. */
  function Carried(wire: seq<Message>, id: Byte): seq<Record>
    decreases |wire|
  {
    if wire == [] then []
    else
      var last := wire[|wire| - 1];
      Carried(wire[..|wire| - 1], id) + if last.StreamChunkBatch? && last.id == id then last.records else []
  }

  predicate DistinctIds(taps: seq<StreamTap>) {
    forall i, j | 0 <= i < j < |taps| :: taps[i].id != taps[j].id
  }

  /** Under each tap's id the wire carries exactly what was sent on that tap. */
  predicate WireSays(b: Bench)
    requires Shaped(b)
  {
    forall k | 0 <= k < |b.taps| :: Carried(b.wire, b.taps[k].id) == Renderings(b, k, b.sent[k])
  }

  lemma CarriedNext(wire: seq<Message>, m: Message, id: Byte)
    ensures Carried(wire + [m], id)
            == Carried(wire, id) + if m.StreamChunkBatch? && m.id == id then m.records else []
  {
    assert (wire + [m])[..|wire|] == wire;
  }

  lemma RenderingsNext(b: Bench, k: nat, entries: seq<Entry>, e: Entry)
    ensures Renderings(b, k, entries + [e]) == Renderings(b, k, entries) + [Rendering(b, k, e)]
  {
  }

  /** One message more that is no batch, or one entry more on the tap whose id its batch has. */
  lemma WireNext(b: Bench, b': Bench, m: Message, k: nat, e: Entry)
    requires Shaped(b) && Shaped(b') && WireSays(b) && DistinctIds(b.taps)
    requires b'.taps == b.taps && b'.transcript == b.transcript && b'.wire == b.wire + [m]
    requires if m.StreamChunkBatch?
             then k < |b.taps| && m.id == b.taps[k].id && m.records == [Rendering(b, k, e)]
                  && b'.sent == b.sent[k := b.sent[k] + [e]]
             else b'.sent == b.sent
    ensures WireSays(b')
  {
    hide Carried, Rendering;
    forall j | 0 <= j < |b.taps|
      ensures Carried(b'.wire, b.taps[j].id) == Renderings(b', j, b'.sent[j])
    {
      CarriedNext(b.wire, m, b.taps[j].id);
      SameRenderings(b, b', j, b'.sent[j]);
      if m.StreamChunkBatch? && j == k {
        RenderingsNext(b, k, b.sent[k], e);
      } else {
        assert Carried(b.wire, b.taps[j].id) + [] == Carried(b.wire, b.taps[j].id);
      }
    }
  }

  lemma SameRenderings(a: Bench, b: Bench, k: nat, entries: seq<Entry>)
    requires a.transcript == b.transcript
    ensures Renderings(a, k, entries) == Renderings(b, k, entries)
  {
  }

  lemma WireSame(b: Bench, b': Bench)
    requires Shaped(b) && Shaped(b') && WireSays(b)
    requires b'.taps == b.taps && b'.transcript == b.transcript && b'.wire == b.wire && b'.sent == b.sent
    ensures WireSays(b')
  {
    hide Carried, Rendering;
    forall j | 0 <= j < |b.taps|
      ensures Carried(b'.wire, b.taps[j].id) == Renderings(b', j, b'.sent[j])
    {
      SameRenderings(b, b', j, b'.sent[j]);
    }
  }

  lemma AdvanceKeepsWire(b: Bench, s: Step)
    requires Shaped(b) && WireSays(b) && DistinctIds(b.taps)
    ensures WireSays(Advance(b, s))
  {
    hide WireSays, EncEntry, AnyoneWants, DistinctIds, Wants, IsData, Names;
    var b' := Advance(b, s);
    match s
    case Serve =>
      if b.hand.Serving? && b'.wire != b.wire {
        var k := if b.hand.next < |b.taps| then b.hand.next else b.transcript.value;
        RenderedAs(b);
        WireNext(b, b', b'.wire[|b.wire|], k, b.hand.entry);
      } else {
        WireSame(b, b');
      }
    case OpenTap(k) => if k < |b.taps| { WireNext(b, b', b'.wire[|b.wire|], 0, NO_ENTRY); }
    case ShutTap(k) => if k < |b.taps| { WireNext(b, b', b'.wire[|b.wire|], 0, NO_ENTRY); }
    case _ => WireSame(b, b');
  }

  const NO_ENTRY: Entry := Entry(0, 0, 0, None, None, 0, [])

  /** A tap served for its characteristic is not the transcript's. */
  lemma RenderedAs(b: Bench)
    requires Shaped(b) && b.hand.Serving?
    ensures b.hand.next < |b.taps| && NotifyWants(b, b.hand.next, b.hand.entry) ==>
              Rendering(b, b.hand.next, b.hand.entry) == Record(b.hand.entry.rxUtcMs, b.hand.entry.payload)
  {
  }

  /**
   * Under every interleaving, windows moving or not, from a bench that has sent nothing: the records on
   * the wire under a tap's id are, in order, the entries sent on that tap, each stamped with its own time,
   * the row whole on the transcript's tap and the value alone on any other.
   */
  lemma {:induction false} WireCarriesWhatWasSent(b: Bench, steps: seq<Step>)
    requires Shaped(b) && DistinctIds(b.taps)
    requires b.wire == [] && forall k | 0 <= k < |b.taps| :: b.sent[k] == []
    ensures WireSays(Interleaved(b, steps))
    decreases |steps|
  {
    hide Advance, WireSays, DistinctIds;
    if steps == [] {
      NothingOnTheWire(b);
    } else {
      WireCarriesWhatWasSent(b, steps[..|steps| - 1]);
      AdvanceKeepsWire(Interleaved(b, steps[..|steps| - 1]), steps[|steps| - 1]);
    }
  }

  lemma NothingOnTheWire(b: Bench)
    requires Shaped(b) && b.wire == [] && forall k | 0 <= k < |b.taps| :: b.sent[k] == []
    ensures WireSays(b)
  {
  }

  // ---- What is counted ----------------------------------------------------------------------------------

  /** The steps at which an entry was lost, on however many taps. */
  function LossesAt(b: Bench, steps: seq<Step>): nat
    requires Shaped(b)
    decreases |steps|
  {
    if steps == [] then 0
    else
      var before := Interleaved(b, steps[..|steps| - 1]);
      LossesAt(b, steps[..|steps| - 1])
      + if Advance(before, steps[|steps| - 1]).lost != before.lost then 1 else 0
  }

  lemma StepLosesARow(b: Bench, s: Step)
    requires Shaped(b)
    ensures Advance(b, s).rows == b.rows + if Advance(b, s).lost != b.lost then 1 else 0
  {
    hide EncEntry, IsData, Names;
    var b' := Advance(b, s);
    if s.Arrive? && AnyoneWants(b, s.entry) && |b.queue| >= QUEUE_DEPTH {
      var k :| 0 <= k < |b.taps| && Wants(b, k, s.entry);
      assert |b'.lost[k]| == |b.lost[k]| + 1;
    } else if s.Serve? && b.hand.Serving? && b'.rows != b.rows {
      var k := if b.hand.next < |b.taps| then b.hand.next else b.transcript.value;
      assert |b'.lost[k]| == |b.lost[k]| + 1;
    }
  }

  /** Under every interleaving the count of lost rows is the number of times an entry was lost. */
  lemma {:induction false} RowsAreLosses(b: Bench, steps: seq<Step>)
    requires Shaped(b)
    ensures Interleaved(b, steps).rows == b.rows + LossesAt(b, steps)
    decreases |steps|
  {
    hide Advance;
    if steps != [] {
      RowsAreLosses(b, steps[..|steps| - 1]);
      StepLosesARow(Interleaved(b, steps[..|steps| - 1]), steps[|steps| - 1]);
    }
  }

  /** How often the bridge lost a notification of one characteristic. */
  function LostUpstreamOf(characteristic: Uuid, steps: seq<Step>): nat
    decreases |steps|
  {
    if steps == [] then 0
    else
      LostUpstreamOf(characteristic, steps[..|steps| - 1])
      + if steps[|steps| - 1] == LoseUpstream(characteristic) then 1 else 0
  }

  /** While its window stays as it is, an open characteristic's tap is charged each such loss once, any other none. */
  lemma {:induction false} UpstreamExactly(b: Bench, k: nat, steps: seq<Step>)
    requires Shaped(b) && k < |b.taps| && LeavesAlone(steps, k)
    ensures Interleaved(b, steps).upstream[k]
            == b.upstream[k] + if b.open[k] && b.taps[k].sourceTag == 0
                               then LostUpstreamOf(b.taps[k].characteristic, steps) else 0
    decreases |steps|
  {
    hide Advance, Touches;
    if steps != [] {
      var before, last := steps[..|steps| - 1], steps[|steps| - 1];
      FrontLeavesAlone(steps, k);
      UpstreamExactly(b, k, before);
      StaysOpen(b, k, before);
      StepLosesUpstream(Interleaved(b, before), k, last);
    }
  }

  lemma StepLosesUpstream(b: Bench, k: nat, s: Step)
    requires Shaped(b) && k < |b.taps|
    ensures Advance(b, s).upstream[k]
            == b.upstream[k] + if b.open[k] && b.taps[k].sourceTag == 0
                                  && s == LoseUpstream(b.taps[k].characteristic) then 1 else 0
  {
    hide EncEntry, Wants, NotifyWants;
  }

  /** An entry served to a tap it is for is sent if its record is of at most 256 bytes, and else lost to that tap. */
  lemma ServedExactly(b: Bench, k: nat, e: Entry)
    requires Shaped(b) && k < |b.taps| && b.hand.Serving? && b.hand.entry == e
    requires (b.hand.next == k && NotifyWants(b, k, e)) || (b.hand.next == |b.taps| && TranscriptWants(b, k))
    ensures var b', fits := Advance(b, Serve), |Rendering(b, k, e).bytes| < 257;
            && b'.sent == (if fits then b.sent[k := b.sent[k] + [e]] else b.sent)
            && b'.lost == (if fits then b.lost else b.lost[k := b.lost[k] + [e]])
  {
    hide EncEntry, IsData, Names;
    if NotifyWants(b, k, e) && b.transcript == Some(k) { TranscriptIsNoNotify(b, k, e); }
  }

  // ---- First in, first out ----------------------------------------------------------------------------

  /** `a`, in its order, among the entries of `b`. */
  predicate InOrder(a: seq<Entry>, b: seq<Entry>)
    decreases |b|
  {
    a == []
    || (b != [] && ((a[|a| - 1] == b[|b| - 1] && InOrder(a[..|a| - 1], b[..|b| - 1])) || InOrder(a, b[..|b| - 1])))
  }

  lemma InOrderBoth(a: seq<Entry>, b: seq<Entry>, e: Entry)
    requires InOrder(a, b)
    ensures InOrder(a + [e], b + [e]) && InOrder(a, b + [e])
  {
    assert (a + [e])[..|a|] == a && (b + [e])[..|b|] == b;
  }

  lemma {:induction false} InOrderWithout(x: seq<Entry>, e: Entry, y: seq<Entry>, b: seq<Entry>)
    requires InOrder(x + [e] + y, b)
    ensures InOrder(x + y, b)
    decreases |b|
  {
    var a, front := x + [e] + y, b[..|b| - 1];
    if a[|a| - 1] == b[|b| - 1] && InOrder(a[..|a| - 1], front) {
      if y == [] {
        assert a[..|a| - 1] == x + y;
      } else {
        var y' := y[..|y| - 1];
        assert a[..|a| - 1] == x + [e] + y' && x + y == (x + y') + [y[|y| - 1]] && b == front + [b[|b| - 1]];
        InOrderWithout(x, e, y', front);
        InOrderBoth(x + y', front, b[|b| - 1]);
      }
    } else {
      InOrderWithout(x, e, y, front);
    }
  }

  lemma {:induction false} InOrderSelf(a: seq<Entry>)
    ensures InOrder(a, a)
    decreases |a|
  {
    if a != [] {
      InOrderSelf(a[..|a| - 1]);
    }
  }

  /** What tap `k` has had and will have, in the order it goes out. */
  function Outgoing(b: Bench, k: nat): seq<Entry>
    requires Shaped(b) && k < |b.taps|
  {
    b.sent[k] + InHand(b, k) + WantedOf(b, k, b.queue)
  }

  /** A step adds a wanted arrival last, leaves the order alone, or drops the entry in hand. */
  lemma OutgoingStep(b: Bench, k: nat, s: Step)
    requires Shaped(b) && k < |b.taps| && !Touches(s, k)
    ensures var out, out' := Outgoing(b, k), Outgoing(Advance(b, s), k);
            || out' == out
            || (s.Arrive? && Wants(b, k, s.entry) && out' == out + [s.entry])
            || (s.Serve? && InHand(b, k) != [] && out' == b.sent[k] + WantedOf(b, k, b.queue))
  {
    hide InHand, WantedOf, EncEntry, IsData, Names, Wants, AnyoneWants;
    var b' := Advance(b, s);
    WantedSame(b, b', k, b.queue);
    match s
    case Arrive(e) =>
      HandSame(b, b', k);
      if b'.queue == b.queue + [e] {
        WantedSame(b, b', k, b.queue + [e]);
        WantedAppend(b, k, b.queue, e);
        assert Outgoing(b', k) == Outgoing(b, k) + if Wants(b, k, e) then [e] else [];
      }
    case LoseUpstream(_) => HandSame(b, b', k);
    case OpenTap(_) => HandSame(b, b', k);
    case ShutTap(_) => HandSame(b, b', k);
    case Take => TakeKeepsOrder(b, k);
    case Serve => ServeKeepsOrder(b, k);
  }

  lemma TakeKeepsOrder(b: Bench, k: nat)
    requires Shaped(b) && k < |b.taps|
    ensures Outgoing(Advance(b, Take), k) == Outgoing(b, k)
  {
    hide InHand, Wants;
    if b.hand.Idle? && b.queue != [] {
      WantedSame(b, Advance(b, Take), k, b.queue[1..]);
      TakenInHand(b, k);
    }
  }

  lemma ServeKeepsOrder(b: Bench, k: nat)
    requires Shaped(b) && k < |b.taps|
    ensures var b' := Advance(b, Serve);
            || Outgoing(b', k) == Outgoing(b, k)
            || (InHand(b, k) != [] && Outgoing(b', k) == b.sent[k] + WantedOf(b, k, b.queue))
  {
    hide WantedOf, InHand, Advance;
    var b' := Advance(b, Serve);
    WantedSame(b, b', k, b.queue);
    ServeMoves(b, k);
    if b'.sent[k] == b.sent[k] + InHand(b, k) {
      assert b.sent[k] + InHand(b, k) + [] == b.sent[k] + InHand(b, k);
    } else if InHand(b', k) == [] {
      assert b.sent[k] + [] == b.sent[k];
    }
  }

  /** A serve leaves what is in hand for a tap, or sends it, or drops it. */
  lemma ServeMoves(b: Bench, k: nat)
    requires Shaped(b) && k < |b.taps|
    ensures var b' := Advance(b, Serve);
            && b'.queue == b.queue && SameTap(b, b', k)
            && ((b'.sent[k] == b.sent[k] && InHand(b', k) == InHand(b, k))
                || (InHand(b, k) != [] && b'.sent[k] == b.sent[k] + InHand(b, k) && InHand(b', k) == [])
                || (InHand(b, k) != [] && b'.sent[k] == b.sent[k] && InHand(b', k) == []))
  {
    hide EncEntry, IsData, Names;
    if b.hand.Serving? {
      if TranscriptWants(b, k) { TranscriptIsNoNotify(b, k, b.hand.entry); }
    }
  }

  /**
   * While tap `k`'s window stays as it is, under every interleaving: what goes out on it, with what is in
   * hand and queued for it, stands in the order in which it arrived.
   */
  lemma {:induction false} CapturesKeepTheirOrder(b: Bench, k: nat, steps: seq<Step>)
    requires Shaped(b) && k < |b.taps| && LeavesAlone(steps, k)
    ensures InOrder(Outgoing(Interleaved(b, steps), k), Outgoing(b, k) + Promised(b, k, steps))
    decreases |steps|
  {
    hide Advance, Wants, Touches, InOrder, Outgoing;
    if steps == [] {
      assert Outgoing(b, k) + Promised(b, k, steps) == Outgoing(b, k);
      InOrderSelf(Outgoing(b, k));
    } else {
      var before, last := steps[..|steps| - 1], steps[|steps| - 1];
      FrontLeavesAlone(steps, k);
      CapturesKeepTheirOrder(b, k, before);
      StaysOpen(b, k, before);
      OrderNext(b, Interleaved(b, before), k, last, Outgoing(b, k) + Promised(b, k, before));
      assert Outgoing(b, k) + Promised(b, k, steps)
             == (Outgoing(b, k) + Promised(b, k, before))
                + if last.Arrive? && Wants(b, k, last.entry) then [last.entry] else [];
    }
  }

  lemma OrderNext(a: Bench, b: Bench, k: nat, s: Step, arrived: seq<Entry>)
    requires Shaped(a) && Shaped(b) && k < |a.taps| == |b.taps| && SameTap(a, b, k) && !Touches(s, k)
    requires InOrder(Outgoing(b, k), arrived)
    ensures InOrder(Outgoing(Advance(b, s), k), arrived + if s.Arrive? && Wants(a, k, s.entry) then [s.entry] else [])
  {
    hide Advance, Wants, InHand, WantedOf, InOrder;
    OutgoingStep(b, k, s);
    if s.Arrive? {
      WantsSame(a, b, k, s.entry);
      InOrderBoth(Outgoing(b, k), arrived, s.entry);
      assert arrived + [] == arrived;
    } else {
      assert arrived + [] == arrived;
      if Outgoing(Advance(b, s), k) != Outgoing(b, k) {
        InHandIsOne(b, k);
        InOrderWithout(b.sent[k], InHand(b, k)[0], WantedOf(b, k, b.queue), arrived);
      }
    }
  }

  lemma InHandIsOne(b: Bench, k: nat)
    requires Shaped(b) && k < |b.taps| && InHand(b, k) != []
    ensures InHand(b, k) == [InHand(b, k)[0]]
  {
  }

  /** Nothing but arrivals: what the radio delivers before the sender gets its turn. */
  function Arrivals(entries: seq<Entry>): (steps: seq<Step>)
    ensures |steps| == |entries|
    decreases |entries|
  {
    if entries == [] then [] else Arrivals(entries[..|entries| - 1]) + [Arrive(entries[|entries| - 1])]
  }

  /** Of a burst some tap wants, the first sixteen are queued, in order, and every further one is lost. */
  lemma {:induction false} BurstsQueueSixteen(b: Bench, entries: seq<Entry>)
    requires Shaped(b) && b.queue == [] && forall e | e in entries :: AnyoneWants(b, e)
    ensures var b' := Interleaved(b, Arrivals(entries));
            && b'.queue == (if |entries| <= 16 then entries else entries[..16])
            && b'.rows == b.rows + (if |entries| <= 16 then 0 else |entries| - 16)
            && SameWindows(b, b')
    decreases |entries|
  {
    hide AnyoneWants, Wants;
    if entries != [] {
      var front, last := entries[..|entries| - 1], entries[|entries| - 1];
      BurstsQueueSixteen(b, front);
      var b' := Interleaved(b, Arrivals(front));
      assert Arrivals(entries)[..|entries| - 1] == Arrivals(front);
      assert last in entries;
      AnyoneSame(b, b', last);
    }
  }

  // ---- What the sink lets in ------------------------------------------------------------------------

  /** Everything queued or in hand is wanted by some open tap. */
  ghost predicate AllWanted(b: Bench)
    requires Shaped(b)
  {
    && (forall e | e in b.queue :: AnyoneWants(b, e))
    && (b.hand.Serving? ==> AnyoneWants(b, b.hand.entry))
  }

  /**
   * While no window moves, whatever arrives and however the threads interleave: nothing is queued or in
   * hand that no open tap wants, so the queue is never filled by what nobody asked for.
   */
  lemma {:induction false} OnlyTheWantedIsQueued(b: Bench, steps: seq<Step>)
    requires Shaped(b) && AllWanted(b) && forall s | s in steps :: !s.OpenTap? && !s.ShutTap?
    ensures AllWanted(Interleaved(b, steps))
    decreases |steps|
  {
    hide Advance, AnyoneWants;
    if steps != [] {
      var before, last := steps[..|steps| - 1], steps[|steps| - 1];
      assert last in steps && forall s | s in before :: s in steps;
      OnlyTheWantedIsQueued(b, before);
      AdvanceQueuesWanted(Interleaved(b, before), last);
    }
  }

  lemma AdvanceQueuesWanted(b: Bench, s: Step)
    requires Shaped(b) && AllWanted(b) && !s.OpenTap? && !s.ShutTap?
    ensures AllWanted(Advance(b, s))
  {
    hide AnyoneWants, Wants;
    var b' := Advance(b, s);
    forall e
      ensures AnyoneWants(b', e) == AnyoneWants(b, e)
    {
      AnyoneSame(b, b', e);
    }
  }

  lemma AnyoneSame(a: Bench, b: Bench, e: Entry)
    requires Shaped(a) && Shaped(b) && SameWindows(a, b)
    ensures AnyoneWants(a, e) == AnyoneWants(b, e)
  {
    hide Wants;
    forall k: nat | k < |a.taps|
      ensures Wants(a, k, e) == Wants(b, k, e)
    {
      WantsSame(a, b, k, e);
    }
  }

  // ---- The code that makes the moves -----------------------------------------------------------

  /** The sender's whole turn with one entry: take it, look at each tap, then at the transcript. */
  function Turn(serves: nat): seq<Step> {
    if serves == 0 then [Take] else Turn(serves - 1) + [Serve]
  }

  lemma TurnStep(b: Bench, n: nat)
    requires Shaped(b)
    ensures Interleaved(b, Turn(0)) == Advance(b, Take)
    ensures Interleaved(b, Turn(n + 1)) == Advance(Interleaved(b, Turn(n)), Serve)
  {
    hide Advance;
    assert [Take][..0] == [];
    assert Interleaved(b, []) == b;
    assert Turn(n + 1)[..|Turn(n)|] == Turn(n);
  }

  /** What tap `k` has been charged once the first `i` taps were looked at for their characteristic. */
  ghost function Tally(b: Bench, k: nat, e: Entry, i: nat): nat
    requires Shaped(b) && k < |b.taps|
  {
    (if TranscriptWants(b, k) then 1 else 0) + (if k < i && NotifyWants(b, k, e) then 1 else 0)
  }

  lemma TallyStart(b: Bench, e: Entry)
    requires Shaped(b)
    ensures forall k | 0 <= k < |b.taps| ::
              Tally(b, k, e, 0) == if b.transcript == Some(k) && b.open[k] then 1 else 0
  {
  }

  lemma TallyNext(b: Bench, e: Entry, i: nat)
    requires Shaped(b) && i < |b.taps|
    ensures forall k | 0 <= k < |b.taps| ::
              Tally(b, k, e, i + 1) == Tally(b, k, e, i) + if k == i && NotifyWants(b, i, e) then 1 else 0
  {
  }

  /** A tap is charged for the transcript or for its characteristic, never for both. */
  lemma TallyEnds(b: Bench, e: Entry, i: nat)
    requires Shaped(b) && (i == |b.taps| || !IsData(e))
    ensures forall k | 0 <= k < |b.taps| :: ChargeAll(b, e).dropped[k] == b.dropped[k] + Tally(b, k, e, i)
    ensures ChargeAll(b, e) == b.(rows := b.rows + 1, lost := ChargeAll(b, e).lost, dropped := ChargeAll(b, e).dropped)
  {
    forall k: nat | k < |b.taps|
      ensures (if Wants(b, k, e) then 1 else 0) == Tally(b, k, e, i)
    {
      if TranscriptWants(b, k) { TranscriptIsNoNotify(b, k, e); }
    }
  }

  class Capture {
    const tapOpen: array<bool>
    const tapDropped: array<nat>
    var taps: seq<StreamTap>
    var transcriptTap: int
    var transcriptTapOpen: bool
    var transcriptDropped: nat
    var queue: seq<Entry>
    var wire: seq<Message>
    ghost var hand: Hand
    ghost var sent: seq<seq<Entry>>
    ghost var lost: seq<seq<Entry>>
    ghost var upstream: seq<nat>

    constructor ()
      ensures Valid() && taps == [] && queue == [] && wire == []
      ensures fresh(tapOpen) && fresh(tapDropped)
    {
      tapOpen := new bool[MAX_STREAMS](_ => false);
      tapDropped := new nat[MAX_STREAMS](_ => 0);
      taps, transcriptTap, transcriptTapOpen, transcriptDropped, queue, wire := [], -1, false, 0, [], [];
      hand, sent, lost, upstream := Idle, [], [], [];
    }

    ghost predicate Valid()
      reads this, tapOpen
    {
      && tapOpen.Length == tapDropped.Length == MAX_STREAMS && |taps| <= MAX_STREAMS
      && |sent| == |lost| == |upstream| == |taps|
      && -1 <= transcriptTap < |taps|
      && (transcriptTap >= 0 ==> taps[transcriptTap].sourceTag == SOURCE_GATT_TRANSCRIPT)
      && transcriptTapOpen == (transcriptTap >= 0 && tapOpen[transcriptTap])
      && (hand.Serving? ==> hand.next <= |taps|)
    }

    ghost function Model(): (b: Bench)
      requires Valid()
      reads this, tapOpen, tapDropped
      ensures Shaped(b)
    {
      Bench(taps, tapOpen[..|taps|], if transcriptTap >= 0 then Some(transcriptTap) else None, queue, hand,
            tapDropped[..|taps|], transcriptDropped, sent, lost, upstream, wire)
    }

    /** `notify_tap_wants`. */
    method NotifyTapWants(e: Entry) returns (wants: bool)
      requires Valid()
      ensures wants <==> exists k :: 0 <= k < |taps| && NotifyWants(Model(), k, e)
    {
      if !IsData(e) {
        return false;
      }
      var i := 0;
      while i < |taps|
        invariant i <= |taps|
        invariant forall k | 0 <= k < i :: !NotifyWants(Model(), k, e)
      {
        if tapOpen[i] && Names(taps[i], e.characteristic.value) {
          assert NotifyWants(Model(), i, e);
          return true;
        }
        i := i + 1;
      }
      return false;
    }

    /** `set_tap_open`, called by the dispatcher on a transition. */
    method SetTapOpen(index: nat, open: bool)
      requires Valid() && index < |taps|
      modifies this`wire, this`transcriptTapOpen, tapOpen
      ensures Valid() && Model() == Advance(old(Model()), if open then OpenTap(index) else ShutTap(index))
    {
      ghost var b := Model();
      var id := taps[index].id;
      wire := wire + [if open then StreamOpen(id) else StreamClose(id, tapDropped[index] % TWO_32)];
      tapOpen[index] := open;
      if index == transcriptTap {
        transcriptTapOpen := open;
      }
      assert tapOpen[..|taps|] == b.open[index := open];
    }

    /** `charge_drop_to_taps`: the same fan-out as the sender's. */
    method ChargeDrop(e: Entry)
      requires Valid()
      modifies this`transcriptDropped, this`lost, tapDropped
      ensures Valid() && Model() == ChargeAll(old(Model()), e)
    {
      hide Tally, ChargeAll, Wants;
      ghost var b := Model();
      transcriptDropped := transcriptDropped + 1;
      TallyStart(b, e);
      if transcriptTapOpen && transcriptTap >= 0 {
        tapDropped[transcriptTap] := tapDropped[transcriptTap] + 1;
      }
      var i := 0;
      if IsData(e) {
        while i < |taps|
          invariant i <= |taps| && transcriptDropped == b.rows + 1 && lost == b.lost
          invariant forall k | 0 <= k < |taps| :: tapDropped[k] == b.dropped[k] + Tally(b, k, e, i)
        {
          TallyNext(b, e, i);
          if tapOpen[i] && Names(taps[i], e.characteristic.value) {
            tapDropped[i] := tapDropped[i] + 1;
          }
          i := i + 1;
        }
      }
      lost := ChargeAll(b, e).lost;
      TallyEnds(b, e, i);
      assert tapDropped[..|taps|] == ChargeAll(b, e).dropped;
    }

    /** `transcript_sink_cb`, called from the radio thread. */
    method SinkEntry(e: Entry)
      requires Valid()
      modifies this`queue, this`transcriptDropped, this`lost, tapDropped
      ensures Valid() && Model() == Advance(old(Model()), Arrive(e))
    {
      hide ChargeAll, IsData, Names;
      var wanted := NotifyTapWants(e);
      WantedBySome(Model(), e);
      if !transcriptTapOpen && !wanted {
        return;
      }
      if |queue| < QUEUE_DEPTH {
        queue := queue + [e];
      } else {
        ChargeDrop(e);
      }
    }

    /** `drop_sink_cb`: what the bridge lost is never the transcript's to report. */
    method SinkDrop(u: Uuid)
      requires Valid()
      modifies this`upstream, tapDropped
      ensures Valid() && Model() == Advance(old(Model()), LoseUpstream(u))
    {
      ghost var b := Model();
      upstream := LoseAll(b, u).upstream;
      var i := 0;
      while i < |taps|
        invariant i <= |taps| && Valid() && upstream == LoseAll(b, u).upstream
        invariant forall k | 0 <= k < |taps| ::
                    tapDropped[k] == b.dropped[k] + (if k < i && b.open[k] && Names(b.taps[k], u) then 1 else 0)
      {
        if tapOpen[i] && Names(taps[i], u) {
          tapDropped[i] := tapDropped[i] + 1;
        }
        i := i + 1;
      }
      assert tapDropped[..|taps|] == LoseAll(b, u).dropped;
    }

    /** One lost record, on one tap. */
    method ChargeOne(k: nat, e: Entry)
      requires Valid() && k < |taps|
      modifies this`transcriptDropped, this`lost, tapDropped
      ensures Valid() && Model() == Charge(old(Model()), k, e)
    {
      ghost var b := Model();
      transcriptDropped := transcriptDropped + 1;
      lost := Charge(b, k, e).lost;
      tapDropped[k] := tapDropped[k] + 1;
      assert tapDropped[..|taps|] == Charge(b, k, e).dropped;
    }

    method SendOne(k: nat, e: Entry, bytes: seq<Byte>)
      requires Valid() && k < |taps|
      modifies this`wire, this`sent
      ensures Valid() && Model() == Send(old(Model()), k, e, bytes)
    {
      wire := wire + [StreamChunkBatch(taps[k].id, [Record(e.rxUtcMs, bytes)])];
      sent := sent[k := sent[k] + [e]];
    }

    /** `k_msgq_get`. */
    method TakeEntry() returns (e: Entry)
      requires Valid() && queue != [] && hand.Idle?
      modifies this`queue, this`hand
      ensures Valid() && Model() == Advance(old(Model()), Take) && hand == Serving(e, 0)
    {
      e := queue[0];
      queue := queue[1..];
      hand := Serving(e, 0);
    }

    /** One turn of the fan-out loop: the raw value, if this tap named its characteristic. */
    method ServeNotifyTap(i: nat, e: Entry)
      requires Valid() && i < |taps| && hand == Serving(e, i)
      modifies this`hand, this`wire, this`sent, this`transcriptDropped, this`lost, tapDropped
      ensures Valid() && Model() == Advance(old(Model()), Serve) && hand == Serving(e, i + 1)
    {
      hide Charge, Send, EncEntry, Names;
      if IsData(e) && tapOpen[i] && Names(taps[i], e.characteristic.value) {
        if |e.payload| > MAX_CHUNK_BYTES {
          ChargeOne(i, e);
        } else {
          SendOne(i, e, e.payload);
        }
      }
      hand := Serving(e, i + 1);
    }

    /** The transcript's record, last. */
    method ServeTranscriptTap(e: Entry)
      requires Valid() && hand == Serving(e, |taps|)
      modifies this`hand, this`wire, this`sent, this`transcriptDropped, this`lost, tapDropped
      ensures Valid() && Model() == Advance(old(Model()), Serve) && hand.Idle?
    {
      hide Charge, Send, EncEntry;
      if transcriptTap >= 0 && tapOpen[transcriptTap] {
        SendRow(transcriptTap, e);
      }
      hand := Idle;
    }

    /** One pass of `transcript_tx_thread`, with an entry waiting. */
    method TransmitOne()
      requires Valid() && queue != [] && hand.Idle?
      modifies this`queue, this`hand, this`wire, this`sent, this`transcriptDropped, this`lost, tapDropped
      ensures Valid() && hand.Idle?
      ensures Model() == Interleaved(old(Model()), Turn(|taps| + 1))
    {
      hide Interleaved, Advance;
      ghost var b := Model();
      TurnStep(b, 0);
      var e := TakeEntry();
      var i := 0;
      while i < |taps|
        invariant i <= |taps| && Valid() && hand == Serving(e, i)
        invariant Model() == Interleaved(b, Turn(i))
      {
        TurnStep(b, i);
        ServeNotifyTap(i, e);
        i := i + 1;
      }
      TurnStep(b, i);
      ServeTranscriptTap(e);
    }

    /** The row's bytes, in a record if they fit one. */
    method SendRow(k: nat, e: Entry)
      requires Valid() && k < |taps|
      modifies this`wire, this`sent, this`transcriptDropped, this`lost, tapDropped
      ensures Valid()
      ensures Model() == if |EncEntry(e)| > MAX_CHUNK_BYTES then Charge(old(Model()), k, e)
                         else Send(old(Model()), k, e, EncEntry(e))
    {
      hide Charge, Send, EncEntry;
      var bytes := new Byte[MAX_CHUNK_BYTES];
      var n := EncodeEntry(e, bytes);
      if n < 0 {
        ChargeOne(k, e);
      } else {
        SendOne(k, e, bytes[..n]);
      }
    }
  }

  lemma WantedBySome(b: Bench, e: Entry)
    requires Shaped(b)
    ensures AnyoneWants(b, e) <==>
              (b.transcript.Some? && b.open[b.transcript.value])
              || exists k :: 0 <= k < |b.taps| && NotifyWants(b, k, e)
  {
    hide IsData, Names;
    if b.transcript.Some? && b.open[b.transcript.value] {
      assert Wants(b, b.transcript.value, e);
    }
    if k: nat :| k < |b.taps| && NotifyWants(b, k, e) {
      assert Wants(b, k, e);
    }
  }
}
