/**
 * The three seals of a StudyStart as they lie in the received bytes, and what damage inside one of
 * the sealed spans does to each of them.
 */
module Seals {
  import opened Bytes
  import opened Postcard
  import opened Manifest
  import opened Messages
  import opened Crc
  import opened Walks
  import opened Spans
  import opened StudyRoundTrip
  import opened MessageRoundTrip
  import opened ManifestRoundTrip

  /** A sealed span `[from, to)` and the CRC field `[to, end)` behind it. */
  datatype Seal = Seal(from: nat, to: nat, end: nat) {
    predicate Within(s: seq<Byte>) {
      from <= to < end <= |s|
    }
  }

  /** Where each list's walk began and stopped, and where its CRC stopped. */
  datatype Layout = Layout(steps: Seal, streams: Seal, protocols: Seal)

  predicate Decoded(s: seq<Byte>) {
    DecStudy(s).Some? && !DecStudy(s).value.0.unsupported
  }

  function Offset(s: seq<Byte>, rest: seq<Byte>): nat {
    if |rest| <= |s| then |s| - |rest| else 0
  }

  function SealFrom(s: seq<Byte>, s1: seq<Byte>, s2: seq<Byte>): Seal {
    Seal(Offset(s, s1), Offset(s, s2), if DecVarint(s2).Some? then Offset(s, DecVarint(s2).value.1) else 0)
  }

  function StreamsSeal(s: seq<Byte>, s3: seq<Byte>): Seal
    requires DecStreams(s3).Some?
  {
    var (n, t1) := DecVarint(s3).value;
    SealFrom(s, t1, DecEach(n, DecTap, t1).value.1)
  }

  function ProtocolsSeal(s: seq<Byte>, s5: seq<Byte>): Seal
    requires DecProtocols(s5).Some?
  {
    var (n, p1) := DecVarint(s5).value;
    SealFrom(s, p1, DecEach(n, DecProtocol, p1).value.1)
  }

  /** The walk the decoder made over a study it accepted. */
  function LayoutOf(s: seq<Byte>): Layout
    requires Decoded(s)
  {
    hide DecStreams, DecProtocols, DecVarint, DecSteps, Consumed, Checksum;
    var (n, s1) := DecVarint(s).value;
    var (_, s2) := DecSteps(n, s1).value;
    var (_, s3) := DecVarint(s2).value;
    var (_, s4) := DecStreams(s3).value;
    var (_, s5) := DecVarint(s4).value;
    Layout(SealFrom(s, s1, s2), StreamsSeal(s, s3), ProtocolsSeal(s, s5))
  }

  /** Whether the CRC field behind the span is the CRC of the span. */
  predicate Good(s: seq<Byte>, seal: Seal) {
    && seal.Within(s)
    && DecVarint(s[seal.to..]).Some?
    && Checksum(s[seal.from..seal.to]) == DecVarint(s[seal.to..]).value.0 % TWO_32
  }

  /** A CRC field that reads as a number and ends where the walk says. */
  predicate Readable(s: seq<Byte>, seal: Seal) {
    && seal.Within(s)
    && DecVarint(s[seal.to..]).Some?
    && seal.end == |s| - |DecVarint(s[seal.to..]).value.1|
  }

  lemma SealLies(s: seq<Byte>, s1: seq<Byte>, s2: seq<Byte>)
    requires IsSuffix(s1, s) && IsSuffix(s2, s1) && DecVarint(s2).Some?
    ensures var seal := SealFrom(s, s1, s2);
            && Readable(s, seal)
            && seal.end == Offset(s, DecVarint(s2).value.1)
            && s[seal.from..seal.to] == Consumed(s1, s2)
            && (Good(s, seal) <==> Checksum(Consumed(s1, s2)) == DecVarint(s2).value.0 % TWO_32)
  {
    hide DecVarint, Checksum;
    var seal := SealFrom(s, s1, s2);
    assert s[seal.to..] == s2;
    assert s[seal.from..seal.to] == Consumed(s1, s2);
  }

  /** The three spans lie one after another, and the verdicts are the three seals'. */
  lemma StudyWalk(s: seq<Byte>)
    requires Decoded(s)
    ensures var l, study := LayoutOf(s), DecStudy(s).value.0;
            && Readable(s, l.steps) && Readable(s, l.streams) && Readable(s, l.protocols)
            && l.steps.end <= l.streams.from && l.streams.end <= l.protocols.from
            && study.stepsCrcValid == Good(s, l.steps)
            && study.streamsCrcValid == Good(s, l.streams)
            && study.protocolsCrcValid == Good(s, l.protocols)
  {
    hide IsSuffix, DecVarint, DecSteps, DecStreams, DecProtocols, StreamsSeal, ProtocolsSeal, Checksum, Consumed,
      Good, Readable;
    SuffixesCompose();
    var (n, s1) := DecVarint(s).value;
    StepsShrink(n, s1);
    var (_, s2) := DecSteps(n, s1).value;
    SealLies(s, s1, s2);
    var (_, s3) := DecVarint(s2).value;
    StreamsWalk(s, s3);
    var (_, s4) := DecStreams(s3).value;
    var (_, s5) := DecVarint(s4).value;
    InOrder(s, s4, s5);
    ProtocolsWalk(s, s5);
  }

  lemma StreamsWalk(s: seq<Byte>, s3: seq<Byte>)
    requires IsSuffix(s3, s) && DecStreams(s3).Some?
    ensures var seal, (streams, rest) := StreamsSeal(s, s3), DecStreams(s3).value;
            && Readable(s, seal) && Offset(s, s3) <= seal.from && seal.end == Offset(s, rest) && IsSuffix(rest, s)
            && streams.valid == Good(s, seal)
  {
    hide IsSuffix, DecVarint, DecEach, DecTap, Checksum, Consumed, Good, Readable;
    SuffixesCompose();
    var (n, t1) := DecVarint(s3).value;
    TapShrinks();
    EachIsSuffix(n, DecTap, t1);
    SealLies(s, t1, DecEach(n, DecTap, t1).value.1);
    InOrder(s, s3, t1);
  }

  lemma ProtocolsWalk(s: seq<Byte>, s5: seq<Byte>)
    requires IsSuffix(s5, s) && DecProtocols(s5).Some?
    ensures var seal := ProtocolsSeal(s, s5);
            && Readable(s, seal) && Offset(s, s5) <= seal.from
            && DecProtocols(s5).value.0.valid == Good(s, seal)
  {
    hide IsSuffix, DecVarint, DecEach, DecProtocol, Checksum, Consumed, Good, Readable;
    SuffixesCompose();
    var (n, p1) := DecVarint(s5).value;
    ProtocolShrinks();
    EachIsSuffix(n, DecProtocol, p1);
    SealLies(s, p1, DecEach(n, DecProtocol, p1).value.1);
    InOrder(s, s5, p1);
  }

  lemma InOrder(s: seq<Byte>, a: seq<Byte>, b: seq<Byte>)
    requires IsSuffix(a, s) && IsSuffix(b, a)
    ensures Offset(s, a) <= Offset(s, b) <= |s| && |b| <= |a| <= |s|
  {
  }

  // ---- Locality ---------------------------------------------------------------------------------

  lemma {:induction false} GroupsLocal(a: seq<Byte>, b: seq<Byte>, k: nat, n: nat)
    requires Groups(a, k).Some? && n == |a| - |Groups(a, k).value.1|
    requires n <= |b| && a[..n] == b[..n]
    ensures Groups(b, k) == Some((Groups(a, k).value.0, b[n..]))
    decreases k
  {
    assert a[0] == a[..n][0] == b[..n][0] == b[0];
    if a[0] >= 0x80 {
      assert a[1..][..n - 1] == a[..n][1..] == b[..n][1..] == b[1..][..n - 1];
      GroupsLocal(a[1..], b[1..], k - 1, n - 1);
      assert b[1..][n - 1..] == b[n..];
    }
  }

  lemma SpanParts(s: seq<Byte>, seal: Seal, m: nat, n: nat)
    requires seal.Within(s) && m == seal.to - seal.from && n == seal.end - seal.to
    ensures s[seal.from..seal.to] == s[seal.from..seal.end][..m]
    ensures s[seal.to..][..n] == s[seal.from..seal.end][m..]
  {
    var all, front, back := s[seal.from..seal.end], s[seal.from..seal.to], s[seal.to..][..n];
    assert |front| == m && |back| == n && |all| == m + n;
    assert forall j | 0 <= j < m :: front[j] == s[seal.from + j] == all[j];
    assert forall j | 0 <= j < n :: back[j] == s[seal.to + j] == all[m + j] == all[m..][j];
    assert front == all[..m];
    assert back == all[m..];
  }

  /** A seal whose span and field read the same gives the same verdict. */
  lemma Untouched(s: seq<Byte>, t: seq<Byte>, seal: Seal)
    requires Readable(s, seal) && Readable(t, seal)
    requires s[seal.from..seal.end] == t[seal.from..seal.end]
    ensures Good(s, seal) == Good(t, seal)
  {
    hide Checksum, Groups;
    var n, m := seal.end - seal.to, seal.to - seal.from;
    SpanParts(s, seal, m, n);
    SpanParts(t, seal, m, n);
    FieldLocal(s[seal.to..], t[seal.to..], n);
  }

  lemma FieldLocal(a: seq<Byte>, b: seq<Byte>, n: nat)
    requires DecVarint(a).Some? && n == |a| - |DecVarint(a).value.1|
    requires n <= |b| && a[..n] == b[..n]
    ensures DecVarint(b).Some? && DecVarint(a).value.0 == DecVarint(b).value.0
  {
    hide Groups;
    GroupsLocal(a, b, MAX_VARINT_BYTES, n);
  }

  /** `s` and `t` differ, and only within `[at, at + width)`. */
  predicate DamagedAt(s: seq<Byte>, t: seq<Byte>, at: nat, width: nat) {
    && |s| == |t| && at + width <= |s| && s != t
    && s[..at] == t[..at] && s[at + width..] == t[at + width..]
  }

  lemma SliceOfTail(s: seq<Byte>, e: nat, from: nat, to: nat)
    requires e <= from <= to <= |s|
    ensures s[from..to] == s[e..][from - e..to - e]
  {
    var part := s[e..][from - e..to - e];
    assert |part| == to - from;
    assert forall j | 0 <= j < to - from :: part[j] == s[e..][from - e + j] == s[from + j];
  }

  lemma Elsewhere(s: seq<Byte>, t: seq<Byte>, at: nat, width: nat, from: nat, to: nat)
    requires DamagedAt(s, t, at, width)
    requires from <= to <= at || at + width <= from <= to <= |s|
    ensures s[from..to] == t[from..to]
  {
    if to <= at {
      assert s[from..to] == s[..at][from..to] && t[from..to] == t[..at][from..to];
    } else {
      var e := at + width;
      SliceOfTail(s, e, from, to);
      SliceOfTail(t, e, from, to);
    }
  }

  lemma Rejoined(s: seq<Byte>, at: nat, end: nat)
    requires at <= end <= |s|
    ensures s == s[..at] + s[at..end] + s[end..]
  {
  }

  /** A burst of up to four bytes inside the span turns a good seal bad. */
  lemma BurstBreaks(s: seq<Byte>, t: seq<Byte>, at: nat, width: nat, seal: Seal)
    requires DamagedAt(s, t, at, width) && width <= 4
    requires seal.from <= at && at + width <= seal.to
    requires Readable(s, seal) && Readable(t, seal)
    ensures !(Good(s, seal) && Good(t, seal))
  {
    hide Checksum, DecVarint;
    var e := at + width;
    var a, b := s[at..e], t[at..e];
    Rejoined(s, at, e);
    Rejoined(t, at, e);
    Elsewhere(s, t, at, width, seal.from, at);
    Elsewhere(s, t, at, width, e, seal.to);
    BurstDetected(s[seal.from..at], a, b, s[e..seal.to]);
    assert s[seal.from..seal.to] == s[seal.from..at] + a + s[e..seal.to];
    assert t[seal.from..seal.to] == s[seal.from..at] + b + s[e..seal.to];
    Elsewhere(s, t, at, width, seal.to, seal.end);
    var n := seal.end - seal.to;
    assert s[seal.to..][..n] == s[seal.to..seal.end] && t[seal.to..][..n] == t[seal.to..seal.end];
    FieldLocal(s[seal.to..], t[seal.to..], n);
  }

  lemma OtherSeal(s: seq<Byte>, t: seq<Byte>, at: nat, width: nat, seal: Seal)
    requires DamagedAt(s, t, at, width)
    requires seal.end <= at || at + width <= seal.from
    requires Readable(s, seal) && Readable(t, seal)
    ensures Good(s, seal) == Good(t, seal)
  {
    Elsewhere(s, t, at, width, seal.from, seal.end);
    Untouched(s, t, seal);
  }

  /**
   * Damage to the steps that leaves the walk where it was is caught by the steps' seal, which was
   * good before, and by no other. Likewise for the two other lists.
   */
  lemma SealsAreIndependent(s: seq<Byte>, t: seq<Byte>, at: nat, width: nat)
    requires Decoded(s) && Decoded(t) && LayoutOf(s) == LayoutOf(t)
    requires DamagedAt(s, t, at, width) && width <= 4
    ensures var l, a, b := LayoutOf(s), DecStudy(s).value.0, DecStudy(t).value.0;
            && (l.steps.from <= at && at + width <= l.steps.to ==>
                  && !(a.stepsCrcValid && b.stepsCrcValid)
                  && a.streamsCrcValid == b.streamsCrcValid && a.protocolsCrcValid == b.protocolsCrcValid)
            && (l.streams.from <= at && at + width <= l.streams.to ==>
                  && !(a.streamsCrcValid && b.streamsCrcValid)
                  && a.stepsCrcValid == b.stepsCrcValid && a.protocolsCrcValid == b.protocolsCrcValid)
            && (l.protocols.from <= at && at + width <= l.protocols.to ==>
                  && !(a.protocolsCrcValid && b.protocolsCrcValid)
                  && a.stepsCrcValid == b.stepsCrcValid && a.streamsCrcValid == b.streamsCrcValid)
  {
    hide LayoutOf, DecStudy, DamagedAt, Readable, Good;
    var l := LayoutOf(s);
    StudyWalk(s);
    StudyWalk(t);
    WithinOrder(s, l.steps);
    WithinOrder(s, l.streams);
    WithinOrder(s, l.protocols);
    if l.steps.from <= at && at + width <= l.steps.to {
      BurstBreaks(s, t, at, width, l.steps);
      OtherSeal(s, t, at, width, l.streams);
      OtherSeal(s, t, at, width, l.protocols);
    } else if l.streams.from <= at && at + width <= l.streams.to {
      OtherSeal(s, t, at, width, l.steps);
      BurstBreaks(s, t, at, width, l.streams);
      OtherSeal(s, t, at, width, l.protocols);
    } else if l.protocols.from <= at && at + width <= l.protocols.to {
      OtherSeal(s, t, at, width, l.steps);
      OtherSeal(s, t, at, width, l.streams);
      BurstBreaks(s, t, at, width, l.protocols);
    }
  }

  lemma WithinOrder(s: seq<Byte>, seal: Seal)
    requires Readable(s, seal)
    ensures seal.from <= seal.to < seal.end
  {
  }

  // ---- The layout of what the host sends ------------------------------------------------------------

  lemma HostStreamsSpan(s: seq<Byte>, h: HostStudy, rest: seq<Byte>)
    requires HostCountable(h) && |h.taps| <= MAX_STREAMS
    requires IsSuffix(EncList(h.taps, EncTap, EncVarint(h.tapsCrc, rest)), s)
    ensures var s3 := EncList(h.taps, EncTap, EncVarint(h.tapsCrc, rest));
            && DecStreams(s3).Some?
            && var seal := StreamsSeal(s, s3); seal.Within(s) && s[seal.from..seal.to] == Span(h.taps, EncTap)
  {
    hide EncVarint, DecVarint, EncTap, DecTap, StripTap, Checksum, IsSuffix, Consumed, Good;
    var t2 := EncVarint(h.tapsCrc, rest);
    var s3 := EncList(h.taps, EncTap, t2);
    var t1 := EncEach(h.taps, EncTap, t2);
    VarintRoundTrip(|h.taps|, t1);
    forall t | t in h.taps { TapReadsBack(t); }
    EachRoundTrip(h.taps, EncTap, DecTap, StripTap, Always, t2);
    forall t | t in h.taps { TapAppends(t); }
    SpanInFront(h.taps, EncTap, t2);
    VarintRoundTrip(h.tapsCrc, rest);
    SuffixesCompose();
    TapShrinks();
    EachIsSuffix(|h.taps|, DecTap, t1);
    SealLies(s, t1, t2);
  }

  lemma HostProtocolsSpan(s: seq<Byte>, h: HostStudy, rest: seq<Byte>)
    requires HostCountable(h) && Accepted(h)
    requires IsSuffix(EncManifests(h, rest), s)
    ensures var s5 := EncManifests(h, rest);
            && DecProtocols(s5).Some?
            && var seal := ProtocolsSeal(s, s5);
               seal.Within(s) && s[seal.from..seal.to] == Span(h.manifests, EncManifest)
  {
    hide EncVarint, DecVarint, EncManifest, DecProtocol, Strip, Checksum, IsSuffix, Consumed, Good, WithinCaps,
      ManifestCountable;
    var p2 := EncVarint(h.manifestsCrc, rest);
    var p1 := EncEach(h.manifests, EncManifest, p2);
    ProtocolsPart(h, rest);
    VarintRoundTrip(|h.manifests|, p1);
    forall m | m in h.manifests { ManifestReadsBack(m); }
    EachRoundTrip(h.manifests, EncManifest, DecProtocol, Strip, WithinCaps, p2);
    forall m | m in h.manifests { ManifestAppends(m); }
    SpanInFront(h.manifests, EncManifest, p2);
    VarintRoundTrip(h.manifestsCrc, rest);
    SuffixesCompose();
    ProtocolShrinks();
    EachIsSuffix(|h.manifests|, DecProtocol, p1);
    SealLies(s, p1, p2);
  }

  /** In a study as the host encodes it the three sealed spans are the bytes of its three lists. */
  lemma SpansAreTheLists(h: HostStudy)
    requires HostCountable(h) && Accepted(h)
    ensures var s := EncHostStudy(h, []);
            && Decoded(s)
            && var l := LayoutOf(s);
               && l.steps.Within(s) && s[l.steps.from..l.steps.to] == Span(h.steps, EncStep)
               && l.streams.Within(s) && s[l.streams.from..l.streams.to] == Span(h.taps, EncTap)
               && l.protocols.Within(s) && s[l.protocols.from..l.protocols.to] == Span(h.manifests, EncManifest)
  {
    hide EncVarint, DecVarint, EncStep, DecSteps, DecStreams, DecProtocols, Checksum, WithinCaps, StepFits, Consumed,
      EncManifests, HostCountable, EncEach, EncList, Map, All, IsSuffix, StreamsSeal, ProtocolsSeal, DecStudy, Good;
    var s := EncHostStudy(h, []);
    StudyReadsBack(h, []);
    var s5 := EncManifests(h, []);
    var s4 := EncVarint(h.level, s5);
    var s3 := EncTaps(h, []);
    var s2 := EncVarint(h.stepsCrc, s3);
    var s1 := EncEach(h.steps, EncStep, s2);
    StepsPart(h, s2);
    VarintRoundTrip(h.stepsCrc, s3);
    StreamsPart(h, s4);
    VarintRoundTrip(h.level, s5);
    SuffixesCompose();
    StepsShrink(|h.steps|, s1);
    SealLies(s, s1, s2);
    HostStreamsSpan(s, h, s4);
    StreamsWalk(s, s3);
    HostProtocolsSpan(s, h, []);
  }
}
