/**
 * A StudyStart as the host sends it, taps and manifests included, against what the bench decodes:
 * the fields it keeps, the studies it refuses, and what each of the three seals says.
 */
module StudyRoundTrip {
  import opened Bytes
  import opened Postcard
  import opened Manifest
  import opened ManifestRoundTrip
  import opened Messages
  import opened MessageRoundTrip
  import opened Crc
  import opened Spans
  import Eap

  datatype HostStudy = HostStudy(steps: seq<Step>, stepsCrc: U32, taps: seq<NamedTap>, tapsCrc: U32, level: U64,
                                 manifests: seq<Manifest>, manifestsCrc: U32)

  function EncManifests(h: HostStudy, rest: seq<Byte>): seq<Byte> {
    EncList(h.manifests, EncManifest, EncVarint(h.manifestsCrc, rest))
  }

  function EncTaps(h: HostStudy, rest: seq<Byte>): seq<Byte> {
    EncList(h.taps, EncTap, EncVarint(h.tapsCrc, EncVarint(h.level, EncManifests(h, rest))))
  }

  function EncHostStudy(h: HostStudy, rest: seq<Byte>): seq<Byte> {
    EncList(h.steps, EncStep, EncVarint(h.stepsCrc, EncTaps(h, rest)))
  }

  /** Every length in the study fits the varint that carries it. */
  predicate HostCountable(h: HostStudy) {
    && Countable(h.steps) && Countable(h.taps) && Countable(h.manifests)
    && (forall s | s in h.steps :: StepCountable(s))
    && (forall t | t in h.taps :: TapCountable(t))
    && (forall m | m in h.manifests :: ManifestCountable(m))
  }

  /** The capacities of the bench; a study beyond any of them is refused whole. */
  ghost predicate Accepted(h: HostStudy) {
    && |h.steps| <= MAX_STEPS && (forall s | s in h.steps :: StepFits(s))
    && |h.taps| <= MAX_STREAMS
    && |h.manifests| <= MAX_PROTOCOLS && All(WithinCaps, h.manifests)
    && |Span(h.manifests, EncManifest)| <= MAX_PROTOCOLS_WIRE_LEN
  }

  /** What the bench holds: each verdict is whether the carried CRC is that of the carried elements. */
  function Received(h: HostStudy): Study {
    Study(h.steps, h.stepsCrc, Checksum(Span(h.steps, EncStep)) == h.stepsCrc,
          Map(StripTap, h.taps), h.tapsCrc, Checksum(Span(h.taps, EncTap)) == h.tapsCrc,
          if h.level > LOG_LEVEL_DBG then LOG_LEVEL_DBG else h.level,
          Map(Strip, h.manifests), h.manifestsCrc, Checksum(Span(h.manifests, EncManifest)) == h.manifestsCrc,
          false)
  }

  lemma StepsPart(h: HostStudy, rest: seq<Byte>)
    requires HostCountable(h)
    ensures DecVarint(EncList(h.steps, EncStep, rest)) == Some((|h.steps|, EncEach(h.steps, EncStep, rest)))
    ensures DecSteps(|h.steps|, EncEach(h.steps, EncStep, rest))
            == if forall s | s in h.steps :: StepFits(s) then Some((Walked(h.steps, false), rest)) else None
    ensures Consumed(EncEach(h.steps, EncStep, rest), rest) == Span(h.steps, EncStep)
  {
    VarintRoundTrip(|h.steps|, EncEach(h.steps, EncStep, rest));
    StepsReadBack(h.steps, rest);
    forall s | s in h.steps { StepAppends(s); }
    SpanInFront(h.steps, EncStep, rest);
  }

  lemma StreamsPart(h: HostStudy, rest: seq<Byte>)
    requires HostCountable(h)
    ensures DecStreams(EncList(h.taps, EncTap, EncVarint(h.tapsCrc, rest)))
            == if |h.taps| > MAX_STREAMS then None
               else Some((Sealed(Map(StripTap, h.taps), h.tapsCrc, Checksum(Span(h.taps, EncTap)) == h.tapsCrc), rest))
  {
    hide EncVarint, DecVarint, EncTap, DecTap, StripTap, Checksum, EncEach, DecEach, TapCountable;
    var s2 := EncVarint(h.tapsCrc, rest);
    VarintRoundTrip(|h.taps|, EncEach(h.taps, EncTap, s2));
    forall t | t in h.taps { TapReadsBack(t); }
    EachRoundTrip(h.taps, EncTap, DecTap, StripTap, Always, s2);
    forall t | t in h.taps { TapAppends(t); }
    SpanInFront(h.taps, EncTap, s2);
    VarintRoundTrip(h.tapsCrc, rest);
  }

  lemma ProtocolsPart(h: HostStudy, rest: seq<Byte>)
    requires HostCountable(h)
    ensures DecProtocols(EncManifests(h, rest))
            == if |h.manifests| <= MAX_PROTOCOLS && All(WithinCaps, h.manifests)
                  && |Span(h.manifests, EncManifest)| <= MAX_PROTOCOLS_WIRE_LEN
               then Some((Sealed(Map(Strip, h.manifests), h.manifestsCrc,
                                 Checksum(Span(h.manifests, EncManifest)) == h.manifestsCrc), rest))
               else None
  {
    hide EncVarint, DecVarint, EncManifest, DecProtocol, Strip, Checksum, WithinCaps, ManifestCountable;
    var s2 := EncVarint(h.manifestsCrc, rest);
    VarintRoundTrip(|h.manifests|, EncEach(h.manifests, EncManifest, s2));
    forall m | m in h.manifests { ManifestReadsBack(m); }
    EachRoundTrip(h.manifests, EncManifest, DecProtocol, Strip, WithinCaps, s2);
    forall m | m in h.manifests { ManifestAppends(m); }
    SpanInFront(h.manifests, EncManifest, s2);
    VarintRoundTrip(h.manifestsCrc, rest);
  }

  /** Within the capacities the study arrives with its three verdicts; beyond any of them nothing does. */
  lemma StudyReadsBack(h: HostStudy, rest: seq<Byte>)
    requires HostCountable(h)
    ensures DecStudy(EncHostStudy(h, rest)) == if Accepted(h) then Some((Received(h), rest)) else None
  {
    hide EncVarint, DecVarint, EncStep, DecSteps, DecStreams, DecProtocols, Checksum, WithinCaps, StepFits, Consumed,
      EncManifests, HostCountable, EncEach, EncList, Map, All;
    var s4 := EncManifests(h, rest);
    var s3 := EncTaps(h, rest);
    StepsPart(h, EncVarint(h.stepsCrc, s3));
    VarintRoundTrip(h.stepsCrc, s3);
    StreamsPart(h, EncVarint(h.level, s4));
    VarintRoundTrip(h.level, s4);
    ProtocolsPart(h, rest);
  }

  /** An empty list's seal is zero, so a study without taps or manifests never fails on theirs. */
  lemma NothingSealed()
    ensures Checksum(Span<NamedTap>([], EncTap)) == 0
    ensures Checksum(Span<Manifest>([], EncManifest)) == 0
  {
    EmptySeal();
  }
}
