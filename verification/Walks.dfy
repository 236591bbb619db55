/** Every parser consumes from the front: what it leaves is a suffix of what it was given. */
module Walks {
  import opened Bytes
  import opened Postcard
  import opened Manifest
  import opened Messages
  import Eap

  lemma SuffixesCompose()
    ensures forall a: seq<Byte>, b: seq<Byte>, c: seq<Byte> :: IsSuffix(a, b) && IsSuffix(b, c) ==> IsSuffix(a, c)
    ensures forall s: seq<Byte> :: IsSuffix(s, s)
  {
    forall a: seq<Byte>, b: seq<Byte>, c: seq<Byte> | IsSuffix(a, b) && IsSuffix(b, c)
      ensures IsSuffix(a, c)
    {
      SuffixOfSuffix(a, b, c);
    }
  }

  lemma ListShrinks<T(!new)>(cap: nat, dec: seq<Byte> -> Parse<T>)
    requires Shrinks(dec)
    ensures forall s :: DecList(cap, dec, s).Some? ==> IsSuffix(DecList(cap, dec, s).value.1, s)
  {
    forall s | DecList(cap, dec, s).Some?
      ensures IsSuffix(DecList(cap, dec, s).value.1, s)
    {
      var (n, rest) := DecVarint(s).value;
      EachIsSuffix(n, dec, rest);
      SuffixOfSuffix(DecEach(n, dec, rest).value.1, rest, s);
    }
  }

  lemma OptionShrinks<T(!new)>(dec: seq<Byte> -> Parse<T>)
    requires Shrinks(dec)
    ensures forall s :: DecOption(dec, s).Some? ==> IsSuffix(DecOption(dec, s).value.1, s)
  {
    forall s | DecOption(dec, s).Some?
      ensures IsSuffix(DecOption(dec, s).value.1, s)
    {
      if DecFlag(s).value.0 {
        SuffixOfSuffix(dec(s[1..]).value.1, s[1..], s);
      }
    }
  }

  // ---- Steps --------------------------------------------------------------------------------

  lemma TargetShrinks()
    ensures Shrinks(DecTarget)
  {
    hide IsSuffix;
    SuffixesCompose();
  }

  lemma PeerShrinks()
    ensures Shrinks(DecPeer)
  {
    hide DecVarint;
    SuffixesCompose();
  }

  lemma OperationShrinks()
    ensures Shrinks(DecOperation)
  {
    hide IsSuffix, DecVarint, DecString;
    SuffixesCompose();
  }

  lemma ActionShrinks(tag: nat, s: seq<Byte>)
    ensures DecAction(tag, s).Some? ==> IsSuffix(DecAction(tag, s).value.1, s)
  {
    hide IsSuffix, DecVarint, DecSkip, DecByte, DecOption, DecTarget, DecOperation, DecPeer, DecLocalName, DecList;
    SuffixesCompose();
    TargetShrinks();
    OperationShrinks();
    PeerShrinks();
    OptionShrinks(DecPeer);
    LocalNameShrinks();
    OptionShrinks(DecLocalName);
    ListShrinks(MAX_MONITOR_TARGETS, DecTarget);
  }

  lemma LocalNameShrinks()
    ensures Shrinks(DecLocalName)
  {
  }

  lemma StepShrinks()
    ensures Shrinks(DecStep)
  {
    hide IsSuffix, DecVarint, DecString, DecFlag, DecAction;
    SuffixesCompose();
    forall s | DecStep(s).Some?
      ensures IsSuffix(DecStep(s).value.1, s)
    {
      var (_, s1) := DecString(s, MAX_NAME_LEN).value;
      var (tag, s2) := DecVarint(s1).value;
      ActionShrinks(tag, s2);
    }
  }

  lemma {:induction false} StepsShrink(n: nat, s: seq<Byte>)
    ensures DecSteps(n, s).Some? ==> IsSuffix(DecSteps(n, s).value.1, s)
    decreases n
  {
    hide IsSuffix, DecStep;
    SuffixesCompose();
    StepShrinks();
    if n > 0 && DecStep(s).Some? && DecStep(s).value.0.Some? {
      StepsShrink(n - 1, DecStep(s).value.1);
    }
  }

  // ---- Taps -----------------------------------------------------------------------------------

  lemma TapShrinks()
    ensures Shrinks(DecTap)
  {
    hide IsSuffix, DecVarint, DecSkip, DecByte, DecTapSource, DecTapEncoding;
    SuffixesCompose();
    TapSourceShrinks();
    TapEncodingShrinks();
  }

  lemma TapSourceShrinks()
    ensures Shrinks(DecTapSource)
  {
    hide IsSuffix, DecVarint, DecSkip, DecTarget;
    SuffixesCompose();
    TargetShrinks();
  }

  lemma TapEncodingShrinks()
    ensures Shrinks(DecTapEncoding)
  {
    hide IsSuffix, DecVarint, DecByte;
    SuffixesCompose();
  }

  // ---- Manifests --------------------------------------------------------------------------------

  lemma OperandShrinks()
    ensures Shrinks(DecOperand)
  {
    hide IsSuffix, DecVarint, DecByte, DecSigned;
    SuffixesCompose();
  }

  lemma RememberShrinks()
    ensures Shrinks(DecRemember)
  {
    hide IsSuffix, DecVarint, DecByte, DecOperand;
    SuffixesCompose();
    OperandShrinks();
  }

  lemma GuardShrinks()
    ensures Shrinks(DecGuard)
  {
    hide IsSuffix, DecVarint, DecByte, DecOperand;
    SuffixesCompose();
    OperandShrinks();
  }

  lemma ArmShrinks()
    ensures Shrinks(DecArm)
  {
    hide IsSuffix, DecByte, DecList, DecOption, DecRemember, DecGuard;
    SuffixesCompose();
    RememberShrinks();
    ListShrinks(Eap.MAX_REMEMBERS, DecRemember);
    GuardShrinks();
    ListShrinks(Eap.MAX_GUARDS, DecGuard);
    OptionShrinks(DecByte);
  }

  lemma WriteShrinks()
    ensures Shrinks(DecWrite)
  {
    hide IsSuffix, DecByte, DecFlag, DecList, DecWriteField;
    SuffixesCompose();
    WriteFieldShrinks();
    ListShrinks(Eap.MAX_WRITE_FIELDS, DecWriteField);
  }

  lemma WriteFieldShrinks()
    ensures Shrinks(DecWriteField)
  {
    hide IsSuffix, DecVarint, DecOperand;
    SuffixesCompose();
    OperandShrinks();
  }

  lemma TimeoutShrinks()
    ensures Shrinks(DecTimeout)
  {
    hide IsSuffix, DecVarint, DecByte;
    SuffixesCompose();
  }

  lemma ActiveShrinks()
    ensures Shrinks(DecActive)
  {
    hide IsSuffix, DecOption, DecList, DecWrite, DecArm, DecTimeout;
    SuffixesCompose();
    WriteShrinks();
    OptionShrinks(DecWrite);
    ArmShrinks();
    ListShrinks(Eap.MAX_EVENT_ARMS, DecArm);
    TimeoutShrinks();
    OptionShrinks(DecTimeout);
  }

  lemma StateShrinks()
    ensures Shrinks(DecState)
  {
    hide IsSuffix, DecString, DecVarint, DecActive;
    SuffixesCompose();
    ActiveShrinks();
  }

  lemma FieldShrinks()
    ensures Shrinks(DecField)
  {
    hide IsSuffix, DecSkip, DecVarint;
    SuffixesCompose();
  }

  lemma SpanShrinks()
    ensures Shrinks(DecSpan)
  {
    hide IsSuffix, DecSkip, DecVarint, DecOption, DecLength;
    SuffixesCompose();
    LengthShrinks();
    OptionShrinks(DecLength);
  }

  lemma LengthShrinks()
    ensures Shrinks(DecLength)
  {
    hide IsSuffix, DecVarint;
  }

  lemma SelectShrinks()
    ensures Shrinks(DecSelect)
  {
    hide IsSuffix, DecString, DecVarint;
    SuffixesCompose();
  }

  lemma FrameShrinks()
    ensures Shrinks(DecFrame)
  {
    hide IsSuffix, DecSkip, DecByte, DecOption, DecSelect, DecList, DecField, DecSpan;
    SuffixesCompose();
    SelectShrinks();
    OptionShrinks(DecSelect);
    FieldShrinks();
    ListShrinks(Eap.MAX_FRAME_FIELDS, DecField);
    SpanShrinks();
    ListShrinks(Eap.MAX_FRAME_SPANS, DecSpan);
  }

  lemma SourceShrinks()
    ensures Shrinks(DecSource)
  {
    hide IsSuffix, DecSkip;
    SuffixesCompose();
  }

  lemma VarShrinks()
    ensures Shrinks(DecVar)
  {
    hide IsSuffix, DecSkip, DecSigned;
    SuffixesCompose();
  }

  lemma ProtocolShrinks()
    ensures Shrinks(DecProtocol)
  {
    hide IsSuffix, DecSkip, DecList, DecSource, DecFrame, DecVar, DecState;
    SuffixesCompose();
    SourceShrinks();
    ListShrinks(Eap.MAX_SOURCES, DecSource);
    FrameShrinks();
    ListShrinks(Eap.MAX_FRAMES, DecFrame);
    VarShrinks();
    ListShrinks(Eap.MAX_SESSION_VARS, DecVar);
    StateShrinks();
    ListShrinks(Eap.MAX_STATES, DecState);
  }
}
