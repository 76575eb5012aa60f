/** The counter of header bytes: no step raises it by more than the byte at hand. */
module HttpCounter {
  import opened Wrappers
  import opened HttpTypes
  import opened HttpStep
  import opened HttpRun

  /** The step itself does not raise the counter. */
  predicate Steady(n: nat, o: Outcome) { o.Next? || o.Stop? ==> o.p.nread <= n }

  lemma StatusLineSteady(p: Parser, ch: Byte)
    ensures Steady(p.nread, ResLineStep(p, ch))
  {
    hide StatusCodeStep, ResStatusStartStep, ResStatusStep;
    StatusSteady(p, ch);
  }

  lemma RequestLineSteady(p: Parser, ch: Byte)
    ensures Steady(p.nread, ReqLineStep(p, ch)) && Steady(p.nread, ReqMethodStep(p, ch))
  {
    hide ReqUrlStep, OtherMethod, MethodString, UrlState;
    UrlSteady(p, ch);
  }

  lemma UrlSteady(p: Parser, ch: Byte)
    ensures Steady(p.nread, ReqUrlStep(p, ch))
  {
    hide ParseUrlChar;
  }

  lemma StatusSteady(p: Parser, ch: Byte)
    ensures Steady(p.nread, StatusCodeStep(p, ch)) && Steady(p.nread, ResStatusStartStep(p, ch))
    ensures Steady(p.nread, ResStatusStep(p, ch))
  {
  }

  lemma BeginSteady(p: Parser, ch: Byte)
    ensures Steady(p.nread, StartReqStep(p, ch)) && Steady(p.nread, StartResStep(p, ch))
    ensures Steady(p.nread, StartReqOrResStep(p, ch))
  {
    hide FirstMethod, IsAlpha;
  }

  lemma EndSteady(p: Parser, ch: Byte)
    ensures Steady(p.nread, MessageDoneStep(p)) && Steady(p.nread, HeadersDoneStep(p))
    ensures Steady(p.nread, HeadersAlmostDoneStep(p, ch)) && Steady(p.nread, BodyIdentityStep(p))
  {
    hide ShouldKeepAlive, NeedsEof, HasBody;
  }

  lemma ChunkSteady(p: Parser, ch: Byte)
    ensures Steady(p.nread, ChunkStep(p, ch))
  {
    hide Unhex;
  }

  lemma FieldSteady(p: Parser, ch: Byte)
    ensures Steady(p.nread, HeaderFieldStep(p, ch)) && Steady(p.nread, HeaderFieldStartStep(p, ch))
  {
    hide Token, FieldByte, FieldStartState, HeadersAlmostDoneStep;
    EndSteady(p.(state := HeadersAlmostDone), ch);
  }

  lemma ValueSteady(p: Parser, ch: Byte)
    ensures Steady(p.nread, HeaderValueStep(p, ch)) && Steady(p.nread, HeaderValueStartStep(p, ch))
  {
    hide ValueName, Listed, Lower, ValueStartState, IsHeaderChar;
  }

  lemma BetweenSteady(p: Parser, ch: Byte)
    ensures Steady(p.nread, HeaderValueLwsStep(p, ch)) && Steady(p.nread, HeaderValueDiscardLwsStep(p, ch))
    ensures Steady(p.nread, HeaderValueDiscardWsStep(p, ch))
  {
    hide Listed, HeaderFieldStartStep, HeaderValueStartStep;
    ValueSteady(p.(state := HeaderValueStart,
                   headerState := if p.headerState.ContentLengthNum? then ContentLengthWs else p.headerState), ch);
    ValueSteady(p, ch);
    FieldSteady(Concluded(p).(state := HeaderFieldStart), ch);
  }

  lemma HeaderSteady(p: Parser, ch: Byte)
    ensures Steady(p.nread, HeaderStep(p, ch))
  {
    hide HeaderFieldStartStep, HeaderFieldStep, HeaderValueStep, HeaderValueStartStep, HeaderValueLwsStep,
      HeaderValueDiscardLwsStep, HeaderValueDiscardWsStep, HeadersAlmostDoneStep;
    FieldSteady(p, ch);
    ValueSteady(p, ch);
    BetweenSteady(p, ch);
    EndSteady(p, ch);
  }

  lemma DispatchSteady(p: Parser, ch: Byte)
    ensures Steady(p.nread, Dispatch(p, ch))
  {
    hide ResLineStep, ReqLineStep, ReqMethodStep, StartReqStep, StartResStep, StartReqOrResStep, MessageDoneStep,
      HeadersDoneStep, HeadersAlmostDoneStep, BodyIdentityStep, ChunkStep, HeaderStep, HeaderSwitch, ReqLineState,
      ResLineState, ChunkState;
    StatusLineSteady(p, ch);
    RequestLineSteady(p, ch);
    BeginSteady(p, ch);
    EndSteady(p, ch);
    ChunkSteady(p, ch);
    HeaderSteady(p, ch);
  }

  /** A run counts every byte once at most. */
  lemma {:induction false} RunCounts(p: Parser, data: seq<Byte>)
    ensures Run(p, data).More? ==> Run(p, data).p.nread <= p.nread + |data|
    decreases |data|
  {
    hide Dispatch, ParsingHeader;
    if data != [] {
      DispatchSteady(p, data[0]);
      DispatchSteady(p.(nread := p.nread + 1), data[0]);
      var step := ByteStep(p, data[0]);
      if step.Next? {
        RunCounts(step.p, data[1..]);
      }
    }
  }
}
