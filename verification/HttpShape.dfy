/** How the marks of a step fit the states before and after it. */
module HttpShape {
  import opened Wrappers
  import opened HttpTypes
  import opened HttpStep
  import opened HttpRun
  import opened HttpInvariant

  /** The span, other than a body, that is being read in state s. */
  function OpenSpan(s: State): Option<Span> {
    if UrlState(s) then Some(Url)
    else if s.ResStatus? then Some(Status)
    else if s.HeaderField? then Some(Field)
    else if s.HeaderValue? then Some(Value)
    else None
  }

  /** The states that deliver every byte as body. */
  predicate BodyState(s: State) { s.ChunkData? || s.BodyIdentity? || s.BodyIdentityEof? }

  /** The states in which a body mark may be set. */
  predicate BodyOpen(s: State) { BodyState(s) || s.ChunkDataAlmostDone? }

  predicate Tells(acts: seq<Act>) { forall i :: 0 <= i < |acts| ==> acts[i].Tell? }

  /** An empty span is delivered, and then only notifications follow. */
  predicate EmptyThenTells(acts: seq<Act>) {
    && 2 <= |acts| && acts[0].Mark? && acts[0].span != Body && acts[1] == Emit(acts[0].span) && Tells(acts[2..])
  }

  predicate Shaped(s: State, t: State, acts: seq<Act>) {
    if BodyState(s) then
      if BodyOpen(t) then acts == [Mark(Body)]
      else 2 <= |acts| && acts[0] == Mark(Body) && acts[1] == EmitThrough(Body) && Tells(acts[2..]) && OpenSpan(t).None?
    else if s.ChunkDataAlmostDone? then acts == [Emit(Body)] && OpenSpan(t).None? && !BodyOpen(t)
    else
      match (OpenSpan(s), OpenSpan(t))
      case (None, None) => (Tells(acts) || EmptyThenTells(acts)) && !t.ChunkDataAlmostDone?
      case (None, Some(k)) => acts == [Mark(k)] || (acts == [Mark(Value), Emit(Value), Mark(Field)] && k == Field)
      case (Some(k), Some(j)) => acts == [] && k == j
      case (Some(k), None) => acts == [Emit(k)] && !BodyOpen(t)
  }

  predicate ShapedStep(s: State, o: Outcome) {
    match o
    case Next(q, acts) => Shaped(s, q.state, acts)
    case Stop(q, acts) => Shaped(s, q.state, acts) && Outside(q.state) && !BodyState(q.state)
    case Fail(_) => true
    case Abort => true
  }

  /** A step between states in which nothing is being read, with notifications only. */
  predicate Quiet(s: State, o: Outcome) {
    match o
    case Next(q, acts) => Tells(acts) && Outside(q.state)
    case Stop(q, acts) => Tells(acts) && Outside(q.state) && !BodyState(q.state)
    case Fail(_) => true
    case Abort => true
  }

  predicate Outside(s: State) { OpenSpan(s).None? && !s.ChunkDataAlmostDone? }

  lemma QuietShaped(s: State, o: Outcome)
    requires Outside(s) && !BodyState(s) && Quiet(s, o)
    ensures ShapedStep(s, o)
  {
    hide OpenSpan;
  }

  // ----- Request and status line

  lemma ReqUrlShaped(p: Parser, ch: Byte)
    requires p.state.ReqSpacesBeforeUrl? || UrlState(p.state)
    ensures ShapedStep(p.state, ReqUrlStep(p, ch))
  {
    UrlOpen(p.state, ch);
    UrlOpen(ReqServerStart, ch);
    hide ParseUrlChar;
  }

  lemma UrlOpen(s: State, ch: Byte)
    ensures var t := ParseUrlChar(s, ch); !t.Dead? ==> OpenSpan(t) == Some(Url) && !t.ChunkDataAlmostDone?
  {
    ParseUrlCharStays(s, ch);
    hide ParseUrlChar;
  }

  lemma ReqLineQuiet(p: Parser, ch: Byte)
    requires ReqLineState(p.state) && Outside(p.state) && !p.state.ReqSpacesBeforeUrl?
    ensures Quiet(p.state, ReqLineStep(p, ch))
  {
    if ReqHttpState(p.state) {
      ReqHttpQuiet(p, ch);
    } else {
      ReqVersionQuiet(p, ch);
    }
    hide ReqUrlStep, ReqHttpStep, ReqVersionStep, Quiet;
  }

  lemma ReqHttpQuiet(p: Parser, ch: Byte)
    ensures Quiet(p.state, ReqHttpStep(p, ch))
  {
  }

  lemma ReqVersionQuiet(p: Parser, ch: Byte)
    ensures Quiet(p.state, ReqVersionStep(p, ch))
  {
  }

  lemma StatusShaped(p: Parser, ch: Byte)
    ensures Outside(p.state) && !BodyState(p.state) ==> ShapedStep(p.state, ResStatusStartStep(p, ch))
    ensures p.state.ResStatus? ==> ShapedStep(p.state, ResStatusStep(p, ch))
  {
  }

  lemma StatusCodeShaped(p: Parser, ch: Byte)
    requires p.state.ResFirstStatusCode? || p.state.ResStatusCode?
    ensures ShapedStep(p.state, StatusCodeStep(p, ch))
  {
    StatusShaped(p.(state := ResStatusStart), ch);
    hide ResStatusStartStep;
  }

  lemma ResLineQuiet(p: Parser, ch: Byte)
    requires ResLineState(p.state)
    requires !p.state.ResFirstStatusCode? && !p.state.ResStatusCode? && !p.state.ResStatusStart? && !p.state.ResStatus?
    ensures Quiet(p.state, ResLineStep(p, ch))
  {
    hide StatusCodeStep, ResStatusStartStep, ResStatusStep;
  }

  // ----- Headers

  lemma NewMessageOutside(p: Parser)
    ensures Outside(NewMessage(p).state) && !BodyState(NewMessage(p).state)
  {
    hide ShouldKeepAlive;
  }

  lemma HeadersDoneQuiet(p: Parser, s: State)
    ensures Quiet(s, HeadersDoneStep(p))
  {
    NewMessageOutside(p.(nread := 0));
    hide NewMessage, NeedsEof, HasBody;
  }

  lemma HeadersAlmostDoneQuiet(p: Parser, ch: Byte, s: State)
    ensures Quiet(s, HeadersAlmostDoneStep(p, ch))
  {
    HeadersDoneQuiet(p.(state := HeadersDone, upgrade :=
      if p.flags.upgrade && p.flags.connectionUpgrade then p.kind.Request? || p.statusCode == 101 else p.verb.CONNECT?),
        s);
    NewMessageOutside(p.(state := MessageDone));
    hide NewMessage, HeadersDoneStep, OpenSpan;
  }

  lemma HeaderFieldStartShaped(p: Parser, ch: Byte)
    requires Outside(p.state) && !BodyState(p.state)
    ensures var o := HeaderFieldStartStep(p, ch);
      || Quiet(p.state, o)
      || (o.Next? && o.p.state.HeaderField? && o.acts == [Mark(Field)])
  {
    HeadersAlmostDoneQuiet(p.(state := HeadersAlmostDone), ch, p.state);
    hide HeadersAlmostDoneStep, Token;
  }

  lemma HeaderValueStartShaped(p: Parser, ch: Byte, s: State)
    requires Outside(s) && !BodyState(s)
    ensures ShapedStep(s, HeaderValueStartStep(p, ch))
  {
    hide Lower, IsNum;
  }

  lemma DiscardLwsShaped(p: Parser, ch: Byte)
    requires p.state.HeaderValueDiscardLws?
    ensures ShapedStep(p.state, HeaderValueDiscardLwsStep(p, ch))
  {
    HeaderFieldStartShaped(Concluded(p).(state := HeaderFieldStart), ch);
    hide HeaderFieldStartStep, Concluded;
  }

  lemma ValueLwsShaped(p: Parser, ch: Byte)
    requires p.state.HeaderValueLws?
    ensures ShapedStep(p.state, HeaderValueLwsStep(p, ch))
  {
    HeaderFieldStartShaped(Concluded(p).(state := HeaderFieldStart), ch);
    HeaderValueStartShaped(p.(state := HeaderValueStart, headerState :=
      if p.headerState.ContentLengthNum? then ContentLengthWs else p.headerState), ch, p.state);
    hide HeaderFieldStartStep, HeaderValueStartStep, Concluded;
  }

  lemma HeaderFieldShaped(p: Parser, ch: Byte)
    requires p.state.HeaderField?
    ensures ShapedStep(p.state, HeaderFieldStep(p, ch))
  {
    hide Token, FieldByte;
  }

  lemma ValueByteKeeps(p: Parser, ch: Byte)
    ensures var r := ValueByte(p, ch); r.Kept? ==> r.p.state == p.state
  {
    hide ValueName, Listed;
  }

  lemma HeaderValueShaped(p: Parser, ch: Byte)
    requires p.state.HeaderValue?
    ensures ShapedStep(p.state, HeaderValueStep(p, ch))
  {
    ValueByteKeeps(p, ch);
    hide ValueByte, IsHeaderChar;
  }

  lemma HeaderShaped(p: Parser, ch: Byte)
    requires HeaderSwitch(p.state)
    ensures ShapedStep(p.state, HeaderStep(p, ch))
  {
    if p.state.HeaderFieldStart? {
      HeaderFieldStartShaped(p, ch);
    } else if p.state.HeaderField? {
      HeaderFieldShaped(p, ch);
    } else if p.state.HeaderValueDiscardWs? {
      HeaderValueStartShaped(p, ch, p.state);
    } else if p.state.HeaderValueDiscardLws? {
      DiscardLwsShaped(p, ch);
    } else if p.state.HeaderValueStart? {
      HeaderValueStartShaped(p, ch, p.state);
    } else if p.state.HeaderValue? {
      HeaderValueShaped(p, ch);
    } else if p.state.HeaderValueLws? {
      ValueLwsShaped(p, ch);
    } else if p.state.HeadersAlmostDone? {
      HeadersAlmostDoneQuiet(p, ch, p.state);
    }
    hide HeaderFieldStep, HeaderValueStep, HeaderFieldStartStep, HeaderValueLwsStep, HeaderValueDiscardLwsStep,
         HeaderValueStartStep, HeadersAlmostDoneStep;
  }

  // ----- The rest

  lemma ChunkQuiet(p: Parser, ch: Byte)
    requires ChunkState(p.state) && !p.state.ChunkSize? && !p.state.ChunkData? && !p.state.ChunkDataAlmostDone?
    ensures Quiet(p.state, ChunkStep(p, ch))
  {
    hide Unhex, ChunkSizeStep;
  }

  lemma ChunkShaped(p: Parser, ch: Byte)
    requires ChunkState(p.state)
    ensures ShapedStep(p.state, ChunkStep(p, ch))
  {
    if p.state.ChunkSize? {
      ChunkSizeQuiet(p, ch);
      QuietShaped(p.state, ChunkSizeStep(p, ch));
      hide ShapedStep, ChunkSizeStep;
      return;
    }
    if !p.state.ChunkData? && !p.state.ChunkDataAlmostDone? {
      ChunkQuiet(p, ch);
      QuietShaped(p.state, ChunkStep(p, ch));
      hide ShapedStep, ChunkStep;
      return;
    }
    hide Unhex, ChunkSizeStep, Quiet;
  }

  lemma ChunkSizeQuiet(p: Parser, ch: Byte)
    requires p.state.ChunkSize?
    ensures Quiet(p.state, ChunkSizeStep(p, ch))
  {
    hide Unhex;
  }

  lemma BodyShaped(p: Parser)
    requires p.state.BodyIdentity?
    ensures ShapedStep(p.state, BodyIdentityStep(p))
  {
    if p.contentLength == 1 {
      NewMessageOutside(p.(contentLength := 0, state := MessageDone));
    }
    hide NewMessage;
  }

  lemma StartQuiet(p: Parser, ch: Byte)
    requires Outside(p.state)
    ensures Quiet(p.state, StartReqStep(p, ch)) && Quiet(p.state, StartResStep(p, ch)) &&
      Quiet(p.state, StartReqOrResStep(p, ch))
    ensures p.state.ReqMethod? ==> Quiet(p.state, ReqMethodStep(p, ch))
  {
    hide IsAlpha, FirstMethod, OtherMethod, MethodString;
  }

  lemma LineShaped(p: Parser, ch: Byte)
    ensures ResLineState(p.state) ==> ShapedStep(p.state, ResLineStep(p, ch))
    ensures ReqLineState(p.state) ==> ShapedStep(p.state, ReqLineStep(p, ch))
  {
    if ResLineState(p.state) {
      if p.state.ResFirstStatusCode? || p.state.ResStatusCode? {
        StatusCodeShaped(p, ch);
      } else if p.state.ResStatusStart? || p.state.ResStatus? {
        StatusShaped(p, ch);
      } else {
        ResLineQuiet(p, ch);
        QuietShaped(p.state, ResLineStep(p, ch));
      }
    } else if ReqLineState(p.state) {
      if p.state.ReqSpacesBeforeUrl? || UrlState(p.state) {
        ReqUrlShaped(p, ch);
      } else {
        ReqLineQuiet(p, ch);
        QuietShaped(p.state, ReqLineStep(p, ch));
      }
    }
    hide ReqUrlStep, StatusCodeStep, ResStatusStep, ResStatusStartStep, Quiet, ShapedStep;
  }

  predicate Other(s: State) {
    && !ResLineState(s) && !ReqLineState(s) && !ChunkState(s) && !HeaderSwitch(s)
    && !s.BodyIdentity? && !s.BodyIdentityEof?
  }

  lemma OtherQuiet(p: Parser, ch: Byte)
    requires Other(p.state)
    ensures Quiet(p.state, Dispatch(p, ch))
  {
    if p.state.StartReqOrRes? || p.state.StartRes? || p.state.StartReq? || p.state.ReqMethod? {
      StartQuiet(p, ch);
    } else if p.state.MessageDone? {
      NewMessageOutside(p);
    } else {
      HeadersDoneQuiet(p, p.state);
    }
    hide HeadersDoneStep, StartReqStep, StartResStep, StartReqOrResStep, NewMessage, ReqMethodStep;
  }

  lemma DispatchCases(p: Parser, ch: Byte)
    ensures ChunkState(p.state) ==> Dispatch(p, ch) == ChunkStep(p, ch)
    ensures HeaderSwitch(p.state) ==> Dispatch(p, ch) == HeaderStep(p, ch)
    ensures ResLineState(p.state) ==> Dispatch(p, ch) == ResLineStep(p, ch)
    ensures ReqLineState(p.state) ==> Dispatch(p, ch) == ReqLineStep(p, ch)
    ensures p.state.BodyIdentity? ==> Dispatch(p, ch) == BodyIdentityStep(p)
    ensures p.state.BodyIdentityEof? ==> Dispatch(p, ch) == Next(p, [Mark(Body)])
  {
    hide HeaderStep, ChunkStep, BodyIdentityStep, ResLineStep, ReqLineStep;
  }

  lemma HeaderByte(p: Parser, ch: Byte)
    requires HeaderSwitch(p.state)
    ensures ByteStep(p, ch) ==
      if p.nread + 1 > p.maxHeaderSize then Fail(HeaderOverflow) else HeaderStep(p.(nread := p.nread + 1), ch)
  {
    HeadersAreParsed(p.state);
    DispatchCases(p.(nread := p.nread + 1), ch);
    hide Dispatch, HeaderStep, ParsingHeader, HeaderSwitch, ChunkState, ResLineState, ReqLineState;
  }

  lemma HeadersAreParsed(s: State)
    ensures HeaderSwitch(s) ==> ParsingHeader(s)
  {
  }

  lemma ChunkByte(p: Parser, ch: Byte)
    requires ChunkState(p.state) && ParsingHeader(p.state)
    ensures ByteStep(p, ch) ==
      if p.nread + 1 > p.maxHeaderSize then Fail(HeaderOverflow) else ChunkStep(p.(nread := p.nread + 1), ch)
  {
    DispatchCases(p.(nread := p.nread + 1), ch);
    hide Dispatch, ChunkStep, ParsingHeader, HeaderSwitch, ChunkState, ResLineState, ReqLineState;
  }

  /** The marks and callbacks of every step fit the states around it. */
  lemma StepShaped(p: Parser, ch: Byte)
    ensures ShapedStep(p.state, Dispatch(p, ch))
  {
    DispatchCases(p, ch);
    if Other(p.state) {
      OtherQuiet(p, ch);
      QuietShaped(p.state, Dispatch(p, ch));
    } else if ChunkState(p.state) {
      ChunkShaped(p, ch);
    } else if HeaderSwitch(p.state) {
      HeaderShaped(p, ch);
    } else if p.state.BodyIdentity? {
      BodyShaped(p);
    } else {
      LineShaped(p, ch);
    }
    hide Dispatch, HeaderStep, ChunkStep, BodyIdentityStep, ResLineStep, ReqLineStep, Quiet, ChunkState, HeaderSwitch,
         ReqLineState, ResLineState;
  }
}
