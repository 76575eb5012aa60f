/** What the parser knows when the first line of a message ends, on every run: nothing of the header yet. */
module HttpFirstLine {
  import opened Wrappers
  import opened HttpTypes
  import opened HttpStep
  import opened HttpRun
  import opened HttpInvariant
  import opened HttpShape
  import opened HttpCoding

  /** The states inside a request or status line. */
  predicate LineState(s: State) { s.ResOrRespH? || s.ReqMethod? || ReqLineState(s) || ResLineState(s) }

  /** No header has been seen. */
  predicate Untouched(p: Parser) { p.flags == NO_FLAGS && !p.usesTransferEncoding && p.contentLength == ABSENT }

  /** Whether it is a request or a response is known as soon as the first letters are. */
  predicate KindOk(k: Kind, s: State) {
    && (k.Both? ==> s.StartReqOrRes? || s.ResOrRespH?)
    && (s.StartReq? || s.ReqMethod? || ReqLineState(s) ==> k.Request?)
    && (s.StartRes? || ResLineState(s) ==> k.Response?)
  }

  predicate Started(p: Parser) {
    !p.allowChunkedLength && !p.flags.skipBody && KindOk(p.kind, p.state) && (LineState(p.state) ==> Untouched(p))
  }

  predicate Keeps(o: Outcome) { o.Next? || o.Stop? ==> Started(o.p) }

  // ----- Steps outside the first line

  /** The states that such a step may lead to. */
  predicate Later(k: Kind, s: State) {
    || HeaderSwitch(s) || ChunkState(s) || s.BodyIdentity? || s.BodyIdentityEof? || s.MessageDone? || s.HeadersDone?
    || s.Dead? || (s.StartReq? && k.Request?) || (s.StartRes? && k.Response?)
  }

  lemma LaterIs(k: Kind, s: State)
    requires Later(k, s) && !k.Both?
    ensures !LineState(s) && KindOk(k, s)
  {
    if HeaderSwitch(s) {
      HeaderNoLine(s);
      hide ChunkState, LineState, ReqLineState, ResLineState;
    } else if ChunkState(s) {
      ChunkNoLine(s);
      hide HeaderSwitch, LineState, ReqLineState, ResLineState;
    } else {
      hide HeaderSwitch, ChunkState;
    }
  }

  lemma HeaderNoLine(s: State)
    requires HeaderSwitch(s)
    ensures !LineState(s) && !ReqLineState(s) && !ResLineState(s) && !s.ReqMethod?
  {
  }

  lemma ChunkNoLine(s: State)
    requires ChunkState(s)
    ensures !LineState(s) && !ReqLineState(s) && !ResLineState(s) && !s.ReqMethod?
  {
  }

  predicate OnwardTo(p: Parser, q: Parser) {
    && q.kind == p.kind && q.allowChunkedLength == p.allowChunkedLength && q.flags.skipBody == p.flags.skipBody
    && Later(p.kind, q.state)
  }

  predicate Onward(p: Parser, o: Outcome) { o.Next? || o.Stop? ==> OnwardTo(p, o.p) }

  lemma OnwardKeeps(p: Parser, o: Outcome)
    requires Started(p) && !p.kind.Both? && Onward(p, o)
    ensures Keeps(o)
  {
    if o.Next? || o.Stop? {
      LaterIs(p.kind, o.p.state);
    }
    hide Untouched, KindOk, LineState, Later;
  }

  lemma NewMessageOnward(p: Parser)
    requires !p.kind.Both?
    ensures OnwardTo(p, NewMessage(p))
  {
    hide ShouldKeepAlive;
  }

  lemma EndOnward(p: Parser, ch: Byte)
    requires !p.kind.Both?
    ensures Onward(p, MessageDoneStep(p)) && Onward(p, HeadersDoneStep(p)) && Onward(p, HeadersAlmostDoneStep(p, ch))
  {
    MessageDoneOnward(p);
    HeadersDoneOnward(p);
    MessageDoneOnward(p.(state := MessageDone));
    var upgrade :=
      if p.flags.upgrade && p.flags.connectionUpgrade then p.kind.Request? || p.statusCode == 101 else p.verb.CONNECT?;
    HeadersDoneOnward(p.(state := HeadersDone, upgrade := upgrade));
    hide MessageDoneStep, HeadersDoneStep, Later;
  }

  lemma MessageDoneOnward(p: Parser)
    requires !p.kind.Both?
    ensures Onward(p, MessageDoneStep(p))
  {
    NewMessageOnward(p);
    hide NewMessage;
  }

  lemma HeadersDoneOnward(p: Parser)
    requires !p.kind.Both?
    ensures Onward(p, HeadersDoneStep(p))
  {
    NewMessageOnward(p.(nread := 0));
    hide NewMessage, HasBody, NeedsEof;
  }

  lemma ChunkOnward(p: Parser, ch: Byte)
    requires ChunkState(p.state)
    ensures Onward(p, ChunkStep(p, ch))
  {
    hide Unhex;
  }

  lemma BodyOnward(p: Parser)
    requires p.state.BodyIdentity? && !p.kind.Both?
    ensures Onward(p, BodyIdentityStep(p))
  {
    hide NewMessage;
    NewMessageOnward(p.(contentLength :=
      if p.contentLength == 0 then 0 else p.contentLength - 1, state := MessageDone));
  }

  lemma FieldOnward(p: Parser, ch: Byte)
    requires p.state.HeaderField?
    ensures Onward(p, HeaderFieldStep(p, ch))
  {
    hide Token, CharAt, FieldByte;
  }

  lemma FieldStartOnward(p: Parser, ch: Byte)
    requires !p.kind.Both?
    ensures Onward(p, HeaderFieldStartStep(p, ch))
  {
    EndOnward(p.(state := HeadersAlmostDone), ch);
    hide HeadersAlmostDoneStep, Token, FieldStartState;
  }

  lemma ValueStartOnward(p: Parser, ch: Byte)
    ensures Onward(p, HeaderValueStartStep(p, ch))
  {
    hide Lower, ValueStartState;
  }

  lemma ListedSkip(flags: Flags, h: HeaderState)
    ensures Listed(flags, h).skipBody == flags.skipBody
  {
  }

  lemma ConcludedOnward(p: Parser)
    ensures var q := Concluded(p);
      && q.kind == p.kind && q.allowChunkedLength == p.allowChunkedLength
      && q.flags.skipBody == p.flags.skipBody && q.state == p.state
  {
    ListedSkip(p.flags, p.headerState);
    hide Listed;
  }

  lemma ValueByteOnward(p: Parser, ch: Byte)
    requires ValueByte(p, ch).Kept?
    ensures var q := ValueByte(p, ch).p;
      && q.kind == p.kind && q.allowChunkedLength == p.allowChunkedLength && q.flags.skipBody == p.flags.skipBody
      && q.state == p.state
  {
    ListedSkip(p.flags, p.headerState);
    hide ValueName, Listed;
  }

  lemma ValueOnward(p: Parser, ch: Byte)
    requires p.state.HeaderValue?
    ensures Onward(p, HeaderValueStep(p, ch))
  {
    if ValueByte(p, ch).Kept? {
      ValueByteOnward(p, ch);
    }
    hide ValueByte, IsHeaderChar;
  }

  lemma LwsOnward(p: Parser, ch: Byte)
    requires !p.kind.Both?
    ensures Onward(p, HeaderValueLwsStep(p, ch))
  {
    ConcludedOnward(p);
    FieldStartOnward(Concluded(p).(state := HeaderFieldStart), ch);
    ValueStartOnward(p.(state := HeaderValueStart,
                        headerState := if p.headerState.ContentLengthNum? then ContentLengthWs else p.headerState), ch);
    hide HeaderFieldStartStep, HeaderValueStartStep, Concluded, Later;
  }

  lemma DiscardWsOnward(p: Parser, ch: Byte)
    requires HeaderSwitch(p.state)
    ensures Onward(p, HeaderValueDiscardWsStep(p, ch))
  {
    ValueStartOnward(p, ch);
    assert Later(p.kind, p.state) && Later(p.kind, HeaderValueDiscardWsAlmostDone) &&
      Later(p.kind, HeaderValueDiscardLws);
    hide HeaderValueStartStep, Later, HeaderSwitch;
  }

  lemma DiscardLwsOnward(p: Parser, ch: Byte)
    requires !p.kind.Both?
    ensures Onward(p, HeaderValueDiscardLwsStep(p, ch))
  {
    ConcludedOnward(p);
    FieldStartOnward(Concluded(p).(state := HeaderFieldStart), ch);
    assert Later(p.kind, HeaderValueDiscardWs);
    hide HeaderFieldStartStep, Concluded, Later;
  }

  lemma ExpectOnward(p: Parser, ok: bool)
    ensures Onward(p, Expect(p, ok, HeaderValueDiscardLws, Strict))
    ensures Onward(p, Expect(p, ok, HeaderValueLws, LfExpected))
  {
  }

  lemma HeaderOnward(p: Parser, ch: Byte)
    requires HeaderSwitch(p.state) && !p.kind.Both?
    ensures Onward(p, HeaderStep(p, ch))
  {
    hide HeadersAlmostDoneStep, HeaderFieldStartStep, HeaderValueStartStep, HeaderFieldStep, HeaderValueStep,
      HeaderValueDiscardWsStep, HeaderValueLwsStep, HeaderValueDiscardLwsStep, Onward, Expect, HeaderSwitch,
      MessageDoneStep, HeadersDoneStep, Concluded;
    ExpectOnward(p, ch == LF);
    EndOnward(p, ch);
    FieldStartOnward(p, ch);
    LwsOnward(p, ch);
    DiscardWsOnward(p, ch);
    DiscardLwsOnward(p, ch);
    ValueStartOnward(p, ch);
    if p.state.HeaderField? {
      FieldOnward(p, ch);
    } else if p.state.HeaderValue? {
      ValueOnward(p, ch);
    }
  }

  // ----- Steps of the first line

  /** What the step of a request or status line may change. */
  predicate SameHead(p: Parser, q: Parser) {
    && q.kind == p.kind && q.allowChunkedLength == p.allowChunkedLength && q.flags == p.flags
    && q.usesTransferEncoding == p.usesTransferEncoding && q.contentLength == p.contentLength
  }

  /** The states of the line, and the one behind it. */
  predicate Within(k: Kind, s: State) {
    s.HeaderFieldStart? || (if k.Request? then ReqLineState(s) || s.ReqMethod? else ResLineState(s))
  }

  predicate StaysIn(p: Parser, o: Outcome) {
    o.Next? || o.Stop? ==> SameHead(p, o.p) && Within(p.kind, o.p.state)
  }

  lemma StaysKeeps(p: Parser, o: Outcome)
    requires Started(p) && LineState(p.state) && !p.kind.Both? && StaysIn(p, o)
    ensures Keeps(o)
  {
    if o.Next? || o.Stop? {
      WithinKind(p.kind, o.p.state);
      SameUntouched(p, o.p);
    }
    hide Untouched, KindOk, LineState, Within;
  }

  lemma WithinKind(k: Kind, s: State)
    requires !k.Both? && Within(k, s)
    ensures KindOk(k, s)
  {
    LinesApart(s);
  }

  lemma SameUntouched(p: Parser, q: Parser)
    requires SameHead(p, q)
    ensures Untouched(p) == Untouched(q)
  {
  }

  lemma LinesApart(s: State)
    ensures !(ReqLineState(s) && ResLineState(s)) && !(s.ReqMethod? && (ReqLineState(s) || ResLineState(s)))
  {
  }

  lemma UrlStays(k: Kind, s: State, ch: Byte)
    ensures k.Request? && !ParseUrlChar(s, ch).Dead? ==> Within(k, ParseUrlChar(s, ch))
  {
    ParseUrlCharStays(s, ch);
    hide ParseUrlChar, UrlState;
  }

  lemma ReqUrlStays(p: Parser, ch: Byte)
    requires (p.state.ReqSpacesBeforeUrl? || UrlState(p.state)) && p.kind.Request?
    ensures StaysIn(p, ReqUrlStep(p, ch))
  {
    UrlStays(p.kind, p.state, ch);
    UrlStays(p.kind, ReqServerStart, ch);
    assert Within(p.kind, ReqHttpStart) && Within(p.kind, ReqLineAlmostDone) && Within(p.kind, ReqSpacesBeforeUrl);
    hide ParseUrlChar, UrlState, Within;
  }

  lemma ReqHttpStays(p: Parser, ch: Byte)
    requires p.kind.Request?
    ensures StaysIn(p, ReqHttpStep(p, ch))
  {
  }

  lemma ReqVersionStays(p: Parser, ch: Byte)
    requires p.kind.Request?
    ensures StaysIn(p, ReqVersionStep(p, ch))
  {
  }

  lemma ReqLineStays(p: Parser, ch: Byte)
    requires ReqLineState(p.state) && p.kind.Request?
    ensures StaysIn(p, ReqLineStep(p, ch))
  {
    if p.state.ReqSpacesBeforeUrl? || UrlState(p.state) {
      ReqUrlStays(p, ch);
    } else {
      ReqHttpStays(p, ch);
      ReqVersionStays(p, ch);
    }
    hide ReqUrlStep, ReqHttpStep, ReqVersionStep, StaysIn;
  }

  lemma ReqMethodStays(p: Parser, ch: Byte)
    requires p.state.ReqMethod? && p.kind.Request?
    ensures StaysIn(p, ReqMethodStep(p, ch))
  {
    hide OtherMethod, MethodString, CharAt;
  }

  lemma StatusStays(p: Parser, ch: Byte)
    requires p.kind.Response?
    ensures StaysIn(p, ResStatusStartStep(p, ch))
    ensures p.state.ResStatus? ==> StaysIn(p, ResStatusStep(p, ch))
  {
  }

  lemma StatusCodeStays(p: Parser, ch: Byte)
    requires p.kind.Response? && (p.state.ResFirstStatusCode? || p.state.ResStatusCode?)
    ensures StaysIn(p, StatusCodeStep(p, ch))
  {
    StatusStays(p.(state := ResStatusStart), ch);
    hide ResStatusStartStep;
  }

  lemma ResLineStays(p: Parser, ch: Byte)
    requires ResLineState(p.state) && p.kind.Response?
    ensures StaysIn(p, ResLineStep(p, ch))
  {
    StatusStays(p, ch);
    if p.state.ResFirstStatusCode? || p.state.ResStatusCode? {
      StatusCodeStays(p, ch);
    }
    hide StatusCodeStep, ResStatusStartStep, ResStatusStep;
  }

  // ----- The beginning of a message

  lemma BeginKeeps(p: Parser, ch: Byte)
    requires Started(p)
    ensures p.state.StartReq? ==> Keeps(StartReqStep(p, ch))
    ensures p.state.StartRes? ==> Keeps(StartResStep(p, ch))
    ensures p.state.StartReqOrRes? ==> Keeps(StartReqOrResStep(p, ch))
  {
    hide FirstMethod, IsAlpha;
  }

  lemma LetterKeeps(p: Parser, ch: Byte)
    requires Started(p) && p.state.ResOrRespH?
    ensures Keeps(To(p.(kind := Response), ResHT))
    ensures Keeps(To(p.(kind := Request, verb := HEAD, index := 2), ReqMethod))
  {
  }

  // ----- Whole runs

  lemma LineKeeps(p: Parser, ch: Byte)
    requires Started(p) && (ResLineState(p.state) || ReqLineState(p.state) || p.state.ReqMethod?)
    ensures ResLineState(p.state) ==> Keeps(ResLineStep(p, ch))
    ensures ReqLineState(p.state) ==> Keeps(ReqLineStep(p, ch))
    ensures p.state.ReqMethod? ==> Keeps(ReqMethodStep(p, ch))
  {
    if ResLineState(p.state) {
      ResLineStays(p, ch);
      StaysKeeps(p, ResLineStep(p, ch));
    }
    if ReqLineState(p.state) {
      ReqLineStays(p, ch);
      StaysKeeps(p, ReqLineStep(p, ch));
    }
    if p.state.ReqMethod? {
      ReqMethodStays(p, ch);
      StaysKeeps(p, ReqMethodStep(p, ch));
    }
    hide ResLineStep, ReqLineStep, ReqMethodStep, Keeps, StaysIn, Untouched, ResLineState, ReqLineState;
  }

  lemma RestKeeps(p: Parser, ch: Byte)
    requires Started(p) && (ChunkState(p.state) || HeaderSwitch(p.state) || p.state.BodyIdentity?)
    ensures ChunkState(p.state) ==> Keeps(ChunkStep(p, ch))
    ensures HeaderSwitch(p.state) ==> Keeps(HeaderStep(p, ch))
    ensures p.state.BodyIdentity? ==> Keeps(BodyIdentityStep(p))
  {
    if ChunkState(p.state) {
      ChunkOnward(p, ch);
      OnwardKeeps(p, ChunkStep(p, ch));
    }
    if HeaderSwitch(p.state) {
      HeaderOnward(p, ch);
      OnwardKeeps(p, HeaderStep(p, ch));
    }
    if p.state.BodyIdentity? {
      BodyOnward(p);
      OnwardKeeps(p, BodyIdentityStep(p));
    }
    hide ChunkStep, HeaderStep, BodyIdentityStep, Keeps, Onward, Untouched, LineState, ChunkState, HeaderSwitch;
  }

  lemma OtherKeeps(p: Parser, ch: Byte)
    requires Started(p) && !ResLineState(p.state) && !ReqLineState(p.state) && !ChunkState(p.state)
    requires !HeaderSwitch(p.state) && !p.state.BodyIdentity? && !p.state.ReqMethod?
    ensures Keeps(Dispatch(p, ch))
  {
    BeginKeeps(p, ch);
    if p.state.ResOrRespH? {
      LetterKeeps(p, ch);
    }
    if !p.state.StartReqOrRes? && !p.state.ResOrRespH? {
      EndOnward(p, ch);
      OnwardKeeps(p, MessageDoneStep(p));
      OnwardKeeps(p, HeadersDoneStep(p));
    }
    StayKeeps(p);
    hide Keeps, Onward, Started, HeaderStep, ReqLineStep, ResLineStep, ChunkStep, BodyIdentityStep, ReqMethodStep,
      HeadersDoneStep, MessageDoneStep, StartReqStep, StartResStep, StartReqOrResStep, To, UrlState;
  }

  lemma StayKeeps(p: Parser)
    requires Started(p)
    ensures Keeps(Next(p, [])) && Keeps(Next(p, [Mark(Body)])) && forall e: Failure :: Keeps(Fail(e))
    ensures !p.state.StartReqOrRes? && !p.state.ResOrRespH? ==> !p.kind.Both?
  {
    hide Untouched, LineState;
  }

  lemma DispatchKeeps(p: Parser, ch: Byte)
    requires Started(p)
    ensures Keeps(Dispatch(p, ch))
  {
    hide Keeps, Started;
    if ResLineState(p.state) || ReqLineState(p.state) || p.state.ReqMethod? {
      LineKeeps(p, ch);
    } else if ChunkState(p.state) || HeaderSwitch(p.state) || p.state.BodyIdentity? {
      RestKeeps(p, ch);
    } else {
      OtherKeeps(p, ch);
    }
    hide HeaderStep, ReqLineStep, ResLineStep, ChunkStep, BodyIdentityStep, ReqMethodStep, HeadersDoneStep,
      MessageDoneStep, StartReqStep, StartResStep, StartReqOrResStep;
  }

  /** From http_parser_init on, whatever the input. */
  lemma {:induction false} RunStarted(p: Parser, data: seq<Byte>)
    requires Started(p)
    ensures Run(p, data).More? || Run(p, data).Stopped? ==> Started(Run(p, data).p)
    decreases |data|
  {
    hide Dispatch, Started;
    if data != [] {
      var q := if ParsingHeader(p.state) then p.(nread := p.nread + 1) else p;
      StartedCounting(p);
      DispatchKeeps(q, data[0]);
      var step := ByteStep(p, data[0]);
      if step.Next? {
        RunStarted(step.p, data[1..]);
      }
    }
  }

  lemma StartedCounting(p: Parser)
    requires Started(p)
    ensures Started(p.(nread := p.nread + 1))
  {
    hide LineState, KindOk;
  }

  lemma InitStarted(kind: Kind, maxHeaderSize: nat)
    ensures Started(Init(kind, maxHeaderSize))
  {
  }
}
