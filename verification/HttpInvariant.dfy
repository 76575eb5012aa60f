/** What holds of the parser between any two bytes, whatever the input: no assertion of the C code can fail. */
module HttpInvariant {
  import opened HttpTypes
  import opened HttpStep
  import opened HttpRun

  // The largest lengths that pass the two overflow guards.
  const MAX_CONTENT_LENGTH: nat := 0xFFFF_FFFF_FFFF_FFF9
  const MAX_CHUNK_SIZE: nat := 0xFFFF_FFFF_FFFF_FFEF

  /** The index stays inside the name that is being matched, so that the 5-bit field cannot wrap around. */
  function IndexBound(h: HeaderState): nat {
    if h.C? || h.MatchingTransferEncodingTokenStart? || h.MatchingConnectionTokenStart? then 1
    else if h.CO? then 2
    else if h.CON? then 3
    else if h.MatchingConnectionClose? then 4
    else if h.MatchingUpgrade? || h.MatchingConnectionUpgrade? || h.MatchingTransferEncodingChunked? then 6
    else if h.MatchingConnection? || h.MatchingConnectionKeepAlive? then 9
    else if h.MatchingContentLength? then 13
    else if h.MatchingProxyConnection? then 15
    else if h.MatchingTransferEncoding? then 16
    else 32
  }

  predicate FieldHeaderState(h: HeaderState) {
    || h.General? || h.C? || h.CO? || h.CON? || h.MatchingConnection? || h.MatchingProxyConnection?
    || h.MatchingContentLength? || h.MatchingTransferEncoding? || h.MatchingUpgrade?
    || h.Connection? || h.ContentLength? || h.TransferEncoding? || h.Upgrade?
  }

  predicate ValueHeaderState(h: HeaderState) {
    !h.Connection? && !h.TransferEncoding? && !h.ContentLength? && !h.Upgrade?
  }

  /** A length is either absent or really smaller than the value that means absent. */
  predicate LengthOk(p: Parser) {
    && (p.contentLength == ABSENT || p.contentLength <= MAX_CONTENT_LENGTH)
    && (p.flags.contentLength ==> p.contentLength != ABSENT)
    && p.maxHeaderSize < WORD
  }

  /** The states that say something about the other fields. */
  predicate Bound(s: State) {
    s.ReqMethod? || s.HeaderField? || s.HeaderValue? || ChunkState(s) || s.BodyIdentity? || Passing(s)
  }

  /** The states that the code leaves again before it looks at the next byte. */
  predicate Passing(s: State) { s.HeaderValueStart? || s.HeadersDone? || s.MessageDone? }

  predicate StateOk(p: Parser) {
    && (p.state.ReqMethod? ==> p.index <= |MethodString(p.verb)|)
    && (p.state.HeaderField? ==> FieldHeaderState(p.headerState) && p.index < IndexBound(p.headerState))
    && (p.state.HeaderValue? ==> ValueHeaderState(p.headerState) && p.index < IndexBound(p.headerState))
    && (ChunkState(p.state) ==> p.flags.chunked)
    && (p.state.ChunkSizeStart? ==> p.nread == 0)
    && (p.state.ChunkSize? || p.state.ChunkParameters? || p.state.ChunkSizeAlmostDone? ==> p.contentLength != ABSENT)
    && (p.state.ChunkData? || p.state.BodyIdentity? ==> 0 < p.contentLength && p.contentLength != ABSENT)
    && (p.state.ChunkDataAlmostDone? ==> p.contentLength == 0)
    && !Passing(p.state)
  }

  predicate Sane(p: Parser) { LengthOk(p) && StateOk(p) && p.index < 32 }

  /** Sane, after this byte has been counted. */
  predicate Counted(p: Parser) {
    && LengthOk(p) && p.index < 32
    && StateOk(if p.state.ChunkSizeStart? then p.(nread := 0) else p) && (p.state.ChunkSizeStart? ==> p.nread == 1)
  }

  /** The step does not abort and leaves a sane parser. */
  predicate Safe(o: Outcome) {
    match o
    case Next(q, _) => Sane(q)
    case Stop(q, _) => Sane(q)
    case Fail(_) => true
    case Abort => false
  }

  /** The step goes to a state that binds no field, and keeps the fields that matter. */
  predicate Free(p: Parser, o: Outcome) {
    match o
    case Next(q, _) => FreeMove(p, q)
    case Stop(q, _) => FreeMove(p, q)
    case Fail(_) => true
    case Abort => false
  }

  predicate FreeMove(p: Parser, q: Parser) {
    && !Bound(q.state) && q.flags.contentLength == p.flags.contentLength && q.contentLength == p.contentLength
    && q.index <= p.index && q.maxHeaderSize == p.maxHeaderSize
  }

  lemma FreeSafe(p: Parser, o: Outcome)
    requires LengthOk(p) && p.index < 32 && Free(p, o)
    ensures Safe(o)
  {
    hide MethodString, IndexBound;
  }

  lemma MoveFree(p: Parser)
    ensures forall s: State :: !Bound(s) ==> Free(p, To(p, s))
    ensures forall ok: bool, s: State, e: Failure :: !Bound(s) ==> Free(p, Expect(p, ok, s, e))
  {
    hide Bound;
  }

  lemma MoveSafe(p: Parser)
    requires LengthOk(p) && p.index < 32
    ensures forall s: State :: !Bound(s) ==> Safe(To(p, s))
    ensures forall ok: bool, s: State, e: Failure :: !Bound(s) ==> Safe(Expect(p, ok, s, e))
  {
    MoveFree(p);
    forall s: State | !Bound(s) ensures Safe(To(p, s)) {
      FreeSafe(p, To(p, s));
    }
    hide Bound, Free, To, Sane, LengthOk;
  }

  lemma InitSane(kind: Kind, maxHeaderSize: nat)
    requires maxHeaderSize < WORD
    ensures Sane(Init(kind, maxHeaderSize))
  {
  }

  // ----- Start of a message

  lemma FreshSane(p: Parser, s: State)
    requires !Bound(s) && p.index < 32 && p.maxHeaderSize < WORD
    ensures Sane(Fresh(p).(state := s))
  {
    hide MethodString, IndexBound;
  }

  lemma StartReqSafe(p: Parser, ch: Byte)
    requires LengthOk(p) && p.index < 32 && p.state.StartReq?
    ensures Safe(StartReqStep(p, ch))
  {
    hide Lower, IsAlpha;
    MethodStrings();
  }

  lemma MethodStrings()
    ensures forall m :: 3 <= |MethodString(m)| <= 11
  {
  }

  lemma StartSafe(p: Parser, ch: Byte)
    requires LengthOk(p) && p.index < 32 && !Bound(p.state)
    ensures Safe(StartResStep(p, ch)) && Safe(StartReqOrResStep(p, ch))
  {
    StartReqSafe(Fresh(p).(kind := Request, state := StartReq), ch);
    FreshSane(p, ResH);
    FreshSane(p, ResOrRespH);
    FreeSafe(p, Next(p, []));
    hide LengthOk, Fresh, StartReqStep, Sane, FreeMove, Bound;
  }

  lemma MethodSane(p: Parser, index: nat, verb: Method)
    requires LengthOk(p) && p.state.ReqMethod? && index <= |MethodString(verb)|
    ensures Sane(p.(index := index, verb := verb))
  {
    MethodStrings();
    hide MethodString, IndexBound, LengthOk;
    assert LengthOk(p.(index := index, verb := verb)) by {
      LengthOkKept(p, p.(index := index, verb := verb));
    }
  }

  lemma LengthOkKept(p: Parser, q: Parser)
    requires LengthOk(p)
    requires q.contentLength == p.contentLength && q.flags == p.flags && q.maxHeaderSize == p.maxHeaderSize
    ensures LengthOk(q)
  {
  }

  lemma MethodSafe(p: Parser, ch: Byte)
    requires Counted(p) && p.state.ReqMethod?
    ensures Safe(ReqMethodStep(p, ch))
  {
    MethodStrings();
    var m := OtherMethod(p.verb, p.index, ch);
    var i := Inc(p.index);
    if m.Some? {
      OtherMethodLength(p.verb, p.index, ch);
      MethodSane(p, i, m.value);
    }
    if p.index < |MethodString(p.verb)| {
      MethodSane(p, i, p.verb);
    }
    FreeSafe(p.(index := i), To(p.(index := i), ReqSpacesBeforeUrl));
    hide MethodString, OtherMethod, Sane, FreeMove;
  }

  lemma OtherMethodLength(m: Method, index: nat, ch: Byte)
    requires OtherMethod(m, index, ch).Some?
    ensures index < |MethodString(OtherMethod(m, index, ch).value)|
  {
    if index <= 2 {
      MethodsLong(OtherMethod(m, index, ch).value);
      hide MethodString;
    }
  }

  lemma MethodsLong(m: Method)
    ensures 2 < |MethodString(m)|
  {
  }

  // ----- Request and status line

  lemma ParseUrlCharStays(s: State, ch: Byte)
    ensures ParseUrlChar(s, ch).Dead? || UrlState(ParseUrlChar(s, ch))
  {
    hide IsAlpha, IsUserinfoChar, IsUrlChar;
  }

  lemma ReqUrlFree(p: Parser, ch: Byte)
    requires p.state.ReqSpacesBeforeUrl? || UrlState(p.state)
    ensures Free(p, ReqUrlStep(p, ch))
  {
    UrlUnbound(p.state, ch);
    UrlUnbound(ReqServerStart, ch);
    hide ParseUrlChar, UrlState;
  }

  lemma UrlUnbound(s: State, ch: Byte)
    ensures !ParseUrlChar(s, ch).Dead? ==> !Bound(ParseUrlChar(s, ch))
  {
    ParseUrlCharStays(s, ch);
    hide ParseUrlChar;
  }

  lemma ReqLineFree(p: Parser, ch: Byte)
    requires ReqLineState(p.state)
    ensures Free(p, ReqLineStep(p, ch))
  {
    if p.state.ReqSpacesBeforeUrl? || UrlState(p.state) {
      ReqUrlFree(p, ch);
      hide Free, ReqUrlStep;
      return;
    }
    ReqHttpFree(p, ch);
    ReqVersionFree(p, ch);
    hide Free, ReqUrlStep, ReqHttpStep, ReqVersionStep;
  }

  lemma ReqHttpFree(p: Parser, ch: Byte)
    ensures Free(p, ReqHttpStep(p, ch))
  {
    MoveFree(p);
    hide To, Expect;
  }

  lemma ReqVersionFree(p: Parser, ch: Byte)
    ensures Free(p, ReqVersionStep(p, ch))
  {
  }

  lemma StatusFree(p: Parser, ch: Byte)
    ensures Free(p, ResStatusStartStep(p, ch))
    ensures p.state.ResStatus? ==> Free(p, ResStatusStep(p, ch))
  {
  }

  lemma StatusCodeFree(p: Parser, ch: Byte)
    requires p.state.ResFirstStatusCode? || p.state.ResStatusCode?
    ensures Free(p, StatusCodeStep(p, ch))
  {
    StatusFree(p.(state := ResStatusStart), ch);
    hide ResStatusStartStep;
  }

  lemma ResLineFree(p: Parser, ch: Byte)
    requires ResLineState(p.state)
    ensures Free(p, ResLineStep(p, ch))
  {
    if p.state.ResFirstStatusCode? || p.state.ResStatusCode? {
      StatusCodeFree(p, ch);
    } else if p.state.ResStatusStart? || p.state.ResStatus? {
      StatusFree(p, ch);
    }
    hide StatusCodeStep, ResStatusStartStep, ResStatusStep, ResLineState, ReqLineState, HeaderSwitch;
  }

  // ----- Header fields

  lemma MatchNameSafe(m: Match, name: string, c: Byte, whole: HeaderState, otherwise: HeaderState)
    requires 2 <= |name| <= 17 && m.index < |name| - 1
    ensures var n := MatchName(m, name, c, whole, otherwise);
      n.index < 32 && (n.state == otherwise || n.state == whole || (n.state == m.state && n.index < |name| - 1))
  {
    hide CharAt;
  }

  lemma FieldByteSafe(m: Match, c: Byte, ch: Byte)
    requires FieldHeaderState(m.state) && m.index < IndexBound(m.state)
    ensures var n := FieldByte(m, c, ch);
      n.Some? && FieldHeaderState(n.value.state) && n.value.index < IndexBound(n.value.state)
  {
    if m.state.General? || m.state.C? || m.state.CO? || m.state.CON? {
      hide MatchName, CharAt;
    } else {
      ComparingSafe(m, c, ch);
      hide FieldByte, FieldHeaderState, IndexBound;
    }
  }

  lemma ComparingSafe(m: Match, c: Byte, ch: Byte)
    requires FieldHeaderState(m.state) && m.index < IndexBound(m.state)
    requires !m.state.General? && !m.state.C? && !m.state.CO? && !m.state.CON?
    ensures var n := FieldByte(m, c, ch);
      n.Some? && FieldHeaderState(n.value.state) && n.value.index < IndexBound(n.value.state)
  {
    if m.state.MatchingConnection? {
      MatchNameSafe(m, "connection", c, Connection, General);
    } else if m.state.MatchingProxyConnection? {
      MatchNameSafe(m, "proxy-connection", c, Connection, General);
    } else if m.state.MatchingContentLength? {
      MatchNameSafe(m, "content-length", c, ContentLength, General);
    } else if m.state.MatchingTransferEncoding? {
      MatchNameSafe(m, "transfer-encoding", c, TransferEncoding, General);
    } else if m.state.MatchingUpgrade? {
      MatchNameSafe(m, "upgrade", c, Upgrade, General);
    }
    hide MatchName, CharAt;
  }

  lemma HeaderFieldSafe(p: Parser, ch: Byte)
    requires Counted(p) && p.state.HeaderField?
    ensures Safe(HeaderFieldStep(p, ch))
  {
    FieldByteSafe(Match(p.index, p.headerState), Token(ch), ch);
    FreeSafe(p, Next(p.(state := HeaderValueDiscardWs), [Emit(Field)]));
    IndexBounds();
    hide Token, FieldByte, MethodString, FieldHeaderState, IndexBound;
  }

  lemma IndexBounds()
    ensures forall h :: 0 < IndexBound(h) <= 32
  {
  }

  // ----- Header values

  lemma ContentLengthByteSafe(p: Parser, ch: Byte)
    requires LengthOk(p) && ValueHeaderState(p.headerState) && p.index < 32
    ensures var r := ContentLengthByte(p, ch);
      && !r.Impossible?
      && (r.Kept? ==> ValueKept(p, r.p))
  {
  }

  predicate ValueKept(p: Parser, q: Parser) {
    && LengthOk(q)
    && ValueHeaderState(q.headerState) && q.index < IndexBound(q.headerState)
    && q == p.(index := q.index, headerState := q.headerState, contentLength := q.contentLength, flags := q.flags)
  }

  lemma AfterTokenSafe(p: Parser, ch: Byte)
    requires LengthOk(p) && ValueHeaderState(p.headerState) && p.index < 32
    requires p.headerState.ConnectionKeepAlive? || p.headerState.ConnectionClose? || p.headerState.ConnectionUpgrade?
    ensures ValueKept(p, AfterToken(p, ch))
  {
  }

  lemma ValueNameSafe(m: Match, ch: Byte)
    requires ValueHeaderState(m.state) && m.index < IndexBound(m.state)
    ensures var n := ValueName(m, ch); ValueHeaderState(n.state) && n.index < IndexBound(n.state)
  {
    var c := Lower(ch);
    if m.state.MatchingTransferEncodingChunked? {
      MatchNameSafe(m, "chunked", c, TransferEncodingChunked, MatchingTransferEncodingToken);
    } else if m.state.MatchingConnectionKeepAlive? {
      MatchNameSafe(m, "keep-alive", c, ConnectionKeepAlive, MatchingConnectionToken);
    } else if m.state.MatchingConnectionClose? {
      MatchNameSafe(m, "close", c, ConnectionClose, MatchingConnectionToken);
    } else if m.state.MatchingConnectionUpgrade? {
      MatchNameSafe(m, "upgrade", c, ConnectionUpgrade, MatchingConnectionToken);
    }
    hide MatchName, Token, Lower;
  }

  lemma ValueByteSafe(p: Parser, ch: Byte)
    requires LengthOk(p) && ValueHeaderState(p.headerState) && p.index < IndexBound(p.headerState)
    ensures var r := ValueByte(p, ch); !r.Impossible? && (r.Kept? ==> ValueKept(p, r.p))
  {
    var h := p.headerState;
    IndexBounds();
    ContentLengthByteSafe(p, ch);
    ValueNameSafe(Match(p.index, h), ch);
    if h.ConnectionKeepAlive? || h.ConnectionClose? || h.ConnectionUpgrade? {
      AfterTokenSafe(p, ch);
    }
    hide ValueName, AfterToken, ContentLengthByte, IndexBound;
  }

  lemma HeaderValueSafe(p: Parser, ch: Byte)
    requires Counted(p) && p.state.HeaderValue?
    ensures Safe(HeaderValueStep(p, ch))
  {
    ValueByteSafe(p, ch);
    IndexBounds();
    FreeSafe(p, Next(p.(state := HeaderAlmostDone), [Emit(Value)]));
    FreeSafe(p, Next(p.(state := HeaderValueLws), [Emit(Value)]));
    hide ValueByte, MethodString, FieldHeaderState, IndexBound, ValueHeaderState, IsHeaderChar;
  }

  lemma HeaderValueStartSafe(p: Parser, ch: Byte)
    requires LengthOk(p)
    ensures Safe(HeaderValueStartStep(p, ch))
  {
    ValueStarts(p.headerState, Lower(ch));
    IndexBounds();
    hide Lower, MethodString, FieldHeaderState, IndexBound, ValueStartState;
  }

  lemma ValueStarts(h: HeaderState, c: char)
    ensures ValueHeaderState(ValueStartState(h, c))
  {
  }

  // ----- End of the headers

  lemma NewMessageFree(p: Parser)
    ensures FreeMove(p, NewMessage(p))
  {
    hide ShouldKeepAlive;
  }

  // The two states after the headers that bind a field.
  lemma BodySane(p: Parser)
    requires LengthOk(p) && p.index < 32
    ensures p.flags.chunked && p.nread == 0 ==> Sane(p.(state := ChunkSizeStart))
    ensures 0 < p.contentLength != ABSENT ==> Sane(p.(state := BodyIdentity))
  {
    hide MethodString, IndexBound;
  }

  lemma HeadersDoneSafe(p: Parser)
    requires LengthOk(p) && p.index < 32
    ensures Safe(HeadersDoneStep(p))
  {
    var q := p.(nread := 0);
    NewMessageFree(q);
    FreeSafe(q, Next(NewMessage(q), []));
    FreeSafe(q, Next(q.(state := BodyIdentityEof), []));
    BodySane(q);
    hide NewMessage, NeedsEof, FreeMove, Sane, HasBody, LengthOk;
  }

  lemma HeadersAlmostDoneSafe(p: Parser, ch: Byte)
    requires LengthOk(p) && p.index < 32
    ensures Safe(HeadersAlmostDoneStep(p, ch))
  {
    HeadersDoneSafe(p.(state := HeadersDone, upgrade :=
      if p.flags.upgrade && p.flags.connectionUpgrade then p.kind.Request? || p.statusCode == 101
        else p.verb.CONNECT?));
    NewMessageFree(p.(state := MessageDone));
    FreeSafe(p, Next(NewMessage(p.(state := MessageDone)), []));
    hide HeadersDoneStep, NewMessage, FreeMove, Sane;
  }

  lemma HeaderFieldStartSafe(p: Parser, ch: Byte)
    requires LengthOk(p) && p.index < 32
    ensures Safe(HeaderFieldStartStep(p, ch))
  {
    HeadersAlmostDoneSafe(p.(state := HeadersAlmostDone), ch);
    FreeSafe(p, Next(p.(state := HeadersAlmostDone), []));
    hide HeadersAlmostDoneStep, Token, MethodString;
  }

  lemma ConcludedOk(p: Parser)
    requires LengthOk(p)
    ensures LengthOk(Concluded(p)) && Concluded(p).index == p.index
  {
    ListedKeeps(p.flags, p.headerState);
    hide Listed;
  }

  lemma ListedKeeps(flags: Flags, h: HeaderState)
    ensures Listed(flags, h).contentLength == flags.contentLength
  {
  }

  lemma HeaderValueLwsSafe(p: Parser, ch: Byte)
    requires LengthOk(p) && p.index < 32
    ensures Safe(HeaderValueLwsStep(p, ch))
  {
    ConcludedOk(p);
    HeaderFieldStartSafe(Concluded(p).(state := HeaderFieldStart), ch);
    HeaderValueStartSafe(p.(state := HeaderValueStart, headerState :=
      if p.headerState.ContentLengthNum? then ContentLengthWs else p.headerState), ch);
    hide HeaderFieldStartStep, HeaderValueStartStep, Concluded, Sane;
  }

  lemma HeaderValueDiscardLwsSafe(p: Parser, ch: Byte)
    requires LengthOk(p) && p.index < 32
    ensures Safe(HeaderValueDiscardLwsStep(p, ch))
  {
    ConcludedOk(p);
    HeaderFieldStartSafe(Concluded(p).(state := HeaderFieldStart), ch);
    MoveSafe(p);
    hide HeaderFieldStartStep, Concluded, Sane, To;
  }

  lemma HeaderSafe(p: Parser, ch: Byte)
    requires Counted(p) && HeaderSwitch(p.state)
    ensures Safe(HeaderStep(p, ch))
  {
    if p.state.HeaderFieldStart? {
      HeaderFieldStartSafe(p, ch);
    } else if p.state.HeaderField? {
      HeaderFieldSafe(p, ch);
    } else if p.state.HeaderValueDiscardWs? {
      HeaderValueStartSafe(p, ch);
      FreeSafe(p, Next(p, []));
      MoveSafe(p);
    } else if p.state.HeaderValueDiscardLws? {
      HeaderValueDiscardLwsSafe(p, ch);
    } else if p.state.HeaderValue? {
      HeaderValueSafe(p, ch);
    } else if p.state.HeaderValueLws? {
      HeaderValueLwsSafe(p, ch);
    } else if p.state.HeadersAlmostDone? {
      HeadersAlmostDoneSafe(p, ch);
    } else {
      MoveSafe(p);
    }
    hide HeaderFieldStep, HeaderValueStep, HeaderFieldStartStep, HeaderValueLwsStep, HeaderValueDiscardLwsStep,
         HeaderValueStartStep, HeadersAlmostDoneStep, Sane, LengthOk, FreeMove, To, Expect, Safe;
  }

  // ----- Bodies

  lemma ChunkSizeSafe(p: Parser, ch: Byte)
    requires Counted(p) && p.state.ChunkSize?
    ensures Safe(ChunkSizeStep(p, ch))
  {
    UnhexRange(ch);
    hide MethodString, FieldHeaderState, IndexBound, ValueHeaderState, Unhex;
  }

  lemma ChunkSafe(p: Parser, ch: Byte)
    requires Counted(p) && ChunkState(p.state)
    ensures Safe(ChunkStep(p, ch))
  {
    if p.state.ChunkSize? {
      ChunkSizeSafe(p, ch);
      hide Safe;
      return;
    }
    UnhexRange(ch);
    hide MethodString, FieldHeaderState, IndexBound, ValueHeaderState, Unhex, ChunkSizeStep;
  }

  lemma UnhexRange(ch: Byte)
    ensures -1 <= Unhex(ch) <= 15
  {
  }

  lemma BodySafe(p: Parser)
    requires Counted(p) && p.state.BodyIdentity?
    ensures Safe(BodyIdentityStep(p))
  {
    var q := p.(contentLength := p.contentLength - 1);
    NewMessageFree(q.(state := MessageDone));
    FreeSafe(q, Next(NewMessage(q.(state := MessageDone)), []));
    hide NewMessage, MethodString, FieldHeaderState, IndexBound, ValueHeaderState;
  }

  lemma ResOrRespHSafe(p: Parser, ch: Byte)
    requires LengthOk(p) && p.index < 32 && p.state.ResOrRespH?
    ensures Safe(Dispatch(p, ch))
  {
    MethodStrings();
    hide MethodString;
  }

  lemma DispatchSafe(p: Parser, ch: Byte)
    requires Counted(p)
    ensures Safe(Dispatch(p, ch))
  {
    if ResLineState(p.state) {
      ResLineFree(p, ch);
      FreeSafe(p, ResLineStep(p, ch));
    } else if ReqLineState(p.state) {
      ReqLineFree(p, ch);
      FreeSafe(p, ReqLineStep(p, ch));
    } else if ChunkState(p.state) {
      ChunkSafe(p, ch);
    } else if HeaderSwitch(p.state) {
      HeaderSafe(p, ch);
    } else if p.state.ReqMethod? {
      MethodSafe(p, ch);
    } else if p.state.BodyIdentity? {
      BodySafe(p);
    } else if p.state.StartReq? {
      StartReqSafe(p, ch);
    } else if p.state.ResOrRespH? {
      ResOrRespHSafe(p, ch);
    } else {
      StartSafe(p, ch);
      FreeSafe(p, Next(p, []));
      FreeSafe(p, Next(p, [Mark(Body)]));
    }
    hide HeaderStep, ReqLineStep, ResLineStep, ChunkStep, BodyIdentityStep, ReqMethodStep, HeadersDoneStep,
      MessageDoneStep,
         StartReqStep, StartResStep, StartReqOrResStep, Sane, LengthOk, FreeMove;
  }

  // ----- One byte and whole runs

  /** One byte: no assertion fails, and the invariant is kept. */
  lemma StepSafe(p: Parser, ch: Byte)
    requires Sane(p)
    ensures Safe(ByteStep(p, ch))
  {
    var q := if ParsingHeader(p.state) then p.(nread := p.nread + 1) else p;
    assert Counted(q);
    DispatchSafe(q, ch);
    hide Dispatch, Counted, Sane;
  }

  /** No assertion of the parser fails on any input, and the invariant holds at its end. */
  lemma {:induction false} RunSafe(p: Parser, data: seq<Byte>)
    requires Sane(p)
    ensures var r := Run(p, data);
      && !r.Aborted?
      && (r.More? || r.Stopped? ==> Sane(r.p))
    decreases |data|
  {
    hide ByteStep;
    if data != [] {
      StepSafe(p, data[0]);
      var step := ByteStep(p, data[0]);
      if step.Next? {
        RunSafe(step.p, data[1..]);
      }
    }
  }
}
