/** A body is taken for chunked only if the parser has seen a transfer coding, on every input. */
module HttpCoding {
  import opened Wrappers
  import opened HttpTypes
  import opened HttpStep
  import opened HttpRun
  import opened HttpInvariant
  import opened HttpShape

  /** The states inside a header line. */
  predicate Live(s: State) { HeaderSwitch(s) && !s.HeaderFieldStart? && !s.HeadersAlmostDone? }

  /** The header states that a Transfer-Encoding header alone leads to. */
  predicate Coding(h: HeaderState) {
    || h.TransferEncoding? || h.MatchingTransferEncodingTokenStart? || h.MatchingTransferEncodingChunked?
    || h.MatchingTransferEncodingToken? || h.TransferEncodingChunked?
  }

  predicate Coded(p: Parser) {
    (p.flags.chunked || (Live(p.state) && Coding(p.headerState))) ==> p.usesTransferEncoding
  }

  /** A step out of the header lines that makes nothing chunked. */
  predicate CodedMove(p: Parser, q: Parser) {
    !Live(q.state) && (q.flags.chunked ==> p.flags.chunked && q.usesTransferEncoding == p.usesTransferEncoding)
  }

  predicate Moves(p: Parser, o: Outcome) { (o.Next? || o.Stop?) ==> CodedMove(p, o.p) }

  predicate Keeps(o: Outcome) { (o.Next? || o.Stop?) ==> Coded(o.p) }

  lemma MovesKeeps(p: Parser, o: Outcome)
    requires Coded(p) && Moves(p, o)
    ensures Keeps(o)
  {
  }

  lemma ReqUrlMoves(p: Parser, ch: Byte)
    requires p.state.ReqSpacesBeforeUrl? || UrlState(p.state)
    ensures Moves(p, ReqUrlStep(p, ch))
  {
    UrlNotLive(p.state, ch);
    UrlNotLive(ReqServerStart, ch);
    hide ParseUrlChar, UrlState;
  }

  lemma UrlNotLive(s: State, ch: Byte)
    ensures !Live(ParseUrlChar(s, ch))
  {
    ParseUrlCharStays(s, ch);
    hide ParseUrlChar;
  }

  lemma ReqLineMoves(p: Parser, ch: Byte)
    requires ReqLineState(p.state)
    ensures Moves(p, ReqLineStep(p, ch))
  {
    if p.state.ReqSpacesBeforeUrl? || UrlState(p.state) {
      ReqUrlMoves(p, ch);
      hide Moves, ReqUrlStep;
      return;
    }
    hide ReqUrlStep, IsNum;
  }

  lemma ResLineMoves(p: Parser, ch: Byte)
    requires ResLineState(p.state)
    ensures Moves(p, ResLineStep(p, ch))
  {
  }

  lemma NewMessageMoves(p: Parser)
    ensures CodedMove(p, NewMessage(p))
  {
    hide ShouldKeepAlive;
  }

  lemma MessageDoneMoves(p: Parser)
    ensures Moves(p, MessageDoneStep(p))
  {
    NewMessageMoves(p);
    hide NewMessage;
  }

  lemma HeadersDoneMoves(p: Parser)
    ensures Moves(p, HeadersDoneStep(p))
  {
    NewMessageMoves(p.(nread := 0));
    hide NewMessage, HasBody, NeedsEof;
  }

  lemma EndMoves(p: Parser, ch: Byte)
    ensures Moves(p, MessageDoneStep(p)) && Moves(p, HeadersDoneStep(p)) && Moves(p, HeadersAlmostDoneStep(p, ch))
  {
    MessageDoneMoves(p);
    HeadersDoneMoves(p);
    MessageDoneMoves(p.(state := MessageDone));
    var upgrade :=
      if p.flags.upgrade && p.flags.connectionUpgrade then p.kind.Request? || p.statusCode == 101 else p.verb.CONNECT?;
    HeadersDoneMoves(p.(state := HeadersDone, upgrade := upgrade));
    hide MessageDoneStep, HeadersDoneStep, Live;
  }

  lemma ChunkMoves(p: Parser, ch: Byte)
    requires ChunkState(p.state)
    ensures Moves(p, ChunkStep(p, ch))
  {
    hide Unhex;
  }

  lemma BodyMoves(p: Parser)
    requires p.state.BodyIdentity?
    ensures Moves(p, BodyIdentityStep(p))
  {
    hide NewMessage;
    NewMessageMoves(p.(contentLength := if p.contentLength == 0 then 0 else p.contentLength - 1, state := MessageDone));
  }

  lemma StartMoves(p: Parser, ch: Byte)
    requires !Live(p.state)
    ensures Moves(p, StartReqStep(p, ch)) && Moves(p, StartResStep(p, ch)) && Moves(p, StartReqOrResStep(p, ch))
    ensures p.state.ReqMethod? ==> Moves(p, ReqMethodStep(p, ch))
  {
    hide MethodString;
  }

  // ----- Header lines

  lemma FieldCoded(p: Parser, ch: Byte)
    requires Coded(p) && p.state.HeaderField?
    ensures Keeps(HeaderFieldStep(p, ch))
  {
    hide Token, CharAt;
  }

  lemma FieldStartCoded(p: Parser, ch: Byte)
    requires p.flags.chunked ==> p.usesTransferEncoding
    ensures Keeps(HeaderFieldStartStep(p, ch))
  {
    EndMoves(p.(state := HeadersAlmostDone), ch);
    hide HeadersAlmostDoneStep, Token;
  }

  lemma ValueStartCoded(p: Parser, ch: Byte)
    requires Coded(p) && Live(p.state)
    ensures Keeps(HeaderValueStartStep(p, ch))
  {
    hide Lower;
  }

  lemma ConcludedCoded(p: Parser)
    requires Coded(p) && Live(p.state)
    ensures Concluded(p).flags.chunked ==> Concluded(p).usesTransferEncoding
  {
    ListedSame(p.flags, p.headerState);
    hide Live, Listed;
  }

  lemma ListedSame(flags: Flags, h: HeaderState)
    ensures Listed(flags, h).chunked == flags.chunked
  {
  }

  lemma MatchedName(m: Match, name: string, c: Byte, whole: HeaderState, otherwise: HeaderState)
    ensures var n := MatchName(m, name, c, whole, otherwise);
      n.state == whole || n.state == otherwise || n.state == m.state
  {
    hide CharAt;
  }

  lemma ValueNameCoding(m: Match, ch: Byte)
    ensures Coding(ValueName(m, ch).state) ==> Coding(m.state)
  {
    var c := Lower(ch);
    MatchedName(m, "chunked", c, TransferEncodingChunked, MatchingTransferEncodingToken);
    MatchedName(m, "keep-alive", c, ConnectionKeepAlive, MatchingConnectionToken);
    MatchedName(m, "close", c, ConnectionClose, MatchingConnectionToken);
    MatchedName(m, "upgrade", c, ConnectionUpgrade, MatchingConnectionToken);
    hide MatchName, Lower, Token;
  }

  lemma ValueByteCoding(p: Parser, ch: Byte)
    requires ValueByte(p, ch).Kept?
    ensures var q := ValueByte(p, ch).p;
      && q.state == p.state && q.flags.chunked == p.flags.chunked && q.usesTransferEncoding == p.usesTransferEncoding
      && (Coding(q.headerState) ==> Coding(p.headerState))
  {
    if p.headerState.ContentLength? || p.headerState.ContentLengthNum? {
      LengthByteCoding(p, ch);
    } else if !p.headerState.ConnectionKeepAlive? && !p.headerState.ConnectionClose? &&
      !p.headerState.ConnectionUpgrade? {
      ValueNameCoding(Match(p.index, p.headerState), ch);
    } else {
      ListedSame(p.flags, p.headerState);
    }
    hide ValueName, Listed, ContentLengthByte, Coding;
    NotCoding();
  }

  lemma NotCoding()
    ensures !Coding(MatchingConnectionToken) && !Coding(MatchingConnectionTokenStart)
  {
  }

  lemma LengthByteCoding(p: Parser, ch: Byte)
    requires ContentLengthByte(p, ch).Kept?
    ensures var q := ContentLengthByte(p, ch).p;
      && q.state == p.state && q.flags == p.flags && q.usesTransferEncoding == p.usesTransferEncoding &&
        !Coding(q.headerState)
  {
  }

  lemma ValueCoded(p: Parser, ch: Byte)
    requires Coded(p) && p.state.HeaderValue?
    ensures Keeps(HeaderValueStep(p, ch))
  {
    if ValueByte(p, ch).Kept? {
      ValueByteCoding(p, ch);
    }
    hide ValueByte, Coding, IsHeaderChar;
  }

  lemma HeaderCoded(p: Parser, ch: Byte)
    requires Coded(p) && HeaderSwitch(p.state)
    ensures Keeps(HeaderStep(p, ch))
  {
    EndMoves(p, ch);
    MovesKeeps(p, HeadersAlmostDoneStep(p, ch));
    FieldStartCoded(p, ch);
    if Live(p.state) {
      ConcludedCoded(p);
      FieldStartCoded(Concluded(p).(state := HeaderFieldStart), ch);
      ValueStartCoded(p, ch);
      ValueStartCoded(p.(state := HeaderValueStart,
                         headerState := if p.headerState.ContentLengthNum? then ContentLengthWs else p.headerState),
                           ch);
    }
    if p.state.HeaderField? {
      FieldCoded(p, ch);
    } else if p.state.HeaderValue? {
      ValueCoded(p, ch);
    }
    hide HeadersAlmostDoneStep, HeaderFieldStartStep, HeaderValueStartStep, HeaderFieldStep, HeaderValueStep, Concluded,
      Moves;
  }

  lemma DispatchCoded(p: Parser, ch: Byte)
    requires Coded(p)
    ensures Keeps(Dispatch(p, ch))
  {
    if ResLineState(p.state) {
      ResLineMoves(p, ch);
    } else if ReqLineState(p.state) {
      ReqLineMoves(p, ch);
    } else if ChunkState(p.state) {
      ChunkMoves(p, ch);
    } else if HeaderSwitch(p.state) {
      HeaderCoded(p, ch);
    } else if p.state.BodyIdentity? {
      BodyMoves(p);
    } else {
      OtherCoded(p, ch);
      hide Dispatch, Keeps;
      return;
    }
    hide HeaderStep, ReqLineStep, ResLineStep, ChunkStep, BodyIdentityStep, ReqMethodStep, HeadersDoneStep,
      MessageDoneStep,
         StartReqStep, StartResStep, StartReqOrResStep, Coding, Live;
  }

  lemma OtherCoded(p: Parser, ch: Byte)
    requires Coded(p) && !ResLineState(p.state) && !ReqLineState(p.state) && !ChunkState(p.state) &&
      !HeaderSwitch(p.state)
    requires !p.state.BodyIdentity?
    ensures Keeps(Dispatch(p, ch))
  {
    hide Keeps, Moves, Coded, CodedMove, HeaderStep, ReqLineStep, ResLineStep, ChunkStep, BodyIdentityStep,
      ReqMethodStep,
         HeadersDoneStep, MessageDoneStep, StartReqStep, StartResStep, StartReqOrResStep, To, UrlState;
    NotLive(p.state);
    StartMoves(p, ch);
    EndMoves(p, ch);
    MovesKeeps(p, StartReqStep(p, ch));
    MovesKeeps(p, StartResStep(p, ch));
    MovesKeeps(p, StartReqOrResStep(p, ch));
    MovesKeeps(p, MessageDoneStep(p));
    MovesKeeps(p, HeadersDoneStep(p));
    if p.state.ReqMethod? {
      MovesKeeps(p, ReqMethodStep(p, ch));
    }
    StayCoded(p);
  }

  lemma NotLive(s: State)
    ensures !HeaderSwitch(s) ==> !Live(s)
  {
  }

  lemma StayCoded(p: Parser)
    requires Coded(p)
    ensures Keeps(Next(p, [])) && Keeps(Next(p, [Mark(Body)])) && forall e: Failure :: Keeps(Fail(e))
    ensures p.state.ResOrRespH? ==>
      Keeps(To(p.(kind := Response), ResHT)) && Keeps(To(p.(kind := Request, verb := HEAD, index := 2), ReqMethod))
  {
  }

  /** From http_parser_init on, whatever the input: chunked implies that a transfer coding was named. */
  lemma {:induction false} RunCoded(p: Parser, data: seq<Byte>)
    requires Coded(p)
    ensures Run(p, data).More? || Run(p, data).Stopped? ==> Coded(Run(p, data).p)
    decreases |data|
  {
    hide Dispatch, Coded;
    if data != [] {
      var q := if ParsingHeader(p.state) then p.(nread := p.nread + 1) else p;
      CodedCounting(p);
      DispatchCoded(q, data[0]);
      var step := ByteStep(p, data[0]);
      if step.Next? {
        RunCoded(step.p, data[1..]);
      }
    }
  }

  lemma CodedCounting(p: Parser)
    requires Coded(p)
    ensures Coded(p.(nread := p.nread + 1))
  {
  }

  lemma InitCoded(kind: Kind, maxHeaderSize: nat)
    ensures Coded(Init(kind, maxHeaderSize))
  {
  }
}
