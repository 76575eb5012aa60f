/** One byte through http_parser_execute: the switch over the parser state, with `goto reexecute` as a call. */
module HttpStep {
  import opened Wrappers
  import opened HttpTypes

  // What the code for a byte does besides updating the parser.
  datatype Act =
    | Mark(span: Span)         // MARK: start a span at this byte unless one is open
    | Emit(span: Span)         // CALLBACK_DATA: deliver the open span up to, but without, this byte
    | EmitThrough(span: Span)  // the same including this byte
    | Tell(notice: Notice)     // CALLBACK_NOTIFY

  datatype Outcome =
    | Next(p: Parser, acts: seq<Act>)
    | Stop(p: Parser, acts: seq<Act>)  // execute returns after this byte: the rest belongs to another protocol
    | Fail(errno: Failure)
    | Abort                            // an assertion of the C code does not hold

  function To(p: Parser, s: State): Outcome { Next(p.(state := s), []) }

  // ----- URLs

  function ParseUrlChar(s: State, ch: Byte): State {
    if ch == ' ' || ch == CR || ch == LF || ch == '\t' || ch == '\U{0C}' then Dead
    else match s
      case ReqSpacesBeforeUrl =>
        if ch == '/' || ch == '*' then ReqPath else if IsAlpha(ch) then ReqSchema else Dead
      case ReqSchema => if IsAlpha(ch) then ReqSchema else if ch == ':' then ReqSchemaSlash else Dead
      case ReqSchemaSlash => if ch == '/' then ReqSchemaSlashSlash else Dead
      case ReqSchemaSlashSlash => if ch == '/' then ReqServerStart else Dead
      case ReqServerWithAt => if ch == '@' then Dead else ParseServerChar(ch)
      case ReqServerStart => ParseServerChar(ch)
      case ReqServer => ParseServerChar(ch)
      case ReqPath =>
        if IsUrlChar(ch) then ReqPath else if ch == '?' then ReqQueryStringStart else if ch == '#' then ReqFragmentStart
          else Dead
      case ReqQueryStringStart => ParseQueryChar(ch)
      case ReqQueryString => ParseQueryChar(ch)
      case ReqFragmentStart =>
        if IsUrlChar(ch) || ch == '?' then ReqFragment else if ch == '#' then ReqFragmentStart else Dead
      case ReqFragment => if IsUrlChar(ch) || ch == '?' || ch == '#' then ReqFragment else Dead
      case _ => Dead
  }

  function ParseServerChar(ch: Byte): State {
    if ch == '/' then ReqPath
    else if ch == '?' then ReqQueryStringStart
    else if ch == '@' then ReqServerWithAt
    else if IsUserinfoChar(ch) || ch == '[' || ch == ']' then ReqServer
    else Dead
  }

  function ParseQueryChar(ch: Byte): State {
    if IsUrlChar(ch) || ch == '?' then ReqQueryString else if ch == '#' then ReqFragmentStart else Dead
  }

  predicate UrlState(s: State) {
    || s.ReqSchema? || s.ReqSchemaSlash? || s.ReqSchemaSlashSlash? || s.ReqServerStart? || s.ReqServer? ||
      s.ReqServerWithAt?
    || s.ReqPath? || s.ReqQueryStringStart? || s.ReqQueryString? || s.ReqFragmentStart? || s.ReqFragment?
  }

  function UrlStep(p: Parser, ch: Byte): Outcome {
    var s := ParseUrlChar(p.state, ch);
    if s.Dead? then Fail(InvalidUrl) else To(p, s)
  }

  // ----- Start of a message

  function Fresh(p: Parser): Parser {
    p.(flags := NO_FLAGS, usesTransferEncoding := false, contentLength := ABSENT)
  }

  function StartReqOrResStep(p: Parser, ch: Byte): Outcome {
    if ch == CR || ch == LF then Next(p, [])
    else if ch == 'H' then Next(Fresh(p).(state := ResOrRespH), [Tell(MessageBegin)])
    else StartReqStep(Fresh(p).(kind := Request, state := StartReq), ch)
  }

  function StartResStep(p: Parser, ch: Byte): Outcome {
    if ch == CR || ch == LF then Next(p, [])
    else if ch == 'H' then Next(Fresh(p).(state := ResH), [Tell(MessageBegin)])
    else Fail(InvalidConstant)
  }

  function StartReqStep(p: Parser, ch: Byte): Outcome {
    if ch == CR || ch == LF then Next(p, [])
    else if !IsAlpha(ch) then Fail(InvalidMethod)
    else
      var q := Fresh(p).(index := 1, state := ReqMethod);
      match FirstMethod(ch)
      case None => Fail(InvalidMethod)
      case Some(m) => Next(q.(verb := m), [Tell(MessageBegin)])
  }

  function FirstMethod(ch: Byte): Option<Method> {
    match ch
    case 'A' => Some(ACL) case 'B' => Some(BIND) case 'C' => Some(CONNECT) case 'D' => Some(DELETE)
      case 'G' => Some(GET)
    case 'H' => Some(HEAD) case 'L' => Some(LOCK) case 'M' => Some(MKCOL) case 'N' => Some(NOTIFY)
      case 'O' => Some(OPTIONS)
    case 'P' => Some(POST) case 'R' => Some(REPORT) case 'S' => Some(SUBSCRIBE) case 'T' => Some(TRACE)
      case 'U' => Some(UNLOCK)
    case _ => None
  }

  /** The guess at the method is corrected when a byte shows that another method was meant. */
  function OtherMethod(m: Method, index: nat, ch: Byte): Option<Method> {
    match (m, index, ch)
    case (POST, 1, 'U') => Some(PUT)
    case (POST, 1, 'A') => Some(PATCH)
    case (POST, 1, 'R') => Some(PROPFIND)
    case (PUT, 2, 'R') => Some(PURGE)
    case (CONNECT, 1, 'H') => Some(CHECKOUT)
    case (CONNECT, 2, 'P') => Some(COPY)
    case (MKCOL, 1, 'O') => Some(MOVE)
    case (MKCOL, 1, 'E') => Some(MERGE)
    case (MKCOL, 1, '-') => Some(MSEARCH)
    case (MKCOL, 2, 'A') => Some(MKACTIVITY)
    case (MKCOL, 3, 'A') => Some(MKCALENDAR)
    case (SUBSCRIBE, 1, 'E') => Some(SEARCH)
    case (SUBSCRIBE, 1, 'O') => Some(SOURCE)
    case (REPORT, 2, 'B') => Some(REBIND)
    case (PROPFIND, 4, 'P') => Some(PROPPATCH)
    case (LOCK, 1, 'I') => Some(LINK)
    case (UNLOCK, 2, 'S') => Some(UNSUBSCRIBE)
    case (UNLOCK, 2, 'B') => Some(UNBIND)
    case (UNLOCK, 3, 'I') => Some(UNLINK)
    case _ => None
  }

  // parser->index is a 5-bit field.
  function Inc(index: nat): nat { (index + 1) % 32 }

  function ReqMethodStep(p: Parser, ch: Byte): Outcome {
    var expected := CharAt(MethodString(p.verb), p.index);
    var q := p.(index := Inc(p.index));
    if ch == '\0' then Fail(InvalidMethod)
    else if ch == ' ' && expected == '\0' then To(q, ReqSpacesBeforeUrl)
    else if ch == expected then Next(q, [])
    else if 'A' <= ch <= 'Z' || ch == '-' then
      match OtherMethod(p.verb, p.index, ch)
      case None => Fail(InvalidMethod)
      case Some(m) => Next(q.(verb := m), [])
    else Fail(InvalidMethod)
  }

  // ----- Request and status line

  function Expect(p: Parser, ok: bool, s: State, errno: Failure): Outcome {
    if ok then To(p, s) else Fail(errno)
  }

  function Digit(ch: Byte): nat
    requires IsNum(ch)
  {
    ch as int - '0' as int
  }

  /** The number that a string of decimal digits stands for. */
  function Decimal(ds: seq<Byte>): nat
    requires forall i :: 0 <= i < |ds| ==> IsNum(ds[i])
  {
    if ds == [] then 0 else 10 * Decimal(ds[..|ds| - 1]) + Digit(ds[|ds| - 1])
  }

  // The part of the request line that is the URL; in the last branch it may end.
  function ReqUrlStep(p: Parser, ch: Byte): Outcome {
    if p.state.ReqSpacesBeforeUrl? then
      if ch == ' ' then Next(p, [])
      else
        var s := ParseUrlChar(if p.verb.CONNECT? then ReqServerStart else p.state, ch);
        if s.Dead? then Fail(InvalidUrl) else Next(p.(state := s), [Mark(Url)])
    else if p.state.ReqSchema? || p.state.ReqSchemaSlash? || p.state.ReqSchemaSlashSlash? ||
      p.state.ReqServerStart? then
      UrlStep(p, ch)
    else if ch == ' ' then Next(p.(state := ReqHttpStart), [Emit(Url)])
    else if ch == CR || ch == LF then
      Next(p.(major := 0, minor := 9, state := if ch == CR then ReqLineAlmostDone else HeaderFieldStart), [Emit(Url)])
    else UrlStep(p, ch)
  }

  /** The letters HTTP, or ICE, and the slash. */
  function ReqHttpStep(p: Parser, ch: Byte): Outcome {
    if p.state.ReqHttpStart? then
      if ch == ' ' then Next(p, [])
      else if ch == 'H' then To(p, ReqHttpH)
      else Expect(p, ch == 'I' && p.verb.SOURCE?, ReqHttpI, InvalidConstant)
    else if p.state.ReqHttpH? then Expect(p, ch == 'T', ReqHttpHT, Strict)
    else if p.state.ReqHttpHT? then Expect(p, ch == 'T', ReqHttpHTT, Strict)
    else if p.state.ReqHttpHTT? then Expect(p, ch == 'P', ReqHttpHTTP, Strict)
    else if p.state.ReqHttpI? then Expect(p, ch == 'C', ReqHttpIC, Strict)
    else if p.state.ReqHttpIC? then Expect(p, ch == 'E', ReqHttpHTTP, Strict)
    else Expect(p, ch == '/', ReqHttpMajor, Strict)  // s_req_http_HTTP
  }

  function ReqVersionStep(p: Parser, ch: Byte): Outcome {
    if p.state.ReqHttpMajor? then
      if IsNum(ch) then To(p.(major := Digit(ch)), ReqHttpDot) else Fail(InvalidVersion)
    else if p.state.ReqHttpDot? then Expect(p, ch == '.', ReqHttpMinor, InvalidVersion)
    else if p.state.ReqHttpMinor? then
      if IsNum(ch) then To(p.(minor := Digit(ch)), ReqHttpEnd) else Fail(InvalidVersion)
    else if p.state.ReqHttpEnd? then
      if ch == CR then To(p, ReqLineAlmostDone) else Expect(p, ch == LF, HeaderFieldStart, InvalidVersion)
    else Expect(p, ch == LF, HeaderFieldStart, LfExpected)  // s_req_line_almost_done
  }

  predicate ReqHttpState(s: State) {
    s.ReqHttpStart? || s.ReqHttpH? || s.ReqHttpHT? || s.ReqHttpHTT? || s.ReqHttpHTTP? || s.ReqHttpI? || s.ReqHttpIC?
  }

  function ReqLineStep(p: Parser, ch: Byte): Outcome {
    if p.state.ReqSpacesBeforeUrl? || UrlState(p.state) then ReqUrlStep(p, ch)
    else if ReqHttpState(p.state) then ReqHttpStep(p, ch)
    else ReqVersionStep(p, ch)
  }

  function ResStatusStep(p: Parser, ch: Byte): Outcome {
    if ch == CR then Next(p.(state := ResLineAlmostDone), [Emit(Status)])
    else if ch == LF then Next(p.(state := HeaderFieldStart), [Emit(Status)])
    else Next(p, [])
  }

  function ResStatusStartStep(p: Parser, ch: Byte): Outcome {
    var q := p.(state := ResStatus, index := 0);
    if ch == CR || ch == LF then
      match ResStatusStep(q, ch)
      case Next(r, acts) => Next(r, [Mark(Status)] + acts)
      case o => o
    else Next(q, [Mark(Status)])
  }

  function StatusCodeStep(p: Parser, ch: Byte): Outcome {
    if p.state.ResFirstStatusCode? then
      if IsNum(ch) then To(p.(statusCode := Digit(ch)), ResStatusCode)
      else if ch == ' ' then Next(p, [])
      else Fail(InvalidStatus)
    else if IsNum(ch) then
      var code := p.statusCode * 10 + Digit(ch);
      if code > 999 then Fail(InvalidStatus) else Next(p.(statusCode := code), [])
    else if ch == ' ' then To(p, ResStatusStart)
    else if ch == CR || ch == LF then ResStatusStartStep(p.(state := ResStatusStart), ch)
    else Fail(InvalidStatus)
  }

  function ResLineStep(p: Parser, ch: Byte): Outcome {
    if p.state.ResH? then Expect(p, ch == 'T', ResHT, Strict)
    else if p.state.ResHT? then Expect(p, ch == 'T', ResHTT, Strict)
    else if p.state.ResHTT? then Expect(p, ch == 'P', ResHTTP, Strict)
    else if p.state.ResHTTP? then Expect(p, ch == '/', ResHttpMajor, Strict)
    else if p.state.ResHttpMajor? then
      if IsNum(ch) then To(p.(major := Digit(ch)), ResHttpDot) else Fail(InvalidVersion)
    else if p.state.ResHttpDot? then Expect(p, ch == '.', ResHttpMinor, InvalidVersion)
    else if p.state.ResHttpMinor? then
      if IsNum(ch) then To(p.(minor := Digit(ch)), ResHttpEnd) else Fail(InvalidVersion)
    else if p.state.ResHttpEnd? then Expect(p, ch == ' ', ResFirstStatusCode, InvalidVersion)
    else if p.state.ResFirstStatusCode? || p.state.ResStatusCode? then StatusCodeStep(p, ch)
    else if p.state.ResStatusStart? then ResStatusStartStep(p, ch)
    else if p.state.ResStatus? then ResStatusStep(p, ch)
    else Expect(p, ch == LF, HeaderFieldStart, Strict)  // s_res_line_almost_done
  }

  // ----- Header fields

  function FieldStartState(c: Byte): HeaderState {
    match c
    case 'c' => C
    case 'p' => MatchingProxyConnection
    case 't' => MatchingTransferEncoding
    case 'u' => MatchingUpgrade
    case _ => General
  }

  function HeaderFieldStartStep(p: Parser, ch: Byte): Outcome {
    if ch == CR then To(p, HeadersAlmostDone)
    else if ch == LF then HeadersAlmostDoneStep(p.(state := HeadersAlmostDone), ch)
    else if Token(ch) == '\0' then Fail(InvalidHeaderToken)
    else Next(p.(index := 0, state := HeaderField, headerState := FieldStartState(Token(ch))), [Mark(Field)])
  }

  // Where the comparison of a name with the known names stands.
  datatype Match = Match(index: nat, state: HeaderState)

  /** Compares byte c with the next byte of a known name; `whole` is the state once all of it has been seen. */
  function MatchName(m: Match, name: string, c: Byte, whole: HeaderState, otherwise: HeaderState): Match {
    var i := Inc(m.index);
    if i > |name| || c != CharAt(name, i) then Match(i, otherwise)
    else if i == |name| - 1 then Match(i, whole)
    else Match(i, m.state)
  }

  /** A token byte inside a field name; None is the "Unknown header_state" assertion. */
  function FieldByte(m: Match, c: Byte, ch: Byte): Option<Match> {
    if m.state.General? then Some(m)
    else if m.state.C? then Some(Match(Inc(m.index), if c == 'o' then CO else General))
    else if m.state.CO? then Some(Match(Inc(m.index), if c == 'n' then CON else General))
    else if m.state.CON? then
      Some(Match(Inc(m.index), if c == 'n' then MatchingConnection else if c == 't' then MatchingContentLength
        else General))
    else if m.state.MatchingConnection? then Some(MatchName(m, "connection", c, Connection, General))
    else if m.state.MatchingProxyConnection? then Some(MatchName(m, "proxy-connection", c, Connection, General))
    else if m.state.MatchingContentLength? then Some(MatchName(m, "content-length", c, ContentLength, General))
    else if m.state.MatchingTransferEncoding? then Some(MatchName(m, "transfer-encoding", c, TransferEncoding, General))
    else if m.state.MatchingUpgrade? then Some(MatchName(m, "upgrade", c, Upgrade, General))
    else if m.state.Connection? || m.state.ContentLength? || m.state.TransferEncoding? || m.state.Upgrade? then
      Some(if ch != ' ' then Match(m.index, General) else m)
    else None
  }

  function FieldNext(p: Parser, ch: Byte): Option<Parser> {
    match FieldByte(Match(p.index, p.headerState), Token(ch), ch)
    case Some(m) =>
      Some(p.(index := m.index, headerState := m.state, usesTransferEncoding :=
        p.usesTransferEncoding || (p.headerState.MatchingTransferEncoding? && m.state.TransferEncoding?)))
    case None => None
  }

  function HeaderFieldStep(p: Parser, ch: Byte): Outcome {
    if Token(ch) != '\0' then
      match FieldNext(p, ch)
      case Some(q) => Next(q, [])
      case None => Abort
    else if ch == ':' then Next(p.(state := HeaderValueDiscardWs), [Emit(Field)])
    else Fail(InvalidHeaderToken)
  }

  // ----- Header values

  /** The state of the value of a header, but for Content-Length, from its first byte in lower case. */
  function ValueStartState(h: HeaderState, c: char): HeaderState {
    if h.TransferEncoding? then
      if c == 'c' then MatchingTransferEncodingChunked else MatchingTransferEncodingToken
    else if h.Connection? then
      if c == 'k' then MatchingConnectionKeepAlive
      else if c == 'c' then MatchingConnectionClose
      else if c == 'u' then MatchingConnectionUpgrade
      else MatchingConnectionToken
    else if h.MatchingTransferEncodingTokenStart? || h.MatchingConnectionTokenStart? || h.ContentLengthWs? then h
    else General
  }

  function HeaderValueStartStep(p: Parser, ch: Byte): Outcome {
    var h := p.headerState;
    var q := p.(state := HeaderValue, index := 0);
    if h.ContentLength? then
      if !IsNum(ch) then Fail(InvalidContentLength)
      else if p.flags.contentLength then Fail(UnexpectedContentLength)
      else
        Next(q.(flags := q.flags.(contentLength := true), contentLength := Digit(ch), headerState := ContentLengthNum),
             [Mark(Value)])
    else
      var flags := if h.Upgrade? then p.flags.(upgrade := true) else p.flags;
      Next(q.(flags := flags, headerState := ValueStartState(h, Lower(ch))), [Mark(Value)])
  }

  datatype ValueResult = Kept(p: Parser) | Bad(errno: Failure) | Impossible

  function ContentLengthByte(p: Parser, ch: Byte): ValueResult {
    if ch == ' ' then Kept(p.(headerState := ContentLengthWs))
    else if !IsNum(ch) then Bad(InvalidContentLength)
    else if (ABSENT - 10) / 10 < p.contentLength then Bad(InvalidContentLength)
    else Kept(p.(headerState := ContentLengthNum, contentLength := (p.contentLength * 10 + Digit(ch)) % (ABSENT + 1)))
  }

  function Listed(flags: Flags, h: HeaderState): Flags {
    if h.ConnectionKeepAlive? then flags.(keepAlive := true)
    else if h.ConnectionClose? then flags.(close := true)
    else if h.ConnectionUpgrade? then flags.(connectionUpgrade := true)
    else flags
  }

  // A byte of a value in which names are looked for.
  function ValueName(m: Match, ch: Byte): Match {
    var c := Lower(ch);
    if m.state.MatchingTransferEncodingTokenStart? then
      Match(m.index,
        if c == 'c' then MatchingTransferEncodingChunked
        else if Token(c) != '\0' then MatchingTransferEncodingToken
        else if c == ' ' || c == '\t' then MatchingTransferEncodingTokenStart
        else General)
    else if m.state.MatchingTransferEncodingChunked? then
      MatchName(m, "chunked", c, TransferEncodingChunked, MatchingTransferEncodingToken)
    else if m.state.MatchingTransferEncodingToken? then
      if ch == ',' then Match(0, MatchingTransferEncodingTokenStart) else m
    else if m.state.TransferEncodingChunked? then if ch != ' ' then Match(m.index, MatchingTransferEncodingToken) else m
    else if m.state.MatchingConnectionTokenStart? then
      Match(m.index,
        if c == 'k' then MatchingConnectionKeepAlive
        else if c == 'c' then MatchingConnectionClose
        else if c == 'u' then MatchingConnectionUpgrade
        else if Token(c) != '\0' then MatchingConnectionToken
        else if c == ' ' || c == '\t' then MatchingConnectionTokenStart
        else General)
    else if m.state.MatchingConnectionKeepAlive? then
      MatchName(m, "keep-alive", c, ConnectionKeepAlive, MatchingConnectionToken)
    else if m.state.MatchingConnectionClose? then MatchName(m, "close", c, ConnectionClose, MatchingConnectionToken)
    else if m.state.MatchingConnectionUpgrade? then
      MatchName(m, "upgrade", c, ConnectionUpgrade, MatchingConnectionToken)
    else if m.state.MatchingConnectionToken? then if ch == ',' then Match(0, MatchingConnectionTokenStart) else m
    else Match(m.index, General)
  }

  /** A byte of a header value other than CR and LF. */
  function ValueByte(p: Parser, ch: Byte): ValueResult {
    var h := p.headerState;
    if h.Connection? || h.TransferEncoding? then Impossible
    else if h.ContentLength? then if ch == ' ' then Kept(p) else ContentLengthByte(p, ch)
    else if h.ContentLengthNum? then ContentLengthByte(p, ch)
    else if h.ContentLengthWs? then if ch == ' ' then Kept(p) else Bad(InvalidContentLength)
    else if h.ConnectionKeepAlive? || h.ConnectionClose? || h.ConnectionUpgrade? then Kept(AfterToken(p, ch))
    else
      var m := ValueName(Match(p.index, h), ch);
      Kept(p.(index := m.index, headerState := m.state))
  }

  function AfterToken(p: Parser, ch: Byte): Parser {
    if ch == ',' then p.(flags := Listed(p.flags, p.headerState), headerState := MatchingConnectionTokenStart,
      index := 0)
    else if ch != ' ' then p.(headerState := MatchingConnectionToken)
    else p
  }

  function HeaderValueStep(p: Parser, ch: Byte): Outcome {
    if ch == CR then Next(p.(state := HeaderAlmostDone), [Emit(Value)])
    else if ch == LF then Next(p.(state := HeaderValueLws), [Emit(Value)])  // through s_header_almost_done
    else if !IsHeaderChar(ch) then Fail(InvalidHeaderToken)
    else
      match ValueByte(p, ch)
      case Kept(q) => Next(q, [])
      case Bad(e) => Fail(e)
      case Impossible => Abort
  }

  /** The flag that a complete header sets. */
  function Concluded(p: Parser): Parser {
    if p.headerState.TransferEncodingChunked? then p.(flags := p.flags.(chunked := true))
    else p.(flags := Listed(p.flags, p.headerState))
  }

  function HeaderValueLwsStep(p: Parser, ch: Byte): Outcome {
    if ch == ' ' || ch == '\t' then
      HeaderValueStartStep(p.(state := HeaderValueStart, headerState :=
        if p.headerState.ContentLengthNum? then ContentLengthWs else p.headerState), ch)
    else
      HeaderFieldStartStep(Concluded(p).(state := HeaderFieldStart), ch)
  }

  function HeaderValueDiscardLwsStep(p: Parser, ch: Byte): Outcome {
    if ch == ' ' || ch == '\t' then To(p, HeaderValueDiscardWs)
    else if p.headerState.ContentLength? then Fail(InvalidContentLength)
    else
      match HeaderFieldStartStep(Concluded(p).(state := HeaderFieldStart), ch)
      case Next(q, acts) => Next(q, [Mark(Value), Emit(Value)] + acts)
      case Stop(q, acts) => Stop(q, [Mark(Value), Emit(Value)] + acts)
      case o => o
  }

  function HeaderValueDiscardWsStep(p: Parser, ch: Byte): Outcome {
    if ch == ' ' || ch == '\t' then Next(p, [])
    else if ch == CR then To(p, HeaderValueDiscardWsAlmostDone)
    else if ch == LF then To(p, HeaderValueDiscardLws)
    else HeaderValueStartStep(p, ch)
  }

  function HeaderStep(p: Parser, ch: Byte): Outcome {
    if p.state.HeaderFieldStart? then HeaderFieldStartStep(p, ch)
    else if p.state.HeaderField? then HeaderFieldStep(p, ch)
    else if p.state.HeaderValueDiscardWs? then HeaderValueDiscardWsStep(p, ch)
    else if p.state.HeaderValueDiscardWsAlmostDone? then Expect(p, ch == LF, HeaderValueDiscardLws, Strict)
    else if p.state.HeaderValueDiscardLws? then HeaderValueDiscardLwsStep(p, ch)
    else if p.state.HeaderValueStart? then HeaderValueStartStep(p, ch)
    else if p.state.HeaderValue? then HeaderValueStep(p, ch)
    else if p.state.HeaderAlmostDone? then Expect(p, ch == LF, HeaderValueLws, LfExpected)
    else if p.state.HeaderValueLws? then HeaderValueLwsStep(p, ch)
    else HeadersAlmostDoneStep(p, ch)
  }

  // ----- End of the headers

  predicate NeedsEof(p: Parser) {
    if p.kind.Request? then false
    else if p.statusCode / 100 == 1 || p.statusCode == 204 || p.statusCode == 304 || p.flags.skipBody then false
    else if p.usesTransferEncoding && !p.flags.chunked then true
    else !(p.flags.chunked || p.contentLength != ABSENT)
  }

  predicate ShouldKeepAlive(p: Parser) {
    (if p.major > 0 && p.minor > 0 then !p.flags.close else p.flags.keepAlive) && !NeedsEof(p)
  }

  /** NEW_MESSAGE */
  function NewMessage(p: Parser): Parser {
    p.(state := if !ShouldKeepAlive(p) then Dead else if p.kind.Request? then StartReq else StartRes)
  }

  function MessageDoneStep(p: Parser): Outcome {
    if p.upgrade then Stop(NewMessage(p), [Tell(MessageComplete)]) else Next(NewMessage(p), [Tell(MessageComplete)])
  }

  function HeadersAlmostDoneStep(p: Parser, ch: Byte): Outcome {
    if ch != LF then Fail(Strict)
    else if p.flags.trailing then
      match MessageDoneStep(p.(state := MessageDone))
      case Next(q, acts) => Next(q, [Tell(ChunkComplete)] + acts)
      case Stop(q, acts) => Stop(q, [Tell(ChunkComplete)] + acts)
      case o => o
    else if p.usesTransferEncoding && p.flags.contentLength && !(p.flags.chunked && p.allowChunkedLength) then
      Fail(UnexpectedContentLength)
    else
      var upgrade :=
        if p.flags.upgrade && p.flags.connectionUpgrade then p.kind.Request? || p.statusCode == 101
          else p.verb.CONNECT?;
      match HeadersDoneStep(p.(state := HeadersDone, upgrade := upgrade))
      case Next(q, acts) => Next(q, [Tell(HeadersComplete)] + acts)
      case Stop(q, acts) => Stop(q, [Tell(HeadersComplete)] + acts)
      case o => o
  }

  predicate HasBody(p: Parser) {
    p.flags.chunked || (p.contentLength > 0 && p.contentLength != ABSENT)
  }

  function HeadersDoneStep(p0: Parser): Outcome {
    var p := p0.(nread := 0);
    if p.upgrade && (p.verb.CONNECT? || p.flags.skipBody || !HasBody(p)) then
      Stop(NewMessage(p), [Tell(MessageComplete)])
    else if p.flags.skipBody then Next(NewMessage(p), [Tell(MessageComplete)])
    else if p.flags.chunked then To(p, ChunkSizeStart)
    else if p.usesTransferEncoding then
      if p.kind.Request? then Fail(InvalidTransferEncoding) else To(p, BodyIdentityEof)
    else if p.contentLength == 0 then Next(NewMessage(p), [Tell(MessageComplete)])
    else if p.contentLength != ABSENT then To(p, BodyIdentity)
    else if !NeedsEof(p) then Next(NewMessage(p), [Tell(MessageComplete)])
    else To(p, BodyIdentityEof)
  }

  // ----- Bodies

  function BodyIdentityStep(p: Parser): Outcome {
    if p.contentLength == 0 || p.contentLength == ABSENT then Abort
    else
      var q := p.(contentLength := p.contentLength - 1);
      if q.contentLength > 0 then Next(q, [Mark(Body)])
      else
        match MessageDoneStep(q.(state := MessageDone))
        case Next(r, acts) => Next(r, [Mark(Body), EmitThrough(Body)] + acts)
        case Stop(r, acts) => Stop(r, [Mark(Body), EmitThrough(Body)] + acts)
        case o => o
  }

  function ChunkSizeStep(p: Parser, ch: Byte): Outcome {
    if ch == CR then To(p, ChunkSizeAlmostDone)
    else if Unhex(ch) == -1 then
      Expect(p, ch == ';' || ch == ' ', ChunkParameters, InvalidChunkSize)
    else if (ABSENT - 16) / 16 < p.contentLength then Fail(InvalidContentLength)
    else Next(p.(contentLength := (p.contentLength * 16 + Unhex(ch)) % (ABSENT + 1)), [])
  }

  function ChunkStep(p: Parser, ch: Byte): Outcome {
    if !p.flags.chunked then Abort
    else if p.state.ChunkSizeStart? then
      if p.nread != 1 then Abort
      else if Unhex(ch) == -1 then Fail(InvalidChunkSize)
      else To(p.(contentLength := Unhex(ch)), ChunkSize)
    else if p.state.ChunkSize? then ChunkSizeStep(p, ch)
    else if p.state.ChunkParameters? then if ch == CR then To(p, ChunkSizeAlmostDone) else Next(p, [])
    else if p.state.ChunkSizeAlmostDone? then
      if ch != LF then Fail(Strict)
      else if p.contentLength == 0 then
        Next(p.(nread := 0, flags := p.flags.(trailing := true), state := HeaderFieldStart), [Tell(ChunkHeader)])
      else Next(p.(nread := 0, state := ChunkData), [Tell(ChunkHeader)])
    else if p.state.ChunkData? then
      if p.contentLength == 0 || p.contentLength == ABSENT then Abort
      else
        Next(p.(contentLength := p.contentLength - 1,
                state := if p.contentLength == 1 then ChunkDataAlmostDone else ChunkData), [Mark(Body)])
    else if p.state.ChunkDataAlmostDone? then
      if p.contentLength != 0 then Abort
      else if ch != CR then Fail(Strict)
      else Next(p.(state := ChunkDataDone), [Emit(Body)])
    else  // s_chunk_data_done
      if ch != LF then Fail(Strict)
      else Next(p.(nread := 0, state := ChunkSizeStart), [Tell(ChunkComplete)])
  }

  // ----- The switch

  function Dispatch(p: Parser, ch: Byte): Outcome {
    if ResLineState(p.state) then ResLineStep(p, ch)
    else if ReqLineState(p.state) then ReqLineStep(p, ch)
    else if ChunkState(p.state) then ChunkStep(p, ch)
    else if HeaderSwitch(p.state) then HeaderStep(p, ch)
    else if p.state.Dead? then (if ch == CR || ch == LF then Next(p, []) else Fail(ClosedConnection))
    else if p.state.StartReqOrRes? then StartReqOrResStep(p, ch)
    else if p.state.ResOrRespH? then
      if ch == 'T' then To(p.(kind := Response), ResHT)
      else if ch == 'E' then To(p.(kind := Request, verb := HEAD, index := 2), ReqMethod)
      else Fail(InvalidConstant)
    else if p.state.StartRes? then StartResStep(p, ch)
    else if p.state.StartReq? then StartReqStep(p, ch)
    else if p.state.ReqMethod? then ReqMethodStep(p, ch)
    else if p.state.BodyIdentity? then BodyIdentityStep(p)
    else if p.state.BodyIdentityEof? then Next(p, [Mark(Body)])
    else if p.state.MessageDone? then MessageDoneStep(p)
    else if ch != LF then Fail(Strict)  // s_headers_done
    else HeadersDoneStep(p)
  }

  predicate HeaderSwitch(s: State) {
    || s.HeaderFieldStart? || s.HeaderField? || s.HeaderValueDiscardWs? || s.HeaderValueDiscardWsAlmostDone?
    || s.HeaderValueDiscardLws? || s.HeaderValueStart? || s.HeaderValue? || s.HeaderValueLws? || s.HeaderAlmostDone?
    || s.HeadersAlmostDone?
  }

  predicate ResLineState(s: State) {
    || s.ResH? || s.ResHT? || s.ResHTT? || s.ResHTTP? || s.ResHttpMajor? || s.ResHttpDot? || s.ResHttpMinor? ||
      s.ResHttpEnd?
    || s.ResFirstStatusCode? || s.ResStatusCode? || s.ResStatusStart? || s.ResStatus? || s.ResLineAlmostDone?
  }

  predicate ReqLineState(s: State) {
    || s.ReqSpacesBeforeUrl? || UrlState(s) || ReqHttpState(s)
    || s.ReqHttpMajor? || s.ReqHttpDot? || s.ReqHttpMinor? || s.ReqHttpEnd? || s.ReqLineAlmostDone?
  }

  predicate ChunkState(s: State) {
    || s.ChunkSizeStart? || s.ChunkSize? || s.ChunkParameters? || s.ChunkSizeAlmostDone?
    || s.ChunkData? || s.ChunkDataAlmostDone? || s.ChunkDataDone?
  }

  /** One byte, counted against the header size limit first. */
  function ByteStep(p: Parser, ch: Byte): Outcome {
    if !ParsingHeader(p.state) then Dispatch(p, ch)
    else if p.nread + 1 > p.maxHeaderSize then Fail(HeaderOverflow)
    else Dispatch(p.(nread := p.nread + 1), ch)
  }
}
