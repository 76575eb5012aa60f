/** Messages whose bodies the parser frames otherwise than RFC 7230 says, each read from its first byte on. */
module HttpFramingCases {
  import opened Wrappers
  import opened HttpTypes
  import opened HttpStep
  import opened HttpRun
  import opened HttpInvariant
  import opened HttpShape
  import opened HttpBlocks
  import opened HttpChunked
  import opened HttpHeaders
  import opened HttpTransfer
  import opened HttpFirstLine
  import opened HttpFraming

  // ----- A status line and a request line

  /** q takes ch and becomes r. */
  predicate Goes(q: Parser, ch: Byte, r: Parser) {
    ByteStep(q, ch).Next? && ByteStep(q, ch).p == r
  }

  lemma Onward(p: Parser, s: seq<Byte>, q: Parser, ch: Byte, r: Parser)
    requires Reach(p, s) == Some(q) && Goes(q, ch, r)
    ensures Reach(p, s + [ch]) == Some(r)
  {
    hide Reach, ByteStep;
    ReachConcat(p, s, [ch]);
    ReachByte(q, ch);
  }

  /** The byte that a state of the first line waits for, and the next state. */
  function Letter(s: State): Option<(Byte, State)> {
    match s
    case ResH => Some(('T', ResHT))
    case ResHT => Some(('T', ResHTT))
    case ResHTT => Some(('P', ResHTTP))
    case ResHTTP => Some(('/', ResHttpMajor))
    case ResHttpDot => Some(('.', ResHttpMinor))
    case ResHttpEnd => Some((' ', ResFirstStatusCode))
    case ReqSpacesBeforeUrl => Some(('/', ReqPath))
    case ReqPath => Some((' ', ReqHttpStart))
    case ReqHttpStart => Some(('H', ReqHttpH))
    case ReqHttpH => Some(('T', ReqHttpHT))
    case ReqHttpHT => Some(('T', ReqHttpHTT))
    case ReqHttpHTT => Some(('P', ReqHttpHTTP))
    case ReqHttpHTTP => Some(('/', ReqHttpMajor))
    case ReqHttpDot => Some(('.', ReqHttpMinor))
    case ReqHttpEnd => Some((CR, ReqLineAlmostDone))
    case _ => None
  }

  lemma LetterGoes(q: Parser)
    requires Letter(q.state).Some? && !q.verb.CONNECT? && q.nread + 1 <= q.maxHeaderSize
    ensures var (ch, s) := Letter(q.state).value; Goes(q, ch, q.(state := s, nread := q.nread + 1))
  {
    hide Dispatch, ReqLineStep, ResLineStep;
    var (ch, s) := Letter(q.state).value;
    var r := q.(nread := q.nread + 1);
    DispatchCases(r, ch);
    LetterStep(r);
  }

  lemma LetterStep(r: Parser)
    requires Letter(r.state).Some? && !r.verb.CONNECT?
    ensures var (ch, s) := Letter(r.state).value;
      && (ResLineState(r.state) ==> ResLineStep(r, ch) == To(r, s))
      && (ReqLineState(r.state) ==> ReqLineStep(r, ch).Next? && ReqLineStep(r, ch).p == r.(state := s))
      && (ResLineState(r.state) || ReqLineState(r.state))
  {
  }

  /** One more letter, for the text s' = s and that letter. */
  lemma LetterOn(p: Parser, s: seq<Byte>, q: Parser, s': seq<Byte>) returns (r: Parser)
    requires Reach(p, s) == Some(q)
    requires Letter(q.state).Some? && !q.verb.CONNECT? && q.nread + 1 <= q.maxHeaderSize
    requires s' == s + [Letter(q.state).value.0]
    ensures Reach(p, s') == Some(r) && r == q.(state := Letter(q.state).value.1, nread := q.nread + 1)
  {
    hide Reach, Goes, Letter;
    var (ch, t) := Letter(q.state).value;
    r := q.(state := t, nread := q.nread + 1);
    LetterGoes(q);
    Onward(p, s, q, ch, r);
  }

  lemma VersionLetters(p: Parser)
    requires (p.state.ResH? || p.state.ReqHttpH?) && !p.verb.CONNECT? && p.nread + 4 <= p.maxHeaderSize
    ensures Reach(p, "TTP/") ==
      Some(p.(state := if p.state.ResH? then ResHttpMajor else ReqHttpMajor, nread := p.nread + 4))
  {
    hide Reach;
    ReachNone(p);
    var a := LetterOn(p, "", p, "T");
    var b := LetterOn(p, "T", a, "TT");
    var c := LetterOn(p, "TT", b, "TTP");
    var d := LetterOn(p, "TTP", c, "TTP/");
  }

  lemma UrlLetters(p: Parser)
    requires p.state.ReqSpacesBeforeUrl? && !p.verb.CONNECT? && p.nread + 3 <= p.maxHeaderSize
    ensures Reach(p, "/ H") == Some(p.(state := ReqHttpH, nread := p.nread + 3))
  {
    hide Reach;
    ReachNone(p);
    var a := LetterOn(p, "", p, "/");
    var b := LetterOn(p, "/", a, "/ ");
    var c := LetterOn(p, "/ ", b, "/ H");
  }

  /** The states around a digit of the version, for a request or a response. */
  predicate BeforeDigit(s: State) { s.ResHttpMajor? || s.ReqHttpMajor? || s.ResHttpMinor? || s.ReqHttpMinor? }

  function AfterDigit(p: Parser): Parser
    requires BeforeDigit(p.state)
  {
    match p.state
    case ResHttpMajor => p.(state := ResHttpDot, major := 1)
    case ReqHttpMajor => p.(state := ReqHttpDot, major := 1)
    case ResHttpMinor => p.(state := ResHttpEnd, minor := 1)
    case ReqHttpMinor => p.(state := ReqHttpEnd, minor := 1)
  }

  lemma DigitGoes(q: Parser)
    requires BeforeDigit(q.state) && q.nread + 1 <= q.maxHeaderSize
    ensures Reach(q, "1") == Some(AfterDigit(q.(nread := q.nread + 1)))
  {
    hide Dispatch, ReqLineStep, ResLineStep, Reach, AfterDigit;
    var r := q.(nread := q.nread + 1);
    DispatchCases(r, '1');
    DigitStep(r);
    ReachByte(q, '1');
  }

  lemma DigitStep(r: Parser)
    requires BeforeDigit(r.state)
    ensures ResLineState(r.state) ==> ResLineStep(r, '1') == Next(AfterDigit(r), [])
    ensures ReqLineState(r.state) ==> ReqLineStep(r, '1') == Next(AfterDigit(r), [])
    ensures ResLineState(r.state) || ReqLineState(r.state)
  {
  }

  /** The version, from the letters behind its first one. */
  lemma VersionRead(p: Parser) returns (q: Parser)
    requires (p.state.ResH? || p.state.ReqHttpH?) && !p.verb.CONNECT? && p.nread + 7 <= p.maxHeaderSize
    ensures Reach(p, "TTP/1.1") == Some(q)
    ensures q == p.(state := if p.state.ResH? then ResHttpEnd else ReqHttpEnd, major := 1, minor := 1,
                    nread := p.nread + 7)
  {
    hide Reach;
    assert "TTP/" + "1" == "TTP/1" && "TTP/1." + "1" == "TTP/1.1";
    VersionLetters(p);
    var a := p.(state := if p.state.ResH? then ResHttpMajor else ReqHttpMajor, nread := p.nread + 4);
    DigitGoes(a);
    ReachConcat(p, "TTP/", "1");
    var b := AfterDigit(a.(nread := a.nread + 1));
    var c := LetterOn(p, "TTP/1", b, "TTP/1.");
    DigitGoes(c);
    ReachConcat(p, "TTP/1.", "1");
    q := AfterDigit(c.(nread := c.nread + 1));
  }

  // ----- A status line

  const STATUS_LINE: seq<Byte> := "HTTP/1.1 "

  lemma ResponseBegins(maxHeaderSize: nat) returns (q: Parser)
    requires 9 <= maxHeaderSize < WORD
    ensures Reach(Init(Response, maxHeaderSize), STATUS_LINE) == Some(q)
    ensures q.state.ResFirstStatusCode? && q.kind.Response? && q.nread == 9 && q.maxHeaderSize == maxHeaderSize
    ensures !q.verb.CONNECT?
  {
    hide Reach;
    var p := Init(Response, maxHeaderSize);
    var h := Fresh(p).(state := ResH, nread := 1);
    StartByte(p);
    var v := VersionRead(h);
    ReachConcat(p, "H", "TTP/1.1");
    assert "H" + "TTP/1.1" == "HTTP/1.1";
    q := LetterOn(p, "HTTP/1.1", v, STATUS_LINE);
  }

  lemma StartByte(p: Parser)
    requires p.state.StartRes? && p.nread == 0 && 1 <= p.maxHeaderSize
    ensures Reach(p, "H") == Some(Fresh(p).(state := ResH, nread := 1))
  {
    hide Reach, Dispatch;
    ReachByte(p, 'H');
    StartStep(p.(nread := 1));
  }

  lemma StartStep(p: Parser)
    requires p.state.StartRes?
    ensures Dispatch(p, 'H') == Next(Fresh(p).(state := ResH), [Tell(MessageBegin)])
  {
  }

  lemma CodeDigit(q: Parser, d: Byte)
    requires (q.state.ResFirstStatusCode? || (q.state.ResStatusCode? && q.statusCode < 100)) && IsNum(d)
    requires q.nread + 1 <= q.maxHeaderSize
    ensures Reach(q, [d]) == Some(q.(state := ResStatusCode, nread := q.nread + 1,
      statusCode := if q.state.ResFirstStatusCode? then Digit(d) else q.statusCode * 10 + Digit(d)))
  {
    hide Dispatch, ReqLineStep, StatusCodeStep, Reach;
    var r := q.(nread := q.nread + 1);
    DispatchCases(r, d);
    CodeStep(r, d);
    ReachByte(q, d);
  }

  lemma CodeStep(r: Parser, d: Byte)
    requires (r.state.ResFirstStatusCode? || (r.state.ResStatusCode? && r.statusCode < 100)) && IsNum(d)
    ensures StatusCodeStep(r, d) == Next(r.(state := ResStatusCode,
      statusCode := if r.state.ResFirstStatusCode? then Digit(d) else r.statusCode * 10 + Digit(d)), [])
  {
  }

  lemma CodeEnd(q: Parser)
    requires q.state.ResStatusCode? && q.nread + 1 <= q.maxHeaderSize
    ensures Reach(q, [CR]) == Some(q.(state := ResLineAlmostDone, nread := q.nread + 1, index := 0))
  {
    hide Dispatch, ReqLineStep, StatusCodeStep, Reach;
    var r := q.(nread := q.nread + 1);
    DispatchCases(r, CR);
    CodeEndStep(r);
    ReachByte(q, CR);
  }

  lemma CodeEndStep(r: Parser)
    requires r.state.ResStatusCode?
    ensures StatusCodeStep(r, CR).Next? && StatusCodeStep(r, CR).p == r.(state := ResLineAlmostDone, index := 0)
  {
  }

  function StatusText(x: Byte, y: Byte, z: Byte): seq<Byte> { STATUS_LINE + [x] + [y] + [z] + [CR] }

  /** Every status code of three digits can be read. */
  lemma StatusRead(maxHeaderSize: nat, x: Byte, y: Byte, z: Byte) returns (p: Parser)
    requires 13 <= maxHeaderSize < WORD && IsNum(x) && IsNum(y) && IsNum(z)
    ensures AtHead(Response, maxHeaderSize, StatusText(x, y, z), p) && p.kind.Response? && !p.verb.CONNECT?
    ensures p.statusCode == 100 * Digit(x) + 10 * Digit(y) + Digit(z)
    ensures p.nread == 13 && p.maxHeaderSize == maxHeaderSize
  {
    hide Reach;
    var init := Init(Response, maxHeaderSize);
    var q := ResponseBegins(maxHeaderSize);
    var a := q.(state := ResStatusCode, nread := 10, statusCode := Digit(x));
    var b := a.(nread := 11, statusCode := 10 * Digit(x) + Digit(y));
    var c := b.(nread := 12, statusCode := 100 * Digit(x) + 10 * Digit(y) + Digit(z));
    CodeDigit(q, x);
    ReachConcat(init, STATUS_LINE, [x]);
    CodeDigit(a, y);
    ReachConcat(init, STATUS_LINE + [x], [y]);
    CodeDigit(b, z);
    ReachConcat(init, STATUS_LINE + [x] + [y], [z]);
    CodeEnd(c);
    ReachConcat(init, STATUS_LINE + [x] + [y] + [z], [CR]);
    p := c.(state := ResLineAlmostDone, nread := 13, index := 0);
  }

  // ----- A request line

  const REQUEST_LINE: seq<Byte> := "GET / HTTP/1.1"

  function RequestText(): seq<Byte> { REQUEST_LINE + [CR] }

  lemma MethodByte(q: Parser, ch: Byte)
    requires q.state.ReqMethod? && q.verb.GET? && 1 <= q.index <= 3 && q.nread + 1 <= q.maxHeaderSize
    requires ch == if q.index == 1 then 'E' else if q.index == 2 then 'T' else ' '
    ensures Reach(q, [ch]) == Some(q.(index := q.index + 1, nread := q.nread + 1,
      state := if q.index == 3 then ReqSpacesBeforeUrl else ReqMethod))
  {
    hide Dispatch, Reach, ReqMethodStep;
    var r := q.(nread := q.nread + 1);
    MethodDispatch(r, ch);
    ReachByte(q, ch);
    MethodStep(r, ch);
  }

  lemma MethodDispatch(r: Parser, ch: Byte)
    requires r.state.ReqMethod?
    ensures Dispatch(r, ch) == ReqMethodStep(r, ch)
  {
    hide ReqMethodStep;
  }

  lemma MethodStep(r: Parser, ch: Byte)
    requires r.state.ReqMethod? && r.verb.GET? && 1 <= r.index <= 3
    requires ch == if r.index == 1 then 'E' else if r.index == 2 then 'T' else ' '
    ensures ReqMethodStep(r, ch) == Next(r.(index := r.index + 1,
      state := if r.index == 3 then ReqSpacesBeforeUrl else ReqMethod), [])
  {
    hide OtherMethod;
    assert MethodString(GET) == "GET";
  }

  lemma RequestByte(p: Parser)
    requires p.state.StartReq? && p.nread == 0 && 1 <= p.maxHeaderSize
    ensures Reach(p, "G") == Some(Fresh(p).(state := ReqMethod, index := 1, verb := GET, nread := 1))
  {
    hide Reach, Dispatch;
    ReachByte(p, 'G');
    RequestStep(p.(nread := 1));
  }

  lemma RequestStep(p: Parser)
    requires p.state.StartReq?
    ensures Dispatch(p, 'G') == Next(Fresh(p).(state := ReqMethod, index := 1, verb := GET), [Tell(MessageBegin)])
  {
  }

  lemma MethodRead(maxHeaderSize: nat) returns (q: Parser)
    requires 4 <= maxHeaderSize < WORD
    ensures Reach(Init(Request, maxHeaderSize), "GET ") == Some(q)
    ensures q.state.ReqSpacesBeforeUrl? && q.kind.Request? && q.verb.GET? && q.statusCode == 0
    ensures q.nread == 4 && q.maxHeaderSize == maxHeaderSize
  {
    hide Reach;
    var p := Init(Request, maxHeaderSize);
    var a := Fresh(p).(state := ReqMethod, index := 1, verb := GET, nread := 1);
    RequestByte(p);
    MethodByte(a, 'E');
    ReachConcat(p, "G", "E");
    var b := a.(index := 2, nread := 2);
    MethodByte(b, 'T');
    assert "G" + "E" == "GE" && "GE" + "T" == "GET" && "GET" + " " == "GET ";
    ReachConcat(p, "GE", "T");
    var c := b.(index := 3, nread := 3);
    MethodByte(c, ' ');
    ReachConcat(p, "GET", " ");
    q := c.(index := 4, nread := 4, state := ReqSpacesBeforeUrl);
  }

  lemma RequestRead(maxHeaderSize: nat) returns (p: Parser)
    requires 15 <= maxHeaderSize < WORD
    ensures AtHead(Request, maxHeaderSize, RequestText(), p) && p.kind.Request? && !p.verb.CONNECT?
    ensures p.nread == 15 && p.maxHeaderSize == maxHeaderSize
  {
    hide Reach;
    var init := Init(Request, maxHeaderSize);
    var q := MethodRead(maxHeaderSize);
    UrlLetters(q);
    ReachConcat(init, "GET ", "/ H");
    assert "GET " + "/ H" == "GET / H" && "GET / H" + "TTP/1.1" == REQUEST_LINE;
    var v := VersionRead(q.(state := ReqHttpH, nread := 7));
    ReachConcat(init, "GET / H", "TTP/1.1");
    p := LetterOn(init, REQUEST_LINE, v, RequestText());
  }

  // ----- Bodies that are framed otherwise

  /** The parser frames the body of the message in its own way, and the RFC allows only f. */
  ghost predicate Differs(p: Parser, hs: seq<Header>, own: Framing, f: Framing) {
    && FramingRead(p, hs) == own && own != f
    && forall g: Framing :: RfcAllows(p.kind, p.statusCode, hs, g) <==> g == f
  }

  /** What a head with one field comes to. */
  lemma OneField(kind: Kind, maxHeaderSize: nat, line: seq<Byte>, p: Parser, h: Header)
    requires AtHead(kind, maxHeaderSize, line, p) && !p.verb.CONNECT? && !Named(h, "upgrade")
    requires HeaderOk(h) && p.nread + |LineText(h)| + 3 <= p.maxHeaderSize
    ensures FramingRead(p, [h]) == Decided(p.kind, p.statusCode, Take(NOTHING, h))
    ensures CodingValues([h]) == if Named(h, "transfer-encoding") then [h.value] else []
    ensures LengthValues([h]) == if Named(h, "content-length") then [h.value] else []
  {
    hide Reach, HeaderOk, LineText, Named, Take, AtHead, FramingRead, RfcAllows, FramedRight;
    assert HeadText([h]) == LineText(h) + HeadText([]);
    assert TakeAll(NOTHING, [h]) == Take(NOTHING, h);
    NoSwitch(kind, maxHeaderSize, line, p, [h]);
    FramingOnRuns(kind, maxHeaderSize, line, p, [h]);
  }

  lemma NotUpgrade(h: Header)
    requires Prefixed(h) || Named(h, "content-length") || Named(h, "transfer-encoding")
    ensures !Named(h, "upgrade")
  {
    assert "content-length" != "upgrade" by { assert |"content-length"| != |"upgrade"|; }
    hide Lowered;
  }

  /** A response without a body whose length is announced: the parser waits for the body. */
  lemma AnnouncedLength(maxHeaderSize: nat, x: Byte, y: Byte, z: Byte, h: Header) returns (p: Parser)
    requires IsNum(x) && IsNum(y) && IsNum(z) && Bodiless(100 * Digit(x) + 10 * Digit(y) + Digit(z))
    requires HeaderOk(h) && Named(h, "content-length") && LengthOf(h.value).Some? && LengthOf(h.value).value > 0
    requires 16 + |LineText(h)| <= maxHeaderSize < WORD
    ensures AtHead(Response, maxHeaderSize, StatusText(x, y, z), p)
    ensures Differs(p, [h], Length(LengthOf(h.value).value), NoBody)
  {
    hide Reach, HeaderOk, LengthOf, AtHead, FramingRead, LineText, Named, Bodiless;
    p := StatusRead(maxHeaderSize, x, y, z);
    NotUpgrade(h);
    OneField(Response, maxHeaderSize, StatusText(x, y, z), p, h);
  }

  /** A request with a length that the parser does not read, as one with a tab behind it: it is refused. */
  lemma UnreadLength(maxHeaderSize: nat, h: Header) returns (p: Parser)
    requires HeaderOk(h) && Named(h, "content-length") && LengthOf(h.value).None?
    requires RfcLength(h.value).Some? && 0 < RfcLength(h.value).value <= MAX_CONTENT_LENGTH
    requires 18 + |LineText(h)| <= maxHeaderSize < WORD
    ensures AtHead(Request, maxHeaderSize, RequestText(), p)
    ensures Differs(p, [h], Rejected, Length(RfcLength(h.value).value))
  {
    hide Reach, HeaderOk, LengthOf, RfcLength, AtHead, FramingRead, LineText, Named, Prefixed, RfcAllows;
    p := RequestRead(maxHeaderSize);
    NotUpgrade(h);
    NamedStates(h);
    OneField(Request, maxHeaderSize, RequestText(), p, h);
    LengthAllows([h], h.value);
  }

  lemma LengthAllows(hs: seq<Header>, v: seq<Byte>)
    requires CodingValues(hs) == [] && LengthValues(hs) == [v]
    requires RfcLength(v).Some? && 0 < RfcLength(v).value <= MAX_CONTENT_LENGTH
    ensures forall status: nat, g: Framing :: RfcAllows(Request, status, hs, g) <==> g == Length(RfcLength(v).value)
  {
    hide CodingValues, LengthValues, RfcLength;
    assert CommonLength([v], RfcLength(v).value);
    assert forall n: nat :: CommonLength([v], n) ==> RfcLength([v][0]) == Some(n);
  }

  /** A request with a field whose name goes on behind transfer-encoding: it is refused. */
  lemma LongerName(maxHeaderSize: nat, h: Header) returns (p: Parser)
    requires HeaderOk(h) && Prefixed(h) && !Named(h, "transfer-encoding") && 18 + |LineText(h)| <= maxHeaderSize < WORD
    ensures AtHead(Request, maxHeaderSize, RequestText(), p)
    ensures Differs(p, [h], Rejected, NoBody)
  {
    hide Reach, HeaderOk, AtHead, FramingRead, LineText, Named, Prefixed;
    p := RequestRead(maxHeaderSize);
    NotUpgrade(h);
    NamedStates(h);
    OneField(Request, maxHeaderSize, RequestText(), p, h);
  }

  /** A request whose last coding is overlooked: it is refused. */
  lemma MissedCoding(maxHeaderSize: nat, h: Header, a: seq<Byte>, b: seq<Byte>) returns (p: Parser)
    requires HeaderOk(h) && Named(h, "transfer-encoding") && 18 + |LineText(h)| <= maxHeaderSize < WORD
    requires h.value == a + [','] + b && NoComma(a) && NoComma(b)
    requires (SortOf(a).Part? || SortOf(a).Whole?) && SortOf(Bare(b)).Whole?
    ensures AtHead(Request, maxHeaderSize, RequestText(), p)
    ensures Differs(p, [h], Rejected, InChunks)
  {
    hide Reach, HeaderOk, AtHead, FramingRead, LineText, Named, Prefixed, RfcChunked, Recognized, Starts, NoComma;
    p := RequestRead(maxHeaderSize);
    PartBegins(a);
    TwoCodings(a, b);
    NotUpgrade(h);
    NamedStates(h);
    hide SortOf;
    OneField(Request, maxHeaderSize, RequestText(), p, h);
  }

  lemma PartBegins(a: seq<Byte>)
    requires SortOf(a).Part? || SortOf(a).Whole?
    ensures a != [] && a[0] != ' '
  {
    FirstLetter(a);
  }

  /** A request whose first field is recognized, and whose second one names another last coding: it is read in
      chunks. */
  lemma LaterCoding(maxHeaderSize: nat, g: Header, h: Header) returns (p: Parser)
    requires HeaderOk(g) && Named(g, "transfer-encoding") && Recognized(g.value)
    requires HeaderOk(h) && Named(h, "transfer-encoding") && NoComma(h.value)
    requires !AllSpace(h.value) && !exists i: nat :: SpellsAt(h.value, i)
    requires 18 + |LineText(g)| + |LineText(h)| <= maxHeaderSize < WORD
    ensures AtHead(Request, maxHeaderSize, RequestText(), p)
    ensures Differs(p, [g, h], InChunks, Rejected)
  {
    hide Reach, HeaderOk, AtHead, FramingRead, LineText, Named, Prefixed, RfcChunked, Recognized, NoComma, AllSpace,
      SpellsAt;
    p := RequestRead(maxHeaderSize);
    NotUpgrade(g);
    NotUpgrade(h);
    NamedStates(g);
    NamedStates(h);
    LastJoined(g.value, h.value);
    TwoFields(g, h);
    NoSwitch(Request, maxHeaderSize, RequestText(), p, [g, h]);
    FramingOnRuns(Request, maxHeaderSize, RequestText(), p, [g, h]);
  }

  lemma TwoFields(g: Header, h: Header)
    requires Named(g, "transfer-encoding") && Named(h, "transfer-encoding") && Recognized(g.value)
    ensures TakeAll(NOTHING, [g, h]) == Some(Facts(true, true, None))
    ensures CodingValues([g, h]) == [g.value, h.value] && LengthValues([g, h]) == []
    ensures |HeadText([g, h])| == |LineText(g)| + |LineText(h)|
    ensures Joined([g.value, h.value]) == g.value + [','] + h.value
  {
    FirstEncoding(NOTHING, g, [h]);
    FirstEncoding(Facts(true, true, None), h, []);
    assert [g] + [h] == [g, h] && [h] + [] == [h];
    assert [g.value, h.value][1..] == [h.value] && [g.value] + ([h.value] + []) == [g.value, h.value];
    NoFields(Facts(true, true, None));
    hide Named, Recognized, LineText, TakeAll, CodingValues, LengthValues, HeadText;
  }

  lemma NoFields(f: Facts)
    ensures TakeAll(f, []) == Some(f) && CodingValues([]) == [] == LengthValues([]) && HeadText([]) == []
  {
  }

  lemma FirstEncoding(f: Facts, h: Header, rest: seq<Header>)
    requires Named(h, "transfer-encoding")
    ensures var hs := [h] + rest;
      && TakeAll(f, hs) == TakeAll(Facts(true, f.chunked || Recognized(h.value), f.length), rest)
      && CodingValues(hs) == [h.value] + CodingValues(rest) && LengthValues(hs) == LengthValues(rest)
      && |HeadText(hs)| == |LineText(h)| + |HeadText(rest)|
  {
    NamedStates(h);
    hide Named, Prefixed, Recognized, LineText;
    assert ([h] + rest)[1..] == rest;
  }

  lemma LastJoined(a: seq<Byte>, b: seq<Byte>)
    requires NoComma(b) && !AllSpace(b) && !exists i: nat :: SpellsAt(b, i)
    ensures !RfcChunked(a + [','] + b)
  {
    ElementsSplit(a, b);
    hide Elements, SpellsAt, AllSpace, NoComma;
  }

  // ----- One message of each kind

  const WORD_CHUNKED: seq<Byte> := "chunked"
  const WORD_GZIP: seq<Byte> := "gzip"
  const ENCODING: seq<Byte> := "Transfer-Encoding"
  const LENGTH_FIELD := Header("Content-Length", " ", "5")
  const TAB_FIELD := Header("Content-Length", " ", "5\t")
  const LONGER_FIELD := Header(ENCODING + "s", " ", "none")
  const CHUNKED_FIELD := Header(ENCODING, " ", WORD_CHUNKED)
  const GZIP_FIELD := Header(ENCODING, " ", WORD_GZIP)
  const LIST_FIELD := Header(ENCODING, " ", "c" + [','] + ([' '] + WORD_CHUNKED))

  lemma EncodingIs()
    ensures Lowered(ENCODING) == "transfer-encoding" && Tokens(ENCODING)
    ensures Lowered(ENCODING + "s") == "transfer-encoding" + "s" && Tokens(ENCODING + "s")
  {
    forall i | 0 <= i < 17 ensures Token(ENCODING[i]) == "transfer-encoding"[i] && "transfer-encoding"[i] != '\0' {
      EncodingLetter(i);
    }
    hide Token;
    assert Token('s') == 's' by { TokenS(); }
  }

  lemma TokenS()
    ensures Token('s') == 's'
  {
  }

  lemma EncodingLetter(i: nat)
    requires i < 17
    ensures Token(ENCODING[i]) == "transfer-encoding"[i] && "transfer-encoding"[i] != '\0'
  {
  }

  lemma LengthFieldIs()
    ensures HeaderOk(LENGTH_FIELD) && Named(LENGTH_FIELD, "content-length") && LengthOf(LENGTH_FIELD.value) == Some(5)
    ensures |LineText(LENGTH_FIELD)| == 19
  {
    assert Lowered(LENGTH_FIELD.name) == "content-length";
    LengthOfIs("5", 1);
    assert Decimal("5") == 10 * Decimal("5"[..0]) + 5;
  }

  lemma TabFieldIs()
    ensures HeaderOk(TAB_FIELD) && Named(TAB_FIELD, "content-length") && LengthOf(TAB_FIELD.value) == None
    ensures RfcLength(TAB_FIELD.value) == Some(5) && |LineText(TAB_FIELD)| == 20
  {
    hide Lowered;
    LengthFieldIs();
    LeadingIs("5\t", 1);
    assert "5\t"[..1] == "5";
    LeadingIs("5", 1);
  }

  lemma EncodingFieldsAre()
    ensures HeaderOk(LONGER_FIELD) && HeaderOk(CHUNKED_FIELD) && HeaderOk(GZIP_FIELD) && HeaderOk(LIST_FIELD)
    ensures Prefixed(LONGER_FIELD) && !Named(LONGER_FIELD, "transfer-encoding")
    ensures Named(CHUNKED_FIELD, "transfer-encoding") && Named(GZIP_FIELD, "transfer-encoding")
    ensures Named(LIST_FIELD, "transfer-encoding")
  {
    EncodingIs();
    hide Lowered, Tokens;
    assert ("transfer-encoding" + "s")[..17] == "transfer-encoding";
  }

  lemma CodingsAre()
    ensures SortOf("c").Part? && SortOf(Bare([' '] + WORD_CHUNKED)).Whole? && Recognized(WORD_CHUNKED)
    ensures NoComma("c") && NoComma([' '] + WORD_CHUNKED)
  {
    ChunkedIs();
    assert ([' '] + WORD_CHUNKED)[1..] == WORD_CHUNKED;
    OneElement(WORD_CHUNKED);
    assert [WORD_CHUNKED][..0] == [];
    PartIs();
    hide SortOf;
  }

  lemma PartIs()
    ensures SortOf("c").Part?
  {
    hide Token;
  }

  lemma GzipIs()
    ensures NoComma(WORD_GZIP) && !AllSpace(WORD_GZIP) && !exists i: nat :: SpellsAt(WORD_GZIP, i)
  {
    assert !Space(WORD_GZIP[0]);
    hide Starts;
  }

  lemma ChunkedIs()
    ensures SortOf(WORD_CHUNKED).Whole? && Bare(WORD_CHUNKED) == WORD_CHUNKED && NoComma(WORD_CHUNKED)
  {
    assert WORD_CHUNKED[..7] == WORD_CHUNKED;
    hide Token;
  }

  lemma NotModified()
    ensures Bodiless(100 * Digit('3') + 10 * Digit('0') + Digit('4'))
  {
  }

  /** One message of each kind, under any limit that it keeps. */
  lemma MessageOfEachKind(maxHeaderSize: nat) returns (response: Parser, request: Parser)
    requires 71 <= maxHeaderSize < WORD
    ensures AtHead(Response, maxHeaderSize, StatusText('3', '0', '4'), response)
    ensures AtHead(Request, maxHeaderSize, RequestText(), request)
    ensures Differs(response, [LENGTH_FIELD], Length(5), NoBody)
    ensures Differs(request, [TAB_FIELD], Rejected, Length(5))
    ensures Differs(request, [LONGER_FIELD], Rejected, NoBody)
    ensures Differs(request, [LIST_FIELD], Rejected, InChunks)
    ensures Differs(request, [CHUNKED_FIELD, GZIP_FIELD], InChunks, Rejected)
  {
    hide Reach, HeaderOk, FramingRead, Named, Prefixed, Recognized, NoComma, AllSpace, SpellsAt, SortOf, LengthOf,
      RfcLength, Bodiless, Differs;
    CodingsAre();
    GzipIs();
    assert Bodiless(100 * Digit('3') + 10 * Digit('0') + Digit('4')) by { NotModified(); }
    LengthFieldIs();
    TabFieldIs();
    EncodingFieldsAre();
    response := AnnouncedLength(maxHeaderSize, '3', '0', '4', LENGTH_FIELD);
    request := LongerName(maxHeaderSize, LONGER_FIELD);
    var other := UnreadLength(maxHeaderSize, TAB_FIELD);
    var again := MissedCoding(maxHeaderSize, LIST_FIELD, "c", [' '] + WORD_CHUNKED);
    var last := LaterCoding(maxHeaderSize, CHUNKED_FIELD, GZIP_FIELD);
  }
}
