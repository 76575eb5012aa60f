/** Where the body of a message ends: what the parser makes of a list of header fields, and what the RFC says of it. */
module HttpFraming {
  import opened Wrappers
  import opened HttpTypes
  import opened HttpStep
  import opened HttpRun
  import opened HttpInvariant
  import opened HttpShape
  import opened HttpBlocks
  import opened HttpRounds
  import opened HttpChunked
  import opened HttpHeaders
  import opened HttpCoding
  import opened HttpTransfer
  import opened HttpFirstLine

  // ----- Header fields as text

  datatype Header = Header(name: seq<Byte>, space: seq<Byte>, value: seq<Byte>)

  predicate HeaderOk(h: Header) {
    && h.name != [] && Tokens(h.name) && AllSpace(h.space) && Plain(h.value)
    && (h.value != [] ==> !Space(h.value[0]))
  }

  predicate HeadersOk(hs: seq<Header>) { forall i :: 0 <= i < |hs| ==> HeaderOk(hs[i]) }

  function LineText(h: Header): seq<Byte> { h.name + [':'] + h.space + h.value + [CR] + [LF] }

  function HeadText(hs: seq<Header>): seq<Byte> {
    if hs == [] then [] else LineText(hs[0]) + HeadText(hs[1..])
  }

  predicate Named(h: Header, name: string) { Lowered(h.name) == name }

  /** The name is transfer-encoding, or goes on behind it. */
  predicate Prefixed(h: Header) {
    var w := Lowered(h.name); |w| >= 17 && w[..17] == "transfer-encoding"
  }

  // ----- What the parser keeps of them

  datatype Facts = Facts(encoding: bool, chunked: bool, length: Option<nat>)

  function Leading(v: seq<Byte>): (k: nat)
    ensures k <= |v|
  {
    if v != [] && IsNum(v[0]) then 1 + Leading(v[1..]) else 0
  }

  lemma {:induction false} LeadingDigits(v: seq<Byte>)
    ensures forall i :: 0 <= i < Leading(v) ==> IsNum(v[i])
    ensures Leading(v) < |v| ==> !IsNum(v[Leading(v)])
  {
    if v != [] && IsNum(v[0]) {
      LeadingDigits(v[1..]);
      assert forall i :: 1 <= i < |v| ==> v[i] == v[1..][i - 1];
    }
  }

  /** The length that the parser reads in a value. */
  function LengthOf(v: seq<Byte>): Option<nat> {
    if LengthText(v, Leading(v)) then Some(Decimal(v[..Leading(v)])) else None
  }

  lemma {:induction false} LeadingIs(v: seq<Byte>, k: nat)
    requires k <= |v| && (forall i :: 0 <= i < k ==> IsNum(v[i])) && (k < |v| ==> !IsNum(v[k]))
    ensures k == Leading(v)
  {
    if k > 0 {
      LeadingIs(v[1..], k - 1);
    }
  }

  lemma LengthOfIs(v: seq<Byte>, k: nat)
    requires LengthText(v, k)
    ensures k == Leading(v) && LengthOf(v) == Some(Decimal(v[..k]))
  {
    LeadingIs(v, k);
    hide Decimal;
  }

  function Take(f: Facts, h: Header): Option<Facts> {
    if Named(h, "content-length") then
      if f.length.Some? then None
      else
        match LengthOf(h.value)
        case None => None
        case Some(n) => Some(f.(length := Some(n)))
    else
      Some(f.(encoding := f.encoding || Prefixed(h),
              chunked := f.chunked || (Named(h, "transfer-encoding") && Recognized(h.value))))
  }

  function TakeAll(f: Facts, hs: seq<Header>): Option<Facts>
    decreases |hs|
  {
    if hs == [] then Some(f)
    else
      match Take(f, hs[0])
      case None => None
      case Some(g) => TakeAll(g, hs[1..])
  }

  function FactsOf(p: Parser): Facts {
    Facts(p.usesTransferEncoding, p.flags.chunked, if p.flags.contentLength then Some(p.contentLength) else None)
  }

  // ----- Runs, without the callbacks

  function Reach(p: Parser, bytes: seq<Byte>): Option<Parser> {
    match Run(p, bytes)
    case More(q, _) => Some(q)
    case _ => None
  }

  lemma ReachConcat(p: Parser, a: seq<Byte>, b: seq<Byte>)
    ensures Reach(p, a + b) ==
      match Reach(p, a)
      case None => None
      case Some(q) => Reach(q, b)
  {
    RunConcat(p, a, b);
    hide Run;
  }

  lemma ReachNone(p: Parser)
    ensures Reach(p, []) == Some(p)
  {
  }

  lemma ReachByte(p: Parser, ch: Byte)
    ensures Reach(p, [ch]) == match ByteStep(p, ch)
      case Next(q, _) => Some(q)
      case _ => None
  {
    RunOne(p, ch);
    hide Run, ByteStep;
  }

  // ----- One field

  /** What a header line leaves as it is. */
  predicate SameMessage(p: Parser, q: Parser) {
    && q.kind == p.kind && q.statusCode == p.statusCode && q.verb == p.verb && q.maxHeaderSize == p.maxHeaderSize
    && q.allowChunkedLength == p.allowChunkedLength && q.flags.trailing == p.flags.trailing
    && q.flags.skipBody == p.flags.skipBody
  }

  /** The length field is meaningful only if a length has been given. */
  predicate Linked(p: Parser) { LengthOk(p) && (p.flags.contentLength || p.contentLength == ABSENT) }

  predicate AtHeader(p: Parser) { p.state.HeaderFieldStart? && Linked(p) }

  /** The parser behind a name and its colon. */
  function Colon(p: Parser, h: Header, index: nat): Parser {
    p.(nread := p.nread + |h.name| + 1, state := HeaderValueDiscardWs, index := index,
       headerState := NameState(Lowered(h.name)), usesTransferEncoding := p.usesTransferEncoding || Prefixed(h))
  }

  lemma NamePart(p: Parser, h: Header) returns (index: nat)
    requires AtHeader(p) && HeaderOk(h) && p.nread + |h.name| + 1 <= p.maxHeaderSize
    ensures Reach(p, h.name + [':']) == Some(Colon(p, h, index))
  {
    hide Run, ByteStep, Lowered, NameState, Singles, Tokens, Plain, AllSpace;
    var q := NameBlock(p, h.name);
    index := q.index;
    FieldEndStep(q, ':');
    ReachConcat(p, h.name, [':']);
    ReachByte(q, ':');
    assert Token(':') == '\0';
  }

  lemma {:induction false} SpacePart(q: Parser, s: seq<Byte>)
    requires q.state.HeaderValueDiscardWs? && AllSpace(s) && q.nread + |s| <= q.maxHeaderSize
    ensures Reach(q, s) == Some(q.(nread := q.nread + |s|))
    decreases |s|
  {
    hide Run, ByteStep, Reach;
    ReachNone(q);
    if s != [] {
      var init, last := s[..|s| - 1], s[|s| - 1];
      SpacePart(q, init);
      var r := q.(nread := q.nread + |init|);
      assert s == init + [last] && Space(last);
      ReachConcat(q, init, [last]);
      ReachByte(r, last);
      SpaceByte(r, last);
    }
  }

  lemma SpaceByte(q: Parser, ch: Byte)
    requires q.state.HeaderValueDiscardWs? && Space(ch) && q.nread + 1 <= q.maxHeaderSize
    ensures ByteStep(q, ch) == Next(q.(nread := q.nread + 1), [])
  {
    hide ByteStep, HeaderFieldStep, HeaderValueStep, HeaderValueStartStep, HeadersAlmostDoneStep;
    HeaderByte(q, ch);
  }

  // ----- The value of a header that says nothing about the body

  predicate Calm(h: HeaderState) {
    || h.General? || h.MatchingConnectionTokenStart? || h.MatchingConnectionKeepAlive? || h.MatchingConnectionClose?
    || h.MatchingConnectionUpgrade? || h.MatchingConnectionToken? || h.ConnectionKeepAlive? || h.ConnectionClose?
    || h.ConnectionUpgrade?
  }

  /** Nothing about the body has changed. */
  predicate Carried(p: Parser, q: Parser) {
    SameMessage(p, q) && FactsOf(q) == FactsOf(p) && q.contentLength == p.contentLength
  }

  lemma NameStates(w: string)
    ensures FieldHeaderState(NameState(w))
  {
    hide Begins;
  }

  lemma CalmStart(h: HeaderState, c: char)
    requires FieldHeaderState(h) && !h.ContentLength? && !h.TransferEncoding?
    ensures Calm(ValueStartState(h, c))
  {
  }

  lemma CalmListed(flags: Flags, h: HeaderState)
    ensures var f := Listed(flags, h);
      && f.chunked == flags.chunked && f.contentLength == flags.contentLength && f.trailing == flags.trailing
      && f.skipBody == flags.skipBody && f.upgrade == flags.upgrade
  {
  }

  lemma CalmName(m: Match, ch: Byte)
    requires Calm(m.state)
    ensures Calm(ValueName(m, ch).state)
  {
    var c := Lower(ch);
    MatchedName(m, "keep-alive", c, ConnectionKeepAlive, MatchingConnectionToken);
    MatchedName(m, "close", c, ConnectionClose, MatchingConnectionToken);
    MatchedName(m, "upgrade", c, ConnectionUpgrade, MatchingConnectionToken);
    hide MatchName, Lower, Token;
  }

  predicate Ending(h: HeaderState) { h.ConnectionKeepAlive? || h.ConnectionClose? || h.ConnectionUpgrade? }

  lemma EndingByte(q: Parser, ch: Byte)
    ensures var r := AfterToken(q, ch);
      && Carried(q, r) && r.state == q.state && r.nread == q.nread && r.flags.upgrade == q.flags.upgrade
      && (Ending(q.headerState) ==> Calm(r.headerState))
  {
    CalmListed(q.flags, q.headerState);
    hide Listed;
  }

  lemma CalmByte(q: Parser, ch: Byte)
    requires Calm(q.headerState)
    ensures ValueByte(q, ch).Kept? && var r := ValueByte(q, ch).p;
      && Calm(r.headerState) && Carried(q, r) && r.state == q.state && r.nread == q.nread
      && r.flags.upgrade == q.flags.upgrade
  {
    CalmIsOther(q.headerState);
    if Ending(q.headerState) {
      EndingByte(q, ch);
      hide Carried, AfterToken, Calm;
    } else {
      CalmName(Match(q.index, q.headerState), ch);
      hide ValueName, Calm, AfterToken;
    }
  }

  lemma CalmIsOther(h: HeaderState)
    requires Calm(h)
    ensures ValueHeaderState(h) && !h.ContentLengthNum? && !h.ContentLengthWs?
  {
  }

  lemma {:induction false} CalmRun(q: Parser, v: seq<Byte>)
    requires Calm(q.headerState)
    ensures ValueRun(q, v).Kept? && var r := ValueRun(q, v).p;
      && Calm(r.headerState) && Carried(q, r) && r.state == q.state && r.nread == q.nread
      && r.flags.upgrade == q.flags.upgrade
    decreases |v|
  {
    hide ValueByte, Calm;
    if v != [] {
      CalmRun(q, v[..|v| - 1]);
      CalmByte(ValueRun(q, v[..|v| - 1]).p, v[|v| - 1]);
    }
  }

  lemma CalmFirst(q: Parser, ch: Byte)
    requires q.state.HeaderValueDiscardWs? && FieldHeaderState(q.headerState) && !q.headerState.ContentLength?
    requires !q.headerState.TransferEncoding? && PlainByte(ch) && !Space(ch) && q.nread + 1 <= q.maxHeaderSize
    requires LengthOk(q)
    ensures ByteStep(q, ch).Next? && var r := ByteStep(q, ch).p;
      && ValueSane(r) && Calm(r.headerState) && Carried(q, r) && r.nread == q.nread + 1
      && (r.flags.upgrade ==> q.flags.upgrade || q.headerState.Upgrade?)
  {
    HeaderByte(q, ch);
    CalmStart(q.headerState, Lower(ch));
    ValueStarts(q.headerState, Lower(ch));
    IndexBounds();
    hide ByteStep, Lower, HeaderFieldStep, HeaderValueStep, HeadersAlmostDoneStep, ValueStartState, FieldHeaderState,
      IndexBound, ValueHeaderState, IsHeaderChar, Calm;
  }

  lemma CalmValue(q: Parser, v: seq<Byte>) returns (r: Parser)
    requires q.state.HeaderValueDiscardWs? && FieldHeaderState(q.headerState) && !q.headerState.ContentLength?
    requires !q.headerState.TransferEncoding? && v != [] && Plain(v) && !Space(v[0])
    requires q.nread + |v| <= q.maxHeaderSize && LengthOk(q)
    ensures Reach(q, v) == Some(r) && r.state.HeaderValue? && Calm(r.headerState) && Carried(q, r)
    ensures r.nread == q.nread + |v| && (r.flags.upgrade ==> q.flags.upgrade || q.headerState.Upgrade?)
  {
    hide ByteStep, Run, ValueRun, FieldHeaderState, Calm, LengthOk, ValueSane, PlainByte;
    CalmFirst(q, v[0]);
    var first := ByteStep(q, v[0]).p;
    ReachByte(q, v[0]);
    CalmRun(first, v[1..]);
    ValueBlock(first, v[1..]);
    r := ValueRun(first, v[1..]).p.(nread := first.nread + |v[1..]|);
    ReachConcat(q, [v[0]], v[1..]);
    assert v == [v[0]] + v[1..];
    SaneState(first);
  }

  lemma SaneState(p: Parser)
    requires ValueSane(p)
    ensures p.state.HeaderValue?
  {
  }

  // ----- The end of a line, and the byte that shows that the header is complete

  lemma LineEnd(r: Parser)
    requires r.state.HeaderValue? && r.nread + 2 <= r.maxHeaderSize
    ensures Reach(r, [CR] + [LF]) == Some(r.(state := HeaderValueLws, nread := r.nread + 2))
  {
    hide Reach, ByteStep;
    var a := r.(state := HeaderAlmostDone, nread := r.nread + 1);
    ValueLineEnd(r);
    LineFeed(a);
    ReachByte(r, CR);
    ReachByte(a, LF);
    ReachConcat(r, [CR], [LF]);
  }

  lemma EmptyEnd(q: Parser)
    requires q.state.HeaderValueDiscardWs? && q.nread + 2 <= q.maxHeaderSize
    ensures Reach(q, [CR] + [LF]) == Some(q.(state := HeaderValueDiscardLws, nread := q.nread + 2))
  {
    hide Reach, ByteStep;
    var a := q.(state := HeaderValueDiscardWsAlmostDone, nread := q.nread + 1);
    EmptyLineEnd(q);
    EmptyLineFeed(a);
    ReachByte(q, CR);
    ReachByte(a, LF);
    ReachConcat(q, [CR], [LF]);
  }

  lemma EmptyLineEnd(q: Parser)
    requires q.state.HeaderValueDiscardWs? && q.nread + 1 <= q.maxHeaderSize
    ensures ByteStep(q, CR) == Next(q.(state := HeaderValueDiscardWsAlmostDone, nread := q.nread + 1), [])
  {
    hide ByteStep, HeaderFieldStep, HeaderValueStep, HeaderValueStartStep, HeadersAlmostDoneStep;
    HeaderByte(q, CR);
  }

  lemma EmptyLineFeed(q: Parser)
    requires q.state.HeaderValueDiscardWsAlmostDone? && q.nread + 1 <= q.maxHeaderSize
    ensures ByteStep(q, LF) == Next(q.(state := HeaderValueDiscardLws, nread := q.nread + 1), [])
  {
    hide ByteStep, HeaderFieldStep, HeaderValueStep, HeaderValueStartStep, HeadersAlmostDoneStep;
    HeaderByte(q, LF);
  }

  /** Behind the line feed of a header line. */
  predicate Between(q: Parser) { q.state.HeaderValueLws? || q.state.HeaderValueDiscardLws? }

  /** An empty Content-Length, which the next byte will show. */
  predicate Doomed(q: Parser) { q.state.HeaderValueDiscardLws? && q.headerState.ContentLength? }

  /** The parser as if it already knew that the header is complete. */
  function Settled(q: Parser): Parser { Concluded(q).(state := HeaderFieldStart) }

  /** The first byte of the next line, or the CR of the empty line, does what it does after a complete header. */
  lemma NextLine(q: Parser, ch: Byte)
    requires Between(q) && (ch == CR || Token(ch) != '\0') && q.nread + 1 <= q.maxHeaderSize
    ensures Reach(q, [ch]) == if Doomed(q) then None else Reach(Settled(q), [ch])
  {
    hide ByteStep, HeaderStep, Reach, Concluded, Token;
    HeaderByte(q, ch);
    HeaderByte(Settled(q), ch);
    ReachByte(q, ch);
    ReachByte(Settled(q), ch);
    ConcludedCounted(q, q.nread + 1);
    BetweenStep(q.(nread := q.nread + 1), ch);
  }

  lemma BetweenStep(q: Parser, ch: Byte)
    requires Between(q) && (ch == CR || Token(ch) != '\0')
    ensures var o, u := HeaderStep(q, ch), HeaderStep(Settled(q), ch);
      if Doomed(q) then o.Fail? else o.Next? && u.Next? && o.p == u.p
  {
    NotBlank(ch);
    FieldStartGoesOn(Settled(q), ch);
    hide Concluded, Token, HeaderFieldStartStep, HeaderFieldStep, HeaderValueStep, HeaderValueStartStep,
      HeadersAlmostDoneStep;
  }

  lemma ConcludedCounted(q: Parser, n: nat)
    ensures Concluded(q.(nread := n)) == Concluded(q).(nread := n)
    ensures Concluded(q).maxHeaderSize == q.maxHeaderSize && Concluded(q).nread == q.nread
  {
    hide Listed;
  }

  lemma NotBlank(ch: Byte)
    requires ch == CR || Token(ch) != '\0'
    ensures ch != ' ' && ch != '\t' && ch != LF
  {
  }

  lemma FieldStartGoesOn(p: Parser, ch: Byte)
    requires ch == CR || (Token(ch) != '\0' && ch != LF)
    ensures HeaderFieldStartStep(p, ch).Next?
  {
    hide Token, HeadersAlmostDoneStep, FieldStartState;
  }

  // ----- A whole line

  /** The parser where the value begins, or where an empty one ends. */
  function AtValue(p: Parser, h: Header, index: nat): Parser {
    var q := Colon(p, h, index);
    q.(nread := q.nread + |h.space|)
  }

  lemma BeforeValue(p: Parser, h: Header) returns (index: nat)
    requires AtHeader(p) && HeaderOk(h) && p.nread + |h.name| + 1 + |h.space| <= p.maxHeaderSize
    ensures Reach(p, h.name + [':'] + h.space) == Some(AtValue(p, h, index))
  {
    hide Reach, Tokens, AllSpace, Plain, Prefixed, NameState, Lowered;
    index := NamePart(p, h);
    SpacePart(Colon(p, h, index), h.space);
    ReachConcat(p, h.name + [':'], h.space);
  }

  /** Whether q, behind the line h, is what the facts say. */
  predicate Took(p: Parser, h: Header, q: Parser) {
    && Between(q) && SameMessage(p, q) && q.nread == p.nread + |LineText(h)|
    && (q.flags.upgrade ==> p.flags.upgrade || Named(h, "upgrade"))
    && match Take(FactsOf(p), h)
       case None => Doomed(q)
       case Some(g) => !Doomed(q) && FactsOf(Settled(q)) == g && Linked(Settled(q))
  }

  lemma SettledSame(q: Parser)
    ensures SameMessage(q, Settled(q)) && Settled(q).contentLength == q.contentLength
    ensures Settled(q).state.HeaderFieldStart?
    ensures Settled(q).flags.contentLength == q.flags.contentLength && Settled(q).flags.upgrade == q.flags.upgrade
    ensures Settled(q).usesTransferEncoding == q.usesTransferEncoding && Settled(q).nread == q.nread
    ensures Settled(q).flags.chunked <==> q.flags.chunked || q.headerState.TransferEncodingChunked?
  {
    CalmListed(q.flags, q.headerState);
    hide Listed;
  }

  lemma NamedStates(h: Header)
    ensures var s := NameState(Lowered(h.name));
      && (s.ContentLength? <==> Named(h, "content-length"))
      && (s.TransferEncoding? <==> Named(h, "transfer-encoding")) && (s.Upgrade? <==> Named(h, "upgrade"))
      && FieldHeaderState(s) && !s.TransferEncodingChunked?
    ensures Named(h, "transfer-encoding") ==> Prefixed(h) && !Named(h, "content-length")
    ensures Named(h, "content-length") ==> !Prefixed(h)
  {
    WholeNames(Lowered(h.name));
    NameStates(Lowered(h.name));
    assert "content-length"[0] == 'c' && "transfer-encoding"[0] == 't';
    hide NameState, Lowered;
  }

  lemma NothingRead()
    ensures LengthOf([]) == None && !Recognized([])
  {
    hide Decimal;
    assert SortOf(Bare([])).Blank?;
  }

  /** A line without a value. */
  lemma EmptyTook(p: Parser, h: Header, index: nat) returns (q: Parser)
    requires AtHeader(p) && HeaderOk(h) && h.value == [] && p.nread + |LineText(h)| <= p.maxHeaderSize
    ensures Reach(AtValue(p, h, index), [CR] + [LF]) == Some(q) && Took(p, h, q)
  {
    hide Reach, Settled, NameState, Lowered, LengthOf, Recognized, Tokens, Plain, AllSpace, Named, Prefixed;
    var a := AtValue(p, h, index);
    EmptyEnd(a);
    q := a.(state := HeaderValueDiscardLws, nread := a.nread + 2);
    SettledSame(q);
    NamedStates(h);
    NothingRead();
  }

  /** A line with any value but that of a length or a coding. */
  lemma CalmTook(p: Parser, h: Header, index: nat) returns (q: Parser)
    requires AtHeader(p) && HeaderOk(h) && h.value != [] && p.nread + |LineText(h)| <= p.maxHeaderSize
    requires !Named(h, "content-length") && !Named(h, "transfer-encoding")
    ensures Reach(AtValue(p, h, index), h.value + ([CR] + [LF])) == Some(q) && Took(p, h, q)
  {
    hide Reach, Settled, NameState, Lowered, LengthOf, Recognized, Tokens, Plain, AllSpace, Named, Prefixed, Calm,
      FieldHeaderState;
    var a := AtValue(p, h, index);
    NamedStates(h);
    var r := CalmValue(a, h.value);
    LineEnd(r);
    ReachConcat(a, h.value, [CR] + [LF]);
    q := r.(state := HeaderValueLws, nread := r.nread + 2);
    CalmNotChunked(r.headerState);
    SettledSame(q);
  }

  lemma CalmNotChunked(h: HeaderState)
    requires Calm(h)
    ensures !h.TransferEncodingChunked?
  {
  }

  /** A line with codings. */
  lemma CodingsTook(p: Parser, h: Header, index: nat) returns (q: Parser)
    requires AtHeader(p) && HeaderOk(h) && h.value != [] && p.nread + |LineText(h)| <= p.maxHeaderSize
    requires Named(h, "transfer-encoding")
    ensures Reach(AtValue(p, h, index), h.value + ([CR] + [LF])) == Some(q) && Took(p, h, q)
  {
    hide Run, Settled, NameState, Lowered, LengthOf, Recognized, Tokens, Plain, AllSpace, Named, Prefixed, Fold,
      FieldHeaderState, Singles;
    var a := AtValue(p, h, index);
    NamedStates(h);
    CodingsRun(a, h.value);
    RecognizedExactly(h.value);
    var r := WithCodings(a.(nread := a.nread + |h.value|), h.value);
    LineEnd(r);
    ReachConcat(a, h.value, [CR] + [LF]);
    q := r.(state := HeaderValueLws, nread := r.nread + 2);
    SettledSame(q);
  }

  /** A second length. */
  lemma SecondLength(a: Parser, ch: Byte)
    requires a.state.HeaderValueDiscardWs? && a.headerState.ContentLength? && a.flags.contentLength
    requires PlainByte(ch) && !Space(ch)
    ensures Reach(a, [ch]) == None
  {
    hide ByteStep, Reach, HeaderFieldStep, HeaderValueStep, HeadersAlmostDoneStep, IsHeaderChar;
    HeaderByte(a, ch);
    ReachByte(a, ch);
  }

  lemma GuardedMax(ds: seq<Byte>, k: nat)
    requires LengthText(ds, k)
    ensures Decimal(ds[..k]) <= MAX_CONTENT_LENGTH
  {
    assert ds[..k][..k - 1] == ds[..k - 1];
  }

  lemma PlainHasNoBreaks(v: seq<Byte>)
    requires Plain(v)
    ensures forall i :: 0 <= i < |v| ==> !Breaks(v[i])
  {
    hide IsHeaderChar;
  }

  /** A line with the first length, which is a number of k digits. */
  lemma LengthTaken(p: Parser, h: Header, index: nat, k: nat) returns (q: Option<Parser>)
    requires AtHeader(p) && HeaderOk(h) && !p.flags.contentLength && p.nread + |LineText(h)| <= p.maxHeaderSize
    requires Named(h, "content-length") && LengthText(h.value, k)
    ensures q.Some? && Took(p, h, q.value) && Take(FactsOf(p), h).Some?
    ensures Reach(AfterLength(AtValue(p, h, index), h.value, k), [CR] + [LF]) == q
  {
    hide Reach, Settled, NameState, Lowered, Recognized, Tokens, Plain, AllSpace, Prefixed, Singles, Decimal,
      LengthText, AfterLength, Named;
    var a := AtValue(p, h, index);
    NamedStates(h);
    LengthOfIs(h.value, k);
    GuardedMax(h.value, k);
    var r := AfterLength(a, h.value, k);
    AfterLengthIs(a, h.value, k);
    LineEnd(r);
    q := Some(r.(state := HeaderValueLws, nread := r.nread + 2));
    SettledSame(q.value);
  }

  /** A line with a length. */
  lemma LengthTook(p: Parser, h: Header, index: nat) returns (q: Option<Parser>)
    requires AtHeader(p) && HeaderOk(h) && h.value != [] && p.nread + |LineText(h)| <= p.maxHeaderSize
    requires Named(h, "content-length")
    ensures Reach(AtValue(p, h, index), h.value + ([CR] + [LF])) == q
    ensures if q.Some? then Took(p, h, q.value) && Take(FactsOf(p), h).Some? else Take(FactsOf(p), h).None?
  {
    hide Run, Settled, NameState, Lowered, Recognized, Tokens, Plain, AllSpace, Named, Prefixed, FieldHeaderState,
      Singles, Decimal, PlainByte, LengthText;
    var a, v := AtValue(p, h, index), h.value;
    NamedStates(h);
    ReachConcat(a, v, [CR] + [LF]);
    if p.flags.contentLength {
      assert PlainByte(v[0]) by { PlainParts(v); }
      SecondLength(a, v[0]);
      ReachConcat(a, [v[0]], v[1..]);
      assert v == [v[0]] + v[1..];
      q := None;
    } else {
      PlainHasNoBreaks(v);
      LengthAccepted(a, v);
      if k: nat :| LengthText(v, k) {
        q := LengthTaken(p, h, index, k);
      } else {
        q := None;
      }
    }
  }

  lemma AfterLengthIs(a: Parser, v: seq<Byte>, k: nat)
    requires LengthText(v, k)
    ensures var r := AfterLength(a, v, k);
      && r.state.HeaderValue? && r.nread == a.nread + |v| && SameMessage(a, r) && r.flags.chunked == a.flags.chunked
      && r.usesTransferEncoding == a.usesTransferEncoding && r.flags.contentLength
      && r.contentLength == Decimal(v[..k]) && !r.headerState.TransferEncodingChunked?
      && r.flags.upgrade == a.flags.upgrade
  {
    hide Decimal;
  }

  lemma LineRead(p: Parser, h: Header) returns (q: Option<Parser>)
    requires AtHeader(p) && HeaderOk(h) && p.nread + |LineText(h)| <= p.maxHeaderSize
    ensures Reach(p, LineText(h)) == q
    ensures if q.Some? then Took(p, h, q.value) else Take(FactsOf(p), h).None?
  {
    hide Reach, HeaderOk, Took, Take, Named, Prefixed, Lowered, NameState, AtValue;
    LineParts(h);
    var index := BeforeValue(p, h);
    var front := h.name + [':'] + h.space;
    ReachConcat(p, front, h.value + ([CR] + [LF]));
    if h.value == [] {
      var r := EmptyTook(p, h, index);
      assert h.value + ([CR] + [LF]) == [CR] + [LF];
      q := Some(r);
    } else if Named(h, "content-length") {
      q := LengthTook(p, h, index);
    } else if Named(h, "transfer-encoding") {
      var r := CodingsTook(p, h, index);
      q := Some(r);
    } else {
      var r := CalmTook(p, h, index);
      q := Some(r);
    }
  }

  lemma LineParts(h: Header)
    ensures LineText(h) == (h.name + [':'] + h.space) + (h.value + ([CR] + [LF]))
    ensures |h.name| + 1 + |h.space| <= |LineText(h)|
  {
  }

  /** The byte behind a line. */
  lemma NextByte(hs: seq<Header>)
    requires HeadersOk(hs)
    ensures var t := HeadText(hs) + [CR]; t != [] && (t[0] == CR || Token(t[0]) != '\0')
  {
    if hs != [] {
      assert HeaderOk(hs[0]);
      assert HeadText(hs)[0] == hs[0].name[0];
    }
    hide Token, Plain, AllSpace;
  }

  /** What follows a complete line is read as behind a complete header. */
  lemma Resumed(q: Parser, t: seq<Byte>)
    requires Between(q) && t != [] && (t[0] == CR || Token(t[0]) != '\0') && q.nread + 1 <= q.maxHeaderSize
    ensures Reach(q, t) == if Doomed(q) then None else Reach(Settled(q), t)
  {
    hide Reach, Settled, Token;
    NextLine(q, t[0]);
    assert t == [t[0]] + t[1..];
    ReachConcat(q, [t[0]], t[1..]);
    ReachConcat(Settled(q), [t[0]], t[1..]);
  }

  predicate AsksUpgrade(hs: seq<Header>) { exists i :: 0 <= i < |hs| && Named(hs[i], "upgrade") }

  /** Whether q, behind the CR of the empty line, is what the facts say. */
  predicate Headed(p: Parser, hs: seq<Header>, f: Facts, q: Parser) {
    && q.state.HeadersAlmostDone? && SameMessage(p, q) && FactsOf(q) == f && Linked(q)
    && (q.flags.upgrade ==> p.flags.upgrade || AsksUpgrade(hs))
  }

  lemma UpgradeAsked(hs: seq<Header>)
    requires hs != [] && (Named(hs[0], "upgrade") || AsksUpgrade(hs[1..]))
    ensures AsksUpgrade(hs)
  {
    hide Named;
    if i :| 0 <= i < |hs[1..]| && Named(hs[1..][i], "upgrade") {
      assert hs[i + 1] == hs[1..][i];
    }
  }

  /** A list of header fields is read as the facts say, and refused exactly if they say so. */
  lemma {:induction false} HeadRead(p: Parser, hs: seq<Header>) returns (q: Option<Parser>)
    requires AtHeader(p) && HeadersOk(hs) && p.nread + |HeadText(hs)| + 1 <= p.maxHeaderSize
    ensures Reach(p, HeadText(hs) + [CR]) == q && (q.Some? ==> q.value.nread == p.nread + |HeadText(hs)| + 1)
    ensures match TakeAll(FactsOf(p), hs) case None => q.None? case Some(f) => q.Some? && Headed(p, hs, f, q.value)
    decreases |hs|
  {
    hide Reach, HeaderOk, Settled, LineText, Take, Linked, Named, AsksUpgrade;
    if hs == [] {
      EmptyTrailer(p);
      ReachByte(p, CR);
      assert HeadText(hs) + [CR] == [CR];
      q := Some(p.(state := HeadersAlmostDone, nread := p.nread + 1));
      LinkedSame(p, q.value);
      hide ByteStep;
    } else {
      var line, rest := LineText(hs[0]), HeadText(hs[1..]) + [CR];
      assert HeadText(hs) + [CR] == line + rest;
      assert HeaderOk(hs[0]) && HeadersOk(hs[1..]);
      ReachConcat(p, line, rest);
      var r := LineRead(p, hs[0]);
      if r.None? {
        q := None;
      } else {
        NextByte(hs[1..]);
        Resumed(r.value, rest);
        if Doomed(r.value) {
          q := None;
        } else {
          SettledSame(r.value);
          q := HeadRead(Settled(r.value), hs[1..]);
          HeadedLater(p, hs, r.value, q);
        }
      }
    }
  }

  /** What the later lines say of the parser behind the first one, they say of the parser before it. */
  lemma HeadedLater(p: Parser, hs: seq<Header>, r: Parser, q: Option<Parser>)
    requires hs != [] && Took(p, hs[0], r)
    requires q.Some? ==> Headed(Settled(r), hs[1..], FactsOf(q.value), q.value)
    ensures q.Some? ==> Headed(p, hs, FactsOf(q.value), q.value)
  {
    SettledSame(r);
    if q.Some? && q.value.flags.upgrade && !p.flags.upgrade {
      UpgradeAsked(hs);
    }
    hide Settled, LineText, Take, Linked, Named, AsksUpgrade;
  }

  lemma LinkedSame(p: Parser, q: Parser)
    requires q.contentLength == p.contentLength && q.flags == p.flags && q.maxHeaderSize == p.maxHeaderSize
    ensures Linked(p) == Linked(q)
  {
  }

  // ----- What the RFC says

  // How the length of a message body is determined; or what becomes of the message instead.
  datatype Framing = NoBody | InChunks | Length(n: nat) | UntilClose | Rejected | OtherProtocol

  predicate Bodiless(status: nat) { status / 100 == 1 || status == 204 || status == 304 }

  function CodingValues(hs: seq<Header>): seq<seq<Byte>> {
    if hs == [] then []
    else (if Named(hs[0], "transfer-encoding") then [hs[0].value] else []) + CodingValues(hs[1..])
  }

  function LengthValues(hs: seq<Header>): seq<seq<Byte>> {
    if hs == [] then []
    else (if Named(hs[0], "content-length") then [hs[0].value] else []) + LengthValues(hs[1..])
  }

  /** Section 3.2.2 of RFC 7230: fields of the same name are one list. */
  function Joined(vs: seq<seq<Byte>>): seq<Byte> {
    if vs == [] then [] else if |vs| == 1 then vs[0] else vs[0] + [','] + Joined(vs[1..])
  }

  /** Section 3.3.2 of RFC 7230: a number, apart from the white space behind it. */
  function RfcLength(v: seq<Byte>): Option<nat> {
    LeadingDigits(v);
    var k := Leading(v);
    if k > 0 && AllSpace(v[k..]) then Some(Decimal(v[..k])) else None
  }

  /** The one length that all the fields say. */
  predicate CommonLength(vs: seq<seq<Byte>>, n: nat) { forall i :: 0 <= i < |vs| ==> RfcLength(vs[i]) == Some(n) }

  /** A message may be refused for its length fields if there are several, or the one is no number, or too large for a
      counter of 64 bits with the guard that the parser has. */
  predicate MayRefuse(vs: seq<seq<Byte>>) {
    |vs| > 1 || (|vs| == 1 && (RfcLength(vs[0]).None? || RfcLength(vs[0]).value > MAX_CONTENT_LENGTH))
  }

  /** Section 3.3.3 of RFC 7230, for messages that are neither responses to HEAD requests nor have to do with
      CONNECT. */
  ghost predicate RfcAllows(kind: Kind, status: nat, hs: seq<Header>, f: Framing) {
    var codings, lengths := CodingValues(hs), LengthValues(hs);
    if kind.Response? && Bodiless(status) then f == NoBody
    else if codings != [] then
      || f == (if RfcChunked(Joined(codings)) then InChunks else if kind.Response? then UntilClose else Rejected)
      || (lengths != [] && f == Rejected)
    else if lengths != [] then
      || (exists n: nat :: CommonLength(lengths, n) && f == if n == 0 then NoBody else Length(n))
      || (MayRefuse(lengths) && f == Rejected)
    else f == if kind.Request? then NoBody else UntilClose
  }

  // ----- What the parser decides

  function Decided(kind: Kind, status: nat, taken: Option<Facts>): Framing {
    match taken
    case None => Rejected
    case Some(f) =>
      if f.encoding && f.length.Some? then Rejected
      else if f.chunked then InChunks
      else if f.encoding then if kind.Request? then Rejected else UntilClose
      else if f.length.Some? then if f.length.value == 0 then NoBody else Length(f.length.value)
      else if kind.Request? || Bodiless(status) then NoBody
      else UntilClose
  }

  const NOTHING := Facts(false, false, None)

  predicate AnyPrefixed(hs: seq<Header>) { exists i :: 0 <= i < |hs| && Prefixed(hs[i]) }

  predicate AnyRecognized(vs: seq<seq<Byte>>) { exists i :: 0 <= i < |vs| && Recognized(vs[i]) }

  /** When that is what the RFC says: a status without a body comes with no field that announces one; a transfer coding
      is recognized in some field exactly if the last coding of all fields together is chunked; no other field has a
      name that goes on behind transfer-encoding; and a length is a number that the parser reads. */
  ghost predicate FramedRight(kind: Kind, status: nat, hs: seq<Header>) {
    var codings, lengths := CodingValues(hs), LengthValues(hs);
    if kind.Response? && Bodiless(status) then
      !AnyPrefixed(hs) && (lengths == [] || (|lengths| == 1 && LengthOf(lengths[0]) == Some(0)))
    else if codings != [] then lengths != [] || (AnyRecognized(codings) <==> RfcChunked(Joined(codings)))
    else if AnyPrefixed(hs) then if lengths == [] then kind.Response? else MayRefuse(lengths)
    else lengths == [] || LengthOf(lengths[0]).Some? || MayRefuse(lengths)
  }

  lemma LengthIsRfc(v: seq<Byte>)
    ensures LengthOf(v).Some? ==> RfcLength(v) == LengthOf(v) && LengthOf(v).value <= MAX_CONTENT_LENGTH
  {
    if LengthOf(v).Some? {
      GuardedMax(v, Leading(v));
      assert forall i :: Leading(v) <= i < |v| ==> v[i] == ' ';
    }
    hide Decimal;
  }

  lemma {:induction false} TakenIs(f: Facts, hs: seq<Header>)
    ensures var lengths, codings := LengthValues(hs), CodingValues(hs);
      match TakeAll(f, hs)
      case None => (f.length.Some? && lengths != []) || |lengths| > 1 || (lengths != [] && LengthOf(lengths[0]).None?)
      case Some(g) =>
        && |lengths| <= 1 && (lengths == [] || (f.length.None? && LengthOf(lengths[0]).Some?))
        && (g.encoding <==> f.encoding || AnyPrefixed(hs))
        && (g.chunked <==> f.chunked || AnyRecognized(codings))
        && g.length == if lengths == [] then f.length else LengthOf(lengths[0])
    decreases |hs|
  {
    hide LengthOf, Recognized, Prefixed, Named;
    if hs != [] {
      var h, rest := hs[0], hs[1..];
      NamedStates(h);
      FirstPrefixed(hs);
      FirstRecognized(h.value, CodingValues(rest));
      var g := Take(f, h);
      if g.Some? {
        TakenIs(g.value, rest);
        hide AnyPrefixed, AnyRecognized;
      }
    }
  }

  lemma FirstPrefixed(hs: seq<Header>)
    requires hs != []
    ensures AnyPrefixed(hs) <==> Prefixed(hs[0]) || AnyPrefixed(hs[1..])
  {
    hide Prefixed;
    if i :| 0 <= i < |hs| && Prefixed(hs[i]) {
      assert i == 0 || hs[1..][i - 1] == hs[i];
    }
    if i :| 0 <= i < |hs[1..]| && Prefixed(hs[1..][i]) {
      assert hs[i + 1] == hs[1..][i];
    }
  }

  lemma FirstRecognized(v: seq<Byte>, vs: seq<seq<Byte>>)
    ensures AnyRecognized([v] + vs) <==> Recognized(v) || AnyRecognized(vs)
    ensures [] + vs == vs
  {
    hide Recognized;
    if Recognized(v) {
      assert ([v] + vs)[0] == v;
    }
    if i :| 0 <= i < |vs| && Recognized(vs[i]) {
      assert ([v] + vs)[i + 1] == vs[i];
    }
  }

  lemma {:induction false} CodingsPrefixed(hs: seq<Header>)
    ensures CodingValues(hs) != [] ==> AnyPrefixed(hs)
    decreases |hs|
  {
    hide Prefixed, Named;
    if hs != [] {
      NamedStates(hs[0]);
      CodingsPrefixed(hs[1..]);
      FirstPrefixed(hs);
      hide AnyPrefixed;
    }
  }

  /** The decision is one that the RFC allows exactly then. */
  lemma DecisionIsRfc(kind: Kind, status: nat, hs: seq<Header>)
    requires !kind.Both?
    ensures RfcAllows(kind, status, hs, Decided(kind, status, TakeAll(NOTHING, hs))) <==> FramedRight(kind, status, hs)
  {
    var lengths := LengthValues(hs);
    TakenIs(NOTHING, hs);
    CodingsPrefixed(hs);
    if lengths != [] {
      LengthIsRfc(lengths[0]);
    }
    if |lengths| == 1 && LengthOf(lengths[0]).Some? {
      assert CommonLength(lengths, LengthOf(lengths[0]).value);
    }
    hide TakeAll, LengthValues, CodingValues, LengthOf, RfcLength, AnyPrefixed, AnyRecognized, RfcChunked, Bodiless;
  }

  // ----- Whole heads of messages

  /** What the outcome of the line feed behind the headers means. */
  function FramingOf(o: Outcome): Framing {
    match o
    case Next(q, _) =>
      if q.state.ChunkSizeStart? then InChunks
      else if q.state.BodyIdentity? then Length(q.contentLength)
      else if q.state.BodyIdentityEof? then UntilClose
      else NoBody
    case Stop(_, _) => OtherProtocol
    case Fail(_) => Rejected
    case Abort => Rejected
  }

  /** The message asks for another protocol, or is about a tunnel. */
  predicate Switches(q: Parser) { q.verb.CONNECT? || (q.flags.upgrade && q.flags.connectionUpgrade) }

  /** The headers are over, and the rest is up to the facts. */
  predicate Ready(q: Parser) {
    && q.state.HeadersAlmostDone? && !q.kind.Both? && !q.flags.trailing && !q.flags.skipBody && !q.allowChunkedLength
    && !Switches(q) && Linked(q) && (q.flags.chunked ==> q.usesTransferEncoding)
  }

  lemma HeadersDoneDecides(p: Parser)
    requires !p.upgrade && !p.flags.skipBody && !p.kind.Both? && Linked(p)
    requires (p.flags.chunked ==> p.usesTransferEncoding) && !(p.usesTransferEncoding && p.flags.contentLength)
    ensures FramingOf(HeadersDoneStep(p)) == Decided(p.kind, p.statusCode, Some(FactsOf(p)))
    ensures var o := HeadersDoneStep(p); FramingOf(o).InChunks? ==> o.Next? && AtChunk(o.p)
  {
    NewMessageOutside(p.(nread := 0));
    hide ShouldKeepAlive;
  }

  lemma HeadDecides(q: Parser)
    requires Ready(q) && q.nread + 1 <= q.maxHeaderSize
    ensures var o := ByteStep(q, LF);
      && FramingOf(o) == Decided(q.kind, q.statusCode, Some(FactsOf(q)))
      && (FramingOf(o).InChunks? ==> o.Next? && AtChunk(o.p))
  {
    hide ByteStep, HeadersDoneStep, HeadersAlmostDoneStep, HeaderFieldStep, HeaderValueStep, HeaderFieldStartStep,
      HeaderValueStartStep, AtChunk, Bodiless;
    HeaderByte(q, LF);
    var r := q.(nread := q.nread + 1);
    if !(q.usesTransferEncoding && q.flags.contentLength) {
      HeadersDoneDecides(r.(state := HeadersDone, upgrade := false));
    }
    AlmostDone(r);
  }

  lemma AlmostDone(r: Parser)
    requires Ready(r)
    ensures var o, u := HeadersAlmostDoneStep(r, LF), HeadersDoneStep(r.(state := HeadersDone, upgrade := false));
      if r.usesTransferEncoding && r.flags.contentLength then o.Fail?
      else FramingOf(o) == FramingOf(u) && (u.Next? ==> o.Next? && o.p == u.p)
  {
    hide HeadersDoneStep, MessageDoneStep;
  }

  predicate LineDone(s: State) { s.ReqLineAlmostDone? || s.ResLineAlmostDone? }

  lemma LineDoneStep(p: Parser)
    requires LineDone(p.state) && p.nread + 1 <= p.maxHeaderSize
    ensures ByteStep(p, LF) == Next(p.(state := HeaderFieldStart, nread := p.nread + 1), [])
  {
    hide Dispatch, ReqLineStep, ResLineStep;
    DispatchCases(p.(nread := p.nread + 1), LF);
    LineDoneExpects(p.(nread := p.nread + 1));
  }

  lemma LineDoneExpects(p: Parser)
    ensures p.state.ReqLineAlmostDone? ==> ReqLineStep(p, LF) == To(p, HeaderFieldStart)
    ensures p.state.ResLineAlmostDone? ==> ResLineStep(p, LF) == To(p, HeaderFieldStart)
  {
  }

  /** The bytes from the end of the first line to the CR of the empty line. */
  function HeadBytes(hs: seq<Header>): seq<Byte> { [LF] + HeadText(hs) + [CR] }

  /** How the parser finds the end of the body. */
  function FramingRead(p: Parser, hs: seq<Header>): Framing {
    match Reach(p, HeadBytes(hs))
    case None => Rejected
    case Some(q) => FramingOf(ByteStep(q, LF))
  }

  /** At the end of the first line of a message, and whatever came before on the connection. */
  ghost predicate AtHead(kind: Kind, maxHeaderSize: nat, line: seq<Byte>, p: Parser) {
    maxHeaderSize < WORD && Reach(Init(kind, maxHeaderSize), line) == Some(p) && LineDone(p.state)
  }

  lemma HeadStarts(kind: Kind, maxHeaderSize: nat, line: seq<Byte>, p: Parser)
    requires AtHead(kind, maxHeaderSize, line, p)
    ensures Started(p) && Untouched(p) && LengthOk(p) && !p.kind.Both?
  {
    hide Run, Started, Sane;
    InitStarted(kind, maxHeaderSize);
    InitSane(kind, maxHeaderSize);
    RunStarted(Init(kind, maxHeaderSize), line);
    RunSafe(Init(kind, maxHeaderSize), line);
    StartedHead(p);
    SaneLength(p);
  }

  lemma StartedHead(p: Parser)
    requires Started(p) && LineDone(p.state)
    ensures Untouched(p) && !p.kind.Both? && !p.allowChunkedLength && !p.flags.skipBody
  {
  }

  lemma SaneLength(p: Parser)
    requires Sane(p)
    ensures LengthOk(p)
  {
  }

  lemma FromUntouched(p: Parser)
    requires Untouched(p) && LengthOk(p)
    ensures var q := p.(state := HeaderFieldStart, nread := p.nread + 1);
      AtHeader(q) && FactsOf(q) == NOTHING && !q.flags.trailing
  {
  }

  /** From the line feed of the first line to the CR of the empty line. */
  lemma HeadBytesRead(kind: Kind, maxHeaderSize: nat, line: seq<Byte>, p: Parser, hs: seq<Header>)
    returns (start: Parser, q: Option<Parser>)
    requires AtHead(kind, maxHeaderSize, line, p)
    requires HeadersOk(hs) && p.nread + |HeadBytes(hs)| + 1 <= p.maxHeaderSize
    ensures Reach(p, HeadBytes(hs)) == q && (q.Some? ==> q.value.nread == p.nread + |HeadBytes(hs)|)
    ensures start == p.(state := HeaderFieldStart, nread := p.nread + 1) && !start.flags.upgrade
    ensures match TakeAll(NOTHING, hs) case None => q.None? case Some(f) => q.Some? && Headed(start, hs, f, q.value)
  {
    hide Reach, ByteStep, Started, HeadText, HeadersOk, TakeAll, Linked, Headed;
    HeadStarts(kind, maxHeaderSize, line, p);
    LineDoneStep(p);
    FromUntouched(p);
    start := p.(state := HeaderFieldStart, nread := p.nread + 1);
    ReachByte(p, LF);
    q := HeadRead(start, hs);
    ReachConcat(p, [LF], HeadText(hs) + [CR]);
    assert [LF] + (HeadText(hs) + [CR]) == HeadBytes(hs);
  }

  /** A message that asks for no other protocol by its fields, or by its method, does not switch. */
  lemma NoSwitch(kind: Kind, maxHeaderSize: nat, line: seq<Byte>, p: Parser, hs: seq<Header>)
    requires AtHead(kind, maxHeaderSize, line, p) && !p.verb.CONNECT? && !AsksUpgrade(hs)
    requires HeadersOk(hs) && p.nread + |HeadBytes(hs)| + 1 <= p.maxHeaderSize
    ensures Reach(p, HeadBytes(hs)).Some? ==> !Switches(Reach(p, HeadBytes(hs)).value)
  {
    hide Reach, HeadText, HeadersOk, AtHead, TakeAll, Linked, AsksUpgrade;
    var _, _ := HeadBytesRead(kind, maxHeaderSize, line, p, hs);
  }

  /** The body of a message is framed as section 3.3.3 of RFC 7230 allows exactly if its header fields and status meet
      the condition above: for every message on every run of the parser. A body in chunks starts where decoding chunks
      does. */
  lemma FramingOnRuns(kind: Kind, maxHeaderSize: nat, line: seq<Byte>, p: Parser, hs: seq<Header>)
    requires AtHead(kind, maxHeaderSize, line, p)
    requires HeadersOk(hs) && p.nread + |HeadBytes(hs)| + 1 <= p.maxHeaderSize
    requires Reach(p, HeadBytes(hs)).Some? ==> !Switches(Reach(p, HeadBytes(hs)).value)
    ensures FramingRead(p, hs) == Decided(p.kind, p.statusCode, TakeAll(NOTHING, hs))
    ensures RfcAllows(p.kind, p.statusCode, hs, FramingRead(p, hs)) <==> FramedRight(p.kind, p.statusCode, hs)
    ensures FramingRead(p, hs).InChunks? ==>
      var r := Reach(p, HeadBytes(hs) + [LF]); r.Some? && AtChunk(r.value)
  {
    hide Reach, ByteStep, Started, Untouched, HeadText, HeadersOk, RfcAllows, FramedRight, Decided, FramingOf, AtChunk,
      TakeAll, Linked;
    HeadStarts(kind, maxHeaderSize, line, p);
    StartedHead(p);
    var _, q := HeadBytesRead(kind, maxHeaderSize, line, p, hs);
    DecisionIsRfc(p.kind, p.statusCode, hs);
    if q.Some? {
      CodedFacts(hs);
      HeadDecides(q.value);
      ReachConcat(p, HeadBytes(hs), [LF]);
      ReachByte(q.value, LF);
    } else {
      NoneRejected(p.kind, p.statusCode);
    }
  }

  lemma NoneRejected(kind: Kind, status: nat)
    ensures Decided(kind, status, None) == Rejected
  {
  }

  lemma CodedFacts(hs: seq<Header>)
    ensures match TakeAll(NOTHING, hs) case Some(f) => f.chunked ==> f.encoding case None => true
  {
    TakenIs(NOTHING, hs);
    CodingsPrefixed(hs);
    hide TakeAll, LengthValues, CodingValues, LengthOf, AnyPrefixed, Recognized;
  }
}
