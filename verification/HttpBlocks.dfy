/** What the block scans of http_parser_execute come to, and why each is a run of single bytes. */
module HttpBlocks {
  import opened Wrappers
  import opened HttpTypes
  import opened HttpStep
  import opened HttpRun
  import opened HttpInvariant
  import opened HttpShape

  predicate Overflowed(r: Ran) { r.Failed? && r.errno.HeaderOverflow? }

  lemma EmptyRun(p: Parser, k: Span)
    ensures Run(p, []) == More(p, Singles(k, []))
  {
  }

  /** One more byte of span k, with no notification. */
  lemma BlockSnoc(p: Parser, bytes: seq<Byte>, ch: Byte, q: Parser, r: Parser, acts: seq<Act>, k: Span)
    requires Run(p, bytes) == More(q, Singles(k, bytes))
    requires ByteStep(q, ch) == Next(r, acts) && SpanOf(q.state, r.state) == Some(k) && Notices(acts) == []
    ensures Run(p, bytes + [ch]) == More(r, Singles(k, bytes + [ch]))
  {
    RunSnoc(p, bytes, ch);
    assert Singles(k, bytes + [ch]) == Singles(k, bytes) + [Data(k, [ch])];
    assert [Data(k, [ch])] + [] == [Data(k, [ch])];
    hide Run, ByteStep, SpanOf, Singles, Notices;
  }

  /** Once the limit is reached, the next header byte is one too many. */
  lemma FullStops(p: Parser, bytes: seq<Byte>, k: nat)
    requires k < |bytes| && Run(p, bytes[..k]).More?
    requires var q := Run(p, bytes[..k]).p; ParsingHeader(q.state) && q.nread >= q.maxHeaderSize
    ensures Overflowed(Run(p, bytes))
  {
    hide Run;
    var q := Run(p, bytes[..k]).p;
    assert bytes == bytes[..k] + bytes[k..];
    RunConcat(p, bytes[..k], bytes[k..]);
    StopsAtOnce(q, bytes[k..]);
  }

  lemma StopsAtOnce(q: Parser, bytes: seq<Byte>)
    requires bytes != [] && ParsingHeader(q.state) && q.nread >= q.maxHeaderSize
    ensures Overflowed(Run(q, bytes))
  {
    hide Dispatch, ParsingHeader;
  }

  // ----- Field names

  predicate Tokens(bytes: seq<Byte>) { forall i :: 0 <= i < |bytes| ==> Token(bytes[i]) != '\0' }

  /** The comparison state after some bytes of a field name. */
  function FieldRun(p: Parser, bytes: seq<Byte>): Option<Parser>
    decreases |bytes|
  {
    if bytes == [] then Some(p)
    else
      match FieldRun(p, bytes[..|bytes| - 1])
      case Some(q) => FieldNext(q, bytes[|bytes| - 1])
      case None => None
  }

  predicate FieldSane(p: Parser) {
    p.state.HeaderField? && LengthOk(p) && FieldHeaderState(p.headerState) && p.index < IndexBound(p.headerState)
  }

  lemma FieldNextSafe(p: Parser, ch: Byte)
    requires FieldSane(p)
    ensures FieldNext(p, ch).Some? && FieldSane(FieldNext(p, ch).value)
    ensures var q := FieldNext(p, ch).value; q == p.(index := q.index, headerState := q.headerState,
      usesTransferEncoding := q.usesTransferEncoding)
    ensures p.headerState.General? ==> FieldNext(p, ch).value == p
  {
    FieldByteSafe(Match(p.index, p.headerState), Token(ch), ch);
    assert p.headerState.General? ==>
      FieldByte(Match(p.index, p.headerState), Token(ch), ch) == Some(Match(p.index, p.headerState));
    hide FieldByte, Token, FieldHeaderState, IndexBound, LengthOk;
  }

  /** Scanning bytes of a field name is running them one by one, as long as the header limit allows it. */
  lemma {:induction false} FieldBlock(p: Parser, bytes: seq<Byte>)
    requires FieldSane(p) && Tokens(bytes)
    ensures FieldRun(p, bytes).Some? && FieldSane(FieldRun(p, bytes).value)
    ensures var q := FieldRun(p, bytes).value;
      && q == p.(index := q.index, headerState := q.headerState, usesTransferEncoding := q.usesTransferEncoding)
      && (p.nread + |bytes| <= p.maxHeaderSize ==>
           Run(p, bytes) == More(q.(nread := p.nread + |bytes|), Singles(Field, bytes)))
    decreases |bytes|
  {
    hide FieldNext, Token, Run, ByteStep, FieldHeaderState, IndexBound, LengthOk;
    if bytes == [] {
      EmptyRun(p, Field);
    } else {
      var init, last := bytes[..|bytes| - 1], bytes[|bytes| - 1];
      assert bytes == init + [last];
      FieldBlock(p, init);
      var q := FieldRun(p, init).value;
      FieldNextSafe(q, last);
      var at := q.(nread := p.nread + |init|);
      FieldNextNread(q, last, at.nread, at.nread + 1);
      FieldStep(at, last);
      if p.nread + |bytes| <= p.maxHeaderSize {
        BlockSnoc(p, init, last, at, FieldNext(q, last).value.(nread := at.nread + 1), [], Field);
      }
    }
  }

  lemma FieldOverflow(p: Parser, bytes: seq<Byte>)
    requires FieldSane(p) && Tokens(bytes) && p.nread + |bytes| > p.maxHeaderSize && bytes != []
    ensures Overflowed(Run(p, bytes))
  {
    hide Run, FieldNext, Token, LengthOk, FieldHeaderState;
    var k := if p.nread >= p.maxHeaderSize then 0 else p.maxHeaderSize - p.nread;
    FieldBlock(p, bytes[..k]);
    if k == 0 {
      EmptyRun(p, Field);
      assert bytes[..k] == [];
    }
    FullStops(p, bytes, k);
  }

  lemma FieldNextNread(p: Parser, ch: Byte, m: nat, n: nat)
    requires FieldSane(p)
    ensures FieldNext(p.(nread := m), ch).Some? && FieldNext(p, ch).Some?
    ensures FieldNext(p.(nread := m), ch).value.(nread := n) == FieldNext(p, ch).value.(nread := n)
    ensures FieldSane(p.(nread := m))
  {
    FieldNextSafe(p, ch);
    hide FieldByte, Token, IndexBound, FieldHeaderState;
  }

  lemma FieldStep(p: Parser, ch: Byte)
    requires FieldSane(p) && Token(ch) != '\0'
    ensures
      if p.nread + 1 > p.maxHeaderSize then ByteStep(p, ch) == Fail(HeaderOverflow)
      else FieldNext(p, ch).Some? && ByteStep(p, ch) == Next(FieldNext(p, ch).value.(nread := p.nread + 1), [])
  {
    FieldNextNread(p, ch, p.nread + 1, p.nread + 1);
    HeaderByte(p, ch);
    FieldNextSafe(p.(nread := p.nread + 1), ch);
    hide ByteStep, FieldNext, Token, FieldHeaderState, IndexBound, LengthOk, HeadersAlmostDoneStep, HeaderValueStep;
  }

  // ----- Header values

  predicate PlainByte(ch: Byte) { ch != CR && ch != LF && IsHeaderChar(ch) }

  predicate Plain(bytes: seq<Byte>) { forall i :: 0 <= i < |bytes| ==> PlainByte(bytes[i]) }

  function ValueRun(p: Parser, bytes: seq<Byte>): ValueResult
    decreases |bytes|
  {
    if bytes == [] then Kept(p)
    else
      match ValueRun(p, bytes[..|bytes| - 1])
      case Kept(q) => ValueByte(q, bytes[|bytes| - 1])
      case r => r
  }

  predicate ValueSane(p: Parser) {
    p.state.HeaderValue? && LengthOk(p) && ValueHeaderState(p.headerState) && p.index < IndexBound(p.headerState)
  }

  lemma ValueNext(p: Parser, ch: Byte)
    requires ValueSane(p)
    ensures var r := ValueByte(p, ch);
      && !r.Impossible?
      && (r.Kept? ==> ValueSane(r.p) && r.p.nread == p.nread && r.p.maxHeaderSize == p.maxHeaderSize)
    ensures p.headerState.General? ==> ValueByte(p, ch) == Kept(p)
  {
    ValueByteSafe(p, ch);
    hide ValueByte, ValueHeaderState, IndexBound, LengthOk;
    GeneralValue(p, ch);
  }

  lemma GeneralValue(p: Parser, ch: Byte)
    ensures p.headerState.General? ==> ValueByte(p, ch) == Kept(p)
  {
  }

  function Renumbered(r: ValueResult, n: nat): ValueResult {
    match r
    case Kept(q) => Kept(q.(nread := n))
    case _ => r
  }

  lemma ValueByteNread(p: Parser, ch: Byte, n: nat)
    ensures ValueByte(p.(nread := n), ch) == Renumbered(ValueByte(p, ch), n)
    ensures ValueSane(p.(nread := n)) == ValueSane(p)
  {
    hide ValueName, Digit, IsNum, Listed;
  }

  lemma ValueStep(p: Parser, ch: Byte)
    requires ValueSane(p) && PlainByte(ch)
    ensures
      if p.nread + 1 > p.maxHeaderSize then ByteStep(p, ch) == Fail(HeaderOverflow)
      else
        match ValueByte(p, ch)
        case Kept(q) => ByteStep(p, ch) == Next(q.(nread := p.nread + 1), [])
        case Bad(e) => ByteStep(p, ch) == Fail(e)
        case Impossible => false
  {
    ValueByteNread(p, ch, p.nread + 1);
    ValueNext(p, ch);
    HeaderByte(p, ch);
    PlainValue(p.(nread := p.nread + 1), ch);
    hide ByteStep, HeaderStep, ValueByte, PlainByte, ValueHeaderState, IndexBound, LengthOk;
  }

  lemma PlainValue(p: Parser, ch: Byte)
    requires p.state.HeaderValue? && PlainByte(ch)
    ensures HeaderStep(p, ch) ==
      match ValueByte(p, ch)
      case Kept(q) => Next(q, [])
      case Bad(e) => Fail(e)
      case Impossible => Abort
  {
    hide ValueByte, IsHeaderChar, HeaderFieldStep, HeadersAlmostDoneStep;
  }

  /** The same for the bytes of a header value. */
  lemma {:induction false} ValueBlock(p: Parser, bytes: seq<Byte>)
    requires ValueSane(p) && Plain(bytes) && ValueRun(p, bytes).Kept?
    ensures var q := ValueRun(p, bytes).p;
      && ValueSane(q) && q.nread == p.nread && q.maxHeaderSize == p.maxHeaderSize
      && (p.nread + |bytes| <= p.maxHeaderSize ==>
           Run(p, bytes) == More(q.(nread := p.nread + |bytes|), Singles(Value, bytes)))
    decreases |bytes|
  {
    hide ValueByte, PlainByte, Run, ByteStep, ValueHeaderState, IndexBound, LengthOk;
    if bytes == [] {
      EmptyRun(p, Value);
    } else {
      var init, last := bytes[..|bytes| - 1], bytes[|bytes| - 1];
      assert bytes == init + [last];
      ValueBlock(p, init);
      var q := ValueRun(p, init).p;
      ValueNext(q, last);
      var at := q.(nread := p.nread + |init|);
      ValueByteNread(q, last, at.nread);
      ValueStep(at, last);
      if p.nread + |bytes| <= p.maxHeaderSize {
        BlockSnoc(p, init, last, at, ValueByte(q, last).p.(nread := at.nread + 1), [], Value);
      }
    }
  }

  lemma {:induction false} ValueRunPrefix(p: Parser, bytes: seq<Byte>, k: nat)
    requires k <= |bytes| && ValueRun(p, bytes).Kept?
    ensures ValueRun(p, bytes[..k]).Kept?
    decreases |bytes|
  {
    hide ValueByte;
    if k == |bytes| {
      assert bytes[..k] == bytes;
    } else {
      ValueRunPrefix(p, bytes[..|bytes| - 1], k);
      assert bytes[..|bytes| - 1][..k] == bytes[..k];
    }
  }

  lemma ValueOverflow(p: Parser, bytes: seq<Byte>, k: nat)
    requires ValueSane(p) && k < |bytes| && p.nread + k >= p.maxHeaderSize && Plain(bytes[..k]) &&
      ValueRun(p, bytes[..k]).Kept?
    ensures Overflowed(Run(p, bytes))
  {
    hide Run, ValueByte, PlainByte, ByteStep, LengthOk, ValueHeaderState;
    var j := if p.nread >= p.maxHeaderSize then 0 else p.maxHeaderSize - p.nread;
    assert bytes[..k][..j] == bytes[..j];
    ValueRunPrefix(p, bytes[..k], j);
    ValueBlock(p, bytes[..j]);
    if j == 0 {
      EmptyRun(p, Value);
      assert bytes[..j] == [];
    }
    FullStops(p, bytes, j);
  }

  // ----- Bodies

  /** Some bytes of a chunk. */
  lemma {:induction false} ChunkBlock(p: Parser, bytes: seq<Byte>)
    requires p.state.ChunkData? && p.flags.chunked && p.contentLength < ABSENT && 0 < |bytes| <= p.contentLength
    ensures var rest := p.contentLength - |bytes|;
      Run(p, bytes) == More(
        p.(contentLength := rest, state := if rest == 0 then ChunkDataAlmostDone else ChunkData), Singles(Body, bytes))
    decreases |bytes|
  {
    hide Run, ByteStep;
    var init, last := bytes[..|bytes| - 1], bytes[|bytes| - 1];
    assert bytes == init + [last];
    var at := p.(contentLength := p.contentLength - |init|);
    if init == [] {
      EmptyRun(p, Body);
    } else {
      ChunkBlock(p, init);
    }
    ChunkDataStep(at, last);
    var rest := p.contentLength - |bytes|;
    BlockSnoc(p, init, last, at,
      p.(contentLength := rest, state := if rest == 0 then ChunkDataAlmostDone else ChunkData), [Mark(Body)], Body);
  }

  lemma ChunkDataStep(p: Parser, ch: Byte)
    requires p.state.ChunkData? && p.flags.chunked && p.contentLength != ABSENT && p.contentLength != 0
    ensures ByteStep(p, ch) == Next(p.(contentLength := p.contentLength - 1,
      state := if p.contentLength == 1 then ChunkDataAlmostDone else ChunkData), [Mark(Body)])
  {
    DispatchCases(p, ch);
    hide Dispatch;
  }

  /** Some bytes of a body with a known length, but not the last one. */
  lemma {:induction false} IdentityBlock(p: Parser, bytes: seq<Byte>)
    requires p.state.BodyIdentity? && p.contentLength < ABSENT && |bytes| < p.contentLength
    ensures Run(p, bytes) == More(p.(contentLength := p.contentLength - |bytes|), Singles(Body, bytes))
    decreases |bytes|
  {
    hide Run, ByteStep;
    if bytes == [] {
      EmptyRun(p, Body);
    } else {
      var init, last := bytes[..|bytes| - 1], bytes[|bytes| - 1];
      assert bytes == init + [last];
      IdentityBlock(p, init);
      var at := p.(contentLength := p.contentLength - |init|);
      IdentityStep(at, last);
      BlockSnoc(p, init, last, at, p.(contentLength := p.contentLength - |bytes|), [Mark(Body)], Body);
    }
  }

  lemma IdentityStep(p: Parser, ch: Byte)
    requires p.state.BodyIdentity? && p.contentLength != ABSENT && p.contentLength != 0
    ensures ByteStep(p, ch) == BodyIdentityStep(p)
  {
    DispatchCases(p, ch);
    hide Dispatch;
  }

  /** Bytes of a body that ends with the connection. */
  lemma {:induction false} EofBlock(p: Parser, bytes: seq<Byte>)
    requires p.state.BodyIdentityEof?
    ensures Run(p, bytes) == More(p, Singles(Body, bytes))
    decreases |bytes|
  {
    hide Run, ByteStep;
    if bytes == [] {
      EmptyRun(p, Body);
    } else {
      var init, last := bytes[..|bytes| - 1], bytes[|bytes| - 1];
      assert bytes == init + [last];
      EofBlock(p, init);
      EofStep(p, last);
      BlockSnoc(p, init, last, p, p, [Mark(Body)], Body);
    }
  }

  lemma EofStep(p: Parser, ch: Byte)
    requires p.state.BodyIdentityEof?
    ensures ByteStep(p, ch) == Next(p, [Mark(Body)])
  {
    DispatchCases(p, ch);
    hide Dispatch;
  }
}
