/** Which values of a Transfer-Encoding header make the body chunked, in terms of the list of codings that a value
    is. */
module HttpTransfer {
  import opened Wrappers
  import opened HttpTypes
  import opened HttpStep
  import opened HttpRun
  import opened HttpInvariant
  import opened HttpShape
  import opened HttpBlocks

  // ----- The list

  /** The elements between the commas. */
  function Elements(v: seq<Byte>): (es: seq<seq<Byte>>)
    ensures es != []
    decreases |v|
  {
    if v == [] then [[]]
    else
      var es, last := Elements(v[..|v| - 1]), v[|v| - 1];
      if last == ',' then es + [[]] else es[..|es| - 1] + [es[|es| - 1] + [last]]
  }

  /** An element without the spaces in front. */
  function Bare(e: seq<Byte>): (t: seq<Byte>)
    ensures t != [] ==> t[0] != ' '
  {
    if e != [] && e[0] == ' ' then Bare(e[1..]) else e
  }

  const CHUNKED := "chunked"

  /** The letters of s are the first letters of "chunked", in either case. */
  predicate Starts(s: seq<Byte>) {
    |s| <= 7 && forall i :: 0 <= i < |s| ==> Lower(s[i]) == CHUNKED[i]
  }

  /** What an element is to the parser, if it looks at it from its beginning. */
  datatype Sort = Blank | Odd | Part | Whole | Other

  function SortOf(t: seq<Byte>): Sort {
    if t == [] then Blank
    else if |t| < 7 && Starts(t) then Part
    else if |t| >= 7 && Starts(t[..7]) && forall i :: 7 <= i < |t| ==> t[i] == ' ' then Whole
    else if Token(Lower(t[0])) == '\0' then Odd
    else Other
  }

  // Whether the parser looks at the next element: Missing if it has missed the comma, Deaf if it no longer looks at
  // any.
  datatype Attention = Listening | Missing | Deaf

  /** After an element that it looks at, and its comma. */
  function Heard(s: Sort, first: bool): Attention {
    match s
    case Blank => if first then Missing else Deaf
    case Odd => if first then Listening else Deaf
    case Part => Missing
    case Whole => Missing
    case Other => Listening
  }

  function AttentionAfter(es: seq<seq<Byte>>): Attention
    decreases |es|
  {
    if es == [] then Listening
    else
      match AttentionAfter(es[..|es| - 1])
      case Listening => Heard(SortOf(Bare(es[|es| - 1])), |es| == 1)
      case Missing => Listening
      case Deaf => Deaf
  }

  /** The parser takes the list for one that ends in chunked. */
  predicate Recognized(v: seq<Byte>) {
    var es := Elements(v);
    AttentionAfter(es[..|es| - 1]).Listening? && SortOf(Bare(es[|es| - 1])).Whole?
  }

  // ----- The automaton

  function Fold(v: seq<Byte>): Match
    requires v != []
    decreases |v|
  {
    if |v| == 1 then Match(0, ValueStartState(TransferEncoding, Lower(v[0])))
    else ValueName(Fold(v[..|v| - 1]), v[|v| - 1])
  }

  /** Where the automaton stands inside an element. */
  predicate Stands(m: Match, a: Attention, t: seq<Byte>, first: bool) {
    match a
    case Deaf => m.state.General?
    case Missing => m.state.MatchingTransferEncodingToken?
    case Listening =>
      match SortOf(t)
      case Blank => m == Match(0, MatchingTransferEncodingTokenStart) && !first
      case Odd => if first then m.state.MatchingTransferEncodingToken? else m.state.General?
      case Part => m == Match(|t| - 1, MatchingTransferEncodingChunked)
      case Whole => m.state.TransferEncodingChunked?
      case Other => m.state.MatchingTransferEncodingToken?
  }

  /** The automaton after a comma. */
  lemma CommaStands(m: Match, a: Attention, t: seq<Byte>, first: bool)
    requires Stands(m, a, t, first)
    ensures Stands(ValueName(m, ','),
      match a case Listening => Heard(SortOf(t), first) case Missing => Listening case Deaf => Deaf, [], false)
  {
  }

  /** What an element becomes with one more byte. */
  lemma SortNext(t: seq<Byte>, ch: Byte)
    ensures SortOf(t + [ch]) ==
      match SortOf(t)
      case Blank => if Lower(ch) == 'c' then Part else if Token(Lower(ch)) == '\0' then Odd else Other
      case Odd => Odd
      case Part => if Lower(ch) != CHUNKED[|t|] then Other else if |t| == 6 then Whole else Part
      case Whole => if ch == ' ' then Whole else Other
      case Other => Other
  {
    var u := t + [ch];
    assert u[..|t|] == t;
    assert |t| < 7 ==> (Starts(u) <==> Starts(t) && Lower(ch) == CHUNKED[|t|]);
    assert |t| >= 7 ==> u[..7] == t[..7];
    assert |t| == 6 ==> u[..7] == u;
    assert t != [] ==> u[0] == t[0];
    assert |t| >= 7 ==>
      ((forall i :: 7 <= i < |u| ==> u[i] == ' ') <==> ch == ' ' && forall i :: 7 <= i < |t| ==> t[i] == ' ') by {
      assert forall i :: 7 <= i < |t| ==> t[i] == u[i];
      assert u[|t|] == ch;
    }
    FirstLetter(t);
    hide Lower, Token;
  }

  lemma FirstLetter(t: seq<Byte>)
    ensures Token('c') != '\0'
    ensures t != [] && |t| < 7 && Starts(t) ==> Lower(t[0]) == 'c'
    ensures |t| >= 7 && Starts(t[..7]) ==> Lower(t[0]) == 'c'
  {
  }

  /** The automaton after any other byte. */
  lemma ByteStands(m: Match, a: Attention, t: seq<Byte>, first: bool, ch: Byte)
    requires Stands(m, a, t, first) && ch != ',' && IsHeaderChar(ch)
    ensures Stands(ValueName(m, ch), a, if t == [] && ch == ' ' then [] else t + [ch], first)
  {
    SortNext(t, ch);
    SortBounds(t);
    LowerCases(ch);
    hide SortOf, Lower, Token;
  }

  lemma SortBounds(t: seq<Byte>)
    ensures SortOf(t).Blank? <==> t == []
    ensures SortOf(t).Part? ==> 1 <= |t| <= 6
  {
  }

  lemma LowerCases(ch: Byte)
    ensures IsHeaderChar(ch) ==> (Lower(ch) == ' ' <==> ch == ' ')
    ensures Token(' ') == '\0'
    ensures Lower(ch) != '\t'
  {
  }

  lemma {:induction false} BareSnoc(e: seq<Byte>, ch: Byte)
    ensures Bare(e + [ch]) == if Bare(e) == [] && ch == ' ' then [] else Bare(e) + [ch]
    decreases |e|
  {
    if e != [] && e[0] == ' ' {
      BareSnoc(e[1..], ch);
      assert (e + [ch])[1..] == e[1..] + [ch];
    } else if e == [] {
      assert e + [ch] == [ch] && [ch][1..] == [];
    }
  }

  /** After any value the automaton stands where the list says. */
  lemma {:induction false} FoldStands(v: seq<Byte>)
    requires v != [] && v[0] != ' ' && Plain(v)
    ensures var es := Elements(v); var n := |es| - 1;
      Stands(Fold(v), AttentionAfter(es[..n]), Bare(es[n]), n == 0)
    decreases |v|
  {
    if |v| == 1 {
      FirstStands(v[0]);
      assert v == [v[0]];
    } else {
      var init, ch := v[..|v| - 1], v[|v| - 1];
      FoldStands(init);
      var es := Elements(init);
      var n := |es| - 1;
      hide Stands, SortOf, ValueName, Heard, Bare, IsHeaderChar;
      if ch == ',' {
        CommaStands(Fold(init), AttentionAfter(es[..n]), Bare(es[n]), n == 0);
        assert (es + [[]])[..|es|] == es;
        NothingBare();
      } else {
        ByteStands(Fold(init), AttentionAfter(es[..n]), Bare(es[n]), n == 0, ch);
        BareSnoc(es[n], ch);
        assert (es[..n] + [es[n] + [ch]])[..n] == es[..n];
      }
    }
  }

  lemma NothingBare()
    ensures Bare([]) == []
  {
  }

  lemma ElementsOne(ch: Byte)
    ensures Elements([ch]) == if ch == ',' then [[], []] else [[ch]]
  {
    var v := [ch];
    assert v[..|v| - 1] == [];
    var es := Elements([]);
    assert es == [[]] && es[..0] == [] && es[0] + [ch] == [ch];
  }

  lemma FirstStands(ch: Byte)
    requires ch != ' '
    ensures var es := Elements([ch]); var n := |es| - 1;
      Stands(Fold([ch]), AttentionAfter(es[..n]), Bare(es[n]), n == 0)
  {
    ElementsOne(ch);
    hide Elements;
    if ch == ',' {
      var es: seq<seq<Byte>> := [[], []];
      assert es[..1] == [[]] && es[..1][..0] == [];
    } else {
      var es: seq<seq<Byte>> := [[ch]];
      assert es[..0] == [] && [] + [ch] == [ch];
      SortNext([], ch);
    }
  }

  lemma StandsWhole(m: Match, a: Attention, t: seq<Byte>, first: bool)
    requires Stands(m, a, t, first)
    ensures m.state.TransferEncodingChunked? <==> a.Listening? && SortOf(t).Whole?
  {
    hide SortOf;
  }

  /** The automaton recognizes exactly those values. */
  lemma RecognizedExactly(v: seq<Byte>)
    requires v != [] && v[0] != ' ' && Plain(v)
    ensures Fold(v).state.TransferEncodingChunked? <==> Recognized(v)
  {
    hide Fold, Elements, AttentionAfter, Bare, SortOf, Stands, Plain;
    FoldStands(v);
    var es := Elements(v);
    var n := |es| - 1;
    StandsWhole(Fold(v), AttentionAfter(es[..n]), Bare(es[n]), n == 0);
  }

  // ----- What the RFC says

  predicate Space(c: Byte) { c == ' ' || c == '\t' }

  predicate AllSpace(s: seq<Byte>) { forall i :: 0 <= i < |s| ==> Space(s[i]) }

  /** The word chunked begins at position i, with nothing but white space around it. */
  predicate SpellsAt(e: seq<Byte>, i: nat) {
    i + 7 <= |e| && AllSpace(e[..i]) && Starts(e[i..i + 7]) && AllSpace(e[i + 7..])
  }

  /** The last element that is not empty. */
  function LastCoding(es: seq<seq<Byte>>): Option<seq<Byte>>
    decreases |es|
  {
    if es == [] then None
    else if AllSpace(es[|es| - 1]) then LastCoding(es[..|es| - 1])
    else Some(es[|es| - 1])
  }

  /** Sections 3.3.1 and 7 of RFC 7230: the final coding is chunked. */
  ghost predicate RfcChunked(v: seq<Byte>) {
    match LastCoding(Elements(v))
    case Some(e) => exists i: nat :: SpellsAt(e, i)
    case None => false
  }

  /** What is taken for chunked is chunked. */
  lemma RecognizedIsChunked(v: seq<Byte>)
    requires Recognized(v)
    ensures RfcChunked(v)
  {
    var es := Elements(v);
    var e := es[|es| - 1];
    BareSpells(e);
    var i: nat := |e| - |Bare(e)|;
    assert SpellsAt(e, i);
    SpelledNotBlank(e, i);
    hide Elements, AttentionAfter, SortOf, Bare, SpellsAt, AllSpace;
  }

  lemma SpelledNotBlank(e: seq<Byte>, i: nat)
    requires SpellsAt(e, i)
    ensures !AllSpace(e)
  {
    assert e[i..i + 7][0] == e[i] && Lower(e[i]) == 'c';
  }

  lemma {:induction false} BareSpells(e: seq<Byte>)
    ensures |Bare(e)| <= |e|
    ensures SortOf(Bare(e)).Whole? ==> SpellsAt(e, |e| - |Bare(e)|)
    decreases |e|
  {
    hide SortOf, Starts;
    if e != [] && e[0] == ' ' {
      BareSpells(e[1..]);
      if SortOf(Bare(e)).Whole? {
        var i: nat := |e| - |Bare(e)|;
        assert e[i..i + 7] == e[1..][i - 1..i + 6] && e[i + 7..] == e[1..][i + 6..];
        assert AllSpace(e[..i]) by {
          assert e[..i] == [e[0]] + e[1..][..i - 1];
        }
      }
    } else if SortOf(e).Whole? {
      WholeSpells(e);
    }
  }

  lemma WholeSpells(e: seq<Byte>)
    requires SortOf(e).Whole?
    ensures SpellsAt(e, 0)
  {
    assert e[0..7] == e[..7];
  }

  predicate NoComma(e: seq<Byte>) { forall i :: 0 <= i < |e| ==> e[i] != ',' }

  lemma {:induction false} ElementsSplit(a: seq<Byte>, b: seq<Byte>)
    requires NoComma(b)
    ensures Elements(a + [','] + b) == Elements(a) + [b]
    decreases |b|
  {
    var v := a + [','] + b;
    if b == [] {
      assert v == a + [','] && v[..|v| - 1] == a;
    } else {
      var init, last := b[..|b| - 1], b[|b| - 1];
      ElementsSplit(a, init);
      assert v[..|v| - 1] == a + [','] + init && v[|v| - 1] == last;
      var es := Elements(a) + [init];
      assert es[..|es| - 1] == Elements(a) && init + [last] == b;
    }
  }

  lemma {:induction false} OneElement(e: seq<Byte>)
    requires NoComma(e)
    ensures Elements(e) == [e]
    decreases |e|
  {
    if e == [] {
    } else {
      var init, last := e[..|e| - 1], e[|e| - 1];
      OneElement(init);
      var es: seq<seq<Byte>> := [init];
      assert es[..0] == [] && init + [last] == e;
    }
  }

  /** Behind elements that begin like a coding, but not like chunked, the last one counts as soon as it is spelled
      right. */
  lemma {:induction false} OrdinaryLists(es: seq<seq<Byte>>)
    requires forall i :: 0 <= i < |es| ==> SortOf(Bare(es[i])).Other?
    ensures AttentionAfter(es).Listening?
    decreases |es|
  {
    hide SortOf, Bare;
    if es != [] {
      OrdinaryLists(es[..|es| - 1]);
    }
  }

  lemma TwoElements(a: seq<Byte>, b: seq<Byte>)
    requires NoComma(a) && NoComma(b)
    ensures Elements(a + [','] + b) == [a, b]
    ensures Recognized(a + [','] + b) <==> Heard(SortOf(Bare(a)), true).Listening? && SortOf(Bare(b)).Whole?
    ensures !AllSpace(b) ==> (RfcChunked(a + [','] + b) <==> exists i: nat :: SpellsAt(b, i))
  {
    OneElement(a);
    ElementsSplit(a, b);
    hide Elements, SortOf, Bare, SpellsAt, AllSpace, Heard;
    AttentionOne(a);
    assert [a, b][..1] == [a];
  }

  lemma AttentionOne(a: seq<Byte>)
    ensures AttentionAfter([a]) == Heard(SortOf(Bare(a)), true)
  {
    hide SortOf, Bare, Heard;
    var one: seq<seq<Byte>> := [a];
    assert one[..0] == [];
    assert AttentionAfter([]).Listening?;
  }

  /** Of two codings the second is overlooked exactly if the first is a beginning of the word chunked, or all of it. */
  lemma TwoCodings(a: seq<Byte>, b: seq<Byte>)
    requires NoComma(a) && NoComma(b) && a != [] && a[0] != ' ' && SortOf(Bare(b)).Whole?
    ensures RfcChunked(a + [','] + b)
    ensures Recognized(a + [','] + b) <==> !SortOf(a).Part? && !SortOf(a).Whole?
  {
    hide SortOf, Starts, SpellsAt, AllSpace, Elements, Recognized, RfcChunked;
    TwoElements(a, b);
    SortBounds(a);
    BareSpells(b);
    SpelledNotBlank(b, |b| - |Bare(b)|);
  }

  /** A horizontal tab in front of an element makes the parser deaf to the rest of the list. */
  lemma TabDeafens(a: seq<Byte>, b: seq<Byte>)
    requires NoComma(a) && NoComma(b) && SortOf(Bare(b)).Whole?
    ensures var v := a + [','] + (['\t'] + b); RfcChunked(v) && !Recognized(v)
  {
    hide SortOf, Starts, SpellsAt, AllSpace, Elements, Recognized, RfcChunked;
    var t := ['\t'] + b;
    TwoElements(a, t);
    TabIsOdd(b);
    BareSpells(b);
    var i: nat := |b| - |Bare(b)|;
    SpellsLater(b, i);
    SpelledNotBlank(t, i + 1);
  }

  lemma TabIsOdd(b: seq<Byte>)
    ensures !SortOf(Bare(['\t'] + b)).Whole?
  {
    var t := ['\t'] + b;
    assert Bare(t) == t && t[0] == '\t';
    FirstLetter(t);
    assert Lower('\t') != 'c';
    hide Lower, Starts;
  }

  lemma SpellsLater(b: seq<Byte>, i: nat)
    requires SpellsAt(b, i)
    ensures SpellsAt(['\t'] + b, i + 1)
  {
    var t := ['\t'] + b;
    assert t[i + 1..i + 8] == b[i..i + 7] && t[i + 8..] == b[i + 7..] && t[..i + 1] == ['\t'] + b[..i];
  }

  // ----- The parser

  predicate CodingState(h: HeaderState) {
    || h.General? || h.MatchingTransferEncodingTokenStart? || h.MatchingTransferEncodingChunked?
    || h.MatchingTransferEncodingToken? || h.TransferEncodingChunked?
  }

  lemma CodingByte(p: Parser, ch: Byte)
    requires CodingState(p.headerState)
    ensures var m := ValueName(Match(p.index, p.headerState), ch);
      CodingState(m.state) && ValueByte(p, ch) == Kept(p.(index := m.index, headerState := m.state))
  {
    hide Lower, Token, CharAt;
  }

  /** The parser after the beginning v of a value. */
  function WithCodings(p: Parser, v: seq<Byte>): Parser
    requires v != []
  {
    p.(state := HeaderValue, index := Fold(v).index, headerState := Fold(v).state)
  }

  lemma {:induction false} FoldRun(p: Parser, v: seq<Byte>)
    requires v != []
    ensures CodingState(Fold(v).state)
    ensures ValueRun(WithCodings(p, v[..1]), v[1..]) == Kept(WithCodings(p, v))
    decreases |v|
  {
    hide ValueByte, ValueName, Lower;
    if |v| == 1 {
      assert v[..1] == v && v[1..] == [];
    } else {
      var init, ch := v[..|v| - 1], v[|v| - 1];
      FoldRun(p, init);
      assert init[..1] == v[..1] && v[1..][..|v| - 2] == init[1..] && v[1..][|v| - 2] == ch;
      CodingByte(WithCodings(p, init), ch);
    }
  }

  /** A value of Transfer-Encoding follows. */
  predicate AtCodings(p: Parser) { p.state.HeaderValueDiscardWs? && p.headerState.TransferEncoding? && LengthOk(p) }

  lemma FirstCoding(p: Parser, v: seq<Byte>)
    requires AtCodings(p) && v != [] && !Space(v[0]) && PlainByte(v[0]) && p.nread + 1 <= p.maxHeaderSize
    ensures ByteStep(p, v[0]) == Next(WithCodings(p.(nread := p.nread + 1), v[..1]), [Mark(Value)])
  {
    HeaderByte(p, v[0]);
    assert v[..1] == [v[0]];
    hide ByteStep, Lower, HeaderFieldStep, HeaderValueStep, HeadersAlmostDoneStep, ValueStartState;
  }

  lemma WithCodingsSane(p: Parser, v: seq<Byte>)
    requires LengthOk(p) && |v| == 1
    ensures ValueSane(WithCodings(p, v))
  {
    IndexBounds();
    ValueStarts(TransferEncoding, Lower(v[0]));
    hide ValueHeaderState, IndexBound, ValueStartState;
  }

  lemma CodingsRun(p: Parser, v: seq<Byte>)
    requires AtCodings(p) && v != [] && !Space(v[0]) && Plain(v) && p.nread + |v| <= p.maxHeaderSize
    ensures Run(p, v) == More(WithCodings(p.(nread := p.nread + |v|), v), Singles(Value, v))
  {
    hide Run, ByteStep, Fold, Singles, Plain, PlainByte;
    var p1 := p.(nread := p.nread + 1);
    assert PlainByte(v[0]) && Plain(v[1..]) by {
      PlainParts(v);
    }
    FirstCoding(p, v);
    CodingsTail(p1, v);
    hide WithCodings;
    FirstValueByte(p, v[0], WithCodings(p1, v[..1]));
    RunConcat(p, [v[0]], v[1..]);
    SinglesConcat(Value, [v[0]], v[1..]);
    assert v == [v[0]] + v[1..];
  }

  lemma PlainParts(v: seq<Byte>)
    requires v != [] && Plain(v)
    ensures PlainByte(v[0]) && Plain(v[1..])
  {
    hide PlainByte;
  }

  lemma FirstValueByte(p: Parser, ch: Byte, first: Parser)
    requires p.state.HeaderValueDiscardWs? && first.state.HeaderValue? && ByteStep(p, ch) == Next(first, [Mark(Value)])
    ensures Run(p, [ch]) == More(first, Singles(Value, [ch]))
  {
    hide Run, ByteStep, Singles;
    EmptyRun(p, Value);
    assert [] + [ch] == [ch];
    BlockSnoc(p, [], ch, p, first, [Mark(Value)], Value);
  }

  lemma CodingsTail(p: Parser, v: seq<Byte>)
    requires LengthOk(p) && v != [] && Plain(v[1..]) && p.nread + |v| - 1 <= p.maxHeaderSize
    ensures var first := WithCodings(p, v[..1]);
      first.state.HeaderValue? &&
      Run(first, v[1..]) == More(WithCodings(p.(nread := p.nread + |v| - 1), v), Singles(Value, v[1..]))
  {
    hide Run, ValueRun, Fold, Singles, Plain, LengthOk, ValueSane;
    FoldRun(p, v);
    WithCodingsSane(p, v[..1]);
    ValueBlock(WithCodings(p, v[..1]), v[1..]);
  }

  lemma OneMoreByte(p: Parser, bytes: seq<Byte>, ch: Byte, r: Parser)
    requires Run(p, bytes).More? && ByteStep(Run(p, bytes).p, ch).Next? && ByteStep(Run(p, bytes).p, ch).p == r
    ensures Run(p, bytes + [ch]).More? && Run(p, bytes + [ch]).p == r
  {
    RunSnoc(p, bytes, ch);
    hide Run, ByteStep;
  }

  lemma ValueLineEnd(p: Parser)
    requires p.state.HeaderValue? && p.nread + 1 <= p.maxHeaderSize
    ensures ByteStep(p, CR) == Next(p.(state := HeaderAlmostDone, nread := p.nread + 1), [Emit(Value)])
  {
    HeaderByte(p, CR);
    hide ByteStep, ValueByte, HeaderFieldStep, HeaderValueStartStep, HeadersAlmostDoneStep;
  }

  lemma LineFeed(p: Parser)
    requires p.state.HeaderAlmostDone? && p.nread + 1 <= p.maxHeaderSize
    ensures ByteStep(p, LF) == Next(p.(state := HeaderValueLws, nread := p.nread + 1), [])
  {
    HeaderByte(p, LF);
    hide ByteStep, HeaderValueStep, HeaderFieldStep, HeaderValueStartStep, HeadersAlmostDoneStep;
  }

  /** The byte that shows that the header is complete. */
  lemma HeaderConcluded(p: Parser, ch: Byte)
    requires p.state.HeaderValueLws? && CodingState(p.headerState) && p.nread + 1 <= p.maxHeaderSize
    requires ch == CR || Token(ch) != '\0'
    ensures ByteStep(p, ch).Next? &&
      (ByteStep(p, ch).p.flags.chunked <==> p.flags.chunked || p.headerState.TransferEncodingChunked?)
  {
    HeaderByte(p, ch);
    assert Token(' ') == '\0' && Token('\t') == '\0' && Token(LF) == '\0';
    hide ByteStep, Token, HeaderValueStep, HeaderFieldStep, HeaderValueStartStep, HeadersAlmostDoneStep,
      FieldStartState;
  }

  /** A Transfer-Encoding header makes the body chunked exactly if its list is recognized as one that ends in chunked;
      and what an earlier header has made chunked remains so. */
  lemma ChunkedByHeader(p: Parser, v: seq<Byte>, ch: Byte)
    requires AtCodings(p) && v != [] && !Space(v[0]) && Plain(v) && p.nread + |v| + 3 <= p.maxHeaderSize
    requires ch == CR || Token(ch) != '\0'
    ensures var r := Run(p, v + [CR] + [LF] + [ch]);
      r.More? && (r.p.flags.chunked <==> p.flags.chunked || Recognized(v))
  {
    hide Run, ByteStep, Fold, Singles, Plain, CodingState, Recognized, Token;
    CodingsRun(p, v);
    FoldRun(p, v);
    RecognizedExactly(v);
    var a := WithCodings(p.(nread := p.nread + |v|), v);
    ValueLineEnd(a);
    var b := a.(state := HeaderAlmostDone, nread := a.nread + 1);
    OneMoreByte(p, v, CR, b);
    LineFeed(b);
    var c := b.(state := HeaderValueLws, nread := b.nread + 1);
    OneMoreByte(p, v + [CR], LF, c);
    HeaderConcluded(c, ch);
    OneMoreByte(p, v + [CR] + [LF], ch, ByteStep(c, ch).p);
  }
}
