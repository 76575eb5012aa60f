/** Lengths are read as the numbers they are written as, and the chunked coding (section 4.1 of RFC 7230) is undone. */
module HttpChunked {
  import opened Pieces
  import opened Wrappers
  import opened HttpTypes
  import opened HttpStep
  import opened HttpRun
  import opened HttpInvariant
  import opened HttpShape
  import opened HttpBlocks
  import opened HttpMarks
  import opened HttpParser

  lemma RunOne(p: Parser, ch: Byte)
    ensures Run(p, [ch]) == match ByteStep(p, ch)
      case Next(q, acts) => More(q, ByteCalls(p.state, ch, q.state, acts))
      case Stop(q, acts) => Stopped(q, ByteCalls(p.state, ch, q.state, acts), 1)
      case Fail(e) => Failed(e, 0)
      case Abort => Aborted
  {
    hide ByteStep, ByteCalls;
    RunSnoc(p, [], ch);
    assert [] + [ch] == [ch];
    match ByteStep(p, ch)
    case Next(q, acts) => assert [] + ByteCalls(p.state, ch, q.state, acts) == ByteCalls(p.state, ch, q.state, acts);
    case Stop(q, acts) => assert [] + ByteCalls(p.state, ch, q.state, acts) == ByteCalls(p.state, ch, q.state, acts);
    case Fail(e) =>
    case Abort =>
  }

  // ----- Decimal lengths

  // The largest number that may still be followed by another digit: (ULLONG_MAX - 10) / 10.
  const DECIMAL_GUARD: nat := 1844674407370955160

  /** At a Content-Length value of which no digit has been seen. */
  predicate AtLength(p: Parser) {
    && p.state.HeaderValueDiscardWs? && p.headerState.ContentLength? && !p.flags.contentLength
  }

  /** The parser after the digits ds of a Content-Length value. */
  function WithLength(p: Parser, ds: seq<Byte>): Parser
    requires forall i :: 0 <= i < |ds| ==> IsNum(ds[i])
  {
    p.(state := HeaderValue, index := 0, headerState := ContentLengthNum, flags := p.flags.(contentLength := true),
       contentLength := Decimal(ds), nread := p.nread + |ds|)
  }

  lemma FirstDigit(p: Parser, ch: Byte)
    requires AtLength(p) && IsNum(ch) && p.nread + 1 <= p.maxHeaderSize
    ensures ByteStep(p, ch) == Next(WithLength(p, [ch]), [Mark(Value)])
  {
    HeaderByte(p, ch);
    assert Decimal([ch]) == Digit(ch) by {
      assert [ch][..0] == [];
    }
    hide ByteStep, HeaderFieldStep, HeaderValueStep, HeadersAlmostDoneStep;
  }

  lemma NumByte(p: Parser, ch: Byte)
    requires p.headerState.ContentLengthNum? && IsNum(ch)
    ensures ValueByte(p, ch) ==
      if p.contentLength > DECIMAL_GUARD then Bad(InvalidContentLength)
      else Kept(p.(contentLength := p.contentLength * 10 + Digit(ch)))
  {
  }

  lemma ValueDispatch(p: Parser, ch: Byte)
    requires p.state.HeaderValue? && PlainByte(ch) && p.nread + 1 <= p.maxHeaderSize
    ensures ByteStep(p, ch) == match ValueByte(p.(nread := p.nread + 1), ch)
      case Kept(q) => Next(q, [])
      case Bad(e) => Fail(e)
      case Impossible => Abort
  {
    HeaderByte(p, ch);
    PlainValue(p.(nread := p.nread + 1), ch);
    hide ByteStep, HeaderStep, ValueByte, PlainByte;
  }

  lemma NumIsPlain(ch: Byte)
    ensures IsNum(ch) ==> PlainByte(ch)
  {
  }

  lemma NextDigit(p: Parser, ds: seq<Byte>, ch: Byte)
    requires forall i :: 0 <= i < |ds| ==> IsNum(ds[i])
    requires IsNum(ch) && p.nread + |ds| + 1 <= p.maxHeaderSize
    ensures ByteStep(WithLength(p, ds), ch) ==
      if Decimal(ds) > DECIMAL_GUARD then Fail(InvalidContentLength) else Next(WithLength(p, ds + [ch]), [])
  {
    hide ByteStep, ValueByte, Decimal;
    var q := WithLength(p, ds);
    NumIsPlain(ch);
    ValueDispatch(q, ch);
    NumByte(q.(nread := q.nread + 1), ch);
    DecimalSnoc(ds, ch);
    hide IsNum, PlainByte;
  }

  lemma DecimalSnoc(ds: seq<Byte>, ch: Byte)
    requires forall i :: 0 <= i < |ds| ==> IsNum(ds[i])
    requires IsNum(ch)
    ensures Decimal(ds + [ch]) == 10 * Decimal(ds) + Digit(ch)
  {
    assert (ds + [ch])[..|ds|] == ds;
  }

  lemma {:induction false} DecimalPrefix(ds: seq<Byte>, k: nat)
    requires k <= |ds| && forall i :: 0 <= i < |ds| ==> IsNum(ds[i])
    ensures Decimal(ds[..k]) <= Decimal(ds)
  {
    if k < |ds| {
      DecimalPrefix(ds[..|ds| - 1], k);
      assert ds[..|ds| - 1][..k] == ds[..k];
    } else {
      assert ds[..k] == ds;
    }
  }

  /** The guard keeps the number, and every number before it, in range. */
  lemma GuardedLength(p: Parser, ds: seq<Byte>)
    requires forall i :: 0 <= i < |ds| ==> IsNum(ds[i])
    requires ds != [] && Decimal(ds[..|ds| - 1]) <= DECIMAL_GUARD
    ensures WithLength(p, ds).contentLength == Decimal(ds) < ABSENT
    ensures WithLength(p, ds).state.HeaderValue?
  {
    assert ds == ds[..|ds| - 1] + [ds[|ds| - 1]];
    DecimalSnoc(ds[..|ds| - 1], ds[|ds| - 1]);
    hide Decimal;
  }

  lemma OneDigit(p: Parser, last: Byte)
    requires AtLength(p) && IsNum(last) && p.nread + 1 <= p.maxHeaderSize
    ensures Run(p, [last]) == More(WithLength(p, [last]), Singles(Value, [last]))
  {
    FirstDigit(p, last);
    EmptyRun(p, Value);
    hide ByteStep, Run, WithLength, AtLength, IsNum;
    BlockSnoc(p, [], last, p, WithLength(p, [last]), [Mark(Value)], Value);
    assert [] + [last] == [last];
  }

  lemma {:induction false} AcceptedDigits(p: Parser, ds: seq<Byte>)
    requires AtLength(p) && ds != [] && p.nread + |ds| <= p.maxHeaderSize
    requires forall i :: 0 <= i < |ds| ==> IsNum(ds[i])
    requires Decimal(ds[..|ds| - 1]) <= DECIMAL_GUARD
    ensures Run(p, ds) == More(WithLength(p, ds), Singles(Value, ds))
    decreases |ds|
  {
    hide ByteStep, Run, WithLength, IsNum, AtLength, Singles;
    var init, last := ds[..|ds| - 1], ds[|ds| - 1];
    assert ds == init + [last];
    if init == [] {
      assert ds == [last];
      OneDigit(p, last);
    } else {
      DecimalPrefix(init, |init| - 1);
      hide Decimal;
      AcceptedDigits(p, init);
      GuardedLength(p, init);
      GuardedLength(p, ds);
      NextDigit(p, init, last);
      BlockSnoc(p, init, last, WithLength(p, init), WithLength(p, ds), [], Value);
    }
  }

  /** Digits are accepted exactly as long as the number before the last digit is below the guard; then the length is the
      number they stand for, without wrap-around, and never the value that means "absent". */
  lemma {:induction false} ContentLengthValue(p: Parser, ds: seq<Byte>)
    requires AtLength(p) && ds != [] && p.nread + |ds| <= p.maxHeaderSize
    requires forall i :: 0 <= i < |ds| ==> IsNum(ds[i])
    ensures Decimal(ds[..|ds| - 1]) <= DECIMAL_GUARD ==>
      && Run(p, ds) == More(WithLength(p, ds), Singles(Value, ds))
      && WithLength(p, ds).contentLength == Decimal(ds) < ABSENT
    ensures Decimal(ds[..|ds| - 1]) > DECIMAL_GUARD ==> Run(p, ds).Failed? && Run(p, ds).errno.InvalidContentLength?
    decreases |ds|
  {
    hide ByteStep, Run, AtLength, WithLength, IsNum;
    var init, last := ds[..|ds| - 1], ds[|ds| - 1];
    assert ds == init + [last];
    if Decimal(init) <= DECIMAL_GUARD {
      AcceptedDigits(p, ds);
      GuardedLength(p, ds);
    } else if Decimal(init[..|init| - 1]) > DECIMAL_GUARD {
      hide Decimal;
      ContentLengthValue(p, init);
      RunConcat(p, init, [last]);
    } else {
      hide Decimal;
      AcceptedDigits(p, init);
      NextDigit(p, init, last);
      RunSnoc(p, init, last);
    }
  }

  /** A number, and spaces behind it: k digits, of which all but the last one stay below the guard. */
  predicate LengthText(ds: seq<Byte>, k: nat) {
    && 0 < k <= |ds| && (forall i :: 0 <= i < k ==> IsNum(ds[i])) && (forall i :: k <= i < |ds| ==> ds[i] == ' ')
    && Decimal(ds[..k - 1]) <= DECIMAL_GUARD
  }

  function AfterLength(p: Parser, ds: seq<Byte>, k: nat): Parser
    requires LengthText(ds, k)
  {
    WithLength(p, ds[..k]).(headerState :=
      if k < |ds| then ContentLengthWs else ContentLengthNum, nread := p.nread + |ds|)
  }

  predicate Breaks(ch: Byte) { ch == CR || ch == LF }

  lemma LengthByte(q: Parser, ch: Byte)
    requires q.state.HeaderValue? && (q.headerState.ContentLengthNum? || q.headerState.ContentLengthWs?)
    requires !Breaks(ch) && q.nread + 1 <= q.maxHeaderSize
    ensures ch == ' ' ==> ByteStep(q, ch) == Next(q.(nread := q.nread + 1, headerState := ContentLengthWs), [])
    ensures ch != ' ' && (!IsNum(ch) || q.headerState.ContentLengthWs?) ==> ByteStep(q, ch).Fail?
    ensures IsNum(ch) && q.headerState.ContentLengthNum? && q.contentLength > DECIMAL_GUARD ==> ByteStep(q, ch).Fail?
  {
    var r := q.(nread := q.nread + 1);
    HeaderByte(q, ch);
    LengthValueByte(r, ch);
    hide ByteStep, ValueByte, HeaderFieldStep, HeaderValueStartStep, HeadersAlmostDoneStep;
  }

  lemma LengthValueByte(r: Parser, ch: Byte)
    requires r.headerState.ContentLengthNum? || r.headerState.ContentLengthWs?
    ensures ch == ' ' ==> IsHeaderChar(ch) && ValueByte(r, ch) == Kept(r.(headerState := ContentLengthWs))
    ensures ch != ' ' && (!IsNum(ch) || r.headerState.ContentLengthWs?) ==> ValueByte(r, ch).Bad?
    ensures IsNum(ch) && r.headerState.ContentLengthNum? && r.contentLength > DECIMAL_GUARD ==> ValueByte(r, ch).Bad?
  {
  }

  lemma FirstNotDigit(p: Parser, ch: Byte)
    requires AtLength(p) && !IsNum(ch) && !Breaks(ch) && ch != ' ' && ch != '\t' && p.nread + 1 <= p.maxHeaderSize
    ensures ByteStep(p, ch).Fail?
  {
    HeaderByte(p, ch);
    hide ByteStep, HeaderFieldStep, HeaderValueStep, HeadersAlmostDoneStep;
  }

  /** One more byte, seen from the text alone. */
  lemma TextNext(init: seq<Byte>, last: Byte)
    requires init != []
    ensures var ds := init + [last];
      && (forall k: nat :: LengthText(init, k) && last == ' ' ==> LengthText(ds, k))
      && (forall k: nat :: LengthText(ds, k) && k < |ds| ==> LengthText(init, k) && last == ' ')
      && (forall k: nat :: LengthText(ds, k) ==> k <= |ds|)
      && (LengthText(ds, |ds|) <==> IsNum(last) && LengthText(init, |init|) && Decimal(init) <= DECIMAL_GUARD)
  {
    var ds := init + [last];
    assert ds[..|init|] == init;
    forall k: nat | LengthText(init, k) && last == ' ' ensures LengthText(ds, k) {
      assert ds[..k - 1] == init[..k - 1];
    }
    forall k: nat | LengthText(ds, k) && k < |ds| ensures LengthText(init, k) && last == ' ' {
      assert ds[|init|] == last && ds[..k - 1] == init[..k - 1];
      assert forall i :: 0 <= i < |init| ==> init[i] == ds[i];
    }
    if (forall i :: 0 <= i < |init| ==> IsNum(init[i])) {
      DecimalPrefix(init, |init| - 1);
      assert init[..|init| - 1] == ds[..|init| - 1];
    }
    if LengthText(ds, |ds|) {
      assert ds[|init|] == last && forall i :: 0 <= i < |init| ==> init[i] == ds[i];
    }
    hide Decimal;
  }

  /** Exactly the values of this form are accepted, whatever the bytes: the length is the number in front. */
  lemma {:induction false} LengthAccepted(p: Parser, ds: seq<Byte>)
    requires AtLength(p) && ds != [] && ds[0] != ' ' && ds[0] != '\t' && p.nread + |ds| <= p.maxHeaderSize
    requires forall i :: 0 <= i < |ds| ==> !Breaks(ds[i])
    ensures forall k: nat :: LengthText(ds, k) ==> Run(p, ds) == More(AfterLength(p, ds, k), Singles(Value, ds))
    ensures (forall k: nat :: !LengthText(ds, k)) ==> Run(p, ds).Failed?
    ensures forall k: nat :: LengthText(ds, k) ==> Decimal(ds[..k]) < ABSENT
    decreases |ds|
  {
    hide ByteStep, Run, Singles, WithLength, AtLength;
    forall k: nat | LengthText(ds, k) ensures Decimal(ds[..k]) < ABSENT {
      LengthInRange(p, ds[..k], ds, k);
    }
    hide Decimal, LengthText;
    var init, last := ds[..|ds| - 1], ds[|ds| - 1];
    assert ds == init + [last];
    if init == [] {
      assert ds == [last];
      LengthAlone(p, last);
    } else {
      LengthAccepted(p, init);
      LengthNext(p, init, last);
    }
  }

  lemma LengthInRange(p: Parser, number: seq<Byte>, ds: seq<Byte>, k: nat)
    requires LengthText(ds, k) && number == ds[..k]
    ensures (forall i :: 0 <= i < |number| ==> IsNum(number[i])) && Decimal(number) < ABSENT
  {
    assert number[..k - 1] == ds[..k - 1];
    GuardedLength(p, number);
  }

  lemma LengthAlone(p: Parser, ch: Byte)
    requires AtLength(p) && !Breaks(ch) && ch != ' ' && ch != '\t' && p.nread + 1 <= p.maxHeaderSize
    ensures forall k: nat :: LengthText([ch], k) ==> Run(p, [ch]) == More(AfterLength(p, [ch], k), Singles(Value, [ch]))
    ensures (forall k: nat :: !LengthText([ch], k)) ==> Run(p, [ch]).Failed?
  {
    hide Run, ByteStep, Singles;
    if IsNum(ch) {
      assert [ch][..0] == [] && [ch][..1] == [ch] && Decimal([]) == 0;
      assert LengthText([ch], 1);
      OneDigit(p, ch);
    } else {
      FirstNotDigit(p, ch);
      RunOne(p, ch);
    }
  }

  lemma LengthNext(p: Parser, init: seq<Byte>, last: Byte)
    requires AtLength(p) && init != [] && p.nread + |init| + 1 <= p.maxHeaderSize && !Breaks(last)
    requires forall k: nat :: LengthText(init, k) ==>
      Run(p, init) == More(AfterLength(p, init, k), Singles(Value, init))
    requires (forall k: nat :: !LengthText(init, k)) ==> Run(p, init).Failed?
    ensures var ds := init + [last];
      && (forall k: nat :: LengthText(ds, k) ==> Run(p, ds) == More(AfterLength(p, ds, k), Singles(Value, ds)))
      && ((forall k: nat :: !LengthText(ds, k)) ==> Run(p, ds).Failed?)
  {
    hide ByteStep, Run, Singles, Decimal, LengthText, AfterLength, WithLength, AtLength;
    var ds := init + [last];
    TextNext(init, last);
    if k: nat :| LengthText(init, k) {
      forall j: nat | LengthText(ds, j) ensures Run(p, ds) == More(AfterLength(p, ds, j), Singles(Value, ds)) {
        LengthGoesOn(p, init, last, if j == |ds| then |init| else j, j);
      }
      if forall j: nat :: !LengthText(ds, j) {
        LengthStops(p, init, last, k);
      }
    } else {
      RunConcat(p, init, [last]);
    }
  }

  lemma LengthGoesOn(p: Parser, init: seq<Byte>, last: Byte, k: nat, j: nat)
    requires AtLength(p) && p.nread + |init| + 1 <= p.maxHeaderSize && !Breaks(last)
    requires LengthText(init, k) && Run(p, init) == More(AfterLength(p, init, k), Singles(Value, init))
    requires LengthText(init + [last], j) && j == (if j == |init| + 1 then k + 1 else k)
    ensures Run(p, init + [last]) == More(AfterLength(p, init + [last], j), Singles(Value, init + [last]))
  {
    hide ByteStep, Run, Decimal, Singles, AtLength;
    var ds := init + [last];
    assert ds[|init|] == last;
    var q := AfterLength(p, init, k);
    LengthByte(q, last);
    if j == |ds| {
      assert init[..k] == init && ds[..j] == ds;
      NextDigit(p, init, last);
    } else {
      assert ds[..j] == init[..k];
    }
    BlockSnoc(p, init, last, q, AfterLength(p, ds, j), [], Value);
  }

  lemma LengthStops(p: Parser, init: seq<Byte>, last: Byte, k: nat)
    requires AtLength(p) && init != [] && p.nread + |init| + 1 <= p.maxHeaderSize && !Breaks(last)
    requires LengthText(init, k) && Run(p, init) == More(AfterLength(p, init, k), Singles(Value, init))
    requires forall j: nat :: !LengthText(init + [last], j)
    ensures Run(p, init + [last]).Failed?
  {
    var q := AfterLength(p, init, k);
    LengthByte(q, last);
    TextNext(init, last);
    assert last != ' ';
    if k == |init| {
      assert init[..k] == init;
    }
    assert ByteStep(q, last).Fail?;
    hide ByteStep, Run, Decimal, LengthText, Singles;
    RunSnoc(p, init, last);
  }

  // ----- Chunk sizes

  predicate HexDigits(ds: seq<Byte>) { forall i :: 0 <= i < |ds| ==> IsHex(ds[i]) }

  function HexDigit(ch: Byte): nat
    requires IsHex(ch)
  {
    if IsNum(ch) then Digit(ch) else Lower(ch) as int - 'a' as int + 10
  }

  /** The number that a string of hexadecimal digits of either case stands for. */
  function Hexadecimal(ds: seq<Byte>): nat
    requires HexDigits(ds)
  {
    if ds == [] then 0 else 16 * Hexadecimal(ds[..|ds| - 1]) + HexDigit(ds[|ds| - 1])
  }

  /** The table of digit values is right for every hexadecimal digit, and refuses exactly the other bytes below 128. */
  lemma UnhexValue(ch: Byte)
    ensures IsHex(ch) ==> Unhex(ch) == HexDigit(ch)
    ensures Unhex(ch) == -1 <==> !IsHex(ch) && ch as int < 128
  {
  }

  /** (ULLONG_MAX - 16) / 16 */
  const HEX_GUARD: nat := 0xFFF_FFFF_FFFF_FFFE

  predicate AtChunk(p: Parser) {
    p.state.ChunkSizeStart? && p.flags.chunked && p.nread == 0 && p.maxHeaderSize < WORD
  }

  lemma HexSnoc(ds: seq<Byte>, ch: Byte)
    requires HexDigits(ds) && IsHex(ch)
    ensures HexDigits(ds + [ch]) && Hexadecimal(ds + [ch]) == 16 * Hexadecimal(ds) + HexDigit(ch)
    ensures Hexadecimal([]) == 0 && HexDigit(ch) <= 15
  {
    assert (ds + [ch])[..|ds|] == ds;
  }

  /** Bytes that the parser takes for digits: those of which the table does not say -1. */
  predicate DigitLike(ch: Byte) { Unhex(ch) != -1 }

  function DigitOf(ch: Byte): nat { if DigitLike(ch) && Unhex(ch) >= 0 then Unhex(ch) else 0 }

  predicate AllDigitLike(ds: seq<Byte>) { forall i :: 0 <= i < |ds| ==> DigitLike(ds[i]) }

  /** The number that the parser makes of them. */
  function Reading(ds: seq<Byte>): nat
    requires AllDigitLike(ds)
  {
    if ds == [] then 0 else 16 * Reading(ds[..|ds| - 1]) + DigitOf(ds[|ds| - 1])
  }

  lemma ReadingSnoc(ds: seq<Byte>, ch: Byte)
    requires AllDigitLike(ds)
    ensures AllDigitLike(ds + [ch]) <==> DigitLike(ch)
    ensures DigitLike(ch) ==> Reading(ds + [ch]) == 16 * Reading(ds) + DigitOf(ch) && DigitOf(ch) == Unhex(ch) <= 15
    ensures Reading([]) == 0
  {
    assert (ds + [ch])[..|ds|] == ds && (ds + [ch])[|ds|] == ch;
    UnhexRange(ch);
    hide Unhex;
  }

  /** The bytes from 128 on, put as the digits that they count as. */
  function Zeroed(ds: seq<Byte>): (r: seq<Byte>)
    ensures |r| == |ds| && forall i :: 0 <= i < |r| ==> r[i] == if ds[i] as int < 128 then ds[i] else '0'
  {
    seq(|ds|, i requires 0 <= i < |ds| => if ds[i] as int < 128 then ds[i] else '0')
  }

  /** What is read is the hexadecimal value, with a zero for each byte from 128 on. */
  lemma ReadingIsHex(ds: seq<Byte>)
    requires AllDigitLike(ds)
    ensures HexDigits(Zeroed(ds)) && Reading(ds) == Hexadecimal(Zeroed(ds))
    ensures HexDigits(ds) <==> forall i :: 0 <= i < |ds| ==> ds[i] as int < 128
    ensures HexDigits(ds) ==> Zeroed(ds) == ds
  {
    hide Unhex, IsHex, HexDigit, Reading, Hexadecimal;
    ZeroedIsHex(ds);
    forall i | 0 <= i < |ds| ensures IsHex(ds[i]) <==> ds[i] as int < 128 {
      UnhexValue(ds[i]);
      StrayValue(ds[i]);
    }
  }

  lemma {:induction false} ZeroedIsHex(ds: seq<Byte>)
    requires AllDigitLike(ds)
    ensures HexDigits(Zeroed(ds)) && Reading(ds) == Hexadecimal(Zeroed(ds))
    decreases |ds|
  {
    hide Unhex, IsHex, HexDigit;
    if ds == [] {
      assert Zeroed(ds) == [];
    } else {
      var init, last := ds[..|ds| - 1], ds[|ds| - 1];
      assert ds == init + [last];
      ZeroedIsHex(init);
      ReadingSnoc(init, last);
      ZeroedSnoc(init, last);
      hide Zeroed, Reading, Hexadecimal;
    }
  }

  lemma ZeroedSnoc(init: seq<Byte>, last: Byte)
    requires HexDigits(Zeroed(init)) && DigitLike(last)
    ensures HexDigits(Zeroed(init + [last]))
    ensures Hexadecimal(Zeroed(init + [last])) == 16 * Hexadecimal(Zeroed(init)) + DigitOf(last)
  {
    var z: Byte := if last as int < 128 then last else '0';
    assert Zeroed(init + [last]) == Zeroed(init) + [z];
    ZeroDigit();
    UnhexValue(last);
    StrayValue(last);
    HexSnoc(Zeroed(init), z);
    hide IsHex, HexDigit, Hexadecimal, Unhex;
  }

  lemma ZeroDigit()
    ensures IsHex('0') && HexDigit('0') == 0
  {
  }

  lemma StrayValue(ch: Byte)
    ensures ch as int >= 128 ==> Unhex(ch) == 0 && !IsHex(ch)
  {
  }

  /** The bytes that end a chunk size. */
  predicate EndsSize(ch: Byte) { ch == CR || ch == ';' || ch == ' ' }

  predicate OneSize(ds: seq<Byte>) { forall i :: 0 <= i < |ds| ==> !EndsSize(ds[i]) }

  function WithSize(p: Parser, ds: seq<Byte>): Parser
    requires AllDigitLike(ds)
  {
    p.(state := ChunkSize, contentLength := Reading(ds), nread := |ds|)
  }

  lemma FirstHex(p: Parser, ch: Byte)
    requires AtChunk(p) && 1 <= p.maxHeaderSize
    ensures AllDigitLike([ch]) <==> DigitLike(ch)
    ensures ByteStep(p, ch) == if DigitLike(ch) then Next(WithSize(p, [ch]), []) else Fail(InvalidChunkSize)
  {
    ReadingOne(ch);
    FirstSize(p, ch);
    hide ByteStep, DigitLike, DigitOf, AllDigitLike, Reading;
  }

  lemma ReadingOne(ch: Byte)
    ensures AllDigitLike([ch]) <==> DigitLike(ch)
    ensures DigitLike(ch) ==> Reading([ch]) == DigitOf(ch)
  {
    ReadingSnoc([], ch);
    assert [] + [ch] == [ch];
    hide Unhex, Reading;
  }

  lemma FirstSize(p: Parser, ch: Byte)
    requires AtChunk(p) && 1 <= p.maxHeaderSize
    ensures ByteStep(p, ch) ==
      if DigitLike(ch) then Next(p.(state := ChunkSize, contentLength := DigitOf(ch), nread := 1), [])
      else Fail(InvalidChunkSize)
  {
    ChunkByte(p, ch);
    UnhexRange(ch);
    hide ByteStep, Unhex;
  }

  lemma SizeByte(p: Parser, ch: Byte)
    requires p.state.ChunkSize? && p.flags.chunked && !EndsSize(ch) && p.nread + 1 <= p.maxHeaderSize
    ensures ByteStep(p, ch) ==
      if !DigitLike(ch) then Fail(InvalidChunkSize)
      else if p.contentLength > HEX_GUARD then Fail(InvalidContentLength)
      else Next(p.(nread := p.nread + 1, contentLength := 16 * p.contentLength + DigitOf(ch)), [])
  {
    UnhexRange(ch);
    ChunkByte(p, ch);
    hide Unhex, ByteStep;
  }

  lemma NextHex(p: Parser, ds: seq<Byte>, ch: Byte)
    requires AtChunk(p) && AllDigitLike(ds) && !EndsSize(ch) && |ds| + 1 <= p.maxHeaderSize
    ensures AllDigitLike(ds + [ch]) <==> DigitLike(ch)
    ensures ByteStep(WithSize(p, ds), ch) ==
      if !DigitLike(ch) then Fail(InvalidChunkSize)
      else if Reading(ds) > HEX_GUARD then Fail(InvalidContentLength)
      else Next(WithSize(p, ds + [ch]), [])
  {
    hide ByteStep, Unhex, Reading;
    ReadingSnoc(ds, ch);
    SizeByte(WithSize(p, ds), ch);
  }

  lemma {:induction false} ReadingPrefix(ds: seq<Byte>, k: nat)
    requires k <= |ds| && AllDigitLike(ds)
    ensures Reading(ds[..k]) <= Reading(ds)
  {
    hide Unhex;
    if k < |ds| {
      UnhexRange(ds[|ds| - 1]);
      ReadingPrefix(ds[..|ds| - 1], k);
      assert ds[..|ds| - 1][..k] == ds[..k];
    } else {
      assert ds[..k] == ds;
    }
  }

  lemma QuietSnoc(p: Parser, bytes: seq<Byte>, ch: Byte, calls: seq<Call>, q: Parser, r: Parser, acts: seq<Act>)
    requires Run(p, bytes) == More(q, calls)
    requires ByteStep(q, ch) == Next(r, acts) && SpanOf(q.state, r.state) == None
    ensures Run(p, bytes + [ch]) == More(r, calls + Notices(acts))
  {
    RunSnoc(p, bytes, ch);
    hide Run, ByteStep, SpanOf, Notices;
  }

  /** When some bytes, none of which ends a chunk size, are accepted as one: if they all count as digits, and the number
      before the last digit is below the guard. */
  predicate SizeAccepted(ds: seq<Byte>)
    requires ds != []
  {
    AllDigitLike(ds) && Reading(ds[..|ds| - 1]) <= HEX_GUARD
  }

  lemma SizeInRange(ds: seq<Byte>)
    requires ds != [] && SizeAccepted(ds)
    ensures Reading(ds) < ABSENT
  {
    var init, last := ds[..|ds| - 1], ds[|ds| - 1];
    assert ds == init + [last];
    ReadingSnoc(init, last);
    hide Reading, Unhex;
  }

  lemma {:induction false} ChunkSizeRead(p: Parser, ds: seq<Byte>)
    requires AtChunk(p) && ds != [] && OneSize(ds) && |ds| <= p.maxHeaderSize
    ensures if SizeAccepted(ds) then Run(p, ds) == More(WithSize(p, ds), [])
      else Run(p, ds).Failed? && (Run(p, ds).errno.InvalidChunkSize? || Run(p, ds).errno.InvalidContentLength?)
    decreases |ds|
  {
    hide ByteStep, Run, Unhex, Reading, EndsSize, DigitLike;
    var init, last := ds[..|ds| - 1], ds[|ds| - 1];
    assert ds == init + [last];
    StartEmpty(p);
    if init == [] {
      ReadingSnoc([], last);
      assert ds == [last];
      FirstHex(p, last);
      if DigitLike(last) {
        QuietSnoc(p, [], last, [], p, WithSize(p, ds), []);
      } else {
        RunSnoc(p, [], last);
      }
    } else {
      ChunkSizeRead(p, init);
      RestAccepted(init, last);
      if SizeAccepted(init) {
        NextHex(p, init, last);
        if SizeAccepted(ds) {
          QuietSnoc(p, init, last, [], WithSize(p, init), WithSize(p, ds), []);
        } else {
          RunSnoc(p, init, last);
        }
      } else {
        RunConcat(p, init, [last]);
      }
    }
  }

  lemma RestAccepted(init: seq<Byte>, last: Byte)
    requires init != []
    ensures (init + [last])[..|init|] == init
    ensures SizeAccepted(init + [last]) ==> SizeAccepted(init)
    ensures SizeAccepted(init) ==> (SizeAccepted(init + [last]) <==> DigitLike(last) && Reading(init) <= HEX_GUARD)
  {
    hide Reading, DigitLike;
    var ds := init + [last];
    assert ds[..|init|] == init;
    if AllDigitLike(ds) {
      assert forall i :: 0 <= i < |init| ==> ds[i] == init[i];
      ReadingPrefix(init, |init| - 1);
    }
    if AllDigitLike(init) {
      ReadingSnoc(init, last);
    }
  }

  /** A chunk size that is accepted equals its hexadecimal value exactly if it consists of hexadecimal digits; what else
      is accepted has bytes from 128 on, and each of them counts as a zero. In any case the size is never the value that
      means "absent". */
  lemma SizeIsHexadecimal(p: Parser, ds: seq<Byte>)
    requires AtChunk(p) && ds != [] && OneSize(ds) && Run(p, ds).More?
    ensures var q := Run(p, ds).p;
      && q.state.ChunkSize? && q.contentLength < ABSENT
      && HexDigits(Zeroed(ds)) && q.contentLength == Hexadecimal(Zeroed(ds))
      && (HexDigits(ds) <==> forall i :: 0 <= i < |ds| ==> ds[i] as int < 128)
      && (HexDigits(ds) ==> q.contentLength == Hexadecimal(ds))
  {
    hide Run, Hexadecimal, Reading, IsHex;
    SizeWithinLimit(p, ds);
    ChunkSizeRead(p, ds);
    SizeInRange(ds);
    ReadingIsHex(ds);
  }

  lemma SizeWithinLimit(p: Parser, ds: seq<Byte>)
    requires AtChunk(p) && OneSize(ds) && Run(p, ds).More?
    ensures |ds| <= p.maxHeaderSize
  {
    hide Run, Reading, EndsSize;
    if |ds| > p.maxHeaderSize {
      var k := p.maxHeaderSize;
      assert ds == ds[..k] + ds[k..];
      RunPrefix(p, ds[..k], ds[k..]);
      if k == 0 {
        StartEmpty(p);
        assert ds[..k] == [];
      } else {
        ChunkSizeRead(p, ds[..k]);
      }
      FullStops(p, ds, k);
    }
  }

  /** The same for the size of a chunk that is written in digits. */
  lemma ChunkSizeValue(p: Parser, ds: seq<Byte>)
    requires AtChunk(p) && ds != [] && HexDigits(ds) && |ds| <= p.maxHeaderSize
    ensures Hexadecimal(ds[..|ds| - 1]) <= HEX_GUARD ==>
      Run(p, ds) == More(p.(state := ChunkSize, contentLength := Hexadecimal(ds), nread := |ds|), []) &&
        Hexadecimal(ds) < ABSENT
    ensures Hexadecimal(ds[..|ds| - 1]) > HEX_GUARD ==> Run(p, ds).Failed? && Run(p, ds).errno.InvalidContentLength?
  {
    DigitsAreDigitLike(ds);
    var init := ds[..|ds| - 1];
    assert HexDigits(init) && AllDigitLike(init);
    hide Run, Hexadecimal, Reading, IsHex, DigitLike, EndsSize;
    ReadingIsHex(ds);
    ReadingIsHex(init);
    ChunkSizeRead(p, ds);
    if SizeAccepted(ds) {
      SizeInRange(ds);
    } else {
      TooLarge(p, ds);
    }
  }

  lemma DigitsAreDigitLike(ds: seq<Byte>)
    requires HexDigits(ds)
    ensures AllDigitLike(ds) && OneSize(ds)
  {
    forall i | 0 <= i < |ds| ensures DigitLike(ds[i]) && !EndsSize(ds[i]) {
      UnhexValue(ds[i]);
    }
  }

  /** Digits are only refused because there are too many of them. */
  lemma {:induction false} TooLarge(p: Parser, ds: seq<Byte>)
    requires AtChunk(p) && ds != [] && OneSize(ds) && AllDigitLike(ds) && |ds| <= p.maxHeaderSize && !SizeAccepted(ds)
    ensures Run(p, ds).Failed? && Run(p, ds).errno.InvalidContentLength?
    decreases |ds|
  {
    hide ByteStep, Run, Unhex, EndsSize, DigitLike;
    var init, last := ds[..|ds| - 1], ds[|ds| - 1];
    assert ds == init + [last];
    assert init != [];
    hide Reading;
    if SizeAccepted(init) {
      ChunkSizeRead(p, init);
      NextHex(p, init, last);
      RunSnoc(p, init, last);
    } else {
      TooLarge(p, init);
      RunConcat(p, init, [last]);
    }
  }

  lemma StartEmpty(p: Parser)
    ensures Run(p, []) == More(p, []) && Notices([]) == []
  {
  }

  /** For instance: byte 255 counts as a zero digit, and the chunk is taken to have 16 bytes. */
  lemma StrayByteIsZeroDigit(p: Parser)
    requires AtChunk(p) && 2 <= p.maxHeaderSize
    ensures var bytes: seq<Byte> := ['1', 255 as char];
      !HexDigits(bytes) && Run(p, bytes).More? && Run(p, bytes).p.state.ChunkSize? &&
        Run(p, bytes).p.contentLength == 16
  {
    var bytes: seq<Byte> := ['1', 255 as char];
    assert !IsHex(bytes[1]);
    ReadingSnoc([], '1');
    ReadingSnoc(['1'], 255 as char);
    assert [] + ['1'] == ['1'] && ['1'] + [255 as char] == bytes && bytes[..1] == ['1'];
    hide Run, Reading;
    ChunkSizeRead(p, bytes);
  }

  // ----- The chunked coding

  // A chunk: its data, and the extension that may follow the size.
  datatype Chunk = Chunk(data: seq<Byte>, ext: seq<Byte>)

  function HexChar(n: nat): Byte
    requires n < 16
  {
    if n < 10 then ('0' as int + n) as char else ('a' as int + n - 10) as char
  }

  function Hex(n: nat): seq<Byte> {
    if n < 16 then [HexChar(n)] else Hex(n / 16) + [HexChar(n % 16)]
  }

  lemma {:induction false} HexValue(n: nat)
    ensures Hex(n) != [] && HexDigits(Hex(n)) && Hexadecimal(Hex(n)) == n
  {
    if n < 16 {
      HexSnoc([], HexChar(n));
      assert [] + [HexChar(n)] == [HexChar(n)];
    } else {
      HexValue(n / 16);
      HexSnoc(Hex(n / 16), HexChar(n % 16));
    }
  }

  predicate Extension(ext: seq<Byte>) {
    && (ext != [] ==> ext[0] == ';')
    && forall i :: 0 <= i < |ext| ==> ext[i] != CR && ext[i] != LF
  }

  /** chunk-size [ chunk-ext ] CRLF */
  function SizeLine(n: nat, ext: seq<Byte>): seq<Byte> { Hex(n) + ext + [CR, LF] }

  predicate ChunkOk(c: Chunk, limit: nat) {
    0 < |c.data| <= MAX_CHUNK_SIZE && Extension(c.ext) && |SizeLine(|c.data|, c.ext)| <= limit
  }

  function EncodeChunk(c: Chunk): seq<Byte> { SizeLine(|c.data|, c.ext) + c.data + [CR, LF] }

  /** chunked-body, without trailers: chunks, last-chunk, CRLF */
  function Encode(chunks: seq<Chunk>): seq<Byte> {
    if chunks == [] then SizeLine(0, []) + [CR, LF] else EncodeChunk(chunks[0]) + Encode(chunks[1..])
  }

  function Payload(chunks: seq<Chunk>): seq<Byte> {
    if chunks == [] then [] else chunks[0].data + Payload(chunks[1..])
  }

  /** The callbacks that announce and deliver the chunks, and then complete the message once. */
  function Announced(chunks: seq<Chunk>): seq<Call> {
    if chunks == [] then [Notify(ChunkHeader), Notify(ChunkComplete), Notify(MessageComplete)]
    else [Notify(ChunkHeader)] + Singles(Body, chunks[0].data) + [Notify(ChunkComplete)] + Announced(chunks[1..])
  }

  // ----- Decoding what was encoded

  lemma StepFold(p: Parser, a: seq<Byte>, b: seq<Byte>, q: Parser, r: Parser, calls: seq<Call>, more: seq<Call>)
    requires Run(p, a) == More(q, calls) && Run(q, b) == More(r, more)
    ensures Run(p, a + b) == More(r, calls + more)
  {
    RunConcat(p, a, b);
    hide Run;
  }

  lemma HexRun(p: Parser, n: nat)
    requires AtChunk(p) && n <= MAX_CHUNK_SIZE && |Hex(n)| <= p.maxHeaderSize
    ensures Run(p, Hex(n)) == More(p.(state := ChunkSize, contentLength := n, nread := |Hex(n)|), [])
  {
    HexValue(n);
    var ds := Hex(n);
    if n >= 16 {
      HexValue(n / 16);
      assert ds[..|ds| - 1] == Hex(n / 16);
    } else {
      assert ds[..|ds| - 1] == [];
    }
    ChunkSizeValue(p, ds);
    hide Run, Hexadecimal, Hex;
  }

  predicate InSize(p: Parser) {
    (p.state.ChunkSize? || p.state.ChunkParameters?) && p.flags.chunked && p.nread + 1 <= p.maxHeaderSize
  }

  lemma ExtensionStep(p: Parser, ch: Byte)
    requires InSize(p) && ch != CR && (p.state.ChunkSize? ==> ch == ';')
    ensures ByteStep(p, ch) == Next(p.(state := ChunkParameters, nread := p.nread + 1), [])
  {
    ChunkByte(p, ch);
    hide ByteStep;
  }

  lemma {:induction false} ExtensionRun(p: Parser, ext: seq<Byte>)
    requires p.state.ChunkSize? && p.flags.chunked && Extension(ext) && p.nread + |ext| <= p.maxHeaderSize
    ensures Run(p, ext) == More(p.(state := if ext == [] then ChunkSize else ChunkParameters, nread := p.nread + |ext|),
      [])
    decreases |ext|
  {
    hide Run, ByteStep;
    StartEmpty(p);
    if ext != [] {
      var init, last := ext[..|ext| - 1], ext[|ext| - 1];
      assert ext == init + [last];
      ExtensionRun(p, init);
      var q := p.(state := if init == [] then ChunkSize else ChunkParameters, nread := p.nread + |init|);
      ExtensionStep(q, last);
      QuietSnoc(p, init, last, [], q, p.(state := ChunkParameters, nread := p.nread + |ext|), []);
    }
  }

  lemma SizeEndSteps(p: Parser)
    requires InSize(p) && p.nread + 2 <= p.maxHeaderSize
    ensures ByteStep(p, CR) == Next(p.(state := ChunkSizeAlmostDone, nread := p.nread + 1), [])
    ensures ByteStep(p.(state := ChunkSizeAlmostDone, nread := p.nread + 1), LF) ==
      Next(SizeRead(p), [Tell(ChunkHeader)])
  {
    ChunkByte(p, CR);
    ChunkByte(p.(state := ChunkSizeAlmostDone, nread := p.nread + 1), LF);
    hide ByteStep;
  }

  /** After the size line: a chunk, or for size zero the trailer. */
  function SizeRead(p: Parser): Parser {
    if p.contentLength == 0 then p.(nread := 0, flags := p.flags.(trailing := true), state := HeaderFieldStart)
    else p.(nread := 0, state := ChunkData)
  }

  lemma SizeLineRun(p: Parser, n: nat, ext: seq<Byte>)
    requires AtChunk(p) && n <= MAX_CHUNK_SIZE && Extension(ext) && |SizeLine(n, ext)| <= p.maxHeaderSize
    ensures Run(p, SizeLine(n, ext)) == More(SizeRead(p.(contentLength := n)), [Notify(ChunkHeader)])
  {
    hide Run, ByteStep, Hex, Extension, SizeRead, Notices;
    var h := Hex(n);
    var q := p.(state := ChunkSize, contentLength := n, nread := |h|);
    HexRun(p, n);
    ExtensionRun(q, ext);
    var r := q.(state := if ext == [] then ChunkSize else ChunkParameters, nread := |h| + |ext|);
    StepFold(p, h, ext, q, r, [], []);
    SizeEndSteps(r);
    SizeReadState(r);
    assert SizeRead(r) == SizeRead(p.(contentLength := n)) by {
      SizeReadSame(p.(contentLength := n), r.state, r.nread);
    }
    var s := r.(state := ChunkSizeAlmostDone, nread := r.nread + 1);
    QuietSnoc(p, h + ext, CR, [], r, s, []);
    TellNotice(ChunkHeader);
    StartEmpty(p);
    QuietSnoc(p, h + ext + [CR], LF, [], s, SizeRead(r), [Tell(ChunkHeader)]);
    assert h + ext + [CR] + [LF] == SizeLine(n, ext);
  }

  lemma SizeReadState(p: Parser)
    ensures SpanOf(ChunkSizeAlmostDone, SizeRead(p).state) == None
  {
  }

  lemma SizeReadSame(p: Parser, s: State, n: nat)
    ensures SizeRead(p.(state := s, nread := n)) == SizeRead(p)
  {
  }

  lemma TellNotice(n: Notice)
    ensures Notices([Tell(n)]) == [Notify(n)]
  {
    assert [Notify(n)] + [] == [Notify(n)];
  }

  lemma DataEndSteps(p: Parser)
    requires p.state.ChunkDataAlmostDone? && p.flags.chunked && p.contentLength == 0
    ensures ByteStep(p, CR) == Next(p.(state := ChunkDataDone), [Emit(Body)])
    ensures ByteStep(p.(state := ChunkDataDone), LF) ==
      Next(p.(nread := 0, state := ChunkSizeStart), [Tell(ChunkComplete)])
  {
    DispatchCases(p, CR);
    DispatchCases(p.(state := ChunkDataDone), LF);
    hide Dispatch;
  }

  lemma EmitNotices(k: Span)
    ensures Notices([Emit(k)]) == []
  {
  }

  lemma ChunkDataRun(p: Parser, c: Chunk)
    requires AtChunk(p) && ChunkOk(c, p.maxHeaderSize)
    ensures Run(p, SizeLine(|c.data|, c.ext) + c.data) ==
      More(p.(contentLength := 0, nread := 0, state := ChunkDataAlmostDone),
           [Notify(ChunkHeader)] + Singles(Body, c.data))
  {
    hide Run, ByteStep, Hex, Extension, Singles, SizeLine;
    SizeLineRun(p, |c.data|, c.ext);
    var q := p.(contentLength := |c.data|, nread := 0, state := ChunkData);
    ChunkBlock(q, c.data);
    var r := p.(contentLength := 0, nread := 0, state := ChunkDataAlmostDone);
    StepFold(p, SizeLine(|c.data|, c.ext), c.data, q, r, [Notify(ChunkHeader)], Singles(Body, c.data));
  }

  lemma ChunkRun(p: Parser, c: Chunk)
    requires AtChunk(p) && ChunkOk(c, p.maxHeaderSize)
    ensures Run(p, EncodeChunk(c)) ==
      More(p.(contentLength := 0), [Notify(ChunkHeader)] + Singles(Body, c.data) + [Notify(ChunkComplete)])
  {
    hide Run, ByteStep, Hex, Extension, Singles, SizeLine;
    var line := SizeLine(|c.data|, c.ext);
    ChunkDataRun(p, c);
    var r := p.(contentLength := 0, nread := 0, state := ChunkDataAlmostDone);
    var calls := [Notify(ChunkHeader)] + Singles(Body, c.data);
    DataEndSteps(r);
    EmitNotices(Body);
    QuietSnoc(p, line + c.data, CR, calls, r, r.(state := ChunkDataDone), [Emit(Body)]);
    assert calls + [] == calls;
    TellNotice(ChunkComplete);
    QuietSnoc(p, line + c.data + [CR], LF, calls, r.(state := ChunkDataDone), p.(contentLength := 0),
      [Tell(ChunkComplete)]);
    assert line + c.data + [CR] + [LF] == EncodeChunk(c);
  }

  /** Behind a whole chunk the parser reads the next size: what it has been given then is more than one size. */
  lemma SecondSize(p: Parser, c: Chunk, n: nat)
    requires AtChunk(p) && ChunkOk(c, p.maxHeaderSize) && n <= MAX_CHUNK_SIZE && |Hex(n)| <= p.maxHeaderSize
    ensures var ds := EncodeChunk(c) + Hex(n);
      Run(p, ds).More? && Run(p, ds).p.state.ChunkSize? && Run(p, ds).p.contentLength == n && !HexDigits(ds)
  {
    hide Run, Hex, EncodeChunk;
    ChunkRun(p, c);
    HexRun(p.(contentLength := 0), n);
    RunConcat(p, EncodeChunk(c), Hex(n));
    EndsInLine(c);
    var k := |EncodeChunk(c)| - 1;
    assert (EncodeChunk(c) + Hex(n))[k] == LF;
  }

  lemma EndsInLine(c: Chunk)
    ensures EncodeChunk(c) != [] && EncodeChunk(c)[|EncodeChunk(c)| - 1] == LF
  {
  }

  /** The parser once the message has been completed. */
  function Completed(p: Parser): Parser {
    NewMessage(p.(contentLength := 0, nread := 2, flags := p.flags.(trailing := true)))
  }

  lemma EmptyTrailer(p: Parser)
    requires p.state.HeaderFieldStart? && p.nread + 1 <= p.maxHeaderSize
    ensures ByteStep(p, CR) == Next(p.(state := HeadersAlmostDone, nread := p.nread + 1), [])
  {
    HeaderByte(p, CR);
    hide ByteStep, HeadersAlmostDoneStep, HeaderFieldStep, HeaderValueStep, HeaderValueStartStep;
  }

  lemma TrailerEnds(p: Parser)
    requires p.state.HeadersAlmostDone? && p.flags.trailing && p.nread + 1 <= p.maxHeaderSize && !p.upgrade
    ensures ByteStep(p, LF) == Next(NewMessage(p.(nread := p.nread + 1)), [Tell(ChunkComplete), Tell(MessageComplete)])
    ensures Outside(NewMessage(p.(nread := p.nread + 1)).state)
  {
    HeaderByte(p, LF);
    NewMessageOutside(p.(nread := p.nread + 1));
    TrailerDone(p.(nread := p.nread + 1));
    hide ByteStep, NewMessage, Outside, HeadersAlmostDoneStep, HeaderFieldStep, HeaderValueStep, HeaderValueStartStep;
  }

  lemma TrailerDone(p: Parser)
    requires p.flags.trailing && !p.upgrade
    ensures HeadersAlmostDoneStep(p, LF) == Next(NewMessage(p), [Tell(ChunkComplete), Tell(MessageComplete)])
  {
    KeepAliveState(p, MessageDone);
    hide NewMessage, HeadersDoneStep;
    assert [Tell(ChunkComplete)] + [Tell(MessageComplete)] == [Tell(ChunkComplete), Tell(MessageComplete)];
  }

  lemma KeepAliveState(p: Parser, s: State)
    ensures NewMessage(p.(state := s)) == NewMessage(p)
  {
  }

  lemma LastRun(p: Parser)
    requires AtChunk(p) && 3 <= p.maxHeaderSize && !p.upgrade
    ensures Run(p, Encode([])) == More(Completed(p), Announced([]))
  {
    hide Run, ByteStep, Singles, NewMessage;
    assert |SizeLine(0, [])| == 3;
    SizeLineRun(p, 0, []);
    var q := SizeRead(p.(contentLength := 0));
    var r := q.(state := HeadersAlmostDone, nread := 1);
    EmptyTrailer(q);
    TrailerEnds(r);
    KeepAliveState(q.(nread := 2), HeadersAlmostDone);
    StartEmpty(p);
    TellNotice(ChunkComplete);
    var line := SizeLine(0, []);
    QuietSnoc(p, line, CR, [Notify(ChunkHeader)], q, r, []);
    var acts := [Tell(ChunkComplete), Tell(MessageComplete)];
    assert Notices(acts) == [Notify(ChunkComplete), Notify(MessageComplete)] by {
      TellNotice(MessageComplete);
      assert acts[1..] == [Tell(MessageComplete)];
    }
    OutsideSpan(r.state, NewMessage(q.(nread := 2)).state);
    QuietSnoc(p, line + [CR], LF, [Notify(ChunkHeader)], r, NewMessage(q.(nread := 2)), acts);
    assert line + [CR] + [LF] == Encode([]);
    KeepAliveState(p.(contentLength := 0, nread := 2, flags := p.flags.(trailing := true)), HeaderFieldStart);
  }

  lemma OutsideSpan(s: State, t: State)
    requires s.HeadersAlmostDone? && Outside(t)
    ensures SpanOf(s, t) == None
  {
  }

  /** The chunks go through one by one, and the message is completed once. */
  lemma {:induction false} ChunkedRun(p: Parser, chunks: seq<Chunk>)
    requires AtChunk(p) && 3 <= p.maxHeaderSize && !p.upgrade
    requires forall i :: 0 <= i < |chunks| ==> ChunkOk(chunks[i], p.maxHeaderSize)
    ensures Run(p, Encode(chunks)) == More(Completed(p), Announced(chunks))
    decreases |chunks|
  {
    hide Run, EncodeChunk, NewMessage;
    if chunks == [] {
      LastRun(p);
    } else {
      var q := p.(contentLength := 0);
      ChunkRun(p, chunks[0]);
      ChunkedRun(q, chunks[1..]);
      StepFold(p, EncodeChunk(chunks[0]), Encode(chunks[1..]), q, Completed(q),
        [Notify(ChunkHeader)] + Singles(Body, chunks[0].data) + [Notify(ChunkComplete)], Announced(chunks[1..]));
    }
  }

  function Notified(n: Notice, calls: seq<Call>): nat {
    if calls == [] then 0 else (if calls[0] == Notify(n) then 1 else 0) + Notified(n, calls[1..])
  }

  lemma {:induction false} NotifiedConcat(n: Notice, a: seq<Call>, b: seq<Call>)
    ensures Notified(n, a + b) == Notified(n, a) + Notified(n, b)
  {
    if a == [] {
      assert a + b == b;
    } else {
      assert (a + b)[1..] == a[1..] + b;
      NotifiedConcat(n, a[1..], b);
    }
  }

  lemma {:induction false} NotifiedSingles(n: Notice, k: Span, bytes: seq<Byte>)
    ensures Notified(n, Singles(k, bytes)) == 0
  {
    if bytes != [] {
      assert Singles(k, bytes)[1..] == Singles(k, bytes[1..]);
      NotifiedSingles(n, k, bytes[1..]);
    }
  }

  lemma OneNotice(k: Notice)
    ensures Collected(Body, [Notify(k)]) == [] && Notified(MessageComplete, [Notify(k)]) ==
      if k.MessageComplete? then 1 else 0
  {
  }

  lemma ChunkCalls(data: seq<Byte>)
    ensures var calls := [Notify(ChunkHeader)] + Singles(Body, data) + [Notify(ChunkComplete)];
      Collected(Body, calls) == data && Notified(MessageComplete, calls) == 0
  {
    hide Collected, Notified, Singles;
    var h, b, t: seq<Call> := [Notify(ChunkHeader)], Singles(Body, data), [Notify(ChunkComplete)];
    CollectedConcat(Body, h + b, t);
    CollectedConcat(Body, h, b);
    CollectedSingles(Body, Body, data);
    NotifiedConcat(MessageComplete, h + b, t);
    NotifiedConcat(MessageComplete, h, b);
    NotifiedSingles(MessageComplete, Body, data);
    OneNotice(ChunkHeader);
    OneNotice(ChunkComplete);
  }

  lemma LastCalls()
    ensures Collected(Body, Announced([])) == [] && Notified(MessageComplete, Announced([])) == 1
  {
    var a: seq<Call> := Announced([]);
    assert a[1..] == [Notify(ChunkComplete), Notify(MessageComplete)] && a[1..][1..] == [Notify(MessageComplete)];
    assert a[1..][1..][1..] == [];
  }

  /** What the announced callbacks deliver. */
  lemma {:induction false} AnnouncedPayload(chunks: seq<Chunk>)
    ensures Collected(Body, Announced(chunks)) == Payload(chunks)
    ensures Notified(MessageComplete, Announced(chunks)) == 1
    ensures Announced(chunks)[|Announced(chunks)| - 1] == Notify(MessageComplete)
  {
    if chunks == [] {
      LastCalls();
    } else {
      hide Collected, Notified, Singles;
      var data := chunks[0].data;
      var calls := [Notify(ChunkHeader)] + Singles(Body, data) + [Notify(ChunkComplete)];
      AnnouncedPayload(chunks[1..]);
      ChunkCalls(data);
      CollectedConcat(Body, calls, Announced(chunks[1..]));
      NotifiedConcat(MessageComplete, calls, Announced(chunks[1..]));
    }
  }

  /** Chunked round trip: decoding the encoding of any chunks delivers their data, and one message-complete at the
      end. */
  lemma ChunkedRoundTrip(p: Parser, chunks: seq<Chunk>)
    requires AtChunk(p) && 3 <= p.maxHeaderSize && !p.upgrade
    requires forall i :: 0 <= i < |chunks| ==> ChunkOk(chunks[i], p.maxHeaderSize)
    ensures var r := Run(p, Encode(chunks));
      && r.More? && r.p == Completed(p)
      && Collected(Body, r.calls) == Payload(chunks)
      && Notified(MessageComplete, r.calls) == 1 && r.calls[|r.calls| - 1] == Notify(MessageComplete)
  {
    ChunkedRun(p, chunks);
    AnnouncedPayload(chunks);
    hide Run, Announced, Encode;
  }

  /** The encoding may arrive in any pieces. */
  method FeedChunked(parser: HttpParser, pieces: seq<seq<Byte>>, ghost chunks: seq<Chunk>)
    requires parser.Valid() && parser.errno.OK? && AtChunk(parser.p) && 3 <= parser.p.maxHeaderSize && !parser.p.upgrade
    requires forall i :: 0 <= i < |chunks| ==> ChunkOk(chunks[i], parser.p.maxHeaderSize)
    requires Join(pieces) == Encode(chunks) && forall i :: 0 <= i < |pieces| ==> pieces[i] != []
    modifies parser
    ensures parser.errno.OK? && parser.p == Completed(old(parser.p))
    ensures Collected(Body, parser.calls) == Collected(Body, old(parser.calls)) + Payload(chunks)
    ensures Flatten(parser.calls) == Flatten(old(parser.calls)) + Announced(chunks)
  {
    hide Run, Announced, Encode, ChunkOk, AtChunk, Completed, Collected, Flatten;
    ChunkedRun(parser.p, chunks);
    AnnouncedPayload(chunks);
    parser.ExecuteAll(pieces);
  }
}
