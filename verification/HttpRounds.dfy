/** What one round of the main loop of http_parser_execute has to show for itself, compared with single bytes. */
module HttpRounds {
  import opened Wrappers
  import opened HttpTypes
  import opened HttpStep
  import opened HttpRun
  import opened HttpInvariant
  import opened HttpShape
  import opened HttpBlocks
  import opened HttpMarks
  import opened HttpCounter

  /** The counter of 32 bits does not wrap in the rest of the piece. */
  predicate NoWrap(at: Parser, data: seq<Byte>, i: nat)
    requires i <= |data|
  {
    at.nread + (|data| - i) < WORD
  }

  /** From byte i the code has got to byte j; `go` says that it goes on from there. What the bytes did is what they do
      one by one. But if one by one they pass the header limit, the code may be further on before it notices; unless the
      counter wraps, it does notice. */
  ghost predicate Follows(data: seq<Byte>, i: nat, at: Parser, j: nat, p: Parser, errno: Errno, made: seq<Call>,
      go: bool)
    requires i <= |data|
  {
    || (Overflowed(Run(at, data[i..])) && (NoWrap(at, data, i) ==> !go && !errno.OK?))
    || (if go then i <= j <= |data| && Run(at, data[i..j]) == More(p, made)
        else if errno.OK? then j >= i && Run(at, data[i..]) == Stopped(p, made, j - i)
        else j >= i && Run(at, data[i..]) == Failed(errno, j - i))
  }

  /** The callbacks made in between, and the change of what is pending, are `made`. */
  ghost predicate Delivers(data: seq<Byte>, i: nat, marks: Marks, calls: seq<Call>, j: nat, marks': Marks,
      calls': seq<Call>, made: seq<Call>)
  {
    && i <= |data| && j <= |data| && Within(marks, i) && Within(marks', j)
    && Flatten(calls') + Pending(data, marks', j) == Flatten(calls) + (Pending(data, marks, i) + made)
  }

  // ----- Facts about one step of the main loop

  lemma FollowsByte(data: seq<Byte>, i: nat, at: Parser, o: Outcome, left: Parser)
    requires i < |data| && o == ByteStep(at, data[i])
    ensures match o
      case Next(q, acts) => Follows(data, i, at, i + 1, q, OK, ByteCalls(at.state, data[i], q.state, acts), true)
      case Stop(q, acts) => Follows(data, i, at, i + 1, q, OK, ByteCalls(at.state, data[i], q.state, acts), false)
      case Fail(e) => Follows(data, i, at, i, left, e, [], false)
      case Abort => true
  {
    hide ByteStep, ByteCalls;
    assert data[i..] == [data[i]] + data[i + 1..];
    assert data[i..i + 1] == [] + [data[i]];
    RunSnoc(at, [], data[i]);
    if o.Next? {
      var c := ByteCalls(at.state, data[i], o.p.state, o.acts);
      assert [] + c == c;
    }
  }

  /** The parser once the byte at hand has been counted by COUNT_HEADER_SIZE(1). */
  function Counting(at: Parser): Parser {
    if ParsingHeader(at.state) then at.(nread := (at.nread + 1) % WORD) else at
  }

  lemma CountingCounted(at: Parser)
    requires Sane(at)
    ensures Counted(Counting(at)) && Counting(at).state == at.state
  {
    hide MethodString, IndexBound, FieldHeaderState, ValueHeaderState;
  }

  lemma SaneLimit(p: Parser)
    requires Sane(p)
    ensures p.maxHeaderSize < WORD
  {
    hide StateOk;
  }

  lemma DispatchFollows(data: seq<Byte>, i: nat, at: Parser)
    requires i < |data| && Sane(at) && (ParsingHeader(at.state) ==> Counting(at).nread <= at.maxHeaderSize)
    ensures var p := Counting(at);
      match Dispatch(p, data[i])
      case Next(q, acts) => Follows(data, i, at, i + 1, q, OK, ByteCalls(at.state, data[i], q.state, acts), true)
      case Stop(q, acts) => Follows(data, i, at, i + 1, q, OK, ByteCalls(at.state, data[i], q.state, acts), false)
      case Fail(e) => Follows(data, i, at, i, p, e, [], false)
      case Abort => true
  {
    hide Dispatch, Follows, ByteCalls, Sane, Run;
    SaneLimit(at);
    var p := Counting(at);
    if ParsingHeader(at.state) {
      FirstCounts(data, i, at);
    }
    if ParsingHeader(at.state) && at.nread + 1 > at.maxHeaderSize {
      match Dispatch(p, data[i]) {
        case Next(q, acts) =>
          OverflowFollows(data, i, at, i + 1, q, OK, ByteCalls(at.state, data[i], q.state, acts), true);
        case Stop(q, acts) =>
          OverflowFollows(data, i, at, i + 1, q, OK, ByteCalls(at.state, data[i], q.state, acts), false);
        case Fail(e) => OverflowFollows(data, i, at, i, p, e, [], false);
        case Abort =>
      }
    } else {
      assert ByteStep(at, data[i]) == Dispatch(p, data[i]);
      FollowsByte(data, i, at, ByteStep(at, data[i]), p);
    }
  }

  lemma DeliversByte(data: seq<Byte>, i: nat, marks: Marks, calls: seq<Call>, s: State, t: State, acts: seq<Act>)
    requires i < |data| && Within(marks, i) && Fit(s, marks) && Shaped(s, t, acts)
    ensures var io := PerformAll(data, i, Io(marks, calls), acts);
      Fit(t, io.marks) && Delivers(data, i, marks, calls, i + 1, io.marks, io.calls, ByteCalls(s, data[i], t, acts))
  {
    hide Fit, Shaped, PerformAll, Pending, ByteCalls, Flatten;
    ShapedAdds(data, i, marks, s, t, acts);
    PerformAppends(data, i, Io(marks, calls), acts);
    var io := PerformAll(data, i, Io(marks, []), acts);
    FlattenConcat(calls, io.calls);
    var p' := Pending(data, io.marks, i + 1);
    assert Flatten(calls) + Flatten(io.calls) + p' == Flatten(calls) + (Flatten(io.calls) + p');
  }

  lemma DeliversBlock(data: seq<Byte>, i: nat, marks: Marks, calls: seq<Call>, j: nat, k: Span)
    requires i <= j <= |data| && Within(marks, i) && marks.Keys == {k}
    ensures Delivers(data, i, marks, calls, j, marks, calls, Singles(k, data[i..j]))
  {
    PendingGrows(data, marks, i, j, k);
    hide Pending, Flatten, Singles;
  }

  /** Two stretches of input, one after the other. */
  lemma FollowsTrans(data: seq<Byte>, h: nat, at: Parser, i: nat, p: Parser, made: seq<Call>, j: nat, q: Parser,
      errno: Errno, more: seq<Call>, go: bool)
    requires h <= i <= |data|
    requires Follows(data, h, at, i, p, OK, made, true) && Follows(data, i, p, j, q, errno, more, go)
    ensures Follows(data, h, at, j, q, errno, made + more, go)
  {
    hide Run;
    assert data[h..] == data[h..i] + data[i..];
    RunConcat(at, data[h..i], data[i..]);
    RunCounts(at, data[h..i]);
    if go && i <= j <= |data| {
      assert data[h..j] == data[h..i] + data[i..j];
      RunConcat(at, data[h..i], data[i..j]);
    }
  }

  lemma DeliversTrans(data: seq<Byte>, h: nat, m0: Marks, c0: seq<Call>, i: nat, m1: Marks, c1: seq<Call>,
      made: seq<Call>, j: nat, m2: Marks, c2: seq<Call>, more: seq<Call>)
    requires Delivers(data, h, m0, c0, i, m1, c1, made) && Delivers(data, i, m1, c1, j, m2, c2, more)
    ensures Delivers(data, h, m0, c0, j, m2, c2, made + more)
  {
    hide Flatten, Pending;
    var f0, p0, f1, p1 := Flatten(c0), Pending(data, m0, h), Flatten(c1), Pending(data, m1, i);
    calc {
      f1 + (p1 + more);
      (f1 + p1) + more;
      (f0 + (p0 + made)) + more;
      f0 + (p0 + (made + more));
    }
  }

  // ----- Facts about the inner loops

  lemma HeldMark(s: State, marks: Marks, k: Span)
    requires Fit(s, marks) && OpenSpan(s) == Some(k)
    ensures marks.Keys == {k}
  {
    hide OpenSpan;
  }

  /** The first byte of a step is within the limit. */
  lemma FirstCounts(data: seq<Byte>, i: nat, at: Parser)
    requires i < |data| && ParsingHeader(at.state)
    ensures Overflowed(Run(at, data[i..])) || at.nread + 1 <= at.maxHeaderSize
  {
    hide Dispatch, ParsingHeader;
  }

  lemma OverflowPrefix(data: seq<Byte>, i: nat, at: Parser, j: nat)
    requires i <= j <= |data| && Overflowed(Run(at, data[i..j]))
    ensures Overflowed(Run(at, data[i..]))
  {
    hide Run;
    assert data[i..] == data[i..j] + data[j..];
    RunConcat(at, data[i..j], data[j..]);
  }

  lemma SaneField(p: Parser, n: nat)
    requires p.state.HeaderField?
    ensures Sane(p) ==> FieldSane(p)
    ensures FieldSane(p) ==> FieldSane(p.(nread := n)) && Sane(p.(nread := n))
  {
    IndexBounds();
    hide MethodString, FieldHeaderState, ValueHeaderState, IndexBound;
  }

  lemma FieldSnoc(p: Parser, data: seq<Byte>, start: nat, j: nat)
    requires start <= j < |data| && Tokens(data[start..j]) && Token(data[j]) != '\0' &&
      FieldRun(p, data[start..j]).Some?
    ensures Tokens(data[start..j + 1])
    ensures FieldRun(p, data[start..j + 1]) == FieldNext(FieldRun(p, data[start..j]).value, data[j])
  {
    hide FieldNext, Token;
    var bytes := data[start..j + 1];
    assert bytes[..|bytes| - 1] == data[start..j];
  }

  lemma {:induction false} FieldRunNread(p: Parser, bytes: seq<Byte>, n: nat)
    requires FieldSane(p) && Tokens(bytes)
    ensures FieldRun(p, bytes).Some? && FieldRun(p.(nread := n), bytes).Some? && FieldSane(p.(nread := n))
    ensures FieldRun(p, bytes).value.nread == p.nread && FieldSane(FieldRun(p, bytes).value)
    ensures FieldRun(p.(nread := n), bytes).value == FieldRun(p, bytes).value.(nread := n)
    decreases |bytes|
  {
    hide FieldNext, FieldSane, Token;
    SaneFieldNread(p, n);
    if bytes != [] {
      var init, last := bytes[..|bytes| - 1], bytes[|bytes| - 1];
      FieldRunNread(p, init, n);
      var q := FieldRun(p, init).value;
      FieldNextNread(q, last, n, n);
      FieldNextSafe(q, last);
      FieldNextSafe(q.(nread := n), last);
    }
  }

  lemma SaneFieldNread(p: Parser, n: nat)
    requires FieldSane(p)
    ensures FieldSane(p.(nread := n))
  {
    hide FieldHeaderState, IndexBound;
  }

  /** The tokens from byte i up to byte j; q is the parser after them, with the bytes counted. */
  lemma FieldFollows(data: seq<Byte>, i: nat, at: Parser, j: nat, n: nat, scanned: Parser)
    requires i <= j <= |data| && i < |data| && FieldSane(at) && Tokens(data[i..j])
    requires FieldRun(at.(nread := n), data[i..j]) == Some(scanned)
    ensures !Overflowed(Run(at, data[i..])) ==> at.nread + (j - i) <= at.maxHeaderSize
    ensures at.maxHeaderSize == scanned.maxHeaderSize
    ensures at.nread + (j - i) <= at.maxHeaderSize ==>
      Follows(data, i, at, j, scanned.(nread := at.nread + (j - i)), OK, Singles(Field, data[i..j]), true)
    ensures FieldSane(scanned) && scanned.nread == n
  {
    hide Run, FieldSane, Token, FieldNext, Singles;
    var bytes := data[i..j];
    FieldRunNread(at, bytes, n);
    FieldRunNread(at.(nread := n), bytes, n);
    assert ParsingHeader(at.state) by {
      assert FieldSane(at);
      FieldIsHeader(at);
    }
    FirstCounts(data, i, at);
    FieldBlock(at, bytes);
    if at.nread + |bytes| > at.maxHeaderSize && bytes != [] {
      FieldOverflow(at, bytes);
      OverflowPrefix(data, i, at, j);
    }
  }

  lemma FieldIsHeader(p: Parser)
    requires FieldSane(p)
    ensures ParsingHeader(p.state) && p.state.HeaderField? && p.maxHeaderSize < WORD
  {
  }

  /** The byte that ends a field name. */
  lemma FieldEnds(data: seq<Byte>, i: nat, at: Parser, j: nat, n: nat, scanned: Parser, left: Parser)
    requires i <= j < |data| && FieldSane(at) && Tokens(data[i..j]) && Token(data[j]) == '\0'
    requires FieldRun(at.(nread := n), data[i..j]) == Some(scanned)
    ensures !Overflowed(Run(at, data[i..])) ==> at.nread + (j - i) + 1 <= at.maxHeaderSize
    ensures at.maxHeaderSize == scanned.maxHeaderSize
    ensures at.nread + (j - i) + 1 <= at.maxHeaderSize ==>
      var made := Singles(Field, data[i..j]);
      if data[j] == ':'
         then Follows(data, i, at, j + 1, scanned.(nread := at.nread + (j - i) + 1, state := HeaderValueDiscardWs), OK,
           made, true)
         else Follows(data, i, at, j, left, InvalidHeaderToken, made, false)
  {
    hide FieldSane, Token, FieldRun, Run, ByteStep, Follows, Tokens, Singles, ByteCalls;
    FieldFollows(data, i, at, j, n, scanned);
    if at.nread + (j - i) <= at.maxHeaderSize {
      var q := scanned.(nread := at.nread + (j - i));
      FieldIsHeader(scanned);
      FieldEndStep(q, data[j]);
      FollowsByte(data, j, q, ByteStep(q, data[j]), left);
      var made := Singles(Field, data[i..j]);
      assert made + [] == made;
      if q.nread + 1 > q.maxHeaderSize {
        FollowsTrans(data, i, at, j, q, made, j, left, HeaderOverflow, [], false);
        FollowsOverflow(data, i, at, j, left, made);
      } else if data[j] == ':' {
        FollowsTrans(data, i, at, j, q, made, j + 1, q.(nread := q.nread + 1, state := HeaderValueDiscardWs), OK, [],
          true);
      } else {
        FollowsTrans(data, i, at, j, q, made, j, left, InvalidHeaderToken, [], false);
      }
    }
  }

  lemma FollowsOverflow(data: seq<Byte>, i: nat, at: Parser, j: nat, p: Parser, made: seq<Call>)
    requires i <= |data| && Follows(data, i, at, j, p, HeaderOverflow, made, false)
    ensures Overflowed(Run(at, data[i..]))
  {
  }

  lemma OverflowFollows(data: seq<Byte>, i: nat, at: Parser, j: nat, p: Parser, errno: Errno, made: seq<Call>, go: bool)
    requires i <= |data|
    ensures Overflowed(Run(at, data[i..])) && (NoWrap(at, data, i) ==> !go && !errno.OK?) ==>
      Follows(data, i, at, j, p, errno, made, go)
  {
  }

  lemma FieldDelivers(data: seq<Byte>, i: nat, marks: Marks, calls: seq<Call>, j: nat, calls': seq<Call>,
      made: seq<Call>)
    requires j < |data| && Fit(HeaderField, marks) && Delivers(data, i, marks, calls, j, marks, calls', made)
    ensures var io := PerformAll(data, j, Io(marks, calls'), [Emit(Field)]);
      Fit(HeaderValueDiscardWs, io.marks) && Delivers(data, i, marks, calls, j + 1, io.marks, io.calls, made)
  {
    var io := PerformAll(data, j, Io(marks, calls'), [Emit(Field)]);
    assert ByteCalls(HeaderField, data[j], HeaderValueDiscardWs, [Emit(Field)]) == [];
    DeliversByte(data, j, marks, calls', HeaderField, HeaderValueDiscardWs, [Emit(Field)]);
    DeliversTrans(data, i, marks, calls, j, marks, calls', made, j + 1, io.marks, io.calls, []);
    assert made + [] == made;
    hide Fit, Delivers, PerformAll;
  }

  lemma FieldEndSane(p: Parser)
    requires FieldSane(p)
    ensures forall n: nat :: Sane(p.(nread := n, state := HeaderValueDiscardWs))
    ensures forall n: nat :: Sane(p.(nread := n))
  {
    IndexBounds();
    hide MethodString, FieldHeaderState, ValueHeaderState, IndexBound;
  }

  lemma FieldEndStep(q: Parser, ch: Byte)
    requires q.state.HeaderField? && Token(ch) == '\0'
    ensures ByteStep(q, ch) ==
      if q.nread + 1 > q.maxHeaderSize then Fail(HeaderOverflow)
      else if ch == ':' then Next(q.(nread := q.nread + 1, state := HeaderValueDiscardWs), [Emit(Field)])
      else Fail(InvalidHeaderToken)
    ensures ByteCalls(HeaderField, ch, HeaderValueDiscardWs, [Emit(Field)]) == []
  {
    HeaderByte(q, ch);
    hide Token, ByteStep, FieldNext, HeadersAlmostDoneStep, HeaderValueStep, HeaderValueStartStep;
  }

  lemma SaneValue(p: Parser, n: nat)
    requires p.state.HeaderValue?
    ensures Sane(p) ==> ValueSane(p)
    ensures ValueSane(p) ==> ValueSane(p.(nread := n)) && Sane(p.(nread := n))
  {
    IndexBounds();
    hide MethodString, FieldHeaderState, ValueHeaderState, IndexBound;
  }

  lemma ValueIsHeader(p: Parser)
    requires ValueSane(p)
    ensures ParsingHeader(p.state) && p.state.HeaderValue? && p.maxHeaderSize < WORD
  {
  }

  lemma ValueSnoc(p: Parser, data: seq<Byte>, start: nat, j: nat)
    requires start <= j < |data| && Plain(data[start..j]) && PlainByte(data[j]) && ValueRun(p, data[start..j]).Kept?
    ensures Plain(data[start..j + 1])
    ensures ValueRun(p, data[start..j + 1]) == ValueByte(ValueRun(p, data[start..j]).p, data[j])
  {
    hide ValueByte, PlainByte;
    var bytes := data[start..j + 1];
    assert bytes[..|bytes| - 1] == data[start..j];
  }

  lemma {:induction false} ValueRunNread(p: Parser, bytes: seq<Byte>, n: nat)
    requires ValueSane(p) && ValueRun(p, bytes).Kept?
    ensures ValueRun(p.(nread := n), bytes) == Kept(ValueRun(p, bytes).p.(nread := n)) && ValueSane(p.(nread := n))
    ensures ValueRun(p, bytes).p.nread == p.nread && ValueSane(ValueRun(p, bytes).p)
    decreases |bytes|
  {
    hide ValueByte, ValueSane;
    ValueByteNread(p, CR, n);
    if bytes != [] {
      var init, last := bytes[..|bytes| - 1], bytes[|bytes| - 1];
      ValueRunNread(p, init, n);
      var q := ValueRun(p, init).p;
      ValueByteNread(q, last, n);
      ValueNext(q, last);
    }
  }

  /** How the scan of a value ended: with a bad byte, or in front of a line end, or with the piece of input. */
  datatype Scan = Scan(j: nat, bad: Option<Failure>)

  /** What a scan from byte i found out about the value, unless it was longer than the header limit. */
  ghost predicate Scanned(data: seq<Byte>, i: nat, start: Parser, r: Scan, q: Parser) {
    && i <= r.j <= |data| && Plain(data[i..r.j]) && ValueRun(start, data[i..r.j]) == Kept(q)
    && (r.bad.None? && r.j < |data| ==> data[r.j] == CR || data[r.j] == LF)
    && (r.bad.Some? ==>
         && r.j < |data| && data[r.j] != CR && data[r.j] != LF
         && if IsHeaderChar(data[r.j]) then ValueByte(q, data[r.j]) == Bad(r.bad.value)
           else r.bad.value == InvalidHeaderToken)
  }

  ghost predicate Overrun(data: seq<Byte>, i: nat, start: Parser) {
    && i + start.maxHeaderSize < |data| && Plain(data[i..i + start.maxHeaderSize])
    && ValueRun(start, data[i..i + start.maxHeaderSize]).Kept?
  }

  lemma OverrunFollows(data: seq<Byte>, i: nat, at: Parser, n: nat)
    requires i < |data| && ValueSane(at) && Overrun(data, i, at.(nread := n))
    ensures Overflowed(Run(at, data[i..]))
  {
    hide Run, ValueRun, PlainByte, ValueSane;
    var m := at.maxHeaderSize;
    assert data[i..][..m] == data[i..i + m];
    assert ValueSane(at.(nread := n)) by {
      ValueByteNread(at, CR, n);
    }
    ValueRunNread(at.(nread := n), data[i..i + m], at.nread);
    ValueOverflow(at, data[i..], m);
  }

  /** The bytes of a value from byte i up to byte j. */
  lemma ValueFollows(data: seq<Byte>, i: nat, at: Parser, r: Scan, n: nat, q: Parser)
    requires i < |data| && ValueSane(at) && Scanned(data, i, at.(nread := n), r, q)
    ensures !Overflowed(Run(at, data[i..])) ==> at.nread + (r.j - i) <= at.maxHeaderSize
    ensures at.maxHeaderSize == q.maxHeaderSize
    ensures at.nread + (r.j - i) <= at.maxHeaderSize ==>
      Follows(data, i, at, r.j, q.(nread := at.nread + (r.j - i)), OK, Singles(Value, data[i..r.j]), true)
    ensures ValueSane(q) && q.nread == n
  {
    hide Run, ValueSane, PlainByte, ValueByte, Singles;
    var bytes := data[i..r.j];
    ValueByteNread(at, CR, n);
    ValueRunNread(at.(nread := n), bytes, at.nread);
    ValueIsHeader(at);
    FirstCounts(data, i, at);
    ValueBlock(at, bytes);
    if at.nread + |bytes| > at.maxHeaderSize && bytes != [] {
      var k := |bytes| - 1;
      ValueRunPrefix(at, bytes, k);
      ValueOverflow(at, bytes, k);
      OverflowPrefix(data, i, at, r.j);
    }
  }

  lemma EmptyValue(p: Parser)
    ensures ValueRun(p, []) == Kept(p)
  {
  }

  lemma OverrunHere(p: Parser, data: seq<Byte>, start: nat, j: nat)
    requires start <= j < |data| && Plain(data[start..j]) && ValueRun(p, data[start..j]).Kept? &&
      start + p.maxHeaderSize <= j
    ensures Overrun(data, start, p)
  {
    hide ValueRun, PlainByte;
    ValueRunPrefix(p, data[start..j], p.maxHeaderSize);
    assert data[start..j][..p.maxHeaderSize] == data[start..start + p.maxHeaderSize];
  }

  function ValueEnd(ch: Byte): State { if ch == CR then HeaderAlmostDone else HeaderValueLws }

  lemma ValueEndStep(q: Parser, ch: Byte)
    requires q.state.HeaderValue? && (ch == CR || ch == LF)
    ensures ByteStep(q, ch) ==
      if q.nread + 1 > q.maxHeaderSize then Fail(HeaderOverflow)
      else Next(q.(nread := q.nread + 1, state := ValueEnd(ch)), [Emit(Value)])
    ensures ByteCalls(HeaderValue, ch, ValueEnd(ch), [Emit(Value)]) == []
  {
    HeaderByte(q, ch);
    hide ByteStep, ValueByte, HeadersAlmostDoneStep, HeaderFieldStep, HeaderValueStartStep;
  }

  /** The line end after a value. */
  lemma ValueEnds(data: seq<Byte>, i: nat, at: Parser, r: Scan, n: nat, scanned: Parser)
    requires i < |data| && ValueSane(at) && Scanned(data, i, at.(nread := n), r, scanned) && i <= r.j < |data| &&
      r.bad.None?
    requires data[r.j] == CR || data[r.j] == LF
    ensures !Overflowed(Run(at, data[i..])) ==> at.nread + (r.j - i) + 1 <= at.maxHeaderSize
    ensures at.maxHeaderSize == scanned.maxHeaderSize
    ensures at.nread + (r.j - i) + 1 <= at.maxHeaderSize ==>
      Follows(data, i, at, r.j + 1, scanned.(nread := at.nread + (r.j - i) + 1, state := ValueEnd(data[r.j])), OK,
                 Singles(Value, data[i..r.j]), true)
  {
    hide ValueSane, ValueRun, Run, ByteStep, Follows, Scanned, Singles, ByteCalls;
    ValueFollows(data, i, at, r, n, scanned);
    if at.nread + (r.j - i) <= at.maxHeaderSize {
      var j := r.j;
      var q := scanned.(nread := at.nread + (j - i));
      ValueIsHeader(scanned);
      ValueEndStep(q, data[j]);
      FollowsByte(data, j, q, ByteStep(q, data[j]), q);
      var made := Singles(Value, data[i..j]);
      assert made + [] == made;
      if q.nread + 1 > q.maxHeaderSize {
        FollowsTrans(data, i, at, j, q, made, j, q, HeaderOverflow, [], false);
        FollowsOverflow(data, i, at, j, q, made);
      } else {
        FollowsTrans(data, i, at, j, q, made, j + 1, q.(nread := q.nread + 1, state := ValueEnd(data[j])), OK, [],
          true);
      }
    }
  }

  lemma BadStep(q: Parser, ch: Byte, e: Failure)
    requires ValueSane(q) && ch != CR && ch != LF
    requires if IsHeaderChar(ch) then ValueByte(q, ch) == Bad(e) else e == InvalidHeaderToken
    ensures ByteStep(q, ch) == Fail(if q.nread + 1 > q.maxHeaderSize then HeaderOverflow else e)
  {
    if IsHeaderChar(ch) {
      ValueStep(q, ch);
    } else {
      HeaderByte(q, ch);
    }
    hide ByteStep, ValueByte, IsHeaderChar, HeadersAlmostDoneStep, HeaderFieldStep, HeaderValueStartStep;
  }

  /** The byte at which a value is refused. */
  lemma ValueBad(data: seq<Byte>, i: nat, at: Parser, r: Scan, n: nat, scanned: Parser, left: Parser)
    requires i < |data| && ValueSane(at) && Scanned(data, i, at.(nread := n), r, scanned) && r.bad.Some?
    ensures Follows(data, i, at, r.j, left, r.bad.value, Singles(Value, data[i..r.j]), false)
  {
    hide ValueSane, ValueRun, Run, ByteStep, Follows, Singles, ByteCalls, ValueByte, IsHeaderChar;
    ValueFollows(data, i, at, r, n, scanned);
    var j, made, e := r.j, Singles(Value, data[i..r.j]), r.bad.value;
    if !Overflowed(Run(at, data[i..])) {
      var q := scanned.(nread := at.nread + (j - i));
      ValueByteNread(scanned, data[j], q.nread);
      BadStep(q, data[j], e);
      FollowsByte(data, j, q, ByteStep(q, data[j]), left);
      assert made + [] == made;
      FollowsTrans(data, i, at, j, q, made, j, left, ByteStep(q, data[j]).errno, [], false);
      if ByteStep(q, data[j]).errno != e {
        FollowsOverflow(data, i, at, j, left, made);
      }
    }
    OverflowFollows(data, i, at, j, left, e, made, false);
  }

  lemma ValueDelivers(data: seq<Byte>, i: nat, marks: Marks, calls: seq<Call>, j: nat, calls': seq<Call>,
      made: seq<Call>)
    requires j < |data| && Fit(HeaderValue, marks) && Delivers(data, i, marks, calls, j, marks, calls', made)
    ensures var io := PerformAll(data, j, Io(marks, calls'), [Emit(Value)]);
      Fit(ValueEnd(data[j]), io.marks) && Delivers(data, i, marks, calls, j + 1, io.marks, io.calls, made)
  {
    var io := PerformAll(data, j, Io(marks, calls'), [Emit(Value)]);
    var s := ValueEnd(data[j]);
    assert ByteCalls(HeaderValue, data[j], s, [Emit(Value)]) == [];
    DeliversByte(data, j, marks, calls', HeaderValue, s, [Emit(Value)]);
    DeliversTrans(data, i, marks, calls, j, marks, calls', made, j + 1, io.marks, io.calls, []);
    assert made + [] == made;
    hide Fit, Delivers, PerformAll;
  }

  lemma ValueEndSane(p: Parser)
    requires ValueSane(p)
    ensures forall n: nat, ch: Byte :: Sane(p.(nread := n, state := ValueEnd(ch)))
    ensures forall n: nat :: Sane(p.(nread := n))
  {
    IndexBounds();
    hide MethodString, FieldHeaderState, ValueHeaderState, IndexBound;
  }

  // ----- Facts about bodies

  lemma BodyMark(data: seq<Byte>, i: nat, marks: Marks, calls: seq<Call>, j: nat)
    requires i < j <= |data| && Within(marks, i) && marks.Keys <= {Body}
    ensures var open := if Body in marks then marks else marks[Body := i];
      && open.Keys == {Body} && Within(open, i)
      && Delivers(data, i, marks, calls, j, open, calls, Singles(Body, data[i..j]))
  {
    var open := if Body in marks then marks else marks[Body := i];
    assert open.Keys == {Body};
    hide Pending, Flatten, Singles;
    PendingGrows(data, open, i, j, Body);
    if Body !in marks {
      assert marks.Keys == {};
      PendingNone(data, marks, i);
      PendingOne(data, open, i, Body);
      assert data[i..i] == [];
      SinglesNone(Body);
    }
  }

  lemma MaySetBody(s: State, marks: Marks)
    requires Fit(s, marks) && BodyState(s)
    ensures marks.Keys <= {Body}
  {
  }

  lemma BodyFit(s: State, marks: Marks)
    requires BodyOpen(s) && marks.Keys == {Body}
    ensures Fit(s, marks)
  {
  }

  /** A chunk, or the part of it that has arrived. */
  lemma ChunkFollows(data: seq<Byte>, i: nat, at: Parser, n: nat)
    requires i < |data| && Sane(at) && at.state.ChunkData? && n ==
      if at.contentLength < |data| - i then at.contentLength else |data| - i
    ensures 0 < n && i + n <= |data|
    ensures var rest := at.contentLength - n;
      var q := at.(contentLength := rest, state := if rest == 0 then ChunkDataAlmostDone else ChunkData);
      Sane(q) && Follows(data, i, at, i + n, q, OK, Singles(Body, data[i..i + n]), true)
  {
    hide Run, MethodString, IndexBound, Singles;
    ChunkBlock(at, data[i..i + n]);
  }

  lemma EofFollows(data: seq<Byte>, i: nat, at: Parser)
    requires i < |data| && at.state.BodyIdentityEof?
    ensures Follows(data, i, at, |data|, at, OK, Singles(Body, data[i..]), true)
  {
    assert data[i..|data|] == data[i..];
    EofBlock(at, data[i..]);
    hide Run, Singles;
  }

  /** Part of a body with a known length, without its end. */
  lemma IdentityFollows(data: seq<Byte>, i: nat, at: Parser)
    requires i < |data| && Sane(at) && at.state.BodyIdentity? && |data| - i < at.contentLength
    ensures var q := at.(contentLength := at.contentLength - (|data| - i));
      Sane(q) && Follows(data, i, at, |data|, q, OK, Singles(Body, data[i..|data|]), true)
  {
    assert data[i..|data|] == data[i..];
    IdentityBlock(at, data[i..]);
    hide Run, MethodString, IndexBound, Singles;
  }

  /** The end of such a body: its last byte completes the message. */
  lemma IdentityEnds(data: seq<Byte>, i: nat, at: Parser)
    requires i < |data| && Sane(at) && at.state.BodyIdentity? && at.contentLength <= |data| - i
    ensures at.contentLength > 0
    ensures var k := i + at.contentLength;
      var q := NewMessage(at.(contentLength := 0, state := MessageDone));
      Sane(q) && Follows(data, i, at, k, q, OK, Singles(Body, data[i..k]) + [Notify(MessageComplete)], !at.upgrade)
  {
    hide Run, MethodString, IndexBound, Singles, NewMessage, ByteCalls, Follows;
    var n := at.contentLength;
    var m := i + n - 1;
    var head := data[i..m];
    var mid := at.(contentLength := 1);
    assert data[i..i + n] == head + [data[m]];
    HeadFollows(data, i, at, m);
    IdentityLast(data, m, mid);
    SinglesConcat(Body, head, [data[m]]);
    OneByte(data, m);
    var q := NewMessage(at.(contentLength := 0, state := MessageDone));
    FollowsTrans(data, i, at, m, mid, Singles(Body, head), i + n, q, OK,
      [Data(Body, [data[m]]), Notify(MessageComplete)], !at.upgrade);
    assert Singles(Body, head) + [Data(Body, [data[m]]), Notify(MessageComplete)]
        == Singles(Body, head) + [Data(Body, [data[m]])] + [Notify(MessageComplete)];
  }

  lemma HeadFollows(data: seq<Byte>, i: nat, at: Parser, m: nat)
    requires i <= m < |data| && LengthOk(at) && at.state.BodyIdentity? && m - i + 1 == at.contentLength != ABSENT
    ensures Follows(data, i, at, m, at.(contentLength := 1), OK, Singles(Body, data[i..m]), true)
  {
    IdentityBlock(at, data[i..m]);
    hide Run, Singles;
  }

  lemma IdentityLast(data: seq<Byte>, m: nat, mid: Parser)
    requires m < |data| && Sane(mid) && mid.state.BodyIdentity? && mid.contentLength == 1
    ensures var q := NewMessage(mid.(contentLength := 0, state := MessageDone));
      Sane(q) && Follows(data, m, mid, m + 1, q, OK, [Data(Body, [data[m]]), Notify(MessageComplete)], !mid.upgrade)
  {
    hide Run, NewMessage, ByteCalls, ByteStep, Follows, BodyIdentityStep, Sane;
    IdentityStep(mid, data[m]);
    FollowsByte(data, m, mid, BodyIdentityStep(mid), mid);
    LastByte(mid, data[m]);
    StepSafe(mid, data[m]);
  }

  lemma LastByte(p: Parser, ch: Byte)
    requires p.state.BodyIdentity? && p.contentLength == 1
    ensures var q := NewMessage(p.(contentLength := 0, state := MessageDone));
      var acts := [Mark(Body), EmitThrough(Body), Tell(MessageComplete)];
      && BodyIdentityStep(p) == (if p.upgrade then Stop(q, acts) else Next(q, acts))
      && ByteCalls(p.state, ch, q.state, acts) == [Data(Body, [ch]), Notify(MessageComplete)]
  {
    var acts := [Mark(Body), EmitThrough(Body)] + [Tell(MessageComplete)];
    assert acts == [Mark(Body), EmitThrough(Body), Tell(MessageComplete)];
    hide ShouldKeepAlive;
  }

  lemma EndDelivers(data: seq<Byte>, i: nat, marks: Marks, calls: seq<Call>, k: nat)
    requires i < k <= |data| && Within(marks, i) && marks.Keys <= {Body}
    ensures var open := if Body in marks then marks else marks[Body := i];
      && Body in open && open[Body] <= k
      && Delivers(data, i, marks, calls, k, map[],
        calls + [Data(Body, data[open[Body]..k])] + [Notify(MessageComplete)],
                  Singles(Body, data[i..k]) + [Notify(MessageComplete)])
  {
    hide Pending, Flatten, Singles, Delivers;
    var open := if Body in marks then marks else marks[Body := i];
    BodyMark(data, i, marks, calls, k);
    CloseBody(data, i, marks, calls, k, open, Singles(Body, data[i..k]));
  }

  /** The open body is delivered and the message completed. */
  lemma CloseBody(data: seq<Byte>, i: nat, marks: Marks, calls: seq<Call>, k: nat, open: Marks, made: seq<Call>)
    requires open.Keys == {Body} && Within(open, k) && Delivers(data, i, marks, calls, k, open, calls, made)
    ensures Body in open && open[Body] <= k <= |data|
    ensures Delivers(data, i, marks, calls, k, map[],
      calls + [Data(Body, data[open[Body]..k])] + [Notify(MessageComplete)],
                     made + [Notify(MessageComplete)])
  {
    hide Pending, Flatten, Singles;
    var bytes := data[open[Body]..k];
    PendingOne(data, open, k, Body);
    PendingNone(data, map[], k);
    var n := [Notify(MessageComplete)];
    FlattenConcat(calls + [Data(Body, bytes)], n);
    FlattenConcat(calls, [Data(Body, bytes)]);
    FlattenOne(Body, bytes);
    FlattenNotify(MessageComplete);
    Reassociate(Flatten(calls), Pending(data, marks, i), made, n);
    assert Flatten(calls + [Data(Body, bytes)]) + n + [] == Flatten(calls + [Data(Body, bytes)]) + n;
  }

  lemma Reassociate(a: seq<Call>, b: seq<Call>, c: seq<Call>, d: seq<Call>)
    ensures (a + (b + c)) + d == a + (b + (c + d))
  {
  }

  lemma NewMessageFits(p: Parser)
    ensures Fit(NewMessage(p).state, map[])
  {
    NewMessageOutside(p);
    FitNone(NewMessage(p).state);
    hide NewMessage, OpenSpan;
  }

  lemma FlattenNotify(n: Notice)
    ensures Flatten([Notify(n)]) == [Notify(n)]
  {
    assert [Notify(n)] + [] == [Notify(n)];
  }

  // ----- Beginning and end of a piece

  /** The states in which the connection may end. */
  predicate AtRest(s: State) { s.BodyIdentityEof? || s.Dead? || s.StartReqOrRes? || s.StartRes? || s.StartReq? }

  lemma StartDelivers(data: seq<Byte>, s: State, calls: seq<Call>)
    ensures var marks := Initial(s);
      && Fit(s, marks) && Within(marks, 0) && Pending(data, marks, 0) == []
      && Delivers(data, 0, marks, calls, 0, marks, calls, [])
  {
    hide OpenSpan, Flatten, Singles;
    var marks := Initial(s);
    match OpenSpan(s) {
      case Some(k) =>
        assert marks.Keys == {k};
        PendingOne(data, marks, 0, k);
        assert data[0..0] == [];
        SinglesNone(k);
      case None =>
        PendingNone(data, marks, 0);
    }
    assert Flatten(calls) + ([] + []) == Flatten(calls) + [];
  }

  lemma NothingOpen(s: State, marks: Marks)
    requires Fit(s, marks) && Outside(s) && !BodyState(s)
    ensures marks.Keys == {}
  {
    hide OpenSpan;
  }

  lemma StartFollows(data: seq<Byte>, p: Parser)
    ensures Follows(data, 0, p, 0, p, OK, [], true)
  {
    assert data[0..0] == [];
  }

  lemma AtMostOne(s: State, marks: Marks)
    requires Fit(s, marks)
    ensures |marks| <= 1
  {
    hide OpenSpan, BodyOpen;
    assert |marks| == |marks.Keys|;
    if OpenSpan(s).None? && BodyOpen(s) {
      assert marks.Keys == {} || marks.Keys == {Body};
    }
  }

  lemma PieceDelivered(data: seq<Byte>, marks: Marks, calls: seq<Call>, k: Span)
    requires Within(marks, |data|)
    ensures Flatten(calls + if k in marks then [Data(k, data[marks[k]..])] else []) == Flatten(calls) +
      Piece(data, marks, |data|, k)
  {
    hide Flatten, Singles;
    if k in marks {
      assert data[marks[k]..] == data[marks[k]..|data|];
      FlattenConcat(calls, [Data(k, data[marks[k]..])]);
      FlattenOne(k, data[marks[k]..]);
    } else {
      assert calls + [] == calls;
    }
  }

  lemma Reassociate6(f: seq<Call>, a: seq<Call>, b: seq<Call>, c: seq<Call>, d: seq<Call>, e: seq<Call>)
    ensures f + a + b + c + d + e == f + (a + b + c + d + e)
  {
  }

  /** What the whole piece came to. */
  lemma PieceEnds(data: seq<Byte>, at: Parser, j: nat, p: Parser, errno: Errno, made: seq<Call>, go: bool)
    requires Follows(data, 0, at, j, p, errno, made, go) && !Overflowed(Run(at, data)) &&
      (go ==> j == |data| && errno.OK?)
    ensures match Run(at, data)
      case More(q, c) => go && p == q && c == made && j == |data|
      case Stopped(q, c, k) => !go && errno.OK? && p == q && c == made && j == k
      case Failed(e, k) => !go && errno == e && j == k
      case Aborted => false
  {
    assert data[0..] == data && data[0..|data|] == data;
    hide Run;
  }

  /** If one by one the bytes pass the limit, the piece is refused, unless the counter wraps. */
  lemma PieceRefused(data: seq<Byte>, at: Parser, j: nat, p: Parser, errno: Errno, made: seq<Call>, go: bool)
    requires Follows(data, 0, at, j, p, errno, made, go) && Overflowed(Run(at, data)) && NoWrap(at, data, 0) &&
      (go ==> j == |data| && errno.OK?)
    ensures !errno.OK?
  {
    assert data[0..] == data && data[0..|data|] == data;
    hide Run;
  }

  // ----- A name of 2^32 bytes

  /** What COUNT_HEADER_SIZE accepts of a name of n bytes that fills the piece: the first byte and all of them are
      counted, modulo 2^32. */
  predicate NameAccepted(p: Parser, n: nat) {
    (p.nread + 1) % WORD <= p.maxHeaderSize && (p.nread + n) % WORD <= p.maxHeaderSize
  }

  lemma NameCounted(p: Parser, n: nat)
    ensures (p.nread + 1) % WORD > p.maxHeaderSize ==> !NameAccepted(p, n)
    ensures (p.nread + 1) % WORD <= p.maxHeaderSize ==>
      (NameAccepted(p, n) <==> (p.nread + n) % WORD <= p.maxHeaderSize)
  {
  }

  lemma CountedTwice(a: nat, b: nat)
    ensures ((a + 1) % WORD + b % WORD) % WORD == (a + 1 + b) % WORD
  {
  }

  /** One by one, the bytes of a name pass the limit exactly if there are too many of them; so the limit is missed
      exactly if there are, but not modulo 2^32. */
  lemma LimitMissed(p: Parser, name: seq<Byte>)
    requires FieldSane(p) && name != [] && Tokens(name) && p.nread <= p.maxHeaderSize
    ensures Overflowed(Run(p, name)) <==> p.nread + |name| > p.maxHeaderSize
    ensures Overflowed(Run(p, name)) && NameAccepted(p, |name|) ==> p.nread + |name| >= WORD
  {
    hide Run, FieldSane, Tokens, FieldRun;
    if p.nread + |name| > p.maxHeaderSize {
      FieldOverflow(p, name);
    } else {
      FieldBlock(p, name);
    }
  }

  lemma PendingAtEnd(data: seq<Byte>, marks0: Marks, calls0: seq<Call>, j: nat, marks: Marks, calls: seq<Call>,
      made: seq<Call>)
    requires Within(marks0, 0) && Pending(data, marks0, 0) == [] &&
      Delivers(data, 0, marks0, calls0, j, marks, calls, made)
    ensures Flatten(calls) + Pending(data, marks, j) == Flatten(calls0) + made
    ensures marks.Keys == {} ==> Flatten(calls) == Flatten(calls0) + made
  {
    hide Flatten, Pending;
    assert [] + made == made;
    if marks.Keys == {} {
      PendingNone(data, marks, j);
    }
  }
}
