/** http_parser_execute as it is written: block scans, marks, and counters that are brought up to date per block. */
module HttpParser {
  import opened Pieces
  import opened Wrappers
  import opened HttpTypes
  import opened HttpStep
  import opened HttpRun
  import opened HttpInvariant
  import opened HttpShape
  import opened HttpBlocks
  import opened HttpMarks
  import opened HttpRounds

  class HttpParser {
    var p: Parser
    var errno: Errno
    var calls: seq<Call>  // the callbacks made so far

    ghost predicate Valid()
      reads this
    {
      errno.OK? ==> Sane(p)
    }

    /** http_parser_init */
    constructor (kind: Kind, maxHeaderSize: nat)
      requires maxHeaderSize < WORD
      ensures Valid() && p == Init(kind, maxHeaderSize) && errno.OK? && calls == []
    {
      p, errno, calls := Init(kind, maxHeaderSize), OK, [];
      InitSane(kind, maxHeaderSize);
    }

    /** COUNT_HEADER_SIZE */
    method Count(n: nat) returns (ok: bool)
      modifies this`p
      ensures p == old(p).(nread := (old(p).nread + n % WORD) % WORD) && ok == (p.nread <= p.maxHeaderSize)
      ensures old(p).nread + n < WORD ==> p.nread == old(p).nread + n
    {
      p := p.(nread := (p.nread + n % WORD) % WORD);
      ok := p.nread <= p.maxHeaderSize;
    }

    /** MARK, CALLBACK_DATA and CALLBACK_NOTIFY */
    method Perform(data: seq<Byte>, i: nat, acts: seq<Act>, marks0: Marks) returns (marks: Marks)
      requires i < |data| && Within(marks0, i)
      modifies this`calls
      ensures Within(marks, i)
      ensures Io(marks, calls) == PerformAll(data, i, Io(marks0, old(calls)), acts)
    {
      marks := marks0;
      var k := 0;
      while k < |acts|
        invariant k <= |acts| && Within(marks, i)
        invariant PerformAll(data, i, Io(marks, calls), acts[k..]) == PerformAll(data, i, Io(marks0, old(calls)), acts)
      {
        assert acts[k..][1..] == acts[k + 1..];
        match acts[k] {
          case Mark(span) =>
            if span !in marks {
              marks := marks[span := i];
            }
          case Emit(span) =>
            if span in marks {
              calls := calls + [Data(span, data[marks[span]..i])];
              marks := marks - {span};
            }
          case EmitThrough(span) =>
            if span in marks {
              calls := calls + [Data(span, data[marks[span]..i + 1])];
              marks := marks - {span};
            }
          case Tell(notice) =>
            calls := calls + [Notify(notice)];
        }
        k := k + 1;
      }
    }

    /** A byte in a state that has no inner loop. `at` is the parser before the byte was counted. */
    method SingleByte(data: seq<Byte>, i: nat, marks0: Marks, ghost at: Parser)
      returns (go: bool, j: nat, marks: Marks, ghost made: seq<Call>)
      requires i < |data| && errno.OK? && Sane(at) && Within(marks0, i) && Fit(at.state, marks0)
      requires p == Counting(at) && (ParsingHeader(at.state) ==> p.nread <= at.maxHeaderSize)
      modifies this
      ensures Valid() && (go ==> i < j && errno.OK?) && i <= j <= |data|
      ensures errno.OK? && !go ==> marks.Keys == {}
      ensures Follows(data, i, at, j, p, errno, made, go)
      ensures errno.OK? ==> Fit(p.state, marks) && Delivers(data, i, marks0, old(calls), j, marks, calls, made)
    {
      hide Dispatch, Follows, Delivers, Fit, Shaped, ByteCalls, Sane, Counted, Counting;
      CountingCounted(at);
      DispatchSafe(p, data[i]);
      StepShaped(p, data[i]);
      DispatchFollows(data, i, at);
      made := [];
      match Dispatch(p, data[i]) {
        case Next(q, acts) =>
          DeliversByte(data, i, marks0, calls, at.state, q.state, acts);
          made := ByteCalls(at.state, data[i], q.state, acts);
          p := q;
          marks := Perform(data, i, acts, marks0);
          return true, i + 1, marks, made;
        case Stop(q, acts) =>
          DeliversByte(data, i, marks0, calls, at.state, q.state, acts);
          made := ByteCalls(at.state, data[i], q.state, acts);
          p := q;
          marks := Perform(data, i, acts, marks0);
          NothingOpen(q.state, marks);
          return false, i + 1, marks, made;
        case Fail(e) =>
          errno := e;
          return false, i, marks0, made;
        case Abort =>
          assert false;
      }
    }

    /** s_header_field up to the byte that ends the name: the inner loop. */
    method ScanField(data: seq<Byte>, start: nat) returns (j: nat)
      requires start < |data| && FieldSane(p)
      modifies this`p
      ensures start <= j <= |data| && Tokens(data[start..j]) && (j < |data| ==> Token(data[j]) == '\0')
      ensures FieldRun(old(p), data[start..j]) == Some(p)
    {
      hide FieldNext, FieldSane, Token;
      j := start;
      assert data[start..start] == [];
      while j < |data|
        invariant start <= j <= |data| && Tokens(data[start..j]) && FieldSane(p)
        invariant FieldRun(old(p), data[start..j]) == Some(p)
      {
        var ch := data[j];
        if Token(ch) == '\0' {
          return;
        }
        FieldSnoc(old(p), data, start, j);
        FieldNextSafe(p, ch);
        if p.headerState.General? {
          var left := |data| - j;
          var pe := j + if left < p.maxHeaderSize then left else p.maxHeaderSize;
          ghost var general := p;
          while j + 1 < pe && Token(data[j + 1]) != '\0'
            invariant start <= j < |data| && Tokens(data[start..j + 1]) && p == general
            invariant FieldRun(old(p), data[start..j + 1]) == Some(p)
          {
            FieldSnoc(old(p), data, start, j + 1);
            FieldNextSafe(p, data[j + 1]);
            j := j + 1;
          }
        } else {
          match FieldNext(p, ch)
          case Some(q) => p := q;
          case None => assert false;
        }
        j := j + 1;
      }
    }

    /** The byte after a field name. */
    method EndField(data: seq<Byte>, i: nat, j: nat, marks0: Marks, ghost at: Parser, ghost calls0: seq<Call>,
        ghost made: seq<Call>)
      returns (go: bool, k: nat, marks: Marks)
      requires i <= j < |data| && errno.OK? && FieldSane(at) && FieldSane(p) && Fit(HeaderField, marks0) &&
        Within(marks0, j)
      requires Tokens(data[i..j]) && Token(data[j]) == '\0' && made == Singles(Field, data[i..j])
      requires p.nread == (at.nread + 1) % WORD && FieldRun(at.(nread := p.nread), data[i..j]) == Some(p)
      requires Delivers(data, i, marks0, calls0, j, marks0, calls, made)
      modifies this
      ensures Valid() && (go ==> k == j + 1 && errno.OK?) && (!go ==> k == j && !errno.OK?)
      ensures Follows(data, i, at, k, p, errno, made, go)
      ensures go ==> Fit(p.state, marks) && Delivers(data, i, marks0, calls0, k, marks, calls, made)
    {
      hide Follows, Delivers, Fit, FieldSane, Sane, Run, Token, PerformAll, FieldRun, Singles, Tokens;
      ghost var p0, n := p, at.nread + (j - i) + 1;
      FieldIsHeader(at);
      FieldEnds(data, i, at, j, p.nread, p, p.(nread := n));
      FieldEndSane(p);
      marks := marks0;
      var ok := Count(j - i);
      OverflowFollows(data, i, at, j, p, HeaderOverflow, made, false);
      OverflowFollows(data, i, at, j, p, InvalidHeaderToken, made, false);
      if !ok {
        errno := HeaderOverflow;
        return false, j, marks;
      }
      if data[j] == ':' {
        p := p.(state := HeaderValueDiscardWs);
        FieldDelivers(data, i, marks0, calls0, j, calls, made);
        OverflowFollows(data, i, at, j + 1, p, OK, made, true);
        marks := Perform(data, j, [Emit(Field)], marks);
        return true, j + 1, marks;
      }
      errno := InvalidHeaderToken;
      return false, j, marks;
    }

    /** s_header_field */
    method FieldBytes(data: seq<Byte>, i: nat, marks0: Marks, ghost at: Parser)
      returns (go: bool, j: nat, marks: Marks, ghost made: seq<Call>)
      requires i < |data| && errno.OK? && Sane(at) && Within(marks0, i) && Fit(at.state, marks0)
      requires at.state.HeaderField? && p == at.(nread := (at.nread + 1) % WORD) && p.nread <= p.maxHeaderSize
      modifies this
      ensures Valid() && (go ==> i < j && errno.OK?) && i <= j <= |data|
      ensures errno.OK? ==> go
      ensures Follows(data, i, at, j, p, errno, made, go)
      ensures errno.OK? ==> Fit(p.state, marks) && Delivers(data, i, marks0, old(calls), j, marks, calls, made)
      ensures Tokens(data[i..]) ==>
        (errno.OK? <==> NameAccepted(at, |data| - i)) && (errno.OK? ==> j == |data|)
    {
      hide Follows, Delivers, Fit, FieldSane, Sane, Run, Token, FieldRun, Tokens, NameAccepted;
      NameCounted(at, |data| - i);
      SaneField(at, (at.nread + 1) % WORD);
      ghost var n := p.nread;
      FieldIsHeader(at);
      FirstCounts(data, i, at);
      j := ScanField(data, i);
      FieldFollows(data, i, at, j, n, p);
      FieldIsHeader(p);
      FieldEndSane(p);
      made := Singles(Field, data[i..j]);
      HeldMark(at.state, marks0, Field);
      DeliversBlock(data, i, marks0, calls, j, Field);
      if j < |data| {
        NotAllTokens(data, i, j);
        go, j, marks := EndField(data, i, j, marks0, at, calls, made);
        return;
      }
      marks := marks0;
      go, j := EndPiece(data, i, at, made);
    }

    /** The piece ends inside a name or a value. */
    method EndPiece(data: seq<Byte>, i: nat, ghost at: Parser, ghost made: seq<Call>) returns (go: bool, j: nat)
      requires i < |data| && errno.OK? && p.nread == (at.nread + 1) % WORD && p.maxHeaderSize == at.maxHeaderSize < WORD
      requires Overflowed(Run(at, data[i..])) || at.nread + (|data| - i) <= at.maxHeaderSize
      requires at.nread + (|data| - i) <= at.maxHeaderSize ==>
        Follows(data, i, at, |data|, p.(nread := at.nread + (|data| - i)), OK, made, true)
      modifies this`p, this`errno
      ensures go == errno.OK? && j == (if go then |data| else |data| - 1) && p == old(p).(nread := p.nread)
      ensures go <==> (at.nread + (|data| - i)) % WORD <= at.maxHeaderSize
      ensures Follows(data, i, at, j, p, errno, made, go)
    {
      hide Follows, Run;
      CountedTwice(at.nread, |data| - 1 - i);
      go := Count(|data| - 1 - i);
      if go {
        j := |data|;
      } else {
        errno := HeaderOverflow;
        j := |data| - 1;
      }
      OverflowFollows(data, i, at, j, p, errno, made, go);
    }

    /** s_header_value up to the line end: the inner loop, with the header state kept in a local variable by the C
        code. */
    method ScanValue(data: seq<Byte>, start: nat) returns (r: Scan, ghost overrun: bool)
      requires start < |data| && ValueSane(p)
      modifies this`p
      ensures start <= r.j <= |data| && ValueSane(p) && p.nread == old(p).nread &&
        p.maxHeaderSize == old(p).maxHeaderSize
      ensures if overrun then Overrun(data, start, old(p)) else Scanned(data, start, old(p), r, p)
      ensures overrun && r.bad.None? ==> r.j > start + p.maxHeaderSize
      ensures r.bad.None? && r.j < |data| ==> data[r.j] == CR || data[r.j] == LF
      ensures r.bad.Some? ==> r.j < |data|
    {
      hide ValueByte, ValueSane, IsHeaderChar, ValueRun;
      overrun := false;
      var j := start;
      EmptyValue(p);
      assert data[start..start] == [];
      while j < |data|
        invariant start <= j <= |data| && ValueSane(p) && p.nread == old(p).nread &&
          p.maxHeaderSize == old(p).maxHeaderSize
        invariant overrun ==> j > start + p.maxHeaderSize
        invariant if overrun then Overrun(data, start, old(p))
          else Plain(data[start..j]) && ValueRun(old(p), data[start..j]) == Kept(p)
      {
        var ch := data[j];
        if ch == CR || ch == LF {
          return Scan(j, None), overrun;
        }
        if !IsHeaderChar(ch) {
          return Scan(j, Some(InvalidHeaderToken)), overrun;
        }
        ValueNext(p, ch);
        if !overrun {
          ValueSnoc(old(p), data, start, j);
        }
        if p.headerState.General? {
          var left := |data| - j;
          var pe := j + if left < p.maxHeaderSize then left else p.maxHeaderSize;
          ghost var general, first, lineEnd := p, j, false;
          while j != pe
            invariant first <= j <= pe && p == general && (j == first ==> data[j] == ch)
            invariant !overrun ==> Plain(data[start..j]) && ValueRun(old(p), data[start..j]) == Kept(p)
            decreases pe - j
          {
            var next := data[j];
            if next == CR || next == LF {
              j := j - 1;
              lineEnd := true;
              break;
            }
            if !IsHeaderChar(next) {
              ValueNext(p, next);
              return Scan(j, Some(InvalidHeaderToken)), overrun;
            }
            ValueNext(p, next);
            if !overrun {
              ValueSnoc(old(p), data, start, j);
            }
            j := j + 1;
          }
          if j == |data| {
            j := j - 1;
          } else if !lineEnd && !overrun {
            overrun := true;
            OverrunHere(old(p), data, start, j);
          }
        } else {
          match ValueByte(p, ch)
          case Kept(q) => p := q;
          case Bad(e) => return Scan(j, Some(e)), overrun;
          case Impossible => assert false;
        }
        j := j + 1;
      }
      r := Scan(j, None);
    }

    /** s_header_value */
    method ValueBytes(data: seq<Byte>, i: nat, marks0: Marks, ghost at: Parser)
      returns (go: bool, j: nat, marks: Marks, ghost made: seq<Call>)
      requires i < |data| && errno.OK? && Sane(at) && Within(marks0, i) && Fit(at.state, marks0)
      requires at.state.HeaderValue? && p == at.(nread := (at.nread + 1) % WORD)
      modifies this
      ensures Valid() && (go ==> i < j && errno.OK?) && i <= j <= |data|
      ensures errno.OK? ==> go
      ensures Follows(data, i, at, j, p, errno, made, go)
      ensures errno.OK? ==> Fit(p.state, marks) && Delivers(data, i, marks0, old(calls), j, marks, calls, made)
    {
      hide Follows, Delivers, Fit, ValueSane, Sane, Run, Scanned, Overrun;
      SaneValue(at, (at.nread + 1) % WORD);
      ghost var n := p.nread;
      ValueIsHeader(at);
      var r, overrun := ScanValue(data, i);
      j := r.j;
      made := Singles(Value, data[i..j]);
      ValueIsHeader(p);
      ValueEndSane(p);
      HeldMark(at.state, marks0, Value);
      DeliversBlock(data, i, marks0, calls, j, Value);
      marks := marks0;
      if overrun {
        OverrunFollows(data, i, at, n);
      } else {
        FirstCounts(data, i, at);
        ValueFollows(data, i, at, r, n, p);
        if r.bad.Some? {
          ValueBad(data, i, at, r, n, p, p);
        } else if j < |data| {
          ValueEnds(data, i, at, r, n, p);
        }
      }
      if r.bad.Some? {
        errno := r.bad.value;
        OverflowFollows(data, i, at, j, p, errno, made, false);
        return false, j, marks, made;
      }
      if j < |data| {
        go, j, marks := EndValue(data, i, j, marks0, at, calls, made);
        return;
      }
      go, j := EndPiece(data, i, at, made);
    }

    /** The line end after a value; after LF the code goes on through s_header_almost_done. */
    method EndValue(data: seq<Byte>, i: nat, j: nat, marks0: Marks, ghost at: Parser, ghost calls0: seq<Call>,
        ghost made: seq<Call>)
      returns (go: bool, k: nat, marks: Marks)
      requires i <= j < |data| && errno.OK? && ValueSane(at) && ValueSane(p) && Fit(HeaderValue, marks0) &&
        Within(marks0, j)
      requires data[j] == CR || data[j] == LF
      requires p.nread == (at.nread + 1) % WORD && p.maxHeaderSize == at.maxHeaderSize
      requires Overflowed(Run(at, data[i..])) || at.nread + (j - i) + 1 <= at.maxHeaderSize
      requires at.nread + (j - i) + 1 <= at.maxHeaderSize ==>
        Follows(data, i, at, j + 1, p.(nread := at.nread + (j - i) + 1, state := ValueEnd(data[j])), OK, made, true)
      requires Delivers(data, i, marks0, calls0, j, marks0, calls, made)
      modifies this
      ensures Valid() && (go ==> k == j + 1 && errno.OK?) && (!go ==> k == j && !errno.OK?)
      ensures Follows(data, i, at, k, p, errno, made, go)
      ensures go ==> Fit(p.state, marks) && Delivers(data, i, marks0, calls0, k, marks, calls, made)
    {
      hide Follows, Delivers, Fit, ValueSane, Sane, Run, PerformAll;
      ValueIsHeader(at);
      ValueEndSane(p);
      marks := marks0;
      ValueDelivers(data, i, marks0, calls0, j, calls, made);
      if data[j] == CR {
        p := p.(state := HeaderAlmostDone);
        marks := Perform(data, j, [Emit(Value)], marks);
      }
      var ok := Count(j - i);
      if !ok {
        errno := HeaderOverflow;
        OverflowFollows(data, i, at, j, p, errno, made, false);
        return false, j, marks;
      }
      if data[j] == LF {
        p := p.(state := HeaderValueLws);
        marks := Perform(data, j, [Emit(Value)], marks);
      }
      OverflowFollows(data, i, at, j + 1, p, errno, made, true);
      return true, j + 1, marks;
    }

    /** s_chunk_data: as much of the chunk as has arrived. */
    method ChunkBytes(data: seq<Byte>, i: nat, marks0: Marks)
      returns (j: nat, marks: Marks, ghost made: seq<Call>)
      requires i < |data| && errno.OK? && Sane(p) && p.state.ChunkData? && Within(marks0, i) && Fit(p.state, marks0)
      modifies this`p
      ensures Sane(p) && i < j <= |data|
      ensures Follows(data, i, old(p), j, p, OK, made, true)
      ensures Fit(p.state, marks) && Delivers(data, i, marks0, calls, j, marks, calls, made)
    {
      hide Follows, Delivers, Fit, Sane;
      var toRead := if p.contentLength < |data| - i then p.contentLength else |data| - i;
      ChunkFollows(data, i, p, toRead);
      MaySetBody(p.state, marks0);
      BodyMark(data, i, marks0, calls, i + toRead);
      made := Singles(Body, data[i..i + toRead]);
      marks := if Body in marks0 then marks0 else marks0[Body := i];
      p := p.(contentLength := p.contentLength - toRead);
      if p.contentLength == 0 {
        p := p.(state := ChunkDataAlmostDone);
      }
      BodyFit(p.state, marks);
      j := i + toRead;
    }

    /** s_body_identity, and s_message_done after its last byte. */
    method IdentityBytes(data: seq<Byte>, i: nat, marks0: Marks)
      returns (go: bool, j: nat, marks: Marks, ghost made: seq<Call>)
      requires i < |data| && errno.OK? && Sane(p) && p.state.BodyIdentity? && Within(marks0, i) && Fit(p.state, marks0)
      modifies this
      ensures Sane(p) && i < j <= |data| && errno.OK?
      ensures !go ==> marks.Keys == {}
      ensures Follows(data, i, old(p), j, p, OK, made, go)
      ensures Fit(p.state, marks) && Delivers(data, i, marks0, old(calls), j, marks, calls, made)
    {
      hide Follows, Delivers, Fit, Sane, NewMessage, Singles;
      var toRead := if p.contentLength < |data| - i then p.contentLength else |data| - i;
      MaySetBody(p.state, marks0);
      marks := if Body in marks0 then marks0 else marks0[Body := i];
      if toRead < p.contentLength {
        IdentityFollows(data, i, p);
      } else {
        IdentityEnds(data, i, p);
        EndDelivers(data, i, marks0, calls, i + toRead);
      }
      j := i + toRead;
      p := p.(contentLength := p.contentLength - toRead);
      if p.contentLength == 0 {
        p := p.(state := MessageDone);
        calls := calls + [Data(Body, data[marks[Body]..j])];
        marks := map[];
        made := Singles(Body, data[i..j]) + [Notify(MessageComplete)];
        var upgrade := p.upgrade;
        NewMessageFits(p);
        p := NewMessage(p);
        calls := calls + [Notify(MessageComplete)];
        return !upgrade, j, marks, made;
      }
      BodyMark(data, i, marks0, calls, j);
      BodyFit(p.state, marks);
      made := Singles(Body, data[i..j]);
      go := true;
    }

    /** s_body_identity_eof */
    method EofBytes(data: seq<Byte>, i: nat, marks0: Marks) returns (j: nat, marks: Marks, ghost made: seq<Call>)
      requires i < |data| && p.state.BodyIdentityEof? && Within(marks0, i) && Fit(p.state, marks0)
      ensures i < j <= |data|
      ensures Follows(data, i, p, j, p, OK, made, true)
      ensures Fit(p.state, marks) && Delivers(data, i, marks0, calls, j, marks, calls, made)
    {
      hide Follows, Delivers, Fit, Sane;
      EofFollows(data, i, p);
      MaySetBody(p.state, marks0);
      BodyMark(data, i, marks0, calls, |data|);
      assert data[i..|data|] == data[i..];
      made := Singles(Body, data[i..]);
      marks := if Body in marks0 then marks0 else marks0[Body := i];
      BodyFit(p.state, marks);
      j := |data|;
    }

    /** CALLBACK_DATA_NOADVANCE at the end of the piece */
    method FlushOne(data: seq<Byte>, marks: Marks, k: Span)
      requires Within(marks, |data|)
      modifies this`calls
      ensures Flatten(calls) == Flatten(old(calls)) + Piece(data, marks, |data|, k)
    {
      PieceDelivered(data, marks, calls, k);
      assert calls + [] == calls;
      if k in marks {
        calls := calls + [Data(k, data[marks[k]..])];
      }
    }

    /** What is left when the piece of input ends: at most one of the five spans is open. */
    method Flush(data: seq<Byte>, marks: Marks)
      requires Within(marks, |data|) && |marks| <= 1
      modifies this`calls
      ensures Flatten(calls) == Flatten(old(calls)) + Pending(data, marks, |data|)
    {
      hide Flatten, Piece, Within;
      FlushOne(data, marks, Field);
      FlushOne(data, marks, Value);
      FlushOne(data, marks, Url);
      FlushOne(data, marks, Body);
      FlushOne(data, marks, Status);
      Reassociate6(Flatten(old(calls)), Piece(data, marks, |data|, Field), Piece(data, marks, |data|, Value),
                   Piece(data, marks, |data|, Url), Piece(data, marks, |data|, Body),
                     Piece(data, marks, |data|, Status));
    }

    /** http_parser_execute with len == 0: the connection has ended. */
    method AtEof() returns (n: nat)
      requires errno.OK?
      modifies this
      ensures p == old(p) && n <= 1 && (n == 0 <==> errno.OK?)
      ensures n == 0 <==>
        p.state.BodyIdentityEof? || p.state.Dead? || p.state.StartReqOrRes? || p.state.StartRes? || p.state.StartReq?
      ensures n == 1 ==> errno.InvalidEofState?
      ensures calls == old(calls) + if p.state.BodyIdentityEof? then [Notify(MessageComplete)] else []
    {
      if p.state.BodyIdentityEof? {
        calls := calls + [Notify(MessageComplete)];
        return 0;
      }
      if p.state.Dead? || p.state.StartReqOrRes? || p.state.StartRes? || p.state.StartReq? {
        return 0;
      }
      errno := InvalidEofState;
      return 1;
    }

    /** One round of the main loop. */
    method Advance(data: seq<Byte>, i: nat, marks0: Marks)
        returns (go: bool, j: nat, marks: Marks, ghost made: seq<Call>)
      requires i < |data| && Valid() && errno.OK? && Within(marks0, i) && Fit(p.state, marks0)
      modifies this
      ensures Valid() && (go ==> i < j && errno.OK?) && i <= j <= |data|
      ensures errno.OK? && !go ==> marks.Keys == {}
      ensures Follows(data, i, old(p), j, p, errno, made, go)
      ensures errno.OK? ==>
        Within(marks, j) && Fit(p.state, marks) && Delivers(data, i, marks0, old(calls), j, marks, calls, made)
      ensures old(p).state.HeaderField? && Tokens(data[i..]) ==>
        (errno.OK? <==> NameAccepted(old(p), |data| - i)) && (errno.OK? ==> j == |data|)
    {
      hide Follows, Fit, Sane, Pending, Flatten, Tokens, NameAccepted, Within, NoWrap;
      NameCounted(p, |data| - i);
      ghost var at := p;
      SaneLimit(p);
      if ParsingHeader(p.state) {
        FirstCounts(data, i, p);
        OverflowFollows(data, i, at, i, p.(nread := (p.nread + 1) % WORD), HeaderOverflow, [], false);
        var ok := Count(1);
        if !ok {
          errno := HeaderOverflow;
          return false, i, marks0, [];
        }
      }
      if p.state.HeaderField? {
        go, j, marks, made := FieldBytes(data, i, marks0, at);
      } else if p.state.HeaderValue? {
        go, j, marks, made := ValueBytes(data, i, marks0, at);
      } else if p.state.ChunkData? {
        j, marks, made := ChunkBytes(data, i, marks0);
        go := true;
      } else if p.state.BodyIdentity? {
        go, j, marks, made := IdentityBytes(data, i, marks0);
      } else if p.state.BodyIdentityEof? {
        j, marks, made := EofBytes(data, i, marks0);
        go := true;
      } else {
        go, j, marks, made := SingleByte(data, i, marks0, at);
      }
    }

    /** http_parser_execute: feeding a piece of input is running its bytes one by one. */
    method Execute(data: seq<Byte>) returns (n: nat)
      requires Valid()
      modifies this
      ensures Valid()
      ensures !old(errno).OK? ==> n == 0 && unchanged(this)
      ensures old(errno).OK? && data == [] ==>
        n == (if AtRest(old(p).state) then 0 else 1) && p == old(p) &&
          errno == (if AtRest(p.state) then OK else InvalidEofState)
        && calls == old(calls) + if p.state.BodyIdentityEof? then [Notify(MessageComplete)] else []
      ensures old(errno).OK? && data != [] && !Overflowed(Run(old(p), data)) ==>
        match Run(old(p), data)
        case More(q, made) => errno.OK? && p == q && n == |data| && Flatten(calls) == Flatten(old(calls)) + made
        case Stopped(q, made, k) => errno.OK? && p == q && n == k && Flatten(calls) == Flatten(old(calls)) + made
        case Failed(e, k) => errno == e && n == k
        case Aborted => false
      ensures old(errno).OK? && data != [] && Overflowed(Run(old(p), data)) && NoWrap(old(p), data, 0) ==> !errno.OK?
      ensures old(errno).OK? && old(p).state.HeaderField? && data != [] && Tokens(data) ==>
        (errno.OK? <==> NameAccepted(old(p), |data|))
    {
      hide Follows, Delivers, Fit, Sane, Run, Counting, Flatten, Pending, Tokens;
      if !errno.OK? {
        return 0;
      }
      if data == [] {
        n := AtEof();
        return;
      }
      var marks := Initial(p.state);
      ghost var made: seq<Call> := [];
      ghost var calls0, marks0 := calls, marks;
      StartDelivers(data, p.state, calls);
      StartFollows(data, p);
      var i, go := 0, true;
      while go && i < |data|
        invariant i <= |data| && Valid() && Within(marks0, 0) && Pending(data, marks0, 0) == []
        invariant go ==> errno.OK? && Within(marks, i)
        invariant errno.OK? && !go ==> marks.Keys == {}
        invariant Follows(data, 0, old(p), i, p, errno, made, go)
        invariant i == 0 && go ==> p == old(p)
        invariant old(p).state.HeaderField? && Tokens(data) && !(i == 0 && go) ==>
          (errno.OK? <==> NameAccepted(old(p), |data|)) && (errno.OK? ==> i == |data|)
        invariant errno.OK? ==> Fit(p.state, marks) && Delivers(data, 0, marks0, calls0, i, marks, calls, made)
        decreases |data| - i, go
      {
        ghost var at, before, open, m := p, calls, marks, i;
        ghost var more: seq<Call>;
        assert data[0..] == data;
        go, i, marks, more := Advance(data, i, marks);
        FollowsTrans(data, 0, old(p), m, at, made, i, p, errno, more, go);
        if errno.OK? {
          DeliversTrans(data, 0, marks0, calls0, m, open, before, made, i, marks, calls, more);
        }
        made := made + more;
      }
      if !Overflowed(Run(old(p), data)) {
        PieceEnds(data, old(p), i, p, errno, made, go);
      } else if NoWrap(old(p), data, 0) {
        PieceRefused(data, old(p), i, p, errno, made, go);
      }
      if errno.OK? {
        PendingAtEnd(data, marks0, calls0, i, marks, calls, made);
      }
      if go {
        AtMostOne(p.state, marks);
        assert |marks| <= 1;
        Flush(data, marks);
      }
      n := i;
    }

    /** Input that arrives in any non-empty pieces, one call for each, does what it does in one piece. */
    method ExecuteAll(pieces: seq<seq<Byte>>)
      requires Valid() && errno.OK? && forall i :: 0 <= i < |pieces| ==> pieces[i] != []
      modifies this
      ensures Run(old(p), Join(pieces)).More? ==>
        var whole := Run(old(p), Join(pieces));
        && errno.OK? && p == whole.p
        && Flatten(calls) == Flatten(old(calls)) + whole.calls
        && forall k :: Collected(k, calls) == Collected(k, old(calls)) + Collected(k, whole.calls)
    {
      hide Run, Flatten, Sane, Collected;
      ghost var start, calls0 := p, calls;
      ghost var made: seq<Call> := [];
      StartRun(p);
      var i := 0;
      assert pieces[..0] == [];
      while i < |pieces|
        invariant i <= |pieces| && Valid()
        invariant Run(start, Join(pieces)).More? ==>
          errno.OK? && Run(start, Join(pieces[..i])) == More(p, made) && Flatten(calls) == Flatten(calls0) + made
      {
        ghost var at, before := p, calls;
        JoinSnoc(pieces, i);
        var n := Execute(pieces[i]);
        if Run(start, Join(pieces)).More? {
          JoinSplit(pieces, i + 1);
          RunPrefix(start, Join(pieces[..i + 1]), Join(pieces[i + 1..]));
          RunPrefix(start, Join(pieces[..i]), pieces[i]);
          RunConcat(start, Join(pieces[..i]), pieces[i]);
          made := made + Run(at, pieces[i]).calls;
        }
        i := i + 1;
      }
      assert pieces[..i] == pieces;
      if Run(start, Join(pieces)).More? {
        forall k ensures Collected(k, calls) == Collected(k, calls0) + Collected(k, made) {
          CollectedFlatten(k, calls);
          CollectedFlatten(k, calls0);
          CollectedConcat(k, Flatten(calls0), made);
        }
      }
    }
  }

  lemma NotAllTokens(data: seq<Byte>, i: nat, j: nat)
    requires i <= j < |data| && Token(data[j]) == '\0'
    ensures !Tokens(data[i..])
  {
    assert data[i..][j - i] == data[j];
    hide Token;
  }

  lemma StartRun(p: Parser)
    ensures Run(p, Join([])) == More(p, [])
  {
  }
}
