/** Which headers the parser acts on. */
module HttpHeaders {
  import opened Wrappers
  import opened HttpTypes
  import opened HttpStep
  import opened HttpRun
  import opened HttpInvariant
  import opened HttpShape
  import opened HttpBlocks

  // ----- Names

  /** A name in lower case. */
  function Lowered(name: seq<Byte>): (w: string)
    ensures |w| == |name| && forall i :: 0 <= i < |w| ==> w[i] == Token(name[i])
  {
    seq(|name|, i requires 0 <= i < |name| => Token(name[i]))
  }

  predicate Begins(w: string, name: string) { |w| <= |name| && w == name[..|w|] }

  /** What the automaton ought to know after the beginning w of a name. */
  function NameState(w: string): HeaderState {
    if w == "c" then C
    else if w == "co" then CO
    else if w == "con" then CON
    else if w == "connection" || w == "proxy-connection" then Connection
    else if w == "content-length" then ContentLength
    else if w == "transfer-encoding" then TransferEncoding
    else if w == "upgrade" then Upgrade
    else if w == "" then General
    else if Begins(w, "connection") then MatchingConnection
    else if Begins(w, "proxy-connection") then MatchingProxyConnection
    else if Begins(w, "content-length") then MatchingContentLength
    else if Begins(w, "transfer-encoding") then MatchingTransferEncoding
    else if Begins(w, "upgrade") then MatchingUpgrade
    else General
  }

  lemma BeginsNext(w: string, c: char, name: string)
    ensures Begins(w + [c], name) <==> Begins(w, name) && |w| < |name| && name[|w|] == c
  {
    if |w| < |name| {
      assert name[..|w| + 1] == name[..|w|] + [name[|w|]];
      assert (w + [c])[..|w|] == w && (w + [c])[|w|] == c;
    }
  }

  lemma BeginsWhole(w: string, name: string)
    ensures w == name <==> Begins(w, name) && |w| == |name|
  {
  }

  // What is known of the beginning of a name: its length, and which of the known names begin like that.
  datatype Beginning = Beginning(n: nat, connection: bool, proxy: bool, length: bool, encoding: bool, upgrade: bool)

  function BeginningOf(w: string): Beginning {
    Beginning(|w|, Begins(w, "connection"), Begins(w, "proxy-connection"), Begins(w, "content-length"),
              Begins(w, "transfer-encoding"), Begins(w, "upgrade"))
  }

  /** The names differ in their first letters, except for two which differ in the fourth. */
  predicate Consistent(b: Beginning) {
    && (b.n >= 1 ==> (b.connection || b.length ==> !b.proxy && !b.encoding && !b.upgrade) && !(b.proxy && b.encoding)
                     && !(b.proxy && b.upgrade) && !(b.encoding && b.upgrade))
    && (b.n <= 3 ==> b.connection == b.length) && (b.n >= 4 ==> !(b.connection && b.length))
    && (b.connection ==> b.n <= 10) && (b.proxy ==> b.n <= 16) && (b.length ==> b.n <= 14) && (b.encoding ==> b.n <= 17)
    && (b.upgrade ==> b.n <= 7)
  }

  function StateOf(b: Beginning): HeaderState {
    if b.connection && b.n <= 3 then if b.n == 1 then C else if b.n == 2 then CO else if b.n == 3 then CON else General
    else if (b.connection && b.n == 10) || (b.proxy && b.n == 16) then Connection
    else if b.length && b.n == 14 then ContentLength
    else if b.encoding && b.n == 17 then TransferEncoding
    else if b.upgrade && b.n == 7 then Upgrade
    else if b.n == 0 then General
    else if b.connection then MatchingConnection
    else if b.proxy then MatchingProxyConnection
    else if b.length then MatchingContentLength
    else if b.encoding then MatchingTransferEncoding
    else if b.upgrade then MatchingUpgrade
    else General
  }

  lemma BeginningConsistent(w: string)
    ensures Consistent(BeginningOf(w))
  {
    if |w| >= 1 {
      assert Begins(w, "connection") ==> w[0] == 'c';
      assert Begins(w, "content-length") ==> w[0] == 'c';
      assert Begins(w, "proxy-connection") ==> w[0] == 'p';
      assert Begins(w, "transfer-encoding") ==> w[0] == 't';
      assert Begins(w, "upgrade") ==> w[0] == 'u';
    }
    if |w| >= 4 {
      assert Begins(w, "connection") ==> w[3] == 'n';
      assert Begins(w, "content-length") ==> w[3] == 't';
    } else {
      assert "connection"[..|w|] == "content-length"[..|w|];
    }
  }

  lemma NameStateIs(w: string)
    ensures NameState(w) == StateOf(BeginningOf(w))
  {
    BeginningConsistent(w);
    BeginsWhole(w, "connection");
    BeginsWhole(w, "proxy-connection");
    BeginsWhole(w, "content-length");
    BeginsWhole(w, "transfer-encoding");
    BeginsWhole(w, "upgrade");
    assert "connection"[..1] == "c" && "connection"[..2] == "co" && "connection"[..3] == "con";
    hide Begins;
    Short(w);
  }

  lemma Short(w: string)
    ensures w == "c" <==> Begins(w, "connection") && |w| == 1
    ensures w == "co" <==> Begins(w, "connection") && |w| == 2
    ensures w == "con" <==> Begins(w, "connection") && |w| == 3
  {
    assert "connection"[..1] == "c" && "connection"[..2] == "co" && "connection"[..3] == "con";
  }

  /** One more letter. */
  lemma BeginningNext(w: string, c: char)
    requires c != '\0'
    ensures Grown(BeginningOf(w), BeginningOf(w + [c]), c)
  {
    BeginsNext(w, c, "connection");
    BeginsNext(w, c, "proxy-connection");
    BeginsNext(w, c, "content-length");
    BeginsNext(w, c, "transfer-encoding");
    BeginsNext(w, c, "upgrade");
    hide Begins;
  }

  /** One byte of a name moves the automaton as one more letter moves what it ought to know. */
  lemma NameStep(w: string, m: Match, ch: Byte)
    requires w != "" && Token(ch) != '\0' && m.state == NameState(w) && (m.state.General? || m.index == |w| - 1)
    ensures var w' := w + [Token(ch)];
      FieldByte(m, Token(ch), ch).Some? && var r := FieldByte(m, Token(ch), ch).value;
      r.state == NameState(w') && (r.state.General? || r.index == |w|)
  {
    var c := Token(ch);
    NameStateIs(w);
    NameStateIs(w + [c]);
    BeginningNext(w, c);
    BeginningConsistent(w);
    BeginningConsistent(w + [c]);
    assert ch != ' ';
    hide NameState, BeginningOf, Token;
    StateStep(BeginningOf(w), BeginningOf(w + [c]), m, c, ch);
  }

  /** b' is b with the letter c behind it. */
  predicate Grown(b: Beginning, b': Beginning, c: char) {
    b' == Beginning(b.n + 1, b.connection && c == CharAt("connection", b.n), b.proxy &&
      c == CharAt("proxy-connection", b.n),
      b.length && c == CharAt("content-length", b.n), b.encoding && c == CharAt("transfer-encoding", b.n),
      b.upgrade && c == CharAt("upgrade", b.n))
  }

  predicate Comparing(s: HeaderState) {
    s.MatchingConnection? || s.MatchingProxyConnection? || s.MatchingContentLength? || s.MatchingTransferEncoding? ||
      s.MatchingUpgrade?
  }

  lemma ComparingStep(b: Beginning, b': Beginning, m: Match, c: Byte, ch: Byte)
    requires b.n >= 1 && c != '\0' && Consistent(b) && Grown(b, b', c)
    requires m.state == StateOf(b) && m.index == b.n - 1 && Comparing(m.state)
    ensures FieldByte(m, c, ch).Some? && var r := FieldByte(m, c, ch).value;
      r.state == StateOf(b') && r.index == b.n
  {
  }

  lemma OtherStep(b: Beginning, b': Beginning, m: Match, c: Byte, ch: Byte)
    requires b.n >= 1 && c != '\0' && ch != ' ' && Consistent(b) && Consistent(b') && Grown(b, b', c)
    requires m.state == StateOf(b) && (m.state.General? || m.index == b.n - 1) && !Comparing(m.state)
    ensures FieldByte(m, c, ch).Some? && var r := FieldByte(m, c, ch).value;
      r.state == StateOf(b') && (r.state.General? || r.index == b.n)
  {
    hide MatchName;
  }

  lemma StateStep(b: Beginning, b': Beginning, m: Match, c: Byte, ch: Byte)
    requires b.n >= 1 && c != '\0' && ch != ' ' && Consistent(b) && Consistent(b') && Grown(b, b', c)
    requires m.state == StateOf(b) && (m.state.General? || m.index == b.n - 1)
    ensures FieldByte(m, c, ch).Some? && var r := FieldByte(m, c, ch).value;
      r.state == StateOf(b') && (r.state.General? || r.index == b.n)
  {
    hide FieldByte, StateOf, Consistent, Grown;
    if Comparing(m.state) {
      ComparingStep(b, b', m, c, ch);
    } else {
      OtherStep(b, b', m, c, ch);
    }
  }

  /** The automaton after the whole beginning w + rest of a name, and whether it has seen "transfer-encoding" on the
      way. */
  lemma {:induction false} NameRun(p: Parser, w: string, rest: seq<Byte>)
    requires FieldSane(p) && Tokens(rest) && w != "" && p.headerState == NameState(w) &&
      (p.headerState.General? || p.index == |w| - 1)
    ensures FieldRun(p, rest).Some? && var q := FieldRun(p, rest).value; var v := w + Lowered(rest);
      && FieldSane(q) && q.headerState == NameState(v) && (q.headerState.General? || q.index == |v| - 1)
      && (q.usesTransferEncoding <==>
        p.usesTransferEncoding || (|w| < 17 && |v| >= 17 && v[..17] == "transfer-encoding"))
    decreases |rest|
  {
    hide FieldSane, FieldNext, NameState, Token;
    if rest == [] {
      assert w + Lowered(rest) == w;
    } else {
      var init, last := rest[..|rest| - 1], rest[|rest| - 1];
      NameRun(p, w, init);
      var q := FieldRun(p, init).value;
      var v := w + Lowered(init);
      assert w + Lowered(rest) == v + [Token(last)];
      NameStep(v, Match(q.index, q.headerState), last);
      FieldNextSafe(q, last);
      FieldNextIs(q, last);
      EncodingSeen(v, Token(last));
    }
  }

  lemma FieldNextIs(q: Parser, ch: Byte)
    requires FieldByte(Match(q.index, q.headerState), Token(ch), ch).Some?
    ensures var m := FieldByte(Match(q.index, q.headerState), Token(ch), ch).value;
      FieldNext(q, ch) == Some(q.(index := m.index, headerState := m.state, usesTransferEncoding :=
        q.usesTransferEncoding || (q.headerState.MatchingTransferEncoding? && m.state.TransferEncoding?)))
  {
    hide FieldByte, Token;
  }

  /** The moment at which "transfer-encoding" is complete. */
  lemma EncodingSeen(v: string, c: char)
    requires v != ""
    ensures var v' := v + [c];
      NameState(v).MatchingTransferEncoding? && NameState(v').TransferEncoding? <==>
        |v| == 16 && v' == "transfer-encoding"
    ensures var v' := v + [c]; |v| >= 17 ==> v'[..17] == v[..17]
    ensures var v' := v + [c]; |v| == 16 ==> v'[..17] == v'
  {
    BeginsNext(v, c, "transfer-encoding");
    NameStateIs(v);
    BeginningConsistent(v);
    BeginsWhole(v + [c], "transfer-encoding");
    WholeNames(v + [c]);
    hide NameState, Begins;
  }

  lemma WholeNames(w: string)
    ensures NameState(w).ContentLength? <==> w == "content-length"
    ensures NameState(w).TransferEncoding? <==> w == "transfer-encoding"
    ensures NameState(w).Connection? <==> w == "connection" || w == "proxy-connection"
    ensures NameState(w).Upgrade? <==> w == "upgrade"
  {
    hide Begins;
  }

  /** The parser after the first byte of a name. */
  function NameFirst(p: Parser, c: Byte): Parser {
    p.(nread := p.nread + 1, index := 0, state := HeaderField, headerState := FieldStartState(Token(c)))
  }

  lemma NameStart(p: Parser, ch: Byte)
    requires p.state.HeaderFieldStart? && LengthOk(p) && Token(ch) != '\0' && p.nread + 1 <= p.maxHeaderSize
    ensures var q := NameFirst(p, ch);
      && ByteStep(p, ch) == Next(q, [Mark(Field)]) && FieldSane(q) && q.headerState == NameState([Token(ch)])
      && q.usesTransferEncoding == p.usesTransferEncoding
  {
    HeaderByte(p, ch);
    assert ch != CR && ch != LF;
    StartState(Token(ch));
    hide ByteStep, Token, NameState, FieldStartState, HeadersAlmostDoneStep, HeaderFieldStep, HeaderValueStep,
      HeaderValueStartStep, FieldHeaderState;
  }

  lemma StartState(c: Byte)
    ensures FieldStartState(c) == NameState([c]) && FieldHeaderState(FieldStartState(c)) &&
      0 < IndexBound(FieldStartState(c))
  {
    NameStateIs([c]);
    var none: string := "";
    assert none + [c] == [c];
    BeginsNext(none, c, "connection");
    BeginsNext(none, c, "proxy-connection");
    BeginsNext(none, c, "content-length");
    BeginsNext(none, c, "transfer-encoding");
    BeginsNext(none, c, "upgrade");
    assert BeginningOf([c]) == Beginning(1, c == 'c', c == 'p', c == 'c', c == 't', c == 'u');
    hide NameState, Begins, BeginningOf;
  }

  /** The parser takes a header for Content-Length, Transfer-Encoding, Connection or Upgrade exactly if that is its
      name, in letters of either case. That a transfer coding is used it takes from every name that begins with
      "transfer-encoding". */
  lemma NamesRecognized(p: Parser, name: seq<Byte>)
    requires p.state.HeaderFieldStart? && LengthOk(p) && name != [] && Tokens(name) &&
      p.nread + |name| <= p.maxHeaderSize
    ensures Run(p, name).More? && Run(p, name).calls == Singles(Field, name)
    ensures var q := Run(p, name).p; var w := Lowered(name);
      && q.state.HeaderField? && q.flags == p.flags && q.contentLength == p.contentLength
      && (q.headerState.ContentLength? <==> w == "content-length")
      && (q.headerState.TransferEncoding? <==> w == "transfer-encoding")
      && (q.headerState.Connection? <==> w == "connection" || w == "proxy-connection")
      && (q.headerState.Upgrade? <==> w == "upgrade")
      && (q.usesTransferEncoding <==> p.usesTransferEncoding || (|w| >= 17 && w[..17] == "transfer-encoding"))
  {
    hide Run, FieldSane, NameState, Token, Singles, Lowered, LengthOk;
    var q := NameBlock(p, name);
    WholeNames(Lowered(name));
  }

  /** The parser after all of a name. */
  ghost predicate NameRead(p: Parser, name: seq<Byte>, q: Parser) {
    var w := Lowered(name);
    && q == p.(nread := p.nread + |name|, state := HeaderField, index := q.index, headerState := NameState(w),
               usesTransferEncoding := q.usesTransferEncoding)
    && (q.usesTransferEncoding <==> p.usesTransferEncoding || (|w| >= 17 && w[..17] == "transfer-encoding"))
  }

  lemma NameBlock(p: Parser, name: seq<Byte>) returns (q: Parser)
    requires p.state.HeaderFieldStart? && LengthOk(p) && name != [] && Tokens(name)
    requires p.nread + |name| <= p.maxHeaderSize
    ensures Run(p, name) == More(q, Singles(Field, name)) && NameRead(p, name, q)
  {
    hide Run, ByteStep, FieldSane, FieldRun, NameState, Token, Singles, Lowered, LengthOk, NameRead, NameFirst;
    var c, rest := name[0], name[1..];
    var first := NameFirst(p, c);
    NameStart(p, c);
    FirstIs(p, c);
    OneFieldByte(p, c, first);
    NameRun(first, [Token(c)], rest);
    FieldBlock(first, rest);
    var r := FieldRun(first, rest).value;
    q := r.(nread := first.nread + |rest|);
    NameReadIs(p, name, r);
    assert name == [c] + rest;
    TwoBlocks(p, [c], rest, first, q);
  }

  lemma FirstIs(p: Parser, c: Byte)
    ensures var first := NameFirst(p, c);
      first.nread == p.nread + 1 && first.state.HeaderField? && first.maxHeaderSize == p.maxHeaderSize &&
        first.index == 0
  {
  }

  lemma NameReadIs(p: Parser, name: seq<Byte>, r: Parser)
    requires name != []
    requires var first := NameFirst(p, name[0]);
      r == first.(index := r.index, headerState := r.headerState, usesTransferEncoding := r.usesTransferEncoding)
    requires var v := [Token(name[0])] + Lowered(name[1..]);
      && r.headerState == NameState(v)
      && (r.usesTransferEncoding <==> p.usesTransferEncoding || (|v| >= 17 && v[..17] == "transfer-encoding"))
    ensures NameRead(p, name, r.(nread := NameFirst(p, name[0]).nread + |name[1..]|))
  {
    LoweredSplit(name);
    hide Lowered, NameState, Token, FieldStartState;
  }

  lemma LoweredSplit(name: seq<Byte>)
    requires name != []
    ensures name == [name[0]] + name[1..] && Lowered(name) == [Token(name[0])] + Lowered(name[1..])
  {
    hide Token;
  }

  lemma TwoBlocks(p: Parser, a: seq<Byte>, b: seq<Byte>, q: Parser, r: Parser)
    requires Run(p, a) == More(q, Singles(Field, a)) && Run(q, b) == More(r, Singles(Field, b))
    ensures Run(p, a + b) == More(r, Singles(Field, a + b))
  {
    RunConcat(p, a, b);
    SinglesConcat(Field, a, b);
    hide Run, Singles;
  }

  lemma OneFieldByte(p: Parser, c: Byte, q: Parser)
    requires p.state.HeaderFieldStart? && q.state.HeaderField? && ByteStep(p, c) == Next(q, [Mark(Field)])
    ensures Run(p, [c]) == More(q, Singles(Field, [c]))
  {
    EmptyRun(p, Field);
    hide Run, ByteStep, Singles;
    assert [] + [c] == [c];
    BlockSnoc(p, [], c, p, q, [Mark(Field)], Field);
  }
}
