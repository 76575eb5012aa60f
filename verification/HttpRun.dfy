/** The parser as a fold over bytes: what every way of feeding it has to agree with. */
module HttpRun {
  import opened Wrappers
  import opened HttpTypes
  import opened HttpStep

  /** The span that byte ch belongs to, seen from the states before and after it alone. */
  function SpanOf(before: State, after: State): Option<Span> {
    if before.ChunkData? || before.BodyIdentity? || before.BodyIdentityEof? then Some(Body)
    else if UrlState(after) then Some(Url)
    else if after.ResStatus? then Some(Status)
    else if after.HeaderField? then Some(Field)
    else if after.HeaderValue? then Some(Value)
    else None
  }

  function Notices(acts: seq<Act>): seq<Call> {
    if acts == [] then []
    else (if acts[0].Tell? then [Notify(acts[0].notice)] else []) + Notices(acts[1..])
  }

  /** What one byte contributes to the callbacks: itself, if it is data, and then notifications. */
  function ByteCalls(before: State, ch: Byte, after: State, acts: seq<Act>): seq<Call> {
    match SpanOf(before, after)
    case Some(k) => [Data(k, [ch])] + Notices(acts)
    case None => Notices(acts)
  }

  // The outcome of a whole piece of input. Failed and Stopped say how many bytes were consumed.
  datatype Ran =
    | More(p: Parser, calls: seq<Call>)
    | Stopped(p: Parser, calls: seq<Call>, n: nat)
    | Failed(errno: Failure, n: nat)
    | Aborted

  function Run(p: Parser, data: seq<Byte>): Ran
    decreases |data|
  {
    if data == [] then More(p, [])
    else
      match ByteStep(p, data[0])
      case Next(q, acts) => After(ByteCalls(p.state, data[0], q.state, acts), 1, Run(q, data[1..]))
      case Stop(q, acts) => Stopped(q, ByteCalls(p.state, data[0], q.state, acts), 1)
      case Fail(e) => Failed(e, 0)
      case Abort => Aborted
  }

  /** The outcome r of the rest, after n bytes that made the given calls. */
  function After(calls: seq<Call>, n: nat, r: Ran): Ran {
    match r
    case More(p, c) => More(p, calls + c)
    case Stopped(p, c, k) => Stopped(p, calls + c, n + k)
    case Failed(e, k) => Failed(e, n + k)
    case Aborted => Aborted
  }

  /** Feeding two pieces one after the other is feeding their concatenation. */
  lemma {:induction false} RunConcat(p: Parser, a: seq<Byte>, b: seq<Byte>)
    ensures Run(p, a + b) == match Run(p, a)
      case More(q, calls) => After(calls, |a|, Run(q, b))
      case r => r
    decreases |a|
  {
    hide ByteStep, ByteCalls;
    if a == [] {
      assert a + b == b;
      match Run(p, b)
      case More(q, c) => assert [] + c == c;
      case Stopped(q, c, n) => assert [] + c == c;
      case Failed(e, n) =>
      case Aborted =>
    } else {
      assert (a + b)[1..] == a[1..] + b;
      var step := ByteStep(p, a[0]);
      if step.Next? {
        var q := step.p;
        RunConcat(q, a[1..], b);
        var calls := ByteCalls(p.state, a[0], q.state, step.acts);
        var first := Run(q, a[1..]);
        if first.More? {
          var rest := Run(first.p, b);
          if rest.More? || rest.Stopped? {
            assert calls + (first.calls + rest.calls) == (calls + first.calls) + rest.calls;
          }
        }
      }
    }
  }

  lemma {:induction false} RunSnoc(p: Parser, a: seq<Byte>, ch: Byte)
    requires Run(p, a).More?
    ensures var q := Run(p, a).p;
      Run(p, a + [ch]) == match ByteStep(q, ch)
        case Next(r, acts) => More(r, Run(p, a).calls + ByteCalls(q.state, ch, r.state, acts))
        case Stop(r, acts) => Stopped(r, Run(p, a).calls + ByteCalls(q.state, ch, r.state, acts), |a| + 1)
        case Fail(e) => Failed(e, |a|)
        case Abort => Aborted
  {
    hide ByteStep, ByteCalls;
    RunConcat(p, a, [ch]);
    var q := Run(p, a).p;
    assert [ch][1..] == [];
    match ByteStep(q, ch)
    case Next(r, acts) => assert ByteCalls(q.state, ch, r.state, acts) + [] == ByteCalls(q.state, ch, r.state, acts);
    case _ =>
  }

  /** A run that gets through the whole input got through every part of it before. */
  lemma RunPrefix(p: Parser, a: seq<Byte>, b: seq<Byte>)
    requires Run(p, a + b).More?
    ensures Run(p, a).More? && Run(Run(p, a).p, b).More?
  {
    hide ByteStep;
    RunConcat(p, a, b);
  }

  // ----- Callbacks byte by byte

  /** Data callbacks may be split anywhere; this form does not show where. */
  function Flatten(calls: seq<Call>): seq<Call> {
    if calls == [] then []
    else
      match calls[0]
      case Data(k, bytes) => Singles(k, bytes) + Flatten(calls[1..])
      case Notify(n) => [Notify(n)] + Flatten(calls[1..])
  }

  function Singles(k: Span, bytes: seq<Byte>): (r: seq<Call>)
    ensures |r| == |bytes| && forall i :: 0 <= i < |r| ==> r[i] == Data(k, [bytes[i]])
  {
    seq(|bytes|, i requires 0 <= i < |bytes| => Data(k, [bytes[i]]))
  }

  lemma SinglesConcat(k: Span, a: seq<Byte>, b: seq<Byte>)
    ensures Singles(k, a + b) == Singles(k, a) + Singles(k, b)
  {
  }

  lemma {:induction false} FlattenConcat(a: seq<Call>, b: seq<Call>)
    ensures Flatten(a + b) == Flatten(a) + Flatten(b)
  {
    if a == [] {
      assert a + b == b;
    } else {
      assert (a + b)[1..] == a[1..] + b;
      FlattenConcat(a[1..], b);
    }
  }

  /** All bytes delivered for a span, in order. */
  function Collected(k: Span, calls: seq<Call>): seq<Byte> {
    if calls == [] then []
    else (if calls[0].Data? && calls[0].span == k then calls[0].bytes else []) + Collected(k, calls[1..])
  }

  lemma {:induction false} CollectedConcat(k: Span, a: seq<Call>, b: seq<Call>)
    ensures Collected(k, a + b) == Collected(k, a) + Collected(k, b)
  {
    if a == [] {
      assert a + b == b;
    } else {
      assert (a + b)[1..] == a[1..] + b;
      CollectedConcat(k, a[1..], b);
    }
  }

  lemma {:induction false} CollectedSingles(k: Span, j: Span, bytes: seq<Byte>)
    ensures Collected(k, Singles(j, bytes)) == if j == k then bytes else []
  {
    if bytes != [] {
      assert Singles(j, bytes)[1..] == Singles(j, bytes[1..]);
      CollectedSingles(k, j, bytes[1..]);
      assert bytes == [bytes[0]] + bytes[1..];
    }
  }

  /** Where data callbacks are split makes no difference to the bytes delivered. */
  lemma {:induction false} CollectedFlatten(k: Span, calls: seq<Call>)
    ensures Collected(k, Flatten(calls)) == Collected(k, calls)
  {
    if calls != [] {
      CollectedFlatten(k, calls[1..]);
      match calls[0]
      case Data(j, bytes) =>
        CollectedConcat(k, Singles(j, bytes), Flatten(calls[1..]));
        CollectedSingles(k, j, bytes);
      case Notify(n) =>
        CollectedConcat(k, [Notify(n)], Flatten(calls[1..]));
    }
  }

  /** The calls of a run are in byte-by-byte form already. */
  lemma {:induction false} NoticesFlat(acts: seq<Act>)
    ensures Flatten(Notices(acts)) == Notices(acts)
  {
    if acts != [] {
      NoticesFlat(acts[1..]);
      if acts[0].Tell? {
        FlattenConcat([Notify(acts[0].notice)], Notices(acts[1..]));
        assert Notices(acts)[1..] == Notices(acts[1..]);
      } else {
        assert [] + Notices(acts[1..]) == Notices(acts[1..]);
      }
    }
  }
}
