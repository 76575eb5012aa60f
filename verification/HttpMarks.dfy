/** Marks: where in the current piece of input the open spans began. */
module HttpMarks {
  import opened Wrappers
  import opened HttpTypes
  import opened HttpStep
  import opened HttpRun
  import opened HttpShape

  type Marks = map<Span, nat>

  predicate Within(marks: Marks, i: nat) { forall k :: k in marks ==> marks[k] <= i }

  /** The marks that may be set in state s; at most one in every state. */
  predicate Fit(s: State, marks: Marks) {
    match OpenSpan(s)
    case Some(k) => marks.Keys == {k}
    case None => if BodyOpen(s) then marks.Keys <= {Body} else marks.Keys == {}
  }

  /** The marks at the start of a piece. */
  function Initial(s: State): Marks {
    match OpenSpan(s)
    case Some(k) => map[k := 0]
    case None => map[]
  }

  function Piece(data: seq<Byte>, marks: Marks, i: nat, k: Span): seq<Call>
    requires Within(marks, i) && i <= |data|
  {
    if k in marks then Singles(k, data[marks[k]..i]) else []
  }

  /** What the open spans would deliver if they ended before byte i. */
  function Pending(data: seq<Byte>, marks: Marks, i: nat): seq<Call>
    requires Within(marks, i) && i <= |data|
  {
    Piece(data, marks, i, Field) + Piece(data, marks, i, Value) + Piece(data, marks, i, Url) +
      Piece(data, marks, i, Body)
    + Piece(data, marks, i, Status)
  }

  lemma PendingNone(data: seq<Byte>, marks: Marks, i: nat)
    requires marks.Keys == {} && i <= |data|
    ensures Within(marks, i) && Pending(data, marks, i) == []
  {
  }

  lemma PendingOne(data: seq<Byte>, marks: Marks, i: nat, k: Span)
    requires marks.Keys == {k} && Within(marks, i) && i <= |data|
    ensures Pending(data, marks, i) == Singles(k, data[marks[k]..i])
  {
    assert forall j: Span :: j in marks <==> j == k;
    var s := Singles(k, data[marks[k]..i]);
    assert [] + [] + [] + [] + s == s && s + [] + [] + [] + [] == s;
    hide Singles;
    match k case Url => case Status => case Field => case Value => case Body =>
  }

  /** Bytes that go by while span k is open are pending for it. */
  lemma PendingGrows(data: seq<Byte>, marks: Marks, i: nat, j: nat, k: Span)
    requires marks.Keys == {k} && Within(marks, i) && i <= j <= |data|
    ensures Within(marks, j) && Pending(data, marks, j) == Pending(data, marks, i) + Singles(k, data[i..j])
  {
    hide Pending, Singles;
    assert k in marks;
    var m := marks[k];
    PendingOne(data, marks, i, k);
    PendingOne(data, marks, j, k);
    assert data[m..j] == data[m..i] + data[i..j];
    SinglesConcat(k, data[m..i], data[i..j]);
  }

  // ----- What the actions of a byte do to marks and callbacks

  datatype Io = Io(marks: Marks, calls: seq<Call>)

  function Perform(data: seq<Byte>, i: nat, io: Io, act: Act): (r: Io)
    requires i < |data| && Within(io.marks, i)
    ensures Within(r.marks, i)
  {
    match act
    case Mark(k) => if k in io.marks then io else io.(marks := io.marks[k := i])
    case Emit(k) => if k in io.marks then Io(io.marks - {k}, io.calls + [Data(k, data[io.marks[k]..i])]) else io
    case EmitThrough(k) => if k in io.marks then Io(io.marks - {k}, io.calls + [Data(k, data[io.marks[k]..i + 1])])
      else io
    case Tell(n) => io.(calls := io.calls + [Notify(n)])
  }

  function PerformAll(data: seq<Byte>, i: nat, io: Io, acts: seq<Act>): (r: Io)
    requires i < |data| && Within(io.marks, i)
    ensures Within(r.marks, i)
    decreases |acts|
  {
    if acts == [] then io else PerformAll(data, i, Perform(data, i, io, acts[0]), acts[1..])
  }

  lemma {:induction false} PerformTells(data: seq<Byte>, i: nat, io: Io, acts: seq<Act>)
    requires i < |data| && Within(io.marks, i) && Tells(acts)
    ensures PerformAll(data, i, io, acts) == io.(calls := io.calls + Notices(acts))
    decreases |acts|
  {
    if acts == [] {
      assert io.calls + [] == io.calls;
    } else {
      var next := Perform(data, i, io, acts[0]);
      PerformTells(data, i, next, acts[1..]);
      assert io.calls + [Notify(acts[0].notice)] + Notices(acts[1..]) == io.calls +
        ([Notify(acts[0].notice)] + Notices(acts[1..]));
    }
  }

  /** Callbacks made for a byte, and the spans left open, add exactly what the byte stands for. */
  ghost predicate Adds(data: seq<Byte>, i: nat, marks: Marks, s: State, t: State, acts: seq<Act>)
    requires i < |data| && Within(marks, i)
  {
    var io := PerformAll(data, i, Io(marks, []), acts);
    && Fit(t, io.marks)
    && Within(io.marks, i + 1)
    && Flatten(io.calls) + Pending(data, io.marks, i + 1) == Pending(data, marks, i) + ByteCalls(s, data[i], t, acts)
  }

  lemma OneByte(data: seq<Byte>, i: nat)
    requires i < |data|
    ensures data[i..i + 1] == [data[i]] && data[i..i] == []
    ensures forall k :: Singles(k, [data[i]]) == [Data(k, [data[i]])]
  {
  }

  lemma FlattenOne(k: Span, bytes: seq<Byte>)
    ensures Flatten([Data(k, bytes)]) == Singles(k, bytes)
  {
    assert Singles(k, bytes) + [] == Singles(k, bytes);
  }

  lemma PerformOne(data: seq<Byte>, i: nat, io: Io, act: Act)
    requires i < |data| && Within(io.marks, i)
    ensures PerformAll(data, i, io, [act]) == Perform(data, i, io, act)
  {
    assert [act][1..] == [];
  }

  lemma PerformTwo(data: seq<Byte>, i: nat, io: Io, acts: seq<Act>)
    requires i < |data| && Within(io.marks, i) && 2 <= |acts|
    ensures PerformAll(data, i, io, acts) ==
      PerformAll(data, i, Perform(data, i, Perform(data, i, io, acts[0]), acts[1]), acts[2..])
    ensures acts[0].Mark? && !acts[1].Tell? ==> Notices(acts) == Notices(acts[2..])
  {
    assert acts[1..][1..] == acts[2..];
    assert forall x: seq<Call> :: [] + x == x;
  }

  /** The part of Fit for a state after which at most span k is open. */
  predicate MayHold(t: State, k: Span) {
    OpenSpan(t) == Some(k) || (OpenSpan(t) == None && BodyOpen(t) && k == Body)
  }

  lemma ByteCallsQuiet(s: State, ch: Byte, t: State, acts: seq<Act>)
    requires Notices(acts) == []
    ensures ByteCalls(s, ch, t, acts) == match SpanOf(s, t) case Some(k) => [Data(k, [ch])] case None => []
  {
    if SpanOf(s, t).Some? {
      assert [Data(SpanOf(s, t).value, [ch])] + [] == [Data(SpanOf(s, t).value, [ch])];
    }
    hide SpanOf, Notices;
  }

  lemma SpanIs(s: State, t: State)
    ensures SpanOf(s, t) == if BodyState(s) then Some(Body) else OpenSpan(t)
    ensures (BodyOpen(s) ==> OpenSpan(s) == None) && (BodyOpen(t) ==> OpenSpan(t) == None)
  {
  }

  lemma ByteCallsIs(s: State, ch: Byte, t: State, acts: seq<Act>)
    ensures ByteCalls(s, ch, t, acts) == match SpanOf(s, t) case Some(k) => [Data(k, [ch])] + Notices(acts)
      case None => Notices(acts)
  {
    hide SpanOf;
  }

  /** Open spans go on, or start at this byte. */
  lemma ContinueAdds(data: seq<Byte>, i: nat, marks: Marks, s: State, t: State, acts: seq<Act>, k: Span)
    requires i < |data| && Within(marks, i) && SpanOf(s, t) == Some(k) && marks.Keys <= {k}
    requires acts == [Mark(k)] || (acts == [] && k in marks)
    requires MayHold(t, k)
    ensures Adds(data, i, marks, s, t, acts)
  {
    hide Pending, Singles, OpenSpan, SpanOf, PerformAll, ByteCalls, Notices, Fit, MayHold;
    var after := if k in marks then marks else marks[k := i];
    ContinueIo(data, i, marks, s, t, acts, k);
    OneByte(data, i);
    if k in marks {
      assert marks.Keys == {k};
      PendingGrows(data, marks, i, i + 1, k);
    } else {
      assert marks.Keys == {};
      PendingNone(data, marks, i);
      PendingOne(data, after, i + 1, k);
    }
  }

  lemma ContinueIo(data: seq<Byte>, i: nat, marks: Marks, s: State, t: State, acts: seq<Act>, k: Span)
    requires i < |data| && Within(marks, i) && SpanOf(s, t) == Some(k) && marks.Keys <= {k}
    requires acts == [Mark(k)] || (acts == [] && k in marks)
    requires MayHold(t, k)
    ensures var after := if k in marks then marks else marks[k := i];
      && PerformAll(data, i, Io(marks, []), acts) == Io(after, [])
      && after.Keys == {k} && Fit(t, after)
      && ByteCalls(s, data[i], t, acts) == [Data(k, [data[i]])]
  {
    PerformOne(data, i, Io(marks, []), Mark(k));
    ByteCallsQuiet(s, data[i], t, acts);
    hide OpenSpan, BodyOpen, ByteCalls;
  }

  /** An open span ends before this byte. */
  lemma EndAdds(data: seq<Byte>, i: nat, marks: Marks, s: State, t: State, k: Span)
    requires i < |data| && Within(marks, i) && SpanOf(s, t) == None && marks.Keys <= {k}
    requires OpenSpan(t) == None && !BodyOpen(t)
    ensures Adds(data, i, marks, s, t, [Emit(k)])
  {
    EndIo(data, i, marks, s, t, k);
    EndFlat(data, i, marks, k);
    PendingNone(data, map[], i + 1);
    hide Pending, Singles, OpenSpan, SpanOf, PerformAll, ByteCalls, Notices, Fit, BodyOpen, Flatten;
  }

  lemma EndFlat(data: seq<Byte>, i: nat, marks: Marks, k: Span)
    requires i < |data| && Within(marks, i) && marks.Keys <= {k}
    ensures Flatten(if k in marks then [Data(k, data[marks[k]..i])] else []) == Pending(data, marks, i)
  {
    hide Pending, Flatten, Singles;
    if k in marks {
      assert marks.Keys == {k};
      PendingOne(data, marks, i, k);
      FlattenOne(k, data[marks[k]..i]);
    } else {
      assert marks.Keys == {};
      PendingNone(data, marks, i);
      FlattenNone();
    }
  }

  lemma FlattenNone()
    ensures Flatten([]) == []
  {
  }

  lemma EndIo(data: seq<Byte>, i: nat, marks: Marks, s: State, t: State, k: Span)
    requires i < |data| && Within(marks, i) && SpanOf(s, t) == None && marks.Keys <= {k}
    requires OpenSpan(t) == None && !BodyOpen(t)
    ensures PerformAll(data, i, Io(marks, []), [Emit(k)]) ==
      Io(map[], if k in marks then [Data(k, data[marks[k]..i])] else [])
    ensures Fit(t, map[]) && ByteCalls(s, data[i], t, [Emit(k)]) == []
  {
    PerformOne(data, i, Io(marks, []), Emit(k));
    ByteCallsQuiet(s, data[i], t, [Emit(k)]);
    if k in marks {
      assert marks - {k} == map[];
    } else {
      assert marks == map[];
    }
    hide OpenSpan, BodyOpen, ByteCalls;
  }

  /** Only notifications. */
  lemma TellAdds(data: seq<Byte>, i: nat, marks: Marks, s: State, t: State, acts: seq<Act>)
    requires i < |data| && Within(marks, i) && SpanOf(s, t) == None && marks.Keys == {}
    requires OpenSpan(t) == None && Tells(acts)
    ensures Adds(data, i, marks, s, t, acts)
  {
    PerformTells(data, i, Io(marks, []), acts);
    PendingNone(data, marks, i);
    PendingNone(data, marks, i + 1);
    NoticesFlat(acts);
    assert forall x: seq<Call> :: x + [] == x && [] + x == x;
    hide Pending, Singles, OpenSpan, SpanOf, PerformAll, Flatten, Notices;
  }

  /** An empty span, and then notifications or the start of the next span. */
  lemma EmptyAdds(data: seq<Byte>, i: nat, marks: Marks, s: State, t: State, acts: seq<Act>, k: Span)
    requires i < |data| && marks.Keys == {} && 2 <= |acts| && acts[0] == Mark(k) && acts[1] == Emit(k)
    requires Within(marks, i) && Adds(data, i, marks, s, t, acts[2..])
    ensures Adds(data, i, marks, s, t, acts)
  {
    PerformTwo(data, i, Io(marks, []), acts);
    assert marks[k := i] - {k} == marks;
    assert data[i..i] == [];
    var now := Io(marks, [Data(k, [])]);
    assert [] + [Data(k, [])] == [Data(k, [])];
    PerformAppends(data, i, now, acts[2..]);
    var rest := PerformAll(data, i, Io(marks, []), acts[2..]);
    FlattenConcat([Data(k, [])], rest.calls);
    FlattenOne(k, []);
    assert [] + Flatten(rest.calls) == Flatten(rest.calls);
    assert ByteCalls(s, data[i], t, acts) == ByteCalls(s, data[i], t, acts[2..]);
    hide Pending, OpenSpan, SpanOf, PerformAll, Flatten, Notices, ByteCalls;
  }

  lemma {:induction false} PerformAppends(data: seq<Byte>, i: nat, io: Io, acts: seq<Act>)
    requires i < |data| && Within(io.marks, i)
    ensures var r := PerformAll(data, i, Io(io.marks, []), acts);
      PerformAll(data, i, io, acts) == Io(r.marks, io.calls + r.calls)
    decreases |acts|
  {
    if acts == [] {
      assert io.calls + [] == io.calls;
    } else {
      var a, b := Perform(data, i, io, acts[0]), Perform(data, i, Io(io.marks, []), acts[0]);
      assert a == Io(b.marks, io.calls + b.calls);
      PerformAppends(data, i, a, acts[1..]);
      PerformAppends(data, i, b, acts[1..]);
      var r := PerformAll(data, i, Io(b.marks, []), acts[1..]);
      assert io.calls + b.calls + r.calls == io.calls + (b.calls + r.calls);
    }
  }

  /** The last byte of a body. */
  lemma ThroughAdds(data: seq<Byte>, i: nat, marks: Marks, s: State, t: State, acts: seq<Act>)
    requires i < |data| && Within(marks, i) && SpanOf(s, t) == Some(Body) && marks.Keys <= {Body}
    requires 2 <= |acts| && acts[0] == Mark(Body) && acts[1] == EmitThrough(Body) && Tells(acts[2..])
    requires OpenSpan(t) == None
    ensures Adds(data, i, marks, s, t, acts)
  {
    hide Pending, Singles, OpenSpan, SpanOf, PerformAll, Flatten, Notices, Tells, Fit, ByteCalls;
    var start := if Body in marks then marks[Body] else i;
    var before := data[start..i];
    var bytes := data[start..i + 1];
    assert bytes == before + [data[i]];
    ThroughIo(data, i, marks, acts);
    FitNone(t);
    ByteCallsIs(s, data[i], t, acts);
    PendingNone(data, map[], i + 1);
    FlattenConcat([Data(Body, bytes)], Notices(acts[2..]));
    FlattenOne(Body, bytes);
    NoticesFlat(acts[2..]);
    OneByte(data, i);
    SinglesConcat(Body, before, [data[i]]);
    if Body in marks {
      assert marks.Keys == {Body};
      PendingOne(data, marks, i, Body);
    } else {
      assert marks.Keys == {};
      PendingNone(data, marks, i);
      OneByte(data, i);
      SinglesNone(Body);
    }
  }

  lemma SinglesNone(k: Span)
    ensures Singles(k, []) == []
  {
  }

  lemma FitNone(t: State)
    requires OpenSpan(t) == None
    ensures Fit(t, map[])
  {
    hide OpenSpan;
  }

  lemma ThroughIo(data: seq<Byte>, i: nat, marks: Marks, acts: seq<Act>)
    requires i < |data| && Within(marks, i) && marks.Keys <= {Body}
    requires 2 <= |acts| && acts[0] == Mark(Body) && acts[1] == EmitThrough(Body) && Tells(acts[2..])
    ensures var start := if Body in marks then marks[Body] else i;
      PerformAll(data, i, Io(marks, []), acts) == Io(map[], [Data(Body, data[start..i + 1])] + Notices(acts[2..]))
    ensures Notices(acts) == Notices(acts[2..])
  {
    PerformTwo(data, i, Io(marks, []), acts);
    var open := if Body in marks then marks else marks[Body := i];
    assert open.Keys == {Body};
    assert open - {Body} == map[];
    var bytes := data[open[Body]..i + 1];
    assert [] + [Data(Body, bytes)] == [Data(Body, bytes)];
    PerformTells(data, i, Io(map[], [Data(Body, bytes)]), acts[2..]);
    hide Notices, Tells, PerformAll;
  }

  /** Every step that fits its states adds exactly what its byte stands for. */
  lemma ShapedAdds(data: seq<Byte>, i: nat, marks: Marks, s: State, t: State, acts: seq<Act>)
    requires i < |data| && Within(marks, i) && Fit(s, marks) && Shaped(s, t, acts)
    ensures Adds(data, i, marks, s, t, acts)
  {
    SpanIs(s, t);
    hide Adds, Tells, OpenSpan, SpanOf;
    if BodyState(s) {
      if BodyOpen(t) {
        ContinueAdds(data, i, marks, s, t, acts, Body);
      } else {
        ThroughAdds(data, i, marks, s, t, acts);
      }
    } else if s.ChunkDataAlmostDone? {
      EndAdds(data, i, marks, s, t, Body);
    } else {
      match (OpenSpan(s), OpenSpan(t)) {
        case (None, None) =>
          if Tells(acts) {
            TellAdds(data, i, marks, s, t, acts);
          } else {
            TellAdds(data, i, marks, s, t, acts[2..]);
            EmptyAdds(data, i, marks, s, t, acts, acts[0].span);
          }
        case (None, Some(k)) =>
          if acts == [Mark(k)] {
            ContinueAdds(data, i, marks, s, t, acts, k);
          } else {
            assert acts[2..] == [Mark(Field)];
            ContinueAdds(data, i, marks, s, t, [Mark(Field)], Field);
            EmptyAdds(data, i, marks, s, t, acts, Value);
          }
        case (Some(k), Some(j)) =>
          ContinueAdds(data, i, marks, s, t, acts, k);
        case (Some(k), None) =>
          EndAdds(data, i, marks, s, t, k);
      }
    }
  }
}
