/** The asynchronous logger: buffers go from the appending threads to the writing thread and come back empty. */
module LogAsynAppender {
  import opened Bytes
  import opened Wrappers

  type Buf = seq<Byte>  // what a FixedBuffer holds

  // largeBufferSize
  const SIZE: nat := 4_000_000

  /** FixedBuffer::append takes the data only if a byte of room is left over. */
  function Appended(buf: Buf, log: seq<Byte>): Buf {
    if SIZE - |buf| > |log| then buf + log else buf
  }

  function Concat(bufs: seq<Buf>): seq<Byte> {
    if bufs == [] then [] else Concat(bufs[..|bufs| - 1]) + bufs[|bufs| - 1]
  }

  lemma {:induction false} ConcatAppend(a: seq<Buf>, b: seq<Buf>)
    ensures Concat(a + b) == Concat(a) + Concat(b)
  {
    if b == [] {
      assert a + b == a;
    } else {
      assert (a + b)[..|a + b| - 1] == a + b[..|b| - 1];
      ConcatAppend(a, b[..|b| - 1]);
    }
  }

  lemma ConcatOne(buf: Buf)
    ensures Concat([buf]) == buf && Concat([]) == []
  {
    var one: seq<Buf> := [buf];
    assert one[..0] == [];
  }

  // What has become of a buffer that the writing thread has taken.
  datatype Fate = Written(buf: Buf) | Dropped(buf: Buf)

  function All(fates: seq<Fate>): seq<Byte> {
    if fates == [] then [] else All(fates[..|fates| - 1]) + fates[|fates| - 1].buf
  }

  function Kept(fates: seq<Fate>): seq<Byte> {
    if fates == [] then []
    else Kept(fates[..|fates| - 1]) + if fates[|fates| - 1].Written? then fates[|fates| - 1].buf else []
  }

  /** Buffers that are dropped. */
  function Doomed(bufs: seq<Buf>): (r: seq<Fate>)
    ensures |r| == |bufs|
  {
    seq(|bufs|, i requires 0 <= i < |bufs| => Dropped(bufs[i]))
  }

  lemma FateSnoc(fates: seq<Fate>, f: Fate)
    ensures All(fates + [f]) == All(fates) + f.buf
    ensures Kept(fates + [f]) == Kept(fates) + if f.Written? then f.buf else []
  {
    assert (fates + [f])[..|fates|] == fates;
  }

  lemma {:induction false} DroppedAll(fates: seq<Fate>, bufs: seq<Buf>)
    ensures All(fates + Doomed(bufs)) == All(fates) + Concat(bufs)
    ensures Kept(fates + Doomed(bufs)) == Kept(fates)
    decreases |bufs|
  {
    if bufs == [] {
      assert fates + Doomed(bufs) == fates;
      assert All(fates) + [] == All(fates);
    } else {
      var init, last := bufs[..|bufs| - 1], bufs[|bufs| - 1];
      DroppedAll(fates, init);
      assert fates + Doomed(bufs) == fates + Doomed(init) + [Dropped(last)];
      FateSnoc(fates + Doomed(init), Dropped(last));
      assert All(fates) + Concat(init) + last == All(fates) + (Concat(init) + last);
    }
    hide All, Kept;
  }

  /** If nothing was dropped, everything was written. */
  lemma {:induction false} NothingDropped(fates: seq<Fate>)
    requires forall i :: 0 <= i < |fates| ==> fates[i].Written?
    ensures Kept(fates) == All(fates)
  {
    if fates != [] {
      NothingDropped(fates[..|fates| - 1]);
    }
  }

  // A step of some thread; the steps of the writing thread are taken when it is their turn.
  datatype Action = Append(log: seq<Byte>) | SetLimit(limit: nat) | Collect(waited: bool) | DropExcess | WriteNext
      | Restore

  /** The messages that are small enough to be kept, in order. */
  function Fitting(actions: seq<Action>): seq<Byte> {
    if actions == [] then []
    else
      var last := actions[|actions| - 1];
      Fitting(actions[..|actions| - 1]) + if last.Append? && |last.log| < SIZE then last.log else []
  }

  lemma FittingNone()
    ensures Fitting([]) == []
  {
  }

  lemma FittingNext(actions: seq<Action>, k: nat)
    requires k < |actions|
    ensures var a := actions[k];
      Fitting(actions[..k + 1]) == Fitting(actions[..k]) + if a.Append? && |a.log| < SIZE then a.log else []
  {
    assert actions[..k + 1][..k] == actions[..k];
  }

  // Where the writing thread is in its loop.
  datatype Phase = Top | Collected | Writing

  class LogAsynAppender {
    // shared, under the mutex
    var curBuffer: Option<Buf>
    var nextBuffer: Option<Buf>
    var buffersHolder: seq<Buf>
    // of the writing thread
    var phase: Phase
    var curBak: Option<Buf>
    var nextBak: Option<Buf>
    var buffersBak: seq<Buf>
    var buffersLimit: nat
    var output: seq<Byte>           // what the log file was given, without the notices about dropped buffers
    var notices: nat
    var written: nat                // how many of the collected buffers
    ghost var accepted: seq<Byte>   // all messages that found room in a buffer, in order
    ghost var fates: seq<Fate>
    ghost var doomed: seq<Buf>      // the buffers that were cut off

    /** The messages that have not reached the writing thread yet. */
    ghost function Waiting(): seq<Byte>
      reads this
    {
      Concat(buffersHolder) + if curBuffer.Some? then curBuffer.value else []
    }

    /** The messages that the writing thread has taken, up to those it is going to drop. */
    ghost function InFlight(): seq<Byte>
      reads this
    {
      if phase.Top? || written > |buffersBak| then [] else Concat(buffersBak[written..]) + Concat(doomed)
    }

    /** What holds of the shared buffers whenever the mutex is free. */
    ghost predicate SharedOk()
      reads this
    {
      && curBuffer.Some? && |curBuffer.value| < SIZE
      && (nextBuffer.Some? ==> nextBuffer.value == []) && (nextBuffer.None? ==> buffersHolder != [])
      && (forall i :: 0 <= i < |buffersHolder| ==> |buffersHolder[i]| < SIZE)
    }

    /** The spare buffers of the writing thread: both are there at the top of its loop, and what it has taken makes up
        for those that are not. */
    ghost predicate SparesOk()
      reads this
    {
      && buffersLimit >= 4 && written <= |buffersBak|
      && (nextBak.Some? ==> nextBak.value == [])
      && (if phase.Top? then curBak == Some([]) && nextBak.Some? && buffersBak == []
          else curBak.None? && |buffersBak| >= if nextBak.None? then 2 else 1)
      && (!phase.Writing? ==> written == 0 && doomed == [])
    }

    /** Nothing is lost but whole buffers that were dropped. */
    ghost predicate Conserved()
      reads this
    {
      All(fates) + (InFlight() + Waiting()) == accepted && output == Kept(fates)
    }

    ghost predicate Valid()
      reads this
    {
      SharedOk() && SparesOk() && Conserved()
    }

    constructor (limit: nat)
      ensures Valid() && phase.Top? && accepted == [] && output == [] && fates == [] && buffersLimit ==
        if limit < 4 then 4 else limit
    {
      curBuffer, nextBuffer, buffersHolder := Some([]), Some([]), [];
      phase, curBak, nextBak, buffersBak := Top, Some([]), Some([]), [];
      buffersLimit, output, notices, written := if limit < 4 then 4 else limit, [], 0, 0;
      accepted, fates, doomed := [], [], [];
    }

    method SetLimit(limit: nat)
      requires Valid()
      modifies this`buffersLimit
      ensures Valid() && buffersLimit == if limit < 4 then 4 else limit
    {
      buffersLimit := if limit < 4 then 4 else limit;
    }

    /** append, in any thread, whatever the writing thread is doing: the message is kept exactly if it fits into an
        empty buffer. */
    method Append(log: seq<Byte>)
      requires Valid()
      modifies this`curBuffer, this`nextBuffer, this`buffersHolder, this`accepted
      ensures Valid()
      ensures accepted == old(accepted) + if |log| < SIZE then log else []
      ensures Waiting() == old(Waiting()) + if |log| < SIZE then log else []
    {
      hide Concat, All, Kept;
      ghost var kept := if |log| < SIZE then log else [];
      Extend(All(fates), InFlight(), Waiting(), kept);
      if SIZE - |curBuffer.value| > |log| {
        Longer(buffersHolder, curBuffer.value, log);
      } else {
        HandOver();
        Longer(buffersHolder, curBuffer.value, kept);
      }
      curBuffer := Some(Appended(curBuffer.value, log));
      accepted := accepted + kept;
    }

    /** The current buffer goes to the holder, and the next one, or else a new one, takes its place. */
    method HandOver()
      requires Valid()
      modifies this`curBuffer, this`nextBuffer, this`buffersHolder
      ensures Valid() && curBuffer == Some([]) && Waiting() == old(Waiting())
      ensures buffersHolder == old(buffersHolder) + [old(curBuffer).value]
    {
      hide Concat, All, Kept;
      Full(buffersHolder, curBuffer.value, []);
      buffersHolder, curBuffer := buffersHolder + [curBuffer.value], None;
      if nextBuffer.Some? {
        curBuffer, nextBuffer := nextBuffer, None;
      } else {
        curBuffer := Some([]);
      }
    }

    /** The critical section of process; after a wait it is left again if the current buffer is empty. */
    method Collect(waited: bool) returns (ok: bool)
      requires Valid() && phase.Top? && (!waited ==> buffersHolder != [])
      modifies this`phase, this`curBuffer, this`nextBuffer, this`buffersHolder, this`curBak, this`nextBak,
          this`buffersBak
      ensures Valid() && (ok <==> !waited || old(curBuffer) != Some([]))
      ensures if ok then phase.Collected? && buffersHolder == [] && curBuffer == Some([]) &&
        InFlight() == old(Waiting())
        else phase.Top? && Waiting() == old(Waiting())
    {
      hide Concat, All, Kept;
      if waited && curBuffer.value == [] {
        return false;
      }
      Full(buffersHolder, curBuffer.value, []);
      ConcatOne([]);
      buffersHolder, curBuffer := buffersHolder + [curBuffer.value], None;
      curBuffer, curBak := curBak, None;
      buffersBak, buffersHolder := buffersHolder, buffersBak;
      if nextBuffer.None? {
        nextBuffer, nextBak := nextBak, None;
      }
      phase := Collected;
      ok := true;
      assert buffersBak[0..] == buffersBak;
    }

    /** Too many buffers: all but the first two are dropped, with a notice. */
    method DropExcess()
      requires Valid() && phase.Collected?
      modifies this`phase, this`buffersBak, this`notices, this`doomed
      ensures Valid() && phase.Writing? && written == 0
      ensures if |old(buffersBak)| > buffersLimit
        then notices == old(notices) + 1 && buffersBak == old(buffersBak)[..2] && doomed == old(buffersBak)[2..]
        else notices == old(notices) && buffersBak == old(buffersBak) && doomed == []
    {
      hide Concat, All, Kept;
      phase := Writing;
      assert buffersBak[0..] == buffersBak;
      if |buffersBak| > buffersLimit {
        var kept := buffersBak[..2];
        notices := notices + 1;
        doomed := buffersBak[2..];
        ConcatAppend(kept, doomed);
        assert kept + doomed == buffersBak && kept[0..] == kept;
        ConcatOne([]);
        buffersBak := kept;
      }
    }

    /** One buffer goes to the log file. */
    method WriteNext()
      requires Valid() && phase.Writing? && written < |buffersBak|
      modifies this`written, this`output, this`fates
      ensures Valid() && written == old(written) + 1 && output == old(output) + buffersBak[old(written)]
      ensures fates == old(fates) + [Written(buffersBak[old(written)])]
    {
      hide Concat, All, Kept;
      var buf := buffersBak[written];
      FateSnoc(fates, Written(buf));
      ConcatAppend([buf], buffersBak[written + 1..]);
      ConcatOne(buf);
      assert [buf] + buffersBak[written + 1..] == buffersBak[written..];
      Reorder(All(fates), buf, Concat(buffersBak[written + 1..]), Concat(doomed), Waiting());
      output, fates, written := output + buf, fates + [Written(buf)], written + 1;
    }

    /** The spare buffers come back from what has been written: there is always one at the back to take. */
    method Restore()
      requires Valid() && phase.Writing? && written == |buffersBak|
      modifies this`phase, this`curBak, this`nextBak, this`buffersBak, this`written, this`fates, this`doomed
      ensures Valid() && phase.Top? && fates == old(fates) + Doomed(old(doomed))
    {
      hide Concat, All, Kept, Doomed;
      DroppedAll(fates, doomed);
      ConcatOne([]);
      assert buffersBak[written..] == [];
      Reorder(All(fates), [], [], Concat(doomed), Waiting());
      fates, doomed := fates + Doomed(doomed), [];
      if curBak.None? {
        curBak := Some([]);
        buffersBak := buffersBak[..|buffersBak| - 1];
      }
      if nextBak.None? {
        nextBak := Some([]);
        buffersBak := buffersBak[..|buffersBak| - 1];
      }
      buffersBak, written, phase := [], 0, Top;
    }

    /** One round of process without anything in between. */
    method Round(waited: bool) returns (ok: bool)
      requires Valid() && phase.Top? && (!waited ==> buffersHolder != [])
      modifies this
      ensures Valid() && phase.Top? && accepted == old(accepted)
      ensures ok ==> buffersHolder == [] && curBuffer == Some([])
    {
      hide Concat, All, Kept, SharedOk, SparesOk, Conserved;
      ok := Collect(waited);
      if ok {
        DropExcess();
        while written < |buffersBak|
          invariant Valid() && phase.Writing? && written <= |buffersBak| && accepted == old(accepted) &&
            buffersHolder == [] && curBuffer == Some([])
          decreases |buffersBak| - written
        {
          WriteNext();
        }
        Restore();
      }
    }

    /** Any interleaving of appending threads with the critical sections and writes of the writing thread. */
    method Interleave(actions: seq<Action>)
      requires Valid()
      modifies this
      ensures Valid() && accepted == old(accepted) + Fitting(actions)
      ensures All(fates) + (InFlight() + Waiting()) == accepted && output == Kept(fates)
      ensures old(fates) <= fates
    {
      hide Concat, All, Kept, SharedOk, SparesOk, Fitting;
      var k := 0;
      FittingNone();
      assert actions[..0] == [];
      while k < |actions|
        invariant 0 <= k <= |actions| && Valid() && accepted == old(accepted) + Fitting(actions[..k]) &&
          old(fates) <= fates
      {
        FittingNext(actions, k);
        match actions[k] {
          case Append(log) => Append(log);
          case SetLimit(limit) => SetLimit(limit);
          case Collect(waited) =>
            if phase.Top? && (waited || buffersHolder != []) {
              var _ := Collect(waited);
            }
          case DropExcess =>
            if phase.Collected? {
              DropExcess();
            }
          case WriteNext =>
            if phase.Writing? && written < |buffersBak| {
              WriteNext();
            }
          case Restore =>
            if phase.Writing? && written == |buffersBak| {
              Restore();
            }
        }
        k := k + 1;
      }
      assert actions[..k] == actions;
    }

    /** What stop finds when the writing thread has left its loop: everything taken has been written or dropped, and
        what still waits is never written. */
    method Stop() returns (lost: seq<Byte>)
      requires Valid() && phase.Top?
      ensures All(fates) + lost == accepted
      ensures lost == [] <==> curBuffer == Some([]) && Concat(buffersHolder) == []
      ensures lost == [] && (forall i :: 0 <= i < |fates| ==> fates[i].Written?) ==> output == accepted
    {
      lost := [];
      var k := 0;
      while k < |buffersHolder|
        invariant 0 <= k <= |buffersHolder| && lost == Concat(buffersHolder[..k])
      {
        ConcatAppend(buffersHolder[..k], [buffersHolder[k]]);
        ConcatOne(buffersHolder[k]);
        assert buffersHolder[..k + 1] == buffersHolder[..k] + [buffersHolder[k]];
        lost := lost + buffersHolder[k];
        k := k + 1;
      }
      assert buffersHolder[..k] == buffersHolder;
      hide Concat, All, Kept, SparesOk;
      lost := lost + curBuffer.value;
      assert [] + Waiting() == Waiting() && lost == Waiting();
      if forall i :: 0 <= i < |fates| ==> fates[i].Written? {
        NothingDropped(fates);
      }
    }
  }

  lemma Extend(a: seq<Byte>, b: seq<Byte>, c: seq<Byte>, d: seq<Byte>)
    ensures a + (b + c) + d == a + (b + (c + d))
  {
  }

  lemma Reorder(a: seq<Byte>, b: seq<Byte>, c: seq<Byte>, d: seq<Byte>, e: seq<Byte>)
    ensures a + ((b + c + d) + e) == (a + b) + ((c + d) + e)
    ensures a + (([] + d) + e) == (a + d) + ([] + e)
  {
  }

  lemma Longer(holder: seq<Buf>, cur: Buf, log: seq<Byte>)
    ensures Concat(holder) + (cur + log) == Concat(holder) + cur + log
    ensures Concat(holder) + (cur + []) == Concat(holder) + cur
  {
    assert cur + [] == cur;
  }

  /** The full buffer goes to the holder, and the message into an empty one. */
  lemma Full(holder: seq<Buf>, cur: Buf, log: seq<Byte>)
    ensures Concat(holder + [cur]) + log == Concat(holder) + cur + log
    ensures Concat(holder + [cur]) == Concat(holder) + cur
  {
    ConcatAppend(holder, [cur]);
    ConcatOne(cur);
  }

  /** A message of 4000000 bytes or more is lost without a trace, even though append announces it to the writing
      thread. */
  lemma BigMessageLost(buf: Buf, log: seq<Byte>)
    requires |buf| < SIZE
    ensures Appended([], log) == [] <==> log == [] || |log| >= SIZE
    ensures |log| >= SIZE ==> Appended(buf, log) == buf
  {
  }
}
