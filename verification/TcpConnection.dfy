/** A connection: sending directly or through the output buffer, and its way from connecting to closed. */
module TcpConnection {
  import opened Bytes

  datatype TcpState = Connecting | Connected | Disconnecting | Disconnected

  /** The states only follow each other in this order. */
  function Rank(s: TcpState): nat {
    match s case Connecting => 0 case Connected => 1 case Disconnecting => 2 case Disconnected => 3
  }

  // What write() does: it takes a prefix, or says EAGAIN, or fails; only EPIPE and ECONNRESET are fatal for a send.
  datatype WriteResult = Took(n: nat) | WouldBlock | OtherError | BrokenPipe

  /** What a socket can answer when it is offered len bytes: it takes no more than that; and once its writing side is
      shut down it takes none and does not ask to wait, but fails: with EPIPE, and under Windows with an error that is
      not among the fatal ones. */
  predicate Possible(shutdowns: nat, len: nat, w: WriteResult) {
    (w.Took? ==> w.n <= len) && (shutdowns > 0 && len > 0 ==> w.BrokenPipe? || w.OtherError?)
  }

  /** The answer that is possible, and nearest to w. */
  function Answer(shutdowns: nat, len: nat, w: WriteResult): (r: WriteResult)
    ensures Possible(shutdowns, len, r) && (Possible(shutdowns, len, w) ==> r == w)
  {
    if shutdowns > 0 && len > 0 then if w.OtherError? then w else BrokenPipe
    else if w.Took? && w.n > len then Took(len)
    else w
  }

  // What read() returns.
  datatype ReadResult = Got(n: nat) | PeerClosed | ReadError

  // The steps of the life cycle that the outside sees.
  datatype Event = Opened | ShutWr | OnClose | LeftPoller | FdClosed

  function Repeat(n: nat): seq<Event> { seq(n, _ => ShutWr) }

  /** All that can happen to a connection, in the order in which it happens. */
  function Story(state: TcpState, shutdowns: nat, fdClosed: bool): seq<Event> {
    (if state.Connecting? then [] else [Opened]) + Repeat(shutdowns)
    + (if state.Disconnected? then [OnClose, LeftPoller] else []) + if fdClosed then [FdClosed] else []
  }

  lemma StoryShut(n: nat)
    ensures Repeat(n) + [ShutWr] == Repeat(n + 1)
  {
  }

  /** What the socket takes at once, if nothing is waiting before it. */
  function Sent(direct: bool, data: seq<Byte>, w: WriteResult): seq<Byte>
    requires w.Took? ==> w.n <= |data|
  {
    if direct && w.Took? then data[..w.n] else []
  }

  /** What goes into the output buffer. */
  function Kept(direct: bool, data: seq<Byte>, w: WriteResult): seq<Byte>
    requires w.Took? ==> w.n <= |data|
  {
    if direct && w.Took? then data[w.n..] else if direct && w.BrokenPipe? then [] else data
  }

  /** Nothing is lost or reordered, except after a fatal error. */
  lemma SentAndKept(direct: bool, data: seq<Byte>, w: WriteResult)
    requires w.Took? ==> w.n <= |data|
    ensures !(direct && w.BrokenPipe? && data != []) ==> Sent(direct, data, w) + Kept(direct, data, w) == data
    ensures direct && w.Took? && w.n == |data| ==> Kept(direct, data, w) == []
    ensures data[0..] == data
  {
  }

  /** After the shutdown the socket takes nothing. */
  lemma TakesNothing(direct: bool, data: seq<Byte>, w: WriteResult)
    requires Possible(1, |data|, w)
    ensures Sent(direct, data, w) == []
  {
  }

  lemma Conserved(wire: seq<Byte>, outputBuf: seq<Byte>, data: seq<Byte>, w: WriteResult)
    requires w.Took? ==> w.n <= |data|
    ensures var direct := outputBuf == [];
      && (!(direct && w.BrokenPipe? && data != []) ==>
           (wire + Sent(direct, data, w)) + (outputBuf + Kept(direct, data, w)) == (wire + outputBuf) + data)
      && (direct && w.BrokenPipe? ==> Sent(direct, data, w) == [] == Kept(direct, data, w))
      && |Sent(direct, data, w)| <= |data|
      && (!direct ==> Sent(direct, data, w) == [] && Kept(direct, data, w) == data)
  {
    SentAndKept(outputBuf == [], data, w);
    hide Sent, Kept;
    assert outputBuf == [] ==>
      (wire + Sent(true, data, w)) + ([] + Kept(true, data, w)) == wire + (Sent(true, data, w) + Kept(true, data, w));
  }

  class TcpConnection {
    var state: TcpState
    var fd: int
    var outputBuf: seq<Byte>
    var writeInterest: bool         // Channel::isEnableWrite
    var inPoller: bool
    const hasHandler: bool          // tcpHandler != nullptr
    const highWaterMark: nat
    var writeCompletes: nat         // queued onWriteComplete
    var highWaters: seq<nat>        // queued onHighWaterMark
    ghost var wire: seq<Byte>       // what the socket has taken
    ghost var accepted: seq<Byte>   // all data of all sends that were not given up
    ghost var failed: bool          // a send met a fatal error, and the rest of its data was dropped
    var shutdowns: nat              // of the socket: how often its writing side was shut down
    ghost var atShutdown: seq<Byte> // the wire, the last time it was
    ghost var brokenBefore: bool    // a send had failed by then
    ghost var late: seq<Byte>       // what was accepted after it
    ghost var log: seq<Event>

    ghost predicate Open()
      reads this
    {
      state.Connected? || state.Disconnecting?
    }

    /** What holds between any two callbacks. */
    ghost predicate Valid()
      reads this
    {
      && (!failed ==> wire + outputBuf == accepted)
      && (Open() ==> (writeInterest <==> outputBuf != []))
      && (state.Connecting? ==> outputBuf == [] && !writeInterest && shutdowns == 0)
      && (inPoller <==> Open())
      && (fd < 0 ==> state.Disconnected?)
      && log == Story(state, shutdowns, fd < 0)
      && Graceful()
    }

    /** The writing side is shut down at most once, when everything has been written; nothing reaches the wire after
        it, and what is accepted after it is the only loss. */
    ghost predicate Graceful()
      reads this
    {
      && shutdowns <= 1
      && (state.Connecting? || state.Connected? ==> shutdowns == 0)
      && (state.Disconnecting? && shutdowns == 0 ==> outputBuf != [])
      && (shutdowns == 0 ==> late == [])
      && (shutdowns == 1 ==> wire == atShutdown && (brokenBefore || accepted == wire + late))
    }

    constructor (fd: nat, hasHandler: bool, highWaterMark: nat)
      ensures Valid() && state.Connecting? && this.fd == fd && wire == [] && accepted == [] && !failed && log == []
      ensures shutdowns == 0 && outputBuf == []
    {
      state, this.fd, outputBuf, writeInterest, inPoller := Connecting, fd, [], false, false;
      this.hasHandler, this.highWaterMark, writeCompletes, highWaters := hasHandler, highWaterMark, 0, [];
      wire, accepted, failed, shutdowns, atShutdown, brokenBefore, late, log := [], [], false, 0, [], false, [], [];
    }

    method OnConnection()
      requires Valid() && state.Connecting?
      modifies this`state, this`inPoller, this`log
      ensures Valid() && state.Connected?
    {
      state := Connected;
      inPoller := true;
      log := log + [Opened];
    }

    /** sendInLoop, in the owner thread; data that meets a fatal error is dropped from there on. */
    method SendInLoop(data: seq<Byte>, w: WriteResult)
      requires Valid() && !state.Connecting? && Possible(shutdowns, |data|, w)
      modifies this`outputBuf, this`writeInterest, this`writeCompletes, this`highWaters, this`wire, this`accepted,
          this`failed, this`late
      ensures Valid()
      ensures late == if state.Disconnected? || shutdowns == 0 then old(late) else old(late) + data
      ensures accepted == if state.Disconnected? then old(accepted) else old(accepted) + data
      ensures state.Disconnected? ==>
        wire == old(wire) && outputBuf == old(outputBuf) && writeInterest == old(writeInterest) && failed == old(failed)
      ensures !state.Disconnected? ==>
        var direct := old(outputBuf) == [];
        && wire == old(wire) + Sent(direct, data, w) && outputBuf == old(outputBuf) + Kept(direct, data, w)
        && failed == (old(failed) || (direct && w.BrokenPipe? && data != []))
        && writeCompletes == old(writeCompletes) + (if hasHandler && direct && w == Took(|data|) then 1 else 0)
        && highWaters == old(highWaters) +
             if hasHandler && |old(outputBuf)| < highWaterMark <= |outputBuf| then [|outputBuf|] else []
    {
      hide Story, Sent, Kept;
      if state.Disconnected? {
        return;
      }
      Conserved(wire, outputBuf, data, w);
      if shutdowns > 0 {
        TakesNothing(outputBuf == [], data, w);
        late := late + data;
      }
      Deliver(data, w);
    }

    /** The data goes to the socket, to the buffer, or is lost. */
    method Deliver(data: seq<Byte>, w: WriteResult)
      requires (writeInterest <==> outputBuf != []) && (w.Took? ==> w.n <= |data|)
      modifies this`outputBuf, this`writeInterest, this`writeCompletes, this`highWaters, this`wire, this`accepted,
          this`failed
      ensures accepted == old(accepted) + data && (writeInterest <==> outputBuf != [])
      ensures var direct := old(outputBuf) == [];
        && wire == old(wire) + Sent(direct, data, w) && outputBuf == old(outputBuf) + Kept(direct, data, w)
        && failed == (old(failed) || (direct && w.BrokenPipe? && data != []))
        && writeCompletes == old(writeCompletes) + (if hasHandler && direct && w == Took(|data|) then 1 else 0)
        && highWaters == old(highWaters) +
             if hasHandler && |old(outputBuf)| < highWaterMark <= |outputBuf| then [|outputBuf|] else []
    {
      hide Sent, Kept;
      Conserved(wire, outputBuf, data, w);
      assert outputBuf + [] == outputBuf && wire + data[..0] == wire && highWaters + [] == highWaters;
      var n, isErr := TryWrite(data, w);
      accepted, failed := accepted + data, failed || (isErr && n < |data|);
      if !isErr && n < |data| {
        BufferRest(data[n..]);
      }
    }

    /** The first half of sendInLoop: straight to the socket, unless something is waiting before this data. */
    method TryWrite(data: seq<Byte>, w: WriteResult) returns (n: nat, isErr: bool)
      requires (writeInterest <==> outputBuf != []) && (w.Took? ==> w.n <= |data|)
      modifies this`writeCompletes, this`wire
      ensures n <= |data| && data[..n] == Sent(outputBuf == [], data, w)
      ensures isErr <==> outputBuf == [] && w.BrokenPipe?
      ensures !isErr ==> data[n..] == Kept(outputBuf == [], data, w)
      ensures isErr ==> n == 0
      ensures wire == old(wire) + data[..n]
      ensures writeCompletes == old(writeCompletes) + if hasHandler && outputBuf == [] && w == Took(|data|) then 1
        else 0
    {
      n, isErr := 0, false;
      if !writeInterest && outputBuf == [] {
        match w {
          case Took(m) =>
            n := m;
            if n == |data| && hasHandler {
              writeCompletes := writeCompletes + 1;
            }
          case WouldBlock =>
          case OtherError =>
          case BrokenPipe => isErr := true;
        }
      }
      wire := wire + data[..n];
    }

    /** The second half: what remains is buffered, and the socket watched. */
    method BufferRest(rest: seq<Byte>)
      requires rest != []
      modifies this`outputBuf, this`writeInterest, this`highWaters
      ensures outputBuf == old(outputBuf) + rest && writeInterest
      ensures highWaters == old(highWaters) +
        if hasHandler && |old(outputBuf)| < highWaterMark <= |outputBuf| then [|outputBuf|] else []
    {
      var oldLen := |outputBuf|;
      if oldLen + |rest| >= highWaterMark && oldLen < highWaterMark && hasHandler {
        highWaters := highWaters + [oldLen + |rest|];
      }
      outputBuf := outputBuf + rest;
      if !writeInterest {
        writeInterest := true;
      }
    }

    /** send, called in the owner thread */
    method Send(data: seq<Byte>, w: WriteResult)
      requires Valid() && Possible(shutdowns, |data|, w)
      modifies this`outputBuf, this`writeInterest, this`writeCompletes, this`highWaters, this`wire, this`accepted,
          this`failed, this`late
      ensures Valid() && late == old(late)
      ensures accepted == if state.Connected? then old(accepted) + data else old(accepted)
      ensures old(wire) <= wire && (failed && !old(failed) ==> w.BrokenPipe?) && (old(failed) ==> failed)
    {
      if state.Connected? {
        SendInLoop(data, w);
      }
    }

    method ShutdownWrite()
      requires fd >= 0 && log == Story(state, shutdowns, false) && Open()
      modifies this`shutdowns, this`atShutdown, this`brokenBefore, this`log
      ensures shutdowns == old(shutdowns) + 1 && atShutdown == wire && brokenBefore == failed
      ensures log == Story(state, shutdowns, false)
    {
      StoryShut(shutdowns);
      shutdowns, atShutdown, brokenBefore, log := shutdowns + 1, wire, failed, log + [ShutWr];
    }

    /** shutdown and shutdownInLoop */
    method Shutdown()
      requires Valid()
      modifies this`state, this`shutdowns, this`atShutdown, this`brokenBefore, this`log
      ensures Valid() && Rank(old(state)) <= Rank(state)
      ensures old(state).Connected? ==>
        state.Disconnecting? && shutdowns == old(shutdowns) + if outputBuf == [] then 1 else 0
      ensures !old(state).Connected? ==> state == old(state) && shutdowns == old(shutdowns)
    {
      if state.Connected? {
        state := Disconnecting;
        if !writeInterest {
          ShutdownWrite();
        }
      }
    }

    /** handleWrite: any error of this write closes the connection, even EAGAIN. */
    method HandleWrite(w: WriteResult)
      requires Valid() && Possible(shutdowns, |outputBuf|, w)
      modifies this
      ensures Valid() && Rank(old(state)) <= Rank(state)
      ensures accepted == old(accepted) && failed == old(failed) && late == old(late) && old(wire) <= wire
      ensures old(Open()) && old(shutdowns) > 0 && old(outputBuf) != [] ==> state.Disconnected?
      ensures !w.Took? ==> wire == old(wire) && outputBuf == old(outputBuf) && shutdowns == old(shutdowns)
      ensures old(Open()) && old(writeInterest) && !w.Took? <==> old(Open()) && state.Disconnected?
      ensures old(Open()) && old(writeInterest) && w.Took? ==>
        && state == old(state) && outputBuf == old(outputBuf)[w.n..] && wire == old(wire) + old(outputBuf)[..w.n]
        && writeCompletes == old(writeCompletes) + if hasHandler && w.n == |old(outputBuf)| then 1 else 0
      ensures old(Open()) && state.Disconnecting? && old(outputBuf) != [] && outputBuf == [] ==>
        shutdowns == old(shutdowns) + 1 && atShutdown == wire
    {
      if state.Disconnected? {
        return;
      }
      if writeInterest {
        match w {
          case Took(n) =>
            if n > 0 {
              Wrote(n);
              if outputBuf == [] && state.Disconnecting? {
                ShutdownWrite();
              }
            }
          case WouldBlock => HandleClose();
          case OtherError => HandleClose();
          case BrokenPipe => HandleClose();
        }
      }
    }

    /** Part of handleWrite: n bytes of the buffer have been written. */
    method Wrote(n: nat)
      requires 0 < n <= |outputBuf| && (writeInterest <==> outputBuf != [])
      modifies this`wire, this`outputBuf, this`writeInterest, this`writeCompletes
      ensures wire + outputBuf == old(wire + outputBuf) && (writeInterest <==> outputBuf != [])
      ensures outputBuf == old(outputBuf)[n..] && wire == old(wire) + old(outputBuf)[..n]
      ensures writeCompletes == old(writeCompletes) + if hasHandler && n == |old(outputBuf)| then 1 else 0
    {
      assert outputBuf == outputBuf[..n] + outputBuf[n..];
      wire := wire + outputBuf[..n];
      outputBuf := outputBuf[n..];
      if outputBuf == [] {
        writeInterest := false;
        if hasHandler {
          writeCompletes := writeCompletes + 1;
        }
      }
    }

    /** handleRead: the end of the stream closes the connection, an error is only logged. */
    method HandleRead(r: ReadResult)
      requires Valid()
      modifies this`state, this`inPoller, this`log
      ensures Valid()
      ensures state == if r.PeerClosed? && old(Open()) then Disconnected else old(state)
    {
      if !state.Disconnected? && !state.Connecting? && r.PeerClosed? {
        HandleClose();
      }
    }

    /** handleClose and removeItself */
    method HandleClose()
      requires Valid() && !state.Connecting?
      modifies this`state, this`inPoller, this`log
      ensures Valid() && state.Disconnected?
      ensures old(state).Disconnected? ==> log == old(log)
    {
      if state.Disconnected? {
        return;
      }
      ghost var before := log;
      state := Disconnected;
      log := log + [OnClose];
      inPoller := false;
      log := log + [LeftPoller];
      assert before + [OnClose] + [LeftPoller] == before + [OnClose, LeftPoller];
    }

    /** forceClose and forceCloseInLoop */
    method ForceClose()
      requires Valid()
      modifies this`state, this`fd, this`inPoller, this`log
      ensures Valid() && Rank(old(state)) <= Rank(state)
      ensures old(Open()) ==> state.Disconnected? && fd < 0
      ensures !old(Open()) ==> state == old(state) && fd == old(fd) && log == old(log)
    {
      if state.Connected? || state.Disconnecting? {
        // the code sets disconnecting here, and handleClose disconnected right after it
        HandleClose();
        assert !inPoller;
        fd := -fd - 1;
        log := log + [FdClosed];
      }
    }

    /** The destructor closes the descriptor unless forceClose has done so. */
    method Destroy()
      requires Valid() && state.Disconnected?
      modifies this`fd, this`log
      ensures !inPoller && log == Story(Disconnected, shutdowns, true)
    {
      if fd >= 0 {
        fd := -fd - 1;
        log := log + [FdClosed];
      }
    }

    // ----- Whole runs

    /** One call or event in the owner thread, or a send that another thread has queued. */
    method Step(input: Input)
      requires Valid() && !state.Connecting?
      modifies this
      ensures Valid() && Rank(old(state)) <= Rank(state)
      ensures late == old(late) || (input.QueuedSend? && old(shutdowns) == 1 && late == old(late) + input.data)
    {
      match input {
        case UserSends(data, w) => Send(data, Answer(shutdowns, |data|, w));
        case QueuedSend(data, w) => SendInLoop(data, Answer(shutdowns, |data|, w));
        case Writable(w) => HandleWrite(Answer(shutdowns, |outputBuf|, w));
        case Readable(r) => HandleRead(r);
        case Hup => HandleClose();
        case UserShutsDown => Shutdown();
        case UserForcesClose => ForceClose();
      }
    }

    /** Any sequence of them, from the moment the connection is there: the states only go forward, the writing side is
        shut down at most once, and if it was, and no send had failed before, then what reached the wire is what was
        accepted before, so that all of it did exactly if nothing was accepted later. */
    method Drive(inputs: seq<Input>) returns (ghost states: seq<TcpState>)
      requires Valid() && state.Connecting?
      modifies this
      ensures Valid() && log == Story(state, shutdowns, fd < 0) && shutdowns <= 1
      ensures |states| == |inputs| + 1 && states[0].Connected? && states[|inputs|] == state
      ensures forall i, j :: 0 <= i <= j < |states| ==> Rank(states[i]) <= Rank(states[j])
      ensures !failed ==> wire <= accepted
      ensures shutdowns == 1 ==> wire == atShutdown
      ensures shutdowns == 1 && !brokenBefore ==> accepted == wire + late && (wire == accepted <==> late == [])
      ensures late != [] ==> exists i :: 0 <= i < |inputs| && inputs[i].QueuedSend? && inputs[i].data != []
    {
      OnConnection();
      var i := 0;
      states := [state];
      while i < |inputs|
        invariant 0 <= i <= |inputs| && Valid() && !state.Connecting?
        invariant |states| == i + 1 && states[0].Connected? && states[i] == state
        invariant forall j, k :: 0 <= j <= k < |states| ==> Rank(states[j]) <= Rank(states[k])
        invariant late != [] ==> exists j :: 0 <= j < |inputs| && inputs[j].QueuedSend? && inputs[j].data != []
      {
        ghost var before := late;
        Step(inputs[i]);
        states := states + [state];
        assert before + [] == before;
        i := i + 1;
      }
    }
  }

  /** A whole life: whatever happens, the descriptor is closed when it is over, and once. */
  method Life(fd: nat, hasHandler: bool, highWaterMark: nat, inputs: seq<Input>) returns (conn: TcpConnection)
    ensures fresh(conn) && !conn.inPoller && conn.shutdowns <= 1
    ensures conn.log == Story(Disconnected, conn.shutdowns, true)
  {
    conn := new TcpConnection(fd, hasHandler, highWaterMark);
    ghost var _ := conn.Drive(inputs);
    conn.HandleClose();
    conn.Destroy();
  }

  // Calls by the user and events from the poller; a write takes no more than it is offered.
  datatype Input =
    | UserSends(data: seq<Byte>, w: WriteResult) | QueuedSend(data: seq<Byte>, w: WriteResult)
      | Writable(w: WriteResult) | Readable(r: ReadResult) | Hup
    | UserShutsDown | UserForcesClose

  /** A send that was queued by another thread and runs after the shutdown: its data is accepted, and lost. After EPIPE
      it is dropped; after another error it waits in the buffer, and the next time the socket can be written the
      connection is closed. */
  method LateSend(data: seq<Byte>, w: WriteResult) returns (conn: TcpConnection)
    requires data != [] && Possible(1, |data|, w)
    ensures fresh(conn) && conn.Valid() && conn.shutdowns == 1 && conn.accepted == data == conn.late && conn.wire == []
    ensures w.BrokenPipe? ==> conn.state.Disconnecting? && conn.outputBuf == []
    ensures w.OtherError? ==> conn.state.Disconnected? && conn.outputBuf == data
  {
    conn := new TcpConnection(3, true, 65536);
    conn.OnConnection();
    conn.Shutdown();
    assert [] + data == data;
    conn.SendInLoop(data, w);
    if w.OtherError? {
      conn.HandleWrite(OtherError);
    }
  }

  // ----- What the log of a whole run says

  /** Every event at most once; the poller is left before the descriptor is closed; no
      shutdown after the close. */
  lemma StoryOrder(state: TcpState, shutdowns: nat, fdClosed: bool, i: nat, j: nat)
    requires (fdClosed ==> state.Disconnected?) && shutdowns <= 1
    requires i < |Story(state, shutdowns, fdClosed)| && j < |Story(state, shutdowns, fdClosed)|
    ensures var s := Story(state, shutdowns, fdClosed);
      && (s[i] == s[j] ==> i == j)
      && (s[i].OnClose? && s[j].LeftPoller? ==> i < j) && (s[i].LeftPoller? && s[j].FdClosed? ==> i < j)
      && (s[i].ShutWr? && s[j].OnClose? ==> i < j) && (s[i].Opened? ==> i == 0)
      && (s[i].FdClosed? ==> 3 <= |s| && s[i - 1].LeftPoller? && s[i - 2].OnClose?)
  {
    if fdClosed {
      assert |Story(state, shutdowns, fdClosed)| == 1 + shutdowns + 3;
    }
  }
}
