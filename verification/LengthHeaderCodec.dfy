/** Messages behind a 32-bit length header, encoded and decoded through the byte buffer. */
module LengthHeaderCodec {
  import opened Bytes
  import opened Pieces
  import opened BufferInts
  import B = Buffer

  const HEADER_LEN: nat := 4
  const MAX_LEN: int := 65536

  type Message = seq<Byte>

  /** A message on the wire. */
  function Encode(msg: Message): seq<Byte>
    requires Fits(|msg|, HEADER_LEN)
  {
    ToNet(|msg|, HEADER_LEN) + msg
  }

  predicate Sendable(msgs: seq<Message>) { forall i :: 0 <= i < |msgs| ==> |msgs[i]| <= MAX_LEN }

  lemma LengthFits(n: nat)
    requires n <= MAX_LEN
    ensures Fits(n, HEADER_LEN)
  {
    assert Pow256(1) == 256 && Pow256(2) == 65536 && Pow256(3) == 0x100_0000 && Pow256(4) == 0x1_0000_0000;
  }

  function EncodeAll(msgs: seq<Message>): seq<Byte>
    requires Sendable(msgs)
  {
    if msgs == [] then []
    else
      LengthFits(|msgs[0]|);
      Encode(msgs[0]) + EncodeAll(msgs[1..])
  }

  // What the decoder makes of some bytes: messages, and what stays in the buffer; `bad` if the next length is refused.
  datatype Decoded = Decoded(msgs: seq<Message>, rest: seq<Byte>, bad: bool)

  function Decode(s: seq<Byte>): (d: Decoded)
    ensures |d.rest| <= |s|
    decreases |s|
  {
    if |s| < HEADER_LEN then Decoded([], s, false)
    else
      var len := FromNet(s[..HEADER_LEN]);
      if len > MAX_LEN || len < 0 then Decoded([], s, true)
      else if |s| < len + HEADER_LEN then Decoded([], s, false)
      else
        var d := Decode(s[len + HEADER_LEN..]);
        d.(msgs := [s[HEADER_LEN..len + HEADER_LEN]] + d.msgs)
  }

  /** One round of the decoder. */
  lemma DecodeStep(s: seq<Byte>)
    ensures |s| < HEADER_LEN ==> Decode(s) == Decoded([], s, false)
    ensures |s| >= HEADER_LEN ==>
      var len := FromNet(s[..HEADER_LEN]);
      && (len > MAX_LEN || len < 0 ==> Decode(s) == Decoded([], s, true))
      && (0 <= len <= MAX_LEN && |s| < len + HEADER_LEN ==> Decode(s) == Decoded([], s, false))
      && (0 <= len <= MAX_LEN && |s| >= len + HEADER_LEN ==>
           var d := Decode(s[len + HEADER_LEN..]);
           Decode(s) == Decoded([s[HEADER_LEN..len + HEADER_LEN]] + d.msgs, d.rest, d.bad))
  {
    hide FromNet;
  }

  /** More bytes behind what has been decoded: the decoder goes on where it stopped. */
  lemma {:induction false} DecodeConcat(a: seq<Byte>, b: seq<Byte>)
    requires !Decode(a).bad
    ensures var d := Decode(a); var e := Decode(d.rest + b);
      Decode(a + b) == Decoded(d.msgs + e.msgs, e.rest, e.bad)
    decreases |a|
  {
    hide FromNet, Decode;
    DecodeStep(a);
    DecodeStep(a + b);
    if |a| >= HEADER_LEN {
      var len := FromNet(a[..HEADER_LEN]);
      assert (a + b)[..HEADER_LEN] == a[..HEADER_LEN];
      if |a| >= len + HEADER_LEN {
        var n := len + HEADER_LEN;
        assert (a + b)[HEADER_LEN..n] == a[HEADER_LEN..n] && (a + b)[n..] == a[n..] + b;
        DecodeConcat(a[n..], b);
      }
    }
  }

  /** One message is decoded as soon as all of it is there. */
  lemma DecodeOne(msg: Message, b: seq<Byte>)
    requires |msg| <= MAX_LEN
    ensures Fits(|msg|, HEADER_LEN)
    ensures var d := Decode(b); Decode(Encode(msg) + b) == d.(msgs := [msg] + d.msgs)
  {
    LengthFits(|msg|);
    NetRoundTrip(|msg|, HEADER_LEN, []);
    hide FromNet, ToNet, Fits;
    var s := Encode(msg) + b;
    assert s[..HEADER_LEN] == ToNet(|msg|, HEADER_LEN);
    assert s[HEADER_LEN..HEADER_LEN + |msg|] == msg && s[HEADER_LEN + |msg|..] == b;
  }

  lemma {:induction false} DecodeAll(msgs: seq<Message>)
    requires Sendable(msgs)
    ensures Decode(EncodeAll(msgs)) == Decoded(msgs, [], false)
  {
    if msgs != [] {
      DecodeOne(msgs[0], EncodeAll(msgs[1..]));
      DecodeAll(msgs[1..]);
    }
    hide FromNet;
  }

  /** Bytes that are decoded without complaint up to the end were decoded without complaint before. */
  lemma {:induction false} NeverBadBefore(a: seq<Byte>, b: seq<Byte>)
    requires !Decode(a + b).bad
    ensures !Decode(a).bad
    decreases |a|
  {
    hide FromNet;
    if |a| >= HEADER_LEN {
      var len := FromNet(a[..HEADER_LEN]);
      assert (a + b)[..HEADER_LEN] == a[..HEADER_LEN];
      if 0 <= len <= MAX_LEN && |a| >= len + HEADER_LEN {
        var n := len + HEADER_LEN;
        assert (a + b)[n..] == a[n..] + b;
        NeverBadBefore(a[n..], b);
      }
    }
  }

  /** The messages that some fragments yield, one after the other, and what is left over. */
  function Feed(pieces: seq<seq<Byte>>): Decoded {
    if pieces == [] then Decoded([], [], false)
    else
      var d := Feed(pieces[..|pieces| - 1]);
      var e := Decode(d.rest + pieces[|pieces| - 1]);
      Decoded(d.msgs + e.msgs, e.rest, e.bad)
  }

  /** How the stream is cut makes no difference. */
  lemma {:induction false} FeedIsDecode(pieces: seq<seq<Byte>>)
    requires !Decode(Join(pieces)).bad
    ensures Feed(pieces) == Decode(Join(pieces))
    decreases |pieces|
  {
    if pieces != [] {
      var init, last := pieces[..|pieces| - 1], pieces[|pieces| - 1];
      JoinSnoc(pieces, |pieces| - 1);
      assert pieces[..|pieces|] == pieces;
      NeverBadBefore(Join(init), last);
      FeedIsDecode(init);
      DecodeConcat(Join(init), last);
    }
    hide FromNet;
  }

  /** Framing round trip: any messages of up to 65536 bytes, in any fragments, come out as they went in. */
  lemma FramingRoundTrip(msgs: seq<Message>, pieces: seq<seq<Byte>>)
    requires Sendable(msgs) && Join(pieces) == EncodeAll(msgs)
    ensures Feed(pieces) == Decoded(msgs, [], false)
  {
    DecodeAll(msgs);
    FeedIsDecode(pieces);
    hide Decode, Feed;
  }

  /** send, up to the connection: the encoded message. Behind a message of more than 1020 bytes nothing can be appended
      but what fits into the rest of the vector, which is nothing from 1024 bytes on. */
  method Send(msg: Message) returns (buf: B.Buffer)
    requires |msg| <= MAX_LEN
    ensures fresh(buf) && buf.Valid() && Fits(|msg|, HEADER_LEN) && buf.Contents() == Encode(msg)
    ensures buf.readIndex == 4 && buf.writeIndex == 8 + |msg|
    ensures buf.buffer.Length == if |msg| <= 1024 then 1032 else 8 + |msg|
    ensures forall n: nat :: n <= MAX_LEN ==> (buf.Room(n) <==> |msg| <= 1020 || n + |msg| <= 1024 || n == 0)
  {
    LengthFits(|msg|);
    buf := new B.Buffer(B.INITIAL_SIZE);
    var ok := buf.Append(msg);
    assert [] + msg == msg;
    buf.PrependInt(|msg|, HEADER_LEN);
    assert ToNet(|msg|, HEADER_LEN)[..HEADER_LEN] == ToNet(|msg|, HEADER_LEN);
  }

  /** A message of 1024 bytes leaves the buffer in the state in which making room fails. */
  method SendFills(msg: Message) returns (buf: B.Buffer)
    requires |msg| == 1024
    ensures buf.Valid() && buf.buffer.Length == 1032 && buf.readIndex == 4 && buf.writeIndex == 1032 && !buf.Room(1)
    ensures !B.Works(buf.buffer.Length, buf.readIndex, buf.writeIndex, 1)
  {
    buf := Send(msg);
    B.EnsureSpaceFails();
  }

  /** The message behind the header, taken out of the buffer. */
  method TakeMessage(buf: B.Buffer, len: nat) returns (message: Message)
    requires buf.Valid() && len + HEADER_LEN <= buf.ReadableBytes()
    modifies buf
    ensures buf.Valid() && buf.buffer == old(buf.buffer)
    ensures message == old(buf.Contents())[HEADER_LEN..len + HEADER_LEN] &&
      buf.Contents() == old(buf.Contents())[len + HEADER_LEN..]
    ensures old(buf.readIndex) >= B.PREPENDS ==> buf.readIndex >= B.PREPENDS
  {
    ghost var s := buf.Contents();
    buf.Retrieve(HEADER_LEN);
    message := buf.Peek(len);
    buf.Retrieve(len);
  }

  /** One whole message in front of what is still to be decoded. */
  lemma OneMore(got: seq<Message>, s: seq<Byte>, len: nat)
    requires |s| >= len + HEADER_LEN && len <= MAX_LEN && FromNet(s[..HEADER_LEN]) == len
    ensures var d := Decode(s); var e := Decode(s[len + HEADER_LEN..]);
      Decoded(got + d.msgs, d.rest, d.bad) ==
      Decoded(got + [s[HEADER_LEN..len + HEADER_LEN]] + e.msgs, e.rest, e.bad)
  {
    DecodeStep(s);
    hide Decode, FromNet;
  }

  class Receiver {
    var delivered: seq<Message>   // onMessageStr
    var shutdowns: nat            // conn->shutdown()

    constructor ()
      ensures delivered == [] && shutdowns == 0
    {
      delivered, shutdowns := [], 0;
    }

    /** onMessage: takes whole messages out of the buffer until there is none, or a bad length. */
    method OnMessage(buf: B.Buffer)
      requires buf.Valid()
      modifies this, buf
      ensures buf.Valid() && buf.buffer == old(buf.buffer)
      ensures var d := Decode(old(buf.Contents()));
        && buf.Contents() == d.rest && delivered == old(delivered) + d.msgs
        && shutdowns == old(shutdowns) + if d.bad then 1 else 0
      ensures old(buf.readIndex) >= B.PREPENDS ==> buf.readIndex >= B.PREPENDS
    {
      hide FromNet, Fits, Decode;
      ghost var all := buf.Contents();
      ghost var got: seq<Message> := [];
      while buf.ReadableBytes() >= HEADER_LEN
        invariant buf.Valid() && buf.buffer == old(buf.buffer) && shutdowns == old(shutdowns)
        invariant delivered == old(delivered) + got
        invariant var d := Decode(buf.Contents()); Decode(all) == Decoded(got + d.msgs, d.rest, d.bad)
        invariant old(buf.readIndex) >= B.PREPENDS ==> buf.readIndex >= B.PREPENDS
        decreases |buf.Contents()|
      {
        ghost var s := buf.Contents();
        DecodeStep(s);
        var len := buf.PeekInt(HEADER_LEN);
        if len > MAX_LEN || len < 0 {
          shutdowns := shutdowns + 1;
          return;
        } else if buf.ReadableBytes() >= len + HEADER_LEN {
          OneMore(got, s, len);
          var message := TakeMessage(buf, len);
          delivered := delivered + [message];
          got := got + [message];
        } else {
          return;
        }
      }
      DecodeStep(buf.Contents());
    }

    /** One fragment. */
    method Arrive(buf: B.Buffer, piece: seq<Byte>)
      requires buf.Valid() && buf.readIndex >= B.PREPENDS
      requires buf.buffer.Length + |piece| + B.PREPENDS <= B.SIZE_MAX
      modifies this, buf, buf.buffer
      ensures buf.Valid() && buf.readIndex >= B.PREPENDS && (buf.buffer == old(buf.buffer) || fresh(buf.buffer))
      ensures buf.buffer.Length <= old(buf.buffer.Length) + |piece|
      ensures var d := Decode(old(buf.Contents()) + piece);
        && buf.Contents() == d.rest && delivered == old(delivered) + d.msgs
        && shutdowns == old(shutdowns) + if d.bad then 1 else 0
    {
      hide Decode;
      var ok := buf.Append(piece);
      OnMessage(buf);
    }

    /** Fragments that arrive one after the other in the same input buffer. */
    method Receive(buf: B.Buffer, pieces: seq<seq<Byte>>, ghost msgs: seq<Message>)
      requires buf.Valid() && buf.Contents() == [] && buf.readIndex >= B.PREPENDS
      requires Sendable(msgs) && Join(pieces) == EncodeAll(msgs)
      requires buf.buffer.Length + |Join(pieces)| + B.PREPENDS <= B.SIZE_MAX
      modifies this, buf, buf.buffer
      ensures buf.Valid() && buf.Contents() == [] && delivered == old(delivered) + msgs && shutdowns == old(shutdowns)
    {
      hide Decode, Feed, Join, EncodeAll;
      FramingRoundTrip(msgs, pieces);
      FeedStart();
      var i := 0;
      assert pieces[..0] == [];
      while i < |pieces|
        invariant i <= |pieces| && buf.Valid() && buf.readIndex >= B.PREPENDS
        invariant buf.buffer == old(buf.buffer) || fresh(buf.buffer)
        invariant buf.buffer.Length <= old(buf.buffer.Length) + |Join(pieces[..i])|
        invariant var d := Feed(pieces[..i]);
          !d.bad && buf.Contents() == d.rest && delivered == old(delivered) + d.msgs && shutdowns == old(shutdowns)
      {
        FeedSnoc(pieces, i);
        JoinSplit(pieces, i + 1);
        NotBadYet(msgs, pieces, i + 1);
        Arrive(buf, pieces[i]);
        i := i + 1;
      }
      assert pieces[..i] == pieces;
    }
  }

  lemma FeedSnoc(pieces: seq<seq<Byte>>, i: nat)
    requires i < |pieces|
    ensures var d := Feed(pieces[..i]); var e := Decode(d.rest + pieces[i]);
      Feed(pieces[..i + 1]) == Decoded(d.msgs + e.msgs, e.rest, e.bad)
    ensures Join(pieces[..i + 1]) == Join(pieces[..i]) + pieces[i]
  {
    hide Decode, Join;
    JoinSnoc(pieces, i);
    assert pieces[..i + 1][..i] == pieces[..i] && pieces[..i + 1][i] == pieces[i];
  }

  lemma FeedStart()
    ensures Feed([]) == Decoded([], [], false)
  {
  }

  lemma NotBadYet(msgs: seq<Message>, pieces: seq<seq<Byte>>, i: nat)
    requires Sendable(msgs) && Join(pieces) == EncodeAll(msgs) && i <= |pieces|
    ensures !Feed(pieces[..i]).bad
  {
    JoinSplit(pieces, i);
    DecodeAll(msgs);
    var a, b := Join(pieces[..i]), Join(pieces)[|Join(pieces[..i])|..];
    assert a + b == Join(pieces);
    NeverBadBefore(a, b);
    FeedIsDecode(pieces[..i]);
    hide Decode, Feed;
  }
}
