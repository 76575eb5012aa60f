/** The byte buffer: one vector, a reading and a writing position, and some room in front for headers. */
module Buffer {
  import opened Bytes
  import opened Wrappers
  import opened BufferInts

  const PREPENDS: nat := 8
  const INITIAL_SIZE: nat := 1024
  const EXTRA: nat := 65536

  // size_t
  const SIZE_MAX: nat := 0xFFFF_FFFF_FFFF_FFFF

  datatype Space = Enough | Grow | Compact

  /** The decision of ensureSpace, with the subtraction of size_t wrapping around below zero. */
  function SpaceFor(writable: nat, prependable: nat, len: nat): Space {
    if writable >= len then Enough
    else if (writable + prependable + (SIZE_MAX + 1) - PREPENDS) % (SIZE_MAX + 1) < len then Grow
    else Compact
  }

  /** When there is room afterwards, and the bytes have stayed inside the vector. */
  predicate Works(size: nat, readIndex: nat, writeIndex: nat, len: nat)
    requires readIndex <= writeIndex <= size
  {
    match SpaceFor(size - writeIndex, readIndex, len)
    case Enough => true
    case Grow => true
    case Compact => PREPENDS + (writeIndex - readIndex) + len <= size
  }

  /** ensureSpace works exactly when there is room already or the room in front and behind is 8 bytes at least. */
  lemma EnsureSpaceWorks(size: nat, readIndex: nat, writeIndex: nat, len: nat)
    requires readIndex <= writeIndex <= size && size + len + PREPENDS <= SIZE_MAX
    ensures Works(size, readIndex, writeIndex, len) <==>
      size - writeIndex >= len || size - writeIndex + readIndex >= PREPENDS
    ensures size - writeIndex < len && size - writeIndex + readIndex >= PREPENDS ==>
      (SpaceFor(size - writeIndex, readIndex, len).Grow? <==> size - writeIndex + readIndex - PREPENDS < len)
  {
  }

  /** It fails for instance after a header has used the room in front and data has filled the vector. */
  lemma EnsureSpaceFails()
    ensures !Works(1032, 4, 1032, 1)
  {
  }

  predicate MatchesAt(s: seq<Byte>, pattern: seq<Byte>, i: nat) {
    i + |pattern| <= |s| && s[i..i + |pattern|] == pattern
  }

  /** The first place of a pattern in s, or -1. */
  ghost predicate FirstAt(s: seq<Byte>, pattern: seq<Byte>, r: int) {
    && -1 <= r && (r >= 0 ==> MatchesAt(s, pattern, r))
    && forall i: nat :: MatchesAt(s, pattern, i) ==> 0 <= r <= i
  }

  lemma PairAt(s: seq<Byte>, i: nat)
    requires i + 2 <= |s|
    ensures MatchesAt(s, [CR, LF], i) <==> s[i] == CR && s[i + 1] == LF
  {
    assert s[i..i + 2] == [s[i], s[i + 1]];
  }

  const CR: Byte := 13
  const LF: Byte := 10

  class Buffer {
    var buffer: array<Byte>
    var readIndex: nat
    var writeIndex: nat

    ghost predicate Valid()
      reads this
    {
      readIndex <= writeIndex <= buffer.Length && PREPENDS <= buffer.Length
    }

    /** The readable bytes. */
    ghost function Contents(): seq<Byte>
      requires Valid()
      reads this, buffer
    {
      buffer[readIndex..writeIndex]
    }

    constructor (initSize: nat)
      ensures Valid() && fresh(buffer) && buffer.Length == PREPENDS + initSize && readIndex == PREPENDS &&
        Contents() == []
    {
      buffer := new Byte[PREPENDS + initSize](_ => 0);
      readIndex, writeIndex := PREPENDS, PREPENDS;
    }

    function ReadableBytes(): nat
      requires Valid()
      reads this
    {
      writeIndex - readIndex
    }

    function WritableBytes(): nat
      requires Valid()
      reads this
    {
      buffer.Length - writeIndex
    }

    /** What makes room for len more bytes possible. Without it the bytes would be moved to a place that ends outside
        the vector, or the vector would be too large for a size_t. */
    predicate Room(len: nat)
      requires Valid()
      reads this
    {
      || WritableBytes() >= len
      || (WritableBytes() + readIndex >= PREPENDS && buffer.Length + len + PREPENDS <= SIZE_MAX)
    }

    /** std::copy to a place further left in the same vector */
    method CopyDown(from: nat, to: nat, len: nat)
      requires to <= from && from + len <= buffer.Length
      modifies buffer
      ensures buffer[to..to + len] == old(buffer[from..from + len])
    {
      ghost var was := buffer[..];
      var k := 0;
      while k < len
        invariant k <= len
        invariant buffer[to..to + k] == was[from..from + k] && buffer[from + k..] == was[from + k..]
      {
        var b := buffer[from + k];
        assert b == buffer[from + k..][0] == was[from + k];
        assert buffer[from + k + 1..] == buffer[from + k..][1..];
        ghost var tail := buffer[from + k + 1..];
        ghost var done := buffer[to..to + k];
        buffer[to + k] := b;
        assert buffer[to..to + k + 1] == done + [b];
        assert buffer[from + k + 1..] == tail;
        k := k + 1;
      }
    }

    /** Growth and compaction keep the readable bytes; `ok` says that there was room, and otherwise the model stops
        here, before anything is moved. */
    method EnsureSpace(len: nat) returns (ok: bool)
      requires Valid()
      modifies this, buffer
      ensures Valid() && Contents() == old(Contents()) && (ok <==> old(Room(len)))
      ensures !ok ==> unchanged(this) && unchanged(old(buffer))
      ensures ok ==> WritableBytes() >= len
      ensures buffer == old(buffer) || fresh(buffer)
      ensures old(readIndex) >= PREPENDS ==> readIndex >= PREPENDS
      ensures ok ==> buffer.Length == old(Needed(len))
      ensures old(WritableBytes()) >= len ==>
        buffer == old(buffer) && readIndex == old(readIndex) && writeIndex == old(writeIndex)
      ensures old(readIndex) == PREPENDS ==> readIndex == PREPENDS
    {
      if WritableBytes() >= len {
        return true;
      }
      if !Room(len) {
        return false;
      }
      ok := true;
      EnsureSpaceWorks(buffer.Length, readIndex, writeIndex, len);
      if SpaceFor(WritableBytes(), readIndex, len).Grow? {
        var old_ := buffer;
        var bigger := new Byte[writeIndex + len](i requires 0 <= i
          reads old_ => if i < old_.Length then old_[i] else 0);
        assert bigger[readIndex..writeIndex] == buffer[readIndex..writeIndex];
        buffer := bigger;
      } else {
        var readable := ReadableBytes();
        CopyDown(readIndex, PREPENDS, readable);
        readIndex := PREPENDS;
        writeIndex := PREPENDS + readable;
      }
      assert WritableBytes() >= len;
    }

    /** The size of the vector once there is room. */
    function Needed(len: nat): nat
      requires Valid()
      reads this
    {
      if WritableBytes() >= len || WritableBytes() + readIndex >= PREPENDS + len then buffer.Length
      else writeIndex + len
    }

    method Append(data: seq<Byte>) returns (ok: bool)
      requires Valid()
      modifies this, buffer
      ensures Valid() && (ok <==> old(Room(|data|))) && (!ok ==> unchanged(this) && unchanged(old(buffer)))
      ensures Contents() == if ok then old(Contents()) + data else old(Contents())
      ensures buffer == old(buffer) || fresh(buffer)
      ensures old(readIndex) >= PREPENDS ==> readIndex >= PREPENDS
      ensures ok ==> buffer.Length == old(Needed(|data|)) <= old(buffer.Length) + |data|
      ensures old(WritableBytes()) >= |data| ==> buffer == old(buffer)
      ensures old(readIndex) == PREPENDS ==> readIndex == PREPENDS
    {
      ok := EnsureSpace(|data|);
      if !ok {
        return;
      }
      CopyIn(writeIndex, data);
      writeIndex := writeIndex + |data|;
    }

    /** std::copy from outside */
    method CopyIn(at: nat, data: seq<Byte>)
      requires at + |data| <= buffer.Length
      modifies buffer
      ensures buffer[..] == old(buffer[..at]) + data + old(buffer[at + |data|..])
    {
      ghost var was := buffer[..];
      var k := 0;
      while k < |data|
        invariant k <= |data|
        invariant buffer[..at + k] == was[..at] + data[..k] && buffer[at + k..] == was[at + k..]
      {
        ghost var tail := buffer[at + k..][1..];
        ghost var done := buffer[..at + k];
        buffer[at + k] := data[k];
        assert buffer[..at + k + 1] == done + [data[k]];
        assert buffer[at + k + 1..] == tail;
        k := k + 1;
      }
      assert buffer[..] == buffer[..at + k] + buffer[at + k..];
      assert data[..k] == data;
    }

    /** As much of the data as there is room in front. */
    method Prepend(data: seq<Byte>)
      requires Valid()
      modifies this, buffer
      ensures Valid() && buffer == old(buffer) && writeIndex == old(writeIndex)
      ensures var n := if |data| > old(readIndex) then old(readIndex) else |data|;
        readIndex == old(readIndex) - n && Contents() == data[..n] + old(Contents())
    {
      var len := if |data| > readIndex then readIndex else |data|;
      ghost var was, before := buffer[..], Contents();
      readIndex := readIndex - len;
      CopyIn(readIndex, data[..len]);
      assert buffer[readIndex..writeIndex] == buffer[..][readIndex..writeIndex];
      assert was[readIndex + len..writeIndex] == before;
    }

    method RetrieveAll()
      requires Valid()
      modifies this
      ensures Valid() && buffer == old(buffer) && Contents() == [] && readIndex == PREPENDS
    {
      readIndex := PREPENDS;
      writeIndex := PREPENDS;
    }

    method Retrieve(len: nat)
      requires Valid()
      modifies this
      ensures Valid() && buffer == old(buffer)
      ensures Contents() == if len <= |old(Contents())| then old(Contents())[len..] else []
      ensures old(readIndex) >= PREPENDS ==> readIndex >= PREPENDS
    {
      if len < ReadableBytes() {
        readIndex := readIndex + len;
      } else {
        RetrieveAll();
      }
    }

    method Advance(len: nat)
      requires Valid()
      modifies this`writeIndex
      ensures Valid() && writeIndex == if len < old(WritableBytes()) then old(writeIndex) + len else buffer.Length
      ensures old(Contents()) <= Contents()
    {
      if len < WritableBytes() {
        writeIndex := writeIndex + len;
      } else {
        writeIndex := buffer.Length;
      }
    }

    method Swap(buf: Buffer)
      requires Valid() && buf.Valid()
      modifies this, buf
      ensures Valid() && buf.Valid()
      ensures buffer == old(buf.buffer) && buf.buffer == old(buffer) && readIndex == old(buf.readIndex)
      ensures Contents() == old(buf.Contents()) && buf.Contents() == old(Contents())
    {
      buffer, buf.buffer := buf.buffer, buffer;
      readIndex, buf.readIndex := buf.readIndex, readIndex;
      writeIndex, buf.writeIndex := buf.writeIndex, writeIndex;
    }

    /** The bytes move to a vector of their own size, but not below the initial one. */
    method ShrinkToFit()
      requires Valid() && buffer.Length <= SIZE_MAX - 2048
      modifies this
      ensures Valid() && fresh(buffer) && Contents() == old(Contents())
      ensures readIndex == PREPENDS
      ensures |Contents()| <= INITIAL_SIZE ==> buffer.Length == PREPENDS + INITIAL_SIZE
      ensures |Contents()| > INITIAL_SIZE ==> WritableBytes() == 0
    {
      var buf := new Buffer(INITIAL_SIZE);
      var ok := buf.EnsureSpace(ReadableBytes());
      ok := buf.Append(buffer[readIndex..writeIndex]);
      Swap(buf);
    }

    /** readv into the vector and 64 kilobytes on the stack; `got` is what the socket had, None an error or its end.
        What does not fit into the vector is appended. */
    method ReadFd(got: Option<seq<Byte>>) returns (n: int, ok: bool)
      requires Valid()
      requires got.Some? ==> 0 < |got.value| <= WritableBytes() + (if WritableBytes() < EXTRA then EXTRA else 0)
      modifies this, buffer
      ensures Valid() && (buffer == old(buffer) || fresh(buffer))
      ensures got.None? ==> ok && n <= 0 && Contents() == old(Contents())
      ensures got.Some? ==> n == |got.value| && (ok ==> Contents() == old(Contents()) + got.value)
      ensures got.Some? ==>
        var w := old(WritableBytes());
        ok <==> n <= w || (old(readIndex) >= PREPENDS && old(buffer.Length) + (n - w) + PREPENDS <= SIZE_MAX)
      ensures old(readIndex) >= PREPENDS ==> readIndex >= PREPENDS
      ensures got.Some? ==> buffer.Length <= old(buffer.Length) + |got.value|
    {
      ok := true;
      match got {
        case None => n := -1;
        case Some(data) =>
          n := |data|;
          var writable := WritableBytes();
          if n <= writable {
            Fill(data);
          } else {
            ghost var before := Contents();
            Fill(data[..writable]);
            assert Contents() == before + data[..writable];
            ok := Append(data[writable..]);
            assert data[..writable] + data[writable..] == data;
          }
      }
    }

    /** The kernel writes behind writePos(), and writeIndex follows. */
    method Fill(data: seq<Byte>)
      requires Valid() && |data| <= WritableBytes()
      modifies this`writeIndex, buffer
      ensures Valid() && Contents() == old(Contents()) + data && writeIndex == old(writeIndex) + |data|
    {
      ghost var before := Contents();
      CopyIn(writeIndex, data);
      writeIndex := writeIndex + |data|;
      assert buffer[..][readIndex..writeIndex] == before + data;
    }

    /** What the socket takes, a prefix of the readable bytes, is retrieved; n <= 0 is an error. */
    method WriteFd(n: int) returns (r: int)
      requires Valid() && n <= ReadableBytes()
      modifies this
      ensures Valid() && buffer == old(buffer) && r == n && Contents() ==
        if n > 0 then old(Contents())[n..] else old(Contents())
    {
      r := n;
      if n > 0 {
        Retrieve(n);
      }
    }

    /** readAsString: at most len bytes. */
    method ReadAsString(len: nat) returns (s: seq<Byte>)
      requires Valid()
      modifies this
      ensures Valid() && buffer == old(buffer) && s + Contents() == old(Contents())
      ensures |s| == if len > |old(Contents())| then |old(Contents())| else len
    {
      if len > ReadableBytes() {
        s := buffer[readIndex..writeIndex];
        RetrieveAll();
      } else {
        s := buffer[readIndex..readIndex + len];
        Retrieve(len);
      }
    }

    /** peek() as the beginning of a string of len bytes */
    method Peek(len: nat) returns (s: seq<Byte>)
      requires Valid() && len <= ReadableBytes()
      ensures s == Contents()[..len]
    {
      s := buffer[readIndex..readIndex + len];
    }

    /** memchr for LF in the readable bytes, from `start` on; the result counts from readIndex. */
    method FindEOL(start: nat) returns (r: int)
      requires Valid() && start <= ReadableBytes()
      ensures r < 0 ==> forall i :: start <= i < |Contents()| ==> Contents()[i] != LF
      ensures r >= 0 ==> start <= r < |Contents()| && Contents()[r] == LF && forall i :: start <= i < r ==>
        Contents()[i] != LF
    {
      var i := start;
      while i < ReadableBytes()
        invariant start <= i <= |Contents()| && forall k :: start <= k < i ==> Contents()[k] != LF
      {
        if buffer[readIndex + i] == LF {
          return i;
        }
        i := i + 1;
      }
      r := -1;
    }

    /** findCRLF: the first CR LF among the readable bytes. */
    method FindCRLF() returns (r: int)
      requires Valid()
      ensures FirstAt(Contents(), [CR, LF], r)
    {
      ghost var s := Contents();
      var i := 0;
      while i + 1 < ReadableBytes()
        invariant 0 <= i <= |s| && s == Contents() && forall k: nat :: MatchesAt(s, [CR, LF], k) ==> i <= k
      {
        PairAt(s, i);
        if buffer[readIndex + i] == CR && buffer[readIndex + i + 1] == LF {
          return i;
        }
        i := i + 1;
      }
      r := -1;
    }

    // ----- Integers of k bytes

    /** The k bytes at the reading position, as far as the vector goes; they are the readable ones only if there are
        enough of those. */
    method PeekInt(k: nat) returns (n: int)
      requires Valid() && readIndex + k <= buffer.Length
      ensures n == FromNet(buffer[readIndex..readIndex + k]) && Fits(n, k)
      ensures k <= ReadableBytes() ==> n == FromNet(Contents()[..k])
    {
      NetRoundTrip(0, 0, buffer[readIndex..readIndex + k]);
      assert k <= ReadableBytes() ==> buffer[readIndex..readIndex + k] == Contents()[..k];
      n := FromNet(buffer[readIndex..readIndex + k]);
    }

    method ReadInt(k: nat) returns (n: int)
      requires Valid() && readIndex + k <= buffer.Length
      modifies this
      ensures Valid() && buffer == old(buffer) && Fits(n, k)
      ensures k <= old(ReadableBytes()) ==> ToNet(n, k) + Contents() == old(Contents())
      ensures k > old(ReadableBytes()) ==> ToNet(n, k) == old(buffer[readIndex..readIndex + k]) && Contents() == []
    {
      NetRoundTrip(0, 0, buffer[readIndex..readIndex + k]);
      n := PeekInt(k);
      Retrieve(k);
    }

    method AppendInt(n: int, k: nat) returns (ok: bool)
      requires Valid() && Fits(n, k)
      modifies this, buffer
      ensures Valid() && (ok <==> old(Room(k))) && (buffer == old(buffer) || fresh(buffer))
      ensures Contents() == if ok then old(Contents()) + ToNet(n, k) else old(Contents())
    {
      ok := Append(ToNet(n, k));
    }

    /** Without room for all k bytes in front, the first ones are kept, and the number is another one. */
    method PrependInt(n: int, k: nat)
      requires Valid() && Fits(n, k)
      modifies this, buffer
      ensures Valid() && buffer == old(buffer) && writeIndex == old(writeIndex)
      ensures var m := if k > old(readIndex) then old(readIndex) else k;
        readIndex == old(readIndex) - m && Contents() == ToNet(n, k)[..m] + old(Contents())
    {
      Prepend(ToNet(n, k));
    }
  }
}
