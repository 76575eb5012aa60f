/** The two functions as they are written: loops over an array of eight words, and a buffer that is filled from the
    left. */
module InetOps {
  import opened Bytes
  import opened Wrappers
  import opened InetText
  import opened Inet

  function WordOf(high: Byte, low: Byte): Word {
    var h: nat := high;
    h * 0x100 + low
  }

  /** s6_addr as eight words in network order. */
  function WordsOf(addr: seq<Byte>): (w: seq<Word>)
    requires |addr| == 16
    ensures Words8(w)
  {
    seq(8, i requires 0 <= i < 8 => WordOf(addr[2 * i], addr[2 * i + 1]))
  }

  function BytesOf(w: seq<Word>): (b: seq<Byte>)
    requires Words8(w)
    ensures |b| == 16
  {
    seq(16, i requires 0 <= i < 16 => if i % 2 == 0 then w[i / 2] / 0x100 else w[i / 2] % 0x100)
  }

  lemma WordParts(high: Byte, low: Byte, w: Word)
    ensures WordOf(high, low) / 0x100 == high && WordOf(high, low) % 0x100 == low
    ensures w / 0x100 < 0x100 && WordOf(w / 0x100, w % 0x100) == w
  {
  }

  lemma WordsAt(addr: seq<Byte>, i: nat)
    requires |addr| == 16 && i < 8
    ensures WordsOf(addr)[i] == WordOf(addr[2 * i], addr[2 * i + 1])
  {
  }

  lemma BytesAt(w: seq<Word>, i: nat)
    requires Words8(w) && i < 8
    ensures BytesOf(w)[2 * i] == w[i] / 0x100 && BytesOf(w)[2 * i + 1] == w[i] % 0x100
  {
  }

  /** Sixteen bytes and eight words say the same. */
  lemma BytesRoundTrip(addr: seq<Byte>)
    requires |addr| == 16
    ensures BytesOf(WordsOf(addr)) == addr
  {
    hide WordOf, WordsOf, BytesOf;
    forall k | 0 <= k < 16 ensures BytesOf(WordsOf(addr))[k] == addr[k] {
      var i := k / 2;
      WordsAt(addr, i);
      BytesAt(WordsOf(addr), i);
      WordParts(addr[2 * i], addr[2 * i + 1], 0);
    }
  }

  lemma WordsRoundTrip(w: seq<Word>)
    requires Words8(w)
    ensures WordsOf(BytesOf(w)) == w
  {
    hide WordOf, WordsOf, BytesOf;
    forall i | 0 <= i < 8 ensures WordsOf(BytesOf(w))[i] == w[i] {
      WordsAt(BytesOf(w), i);
      BytesAt(w, i);
      WordParts(0, 0, w[i]);
    }
  }

  // ----- evutil_inet_ntop

  /** The longest run among the first i words, when no run is under way. */
  ghost predicate LongestBefore(w: seq<Word>, i: nat, pos: int, len: nat) {
    && (len > 0 ==> 0 <= pos && ZeroRun(w, pos, len) && pos + len <= i && !ZeroRun(w, pos, len + 1))
    && forall p: nat, l: nat :: l > 0 && ZeroRun(w, p, l) && p + l <= i ==> l < len || (l == len && pos <= p)
  }

  /** No two zero words stand next to each other. */
  ghost predicate NoPair(w: seq<Word>) { forall p: nat :: !ZeroRun(w, p, 2) }

  /** The first loop: which run of zeros to leave out; -1 if there is none of two words at least. */
  method FindGap(words: array<Word>) returns (pos: int, ghost len: nat)
    requires words.Length == 8
    ensures len >= 2 ==> pos >= 0 && LongestRun(words[..], pos, len)
    ensures len < 2 ==> pos == -1 && NoPair(words[..])
  {
    ghost var w := words[..];
    var longestGapLen, longestGapPos, i := 0, -1, 0;
    while i < 8
      invariant i <= 8 && LongestBefore(w, i, longestGapPos, longestGapLen)
      invariant 0 < i < 8 ==> w[i - 1] != 0 || w[i] != 0
    {
      if words[i] == 0 {
        var curGapPos, curGapLen := i, 1;
        i := i + 1;
        while i < 8 && words[i] == 0
          invariant curGapPos < i <= 8 && curGapLen == i - curGapPos && ZeroRun(w, curGapPos, curGapLen)
        {
          i := i + 1;
          curGapLen := curGapLen + 1;
        }
        RunEnded(w, longestGapPos, longestGapLen, curGapPos, i);
        if curGapLen > longestGapLen {
          longestGapPos := curGapPos;
          longestGapLen := curGapLen;
        }
      } else {
        i := i + 1;
      }
    }
    len := longestGapLen;
    pos := longestGapPos;
    if longestGapLen <= 1 {
      pos := -1;
    }
  }

  /** A run of zeros from cur up to i has ended there. */
  lemma RunEnded(w: seq<Word>, pos: int, len: nat, cur: nat, i: nat)
    requires |w| == 8 && cur < i <= 8 && LongestBefore(w, cur, pos, len) && ZeroRun(w, cur, i - cur)
    requires (cur > 0 ==> w[cur - 1] != 0) && (i < 8 ==> w[i] != 0)
    ensures if i - cur > len then LongestBefore(w, i, cur, i - cur) else LongestBefore(w, i, pos, len)
  {
    forall p: nat, l: nat | l > 0 && ZeroRun(w, p, l) && p + l <= i
      ensures p + l <= cur || (cur <= p && l <= i - cur)
    {
      assert forall k :: p <= k < p + l ==> w[k] == 0;
    }
  }

  /** What has been written when the words before i are done. */
  function Written(w: seq<Word>, pos: int, len: nat, i: nat): string
    requires Words8(w) && i <= 8 && (pos >= 0 ==> pos + len <= 8)
  {
    if pos < 0 || i <= pos then (if i == 8 then Joined(w) else Colons(w[..i]))
    else if i < pos + len then ""
    else
      (if pos == 0 then "::" else Colons(w[..pos]) + ":") + if i == 8 then Joined(w[pos + len..])
        else Colons(w[pos + len..i])
  }

  lemma JoinedLast(w: seq<Word>, k: nat)
    requires Words8(w) && k <= 7
    ensures Joined(w[k..]) == Colons(w[k..7]) + Print(w[7], 16)
  {
    var rest := w[k..];
    assert rest[..|rest| - 1] == w[k..7] && rest[|rest| - 1] == w[7];
  }

  lemma ColonsSnoc(w: seq<Word>, k: nat, i: nat)
    requires Words8(w) && k <= i < 8
    ensures Colons(w[k..i + 1]) == Colons(w[k..i]) + Print(w[i], 16) + ":"
  {
    assert w[k..i + 1] == w[k..i] + [w[i]];
    ColonsConcat(w[k..i], [w[i]]);
    OneColons(w[i]);
  }

  /** One more word. */
  lemma WrittenWord(w: seq<Word>, pos: int, len: nat, i: nat)
    requires Words8(w) && i < 8 && (pos >= 0 ==> len >= 2 && pos + len <= 8) && (i < pos || pos < 0 || pos + len <= i)
    ensures Written(w, pos, len, i + 1) == Written(w, pos, len, i) + Print(w[i], 16) + if i != 7 then ":" else ""
  {
    var k := if pos < 0 || i < pos then 0 else pos + len;
    ColonsSnoc(w, k, i);
    assert w[0..i] == w[..i] && w[0..i + 1] == w[..i + 1] && w[0..] == w;
    if i == 7 {
      JoinedLast(w, k);
    }
    hide Print, Colons, Joined;
  }

  /** The gap itself. */
  lemma WrittenGap(w: seq<Word>, pos: nat, len: nat)
    requires Words8(w) && len >= 2 && pos + len <= 8
    ensures Written(w, pos, len, pos + len) == Written(w, pos, len, pos) + if pos == 0 then "::" else ":"
  {
    assert w[..0] == [] && w[pos + len..pos + len] == [];
    assert Joined([]) == "" && Colons([]) == "";
    if pos + len == 8 {
      assert w[8..] == [];
    }
    hide Print;
  }

  /** The second loop: the words in hexadecimal, and a double colon for the gap. */
  method WriteWords(words: array<Word>, gap: int, ghost len: nat) returns (buf: string)
    requires words.Length == 8
    requires gap >= 0 ==> len >= 2 && ZeroRun(words[..], gap, len) && !ZeroRun(words[..], gap, len + 1)
    ensures gap < 0 ==> buf == Joined(words[..])
    ensures gap >= 0 ==> buf == Written(words[..], gap, len, 8)
  {
    hide Print, Colons, Joined, Written;
    ghost var w := words[..];
    buf := "";
    WrittenStart(w, gap, len);
    var i := 0;
    while i < 8
      invariant i <= 8 && buf == Written(w, gap, len, i)
      invariant gap >= 0 ==> i <= gap || gap + len <= i
    {
      if words[i] == 0 && gap == i {
        buf := buf + if i == 0 then "::" else ":";
        while i < 8 && words[i] == 0
          invariant gap <= i <= gap + len && ZeroRun(w, gap, len)
        {
          i := i + 1;
        }
        WrittenGap(w, gap, len);
      } else {
        WrittenWord(w, gap, len, i);
        buf := buf + Print(words[i], 16);
        if i != 7 {
          buf := buf + ":";
        }
        i := i + 1;
      }
    }
    WrittenEnd(w, gap, len);
  }

  lemma WrittenStart(w: seq<Word>, pos: int, len: nat)
    requires Words8(w) && (pos >= 0 ==> len >= 2 && pos + len <= 8)
    ensures Written(w, pos, len, 0) == ""
  {
  }

  lemma WrittenEnd(w: seq<Word>, pos: int, len: nat)
    requires Words8(w) && (pos >= 0 ==> len >= 2 && pos + len <= 8)
    ensures pos < 0 ==> Written(w, pos, len, 8) == Joined(w)
    ensures pos >= 0 ==>
      Written(w, pos, len, 8) == (if pos == 0 then "::" else Colons(w[..pos]) + ":") + Joined(w[pos + len..])
  {
    if 0 <= pos && pos + len == 8 {
      assert w[8..] == [];
    }
  }

  /** strncpy(dst, buf, len): padded with NUL, and not terminated if it just fits. */
  method CopyText(buf: string, dst: array<char>)
    requires |buf| <= dst.Length
    modifies dst
    ensures dst[..|buf|] == buf && forall i :: |buf| <= i < dst.Length ==> dst[i] == '\0'
  {
    var i := 0;
    while i < dst.Length
      invariant i <= dst.Length
      invariant forall k :: 0 <= k < i ==> dst[k] == if k < |buf| then buf[k] else '\0'
    {
      dst[i] := if i < |buf| then buf[i] else '\0';
      i := i + 1;
    }
  }

  /** evutil_inet_ntop(AF_INET6): the text of the address, with its first longest run of zeros left out. */
  method Ntop6(addr: seq<Byte>, dst: array<char>) returns (ok: bool, ghost pos: nat, ghost len: nat)
    requires |addr| == 16
    modifies dst
    ensures var w := WordsOf(addr); LongestRun(w, pos, len) && |TextWith(w, pos, len)| <= 39
    ensures var text := TextWith(WordsOf(addr), pos, len);
      && (ok <==> |text| <= dst.Length)
      && (ok ==> dst[..|text|] == text && forall i :: |text| <= i < dst.Length ==> dst[i] == '\0')
      && (!ok ==> dst[..] == old(dst[..]))
  {
    hide Print, Colons, Joined, Dotted, LongestRun, Written;
    var words := new Word[8];
    var i := 0;
    while i < 8
      invariant i <= 8 && forall k :: 0 <= k < i ==> words[k] == WordsOf(addr)[k]
      invariant fresh(words) && dst[..] == old(dst[..])
    {
      words[i] := WordOf(addr[2 * i], addr[2 * i + 1]);
      i := i + 1;
    }
    ghost var w := WordsOf(addr);
    assert words[..] == w;
    var gap: int;
    ghost var run: nat;
    gap, run := FindGap(words);
    pos, len := RunOf(w, gap, run);
    TextLength(w, pos, len);
    TextCases(w, pos, len);
    hide TextWith, Compatible, Mapped, Tail4, WordsOf, ZeroRun, WordOf;
    var buf: string;
    if words[0] == 0 && words[1] == 0 && words[2] == 0 && words[3] == 0 && words[4] == 0
       && ((words[5] == 0 && words[6] != 0 && words[7] != 0) || words[5] == 0xffff)
    {
      var quad := Dotted(addr[12], addr[13], addr[14], addr[15]);
      TailBytes(addr);
      assert Tail4(w) == quad;
      if words[5] == 0 {
        buf := "::" + quad;
      } else {
        buf := "::" + Print(words[5], 16) + ":" + quad;
      }
    } else {
      buf := WriteWords(words, gap, run);
      WriteIsText(w, gap, run, pos, len, buf);
    }
    assert buf == TextWith(w, pos, len) && |buf| < 64;
    if |buf| > dst.Length {
      return false, pos, len;
    }
    CopyText(buf, dst);
    ok := true;
  }

  /** The test of the C code for an embedded address, and the text for it. */
  lemma TextCases(w: seq<Word>, pos: nat, len: nat)
    requires Words8(w) && pos + len <= 8
    ensures var zeros := w[0] == 0 && w[1] == 0 && w[2] == 0 && w[3] == 0 && w[4] == 0;
      && (Compatible(w) <==> zeros && w[5] == 0 && w[6] != 0 && w[7] != 0)
      && (Mapped(w) <==> zeros && w[5] == 0xffff)
    ensures Compatible(w) ==> TextWith(w, pos, len) == "::" + Tail4(w)
    ensures Mapped(w) ==> TextWith(w, pos, len) == "::" + Print(0xffff, 16) + ":" + Tail4(w)
  {
    hide Print, Tail4, Joined, Colons;
  }

  lemma TailBytes(addr: seq<Byte>)
    requires |addr| == 16
    ensures Tail4(WordsOf(addr)) == Dotted(addr[12], addr[13], addr[14], addr[15])
  {
    hide Dotted;
  }

  lemma RunOf(w: seq<Word>, gap: int, run: nat) returns (pos: nat, len: nat)
    requires Words8(w)
    requires run >= 2 ==> gap >= 0 && LongestRun(w, gap, run)
    requires run < 2 ==> gap == -1 && NoPair(w)
    ensures LongestRun(w, pos, len) && ZeroRun(w, pos, len) && (run >= 2 ==> pos == gap && len == run) &&
      (run < 2 ==> len <= 1)
  {
    if run >= 2 {
      return gap, run;
    }
    assert forall p: nat, l: nat :: ZeroRun(w, p, l) ==> l <= 1 by {
      forall p: nat, l: nat | ZeroRun(w, p, l) ensures l <= 1 {
        if l >= 2 {
          assert ZeroRun(w, p, 2);
        }
      }
    }
    pos, len := FirstZero(w, 0);
  }

  lemma FirstOfRun(w: seq<Word>, p: nat, l: nat)
    requires ZeroRun(w, p, l)
    ensures l > 0 ==> w[p] == 0
  {
  }

  lemma {:induction false} FirstZero(w: seq<Word>, i: nat) returns (pos: nat, len: nat)
    requires Words8(w) && i <= 8 && (forall k :: 0 <= k < i ==> w[k] != 0) &&
      forall p: nat, l: nat :: ZeroRun(w, p, l) ==> l <= 1
    ensures LongestRun(w, pos, len) && ZeroRun(w, pos, len) && len <= 1
    decreases 8 - i
  {
    if i == 8 {
      forall p: nat, l: nat | ZeroRun(w, p, l) ensures l == 0 {
        FirstOfRun(w, p, l);
      }
      return 0, 0;
    }
    if w[i] == 0 {
      forall p: nat | ZeroRun(w, p, 1) ensures i <= p {
        assert w[p] == 0;
      }
      return i, 1;
    }
    pos, len := FirstZero(w, i + 1);
  }

  lemma WriteIsText(w: seq<Word>, gap: int, run: nat, pos: nat, len: nat, buf: string)
    requires Words8(w) && ZeroRun(w, pos, len) && !Compatible(w) && !Mapped(w)
    requires (run >= 2 ==> gap >= 0 && pos == gap && len == run) && (run < 2 ==> len <= 1 && gap == -1)
    requires gap < 0 ==> buf == Joined(w)
    requires gap >= 0 ==> buf == Written(w, gap, run, 8)
    ensures buf == TextWith(w, pos, len)
  {
    WrittenEnd(w, gap, run);
    hide Print, Colons, Joined, Written, Dotted;
  }

  // ----- evutil_inet_pton

  /** strchr(src, '.') */
  method FindDot(src: string) returns (dot: int)
    ensures FirstDot(src, 0) == if dot < 0 then None else Some(dot as nat)
    ensures dot >= 0 ==> dot < |src|
  {
    var i := 0;
    while i < |src|
      invariant i <= |src| && FirstDot(src, 0) == FirstDot(src, i)
    {
      if src[i] == '.' {
        return i;
      }
      i := i + 1;
    }
    dot := -1;
  }

  /** The backward scan for the beginning of the dotted quad. */
  method FindQuad(src: string, dot: nat) returns (eow: nat)
    requires 0 < dot <= |src|
    ensures eow == RunStart(src, dot) <= dot
  {
    var e := dot - 1;
    while e >= 0 && IsDigit(src[e])
      invariant -1 <= e < dot && RunStart(src, dot) == RunStart(src, e + 1)
    {
      e := e - 1;
    }
    eow := e + 1;
  }

  /** The loop over the words: they go into the array from the left. */
  method ScanWords(src: string, eow: nat, words: array<Word>) returns (ok: bool, n: nat, gapPos: int)
    requires eow <= |src| && words.Length == 8
    modifies words
    ensures ok <==> ParseWords(src, 0, eow, [], None).Some?
    ensures ok ==> n <= 8 && -1 <= gapPos <= n
    ensures ok ==> ParseWords(src, 0, eow, [], None) == Some((words[..n], if gapPos < 0 then None else Some(gapPos)))
    ensures forall k :: n <= k < 8 ==> words[k] == old(words[k])
  {
    hide ScanHex;
    n, gapPos := 0, -1;
    var pos := 0;
    while pos < eow
      invariant n <= 8 && -1 <= gapPos <= n
      invariant ParseWords(src, 0, eow, [], None) ==
        ParseWords(src, pos, eow, words[..n], if gapPos < 0 then None else Some(gapPos))
      invariant forall k :: n <= k < 8 ==> words[k] == old(words[k])
      decreases |src| + 2 - pos
    {
      if n > 7 {
        return false, n, gapPos;
      }
      if IsXDigit(src[pos]) {
        var (r, next) := ScanHex(src, pos);
        if next > pos + 4 || r > 0x1_0000 {
          return false, n, gapPos;
        }
        ghost var before := words[..n];
        words[n] := r % 0x1_0000;
        assert words[..n + 1] == before + [r % 0x1_0000];
        n := n + 1;
        pos := next;
        if At(src, pos) != ':' && pos != eow {
          return false, n, gapPos;
        }
        pos := pos + 1;
      } else if src[pos] == ':' && n > 0 && gapPos == -1 {
        gapPos := n;
        pos := pos + 1;
      } else if src[pos] == ':' && n == 0 && At(src, pos + 1) == ':' && gapPos == -1 {
        gapPos := n;
        pos := pos + 2;
      } else {
        return false, n, gapPos;
      }
    }
    ok := true;
  }

  /** memmove: the words behind the gap go to its other end, from the last to the first. */
  method MoveWords(words: array<Word>, from: nat, to: nat, count: nat)
    requires from <= to && to + count <= words.Length
    modifies words
    ensures words[..] == old(words[..to]) + old(words[from..from + count]) + old(words[to + count..])
  {
    ghost var was := words[..];
    var k := count;
    while k > 0
      invariant 0 <= k <= count
      invariant words[..to + k] == was[..to + k] && words[to + count..] == was[to + count..]
      invariant words[to + k..to + count] == was[from + k..from + count]
    {
      k := k - 1;
      var w := words[from + k];
      assert w == words[..to + k + 1][from + k] == was[from + k];
      words[to + k] := w;
      assert words[to + k..to + count] == [w] + words[to + k + 1..to + count];
      assert was[from + k..from + count] == [w] + was[from + k + 1..from + count];
      assert words[..to + k] == was[..to + k + 1][..to + k];
    }
    assert words[..] == words[..to] + words[to..to + count] + words[to + count..];
  }

  /** memset */
  method ClearWords(words: array<Word>, from: nat, count: nat)
    requires from + count <= words.Length
    modifies words
    ensures words[..] == old(words[..from]) + Zeros(count) + old(words[from + count..])
  {
    var k := 0;
    while k < count
      invariant 0 <= k <= count
      invariant forall i :: 0 <= i < words.Length ==> words[i] == if from <= i < from + k then 0 else old(words[i])
    {
      words[from + k] := 0;
      k := k + 1;
    }
  }

  /** The embedded IPv4 address, if there is a full stop: the last two words. */
  method ScanTail(src: string, words: array<Word>) returns (ok: bool, eow: nat, tailWords: nat)
    requires words.Length == 8
    modifies words
    ensures ok <==> ParseTail(src).Some?
    ensures ok ==>
      eow <= |src| && (tailWords == 0 || tailWords == 2) && ParseTail(src) == Some((eow, words[8 - tailWords..]))
  {
    hide ScanDotted, FirstDot, RunStart;
    var dot := FindDot(src);
    if dot == 0 {
      return false, 0, 0;
    } else if dot < 0 {
      assert words[8..] == [];
      return true, |src|, 0;
    }
    eow := FindQuad(src, dot);
    match ScanDotted(src, eow) {
      case None => return false, eow, 0;
      case Some((a, b, c, d)) =>
        words[6] := WordOf(a, b);
        words[7] := WordOf(c, d);
        assert words[6..] == [WordOf(a, b), WordOf(c, d)];
        TailOf(a, b, c, d);
        return true, eow, 2;
    }
  }

  /** The checks of the number of words, and the gap filled with zeros. */
  method FillGap(words: array<Word>, n: nat, tailWords: nat, gapPos: int) returns (r: int)
    requires words.Length == 8 && n <= 8 && (tailWords == 0 || tailWords == 2) && -1 <= gapPos <= n
    modifies words
    ensures var all := Assemble(old(words[..n]), if gapPos < 0 then None
      else Some(gapPos), old(words[8 - tailWords..]));
      if all.Some? then r == 1 && words[..] == all.value else r == 0
  {
    hide Zeros, Assemble;
    ghost var ws, tail := words[..n], words[8 - tailWords..];
    ghost var gap := if gapPos < 0 then None else Some(gapPos as nat);
    AssembleIs(ws, gap, tail);
    var setWords := n + tailWords;
    if setWords > 8 || (setWords == 8 && gapPos != -1) || (setWords < 8 && gapPos == -1) {
      return 0;
    }
    if gapPos >= 0 {
      var nToMove := setWords - tailWords - gapPos;
      if nToMove < 0 {
        return -1;
      }
      MoveGap(words, gapPos, 8 - setWords, nToMove);
      assert words[..gapPos] == ws[..gapPos];
    } else {
      assert words[..] == ws + tail;
    }
    r := 1;
  }

  lemma AssembleIs(ws: seq<Word>, gap: Option<nat>, tail: seq<Word>)
    requires gap.Some? ==> gap.value <= |ws|
    ensures var n := |ws| + |tail|;
      Assemble(ws, gap, tail) ==
        if n > 8 || (n == 8 && gap.Some?) || (n < 8 && gap.None?) then None
        else if gap.None? then Some(ws + tail)
        else Some(ws[..gap.value] + Zeros(8 - n) + ws[gap.value..] + tail)
  {
  }

  method MoveGap(words: array<Word>, pos: nat, len: nat, count: nat)
    requires pos + len + count <= words.Length
    modifies words
    ensures words[..] ==
      old(words[..pos]) + Zeros(len) + old(words[pos..pos + count]) + old(words[pos + len + count..])
  {
    hide Zeros;
    assert pos + len + count <= words.Length;
    ghost var was := words[..];
    MoveWords(words, pos, pos + len, count);
    ghost var moved := words[..];
    ClearWords(words, pos, len);
    assert moved[..pos] == was[..pos];
    assert moved[pos + len..] == was[pos..pos + count] + was[pos + len + count..];
  }

  method StoreBytes(words: array<Word>, out: array<Byte>)
    requires words.Length == 8 && out.Length == 16
    modifies out
    ensures out[..] == BytesOf(words[..])
  {
    hide BytesOf, WordOf;
    var i := 0;
    while i < 8
      invariant i <= 8 && forall k :: 0 <= k < 2 * i ==> out[k] == BytesOf(words[..])[k]
    {
      BytesAt(words[..], i);
      WordParts(0, 0, words[i]);
      out[2 * i] := words[i] / 0x100;
      out[2 * i + 1] := words[i] % 0x100;
      i := i + 1;
    }
  }

  /** evutil_inet_pton(AF_INET6): 1 and the address, or 0; the result -1 for "should be impossible" does not occur. */
  method Pton6(src: string, out: array<Byte>) returns (r: int)
    requires out.Length == 16
    modifies out
    ensures r == if Parse6(src).Some? then 1 else 0
    ensures if r == 1 then |Parse6(src).value| == 8 && out[..] == BytesOf(Parse6(src).value)
      else out[..] == old(out[..])
    ensures r == 1 ==> WordsOf(out[..]) == Parse6(src).value
  {
    hide ParseWords, ParseTail, BytesOf, WordsOf, Zeros;
    var words := new Word[8];
    var ok, eow, tailWords := ScanTail(src, words);
    if !ok {
      return 0;
    }
    ghost var tail := words[8 - tailWords..];
    var n: nat, gapPos: int;
    ok, n, gapPos := ScanWords(src, eow, words);
    if !ok {
      return 0;
    }
    // words written over the embedded address are too many words
    assert n + tailWords <= 8 ==> words[8 - tailWords..] == tail;
    assert n + tailWords > 8 ==> Parse6(src).None?;
    r := FillGap(words, n, tailWords, gapPos);
    if r == 1 {
      StoreBytes(words, out);
      WordsRoundTrip(Parse6(src).value);
    }
  }

  lemma TailOf(a: Byte, b: Byte, c: Byte, d: Byte)
    ensures [WordOf(a, b), WordOf(c, d)] == [a * 0x100 + b, c * 0x100 + d]
  {
  }

  /** The two functions together: what is printed, up to the terminating NUL, is read back as the same sixteen bytes. */
  method PrintThenParse(addr: seq<Byte>) returns (back: array<Byte>)
    requires |addr| == 16
    ensures back[..] == addr
  {
    hide Print, Colons, Joined, Dotted, LongestRun, BytesOf, TextWith, Parse6;
    var dst := new char[64];
    var ok: bool;
    ghost var pos: nat, len: nat;
    ok, pos, len := Ntop6(addr, dst);
    LongestIsRun(WordsOf(addr), pos, len);
    ghost var text := TextWith(WordsOf(addr), pos, len);
    RoundTrip6(WordsOf(addr), pos, len);
    BytesRoundTrip(addr);
    TextHasNoNul(WordsOf(addr), pos, len);
    forall k | 0 <= k < |text| ensures dst[k] == text[k] {
      assert dst[..|text|][k] == text[k];
    }
    var n := 0;
    while n < 64 && dst[n] != '\0'
      invariant n <= |text| <= 39
    {
      n := n + 1;
    }
    back := new Byte[16];
    var r := Pton6(dst[..n], back);
  }

  lemma LongestIsRun(w: seq<Word>, pos: nat, len: nat)
    requires LongestRun(w, pos, len)
    ensures ZeroRun(w, pos, len)
  {
  }

  predicate NoNul(s: string) { forall i :: 0 <= i < |s| ==> s[i] != '\0' }

  lemma PrintNoNul(n: nat, base: nat)
    requires 2 <= base <= 16
    ensures NoNul(Print(n, base))
  {
    PrintValue(n, base);
    hide Value, Print;
  }

  lemma {:induction false} ColonsNoNul(w: seq<Word>)
    ensures NoNul(Colons(w))
  {
    hide Print;
    if w != [] {
      PrintNoNul(w[0], 16);
      ColonsNoNul(w[1..]);
    }
  }

  lemma JoinedNoNul(w: seq<Word>)
    ensures NoNul(Joined(w))
  {
    hide Print, Colons;
    if w != [] {
      ColonsNoNul(w[..|w| - 1]);
      PrintNoNul(w[|w| - 1], 16);
    }
  }

  lemma DottedNoNul(a: Byte, b: Byte, c: Byte, d: Byte)
    ensures NoNul(Dotted(a, b, c, d))
  {
    hide Print;
    PrintNoNul(a, 10);
    PrintNoNul(b, 10);
    PrintNoNul(c, 10);
    PrintNoNul(d, 10);
  }

  lemma TextHasNoNul(w: seq<Word>, pos: nat, len: nat)
    requires Words8(w) && ZeroRun(w, pos, len)
    ensures NoNul(TextWith(w, pos, len))
  {
    hide Print, Colons, Joined, Dotted;
    DottedNoNul(w[6] / 0x100, w[6] % 0x100, w[7] / 0x100, w[7] % 0x100);
    PrintNoNul(0xffff, 16);
    JoinedNoNul(w);
    JoinedNoNul(w[pos + len..]);
    ColonsNoNul(w[..pos]);
    if pos == 0 {
      JoinedNoNul(w[len..]);
    }
  }
}
