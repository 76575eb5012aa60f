/** Printing and parsing internet addresses: evutil_inet_ntop and evutil_inet_pton. */
module Inet {
  import opened Bytes
  import opened Wrappers
  import opened InetText

  type Word = w: nat | w < 0x1_0000

  // ----- Dotted quads

  function Dotted(a: Byte, b: Byte, c: Byte, d: Byte): string {
    Print(a, 10) + "." + Print(b, 10) + "." + Print(c, 10) + "." + Print(d, 10)
  }

  /** One number of scanf("%u.%u.%u.%u%c"), and the full stop after it. */
  function ScanPart(s: string, i: nat): (r: Option<(nat, nat)>)
    requires i <= |s|
    ensures r.Some? ==> i < r.value.1 <= |s|
  {
    match ScanUnsigned(s, i)
    case None => None
    case Some((n, e)) => if At(s, e) == '.' && e < |s| then Some((n, e + 1)) else None
  }

  /** The whole of it: four numbers up to 255, and nothing after them. */
  function ScanDotted(s: string, i: nat): Option<(Byte, Byte, Byte, Byte)>
    requires i <= |s|
  {
    match ScanPart(s, i)
    case None => None
    case Some((a, j)) =>
      match ScanPart(s, j)
      case None => None
      case Some((b, k)) =>
        match ScanPart(s, k)
        case None => None
        case Some((c, l)) =>
          match ScanUnsigned(s, l)
          case None => None
          case Some((d, e)) =>
            if e == |s| && a <= 255 && b <= 255 && c <= 255 && d <= 255 then Some((a, b, c, d)) else None
  }

  lemma ScanPrintedPart(s: string, i: nat, n: Byte)
    requires i + |Print(n, 10)| < |s| && s[i..i + |Print(n, 10)|] == Print(n, 10) && s[i + |Print(n, 10)|] == '.'
    ensures ScanPart(s, i) == Some((n, i + |Print(n, 10)| + 1))
  {
    ScanPrintedUnsigned(s, i, n);
    hide ScanUnsigned;
  }

  /** Scanning a printed quad at the end of a string gives its four bytes back. */
  lemma DottedRoundTrip(s: string, i: nat, a: Byte, b: Byte, c: Byte, d: Byte)
    requires i <= |s| && s[i..] == Dotted(a, b, c, d)
    ensures ScanDotted(s, i) == Some((a, b, c, d))
  {
    hide ScanPart, ScanUnsigned, Print;
    var j := i + |Print(a, 10)| + 1;
    var k := j + |Print(b, 10)| + 1;
    var l := k + |Print(c, 10)| + 1;
    DottedParts(s, i, Print(a, 10), Print(b, 10), Print(c, 10), Print(d, 10));
    hide Dotted;
    ScanPrintedPart(s, i, a);
    ScanPrintedPart(s, j, b);
    ScanPrintedPart(s, k, c);
    ScanPrintedUnsigned(s, l, d);
  }

  lemma DottedParts(s: string, i: nat, a: string, b: string, c: string, d: string)
    requires i <= |s| && s[i..] == a + "." + b + "." + c + "." + d
    ensures var j := i + |a| + 1; var k := j + |b| + 1; var l := k + |c| + 1;
      && s[i..i + |a|] == a && s[i + |a|] == '.' && s[j..j + |b|] == b && s[j + |b|] == '.'
      && s[k..k + |c|] == c && s[k + |c|] == '.' && s[l..l + |d|] == d && l + |d| == |s|
  {
    assert s == s[..i] + (a + "." + b + "." + c + "." + d);
  }

  // ----- IPv4

  /** inet_pton(AF_INET): the address as a number, or None. */
  function Parse4(src: string): Option<nat> {
    match ScanDotted(src, 0)
    case None => None
    case Some((a, b, c, d)) => Some(a * 0x100_0000 + b * 0x1_0000 + c * 0x100 + d)
  }

  /** inet_ntop(AF_INET) */
  function Text4(addr: nat): string
    requires addr < 0x1_0000_0000
  {
    Dotted(addr / 0x100_0000, addr / 0x1_0000 % 0x100, addr / 0x100 % 0x100, addr % 0x100)
  }

  /** Printing and then parsing is the identity on all IPv4 addresses, and no text is longer than 15 characters. */
  lemma RoundTrip4(addr: nat)
    requires addr < 0x1_0000_0000
    ensures Parse4(Text4(addr)) == Some(addr) && |Text4(addr)| <= 15
  {
    hide ScanDotted, Dotted;
    var a, b, c, d := addr / 0x100_0000, addr / 0x1_0000 % 0x100, addr / 0x100 % 0x100, addr % 0x100;
    assert Text4(addr)[0..] == Text4(addr);
    DottedRoundTrip(Text4(addr), 0, a, b, c, d);
    DottedLength(a, b, c, d);
    Bytes4(addr);
  }

  lemma Bytes4(addr: nat)
    requires addr < 0x1_0000_0000
    ensures addr / 0x100_0000 * 0x100_0000 + addr / 0x1_0000 % 0x100 * 0x1_0000 + addr / 0x100 % 0x100 * 0x100 +
      addr % 0x100 == addr
  {
  }

  lemma DottedLength(a: Byte, b: Byte, c: Byte, d: Byte)
    ensures |Dotted(a, b, c, d)| <= 15
  {
    DecLength(a);
    DecLength(b);
    DecLength(c);
    DecLength(d);
    hide Print;
  }

  // ----- IPv6: the text of eight words

  predicate Words8(w: seq<Word>) { |w| == 8 }

  /** Each word, and a colon after it. */
  function Colons(w: seq<Word>): string {
    if w == [] then "" else Print(w[0], 16) + ":" + Colons(w[1..])
  }

  /** Words with colons between them. */
  function Joined(w: seq<Word>): string {
    if w == [] then "" else Colons(w[..|w| - 1]) + Print(w[|w| - 1], 16)
  }

  predicate ZeroRun(w: seq<Word>, pos: nat, len: nat) {
    pos + len <= |w| && forall i :: pos <= i < pos + len ==> w[i] == 0
  }

  /** The first of the longest runs of zero words. */
  ghost predicate LongestRun(w: seq<Word>, pos: nat, len: nat) {
    && ZeroRun(w, pos, len) && (len > 0 ==> !ZeroRun(w, pos, len + 1))
    && forall p: nat, l: nat :: ZeroRun(w, p, l) ==> l < len || (l == len && (l == 0 || pos <= p))
  }

  /** The forms with an embedded IPv4 address: compatible, and mapped. */
  predicate Compatible(w: seq<Word>)
    requires Words8(w)
  {
    ZeroRun(w, 0, 6) && w[6] != 0 && w[7] != 0
  }

  predicate Mapped(w: seq<Word>)
    requires Words8(w)
  {
    ZeroRun(w, 0, 5) && w[5] == 0xffff
  }

  function Tail4(w: seq<Word>): string
    requires Words8(w)
  {
    Dotted(w[6] / 0x100, w[6] % 0x100, w[7] / 0x100, w[7] % 0x100)
  }

  /** The text, given the run of zeros that is left out. */
  function TextWith(w: seq<Word>, pos: nat, len: nat): string
    requires Words8(w) && pos + len <= 8
  {
    if Compatible(w) then "::" + Tail4(w)
    else if Mapped(w) then "::" + Print(0xffff, 16) + ":" + Tail4(w)
    else if len <= 1 then Joined(w)
    else if pos == 0 then "::" + Joined(w[len..])
    else Colons(w[..pos]) + ":" + Joined(w[pos + len..])
  }

  // ----- IPv6: parsing

  function FirstDot(s: string, i: nat): (r: Option<nat>)
    requires i <= |s|
    ensures match r
      case Some(d) => i <= d < |s| && s[d] == '.' && forall k :: i <= k < d ==> s[k] != '.'
      case None => forall k :: i <= k < |s| ==> s[k] != '.'
    decreases |s| - i
  {
    if i == |s| then None else if s[i] == '.' then Some(i) else FirstDot(s, i + 1)
  }

  /** Where the digits in front of position i begin. */
  function RunStart(s: string, i: nat): (e: nat)
    requires i <= |s|
    ensures e <= i && (forall k :: e <= k < i ==> IsDigit(s[k])) && (e > 0 ==> !IsDigit(s[e - 1]))
  {
    if i > 0 && IsDigit(s[i - 1]) then RunStart(s, i - 1) else i
  }

  /** The words up to eow, in the order in which they are written, and how many of them came before the double colon. */
  function ParseWords(s: string, pos: nat, eow: nat, ws: seq<Word>, gap: Option<nat>): Option<(seq<Word>, Option<nat>)>
    requires eow <= |s|
    decreases |s| + 2 - pos
  {
    if pos >= eow then Some((ws, gap))
    else if |ws| > 7 then None
    else if IsXDigit(s[pos]) then
      var (r, next) := ScanHex(s, pos);
      if next > pos + 4 || r > 0x1_0000 || (At(s, next) != ':' && next != eow) then None
      else ParseWords(s, next + 1, eow, ws + [r % 0x1_0000], gap)
    else if s[pos] == ':' && |ws| > 0 && gap.None? then ParseWords(s, pos + 1, eow, ws, Some(|ws|))
    else if s[pos] == ':' && |ws| == 0 && At(s, pos + 1) == ':' &&
      gap.None? then ParseWords(s, pos + 2, eow, ws, Some(0))
    else None
  }

  function Zeros(n: nat): (r: seq<Word>)
    ensures |r| == n && forall i :: 0 <= i < n ==> r[i] == 0
  {
    seq(n, _ => 0)
  }

  /** Eight words, or as many zeros in the gap as are missing. */
  function Assemble(ws: seq<Word>, gap: Option<nat>, tail: seq<Word>): Option<seq<Word>> {
    var n := |ws| + |tail|;
    if n > 8 || (n == 8 && gap.Some?) || (n < 8 && gap.None?) then None
    else
      match gap
      case None => Some(ws + tail)
      case Some(g) => if g > |ws| then None else Some(ws[..g] + Zeros(8 - n) + ws[g..] + tail)
  }

  /** The embedded IPv4 address, if there is a full stop, and where the words before it end. */
  function ParseTail(s: string): Option<(nat, seq<Word>)> {
    match FirstDot(s, 0)
    case None => Some((|s|, []))
    case Some(0) => None
    case Some(dot) =>
      var eow := RunStart(s, dot);
      match ScanDotted(s, eow)
      case None => None
      case Some((a, b, c, d)) => Some((eow, [a * 0x100 + b, c * 0x100 + d]))
  }

  /** inet_pton(AF_INET6) */
  function Parse6(s: string): Option<seq<Word>> {
    match ParseTail(s)
    case None => None
    case Some((eow, tail)) =>
      if eow > |s| then None
      else
        match ParseWords(s, 0, eow, [], None)
        case None => None
        case Some((ws, gap)) => Assemble(ws, gap, tail)
  }

  // ----- Reading back what was written

  lemma {:induction false} ColonsConcat(a: seq<Word>, b: seq<Word>)
    ensures Colons(a + b) == Colons(a) + Colons(b)
  {
    if a == [] {
      assert a + b == b;
    } else {
      assert (a + b)[1..] == a[1..] + b;
      ColonsConcat(a[1..], b);
    }
  }

  /** One word of the text, followed by a colon or by the end of the words. */
  lemma ParseOne(s: string, pos: nat, eow: nat, ws: seq<Word>, gap: Option<nat>, w: Word)
    requires pos + |Print(w, 16)| <= eow <= |s| && s[pos..pos + |Print(w, 16)|] == Print(w, 16) && |ws| < 8
    requires var next := pos + |Print(w, 16)|;
      At(s, next) == ':' || (next == eow && (At(s, next) == '\0' || At(s, next) == '.'))
    ensures ParseWords(s, pos, eow, ws, gap) == ParseWords(s, pos + |Print(w, 16)| + 1, eow, ws + [w], gap)
  {
    hide Print, ScanHex, Value, Digits;
    HexLength(w);
    assert !IsXDigit(At(s, pos + |Print(w, 16)|));
    ScanPrintedHex(s, pos, w);
    hide IsXDigit, At;
  }

  /** Words that are each followed by a colon. */
  lemma {:induction false} ParseColons(s: string, pos: nat, eow: nat, ws: seq<Word>, gap: Option<nat>, more: seq<Word>)
    requires pos + |Colons(more)| <= eow <= |s| && s[pos..pos + |Colons(more)|] == Colons(more) && |ws| + |more| <= 8
    ensures ParseWords(s, pos, eow, ws, gap) == ParseWords(s, pos + |Colons(more)|, eow, ws + more, gap)
    decreases |more|
  {
    hide Print, ParseWords;
    if more == [] {
      assert ws + more == ws;
    } else {
      var p := Print(more[0], 16);
      var next := pos + |p| + 1;
      var all := Colons(more);
      assert s[pos..pos + |all|][..|p|] == p && s[pos + |p|] == s[pos..pos + |all|][|p|] == ':';
      assert s[pos..pos + |p|] == p;
      ParseOne(s, pos, eow, ws, gap, more[0]);
      assert s[next..next + |Colons(more[1..])|] == s[pos..pos + |all|][|p| + 1..];
      ParseColons(s, next, eow, ws + [more[0]], gap, more[1..]);
      assert ws + [more[0]] + more[1..] == ws + more;
    }
  }

  /** Words with colons between them, up to the end of the words. */
  lemma ParseJoined(s: string, pos: nat, eow: nat, ws: seq<Word>, gap: Option<nat>, more: seq<Word>)
    requires pos + |Joined(more)| == eow == |s| && s[pos..] == Joined(more) && |ws| + |more| <= 8
    ensures ParseWords(s, pos, eow, ws, gap) == Some((ws + more, gap))
  {
    hide Print, Colons, ParseWords;
    ParseEnd(s, eow, eow, ws + more, gap);
    ParseEnd(s, eow + 1, eow, ws + more, gap);
    if more == [] {
      assert ws + more == ws;
    } else {
      var init, last := more[..|more| - 1], more[|more| - 1];
      var mid := pos + |Colons(init)|;
      assert s[pos..mid] == s[pos..][..|Colons(init)|] == Colons(init);
      assert s[mid..eow] == s[pos..][|Colons(init)|..] == Print(last, 16);
      ParseColons(s, pos, eow, ws, gap, init);
      ParseOne(s, mid, eow, ws + init, gap, last);
      assert ws + init + [last] == ws + more;
    }
  }

  lemma ParseEnd(s: string, pos: nat, eow: nat, ws: seq<Word>, gap: Option<nat>)
    requires eow <= pos && eow <= |s|
    ensures ParseWords(s, pos, eow, ws, gap) == Some((ws, gap))
  {
  }

  predicate NoDot(s: string) { forall i :: 0 <= i < |s| ==> s[i] != '.' }

  lemma PrintNoDot(n: nat)
    ensures NoDot(Print(n, 16))
  {
    PrintValue(n, 16);
    hide Value, Print;
  }

  lemma {:induction false} ColonsNoDot(w: seq<Word>)
    ensures NoDot(Colons(w))
  {
    hide Print;
    if w != [] {
      PrintNoDot(w[0]);
      ColonsNoDot(w[1..]);
    }
  }

  lemma JoinedNoDot(w: seq<Word>)
    ensures NoDot(Joined(w))
  {
    hide Print, Colons;
    if w != [] {
      ColonsNoDot(w[..|w| - 1]);
      PrintNoDot(w[|w| - 1]);
    }
  }

  /** Text without a full stop is words only. */
  lemma NoTail(s: string)
    requires NoDot(s)
    ensures ParseTail(s) == Some((|s| as nat, []))
  {
  }

  lemma PlainRoundTrip(w: seq<Word>)
    requires Words8(w)
    ensures Parse6(Joined(w)) == Some(w)
  {
    hide Joined, ParseWords, ParseTail;
    var t := Joined(w);
    JoinedNoDot(w);
    NoTail(t);
    assert t[0..] == t;
    ParseJoined(t, 0, |t|, [], None, w);
    assert [] + w == w && w + [] == w;
  }

  /** A double colon at the beginning. */
  lemma ParseFirstGap(s: string, eow: nat)
    requires 2 <= eow <= |s| && s[0] == ':' && s[1] == ':'
    ensures ParseWords(s, 0, eow, [], None) == ParseWords(s, 2, eow, [], Some(0))
  {
  }

  lemma FrontGapRoundTrip(w: seq<Word>, len: nat)
    requires Words8(w) && ZeroRun(w, 0, len) && len > 0
    ensures Parse6("::" + Joined(w[len..])) == Some(w)
  {
    hide Joined, ParseWords, ParseTail;
    var t := "::" + Joined(w[len..]);
    JoinedNoDot(w[len..]);
    NoTail(t);
    assert t[2..] == Joined(w[len..]);
    ParseFirstGap(t, |t|);
    ParseJoined(t, 2, |t|, [], Some(0), w[len..]);
    var ws := w[len..];
    assert [] + ws == ws;
    assert ws[..0] + Zeros(len) + ws[0..] + [] == w;
  }

  /** A second colon after some words. */
  lemma ParseMiddleGap(s: string, pos: nat, eow: nat, ws: seq<Word>)
    requires pos < eow <= |s| && s[pos] == ':' && 0 < |ws| <= 7
    ensures ParseWords(s, pos, eow, ws, None) == ParseWords(s, pos + 1, eow, ws, Some(|ws|))
  {
  }

  lemma MiddleGapRoundTrip(w: seq<Word>, pos: nat, len: nat)
    requires Words8(w) && ZeroRun(w, pos, len) && len > 0 && pos > 0
    ensures Parse6(Colons(w[..pos]) + ":" + Joined(w[pos + len..])) == Some(w)
  {
    hide Joined, Colons, ParseWords, ParseTail;
    var before, after := w[..pos], w[pos + len..];
    var t := Colons(before) + ":" + Joined(after);
    ColonsNoDot(before);
    JoinedNoDot(after);
    NoTail(t);
    var p := |Colons(before)|;
    assert t[0..0 + p] == Colons(before) && t[p] == ':' && t[p + 1..] == Joined(after);
    ParseColons(t, 0, |t|, [], None, before);
    assert [] + before == before;
    ParseMiddleGap(t, p, |t|, before);
    ParseJoined(t, p + 1, |t|, before, Some(pos), after);
    var ws := before + after;
    assert ws[..pos] + Zeros(len) + ws[pos..] + [] == w;
  }

  // ----- Embedded addresses

  lemma {:induction false} RunStartIs(s: string, i: nat, e: nat)
    requires e <= i <= |s| && (forall k :: e <= k < i ==> IsDigit(s[k])) && (e > 0 ==> !IsDigit(s[e - 1]))
    ensures RunStart(s, i) == e
    decreases i
  {
    if i > e {
      RunStartIs(s, i - 1, e);
    }
  }

  lemma {:induction false} FirstDotIs(s: string, i: nat, d: nat)
    requires i <= d < |s| && s[d] == '.' && forall k :: i <= k < d ==> s[k] != '.'
    ensures FirstDot(s, i) == Some(d)
    decreases d - i
  {
    if i < d {
      FirstDotIs(s, i + 1, d);
    }
  }

  lemma DecimalDigits(n: nat)
    ensures Print(n, 10) != "" && forall i :: 0 <= i < |Print(n, 10)| ==> IsDigit(Print(n, 10)[i])
  {
    PrintValue(n, 10);
    hide Value, Print;
  }

  /** The dotted quad at the end of the text is found where it begins. */
  lemma TailFound(prefix: string, a: Byte, b: Byte, c: Byte, d: Byte)
    requires prefix != "" && prefix[|prefix| - 1] == ':' && NoDot(prefix)
    ensures ParseTail(prefix + Dotted(a, b, c, d)) == Some((|prefix| as nat, [a * 0x100 + b, c * 0x100 + d]))
  {
    hide Print, ScanDotted, RunStart, FirstDot, Dotted;
    var s := prefix + Dotted(a, b, c, d);
    var n := |prefix|;
    FirstPart(prefix, a, b, c, d);
    assert s[n..] == Dotted(a, b, c, d);
    DottedRoundTrip(s, n, a, b, c, d);
  }

  /** The first dot ends the first part, which begins behind the prefix. */
  lemma FirstPart(prefix: string, a: Byte, b: Byte, c: Byte, d: Byte)
    requires prefix != "" && prefix[|prefix| - 1] == ':' && NoDot(prefix)
    ensures var s := prefix + Dotted(a, b, c, d); var dot := |prefix| + |Print(a, 10)|;
      FirstDot(s, 0) == Some(dot) && RunStart(s, dot) == |prefix| && dot > 0
  {
    hide Print, RunStart, FirstDot;
    var s := prefix + Dotted(a, b, c, d);
    var n := |prefix|;
    var pa := Print(a, 10);
    DecimalDigits(a);
    assert s[n..n + |pa|] == pa && s[n + |pa|] == '.';
    assert forall k :: n <= k < n + |pa| ==> s[k] == pa[k - n];
    FirstDotIs(s, 0, n + |pa|);
    RunStartIs(s, n + |pa|, n);
  }

  lemma TailWords(w: seq<Word>)
    requires Words8(w)
    ensures [w[6] / 0x100 * 0x100 + w[6] % 0x100, w[7] / 0x100 * 0x100 + w[7] % 0x100] == w[6..]
    ensures w[6] / 0x100 < 256 && w[7] / 0x100 < 256
  {
  }

  lemma CompatibleRoundTrip(w: seq<Word>)
    requires Words8(w) && Compatible(w)
    ensures Parse6("::" + Tail4(w)) == Some(w)
  {
    hide Dotted, ParseWords, ParseTail;
    var t := "::" + Tail4(w);
    TailWords(w);
    TailFound("::", w[6] / 0x100, w[6] % 0x100, w[7] / 0x100, w[7] % 0x100);
    ParseFirstGap(t, 2);
    ParseEnd(t, 2, 2, [], Some(0));
    var ws: seq<Word> := [];
    assert ws[..0] + Zeros(6) + ws[0..] + w[6..] == w;
  }

  lemma MappedRoundTrip(w: seq<Word>)
    requires Words8(w) && Mapped(w)
    ensures Parse6("::" + Print(0xffff, 16) + ":" + Tail4(w)) == Some(w)
  {
    hide Dotted, ParseWords, ParseTail, Print;
    var f := Print(0xffff, 16);
    var prefix := "::" + f + ":";
    var t := prefix + Tail4(w);
    PrintNoDot(0xffff);
    TailWords(w);
    TailFound(prefix, w[6] / 0x100, w[6] % 0x100, w[7] / 0x100, w[7] % 0x100);
    ParseFirstGap(t, |prefix|);
    OneColons(0xffff);
    assert t[2..2 + |f| + 1] == f + ":";
    ParseColons(t, 2, |prefix|, [], Some(0), [0xffff]);
    ParseEnd(t, |prefix|, |prefix|, [0xffff], Some(0));
    var ws: seq<Word> := [0xffff];
    assert [] + ws == ws;
    assert ws[..0] + Zeros(5) + ws[0..] + w[6..] == w;
  }

  lemma OneColons(n: Word)
    ensures Colons([n]) == Print(n, 16) + ":"
  {
    hide Print;
    var w: seq<Word> := [n];
    assert w[1..] == [];
  }

  /** Printing and then parsing is the identity on all IPv6 addresses, whichever run of zeros is left out. */
  lemma RoundTrip6(w: seq<Word>, pos: nat, len: nat)
    requires Words8(w) && ZeroRun(w, pos, len)
    ensures Parse6(TextWith(w, pos, len)) == Some(w)
  {
    hide Parse6, Joined, Colons, Print;
    if Compatible(w) {
      CompatibleRoundTrip(w);
    } else if Mapped(w) {
      MappedRoundTrip(w);
    } else if len <= 1 {
      PlainRoundTrip(w);
    } else if pos == 0 {
      FrontGapRoundTrip(w, len);
    } else {
      MiddleGapRoundTrip(w, pos, len);
    }
  }

  /** The text never has more than 39 characters, so that it fits the buffer of 64. */
  lemma {:induction false} ColonsLength(w: seq<Word>)
    ensures |Colons(w)| <= 5 * |w|
  {
    hide Print;
    if w != [] {
      HexLength(w[0]);
      ColonsLength(w[1..]);
    }
  }

  lemma JoinedLength(w: seq<Word>)
    ensures |Joined(w)| <= 5 * |w| && (w != [] ==> |Joined(w)| <= 5 * |w| - 1)
  {
    hide Print, Colons;
    if w != [] {
      ColonsLength(w[..|w| - 1]);
      HexLength(w[|w| - 1]);
    }
  }

  lemma TextLength(w: seq<Word>, pos: nat, len: nat)
    requires Words8(w) && ZeroRun(w, pos, len)
    ensures |TextWith(w, pos, len)| <= 39
  {
    hide Print, Colons, Joined, Dotted;
    HexLength(0xffff);
    DottedLength(w[6] / 0x100, w[6] % 0x100, w[7] / 0x100, w[7] % 0x100);
    JoinedLength(w);
    JoinedLength(w[pos + len..]);
    ColonsLength(w[..pos]);
    if pos == 0 {
      JoinedLength(w[len..]);
    }
  }
}
