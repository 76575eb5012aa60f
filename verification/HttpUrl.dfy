/** http_parser_parse_url: a URL is split into fields by one automaton, and its host part by a second one. */
module HttpUrl {
  import opened Wrappers
  import opened HttpTypes
  import opened HttpStep

  datatype Uf = Schema | Host | Port | Path | Query | Fragment | Userinfo

  // off and len are 16-bit numbers.
  datatype Part = Part(off: nat, len: nat)

  const HALF: nat := 0x1_0000

  type Fields = map<Uf, Part>

  function End(f: Part): nat { f.off + f.len }

  function Started(i: nat): Part { Part(i % HALF, 1) }

  function Longer(f: Part): Part { Part(f.off, (f.len + 1) % HALF) }

  // ----- The outer automaton

  // The states of parse_url_char, as far as the fields are concerned.
  datatype Stage = Before | InSchema | Slash | SlashSlash | ServerStart | Server | InPath | QueryStart | InQuery
      | FragmentStart | InFragment
                 | Other

  function StageOf(s: State): Stage {
    if s.ReqSpacesBeforeUrl? then Before
    else if s.ReqSchema? then InSchema
    else if s.ReqSchemaSlash? then Slash
    else if s.ReqSchemaSlashSlash? then SlashSlash
    else if s.ReqServerStart? then ServerStart
    else if s.ReqServer? || s.ReqServerWithAt? then Server
    else if s.ReqPath? then InPath
    else if s.ReqQueryStringStart? then QueryStart
    else if s.ReqQueryString? then InQuery
    else if s.ReqFragmentStart? then FragmentStart
    else if s.ReqFragment? then InFragment
    else Other
  }

  /** How one character takes the automaton from stage to stage. */
  predicate Moves(a: Stage, ch: Byte, b: Stage) {
    match b
    case Before => false
    case InSchema => a.Before? || a.InSchema?
    case Slash => a.InSchema? && ch == ':'
    case SlashSlash => a.Slash? && ch == '/'
    case ServerStart => a.SlashSlash? && ch == '/'
    case Server => a.ServerStart? || a.Server?
    case InPath => a.InPath? || (a.Before? && (ch == '/' || ch == '*')) || ((a.ServerStart? || a.Server?) && ch == '/')
    case QueryStart => (a.ServerStart? || a.Server? || a.InPath?) && ch == '?'
    case InQuery => a.QueryStart? || a.InQuery?
    case FragmentStart => (a.InPath? || a.QueryStart? || a.InQuery? || a.FragmentStart?) && ch == '#'
    case InFragment => a.FragmentStart? || a.InFragment?
    case Other => false
  }

  lemma UrlCharMoves(s: State, ch: Byte)
    requires !ParseUrlChar(s, ch).Dead? && !StageOf(s).Other?
    ensures Moves(StageOf(s), ch, StageOf(ParseUrlChar(s, ch)))
  {
    hide IsAlpha, IsUserinfoChar, IsUrlChar;
  }

  /** The field that a character belongs to; None for a delimiter. */
  function FieldAt(b: Stage): Option<Uf> {
    match b
    case InSchema => Some(Schema)
    case Server => Some(Host)
    case InPath => Some(Path)
    case InQuery => Some(Query)
    case InFragment => Some(Fragment)
    case _ => None
  }

  /** Everything before field f ends at n or earlier. */
  predicate EndsBy(u: Fields, f: Uf, n: nat) {
    && (Schema in u ==> End(u[Schema]) + 3 <= n)
    && (f != Host && Host in u ==> End(u[Host]) <= n)
    && (f != Host && f != Path && Path in u ==> End(u[Path]) <= n)
    && (f.Fragment? && Query in u ==> End(u[Query]) <= n)
  }

  predicate CharAtIs(buf: seq<Byte>, i: int, c: Byte) { 0 <= i < |buf| && buf[i] == c }

  /** The five fields of the outer automaton, each behind its delimiter. */
  predicate Layout(buf: seq<Byte>, u: Fields) {
    && (Schema in u ==> u[Schema].off == 0 && u[Schema].len > 0)
    && (Host in u ==> HostAt(u, u[Host]))
    && (Path in u ==> PathAt(buf, u, u[Path]))
    && (Query in u ==> Behind(buf, u, Query, u[Query], '?'))
    && (Fragment in u ==> Behind(buf, u, Fragment, u[Fragment], '#'))
  }

  predicate HostAt(u: Fields, f: Part) { f.len > 0 && f.off == if Schema in u then End(u[Schema]) + 3 else 0 }

  predicate PathAt(buf: seq<Byte>, u: Fields, f: Part) {
    f.len > 0 && EndsBy(u, Path, f.off) && (CharAtIs(buf, f.off, '/') || CharAtIs(buf, f.off, '*'))
  }

  predicate Behind(buf: seq<Byte>, u: Fields, uf: Uf, f: Part, c: Byte) {
    f.len > 0 && f.off > 0 && EndsBy(u, uf, f.off - 1) && CharAtIs(buf, f.off - 1, c)
  }

  predicate SchemaDelimited(buf: seq<Byte>, u: Fields) {
    Schema in u ==> End(u[Schema]) + 3 <= |buf| && buf[End(u[Schema])..End(u[Schema]) + 3] == "://"
  }

  /** Where the fields stand when i characters have been read. */
  predicate AtStage(buf: seq<Byte>, b: Stage, u: Fields, i: nat)
    requires i <= |buf|
  {
    match b
    case Before => i == 0 && u == map[]
    case InSchema => u == map[Schema := Part(0, i)] && i > 0
    case Slash => i > 1 && u == map[Schema := Part(0, i - 1)] && buf[i - 1] == ':'
    case SlashSlash => i > 2 && u == map[Schema := Part(0, i - 2)] && buf[i - 2..i] == ":/"
    case ServerStart => (i == 0 && u == map[]) ||
      (i > 3 && u == map[Schema := Part(0, i - 3)] && buf[i - 3..i] == "://")
    case Server => Host in u && End(u[Host]) == i && Path !in u && Query !in u && Fragment !in u
    case InPath => Path in u && End(u[Path]) == i && Query !in u && Fragment !in u
    case QueryStart => i > 0 && buf[i - 1] == '?' && EndsBy(u, Query, i - 1) && Query !in u && Fragment !in u
    case InQuery => Query in u && End(u[Query]) == i && Fragment !in u
    case FragmentStart => i > 0 && buf[i - 1] == '#' && EndsBy(u, Fragment, i - 1) && Fragment !in u
    case InFragment => Fragment in u && End(u[Fragment]) == i
    case Other => false
  }

  predicate Outer(buf: seq<Byte>, b: Stage, u: Fields, i: nat)
    requires i <= |buf|
  {
    && Layout(buf, u) && AtStage(buf, b, u, i) && Userinfo !in u && Port !in u
    && (!b.InSchema? && !b.Slash? && !b.SlashSlash? ==> SchemaDelimited(buf, u))
  }

  /** The loop's memory of the last field is the current one, unless a delimiter has come in between. */
  predicate LastOk(u: Fields, last: Option<Uf>, b: Stage) {
    (last.Some? ==> last.value in u) && (FieldAt(b).Some? ==> last == FieldAt(b))
  }

  /** The fields after one more character. */
  function Take(u: Fields, last: Option<Uf>, b: Stage, i: nat): Fields {
    match FieldAt(b)
    case None => u
    case Some(f) => if last == Some(f) && f in u then u[f := Longer(u[f])] else u[f := Started(i)]
  }

  lemma TakeLast(u: Fields, last: Option<Uf>, b: Stage, i: nat)
    requires last.Some? ==> last.value in u
    ensures LastOk(Take(u, last, b, i), if FieldAt(b).Some? then FieldAt(b) else last, b)
  {
  }

  lemma OuterDelimiter(buf: seq<Byte>, a: Stage, u: Fields, i: nat, b: Stage)
    requires i < |buf| && Outer(buf, a, u, i) && Moves(a, buf[i], b) && FieldAt(b).None?
    ensures Outer(buf, b, u, i + 1)
  {
  }

  lemma OuterSame(buf: seq<Byte>, a: Stage, u: Fields, i: nat, b: Stage, f: Uf)
    requires i < |buf| < HALF && Outer(buf, a, u, i) && Moves(a, buf[i], b) && FieldAt(b) == Some(f) == FieldAt(a)
    ensures f in u && Outer(buf, b, u[f := Longer(u[f])], i + 1)
  {
  }

  lemma OuterNew(buf: seq<Byte>, a: Stage, u: Fields, i: nat, b: Stage, f: Uf)
    requires i < |buf| < HALF && Outer(buf, a, u, i) && Moves(a, buf[i], b) && FieldAt(b) == Some(f) != FieldAt(a)
    ensures f !in u && Outer(buf, b, u[f := Started(i)], i + 1)
  {
  }

  /** One character of the outer automaton keeps the layout. */
  lemma OuterStep(buf: seq<Byte>, a: Stage, u: Fields, last: Option<Uf>, i: nat, b: Stage)
    requires i < |buf| < HALF && Outer(buf, a, u, i) && LastOk(u, last, a) && Moves(a, buf[i], b)
    ensures Outer(buf, b, Take(u, last, b, i), i + 1)
  {
    match FieldAt(b)
    case None => OuterDelimiter(buf, a, u, i, b);
    case Some(f) =>
      if FieldAt(a) == Some(f) {
        OuterSame(buf, a, u, i, b, f);
      } else {
        OuterNew(buf, a, u, i, b, f);
      }
      hide Outer, Moves;
  }

  // The state of the loop over the whole URL: uf of the character before, and whether there was an '@'.
  datatype Cursor = Cursor(s: State, u: Fields, last: Option<Uf>, at: bool)

  function OuterNext(c: Cursor, ch: Byte, i: nat): Option<Cursor> {
    var t := ParseUrlChar(c.s, ch);
    var b := StageOf(t);
    if t.Dead? then None
    else
      var last := if FieldAt(b).Some? then FieldAt(b) else c.last;
      Some(Cursor(t, Take(c.u, c.last, b, i), last, c.at || t.ReqServerWithAt?))
  }

  function OuterRun(c: Cursor, buf: seq<Byte>, i: nat): Option<Cursor>
    requires i <= |buf|
    decreases |buf| - i
  {
    if i == |buf| then Some(c)
    else match OuterNext(c, buf[i], i)
      case None => None
      case Some(d) => OuterRun(d, buf, i + 1)
  }

  // ----- The host

  datatype HostState =
    | HostDead | UserinfoStart | InUserinfo | HostStart | V6Start | InHost | V6 | V6End | V6ZoneStart | V6Zone
      | PortStart | InPort

  /** http_parse_host_char */
  function ParseHostChar(s: HostState, ch: Byte): HostState {
    match s
    case UserinfoStart => UserinfoChar(ch)
    case InUserinfo => UserinfoChar(ch)
    case HostStart => if ch == '[' then V6Start else if IsHostChar(ch) then InHost else HostDead
    case InHost => if IsHostChar(ch) then InHost else if ch == ':' then PortStart else HostDead
    case V6End => if ch == ':' then PortStart else HostDead
    case V6 =>
      if ch == ']' then V6End else if IsHex(ch) || ch == ':' || ch == '.' then V6 else if ch == '%' then V6ZoneStart
        else HostDead
    case V6Start => if IsHex(ch) || ch == ':' || ch == '.' then V6 else HostDead
    case V6Zone => if ch == ']' then V6End else ZoneChar(ch)
    case V6ZoneStart => ZoneChar(ch)
    case PortStart => if IsNum(ch) then InPort else HostDead
    case InPort => if IsNum(ch) then InPort else HostDead
    case HostDead => HostDead
  }

  function UserinfoChar(ch: Byte): HostState {
    if ch == '@' then HostStart else if IsUserinfoChar(ch) then InUserinfo else HostDead
  }

  function ZoneChar(ch: Byte): HostState {
    if IsAlphaNum(ch) || ch == '%' || ch == '.' || ch == '-' || ch == '_' || ch == '~' then V6Zone else HostDead
  }

  /** The fields after one more character of the host. */
  function HostTake(u: Fields, s: HostState, t: HostState, i: nat): Fields
    requires Host in u
  {
    match t
    case InHost => u[Host := Grown(u[Host], s.InHost?, i)]
    case V6 => u[Host := Grown(u[Host], s.V6?, i)]
    case V6ZoneStart => u[Host := Longer(u[Host])]
    case V6Zone => u[Host := Longer(u[Host])]
    case InPort => if s.InPort? && Port in u then u[Port := Longer(u[Port])] else u[Port := Started(i)]
    case InUserinfo => if s.InUserinfo? && Userinfo in u then u[Userinfo := Longer(u[Userinfo])]
      else u[Userinfo := Started(i)]
    case _ => u
  }

  function Grown(f: Part, same: bool, i: nat): Part { Part(if same then f.off else i % HALF, (f.len + 1) % HALF) }

  predicate AllNum(buf: seq<Byte>, from: nat, end: nat) {
    from <= end <= |buf| && forall k :: from <= k < end ==> IsNum(buf[k])
  }

  predicate UserinfoDone(buf: seq<Byte>, u: Fields, a: nat, n: nat) {
    Userinfo in u ==>
      u[Userinfo].off == a && u[Userinfo].len > 0 && End(u[Userinfo]) + 1 <= n && CharAtIs(buf, End(u[Userinfo]), '@')
  }

  /** The host field is complete, or still grows, up to n. */
  predicate HostDone(buf: seq<Byte>, u: Fields, a: nat, n: nat)
    requires Host in u
  {
    && a <= u[Host].off && u[Host].len > 0 && End(u[Host]) <= n && UserinfoDone(buf, u, a, u[Host].off)
  }

  /** Where the fields stand when the host part, which begins at a, has been read up to i. */
  predicate HostStage(buf: seq<Byte>, s: HostState, u: Fields, a: nat, i: nat) {
    && a <= i <= |buf| && Host in u
    && (!s.InPort? ==> Port !in u)
    && match s
       case HostDead => false
       case UserinfoStart => i == a && Userinfo !in u && u[Host].len == 0
       case InUserinfo => Userinfo in u && u[Userinfo] == Part(a, i - a) && i > a && u[Host].len == 0
       case HostStart => u[Host].len == 0 && UserinfoDone(buf, u, a, i)
       case V6Start => u[Host].len == 0 && UserinfoDone(buf, u, a, i)
       case InHost => HostDone(buf, u, a, i) && End(u[Host]) == i
       case V6 => HostDone(buf, u, a, i) && End(u[Host]) == i
       case V6ZoneStart => HostDone(buf, u, a, i) && End(u[Host]) == i
       case V6Zone => HostDone(buf, u, a, i) && End(u[Host]) == i
       case V6End => HostDone(buf, u, a, i)
       case PortStart => i > a && HostDone(buf, u, a, i - 1) && buf[i - 1] == ':'
       case InPort =>
         && Port in u && u[Port].off > a && u[Port].len > 0 && End(u[Port]) == i && HostDone(buf, u, a, u[Port].off - 1)
         && CharAtIs(buf, u[Port].off - 1, ':') && AllNum(buf, u[Port].off, i)
  }

  lemma HostStep(buf: seq<Byte>, s: HostState, u: Fields, a: nat, i: nat)
    requires i < |buf| < HALF && HostStage(buf, s, u, a, i) && !ParseHostChar(s, buf[i]).HostDead?
    ensures var t := ParseHostChar(s, buf[i]); HostStage(buf, t, HostTake(u, s, t, i), a, i + 1)
  {
    hide IsUserinfoChar, IsHostChar, IsHex, IsAlphaNum;
  }

  // ----- All of it

  /** Every field lies inside the first n characters: so for inputs of any length. */
  predicate Inside(u: Fields, n: nat) { forall f :: f in u ==> End(u[f]) <= n }

  lemma TakeInside(u: Fields, last: Option<Uf>, b: Stage, i: nat)
    requires Inside(u, i)
    ensures Inside(Take(u, last, b, i), i + 1)
  {
  }

  predicate OfHost(f: Uf) { f.Host? || f.Port? || f.Userinfo? }

  predicate HostInside(u: Fields, i: nat) { forall f :: f in u && OfHost(f) ==> End(u[f]) <= i }

  predicate SameElsewhere(u: Fields, v: Fields) {
    forall f :: !OfHost(f) ==> (f in v <==> f in u) && (f in u ==> v[f] == u[f])
  }

  predicate BeforeHost(s: HostState) { s.UserinfoStart? || s.InUserinfo? || s.HostStart? || s.V6Start? }

  lemma HostTakeInside(u: Fields, s: HostState, ch: Byte, i: nat)
    requires Host in u && HostInside(u, i) && (BeforeHost(s) ==> u[Host].len == 0) && !ParseHostChar(s, ch).HostDead?
    ensures var t := ParseHostChar(s, ch); var u' := HostTake(u, s, t, i);
      Host in u' && HostInside(u', i + 1) && SameElsewhere(u, u') && (BeforeHost(t) ==> u'[Host].len == 0)
  {
    hide IsUserinfoChar, IsHostChar, IsHex, IsAlphaNum;
  }

  /** The states in which the host may not end. */
  predicate Unfinished(s: HostState) {
    || s.HostStart? || s.V6Start? || s.V6? || s.V6ZoneStart? || s.V6Zone? || s.PortStart? || s.InUserinfo? ||
      s.UserinfoStart?
  }

  /** The loop of http_parse_host, and the test after it. */
  function HostRun(s: HostState, u: Fields, buf: seq<Byte>, i: nat, b: nat): Option<Fields>
    requires i <= b <= |buf| && Host in u
    decreases b - i
  {
    if i == b then if Unfinished(s) then None else Some(u)
    else
      var t := ParseHostChar(s, buf[i]);
      if t.HostDead? then None else HostRun(t, HostTake(u, s, t, i), buf, i + 1, b)
  }

  function HostSplit(buf: seq<Byte>, u: Fields, foundAt: bool): Option<Fields>
    requires Host in u && End(u[Host]) <= |buf|
  {
    HostRun(if foundAt then UserinfoStart
      else HostStart, u[Host := Part(u[Host].off, 0)], buf, u[Host].off, End(u[Host]))
  }

  /** The parts of the host region from a to b. */
  predicate HostParts(buf: seq<Byte>, u: Fields, a: nat, b: nat) {
    && Host in u && (Port !in u ==> HostDone(buf, u, a, b))
    && (Port in u ==> PortAt(buf, u, u[Port], a) && End(u[Port]) == b)
  }

  predicate PortAt(buf: seq<Byte>, u: Fields, f: Part, a: nat)
    requires Host in u
  {
    && f.off > a && f.len > 0 && HostDone(buf, u, a, f.off - 1) && CharAtIs(buf, f.off - 1, ':') &&
      AllNum(buf, f.off, End(f))
  }

  lemma HostBegins(buf: seq<Byte>, u: Fields, a: nat, s: HostState)
    requires Host !in u && Port !in u && Userinfo !in u && a <= |buf| && (s.UserinfoStart? || s.HostStart?)
    ensures HostStage(buf, s, u[Host := Part(a, 0)], a, a)
  {
  }

  lemma HostEnds(buf: seq<Byte>, s: HostState, u: Fields, a: nat, b: nat)
    requires HostStage(buf, s, u, a, b) && !Unfinished(s)
    ensures HostParts(buf, u, a, b)
  {
  }

  /** http_parse_host */
  method ParseHost(buf: seq<Byte>, u0: Fields, foundAt: bool) returns (ok: bool, u: Fields)
    requires Host in u0 && Inside(u0, |buf|) && Port !in u0 && Userinfo !in u0
    ensures HostSplit(buf, u0, foundAt) == if ok then Some(u) else None
    ensures Host in u && Inside(u, |buf|) && SameElsewhere(u0, u)
    ensures ok && |buf| < HALF ==> HostParts(buf, u, u0[Host].off, End(u0[Host]))
  {
    hide ParseHostChar, HostTake, HostStage, HostParts, Unfinished;
    var a, b := u0[Host].off, End(u0[Host]);
    u := u0[Host := Part(a, 0)];
    var s := if foundAt then UserinfoStart else HostStart;
    assert (u0 - {Host})[Host := Part(a, 0)] == u;
    HostBegins(buf, u0 - {Host}, a, s);
    var i := a;
    while i < b
      invariant a <= i <= b && Host in u && SameElsewhere(u0, u) && (BeforeHost(s) ==> u[Host].len == 0)
      invariant HostInside(u, i)
      invariant HostRun(s, u, buf, i, b) == HostSplit(buf, u0, foundAt)
      invariant |buf| < HALF ==> HostStage(buf, s, u, a, i)
    {
      var t := ParseHostChar(s, buf[i]);
      if t.HostDead? {
        return false, u;
      }
      HostTakeInside(u, s, buf[i], i);
      if |buf| < HALF {
        HostStep(buf, s, u, a, i);
      }
      u := HostTake(u, s, t, i);
      s := t;
      i := i + 1;
    }
    ok := !Unfinished(s);
    if ok && |buf| < HALF {
      HostEnds(buf, s, u, a, b);
    }
  }

  // ----- The result

  /** The order of the fields in a URL. */
  function Order(f: Uf): nat {
    match f case Schema => 0 case Userinfo => 1 case Host => 2 case Port => 3 case Path => 4 case Query => 5
      case Fragment => 6
  }

  /** The fields are not empty, inside the input, disjoint, and in this order. */
  predicate InOrder(buf: seq<Byte>, u: Fields) {
    && Inside(u, |buf|) && (forall f :: f in u ==> u[f].len > 0)
    && forall f, g :: f in u && g in u && Order(f) < Order(g) ==> End(u[f]) <= u[g].off
  }

  /** Each field stands behind or before its delimiter. */
  predicate Delimited(buf: seq<Byte>, u: Fields) {
    && SchemaDelimited(buf, u) && (Schema in u ==> Host in u)
    && (Userinfo in u ==> CharAtIs(buf, End(u[Userinfo]), '@'))
    && (Port in u ==> CharAtIs(buf, u[Port].off - 1, ':'))
    && (Path in u ==> CharAtIs(buf, u[Path].off, '/') || CharAtIs(buf, u[Path].off, '*'))
    && (Query in u ==> CharAtIs(buf, u[Query].off - 1, '?'))
    && (Fragment in u ==> CharAtIs(buf, u[Fragment].off - 1, '#'))
  }

  /** The port is the number that is written there. */
  predicate PortIs(buf: seq<Byte>, u: Fields, port: nat) {
    if Port in u then
      AllNum(buf, u[Port].off, End(u[Port])) && port == Decimal(buf[u[Port].off..End(u[Port])]) <= 0xffff
    else port == 0
  }

  /** v has the region of the host, which has been divided in u. */
  predicate Divided(buf: seq<Byte>, v: Fields, u: Fields) {
    && Layout(buf, v) && SchemaDelimited(buf, v) && Port !in v && Userinfo !in v && SameElsewhere(v, u) &&
      Inside(u, |buf|)
    && (Host in u <==> Host in v) && (Host !in v ==> u == v && Schema !in v)
    && (Host in v ==> HostParts(buf, u, v[Host].off, End(v[Host])))
  }

  lemma Elsewhere(v: Fields, u: Fields)
    requires SameElsewhere(v, u)
    ensures (Schema in u <==> Schema in v) && (Schema in u ==> u[Schema] == v[Schema])
    ensures (Path in u <==> Path in v) && (Path in u ==> u[Path] == v[Path])
    ensures (Query in u <==> Query in v) && (Query in u ==> u[Query] == v[Query])
    ensures (Fragment in u <==> Fragment in v) && (Fragment in u ==> u[Fragment] == v[Fragment])
  {
  }

  lemma DividedDelimited(buf: seq<Byte>, v: Fields, u: Fields)
    requires Divided(buf, v, u)
    ensures Delimited(buf, u)
  {
    Elsewhere(v, u);
    hide SameElsewhere, Inside, AllNum, EndsBy;
  }

  lemma DividedHost(buf: seq<Byte>, v: Fields, u: Fields)
    requires Divided(buf, v, u) && Host in v
    ensures u[Host].len > 0 && v[Host].off <= u[Host].off && End(u[Host]) <= End(v[Host])
    ensures Userinfo in u ==> u[Userinfo].len > 0 && v[Host].off <= u[Userinfo].off && End(u[Userinfo]) <= u[Host].off
    ensures Port in u ==> u[Port].len > 0 && End(u[Host]) <= u[Port].off && End(u[Port]) <= End(v[Host])
  {
  }

  lemma DividedNonEmpty(buf: seq<Byte>, v: Fields, u: Fields)
    requires Divided(buf, v, u)
    ensures forall f :: f in u ==> u[f].len > 0
  {
    Elsewhere(v, u);
    if Host in v {
      DividedHost(buf, v, u);
    }
    hide SameElsewhere, AllNum, HostParts, SchemaDelimited, CharAtIs, EndsBy, Inside;
    forall f | f in u ensures u[f].len > 0 {
      match f
      case Schema =>
      case Userinfo =>
      case Host =>
      case Port =>
      case Path =>
      case Query =>
      case Fragment =>
    }
  }

  /** Where a field begins, the fields before it have ended. */
  lemma DividedBefore(buf: seq<Byte>, v: Fields, u: Fields, f: Uf, g: Uf)
    requires Divided(buf, v, u) && f in u && g in u && Order(f) < Order(g)
    ensures End(u[f]) <= u[g].off
  {
    Elsewhere(v, u);
    if Host in v {
      DividedHost(buf, v, u);
    }
    hide SameElsewhere, AllNum, HostParts, SchemaDelimited, CharAtIs, Inside;
    match g
    case Schema =>
    case Userinfo =>
    case Host =>
    case Port =>
    case Path =>
    case Query =>
    case Fragment =>
  }

  lemma DividedOrder(buf: seq<Byte>, v: Fields, u: Fields)
    requires Divided(buf, v, u)
    ensures InOrder(buf, u)
  {
    DividedNonEmpty(buf, v, u);
    forall f, g | f in u && g in u && Order(f) < Order(g) ensures End(u[f]) <= u[g].off {
      DividedBefore(buf, v, u, f, g);
    }
    assert Inside(u, |buf|);
    hide Divided, Inside;
  }

  /** A char is signed in C. */
  function SignedChar(c: Byte): int { if c as int < 128 then c as int else c as int - 256 }

  // unsigned long
  const LONG: int := 0x1_0000_0000_0000_0000

  function PortNext(n: nat, c: Byte): nat { (10 * n + SignedChar(c) - '0' as int) % LONG }

  function PortRun(buf: seq<Byte>, p: nat, end: nat, n: nat): Option<nat>
    requires p <= end <= |buf|
    decreases end - p
  {
    if p == end then Some(n)
    else if PortNext(n, buf[p]) > 0xffff then None
    else PortRun(buf, p + 1, end, PortNext(n, buf[p]))
  }

  /** The port loop of http_parser_parse_url: None if the number is too large. */
  method ReadPort(buf: seq<Byte>, from: nat, end: nat) returns (v: Option<nat>)
    requires from <= end <= |buf|
    ensures v == PortRun(buf, from, end, 0)
    ensures v.Some? ==> v.value <= 0xffff
    ensures AllNum(buf, from, end) ==>
      v == if Decimal(buf[from..end]) <= 0xffff then Some(Decimal(buf[from..end])) else None
  {
    hide Decimal;
    var n: nat, p := 0, from;
    DecimalEmpty(buf, from);
    while p < end
      invariant from <= p <= end && n <= 0xffff
      invariant PortRun(buf, p, end, n) == PortRun(buf, from, end, 0)
      invariant AllNum(buf, from, end) ==> AllNum(buf, from, p) && n == Decimal(buf[from..p])
    {
      if AllNum(buf, from, end) {
        DecimalNext(buf, from, p);
        DecimalGrows(buf, from, p + 1, end);
      }
      n := PortNext(n, buf[p]);
      p := p + 1;
      if n > 0xffff {
        return None;
      }
    }
    v := Some(n);
  }

  lemma DecimalEmpty(buf: seq<Byte>, from: nat)
    requires from <= |buf|
    ensures Decimal(buf[from..from]) == 0
  {
  }

  lemma DecimalNext(buf: seq<Byte>, from: nat, p: nat)
    requires from <= p < |buf| && AllNum(buf, from, p + 1)
    ensures AllNum(buf, from, p) && Decimal(buf[from..p + 1]) == 10 * Decimal(buf[from..p]) + Digit(buf[p])
  {
    assert buf[from..p + 1][..p - from] == buf[from..p];
  }

  lemma {:induction false} DecimalGrows(buf: seq<Byte>, from: nat, p: nat, end: nat)
    requires from <= p <= end <= |buf| && AllNum(buf, from, end)
    ensures AllNum(buf, from, p) && Decimal(buf[from..p]) <= Decimal(buf[from..end])
    decreases end
  {
    hide Decimal;
    if p < end {
      DecimalGrows(buf, from, p, end - 1);
      DecimalNext(buf, from, end - 1);
    }
  }

  lemma {:induction false} OuterRunInside(c: Cursor, buf: seq<Byte>, i: nat)
    requires i <= |buf| && Inside(c.u, i) && (c.last.Some? ==> c.last.value in c.u) && Port !in c.u && Userinfo !in c.u
    ensures OuterRun(c, buf, i).Some? ==>
      var u := OuterRun(c, buf, i).value.u; Inside(u, |buf|) && Port !in u && Userinfo !in u
    decreases |buf| - i
  {
    hide ParseUrlChar, Inside, Take;
    if i < |buf| && OuterNext(c, buf[i], i).Some? {
      var b := StageOf(ParseUrlChar(c.s, buf[i]));
      TakeInside(c.u, c.last, b, i);
      TakeLast(c.u, c.last, b, i);
      TakeKeys(c.u, c.last, b, i);
      OuterRunInside(OuterNext(c, buf[i], i).value, buf, i + 1);
    }
  }

  lemma {:induction false} HostRunInside(s: HostState, u: Fields, buf: seq<Byte>, i: nat, b: nat)
    requires i <= b <= |buf| && Host in u && HostInside(u, i) && (BeforeHost(s) ==> u[Host].len == 0)
    ensures HostRun(s, u, buf, i, b).Some? ==> HostInside(HostRun(s, u, buf, i, b).value, b)
    decreases b - i
  {
    hide ParseHostChar, HostTake;
    if i < b && !ParseHostChar(s, buf[i]).HostDead? {
      var t := ParseHostChar(s, buf[i]);
      HostTakeInside(u, s, buf[i], i);
      HostRunInside(t, HostTake(u, s, t, i), buf, i + 1, b);
    }
  }

  lemma HostSplitInside(buf: seq<Byte>, u: Fields, foundAt: bool)
    requires Host in u && Inside(u, |buf|) && Port !in u && Userinfo !in u
    ensures HostSplit(buf, u, foundAt).Some? ==> HostInside(HostSplit(buf, u, foundAt).value, |buf|)
  {
    var a := u[Host].off;
    HostRunInside(if foundAt then UserinfoStart else HostStart, u[Host := Part(a, 0)], buf, a, End(u[Host]));
  }

  function Start(isConnect: bool): Cursor {
    Cursor(if isConnect then ReqServerStart else ReqSpacesBeforeUrl, map[], None, false)
  }

  /** http_parser_parse_url as a function: the fields and the port, or None. */
  function Split(buf: seq<Byte>, isConnect: bool): Option<(Fields, nat)> {
    if buf == [] then None
    else match OuterRun(Start(isConnect), buf, 0)
      case None => None
      case Some(c) =>
        OuterRunInside(Start(isConnect), buf, 0);
        if Schema in c.u && Host !in c.u then None
        else if Host !in c.u then Ported(buf, c.u, isConnect)
        else
          HostSplitInside(buf, c.u, c.at);
          match HostSplit(buf, c.u, c.at)
          case None => None
          case Some(u) => Ported(buf, u, isConnect)
  }

  function Ported(buf: seq<Byte>, u: Fields, isConnect: bool): Option<(Fields, nat)>
    requires Port in u ==> End(u[Port]) <= |buf|
  {
    if isConnect && u.Keys != {Host, Port} then None
    else if Port !in u then Some((u, 0))
    else match PortRun(buf, u[Port].off, End(u[Port]), 0)
      case None => None
      case Some(n) => Some((u, n))
  }

  /** http_parser_parse_url: if it succeeds, the fields tile the input in order, each at its delimiter, and the port is
      right. */
  method ParseUrl(buf: seq<Byte>, isConnect: bool) returns (ok: bool, u: Fields, port: nat)
    ensures Split(buf, isConnect) == if ok then Some((u, port)) else None
    ensures ok ==> Inside(u, |buf|)
    ensures ok && |buf| < HALF ==> InOrder(buf, u) && Delimited(buf, u) && PortIs(buf, u, port)
    ensures ok && isConnect ==> u.Keys == {Host, Port}
  {
    hide ParseUrlChar, Outer, Moves, Take, Layout, Decimal, HostParts, HostSplit, PortRun;
    u, port := map[], 0;
    if |buf| == 0 {
      return false, u, port;
    }
    var s := if isConnect then ReqServerStart else ReqSpacesBeforeUrl;
    var last: Option<Uf>, foundAt := None, false;
    OuterBegins(buf, StageOf(s));
    var i := 0;
    while i < |buf|
      invariant i <= |buf| && Inside(u, i) && !StageOf(s).Other? && Port !in u && Userinfo !in u
      invariant LastOk(u, last, StageOf(s))
      invariant OuterRun(Cursor(s, u, last, foundAt), buf, i) == OuterRun(Start(isConnect), buf, 0)
      invariant |buf| < HALF ==> Outer(buf, StageOf(s), u, i)
    {
      ghost var a := StageOf(s);
      var t := ParseUrlChar(s, buf[i]);
      if t.Dead? {
        return false, u, port;
      }
      UrlCharMoves(s, buf[i]);
      s := t;
      var b := StageOf(s);
      MovesSomewhere(a, buf[i], b);
      if |buf| < HALF {
        OuterStep(buf, a, u, last, i, b);
      }
      TakeInside(u, last, b, i);
      TakeLast(u, last, b, i);
      TakeKeys(u, last, b, i);
      if s.ReqServerWithAt? {
        foundAt := true;
      }
      u := Take(u, last, b, i);
      if FieldAt(b).Some? {
        last := FieldAt(b);
      }
      i := i + 1;
    }
    if Schema in u && Host !in u {
      return false, u, port;
    }
    ghost var v := u;
    if |buf| < HALF {
      OuterEnds(buf, StageOf(s), u);
    }
    if Host in u {
      ok, u := ParseHost(buf, u, foundAt);
      if !ok {
        return false, u, port;
      }
    }
    if isConnect && u.Keys != {Host, Port} {
      return false, u, port;
    }
    if |buf| < HALF {
      DividedOrder(buf, v, u);
      DividedDelimited(buf, v, u);
      PortDigits(buf, v, u);
    }
    ok := true;
    if Port in u {
      assert End(u[Port]) <= |buf|;
      var p := ReadPort(buf, u[Port].off, End(u[Port]));
      if p.None? {
        return false, u, port;
      }
      port := p.value;
    }
  }

  lemma OuterBegins(buf: seq<Byte>, b: Stage)
    requires b.Before? || b.ServerStart?
    ensures Outer(buf, b, map[], 0) && LastOk(map[], None, b)
  {
  }

  lemma OuterEnds(buf: seq<Byte>, b: Stage, u: Fields)
    requires Outer(buf, b, u, |buf|)
    ensures Layout(buf, u) && (Host in u || Schema !in u ==> SchemaDelimited(buf, u))
  {
  }

  lemma MovesSomewhere(a: Stage, ch: Byte, b: Stage)
    requires Moves(a, ch, b)
    ensures !b.Other?
  {
  }

  lemma TakeKeys(u: Fields, last: Option<Uf>, b: Stage, i: nat)
    ensures Port in Take(u, last, b, i) <==> Port in u
    ensures Userinfo in Take(u, last, b, i) <==> Userinfo in u
  {
  }

  lemma PortDigits(buf: seq<Byte>, v: Fields, u: Fields)
    requires Divided(buf, v, u)
    ensures Port in u ==> AllNum(buf, u[Port].off, End(u[Port]))
  {
  }
}
