/** Every well-formed URL is split into exactly the parts it was put together from. */
module HttpUrlText {
  import opened Wrappers
  import opened HttpTypes
  import opened HttpStep
  import opened HttpUrl

  type Text = seq<Byte>

  // An empty zone, userinfo or port is none.
  datatype HostName = Name(name: Text) | Literal(address: Text, zone: Text)
  datatype Authority = Authority(userinfo: Text, host: HostName, port: Text)
  datatype Tail = Tail(path: Text, query: Option<Text>, fragment: Option<Text>)

  // The forms of section 5.3 of RFC 7230: absolute, origin and asterisk, and authority.
  datatype Url = Absolute(schema: Text, authority: Authority, tail: Tail) | Origin(tail: Tail)
      | Connect(authority: Authority)

  // ----- As text

  function HostText(h: HostName): Text {
    match h
    case Name(name) => name
    case Literal(address, zone) => ['['] + address + ZoneText(zone) + [']']
  }

  function ZoneText(zone: Text): Text { if zone == [] then [] else ['%'] + zone }

  function UserText(userinfo: Text): Text { if userinfo == [] then [] else userinfo + ['@'] }

  function PortText(port: Text): Text { if port == [] then [] else [':'] + port }

  function AuthorityText(a: Authority): Text { UserText(a.userinfo) + HostText(a.host) + PortText(a.port) }

  function AfterMark(mark: Byte, text: Option<Text>): Text { if text.None? then [] else [mark] + text.value }

  function TailText(t: Tail): Text { t.path + AfterMark('?', t.query) + AfterMark('#', t.fragment) }

  function UrlText(u: Url): Text {
    match u
    case Absolute(schema, authority, tail) => schema + [':', '/', '/'] + AuthorityText(authority) + TailText(tail)
    case Origin(tail) => TailText(tail)
    case Connect(authority) => AuthorityText(authority)
  }

  // ----- Well-formed

  predicate All(p: Byte -> bool, s: Text) { forall i :: 0 <= i < |s| ==> p(s[i]) }

  predicate AddressChar(c: Byte) { IsHex(c) || c == ':' || c == '.' }

  predicate ZoneOk(c: Byte) { ZoneChar(c).V6Zone? }

  predicate QueryChar(c: Byte) { IsUrlChar(c) || c == '?' }

  predicate FragmentChar(c: Byte) { IsUrlChar(c) || c == '?' || c == '#' }

  predicate HostOk(h: HostName) {
    match h
    case Name(name) => name != [] && All(IsHostChar, name)
    case Literal(address, zone) => address != [] && All(AddressChar, address) && All(ZoneOk, zone)
  }

  predicate AuthorityOk(a: Authority) {
    && HostOk(a.host) && All(IsUserinfoChar, a.userinfo) && All(IsNum, a.port) && Decimal(a.port) <= 0xffff
  }

  /** A fragment needs a path or a query in front of it, and does not begin with a second '#'. */
  predicate TailOk(t: Tail) {
    && All(IsUrlChar, t.path) && (t.query.Some? ==> All(QueryChar, t.query.value))
    && (t.fragment.Some? ==>
         All(FragmentChar, t.fragment.value) && (t.fragment.value != [] ==> t.fragment.value[0] != '#')
         && (t.path != [] || t.query.Some?))
  }

  predicate UrlOk(u: Url) {
    match u
    case Absolute(schema, authority, tail) =>
      schema != [] && All(IsAlpha, schema) && AuthorityOk(authority) && TailOk(tail) &&
        (tail.path != [] ==> tail.path[0] == '/')
    case Origin(tail) => TailOk(tail) && tail.path != [] && (tail.path[0] == '/' || tail.path[0] == '*')
    case Connect(authority) => AuthorityOk(authority) && authority.userinfo == [] && authority.port != []
  }

  // ----- Where the parts stand

  function Put(u: Fields, f: Uf, off: nat, len: nat): Fields { if len == 0 then u else u[f := Part(off, len)] }

  function HostPart(h: HostName, off: nat): Part {
    match h
    case Name(name) => Part(off, |name|)
    case Literal(address, zone) => Part(off + 1, |address| + |ZoneText(zone)|)
  }

  function AuthorityFields(u: Fields, a: Authority, off: nat): Fields {
    var h := off + |UserText(a.userinfo)|;
    Put(Put(u, Userinfo, off, |a.userinfo|)[Host := HostPart(a.host, h)], Port, h + |HostText(a.host)| + 1, |a.port|)
  }

  function Given(text: Option<Text>): Text { if text.None? then [] else text.value }

  function TailFields(u: Fields, t: Tail, off: nat): Fields {
    var q := off + |t.path|;
    var f := q + |AfterMark('?', t.query)|;
    Put(Put(Put(u, Path, off, |t.path|), Query, q + 1, |Given(t.query)|), Fragment, f + 1, |Given(t.fragment)|)
  }

  function UrlFields(u: Url): Fields {
    match u
    case Absolute(schema, authority, tail) =>
      var a := |schema| + 3;
      AuthorityFields(TailFields(map[Schema := Part(0, |schema|)], tail, a + |AuthorityText(authority)|), authority, a)
    case Origin(tail) => TailFields(map[], tail, 0)
    case Connect(authority) => AuthorityFields(map[], authority, 0)
  }

  function PortOf(u: Url): nat
    requires UrlOk(u)
  {
    if u.Origin? then 0 else Decimal(u.authority.port)
  }

  // ----- The outer automaton

  predicate Stands(buf: Text, i: nat, s: Text) { i + |s| <= |buf| && buf[i..i + |s|] == s }

  /** A stretch of characters that leaves the state as it is makes the current field longer. */
  lemma {:induction false} Stretch(c: Cursor, buf: Text, i: nat, j: nat, f: Uf)
    requires i <= j <= |buf| < HALF && !c.s.ReqServerWithAt? && FieldAt(StageOf(c.s)) == Some(f)
    requires c.last == Some(f) && f in c.u && End(c.u[f]) == i
    requires forall k :: i <= k < j ==> ParseUrlChar(c.s, buf[k]) == c.s
    ensures OuterRun(c, buf, i) == OuterRun(c.(u := c.u[f := Part(c.u[f].off, j - c.u[f].off)]), buf, j)
    decreases j - i
  {
    hide ParseUrlChar;
    if i < j {
      var d := c.(u := c.u[f := Longer(c.u[f])]);
      assert OuterNext(c, buf[i], i) == Some(d);
      Stretch(d, buf, i + 1, j, f);
      assert d.u[f := Part(d.u[f].off, j - d.u[f].off)] == c.u[f := Part(c.u[f].off, j - c.u[f].off)];
    } else {
      assert c.u[f := Part(c.u[f].off, j - c.u[f].off)] == c.u;
    }
  }

  /** A stretch that begins a new field. */
  lemma Entered(c: Cursor, buf: Text, i: nat, s: Text, t: State, f: Uf)
    requires Stands(buf, i, s) && |buf| < HALF && s != []
    requires !t.ReqServerWithAt? && !t.Dead? && FieldAt(StageOf(t)) == Some(f) && f !in c.u
    requires ParseUrlChar(c.s, s[0]) == t && forall k :: 0 < k < |s| ==> ParseUrlChar(t, s[k]) == t
    ensures OuterRun(c, buf, i) == OuterRun(Cursor(t, c.u[f := Part(i, |s|)], Some(f), c.at), buf, i + |s|)
  {
    hide ParseUrlChar;
    assert buf[i] == buf[i..i + |s|][0];
    var d := Cursor(t, c.u[f := Started(i)], Some(f), c.at);
    assert OuterNext(c, buf[i], i) == Some(d);
    forall k | i + 1 <= k < i + |s| ensures ParseUrlChar(t, buf[k]) == t {
      assert buf[i..i + |s|][k - i] == buf[k];
    }
    Stretch(d, buf, i + 1, i + |s|, f);
    assert d.u[f := Part(i, |s|)] == c.u[f := Part(i, |s|)];
  }

  /** A delimiter. */
  lemma Passed(c: Cursor, buf: Text, i: nat, t: State)
    requires i < |buf| && ParseUrlChar(c.s, buf[i]) == t && !t.Dead? && FieldAt(StageOf(t)).None?
    ensures OuterRun(c, buf, i) == OuterRun(c.(s := t), buf, i + 1)
  {
    hide ParseUrlChar;
  }

  lemma StandsSplit(buf: Text, i: nat, a: Text, b: Text)
    requires Stands(buf, i, a + b)
    ensures Stands(buf, i, a) && Stands(buf, i + |a|, b) && i + |a| + |b| <= |buf|
  {
    assert buf[i..i + |a|] == (a + b)[..|a|];
    assert buf[i + |a|..i + |a| + |b|] == (a + b)[|a|..];
  }

  predicate EndsAt(buf: Text, i: nat, s: Text) { Stands(buf, i, s) && i + |s| == |buf| }

  lemma EndsSplit(buf: Text, i: nat, a: Text, b: Text)
    requires EndsAt(buf, i, a + b)
    ensures Stands(buf, i, a) && EndsAt(buf, i + |a|, b) && i + |a| <= |buf|
  {
    StandsSplit(buf, i, a, b);
  }

  /** What is left of the run gives the fields u, after the same kind of host. */
  predicate Gives(c: Cursor, buf: Text, i: nat, u: Fields)
    requires i <= |buf|
  {
    OuterRun(c, buf, i).Some? && OuterRun(c, buf, i).value.u == u && OuterRun(c, buf, i).value.at == c.at
  }

  lemma TailChar(ch: Byte)
    ensures IsUrlChar(ch) ==> ParseUrlChar(ReqPath, ch) == ReqPath
    ensures QueryChar(ch) ==>
      ParseUrlChar(ReqQueryStringStart, ch) == ReqQueryString && ParseUrlChar(ReqQueryString, ch) == ReqQueryString
    ensures FragmentChar(ch) ==>
      ParseUrlChar(ReqFragment, ch) == ReqFragment && (ch != '#' ==> ParseUrlChar(ReqFragmentStart, ch) == ReqFragment)
  {
  }

  lemma TailMark(s: State)
    ensures s.ReqPath? || s.ReqQueryStringStart? || s.ReqQueryString? ==> ParseUrlChar(s, '#') == ReqFragmentStart
    ensures s.ReqPath? || s.ReqServer? ==> ParseUrlChar(s, '?') == ReqQueryStringStart
    ensures s.ReqServer? || s.ReqSpacesBeforeUrl? ==> ParseUrlChar(s, '/') == ReqPath
    ensures s.ReqSpacesBeforeUrl? ==> ParseUrlChar(s, '*') == ReqPath
  {
  }

  lemma AtEnd(c: Cursor, buf: Text)
    ensures OuterRun(c, buf, |buf|) == Some(c)
  {
  }

  lemma FragmentRun(c: Cursor, buf: Text, i: nat, fragment: Option<Text>)
    requires |buf| < HALF && EndsAt(buf, i, AfterMark('#', fragment)) && Fragment !in c.u
    requires fragment.Some? ==>
      && All(FragmentChar, fragment.value) && (fragment.value != [] ==> fragment.value[0] != '#')
      && (c.s.ReqPath? || c.s.ReqQueryStringStart? || c.s.ReqQueryString?)
    ensures Gives(c, buf, i, Put(c.u, Fragment, i + 1, |Given(fragment)|))
  {
    hide OuterRun, ParseUrlChar, FragmentChar;
    var d := c;
    if fragment.Some? {
      var s := fragment.value;
      d := c.(s := ReqFragmentStart);
      TailMark(c.s);
      StandsSplit(buf, i, ['#'], s);
      assert buf[i] == buf[i..i + 1][0];
      Passed(c, buf, i, ReqFragmentStart);
      if s != [] {
        forall k | 0 <= k < |s| ensures FragmentChar(s[k]) && ParseUrlChar(ReqFragment, s[k]) == ReqFragment {
          TailChar(s[k]);
        }
        TailChar(s[0]);
        Entered(d, buf, i + 1, s, ReqFragment, Fragment);
        d := Cursor(ReqFragment, c.u[Fragment := Part(i + 1, |s|)], Some(Fragment), c.at);
      }
    }
    AtEnd(d, buf);
  }

  lemma QueryRun(c: Cursor, buf: Text, i: nat, query: Option<Text>, rest: Text) returns (d: Cursor)
    requires |buf| < HALF && EndsAt(buf, i, AfterMark('?', query) + rest) && Query !in c.u
    requires query.Some? ==> All(QueryChar, query.value) && (c.s.ReqPath? || c.s.ReqServer?)
    ensures d.u == Put(c.u, Query, i + 1, |Given(query)|) && d.at == c.at
    ensures if query.None? then d == c else d.s.ReqQueryStringStart? || d.s.ReqQueryString?
    ensures OuterRun(c, buf, i) == OuterRun(d, buf, i + |AfterMark('?', query)|)
    ensures EndsAt(buf, i + |AfterMark('?', query)|, rest)
  {
    hide OuterRun, ParseUrlChar, QueryChar;
    d := c;
    TailMark(c.s);
    StandsSplit(buf, i, AfterMark('?', query), rest);
    if query.Some? {
      var s := query.value;
      StandsSplit(buf, i, ['?'], s);
      assert buf[i] == buf[i..i + 1][0];
      d := c.(s := ReqQueryStringStart);
      Passed(c, buf, i, ReqQueryStringStart);
      if s != [] {
        forall k | 0 <= k < |s| ensures QueryChar(s[k]) && ParseUrlChar(ReqQueryString, s[k]) == ReqQueryString {
          TailChar(s[k]);
        }
        TailChar(s[0]);
        Entered(d, buf, i + 1, s, ReqQueryString, Query);
        d := Cursor(ReqQueryString, c.u[Query := Part(i + 1, |s|)], Some(Query), c.at);
      }
    }
  }

  lemma PathRun(c: Cursor, buf: Text, i: nat, path: Text, rest: Text) returns (d: Cursor)
    requires |buf| < HALF && EndsAt(buf, i, path + rest) && Path !in c.u && All(IsUrlChar, path)
    requires path != [] ==>
      (c.s.ReqServer? && path[0] == '/') || (c.s.ReqSpacesBeforeUrl? && (path[0] == '/' || path[0] == '*'))
    ensures d == if path == [] then c else Cursor(ReqPath, c.u[Path := Part(i, |path|)], Some(Path), c.at)
    ensures OuterRun(c, buf, i) == OuterRun(d, buf, i + |path|) && EndsAt(buf, i + |path|, rest)
  {
    hide OuterRun, ParseUrlChar, IsUrlChar;
    d := c;
    TailMark(c.s);
    StandsSplit(buf, i, path, rest);
    if path != [] {
      forall k | 0 <= k < |path| ensures IsUrlChar(path[k]) && ParseUrlChar(ReqPath, path[k]) == ReqPath {
        TailChar(path[k]);
      }
      Entered(c, buf, i, path, ReqPath, Path);
      d := Cursor(ReqPath, c.u[Path := Part(i, |path|)], Some(Path), c.at);
    }
  }

  /** Path, query and fragment. */
  lemma TailRun(c: Cursor, buf: Text, i: nat, t: Tail)
    requires |buf| < HALF && EndsAt(buf, i, TailText(t)) && TailOk(t) && Path !in c.u && Query !in c.u &&
      Fragment !in c.u
    requires c.s.ReqServer? || (c.s.ReqSpacesBeforeUrl? && t.path != [])
    requires t.path != [] ==> t.path[0] == '/' || (t.path[0] == '*' && c.s.ReqSpacesBeforeUrl?)
    ensures Gives(c, buf, i, TailFields(c.u, t, i))
  {
    hide OuterRun, ParseUrlChar, All, Put;
    PutOthers(c.u, Path, i, |t.path|);
    assert TailText(t) == t.path + (AfterMark('?', t.query) + AfterMark('#', t.fragment));
    var d := PathRun(c, buf, i, t.path, AfterMark('?', t.query) + AfterMark('#', t.fragment));
    var j := i + |t.path|;
    assert d.u == Put(c.u, Path, i, |t.path|) by {
      PutIs(c.u, Path, i, |t.path|);
    }
    var e := QueryRun(d, buf, j, t.query, AfterMark('#', t.fragment));
    PutOthers(d.u, Query, j + 1, |Given(t.query)|);
    FragmentRun(e, buf, j + |AfterMark('?', t.query)|, t.fragment);
  }

  lemma PutOthers(u: Fields, f: Uf, off: nat, len: nat)
    ensures forall g :: g != f ==> (g in Put(u, f, off, len) <==> g in u)
  {
  }

  lemma PutIs(u: Fields, f: Uf, off: nat, len: nat)
    ensures Put(u, f, off, len) == if len == 0 then u else u[f := Part(off, len)]
  {
  }

  // ----- The authority in the outer automaton

  predicate ServerText(ch: Byte) { IsUserinfoChar(ch) || ch == '[' || ch == ']' }

  lemma ServerStep(ch: Byte)
    requires ServerText(ch)
    ensures ParseUrlChar(ReqServerStart, ch) == ReqServer && ParseUrlChar(ReqServer, ch) == ReqServer
    ensures ParseUrlChar(ReqServerWithAt, ch) == ReqServer
  {
  }

  lemma ServerTexts(s: Text)
    ensures All(IsHostChar, s) || All(AddressChar, s) || All(ZoneOk, s) || All(IsNum, s) ==> All(ServerText, s)
  {
    forall k | 0 <= k < |s| ensures
      IsHostChar(s[k]) || AddressChar(s[k]) || ZoneOk(s[k]) || IsNum(s[k]) ==> ServerText(s[k])
    {
    }
  }

  lemma AllConcat(p: Byte -> bool, a: Text, b: Text)
    requires All(p, a) && All(p, b)
    ensures All(p, a + b)
  {
  }

  lemma OneOfAll(ch: Byte)
    requires ServerText(ch)
    ensures All(ServerText, [ch])
  {
  }

  /** Every character of a host and a port belongs to the server part. */
  lemma HostTextChars(a: Authority)
    requires AuthorityOk(a)
    ensures All(ServerText, HostText(a.host) + PortText(a.port)) && HostText(a.host) != []
  {
    match a.host
    case Name(name) =>
      ServerTexts(name);
    case Literal(address, zone) =>
      ServerTexts(address);
      ServerTexts(zone);
      OneOfAll('[');
      OneOfAll('%');
      OneOfAll(']');
    ServerTexts(a.port);
    OneOfAll(':');
    hide All, ServerText, IsHostChar, AddressChar, ZoneOk;
    AllConcat(ServerText, [':'], a.port);
    if a.host.Literal? {
      AllConcat(ServerText, ['%'], a.host.zone);
      AllConcat(ServerText, ['['], a.host.address);
      if a.host.zone != [] {
        AllConcat(ServerText, ['['] + a.host.address, ['%'] + a.host.zone);
      } else {
        assert ['['] + a.host.address + [] == ['['] + a.host.address;
      }
      AllConcat(ServerText, ['['] + a.host.address + ZoneText(a.host.zone), [']']);
    }
    if a.port != [] {
      AllConcat(ServerText, HostText(a.host), PortText(a.port));
    } else {
      assert HostText(a.host) + [] == HostText(a.host);
    }
  }

  /** The whole authority counts as host at first. */
  lemma ServerRun(c: Cursor, buf: Text, i: nat, a: Authority, rest: Text)
    requires |buf| < HALF && EndsAt(buf, i, AuthorityText(a) + rest) && AuthorityOk(a) && c.s.ReqServerStart? &&
      Host !in c.u && !c.at
    ensures var n := |AuthorityText(a)|;
      && EndsAt(buf, i + n, rest)
      && OuterRun(c, buf, i) ==
        OuterRun(Cursor(ReqServer, c.u[Host := Part(i, n)], Some(Host), a.userinfo != []), buf, i + n)
  {
    hide OuterRun, ParseUrlChar, ServerText, HostText, PortText, Stands, EndsAt, All;
    HostTextChars(a);
    EndsSplit(buf, i, AuthorityText(a), rest);
    var h := HostText(a.host) + PortText(a.port);
    if a.userinfo == [] {
      assert AuthorityText(a) == h by {
        assert [] + HostText(a.host) == HostText(a.host);
      }
      BareServerRun(c, buf, i, h);
    } else {
      assert AuthorityText(a) == a.userinfo + (['@'] + h);
      UserServerRun(c, buf, i, a.userinfo, h);
    }
  }

  lemma BareServerRun(c: Cursor, buf: Text, i: nat, h: Text)
    requires |buf| < HALF && Stands(buf, i, h) && h != [] && All(ServerText, h) && c.s.ReqServerStart? && Host !in c.u
    ensures OuterRun(c, buf, i) ==
      OuterRun(Cursor(ReqServer, c.u[Host := Part(i, |h|)], Some(Host), c.at), buf, i + |h|)
  {
    hide OuterRun, ParseUrlChar, ServerText;
    forall k | 0 <= k < |h| ensures ParseUrlChar(ReqServer, h[k]) == ReqServer {
      ServerStep(h[k]);
    }
    ServerStep(h[0]);
    Entered(c, buf, i, h, ReqServer, Host);
  }

  lemma UserServerRun(c: Cursor, buf: Text, i: nat, user: Text, h: Text)
    requires |buf| < HALF && Stands(buf, i, user + (['@'] + h)) && user != [] && h != [] && All(IsUserinfoChar, user)
    requires c.s.ReqServerStart? && Host !in c.u && All(ServerText, h)
    ensures var n := |user| + 1 + |h|;
      OuterRun(c, buf, i) == OuterRun(Cursor(ReqServer, c.u[Host := Part(i, n)], Some(Host), true), buf, i + n)
  {
    hide OuterRun, ParseUrlChar, IsUserinfoChar;
    StandsSplit(buf, i, user, ['@'] + h);
    var j := i + |user|;
    StandsSplit(buf, j, ['@'], h);
    forall k | 0 <= k < |user| ensures ParseUrlChar(ReqServer, user[k]) == ReqServer {
      assert ServerText(user[k]);
      ServerStep(user[k]);
    }
    ServerStep(user[0]);
    Entered(c, buf, i, user, ReqServer, Host);
    var d := Cursor(ReqServer, c.u[Host := Part(i, |user|)], Some(Host), c.at);
    assert buf[j] == buf[j..j + 1][0];
    AtSign(d, buf, j);
    var e := Cursor(ReqServerWithAt, d.u[Host := Longer(d.u[Host])], Some(Host), true);
    AfterAt(e, buf, j + 1, h);
    assert e.u[Host := Part(i, |user| + 1 + |h|)] == c.u[Host := Part(i, |user| + 1 + |h|)];
  }

  lemma AtSign(c: Cursor, buf: Text, i: nat)
    requires i < |buf| && buf[i] == '@' && c.s.ReqServer? && c.last == Some(Host) && Host in c.u
    ensures OuterRun(c, buf, i) ==
      OuterRun(Cursor(ReqServerWithAt, c.u[Host := Longer(c.u[Host])], Some(Host), true), buf, i + 1)
  {
  }

  lemma AfterAt(c: Cursor, buf: Text, i: nat, h: Text)
    requires |buf| < HALF && Stands(buf, i, h) && h != [] && All(ServerText, h)
    requires c.s.ReqServerWithAt? && c.last == Some(Host) && Host in c.u && End(c.u[Host]) == i && c.at
    ensures var u := c.u[Host := Part(c.u[Host].off, c.u[Host].len + |h|)];
      OuterRun(c, buf, i) == OuterRun(Cursor(ReqServer, u, Some(Host), true), buf, i + |h|)
  {
    hide ParseUrlChar, ServerText;
    assert buf[i] == buf[i..i + |h|][0];
    ServerStep(h[0]);
    var d := Cursor(ReqServer, c.u[Host := Longer(c.u[Host])], Some(Host), true);
    assert OuterNext(c, buf[i], i) == Some(d);
    hide OuterNext;
    forall k | i + 1 <= k < i + |h| ensures ParseUrlChar(ReqServer, buf[k]) == ReqServer {
      assert buf[i..i + |h|][k - i] == buf[k];
      ServerStep(h[k - i]);
    }
    Stretch(d, buf, i + 1, i + |h|, Host);
    assert d.u[Host := Part(c.u[Host].off, c.u[Host].len + |h|)] ==
      c.u[Host := Part(c.u[Host].off, c.u[Host].len + |h|)];
  }

  lemma SchemaChar(ch: Byte)
    ensures IsAlpha(ch) ==>
      ParseUrlChar(ReqSpacesBeforeUrl, ch) == ReqSchema && ParseUrlChar(ReqSchema, ch) == ReqSchema
    ensures ParseUrlChar(ReqSchema, ':') == ReqSchemaSlash && ParseUrlChar(ReqSchemaSlash, '/') == ReqSchemaSlashSlash
    ensures ParseUrlChar(ReqSchemaSlashSlash, '/') == ReqServerStart
  {
  }

  /** The schema and the "://" behind it. */
  lemma SchemaRun(buf: Text, schema: Text, rest: Text)
    requires |buf| < HALF && EndsAt(buf, 0, schema + [':', '/', '/'] + rest) && schema != [] && All(IsAlpha, schema)
    ensures var n := |schema|;
      && EndsAt(buf, n + 3, rest)
      && OuterRun(Start(false), buf, 0) ==
           OuterRun(Cursor(ReqServerStart, map[Schema := Part(0, n)], Some(Schema), false), buf, n + 3)
  {
    hide OuterRun, ParseUrlChar, IsAlpha, Stands, EndsAt;
    var n := |schema|;
    var marks: Text := [':', '/', '/'];
    assert schema + marks + rest == schema + (marks + rest);
    EndsSplit(buf, 0, schema, marks + rest);
    EndsSplit(buf, n, marks, rest);
    forall k | 0 <= k < n ensures ParseUrlChar(ReqSchema, schema[k]) == ReqSchema {
      SchemaChar(schema[k]);
    }
    SchemaChar(schema[0]);
    Entered(Start(false), buf, 0, schema, ReqSchema, Schema);
    assert Start(false).u[Schema := Part(0, n)] == map[Schema := Part(0, n)];
    SchemaMarks(Cursor(ReqSchema, map[Schema := Part(0, n)], Some(Schema), false), buf, n);
  }

  lemma SchemaMarks(c: Cursor, buf: Text, n: nat)
    requires Stands(buf, n, [':', '/', '/']) && c.s.ReqSchema?
    ensures n + 3 <= |buf|
    ensures OuterRun(c, buf, n) == OuterRun(c.(s := ReqServerStart), buf, n + 3)
  {
    hide OuterRun, ParseUrlChar;
    assert buf[n] == buf[n..n + 3][0] && buf[n + 1] == buf[n..n + 3][1] && buf[n + 2] == buf[n..n + 3][2];
    SchemaChar(':');
    Passed(c, buf, n, ReqSchemaSlash);
    Passed(c.(s := ReqSchemaSlash), buf, n + 1, ReqSchemaSlashSlash);
    Passed(c.(s := ReqSchemaSlashSlash), buf, n + 2, ReqServerStart);
  }

  // ----- The host automaton

  /** The states in which a field grows, and the field. */
  function Growing(s: HostState): Option<Uf> {
    match s
    case InUserinfo => Some(Userinfo)
    case InHost => Some(Host)
    case V6 => Some(Host)
    case V6Zone => Some(Host)
    case InPort => Some(Port)
    case _ => None
  }

  function Extended(u: Fields, f: Uf, n: nat): Fields
    requires f in u
  {
    u[f := Part(u[f].off, u[f].len + n)]
  }

  lemma GrowingTake(u: Fields, s: HostState, f: Uf, i: nat)
    requires Growing(s) == Some(f) && f in u && Host in u && u[f].len + 1 < HALF
    ensures HostTake(u, s, s, i) == Extended(u, f, 1)
  {
  }

  lemma {:induction false} HostStretch(s: HostState, u: Fields, buf: Text, i: nat, j: nat, b: nat, f: Uf)
    requires i <= j <= b <= |buf| && Growing(s) == Some(f) && f in u && Host in u && u[f].len + (j - i) < HALF
    requires forall k :: i <= k < j ==> ParseHostChar(s, buf[k]) == s
    ensures HostRun(s, u, buf, i, b) == HostRun(s, Extended(u, f, j - i), buf, j, b)
    decreases j - i
  {
    hide ParseHostChar, HostTake, Unfinished;
    if i < j {
      GrowingTake(u, s, f, i);
      HostStretch(s, Extended(u, f, 1), buf, i + 1, j, b, f);
      assert Extended(Extended(u, f, 1), f, j - i - 1) == Extended(u, f, j - i);
    } else {
      assert Extended(u, f, 0) == u;
    }
  }

  lemma HostStays(u: Fields, s: HostState, t: HostState, i: nat)
    requires Host in u
    ensures Host in HostTake(u, s, t, i)
  {
  }

  /** A first character that leads to a growing field, and more of the same. */
  lemma HostEntered(s: HostState, u: Fields, buf: Text, i: nat, x: Text, t: HostState, b: nat, f: Uf)
    requires Stands(buf, i, x) && x != [] && i + |x| <= b <= |buf| < HALF && Host in u && Growing(t) == Some(f)
    requires ParseHostChar(s, x[0]) == t && forall k :: 0 < k < |x| ==> ParseHostChar(t, x[k]) == t
    requires f in HostTake(u, s, t, i) && HostTake(u, s, t, i)[f].len + |x| - 1 < HALF
    ensures HostRun(s, u, buf, i, b) == HostRun(t, Extended(HostTake(u, s, t, i), f, |x| - 1), buf, i + |x|, b)
  {
    hide ParseHostChar, HostTake, Unfinished;
    assert buf[i] == buf[i..i + |x|][0];
    forall k | i + 1 <= k < i + |x| ensures ParseHostChar(t, buf[k]) == t {
      assert buf[i..i + |x|][k - i] == buf[k];
    }
    HostStays(u, s, t, i);
    HostStretch(t, HostTake(u, s, t, i), buf, i + 1, i + |x|, b, f);
  }

  /** A delimiter that belongs to no field. */
  lemma HostPassed(s: HostState, u: Fields, buf: Text, i: nat, t: HostState, b: nat)
    requires i < b <= |buf| && Host in u && ParseHostChar(s, buf[i]) == t && !t.HostDead? && HostTake(u, s, t, i) == u
    ensures HostRun(s, u, buf, i, b) == HostRun(t, u, buf, i + 1, b)
  {
    hide ParseHostChar, HostTake, Unfinished;
  }

  lemma HostCharSteps(ch: Byte)
    ensures IsUserinfoChar(ch) ==>
      ParseHostChar(UserinfoStart, ch) == InUserinfo && ParseHostChar(InUserinfo, ch) == InUserinfo
    ensures IsHostChar(ch) ==> ParseHostChar(HostStart, ch) == InHost && ParseHostChar(InHost, ch) == InHost
    ensures AddressChar(ch) ==> ParseHostChar(V6Start, ch) == V6 && ParseHostChar(V6, ch) == V6
    ensures ZoneOk(ch) ==> ParseHostChar(V6ZoneStart, ch) == V6Zone && ParseHostChar(V6Zone, ch) == V6Zone
    ensures IsNum(ch) ==> ParseHostChar(PortStart, ch) == InPort && ParseHostChar(InPort, ch) == InPort
  {
  }

  lemma HostMarks(s: HostState)
    ensures s.InUserinfo? ==> ParseHostChar(s, '@') == HostStart
    ensures s.HostStart? ==> ParseHostChar(s, '[') == V6Start
    ensures s.V6? ==> ParseHostChar(s, '%') == V6ZoneStart
    ensures s.V6? || s.V6Zone? ==> ParseHostChar(s, ']') == V6End
    ensures s.InHost? || s.V6End? ==> ParseHostChar(s, ':') == PortStart
  {
  }

  lemma HostTakes(u: Fields, s: HostState, t: HostState, i: nat)
    requires Host in u
    ensures t.HostStart? || t.V6Start? || t.V6End? || t.PortStart? ==> HostTake(u, s, t, i) == u
    ensures t.InUserinfo? && !s.InUserinfo? ==> HostTake(u, s, t, i) == u[Userinfo := Part(i % HALF, 1)]
    ensures t.InPort? && !s.InPort? ==> HostTake(u, s, t, i) == u[Port := Part(i % HALF, 1)]
    ensures (t.InHost? || t.V6?) && s != t && u[Host].len == 0 ==> HostTake(u, s, t, i) == u[Host := Part(i % HALF, 1)]
    ensures (t.V6ZoneStart? || t.V6Zone?) && u[Host].len + 1 < HALF ==> HostTake(u, s, t, i) == Extended(u, Host, 1)
  {
  }

  lemma UserEntered(u: Fields, buf: Text, i: nat, user: Text, b: nat)
    requires Stands(buf, i, user) && i + |user| <= b <= |buf| < HALF && Host in u && user != [] &&
      All(IsUserinfoChar, user)
    ensures HostRun(UserinfoStart, u, buf, i, b) ==
      HostRun(InUserinfo, u[Userinfo := Part(i, |user|)], buf, i + |user|, b)
  {
    hide HostRun, ParseHostChar, HostTake, IsUserinfoChar;
    forall k | 0 <= k < |user| ensures ParseHostChar(InUserinfo, user[k]) == InUserinfo {
      HostCharSteps(user[k]);
    }
    HostCharSteps(user[0]);
    HostTakes(u, UserinfoStart, InUserinfo, i);
    HostEntered(UserinfoStart, u, buf, i, user, InUserinfo, b, Userinfo);
    assert Extended(u[Userinfo := Part(i, 1)], Userinfo, |user| - 1) == u[Userinfo := Part(i, |user|)];
  }

  /** The user information and the '@' behind it. */
  lemma UserRun(u: Fields, buf: Text, i: nat, user: Text, b: nat)
    requires Stands(buf, i, user + ['@']) && i + |user| + 1 <= b <= |buf| < HALF && Host in u
    requires user != [] && All(IsUserinfoChar, user)
    ensures HostRun(UserinfoStart, u, buf, i, b) ==
      HostRun(HostStart, u[Userinfo := Part(i, |user|)], buf, i + |user| + 1, b)
  {
    hide HostRun, ParseHostChar, HostTake, All;
    StandsSplit(buf, i, user, ['@']);
    var j := i + |user|;
    assert buf[j] == buf[j..j + 1][0];
    hide Stands;
    UserEntered(u, buf, i, user, b);
    var v := u[Userinfo := Part(i, |user|)];
    HostMarks(InUserinfo);
    HostTakes(v, InUserinfo, HostStart, j);
    HostPassed(InUserinfo, v, buf, j, HostStart, b);
  }

  lemma NameRun(u: Fields, buf: Text, i: nat, name: Text, b: nat)
    requires Stands(buf, i, name) && i + |name| <= b <= |buf| < HALF && Host in u && u[Host].len == 0
    requires name != [] && All(IsHostChar, name)
    ensures HostRun(HostStart, u, buf, i, b) == HostRun(InHost, u[Host := Part(i, |name|)], buf, i + |name|, b)
  {
    hide HostRun, ParseHostChar, HostTake, IsHostChar;
    forall k | 0 <= k < |name| ensures ParseHostChar(InHost, name[k]) == InHost {
      HostCharSteps(name[k]);
    }
    HostCharSteps(name[0]);
    HostTakes(u, HostStart, InHost, i);
    HostEntered(HostStart, u, buf, i, name, InHost, b, Host);
    assert Extended(u[Host := Part(i, 1)], Host, |name| - 1) == u[Host := Part(i, |name|)];
  }

  lemma AddressRun(u: Fields, buf: Text, i: nat, address: Text, b: nat)
    requires Stands(buf, i, address) && i + |address| <= b <= |buf| < HALF && Host in u && u[Host].len == 0
    requires address != [] && All(AddressChar, address)
    ensures HostRun(V6Start, u, buf, i, b) == HostRun(V6, u[Host := Part(i, |address|)], buf, i + |address|, b)
  {
    hide HostRun, ParseHostChar, HostTake, AddressChar;
    forall k | 0 <= k < |address| ensures ParseHostChar(V6, address[k]) == V6 {
      HostCharSteps(address[k]);
    }
    HostCharSteps(address[0]);
    HostTakes(u, V6Start, V6, i);
    HostEntered(V6Start, u, buf, i, address, V6, b, Host);
    assert Extended(u[Host := Part(i, 1)], Host, |address| - 1) == u[Host := Part(i, |address|)];
  }

  /** The zone of an IPv6 address: it belongs to the host, with its '%'. */
  lemma ZoneRun(u: Fields, buf: Text, i: nat, zone: Text, b: nat) returns (s: HostState)
    requires Stands(buf, i, ZoneText(zone)) && i + |ZoneText(zone)| <= b <= |buf| < HALF && Host in u &&
      All(ZoneOk, zone)
    requires u[Host].len + |ZoneText(zone)| < HALF
    ensures s.V6? || s.V6Zone?
    ensures HostRun(V6, u, buf, i, b) == HostRun(s, Extended(u, Host, |ZoneText(zone)|), buf, i + |ZoneText(zone)|, b)
  {
    hide ParseHostChar, HostTake, ZoneOk, Unfinished;
    if zone == [] {
      assert Extended(u, Host, 0) == u;
      return V6;
    }
    StandsSplit(buf, i, ['%'], zone);
    assert buf[i] == buf[i..i + 1][0];
    HostMarks(V6);
    HostTakes(u, V6, V6ZoneStart, i);
    var v := Extended(u, Host, 1);
    assert HostRun(V6, u, buf, i, b) == HostRun(V6ZoneStart, v, buf, i + 1, b);
    hide HostRun;
    forall k | 0 <= k < |zone| ensures ParseHostChar(V6Zone, zone[k]) == V6Zone {
      HostCharSteps(zone[k]);
    }
    HostCharSteps(zone[0]);
    HostTakes(v, V6ZoneStart, V6Zone, i + 1);
    HostEntered(V6ZoneStart, v, buf, i + 1, zone, V6Zone, b, Host);
    assert Extended(Extended(v, Host, 1), Host, |zone| - 1) == Extended(u, Host, |ZoneText(zone)|);
    return V6Zone;
  }

  lemma LiteralRun(u: Fields, buf: Text, i: nat, h: HostName, b: nat)
    requires Stands(buf, i, HostText(h)) && i + |HostText(h)| <= b <= |buf| < HALF && Host in u && u[Host].len == 0
    requires h.Literal? && HostOk(h)
    ensures HostRun(HostStart, u, buf, i, b) == HostRun(V6End, u[Host := HostPart(h, i)], buf, i + |HostText(h)|, b)
  {
    hide HostRun, ParseHostChar, HostTake, All, ZoneText;
    var a, z := h.address, ZoneText(h.zone);
    assert HostText(h) == ['['] + (a + (z + [']']));
    StandsSplit(buf, i, ['['], a + (z + [']']));
    StandsSplit(buf, i + 1, a, z + [']']);
    var j := i + 1 + |a|;
    StandsSplit(buf, j, z, [']']);
    var e := j + |z|;
    assert buf[i] == buf[i..i + 1][0] && buf[e] == buf[e..e + 1][0];
    hide Stands;
    HostMarks(HostStart);
    HostTakes(u, HostStart, V6Start, i);
    HostPassed(HostStart, u, buf, i, V6Start, b);
    AddressRun(u, buf, i + 1, a, b);
    var v := u[Host := Part(i + 1, |a|)];
    var s := ZoneRun(v, buf, j, h.zone, b);
    var w := u[Host := HostPart(h, i)];
    assert Extended(v, Host, |z|) == w;
    HostMarks(s);
    HostTakes(w, s, V6End, e);
    HostPassed(s, w, buf, e, V6End, b);
  }

  /** The port, up to the end of the host region. */
  lemma DigitsRun(s: HostState, u: Fields, buf: Text, i: nat, port: Text, b: nat)
    requires Stands(buf, i, PortText(port)) && i + |PortText(port)| == b <= |buf| < HALF && Host in u && Port !in u
    requires (s.InHost? || s.V6End?) && All(IsNum, port)
    ensures HostRun(s, u, buf, i, b) == Some(Put(u, Port, i + 1, |port|))
  {
    hide ParseHostChar, HostTake, IsNum;
    if port != [] {
      StandsSplit(buf, i, [':'], port);
      assert buf[i] == buf[i..i + 1][0];
      HostMarks(s);
      HostTakes(u, s, PortStart, i);
      HostPassed(s, u, buf, i, PortStart, b);
      forall k | 0 <= k < |port| ensures ParseHostChar(InPort, port[k]) == InPort {
        HostCharSteps(port[k]);
      }
      HostCharSteps(port[0]);
      HostTakes(u, PortStart, InPort, i + 1);
      HostEntered(PortStart, u, buf, i + 1, port, InPort, b, Port);
      assert Extended(u[Port := Part(i + 1, 1)], Port, |port| - 1) == u[Port := Part(i + 1, |port|)];
    }
  }

  /** The second automaton takes an authority apart. */
  lemma AuthorityRun(u: Fields, buf: Text, i: nat, a: Authority)
    requires Stands(buf, i, AuthorityText(a)) && AuthorityOk(a) && |buf| < HALF
    requires Host in u && u[Host] == Part(i, |AuthorityText(a)|) && Port !in u && Userinfo !in u
    ensures HostSplit(buf, u, a.userinfo != []) == Some(AuthorityFields(u, a, i))
  {
    hide HostRun, All, HostText, PortText, Stands;
    var b := i + |AuthorityText(a)|;
    var ut, ht, pt := UserText(a.userinfo), HostText(a.host), PortText(a.port);
    assert AuthorityText(a) == ut + (ht + pt);
    StandsSplit(buf, i, ut, ht + pt);
    var h := i + |ut|;
    StandsSplit(buf, h, ht, pt);
    var u0 := u[Host := Part(i, 0)];
    var u1 := Put(u0, Userinfo, i, |a.userinfo|);
    if a.userinfo != [] {
      UserRun(u0, buf, i, a.userinfo, b);
    }
    HostPartRun(u1, buf, h, a, b);
    assert u1[Host := HostPart(a.host, h)] == Put(u, Userinfo, i, |a.userinfo|)[Host := HostPart(a.host, h)];
  }

  lemma HostPartRun(u: Fields, buf: Text, h: nat, a: Authority, b: nat)
    requires Stands(buf, h, HostText(a.host)) && Stands(buf, h + |HostText(a.host)|, PortText(a.port)) && AuthorityOk(a)
    requires h + |HostText(a.host)| + |PortText(a.port)| == b <= |buf| < HALF && Host in u && u[Host].len == 0 &&
      Port !in u
    ensures HostRun(HostStart, u, buf, h, b) ==
      Some(Put(u[Host := HostPart(a.host, h)], Port, h + |HostText(a.host)| + 1, |a.port|))
  {
    hide HostRun, All, PortText, Stands;
    var v := u[Host := HostPart(a.host, h)];
    if a.host.Name? {
      NameRun(u, buf, h, a.host.name, b);
    } else {
      LiteralRun(u, buf, h, a.host, b);
    }
    DigitsRun(if a.host.Name? then InHost else V6End, v, buf, h + |HostText(a.host)|, a.port, b);
  }

  // ----- The theorem

  lemma {:induction false} PortValue(buf: Text, from: nat, p: nat, end: nat)
    requires from <= p <= end <= |buf| && AllNum(buf, from, end) && Decimal(buf[from..end]) <= 0xffff
    ensures AllNum(buf, from, p)
    ensures PortRun(buf, p, end, Decimal(buf[from..p])) == Some(Decimal(buf[from..end]))
    decreases end - p
  {
    hide Decimal;
    if p < end {
      DecimalNext(buf, from, p);
      DecimalGrows(buf, from, p + 1, end);
      PortValue(buf, from, p + 1, end);
    }
  }

  lemma PortRead(buf: Text, off: nat, port: Text)
    requires Stands(buf, off, port) && All(IsNum, port) && Decimal(port) <= 0xffff
    ensures PortRun(buf, off, off + |port|, 0) == Some(Decimal(port))
  {
    assert forall k :: off <= k < off + |port| ==> buf[k] == buf[off..off + |port|][k - off];
    DecimalEmpty(buf, off);
    PortValue(buf, off, off, off + |port|);
  }

  lemma PortStands(buf: Text, i: nat, a: Authority)
    requires Stands(buf, i, AuthorityText(a)) && a.port != []
    ensures Stands(buf, i + |UserText(a.userinfo)| + |HostText(a.host)| + 1, a.port)
  {
    hide Stands, UserText, HostText;
    var front := UserText(a.userinfo) + HostText(a.host) + [':'];
    assert AuthorityText(a) == front + a.port;
    StandsSplit(buf, i, front, a.port);
  }

  /** The last step for a URL with an authority that stands at i. */
  lemma AuthorityPort(buf: Text, u: Fields, a: Authority, i: nat, isConnect: bool)
    requires Stands(buf, i, AuthorityText(a)) && AuthorityOk(a) && Port !in u
    requires isConnect ==> AuthorityFields(u, a, i).Keys == {Host, Port}
    ensures var v := AuthorityFields(u, a, i);
      (Port in v ==> End(v[Port]) <= |buf|) && Ported(buf, v, isConnect) == Some((v, Decimal(a.port)))
  {
    var v := AuthorityFields(u, a, i);
    hide HostPart, Stands, PortRun;
    if a.port != [] {
      PortStands(buf, i, a);
      PortFits(buf, v[Port].off, a.port);
      PortRead(buf, v[Port].off, a.port);
    }
  }

  lemma PortFits(buf: Text, i: nat, s: Text)
    requires Stands(buf, i, s)
    ensures i + |s| <= |buf|
  {
  }

  lemma OriginSplit(t: Tail)
    requires UrlOk(Origin(t)) && |TailText(t)| < HALF
    ensures Split(TailText(t), false) == Some((TailFields(map[], t, 0), 0))
  {
    var buf := TailText(t);
    hide OuterRun, TailText, All;
    TailNotEmpty(t);
    assert buf[0..|buf|] == buf;
    TailRun(Start(false), buf, 0, t);
    TailKeys(map[], t, 0);
    hide TailFields;
  }

  lemma TailNotEmpty(t: Tail)
    requires t.path != []
    ensures TailText(t) != []
  {
  }

  lemma TailKeys(u: Fields, t: Tail, off: nat)
    ensures var v := TailFields(u, t, off);
      && (Schema in v <==> Schema in u) && (Userinfo in v <==> Userinfo in u) && (Port in v <==> Port in u)
      && (Host in v <==> Host in u) && (Host in u ==> v[Host] == u[Host])
  {
  }

  lemma AuthorityNotEmpty(a: Authority)
    requires AuthorityOk(a)
    ensures AuthorityText(a) != []
  {
    HostTextChars(a);
  }

  lemma ConnectSplit(a: Authority)
    requires UrlOk(Connect(a)) && |AuthorityText(a)| < HALF
    ensures Split(AuthorityText(a), true) == Some((AuthorityFields(map[], a, 0), Decimal(a.port)))
  {
    var buf := AuthorityText(a);
    AuthorityNotEmpty(a);
    assert buf[0..|buf|] == buf && buf + [] == buf;
    hide OuterRun, HostSplit, AuthorityText, All, Ported, AuthorityOk;
    ServerRun(Start(true), buf, 0, a, []);
    var u: Fields := map[][Host := Part(0, |buf|)];
    AtEnd(Cursor(ReqServer, u, Some(Host), false), buf);
    AuthorityRun(u, buf, 0, a);
    AuthorityOver(map[], a, 0, Part(0, |buf|));
    AuthorityKeys(a);
    AuthorityPort(buf, map[], a, 0, true);
    hide AuthorityFields;
  }

  lemma AuthorityKeys(a: Authority)
    requires a.userinfo == [] && a.port != []
    ensures AuthorityFields(map[], a, 0).Keys == {Host, Port}
  {
    hide HostPart, HostText;
  }

  /** What the host field was before makes no difference. */
  lemma AuthorityOver(u: Fields, a: Authority, off: nat, f: Part)
    ensures AuthorityFields(u[Host := f], a, off) == AuthorityFields(u, a, off)
  {
    hide HostPart, HostText;
  }

  lemma TailCommutes(u: Fields, t: Tail, off: nat, f: Part)
    ensures TailFields(u[Host := f], t, off) == TailFields(u, t, off)[Host := f]
  {
  }

  lemma SplitHost(buf: Text, isConnect: bool, c: Cursor, v: Fields, r: (Fields, nat))
    requires buf != [] && OuterRun(Start(isConnect), buf, 0) == Some(c) && Host in c.u && End(c.u[Host]) <= |buf|
    requires HostSplit(buf, c.u, c.at) == Some(v)
    requires (Port in v ==> End(v[Port]) <= |buf|) && Ported(buf, v, isConnect) == Some(r)
    ensures Split(buf, isConnect) == Some(r)
  {
    hide OuterRun, HostSplit, Ported;
  }

  lemma WholeStands(buf: Text)
    ensures EndsAt(buf, 0, buf)
  {
    assert buf[0..|buf|] == buf;
  }

  lemma AbsoluteOuter(schema: Text, a: Authority, t: Tail, buf: Text) returns (c: Cursor)
    requires UrlOk(Absolute(schema, a, t)) && |buf| < HALF &&
      buf == schema + [':', '/', '/'] + (AuthorityText(a) + TailText(t))
    ensures OuterRun(Start(false), buf, 0) == Some(c) && c.at == (a.userinfo != [])
    ensures var n, m := |schema| + 3, |AuthorityText(a)|;
      c.u == TailFields(map[Schema := Part(0, |schema|)][Host := Part(n, m)], t, n + m) &&
        Stands(buf, n, AuthorityText(a))
  {
    WholeStands(buf);
    hide OuterRun, AuthorityText, TailText, All, AuthorityOk, TailOk, TailFields, Stands;
    SchemaRun(buf, schema, AuthorityText(a) + TailText(t));
    var n, m := |schema| + 3, |AuthorityText(a)|;
    var s := Cursor(ReqServerStart, map[Schema := Part(0, |schema|)], Some(Schema), false);
    ServerRun(s, buf, n, a, TailText(t));
    EndsSplit(buf, n, AuthorityText(a), TailText(t));
    hide EndsAt;
    var d := Cursor(ReqServer, s.u[Host := Part(n, m)], Some(Host), a.userinfo != []);
    TailRun(d, buf, n + m, t);
    c := OuterRun(d, buf, n + m).value;
  }

  /** The host is divided last; w are the other fields. */
  lemma HostLast(w: Fields, a: Authority, buf: Text, n: nat, c: Cursor)
    requires AuthorityOk(a) && |buf| < HALF && Stands(buf, n, AuthorityText(a)) && buf != [] && Port !in w &&
      Userinfo !in w
    requires OuterRun(Start(false), buf, 0) == Some(c) && c.at == (a.userinfo != [])
    requires c.u == w[Host := Part(n, |AuthorityText(a)|)]
    ensures Split(buf, false) == Some((AuthorityFields(w, a, n), Decimal(a.port)))
  {
    var port := Decimal(a.port);
    hide OuterRun, HostSplit, AuthorityText, All, Ported, AuthorityOk, AuthorityFields, Stands, Split;
    PortFits(buf, n, AuthorityText(a));
    AuthorityRun(c.u, buf, n, a);
    AuthorityOver(w, a, n, Part(n, |AuthorityText(a)|));
    AuthorityPort(buf, w, a, n, false);
    var v := AuthorityFields(w, a, n);
    SplitHost(buf, false, c, v, (v, port));
  }

  lemma AbsoluteSplit(schema: Text, a: Authority, t: Tail)
    requires UrlOk(Absolute(schema, a, t)) && |UrlText(Absolute(schema, a, t))| < HALF
    ensures Split(UrlText(Absolute(schema, a, t)), false) == Some((UrlFields(Absolute(schema, a, t)), Decimal(a.port)))
  {
    var buf := UrlText(Absolute(schema, a, t));
    assert buf == schema + [':', '/', '/'] + (AuthorityText(a) + TailText(t));
    var n, m := |schema| + 3, |AuthorityText(a)|;
    var u: Fields := map[Schema := Part(0, |schema|)];
    var c := AbsoluteOuter(schema, a, t, buf);
    hide OuterRun, Split, AuthorityText, TailText, All, TailFields, AuthorityFields, Stands;
    TailKeys(u, t, n + m);
    TailCommutes(u, t, n + m, Part(n, m));
    HostLast(TailFields(u, t, n + m), a, buf, n, c);
  }

  /** Writing a URL down and splitting the text gives back every part of it, and its port. */
  lemma UrlRoundTrip(u: Url)
    requires UrlOk(u) && |UrlText(u)| < HALF
    ensures Split(UrlText(u), u.Connect?) == Some((UrlFields(u), PortOf(u)))
  {
    match u
    case Absolute(schema, authority, tail) => AbsoluteSplit(schema, authority, tail);
    case Origin(tail) => OriginSplit(tail);
    case Connect(authority) => ConnectSplit(authority);
  }
}
