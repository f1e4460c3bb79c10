/** Printing the parts of a URL and parsing the text gives the parts back. */
module UrlRoundTrip {
  import opened Options
  import opened HttpTypes
  import opened HttpVisit
  import opened Urls

  datatype HostName = Name(text: string) | V6(address: string, zone: string)

  /** The parts of an absolute URL; a part that is empty is absent. */
  datatype Parts = Parts(schema: string, userinfo: string, host: HostName, port: string, path: string, query: string,
    fragment: string)

  // ----- Printing -----

  /** The host as the parser reports it. */
  function HostOf(h: HostName): string {
    match h
    case Name(text) => text
    case V6(address, zone) => address + Optional("%", zone)
  }

  function Optional(mark: string, x: string): string {
    if x == "" then "" else mark + x
  }

  function HostPrinted(h: HostName): string {
    if h.V6? then "[" + HostOf(h) + "]" else HostOf(h)
  }

  function UserInfoPrinted(x: string): string {
    if x == "" then "" else x + "@"
  }

  function Authority(userinfo: string, h: HostName, port: string): string {
    UserInfoPrinted(userinfo) + (HostPrinted(h) + Optional(":", port))
  }

  function Tail(path: string, query: string, fragment: string): string {
    path + (Optional("?", query) + Optional("#", fragment))
  }

  function Printed(p: Parts): string {
    p.schema + ("://" + (Authority(p.userinfo, p.host, p.port) + Tail(p.path, p.query, p.fragment)))
  }

  // ----- Well-formed parts -----

  predicate AllIn(x: string, p: char -> bool) {
    forall c <- x :: p(c)
  }

  predicate IsHostName(h: HostName) {
    match h
    case Name(text) => text != "" && AllIn(text, IsHostChar)
    case V6(address, zone) => address != "" && AllIn(address, IsV6Char) && AllIn(zone, IsZoneChar)
  }

  predicate IsQueryChar(c: char) {
    IsUrlChar(c) || c == '?'
  }

  predicate IsFragmentChar(c: char) {
    IsUrlChar(c) || c == '?' || c == '#'
  }

  predicate IsPort(x: string) {
    AllIn(x, IsNum) && PortValue(x) <= 65535
  }

  predicate AreParts(p: Parts) {
    && p.schema != "" && AllIn(p.schema, IsAlpha)
    && AllIn(p.userinfo, IsUserInfoChar) && IsHostName(p.host) && IsPort(p.port)
    && AllIn(p.path, IsUrlChar) && (p.path != "" ==> p.path[0] == '/')
    && AllIn(p.query, IsQueryChar)
    && AllIn(p.fragment, IsFragmentChar) && (p.fragment != "" ==> p.fragment[0] != '#')
  }

  // ----- The first scan -----

  lemma {:induction false} ScanAppend(x: Scan, a: string, b: string, i: nat)
    ensures ScanText(x, a + b, i) == match ScanText(x, a, i) case None => None case Some(y) => ScanText(y, b, i + |a|)
    decreases |b|
  {
    hide ScanByte;
    if b == "" {
      assert a + b == a;
    } else {
      ScanAppend(x, a, b[..|b| - 1], i);
      assert (a + b)[..|a + b| - 1] == a + b[..|b| - 1];
    }
  }

  lemma ScanOne(x: Scan, c: char, i: nat)
    ensures ScanText(x, [c], i) == ScanByte(x, c, i)
  {
    assert [c][..0] == "";
  }

  /** A field that is read in one state. */
  lemma {:induction false} StateRun(x: Scan, text: string, i: nat, s: State, f: UrlField)
    requires text != "" && FieldOf(s) == Some(f) && !s.ReqServerWithAt? && x.current != Some(f)
    requires ParseUrlChar(x.s, text[0]) == s && forall k | 0 < k < |text| :: ParseUrlChar(s, text[k]) == s
    ensures ScanText(x, text, i) == Some(Scan(s, Some(f), x.foundAt, x.data[f := Slice(i, |text|)]))
  {
    hide ParseUrlChar, ScanByte, FieldOf;
    var front, c := text[..|text| - 1], text[|text| - 1];
    if |text| == 1 {
      assert text == [c];
      ScanOne(x, c, i);
      ScanStep(x, c, i);
      AliveState(s);
    } else {
      StateRun(x, front, i, s, f);
      ScanStep(Scan(s, Some(f), x.foundAt, x.data[f := Slice(i, |front|)]), c, i + |front|);
      AliveState(s);
      assert Grown(x.data[f := Slice(i, |front|)], f) == x.data[f := Slice(i, |text|)];
    }
  }

  lemma AliveState(s: State)
    ensures FieldOf(s).Some? ==> !s.Dead?
  {
  }

  lemma Delimiter(x: Scan, c: char, i: nat, s: State)
    requires ParseUrlChar(x.s, c) == s && FieldOf(s).None? && !s.Dead?
    ensures ScanText(x, [c], i) == Some(x.(s := s))
  {
    hide ParseUrlChar, ScanByte;
    ScanOne(x, c, i);
    ScanStep(x, c, i);
  }

  predicate IsServerChar(c: char) {
    IsUserInfoChar(c) || c == '[' || c == ']'
  }

  predicate IsServerState(s: State) {
    s.ReqServerStart? || s.ReqServer? || s.ReqServerWithAt?
  }

  lemma ServerByte(s: State, c: char)
    requires IsServerState(s) && IsServerChar(c)
    ensures ParseUrlChar(s, c) == ReqServer
  {
    hide IsUserInfoChar;
    ServerCharIsPlain(c);
  }

  lemma ServerCharIsPlain(c: char)
    requires IsServerChar(c)
    ensures ServerChar(c) == ReqServer && c != ' ' && !IsLineEnd(c) && c != '\t' && c != 12 as char && c != '@'
  {
  }

  /** More of the part that is the host in the first scan. */
  function MoreHost(x: Scan, i: nat, n: nat): FieldData {
    if x.current == Some(HOST) && HOST in x.data then x.data[HOST := Slice(x.data[HOST].off, x.data[HOST].len + n)]
    else x.data[HOST := Slice(i, n)]
  }

  lemma {:induction false} ServerRun(x: Scan, text: string, i: nat)
    requires text != "" && IsServerState(x.s) && AllIn(text, IsServerChar)
             && (x.current == Some(HOST) ==> HOST in x.data)
    ensures ScanText(x, text, i) == Some(Scan(ReqServer, Some(HOST), x.foundAt, MoreHost(x, i, |text|)))
  {
    hide ParseUrlChar, ScanByte, IsServerChar;
    var front, c := text[..|text| - 1], text[|text| - 1];
    assert c in text;
    if |text| == 1 {
      assert text == [c];
      ScanOne(x, c, i);
      ScanStep(x, c, i);
      ServerByte(x.s, c);
    } else {
      assert forall d <- front :: d in text;
      ServerRun(x, front, i);
      var y := Scan(ReqServer, Some(HOST), x.foundAt, MoreHost(x, i, |front|));
      ScanStep(y, c, i + |front|);
      ServerByte(y.s, c);
      assert Grown(y.data, HOST) == MoreHost(x, i, |text|);
    }
  }

  lemma AtByte(x: Scan, i: nat)
    requires x.s.ReqServer? && x.current == Some(HOST) && HOST in x.data
    ensures ScanText(x, "@", i) == Some(Scan(ReqServerWithAt, Some(HOST), true, MoreHost(x, i, 1)))
  {
    hide ScanByte;
    ScanOne(x, '@', i);
    ScanStep(x, '@', i);
  }

  lemma HostIsServer(h: HostName)
    requires IsHostName(h)
    ensures HostPrinted(h) != "" && AllIn(HostPrinted(h), IsServerChar) && HostOf(h) != ""
  {
    match h
    case Name(text) =>
      forall c | c in text ensures IsServerChar(c) { assert IsHostChar(c); }
    case V6(address, zone) =>
      forall c | c in HostPrinted(h) ensures IsServerChar(c) {
        assert c == '[' || c == ']' || c == '%' || c in address || c in zone;
        assert c in address ==> IsV6Char(c);
        assert c in zone ==> IsZoneChar(c);
      }
  }

  lemma PortIsServer(h: HostName, port: string)
    requires IsHostName(h) && AllIn(port, IsNum)
    ensures AllIn(HostPrinted(h) + Optional(":", port), IsServerChar)
  {
    HostIsServer(h);
    forall c | c in HostPrinted(h) + Optional(":", port) ensures IsServerChar(c) {
      assert c in HostPrinted(h) || c == ':' || c in port;
      assert c in port ==> IsNum(c);
    }
  }

  /** The whole authority is the host of the first scan. */
  lemma AuthorityScan(x: Scan, userinfo: string, h: HostName, port: string, i: nat)
    requires x.s.ReqServerStart? && x.current != Some(HOST) && !x.foundAt
    requires AllIn(userinfo, IsUserInfoChar) && IsHostName(h) && AllIn(port, IsNum)
    ensures ScanText(x, Authority(userinfo, h, port), i) ==
            Some(Scan(ReqServer, Some(HOST), userinfo != "", x.data[HOST := Slice(i, |Authority(userinfo, h, port)|)]))
  {
    hide ScanText, HostPrinted, IsServerChar, IsUserInfoChar, IsNum;
    var rest := HostPrinted(h) + Optional(":", port);
    HostIsServer(h);
    PortIsServer(h, port);
    if userinfo == "" {
      assert Authority(userinfo, h, port) == rest;
      ServerRun(x, rest, i);
    } else {
      UserInfoIsServer(userinfo);
      var n := |userinfo|;
      var y := Scan(ReqServer, Some(HOST), false, x.data[HOST := Slice(i, n)]);
      var z := Scan(ReqServerWithAt, Some(HOST), true, x.data[HOST := Slice(i, n + 1)]);
      ServerRun(x, userinfo, i);
      AtByte(y, i + n);
      assert MoreHost(y, i + n, 1) == z.data;
      ScanAppend(x, userinfo, "@", i);
      ServerRun(z, rest, i + n + 1);
      ScanAppend(x, userinfo + "@", rest, i);
      assert MoreHost(z, i + n + 1, |rest|) == x.data[HOST := Slice(i, n + 1 + |rest|)];
    }
  }

  lemma UserInfoIsServer(x: string)
    requires AllIn(x, IsUserInfoChar)
    ensures AllIn(x, IsServerChar)
  {
    forall c | c in x ensures IsServerChar(c) { assert IsUserInfoChar(c); }
  }

  function WithPart(d: FieldData, f: UrlField, i: nat, x: string): FieldData {
    if x == "" then d else d[f := Slice(i, |x|)]
  }

  function QueryAt(i: nat, path: string): nat {
    i + |path| + 1
  }

  function FragmentAt(i: nat, path: string, query: string): nat {
    i + |path| + |Optional("?", query)| + 1
  }

  /** The fields of a path, a query and a fragment that begin at `i`. */
  function WithTail(d: FieldData, i: nat, path: string, query: string, fragment: string): FieldData {
    WithPart(WithPart(WithPart(d, PATH, i, path), QUERY, QueryAt(i, path), query), FRAGMENT, FragmentAt(i, path, query),
      fragment)
  }

  predicate IsBeforePath(x: Scan) {
    (x.s.ReqServer? && x.current == Some(HOST)) || (x.s.ReqSpacesBeforeUrl? && x.current.None?)
  }

  lemma PathRun(x: Scan, path: string, i: nat)
    requires IsBeforePath(x) && path != "" && AllIn(path, IsUrlChar) && path[0] == '/'
    ensures ScanText(x, path, i) == Some(Scan(ReqPath, Some(PATH), x.foundAt, x.data[PATH := Slice(i, |path|)]))
  {
    hide ScanText;
    forall k | 0 < k < |path| ensures ParseUrlChar(ReqPath, path[k]) == ReqPath {
      assert IsUrlChar(path[k]);
    }
    StateRun(x, path, i, ReqPath, PATH);
  }

  lemma QueryByte(c: char)
    requires IsQueryChar(c)
    ensures ParseUrlChar(ReqQueryString, c) == ReqQueryString && ParseUrlChar(ReqQueryStringStart, c) == ReqQueryString
  {
  }

  lemma FragmentByte(c: char)
    requires IsFragmentChar(c)
    ensures ParseUrlChar(ReqFragment, c) == ReqFragment
    ensures c != '#' ==> ParseUrlChar(ReqFragmentStart, c) == ReqFragment
  {
  }

  /** The bytes before a query and before a fragment. */
  lemma MarkBytes(s: State)
    ensures s.ReqServer? || s.ReqPath? ==> ParseUrlChar(s, '?') == ReqQueryStringStart
    ensures s.ReqPath? || s.ReqQueryString? ==> ParseUrlChar(s, '#') == ReqFragmentStart
  {
  }

  lemma QueryRun(x: Scan, query: string, i: nat)
    requires x.s.ReqServer? || x.s.ReqPath?
    requires query != "" && AllIn(query, IsQueryChar) && x.current != Some(QUERY)
    ensures ScanText(x, "?" + query, i)
            == Some(Scan(ReqQueryString, Some(QUERY), x.foundAt, x.data[QUERY := Slice(i + 1, |query|)]))
  {
    hide ScanText, ParseUrlChar, IsQueryChar;
    forall k | 0 <= k < |query|
      ensures ParseUrlChar(ReqQueryString, query[k]) == ReqQueryString
              && ParseUrlChar(ReqQueryStringStart, query[k]) == ReqQueryString {
      assert IsQueryChar(query[k]);
      QueryByte(query[k]);
    }
    MarkBytes(x.s);
    Delimiter(x, '?', i, ReqQueryStringStart);
    StateRun(x.(s := ReqQueryStringStart), query, i + 1, ReqQueryString, QUERY);
    ScanAppend(x, "?", query, i);
  }

  lemma FragmentRun(x: Scan, fragment: string, i: nat)
    requires x.s.ReqPath? || x.s.ReqQueryString?
    requires fragment != "" && fragment[0] != '#' && AllIn(fragment, IsFragmentChar) && x.current != Some(FRAGMENT)
    ensures ScanText(x, "#" + fragment, i)
            == Some(Scan(ReqFragment, Some(FRAGMENT), x.foundAt, x.data[FRAGMENT := Slice(i + 1, |fragment|)]))
  {
    hide ScanText, ParseUrlChar, IsFragmentChar;
    forall k | 0 <= k < |fragment|
      ensures ParseUrlChar(ReqFragment, fragment[k]) == ReqFragment
              && (fragment[k] != '#' ==> ParseUrlChar(ReqFragmentStart, fragment[k]) == ReqFragment) {
      assert IsFragmentChar(fragment[k]);
      FragmentByte(fragment[k]);
    }
    MarkBytes(x.s);
    Delimiter(x, '#', i, ReqFragmentStart);
    StateRun(x.(s := ReqFragmentStart), fragment, i + 1, ReqFragment, FRAGMENT);
    ScanAppend(x, "#", fragment, i);
  }

  predicate IsTail(path: string, query: string, fragment: string) {
    && AllIn(path, IsUrlChar) && (path != "" ==> path[0] == '/')
    && AllIn(query, IsQueryChar)
    && AllIn(fragment, IsFragmentChar) && (fragment != "" ==> fragment[0] != '#')
  }

  /** Path and query. */
  lemma PathAndQuery(x: Scan, path: string, query: string, i: nat)
    requires IsBeforePath(x) && (x.s.ReqSpacesBeforeUrl? ==> path != "") && IsTail(path, query, "")
    ensures var y := ScanText(x, path + Optional("?", query), i);
            && y.Some? && y.value.foundAt == x.foundAt && y.value.data == WithTail(x.data, i, path, query, "")
            && y.value.s == (if query != "" then ReqQueryString else if path != "" then ReqPath else x.s)
            && y.value.current == (if query != "" then Some(QUERY) else if path != "" then Some(PATH) else x.current)
  {
    hide ScanText, IsUrlChar, ParseUrlChar;
    ScanAppend(x, path, Optional("?", query), i);
    ScanNothing(x, i);
    if path != "" {
      PathRun(x, path, i);
    }
    var y := ScanText(x, path, i).value;
    ScanNothing(y, i + |path|);
    if query != "" {
      QueryRun(y, query, i + |path|);
    }
  }

  lemma ScanNothing(x: Scan, i: nat)
    ensures ScanText(x, "", i) == Some(x)
  {
  }

  /** The rest of a URL after its host; a fragment directly after the host is refused. */
  lemma TailScan(x: Scan, path: string, query: string, fragment: string, i: nat)
    requires IsBeforePath(x) && (x.s.ReqSpacesBeforeUrl? ==> path != "") && IsTail(path, query, fragment)
    ensures match ScanText(x, Tail(path, query, fragment), i)
            case None => fragment != "" && path == "" && query == ""
            case Some(y) => !(fragment != "" && path == "" && query == "")
                            && y.data == WithTail(x.data, i, path, query, fragment) && y.foundAt == x.foundAt
  {
    hide ScanText, IsUrlChar, ParseUrlChar, ScanByte;
    var front := path + Optional("?", query);
    assert Tail(path, query, fragment) == front + Optional("#", fragment);
    ScanAppend(x, front, Optional("#", fragment), i);
    PathAndQuery(x, path, query, i);
    var y := ScanText(x, front, i).value;
    ScanNothing(y, i + |front|);
    if fragment != "" {
      if path == "" && query == "" {
        HashAfterHost(y, fragment, i + |front|);
      } else {
        FragmentRun(y, fragment, i + |front|);
      }
    }
  }

  lemma {:induction false} HashAfterHost(x: Scan, fragment: string, i: nat)
    requires x.s.ReqServer?
    ensures ScanText(x, "#" + fragment, i).None?
  {
    ScanOne(x, '#', i);
    ScanAppend(x, "#", fragment, i);
  }

  lemma SlashesRun(x: Scan, i: nat)
    requires x.s.ReqSchema?
    ensures ScanText(x, "://", i) == Some(x.(s := ReqServerStart))
  {
    hide ScanText, ScanByte;
    Delimiter(x, ':', i, ReqSchemaSlash);
    Delimiter(x.(s := ReqSchemaSlash), '/', i + 1, ReqSchemaSlashSlash);
    Delimiter(x.(s := ReqSchemaSlashSlash), '/', i + 2, ReqServerStart);
    assert "://" == ":" + "//" && "//" == "/" + "/";
    ScanAppend(x, ":", "//", i);
    ScanAppend(x.(s := ReqSchemaSlash), "/", "/", i + 1);
  }

  lemma SchemaRun(schema: string)
    requires schema != "" && AllIn(schema, IsAlpha)
    ensures ScanText(StartScan(false), schema + "://", 0)
            == Some(Scan(ReqServerStart, Some(SCHEMA), false, map[SCHEMA := Slice(0, |schema|)]))
  {
    hide ScanText;
    forall k | 0 <= k < |schema|
      ensures ParseUrlChar(ReqSchema, schema[k]) == ReqSchema
              && ParseUrlChar(ReqSpacesBeforeUrl, schema[k]) == ReqSchema {
      assert IsAlpha(schema[k]);
    }
    StateRun(StartScan(false), schema, 0, ReqSchema, SCHEMA);
    SlashesRun(Scan(ReqSchema, Some(SCHEMA), false, map[SCHEMA := Slice(0, |schema|)]), |schema|);
    ScanAppend(StartScan(false), schema, "://", 0);
  }

  // ----- The second scan -----

  lemma {:induction false} HostAppend(h: HostScan, a: string, b: string, i: nat)
    ensures HostText(h, a + b, i) == match HostText(h, a, i) case None => None case Some(g) => HostText(g, b, i + |a|)
    decreases |b|
  {
    hide HostByte;
    if b == "" {
      assert a + b == a;
    } else {
      HostAppend(h, a, b[..|b| - 1], i);
      assert (a + b)[..|a + b| - 1] == a + b[..|b| - 1];
    }
  }

  lemma HostOne(h: HostScan, c: char, i: nat)
    ensures HostText(h, [c], i) == HostByte(h, c, i)
  {
    assert [c][..0] == "";
  }

  lemma HostNothing(h: HostScan, i: nat)
    ensures HostText(h, "", i) == Some(h)
  {
  }

  /** A part that is read in one state. */
  lemma {:induction false} PartRun(h: HostScan, text: string, i: nat, s: HostState, f: UrlField)
    requires text != "" && ((s.UserInfo? && f == USERINFO) || (s.HostPort? && f == PORT)) && h.s != s
    requires ParseHostChar(h.s, text[0]) == s && forall k | 0 < k < |text| :: ParseHostChar(s, text[k]) == s
    ensures HostText(h, text, i) == Some(HostScan(s, h.data[f := Slice(i, |text|)]))
  {
    hide ParseHostChar;
    var front, c := text[..|text| - 1], text[|text| - 1];
    if |text| == 1 {
      assert text == [c];
      HostOne(h, c, i);
    } else {
      PartRun(h, front, i, s, f);
      assert Grown(h.data[f := Slice(i, |front|)], f) == h.data[f := Slice(i, |text|)];
    }
  }

  /** The bytes of the host itself. */
  lemma {:induction false} NameRun(h: HostScan, text: string, i: nat, s: HostState)
    requires text != "" && (s.Host? || s.HostV6?) && h.s != s && HOST in h.data && h.data[HOST].len == 0
    requires ParseHostChar(h.s, text[0]) == s && forall k | 0 < k < |text| :: ParseHostChar(s, text[k]) == s
    ensures HostText(h, text, i) == Some(HostScan(s, h.data[HOST := Slice(i, |text|)]))
  {
    hide ParseHostChar;
    var front, c := text[..|text| - 1], text[|text| - 1];
    if |text| == 1 {
      assert text == [c];
      HostOne(h, c, i);
    } else {
      NameRun(h, front, i, s);
      assert h.data[HOST := Slice(i, |front|)][HOST := Slice(i, |text|)] == h.data[HOST := Slice(i, |text|)];
    }
  }

  /** A host that is `n` bytes longer. */
  function LongerHost(d: FieldData, n: nat): FieldData
    requires HOST in d
  {
    d[HOST := Slice(d[HOST].off, d[HOST].len + n)]
  }

  lemma PercentGrows(h: HostScan, i: nat)
    requires h.s.HostV6? && HOST in h.data
    ensures HostText(h, "%", i) == Some(HostScan(HostV6ZoneStart, LongerHost(h.data, 1)))
  {
    HostOne(h, '%', i);
    PercentByte(h.s);
  }

  lemma ZoneByteGrows(h: HostScan, c: char, i: nat)
    requires (h.s.HostV6Zone? || h.s.HostV6ZoneStart?) && HOST in h.data && IsZoneChar(c)
    ensures HostText(h, [c], i) == Some(HostScan(HostV6Zone, LongerHost(h.data, 1)))
  {
    hide IsZoneChar;
    HostOne(h, c, i);
    ZoneByte(h.s, c);
  }

  lemma LongerOn(d: FieldData, n: nat)
    requires HOST in d
    ensures HOST in LongerHost(d, n) && LongerHost(LongerHost(d, n), 1) == LongerHost(d, n + 1)
  {
  }

  /** A zone and the percent sign before it count for the host, too. */
  lemma {:induction false} ZoneRun(h: HostScan, zone: string, i: nat)
    requires h.s.HostV6? && HOST in h.data && AllIn(zone, IsZoneChar)
    ensures HostText(h, "%" + zone, i) ==
            Some(HostScan(if zone == "" then HostV6ZoneStart else HostV6Zone, LongerHost(h.data, |zone| + 1)))
  {
    hide IsZoneChar, HostText, LongerHost;
    if zone == "" {
      assert "%" + zone == "%";
      PercentGrows(h, i);
    } else {
      var front, c := zone[..|zone| - 1], zone[|zone| - 1];
      assert c in zone && forall e <- front :: e in zone;
      ZoneRun(h, front, i);
      HostAppend(h, "%" + front, [c], i);
      assert "%" + front + [c] == "%" + zone;
      LongerOn(h.data, |front| + 1);
      ZoneByteGrows(HostText(h, "%" + front, i).value, c, i + |"%" + front|);
    }
  }

  lemma PercentByte(s: HostState)
    requires s.HostV6?
    ensures ParseHostChar(s, '%') == HostV6ZoneStart
  {
  }

  lemma ZoneByte(s: HostState, c: char)
    requires (s.HostV6Zone? || s.HostV6ZoneStart?) && IsZoneChar(c)
    ensures ParseHostChar(s, c) == HostV6Zone
  {
  }

  lemma NameHost(h: HostScan, text: string, i: nat)
    requires h.s.HostStart? && HOST in h.data && h.data[HOST].len == 0 && text != "" && AllIn(text, IsHostChar)
    ensures HostText(h, text, i) == Some(HostScan(Host, h.data[HOST := Slice(i, |text|)]))
  {
    hide HostText;
    forall k | 0 <= k < |text|
      ensures ParseHostChar(Host, text[k]) == Host && ParseHostChar(HostStart, text[k]) == Host {
      assert IsHostChar(text[k]);
    }
    NameRun(h, text, i, Host);
  }

  lemma BracketByte(h: HostScan, i: nat)
    requires h.s.HostStart?
    ensures HostText(h, "[", i) == Some(h.(s := HostV6Start))
  {
    HostOne(h, '[', i);
  }

  lemma CloseByte(h: HostScan, i: nat)
    requires h.s.HostV6? || h.s.HostV6Zone?
    ensures HostText(h, "]", i) == Some(h.(s := HostV6End))
  {
    HostOne(h, ']', i);
  }

  lemma AddressRun(h: HostScan, address: string, i: nat)
    requires h.s.HostV6Start? && HOST in h.data && h.data[HOST].len == 0 && address != "" && AllIn(address, IsV6Char)
    ensures HostText(h, address, i) == Some(HostScan(HostV6, h.data[HOST := Slice(i, |address|)]))
  {
    hide HostText;
    forall k | 0 <= k < |address|
      ensures ParseHostChar(HostV6, address[k]) == HostV6 && ParseHostChar(HostV6Start, address[k]) == HostV6 {
      assert IsV6Char(address[k]);
    }
    NameRun(h, address, i, HostV6);
  }

  lemma V6Host(h: HostScan, address: string, zone: string, i: nat)
    requires h.s.HostStart? && HOST in h.data && h.data[HOST].len == 0
    requires address != "" && AllIn(address, IsV6Char) && AllIn(zone, IsZoneChar)
    ensures var x := HostOf(V6(address, zone));
            HostText(h, "[" + x + "]", i) == Some(HostScan(HostV6End, h.data[HOST := Slice(i + 1, |x|)]))
  {
    hide HostText;
    var x := HostOf(V6(address, zone));
    BracketByte(h, i);
    AddressRun(h.(s := HostV6Start), address, i + 1);
    var g := HostScan(HostV6, h.data[HOST := Slice(i + 1, |address|)]);
    var mark := Optional("%", zone);
    if zone != "" {
      ZoneRun(g, zone, i + 1 + |address|);
    } else {
      HostNothing(g, i + 1 + |address|);
    }
    HostAppend(h.(s := HostV6Start), address, mark, i + 1);
    HostAppend(h, "[", x, i);
    HostAppend(h, "[" + x, "]", i);
    var g' := HostText(h, "[" + x, i).value;
    assert g'.data == h.data[HOST := Slice(i + 1, |x|)];
    CloseByte(g', i + 1 + |x|);
  }

  function HostOffset(h: HostName, i: nat): nat {
    if h.V6? then i + 1 else i
  }

  lemma HostPrintedRun(h: HostScan, name: HostName, i: nat)
    requires h.s.HostStart? && HOST in h.data && h.data[HOST].len == 0 && IsHostName(name)
    ensures var g := HostText(h, HostPrinted(name), i);
            && g.Some? && (g.value.s.Host? || g.value.s.HostV6End?)
            && g.value.data == h.data[HOST := Slice(HostOffset(name, i), |HostOf(name)|)]
  {
    hide HostText;
    match name
    case Name(text) => NameHost(h, text, i);
    case V6(address, zone) => V6Host(h, address, zone, i);
  }

  lemma PortRun(h: HostScan, port: string, i: nat)
    requires (h.s.Host? || h.s.HostV6End?) && AllIn(port, IsNum) && port != ""
    ensures HostText(h, ":" + port, i) == Some(HostScan(HostPort, h.data[PORT := Slice(i + 1, |port|)]))
  {
    hide HostText;
    ColonByte(h, i);
    forall k | 0 <= k < |port|
      ensures ParseHostChar(HostPort, port[k]) == HostPort && ParseHostChar(HostPortStart, port[k]) == HostPort {
      assert IsNum(port[k]);
    }
    PartRun(h.(s := HostPortStart), port, i + 1, HostPort, PORT);
    HostAppend(h, ":", port, i);
  }

  lemma ColonByte(h: HostScan, i: nat)
    requires h.s.Host? || h.s.HostV6End?
    ensures HostText(h, ":", i) == Some(h.(s := HostPortStart))
  {
    HostOne(h, ':', i);
  }

  lemma UserInfoRun(h: HostScan, userinfo: string, i: nat)
    requires h.s.UserInfoStart? && userinfo != "" && AllIn(userinfo, IsUserInfoChar)
    ensures HostText(h, userinfo + "@", i) == Some(HostScan(HostStart, h.data[USERINFO := Slice(i, |userinfo|)]))
  {
    hide HostText;
    forall k | 0 <= k < |userinfo|
      ensures ParseHostChar(UserInfo, userinfo[k]) == UserInfo
              && ParseHostChar(UserInfoStart, userinfo[k]) == UserInfo {
      assert IsUserInfoChar(userinfo[k]);
      NoAt(userinfo[k]);
    }
    PartRun(h, userinfo, i, UserInfo, USERINFO);
    var g := HostScan(UserInfo, h.data[USERINFO := Slice(i, |userinfo|)]);
    HostAppend(h, userinfo, "@", i);
    HostAt(g, i + |userinfo|);
  }

  lemma NoAt(c: char)
    requires IsUserInfoChar(c)
    ensures c != '@'
  {
  }

  lemma HostAt(g: HostScan, i: nat)
    requires g.s.UserInfo?
    ensures HostText(g, "@", i) == Some(g.(s := HostStart))
  {
    HostOne(g, '@', i);
  }

  /** The fields of an authority that begins at `i`. */
  function WithAuthority(d: FieldData, userinfo: string, h: HostName, port: string, i: nat): FieldData {
    var j := i + |UserInfoPrinted(userinfo)|;
    WithPart(WithPart(d, USERINFO, i, userinfo)[HOST := Slice(HostOffset(h, j), |HostOf(h)|)], PORT,
      j + |HostPrinted(h)| + 1, port)
  }

  /** The second scan finds userinfo, host and port where they were printed. */
  lemma AuthorityRun(d: FieldData, userinfo: string, h: HostName, port: string, i: nat)
    requires HOST in d && AllIn(userinfo, IsUserInfoChar) && IsHostName(h) && AllIn(port, IsNum)
    ensures var g := HostText(StartHost(d, userinfo != ""), Authority(userinfo, h, port), i);
            g.Some? && MayEnd(g.value.s) && g.value.data == WithAuthority(d, userinfo, h, port, i)
  {
    hide HostText, HostPrinted, HostOf, IsHostName;
    var start, j, name := StartHost(d, userinfo != ""), i + |UserInfoPrinted(userinfo)|,
        HostPrinted(h) + Optional(":", port);
    HostAppend(start, UserInfoPrinted(userinfo), name, i);
    if userinfo != "" {
      UserInfoRun(start, userinfo, i);
    } else {
      HostNothing(start, i);
    }
    var g := HostText(start, UserInfoPrinted(userinfo), i).value;
    HostPrintedRun(g, h, j);
    var g' := HostText(g, HostPrinted(h), j).value;
    HostAppend(g, HostPrinted(h), Optional(":", port), j);
    if port != "" {
      PortRun(g', port, j + |HostPrinted(h)|);
    } else {
      HostNothing(g', j + |HostPrinted(h)|);
    }
    var r := HostText(start, Authority(userinfo, h, port), i).value;
    assert r.data == WithAuthority(d, userinfo, h, port, i);
  }

  // ----- The round trip -----

  function Component(p: Parts, f: UrlField): string {
    match f
    case SCHEMA => p.schema case HOST => HostOf(p.host) case PORT => p.port case PATH => p.path
    case QUERY => p.query case FRAGMENT => p.fragment case USERINFO => p.userinfo
  }

  /** Exactly the parts that are present are set, and each stands where it was printed. */
  ghost predicate Recovered(u: Parsed, buf: string, p: Parts) {
    && InBounds(u.data, buf)
    && (forall f: UrlField :: f in u.data <==> Component(p, f) != "")
    && (forall f <- u.data :: Text(buf, u.data[f]) == Component(p, f))
    && u.port == PortValue(p.port)
  }

  /** Where each part of an absolute URL stands. */
  function Offset(p: Parts, f: UrlField): nat {
    var i := |p.schema| + 3;
    var j := i + |UserInfoPrinted(p.userinfo)|;
    var k := i + |Authority(p.userinfo, p.host, p.port)|;
    match f
    case SCHEMA => 0 case USERINFO => i case HOST => HostOffset(p.host, j) case PORT => j + |HostPrinted(p.host)| + 1
    case PATH => k case QUERY => QueryAt(k, p.path) case FRAGMENT => FragmentAt(k, p.path, p.query)
  }

  lemma TextAt(buf: string, a: string, x: string, b: string)
    requires buf == a + (x + b)
    ensures |a| + |x| <= |buf| && Text(buf, Slice(|a|, |x|)) == x
  {
  }

  lemma SchemaAt(p: Parts)
    ensures var buf := Printed(p); |p.schema| <= |buf| && Text(buf, Slice(0, |p.schema|)) == p.schema
  {
    hide Authority, Tail;
    var rest := "://" + (Authority(p.userinfo, p.host, p.port) + Tail(p.path, p.query, p.fragment));
    assert Printed(p) == "" + (p.schema + rest);
    TextAt(Printed(p), "", p.schema, rest);
  }

  // Concatenations, regrouped around the part that is looked for.

  lemma AroundHost(s: string, d: string, u: string, h: string, q: string, t: string)
    ensures s + (d + ((u + (h + q)) + t)) == (s + d + u) + (h + (q + t))
  {
  }

  lemma AroundPort(a: string, h: string, c: string, x: string, t: string)
    ensures a + (h + ((c + x) + t)) == (a + h + c) + (x + t)
  {
  }

  lemma AroundAddress(a: string, l: string, x: string, r: string, t: string)
    ensures a + ((l + x + r) + t) == (a + l) + (x + (r + t))
  {
  }

  lemma AroundUserInfo(s: string, d: string, x: string, c: string, h: string, t: string)
    ensures s + (d + (((x + c) + h) + t)) == (s + d) + (x + (c + (h + t)))
  {
  }

  /** The printed URL around its host. */
  lemma PrintedAroundHost(p: Parts)
    ensures Printed(p) == (p.schema + "://" + UserInfoPrinted(p.userinfo))
                          + (HostPrinted(p.host) + (Optional(":", p.port) + Tail(p.path, p.query, p.fragment)))
    ensures |p.schema + "://" + UserInfoPrinted(p.userinfo)| == |p.schema| + 3 + |UserInfoPrinted(p.userinfo)|
  {
    hide Optional, Tail, HostPrinted, UserInfoPrinted;
    AroundHost(p.schema, "://", UserInfoPrinted(p.userinfo), HostPrinted(p.host), Optional(":", p.port),
      Tail(p.path, p.query, p.fragment));
  }

  /** A host behind any text. */
  lemma HostBehind(buf: string, a: string, h: HostName, b: string)
    requires buf == a + (HostPrinted(h) + b)
    ensures HostOffset(h, |a|) + |HostOf(h)| <= |buf| && Text(buf, Slice(HostOffset(h, |a|), |HostOf(h)|)) == HostOf(h)
  {
    hide HostOf, Text;
    if h.V6? {
      AroundAddress(a, "[", HostOf(h), "]", b);
      TextAt(buf, a + "[", HostOf(h), "]" + b);
    } else {
      TextAt(buf, a, HostOf(h), b);
    }
  }

  /** A port behind any text and a host. */
  lemma PortBehind(buf: string, a: string, h: string, port: string, b: string)
    requires buf == a + (h + (Optional(":", port) + b)) && port != ""
    ensures |a| + |h| + 1 + |port| <= |buf| && Text(buf, Slice(|a| + |h| + 1, |port|)) == port
  {
    hide Text;
    AroundPort(a, h, ":", port, b);
    TextAt(buf, a + h + ":", port, b);
  }

  lemma PortAt(p: Parts)
    requires p.port != ""
    ensures var buf := Printed(p);
            Offset(p, PORT) + |p.port| <= |buf| && Text(buf, Slice(Offset(p, PORT), |p.port|)) == p.port
  {
    hide HostPrinted, UserInfoPrinted, Tail, Text, Optional, Printed;
    PrintedAroundHost(p);
    PortBehind(Printed(p), p.schema + "://" + UserInfoPrinted(p.userinfo), HostPrinted(p.host), p.port,
      Tail(p.path, p.query, p.fragment));
  }

  lemma HostTextAt(p: Parts)
    ensures var buf, x := Printed(p), HostOf(p.host);
            Offset(p, HOST) + |x| <= |buf| && Text(buf, Slice(Offset(p, HOST), |x|)) == x
  {
    hide HostOf, HostPrinted, UserInfoPrinted, Tail, Text, Optional, Printed;
    PrintedAroundHost(p);
    HostBehind(Printed(p), p.schema + "://" + UserInfoPrinted(p.userinfo), p.host,
      Optional(":", p.port) + Tail(p.path, p.query, p.fragment));
  }

  lemma UserInfoAt(p: Parts)
    requires p.userinfo != ""
    ensures var buf := Printed(p);
            Offset(p, USERINFO) + |p.userinfo| <= |buf|
              && Text(buf, Slice(Offset(p, USERINFO), |p.userinfo|)) == p.userinfo
  {
    hide HostPrinted, Tail, Optional, Text;
    var rest := HostPrinted(p.host) + Optional(":", p.port);
    AroundUserInfo(p.schema, "://", p.userinfo, "@", rest, Tail(p.path, p.query, p.fragment));
    TextAt(Printed(p), p.schema + "://", p.userinfo, "@" + (rest + Tail(p.path, p.query, p.fragment)));
  }

  /** The same for a tail behind any text. */
  lemma TailAt(front: string, path: string, query: string, fragment: string)
    ensures var buf, k := front + Tail(path, query, fragment), |front|;
            && k + |path| <= |buf| && Text(buf, Slice(k, |path|)) == path
            && (query != "" ==>
               QueryAt(k, path) + |query| <= |buf| && Text(buf, Slice(QueryAt(k, path), |query|)) == query)
            && (fragment != "" ==> FragmentAt(k, path, query) + |fragment| <= |buf|
                                   && Text(buf, Slice(FragmentAt(k, path, query), |fragment|)) == fragment)
  {
    hide Text;
    var buf := front + Tail(path, query, fragment);
    TextAt(buf, front, path, Optional("?", query) + Optional("#", fragment));
    if query != "" {
      AroundPort(front, path, "?", query, Optional("#", fragment));
      TextAt(buf, front + path + "?", query, Optional("#", fragment));
    }
    if fragment != "" {
      var q := Optional("?", query);
      AroundFragment(front, path, q, "#", fragment);
      TextAt(buf, front + path + q + "#", fragment, "");
    }
  }

  lemma AroundFragment(a: string, p: string, q: string, c: string, x: string)
    ensures a + (p + (q + (c + x))) == (a + p + q + c) + (x + "")
  {
  }

  predicate HashedHost(p: Parts) {
    p.fragment != "" && p.path == "" && p.query == ""
  }

  /** The fields of an absolute URL. */
  function DataOf(p: Parts): FieldData {
    var i := |p.schema| + 3;
    var k := i + |Authority(p.userinfo, p.host, p.port)|;
    WithAuthority(ScannedOf(p), p.userinfo, p.host, p.port, i)
  }

  /** The fields after the first scan. */
  function ScannedOf(p: Parts): FieldData {
    var i, n := |p.schema| + 3, |Authority(p.userinfo, p.host, p.port)|;
    WithTail(map[SCHEMA := Slice(0, |p.schema|)][HOST := Slice(i, n)], i + n, p.path, p.query, p.fragment)
  }

  lemma FirstScan(p: Parts)
    requires AreParts(p)
    ensures match ScanText(StartScan(false), Printed(p), 0)
            case None => HashedHost(p)
            case Some(x) => !HashedHost(p) && x.data == ScannedOf(p) && x.foundAt == (p.userinfo != "")
  {
    hide ScanText, Authority, Tail, WithTail, IsHostName, AllIn;
    var auth, tail, i := Authority(p.userinfo, p.host, p.port), Tail(p.path, p.query, p.fragment), |p.schema| + 3;
    SchemaRun(p.schema);
    assert Printed(p) == (p.schema + "://") + (auth + tail);
    ScanAppend(StartScan(false), p.schema + "://", auth + tail, 0);
    var x := Scan(ReqServerStart, Some(SCHEMA), false, map[SCHEMA := Slice(0, |p.schema|)]);
    AuthorityScan(x, p.userinfo, p.host, p.port, i);
    ScanAppend(x, auth, tail, i);
    var y := Scan(ReqServer, Some(HOST), p.userinfo != "", x.data[HOST := Slice(i, |auth|)]);
    TailScan(y, p.path, p.query, p.fragment, i + |auth|);
  }

  lemma AuthorityAt(p: Parts)
    ensures var buf, i, auth := Printed(p), |p.schema| + 3, Authority(p.userinfo, p.host, p.port);
            i + |auth| <= |buf| && Text(buf, Slice(i, |auth|)) == auth
  {
    hide Authority, Tail;
    var auth, tail := Authority(p.userinfo, p.host, p.port), Tail(p.path, p.query, p.fragment);
    assert Printed(p) == (p.schema + "://") + (auth + tail);
    TextAt(Printed(p), p.schema + "://", auth, tail);
  }

  lemma ScannedKeys(p: Parts)
    requires AreParts(p)
    ensures ScannedOf(p).Keys == (set f: UrlField | (f == SCHEMA || f == HOST || f == PATH || f == QUERY
            || f == FRAGMENT) && (f == HOST || Component(p, f) != ""))
    ensures HOST in ScannedOf(p) && ScannedOf(p)[HOST] == Slice(|p.schema| + 3, |Authority(p.userinfo, p.host, p.port)|)
  {
    hide Authority, HostOf;
  }

  lemma DataKeys(p: Parts)
    requires AreParts(p)
    ensures forall f: UrlField :: f in DataOf(p) <==> Component(p, f) != ""
    ensures forall f <- DataOf(p) :: DataOf(p)[f] == Slice(Offset(p, f), |Component(p, f)|)
  {
    hide Authority, HostOf, HostPrinted, UserInfoPrinted;
    HostIsServer(p.host);
  }

  /** Each part that is present is read off where it was printed. */
  lemma ComponentAt(p: Parts, f: UrlField)
    requires AreParts(p) && Component(p, f) != ""
    ensures var buf := Printed(p);
            Offset(p, f) + |Component(p, f)| <= |buf|
              && Text(buf, Slice(Offset(p, f), |Component(p, f)|)) == Component(p, f)
  {
    hide AreParts, Tail, Authority, HostOf, HostPrinted, UserInfoPrinted, Text;
    var front := p.schema + "://" + Authority(p.userinfo, p.host, p.port);
    match f
    case SCHEMA => SchemaAt(p);
    case HOST => HostTextAt(p);
    case PORT => PortAt(p);
    case USERINFO => UserInfoAt(p);
    case _ =>
      assert Printed(p) == front + Tail(p.path, p.query, p.fragment);
      TailAt(front, p.path, p.query, p.fragment);
  }

  lemma SecondScan(p: Parts)
    requires AreParts(p) && !HashedHost(p)
    ensures ParsedHost(ScannedOf(p), p.userinfo != "", Printed(p)) == Some(DataOf(p))
  {
    hide HostText, Authority, Text, WithAuthority, IsHostName, AllIn, WithTail;
    ScannedKeys(p);
    AuthorityAt(p);
    AuthorityRun(ScannedOf(p), p.userinfo, p.host, p.port, |p.schema| + 3);
  }

  /**
   Absolute URLs: printing and parsing gives back exactly the parts that are present, and the value of
   the port. The one exception is a fragment that stands directly behind the host, which is refused.
   */
  lemma AbsoluteUrlIsRecovered(p: Parts)
    requires AreParts(p)
    ensures match ParsedUrl(Printed(p), false)
            case None => HashedHost(p)
            case Some(u) => !HashedHost(p) && Recovered(u, Printed(p), p)
  {
    hide ScanText, ScannedOf, DataOf, Printed, Text, PortValue, HostOf, IsHostName, AllIn, Offset;
    var buf := Printed(p);
    PrintedIsText(p);
    FirstScan(p);
    if !HashedHost(p) {
      ScannedKeys(p);
      SecondScan(p);
      DataKeys(p);
      PartsHaveSchema(p);
      forall f: UrlField | f in DataOf(p)
        ensures End(DataOf(p)[f]) <= |buf| && Text(buf, DataOf(p)[f]) == Component(p, f) {
        ComponentAt(p, f);
      }
      NoPort(p);
    }
  }

  /** For example `http://h#f` is refused. */
  lemma FragmentBehindHostIsRefused()
    ensures ParsedUrl("http://h#f", false).None?
  {
    hide ParsedUrl;
    var p := Parts("http", "", Name("h"), "", "", "", "f");
    assert Printed(p) == "http://h#f";
    assert AreParts(p);
    AbsoluteUrlIsRecovered(p);
  }

  lemma PrintedIsText(p: Parts)
    ensures Printed(p) != ""
  {
    hide Authority, Tail;
  }

  lemma PartsHaveSchema(p: Parts)
    requires AreParts(p)
    ensures p.schema != "" && HostOf(p.host) != "" && PortValue(p.port) <= 65535
  {
    hide AllIn, PortValue;
    HostIsServer(p.host);
  }

  lemma NoPort(p: Parts)
    ensures p.port == "" ==> PortValue(p.port) == 0
  {
  }

  /** Targets that begin with a path. */
  lemma PathIsRecovered(path: string, query: string, fragment: string)
    requires path != "" && IsTail(path, query, fragment)
    ensures var buf := Tail(path, query, fragment);
            match ParsedUrl(buf, false)
            case None => false
            case Some(u) =>
              && InBounds(u.data, buf) && u.port == 0
              && u.data.Keys == {PATH} + (if query == "" then {} else {QUERY})
                 + (if fragment == "" then {} else {FRAGMENT})
              && Text(buf, u.data[PATH]) == path
              && (query != "" ==> Text(buf, u.data[QUERY]) == query)
              && (fragment != "" ==> Text(buf, u.data[FRAGMENT]) == fragment)
  {
    hide ScanText, Text, IsTail, Tail;
    TailScan(StartScan(false), path, query, fragment, 0);
    TailAt("", path, query, fragment);
    assert "" + Tail(path, query, fragment) == Tail(path, query, fragment);
    TailIsText(path, query, fragment);
  }

  lemma TailIsText(path: string, query: string, fragment: string)
    requires path != ""
    ensures Tail(path, query, fragment) != ""
  {
  }

  /** CONNECT targets: a host with a port is recovered, a host without one refused. */
  lemma ConnectTargetIsRecovered(h: HostName, port: string)
    requires IsHostName(h) && IsPort(port)
    ensures var buf := Authority("", h, port);
            match ParsedUrl(buf, true)
            case None => port == ""
            case Some(u) =>
              && port != "" && InBounds(u.data, buf) && u.data.Keys == {HOST, PORT} && u.port == PortValue(port)
              && Text(buf, u.data[HOST]) == HostOf(h) && Text(buf, u.data[PORT]) == port
  {
    hide ScanText, HostText, Text, IsHostName, AllIn, PortValue, HostPrinted, HostOf, WithAuthority;
    var buf := Authority("", h, port);
    assert AllIn("", IsUserInfoChar) by {
      NothingIn(IsUserInfoChar);
    }
    AuthorityScan(StartScan(true), "", h, port, 0);
    var d: FieldData := map[HOST := Slice(0, |buf|)];
    assert buf == "" + (buf + "");
    TextAt(buf, "", buf, "");
    AuthorityRun(d, "", h, port, 0);
    ConnectData(d, h, port);
    HostIsServer(h);
    ConnectHost(h, port);
    if port != "" {
      ConnectPort(h, port);
    }
  }

  lemma NothingIn(p: char -> bool)
    ensures AllIn("", p)
  {
  }

  lemma ConnectData(d: FieldData, h: HostName, port: string)
    requires d.Keys == {HOST}
    ensures var e, x := WithAuthority(d, "", h, port, 0), HostOf(h);
            && e.Keys == (if port == "" then {HOST} else {HOST, PORT})
            && e[HOST] == Slice(HostOffset(h, 0), |x|)
            && (port != "" ==> e[PORT] == Slice(|HostPrinted(h)| + 1, |port|))
  {
    hide HostOf, HostPrinted;
  }

  lemma ConnectHost(h: HostName, port: string)
    ensures var buf, x := Authority("", h, port), HostOf(h);
            HostOffset(h, 0) + |x| <= |buf| && Text(buf, Slice(HostOffset(h, 0), |x|)) == x
  {
    hide HostOf, HostPrinted, Optional, Text;
    HostBehind(Authority("", h, port), "", h, Optional(":", port));
  }

  lemma ConnectPort(h: HostName, port: string)
    requires port != ""
    ensures var buf := Authority("", h, port);
            |HostPrinted(h)| + 1 + |port| <= |buf| && Text(buf, Slice(|HostPrinted(h)| + 1, |port|)) == port
  {
    hide HostOf, HostPrinted, Optional, Text;
    assert Optional(":", port) + "" == Optional(":", port);
    PortBehind(Authority("", h, port), "", HostPrinted(h), port, "");
  }
}
