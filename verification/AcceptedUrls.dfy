/** Which URLs `http_parser_parse_url` accepts. */
module AcceptedUrls {
  import opened Options
  import opened HttpTypes
  import opened HttpVisit
  import opened HttpValues
  import opened HttpRequestLine
  import opened CharacterSets
  import opened Urls
  import opened UrlGrammar
  import opened HostGrammar
  import UrlRoundTrip

  // ----- The grammar -----

  function UserInfoOf(x: string): string {
    if '@' in x then x[..Until(x, "@")] else ""
  }

  /** A host part without its userinfo. */
  function HostPortOf(x: string): string {
    if '@' in x && Until(x, "@") < |x| then x[Until(x, "@") + 1..] else x
  }

  /** The digits behind the colon behind a host, whose address may have colons of its own. */
  function PortBehind(x: string): string {
    var y := if x != "" && x[0] == '[' then x[Until(x, "]")..] else x;
    var n := Until(y, ":");
    if n < |y| then y[n + 1..] else ""
  }

  function PortOf(x: string): string {
    PortBehind(HostPortOf(x))
  }

  predicate IsAuthority(x: string) {
    IsHostPart(x, '@' in x) && AllNum(PortOf(x)) && Numeral(PortOf(x)) <= 65535
  }

  predicate AreHashes(x: string) {
    forall c <- x :: c == '#'
  }

  /**
   A scheme, `://`, an authority and a tail; or a tail that begins with `/` or `*`; or, for CONNECT, an
   authority with a port and without userinfo, behind which nothing may stand that makes a field.
   */
  predicate IsUrl(x: string, isConnect: bool) {
    if x == "" then false
    else if isConnect then
      var n := Until(x, "/?");
      && IsAuthority(x[..n]) && UserInfoOf(x[..n]) == "" && PortOf(x[..n]) != ""
      && (n == |x| || (x[n] == '?' && AreHashes(x[n + 1..])))
    else if x[0] in "/*" then IsTailText(x[1..])
    else
      var n := Until(x, ":");
      && n > 0 && (forall c <- x[..n] :: IsLetter(c)) && "://" <= x[n..]
      && var rest := x[n + 3..];
         var m := Until(rest, "/?");
         IsAuthority(rest[..m]) && IsTailText(rest[m..])
  }

  // ----- The first scan -----

  lemma {:induction false} AuthorityScanned(x: Scan, auth: string, i: nat)
    requires x.s.ReqServerStart? && x.current != Some(HOST) && auth != "" && IsAuthorityText(auth)
    ensures ScanText(x, auth, i) == Some(Scan(if auth[|auth| - 1] == '@' then ReqServerWithAt else ReqServer,
      Some(HOST), x.foundAt || '@' in auth, x.data[HOST := Slice(i, |auth|)]))
  {
    hide ParseUrlChar, IsServerCharacter;
    var front, c := auth[..|auth| - 1], auth[|auth| - 1];
    assert auth == front + [c];
    NoTailStart(c);
    if front == "" {
      assert auth == [c];
      ServerByte(x.s, c);
      UrlRoundTrip.ScanOne(x, c, i);
    } else {
      AuthorityScanned(x, front, i);
      var y := ScanText(x, front, i).value;
      assert c == '@' ==> front[|front| - 1] != '@';
      ServerByte(y.s, c);
      assert auth[..|auth| - 1] == front;
      assert y.data[HOST := Slice(i, |auth|)] == x.data[HOST := Slice(i, |auth|)];
    }
  }

  lemma NoTailStart(c: char)
    ensures c == '/' || c == '?' ==> !IsServerCharacter(c)
  {
    Ranges(c);
  }

  /** What the bytes of a tail leave alone, and when they set no field. */
  ghost predicate Tailed(x: Scan, y: Scan, tail: string) {
    && tail != "" && IsTailState(y.s) && y.foundAt == x.foundAt
    && (forall f | f == SCHEMA || f == HOST || f == PORT || f == USERINFO ::
          (f in y.data <==> f in x.data) && (f in x.data ==> y.data[f] == x.data[f]))
    && if tail[0] == '?' && AreHashes(tail[1..])
       then y.data == x.data && y.current == x.current
            && (if |tail| == 1 then y.s.ReqQueryStringStart? else y.s.ReqFragmentStart?)
       else y.current.Some? && y.current.value in {PATH, QUERY, FRAGMENT} && y.current.value in y.data
  }

  predicate HasNoTail(x: Scan) {
    (x.current.None? || x.current.value in {SCHEMA, HOST}) && forall f <- x.data :: f in {SCHEMA, HOST}
  }

  /** The first byte of a tail, which decides whether a field begins with it. */
  predicate BeginsTail(s: State, c: char) {
    var s' := ParseUrlChar(s, c);
    if c == '?' then s'.ReqQueryStringStart? else s'.ReqPath?
  }

  lemma NextTailByte(s: State, c: char)
    requires IsTailState(s) && !ParseUrlChar(s, c).Dead?
    ensures var s' := ParseUrlChar(s, c);
            && IsTailState(s')
            && (s.ReqQueryStringStart? || s.ReqFragmentStart? ==>
                  if c == '#' then s'.ReqFragmentStart? else FieldOf(s').Some?)
            && (FieldOf(s').Some? ==> FieldOf(s').value in {PATH, QUERY, FRAGMENT})
  {
  }

  lemma {:induction false} TailScanned(x: Scan, tail: string, i: nat)
    requires HasNoTail(x) && tail != "" && BeginsTail(x.s, tail[0]) && IsTailText(tail[1..])
    ensures var y := ScanText(x, tail, i); y.Some? && Tailed(x, y.value, tail)
  {
    hide ParseUrlChar, IsUrlCharacter, Tailed, HasNoTail, IsTailText, ScanByte;
    var front, c := tail[..|tail| - 1], tail[|tail| - 1];
    assert tail == front + [c];
    if front == "" {
      assert tail == [c];
      TailScanBegins(x, c, i);
    } else {
      assert tail[1..] == front[1..] + [c];
      TailTextFront(front[1..], c);
      TailScanned(x, front, i);
      var y := ScanText(x, front, i).value;
      TailedState(x, y, front);
      TailByte(y.s, c);
      TailGrows(x, y, front, c, i + |front|);
    }
  }

  lemma TailScanBegins(x: Scan, c: char, i: nat)
    requires HasNoTail(x) && BeginsTail(x.s, c)
    ensures var y := ScanText(x, [c], i); y.Some? && Tailed(x, y.value, [c])
  {
    hide ParseUrlChar;
    UrlRoundTrip.ScanOne(x, c, i);
    assert [c][1..] == "";
    FirstOfTail(x.s, c);
  }

  lemma TailTextFront(x: string, c: char)
    requires IsTailText(x + [c])
    ensures IsTailText(x) && (IsUrlCharacter(c) || c in "?#")
  {
    hide IsUrlCharacter;
    assert c in x + [c];
    forall b | b in x ensures IsUrlCharacter(b) || b in "?#" {
      assert b in x + [c];
    }
  }

  lemma TailedState(x: Scan, y: Scan, tail: string)
    requires Tailed(x, y, tail)
    ensures IsTailState(y.s)
  {
  }

  lemma FirstOfTail(s: State, c: char)
    requires BeginsTail(s, c)
    ensures var s' := ParseUrlChar(s, c); if c == '?' then FieldOf(s').None? else FieldOf(s') == Some(PATH)
  {
  }

  lemma TailGrows(x: Scan, y: Scan, front: string, c: char, n: nat)
    requires Tailed(x, y, front) && HasNoTail(x)
    requires !ParseUrlChar(y.s, c).Dead?
    ensures var z := ScanByte(y, c, n); z.Some? && Tailed(x, z.value, front + [c])
  {
    hide ParseUrlChar, AreHashes;
    NextTailByte(y.s, c);
    ScanStep(y, c, n);
    assert (front + [c])[1..] == front[1..] + [c];
    HashesMore(front[1..], c);
  }

  lemma HashesMore(x: string, c: char)
    ensures AreHashes(x + [c]) <==> AreHashes(x) && c == '#'
  {
    assert c in x + [c] && forall d <- x :: d in x + [c];
  }

  // ----- The second scan -----

  lemma UntilIs(x: string, stops: string, n: nat)
    requires n <= |x| && (forall i | 0 <= i < n :: x[i] !in stops) && (n < |x| ==> x[n] in stops)
    ensures Until(x, stops) == n
  {
    var m := Until(x, stops);
  }

  /** A port text is what the printer writes for its digits. */
  lemma PortTextIsPrinted(x: string)
    requires IsPortText(x)
    ensures var port := if x == "" then "" else x[1..];
            x == UrlRoundTrip.Optional(":", port) && UrlRoundTrip.AllIn(port, IsNum)
  {
    if x != "" {
      assert x == ":" + x[1..];
      forall c <- x[1..] ensures IsNum(c) {
        AlphaNumerics(c);
      }
    }
  }

  lemma NameDecomposed(x: string) returns (h: UrlRoundTrip.HostName)
    requires IsHostText(x) && x[0] != '['
    ensures UrlRoundTrip.IsHostName(h) && UrlRoundTrip.AllIn(PortBehind(x), IsNum)
    ensures x == UrlRoundTrip.HostPrinted(h) + UrlRoundTrip.Optional(":", PortBehind(x))
  {
    hide IsNameCharacter, IsPortText;
    var n := Until(x, ":");
    h := UrlRoundTrip.Name(x[..n]);
    PortTextIsPrinted(x[n..]);
    forall c <- x[..n] ensures IsHostChar(c) {
      NameBytes(c);
    }
    assert x == x[..n] + x[n..];
    assert n < |x| ==> x[n..][1..] == x[n + 1..];
  }

  /** Behind the closing bracket, which stands at `n`. */
  lemma BehindBracket(x: string, n: nat)
    requires x != "" && x[0] == '[' && n < |x| && x[n] == ']' && (forall i | 0 <= i < n :: x[i] != ']')
    requires IsPortText(x[n + 1..])
    ensures PortBehind(x) == if n + 1 == |x| then "" else x[n + 2..]
    ensures UrlRoundTrip.AllIn(PortBehind(x), IsNum) && x[n + 1..] == UrlRoundTrip.Optional(":", PortBehind(x))
  {
    hide All;
    UntilIs(x, "]", n);
    var y := x[n..];
    UntilIs(y, ":", 1);
    PortTextIsPrinted(x[n + 1..]);
    assert n + 1 < |x| ==> y[2..] == x[n + 2..] && x[n + 1..][1..] == x[n + 2..];
  }

  lemma PlainAddress(x: string, n: nat) returns (h: UrlRoundTrip.HostName)
    requires x != "" && x[0] == '[' && 0 < n < |x| - 1 && n == Until(x[1..], "]%") && x[n + 1] == ']'
    requires All(x[1..][..n], IsAddressCharacter) && IsPortText(x[n + 2..])
    ensures UrlRoundTrip.IsHostName(h) && UrlRoundTrip.AllIn(PortBehind(x), IsNum)
    ensures x == UrlRoundTrip.HostPrinted(h) + UrlRoundTrip.Optional(":", PortBehind(x))
  {
    hide IsAddressCharacter, IsPortText, PortBehind, UrlRoundTrip.Optional;
    var a := x[1..][..n];
    forall c <- a ensures IsV6Char(c) {
      AddressBytes(c);
    }
    h := UrlRoundTrip.V6(a, "");
    assert forall i | 0 < i < n + 1 :: x[i] == x[1..][i - 1];
    BehindBracket(x, n + 1);
    EmptyOption();
    assert x == "[" + (a + "") + "]" + x[n + 2..];
  }

  lemma ZonedAddress(x: string, n: nat, m: nat) returns (h: UrlRoundTrip.HostName)
    requires x != "" && x[0] == '[' && 0 < n < |x| - 1 && n == Until(x[1..], "]%") && x[n + 1] == '%'
    requires n + m + 2 < |x| && m == Until(x[n + 2..], "]") > 0
    requires All(x[1..][..n], IsAddressCharacter) && All(x[n + 2..][..m], IsZoneCharacter) && IsPortText(x[n + m + 3..])
    ensures UrlRoundTrip.IsHostName(h) && UrlRoundTrip.AllIn(PortBehind(x), IsNum)
    ensures x == UrlRoundTrip.HostPrinted(h) + UrlRoundTrip.Optional(":", PortBehind(x))
  {
    hide IsAddressCharacter, IsZoneCharacter, IsPortText, PortBehind, UrlRoundTrip.Optional, IsZoneChar, IsV6Char,
      Until;
    var a, z := x[1..][..n], x[n + 2..][..m];
    forall c <- a ensures IsV6Char(c) {
      AddressBytes(c);
    }
    forall c <- z ensures IsZoneChar(c) {
      ZoneBytes(c);
    }
    h := UrlRoundTrip.V6(a, z);
    ZonedText(x, n, m);
    BehindBracket(x, n + m + 2);
    ZoneOption(z);
  }

  lemma ZonedText(x: string, n: nat, m: nat)
    requires x != "" && x[0] == '[' && 0 < n < |x| - 1 && n == Until(x[1..], "]%") && x[n + 1] == '%'
    requires n + m + 2 < |x| && m == Until(x[n + 2..], "]")
    ensures x == "[" + (x[1..][..n] + ("%" + x[n + 2..][..m])) + "]" + x[n + m + 3..]
    ensures x[n + m + 2] == ']' && forall i | 0 <= i < n + m + 2 :: x[i] != ']'
  {
    var address, zone := x[1..], x[n + 2..];
    assert zone[m] == x[n + m + 2];
    ZonedPieces(x, n, m);
    hide Until;
    forall i | 0 <= i < n + m + 2 ensures x[i] != ']' {
      if 0 < i < n + 1 {
        assert x[i] == address[i - 1];
      } else if i >= n + 2 {
        assert x[i] == zone[i - n - 2];
      }
    }
  }

  lemma ZonedPieces(x: string, n: nat, m: nat)
    requires n + m + 2 < |x| && x[0] == '[' && x[n + 1] == '%' && x[n + m + 2] == ']'
    ensures x == "[" + (x[1..][..n] + ("%" + x[n + 2..][..m])) + "]" + x[n + m + 3..]
  {
    assert x[1..][..n] == x[1..n + 1] && x[n + 2..][..m] == x[n + 2..n + m + 2];
    assert x == x[..1] + x[1..n + 1] + x[n + 1..n + 2] + x[n + 2..n + m + 2] + x[n + m + 2..n + m + 3] + x[n + m + 3..];
  }

  lemma AddressDecomposed(x: string) returns (h: UrlRoundTrip.HostName)
    requires IsHostText(x) && x[0] == '['
    ensures UrlRoundTrip.IsHostName(h) && UrlRoundTrip.AllIn(PortBehind(x), IsNum)
    ensures x == UrlRoundTrip.HostPrinted(h) + UrlRoundTrip.Optional(":", PortBehind(x))
  {
    hide IsAddressCharacter, IsZoneCharacter, IsPortText, PortBehind, UrlRoundTrip.Optional, UrlRoundTrip.HostPrinted;
    var y := x[1..];
    var n := Until(y, "]%");
    assert y[n + 1..] == x[n + 2..];
    if y[n] == ']' {
      h := PlainAddress(x, n);
    } else {
      var m := Until(x[n + 2..], "]");
      assert x[n + 2..][m + 1..] == x[n + m + 3..];
      h := ZonedAddress(x, n, m);
    }
  }

  lemma EmptyOption()
    ensures UrlRoundTrip.Optional("%", "") == ""
  {
  }

  lemma ZoneOption(x: string)
    requires x != ""
    ensures UrlRoundTrip.Optional("%", x) == "%" + x
  {
  }

  lemma HostDecomposed(x: string) returns (h: UrlRoundTrip.HostName)
    requires IsHostText(x)
    ensures UrlRoundTrip.IsHostName(h) && UrlRoundTrip.AllIn(PortBehind(x), IsNum)
    ensures x == UrlRoundTrip.HostPrinted(h) + UrlRoundTrip.Optional(":", PortBehind(x))
  {
    if x[0] == '[' {
      h := AddressDecomposed(x);
    } else {
      h := NameDecomposed(x);
    }
  }

  /** What the second scan makes of a host part. */
  ghost predicate HasHostFields(e: FieldData, d: FieldData, auth: string, buf: string) {
    && e.Keys == d.Keys + (if PortOf(auth) == "" then {} else {PORT})
                 + (if UserInfoOf(auth) == "" then {} else {USERINFO})
    && (PORT in e ==> End(e[PORT]) <= |buf| && Text(buf, e[PORT]) == PortOf(auth))
    && AllNum(PortOf(auth))
  }

  /** The userinfo, the host and the port make the text, but for an `@` behind no userinfo. */
  lemma AuthorityFields(d: FieldData, buf: string, auth: string, h: UrlRoundTrip.HostName, i: nat)
    requires HOST in d && PORT !in d && USERINFO !in d && End(d[HOST]) <= |buf| && auth == Text(buf, d[HOST])
    requires var u := UserInfoOf(auth);
             && i + |UrlRoundTrip.Authority(u, h, PortOf(auth))| == End(d[HOST])
             && buf[i..End(d[HOST])] == UrlRoundTrip.Authority(u, h, PortOf(auth))
    requires UrlRoundTrip.AllIn(PortOf(auth), IsNum)
    ensures HasHostFields(UrlRoundTrip.WithAuthority(d, UserInfoOf(auth), h, PortOf(auth), i), d, auth, buf)
  {
    hide PortOf, UserInfoOf, UrlRoundTrip.HostPrinted, UrlRoundTrip.HostOf, UrlRoundTrip.UserInfoPrinted,
      UrlRoundTrip.Authority;
    var u, port := UserInfoOf(auth), PortOf(auth);
    if port != "" {
      var n := i + |UrlRoundTrip.UserInfoPrinted(u)| + |UrlRoundTrip.HostPrinted(h)| + 1;
      PortStands(u, h, port);
      assert n + |port| == End(d[HOST]);
      assert buf[n..End(d[HOST])] == buf[i..End(d[HOST])][n - i..];
    }
  }

  lemma PortStands(u: string, h: UrlRoundTrip.HostName, port: string)
    requires port != ""
    ensures var n, x := |UrlRoundTrip.UserInfoPrinted(u)| + |UrlRoundTrip.HostPrinted(h)| + 1,
                        UrlRoundTrip.Authority(u, h, port);
            n + |port| == |x| && x[n..] == port
  {
    hide UrlRoundTrip.HostPrinted, UrlRoundTrip.UserInfoPrinted;
    var front := UrlRoundTrip.UserInfoPrinted(u) + UrlRoundTrip.HostPrinted(h) + ":";
    assert UrlRoundTrip.Authority(u, h, port) == front + port;
  }

  /** An authority from `i` on, where it is printed with its userinfo. */
  lemma PrintedFields(d: FieldData, buf: string, auth: string, h: UrlRoundTrip.HostName, i: nat)
    requires HOST in d && PORT !in d && USERINFO !in d && End(d[HOST]) <= |buf| && auth == Text(buf, d[HOST])
    requires i <= End(d[HOST]) && UrlRoundTrip.IsHostName(h)
    requires UrlRoundTrip.AllIn(PortOf(auth), IsNum) && UrlRoundTrip.AllIn(UserInfoOf(auth), IsUserInfoChar)
    requires buf[i..End(d[HOST])] == UrlRoundTrip.Authority(UserInfoOf(auth), h, PortOf(auth))
    ensures var g := HostText(StartHost(d, UserInfoOf(auth) != ""), buf[i..End(d[HOST])], i);
            g.Some? && MayEnd(g.value.s) && HasHostFields(g.value.data, d, auth, buf)
  {
    hide PortOf, UserInfoOf, UrlRoundTrip.Authority, UrlRoundTrip.WithAuthority, UrlRoundTrip.IsHostName, HasHostFields;
    UrlRoundTrip.AuthorityRun(d, UserInfoOf(auth), h, PortOf(auth), i);
    AuthorityFields(d, buf, auth, h, i);
  }

  /** Userinfo that is there is well-formed, and the text around the `@` is the whole. */
  lemma UserInfoIs(auth: string)
    requires '@' in auth && IsHostPart(auth, true)
    ensures auth == UserInfoOf(auth) + "@" + HostPortOf(auth) && IsHostText(HostPortOf(auth))
    ensures UrlRoundTrip.AllIn(UserInfoOf(auth), IsUserInfoChar)
  {
    hide IsHostText, IsUserInfoCharacter;
    var n := Until(auth, "@");
    forall c <- UserInfoOf(auth) ensures IsUserInfoChar(c) {
      UserInfoBytes(c);
    }
  }

  lemma HostFields(d: FieldData, foundAt: bool, buf: string)
    requires HOST in d && PORT !in d && USERINFO !in d && End(d[HOST]) <= |buf|
    requires var auth := Text(buf, d[HOST]); foundAt == ('@' in auth) && IsHostPart(auth, foundAt)
    ensures var e := ParsedHost(d, foundAt, buf); e.Some? && HasHostFields(e.value, d, Text(buf, d[HOST]), buf)
  {
    hide IsHostText, PortBehind, HasHostFields, UrlRoundTrip.Authority, UrlRoundTrip.IsHostName, IsUserInfoChar,
      UrlRoundTrip.HostPrinted, UrlRoundTrip.Optional, StartHost, Until;
    var auth, i := Text(buf, d[HOST]), d[HOST].off;
    if foundAt {
      UserInfoIs(auth);
    }
    var h := HostDecomposed(HostPortOf(auth));
    AuthorityIs(UserInfoOf(auth), h, PortOf(auth));
    if foundAt && UserInfoOf(auth) == "" {
      var y := HostPortOf(auth);
      assert auth == "@" + y;
      EmptyUserInfo(d, y, i);
      assert buf[i + 1..End(d[HOST])] == auth[1..] == y;
      PrintedFields(d, buf, auth, h, i + 1);
    } else {
      PrintedFields(d, buf, auth, h, i);
    }
  }

  lemma AuthorityIs(u: string, h: UrlRoundTrip.HostName, port: string)
    ensures UrlRoundTrip.Authority(u, h, port)
            == (if u == "" then "" else u + "@")
               + (UrlRoundTrip.HostPrinted(h) + UrlRoundTrip.Optional(":", port))
  {
  }

  lemma EmptyUserInfo(d: FieldData, y: string, i: nat)
    requires HOST in d
    ensures HostText(StartHost(d, true), "@" + y, i) == HostText(StartHost(d, false), y, i + 1)
  {
    UrlRoundTrip.HostAppend(StartHost(d, true), "@", y, i);
    UrlRoundTrip.HostOne(StartHost(d, true), '@', i);
  }

  // ----- Both scans together -----

  lemma TailBegins(s: State, c: char)
    requires UrlGrammar.IsServerState(s) && (c == '/' || c == '?')
    ensures BeginsTail(s, c)
  {
  }

  /** Which fields a tail leaves. */
  lemma TailedKeys(x: Scan, y: Scan, tail: string)
    requires Tailed(x, y, tail) && HasNoTail(x)
    ensures forall f | f == SCHEMA || f == HOST || f == PORT || f == USERINFO ::
              (f in y.data <==> f in x.data) && (f in x.data ==> y.data[f] == x.data[f])
    ensures y.foundAt == x.foundAt && tail != ""
    ensures y.data.Keys == x.data.Keys <==> tail[0] == '?' && AreHashes(tail[1..])
  {
    hide AreHashes;
    if !(tail[0] == '?' && AreHashes(tail[1..])) {
      assert y.current.value in y.data.Keys && y.current.value !in x.data.Keys;
    }
  }

  lemma ServerScanned(x: Scan, text: string, i: nat)
    requires x.s.ReqServerStart? && !x.foundAt && HasNoTail(x) && HOST !in x.data && x.current != Some(HOST)
    requires IsServerText(text) && Until(text, "/?") > 0
    ensures var y, n := ScanText(x, text, i), Until(text, "/?");
            && y.Some? && y.value.foundAt == ('@' in text[..n])
            && HOST in y.value.data && y.value.data[HOST] == Slice(i, n)
            && PORT !in y.value.data && USERINFO !in y.value.data
            && (SCHEMA in y.value.data <==> SCHEMA in x.data)
            && (y.value.data.Keys == x.data.Keys + {HOST}
                <==> n == |text| || (text[n] == '?' && AreHashes(text[n + 1..])))
  {
    hide ParseUrlChar, IsServerCharacter, IsUrlCharacter, AreHashes, Until, ScanText, IsAuthorityText, Tailed,
      BeginsTail;
    var n := Until(text, "/?");
    var auth, tail := text[..n], text[n..];
    assert text == auth + tail;
    AuthorityScanned(x, auth, i);
    UrlRoundTrip.ScanAppend(x, auth, tail, i);
    var z := ScanText(x, auth, i).value;
    assert z.data.Keys == x.data.Keys + {HOST};
    if tail == "" {
      UrlRoundTrip.ScanNothing(z, i + n);
    } else {
      assert tail[0] == text[n] && tail[1..] == text[n + 1..];
      StopIs(text, n);
      TailBegins(z.s, tail[0]);
      RestIsTail(tail);
      TailScanned(z, tail, i + n);
      TailedKeys(z, ScanText(z, tail, i + n).value, tail);
    }
  }

  lemma RestIsTail(tail: string)
    requires tail != "" && IsTailText(tail)
    ensures IsTailText(tail[1..])
  {
  }

  lemma StopIs(text: string, n: nat)
    requires n == Until(text, "/?") < |text|
    ensures text[n] == '/' || text[n] == '?'
  {
  }

  /** What is decided once the first scan has found a host. */
  lemma HostDecides(buf: string, isConnect: bool, x: Scan)
    requires buf != "" && ScanText(StartScan(isConnect), buf, 0) == Some(x)
    requires HOST in x.data && PORT !in x.data && USERINFO !in x.data && End(x.data[HOST]) <= |buf|
    requires x.foundAt == ('@' in Text(buf, x.data[HOST]))
    ensures var auth := Text(buf, x.data[HOST]);
            ParsedUrl(buf, isConnect).Some? <==>
              IsAuthority(auth)
              && (isConnect ==> x.data.Keys == {HOST} && PortOf(auth) != "" && UserInfoOf(auth) == "")
  {
    hide IsHostPart, PortOf, UserInfoOf, ScanText, StartScan, ParsedHost;
    var auth := Text(buf, x.data[HOST]);
    HostsAreExact(x.data, x.foundAt, buf);
    if IsHostPart(auth, x.foundAt) {
      HostFields(x.data, x.foundAt, buf);
      PortIsDecimal(PortOf(auth));
      var e := ParsedHost(x.data, x.foundAt, buf).value;
      assert isConnect ==> (e.Keys == {HOST, PORT} <==>
                            x.data.Keys == {HOST} && PortOf(auth) != "" && UserInfoOf(auth) == "") by {
        assert USERINFO in e.Keys <==> UserInfoOf(auth) != "";
        assert PORT in e.Keys <==> PortOf(auth) != "";
        assert e.Keys - {PORT} - {USERINFO} == x.data.Keys;
      }
    }
  }

  lemma NoAuthority()
    ensures !IsAuthority("")
  {
  }

  lemma ConnectUrl(x: string)
    requires x != "" && IsServerText(x)
    ensures ParsedUrl(x, true).Some? <==> IsUrl(x, true)
  {
    hide IsAuthority, PortOf, UserInfoOf, ScanText, ParsedHost, AreHashes, Until, ParsedUrl;
    var n := Until(x, "/?");
    if n == 0 {
      assert x[..0] == "" && x[0..] == x;
      NoAuthority();
      RestIsTail(x);
      StopIs(x, 0);
      TailBegins(StartScan(true).s, x[0]);
      NoHost(x, true);
    } else {
      ServerScanned(StartScan(true), x, 0);
      var y := ScanText(StartScan(true), x, 0).value;
      assert Text(x, y.data[HOST]) == x[..n];
      HostDecides(x, true, y);
      assert StartScan(true).data.Keys + {HOST} == {HOST};
    }
  }

  /** A target that begins with its tail. */
  lemma NoHost(x: string, isConnect: bool)
    requires x != "" && IsTailText(x[1..]) && BeginsTail(StartScan(isConnect).s, x[0])
    ensures ParsedUrl(x, isConnect).Some? <==> !isConnect
  {
    hide ScanText, ParseUrlChar;
    TailScanned(StartScan(isConnect), x, 0);
  }

  /** Where the first scan stands behind a scheme. */
  lemma SchemaScanned(x: string, n: nat)
    requires n == Until(x, ":") > 0 && (forall c <- x[..n] :: IsLetter(c)) && "://" <= x[n..]
    ensures n + 3 <= |x|
    ensures var y := Scan(ReqServerStart, Some(SCHEMA), false, map[SCHEMA := Slice(0, n)]);
            ScanText(StartScan(false), x, 0) == ScanText(y, x[n + 3..], n + 3)
  {
    hide ScanText;
    forall c <- x[..n] ensures IsAlpha(c) {
      AlphaNumerics(c);
    }
    assert x[n..][..3] == "://" && x == (x[..n] + "://") + x[n + 3..];
    UrlRoundTrip.SchemaRun(x[..n]);
    UrlRoundTrip.ScanAppend(StartScan(false), x[..n] + "://", x[n + 3..], 0);
  }

  lemma AbsoluteUrl(x: string)
    requires IsTargetText(x, false) && x[0] != '/' && x[0] != '*'
    ensures ParsedUrl(x, false).Some? <==> IsUrl(x, false)
  {
    hide IsAuthority, ScanText, ParsedHost, AreHashes, Until, ParsedUrl, IsLetter, IsServerText, IsTailText;
    var n := Until(x, ":");
    SchemaScanned(x, n);
    var rest, s := x[n + 3..], Scan(ReqServerStart, Some(SCHEMA), false, map[SCHEMA := Slice(0, n)]);
    var m := Until(rest, "/?");
    ServerTextTail(rest);
    if m == 0 {
      assert rest[..0] == "" && rest[0..] == rest;
      NoAuthority();
      SchemeAlone(x, s, rest, n + 3);
    } else {
      ServerScanned(s, rest, n + 3);
      var y := ScanText(s, rest, n + 3).value;
      assert Text(x, y.data[HOST]) == rest[..m];
      HostDecides(x, false, y);
    }
  }

  lemma ServerTextTail(x: string)
    requires IsServerText(x)
    ensures IsTailText(x[Until(x, "/?")..])
  {
  }

  lemma SchemeAlone(x: string, s: Scan, rest: string, i: nat)
    requires x != "" && ScanText(StartScan(false), x, 0) == ScanText(s, rest, i)
    requires s.s.ReqServerStart? && s.current == Some(SCHEMA) && s.data.Keys == {SCHEMA}
    requires rest != "" && Until(rest, "/?") == 0 && IsTailText(rest)
    ensures ParsedUrl(x, false).None?
  {
    hide ScanText, Tailed, ParsedHost, IsTailText, BeginsTail, Until;
    StopIs(rest, 0);
    TailBegins(s.s, rest[0]);
    RestIsTail(rest);
    TailScanned(s, rest, i);
    TailedKeys(s, ScanText(s, rest, i).value, rest);
  }

  lemma HostByteIsServer(s: HostState, c: char)
    ensures !ParseHostChar(s, c).HostDead? ==> IsServerCharacter(c)
    ensures !ParseHostChar(s, '@').HostDead? ==> ParseHostChar(s, '@').HostStart?
    ensures ParseHostChar(HostStart, '@').HostDead?
  {
    hide IsServerCharacter;
    ServerCharacterIs(c);
    AlphaNumerics(c);
    UserInfoCharacters(c);
    HostCharacters(c);
    NoHostAt();
  }

  lemma NoHostAt()
    ensures !IsHostChar('@') && !IsV6Char('@') && !IsZoneChar('@') && !IsNum('@')
  {
    HostCharacters('@');
    Ranges('@');
  }

  lemma {:induction false} HostIsAuthority(s: HostState, x: string)
    requires !HostFrom(s, x).HostDead?
    ensures IsAuthorityText(x)
    decreases |x|
  {
    hide ParseHostChar, IsServerCharacter;
    if x != "" {
      HostByteIsServer(s, x[0]);
      NoneFrom(x[1..]);
      HostIsAuthority(ParseHostChar(s, x[0]), x[1..]);
      AuthorityUnfold(x);
      if x[0] == '@' && |x| > 1 && x[1] == '@' {
        assert x[1..][0] == '@';
        HostFromCons(HostStart, x[1..]);
        NoneFrom(x[1..][1..]);
      }
    }
  }

  lemma AuthorityIsText(x: string)
    requires IsAuthority(x)
    ensures x != "" && IsAuthorityText(x)
  {
    hide ParseHostChar, HostFrom, IsHostText;
    HostTextFrom(x);
    UserInfoFrom(x);
    HostIsAuthority(if '@' in x then UserInfoStart else HostStart, x);
    NoAuthority();
  }

  lemma HashTail(x: string)
    requires x != "" && x[0] == '?' && AreHashes(x[1..])
    ensures IsTailText(x)
  {
    assert x == [x[0]] + x[1..];
  }

  lemma UrlIsTarget(x: string, isConnect: bool)
    requires IsUrl(x, isConnect)
    ensures IsTargetText(x, isConnect)
  {
    hide IsAuthority, Until, IsTailText, IsAuthorityText, PortOf, UserInfoOf, AreHashes, IsLetter;
    if isConnect {
      var n := Until(x, "/?");
      AuthorityIsText(x[..n]);
      if n < |x| {
        assert x[n..][1..] == x[n + 1..];
        HashTail(x[n..]);
      } else {
        EmptyTail(x[n..]);
      }
    } else if x[0] !in "/*" {
      var rest := x[Until(x, ":") + 3..];
      AuthorityIsText(rest[..Until(rest, "/?")]);
    }
  }

  lemma EmptyTail(x: string)
    ensures x == "" ==> IsTailText(x)
  {
  }

  /** `http_parser_parse_url` accepts exactly the URLs of the grammar. */
  lemma UrlsAreExact(x: string, isConnect: bool)
    ensures ParsedUrl(x, isConnect).Some? <==> IsUrl(x, isConnect)
  {
    hide ParsedUrl, IsUrl, IsServerText, IsTailText, IsLetter, Until, BeginsTail;
    if ParsedUrl(x, isConnect).Some? {
      AcceptedUrlIsTarget(x, isConnect);
      TargetsAreExact(x, isConnect);
    }
    if IsUrl(x, isConnect) {
      UrlIsTarget(x, isConnect);
    }
    if IsTargetText(x, isConnect) {
      if isConnect {
        ConnectUrl(x);
      } else if x[0] in "/*" {
        PathBegins(x[0]);
        NoHost(x, false);
        PathIsUrl(x);
      } else {
        AbsoluteUrl(x);
      }
    }
  }

  lemma PathBegins(c: char)
    requires c in "/*"
    ensures BeginsTail(StartScan(false).s, c)
  {
  }

  lemma PathIsUrl(x: string)
    requires x != "" && x[0] in "/*"
    ensures IsUrl(x, false) <==> IsTailText(x[1..])
  {
  }

  lemma OddHost()
    ensures IsHostText("h:80") && PortBehind("h:80") == "80" && IsPortText(":80") && IsNameCharacter('h')
  {
    hide Until;
    var host := "h:80";
    Ranges('h');
    Ranges('8');
    Ranges('0');
    UntilIs(host, ":", 1);
    assert host[..1] == "h" && host[1..] == ":80" && ":80"[1..] == "80" && host[2..] == "80";
  }

  lemma Eighty()
    ensures AllNum("80") && Numeral("80") == 80
  {
    NumeralMore("", '8');
    NumeralMore("8", '0');
    assert "" + ['8'] == "8" && "8" + ['0'] == "80";
  }

  lemma OddAuthority()
    ensures var auth := "@h:80"; IsAuthority(auth) && UserInfoOf(auth) == "" && PortOf(auth) == "80"
  {
    hide Until, Numeral, IsHostText, PortBehind, IsUserInfoCharacter;
    var auth := "@h:80";
    UntilIs(auth, "@", 0);
    assert auth[1..] == "h:80" && auth[..0] == "" && auth[0] == '@';
    OddHost();
    Eighty();
  }

  /** For example a CONNECT target may have an `@` with no userinfo before its host and a `?` behind its port. */
  lemma OddTargetIsAccepted()
    ensures ParsedUrl("@h:80?", true).Some?
  {
    hide IsAuthority, UserInfoOf, PortOf, Until, ParsedUrl;
    var x := "@h:80?";
    UntilIs(x, "/?", 5);
    assert x[..5] == "@h:80" && x[6..] == "";
    OddAuthority();
    UrlsAreExact(x, true);
  }
}
