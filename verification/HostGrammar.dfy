/** Which texts `http_parse_host` takes for a host: userinfo, name or address, and port. */
module HostGrammar {
  import opened HttpTypes
  import opened CharacterSets
  import opened Urls
  import opened UrlGrammar

  // ----- The grammar -----

  predicate IsUserInfoCharacter(c: char) {
    IsLetterOrDigit(c) || c in "-_.!~*'()" || c in "%;:&=+$,"
  }

  predicate IsNameCharacter(c: char) {
    IsLetterOrDigit(c) || c in ".-"
  }

  predicate IsAddressCharacter(c: char) {
    c in DIGITS || c in "abcdef" || c in "ABCDEF" || c in ":."
  }

  predicate IsZoneCharacter(c: char) {
    IsLetterOrDigit(c) || c in "%.-_~"
  }

  predicate IsDigit(c: char) {
    c in DIGITS
  }

  predicate All(x: string, p: char -> bool) {
    forall c <- x :: p(c)
  }

  /** Nothing, or a colon and digits. */
  predicate IsPortText(x: string) {
    x == "" || (x[0] == ':' && x[1..] != "" && All(x[1..], IsDigit))
  }

  /** What comes behind a bracket: an address, perhaps with a zone, the closing bracket, and perhaps a port. */
  predicate IsAddressText(x: string) {
    var n := Until(x, "]%");
    && 0 < n < |x| && All(x[..n], IsAddressCharacter)
    && if x[n] == ']' then IsPortText(x[n + 1..]) else
         var y := x[n + 1..];
         var m := Until(y, "]");
         0 < m < |y| && All(y[..m], IsZoneCharacter) && IsPortText(y[m + 1..])
  }

  predicate IsHostText(x: string) {
    && x != ""
    && if x[0] == '[' then IsAddressText(x[1..])
       else var n := Until(x, ":"); n > 0 && All(x[..n], IsNameCharacter) && IsPortText(x[n..])
  }

  /** A host, and in front of it perhaps userinfo and an `@`. */
  predicate IsHostPart(x: string, withUserInfo: bool) {
    if withUserInfo then
      var n := Until(x, "@"); n < |x| && All(x[..n], IsUserInfoCharacter) && IsHostText(x[n + 1..])
    else IsHostText(x)
  }

  // ----- The states -----

  function HostFrom(s: HostState, x: string): HostState
    decreases |x|
  {
    if x == "" then s else HostFrom(ParseHostChar(s, x[0]), x[1..])
  }

  lemma {:induction false} NoneFrom(x: string)
    ensures HostFrom(HostDead, x).HostDead?
  {
    if x != "" {
      NoneFrom(x[1..]);
    }
  }

  lemma HostFromCons(s: HostState, x: string)
    requires x != ""
    ensures HostFrom(s, x) == HostFrom(ParseHostChar(s, x[0]), x[1..])
  {
    hide ParseHostChar;
  }

  lemma {:induction false} HostFromSnoc(s: HostState, x: string, c: char)
    ensures HostFrom(s, x + [c]) == ParseHostChar(HostFrom(s, x), c)
    decreases |x|
  {
    hide ParseHostChar;
    if x != "" {
      assert (x + [c])[1..] == x[1..] + [c];
      HostFromSnoc(ParseHostChar(s, x[0]), x[1..], c);
    } else {
      assert (x + [c])[1..] == "";
    }
  }

  /** The loop over the host stands where its states lead. */
  lemma {:induction false} HostStates(h: HostScan, x: string, i: nat)
    requires !h.s.HostDead?
    ensures match HostText(h, x, i)
            case None => HostFrom(h.s, x).HostDead?
            case Some(g) => g.s == HostFrom(h.s, x) && !g.s.HostDead?
  {
    hide ParseHostChar;
    if x != "" {
      var front, c := x[..|x| - 1], x[|x| - 1];
      assert x == front + [c];
      HostStates(h, front, i);
      HostFromSnoc(h.s, front, c);
      DeadHost(c);
    }
  }

  lemma DeadHost(c: char)
    ensures ParseHostChar(HostDead, c).HostDead?
  {
  }

  /** A state that takes the characters of one class, up to one of `stops`. */
  lemma {:induction false} Loop(s: HostState, x: string, p: char -> bool, stops: string)
    requires forall c :: ParseHostChar(s, c) == s || c in stops || ParseHostChar(s, c).HostDead?
    requires forall c | c !in stops :: p(c) <==> ParseHostChar(s, c) == s
    requires !s.HostDead? && forall c | c in stops :: !p(c)
    ensures var n := Until(x, stops);
            if All(x[..n], p) then HostFrom(s, x) == HostFrom(s, x[n..]) else HostFrom(s, x).HostDead?
    decreases |x|
  {
    hide ParseHostChar, HostFrom;
    var n := Until(x, stops);
    if n == 0 {
      assert x[..0] == "" && x[0..] == x;
    } else {
      HostFromCons(s, x);
      assert x[..n] == [x[0]] + x[1..][..n - 1] && x[n..] == x[1..][n - 1..];
      if p(x[0]) {
        Loop(s, x[1..], p, stops);
        assert All(x[..n], p) <==> All(x[1..][..n - 1], p);
      } else {
        NoneFrom(x[1..]);
        assert x[0] in x[..n];
      }
    }
  }

  lemma HostNothing(s: HostState)
    ensures HostFrom(s, "") == s
  {
  }

  // ----- State by state -----

  lemma PortBytes(c: char)
    ensures ParseHostChar(HostPort, c) == if IsDigit(c) then HostPort else HostDead
    ensures ParseHostChar(HostPortStart, c) == if IsDigit(c) then HostPort else HostDead
  {
    AlphaNumerics(c);
  }

  lemma PortFrom(x: string)
    ensures MayEnd(HostFrom(HostPort, x)) <==> All(x, IsDigit)
    ensures MayEnd(HostFrom(HostPortStart, x)) <==> x != "" && All(x, IsDigit)
  {
    hide ParseHostChar, HostFrom, IsDigit;
    forall c ensures ParseHostChar(HostPort, c) == if IsDigit(c) then HostPort else HostDead {
      PortBytes(c);
    }
    NoStops(x);
    Loop(HostPort, x, IsDigit, "");
    assert x[..|x|] == x && x[|x|..] == "";
    HostNothing(HostPort);
    HostNothing(HostPortStart);
    if x != "" {
      PortBytes(x[0]);
      HostFromCons(HostPortStart, x);
      HostFromCons(HostPort, x);
      assert x[0] in x;
      NoneFrom(x[1..]);
    }
  }

  lemma {:induction false} NoStops(x: string)
    ensures Until(x, "") == |x|
  {
    if x != "" {
      NoStops(x[1..]);
    }
  }

  /** What comes behind a name or behind the closing bracket. */
  lemma BehindHost(s: HostState, x: string)
    requires s.HostV6End? || (s.Host? && (x == "" || x[0] == ':'))
    ensures MayEnd(HostFrom(s, x)) <==> IsPortText(x)
  {
    hide HostFrom, All;
    HostNothing(s);
    if x != "" {
      HostFromCons(s, x);
      PortFrom(x[1..]);
      NoneFrom(x[1..]);
      ColonIsNoName();
    }
  }

  lemma ColonIsNoName()
    ensures !IsHostChar(':')
  {
    AlphaNumerics(':');
    Ranges(':');
  }

  lemma NameBytes(c: char)
    ensures IsHostChar(c) <==> IsNameCharacter(c)
    ensures c == ':' || c == '[' ==> !IsNameCharacter(c)
  {
    HostCharacters(c);
    Ranges(c);
  }

  lemma NameFrom(x: string)
    ensures var n := Until(x, ":");
            MayEnd(HostFrom(Host, x)) <==> All(x[..n], IsNameCharacter) && IsPortText(x[n..])
  {
    hide HostFrom, IsNameCharacter, All, IsPortText;
    forall c
      ensures ParseHostChar(Host, c) == if IsNameCharacter(c) then Host else if c == ':' then HostPortStart
              else HostDead
      ensures c == ':' ==> !IsNameCharacter(c)
    {
      NameBytes(c);
    }
    Loop(Host, x, IsNameCharacter, ":");
    BehindHost(Host, x[Until(x, ":")..]);
  }

  lemma ZoneBytes(c: char)
    ensures IsZoneChar(c) <==> IsZoneCharacter(c)
    ensures c == ']' ==> !IsZoneCharacter(c)
  {
    HostCharacters(c);
    Ranges(c);
  }

  lemma ZoneFrom(x: string)
    ensures var n := Until(x, "]");
            && (MayEnd(HostFrom(HostV6Zone, x)) <==> n < |x| && All(x[..n], IsZoneCharacter) && IsPortText(x[n + 1..]))
            && (MayEnd(HostFrom(HostV6ZoneStart, x))
                <==> 0 < n < |x| && All(x[..n], IsZoneCharacter) && IsPortText(x[n + 1..]))
  {
    hide HostFrom, IsZoneCharacter, IsPortText;
    forall c
      ensures ParseHostChar(HostV6Zone, c)
              == if c == ']' then HostV6End else if IsZoneCharacter(c) then HostV6Zone else HostDead
      ensures ParseHostChar(HostV6ZoneStart, c) == if IsZoneCharacter(c) then HostV6Zone else HostDead
      ensures c == ']' ==> !IsZoneCharacter(c)
    {
      ZoneBytes(c);
    }
    var n := Until(x, "]");
    Loop(HostV6Zone, x, IsZoneCharacter, "]");
    HostNothing(HostV6Zone);
    HostNothing(HostV6ZoneStart);
    if n < |x| {
      HostFromCons(HostV6Zone, x[n..]);
      assert x[n..][1..] == x[n + 1..];
      BehindHost(HostV6End, x[n + 1..]);
    } else {
      assert x[n..] == "";
    }
    if x != "" {
      HostFromCons(HostV6ZoneStart, x);
      HostFromCons(HostV6Zone, x);
      NoneFrom(x[1..]);
      assert n > 0 ==> x[0] in x[..n];
    }
  }

  lemma AddressBytes(c: char)
    ensures IsV6Char(c) <==> IsAddressCharacter(c)
    ensures c == ']' || c == '%' ==> !IsAddressCharacter(c)
  {
    HostCharacters(c);
    Ranges(c);
  }

  lemma AddressFrom(x: string)
    ensures MayEnd(HostFrom(HostV6Start, x)) <==> IsAddressText(x)
  {
    hide HostFrom, IsAddressCharacter, IsPortText, IsZoneCharacter, Until;
    forall c
      ensures ParseHostChar(HostV6, c) == if c == ']' then HostV6End else if IsAddressCharacter(c) then HostV6
              else if c == '%' then HostV6ZoneStart else HostDead
      ensures ParseHostChar(HostV6Start, c) == if IsAddressCharacter(c) then HostV6 else HostDead
      ensures c == ']' || c == '%' ==> !IsAddressCharacter(c)
    {
      AddressBytes(c);
    }
    var n := Until(x, "]%");
    Loop(HostV6, x, IsAddressCharacter, "]%");
    HostNothing(HostV6);
    HostNothing(HostV6Start);
    if n < |x| {
      HostFromCons(HostV6, x[n..]);
      assert x[n..][1..] == x[n + 1..];
      BehindHost(HostV6End, x[n + 1..]);
      ZoneFrom(x[n + 1..]);
    } else {
      assert x[n..] == "";
    }
    if x != "" {
      HostFromCons(HostV6Start, x);
      HostFromCons(HostV6, x);
      NoneFrom(x[1..]);
      assert n > 0 ==> x[0] in x[..n];
    }
  }

  lemma HostTextFrom(x: string)
    ensures MayEnd(HostFrom(HostStart, x)) <==> IsHostText(x)
  {
    hide HostFrom, IsNameCharacter, IsPortText, IsAddressText;
    HostNothing(HostStart);
    if x != "" {
      HostFromCons(HostStart, x);
      NameBytes(x[0]);
      if x[0] == '[' {
        AddressFrom(x[1..]);
      } else {
        NameFrom(x);
        HostFromCons(Host, x);
        NoneFrom(x[1..]);
        var n := Until(x, ":");
        assert n > 0 ==> x[0] in x[..n];
      }
    }
  }

  lemma UserInfoBytes(c: char)
    ensures IsUserInfoChar(c) <==> IsUserInfoCharacter(c)
    ensures c == '@' ==> !IsUserInfoCharacter(c)
  {
    UserInfoCharacters(c);
    Ranges(c);
  }

  lemma UserInfoFrom(x: string)
    ensures MayEnd(HostFrom(UserInfoStart, x)) <==> IsHostPart(x, true)
  {
    hide HostFrom, IsUserInfoCharacter, IsHostText;
    forall c
      ensures ParseHostChar(UserInfo, c)
              == if c == '@' then HostStart else if IsUserInfoCharacter(c) then UserInfo else HostDead
      ensures ParseHostChar(UserInfoStart, c) == ParseHostChar(UserInfo, c)
      ensures c == '@' ==> !IsUserInfoCharacter(c)
    {
      UserInfoBytes(c);
    }
    var n := Until(x, "@");
    Loop(UserInfo, x, IsUserInfoCharacter, "@");
    HostNothing(UserInfo);
    HostNothing(UserInfoStart);
    if n < |x| {
      HostFromCons(UserInfo, x[n..]);
      assert x[n..][1..] == x[n + 1..];
      HostTextFrom(x[n + 1..]);
    } else {
      assert x[n..] == "";
    }
    if x != "" {
      HostFromCons(UserInfoStart, x);
      HostFromCons(UserInfo, x);
    }
  }

  /** The parser takes exactly the hosts of the grammar. */
  lemma HostsAreExact(d: FieldData, foundAt: bool, buf: string)
    requires HOST in d && End(d[HOST]) <= |buf|
    ensures ParsedHost(d, foundAt, buf).Some? <==> IsHostPart(Text(buf, d[HOST]), foundAt)
  {
    hide IsHostText, HostFrom, ParseHostChar;
    var x := Text(buf, d[HOST]);
    HostStates(StartHost(d, foundAt), x, d[HOST].off);
    UserInfoFrom(x);
    HostTextFrom(x);
  }
}
