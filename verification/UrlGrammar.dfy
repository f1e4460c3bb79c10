/** Which texts are URLs: the parser's state machines against the grammar of what they accept. */
module UrlGrammar {
  import opened HttpTypes
  import opened HttpVisit
  import opened HttpRequestLine
  import opened CharacterSets

  // ----- The grammar -----

  /** How many characters come before the first of `stops`. */
  function Until(x: string, stops: string): (n: nat)
    ensures n <= |x| && (forall i | 0 <= i < n :: x[i] !in stops) && (n < |x| ==> x[n] in stops)
  {
    if x == "" || x[0] in stops then 0 else 1 + Until(x[1..], stops)
  }

  predicate IsUrlCharacter(c: char) {
    IsLetterOrDigit(c) || c in "!\"$%&'()*+,-./" || c in ":;<=>@[\\]^_`{|}~"
  }

  predicate IsServerCharacter(c: char) {
    IsLetterOrDigit(c) || c in "-_.!~*'()" || c in "%;:&=+$," || c in "[]@"
  }

  /** Path, query and fragment. */
  predicate IsTailText(x: string) {
    forall c <- x :: IsUrlCharacter(c) || c in "?#"
  }

  /** The part before a path or a query: never two `@` in a row. */
  predicate IsAuthorityText(x: string) {
    && (forall c <- x :: IsServerCharacter(c))
    && forall i | 0 < i < |x| && x[i] == '@' :: x[i - 1] != '@'
  }

  /** An authority, and a path or a query behind it. */
  predicate IsServerText(x: string) {
    var n := Until(x, "/?");
    IsAuthorityText(x[..n]) && IsTailText(x[n..])
  }

  /** What may stand as the target of a request. */
  predicate IsTargetText(x: string, isConnect: bool) {
    && x != ""
    && if isConnect then IsServerText(x)
       else if x[0] in "/*" then IsTailText(x[1..])
       else
         var n := Until(x, ":");
         && n > 0 && (forall c <- x[..n] :: IsLetter(c)) && "://" <= x[n..]
         && n + 3 < |x| && IsServerText(x[n + 3..])
  }

  // ----- The states, from the front -----

  function UrlFrom(s: State, x: string): State
    decreases |x|
  {
    if x == "" then s else UrlFrom(ParseUrlChar(s, x[0]), x[1..])
  }

  lemma {:induction false} UrlFromSnoc(s: State, x: string, c: char)
    ensures UrlFrom(s, x + [c]) == ParseUrlChar(UrlFrom(s, x), c)
    decreases |x|
  {
    hide ParseUrlChar;
    if x != "" {
      assert (x + [c])[1..] == x[1..] + [c];
      UrlFromSnoc(ParseUrlChar(s, x[0]), x[1..], c);
    } else {
      assert (x + [c])[1..] == "";
    }
  }

  lemma {:induction false} StateFromFront(x: string, isConnect: bool)
    ensures UrlState(x, isConnect) == UrlFrom(UrlState("", isConnect), x)
  {
    hide ParseUrlChar;
    if x != "" {
      var front, c := x[..|x| - 1], x[|x| - 1];
      assert x == front + [c];
      StateFromFront(front, isConnect);
      UrlFromSnoc(UrlState("", isConnect), front, c);
    }
  }

  lemma {:induction false} UrlFromAppend(s: State, a: string, b: string)
    ensures UrlFrom(s, a + b) == UrlFrom(UrlFrom(s, a), b)
    decreases |a|
  {
    hide ParseUrlChar;
    if a == "" {
      assert a + b == b;
    } else {
      assert (a + b)[1..] == a[1..] + b;
      UrlFromAppend(ParseUrlChar(s, a[0]), a[1..], b);
    }
  }

  lemma {:induction false} DeadFrom(x: string)
    ensures UrlFrom(Dead, x).Dead?
  {
    if x != "" {
      DeadFrom(x[1..]);
    }
  }

  // ----- Path, query and fragment -----

  predicate IsTailState(s: State) {
    s.ReqPath? || s.ReqQueryStringStart? || s.ReqQueryString? || s.ReqFragmentStart? || s.ReqFragment?
  }

  lemma UrlCharacterIs(c: char)
    ensures IsUrlChar(c) <==> IsUrlCharacter(c)
  {
    UrlCharacters(c);
  }

  lemma TailByte(s: State, c: char)
    requires IsTailState(s)
    ensures if IsUrlCharacter(c) || c == '?' || c == '#' then IsTailState(ParseUrlChar(s, c))
            else ParseUrlChar(s, c).Dead?
  {
    hide IsUrlCharacter;
    UrlCharacterIs(c);
  }

  lemma {:induction false} TailFrom(s: State, x: string)
    requires IsTailState(s)
    ensures if IsTailText(x) then IsTailState(UrlFrom(s, x)) else UrlFrom(s, x).Dead?
    decreases |x|
  {
    hide IsUrlCharacter, ParseUrlChar;
    if x != "" {
      var s' := ParseUrlChar(s, x[0]);
      TailByte(s, x[0]);
      assert x == [x[0]] + x[1..];
      if s'.Dead? {
        DeadFrom(x[1..]);
        assert x[0] in x;
      } else {
        TailFrom(s', x[1..]);
      }
    }
  }

  // ----- The authority -----

  predicate IsServerState(s: State) {
    s.ReqServerStart? || s.ReqServer? || s.ReqServerWithAt?
  }

  lemma ServerCharacterIs(c: char)
    ensures IsServerCharacter(c) <==> IsUserInfoChar(c) || c == '[' || c == ']' || c == '@'
  {
    UserInfoCharacters(c);
  }

  /** The byte behind part of an authority. */
  lemma ServerByte(s: State, c: char)
    requires IsServerState(s)
    ensures var s' := ParseUrlChar(s, c);
            if c == '/' || c == '?' then IsTailState(s')
            else if !IsServerCharacter(c) || (s.ReqServerWithAt? && c == '@') then s'.Dead?
            else if c == '@' then s'.ReqServerWithAt? else s'.ReqServer?
  {
    hide IsServerCharacter;
    ServerCharacterIs(c);
  }

  /** From within an authority, of which `at` says that an `@` came last. */
  predicate IsRestOfServer(x: string, at: bool) {
    IsServerText(x) && (at && x != "" ==> x[0] != '@')
  }

  lemma ServerUnfold(x: string, at: bool)
    requires x != ""
    ensures IsRestOfServer(x, at) <==>
            if x[0] == '/' || x[0] == '?' then IsTailText(x)
            else IsServerCharacter(x[0]) && !(at && x[0] == '@') && IsRestOfServer(x[1..], x[0] == '@')
  {
    hide IsServerCharacter, IsTailText;
    var n := Until(x, "/?");
    if x[0] != '/' && x[0] != '?' {
      var m := Until(x[1..], "/?");
      assert n == m + 1 && x[n..] == x[1..][m..];
      AuthorityUnfold(x[..n]);
      assert x[..n][1..] == x[1..][..m];
    } else {
      assert n == 0 && x[..n] == "" && x[n..] == x;
    }
  }

  lemma AuthorityUnfold(x: string)
    requires x != ""
    ensures IsAuthorityText(x) <==>
            && IsServerCharacter(x[0]) && IsAuthorityText(x[1..])
            && (x[0] == '@' && |x| > 1 ==> x[1] != '@')
  {
    hide IsServerCharacter;
    assert x == [x[0]] + x[1..];
    if IsServerCharacter(x[0]) && IsAuthorityText(x[1..]) && (x[0] == '@' && |x| > 1 ==> x[1] != '@') {
      forall i | 0 < i < |x| && x[i] == '@' ensures x[i - 1] != '@' {
        if i > 1 {
          assert x[1..][i - 1] == '@' && x[1..][i - 2] == x[i - 1];
        }
      }
    }
    if IsAuthorityText(x) {
      forall i | 0 < i < |x[1..]| && x[1..][i] == '@' ensures x[1..][i - 1] != '@' {
        assert x[i + 1] == '@';
      }
    }
  }

  lemma {:induction false} ServerFrom(s: State, x: string)
    requires IsServerState(s)
    ensures if IsRestOfServer(x, s.ReqServerWithAt?)
            then UrlFrom(s, x) == s || UrlFrom(s, x).ReqServer? || UrlFrom(s, x).ReqServerWithAt?
                 || IsTailState(UrlFrom(s, x))
            else UrlFrom(s, x).Dead?
    ensures x != "" ==> !UrlFrom(s, x).ReqServerStart?
    decreases |x|
  {
    hide IsServerCharacter, ParseUrlChar, IsRestOfServer;
    if x == "" {
      assert IsRestOfServer(x, s.ReqServerWithAt?) by {
        NothingIsServer(s.ReqServerWithAt?);
      }
    } else {
      var s' := ParseUrlChar(s, x[0]);
      ServerByte(s, x[0]);
      ServerUnfold(x, s.ReqServerWithAt?);
      if x[0] == '/' || x[0] == '?' {
        assert x == [x[0]] + x[1..];
        TailFrom(s', x[1..]);
      } else if s'.Dead? {
        DeadFrom(x[1..]);
      } else {
        ServerFrom(s', x[1..]);
      }
    }
  }

  lemma NothingIsServer(at: bool)
    ensures IsRestOfServer("", at)
  {
  }

  // ----- The scheme -----

  lemma SchemaByte(c: char)
    ensures var s := ParseUrlChar(ReqSchema, c);
            if IsLetter(c) then s.ReqSchema? else if c == ':' then s.ReqSchemaSlash? else s.Dead?
  {
    AlphaNumerics(c);
    Ranges(c);
  }

  lemma SlashBytes(c: char)
    ensures ParseUrlChar(ReqSchemaSlash, c) == if c == '/' then ReqSchemaSlashSlash else Dead
    ensures ParseUrlChar(ReqSchemaSlashSlash, c) == if c == '/' then ReqServerStart else Dead
  {
  }

  /** The colon and what comes after it. */
  lemma ColonFrom(x: string)
    requires x != "" && x[0] == ':'
    ensures if "://" <= x then UrlFrom(ReqSchema, x) == UrlFrom(ReqServerStart, x[3..])
            else UrlFrom(ReqSchema, x).Dead? || IsSchemaState(UrlFrom(ReqSchema, x))
  {
    hide ParseUrlChar, IsLetter;
    SchemaByte(':');
    NoLetter();
    ThreeMarks(x);
    var y := x[1..];
    UrlFromCons(ReqSchema, x);
    if y != "" {
      SlashBytes(y[0]);
      UrlFromCons(ReqSchemaSlash, y);
      var z := y[1..];
      if y[0] != '/' {
        DeadFrom(z);
      } else if z != "" {
        SlashBytes(z[0]);
        UrlFromCons(ReqSchemaSlashSlash, z);
        assert z[1..] == x[3..];
        if z[0] != '/' {
          DeadFrom(z[1..]);
        }
      }
    }
  }

  lemma ThreeMarks(x: string)
    ensures "://" <= x <==> |x| >= 3 && x[0] == ':' && x[1] == '/' && x[2] == '/'
  {
  }

  lemma UrlFromCons(s: State, x: string)
    requires x != ""
    ensures UrlFrom(s, x) == UrlFrom(ParseUrlChar(s, x[0]), x[1..])
  {
    hide ParseUrlChar;
  }

  lemma NoLetter()
    ensures !IsLetter(':')
  {
    Ranges(':');
  }

  lemma {:induction false} SchemaFrom(x: string)
    ensures var n := Until(x, ":");
            if (forall c <- x[..n] :: IsLetter(c)) && "://" <= x[n..] then
              UrlFrom(ReqSchema, x) == UrlFrom(ReqServerStart, x[n + 3..])
            else UrlFrom(ReqSchema, x).Dead? || IsSchemaState(UrlFrom(ReqSchema, x))
    decreases |x|
  {
    hide ParseUrlChar, IsLetter, Until, UrlFrom;
    var n := Until(x, ":");
    NothingUntil(":");
    if x == "" {
    } else if x[0] == ':' {
      ColonFrom(x);
      StopsAtOnce(x);
      assert x[..n] == "" && x[n..] == x;
    } else {
      SchemaByte(x[0]);
      UrlFromCons(ReqSchema, x);
      SchemaRest(x);
      if IsLetter(x[0]) {
        SchemaFrom(x[1..]);
      } else {
        DeadFrom(x[1..]);
      }
    }
  }

  lemma StopsAtOnce(x: string)
    requires x != "" && x[0] == ':'
    ensures Until(x, ":") == 0
  {
  }

  lemma NothingUntil(stops: string)
    ensures Until("", stops) == 0
    ensures forall s :: UrlFrom(s, "") == s
  {
  }

  lemma SchemaRest(x: string)
    requires x != "" && x[0] != ':'
    ensures var n, m := Until(x, ":"), Until(x[1..], ":");
            && n == m + 1 && x[n..] == x[1..][m..] && (n + 3 <= |x| ==> x[n + 3..] == x[1..][m + 3..])
            && ((forall c <- x[..n] :: IsLetter(c)) <==> IsLetter(x[0]) && forall c <- x[1..][..m] :: IsLetter(c))
  {
    hide IsLetter;
    var n, m := Until(x, ":"), Until(x[1..], ":");
    assert x[..n] == [x[0]] + x[1..][..m];
  }

  // ----- Targets -----

  lemma FirstByte(c: char)
    ensures var s := ParseUrlChar(ReqSpacesBeforeUrl, c);
            if c == '/' || c == '*' then s.ReqPath? else if IsLetter(c) then s.ReqSchema? else s.Dead?
  {
    AlphaNumerics(c);
    Ranges(c);
  }

  lemma PlainTarget(x: string)
    requires x != ""
    ensures var s := UrlFrom(ReqSpacesBeforeUrl, x); !s.Dead? && !IsSchemaState(s) <==> IsTargetText(x, false)
  {
    hide ParseUrlChar, IsLetter, IsServerText, IsTailText;
    FirstByte(x[0]);
    assert x == [x[0]] + x[1..];
    if x[0] == '/' || x[0] == '*' {
      TailFrom(ReqPath, x[1..]);
    } else if !IsLetter(x[0]) {
      DeadFrom(x[1..]);
      var n := Until(x, ":");
      assert n > 0 ==> x[0] in x[..n];
    } else {
      SchemaFirst(x);
      SchemaFrom(x);
      var n := Until(x, ":");
      if "://" <= x[n..] {
        ServerFrom(ReqServerStart, x[n + 3..]);
        ServerStartRest(x[n + 3..]);
      }
    }
  }

  /** The first letter of a scheme leads to the state that the others stay in. */
  lemma SchemaFirst(x: string)
    requires x != "" && IsLetter(x[0])
    ensures UrlFrom(ReqSpacesBeforeUrl, x) == UrlFrom(ReqSchema, x) && Until(x, ":") > 0
  {
    hide ParseUrlChar, IsLetter;
    FirstByte(x[0]);
    SchemaByte(x[0]);
    NoLetter();
    NotStart(x[0]);
  }

  lemma NotStart(c: char)
    ensures c == '/' || c == '*' ==> !IsLetter(c)
  {
    Ranges(c);
  }

  lemma ServerStartRest(x: string)
    ensures IsRestOfServer(x, false) <==> IsServerText(x)
  {
  }

  lemma {:induction false} NoLineEnds(x: string, isConnect: bool)
    requires x != "" && !UrlFrom(UrlState("", isConnect), x).Dead?
    ensures IsUrlText(x)
  {
    hide ParseUrlChar;
    StateFromFront(x, isConnect);
    AliveText(x, isConnect);
  }

  /** The parser takes exactly the targets of the grammar. */
  lemma TargetsAreExact(x: string, isConnect: bool)
    ensures IsTarget(x, isConnect) <==> IsTargetText(x, isConnect)
  {
    hide ParseUrlChar, IsUrlText, IsServerText, UrlState;
    if x == "" {
      EmptyIsNoText();
    } else {
      StateFromFront(x, isConnect);
      FirstState(isConnect);
      if !UrlState(x, isConnect).Dead? {
        NoLineEnds(x, isConnect);
      }
      if isConnect {
        ServerFrom(ReqServerStart, x);
        ServerStartRest(x);
      } else {
        PlainTarget(x);
      }
    }
  }

  lemma EmptyIsNoText()
    ensures !IsUrlText("")
  {
  }

  lemma FirstState(isConnect: bool)
    ensures UrlState("", isConnect) == if isConnect then ReqServerStart else ReqSpacesBeforeUrl
  {
  }
}
