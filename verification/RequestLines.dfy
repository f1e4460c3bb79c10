/** Which request lines the parser takes, and what it reads off them. */
module RequestLines {
  import opened Traces
  import opened HttpTypes
  import opened HttpVisit
  import opened HttpRun
  import opened HttpHeaders
  import opened HttpRecognisers
  import opened HttpRequestLine
  import opened CharacterSets
  import opened UrlGrammar

  // ----- The grammar -----

  function AfterSpaces(x: string): (y: string)
    ensures |y| <= |x| && (y != "" ==> y[0] != ' ') && x[|x| - |y|..] == y
  {
    if x != "" && x[0] == ' ' then AfterSpaces(x[1..]) else x
  }

  /** What stands before the two digits of a version. */
  function Protocol(x: string, m: Method): string {
    if "HTTP/" <= x then "HTTP/" else if m.SOURCE? && "ICE/" <= x then "ICE/" else ""
  }

  predicate IsDigits(x: string) {
    |x| == 3 && x[0] in DIGITS && x[1] == '.' && x[2] in DIGITS
  }

  predicate IsVersionText(x: string, m: Method) {
    Protocol(x, m) != "" && IsDigits(x[|Protocol(x, m)|..])
  }

  datatype Parts = Parts(verb: Method, url: string, version: string)

  /**
   The parts of a request line without its line end: a method, a target, and perhaps a version, with spaces
   between them.
   */
  ghost predicate IsLineOf(x: string, p: Parts) {
    var n := Until(x, " ");
    && n < |x| && IsWordOf(x[..n], p.verb)
    && var rest := AfterSpaces(x[n..]);
       var k := Until(rest, " ");
       && p.url == rest[..k] && IsTargetText(p.url, p.verb.CONNECT?)
       && p.version == AfterSpaces(rest[k..])
       && (k < |rest| ==> IsVersionText(p.version, p.verb))
  }

  predicate IsLineEndText(e: string) {
    e == "\r\n" || e == "\n"
  }

  // ----- The version -----

  /** The byte of a version, whatever it is. */
  lemma VersionStep(cfg: Settings, f: Fields, t: Trace, ch: char)
    requires Valid(f) && f.errno.OK? && IsVersionState(f.state) && f.nread < MAX_HEADER_SIZE
    ensures var v := VisitVersion(Bump(f, 1), ch);
            Step(cfg, Stream(f, t), ch) == if v.next.Fail? then Failed else Ready(Stream(v.f, t))
  {
    hide Emit, Step, Sound, VisitState, VisitVersion;
    PlainStep(cfg, f, t, ch);
    DispatchUrl(Bump(f, 1), ch);
    VersionIsPlain(Bump(f, 1), ch);
  }

  lemma VersionIsPlain(f: Fields, ch: char)
    ensures var v := VisitVersion(f, ch); v.next.Fail? || (v.op.Nop? && v.next.Break?)
  {
  }

  /** What has to follow in the states of the protocol's name. */
  function Rest(s: State): string {
    match s
    case ReqHttpH => "TTP/" case ReqHttpHT => "TP/" case ReqHttpHTT => "P/" case ReqHttpHTTP => "/"
    case ReqHttpI => "CE/" case ReqHttpIC => "E/" case _ => ""
  }

  lemma RestByte(f: Fields, ch: char)
    requires Rest(f.state) != ""
    ensures IsVersionState(f.state)
    ensures var w, v := Rest(f.state), VisitVersion(f, ch);
            if ch == w[0] then
              && v.next.Break? && v.f == f.(state := v.f.state) && Rest(v.f.state) == w[1..]
              && (w[1..] == "" ==> v.f.state.ReqHttpMajor?)
            else v.next.Fail?
  {
  }

  lemma FailedRun(cfg: Settings, s: Stream, x: string)
    requires Valid(s.f) && x != "" && Step(cfg, s, x[0]).Failed?
    ensures Run(cfg, s, x) == Failed
  {
    hide Step;
  }

  lemma ReadyRun(cfg: Settings, s: Stream, x: string, s': Stream)
    requires Valid(s.f) && x != "" && Step(cfg, s, x[0]) == Ready(s')
    ensures Valid(s'.f) && Run(cfg, s, x) == Run(cfg, s', x[1..])
  {
    hide Step;
  }

  predicate EndsLine(x: string) {
    x != "" && x[|x| - 1] == '\n'
  }

  lemma NoFeed(s: State)
    ensures '\n' !in Rest(s)
  {
  }

  lemma {:induction false} ProtocolRun(cfg: Settings, f: Fields, t: Trace, x: string)
    requires Valid(f) && f.errno.OK? && Rest(f.state) != "" && f.nread + |x| <= MAX_HEADER_SIZE && EndsLine(x)
    ensures var w := Rest(f.state);
            if w <= x then
              EndsLine(x[|w|..]) && Valid(On(f, ReqHttpMajor, |w|))
              && Run(cfg, Stream(f, t), x) == Run(cfg, Stream(On(f, ReqHttpMajor, |w|), t), x[|w|..])
            else Run(cfg, Stream(f, t), x) == Failed
    decreases |Rest(f.state)|
  {
    hide Run, Step, Valid, Rest, VisitVersion;
    var w := Rest(f.state);
    RestByte(Bump(f, 1), x[0]);
    NoFeed(f.state);
    VersionStep(cfg, f, t, x[0]);
    var v := VisitVersion(Bump(f, 1), x[0]);
    if x[0] != w[0] {
      FailedRun(cfg, Stream(f, t), x);
    } else {
      ReadyRun(cfg, Stream(f, t), x, Stream(v.f, t));
      assert w <= x <==> w[1..] <= x[1..] by {
        assert w == [w[0]] + w[1..] && x == [x[0]] + x[1..];
      }
      assert |x| > 1;
      if w[1..] != "" {
        ProtocolRun(cfg, v.f, t, x[1..]);
        assert w <= x ==> x[1..][|w| - 1..] == x[|w|..];
      }
    }
  }

  lemma ProtocolStart(f: Fields, ch: char)
    requires f.state.ReqHttpStart? && ch != ' '
    ensures var v := VisitVersion(f, ch);
            if ch == 'H' then v.next.Break? && v.f == f.(state := ReqHttpH)
            else if ch == 'I' && f.verb.SOURCE? then v.next.Break? && v.f == f.(state := ReqHttpI)
            else v.next.Fail?
    ensures Rest(ReqHttpH) == "TTP/" && Rest(ReqHttpI) == "CE/"
  {
  }

  lemma ProtocolSplits(x: string, m: Method)
    requires x != ""
    ensures Protocol(x, m) == if x[0] == 'H' && "TTP/" <= x[1..] then "HTTP/"
            else if x[0] == 'I' && m.SOURCE? && "CE/" <= x[1..] then "ICE/" else ""
  {
    assert "HTTP/" == "H" + "TTP/" && "ICE/" == "I" + "CE/" && x == [x[0]] + x[1..];
    assert "HTTP/" <= x <==> x[0] == 'H' && "TTP/" <= x[1..];
    assert "ICE/" <= x <==> x[0] == 'I' && "CE/" <= x[1..];
  }

  lemma ProtocolIsRead(cfg: Settings, f: Fields, t: Trace, x: string)
    requires Valid(f) && f.errno.OK? && f.state.ReqHttpStart? && f.nread + |x| <= MAX_HEADER_SIZE && EndsLine(x)
             && x[0] != ' '
    ensures var w := Protocol(x, f.verb);
            if w != "" then
              EndsLine(x[|w|..]) && Valid(On(f, ReqHttpMajor, |w|))
              && Run(cfg, Stream(f, t), x) == Run(cfg, Stream(On(f, ReqHttpMajor, |w|), t), x[|w|..])
            else Run(cfg, Stream(f, t), x) == Failed
  {
    hide Run, Step, Valid, VisitVersion, Protocol, Rest;
    ProtocolSplits(x, f.verb);
    ProtocolStart(Bump(f, 1), x[0]);
    VersionStep(cfg, f, t, x[0]);
    var v := VisitVersion(Bump(f, 1), x[0]);
    if v.next.Fail? {
      FailedRun(cfg, Stream(f, t), x);
    } else {
      ReadyRun(cfg, Stream(f, t), x, Stream(v.f, t));
      ProtocolRun(cfg, v.f, t, x[1..]);
      assert "TTP/" <= x[1..] ==> x[1..][4..] == x[5..];
      assert "CE/" <= x[1..] ==> x[1..][3..] == x[4..];
    }
  }

  // ----- The digits and the end of the line -----

  lemma DigitBytes(f: Fields, ch: char)
    ensures var v := VisitVersion(f, ch);
            && (f.state.ReqHttpMajor? ==>
                  if IsNum(ch) then v.next.Break? && v.f == f.(state := ReqHttpDot, major := Digit(ch))
                    else v.next.Fail?)
            && (f.state.ReqHttpMinor? ==>
                  if IsNum(ch) then v.next.Break? && v.f == f.(state := ReqHttpEnd, minor := Digit(ch))
                    else v.next.Fail?)
            && (f.state.ReqHttpDot? ==>
                  if ch == '.' then v.next.Break? && v.f == f.(state := ReqHttpMinor) else v.next.Fail?)
  {
  }

  lemma EndBytes(f: Fields, ch: char)
    ensures var v := VisitVersion(f, ch);
            && (f.state.ReqHttpEnd? ==>
                  if ch == '\r' then v.next.Break? && v.f == f.(state := ReqLineAlmostDone)
                  else if ch == '\n' then v.next.Break? && v.f == f.(state := HeaderFieldStart) else v.next.Fail?)
            && (f.state.ReqLineAlmostDone? ==>
                  if ch == '\n' then v.next.Break? && v.f == f.(state := HeaderFieldStart) else v.next.Fail?)
  {
  }

  /** One byte of a version, which is right or refused. */
  lemma OneByte(cfg: Settings, f: Fields, t: Trace, x: string, g: Fields)
    requires Valid(f) && f.errno.OK? && IsVersionState(f.state) && f.nread < MAX_HEADER_SIZE && x != ""
    requires var v := VisitVersion(Bump(f, 1), x[0]); v.next.Fail? || v.f == g
    ensures if VisitVersion(Bump(f, 1), x[0]).next.Fail? then Run(cfg, Stream(f, t), x) == Failed
            else Valid(g) && Run(cfg, Stream(f, t), x) == Run(cfg, Stream(g, t), x[1..])
  {
    hide Run, Step, Valid, VisitVersion;
    VersionStep(cfg, f, t, x[0]);
    if VisitVersion(Bump(f, 1), x[0]).next.Fail? {
      FailedRun(cfg, Stream(f, t), x);
    } else {
      ReadyRun(cfg, Stream(f, t), x, Stream(g, t));
    }
  }

  lemma FeedIsLast(x: string)
    requires x != "" && '\n' !in x[..|x| - 1]
    ensures forall i | 0 <= i < |x| - 1 :: x[i] != '\n'
  {
    forall i | 0 <= i < |x| - 1 ensures x[i] != '\n' {
      assert x[i] == x[..|x| - 1][i];
    }
  }

  /** What follows the second digit has to be the end of the line. */
  lemma LineEndRun(cfg: Settings, f: Fields, t: Trace, x: string)
    requires Valid(f) && f.errno.OK? && f.state.ReqHttpEnd? && f.nread + |x| <= MAX_HEADER_SIZE && EndsLine(x)
    requires '\n' !in x[..|x| - 1]
    ensures Run(cfg, Stream(f, t), x)
            == if IsLineEndText(x) then Ready(Stream(On(f, HeaderFieldStart, |x|), t)) else Failed
  {
    hide Run, Step, Valid, VisitVersion;
    FeedIsLast(x);
    EndBytes(Bump(f, 1), x[0]);
    var g := On(f, if x[0] == '\r' then ReqLineAlmostDone else HeaderFieldStart, 1);
    OneByte(cfg, f, t, x, g);
    if x[0] == '\n' {
      assert x == "\n" && x[1..] == "";
      RunNothing(cfg, Stream(g, t));
    } else if x[0] == '\r' {
      var y := x[1..];
      EndBytes(Bump(g, 1), y[0]);
      OneByte(cfg, g, t, y, On(f, HeaderFieldStart, 2));
      if y[0] == '\n' {
        assert x == "\r\n" && y[1..] == "";
        RunNothing(cfg, Stream(On(f, HeaderFieldStart, 2), t));
      } else {
        assert x != "\r\n" by { assert x[1] == y[0]; }
      }
    }
  }

  /** The digits of a version and the end of the line. */
  predicate IsDigitsEnd(x: string) {
    |x| > 3 && IsDigits(x[..3]) && IsLineEndText(x[3..])
  }

  lemma DigitsRun(cfg: Settings, f: Fields, t: Trace, x: string)
    requires Valid(f) && f.errno.OK? && f.state.ReqHttpMajor? && f.nread + |x| <= MAX_HEADER_SIZE && EndsLine(x)
    requires '\n' !in x[..|x| - 1]
    ensures IsDigitsEnd(x) ==> IsNum(x[0]) && IsNum(x[2])
    ensures Run(cfg, Stream(f, t), x)
            == if IsDigitsEnd(x) then
                 Ready(Stream(On(f, HeaderFieldStart, |x|).(major := Digit(x[0]), minor := Digit(x[2])), t))
               else Failed
  {
    hide Run, Step, Valid, VisitVersion, IsNum, Digit, IsLineEndText;
    DigitCharacters(x[0]);
    DigitBytes(Bump(f, 1), x[0]);
    if !IsNum(x[0]) {
      OneByte(cfg, f, t, x, f);
    } else {
      var f1 := On(f, ReqHttpDot, 1).(major := Digit(x[0]));
      OneByte(cfg, f, t, x, f1);
      NoFeedLater(x, 1);
      DigitsRest(cfg, f1, t, x[1..]);
      assert IsDigitsEnd(x) <==> |x| > 3 && x[1] == '.' && IsNum(x[2]) && IsLineEndText(x[3..]) by {
        if |x| > 2 { DigitCharacters(x[2]); }
        assert |x| > 3 ==> x[..3][0] == x[0] && x[..3][1] == x[1] && x[..3][2] == x[2];
      }
      assert |x| > 3 ==> x[1..][2..] == x[3..];
    }
  }

  lemma DigitCharacters(c: char)
    ensures IsNum(c) <==> c in DIGITS
    ensures IsNum(c) ==> c != '\n'
  {
    AlphaNumerics(c);
  }

  lemma NoFeedLater(x: string, n: nat)
    requires EndsLine(x) && '\n' !in x[..|x| - 1] && n < |x|
    ensures EndsLine(x[n..]) && '\n' !in x[n..][..|x| - n - 1]
  {
    FeedIsLast(x);
  }

  /** A dot, a digit and the end of the line. */
  lemma DigitsRest(cfg: Settings, f: Fields, t: Trace, x: string)
    requires Valid(f) && f.errno.OK? && f.state.ReqHttpDot? && f.nread + |x| <= MAX_HEADER_SIZE && EndsLine(x)
    requires '\n' !in x[..|x| - 1]
    ensures Run(cfg, Stream(f, t), x)
            == if |x| > 2 && x[0] == '.' && IsNum(x[1]) && IsLineEndText(x[2..]) then
                 Ready(Stream(On(f, HeaderFieldStart, |x|).(minor := Digit(x[1])), t))
               else Failed
  {
    hide Run, Step, Valid, VisitVersion, IsNum, Digit, IsLineEndText;
    DigitBytes(Bump(f, 1), x[0]);
    var f1 := On(f, ReqHttpMinor, 1);
    OneByte(cfg, f, t, x, f1);
    if x[0] == '.' {
      NoFeedLater(x, 1);
      var y := x[1..];
      DigitBytes(Bump(f1, 1), y[0]);
      DigitCharacters(y[0]);
      if !IsNum(y[0]) {
        OneByte(cfg, f1, t, y, f1);
      } else {
        var f2 := On(f1, ReqHttpEnd, 1).(minor := Digit(y[0]));
        OneByte(cfg, f1, t, y, f2);
        NoFeedLater(y, 1);
        assert y[1..] == x[2..];
        LineEndRun(cfg, f2, t, y[1..]);
      }
    }
  }

  // ----- The whole line -----

  lemma SpaceStep(cfg: Settings, f: Fields, t: Trace)
    requires Valid(f) && f.errno.OK? && (f.state.ReqSpacesBeforeUrl? || f.state.ReqHttpStart?)
             && f.nread < MAX_HEADER_SIZE
    ensures Step(cfg, Stream(f, t), ' ') == Ready(Stream(Bump(f, 1), t))
  {
    hide Emit, Step, Sound, VisitState;
    PlainStep(cfg, f, t, ' ');
    DispatchUrl(Bump(f, 1), ' ');
  }

  lemma AfterSpacesIs(x: string)
    ensures AfterSpaces(x) == if x != "" && x[0] == ' ' then AfterSpaces(x[1..]) else x
  {
  }

  /** Spaces before the target, and before the version. */
  lemma {:induction false} SpacesRun(cfg: Settings, f: Fields, t: Trace, x: string)
    requires Valid(f) && f.errno.OK? && (f.state.ReqSpacesBeforeUrl? || f.state.ReqHttpStart?)
             && f.nread + |x| <= MAX_HEADER_SIZE
    ensures var n := |x| - |AfterSpaces(x)|;
            Valid(Bump(f, n)) && Run(cfg, Stream(f, t), x) == Run(cfg, Stream(Bump(f, n), t), AfterSpaces(x))
    decreases |x|
  {
    hide Run, Step, Valid, AfterSpaces;
    AfterSpacesIs(x);
    if x != "" && x[0] == ' ' {
      var g := Bump(f, 1);
      SpaceStep(cfg, f, t);
      ReadyRun(cfg, Stream(f, t), x, Stream(g, t));
      SpacesRun(cfg, g, t, x[1..]);
      var n := |x| - |AfterSpaces(x)|;
      assert Bump(g, n - 1) == Bump(f, n);
    } else {
      assert Bump(f, 0) == f;
    }
  }

  /** The version and the line end, from behind the space behind the target. */
  lemma VersionIsExact(cfg: Settings, f: Fields, t: Trace, v: string, e: string)
    requires Valid(f) && f.errno.OK? && f.state.ReqHttpStart? && f.nread + |v + e| <= MAX_HEADER_SIZE
    requires OneLine(v) && (v != "" ==> v[0] != ' ') && IsLineEndText(e)
    ensures IsVersionText(v, f.verb) ==> |v| >= 3 && IsNum(v[|v| - 3]) && IsNum(v[|v| - 1])
    ensures Run(cfg, Stream(f, t), v + e)
            == if IsVersionText(v, f.verb) then
                 Ready(Stream(On(f, HeaderFieldStart, |v + e|).(major := Digit(v[|v| - 3]),
                   minor := Digit(v[|v| - 1])), t))
               else Failed
  {
    hide Run, Valid, Digit, IsNum, Protocol;
    var x := v + e;
    LineFeedIsLast(v, e);
    ProtocolIsRead(cfg, f, t, x);
    ProtocolBeforeEnd(v, e, f.verb);
    var w := Protocol(x, f.verb);
    if w != "" {
      assert x[|w|..] == v[|w|..] + e;
      NoFeedLater(x, |w|);
      DigitsRun(cfg, On(f, ReqHttpMajor, |w|), t, x[|w|..]);
      DigitsBeforeEnd(v[|w|..], e);
    }
  }

  lemma LineFeedIsLast(v: string, e: string)
    requires OneLine(v) && IsLineEndText(e)
    ensures EndsLine(v + e) && '\n' !in (v + e)[..|v + e| - 1]
    ensures (v + e)[0] == ' ' ==> v != "" && v[0] == ' '
  {
    if e == "\r\n" {
      assert (v + e)[..|v + e| - 1] == v + "\r";
    } else {
      assert (v + e)[..|v + e| - 1] == v;
    }
  }

  /** Neither protocol reaches into the line end. */
  lemma ProtocolBeforeEnd(v: string, e: string, m: Method)
    requires OneLine(v) && IsLineEndText(e)
    ensures Protocol(v + e, m) == Protocol(v, m) && |Protocol(v, m)| <= |v|
  {
    WordBeforeEnd("HTTP/", v, e);
    WordBeforeEnd("ICE/", v, e);
  }

  lemma WordBeforeEnd(w: string, v: string, e: string)
    requires IsLineEndText(e) && '\r' !in w && '\n' !in w
    ensures w <= v + e <==> w <= v
  {
    assert |v| < |w| ==> w[|v|] in w;
    assert (v + e)[|v|] == e[0];
    if w <= v + e && |w| <= |v| {
      assert w == (v + e)[..|w|] == v[..|w|];
    }
  }

  lemma DigitsBeforeEnd(y: string, e: string)
    requires OneLine(y) && IsLineEndText(e)
    ensures IsDigitsEnd(y + e) <==> IsDigits(y)
  {
    if |y| == 3 {
      assert (y + e)[..3] == y && (y + e)[3..] == e;
    } else if |y| > 3 {
      assert (y + e)[3..][0] == y[3];
      assert y[3] in y;
    } else {
      DigitsAreNoEnd(y, e);
    }
  }

  lemma DigitsAreNoEnd(y: string, e: string)
    requires |y| < 3 && IsLineEndText(e)
    ensures !IsDigitsEnd(y + e) && !IsDigits(y)
  {
    var x := y + e;
    assert x[|y|] == e[0];
    if |x| > 3 {
      assert x[..3][|y|] == x[|y|];
    }
  }

  // ----- The method -----

  lemma NoMethodByte(m: Method, i: nat, c: char)
    requires IsLineEnd(c)
    ensures NextMethod(m, i, c).None?
  {
    hide MethodName, SwitchMethod;
    SwitchIsUpper(m, i, c);
    NoNameByte(m);
    if i < |MethodName(m)| {
      assert MethodName(m)[i] in MethodName(m);
    }
  }

  lemma NoReturnInName(m: Method)
    ensures '\r' !in MethodName(m)
  {
  }

  lemma NoFeedInName(m: Method)
    ensures '\n' !in MethodName(m)
  {
  }

  lemma NoNameByte(m: Method)
    ensures '\r' !in MethodName(m) && '\n' !in MethodName(m)
  {
    hide MethodName;
    NoReturnInName(m);
    NoFeedInName(m);
  }

  /** A line that ends within its first word. */
  lemma NoSpaceFails(cfg: Settings, f: Fields, t: Trace, x: string, e: string)
    requires Valid(f) && f.errno.OK? && f.state.StartReq? && f.nread + |x + e| <= MAX_HEADER_SIZE
    requires x != "" && OneLine(x) && ' ' !in x && IsLineEndText(e)
    ensures Run(cfg, Stream(f, t), x + e) == Failed
  {
    hide Emit, Run, Step, MethodName, SwitchMethod, FirstMethod, NextMethod;
    MethodRun(cfg, f, t, x);
    RunAppend(cfg, Stream(f, t), x, e);
    if FollowMethod(x).Some? {
      FollowsIsPrefix(x);
      var g, t' := InMethod(f, x, FollowMethod(x).value), Emit(t, Note(OnMessageBegin));
      MethodByte(cfg, g, t', e[0]);
      NoMethodByte(g.verb, g.index, e[0]);
      FailedRun(cfg, Stream(g, t'), e);
    }
  }

  lemma SpaceFails(cfg: Settings, f: Fields, t: Trace, x: string)
    requires Valid(f) && f.errno.OK? && f.state.StartReq? && f.nread < MAX_HEADER_SIZE
    requires x != "" && x[0] == ' '
    ensures Run(cfg, Stream(f, t), x) == Failed
  {
    hide Emit, Run, Step, Sound, VisitState;
    PlainStep(cfg, f, t, ' ');
    Dispatch(Bump(f, 1), ' ');
    FailedRun(cfg, Stream(f, t), x);
  }

  /** The fields behind a method and a space. */
  function AfterMethod(f: Fields, m: Method): Fields {
    var n := |MethodName(m)|;
    f.(flags := NO_FLAGS, contentLength := ULLONG_MAX, state := ReqSpacesBeforeUrl, verb := m, index := n + 1,
       nread := f.nread + n + 1)
  }

  lemma MethodTaken(cfg: Settings, f: Fields, t: Trace, word: string, m: Method, rest: string)
    requires Valid(f) && f.errno.OK? && f.state.StartReq? && f.nread + |word| + 1 <= MAX_HEADER_SIZE
    requires IsWordOf(word, m)
    ensures Valid(AfterMethod(f, m)) && AfterMethod(f, m).nread == f.nread + |word| + 1
    ensures Run(cfg, Stream(f, t), word + " " + rest)
            == Run(cfg, Stream(AfterMethod(f, m), Emit(t, Note(OnMessageBegin))), rest)
  {
    hide Emit, Run, MethodName, IsWordOf, Valid;
    WordIsName(word, m);
    MethodAndSpace(cfg, f, t, m);
    RunAppend(cfg, Stream(f, t), word + " ", rest);
  }

  lemma MethodRefused(cfg: Settings, f: Fields, t: Trace, word: string, rest: string)
    requires Valid(f) && f.errno.OK? && f.state.StartReq? && f.nread + |word| + 1 <= MAX_HEADER_SIZE
    requires word != "" && OneLine(word) && ' ' !in word && forall m: Method :: !IsWordOf(word, m)
    ensures Run(cfg, Stream(f, t), word + " " + rest) == Failed
  {
    hide Emit, Run, MethodName, IsWordOf, Valid;
    MethodsAreRecognisedExactly(cfg, f, t, word);
    RunAppend(cfg, Stream(f, t), word + " ", rest);
  }

  // ----- The target -----

  lemma TargetLineEnd(f: Fields, ch: char)
    requires IsUrlState(f.state) && IsLineEnd(ch)
    ensures var v := VisitUrl(f, ch);
            if IsSchemaState(f.state) then v.next.Fail?
            else v == Visit(f.(major := 0, minor := 9,
                              state := if ch == '\r' then ReqLineAlmostDone else HeaderFieldStart), Call(OnUrl), Break)
  {
  }

  /** The line end behind a target. */
  lemma TargetEndStep(cfg: Settings, f: Fields, t: Trace, ch: char)
    requires Valid(f) && f.errno.OK? && IsUrlState(f.state) && f.nread < MAX_HEADER_SIZE && IsLineEnd(ch)
    ensures Step(cfg, Stream(f, t), ch) ==
            if IsSchemaState(f.state) then Failed
            else Ready(Stream(f.(major := 0, minor := 9, nread := f.nread + 1,
                                state := if ch == '\r' then ReqLineAlmostDone else HeaderFieldStart),
                              Emit(t, Data(OnUrl, ""))))
  {
    hide Emit, Step, Sound, VisitState, VisitUrl;
    PlainStep(cfg, f, t, ch);
    DispatchUrl(Bump(f, 1), ch);
    TargetLineEnd(Bump(f, 1), ch);
  }

  lemma OldLineEnd(cfg: Settings, f: Fields, t: Trace, e: string)
    requires Valid(f) && f.errno.OK? && IsUrlState(f.state) && f.nread + |e| <= MAX_HEADER_SIZE && IsLineEndText(e)
    ensures Run(cfg, Stream(f, t), e) ==
            if IsSchemaState(f.state) then Failed
            else Ready(Stream(On(f, HeaderFieldStart, |e|).(major := 0, minor := 9), Emit(t, Data(OnUrl, ""))))
  {
    hide Emit, Run, Step, Valid, VisitVersion;
    TargetEndStep(cfg, f, t, e[0]);
    if IsSchemaState(f.state) {
      FailedRun(cfg, Stream(f, t), e);
    } else {
      var g := On(f, if e[0] == '\r' then ReqLineAlmostDone else HeaderFieldStart, 1).(major := 0, minor := 9);
      var t' := Emit(t, Data(OnUrl, ""));
      ReadyRun(cfg, Stream(f, t), e, Stream(g, t'));
      if e[0] == '\r' {
        var h := On(g, HeaderFieldStart, 1);
        assert e[1..] == "\n" && "\n"[1..] == "";
        EndBytes(Bump(g, 1), '\n');
        OneByte(cfg, g, t', "\n", h);
        RunNothing(cfg, Stream(h, t'));
      } else {
        assert e[1..] == "";
        RunNothing(cfg, Stream(g, t'));
      }
    }
  }

  lemma NoTargetFails(cfg: Settings, f: Fields, t: Trace, e: string)
    requires Valid(f) && f.errno.OK? && f.state.ReqSpacesBeforeUrl? && f.nread < MAX_HEADER_SIZE && IsLineEndText(e)
    ensures Run(cfg, Stream(f, t), e) == Failed
  {
    hide Emit, Run, Step, Valid;
    UrlFirstByte(cfg, f, t, e[0]);
    FailedRun(cfg, Stream(f, t), e);
  }

  /** The fields where a target and its line end, or the space behind it, have been read. */
  function AtVersion(f: Fields, n: nat): Fields {
    On(f, ReqHttpStart, n)
  }

  /** A target and what stands behind it up to the line end. */
  lemma TargetIsExact(cfg: Settings, f: Fields, t: Trace, url: string, rest: string)
    requires Valid(f) && f.errno.OK? && f.state.ReqSpacesBeforeUrl? && f.nread + |url + rest| <= MAX_HEADER_SIZE
    requires IsUrlText(url) && rest != "" && (rest[0] == ' ' || IsLineEndText(rest))
    ensures !IsTarget(url, f.verb.CONNECT?) ==> Run(cfg, Stream(f, t), url + rest) == Failed
    ensures IsTarget(url, f.verb.CONNECT?) ==>
      var t' := Emit(t, Data(OnUrl, url));
      if rest[0] == ' ' then
        && Valid(AtVersion(f, |url| + 1))
        && Run(cfg, Stream(f, t), url + rest) == Run(cfg, Stream(AtVersion(f, |url| + 1), t'), rest[1..])
      else
        Run(cfg, Stream(f, t), url + rest)
        == Ready(Stream(On(f, HeaderFieldStart, |url + rest|).(major := 0, minor := 9), t'))
  {
    hide Emit, Run, Step, Valid, UrlState, IsUrlText;
    var s := UrlState(url, f.verb.CONNECT?);
    RunAppend(cfg, Stream(f, t), url, rest);
    UrlRun(cfg, f, t, url);
    UrlBytes(url);
    UrlStateIsUrl(url, f.verb.CONNECT?);
    if !s.Dead? {
      var g, t' := On(f, s, |url|), Emit(t, Data(OnUrl, url));
      EmitPieces(t, OnUrl, url, "");
      assert url + "" == url;
      if rest[0] == ' ' {
        UrlEnd(cfg, g, t');
        if IsSchemaState(s) {
          FailedRun(cfg, Stream(g, t'), rest);
        } else {
          ReadyRun(cfg, Stream(g, t'), rest, Stream(AtVersion(f, |url| + 1), t'));
        }
      } else {
        OldLineEnd(cfg, g, t', rest);
      }
    }
  }

  // ----- The theorem -----

  lemma {:induction false} AfterSpacesAppend(y: string, e: string)
    requires IsLineEndText(e)
    ensures AfterSpaces(y + e) == AfterSpaces(y) + e
    decreases |y|
  {
    hide AfterSpaces;
    AfterSpacesIs(y);
    AfterSpacesIs(y + e);
    if y == "" {
      assert y + e == e;
    } else {
      assert (y + e)[1..] == y[1..] + e;
      AfterSpacesAppend(y[1..], e);
    }
  }

  /** Major and minor number of a version; a line without one is of HTTP/0.9. */
  function Numbers(version: string): (nat, nat) {
    var n := |version|;
    if version == "" then (0, 9)
    else if n >= 3 && IsNum(version[n - 3]) && IsNum(version[n - 1]) then (Digit(version[n - 3]), Digit(version[n - 1]))
    else (0, 0)
  }

  /** The fields behind a request line of `n` bytes. */
  function AfterLineOf(f: Fields, p: Parts, n: nat): Fields {
    On(AfterMethod(f, p.verb), HeaderFieldStart, 0).(
      nread := f.nread + n, major := Numbers(p.version).0, minor := Numbers(p.version).1)
  }

  /** What stands behind the method, the spaces in front of it skipped. */
  lemma RestIs(x: string, n: nat)
    requires OneLine(x) && n < |x| && x[n] == ' '
    ensures AfterSpaces(x[n..]) == AfterSpaces(x[n + 1..])
    ensures var rest := AfterSpaces(x[n..]); OneLine(rest) && |rest| < |x| - n
  {
    hide AfterSpaces, OneLine;
    AfterSpacesIs(x[n..]);
    assert x[n..][1..] == x[n + 1..];
    var rest := AfterSpaces(x[n + 1..]);
    assert rest == x[|x| - |rest|..|x|];
    LinePart(x, |x| - |rest|, |x|);
  }

  lemma LinePart(x: string, i: nat, j: nat)
    requires OneLine(x) && i <= j <= |x|
    ensures OneLine(x[i..j])
  {
  }

  /** Behind the method, from the start of the target on. */
  lemma VersionBehind(cfg: Settings, f: Fields, t: Trace, k: nat, behind: string, e: string)
    requires Valid(AtVersion(f, k + 1)) && f.errno.OK? && f.nread + k + |behind + e| <= MAX_HEADER_SIZE
    requires behind != "" && behind[0] == ' ' && OneLine(behind) && IsLineEndText(e)
    ensures var version := AfterSpaces(behind);
            Run(cfg, Stream(AtVersion(f, k + 1), t), (behind + e)[1..]) ==
            if IsVersionText(version, f.verb) then
              Ready(Stream(On(f, HeaderFieldStart, k + |behind + e|).(major := Numbers(version).0,
                minor := Numbers(version).1), t))
            else Failed
  {
    hide Run, Valid, IsVersionText, Digit, IsNum, AfterSpaces, OneLine, IsLineEndText;
    BehindTarget(cfg, AtVersion(f, k + 1), t, behind, e);
    assert (behind + e)[1..] == behind[1..] + e;
  }

  lemma BehindMethod(cfg: Settings, f: Fields, t: Trace, rest: string, e: string)
    requires Valid(f) && f.errno.OK? && f.state.ReqSpacesBeforeUrl? && f.nread + |rest + e| <= MAX_HEADER_SIZE
    requires OneLine(rest) && (rest != "" ==> rest[0] != ' ') && IsLineEndText(e)
    ensures var k := Until(rest, " ");
            var url, version := rest[..k], AfterSpaces(rest[k..]);
            Run(cfg, Stream(f, t), rest + e) ==
            if IsTargetText(url, f.verb.CONNECT?) && (k < |rest| ==> IsVersionText(version, f.verb)) then
              Ready(Stream(On(f, HeaderFieldStart, |rest + e|).(major := Numbers(version).0,
                minor := Numbers(version).1),
                Emit(t, Data(OnUrl, url))))
            else Failed
  {
    hide Emit, Run, Valid, IsTarget, IsTargetText, IsVersionText, Digit, IsNum, Until, AfterSpaces;
    var k := Until(rest, " ");
    var url, behind := rest[..k], rest[k..];
    TargetsAreExact(url, f.verb.CONNECT?);
    if k == 0 {
      NothingIsTarget(rest, f.verb.CONNECT?);
      assert rest + e == e;
      NoTargetFails(cfg, f, t, e);
    } else {
      assert rest + e == url + (behind + e);
      assert IsUrlText(url) by {
        WordIsUrlText(rest, k);
      }
      TargetIsExact(cfg, f, t, url, behind + e);
      if k == |rest| {
        assert behind == "" && behind + e == e;
        NothingBehind();
      } else if IsTarget(url, f.verb.CONNECT?) {
        assert behind[0] == ' ';
        LinePart(rest, k, |rest|);
        hide OneLine, IsLineEndText;
        VersionBehind(cfg, f, Emit(t, Data(OnUrl, url)), k, behind, e);
      }
    }
  }

  lemma NothingIsTarget(rest: string, isConnect: bool)
    requires (rest != "" ==> rest[0] != ' ') && Until(rest, " ") == 0
    ensures rest == "" && !IsTargetText("", isConnect)
  {
  }

  lemma NothingBehind()
    ensures AfterSpaces("") == "" && Numbers("") == (0, 9)
  {
  }

  lemma WordIsUrlText(rest: string, k: nat)
    requires OneLine(rest) && 0 < k == Until(rest, " ")
    ensures IsUrlText(rest[..k])
  {
  }

  lemma SpacesLeaveLine(x: string)
    requires OneLine(x)
    ensures OneLine(AfterSpaces(x))
  {
    hide AfterSpaces;
    var y := AfterSpaces(x);
    assert y == x[|x| - |y|..|x|];
    LinePart(x, |x| - |y|, |x|);
  }

  lemma VersionNumbers(cfg: Settings, f: Fields, t: Trace, version: string, e: string)
    requires Valid(f) && f.errno.OK? && f.state.ReqHttpStart? && f.nread + |version + e| <= MAX_HEADER_SIZE
    requires OneLine(version) && (version != "" ==> version[0] != ' ') && IsLineEndText(e)
    ensures Run(cfg, Stream(f, t), version + e) ==
            if IsVersionText(version, f.verb) then
              Ready(Stream(On(f, HeaderFieldStart, |version + e|).(
                major := Numbers(version).0, minor := Numbers(version).1), t))
            else Failed
  {
    hide Run, Valid, IsVersionText, Digit, IsNum, OneLine, IsLineEndText;
    VersionIsExact(cfg, f, t, version, e);
  }

  lemma SpacesBefore(cfg: Settings, f: Fields, t: Trace, x: string, e: string)
    requires Valid(f) && f.errno.OK? && f.state.ReqHttpStart? && f.nread + |x + e| <= MAX_HEADER_SIZE
    requires IsLineEndText(e)
    ensures var n := |x| - |AfterSpaces(x)|;
            Valid(Bump(f, n)) && Run(cfg, Stream(f, t), x + e) == Run(cfg, Stream(Bump(f, n), t), AfterSpaces(x) + e)
  {
    hide Run, Valid, AfterSpaces, IsLineEndText;
    AfterSpacesAppend(x, e);
    SpacesRun(cfg, f, t, x + e);
    assert |x + e| - |AfterSpaces(x + e)| == |x| - |AfterSpaces(x)|;
  }

  /** Behind the first space behind the target. */
  lemma BehindTarget(cfg: Settings, f: Fields, t: Trace, behind: string, e: string)
    requires Valid(f) && f.errno.OK? && f.state.ReqHttpStart? && f.nread + |behind + e| <= MAX_HEADER_SIZE + 1
    requires behind != "" && behind[0] == ' ' && OneLine(behind) && IsLineEndText(e)
    ensures var version := AfterSpaces(behind);
            Run(cfg, Stream(f, t), behind[1..] + e) ==
            if IsVersionText(version, f.verb) then
              Ready(Stream(On(f, HeaderFieldStart, |behind + e| - 1).(
                major := Numbers(version).0, minor := Numbers(version).1), t))
            else Failed
  {
    hide Run, Valid, IsVersionText, AfterSpaces, OneLine, IsLineEndText, Numbers;
    var x := behind[1..];
    AfterSpacesIs(behind);
    SpacesBefore(cfg, f, t, x, e);
    var version := AfterSpaces(x);
    SpacesLeaveLine(behind);
    VersionNumbers(cfg, Bump(f, |x| - |version|), t, version, e);
  }

  function AtTarget(f: Fields, m: Method, n: nat): Fields {
    AfterMethod(f, m).(nread := f.nread + n)
  }

  /** Up to the start of the target. */
  lemma ToTarget(cfg: Settings, f: Fields, t: Trace, x: string, e: string, m: Method, n: nat, rest: string)
    requires Valid(f) && f.errno.OK? && f.state.StartReq? && f.nread + |x + e| <= MAX_HEADER_SIZE
    requires OneLine(x) && IsLineEndText(e)
    requires n == Until(x, " ") < |x| && IsWordOf(x[..n], m) && rest == AfterSpaces(x[n..])
    ensures Valid(AtTarget(f, m, |x| - |rest|))
    ensures Run(cfg, Stream(f, t), x + e)
            == Run(cfg, Stream(AtTarget(f, m, |x| - |rest|), Emit(t, Note(OnMessageBegin))), rest + e)
  {
    hide Emit, Run, Valid, Until, AfterSpaces, IsWordOf, OneLine, MethodName, AfterMethod, AtTarget, Bump;
    var y := x[n + 1..];
    SpaceAt(x, n);
    assert x + e == x[..n] + " " + (y + e);
    MethodTaken(cfg, f, t, x[..n], m, y + e);
    RestIs(x, n);
    AtTargetIs(f, m, n, |y| - |rest|);
    SpacesToTarget(cfg, AfterMethod(f, m), Emit(t, Note(OnMessageBegin)), y, rest, e);
  }

  lemma AtTargetIs(f: Fields, m: Method, n: nat, k: nat)
    requires AfterMethod(f, m).nread == f.nread + n + 1
    ensures Bump(AfterMethod(f, m), k) == AtTarget(f, m, n + 1 + k)
    ensures AfterMethod(f, m).state.ReqSpacesBeforeUrl? && AfterMethod(f, m).errno == f.errno
  {
    hide MethodName;
  }

  lemma SpacesToTarget(cfg: Settings, f: Fields, t: Trace, y: string, rest: string, e: string)
    requires Valid(f) && f.errno.OK? && f.state.ReqSpacesBeforeUrl? && f.nread + |y + e| <= MAX_HEADER_SIZE
    requires IsLineEndText(e) && rest == AfterSpaces(y)
    ensures Valid(Bump(f, |y| - |rest|))
    ensures Run(cfg, Stream(f, t), y + e) == Run(cfg, Stream(Bump(f, |y| - |rest|), t), rest + e)
  {
    hide Run, Valid, AfterSpaces;
    SpacesRun(cfg, f, t, y + e);
    AfterSpacesAppend(y, e);
  }

  /** The target and the version that stand behind the first word. */
  ghost function PartsOf(x: string, m: Method): Parts {
    var rest := AfterSpaces(x[Until(x, " ")..]);
    var k := Until(rest, " ");
    Parts(m, rest[..k], AfterSpaces(rest[k..]))
  }

  lemma OnlyParts(x: string, p: Parts)
    ensures IsLineOf(x, p) ==> p == PartsOf(x, p.verb) && Until(x, " ") < |x| && IsWordOf(x[..Until(x, " ")], p.verb)
  {
    hide IsTargetText, IsVersionText, Until, AfterSpaces, IsWordOf;
  }

  lemma PartsAreRight(x: string, m: Method, rest: string, k: nat)
    requires var n := Until(x, " "); n < |x| && IsWordOf(x[..n], m) && rest == AfterSpaces(x[n..])
    requires k == Until(rest, " ")
    ensures PartsOf(x, m) == Parts(m, rest[..k], AfterSpaces(rest[k..]))
    ensures IsLineOf(x, PartsOf(x, m)) <==>
            IsTargetText(rest[..k], m.CONNECT?) && (k < |rest| ==> IsVersionText(AfterSpaces(rest[k..]), m))
  {
    hide IsTargetText, IsVersionText, Until, AfterSpaces, IsWordOf;
  }

  lemma FieldsMeet(f: Fields, p: Parts, x: string, rest: string, e: string)
    requires |rest| <= |x|
    ensures On(AtTarget(f, p.verb, |x| - |rest|), HeaderFieldStart, |rest + e|).(
              major := Numbers(p.version).0, minor := Numbers(p.version).1) == AfterLineOf(f, p, |x + e|)
    ensures var g := AtTarget(f, p.verb, |x| - |rest|);
            && g.state.ReqSpacesBeforeUrl? && g.verb == p.verb && g.errno == f.errno
            && g.nread + |rest + e| == f.nread + |x + e|
  {
    hide Numbers, MethodName;
  }

  lemma BehindWord(cfg: Settings, f: Fields, t: Trace, x: string, e: string, m: Method)
    requires Valid(f) && f.errno.OK? && f.state.StartReq? && f.nread + |x + e| <= MAX_HEADER_SIZE
    requires OneLine(x) && IsLineEndText(e)
    requires var n := Until(x, " "); n < |x| && IsWordOf(x[..n], m)
    ensures var p := PartsOf(x, m);
            Run(cfg, Stream(f, t), x + e) ==
            if IsLineOf(x, p) then
              Ready(Stream(AfterLineOf(f, p, |x + e|), Emit(Emit(t, Note(OnMessageBegin)), Data(OnUrl, p.url))))
            else Failed
  {
    hide Emit, Run, Valid, IsTargetText, IsVersionText, Numbers, Until, AfterSpaces, IsWordOf, OneLine, MethodName,
      IsLineOf, PartsOf, On, AtTarget, AfterLineOf;
    var n := Until(x, " ");
    var rest := AfterSpaces(x[n..]);
    ToTarget(cfg, f, t, x, e, m, n, rest);
    SpaceAt(x, n);
    RestIs(x, n);
    PartsAreRight(x, m, rest, Until(rest, " "));
    FieldsMeet(f, PartsOf(x, m), x, rest, e);
    BehindMethod(cfg, AtTarget(f, m, |x| - |rest|), Emit(t, Note(OnMessageBegin)), rest, e);
  }

  lemma SpaceAt(x: string, n: nat)
    requires n == Until(x, " ") < |x|
    ensures x[n] == ' ' && ' ' !in x[..n]
  {
  }

  lemma WordRefused(cfg: Settings, f: Fields, t: Trace, x: string, e: string)
    requires Valid(f) && f.errno.OK? && f.state.StartReq? && f.nread + |x + e| <= MAX_HEADER_SIZE
    requires x != "" && OneLine(x) && IsLineEndText(e)
    requires var n := Until(x, " "); n == |x| || forall m: Method :: !IsWordOf(x[..n], m)
    ensures Run(cfg, Stream(f, t), x + e) == Failed
  {
    hide Run, Valid, Until, IsWordOf, OneLine;
    var n := Until(x, " ");
    if n == |x| {
      NoSpaceAnywhere(x);
      NoSpaceFails(cfg, f, t, x, e);
    } else {
      SpaceAt(x, n);
      var y := x[n + 1..];
      assert x + e == x[..n] + " " + (y + e);
      LinePart(x, 0, n);
      if n == 0 {
        SpaceFails(cfg, f, t, x + e);
      } else {
        MethodRefused(cfg, f, t, x[..n], y + e);
      }
    }
  }

  lemma NoSpaceAnywhere(x: string)
    requires Until(x, " ") == |x|
    ensures ' ' !in x
  {
  }

  /**
   A line, with CR LF or LF at its end, gets through as a request line exactly if it is a method, a target and
   perhaps a version, with spaces between them. Then the target is delivered, and method and version are those
   of the line.
   */
  lemma RequestLineIsExact(cfg: Settings, f: Fields, t: Trace, x: string, e: string)
    requires Valid(f) && f.errno.OK? && f.state.StartReq? && f.nread + |x + e| <= MAX_HEADER_SIZE
    requires x != "" && OneLine(x) && IsLineEndText(e)
    ensures var r := Run(cfg, Stream(f, t), x + e);
            && (r.Ready? || r.Failed?)
            && (r.Ready? <==> exists p :: IsLineOf(x, p))
            && forall p | IsLineOf(x, p) ::
                 r == Ready(Stream(AfterLineOf(f, p, |x + e|), Emit(Emit(t, Note(OnMessageBegin)), Data(OnUrl, p.url))))
  {
    hide Emit, Run, Valid, IsLineOf, AfterLineOf, OneLine, PartsOf, Until, IsWordOf;
    var n := Until(x, " ");
    forall p | IsLineOf(x, p)
      ensures p == PartsOf(x, p.verb) && n < |x| && IsWordOf(x[..n], p.verb)
      ensures Run(cfg, Stream(f, t), x + e)
              == Ready(Stream(AfterLineOf(f, p, |x + e|), Emit(Emit(t, Note(OnMessageBegin)), Data(OnUrl, p.url))))
    {
      OnlyParts(x, p);
      BehindWord(cfg, f, t, x, e, p.verb);
    }
    if n == |x| || forall m: Method :: !IsWordOf(x[..n], m) {
      WordRefused(cfg, f, t, x, e);
    } else {
      var m: Method :| IsWordOf(x[..n], m);
      BehindWord(cfg, f, t, x, e, m);
    }
  }

  // ----- A CR that is no line end -----

  predicate IsMidLine(s: State) {
    s.ReqMethod? || s.ReqSpacesBeforeUrl? || IsUrlState(s) || (IsVersionState(s) && !s.ReqLineAlmostDone?)
  }

  /** A byte in the middle of the line: no callback is asked, and only a CR leads out of it. */
  lemma MidLineByte(f: Fields, ch: char)
    requires IsMidLine(f.state)
    ensures f.state.ReqMethod? ==> MidLineRight(VisitMethod(f, ch), ch)
    ensures f.state.ReqSpacesBeforeUrl? || IsUrlState(f.state) ==> MidLineRight(VisitUrl(f, ch), ch)
    ensures IsVersionState(f.state) ==> MidLineRight(VisitVersion(f, ch), ch)
  {
    hide MethodName, SwitchMethod, ParseUrlChar;
    if IsLineEnd(ch) {
      NoMethodByte(f.verb, f.index, ch);
      NoNameByte(f.verb);
      NoUrlByte(f.state, ch);
      NoUrlByte(ReqServerStart, ch);
    }
  }

  lemma NoUrlByte(s: State, ch: char)
    requires IsLineEnd(ch)
    ensures ParseUrlChar(s, ch).Dead?
  {
  }

  predicate MidLineRight(v: Visit, ch: char) {
    v.next.Fail? || (!v.op.Notify? && v.next.Break?
                     && if ch == '\r' then v.f.state.ReqLineAlmostDone?
                        else if ch == '\n' then v.f.state.HeaderFieldStart? else IsMidLine(v.f.state))
  }

  lemma MidLineStep(cfg: Settings, s: Stream, ch: char)
    requires Valid(s.f) && s.f.errno.OK? && IsMidLine(s.f.state) && s.f.nread < MAX_HEADER_SIZE
    ensures match Step(cfg, s, ch)
            case Ready(s') => if ch == '\r' then s'.f.state.ReqLineAlmostDone?
                              else if ch == '\n' then s'.f.state.HeaderFieldStart? else IsMidLine(s'.f.state)
            case Stopped(_, _) => false
            case Failed => true
  {
    hide Emit, Sound, VisitState, Visits, Step, VisitMethod, VisitUrl, VisitVersion, MethodName;
    PlainStep(cfg, s.f, s.trace, ch);
    Dispatch(Bump(s.f, 1), ch);
    DispatchUrl(Bump(s.f, 1), ch);
    MidLineByte(Bump(s.f, 1), ch);
  }

  lemma {:induction false} MidLineRun(cfg: Settings, s: Stream, x: string)
    requires Valid(s.f) && s.f.errno.OK? && IsMidLine(s.f.state) && s.f.nread + |x| <= MAX_HEADER_SIZE && OneLine(x)
    ensures var r := Run(cfg, s, x);
            !r.Stopped? && (r.Ready? ==> IsMidLine(r.s.f.state) && r.s.f.errno.OK? && r.s.f.nread == s.f.nread + |x|)
    decreases |x|
  {
    hide Step, IsMidLine, Valid, OneLine;
    if x != "" {
      MidLineStep(cfg, s, x[0]);
      FirstOfLine(x);
      if Step(cfg, s, x[0]).Ready? {
        MidLineCounts(cfg, s, x[0]);
        MidLineRun(cfg, Step(cfg, s, x[0]).s, x[1..]);
        assert Run(cfg, s, x) == Run(cfg, Step(cfg, s, x[0]).s, x[1..]);
      }
    }
  }

  lemma FirstOfLine(x: string)
    requires x != "" && OneLine(x)
    ensures !IsLineEnd(x[0]) && OneLine(x[1..])
  {
  }

  lemma MidLineCounts(cfg: Settings, s: Stream, ch: char)
    requires Valid(s.f) && s.f.errno.OK? && IsMidLine(s.f.state) && s.f.nread < MAX_HEADER_SIZE
             && Step(cfg, s, ch).Ready?
    ensures Step(cfg, s, ch).s.f.nread == s.f.nread + 1 && Step(cfg, s, ch).s.f.errno.OK?
  {
    hide Emit, Sound, VisitState, Visits, Step, VisitMethod, VisitUrl, VisitVersion, MethodName;
    PlainStep(cfg, s.f, s.trace, ch);
    Dispatch(Bump(s.f, 1), ch);
    DispatchUrl(Bump(s.f, 1), ch);
    MidLineByte(Bump(s.f, 1), ch);
    MidLineSame(Bump(s.f, 1), ch);
  }

  lemma MidLineSame(f: Fields, ch: char)
    requires IsMidLine(f.state)
    ensures f.state.ReqMethod? ==> VisitMethod(f, ch).f.nread == f.nread && VisitMethod(f, ch).f.errno == f.errno
    ensures VisitUrl(f, ch).f.nread == f.nread && VisitUrl(f, ch).f.errno == f.errno
    ensures VisitVersion(f, ch).f.nread == f.nread && VisitVersion(f, ch).f.errno == f.errno
  {
    hide MethodName, SwitchMethod, ParseUrlChar;
  }

  lemma FirstStep(cfg: Settings, f: Fields, t: Trace, ch: char)
    requires Valid(f) && f.errno.OK? && f.state.StartReq? && f.nread < MAX_HEADER_SIZE && !IsLineEnd(ch)
    ensures match Step(cfg, Stream(f, t), ch)
            case Ready(s') => IsMidLine(s'.f.state) && s'.f.errno.OK? && s'.f.nread == f.nread + 1
            case Stopped(_, _) => false
            case Failed => true
  {
    hide Emit, Sound, VisitState, Visits, Step;
    PlainStep(cfg, f, t, ch);
    Dispatch(Bump(f, 1), ch);
  }

  lemma ReturnThenOther(cfg: Settings, f: Fields, t: Trace, ch: char)
    requires Valid(f) && f.errno.OK? && f.state.ReqLineAlmostDone? && f.nread < MAX_HEADER_SIZE && ch != '\n'
    ensures Step(cfg, Stream(f, t), ch).Failed?
  {
    hide Step, Valid, VisitVersion;
    EndBytes(Bump(f, 1), ch);
    VersionStep(cfg, f, t, ch);
  }

  /** A CR in a request line that is not followed by LF is refused. */
  lemma LoneReturnFails(cfg: Settings, f: Fields, t: Trace, x: string, ch: char)
    requires Valid(f) && f.errno.OK? && f.state.StartReq? && f.nread + |x| + 2 <= MAX_HEADER_SIZE
    requires x != "" && OneLine(x) && ch != '\n'
    ensures Run(cfg, Stream(f, t), x + "\r" + [ch]) == Failed
  {
    hide Run, Step, Valid, IsMidLine;
    var s := Stream(f, t);
    FirstOfLine(x);
    FirstStep(cfg, f, t, x[0]);
    assert x + "\r" + [ch] == [x[0]] + (x[1..] + ("\r" + [ch]));
    RunAppend(cfg, s, [x[0]], x[1..] + ("\r" + [ch]));
    RunOne(cfg, s, x[0]);
    if Step(cfg, s, x[0]).Ready? {
      var s1 := Step(cfg, s, x[0]).s;
      MidLineRun(cfg, s1, x[1..]);
      RunAppend(cfg, s1, x[1..], "\r" + [ch]);
      if Run(cfg, s1, x[1..]).Ready? {
        var s2 := Run(cfg, s1, x[1..]).s;
        MidLineStep(cfg, s2, '\r');
        RunAppend(cfg, s2, "\r", [ch]);
        RunOne(cfg, s2, '\r');
        if Step(cfg, s2, '\r').Ready? {
          var s3 := Step(cfg, s2, '\r').s;
          MidLineCounts(cfg, s2, '\r');
          ReturnThenOther(cfg, s3.f, s3.trace, ch);
          RunOne(cfg, s3, ch);
        }
      }
    }
  }
}
