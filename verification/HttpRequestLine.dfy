/** The request line: what the parser makes of a method, a URL and a version. */
module HttpRequestLine {
  import opened Options
  import opened Traces
  import opened HttpTypes
  import opened HttpVisit
  import opened HttpRun
  import opened HttpHeaders
  import opened HttpRecognisers
  import opened Urls

  // ----- URLs -----

  predicate IsUrlText(url: string) {
    url != "" && forall c <- url :: c != ' ' && !IsLineEnd(c)
  }

  /** States in which a URL may not end. */
  predicate IsSchemaState(s: State) {
    s.ReqSchema? || s.ReqSchemaSlash? || s.ReqSchemaSlashSlash? || s.ReqServerStart?
  }

  /** The state after a URL; `Dead` if a byte is refused. */
  function UrlState(url: string, isConnect: bool): State {
    if url == "" then if isConnect then ReqServerStart else ReqSpacesBeforeUrl
    else ParseUrlChar(UrlState(url[..|url| - 1], isConnect), url[|url| - 1])
  }

  /** The parser takes the URL, and may find its end there. */
  predicate IsTarget(url: string, isConnect: bool) {
    IsUrlText(url) && !UrlState(url, isConnect).Dead? && !IsSchemaState(UrlState(url, isConnect))
  }

  lemma {:induction false} ScanState(url: string, isConnect: bool)
    ensures match ScanText(StartScan(isConnect), url, 0)
            case None => UrlState(url, isConnect).Dead?
            case Some(x) => x.s == UrlState(url, isConnect) && !x.s.Dead?
  {
    hide ParseUrlChar;
    if url != "" {
      ScanState(url[..|url| - 1], isConnect);
      var y := ScanText(StartScan(isConnect), url[..|url| - 1], 0);
      if y.Some? {
        ScanStep(y.value, url[|url| - 1], |url| - 1);
      } else {
        DeadIsDead(url[|url| - 1]);
      }
    }
  }

  lemma DeadIsDead(c: char)
    ensures ParseUrlChar(Dead, c).Dead?
  {
  }

  lemma {:induction false} AliveText(url: string, isConnect: bool)
    requires url != "" && !UrlState(url, isConnect).Dead?
    ensures IsUrlText(url)
  {
    var front, c := url[..|url| - 1], url[|url| - 1];
    assert url == front + [c];
    if front != "" {
      if UrlState(front, isConnect).Dead? {
        DeadIsDead(c);
      } else {
        AliveText(front, isConnect);
      }
    }
  }

  /** A server start that is not the first state comes after a scheme. */
  lemma SchemaBefore(url: string, isConnect: bool)
    requires url != "" && ScanText(StartScan(isConnect), url, 0).Some?
    ensures var x := ScanText(StartScan(isConnect), url, 0).value; IsSchemaState(x.s) ==> x.current == Some(SCHEMA)
  {
    hide ScanText, Laid;
    TextIsLaid(isConnect, url[..|url| - 1]);
    TextIsLaid(isConnect, url);
    LastScan(url, isConnect);
    var y := ScanText(StartScan(isConnect), url[..|url| - 1], 0).value;
    var x := ScanText(StartScan(isConnect), url, 0).value;
    LaidFollows(y, |url| - 1);
    LaidFollows(x, |url|);
    ScanStep(y, url[|url| - 1], |url| - 1);
  }

  lemma LastScan(url: string, isConnect: bool)
    requires url != ""
    ensures ScanText(StartScan(isConnect), url, 0) ==
            match ScanText(StartScan(isConnect), url[..|url| - 1], 0)
            case None => None
            case Some(y) => ScanByte(y, url[|url| - 1], |url| - 1)
  {
  }

  lemma LaidFollows(x: Scan, n: nat)
    requires Laid(x, n)
    ensures Follows(x.s, x.current)
  {
  }

  /** Every URL that `http_parser_parse_url` accepts also passes as the target of a request. */
  lemma AcceptedUrlIsTarget(url: string, isConnect: bool)
    requires ParsedUrl(url, isConnect).Some?
    ensures IsTarget(url, isConnect)
  {
    hide ScanText, HostText, UrlState, IsUrlText;
    ScanState(url, isConnect);
    AliveText(url, isConnect);
    TextIsLaid(isConnect, url);
    SchemaBefore(url, isConnect);
    var x := ScanText(StartScan(isConnect), url, 0).value;
    if IsSchemaState(x.s) {
      SchemaHasNoHost(x, |url|);
    }
  }

  lemma SchemaHasNoHost(x: Scan, n: nat)
    requires Laid(x, n) && x.current == Some(SCHEMA)
    ensures SCHEMA in x.data && HOST !in x.data
  {
    assert HOST in x.data ==> Urls.Rank(HOST) <= Urls.Rank(SCHEMA);
  }

  // ----- The bytes of a URL -----

  lemma UrlFirstByte(cfg: Settings, f: Fields, t: Trace, c: char)
    requires Valid(f) && f.errno.OK? && f.state.ReqSpacesBeforeUrl? && f.nread < MAX_HEADER_SIZE && c != ' '
    ensures var s := ParseUrlChar(if f.verb.CONNECT? then ReqServerStart else ReqSpacesBeforeUrl, c);
            Step(cfg, Stream(f, t), c) ==
            if s.Dead? then Failed else Ready(Stream(f.(state := s, nread := f.nread + 1), Emit(t, Data(OnUrl, [c]))))
  {
    hide Emit, Step, Sound, VisitState, ParseUrlChar;
    PlainStep(cfg, f, t, c);
    DispatchUrl(Bump(f, 1), c);
  }

  lemma DispatchUrl(f: Fields, c: char)
    requires Asserts(f)
    ensures f.state.ReqSpacesBeforeUrl? || IsUrlState(f.state) ==> VisitState(f, c) == VisitUrl(f, c)
    ensures IsVersionState(f.state) ==> VisitState(f, c) == VisitVersion(f, c)
  {
    hide VisitUrl, VisitVersion;
  }

  lemma UrlNextByte(cfg: Settings, f: Fields, t: Trace, c: char)
    requires Valid(f) && f.errno.OK? && IsUrlState(f.state) && f.nread < MAX_HEADER_SIZE && c != ' ' && !IsLineEnd(c)
    ensures var s := ParseUrlChar(f.state, c);
            Step(cfg, Stream(f, t), c) ==
            if s.Dead? then Failed else Ready(Stream(f.(state := s, nread := f.nread + 1), Emit(t, Data(OnUrl, [c]))))
  {
    hide Emit, Step, Sound, VisitState, ParseUrlChar;
    PlainStep(cfg, f, t, c);
    DispatchUrl(Bump(f, 1), c);
  }

  lemma UrlStateIsUrl(url: string, isConnect: bool)
    requires url != ""
    ensures UrlState(url, isConnect).Dead? || IsUrlState(UrlState(url, isConnect))
  {
    hide ParseUrlChar;
  }

  lemma UrlOneMore(cfg: Settings, f: Fields, t: Trace, front: string, c: char)
    requires var g := f.(state := UrlState(front, f.verb.CONNECT?), nread := f.nread + |front|);
             Valid(g) && g.errno.OK? && IsUrlState(g.state) && g.nread < MAX_HEADER_SIZE
    requires c != ' ' && !IsLineEnd(c)
    ensures var s := ParseUrlChar(UrlState(front, f.verb.CONNECT?), c);
            Step(cfg, Stream(f.(state := UrlState(front, f.verb.CONNECT?), nread := f.nread + |front|),
              Emit(t, Data(OnUrl, front))), c) ==
            if s.Dead? then Failed
            else Ready(Stream(f.(state := s, nread := f.nread + |front| + 1), Emit(t, Data(OnUrl, front + [c]))))
  {
    hide Emit, Step, Valid, ParseUrlChar, UrlState;
    UrlNextByte(cfg, f.(state := UrlState(front, f.verb.CONNECT?), nread := f.nread + |front|),
      Emit(t, Data(OnUrl, front)), c);
    EmitPieces(t, OnUrl, front, [c]);
  }

  lemma UrlStateUnfold(url: string, isConnect: bool)
    ensures UrlState("", isConnect) == if isConnect then ReqServerStart else ReqSpacesBeforeUrl
    ensures url != "" ==>
            UrlState(url, isConnect) == ParseUrlChar(UrlState(url[..|url| - 1], isConnect), url[|url| - 1])
  {
    hide ParseUrlChar;
  }

  /** A URL is delivered whole, or refused at the byte that does not fit. */
  lemma {:induction false} UrlRun(cfg: Settings, f: Fields, t: Trace, url: string)
    requires Valid(f) && f.errno.OK? && f.state.ReqSpacesBeforeUrl? && f.nread + |url| <= MAX_HEADER_SIZE
             && IsUrlText(url)
    ensures var s := UrlState(url, f.verb.CONNECT?);
            Run(cfg, Stream(f, t), url) ==
            if s.Dead? then Failed else Ready(Stream(f.(state := s, nread := f.nread + |url|),
              Emit(t, Data(OnUrl, url))))
  {
    hide Emit, Run, Step, Valid, ParseUrlChar, UrlState;
    var front, c := url[..|url| - 1], url[|url| - 1];
    UrlStateUnfold(url, f.verb.CONNECT?);
    UrlBytes(url);
    if |url| == 1 {
      assert url == [c] && front == "";
      RunOne(cfg, Stream(f, t), c);
      UrlFirstByte(cfg, f, t, c);
    } else {
      UrlRun(cfg, f, t, front);
      RunLast(cfg, Stream(f, t), url);
      UrlStateIsUrl(front, f.verb.CONNECT?);
      if UrlState(front, f.verb.CONNECT?).Dead? {
        DeadIsDead(c);
      } else {
        UrlOneMore(cfg, f, t, front, c);
        assert front + [c] == url;
      }
    }
  }

  lemma UrlBytes(url: string)
    requires IsUrlText(url)
    ensures url != "" && url[|url| - 1] != ' ' && !IsLineEnd(url[|url| - 1])
    ensures |url| > 1 ==> IsUrlText(url[..|url| - 1])
  {
    assert url[|url| - 1] in url && forall d <- url[..|url| - 1] :: d in url;
  }

  /** The space behind a URL. */
  lemma UrlEnd(cfg: Settings, f: Fields, t: Trace)
    requires Valid(f) && f.errno.OK? && IsUrlState(f.state) && f.nread < MAX_HEADER_SIZE
    ensures Step(cfg, Stream(f, t), ' ') ==
            if IsSchemaState(f.state) then Failed
              else Ready(Stream(f.(state := ReqHttpStart, nread := f.nread + 1), Emit(t, Data(OnUrl, ""))))
  {
    hide Emit, Step, Sound, VisitState;
    PlainStep(cfg, f, t, ' ');
    DispatchUrl(Bump(f, 1), ' ');
  }

  // ----- The version -----

  /** A byte of the version. */
  lemma VersionByte(cfg: Settings, f: Fields, t: Trace, ch: char, g: Fields)
    requires Valid(f) && f.errno.OK? && IsVersionState(f.state) && f.nread < MAX_HEADER_SIZE
    requires VisitVersion(Bump(f, 1), ch) == Visit(g, Nop, Break)
    ensures Step(cfg, Stream(f, t), ch) == Ready(Stream(g, t))
  {
    hide Emit, Step, Sound, VisitState, VisitVersion;
    PlainStep(cfg, f, t, ch);
    DispatchUrl(Bump(f, 1), ch);
  }

  function On(f: Fields, s: State, n: nat): Fields {
    f.(state := s, nread := f.nread + n)
  }

  /** The fixed characters of `HTTP/x.y` and of the line's end, with the states they lead to. */
  function Letter(s: State): (char, State) {
    match s
    case ReqHttpStart => ('H', ReqHttpH) case ReqHttpH => ('T', ReqHttpHT) case ReqHttpHT => ('T', ReqHttpHTT)
    case ReqHttpHTT => ('P', ReqHttpHTTP) case ReqHttpHTTP => ('/', ReqHttpMajor)
    case ReqHttpDot => ('.', ReqHttpMinor) case ReqHttpEnd => ('\r', ReqLineAlmostDone)
    case _ => ('\n', HeaderFieldStart)
  }

  lemma LetterStep(cfg: Settings, f: Fields, t: Trace)
    requires Valid(f) && f.errno.OK? && IsVersionState(f.state) && f.nread < MAX_HEADER_SIZE
    requires !f.state.ReqHttpMajor? && !f.state.ReqHttpMinor? && !f.state.ReqHttpI? && !f.state.ReqHttpIC?
    ensures Step(cfg, Stream(f, t), Letter(f.state).0) == Ready(Stream(On(f, Letter(f.state).1, 1), t))
  {
    hide Step, Valid;
    VersionByte(cfg, f, t, Letter(f.state).0, On(f, Letter(f.state).1, 1));
  }

  lemma DigitStep(cfg: Settings, f: Fields, t: Trace, c: char)
    requires Valid(f) && f.errno.OK? && (f.state.ReqHttpMajor? || f.state.ReqHttpMinor?) && f.nread < MAX_HEADER_SIZE
             && IsNum(c)
    ensures Step(cfg, Stream(f, t), c) ==
            Ready(Stream(if f.state.ReqHttpMajor? then On(f, ReqHttpDot, 1).(major := Digit(c))
              else On(f, ReqHttpEnd, 1).(minor := Digit(c)), t))
  {
    hide Step, Valid, Digit, IsNum;
    VersionByte(cfg, f, t, c,
      if f.state.ReqHttpMajor? then On(f, ReqHttpDot, 1).(major := Digit(c))
        else On(f, ReqHttpEnd, 1).(minor := Digit(c)));
  }

  predicate IsLetterState(s: State) {
    IsVersionState(s) && !s.ReqHttpMajor? && !s.ReqHttpMinor? && !s.ReqHttpI? && !s.ReqHttpIC?
  }

  /** The byte at `i` of a text is the one that is expected. */
  lemma LetterNext(cfg: Settings, f: Fields, t: Trace, text: string, i: nat)
    requires Valid(f) && f.errno.OK? && IsLetterState(f.state) && f.nread < MAX_HEADER_SIZE && i < |text|
             && text[i] == Letter(f.state).0
    ensures var g := On(f, Letter(f.state).1, 1);
            Valid(g) && Run(cfg, Stream(f, t), text[i..]) == Run(cfg, Stream(g, t), text[i + 1..])
  {
    hide Run, Step, Valid;
    LetterStep(cfg, f, t);
    NextByte(cfg, Stream(f, t), text, i, Stream(On(f, Letter(f.state).1, 1), t));
  }

  lemma OnOn(f: Fields, s: State, n: nat, s': State, n': nat)
    ensures On(On(f, s, n), s', n') == On(f, s', n + n')
  {
  }

  lemma TwoLetters(cfg: Settings, f: Fields, t: Trace, text: string, i: nat)
    requires Valid(f) && f.errno.OK? && IsLetterState(f.state) && IsLetterState(Letter(f.state).1)
             && f.nread + 2 <= MAX_HEADER_SIZE
    requires i + 2 <= |text| && text[i] == Letter(f.state).0 && text[i + 1] == Letter(Letter(f.state).1).0
    ensures var g := On(f, Letter(Letter(f.state).1).1, 2);
            Valid(g) && Run(cfg, Stream(f, t), text[i..]) == Run(cfg, Stream(g, t), text[i + 2..])
  {
    hide Run, Valid, IsLetterState, Letter;
    LetterNext(cfg, f, t, text, i);
    LetterNext(cfg, On(f, Letter(f.state).1, 1), t, text, i + 1);
    OnOn(f, Letter(f.state).1, 1, Letter(Letter(f.state).1).1, 1);
  }

  lemma HttpWord(cfg: Settings, f: Fields, t: Trace, text: string)
    requires Valid(f) && f.errno.OK? && f.state.ReqHttpStart? && f.nread + 5 <= MAX_HEADER_SIZE
    requires |text| >= 5 && text[0] == 'H' && text[1] == 'T' && text[2] == 'T' && text[3] == 'P' && text[4] == '/'
    ensures Valid(On(f, ReqHttpMajor, 5))
            && Run(cfg, Stream(f, t), text) == Run(cfg, Stream(On(f, ReqHttpMajor, 5), t), text[5..])
  {
    hide Run, Valid;
    assert text == text[0..];
    var g2, g4 := On(f, ReqHttpHT, 2), On(f, ReqHttpHTTP, 4);
    TwoLetters(cfg, f, t, text, 0);
    TwoLetters(cfg, g2, t, text, 2);
    OnOn(f, ReqHttpHT, 2, ReqHttpHTTP, 2);
    LetterNext(cfg, g4, t, text, 4);
    OnOn(f, ReqHttpHTTP, 4, ReqHttpMajor, 1);
  }

  /** The major and the minor number. */
  lemma VersionDigits(cfg: Settings, f: Fields, t: Trace, x: string)
    requires Valid(f) && f.errno.OK? && f.state.ReqHttpMajor? && f.nread + 3 <= MAX_HEADER_SIZE
    requires |x| >= 3 && IsNum(x[0]) && x[1] == '.' && IsNum(x[2])
    ensures var g := On(f, ReqHttpEnd, 3).(major := Digit(x[0]), minor := Digit(x[2]));
            Valid(g) && Run(cfg, Stream(f, t), x) == Run(cfg, Stream(g, t), x[3..])
  {
    hide Run, Step, Valid, Digit, IsNum;
    assert x == x[0..];
    var g1 := On(f, ReqHttpDot, 1).(major := Digit(x[0]));
    var g2 := On(g1, ReqHttpMinor, 1);
    DigitStep(cfg, f, t, x[0]);
    NextByte(cfg, Stream(f, t), x, 0, Stream(g1, t));
    LetterNext(cfg, g1, t, x, 1);
    DigitStep(cfg, g2, t, x[2]);
    NextByte(cfg, Stream(g2, t), x, 2, Stream(On(g2, ReqHttpEnd, 1).(minor := Digit(x[2])), t));
  }

  /** The numbers of the version and the end of the line. */
  lemma VersionEnd(cfg: Settings, f: Fields, t: Trace, x: string)
    requires Valid(f) && f.errno.OK? && f.state.ReqHttpMajor? && f.nread + 5 <= MAX_HEADER_SIZE
    requires |x| == 5 && IsNum(x[0]) && x[1] == '.' && IsNum(x[2]) && x[3] == '\r' && x[4] == '\n'
    ensures Run(cfg, Stream(f, t), x) ==
            Ready(Stream(On(f, HeaderFieldStart, 5).(major := Digit(x[0]), minor := Digit(x[2])), t))
  {
    hide Run, Valid, Digit, IsNum;
    assert x[5..] == "";
    VersionDigits(cfg, f, t, x);
    var g := On(f, ReqHttpEnd, 3).(major := Digit(x[0]), minor := Digit(x[2]));
    LetterNext(cfg, g, t, x, 3);
    LetterNext(cfg, On(g, ReqLineAlmostDone, 1), t, x, 4);
    OnOn(g, ReqLineAlmostDone, 1, HeaderFieldStart, 1);
    RunNothing(cfg, Stream(On(g, HeaderFieldStart, 2), t));
  }

  // ----- The line -----

  /** A request line; `x` and `y` are the digits of the version. */
  function RequestLine(m: Method, url: string, x: char, y: char): string {
    MethodName(m) + " " + (url + " " + ("HTTP/" + [x, '.', y, '\r', '\n']))
  }

  function AfterRequestLine(f: Fields, m: Method, url: string, x: char, y: char): Fields
    requires IsNum(x) && IsNum(y)
  {
    f.(flags := NO_FLAGS, contentLength := ULLONG_MAX, state := HeaderFieldStart, verb := m,
      index := |MethodName(m)| + 1,
       major := Digit(x), minor := Digit(y), nread := f.nread + |RequestLine(m, url, x, y)|)
  }

  lemma MethodAndSpace(cfg: Settings, f: Fields, t: Trace, m: Method)
    requires Valid(f) && f.errno.OK? && f.state.StartReq? && f.nread + |MethodName(m)| + 1 <= MAX_HEADER_SIZE
    ensures var n := |MethodName(m)|;
            Run(cfg, Stream(f, t), MethodName(m) + " ") ==
            Ready(Stream(f.(flags := NO_FLAGS, contentLength := ULLONG_MAX, state := ReqSpacesBeforeUrl, verb := m,
              index := n + 1, nread := f.nread + n + 1),
                         Emit(t, Note(OnMessageBegin))))
  {
    hide Emit, Run, Step, MethodName, SwitchMethod, FirstMethod, Valid;
    var name := MethodName(m);
    NamesHaveNoSpace(m);
    NameStart(m);
    MethodRun(cfg, f, t, name);
    ParentShort(m);
    NameIsFollowed(m, |name|);
    assert name[..|name|] == name && (name + " ")[..|name|] == name;
    RunLast(cfg, Stream(f, t), name + " ");
    MethodByte(cfg, InMethod(f, name, m), Emit(t, Note(OnMessageBegin)), ' ');
  }

  lemma NameStart(m: Method)
    ensures !IsLineEnd(MethodName(m)[0])
  {
  }

  lemma VersionRun(cfg: Settings, f: Fields, t: Trace, x: char, y: char)
    requires Valid(f) && f.errno.OK? && f.state.ReqHttpStart? && f.nread + 10 <= MAX_HEADER_SIZE && IsNum(x) && IsNum(y)
    ensures Run(cfg, Stream(f, t), "HTTP/" + [x, '.', y, '\r', '\n']) ==
            Ready(Stream(On(f, HeaderFieldStart, 10).(major := Digit(x), minor := Digit(y)), t))
  {
    hide Run, Valid, Digit, IsNum;
    var text := "HTTP/" + [x, '.', y, '\r', '\n'];
    assert text[5..] == [x, '.', y, '\r', '\n'];
    HttpWord(cfg, f, t, text);
    VersionEnd(cfg, On(f, ReqHttpMajor, 5), t, text[5..]);
  }

  lemma TargetRun(cfg: Settings, f: Fields, t: Trace, url: string)
    requires Valid(f) && f.errno.OK? && f.state.ReqSpacesBeforeUrl? && f.nread + |url| + 1 <= MAX_HEADER_SIZE
             && IsUrlText(url)
    ensures Run(cfg, Stream(f, t), url + " ") ==
            if IsTarget(url, f.verb.CONNECT?) then
              Ready(Stream(On(f, ReqHttpStart, |url| + 1), Emit(t, Data(OnUrl, url))))
            else Failed
  {
    hide Emit, Run, Step, Valid, UrlState;
    UrlRun(cfg, f, t, url);
    RunLast(cfg, Stream(f, t), url + " ");
    assert (url + " ")[..|url|] == url;
    UrlStateIsUrl(url, f.verb.CONNECT?);
    if !UrlState(url, f.verb.CONNECT?).Dead? {
      UrlEnd(cfg, On(f, UrlState(url, f.verb.CONNECT?), |url|), Emit(t, Data(OnUrl, url)));
      EmitPieces(t, OnUrl, url, "");
      assert url + "" == url;
    }
  }

  /**
   A request line gets through exactly when its target is one; then method, version and target are those
   that were written, and the target is delivered whole.
   */
  lemma RequestLineIsRecovered(cfg: Settings, f: Fields, t: Trace, m: Method, url: string, x: char, y: char)
    requires Valid(f) && f.errno.OK? && f.state.StartReq? && f.nread + |RequestLine(m, url, x, y)| <= MAX_HEADER_SIZE
    requires IsUrlText(url) && IsNum(x) && IsNum(y)
    ensures Run(cfg, Stream(f, t), RequestLine(m, url, x, y)) ==
            if IsTarget(url, m.CONNECT?) then
              Ready(Stream(AfterRequestLine(f, m, url, x, y), Emit(Emit(t, Note(OnMessageBegin)), Data(OnUrl, url))))
            else Failed
  {
    hide Emit, Run, Valid, IsTarget, IsUrlText, Digit, IsNum, MethodName;
    var n, t' := |MethodName(m)|, Emit(t, Note(OnMessageBegin));
    var g := f.(flags := NO_FLAGS, contentLength := ULLONG_MAX, state := ReqSpacesBeforeUrl, verb := m, index := n + 1,
        nread := f.nread + n + 1);
    var version := "HTTP/" + [x, '.', y, '\r', '\n'];
    MethodAndSpace(cfg, f, t, m);
    RunAppend(cfg, Stream(f, t), MethodName(m) + " ", url + " " + version);
    TargetRun(cfg, g, t', url);
    RunAppend(cfg, Stream(g, t'), url + " ", version);
    if IsTarget(url, m.CONNECT?) {
      VersionRun(cfg, On(g, ReqHttpStart, |url| + 1), Emit(t', Data(OnUrl, url)), x, y);
    }
  }
}
