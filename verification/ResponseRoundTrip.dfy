/** What `gen_response` writes, the HTTP parser reads. */
module ResponseRoundTrip {
  import opened Options
  import opened Traces
  import opened HttpTypes
  import opened HttpVisit
  import opened HttpRun
  import opened HttpNames
  import opened StringUtils
  import opened HttpHeaders
  import opened HttpValues
  import opened HttpConnection
  import opened HttpLines
  import opened HttpBodies
  import opened HttpMessages
  import opened Responses
  import HttpFeed
  import HttpParser

  // ----- The status line -----

  lemma StartByte(cfg: Settings, f: Fields, t: Trace)
    requires Valid(f) && f.errno.OK? && f.state.StartRes? && f.nread < MAX_HEADER_SIZE
    ensures Step(cfg, Stream(f, t), 'H') ==
            Ready(Stream(f.(flags := NO_FLAGS, contentLength := ULLONG_MAX, state := ResH, nread := f.nread + 1),
              Emit(t, Note(OnMessageBegin))))
  {
    hide Emit, Step, Sound, VisitState;
    PlainStep(cfg, f, t, 'H');
    Dispatch(Bump(f, 1), 'H');
  }

  /** A byte of the status line before its text. */
  lemma LineByte(cfg: Settings, f: Fields, t: Trace, ch: char, g: Fields)
    requires Valid(f) && f.errno.OK? && IsResponseLineState(f.state) && !f.state.ResStatusStart? && !f.state.ResStatus?
             && f.nread < MAX_HEADER_SIZE
    requires VisitResponseLine(Bump(f, 1), ch) == Visit(g, Nop, Break)
    ensures Step(cfg, Stream(f, t), ch) == Ready(Stream(g, t))
  {
    hide Emit, Step, Sound, VisitState, VisitResponseLine;
    PlainStep(cfg, f, t, ch);
    Dispatch(Bump(f, 1), ch);
  }

  /** The fields within the status line. */
  function OnLine(f: Fields, s: State, n: nat): Fields {
    f.(flags := NO_FLAGS, contentLength := ULLONG_MAX, state := s, nread := f.nread + n)
  }

  lemma HttpPrefixRun(cfg: Settings, f: Fields, t: Trace, text: string)
    requires Valid(f) && f.errno.OK? && f.state.StartRes? && f.nread + 6 <= MAX_HEADER_SIZE
    requires |text| >= 5 && text[..5] == "HTTP/"
    ensures var g := OnLine(f, ResHttpMajor, 5);
            Valid(g) && Run(cfg, Stream(f, t), text) == Run(cfg, Stream(g, Emit(t, Note(OnMessageBegin))), text[5..])
  {
    hide Emit, Run, Step, Valid;
    var t' := Emit(t, Note(OnMessageBegin));
    assert text == text[0..] && forall i | 0 <= i < 5 :: text[i] == text[..5][i];
    StartByte(cfg, f, t);
    NextByte(cfg, Stream(f, t), text, 0, Stream(OnLine(f, ResH, 1), t'));
    LineByte(cfg, OnLine(f, ResH, 1), t', 'T', OnLine(f, ResHT, 2));
    NextByte(cfg, Stream(OnLine(f, ResH, 1), t'), text, 1, Stream(OnLine(f, ResHT, 2), t'));
    LineByte(cfg, OnLine(f, ResHT, 2), t', 'T', OnLine(f, ResHTT, 3));
    NextByte(cfg, Stream(OnLine(f, ResHT, 2), t'), text, 2, Stream(OnLine(f, ResHTT, 3), t'));
    LineByte(cfg, OnLine(f, ResHTT, 3), t', 'P', OnLine(f, ResHTTP, 4));
    NextByte(cfg, Stream(OnLine(f, ResHTT, 3), t'), text, 3, Stream(OnLine(f, ResHTTP, 4), t'));
    LineByte(cfg, OnLine(f, ResHTTP, 4), t', '/', OnLine(f, ResHttpMajor, 5));
    NextByte(cfg, Stream(OnLine(f, ResHTTP, 4), t'), text, 4, Stream(OnLine(f, ResHttpMajor, 5), t'));
  }

  lemma VersionRun(cfg: Settings, f: Fields, t: Trace, text: string)
    requires Valid(f) && f.errno.OK? && f.state.ResHttpMajor? && f.nread + 5 <= MAX_HEADER_SIZE
    requires |text| >= 4 && IsNum(text[0]) && text[1] == '.' && IsNum(text[2]) && text[3] == ' '
    ensures var g := f.(state := ResFirstStatusCode, nread := f.nread + 4, major := Digit(text[0]),
            minor := Digit(text[2]));
            Valid(g) && Run(cfg, Stream(f, t), text) == Run(cfg, Stream(g, t), text[4..])
  {
    hide Emit, Run, Step, Valid, Digit;
    assert text == text[0..];
    var g1 := f.(state := ResHttpDot, nread := f.nread + 1, major := Digit(text[0]));
    var g2 := g1.(state := ResHttpMinor, nread := f.nread + 2);
    var g3 := g2.(state := ResHttpEnd, nread := f.nread + 3, minor := Digit(text[2]));
    var g4 := g3.(state := ResFirstStatusCode, nread := f.nread + 4);
    LineByte(cfg, f, t, text[0], g1);
    NextByte(cfg, Stream(f, t), text, 0, Stream(g1, t));
    LineByte(cfg, g1, t, text[1], g2);
    NextByte(cfg, Stream(g1, t), text, 1, Stream(g2, t));
    LineByte(cfg, g2, t, text[2], g3);
    NextByte(cfg, Stream(g2, t), text, 2, Stream(g3, t));
    LineByte(cfg, g3, t, text[3], g4);
    NextByte(cfg, Stream(g3, t), text, 3, Stream(g4, t));
  }

  lemma DecimalDigits(n: nat)
    requires 100 <= n <= 999
    ensures Decimal(n) == [DecimalDigit(n / 100), DecimalDigit(n / 10 % 10), DecimalDigit(n % 10)]
  {
    assert Decimal(n / 10) == [DecimalDigit(n / 100), DecimalDigit(n / 10 % 10)] by {
      assert Decimal(n / 100) == [DecimalDigit(n / 100)];
      assert n / 10 / 10 == n / 100;
    }
  }

  lemma DigitOfDigit(d: nat)
    requires d < 10
    ensures IsNum(DecimalDigit(d)) && Digit(DecimalDigit(d)) == d
  {
  }

  lemma CodeRun(cfg: Settings, f: Fields, t: Trace, text: string, code: nat)
    requires Valid(f) && f.errno.OK? && f.state.ResFirstStatusCode? && f.nread + 5 <= MAX_HEADER_SIZE
    requires 100 <= code <= 999 && |text| >= 4 && text[..4] == Decimal(code) + " "
    ensures var g := f.(state := ResStatusStart, nread := f.nread + 4, statusCode := code);
            Valid(g) && Run(cfg, Stream(f, t), text) == Run(cfg, Stream(g, t), text[4..])
  {
    hide Emit, Run, Step, Valid, Digit, DecimalDigit, Decimal, IsNum;
    DecimalDigits(code);
    DigitOfDigit(code / 100);
    DigitOfDigit(code / 10 % 10);
    DigitOfDigit(code % 10);
    assert text == text[0..] && forall i | 0 <= i < 4 :: text[i] == text[..4][i];
    assert !IsNum(' ') by {
      SpaceIsNoDigit();
    }
    var g1 := f.(state := ResStatusCode, nread := f.nread + 1, statusCode := code / 100);
    var g2 := g1.(nread := f.nread + 2, statusCode := code / 10);
    var g3 := g2.(nread := f.nread + 3, statusCode := code);
    var g4 := g3.(state := ResStatusStart, nread := f.nread + 4);
    LineByte(cfg, f, t, text[0], g1);
    NextByte(cfg, Stream(f, t), text, 0, Stream(g1, t));
    LineByte(cfg, g1, t, text[1], g2);
    NextByte(cfg, Stream(g1, t), text, 1, Stream(g2, t));
    LineByte(cfg, g2, t, text[2], g3);
    NextByte(cfg, Stream(g2, t), text, 2, Stream(g3, t));
    LineByte(cfg, g3, t, text[3], g4);
    NextByte(cfg, Stream(g3, t), text, 3, Stream(g4, t));
  }

  lemma ReasonFirst(cfg: Settings, f: Fields, t: Trace, ch: char)
    requires Valid(f) && f.errno.OK? && f.state.ResStatusStart? && f.nread < MAX_HEADER_SIZE && !IsLineEnd(ch)
    ensures Step(cfg, Stream(f, t), ch)
            == Ready(Stream(f.(state := ResStatus, index := 0, nread := f.nread + 1), Emit(t, Data(OnStatus, [ch]))))
  {
    hide Emit, Step, Sound, VisitState;
    PlainStep(cfg, f, t, ch);
    Dispatch(Bump(f, 1), ch);
  }

  lemma ReasonNext(cfg: Settings, f: Fields, t: Trace, ch: char)
    requires Valid(f) && f.errno.OK? && f.state.ResStatus? && f.nread < MAX_HEADER_SIZE && ch != '\n'
    ensures Step(cfg, Stream(f, t), ch) ==
            if ch == '\r' then Ready(Stream(f.(state := ResLineAlmostDone, nread := f.nread + 1),
              Emit(t, Data(OnStatus, ""))))
            else Ready(Stream(Bump(f, 1), Emit(t, Data(OnStatus, [ch]))))
  {
    hide Emit, Step, Sound, VisitState;
    PlainStep(cfg, f, t, ch);
    Dispatch(Bump(f, 1), ch);
  }

  lemma ReasonReturnVisit(cfg: Settings, f: Fields, t: Trace)
    requires Inside(f) && f.errno.OK? && f.state.ResStatus?
    ensures Visits(cfg, Stream(f, t), '\r', Some(OnStatus))
            == Ready(Stream(f.(state := ResLineAlmostDone), Emit(t, Data(OnStatus, ""))))
  {
    hide Emit, Sound, VisitState, Kept;
    VisitKeeps(f, '\r');
    Dispatch(f, '\r');
  }

  lemma ReasonStartVisit(cfg: Settings, f: Fields, t: Trace)
    requires Inside(f) && f.errno.OK? && f.state.ResStatusStart?
    ensures var g := f.(state := ResStatus, index := 0);
            Inside(g) && Visits(cfg, Stream(f, t), '\r', None) == Visits(cfg, Stream(g, t), '\r', Some(OnStatus))
  {
    hide Emit, Sound, VisitState, Kept;
    VisitKeeps(f, '\r');
    Dispatch(f, '\r');
    SoundBounds(f);
    PlainMove(f, f.(state := ResStatus, index := 0));
  }

  /** An empty reason phrase: the CR is looked at twice. */
  lemma NoReason(cfg: Settings, f: Fields, t: Trace)
    requires Valid(f) && f.errno.OK? && f.state.ResStatusStart? && f.nread < MAX_HEADER_SIZE
    ensures Step(cfg, Stream(f, t), '\r')
            == Ready(Stream(f.(state := ResLineAlmostDone, index := 0, nread := f.nread + 1),
              Emit(t, Data(OnStatus, ""))))
  {
    hide Emit, Visits, Valid, Inside;
    CountedInside(f);
    var f1 := Bump(f, 1);
    ReasonStartVisit(cfg, f1, t);
    ReasonReturnVisit(cfg, f1.(state := ResStatus, index := 0), t);
  }

  lemma {:induction false} ReasonRun(cfg: Settings, f: Fields, t: Trace, msg: string)
    requires Valid(f) && f.errno.OK? && f.state.ResStatusStart? && f.nread + |msg| <= MAX_HEADER_SIZE && msg != ""
             && OneLine(msg)
    ensures Run(cfg, Stream(f, t), msg)
            == Ready(Stream(f.(state := ResStatus, index := 0, nread := f.nread + |msg|), Emit(t, Data(OnStatus, msg))))
  {
    hide Emit, Run, Step, Valid;
    var front, c := msg[..|msg| - 1], msg[|msg| - 1];
    assert c in msg && msg == front + [c];
    if |msg| == 1 {
      assert msg == [c];
      RunOne(cfg, Stream(f, t), c);
      ReasonFirst(cfg, f, t, c);
    } else {
      assert forall d <- front :: d in msg;
      ReasonRun(cfg, f, t, front);
      RunLast(cfg, Stream(f, t), msg);
      ReasonNext(cfg, f.(state := ResStatus, index := 0, nread := f.nread + |front|), Emit(t, Data(OnStatus, front)),
        c);
      EmitPieces(t, OnStatus, front, [c]);
    }
  }

  /** The reason phrase and the end of the status line. */
  lemma ReasonAndEnd(cfg: Settings, f: Fields, t: Trace, msg: string)
    requires Valid(f) && f.errno.OK? && f.state.ResStatusStart? && f.nread + |msg| + 2 <= MAX_HEADER_SIZE
             && OneLine(msg)
    ensures Run(cfg, Stream(f, t), msg + "\r\n") ==
            Ready(Stream(f.(state := HeaderFieldStart, index := 0, nread := f.nread + |msg| + 2),
              Emit(t, Data(OnStatus, msg))))
  {
    hide Emit, Run, Step, Valid;
    var g := f.(state := ResLineAlmostDone, index := 0, nread := f.nread + |msg| + 1);
    var t' := Emit(t, Data(OnStatus, msg));
    if msg == "" {
      assert msg + "\r\n" == "\r\n";
      NoReason(cfg, f, t);
      TwoBytes(cfg, Stream(f, t), '\r', '\n');
    } else {
      var h := f.(state := ResStatus, index := 0, nread := f.nread + |msg|);
      ReasonRun(cfg, f, t, msg);
      ReasonNext(cfg, h, t', '\r');
      EmitPieces(t, OnStatus, msg, "");
      assert msg + "" == msg;
      RunAppend(cfg, Stream(f, t), msg, "\r\n");
      TwoBytes(cfg, Stream(h, t'), '\r', '\n');
    }
    LineByte(cfg, g, t', '\n', f.(state := HeaderFieldStart, index := 0, nread := f.nread + |msg| + 2));
  }

  predicate IsVersion(version: string) {
    version == "HTTP/1.0" || version == "HTTP/1.1"
  }

  function StatusLine(version: string, code: nat, msg: string): string {
    version + " " + Decimal(code) + " " + msg + "\r\n"
  }

  function AfterStatusLine(f: Fields, version: string, code: nat, msg: string): Fields {
    f.(flags := NO_FLAGS, contentLength := ULLONG_MAX, state := HeaderFieldStart, index := 0, statusCode := code,
       major := 1, minor := if version == "HTTP/1.1" then 1 else 0, nread := f.nread + |StatusLine(version, code, msg)|)
  }

  lemma VersionText(version: string, code: nat, msg: string)
    requires IsVersion(version) && 100 <= code <= 999
    ensures var x := StatusLine(version, code, msg);
            && |x| == |msg| + 15 && x[..5] == "HTTP/"
            && x[5..][0] == '1' && x[5..][1] == '.' && x[5..][2] == (if version == "HTTP/1.1" then '1' else '0')
               && x[5..][3] == ' '
            && x[5..][4..][..4] == Decimal(code) + " " && x[5..][4..][4..] == msg + "\r\n"
  {
    hide Decimal;
    DecimalDigits(code);
    var x := StatusLine(version, code, msg);
    assert x == version + (" " + Decimal(code) + " " + msg + "\r\n");
    assert x[..5] == version[..5];
    assert x[9..] == Decimal(code) + " " + (msg + "\r\n");
    assert x[5..][4..] == x[9..] && x[5..][4..][4..] == x[13..];
  }

  lemma StatusLineRun(cfg: Settings, f: Fields, t: Trace, version: string, code: nat, msg: string)
    requires Valid(f) && f.errno.OK? && f.state.StartRes?
             && f.nread + |StatusLine(version, code, msg)| <= MAX_HEADER_SIZE
    requires IsVersion(version) && 100 <= code <= 999 && OneLine(msg)
    ensures Run(cfg, Stream(f, t), StatusLine(version, code, msg)) ==
            Ready(Stream(AfterStatusLine(f, version, code, msg),
              Emit(Emit(t, Note(OnMessageBegin)), Data(OnStatus, msg))))
  {
    hide Emit, Run, Valid, Decimal, StatusLine;
    VersionText(version, code, msg);
    var x, t' := StatusLine(version, code, msg), Emit(t, Note(OnMessageBegin));
    HttpPrefixRun(cfg, f, t, x);
    var g := OnLine(f, ResHttpMajor, 5);
    VersionRun(cfg, g, t', x[5..]);
    var g' := g.(state := ResFirstStatusCode, nread := g.nread + 4, major := 1,
        minor := if version == "HTTP/1.1" then 1 else 0);
    CodeRun(cfg, g', t', x[5..][4..], code);
    ReasonAndEnd(cfg, g'.(state := ResStatusStart, nread := g'.nread + 4, statusCode := code), t', msg);
  }

  // ----- The headers -----

  /** A header that does not say where the message ends or what comes after it. */
  predicate IsUserName(name: string) {
    IsToken(name) && Folded(name) != "content-length" && Folded(name) != "transfer-encoding"
      && Folded(name) != "upgrade"
  }

  predicate IsConnectionName(name: string) {
    Folded(name) == "connection" || Folded(name) == "proxy-connection"
  }

  /** A header that the parser does not treat specially. */
  predicate IsPlainName(name: string) {
    IsUserName(name) && !IsConnectionName(name)
  }

  /** A value that survives: one line without control characters, no blank before it. */
  predicate IsPlainValue(value: string) {
    IsValue(value) && (value != "" ==> !IsBlank(value[0]))
  }

  lemma ValueIsOneLine(value: string)
    requires IsPlainValue(value)
    ensures OneLine(value) && (value != "" ==> IsValue(value[1..]))
  {
  }

  /** The flags but for what Connection headers say. */
  ghost predicate Agree(a: Flags, b: Flags, exactly: bool) {
    if exactly then a == b else a == b.(keepAlive := a.keepAlive, close := a.close, connUpgrade := a.connUpgrade)
  }

  /** What a line makes of length and flags. */
  ghost predicate LineSets(f: Fields, name: string, value: string, contentLength: nat, flags: Flags, exactly: bool) {
    name != "" && IsHeaderLine(name, " ", value) &&
    match AfterLine(f, name, " ", value)
    case None => false
    case Some(g) => g.contentLength == contentLength && Agree(g.flags, flags, exactly)
  }

  lemma PlainLine(f: Fields, name: string, value: string, exactly: bool)
    requires IsUserName(name) && IsPlainValue(value) && (exactly ==> IsPlainName(name))
    ensures name != "" && LineSets(f, name, value, f.contentLength, f.flags, exactly)
  {
    hide FollowName, FollowValue, IsToken, Folded, IsValue, IsSeen;
    NameStates(name);
    ValueIsOneLine(value);
    TokenNames(name);
    var g := Bump(AfterName(f, name), 1);
    if value != "" {
      if g.headerState.Connection? {
        ConnectionIsExact(g, value);
      } else {
        OrdinaryValue(g, value);
      }
    }
  }

  lemma LengthLine(f: Fields, name: string, value: string)
    requires IsToken(name) && Folded(name) == "content-length" && IsLength(value) && !f.flags.contentLength
    ensures LineSets(f, name, value, Numeral(value), f.flags.(contentLength := true), true)
  {
    hide FollowName, FollowValue, IsToken, Folded, IsNum;
    NameStates(name);
    TokenNames(name);
    LengthFits(value);
    DigitsAreOneLine(value);
    LengthsAreExact(Bump(AfterName(f, name), 1), value);
  }

  lemma DigitsAreOneLine(value: string)
    requires AllNum(value)
    ensures OneLine(value) && forall c <- value :: !IsBlank(c)
  {
    forall c | c in value ensures !IsLineEnd(c) && !IsBlank(c) {
      assert IsNum(c);
    }
  }

  lemma ConnectionLine(f: Fields, name: string, keepAlive: bool)
    requires IsToken(name) && Folded(name) == "connection"
    ensures LineSets(f, name, ConnectionText(keepAlive), f.contentLength,
                     if keepAlive then f.flags.(keepAlive := true) else f.flags.(close := true), true)
  {
    hide FollowName, FollowValue, IsToken, Folded, RelationTo, Trimmed, IsHeaderChar, IsSeen, FinishedFlags;
    NameStates(name);
    TokenNames(name);
    ConnectionTextIsToken(keepAlive);
    var value, g := ConnectionText(keepAlive), Bump(AfterName(f, name), 1);
    assert value != "" && !IsBlank(value[0]);
    SingleTokensAreExact(g, value);
    ConnectionIsExact(g, value);
    FinishedConnection(FollowValue(g, value).value);
  }

  lemma FinishedConnection(g: Fields)
    ensures g.headerState.KeepAlive? ==> FinishedFlags(g) == g.flags.(keepAlive := true)
    ensures g.headerState.Close? ==> FinishedFlags(g) == g.flags.(close := true)
  {
  }

  lemma ConnectionTextIsToken(keepAlive: bool)
    ensures var value := ConnectionText(keepAlive);
            OneLine(value) && IsValue(value) && ',' !in value
              && RelationTo(value, if keepAlive then "keep-alive" else "close").Is?
  {
    hide RelationTo, Folded;
    WordsAreWords();
    var value, word := ConnectionText(keepAlive), if keepAlive then KeepAliveWord() else CloseWord();
    FoldedIs(value, word);
    RelationIs(value, word);
    assert Trimmed(word) == word;
  }

  lemma OwnNames()
    ensures IsPlainName("Server") && IsPlainName("Content-Type")
    ensures IsPlainValue("ehttp/" + EHTTP_VERSION) && IsPlainValue(DEFAULT_CONTENT_TYPE)
  {
    hide Folded;
  }

  lemma LengthName()
    ensures IsToken("Content-Length") && Folded("Content-Length") == "content-length"
  {
    hide Folded;
    FoldedIs("Content-Length", "content-length");
  }

  lemma ConnectionName()
    ensures IsToken("Connection") && Folded("Connection") == "connection"
  {
    hide Folded;
    FoldedIs("Connection", "connection");
  }

  function AsHeaders(m: seq<Entry>): seq<Header> {
    seq(|m|, i requires 0 <= i < |m| => Header(m[i].0, " ", m[i].1))
  }

  lemma {:induction false} EntriesAreBlock(m: seq<Entry>)
    ensures EntriesText(m) == Block(AsHeaders(m))
    decreases |m|
  {
    if m != [] {
      EntriesAreBlock(m[1..]);
      EntriesAppend([m[0]], m[1..]);
      assert [m[0]] + m[1..] == m;
      assert EntriesText([m[0]]) == EntryText(m[0]) by {
        EntriesOne([], m[0]);
      }
      assert AsHeaders(m)[1..] == AsHeaders(m[1..]);
      assert EntryText(m[0]) == HeaderLine(m[0].0, " ", m[0].1);
    }
  }

  /** The callbacks of header lines. */
  function HeaderEvents(m: seq<Entry>): Trace {
    if m == [] then [] else [Data(OnHeaderField, m[0].0), Data(OnHeaderValue, m[0].1)] + HeaderEvents(m[1..])
  }

  lemma EntryEvents(t: Trace, e: Entry)
    requires t != [] && (t[|t| - 1].Data? ==> t[|t| - 1].kind != OnHeaderField)
    ensures WithHeader(t, e.0, e.1) == t + [Data(OnHeaderField, e.0), Data(OnHeaderValue, e.1)]
  {
    assert Emit(t, Data(OnHeaderField, e.0)) == t + [Data(OnHeaderField, e.0)];
  }

  lemma {:induction false} EntriesAreEvents(t: Trace, m: seq<Entry>)
    requires t != [] && (t[|t| - 1].Data? ==> t[|t| - 1].kind != OnHeaderField)
    ensures WithHeaders(t, AsHeaders(m)) == t + HeaderEvents(m)
    decreases |m|
  {
    hide Emit, WithHeader;
    if m != [] {
      var t' := t + [Data(OnHeaderField, m[0].0), Data(OnHeaderValue, m[0].1)];
      EntryEvents(t, m[0]);
      EntriesAreEvents(t', m[1..]);
      assert AsHeaders(m)[1..] == AsHeaders(m[1..]) && AsHeaders(m)[0] == Header(m[0].0, " ", m[0].1);
      assert t' + HeaderEvents(m[1..]) == t + HeaderEvents(m);
    }
  }

  /** What a block of lines makes of length and flags. */
  ghost predicate LinesSet(f: Fields, m: seq<Entry>, contentLength: nat, flags: Flags, exactly: bool) {
    AreHeaders(AsHeaders(m)) &&
    match AfterLines(f, AsHeaders(m))
    case None => false
    case Some(g) => g.contentLength == contentLength && Agree(g.flags, flags, exactly)
  }

  lemma ConsLine(f: Fields, e: Entry, m: seq<Entry>, length: nat, flags: Flags, some: bool, length': nat, flags': Flags,
      exactly: bool)
    requires LineSets(f, e.0, e.1, length, flags, some)
    requires var g := AfterLine(f, e.0, " ", e.1).value; LinesSet(g, m, length', flags', exactly)
    ensures LinesSet(f, [e] + m, length', flags', exactly)
  {
    hide AfterLine, IsHeaderLine;
    var hs := AsHeaders([e] + m);
    assert hs[0] == Header(e.0, " ", e.1) && hs[1..] == AsHeaders(m);
    forall h | h in hs ensures IsHeaderLine(h.name, h.blanks, h.value) {
      assert h == hs[0] || h in hs[1..];
    }
  }

  predicate AreUserEntries(m: seq<Entry>) {
    forall e <- m :: IsUserName(e.0) && IsPlainValue(e.1)
  }

  predicate ArePlainEntries(m: seq<Entry>) {
    forall e <- m :: IsPlainName(e.0)
  }

  lemma {:induction false} UserLines(f: Fields, m: seq<Entry>, exactly: bool)
    requires AreUserEntries(m) && (exactly ==> ArePlainEntries(m))
    ensures LinesSet(f, m, f.contentLength, f.flags, exactly)
    decreases |m|
  {
    hide IsPlainName, IsUserName, IsPlainValue, AfterLine, IsHeaderLine;
    if m != [] {
      assert m[0] in m && forall e <- m[1..] :: e in m;
      PlainLine(f, m[0].0, m[0].1, exactly);
      UserLines(AfterLine(f, m[0].0, " ", m[0].1).value, m[1..], exactly);
      ConsLine(f, m[0], m[1..], f.contentLength, f.flags, exactly, f.contentLength, f.flags, exactly);
      assert [m[0]] + m[1..] == m;
    }
  }

  /** A size that `content_length` can hold; no string is longer. */
  predicate IsSize(n: nat) {
    n / 10 <= (ULLONG_MAX - 10) / 10
  }

  lemma {:induction false} DecimalIsNumeral(n: nat)
    ensures AllNum(Decimal(n)) && Numeral(Decimal(n)) == n
    ensures IsSize(n) ==> IsLength(Decimal(n))
  {
    var front := if n < 10 then "" else Decimal(n / 10);
    if n >= 10 {
      DecimalIsNumeral(n / 10);
    }
    DigitOfDigit(n % 10);
    assert Decimal(n)[..|Decimal(n)| - 1] == front;
    NumeralMore(front, DecimalDigit(n % 10));
  }

  function ResponseFlags(keepAlive: bool): Flags {
    if keepAlive then NO_FLAGS.(contentLength := true, keepAlive := true)
      else NO_FLAGS.(contentLength := true, close := true)
  }

  /** The connection header and those of the user. */
  lemma TailLines(f: Fields, m: seq<Entry>, keepAlive: bool, exactly: bool)
    requires AreUserEntries(m) && (exactly ==> ArePlainEntries(m)) && f.flags == NO_FLAGS.(contentLength := true)
    ensures LinesSet(f, [("Connection", ConnectionText(keepAlive))] + m, f.contentLength, ResponseFlags(keepAlive),
            exactly)
  {
    hide AreUserEntries, ArePlainEntries, LinesSet, AfterLine, IsHeaderLine, Folded, IsToken;
    ConnectionName();
    ConnectionLine(f, "Connection", keepAlive);
    var g := AfterLine(f, "Connection", " ", ConnectionText(keepAlive)).value;
    UserLines(g, m, exactly);
    ConsLine(f, ("Connection", ConnectionText(keepAlive)), m, f.contentLength, ResponseFlags(keepAlive), true,
      f.contentLength, ResponseFlags(keepAlive), exactly);
  }

  lemma LengthAndTailLines(f: Fields, m: seq<Entry>, body: string, keepAlive: bool, exactly: bool)
    requires AreUserEntries(m) && (exactly ==> ArePlainEntries(m)) && f.flags == NO_FLAGS && IsSize(|body|)
    ensures LinesSet(f, [("Content-Length", Decimal(|body|))] + ([("Connection", ConnectionText(keepAlive))] + m),
                     |body|, ResponseFlags(keepAlive), exactly)
  {
    hide AreUserEntries, ArePlainEntries, LinesSet, AfterLine, IsHeaderLine, Folded, IsToken, Decimal, IsLength, IsSize;
    LengthName();
    DecimalIsNumeral(|body|);
    LengthLine(f, "Content-Length", Decimal(|body|));
    var g := AfterLine(f, "Content-Length", " ", Decimal(|body|)).value;
    TailLines(g, m, keepAlive, exactly);
    ConsLine(f, ("Content-Length", Decimal(|body|)), [("Connection", ConnectionText(keepAlive))] + m,
      |body|, NO_FLAGS.(contentLength := true), true, |body|, ResponseFlags(keepAlive), exactly);
  }

  lemma NoOwnLength(m: seq<Entry>)
    requires AreUserEntries(m)
    ensures !Lookup(m, "Content-Length").0
  {
    hide Folded, IsToken, IsPlainValue;
    LengthName();
    LookupFinds(m, "Content-Length");
  }

  /** All the headers of a response together. */
  lemma ResponseLines(f: Fields, m: seq<Entry>, body: string, keepAlive: bool, exactly: bool)
    requires AreUserEntries(m) && (exactly ==> ArePlainEntries(m)) && f.flags == NO_FLAGS && IsSize(|body|)
    ensures LinesSet(f, OwnEntries(m, body, keepAlive) + m, |body|, ResponseFlags(keepAlive), exactly)
  {
    hide IsUserName, IsPlainValue, LinesSet, Folded, Decimal, Lookup, AfterLine, IsHeaderLine;
    OwnNames();
    NoOwnLength(m);
    var server, contentType := ("Server", "ehttp/" + EHTTP_VERSION), ("Content-Type", DEFAULT_CONTENT_TYPE);
    var rest := [("Content-Length", Decimal(|body|))] + ([("Connection", ConnectionText(keepAlive))] + m);
    PlainLine(f, server.0, server.1, true);
    var g := AfterLine(f, server.0, " ", server.1).value;
    if Lookup(m, "Content-Type").0 {
      LengthAndTailLines(g, m, body, keepAlive, exactly);
      ConsLine(f, server, rest, f.contentLength, NO_FLAGS, true, |body|, ResponseFlags(keepAlive), exactly);
      assert OwnEntries(m, body, keepAlive) + m == [server] + rest;
    } else {
      PlainLine(g, contentType.0, contentType.1, true);
      var g' := AfterLine(g, contentType.0, " ", contentType.1).value;
      LengthAndTailLines(g', m, body, keepAlive, exactly);
      ConsLine(g, contentType, rest, g.contentLength, NO_FLAGS, true, |body|, ResponseFlags(keepAlive), exactly);
      ConsLine(f, server, [contentType] + rest, f.contentLength, NO_FLAGS, true, |body|, ResponseFlags(keepAlive),
        exactly);
      assert OwnEntries(m, body, keepAlive) + m == [server] + ([contentType] + rest);
    }
  }

  // ----- The round trip -----

  /** What a client sees of a response: the reason phrase, the headers in order, the body, and the end once. */
  function ResponseTrace(msg: string, m: seq<Entry>, body: string): Trace {
    [Note(OnMessageBegin), Data(OnStatus, msg)] + HeaderEvents(m) + [Note(OnHeadersComplete)]
    + (if body == "" then [] else [Data(OnBody, body)]) + [Note(OnMessageComplete)]
  }

  predicate IsResponse(version: string, code: nat, msg: string, m: seq<Entry>, body: string, keepAlive: bool) {
    && IsVersion(version) && 100 <= code <= 999 && OneLine(msg) && AreUserEntries(m) && IsSize(|body|)
    && |ResponseText(code, msg, m, body, version, keepAlive)| - |body| <= MAX_HEADER_SIZE
  }

  lemma ResponseSplits(version: string, code: nat, msg: string, m: seq<Entry>, body: string, keepAlive: bool)
    ensures ResponseText(code, msg, m, body, version, keepAlive)
            == StatusLine(version, code, msg) + (Block(AsHeaders(OwnEntries(m, body, keepAlive) + m)) + ("\r\n" + body))
  {
    hide Decimal, OwnEntries, Block, EntriesText;
    EntriesAreBlock(OwnEntries(m, body, keepAlive) + m);
    Reassociate(StatusLine(version, code, msg), EntriesText(OwnEntries(m, body, keepAlive) + m), body);
  }

  lemma Reassociate(a: string, b: string, c: string)
    ensures a + b + "\r\n" + c == a + (b + ("\r\n" + c))
  {
  }

  /** The blank line and the body of a response whose length is known. */
  lemma EndOfResponse(f: Fields, t: Trace, body: string)
    requires Valid(f) && f.errno.OK? && f.state.HeaderFieldStart? && f.nread + 2 <= MAX_HEADER_SIZE
    requires f.contentLength == |body| < ULLONG_MAX && !f.verb.CONNECT?
             && Agree(f.flags, NO_FLAGS.(contentLength := true), false)
    ensures var g := f.(nread := 0, upgrade := false, contentLength := 0);
            var t' := Emit(t, Note(OnHeadersComplete));
            Run(AllZero, Stream(f, t), "\r\n" + body)
              == Complete(AllZero, g, if body == "" then t' else Emit(t', Data(OnBody, body)))
  {
    hide Emit, Run, Valid, Complete;
    SoundBounds(f);
    RunAppend(AllZero, Stream(f, t), "\r\n", body);
    HeadersEnd(AllZero, f, t);
    var t', g := Emit(t, Note(OnHeadersComplete)), f.(nread := 0, upgrade := false);
    if body == "" {
      assert "\r\n" + body == "\r\n";
    } else {
      BodyIsDelivered(AllZero, g.(state := BodyIdentity), t', body);
      IgnoreState(g.(contentLength := 0), Emit(t', Data(OnBody, body)));
    }
  }

  lemma IgnoreState(g: Fields, t: Trace)
    ensures Complete(AllZero, g.(state := BodyIdentity), t) == Complete(AllZero, g, t)
  {
    CompleteIgnoresState(AllZero, g, BodyIdentity, t);
  }

  lemma SizeFits(n: nat)
    requires IsSize(n)
    ensures n < ULLONG_MAX
  {
  }

  lemma AfterStatusIsValid(f: Fields, version: string, code: nat, msg: string, m: seq<Entry>, body: string,
      keepAlive: bool)
    requires f == InitFields(HttpResponse) && IsResponse(version, code, msg, m, body, keepAlive)
    ensures var t := Emit(Emit([], Note(OnMessageBegin)), Data(OnStatus, msg));
            var g := AfterStatusLine(f, version, code, msg);
            && Valid(g) && g.errno.OK? && g.nread + |Block(AsHeaders(OwnEntries(m, body, keepAlive) + m))|
               + 2 <= MAX_HEADER_SIZE
            && Run(AllZero, Stream(f, []), StatusLine(version, code, msg)) == Ready(Stream(g, t))
  {
    hide Run, Valid, Block, OwnEntries, Decimal, Emit, AreUserEntries;
    InitIsValid(HttpResponse);
    ResponseSplits(version, code, msg, m, body, keepAlive);
    StatusLineRun(AllZero, f, [], version, code, msg);
  }

  lemma TraceIsExplicit(msg: string, all: seq<Entry>, body: string)
    ensures var t1 := WithHeaders(Emit(Emit([], Note(OnMessageBegin)), Data(OnStatus, msg)), AsHeaders(all));
            var t2 := Emit(t1, Note(OnHeadersComplete));
            Emit(if body == "" then t2 else Emit(t2, Data(OnBody, body)), Note(OnMessageComplete))
              == ResponseTrace(msg, all, body)
  {
    hide Emit, WithHeaders, HeaderEvents, AsHeaders;
    var t := [Note(OnMessageBegin), Data(OnStatus, msg)];
    StatusIsAdded(msg);
    EntriesAreEvents(t, all);
    BodyIsAdded(t + HeaderEvents(all), body);
  }

  lemma StatusIsAdded(msg: string)
    ensures Emit(Emit([], Note(OnMessageBegin)), Data(OnStatus, msg)) == [Note(OnMessageBegin), Data(OnStatus, msg)]
  {
  }

  lemma BodyIsAdded(t: Trace, body: string)
    ensures var t' := Emit(t, Note(OnHeadersComplete));
            Emit(if body == "" then t' else Emit(t', Data(OnBody, body)), Note(OnMessageComplete)) ==
            t + [Note(OnHeadersComplete)] + (if body == "" then [] else [Data(OnBody, body)])
              + [Note(OnMessageComplete)]
  {
  }

  /**
   Response round trip: a client in response mode recovers version, status, reason phrase, every header
   in the order written, and the body, with one message-complete at the very end; and unless the user has
   set Connection headers too, it expects another response exactly when the server keeps the connection.
   */
  lemma ResponseIsRecovered(version: string, code: nat, msg: string, m: seq<Entry>, body: string, keepAlive: bool)
    requires IsResponse(version, code, msg, m, body, keepAlive)
    ensures var r := Run(AllZero, Stream(InitFields(HttpResponse), []),
            ResponseText(code, msg, m, body, version, keepAlive));
            && r.Ready?
            && r.s.trace == ResponseTrace(msg, OwnEntries(m, body, keepAlive) + m, body)
            && r.s.f.statusCode == code && r.s.f.major == 1 && r.s.f.minor == (if version == "HTTP/1.1" then 1 else 0)
            && (ArePlainEntries(m) ==> (r.s.f.state.StartRes? <==> keepAlive))
    ensures InOrder(m) ==> AreWritten(OwnEntries(m, body, keepAlive) + m, m, body, keepAlive)
  {
    hide Run, Valid, Block, OwnEntries, Decimal, AreWritten, InOrder, Emit, AreUserEntries, ArePlainEntries,
      WithHeaders, ResponseTrace,
      AfterLines, AreHeaders, StatusLine, ResponseText;
    var f, all := InitFields(HttpResponse), OwnEntries(m, body, keepAlive) + m;
    InitIsValid(HttpResponse);
    AfterStatusIsValid(f, version, code, msg, m, body, keepAlive);
    ResponseSplits(version, code, msg, m, body, keepAlive);
    var g, t := AfterStatusLine(f, version, code, msg), Emit(Emit([], Note(OnMessageBegin)), Data(OnStatus, msg));
    RunAppend(AllZero, Stream(f, []), StatusLine(version, code, msg), Block(AsHeaders(all)) + ("\r\n" + body));
    ResponseLines(g, m, body, keepAlive, ArePlainEntries(m));
    SizeFits(|body|);
    BlockRun(AllZero, g, t, AsHeaders(all), "\r\n" + body);
    var g' := AfterLines(g, AsHeaders(all)).value;
    EndOfResponse(g', WithHeaders(t, AsHeaders(all)), body);
    TraceIsExplicit(msg, all, body);
    if InOrder(m) {
      EntriesAreWritten(m, body, keepAlive);
    }
  }

  /** The same for a response that arrives in pieces, cut anywhere. */
  method ReceiveResponse(parts: seq<string>, ghost version: string, ghost code: nat, ghost msg: string,
      ghost m: seq<Entry>,
                         ghost body: string, ghost keepAlive: bool) returns (accepted: bool, parser: HttpParser.Parser)
    requires HttpFeed.AreBuffers(parts) && IsResponse(version, code, msg, m, body, keepAlive)
    requires HttpFeed.Concat(parts) == ResponseText(code, msg, m, body, version, keepAlive)
    ensures accepted && parser.fields.statusCode == code
    ensures parser.Trace() == ResponseTrace(msg, OwnEntries(m, body, keepAlive) + m, body)
    ensures InOrder(m) ==> AreWritten(OwnEntries(m, body, keepAlive) + m, m, body, keepAlive)
  {
    hide Run, Valid, AreWritten, InOrder, ResponseText, ResponseTrace, OwnEntries, IsResponse;
    InitIsValid(HttpResponse);
    ResponseIsRecovered(version, code, msg, m, body, keepAlive);
    parser := new HttpParser.Parser(HttpResponse, AllZero);
    assert parser.After() == Stream(InitFields(HttpResponse), []);
    accepted := HttpFeed.Feed(parser, parts);
  }
}
