/**
 The head of a request, whatever its header lines: where the parser stands after it, what the request
 then holds, and whether headers-complete lets it pass.
 */
module RequestHeads {
  import opened Options
  import opened Traces
  import opened HttpTypes
  import opened HttpVisit
  import opened HttpRun
  import opened HttpNames
  import opened StringUtils
  import opened HttpHeaders
  import opened HttpLines
  import opened HttpMessages
  import opened HttpRequestLine
  import opened Responses
  import opened RequestState
  import opened RequestTheorems
  import opened Requests
  import ResponseRoundTrip
  import HttpFeed

  /** A request line of HTTP/1.0 or HTTP/1.1 and header lines. */
  datatype Head = Head(verb: Method, url: string, minor: char, lines: seq<Header>)

  function HeadText(h: Head): string {
    RequestLine(h.verb, h.url, '1', h.minor) + Block(h.lines)
  }

  /** The fields where the header lines begin. */
  function AtLines(h: Head): Fields
    requires IsNum(h.minor)
  {
    AfterRequestLine(InitFields(HttpRequest), h.verb, h.url, '1', h.minor)
  }

  /** A line and headers that the parser takes. */
  predicate IsHead(h: Head) {
    && IsNum(h.minor) && IsTarget(h.url, h.verb.CONNECT?) && AreHeaders(h.lines) && |HeadText(h)| + 2 <= MAX_HEADER_SIZE
    && BlockIsFine(h.lines, false)
  }

  lemma MinorIsDigit(h: Head)
    requires IsHead(h)
    ensures IsNum(h.minor)
  {
  }

  /** The head of an upgrade, or of a tunnel. */
  ghost predicate IsUpgrade(h: Head) {
    h.verb.CONNECT? || (AskForUpgrade(h.lines) && ListsToken(h.lines, "upgrade"))
  }

  /** The fields where the headers end. */
  function AtEnd(h: Head): Fields
    requires IsHead(h)
  {
    HeadIsTaken(h);
    AfterLines(AtLines(h), h.lines).value
  }

  lemma HeadIsTaken(h: Head)
    requires IsHead(h)
    ensures AfterLines(AtLines(h), h.lines).Some?
  {
    hide RequestLine, MethodName, IsTarget, AreHeaders, HeadText, BlockIsFine, AfterLines;
    StartOfLines(h);
    BlockIsExact(AtLines(h), h.lines);
  }

  /** Flags and length where the headers end, read off the lines. */
  lemma EndOfHead(h: Head)
    requires IsHead(h)
    ensures forall x <- h.lines :: LineIsFine(x.name, x.value)
    ensures var g := AtEnd(h);
            && g.flags == BlockFlags(NO_FLAGS, h.lines) && g.contentLength == BlockLength(ULLONG_MAX, h.lines)
            && (Upgrades(g) <==> IsUpgrade(h))
  {
    hide RequestLine, IsTarget, AreHeaders, HeadText, BlockIsFine, AfterLines, AtLines, Run, Valid, HeadTrace,
      ListsToken, AskForUpgrade;
    StartOfLines(h);
    HeadIsTaken(h);
    FineLines(h.lines, false);
    BlockIsExact(AtLines(h), h.lines);
    HeadRun(AllZero, h, "\r\n");
  }

  function LineFor(h: Head): Line
    requires IsNum(h.minor)
  {
    Line(h.verb, 1, Digit(h.minor))
  }

  function HeadTrace(h: Head): Trace {
    WithHeaders([Note(OnMessageBegin), Data(OnUrl, h.url)], h.lines)
  }

  lemma LineIsRead(cfg: Settings, h: Head)
    requires IsHead(h)
    ensures var s, g := Stream(InitFields(HttpRequest), []), AtLines(h);
            && Valid(s.f) && Valid(g) && g.errno.OK? && g.nread + |Block(h.lines)| + 2 <= MAX_HEADER_SIZE
            && Run(cfg, s, RequestLine(h.verb, h.url, '1', h.minor))
               == Ready(Stream(g, [Note(OnMessageBegin), Data(OnUrl, h.url)]))
  {
    hide Run, Valid, RequestLine, Block, Digit, IsNum, AreHeaders, AfterLines, Phase, MethodName;
    StartIsRight();
    assert IsUrlText(h.url) && IsNum('1') by {
      TargetIsText(h);
    }
    RequestLineIsRecovered(cfg, InitFields(HttpRequest), [], h.verb, h.url, '1', h.minor);
    assert Emit(Emit([], Note(OnMessageBegin)), Data(OnUrl, h.url)) == [Note(OnMessageBegin), Data(OnUrl, h.url)];
  }

  lemma TargetIsText(h: Head)
    requires IsTarget(h.url, h.verb.CONNECT?)
    ensures IsUrlText(h.url) && IsNum('1')
  {
  }

  lemma StartOfLines(h: Head)
    requires IsNum(h.minor)
    ensures LineOf(AtLines(h)) == LineFor(h) && AtLines(h).flags == NO_FLAGS && AtLines(h).state.HeaderFieldStart?
    ensures AtLines(h).contentLength == ULLONG_MAX && !AtLines(h).upgrade && AtLines(h).ptype.HttpRequest?
  {
    hide MethodName, RequestLine;
  }

  /** The head, followed by any text that folds no line. */
  lemma HeadRun(cfg: Settings, h: Head, rest: string)
    requires IsHead(h) && rest != "" && !IsBlank(rest[0])
    ensures var s, g := Stream(InitFields(HttpRequest), []), AtEnd(h);
            && Valid(s.f) && Valid(g) && g.errno.OK? && g.state.HeaderFieldStart? && g.nread + 2 <= MAX_HEADER_SIZE
            && LineOf(g) == LineFor(h) && !g.flags.trailing && !g.flags.skipBody && !g.upgrade && g.ptype.HttpRequest?
            && Run(cfg, s, HeadText(h) + rest) == Run(cfg, Stream(g, HeadTrace(h)), rest)
  {
    hide Run, Valid, RequestLine, Block, AfterLines, AreHeaders, IsTarget, WithHeaders, AtLines;
    LineIsRead(cfg, h);
    StartOfLines(h);
    HeadIsTaken(h);
    var line, t := RequestLine(h.verb, h.url, '1', h.minor), [Note(OnMessageBegin), Data(OnUrl, h.url)];
    RunAppend(cfg, Stream(InitFields(HttpRequest), []), line, Block(h.lines) + rest);
    assert line + (Block(h.lines) + rest) == HeadText(h) + rest;
    BlockRun(cfg, AtLines(h), t, h.lines, rest);
  }

  // ----- What the header callbacks leave behind -----

  function Names(m: seq<Entry>): seq<string> {
    seq(|m|, i requires 0 <= i < |m| => m[i].0)
  }

  function Values(m: seq<Entry>): seq<string> {
    seq(|m|, i requires 0 <= i < |m| => m[i].1)
  }

  lemma {:induction false} EventsSnoc(m: seq<Entry>, e: Entry)
    ensures ResponseRoundTrip.HeaderEvents(m + [e])
            == ResponseRoundTrip.HeaderEvents(m) + [Data(OnHeaderField, e.0), Data(OnHeaderValue, e.1)]
    decreases |m|
  {
    if m == [] {
      assert [e][1..] == [] && m + [e] == [e];
    } else {
      EventsSnoc(m[1..], e);
      assert (m + [e])[1..] == m[1..] + [e] && (m + [e])[0] == m[0];
    }
  }

  /** The request once its header lines have been read. */
  function WithFields(q: Req, l: Line, m: seq<Entry>): Req {
    if m == [] then q
    else q.(verb := MethodName(l.verb), version := VersionOf(l, q.version), part := PARSE_REQ_HEAD,
         fields := q.fields + Names(m), values := q.values + Values(m))
  }

  lemma {:induction false} FieldsAreCollected(q: Req, l: Line, m: seq<Entry>)
    requires q.part == PARSE_REQ_LINE && q.lastWasValue
    ensures Fold(q, l, ResponseRoundTrip.HeaderEvents(m), true) == WithFields(q, l, m)
    decreases |m|
  {
    hide Handle, MethodName, VersionOf;
    if m != [] {
      var front, e := m[..|m| - 1], m[|m| - 1];
      assert m == front + [e];
      FieldsAreCollected(q, l, front);
      EventsSnoc(front, e);
      var events := ResponseRoundTrip.HeaderEvents(front);
      assert events + [Data(OnHeaderField, e.0), Data(OnHeaderValue, e.1)]
             == (events + [Data(OnHeaderField, e.0)]) + [Data(OnHeaderValue, e.1)];
      FoldOne(q, l, events, Data(OnHeaderField, e.0), true);
      FoldOne(q, l, events + [Data(OnHeaderField, e.0)], Data(OnHeaderValue, e.1), true);
      OneMore(q, l, front, e);
    }
  }

  lemma OneMore(q: Req, l: Line, m: seq<Entry>, e: Entry)
    requires q.part == PARSE_REQ_LINE && q.lastWasValue
    ensures Handle(Handle(WithFields(q, l, m), l, Data(OnHeaderField, e.0), true).0, l, Data(OnHeaderValue, e.1),
            true).0 == WithFields(q, l, m + [e])
  {
    hide MethodName;
    assert Names(m + [e]) == Names(m) + [e.0] && Values(m + [e]) == Values(m) + [e.1];
    assert q.fields + Names(m) + [e.0] == q.fields + (Names(m) + [e.0]);
    assert q.values + Values(m) + [e.1] == q.values + (Values(m) + [e.1]);
    assert q.fields + [e.0] == q.fields + Names([e]) && q.values + [e.1] == q.values + Values([e]);
    assert m == [] ==> m + [e] == [e];
  }

  /** The header map of a list of lines: the last line of a name counts. */
  function HeaderMap(m: seq<Entry>): map<string, string> {
    HeadersOf(map[], Names(m), Values(m), |m|)
  }

  lemma {:induction false} LastLineCounts(m: seq<Entry>, n: nat, i: nat)
    requires i < n <= |m| && forall j | i < j < n :: Folded(m[j].0) != Folded(m[i].0)
    ensures var h := HeadersOf(map[], Names(m), Values(m), n); Folded(m[i].0) in h && h[Folded(m[i].0)] == m[i].1
    decreases n
  {
    hide Folded;
    if i < n - 1 {
      LastLineCounts(m, n - 1, i);
    }
  }

  // ----- What the request holds -----

  function EntriesOf(hs: seq<Header>): seq<Entry> {
    seq(|hs|, i requires 0 <= i < |hs| => (hs[i].name, hs[i].value))
  }

  lemma {:induction false} BlanksDoNotShow(t: Trace, hs: seq<Header>)
    ensures WithHeaders(t, hs) == WithHeaders(t, ResponseRoundTrip.AsHeaders(EntriesOf(hs)))
    decreases |hs|
  {
    hide WithHeader;
    if hs != [] {
      var es := ResponseRoundTrip.AsHeaders(EntriesOf(hs));
      BlanksDoNotShow(WithHeader(t, hs[0].name, hs[0].value), hs[1..]);
      assert es[1..] == ResponseRoundTrip.AsHeaders(EntriesOf(hs[1..]))
             && es[0] == Header(hs[0].name, " ", hs[0].value);
    }
  }

  lemma HeadIsFolded(h: Head)
    requires IsNum(h.minor)
    ensures Fold(NewReq, LineFor(h), HeadTrace(h), true)
            == WithFields(NewReq.(url := h.url), LineFor(h), EntriesOf(h.lines))
  {
    hide ResponseRoundTrip.HeaderEvents, WithFields, Fold, EntriesOf, WithHeaders, Handle;
    var l, begin, m := LineFor(h), [Note(OnMessageBegin), Data(OnUrl, h.url)], EntriesOf(h.lines);
    BlanksDoNotShow(begin, h.lines);
    ResponseRoundTrip.EntriesAreEvents(begin, m);
    FoldAppend(NewReq, l, begin, ResponseRoundTrip.HeaderEvents(m), true);
    BeginIsFolded(l, h.url);
    FieldsAreCollected(NewReq.(url := h.url), l, m);
  }

  lemma BeginIsFolded(l: Line, url: string)
    ensures Fold(NewReq, l, [Note(OnMessageBegin), Data(OnUrl, url)], true) == NewReq.(url := url)
  {
    hide Fold;
    assert [Note(OnMessageBegin), Data(OnUrl, url)] == ([] + [Note(OnMessageBegin)]) + [Data(OnUrl, url)];
    FoldNothing(l);
    FoldOne(NewReq, l, [], Note(OnMessageBegin), true);
    FoldOne(NewReq, l, [] + [Note(OnMessageBegin)], Data(OnUrl, url), true);
    assert "" + url == url;
  }

  /** The value of the last line of a name, but for case; empty if there is none. */
  function LastValue(m: seq<Entry>, name: string): string {
    if m == [] then ""
    else if Folded(m[|m| - 1].0) == name then m[|m| - 1].1
    else LastValue(m[..|m| - 1], name)
  }

  lemma {:induction false} LastValueIsMapped(m: seq<Entry>, name: string, n: nat)
    requires n <= |m|
    ensures GetHeader(HeadersOf(map[], Names(m), Values(m), n), name).1 == LastValue(m[..n], name)
    decreases n
  {
    hide Folded;
    if n > 0 {
      LastValueIsMapped(m, name, n - 1);
      assert m[..n][..n - 1] == m[..n - 1];
    }
  }

  /** The header map has exactly the names of the lines, in lower case. */
  lemma {:induction false} MappedNames(m: seq<Entry>, name: string, n: nat)
    requires n <= |m|
    ensures name in HeadersOf(map[], Names(m), Values(m), n) <==> exists i | 0 <= i < n :: Folded(m[i].0) == name
    decreases n
  {
    hide Folded;
    if n > 0 {
      MappedNames(m, name, n - 1);
    }
  }

  /**
   The map of the lines, where `content-type` has been looked up: the names of the lines in lower case and
   that one, each with the value of its last line, or none.
   */
  ghost predicate IsMapOf(headers: map<string, string>, m: seq<Entry>) {
    forall name ::
      && (name in headers <==> name == "content-type" || exists i | 0 <= i < |m| :: Folded(m[i].0) == name)
      && (name in headers ==> headers[name] == LastValue(m, name))
  }

  lemma MapIsExact(m: seq<Entry>)
    ensures IsMapOf(GetHeader(HeaderMap(m), "content-type").0, m)
    ensures GetHeader(HeaderMap(m), "content-type").1 == LastValue(m, "content-type")
  {
    hide Folded, HeadersOf, LastValue;
    forall name ensures GetHeader(HeaderMap(m), name).1 == LastValue(m, name)
      ensures name in HeaderMap(m) <==> exists i | 0 <= i < |m| :: Folded(m[i].0) == name
    {
      LastValueIsMapped(m, name, |m|);
      MappedNames(m, name, |m|);
      assert m[..|m|] == m;
    }
  }

  /** Headers-complete does not object: to a POST with header lines, only if the last Content-Length says something. */
  predicate Passes(h: Head) {
    h.lines == [] || !h.verb.POST? || LastValue(EntriesOf(h.lines), "content-length") != ""
  }

  lemma PostIsPost(m: Method)
    ensures MethodName(m) == "POST" <==> m.POST?
  {
  }

  /** The request when its headers are complete. */
  function AtHeaders(h: Head): Req
    requires IsNum(h.minor)
  {
    var m := EntriesOf(h.lines);
    WithFields(NewReq.(url := h.url), LineFor(h), m).(
      part := PARSE_REQ_HEAD_OVER, fields := LoweredFirst(Names(m), |m|), headers := HeaderMap(m))
  }

  lemma HeadersAnswer(h: Head)
    requires IsNum(h.minor)
    ensures var t, l := Emit(HeadTrace(h), Note(OnHeadersComplete)), LineFor(h);
            && Answer(l, t, true) == (if Passes(h) then 0 else -1)
            && (Passes(h) ==> Fold(NewReq, l, t, true) == AtHeaders(h))
  {
    hide Fold, HeadTrace, HeadersCompleted, WithFields, EntriesOf;
    var t, l := HeadTrace(h), LineFor(h);
    var t' := t + [Note(OnHeadersComplete)];
    assert Emit(t, Note(OnHeadersComplete)) == t' && t'[..|t' | - 1] == t;
    HeadIsFolded(h);
    FoldOne(NewReq, l, t, Note(OnHeadersComplete), true);
    HeadersAreCompleted(h);
  }

  lemma HeadersAreCompleted(h: Head)
    requires IsNum(h.minor)
    ensures var (q, answer) := HeadersCompleted(WithFields(NewReq.(url := h.url), LineFor(h), EntriesOf(h.lines)),
            true);
            && answer == (if Passes(h) then 0 else -1)
            && (Passes(h) ==> q == AtHeaders(h))
  {
    hide MethodName, HeadersOf, LoweredFirst, LastValue, Folded;
    var m := EntriesOf(h.lines);
    PostIsPost(h.verb);
    LastValueIsMapped(m, "content-length", |m|);
    assert m[..|m|] == m && [] + Names(m) == Names(m)
           && [] + Values(m) == Values(m);
  }

  // ----- The blank line -----

  lemma BothLengthsVisit(cfg: Settings, f: Fields, t: Trace)
    requires Inside(f) && f.errno.OK? && f.state.HeadersAlmostDone? && !f.flags.trailing && f.flags.chunked
             && f.flags.contentLength
    ensures Visits(cfg, Stream(f, t), '\n', None) == Failed
  {
    hide Emit, Sound, VisitState, Kept;
    VisitKeeps(f, '\n');
    Dispatch(f, '\n');
  }

  /**
   The blank line behind the headers: the request goes on to its body exactly if it has not both codings
   of length, and headers-complete lets it pass.
   */
  lemma HeadersPassExactly(h: Head)
    requires IsHead(h) && !IsUpgrade(h)
    ensures Valid(AtEnd(h))
    ensures var g, t := AtEnd(h), Emit(HeadTrace(h), Note(OnHeadersComplete));
            Run(SettingsOf(true), Stream(g, HeadTrace(h)), "\r\n") ==
            if (AskForChunks(h.lines) && GiveLength(h.lines)) || !Passes(h) then Failed
            else HeadersEnded(SettingsOf(true), g, t)
  {
    hide Emit, Run, Valid, Inside, Visits, HeadersEnded, IsTarget, AfterLines, HeadTrace, Passes, Answer, HeadText,
      AtLines, Upgrades, IsHead, AtEnd, IsUpgrade, AskForChunks, GiveLength, ListsToken, AskForUpgrade, IsHead;
    var cfg, g, t := SettingsOf(true), AtEnd(h), HeadTrace(h);
    HeadRun(cfg, h, "\r\n");
    EndOfHead(h);
    MinorIsDigit(h);
    HeadersAnswer(h);
    if !(g.flags.chunked && g.flags.contentLength) && Passes(h) {
      HeadersEnd(cfg, g, t);
    } else {
      BlankLineRun(cfg, g, t);
      var g' := g.(state := HeadersAlmostDone, nread := g.nread + 2);
      if g.flags.chunked && g.flags.contentLength {
        BothLengthsVisit(cfg, g', t);
      } else {
        HeadersAlmostDoneVisit(cfg, g', t);
      }
    }
  }

  lemma {:induction false} LastIsALine(hs: seq<Header>, name: string)
    requires LastValue(EntriesOf(hs), name) != ""
    ensures exists x <- hs :: Folded(x.name) == name
  {
    hide Folded;
    var m := EntriesOf(hs);
    if Folded(hs[|hs| - 1].name) != name {
      assert m[..|m| - 1] == EntriesOf(hs[..|hs| - 1]);
      LastIsALine(hs[..|hs| - 1], name);
    }
  }

  /** So a POST is refused that has header lines and no length, and every POST with a chunked body. */
  lemma PostIsRefused(h: Head)
    requires IsHead(h) && h.verb.POST? && h.lines != [] && !IsUpgrade(h)
    requires !GiveLength(h.lines) || AskForChunks(h.lines)
    ensures Valid(AtEnd(h)) && Run(SettingsOf(true), Stream(AtEnd(h), HeadTrace(h)), "\r\n") == Failed
  {
    hide Run, Valid, HeadersEnded, HeadTrace, LastValue, Folded, IsHead, AtEnd, EntriesOf, IsUpgrade, AskForChunks;
    HeadersPassExactly(h);
    if LastValue(EntriesOf(h.lines), "content-length") != "" {
      LastIsALine(h.lines, "content-length");
    }
  }

  // ----- The message as the server sees it -----

  /** The text has been taken, and the message is not complete. */
  predicate Waiting(x: string) {
    ReadAll(x).Ready? && Completions(ReadAll(x).s.trace) == 0
  }

  /** A beginning of something unfinished is unfinished. */
  lemma BeginningIsUnfinished(x: string, k: nat)
    requires k <= |x| && Waiting(x)
    ensures Unfinished(x[..k])
  {
    hide Run, Valid, Completions, Phase;
    StartIsRight();
    var s := Stream(InitFields(HttpRequest), []);
    assert x == x[..k] + x[k..];
    RunAppend(SettingsOf(true), s, x[..k], x[k..]);
    if ReadAll(x[..k]).Ready? {
      CompletionsGrow(SettingsOf(true), ReadAll(x[..k]).s, x[k..]);
    }
  }

  lemma {:induction false} HeadersComplete(t: Trace, hs: seq<Header>)
    requires Completions(t) == 0
    ensures Completions(WithHeaders(t, hs)) == 0
    decreases |hs|
  {
    hide Emit, Completions;
    if hs != [] {
      EmitCounts(t, Data(OnHeaderField, hs[0].name));
      EmitCounts(Emit(t, Data(OnHeaderField, hs[0].name)), Data(OnHeaderValue, hs[0].value));
      HeadersComplete(WithHeader(t, hs[0].name, hs[0].value), hs[1..]);
    }
  }

  /** Before the last byte of the head the message is not complete. */
  lemma HeadWaits(h: Head)
    requires IsHead(h)
    ensures Waiting(HeadText(h) + "\r")
  {
    hide Run, Valid, HeadTrace, HeadText, AtLines, Step, Completions, Phase, IsHead, AtEnd;
    HeadRun(SettingsOf(true), h, "\r");
    BlankLineReturn(SettingsOf(true), AtEnd(h), HeadTrace(h));
    RunOne(SettingsOf(true), Stream(AtEnd(h), HeadTrace(h)), '\r');
    assert "\r" == ['\r'];
    HeadCompletesNothing(h);
    StartIsRight();
  }

  lemma HeadCompletesNothing(h: Head)
    ensures Completions(HeadTrace(h)) == 0
  {
    hide WithHeaders;
    assert [Note(OnMessageBegin), Data(OnUrl, h.url)][..1] == [Note(OnMessageBegin)]
           && [Note(OnMessageBegin)][..0] == [];
    HeadersComplete([Note(OnMessageBegin), Data(OnUrl, h.url)], h.lines);
  }

  /** A request that is refused at its blank line, whatever comes after it. */
  lemma RefusedAtBlankLine(h: Head, body: string)
    requires IsHead(h) && Valid(AtEnd(h)) && Run(SettingsOf(true), Stream(AtEnd(h), HeadTrace(h)), "\r\n") == Failed
    ensures ReadAll(HeadText(h) + ("\r\n" + body)).Failed? && OneMessage(HeadText(h) + ("\r\n" + body))
  {
    hide Run, Valid, HeadTrace, HeadText, AtLines, Step, Completions, Phase, IsHead, AtEnd, Waiting;
    var x := HeadText(h) + ("\r\n" + body);
    HeadRun(SettingsOf(true), h, "\r\n" + body);
    RunAppend(SettingsOf(true), Stream(AtEnd(h), HeadTrace(h)), "\r\n", body);
    HeadWaits(h);
    StartIsRight();
    var n := |HeadText(h)| + 2;
    forall k | 0 <= k < |x| ensures Unfinished(x[..k]) {
      if k < n {
        assert (HeadText(h) + "\r")[..k] == x[..k];
        BeginningIsUnfinished(HeadText(h) + "\r", k);
      } else {
        var more := body[..k - n];
        assert x[..k] == HeadText(h) + ("\r\n" + more);
        HeadRun(SettingsOf(true), h, "\r\n" + more);
        RunAppend(SettingsOf(true), Stream(AtEnd(h), HeadTrace(h)), "\r\n", more);
      }
    }
  }

  /** Such a POST, cut anywhere and with any text behind its head, makes `parse_request` return -1. */
  method ReceivePostWithoutLength(parts: seq<string>, ghost h: Head, ghost body: string) returns (ret: int)
    requires IsHead(h) && h.verb.POST? && h.lines != [] && !IsUpgrade(h)
    requires !GiveLength(h.lines) || AskForChunks(h.lines)
    requires HttpFeed.AreBuffers(parts) && parts != [] && HttpFeed.Concat(parts) == HeadText(h) + ("\r\n" + body)
    requires |HttpFeed.Concat(parts)| <= MAX_REQ_SIZE
    ensures ret == -1
  {
    hide ReadAll, OneMessage, IsHead, HeadText, HeadTrace, IsUpgrade, AtEnd;
    PostIsRefused(h);
    RefusedAtBlankLine(h, body);
    var request;
    ret, request := ReceiveRequest(parts);
  }

  const SHORT_POST := "POST / HTTP/1.1\r\nA: b\r\n\r\n"
  const ShortHead := Head(POST, "/", '1', [Header("A", " ", "b")])

  lemma ShortPostText()
    ensures HeadText(ShortHead) + ("\r\n" + "") == SHORT_POST
  {
    var line := HeaderLine("A", " ", "b");
    assert line == "A: b\r\n";
    assert ShortHead.lines[1..] == [];
    assert Block(ShortHead.lines) == line + "";
    assert RequestLine(POST, "/", '1', '1') == "POST / HTTP/1.1\r\n";
  }

  lemma ShortPostIsHead()
    ensures IsHead(ShortHead) && !IsUpgrade(ShortHead) && !GiveLength(ShortHead.lines)
  {
    ShortPostText();
    NameOfShort();
    assert ShortHead.lines[1..] == [];
  }

  lemma NameOfShort()
    ensures IsToken("A") && Folded("A") == "a"
  {
    FoldedIs("A", "a");
  }

  /** For example `POST / HTTP/1.1` with the one header `A: b`: the result is -1. */
  method ReceiveShortPost() returns (ret: int)
    ensures ret == -1
  {
    hide IsHead, HeadText, IsUpgrade, GiveLength;
    ShortPostText();
    ShortPostIsHead();
    assert [SHORT_POST][..0] == [] && "" + SHORT_POST == SHORT_POST;
    ret := ReceivePostWithoutLength([SHORT_POST], ShortHead, "");
  }
}
