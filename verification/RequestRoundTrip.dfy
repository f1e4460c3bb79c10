/** A request as a client writes it, and the request object that the server makes of it. */
module RequestRoundTrip {
  import opened Options
  import opened Traces
  import opened HttpTypes
  import opened HttpVisit
  import opened HttpRun
  import opened HttpNames
  import opened StringUtils
  import opened HttpValues
  import opened HttpLines
  import opened HttpBodies
  import opened HttpMessages
  import opened HttpRequestLine
  import opened Responses
  import opened ResponseRoundTrip
  import opened RequestState
  import opened RequestTheorems
  import opened Requests
  import opened RequestHeads
  import opened HttpRecognisers
  import FormData
  import HttpFeed

  // ----- The printed request -----

  datatype Message = Message(verb: Method, url: string, minor: char, headers: seq<Entry>, body: string)

  /** All header lines: the client gives the length first. */
  function AllHeaders(r: Message): seq<Entry> {
    [("Content-Length", Decimal(|r.body|))] + r.headers
  }

  function HeadOf(r: Message): Head {
    Head(r.verb, r.url, r.minor, AsHeaders(AllHeaders(r)))
  }

  function RequestText(r: Message): string {
    HeadText(HeadOf(r)) + ("\r\n" + r.body)
  }

  /** The content type that the client gives, if any. */
  function TypeOf(r: Message): string {
    LastValue(r.headers, "content-type")
  }

  /** The form in the body, if the content type names forms; none if it cannot be read. */
  ghost function BodyForm(r: Message): Option<FormData.Form> {
    FormIn(TypeOf(r), r.body)
  }

  predicate IsMessage(r: Message) {
    && !r.verb.CONNECT? && IsTarget(r.url, false) && (r.minor == '0' || r.minor == '1')
    && AreUserEntries(r.headers) && IsSize(|r.body|)
    && |HeadText(HeadOf(r))| + 2 <= MAX_HEADER_SIZE && |RequestText(r)| <= MAX_REQ_SIZE
  }

  /** The request that the server holds in the end. */
  ghost function FinalRequest(r: Message): Req
    requires IsNum(r.minor)
  {
    AtHeaders(HeadOf(r)).(raw := r.body, part := PARSE_REQ_OVER,
      parseErr := if BodyForm(r).Some? then 0 else PARSE_MULTIPART_ERR,
      headers := GetHeader(HeaderMap(AllHeaders(r)), "content-type").0)
  }

  /** The callbacks but the last one. */
  function BodyTrace(r: Message): Trace {
    var t := HeadTrace(HeadOf(r)) + [Note(OnHeadersComplete)];
    if r.body == "" then t else t + [Data(OnBody, r.body)]
  }

  lemma EntriesAreAll(r: Message)
    ensures EntriesOf(HeadOf(r).lines) == AllHeaders(r)
  {
  }

  /** The client gives the length, so headers-complete lets it pass. */
  lemma MessagePasses(r: Message)
    requires AreUserEntries(r.headers)
    ensures Passes(HeadOf(r))
  {
    hide Folded, Decimal, IsToken, IsPlainValue;
    var m := AllHeaders(r);
    EntriesAreAll(r);
    LengthName();
    DecimalIsText(|r.body|);
    forall j | 0 < j < |m| ensures Folded(m[j].0) != "content-length" {
      assert m[j] in r.headers;
    }
    FirstCounts(m, "content-length");
  }

  /** A name that only the first line has. */
  lemma {:induction false} FirstCounts(m: seq<Entry>, name: string)
    requires m != [] && Folded(m[0].0) == name && forall j | 0 < j < |m| :: Folded(m[j].0) != name
    ensures LastValue(m, name) == m[0].1
  {
    hide Folded;
    if |m| > 1 {
      FirstCounts(m[..|m| - 1], name);
    }
  }

  lemma DecimalIsText(n: nat)
    ensures Decimal(n) != ""
  {
  }

  /** The answer at the end, and the request then. */
  lemma FinalAnswer(r: Message)
    requires IsMessage(r)
    ensures var t, l := BodyTrace(r) + [Note(OnMessageComplete)], LineFor(HeadOf(r));
            && Answer(l, t, true) == (if BodyForm(r).Some? then 0 else -1)
            && Fold(NewReq, l, t, true) == FinalRequest(r)
  {
    hide Fold, HeadersOf, MethodName, Decimal, HeadTrace, LoweredFirst, AreUserEntries, MultipartForm, IsMultipart,
      IsTarget, Passes, HeadText, VersionOf, NamesForms, LastValue, HeaderMap;
    var l, t0, t := LineFor(HeadOf(r)), HeadTrace(HeadOf(r)) + [Note(OnHeadersComplete)], BodyTrace(r);
    assert (t + [Note(OnMessageComplete)])[..|t|] == t;
    assert Emit(HeadTrace(HeadOf(r)), Note(OnHeadersComplete)) == t0;
    EntriesAreAll(r);
    MessagePasses(r);
    HeadersAnswer(HeadOf(r));
    FoldOne(NewReq, l, t0, Data(OnBody, r.body), true);
    FoldOne(NewReq, l, t, Note(OnMessageComplete), true);
    assert "" + r.body == r.body;
    TypeIsFound(r);
  }

  /** The type that is looked up at the end is the one that the client gives. */
  lemma TypeIsFound(r: Message)
    ensures GetHeader(HeaderMap(AllHeaders(r)), "content-type").1 == TypeOf(r)
    ensures IsMultipart(TypeOf(r)) <==> NamesForms(TypeOf(r))
  {
    hide HeadersOf, Decimal, IsMultipart, NamesForms;
    MapIsExact(AllHeaders(r));
    LengthName();
    OtherFirst(AllHeaders(r)[0], r.headers, "content-type");
    MultipartIsNamed(TypeOf(r));
  }

  lemma {:induction false} OtherFirst(e: Entry, m: seq<Entry>, name: string)
    requires Folded(e.0) != name
    ensures LastValue([e] + m, name) == LastValue(m, name)
    decreases |m|
  {
    hide Folded;
    if m != [] {
      assert ([e] + m)[..|m|] == [e] + m[..|m| - 1];
      OtherFirst(e, m[..|m| - 1], name);
    } else {
      assert ([e] + m)[..0] == [];
    }
  }

  // ----- Reading it -----

  /** Length and flags after the header lines. */
  lemma LinesAreRead(r: Message, f: Fields)
    requires AreUserEntries(r.headers) && IsSize(|r.body|) && f.flags == NO_FLAGS
    ensures LinesSet(f, AllHeaders(r), |r.body|, NO_FLAGS.(contentLength := true), false)
  {
    hide AreUserEntries, ArePlainEntries, LinesSet, AfterLine, IsHeaderLine, Folded, IsToken, Decimal, IsLength, IsSize;
    var e := ("Content-Length", Decimal(|r.body|));
    LengthName();
    DecimalIsNumeral(|r.body|);
    LengthLine(f, e.0, e.1);
    var g := AfterLine(f, e.0, " ", e.1).value;
    UserLines(g, r.headers, false);
    ConsLine(f, e, r.headers, |r.body|, NO_FLAGS.(contentLength := true), true, |r.body|,
      NO_FLAGS.(contentLength := true), false);
  }

  /** The client leaves the connection open for another request. */
  ghost predicate StaysOpen(r: Message) {
    var lines := HeadOf(r).lines;
    if r.minor == '1' then !ListsToken(lines, "close") else ListsToken(lines, "keep-alive")
  }

  /** The parser knows that. */
  ghost predicate SaysNext(r: Message, g: Fields) {
    NewMessage(g) == (if StaysOpen(r) then StartReq else Dead) && g.ptype.HttpRequest?
  }

  lemma NextIsSaid(r: Message, g: Fields)
    requires IsNum(r.minor) && (r.minor == '0' || r.minor == '1') && LineOf(g) == LineFor(HeadOf(r))
             && g.ptype.HttpRequest?
    requires g.flags == BlockFlags(NO_FLAGS, HeadOf(r).lines)
    ensures SaysNext(r, g)
  {
    hide ListsToken, AskForChunks, AskForUpgrade, GiveLength;
  }

  lemma SaidOn(r: Message, g: Fields, h: Fields)
    requires SaysNext(r, g) && h.flags == g.flags && h.ptype == g.ptype && h.major == g.major && h.minor == g.minor
    ensures SaysNext(r, h)
  {
    hide StaysOpen;
  }

  lemma MessageHasHead(r: Message)
    requires IsMessage(r)
    ensures IsHead(HeadOf(r)) && !IsUpgrade(HeadOf(r)) && !AskForChunks(HeadOf(r).lines)
    ensures var g := AtEnd(HeadOf(r));
            && g.contentLength == |r.body| && Agree(g.flags, NO_FLAGS.(contentLength := true), false)
            && LineOf(g) == LineFor(HeadOf(r)) && !Upgrades(g) && SaysNext(r, g)
  {
    hide AreUserEntries, IsSize, HeadText, AllHeaders, AfterLines, AreHeaders, RequestText, Run, Valid,
      HeadTrace, IsTarget, AtLines, BlockIsFine, AskForChunks, AskForUpgrade, GiveLength, ListsToken, IsUpgrade,
        SaysNext;
    StartOfLines(HeadOf(r));
    LinesAreRead(r, AtLines(HeadOf(r)));
    BlockIsExact(AtLines(HeadOf(r)), HeadOf(r).lines);
    HeadRun(AllZero, HeadOf(r), "\r\n");
    EndOfHead(HeadOf(r));
    NoUpgrade(r, AtEnd(HeadOf(r)));
    NextIsSaid(r, AtEnd(HeadOf(r)));
  }

  /** Nothing about an upgrade, nothing left over from another message. */
  lemma NoUpgrade(r: Message, g: Fields)
    requires Agree(g.flags, NO_FLAGS.(contentLength := true), false) && g.verb == r.verb && !r.verb.CONNECT?
    ensures !Upgrades(g) && !g.flags.trailing && !g.flags.skipBody && !g.flags.chunked
  {
  }

  /** The blank line. */
  lemma BlankLineIsRead(r: Message)
    requires IsMessage(r)
    ensures IsHead(HeadOf(r)) && Valid(AtEnd(HeadOf(r)))
    ensures var g, t := AtEnd(HeadOf(r)).(nread := 0, upgrade := false),
            HeadTrace(HeadOf(r)) + [Note(OnHeadersComplete)];
            Run(SettingsOf(true), Stream(AtEnd(HeadOf(r)), HeadTrace(HeadOf(r))), "\r\n") ==
            if r.body == "" then Complete(SettingsOf(true), g, t) else Ready(Stream(g.(state := BodyIdentity), t))
  {
    hide Run, Valid, HeadTrace, IsTarget, RequestText, Complete, AreUserEntries, Upgrades, Passes,
      HeadText, AfterLines, AreHeaders, AtLines, IsHead, AtEnd, IsUpgrade, AskForChunks, GiveLength;
    var t := HeadTrace(HeadOf(r));
    assert Emit(t, Note(OnHeadersComplete)) == t + [Note(OnHeadersComplete)];
    MessageHasHead(r);
    MessagePasses(r);
    SizeFits(|r.body|);
    HeadersPassExactly(HeadOf(r));
  }

  /** The end of the message. */
  lemma MessageEnds(r: Message, g: Fields)
    requires IsMessage(r) && LineOf(g) == LineFor(HeadOf(r)) && !g.upgrade && SaysNext(r, g)
    ensures IsComplete(r, Complete(SettingsOf(true), g, BodyTrace(r)))
  {
    hide BodyTrace, IsTarget, BodyForm, RequestText, Answer, AreUserEntries, NewMessage, HeadText, StaysOpen;
    FinalAnswer(r);
    assert Emit(BodyTrace(r), Note(OnMessageComplete)) == BodyTrace(r) + [Note(OnMessageComplete)];
  }

  /** Result, trace and state are those of the complete message. */
  ghost predicate IsComplete(r: Message, result: Result) {
    && (if BodyForm(r).Some? then result.Ready? else result.Stopped? && result.rest == "")
    && result.s.trace == BodyTrace(r) + [Note(OnMessageComplete)]
    && IsNum(r.minor) && LineOf(result.s.f) == LineFor(HeadOf(r))
    && result.s.f.state == if StaysOpen(r) then StartReq else Dead
  }

  lemma BodyIsRead(r: Message, g: Fields)
    requires IsMessage(r) && r.body != "" && Valid(g) && g.errno.OK? && g.state.BodyIdentity?
             && g.contentLength == |r.body|
    requires LineOf(g) == LineFor(HeadOf(r)) && !g.upgrade && SaysNext(r, g)
    ensures var t := HeadTrace(HeadOf(r)) + [Note(OnHeadersComplete)];
            IsComplete(r, Run(SettingsOf(true), Stream(g, t), r.body))
    ensures var t := HeadTrace(HeadOf(r)) + [Note(OnHeadersComplete)];
            var front := Run(SettingsOf(true), Stream(g, t), r.body[..|r.body| - 1]);
            front.Ready? && Completions(front.s.trace) == 0
  {
    hide Run, Valid, HeadTrace, IsMessage, Complete, Completions, IsComplete, SaysNext;
    SaidOn(r, g, g.(contentLength := 0));
    var t, front := HeadTrace(HeadOf(r)) + [Note(OnHeadersComplete)], r.body[..|r.body| - 1];
    assert Emit(t, Data(OnBody, r.body)) == t + [Data(OnBody, r.body)];
    BodyIsDelivered(SettingsOf(true), g, t, r.body);
    MessageEnds(r, g.(contentLength := 0));
    HeadCompletesNothing(HeadOf(r));
    EmitCounts(HeadTrace(HeadOf(r)), Note(OnHeadersComplete));
    assert Emit(HeadTrace(HeadOf(r)), Note(OnHeadersComplete)) == t;
    EmitCounts(t, Data(OnBody, front));
    if front == "" {
      RunNothing(SettingsOf(true), Stream(g, t));
    } else {
      BodyOwes(SettingsOf(true), g, t, front);
    }
  }

  lemma EmptyMessageIsRead(r: Message)
    requires IsMessage(r) && r.body == ""
    ensures IsComplete(r, ReadAll(RequestText(r)))
    ensures RequestText(r) != "" && Waiting(RequestText(r)[..|RequestText(r)| - 1])
  {
    hide Run, Valid, HeadTrace, IsMessage, Complete, AtEnd, Agree, HeadText, Phase, IsHead, IsComplete, Waiting,
      Upgrades, HeadOf, SaysNext;
    var h := HeadOf(r);
    assert "\r\n" + r.body == "\r\n";
    MessageHasHead(r);
    HeadRun(SettingsOf(true), h, "\r\n");
    BlankLineIsRead(r);
    SaidOn(r, AtEnd(h), AtEnd(h).(nread := 0, upgrade := false));
    MessageEnds(r, AtEnd(h).(nread := 0, upgrade := false));
    HeadWaits(h);
    assert RequestText(r)[..|RequestText(r)| - 1] == HeadText(h) + "\r";
    StartIsRight();
  }

  lemma FullMessageIsRead(r: Message)
    requires IsMessage(r) && r.body != ""
    ensures IsComplete(r, ReadAll(RequestText(r)))
    ensures RequestText(r) != "" && Waiting(RequestText(r)[..|RequestText(r)| - 1])
  {
    hide Run, Valid, HeadTrace, IsMessage, AtEnd, Agree, HeadText, Phase, IsHead, IsComplete, Completions, Upgrades,
      HeadOf, SaysNext;
    var h, front := HeadOf(r), r.body[..|r.body| - 1];
    MessageHasHead(r);
    var g, t := AtEnd(h), HeadTrace(h);
    HeadRun(SettingsOf(true), h, "\r\n" + r.body);
    HeadRun(SettingsOf(true), h, "\r\n" + front);
    BlankLineIsRead(r);
    RunAppend(SettingsOf(true), Stream(g, t), "\r\n", r.body);
    RunAppend(SettingsOf(true), Stream(g, t), "\r\n", front);
    SaidOn(r, g, g.(nread := 0, upgrade := false, state := BodyIdentity));
    BodyIsRead(r, g.(nread := 0, upgrade := false, state := BodyIdentity));
    assert RequestText(r)[..|RequestText(r)| - 1] == HeadText(h) + ("\r\n" + front);
    StartIsRight();
  }

  /**
   Read byte by byte, the printed request gives one complete message; and before its last byte it is not
   yet complete. Another request is expected exactly if the client leaves the connection open: by default in
   HTTP/1.1, in HTTP/1.0 only if it asks for that.
   */
  lemma MessageIsRead(r: Message)
    requires IsMessage(r)
    ensures IsComplete(r, ReadAll(RequestText(r)))
    ensures RequestText(r) != "" && Waiting(RequestText(r)[..|RequestText(r)| - 1])
  {
    hide ReadAll, RequestText, IsMessage, IsComplete, Waiting;
    if r.body == "" {
      EmptyMessageIsRead(r);
    } else {
      FullMessageIsRead(r);
    }
  }

  lemma IsOneMessage(r: Message)
    requires IsMessage(r)
    ensures OneMessage(RequestText(r))
  {
    hide ReadAll, RequestText, IsMessage, IsComplete, Waiting, Unfinished;
    MessageIsRead(r);
    var x := RequestText(r);
    forall k | 0 <= k < |x| ensures Unfinished(x[..k]) {
      BeginningIsUnfinished(x[..|x| - 1], k);
      assert x[..|x| - 1][..k] == x[..k];
    }
  }

  /**
   Request round trip: what a client prints, cut anywhere, is received as one request with the method,
   target, version and body that were sent, with the header map of the lines that were sent, and with the
   form in the body, if the content type names forms. The result is -3 exactly if that form cannot be read.
   */
  method ReceivePrinted(parts: seq<string>, ghost r: Message) returns (ret: int, request: Request)
    requires IsMessage(r) && HttpFeed.AreBuffers(parts) && parts != [] && HttpFeed.Concat(parts) == RequestText(r)
    ensures ret == if BodyForm(r).Some? then 0 else -3
    ensures BodyForm(r).Some? ==> request.body.form == BodyForm(r).value
    ensures IsWordOf(request.verb, r.verb) && (r.verb.GET? <==> request.verb == "GET")
    ensures request.url == r.url && request.body.rawString == r.body
    ensures request.version == (if r.minor == '1' then "HTTP/1.1" else "HTTP/1.0")
    ensures IsMapOf(request.headers, AllHeaders(r))
  {
    hide RequestText, IsMessage, ReadAll, OneMessage, IsComplete, HeaderMap, Early, MethodName, Waiting, RequestOf,
      Outcome, FinalRequest, HeadOf, AllHeaders, BodyForm, IsWordOf, IsMapOf;
    IsOneMessage(r);
    MessageIsRead(r);
    FitsInRequest(r);
    PrintedIs(r);
    OneWord(RequestOf(ReadAll(RequestText(r)).s).verb, r.verb);
    ret, request := ReceiveRequest(parts);
  }

  /** What the server makes of the whole text. */
  lemma PrintedIs(r: Message)
    requires IsMessage(r) && IsComplete(r, ReadAll(RequestText(r)))
    ensures !ReadAll(RequestText(r)).Failed? && IsFinal(r, RequestOf(ReadAll(RequestText(r)).s))
  {
    hide RequestText, IsMessage, ReadAll, BodyTrace, HeaderMap, MethodName, Fold, HeadOf, BodyForm, IsFinal,
      FinalRequest;
    FinalAnswer(r);
    FinalIs(r);
  }

  /** The request of the printed text. */
  ghost predicate IsFinal(r: Message, q: Req) {
    && Outcome(q) == (if BodyForm(r).Some? then 0 else -3)
    && (BodyForm(r).Some? ==> FormOf(q) == BodyForm(r).value)
    && IsWordOf(q.verb, r.verb) && q.url == r.url && q.raw == r.body
    && q.version == (if r.minor == '1' then "HTTP/1.1" else "HTTP/1.0")
    && IsMapOf(q.headers, AllHeaders(r))
  }

  lemma FinalIs(r: Message)
    requires IsMessage(r)
    ensures IsNum(r.minor) && IsFinal(r, FinalRequest(r))
  {
    hide RequestText, MethodName, HeadersOf, LoweredFirst, AreUserEntries, IsTarget, HeadText, Names, Values, Decimal,
      IsMapOf, IsWordOf, MultipartForm, NamesForms, IsMultipart, LastValue;
    EntriesAreAll(r);
    MapIsExact(AllHeaders(r));
    TypeIsFound(r);
    WordIsName(MethodName(r.verb), r.verb);
  }

  lemma OneWord(word: string, m: Method)
    requires IsWordOf(word, m)
    ensures m.GET? <==> word == "GET"
  {
  }

  lemma FitsInRequest(r: Message)
    requires IsMessage(r)
    ensures |RequestText(r)| <= MAX_REQ_SIZE
  {
    hide IsTarget, RequestText, AreUserEntries;
  }
}
