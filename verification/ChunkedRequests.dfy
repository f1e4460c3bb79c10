/** Whole requests with a chunked body, as they arrive in pieces. */
module ChunkedRequests {
  import opened Options
  import opened Traces
  import opened HttpTypes
  import opened HttpVisit
  import opened HttpRun
  import opened HttpRecognisers
  import opened HttpLines
  import opened HttpBodies
  import opened HttpMessages
  import opened RequestState
  import opened RequestTheorems
  import opened Requests
  import opened RequestHeads
  import FormData
  import HttpFeed
  import HttpParser

  /** A request whose headers ask for chunked coding, and its body. */
  datatype Chunked = Chunked(head: Head, body: ChunkedBody)

  function ChunkedRequestText(r: Chunked): string {
    HeadText(r.head) + ("\r\n" + ChunkedText(r.body))
  }

  /** The fields where the body begins. */
  function AtBody(h: Head): Fields
    requires IsHead(h)
  {
    AtEnd(h).(nread := 0, upgrade := false, state := ChunkSizeStart)
  }

  ghost predicate IsChunked(r: Chunked) {
    && IsHead(r.head) && AskForChunks(r.head.lines) && !GiveLength(r.head.lines) && !IsUpgrade(r.head)
    && IsChunkedBody(r.body, false)
  }

  /** What the parser makes of such a head. */
  lemma HeadOfChunked(r: Chunked)
    requires IsChunked(r)
    ensures IsHead(r.head)
    ensures var g := AtEnd(r.head); g.flags.chunked && !g.flags.contentLength && !Upgrades(g)
    ensures IsChunkedBody(r.body, AtBody(r.head).flags.contentLength)
  {
    hide IsHead, AtEnd, IsUpgrade, AskForChunks, GiveLength, IsChunkedBody, Upgrades;
    EndOfHead(r.head);
  }

  /** The callbacks but the last one. */
  function BodyTrace(r: Chunked): Trace {
    ChunkedTrace(Emit(HeadTrace(r.head), Note(OnHeadersComplete)), r.body)
  }

  /** The fields after the trailers and the blank line behind them. */
  ghost function AtTheEnd(r: Chunked): Fields
    requires IsChunked(r)
  {
    HeadOfChunked(r);
    var g := AfterTrailers(AtBody(r.head), r.body);
    g.(nread := g.nread + 2)
  }

  /** What the parser makes of the request, if headers-complete lets it pass. */
  lemma ChunkedRequestRun(cfg: Settings, r: Chunked)
    requires IsChunked(r)
    requires cfg.headersComplete(LineFor(r.head), Emit(HeadTrace(r.head), Note(OnHeadersComplete))) == 0
    ensures var s := Stream(InitFields(HttpRequest), []);
            Valid(s.f) && Run(cfg, s, ChunkedRequestText(r)) == Complete(cfg, AtTheEnd(r), BodyTrace(r))
  {
    hide Emit, Run, HeadText, HeadTrace, AtEnd, IsHead, ChunkedText, IsChunkedBody, ChunkedTrace, Sound, Upgrades,
      AtLines;
    HeadOfChunked(r);
    var g, t := AtEnd(r.head), HeadTrace(r.head);
    HeadRun(cfg, r.head, "\r\n" + ChunkedText(r.body));
    RunAppend(cfg, Stream(g, t), "\r\n", ChunkedText(r.body));
    HeadersEnd(cfg, g, t);
    var t' := Emit(t, Note(OnHeadersComplete));
    assert Valid(AtBody(r.head)) by {
      EndedIsValid(cfg, g, t);
    }
    ChunkedBodyIsDelivered(cfg, AtBody(r.head), t', r.body);
    assert AtBody(r.head).errno.OK? && AtBody(r.head).state.ChunkSizeStart?;
  }

  lemma EndedIsValid(cfg: Settings, g: Fields, t: Trace)
    requires Valid(g) && g.flags.chunked
    ensures Valid(g.(nread := 0, upgrade := false, state := ChunkSizeStart))
  {
    hide HeaderSound;
    HeaderSoundStays(g);
  }

  lemma HeaderSoundStays(g: Fields)
    requires HeaderSound(g)
    ensures HeaderSound(g.(nread := 0, upgrade := false, state := ChunkSizeStart))
  {
  }

  // ----- The parser -----

  /** The header lines keep the request line; so do the trailers. */
  lemma AfterTrailersLine(r: Chunked)
    requires IsChunked(r)
    ensures LineOf(AtTheEnd(r)) == LineFor(r.head) && !AtTheEnd(r).upgrade
  {
    hide IsHead, AtEnd, HeadText, AtLines, AfterLines, Valid, Run, Upgrades, IsChunkHeader, AreChunks, AreHeaders;
    HeadOfChunked(r);
    BlockIsExact(AtTrailers(AtBody(r.head)), r.body.trailers);
    HeadRun(AllZero, r.head, "\r\n");
    EndedIsValid(AllZero, AtEnd(r.head), []);
    AtTrailersIsValid(AtBody(r.head));
    TrailersKeep(AtTrailers(AtBody(r.head)), r.body.trailers);
  }

  lemma AtTrailersIsValid(f: Fields)
    requires Valid(f) && f.flags.chunked
    ensures Valid(AtTrailers(f))
  {
    hide Sound;
    SoundBounds(f);
    PlainMove(f, AtTrailers(f));
  }

  lemma TrailersKeep(f: Fields, hs: seq<Header>)
    requires Valid(f) && f.errno.OK? && f.state.HeaderFieldStart? && f.nread + |Block(hs)| <= MAX_HEADER_SIZE
    requires AreHeaders(hs) && AfterLines(f, hs).Some?
    ensures var g := AfterLines(f, hs).value; LineOf(g) == LineOf(f) && g.upgrade == f.upgrade
  {
    hide Run, Valid, AfterLines, AreHeaders, Block;
    BlockRun(AllZero, f, [], hs, "\r\n");
  }

  /**
   A chunked request, cut anywhere: the parser takes it whole; its body callbacks together are the chunks'
   data, chunk-header and chunk-complete come in turn, and message-complete comes once, at the end.
   */
  method FeedChunked(parts: seq<string>, ghost r: Chunked) returns (accepted: bool, parser: HttpParser.Parser)
    requires IsChunked(r) && HttpFeed.AreBuffers(parts) && HttpFeed.Concat(parts) == ChunkedRequestText(r)
    ensures accepted && parser.Trace() == BodyTrace(r) + [Note(OnMessageComplete)]
    ensures Text(parser.Trace(), OnBody) == Joined(r.body.chunks)
    ensures ChunkNotices(parser.Trace()) == InTurn(|r.body.chunks| + 1)
    ensures EndsOnce(parser.Trace())
  {
    hide Run, Valid, IsChunked, BodyTrace, ChunkedRequestText, AtTheEnd, InitFields, Phase;
    StartIsRight();
    ChunkedRequestRun(AllZero, r);
    Completes(AllZero, r);
    TraceFacts(r);
    parser := new HttpParser.Parser(HttpRequest, AllZero);
    assert parser.After() == Stream(InitFields(HttpRequest), []);
    accepted := HttpFeed.Feed(parser, parts);
  }

  lemma Completes(cfg: Settings, r: Chunked)
    requires IsChunked(r)
    ensures var result := Complete(cfg, AtTheEnd(r), BodyTrace(r));
            && (if cfg.messageComplete(LineFor(r.head), BodyTrace(r) + [Note(OnMessageComplete)]) == 0
               then result.Ready?
                else result.Stopped? && result.rest == "")
            && result.s.trace == BodyTrace(r) + [Note(OnMessageComplete)]
              && LineOf(result.s.f) == LineFor(r.head)
  {
    hide BodyTrace, AtTheEnd, IsChunked, NewMessage;
    AfterTrailersLine(r);
    assert Emit(BodyTrace(r), Note(OnMessageComplete)) == BodyTrace(r) + [Note(OnMessageComplete)];
  }

  lemma {:induction false} ChunksCompleteNothing(t: Trace, cs: seq<Chunk>)
    requires Completions(t) == 0
    ensures Completions(ChunksTrace(t, cs)) == 0
    decreases |cs|
  {
    hide Emit, Completions;
    if cs != [] {
      var t1 := Emit(t, Note(OnChunkHeader));
      EmitCounts(t, Note(OnChunkHeader));
      EmitCounts(t1, Data(OnBody, cs[0].data));
      EmitCounts(Emit(t1, Data(OnBody, cs[0].data)), Note(OnChunkComplete));
      ChunksCompleteNothing(ChunkTrace(t, cs[0]), cs[1..]);
    }
  }

  lemma BodyCompletesNothing(r: Chunked)
    ensures Completions(BodyTrace(r)) == 0
    ensures Completions(WithHeaders(Emit(ChunksTrace(Emit(HeadTrace(r.head), Note(OnHeadersComplete)), r.body.chunks),
            Note(OnChunkHeader)), r.body.trailers)) == 0
  {
    hide Emit, Completions, HeadTrace, ChunksTrace, WithHeaders;
    HeadCompletesNothing(r.head);
    var t := Emit(HeadTrace(r.head), Note(OnHeadersComplete));
    EmitCounts(HeadTrace(r.head), Note(OnHeadersComplete));
    ChunksCompleteNothing(t, r.body.chunks);
    EmitCounts(ChunksTrace(t, r.body.chunks), Note(OnChunkHeader));
    HeadersComplete(Emit(ChunksTrace(t, r.body.chunks), Note(OnChunkHeader)), r.body.trailers);
    EmitCounts(WithHeaders(Emit(ChunksTrace(t, r.body.chunks), Note(OnChunkHeader)), r.body.trailers),
      Note(OnChunkComplete));
  }

  lemma HeadHasNoBody(h: Head)
    ensures Text(HeadTrace(h), OnBody) == "" && ChunkNotices(HeadTrace(h)) == []
  {
    hide WithHeaders;
    var t := [Note(OnMessageBegin), Data(OnUrl, h.url)];
    HeadersText(t, h.lines);
    HeaderNotices(t, h.lines);
    assert t[..1] == [Note(OnMessageBegin)] && [Note(OnMessageBegin)][..0] == [];
  }

  lemma TraceFacts(r: Chunked)
    ensures var t := BodyTrace(r) + [Note(OnMessageComplete)];
            Text(t, OnBody) == Joined(r.body.chunks) && ChunkNotices(t) == InTurn(|r.body.chunks| + 1) && EndsOnce(t)
  {
    hide Text, ChunkNotices, Completions, ChunkedTrace, HeadTrace, InTurn, Emit;
    var t0, t := Emit(HeadTrace(r.head), Note(OnHeadersComplete)), BodyTrace(r);
    HeadHasNoBody(r.head);
    TextEmit(HeadTrace(r.head), Note(OnHeadersComplete), OnBody);
    NoticesEmit(HeadTrace(r.head), Note(OnHeadersComplete));
    ChunkedTextIsJoined(t0, r.body);
    NoticesComeInTurn(t0, r.body);
    BodyCompletesNothing(r);
    NoteIsAdded(t, OnMessageComplete);
    TextEmit(t, Note(OnMessageComplete), OnBody);
    NoticesEmit(t, Note(OnMessageComplete));
    EmitCounts(t, Note(OnMessageComplete));
    assert "" + Joined(r.body.chunks) == Joined(r.body.chunks);
    assert [] + InTurn(|r.body.chunks| + 1) == InTurn(|r.body.chunks| + 1);
  }

  lemma NoteIsAdded(t: Trace, n: Notice)
    ensures Emit(t, Note(n)) == t + [Note(n)]
  {
  }

  // ----- The request -----

  /** From headers-complete on only the body grows. */
  ghost predicate Keeps(q: Req, q': Req, more: string) {
    && q'.part != PARSE_REQ_LINE && q'.part != PARSE_REQ_OVER
    && q'.headers == q.headers && q'.verb == q.verb && q'.version == q.version && q'.url == q.url
       && q'.parseErr == q.parseErr
    && q'.raw == q.raw + more
  }

  predicate IsQuiet(e: Event) {
    match e
    case Data(k, _) => k.OnHeaderField? || k.OnHeaderValue? || k.OnBody?
    case Note(_) => IsChunkNotice(e)
  }

  lemma QuietStep(q0: Req, l: Line, t: Trace, e: Event, more: string)
    requires IsQuiet(e) && Keeps(q0, Fold(NewReq, l, t, true), more)
    ensures Keeps(q0, Fold(NewReq, l, Emit(t, e), true), more + if e.Data? && e.kind.OnBody? then e.bytes else "")
  {
    hide Fold, Emit, MethodName, VersionOf, Extend;
    FoldEmit(NewReq, l, t, e, true);
    var q := Fold(NewReq, l, t, true);
    assert more + "" == more;
    assert e.Data? ==> (q0.raw + more) + e.bytes == q0.raw + (more + e.bytes);
  }

  lemma {:induction false} ChunksFold(q0: Req, l: Line, t: Trace, cs: seq<Chunk>, more: string)
    requires Keeps(q0, Fold(NewReq, l, t, true), more)
    ensures Keeps(q0, Fold(NewReq, l, ChunksTrace(t, cs), true), more + Joined(cs))
    decreases |cs|
  {
    hide Fold, Emit, Keeps;
    if cs == [] {
      assert more + "" == more;
    } else {
      var t1 := Emit(t, Note(OnChunkHeader));
      var t2 := Emit(t1, Data(OnBody, cs[0].data));
      QuietStep(q0, l, t, Note(OnChunkHeader), more);
      assert more + "" == more;
      QuietStep(q0, l, t1, Data(OnBody, cs[0].data), more);
      QuietStep(q0, l, t2, Note(OnChunkComplete), more + cs[0].data);
      assert more + cs[0].data + "" == more + cs[0].data;
      ChunksFold(q0, l, ChunkTrace(t, cs[0]), cs[1..], more + cs[0].data);
      assert more + cs[0].data + Joined(cs[1..]) == more + Joined(cs);
    }
  }

  lemma {:induction false} TrailersFold(q0: Req, l: Line, t: Trace, hs: seq<Header>, more: string)
    requires Keeps(q0, Fold(NewReq, l, t, true), more)
    ensures Keeps(q0, Fold(NewReq, l, WithHeaders(t, hs), true), more)
    decreases |hs|
  {
    hide Fold, Emit, Keeps;
    if hs != [] {
      assert more + "" == more;
      QuietStep(q0, l, t, Data(OnHeaderField, hs[0].name), more);
      QuietStep(q0, l, Emit(t, Data(OnHeaderField, hs[0].name)), Data(OnHeaderValue, hs[0].value), more);
      TrailersFold(q0, l, WithHeader(t, hs[0].name, hs[0].value), hs[1..], more);
    }
  }

  lemma BodyFold(r: Chunked)
    requires IsHead(r.head) && Passes(r.head)
    ensures Keeps(AtHeaders(r.head), Fold(NewReq, LineFor(r.head), BodyTrace(r), true), Joined(r.body.chunks))
  {
    hide Fold, Emit, WithHeaders, HeadTrace, ChunksTrace, Passes, Answer, AfterLines, AtLines, HeadText, HeadersOf,
      LoweredFirst;
    var q0, l, t0 := AtHeaders(r.head), LineFor(r.head), Emit(HeadTrace(r.head), Note(OnHeadersComplete));
    HeadersAnswer(r.head);
    assert Keeps(q0, Fold(NewReq, l, t0, true), "");
    ChunksFold(q0, l, t0, r.body.chunks, "");
    var t1, more := ChunksTrace(t0, r.body.chunks), Joined(r.body.chunks);
    assert "" + more == more && more + "" == more;
    QuietStep(q0, l, t1, Note(OnChunkHeader), more);
    TrailersFold(q0, l, Emit(t1, Note(OnChunkHeader)), r.body.trailers, more);
    QuietStep(q0, l, WithHeaders(Emit(t1, Note(OnChunkHeader)), r.body.trailers), Note(OnChunkComplete), more);
  }

  /** The form in the joined chunks, if the content type of the head names forms; none if it cannot be read. */
  ghost function BodyForm(r: Chunked): Option<FormData.Form> {
    FormIn(LastValue(EntriesOf(r.head.lines), "content-type"), Joined(r.body.chunks))
  }

  /** The request at the end, but for what the head has settled. */
  ghost predicate IsFinal(r: Chunked, q: Req) {
    && Outcome(q) == (if BodyForm(r).Some? then 0 else -3)
    && (BodyForm(r).Some? ==> FormOf(q) == BodyForm(r).value)
    && q.url == r.head.url && q.raw == Joined(r.body.chunks)
    && IsMapOf(q.headers, EntriesOf(r.head.lines))
  }

  lemma FinalAnswer(r: Chunked)
    requires IsHead(r.head) && Passes(r.head)
    ensures var t, l := BodyTrace(r) + [Note(OnMessageComplete)], LineFor(r.head);
            var q := Fold(NewReq, l, t, true);
            && Answer(l, t, true) == (if BodyForm(r).Some? then 0 else -1)
            && IsFinal(r, q) && q.verb == AtHeaders(r.head).verb && q.version == AtHeaders(r.head).version
  {
    hide Fold, BodyTrace, Passes, MultipartForm, IsMultipart, IsHead, HeadersOf, LoweredFirst, MethodName, VersionOf,
      EntriesOf, NamesForms, IsMapOf, LastValue;
    var contentType := LastValue(EntriesOf(r.head.lines), "content-type");
    MapIsExact(EntriesOf(r.head.lines));
    MultipartIsNamed(contentType);
    MinorIsDigit(r.head);
    var t, l := BodyTrace(r), LineFor(r.head);
    BodyFold(r);
    FoldOne(NewReq, l, t, Note(OnMessageComplete), true);
    assert (t + [Note(OnMessageComplete)])[..|t|] == t;
    assert "" + Joined(r.body.chunks) == Joined(r.body.chunks);
  }

  // ----- One message, and no more -----

  /** The text but for its last byte. */
  lemma ChunkedRequestWaits(r: Chunked)
    requires IsChunked(r) && Passes(r.head)
    ensures var x := ChunkedRequestText(r); x != "" && Waiting(x[..|x| - 1])
  {
    hide Emit, Run, HeadText, HeadTrace, IsHead, Sound, Passes, Answer, AtEnd, Upgrades, Chunks, ChunkHeaderText, Block,
      Completions, Phase, HeadersEnded, Valid, IsChunkHeader, AreChunks, AreHeaders, AfterLines, WithHeaders,
        ChunksTrace;
    var cfg, g, t := SettingsOf(true), AtEnd(r.head), HeadTrace(r.head);
    var b, front := r.body, Chunks(r.body.chunks)
        + (ChunkHeaderText(r.body.zero, r.body.extension) + (Block(r.body.trailers) + "\r"));
    var x := ChunkedRequestText(r);
    assert x[..|x| - 1] == HeadText(r.head) + ("\r\n" + front);
    HeadOfChunked(r);
    MinorIsDigit(r.head);
    HeadersAnswer(r.head);
    HeadRun(cfg, r.head, "\r\n" + front);
    RunAppend(cfg, Stream(g, t), "\r\n", front);
    HeadersEnd(cfg, g, t);
    EndedInChunks(cfg, g, Emit(t, Note(OnHeadersComplete)));
    EndedIsValid(cfg, g, t);
    BodyWaits(r);
    StartIsRight();
  }

  lemma EndedInChunks(cfg: Settings, g: Fields, t: Trace)
    requires g.flags.chunked
    ensures HeadersEnded(cfg, g, t) == Ready(Stream(g.(nread := 0, upgrade := false, state := ChunkSizeStart), t))
  {
  }

  lemma BodyWaits(r: Chunked)
    requires IsChunked(r) && Valid(AtBody(r.head)) && AtBody(r.head).errno.OK? && AtBody(r.head).state.ChunkSizeStart?
    ensures var t, front := Emit(HeadTrace(r.head), Note(OnHeadersComplete)),
                            Chunks(r.body.chunks) + (ChunkHeaderText(r.body.zero, r.body.extension)
                              + (Block(r.body.trailers) + "\r"));
            var result := Run(SettingsOf(true), Stream(AtBody(r.head), t), front);
            result.Ready? && Completions(result.s.trace) == 0
  {
    hide Emit, Run, HeadText, HeadTrace, IsHead, AtEnd, Upgrades, ChunkText, ChunkHeaderText, IsChunkHeader, Block,
      Completions, HeaderSound, AreChunks, AreHeaders, AfterLines, WithHeaders, Step;
    var cfg, f, b, t := SettingsOf(true), AtBody(r.head), r.body, Emit(HeadTrace(r.head), Note(OnHeadersComplete));
    var last := ChunkHeaderText(b.zero, b.extension) + (Block(b.trailers) + "\r");
    ChunksRun(cfg, f, t, b.chunks);
    RunAppend(cfg, Stream(f, t), Chunks(b.chunks), last);
    var f1, t1 := if b.chunks == [] then f else f.(contentLength := 0), ChunksTrace(t, b.chunks);
    ChunkHeaderRun(cfg, f1, t1, b.zero, b.extension, 0);
    RunAppend(cfg, Stream(f1, t1), ChunkHeaderText(b.zero, b.extension), Block(b.trailers) + "\r");
    var t2 := Emit(t1, Note(OnChunkHeader));
    assert AfterChunkHeader(f1.(contentLength := 0)) == AtTrailers(f);
    HeadOfChunked(r);
    BlockIsExact(AtTrailers(f), b.trailers);
    BlockRun(cfg, AtTrailers(f), t2, b.trailers, "\r");
    var f3, t3 := AfterLines(AtTrailers(f), b.trailers).value, WithHeaders(t2, b.trailers);
    BlankLineReturn(cfg, f3, t3);
    assert "\r" == ['\r'];
    RunOne(cfg, Stream(f3, t3), '\r');
    BodyCompletesNothing(r);
  }

  lemma ChunkedIsOneMessage(r: Chunked)
    requires IsChunked(r) && Passes(r.head)
    ensures OneMessage(ChunkedRequestText(r))
  {
    hide ChunkedRequestText, IsChunked, Passes, Waiting, Unfinished;
    ChunkedRequestWaits(r);
    var x := ChunkedRequestText(r);
    forall k | 0 <= k < |x| ensures Unfinished(x[..k]) {
      BeginningIsUnfinished(x[..|x| - 1], k);
      assert x[..|x| - 1][..k] == x[..k];
    }
  }

  lemma ChunkedIsRead(r: Chunked)
    requires IsChunked(r) && Passes(r.head)
    ensures var result := ReadAll(ChunkedRequestText(r));
            && (if BodyForm(r).Some? then result.Ready? else result.Stopped?)
            && result.s.trace == BodyTrace(r) + [Note(OnMessageComplete)]
            && LineOf(result.s.f) == LineFor(r.head)
  {
    hide Run, Valid, ChunkedRequestText, BodyTrace, AtTheEnd, Answer, Passes, BodyForm, Phase, Fold, HeadTrace, IsFinal;
    HeadersAnswer(r.head);
    ChunkedRequestRun(SettingsOf(true), r);
    FinalAnswer(r);
    Completes(SettingsOf(true), r);
  }

  /**
   A chunked request, cut anywhere, is received with its method, target, version and header map, with the
   chunks' data joined as its body, and with the form in that body, unless it is a POST: headers-complete
   lets no chunked POST pass. The result is -3 exactly if the content type names forms and the body cannot
   be read.
   */
  method ReceiveChunked(parts: seq<string>, ghost r: Chunked) returns (ret: int, request: Request)
    requires IsChunked(r) && !r.head.verb.POST?
    requires HttpFeed.AreBuffers(parts) && parts != [] && HttpFeed.Concat(parts) == ChunkedRequestText(r)
    requires |ChunkedRequestText(r)| <= MAX_REQ_SIZE
    ensures ret == if BodyForm(r).Some? then 0 else -3
    ensures BodyForm(r).Some? ==> request.body.form == BodyForm(r).value
    ensures request.url == r.head.url && IsWordOf(request.verb, r.head.verb)
    ensures r.head.minor == '1' ==> request.version == "HTTP/1.1"
    ensures r.head.minor == '0' ==> request.version == "HTTP/1.0"
    ensures r.head.minor != '0' && r.head.minor != '1' ==> request.version == ""
    ensures request.body.rawString == Joined(r.body.chunks)
    ensures IsMapOf(request.headers, EntriesOf(r.head.lines))
  {
    hide ChunkedRequestText, ReadAll, OneMessage, Early, MethodName, EntriesOf, RequestOf, Outcome, IsChunked,
      BodyForm, FormOf, IsMapOf, IsWordOf;
    ChunkedIsOneMessage(r);
    ChunkedIsRead(r);
    ReceivedIs(r);
    ret, request := ReceiveRequest(parts);
  }

  /** What the server makes of the whole text. */
  lemma ReceivedIs(r: Chunked)
    requires IsChunked(r) && !r.head.verb.POST? && !ReadAll(ChunkedRequestText(r)).Failed?
    ensures var q := RequestOf(ReadAll(ChunkedRequestText(r)).s);
            && IsFinal(r, q) && IsWordOf(q.verb, r.head.verb)
            && (r.head.minor == '1' ==> q.version == "HTTP/1.1") && (r.head.minor == '0' ==> q.version == "HTTP/1.0")
            && (r.head.minor != '0' && r.head.minor != '1' ==> q.version == "")
  {
    hide ChunkedRequestText, ReadAll, BodyTrace, MethodName, EntriesOf, Fold, BodyForm, IsFinal, Outcome, IsHead;
    ChunkedIsRead(r);
    FinalAnswer(r);
    ChunkedHasLines(r.head);
  }

  lemma ChunkedHasLines(h: Head)
    requires IsHead(h) && AskForChunks(h.lines)
    ensures IsWordOf(AtHeaders(h).verb, h.verb)
    ensures h.minor == '1' ==> AtHeaders(h).version == "HTTP/1.1"
    ensures h.minor == '0' ==> AtHeaders(h).version == "HTTP/1.0"
    ensures h.minor != '0' && h.minor != '1' ==> AtHeaders(h).version == ""
  {
    hide MethodName, HeadersOf, LoweredFirst, IsWordOf;
    assert h.lines != [];
    WordIsName(MethodName(h.verb), h.verb);
  }
}
