/** A request: the object that the parser's callbacks fill in, and `parse_request`, which feeds it. */
module Requests {
  import opened Options
  import opened Traces
  import opened HttpTypes
  import opened HttpRun
  import opened StringUtils
  import opened HttpBulk
  import opened RequestState
  import opened RequestTheorems
  import FormData
  import HttpFeed
  import HttpParser

  /** The request that a stream of one message stands for. */
  function RequestOf(s: Stream): Req {
    Fold(NewReq, LineOf(s.f), s.trace, true)
  }

  /** What `parse_request` returns when the parser has taken all its bytes. */
  function Outcome(q: Req): int {
    if q.parseErr != 0 then q.parseErr else if q.part != PARSE_REQ_OVER then NEED_MORE_STATUS else 0
  }

  /** The form that belongs to a request. */
  function FormOf(q: Req): FormData.Form {
    if q.part == PARSE_REQ_OVER && "content-type" in q.headers && IsMultipart(q.headers["content-type"])
       && MultipartForm(q.raw, q.headers["content-type"]).Some?
    then MultipartForm(q.raw, q.headers["content-type"]).value
    else FormData.EmptyForm
  }

  /** At most one message, and nothing after it. */
  predicate Early(t: Trace) {
    Completions(t) == 0 || EndsOnce(t)
  }

  lemma {:induction false} MergedCounts(log: Trace)
    ensures Completions(Merge([], log)) == Completions(log) && (EndsOnce(Merge([], log)) <==> EndsOnce(log))
  {
    hide Emit;
    if log != [] {
      MergedCounts(log[..|log| - 1]);
      EmitCounts(Merge([], log[..|log| - 1]), log[|log| - 1]);
    }
  }

  lemma EarlyFront(log: Trace, e: Event)
    ensures Completions(log + [e]) == 0 ==> Completions(log) == 0 && e != Note(OnMessageComplete)
    ensures EndsOnce(log + [e]) ==> Completions(log) == 0 && e == Note(OnMessageComplete)
    ensures Early(log + [e]) ==> Completions(log) == 0
    ensures Early(log + [e]) && e != Note(OnMessageComplete) ==> Completions(log + [e]) == 0
  {
    assert (log + [e])[..|log|] == log;
  }

  lemma NextSlice(log: Trace, from: nat, i: nat)
    requires from <= i < |log|
    ensures log[..i + 1] == log[..i] + [log[i]] && log[from..i + 1] == log[from..i] + [log[i]]
  {
  }

  lemma NotOver(q: Req, l: Line, e: Event)
    requires e != Note(OnMessageComplete) && q.part != PARSE_REQ_OVER
    ensures Handle(q, l, e, true).0.part != PARSE_REQ_OVER
  {
    hide MethodName, VersionOf, HeadersOf;
  }

  /** Old callbacks and new ones together make the merged trace. */
  lemma WholeRequest(l: Line, log: Trace, log': Trace)
    requires log <= log'
    ensures Fold(NewReq, l, Merge([], log'), true)
            == Fold(Fold(NewReq, l, Merge([], log), true), l, log'[|log|..], true)
  {
    hide Fold, Merge;
    FoldMerged(NewReq, l, [], log, true);
    FoldMerged(NewReq, l, [], log', true);
    FoldAppend(NewReq, l, log, log'[|log|..], true);
    assert log + log'[|log|..] == log';
    assert Fold(NewReq, l, [], true) == NewReq by {
      FoldNothing(l);
    }
  }

  lemma FoldNothing(l: Line)
    ensures Fold(NewReq, l, [], true) == NewReq
  {
  }

  class Request {
    const parser: HttpParser.Parser
    const body: FormData.RequestBody

    // the fields of the request and of its request line
    var parsePart: int
    var lastWasValue: bool
    var parseErr: int
    var verb: string
    var version: string
    var url: string
    var headerFields: seq<string>
    var headerValues: seq<string>
    var headers: map<string, string>
    var totalReqSize: nat
    /** How many of the parser's callbacks have been made. */
    var seen: nat

    ghost function View(): Req
      reads this`parsePart, this`lastWasValue, this`parseErr, this`verb, this`version, this`url, this`headerFields,
            this`headerValues, this`headers
      reads body`rawString
    {
      Req(parsePart, lastWasValue, parseErr, verb, version, url, headerFields, headerValues, headers, body.rawString)
    }

    ghost predicate Valid()
      reads this, parser, body
    {
      && parser.settings == SettingsOf(true) && parser.Usable() && seen == |parser.log|
      && (parser.fields.errno.OK? ==> Phase(parser.After(), None))
      && FormFits(parser.Trace())
      && (Early(parser.Trace()) ==> View() == RequestOf(parser.After()) && Excused(parser.fields, parser.Trace()))
    }

    constructor ()
      ensures Valid() && fresh(parser) && fresh(body)
      ensures totalReqSize == 0 && parser.After() == Stream(InitFields(HttpRequest), []) && parser.fields.errno.OK?
    {
      parser := new HttpParser.Parser(HttpRequest, SettingsOf(true));
      body := new FormData.RequestBody("");
      parsePart, lastWasValue, parseErr := PARSE_REQ_LINE, true, 0;
      verb, version, url := "", "", "";
      headerFields, headerValues, headers := [], [], map[];
      totalReqSize, seen := 0, 0;
    }

    method SsOnUrl(s: string)
      modifies this`url
      ensures View() == Handle(old(View()), LineOf(parser.fields), Data(OnUrl, s), true).0
    {
      url := url + s;
    }

    method SsOnHeaderField(s: string)
      modifies this
      ensures View() == Handle(old(View()), LineOf(parser.fields), Data(OnHeaderField, s), true).0
      ensures seen == old(seen) && totalReqSize == old(totalReqSize)
    {
      hide MethodName;
      if parsePart == PARSE_REQ_LINE {
        verb := MethodName(parser.fields.verb);
        if parser.fields.major == 1 && parser.fields.minor == 0 {
          version := "HTTP/1.0";
        }
        if parser.fields.major == 1 && parser.fields.minor == 1 {
          version := "HTTP/1.1";
        }
        parsePart := PARSE_REQ_HEAD;
      }
      if lastWasValue {
        headerFields := headerFields + [s];
        lastWasValue := false;
      } else {
        headerFields := Extend(headerFields, s);
      }
    }

    method SsOnHeaderValue(s: string)
      modifies this`headerValues, this`lastWasValue
      ensures View() == Handle(old(View()), LineOf(parser.fields), Data(OnHeaderValue, s), true).0
    {
      if !lastWasValue {
        headerValues := headerValues + [s];
      } else {
        headerValues := Extend(headerValues, s);
      }
      lastWasValue := true;
    }

    method SsOnBody(s: string)
      modifies this`parsePart, body`rawString
      ensures View() == Handle(old(View()), LineOf(parser.fields), Data(OnBody, s), true).0
    {
      body.rawString := body.rawString + s;
      parsePart := PARSE_REQ_BODY;
    }

    /** `get_header`, for a name in lower case. */
    method Header(name: string) returns (value: string)
      modifies this`headers
      ensures (headers, value) == GetHeader(old(headers), name)
    {
      if name !in headers {
        headers := headers[name := ""];
      }
      value := headers[name];
    }

    method SsOnHeadersComplete() returns (ret: int)
      modifies this
      ensures (View(), ret) == Handle(old(View()), LineOf(parser.fields), Note(OnHeadersComplete), true)
      ensures seen == old(seen) && totalReqSize == old(totalReqSize)
    {
      hide HeadersOf, LoweredFirst, Folded;
      if |headerFields| != |headerValues| {
        return -1;
      }
      AddHeaders();
      parsePart := PARSE_REQ_HEAD_OVER;
      if verb == "POST" {
        var length := Header("content-length");
        if length == "" {
          parseErr := PARSE_LEN_REQUIRED;
          return -1;
        }
      }
      return 0;
    }

    /** `add_header` for every field, which lowers the field where it stands. */
    method AddHeaders()
      requires |headerFields| == |headerValues|
      modifies this`headers, this`headerFields
      ensures headers == HeadersOf(old(headers), old(headerFields), headerValues, |headerValues|)
      ensures headerFields == LoweredFirst(old(headerFields), |headerValues|)
      ensures |headerFields| == |old(headerFields)|
      ensures forall i | 0 <= i < |headerValues| :: headerFields[i] == Folded(old(headerFields)[i])
    {
      hide Folded;
      var i := 0;
      assert headerFields == LoweredFirst(old(headerFields), 0);
      while i < |headerFields|
        invariant i <= |headerFields| == |headerValues|
        invariant headers == HeadersOf(old(headers), old(headerFields), headerValues, i)
        invariant headerFields == LoweredFirst(old(headerFields), i)
      {
        headers := headers[Folded(headerFields[i]) := headerValues[i]];
        headerFields := headerFields[i := Folded(headerFields[i])];
        i := i + 1;
      }
    }

    method SsOnMessageComplete() returns (ret: int)
      modifies this`headers, this`parsePart, this`parseErr, body
      ensures body.rawString == old(body.rawString)
      ensures old(body.form) == FormData.EmptyForm ==>
                && (View(), ret) == Handle(old(View()), LineOf(parser.fields), Note(OnMessageComplete), true)
                && (View().parseErr != PARSE_MULTIPART_ERR ==> body.form == FormOf(View()))
    {
      hide Contains, Multipart.Buffer;
      var contentType := Header("content-type");
      ret := 0;
      if IsMultipart(contentType) {
        ret := body.ParseMultipartData(contentType);
        if ret != 0 {
          parseErr := PARSE_MULTIPART_ERR;
        }
      }
      parsePart := PARSE_REQ_OVER;
    }

    /** Makes one callback. */
    method Make(e: Event)
      modifies this, body
      ensures seen == old(seen) && totalReqSize == old(totalReqSize)
      ensures e != Note(OnMessageComplete) || old(body.form) == FormData.EmptyForm ==>
                View() == Handle(old(View()), LineOf(parser.fields), e, true).0
      ensures e != Note(OnMessageComplete) ==> body.form == old(body.form)
      ensures e == Note(OnMessageComplete) && old(body.form) == FormData.EmptyForm
              && View().parseErr != PARSE_MULTIPART_ERR ==>
                body.form == FormOf(View())
    {
      hide HeadersCompleted, MessageCompleted, OnField, OnValue, FormOf;
      match e {
        case Data(k, s) =>
          if k == OnUrl {
            SsOnUrl(s);
          } else if k == OnHeaderField {
            SsOnHeaderField(s);
          } else if k == OnHeaderValue {
            SsOnHeaderValue(s);
          } else if k == OnBody {
            SsOnBody(s);
          }
        case Note(n) =>
          if n == OnHeadersComplete {
            var _ := SsOnHeadersComplete();
          } else if n == OnMessageComplete {
            var _ := SsOnMessageComplete();
          }
      }
    }

    /** The form goes with the request, up to the end of the first message. */
    ghost predicate FormFits(t: Trace)
      reads this`parsePart, this`lastWasValue, this`parseErr, this`verb, this`version, this`url, this`headerFields,
            this`headerValues, this`headers
      reads body
    {
      && (Completions(t) == 0 ==> body.form == FormData.EmptyForm && parsePart != PARSE_REQ_OVER)
      && (EndsOnce(t) && parseErr != PARSE_MULTIPART_ERR ==> body.form == FormOf(View()))
    }

    /** Makes the next callback. */
    method MakeNext()
      requires seen < |parser.log| && FormFits(parser.log[..seen])
      modifies this, body
      ensures seen == old(seen) + 1 && totalReqSize == old(totalReqSize) && FormFits(parser.log[..seen])
      ensures Early(parser.log[..seen]) ==>
                Early(parser.log[..old(seen)]) && View()
                  == Handle(old(View()), LineOf(parser.fields), parser.log[old(seen)], true).0
    {
      hide Handle, FormOf, Completions, EndsOnce;
      ghost var e := parser.log[seen];
      NextSlice(parser.log, 0, seen);
      EarlyFront(parser.log[..seen], e);
      if e != Note(OnMessageComplete) && parsePart != PARSE_REQ_OVER {
        NotOver(View(), LineOf(parser.fields), e);
      }
      Make(parser.log[seen]);
      seen := seen + 1;
    }

    /** Makes the callbacks that are due. */
    method MakeCallbacks()
      requires seen <= |parser.log| && FormFits(parser.log[..seen])
      modifies this, body
      ensures seen == |parser.log| && totalReqSize == old(totalReqSize) && FormFits(parser.log)
      ensures Early(parser.log) ==> View() == Fold(old(View()), LineOf(parser.fields), parser.log[old(seen)..], true)
    {
      hide Handle, Early, FormFits, View;
      ghost var line, start, from := LineOf(parser.fields), View(), seen;
      assert parser.log[from..from] == [];
      while seen < |parser.log|
        invariant from <= seen <= |parser.log| && totalReqSize == old(totalReqSize)
        invariant Early(parser.log[..seen]) ==> View() == Fold(start, line, parser.log[from..seen], true)
        invariant FormFits(parser.log[..seen])
      {
        NextSlice(parser.log, from, seen);
        FoldOne(start, line, parser.log[from..seen], parser.log[seen], true);
        MakeNext();
      }
      assert parser.log[..seen] == parser.log;
      assert parser.log[from..seen] == parser.log[from..];
    }

    /** All bytes have been taken, and the parser stands at `s`. */
    ghost predicate Taken(s: Stream)
      reads this, parser, body
    {
      && parser.After() == s
      && (Early(s.trace) ==> Valid() && View() == RequestOf(s))
    }

    /** Has the parser take a buffer, and makes the callbacks. */
    method Take(buffer: string) returns (nparsed: nat)
      requires Valid() && Early(parser.Trace()) && buffer != "" && |buffer| < INT_LIMIT
      modifies this, parser, body
      ensures totalReqSize == old(totalReqSize)
      ensures match Run'(SettingsOf(true), old(parser.After()), buffer)
              case Failed => nparsed < |buffer|
              case Stopped(s, rest) => nparsed == |buffer| - |rest| && Taken(s)
              case Ready(s) => nparsed == |buffer| && Taken(s)
    {
      hide Run, HttpRun.Valid, Fold, Completions, EndsOnce, Phase, FormFits, Excused;
      ghost var before, log := parser.After(), parser.log;
      if parser.fields.errno.OK? {
        LineStays(SettingsOf(true), before, buffer);
        SameRequest(SettingsOf(true), before, buffer, true);
        RunIsClean(before, buffer);
      }
      MergedCounts(log);
      FormFitsMerged(log);
      nparsed := parser.Execute(buffer);
      assert parser.log[..|log|] == log;
      MakeCallbacks();
      MergedCounts(parser.log);
      FormFitsMerged(parser.log);
      WholeRequest(LineOf(parser.fields), log, parser.log);
    }

    lemma FormFitsMerged(log: Trace)
      ensures FormFits(Merge([], log)) <==> FormFits(log)
    {
      hide FormOf;
      MergedCounts(log);
    }

    /**
     Takes what has been read from the connection. While there is one message and nothing after it, the
     request is the one that the whole text stands for, however it was cut.
     */
    method ParseRequest(buffer: string) returns (ret: int)
      requires Valid() && Early(parser.Trace()) && buffer != "" && |buffer| < INT_LIMIT
      modifies this, parser, body
      ensures totalReqSize == old(totalReqSize) + |buffer|
      ensures totalReqSize > 10485760 ==> ret == -1
      ensures totalReqSize <= MAX_REQ_SIZE ==>
                match Run'(SettingsOf(true), old(parser.After()), buffer)
                case Failed => ret == -1
                case Stopped(s, rest) => if rest == "" then Taken(s)
                                         && (Early(s.trace) ==> ret == Outcome(RequestOf(s))) else ret == -1
                case Ready(s) => Taken(s) && (Early(s.trace) ==> ret == Outcome(RequestOf(s)))
      ensures Early(parser.Trace()) ==> ret != PARSE_LEN_REQUIRED
    {
      hide Run, HttpRun.Valid, Fold, Completions, EndsOnce, Phase, FormFits;
      totalReqSize := totalReqSize + |buffer|;
      if totalReqSize > MAX_REQ_SIZE {
        return -1;
      }
      var nparsed := Take(buffer);
      if nparsed != |buffer| {
        return -1;
      }
      assert Early(parser.Trace()) ==> parseErr != PARSE_LEN_REQUIRED;
      if parseErr != 0 {
        return parseErr;
      }
      if parsePart != PARSE_REQ_OVER {
        return NEED_MORE_STATUS;
      }
      return 0;
    }
  }

  function ReadAll(x: string): Result {
    StartIsRight();
    Run(SettingsOf(true), Stream(InitFields(HttpRequest), []), x)
  }

  lemma StartIsRight()
    ensures var f := InitFields(HttpRequest); Valid(f) && f.errno.OK? && Phase(Stream(f, []), None)
  {
  }

  /** The text holds one message and nothing after it: no proper beginning completes a message. */
  ghost predicate OneMessage(x: string) {
    forall k | 0 <= k < |x| :: Unfinished(x[..k])
  }

  predicate Unfinished(x: string) {
    var r := ReadAll(x);
    r.Failed? || (r.Ready? && Completions(r.s.trace) == 0)
  }

  lemma {:induction false} Prefixes(parts: seq<string>, i: nat)
    requires i < |parts| && forall x <- parts :: x != ""
    ensures |HttpFeed.Concat(parts[..i])| < |HttpFeed.Concat(parts)|
    ensures HttpFeed.Concat(parts[..i]) == HttpFeed.Concat(parts)[..|HttpFeed.Concat(parts[..i])|]
  {
    HttpFeed.ConcatSplit(parts, i);
    HttpFeed.ConcatSplit(parts[i..], 1);
    assert parts[i] in parts && parts[i..][..1] == [parts[i]] && [parts[i]][..0] == [];
  }

  lemma ReadOn(x: string, y: string)
    ensures var r := ReadAll(x);
            && (r.Ready? ==> ReadAll(x + y) == Run'(SettingsOf(true), r.s, y))
            && (r.Ready? ==> r.s.f.errno.OK?)
            && (!r.Ready? && !r.Stopped? ==> ReadAll(x + y).Failed?)
  {
    hide Run, Valid;
    StartIsRight();
    var s := Stream(InitFields(HttpRequest), []);
    RunAppend(SettingsOf(true), s, x, y);
    HttpFeed.ReadyIsOk(SettingsOf(true), s, x);
  }

  /** One step of the server's reading: a message that is not finished asks for more. */
  lemma UnfinishedAsksForMore(x: string)
    requires ReadAll(x).Ready? && Completions(ReadAll(x).s.trace) == 0
    ensures Outcome(RequestOf(ReadAll(x).s)) == 1
  {
    hide Run, Fold;
    var start, r := Stream(InitFields(HttpRequest), []), ReadAll(x);
    StartIsRight();
    FoldNothing(LineOf(start.f));
    RunIsClean(start, x);
    HttpFeed.ReadyIsOk(SettingsOf(true), start, x);
    NotOverYet(LineOf(r.s.f), r.s.trace);
  }

  lemma {:induction false} NotOverYet(l: Line, t: Trace)
    requires Completions(t) == 0
    ensures Fold(NewReq, l, t, true).part != PARSE_REQ_OVER
  {
    hide Handle;
    if t != [] {
      NotOverYet(l, t[..|t| - 1]);
      NotOver(Fold(NewReq, l, t[..|t| - 1], true), l, t[|t| - 1]);
    }
  }

  /** What the last byte of the one message leads to. */
  lemma LastByte(x: string)
    requires OneMessage(x) && x != ""
    ensures var r := ReadAll(x); r.Failed? || (Early(r.s.trace) && (r.Stopped? ==> r.rest == ""))
  {
    hide Run, Step, Several, Completions, EndsOnce;
    StartIsRight();
    var s := Stream(InitFields(HttpRequest), []);
    var front := x[..|x| - 1];
    assert Unfinished(front);
    RunLast(SettingsOf(true), s, x);
    if ReadAll(front).Ready? {
      LineStays(SettingsOf(true), s, front);
      StepLine(SettingsOf(true), ReadAll(front).s, x[|x| - 1]);
      if !ReadAll(x).Failed? {
        NotSeveral(ReadAll(x));
      }
    }
  }

  lemma NotSeveral(r: Result)
    requires r.Ready? || r.Stopped?
    ensures !Several(r.s.trace) <==> Early(r.s.trace)
  {
  }

  /** The request stands where reading `x` leads, and wants more. */
  ghost predicate Reading(request: Request, x: string)
    reads request, request.parser, request.body
  {
    && request.Valid() && ReadAll(x).Ready? && ReadAll(x).s.f.errno.OK? && Completions(ReadAll(x).s.trace) == 0
    && request.parser.After() == ReadAll(x).s
  }

  /** The request and the result are those of the whole text. */
  ghost predicate Received(request: Request, ret: int, x: string)
    reads request, request.body
  {
    var r := ReadAll(x);
    if r.Failed? then ret == -1
    else Early(r.s.trace) && ret == Outcome(RequestOf(r.s)) && request.View() == RequestOf(r.s)
         && (ret == 0 ==> request.body.form == FormOf(RequestOf(r.s)))
  }

  /** One more read. */
  method ReadPart(request: Request, ghost x: string, part: string) returns (ret: int)
    requires Reading(request, x) && part != "" && |part| < INT_LIMIT && request.totalReqSize + |part| <= MAX_REQ_SIZE
    requires OneMessage(x + part) || Unfinished(x + part)
    modifies request, request.parser, request.body
    ensures request.totalReqSize == old(request.totalReqSize) + |part|
    ensures Received(request, ret, x + part)
    ensures Unfinished(x + part) && ret != -1 ==> ret == 1 && Reading(request, x + part)
    ensures Unfinished(x + part) && ret == -1 ==> ReadAll(x + part).Failed?
  {
    hide Run, HttpRun.Valid, Outcome, RequestOf, FormOf, Completions, ReadAll, Phase, OneMessage, Excused;
    ReadOn(x, part);
    ghost var r := ReadAll(x + part);
    if !Unfinished(x + part) {
      LastByte(x + part);
    } else if r.Ready? {
      UnfinishedAsksForMore(x + part);
      ReadOn(x + part, "");
    }
    ret := request.ParseRequest(part);
    if r.Ready? || r.Stopped? {
      OverIsFinal(RequestOf(r.s));
      FitsAtEnd(request, r.s);
    }
  }

  lemma OverIsFinal(q: Req)
    ensures Outcome(q) == 0 ==> q.parseErr == 0 && q.part == PARSE_REQ_OVER
  {
  }

  /** A request that is over has its form. */
  lemma FitsAtEnd(request: Request, s: Stream)
    requires request.Taken(s) && Early(s.trace)
    ensures request.parsePart == PARSE_REQ_OVER && request.parseErr == 0 ==> request.body.form == FormOf(request.View())
  {
    hide FormOf, Phase, Excused, HttpRun.Valid;
  }

  /**
   Reads one request from a connection. Every partition of its text into reads gives the same result and
   the same request: method, URL, version, headers, raw body and form.
   */
  method ReceiveRequest(parts: seq<string>) returns (ret: int, request: Request)
    requires HttpFeed.AreBuffers(parts) && parts != []
    requires OneMessage(HttpFeed.Concat(parts)) && |HttpFeed.Concat(parts)| <= MAX_REQ_SIZE
    ensures Received(request, ret, HttpFeed.Concat(parts))
  {
    hide Reading, Received, ReadAll, Completions;
    request := new Request();
    ret := NEED_MORE_STATUS;
    ghost var x := HttpFeed.Concat(parts);
    var i := 0;
    StartReading(request);
    assert parts[..0] == [];
    while i < |parts| && ret == NEED_MORE_STATUS
      invariant i <= |parts| && fresh(request) && fresh(request.parser) && fresh(request.body)
      invariant request.totalReqSize == |HttpFeed.Concat(parts[..i])|
      invariant if i == |parts| then Received(request, ret, x)
                else if ret == NEED_MORE_STATUS then Reading(request, HttpFeed.Concat(parts[..i]))
                else ret == -1 && ReadAll(x).Failed?
    {
      Prefixes(parts, i);
      ghost var done := HttpFeed.Concat(parts[..i]);
      assert parts[i] in parts && parts[..i + 1][..i] == parts[..i];
      assert HttpFeed.Concat(parts[..i + 1]) == done + parts[i];
      if i + 1 < |parts| {
        Prefixes(parts, i + 1);
        HttpFeed.ConcatSplit(parts, i + 1);
        ReadOn(done + parts[i], HttpFeed.Concat(parts[i + 1..]));
      } else {
        assert parts[..i + 1] == parts;
      }
      ret := ReadPart(request, done, parts[i]);
      i := i + 1;
    }
    if i < |parts| {
      FailedIsReceived(request, x);
    }
  }

  lemma FailedIsReceived(request: Request, x: string)
    requires ReadAll(x).Failed?
    ensures Received(request, -1, x)
  {
    hide ReadAll;
  }

  lemma StartReading(request: Request)
    requires request.Valid() && request.parser.After() == Stream(InitFields(HttpRequest), [])
    ensures Reading(request, HttpFeed.Concat([]))
  {
    StartIsRight();
  }
}
