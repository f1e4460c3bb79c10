/**
 The HTTP parser read one byte at a time: the simple form, in which every byte is a buffer of its own
 and every data callback delivers at most that byte.
 */
module HttpRun {
  import opened Options
  import opened Traces
  import opened HttpTypes
  import opened HttpVisit

  /** What a client can read off the parser about the request line. */
  datatype Line = Line(verb: Method, major: nat, minor: nat)

  /**
   The two callbacks whose return value matters, as functions of the request line and of the callbacks
   made so far; all other callbacks return 0.
   */
  datatype Settings = Settings(headersComplete: (Line, Trace) -> int, messageComplete: (Line, Trace) -> int)

  const AllZero := Settings((_, _) => 0, (_, _) => 0)

  /** A parser between two bytes: its fields, and the merged trace of its callbacks. */
  datatype Stream = Stream(f: Fields, trace: Trace)

  /**
   What bytes do to a parser: it waits for more, it stops with some bytes unread (after an upgrade or
   because the last callback objects), or it fails.
   */
  datatype Result = Ready(s: Stream) | Stopped(s: Stream, rest: string) | Failed

  function LineOf(f: Fields): Line {
    Line(f.verb, f.major, f.minor)
  }

  // ----- What holds in every reachable state -----

  /** The largest index at which a word is still being matched; no index exceeds 16. */
  function Room(h: HeaderState): (r: nat)
    ensures r <= 16
  {
    match h
    case C => 0 case CO => 1 case CON => 2
    case MatchingConnection => 8 case MatchingProxyConnection => 14 case MatchingContentLength => 12
    case MatchingTransferEncoding => 15 case MatchingUpgrade => 5
    case MatchingChunked => 5 case MatchingKeepAlive => 8 case MatchingClose => 3 case MatchingConnUpgrade => 5
    case TokenStart => 0
    case _ => 16
  }

  /** What the matchers of names and values need; `index` stays within its seven bits. */
  predicate HeaderSound(f: Fields) {
    && f.index <= 16
    && (f.state.ReqMethod? ==> f.index <= |MethodName(f.verb)|)
    && (f.state.HeaderField? ==> NameState(f.headerState) && f.index <= Room(f.headerState))
    && (f.state.HeaderValue? ==>
       !f.headerState.Connection? && !f.headerState.TransferEncoding? && f.index <= Room(f.headerState))
  }

  predicate BodySound(f: Fields) {
    && f.contentLength <= ULLONG_MAX
    && (InChunks(f.state) ==> f.flags.chunked)
    && (f.flags.trailing ==> f.flags.chunked)
    && (InChunkSize(f.state) ==> f.contentLength < ULLONG_MAX)
    && (f.state.BodyIdentity? || f.state.ChunkData? ==> f.contentLength != 0 && f.contentLength != ULLONG_MAX)
    && (f.state.ChunkDataAlmostDone? ==> f.contentLength == 0)
  }

  predicate NumbersSound(f: Fields) {
    f.nread <= MAX_HEADER_SIZE && f.major <= 9 && f.minor <= 9 && f.statusCode <= 999
  }

  predicate Sound(f: Fields) {
    NumbersSound(f) && HeaderSound(f) && BodySound(f)
  }

  /** Between bytes. */
  predicate Valid(f: Fields) {
    Sound(f) && (f.state.ChunkSizeStart? ==> f.nread == 0)
  }

  /** While a byte is looked at: bytes of the header have been counted. */
  predicate Inside(f: Fields) {
    Sound(f) && (f.state.ChunkSizeStart? ==> f.nread == 1)
  }

  /** Looking at a byte again always leads to a state of lower rank. */
  function Rank(s: State): nat {
    match s
    case ResStatusCode => 5 case ResStatusStart => 4
    case HeaderValue => 5 case HeaderValueLws => 5 case HeaderValueDiscardLws => 5
    case HeaderFieldStart => 4 case HeaderAlmostDone => 3 case HeaderValueStart => 3
    case HeadersAlmostDone => 3 case HeadersDone => 2 case BodyIdentity => 2
    case _ => 1
  }

  predicate Kept(f: Fields, v: Visit) {
    && (v.next.Break? || v.next.Exit? ==> Valid(v.f))
    && (v.next.Again? ==> Inside(v.f) && Rank(v.f.state) < Rank(f.state) && !InBody(v.f.state))
    && (!v.next.Fail? ==> v.f.nread <= f.nread && v.f.errno == f.errno && v.f.ptype == f.ptype)
  }

  /** The states that `Sound` says nothing special about. */
  predicate Plain(s: State) {
    && !s.ReqMethod? && !s.HeaderField? && !s.HeaderValue? && !InChunks(s) && !s.BodyIdentity?
  }

  lemma PlainMove(f: Fields, g: Fields)
    requires Sound(f) && Plain(g.state) && g.nread <= f.nread && g.contentLength <= ULLONG_MAX && g.index <= 16
    requires g.major <= 9 && g.minor <= 9 && g.statusCode <= 999 && (g.flags.trailing ==> g.flags.chunked)
    ensures Valid(g) && Inside(g)
  {
  }

  lemma StartKeeps(f: Fields, ch: char)
    requires Inside(f) && IsStartState(f.state)
    ensures Kept(f, VisitStart(f, ch))
  {
  }

  lemma ResponseLineKeeps(f: Fields, ch: char)
    requires Inside(f) && IsResponseLineState(f.state)
    ensures Kept(f, VisitResponseLine(f, ch))
  {
    hide Sound, Valid, Inside, Digit, IsNum;
    SoundBounds(f);
    var v := VisitResponseLine(f, ch);
    if !v.next.Fail? {
      PlainMove(f, v.f);
    }
  }

  lemma SoundBounds(f: Fields)
    requires Inside(f) || Valid(f)
    ensures Sound(f) && HeaderSound(f) && f.contentLength <= ULLONG_MAX && f.nread <= MAX_HEADER_SIZE && f.index <= 16
            && f.major <= 9 && f.minor <= 9 && f.statusCode <= 999 && (f.flags.trailing ==> f.flags.chunked)
  {
  }

  lemma MethodKeeps(f: Fields, ch: char)
    requires Inside(f) && f.state.ReqMethod?
    ensures Kept(f, VisitMethod(f, ch))
  {
    hide SwitchMethod, MethodName;
    SwitchKeeps(f.verb, f.index, ch);
  }

  /** The byte at which a name turns out to be another one is within that name. */
  lemma SwitchKeeps(m: Method, i: nat, c: char)
    ensures SwitchMethod(m, i, c).0 ==> i + 1 <= |MethodName(SwitchMethod(m, i, c).1)|
  {
  }

  lemma UrlKeeps(f: Fields, ch: char)
    requires Inside(f) && (f.state.ReqSpacesBeforeUrl? || IsUrlState(f.state))
    ensures Kept(f, VisitUrl(f, ch))
  {
    hide Sound, Valid, Inside, ParseUrlChar;
    SoundBounds(f);
    var v := VisitUrl(f, ch);
    if !v.next.Fail? {
      PlainMove(f, v.f);
    }
  }

  lemma VersionKeeps(f: Fields, ch: char)
    requires Inside(f) && IsVersionState(f.state)
    ensures Kept(f, VisitVersion(f, ch))
  {
    hide Sound, Valid, Inside, Digit, IsNum;
    SoundBounds(f);
    var v := VisitVersion(f, ch);
    if !v.next.Fail? {
      PlainMove(f, v.f);
    }
  }

  lemma FieldStartKeeps(f: Fields, ch: char)
    requires Inside(f) && f.state.HeaderFieldStart?
    ensures Kept(f, VisitFieldStart(f, ch))
  {
    hide Sound, HeaderSound, Valid, Inside, TokenOf;
    SoundBounds(f);
    var v := VisitFieldStart(f, ch);
    if ch == '\r' || ch == '\n' {
      PlainMove(f, v.f);
    } else if !v.next.Fail? {
      FieldStartSound(v.f);
      HeaderMove(f, v.f);
    }
  }

  lemma FieldStartSound(g: Fields)
    requires g.index == 0 && g.state.HeaderField?
    requires g.headerState in {General, C, MatchingProxyConnection, MatchingTransferEncoding, MatchingUpgrade}
    ensures HeaderSound(g)
  {
  }

  /** Within a header, only the matcher needs care. */
  lemma HeaderMove(f: Fields, g: Fields)
    requires Sound(f) && HeaderSound(g) && (g.state.HeaderField? || g.state.HeaderValue?)
    requires g.nread <= f.nread && g.contentLength <= ULLONG_MAX && (g.flags.trailing ==> g.flags.chunked)
    requires g.major == f.major && g.minor == f.minor && g.statusCode == f.statusCode
    ensures Valid(g) && Inside(g)
  {
  }

  lemma MatchKeeps(h: HeaderState, i: nat, word: string, c: char, miss: HeaderState, hit: HeaderState)
    requires i <= Room(h) && Room(h) + 2 == |word| <= 17 && Room(hit) == Room(miss) == 16
    ensures var (h', i') := Match(h, i, word, c, miss, hit);
            (h' == h || h' == miss || h' == hit) && i' <= Room(h')
  {
    hide At;
  }

  lemma NextNameKeeps(h: HeaderState, i: nat, ch: char, c: char)
    requires NameState(h) && i <= Room(h)
    ensures var (h', i') := NextName(h, i, ch, c); NameState(h') && i' <= Room(h')
  {
    hide Match, ConnectionWord, ProxyConnectionWord, ContentLengthWord, TransferEncodingWord, UpgradeWord;
    match h
    case MatchingConnection => MatchKeeps(h, i, ConnectionWord(), c, General, Connection);
    case MatchingProxyConnection => MatchKeeps(h, i, ProxyConnectionWord(), c, General, Connection);
    case MatchingContentLength => MatchKeeps(h, i, ContentLengthWord(), c, General, ContentLength);
    case MatchingTransferEncoding => MatchKeeps(h, i, TransferEncodingWord(), c, General, TransferEncoding);
    case MatchingUpgrade => MatchKeeps(h, i, UpgradeWord(), c, General, Upgrade);
    case _ =>
  }

  lemma NameByteKeeps(f: Fields, ch: char, c: char)
    requires HeaderSound(f) && f.state.HeaderField?
    ensures HeaderSound(NameByte(f, ch, c))
  {
    hide NextName, Room;
    NextNameKeeps(f.headerState, f.index, ch, c);
  }

  lemma FieldKeeps(f: Fields, ch: char)
    requires Inside(f) && f.state.HeaderField?
    ensures Kept(f, VisitField(f, ch))
  {
    hide Sound, HeaderSound, Valid, Inside, NextName, TokenOf;
    SoundBounds(f);
    var c, v := TokenOf(ch), VisitField(f, ch);
    if c != '\0' {
      NameByteKeeps(f, ch, c);
      HeaderMove(f, v.f);
    } else if !v.next.Fail? {
      PlainMove(f, v.f);
    }
  }

  lemma ValueStartKeeps(f: Fields, ch: char)
    requires Inside(f) && (f.state.HeaderValueStart? || f.state.HeaderValueDiscardWs?)
    ensures Kept(f, VisitValueStart(f, ch))
  {
    hide Sound, Valid, Inside, Lower;
    SoundBounds(f);
    var v := VisitValueStart(f, ch);
    if !v.next.Fail? {
      HeaderMove(f, v.f);
    }
  }

  lemma NextTokenKeeps(h: HeaderState, i: nat, ch: char, c: char)
    requires i <= Room(h)
    ensures var (h', i') := NextToken(h, i, ch, c); !h'.Connection? && !h'.TransferEncoding? && i' <= Room(h')
  {
    hide Match, ChunkedWord, KeepAliveWord, CloseWord, UpgradeWord, TokenOf;
    match h
    case MatchingChunked => MatchKeeps(h, i, ChunkedWord(), c, General, Chunked);
    case MatchingKeepAlive => MatchKeeps(h, i, KeepAliveWord(), c, Token, KeepAlive);
    case MatchingClose => MatchKeeps(h, i, CloseWord(), c, Token, Close);
    case MatchingConnUpgrade => MatchKeeps(h, i, UpgradeWord(), c, Token, ConnUpgrade);
    case _ =>
  }

  lemma TokenByteKeeps(f: Fields, ch: char, c: char)
    requires HeaderSound(f) && f.state.HeaderValue?
    ensures HeaderSound(TokenByte(f, ch, c))
  {
    hide NextToken, Room;
    NextTokenKeeps(f.headerState, f.index, ch, c);
  }

  /** What a byte of a value may change. */
  predicate ValueMove(f: Fields, g: Fields) {
    && HeaderSound(g) && g.contentLength <= ULLONG_MAX
    && g == f.(index := g.index, headerState := g.headerState, contentLength := g.contentLength, flags := g.flags)
    && g.flags.trailing == f.flags.trailing && g.flags.chunked == f.flags.chunked
  }

  lemma ValueByteKeeps(f: Fields, ch: char)
    requires HeaderSound(f) && f.state.HeaderValue? && f.contentLength <= ULLONG_MAX
    ensures var v := ValueByte(f, ch);
            v.next.Fail? || (v.op.Nop? && v.next.Break? && ValueMove(f, v.f))
  {
    hide NextToken, MulAdd64, Lower, IsHeaderChar;
    TokenByteKeeps(f, ch, Lower(ch));
  }

  lemma FinishedFlagsChunked(f: Fields)
    ensures FinishedFlags(f).trailing == f.flags.trailing && (f.flags.chunked ==> FinishedFlags(f).chunked)
  {
  }

  lemma ValueBlankKeeps(f: Fields, ch: char)
    requires Inside(f) && IsBlankState(f.state)
    ensures Kept(f, VisitValueBlank(f, ch))
  {
    hide Sound, Valid, Inside, VisitValueStart, FinishedFlags;
    SoundBounds(f);
    FinishedFlagsChunked(f);
    var v := VisitValueBlank(f, ch);
    if f.state.HeaderValueDiscardWs? && ch != ' ' && ch != '\t' && !IsLineEnd(ch) {
      ValueStartKeeps(f, ch);
    } else if !v.next.Fail? {
      PlainMove(f, v.f);
    }
  }

  lemma ValueKeeps(f: Fields, ch: char)
    requires Inside(f) && f.state.HeaderValue?
    ensures Kept(f, VisitValue(f, ch))
  {
    hide Sound, HeaderSound, Valid, Inside, ValueByte;
    SoundBounds(f);
    var v := VisitValue(f, ch);
    if ch == '\r' || ch == '\n' {
      PlainMove(f, v.f);
    } else {
      ValueByteKeeps(f, ch);
      if !v.next.Fail? {
        HeaderMove(f, v.f);
      }
    }
  }

  lemma HeadersEndKeeps(f: Fields, ch: char)
    requires Inside(f) && IsHeadersEndState(f.state)
    ensures Kept(f, VisitHeadersEnd(f, ch))
  {
    hide HeaderSound, NumbersSound, NewMessage;
    SoundBounds(f);
    NewMessagePlain(f);
    var v := VisitHeadersEnd(f, ch);
    if v.f.state.ChunkSizeStart? || v.f.state.BodyIdentity? {
      BodyMove(f, v.f);
    } else if !v.next.Fail? {
      PlainMove(f, v.f);
    }
  }

  lemma NewMessagePlain(f: Fields)
    ensures IsStartState(NewMessage(f)) && Plain(NewMessage(f))
  {
  }

  /** Outside a header, only the body needs care. */
  lemma BodyMove(f: Fields, g: Fields)
    requires Sound(f) && BodySound(g) && !g.state.HeaderField? && !g.state.HeaderValue? && !g.state.ReqMethod?
    requires g == f.(state := g.state, nread := g.nread, contentLength := g.contentLength, flags := g.flags)
             && g.nread <= f.nread
    requires g.state.ChunkSizeStart? ==> g.nread == 0
    ensures Valid(g)
  {
  }

  lemma BodyKeeps(f: Fields, ch: char)
    requires Inside(f) && (f.state.BodyIdentity? || f.state.BodyIdentityEof? || f.state.MessageDone?
                           || f.state.ChunkData? || f.state.ChunkDataAlmostDone? || f.state.ChunkDataDone?)
    ensures Kept(f, VisitBody(f, ch))
  {
    hide HeaderSound, NumbersSound, NewMessage;
    SoundBounds(f);
    NewMessagePlain(f);
    var v := VisitBody(f, ch);
    if v.next.Again? {
      PlainMove(f, v.f);
    } else if !v.next.Fail? {
      BodyMove(f, v.f);
    }
  }

  /** The conservative test before a digit is appended rules out wrap-around and the sentinel. */
  lemma NoWrap(n: nat, base: nat, digit: nat)
    requires (base == 10 || base == 16) && digit < base && n <= (ULLONG_MAX - base) / base
    ensures MulAdd64(n, base, digit) == n * base + digit < ULLONG_MAX
  {
  }

  lemma ChunkSizeKeeps(f: Fields, ch: char)
    requires Inside(f) && IsChunkSizeState(f.state)
    ensures Kept(f, VisitChunkSize(f, ch))
  {
    hide HeaderSound, NumbersSound, MulAdd64, Unhex;
    var v := VisitChunkSize(f, ch);
    if f.state.ChunkSize? && Unhex(ch) != -1 && f.contentLength <= (ULLONG_MAX - 16) / 16 {
      NoWrap(f.contentLength, 16, Unhex(ch));
    }
    if !v.next.Fail? {
      BodyMove(f, v.f);
    }
  }

  /** Every visit keeps the reachable states, and every second look at a byte lowers the rank. */
  lemma VisitKeeps(f: Fields, ch: char)
    requires Inside(f)
    ensures Asserts(f) && Kept(f, VisitState(f, ch))
  {
    hide Kept, VisitStart, VisitResponseLine, VisitMethod, VisitUrl, VisitVersion, VisitFieldStart, VisitField,
      VisitValueBlank,
      VisitValueStart, VisitValue, VisitHeadersEnd, VisitBody, VisitChunkSize;
    var s := f.state;
    if s.HeaderField? { FieldKeeps(f, ch); }
    else if s.HeaderValue? { ValueKeeps(f, ch); }
    else if IsStartState(s) { StartKeeps(f, ch); }
    else if IsResponseLineState(s) { ResponseLineKeeps(f, ch); }
    else if s.ReqMethod? { MethodKeeps(f, ch); }
    else if s.ReqSpacesBeforeUrl? || IsUrlState(s) { UrlKeeps(f, ch); }
    else if IsVersionState(s) { VersionKeeps(f, ch); }
    else if s.HeaderFieldStart? { FieldStartKeeps(f, ch); }
    else if IsBlankState(s) { ValueBlankKeeps(f, ch); }
    else if s.HeaderValueStart? { ValueStartKeeps(f, ch); }
    else if IsHeadersEndState(s) { HeadersEndKeeps(f, ch); }
    else if IsChunkSizeState(s) { ChunkSizeKeeps(f, ch); }
    else { BodyKeeps(f, ch); }
  }

  // ----- One byte -----

  /** The mark that a parser in this state sets at the start of a buffer. */
  function InitialMark(s: State): Option<Kind> {
    if s.HeaderField? then Some(OnHeaderField)
    else if s.HeaderValue? then Some(OnHeaderValue)
    else if IsUrlState(s) then Some(OnUrl)
    else if s.ResStatus? then Some(OnStatus)
    else None
  }

  /** The callbacks of one visit in a one-byte buffer, where a mark before the byte delivers nothing. */
  function TraceOp(t: Trace, op: Op, mark: Option<Kind>, ch: char): Trace {
    match op
    case Call(k) => if mark == Some(k) then Emit(t, Data(k, "")) else t
    case MarkCall(k) => Emit(t, Data(k, ""))
    case Notify(n) => Emit(t, Note(n))
    case TakeBody => Emit(t, Data(OnBody, [ch]))
    case _ => t
  }

  function MarkOp(op: Op, mark: Option<Kind>): Option<Kind> {
    match op
    case Mark(k) => if mark.None? then Some(k) else mark
    case Call(k) => if mark == Some(k) then None else mark
    case MarkCall(_) => None
    case TakeBody => None
    case _ => mark
  }

  /** At the end of the buffer a mark that is left delivers the byte. */
  function TraceEnd(t: Trace, mark: Option<Kind>, ch: char): Trace {
    if mark.Some? then Emit(t, Data(mark.value, [ch])) else t
  }

  /** What the client's answer to the callback of a visit makes of it. */
  function Respond(cfg: Settings, v: Visit, t: Trace): (Fields, Next) {
    if v.op == Notify(OnHeadersComplete) then
      var answer := cfg.headersComplete(LineOf(v.f), t);
      if answer == 0 then (v.f, v.next)
      else if answer == 1 then (v.f.(flags := v.f.flags.(skipBody := true)), v.next)
      else if answer == 2 then (v.f.(flags := v.f.flags.(skipBody := true), upgrade := true), v.next)
      else (v.f.(errno := CbHeadersComplete), Fail(CbHeadersComplete))
    else if v.op == Notify(OnMessageComplete) && cfg.messageComplete(LineOf(v.f), t) != 0 then
      (v.f.(errno := CbMessageComplete), Exit)
    else (v.f, v.next)
  }

  lemma RespondKeeps(cfg: Settings, f: Fields, v: Visit, t: Trace)
    requires Inside(f) && Kept(f, v) && !v.next.Fail?
    requires v.op == Notify(OnHeadersComplete) ==> v.next.Again?
    requires v.op == Notify(OnMessageComplete) ==> v.next.Break? || v.next.Exit?
    ensures var (g, next) := Respond(cfg, v, t);
            && (next.Break? || next.Exit? ==> Valid(g))
            && (next.Again? ==> Inside(g) && Rank(g.state) < Rank(f.state))
            && (next.Break? || next.Again? ==> g.errno == f.errno)
            && g.ptype == f.ptype && g.nread <= f.nread && g.state == v.f.state
  {
  }

  /** Which visits notify whom, and when they go on. */
  lemma VisitNotifies(f: Fields, ch: char)
    requires Asserts(f)
    ensures var v := VisitState(f, ch);
            && (v.op == Notify(OnHeadersComplete) ==> v.next.Again?)
            && (v.op == Notify(OnMessageComplete) ==> v.next.Break? || v.next.Exit?)
            && (v.next.Exit? ==> v.op == Notify(OnMessageComplete))
  {
    hide VisitMethod, VisitUrl, VisitVersion, VisitResponseLine, VisitFieldStart, VisitField, VisitValue,
      VisitValueBlank, VisitValueStart;
  }

  /** The visits that one byte leads to. */
  function Visits(cfg: Settings, s: Stream, ch: char, mark: Option<Kind>): (r: Result)
    requires Inside(s.f) && s.f.errno.OK?
    ensures r.Ready? ==> Valid(r.s.f) && r.s.f.errno.OK?
    ensures r.Stopped? ==> Valid(r.s.f) && r.rest == ""
    decreases Rank(s.f.state)
  {
    VisitKeeps(s.f, ch);
    VisitNotifies(s.f, ch);
    var v := VisitState(s.f, ch);
    if v.next.Fail? then Failed else
      var t := TraceOp(s.trace, v.op, mark, ch);
      var m := MarkOp(v.op, mark);
      RespondKeeps(cfg, s.f, v, t);
      var (g, next) := Respond(cfg, v, t);
      match next
      case Fail(_) => Failed
      case Exit => Stopped(Stream(g, t), "")
      case Break => Ready(Stream(g, TraceEnd(t, m, ch)))
      case Again => Visits(cfg, Stream(g, t), ch, m)
  }

  /** COUNT_HEADER_SIZE(1): a byte of the header is counted before it is looked at. */
  function Counted(f: Fields): Fields {
    if ParsingHeader(f.state) then f.(nread := f.nread + 1) else f
  }

  lemma CountedInside(f: Fields)
    requires Valid(f) && Counted(f).nread <= MAX_HEADER_SIZE
    ensures Inside(Counted(f)) && Asserts(Counted(f))
  {
    VisitKeeps(Counted(f), ' ');
  }

  function Step(cfg: Settings, s: Stream, ch: char): (r: Result)
    requires Valid(s.f)
    ensures r.Ready? ==> Valid(r.s.f) && r.s.f.errno.OK?
    ensures r.Stopped? ==> Valid(r.s.f) && r.rest == ""
  {
    if !s.f.errno.OK? || Counted(s.f).nread > MAX_HEADER_SIZE then Failed
    else Visits(cfg, Stream(Counted(s.f), s.trace), ch, InitialMark(s.f.state))
  }

  // ----- Many bytes -----

  /** Reads a text byte by byte. */
  function Run(cfg: Settings, s: Stream, x: string): (r: Result)
    requires Valid(s.f)
    ensures r.Ready? ==> Valid(r.s.f)
    ensures r.Stopped? ==> Valid(r.s.f) && |r.rest| < |x|
    decreases |x|, 0
  {
    if x == "" then Ready(s) else Then(cfg, Step(cfg, s, x[0]), x[1..])
  }

  /** Goes on reading after the bytes that led to `r`. */
  function Then(cfg: Settings, r: Result, x: string): (r': Result)
    requires r.Ready? || r.Stopped? ==> Valid(r.s.f)
    ensures r'.Ready? ==> Valid(r'.s.f)
    ensures r'.Stopped? ==> Valid(r'.s.f) && (r.Ready? ==> |r'.rest| < |x|) && (r.Stopped? ==> r'.rest == r.rest + x)
    decreases |x|, 1
  {
    match r
    case Ready(s) => Run(cfg, s, x)
    case Stopped(s, rest) => Stopped(s, rest + x)
    case Failed => Failed
  }

  lemma {:induction false} RunAppend(cfg: Settings, s: Stream, a: string, b: string)
    requires Valid(s.f)
    ensures Run(cfg, s, a + b) == Then(cfg, Run(cfg, s, a), b)
    decreases |a|
  {
    hide Step;
    if a == "" {
      assert a + b == b;
    } else {
      assert (a + b)[1..] == a[1..] + b;
      match Step(cfg, s, a[0])
      case Ready(s') => RunAppend(cfg, s', a[1..], b);
      case Stopped(s', _) => assert "" + a[1..] + b == "" + (a[1..] + b);
      case Failed =>
    }
  }

  /** A byte whose visit moves on without asking the client. */
  lemma PlainStep(cfg: Settings, f: Fields, t: Trace, ch: char)
    requires Valid(f) && f.errno.OK? && Counted(f).nread <= MAX_HEADER_SIZE
    ensures Asserts(Counted(f))
    ensures var v := VisitState(Counted(f), ch);
            var t' := TraceOp(t, v.op, InitialMark(f.state), ch);
            && (v.next.Fail? ==> Step(cfg, Stream(f, t), ch).Failed?)
            && (v.next.Break? && v.op != Notify(OnMessageComplete) && v.op != Notify(OnHeadersComplete) ==>
                  Step(cfg, Stream(f, t), ch)
                  == Ready(Stream(v.f, TraceEnd(t', MarkOp(v.op, InitialMark(f.state)), ch))))
  {
    hide VisitState, Emit;
    VisitKeeps(Counted(f), ch);
  }

  lemma NextByte(cfg: Settings, s: Stream, text: string, i: nat, s': Stream)
    requires Valid(s.f) && i < |text| && Step(cfg, s, text[i]) == Ready(s')
    ensures Valid(s'.f) && Run(cfg, s, text[i..]) == Run(cfg, s', text[i + 1..])
  {
    hide Step;
    assert text[i..][0] == text[i] && text[i..][1..] == text[i + 1..];
  }

  lemma RunNothing(cfg: Settings, s: Stream)
    requires Valid(s.f)
    ensures Run(cfg, s, "") == Ready(s)
  {
  }

  /** A new parser. */
  lemma InitIsValid(t: ParserType)
    ensures var f := InitFields(t); Valid(f) && f.errno.OK? && f.nread == 0
  {
  }

  lemma RunOne(cfg: Settings, s: Stream, ch: char)
    requires Valid(s.f)
    ensures Run(cfg, s, [ch]) == Step(cfg, s, ch)
  {
    hide Step;
    var r := Step(cfg, s, ch);
    assert [ch][1..] == "";
    if r.Ready? {
      assert Run(cfg, r.s, "") == Ready(r.s);
    } else if r.Stopped? {
      assert r.rest + "" == r.rest;
    }
  }

  /** The last byte of a text is read after the others. */
  lemma RunLast(cfg: Settings, s: Stream, x: string)
    requires Valid(s.f) && x != ""
    ensures var front := Run(cfg, s, x[..|x| - 1]);
            && (front.Failed? ==> Run(cfg, s, x).Failed?)
            && (front.Ready? ==> Run(cfg, s, x) == Step(cfg, front.s, x[|x| - 1]))
  {
    hide Step, Run;
    var front, last := x[..|x| - 1], x[|x| - 1];
    assert x == front + [last];
    RunAppend(cfg, s, front, [last]);
    if Run(cfg, s, front).Ready? {
      RunOne(cfg, Run(cfg, s, front).s, last);
    }
  }
}
