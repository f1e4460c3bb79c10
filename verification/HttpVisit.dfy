/**
 The state switch of the HTTP parser: what one visit to a state does with the byte at hand. A visit
 may set a mark, make a callback, and either move on to the next byte, have the byte looked at again
 in another state, stop there, or fail.

 For the states whose bytes the parser takes in bulk a visit takes one byte, as with a one-byte buffer.
 */
module HttpVisit {
  import opened Traces
  import opened HttpTypes

  /** `TakeBody` is a body callback that includes the byte at hand. */
  datatype Op = Nop | Mark(kind: Kind) | Call(kind: Kind) | MarkCall(kind: Kind) | Notify(notice: Notice) | TakeBody

  datatype Next = Break | Again | Exit | Fail(errno: Errno)

  datatype Visit = Visit(f: Fields, op: Op, next: Next)

  /** No notification, and so no way out. */
  predicate Silent(v: Visit) {
    !v.op.Notify? && !v.next.Exit?
  }

  function Go(f: Fields, s: State): Visit {
    Visit(f.(state := s), Nop, Break)
  }

  function Bad(f: Fields, e: Errno): Visit {
    Visit(f, Nop, Fail(e))
  }

  /** STRICT_CHECK and its relatives: one byte is right, any other an error. */
  function Need(f: Fields, ok: bool, s: State, e: Errno): Visit {
    if ok then Go(f, s) else Bad(f, e)
  }

  predicate IsLineEnd(c: char) {
    c == '\r' || c == '\n'
  }

  // ----- Between messages -----

  function MessageNeedsEof(f: Fields): bool {
    if f.ptype.HttpRequest? then false
    else if f.statusCode / 100 == 1 || f.statusCode == 204 || f.statusCode == 304 || f.flags.skipBody then false
    else !(f.flags.chunked || f.contentLength != ULLONG_MAX)
  }

  function ShouldKeepAlive(f: Fields): bool {
    (if f.major > 0 && f.minor > 0 then !f.flags.close else f.flags.keepAlive) && !MessageNeedsEof(f)
  }

  /** NEW_MESSAGE in strict mode. */
  function NewMessage(f: Fields): State {
    if !ShouldKeepAlive(f) then Dead else if f.ptype.HttpRequest? then StartReq else StartRes
  }

  function FirstMethod(c: char): (m: (bool, Method)) {
    match c
    case 'A' => (true, ACL) case 'B' => (true, BIND) case 'C' => (true, CONNECT) case 'D' => (true, DELETE)
    case 'G' => (true, GET) case 'H' => (true, HEAD) case 'L' => (true, LOCK) case 'M' => (true, MKCOL)
    case 'N' => (true, NOTIFY) case 'O' => (true, OPTIONS) case 'P' => (true, POST) case 'R' => (true, REPORT)
    case 'S' => (true, SUBSCRIBE) case 'T' => (true, TRACE) case 'U' => (true, UNLOCK)
    case _ => (false, DELETE)
  }

  function VisitStart(f: Fields, ch: char): Visit {
    if IsLineEnd(ch) then Visit(f, Nop, Break)
    else if f.state.Dead? then Bad(f, ClosedConnection)
    else
      var f := f.(flags := NO_FLAGS, contentLength := ULLONG_MAX);
      if f.state.StartReq? then
        if !IsAlpha(ch) || !FirstMethod(ch).0 then Bad(f, InvalidMethod)
        else Visit(f.(verb := FirstMethod(ch).1, index := 1, state := ReqMethod), Notify(OnMessageBegin), Break)
      else if ch == 'H' then Visit(f.(state := ResH), Notify(OnMessageBegin), Break)
      else Bad(f, InvalidConstant)
  }

  // ----- Status line -----

  function VisitResponseLine(f: Fields, ch: char): (v: Visit)
    ensures Silent(v)
  {
    match f.state
    case ResH => Need(f, ch == 'T', ResHT, Strict)
    case ResHT => Need(f, ch == 'T', ResHTT, Strict)
    case ResHTT => Need(f, ch == 'P', ResHTTP, Strict)
    case ResHTTP => Need(f, ch == '/', ResHttpMajor, Strict)
    case ResHttpMajor => if IsNum(ch) then Go(f.(major := Digit(ch)), ResHttpDot) else Bad(f, InvalidVersion)
    case ResHttpDot => Need(f, ch == '.', ResHttpMinor, InvalidVersion)
    case ResHttpMinor => if IsNum(ch) then Go(f.(minor := Digit(ch)), ResHttpEnd) else Bad(f, InvalidVersion)
    case ResHttpEnd => Need(f, ch == ' ', ResFirstStatusCode, InvalidVersion)
    case ResFirstStatusCode =>
      if IsNum(ch) then Go(f.(statusCode := Digit(ch)), ResStatusCode) else Need(f, ch == ' ', f.state, InvalidStatus)
    case ResStatusCode =>
      if IsNum(ch) then
        var code := f.statusCode * 10 + Digit(ch);
        if code > 999 then Bad(f, InvalidStatus) else Go(f.(statusCode := code), f.state)
      else if ch == ' ' then Go(f, ResStatusStart)
      else if IsLineEnd(ch) then Visit(f.(state := ResStatusStart), Nop, Again)
      else Bad(f, InvalidStatus)
    case ResStatusStart =>
      Visit(f.(state := ResStatus, index := 0), Mark(OnStatus), if IsLineEnd(ch) then Again else Break)
    case ResStatus =>
      if ch == '\r' then Visit(f.(state := ResLineAlmostDone), Call(OnStatus), Break)
      else if ch == '\n' then Visit(f.(state := HeaderFieldStart), Call(OnStatus), Break)
      else Go(f, f.state)
    case _ => Need(f, ch == '\n', HeaderFieldStart, Strict)
  }

  // ----- Request line -----

  /** The method that a name turns out to be when byte `c` at `i` differs from the name followed so far. */
  function SwitchMethod(m: Method, i: nat, c: char): (r: (bool, Method)) {
    match m
    case POST => if i == 1 && c == 'U' then (true, PUT) else if i == 1 && c == 'A' then (true, PATCH)
                 else if i == 1 && c == 'R' then (true, PROPFIND) else (false, m)
    case PUT => (i == 2 && c == 'R', PURGE)
    case CONNECT => if i == 1 && c == 'H' then (true, CHECKOUT) else (i == 2 && c == 'P', COPY)
    case MKCOL => if i == 1 && c == 'O' then (true, MOVE) else if i == 1 && c == 'E' then (true, MERGE)
                  else if i == 1 && c == '-' then (true, MSEARCH) else if i == 2 && c == 'A' then (true, MKACTIVITY)
                  else (i == 3 && c == 'A', MKCALENDAR)
    case SUBSCRIBE => if i == 1 && c == 'E' then (true, SEARCH) else (i == 1 && c == 'O', SOURCE)
    case REPORT => (i == 2 && c == 'B', REBIND)
    case PROPFIND => (i == 4 && c == 'P', PROPPATCH)
    case LOCK => (i == 1 && c == 'I', LINK)
    case UNLOCK => if i == 2 && c == 'S' then (true, UNSUBSCRIBE) else if i == 2 && c == 'B' then (true, UNBIND)
                   else (i == 3 && c == 'I', UNLINK)
    case _ => (false, m)
  }

  function VisitMethod(f: Fields, ch: char): (v: Visit)
    ensures Silent(v)
  {
    var expected := At(MethodName(f.verb), f.index);
    if ch == '\0' then Bad(f, InvalidMethod)
    else if ch == ' ' && expected == '\0' then Go(f.(index := f.index + 1), ReqSpacesBeforeUrl)
    else if ch == expected then Go(f.(index := f.index + 1), f.state)
    else if ('A' <= ch <= 'Z' || ch == '-') && SwitchMethod(f.verb, f.index, ch).0 then
      Go(f.(verb := SwitchMethod(f.verb, f.index, ch).1, index := f.index + 1), f.state)
    else Bad(f, InvalidMethod)
  }

  /** `parse_url_char`. */
  function ParseUrlChar(s: State, ch: char): (s': State)
    ensures s'.Dead? || IsUrlState(s')
    ensures s'.ReqServerStart? ==> s.ReqSchemaSlashSlash?
  {
    if ch == ' ' || IsLineEnd(ch) || ch == '\t' || ch == 12 as char then Dead
    else
      match s
      case ReqSpacesBeforeUrl => if ch == '/' || ch == '*' then ReqPath else if IsAlpha(ch) then ReqSchema else Dead
      case ReqSchema => if IsAlpha(ch) then s else if ch == ':' then ReqSchemaSlash else Dead
      case ReqSchemaSlash => if ch == '/' then ReqSchemaSlashSlash else Dead
      case ReqSchemaSlashSlash => if ch == '/' then ReqServerStart else Dead
      case ReqServerWithAt => if ch == '@' then Dead else ServerChar(ch)
      case ReqServerStart => ServerChar(ch)
      case ReqServer => ServerChar(ch)
      case ReqPath => if IsUrlChar(ch) then s else if ch == '?' then ReqQueryStringStart
                      else if ch == '#' then ReqFragmentStart else Dead
      case ReqQueryStringStart => QueryChar(ch)
      case ReqQueryString => QueryChar(ch)
      case ReqFragmentStart => if IsUrlChar(ch) || ch == '?' then ReqFragment else if ch == '#' then s else Dead
      case ReqFragment => if IsUrlChar(ch) || ch == '?' || ch == '#' then s else Dead
      case _ => Dead
  }

  function ServerChar(ch: char): State {
    if ch == '/' then ReqPath
    else if ch == '?' then ReqQueryStringStart
    else if ch == '@' then ReqServerWithAt
    else if IsUserInfoChar(ch) || ch == '[' || ch == ']' then ReqServer
    else Dead
  }

  function QueryChar(ch: char): State {
    if IsUrlChar(ch) || ch == '?' then ReqQueryString else if ch == '#' then ReqFragmentStart else Dead
  }

  function VisitUrl(f: Fields, ch: char): (v: Visit)
    ensures Silent(v)
  {
    if f.state.ReqSpacesBeforeUrl? then
      if ch == ' ' then Go(f, f.state) else
        var s := ParseUrlChar(if f.verb.CONNECT? then ReqServerStart else f.state, ch);
        if s.Dead? then Bad(f, InvalidUrl) else Visit(f.(state := s), Mark(OnUrl), Break)
    else if f.state.ReqSchema? || f.state.ReqSchemaSlash? || f.state.ReqSchemaSlashSlash?
         || f.state.ReqServerStart? then
      var s := ParseUrlChar(f.state, ch);
      if s.Dead? then Bad(f, InvalidUrl) else Go(f, s)
    else if ch == ' ' then Visit(f.(state := ReqHttpStart), Call(OnUrl), Break)
    else if IsLineEnd(ch) then
      Visit(f.(major := 0, minor := 9, state := if ch == '\r' then ReqLineAlmostDone else HeaderFieldStart),
        Call(OnUrl), Break)
    else
      var s := ParseUrlChar(f.state, ch);
      if s.Dead? then Bad(f, InvalidUrl) else Go(f, s)
  }

  function VisitVersion(f: Fields, ch: char): (v: Visit)
    ensures Silent(v)
  {
    match f.state
    case ReqHttpStart =>
      if ch == ' ' then Go(f, f.state)
      else if ch == 'H' then Go(f, ReqHttpH)
      else Need(f, ch == 'I' && f.verb.SOURCE?, ReqHttpI, InvalidConstant)
    case ReqHttpH => Need(f, ch == 'T', ReqHttpHT, Strict)
    case ReqHttpHT => Need(f, ch == 'T', ReqHttpHTT, Strict)
    case ReqHttpHTT => Need(f, ch == 'P', ReqHttpHTTP, Strict)
    case ReqHttpI => Need(f, ch == 'C', ReqHttpIC, Strict)
    case ReqHttpIC => Need(f, ch == 'E', ReqHttpHTTP, Strict)
    case ReqHttpHTTP => Need(f, ch == '/', ReqHttpMajor, Strict)
    case ReqHttpMajor => if IsNum(ch) then Go(f.(major := Digit(ch)), ReqHttpDot) else Bad(f, InvalidVersion)
    case ReqHttpDot => Need(f, ch == '.', ReqHttpMinor, InvalidVersion)
    case ReqHttpMinor => if IsNum(ch) then Go(f.(minor := Digit(ch)), ReqHttpEnd) else Bad(f, InvalidVersion)
    case ReqHttpEnd =>
      if ch == '\r' then Go(f, ReqLineAlmostDone) else Need(f, ch == '\n', HeaderFieldStart, InvalidVersion)
    case _ => Need(f, ch == '\n', HeaderFieldStart, LfExpected)
  }

  // ----- Header names -----

  function VisitFieldStart(f: Fields, ch: char): (v: Visit)
    ensures Silent(v)
  {
    if ch == '\r' then Go(f, HeadersAlmostDone)
    else if ch == '\n' then Visit(f.(state := HeadersAlmostDone), Nop, Again)
    else
      var c := TokenOf(ch);
      if c == '\0' then Bad(f, InvalidHeaderToken)
      else
        var h := if c == 'c' then C else if c == 'p' then MatchingProxyConnection
                 else if c == 't' then MatchingTransferEncoding else if c == 'u' then MatchingUpgrade else General;
        Visit(f.(index := 0, state := HeaderField, headerState := h), Mark(OnHeaderField), Break)
  }

  function ConnectionWord(): (w: string) ensures |w| == 10 { "connection" }
  function ProxyConnectionWord(): (w: string) ensures |w| == 16 { "proxy-connection" }
  function ContentLengthWord(): (w: string) ensures |w| == 14 { "content-length" }
  function TransferEncodingWord(): (w: string) ensures |w| == 17 { "transfer-encoding" }
  function UpgradeWord(): (w: string) ensures |w| == 7 { "upgrade" }
  function ChunkedWord(): (w: string) ensures |w| == 7 { "chunked" }
  function KeepAliveWord(): (w: string) ensures |w| == 10 { "keep-alive" }
  function CloseWord(): (w: string) ensures |w| == 5 { "close" }

  /** One more byte of `word`: the header state is `miss` if it differs, `hit` if it is the last one. */
  function Match(h: HeaderState, i: nat, word: string, c: char, miss: HeaderState, hit: HeaderState)
    : (HeaderState, nat)
  {
    (if i + 1 > |word| || c != At(word, i + 1) then miss else if i + 2 == |word| then hit else h, i + 1)
  }

  /** Header state and index after one byte of a header name; `c` is its token form. */
  function NextName(h: HeaderState, i: nat, ch: char, c: char): (HeaderState, nat) {
    match h
    case C => (if c == 'o' then CO else General, i + 1)
    case CO => (if c == 'n' then CON else General, i + 1)
    case CON => (if c == 'n' then MatchingConnection else if c == 't' then MatchingContentLength else General, i + 1)
    case MatchingConnection => Match(h, i, ConnectionWord(), c, General, Connection)
    case MatchingProxyConnection => Match(h, i, ProxyConnectionWord(), c, General, Connection)
    case MatchingContentLength => Match(h, i, ContentLengthWord(), c, General, ContentLength)
    case MatchingTransferEncoding => Match(h, i, TransferEncodingWord(), c, General, TransferEncoding)
    case MatchingUpgrade => Match(h, i, UpgradeWord(), c, General, Upgrade)
    case General => (h, i)
    case _ => (if ch != ' ' then General else h, i)
  }

  function NameByte(f: Fields, ch: char, c: char): Fields {
    var (h, i) := NextName(f.headerState, f.index, ch, c);
    f.(headerState := h, index := i)
  }

  function VisitField(f: Fields, ch: char): (v: Visit)
    ensures Silent(v)
  {
    var c := TokenOf(ch);
    if c != '\0' then Visit(NameByte(f, ch, c), Nop, Break)
    else if ch == ':' then Visit(f.(state := HeaderValueDiscardWs), Call(OnHeaderField), Break)
    else Bad(f, InvalidHeaderToken)
  }

  // ----- Header values -----

  function VisitValueStart(f: Fields, ch: char): (v: Visit)
    ensures Silent(v)
  {
    var c := Lower(ch);
    var g := f.(state := HeaderValue, index := 0);
    match f.headerState
    case Upgrade => Marked(g.(flags := g.flags.(upgrade := true), headerState := General))
    case TransferEncoding => Marked(g.(headerState := if c == 'c' then MatchingChunked else General))
    case ContentLength =>
      if !IsNum(ch) then Bad(f, InvalidContentLength)
      else if f.flags.contentLength then Bad(f, UnexpectedContentLength)
      else Marked(g.(flags := g.flags.(contentLength := true), contentLength := Digit(ch),
           headerState := ContentLengthNum))
    case ContentLengthWs => Marked(g)
    case Connection => Marked(g.(headerState :=
      if c == 'k' then MatchingKeepAlive else if c == 'c' then MatchingClose
      else if c == 'u' then MatchingConnUpgrade else Token))
    case TokenStart => Marked(g)
    case _ => Marked(g.(headerState := General))
  }

  function Marked(f: Fields): Visit {
    Visit(f, Mark(OnHeaderValue), Break)
  }

  /** Arithmetic of `uint64_t`. */
  function MulAdd64(n: nat, base: nat, digit: nat): (r: nat)
    ensures r <= ULLONG_MAX
  {
    (n * base + digit) % (ULLONG_MAX + 1)
  }

  /** The flag of a Connection token that has just ended. */
  function SetConnectionFlag(flags: Flags, h: HeaderState): Flags {
    flags.(keepAlive := flags.keepAlive || h.KeepAlive?, close := flags.close || h.Close?,
           connUpgrade := flags.connUpgrade || h.ConnUpgrade?)
  }

  function LengthByte(f: Fields, ch: char): (v: Visit)
    ensures Silent(v)
  {
    if ch == ' ' then Visit(f.(headerState := ContentLengthWs), Nop, Break)
    else if !IsNum(ch) || (ULLONG_MAX - 10) / 10 < f.contentLength then Bad(f, InvalidContentLength)
    else Visit(f.(headerState := ContentLengthNum, contentLength := MulAdd64(f.contentLength, 10, Digit(ch))), Nop,
         Break)
  }

  /** The same for the value of a Connection, Transfer-Encoding or ordinary header; `c` is the lower-case form. */
  function NextToken(h: HeaderState, i: nat, ch: char, c: char): (HeaderState, nat) {
    match h
    case General => (h, i)
    case MatchingChunked => Match(h, i, ChunkedWord(), c, General, Chunked)
    case TokenStart =>
      (if c == 'k' then MatchingKeepAlive else if c == 'c' then MatchingClose else if c == 'u' then MatchingConnUpgrade
       else if TokenOf(c) != '\0' then Token else if c == ' ' || c == '\t' then TokenStart else General, i)
    case MatchingKeepAlive => Match(h, i, KeepAliveWord(), c, Token, KeepAlive)
    case MatchingClose => Match(h, i, CloseWord(), c, Token, Close)
    case MatchingConnUpgrade => Match(h, i, UpgradeWord(), c, Token, ConnUpgrade)
    case Token => if ch == ',' then (TokenStart, 0) else (h, i)
    case Chunked => (if ch != ' ' then General else h, i)
    case KeepAlive => EndOfToken(h, i, ch)
    case Close => EndOfToken(h, i, ch)
    case ConnUpgrade => EndOfToken(h, i, ch)
    case _ => (General, i)
  }

  function EndOfToken(h: HeaderState, i: nat, ch: char): (HeaderState, nat) {
    if ch == ',' then (TokenStart, 0) else if ch != ' ' then (Token, i) else (h, i)
  }

  function TokenByte(f: Fields, ch: char, c: char): Fields {
    var (h, i) := NextToken(f.headerState, f.index, ch, c);
    f.(headerState := h, index := i, flags := if ch == ',' then SetConnectionFlag(f.flags, f.headerState) else f.flags)
  }

  /** One byte of a header value that is neither CR nor LF. */
  function ValueByte(f: Fields, ch: char): (v: Visit)
    ensures Silent(v)
  {
    var h := f.headerState;
    if !IsHeaderChar(ch) then Bad(f, InvalidHeaderToken)
    else if h.ContentLength? && ch == ' ' then Visit(f, Nop, Break)
    else if h.ContentLength? || h.ContentLengthNum? then LengthByte(f, ch)
    else if h.ContentLengthWs? then if ch == ' ' then Visit(f, Nop, Break) else Bad(f, InvalidContentLength)
    else Visit(TokenByte(f, ch, Lower(ch)), Nop, Break)
  }

  function VisitValue(f: Fields, ch: char): (v: Visit)
    ensures Silent(v)
  {
    if ch == '\r' then Visit(f.(state := HeaderAlmostDone), Call(OnHeaderValue), Break)
    else if ch == '\n' then Visit(f.(state := HeaderAlmostDone), Call(OnHeaderValue), Again)
    else ValueByte(f, ch)
  }

  /** The flags once the header is finished. */
  function FinishedFlags(f: Fields): Flags {
    SetConnectionFlag(f.flags, f.headerState).(chunked := f.flags.chunked || f.headerState.Chunked?)
  }

  function VisitValueBlank(f: Fields, ch: char): (v: Visit)
    ensures Silent(v)
  {
    match f.state
    case HeaderValueDiscardWs =>
      if ch == ' ' || ch == '\t' then Go(f, f.state)
      else if ch == '\r' then Go(f, HeaderValueDiscardWsAlmostDone)
      else if ch == '\n' then Go(f, HeaderValueDiscardLws)
      else VisitValueStart(f, ch)
    case HeaderValueDiscardWsAlmostDone => Need(f, ch == '\n', HeaderValueDiscardLws, Strict)
    case HeaderValueDiscardLws =>
      if ch == ' ' || ch == '\t' then Go(f, HeaderValueDiscardWs)
      else if f.headerState.ContentLength? then Bad(f, InvalidContentLength)
      else Visit(f.(flags := FinishedFlags(f), state := HeaderFieldStart), MarkCall(OnHeaderValue), Again)
    case HeaderAlmostDone => Need(f, ch == '\n', HeaderValueLws, LfExpected)
    case _ =>
      if ch == ' ' || ch == '\t' then
        Visit(f.(headerState := if f.headerState.ContentLengthNum? then ContentLengthWs else f.headerState,
                 state := HeaderValueStart), Nop, Again)
      else Visit(f.(flags := FinishedFlags(f), state := HeaderFieldStart), Nop, Again)
  }

  // ----- The end of the headers -----

  function VisitHeadersEnd(f: Fields, ch: char): Visit {
    if ch != '\n' then Bad(f, Strict)
    else if f.state.HeadersAlmostDone? then
      if f.flags.trailing then Visit(f.(state := MessageDone), Notify(OnChunkComplete), Again)
      else if f.flags.chunked && f.flags.contentLength then Bad(f, UnexpectedContentLength)
      else
        var upgrade := if f.flags.upgrade && f.flags.connUpgrade then f.ptype.HttpRequest? || f.statusCode == 101
                       else f.verb.CONNECT?;
        Visit(f.(state := HeadersDone, upgrade := upgrade), Notify(OnHeadersComplete), Again)
    else
      var g := f.(nread := 0);
      var hasBody := f.flags.chunked || (f.contentLength > 0 && f.contentLength != ULLONG_MAX);
      if f.upgrade && (f.verb.CONNECT? || f.flags.skipBody || !hasBody) then
        Visit(g.(state := NewMessage(f)), Notify(OnMessageComplete), Exit)
      else if f.flags.skipBody then Visit(g.(state := NewMessage(f)), Notify(OnMessageComplete), Break)
      else if f.flags.chunked then Go(g, ChunkSizeStart)
      else if f.contentLength == 0 then Visit(g.(state := NewMessage(f)), Notify(OnMessageComplete), Break)
      else if f.contentLength != ULLONG_MAX then Go(g, BodyIdentity)
      else if !MessageNeedsEof(f) then Visit(g.(state := NewMessage(f)), Notify(OnMessageComplete), Break)
      else Go(g, BodyIdentityEof)
  }

  // ----- Bodies -----

  function VisitBody(f: Fields, ch: char): Visit
    requires f.state.BodyIdentity? || f.state.ChunkData? ==> f.contentLength > 0
  {
    match f.state
    case BodyIdentity =>
      if f.contentLength == 1 then Visit(f.(contentLength := 0, state := MessageDone), TakeBody, Again)
      else Visit(f.(contentLength := f.contentLength - 1), Mark(OnBody), Break)
    case BodyIdentityEof => Visit(f, Mark(OnBody), Break)
    case ChunkData =>
      Visit(f.(contentLength := f.contentLength - 1,
        state := if f.contentLength == 1 then ChunkDataAlmostDone else ChunkData),
            Mark(OnBody), Break)
    case ChunkDataAlmostDone =>
      if ch != '\r' then Bad(f, Strict) else Visit(f.(state := ChunkDataDone), Call(OnBody), Break)
    case ChunkDataDone =>
      if ch != '\n' then Bad(f, Strict) else Visit(f.(nread := 0, state := ChunkSizeStart), Notify(OnChunkComplete),
        Break)
    case _ =>
      Visit(f.(state := NewMessage(f)), Notify(OnMessageComplete), if f.upgrade then Exit else Break)
  }

  function VisitChunkSize(f: Fields, ch: char): Visit {
    match f.state
    case ChunkSizeStart =>
      if Unhex(ch) == -1 then Bad(f, InvalidChunkSize) else Go(f.(contentLength := Unhex(ch)), ChunkSize)
    case ChunkSize =>
      if ch == '\r' then Go(f, ChunkSizeAlmostDone)
      else if Unhex(ch) == -1 then Need(f, ch == ';' || ch == ' ', ChunkParameters, InvalidChunkSize)
      else if (ULLONG_MAX - 16) / 16 < f.contentLength then Bad(f, InvalidContentLength)
      else Go(f.(contentLength := MulAdd64(f.contentLength, 16, Unhex(ch))), f.state)
    case ChunkParameters => Go(f, if ch == '\r' then ChunkSizeAlmostDone else f.state)
    case _ =>
      if ch != '\n' then Bad(f, Strict)
      else if f.contentLength == 0 then
        Visit(f.(nread := 0, flags := f.flags.(trailing := true), state := HeaderFieldStart), Notify(OnChunkHeader),
          Break)
      else Visit(f.(nread := 0, state := ChunkData), Notify(OnChunkHeader), Break)
  }

  // ----- The switch -----

  predicate IsStartState(s: State) {
    s.Dead? || s.StartReq? || s.StartRes?
  }

  predicate IsResponseLineState(s: State) {
    || s.ResH? || s.ResHT? || s.ResHTT? || s.ResHTTP? || s.ResHttpMajor? || s.ResHttpDot? || s.ResHttpMinor?
      || s.ResHttpEnd?
    || s.ResFirstStatusCode? || s.ResStatusCode? || s.ResStatusStart? || s.ResStatus? || s.ResLineAlmostDone?
  }

  predicate IsVersionState(s: State) {
    || s.ReqHttpStart? || s.ReqHttpH? || s.ReqHttpHT? || s.ReqHttpHTT? || s.ReqHttpHTTP? || s.ReqHttpI? || s.ReqHttpIC?
    || s.ReqHttpMajor? || s.ReqHttpDot? || s.ReqHttpMinor? || s.ReqHttpEnd? || s.ReqLineAlmostDone?
  }

  predicate IsBlankState(s: State) {
    || s.HeaderValueDiscardWs? || s.HeaderValueDiscardWsAlmostDone? || s.HeaderValueDiscardLws?
    || s.HeaderAlmostDone? || s.HeaderValueLws?
  }

  predicate IsHeadersEndState(s: State) {
    s.HeadersAlmostDone? || s.HeadersDone?
  }

  predicate IsChunkSizeState(s: State) {
    s.ChunkSizeStart? || InChunkSize(s)
  }

  predicate InChunkSize(s: State) {
    s.ChunkSize? || s.ChunkParameters? || s.ChunkSizeAlmostDone?
  }

  predicate NameState(h: HeaderState) {
    || h.General? || h.C? || h.CO? || h.CON?
    || h.MatchingConnection? || h.MatchingProxyConnection? || h.MatchingContentLength? || h.MatchingTransferEncoding?
      || h.MatchingUpgrade?
    || h.Connection? || h.ContentLength? || h.TransferEncoding? || h.Upgrade?
  }

  predicate InChunks(s: State) {
    IsChunkSizeState(s) || s.ChunkData? || s.ChunkDataAlmostDone? || s.ChunkDataDone?
  }

  /** The states that read a body. */
  predicate InBody(s: State) {
    s.BodyIdentity? || s.BodyIdentityEof? || s.ChunkData?
  }

  /** The `assert`s of the switch. */
  predicate Asserts(f: Fields) {
    && (f.state.HeaderField? ==> NameState(f.headerState))
    && (f.state.HeaderValue? ==> !f.headerState.Connection? && !f.headerState.TransferEncoding?)
    && (InChunks(f.state) ==> f.flags.chunked)
    && (f.state.ChunkSizeStart? ==> f.nread == 1)
    && (f.state.BodyIdentity? || f.state.ChunkData? ==> f.contentLength != 0 && f.contentLength != ULLONG_MAX)
    && (f.state.ChunkDataAlmostDone? ==> f.contentLength == 0)
  }

  function VisitState(f: Fields, ch: char): Visit
    requires Asserts(f)
  {
    var s := f.state;
    if s.HeaderField? then VisitField(f, ch)
    else if s.HeaderValue? then VisitValue(f, ch)
    else if IsStartState(s) then VisitStart(f, ch)
    else if IsResponseLineState(s) then VisitResponseLine(f, ch)
    else if s.ReqMethod? then VisitMethod(f, ch)
    else if s.ReqSpacesBeforeUrl? || IsUrlState(s) then VisitUrl(f, ch)
    else if IsVersionState(s) then VisitVersion(f, ch)
    else if s.HeaderFieldStart? then VisitFieldStart(f, ch)
    else if IsBlankState(s) then VisitValueBlank(f, ch)
    else if s.HeaderValueStart? then VisitValueStart(f, ch)
    else if IsHeadersEndState(s) then VisitHeadersEnd(f, ch)
    else if IsChunkSizeState(s) then VisitChunkSize(f, ch)
    else VisitBody(f, ch)
  }

  /** Which part of the switch looks at a byte. */
  lemma Dispatch(f: Fields, ch: char)
    requires Asserts(f)
    ensures f.state.HeaderField? ==> VisitState(f, ch) == VisitField(f, ch)
    ensures f.state.HeaderValue? ==> VisitState(f, ch) == VisitValue(f, ch)
    ensures IsStartState(f.state) ==> VisitState(f, ch) == VisitStart(f, ch)
    ensures IsResponseLineState(f.state) ==> VisitState(f, ch) == VisitResponseLine(f, ch)
    ensures f.state.ReqMethod? ==> VisitState(f, ch) == VisitMethod(f, ch)
    ensures f.state.HeaderFieldStart? ==> VisitState(f, ch) == VisitFieldStart(f, ch)
    ensures IsBlankState(f.state) ==> VisitState(f, ch) == VisitValueBlank(f, ch)
    ensures f.state.HeaderValueStart? ==> VisitState(f, ch) == VisitValueStart(f, ch)
    ensures IsHeadersEndState(f.state) ==> VisitState(f, ch) == VisitHeadersEnd(f, ch)
    ensures IsChunkSizeState(f.state) ==> VisitState(f, ch) == VisitChunkSize(f, ch)
    ensures InBody(f.state) || f.state.ChunkDataAlmostDone? || f.state.ChunkDataDone? || f.state.MessageDone? ==>
            VisitState(f, ch) == VisitBody(f, ch)
  {
    hide VisitField, VisitValue, VisitStart, VisitResponseLine, VisitMethod, VisitUrl, VisitVersion, VisitFieldStart,
      VisitValueBlank,
      VisitValueStart, VisitHeadersEnd, VisitChunkSize, VisitBody;
  }
}
