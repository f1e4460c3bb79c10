/** Header blocks, the end of the headers, and whole chunked bodies with their trailers. */
module HttpMessages {
  import opened Options
  import opened Traces
  import opened HttpTypes
  import opened HttpVisit
  import opened HttpRun
  import opened HttpNames
  import opened HttpHeaders
  import opened HttpLines
  import opened StringUtils
  import opened HttpConnection
  import opened HttpValues
  import opened HttpBodies

  // ----- Blocks of header lines -----

  datatype Header = Header(name: string, blanks: string, value: string)

  predicate AreHeaders(hs: seq<Header>) {
    forall h <- hs :: IsHeaderLine(h.name, h.blanks, h.value)
  }

  function Block(hs: seq<Header>): string {
    if hs == [] then "" else HeaderLine(hs[0].name, hs[0].blanks, hs[0].value) + Block(hs[1..])
  }

  function AfterLines(f: Fields, hs: seq<Header>): Option<Fields>
    requires AreHeaders(hs)
    decreases |hs|
  {
    if hs == [] then Some(f) else
      match AfterLine(f, hs[0].name, hs[0].blanks, hs[0].value)
      case None => None
      case Some(g) => AfterLines(g, hs[1..])
  }

  function WithHeaders(t: Trace, hs: seq<Header>): Trace
    decreases |hs|
  {
    if hs == [] then t else WithHeaders(WithHeader(t, hs[0].name, hs[0].value), hs[1..])
  }

  lemma LineKeeps(cfg: Settings, f: Fields, t: Trace, h: Header)
    requires Valid(f) && f.errno.OK? && f.state.HeaderFieldStart?
             && f.nread + |HeaderLine(h.name, h.blanks, h.value)| <= MAX_HEADER_SIZE
    requires IsHeaderLine(h.name, h.blanks, h.value)
    requires AfterLine(f, h.name, h.blanks, h.value).Some?
    ensures var g := AfterLine(f, h.name, h.blanks, h.value).value;
            Valid(g) && g.errno.OK? && g.state.HeaderFieldStart?
              && g.nread == f.nread + |HeaderLine(h.name, h.blanks, h.value)|
            && g.flags.trailing == f.flags.trailing && g.flags.skipBody == f.flags.skipBody
            && g == f.(headerState := g.headerState, index := g.index, contentLength := g.contentLength,
               flags := g.flags, nread := g.nread)
  {
    hide Emit, Run, FollowValue, Valid, FollowName, Settle, IsToken;
    LineRun(cfg, f, t, h.name, h.blanks, h.value);
    SettleKeeps(Run(cfg, Stream(f, t), HeaderLine(h.name, h.blanks, h.value)).s);
    TokenNames(h.name);
    if h.value != "" {
      FollowWithin(Bump(AfterName(f, h.name), |h.blanks|), h.value);
    }
  }

  lemma LineHasName(h: Header)
    requires IsHeaderLine(h.name, h.blanks, h.value)
    ensures h.name != ""
  {
  }

  /** A block of lines, before a byte that folds none of them. */
  lemma {:induction false} BlockRun(cfg: Settings, f: Fields, t: Trace, hs: seq<Header>, rest: string)
    requires Valid(f) && f.errno.OK? && f.state.HeaderFieldStart? && f.nread + |Block(hs)| <= MAX_HEADER_SIZE
    requires AreHeaders(hs) && AfterLines(f, hs).Some? && rest != "" && !IsBlank(rest[0])
    ensures var g := AfterLines(f, hs).value;
            && Valid(g) && g.errno.OK? && g.state.HeaderFieldStart? && g.nread == f.nread + |Block(hs)|
            && g.flags.trailing == f.flags.trailing && g.flags.skipBody == f.flags.skipBody
            && g == f.(headerState := g.headerState, index := g.index, contentLength := g.contentLength,
               flags := g.flags, nread := g.nread)
            && Run(cfg, Stream(f, t), Block(hs) + rest) == Run(cfg, Stream(g, WithHeaders(t, hs)), rest)
    decreases |hs|
  {
    hide Emit, Run, Valid, AfterLine, HeaderLine, IsHeaderLine, Settle;
    if hs == [] {
      assert Block(hs) + rest == rest;
    } else {
      var h := hs[0];
      var line, more := HeaderLine(h.name, h.blanks, h.value), Block(hs[1..]) + rest;
      assert h in hs && forall h' <- hs[1..] :: h' in hs;
      LineHasName(h);
      var g := AfterLine(f, h.name, h.blanks, h.value).value;
      LineKeeps(cfg, f, t, h);
      LineRun(cfg, f, t, h.name, h.blanks, h.value);
      assert Block(hs) + rest == line + more;
      RunAppend(cfg, Stream(f, t), line, more);
      StartsUnfolded(hs[1..], rest);
      SettleRun(cfg, Run(cfg, Stream(f, t), line).s, more);
      BlockRun(cfg, g, WithHeader(t, h.name, h.value), hs[1..], rest);
    }
  }

  lemma StartsUnfolded(hs: seq<Header>, rest: string)
    requires AreHeaders(hs) && rest != "" && !IsBlank(rest[0])
    ensures Block(hs) + rest != "" && !IsBlank((Block(hs) + rest)[0])
  {
    hide IsToken;
    if hs != [] {
      assert hs[0] in hs;
      TokenNames(hs[0].name);
    }
  }

  // ----- What a block says -----

  /** How many lines give a length. */
  function LengthLines(hs: seq<Header>): nat {
    if hs == [] then 0 else (if IsLengthLine(hs[0].name) then 1 else 0) + LengthLines(hs[1..])
  }

  /** Every line is accepted by itself, and at most one of them, or of those before them, gives a length. */
  predicate BlockIsFine(hs: seq<Header>, given: bool) {
    (forall h <- hs :: LineIsFine(h.name, h.value)) && LengthLines(hs) <= if given then 0 else 1
  }

  ghost predicate ListsToken(hs: seq<Header>, token: string) {
    exists h <- hs :: IsConnectionLine(h.name) && IsSeen(h.value, token)
  }

  predicate AskForChunks(hs: seq<Header>) {
    exists h <- hs :: AsksForChunks(h.name, h.value)
  }

  predicate AskForUpgrade(hs: seq<Header>) {
    exists h <- hs :: Folded(h.name) == "upgrade" && h.value != ""
  }

  predicate GiveLength(hs: seq<Header>) {
    exists h <- hs :: IsLengthLine(h.name)
  }

  /** The flags after a block. */
  ghost function BlockFlags(flags: Flags, hs: seq<Header>): Flags {
    flags.(chunked := flags.chunked || AskForChunks(hs), upgrade := flags.upgrade || AskForUpgrade(hs),
           keepAlive := flags.keepAlive || ListsToken(hs, "keep-alive"), close := flags.close
             || ListsToken(hs, "close"),
           connUpgrade := flags.connUpgrade || ListsToken(hs, "upgrade"),
           contentLength := flags.contentLength || GiveLength(hs))
  }

  /** The length after a block, if `n` was the length before it. */
  function BlockLength(n: nat, hs: seq<Header>): nat
    requires forall h <- hs :: LineIsFine(h.name, h.value)
    decreases |hs|
  {
    if hs == [] then n else
      assert hs[0] in hs && forall h <- hs[1..] :: h in hs;
      BlockLength(LineLength(n, hs[0].name, hs[0].value), hs[1..])
  }

  lemma FlagsCons(flags: Flags, hs: seq<Header>)
    requires hs != []
    ensures BlockFlags(flags, hs) == BlockFlags(LineFlags(flags, hs[0].name, hs[0].value), hs[1..])
  {
    hide IsSeen, AsksForChunks, IsConnectionLine, IsLengthLine, Folded;
    assert hs == [hs[0]] + hs[1..];
    assert forall h :: h in hs <==> h == hs[0] || h in hs[1..];
  }

  lemma FineCons(hs: seq<Header>, given: bool)
    requires hs != []
    ensures var h := hs[0];
            BlockIsFine(hs, given) <==> LineIsFine(h.name, h.value) && !(IsLengthLine(h.name) && given)
                                        && BlockIsFine(hs[1..], given || IsLengthLine(h.name))
  {
    hide LineIsFine, IsLengthLine;
    assert hs == [hs[0]] + hs[1..];
    assert forall h :: h in hs <==> h == hs[0] || h in hs[1..];
  }

  /**
   A block is taken exactly if every line is fine by itself and none gives a second length; all flags and
   the length after it can be read off its lines.
   */
  lemma {:induction false} BlockIsExact(f: Fields, hs: seq<Header>)
    requires AreHeaders(hs)
    ensures match AfterLines(f, hs)
            case None => !BlockIsFine(hs, f.flags.contentLength)
            case Some(g) =>
              && BlockIsFine(hs, f.flags.contentLength)
              && g.flags == BlockFlags(f.flags, hs) && g.contentLength == BlockLength(f.contentLength, hs)
    decreases |hs|
  {
    hide AfterLine, LineFlags, LineIsFine, IsLengthLine, LineLength, BlockFlags, IsHeaderLine, BlockIsFine;
    if hs == [] {
      NothingSaid(f.flags, f.flags.contentLength);
    } else {
      var h := hs[0];
      assert h in hs && forall x <- hs[1..] :: x in hs;
      LineIsExact(f, h.name, h.blanks, h.value);
      FineCons(hs, f.flags.contentLength);
      FlagsCons(f.flags, hs);
      LineGivesLength(f.flags, h.name, h.value);
      var next := AfterLine(f, h.name, h.blanks, h.value);
      if next.Some? {
        BlockIsExact(next.value, hs[1..]);
        FineLines(hs, f.flags.contentLength);
      }
    }
  }

  lemma FineLines(hs: seq<Header>, given: bool)
    ensures BlockIsFine(hs, given) ==> forall h <- hs :: LineIsFine(h.name, h.value)
  {
  }

  lemma LineGivesLength(flags: Flags, name: string, value: string)
    ensures LineFlags(flags, name, value).contentLength == (flags.contentLength || IsLengthLine(name))
  {
    hide IsSeen, AsksForChunks, IsConnectionLine, IsLengthLine, Folded;
  }

  lemma NothingSaid(flags: Flags, given: bool)
    ensures BlockIsFine([], given) && BlockFlags(flags, []) == flags
  {
  }

  lemma LineFails(cfg: Settings, f: Fields, t: Trace, h: Header, more: string)
    requires Valid(f) && f.errno.OK? && f.state.HeaderFieldStart? && more != "" && !IsBlank(more[0])
    requires f.nread + |HeaderLine(h.name, h.blanks, h.value)| < MAX_HEADER_SIZE
    requires IsHeaderLine(h.name, h.blanks, h.value) && AfterLine(f, h.name, h.blanks, h.value).None?
    ensures Run(cfg, Stream(f, t), HeaderLine(h.name, h.blanks, h.value) + more).Failed?
  {
    hide Run, Valid, AfterLine, IsHeaderLine, HeaderLine, LineIsFine;
    var line := HeaderLine(h.name, h.blanks, h.value);
    LineRun(cfg, f, t, h.name, h.blanks, h.value);
    if h.value != "" {
      RunAppend(cfg, Stream(f, t), line, more);
    } else {
      LineIsExact(f, h.name, h.blanks, "");
      OnlyLengthNeedsValue(h.name);
      EmptyLengthFails(cfg, f, t, h.name, h.blanks, more[0]);
      assert line + more == (line + [more[0]]) + more[1..];
      RunAppend(cfg, Stream(f, t), line + [more[0]], more[1..]);
    }
  }

  lemma OnlyLengthNeedsValue(name: string)
    ensures LineIsFine(name, "") <==> !IsLengthLine(name)
  {
    assert Trimmed("") == "";
  }

  /** A block that is not fine makes the parser fail, whatever text follows that folds no line. */
  lemma {:induction false} BlockFails(cfg: Settings, f: Fields, t: Trace, hs: seq<Header>, rest: string)
    requires Valid(f) && f.errno.OK? && f.state.HeaderFieldStart? && f.nread + |Block(hs)| < MAX_HEADER_SIZE
    requires AreHeaders(hs) && !BlockIsFine(hs, f.flags.contentLength) && rest != "" && !IsBlank(rest[0])
    ensures Run(cfg, Stream(f, t), Block(hs) + rest).Failed?
    decreases |hs|
  {
    hide Emit, Run, Valid, AfterLine, HeaderLine, IsHeaderLine, Settle, LineIsFine, BlockIsFine, IsLengthLine,
      LineFlags;
    if hs == [] {
      NothingSaid(f.flags, f.flags.contentLength);
    } else {
      var h := hs[0];
      var line, more := HeaderLine(h.name, h.blanks, h.value), Block(hs[1..]) + rest;
      assert h in hs && forall h' <- hs[1..] :: h' in hs;
      StartsUnfolded(hs[1..], rest);
      assert Block(hs) + rest == line + more;
      LineIsExact(f, h.name, h.blanks, h.value);
      var next := AfterLine(f, h.name, h.blanks, h.value);
      if next.None? {
        LineFails(cfg, f, t, h, more);
      } else {
        FineCons(hs, f.flags.contentLength);
        LineGivesLength(f.flags, h.name, h.value);
        LineKeeps(cfg, f, t, h);
        LineRun(cfg, f, t, h.name, h.blanks, h.value);
        RunAppend(cfg, Stream(f, t), line, more);
        SettleRun(cfg, Run(cfg, Stream(f, t), line).s, more);
        BlockFails(cfg, next.value, WithHeader(t, h.name, h.value), hs[1..], rest);
      }
    }
  }

  // ----- The blank line -----

  lemma BlankLineReturn(cfg: Settings, f: Fields, t: Trace)
    requires Valid(f) && f.errno.OK? && f.state.HeaderFieldStart? && f.nread < MAX_HEADER_SIZE
    ensures Step(cfg, Stream(f, t), '\r') == Ready(Stream(f.(state := HeadersAlmostDone, nread := f.nread + 1), t))
  {
    hide Emit, Step, Sound, VisitState;
    PlainStep(cfg, f, t, '\r');
    Dispatch(Bump(f, 1), '\r');
  }

  lemma BlankLineRun(cfg: Settings, f: Fields, t: Trace)
    requires Valid(f) && f.errno.OK? && f.state.HeaderFieldStart? && f.nread + 2 <= MAX_HEADER_SIZE
    ensures var g := f.(state := HeadersAlmostDone, nread := f.nread + 2);
            Inside(g) && Run(cfg, Stream(f, t), "\r\n") == Visits(cfg, Stream(g, t), '\n', None)
  {
    hide Emit, Visits, Sound;
    BlankLineReturn(cfg, f, t);
    var g := f.(state := HeadersAlmostDone, nread := f.nread + 1);
    CountedInside(g);
    TwoBytes(cfg, Stream(f, t), '\r', '\n');
  }

  /** The blank line after the trailers of a chunked body. */
  lemma TrailersEnd(cfg: Settings, f: Fields, t: Trace)
    requires Valid(f) && f.errno.OK? && f.state.HeaderFieldStart? && f.nread + 2 <= MAX_HEADER_SIZE && f.flags.trailing
    ensures Run(cfg, Stream(f, t), "\r\n") == Complete(cfg, f.(nread := f.nread + 2), Emit(t, Note(OnChunkComplete)))
  {
    hide Emit, Run, Sound, VisitState, Kept, NewMessage;
    BlankLineRun(cfg, f, t);
    var g := f.(state := HeadersAlmostDone, nread := f.nread + 2);
    VisitKeeps(g, '\n');
    Dispatch(g, '\n');
    var done := g.(state := MessageDone);
    assert Inside(done) by {
      SoundBounds(g);
      PlainMove(g, done);
    }
    MessageDoneVisit(cfg, done, Emit(t, Note(OnChunkComplete)), '\n');
    CompleteIgnoresState(cfg, f.(nread := f.nread + 2), done.state, Emit(t, Note(OnChunkComplete)));
  }

  lemma CompleteIgnoresState(cfg: Settings, f: Fields, s: State, t: Trace)
    ensures Complete(cfg, f.(state := s), t) == Complete(cfg, f, t)
  {
    hide Emit;
  }

  predicate Upgrades(f: Fields) {
    if f.flags.upgrade && f.flags.connUpgrade then f.ptype.HttpRequest? || f.statusCode == 101 else f.verb.CONNECT?
  }

  /** What the blank line after the headers makes of a message that is no upgrade, if the client agrees. */
  function HeadersEnded(cfg: Settings, f: Fields, t: Trace): Result {
    var g := f.(nread := 0, upgrade := false);
    if f.flags.chunked then Ready(Stream(g.(state := ChunkSizeStart), t))
    else if f.contentLength == 0 then Complete(cfg, g, t)
    else if f.contentLength != ULLONG_MAX then Ready(Stream(g.(state := BodyIdentity), t))
    else if MessageNeedsEof(f) then Ready(Stream(g.(state := BodyIdentityEof), t))
    else Complete(cfg, g, t)
  }

  lemma HeadersDoneVisit(cfg: Settings, f: Fields, t: Trace)
    requires Inside(f) && f.errno.OK? && f.state.HeadersDone? && !f.upgrade && !f.flags.skipBody
    ensures Visits(cfg, Stream(f, t), '\n', None) == HeadersEnded(cfg, f, t)
  {
    hide Emit, HeaderSound, VisitState, Kept, NewMessage, MessageNeedsEof, NumbersSound;
    VisitKeeps(f, '\n');
    Dispatch(f, '\n');
    NewMessageIgnores(f);
  }

  lemma NewMessageIgnores(f: Fields)
    ensures NewMessage(f.(nread := 0, upgrade := false)) == NewMessage(f)
  {
  }

  /** The first visit of the blank line: headers-complete. */
  lemma HeadersAlmostDoneVisit(cfg: Settings, f: Fields, t: Trace)
    requires Inside(f) && f.errno.OK? && f.state.HeadersAlmostDone? && !f.flags.trailing
    requires !(f.flags.chunked && f.flags.contentLength)
    ensures var g, t' := f.(state := HeadersDone, upgrade := Upgrades(f)), Emit(t, Note(OnHeadersComplete));
            && Inside(g)
            && (cfg.headersComplete(LineOf(f), t') == 0 ==>
               Visits(cfg, Stream(f, t), '\n', None) == Visits(cfg, Stream(g, t'), '\n', None))
            && (cfg.headersComplete(LineOf(f), t') < 0 ==> Visits(cfg, Stream(f, t), '\n', None) == Failed)
  {
    hide Emit, Sound, VisitState, Kept;
    VisitKeeps(f, '\n');
    Dispatch(f, '\n');
    SoundBounds(f);
    PlainMove(f, f.(state := HeadersDone, upgrade := Upgrades(f)));
  }

  lemma HeadersEnd(cfg: Settings, f: Fields, t: Trace)
    requires Valid(f) && f.errno.OK? && f.state.HeaderFieldStart? && f.nread + 2 <= MAX_HEADER_SIZE
    requires !f.flags.trailing && !f.flags.skipBody && !Upgrades(f) && !(f.flags.chunked && f.flags.contentLength)
    requires cfg.headersComplete(LineOf(f), Emit(t, Note(OnHeadersComplete))) == 0
    ensures Run(cfg, Stream(f, t), "\r\n") == HeadersEnded(cfg, f, Emit(t, Note(OnHeadersComplete)))
  {
    hide Emit, Run, Valid, Inside, Visits, HeadersEnded;
    BlankLineRun(cfg, f, t);
    var g := f.(state := HeadersAlmostDone, nread := f.nread + 2);
    HeadersAlmostDoneVisit(cfg, g, t);
    HeadersDoneVisit(cfg, g.(state := HeadersDone, upgrade := Upgrades(g)), Emit(t, Note(OnHeadersComplete)));
    EndedIgnores(cfg, f, Emit(t, Note(OnHeadersComplete)));
  }

  lemma EndedIgnores(cfg: Settings, f: Fields, t: Trace)
    ensures HeadersEnded(cfg, f.(state := HeadersDone, nread := f.nread + 2, upgrade := Upgrades(f)), t)
            == HeadersEnded(cfg, f, t)
  {
    hide Emit, NewMessage;
    CompleteIgnoresState(cfg, f.(nread := 0, upgrade := false), HeadersDone, t);
  }

  // ----- Chunked bodies -----

  function Chunks(cs: seq<Chunk>): string {
    if cs == [] then "" else ChunkText(cs[0]) + Chunks(cs[1..])
  }

  function ChunksTrace(t: Trace, cs: seq<Chunk>): Trace
    decreases |cs|
  {
    if cs == [] then t else ChunksTrace(ChunkTrace(t, cs[0]), cs[1..])
  }

  predicate AreChunks(cs: seq<Chunk>) {
    forall c <- cs :: IsChunk(c)
  }

  lemma {:induction false} ChunksRun(cfg: Settings, f: Fields, t: Trace, cs: seq<Chunk>)
    requires Valid(f) && f.errno.OK? && f.state.ChunkSizeStart? && AreChunks(cs)
    ensures Run(cfg, Stream(f, t), Chunks(cs))
            == Ready(Stream(if cs == [] then f else f.(contentLength := 0), ChunksTrace(t, cs)))
    decreases |cs|
  {
    hide Emit, Run, ChunkText, IsChunk, ChunkTrace, HeaderSound;
    if cs == [] {
      RunNothing(cfg, Stream(f, t));
    } else {
      assert cs[0] in cs && forall c <- cs[1..] :: c in cs;
      ChunkRun(cfg, f, t, cs[0]);
      RunAppend(cfg, Stream(f, t), ChunkText(cs[0]), Chunks(cs[1..]));
      ChunksRun(cfg, f.(contentLength := 0), ChunkTrace(t, cs[0]), cs[1..]);
    }
  }

  /** A chunked body on the wire: chunks, the last chunk of size zero, trailers, a blank line. */
  datatype ChunkedBody = ChunkedBody(chunks: seq<Chunk>, zero: string, extension: string, trailers: seq<Header>)

  function ChunkedText(b: ChunkedBody): string {
    Chunks(b.chunks) + (ChunkHeaderText(b.zero, b.extension) + (Block(b.trailers) + "\r\n"))
  }

  /** The fields when the trailers begin. */
  function AtTrailers(f: Fields): Fields {
    f.(contentLength := 0, nread := 0, flags := f.flags.(trailing := true), state := HeaderFieldStart)
  }

  /** `given` tells whether the headers have given a length. */
  predicate IsChunkedBody(b: ChunkedBody, given: bool) {
    && AreChunks(b.chunks) && IsChunkHeader(b.zero, b.extension, 0)
    && AreHeaders(b.trailers) && |Block(b.trailers)| + 2 <= MAX_HEADER_SIZE
    && BlockIsFine(b.trailers, given)
  }

  /** The fields after the trailers. */
  function AfterTrailers(f: Fields, b: ChunkedBody): Fields
    requires IsChunkedBody(b, f.flags.contentLength)
  {
    BlockIsExact(AtTrailers(f), b.trailers);
    AfterLines(AtTrailers(f), b.trailers).value
  }

  function ChunkedTrace(t: Trace, b: ChunkedBody): Trace {
    Emit(WithHeaders(Emit(ChunksTrace(t, b.chunks), Note(OnChunkHeader)), b.trailers), Note(OnChunkComplete))
  }

  lemma LastChunkRun(cfg: Settings, f: Fields, t: Trace, b: ChunkedBody)
    requires Valid(f) && f.errno.OK? && f.state.ChunkSizeStart? && IsChunkedBody(b, f.flags.contentLength)
    ensures var g := AfterTrailers(f, b);
            var t1 := WithHeaders(Emit(t, Note(OnChunkHeader)), b.trailers);
            Run(cfg, Stream(f, t), ChunkHeaderText(b.zero, b.extension) + (Block(b.trailers) + "\r\n"))
            == Complete(cfg, g.(nread := g.nread + 2), Emit(t1, Note(OnChunkComplete)))
  {
    hide Emit, Run, Block, IsChunkHeader, AfterLines, AreHeaders, ChunkHeaderText, WithHeaders, Valid;
    ChunkHeaderRun(cfg, f, t, b.zero, b.extension, 0);
    RunAppend(cfg, Stream(f, t), ChunkHeaderText(b.zero, b.extension), Block(b.trailers) + "\r\n");
    var t1 := Emit(t, Note(OnChunkHeader));
    BlockIsExact(AtTrailers(f), b.trailers);
    BlockRun(cfg, AtTrailers(f), t1, b.trailers, "\r\n");
    TrailersEnd(cfg, AfterTrailers(f, b), WithHeaders(t1, b.trailers));
  }

  /**
   Chunked round trip: whatever the spelling of the sizes, the extensions and the trailers, the chunks
   are delivered one by one and the message is complete once, at the end.
   */
  lemma ChunkedBodyIsDelivered(cfg: Settings, f: Fields, t: Trace, b: ChunkedBody)
    requires Valid(f) && f.errno.OK? && f.state.ChunkSizeStart? && IsChunkedBody(b, f.flags.contentLength)
    ensures var g := AfterTrailers(f, b);
            Run(cfg, Stream(f, t), ChunkedText(b)) == Complete(cfg, g.(nread := g.nread + 2), ChunkedTrace(t, b))
  {
    hide Emit, Run, Block, IsChunkHeader, AfterLines, AreHeaders, ChunkHeaderText, WithHeaders, Chunks, ChunksTrace,
      AreChunks, HeaderSound;
    ChunksRun(cfg, f, t, b.chunks);
    var f' := if b.chunks == [] then f else f.(contentLength := 0);
    assert AtTrailers(f') == AtTrailers(f);
    RunAppend(cfg, Stream(f, t), Chunks(b.chunks), ChunkHeaderText(b.zero, b.extension) + (Block(b.trailers) + "\r\n"));
    LastChunkRun(cfg, f', ChunksTrace(t, b.chunks), b);
  }

  /** The data of chunks, one after the other. */
  function Joined(cs: seq<Chunk>): string {
    if cs == [] then "" else cs[0].data + Joined(cs[1..])
  }

  lemma {:induction false} ChunksText(t: Trace, cs: seq<Chunk>)
    ensures Text(ChunksTrace(t, cs), OnBody) == Text(t, OnBody) + Joined(cs)
    decreases |cs|
  {
    hide Emit, Text;
    if cs != [] {
      var c := cs[0];
      var t1 := Emit(t, Note(OnChunkHeader));
      var t2 := Emit(t1, Data(OnBody, c.data));
      TextEmit(t, Note(OnChunkHeader), OnBody);
      TextEmit(t1, Data(OnBody, c.data), OnBody);
      TextEmit(t2, Note(OnChunkComplete), OnBody);
      ChunksText(ChunkTrace(t, c), cs[1..]);
      assert Text(ChunkTrace(t, c), OnBody) == Text(t, OnBody) + c.data;
      assert (Text(t, OnBody) + c.data) + Joined(cs[1..]) == Text(t, OnBody) + Joined(cs);
    }
  }

  lemma {:induction false} HeadersText(t: Trace, hs: seq<Header>)
    ensures Text(WithHeaders(t, hs), OnBody) == Text(t, OnBody)
    decreases |hs|
  {
    hide Emit, Text;
    if hs != [] {
      TextEmit(t, Data(OnHeaderField, hs[0].name), OnBody);
      TextEmit(Emit(t, Data(OnHeaderField, hs[0].name)), Data(OnHeaderValue, hs[0].value), OnBody);
      HeadersText(WithHeader(t, hs[0].name, hs[0].value), hs[1..]);
    }
  }

  /** What the body callbacks deliver is what the chunks hold. */
  lemma ChunkedTextIsJoined(t: Trace, b: ChunkedBody)
    ensures Text(ChunkedTrace(t, b), OnBody) == Text(t, OnBody) + Joined(b.chunks)
  {
    hide Emit, Text;
    ChunksText(t, b.chunks);
    TextEmit(ChunksTrace(t, b.chunks), Note(OnChunkHeader), OnBody);
    HeadersText(Emit(ChunksTrace(t, b.chunks), Note(OnChunkHeader)), b.trailers);
    TextEmit(WithHeaders(Emit(ChunksTrace(t, b.chunks), Note(OnChunkHeader)), b.trailers), Note(OnChunkComplete),
      OnBody);
  }

  // ----- The notices of a chunked body -----

  predicate IsChunkNotice(e: Event) {
    e == Note(OnChunkHeader) || e == Note(OnChunkComplete)
  }

  /** The chunk notices of a trace, in order. */
  function ChunkNotices(t: Trace): Trace {
    if t == [] then [] else
      var last := t[|t| - 1];
      ChunkNotices(t[..|t| - 1]) + if IsChunkNotice(last) then [last] else []
  }

  /** `n` times a chunk-header and a chunk-complete. */
  function InTurn(n: nat): Trace {
    if n == 0 then [] else InTurn(n - 1) + [Note(OnChunkHeader), Note(OnChunkComplete)]
  }

  lemma NoticesEmit(t: Trace, e: Event)
    ensures ChunkNotices(Emit(t, e)) == ChunkNotices(t) + if IsChunkNotice(e) then [e] else []
  {
    var t' := Emit(t, e);
    if |t'| == |t| {
      assert t'[..|t'| - 1] == t[..|t| - 1];
    } else {
      assert t'[..|t'| - 1] == t;
    }
  }

  lemma {:induction false} HeaderNotices(t: Trace, hs: seq<Header>)
    ensures ChunkNotices(WithHeaders(t, hs)) == ChunkNotices(t)
    decreases |hs|
  {
    hide Emit, ChunkNotices;
    if hs != [] {
      NoticesEmit(t, Data(OnHeaderField, hs[0].name));
      NoticesEmit(Emit(t, Data(OnHeaderField, hs[0].name)), Data(OnHeaderValue, hs[0].value));
      HeaderNotices(WithHeader(t, hs[0].name, hs[0].value), hs[1..]);
    }
  }

  lemma {:induction false} InTurnFirst(n: nat)
    requires n > 0
    ensures InTurn(n) == [Note(OnChunkHeader), Note(OnChunkComplete)] + InTurn(n - 1)
  {
    if n > 1 {
      InTurnFirst(n - 1);
    }
  }

  lemma {:induction false} ChunksNotices(t: Trace, cs: seq<Chunk>)
    ensures ChunkNotices(ChunksTrace(t, cs)) == ChunkNotices(t) + InTurn(|cs|)
    decreases |cs|
  {
    hide Emit, ChunkNotices;
    if cs != [] {
      var t1 := Emit(t, Note(OnChunkHeader));
      NoticesEmit(t, Note(OnChunkHeader));
      NoticesEmit(t1, Data(OnBody, cs[0].data));
      NoticesEmit(Emit(t1, Data(OnBody, cs[0].data)), Note(OnChunkComplete));
      ChunksNotices(ChunkTrace(t, cs[0]), cs[1..]);
      InTurnFirst(|cs|);
    }
  }

  /** Chunk-header and chunk-complete come in turn, once for each chunk and once for the last one of size zero. */
  lemma NoticesComeInTurn(t: Trace, b: ChunkedBody)
    ensures ChunkNotices(ChunkedTrace(t, b)) == ChunkNotices(t) + InTurn(|b.chunks| + 1)
  {
    hide Emit, ChunkNotices, WithHeaders;
    var t1 := ChunksTrace(t, b.chunks);
    ChunksNotices(t, b.chunks);
    NoticesEmit(t1, Note(OnChunkHeader));
    HeaderNotices(Emit(t1, Note(OnChunkHeader)), b.trailers);
    NoticesEmit(WithHeaders(Emit(t1, Note(OnChunkHeader)), b.trailers), Note(OnChunkComplete));
  }
}
