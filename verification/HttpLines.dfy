/** What a whole header line leaves behind. */
module HttpLines {
  import opened Options
  import opened Traces
  import opened HttpTypes
  import opened HttpVisit
  import opened HttpRun
  import opened HttpNames
  import opened StringUtils
  import opened HttpHeaders
  import opened HttpValues
  import opened HttpConnection

  function HeaderLine(name: string, blanks: string, value: string): string {
    name + ":" + blanks + value + "\r\n"
  }

  /** The fields after the bytes of a line up to its CRLF. */
  function InLine(f: Fields, name: string, blanks: string, value: string): Option<Fields>
    requires name != ""
  {
    var g := Bump(AfterName(f, name), |blanks|);
    if value != "" then FollowValue(g, value) else if g.headerState.ContentLength? then None else Some(g)
  }

  /** The fields after a line that the next one does not fold. */
  function AfterLine(f: Fields, name: string, blanks: string, value: string): Option<Fields>
    requires name != ""
  {
    match InLine(f, name, blanks, value)
    case None => None
    case Some(g) => Some(g.(state := HeaderFieldStart, flags := FinishedFlags(g), nread := g.nread + 2))
  }

  function WithHeader(t: Trace, name: string, value: string): Trace {
    Emit(Emit(t, Data(OnHeaderField, name)), Data(OnHeaderValue, value))
  }

  predicate IsHeaderLine(name: string, blanks: string, value: string) {
    IsToken(name) && AllBlank(blanks) && OneLine(value) && (value != "" ==> !IsBlank(value[0]))
  }

  lemma TokenNames(name: string)
    requires IsToken(name)
    ensures name != "" && ':' !in name && !IsLineEnd(name[0]) && !IsBlank(name[0])
  {
    forall c | c in name ensures c != ':' && c != ' ' && c != '\t' && !IsLineEnd(c) {
      TokenIsFolded(c);
    }
  }

  lemma NameAndBlanks(cfg: Settings, f: Fields, t: Trace, name: string, blanks: string)
    requires Valid(f) && f.errno.OK? && f.state.HeaderFieldStart? && f.nread + |name| + 1 + |blanks| <= MAX_HEADER_SIZE
    requires IsToken(name) && AllBlank(blanks)
    ensures Run(cfg, Stream(f, t), name + ":" + blanks)
            == Ready(Stream(Bump(AfterName(f, name), |blanks|), Emit(t, Data(OnHeaderField, name))))
  {
    hide Emit, Run, FollowName, Valid, TokenOf;
    TokenNames(name);
    NameColonRun(cfg, f, t, name);
    RunAppend(cfg, Stream(f, t), name + ":", blanks);
    BlankRun(cfg, AfterName(f, name), Emit(t, Data(OnHeaderField, name)), blanks);
  }

  lemma NonemptyValue(cfg: Settings, f: Fields, t: Trace, value: string)
    requires Valid(f) && f.errno.OK? && f.state.HeaderValueDiscardWs? && f.nread + |value| + 2 <= MAX_HEADER_SIZE
    requires value != "" && OneLine(value) && !IsBlank(value[0])
    ensures Run(cfg, Stream(f, t), value + "\r\n") ==
            match FollowValue(f, value)
            case None => Failed
            case Some(g) => Ready(Stream(g.(state := HeaderValueLws, nread := g.nread + 2),
                            Emit(t, Data(OnHeaderValue, value))))
  {
    hide Emit, Run, FollowValue, Valid;
    ValueRun(cfg, f, t, value);
    RunAppend(cfg, Stream(f, t), value, "\r\n");
    FollowWithin(f, value);
    if FollowValue(f, value).Some? {
      ValueEnd(cfg, FollowValue(f, value).value, Emit(t, Data(OnHeaderValue, value)));
      EmitPieces(t, OnHeaderValue, value, "");
      assert value + "" == value;
    }
  }

  /** A header line, CRLF included, as the byte after it finds it. */
  lemma LineRun(cfg: Settings, f: Fields, t: Trace, name: string, blanks: string, value: string)
    requires Valid(f) && f.errno.OK? && f.state.HeaderFieldStart?
             && f.nread + |HeaderLine(name, blanks, value)| <= MAX_HEADER_SIZE
    requires IsHeaderLine(name, blanks, value)
    ensures var r := Run(cfg, Stream(f, t), HeaderLine(name, blanks, value));
            match AfterLine(f, name, blanks, value)
            case Some(g) => r.Ready? && Settle(r.s) == Stream(g, WithHeader(t, name, value))
            case None => value != "" ==> r.Failed?
  {
    hide Emit, Run, FollowValue, Valid, TokenOf, FollowName;
    var g, t1 := Bump(AfterName(f, name), |blanks|), Emit(t, Data(OnHeaderField, name));
    NameAndBlanks(cfg, f, t, name, blanks);
    assert HeaderLine(name, blanks, value) == (name + ":" + blanks) + (value + "\r\n");
    RunAppend(cfg, Stream(f, t), name + ":" + blanks, value + "\r\n");
    if value == "" {
      assert "" + "\r\n" == "\r\n";
      EmptyValueEnd(cfg, g, t1);
    } else {
      NonemptyValue(cfg, g, t1, value);
      FollowWithin(g, value);
    }
  }

  // ----- The flags of a line -----

  lemma NameStates(name: string)
    requires IsToken(name)
    ensures var h := FollowName(name).0;
            && NameState(h)
            && (h.Connection? <==> Folded(name) == "connection" || Folded(name) == "proxy-connection")
            && (h.ContentLength? <==> Folded(name) == "content-length")
            && (h.TransferEncoding? <==> Folded(name) == "transfer-encoding")
            && (h.Upgrade? <==> Folded(name) == "upgrade")
  {
    hide Tracks, FollowName, Folded;
    NameIsTracked(name);
    SpecialStates(FollowName(name).0, FollowName(name).1, Folded(name));
  }

  /** Whether a line asks for chunked coding. */
  predicate AsksForChunks(name: string, value: string) {
    Folded(name) == "transfer-encoding" && Trimmed(Folded(value)) == "chunked"
  }

  lemma NoBlank(value: string)
    requires value != "" && !IsBlank(value[0])
    ensures value[0] != ' '
  {
  }

  /** A line that may set the flags of Connection tokens. */
  predicate IsConnectionLine(name: string) {
    Folded(name) == "connection" || Folded(name) == "proxy-connection"
  }

  predicate IsLengthLine(name: string) {
    Folded(name) == "content-length"
  }

  /** The line is accepted, unless it is a second Content-Length. */
  predicate LineIsFine(name: string, value: string) {
    if IsLengthLine(name) then IsLength(Trimmed(value)) else value == "" || IsValue(value[1..])
  }

  /** The flags after a line. */
  ghost function LineFlags(flags: Flags, name: string, value: string): Flags {
    flags.(chunked := flags.chunked || AsksForChunks(name, value),
           keepAlive := flags.keepAlive || (IsConnectionLine(name) && IsSeen(value, "keep-alive")),
           close := flags.close || (IsConnectionLine(name) && IsSeen(value, "close")),
           connUpgrade := flags.connUpgrade || (IsConnectionLine(name) && IsSeen(value, "upgrade")),
           upgrade := flags.upgrade || (Folded(name) == "upgrade" && value != ""),
           contentLength := flags.contentLength || IsLengthLine(name))
  }

  /** The length after a line, if `n` was the length before it. */
  function LineLength(n: nat, name: string, value: string): nat
    requires LineIsFine(name, value)
  {
    if IsLengthLine(name) then Numeral(Trimmed(value)) else n
  }

  /** `after` is what a line with this name and value makes of `f`, if it makes anything of it. */
  ghost predicate IsLineEffect(f: Fields, after: Option<Fields>, name: string, value: string) {
    if !LineIsFine(name, value) || (IsLengthLine(name) && f.flags.contentLength) then after.None?
    else after.Some? && after.value.flags == LineFlags(f.flags, name, value)
         && after.value.contentLength == LineLength(f.contentLength, name, value)
  }

  lemma NothingInEmpty()
    ensures !IsSeen("", "keep-alive") && !IsSeen("", "close") && !IsSeen("", "upgrade")
  {
    hide RelationTo;
    WordsAreWords();
    EmptyDiffers(KeepAliveWord());
    EmptyDiffers(CloseWord());
    EmptyDiffers(UpgradeWord());
  }

  lemma EmptyLineIs(f: Fields, name: string, blanks: string)
    requires IsHeaderLine(name, blanks, "")
    ensures IsLineEffect(f, AfterLine(f, name, blanks, ""), name, "")
  {
    hide FollowName, Folded, IsSeen, IsToken;
    TokenNames(name);
    NameStates(name);
    NothingInEmpty();
    assert Trimmed("") == "" && Trimmed(Folded("")) == "";
  }

  lemma ConnectionLineIs(f: Fields, name: string, blanks: string, value: string)
    requires IsHeaderLine(name, blanks, value) && value != "" && IsConnectionLine(name)
    ensures IsLineEffect(f, AfterLine(f, name, blanks, value), name, value)
  {
    hide FollowName, FollowValue, Folded, IsSeen, IsToken, FinishedFlags, IsValue;
    TokenNames(name);
    NameStates(name);
    ConnectionIsExact(Bump(AfterName(f, name), |blanks|), value);
  }

  lemma CodingLineIs(f: Fields, name: string, blanks: string, value: string)
    requires IsHeaderLine(name, blanks, value) && value != "" && Folded(name) == "transfer-encoding"
    ensures IsLineEffect(f, AfterLine(f, name, blanks, value), name, value)
  {
    hide FollowName, FollowValue, Folded, IsSeen, IsToken, IsValue, RelationTo, Trimmed;
    TokenNames(name);
    NameStates(name);
    WordsAreWords();
    RelationIs(value, ChunkedWord());
    ChunkedIsExact(Bump(AfterName(f, name), |blanks|), value);
  }

  lemma LengthLineIs(f: Fields, name: string, blanks: string, value: string)
    requires IsHeaderLine(name, blanks, value) && value != "" && IsLengthLine(name)
    ensures IsLineEffect(f, AfterLine(f, name, blanks, value), name, value)
  {
    hide FollowName, FollowValue, Folded, IsSeen, IsToken, IsLength, Numeral, Trimmed;
    TokenNames(name);
    NameStates(name);
    NoBlank(value);
    LengthsAreExact(Bump(AfterName(f, name), |blanks|), value);
  }

  lemma OrdinaryLineIs(f: Fields, name: string, blanks: string, value: string)
    requires IsHeaderLine(name, blanks, value) && value != ""
    requires !IsConnectionLine(name) && !IsLengthLine(name) && Folded(name) != "transfer-encoding"
    ensures IsLineEffect(f, AfterLine(f, name, blanks, value), name, value)
  {
    hide FollowName, FollowValue, Folded, IsSeen, IsToken, IsValue;
    TokenNames(name);
    NameStates(name);
    OrdinaryValue(Bump(AfterName(f, name), |blanks|), value);
  }

  /**
   What a header line that is not folded does, read off its name and value: whether it is accepted, and
   then all flags and the length after it.
   */
  lemma LineIsExact(f: Fields, name: string, blanks: string, value: string)
    requires IsHeaderLine(name, blanks, value)
    ensures name != "" && IsLineEffect(f, AfterLine(f, name, blanks, value), name, value)
  {
    hide AfterLine, IsLineEffect, IsToken, Folded;
    TokenNames(name);
    if value == "" {
      EmptyLineIs(f, name, blanks);
    } else if IsConnectionLine(name) {
      ConnectionLineIs(f, name, blanks, value);
    } else if IsLengthLine(name) {
      LengthLineIs(f, name, blanks, value);
    } else if Folded(name) == "transfer-encoding" {
      CodingLineIs(f, name, blanks, value);
    } else {
      OrdinaryLineIs(f, name, blanks, value);
    }
  }

  /**
   F_CHUNKED is set by a line exactly when it is a Transfer-Encoding line with the value `chunked`
   and nothing but spaces after it; case does not matter.
   */
  lemma ChunkedFlagIsExact(cfg: Settings, f: Fields, t: Trace, name: string, blanks: string, value: string)
    requires Valid(f) && f.errno.OK? && f.state.HeaderFieldStart?
             && f.nread + |HeaderLine(name, blanks, value)| <= MAX_HEADER_SIZE
    requires IsHeaderLine(name, blanks, value) && AfterLine(f, name, blanks, value).Some?
    ensures var r := Run(cfg, Stream(f, t), HeaderLine(name, blanks, value));
            r.Ready? && (Settle(r.s).f.flags.chunked <==> f.flags.chunked || AsksForChunks(name, value))
  {
    hide Run, Valid, AfterLine, Settle, AsksForChunks, LineIsFine, IsHeaderLine;
    LineRun(cfg, f, t, name, blanks, value);
    LineIsExact(f, name, blanks, value);
  }

  /** The flags of Connection tokens after a line are those of the tokens seen in it. */
  ghost predicate SetsSeenFlags(before: Flags, after: Flags, name: string, value: string) {
    && (after.keepAlive <==> before.keepAlive || (IsConnectionLine(name) && IsSeen(value, "keep-alive")))
    && (after.close <==> before.close || (IsConnectionLine(name) && IsSeen(value, "close")))
    && (after.connUpgrade <==> before.connUpgrade || (IsConnectionLine(name) && IsSeen(value, "upgrade")))
  }

  /**
   A header line that is not folded sets F_CONNECTION_KEEP_ALIVE, F_CONNECTION_CLOSE and
   F_CONNECTION_UPGRADE exactly if it is a Connection or Proxy-Connection line in which that token is seen.
   */
  lemma ConnectionFlagsAreExact(cfg: Settings, f: Fields, t: Trace, name: string, blanks: string, value: string)
    requires Valid(f) && f.errno.OK? && f.state.HeaderFieldStart?
             && f.nread + |HeaderLine(name, blanks, value)| <= MAX_HEADER_SIZE
    requires IsHeaderLine(name, blanks, value) && AfterLine(f, name, blanks, value).Some?
    ensures var r := Run(cfg, Stream(f, t), HeaderLine(name, blanks, value));
            r.Ready? && SetsSeenFlags(f.flags, Settle(r.s).f.flags, name, value)
  {
    hide Run, Valid, AfterLine, Settle, IsSeen, IsConnectionLine, LineIsFine, IsHeaderLine;
    LineRun(cfg, f, t, name, blanks, value);
    LineIsExact(f, name, blanks, value);
  }

  /** A Content-Length line without a value is refused at the byte behind it. */
  lemma EmptyLengthFails(cfg: Settings, f: Fields, t: Trace, name: string, blanks: string, ch: char)
    requires Valid(f) && f.errno.OK? && f.state.HeaderFieldStart?
             && f.nread + |HeaderLine(name, blanks, "")| < MAX_HEADER_SIZE
    requires IsHeaderLine(name, blanks, "") && IsLengthLine(name) && !IsBlank(ch)
    ensures Run(cfg, Stream(f, t), HeaderLine(name, blanks, "") + [ch]).Failed?
  {
    hide Emit, Run, FollowName, Valid, TokenOf, IsToken, Folded;
    TokenNames(name);
    NameStates(name);
    var g, t1 := Bump(AfterName(f, name), |blanks|), Emit(t, Data(OnHeaderField, name));
    NameAndBlanks(cfg, f, t, name, blanks);
    EmptyValueEnd(cfg, g, t1);
    assert HeaderLine(name, blanks, "") == (name + ":" + blanks) + "\r\n";
    RunAppend(cfg, Stream(f, t), name + ":" + blanks, "\r\n");
    RunAppend(cfg, Stream(f, t), HeaderLine(name, blanks, ""), [ch]);
    var g' := g.(state := HeaderValueDiscardLws, nread := g.nread + 2);
    RunOne(cfg, Stream(g', t1), ch);
    UnsettledLengthFails(cfg, g', t1, ch);
  }

  lemma UnsettledLengthFails(cfg: Settings, f: Fields, t: Trace, ch: char)
    requires Valid(f) && f.errno.OK? && f.state.HeaderValueDiscardLws? && f.headerState.ContentLength?
    requires f.nread < MAX_HEADER_SIZE && !IsBlank(ch)
    ensures Step(cfg, Stream(f, t), ch).Failed?
  {
    hide Emit, Step, Sound, VisitState;
    PlainStep(cfg, f, t, ch);
    Dispatch(Bump(f, 1), ch);
  }
}
