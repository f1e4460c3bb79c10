/** Bodies: of known length, and chunked. */
module HttpBodies {
  import opened Options
  import opened Traces
  import opened HttpTypes
  import opened HttpVisit
  import opened HttpRun
  import opened HttpBulk
  import opened HttpHeaders

  // ----- The end of a message -----

  /** on_message_complete, and what its answer makes of the run. */
  function Complete(cfg: Settings, f: Fields, t: Trace): Result {
    var t', g := Emit(t, Note(OnMessageComplete)), f.(state := NewMessage(f));
    if cfg.messageComplete(LineOf(f), t') != 0 then Stopped(Stream(g.(errno := CbMessageComplete), t'), "")
    else if f.upgrade then Stopped(Stream(g, t'), "")
    else Ready(Stream(g, t'))
  }

  lemma MessageDoneVisit(cfg: Settings, f: Fields, t: Trace, ch: char)
    requires Inside(f) && f.errno.OK? && f.state.MessageDone?
    ensures Visits(cfg, Stream(f, t), ch, None) == Complete(cfg, f, t)
  {
    hide Emit, NewMessage, VisitState, Kept, Sound;
    VisitKeeps(f, ch);
    Dispatch(f, ch);
  }

  // ----- Bodies of known length -----

  /** Part of a body: `content_length` is the count still owed. */
  lemma BodyOwes(cfg: Settings, f: Fields, t: Trace, x: string)
    requires Valid(f) && f.errno.OK? && f.state.BodyIdentity? && 0 < |x| < f.contentLength
    ensures Run(cfg, Stream(f, t),
            x) == Ready(Stream(f.(contentLength := f.contentLength - |x|), Emit(t, Data(OnBody, x))))
  {
    hide Emit, Run, Valid, NewMessage;
    BodyRun(cfg, f, t, x, |x|);
    assert x[..|x|] == x && x[|x|..] == "";
    assert Run(cfg, Stream(BodyLess(f, |x|), Emit(t, Data(OnBody, x))), "")
           == Ready(Stream(BodyLess(f, |x|), Emit(t, Data(OnBody, x)))) by {
      RunNothing(cfg, Stream(BodyLess(f, |x|), Emit(t, Data(OnBody, x))));
    }
  }

  /** A whole body: all its bytes and no others are delivered, then the message is complete, once. */
  lemma BodyIsDelivered(cfg: Settings, f: Fields, t: Trace, x: string)
    requires Valid(f) && f.errno.OK? && f.state.BodyIdentity? && |x| == f.contentLength
    ensures Run(cfg, Stream(f, t), x) == Complete(cfg, f.(contentLength := 0), Emit(t, Data(OnBody, x)))
  {
    hide Emit, Run, Valid, Visits;
    BodyNotEmpty(f);
    BodyRun(cfg, f, t, x, |x|);
    assert x[..|x|] == x && x[|x|..] == "";
    var g := BodyLess(f, |x|);
    MessageDoneVisit(cfg, g, Emit(t, Data(OnBody, x)), x[|x| - 1]);
    var r := Complete(cfg, f.(contentLength := 0), Emit(t, Data(OnBody, x)));
    assert Complete(cfg, g, Emit(t, Data(OnBody, x))) == r;
    if r.Ready? {
      RunNothing(cfg, r.s);
    } else {
      assert r.rest + "" == r.rest;
    }
  }

  // ----- Chunk sizes -----

  predicate AllHex(x: string) {
    forall c <- x :: IsHex(c)
  }

  function HexDigit(c: char): (d: nat)
    requires IsHex(c)
    ensures d < 16
  {
    c as int - (if c <= '9' then '0' as int else if c <= 'F' then 'A' as int - 10 else 'a' as int - 10)
  }

  /** The value of a hexadecimal numeral. */
  function HexNumeral(x: string): nat
    requires AllHex(x)
  {
    if x == "" then 0 else
      assert x[|x| - 1] in x && forall c <- x[..|x| - 1] :: c in x;
      HexNumeral(x[..|x| - 1]) * 16 + HexDigit(x[|x| - 1])
  }

  /** A nonempty hexadecimal numeral whose value without its last digit is within the conservative limit. */
  predicate IsHexSize(x: string) {
    x != "" && AllHex(x) && HexNumeral(x[..|x| - 1]) <= (ULLONG_MAX - 16) / 16
  }

  predicate IsAscii(x: string) {
    forall c <- x :: c as int < 128
  }

  /** What passes for a digit: every byte above ASCII does too. */
  predicate IsSizeByte(c: char) {
    IsHex(c) || c as int >= 128
  }

  predicate AllSizeBytes(x: string) {
    forall c <- x :: IsSizeByte(c)
  }

  /** With each byte above ASCII written as the digit 0. */
  function Zeroed(x: string): (y: string)
    requires AllSizeBytes(x)
    ensures |y| == |x| && AllHex(y)
    ensures forall i | 0 <= i < |x| :: y[i] == if IsHex(x[i]) then x[i] else '0'
  {
    seq(|x|, i requires 0 <= i < |x| => if IsHex(x[i]) then x[i] else '0')
  }

  /** What the parser takes for a chunk size. */
  predicate IsChunkSize(x: string) {
    AllSizeBytes(x) && IsHexSize(Zeroed(x))
  }

  function SizeOf(x: string): nat
    requires AllSizeBytes(x)
  {
    HexNumeral(Zeroed(x))
  }

  lemma ZeroedMore(x: string, c: char)
    ensures AllSizeBytes(x + [c]) <==> AllSizeBytes(x) && IsSizeByte(c)
    ensures AllSizeBytes(x + [c]) ==> Zeroed(x + [c]) == Zeroed(x) + [if IsHex(c) then c else '0']
  {
    assert c in x + [c] && forall d <- x :: d in x + [c];
  }

  lemma ByteOfSize(c: char)
    ensures IsSizeByte(c) <==> Unhex(c) >= 0
    ensures IsSizeByte(c) ==> Unhex(c) == HexDigit(if IsHex(c) then c else '0')
  {
  }

  lemma SizeMore(x: string, c: char)
    requires x != ""
    ensures IsChunkSize(x + [c]) <==> IsChunkSize(x) && Unhex(c) >= 0 && SizeOf(x) <= (ULLONG_MAX - 16) / 16
    ensures IsChunkSize(x + [c]) ==> SizeOf(x + [c]) == SizeOf(x) * 16 + Unhex(c) < ULLONG_MAX
  {
    hide Unhex, IsHex, Zeroed, HexDigit;
    ZeroedMore(x, c);
    ByteOfSize(c);
    if AllSizeBytes(x + [c]) {
      HexMore(Zeroed(x), if IsHex(c) then c else '0');
    }
  }

  lemma HexMore(x: string, c: char)
    requires x != "" && AllHex(x) && IsHex(c)
    ensures AllHex(x + [c]) && HexNumeral(x + [c]) == HexNumeral(x) * 16 + HexDigit(c)
    ensures IsHexSize(x + [c]) <==> IsHexSize(x) && HexNumeral(x) <= (ULLONG_MAX - 16) / 16
  {
    hide IsHex, HexDigit;
    var y := x + [c];
    assert y[..|x|] == x && c in y && forall d <- x :: d in y;
    assert HexNumeral(x) == HexNumeral(x[..|x| - 1]) * 16 + HexDigit(x[|x| - 1]);
  }

  lemma SizeFirst(c: char)
    ensures IsChunkSize([c]) <==> Unhex(c) >= 0
    ensures Unhex(c) >= 0 ==> SizeOf([c]) == Unhex(c) < ULLONG_MAX
  {
    hide Unhex, IsHex, HexDigit;
    ByteOfSize(c);
    ZeroedMore("", c);
    assert "" + [c] == [c];
    if IsSizeByte(c) {
      var d := if IsHex(c) then c else '0';
      assert Zeroed("") == "" && Zeroed([c]) == [d] && [d][..0] == "" && d in [d];
    }
  }

  function InSize(f: Fields, x: string): Fields
    requires AllSizeBytes(x)
  {
    f.(state := ChunkSize, contentLength := SizeOf(x), nread := f.nread + |x|)
  }

  predicate NoSizeEnd(x: string) {
    forall c <- x :: c != '\r' && c != ';' && c != ' '
  }

  lemma SizeFirstByte(cfg: Settings, f: Fields, t: Trace, c: char)
    requires Valid(f) && f.errno.OK? && f.state.ChunkSizeStart?
    ensures Step(cfg, Stream(f, t), c) ==
            if Unhex(c) >= 0 then Ready(Stream(f.(state := ChunkSize, contentLength := Unhex(c), nread := f.nread + 1),
              t)) else Failed
  {
    hide Emit, Step, HeaderSound, VisitState, Unhex;
    PlainStep(cfg, f, t, c);
    Dispatch(Bump(f, 1), c);
  }

  lemma SizeNextByte(cfg: Settings, f: Fields, t: Trace, c: char)
    requires Valid(f) && f.errno.OK? && f.state.ChunkSize? && f.nread < MAX_HEADER_SIZE && c != '\r' && c != ';'
             && c != ' '
    ensures Step(cfg, Stream(f, t), c) ==
            if Unhex(c) >= 0 && f.contentLength <= (ULLONG_MAX - 16) / 16 then
              Ready(Stream(f.(contentLength := f.contentLength * 16 + Unhex(c), nread := f.nread + 1), t))
            else Failed
  {
    hide Emit, Step, HeaderSound, VisitState, VisitChunkSize, Unhex;
    PlainStep(cfg, f, t, c);
    Dispatch(Bump(f, 1), c);
    SizeVisit(Bump(f, 1), c);
  }

  lemma SizeVisit(f: Fields, c: char)
    requires f.state.ChunkSize? && c != '\r' && c != ';' && c != ' '
    ensures var v := VisitChunkSize(f, c);
            if Unhex(c) >= 0 && f.contentLength <= (ULLONG_MAX - 16) / 16 then
              v == Visit(f.(contentLength := f.contentLength * 16 + Unhex(c)), Nop, Break)
            else v.next.Fail?
  {
    hide MulAdd64, Unhex;
    if Unhex(c) >= 0 && f.contentLength <= (ULLONG_MAX - 16) / 16 {
      NoWrap(f.contentLength, 16, Unhex(c));
    }
  }

  /**
   A chunk size is accepted exactly when it is a hexadecimal numeral within the limit, except that every
   byte above ASCII counts as the digit 0; `content_length` is then its value.
   */
  lemma {:induction false} ChunkSizesAreExact(cfg: Settings, f: Fields, t: Trace, x: string)
    requires Valid(f) && f.errno.OK? && f.state.ChunkSizeStart? && |x| <= MAX_HEADER_SIZE && x != "" && NoSizeEnd(x)
    ensures IsChunkSize(x) ==> SizeOf(x) < ULLONG_MAX
    ensures Run(cfg, Stream(f, t), x) == if IsChunkSize(x) then Ready(Stream(InSize(f, x), t)) else Failed
  {
    hide Emit, Step, Run, Valid, Unhex, SizeOf, IsHexSize, AllSizeBytes;
    var front, c := x[..|x| - 1], x[|x| - 1];
    assert x == front + [c] && f.nread == 0 by {
      StartIsFresh(f);
    }
    if |x| == 1 {
      assert x == [c];
      SizeFirst(c);
      RunOne(cfg, Stream(f, t), c);
      SizeFirstByte(cfg, f, t, c);
    } else {
      assert c in x && forall d <- front :: d in x;
      ChunkSizesAreExact(cfg, f, t, front);
      RunLast(cfg, Stream(f, t), x);
      SizeMore(front, c);
      if IsChunkSize(front) {
        SizeNextByte(cfg, InSize(f, front), t, c);
      }
    }
  }

  lemma StartIsFresh(f: Fields)
    requires Valid(f) && f.state.ChunkSizeStart?
    ensures f.nread == 0
  {
  }

  /** So an ASCII size is accepted exactly when it is a hexadecimal numeral within the limit. */
  lemma AsciiSizesAreNumerals(cfg: Settings, f: Fields, t: Trace, x: string)
    requires Valid(f) && f.errno.OK? && f.state.ChunkSizeStart? && |x| <= MAX_HEADER_SIZE && x != "" && NoSizeEnd(x)
    requires IsAscii(x)
    ensures IsHexSize(x) ==> HexNumeral(x) < ULLONG_MAX
    ensures Run(cfg, Stream(f, t), x) ==
            if IsHexSize(x) then
              Ready(Stream(f.(state := ChunkSize, contentLength := HexNumeral(x), nread := f.nread + |x|), t))
            else Failed
  {
    hide Run, Valid, IsHex, HexNumeral;
    ChunkSizesAreExact(cfg, f, t, x);
    assert AllHex(x) <==> AllSizeBytes(x);
    if AllHex(x) {
      assert forall i | 0 <= i < |x| :: x[i] in x;
      assert Zeroed(x) == x;
    }
  }

  // ----- Chunks -----

  /** A chunk as a peer may write it: any spelling of its size, and an extension that is ignored. */
  datatype Chunk = Chunk(size: string, extension: string, data: string)

  predicate IsExtension(x: string) {
    x == "" || ((x[0] == ';' || x[0] == ' ') && '\r' !in x)
  }

  predicate IsChunkHeader(size: string, extension: string, length: nat) {
    IsChunkSize(size) && IsExtension(extension) && SizeOf(size) == length && |size| + |extension| + 2 <= MAX_HEADER_SIZE
  }

  function ChunkHeaderText(size: string, extension: string): string {
    size + extension + "\r\n"
  }

  lemma EndsAreNoDigits()
    ensures Unhex(';') == -1 && Unhex(' ') == -1 && Unhex('\r') == -1
  {
  }

  lemma ParameterVisit(f: Fields, c: char)
    requires c != '\r' && (f.state.ChunkParameters? || (f.state.ChunkSize? && (c == ';' || c == ' ')))
    ensures VisitChunkSize(f, c) == Go(f, ChunkParameters)
  {
    hide MulAdd64, Unhex;
    EndsAreNoDigits();
  }

  lemma ParameterByte(cfg: Settings, f: Fields, t: Trace, c: char)
    requires Valid(f) && f.errno.OK? && f.nread < MAX_HEADER_SIZE && c != '\r'
    requires f.state.ChunkParameters? || (f.state.ChunkSize? && (c == ';' || c == ' '))
    ensures Step(cfg, Stream(f, t), c) == Ready(Stream(f.(state := ChunkParameters, nread := f.nread + 1), t))
  {
    hide Emit, Step, HeaderSound, VisitState, VisitChunkSize;
    PlainStep(cfg, f, t, c);
    Dispatch(Bump(f, 1), c);
    ParameterVisit(Bump(f, 1), c);
  }

  lemma {:induction false} ExtensionRun(cfg: Settings, f: Fields, t: Trace, x: string)
    requires Valid(f) && f.errno.OK? && f.state.ChunkSize? && f.nread + |x| <= MAX_HEADER_SIZE && IsExtension(x)
    ensures Run(cfg, Stream(f, t),
            x) == Ready(Stream(f.(state := if x == "" then ChunkSize else ChunkParameters, nread := f.nread + |x|), t))
  {
    hide Emit, Step, Run, Valid;
    if x == "" {
      RunNothing(cfg, Stream(f, t));
    } else {
      var front, c := x[..|x| - 1], x[|x| - 1];
      assert c in x && forall d <- front :: d in x;
      ExtensionRun(cfg, f, t, front);
      RunLast(cfg, Stream(f, t), x);
      ParameterByte(cfg, f.(state := if front == "" then ChunkSize else ChunkParameters, nread := f.nread + |front|), t,
        c);
    }
  }

  /** The fields after the line that begins a chunk. */
  function AfterChunkHeader(f: Fields): Fields {
    if f.contentLength == 0 then f.(nread := 0, flags := f.flags.(trailing := true), state := HeaderFieldStart)
    else f.(nread := 0, state := ChunkData)
  }

  lemma ChunkLineEnd(cfg: Settings, f: Fields, t: Trace)
    requires Valid(f) && f.errno.OK? && (f.state.ChunkSize? || f.state.ChunkParameters?)
             && f.nread + 2 <= MAX_HEADER_SIZE
    ensures Run(cfg, Stream(f, t), "\r\n") == Ready(Stream(AfterChunkHeader(f), Emit(t, Note(OnChunkHeader))))
  {
    hide Emit, Step, HeaderSound, Run, AfterChunkHeader;
    ChunkLineReturn(cfg, f, t);
    ChunkLineFeed(cfg, f.(state := ChunkSizeAlmostDone, nread := f.nread + 1), t);
    TwoBytes(cfg, Stream(f, t), '\r', '\n');
    assert AfterChunkHeader(f) == AfterChunkHeader(f.(state := ChunkSizeAlmostDone, nread := f.nread + 1)) by {
      SameHeaderEnd(f);
    }
  }

  lemma SameHeaderEnd(f: Fields)
    ensures AfterChunkHeader(f) == AfterChunkHeader(f.(state := ChunkSizeAlmostDone, nread := f.nread + 1))
  {
  }

  lemma ChunkLineReturn(cfg: Settings, f: Fields, t: Trace)
    requires Valid(f) && f.errno.OK? && (f.state.ChunkSize? || f.state.ChunkParameters?) && f.nread < MAX_HEADER_SIZE
    ensures Step(cfg, Stream(f, t), '\r') == Ready(Stream(f.(state := ChunkSizeAlmostDone, nread := f.nread + 1), t))
  {
    hide Emit, Step, HeaderSound, VisitState, VisitChunkSize;
    PlainStep(cfg, f, t, '\r');
    Dispatch(Bump(f, 1), '\r');
    ChunkReturnVisit(Bump(f, 1));
  }

  lemma ChunkReturnVisit(f: Fields)
    requires f.state.ChunkSize? || f.state.ChunkParameters?
    ensures VisitChunkSize(f, '\r') == Go(f, ChunkSizeAlmostDone)
  {
    hide MulAdd64, Unhex;
  }

  lemma ChunkLineFeed(cfg: Settings, f: Fields, t: Trace)
    requires Valid(f) && f.errno.OK? && f.state.ChunkSizeAlmostDone? && f.nread < MAX_HEADER_SIZE
    ensures Step(cfg, Stream(f, t), '\n') == Ready(Stream(AfterChunkHeader(f), Emit(t, Note(OnChunkHeader))))
  {
    hide Emit, Step, HeaderSound, VisitState, MulAdd64;
    PlainStep(cfg, f, t, '\n');
    Dispatch(Bump(f, 1), '\n');
  }

  lemma SizeHasNoEnd(x: string)
    requires AllSizeBytes(x)
    ensures NoSizeEnd(x)
  {
    forall c | c in x ensures c != '\r' && c != ';' && c != ' ' {
      assert IsSizeByte(c);
    }
  }

  /** The line that begins a chunk of `n` bytes. */
  lemma ChunkHeaderRun(cfg: Settings, f: Fields, t: Trace, size: string, extension: string, n: nat)
    requires Valid(f) && f.errno.OK? && f.state.ChunkSizeStart? && IsChunkHeader(size, extension, n)
    ensures Run(cfg, Stream(f, t), ChunkHeaderText(size, extension)) ==
            Ready(Stream(AfterChunkHeader(f.(contentLength := n)), Emit(t, Note(OnChunkHeader))))
  {
    hide Emit, Run, Valid, Unhex, IsHex, SizeOf, IsExtension;
    SizeHasNoEnd(size);
    StartIsFresh(f);
    ChunkSizesAreExact(cfg, f, t, size);
    var g := InSize(f, size);
    ExtensionRun(cfg, g, t, extension);
    var g' := g.(state := if extension == "" then ChunkSize else ChunkParameters, nread := g.nread + |extension|);
    ChunkLineEnd(cfg, g', t);
    RunAppend(cfg, Stream(f, t), size, extension + "\r\n");
    RunAppend(cfg, Stream(g, t), extension, "\r\n");
    assert size + (extension + "\r\n") == ChunkHeaderText(size, extension);
  }

  lemma ChunkDataReturn(cfg: Settings, f: Fields, t: Trace)
    requires Valid(f) && f.errno.OK? && f.state.ChunkDataAlmostDone?
    ensures Step(cfg, Stream(f, t), '\r') == Ready(Stream(f.(state := ChunkDataDone), t))
  {
    hide Emit, Step, HeaderSound, VisitState, MulAdd64;
    PlainStep(cfg, f, t, '\r');
    Dispatch(f, '\r');
  }

  lemma ChunkDataFeed(cfg: Settings, f: Fields, t: Trace)
    requires Valid(f) && f.errno.OK? && f.state.ChunkDataDone?
    ensures Step(cfg, Stream(f, t), '\n')
            == Ready(Stream(f.(state := ChunkSizeStart, nread := 0), Emit(t, Note(OnChunkComplete))))
  {
    hide Emit, Step, HeaderSound, VisitState, MulAdd64;
    PlainStep(cfg, f, t, '\n');
    Dispatch(f, '\n');
  }

  lemma ChunkDataEnd(cfg: Settings, f: Fields, t: Trace)
    requires Valid(f) && f.errno.OK? && f.state.ChunkDataAlmostDone?
    ensures Run(cfg, Stream(f, t), "\r\n")
            == Ready(Stream(f.(state := ChunkSizeStart, nread := 0), Emit(t, Note(OnChunkComplete))))
  {
    hide Emit, Step, Run, Valid;
    ChunkDataReturn(cfg, f, t);
    ChunkDataFeed(cfg, f.(state := ChunkDataDone), t);
    TwoBytes(cfg, Stream(f, t), '\r', '\n');
  }

  function ChunkText(c: Chunk): string {
    ChunkHeaderText(c.size, c.extension) + c.data + "\r\n"
  }

  predicate IsChunk(c: Chunk) {
    IsChunkHeader(c.size, c.extension, |c.data|) && c.data != ""
  }

  function ChunkTrace(t: Trace, c: Chunk): Trace {
    Emit(Emit(Emit(t, Note(OnChunkHeader)), Data(OnBody, c.data)), Note(OnChunkComplete))
  }

  /** A chunk: its data are delivered between a chunk-header and a chunk-complete. */
  lemma ChunkRun(cfg: Settings, f: Fields, t: Trace, c: Chunk)
    requires Valid(f) && f.errno.OK? && f.state.ChunkSizeStart? && IsChunk(c)
    ensures Run(cfg, Stream(f, t), ChunkText(c)) == Ready(Stream(f.(contentLength := 0), ChunkTrace(t, c)))
  {
    hide Emit, Run, Valid, IsChunkHeader, ChunkHeaderText;
    var n := |c.data|;
    StartIsFresh(f);
    ChunkHeaderRun(cfg, f, t, c.size, c.extension, n);
    var g, t1 := AfterChunkHeader(f.(contentLength := n)), Emit(t, Note(OnChunkHeader));
    BodyRun(cfg, g, t1, c.data + "\r\n", n);
    assert (c.data + "\r\n")[..n] == c.data && (c.data + "\r\n")[n..] == "\r\n";
    ChunkDataEnd(cfg, BodyLess(g, n), Emit(t1, Data(OnBody, c.data)));
    RunAppend(cfg, Stream(f, t), ChunkHeaderText(c.size, c.extension), c.data + "\r\n");
    assert ChunkHeaderText(c.size, c.extension) + (c.data + "\r\n") == ChunkText(c);
  }

  /** A byte above ASCII is a chunk size of its own, and ends the body like the size 0. */
  lemma HighByteEndsBody(cfg: Settings, f: Fields, t: Trace, c: char)
    requires Valid(f) && f.errno.OK? && f.state.ChunkSizeStart? && c as int >= 128
    ensures !IsHexSize([c])
    ensures Run(cfg, Stream(f, t), [c] + "\r\n") ==
            Ready(Stream(f.(contentLength := 0, nread := 0, flags := f.flags.(trailing := true),
              state := HeaderFieldStart),
                         Emit(t, Note(OnChunkHeader))))
  {
    hide Emit, Run, Valid;
    assert c in [c];
    SizeFirst(c);
    assert ChunkHeaderText([c], "") == [c] + "\r\n";
    ChunkHeaderRun(cfg, f, t, [c], "", 0);
  }
}
