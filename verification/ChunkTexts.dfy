/** Which texts frame the chunks of a body, and what is refused there. */
module ChunkTexts {
  import opened Traces
  import opened HttpTypes
  import opened HttpVisit
  import opened HttpRun
  import opened HttpHeaders
  import opened HttpValues
  import opened HttpBodies
  import opened UrlGrammar
  import opened RequestLines

  // ----- The line that begins a chunk -----

  lemma SizeIsSize(x: string, n: nat)
    requires n == Until(x, "; ") && '\r' !in x
    ensures NoSizeEnd(x[..n]) && IsExtension(x[n..])
  {
  }

  lemma NoDigitFails(cfg: Settings, f: Fields, t: Trace, x: string)
    requires Valid(f) && f.errno.OK? && f.state.ChunkSizeStart? && x != ""
             && (x[0] == ';' || x[0] == ' ' || x[0] == '\r')
    ensures Run(cfg, Stream(f, t), x) == Failed
  {
    hide Run, Step, Valid;
    EndsAreNoDigits();
    SizeFirstByte(cfg, f, t, x[0]);
    FailedRun(cfg, Stream(f, t), x);
  }

  lemma SizeHasBytes(x: string)
    requires IsChunkSize(x)
    ensures AllSizeBytes(x)
  {
  }

  lemma NothingIsNoSize()
    ensures !IsChunkSize("")
  {
  }

  /**
   A line, CR LF at its end, begins a chunk exactly if what stands before the first `;` or space is a chunk
   size; what comes after is ignored.
   */
  lemma ChunkLineIsExact(cfg: Settings, f: Fields, t: Trace, x: string)
    requires Valid(f) && f.errno.OK? && f.state.ChunkSizeStart? && '\r' !in x && |x| + 2 <= MAX_HEADER_SIZE
    ensures var size := x[..Until(x, "; ")];
            Run(cfg, Stream(f, t), x + "\r\n") ==
            if IsChunkSize(size) then
              Ready(Stream(AfterChunkHeader(f.(contentLength := SizeOf(size))), Emit(t, Note(OnChunkHeader))))
            else Failed
  {
    hide Emit, Run, Valid, IsChunkSize, SizeOf, Until, AfterChunkHeader;
    var n := Until(x, "; ");
    var size := x[..n];
    SizeIsSize(x, n);
    NothingIsNoSize();
    if n == 0 {
      FirstIsEnd(x);
      NoDigitFails(cfg, f, t, x + "\r\n");
    } else if IsChunkSize(size) {
      SizeHasBytes(size);
      assert x + "\r\n" == ChunkHeaderText(size, x[n..]);
      ChunkHeaderRun(cfg, f, t, size, x[n..], SizeOf(size));
    } else {
      assert x + "\r\n" == size + (x[n..] + "\r\n");
      RunAppend(cfg, Stream(f, t), size, x[n..] + "\r\n");
      ChunkSizesAreExact(cfg, f, t, size);
    }
  }

  lemma FirstIsEnd(x: string)
    requires Until(x, "; ") == 0
    ensures (x + "\r\n")[0] in "; \r" && x[..0] == ""
  {
  }

  lemma ChunkFeedIsNeeded(cfg: Settings, f: Fields, t: Trace, ch: char)
    requires Valid(f) && f.errno.OK? && f.state.ChunkSizeAlmostDone? && f.nread < MAX_HEADER_SIZE && ch != '\n'
    ensures Step(cfg, Stream(f, t), ch).Failed?
  {
    hide Emit, Step, Sound, VisitState;
    PlainStep(cfg, f, t, ch);
    Dispatch(Bump(f, 1), ch);
  }

  /** A CR in that line that is not followed by LF is refused. */
  lemma ChunkLineNeedsFeed(cfg: Settings, f: Fields, t: Trace, x: string, ch: char)
    requires Valid(f) && f.errno.OK? && f.state.ChunkSizeStart? && '\r' !in x && |x| + 2 <= MAX_HEADER_SIZE
             && ch != '\n'
    ensures Run(cfg, Stream(f, t), x + ("\r" + [ch])) == Failed
  {
    hide Emit, Run, Step, Valid, IsChunkSize, SizeOf, Until, InSize;
    var n := Until(x, "; ");
    var size, extension := x[..n], x[n..];
    SizeIsSize(x, n);
    StartIsFresh(f);
    if n == 0 {
      FirstIsEnd(x);
      assert (x + ("\r" + [ch]))[0] == (x + "\r\n")[0];
      NoDigitFails(cfg, f, t, x + ("\r" + [ch]));
    } else {
      assert x + ("\r" + [ch]) == size + (extension + ("\r" + [ch]));
      RunAppend(cfg, Stream(f, t), size, extension + ("\r" + [ch]));
      ChunkSizesAreExact(cfg, f, t, size);
      if IsChunkSize(size) {
        SizeHasBytes(size);
        var g := InSize(f, size);
        SizeStands(f, size);
        ExtensionRun(cfg, g, t, extension);
        RunAppend(cfg, Stream(g, t), extension, "\r" + [ch]);
        var h := g.(state := if extension == "" then ChunkSize else ChunkParameters, nread := g.nread + |extension|);
        ChunkLineReturn(cfg, h, t);
        var k := h.(state := ChunkSizeAlmostDone, nread := h.nread + 1);
        ReadyRun(cfg, Stream(h, t), "\r" + [ch], Stream(k, t));
        assert ("\r" + [ch])[1..] == [ch];
        RunOne(cfg, Stream(k, t), ch);
        ChunkFeedIsNeeded(cfg, k, t, ch);
      }
    }
  }

  lemma SizeStands(f: Fields, size: string)
    requires IsChunkSize(size)
    ensures InSize(f, size).state.ChunkSize? && InSize(f, size).errno == f.errno
            && InSize(f, size).nread == f.nread + |size|
  {
  }

  // ----- The end of a chunk -----

  lemma DataEndBytes(cfg: Settings, f: Fields, t: Trace, ch: char)
    requires Valid(f) && f.errno.OK?
    ensures f.state.ChunkDataAlmostDone? && ch != '\r' ==> Step(cfg, Stream(f, t), ch).Failed?
    ensures f.state.ChunkDataDone? && ch != '\n' ==> Step(cfg, Stream(f, t), ch).Failed?
  {
    hide Emit, Step, HeaderSound, VisitState, MulAdd64;
    if f.state.ChunkDataAlmostDone? || f.state.ChunkDataDone? {
      PlainStep(cfg, f, t, ch);
      Dispatch(f, ch);
    }
  }

  /** Behind its data a chunk has CR LF, and nothing else. */
  lemma ChunkEndIsExact(cfg: Settings, f: Fields, t: Trace, a: char, b: char)
    requires Valid(f) && f.errno.OK? && f.state.ChunkDataAlmostDone?
    ensures Run(cfg, Stream(f, t), [a, b]) ==
            if a == '\r' && b == '\n' then
              Ready(Stream(f.(state := ChunkSizeStart, nread := 0), Emit(t, Note(OnChunkComplete))))
            else Failed
  {
    hide Emit, Run, Step, Valid;
    if a != '\r' {
      DataEndBytes(cfg, f, t, a);
      FailedRun(cfg, Stream(f, t), [a, b]);
    } else {
      ChunkDataReturn(cfg, f, t);
      var g := f.(state := ChunkDataDone);
      ReadyRun(cfg, Stream(f, t), [a, b], Stream(g, t));
      assert [a, b][1..] == [b];
      RunOne(cfg, Stream(g, t), b);
      if b == '\n' {
        ChunkDataFeed(cfg, g, t);
      } else {
        DataEndBytes(cfg, g, t, b);
      }
    }
  }

  // ----- The limits, in figures -----

  lemma {:induction false} FrontValue(x: string)
    requires x != "" && AllHex(x)
    ensures AllHex(x[..|x| - 1]) && HexNumeral(x[..|x| - 1]) == HexNumeral(x) / 16
  {
    assert forall c <- x[..|x| - 1] :: c in x;
    assert x[|x| - 1] in x;
  }

  /** A chunk may be as long as 0xFFFFFFFFFFFFFFEF. */
  lemma ChunkLimit(x: string)
    ensures IsHexSize(x) <==> x != "" && AllHex(x) && HexNumeral(x) <= 0xFFFF_FFFF_FFFF_FFEF
  {
    if x != "" && AllHex(x) {
      FrontValue(x);
    }
  }

  lemma FrontOfNumeral(x: string)
    requires x != "" && AllNum(x)
    ensures AllNum(x[..|x| - 1]) && Numeral(x[..|x| - 1]) == Numeral(x) / 10
  {
    assert forall c <- x[..|x| - 1] :: c in x;
    assert x[|x| - 1] in x;
  }

  /** A Content-Length may be as large as 18446744073709551609. */
  lemma LengthLimit(x: string)
    ensures IsLength(x) <==> x != "" && AllNum(x) && Numeral(x) <= 18446744073709551609
  {
    hide Numeral, AllNum;
    if x != "" && AllNum(x) {
      FrontOfNumeral(x);
      Tenth(Numeral(x));
    }
  }

  lemma Tenth(n: nat)
    ensures n / 10 <= (ULLONG_MAX - 10) / 10 <==> n <= 18446744073709551609
  {
    assert (ULLONG_MAX - 10) / 10 == 1844674407370955160;
  }
}
