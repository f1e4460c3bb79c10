/** Which status lines the parser takes, and what it reads off them. */
module StatusLines {
  import opened Options
  import opened Traces
  import opened HttpTypes
  import opened HttpVisit
  import opened HttpRun
  import opened HttpHeaders
  import opened HttpValues
  import opened CharacterSets
  import opened UrlGrammar
  import opened RequestLines
  import opened MessageEnds
  import ResponseRoundTrip

  // ----- The grammar -----

  /** The version and the space behind it. */
  predicate BeginsStatusLine(x: string) {
    |x| >= 9 && x[..5] == "HTTP/" && IsDigits(x[5..8]) && x[8] == ' '
  }

  /** What stands behind the version, up to the next space, and what stands behind that. */
  function CodeText(x: string): string
    requires |x| >= 9
  {
    var y := AfterSpaces(x[9..]);
    y[..Until(y, " ")]
  }

  function ReasonText(x: string): string
    requires |x| >= 9
  {
    var y := AfterSpaces(x[9..]);
    if Until(y, " ") < |y| then y[Until(y, " ") + 1..] else ""
  }

  predicate IsCode(x: string) {
    x != "" && AllNum(x) && Numeral(x) <= 999
  }

  /** A version, a code of at most 999, and perhaps a reason phrase. */
  predicate IsStatusLine(x: string) {
    BeginsStatusLine(x) && IsCode(CodeText(x))
  }

  // ----- Single bytes -----

  predicate IsPlainLineState(s: State) {
    IsResponseLineState(s) && !s.ResStatusStart? && !s.ResStatus?
  }

  lemma PlainLineStep(cfg: Settings, f: Fields, t: Trace, ch: char)
    requires Valid(f) && f.errno.OK? && IsPlainLineState(f.state) && f.nread < MAX_HEADER_SIZE
    requires !(f.state.ResStatusCode? && IsLineEnd(ch))
    ensures var v := VisitResponseLine(Bump(f, 1), ch);
            Step(cfg, Stream(f, t), ch) == if v.next.Fail? then Failed else Ready(Stream(v.f, t))
  {
    hide Emit, Step, Sound, VisitState, VisitResponseLine;
    PlainStep(cfg, f, t, ch);
    Dispatch(Bump(f, 1), ch);
    PlainLineVisit(Bump(f, 1), ch);
  }

  lemma PlainLineVisit(f: Fields, ch: char)
    requires IsPlainLineState(f.state) && !(f.state.ResStatusCode? && IsLineEnd(ch))
    ensures var v := VisitResponseLine(f, ch); v.next.Fail? || (v.op.Nop? && v.next.Break?)
  {
  }

  /** One byte, which is right or refused. */
  lemma LineByte(cfg: Settings, f: Fields, t: Trace, x: string, g: Fields)
    requires Valid(f) && f.errno.OK? && IsPlainLineState(f.state) && f.nread < MAX_HEADER_SIZE && x != ""
    requires !(f.state.ResStatusCode? && IsLineEnd(x[0]))
    requires var v := VisitResponseLine(Bump(f, 1), x[0]); v.next.Fail? || v.f == g
    ensures if VisitResponseLine(Bump(f, 1), x[0]).next.Fail? then Run(cfg, Stream(f, t), x) == Failed
            else Valid(g) && Run(cfg, Stream(f, t), x) == Run(cfg, Stream(g, t), x[1..])
  {
    hide Run, Step, Valid, VisitResponseLine;
    PlainLineStep(cfg, f, t, x[0]);
    if VisitResponseLine(Bump(f, 1), x[0]).next.Fail? {
      FailedRun(cfg, Stream(f, t), x);
    } else {
      ReadyRun(cfg, Stream(f, t), x, Stream(g, t));
    }
  }

  function At(f: Fields, s: State, n: nat): Fields {
    f.(state := s, nread := f.nread + n)
  }

  /** The byte that a state needs, and the state it leads to. */
  function Needed(s: State): (char, State) {
    match s
    case ResH => ('T', ResHT) case ResHT => ('T', ResHTT) case ResHTT => ('P', ResHTTP) case ResHTTP =>
                 ('/', ResHttpMajor)
    case ResHttpDot => ('.', ResHttpMinor) case ResHttpEnd => (' ', ResFirstStatusCode)
    case _ => ('\n', HeaderFieldStart)
  }

  predicate NeedsByte(s: State) {
    s.ResH? || s.ResHT? || s.ResHTT? || s.ResHTTP? || s.ResHttpDot? || s.ResHttpEnd? || s.ResLineAlmostDone?
  }

  lemma NeededByte(cfg: Settings, f: Fields, t: Trace, x: string)
    requires Valid(f) && f.errno.OK? && NeedsByte(f.state) && f.nread < MAX_HEADER_SIZE && x != ""
    ensures var (c, s) := Needed(f.state);
            if x[0] == c then Valid(At(f, s, 1))
              && Run(cfg, Stream(f, t), x) == Run(cfg, Stream(At(f, s, 1), t), x[1..])
            else Run(cfg, Stream(f, t), x) == Failed
  {
    hide Run, Valid;
    LineByte(cfg, f, t, x, At(f, Needed(f.state).1, 1));
  }

  lemma DigitByte(cfg: Settings, f: Fields, t: Trace, x: string)
    requires Valid(f) && f.errno.OK? && (f.state.ResHttpMajor? || f.state.ResHttpMinor?) && f.nread < MAX_HEADER_SIZE
             && x != ""
    ensures if x[0] in DIGITS then
              && IsNum(x[0])
              && var g := if f.state.ResHttpMajor? then At(f, ResHttpDot, 1).(major := Digit(x[0]))
                          else At(f, ResHttpEnd, 1).(minor := Digit(x[0]));
                 Valid(g) && Run(cfg, Stream(f, t), x) == Run(cfg, Stream(g, t), x[1..])
            else Run(cfg, Stream(f, t), x) == Failed
  {
    hide Run, Valid, Digit;
    DigitCharacters(x[0]);
    LineByte(cfg, f, t, x,
      if !IsNum(x[0]) then f
      else if f.state.ResHttpMajor? then At(f, ResHttpDot, 1).(major := Digit(x[0]))
      else At(f, ResHttpEnd, 1).(minor := Digit(x[0])));
  }

  // ----- The version -----

  /** What has to follow in the states of `HTTP/`. */
  function Rest(s: State): string {
    match s
    case ResH => "TTP/" case ResHT => "TP/" case ResHTT => "P/" case ResHTTP => "/" case _ => ""
  }

  lemma RestNeeds(s: State)
    requires Rest(s) != ""
    ensures NeedsByte(s) && Needed(s).0 == Rest(s)[0] && Rest(Needed(s).1) == Rest(s)[1..]
    ensures Rest(s)[1..] == "" ==> Needed(s).1 == ResHttpMajor
    ensures !IsLineEnd(Rest(s)[0])
  {
  }

  lemma {:induction false} ProtocolRun(cfg: Settings, f: Fields, t: Trace, x: string, e: string)
    requires Valid(f) && f.errno.OK? && Rest(f.state) != "" && f.nread + |x + e| <= MAX_HEADER_SIZE
    requires OneLine(x) && IsLineEndText(e)
    ensures var w := Rest(f.state);
            if w <= x then
              Valid(At(f, ResHttpMajor, |w|))
              && Run(cfg, Stream(f, t), x + e) == Run(cfg, Stream(At(f, ResHttpMajor, |w|), t), x[|w|..] + e)
            else Run(cfg, Stream(f, t), x + e) == Failed
    decreases |Rest(f.state)|
  {
    hide Run, Valid, Rest, Needed, NeedsByte, OneLine;
    var w := Rest(f.state);
    RestNeeds(f.state);
    NeededByte(cfg, f, t, x + e);
    WordHead(w, x, e);
    if x != "" && x[0] == w[0] {
      assert (x + e)[1..] == x[1..] + e;
      LinePart(x, 1, |x|);
      assert x[1..] == x[1..|x|];
      if w[1..] != "" {
        ProtocolRun(cfg, At(f, Needed(f.state).1, 1), t, x[1..], e);
        assert w <= x ==> x[1..][|w| - 1..] == x[|w|..];
      }
    }
  }

  lemma WordHead(w: string, x: string, e: string)
    requires w != "" && IsLineEndText(e)
    ensures w <= x <==> x != "" && x[0] == w[0] && w[1..] <= x[1..]
    ensures w[0] != '\r' && w[0] != '\n' ==> ((x + e)[0] == w[0] <==> x != "" && x[0] == w[0])
  {
    assert w == [w[0]] + w[1..];
    if x != "" {
      assert x == [x[0]] + x[1..];
    }
  }

  /** The digits of the version and the space. */
  lemma EndOfNumbers(cfg: Settings, f: Fields, t: Trace, x: string, e: string)
    requires Valid(f) && f.errno.OK? && f.state.ResHttpEnd? && f.nread < MAX_HEADER_SIZE
    requires |x| >= 3 && OneLine(x) && IsLineEndText(e)
    ensures if |x| >= 4 && x[3] == ' ' then
              && var g := At(f, ResFirstStatusCode, 1);
                 Valid(g) && Run(cfg, Stream(f, t), x[3..] + e) == Run(cfg, Stream(g, t), x[4..] + e)
            else Run(cfg, Stream(f, t), x[3..] + e) == Failed
  {
    hide Run, Valid;
    var y := x[3..] + e;
    NeededByte(cfg, f, t, y);
    assert y[0] == ' ' <==> |x| > 3 && x[3] == ' ';
    if |x| > 3 {
      assert y[1..] == x[4..] + e;
    }
  }

  lemma NumbersRun(cfg: Settings, f: Fields, t: Trace, x: string, e: string)
    requires Valid(f) && f.errno.OK? && f.state.ResHttpMajor? && f.nread + |x + e| <= MAX_HEADER_SIZE
    requires OneLine(x) && IsLineEndText(e)
    ensures if |x| >= 4 && IsDigits(x[..3]) && x[3] == ' ' then
              && IsNum(x[0]) && IsNum(x[2])
              && var g := At(f, ResFirstStatusCode, 4).(major := Digit(x[0]), minor := Digit(x[2]));
                 Valid(g) && Run(cfg, Stream(f, t), x + e) == Run(cfg, Stream(g, t), x[4..] + e)
            else Run(cfg, Stream(f, t), x + e) == Failed
  {
    hide Run, Valid, Digit, IsNum;
    var y := x + e;
    EndIsNothing(e[0]);
    DigitByte(cfg, f, t, y);
    if y[0] in DIGITS {
      assert x != "" && y[0] == x[0];
      var g1, y1 := At(f, ResHttpDot, 1).(major := Digit(y[0])), y[1..];
      assert y1 == x[1..] + e;
      NeededByte(cfg, g1, t, y1);
      if y1[0] == '.' {
        assert |x| > 1 && x[1] == '.';
        var g2, y2 := At(g1, ResHttpMinor, 1), y1[1..];
        assert y2 == x[2..] + e;
        DigitByte(cfg, g2, t, y2);
        if y2[0] in DIGITS {
          assert |x| > 2 && y2[0] == x[2];
          var g3, y3 := At(g2, ResHttpEnd, 1).(minor := Digit(y2[0])), y2[1..];
          assert y3 == x[3..] + e;
          EndOfNumbers(cfg, g3, t, x, e);
        } else {
          assert |x| > 2 ==> y2[0] == x[2];
        }
      } else {
        assert |x| > 1 ==> y1[0] == x[1];
      }
    } else {
      assert x != "" ==> y[0] == x[0];
    }
  }

  lemma EndIsNothing(c: char)
    requires IsLineEnd(c)
    ensures c !in DIGITS && c != '.' && c != ' '
  {
    Ranges(c);
  }

  // ----- The code -----

  lemma FirstCodeByte(f: Fields, ch: char)
    requires f.state.ResFirstStatusCode?
    ensures var v := VisitResponseLine(f, ch);
            if ch == ' ' then v.next.Break? && v.f == f
            else if IsNum(ch) then v.next.Break? && v.f == f.(state := ResStatusCode, statusCode := Digit(ch))
            else v.next.Fail?
  {
  }

  lemma {:induction false} CodeSpaces(cfg: Settings, f: Fields, t: Trace, x: string)
    requires Valid(f) && f.errno.OK? && f.state.ResFirstStatusCode? && f.nread + |x| <= MAX_HEADER_SIZE
    ensures var n := |x| - |AfterSpaces(x)|;
            Valid(Bump(f, n)) && Run(cfg, Stream(f, t), x) == Run(cfg, Stream(Bump(f, n), t), AfterSpaces(x))
    decreases |x|
  {
    hide Run, Step, Valid, AfterSpaces, VisitResponseLine;
    AfterSpacesIs(x);
    if x != "" && x[0] == ' ' {
      FirstCodeByte(Bump(f, 1), ' ');
      LineByte(cfg, f, t, x, Bump(f, 1));
      CodeSpaces(cfg, Bump(f, 1), t, x[1..]);
    }
  }

  lemma CodeByte(f: Fields, ch: char)
    requires f.state.ResStatusCode? && !IsLineEnd(ch)
    ensures var v := VisitResponseLine(f, ch);
            if ch == ' ' then v.next.Break? && v.f == f.(state := ResStatusStart)
            else if IsNum(ch) && f.statusCode * 10 + Digit(ch) <= 999 then
              v.next.Break? && v.f == f.(statusCode := f.statusCode * 10 + Digit(ch))
            else v.next.Fail?
  {
    Ranges(' ');
  }

  lemma {:induction false} NumeralGrows(d: string, x: string)
    requires AllNum(d + x)
    ensures AllNum(d) && Numeral(d) <= Numeral(d + x)
    decreases |x|
  {
    assert forall c <- d :: c in d + x;
    if x == "" {
      assert d + x == d;
    } else {
      var front, c := x[..|x| - 1], x[|x| - 1];
      assert d + x == (d + front) + [c] && c in d + x;
      assert forall b <- d + front :: b in d + x;
      NumeralGrows(d, front);
      NumeralMore(d + front, c);
    }
  }

  /** The rest of the code, of which `d` has been read. */
  lemma {:induction false} CodeRun(cfg: Settings, f: Fields, t: Trace, d: string, x: string, e: string)
    requires Valid(f) && f.errno.OK? && f.state.ResStatusCode? && f.nread + |x + e| <= MAX_HEADER_SIZE
    requires IsCode(d) && f.statusCode == Numeral(d) && OneLine(x) && IsLineEndText(e)
    ensures var n := Until(x, " ");
            if IsCode(d + x[..n]) then
              var g := Bump(f, n).(statusCode := Numeral(d + x[..n]));
              Valid(g) && Run(cfg, Stream(f, t), x + e) == Run(cfg, Stream(g, t), x[n..] + e)
            else Run(cfg, Stream(f, t), x + e) == Failed
    decreases |x|
  {
    hide Run, Valid, VisitResponseLine, Digit, IsNum, Until, OneLine, Numeral, AllNum;
    var n := Until(x, " ");
    UntilSpace(x);
    if n == 0 {
      assert d + x[..0] == d && x[0..] == x;
    } else {
      var c := x[0];
      assert (x + e)[0] == c && (x + e)[1..] == x[1..] + e;
      LineHead(x);
      CodeByte(Bump(f, 1), c);
      assert d + x[..n] == (d + [c]) + x[1..][..n - 1] && x[n..] == x[1..][n - 1..];
      CodeMore(d, c, x[1..][..n - 1]);
      if IsNum(c) && f.statusCode * 10 + Digit(c) <= 999 {
        var g := Bump(f, 1).(statusCode := f.statusCode * 10 + Digit(c));
        LineByte(cfg, f, t, x + e, g);
        CodeRun(cfg, g, t, d + [c], x[1..], e);
      } else {
        LineByte(cfg, f, t, x + e, f);
      }
    }
  }

  lemma UntilSpace(x: string)
    ensures Until(x, " ") == 0 || (x[0] != ' ' && Until(x[1..], " ") == Until(x, " ") - 1)
  {
  }

  lemma LineHead(x: string)
    requires x != "" && OneLine(x)
    ensures !IsLineEnd(x[0]) && OneLine(x[1..])
  {
  }

  lemma CodeMore(d: string, c: char, rest: string)
    requires IsCode(d)
    ensures IsCode(d + [c]) <==> IsNum(c) && Numeral(d) * 10 + Digit(c) <= 999
    ensures IsNum(c) ==> AllNum(d + [c]) && Numeral(d + [c]) == Numeral(d) * 10 + Digit(c)
    ensures IsCode((d + [c]) + rest) ==> IsCode(d + [c])
  {
    hide Numeral;
    assert c in d + [c];
    if IsNum(c) {
      NumeralMore(d, c);
    }
    if AllNum((d + [c]) + rest) {
      NumeralGrows(d + [c], rest);
    }
  }

  // ----- The reason phrase and the end of the line -----

  function EndState(c: char): State {
    if c == '\r' then ResLineAlmostDone else HeaderFieldStart
  }

  lemma ReasonEndVisit(cfg: Settings, f: Fields, t: Trace, c: char)
    requires Inside(f) && f.errno.OK? && f.state.ResStatus? && IsLineEnd(c)
    ensures Visits(cfg, Stream(f, t), c, Some(OnStatus))
            == Ready(Stream(f.(state := EndState(c)), Emit(t, Data(OnStatus, ""))))
  {
    hide Emit, Sound, VisitState, Kept;
    VisitKeeps(f, c);
    Dispatch(f, c);
  }

  lemma StartEndVisit(cfg: Settings, f: Fields, t: Trace, c: char)
    requires Inside(f) && f.errno.OK? && f.state.ResStatusStart? && IsLineEnd(c)
    ensures Visits(cfg, Stream(f, t), c, None)
            == Ready(Stream(f.(state := EndState(c), index := 0), Emit(t, Data(OnStatus, ""))))
  {
    hide Emit, Sound, VisitState, Kept;
    VisitKeeps(f, c);
    Dispatch(f, c);
    SoundBounds(f);
    PlainMove(f, f.(state := ResStatus, index := 0));
    ReasonEndVisit(cfg, f.(state := ResStatus, index := 0), t, c);
  }

  lemma CodeEndVisit(cfg: Settings, f: Fields, t: Trace, c: char)
    requires Inside(f) && f.errno.OK? && f.state.ResStatusCode? && IsLineEnd(c)
    ensures Visits(cfg, Stream(f, t), c, None)
            == Ready(Stream(f.(state := EndState(c), index := 0), Emit(t, Data(OnStatus, ""))))
  {
    hide Emit, Sound, VisitState, Kept;
    NoCodeByte(c);
    VisitKeeps(f, c);
    Dispatch(f, c);
    SoundBounds(f);
    PlainMove(f, f.(state := ResStatusStart));
    StartEndVisit(cfg, f.(state := ResStatusStart), t, c);
  }

  lemma NoCodeByte(c: char)
    requires IsLineEnd(c)
    ensures !IsNum(c) && c != ' '
  {
  }

  /** The first byte of the line end, in any state behind the code. */
  lemma EndStep(cfg: Settings, f: Fields, t: Trace, c: char)
    requires Valid(f) && f.errno.OK? && (f.state.ResStatusCode? || f.state.ResStatusStart? || f.state.ResStatus?)
             && f.nread < MAX_HEADER_SIZE && IsLineEnd(c)
    ensures Step(cfg, Stream(f, t), c) ==
            Ready(Stream(At(f, EndState(c), 1).(index := if f.state.ResStatus? then f.index else 0),
              Emit(t, Data(OnStatus, ""))))
  {
    hide Emit, Visits, Valid, Inside, IsLineEnd;
    CountedInside(f);
    var g := Bump(f, 1);
    if f.state.ResStatusCode? {
      CodeEndVisit(cfg, g, t, c);
    } else if f.state.ResStatusStart? {
      StartEndVisit(cfg, g, t, c);
    } else {
      ReasonEndVisit(cfg, g, t, c);
    }
  }

  lemma LineEndRun(cfg: Settings, f: Fields, t: Trace, e: string)
    requires Valid(f) && f.errno.OK? && (f.state.ResStatusCode? || f.state.ResStatusStart? || f.state.ResStatus?)
             && f.nread + |e| <= MAX_HEADER_SIZE && IsLineEndText(e)
    ensures Run(cfg, Stream(f, t), e) ==
            Ready(Stream(At(f, HeaderFieldStart, |e|).(index := if f.state.ResStatus? then f.index else 0),
              Emit(t, Data(OnStatus, ""))))
  {
    hide Emit, Run, Step, Valid;
    EndStep(cfg, f, t, e[0]);
    var g := At(f, EndState(e[0]), 1).(index := if f.state.ResStatus? then f.index else 0);
    var t' := Emit(t, Data(OnStatus, ""));
    ReadyRun(cfg, Stream(f, t), e, Stream(g, t'));
    if e[0] == '\r' {
      assert e[1..] == "\n" && "\n"[1..] == "";
      NeededByte(cfg, g, t', "\n");
      RunNothing(cfg, Stream(At(g, HeaderFieldStart, 1), t'));
    } else {
      assert e[1..] == "";
      RunNothing(cfg, Stream(g, t'));
    }
  }

  lemma ReasonIsRead(cfg: Settings, f: Fields, t: Trace, reason: string, e: string)
    requires Valid(f) && f.errno.OK? && f.state.ResStatusStart? && f.nread + |reason + e| <= MAX_HEADER_SIZE
    requires OneLine(reason) && IsLineEndText(e)
    ensures Run(cfg, Stream(f, t), reason + e)
            == Ready(Stream(At(f, HeaderFieldStart, |reason + e|).(index := 0), Emit(t, Data(OnStatus, reason))))
  {
    hide Emit, Run, Valid, OneLine;
    RunAppend(cfg, Stream(f, t), reason, e);
    if reason == "" {
      RunNothing(cfg, Stream(f, t));
      LineEndRun(cfg, f, t, e);
    } else {
      ResponseRoundTrip.ReasonRun(cfg, f, t, reason);
      var g := f.(state := ResStatus, index := 0, nread := f.nread + |reason|);
      LineEndRun(cfg, g, Emit(t, Data(OnStatus, reason)), e);
      EmitPieces(t, OnStatus, reason, "");
      assert reason + "" == reason;
    }
  }

  /** Behind the digits of the code: nothing, or a space and the reason phrase. */
  lemma BehindCode(cfg: Settings, f: Fields, t: Trace, z: string, e: string)
    requires Valid(f) && f.errno.OK? && f.state.ResStatusCode? && f.nread + |z + e| <= MAX_HEADER_SIZE
    requires (z == "" || z[0] == ' ') && OneLine(z) && IsLineEndText(e)
    ensures Run(cfg, Stream(f, t), z + e) ==
            Ready(Stream(At(f, HeaderFieldStart, |z + e|).(index := 0),
              Emit(t, Data(OnStatus, if z == "" then "" else z[1..]))))
  {
    hide Emit, Run, Valid, VisitResponseLine;
    if z == "" {
      assert z + e == e;
      LineEndRun(cfg, f, t, e);
    } else {
      CodeByte(Bump(f, 1), ' ');
      LineByte(cfg, f, t, z + e, At(f, ResStatusStart, 1));
      assert (z + e)[1..] == z[1..] + e;
      LineHead(z);
      ReasonIsRead(cfg, At(f, ResStatusStart, 1), t, z[1..], e);
    }
  }

  // ----- The whole line -----

  lemma FirstDigit(c: char)
    requires IsNum(c)
    ensures IsCode([c]) && Numeral([c]) == Digit(c)
  {
    NumeralMore("", c);
    assert "" + [c] == [c];
  }

  /** What the code and the reason phrase in `w` lead to, `n` bytes in all. */
  function CodeResult(f: Fields, t: Trace, w: string, n: nat): Result {
    var k := Until(w, " ");
    if IsCode(w[..k]) then
      Ready(Stream(At(f, HeaderFieldStart, n).(index := 0, statusCode := Numeral(w[..k])),
        Emit(t, Data(OnStatus, if k < |w| then w[k + 1..] else ""))))
    else Failed
  }

  /** From behind the version on, the spaces skipped. */
  lemma CodeAndReason(cfg: Settings, f: Fields, t: Trace, w: string, e: string)
    requires Valid(f) && f.errno.OK? && f.state.ResFirstStatusCode? && f.nread + |w + e| <= MAX_HEADER_SIZE
    requires OneLine(w) && (w != "" ==> w[0] != ' ') && IsLineEndText(e)
    ensures Run(cfg, Stream(f, t), w + e) == CodeResult(f, t, w, |w + e|)
  {
    hide Emit, Run, Valid, VisitResponseLine, Digit, Until, OneLine, Numeral, IsNum;
    var y := w + e;
    FirstCodeByte(Bump(f, 1), y[0]);
    NoCodeByte(e[0]);
    UntilSpace(w);
    var n := Until(w, " ");
    if w == "" || !IsNum(w[0]) {
      assert w != "" ==> y[0] == w[0];
      LineByte(cfg, f, t, y, f);
      NoCode(w, n);
    } else {
      assert y[0] == w[0] && y[1..] == w[1..] + e;
      var g := At(f, ResStatusCode, 1).(statusCode := Digit(w[0]));
      LineByte(cfg, f, t, y, g);
      FirstDigit(w[0]);
      LineHead(w);
      FirstIsNoSpace(w, n);
      CodeRun(cfg, g, t, [w[0]], w[1..], e);
      assert [w[0]] + w[1..][..n - 1] == w[..n] && w[1..][n - 1..] == w[n..];
      if IsCode(w[..n]) {
        LinePart(w, n, |w|);
        assert w[n..] == w[n..|w|];
        StopsAtSpace(w, n);
        BehindCode(cfg, Bump(g, n - 1).(statusCode := Numeral(w[..n])), t, w[n..], e);
        assert n < |w| ==> w[n..][1..] == w[n + 1..];
      }
    }
  }

  lemma NoCode(w: string, n: nat)
    requires n == Until(w, " ") && (w == "" || !IsNum(w[0]))
    ensures !IsCode(w[..n])
  {
    assert n > 0 ==> w[..n][0] == w[0] && w[0] in w[..n];
  }

  lemma FirstIsNoSpace(w: string, n: nat)
    requires w != "" && n == Until(w, " ") && w[0] != ' '
    ensures n > 0 && Until(w[1..], " ") == n - 1
  {
  }

  lemma StopsAtSpace(w: string, n: nat)
    requires n == Until(w, " ")
    ensures w[n..] == "" || w[n..][0] == ' '
  {
  }

  /** The fields behind a status line of `n` bytes. */
  function AfterStatus(f: Fields, x: string, n: nat): Fields
    requires IsStatusLine(x) && IsNum(x[5]) && IsNum(x[7])
  {
    f.(flags := NO_FLAGS, contentLength := ULLONG_MAX, state := HeaderFieldStart, index := 0, nread := f.nread + n,
       major := Digit(x[5]), minor := Digit(x[7]), statusCode := Numeral(CodeText(x)))
  }

  lemma CodeResultLater(f: Fields, t: Trace, w: string, n: nat, k: nat)
    ensures CodeResult(Bump(f, k), t, w, n) == CodeResult(f, t, w, n + k)
  {
    hide Emit, Until, IsCode, Numeral;
  }

  lemma BehindVersion(cfg: Settings, f: Fields, t: Trace, z: string, e: string)
    requires Valid(f) && f.errno.OK? && f.state.ResFirstStatusCode? && f.nread + |z + e| <= MAX_HEADER_SIZE
    requires OneLine(z) && IsLineEndText(e)
    ensures Run(cfg, Stream(f, t), z + e) == CodeResult(f, t, AfterSpaces(z), |z + e|)
  {
    hide Run, Valid, OneLine, AfterSpaces, CodeResult;
    var w := AfterSpaces(z);
    CodeSpaces(cfg, f, t, z + e);
    AfterSpacesAppend(z, e);
    assert w == z[|z| - |w|..|z|];
    LinePart(z, |z| - |w|, |z|);
    CodeAndReason(cfg, Bump(f, |z| - |w|), t, w, e);
    CodeResultLater(f, t, w, |w + e|, |z| - |w|);
  }

  lemma VersionParts(x: string)
    requires x != "" && x[0] == 'H'
    ensures "TTP/" <= x[1..] <==> |x| >= 5 && x[..5] == "HTTP/"
    ensures "TTP/" <= x[1..] ==> x[1..][4..] == x[5..]
    ensures |x| >= 9 ==> x[5..][..3] == x[5..8] && x[5..][3] == x[8] && x[5..][4..] == x[9..]
  {
    assert "HTTP/" == "H" + "TTP/" && x == "H" + x[1..];
    assert |x| >= 5 ==> x[..5] == "H" + x[1..][..4];
  }

  /** The fields behind a version whose numbers begin `y`, and the space behind it. */
  function AtCode(f: Fields, y: string): Fields
    requires |y| >= 4 && IsNum(y[0]) && IsNum(y[2])
  {
    At(f, ResFirstStatusCode, 4).(major := Digit(y[0]), minor := Digit(y[2]))
  }

  lemma FromProtocol(cfg: Settings, f: Fields, t: Trace, y: string, e: string)
    requires Valid(f) && f.errno.OK? && f.state.ResHttpMajor? && f.nread + |y + e| <= MAX_HEADER_SIZE
    requires OneLine(y) && IsLineEndText(e)
    ensures var r := Run(cfg, Stream(f, t), y + e);
            if |y| >= 4 && IsDigits(y[..3]) && y[3] == ' ' then
              IsNum(y[0]) && IsNum(y[2]) && r == CodeResult(AtCode(f, y), t, AfterSpaces(y[4..]), |y + e| - 4)
            else r == Failed
  {
    hide Run, Valid, OneLine, AfterSpaces, CodeResult, Digit, IsNum, IsDigits;
    NumbersRun(cfg, f, t, y, e);
    if |y| >= 4 && IsDigits(y[..3]) && y[3] == ' ' {
      LinePart(y, 4, |y|);
      assert y[4..] == y[4..|y|];
      BehindVersion(cfg, AtCode(f, y), t, y[4..], e);
    }
  }

  /** The result, in terms of the whole line. */
  lemma ResultOfLine(f: Fields, t: Trace, x: string, n: nat)
    requires BeginsStatusLine(x) && IsNum(x[5]) && IsNum(x[7])
    ensures var g := At(f, ResH, 1).(flags := NO_FLAGS, contentLength := ULLONG_MAX);
            CodeResult(AtCode(At(g, ResHttpMajor, 4), x[5..]), t, AfterSpaces(x[9..]), n)
            == if IsStatusLine(x) then Ready(Stream(AfterStatus(f, x, n + 9), Emit(t, Data(OnStatus, ReasonText(x)))))
               else Failed
  {
    hide Emit, Until, IsCode, Numeral, AfterSpaces, Digit, IsNum, IsDigits;
  }

  /**
   A line, with CR LF or LF at its end, gets through as a status line exactly if it is a version, a code of at
   most 999, and perhaps a reason phrase; these are then what the parser reads off it.
   */
  lemma StatusLineIsExact(cfg: Settings, f: Fields, t: Trace, x: string, e: string)
    requires Valid(f) && f.errno.OK? && f.state.StartRes? && f.nread + |x + e| <= MAX_HEADER_SIZE
    requires x != "" && OneLine(x) && IsLineEndText(e)
    ensures IsStatusLine(x) ==> IsNum(x[5]) && IsNum(x[7])
    ensures Run(cfg, Stream(f, t), x + e) ==
            if IsStatusLine(x) then
              Ready(Stream(AfterStatus(f, x, |x + e|),
                Emit(Emit(t, Note(OnMessageBegin)), Data(OnStatus, ReasonText(x)))))
            else Failed
  {
    hide Emit, Run, Step, Valid, OneLine, AfterSpaces, IsCode, Digit, IsNum, IsDigits, CodeResult, AtCode, AfterStatus,
      CodeText, ReasonText;
    var y := x + e;
    assert y[0] == x[0] && y[1..] == x[1..] + e;
    LineHead(x);
    BetweenByte(cfg, f, t, x[0]);
    if x[0] != 'H' {
      FailedRun(cfg, Stream(f, t), y);
      NoStatusLine(x);
    } else {
      var g := At(f, ResH, 1).(flags := NO_FLAGS, contentLength := ULLONG_MAX);
      var t' := Emit(t, Note(OnMessageBegin));
      ResponseRoundTrip.StartByte(cfg, f, t);
      ReadyRun(cfg, Stream(f, t), y, Stream(g, t'));
      ProtocolRun(cfg, g, t', x[1..], e);
      VersionParts(x);
      if "TTP/" <= x[1..] {
        LinePart(x, 5, |x|);
        assert x[5..] == x[5..|x|];
        FromProtocol(cfg, At(g, ResHttpMajor, 4), t', x[5..], e);
        if BeginsStatusLine(x) {
          ResultOfLine(f, t', x, |x + e| - 9);
        }
      }
    }
  }

  lemma NoStatusLine(x: string)
    requires x != "" && x[0] != 'H'
    ensures !IsStatusLine(x)
  {
    assert |x| >= 5 ==> x[..5][0] == x[0];
  }
}
