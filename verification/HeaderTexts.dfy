/** Which texts are header lines: the name, the colon, and the end of the line. */
module HeaderTexts {
  import opened Options
  import opened Traces
  import opened HttpTypes
  import opened HttpVisit
  import opened HttpRun
  import opened HttpNames
  import opened HttpHeaders
  import opened HttpLines
  import opened CharacterSets
  import opened UrlGrammar
  import opened RequestLines

  /** The blanks at the start of a text. */
  function Blanks(x: string): (b: string)
    ensures |b| <= |x| && b == x[..|b|] && AllBlank(b) && (|b| < |x| ==> !IsBlank(x[|b|]))
  {
    if x != "" && IsBlank(x[0]) then
      assert x[..1 + |Blanks(x[1..])|] == [x[0]] + Blanks(x[1..]);
      [x[0]] + Blanks(x[1..])
    else ""
  }

  predicate IsNameCharacter(c: char) {
    IsLetterOrDigit(c) || c in "!#$%&'*+-.^_`|~"
  }

  /** A name and a colon. */
  predicate HasName(x: string) {
    var n := Until(x, ":");
    0 < n < |x| && forall c <- x[..n] :: IsNameCharacter(c)
  }

  function NameIn(x: string): string {
    x[..Until(x, ":")]
  }

  /** The blanks behind the colon, and the value behind those. */
  function BlanksIn(x: string): string
    requires Until(x, ":") < |x|
  {
    Blanks(x[Until(x, ":") + 1..])
  }

  function ValueIn(x: string): string
    requires Until(x, ":") < |x|
  {
    x[Until(x, ":") + 1 + |BlanksIn(x)|..]
  }

  lemma TokensAreNames(x: string)
    ensures IsToken(x) <==> x != "" && forall c <- x :: IsNameCharacter(c)
  {
    forall c ensures TokenOf(c) != '\0' <==> IsNameCharacter(c) {
      TokenCharacters(c);
    }
  }

  // ----- Lines without a name -----

  lemma NameEndFails(cfg: Settings, f: Fields, t: Trace, ch: char)
    requires Valid(f) && f.errno.OK? && f.state.HeaderField? && f.nread < MAX_HEADER_SIZE && IsLineEnd(ch)
    ensures Step(cfg, Stream(f, t), ch).Failed?
  {
    hide Emit, Step, Sound, VisitState;
    PlainStep(cfg, f, t, ch);
    Dispatch(Bump(f, 1), ch);
  }

  lemma NamelessFails(cfg: Settings, f: Fields, t: Trace, x: string, e: string)
    requires Valid(f) && f.errno.OK? && f.state.HeaderFieldStart? && f.nread + |x + e| <= MAX_HEADER_SIZE
    requires x != "" && OneLine(x) && e != "" && IsLineEnd(e[0]) && !HasName(x)
    ensures Run(cfg, Stream(f, t), x + e) == Failed
  {
    hide Emit, Run, Step, Valid, TokenOf, FollowName, IsNameCharacter, IsToken;
    var n := Until(x, ":");
    var name := x[..n];
    TokensAreNames(name);
    assert x + e == name + (x[n..] + e);
    RunAppend(cfg, Stream(f, t), name, x[n..] + e);
    if n == 0 {
      NameFirstByte(cfg, f, t, ':');
      ColonIsNoToken();
      assert x[..0] == "" && x[0..] == x;
      FailedRun(cfg, Stream(f, t), x + e);
    } else {
      NameHasNoColon(x, n);
      NameRun(cfg, f, t, name);
      if IsToken(name) {
        assert n == |x| && x[n..] + e == e;
        var g, t' := InName(f, name), Emit(t, Data(OnHeaderField, name));
        NameEndFails(cfg, g, t', e[0]);
        FailedRun(cfg, Stream(g, t'), e);
      }
    }
  }

  lemma ColonIsNoToken()
    ensures TokenOf(':') == '\0'
  {
  }

  lemma NameHasNoColon(x: string, n: nat)
    requires 0 < n == Until(x, ":") && OneLine(x)
    ensures ':' !in x[..n] && !IsLineEnd(x[..n][0])
  {
  }

  // ----- Lines that end at LF alone -----

  lemma ValueFeedVisits(f: Fields)
    requires Inside(f) && f.state.HeaderValue?
    ensures Asserts(f)
    ensures VisitState(f, '\n') == Visit(f.(state := HeaderAlmostDone), Call(OnHeaderValue), Again)
    ensures var g := f.(state := HeaderAlmostDone);
            Inside(g) && Asserts(g) && VisitState(g, '\n') == Visit(f.(state := HeaderValueLws), Nop, Break)
  {
    hide Sound, VisitState, Kept;
    VisitKeeps(f, '\n');
    Dispatch(f, '\n');
    var g := f.(state := HeaderAlmostDone);
    CallKeepsInside(f, g);
    VisitKeeps(g, '\n');
    Dispatch(g, '\n');
  }

  lemma CallKeepsInside(f: Fields, g: Fields)
    requires Kept(f, Visit(g, Call(OnHeaderValue), Again))
    ensures Inside(g)
  {
  }

  /** LF alone ends a value as CR LF does. */
  lemma ValueFeedAlone(cfg: Settings, f: Fields, t: Trace)
    requires Valid(f) && f.errno.OK? && f.state.HeaderValue? && f.nread < MAX_HEADER_SIZE
    ensures Step(cfg, Stream(f, t), '\n') ==
            Ready(Stream(f.(state := HeaderValueLws, nread := f.nread + 1), Emit(t, Data(OnHeaderValue, ""))))
  {
    hide Emit, Sound, VisitState, Kept;
    CountedInside(f);
    ValueFeedVisits(Bump(f, 1));
    var g, h := Bump(f, 1).(state := HeaderAlmostDone), Bump(f, 1).(state := HeaderValueLws);
    LastVisit(cfg, g, Emit(t, Data(OnHeaderValue, "")), '\n', h);
    CallVisit(cfg, Bump(f, 1), t, '\n', g);
  }

  lemma CallVisit(cfg: Settings, f: Fields, t: Trace, c: char, g: Fields)
    requires Inside(f) && f.errno.OK? && Asserts(f) && VisitState(f, c) == Visit(g, Call(OnHeaderValue), Again)
             && Inside(g) && g.errno.OK?
    ensures Visits(cfg, Stream(f, t), c, Some(OnHeaderValue))
            == Visits(cfg, Stream(g, Emit(t, Data(OnHeaderValue, ""))), c, None)
  {
    hide Emit, Sound, VisitState, Kept;
  }

  lemma LastVisit(cfg: Settings, g: Fields, t: Trace, c: char, h: Fields)
    requires Inside(g) && g.errno.OK? && Asserts(g) && VisitState(g, c) == Visit(h, Nop, Break)
    ensures Visits(cfg, Stream(g, t), c, None) == Ready(Stream(h, t))
  {
    hide Emit, Sound, VisitState, Kept;
  }

  lemma EmptyFeedAlone(cfg: Settings, f: Fields, t: Trace)
    requires Valid(f) && f.errno.OK? && f.state.HeaderValueDiscardWs? && f.nread < MAX_HEADER_SIZE
    ensures Step(cfg, Stream(f, t), '\n')
            == Ready(Stream(f.(state := HeaderValueDiscardLws, nread := f.nread + 1), t))
  {
    hide Emit, Step, Sound, VisitState;
    PlainStep(cfg, f, t, '\n');
    Dispatch(Bump(f, 1), '\n');
  }

  /** A value and LF, or an empty value and LF, behind the blanks. */
  lemma ValueAndFeed(cfg: Settings, f: Fields, t: Trace, value: string)
    requires Valid(f) && f.errno.OK? && f.state.HeaderValueDiscardWs? && f.nread + |value| + 1 <= MAX_HEADER_SIZE
    requires OneLine(value) && (value != "" ==> !IsBlank(value[0]))
    ensures Run(cfg, Stream(f, t), value + "\n") ==
            if value == "" then Ready(Stream(f.(state := HeaderValueDiscardLws, nread := f.nread + 1), t))
            else
              match FollowValue(f, value)
              case None => Failed
              case Some(g) => Ready(Stream(g.(state := HeaderValueLws, nread := g.nread + 1),
                              Emit(t, Data(OnHeaderValue, value))))
  {
    hide Emit, Run, Step, FollowValue, Valid;
    RunAppend(cfg, Stream(f, t), value, "\n");
    if value == "" {
      RunNothing(cfg, Stream(f, t));
      RunOne(cfg, Stream(f, t), '\n');
      EmptyFeedAlone(cfg, f, t);
    } else {
      ValueRun(cfg, f, t, value);
      FollowWithin(f, value);
      if FollowValue(f, value).Some? {
        var g, t' := FollowValue(f, value).value, Emit(t, Data(OnHeaderValue, value));
        RunOne(cfg, Stream(g, t'), '\n');
        ValueFeedAlone(cfg, g, t');
        EmitPieces(t, OnHeaderValue, value, "");
        assert value + "" == value;
      }
    }
  }

  lemma LineAndFeed(cfg: Settings, f: Fields, t: Trace, name: string, blanks: string, value: string)
    requires Valid(f) && f.errno.OK? && f.state.HeaderFieldStart?
             && f.nread + |name| + |blanks| + |value| + 2 <= MAX_HEADER_SIZE
    requires IsHeaderLine(name, blanks, value)
    ensures name != ""
    ensures var r := Run(cfg, Stream(f, t), name + ":" + blanks + value + "\n");
            match AfterLine(f, name, blanks, value)
            case Some(g) => r.Ready? && Settle(r.s) == Stream(g.(nread := g.nread - 1), WithHeader(t, name, value))
            case None => value != "" ==> r.Failed?
  {
    hide Emit, Run, FollowValue, Valid, TokenOf, FollowName;
    TokenNames(name);
    var g, t1 := Bump(AfterName(f, name), |blanks|), Emit(t, Data(OnHeaderField, name));
    NameAndBlanks(cfg, f, t, name, blanks);
    assert name + ":" + blanks + value + "\n" == (name + ":" + blanks) + (value + "\n");
    RunAppend(cfg, Stream(f, t), name + ":" + blanks, value + "\n");
    ValueAndFeed(cfg, g, t1, value);
    if value != "" {
      FollowWithin(g, value);
    }
  }

  // ----- The theorem -----

  lemma TextIsLine(x: string)
    requires HasName(x) && OneLine(x)
    ensures Until(x, ":") < |x| && IsHeaderLine(NameIn(x), BlanksIn(x), ValueIn(x))
    ensures x == NameIn(x) + ":" + BlanksIn(x) + ValueIn(x)
  {
    hide IsNameCharacter, Until, OneLine, AllBlank, Blanks, IsToken;
    var n := Until(x, ":");
    var y := x[n + 1..];
    TokensAreNames(x[..n]);
    ColonAt(x, n);
    BlanksSplit(y);
    ValueStands(x);
    LineJoins(x[..n], y, Blanks(y), y[|Blanks(y)|..]);
  }

  lemma LineJoins(a: string, y: string, b: string, v: string)
    requires y == b + v
    ensures a + ":" + y == a + ":" + b + v
  {
  }

  lemma ValueStands(x: string)
    requires Until(x, ":") < |x| && OneLine(x)
    ensures var y := x[Until(x, ":") + 1..]; ValueIn(x) == y[|Blanks(y)|..] && BlanksIn(x) == Blanks(y)
    ensures OneLine(ValueIn(x))
  {
    hide Until, Blanks;
  }

  lemma ColonAt(x: string, n: nat)
    requires n == Until(x, ":") < |x|
    ensures x == x[..n] + ":" + x[n + 1..]
  {
    hide Until;
    assert x[n] in ":";
    CharacterAt(x, n, ':');
  }

  lemma CharacterAt(x: string, n: nat, c: char)
    requires n < |x| && x[n] == c
    ensures x == x[..n] + [c] + x[n + 1..]
  {
  }

  lemma BlanksSplit(y: string)
    ensures y == Blanks(y) + y[|Blanks(y)|..] && AllBlank(Blanks(y))
    ensures y[|Blanks(y)|..] != "" ==> !IsBlank(y[|Blanks(y)|..][0])
  {
  }

  /**
   A line, with CR LF or LF at its end, gets through as a header line exactly if it has a name and a colon, and
   its value is right for that name. Then name and value are delivered as they stand in the line.
   */
  lemma HeaderTextIsExact(cfg: Settings, f: Fields, t: Trace, x: string, e: string)
    requires Valid(f) && f.errno.OK? && f.state.HeaderFieldStart? && f.nread + |x + e| <= MAX_HEADER_SIZE
    requires x != "" && OneLine(x) && IsLineEndText(e)
    ensures var r := Run(cfg, Stream(f, t), x + e);
            if !HasName(x) then r.Failed?
            else
              var name, blanks, value := NameIn(x), BlanksIn(x), ValueIn(x);
              && name != ""
              && match AfterLine(f, name, blanks, value)
                 case Some(g) =>
                   r.Ready? && Settle(r.s) == Stream(g.(nread := f.nread + |x + e|), WithHeader(t, name, value))
                 case None => value != "" ==> r.Failed?
  {
    hide Emit, Run, Valid, HasName, NameIn, BlanksIn, ValueIn, FollowValue, Settle, IsHeaderLine, FinishedFlags, Until,
      FollowName;
    if HasName(x) {
      TextIsLine(x);
      var name, blanks, value := NameIn(x), BlanksIn(x), ValueIn(x);
      NamesAreSomething(name, blanks, value);
      LineLength(f, name, blanks, value);
      if e == "\r\n" {
        assert x + e == HeaderLine(name, blanks, value);
        LineRun(cfg, f, t, name, blanks, value);
      } else {
        LineAndFeed(cfg, f, t, name, blanks, value);
      }
    } else {
      NamelessFails(cfg, f, t, x, e);
    }
  }

  lemma NamesAreSomething(name: string, blanks: string, value: string)
    requires IsHeaderLine(name, blanks, value)
    ensures name != ""
  {
  }

  lemma LineLength(f: Fields, name: string, blanks: string, value: string)
    requires IsHeaderLine(name, blanks, value) && name != ""
    ensures match AfterLine(f, name, blanks, value)
            case None => true
            case Some(g) => g.nread == f.nread + |name| + 1 + |blanks| + |value| + 2
  {
    hide FollowValue, FollowName;
    if value != "" {
      FollowWithin(Bump(AfterName(f, name), |blanks|), value);
    }
  }

  // ----- A CR that is no line end -----

  lemma FeedIsNeeded(cfg: Settings, f: Fields, t: Trace, ch: char)
    requires Valid(f) && f.errno.OK? && IsReturnState(f.state) && f.nread < MAX_HEADER_SIZE && ch != '\n'
    ensures Step(cfg, Stream(f, t), ch).Failed?
  {
    hide Emit, Step, Sound, VisitState;
    PlainStep(cfg, f, t, ch);
    Dispatch(Bump(f, 1), ch);
  }

  lemma ReturnWithoutFeed(cfg: Settings, f: Fields, t: Trace, value: string, ch: char)
    requires Valid(f) && f.errno.OK? && f.state.HeaderValueDiscardWs? && f.nread + |value| + 2 <= MAX_HEADER_SIZE
    requires OneLine(value) && (value != "" ==> !IsBlank(value[0])) && ch != '\n'
    ensures Run(cfg, Stream(f, t), value + ("\r" + [ch])) == Failed
  {
    hide Emit, Run, Step, FollowValue, Valid;
    RunAppend(cfg, Stream(f, t), value, "\r" + [ch]);
    if value == "" {
      RunNothing(cfg, Stream(f, t));
      EmptyValueReturn(cfg, f, t);
      ReturnAndByte(cfg, f, t, f.(state := HeaderValueDiscardWsAlmostDone, nread := f.nread + 1), t, ch);
    } else {
      ValueRun(cfg, f, t, value);
      FollowWithin(f, value);
      if FollowValue(f, value).Some? {
        var g, t' := FollowValue(f, value).value, Emit(t, Data(OnHeaderValue, value));
        ValueReturn(cfg, g, t');
        ReturnAndByte(cfg, g, t', g.(state := HeaderAlmostDone, nread := g.nread + 1),
          Emit(t', Data(OnHeaderValue, "")), ch);
      }
    }
  }

  lemma ReturnAndByte(cfg: Settings, f: Fields, t: Trace, g: Fields, t': Trace, ch: char)
    requires Valid(f) && f.errno.OK? && Step(cfg, Stream(f, t), '\r') == Ready(Stream(g, t'))
    requires g.errno.OK? && IsReturnState(g.state) && g.nread < MAX_HEADER_SIZE && ch != '\n'
    ensures Run(cfg, Stream(f, t), "\r" + [ch]) == Failed
  {
    hide Run, Step, Valid;
    ReadyRun(cfg, Stream(f, t), "\r" + [ch], Stream(g, t'));
    assert ("\r" + [ch])[1..] == [ch];
    RunOne(cfg, Stream(g, t'), ch);
    FeedIsNeeded(cfg, g, t', ch);
  }

  /** A CR in a header line that is not followed by LF is refused. */
  lemma LoneReturnFails(cfg: Settings, f: Fields, t: Trace, x: string, ch: char)
    requires Valid(f) && f.errno.OK? && f.state.HeaderFieldStart? && f.nread + |x| + 2 <= MAX_HEADER_SIZE
    requires x != "" && OneLine(x) && ch != '\n'
    ensures Run(cfg, Stream(f, t), x + ("\r" + [ch])) == Failed
  {
    hide Run, Valid, HasName, NameIn, BlanksIn, ValueIn, IsHeaderLine, Until, FollowName, Emit, IsToken, AllBlank;
    if HasName(x) {
      TextIsLine(x);
      var name, blanks, value := NameIn(x), BlanksIn(x), ValueIn(x);
      PartsOfLine(name, blanks, value);
      NameAndBlanks(cfg, f, t, name, blanks);
      assert x + ("\r" + [ch]) == (name + ":" + blanks) + (value + ("\r" + [ch]));
      RunAppend(cfg, Stream(f, t), name + ":" + blanks, value + ("\r" + [ch]));
      ReturnWithoutFeed(cfg, Bump(AfterName(f, name), |blanks|), Emit(t, Data(OnHeaderField, name)), value, ch);
    } else {
      NamelessFails(cfg, f, t, x, "\r" + [ch]);
    }
  }

  lemma PartsOfLine(name: string, blanks: string, value: string)
    requires IsHeaderLine(name, blanks, value)
    ensures name != "" && IsToken(name) && AllBlank(blanks) && OneLine(value) && (value != "" ==> !IsBlank(value[0]))
  {
  }
}
