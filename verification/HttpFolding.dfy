/** Header values that go on over several lines. */
module HttpFolding {
  import opened Options
  import opened Traces
  import opened HttpTypes
  import opened HttpVisit
  import opened HttpRun
  import opened HttpNames
  import opened StringUtils
  import opened HttpHeaders
  import opened HttpValues
  import opened HttpLines

  /** The lines behind the first one, each with its leading blank. */
  function FoldsText(folds: seq<string>): string {
    if folds == [] then "" else folds[0] + "\r\n" + FoldsText(folds[1..])
  }

  function Joined(folds: seq<string>): string {
    if folds == [] then "" else folds[0] + Joined(folds[1..])
  }

  predicate AreFolds(folds: seq<string>) {
    forall x <- folds :: x != "" && IsBlank(x[0]) && OneLine(x)
  }

  /** No control characters but tabs. */
  predicate AreValues(folds: seq<string>) {
    forall x <- folds :: IsValue(x)
  }

  /** A header whose value has no meaning to the parser. */
  predicate IsOrdinary(name: string) {
    IsToken(name) && Folded(name) != "connection" && Folded(name) != "proxy-connection"
    && Folded(name) != "content-length" && Folded(name) != "transfer-encoding"
  }

  // ----- The bytes -----

  /** States of a value that a further line makes the parser forget. */
  predicate IsForgotten(h: HeaderState) {
    h.General? || h.MatchingChunked? || h.Chunked? || h.Token? || h.MatchingKeepAlive? || h.KeepAlive?
    || h.MatchingClose? || h.Close? || h.MatchingConnUpgrade? || h.ConnUpgrade?
  }

  /** States of a length, to which a further line may add spaces only. */
  predicate IsOfLength(h: HeaderState) {
    h.ContentLengthNum? || h.ContentLengthWs?
  }

  function AfterFold(h: HeaderState): HeaderState {
    if IsOfLength(h) then ContentLengthWs else General
  }

  /** The fields when a further line begins. */
  function AtFold(f: Fields): Fields {
    f.(state := HeaderValueStart,
      headerState := if f.headerState.ContentLengthNum? then ContentLengthWs else f.headerState)
  }

  lemma FoldVisits(f: Fields, c: char)
    requires Inside(f) && f.state.HeaderValueLws? && IsBlank(c)
    requires IsForgotten(f.headerState) || IsOfLength(f.headerState)
    ensures Asserts(f) && VisitState(f, c) == Visit(AtFold(f), Nop, Again)
    ensures var g := AtFold(f);
            && Inside(g) && Asserts(g)
            && VisitState(g, c) == Visit(f.(state := HeaderValue, headerState := AfterFold(f.headerState), index := 0),
                                         Mark(OnHeaderValue), Break)
  {
    hide Sound, VisitState, Kept;
    VisitKeeps(f, c);
    Dispatch(f, c);
    var g := AtFold(f);
    KeptInside(f, g);
    VisitKeeps(g, c);
    Dispatch(g, c);
  }

  lemma KeptInside(f: Fields, g: Fields)
    requires Kept(f, Visit(g, Nop, Again))
    ensures Inside(g)
  {
  }

  /** The blank at the start of a further line belongs to the value, which loses its meaning unless it is a length. */
  lemma FoldByte(cfg: Settings, f: Fields, t: Trace, c: char)
    requires Valid(f) && f.errno.OK? && f.state.HeaderValueLws? && IsBlank(c) && f.nread < MAX_HEADER_SIZE
    requires IsForgotten(f.headerState) || IsOfLength(f.headerState)
    ensures Step(cfg, Stream(f, t), c) ==
            Ready(Stream(f.(state := HeaderValue, headerState := AfterFold(f.headerState), index := 0,
                           nread := f.nread + 1),
                         Emit(t, Data(OnHeaderValue, [c]))))
  {
    hide Emit, Sound, VisitState, Kept;
    CountedInside(f);
    FoldVisits(Bump(f, 1), c);
    var g := AtFold(Bump(f, 1));
    SecondVisit(cfg, g, t, c, Bump(f, 1).(state := HeaderValue, headerState := AfterFold(f.headerState), index := 0));
    FirstVisit(cfg, Bump(f, 1), t, c, g);
  }

  lemma FirstVisit(cfg: Settings, f: Fields, t: Trace, c: char, g: Fields)
    requires Inside(f) && f.errno.OK? && Asserts(f) && VisitState(f, c) == Visit(g, Nop, Again) && Inside(g)
             && g.errno.OK?
    ensures Visits(cfg, Stream(f, t), c, None) == Visits(cfg, Stream(g, t), c, None)
  {
    hide Emit, Sound, VisitState, Kept;
  }

  lemma SecondVisit(cfg: Settings, g: Fields, t: Trace, c: char, h: Fields)
    requires Inside(g) && g.errno.OK? && Asserts(g) && VisitState(g, c) == Visit(h, Mark(OnHeaderValue), Break)
    ensures Visits(cfg, Stream(g, t), c, None) == Ready(Stream(h, Emit(t, Data(OnHeaderValue, [c]))))
  {
    hide Emit, Sound, VisitState, Kept;
  }

  lemma PlainValueByte(f: Fields, c: char)
    requires f.headerState.General? && !IsLineEnd(c)
    ensures Passed(ValueByte(f, c)) == if IsHeaderChar(c) then Some(f) else None
  {
    hide IsHeaderChar, Lower;
  }

  /** More of a value without a meaning, behind `v`. */
  lemma {:induction false} PlainRun(cfg: Settings, f: Fields, t: Trace, v: string, x: string)
    requires Valid(f) && f.errno.OK? && f.state.HeaderValue? && f.headerState.General?
             && f.nread + |x| <= MAX_HEADER_SIZE && OneLine(x)
    ensures Run(cfg, Stream(f, Emit(t, Data(OnHeaderValue, v))), x) ==
            if IsValue(x) then Ready(Stream(Bump(f, |x|), Emit(t, Data(OnHeaderValue, v + x)))) else Failed
    decreases |x|
  {
    hide Emit, Step, Valid, ValueByte, IsHeaderChar, Run;
    var s := Stream(f, Emit(t, Data(OnHeaderValue, v)));
    if x == "" {
      RunNothing(cfg, s);
      assert v + x == v;
    } else {
      assert x == [x[0]] + x[1..];
      ValueNextByte(cfg, f, s.trace, x[0]);
      PlainValueByte(Bump(f, 1), x[0]);
      EmitPieces(t, OnHeaderValue, v, [x[0]]);
      RunAppend(cfg, s, [x[0]], x[1..]);
      RunOne(cfg, s, x[0]);
      if IsHeaderChar(x[0]) {
        PlainRun(cfg, Bump(f, 1), t, v + [x[0]], x[1..]);
        assert v + [x[0]] + x[1..] == v + x;
      }
      ValueCons(x);
    }
  }

  lemma ValueCons(x: string)
    requires x != "" && OneLine(x)
    ensures IsValue(x) <==> IsHeaderChar(x[0]) && IsValue(x[1..])
  {
    assert x == [x[0]] + x[1..];
  }

  function Forgetting(f: Fields, n: nat): Fields {
    f.(headerState := General, index := 0, nread := f.nread + n)
  }

  /** A further line. */
  lemma FoldRun(cfg: Settings, f: Fields, t: Trace, v: string, x: string)
    requires Valid(f) && f.errno.OK? && f.state.HeaderValueLws? && IsForgotten(f.headerState)
             && f.nread + |x| + 2 <= MAX_HEADER_SIZE && x != "" && IsBlank(x[0]) && OneLine(x)
    ensures Run(cfg, Stream(f, Emit(t, Data(OnHeaderValue, v))), x + "\r\n") ==
            if IsValue(x) then Ready(Stream(Forgetting(f, |x| + 2), Emit(t, Data(OnHeaderValue, v + x)))) else Failed
  {
    hide Emit, Step, Valid, IsHeaderChar, Run;
    var s := Stream(f, Emit(t, Data(OnHeaderValue, v)));
    var g := f.(state := HeaderValue, headerState := General, index := 0, nread := f.nread + 1);
    assert x + "\r\n" == [x[0]] + (x[1..] + "\r\n");
    RunAppend(cfg, s, [x[0]], x[1..] + "\r\n");
    RunOne(cfg, s, x[0]);
    FoldByte(cfg, f, s.trace, x[0]);
    EmitPieces(t, OnHeaderValue, v, [x[0]]);
    RunAppend(cfg, Stream(g, Emit(t, Data(OnHeaderValue, v + [x[0]]))), x[1..], "\r\n");
    assert OneLine(x[1..]) by { ValueRest(x); }
    PlainRun(cfg, g, t, v + [x[0]], x[1..]);
    assert v + [x[0]] + x[1..] == v + x;
    ValueCons(x);
    BlankIsValue(x[0]);
    if IsValue(x) {
      var t' := Emit(t, Data(OnHeaderValue, v + x));
      ValueEnd(cfg, Bump(g, |x| - 1), t');
      EmitPieces(t, OnHeaderValue, v + x, "");
      assert v + x + "" == v + x;
    }
  }

  lemma ValueRest(x: string)
    requires x != "" && OneLine(x)
    ensures OneLine(x[1..])
  {
  }

  lemma BlankIsValue(c: char)
    requires IsBlank(c)
    ensures IsHeaderChar(c)
  {
  }

  lemma {:induction false} FoldsRun(cfg: Settings, f: Fields, t: Trace, v: string, folds: seq<string>)
    requires Valid(f) && f.errno.OK? && f.state.HeaderValueLws? && f.headerState.General? && f.index == 0
             && f.nread + |FoldsText(folds)| <= MAX_HEADER_SIZE && AreFolds(folds)
    ensures Run(cfg, Stream(f, Emit(t, Data(OnHeaderValue, v))), FoldsText(folds)) ==
            if AreValues(folds) then
              Ready(Stream(Bump(f, |FoldsText(folds)|), Emit(t, Data(OnHeaderValue, v + Joined(folds)))))
            else Failed
    decreases |folds|
  {
    hide Emit, Valid, IsValue, Run;
    var s := Stream(f, Emit(t, Data(OnHeaderValue, v)));
    if folds == [] {
      RunNothing(cfg, s);
      assert v + "" == v;
    } else {
      var x, rest := folds[0], folds[1..];
      assert folds == [x] + rest;
      assert x in folds;
      RunAppend(cfg, s, x + "\r\n", FoldsText(rest));
      FoldRun(cfg, f, t, v, x);
      if IsValue(x) {
        FoldsRun(cfg, Bump(f, |x| + 2), t, v + x, rest);
        assert v + x + Joined(rest) == v + Joined(folds);
      }
    }
  }

  // ----- Whole headers -----

  lemma OrdinaryIs(f: Fields, name: string, blanks: string, value: string)
    requires IsOrdinary(name) && IsHeaderLine(name, blanks, value) && value != "" && IsValue(value[1..])
    ensures name != "" && FollowValue(Bump(AfterName(f, name), |blanks|), value).Some?
    ensures var g := FollowValue(Bump(AfterName(f, name), |blanks|), value).value;
            g.headerState.General? && g.index == 0 && g.nread == f.nread + |name| + 1 + |blanks| + |value|
  {
    hide FollowName, FollowValue, Folded, IsToken, IsValue;
    TokenNames(name);
    NameStates(name);
    OrdinaryValue(Bump(AfterName(f, name), |blanks|), value);
  }

  /**
   A header without a meaning to the parser whose value goes on over further lines: the pieces are delivered
   in order as one value, each further line with the blanks in front of it, and without the line ends. A
   control character in a further line is refused.
   */
  lemma FoldedLineRun(cfg: Settings, f: Fields, t: Trace, name: string, blanks: string, value: string,
      folds: seq<string>)
    requires Valid(f) && f.errno.OK? && f.state.HeaderFieldStart?
             && f.nread + |HeaderLine(name, blanks, value) + FoldsText(folds)| <= MAX_HEADER_SIZE
    requires IsOrdinary(name) && IsHeaderLine(name, blanks, value) && value != "" && IsValue(value[1..])
             && AreFolds(folds)
    ensures var r := Run(cfg, Stream(f, t), HeaderLine(name, blanks, value) + FoldsText(folds));
            && name != "" && AfterLine(f, name, blanks, value).Some?
            && if AreValues(folds) then
                 && r.Ready?
                 && Settle(r.s) == Stream(Bump(AfterLine(f, name, blanks, value).value, |FoldsText(folds)|),
                      WithHeader(t, name, value + Joined(folds)))
               else r.Failed?
  {
    hide Emit, Run, FollowValue, Valid, TokenOf, FollowName, IsValue, AreFolds, AreValues, Joined, FoldsText, Folded;
    var g, t1 := Bump(AfterName(f, name), |blanks|), Emit(t, Data(OnHeaderField, name));
    OrdinaryIs(f, name, blanks, value);
    NameAndBlanks(cfg, f, t, name, blanks);
    var line, rest := name + ":" + blanks, FoldsText(folds);
    assert HeaderLine(name, blanks, value) + rest == line + (value + "\r\n" + rest);
    RunAppend(cfg, Stream(f, t), line, value + "\r\n" + rest);
    RunAppend(cfg, Stream(g, t1), value + "\r\n", rest);
    NonemptyValue(cfg, g, t1, value);
    FollowWithin(g, value);
    var h := FollowValue(g, value).value;
    FoldsRun(cfg, h.(state := HeaderValueLws, nread := h.nread + 2), t1, value, folds);
  }

  lemma LateBlank(cfg: Settings, f: Fields, t: Trace, c: char)
    requires Valid(f) && f.errno.OK? && f.state.HeaderValueDiscardLws? && f.nread < MAX_HEADER_SIZE && IsBlank(c)
    ensures Step(cfg, Stream(f, t), c)
            == Ready(Stream(f.(state := HeaderValueDiscardWs, nread := f.nread + 1), t))
  {
    hide Emit, Step, Sound, VisitState;
    PlainStep(cfg, f, t, c);
    Dispatch(Bump(f, 1), c);
  }

  /** An empty first line, and the blanks of the next one. */
  lemma LateBlanks(cfg: Settings, f: Fields, t: Trace, more: string)
    requires Valid(f) && f.errno.OK? && f.state.HeaderValueDiscardWs? && f.nread + 2 + |more| <= MAX_HEADER_SIZE
    requires more != "" && AllBlank(more)
    ensures Run(cfg, Stream(f, t), "\r\n" + more) == Ready(Stream(Bump(f, |more| + 2), t))
  {
    hide Run, Step, Valid;
    var g := f.(state := HeaderValueDiscardLws, nread := f.nread + 2);
    EmptyValueEnd(cfg, f, t);
    RunAppend(cfg, Stream(f, t), "\r\n", more);
    assert more == [more[0]] + more[1..];
    RunAppend(cfg, Stream(g, t), [more[0]], more[1..]);
    RunOne(cfg, Stream(g, t), more[0]);
    LateBlank(cfg, g, t, more[0]);
    BlankRun(cfg, Bump(f, 3), t, more[1..]);
  }

  /**
   A value that begins on the second line: the header does what it does on one line, whatever its name.
   */
  lemma LateValueRun(cfg: Settings, f: Fields, t: Trace, name: string, blanks: string, more: string, value: string)
    requires Valid(f) && f.errno.OK? && f.state.HeaderFieldStart?
    requires IsHeaderLine(name, blanks, value) && value != "" && more != "" && AllBlank(more)
    requires f.nread + |name + ":" + blanks + "\r\n" + more + value + "\r\n"| <= MAX_HEADER_SIZE
    ensures name != ""
    ensures var r := Run(cfg, Stream(f, t), name + ":" + blanks + "\r\n" + more + value + "\r\n");
            match AfterLine(f.(nread := f.nread + 2), name, blanks + more, value)
            case None => r.Failed?
            case Some(g) => r.Ready? && Settle(r.s) == Stream(g, WithHeader(t, name, value))
  {
    hide Emit, Run, FollowValue, Valid, TokenOf, FollowName;
    var g, t1 := Bump(AfterName(f, name), |blanks|), Emit(t, Data(OnHeaderField, name));
    TokenNames(name);
    NameAndBlanks(cfg, f, t, name, blanks);
    var line, rest := name + ":" + blanks, value + "\r\n";
    assert name + ":" + blanks + "\r\n" + more + value + "\r\n" == line + (("\r\n" + more) + rest);
    RunAppend(cfg, Stream(f, t), line, ("\r\n" + more) + rest);
    RunAppend(cfg, Stream(g, t1), "\r\n" + more, rest);
    LateBlanks(cfg, g, t1, more);
    var h := Bump(g, |more| + 2);
    NonemptyValue(cfg, h, t1, value);
    FollowWithin(h, value);
    assert h == Bump(AfterName(f.(nread := f.nread + 2), name), |blanks + more|);
  }

  // ----- What gets lost -----

  /** The states of the value of a Transfer-Encoding header. */
  lemma {:induction false} CodingStates(f: Fields, value: string)
    requires f.headerState.TransferEncoding? && value != "" && OneLine(value)
    ensures match FollowValue(f, value)
            case None => true
            case Some(g) => g.headerState.General? || g.headerState.MatchingChunked? || g.headerState.Chunked?
  {
    hide ValueByte, VisitValueStart;
    var front, c := value[..|value| - 1], value[|value| - 1];
    if |value| == 1 {
      CodingStart(f, c);
    } else {
      CodingStates(f, front);
      if FollowValue(f, front).Some? {
        CodingByte(Bump(FollowValue(f, front).value, 1), c);
      }
    }
  }

  lemma CodingStart(f: Fields, c: char)
    requires f.headerState.TransferEncoding?
    ensures var v := VisitValueStart(Bump(f, 1), c);
            v.f.headerState.General? || v.f.headerState.MatchingChunked?
  {
  }

  lemma CodingByte(f: Fields, c: char)
    requires f.headerState.General? || f.headerState.MatchingChunked? || f.headerState.Chunked?
    ensures match Passed(ValueByte(f, c))
            case None => true
            case Some(g) => g.headerState.General? || g.headerState.MatchingChunked? || g.headerState.Chunked?
  {
    hide Lower, IsHeaderChar;
  }

  /**
   A Transfer-Encoding header that goes on over a further line, be it of one blank only, does not ask for
   chunks, whatever its value.
   */
  lemma FoldedCodingIsLost(cfg: Settings, f: Fields, t: Trace, name: string, blanks: string, value: string,
      fold: string)
    requires Valid(f) && f.errno.OK? && f.state.HeaderFieldStart? && Folded(name) == "transfer-encoding"
    requires IsHeaderLine(name, blanks, value) && value != "" && AfterLine(f, name, blanks, value).Some?
    requires fold != "" && IsBlank(fold[0]) && OneLine(fold) && IsValue(fold)
    requires f.nread + |HeaderLine(name, blanks, value) + (fold + "\r\n")| <= MAX_HEADER_SIZE
    ensures var r := Run(cfg, Stream(f, t), HeaderLine(name, blanks, value) + (fold + "\r\n"));
            && r.Ready? && Settle(r.s).f.flags.chunked == f.flags.chunked
            && Settle(r.s).trace == WithHeader(t, name, value + fold)
  {
    hide Emit, Run, FollowValue, Valid, TokenOf, FollowName, IsValue, Folded;
    var g, t1 := Bump(AfterName(f, name), |blanks|), Emit(t, Data(OnHeaderField, name));
    TokenNames(name);
    NameStates(name);
    FoldedLine(cfg, f, t, name, blanks, value, fold);
    FollowWithin(g, value);
    CodingStates(g, value);
    var h := FollowValue(g, value).value;
    FoldRun(cfg, h.(state := HeaderValueLws, nread := h.nread + 2), t1, value, fold);
  }

  predicate IsOfToken(h: HeaderState) {
    IsForgotten(h) && !h.General? && !h.Chunked? && !h.MatchingChunked?
  }

  /** The states of a Connection value without a comma. */
  lemma {:induction false} TokenStates(f: Fields, value: string)
    requires f.headerState.Connection? && value != "" && OneLine(value) && ',' !in value
    ensures match FollowValue(f, value)
            case None => true
            case Some(g) => IsOfToken(g.headerState) && g.flags == f.flags
  {
    hide ValueByte, VisitValueStart;
    var front, c := value[..|value| - 1], value[|value| - 1];
    assert value == front + [c] && c in value;
    if |value| == 1 {
      TokenBegins(f, c);
    } else {
      TokenStates(f, front);
      if FollowValue(f, front).Some? {
        TokenGoesOn(Bump(FollowValue(f, front).value, 1), c);
      }
    }
  }

  lemma TokenBegins(f: Fields, c: char)
    requires f.headerState.Connection?
    ensures var v := VisitValueStart(Bump(f, 1), c); IsOfToken(v.f.headerState) && v.f.flags == f.flags
  {
  }

  lemma TokenGoesOn(f: Fields, c: char)
    requires IsOfToken(f.headerState) && c != ','
    ensures match Passed(ValueByte(f, c))
            case None => true
            case Some(g) => IsOfToken(g.headerState) && g.flags == f.flags
  {
    hide Lower, IsHeaderChar;
  }

  /**
   A Connection header with one token that goes on over a further line, be it of one blank only, sets no flag:
   a connection that should be closed is kept.
   */
  lemma FoldedTokenIsLost(cfg: Settings, f: Fields, t: Trace, name: string, blanks: string, value: string,
      fold: string)
    requires Valid(f) && f.errno.OK? && f.state.HeaderFieldStart? && IsConnectionLine(name)
    requires IsHeaderLine(name, blanks, value) && value != "" && ',' !in value
    requires AfterLine(f, name, blanks, value).Some?
    requires fold != "" && IsBlank(fold[0]) && OneLine(fold) && IsValue(fold)
    requires f.nread + |HeaderLine(name, blanks, value) + (fold + "\r\n")| <= MAX_HEADER_SIZE
    ensures var r := Run(cfg, Stream(f, t), HeaderLine(name, blanks, value) + (fold + "\r\n"));
            && r.Ready? && Settle(r.s).f.flags == f.flags
            && Settle(r.s).trace == WithHeader(t, name, value + fold)
  {
    hide Emit, Run, FollowValue, Valid, TokenOf, FollowName, IsValue, Folded;
    var g, t1 := Bump(AfterName(f, name), |blanks|), Emit(t, Data(OnHeaderField, name));
    TokenNames(name);
    NameStates(name);
    FoldedLine(cfg, f, t, name, blanks, value, fold);
    TokenStates(g, value);
    var h := FollowValue(g, value).value;
    FoldRun(cfg, h.(state := HeaderValueLws, nread := h.nread + 2), t1, value, fold);
  }

  /** Up to the further line. */
  lemma FoldedLine(cfg: Settings, f: Fields, t: Trace, name: string, blanks: string, value: string, fold: string)
    requires Valid(f) && f.errno.OK? && f.state.HeaderFieldStart?
    requires IsHeaderLine(name, blanks, value) && value != "" && name != "" && AfterLine(f, name, blanks, value).Some?
    requires f.nread + |HeaderLine(name, blanks, value) + (fold + "\r\n")| <= MAX_HEADER_SIZE
    ensures var g := Bump(AfterName(f, name), |blanks|);
            && FollowValue(g, value).Some?
            && var h := FollowValue(g, value).value;
               var s := Stream(h.(state := HeaderValueLws, nread := h.nread + 2),
                               Emit(Emit(t, Data(OnHeaderField, name)), Data(OnHeaderValue, value)));
            && Valid(s.f) && h.errno.OK? && h.nread == f.nread + |name| + 1 + |blanks| + |value|
            && Run(cfg, Stream(f, t), HeaderLine(name, blanks, value) + (fold + "\r\n"))
               == Run(cfg, s, fold + "\r\n")
  {
    hide Emit, Run, FollowValue, Valid, TokenOf, FollowName, Folded;
    var g, t1 := Bump(AfterName(f, name), |blanks|), Emit(t, Data(OnHeaderField, name));
    NameAndBlanks(cfg, f, t, name, blanks);
    var line := name + ":" + blanks;
    assert HeaderLine(name, blanks, value) + (fold + "\r\n") == line + ((value + "\r\n") + (fold + "\r\n"));
    RunAppend(cfg, Stream(f, t), line, (value + "\r\n") + (fold + "\r\n"));
    RunAppend(cfg, Stream(g, t1), value + "\r\n", fold + "\r\n");
    NonemptyValue(cfg, g, t1, value);
    FollowWithin(g, value);
  }

  // ----- Lengths -----

  predicate AreSpaces(x: string) {
    forall c <- x :: c == ' '
  }

  lemma NoSpaces()
    ensures AreSpaces("")
  {
  }

  lemma SpacesCons(x: string)
    requires x != ""
    ensures AreSpaces(x) <==> x[0] == ' ' && AreSpaces(x[1..])
  {
    assert x == [x[0]] + x[1..] && x[0] in x;
    assert forall c <- x[1..] :: c in x;
  }

  lemma SpaceBehindLength(f: Fields, c: char)
    requires f.headerState.ContentLengthWs? && !IsLineEnd(c)
    ensures Passed(ValueByte(f, c)) == if c == ' ' then Some(f) else None
  {
    hide Lower;
  }

  lemma {:induction false} SpacesBehind(cfg: Settings, f: Fields, t: Trace, v: string, x: string)
    requires Valid(f) && f.errno.OK? && f.state.HeaderValue? && f.headerState.ContentLengthWs?
             && f.nread + |x| <= MAX_HEADER_SIZE && OneLine(x)
    ensures Run(cfg, Stream(f, Emit(t, Data(OnHeaderValue, v))), x) ==
            if AreSpaces(x) then Ready(Stream(Bump(f, |x|), Emit(t, Data(OnHeaderValue, v + x)))) else Failed
    decreases |x|
  {
    hide Emit, Step, Valid, ValueByte, Run, AreSpaces;
    var s := Stream(f, Emit(t, Data(OnHeaderValue, v)));
    if x == "" {
      RunNothing(cfg, s);
      assert v + x == v;
      assert AreSpaces(x) by { NoSpaces(); }
    } else {
      assert x == [x[0]] + x[1..];
      ValueNextByte(cfg, f, s.trace, x[0]);
      SpaceBehindLength(Bump(f, 1), x[0]);
      EmitPieces(t, OnHeaderValue, v, [x[0]]);
      RunAppend(cfg, s, [x[0]], x[1..]);
      RunOne(cfg, s, x[0]);
      SpacesCons(x);
      if x[0] == ' ' {
        SpacesBehind(cfg, Bump(f, 1), t, v + [x[0]], x[1..]);
        assert v + [x[0]] + x[1..] == v + x;
      }
    }
  }

  lemma LengthFoldRun(cfg: Settings, f: Fields, t: Trace, v: string, x: string)
    requires Valid(f) && f.errno.OK? && f.state.HeaderValueLws? && IsOfLength(f.headerState) && f.index == 0
             && f.nread + |x| + 2 <= MAX_HEADER_SIZE && x != "" && IsBlank(x[0]) && OneLine(x)
    ensures Run(cfg, Stream(f, Emit(t, Data(OnHeaderValue, v))), x + "\r\n") ==
            if AreSpaces(x[1..]) then
              Ready(Stream(Bump(f, |x| + 2).(headerState := ContentLengthWs), Emit(t, Data(OnHeaderValue, v + x))))
            else Failed
  {
    hide Emit, Step, Valid, Run;
    var s := Stream(f, Emit(t, Data(OnHeaderValue, v)));
    var g := f.(state := HeaderValue, headerState := ContentLengthWs, nread := f.nread + 1);
    assert x + "\r\n" == [x[0]] + (x[1..] + "\r\n");
    RunAppend(cfg, s, [x[0]], x[1..] + "\r\n");
    RunOne(cfg, s, x[0]);
    FoldByte(cfg, f, s.trace, x[0]);
    EmitPieces(t, OnHeaderValue, v, [x[0]]);
    RunAppend(cfg, Stream(g, Emit(t, Data(OnHeaderValue, v + [x[0]]))), x[1..], "\r\n");
    ValueRest(x);
    SpacesBehind(cfg, g, t, v + [x[0]], x[1..]);
    assert v + [x[0]] + x[1..] == v + x;
    if AreSpaces(x[1..]) {
      var t' := Emit(t, Data(OnHeaderValue, v + x));
      ValueEnd(cfg, Bump(g, |x| - 1), t');
      EmitPieces(t, OnHeaderValue, v + x, "");
      assert v + x + "" == v + x;
    }
  }

  /**
   A Content-Length header that goes on over a further line: behind its first blank the line may hold spaces
   only, and the length stays what it was.
   */
  lemma FoldedLengthIsExact(cfg: Settings, f: Fields, t: Trace, name: string, blanks: string, value: string,
      fold: string)
    requires Valid(f) && f.errno.OK? && f.state.HeaderFieldStart? && Folded(name) == "content-length"
    requires IsHeaderLine(name, blanks, value) && value != "" && name != "" && AfterLine(f, name, blanks, value).Some?
    requires fold != "" && IsBlank(fold[0]) && OneLine(fold)
    requires f.nread + |HeaderLine(name, blanks, value) + (fold + "\r\n")| <= MAX_HEADER_SIZE
    ensures var r := Run(cfg, Stream(f, t), HeaderLine(name, blanks, value) + (fold + "\r\n"));
            if AreSpaces(fold[1..]) then
              && r.Ready?
              && Settle(r.s) == Stream(
                Bump(AfterLine(f, name, blanks, value).value, |fold| + 2).(headerState := ContentLengthWs),
                WithHeader(t, name, value + fold))
            else r.Failed?
  {
    hide Emit, Run, FollowValue, Valid, TokenOf, FollowName, Folded, AreSpaces;
    var g, t1 := Bump(AfterName(f, name), |blanks|), Emit(t, Data(OnHeaderField, name));
    NameStates(name);
    NoBlank(value);
    FoldedLine(cfg, f, t, name, blanks, value, fold);
    LengthsAreExact(g, value);
    var h := FollowValue(g, value).value;
    LengthFoldRun(cfg, h.(state := HeaderValueLws, nread := h.nread + 2), t1, value, fold);
  }
}
