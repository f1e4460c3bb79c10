/** Whole header lines: what a name, a colon, blanks, a value and CRLF do to the parser. */
module HttpHeaders {
  import opened Options
  import opened Traces
  import opened HttpTypes
  import opened HttpVisit
  import opened HttpRun

  predicate IsBlank(c: char) {
    c == ' ' || c == '\t'
  }

  predicate AllBlank(x: string) {
    forall c <- x :: IsBlank(c)
  }

  predicate OneLine(x: string) {
    forall c <- x :: !IsLineEnd(c)
  }

  /** What a value may consist of. */
  predicate IsValue(x: string) {
    forall c <- x :: IsHeaderChar(c) && !IsLineEnd(c)
  }

  function Bump(f: Fields, n: nat): Fields {
    f.(nread := f.nread + n)
  }

  function Passed(v: Visit): Option<Fields> {
    if v.next.Fail? then None else Some(v.f)
  }

  /** The fields after the bytes of a value; none if one of them is an error. */
  function FollowValue(f: Fields, value: string): Option<Fields>
    requires value != ""
  {
    var c := value[|value| - 1];
    if |value| == 1 then Passed(VisitValueStart(Bump(f, 1), c))
    else
      match FollowValue(f, value[..|value| - 1])
      case None => None
      case Some(g) => Passed(ValueByte(Bump(g, 1), c))
  }

  /** A value changes nothing but what the headers are about. */
  ghost predicate Within(f: Fields, g: Fields, n: nat) {
    && g == f.(state := HeaderValue, nread := f.nread + n,
               headerState := g.headerState, index := g.index, contentLength := g.contentLength, flags := g.flags)
    && g.flags.trailing == f.flags.trailing && g.flags.chunked == f.flags.chunked
       && g.flags.skipBody == f.flags.skipBody
    && (f.flags.contentLength ==> g.flags.contentLength)
  }

  lemma ValueStartWithin(f: Fields, c: char)
    ensures VisitValueStart(Bump(f, 1), c).next.Fail? || Within(f, VisitValueStart(Bump(f, 1), c).f, 1)
  {
  }

  lemma ValueByteWithin(g: Fields, c: char)
    requires g.state.HeaderValue?
    ensures ValueByte(Bump(g, 1), c).next.Fail? || Within(g, ValueByte(Bump(g, 1), c).f, 1)
  {
  }

  lemma {:induction false} FollowWithin(f: Fields, value: string)
    requires value != ""
    ensures FollowValue(f, value).Some? ==> Within(f, FollowValue(f, value).value, |value|)
  {
    hide VisitValueStart, ValueByte;
    var c := value[|value| - 1];
    if |value| == 1 {
      ValueStartWithin(f, c);
    } else {
      FollowWithin(f, value[..|value| - 1]);
      if FollowValue(f, value[..|value| - 1]).Some? {
        ValueByteWithin(FollowValue(f, value[..|value| - 1]).value, c);
      }
    }
  }

  lemma ValueStartMarks(f: Fields, c: char)
    ensures var v := VisitValueStart(f, c); v.next.Fail? || (v.op == Mark(OnHeaderValue) && v.next.Break?)
  {
  }

  lemma ValueFirstByte(cfg: Settings, f: Fields, t: Trace, c: char)
    requires Valid(f) && f.errno.OK? && f.state.HeaderValueDiscardWs? && f.nread < MAX_HEADER_SIZE && !IsLineEnd(c)
             && !IsBlank(c)
    ensures Step(cfg, Stream(f, t), c) ==
            match FollowValue(f, [c])
            case None => Failed
            case Some(g) => Ready(Stream(g, Emit(t, Data(OnHeaderValue, [c]))))
  {
    hide Emit, Step, Sound, VisitState, VisitValueStart;
    PlainStep(cfg, f, t, c);
    Dispatch(Bump(f, 1), c);
    ValueStartMarks(Bump(f, 1), c);
  }

  lemma ValueNextByte(cfg: Settings, f: Fields, t: Trace, c: char)
    requires Valid(f) && f.errno.OK? && f.state.HeaderValue? && f.nread < MAX_HEADER_SIZE && !IsLineEnd(c)
    ensures Step(cfg, Stream(f, t), c) ==
            match Passed(ValueByte(Bump(f, 1), c))
            case None => Failed
            case Some(g) => Ready(Stream(g, Emit(t, Data(OnHeaderValue, [c]))))
  {
    hide Emit, Step, Sound, VisitState, ValueByte;
    PlainStep(cfg, f, t, c);
    Dispatch(Bump(f, 1), c);
    ValueByteIsNop(Bump(f, 1), c);
  }

  lemma ValueByteIsNop(f: Fields, c: char)
    ensures var v := ValueByte(f, c); v.next.Fail? || (v.op.Nop? && v.next.Break?)
  {
  }

  /** The bytes of a value are followed one by one. */
  lemma {:induction false} ValueRun(cfg: Settings, f: Fields, t: Trace, value: string)
    requires Valid(f) && f.errno.OK? && f.state.HeaderValueDiscardWs? && f.nread + |value| <= MAX_HEADER_SIZE
    requires value != "" && OneLine(value) && !IsBlank(value[0])
    ensures Run(cfg, Stream(f, t), value) ==
            match FollowValue(f, value)
            case None => Failed
            case Some(g) => Ready(Stream(g, Emit(t, Data(OnHeaderValue, value))))
  {
    hide Emit, Run, Step, VisitValueStart, ValueByte;
    var s := Stream(f, t);
    var front, c := value[..|value| - 1], value[|value| - 1];
    FollowWithin(f, value);
    if |value| == 1 {
      assert value == [c];
      RunOne(cfg, s, c);
      ValueFirstByte(cfg, f, t, c);
    } else {
      assert value == front + [c];
      ValueRun(cfg, f, t, front);
      RunLast(cfg, s, value);
      FollowWithin(f, front);
      if FollowValue(f, front).Some? {
        EmitPieces(t, OnHeaderValue, front, [c]);
        ValueNextByte(cfg, FollowValue(f, front).value, Emit(t, Data(OnHeaderValue, front)), c);
      }
    }
  }

  lemma BlankByte(cfg: Settings, f: Fields, t: Trace, c: char)
    requires Valid(f) && f.errno.OK? && f.state.HeaderValueDiscardWs? && f.nread < MAX_HEADER_SIZE && IsBlank(c)
    ensures Step(cfg, Stream(f, t), c) == Ready(Stream(Bump(f, 1), t))
  {
    hide Emit, Step, Sound, VisitState;
    PlainStep(cfg, f, t, c);
    Dispatch(Bump(f, 1), c);
  }

  lemma {:induction false} BlankRun(cfg: Settings, f: Fields, t: Trace, x: string)
    requires Valid(f) && f.errno.OK? && f.state.HeaderValueDiscardWs? && f.nread + |x| <= MAX_HEADER_SIZE && AllBlank(x)
    ensures Run(cfg, Stream(f, t), x) == Ready(Stream(Bump(f, |x|), t))
    decreases |x|
  {
    hide Step;
    if x != "" {
      BlankByte(cfg, f, t, x[0]);
      BlankRun(cfg, Bump(f, 1), t, x[1..]);
    }
  }

  // ----- The end of a line -----

  lemma TwoBytes(cfg: Settings, s: Stream, a: char, b: char)
    requires Valid(s.f) && Step(cfg, s, a).Ready?
    ensures Run(cfg, s, [a, b]) == Step(cfg, Step(cfg, s, a).s, b)
  {
    hide Step;
    assert [a, b][1..] == [b];
    RunOne(cfg, Step(cfg, s, a).s, b);
  }

  lemma ValueReturn(cfg: Settings, f: Fields, t: Trace)
    requires Valid(f) && f.errno.OK? && f.state.HeaderValue? && f.nread < MAX_HEADER_SIZE
    ensures Step(cfg, Stream(f, t), '\r')
            == Ready(Stream(f.(state := HeaderAlmostDone, nread := f.nread + 1), Emit(t, Data(OnHeaderValue, ""))))
  {
    hide Emit, Step, Sound, VisitState;
    PlainStep(cfg, f, t, '\r');
    Dispatch(Bump(f, 1), '\r');
  }

  /** A state between a value and its line feed. */
  predicate IsReturnState(s: State) {
    s.HeaderAlmostDone? || s.HeaderValueDiscardWsAlmostDone?
  }

  lemma ValueFeed(cfg: Settings, f: Fields, t: Trace)
    requires Valid(f) && f.errno.OK? && IsReturnState(f.state) && f.nread < MAX_HEADER_SIZE
    ensures Step(cfg, Stream(f, t), '\n') ==
            Ready(Stream(f.(state := if f.state.HeaderAlmostDone? then HeaderValueLws else HeaderValueDiscardLws,
              nread := f.nread + 1), t))
  {
    hide Emit, Step, Sound, VisitState;
    PlainStep(cfg, f, t, '\n');
    Dispatch(Bump(f, 1), '\n');
  }

  lemma EmptyValueReturn(cfg: Settings, f: Fields, t: Trace)
    requires Valid(f) && f.errno.OK? && f.state.HeaderValueDiscardWs? && f.nread < MAX_HEADER_SIZE
    ensures Step(cfg, Stream(f, t), '\r')
            == Ready(Stream(f.(state := HeaderValueDiscardWsAlmostDone, nread := f.nread + 1), t))
  {
    hide Emit, Step, Sound, VisitState;
    PlainStep(cfg, f, t, '\r');
    Dispatch(Bump(f, 1), '\r');
  }

  lemma ValueEnd(cfg: Settings, f: Fields, t: Trace)
    requires Valid(f) && f.errno.OK? && f.state.HeaderValue? && f.nread + 2 <= MAX_HEADER_SIZE
    ensures Run(cfg, Stream(f, t), "\r\n")
            == Ready(Stream(f.(state := HeaderValueLws, nread := f.nread + 2), Emit(t, Data(OnHeaderValue, ""))))
  {
    hide Emit, Step, Sound, Run;
    ValueReturn(cfg, f, t);
    ValueFeed(cfg, f.(state := HeaderAlmostDone, nread := f.nread + 1), Emit(t, Data(OnHeaderValue, "")));
    TwoBytes(cfg, Stream(f, t), '\r', '\n');
  }

  lemma EmptyValueEnd(cfg: Settings, f: Fields, t: Trace)
    requires Valid(f) && f.errno.OK? && f.state.HeaderValueDiscardWs? && f.nread + 2 <= MAX_HEADER_SIZE
    ensures Run(cfg, Stream(f, t), "\r\n") == Ready(Stream(f.(state := HeaderValueDiscardLws, nread := f.nread + 2), t))
  {
    hide Emit, Step, Sound, Run;
    EmptyValueReturn(cfg, f, t);
    ValueFeed(cfg, f.(state := HeaderValueDiscardWsAlmostDone, nread := f.nread + 1), t);
    TwoBytes(cfg, Stream(f, t), '\r', '\n');
  }

  predicate Unsettled(f: Fields) {
    f.state.HeaderValueLws? || (f.state.HeaderValueDiscardLws? && !f.headerState.ContentLength?)
  }

  /** A finished line as the next byte, unless it folds the line, will find it. */
  function Settle(s: Stream): Stream {
    if s.f.state.HeaderValueLws? then Stream(s.f.(flags := FinishedFlags(s.f), state := HeaderFieldStart), s.trace)
    else if s.f.state.HeaderValueDiscardLws? && !s.f.headerState.ContentLength? then
      Stream(s.f.(flags := FinishedFlags(s.f), state := HeaderFieldStart), Emit(s.trace, Data(OnHeaderValue, "")))
    else s
  }

  lemma SettleKeeps(s: Stream)
    requires Valid(s.f)
    ensures Valid(Settle(s).f)
  {
    hide Emit;
  }

  lemma SettleInside(f: Fields, ch: char)
    requires Inside(f) && Unsettled(f) && !IsBlank(ch)
    ensures Asserts(f)
    ensures VisitState(f, ch) == Visit(f.(flags := FinishedFlags(f), state := HeaderFieldStart),
                                       if f.state.HeaderValueLws? then Nop else MarkCall(OnHeaderValue), Again)
  {
    hide Sound, VisitState, Kept;
    VisitKeeps(f, ch);
    Dispatch(f, ch);
  }

  lemma SettleCounted(s: Stream)
    ensures if Unsettled(s.f) then
              Counted(s.f).headerState == s.f.headerState && Counted(s.f).errno == s.f.errno
                && Counted(s.f).state == s.f.state
              && Counted(Settle(s).f).nread == Counted(s.f).nread && Settle(s).f.errno == s.f.errno
              && Stream(Counted(Settle(s).f), Settle(s).trace) == Settle(Stream(Counted(s.f), s.trace))
              && InitialMark(s.f.state).None? && InitialMark(Settle(s).f.state).None?
            else Settle(s) == s
  {
    hide Emit;
  }

  /** The byte after a line does to the parser what it does to the settled one. */
  lemma SettleStep(cfg: Settings, s: Stream, ch: char)
    requires Valid(s.f) && !IsBlank(ch)
    ensures Valid(Settle(s).f) && Step(cfg, s, ch) == Step(cfg, Settle(s), ch)
  {
    hide Settle, Valid, Inside, InitialMark, Visits, Counted;
    SettleKeeps(s);
    SettleCounted(s);
    if Unsettled(s.f) && s.f.errno.OK? && Counted(s.f).nread <= MAX_HEADER_SIZE {
      CountedInside(s.f);
      SettleVisits(cfg, Stream(Counted(s.f), s.trace), ch);
    }
  }

  lemma SettleVisits(cfg: Settings, s: Stream, ch: char)
    requires Inside(s.f) && s.f.errno.OK? && !IsBlank(ch)
    requires Unsettled(s.f)
    ensures Inside(Settle(s).f) && Visits(cfg, s, ch, None) == Visits(cfg, Settle(s), ch, None)
  {
    hide Emit, FinishedFlags, Sound, VisitState;
    SettleInside(s.f, ch);
    VisitKeeps(s.f, ch);
  }

  lemma SettleRun(cfg: Settings, s: Stream, x: string)
    requires Valid(s.f) && x != "" && !IsBlank(x[0])
    ensures Valid(Settle(s).f) && Run(cfg, s, x) == Run(cfg, Settle(s), x)
  {
    hide Step, Settle;
    SettleStep(cfg, s, x[0]);
  }
}
