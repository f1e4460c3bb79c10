/** Where messages begin and end: blank lines, answers of the client, upgrades, and what comes next. */
module MessageEnds {
  import opened Options
  import opened Traces
  import opened HttpTypes
  import opened HttpVisit
  import opened HttpRun
  import opened HttpHeaders
  import opened HttpBodies
  import opened HttpMessages
  import opened RequestLines

  // ----- The blank line -----

  lemma BlankNeedsFeed(cfg: Settings, f: Fields, t: Trace, ch: char)
    requires Valid(f) && f.errno.OK? && f.state.HeadersAlmostDone? && f.nread < MAX_HEADER_SIZE && ch != '\n'
    ensures Step(cfg, Stream(f, t), ch).Failed?
  {
    hide Emit, Step, Sound, VisitState;
    PlainStep(cfg, f, t, ch);
    Dispatch(Bump(f, 1), ch);
  }

  /** A CR at the start of a header line has to be followed by LF. */
  lemma BlankLineNeedsFeed(cfg: Settings, f: Fields, t: Trace, ch: char)
    requires Valid(f) && f.errno.OK? && f.state.HeaderFieldStart? && f.nread + 2 <= MAX_HEADER_SIZE && ch != '\n'
    ensures Run(cfg, Stream(f, t), "\r" + [ch]) == Failed
  {
    hide Run, Step, Valid;
    BlankLineReturn(cfg, f, t);
    var g := f.(state := HeadersAlmostDone, nread := f.nread + 1);
    ReadyRun(cfg, Stream(f, t), "\r" + [ch], Stream(g, t));
    assert ("\r" + [ch])[1..] == [ch];
    RunOne(cfg, Stream(g, t), ch);
    BlankNeedsFeed(cfg, g, t, ch);
  }

  lemma BlankFeedVisit(f: Fields)
    requires Inside(f) && f.state.HeaderFieldStart?
    ensures Asserts(f) && VisitState(f, '\n') == Visit(f.(state := HeadersAlmostDone), Nop, Again)
    ensures Inside(f.(state := HeadersAlmostDone))
  {
    hide Sound, VisitState;
    VisitKeeps(f, '\n');
    Dispatch(f, '\n');
  }

  lemma AgainVisit(cfg: Settings, f: Fields, t: Trace, c: char, g: Fields)
    requires Inside(f) && f.errno.OK? && Asserts(f) && VisitState(f, c) == Visit(g, Nop, Again) && Inside(g)
             && g.errno.OK?
    ensures Visits(cfg, Stream(f, t), c, None) == Visits(cfg, Stream(g, t), c, None)
  {
    hide Emit, Sound, VisitState, Kept;
  }

  /** LF alone is a blank line, too. */
  lemma BlankFeedAlone(cfg: Settings, f: Fields, t: Trace)
    requires Valid(f) && f.errno.OK? && f.state.HeaderFieldStart? && 0 < f.nread && f.nread + 2 <= MAX_HEADER_SIZE
    requires Valid(f.(nread := f.nread - 1))
    ensures Run(cfg, Stream(f, t), "\n") == Run(cfg, Stream(f.(nread := f.nread - 1), t), "\r\n")
  {
    hide Run, Step, Valid, Inside, Visits;
    BlankLineRun(cfg, f.(nread := f.nread - 1), t);
    BlankFeedStep(cfg, f, t);
    RunOne(cfg, Stream(f, t), '\n');
  }

  lemma BlankFeedStep(cfg: Settings, f: Fields, t: Trace)
    requires Valid(f) && f.errno.OK? && f.state.HeaderFieldStart? && f.nread + 2 <= MAX_HEADER_SIZE
    ensures var g := f.(state := HeadersAlmostDone, nread := f.nread + 1);
            Inside(g) && Step(cfg, Stream(f, t), '\n') == Visits(cfg, Stream(g, t), '\n', None)
  {
    hide Emit, Sound, VisitState, Visits, Asserts;
    CountedInside(f);
    BlankFeedVisit(Bump(f, 1));
    AgainVisit(cfg, Bump(f, 1), t, '\n', Bump(f, 1).(state := HeadersAlmostDone));
  }

  // ----- The answers of the client -----

  /** The fields after headers-complete has been answered with `a`. */
  function Answered(f: Fields, a: int): Fields {
    f.(nread := 0, upgrade := Upgrades(f) || a == 2,
      flags := f.flags.(skipBody := f.flags.skipBody || a == 1 || a == 2))
  }

  /** The message is over at its blank line: it is an upgrade without a body, or the body is to be skipped. */
  predicate EndsThere(f: Fields) {
    f.flags.skipBody
    || (f.upgrade && (f.verb.CONNECT? || !(f.flags.chunked || (f.contentLength != 0 && f.contentLength != ULLONG_MAX))))
  }

  lemma AnswerVisit(cfg: Settings, f: Fields, t: Trace)
    requires Inside(f) && f.errno.OK? && f.state.HeadersAlmostDone? && !f.flags.trailing
    requires !(f.flags.chunked && f.flags.contentLength)
    ensures var t' := Emit(t, Note(OnHeadersComplete));
            var a := cfg.headersComplete(LineOf(f), t');
            var g := Answered(f, a).(nread := f.nread, state := HeadersDone);
            && Inside(g)
            && Visits(cfg, Stream(f, t), '\n', None)
               == if a == 0 || a == 1 || a == 2 then Visits(cfg, Stream(g, t'), '\n', None) else Failed
  {
    hide Emit, Visits, LineOf, Inside, Upgrades;
    var a := cfg.headersComplete(LineOf(f), Emit(t, Note(OnHeadersComplete)));
    AskingVisit(f, a);
    LineOfMoved(f, f.(upgrade := Upgrades(f), state := HeadersDone));
    AskedAgain(cfg, f, t, f.(upgrade := Upgrades(f), state := HeadersDone));
  }

  /** The visit before the client is asked. */
  lemma AskingVisit(f: Fields, a: int)
    requires Inside(f) && f.state.HeadersAlmostDone? && !f.flags.trailing
    requires !(f.flags.chunked && f.flags.contentLength)
    ensures Asserts(f)
    ensures VisitState(f, '\n')
            == Visit(f.(upgrade := Upgrades(f), state := HeadersDone), Notify(OnHeadersComplete), Again)
    ensures Inside(Answered(f, a).(nread := f.nread, state := HeadersDone))
  {
    hide Sound, VisitState, Kept;
    VisitKeeps(f, '\n');
    Dispatch(f, '\n');
    SoundBounds(f);
    PlainMove(f, Answered(f, a).(nread := f.nread, state := HeadersDone));
  }

  lemma LineOfMoved(f: Fields, g: Fields)
    requires g == f.(upgrade := g.upgrade, state := g.state)
    ensures LineOf(g) == LineOf(f)
  {
  }

  lemma AskedAgain(cfg: Settings, f: Fields, t: Trace, h: Fields)
    requires Inside(f) && f.errno.OK? && Asserts(f) && h.errno.OK?
    requires VisitState(f, '\n') == Visit(h, Notify(OnHeadersComplete), Again)
    ensures var t' := Emit(t, Note(OnHeadersComplete));
            var a := cfg.headersComplete(LineOf(h), t');
            if a == 0 || a == 1 || a == 2 then
              && var g := if a == 0 then h else h.(flags := h.flags.(skipBody := true), upgrade := h.upgrade || a == 2);
                 Inside(g) && Visits(cfg, Stream(f, t), '\n', None) == Visits(cfg, Stream(g, t'), '\n', None)
            else Visits(cfg, Stream(f, t), '\n', None) == Failed
  {
    hide Emit, Inside, VisitState, Asserts, LineOf, Kept;
    VisitKeeps(f, '\n');
    VisitNotifies(f, '\n');
    RespondKeeps(cfg, f, VisitState(f, '\n'), Emit(t, Note(OnHeadersComplete)));
  }

  lemma DoneVisit(cfg: Settings, f: Fields, t: Trace)
    requires Inside(f) && f.errno.OK? && f.state.HeadersDone? && EndsThere(f)
    ensures Visits(cfg, Stream(f, t), '\n', None) == Complete(cfg, f.(nread := 0), t)
  {
    hide Emit, HeaderSound, VisitState, Kept, NewMessage, MessageNeedsEof, NumbersSound;
    VisitKeeps(f, '\n');
    Dispatch(f, '\n');
    NewMessageOf(f);
  }

  lemma NewMessageOf(f: Fields)
    ensures NewMessage(f.(nread := 0)) == NewMessage(f)
    ensures forall n, s :: NewMessage(f.(nread := n, state := s)) == NewMessage(f)
  {
  }

  /**
   The client's answer to headers-complete: 0 goes on; 1 skips the body, so that the message is over at the
   blank line; 2 does that and makes it an upgrade; any other answer is an error. A CONNECT request and an
   upgrade without a body are over there, too.
   */
  lemma AnswersAreObeyed(cfg: Settings, f: Fields, t: Trace)
    requires Valid(f) && f.errno.OK? && f.state.HeaderFieldStart? && f.nread + 2 <= MAX_HEADER_SIZE
    requires !f.flags.trailing && !f.flags.skipBody && !(f.flags.chunked && f.flags.contentLength)
    ensures var t' := Emit(t, Note(OnHeadersComplete));
            var a := cfg.headersComplete(LineOf(f), t');
            var r := Run(cfg, Stream(f, t), "\r\n");
            && (a != 0 && a != 1 && a != 2 ==> r == Failed)
            && (a == 1 || a == 2 ==> r == Complete(cfg, Answered(f, a), t'))
            && (a == 0 && EndsThere(Answered(f, 0)) ==> r == Complete(cfg, Answered(f, 0), t'))
            && (a == 0 && !Upgrades(f) ==> r == HeadersEnded(cfg, f, t'))
  {
    hide Emit, Run, Valid, Inside, Visits, HeadersEnded, Complete, EndsThere;
    var t' := Emit(t, Note(OnHeadersComplete));
    var a := cfg.headersComplete(LineOf(f), t');
    BlankLineRun(cfg, f, t);
    var g := f.(state := HeadersAlmostDone, nread := f.nread + 2);
    AnswerVisit(cfg, g, t);
    var h := Answered(g, a).(nread := g.nread, state := HeadersDone);
    SkippingEnds(Answered(f, a), a, h);
    if a == 0 && !Upgrades(f) {
      HeadersEnd(cfg, f, t);
    }
    if EndsThere(h) {
      DoneVisit(cfg, h, t');
      CompleteOf(cfg, h, Answered(f, a), t');
    }
  }

  lemma SkippingEnds(g: Fields, a: int, h: Fields)
    requires h == g.(nread := h.nread, state := h.state)
    ensures EndsThere(h) <==> EndsThere(g)
    ensures g.flags.skipBody ==> EndsThere(g)
  {
  }

  lemma CompleteOf(cfg: Settings, h: Fields, g: Fields, t: Trace)
    requires h == g.(nread := h.nread, state := h.state) && g.nread == 0
    ensures Complete(cfg, h.(nread := 0), t) == Complete(cfg, g, t)
  {
    hide Emit, NewMessage;
    NewMessageOf(g);
  }

  /** An upgrade or a tunnel stops the parser, which leaves the bytes behind the blank line alone. */
  lemma UpgradeStops(cfg: Settings, f: Fields, t: Trace, rest: string)
    requires Valid(f) && f.errno.OK? && f.state.HeaderFieldStart? && f.nread + 2 <= MAX_HEADER_SIZE
    requires !f.flags.trailing && !f.flags.skipBody && !(f.flags.chunked && f.flags.contentLength)
    requires cfg.headersComplete(LineOf(f), Emit(t, Note(OnHeadersComplete))) == 0
    requires f.verb.CONNECT? && !(f.flags.upgrade && f.flags.connUpgrade && f.ptype.HttpResponse?
             && f.statusCode != 101)
    ensures match Run(cfg, Stream(f, t), "\r\n" + rest)
            case Stopped(s, left) =>
              left == rest && s.trace == Emit(Emit(t, Note(OnHeadersComplete)), Note(OnMessageComplete)) && s.f.upgrade
            case _ => false
  {
    hide Emit, Run, Valid, NewMessage;
    AnswersAreObeyed(cfg, f, t);
    RunAppend(cfg, Stream(f, t), "\r\n", rest);
    assert "" + rest == rest;
  }

  // ----- What comes next -----

  /** A status that no body follows. */
  predicate IsBodiless(code: nat) {
    (100 <= code && code <= 199) || code == 204 || code == 304
  }

  /** The end of the message can be told without the end of the connection. */
  predicate IsDelimited(f: Fields) {
    || f.ptype.HttpRequest? || IsBodiless(f.statusCode) || f.flags.skipBody || f.flags.chunked
    || f.contentLength != 0xFFFF_FFFF_FFFF_FFFF
  }

  /** Behind a message another one may come: by default from HTTP/1.1 on, before only on request. */
  predicate IsKept(f: Fields) {
    if f.major >= 1 && f.minor >= 1 then !f.flags.close else f.flags.keepAlive
  }

  lemma NextMessageIsExact(f: Fields)
    ensures NewMessage(f) == if IsKept(f) && IsDelimited(f) then if f.ptype.HttpRequest? then StartReq else StartRes
            else Dead
    ensures MessageNeedsEof(f) <==> !IsDelimited(f)
  {
  }

  /** A response without a length ends at its blank line, if its status has no body, and else with the connection. */
  lemma ResponseWithoutLength(cfg: Settings, f: Fields, t: Trace)
    requires Valid(f) && f.errno.OK? && f.state.HeaderFieldStart? && f.nread + 2 <= MAX_HEADER_SIZE
    requires f.ptype.HttpResponse? && !f.flags.trailing && !f.flags.skipBody && !f.flags.chunked
             && f.contentLength == ULLONG_MAX && !Upgrades(f)
    requires cfg.headersComplete(LineOf(f), Emit(t, Note(OnHeadersComplete))) == 0
    ensures var g, t' := f.(nread := 0, upgrade := false), Emit(t, Note(OnHeadersComplete));
            Run(cfg, Stream(f, t), "\r\n") ==
            if IsBodiless(f.statusCode) then Complete(cfg, g, t')
            else Ready(Stream(g.(state := BodyIdentityEof), t'))
  {
    hide Emit, Run, Valid, Complete;
    HeadersEnd(cfg, f, t);
    NextMessageIsExact(f);
  }

  lemma EofByte(cfg: Settings, f: Fields, t: Trace, c: char)
    requires Valid(f) && f.errno.OK? && f.state.BodyIdentityEof?
    ensures Step(cfg, Stream(f, t), c) == Ready(Stream(f, Emit(t, Data(OnBody, [c]))))
  {
    hide Emit, Step, HeaderSound, VisitState, MulAdd64;
    PlainStep(cfg, f, t, c);
    Dispatch(f, c);
  }

  /** Everything up to the end of the connection is body. */
  lemma {:induction false} EofBodyIsDelivered(cfg: Settings, f: Fields, t: Trace, x: string)
    requires Valid(f) && f.errno.OK? && f.state.BodyIdentityEof? && x != ""
    ensures Run(cfg, Stream(f, t), x) == Ready(Stream(f, Emit(t, Data(OnBody, x))))
    decreases |x|
  {
    hide Emit, Run, Step, Valid;
    var front, c := x[..|x| - 1], x[|x| - 1];
    assert x == front + [c];
    if front == "" {
      RunOne(cfg, Stream(f, t), c);
      EofByte(cfg, f, t, c);
    } else {
      EofBodyIsDelivered(cfg, f, t, front);
      RunLast(cfg, Stream(f, t), x);
      EofByte(cfg, f, Emit(t, Data(OnBody, front)), c);
      EmitPieces(t, OnBody, front, [c]);
    }
  }

  // ----- Between messages -----

  lemma BetweenByte(cfg: Settings, f: Fields, t: Trace, c: char)
    requires Valid(f) && f.errno.OK? && IsStartState(f.state) && f.nread < MAX_HEADER_SIZE
    ensures IsLineEnd(c) ==> Step(cfg, Stream(f, t), c) == Ready(Stream(Bump(f, 1), t))
    ensures f.state.Dead? && !IsLineEnd(c) ==> Step(cfg, Stream(f, t), c).Failed?
    ensures f.state.StartRes? && !IsLineEnd(c) && c != 'H' ==> Step(cfg, Stream(f, t), c).Failed?
  {
    hide Emit, Step, Sound, VisitState;
    PlainStep(cfg, f, t, c);
    Dispatch(Bump(f, 1), c);
  }

  predicate AreLineEnds(x: string) {
    forall c <- x :: IsLineEnd(c)
  }

  /** Line ends before a message are skipped. */
  lemma {:induction false} LineEndsAreSkipped(cfg: Settings, f: Fields, t: Trace, x: string)
    requires Valid(f) && f.errno.OK? && IsStartState(f.state) && f.nread + |x| <= MAX_HEADER_SIZE && AreLineEnds(x)
    ensures Run(cfg, Stream(f, t), x) == Ready(Stream(Bump(f, |x|), t))
    decreases |x|
  {
    hide Step, Valid, IsLineEnd;
    if x != "" {
      BetweenByte(cfg, f, t, x[0]);
      LineEndsAreSkipped(cfg, Bump(f, 1), t, x[1..]);
    }
  }

  /** Behind a message that closes the connection nothing but line ends is taken. */
  lemma {:induction false} NothingComesAfterClose(cfg: Settings, f: Fields, t: Trace, x: string)
    requires Valid(f) && f.errno.OK? && f.state.Dead? && f.nread + |x| <= MAX_HEADER_SIZE
    ensures Run(cfg, Stream(f, t), x) == if AreLineEnds(x) then Ready(Stream(Bump(f, |x|), t)) else Failed
    decreases |x|
  {
    hide Step, Valid, IsLineEnd;
    if x != "" {
      BetweenByte(cfg, f, t, x[0]);
      assert x == [x[0]] + x[1..];
      if IsLineEnd(x[0]) {
        NothingComesAfterClose(cfg, Bump(f, 1), t, x[1..]);
      } else {
        assert x[0] in x;
      }
    }
  }

  // ----- The size of a header -----

  /** A header of 81920 bytes is as long as one may be. */
  lemma HeaderLimit(cfg: Settings, f: Fields, t: Trace, ch: char)
    requires Valid(f) && ParsingHeader(f.state)
    ensures f.nread <= 81920
    ensures f.nread == 81920 ==> Step(cfg, Stream(f, t), ch).Failed?
  {
    hide Visits;
  }
}
