/** What every run of the parser promises to a request: paired fields and values, and a settled request line. */
module RequestTheorems {
  import opened Options
  import opened Traces
  import opened HttpTypes
  import opened HttpVisit
  import opened HttpRun
  import opened HttpMarks
  import opened RequestState

  // ----- Fields and values -----

  /** The last callback about a header was a field. */
  function Pending(t: Trace): bool {
    if t == [] then false
    else if t[|t| - 1].Data? && (t[|t| - 1].kind.OnHeaderField? || t[|t| - 1].kind.OnHeaderValue?)
         then t[|t| - 1].kind.OnHeaderField?
    else Pending(t[..|t| - 1])
  }

  function PendingAfter(pending: bool, k: Kind): bool {
    if k.OnHeaderField? then true else if k.OnHeaderValue? then false else pending
  }

  lemma PendingEmit(t: Trace, e: Event)
    ensures Pending(Emit(t, e)) == if e.Data? then PendingAfter(Pending(t), e.kind) else Pending(t)
  {
    var t' := Emit(t, e);
    if |t'| == |t| {
      assert t'[..|t'| - 1] == t[..|t| - 1];
    } else {
      assert t'[..|t'| - 1] == t;
    }
  }

  /** The states between the first byte of a name and its value. */
  predicate Owed(s: State) {
    s.HeaderField? || s.HeaderValueDiscardWs? || s.HeaderValueDiscardWsAlmostDone? || s.HeaderValueDiscardLws?
  }

  function OwedAfter(owed: bool, op: Op): bool {
    match op
    case Mark(k) => PendingAfter(owed, k)
    case MarkCall(k) => PendingAfter(owed, k)
    case _ => owed
  }

  ghost predicate OwesRight(f: Fields, v: Visit) {
    v.next.Fail? || Owed(v.f.state) == OwedAfter(Owed(f.state), v.op)
  }

  lemma UrlOwes(f: Fields, ch: char)
    requires f.state.ReqSpacesBeforeUrl? || IsUrlState(f.state)
    ensures OwesRight(f, VisitUrl(f, ch))
  {
    UrlIsUrl(if f.verb.CONNECT? then ReqServerStart else f.state, ch);
    UrlIsUrl(f.state, ch);
    hide ParseUrlChar;
  }

  lemma UrlIsUrl(s: State, ch: char)
    ensures !Owed(ParseUrlChar(s, ch))
  {
  }

  lemma LinesOwe(f: Fields, ch: char)
    ensures IsVersionState(f.state) ==> OwesRight(f, VisitVersion(f, ch))
    ensures IsResponseLineState(f.state) ==> OwesRight(f, VisitResponseLine(f, ch))
  {
  }

  lemma MethodOwes(f: Fields, ch: char)
    requires f.state.ReqMethod?
    ensures OwesRight(f, VisitMethod(f, ch))
  {
    hide SwitchMethod, MethodName, At;
  }

  lemma HeadersOwe(f: Fields, ch: char)
    ensures f.state.HeaderFieldStart? ==> OwesRight(f, VisitFieldStart(f, ch))
    ensures f.state.HeaderValueStart? || f.state.HeaderValueDiscardWs? ==> OwesRight(f, VisitValueStart(f, ch))
    ensures f.state.HeaderField? ==> OwesRight(f, VisitField(f, ch))
  {
    hide TokenOf, Lower, NextName;
  }

  lemma BlanksOwe(f: Fields, ch: char)
    requires IsBlankState(f.state)
    ensures OwesRight(f, VisitValueBlank(f, ch))
  {
    hide VisitValueStart, FinishedFlags;
    HeadersOwe(f, ch);
  }

  lemma ValueOwes(f: Fields, ch: char)
    requires Inside(f) && f.state.HeaderValue?
    ensures OwesRight(f, VisitValue(f, ch))
  {
    hide ValueByte, HeaderSound;
    ValueByteKeeps(f, ch);
  }

  lemma OthersOwe(f: Fields, ch: char)
    requires Asserts(f)
    ensures IsStartState(f.state) ==> OwesRight(f, VisitStart(f, ch))
    ensures IsHeadersEndState(f.state) ==> OwesRight(f, VisitHeadersEnd(f, ch))
    ensures IsChunkSizeState(f.state) ==> OwesRight(f, VisitChunkSize(f, ch))
    ensures InBody(f.state) || f.state.ChunkDataAlmostDone? || f.state.ChunkDataDone? || f.state.MessageDone? ==>
            OwesRight(f, VisitBody(f, ch))
  {
    hide OwesRight, VisitStart, VisitHeadersEnd, VisitChunkSize, VisitBody;
    if IsStartState(f.state) {
      StartOwes(f, ch);
    } else if IsHeadersEndState(f.state) {
      HeadersEndOwes(f, ch);
    } else if IsChunkSizeState(f.state) {
      ChunkSizeOwes(f, ch);
    } else if InBody(f.state) || f.state.ChunkDataAlmostDone? || f.state.ChunkDataDone? || f.state.MessageDone? {
      BodyStateOwes(f, ch);
    }
  }

  lemma StartOwes(f: Fields, ch: char)
    requires IsStartState(f.state)
    ensures OwesRight(f, VisitStart(f, ch))
  {
    hide FirstMethod;
  }

  lemma HeadersEndOwes(f: Fields, ch: char)
    requires IsHeadersEndState(f.state)
    ensures OwesRight(f, VisitHeadersEnd(f, ch))
  {
    hide NewMessage;
    NewMessagePlain(f);
  }

  lemma ChunkSizeOwes(f: Fields, ch: char)
    requires IsChunkSizeState(f.state)
    ensures OwesRight(f, VisitChunkSize(f, ch))
  {
    hide MulAdd64, Unhex;
  }

  lemma BodyStateOwes(f: Fields, ch: char)
    requires Asserts(f)
    requires InBody(f.state) || f.state.ChunkDataAlmostDone? || f.state.ChunkDataDone? || f.state.MessageDone?
    ensures OwesRight(f, VisitBody(f, ch))
  {
    hide NewMessage;
    NewMessagePlain(f);
  }

  /** Each visit makes a callback due, or pays it, as its state says. */
  lemma VisitOwes(f: Fields, ch: char)
    requires Inside(f)
    ensures Asserts(f) && OwesRight(f, VisitState(f, ch))
  {
    hide OwesRight, VisitStart, VisitResponseLine, VisitMethod, VisitUrl, VisitVersion, VisitFieldStart, VisitField,
      VisitValueBlank,
      VisitValueStart, VisitValue, VisitHeadersEnd, VisitBody, VisitChunkSize;
    hide Sound, Kept;
    VisitKeeps(f, ch);
    var s := f.state;
    if s.ReqSpacesBeforeUrl? || IsUrlState(s) { UrlOwes(f, ch); }
    else if IsVersionState(s) || IsResponseLineState(s) { LinesOwe(f, ch); }
    else if IsBlankState(s) { BlanksOwe(f, ch); }
    else if s.ReqMethod? { MethodOwes(f, ch); }
    else if s.HeaderValue? { ValueOwes(f, ch); }
    else if s.HeaderFieldStart? || s.HeaderValueStart? || s.HeaderField? { HeadersOwe(f, ch); }
    else { OthersOwe(f, ch); }
  }

  /** What is pending once the byte behind a mark is delivered. */
  function MarkPending(t: Trace, mark: Option<Kind>): bool {
    if mark.Some? then PendingAfter(Pending(t), mark.value) else Pending(t)
  }

  lemma OpPending(t: Trace, op: Op, mark: Option<Kind>, ch: char)
    requires op.Mark? || op.MarkCall? || op.TakeBody? || op.Notify? ==> mark.None?
    requires op.Call? ==> mark == Some(op.kind) || op.kind.OnBody?
    ensures MarkPending(TraceOp(t, op, mark, ch), MarkOp(op, mark)) == OwedAfter(MarkPending(t, mark), op)
  {
    hide Emit, Pending;
    if op.Call? || op.MarkCall? {
      PendingEmit(t, Data(op.kind, ""));
    } else if op.TakeBody? {
      PendingEmit(t, Data(OnBody, [ch]));
    } else if op.Notify? {
      PendingEmit(t, Note(op.notice));
    }
  }

  lemma EndPending(t: Trace, mark: Option<Kind>, ch: char)
    ensures Pending(TraceEnd(t, mark, ch)) == MarkPending(t, mark)
  {
    hide Emit, Pending;
    if mark.Some? {
      PendingEmit(t, Data(mark.value, [ch]));
    }
  }

  /** The marks of a visit, bodies included. */
  lemma MarksOfVisit(f: Fields, ch: char)
    requires Inside(f)
    ensures Asserts(f)
    ensures var v, mark := VisitState(f, ch), InitialMark(f.state);
            v.next.Fail? || (
              && (v.op.Mark? || v.op.MarkCall? || v.op.TakeBody? || v.op.Notify? ==> mark.None?)
              && (v.op.Call? ==> mark == Some(v.op.kind) || v.op.kind.OnBody?)
              && (v.next.Again? ==> MarkOp(v.op, mark) == InitialMark(v.f.state)))
  {
    hide Inside, Asserts, VisitState, MarksRight, InitialMark, Kept;
    VisitKeeps(f, ch);
    if InBody(f.state) {
      BodyMarksOfVisit(f, ch);
    } else {
      VisitMarks(f, ch);
      assert MarksRight(f, VisitState(f, ch));
      RightMarks(f, VisitState(f, ch));
    }
  }

  lemma RightMarks(f: Fields, v: Visit)
    requires MarksRight(f, v)
    ensures v.next.Fail? || (
              && (v.op.Mark? || v.op.MarkCall? || v.op.TakeBody? || v.op.Notify? ==> InitialMark(f.state).None?)
              && (v.op.Call? ==> InitialMark(f.state) == Some(v.op.kind) || v.op.kind.OnBody?)
              && MarkOp(v.op, InitialMark(f.state)) == InitialMark(v.f.state))
  {
  }

  lemma BodyMarksOfVisit(f: Fields, ch: char)
    requires Asserts(f) && InBody(f.state)
    ensures var v := VisitState(f, ch);
            && InitialMark(f.state).None? && !v.op.Call?
               && (v.next.Again? ==> MarkOp(v.op, None) == InitialMark(v.f.state))
  {
    hide VisitState, NewMessage;
    Dispatch(f, ch);
  }

  // ----- The comparison of fields and values -----

  /** The vectors have one length, or one field more while its value is due. */
  predicate Balanced(q: Req) {
    |q.fields| == |q.values| + if q.lastWasValue then 0 else 1
  }

  lemma HandleBalanced(q: Req, l: Line, e: Event, checked: bool)
    requires Balanced(q)
    ensures var q' := Handle(q, l, e, checked).0;
            && Balanced(q')
            && !q'.lastWasValue == (if e.Data? then PendingAfter(!q.lastWasValue, e.kind) else !q.lastWasValue)
            && q' == Handle(q, l, e, !checked).0
            && (q.lastWasValue ==> Handle(q, l, e, checked) == Handle(q, l, e, !checked))
  {
    hide MethodName, VersionOf, HeadersOf, IsMultipart, MultipartForm;
  }

  lemma {:induction false} FoldBalanced(l: Line, t: Trace, checked: bool)
    ensures var q := Fold(NewReq, l, t, checked);
            Balanced(q) && q.lastWasValue == !Pending(t) && q == Fold(NewReq, l, t, !checked)
  {
    hide Handle;
    if t != [] {
      FoldBalanced(l, t[..|t| - 1], checked);
      HandleBalanced(Fold(NewReq, l, t[..|t| - 1], checked), l, t[|t| - 1], checked);
    }
  }

  lemma SameAnswer(l: Line, t: Trace, n: Notice)
    requires !Pending(t)
    ensures Answer(l, Emit(t, Note(n)), true) == Answer(l, Emit(t, Note(n)), false)
  {
    hide Handle, Pending;
    assert Emit(t, Note(n))[..|t|] == t;
    FoldBalanced(l, t, true);
    HandleBalanced(Fold(NewReq, l, t, true), l, Note(n), true);
  }

  /** The client is asked only where nothing is due. */
  lemma SameRespond(v: Visit, t: Trace, mark: Option<Kind>, ch: char)
    requires v.op == Notify(OnHeadersComplete) || v.op == Notify(OnMessageComplete) ==> !Pending(t)
    ensures Respond(SettingsOf(true), v, TraceOp(t, v.op, mark, ch))
            == Respond(SettingsOf(false), v, TraceOp(t, v.op, mark, ch))
  {
    hide Pending, Answer, Emit;
    if v.op == Notify(OnHeadersComplete) || v.op == Notify(OnMessageComplete) {
      SameAnswer(LineOf(v.f), t, v.op.notice);
    }
  }

  lemma NotifiesPaid(f: Fields, ch: char)
    requires Asserts(f)
    ensures var v := VisitState(f, ch);
            v.op == Notify(OnHeadersComplete) || v.op == Notify(OnMessageComplete) ==>
              !Owed(f.state) && InitialMark(f.state).None?
  {
    hide VisitState, VisitMethod, VisitUrl, VisitVersion, VisitResponseLine, VisitFieldStart, VisitField, VisitValue,
      VisitValueBlank, VisitValueStart;
    Dispatch(f, ch);
    if f.state.ReqSpacesBeforeUrl? || IsUrlState(f.state) || IsVersionState(f.state) {
      SilentVisits(f, ch);
    }
  }

  lemma SilentVisits(f: Fields, ch: char)
    requires Asserts(f) && (f.state.ReqSpacesBeforeUrl? || IsUrlState(f.state) || IsVersionState(f.state))
    ensures Silent(VisitState(f, ch))
  {
    hide VisitUrl, VisitVersion;
  }

  lemma {:induction false} VisitsPaired(s: Stream, ch: char)
    requires Inside(s.f) && s.f.errno.OK? && MarkPending(s.trace, InitialMark(s.f.state)) == Owed(s.f.state)
    ensures var r := Visits(SettingsOf(true), s, ch, InitialMark(s.f.state));
            && r == Visits(SettingsOf(false), s, ch, InitialMark(s.f.state))
            && (r.Ready? ==> Pending(r.s.trace) == Owed(r.s.f.state))
    decreases Rank(s.f.state)
  {
    hide Inside, Valid, VisitState, Pending, Owed, TraceEnd, Emit, Answer, InitialMark, MarkOp, TraceOp, Rank, Asserts;
    VisitKeeps(s.f, ch);
    VisitNotifies(s.f, ch);
    VisitOwes(s.f, ch);
    MarksOfVisit(s.f, ch);
    NotifiesPaid(s.f, ch);
    var v, mark := VisitState(s.f, ch), InitialMark(s.f.state);
    if !v.next.Fail? {
      var t, m := TraceOp(s.trace, v.op, mark, ch), MarkOp(v.op, mark);
      OpPending(s.trace, v.op, mark, ch);
      EndPending(t, m, ch);
      SameRespond(v, s.trace, mark, ch);
      RespondKeeps(SettingsOf(true), s.f, v, t);
      var (g, next) := Respond(SettingsOf(true), v, t);
      if next.Again? {
        VisitsPaired(Stream(g, t), ch);
      }
    }
  }

  lemma StepPaired(s: Stream, ch: char)
    requires Valid(s.f) && Pending(s.trace) == Owed(s.f.state)
    ensures var r := Step(SettingsOf(true), s, ch);
            && r == Step(SettingsOf(false), s, ch)
            && (r.Ready? ==> Pending(r.s.trace) == Owed(r.s.f.state))
  {
    hide Inside, Valid, Pending, Visits;
    if s.f.errno.OK? && Counted(s.f).nread <= MAX_HEADER_SIZE {
      CountedInside(s.f);
      VisitsPaired(Stream(Counted(s.f), s.trace), ch);
    }
  }

  /**
   Fields and values always agree in number when the headers are complete: a parser whose client does
   not compare them does the same on every text.
   */
  lemma {:induction false} ComparisonNeverFails(s: Stream, x: string)
    requires Valid(s.f) && Pending(s.trace) == Owed(s.f.state)
    ensures Run(SettingsOf(true), s, x) == Run(SettingsOf(false), s, x)
    ensures var r := Run(SettingsOf(true), s, x); r.Ready? ==> Pending(r.s.trace) == Owed(r.s.f.state)
    decreases |x|
  {
    hide Step, Valid, Pending, Owed;
    if x != "" {
      StepPaired(s, x[0]);
      if Step(SettingsOf(true), s, x[0]).Ready? {
        ComparisonNeverFails(Step(SettingsOf(true), s, x[0]).s, x[1..]);
      }
    }
  }

  // ----- The request line -----

  /** The states after the request line and before the end of the message. */
  predicate PastLine(s: State) {
    !IsStartState(s) && !IsResponseLineState(s) && !s.ReqMethod? && !s.ReqSpacesBeforeUrl? && !IsUrlState(s)
      && !IsVersionState(s)
  }

  ghost predicate LineRight(f: Fields, v: Visit) {
    v.next.Fail? || (
      && (PastLine(f.state) ==> LineOf(v.f) == LineOf(f) && (PastLine(v.f.state) || v.op == Notify(OnMessageComplete)))
      && (v.op.Mark? || v.op.MarkCall? || v.op.Call? ==> v.op.kind.OnHeaderField? ==> PastLine(f.state))
      && (v.op == Notify(OnMessageComplete) ==> IsStartState(v.f.state) && !v.next.Again? && PastLine(f.state))
      && (IsStartState(f.state) ==> v == Visit(f, Nop, Break) || (v.op == Notify(OnMessageBegin) && v.next.Break?)))
  }

  lemma LineLineRight(f: Fields, ch: char)
    ensures f.state.ReqSpacesBeforeUrl? || IsUrlState(f.state) ==> LineRight(f, VisitUrl(f, ch))
    ensures IsVersionState(f.state) ==> LineRight(f, VisitVersion(f, ch))
    ensures f.state.ReqMethod? ==> LineRight(f, VisitMethod(f, ch))
  {
    hide ParseUrlChar, SwitchMethod, MethodName, At;
  }

  lemma ResponseLineRight(f: Fields, ch: char)
    ensures IsResponseLineState(f.state) ==> LineRight(f, VisitResponseLine(f, ch))
  {
  }

  lemma HeaderLineRight(f: Fields, ch: char)
    ensures f.state.HeaderFieldStart? ==> LineRight(f, VisitFieldStart(f, ch))
    ensures f.state.HeaderValueStart? || f.state.HeaderValueDiscardWs? ==> LineRight(f, VisitValueStart(f, ch))
    ensures f.state.HeaderField? ==> LineRight(f, VisitField(f, ch))
  {
    hide VisitFieldStart, VisitValueStart, VisitField, LineRight;
    if f.state.HeaderFieldStart? {
      FieldStartLineRight(f, ch);
    } else if f.state.HeaderField? {
      FieldLineRight(f, ch);
    } else if f.state.HeaderValueStart? || f.state.HeaderValueDiscardWs? {
      ValueStartLineRight(f, ch);
    }
  }

  lemma FieldStartLineRight(f: Fields, ch: char)
    requires f.state.HeaderFieldStart?
    ensures LineRight(f, VisitFieldStart(f, ch))
  {
    hide TokenOf;
  }

  lemma FieldLineRight(f: Fields, ch: char)
    requires f.state.HeaderField?
    ensures LineRight(f, VisitField(f, ch))
  {
    hide TokenOf, NextName;
  }

  lemma ValueStartLineRight(f: Fields, ch: char)
    requires f.state.HeaderValueStart? || f.state.HeaderValueDiscardWs?
    ensures LineRight(f, VisitValueStart(f, ch))
  {
    hide Lower;
  }

  lemma BlankLineRight(f: Fields, ch: char)
    requires IsBlankState(f.state)
    ensures LineRight(f, VisitValueBlank(f, ch))
  {
    hide VisitValueStart, FinishedFlags;
    HeaderLineRight(f, ch);
  }

  lemma ValueLineRight(f: Fields, ch: char)
    requires Inside(f) && f.state.HeaderValue?
    ensures LineRight(f, VisitValue(f, ch))
  {
    hide ValueByte, HeaderSound;
    ValueByteKeeps(f, ch);
  }

  lemma StartLineRight(f: Fields, ch: char)
    ensures IsStartState(f.state) ==> LineRight(f, VisitStart(f, ch))
    ensures IsChunkSizeState(f.state) ==> LineRight(f, VisitChunkSize(f, ch))
  {
    hide VisitStart, VisitChunkSize, LineRight;
    if IsStartState(f.state) {
      FirstLineRight(f, ch);
    } else if IsChunkSizeState(f.state) {
      ChunkLineRight(f, ch);
    }
  }

  lemma FirstLineRight(f: Fields, ch: char)
    requires IsStartState(f.state)
    ensures LineRight(f, VisitStart(f, ch))
  {
    hide FirstMethod;
  }

  lemma ChunkLineRight(f: Fields, ch: char)
    requires IsChunkSizeState(f.state)
    ensures LineRight(f, VisitChunkSize(f, ch))
  {
    hide MulAdd64, Unhex;
  }

  lemma EndLineRight(f: Fields, ch: char)
    requires IsHeadersEndState(f.state)
    ensures LineRight(f, VisitHeadersEnd(f, ch))
  {
    hide NewMessage, MessageNeedsEof;
    NewMessagePlain(f);
  }

  lemma BodyLineRight(f: Fields, ch: char)
    requires Asserts(f) && InBody(f.state)
    ensures LineRight(f, VisitBody(f, ch))
  {
    hide NewMessage;
  }

  lemma BodyEndLineRight(f: Fields, ch: char)
    requires f.state.ChunkDataAlmostDone? || f.state.ChunkDataDone? || f.state.MessageDone?
    ensures LineRight(f, VisitBody(f, ch))
  {
    hide NewMessage;
    NewMessagePlain(f);
  }

  lemma VisitLineRight(f: Fields, ch: char)
    requires Inside(f)
    ensures Asserts(f) && LineRight(f, VisitState(f, ch))
  {
    hide LineRight, VisitStart, VisitResponseLine, VisitMethod, VisitUrl, VisitVersion, VisitFieldStart, VisitField,
      VisitValueBlank,
      VisitValueStart, VisitValue, VisitHeadersEnd, VisitBody, VisitChunkSize;
    hide Sound, Kept;
    VisitKeeps(f, ch);
    var s := f.state;
    if s.ReqSpacesBeforeUrl? || IsUrlState(s) || IsVersionState(s) || s.ReqMethod? { LineLineRight(f, ch); }
    else if IsResponseLineState(s) { ResponseLineRight(f, ch); }
    else if IsBlankState(s) { BlankLineRight(f, ch); }
    else if s.HeaderValue? { ValueLineRight(f, ch); }
    else if s.HeaderFieldStart? || s.HeaderValueStart? || s.HeaderField? { HeaderLineRight(f, ch); }
    else if IsStartState(s) || IsChunkSizeState(s) { StartLineRight(f, ch); }
    else if IsHeadersEndState(s) { EndLineRight(f, ch); }
    else if InBody(s) { BodyLineRight(f, ch); }
    else { BodyEndLineRight(f, ch); }
  }

  /** How many messages are complete. */
  function Completions(t: Trace): nat {
    if t == [] then 0 else Completions(t[..|t| - 1]) + if t[|t| - 1] == Note(OnMessageComplete) then 1 else 0
  }

  predicate HasField(t: Trace) {
    t != [] && (HasField(t[..|t| - 1]) || (t[|t| - 1].Data? && t[|t| - 1].kind.OnHeaderField?))
  }

  /** One message is complete, and nothing has begun after it. */
  predicate EndsOnce(t: Trace) {
    Completions(t) == 1 && t[|t| - 1] == Note(OnMessageComplete)
  }

  /** More than one message. */
  predicate Several(t: Trace) {
    Completions(t) > 0 && !EndsOnce(t)
  }

  lemma EmitCounts(t: Trace, e: Event)
    ensures Completions(Emit(t, e)) == Completions(t) + if e == Note(OnMessageComplete) then 1 else 0
    ensures HasField(Emit(t, e)) <==> HasField(t) || (e.Data? && e.kind.OnHeaderField?)
    ensures Emit(t, e) != []
    ensures e.Note? ==> Emit(t, e)[|Emit(t, e)| - 1] == e
    ensures e.Data? ==> Emit(t, e)[|Emit(t, e)| - 1].Data?
  {
    var t' := Emit(t, e);
    if |t'| == |t| {
      assert t'[..|t'| - 1] == t[..|t| - 1];
    } else {
      assert t'[..|t'| - 1] == t;
    }
  }

  /** After a callback: several messages stay several, and a completion is the only way to complete one. */
  lemma EmitPhases(t: Trace, e: Event)
    ensures Several(t) ==> Several(Emit(t, e))
    ensures Completions(t) == 0 && e == Note(OnMessageComplete) ==> EndsOnce(Emit(t, e))
    ensures Completions(t) == 0 && e != Note(OnMessageComplete) ==> Completions(Emit(t, e)) == 0
    ensures EndsOnce(t) ==> Several(Emit(t, e))
  {
    hide Emit;
    EmitCounts(t, e);
  }

  /** Where a parser is with its one message. */
  predicate Phase(s: Stream, mark: Option<Kind>) {
    || Several(s.trace)
    || (EndsOnce(s.trace) && IsStartState(s.f.state) && mark.None?)
    || (Completions(s.trace) == 0 && (HasField(s.trace) || mark == Some(OnHeaderField) ==> PastLine(s.f.state)))
  }

  /** The request line no longer changes. */
  predicate LineFixed(t: Trace) {
    HasField(t) || Completions(t) > 0
  }

  lemma OpPhase(f: Fields, v: Visit, t: Trace, mark: Option<Kind>, ch: char)
    requires Phase(Stream(f, t), mark) && LineRight(f, v) && !v.next.Fail?
    requires v.op.Mark? || v.op.MarkCall? || v.op.TakeBody? || v.op.Notify? ==> mark.None?
    ensures var t', m := TraceOp(t, v.op, mark, ch), MarkOp(v.op, mark);
            && Phase(Stream(v.f, t'), m)
            && (LineFixed(t) && !Several(t') ==> LineOf(v.f) == LineOf(f))
            && (LineFixed(t) ==> LineFixed(t'))
            && (Completions(t) == 0 ==> !Several(t') && (v.op != Notify(OnMessageComplete) ==> Completions(t') == 0))
  {
    hide Emit, Completions, HasField, EndsOnce;
    match v.op
    case Call(k) => EmitPhases(t, Data(k, "")); EmitCounts(t, Data(k, ""));
    case MarkCall(k) => EmitPhases(t, Data(k, "")); EmitCounts(t, Data(k, ""));
    case Notify(n) => EmitPhases(t, Note(n)); EmitCounts(t, Note(n));
    case TakeBody => EmitPhases(t, Data(OnBody, [ch])); EmitCounts(t, Data(OnBody, [ch]));
    case _ =>
  }

  lemma EndPhase(s: Stream, mark: Option<Kind>, ch: char)
    requires Phase(s, mark)
    ensures Phase(Stream(s.f, TraceEnd(s.trace, mark, ch)), None)
    ensures Several(s.trace) ==> Several(TraceEnd(s.trace, mark, ch))
    ensures LineFixed(s.trace) ==> LineFixed(TraceEnd(s.trace, mark, ch))
    ensures !Several(s.trace) ==> !Several(TraceEnd(s.trace, mark, ch))
  {
    hide Emit, Completions, HasField, EndsOnce;
    if mark.Some? {
      EmitPhases(s.trace, Data(mark.value, [ch]));
      EmitCounts(s.trace, Data(mark.value, [ch]));
    }
  }

  lemma SeveralStays(t: Trace, op: Op, mark: Option<Kind>, ch: char)
    requires Several(t)
    ensures Several(TraceOp(t, op, mark, ch))
  {
    hide Emit, Several;
    match op
    case Call(k) => EmitPhases(t, Data(k, ""));
    case MarkCall(k) => EmitPhases(t, Data(k, ""));
    case Notify(n) => EmitPhases(t, Note(n));
    case TakeBody => EmitPhases(t, Data(OnBody, [ch]));
    case _ =>
  }

  lemma {:induction false} VisitsLine(cfg: Settings, s: Stream, ch: char)
    requires Inside(s.f) && s.f.errno.OK? && Phase(s, InitialMark(s.f.state))
    ensures var r := Visits(cfg, s, ch, InitialMark(s.f.state));
            r.Ready? || r.Stopped? ==>
              && Phase(r.s, None)
              && (Several(s.trace) ==> Several(r.s.trace))
              && (LineFixed(s.trace) ==> LineFixed(r.s.trace))
              && (LineFixed(s.trace) && !Several(r.s.trace) ==> LineOf(r.s.f) == LineOf(s.f))
              && (Completions(s.trace) == 0 ==> !Several(r.s.trace))
    decreases Rank(s.f.state)
  {
    hide Inside, Valid, VisitState, TraceEnd, Emit, InitialMark, MarkOp, TraceOp, Rank, Asserts, LineRight, Phase,
      Several, LineFixed, Completions;
    VisitKeeps(s.f, ch);
    VisitNotifies(s.f, ch);
    VisitLineRight(s.f, ch);
    MarksOfVisit(s.f, ch);
    var v, mark := VisitState(s.f, ch), InitialMark(s.f.state);
    if !v.next.Fail? {
      var t, m := TraceOp(s.trace, v.op, mark, ch), MarkOp(v.op, mark);
      OpPhase(s.f, v, s.trace, mark, ch);
      RespondKeeps(cfg, s.f, v, t);
      var (g, next) := Respond(cfg, v, t);
      RespondLine(cfg, v, t, m);
      EndPhase(Stream(g, t), m, ch);
      if Several(s.trace) {
        SeveralStays(s.trace, v.op, mark, ch);
      }
      if next.Again? {
        VisitsLine(cfg, Stream(g, t), ch);
      } else if next.Exit? {
        NoteMark(Stream(g, t), m);
      }
    }
  }

  lemma RespondLine(cfg: Settings, v: Visit, t: Trace, mark: Option<Kind>)
    requires Phase(Stream(v.f, t), mark)
    ensures var (g, next) := Respond(cfg, v, t);
            LineOf(g) == LineOf(v.f) && Phase(Stream(g, t), mark)
  {
    hide Several, EndsOnce, HasField, Completions;
  }

  lemma NoteMark(s: Stream, mark: Option<Kind>)
    requires Phase(s, mark)
    ensures Phase(s, None)
  {
    hide Several, EndsOnce, HasField, Completions;
  }

  lemma StepLine(cfg: Settings, s: Stream, ch: char)
    requires Valid(s.f) && Phase(s, None)
    ensures var r := Step(cfg, s, ch);
            r.Ready? || r.Stopped? ==>
              && Phase(r.s, None)
              && (Several(s.trace) ==> Several(r.s.trace))
              && (LineFixed(s.trace) ==> LineFixed(r.s.trace))
              && (LineFixed(s.trace) && !Several(r.s.trace) ==> LineOf(r.s.f) == LineOf(s.f))
              && (Completions(s.trace) == 0 ==> !Several(r.s.trace))
  {
    hide Inside, Valid, Visits, Several, EndsOnce, HasField, Completions;
    if s.f.errno.OK? && Counted(s.f).nread <= MAX_HEADER_SIZE {
      CountedInside(s.f);
      MarkPast(s.f.state);
      VisitsLine(cfg, Stream(Counted(s.f), s.trace), ch);
    }
  }

  lemma MarkPast(s: State)
    ensures InitialMark(s) == Some(OnHeaderField) ==> PastLine(s)
    ensures IsStartState(s) ==> InitialMark(s).None?
  {
  }

  /** Once a header field has been seen, or the message is complete, the request line stays as it is. */
  lemma {:induction false} LineStays(cfg: Settings, s: Stream, x: string)
    requires Valid(s.f) && Phase(s, None)
    ensures var r := Run(cfg, s, x);
            r.Ready? || r.Stopped? ==>
              && Phase(r.s, None)
              && (Several(s.trace) ==> Several(r.s.trace))
              && (LineFixed(s.trace) ==> LineFixed(r.s.trace))
              && (LineFixed(s.trace) && !Several(r.s.trace) ==> LineOf(r.s.f) == LineOf(s.f))
    decreases |x|
  {
    hide Step, Valid, Several, LineFixed, Phase;
    if x != "" {
      StepLine(cfg, s, x[0]);
      if Step(cfg, s, x[0]).Ready? {
        LineStays(cfg, Step(cfg, s, x[0]).s, x[1..]);
      }
    }
  }

  // ----- The request behind a trace -----

  /** Before the first header field the request does not depend on the request line. */
  lemma {:induction false} LineIrrelevant(l: Line, l': Line, t: Trace, checked: bool)
    requires !HasField(t)
    ensures Fold(NewReq, l, t, checked) == Fold(NewReq, l', t, checked)
  {
    hide HeadersCompleted, MessageCompleted;
    if t != [] {
      LineIrrelevant(l, l', t[..|t| - 1], checked);
    }
  }

  /** So a request read in pieces, each with the line as it was then, is the request of the whole. */
  lemma SameRequest(cfg: Settings, s: Stream, x: string, checked: bool)
    requires Valid(s.f) && Phase(s, None)
    ensures var r := Run(cfg, s, x);
            (r.Ready? || r.Stopped?) && !Several(r.s.trace) ==>
              Fold(NewReq, LineOf(r.s.f), s.trace, checked) == Fold(NewReq, LineOf(s.f), s.trace, checked)
  {
    hide Valid, Run, Phase, Several, Fold;
    LineStays(cfg, s, x);
    var r := Run(cfg, s, x);
    if (r.Ready? || r.Stopped?) && !HasField(s.trace) {
      LineIrrelevant(LineOf(r.s.f), LineOf(s.f), s.trace, checked);
    }
  }

  // ----- Errors of the request -----

  /** A callback that leaves an error in the request also reports one. */
  lemma HandleReports(q: Req, l: Line, e: Event)
    requires q.parseErr == 0
    ensures var (q', ret) := Handle(q, l, e, true);
            && ret <= 0 && (q'.parseErr != 0 ==>
               ret < 0 && (e == Note(OnHeadersComplete) || e == Note(OnMessageComplete)))
            && (q'.parseErr == PARSE_LEN_REQUIRED ==> e == Note(OnHeadersComplete))
  {
    hide MethodName, VersionOf, HeadersOf, IsMultipart, MultipartForm, LoweredFirst;
  }

  /** The request of a stream has no error so far. */
  predicate Clean(f: Fields, t: Trace) {
    Fold(NewReq, LineOf(f), t, true).parseErr == 0
  }

  /** The request of a parser that goes on has no error, and that of one that stops never lacks a length. */
  predicate Excused(f: Fields, t: Trace) {
    && (f.errno.OK? ==> Clean(f, t))
    && Fold(NewReq, LineOf(f), t, true).parseErr != PARSE_LEN_REQUIRED
  }

  lemma CleanLine(f: Fields, g: Fields, t: Trace)
    requires Clean(f, t) && (LineFixed(t) ==> LineOf(g) == LineOf(f))
    ensures Clean(g, t)
  {
    hide Fold;
    if !LineFixed(t) {
      LineIrrelevant(LineOf(f), LineOf(g), t, true);
    }
  }

  /** After a callback that the client takes without complaint. */
  lemma CleanEmit(f: Fields, t: Trace, e: Event)
    requires Clean(f, t)
    ensures e.Data? ==> Clean(f, Emit(t, e))
    ensures e.Note? && e.notice != OnHeadersComplete && e.notice != OnMessageComplete ==> Clean(f, Emit(t, e))
    ensures e == Note(OnMessageComplete) ==> Fold(NewReq, LineOf(f), Emit(t, e), true).parseErr != PARSE_LEN_REQUIRED
    ensures e.Note? ==>
            Answer(LineOf(f), Emit(t, e), true) <= 0
              && (Answer(LineOf(f), Emit(t, e), true) == 0 ==> Clean(f, Emit(t, e)))
  {
    hide Handle, Emit;
    FoldEmit(NewReq, LineOf(f), t, e, true);
    HandleReports(Fold(NewReq, LineOf(f), t, true), LineOf(f), e);
    if e.Note? {
      NoteIsLast(t, e);
    }
  }

  lemma NoteIsLast(t: Trace, e: Event)
    requires e.Note?
    ensures var t' := Emit(t, e); |t'| == |t| + 1 && t'[|t'| - 1] == e && t'[..|t'| - 1] == t
  {
  }

  /** Errors are read off the trace and the request line alone. */
  lemma CleanIgnores(f: Fields)
    ensures forall g: Fields, t: Trace | LineOf(g) == LineOf(f) && Clean(f, t) :: Clean(g, t)
    ensures forall t: Trace | Clean(f, t) :: Fold(NewReq, LineOf(f), t, true).parseErr != PARSE_LEN_REQUIRED
  {
    hide Fold;
  }

  lemma CleanOp(f: Fields, v: Visit, t: Trace, mark: Option<Kind>, ch: char)
    requires Clean(v.f, t) && !v.next.Fail?
    requires v.op == Notify(OnHeadersComplete) ==> v.next.Again?
    requires v.op == Notify(OnMessageComplete) ==> v.next.Break? || v.next.Exit?
    ensures var t' := TraceOp(t, v.op, mark, ch);
            var (g, next) := Respond(SettingsOf(true), v, t');
            && (next.Break? || next.Again? ==> Clean(g, t'))
            && (next.Exit? && (v.f.errno.OK? || !g.errno.OK?) ==> Excused(g, t'))
  {
    hide Answer, Emit, Fold, Clean;
    CleanIgnores(v.f);
    match v.op
    case Call(k) => CleanEmit(v.f, t, Data(k, ""));
    case MarkCall(k) => CleanEmit(v.f, t, Data(k, ""));
    case Notify(n) => CleanEmit(v.f, t, Note(n));
    case TakeBody => CleanEmit(v.f, t, Data(OnBody, [ch]));
    case _ =>
  }

  lemma {:induction false} VisitsClean(s: Stream, ch: char)
    requires Inside(s.f) && s.f.errno.OK? && Phase(s, InitialMark(s.f.state)) && Clean(s.f, s.trace)
    ensures var r := Visits(SettingsOf(true), s, ch, InitialMark(s.f.state));
            (r.Ready? || r.Stopped?) && !Several(r.s.trace) ==> Excused(r.s.f, r.s.trace)
    decreases Rank(s.f.state)
  {
    hide Inside, Valid, VisitState, Emit, InitialMark, MarkOp, TraceOp, Rank, Asserts, LineRight, Phase, Several,
      LineFixed, Clean, Answer, Completions, Fold;
    VisitKeeps(s.f, ch);
    VisitNotifies(s.f, ch);
    VisitLineRight(s.f, ch);
    MarksOfVisit(s.f, ch);
    var v, mark := VisitState(s.f, ch), InitialMark(s.f.state);
    if !v.next.Fail? {
      var t, m := TraceOp(s.trace, v.op, mark, ch), MarkOp(v.op, mark);
      OpPhase(s.f, v, s.trace, mark, ch);
      RespondKeeps(SettingsOf(true), s.f, v, t);
      RespondLine(SettingsOf(true), v, t, m);
      var (g, next) := Respond(SettingsOf(true), v, t);
      EndPhase(Stream(g, t), m, ch);
      if Several(t) {
        if next.Again? {
          VisitsLine(SettingsOf(true), Stream(g, t), ch);
        }
      } else {
        CleanLine(s.f, v.f, s.trace);
        CleanOp(s.f, v, s.trace, mark, ch);
        if next.Again? {
          VisitsClean(Stream(g, t), ch);
        } else if next.Break? && m.Some? {
          CleanEmit(g, t, Data(m.value, [ch]));
          CleanIgnores(g);
        } else {
          CleanIgnores(g);
        }
      }
    }
  }

  lemma StepClean(s: Stream, ch: char)
    requires Valid(s.f) && Phase(s, None) && Excused(s.f, s.trace)
    ensures var r := Step(SettingsOf(true), s, ch);
            (r.Ready? || r.Stopped?) && !Several(r.s.trace) ==> Excused(r.s.f, r.s.trace)
  {
    hide Inside, Valid, Visits, Several, EndsOnce, HasField, Completions, Fold;
    if s.f.errno.OK? && Counted(s.f).nread <= MAX_HEADER_SIZE {
      CountedInside(s.f);
      MarkPast(s.f.state);
      VisitsClean(Stream(Counted(s.f), s.trace), ch);
    }
  }

  /** A parser that goes on has a request without error: every error stops it at once. */
  lemma {:induction false} RunIsClean(s: Stream, x: string)
    requires Valid(s.f) && Phase(s, None) && Excused(s.f, s.trace)
    ensures var r := Run(SettingsOf(true), s, x);
            (r.Ready? || r.Stopped?) && !Several(r.s.trace) ==> Excused(r.s.f, r.s.trace)
    decreases |x|
  {
    hide Step, Valid, Several, Excused, Phase;
    if x != "" {
      StepClean(s, x[0]);
      StepLine(SettingsOf(true), s, x[0]);
      var r := Step(SettingsOf(true), s, x[0]);
      if r.Ready? {
        if Several(r.s.trace) {
          LineStays(SettingsOf(true), r.s, x[1..]);
        } else {
          RunIsClean(r.s, x[1..]);
        }
      }
    }
  }

  // ----- Completions only grow -----

  lemma OpGrows(t: Trace, op: Op, mark: Option<Kind>, ch: char)
    ensures Completions(t) <= Completions(TraceOp(t, op, mark, ch))
    ensures Completions(t) <= Completions(TraceEnd(t, mark, ch))
  {
    hide Emit, Completions;
    match op {
      case Call(k) => EmitCounts(t, Data(k, ""));
      case MarkCall(k) => EmitCounts(t, Data(k, ""));
      case Notify(n) => EmitCounts(t, Note(n));
      case TakeBody => EmitCounts(t, Data(OnBody, [ch]));
      case _ =>
    }
    if mark.Some? {
      EmitCounts(t, Data(mark.value, [ch]));
    }
  }

  lemma {:induction false} VisitsGrow(cfg: Settings, s: Stream, ch: char, mark: Option<Kind>)
    requires Inside(s.f) && s.f.errno.OK?
    ensures var r := Visits(cfg, s, ch, mark);
            r.Ready? || r.Stopped? ==> Completions(s.trace) <= Completions(r.s.trace)
    decreases Rank(s.f.state)
  {
    hide Inside, Valid, VisitState, Emit, Completions, TraceOp, TraceEnd, MarkOp, Rank, Asserts, Kept;
    VisitKeeps(s.f, ch);
    VisitNotifies(s.f, ch);
    var v := VisitState(s.f, ch);
    if !v.next.Fail? {
      assert Kept(s.f, v);
      VisitAnswer(cfg, s, v, ch, mark);
      var t, m := TraceOp(s.trace, v.op, mark, ch), MarkOp(v.op, mark);
      OpGrows(s.trace, v.op, mark, ch);
      OpGrows(t, Nop, m, ch);
      var (g, next) := Respond(cfg, v, t);
      if next.Again? {
        VisitsGrow(cfg, Stream(g, t), ch, m);
      }
    }
  }

  lemma VisitAnswer(cfg: Settings, s: Stream, v: Visit, ch: char, mark: Option<Kind>)
    requires Inside(s.f) && s.f.errno.OK? && Kept(s.f, v) && !v.next.Fail?
    requires v.op == Notify(OnHeadersComplete) ==> v.next.Again?
    requires v.op == Notify(OnMessageComplete) ==> v.next.Break? || v.next.Exit?
    ensures var t := TraceOp(s.trace, v.op, mark, ch);
            var (g, next) := Respond(cfg, v, t);
            next.Again? ==> Inside(g) && g.errno.OK? && Rank(g.state) < Rank(s.f.state)
  {
    hide Inside, Emit;
    RespondKeeps(cfg, s.f, v, TraceOp(s.trace, v.op, mark, ch));
  }

  /** Reading on does not make a completed message incomplete. */
  lemma {:induction false} CompletionsGrow(cfg: Settings, s: Stream, x: string)
    requires Valid(s.f)
    ensures var r := Run(cfg, s, x);
            r.Ready? || r.Stopped? ==> Completions(s.trace) <= Completions(r.s.trace)
    decreases |x|
  {
    hide Valid, Completions, Visits;
    if x != "" {
      if s.f.errno.OK? && Counted(s.f).nread <= MAX_HEADER_SIZE {
        CountedInside(s.f);
        VisitsGrow(cfg, Stream(Counted(s.f), s.trace), x[0], InitialMark(s.f.state));
      }
      if Step(cfg, s, x[0]).Ready? {
        CompletionsGrow(cfg, Step(cfg, s, x[0]).s, x[1..]);
      }
    }
  }
}
