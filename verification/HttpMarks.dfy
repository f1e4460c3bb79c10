/** How marks into a buffer stand for bytes that a data callback has still to deliver. */
module HttpMarks {
  import opened Options
  import opened Traces
  import opened HttpTypes
  import opened HttpVisit
  import opened HttpRun

  /** The mark pointers that are set, with the offsets they point to. */
  type Marks = map<Kind, nat>

  /** The mark that is set, given that there is at most one. */
  ghost function TheMark(m: Marks): Option<Kind> {
    if OnHeaderField in m then Some(OnHeaderField)
    else if OnHeaderValue in m then Some(OnHeaderValue)
    else if OnUrl in m then Some(OnUrl)
    else if OnBody in m then Some(OnBody)
    else if OnStatus in m then Some(OnStatus)
    else None
  }

  ghost predicate OnlyMark(m: Marks, k: Option<Kind>) {
    m.Keys == match k case None => {} case Some(kind) => {kind}
  }

  /** The callbacks made so far together with the bytes up to `p` behind the mark. */
  ghost function Seen(t: Trace, m: Marks, buf: string, p: nat): Trace
    requires p <= |buf|
  {
    var k := TheMark(m);
    if k.Some? && k.value in m && m[k.value] < p then Emit(t, Data(k.value, buf[m[k.value]..p])) else t
  }

  /** Which mark is set in which state; body bytes are pending after a chunk and at the end of the buffer. */
  ghost predicate MarksFit(m: Marks, s: State, p: nat, atEnd: bool) {
    && (forall k <- m :: m[k] <= p)
    && (OnlyMark(m, InitialMark(s))
        || (OnlyMark(m, Some(OnBody)) && m[OnBody] < p && InitialMark(s).None? && (s.ChunkDataAlmostDone? || atEnd)))
  }

  lemma TheOnlyMark(m: Marks, k: Option<Kind>)
    requires OnlyMark(m, k) && k != Some(OnPartData)
    ensures TheMark(m) == k
  {
    match k
    case None =>
      assert m.Keys == {};
    case Some(kind) =>
      assert m.Keys == {kind};
      assert forall other: Kind :: other in m.Keys <==> other == kind;
      assert kind in m;
  }

  /** A visit keeps to the mark of its state. */
  ghost predicate MarksRight(f: Fields, v: Visit) {
    v.next.Fail? || (
      && MarkOp(v.op, InitialMark(f.state)) == InitialMark(v.f.state)
      && (v.op.Mark? || v.op.MarkCall? ==> InitialMark(f.state).None? && v.op.kind != OnPartData && v.op.kind != OnBody)
      && (v.op.Call? ==>
         InitialMark(f.state) == Some(v.op.kind) || (f.state.ChunkDataAlmostDone? && v.op.kind == OnBody))
      && (f.state.ChunkDataAlmostDone? ==> v.op == Call(OnBody))
      && (v.op.Notify? ==> InitialMark(f.state).None?)
      && !v.op.TakeBody? && !v.f.state.ChunkDataAlmostDone?)
  }

  lemma UrlMarks(f: Fields, ch: char)
    requires f.state.ReqSpacesBeforeUrl? || IsUrlState(f.state)
    ensures MarksRight(f, VisitUrl(f, ch))
  {
    hide ParseUrlChar;
  }

  lemma VersionMarks(f: Fields, ch: char)
    requires IsVersionState(f.state)
    ensures MarksRight(f, VisitVersion(f, ch))
  {
  }

  lemma ResponseLineMarks(f: Fields, ch: char)
    requires IsResponseLineState(f.state)
    ensures MarksRight(f, VisitResponseLine(f, ch))
  {
  }

  lemma HeaderMarks(f: Fields, ch: char)
    ensures f.state.HeaderFieldStart? ==> MarksRight(f, VisitFieldStart(f, ch))
    ensures f.state.HeaderValueStart? || f.state.HeaderValueDiscardWs? ==> MarksRight(f, VisitValueStart(f, ch))
  {
    hide TokenOf, Lower;
  }

  lemma BlankMarks(f: Fields, ch: char)
    requires IsBlankState(f.state)
    ensures MarksRight(f, VisitValueBlank(f, ch))
  {
    hide VisitValueStart, FinishedFlags;
    HeaderMarks(f, ch);
  }

  lemma EndMarks(f: Fields, ch: char)
    ensures IsStartState(f.state) || IsHeadersEndState(f.state) || IsChunkSizeState(f.state) || f.state.ReqMethod? ==>
            InitialMark(f.state).None?
    ensures IsStartState(f.state) ==> MarksRight(f, VisitStart(f, ch))
    ensures IsHeadersEndState(f.state) ==> MarksRight(f, VisitHeadersEnd(f, ch))
    ensures IsChunkSizeState(f.state) ==> MarksRight(f, VisitChunkSize(f, ch))
  {
    hide MarksRight, VisitStart, VisitHeadersEnd, VisitChunkSize;
    if IsStartState(f.state) {
      StartMarks(f, ch);
    } else if IsHeadersEndState(f.state) {
      HeadersEndMarks(f, ch);
    } else if IsChunkSizeState(f.state) {
      ChunkSizeMarks(f, ch);
    }
  }

  lemma StartMarks(f: Fields, ch: char)
    requires IsStartState(f.state)
    ensures MarksRight(f, VisitStart(f, ch))
  {
    hide FirstMethod;
  }

  lemma HeadersEndMarks(f: Fields, ch: char)
    requires IsHeadersEndState(f.state)
    ensures MarksRight(f, VisitHeadersEnd(f, ch))
  {
    hide NewMessage;
    NewMessagePlain(f);
  }

  lemma ChunkSizeMarks(f: Fields, ch: char)
    requires IsChunkSizeState(f.state)
    ensures MarksRight(f, VisitChunkSize(f, ch))
  {
    hide MulAdd64, Unhex;
  }

  lemma MethodMarks(f: Fields, ch: char)
    requires f.state.ReqMethod?
    ensures MarksRight(f, VisitMethod(f, ch))
  {
    hide SwitchMethod, MethodName, At;
  }

  lemma NameAndValueMarks(f: Fields, ch: char)
    ensures f.state.HeaderField? ==> MarksRight(f, VisitField(f, ch))
    ensures f.state.HeaderValue? && f.contentLength <= ULLONG_MAX && HeaderSound(f) ==> MarksRight(f, VisitValue(f, ch))
  {
    hide TokenOf, NameByte, ValueByte, HeaderSound;
    if f.state.HeaderValue? && f.contentLength <= ULLONG_MAX && HeaderSound(f) {
      ValueByteKeeps(f, ch);
    }
    NameByteState(f, ch, TokenOf(ch));
  }

  lemma NameByteState(f: Fields, ch: char, c: char)
    ensures NameByte(f, ch, c).state == f.state
  {
  }

  lemma BodyMarks(f: Fields, ch: char)
    requires f.state.ChunkDataAlmostDone? || f.state.ChunkDataDone? || f.state.MessageDone?
    ensures MarksRight(f, VisitBody(f, ch))
  {
    hide NewMessage;
    NewMessagePlain(f);
  }

  lemma VisitMarks(f: Fields, ch: char)
    requires Inside(f) && !InBody(f.state)
    ensures Asserts(f)
    ensures MarksRight(f, VisitState(f, ch))
  {
    hide MarksRight, VisitStart, VisitResponseLine, VisitMethod, VisitUrl, VisitVersion, VisitFieldStart, VisitField,
      VisitValueBlank,
      VisitValueStart, VisitValue, VisitHeadersEnd, VisitBody, VisitChunkSize;
    var s := f.state;
    if s.ReqSpacesBeforeUrl? || IsUrlState(s) { UrlMarks(f, ch); }
    else if IsVersionState(s) { VersionMarks(f, ch); }
    else if IsResponseLineState(s) { ResponseLineMarks(f, ch); }
    else if IsBlankState(s) { BlankMarks(f, ch); }
    else if s.HeaderFieldStart? || s.HeaderValueStart? { HeaderMarks(f, ch); }
    else if IsStartState(s) || IsHeadersEndState(s) || IsChunkSizeState(s) { EndMarks(f, ch); }
    else if s.ReqMethod? { MethodMarks(f, ch); }
    else if s.HeaderField? || s.HeaderValue? { NameAndValueMarks(f, ch); }
    else { BodyMarks(f, ch); }
  }
}
