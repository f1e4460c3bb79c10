/**
 The steps of the loop over a buffer, with marks instead of one callback a byte and with many bytes at
 once, each shown to leave unchanged what reading byte by byte leads to.
 */
module HttpBulk {
  import opened Options
  import opened Traces
  import opened HttpTypes
  import opened HttpVisit
  import opened HttpRun
  import opened HttpMarks

  /** The offsets and lengths of a buffer fit an `int`, as the server's callers give them. */
  const INT_LIMIT: nat := 0x8000_0000

  // ----- Marks in one visit -----

  /** What the operation of a visit does to the marks. */
  function MarksAfter(m: Marks, op: Op, p: nat): Marks {
    match op
    case Mark(k) => if k in m then m else m[k := p]
    case Call(k) => m - {k}
    case _ => m
  }

  /** The callback that the operation of a visit makes at `p`. */
  function CallOf(m: Marks, op: Op, buf: string, p: nat): Option<Event>
    requires p <= |buf| && forall k <- m :: m[k] <= p
  {
    match op
    case Call(k) => if k in m then Some(Data(k, buf[m[k]..p])) else None
    case MarkCall(k) => Some(Data(k, ""))
    case Notify(n) => Some(Note(n))
    case _ => None
  }

  function EmitAny(t: Trace, e: Option<Event>): Trace {
    if e.None? then t else Emit(t, e.value)
  }

  /** Marks and callbacks of a visit agree with those in a one-byte buffer. */
  lemma OpAgrees(t: Trace, m: Marks, f: Fields, v: Visit, buf: string, p: nat)
    requires p < |buf| && MarksFit(m, f.state, p, false) && MarksRight(f, v) && !v.next.Fail?
    ensures var m' := MarksAfter(m, v.op, p);
            && MarksFit(m', v.f.state, p, false) && OnlyMark(m', InitialMark(v.f.state))
            && Seen(EmitAny(t, CallOf(m, v.op, buf, p)), m', buf, p)
               == TraceOp(Seen(t, m, buf, p), v.op, InitialMark(f.state), buf[p])
            && (v.op.Notify? ==> Seen(t, m, buf, p) == t && m' == m == map[])
  {
    hide Emit;
    var k := InitialMark(f.state);
    var m' := MarksAfter(m, v.op, p);
    if OnlyMark(m, k) {
      TheOnlyMark(m, k);
    } else {
      TheOnlyMark(m, Some(OnBody));
    }
    match v.op
    case Mark(kind) =>
      assert m == map[] && m' == map[kind := p];
      TheOnlyMark(m', Some(kind));
    case Call(kind) =>
      assert m'.Keys == {};
      TheOnlyMark(m', None);
      if kind in m {
        PendingEmpty(t, kind, buf, m[kind], p);
      }
    case MarkCall(_) =>
      assert m == map[];
    case Notify(_) =>
      assert m == map[];
    case _ =>
  }

  lemma PendingEmpty(t: Trace, k: Kind, buf: string, mark: nat, p: nat)
    requires mark <= p <= |buf|
    ensures Emit(if mark < p then Emit(t, Data(k, buf[mark..p])) else t, Data(k, "")) == Emit(t, Data(k, buf[mark..p]))
  {
    hide Emit;
    EmitPieces(t, k, buf[mark..p], "");
    assert buf[mark..p] + "" == buf[mark..p];
  }

  lemma PendingByte(t: Trace, k: Kind, buf: string, mark: nat, p: nat)
    requires mark <= p < |buf|
    ensures Emit(if mark < p then Emit(t, Data(k, buf[mark..p])) else t, Data(k, [buf[p]]))
            == Emit(t, Data(k, buf[mark..p + 1]))
  {
    hide Emit;
    EmitPieces(t, k, buf[mark..p], [buf[p]]);
    assert buf[mark..p] + [buf[p]] == buf[mark..p + 1];
    assert mark == p ==> buf[mark..p + 1] == [buf[p]];
  }

  /** Moving on to the next byte: what is pending grows by the byte. */
  lemma SeenNext(t: Trace, m: Marks, k: Option<Kind>, buf: string, p: nat)
    requires p < |buf| && OnlyMark(m, k) && k != Some(OnPartData) && forall kind <- m :: m[kind] <= p
    ensures Seen(t, m, buf, p + 1) == TraceEnd(Seen(t, m, buf, p), k, buf[p])
  {
    hide Emit;
    TheOnlyMark(m, k);
    if k.Some? {
      assert k.value in m;
      PendingByte(t, k.value, buf, m[k.value], p);
    }
  }

  // ----- One visit -----

  /** What is left to do for the byte at `p`, as the byte-by-byte form sees it, and then for the rest. */
  ghost function Rest(cfg: Settings, f: Fields, t: Trace, m: Marks, buf: string, p: nat): Result
    requires Inside(f) && f.errno.OK? && p < |buf|
  {
    Then(cfg, Visits(cfg, Stream(f, Seen(t, m, buf, p)), buf[p], InitialMark(f.state)), buf[p + 1..])
  }

  lemma SameAnswer(cfg: Settings, t: Trace, m: Marks, f: Fields, v: Visit, buf: string, p: nat)
    requires p < |buf| && MarksFit(m, f.state, p, false) && MarksRight(f, v) && !v.next.Fail?
    ensures Respond(cfg, v, EmitAny(t, CallOf(m, v.op, buf, p)))
         == Respond(cfg, v, TraceOp(Seen(t, m, buf, p), v.op, InitialMark(f.state), buf[p]))
  {
    hide Emit;
    OpAgrees(t, m, f, v, buf, p);
  }

  lemma FitsBounds(m: Marks, s: State, p: nat)
    requires MarksFit(m, s, p, false)
    ensures forall k <- m :: m[k] <= p
  {
  }

  lemma FitsNext(m: Marks, s: State, p: nat)
    requires MarksFit(m, s, p, false) && OnlyMark(m, InitialMark(s))
    ensures MarksFit(m, s, p + 1, false) && InitialMark(s) != Some(OnPartData) && forall k <- m :: m[k] <= p
  {
  }

  lemma NothingSeen(t: Trace, m: Marks, buf: string, p: nat)
    requires m == map[] && p <= |buf|
    ensures Seen(t, m, buf, p) == t
  {
  }

  /** A visit leaves the outcome as it is. */
  lemma VisitAgrees(cfg: Settings, f: Fields, t: Trace, m: Marks, buf: string, p: nat)
    requires Inside(f) && f.errno.OK? && p < |buf| && MarksFit(m, f.state, p, false) && !InBody(f.state)
    ensures Asserts(f) && forall k <- m :: m[k] <= p
    ensures var v := VisitState(f, buf[p]);
            if v.next.Fail? then Rest(cfg, f, t, m, buf, p).Failed? else
              var t' := EmitAny(t, CallOf(m, v.op, buf, p));
              var m' := MarksAfter(m, v.op, p);
              var (g, next) := Respond(cfg, v, t');
              && MarksFit(m', g.state, p, false)
              && (next.Fail? ==> Rest(cfg, f, t, m, buf, p).Failed?)
              && (next.Again? ==> Inside(g) && g.errno.OK? && !InBody(g.state) && Rank(g.state) < Rank(f.state)
                                  && Rest(cfg, f, t, m, buf, p) == Rest(cfg, g, t', m', buf, p))
              && (next.Break? ==>
                 Valid(g) && g.errno.OK? && MarksFit(m', g.state, p + 1, false) && (forall k <- m' :: m'[k] <= p)
                                  && Rest(cfg, f, t, m, buf, p) == Run(cfg, Stream(g, Seen(t', m', buf, p + 1)),
                                     buf[p + 1..]))
              && (next.Exit? ==> Valid(g) && Rest(cfg, f, t, m, buf, p) == Stopped(Stream(g, t'), buf[p + 1..]))
  {
    hide Emit, VisitState, Inside, Valid, Seen, Run, MarksAfter, CallOf, InitialMark, Rank, OnlyMark, MarksFit,
      TraceEnd;
    VisitKeeps(f, buf[p]);
    VisitNotifies(f, buf[p]);
    VisitMarks(f, buf[p]);
    FitsBounds(m, f.state, p);
    var v := VisitState(f, buf[p]);
    if !v.next.Fail? {
      var t' := EmitAny(t, CallOf(m, v.op, buf, p));
      var m' := MarksAfter(m, v.op, p);
      OpAgrees(t, m, f, v, buf, p);
      SameAnswer(cfg, t, m, f, v, buf, p);
      RespondKeeps(cfg, f, v, t');
      var (g, next) := Respond(cfg, v, t');
      if next.Break? {
        FitsNext(m', g.state, p);
        SeenNext(t', m', InitialMark(g.state), buf, p);
      } else if next.Exit? {
        assert "" + buf[p + 1..] == buf[p + 1..];
        NothingSeen(t', m', buf, p);
      }
    }
  }

  // ----- Names and values in bulk -----

  /**
   The bytes before `p` have been read; `count` header bytes have been counted. The bulk loops count
   at their end only, so they may be past the limit, where reading byte by byte has failed already.
   */
  ghost predicate Progress(cfg: Settings, result: Result, f: Fields, t: Trace, m: Marks, buf: string, p: nat,
      count: nat)
    requires p <= |buf|
  {
    if count > MAX_HEADER_SIZE then result.Failed? else
      var g := f.(nread := count);
      && Valid(g) && g.errno.OK?
      && result == Run(cfg, Stream(g, Seen(t, m, buf, p)), buf[p..])
  }

  lemma CountedByte(cfg: Settings, f: Fields, t: Trace, m: Marks, buf: string, p: nat)
    requires Valid(f) && f.errno.OK? && p < |buf|
    ensures var run := Run(cfg, Stream(f, Seen(t, m, buf, p)), buf[p..]);
            if Counted(f).nread > MAX_HEADER_SIZE then run.Failed?
            else Inside(Counted(f)) && run == Rest(cfg, Counted(f), t, m, buf, p)
  {
    hide Visits, Seen;
    assert buf[p..][0] == buf[p] && buf[p..][1..] == buf[p + 1..];
  }

  lemma NameByteUncounted(f: Fields, ch: char, c: char, n: nat)
    ensures NameByte(f.(nread := n), ch, c) == NameByte(f, ch, c).(nread := n)
  {
    hide NextName;
  }

  lemma ValueByteUncounted(f: Fields, ch: char, n: nat)
    ensures var (u, v) := (ValueByte(f.(nread := n), ch), ValueByte(f, ch));
            u.next == v.next && u.op == v.op && u.f == v.f.(nread := n)
  {
    hide NextToken, MulAdd64, Lower, IsHeaderChar;
  }

  /** One byte of a header in bulk. */
  lemma HeaderByte(cfg: Settings, result: Result, f: Fields, t: Trace, m: Marks, buf: string, p: nat, count: nat)
    requires p < |buf| && Progress(cfg, result, f, t, m, buf, p, count) && ParsingHeader(f.state)
    ensures count + 1 > MAX_HEADER_SIZE ==> result.Failed?
    ensures count + 1 <= MAX_HEADER_SIZE ==>
      var g := f.(nread := count + 1); Inside(g) && g.errno.OK? && result == Rest(cfg, g, t, m, buf, p)
  {
    hide Run, Rest, Inside, Valid, Seen;
    if count <= MAX_HEADER_SIZE {
      CountedByte(cfg, f.(nread := count), t, m, buf, p);
    }
  }

  lemma NameProgress(cfg: Settings, result: Result, f: Fields, t: Trace, m: Marks, buf: string, p: nat, count: nat)
    requires p < |buf| && Progress(cfg, result, f, t, m, buf, p, count)
    requires f.state.HeaderField? && MarksFit(m, f.state, p, false) && TokenOf(buf[p]) != '\0'
    ensures Progress(cfg, result, NameByte(f, buf[p], TokenOf(buf[p])), t, m, buf, p + 1, count + 1)
    ensures MarksFit(m, f.state, p + 1, false)
  {
    hide Run, Rest, Inside, Valid, Seen, NameByte, TokenOf, InitialMark, VisitValue;
    HeaderByte(cfg, result, f, t, m, buf, p, count);
    HeaderMarkFits(m, f.state, p);
    if count + 1 <= MAX_HEADER_SIZE {
      var g := f.(nread := count + 1);
      VisitAgrees(cfg, g, t, m, buf, p);
      NameByteUncounted(f, buf[p], TokenOf(buf[p]), count + 1);
    }
  }

  lemma HeaderMarkFits(m: Marks, s: State, p: nat)
    requires MarksFit(m, s, p, false) && (s.HeaderField? || s.HeaderValue?)
    ensures MarksFit(m, s, p + 1, false)
    ensures InitialMark(s).Some? && InitialMark(s).value in m && m[InitialMark(s).value] <= p
            && OnlyMark(m, InitialMark(s))
  {
  }

  lemma ValueProgress(cfg: Settings, result: Result, f: Fields, t: Trace, m: Marks, buf: string, p: nat, count: nat)
    requires p < |buf| && Progress(cfg, result, f, t, m, buf, p, count)
    requires f.state.HeaderValue? && MarksFit(m, f.state, p, false) && !IsLineEnd(buf[p])
    ensures var v := ValueByte(f, buf[p]);
            if v.next.Fail? then result.Failed? else Progress(cfg, result, v.f, t, m, buf, p + 1, count + 1)
    ensures MarksFit(m, f.state, p + 1, false)
  {
    hide Run, Rest, Inside, Valid, Seen, ValueByte, InitialMark, VisitField;
    HeaderByte(cfg, result, f, t, m, buf, p, count);
    HeaderMarkFits(m, f.state, p);
    if count + 1 <= MAX_HEADER_SIZE {
      var g := f.(nread := count + 1);
      SoundBounds(g);
      ValueByteKeeps(g, buf[p]);
      VisitAgrees(cfg, g, t, m, buf, p);
      ValueByteUncounted(f, buf[p], count + 1);
    }
  }

  // ----- Bodies in bulk -----

  /** The parser after `n` bytes of a body. */
  function BodyLess(f: Fields, n: nat): Fields
    requires n <= f.contentLength
  {
    f.(contentLength := f.contentLength - n, state :=
      if n < f.contentLength then f.state else if f.state.BodyIdentity? then MessageDone else ChunkDataAlmostDone)
  }

  /** The last byte of a body of known length is looked at once more. */
  ghost function AfterBody(cfg: Settings, f: Fields, t: Trace, last: char, rest: string): Result
    requires Inside(f) && Valid(f) && f.errno.OK?
  {
    if f.state.MessageDone? then Then(cfg, Visits(cfg, Stream(f, t), last, None), rest)
      else Run(cfg, Stream(f, t), rest)
  }

  lemma BodyLessKeeps(f: Fields, n: nat)
    requires Valid(f) && (f.state.BodyIdentity? || f.state.ChunkData?) && n <= f.contentLength
    ensures Valid(BodyLess(f, n)) && Inside(BodyLess(f, n))
  {
    hide HeaderSound;
    BodyMove(f, BodyLess(f, n));
  }

  lemma BodyStep(cfg: Settings, f: Fields, t: Trace, x: string)
    requires Valid(f) && f.errno.OK? && (f.state.BodyIdentity? || f.state.ChunkData?) && x != ""
    ensures var g := BodyLess(f, 1);
            Valid(g) && Inside(g)
            && Run(cfg, Stream(f, t), x) == AfterBody(cfg, g, Emit(t, Data(OnBody, [x[0]])), x[0], x[1..])
  {
    hide Emit, HeaderSound, NewMessage;
    BodyLessKeeps(f, 1);
    BodyVisit(f, x[0]);
  }

  lemma BodyVisit(f: Fields, ch: char)
    requires Asserts(f) && (f.state.BodyIdentity? || f.state.ChunkData?)
    ensures VisitState(f, ch) == if f.state.BodyIdentity?
            && f.contentLength == 1 then Visit(BodyLess(f, 1), TakeBody, Again)
                                 else Visit(BodyLess(f, 1), Mark(OnBody), Break)
  {
  }

  /** `n` bytes of a body at once. */
  lemma {:induction false} BodyRun(cfg: Settings, f: Fields, t: Trace, x: string, n: nat)
    requires Valid(f) && f.errno.OK? && (f.state.BodyIdentity? || f.state.ChunkData?)
    requires 0 < n <= |x| && n <= f.contentLength
    ensures var g := BodyLess(f, n);
            Valid(g) && Inside(g)
            && Run(cfg, Stream(f, t), x) == AfterBody(cfg, g, Emit(t, Data(OnBody, x[..n])), x[n - 1], x[n..])
    decreases n
  {
    hide Emit, Run, Visits, Then, Sound, NewMessage;
    BodyLessKeeps(f, n);
    BodyLessKeeps(f, 1);
    BodyStep(cfg, f, t, x);
    if n == 1 {
      assert x[..1] == [x[0]];
    } else {
      var g := BodyLess(f, 1);
      BodyRun(cfg, g, Emit(t, Data(OnBody, [x[0]])), x[1..], n - 1);
      EmitPieces(t, OnBody, [x[0]], x[1..][..n - 1]);
      assert [x[0]] + x[1..][..n - 1] == x[..n] && x[1..][n - 1..] == x[n..] && x[1..][n - 2] == x[n - 1];
    }
  }

  lemma EofStep(cfg: Settings, f: Fields, t: Trace, ch: char)
    requires Valid(f) && f.errno.OK? && f.state.BodyIdentityEof?
    ensures Step(cfg, Stream(f, t), ch) == Ready(Stream(f, Emit(t, Data(OnBody, [ch]))))
  {
    hide Emit, Step, HeaderSound, VisitState;
    PlainStep(cfg, f, t, ch);
    Dispatch(f, ch);
  }

  lemma {:induction false} BodyRunToEnd(cfg: Settings, f: Fields, t: Trace, x: string)
    requires Valid(f) && f.errno.OK? && f.state.BodyIdentityEof? && x != ""
    ensures Run(cfg, Stream(f, t), x) == Ready(Stream(f, Emit(t, Data(OnBody, x))))
    decreases |x|
  {
    hide Emit, Step;
    var t1 := Emit(t, Data(OnBody, [x[0]]));
    EofStep(cfg, f, t, x[0]);
    if |x| == 1 {
      assert x == [x[0]] && x[1..] == "";
      assert Run(cfg, Stream(f, t1), "") == Ready(Stream(f, t1));
    } else {
      BodyRunToEnd(cfg, f, t1, x[1..]);
      EmitPieces(t, OnBody, [x[0]], x[1..]);
      assert [x[0]] + x[1..] == x;
    }
  }

  /** Reading byte by byte, for a parser in any condition. */
  ghost function Run'(cfg: Settings, s: Stream, x: string): Result
    requires s.f.errno.OK? ==> Valid(s.f)
  {
    if s.f.errno.OK? then Run(cfg, s, x) else Failed
  }

  function AtEnd(cfg: Settings, s: Stream): (nat, Stream) {
    if !s.f.errno.OK? || IsStartState(s.f.state) then (0, s)
    else if s.f.state.BodyIdentityEof? then
      var t := Emit(s.trace, Note(OnMessageComplete));
      (0, Stream(if cfg.messageComplete(LineOf(s.f), t) != 0 then s.f.(errno := CbMessageComplete) else s.f, t))
    else (1, s.(f := s.f.(errno := InvalidEofState)))
  }

  lemma StartOfBuffer(t: Trace, m: Marks, s: State, buf: string)
    requires m == if InitialMark(s).Some? then map[InitialMark(s).value := 0] else map[]
    ensures MarksFit(m, s, 0, false) && Seen(t, m, buf, 0) == t && buf[0..] == buf
  {
  }

  lemma FitsAtEnd(m: Marks, s: State, p: nat)
    ensures MarksFit(m, s, p, false) ==> MarksFit(m, s, p, true)
  {
  }

  /** At most one mark is left at the end. */
  lemma EndOfBuffer(cfg: Settings, f: Fields, m: Marks, buf: string)
    requires MarksFit(m, f.state, |buf|, true) && buf != "" && Valid(f)
    ensures exists k: Option<Kind> :: OnlyMark(m, k) && k != Some(OnPartData)
    ensures forall k <- m :: m[k] <= |buf|
    ensures forall t: Trace :: Run(cfg, Stream(f, t), buf[|buf|..]) == Ready(Stream(f, t))
  {
  }

  lemma BodyMark(m: Marks, s: State, p: nat)
    requires InBody(s) && MarksFit(m, s, p, false)
    ensures m == map[] && forall t: Trace, buf: string | p <= |buf| :: Seen(t, m, buf, p) == t
    ensures MarksFit(map[], MessageDone, p, false)
  {
    hide Emit;
  }

  lemma BodySeen(t: Trace, buf: string, mark: nat, p: nat)
    requires mark < p <= |buf|
    ensures Seen(t, map[OnBody := mark], buf, p) == Emit(t, Data(OnBody, buf[mark..p]))
    ensures forall t': Trace, q: nat | q <= |buf| :: Seen(t', map[], buf, q) == t'
  {
    hide Emit;
    TheOnlyMark(map[OnBody := mark], Some(OnBody));
  }

  lemma BodyBulk(cfg: Settings, f: Fields, t: Trace, buf: string, start: nat, n: nat)
    requires Valid(f) && f.errno.OK? && (f.state.BodyIdentity? || f.state.ChunkData?)
    requires 0 < n && start + n <= |buf| && n <= f.contentLength && (n == f.contentLength || start + n == |buf|)
    ensures var g, p, m, t' := BodyLess(f, n), start + n, map[OnBody := start],
            Emit(t, Data(OnBody, buf[start..start + n]));
            && Valid(g) && Inside(g) && g.errno.OK?
            && (if g.state.MessageDone? then
                  MarksFit(map[], g.state, p - 1, false)
                    && Run(cfg, Stream(f, t), buf[start..]) == Rest(cfg, g, t', map[], buf, p - 1)
                else
                  MarksFit(m, g.state, p, p == |buf|)
                    && Run(cfg, Stream(f, t), buf[start..]) == Run(cfg, Stream(g, Seen(t, m, buf, p)), buf[p..]))
  {
    hide Emit, Run, Visits, Sound, Seen;
    BodyRun(cfg, f, t, buf[start..], n);
    assert buf[start..][..n] == buf[start..start + n] && buf[start..][n..] == buf[start + n..];
    BodySeen(t, buf, start, start + n);
  }

  lemma BodyBulkToEnd(cfg: Settings, f: Fields, t: Trace, buf: string, start: nat)
    requires Valid(f) && f.errno.OK? && f.state.BodyIdentityEof? && start < |buf|
    ensures var m := map[OnBody := start];
            && MarksFit(m, f.state, |buf|, true)
            && Run(cfg, Stream(f, t), buf[start..]) == Run(cfg, Stream(f, Seen(t, m, buf, |buf|)), buf[|buf|..])
  {
    hide Emit, Visits, Sound, Seen, Step;
    BodyRunToEnd(cfg, f, t, buf[start..]);
    assert buf[start..|buf|] == buf[start..];
    BodySeen(t, buf, start, |buf|);
  }

  lemma BodyNotEmpty(f: Fields)
    requires Valid(f) && InBody(f.state) && !f.state.BodyIdentityEof?
    ensures f.contentLength > 0
  {
  }

  /** The end of a line after a value delivers the value; LF is looked at once more. */
  lemma ValueEnds(cfg: Settings, result: Result, f: Fields, t: Trace, m: Marks, buf: string, p: nat, count: nat)
    requires p < |buf| && Progress(cfg, result, f, t, m, buf, p, count)
    requires f.state.HeaderValue? && MarksFit(m, f.state, p, false) && IsLineEnd(buf[p])
    ensures OnHeaderValue in m && m[OnHeaderValue] <= p
    ensures count + 1 > MAX_HEADER_SIZE ==> result.Failed?
    ensures count + 1 <= MAX_HEADER_SIZE ==>
      var g := f.(nread := count + 1, state := HeaderAlmostDone);
      var m' := m - {OnHeaderValue};
      var t' := Emit(t, Data(OnHeaderValue, buf[m[OnHeaderValue]..p]));
      && Valid(g) && Inside(g) && MarksFit(m', g.state, p, false) && MarksFit(m', g.state, p + 1, false)
      && result == if buf[p] == '\r' then Run(cfg, Stream(g, Seen(t', m', buf, p + 1)), buf[p + 1..])
                   else Rest(cfg, g, t', m', buf, p)
  {
    hide Run, Rest, Seen, InitialMark, VisitField, ValueByte, Emit, HeaderSound;
    HeaderByte(cfg, result, f, t, m, buf, p, count);
    HeaderMarkFits(m, f.state, p);
    NameMark(f.state);
    NameMark(HeaderAlmostDone);
    if count + 1 <= MAX_HEADER_SIZE {
      VisitAgrees(cfg, f.(nread := count + 1), t, m, buf, p);
    }
  }

  /** A bulk loop starts with its first byte counted. */
  lemma StartOfBulk(cfg: Settings, f: Fields, t: Trace, m: Marks, buf: string, p: nat)
    requires p < |buf| && Inside(f) && f.errno.OK? && f.nread > 0 && (f.state.HeaderField? || f.state.HeaderValue?)
    ensures Progress(cfg, Rest(cfg, f, t, m, buf, p), f, t, m, buf, p, f.nread - 1)
  {
    hide Rest, Seen, Run;
    var g := f.(nread := f.nread - 1);
    assert Counted(g) == f;
    CountedByte(cfg, g, t, m, buf, p);
  }

  /** It ends by counting what it has read. */
  lemma ProgressMade(cfg: Settings, result: Result, f: Fields, t: Trace, m: Marks, buf: string, p: nat, count: nat)
    requires p <= |buf| && Progress(cfg, result, f, t, m, buf, p, count)
    ensures count > MAX_HEADER_SIZE ==> result.Failed?
    ensures count <= MAX_HEADER_SIZE ==>
      var g := f.(nread := count);
          Valid(g) && g.errno.OK? && result == Run(cfg, Stream(g, Seen(t, m, buf, p)), buf[p..])
  {
  }

  lemma PastLimit(cfg: Settings, result: Result, f: Fields, t: Trace, m: Marks, buf: string, p: nat, count: nat)
    requires p <= |buf| && count > MAX_HEADER_SIZE && result.Failed?
    ensures Progress(cfg, result, f, t, m, buf, p, count)
  {
  }

  lemma ValueByteStays(f: Fields, ch: char)
    ensures var v := ValueByte(f, ch);
            v.f.state == f.state && v.f.nread == f.nread && v.f.errno == f.errno
            && (v.next.Fail? ==> v.f == f) && !v.next.Again? && !v.next.Exit?
    ensures !IsHeaderChar(ch) ==> ValueByte(f, ch).next.Fail?
  {
  }

  lemma GeneralValueStays(f: Fields, ch: char)
    requires f.headerState.General?
    ensures ValueByte(f, ch) == if IsHeaderChar(ch) then Visit(f, Nop, Break) else Bad(f, InvalidHeaderToken)
  {
    hide Lower, IsHeaderChar;
  }

  lemma GeneralStays(f: Fields, ch: char)
    requires f.headerState.General?
    ensures NameByte(f, ch, TokenOf(ch)) == f
  {
  }

  /** The byte after a name: a colon delivers the name, any other is an error. */
  lemma NameEnds(cfg: Settings, result: Result, f: Fields, t: Trace, m: Marks, buf: string, p: nat, count: nat)
    requires p < |buf| && Progress(cfg, result, f, t, m, buf, p, count)
    requires f.state.HeaderField? && MarksFit(m, f.state, p, false) && TokenOf(buf[p]) == '\0'
    ensures OnHeaderField in m && m[OnHeaderField] <= p
    ensures count + 1 > MAX_HEADER_SIZE || buf[p] != ':' ==> result.Failed?
    ensures count + 1 <= MAX_HEADER_SIZE && buf[p] == ':' ==>
      var g := f.(nread := count + 1, state := HeaderValueDiscardWs);
      var m' := m - {OnHeaderField};
      && Valid(g) && MarksFit(m', g.state, p + 1, false)
      && result == Run(cfg, Stream(g, Seen(Emit(t, Data(OnHeaderField, buf[m[OnHeaderField]..p])), m', buf, p + 1)),
         buf[p + 1..])
  {
    hide Run, Rest, Inside, Valid, Seen, TokenOf, InitialMark, VisitValue, Emit;
    HeaderByte(cfg, result, f, t, m, buf, p, count);
    HeaderMarkFits(m, f.state, p);
    NameMark(f.state);
    if count + 1 <= MAX_HEADER_SIZE {
      VisitAgrees(cfg, f.(nread := count + 1), t, m, buf, p);
    }
  }

  lemma NameMark(s: State)
    ensures s.HeaderField? ==> InitialMark(s) == Some(OnHeaderField)
    ensures s.HeaderValue? ==> InitialMark(s) == Some(OnHeaderValue)
    ensures s.HeaderAlmostDone? || s.HeaderValueDiscardWs? ==> InitialMark(s) == None
  {
  }
}
