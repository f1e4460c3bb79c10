/**
 `http_parser_execute`: the loop over a buffer with its marks, its bulk loops over names, values and
 bodies, and its second looks at a byte, proved to do what reading byte by byte does.
 */
module HttpParser {
  import opened Options
  import opened Traces
  import opened HttpTypes
  import opened HttpVisit
  import opened HttpRun
  import opened HttpMarks
  import opened HttpBulk

  ghost predicate IsSliceOf(x: string, buf: string) {
    exists i, j | 0 <= i <= j <= |buf| :: x == buf[i..j]
  }

  /** The log has grown, by notices and by data that are slices of the buffer. */
  ghost predicate Delivers(before: Trace, after: Trace, buf: string) {
    before <= after && forall e <- after[|before|..] | e.Data? :: IsSliceOf(e.bytes, buf)
  }

  lemma NothingDelivered(log: Trace, buf: string)
    ensures Delivers(log, log, buf)
  {
  }

  lemma OneDelivered(before: Trace, log: Trace, e: Event, buf: string)
    requires Delivers(before, log, buf) && (e.Data? ==> IsSliceOf(e.bytes, buf))
    ensures Delivers(before, log + [e], buf)
  {
    hide IsSliceOf;
    assert (log + [e])[|before|..] == log[|before|..] + [e];
  }

  lemma DeliveredOn(a: Trace, b: Trace, c: Trace, buf: string)
    requires Delivers(a, b, buf) && Delivers(b, c, buf)
    ensures Delivers(a, c, buf)
  {
    hide IsSliceOf;
    assert c[|a|..] == b[|a|..] + c[|b|..];
  }

  lemma DeliveredBehind(before: Trace, after: Trace, buf: string)
    requires Delivers(before, after, buf)
    ensures before <= after
  {
  }

  lemma SliceIsSlice(buf: string, i: nat, j: nat)
    requires i <= j <= |buf|
    ensures IsSliceOf(buf[i..j], buf)
  {
  }

  lemma CallIsSlice(marks: Marks, op: Op, buf: string, p: nat)
    requires p <= |buf| && forall k <- marks :: marks[k] <= p
    ensures match CallOf(marks, op, buf, p)
            case Some(Data(_, x)) => IsSliceOf(x, buf)
            case _ => true
  {
    if op.Call? && op.kind in marks {
      SliceIsSlice(buf, marks[op.kind], p);
    }
    SliceIsSlice(buf, p, p);
    assert buf[p..p] == "";
  }

  class Parser {
    const settings: Settings
    var fields: Fields
    /** The callbacks made so far, as they were made. */
    var log: Trace

    constructor (t: ParserType, cfg: Settings)
      ensures settings == cfg && fields == InitFields(t) && log == [] && Usable()
    {
      settings := cfg;
      fields := InitFields(t);
      log := [];
    }

    /** A parser that has failed is not used further, whatever its fields are. */
    ghost predicate Usable()
      reads this
    {
      fields.errno.OK? ==> Valid(fields)
    }

    ghost function Trace(): Trace
      reads this
    {
      Merge([], log)
    }

    ghost function After(): Stream
      reads this
    {
      Stream(fields, Trace())
    }

    method Callback(e: Event, ghost before: Trace, ghost buf: string)
      requires Delivers(before, log, buf) && (e.Data? ==> IsSliceOf(e.bytes, buf))
      modifies this`log
      ensures Trace() == Emit(old(Trace()), e) && Delivers(before, log, buf)
    {
      MergeOne([], log, e);
      OneDelivered(before, log, e, buf);
      log := log + [e];
    }

    /** COUNT_HEADER_SIZE, in the arithmetic of `uint32_t`. */
    method CountHeaderSize(v: nat) returns (ok: bool)
      requires v < INT_LIMIT && fields.nread <= MAX_HEADER_SIZE
      modifies this`fields
      ensures fields == old(fields).(nread := old(fields).nread + v)
      ensures ok == (fields.nread <= MAX_HEADER_SIZE)
    {
      fields := fields.(nread := (fields.nread + v % 0x1_0000_0000) % 0x1_0000_0000);
      ok := fields.nread <= MAX_HEADER_SIZE;
    }

    /** The loop over the bytes of a header name. */
    method ReadName(buf: string, start: nat, marks: Marks, ghost result: Result)
        returns (next: Next, p: nat, marks': Marks)
      requires start < |buf| < INT_LIMIT && fields.state.HeaderField? && fields.nread > 0
      requires Inside(fields) && fields.errno.OK? && MarksFit(marks, fields.state, start, false)
      requires result == Rest(settings, fields, Trace(), marks, buf, start)
      modifies this
      ensures Delivers(old(log), log, buf)
      ensures start <= p < |buf| && (next.Break? || next.Fail?)
      ensures next.Break? ==> forall k <- marks' :: marks'[k] <= p
      ensures next.Break? ==> Valid(fields) && fields.errno.OK? && MarksFit(marks', fields.state, p + 1, false)
      ensures next.Break? ==> result == Run(settings, Stream(fields, Seen(Trace(), marks', buf, p + 1)), buf[p + 1..])
      ensures next.Fail? ==> result.Failed?
    {
      hide Emit, Merge, Run, Rest, Delivers, IsSliceOf, Inside, Valid, Seen, NextName, TokenOf, MarksFit, Visits,
        Progress;
      NothingDelivered(log, buf);
      SoundBounds(fields);
      FitsBounds(marks, fields.state, start);
      p, marks' := start, marks;
      ghost var counted := fields.nread - 1;
      StartOfBulk(settings, fields, Trace(), marks, buf, start);
      while p < |buf|
        invariant start <= p <= |buf| && log == old(log) && MarksFit(marks, fields.state, p, false)
        invariant fields == old(fields).(index := fields.index, headerState := fields.headerState)
        invariant Progress(settings, result, fields, Trace(), marks, buf, p, counted + p - start)
      {
        var c := TokenOf(buf[p]);
        if c == '\0' {
          break;
        }
        if fields.headerState.General? {
          var pe := p + (if |buf| - p < MAX_HEADER_SIZE then |buf| - p else MAX_HEADER_SIZE);
          ghost var here := fields;
          while p + 1 < pe && TokenOf(buf[p + 1]) != '\0'
            invariant fields == here && log == old(log)
            invariant start <= p < pe <= |buf| && TokenOf(buf[p]) != '\0' && MarksFit(marks, fields.state, p, false)
            invariant Progress(settings, result, fields, Trace(), marks, buf, p, counted + p - start)
          {
            NameProgress(settings, result, fields, Trace(), marks, buf, p, counted + p - start);
            GeneralStays(fields, buf[p]);
            p := p + 1;
          }
          GeneralStays(fields, buf[p]);
        }
        NameProgress(settings, result, fields, Trace(), marks, buf, p, counted + p - start);
        fields := NameByte(fields, buf[p], TokenOf(buf[p]));
        p := p + 1;
      }
      if p == |buf| {
        ProgressMade(settings, result, fields, Trace(), marks, buf, p, counted + p - start);
        p := p - 1;
        var ok := CountHeaderSize(p - start);
        return if ok then Break else Fail(HeaderOverflow), p, marks;
      }
      NameEnds(settings, result, fields, Trace(), marks, buf, p, counted + p - start);
      var ok := CountHeaderSize(p - start);
      if !ok {
        return Fail(HeaderOverflow), p, marks;
      }
      if buf[p] != ':' {
        return Fail(InvalidHeaderToken), p, marks;
      }
      fields := fields.(state := HeaderValueDiscardWs);
      SliceIsSlice(buf, marks[OnHeaderField], p);
      Callback(Data(OnHeaderField, buf[marks[OnHeaderField]..p]), old(log), buf);
      return Break, p, marks - {OnHeaderField};
    }

    /** The loop over the bytes of a header value. `next` is `Again` for LF, which is looked at once more. */
    method ReadValue(buf: string, start: nat, marks: Marks, ghost result: Result)
        returns (next: Next, p: nat, marks': Marks)
      requires start < |buf| < INT_LIMIT && fields.state.HeaderValue? && fields.nread > 0
      requires Inside(fields) && fields.errno.OK? && MarksFit(marks, fields.state, start, false)
      requires result == Rest(settings, fields, Trace(), marks, buf, start)
      modifies this
      ensures Delivers(old(log), log, buf)
      ensures start <= p < |buf| && !next.Exit?
      ensures next.Break? ==> forall k <- marks' :: marks'[k] <= p
      ensures !next.Fail? ==> fields.errno.OK?
      ensures next.Break? ==> Valid(fields) && MarksFit(marks', fields.state, p + 1, false)
      ensures next.Break? ==> result == Run(settings, Stream(fields, Seen(Trace(), marks', buf, p + 1)), buf[p + 1..])
      ensures next.Again? ==>
              Inside(fields) && fields.state.HeaderAlmostDone? && MarksFit(marks', fields.state, p, false)
      ensures next.Again? ==> result == Rest(settings, fields, Trace(), marks', buf, p)
      ensures next.Fail? ==> result.Failed?
    {
      hide Emit, Merge, Run, Rest, Delivers, IsSliceOf, Inside, Valid, Seen, NextToken, MulAdd64, MarksFit, Visits,
        Progress, ValueByte, IsHeaderChar;
      NothingDelivered(log, buf);
      SoundBounds(fields);
      FitsBounds(marks, fields.state, start);
      p, marks', next := start, marks, Break;
      ghost var counted := fields.nread - 1;
      StartOfBulk(settings, fields, Trace(), marks, buf, start);
      while p < |buf|
        invariant start <= p <= |buf| && log == old(log) && MarksFit(marks, fields.state, p, false)
        invariant fields.state.HeaderValue? && fields.nread == counted + 1 && fields.errno.OK?
        invariant Progress(settings, result, fields, Trace(), marks, buf, p, counted + p - start)
      {
        var ch := buf[p];
        if IsLineEnd(ch) {
          ValueEnds(settings, result, fields, Trace(), marks, buf, p, counted + p - start);
        }
        if ch == '\r' {
          fields := fields.(state := HeaderAlmostDone);
          SliceIsSlice(buf, marks[OnHeaderValue], p);
          Callback(Data(OnHeaderValue, buf[marks[OnHeaderValue]..p]), old(log), buf);
          var ok := CountHeaderSize(p - start);
          return if ok then Break else Fail(HeaderOverflow), p, marks - {OnHeaderValue};
        }
        if ch == '\n' {
          fields := fields.(state := HeaderAlmostDone);
          var ok := CountHeaderSize(p - start);
          if !ok {
            return Fail(HeaderOverflow), p, marks;
          }
          SliceIsSlice(buf, marks[OnHeaderValue], p);
          Callback(Data(OnHeaderValue, buf[marks[OnHeaderValue]..p]), old(log), buf);
          return Again, p, marks - {OnHeaderValue};
        }
        if !IsHeaderChar(ch) {
          ValueByteStays(fields, ch);
          ValueProgress(settings, result, fields, Trace(), marks, buf, p, counted + p - start);
          return Fail(InvalidHeaderToken), p, marks;
        }
        if fields.headerState.General? {
          var pe := p + (if |buf| - p < MAX_HEADER_SIZE then |buf| - p else MAX_HEADER_SIZE);
          ghost var here := fields;
          ghost var p0 := p;
          while p != pe
            invariant p0 <= p <= pe && fields == here && log == old(log) && MarksFit(marks, fields.state, p, false)
            invariant p == p0 ==> !IsLineEnd(buf[p])
            invariant Progress(settings, result, fields, Trace(), marks, buf, p, counted + p - start)
            decreases pe - p
          {
            if IsLineEnd(buf[p]) {
              break;
            }
            ValueProgress(settings, result, fields, Trace(), marks, buf, p, counted + p - start);
            GeneralValueStays(fields, buf[p]);
            if !IsHeaderChar(buf[p]) {
              return Fail(InvalidHeaderToken), p, marks;
            }
            p := p + 1;
          }
          if p == pe < |buf| {
            // the byte at `pe` is passed over unread; by then the header is too long
            HeaderByte(settings, result, fields, Trace(), marks, buf, p, counted + p - start);
            HeaderMarkFits(marks, fields.state, p);
            PastLimit(settings, result, fields, Trace(), marks, buf, p + 1, counted + p + 1 - start);
            p := p + 1;
          }
        } else {
          ValueProgress(settings, result, fields, Trace(), marks, buf, p, counted + p - start);
          var v := ValueByte(fields, ch);
          ValueByteStays(fields, ch);
          if v.next.Fail? {
            return v.next, p, marks;
          }
          fields := v.f;
          p := p + 1;
        }
      }
      ProgressMade(settings, result, fields, Trace(), marks, buf, p, counted + p - start);
      p := p - 1;
      var ok := CountHeaderSize(p - start);
      return if ok then Break else Fail(HeaderOverflow), p, marks;
    }

    /** As much of a body as the buffer holds. `next` is `Again` at the last byte of a body of known length. */
    method ReadBody(buf: string, start: nat, marks: Marks, ghost result: Result)
        returns (next: Next, p: nat, marks': Marks)
      requires start < |buf| && InBody(fields.state) && Valid(fields) && fields.errno.OK?
               && MarksFit(marks, fields.state, start, false)
      requires result == Run(settings, Stream(fields, Seen(Trace(), marks, buf, start)), buf[start..])
      modifies this
      ensures Delivers(old(log), log, buf)
      ensures start <= p < |buf| && fields.errno.OK? && (next.Break? || next.Again?)
      ensures next.Break? ==> forall k <- marks' :: marks'[k] <= p
      ensures next.Break? ==> Valid(fields) && MarksFit(marks', fields.state, p + 1, p + 1 == |buf|)
      ensures next.Break? ==> result == Run(settings, Stream(fields, Seen(Trace(), marks', buf, p + 1)), buf[p + 1..])
      ensures next.Again? ==> Inside(fields) && fields.state.MessageDone? && MarksFit(marks', fields.state, p, false)
      ensures next.Again? ==> result == Rest(settings, fields, Trace(), marks', buf, p)
    {
      hide Emit, Merge, Run, Rest, Delivers, IsSliceOf, Inside, Valid, Seen, MarksFit, BodyLess;
      NothingDelivered(log, buf);
      BodyMark(marks, fields.state, start);
      marks' := map[OnBody := start];
      if fields.state.BodyIdentityEof? {
        p := |buf| - 1;
        BodyBulkToEnd(settings, fields, Trace(), buf, start);
        return Break, p, marks';
      }
      BodyNotEmpty(fields);
      var toRead := if fields.contentLength < |buf| - start then fields.contentLength else |buf| - start;
      BodyBulk(settings, fields, Trace(), buf, start, toRead);
      fields := BodyLess(fields, toRead);
      p := start + toRead - 1;
      if fields.state.MessageDone? {
        SliceIsSlice(buf, start, p + 1);
        Callback(Data(OnBody, buf[start..p + 1]), old(log), buf);
        return Again, p, map[];
      }
      return Break, p, marks';
    }

    /** Visits to states until one of them moves on. */
    method Look(buf: string, p: nat, marks: Marks, ghost result: Result) returns (next: Next, marks': Marks)
      requires p < |buf| && Inside(fields) && fields.errno.OK? && !InBody(fields.state)
               && MarksFit(marks, fields.state, p, false)
      requires result == Rest(settings, fields, Trace(), marks, buf, p)
      modifies this
      ensures Delivers(old(log), log, buf) && !next.Again?
      ensures next.Break? ==> forall k <- marks' :: marks'[k] <= p
      ensures next.Break? ==> Valid(fields) && fields.errno.OK? && MarksFit(marks', fields.state, p + 1, false)
      ensures next.Break? ==> result == Run(settings, Stream(fields, Seen(Trace(), marks', buf, p + 1)), buf[p + 1..])
      ensures next.Exit? ==> Valid(fields) && result == Stopped(After(), buf[p + 1..])
      ensures next.Fail? ==> result.Failed?
    {
      hide Emit, Merge, Run, Rest, Delivers, IsSliceOf, Inside, Valid, Seen, MarksFit, VisitState, Respond, MarksAfter,
        CallOf, Rank;
      NothingDelivered(log, buf);
      next, marks' := Again, marks;
      while next.Again?
        invariant Delivers(old(log), log, buf)
        invariant next.Again? ==>
                  Inside(fields) && fields.errno.OK? && !InBody(fields.state)
                    && MarksFit(marks', fields.state, p, false)
        invariant next.Again? ==> result == Rest(settings, fields, Trace(), marks', buf, p)
        invariant next.Break? ==> Valid(fields) && fields.errno.OK? && MarksFit(marks', fields.state, p + 1, false)
        invariant next.Break? ==>
                  result == Run(settings, Stream(fields, Seen(Trace(), marks', buf, p + 1)), buf[p + 1..])
        invariant next.Break? ==> forall k <- marks' :: marks'[k] <= p
        invariant next.Exit? ==> Valid(fields) && result == Stopped(After(), buf[p + 1..])
        invariant next.Fail? ==> result.Failed?
        decreases next.Again?, Rank(fields.state)
      {
        VisitAgrees(settings, fields, Trace(), marks', buf, p);
        var v := VisitState(fields, buf[p]);
        if v.next.Fail? {
          return v.next, marks';
        }
        var e := CallOf(marks', v.op, buf, p);
        CallIsSlice(marks', v.op, buf, p);
        marks' := MarksAfter(marks', v.op, p);
        if e.Some? {
          Callback(e.value, old(log), buf);
        }
        var (g, n) := Respond(settings, v, Merge([], log));
        fields, next := g, n;
      }
    }

    /** Fails with `e`, at byte `p`. */
    method Error(e: Errno)
      requires !e.OK?
      modifies this`fields
      ensures !fields.errno.OK?
    {
      fields := fields.(errno := e);
    }

    /** Delivers the bytes behind the mark that is left at the end of a buffer. */
    method FlushMarks(buf: string, marks: Marks)
      requires forall k <- marks :: marks[k] <= |buf|
      requires exists k: Option<Kind> :: OnlyMark(marks, k) && k != Some(OnPartData)
      requires forall k <- marks :: marks[k] < |buf|
      modifies this`log
      ensures Trace() == old(Seen(Trace(), marks, buf, |buf|)) && Delivers(old(log), log, buf)
    {
      hide Emit, Merge, Delivers, IsSliceOf;
      NothingDelivered(log, buf);
      ghost var k: Option<Kind> :| OnlyMark(marks, k) && k != Some(OnPartData);
      TheOnlyMark(marks, k);
      assert |marks.Keys| <= 1;
      var kinds := [OnHeaderField, OnHeaderValue, OnUrl, OnBody, OnStatus];
      for i := 0 to 5
        invariant Delivers(old(log), log, buf)
        invariant Trace() == if k.Some? && k.value in kinds[..i] then old(Seen(Trace(), marks, buf, |buf|))
                  else old(Trace())
      {
        assert kinds[..i + 1] == kinds[..i] + [kinds[i]];
        assert kinds[i] in marks.Keys <==> k == Some(kinds[i]);
        if kinds[i] in marks {
          assert buf[marks[kinds[i]]..] == buf[marks[kinds[i]]..|buf|];
          SliceIsSlice(buf, marks[kinds[i]], |buf|);
          Callback(Data(kinds[i], buf[marks[kinds[i]]..]), old(log), buf);
        }
      }
      assert kinds[..5] == kinds && (k.Some? ==> k.value in kinds);
    }

    /** What an empty buffer, which means the end of the input, does. */
    method ExecuteEnd() returns (n: nat)
      requires Usable()
      modifies this
      ensures Usable() && (n, After()) == AtEnd(settings, old(After()))
      ensures n == if old(fields).errno.OK? && old(fields).state !in {Dead, StartReq, StartRes, BodyIdentityEof} then 1
                   else 0
      ensures n == 1 ==> fields == old(fields).(errno := InvalidEofState) && log == old(log)
      ensures n == 0 && !old(fields).state.BodyIdentityEof? ==> fields == old(fields) && log == old(log)
      ensures old(fields).errno.OK? && old(fields).state.BodyIdentityEof? ==>
                Merge([], log) == Emit(Merge([], old(log)), Note(OnMessageComplete))
    {
      if !fields.errno.OK? {
        return 0;
      }
      if fields.state.BodyIdentityEof? {
        NothingDelivered(log, "");
        Callback(Note(OnMessageComplete), log, "");
        if settings.messageComplete(LineOf(fields), Merge([], log)) != 0 {
          fields := fields.(errno := CbMessageComplete);
        }
        return 0;
      }
      if IsStartState(fields.state) {
        return 0;
      }
      fields := fields.(errno := InvalidEofState);
      return 1;
    }

    /** One round of the loop: counts the byte at `start`, then takes it and the bytes taken with it in bulk. */
    method ReadByte(buf: string, start: nat, marks: Marks, ghost result: Result)
        returns (next: Next, p: nat, marks': Marks)
      requires start < |buf| < INT_LIMIT && Valid(fields) && fields.errno.OK?
               && MarksFit(marks, fields.state, start, false)
      requires result == Run(settings, Stream(fields, Seen(Trace(), marks, buf, start)), buf[start..])
      modifies this
      ensures Delivers(old(log), log, buf)
      ensures start <= p < |buf| && !next.Again?
      ensures next.Break? ==> forall k <- marks' :: marks'[k] <= p
      ensures next.Break? ==> Valid(fields) && fields.errno.OK? && MarksFit(marks', fields.state, p + 1, p + 1 == |buf|)
      ensures next.Break? ==> result == Run(settings, Stream(fields, Seen(Trace(), marks', buf, p + 1)), buf[p + 1..])
      ensures next.Exit? ==> Valid(fields) && result == Stopped(After(), buf[p + 1..])
      ensures next.Fail? ==> result.Failed?
    {
      hide Emit, Merge, Run, Rest, Delivers, IsSliceOf, Inside, Valid, Seen, MarksFit;
      NothingDelivered(log, buf);
      CountedByte(settings, fields, Trace(), marks, buf, start);
      SoundBounds(fields);
      next, p, marks' := Again, start, marks;
      if ParsingHeader(fields.state) {
        var ok := CountHeaderSize(1);
        if !ok {
          return Fail(HeaderOverflow), p, marks;
        }
      }
      if fields.state.HeaderField? {
        next, p, marks' := ReadName(buf, p, marks, result);
      } else if fields.state.HeaderValue? {
        next, p, marks' := ReadValue(buf, p, marks, result);
      } else if InBody(fields.state) {
        next, p, marks' := ReadBody(buf, p, marks, result);
      }
      if next.Again? {
        ghost var read := log;
        next, marks' := Look(buf, p, marks', result);
        DeliveredOn(old(log), read, log, buf);
      }
      FitsAtEnd(marks', fields.state, p + 1);
    }

    /**
     Reads a buffer: exactly when reading byte by byte gets through it so does this, and then fields
     and callbacks agree; after a failure fewer bytes than given are reported.
     */
    method Execute(buf: string) returns (n: nat)
      requires Usable() && buf != "" && |buf| < INT_LIMIT
      modifies this
      ensures Usable() && old(log) <= log && Delivers(old(log), log, buf)
      ensures match Run'(settings, old(After()), buf)
              case Ready(s) => n == |buf| && After() == s
              case Stopped(s, rest) => n == |buf| - |rest| && After() == s
              case Failed => n < |buf| && !fields.errno.OK?
    {
      hide Emit, Merge, Run, Rest, Delivers, IsSliceOf, Inside, Valid, Seen, MarksFit, InitialMark, OnlyMark;
      NothingDelivered(log, buf);
      if !fields.errno.OK? {
        return 0;
      }
      var marks: Marks := map[];
      if InitialMark(fields.state).Some? {
        marks := map[InitialMark(fields.state).value := 0];
      }
      ghost var result := Run(settings, After(), buf);
      StartOfBuffer(Trace(), marks, fields.state, buf);
      var p := 0;
      while p < |buf|
        invariant Delivers(old(log), log, buf)
        invariant p <= |buf| && Valid(fields) && fields.errno.OK? && MarksFit(marks, fields.state, p, p == |buf|)
        invariant result == Run(settings, Stream(fields, Seen(Trace(), marks, buf, p)), buf[p..])
        invariant p > 0 ==> forall k <- marks :: marks[k] < p
      {
        var next;
        ghost var before := log;
        next, p, marks := ReadByte(buf, p, marks, result);
        DeliveredOn(old(log), before, log, buf);
        DeliveredBehind(old(log), log, buf);
        if next.Fail? {
          Error(if next.errno.OK? then Unknown else next.errno);
          return p;
        }
        if next.Exit? {
          return p + 1;
        }
        p := p + 1;
      }
      EndOfBuffer(settings, fields, marks, buf);
      ghost var before := log;
      FlushMarks(buf, marks);
      DeliveredOn(old(log), before, log, buf);
      DeliveredBehind(old(log), log, buf);
      return |buf|;
    }
  }
}
