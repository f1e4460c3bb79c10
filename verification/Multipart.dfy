/**
 The multipart parser: a resumable byte machine that finds CRLF + boundary on the fly, with a
 lookbehind buffer for the bytes matched so far and by reading one byte a second time.

 `Step` says what one byte does when it is a buffer of its own; `Parser.Execute` is the loop over a
 whole buffer with its mark and index arithmetic, proved to do the same.
 */
module Multipart {
  import opened Traces
  import opened StringUtils

  datatype State =
    | Start | StartBoundary
    | HeaderFieldStart | HeaderField | HeadersAlmostDone
    | HeaderValueStart | HeaderValue | HeaderValueAlmostDone
    | PartDataStart | PartData | PartDataAlmostBoundary | PartDataBoundary
    | PartDataAlmostEnd | PartDataEnd | PartDataFinalHyphen
    | End

  /**
   What a parser has done after some bytes. `held` is the part of a header name that the current
   buffer has shown and that no callback has delivered; `named` says that the header name read last
   has at least one byte; `dangling`, that some nonempty header name ended at CR and not at `:`.
   */
  datatype Scan = Scan(state: State, index: nat, trace: Trace, held: string, named: bool, dangling: bool)

  const Init := Scan(Start, 0, [], "", false, false)

  datatype Result = Accepted(scan: Scan) | Rejected(rest: string)

  predicate IsNameByte(c: char) {
    c == '-' || 'a' <= FoldedChar(c) <= 'z'
  }

  /** The delimiter that ends the data of a part. */
  function Delimiter(boundary: string): string {
    "\r\n" + boundary
  }

  ghost predicate Valid(boundary: string, s: Scan) {
    && (s.state == StartBoundary ==> s.index <= |boundary| + 1)
    && (s.state == PartDataBoundary ==> s.index < |boundary|)
    && (s.held != "" ==> s.state == HeaderField && s.named)
  }

  /** A byte read in state `s_part_data`. */
  function DataStep(s: Scan, c: char): Scan {
    if c == '\r' then
      s.(state := PartDataAlmostBoundary, trace := Emit(s.trace, Data(OnPartData, "")))
    else
      s.(state := PartData, trace := Emit(s.trace, Data(OnPartData, [c])))
  }

  function FieldStep(s: Scan, c: char): Result {
    if c == '\r' then
      Accepted(s.(state := HeadersAlmostDone, held := "", dangling := s.dangling || s.named))
    else if c == ':' then
      Accepted(s.(state := HeaderValueStart, held := "", trace := Emit(s.trace, Data(OnHeaderField, s.held))))
    else if !IsNameByte(c) then
      Rejected([c])
    else
      Accepted(s.(state := HeaderField, held := s.held + [c], named := true))
  }

  function ValueStep(s: Scan, c: char): Scan {
    if c == '\r' then
      s.(state := HeaderValueAlmostDone, trace := Emit(s.trace, Data(OnHeaderValue, "")))
    else
      s.(state := HeaderValue, trace := Emit(s.trace, Data(OnHeaderValue, [c])))
  }

  function BoundaryStep(boundary: string, s: Scan, c: char): Result
    requires s.index <= |boundary| + 1
  {
    if s.index == |boundary| then
      if c == '\r' then Accepted(s.(index := s.index + 1)) else Rejected([c])
    else if s.index == |boundary| + 1 then
      if c == '\n' then
        Accepted(s.(state := HeaderFieldStart, index := 0, trace := Emit(s.trace, Note(OnPartDataBegin))))
      else Rejected([c])
    else if c == boundary[s.index] then Accepted(s.(index := s.index + 1)) else Rejected([c])
  }

  function Expect(s: Scan, c: char, wanted: char, next: State): Result {
    if c == wanted then Accepted(s.(state := next)) else Rejected([c])
  }

  /** What one byte does. */
  function Step(boundary: string, s: Scan, c: char): (r: Result)
    requires boundary != "" && Valid(boundary, s)
    ensures r.Accepted? ==> Valid(boundary, r.scan)
  {
    match s.state
    case Start => BoundaryStep(boundary, s.(state := StartBoundary, index := 0), c)
    case StartBoundary => BoundaryStep(boundary, s, c)
    case HeaderFieldStart => FieldStep(s.(named := false), c)
    case HeaderField => FieldStep(s, c)
    case HeadersAlmostDone => Expect(s, c, '\n', PartDataStart)
    case HeaderValueStart => Accepted(if c == ' ' then s else ValueStep(s, c))
    case HeaderValue => Accepted(ValueStep(s, c))
    case HeaderValueAlmostDone => Expect(s, c, '\n', HeaderFieldStart)
    case PartDataStart => Accepted(DataStep(s.(trace := Emit(s.trace, Note(OnPartHeadersComplete))), c))
    case PartData => Accepted(DataStep(s, c))
    case PartDataAlmostBoundary =>
      if c == '\n' then
        Accepted(s.(state := PartDataBoundary, index := 0))
      else
        Accepted(DataStep(s.(trace := Emit(s.trace, Data(OnPartData, "\r"))), c))
    case PartDataBoundary =>
      if boundary[s.index] != c then
        Accepted(DataStep(s.(trace := Emit(s.trace, Data(OnPartData, "\r\n" + boundary[..s.index]))), c))
      else if s.index + 1 == |boundary| then
        Accepted(s.(state := PartDataAlmostEnd, index := s.index + 1, trace := Emit(s.trace, Note(OnPartDataEnd))))
      else
        Accepted(s.(index := s.index + 1))
    case PartDataAlmostEnd =>
      if c == '-' then Accepted(s.(state := PartDataFinalHyphen)) else Expect(s, c, '\r', PartDataEnd)
    case PartDataFinalHyphen =>
      if c == '-' then Accepted(s.(state := End, trace := Emit(s.trace, Note(OnBodyEnd)))) else Rejected([c])
    case PartDataEnd =>
      if c == '\n' then Accepted(s.(state := HeaderFieldStart, trace := Emit(s.trace, Note(OnPartDataBegin))))
        else Rejected([c])
    case End => Accepted(s)
  }

  /** What the bytes of one buffer do, before its end is noticed. */
  function Bytes(boundary: string, s: Scan, buf: string): (r: Result)
    requires boundary != "" && Valid(boundary, s)
    ensures r.Accepted? ==> Valid(boundary, r.scan)
    ensures r.Rejected? ==> 0 < |r.rest| <= |buf|
    decreases |buf|
  {
    if buf == "" then Accepted(s) else
      match Step(boundary, s, buf[0])
      case Accepted(s') => Bytes(boundary, s', buf[1..])
      case Rejected(_) => Rejected(buf)
  }

  /** At the end of a buffer a header name read so far is delivered. */
  function Flush(s: Scan): Scan {
    if s.held == "" then s else s.(held := "", trace := Emit(s.trace, Data(OnHeaderField, s.held)))
  }

  /** What one buffer does. */
  function Buffer(boundary: string, s: Scan, buf: string): (r: Result)
    requires boundary != "" && Valid(boundary, s)
    ensures r.Accepted? ==> Valid(boundary, r.scan) && r.scan.held == ""
    ensures r.Rejected? ==> 0 < |r.rest| <= |buf|
  {
    match Bytes(boundary, s, buf)
    case Accepted(s') => Accepted(Flush(s'))
    case Rejected(rest) => Rejected(rest)
  }

  lemma {:induction false} BytesAppend(boundary: string, s: Scan, a: string, b: string)
    requires boundary != "" && Valid(boundary, s)
    ensures match Bytes(boundary, s, a)
            case Accepted(s') => Bytes(boundary, s, a + b) == Bytes(boundary, s', b)
            case Rejected(rest) => Bytes(boundary, s, a + b) == Rejected(rest + b)
    decreases |a|
  {
    if a == "" {
      assert a + b == b;
    } else {
      assert (a + b)[1..] == a[1..] + b;
      match Step(boundary, s, a[0])
      case Accepted(s') => BytesAppend(boundary, s', a[1..], b);
      case Rejected(_) =>
    }
  }

  ghost predicate EndsIn(log: Trace, k: Kind) {
    log != [] && log[|log| - 1].Data? && log[|log| - 1].kind == k
  }

  /** Every header name and every header value was delivered by one callback. */
  ghost predicate HeadersWhole(log: Trace) {
    forall i | 0 < i < |log| && log[i].Data? && log[i].kind != OnPartData :: !EndsIn(log[..i], log[i].kind)
  }

  /**
   The state that a state at the last callback stands for once bytes from `mark` up to `i` have been
   read since: bytes that a data callback will deliver count as delivered, those of a name as held.
   */
  ghost function Pending(s: Scan, buf: string, mark: nat, i: nat): Scan
    requires mark <= i <= |buf|
  {
    if s.state == HeaderField then
      s.(held := buf[mark..i])
    else if s.state == HeaderValue && mark < i then
      s.(trace := Emit(s.trace, Data(OnHeaderValue, buf[mark..i])))
    else if s.state == PartData && mark < i then
      s.(trace := Emit(s.trace, Data(OnPartData, buf[mark..i])))
    else s
  }

  /** One more byte, or none, after the pending ones of kind `k`. */
  lemma PendingPieces(t: Trace, k: Kind, buf: string, mark: nat, i: nat)
    requires mark <= i < |buf|
    ensures var pending := if mark < i then Emit(t, Data(k, buf[mark..i])) else t;
            && Emit(pending, Data(k, [buf[i]])) == Emit(t, Data(k, buf[mark..i + 1]))
            && Emit(pending, Data(k, "")) == Emit(t, Data(k, buf[mark..i]))
  {
    hide Emit;
    EmitPieces(t, k, buf[mark..i], [buf[i]]);
    EmitPieces(t, k, buf[mark..i], "");
    assert buf[mark..i] + [buf[i]] == buf[mark..i + 1];
    assert buf[mark..i] + "" == buf[mark..i];
    assert mark == i ==> buf[mark..i + 1] == [buf[i]];
  }

  ghost predicate Marked(s: Scan, mark: nat, i: nat) {
    && s.held == ""
    && (s.state == HeaderField && mark < i ==> s.named)
  }

  /**
   One round of the loop, from byte `i` to byte `i'`, agrees with the byte step: it reads the byte,
   or it has the byte read again in a state that treats it alike.
   */
  ghost predicate Agrees(boundary: string, before: Scan, after: Scan, buf: string, i: nat, mark': nat, i': nat)
    requires boundary != "" && Valid(boundary, before) && i < |buf|
  {
    && Marked(after, mark', i') && mark' <= i' <= |buf|
    && Valid(boundary, Pending(after, buf, mark', i'))
    && (i' == i ==>
          && after.state == PartData && before.state in {PartDataAlmostBoundary, PartDataBoundary}
          && Step(boundary, before, buf[i]) == Step(boundary, Pending(after, buf, mark', i), buf[i]))
    && (i' != i ==>
          && i' == i + 1
          && var r := Step(boundary, before, buf[i]);
          && r.Accepted?
          && (i' < |buf| ==> r.scan == Pending(after, buf, mark', i'))
          && (i' == |buf| ==> Flush(r.scan) == after))
  }

  /** So one round does not change what the rest of the buffer will have done. */
  lemma RoundKeepsResult(boundary: string, before: Scan, after: Scan, buf: string, i: nat, mark': nat, i': nat)
    requires boundary != "" && Valid(boundary, before) && i < |buf|
    requires Agrees(boundary, before, after, buf, i, mark', i')
    ensures mark' <= i' <= |buf| && Marked(after, mark', i') && Valid(boundary, Pending(after, buf, mark', i'))
    ensures i' == i || i' == i + 1
    ensures i' == i ==> after.state == PartData && before.state in {PartDataAlmostBoundary, PartDataBoundary}
    ensures Buffer(boundary, before, buf[i..]) ==
      if i' < |buf| then Buffer(boundary, Pending(after, buf, mark', i'), buf[i'..]) else Accepted(after)
  {
    hide Emit, Step, Flush, Pending;
    assert buf[i..][1..] == buf[i + 1..];
    if i' == |buf| {
      assert buf[i'..] == "" && Bytes(boundary, Step(boundary, before, buf[i]).scan, "")
             == Step(boundary, before, buf[i]);
    }
  }

  class Parser {
    const boundary: string
    const lookbehind: array<char>
    var state: State
    var index: nat
    /** The callbacks made so far, as they were made. */
    var log: Trace
    ghost var named: bool
    ghost var dangling: bool

    constructor (b: string)
      requires b != ""
      ensures boundary == b && fresh(lookbehind) && Consistent() && After() == Init && Whole()
    {
      boundary := b;
      lookbehind := new char[|b| + 9];
      state, index, log := Start, 0, [];
      named, dangling := false, false;
    }

    /** The lookbehind buffer holds CRLF and the boundary prefix matched so far. */
    ghost predicate Consistent()
      reads this, lookbehind
    {
      && boundary != "" && lookbehind.Length == |boundary| + 9
      && (state == StartBoundary ==> index <= |boundary| + 1)
      && (state == PartDataBoundary ==> index < |boundary|)
      && (state == PartDataAlmostBoundary ==> lookbehind[0] == '\r')
      && (state == PartDataBoundary ==> lookbehind[..2 + index] == "\r\n" + boundary[..index])
    }

    ghost function After(): (s: Scan)
      reads this
    {
      Scan(state, index, Merge([], log), "", named, dangling)
    }

    /** So far no header name or value has come in pieces, and none is about to. */
    ghost predicate Whole()
      reads this
    {
      && HeadersWhole(log)
      && (state in {HeaderFieldStart, HeaderField, HeaderValueAlmostDone} ==> !EndsIn(log, OnHeaderField))
      && (state in {HeaderValueStart, HeaderValue} ==> !EndsIn(log, OnHeaderValue))
    }

    method Call(e: Event)
      modifies this`log
      ensures log == old(log) + [e]
      ensures old(HeadersWhole(log)) && (e.Data? && e.kind != OnPartData ==> !old(EndsIn(log, e.kind))) ==>
              HeadersWhole(log)
      ensures forall k :: EndsIn(log, k) <==> e.Data? && e.kind == k
      ensures Merge([], log) == Emit(old(Merge([], log)), e)
    {
      MergeOne([], log, e);
      log := log + [e];
    }

    method ReadFirstBoundaryByte(buf: string, i: nat, ghost mark: nat) returns (ok: bool)
      requires Consistent() && mark <= i < |buf| && Marked(After(), mark, i)
      requires state in {Start, StartBoundary}
      modifies this
      ensures ok ==> Consistent() && Agrees(boundary, old(Pending(After(), buf, mark, i)), After(), buf, i, mark, i + 1)
      ensures ok && old(Whole()) ==> HeadersWhole(log) && (i + 1 < |buf| ==> Whole())
      ensures !ok ==> Step(boundary, old(Pending(After(), buf, mark, i)), buf[i]).Rejected?
    {
      hide Emit, Merge, HeadersWhole, EndsIn, DataStep, FieldStep, ValueStep;
      var c := buf[i];
      if state == Start {
        index := 0;
        state := StartBoundary;
      }
      if index == |boundary| {
        if c != '\r' { return false; }
        index := index + 1;
      } else if index == |boundary| + 1 {
        if c != '\n' { return false; }
        index := 0;
        Call(Note(OnPartDataBegin));
        state := HeaderFieldStart;
      } else {
        if c != boundary[index] { return false; }
        index := index + 1;
      }
      return true;
    }

    method ReadNameByte(buf: string, i: nat, mark: nat) returns (ok: bool, mark': nat, i': nat)
      requires Consistent() && mark <= i < |buf| && Marked(After(), mark, i)
      requires state in {HeaderFieldStart, HeaderField}
      modifies this
      ensures ok ==> Consistent() && Agrees(boundary, old(Pending(After(), buf, mark, i)), After(), buf, i, mark', i')
      ensures ok && old(Whole()) ==> HeadersWhole(log) && (i' < |buf| ==> Whole())
      ensures !ok ==> Step(boundary, old(Pending(After(), buf, mark, i)), buf[i]).Rejected?
    {
      hide Emit, Merge, HeadersWhole, EndsIn, BoundaryStep, DataStep, ValueStep, IsNameByte;
      ok, mark', i' := true, mark, i + 1;
      var c := buf[i];
      var isLast := i == |buf| - 1;
      if state == HeaderFieldStart {
        mark' := i;
        state := HeaderField;
        named := false;
      }
      assert buf[mark'..i] + [c] == buf[mark'..i + 1];
      if c == '\r' {
        state := HeadersAlmostDone;
        dangling := dangling || named;
      } else if c == ':' {
        Call(Data(OnHeaderField, buf[mark'..i]));
        state := HeaderValueStart;
      } else if !IsNameByte(c) {
        ok := false;
      } else {
        named := true;
        if isLast {
          Call(Data(OnHeaderField, buf[mark'..i + 1]));
        }
      }
    }

    method ReadValueByte(buf: string, i: nat, mark: nat) returns (mark': nat, i': nat)
      requires Consistent() && mark <= i < |buf| && Marked(After(), mark, i)
      requires state in {HeaderValueStart, HeaderValue}
      modifies this
      ensures Consistent() && Agrees(boundary, old(Pending(After(), buf, mark, i)), After(), buf, i, mark', i')
      ensures old(Whole()) ==> HeadersWhole(log) && (i' < |buf| ==> Whole())
    {
      hide Emit, Merge, HeadersWhole, EndsIn, BoundaryStep, FieldStep, DataStep;
      mark', i' := mark, i + 1;
      var c := buf[i];
      var isLast := i == |buf| - 1;
      if state == HeaderValueStart {
        if c == ' ' {
          return;
        }
        mark' := i;
        state := HeaderValue;
      }
      PendingPieces(Merge([], log), OnHeaderValue, buf, mark', i);
      if c == '\r' {
        Call(Data(OnHeaderValue, buf[mark'..i]));
        state := HeaderValueAlmostDone;
      } else if isLast {
        Call(Data(OnHeaderValue, buf[mark'..i + 1]));
      }
    }

    method ReadDataByte(buf: string, i: nat, mark: nat) returns (mark': nat, i': nat)
      requires Consistent() && mark <= i < |buf| && Marked(After(), mark, i)
      requires state in {PartDataStart, PartData}
      modifies this, lookbehind
      ensures Consistent() && Agrees(boundary, old(Pending(After(), buf, mark, i)), After(), buf, i, mark', i')
      ensures old(Whole()) ==> Whole()
    {
      hide Emit, Merge, HeadersWhole, EndsIn, BoundaryStep, FieldStep, ValueStep;
      mark', i' := mark, i + 1;
      var c := buf[i];
      var isLast := i == |buf| - 1;
      if state == PartDataStart {
        Call(Note(OnPartHeadersComplete));
        mark' := i;
        state := PartData;
      }
      PendingPieces(Merge([], log), OnPartData, buf, mark', i);
      if c == '\r' {
        Call(Data(OnPartData, buf[mark'..i]));
        mark' := i;
        state := PartDataAlmostBoundary;
        lookbehind[0] := '\r';
      } else if isLast {
        Call(Data(OnPartData, buf[mark'..i + 1]));
      }
    }

    method ReadAlmostBoundaryByte(buf: string, i: nat, mark: nat) returns (mark': nat, i': nat)
      requires Consistent() && mark <= i < |buf| && Marked(After(), mark, i)
      requires state == PartDataAlmostBoundary
      modifies this, lookbehind
      ensures Consistent() && Agrees(boundary, old(Pending(After(), buf, mark, i)), After(), buf, i, mark', i')
      ensures old(Whole()) ==> Whole()
    {
      hide Emit, Merge, HeadersWhole, EndsIn, BoundaryStep, FieldStep, ValueStep;
      mark', i' := mark, i + 1;
      if buf[i] == '\n' {
        state := PartDataBoundary;
        lookbehind[1] := '\n';
        index := 0;
        assert lookbehind[..2] == "\r\n" + boundary[..0];
      } else {
        assert lookbehind[..1] == "\r";
        Call(Data(OnPartData, lookbehind[..1]));
        state := PartData;
        mark', i' := i, i;
      }
    }

    method ReadBoundaryByte(buf: string, i: nat, mark: nat) returns (mark': nat, i': nat)
      requires Consistent() && mark <= i < |buf| && Marked(After(), mark, i)
      requires state == PartDataBoundary
      modifies this, lookbehind
      ensures Consistent() && Agrees(boundary, old(Pending(After(), buf, mark, i)), After(), buf, i, mark', i')
      ensures old(Whole()) ==> Whole()
    {
      hide Emit, Merge, HeadersWhole, EndsIn, BoundaryStep, FieldStep, ValueStep;
      mark', i' := mark, i + 1;
      var c := buf[i];
      if boundary[index] != c {
        Call(Data(OnPartData, lookbehind[..2 + index]));
        state := PartData;
        mark', i' := i, i;
      } else {
        lookbehind[2 + index] := c;
        index := index + 1;
        assert lookbehind[..2 + index] == "\r\n" + boundary[..index];
        if index == |boundary| {
          Call(Note(OnPartDataEnd));
          state := PartDataAlmostEnd;
        }
      }
    }

    method ReadFixedByte(buf: string, i: nat, ghost mark: nat) returns (ok: bool)
      requires Consistent() && mark <= i < |buf| && Marked(After(), mark, i)
      requires state in {HeadersAlmostDone, HeaderValueAlmostDone, PartDataAlmostEnd, PartDataFinalHyphen, PartDataEnd,
               End}
      modifies this
      ensures ok ==> Consistent() && Agrees(boundary, old(Pending(After(), buf, mark, i)), After(), buf, i, mark, i + 1)
      ensures ok && old(Whole()) ==> Whole()
      ensures !ok ==> Step(boundary, old(Pending(After(), buf, mark, i)), buf[i]).Rejected?
    {
      hide Emit, Merge, HeadersWhole, EndsIn, BoundaryStep, DataStep, FieldStep, ValueStep;
      var c := buf[i];
      if state.HeadersAlmostDone? {
        if c != '\n' { return false; }
        state := PartDataStart;
      } else if state.HeaderValueAlmostDone? {
        if c != '\n' { return false; }
        state := HeaderFieldStart;
      } else if state.PartDataAlmostEnd? {
        if c == '-' {
          state := PartDataFinalHyphen;
        } else {
          if c != '\r' { return false; }
          state := PartDataEnd;
        }
      } else if state.PartDataFinalHyphen? {
        if c != '-' { return false; }
        Call(Note(OnBodyEnd));
        state := End;
      } else if state.PartDataEnd? {
        if c != '\n' { return false; }
        state := HeaderFieldStart;
        Call(Note(OnPartDataBegin));
      }
      return true;
    }

    method ReadByte(buf: string, i: nat, mark: nat) returns (ok: bool, mark': nat, i': nat)
      requires Consistent() && mark <= i < |buf| && Marked(After(), mark, i)
      modifies this, lookbehind
      ensures ok ==> Consistent() && Agrees(boundary, old(Pending(After(), buf, mark, i)), After(), buf, i, mark', i')
      ensures ok && old(Whole()) ==> HeadersWhole(log) && (i' < |buf| ==> Whole())
      ensures !ok ==> Step(boundary, old(Pending(After(), buf, mark, i)), buf[i]).Rejected?
    {
      hide Emit, Merge, HeadersWhole, EndsIn, Step, Flush, Agrees, Pending;
      ok, mark', i' := true, mark, i + 1;
      if state.Start? || state.StartBoundary? {
        ok := ReadFirstBoundaryByte(buf, i, mark);
      } else if state.HeaderFieldStart? || state.HeaderField? {
        ok, mark', i' := ReadNameByte(buf, i, mark);
      } else if state.HeaderValueStart? || state.HeaderValue? {
        mark', i' := ReadValueByte(buf, i, mark);
      } else if state.PartDataStart? || state.PartData? {
        mark', i' := ReadDataByte(buf, i, mark);
      } else if state.PartDataAlmostBoundary? {
        mark', i' := ReadAlmostBoundaryByte(buf, i, mark);
      } else if state.PartDataBoundary? {
        mark', i' := ReadBoundaryByte(buf, i, mark);
      } else {
        ok := ReadFixedByte(buf, i, mark);
      }
    }

    /** Reads one buffer; returns the number of bytes read before the first that does not fit. */
    method Execute(buf: string) returns (n: nat)
      requires Consistent()
      modifies this, lookbehind
      ensures match Buffer(boundary, old(After()), buf)
              case Accepted(s) => n == |buf| && Consistent() && After() == s
              case Rejected(rest) => n == |buf| - |rest|
      ensures n == |buf| && old(Whole()) ==> HeadersWhole(log)
    {
      hide Emit, Merge, HeadersWhole, EndsIn, Step, Agrees;
      var i, mark: nat := 0, 0;
      ghost var result := Buffer(boundary, After(), buf);
      while i < |buf|
        invariant mark <= i <= |buf| && Consistent() && Marked(After(), mark, i)
        invariant i < |buf| ==> result == Buffer(boundary, Pending(After(), buf, mark, i), buf[i..])
        invariant i == |buf| ==> result == Accepted(After())
        invariant old(Whole()) ==> HeadersWhole(log) && (i < |buf| ==> Whole())
        decreases |buf| - i, if state in {PartDataAlmostBoundary, PartDataBoundary} then 1 else 0
      {
        ghost var before := Pending(After(), buf, mark, i);
        var ok, mark', i' := ReadByte(buf, i, mark);
        if !ok {
          assert Step(boundary, before, buf[i..][0]).Rejected?;
          return i;
        }
        RoundKeepsResult(boundary, before, After(), buf, i, mark', i');
        mark, i := mark', i';
      }
      return |buf|;
    }
  }
}
