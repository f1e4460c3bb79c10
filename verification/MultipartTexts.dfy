/**
 What a whole text is to the multipart parser: which texts it takes, and which callbacks it makes of
 them, read off the text line by line and part by part.
 */
module MultipartTexts {
  import opened Options
  import opened Traces
  import opened Multipart
  import opened MultipartTheorems

  // ----- The meaning of a text -----

  /** Letters and hyphens make names. */
  lemma NameBytesAreLetters(c: char)
    ensures IsNameByte(c) <==>
            c == '-' || c in "ABCDEFGHIJKLMNOPQRSTUVWXYZ" || c in "abcdefghijklmnopqrstuvwxyz"
  {
  }

  function TrimLeft(s: string): string {
    if s != "" && s[0] == ' ' then TrimLeft(s[1..]) else s
  }

  /** How many bytes at the end of a text, `n` at most, may begin the delimiter. */
  function HeldBack(x: string, d: string, n: nat): (k: nat)
    requires n < |d| && n <= |x|
    ensures k <= n && x[|x| - k..] == d[..k] && forall m: nat | k < m <= n :: x[|x| - m..] != d[..m]
  {
    if x[|x| - n..] == d[..n] then n else HeldBack(x, d, n - 1)
  }

  /**
   The callbacks after those of `t` for a text that starts where a header line may start; none if the text
   is refused. Names are letters and hyphens. A name that ends at CR is dropped and ends the headers.
   */
  ghost function LinesMean(b: string, x: string, t: Trace): Option<Trace>
    decreases |x|, 0
  {
    var n := NameLength(x);
    if n == |x| then Some(if n == 0 then t else Emit(t, Data(OnHeaderField, x)))
    else if x[n] == '\r' then
      if n + 1 == |x| then Some(t) else if x[n + 1] == '\n' then DataMean(b, x[n + 2..], t) else None
    else if x[n] == ':' then ValueMeans(b, x[n + 1..], Emit(t, Data(OnHeaderField, x[..n])))
    else None
  }

  /** For a text that starts behind the colon of a header line: the value ends at CR LF. */
  ghost function ValueMeans(b: string, x: string, t: Trace): Option<Trace>
    decreases |x|, 1
  {
    var n := ReturnAt(x);
    var value := TrimLeft(x[..n]);
    var t' := Emit(t, Data(OnHeaderValue, value));
    if n == |x| then Some(if value == "" then t else t')
    else if n + 1 == |x| then Some(t')
    else if x[n + 1] == '\n' then LinesMean(b, x[n + 2..], t')
    else None
  }

  /** For a text that starts with the data of a part: they end at the first delimiter. */
  ghost function DataMean(b: string, x: string, t: Trace): Option<Trace>
    decreases |x|, 1
  {
    var t', d := Emit(t, Note(OnPartHeadersComplete)), "\r\n" + b;
    if x == "" then Some(t)
    else if j: nat :| FirstAt(x, d, j) then
      BoundaryMeans(b, x[j + |d|..], Emit(Emit(t', Data(OnPartData, x[..j])), Note(OnPartDataEnd)))
    else Some(Emit(t', Data(OnPartData, x[..|x| - HeldBack(x, d, if |x| < |d| then |x| else |d| - 1)])))
  }

  /** For a text behind a boundary: CR LF and another part, or two hyphens and anything. */
  ghost function BoundaryMeans(b: string, x: string, t: Trace): Option<Trace>
    decreases |x|, 0
  {
    if x == "" then Some(t)
    else if x[0] == '-' then
      if |x| == 1 then Some(t) else if x[1] == '-' then Some(Emit(t, Note(OnBodyEnd))) else None
    else if x[0] == '\r' then
      if |x| == 1 then Some(t)
      else if x[1] == '\n' then LinesMean(b, x[2..], Emit(t, Note(OnPartDataBegin))) else None
    else None
  }

  /** For a whole text: the boundary and CR LF come first. */
  ghost function Meaning(b: string, x: string): Option<Trace> {
    var line := b + "\r\n";
    if line <= x then LinesMean(b, x[|line|..], [Note(OnPartDataBegin)])
    else if x <= line then Some([]) else None
  }

  // ----- Reading it -----

  /** Reading the text from `s` on leads to these callbacks, or is refused. */
  ghost predicate Gives(b: string, s: Scan, x: string, m: Option<Trace>)
    requires b != "" && Valid(b, s)
  {
    match Buffer(b, s, x)
    case Accepted(s') => m == Some(s'.trace)
    case Rejected(_) => m == None
  }

  lemma GivesNext(b: string, s: Scan, x: string, s': Scan, m: Option<Trace>)
    requires b != "" && Valid(b, s) && x != "" && Step(b, s, x[0]) == Accepted(s')
    requires Valid(b, s') ==> Gives(b, s', x[1..], m)
    ensures Gives(b, s, x, m)
  {
    hide Step, Flush;
  }

  lemma GivesNothing(b: string, s: Scan)
    requires b != "" && Valid(b, s) && s.held == ""
    ensures Gives(b, s, "", Some(s.trace))
  {
  }

  lemma Refused(b: string, s: Scan, x: string)
    requires b != "" && Valid(b, s) && x != "" && Step(b, s, x[0]).Rejected?
    ensures Gives(b, s, x, None)
  {
  }

  /** A byte that is expected. */
  lemma Expected(b: string, s: Scan, x: string, wanted: char, s': Scan, m: Option<Trace>)
    requires b != "" && Valid(b, s) && s.held == "" && Valid(b, s')
    requires forall c :: Step(b, s, c) == if c == wanted then Accepted(s') else Rejected([c])
    requires x != "" && x[0] == wanted ==> Gives(b, s', x[1..], m)
    ensures Gives(b, s, x, if x == "" then Some(s.trace) else if x[0] == wanted then m else None)
  {
    hide Step, Flush;
    if x == "" {
      GivesNothing(b, s);
    } else if x[0] == wanted {
      GivesNext(b, s, x, s', m);
    } else {
      Refused(b, s, x);
    }
  }

  lemma {:induction false} LinesGive(b: string, s: Scan, x: string)
    requires b != "" && '\r' !in b && Valid(b, s) && s.held == "" && s.state == HeaderFieldStart
    ensures Gives(b, s, x, LinesMean(b, x, s.trace))
    decreases |x|, 0
  {
    hide Emit, Step, Bytes, DataMean, ValueMeans, IsNameByte, LinesMean, Gives;
    var n, s0 := NameLength(x), s.(state := HeaderField, named := false);
    LinesUnfold(b, x, s.trace);
    if x == "" {
      GivesNothing(b, s);
    } else {
      FieldStart(b, s, x);
      NameRun(b, s0, x, n);
      var s1 := if n == 0 then s0 else s0.(held := x[..n], named := true);
      assert "" + x[..n] == x[..n];
      assert Gives(b, s1, x[n..], LinesMean(b, x, s.trace)) by {
        BehindNameGives(b, s1, x, n, s.trace);
      }
      SameBytes(b, s, x, s1, x[n..], LinesMean(b, x, s.trace));
    }
  }

  lemma SameBytes(b: string, s: Scan, x: string, s': Scan, x': string, m: Option<Trace>)
    requires b != "" && Valid(b, s) && Valid(b, s') && Bytes(b, s, x) == Bytes(b, s', x')
    ensures Gives(b, s, x, m) <==> Gives(b, s', x', m)
  {
  }

  lemma LinesUnfold(b: string, x: string, t: Trace)
    ensures LinesMean(b, x, t) ==
            var n := NameLength(x);
            if n == |x| then Some(if n == 0 then t else Emit(t, Data(OnHeaderField, x)))
            else if x[n] == '\r' then
              if n + 1 == |x| then Some(t) else if x[n + 1] == '\n' then DataMean(b, x[n + 2..], t) else None
            else if x[n] == ':' then ValueMeans(b, x[n + 1..], Emit(t, Data(OnHeaderField, x[..n])))
            else None
  {
    hide DataMean, ValueMeans, Emit;
  }

  /** What stands behind the name bytes at the start of a line. */
  lemma {:induction false} BehindNameGives(b: string, s: Scan, x: string, n: nat, t: Trace)
    requires b != "" && '\r' !in b && Valid(b, s) && s.state == HeaderField
    requires x != "" && n == NameLength(x) && s.held == x[..n] && s.trace == t
    ensures Gives(b, s, x[n..], LinesMean(b, x, t))
    decreases |x|, 0, 0
  {
    hide Emit, Bytes, DataMean, ValueMeans, IsNameByte, LinesMean, Gives, NameLength;
    LinesUnfold(b, x, t);
    assert n < |x| ==> x[n..][0] == x[n] && x[n..][1..] == x[n + 1..];
    if n == |x| {
      assert x[n..] == "" && x[..n] == x;
      NameAtEnd(b, s);
    } else if x[n] == '\r' {
      var s1 := s.(state := HeadersAlmostDone, held := "", dangling := s.dangling || s.named);
      assert n + 1 < |x| ==> x[n + 1..][0] == x[n + 1] && x[n + 1..][1..] == x[n + 2..];
      if n + 1 < |x| && x[n + 1] == '\n' {
        DataGives(b, s1.(state := PartDataStart), x[n + 2..]);
      }
      Expected(b, s1, x[n + 1..], '\n', s1.(state := PartDataStart),
        DataMean(b, if n + 2 <= |x| then x[n + 2..] else "", t));
      GivesNext(b, s, x[n..], s1, LinesMean(b, x, t));
    } else if x[n] == ':' {
      var s1 := s.(state := HeaderValueStart, held := "", trace := Emit(t, Data(OnHeaderField, x[..n])));
      ValueGives(b, s1, x[n + 1..]);
      GivesNext(b, s, x[n..], s1, LinesMean(b, x, t));
    } else {
      NotAName(x, n);
      Refused(b, s, x[n..]);
    }
  }

  lemma NotAName(x: string, n: nat)
    requires n == NameLength(x) < |x|
    ensures !IsNameByte(x[n])
  {
  }

  lemma NameAtEnd(b: string, s: Scan)
    requires b != "" && Valid(b, s)
    ensures Gives(b, s, "", Some(if s.held == "" then s.trace else Emit(s.trace, Data(OnHeaderField, s.held))))
  {
    hide Emit;
  }

  lemma {:induction false} ValueGives(b: string, s: Scan, x: string)
    requires b != "" && '\r' !in b && Valid(b, s) && s.held == "" && s.state == HeaderValueStart
    ensures Gives(b, s, x, ValueMeans(b, x, s.trace))
    decreases |x|, 1
  {
    hide Emit, Step, Bytes, LinesMean, Gives, ReturnAt;
    var n := ReturnAt(x);
    var value := TrimLeft(x[..n]);
    var s1 := AfterValue(s, value);
    assert x == x[..n] + x[n..];
    ValueText(b, s, x[..n], x[n..]);
    var t' := Emit(s.trace, Data(OnHeaderValue, value));
    if n == |x| {
      GivesNothing(b, s1);
      assert x[n..] == "";
    } else {
      var s2 := s1.(state := HeaderValueAlmostDone, trace := t');
      ValueReturns(b, s, value);
      assert x[n..][0] == '\r' && x[n..][1..] == x[n + 1..];
      assert n + 1 < |x| ==> x[n + 1..][0] == x[n + 1] && x[n + 1..][1..] == x[n + 2..];
      if n + 1 < |x| && x[n + 1] == '\n' {
        LinesGive(b, s2.(state := HeaderFieldStart), x[n + 2..]);
      }
      LineFeedSteps(b, s2);
      Expected(b, s2, x[n + 1..], '\n', s2.(state := HeaderFieldStart),
        LinesMean(b, if n + 2 <= |x| then x[n + 2..] else "", t'));
      GivesNext(b, s1, x[n..], s2, ValueMeans(b, x, s.trace));
    }
    SameBytes(b, s, x, s1, x[n..], ValueMeans(b, x, s.trace));
  }

  lemma LineFeedSteps(b: string, s: Scan)
    requires b != "" && Valid(b, s) && s.state == HeaderValueAlmostDone
    ensures forall c :: Step(b, s, c) == if c == '\n' then Accepted(s.(state := HeaderFieldStart)) else Rejected([c])
  {
  }

  /** After some of a value, from the start of the value on. */
  function AfterValue(s: Scan, value: string): Scan {
    if value == "" then s else s.(state := HeaderValue, trace := Emit(s.trace, Data(OnHeaderValue, value)))
  }

  lemma ValueReturns(b: string, s: Scan, value: string)
    requires b != "" && s.held == "" && s.state == HeaderValueStart
    ensures Step(b, AfterValue(s, value), '\r')
            == Accepted(s.(state := HeaderValueAlmostDone, trace := Emit(s.trace, Data(OnHeaderValue, value))))
  {
    hide Emit;
    EmitPieces(s.trace, OnHeaderValue, value, "");
    assert value + "" == value;
  }

  lemma {:induction false} ValueText(b: string, s: Scan, v: string, rest: string)
    requires b != "" && s.held == "" && s.state == HeaderValueStart && '\r' !in v
    ensures Bytes(b, s, v + rest) == Bytes(b, AfterValue(s, TrimLeft(v)), rest)
    decreases |v|
  {
    hide Emit, Bytes;
    if v == "" {
      assert v + rest == rest;
    } else if v[0] == ' ' {
      assert (v + rest)[1..] == v[1..] + rest;
      ReadOne(b, s, v + rest, s);
      ValueText(b, s, v[1..], rest);
    } else {
      var s1 := AfterValue(s, [v[0]]);
      assert (v + rest)[1..] == v[1..] + rest;
      assert v[0] in v;
      ReadOne(b, s, v + rest, s1);
      ValueTail(b, s, [v[0]], v[1..], rest);
      assert [v[0]] + v[1..] == v;
    }
  }

  lemma {:induction false} ValueTail(b: string, s: Scan, done: string, v: string, rest: string)
    requires b != "" && s.held == "" && s.state == HeaderValueStart && '\r' !in v && done != ""
    ensures Bytes(b, AfterValue(s, done), v + rest) == Bytes(b, AfterValue(s, done + v), rest)
    decreases |v|
  {
    hide Emit, Bytes;
    if v == "" {
      assert v + rest == rest && done + v == done;
    } else {
      assert (v + rest)[1..] == v[1..] + rest && done + [v[0]] + v[1..] == done + v;
      assert v[0] in v;
      EmitPieces(s.trace, OnHeaderValue, done, [v[0]]);
      ReadOne(b, AfterValue(s, done), v + rest, AfterValue(s, done + [v[0]]));
      ValueTail(b, s, done + [v[0]], v[1..], rest);
    }
  }

  // ----- The data of a part -----

  lemma {:induction false} DataGives(b: string, s: Scan, x: string)
    requires b != "" && '\r' !in b && Valid(b, s) && s.held == "" && s.state == PartDataStart
    ensures Gives(b, s, x, DataMean(b, x, s.trace))
    decreases |x|, 1
  {
    hide Emit, Step, Bytes, BoundaryMeans, Gives, HoldsBack;
    var t', d := Emit(s.trace, Note(OnPartHeadersComplete)), Delimiter(b);
    if x == "" {
      GivesNothing(b, s);
    } else if exists j: nat :: FirstAt(x, d, j) {
      var j: nat :| FirstAt(x, d, j);
      PartDataEndsAtFirstDelimiter(b, s, x, j);
      var found := Found(b, s.(trace := t'), x[..j]);
      BoundaryGives(b, found, x[j + |d|..]);
      SameBytes(b, s, x, found, x[j + |d|..], BoundaryMeans(b, x[j + |d|..], found.trace));
      OneDelimiter(b, x, s.trace, j);
    } else {
      NoOccurrence(x, d);
      PendingData(b, s, x);
    }
  }

  lemma OneDelimiter(b: string, x: string, t: Trace, j: nat)
    requires x != "" && FirstAt(x, Delimiter(b), j)
    ensures var t', d := Emit(t, Note(OnPartHeadersComplete)), Delimiter(b);
            DataMean(b, x, t)
            == BoundaryMeans(b, x[j + |d|..], Emit(Emit(t', Data(OnPartData, x[..j])), Note(OnPartDataEnd)))
  {
    hide Emit, BoundaryMeans, FirstAt, HoldsBack;
    forall i: nat | FirstAt(x, Delimiter(b), i) ensures i == j {
      FirstIsUnique(x, Delimiter(b), i, j);
    }
  }

  lemma PendingData(b: string, s: Scan, x: string)
    requires b != "" && '\r' !in b && Valid(b, s) && s.held == "" && s.state == PartDataStart && x != ""
    requires forall q: nat :: !OccursAt(x, Delimiter(b), q)
    ensures Gives(b, s, x, DataMean(b, x, s.trace))
  {
    hide Emit, Step, Bytes, BoundaryMeans, OccursAt;
    var s' := s.(trace := Emit(s.trace, Note(OnPartHeadersComplete)));
    DataStartIsScanning(b, s, x[0]);
    assert x[..0] == "" && x[0..] == x;
    var k, index := ScanWithoutDelimiter(b, s', x, 0, 0, s.index);
    SameFirst(b, s, Scanning(b, s', "", 0, s.index), x);
  }

  lemma SameFirst(b: string, s: Scan, s': Scan, x: string)
    requires b != "" && Valid(b, s) && Valid(b, s') && x != "" && Step(b, s, x[0]) == Step(b, s', x[0])
    ensures Bytes(b, s, x) == Bytes(b, s', x)
  {
    hide Step;
  }

  // ----- Behind a boundary -----

  lemma {:induction false} BoundaryGives(b: string, s: Scan, x: string)
    requires b != "" && '\r' !in b && s.held == "" && s.state == PartDataAlmostEnd
    ensures Gives(b, s, x, BoundaryMeans(b, x, s.trace))
    decreases |x|, 1
  {
    hide Emit, Bytes, LinesMean, Gives;
    if x == "" {
      GivesNothing(b, s);
    } else if x[0] == '-' {
      var s1 := s.(state := PartDataFinalHyphen);
      var t' := Emit(s.trace, Note(OnBodyEnd));
      if |x| > 1 && x[1] == '-' {
        AnythingGoes(b, s1.(state := End, trace := t'), x[2..]);
        assert x[1..][1..] == x[2..];
      }
      Expected(b, s1, x[1..], '-', s1.(state := End, trace := t'), Some(t'));
      GivesNext(b, s, x, s1, BoundaryMeans(b, x, s.trace));
    } else if x[0] == '\r' {
      var s1, t' := s.(state := PartDataEnd), Emit(s.trace, Note(OnPartDataBegin));
      var s2 := s1.(state := HeaderFieldStart, trace := t');
      if |x| > 1 && x[1] == '\n' {
        LinesGive(b, s2, x[2..]);
        assert x[1..][1..] == x[2..];
      }
      Expected(b, s1, x[1..], '\n', s2, LinesMean(b, if |x| > 1 then x[2..] else "", t'));
      GivesNext(b, s, x, s1, BoundaryMeans(b, x, s.trace));
    } else {
      Refused(b, s, x);
    }
  }

  lemma AnythingGoes(b: string, s: Scan, x: string)
    requires b != "" && s.held == "" && s.state == End
    ensures Gives(b, s, x, Some(s.trace))
  {
    AtEndStays(b, s, x);
  }

  // ----- The first line -----

  lemma LineFeedGives(b: string, s: Scan, x: string)
    requires b != "" && '\r' !in b && s.state == StartBoundary && s.index == |b| + 1 && s.held == "" && s.trace == []
    requires x != "" && x[0] == '\n'
    ensures Gives(b, s, x, LinesMean(b, x[1..], [Note(OnPartDataBegin)]))
  {
    hide Bytes, LinesMean, Gives;
    var s1 := s.(state := HeaderFieldStart, index := 0, trace := [Note(OnPartDataBegin)]);
    LinesGive(b, s1, x[1..]);
    GivesNext(b, s, x, s1, LinesMean(b, x[1..], [Note(OnPartDataBegin)]));
  }

  lemma {:induction false} FirstLineGives(b: string, s: Scan, x: string, i: nat)
    requires b != "" && '\r' !in b && s.state == StartBoundary && s.index == i <= |b| + 1 && s.held == ""
             && s.trace == []
    ensures var line := (b + "\r\n")[i..];
            Gives(b, s, x, if line <= x then LinesMean(b, x[|line|..], [Note(OnPartDataBegin)])
                           else if x <= line then Some([]) else None)
    decreases |x|
  {
    hide Emit, Bytes, LinesMean, Gives;
    var line := (b + "\r\n")[i..];
    var m := if line <= x then LinesMean(b, x[|line|..], [Note(OnPartDataBegin)])
             else if x <= line then Some([]) else None;
    if x == "" {
      GivesNothing(b, s);
    } else if x[0] != line[0] {
      Refused(b, s, x);
    } else if i == |b| + 1 {
      LineFeedGives(b, s, x);
    } else {
      var line' := (b + "\r\n")[i + 1..];
      assert line == [line[0]] + line' && x == [x[0]] + x[1..];
      assert line <= x <==> line' <= x[1..];
      assert x <= line <==> x[1..] <= line';
      FirstLineGives(b, s.(index := i + 1), x[1..], i + 1);
      assert line <= x ==> x[|line|..] == x[1..][|line'|..];
      GivesNext(b, s, x, s.(index := i + 1), m);
    }
  }

  /**
   A text in one buffer is taken exactly when it has a meaning, and the callbacks are those of its meaning.
   */
  lemma TextIsMeant(b: string, x: string)
    requires b != "" && '\r' !in b
    ensures match Buffer(b, Init, x)
            case Accepted(s) => Meaning(b, x) == Some(s.trace)
            case Rejected(_) => Meaning(b, x) == None
  {
    hide Emit, LinesMean;
    var s := Init.(state := StartBoundary);
    assert (b + "\r\n")[0..] == b + "\r\n";
    FirstLineGives(b, s, x, 0);
    if x != "" {
      SameFirst(b, Init, s, x);
    }
  }
}
