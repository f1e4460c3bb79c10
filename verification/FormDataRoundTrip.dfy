/** Form data that the printer wrote is read back exactly. */
module FormDataRoundTrip {
  import opened Options
  import opened Traces
  import opened StringUtils
  import opened Multipart
  import opened MultipartTheorems
  import opened MultipartTexts
  import opened FormData

  // ----- The printed text, part by part -----

  function HeaderLine(name: string, value: string): string {
    HeaderText(name, value) + CRLF
  }

  function HeadText(p: Part): string {
    HeaderLine("Content-Disposition", DispositionText(p))
    + (if p.File? then HeaderLine("Content-Type", p.contentType) else "")
  }

  /** What follows a boundary. */
  function AfterBoundary(parts: seq<Part>, boundary: string): string {
    if parts == [] then "--" + CRLF else
      CRLF + (HeadText(parts[0]) + CRLF + (parts[0].value + Delimiter("--" + boundary)
        + AfterBoundary(parts[1..], boundary)))
  }

  lemma {:induction false} JoinAppend(a: seq<string>, b: seq<string>, sep: string)
    requires a != [] && b != []
    ensures JoinWith(a + b, sep) == JoinWith(a, sep) + sep + JoinWith(b, sep)
  {
    if |a| == 1 {
      assert (a + b)[1..] == b;
    } else {
      assert (a + b)[1..] == a[1..] + b;
      JoinAppend(a[1..], b, sep);
    }
  }

  lemma {:induction false} PartsLinesCons(parts: seq<Part>, boundary: string)
    requires parts != []
    ensures PartsLines(parts, boundary) == PartLines(parts[0], boundary) + PartsLines(parts[1..], boundary)
  {
    hide PartLines;
    var front, last := parts[..|parts| - 1], parts[|parts| - 1];
    if front != [] {
      PartsLinesCons(front, boundary);
      assert parts[1..][..|parts| - 2] == front[1..];
    }
  }

  lemma JoinPart(p: Part, boundary: string)
    ensures JoinWith(PartLines(p, boundary), CRLF) == "--" + boundary + CRLF + HeadText(p) + CRLF + p.value
  {
    hide HeaderText, DispositionText;
    var b, d := "--" + boundary, HeaderText("Content-Disposition", DispositionText(p));
    var tail := ["", p.value];
    assert JoinWith(tail, CRLF) == "" + CRLF + p.value by {
      assert tail[1..] == [p.value];
    }
    if p.File? {
      var t := HeaderText("Content-Type", p.contentType);
      assert PartLines(p, boundary) == [b] + ([d] + ([t] + tail));
      JoinAppend([t], tail, CRLF);
      JoinAppend([d], [t] + tail, CRLF);
      JoinAppend([b], [d] + ([t] + tail), CRLF);
    } else {
      assert PartLines(p, boundary) == [b] + ([d] + tail);
      JoinAppend([d], tail, CRLF);
      JoinAppend([b], [d] + tail, CRLF);
    }
  }

  lemma {:induction false} PrintedText(parts: seq<Part>, boundary: string)
    ensures JoinWith(AllLines(parts, boundary), CRLF) == "--" + boundary + AfterBoundary(parts, boundary)
  {
    hide PartLines, HeadText, JoinWith, AllLines, Delimiter;
    if parts == [] {
      JoinClosing(boundary);
      AllLinesNil(boundary);
    } else {
      var p, rest := parts[0], AllLines(parts[1..], boundary);
      AllLinesCons(parts, boundary);
      PartLinesNonempty(p, boundary);
      JoinAppend(PartLines(p, boundary), rest, CRLF);
      JoinPart(p, boundary);
      PrintedText(parts[1..], boundary);
      Regroup("--" + boundary, HeadText(p), p.value, AfterBoundary(parts[1..], boundary));
    }
  }

  lemma Regroup(b: string, head: string, value: string, after: string)
    ensures (b + CRLF + head + CRLF + value) + CRLF + (b + after)
         == b + (CRLF + (head + CRLF + (value + Delimiter(b) + after)))
  {
  }

  lemma AllLinesCons(parts: seq<Part>, boundary: string)
    requires parts != []
    ensures AllLines(parts, boundary) == PartLines(parts[0], boundary) + AllLines(parts[1..], boundary)
  {
    hide PartLines;
    PartsLinesCons(parts, boundary);
  }

  lemma PartLinesNonempty(p: Part, boundary: string)
    ensures PartLines(p, boundary) != [] && forall parts :: AllLines(parts, boundary) != []
  {
  }

  lemma AllLinesNil(boundary: string)
    ensures AllLines([], boundary) == ["--" + boundary + "--", ""]
  {
  }

  lemma JoinClosing(boundary: string)
    ensures JoinWith(["--" + boundary + "--", ""], CRLF) == "--" + boundary + ("--" + CRLF)
  {
    assert ["--" + boundary + "--", ""][1..] == [""];
  }

  // ----- The printed text, letter by letter -----

  /** The header lines of a part, without the last line end. */
  function HeadersText(p: Part): string {
    match p
    case Field(name, _) => "Content-Disposition: form-data; name=\"" + name + "\""
    case File(name, filename, contentType, _) =>
      ("Content-Disposition: form-data; name=\"" + name + "\"; filename=\"" + filename + "\"") + "\r\n"
      + ("Content-Type: " + contentType)
  }

  function PartText(p: Part, boundary: string): string {
    "--" + boundary + "\r\n" + HeadersText(p) + "\r\n" + "\r\n" + p.value + "\r\n"
  }

  function BodyText(parts: seq<Part>, boundary: string): string {
    if parts == [] then "--" + boundary + "--\r\n" else PartText(parts[0], boundary) + BodyText(parts[1..], boundary)
  }

  lemma FieldDisposition(p: Part)
    requires p.Field?
    ensures HeaderText("Content-Disposition", DispositionText(p))
            == "Content-Disposition: form-data; name=\"" + p.name + "\""
  {
  }

  lemma HeadersAreText(p: Part)
    ensures HeadText(p) == HeadersText(p) + "\r\n"
  {
    hide DispositionText, HeaderText;
    if p.File? {
      FileDisposition(p);
      FileContentType(p);
      TwoLines(HeaderText("Content-Disposition", DispositionText(p)), HeaderText("Content-Type", p.contentType));
    } else {
      FieldDisposition(p);
      assert HeadText(p) == HeaderText("Content-Disposition", DispositionText(p)) + CRLF + "";
    }
  }

  lemma TwoLines(a: string, b: string)
    ensures (a + CRLF) + (b + CRLF) == (a + "\r\n" + b) + "\r\n"
  {
  }

  lemma PartIsText(p: Part, boundary: string)
    ensures "--" + boundary + CRLF + HeadText(p) + CRLF + p.value + CRLF == PartText(p, boundary)
  {
    hide HeadText, HeadersText;
    HeadersAreText(p);
  }

  /** What the printer writes. */
  lemma {:induction false} BodyIsText(parts: seq<Part>, boundary: string)
    ensures JoinWith(AllLines(parts, boundary), CRLF) == BodyText(parts, boundary)
  {
    hide PartLines, HeadText, JoinWith, AllLines, PartText;
    if parts == [] {
      JoinClosing(boundary);
      AllLinesNil(boundary);
    } else {
      var p, rest := parts[0], AllLines(parts[1..], boundary);
      AllLinesCons(parts, boundary);
      PartLinesNonempty(p, boundary);
      JoinAppend(PartLines(p, boundary), rest, CRLF);
      JoinPart(p, boundary);
      PartIsText(p, boundary);
      BodyIsText(parts[1..], boundary);
    }
  }

  // ----- Reading single lines -----

  lemma ReadLineEnd(b: string, s: Scan, s1: Scan, s2: Scan, rest: string)
    requires b != "" && Valid(b, s)
    requires Step(b, s, '\r') == Accepted(s1) && Step(b, s1, '\n') == Accepted(s2)
    ensures Bytes(b, s, CRLF + rest) == Bytes(b, s2, rest)
  {
    hide Step;
    var x := CRLF + rest;
    assert x[0] == '\r' && x[1..][0] == '\n' && x[1..][1..] == rest;
  }

  lemma {:induction false} ReadBoundaryLine(b: string, i: nat, rest: string)
    requires b != "" && i <= |b|
    ensures Bytes(b, Init.(state := StartBoundary, index := i), b[i..] + CRLF + rest)
         == Bytes(b, Init.(state := HeaderFieldStart, trace := [Note(OnPartDataBegin)]), rest)
    decreases |b| - i
  {
    var x := b[i..] + CRLF + rest;
    var s := Init.(state := StartBoundary, index := i);
    if i == |b| {
      assert x == CRLF + rest;
      var end := Init.(state := HeaderFieldStart, trace := [Note(OnPartDataBegin)]);
      ReadLineEnd(b, s, s.(index := i + 1), end, rest);
    } else {
      assert x[0] == b[i] && x[1..] == b[i + 1..] + CRLF + rest;
      ReadBoundaryLine(b, i + 1, rest);
    }
  }

  lemma {:induction false} ReadName(b: string, s: Scan, name: string, rest: string)
    requires b != "" && Valid(b, s) && s.state == HeaderField && forall c <- name ::
             IsNameByte(c) && c != ':' && c != '\r'
    ensures Bytes(b, s, name + ":" + rest) == Bytes(b,
      s.(state := HeaderValueStart, held := "", named := s.named || name != "",
        trace := Emit(s.trace, Data(OnHeaderField, s.held + name))), rest)
    decreases |name|
  {
    hide Emit;
    var x := name + ":" + rest;
    if name == "" {
      assert x[1..] == rest && s.held + name == s.held;
    } else {
      assert x[0] == name[0] && x[1..] == name[1..] + ":" + rest;
      assert s.held + [name[0]] + name[1..] == s.held + name;
      assert forall c <- name[1..] :: c in name;
      var s1 := s.(held := s.held + [name[0]], named := true);
      assert Step(b, s, x[0]) == Accepted(s1) by {
        assert name[0] in name;
      }
      ReadName(b, s1, name[1..], rest);
    }
  }

  lemma {:induction false} ReadValue(b: string, s: Scan, v: string, rest: string)
    requires b != "" && s.held == "" && s.state == HeaderValue && '\r' !in v
    ensures Bytes(b, s, v + CRLF + rest)
            == Bytes(b, s.(state := HeaderFieldStart, trace := Emit(s.trace, Data(OnHeaderValue, v))), rest)
    decreases |v|
  {
    hide Emit;
    var x := v + CRLF + rest;
    if v == "" {
      assert x == CRLF + rest;
      var s1 := s.(state := HeaderValueAlmostDone, trace := Emit(s.trace, Data(OnHeaderValue, "")));
      ReadLineEnd(b, s, s1, s1.(state := HeaderFieldStart), rest);
    } else {
      assert x[0] == v[0] && x[1..] == v[1..] + CRLF + rest;
      EmitPieces(s.trace, OnHeaderValue, [v[0]], v[1..]);
      assert [v[0]] + v[1..] == v;
      ReadValue(b, s.(trace := Emit(s.trace, Data(OnHeaderValue, [v[0]]))), v[1..], rest);
    }
  }

  lemma {:induction false} ReadValueTrimmed(b: string, s: Scan, v: string, rest: string)
    requires b != "" && s.held == "" && s.state == HeaderValueStart && '\r' !in v
    ensures Bytes(b, s, v + CRLF + rest)
            == Bytes(b, s.(state := HeaderFieldStart, trace := Emit(s.trace, Data(OnHeaderValue, TrimLeft(v)))), rest)
    decreases |v|
  {
    hide Emit;
    var x := v + CRLF + rest;
    if v != "" && v[0] == ' ' {
      assert x[1..] == v[1..] + CRLF + rest;
      ReadValueTrimmed(b, s, v[1..], rest);
    } else {
      assert Step(b, s, x[0]) == Step(b, s.(state := HeaderValue), x[0]);
      ReadValue(b, s.(state := HeaderValue), v, rest);
    }
  }

  lemma ReadHeaderLine(b: string, s: Scan, name: string, v: string, rest: string)
    requires b != "" && s.held == "" && s.state == HeaderFieldStart && name != ""
    requires (forall c <- name :: IsNameByte(c) && c != ':' && c != '\r') && '\r' !in v
    ensures Bytes(b, s, name + ": " + v + CRLF + rest) == Bytes(b,
      s.(named := true, trace := Emit(Emit(s.trace, Data(OnHeaderField, name)), Data(OnHeaderValue, TrimLeft(v)))),
        rest)
  {
    hide Emit;
    var x := name + ": " + v + CRLF + rest;
    var s1 := s.(state := HeaderField, named := false);
    assert Step(b, s, x[0]) == Step(b, s1, x[0]);
    assert x == name + ":" + (" " + v + CRLF + rest);
    assert "" + name == name;
    ReadName(b, s1, name, " " + v + CRLF + rest);
    var s2 := s.(state := HeaderValueStart, named := true, trace := Emit(s.trace, Data(OnHeaderField, name)));
    assert (" " + v)[1..] == v;
    ReadValueTrimmed(b, s2, " " + v, rest);
  }

  lemma ReadBlankLine(b: string, s: Scan, rest: string)
    requires b != "" && s.held == "" && s.state == HeaderFieldStart
    ensures Bytes(b, s, CRLF + rest) == Bytes(b, s.(state := PartDataStart, named := false), rest)
  {
    var s1 := s.(state := HeadersAlmostDone, named := false);
    ReadLineEnd(b, s, s1, s1.(state := PartDataStart), rest);
  }

  // ----- Reading one part -----

  function LineTrace(name: string, value: string): Trace {
    [Data(OnHeaderField, name), Data(OnHeaderValue, TrimLeft(value))]
  }

  function HeadTrace(p: Part): Trace {
    LineTrace("Content-Disposition", DispositionText(p))
    + (if p.File? then LineTrace("Content-Type", p.contentType) else [])
  }

  /** The callbacks that one printed part leads to. */
  function PartTrace(p: Part): Trace {
    HeadTrace(p) + [Note(OnPartHeadersComplete), Data(OnPartData, p.value), Note(OnPartDataEnd)]
  }

  ghost predicate EndsInNote(t: Trace) {
    t != [] && t[|t| - 1].Note?
  }

  ghost predicate Printable(p: Part, boundary: string) {
    && (forall c <- [';', '=', '\r'] :: c !in p.name && (p.File? ==> c !in p.filename))
    && (p.File? ==> '\r' !in p.contentType)
    && forall q: nat :: !OccursAt(p.value, Delimiter("--" + boundary), q)
  }

  /** Before a delimiter, text without one: the first occurrence is that delimiter. */
  lemma DelimiterIsFirst(value: string, b: string, rest: string)
    requires '\r' !in b && forall q: nat :: !OccursAt(value, Delimiter(b), q)
    ensures FirstAt(value + Delimiter(b) + rest, Delimiter(b), |value|)
  {
    var d := Delimiter(b);
    var x := value + d + rest;
    assert x[|value|..|value| + |d|] == d;
    forall q: nat | q < |value| ensures !OccursAt(x, d, q) {
      if q + |d| <= |value| {
        assert x[q..q + |d|] == value[q..q + |d|];
        assert !OccursAt(value, d, q);
      } else {
        OccurrenceByte(x, d, q, |value| - q);
        assert x[|value|] == '\r' != d[|value| - q];
      }
    }
  }

  lemma ReadFreshHeaderLine(b: string, s: Scan, name: string, v: string, rest: string)
    requires b != "" && s.held == "" && s.state == HeaderFieldStart && name != "" && !EndsIn(s.trace, OnHeaderField)
    requires (forall c <- name :: IsNameByte(c) && c != ':' && c != '\r') && '\r' !in v
    ensures Bytes(b, s, HeaderLine(name, v) + rest)
         == Bytes(b, s.(named := true, trace := s.trace + LineTrace(name, v)), rest)
    ensures !EndsIn(s.trace + LineTrace(name, v), OnHeaderField)
  {
    hide Bytes;
    assert HeaderLine(name, v) + rest == name + ": " + v + CRLF + rest;
    ReadHeaderLine(b, s, name, v, rest);
    assert Emit(Emit(s.trace, Data(OnHeaderField, name)), Data(OnHeaderValue, TrimLeft(v)))
           == s.trace + LineTrace(name, v);
  }

  lemma ReadHead(b: string, s: Scan, p: Part, rest: string)
    requires b != "" && s.held == "" && s.state == HeaderFieldStart && !EndsIn(s.trace, OnHeaderField)
    requires '\r' !in DispositionText(p) && (p.File? ==> '\r' !in p.contentType)
    ensures Bytes(b, s, HeadText(p) + (CRLF + rest))
         == Bytes(b, s.(state := PartDataStart, named := false, trace := s.trace + HeadTrace(p)), rest)
  {
    hide Step, Bytes, TrimLeft, DispositionText, HeaderLine, LineTrace;
    var t1 := s.trace + LineTrace("Content-Disposition", DispositionText(p));
    var s1 := s.(named := true, trace := t1);
    var line1 := HeaderLine("Content-Disposition", DispositionText(p));
    if p.File? {
      var line2 := HeaderLine("Content-Type", p.contentType);
      assert HeadText(p) + (CRLF + rest) == line1 + (line2 + (CRLF + rest));
      ReadFreshHeaderLine(b, s, "Content-Disposition", DispositionText(p), line2 + (CRLF + rest));
      ReadFreshHeaderLine(b, s1, "Content-Type", p.contentType, CRLF + rest);
      assert t1 + LineTrace("Content-Type", p.contentType) == s.trace + HeadTrace(p);
      ReadBlankLine(b, s1.(trace := s.trace + HeadTrace(p)), rest);
    } else {
      assert HeadText(p) == line1;
      ReadFreshHeaderLine(b, s, "Content-Disposition", DispositionText(p), CRLF + rest);
      assert t1 == s.trace + HeadTrace(p);
      ReadBlankLine(b, s1, rest);
    }
  }

  lemma ReadPart(boundary: string, s: Scan, p: Part, rest: string)
    requires '\r' !in boundary && s.held == "" && s.state == HeaderFieldStart && EndsInNote(s.trace)
             && Printable(p, boundary)
    ensures var b := "--" + boundary;
            Bytes(b, s, HeadText(p) + CRLF + (p.value + Delimiter(b) + rest)) == Bytes(b,
              s.(state := PartDataAlmostEnd, index := |b|, named := false, trace := s.trace + PartTrace(p)), rest)
  {
    hide Bytes, Step, FirstAt, OccursAt, HeadText, HeadTrace, Delimiter, PartTrace, Emit;
    var b := "--" + boundary;
    var x := p.value + Delimiter(b) + rest;
    NoReturn(p, boundary);
    ReadHead(b, s, p, x);
    assert HeadText(p) + (CRLF + x) == HeadText(p) + CRLF + x;
    DelimiterIsFirst(p.value, b, rest);
    var s1 := s.(state := PartDataStart, named := false, trace := s.trace + HeadTrace(p));
    PartDataEndsAtFirstDelimiter(b, s1, x, |p.value|);
    assert x[..|p.value|] == p.value && x[|p.value| + |Delimiter(b)|..] == rest;
    PartTraceIs(s.trace, p);
  }

  lemma PartTraceIs(t: Trace, p: Part)
    requires EndsInNote(t)
    ensures Emit(Emit(Emit(t + HeadTrace(p), Note(OnPartHeadersComplete)), Data(OnPartData, p.value)),
                 Note(OnPartDataEnd))
            == t + PartTrace(p)
  {
    hide HeadTrace;
  }

  lemma NoReturn(p: Part, boundary: string)
    requires Printable(p, boundary)
    ensures '\r' !in DispositionText(p) && (p.File? ==> '\r' !in p.contentType)
    ensures forall q: nat :: !OccursAt(p.value, Delimiter("--" + boundary), q)
  {
    assert '\r' in [';', '=', '\r'];
  }

  /** The callbacks after a boundary. */
  function RestTrace(parts: seq<Part>): Trace {
    if parts == [] then [Note(OnBodyEnd)] else [Note(OnPartDataBegin)] + PartTrace(parts[0]) + RestTrace(parts[1..])
  }

  lemma {:induction false} ReadParts(boundary: string, s: Scan, parts: seq<Part>)
    requires '\r' !in boundary && s.held == "" && s.state == PartDataAlmostEnd && s.index == |boundary| + 2
    requires EndsInNote(s.trace) && !s.named && forall p <- parts :: Printable(p, boundary)
    ensures Bytes("--" + boundary, s, AfterBoundary(parts, boundary))
         == Accepted(s.(state := End, trace := s.trace + RestTrace(parts)))
    decreases |parts|
  {
    hide Step, Bytes, PartTrace, HeadText, Printable, Delimiter, RestTrace, AfterBoundary;
    var b := "--" + boundary;
    if parts == [] {
      NoParts(boundary);
      ReadClosing(b, s);
    } else {
      AfterBoundaryCons(parts, boundary);
      var p := parts[0];
      var s1 := s.(state := HeaderFieldStart, trace := s.trace + [Note(OnPartDataBegin)]);
      var body := HeadText(p) + CRLF + (p.value + Delimiter(b) + AfterBoundary(parts[1..], boundary));
      ReadNextPart(b, s, body);
      ReadPart(boundary, s1, p, AfterBoundary(parts[1..], boundary));
      var s2 := s.(state := PartDataAlmostEnd, index := |b|, named := false, trace := s1.trace + PartTrace(p));
      PartTraceEnds(s1.trace, p);
      ReadParts(boundary, s2, parts[1..]);
      RestTraceCons(s.trace, parts);
    }
  }

  lemma RestTraceCons(t: Trace, parts: seq<Part>)
    requires parts != []
    ensures t + [Note(OnPartDataBegin)] + PartTrace(parts[0]) + RestTrace(parts[1..]) == t + RestTrace(parts)
  {
    hide PartTrace;
  }

  lemma NoParts(boundary: string)
    ensures AfterBoundary([], boundary) == "--" + CRLF && RestTrace([]) == [Note(OnBodyEnd)]
  {
  }

  lemma AfterBoundaryCons(parts: seq<Part>, boundary: string)
    requires parts != []
    ensures AfterBoundary(parts, boundary) == CRLF +
      (HeadText(parts[0]) + CRLF + (parts[0].value + Delimiter("--" + boundary) + AfterBoundary(parts[1..], boundary)))
  {
  }

  lemma PartTraceEnds(t: Trace, p: Part)
    ensures EndsInNote(t + PartTrace(p))
  {
  }

  lemma ReadNextPart(b: string, s: Scan, rest: string)
    requires b != "" && s.held == "" && s.state == PartDataAlmostEnd
    ensures Bytes(b, s, CRLF + rest)
         == Bytes(b, s.(state := HeaderFieldStart, trace := s.trace + [Note(OnPartDataBegin)]), rest)
  {
    var s2 := s.(state := HeaderFieldStart, trace := s.trace + [Note(OnPartDataBegin)]);
    ReadLineEnd(b, s, s.(state := PartDataEnd), s2, rest);
  }

  lemma ReadClosing(b: string, s: Scan)
    requires b != "" && s.held == "" && s.state == PartDataAlmostEnd
    ensures Bytes(b, s, "--" + CRLF) == Accepted(s.(state := End, trace := s.trace + [Note(OnBodyEnd)]))
  {
    var x := "--" + CRLF;
    var end := s.(state := End, trace := s.trace + [Note(OnBodyEnd)]);
    ReadLineEnd(b, end, end, end, "");
    assert x[1..][1..] == CRLF + "" && x[1..][0] == '-';
    assert Step(b, s.(state := PartDataFinalHyphen), '-') == Accepted(end);
  }

  lemma ReadBody(boundary: string, parts: seq<Part>)
    requires '\r' !in boundary && parts != [] && forall p <- parts :: Printable(p, boundary)
    ensures var b := "--" + boundary;
            Buffer(b, Init, b + AfterBoundary(parts, boundary)) ==
              Accepted(Scan(End, |b|, RestTrace(parts), "", false, false))
  {
    hide Step, PartTrace, HeadText, Printable, Delimiter;
    var b := "--" + boundary;
    var p := parts[0];
    var rest := HeadText(p) + CRLF + (p.value + Delimiter(b) + AfterBoundary(parts[1..], boundary));
    var s1 := Init.(state := HeaderFieldStart, trace := [Note(OnPartDataBegin)]);
    assert b + AfterBoundary(parts, boundary) == b[0..] + CRLF + rest;
    StartIsStartBoundary(b, b + AfterBoundary(parts, boundary));
    ReadBoundaryLine(b, 0, rest);
    ReadPart(boundary, s1, p, AfterBoundary(parts[1..], boundary));
    PartTraceEnds(s1.trace, p);
    ReadParts(boundary, Scan(PartDataAlmostEnd, |b|, s1.trace + PartTrace(p), "", false, false), parts[1..]);
    assert s1.trace + PartTrace(p) + RestTrace(parts[1..]) == RestTrace(parts);
  }

  lemma StartIsStartBoundary(b: string, x: string)
    requires b != "" && x != ""
    ensures Bytes(b, Init, x) == Bytes(b, Init.(state := StartBoundary, index := 0), x)
  {
  }

  // ----- Handling one part -----

  function ItemOf(p: Part): FileItem {
    match p
    case Field(name, value) => FileItem(false, true, "", name, "", value)
    case File(name, filename, contentType, value) => FileItem(true, true, TrimLeft(contentType), name, filename, value)
  }

  lemma DispositionValueOf(key: string, value: string)
    requires '=' !in key && '=' !in value
    ensures DispositionValue(Quoted(key, value)) == Some(value)
  {
    hide Split;
    var quoted := "\"" + value + "\"";
    assert Quoted(key, value) == key + ['='] + quoted;
    SplitTwo(key, quoted, '=');
    assert quoted[1..|quoted| - 1] == value;
    if value == "" {
      assert quoted == "\"\"";
    }
  }

  lemma QuotedFree(key: string, value: string, c: char)
    requires c !in key && c !in value && c != '=' && c != '\"'
    ensures c !in Quoted(key, value) && Quoted(key, value) != ""
  {
  }

  lemma DispositionOf(p: Part)
    requires forall c <- [';', '='] :: c !in p.name && (p.File? ==> c !in p.filename)
    ensures Disposition(DispositionText(p), NewItem) ==
      Some(NewItem.(name := p.name, isFile := p.File?, filename := if p.File? then p.filename else ""))
  {
    hide Split, DispositionValue, Quoted;
    assert ';' in [';', '='] && '=' in [';', '='];
    DispositionValueOf(" name", p.name);
    QuotedFree(" name", p.name, ';');
    if p.File? {
      DispositionValueOf(" filename", p.filename);
      QuotedFree(" filename", p.filename, ';');
      SplitThree("form-data", Quoted(" name", p.name), Quoted(" filename", p.filename), ';');
    } else {
      SplitTwo("form-data", Quoted(" name", p.name), ';');
    }
  }

  lemma HandleTwo(f: Form, a: Event, b: Event)
    ensures HandleAll(f, [a, b]) == match Handle(f, a) case None => None case Some(f') => Handle(f', b)
  {
    HandleAppend(f, [a], [b]);
    assert [a] + [b] == [a, b];
    HandleOne(f, a);
    if Handle(f, a).Some? {
      HandleOne(Handle(f, a).value, b);
    }
  }

  lemma HandleHead(f: Form, p: Part)
    requires forall c <- [';', '='] :: c !in p.name && (p.File? ==> c !in p.filename)
    ensures HandleAll(f, HeadTrace(p)) == Some(f.(items := f.items + [ItemOf(p).(parsed := p.File?, data := "")]))
  {
    hide HandleAll, Disposition, DispositionText;
    var item := NewItem.(name := p.name, isFile := p.File?, filename := if p.File? then p.filename else "");
    var disp := DispositionText(p);
    TrimDisposition(p);
    DispositionOf(p);
    HandleTwo(f, Data(OnHeaderField, "Content-Disposition"), Data(OnHeaderValue, disp));
    assert (f.items + [NewItem])[|f.items| := item] == f.items + [item];
    if p.File? {
      var f1 := f.(items := f.items + [item]);
      HandleTwo(f1, Data(OnHeaderField, "Content-Type"), Data(OnHeaderValue, TrimLeft(p.contentType)));
      HandleAppend(f, LineTrace("Content-Disposition", disp), LineTrace("Content-Type", p.contentType));
      var last := item.(parsed := true, contentType := TrimLeft(p.contentType));
      assert (f.items + [item])[|f.items| := item.(parsed := true)][|f.items| := last] == f.items + [last];
    } else {
      assert LineTrace("Content-Disposition", disp) + [] == LineTrace("Content-Disposition", disp);
    }
  }

  lemma TrimDisposition(p: Part)
    ensures TrimLeft(DispositionText(p)) == DispositionText(p)
  {
  }

  lemma HandlePart(f: Form, p: Part)
    requires forall c <- [';', '='] :: c !in p.name && (p.File? ==> c !in p.filename)
    ensures HandleAll(f, PartTrace(p)) == Some(f.(items := f.items + [ItemOf(p)]))
  {
    hide HandleAll, HeadTrace, TrimLeft;
    HandleHead(f, p);
    var item := ItemOf(p).(parsed := p.File?, data := "");
    var f1 := f.(items := f.items + [item]);
    var tail := [Note(OnPartHeadersComplete), Data(OnPartData, p.value), Note(OnPartDataEnd)];
    HandleAppend(f, HeadTrace(p), tail);
    assert [Note(OnPartHeadersComplete), Data(OnPartData, p.value)] + [Note(OnPartDataEnd)] == tail;
    HandleAppend(f1, [Note(OnPartHeadersComplete), Data(OnPartData, p.value)], [Note(OnPartDataEnd)]);
    HandleTwo(f1, Note(OnPartHeadersComplete), Data(OnPartData, p.value));
    var f2 := f.(items := f.items + [item.(data := p.value)]);
    assert "" + p.value == p.value;
    assert (f.items + [item])[|f.items| := item.(data := p.value)] == f2.items;
    HandleOne(f2, Note(OnPartDataEnd));
    assert f2.items[|f.items| := ItemOf(p)] == f.items + [ItemOf(p)];
  }

  function ItemsOf(parts: seq<Part>): seq<FileItem> {
    seq(|parts|, i requires 0 <= i < |parts| => ItemOf(parts[i]))
  }

  lemma {:induction false} HandleParts(f: Form, parts: seq<Part>, boundary: string)
    requires forall p <- parts :: Printable(p, boundary)
    ensures var items := f.items + ItemsOf(parts);
            HandleAll(f, RestTrace(parts)) == Some(Form(items, f.params + Params(items)))
    decreases |parts|
  {
    hide HandleAll, PartTrace, ItemOf;
    if parts == [] {
      HandleOne(f, Note(OnBodyEnd));
      assert f.items + ItemsOf(parts) == f.items;
    } else {
      var p := parts[0];
      var f1 := f.(items := f.items + [ItemOf(p)]);
      HandleAppend(f, [Note(OnPartDataBegin)] + PartTrace(p), RestTrace(parts[1..]));
      HandleAppend(f, [Note(OnPartDataBegin)], PartTrace(p));
      HandleOne(f, Note(OnPartDataBegin));
      SeparatorFree(p, boundary);
      HandlePart(f, p);
      HandleParts(f1, parts[1..], boundary);
      assert f.items + [ItemOf(p)] + ItemsOf(parts[1..]) == f.items + ItemsOf(parts);
    }
  }

  lemma SeparatorFree(p: Part, boundary: string)
    requires Printable(p, boundary)
    ensures forall c <- [';', '='] :: c !in p.name && (p.File? ==> c !in p.filename)
  {
    assert forall c <- [';', '='] :: c in [';', '=', '\r'];
  }

  // ----- The round trip -----

  lemma BoundaryIsRecovered(boundary: string)
    requires boundary != "" && forall c <- [';', '=', '\0'] :: c !in boundary
    ensures BoundaryOf("multipart/form-data; boundary=" + boundary) == Some("--" + boundary)
  {
    hide Split;
    assert ';' in [';', '=', '\0'] && '=' in [';', '=', '\0'] && '\0' in [';', '=', '\0'];
    var t0, t1 := "multipart/form-data", " boundary=" + boundary;
    assert "multipart/form-data; boundary=" + boundary == t0 + [';'] + t1;
    SplitTwo(t0, t1, ';');
    assert t1 == " boundary" + ['='] + boundary;
    SplitTwo(" boundary", boundary, '=');
    FindUnique("--" + boundary, '\0', |"--" + boundary|);
    assert ("--" + boundary)[..|"--" + boundary|] == "--" + boundary;
  }

  /**
   A form that holds the fields and then the files: their names, file names and data, the content types
   without leading blanks, which the parser skips, and as parameters the names with the data.
   */
  ghost predicate IsFormOf(form: Form, fields: seq<(string, string)>, files: seq<(string, string, string)>,
      guess: string -> string)
  {
    && |form.items| == |fields| + |files| && |form.params| == |fields| + |files|
    && (forall i | 0 <= i < |fields| ::
          && form.items[i] == FileItem(false, true, "", fields[i].0, "", fields[i].1)
          && form.params[i] == (fields[i].0, fields[i].1))
    && (forall j | 0 <= j < |files| ::
          && form.items[|fields| + j]
             == FileItem(true, true, TrimLeft(guess(files[j].1)), files[j].0, files[j].1, files[j].2)
          && form.params[|fields| + j] == (files[j].0, files[j].2))
  }

  lemma ItemsAreForm(fields: seq<(string, string)>, files: seq<(string, string, string)>, guess: string -> string)
    ensures var items := ItemsOf(FieldParts(fields) + FileParts(files, guess));
            IsFormOf(Form(items, Params(items)), fields, files, guess)
  {
    hide TrimLeft;
    var parts := FieldParts(fields) + FileParts(files, guess);
    forall i | 0 <= i < |fields| ensures parts[i] == Field(fields[i].0, fields[i].1) {
    }
    forall j | 0 <= j < |files|
      ensures parts[|fields| + j] == File(files[j].0, files[j].1, guess(files[j].1), files[j].2)
    {
    }
  }

  /** What can be printed so that it can be read. */
  ghost predicate CanPrint(fields: seq<(string, string)>, files: seq<(string, string, string)>, boundary: string,
      guess: string -> string)
  {
    && boundary != "" && (forall c <- [';', '=', '\r', '\0'] :: c !in boundary) && (fields != [] || files != [])
    && forall p <- FieldParts(fields) + FileParts(files, guess) :: Printable(p, boundary)
  }

  /** The printed text, read as one buffer. */
  lemma PrintedIsRead(fields: seq<(string, string)>, files: seq<(string, string, string)>, boundary: string,
      guess: string -> string)
    requires CanPrint(fields, files, boundary, guess)
    ensures var text := JoinWith(AllLines(FieldParts(fields) + FileParts(files, guess), boundary), CRLF);
            && text != "" && BoundaryOf("multipart/form-data; boundary=" + boundary) == Some("--" + boundary)
            && var r := Buffer("--" + boundary, Init, text);
            && r.Accepted?
            && var form := HandleAll(EmptyForm, r.scan.trace);
            form.Some? && IsFormOf(form.value, fields, files, guess)
  {
    hide AllLines, JoinWith, Printable, ItemsOf, Params, AfterBoundary, RestTrace, IsFormOf, Buffer, HandleAll;
    var parts := FieldParts(fields) + FileParts(files, guess);
    assert forall c <- [';', '=', '\0'] :: c in [';', '=', '\r', '\0'];
    assert '\r' in [';', '=', '\r', '\0'];
    PrintedText(parts, boundary);
    BoundaryIsRecovered(boundary);
    ReadBody(boundary, parts);
    HandleParts(EmptyForm, parts, boundary);
    ItemsAreForm(fields, files, guess);
    assert EmptyForm.items + ItemsOf(parts) == ItemsOf(parts);
    assert EmptyForm.params + Params(ItemsOf(parts)) == Params(ItemsOf(parts));
  }

  /**
   Prints fields and files and reads the text back: names, file names, content types (without leading
   blanks, which the parser skips) and data come back, all and in order, and so do the parameters.
   */
  method PrintAndRead(fields: seq<(string, string)>, files: seq<(string, string, string)>, boundary: string,
      guess: string -> string)
    returns (ret: int, form: Form)
    requires CanPrint(fields, files, boundary, guess)
    ensures ret == 0 && IsFormOf(form, fields, files, guess)
  {
    hide AllLines, JoinWith, CanPrint, Params, IsFormOf, Buffer, HandleAll, BoundaryOf;
    PrintedIsRead(fields, files, boundary, guess);
    var contentType, text := EncodeMultipartFormData(fields, files, boundary, guess);
    var body := new RequestBody(text);
    ret := body.ParseMultipartData(contentType);
    form := body.form;
  }
}
