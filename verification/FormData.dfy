/**
 Form data: the printer for multipart/form-data, and the request body that reads it back through the
 callbacks of the multipart parser.
 */
module FormData {
  import opened Options
  import opened Traces
  import opened StringUtils
  import opened Multipart

  const CRLF: string := "\r\n"

  // ----- Reading -----

  /** One item of the body; `parsed` is the parse state, which the source keeps in a `bool`. */
  datatype FileItem = FileItem(isFile: bool, parsed: bool, contentType: string, name: string, filename: string,
    data: string)

  const NewItem := FileItem(false, false, "", "", "", "")

  /** The items read so far and the parameters made of them at the end. */
  datatype Form = Form(items: seq<FileItem>, params: seq<(string, string)>)

  const EmptyForm := Form([], [])

  /** The quoted value of `key="value"`; none where the source gives an error or throws. */
  function DispositionValue(input: string): Option<string> {
    var tokens := Split(input, '=');
    if |tokens| != 2 then None
    else if tokens[1] == "\"\"" then Some("")
    else if |tokens[1]| <= 2 then None
    else Some(tokens[1][1..|tokens[1]| - 1])
  }

  /** Reads a value like `form-data; name="files"; filename="a.cc"` into an item. */
  function Disposition(input: string, item: FileItem): Option<FileItem> {
    var tokens := Split(input, ';');
    if |tokens| < 2 then None else
      match DispositionValue(tokens[1])
      case None => None
      case Some(name) =>
        if |tokens| < 3 then Some(item.(name := name)) else
          match DispositionValue(tokens[2])
          case None => None
          case Some(filename) => Some(item.(name := name, isFile := true, filename := filename))
  }

  function Params(items: seq<FileItem>): seq<(string, string)> {
    seq(|items|, i requires 0 <= i < |items| => (items[i].name, items[i].data))
  }

  /** What one callback does to the form; none when the callback reports an error. */
  function Handle(f: Form, e: Event): Option<Form> {
    var n := |f.items|;
    match e
    case Data(OnHeaderField, s) =>
      if s == "Content-Disposition" then Some(f.(items := f.items + [NewItem]))
      else if s == "Content-Type" then
        if n == 0 then None else Some(f.(items := f.items[n - 1 := f.items[n - 1].(parsed := true)]))
      else Some(f)
    case Data(OnHeaderValue, s) =>
      if n == 0 then None
      else if f.items[n - 1].parsed then Some(f.(items := f.items[n - 1 := f.items[n - 1].(contentType := s)]))
      else
        (match Disposition(s, f.items[n - 1])
         case None => None
         case Some(item) => Some(f.(items := f.items[n - 1 := item])))
    case Data(OnPartData, s) =>
      if s == "" then Some(f)
      else if n == 0 then None
      else Some(f.(items := f.items[n - 1 := f.items[n - 1].(data := f.items[n - 1].data + s)]))
    case Note(OnPartDataEnd) =>
      if n == 0 then None else Some(f.(items := f.items[n - 1 := f.items[n - 1].(parsed := true)]))
    case Note(OnBodyEnd) => Some(f.(params := f.params + Params(f.items)))
    case _ => Some(f)
  }

  function HandleAll(f: Form, log: Trace): Option<Form> {
    if log == [] then Some(f) else
      match HandleAll(f, log[..|log| - 1])
      case None => None
      case Some(f') => Handle(f', log[|log| - 1])
  }

  lemma {:induction false} HandleAppend(f: Form, a: Trace, b: Trace)
    ensures HandleAll(f, a + b) == match HandleAll(f, a) case None => None case Some(f') => HandleAll(f', b)
  {
    if b == [] {
      assert a + b == a;
    } else {
      assert (a + b)[..|a + b| - 1] == a + b[..|b| - 1];
      HandleAppend(f, a, b[..|b| - 1]);
    }
  }

  lemma HandleOne(f: Form, e: Event)
    ensures HandleAll(f, [e]) == Handle(f, e)
  {
    assert HandleAll(f, [e][..0]) == Some(f);
  }

  /** Data that comes in pieces has the effect of data in one piece. */
  lemma HandleEmit(f: Form, t: Trace, e: Event)
    requires e.Data? && e.kind != OnPartData ==> !EndsIn(t, e.kind)
    ensures HandleAll(f, Emit(t, e)) == HandleAll(f, t + [e])
  {
    if Emit(t, e) != t + [e] {
      var t0, last := t[..|t| - 1], t[|t| - 1];
      var joined := Data(OnPartData, last.bytes + e.bytes);
      assert t + [e] == t0 + [last] + [e] && t == t0 + [last];
      HandleAppend(f, t0, [last]);
      HandleAppend(f, t0 + [last], [e]);
      HandleAppend(f, t0, [joined]);
      match HandleAll(f, t0)
      case None =>
      case Some(f') =>
        HandleOne(f', last);
        HandleOne(f', joined);
        match Handle(f', last)
        case None =>
        case Some(f2) => HandleOne(f2, e); PiecesOfData(f', last.bytes, e.bytes);
    }
  }

  lemma PiecesOfData(f: Form, a: string, b: string)
    ensures Handle(f, Data(OnPartData, a + b)) ==
      match Handle(f, Data(OnPartData, a)) case None => None case Some(f') => Handle(f', Data(OnPartData, b))
  {
    if a == "" {
      assert a + b == b;
    } else if b == "" {
      assert a + b == a;
    } else if f.items != [] {
      var n := |f.items|;
      var last := f.items[n - 1];
      assert last.data + a + b == last.data + (a + b);
      assert f.items[n - 1 := last.(data := last.data + a)][n - 1 := last.(data := last.data + (a + b))]
          == f.items[n - 1 := last.(data := last.data + (a + b))];
    }
  }

  lemma EndsInMerge(log: Trace, k: Kind)
    ensures EndsIn(Merge([], log), k) == EndsIn(log, k)
  {
    if log != [] {
      var t, e := Merge([], log[..|log| - 1]), log[|log| - 1];
      assert Emit(t, e)[|Emit(t, e)| - 1].Data? == e.Data?;
    }
  }

  lemma HeadersWholeFront(log: Trace)
    requires log != [] && HeadersWhole(log)
    ensures HeadersWhole(log[..|log| - 1])
    ensures var e := log[|log| - 1];
            |log| > 1 && e.Data? && e.kind != OnPartData ==> !EndsIn(log[..|log| - 1], e.kind)
  {
    var front := log[..|log| - 1];
    forall i | 0 < i < |front| && front[i].Data? && front[i].kind != OnPartData
      ensures !EndsIn(front[..i], front[i].kind) {
      assert front[..i] == log[..i];
    }
  }

  /** So the form does not depend on whether the callbacks or their merged trace are handled. */
  lemma {:induction false} HandleMerged(f: Form, log: Trace)
    requires HeadersWhole(log)
    ensures HandleAll(f, Merge([], log)) == HandleAll(f, log)
  {
    hide Emit, Handle, HandleAll, HeadersWhole, EndsIn;
    if log != [] {
      var front, e := log[..|log| - 1], log[|log| - 1];
      assert log == front + [e];
      HeadersWholeFront(log);
      HandleMerged(f, front);
      EndsInEmpty(front);
      if e.Data? {
        EndsInMerge(front, e.kind);
      }
      HandleEmit(f, Merge([], front), e);
      HandleAppend(f, Merge([], front), [e]);
      HandleAppend(f, front, [e]);
    }
  }

  lemma EndsInEmpty(log: Trace)
    ensures log == [] ==> forall k :: !EndsIn(log, k)
  {
  }

  /** A request body: its raw text and the form read from it. */
  class RequestBody {
    var rawString: string
    var form: Form

    constructor (raw: string)
      ensures rawString == raw && form == EmptyForm
    {
      rawString, form := raw, EmptyForm;
    }

    /** Reads the raw text as form data; 0 also where the content type does not fit. */
    method ParseMultipartData(contentType: string) returns (ret: int)
      modifies this
      ensures rawString == old(rawString)
      ensures var b := BoundaryOf(contentType);
              if rawString == "" || b.None? then ret == 0 && form == old(form)
              else match Buffer(b.value, Init, rawString)
                   case Rejected(_) => ret == -1
                   case Accepted(s) =>
                     match HandleAll(old(form), s.trace)
                     case None => ret == -1
                     case Some(f) => ret == 0 && form == f
    {
      if rawString == "" {
        return 0;
      }
      var ctTokens := SplitString(contentType, ';', []);
      if |ctTokens| != 2 {
        return 0;
      }
      var boundaryTokens := SplitString(ctTokens[1], '=', []);
      if |boundaryTokens| != 2 {
        return 0;
      }
      var boundary := CString("--" + boundaryTokens[1]);
      var parser := new Parser(boundary);
      var parsed := parser.Execute(rawString);
      if parsed != |rawString| {
        return -1;
      }
      HandleMerged(form, parser.log);
      ret := HandleLog(parser.log);
    }

    /** Lets the callbacks work on the form until one of them reports an error. */
    method HandleLog(log: Trace) returns (ret: int)
      modifies this`form
      ensures match HandleAll(old(form), log) case None => ret == -1 case Some(f) => ret == 0 && form == f
    {
      var i := 0;
      ghost var start := form;
      assert log[..0] == [];
      while i < |log|
        invariant i <= |log| && HandleAll(start, log[..i]) == Some(form)
      {
        assert log[..i + 1][..i] == log[..i] && log[..i + 1][i] == log[i];
        var next := Handle(form, log[i]);
        assert HandleAll(start, log[..i + 1]) == next;
        if next.None? {
          HandleAppend(start, log[..i + 1], log[i + 1..]);
          assert log[..i + 1] + log[i + 1..] == log;
          return -1;
        }
        form := next.value;
        i := i + 1;
      }
      assert log[..i] == log;
      return 0;
    }
  }

  /** The boundary, with its two hyphens, that a content type like `multipart/form-data; boundary=x` names. */
  function BoundaryOf(contentType: string): Option<string> {
    var ct := Split(contentType, ';');
    if |ct| != 2 then None else
      var b := Split(ct[1], '=');
      if |b| != 2 then None else Some(CString("--" + b[1]))
  }

  /** What `c_str` leaves of a string for a callee that looks for the terminating zero. */
  function CString(s: string): (r: string)
    ensures s != "" && s[0] != '\0' ==> r != ""
  {
    s[..Find(s, '\0')]
  }

  // ----- Printing -----

  datatype Part =
    | Field(name: string, value: string)
    | File(name: string, filename: string, contentType: string, value: string)

  function Quoted(key: string, value: string): string {
    key + "=\"" + value + "\""
  }

  function DispositionText(p: Part): string {
    match p
    case Field(name, _) => "form-data" + [';'] + Quoted(" name", name)
    case File(name, filename, _, _) => "form-data" + [';']
                                       + (Quoted(" name", name) + [';'] + Quoted(" filename", filename))
  }

  function HeaderText(name: string, value: string): string {
    name + ": " + value
  }

  /** The lines that the printer appends for one part. */
  function PartLines(p: Part, boundary: string): seq<string> {
    ["--" + boundary, HeaderText("Content-Disposition", DispositionText(p))]
    + (if p.File? then [HeaderText("Content-Type", p.contentType)] else [])
    + ["", p.value]
  }

  function PartsLines(parts: seq<Part>, boundary: string): seq<string> {
    if parts == [] then [] else PartsLines(parts[..|parts| - 1], boundary) + PartLines(parts[|parts| - 1], boundary)
  }

  function AllLines(parts: seq<Part>, boundary: string): seq<string> {
    PartsLines(parts, boundary) + ["--" + boundary + "--", ""]
  }

  function FieldParts(fields: seq<(string, string)>): seq<Part> {
    seq(|fields|, i requires 0 <= i < |fields| => Field(fields[i].0, fields[i].1))
  }

  function FileParts(files: seq<(string, string, string)>, guess: string -> string): seq<Part> {
    seq(|files|, i requires 0 <= i < |files| => File(files[i].0, files[i].1, guess(files[i].1), files[i].2))
  }

  lemma PartsLinesSnoc(parts: seq<Part>, p: Part, boundary: string)
    ensures PartsLines(parts + [p], boundary) == PartsLines(parts, boundary) + PartLines(p, boundary)
  {
    assert (parts + [p])[..|parts|] == parts;
  }

  method EncodeMultipartFormData(fields: seq<(string, string)>, files: seq<(string, string, string)>,
                                 boundary: string, guess: string -> string)
    returns (contentType: string, body: string)
    ensures body == JoinWith(AllLines(FieldParts(fields) + FileParts(files, guess), boundary), CRLF)
    ensures contentType == "multipart/form-data; boundary=" + boundary
  {
    hide PartsLines, PartLines, JoinWith;
    var lines: seq<string> := [];
    NoLines(boundary);
    assert FieldParts(fields[..0]) == [];
    for i := 0 to |fields|
      invariant lines == PartsLines(FieldParts(fields[..i]), boundary)
    {
      var (key, value) := fields[i];
      ghost var before := lines;
      lines := lines + ["--" + boundary];
      lines := lines + ["Content-Disposition: form-data; name=\"" + key + "\""];
      lines := lines + [""];
      lines := lines + [value];
      FieldLines(key, value, boundary, before, lines);
      PartsLinesSnoc(FieldParts(fields[..i]), Field(key, value), boundary);
      assert FieldParts(fields[..i + 1]) == FieldParts(fields[..i]) + [Field(key, value)];
    }
    ghost var fs := FieldParts(fields);
    assert fields[..|fields|] == fields && fs + FileParts(files[..0], guess) == fs;
    for i := 0 to |files|
      invariant lines == PartsLines(fs + FileParts(files[..i], guess), boundary)
    {
      var (key, filename, value) := files[i];
      ghost var before := lines;
      lines := lines + ["--" + boundary];
      lines := lines + ["Content-Disposition: form-data; name=\"" + key + "\"; filename=\"" + filename + "\""];
      lines := lines + ["Content-Type: " + guess(filename)];
      lines := lines + [""];
      lines := lines + [value];
      ghost var p := File(key, filename, guess(filename), value);
      FileLines(p, boundary, before, lines);
      PartsLinesSnoc(fs + FileParts(files[..i], guess), p, boundary);
      assert fs + FileParts(files[..i + 1], guess) == fs + FileParts(files[..i], guess) + [p];
    }
    assert files[..|files|] == files;
    ghost var parts := fs + FileParts(files, guess);
    lines := lines + ["--" + boundary + "--"];
    lines := lines + [""];
    assert lines == PartsLines(parts, boundary) + ["--" + boundary + "--", ""];
    body := JoinWith(lines, CRLF);
    contentType := "multipart/form-data; boundary=" + boundary;
  }

  lemma NoLines(boundary: string)
    ensures PartsLines([], boundary) == []
  {
  }

  lemma FieldLines(key: string, value: string, boundary: string, before: seq<string>, after: seq<string>)
    requires after == before + ["--" + boundary] + ["Content-Disposition: form-data; name=\"" + key + "\""] + [""]
             + [value]
    ensures after == before + PartLines(Field(key, value), boundary)
  {
    assert HeaderText("Content-Disposition", DispositionText(Field(key, value)))
        == "Content-Disposition: form-data; name=\"" + key + "\"";
  }

  lemma FileLines(p: Part, boundary: string, before: seq<string>, after: seq<string>)
    requires p.File?
    requires after == before + ["--" + boundary]
      + ["Content-Disposition: form-data; name=\"" + p.name + "\"; filename=\"" + p.filename + "\""]
      + ["Content-Type: " + p.contentType] + [""] + [p.value]
    ensures after == before + PartLines(p, boundary)
  {
    hide DispositionText, HeaderText;
    FileDisposition(p);
    FileContentType(p);
  }

  lemma FileDisposition(p: Part)
    requires p.File?
    ensures HeaderText("Content-Disposition", DispositionText(p))
         == "Content-Disposition: form-data; name=\"" + p.name + "\"; filename=\"" + p.filename + "\""
  {
  }

  lemma FileContentType(p: Part)
    requires p.File?
    ensures HeaderText("Content-Type", p.contentType) == "Content-Type: " + p.contentType
  {
  }
}
