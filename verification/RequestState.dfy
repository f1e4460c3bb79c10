/**
 What the callbacks of a request do: `ss_on_url` to `ss_on_message_complete` as one function of the
 request, of the request line as the parser knows it, and of the callback.
 */
module RequestState {
  import opened Options
  import opened Traces
  import opened HttpTypes
  import opened HttpRun
  import opened StringUtils
  import Multipart
  import FormData
  import Responses

  const PARSE_REQ_LINE := 0
  const PARSE_REQ_HEAD := 1
  const PARSE_REQ_BODY := 2
  const PARSE_REQ_OVER := 3
  const PARSE_REQ_HEAD_OVER := 4

  const NEED_MORE_STATUS := Responses.NEED_MORE_STATUS
  const PARSE_LEN_REQUIRED := 2
  const PARSE_MULTIPART_ERR := -3
  const MAX_REQ_SIZE: nat := 10485760

  datatype Req = Req(
    part: int, lastWasValue: bool, parseErr: int, verb: string, version: string, url: string,
    fields: seq<string>, values: seq<string>, headers: map<string, string>, raw: string)

  const NewReq := Req(PARSE_REQ_LINE, true, 0, "", "", "", [], [], map[], "")

  /** Appends to the last string of a vector, if there is one. */
  function Extend(v: seq<string>, s: string): seq<string> {
    if v == [] then v else v[..|v| - 1] + [v[|v| - 1] + s]
  }

  /** `headers[name]`, which enters an empty value for a name that is missing. */
  function GetHeader(headers: map<string, string>, name: string): (map<string, string>, string) {
    if name in headers then (headers, headers[name]) else (headers[name := ""], "")
  }

  /** `add_header` for the first `n` fields and values. */
  function HeadersOf(headers: map<string, string>, fields: seq<string>, values: seq<string>, n: nat): map<string,
      string>
    requires n <= |fields| && n <= |values|
  {
    if n == 0 then headers else HeadersOf(headers, fields, values, n - 1)[Folded(fields[n - 1]) := values[n - 1]]
  }

  /** `add_header` lowers the names in place. */
  function LoweredFirst(fields: seq<string>, n: nat): seq<string>
    requires n <= |fields|
  {
    seq(|fields|, i requires 0 <= i < |fields| => if i < n then Folded(fields[i]) else fields[i])
  }

  function VersionOf(l: Line, before: string): string {
    if l.major == 1 && l.minor == 0 then "HTTP/1.0" else if l.major == 1 && l.minor == 1 then "HTTP/1.1" else before
  }

  function OnField(q: Req, l: Line, s: string): Req {
    var q := if q.part == PARSE_REQ_LINE
        then q.(verb := MethodName(l.verb), version := VersionOf(l, q.version), part := PARSE_REQ_HEAD) else q;
    if q.lastWasValue then q.(fields := q.fields + [s], lastWasValue := false) else q.(fields := Extend(q.fields, s))
  }

  function OnValue(q: Req, s: string): Req {
    (if !q.lastWasValue then q.(values := q.values + [s]) else q.(values := Extend(q.values, s))).(lastWasValue := true)
  }

  /** `checked` tells whether field and value vectors are compared first. */
  function HeadersCompleted(q: Req, checked: bool): (Req, int) {
    if |q.fields| != |q.values| then if checked then (q, -1) else (q, 0)
    else
      var n := |q.fields|;
      var q := q.(headers := HeadersOf(q.headers, q.fields, q.values, n), fields := LoweredFirst(q.fields, n),
          part := PARSE_REQ_HEAD_OVER);
      if q.verb == "POST" then
        var (headers, length) := GetHeader(q.headers, "content-length");
        var q := q.(headers := headers);
        if length == "" then (q.(parseErr := PARSE_LEN_REQUIRED), -1) else (q, 0)
      else (q, 0)
  }

  /** `needle` stands somewhere in `s`. */
  predicate Contains(s: string, needle: string) {
    |s| >= |needle| && (s[..|needle|] == needle || (s != "" && Contains(s[1..], needle)))
  }

  /** What `ss_parse_multipart_data` makes of a body, if it is the first: the form, or none for an error. */
  function MultipartForm(raw: string, contentType: string): Option<FormData.Form> {
    var b := FormData.BoundaryOf(contentType);
    if raw == "" || b.None? then Some(FormData.EmptyForm)
    else
      match Multipart.Buffer(b.value, Multipart.Init, raw)
      case Rejected(_) => None
      case Accepted(s) => FormData.HandleAll(FormData.EmptyForm, s.trace)
  }

  predicate IsMultipart(contentType: string) {
    Contains(contentType, "multipart/form-data")
  }

  /** The content type has `multipart/form-data` somewhere in it. */
  ghost predicate NamesForms(contentType: string) {
    exists before, after :: contentType == before + "multipart/form-data" + after
  }

  /** The form in a body, if the content type names forms; none if it cannot be read. */
  ghost function FormIn(contentType: string, raw: string): Option<FormData.Form> {
    if NamesForms(contentType) then MultipartForm(raw, contentType) else Some(FormData.EmptyForm)
  }

  lemma {:induction false} ContainsBetween(before: string, needle: string, after: string)
    ensures Contains(before + needle + after, needle)
  {
    var s := before + needle + after;
    if before == "" {
      assert s[..|needle|] == needle;
    } else {
      assert s[1..] == before[1..] + needle + after;
      ContainsBetween(before[1..], needle, after);
    }
  }

  lemma {:induction false} ContainedBetween(s: string, needle: string)
    returns (before: string, after: string)
    requires Contains(s, needle)
    ensures s == before + needle + after
  {
    if s[..|needle|] == needle {
      before, after := "", s[|needle|..];
    } else {
      before, after := ContainedBetween(s[1..], needle);
      before := [s[0]] + before;
    }
  }

  /** The search of `find` finds it, wherever it stands. */
  lemma MultipartIsNamed(contentType: string)
    ensures IsMultipart(contentType) <==> NamesForms(contentType)
  {
    hide Contains;
    if IsMultipart(contentType) {
      var before, after := ContainedBetween(contentType, "multipart/form-data");
    }
    forall before, after | contentType == before + "multipart/form-data" + after ensures IsMultipart(contentType) {
      ContainsBetween(before, "multipart/form-data", after);
    }
  }

  function MessageCompleted(q: Req): (Req, int) {
    var (headers, contentType) := GetHeader(q.headers, "content-type");
    var q := q.(headers := headers, part := PARSE_REQ_OVER);
    if IsMultipart(contentType) && MultipartForm(q.raw, contentType).None?
      then (q.(parseErr := PARSE_MULTIPART_ERR), -1) else (q, 0)
  }

  /** A callback: the request after it, and its return value. */
  function Handle(q: Req, l: Line, e: Event, checked: bool): (Req, int) {
    match e
    case Data(OnUrl, s) => (q.(url := q.url + s), 0)
    case Data(OnHeaderField, s) => (OnField(q, l, s), 0)
    case Data(OnHeaderValue, s) => (OnValue(q, s), 0)
    case Data(OnBody, s) => (q.(raw := q.raw + s, part := PARSE_REQ_BODY), 0)
    case Note(OnHeadersComplete) => HeadersCompleted(q, checked)
    case Note(OnMessageComplete) => MessageCompleted(q)
    case _ => (q, 0)
  }

  /** The request after a list of callbacks. */
  function Fold(q: Req, l: Line, t: Trace, checked: bool): Req {
    if t == [] then q else Handle(Fold(q, l, t[..|t| - 1], checked), l, t[|t| - 1], checked).0
  }

  /** The return value of the last callback of a trace. */
  function Answer(l: Line, t: Trace, checked: bool): int {
    if t == [] then 0 else Handle(Fold(NewReq, l, t[..|t| - 1], checked), l, t[|t| - 1], checked).1
  }

  /** The settings of a request. */
  function SettingsOf(checked: bool): Settings {
    Settings((l, t) => Answer(l, t, checked), (l, t) => Answer(l, t, checked))
  }

  // ----- Pieces -----

  lemma FoldOne(q: Req, l: Line, t: Trace, e: Event, checked: bool)
    ensures Fold(q, l, t + [e], checked) == Handle(Fold(q, l, t, checked), l, e, checked).0
  {
    assert (t + [e])[..|t|] == t;
  }

  lemma {:induction false} FoldAppend(q: Req, l: Line, a: Trace, b: Trace, checked: bool)
    ensures Fold(q, l, a + b, checked) == Fold(Fold(q, l, a, checked), l, b, checked)
  {
    hide Handle;
    if b == [] {
      assert a + b == a;
    } else {
      assert (a + b)[..|a + b| - 1] == a + b[..|b| - 1];
      FoldAppend(q, l, a, b[..|b| - 1], checked);
    }
  }

  lemma ExtendTwice(v: seq<string>, a: string, b: string)
    ensures Extend(Extend(v, a), b) == Extend(v, a + b)
    ensures Extend(v + [a], b) == v + [a + b]
  {
    if v != [] {
      var w := Extend(v, a);
      assert w[..|w| - 1] == v[..|v| - 1];
      assert v[|v| - 1] + a + b == v[|v| - 1] + (a + b);
    }
    assert (v + [a])[..|v|] == v;
  }

  /** A data callback in two pieces does what it does in one. */
  lemma TwoPieces(q: Req, l: Line, k: Kind, a: string, b: string, checked: bool)
    ensures Handle(Handle(q, l, Data(k, a), checked).0, l, Data(k, b), checked).0
            == Handle(q, l, Data(k, a + b), checked).0
  {
    match k
    case OnUrl => assert q.url + a + b == q.url + (a + b);
    case OnBody => assert q.raw + a + b == q.raw + (a + b);
    case OnHeaderField => ExtendTwice(q.fields, a, b);
    case OnHeaderValue => ExtendTwice(q.values, a, b);
    case _ =>
  }

  lemma FoldEmit(q: Req, l: Line, t: Trace, e: Event, checked: bool)
    ensures Fold(q, l, Emit(t, e), checked) == Handle(Fold(q, l, t, checked), l, e, checked).0
  {
    hide Handle;
    if Emit(t, e) == t + [e] {
      FoldOne(q, l, t, e, checked);
    } else {
      var front, last := t[..|t| - 1], t[|t| - 1];
      FoldOne(q, l, front, Data(e.kind, last.bytes + e.bytes), checked);
      TwoPieces(Fold(q, l, front, checked), l, e.kind, last.bytes, e.bytes, checked);
    }
  }

  /** So the request depends only on the merged callbacks, not on how they were cut. */
  lemma {:induction false} FoldMerged(q: Req, l: Line, t: Trace, log: Trace, checked: bool)
    ensures Fold(q, l, Merge(t, log), checked) == Fold(Fold(q, l, t, checked), l, log, checked)
  {
    hide Handle, Emit;
    if log != [] {
      FoldMerged(q, l, t, log[..|log| - 1], checked);
      FoldEmit(q, l, Merge(t, log[..|log| - 1]), log[|log| - 1], checked);
    }
  }
}
