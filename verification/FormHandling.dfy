/** What the server takes for a content type with a boundary, for a disposition, and for the items of a form. */
module FormHandling {
  import opened Options
  import opened Traces
  import opened StringUtils
  import opened Multipart
  import opened FormData

  // ----- Splitting in two -----

  /** `x` and `y` with a separator between them, and perhaps one more at the end. */
  predicate IsPair(s: string, sep: char, x: string, y: string) {
    sep !in x && sep !in y && ((s == x + [sep] + y && y != "") || s == x + [sep] + y + [sep])
  }

  lemma PairIsSplit(s: string, sep: char, x: string, y: string)
    requires IsPair(s, sep, x, y)
    ensures Split(s, sep) == [x, y]
  {
    hide Split;
    if s == x + [sep] + y && y != "" {
      SplitTwo(x, y, sep);
    } else {
      assert s == x + [sep] + (y + [sep] + "");
      SplitFirst(x, sep, y + [sep] + "");
      SplitFirst(y, sep, "");
      SplitEmpty(sep);
    }
  }

  lemma SplitIsPair(s: string, sep: char)
    requires |Split(s, sep)| == 2
    ensures IsPair(s, sep, Split(s, sep)[0], Split(s, sep)[1])
  {
    hide Split, Find;
    SomethingToSplit(s, sep);
    var i := Find(s, sep);
    SplitUnfold(s, sep);
    var rest := if i < |s| then s[i + 1..] else "";
    SplitEmpty(sep);
    assert s == s[..i] + [sep] + rest;
    SplitUnfold(rest, sep);
    var j := Find(rest, sep);
    assert rest == rest[..j] + rest[j..];
    if j < |rest| {
      NothingToSplit(rest[j + 1..], sep);
      assert rest[j..] == [sep];
      assert s == s[..i] + [sep] + rest[..j] + [sep];
    }
  }

  lemma SomethingToSplit(s: string, sep: char)
    requires Split(s, sep) != []
    ensures s != ""
  {
  }

  lemma NothingToSplit(s: string, sep: char)
    requires Split(s, sep) == []
    ensures s == ""
  {
  }

  // ----- Boundaries -----

  /** A content type like `type; boundary=x`. */
  ghost predicate NamesBoundary(contentType: string, boundary: string) {
    exists kind, parameter, key ::
      IsPair(contentType, ';', kind, parameter) && IsPair(parameter, '=', key, boundary)
  }

  /**
   The boundary is what stands behind the one equals sign behind the one semicolon, up to a NUL; anything
   else names none.
   */
  lemma BoundaryIsExact(contentType: string)
    ensures match BoundaryOf(contentType)
            case None => forall b :: !NamesBoundary(contentType, b)
            case Some(delimiter) =>
              exists b :: NamesBoundary(contentType, b) && delimiter == ("--" + b)[..Find("--" + b, '\0')]
  {
    hide Split, IsPair, Find;
    var ct := Split(contentType, ';');
    forall kind, parameter, key, b | IsPair(contentType, ';', kind, parameter) && IsPair(parameter, '=', key, b)
      ensures ct == [kind, parameter] && Split(parameter, '=') == [key, b]
    {
      PairIsSplit(contentType, ';', kind, parameter);
      PairIsSplit(parameter, '=', key, b);
    }
    if |ct| == 2 && |Split(ct[1], '=')| == 2 {
      SplitIsPair(contentType, ';');
      SplitIsPair(ct[1], '=');
      assert NamesBoundary(contentType, Split(ct[1], '=')[1]);
    }
  }

  // ----- Dispositions -----

  /** What stands between the quotes. */
  predicate IsQuoted(quoted: string, value: string) {
    if quoted == "\"\"" then value == "" else |quoted| > 2 && value == quoted[1..|quoted| - 1]
  }

  /** A value is what stands within the first and the last character behind the one equals sign. */
  lemma DispositionValueIsExact(input: string, value: string)
    ensures DispositionValue(input) == Some(value) <==>
            exists key, quoted :: IsPair(input, '=', key, quoted) && IsQuoted(quoted, value)
  {
    hide Split, IsPair;
    forall key, quoted | IsPair(input, '=', key, quoted) ensures Split(input, '=') == [key, quoted] {
      PairIsSplit(input, '=', key, quoted);
    }
    if |Split(input, '=')| == 2 {
      SplitIsPair(input, '=');
    }
  }

  /** A disposition with a name only, and with a file name, whatever stands in front and behind. */
  lemma DispositionIsRead(kind: string, name: string, filename: string, more: string, item: FileItem)
    requires ';' !in kind && ';' !in name && ';' !in filename
    ensures name != "" ==>
              Disposition(kind + ";" + name, item) ==
              match DispositionValue(name) case None => None case Some(n) => Some(item.(name := n))
    ensures Disposition(kind + ";" + name + ";" + filename + ";" + more, item) ==
              match (DispositionValue(name), DispositionValue(filename))
              case (Some(n), Some(f)) => Some(item.(name := n, isFile := true, filename := f))
              case _ => None
  {
    hide Split, DispositionValue;
    if name != "" {
      assert kind + ";" + name == kind + [';'] + name;
      SplitTwo(kind, name, ';');
    }
    var rest := filename + [';'] + more;
    assert kind + ";" + name + ";" + filename + ";" + more == kind + [';'] + (name + [';'] + rest);
    SplitFirst(kind, ';', name + [';'] + rest);
    SplitFirst(name, ';', rest);
    SplitFirst(filename, ';', more);
  }

  /** Without a semicolon, or with nothing behind it, there is no disposition. */
  lemma NoDisposition(kind: string, item: FileItem)
    requires ';' !in kind
    ensures Disposition(kind, item).None? && Disposition(kind + ";", item).None?
  {
    hide Split;
    if kind != "" {
      SplitLast(kind, ';');
    } else {
      SplitEmpty(';');
    }
    assert kind + ";" == kind + [';'] + "";
    SplitFirst(kind, ';', "");
    SplitEmpty(';');
  }

  // ----- Items -----

  predicate BeginsItem(e: Event) {
    e == Data(OnHeaderField, "Content-Disposition")
  }

  /** How many items a list of callbacks begins. */
  function Begun(t: Trace): nat {
    if t == [] then 0 else Begun(t[..|t| - 1]) + if BeginsItem(t[|t| - 1]) then 1 else 0
  }

  function AllData(items: seq<FileItem>): string {
    if items == [] then "" else AllData(items[..|items| - 1]) + items[|items| - 1].data
  }

  lemma DataOfLast(items: seq<FileItem>, item: FileItem)
    requires items != []
    ensures AllData(items[|items| - 1 := item]) == AllData(items[..|items| - 1]) + item.data
  {
    assert items[|items| - 1 := item][..|items| - 1] == items[..|items| - 1];
  }

  lemma DispositionKeepsData(input: string, item: FileItem)
    ensures match Disposition(input, item) case None => true case Some(i) => i.data == item.data
  {
    hide Split, DispositionValue;
  }

  lemma StepKeepsData(f: Form, e: Event)
    ensures match Handle(f, e)
            case None => true
            case Some(g) =>
              && |g.items| == |f.items| + (if BeginsItem(e) then 1 else 0)
              && AllData(g.items) == AllData(f.items) + (if e.Data? && e.kind == OnPartData then e.bytes else "")
  {
    hide AllData, Disposition;
    var n := |f.items|;
    if n > 0 {
      var last := f.items[n - 1];
      assert f.items == f.items[..n - 1] + [last];
      DataOfLast(f.items, last);
      assert f.items[n - 1 := last] == f.items;
      DataOfLast(f.items, last.(parsed := true));
      if e.Data? {
        DataOfLast(f.items, last.(contentType := e.bytes));
        DispositionKeepsData(e.bytes, last);
        if Disposition(e.bytes, last).Some? {
          DataOfLast(f.items, Disposition(e.bytes, last).value);
        }
        DataOfLast(f.items, last.(data := last.data + e.bytes));
      }
    }
    DataOfNew(f.items);
    assert AllData(f.items) + "" == AllData(f.items);
  }

  lemma DataOfNew(items: seq<FileItem>)
    ensures AllData(items + [NewItem]) == AllData(items)
  {
    assert (items + [NewItem])[..|items|] == items;
  }

  /** A form that is read has an item for each Content-Disposition, and its items hold all the data, in order. */
  lemma {:induction false} FormKeepsData(f: Form, t: Trace)
    ensures match HandleAll(f, t)
            case None => true
            case Some(g) =>
              && |g.items| == |f.items| + Begun(t)
              && AllData(g.items) == AllData(f.items) + Text(t, OnPartData)
  {
    hide Handle, AllData;
    if t != [] {
      var front, e := t[..|t| - 1], t[|t| - 1];
      FormKeepsData(f, front);
      if HandleAll(f, front).Some? {
        StepKeepsData(HandleAll(f, front).value, e);
      }
    } else {
      assert AllData(f.items) + "" == AllData(f.items);
    }
  }

  /** A callback that can do without an item. */
  predicate NeedsNoItem(e: Event) {
    match e
    case Data(OnHeaderField, s) => s != "Content-Type"
    case Data(OnHeaderValue, _) => false
    case Data(OnPartData, s) => s == ""
    case Note(OnPartDataEnd) => false
    case _ => true
  }

  /** Before the first Content-Disposition there may be no value, no data, no Content-Type and no end of a part. */
  lemma {:induction false} ItemsComeFirst(t: Trace)
    requires Begun(t) == 0
    ensures HandleAll(EmptyForm, t).Some? <==> forall e <- t :: NeedsNoItem(e)
    ensures HandleAll(EmptyForm, t).Some? ==> HandleAll(EmptyForm, t).value.items == []
  {
    if t != [] {
      var front, e := t[..|t| - 1], t[|t| - 1];
      ItemsComeFirst(front);
      assert t == front + [e] && e in t;
      assert (forall d <- t :: NeedsNoItem(d)) <==> (forall d <- front :: NeedsNoItem(d)) && NeedsNoItem(e);
      if HandleAll(EmptyForm, front).Some? {
        WithoutItems(HandleAll(EmptyForm, front).value, e);
      }
    }
  }

  lemma WithoutItems(f: Form, e: Event)
    requires f.items == [] && !BeginsItem(e)
    ensures Handle(f, e).Some? <==> NeedsNoItem(e)
    ensures Handle(f, e).Some? ==> Handle(f, e).value.items == []
  {
    hide Params;
  }

  // ----- Parameters -----

  /** The parameters are the names and data of the items, in order. */
  predicate AreParameters(f: Form) {
    |f.params| == |f.items| && forall i | 0 <= i < |f.items| :: f.params[i] == (f.items[i].name, f.items[i].data)
  }

  predicate NoEnd(t: Trace) {
    Note(OnBodyEnd) !in t
  }

  /** The end of the body has been reported once, behind everything else, or not at all. */
  predicate EndsLast(s: Scan) {
    if s.state == End then s.held == "" && s.trace != [] && s.trace[|s.trace| - 1] == Note(OnBodyEnd)
                           && NoEnd(s.trace[..|s.trace| - 1])
    else NoEnd(s.trace)
  }

  lemma EmitNoEnd(t: Trace, e: Event)
    requires NoEnd(t) && e != Note(OnBodyEnd)
    ensures NoEnd(Emit(t, e))
  {
    if t != [] {
      assert t == t[..|t| - 1] + [t[|t| - 1]];
    }
  }

  lemma EmitEnd(t: Trace)
    requires NoEnd(t)
    ensures var t' := Emit(t, Note(OnBodyEnd)); t' == t + [Note(OnBodyEnd)] && t'[..|t'| - 1] == t
  {
  }

  lemma DataStepEnds(s: Scan, c: char)
    requires NoEnd(s.trace)
    ensures NoEnd(DataStep(s, c).trace) && DataStep(s, c).state != End
  {
    hide Emit, NoEnd;
    EmitNoEnd(s.trace, Data(OnPartData, ""));
    EmitNoEnd(s.trace, Data(OnPartData, [c]));
  }

  lemma NameStepEnds(s: Scan, c: char)
    requires NoEnd(s.trace)
    ensures FieldStep(s, c).Accepted? ==> NoEnd(FieldStep(s, c).scan.trace) && FieldStep(s, c).scan.state != End
    ensures NoEnd(ValueStep(s, c).trace) && ValueStep(s, c).state != End
  {
    hide Emit, NoEnd, IsNameByte;
    EmitNoEnd(s.trace, Data(OnHeaderField, s.held));
    EmitNoEnd(s.trace, Data(OnHeaderValue, ""));
    EmitNoEnd(s.trace, Data(OnHeaderValue, [c]));
  }

  lemma LineStepEnds(boundary: string, s: Scan, c: char)
    requires s.index <= |boundary| + 1 && NoEnd(s.trace) && s.state != End
    ensures match BoundaryStep(boundary, s, c)
            case Accepted(s') => NoEnd(s'.trace) && s'.state != End
            case Rejected(_) => true
  {
    hide Emit, NoEnd;
    EmitNoEnd(s.trace, Note(OnPartDataBegin));
  }

  lemma StepEnds(boundary: string, s: Scan, c: char)
    requires boundary != "" && Valid(boundary, s) && EndsLast(s)
    ensures match Step(boundary, s, c) case Accepted(s') => EndsLast(s') case Rejected(_) => true
  {
    hide Emit, NoEnd, DataStep, FieldStep, ValueStep, BoundaryStep;
    if s.state != End {
      var t := s.trace;
      EmitNoEnd(t, Note(OnPartHeadersComplete));
      EmitNoEnd(t, Note(OnPartDataBegin));
      EmitNoEnd(t, Note(OnPartDataEnd));
      EmitEnd(t);
      NameStepEnds(s, c);
      NameStepEnds(s.(named := false), c);
      DataStepEnds(s, c);
      DataStepEnds(s.(trace := Emit(t, Note(OnPartHeadersComplete))), c);
      EmitNoEnd(t, Data(OnPartData, "\r"));
      DataStepEnds(s.(trace := Emit(t, Data(OnPartData, "\r"))), c);
      if s.state == PartDataBoundary {
        var held := Data(OnPartData, "\r\n" + boundary[..s.index]);
        EmitNoEnd(t, held);
        DataStepEnds(s.(trace := Emit(t, held)), c);
      } else if s.state == Start || s.state == StartBoundary {
        LineStepEnds(boundary, if s.state == Start then s.(state := StartBoundary, index := 0) else s, c);
      }
    }
  }

  lemma {:induction false} BytesEnd(boundary: string, s: Scan, x: string)
    requires boundary != "" && Valid(boundary, s) && EndsLast(s)
    ensures match Bytes(boundary, s, x) case Accepted(s') => EndsLast(s') case Rejected(_) => true
    decreases |x|
  {
    hide Step, EndsLast;
    if x != "" {
      StepEnds(boundary, s, x[0]);
      match Step(boundary, s, x[0])
      case Accepted(s') => BytesEnd(boundary, s', x[1..]);
      case Rejected(_) =>
    }
  }

  lemma {:induction false} ParametersStay(f: Form, t: Trace)
    requires NoEnd(t)
    ensures match HandleAll(f, t) case None => true case Some(g) => g.params == f.params
  {
    hide Disposition;
    if t != [] {
      var front, e := t[..|t| - 1], t[|t| - 1];
      assert t == front + [e] && e in t;
      assert forall d <- front :: d in t;
      ParametersStay(f, front);
    }
  }

  /**
   The parameters of a form that is read are the names and data of its items, if the text reaches its closing
   line, and there are none if it breaks off before that.
   */
  lemma ParametersAreItems(boundary: string, x: string)
    requires boundary != ""
    ensures match Buffer(boundary, Init, x)
            case Rejected(_) => true
            case Accepted(s) =>
              match HandleAll(EmptyForm, s.trace)
              case None => true
              case Some(f) => if s.state == End then AreParameters(f) else f.params == []
  {
    hide Emit, Bytes;
    BytesEnd(boundary, Init, x);
    match Bytes(boundary, Init, x)
    case Rejected(_) =>
    case Accepted(s) =>
      if s.state == End {
        var front := s.trace[..|s.trace| - 1];
        ParametersStay(EmptyForm, front);
        if HandleAll(EmptyForm, front).Some? {
          assert HandleAll(EmptyForm, s.trace) == Handle(HandleAll(EmptyForm, front).value, Note(OnBodyEnd));
        }
      } else {
        EmitNoEnd(s.trace, Data(OnHeaderField, s.held));
        ParametersStay(EmptyForm, Flush(s).trace);
      }
  }
}
