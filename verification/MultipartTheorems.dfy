/**
 What the multipart parser guarantees for whole inputs: independence from the cuts between buffers,
 and part data that ends at the first delimiter.
 */
module MultipartTheorems {
  import opened Traces
  import opened Multipart

  // ----- Cuts between buffers -----

  ghost function Joined(parts: seq<string>): string {
    if parts == [] then "" else parts[0] + Joined(parts[1..])
  }

  /** What several buffers do, one after the other; reading stops at the first rejected byte. */
  ghost function Buffers(boundary: string, s: Scan, parts: seq<string>): (r: Result)
    requires boundary != "" && Valid(boundary, s)
    decreases |parts|
  {
    if parts == [] then Accepted(s) else
      match Buffer(boundary, s, parts[0])
      case Accepted(s') => Buffers(boundary, s', parts[1..])
      case Rejected(rest) => Rejected(rest + Joined(parts[1..]))
  }

  ghost predicate SameMachine(s: Scan, t: Scan) {
    s.state == t.state && s.index == t.index && s.named == t.named && s.dangling == t.dangling
  }

  /** Equal once the header name read so far has been delivered, unless a name was dropped. */
  ghost predicate Alike(s: Scan, t: Scan) {
    SameMachine(s, t) && (!s.dangling ==> Flush(s) == Flush(t))
  }

  lemma FieldStepAlike(s: Scan, t: Scan, c: char)
    requires Alike(s, t) && (s.state == HeaderField || s.held == "" == t.held)
    requires (s.held != "" || t.held != "") ==> s.named
    ensures FieldStep(s, c).Accepted? == FieldStep(t, c).Accepted?
    ensures FieldStep(s, c).Accepted? ==> Alike(FieldStep(s, c).scan, FieldStep(t, c).scan)
  {
    hide Emit;
    if !s.dangling {
      EmitPieces(s.trace, OnHeaderField, s.held, "");
      EmitPieces(t.trace, OnHeaderField, t.held, "");
      EmitPieces(s.trace, OnHeaderField, s.held, [c]);
      EmitPieces(t.trace, OnHeaderField, t.held, [c]);
      assert s.held + "" == s.held && t.held + "" == t.held;
      assert "" + [c] == [c];
    }
  }

  lemma StepAlike(boundary: string, s: Scan, t: Scan, c: char)
    requires boundary != "" && Valid(boundary, s) && Valid(boundary, t) && Alike(s, t)
    ensures Step(boundary, s, c).Accepted? == Step(boundary, t, c).Accepted?
    ensures Step(boundary, s, c).Accepted? ==> Alike(Step(boundary, s, c).scan, Step(boundary, t, c).scan)
  {
    hide Emit, FieldStep;
    if s.state == HeaderFieldStart {
      FieldStepAlike(s.(named := false), t.(named := false), c);
    } else if s.state == HeaderField {
      FieldStepAlike(s, t, c);
    }
  }

  lemma {:induction false} BytesAlike(boundary: string, s: Scan, t: Scan, x: string)
    requires boundary != "" && Valid(boundary, s) && Valid(boundary, t) && Alike(s, t)
    ensures match (Bytes(boundary, s, x), Bytes(boundary, t, x))
            case (Accepted(s'), Accepted(t')) => Alike(s', t')
            case (Rejected(p), Rejected(q)) => p == q
            case _ => false
    decreases |x|
  {
    hide Step, Flush;
    if x != "" {
      StepAlike(boundary, s, t, x[0]);
      if Step(boundary, s, x[0]).Accepted? {
        BytesAlike(boundary, Step(boundary, s, x[0]).scan, Step(boundary, t, x[0]).scan, x[1..]);
      }
    }
  }

  /** However the bytes are cut, the parser ends alike, or it stops at the same byte. */
  lemma {:induction false} BuffersAlike(boundary: string, s: Scan, t: Scan, parts: seq<string>)
    requires boundary != "" && Valid(boundary, s) && Valid(boundary, t) && Alike(s, t)
    ensures match (Buffers(boundary, s, parts), Bytes(boundary, t, Joined(parts)))
            case (Accepted(s'), Accepted(t')) => Alike(s', t')
            case (Rejected(p), Rejected(q)) => p == q
            case _ => false
    decreases |parts|
  {
    hide Step;
    if parts != [] {
      BytesAlike(boundary, s, t, parts[0]);
      BytesAppend(boundary, t, parts[0], Joined(parts[1..]));
      match Buffer(boundary, s, parts[0])
      case Accepted(s') => BuffersAlike(boundary, s', Bytes(boundary, t, parts[0]).scan, parts[1..]);
      case Rejected(_) =>
    }
  }

  /** The sequence of one-byte buffers. */
  ghost function Singles(x: string): (parts: seq<string>)
    ensures Joined(parts) == x
  {
    if x == "" then [] else
      assert ([[x[0]]] + Singles(x[1..]))[1..] == Singles(x[1..]);
      [[x[0]]] + Singles(x[1..])
  }

  ghost function NameBytes(s: Scan): nat {
    |Text(s.trace, OnHeaderField)| + |s.held|
  }

  /** `s` read everything in one buffer, `t` byte by byte: a dropped name is missing from `s` only. */
  ghost predicate Behind(s: Scan, t: Scan) {
    && SameMachine(s, t) && t.held == ""
    && (s.state == HeaderField && s.named ==> s.held != "")
    && NameBytes(s) <= NameBytes(t)
    && (s.dangling ==> NameBytes(s) < NameBytes(t))
  }

  ghost function NameEventBytes(e: Event): nat {
    if e.Data? && e.kind == OnHeaderField then |e.bytes| else 0
  }

  lemma NameBytesEmit()
    ensures forall t: Trace, e: Event ::
      |Text(Emit(t, e), OnHeaderField)| == |Text(t, OnHeaderField)| + NameEventBytes(e)
  {
    hide Emit, Text;
    forall t: Trace, e: Event ensures
        |Text(Emit(t, e), OnHeaderField)| == |Text(t, OnHeaderField)| + NameEventBytes(e) {
      TextEmit(t, e, OnHeaderField);
    }
  }

  lemma FieldStepBehind(s: Scan, t: Scan, c: char)
    requires Behind(s, t) && FieldStep(s, c).Accepted?
    requires s.state == HeaderField || (s.held == "" && !s.named)
    ensures FieldStep(t, c).Accepted? && Behind(FieldStep(s, c).scan, Flush(FieldStep(t, c).scan))
  {
    hide Emit, Text;
    NameBytesEmit();
  }

  lemma OtherStepKeepsNames(boundary: string, s: Scan, c: char)
    requires boundary != "" && Valid(boundary, s) && s.state !in {HeaderFieldStart, HeaderField}
    ensures Step(boundary, s, c).Accepted? ==>
      var s' := Step(boundary, s, c).scan;
          NameBytes(s') == NameBytes(s) && s'.held == "" && s'.state != HeaderField && s'.dangling == s.dangling
  {
    hide Emit, Text, FieldStep;
    NameBytesEmit();
  }

  lemma DataStepSame(s: Scan, t: Scan, c: char)
    requires SameMachine(s, t)
    ensures SameMachine(DataStep(s, c), DataStep(t, c))
  {
    hide Emit;
  }

  lemma BoundaryStepSame(boundary: string, s: Scan, t: Scan, c: char)
    requires SameMachine(s, t) && s.index <= |boundary| + 1
    ensures BoundaryStep(boundary, s, c).Accepted? == BoundaryStep(boundary, t, c).Accepted?
    ensures BoundaryStep(boundary, s, c).Accepted? ==>
            SameMachine(BoundaryStep(boundary, s, c).scan, BoundaryStep(boundary, t, c).scan)
  {
    hide Emit;
  }

  predicate IsBoundaryState(s: State) {
    s == Start || s == StartBoundary
  }

  lemma OtherStepSame(boundary: string, s: Scan, t: Scan, c: char)
    requires boundary != "" && Valid(boundary, s) && Valid(boundary, t) && SameMachine(s, t)
    requires s.state !in {HeaderFieldStart, HeaderField} && !IsBoundaryState(s.state)
    ensures Step(boundary, s, c).Accepted? == Step(boundary, t, c).Accepted?
    ensures Step(boundary, s, c).Accepted? ==> SameMachine(Step(boundary, s, c).scan, Step(boundary, t, c).scan)
  {
    hide Emit, FieldStep, BoundaryStep, DataStep;
    DataStepSame(s, t, c);
    DataStepSame(s.(trace := Emit(s.trace, Note(OnPartHeadersComplete))),
      t.(trace := Emit(t.trace, Note(OnPartHeadersComplete))), c);
    DataStepSame(s.(trace := Emit(s.trace, Data(OnPartData, "\r"))), t.(trace := Emit(t.trace, Data(OnPartData, "\r"))),
      c);
    if s.state == PartDataBoundary {
      var back := Data(OnPartData, "\r\n" + boundary[..s.index]);
      DataStepSame(s.(trace := Emit(s.trace, back)), t.(trace := Emit(t.trace, back)), c);
    }
  }

  lemma FirstStepSame(boundary: string, s: Scan, t: Scan, c: char)
    requires boundary != "" && Valid(boundary, s) && Valid(boundary, t) && SameMachine(s, t) && IsBoundaryState(s.state)
    ensures Step(boundary, s, c).Accepted? == Step(boundary, t, c).Accepted?
    ensures Step(boundary, s, c).Accepted? ==> SameMachine(Step(boundary, s, c).scan, Step(boundary, t, c).scan)
  {
    hide BoundaryStep, DataStep, FieldStep;
    BoundaryStepSame(boundary, s.(state := StartBoundary, index := if s.state == Start then 0 else s.index),
                     t.(state := StartBoundary, index := if t.state == Start then 0 else t.index), c);
    assert s.state == StartBoundary ==> s.(state := StartBoundary, index := s.index) == s;
    assert t.state == StartBoundary ==> t.(state := StartBoundary, index := t.index) == t;
  }

  lemma OtherStepBehind(boundary: string, s: Scan, t: Scan, c: char)
    requires boundary != "" && Valid(boundary, s) && Valid(boundary, t) && Behind(s, t)
    requires Step(boundary, s, c).Accepted? && s.state !in {HeaderFieldStart, HeaderField}
    ensures Step(boundary, t, c).Accepted?
    ensures Behind(Step(boundary, s, c).scan, Flush(Step(boundary, t, c).scan))
  {
    hide Emit, Text, Step, NameBytes;
    if IsBoundaryState(s.state) {
      FirstStepSame(boundary, s, t, c);
    } else {
      OtherStepSame(boundary, s, t, c);
    }
    OtherStepKeepsNames(boundary, s, c);
    OtherStepKeepsNames(boundary, t, c);
  }

  lemma StepBehind(boundary: string, s: Scan, t: Scan, c: char)
    requires boundary != "" && Valid(boundary, s) && Valid(boundary, t) && Behind(s, t)
    requires Step(boundary, s, c).Accepted?
    ensures Step(boundary, t, c).Accepted?
    ensures Behind(Step(boundary, s, c).scan, Flush(Step(boundary, t, c).scan))
  {
    hide Emit, Text, FieldStep;
    if s.state == HeaderFieldStart {
      FieldStepBehind(s.(named := false), t.(named := false), c);
    } else if s.state == HeaderField {
      FieldStepBehind(s, t, c);
    } else {
      OtherStepBehind(boundary, s, t, c);
    }
  }

  lemma {:induction false} SinglesBehind(boundary: string, s: Scan, t: Scan, x: string)
    requires boundary != "" && Valid(boundary, s) && Valid(boundary, t) && Behind(s, t)
    requires Bytes(boundary, s, x).Accepted?
    ensures Buffers(boundary, t, Singles(x)).Accepted?
    ensures Behind(Bytes(boundary, s, x).scan, Buffers(boundary, t, Singles(x)).scan)
    decreases |x|
  {
    hide Step, Flush;
    if x != "" {
      StepBehind(boundary, s, t, x[0]);
      assert [x[0]][1..] == "" && Bytes(boundary, Step(boundary, t, x[0]).scan, "") == Step(boundary, t, x[0]);
      assert Buffer(boundary, t, [x[0]]) == Accepted(Flush(Step(boundary, t, x[0]).scan));
      SinglesBehind(boundary, Step(boundary, s, x[0]).scan, Flush(Step(boundary, t, x[0]).scan), x[1..]);
    }
  }

  /**
   For an accepted input the trace is independent of the cuts between buffers exactly when no
   nonempty header name ran into CR instead of `:`; such a name is delivered only if a cut falls into it.
   */
  lemma CutsDoNotShowIffNoNameDangles(boundary: string, x: string)
    requires boundary != "" && Buffer(boundary, Init, x).Accepted?
    ensures (forall parts | Joined(parts) == x :: Buffers(boundary, Init, parts) == Buffer(boundary, Init, x))
      <==> !Buffer(boundary, Init, x).scan.dangling
  {
    var whole := Buffer(boundary, Init, x).scan;
    if whole.dangling {
      SinglesBehind(boundary, Init, Init, x);
      var ones := Buffers(boundary, Init, Singles(x)).scan;
      TextEmit(Bytes(boundary, Init, x).scan.trace, Data(OnHeaderField, Bytes(boundary, Init, x).scan.held),
        OnHeaderField);
      assert NameBytes(whole) < NameBytes(ones);
    } else {
      forall parts | Joined(parts) == x ensures Buffers(boundary, Init, parts) == Buffer(boundary, Init, x) {
        BuffersAlike(boundary, Init, Init, parts);
        BuffersSettled(boundary, Init, parts);
      }
    }
  }

  lemma {:induction false} BuffersSettled(boundary: string, s: Scan, parts: seq<string>)
    requires boundary != "" && Valid(boundary, s) && s.held == ""
    ensures Buffers(boundary, s, parts).Accepted? ==> Buffers(boundary, s, parts).scan.held == ""
    decreases |parts|
  {
    if parts != [] && Buffer(boundary, s, parts[0]).Accepted? {
      BuffersSettled(boundary, Buffer(boundary, s, parts[0]).scan, parts[1..]);
    }
  }

  /** Whether and where a byte is rejected never depends on the cuts. */
  lemma RejectionIgnoresCuts(boundary: string, parts: seq<string>)
    requires boundary != ""
    ensures Buffers(boundary, Init, parts).Rejected? == Buffer(boundary, Init, Joined(parts)).Rejected?
    ensures Buffers(boundary, Init, parts).Rejected? ==>
      Buffers(boundary, Init, parts) == Buffer(boundary, Init, Joined(parts))
  {
    BuffersAlike(boundary, Init, Init, parts);
  }

  // ----- Part data -----

  ghost predicate OccursAt(x: string, d: string, j: nat) {
    j + |d| <= |x| && x[j..j + |d|] == d
  }

  /** `d` occurs in `x` for the first time at `j`. */
  ghost predicate FirstAt(x: string, d: string, j: nat) {
    OccursAt(x, d, j) && forall q: nat | q < j :: !OccursAt(x, d, q)
  }

  /** In the data of a part: `sent` has been delivered, and `k` bytes of the delimiter are matched. */
  ghost function Scanning(boundary: string, s: Scan, sent: string, k: nat, index: nat): (r: Scan)
    requires s.held == "" && k < |Delimiter(boundary)|
    ensures Valid(boundary, r)
  {
    s.(state := if k == 0 then PartData else if k == 1 then PartDataAlmostBoundary else PartDataBoundary,
       index := if k < 2 then index else k - 2,
       trace := Emit(s.trace, Data(OnPartData, sent)))
  }

  /** The delimiter is complete. */
  ghost function Found(boundary: string, s: Scan, sent: string): (r: Scan)
    requires s.held == ""
    ensures Valid(boundary, r)
  {
    s.(state := PartDataAlmostEnd,
       index := |boundary|,
       trace := Emit(Emit(s.trace, Data(OnPartData, sent)), Note(OnPartDataEnd)))
  }

  lemma ScanningStep(boundary: string, s: Scan, sent: string, k: nat, index: nat, c: char)
    requires boundary != "" && s.held == "" && k < |Delimiter(boundary)|
    ensures var d := Delimiter(boundary);
            var index' := if k < 2 then index else k - 2;
            Step(boundary, Scanning(boundary, s, sent, k, index), c) == Accepted(
              if c == d[k] then
                if k + 1 == |d| then Found(boundary, s, sent) else Scanning(boundary, s, sent, k + 1, index')
              else if c == '\r' then Scanning(boundary, s, sent + d[..k], 1, index')
              else Scanning(boundary, s, sent + d[..k] + [c], 0, index'))
  {
    hide Emit;
    var d := Delimiter(boundary);
    EmitPieces(s.trace, OnPartData, sent, "");
    EmitPieces(s.trace, OnPartData, sent, [c]);
    EmitPieces(s.trace, OnPartData, sent, d[..k]);
    EmitPieces(s.trace, OnPartData, sent + d[..k], "");
    EmitPieces(s.trace, OnPartData, sent + d[..k], [c]);
    assert sent + "" == sent && sent + d[..k] + "" == sent + d[..k];
    assert k == 0 ==> d[..k] == "";
    assert k == 1 ==> d[..k] == "\r";
    assert k >= 2 ==> d[..k] == "\r\n" + boundary[..k - 2];
  }

  /** After `i` bytes of `x`, `k` of them matched: no occurrence starts before the matched ones. */
  ghost predicate Scanned(boundary: string, x: string, i: nat, k: nat) {
    var d := Delimiter(boundary);
    && k <= i <= |x| && k < |d|
    && x[i - k..i] == d[..k]
    && forall q: nat | q < i - k :: !OccursAt(x, d, q)
  }

  /** The next byte keeps that, because the delimiter has CR at its start only. */
  lemma ScannedNext(boundary: string, x: string, i: nat, k: nat)
    requires '\r' !in boundary && Scanned(boundary, x, i, k) && i < |x|
    ensures var d := Delimiter(boundary);
            if x[i] == d[k] then
              if k + 1 == |d| then FirstAt(x, d, i - k) else Scanned(boundary, x, i + 1, k + 1)
            else Scanned(boundary, x, i + 1, if x[i] == '\r' then 1 else 0)
  {
    var d := Delimiter(boundary);
    assert x[i - k..i + 1] == d[..k] + [x[i]];
    if x[i] == d[k] {
      assert d[..k + 1] == d[..k] + [d[k]];
      if k + 1 == |d| {
        assert d[..k + 1] == d;
      }
    } else {
      assert forall t | 1 <= t < |d| :: d[t] != '\r';
      forall q: nat | i - k <= q < (if x[i] == '\r' then i else i + 1) ensures !OccursAt(x, d, q) {
        OccurrenceByte(x, d, q, 0);
        OccurrenceByte(x, d, q, k);
        if i - k < q < i {
          assert x[i - k..i][q - (i - k)] == x[q];
        }
      }
    }
  }

  lemma OccurrenceByte(x: string, d: string, q: nat, t: nat)
    requires t < |d|
    ensures OccursAt(x, d, q) ==> x[q + t] == d[t]
  {
    if OccursAt(x, d, q) {
      assert x[q..q + |d|][t] == x[q + t];
    }
  }

  lemma ScannedBounds(boundary: string, x: string, i: nat, k: nat)
    requires Scanned(boundary, x, i, k)
    ensures k <= i <= |x| && k < |Delimiter(boundary)|
    ensures x[..i - k] + Delimiter(boundary)[..k] == x[..i]
  {
  }

  lemma FirstIsAhead(boundary: string, x: string, i: nat, k: nat, j: nat)
    requires Scanned(boundary, x, i, k) && FirstAt(x, Delimiter(boundary), j)
    ensures i - k <= j && i < |x| && j + |Delimiter(boundary)| <= |x|
  {
  }

  lemma FirstIsUnique(x: string, d: string, i: nat, j: nat)
    requires FirstAt(x, d, i) && FirstAt(x, d, j)
    ensures i == j
  {
  }

  lemma {:induction false} ScanToDelimiter(boundary: string, s: Scan, x: string, i: nat, k: nat, index: nat, j: nat)
    requires boundary != "" && '\r' !in boundary && s.held == ""
    requires Scanned(boundary, x, i, k) && FirstAt(x, Delimiter(boundary), j)
    ensures Bytes(boundary, Scanning(boundary, s, x[..i - k], k, index), x[i..])
         == Bytes(boundary, Found(boundary, s, x[..j]), x[j + |Delimiter(boundary)|..])
    decreases |x| - i
  {
    hide Emit, Step, FirstAt, OccursAt, Scanned, Scanning, Found, Delimiter;
    var d := Delimiter(boundary);
    ScannedBounds(boundary, x, i, k);
    FirstIsAhead(boundary, x, i, k, j);
    var index' := if k < 2 then index else k - 2;
    ScanningStep(boundary, s, x[..i - k], k, index, x[i]);
    ScannedNext(boundary, x, i, k);
    assert x[i..][0] == x[i] && x[i..][1..] == x[i + 1..];
    assert x[..i] + [x[i]] == x[..i + 1];
    if x[i] == d[k] {
      if k + 1 == |d| {
        FirstIsUnique(x, d, i - k, j);
      } else {
        ScanToDelimiter(boundary, s, x, i + 1, k + 1, index', j);
      }
    } else {
      ScanToDelimiter(boundary, s, x, i + 1, if x[i] == '\r' then 1 else 0, index', j);
    }
  }

  /**
   The data of a part is exactly the text before the first delimiter, whatever it holds, and reading
   goes on right after that delimiter.
   */
  lemma PartDataEndsAtFirstDelimiter(boundary: string, s: Scan, x: string, j: nat)
    requires boundary != "" && '\r' !in boundary && s.state == PartDataStart && s.held == ""
    requires FirstAt(x, Delimiter(boundary), j)
    ensures Bytes(boundary, s, x) == Bytes(boundary,
      Found(boundary, s.(trace := Emit(s.trace, Note(OnPartHeadersComplete))), x[..j]), x[j + |Delimiter(boundary)|..])
  {
    hide Emit;
    var s' := s.(trace := Emit(s.trace, Note(OnPartHeadersComplete)));
    EmitPieces(s'.trace, OnPartData, "", "");
    EmitPieces(s'.trace, OnPartData, "", [x[0]]);
    assert "" + [x[0]] == [x[0]] && "" + "" == "";
    assert Step(boundary, s, x[0]) == Step(boundary, Scanning(boundary, s', "", 0, s.index), x[0]);
    ScanToDelimiter(boundary, s', x, 0, 0, s.index, j);
    assert x[..0] == "" && x[0..] == x;
  }

  /** `k` bytes at the end of a text may begin the delimiter, and no longer stretch may. */
  ghost predicate HoldsBack(x: string, d: string, k: nat) {
    && k < |d| && k <= |x| && x[|x| - k..] == d[..k]
    && forall n: nat | k < n < |d| && n <= |x| :: x[|x| - n..] != d[..n]
  }

  lemma EndsBefore(x: string, d: string, i: nat, n: nat)
    requires i < |x| && 0 < n <= |d| && n <= i + 1 && x[..i + 1][i + 1 - n..] == d[..n]
    ensures x[i] == d[n - 1] && x[..i][i - (n - 1)..] == d[..n - 1]
  {
    assert x[..i + 1][i + 1 - n..][n - 1] == x[i];
    assert x[..i][i - (n - 1)..] == x[..i + 1][i + 1 - n..][..n - 1];
  }

  /** A delimiter that begins at one place of a text does not begin later in it, while that may still be it. */
  lemma OneStart(x: string, d: string, n: nat, k: nat)
    requires 0 < n < k <= |d| && k <= |x| && d[0] == '\r' && (forall t | 1 <= t < |d| :: d[t] != '\r')
    requires x[|x| - k..] == d[..k]
    ensures x[|x| - n..] != d[..n]
  {
    assert x[|x| - k..][k - n] == d[k - n];
    assert x[|x| - k..][k - n] == x[|x| - n..][0];
  }

  lemma GrowsByOne(x: string, d: string, i: nat, k: nat)
    requires i < |x| && k < |d| && k <= i && x[..i][i - k..] == d[..k] && x[i] == d[k]
    ensures x[..i + 1][i - k..] == d[..k + 1]
  {
    assert x[..i + 1] == x[..i] + [x[i]] && d[..k + 1] == d[..k] + [d[k]];
    assert (x[..i] + [x[i]])[i - k..] == x[..i][i - k..] + [x[i]];
  }

  lemma HeldNext(boundary: string, x: string, i: nat, k: nat)
    requires '\r' !in boundary && i < |x| && HoldsBack(x[..i], Delimiter(boundary), k)
    ensures var d := Delimiter(boundary);
            var k' := if x[i] == d[k] then k + 1 else if x[i] == '\r' then 1 else 0;
            k' < |d| ==> HoldsBack(x[..i + 1], d, k')
  {
    var d, y := Delimiter(boundary), x[..i];
    var k' := if x[i] == d[k] then k + 1 else if x[i] == '\r' then 1 else 0;
    assert forall t | 1 <= t < |d| :: d[t] != '\r';
    assert y[i - k..] == d[..k];
    if k' == k + 1 {
      GrowsByOne(x, d, i, k);
    }
    hide Delimiter;
    forall n: nat | k' < n < |d| && n <= i + 1 ensures x[..i + 1][i + 1 - n..] != d[..n] {
      if x[..i + 1][i + 1 - n..] == d[..n] {
        EndsBefore(x, d, i, n);
        if 0 < n - 1 < k {
          OneStart(y, d, n - 1, k);
        }
      }
    }
  }

  /**
   Without a delimiter nothing is lost either: everything is delivered but for the longest last stretch of
   bytes that may begin the delimiter.
   */
  lemma {:induction false} ScanWithoutDelimiter(boundary: string, s: Scan, x: string, i: nat, k: nat, index: nat)
    returns (k': nat, index': nat)
    requires boundary != "" && '\r' !in boundary && s.held == "" && Scanned(boundary, x, i, k)
    requires forall q: nat :: !OccursAt(x, Delimiter(boundary), q)
    requires HoldsBack(x[..i], Delimiter(boundary), k)
    ensures Scanned(boundary, x, |x|, k') && HoldsBack(x, Delimiter(boundary), k')
    ensures Bytes(boundary, Scanning(boundary, s, x[..i - k], k, index), x[i..])
         == Accepted(Scanning(boundary, s, x[..|x| - k'], k', index'))
    decreases |x| - i
  {
    hide Emit, Step, OccursAt, Scanned, Scanning, Delimiter, HoldsBack;
    var d := Delimiter(boundary);
    ScannedBounds(boundary, x, i, k);
    if i == |x| {
      k', index' := k, index;
      assert x[..i] == x;
      return;
    }
    HeldNext(boundary, x, i, k);
    index' := if k < 2 then index else k - 2;
    ScanningStep(boundary, s, x[..i - k], k, index, x[i]);
    ScannedNext(boundary, x, i, k);
    assert x[i..][0] == x[i] && x[i..][1..] == x[i + 1..];
    assert x[..i] + [x[i]] == x[..i + 1];
    var next := if x[i] == d[k] then k + 1 else if x[i] == '\r' then 1 else 0;
    k', index' := ScanWithoutDelimiter(boundary, s, x, i + 1, next, index');
  }

  // ----- Names that dangle, in terms of the text -----

  /** The length of the longest stretch of name bytes at the start of a text. */
  function NameLength(x: string): (n: nat)
    ensures n <= |x| && (forall i | 0 <= i < n :: IsNameByte(x[i])) && (n < |x| ==> !IsNameByte(x[n]))
  {
    if x == "" || !IsNameByte(x[0]) then 0 else 1 + NameLength(x[1..])
  }

  /** The position of the first CR, or the length when there is none. */
  function ReturnAt(x: string): (n: nat)
    ensures n <= |x| && '\r' !in x[..n] && (n < |x| ==> x[n] == '\r')
  {
    if x == "" || x[0] == '\r' then 0 else
      assert x[..1 + ReturnAt(x[1..])] == [x[0]] + x[1..][..ReturnAt(x[1..])];
      1 + ReturnAt(x[1..])
  }

  /** Where the line behind a header line starts, past the CRLF of the value. */
  function NextLine(x: string): (n: nat)
    ensures n >= 2
  {
    var n := NameLength(x);
    n + ReturnAt(x[n..]) + 2
  }

  /** From the start of a header line on: some header section has a nonempty stretch of name bytes before a CR. */
  ghost predicate HeadersDangle(boundary: string, x: string)
    decreases |x|
  {
    var n := NameLength(x);
    n < |x| &&
    if x[n] == '\r' then n > 0 || (n + 2 <= |x| && DataDangle(boundary, x[n + 2..]))
    else NextLine(x) <= |x| && HeadersDangle(boundary, x[NextLine(x)..])
  }

  /** From the start of a part's data on. */
  ghost predicate DataDangle(boundary: string, x: string)
    decreases |x|
  {
    exists j: nat :: FirstAt(x, Delimiter(boundary), j) &&
      var rest := x[j + |Delimiter(boundary)|..];
      |rest| >= 2 && rest[0] == '\r' && HeadersDangle(boundary, rest[2..])
  }

  /** A name dangles somewhere behind the first boundary line. */
  ghost predicate TextDangles(boundary: string, x: string) {
    |x| >= |boundary| + 2 && HeadersDangle(boundary, x[|boundary| + 2..])
  }

  lemma {:induction false} DanglingStays(boundary: string, s: Scan, x: string)
    requires boundary != "" && Valid(boundary, s) && s.dangling && Bytes(boundary, s, x).Accepted?
    ensures Bytes(boundary, s, x).scan.dangling
    decreases |x|
  {
    hide Emit;
    if x != "" {
      DanglingStays(boundary, Step(boundary, s, x[0]).scan, x[1..]);
    }
  }

  lemma BytesCons(boundary: string, s: Scan, x: string)
    requires boundary != "" && Valid(boundary, s) && x != "" && Bytes(boundary, s, x).Accepted?
    ensures Step(boundary, s, x[0]).Accepted?
            && Bytes(boundary, s, x) == Bytes(boundary, Step(boundary, s, x[0]).scan, x[1..])
  {
  }

  lemma ReadOne(boundary: string, s: Scan, x: string, s': Scan)
    requires boundary != "" && Valid(boundary, s) && x != "" && Step(boundary, s, x[0]) == Accepted(s')
    ensures Valid(boundary, s') && Bytes(boundary, s, x) == Bytes(boundary, s', x[1..])
  {
  }

  lemma NothingLeft(boundary: string, s: Scan, x: string)
    requires boundary != "" && Valid(boundary, s) && x == ""
    ensures Bytes(boundary, s, x) == Accepted(s)
  {
  }

  lemma NameByte(boundary: string, s: Scan, c: char)
    requires boundary != "" && Valid(boundary, s) && s.state == HeaderField && IsNameByte(c)
    ensures Step(boundary, s, c) == Accepted(s.(held := s.held + [c], named := true))
  {
  }

  lemma ValueByte(boundary: string, s: Scan, c: char)
    requires boundary != "" && Valid(boundary, s) && s.state in {HeaderValueStart, HeaderValue}
    ensures match Step(boundary, s, c)
            case Rejected(_) => false
            case Accepted(s') =>
              && s'.held == "" && s'.dangling == s.dangling
              && if c == '\r' then s'.state == HeaderValueAlmostDone else s'.state in {HeaderValueStart, HeaderValue}
  {
    hide Emit;
  }

  lemma {:induction false} NameRun(boundary: string, s: Scan, x: string, n: nat)
    requires boundary != "" && Valid(boundary, s) && s.state == HeaderField && n <= |x|
    requires forall i | 0 <= i < n :: IsNameByte(x[i])
    ensures var s' := if n == 0 then s else s.(held := s.held + x[..n], named := true);
            Valid(boundary, s') && Bytes(boundary, s, x) == Bytes(boundary, s', x[n..])
    decreases n
  {
    hide Emit, Step, Bytes, IsNameByte;
    if n == 0 {
      assert x[0..] == x;
    } else {
      NameByte(boundary, s, x[0]);
      var s1 := s.(held := s.held + [x[0]], named := true);
      assert forall i | 0 <= i < n - 1 :: x[1..][i] == x[i + 1];
      ReadOne(boundary, s, x, s1);
      assert [x[0]] == x[..1];
      NameRun(boundary, s1, x[1..], n - 1);
      assert x[1..][n - 1..] == x[n..];
      assert s.held + x[..n] == s1.held + x[1..][..n - 1];
    }
  }

  lemma {:induction false} ValueRun(boundary: string, s: Scan, x: string) returns (s': Scan)
    requires boundary != "" && Valid(boundary, s) && s.state in {HeaderValueStart, HeaderValue}
    ensures s'.held == "" && s'.dangling == s.dangling && Valid(boundary, s')
    ensures var n := ReturnAt(x);
            if n == |x| then Bytes(boundary, s, x) == Accepted(s')
            else s'.state == HeaderValueAlmostDone && Bytes(boundary, s, x) == Bytes(boundary, s', x[n + 1..])
    decreases |x|
  {
    hide Emit, Step, Bytes;
    if x == "" {
      s' := s;
      NothingLeft(boundary, s, x);
    } else {
      ValueByte(boundary, s, x[0]);
      var s1 := Step(boundary, s, x[0]).scan;
      ReadOne(boundary, s, x, s1);
      if x[0] == '\r' {
        s' := s1;
      } else {
        s' := ValueRun(boundary, s1, x[1..]);
        assert ReturnAt(x) == 1 + ReturnAt(x[1..]);
        if ReturnAt(x) < |x| {
          assert x[1..][ReturnAt(x[1..]) + 1..] == x[ReturnAt(x) + 1..];
        }
      }
    }
  }

  lemma {:induction false} BoundaryRun(boundary: string, s: Scan, x: string, i: nat) returns (s': Scan)
    requires boundary != "" && s.state == StartBoundary && s.index == i <= |boundary| + 1 && s.held == ""
    requires Bytes(boundary, s, x).Accepted?
    ensures s'.held == "" && s'.dangling == s.dangling && Valid(boundary, s')
    ensures if |x| < |boundary| + 2 - i then Bytes(boundary, s, x) == Accepted(s')
            else s'.state == HeaderFieldStart && Bytes(boundary, s, x) == Bytes(boundary, s', x[|boundary| + 2 - i..])
    decreases |x|
  {
    hide Emit;
    if x == "" {
      s' := s;
    } else {
      var s1 := Step(boundary, s, x[0]).scan;
      if i == |boundary| + 1 {
        s' := s1;
      } else {
        s' := BoundaryRun(boundary, s1, x[1..], i + 1);
        if |x| >= |boundary| + 2 - i {
          assert x[1..][|boundary| + 1 - i..] == x[|boundary| + 2 - i..];
        }
      }
    }
  }

  /** A byte that is expected, or the end of the text. */
  lemma ExpectedByte(boundary: string, s: Scan, x: string)
    requires boundary != "" && Valid(boundary, s) && s.held == "" && Bytes(boundary, s, x).Accepted? && x != ""
    requires s.state in {HeadersAlmostDone, HeaderValueAlmostDone, PartDataEnd}
    ensures Step(boundary, s, x[0]).Accepted?
    ensures var s' := Step(boundary, s, x[0]).scan;
            && Valid(boundary, s') && s'.held == "" && s'.dangling == s.dangling
            && s'.state == (if s.state == HeadersAlmostDone then PartDataStart else HeaderFieldStart)
            && Bytes(boundary, s, x) == Bytes(boundary, s', x[1..])
  {
    hide Emit;
    BytesCons(boundary, s, x);
  }

  /** The byte that ends a stretch of name bytes. */
  lemma NameEnd(boundary: string, s: Scan, x: string)
    requires boundary != "" && Valid(boundary, s) && s.state == HeaderField && Bytes(boundary, s, x).Accepted?
    requires x != "" && !IsNameByte(x[0])
    ensures Step(boundary, s, x[0]).Accepted?
    ensures var s' := Step(boundary, s, x[0]).scan;
            && Valid(boundary, s') && s'.held == "" && Bytes(boundary, s, x) == Bytes(boundary, s', x[1..])
            && if x[0] == '\r' then s'.state == HeadersAlmostDone && s'.dangling == (s.dangling || s.named)
               else s'.state == HeaderValueStart && s'.dangling == s.dangling && ReturnAt(x) == ReturnAt(x[1..]) + 1
  {
    hide Emit;
    BytesCons(boundary, s, x);
  }

  lemma {:induction false} HeadersText(boundary: string, s: Scan, x: string)
    requires boundary != "" && '\r' !in boundary && Valid(boundary, s) && s.held == "" && !s.dangling
    requires s.state == HeaderFieldStart && Bytes(boundary, s, x).Accepted?
    ensures Bytes(boundary, s, x).scan.dangling <==> HeadersDangle(boundary, x)
    decreases |x|
  {
    hide Emit, Step, Bytes, DataDangle;
    var n := NameLength(x);
    var s0 := s.(state := HeaderField, named := false);
    FieldStart(boundary, s, x);
    if x != "" {
      NameRun(boundary, s0, x, n);
      var s1 := if n == 0 then s0 else s0.(held := s0.held + x[..n], named := true);
      if n == |x| {
        NothingLeft(boundary, s1, x[n..]);
      } else {
        BehindStretch(boundary, s1, x, n);
      }
    }
  }

  lemma HeadersUnfold(boundary: string, x: string)
    ensures var n := NameLength(x);
            HeadersDangle(boundary, x) <==>
              n < |x| &&
              if x[n] == '\r' then n > 0 || (n + 2 <= |x| && DataDangle(boundary, x[n + 2..]))
              else NextLine(x) <= |x| && HeadersDangle(boundary, x[NextLine(x)..])
  {
    hide DataDangle, NextLine, NameLength;
  }

  lemma {:induction false} BehindStretch(boundary: string, s: Scan, x: string, n: nat)
    requires boundary != "" && '\r' !in boundary && Valid(boundary, s) && !s.dangling && s.state == HeaderField
    requires n == NameLength(x) < |x| && (s.named <==> n > 0) && Bytes(boundary, s, x[n..]).Accepted?
    ensures Bytes(boundary, s, x[n..]).scan.dangling <==> HeadersDangle(boundary, x)
    decreases |x|, 0
  {
    hide Emit, Step, Bytes, DataDangle, HeadersDangle, NameLength, ReturnAt, IsNameByte;
    HeadersUnfold(boundary, x);
    assert x[n..][0] == x[n] && x[n..][1..] == x[n + 1..];
    NameEnd(boundary, s, x[n..]);
    var s' := Step(boundary, s, x[n]).scan;
    if x[n] == '\r' {
      if n > 0 {
        DanglingStays(boundary, s', x[n + 1..]);
      } else {
        BehindBlankLine(boundary, s', x[n + 1..], x, n);
      }
    } else {
      BehindName(boundary, s', x[n + 1..], x, n);
    }
  }

  lemma FieldStart(boundary: string, s: Scan, x: string)
    requires boundary != "" && Valid(boundary, s) && s.held == "" && s.state == HeaderFieldStart
    ensures x != "" ==> Bytes(boundary, s, x) == Bytes(boundary, s.(state := HeaderField, named := false), x)
    ensures x == "" ==> Bytes(boundary, s, x) == Accepted(s)
  {
    hide Emit;
  }

  lemma {:induction false} BehindBlankLine(boundary: string, s: Scan, y: string, x: string, n: nat)
    requires boundary != "" && '\r' !in boundary && Valid(boundary, s) && s.held == "" && !s.dangling
    requires s.state == HeadersAlmostDone && Bytes(boundary, s, y).Accepted?
    requires n < |x| && y == x[n + 1..]
    ensures Bytes(boundary, s, y).scan.dangling <==> n + 2 <= |x| && DataDangle(boundary, x[n + 2..])
    decreases |y|
  {
    hide Emit, Step, Bytes, DataDangle;
    if y == "" {
      NothingLeft(boundary, s, y);
    } else {
      ExpectedByte(boundary, s, y);
      assert y[1..] == x[n + 2..];
      DataText(boundary, Step(boundary, s, y[0]).scan, x[n + 2..]);
    }
  }

  lemma {:induction false} BehindName(boundary: string, s: Scan, y: string, x: string, n: nat)
    requires boundary != "" && '\r' !in boundary && Valid(boundary, s) && s.held == "" && !s.dangling
    requires s.state == HeaderValueStart && Bytes(boundary, s, y).Accepted?
    requires n < |x| && y == x[n + 1..] && ReturnAt(x[n..]) == ReturnAt(y) + 1
    ensures Bytes(boundary, s, y).scan.dangling <==>
            n + ReturnAt(x[n..]) + 2 <= |x| && HeadersDangle(boundary, x[n + ReturnAt(x[n..]) + 2..])
    decreases |y|
  {
    hide Emit, Step, Bytes, DataDangle, HeadersDangle;
    var s1 := ValueRun(boundary, s, y);
    var e := ReturnAt(y);
    if e < |y| {
      var z := y[e + 1..];
      if z == "" {
        NothingLeft(boundary, s1, z);
      } else {
        ExpectedByte(boundary, s1, z);
        assert z[1..] == x[n + ReturnAt(x[n..]) + 2..];
        HeadersText(boundary, Step(boundary, s1, z[0]).scan, z[1..]);
      }
    }
  }

  lemma {:induction false} DataText(boundary: string, s: Scan, x: string)
    requires boundary != "" && '\r' !in boundary && Valid(boundary, s) && s.held == "" && !s.dangling
    requires s.state == PartDataStart && Bytes(boundary, s, x).Accepted?
    ensures Bytes(boundary, s, x).scan.dangling <==> DataDangle(boundary, x)
    decreases |x|
  {
    hide Emit, Step, Bytes, HeadersDangle;
    var d := Delimiter(boundary);
    if exists j: nat :: FirstAt(x, d, j) {
      var j: nat :| FirstAt(x, d, j);
      assert DataDangle(boundary, x) <==>
             var rest := x[j + |d|..]; |rest| >= 2 && rest[0] == '\r' && HeadersDangle(boundary, rest[2..]) by {
        forall i: nat | FirstAt(x, d, i) ensures i == j {
          FirstIsUnique(x, d, i, j);
        }
      }
      PartDataEndsAtFirstDelimiter(boundary, s, x, j);
      var found := Found(boundary, s.(trace := Emit(s.trace, Note(OnPartHeadersComplete))), x[..j]);
      BehindDelimiter(boundary, found, x[j + |d|..]);
    } else {
      NoOccurrence(x, d);
      NeverFound(boundary, s, x);
    }
  }

  lemma {:induction false} NoOccurrence(x: string, d: string)
    requires forall j: nat :: !FirstAt(x, d, j)
    ensures forall q: nat :: !OccursAt(x, d, q)
  {
    forall q: nat ensures !OccursAt(x, d, q) {
      NoneUpTo(x, d, q);
    }
  }

  lemma {:induction false} NoneUpTo(x: string, d: string, n: nat)
    requires forall j: nat :: !FirstAt(x, d, j)
    ensures forall q: nat | q <= n :: !OccursAt(x, d, q)
  {
    hide OccursAt;
    if n > 0 {
      NoneUpTo(x, d, n - 1);
    }
    assert !FirstAt(x, d, n);
  }

  lemma NeverFound(boundary: string, s: Scan, x: string)
    requires boundary != "" && '\r' !in boundary && s.held == "" && !s.dangling && s.state == PartDataStart
    requires forall q: nat :: !OccursAt(x, Delimiter(boundary), q)
    ensures Bytes(boundary, s, x).Accepted? && !Bytes(boundary, s, x).scan.dangling
  {
    hide Emit;
    if x != "" {
      var s' := s.(trace := Emit(s.trace, Note(OnPartHeadersComplete)));
      DataStartIsScanning(boundary, s, x[0]);
      assert x[..0] == "" && x[0..] == x;
      var k, index := ScanWithoutDelimiter(boundary, s', x, 0, 0, s.index);
      assert Bytes(boundary, s, x) == Bytes(boundary, Scanning(boundary, s', "", 0, s.index), x);
    }
  }

  lemma DataStartIsScanning(boundary: string, s: Scan, c: char)
    requires boundary != "" && s.state == PartDataStart && s.held == ""
    ensures var s' := s.(trace := Emit(s.trace, Note(OnPartHeadersComplete)));
            Step(boundary, s, c) == Step(boundary, Scanning(boundary, s', "", 0, s.index), c)
  {
    hide Emit;
    var s' := s.(trace := Emit(s.trace, Note(OnPartHeadersComplete)));
    EmitPieces(s'.trace, OnPartData, "", "");
    EmitPieces(s'.trace, OnPartData, "", [c]);
    assert "" + [c] == [c] && "" + "" == "";
  }

  lemma {:induction false} AtEndStays(boundary: string, s: Scan, x: string)
    requires boundary != "" && s.held == "" && s.state == End
    ensures Bytes(boundary, s, x) == Accepted(s)
    decreases |x|
  {
    if x != "" {
      AtEndStays(boundary, s, x[1..]);
    }
  }

  lemma {:induction false} BehindDelimiter(boundary: string, s: Scan, x: string)
    requires boundary != "" && '\r' !in boundary && s.held == "" && !s.dangling && s.state == PartDataAlmostEnd
    requires Bytes(boundary, s, x).Accepted?
    ensures Bytes(boundary, s, x).scan.dangling <==> |x| >= 2 && x[0] == '\r' && HeadersDangle(boundary, x[2..])
    decreases |x|, 1
  {
    hide Emit, HeadersDangle;
    if x != "" {
      BytesCons(boundary, s, x);
      var s1 := Step(boundary, s, x[0]).scan;
      var y := x[1..];
      if y == "" {
      } else if x[0] == '\r' {
        ExpectedByte(boundary, s1, y);
        assert y[1..] == x[2..];
        HeadersText(boundary, Step(boundary, s1, y[0]).scan, x[2..]);
      } else {
        BytesCons(boundary, s1, y);
        AtEndStays(boundary, Step(boundary, s1, y[0]).scan, y[1..]);
      }
    }
  }

  /**
   What `dangling` notes is a property of the text: in some header section a nonempty stretch of name
   bytes stands before a CR. So an accepted text may be cut anywhere exactly when none does.
   */
  lemma CutsDoNotShowIffTextDoesNotDangle(boundary: string, x: string)
    requires boundary != "" && '\r' !in boundary && Buffer(boundary, Init, x).Accepted?
    ensures Buffer(boundary, Init, x).scan.dangling <==> TextDangles(boundary, x)
    ensures (forall parts | Joined(parts) == x :: Buffers(boundary, Init, parts) == Buffer(boundary, Init, x))
      <==> !TextDangles(boundary, x)
  {
    hide Buffers, HeadersDangle, Bytes;
    CutsDoNotShowIffNoNameDangles(boundary, x);
    FromStart(boundary, x);
    var s := BoundaryRun(boundary, Init.(state := StartBoundary), x, 0);
    if |x| >= |boundary| + 2 {
      HeadersText(boundary, s, x[|boundary| + 2..]);
    }
  }

  lemma FromStart(boundary: string, x: string)
    requires boundary != ""
    ensures Bytes(boundary, Init.(state := StartBoundary), x).Accepted? <==> Bytes(boundary, Init, x).Accepted?
    ensures Bytes(boundary, Init, x).Accepted? ==>
              Bytes(boundary, Init, x).scan.dangling == Bytes(boundary, Init.(state := StartBoundary), x).scan.dangling
  {
  }

  lemma BoundaryBytes()
    ensures Bytes("--b", Init, "--b\r\nX\r\n")
            == Bytes("--b", Scan(StartBoundary, 3, [], "", false, false), "\r\nX\r\n")
  {
    hide Bytes;
    var b := "--b";
    ReadOne(b, Init, "--b\r\nX\r\n", Scan(StartBoundary, 1, [], "", false, false));
    assert "--b\r\nX\r\n"[1..] == "-b\r\nX\r\n";
    ReadOne(b, Scan(StartBoundary, 1, [], "", false, false), "-b\r\nX\r\n",
      Scan(StartBoundary, 2, [], "", false, false));
    assert "-b\r\nX\r\n"[1..] == "b\r\nX\r\n";
    ReadOne(b, Scan(StartBoundary, 2, [], "", false, false), "b\r\nX\r\n",
      Scan(StartBoundary, 3, [], "", false, false));
    assert "b\r\nX\r\n"[1..] == "\r\nX\r\n";
  }

  lemma LineEndBytes()
    ensures var t := Emit([], Note(OnPartDataBegin));
            Bytes("--b", Scan(StartBoundary, 3, [], "", false, false), "\r\nX\r\n")
              == Bytes("--b", Scan(HeaderFieldStart, 0, t, "", false, false), "X\r\n")
  {
    hide Bytes, Emit;
    var b, t := "--b", Emit([], Note(OnPartDataBegin));
    ReadOne(b, Scan(StartBoundary, 3, [], "", false, false), "\r\nX\r\n", Scan(StartBoundary, 4, [], "", false, false));
    assert "\r\nX\r\n"[1..] == "\nX\r\n";
    ReadOne(b, Scan(StartBoundary, 4, [], "", false, false), "\nX\r\n", Scan(HeaderFieldStart, 0, t, "", false, false));
    assert "\nX\r\n"[1..] == "X\r\n";
  }

  lemma DanglingBytes(b: string, t: Trace)
    requires b != ""
    ensures Bytes(b, Scan(HeaderFieldStart, 0, t, "", false, false), "X\r\n")
            == Accepted(Scan(PartDataStart, 0, t, "", true, true))
  {
    hide Bytes, Emit;
    ReadOne(b, Scan(HeaderFieldStart, 0, t, "", false, false), "X\r\n", Scan(HeaderField, 0, t, "X", true, false));
    assert "X\r\n"[1..] == "\r\n";
    ReadOne(b, Scan(HeaderField, 0, t, "X", true, false), "\r\n", Scan(HeadersAlmostDone, 0, t, "", true, true));
    assert "\r\n"[1..] == "\n";
    ReadOne(b, Scan(HeadersAlmostDone, 0, t, "", true, true), "\n", Scan(PartDataStart, 0, t, "", true, true));
    NothingLeft(b, Scan(PartDataStart, 0, t, "", true, true), "\n"[1..]);
  }

  /** Such a text: the name X, with no colon behind it. It is accepted, and some cut shows. */
  lemma ANameDangles()
    ensures var x := "--b\r\nX\r\n";
            && Buffer("--b", Init, x).Accepted? && TextDangles("--b", x)
            && exists parts :: Joined(parts) == x && Buffers("--b", Init, parts) != Buffer("--b", Init, x)
  {
    hide Bytes, Step, Buffers, TextDangles, Emit;
    BoundaryBytes();
    LineEndBytes();
    DanglingBytes("--b", Emit([], Note(OnPartDataBegin)));
    CutsDoNotShowIffTextDoesNotDangle("--b", "--b\r\nX\r\n");
  }
}
