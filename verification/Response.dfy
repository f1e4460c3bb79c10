/** Responses: the text that `gen_response` writes, and the stream it is read from again. */
module Responses {

  const EHTTP_VERSION := "1.0.5"
  const DEFAULT_CONTENT_TYPE := "application/json; charset=UTF-8"
  const NEED_MORE_STATUS := 1

  // ----- std::map<std::string, std::string> -----

  /** The order of `std::string`: byte by byte, a proper prefix first. */
  predicate Less(a: string, b: string)
    decreases |a|
  {
    b != "" && (a == "" || a[0] < b[0] || (a[0] == b[0] && Less(a[1..], b[1..])))
  }

  lemma {:induction false} LessTransitive(a: string, b: string, c: string)
    requires Less(a, b) && Less(b, c)
    ensures Less(a, c)
    decreases |a|
  {
    if a != "" && a[0] == b[0] == c[0] {
      LessTransitive(a[1..], b[1..], c[1..]);
    }
  }

  lemma {:induction false} LessTotal(a: string, b: string)
    ensures Less(a, b) || a == b || Less(b, a)
    ensures !(Less(a, b) && (a == b || Less(b, a)))
    decreases |a|
  {
    if a != "" && b != "" {
      LessTotal(a[1..], b[1..]);
      assert a == [a[0]] + a[1..] && b == [b[0]] + b[1..];
    }
  }

  /** `n` characters agree, and then one text ends or has the smaller character. */
  predicate FirstDifference(a: string, b: string, n: nat) {
    n <= |a| && n < |b| && a[..n] == b[..n] && (n == |a| || a[n] < b[n])
  }

  lemma {:induction false} LessIsLexicographic(a: string, b: string)
    ensures Less(a, b) <==> exists n: nat :: FirstDifference(a, b, n)
    decreases |a|
  {
    forall n: nat | FirstDifference(a, b, n) && n > 0 ensures a != "" && a[0] == b[0] {
      assert a[..n][0] == a[0] && b[..n][0] == b[0];
    }
    if a != "" && b != "" && a[0] == b[0] {
      LessIsLexicographic(a[1..], b[1..]);
      if n: nat :| FirstDifference(a[1..], b[1..], n) {
        assert a[..n + 1] == [a[0]] + a[1..][..n] && b[..n + 1] == [b[0]] + b[1..][..n];
        assert FirstDifference(a, b, n + 1);
      }
      if n: nat :| FirstDifference(a, b, n) {
        assert n > 0;
        assert a[1..][..n - 1] == a[..n][1..] && b[1..][..n - 1] == b[..n][1..];
        assert FirstDifference(a[1..], b[1..], n - 1);
      }
    } else if Less(a, b) {
      assert FirstDifference(a, b, 0);
    }
  }

  type Entry = (string, string)

  /** A map as its iterators go through it. */
  ghost predicate InOrder(m: seq<Entry>) {
    forall i, j | 0 <= i < j < |m| :: Less(m[i].0, m[j].0)
  }

  function Lookup(m: seq<Entry>, name: string): (r: (bool, string)) {
    if m == [] then (false, "") else if m[0].0 == name then (true, m[0].1) else Lookup(m[1..], name)
  }

  /** `m[name] = value` */
  function Assign(m: seq<Entry>, name: string, value: string): seq<Entry> {
    if m == [] || Less(name, m[0].0) then [(name, value)] + m
    else if m[0].0 == name then [(name, value)] + m[1..]
    else [m[0]] + Assign(m[1..], name, value)
  }

  lemma {:induction false} AssignNames(m: seq<Entry>, name: string, value: string)
    ensures forall e <- Assign(m, name, value) :: e.0 == name || exists d <- m :: d.0 == e.0
    decreases |m|
  {
    if m != [] && !Less(name, m[0].0) && m[0].0 != name {
      AssignNames(m[1..], name, value);
      forall e | e in Assign(m, name, value) ensures e.0 == name || exists d <- m :: d.0 == e.0 {
        if e in Assign(m[1..], name, value) && e.0 != name {
          var d :| d in m[1..] && d.0 == e.0;
          assert d in m;
        } else if e == m[0] {
          assert m[0] in m;
        }
      }
    }
  }

  /** Assignment keeps the order, sets one name, and leaves the others alone. */
  lemma {:induction false} AssignIsUpdate(m: seq<Entry>, name: string, value: string)
    requires InOrder(m)
    ensures InOrder(Assign(m, name, value))
    ensures forall other :: Lookup(Assign(m, name, value), other) == if other == name then (true, value)
            else Lookup(m, other)
    decreases |m|
  {
    var m' := Assign(m, name, value);
    if m == [] {
      assert m'[1..] == [];
    } else if Less(name, m[0].0) {
      LessThanAll(m, name);
      assert m'[1..] == m;
    } else if m[0].0 == name {
      assert m'[1..] == m[1..];
    } else {
      LessTotal(name, m[0].0);
      AssignIsUpdate(m[1..], name, value);
      AssignNames(m[1..], name, value);
      assert m'[1..] == Assign(m[1..], name, value);
      forall j | 0 < j < |m'| ensures Less(m[0].0, m'[j].0) {
        assert m'[j] in Assign(m[1..], name, value);
      }
    }
  }

  lemma {:induction false} LessThanAll(m: seq<Entry>, name: string)
    requires InOrder(m) && m != [] && Less(name, m[0].0)
    ensures forall e <- m :: Less(name, e.0)
    ensures !Lookup(m, name).0
  {
    forall i | 0 <= i < |m| ensures Less(name, m[i].0) {
      if i > 0 {
        LessTransitive(name, m[0].0, m[i].0);
      }
    }
    NotFound(m, name);
  }

  lemma {:induction false} NotFound(m: seq<Entry>, name: string)
    requires forall e <- m :: Less(name, e.0)
    ensures !Lookup(m, name).0
    decreases |m|
  {
    if m != [] {
      assert m[0] in m;
      LessTotal(name, m[0].0);
      assert forall e <- m[1..] :: e in m;
      NotFound(m[1..], name);
    }
  }

  // ----- Text -----

  function DecimalDigit(d: nat): char
    requires d < 10
  {
    ('0' as int + d) as char
  }

  /** `<<` of a number. */
  function Decimal(n: nat): string {
    (if n < 10 then "" else Decimal(n / 10)) + [DecimalDigit(n % 10)]
  }

  function EntryText(e: Entry): string {
    e.0 + ": " + e.1 + "\r\n"
  }

  function EntriesText(m: seq<Entry>): string {
    if m == [] then "" else EntriesText(m[..|m| - 1]) + EntryText(m[|m| - 1])
  }

  function ConnectionText(keepAlive: bool): string {
    if keepAlive then "Keep-Alive" else "close"
  }

  /** The headers that the server writes before those of the user. */
  function OwnEntries(m: seq<Entry>, body: string, keepAlive: bool): seq<Entry> {
    [("Server", "ehttp/" + EHTTP_VERSION)]
    + (if Lookup(m, "Content-Type").0 then [] else [("Content-Type", DEFAULT_CONTENT_TYPE)])
    + (if Lookup(m, "Content-Length").0 then [] else [("Content-Length", Decimal(|body|))])
    + [("Connection", ConnectionText(keepAlive))]
  }

  function ResponseText(code: nat, msg: string, m: seq<Entry>, body: string, version: string, keepAlive: bool): string {
    version + " " + Decimal(code) + " " + msg + "\r\n" + EntriesText(OwnEntries(m, body, keepAlive) + m) + "\r\n" + body
  }

  /** How often a name stands before a value. */
  function Occurrences(m: seq<Entry>, name: string): nat {
    if m == [] then 0 else Occurrences(m[..|m| - 1], name) + if m[|m| - 1].0 == name then 1 else 0
  }

  /**
   The headers of a response: the user's come last, in their order; Content-Type and Content-Length stand
   there once, with the user's value if there is one; Server and Connection are written whatever the user
   has set; and no other name is added.
   */
  ghost predicate AreWritten(all: seq<Entry>, m: seq<Entry>, body: string, keepAlive: bool) {
    var kind, length := Lookup(m, "Content-Type"), Lookup(m, "Content-Length");
    && |m| <= |all| && all[|all| - |m|..] == m
    && Occurrences(all, "Content-Type") == 1 && Occurrences(all, "Content-Length") == 1
    && Lookup(all, "Content-Type") == (true, if kind.0 then kind.1 else "application/json; charset=UTF-8")
    && Lookup(all, "Content-Length") == (true, if length.0 then length.1 else Decimal(|body|))
    && Occurrences(all, "Server") == 1 + Occurrences(m, "Server") && Lookup(all, "Server") == (true, "ehttp/1.0.5")
    && Occurrences(all, "Connection") == 1 + Occurrences(m, "Connection")
    && Lookup(all, "Connection") == (true, if keepAlive then "Keep-Alive" else "close")
    && forall name | name !in ["Content-Type", "Content-Length", "Server", "Connection"] ::
         Occurrences(all, name) == Occurrences(m, name) && Lookup(all, name) == Lookup(m, name)
  }

  lemma {:induction false} OccurrencesAppend(a: seq<Entry>, b: seq<Entry>, name: string)
    ensures Occurrences(a + b, name) == Occurrences(a, name) + Occurrences(b, name)
    decreases |b|
  {
    if b == [] {
      assert a + b == a;
    } else {
      assert (a + b)[..|a + b| - 1] == a + b[..|b| - 1];
      OccurrencesAppend(a, b[..|b| - 1], name);
    }
  }

  lemma {:induction false} LookupAppend(a: seq<Entry>, b: seq<Entry>, name: string)
    ensures Lookup(a + b, name) == if Lookup(a, name).0 then Lookup(a, name) else Lookup(b, name)
    decreases |a|
  {
    if a == [] {
      assert a + b == b;
    } else {
      assert (a + b)[1..] == a[1..] + b;
      LookupAppend(a[1..], b, name);
    }
  }

  /** In a map a name occurs once or not at all. */
  lemma {:induction false} OccursOnce(m: seq<Entry>, name: string)
    requires InOrder(m)
    ensures Occurrences(m, name) == if Lookup(m, name).0 then 1 else 0
  {
    hide Less;
    if m != [] {
      var front, last := m[..|m| - 1], m[|m| - 1];
      assert m == front + [last];
      LookupAppend(front, [last], name);
      OccursOnce(front, name);
      if Lookup(front, name).0 {
        LookupFinds(front, name);
        LessTotal(name, last.0);
      }
    }
  }

  lemma {:induction false} LookupFinds(m: seq<Entry>, name: string)
    ensures Lookup(m, name).0 ==> exists e <- m :: e.0 == name
    decreases |m|
  {
    if m != [] && m[0].0 != name {
      LookupFinds(m[1..], name);
      assert forall e <- m[1..] :: e in m;
    } else if m != [] {
      assert m[0] in m;
    }
  }

  /** One more entry behind those of the server. */
  lemma EntryAdded(own: seq<Entry>, e: Entry, name: string)
    ensures Occurrences(own + [e], name) == Occurrences(own, name) + if e.0 == name then 1 else 0
    ensures Lookup(own + [e], name) == if Lookup(own, name).0 then Lookup(own, name)
            else if e.0 == name then (true, e.1) else (false, "")
  {
    OccurrencesAppend(own, [e], name);
    LookupAppend(own, [e], name);
  }

  /** The server's own entries, name by name. */
  lemma OwnNamed(m: seq<Entry>, body: string, keepAlive: bool, name: string)
    ensures var own := OwnEntries(m, body, keepAlive);
            if name == "Server" then Occurrences(own, name) == 1 && Lookup(own, name) == (true, "ehttp/1.0.5")
            else if name == "Connection" then
              Occurrences(own, name) == 1
              && Lookup(own, name) == (true, if keepAlive then "Keep-Alive" else "close")
            else if name == "Content-Type" && !Lookup(m, name).0 then
              Occurrences(own, name) == 1 && Lookup(own, name) == (true, "application/json; charset=UTF-8")
            else if name == "Content-Length" && !Lookup(m, name).0 then
              Occurrences(own, name) == 1 && Lookup(own, name) == (true, Decimal(|body|))
            else Occurrences(own, name) == 0 && !Lookup(own, name).0
  {
    hide Occurrences, Lookup, Decimal;
    var e1, e4 := ("Server", "ehttp/" + EHTTP_VERSION), ("Connection", ConnectionText(keepAlive));
    var e2, e3 := ("Content-Type", DEFAULT_CONTENT_TYPE), ("Content-Length", Decimal(|body|));
    var own1: seq<Entry> := [] + [e1];
    var own2 := if Lookup(m, "Content-Type").0 then own1 else own1 + [e2];
    var own3 := if Lookup(m, "Content-Length").0 then own2 else own2 + [e3];
    assert OwnEntries(m, body, keepAlive) == own3 + [e4];
    NoEntry(name);
    assert "ehttp/" + EHTTP_VERSION == "ehttp/1.0.5";
    EntryAdded([], e1, name);
    EntryAdded(own1, e2, name);
    EntryAdded(own2, e3, name);
    EntryAdded(own3, e4, name);
  }

  lemma NoEntry(name: string)
    ensures Occurrences([], name) == 0 && Lookup([], name) == (false, "")
  {
  }

  /** The entries that `gen_response` writes are those. */
  lemma EntriesAreWritten(m: seq<Entry>, body: string, keepAlive: bool)
    requires InOrder(m)
    ensures AreWritten(OwnEntries(m, body, keepAlive) + m, m, body, keepAlive)
  {
    hide Occurrences, Lookup, OwnEntries, Decimal, InOrder;
    var own := OwnEntries(m, body, keepAlive);
    forall name
      ensures Occurrences(own + m, name) == Occurrences(own, name) + Occurrences(m, name)
      ensures Lookup(own + m, name) == if Lookup(own, name).0 then Lookup(own, name) else Lookup(m, name)
    {
      OccurrencesAppend(own, m, name);
      LookupAppend(own, m, name);
    }
    forall name | name !in ["Content-Type", "Content-Length", "Server", "Connection"]
      ensures Occurrences(own, name) == 0 && !Lookup(own, name).0
    {
      OwnNamed(m, body, keepAlive, name);
    }
    OccursOnce(m, "Content-Type");
    OccursOnce(m, "Content-Length");
    OwnNamed(m, body, keepAlive, "Content-Type");
    OwnNamed(m, body, keepAlive, "Content-Length");
    OwnNamed(m, body, keepAlive, "Server");
    OwnNamed(m, body, keepAlive, "Connection");
  }

  lemma {:induction false} EntriesAppend(a: seq<Entry>, b: seq<Entry>)
    ensures EntriesText(a + b) == EntriesText(a) + EntriesText(b)
    decreases |b|
  {
    if b == [] {
      assert a + b == a;
    } else {
      EntriesAppend(a, b[..|b| - 1]);
      assert (a + b)[..|a + b| - 1] == a + b[..|b| - 1];
    }
  }

  lemma NoEntries()
    ensures EntriesText([]) == ""
  {
  }

  lemma EntriesOne(m: seq<Entry>, e: Entry)
    ensures EntriesText(m + [e]) == EntriesText(m) + EntryText(e)
  {
    assert (m + [e])[..|m|] == m;
  }

  lemma Glue(s: string, l: string, a: string, b: string, e: string, d: string)
    ensures s + l + a + b + e + d == s + (l + (a + b) + e + d)
  {
  }

  lemma GlueLine(s: string, v: string, n: string, m: string)
    ensures s + v + " " + n + " " + m + "\r\n" == s + (v + " " + n + " " + m + "\r\n")
  {
  }

  class Response {
    var statusCode: nat
    var message: string
    var headers: seq<Entry>
    var body: string
    var isWritten: bool

    // `_res_bytes`: what the stream holds, its read position, its end-of-file and failure bits
    var bytes: string
    var cursor: nat
    var eof: bool
    var fail: bool

    ghost predicate Valid()
      reads this
    {
      InOrder(headers) && cursor <= |bytes| && (eof ==> fail && cursor == |bytes|)
    }

    constructor (code: nat, msg: string)
      ensures Valid() && statusCode == code && message == msg && headers == [] && body == "" && !isWritten
      ensures bytes == "" && cursor == 0 && !eof && !fail
    {
      statusCode, message := code, msg;
      headers, body, isWritten := [], "", false;
      bytes, cursor, eof, fail := "", 0, false, false;
    }

    method SetHead(name: string, value: string)
      requires Valid()
      modifies this`headers
      ensures Valid() && headers == Assign(old(headers), name, value)
      ensures forall other :: Lookup(headers, other) == if other == name then (true, value)
              else Lookup(old(headers), other)
    {
      AssignIsUpdate(headers, name, value);
      headers := Assign(headers, name, value);
    }

    method Write(text: string)
      modifies this`bytes
      ensures bytes == old(bytes) + text
    {
      bytes := bytes + text;
    }

    /** Writes the whole response, the server's own headers and then the user's in the order of the map. */
    method GenResponse(version: string, keepAlive: bool)
      requires Valid()
      modifies this`bytes
      ensures bytes == old(bytes) + ResponseText(statusCode, message, headers, body, version, keepAlive)
      ensures AreWritten(OwnEntries(headers, body, keepAlive) + headers, headers, body, keepAlive)
      ensures !old(eof) ==> Valid()
    {
      hide EntriesText, OwnEntries, Decimal, InOrder, AreWritten;
      EntriesAreWritten(headers, body, keepAlive);
      ghost var start, line := bytes, version + " " + Decimal(statusCode) + " " + message + "\r\n";
      Write(version);
      Write(" ");
      Write(Decimal(statusCode));
      Write(" ");
      Write(message);
      Write("\r\n");
      assert bytes == start + line by {
        GlueLine(start, version, Decimal(statusCode), message);
      }
      WriteOwnEntries(keepAlive);
      WriteEntries();
      ghost var own := OwnEntries(headers, body, keepAlive);
      EntriesAppend(own, headers);
      Write("\r\n");
      Write(body);
      Glue(start, line, EntriesText(own), EntriesText(headers), "\r\n", body);
    }

    method WriteOwnEntries(keepAlive: bool)
      modifies this`bytes
      ensures bytes == old(bytes) + EntriesText(OwnEntries(headers, body, keepAlive))
    {
      hide EntriesText, Decimal;
      ghost var start, own: seq<Entry> := bytes, [];
      assert EntriesText(own) == "" by {
        NoEntries();
      }
      own := OwnStep(own, start, "Server", "ehttp/" + EHTTP_VERSION);
      if !Lookup(headers, "Content-Type").0 {
        own := OwnStep(own, start, "Content-Type", DEFAULT_CONTENT_TYPE);
      }
      if !Lookup(headers, "Content-Length").0 {
        own := OwnStep(own, start, "Content-Length", Decimal(|body|));
      }
      own := OwnStep(own, start, "Connection", ConnectionText(keepAlive));
      assert own == OwnEntries(headers, body, keepAlive);
    }

    method WriteEntries()
      modifies this`bytes
      ensures bytes == old(bytes) + EntriesText(headers)
    {
      var i := 0;
      while i < |headers|
        invariant i <= |headers|
        invariant bytes == old(bytes) + EntriesText(headers[..i])
      {
        EntriesOne(headers[..i], headers[i]);
        assert headers[..i] + [headers[i]] == headers[..i + 1];
        Write(EntryText(headers[i]));
        i := i + 1;
      }
      assert headers[..i] == headers;
    }

    /** One of the server's own header lines. */
    method OwnStep(ghost own: seq<Entry>, ghost before: string, name: string, value: string)
        returns (ghost own': seq<Entry>)
      requires bytes == before + EntriesText(own)
      modifies this`bytes
      ensures own' == own + [(name, value)] && bytes == before + EntriesText(own')
    {
      EntriesOne(own, (name, value));
      own' := own + [(name, value)];
      Write(EntryText((name, value)));
    }

    /** Reads up to `size` bytes on from the cursor; tells to come back unless the end was run into. */
    method ReadSome(size: nat) returns (buffer: string, ret: int)
      requires Valid()
      modifies this`cursor, this`eof, this`fail
      ensures Valid()
      ensures old(!eof && !fail) ==>
                var n := if size <= |bytes| - old(cursor) then size else |bytes| - old(cursor);
                && buffer == bytes[old(cursor)..][..n] && cursor == old(cursor) + n
                && (eof <==> n < size) && fail == eof
      ensures old(eof || fail) ==> buffer == "" && cursor == old(cursor) && eof == old(eof) && fail
      ensures ret == if eof then 0 else 1
    {
      buffer := "";
      if eof || fail {
        fail := true;
      } else {
        var n := if size <= |bytes| - cursor then size else |bytes| - cursor;
        buffer := bytes[cursor..][..n];
        cursor := cursor + n;
        if n < size {
          eof, fail := true, true;
        }
      }
      ret := if eof then 0 else NEED_MORE_STATUS;
    }

    /** Moves the cursor back; a position before the beginning fails. */
    method Rollback(num: nat) returns (ret: int)
      requires Valid()
      modifies this`cursor, this`eof, this`fail
      ensures Valid() && !eof
      ensures old(eof || !fail) && num <= old(cursor) ==> ret == 0 && cursor == old(cursor) - num && !fail
      ensures old(eof || !fail) && num > old(cursor) ==> ret == -1 && cursor == old(cursor) && fail
      ensures old(!eof && fail) ==> ret == -1 && cursor == old(cursor) && fail
    {
      if eof {
        eof, fail := false, false;
      }
      if !fail {
        if num <= cursor {
          cursor := cursor - num;
        } else {
          fail := true;
        }
      }
      ret := if fail then -1 else 0;
    }
  }
}
