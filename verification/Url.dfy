/**
 URLs: `http_parser_parse_url` and `http_parse_host`, which fill in where each field of a URL stands.
 Buffers are at most 65535 bytes long, so that offsets and lengths fit their 16 bits.
 */
module Urls {
  import opened Options
  import opened HttpTypes
  import opened HttpVisit
  import opened HttpValues

  datatype UrlField = SCHEMA | HOST | PORT | PATH | QUERY | FRAGMENT | USERINFO

  datatype Slice = Slice(off: nat, len: nat)

  /** `field_set` and `field_data`: the fields that are set, and where. */
  type FieldData = map<UrlField, Slice>

  datatype HostState =
    | HostDead | UserInfoStart | UserInfo | HostStart | HostV6Start | Host | HostV6 | HostV6End
    | HostV6ZoneStart | HostV6Zone | HostPortStart | HostPort

  predicate IsHostChar(c: char) {
    IsAlphaNum(c) || c == '.' || c == '-'
  }

  predicate IsV6Char(c: char) {
    IsHex(c) || c == ':' || c == '.'
  }

  predicate IsZoneChar(c: char) {
    IsAlphaNum(c) || c == '%' || c == '.' || c == '-' || c == '_' || c == '~'
  }

  /** `http_parse_host_char` */
  function ParseHostChar(s: HostState, ch: char): HostState {
    match s
    case UserInfo => if ch == '@' then HostStart else if IsUserInfoChar(ch) then UserInfo else HostDead
    case UserInfoStart => if ch == '@' then HostStart else if IsUserInfoChar(ch) then UserInfo else HostDead
    case HostStart => if ch == '[' then HostV6Start else if IsHostChar(ch) then Host else HostDead
    case Host => if IsHostChar(ch) then Host else if ch == ':' then HostPortStart else HostDead
    case HostV6End => if ch == ':' then HostPortStart else HostDead
    case HostV6 => if ch == ']' then HostV6End else if IsV6Char(ch) then HostV6 else if ch == '%' then HostV6ZoneStart
                   else HostDead
    case HostV6Start => if IsV6Char(ch) then HostV6 else HostDead
    case HostV6Zone => if ch == ']' then HostV6End else if IsZoneChar(ch) then HostV6Zone else HostDead
    case HostV6ZoneStart => if IsZoneChar(ch) then HostV6Zone else HostDead
    case HostPort => if IsNum(ch) then HostPort else HostDead
    case HostPortStart => if IsNum(ch) then HostPort else HostDead
    case HostDead => HostDead
  }

  /** Whether a host may end there. */
  predicate MayEnd(s: HostState) {
    s.Host? || s.HostV6End? || s.HostPort?
  }

  // ----- The two scans as functions -----

  function Grown(d: FieldData, f: UrlField): FieldData {
    if f in d then d[f := Slice(d[f].off, d[f].len + 1)] else d
  }

  /** The state of the loop of `http_parser_parse_url`. */
  datatype Scan = Scan(s: State, current: Option<UrlField>, foundAt: bool, data: FieldData)

  /** The field that a byte belongs to, by the state it leads to; none for a delimiter. */
  function FieldOf(s: State): Option<UrlField> {
    if s.ReqSchema? then Some(SCHEMA)
    else if s.ReqServer? || s.ReqServerWithAt? then Some(HOST)
    else if s.ReqPath? then Some(PATH)
    else if s.ReqQueryString? then Some(QUERY)
    else if s.ReqFragment? then Some(FRAGMENT)
    else None
  }

  /** The byte `ch` at offset `i`. */
  function ScanByte(x: Scan, ch: char, i: nat): Option<Scan> {
    var s := ParseUrlChar(x.s, ch);
    if s.Dead? then None else
      match FieldOf(s)
      case None => Some(x.(s := s))
      case Some(f) =>
        Some(Scan(s, Some(f), x.foundAt || s.ReqServerWithAt?,
                  if x.current == Some(f) then Grown(x.data, f) else x.data[f := Slice(i, 1)]))
  }

  /** The bytes of `text`, the first of which stands at offset `i`. */
  function ScanText(x: Scan, text: string, i: nat): Option<Scan> {
    if text == "" then Some(x) else
      match ScanText(x, text[..|text| - 1], i)
      case None => None
      case Some(y) => ScanByte(y, text[|text| - 1], i + |text| - 1)
  }

  function StartScan(isConnect: bool): Scan {
    Scan(if isConnect then ReqServerStart else ReqSpacesBeforeUrl, None, false, map[])
  }

  /** The state of the loop of `http_parse_host`. */
  datatype HostScan = HostScan(s: HostState, data: FieldData)

  /** A byte of a field: the first one sets it, the others make it longer. */
  function MarkField(d: FieldData, f: UrlField, first: bool, i: nat): FieldData {
    if first then d[f := Slice(i, 1)] else Grown(d, f)
  }

  /** The same for the host, whose length starts at zero and which is set already. */
  function MarkHost(d: FieldData, first: bool, i: nat): FieldData {
    if HOST !in d then d else d[HOST := Slice(if first then i else d[HOST].off, d[HOST].len + 1)]
  }

  function HostByte(h: HostScan, ch: char, i: nat): Option<HostScan> {
    var s := ParseHostChar(h.s, ch);
    match s
    case HostDead => None
    case Host => Some(HostScan(s, MarkHost(h.data, !h.s.Host?, i)))
    case HostV6 => Some(HostScan(s, MarkHost(h.data, !h.s.HostV6?, i)))
    case HostV6ZoneStart => Some(HostScan(s, MarkHost(h.data, false, i)))
    case HostV6Zone => Some(HostScan(s, MarkHost(h.data, false, i)))
    case HostPort => Some(HostScan(s, MarkField(h.data, PORT, !h.s.HostPort?, i)))
    case UserInfo => Some(HostScan(s, MarkField(h.data, USERINFO, !h.s.UserInfo?, i)))
    case _ => Some(HostScan(s, h.data))
  }

  function HostText(h: HostScan, text: string, i: nat): Option<HostScan> {
    if text == "" then Some(h) else
      match HostText(h, text[..|text| - 1], i)
      case None => None
      case Some(g) => HostByte(g, text[|text| - 1], i + |text| - 1)
  }

  function StartHost(d: FieldData, foundAt: bool): HostScan
    requires HOST in d
  {
    HostScan(if foundAt then UserInfoStart else HostStart, d[HOST := Slice(d[HOST].off, 0)])
  }

  predicate InBounds(d: FieldData, buf: string) {
    forall f <- d :: d[f].off + d[f].len <= |buf|
  }

  function Text(buf: string, s: Slice): string
    requires s.off + s.len <= |buf|
  {
    buf[s.off..s.off + s.len]
  }

  // ----- Where the fields stand during the first scan -----

  function End(s: Slice): nat {
    s.off + s.len
  }

  function Rank(f: UrlField): nat {
    match f case SCHEMA => 0 case HOST => 1 case PATH => 2 case QUERY => 3 case FRAGMENT => 4 case PORT =>
      5 case USERINFO => 6
  }

  /** Which field came last when a state is reached. */
  predicate Follows(s: State, current: Option<UrlField>) {
    match s
    case ReqSpacesBeforeUrl => current.None?
    case ReqSchema => current == Some(SCHEMA)
    case ReqSchemaSlash => current == Some(SCHEMA)
    case ReqSchemaSlashSlash => current == Some(SCHEMA)
    case ReqServerStart => current.None? || current == Some(SCHEMA)
    case ReqServer => current == Some(HOST)
    case ReqServerWithAt => current == Some(HOST)
    case ReqPath => current == Some(PATH)
    case ReqQueryStringStart => current.None? || Rank(current.value) < 3
    case ReqQueryString => current == Some(QUERY)
    case ReqFragmentStart => current.None? || Rank(current.value) < 4
    case ReqFragment => current == Some(FRAGMENT)
    case _ => false
  }

  ghost predicate Disjoint(d: FieldData) {
    forall f <- d, g <- d :: f == g || End(d[f]) <= d[g].off || End(d[g]) <= d[f].off
  }

  /** The fields of the first `n` bytes: nonempty, in order, the last of them up to the end if it is still going on. */
  ghost predicate Laid(x: Scan, n: nat) {
    && Follows(x.s, x.current)
    && (x.current.None? ==> x.data == map[])
    && (x.current.Some? ==> x.current.value in x.data)
    && (FieldOf(x.s).Some? ==> End(x.data[x.current.value]) == n)
    && (forall f <- x.data :: 0 < x.data[f].len && End(x.data[f]) <= n && Rank(f) <= Rank(x.current.value) <= 4)
    && (forall f <- x.data :: f == x.current.value || End(x.data[f]) <= x.data[x.current.value].off)
    && Disjoint(x.data)
  }

  lemma FollowsNext(s: State, current: Option<UrlField>, ch: char)
    requires Follows(s, current)
    ensures var s' := ParseUrlChar(s, ch);
            s'.Dead? || (
              && (FieldOf(s').None? ==> Follows(s', current))
              && (FieldOf(s').Some? ==> Follows(s', FieldOf(s')))
              && (FieldOf(s').Some? && current == FieldOf(s') ==> FieldOf(s) == current)
              && (FieldOf(s').Some? && current.Some? && current != FieldOf(s') ==>
                 Rank(current.value) < Rank(FieldOf(s').value)))
  {
  }

  lemma LaidDelimiter(x: Scan, ch: char, n: nat)
    requires Laid(x, n) && ScanByte(x, ch, n).Some? && FieldOf(ParseUrlChar(x.s, ch)).None?
    ensures Laid(ScanByte(x, ch, n).value, n + 1)
  {
    hide ParseUrlChar, Follows;
    FollowsNext(x.s, x.current, ch);
  }

  lemma LaidGrown(x: Scan, ch: char, n: nat)
    requires Laid(x, n) && ScanByte(x, ch, n).Some? && FieldOf(ParseUrlChar(x.s, ch)).Some?
    requires x.current == FieldOf(ParseUrlChar(x.s, ch))
    ensures Laid(ScanByte(x, ch, n).value, n + 1)
  {
    hide ParseUrlChar, Follows, FieldOf, Rank;
    FollowsNext(x.s, x.current, ch);
    var f := x.current.value;
    assert Grown(x.data, f)[f] == Slice(x.data[f].off, x.data[f].len + 1);
  }

  lemma LaidNew(x: Scan, ch: char, n: nat)
    requires Laid(x, n) && ScanByte(x, ch, n).Some? && FieldOf(ParseUrlChar(x.s, ch)).Some?
    requires x.current != FieldOf(ParseUrlChar(x.s, ch))
    ensures Laid(ScanByte(x, ch, n).value, n + 1)
  {
    hide ParseUrlChar, Follows, FieldOf, Rank, Disjoint;
    FollowsNext(x.s, x.current, ch);
    FieldRank(ParseUrlChar(x.s, ch));
    var f := FieldOf(ParseUrlChar(x.s, ch)).value;
    assert f !in x.data;
    DisjointNew(x.data, f, n);
  }

  lemma DisjointNew(d: FieldData, f: UrlField, n: nat)
    requires Disjoint(d) && f !in d && forall g <- d :: End(d[g]) <= n
    ensures Disjoint(d[f := Slice(n, 1)])
  {
  }

  lemma LaidNext(x: Scan, ch: char, n: nat)
    requires Laid(x, n) && ScanByte(x, ch, n).Some?
    ensures Laid(ScanByte(x, ch, n).value, n + 1)
  {
    hide ParseUrlChar, Laid, FieldOf;
    if FieldOf(ParseUrlChar(x.s, ch)).None? {
      LaidDelimiter(x, ch, n);
    } else if x.current == FieldOf(ParseUrlChar(x.s, ch)) {
      LaidGrown(x, ch, n);
    } else {
      LaidNew(x, ch, n);
    }
  }

  lemma FieldRank(s: State)
    ensures FieldOf(s).Some? ==> Rank(FieldOf(s).value) <= 4
  {
  }

  lemma {:induction false} TextIsLaid(isConnect: bool, text: string)
    ensures var x := ScanText(StartScan(isConnect), text, 0);
            x.Some? ==> Laid(x.value, |text|)
  {
    hide ScanByte, Laid;
    if text == "" {
      StartIsLaid(isConnect);
    } else {
      TextIsLaid(isConnect, text[..|text| - 1]);
      var y := ScanText(StartScan(isConnect), text[..|text| - 1], 0);
      if y.Some? && ScanByte(y.value, text[|text| - 1], |text| - 1).Some? {
        LaidNext(y.value, text[|text| - 1], |text| - 1);
      }
    }
  }

  lemma StartIsLaid(isConnect: bool)
    ensures Laid(StartScan(isConnect), 0)
  {
  }

  // ----- Where the parts of the host stand during the second scan -----

  predicate BeforeHost(s: HostState) {
    s.UserInfoStart? || s.UserInfo? || s.HostStart? || s.HostV6Start?
  }

  predicate InHost(s: HostState) {
    s.Host? || s.HostV6? || s.HostV6ZoneStart? || s.HostV6Zone?
  }

  /** The host itself: empty so far, or nonempty and up to the end while it is still going on. */
  ghost predicate HostRight(h: HostScan, lo: nat, n: nat) {
    HOST in h.data &&
    if BeforeHost(h.s) then h.data[HOST].len == 0
    else
      && 0 < h.data[HOST].len && lo <= h.data[HOST].off
      && (if InHost(h.s) then End(h.data[HOST]) == n else End(h.data[HOST]) < n)
  }

  ghost predicate UserInfoRight(h: HostScan, lo: nat, n: nat) {
    && (h.s.UserInfoStart? ==> USERINFO !in h.data && n == lo)
    && (h.s.UserInfo? ==> USERINFO in h.data && End(h.data[USERINFO]) == n)
    && (USERINFO in h.data ==>
          && 0 < h.data[USERINFO].len && lo <= h.data[USERINFO].off
          && (!h.s.UserInfo? ==> End(h.data[USERINFO]) < n)
          && (HOST in h.data && !BeforeHost(h.s) ==> End(h.data[USERINFO]) < h.data[HOST].off))
  }

  ghost predicate PortRight(h: HostScan, buf: string, n: nat) {
    && (PORT in h.data <==> h.s.HostPort?)
    && (h.s.HostPort? ==>
          && 0 < h.data[PORT].len && End(h.data[PORT]) == n
          && (HOST in h.data ==> End(h.data[HOST]) < h.data[PORT].off)
          && (forall k | h.data[PORT].off <= k < n && k < |buf| :: IsNum(buf[k])))
  }

  /** The fields outside the host stay as they are. */
  ghost predicate OthersSame(h: HostScan, d: FieldData) {
    forall f: UrlField | f != HOST && f != PORT && f != USERINFO ::
      (f in h.data <==> f in d) && (f in d ==> h.data[f] == d[f])
  }

  ghost predicate HostLaid(h: HostScan, d: FieldData, buf: string, lo: nat, n: nat) {
    !h.s.HostDead? && lo <= n <= |buf| && HostRight(h, lo, n) && UserInfoRight(h, lo, n) && PortRight(h, buf, n)
      && OthersSame(h, d)
  }

  lemma HostKept(h: HostScan, d: FieldData, buf: string, lo: nat, n: nat)
    requires HostLaid(h, d, buf, lo, n) && n < |buf| && HostByte(h, buf[n], n).Some?
    ensures HostRight(HostByte(h, buf[n], n).value, lo, n + 1)
  {
    hide IsHostChar, IsUserInfoChar, IsV6Char, IsZoneChar;
  }

  lemma UserInfoKept(h: HostScan, d: FieldData, buf: string, lo: nat, n: nat)
    requires HostLaid(h, d, buf, lo, n) && n < |buf| && HostByte(h, buf[n], n).Some?
    ensures UserInfoRight(HostByte(h, buf[n], n).value, lo, n + 1)
  {
    hide IsHostChar, IsUserInfoChar, IsV6Char, IsZoneChar;
  }

  lemma PortKept(h: HostScan, d: FieldData, buf: string, lo: nat, n: nat)
    requires HostLaid(h, d, buf, lo, n) && n < |buf| && HostByte(h, buf[n], n).Some?
    ensures PortRight(HostByte(h, buf[n], n).value, buf, n + 1)
  {
    hide IsHostChar, IsUserInfoChar, IsV6Char, IsZoneChar;
  }

  lemma OthersKept(h: HostScan, d: FieldData, ch: char, n: nat)
    requires OthersSame(h, d) && HostByte(h, ch, n).Some?
    ensures OthersSame(HostByte(h, ch, n).value, d) && !HostByte(h, ch, n).value.s.HostDead?
  {
    hide ParseHostChar;
  }

  lemma {:induction false} HostTextIsLaid(d: FieldData, foundAt: bool, buf: string, lo: nat, n: nat)
    requires HOST in d && PORT !in d && USERINFO !in d && lo <= n <= |buf|
    ensures var h := HostText(StartHost(d, foundAt), buf[lo..n], lo);
            h.Some? ==> HostLaid(h.value, d, buf, lo, n)
    decreases n - lo
  {
    hide HostByte, HostRight, UserInfoRight, PortRight, OthersSame;
    if n == lo {
      StartHostIsLaid(d, foundAt, buf, lo);
    } else {
      HostTextIsLaid(d, foundAt, buf, lo, n - 1);
      assert buf[lo..n][..n - lo - 1] == buf[lo..n - 1] && buf[lo..n][n - lo - 1] == buf[n - 1];
      var g := HostText(StartHost(d, foundAt), buf[lo..n - 1], lo);
      if g.Some? && HostByte(g.value, buf[n - 1], n - 1).Some? {
        HostKept(g.value, d, buf, lo, n - 1);
        UserInfoKept(g.value, d, buf, lo, n - 1);
        PortKept(g.value, d, buf, lo, n - 1);
        OthersKept(g.value, d, buf[n - 1], n - 1);
      }
    }
  }

  lemma StartHostIsLaid(d: FieldData, foundAt: bool, buf: string, lo: nat)
    requires HOST in d && PORT !in d && USERINFO !in d && lo <= |buf|
    ensures HostLaid(StartHost(d, foundAt), d, buf, lo, lo)
  {
  }

  // ----- The whole parse as a function -----

  datatype Parsed = Parsed(data: FieldData, port: nat)

  /** `http_parse_host`: the fields after it, if the host is accepted. */
  function ParsedHost(d: FieldData, foundAt: bool, buf: string): Option<FieldData>
    requires HOST in d && End(d[HOST]) <= |buf|
  {
    match HostText(StartHost(d, foundAt), Text(buf, d[HOST]), d[HOST].off)
    case None => None
    case Some(h) => if MayEnd(h.s) then Some(h.data) else None
  }

  /** The digits of the port, as the source reads them. */
  function PortValue(x: string): nat {
    if x == "" then 0 else PortValue(x[..|x| - 1]) * 10 + (if IsNum(x[|x| - 1]) then Digit(x[|x| - 1]) else 0)
  }

  /** Reading digit by digit stops at the first value that is too large. */
  predicate PortFits(x: string) {
    PortValue(x) <= 0xffff
  }

  function Finish(d: FieldData, isConnect: bool, buf: string): Option<Parsed> {
    if isConnect && d.Keys != {HOST, PORT} then None
    else if PORT in d && End(d[PORT]) <= |buf| then
      if PortFits(Text(buf, d[PORT])) then Some(Parsed(d, PortValue(Text(buf, d[PORT])))) else None
    else Some(Parsed(d, 0))
  }

  function ParsedUrl(buf: string, isConnect: bool): Option<Parsed> {
    if buf == "" then None else
      match ScanText(StartScan(isConnect), buf, 0)
      case None => None
      case Some(x) =>
        if SCHEMA in x.data && HOST !in x.data then None
        else if HOST in x.data then
          assert End(x.data[HOST]) <= |buf| by { TextIsLaid(isConnect, buf); }
          match ParsedHost(x.data, x.foundAt, buf)
          case None => None
          case Some(d) => Finish(d, isConnect, buf)
        else Finish(x.data, isConnect, buf)
  }

  // ----- What an accepted URL looks like -----

  /** Nonempty fields, within the buffer, none overlapping another. */
  ghost predicate WellPlaced(d: FieldData, buf: string) {
    (forall f <- d :: 0 < d[f].len && End(d[f]) <= |buf|) && Disjoint(d)
  }

  lemma LaidIsPlaced(x: Scan, buf: string)
    requires Laid(x, |buf|)
    ensures WellPlaced(x.data, buf) && PORT !in x.data && USERINFO !in x.data
  {
    assert forall f <- x.data :: Rank(f) <= 4;
  }

  lemma {:induction false} PortIsDecimal(x: string)
    requires forall i | 0 <= i < |x| :: IsNum(x[i])
    ensures AllNum(x) && PortValue(x) == Numeral(x)
  {
    if x != "" {
      PortIsDecimal(x[..|x| - 1]);
    }
  }

  /** A field of the host scan stands within the part that was the host before. */
  lemma HostFieldsWithin(h: HostScan, d: FieldData, buf: string, lo: nat, n: nat)
    requires HostLaid(h, d, buf, lo, n) && MayEnd(h.s)
    ensures forall f | f in h.data && (f == HOST || f == PORT || f == USERINFO) ::
              lo <= h.data[f].off && End(h.data[f]) <= n && 0 < h.data[f].len
    ensures forall f, g | f in h.data && g in h.data && (f == HOST || f == PORT || f == USERINFO)
            && (g == HOST || g == PORT || g == USERINFO) ::
              f == g || End(h.data[f]) <= h.data[g].off || End(h.data[g]) <= h.data[f].off
  {
  }

  lemma HostIsPlaced(h: HostScan, d: FieldData, buf: string)
    requires HOST in d && PORT !in d && USERINFO !in d && WellPlaced(d, buf)
    requires HostLaid(h, d, buf, d[HOST].off, End(d[HOST])) && MayEnd(h.s)
    ensures WellPlaced(h.data, buf) && HOST in h.data
  {
    HasHost(h, d, buf);
    hide HostRight, UserInfoRight, PortRight, MayEnd;
    var lo, n := d[HOST].off, End(d[HOST]);
    HostFieldsWithin(h, d, buf, lo, n);
    forall f, g | f in h.data && g in h.data
      ensures f == g || End(h.data[f]) <= h.data[g].off || End(h.data[g]) <= h.data[f].off {
      if f != HOST && f != PORT && f != USERINFO {
        assert h.data[f] == d[f];
      }
      if g != HOST && g != PORT && g != USERINFO {
        assert h.data[g] == d[g];
      }
    }
  }

  lemma HasHost(h: HostScan, d: FieldData, buf: string)
    requires HOST in d && HostLaid(h, d, buf, d[HOST].off, End(d[HOST]))
    ensures HOST in h.data
  {
  }

  lemma PortTextIsDigits(h: HostScan, d: FieldData, buf: string, lo: nat, n: nat)
    requires HostLaid(h, d, buf, lo, n) && PORT in h.data
    ensures End(h.data[PORT]) <= |buf| && AllNum(Text(buf, h.data[PORT]))
    ensures PortValue(Text(buf, h.data[PORT])) == Numeral(Text(buf, h.data[PORT]))
  {
    var x := Text(buf, h.data[PORT]);
    assert forall i | 0 <= i < |x| :: x[i] == buf[h.data[PORT].off + i];
    PortIsDecimal(x);
  }

  /**
   Every accepted URL: each field that is set is a nonempty slice of the buffer, no two overlap, a scheme
   comes with a host, the port is the decimal value of its slice and at most 65535, and a CONNECT target
   has a host and a port and nothing else.
   */
  lemma AcceptedUrlIsWellFormed(buf: string, isConnect: bool)
    requires ParsedUrl(buf, isConnect).Some?
    ensures var u := ParsedUrl(buf, isConnect).value;
            && WellPlaced(u.data, buf)
            && (SCHEMA in u.data ==> HOST in u.data)
            && (if PORT in u.data then AllNum(Text(buf, u.data[PORT]))
               && u.port == Numeral(Text(buf, u.data[PORT])) <= 65535
                else u.port == 0)
            && (isConnect ==> u.data.Keys == {HOST, PORT})
  {
    hide ScanText, HostText, Laid, Disjoint, HostRight, UserInfoRight, PortRight, PortValue, Numeral;
    TextIsLaid(isConnect, buf);
    var x := ScanText(StartScan(isConnect), buf, 0).value;
    LaidIsPlaced(x, buf);
    if HOST in x.data {
      var lo, n := x.data[HOST].off, End(x.data[HOST]);
      HostTextIsLaid(x.data, x.foundAt, buf, lo, n);
      var h := HostText(StartHost(x.data, x.foundAt), buf[lo..n], lo).value;
      HostIsPlaced(h, x.data, buf);
      if PORT in h.data {
        PortTextIsDigits(h, x.data, buf, lo, n);
      }
    }
  }

  // ----- The parse as it is done -----

  /** `struct http_parser_url` */
  class Url {
    var data: FieldData
    var port: nat

    constructor ()
      ensures data == map[] && port == 0
    {
      data, port := map[], 0;
    }

    /** Counts the byte at `p` for a field, which its first byte sets. */
    method MarkByte(f: UrlField, first: bool, p: nat)
      requires first || f in data
      modifies this`data
      ensures data == MarkField(old(data), f, first, p)
    {
      if first {
        data := data[f := Slice(p, 0)];
      }
      data := data[f := Slice(data[f].off, data[f].len + 1)];
    }

    /** Counts the byte at `p` for the host. */
    method MarkHostByte(first: bool, p: nat)
      requires HOST in data
      modifies this`data
      ensures data == MarkHost(old(data), first, p)
    {
      if first {
        data := data[HOST := Slice(p, data[HOST].len)];
      }
      data := data[HOST := Slice(data[HOST].off, data[HOST].len + 1)];
    }

    /** What the loop over the host does with a state and the byte at `p` that leads to it. */
    method HostStep(s: HostState, next: HostState, p: nat)
      requires HOST in data && !next.HostDead?
      requires (s.HostPort? ==> PORT in data) && (s.UserInfo? ==> USERINFO in data)
      modifies this`data
      ensures forall ch | ParseHostChar(s, ch) == next ::
              HostByte(HostScan(s, old(data)), ch, p) == Some(HostScan(next, data))
    {
      if next == Host || next == HostV6 {
        MarkHostByte(s != next, p);
      } else if next == HostV6ZoneStart || next == HostV6Zone {
        MarkHostByte(false, p);
      } else if next == HostPort {
        MarkByte(PORT, s != HostPort, p);
      } else if next == UserInfo {
        MarkByte(USERINFO, s != UserInfo, p);
      }
    }

    /** `http_parse_host`; 0 if the host is right. */
    method ParseHost(buf: string, foundAt: bool) returns (ret: int)
      requires HOST in data && End(data[HOST]) <= |buf| && PORT !in data && USERINFO !in data
      modifies this`data
      ensures match ParsedHost(old(data), foundAt, buf)
              case None => ret == 1
              case Some(d) => ret == 0 && data == d
    {
      hide ParseHostChar, HostByte;
      var lo, buflen := data[HOST].off, End(data[HOST]);
      ghost var d, start := data, StartHost(data, foundAt);
      data := data[HOST := Slice(lo, 0)];
      var s := if foundAt then UserInfoStart else HostStart;
      var p := lo;
      assert buf[lo..lo] == "";
      while p < buflen
        invariant lo <= p <= buflen
        invariant HostText(start, buf[lo..p], lo) == Some(HostScan(s, data))
      {
        HostTextIsLaid(d, foundAt, buf, lo, p);
        HostHas(HostScan(s, data), d, buf, lo, p);
        assert buf[lo..p + 1][..p - lo] == buf[lo..p] && buf[lo..p + 1][p - lo] == buf[p];
        ghost var before := HostScan(s, data);
        assert HostText(start, buf[lo..p + 1], lo) == HostByte(before, buf[p], p);
        var next := ParseHostChar(s, buf[p]);
        if next == HostDead {
          DeadByte(before, buf[p], p);
          HostDeadStays(start, buf, lo, p + 1, buflen);
          return 1;
        }
        HostStep(s, next, p);
        s := next;
        p := p + 1;
      }
      if !MayEnd(s) {
        return 1;
      }
      return 0;
    }

    /** The first loop: the fields from the scheme to the fragment. */
    method ScanFields(buf: string, isConnect: bool) returns (ret: int, foundAt: bool)
      modifies this`data
      ensures match ScanText(StartScan(isConnect), buf, 0)
              case None => ret == 1
              case Some(x) => ret == 0 && data == x.data && foundAt == x.foundAt
    {
      hide ParseUrlChar, ScanByte, Disjoint, Follows, FieldOf;
      ret, foundAt := 0, false;
      data := map[];
      var s := if isConnect then ReqServerStart else ReqSpacesBeforeUrl;
      var oldField: Option<UrlField> := None;
      ghost var start := StartScan(isConnect);
      var p := 0;
      while p < |buf|
        invariant p <= |buf|
        invariant ScanText(start, buf[..p], 0) == Some(Scan(s, oldField, foundAt, data))
      {
        TextIsLaid(isConnect, buf[..p]);
        assert buf[..p + 1][..p] == buf[..p] && buf[..p + 1][p] == buf[p];
        ghost var before := Scan(s, oldField, foundAt, data);
        assert ScanText(start, buf[..p + 1], 0) == ScanByte(before, buf[p], p);
        ScanStep(before, buf[p], p);
        s := ParseUrlChar(s, buf[p]);
        if s == Dead {
          DeadStays(start, buf, p + 1);
          return 1, foundAt;
        }
        p := p + 1;
        var field := FieldOf(s);
        if field == None {
          continue;
        }
        if s == ReqServerWithAt {
          foundAt := true;
        }
        if field == oldField {
          data := data[field.value := Slice(data[field.value].off, data[field.value].len + 1)];
          continue;
        }
        data := data[field.value := Slice(p - 1, 1)];
        oldField := field;
      }
      assert buf[..p] == buf;
    }

    /** The value of the port, or an error as soon as it is too large. */
    method ReadPort(buf: string) returns (ret: int)
      requires PORT in data && End(data[PORT]) <= |buf|
      requires forall i | data[PORT].off <= i < End(data[PORT]) :: IsNum(buf[i])
      modifies this`port
      ensures var x := Text(buf, data[PORT]);
              if PortFits(x) then ret == 0 && port == PortValue(x) else ret == 1
    {
      var lo, end := data[PORT].off, End(data[PORT]);
      var v, p := 0, lo;
      assert buf[lo..lo] == "";
      while p < end
        invariant lo <= p <= end && v == PortValue(buf[lo..p]) <= 0xffff
      {
        assert buf[lo..p + 1][..p - lo] == buf[lo..p] && buf[lo..p + 1][p - lo] == buf[p];
        v := v * 10;
        v := v + Digit(buf[p]);
        p := p + 1;
        if v > 0xffff {
          PortGrows(buf[lo..end], p - lo);
          assert buf[lo..end][..p - lo] == buf[lo..p];
          return 1;
        }
      }
      port := v;
      return 0;
    }

    /** `http_parser_parse_url`; 0 if the URL is accepted. */
    method ParseUrl(buf: string, isConnect: bool) returns (ret: int)
      requires |buf| <= 0xffff
      modifies this
      ensures match ParsedUrl(buf, isConnect)
              case None => ret == 1
              case Some(u) => ret == 0 && data == u.data && port == u.port
    {
      hide ScanText, HostText, PortValue, Laid, HostLaid;
      if |buf| == 0 {
        return 1;
      }
      port := 0;
      var foundAt;
      ret, foundAt := ScanFields(buf, isConnect);
      if ret != 0 {
        return 1;
      }
      TextIsLaid(isConnect, buf);
      ghost var x := ScanText(StartScan(isConnect), buf, 0).value;
      LaidIsPlaced(x, buf);
      if SCHEMA in data && HOST !in data {
        return 1;
      }
      if HOST in data {
        HostTextIsLaid(data, foundAt, buf, data[HOST].off, End(data[HOST]));
        ghost var lo, n := data[HOST].off, End(data[HOST]);
        ghost var h := HostText(StartHost(data, foundAt), Text(buf, data[HOST]), lo);
        if h.Some? && PORT in h.value.data {
          PortTextIsDigits(h.value, data, buf, lo, n);
        }
        ret := ParseHost(buf, foundAt);
        if ret != 0 {
          return 1;
        }
      }
      if isConnect && data.Keys != {HOST, PORT} {
        return 1;
      }
      if PORT in data {
        DigitsAt(buf, data[PORT]);
        ret := ReadPort(buf);
        return ret;
      }
      return 0;
    }
  }

  lemma HostHas(h: HostScan, d: FieldData, buf: string, lo: nat, n: nat)
    requires HostLaid(h, d, buf, lo, n)
    ensures HOST in h.data && (h.s.HostPort? ==> PORT in h.data) && (h.s.UserInfo? ==> USERINFO in h.data)
  {
  }

  lemma DeadByte(h: HostScan, ch: char, i: nat)
    requires ParseHostChar(h.s, ch).HostDead?
    ensures HostByte(h, ch, i).None?
  {
  }

  lemma {:induction false} HostDeadStays(h: HostScan, buf: string, lo: nat, n: nat, m: nat)
    requires lo <= n <= m <= |buf| && HostText(h, buf[lo..n], lo).None?
    ensures HostText(h, buf[lo..m], lo).None?
    decreases m - n
  {
    hide HostByte;
    if n < m {
      HostDeadStays(h, buf, lo, n, m - 1);
      assert buf[lo..m][..m - lo - 1] == buf[lo..m - 1];
    }
  }

  lemma ScanStep(x: Scan, ch: char, p: nat)
    ensures var s := ParseUrlChar(x.s, ch);
            ScanByte(x, ch, p) ==
            if s.Dead? then None
            else if FieldOf(s).None? then Some(x.(s := s))
            else Some(Scan(s, FieldOf(s), x.foundAt || s.ReqServerWithAt?,
                      if x.current == FieldOf(s) then Grown(x.data, FieldOf(s).value)
                        else x.data[FieldOf(s).value := Slice(p, 1)]))
  {
  }

  lemma {:induction false} DeadStays(x: Scan, buf: string, n: nat)
    requires n <= |buf| && ScanText(x, buf[..n], 0).None?
    ensures ScanText(x, buf, 0).None?
    decreases |buf| - n
  {
    hide ScanByte;
    if n == |buf| {
      assert buf[..n] == buf;
    } else {
      assert buf[..n + 1][..n] == buf[..n];
      DeadStays(x, buf, n + 1);
    }
  }

  lemma {:induction false} PortGrows(x: string, n: nat)
    requires n <= |x|
    ensures PortValue(x[..n]) <= PortValue(x)
    decreases |x| - n
  {
    if n == |x| {
      assert x[..n] == x;
    } else {
      assert x[..n + 1][..n] == x[..n];
      PortGrows(x, n + 1);
    }
  }

  lemma DigitsAt(buf: string, s: Slice)
    requires End(s) <= |buf| && AllNum(Text(buf, s))
    ensures forall i | s.off <= i < End(s) :: IsNum(buf[i])
  {
    forall i | s.off <= i < End(s) ensures IsNum(buf[i]) {
      assert Text(buf, s)[i - s.off] == buf[i];
    }
  }
}
