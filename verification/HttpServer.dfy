/** Sending a response: the partial-send loop of `on_writeable`. */
module HttpServer {
  import opened Responses

  const SS_WRITE_BUFFER_SIZE: nat := 4096

  datatype Verdict = WriteConnClose | WriteConnContinue | WriteConnAlive

  /** A socket: how many bytes of a buffer `send` takes; a negative number is an error. */
  type Socket = string -> int

  ghost predicate IsSocket(send: Socket) {
    forall b :: send(b) <= |b|
  }

  /** The next piece of a text from a position on. */
  function Piece(text: string, from: nat): string
    requires from <= |text|
  {
    if SS_WRITE_BUFFER_SIZE <= |text| - from then text[from..][..SS_WRITE_BUFFER_SIZE] else text[from..]
  }

  lemma PieceLength(text: string, from: nat)
    requires from <= |text|
    ensures |Piece(text, from)| == if SS_WRITE_BUFFER_SIZE <= |text| - from then SS_WRITE_BUFFER_SIZE else |text| - from
  {
  }

  lemma FullPieces(length: nat, i: nat, rest: nat)
    requires length == i * SS_WRITE_BUFFER_SIZE + rest
    ensures i <= length / SS_WRITE_BUFFER_SIZE
    ensures rest < SS_WRITE_BUFFER_SIZE ==> length % SS_WRITE_BUFFER_SIZE == rest
  {
  }

  /** How many bytes of a piece have gone out. */
  function Taken(n: int): nat {
    if n < 0 then 0 else n
  }

  class HttpContext {
    // what the request asks for
    var version: string
    var keepAlive: bool
    var res: Response
    /** What the socket has taken of the current response. */
    ghost var accepted: string

    constructor (version: string, keepAlive: bool, res: Response)
      requires res.Valid() && !res.isWritten && res.bytes == "" && res.cursor == 0 && !res.eof && !res.fail
      ensures Fresh() && this.version == version && this.keepAlive == keepAlive && this.res == res
    {
      this.version, this.keepAlive, this.res := version, keepAlive, res;
      accepted := "";
    }

    /** The response has not been begun. */
    ghost predicate Fresh()
      reads this, res
    {
      res.Valid() && !res.isWritten && res.bytes == "" && res.cursor == 0 && !res.eof && !res.fail
    }

    /** As it stands before a request: nothing is left of an earlier response. */
    ghost predicate Cleared()
      reads this, res
    {
      && Fresh() && version == "" && !keepAlive
      && res.statusCode == 200 && res.message == "OK" && res.headers == [] && res.body == ""
    }

    ghost function Text(): string
      reads this, res
    {
      ResponseText(res.statusCode, res.message, res.headers, res.body, version, keepAlive)
    }

    /** Part of it has gone out: a gap-free prefix that ends at the cursor. */
    ghost predicate Sending()
      reads this, res
    {
      && res.Valid() && res.isWritten && !res.eof && !res.fail
      && res.bytes == Text() && accepted == res.bytes[..res.cursor]
    }

    ghost function Position(): nat
      reads this, res
    {
      if res.isWritten then res.cursor else 0
    }

    /** `clear`: a new request and a new response take the place of the old ones. */
    method Clear()
      modifies this`version, this`keepAlive, this`res
      ensures fresh(res) && Cleared()
    {
      version, keepAlive := "", false;
      res := new Response(200, "OK");
    }

    /**
     One call when the socket is writeable. Whatever `send` takes, nothing is lost or repeated while
     the call asks to go on; on the last piece the response ends, taken whole or not.
     */
    method OnWriteable(send: Socket) returns (verdict: Verdict)
      requires (Fresh() || Sending()) && IsSocket(send)
      modifies this, res
      ensures var text, c := old(Text()), old(Position());
              c <= |text| &&
              var piece := Piece(text, c);
              var n := if piece == "" then 0 else send(piece);
              && n <= |piece| && accepted == text[..c + Taken(n)]
              && (n >= 0 && |piece| == SS_WRITE_BUFFER_SIZE ==>
                    verdict.WriteConnContinue? && Sending() && Text() == text && res == old(res) && res.cursor == c + n
                    && version == old(version) && keepAlive == old(keepAlive))
              && (n < 0 || |piece| < SS_WRITE_BUFFER_SIZE ==>
                    verdict == if old(keepAlive) && n > 0 then WriteConnAlive else WriteConnClose)
              && (verdict.WriteConnAlive? ==> Cleared() && fresh(res))
    {
      hide ResponseText;
      Begin();
      verdict := SendPiece(send);
    }

    /** Generates the response at the first call. */
    method Begin()
      requires Fresh() || Sending()
      modifies this`accepted, res`bytes, res`isWritten
      ensures Sending() && res.bytes == old(Text()) && res.cursor == old(Position()) && Text() == old(Text())
    {
      hide ResponseText;
      if !res.isWritten {
        res.GenResponse(version, keepAlive);
        res.isWritten := true;
        accepted := "";
      }
    }

    method SendPiece(send: Socket) returns (verdict: Verdict)
      requires Sending() && IsSocket(send)
      modifies this, res
      ensures var text, c := old(res.bytes), old(res.cursor);
              c <= |text| &&
              var piece := Piece(text, c);
              var n := if piece == "" then 0 else send(piece);
              && n <= |piece| && accepted == text[..c + Taken(n)]
              && (n >= 0 && |piece| == SS_WRITE_BUFFER_SIZE ==>
                    verdict.WriteConnContinue? && Sending() && Text() == text && res == old(res) && res.cursor == c + n
                    && version == old(version) && keepAlive == old(keepAlive))
              && (n < 0 || |piece| < SS_WRITE_BUFFER_SIZE ==>
                    verdict == if old(keepAlive) && n > 0 then WriteConnAlive else WriteConnClose)
              && (verdict.WriteConnAlive? ==> Cleared() && fresh(res))
    {
      hide ResponseText;
      ghost var text, c := res.bytes, res.cursor;
      var buffer, ret := res.ReadSome(SS_WRITE_BUFFER_SIZE);
      assert buffer == Piece(text, c);
      if |buffer| == 0 {
        return WriteConnClose;
      }
      var nwrite := send(buffer);
      if nwrite < 0 {
        return WriteConnClose;
      }
      accepted := accepted + buffer[..nwrite];
      assert accepted == text[..c + nwrite];
      if nwrite < |buffer| {
        var _ := res.Rollback(|buffer| - nwrite);
      }
      if ret == NEED_MORE_STATUS {
        return WriteConnContinue;
      }
      if keepAlive && nwrite > 0 {
        Clear();
        return WriteConnAlive;
      }
      return WriteConnClose;
    }

    /**
     Every run of `on_writeable` for one response, with arbitrary short sends. When the run is over the
     response has been delivered exactly if the last send was complete.
     */
    method SendResponse(sends: seq<Socket>) returns (verdict: Verdict, ghost last: string, ghost n: int)
      requires Fresh() && sends != [] && forall send <- sends :: IsSocket(send)
      modifies this, res
      ensures accepted <= old(Text())
      ensures verdict.WriteConnContinue? ==> Sending() && Text() == old(Text())
      ensures !verdict.WriteConnContinue? ==> (accepted == old(Text()) <==> n == |last|)
      ensures verdict.WriteConnAlive? <==> !verdict.WriteConnContinue? && old(keepAlive) && n > 0
      ensures verdict.WriteConnAlive? ==> Cleared()
      ensures !verdict.WriteConnContinue? && n >= 0 ==> |last| < SS_WRITE_BUFFER_SIZE
      ensures (forall send <- sends, b :: send(b) == |b|) && |sends| > |old(Text())| / SS_WRITE_BUFFER_SIZE ==>
                && !verdict.WriteConnContinue? && accepted == old(Text())
                && |last| == |old(Text())| % SS_WRITE_BUFFER_SIZE
    {
      hide ResponseText, Piece;
      ghost var text, whole := Text(), forall send <- sends, b :: send(b) == |b|;
      var i := 0;
      ghost var response := res;
      verdict, last, n := WriteConnContinue, "", 0;
      ghost var c: nat := 0;
      while i < |sends| && verdict.WriteConnContinue?
        invariant i <= |sends|
        invariant c + Taken(n) <= |text| && (i > 0 ==> accepted <= text)
        invariant if i == 0 then Fresh() && verdict.WriteConnContinue? else accepted == text[..c + Taken(n)]
        invariant verdict.WriteConnContinue? ==>
                  res == response && Position() == c + Taken(n) && (i == 0 || Sending()) && Text() == text
        invariant verdict.WriteConnContinue? ==> keepAlive == old(keepAlive)
        invariant !verdict.WriteConnContinue? ==>
                  last == Piece(text, c) && (n < 0 || |last| < SS_WRITE_BUFFER_SIZE) && n <= |last|
                    && (last == "" ==> n == 0)
        invariant !verdict.WriteConnContinue? ==> (verdict.WriteConnAlive? <==> old(keepAlive) && n > 0)
        invariant verdict.WriteConnAlive? ==> Cleared()
        invariant whole && verdict.WriteConnContinue? ==> c + Taken(n) == i * SS_WRITE_BUFFER_SIZE
        invariant whole && !verdict.WriteConnContinue? ==> i > 0 && c == (i - 1) * SS_WRITE_BUFFER_SIZE && n == |last|
      {
        c := Position();
        last := Piece(text, c);
        PieceLength(text, c);
        n := if last == "" then 0 else sends[i](last);
        assert sends[i] in sends;
        verdict := OnWriteable(sends[i]);
        i := i + 1;
      }
      PieceLength(text, c);
      assert text[..|text|] == text && |accepted| == c + Taken(n);
      if whole {
        FullPieces(|text|, if verdict.WriteConnContinue? then i else i - 1,
          |text| - (if verdict.WriteConnContinue? then c + Taken(n) else c));
      }
    }
  }

  // ----- Two responses -----

  lemma DecimalLengths()
    ensures |Decimal(200)| == 3 && |Decimal(0)| == 1 && |Decimal(3963)| == 4
  {
    assert |Decimal(2)| == 1 && |Decimal(20)| == 2;
    assert |Decimal(3)| == 1 && |Decimal(39)| == 2 && |Decimal(396)| == 3;
  }

  /** The length of a response without headers of the user. */
  lemma TextLength(body: string)
    ensures |ResponseText(200, "OK", [], body, "HTTP/1.1", true)| == 129 + |Decimal(|body|)| + |body|
  {
    hide Decimal;
    DecimalLengths();
    var server, contentType := ("Server", "ehttp/" + EHTTP_VERSION), ("Content-Type", DEFAULT_CONTENT_TYPE);
    var length, connection := ("Content-Length", Decimal(|body|)), ("Connection", ConnectionText(true));
    EntryLength(server);
    EntryLength(contentType);
    EntryLength(length);
    EntryLength(connection);
    EntriesAppend([server] + [contentType] + [length], [connection]);
    EntriesAppend([server] + [contentType], [length]);
    EntriesAppend([server], [contentType]);
    var all := [server] + [contentType] + [length] + [connection];
    assert OwnEntries([], body, true) + [] == all;
  }

  lemma EntryLength(e: Entry)
    ensures |EntriesText([e])| == |e.0| + |e.1| + 4
  {
    assert [e][..0] == [] && EntriesText([]) == "";
  }

  /** A short send on the last piece: 129 of 130 bytes go out, and the connection goes on to the next response. */
  method LoseLastByte() returns (verdict: Verdict, ghost text: string, ghost accepted: string)
    ensures |text| == 130 && accepted == text[..129] && verdict.WriteConnAlive?
  {
    hide ResponseText, Decimal;
    DecimalLengths();
    TextLength("");
    var res := new Response(200, "OK");
    var ctx := new HttpContext("HTTP/1.1", true, res);
    text := ctx.Text();
    verdict := ctx.OnWriteable((b: string) => |b| - 1);
    accepted := ctx.accepted;
  }

  /** A response of 4096 bytes goes out whole, and closes a connection that was to be kept. */
  method CloseKeptConnection() returns (verdict: Verdict, ghost text: string, ghost accepted: string)
    ensures |text| == SS_WRITE_BUFFER_SIZE && accepted == text && verdict.WriteConnClose?
  {
    hide ResponseText, Decimal, Piece;
    DecimalLengths();
    var body := seq(3963, _ => 'x');
    TextLength(body);
    var res := new Response(200, "OK");
    res.body := body;
    var ctx := new HttpContext("HTTP/1.1", true, res);
    text := ctx.Text();
    var send := (b: string) => |b|;
    ghost var last, n;
    verdict, last, n := ctx.SendResponse([send, send]);
    accepted := ctx.accepted;
  }
}
