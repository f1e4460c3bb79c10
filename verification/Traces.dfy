/**
 Traces of parser callbacks. Streaming parsers hand one piece of text to several data callbacks,
 cut wherever a buffer ends; a merged trace joins adjacent data callbacks of one kind, so that it
 shows what a client that appends the pieces sees.

 Bytes are characters throughout: a buffer of the sources is a `string` here, one character a byte.
 */
module Traces {

  /** The data callbacks of the HTTP parser and of the multipart parser. */
  datatype Kind = OnUrl | OnStatus | OnHeaderField | OnHeaderValue | OnBody | OnPartData

  /** The notification callbacks of both. */
  datatype Notice =
    | OnMessageBegin | OnHeadersComplete | OnChunkHeader | OnChunkComplete | OnMessageComplete
    | OnPartDataBegin | OnPartHeadersComplete | OnPartDataEnd | OnBodyEnd

  datatype Event = Data(kind: Kind, bytes: string) | Note(notice: Notice)

  type Trace = seq<Event>

  /** Appends one callback to a merged trace. */
  function Emit(t: Trace, e: Event): Trace {
    if e.Data? && t != [] && t[|t| - 1].Data? && t[|t| - 1].kind == e.kind then
      t[..|t| - 1] + [Data(e.kind, t[|t| - 1].bytes + e.bytes)]
    else
      t + [e]
  }

  /** Appends a list of raw callbacks, first one first, to a merged trace. */
  function Merge(t: Trace, log: Trace): Trace {
    if log == [] then t else Emit(Merge(t, log[..|log| - 1]), log[|log| - 1])
  }

  lemma MergeOne(t: Trace, log: Trace, e: Event)
    ensures Merge(t, log + [e]) == Emit(Merge(t, log), e)
  {
    assert (log + [e])[..|log|] == log;
  }

  /** Where a piece of text is cut does not show. */
  lemma EmitPieces(t: Trace, k: Kind, a: string, b: string)
    ensures Emit(Emit(t, Data(k, a)), Data(k, b)) == Emit(t, Data(k, a + b))
  {
    var joined := Emit(t, Data(k, a));
    var last := joined[|joined| - 1];
    assert last.bytes + b == (if |joined| == |t| then t[|t| - 1].bytes + (a + b) else a + b);
  }

  /** A merged trace never holds two adjacent data callbacks of one kind. */
  ghost predicate IsMerged(t: Trace) {
    forall i | 0 < i < |t| && t[i - 1].Data? && t[i].Data? :: t[i - 1].kind != t[i].kind
  }

  lemma {:induction false} MergeIsMerged(t: Trace, log: Trace)
    requires IsMerged(t)
    ensures IsMerged(Merge(t, log))
  {
    if log != [] {
      MergeIsMerged(t, log[..|log| - 1]);
    }
  }

  /** The text that the callbacks of kind `k` deliver altogether. */
  ghost function Text(t: Trace, k: Kind): string {
    if t == [] then "" else
      Text(t[..|t| - 1], k) + (if t[|t| - 1].Data? && t[|t| - 1].kind == k then t[|t| - 1].bytes else "")
  }

  lemma TextEmit(t: Trace, e: Event, k: Kind)
    ensures Text(Emit(t, e), k) == Text(t, k) + (if e.Data? && e.kind == k then e.bytes else "")
  {
    var t' := Emit(t, e);
    var front := if |t'| == |t| then t[..|t| - 1] else t;
    assert t'[..|t'| - 1] == front;
    if |t'| == |t| && e.kind == k {
      assert (Text(front, k) + t[|t| - 1].bytes) + e.bytes == Text(front, k) + (t[|t| - 1].bytes + e.bytes);
    }
  }

  /** Merging neither loses nor reorders text. */
  lemma {:induction false} TextMerge(t: Trace, log: Trace, k: Kind)
    ensures Text(Merge(t, log), k) == Text(t, k) + Text(log, k)
  {
    if log != [] {
      TextMerge(t, log[..|log| - 1], k);
      TextEmit(Merge(t, log[..|log| - 1]), log[|log| - 1], k);
    }
  }
}
