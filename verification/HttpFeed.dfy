/** Text that arrives in pieces: where the network cuts it does not matter. */
module HttpFeed {
  import opened HttpRun
  import opened HttpBulk
  import opened HttpParser

  function Concat(parts: seq<string>): string {
    if parts == [] then "" else Concat(parts[..|parts| - 1]) + parts[|parts| - 1]
  }

  predicate AreBuffers(parts: seq<string>) {
    forall x <- parts :: x != "" && |x| < INT_LIMIT
  }

  /** The outcome of a run cannot be changed by reading on, except when it is ready or stopped after an upgrade. */
  lemma MoreText(cfg: Settings, s: Stream, x: string, y: string)
    requires s.f.errno.OK? ==> Valid(s.f)
    ensures var r := Run'(cfg, s, x);
            && (r.Failed? ==> Run'(cfg, s, x + y).Failed?)
            && (r.Ready? && r.s.f.errno.OK? ==> Run'(cfg, s, x + y) == Run'(cfg, r.s, y))
            && (r.Stopped? ==> Run'(cfg, s, x + y) == Stopped(r.s, r.rest + y))
  {
    hide Run, Valid;
    if s.f.errno.OK? {
      RunAppend(cfg, s, x, y);
    }
  }

  lemma {:induction false} ReadyIsOk(cfg: Settings, s: Stream, x: string)
    requires Valid(s.f) && s.f.errno.OK?
    ensures Run(cfg, s, x).Ready? ==> Run(cfg, s, x).s.f.errno.OK?
    decreases |x|
  {
    hide Step, Valid;
    if x != "" && Step(cfg, s, x[0]).Ready? {
      ReadyIsOk(cfg, Step(cfg, s, x[0]).s, x[1..]);
    }
  }

  /**
   Feeds buffers to a parser until one is not taken whole. All buffers are taken exactly when the
   whole text, read byte by byte, is; and then fields and merged callbacks are those of the whole text,
   which the cuts have no part in. An upgrade with bytes behind it is left out of the promise.
   */
  method Feed(parser: Parser, parts: seq<string>) returns (accepted: bool)
    requires Valid(parser.fields) && parser.fields.errno.OK? && AreBuffers(parts)
    modifies parser
    ensures parser.Usable()
    ensures match Run(parser.settings, old(parser.After()), Concat(parts))
            case Ready(s) => accepted && parser.After() == s
            case Failed => !accepted
            case Stopped(s, rest) =>
              && (rest == "" ==> accepted && parser.After() == s)
              && (rest != "" && !s.f.errno.OK? ==> !accepted)
  {
    hide Run, Valid;
    accepted := true;
    var i := 0;
    ghost var start, cfg := parser.After(), parser.settings;
    assert parts[..0] == [];
    RunNothing(cfg, start);
    assert Concat([]) == "";
    while i < |parts| && accepted
      invariant i <= |parts| && parser.Usable()
      invariant match Run(cfg, start, Concat(parts[..i]))
                case Ready(s) => accepted && parser.After() == s
                case Failed => !accepted
                case Stopped(s, rest) =>
                  && (rest == "" ==> accepted && parser.After() == s)
                  && (rest != "" && !s.f.errno.OK? ==> !accepted)
    {
      ghost var r := Run(cfg, start, Concat(parts[..i]));
      assert parts[i] in parts;
      var n := parser.Execute(parts[i]);
      accepted := n == |parts[i]|;
      MoreText(cfg, start, Concat(parts[..i]), parts[i]);
      assert parts[..i + 1][..i] == parts[..i];
      ReadyIsOk(cfg, start, Concat(parts[..i]));
      i := i + 1;
    }
    if i < |parts| {
      FailedStays(cfg, start, parts, i);
    } else {
      assert parts[..i] == parts;
    }
  }

  lemma {:induction false} ConcatSplit(parts: seq<string>, i: nat)
    requires i <= |parts|
    ensures Concat(parts) == Concat(parts[..i]) + Concat(parts[i..])
    decreases |parts|
  {
    if i == |parts| {
      assert parts[..i] == parts && parts[i..] == [];
    } else {
      var front := parts[..|parts| - 1];
      ConcatSplit(front, i);
      assert front[..i] == parts[..i] && front[i..] == parts[i..][..|parts| - i - 1];
      assert (Concat(parts[..i]) + Concat(front[i..])) + parts[|parts| - 1]
             == Concat(parts[..i]) + (Concat(front[i..]) + parts[|parts| - 1]);
    }
  }

  /** What has failed, or stopped because of a callback, stays so whatever follows. */
  lemma FailedStays(cfg: Settings, s: Stream, parts: seq<string>, i: nat)
    requires Valid(s.f) && s.f.errno.OK? && i <= |parts| && !Run(cfg, s, Concat(parts[..i])).Ready?
    ensures var r := Run(cfg, s, Concat(parts[..i]));
            Run(cfg, s, Concat(parts)) == if r.Stopped? then Stopped(r.s, r.rest + Concat(parts[i..])) else Failed
  {
    hide Run, Valid;
    ConcatSplit(parts, i);
    RunAppend(cfg, s, Concat(parts[..i]), Concat(parts[i..]));
  }
}
