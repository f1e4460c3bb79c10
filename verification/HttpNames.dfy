/** Header names: the recognition on the fly is exact. */
module HttpNames {
  import opened Traces
  import opened HttpTypes
  import opened HttpVisit
  import opened HttpRun
  import opened StringUtils

  // ----- Names -----

  predicate IsToken(word: string) {
    word != "" && forall c <- word :: TokenOf(c) != '\0'
  }

  /** The header state after the first byte of a name. */
  function FirstName(c: char): HeaderState {
    if c == 'c' then C else if c == 'p' then MatchingProxyConnection
    else if c == 't' then MatchingTransferEncoding else if c == 'u' then MatchingUpgrade else General
  }

  /** Header state and index after the bytes of a name. */
  function FollowName(word: string): (HeaderState, nat)
    requires word != ""
  {
    var c := word[|word| - 1];
    if |word| == 1 then (FirstName(TokenOf(c)), 0) else
      var (h, i) := FollowName(word[..|word| - 1]);
      NextName(h, i, c, TokenOf(c))
  }

  /** `w` begins `word`. */
  ghost predicate Heads(w: string, word: string) {
    |w| <= |word| && forall j | 0 <= j < |w| :: w[j] == word[j]
  }

  ghost predicate HeadsNone(w: string) {
    && !Heads(w, ConnectionWord()) && !Heads(w, ProxyConnectionWord()) && !Heads(w, ContentLengthWord())
    && !Heads(w, TransferEncodingWord()) && !Heads(w, UpgradeWord())
  }

  ghost predicate Matching(w: string, i: nat, word: string) {
    |w| < |word| && Heads(w, word) && i + 1 == |w|
  }

  /** What header state and index say about the folded name read so far. */
  ghost predicate Tracks(h: HeaderState, i: nat, w: string) {
    match h
    case C => |w| == 1 && Matching(w, i, ConnectionWord())
    case CO => |w| == 2 && Matching(w, i, ConnectionWord())
    case CON => |w| == 3 && Matching(w, i, ConnectionWord())
    case MatchingConnection => |w| > 3 && Matching(w, i, ConnectionWord())
    case MatchingProxyConnection => w != "" && Matching(w, i, ProxyConnectionWord())
    case MatchingContentLength => |w| > 3 && Matching(w, i, ContentLengthWord())
    case MatchingTransferEncoding => w != "" && Matching(w, i, TransferEncodingWord())
    case MatchingUpgrade => w != "" && Matching(w, i, UpgradeWord())
    case Connection => w == ConnectionWord() || w == ProxyConnectionWord()
    case ContentLength => w == ContentLengthWord()
    case TransferEncoding => w == TransferEncodingWord()
    case Upgrade => w == UpgradeWord()
    case General => HeadsNone(w)
    case _ => false
  }

  lemma WordBytes()
    ensures var (a, b) := (ConnectionWord(), ContentLengthWord());
            && a[0] == b[0] == 'c' && a[1] == b[1] == 'o' && a[2] == b[2] == 'n' && a[3] == 'n' && b[3] == 't'
            && ProxyConnectionWord()[0] == 'p' && TransferEncodingWord()[0] == 't' && UpgradeWord()[0] == 'u'
  {
  }

  lemma HeadsMore(w: string, c: char, word: string)
    ensures Heads(w + [c], word) <==> Heads(w, word) && |w| < |word| && word[|w|] == c
  {
    var w' := w + [c];
    assert w'[|w|] == c && forall j | 0 <= j < |w| :: w'[j] == w[j];
  }

  lemma HeadsMoreAll(w: string, c: char)
    ensures forall word | word in [ConnectionWord(), ProxyConnectionWord(), ContentLengthWord(), TransferEncodingWord(),
            UpgradeWord()] ::
      Heads(w + [c], word) <==> Heads(w, word) && |w| < |word| && word[|w|] == c
  {
    forall word: string ensures Heads(w + [c], word) <==> Heads(w, word) && |w| < |word| && word[|w|] == c {
      HeadsMore(w, c, word);
    }
  }

  lemma HeadsWhole(w: string)
    ensures forall word: string | Heads(w, word) && |w| == |word| :: w == word
    ensures forall word: string | w == word :: Heads(w, word)
  {
  }

  /** A matching state moves on with the word it matches. */
  lemma MatchTracks(h: HeaderState, i: nat, w: string, c: char, word: string, hit: HeaderState)
    requires Matching(w, i, word) && h != hit && h != General && hit != General && c != '\0'
    ensures var (h', i') := Match(h, i, word, c, General, hit);
            && i' == |w|
            && (h' == h <==> |w| + 1 < |word| && word[|w|] == c)
            && (h' == hit <==> |w| + 1 == |word| && word[|w|] == c)
            && (h' == General <==> word[|w|] != c)
  {
  }

  /** The five words diverge at their first byte, but two of them only at their fourth. */
  lemma WordsDiverge(w: string)
    requires w != ""
    ensures Heads(w, ConnectionWord()) || Heads(w, ContentLengthWord()) ==> w[0] == 'c'
    ensures Heads(w, ProxyConnectionWord()) ==> w[0] == 'p'
    ensures Heads(w, TransferEncodingWord()) ==> w[0] == 't'
    ensures Heads(w, UpgradeWord()) ==> w[0] == 'u'
    ensures |w| > 3 ==> !Heads(w, ConnectionWord()) || !Heads(w, ContentLengthWord())
    ensures |w| <= 3 ==> (Heads(w, ConnectionWord()) <==> Heads(w, ContentLengthWord()))
  {
    WordBytes();
  }

  lemma FirstTracks(c: char)
    requires c != '\0'
    ensures Tracks(FirstName(c), 0, [c])
  {
    WordBytes();
    HeadsMoreAll("", c);
    assert [c] == "" + [c];
  }

  predicate IsMatchingState(h: HeaderState) {
    || h.MatchingConnection? || h.MatchingProxyConnection? || h.MatchingContentLength? || h.MatchingTransferEncoding?
      || h.MatchingUpgrade?
  }

  lemma MatchingNextTracks(h: HeaderState, i: nat, w: string, ch: char, c: char)
    requires Tracks(h, i, w) && w != "" && c != '\0' && ch != ' ' && IsMatchingState(h)
    ensures var (h', i') := NextName(h, i, ch, c); Tracks(h', i', w + [c])
  {
    hide ConnectionWord, ProxyConnectionWord, ContentLengthWord, TransferEncodingWord, UpgradeWord, Heads, Match;
    WordsDiverge(w);
    HeadsMoreAll(w, c);
    HeadsWhole(w + [c]);
    match h
    case MatchingConnection => MatchTracks(h, i, w, c, ConnectionWord(), Connection);
    case MatchingProxyConnection => MatchTracks(h, i, w, c, ProxyConnectionWord(), Connection);
    case MatchingContentLength => MatchTracks(h, i, w, c, ContentLengthWord(), ContentLength);
    case MatchingTransferEncoding => MatchTracks(h, i, w, c, TransferEncodingWord(), TransferEncoding);
    case _ => MatchTracks(h, i, w, c, UpgradeWord(), Upgrade);
  }

  lemma OtherNextTracks(h: HeaderState, i: nat, w: string, ch: char, c: char)
    requires Tracks(h, i, w) && w != "" && c != '\0' && ch != ' ' && !IsMatchingState(h)
    ensures var (h', i') := NextName(h, i, ch, c); Tracks(h', i', w + [c])
  {
    hide ConnectionWord, ProxyConnectionWord, ContentLengthWord, TransferEncodingWord, UpgradeWord, Heads, Match;
    WordBytes();
    WordsDiverge(w);
    WordsDiverge(w + [c]);
    HeadsMoreAll(w, c);
    HeadsWhole(w);
  }

  /** One more byte of a name whose beginning is tracked. */
  lemma NextTracks(h: HeaderState, i: nat, w: string, ch: char, c: char)
    requires Tracks(h, i, w) && w != "" && c != '\0' && ch != ' '
    ensures var (h', i') := NextName(h, i, ch, c); Tracks(h', i', w + [c])
  {
    hide Tracks, NextName, IsMatchingState;
    if IsMatchingState(h) {
      MatchingNextTracks(h, i, w, ch, c);
    } else {
      OtherNextTracks(h, i, w, ch, c);
    }
  }

  lemma TokenIsFolded(c: char)
    ensures TokenOf(c) != '\0' ==> TokenOf(c) == FoldedChar(c) && c != ' ' && c != ':' && !IsLineEnd(c)
  {
  }

  /** What header state and index say about a name. */
  lemma {:induction false} NameIsTracked(name: string)
    requires IsToken(name)
    ensures var (h, i) := FollowName(name); NameState(h) && Tracks(h, i, Folded(name))
  {
    hide Tracks, FirstName, NextName, TokenOf, FoldedChar;
    var front, c := name[..|name| - 1], name[|name| - 1];
    TokenIsFolded(c);
    if |name| == 1 {
      FirstTracks(TokenOf(c));
      assert Folded(name) == Folded("") + [FoldedChar(c)] == [TokenOf(c)];
      FirstIsName(TokenOf(c));
    } else {
      NameIsTracked(front);
      var (h, i) := FollowName(front);
      NextTracks(h, i, Folded(front), c, TokenOf(c));
      NextIsName(h, i, c, TokenOf(c));
    }
  }

  lemma FirstIsName(c: char)
    ensures NameState(FirstName(c))
  {
  }

  lemma NextIsName(h: HeaderState, i: nat, ch: char, c: char)
    requires NameState(h)
    ensures NameState(NextName(h, i, ch, c).0)
  {
  }

  /** The fields within the name of a header, `name` read so far. */
  function InName(f: Fields, name: string): Fields
    requires name != ""
  {
    f.(state := HeaderField, headerState := FollowName(name).0, index := FollowName(name).1, nread := f.nread + |name|)
  }

  lemma {:induction false} NameRun(cfg: Settings, f: Fields, t: Trace, name: string)
    requires Valid(f) && f.errno.OK? && f.state.HeaderFieldStart? && f.nread + |name| <= MAX_HEADER_SIZE
    requires name != "" && !IsLineEnd(name[0]) && ':' !in name
    ensures Run(cfg, Stream(f, t), name) ==
            if IsToken(name) then Ready(Stream(InName(f, name), Emit(t, Data(OnHeaderField, name)))) else Failed
  {
    hide Emit, Run, Step, TokenOf, NextName;
    var s := Stream(f, t);
    var front, c := name[..|name| - 1], name[|name| - 1];
    if |name| == 1 {
      assert name == [c];
      RunOne(cfg, s, c);
      NameFirstByte(cfg, f, t, c);
    } else {
      assert name == front + [c];
      NameRun(cfg, f, t, front);
      RunLast(cfg, s, name);
      if IsToken(front) {
        EmitPieces(t, OnHeaderField, front, [c]);
        NameNextByte(cfg, InName(f, front), Emit(t, Data(OnHeaderField, front)), c);
      }
    }
  }

  lemma NameFirstByte(cfg: Settings, f: Fields, t: Trace, c: char)
    requires Valid(f) && f.errno.OK? && f.state.HeaderFieldStart? && f.nread < MAX_HEADER_SIZE && !IsLineEnd(c)
    ensures Step(cfg, Stream(f, t), c) ==
            if TokenOf(c) != '\0' then Ready(Stream(InName(f, [c]), Emit(t, Data(OnHeaderField, [c])))) else Failed
  {
    hide Emit, Step, TokenOf, Sound;
    PlainStep(cfg, f, t, c);
  }

  lemma NameNextByte(cfg: Settings, f: Fields, t: Trace, c: char)
    requires Valid(f) && f.errno.OK? && f.state.HeaderField? && f.nread < MAX_HEADER_SIZE && c != ':'
    ensures var (h, i) := NextName(f.headerState, f.index, c, TokenOf(c));
            Step(cfg, Stream(f, t), c) ==
            if TokenOf(c) != '\0' then Ready(Stream(f.(headerState := h, index := i, nread := f.nread + 1),
              Emit(t, Data(OnHeaderField, [c])))) else Failed
  {
    hide Emit, Step, TokenOf, Sound, NextName;
    PlainStep(cfg, f, t, c);
  }

  lemma ColonByte(cfg: Settings, f: Fields, t: Trace)
    requires Valid(f) && f.errno.OK? && f.state.HeaderField? && f.nread < MAX_HEADER_SIZE
    ensures Step(cfg, Stream(f, t), ':')
            == Ready(Stream(f.(state := HeaderValueDiscardWs, nread := f.nread + 1), Emit(t, Data(OnHeaderField, ""))))
  {
    hide Emit, Step, Sound, NextName;
    PlainStep(cfg, f, t, ':');
  }

  /** Only the tracked word itself counts as a special header. */
  lemma SpecialStates(h: HeaderState, i: nat, w: string)
    requires Tracks(h, i, w)
    ensures h.Connection? <==> w == ConnectionWord() || w == ProxyConnectionWord()
    ensures h.ContentLength? <==> w == ContentLengthWord()
    ensures h.TransferEncoding? <==> w == TransferEncodingWord()
    ensures h.Upgrade? <==> w == UpgradeWord()
  {
    WordBytes();
    HeadsWhole(w);
  }

  /** The fields after the colon of a header. */
  function AfterName(f: Fields, name: string): Fields
    requires name != ""
  {
    f.(state := HeaderValueDiscardWs, headerState := FollowName(name).0, index := FollowName(name).1,
      nread := f.nread + |name| + 1)
  }

  lemma NameColonRun(cfg: Settings, f: Fields, t: Trace, name: string)
    requires Valid(f) && f.errno.OK? && f.state.HeaderFieldStart? && f.nread + |name| + 1 <= MAX_HEADER_SIZE
    requires name != "" && !IsLineEnd(name[0]) && ':' !in name
    ensures Run(cfg, Stream(f, t), name + ":") ==
            if IsToken(name) then Ready(Stream(AfterName(f, name), Emit(t, Data(OnHeaderField, name)))) else Failed
  {
    hide Emit, Run, Step, TokenOf, NextName, Folded, FollowName;
    NameRun(cfg, f, t, name);
    RunLast(cfg, Stream(f, t), name + ":");
    assert (name + ":")[..|name|] == name;
    if IsToken(name) {
      ColonByte(cfg, InName(f, name), Emit(t, Data(OnHeaderField, name)));
      EmitPieces(t, OnHeaderField, name, "");
      assert name + "" == name;
    }
  }

  /**
   A name and a colon get through exactly when the name is a token; at the colon the header state
   names a special header exactly when the case-folded name is that header's name.
   */
  lemma NamesAreRecognisedExactly(cfg: Settings, f: Fields, t: Trace, name: string)
    requires Valid(f) && f.errno.OK? && f.state.HeaderFieldStart? && f.nread + |name| + 1 <= MAX_HEADER_SIZE
    requires name != "" && !IsLineEnd(name[0]) && ':' !in name
    ensures var r := Run(cfg, Stream(f, t), name + ":");
            && (r.Ready? || r.Failed?)
            && (r.Ready? <==> IsToken(name))
            && (r.Ready? ==>
                  var h := r.s.f.headerState;
                  && (h.Connection? <==> Folded(name) == "connection" || Folded(name) == "proxy-connection")
                  && (h.ContentLength? <==> Folded(name) == "content-length")
                  && (h.TransferEncoding? <==> Folded(name) == "transfer-encoding")
                  && (h.Upgrade? <==> Folded(name) == "upgrade")
                  && r.s.f.state.HeaderValueDiscardWs? && r.s.trace == Emit(t, Data(OnHeaderField, name)))
  {
    hide Emit, Run, TokenOf, Tracks, Folded, FollowName;
    NameColonRun(cfg, f, t, name);
    if IsToken(name) {
      NameIsTracked(name);
      var (h, i) := FollowName(name);
      SpecialStates(h, i, Folded(name));
    }
  }
}
