/**
 The values of Connection headers: which of the comma-separated parts the parser looks at, and that it
 sets a flag exactly for a token among those.
 */
module HttpConnection {
  import opened Options
  import opened HttpTypes
  import opened HttpVisit
  import opened HttpHeaders
  import opened HttpValues
  import opened StringUtils

  // ----- Parts -----

  /** The parts of a value that commas separate. */
  function Parts(v: string): (ps: seq<string>)
    ensures ps != []
  {
    if v == "" then [""] else
      var front, c := Parts(v[..|v| - 1]), v[|v| - 1];
      if c == ',' then front + [""] else front[..|front| - 1] + [front[|front| - 1] + [c]]
  }

  function LastOf(ps: seq<string>): string
    requires ps != []
  {
    ps[|ps| - 1]
  }

  lemma PartsMore(v: string, c: char)
    ensures var ps := Parts(v);
            Parts(v + [c]) == if c == ',' then ps + [""] else ps[..|ps| - 1] + [LastOf(ps) + [c]]
  {
    assert (v + [c])[..|v|] == v;
  }

  lemma {:induction false} JoinLast(ps: seq<string>, x: string, c: char)
    ensures JoinWith(ps + [x + [c]], ",") == JoinWith(ps + [x], ",") + [c]
    ensures JoinWith(ps + [x, ""], ",") == JoinWith(ps + [x], ",") + ","
  {
    if ps == [] {
      assert [x, ""][1..] == [""];
    } else {
      JoinLast(ps[1..], x, c);
      assert (ps + [x + [c]])[1..] == ps[1..] + [x + [c]];
      assert (ps + [x, ""])[1..] == ps[1..] + [x, ""];
      assert (ps + [x])[1..] == ps[1..] + [x];
    }
  }

  /** They hold no comma, and joined by commas they are the value. */
  lemma {:induction false} PartsJoin(v: string)
    ensures JoinWith(Parts(v), ",") == v
    ensures forall p <- Parts(v) :: ',' !in p
  {
    hide JoinWith;
    if v == "" {
      assert JoinWith([""], ",") == "" by {
        OneToken("");
      }
    } else {
      var front, c := v[..|v| - 1], v[|v| - 1];
      var ps := Parts(front);
      PartsJoin(front);
      PartsMore(front, c);
      JoinLast(ps[..|ps| - 1], LastOf(ps), c);
      assert ps == ps[..|ps| - 1] + [LastOf(ps)] && LastOf(ps) in ps;
      assert ps[..|ps| - 1] + [LastOf(ps), ""] == ps + [""];
      assert v == front + [c];
    }
  }

  lemma OneToken(x: string)
    ensures JoinWith([x], ",") == x
  {
  }

  lemma {:induction false} PartsAppend(x: string, y: string)
    ensures Parts(x + "," + y) == Parts(x) + Parts(y)
    decreases |y|
  {
    hide Parts;
    assert Parts("") == [""] by {
      OnePart("");
    }
    if y == "" {
      PartsMore(x, ',');
      assert x + "," + y == x + [','];
    } else {
      var front, c := y[..|y| - 1], y[|y| - 1];
      PartsAppend(x, front);
      assert y == front + [c] && x + "," + y == (x + "," + front) + [c];
      PartsMore(x + "," + front, c);
      PartsMore(front, c);
      LastSplit(Parts(x), Parts(front), c);
    }
  }

  lemma LastSplit(ps: seq<string>, qs: seq<string>, c: char)
    requires qs != []
    ensures (ps + qs)[..|ps + qs| - 1] + [LastOf(ps + qs) + [c]] == ps + (qs[..|qs| - 1] + [LastOf(qs) + [c]])
    ensures (ps + qs) + [""] == ps + (qs + [""])
  {
  }

  lemma {:induction false} OnePart(v: string)
    requires ',' !in v
    ensures Parts(v) == [v]
  {
    if v != "" {
      OnePart(v[..|v| - 1]);
      assert v == v[..|v| - 1] + [v[|v| - 1]];
    }
  }

  /** A part without the spaces before it. */
  function Stripped(x: string): (y: string)
    ensures y == "" || y[0] != ' '
  {
    if x != "" && x[0] == ' ' then Stripped(x[1..]) else x
  }

  lemma {:induction false} StrippedMore(x: string, c: char)
    ensures Stripped(x + [c]) == if c == ' ' && Stripped(x) == "" then "" else Stripped(x) + [c]
    decreases |x|
  {
    if x == "" {
      assert x + [c] == [c] && [c][1..] == "";
    } else {
      assert (x + [c])[1..] == x[1..] + [c];
      if x[0] == ' ' {
        StrippedMore(x[1..], c);
      }
    }
  }

  /** A part is the token `word`, but for case and the blanks around it. */
  ghost predicate Spells(part: string, word: string) {
    exists i, j | 0 <= i <= j <= |part| :: AllBlank(part[..i]) && AllBlank(part[j..]) && Folded(part[i..j]) == word
  }

  /** The value lists the token `word`. */
  ghost predicate HasToken(v: string, word: string) {
    exists p <- Parts(v) :: Spells(p, word)
  }

  // ----- What the parser looks at -----

  /**
   How the parser stands to a part: it is the first one, the parser looks for a token in it, it skips it,
   or it has lost its way for the rest of the value.
   */
  datatype Attention = First | Looking | Skipping | Lost

  /** The part breaks off in the middle of a token. */
  ghost predicate Breaks(x: string) {
    || RelationTo(x, KeepAliveWord()).Begins? || RelationTo(x, CloseWord()).Begins?
      || RelationTo(x, UpgradeWord()).Begins?
  }

  /** A byte at the start of a part from which the parser does not come back. */
  predicate Misleads(c: char) {
    c in "\t\"(),/:;<=>?[]_{}" || c as int >= 128
  }

  /** What the parser compares with the tokens. */
  function Compared(a: Attention, part: string): string {
    if a.First? then part else Stripped(part)
  }

  /** How the parser stands to the part after `part`. */
  ghost function NextAttention(a: Attention, part: string): Attention {
    match a
    case First => if part == "" || Breaks(part) then Skipping else Looking
    case Looking =>
      var x := Stripped(part);
      if x == "" || Misleads(x[0]) then Lost else if Breaks(x) then Skipping else Looking
    case Skipping => Looking
    case Lost => Lost
  }

  ghost function AttentionTo(ps: seq<string>, i: nat): Attention
    requires i < |ps|
  {
    if i == 0 then First else NextAttention(AttentionTo(ps, i - 1), ps[i - 1])
  }

  ghost predicate SeenIn(a: Attention, part: string, word: string) {
    (a.First? || a.Looking?) && RelationTo(Compared(a, part), word).Is?
  }

  ghost predicate SeenBefore(ps: seq<string>, n: nat, word: string)
    requires n <= |ps|
  {
    exists i | 0 <= i < n :: SeenIn(AttentionTo(ps, i), ps[i], word)
  }

  /** One of the parts that the parser looks at is the token `word`. */
  ghost predicate IsSeen(v: string, word: string) {
    SeenBefore(Parts(v), |Parts(v)|, word)
  }

  lemma {:induction false} AttentionPrefix(ps: seq<string>, qs: seq<string>, i: nat)
    requires i < |ps| && i < |qs| && ps[..i] == qs[..i]
    ensures AttentionTo(ps, i) == AttentionTo(qs, i)
  {
    hide NextAttention;
    if i > 0 {
      assert ps[..i - 1] == ps[..i][..i - 1] && qs[..i - 1] == qs[..i][..i - 1];
      AttentionPrefix(ps, qs, i - 1);
      assert ps[i - 1] == ps[..i][i - 1] && qs[i - 1] == qs[..i][i - 1];
    }
  }

  lemma SeenPrefix(ps: seq<string>, qs: seq<string>, n: nat, word: string)
    requires n <= |ps| && n <= |qs| && ps[..n] == qs[..n]
    ensures SeenBefore(ps, n, word) == SeenBefore(qs, n, word)
  {
    hide SeenIn;
    forall i | 0 <= i < n ensures ps[i] == qs[i] && AttentionTo(ps, i) == AttentionTo(qs, i) {
      assert ps[..i] == ps[..n][..i] && qs[..i] == qs[..n][..i];
      AttentionPrefix(ps, qs, i);
      assert ps[i] == ps[..n][i] && qs[i] == qs[..n][i];
    }
  }

  // ----- The header state says which -----

  /** Matching states of a Connection value, with the word each of them follows. */
  ghost function MatchedWord(h: HeaderState): Option<string> {
    match h
    case MatchingKeepAlive => Some(KeepAliveWord())
    case MatchingClose => Some(CloseWord())
    case MatchingConnUpgrade => Some(UpgradeWord())
    case _ => None
  }

  function HitOf(m: HeaderState): HeaderState {
    match m case MatchingKeepAlive => KeepAlive case MatchingClose => Close case _ => ConnUpgrade
  }

  /** The header state after the beginning `x` of a part. */
  ghost function StateOfPart(x: string): HeaderState {
    if !RelationTo(x, KeepAliveWord()).Differs?
      then StateOf(RelationTo(x, KeepAliveWord()), MatchingKeepAlive, KeepAlive, Token)
    else if !RelationTo(x, CloseWord()).Differs? then StateOf(RelationTo(x, CloseWord()), MatchingClose, Close, Token)
    else StateOf(RelationTo(x, UpgradeWord()), MatchingConnUpgrade, ConnUpgrade, Token)
  }

  ghost function StateIn(a: Attention, part: string): HeaderState {
    match a
    case First => StateOfPart(part)
    case Looking =>
      var x := Stripped(part);
      if x == "" then TokenStart else if Misleads(x[0]) then General else StateOfPart(x)
    case Skipping => Token
    case Lost => General
  }

  /** Header state and index within the last part of a value. */
  ghost predicate Stands(h: HeaderState, i: nat, a: Attention, part: string) {
    && h == StateIn(a, part)
    && (MatchedWord(h).Some? ==> i + 1 == |Compared(a, part)|)
    && (h.TokenStart? ==> i == 0)
  }

  lemma {:induction false} RelationHead(x: string, word: string)
    requires IsWord(word) && x != "" && !RelationTo(x, word).Differs?
    ensures FoldedChar(x[0]) == word[0]
  {
    hide RelationTo, FoldedChar;
    var front, c := x[..|x| - 1], x[|x| - 1];
    assert x == front + [c];
    if |x| == 1 {
      assert x == [c];
      RelationFirst(c, word);
    } else {
      RelationMore(front, c, word);
      RelationHead(front, word);
    }
  }

  /** The three tokens begin differently. */
  lemma OneRelation(x: string)
    requires x != ""
    ensures RelationTo(x, KeepAliveWord()).Differs?
            || (RelationTo(x, CloseWord()).Differs? && RelationTo(x, UpgradeWord()).Differs?)
    ensures RelationTo(x, CloseWord()).Differs? || RelationTo(x, UpgradeWord()).Differs?
  {
    hide RelationTo, FoldedChar, KeepAliveWord, CloseWord, UpgradeWord;
    WordsAreWords();
    forall word | word in [KeepAliveWord(), CloseWord(), UpgradeWord()] && !RelationTo(x, word).Differs?
      ensures FoldedChar(x[0]) == word[0] {
      RelationHead(x, word);
    }
    assert KeepAliveWord() in [KeepAliveWord(), CloseWord(), UpgradeWord()];
    assert CloseWord() in [KeepAliveWord(), CloseWord(), UpgradeWord()];
    assert UpgradeWord() in [KeepAliveWord(), CloseWord(), UpgradeWord()];
  }

  lemma PartStates(x: string)
    requires x != ""
    ensures var h := StateOfPart(x);
            && (h == MatchingKeepAlive <==> RelationTo(x, KeepAliveWord()).Begins?)
            && (h == MatchingClose <==> RelationTo(x, CloseWord()).Begins?)
            && (h == MatchingConnUpgrade <==> RelationTo(x, UpgradeWord()).Begins?)
            && (h == KeepAlive <==> RelationTo(x, KeepAliveWord()).Is?)
            && (h == Close <==> RelationTo(x, CloseWord()).Is?)
            && (h == ConnUpgrade <==> RelationTo(x, UpgradeWord()).Is?)
            && (h in {MatchingKeepAlive, MatchingClose, MatchingConnUpgrade, KeepAlive, Close, ConnUpgrade, Token})
            && (MatchedWord(h).Some? <==> Breaks(x))
  {
    hide RelationTo, KeepAliveWord, CloseWord, UpgradeWord;
    OneRelation(x);
  }

  lemma EmptyDiffers(word: string)
    requires IsWord(word)
    ensures RelationTo("", word).Differs?
  {
  }

  lemma NoSeparators(ch: char, x: char)
    requires 'a' <= x <= 'z' || x == '-'
    ensures FoldedChar(ch) == x ==> ch != ',' && ch != ' ' && ch != '\t'
  {
  }

  lemma CommaIsHeaderChar()
    ensures IsHeaderChar(',') && !IsLineEnd(',') && Lower(',') == ','
  {
  }

  /** A part begun, and one more byte of it. */
  lemma PartNext(h: HeaderState, i: nat, x: string, c: char)
    requires x != "" && h == StateOfPart(x) && (MatchedWord(h).Some? ==> i + 1 == |x|)
    requires IsHeaderChar(c) && !IsLineEnd(c) && c != ','
    ensures var (h', i') := NextToken(h, i, c, Lower(c));
            h' == StateOfPart(x + [c]) && (MatchedWord(h').Some? ==> i' == |x|)
  {
    hide RelationTo, Lower, Match, KeepAliveWord, CloseWord, UpgradeWord, IsHeaderChar, StateOfPart;
    WordsAreWords();
    PartStates(x);
    PartStates(x + [c]);
    RelationMore(x, c, KeepAliveWord());
    RelationMore(x, c, CloseWord());
    RelationMore(x, c, UpgradeWord());
    if MatchedWord(h).Some? {
      OneRelation(x);
      MatchRelation(h, x, c, MatchedWord(h).value, Token, HitOf(h));
    } else if h != Token {
      OneRelation(x);
    }
  }

  /** A part begun, and its comma. */
  lemma PartComma(h: HeaderState, i: nat, x: string)
    requires x != "" && h == StateOfPart(x) && (MatchedWord(h).Some? ==> i + 1 == |x|)
    ensures var (h', i') := NextToken(h, i, ',', Lower(','));
            if Breaks(x) then h' == Token else h' == TokenStart && i' == 0
  {
    hide RelationTo, Lower, Match, KeepAliveWord, CloseWord, UpgradeWord, IsHeaderChar, StateOfPart, Breaks;
    WordsAreWords();
    PartStates(x);
    CommaIsHeaderChar();
    if MatchedWord(h).Some? {
      var word := MatchedWord(h).value;
      MatchRelation(h, x, ',', word, Token, HitOf(h));
      BeginsShort(x, word);
      RelationMore(x, ',', word);
      assert word[|x|] in word;
      NoSeparators(',', word[|x|]);
    }
  }

  lemma FirstByteOfPart(c: char)
    requires IsHeaderChar(c) && !IsLineEnd(c)
    ensures StateOfPart([c]) == if Lower(c) == 'k' then MatchingKeepAlive else if Lower(c) == 'c' then MatchingClose
                                else if Lower(c) == 'u' then MatchingConnUpgrade else Token
    ensures Lower(c) == 'k' || Lower(c) == 'c' || Lower(c) == 'u' ==> !Misleads(c) && c != ' ' && c != ','
  {
    hide RelationTo, KeepAliveWord, CloseWord, UpgradeWord, IsHeaderChar;
    WordsAreWords();
    PartStates([c]);
    RelationFirst(c, KeepAliveWord());
    RelationFirst(c, CloseWord());
    RelationFirst(c, UpgradeWord());
    LowerIsFolded(c, 'k');
    LowerIsFolded(c, 'c');
    LowerIsFolded(c, 'u');
  }

  /** The bytes that mislead are those that are neither blank nor, lowered, a token's. */
  lemma MisleadsExactly(c: char)
    requires IsHeaderChar(c) && !IsLineEnd(c)
    ensures Misleads(c) <==> TokenOf(Lower(c)) == '\0' && c != ' '
    ensures Lower(c) == ' ' || Lower(c) == '\t' ==> c == ' '
  {
  }

  /** The first byte of a part behind a comma. */
  lemma LookingStart(c: char)
    requires IsHeaderChar(c) && !IsLineEnd(c)
    ensures NextToken(TokenStart, 0, c, Lower(c)) ==
            (if c == ' ' then TokenStart else if Misleads(c) then General else StateOfPart([c]), 0)
  {
    hide Lower, TokenOf, IsHeaderChar, StateOfPart, Misleads;
    FirstByteOfPart(c);
    MisleadsExactly(c);
    SpaceStays();
  }

  lemma SpaceStays()
    ensures Lower(' ') == ' ' && TokenOf(' ') == '\0' && !Misleads(' ')
  {
  }

  /** One more byte of the last part. */
  lemma StandsNext(h: HeaderState, i: nat, a: Attention, part: string, c: char)
    requires Stands(h, i, a, part) && (a.First? ==> part != "") && IsHeaderChar(c) && !IsLineEnd(c) && c != ','
    ensures var (h', i') := NextToken(h, i, c, Lower(c)); Stands(h', i', a, part + [c])
  {
    hide NextToken, Lower, IsHeaderChar, StateOfPart, Misleads, Stripped;
    StrippedMore(part, c);
    var x := Compared(a, part);
    if a.Lost? || a.Skipping? {
      PlainNext(h, i, c);
    } else if x == "" {
      LookingStart(c);
      assert x + [c] == [c];
    } else if a.Looking? && Misleads(x[0]) {
      PlainNext(h, i, c);
    } else {
      PartStates(x);
      PartStates(x + [c]);
      PartNext(h, i, x, c);
    }
  }

  lemma PlainNext(h: HeaderState, i: nat, c: char)
    requires h.General? || h.Token?
    ensures NextToken(h, i, c, Lower(c)) == if h.Token? && c == ',' then (TokenStart, 0) else (h, i)
  {
  }

  /** The comma behind the last part. */
  lemma StandsComma(h: HeaderState, i: nat, a: Attention, part: string)
    requires Stands(h, i, a, part) && (a.First? ==> part != "")
    ensures var (h', i') := NextToken(h, i, ',', Lower(',')); Stands(h', i', NextAttention(a, part), "")
  {
    hide NextToken, Lower, IsHeaderChar, StateOfPart, Misleads, Breaks;
    var x := Compared(a, part);
    if a.Lost? || a.Skipping? || (x != "" && a.Looking? && Misleads(x[0])) {
      PlainNext(h, i, ',');
    } else if x == "" {
      CommaIsHeaderChar();
      LookingStart(',');
      CommaMisleads();
    } else {
      PartComma(h, i, x);
    }
  }

  lemma CommaMisleads()
    ensures Misleads(',')
  {
  }

  /** The flags that a state has earned. */
  lemma StandsFlags(h: HeaderState, i: nat, a: Attention, part: string)
    requires Stands(h, i, a, part) && (a.First? ==> part != "")
    ensures h.KeepAlive? <==> SeenIn(a, part, KeepAliveWord())
    ensures h.Close? <==> SeenIn(a, part, CloseWord())
    ensures h.ConnUpgrade? <==> SeenIn(a, part, UpgradeWord())
    ensures !h.ContentLength? && !h.ContentLengthNum? && !h.ContentLengthWs? && !h.Chunked?
  {
    hide RelationTo, StateOfPart, KeepAliveWord, CloseWord, UpgradeWord, Misleads;
    WordsAreWords();
    EmptyDiffers(KeepAliveWord());
    EmptyDiffers(CloseWord());
    EmptyDiffers(UpgradeWord());
    var x := Compared(a, part);
    if x != "" {
      PartStates(x);
      if Misleads(x[0]) {
        MisledIsNoToken(x);
      }
    }
  }

  lemma MisledIsNoToken(x: string)
    requires x != "" && Misleads(x[0])
    ensures RelationTo(x, KeepAliveWord()).Differs? && RelationTo(x, CloseWord()).Differs?
            && RelationTo(x, UpgradeWord()).Differs?
  {
    hide RelationTo, KeepAliveWord, CloseWord, UpgradeWord;
    WordsAreWords();
    forall word | word in [KeepAliveWord(), CloseWord(), UpgradeWord()] && !RelationTo(x, word).Differs? ensures false {
      RelationHead(x, word);
    }
    assert KeepAliveWord() in [KeepAliveWord(), CloseWord(), UpgradeWord()];
    assert CloseWord() in [KeepAliveWord(), CloseWord(), UpgradeWord()];
    assert UpgradeWord() in [KeepAliveWord(), CloseWord(), UpgradeWord()];
  }

  // ----- The flags of a value -----

  /** The flags, with those of the tokens seen in the first `n` parts. */
  ghost function Earned(flags: Flags, ps: seq<string>, n: nat): Flags
    requires n <= |ps|
  {
    flags.(keepAlive := flags.keepAlive || SeenBefore(ps, n, KeepAliveWord()),
      close := flags.close || SeenBefore(ps, n, CloseWord()),
           connUpgrade := flags.connUpgrade || SeenBefore(ps, n, UpgradeWord()))
  }

  lemma EarnedMore(flags: Flags, ps: seq<string>, n: nat, h: HeaderState, i: nat)
    requires n < |ps| && Stands(h, i, AttentionTo(ps, n), ps[n]) && (n == 0 ==> ps[0] != "")
    ensures SetConnectionFlag(Earned(flags, ps, n), h) == Earned(flags, ps, n + 1)
  {
    hide SeenIn, Stands, KeepAliveWord, CloseWord, UpgradeWord;
    SeenMore(ps, n, KeepAliveWord());
    SeenMore(ps, n, CloseWord());
    SeenMore(ps, n, UpgradeWord());
    NotFirst(ps, n);
    StandsFlags(h, i, AttentionTo(ps, n), ps[n]);
  }

  lemma SeenMore(ps: seq<string>, n: nat, word: string)
    requires n < |ps|
    ensures SeenBefore(ps, n + 1, word) <==> SeenBefore(ps, n, word) || SeenIn(AttentionTo(ps, n), ps[n], word)
  {
  }

  lemma NotFirst(ps: seq<string>, n: nat)
    requires n < |ps|
    ensures AttentionTo(ps, n).First? <==> n == 0
  {
  }

  lemma EarnedPrefix(flags: Flags, ps: seq<string>, qs: seq<string>, n: nat)
    requires n <= |ps| && n <= |qs| && ps[..n] == qs[..n]
    ensures Earned(flags, ps, n) == Earned(flags, qs, n)
  {
    hide SeenBefore;
    SeenPrefix(ps, qs, n, KeepAliveWord());
    SeenPrefix(ps, qs, n, CloseWord());
    SeenPrefix(ps, qs, n, UpgradeWord());
  }

  /** Where the parser stands after a nonempty value. */
  ghost predicate Follows(f: Fields, g: Fields, value: string) {
    var ps := Parts(value);
    var n := |ps| - 1;
    && g == f.(state := HeaderValue, index := g.index, headerState := g.headerState, nread := f.nread + |value|,
       flags := g.flags)
    && g.flags == Earned(f.flags, ps, n)
    && Stands(g.headerState, g.index, AttentionTo(ps, n), ps[n])
    && (n == 0 ==> ps[0] != "")
  }

  lemma ValueFirst(f: Fields, c: char)
    requires f.headerState.Connection? && !IsLineEnd(c)
    ensures var v := VisitValueStart(Bump(f, 1), c);
            Passed(v) == Some(v.f) && Follows(f, v.f, [c])
  {
    hide StateOfPart, Misleads, RelationTo, KeepAliveWord, CloseWord, UpgradeWord, IsHeaderChar, Parts, Earned,
      NextAttention;
    PartsMore("", c);
    OnePart("");
    assert [c] == "" + [c];
    StartOfValue(c);
    var ps := Parts([c]);
    NoneEarned(f.flags, ps);
    if c == ',' {
      assert ps == ["", ""];
      NextIs(ps, 0);
      FirstComma();
      EmptyIsNotSeen(f.flags, [c]);
    } else {
      assert ps == [[c]];
      PartStates([c]);
    }
  }

  lemma FirstComma()
    ensures NextAttention(First, "").Skipping?
  {
  }

  /** At the very first byte even a comma counts as a byte of a token. */
  lemma StartOfValue(c: char)
    requires !IsLineEnd(c)
    ensures c != ',' ==>
            StateOfPart([c]) == if Lower(c) == 'k' then MatchingKeepAlive else if Lower(c) == 'c' then MatchingClose
                                             else if Lower(c) == 'u' then MatchingConnUpgrade else Token
    ensures c == ',' ==> Lower(c) == ','
  {
    hide RelationTo, KeepAliveWord, CloseWord, UpgradeWord;
    WordsAreWords();
    PartStates([c]);
    RelationFirst(c, KeepAliveWord());
    RelationFirst(c, CloseWord());
    RelationFirst(c, UpgradeWord());
    LowerIsFolded(c, 'k');
    LowerIsFolded(c, 'c');
    LowerIsFolded(c, 'u');
  }

  lemma NoneEarned(flags: Flags, ps: seq<string>)
    ensures Earned(flags, ps, 0) == flags
  {
  }

  lemma EmptyIsNotSeen(flags: Flags, v: string)
    requires Parts(v) == ["", ""]
    ensures Earned(flags, Parts(v), 1) == flags
  {
    hide RelationTo, KeepAliveWord, CloseWord, UpgradeWord;
    WordsAreWords();
    EmptyDiffers(KeepAliveWord());
    EmptyDiffers(CloseWord());
    EmptyDiffers(UpgradeWord());
  }

  lemma ValueNext(f: Fields, g: Fields, value: string, c: char)
    requires Follows(f, g, value) && !IsLineEnd(c)
    ensures match Passed(ValueByte(Bump(g, 1), c))
            case None => !IsHeaderChar(c)
            case Some(g') => IsHeaderChar(c) && Follows(f, g', value + [c])
  {
    hide Stands, NextToken, Lower, IsHeaderChar, AttentionTo, NextAttention, Earned, Parts;
    var ps := Parts(value);
    var n := |ps| - 1;
    var qs := Parts(value + [c]);
    NotFirst(ps, n);
    StandsFlags(g.headerState, g.index, AttentionTo(ps, n), ps[n]);
    TokenByteIs(g, c);
    if IsHeaderChar(c) {
      PartsMore(value, c);
      if c == ',' {
        StandsComma(g.headerState, g.index, AttentionTo(ps, n), ps[n]);
        EarnedMore(f.flags, ps, n, g.headerState, g.index);
        assert qs[..n + 1] == ps[..n + 1] && qs[n + 1] == "";
        AttentionPrefix(qs, ps, n);
        NextIs(qs, n);
        EarnedPrefix(f.flags, qs, ps, n + 1);
      } else {
        StandsNext(g.headerState, g.index, AttentionTo(ps, n), ps[n], c);
        assert qs[..n] == ps[..n] && qs[n] == ps[n] + [c];
        AttentionPrefix(qs, ps, n);
        EarnedPrefix(f.flags, qs, ps, n);
      }
    }
  }

  lemma NextIs(ps: seq<string>, n: nat)
    requires n + 1 < |ps|
    ensures AttentionTo(ps, n + 1) == NextAttention(AttentionTo(ps, n), ps[n])
  {
  }

  /** A value is followed part by part, and refused only for a control character. */
  lemma {:induction false} ConnectionIsFollowed(f: Fields, value: string)
    requires f.headerState.Connection? && value != "" && OneLine(value)
    ensures match FollowValue(f, value)
            case None => !IsValue(value[1..])
            case Some(g) => IsValue(value[1..]) && Follows(f, g, value)
  {
    hide VisitValueStart, ValueByte, Follows, IsHeaderChar, IsLineEnd;
    var front, c := value[..|value| - 1], value[|value| - 1];
    if |value| == 1 {
      assert value == [c];
      ValueFirst(f, c);
    } else {
      ConnectionIsFollowed(f, front);
      assert value[1..] == front[1..] + [c] && value == front + [c];
      if FollowValue(f, front).Some? {
        ValueNext(f, FollowValue(f, front).value, front, c);
      }
    }
  }

  /** The flags, with those of the tokens seen in a value. */
  ghost function SeenFlags(flags: Flags, value: string): Flags {
    flags.(keepAlive := flags.keepAlive || IsSeen(value, "keep-alive"), close := flags.close || IsSeen(value, "close"),
           connUpgrade := flags.connUpgrade || IsSeen(value, "upgrade"))
  }

  /**
   Whatever stands between the commas, a Connection value sets a flag exactly if one of the parts that
   the parser looks at is that token; it changes no other flag and no length.
   */
  lemma ConnectionIsExact(f: Fields, value: string)
    requires f.headerState.Connection? && value != "" && OneLine(value)
    ensures match FollowValue(f, value)
            case None => !IsValue(value[1..])
            case Some(g) =>
              && IsValue(value[1..])
              && FinishedFlags(g) == SeenFlags(f.flags, value)
              && g == f.(state := HeaderValue, index := g.index, headerState := g.headerState,
                 nread := f.nread + |value|, flags := g.flags)
  {
    hide FollowValue, IsValue, SeenFlags, FinishedFlags, Stands, Earned, Parts;
    ConnectionIsFollowed(f, value);
    if FollowValue(f, value).Some? {
      FollowsFinished(f, FollowValue(f, value).value, value);
    }
  }

  lemma FollowsFinished(f: Fields, g: Fields, value: string)
    requires Follows(f, g, value)
    ensures FinishedFlags(g) == SeenFlags(f.flags, value)
  {
    hide Stands, Earned, Parts, SetConnectionFlag, AttentionTo, FinishedFlags, SeenFlags;
    var ps := Parts(value);
    EarnedMore(f.flags, ps, |ps| - 1, g.headerState, g.index);
    EarnedIsSeen(f.flags, value);
    NotFirst(ps, |ps| - 1);
    StandsUnchunked(g, AttentionTo(ps, |ps| - 1), LastOf(ps));
  }

  lemma StandsUnchunked(g: Fields, a: Attention, part: string)
    requires Stands(g.headerState, g.index, a, part) && (a.First? ==> part != "")
    ensures FinishedFlags(g) == SetConnectionFlag(g.flags, g.headerState)
  {
    hide Stands, SeenIn;
    StandsFlags(g.headerState, g.index, a, part);
  }

  lemma EarnedIsSeen(flags: Flags, value: string)
    ensures Earned(flags, Parts(value), |Parts(value)|) == SeenFlags(flags, value)
  {
  }

  // ----- Tokens that are seen -----

  lemma RelationIs(x: string, word: string)
    requires IsWord(word)
    ensures RelationTo(x, word).Is? <==> Trimmed(Folded(x)) == word
  {
    TrimmedHeads(Folded(x));
  }

  predicate AllSpace(x: string) {
    forall c <- x :: c == ' '
  }

  lemma {:induction false} TrimmedSplit(w: string)
    ensures Trimmed(w) + w[|Trimmed(w)|..] == w && AllSpace(w[|Trimmed(w)|..])
  {
    if w != "" && w[|w| - 1] == ' ' {
      var front := w[..|w| - 1];
      TrimmedSplit(front);
      assert w[|Trimmed(w)|..] == front[|Trimmed(w)|..] + [' '];
    }
  }

  lemma {:induction false} TrimmedWhole(w: string, b: string)
    requires AllSpace(b) && (w == "" || w[|w| - 1] != ' ')
    ensures Trimmed(w + b) == w
  {
    if b == "" {
      assert w + b == w;
    } else {
      var front, c := b[..|b| - 1], b[|b| - 1];
      assert c in b && b == front + [c] && forall d | d in front :: d in b;
      TrimmedWhole(w, front);
      TrimmedMore(w + front, c);
      assert w + b == (w + front) + [c];
    }
  }

  lemma {:induction false} StrippedSplit(x: string)
    ensures |Stripped(x)| <= |x| && AllSpace(x[..|x| - |Stripped(x)|]) && x[|x| - |Stripped(x)|..] == Stripped(x)
  {
    if x != "" && x[0] == ' ' {
      StrippedSplit(x[1..]);
      assert x[..|x| - |Stripped(x)|] == [' '] + x[1..][..|x| - 1 - |Stripped(x)|];
    }
  }

  lemma {:induction false} StrippedWhole(a: string, x: string)
    requires AllSpace(a) && x != "" && x[0] != ' '
    ensures Stripped(a + x) == x
  {
    if a == "" {
      assert a + x == x;
    } else {
      assert a[0] in a && forall c <- a[1..] :: c in a;
      StrippedWhole(a[1..], x);
      assert (a + x)[1..] == a[1..] + x;
    }
  }

  lemma FoldedAppend(a: string, b: string)
    ensures Folded(a + b) == Folded(a) + Folded(b)
  {
    hide FoldedChar;
    forall i | 0 <= i < |a + b| ensures FoldedChar((a + b)[i]) == (Folded(a) + Folded(b))[i] {
      if i < |a| {
        FoldedAt(a, i);
      } else {
        FoldedAt(b, i - |a|);
      }
    }
    FoldedIs(a + b, Folded(a) + Folded(b));
  }

  lemma FoldedSpace(b: string)
    ensures AllSpace(Folded(b)) <==> AllSpace(b)
  {
    hide FoldedChar;
    forall i | 0 <= i < |b| ensures Folded(b)[i] == ' ' <==> b[i] == ' ' {
      FoldedAt(b, i);
      SpaceIsFolded(b[i]);
    }
    assert forall i | 0 <= i < |b| :: b[i] in b && Folded(b)[i] in Folded(b);
  }

  /** What the parser takes for a token is one. */
  lemma SeenSpells(a: Attention, part: string, word: string)
    requires IsWord(word) && SeenIn(a, part, word)
    ensures Spells(part, word)
  {
    hide RelationTo, Folded, Trimmed, FoldedChar;
    var x := Compared(a, part);
    RelationIs(x, word);
    var w, n := Folded(x), |word|;
    TrimmedSplit(w);
    FoldedAppend(x[..n], x[n..]);
    assert x == x[..n] + x[n..] && w[..n] == word && Folded(x[..n]) == w[..n] && Folded(x[n..]) == w[n..];
    FoldedSpace(x[n..]);
    StrippedSplit(part);
    var i := |part| - |x|;
    assert part[i..] == x && part[i..i + n] == x[..n] && part[i + n..] == x[n..];
    SpaceIsBlank(x[n..]);
    SpaceIsBlank(part[..i]);
  }

  lemma SpaceIsBlank(x: string)
    requires AllSpace(x)
    ensures AllBlank(x)
  {
  }

  /** A token that a part without tabs spells, and the spaces around it. */
  lemma SpelledSplit(part: string, word: string) returns (a: string, u: string, b: string)
    requires Spells(part, word) && '\t' !in part
    ensures part == a + (u + b) && AllSpace(a) && AllSpace(b) && Folded(u) == word
  {
    hide Folded;
    var i, j :| 0 <= i <= j <= |part| && AllBlank(part[..i]) && AllBlank(part[j..]) && Folded(part[i..j]) == word;
    a, u, b := part[..i], part[i..j], part[j..];
    assert (forall c <- a :: c in part) && (forall c <- b :: c in part);
  }

  lemma WordRelation(u: string, b: string, word: string)
    requires IsWord(word) && AllSpace(b) && Folded(u) == word
    ensures u != "" && u[0] != ' ' && RelationTo(u + b, word).Is?
  {
    hide RelationTo, Folded, Trimmed, FoldedChar;
    FoldedAt(u, 0);
    SpaceIsFolded(u[0]);
    assert word[0] in word && word[|word| - 1] in word;
    FoldedAppend(u, b);
    FoldedSpace(b);
    TrimmedWhole(word, Folded(b));
    RelationIs(u + b, word);
  }

  /** Without tabs, the parser takes every token for one. */
  lemma SpelledIsSeen(a: Attention, part: string, word: string)
    requires IsWord(word) && Spells(part, word) && '\t' !in part
    requires a.Looking? || (a.First? && part != "" && part[0] != ' ')
    ensures SeenIn(a, part, word)
  {
    hide RelationTo, Spells, Folded;
    var before, u, after := SpelledSplit(part, word);
    WordRelation(u, after, word);
    StrippedWhole(before, u + after);
    assert before != "" ==> before[0] in before && part[0] == before[0];
    assert "" + (u + after) == u + after;
  }

  /** A Connection value sets a flag only if it lists that token. */
  lemma ConnectionIsSound(f: Fields, value: string)
    requires f.headerState.Connection? && value != "" && OneLine(value) && FollowValue(f, value).Some?
    ensures var flags := FinishedFlags(FollowValue(f, value).value);
            && (flags.keepAlive ==> f.flags.keepAlive || HasToken(value, "keep-alive"))
            && (flags.close ==> f.flags.close || HasToken(value, "close"))
            && (flags.connUpgrade ==> f.flags.connUpgrade || HasToken(value, "upgrade"))
  {
    hide FollowValue, FinishedFlags, IsSeen, HasToken;
    ConnectionIsExact(f, value);
    SeenIsListed(value, KeepAliveWord());
    SeenIsListed(value, CloseWord());
    SeenIsListed(value, UpgradeWord());
  }

  lemma SeenIsListed(value: string, word: string)
    requires word in [KeepAliveWord(), CloseWord(), UpgradeWord()]
    ensures IsSeen(value, word) ==> HasToken(value, word)
  {
    hide SeenIn, Spells, AttentionTo, KeepAliveWord, CloseWord, UpgradeWord;
    WordsAreWords();
    if IsSeen(value, word) {
      var ps := Parts(value);
      var i :| 0 <= i < |ps| && SeenIn(AttentionTo(ps, i), ps[i], word);
      SeenSpells(AttentionTo(ps, i), ps[i], word);
      assert ps[i] in ps;
    }
  }

  /** A list on which the parser keeps its way: no part is empty, misleads it, or breaks off in a token. */
  ghost predicate IsPlainList(v: string) {
    && v != "" && v[0] != ' ' && '\t' !in v
    && forall i | 0 <= i < |Parts(v)| - 1 ::
         var x := Stripped(Parts(v)[i]); x != "" && !Misleads(x[0]) && !Breaks(x)
  }

  /** There every listed token is seen. */
  lemma PlainListsAreSeen(f: Fields, value: string)
    requires f.headerState.Connection? && IsPlainList(value) && IsValue(value)
    ensures match FollowValue(f, value)
            case None => false
            case Some(g) =>
              FinishedFlags(g) == f.flags.(keepAlive := f.flags.keepAlive || HasToken(value, "keep-alive"),
                                           close := f.flags.close || HasToken(value, "close"),
                                           connUpgrade := f.flags.connUpgrade || HasToken(value, "upgrade"))
  {
    hide FollowValue, FinishedFlags, IsSeen, HasToken, IsPlainList;
    assert value != "" && OneLine(value) && IsValue(value[1..]) by {
      PlainListNotEmpty(value);
    }
    ConnectionIsExact(f, value);
    SeenIsListed(value, KeepAliveWord());
    SeenIsListed(value, CloseWord());
    SeenIsListed(value, UpgradeWord());
    ListedIsSeen(value, KeepAliveWord());
    ListedIsSeen(value, CloseWord());
    ListedIsSeen(value, UpgradeWord());
  }

  lemma PlainListNotEmpty(v: string)
    requires IsPlainList(v)
    ensures v != ""
  {
  }

  lemma {:induction false} PlainAttention(v: string, i: nat)
    requires IsPlainList(v) && i < |Parts(v)|
    ensures AttentionTo(Parts(v), i) == if i == 0 then First else Looking
  {
    hide Breaks, Misleads, Parts;
    if i > 0 {
      PlainAttention(v, i - 1);
      if i == 1 {
        FirstPart(v);
      }
    }
  }

  lemma {:induction false} FirstPart(v: string)
    requires v != "" && v[0] != ' '
    ensures Parts(v)[0] == "" || Parts(v)[0][0] != ' '
    ensures |Parts(v)| == 1 ==> Parts(v)[0] == v
  {
    var front, c := v[..|v| - 1], v[|v| - 1];
    assert v == front + [c];
    PartsMore(front, c);
    if |v| == 1 {
      OnePart("");
    } else {
      FirstPart(front);
    }
  }

  lemma NotStripped(x: string)
    requires x == "" || x[0] != ' '
    ensures Stripped(x) == x
  {
  }

  lemma ListedIsSeen(value: string, word: string)
    requires word in [KeepAliveWord(), CloseWord(), UpgradeWord()] && IsPlainList(value)
    ensures HasToken(value, word) ==> IsSeen(value, word)
  {
    hide SeenIn, Spells, AttentionTo, KeepAliveWord, CloseWord, UpgradeWord, Breaks, Misleads, Parts;
    WordsAreWords();
    if HasToken(value, word) {
      var ps := Parts(value);
      var p :| p in ps && Spells(p, word);
      var i :| 0 <= i < |ps| && ps[i] == p;
      PlainAttention(value, i);
      FirstPart(value);
      NoTabs(value, i);
      if i == 0 {
        NotStripped(ps[0]);
      }
      SpelledIsSeen(AttentionTo(ps, i), p, word);
    }
  }

  lemma {:induction false} NoTabs(v: string, i: nat)
    requires '\t' !in v && i < |Parts(v)|
    ensures '\t' !in Parts(v)[i]
  {
    if v != "" {
      var front, c := v[..|v| - 1], v[|v| - 1];
      assert v == front + [c];
      PartsMore(front, c);
      if i < |Parts(front)| {
        NoTabs(front, i);
      }
    }
  }

  /** Without commas the recognition of `close`, `keep-alive` and `upgrade` is exact. */
  lemma SingleTokensAreExact(f: Fields, value: string)
    requires f.headerState.Connection? && IsValue(value) && value != "" && ',' !in value
    ensures match FollowValue(f, value)
            case None => false
            case Some(g) =>
              && g.flags == f.flags
              && (g.headerState.KeepAlive? <==> RelationTo(value, "keep-alive").Is?)
              && (g.headerState.Close? <==> RelationTo(value, "close").Is?)
              && (g.headerState.ConnUpgrade? <==> RelationTo(value, "upgrade").Is?)
  {
    hide RelationTo, FollowValue, Earned, StateOfPart;
    assert OneLine(value) && IsValue(value[1..]);
    ConnectionIsFollowed(f, value);
    OnePart(value);
    NoneEarned(f.flags, [value]);
    PartStates(value);
  }

  // ----- Tokens that are missed -----

  /** What an empty, misleading or broken part does to those after it; `x` ends in that part. */
  ghost function AttentionAfter(x: string): Attention {
    NextAttention(AttentionTo(Parts(x), |Parts(x)| - 1), LastOf(Parts(x)))
  }

  lemma AttentionBehind(x: string, y: string)
    ensures var ps, qs := Parts(x), Parts(y);
            Parts(x + "," + y) == ps + qs && AttentionTo(ps + qs, |ps|) == AttentionAfter(x)
    ensures forall word: string :: SeenBefore(Parts(x + "," + y), |Parts(x)|, word) == IsSeen(x, word)
  {
    hide Parts, NextAttention, SeenBefore;
    PartsAppend(x, y);
    var ps, qs := Parts(x), Parts(y);
    AttentionPrefix(ps + qs, ps, |ps| - 1);
    NextIs(ps + qs, |ps| - 1);
    forall word: string ensures SeenBefore(ps + qs, |ps|, word) == IsSeen(x, word) {
      SeenPrefix(ps + qs, ps, |ps|, word);
    }
  }

  /**
   Behind a comma at which a match breaks off, or which begins the value, the next part is skipped
   whatever it is.
   */
  lemma BrokenMatchSwallows(x: string, y: string, word: string)
    requires AttentionAfter(x).Skipping? && ',' !in y
    ensures IsSeen(x + "," + y, word) == IsSeen(x, word) && AttentionAfter(x + "," + y).Looking?
  {
    hide Parts, NextAttention, SeenBefore;
    AttentionBehind(x, y);
    OnePart(y);
    var ps := Parts(x);
    assert LastOf(ps + [y]) == y;
    SeenMore(ps + [y], |ps|, word);
    SkippedOnce(y);
  }

  lemma SkippedOnce(part: string)
    ensures NextAttention(Skipping, part).Looking?
  {
  }

  /** Behind a part that is empty, or that a misleading byte begins, nothing is seen any more. */
  lemma {:induction false} LostForGood(x: string, y: string, word: string)
    requires AttentionAfter(x).Lost?
    ensures IsSeen(x + "," + y, word) == IsSeen(x, word)
  {
    hide Parts, NextAttention, SeenBefore;
    AttentionBehind(x, y);
    NothingMore(Parts(x) + Parts(y), |Parts(x)|, |Parts(x + "," + y)|, word);
  }

  lemma {:induction false} NothingMore(ps: seq<string>, n: nat, m: nat, word: string)
    requires n < |ps| && n <= m <= |ps| && AttentionTo(ps, n).Lost?
    ensures SeenBefore(ps, m, word) == SeenBefore(ps, n, word)
    ensures m < |ps| ==> AttentionTo(ps, m).Lost?
    decreases m
  {
    hide SeenBefore, AttentionTo;
    if n < m {
      NothingMore(ps, n, m - 1, word);
      SeenMore(ps, m - 1, word);
      if m < |ps| {
        NextIs(ps, m - 1);
      }
    }
  }

  lemma SpellsItself(word: string)
    requires IsWord(word) && Folded(word) == word
    ensures Spells(word, word)
  {
    assert word[0..|word|] == word && word[..0] == "" && word[|word|..] == "";
  }

  /** A value that ends in the token `close` lists it. */
  lemma ListsClose(x: string)
    ensures HasToken(x + ",close", "close") && HasToken(x + ",\tclose", "close")
  {
    hide Parts, Folded;
    FoldedIs("close", "close");
    SpellsItself("close");
    PartsAppend(x, "close");
    OnePart("close");
    assert x + "," + "close" == x + ",close";
    InLast(Parts(x), "close");
    PartsAppend(x, "\tclose");
    OnePart("\tclose");
    assert x + "," + "\tclose" == x + ",\tclose";
    InLast(Parts(x), "\tclose");
    var p := "\tclose";
    assert p[..1] == "\t" && p[1..6] == "close" && p[6..] == "";
  }

  lemma InLast(ps: seq<string>, p: string)
    ensures p in ps + [p]
  {
    assert LastOf(ps + [p]) == p;
  }

  const MISSED := ["clo,close", ",close", "x,,close", "x,\tclose"]

  /** So four ways lead past a listed token: each of these values lists `close`, and the flag stays as it was. */
  lemma ListedCloseIsMissed(f: Fields, value: string)
    requires f.headerState.Connection? && value in MISSED
    ensures HasToken(value, "close")
    ensures match FollowValue(f, value)
            case None => false
            case Some(g) => FinishedFlags(g) == f.flags
  {
    hide FollowValue, HasToken, IsSeen, FinishedFlags;
    ListsClose("clo");
    ListsClose("");
    ListsClose("x,");
    ListsClose("x");
    assert "clo" + ",close" == "clo,close" && "" + ",close" == ",close" && "x," + ",close" == "x,,close"
           && "x" + ",\tclose" == "x,\tclose";
    assert OneLine(value) && IsValue(value[1..]) && value != "";
    ConnectionIsExact(f, value);
    NothingSeen(value, KeepAliveWord());
    NothingSeen(value, CloseWord());
    NothingSeen(value, UpgradeWord());
  }

  lemma OneSeen(v: string, word: string)
    requires ',' !in v
    ensures IsSeen(v, word) <==> RelationTo(v, word).Is?
    ensures AttentionAfter(v) == NextAttention(First, v)
  {
    hide RelationTo, NextAttention;
    OnePart(v);
    SeenMore([v], 0, word);
  }

  lemma MissedParts()
    ensures RelationTo("clo", CloseWord()).Begins?
    ensures forall word | word in [KeepAliveWord(), CloseWord(), UpgradeWord()] ::
              RelationTo("", word).Differs? && RelationTo("x", word).Differs?
  {
    hide RelationTo, Folded, KeepAliveWord, CloseWord, UpgradeWord;
    assert RelationTo("clo", CloseWord()).Begins? by {
      FoldedIs("clo", "clo");
      CloBeginsClose();
    }
    WordsAreWords();
    forall word | word in [KeepAliveWord(), CloseWord(), UpgradeWord()]
      ensures RelationTo("", word).Differs? && RelationTo("x", word).Differs?
    {
      EmptyDiffers(word);
      RelationFirst('x', word);
      assert ['x'] == "x";
    }
  }

  lemma CloBeginsClose()
    requires Folded("clo") == "clo"
    ensures RelationTo("clo", CloseWord()).Begins?
  {
  }

  lemma NothingSeen(value: string, word: string)
    requires value in MISSED && word in [KeepAliveWord(), CloseWord(), UpgradeWord()]
    ensures !IsSeen(value, word)
  {
    hide IsSeen, AttentionAfter, KeepAliveWord, CloseWord, UpgradeWord, RelationTo;
    MissedParts();
    OneSeen("clo", word);
    OneSeen("", word);
    OneSeen("x", word);
    OneRelation("clo");
    assert "clo" + "," + "close" == "clo,close" && "" + "," + "close" == ",close";
    BrokenMatchSwallows("clo", "close", word);
    BrokenMatchSwallows("", "close", word);
    SeenBehindX("", word);
    SeenBehindX("\tclose", word);
    assert "x" + "," + "" == "x," && "x," + "," + "close" == "x,,close" && "x" + "," + "\tclose" == "x,\tclose";
    LostForGood("x,", "close", word);
  }

  /** Behind `x,` a part is looked at, and nothing is seen if it is empty or misleads. */
  lemma SeenBehindX(y: string, word: string)
    requires ',' !in y && (y == "" || (y[0] != ' ' && Misleads(y[0])))
             && word in [KeepAliveWord(), CloseWord(), UpgradeWord()]
    ensures !IsSeen("x" + "," + y, word) && AttentionAfter("x" + "," + y).Lost?
  {
    hide Parts, SeenBefore, KeepAliveWord, CloseWord, UpgradeWord, RelationTo, Misleads;
    MissedParts();
    OneSeen("x", word);
    AttentionBehind("x", y);
    OnePart(y);
    OnePart("x");
    NotStripped(y);
    assert ["x"] + [y] == ["x", y];
    SeenMore(["x", y], 1, word);
    assert LastOf(["x", y]) == y;
    if y != "" {
      MisledIsNoToken(y);
    }
  }
}
