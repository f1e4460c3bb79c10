/** The values of Content-Length, Transfer-Encoding and ordinary headers, recognised on the fly. */
module HttpValues {
  import opened Options
  import opened HttpTypes
  import opened HttpVisit
  import opened HttpRun
  import opened HttpNames
  import opened StringUtils
  import opened HttpHeaders

  /** A text without the spaces at its end. */
  function Trimmed(x: string): (y: string)
    ensures |y| <= |x| && (y == "" || y[|y| - 1] != ' ')
  {
    if x == "" then "" else if x[|x| - 1] == ' ' then Trimmed(x[..|x| - 1]) else x
  }

  lemma TrimmedMore(x: string, c: char)
    ensures Trimmed(x + [c]) == if c == ' ' then Trimmed(x) else x + [c]
  {
    assert (x + [c])[..|x|] == x;
  }

  // ----- Other headers -----

  predicate IsOrdinaryState(h: HeaderState) {
    NameState(h) && !h.Connection? && !h.ContentLength? && !h.TransferEncoding?
  }

  /** The fields after the value of a header that is not special. */
  function AfterOrdinary(f: Fields, n: nat): Fields {
    f.(state := HeaderValue, headerState := General, index := 0, nread := f.nread + n,
       flags := f.flags.(upgrade := f.flags.upgrade || f.headerState.Upgrade?))
  }

  lemma OrdinaryStart(f: Fields, c: char)
    requires IsOrdinaryState(f.headerState)
    ensures VisitValueStart(Bump(f, 1), c) == Marked(AfterOrdinary(f, 1))
  {
  }

  lemma OrdinaryByte(f: Fields, n: nat, c: char)
    ensures var v := ValueByte(Bump(AfterOrdinary(f, n), 1), c);
            !IsLineEnd(c) ==> Passed(v) == if IsHeaderChar(c) then Some(AfterOrdinary(f, n + 1)) else None
  {
  }

  lemma {:induction false} OrdinaryValue(f: Fields, value: string)
    requires IsOrdinaryState(f.headerState) && value != "" && OneLine(value)
    ensures FollowValue(f, value) == if IsValue(value[1..]) then Some(AfterOrdinary(f, |value|)) else None
  {
    hide VisitValueStart, ValueByte, AfterOrdinary, IsHeaderChar;
    var front, c := value[..|value| - 1], value[|value| - 1];
    if |value| == 1 {
      OrdinaryStart(f, c);
    } else {
      OrdinaryValue(f, front);
      assert value[1..] == front[1..] + [c];
      OrdinaryByte(f, |front|, c);
    }
  }

  // ----- Content-Length -----

  predicate AllNum(x: string) {
    forall c <- x :: IsNum(c)
  }

  /** The value of a decimal numeral. */
  function Numeral(x: string): nat
    requires AllNum(x)
  {
    if x == "" then 0 else Numeral(x[..|x| - 1]) * 10 + Digit(x[|x| - 1])
  }

  lemma NumeralMore(x: string, c: char)
    requires AllNum(x) && IsNum(c)
    ensures AllNum(x + [c]) && Numeral(x + [c]) == Numeral(x) * 10 + Digit(c)
  {
    assert (x + [c])[..|x|] == x;
  }

  /** A nonempty numeral whose value without its last digit is within the conservative limit. */
  predicate IsLength(x: string) {
    x != "" && AllNum(x) && Numeral(x[..|x| - 1]) <= (ULLONG_MAX - 10) / 10
  }

  function AfterLength(f: Fields, n: nat, length: nat, ended: bool): Fields {
    f.(state := HeaderValue, headerState := if ended then ContentLengthWs else ContentLengthNum, index := 0,
      nread := f.nread + n,
       contentLength := length, flags := f.flags.(contentLength := true))
  }

  lemma LengthStart(f: Fields, c: char)
    requires f.headerState.ContentLength?
    ensures Passed(VisitValueStart(Bump(f, 1), c)) ==
            if IsNum(c) && !f.flags.contentLength then Some(AfterLength(f, 1, Digit(c), false)) else None
  {
  }

  lemma LengthNext(f: Fields, n: nat, length: nat, ended: bool, c: char)
    requires !IsLineEnd(c)
    ensures Passed(ValueByte(Bump(AfterLength(f, n, length, ended), 1), c)) ==
            if c == ' ' then Some(AfterLength(f, n + 1, length, true))
            else if IsNum(c) && !ended && length <= (ULLONG_MAX - 10) / 10
                 then Some(AfterLength(f, n + 1, length * 10 + Digit(c), false))
            else None
  {
    hide MulAdd64;
    if IsNum(c) && length <= (ULLONG_MAX - 10) / 10 {
      NoWrap(length, 10, Digit(c));
    }
  }

  lemma LengthFits(x: string)
    requires IsLength(x)
    ensures Numeral(x) < ULLONG_MAX && Trimmed(x) == x
  {
    NoSpaces(x);
    assert x == x[..|x| - 1] + [x[|x| - 1]];
    NumeralMore(x[..|x| - 1], x[|x| - 1]);
  }

  lemma LengthFirst(c: char)
    ensures IsLength([c]) <==> IsNum(c)
    ensures IsNum(c) ==> Numeral([c]) == Digit(c)
  {
    assert [c] == "" + [c] && [c][..0] == "";
    if IsNum(c) {
      NumeralMore("", c);
    }
  }

  /** One more byte, no space, after text that may be a length already. */
  lemma LengthMore(x: string, c: char)
    requires x != "" && c != ' '
    ensures IsLength(x + [c]) <==> IsLength(x) && IsNum(c) && Numeral(x) <= (ULLONG_MAX - 10) / 10
    ensures IsLength(x + [c]) ==> Numeral(x + [c]) == Numeral(x) * 10 + Digit(c)
  {
    var y := x + [c];
    assert y[..|x|] == x && c in y && forall d <- x :: d in y;
    assert x == x[..|x| - 1] + [x[|x| - 1]];
    if AllNum(x) {
      NumeralMore(x[..|x| - 1], x[|x| - 1]);
      if IsNum(c) {
        NumeralMore(x, c);
      }
    }
  }

  /**
   A Content-Length value is accepted exactly when it is a numeral within the limit, spaces after it,
   in a message that has had no Content-Length; then `content_length` is the numeral's value, without
   wrap-around and never the sentinel.
   */
  lemma {:induction false} LengthsAreExact(f: Fields, value: string)
    requires f.headerState.ContentLength? && value != "" && OneLine(value) && value[0] != ' '
    ensures var x := Trimmed(value);
            && x != ""
            && (IsLength(x) ==> Numeral(x) < ULLONG_MAX)
            && FollowValue(f, value) ==
               if IsLength(x) && !f.flags.contentLength then Some(AfterLength(f, |value|, Numeral(x), x != value))
                 else None
  {
    hide VisitValueStart, ValueByte, AfterLength, IsNum, AllNum, Numeral, Trimmed;
    var front, c := value[..|value| - 1], value[|value| - 1];
    assert value == front + [c];
    TrimmedMore(front, c);
    if |value| == 1 {
      assert value == [c];
      LengthStart(f, c);
      LengthFirst(c);
    } else {
      LengthsAreExact(f, front);
      SpaceIsNoDigit();
      var x := Trimmed(front);
      if IsLength(x) {
        LengthNext(f, |front|, Numeral(x), x != front, c);
      }
      if c != ' ' {
        LengthMore(front, c);
        if IsLength(front) {
          LengthFits(front);
        }
      }
    }
    if IsLength(Trimmed(value)) {
      LengthFits(Trimmed(value));
    }
  }

  lemma SpaceIsNoDigit()
    ensures !IsNum(' ')
  {
  }

  lemma NoSpaces(x: string)
    requires AllNum(x)
    ensures Trimmed(x) == x
  {
    assert x != "" ==> x[|x| - 1] in x;
  }

  // ----- Words within values -----

  /** `c | 0x20` agrees with case folding wherever a word of the parser has a byte. */
  lemma LowerIsFolded(c: char, x: char)
    requires 'a' <= x <= 'z' || (x == '-' && !IsLineEnd(c))
    ensures Lower(c) == x <==> FoldedChar(c) == x
  {
  }

  ghost predicate IsWord(word: string) {
    |word| > 1 && forall x <- word :: 'a' <= x <= 'z' || x == '-'
  }

  lemma WordsAreWords()
    ensures IsWord(ChunkedWord()) && IsWord(KeepAliveWord()) && IsWord(CloseWord()) && IsWord(UpgradeWord())
    ensures ChunkedWord()[0] == 'c' && KeepAliveWord()[0] == 'k' && CloseWord()[0] == 'c' && UpgradeWord()[0] == 'u'
  {
  }

  lemma FoldedMore(x: string, c: char)
    ensures Folded(x + [c]) == Folded(x) + [FoldedChar(c)]
  {
    assert (x + [c])[..|x|] == x;
  }

  /** How a text relates to a word: it is a proper beginning, the word and spaces, or neither. */
  datatype Relation = Begins | Is | Differs

  ghost function RelationTo(x: string, word: string): Relation {
    if x != "" && Matching(Folded(x), |x| - 1, word) then Begins
    else if Trimmed(Folded(x)) == word then Is
    else Differs
  }

  /** One more byte `c` of a text. */
  lemma RelationMore(x: string, c: char, word: string)
    requires IsWord(word) && x != ""
    ensures RelationTo(x + [c], word) ==
            match RelationTo(x, word)
            case Begins => if FoldedChar(c) != word[|x|] then Differs else if |x| + 1 == |word| then Is else Begins
            case Is => if c == ' ' then Is else Differs
            case Differs => Differs
  {
    hide FoldedChar;
    var w, d := Folded(x), FoldedChar(c);
    FoldedMore(x, c);
    TrimmedMore(w, d);
    HeadsMore(w, d, word);
    HeadsWhole(w + [d]);
    SpaceIsFolded(c);
    assert ' ' !in word;
    if Heads(w, word) {
      HeadsTrimmed(w, word);
    }
    TrimmedHeads(w);
  }

  lemma SpaceIsFolded(c: char)
    ensures FoldedChar(c) == ' ' <==> c == ' '
  {
  }

  lemma HeadsTrimmed(w: string, word: string)
    requires Heads(w, word) && ' ' !in word
    ensures Trimmed(w) == w
  {
    assert w != "" ==> word[|w| - 1] in word;
  }

  lemma TrimmedHeads(w: string)
    ensures Heads(Trimmed(w), w)
  {
  }

  lemma RelationFirst(c: char, word: string)
    requires IsWord(word)
    ensures RelationTo([c], word) == if FoldedChar(c) == word[0] then Begins else Differs
  {
    FoldedMore("", c);
    assert [c] == "" + [c];
    HeadsMore("", FoldedChar(c), word);
  }

  ghost function StateOf(r: Relation, begins: HeaderState, same: HeaderState, differs: HeaderState): HeaderState {
    match r case Begins => begins case Is => same case Differs => differs
  }

  lemma MatchRelation(h: HeaderState, x: string, c: char, word: string, miss: HeaderState, hit: HeaderState)
    requires IsWord(word) && RelationTo(x, word).Begins? && !IsLineEnd(c)
    ensures Match(h, |x| - 1, word, Lower(c), miss, hit) == (StateOf(RelationTo(x + [c], word), h, hit, miss), |x|)
  {
    hide Lower, FoldedChar, RelationTo;
    BeginsShort(x, word);
    RelationMore(x, c, word);
    assert word[|x|] in word;
    LowerIsFolded(c, word[|x|]);
  }

  lemma BeginsShort(x: string, word: string)
    requires RelationTo(x, word).Begins?
    ensures 0 < |x| < |word|
  {
  }

  // ----- Transfer-Encoding -----

  lemma ChunkedFirst(f: Fields, c: char)
    requires f.headerState.TransferEncoding? && !IsLineEnd(c)
    ensures Passed(VisitValueStart(Bump(f, 1), c)) ==
            Some(f.(state := HeaderValue, index := 0, nread := f.nread + 1,
              headerState := StateOf(RelationTo([c], ChunkedWord()), MatchingChunked, Chunked, General)))
  {
    hide RelationTo;
    WordsAreWords();
    RelationFirst(c, ChunkedWord());
    LowerIsFolded(c, 'c');
  }

  lemma TokenByteIs(g: Fields, c: char)
    requires g.state.HeaderValue? && !IsLineEnd(c)
    requires !g.headerState.ContentLength? && !g.headerState.ContentLengthNum? && !g.headerState.ContentLengthWs?
    ensures Passed(ValueByte(Bump(g, 1), c)) == if IsHeaderChar(c) then Some(TokenByte(Bump(g, 1), c, Lower(c)))
            else None
  {
  }

  /**
   The header state after a Transfer-Encoding value is the one that sets F_CHUNKED exactly when the
   value, case-folded, is `chunked` and spaces after it.
   */
  lemma {:induction false} ChunkedIsExact(f: Fields, value: string)
    requires f.headerState.TransferEncoding? && value != "" && OneLine(value)
    ensures FollowValue(f, value).Some? <==> IsValue(value[1..])
    ensures match FollowValue(f, value)
            case None => true
            case Some(g) =>
              && g == f.(state := HeaderValue, index := g.index, headerState := g.headerState,
                 nread := f.nread + |value|)
              && g.headerState == StateOf(RelationTo(value, "chunked"), MatchingChunked, Chunked, General)
              && (RelationTo(value, "chunked").Begins? ==> g.index == |value| - 1)
  {
    hide VisitValueStart, ValueByte, RelationTo, IsHeaderChar, Match, Lower;
    var front, c := value[..|value| - 1], value[|value| - 1];
    if |value| == 1 {
      assert value == [c];
      ChunkedFirst(f, c);
    } else {
      ChunkedIsExact(f, front);
      assert value[1..] == front[1..] + [c] && value == front + [c];
      if FollowValue(f, front).Some? {
        var g := FollowValue(f, front).value;
        TokenByteIs(g, c);
        WordsAreWords();
        RelationMore(front, c, ChunkedWord());
        if RelationTo(front, ChunkedWord()).Begins? {
          MatchRelation(g.headerState, front, c, ChunkedWord(), General, Chunked);
        }
        FlagsStay(g, c);
      }
    }
  }

  lemma FlagsStay(g: Fields, c: char)
    requires !g.headerState.KeepAlive? && !g.headerState.Close? && !g.headerState.ConnUpgrade?
    ensures SetConnectionFlag(g.flags, g.headerState) == g.flags
  {
  }
}
