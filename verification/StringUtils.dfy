/** The string helpers of the server. */
module StringUtils {

  /** The position of the first `c`, or the length when there is none. */
  function Find(s: string, c: char): (i: nat)
    ensures i <= |s| && c !in s[..i] && (i < |s| ==> s[i] == c)
  {
    if s == "" || s[0] == c then 0 else
      assert s == [s[0]] + s[1..];
      assert s[..1 + Find(s[1..], c)] == [s[0]] + s[1..][..Find(s[1..], c)];
      1 + Find(s[1..], c)
  }

  /**
   What repeated `getline` yields: every stretch up to a separator or to the end; nothing after a
   separator at the very end.
   */
  function Split(s: string, sep: char): seq<string>
    decreases |s|
  {
    if s == "" then [] else
      var i := Find(s, sep);
      if i == |s| then [s] else [s[..i]] + Split(s[i + 1..], sep)
  }

  function JoinWith(tokens: seq<string>, sep: string): string {
    if tokens == [] then ""
    else if |tokens| == 1 then tokens[0]
    else tokens[0] + sep + JoinWith(tokens[1..], sep)
  }

  lemma SplitUnfold(s: string, sep: char)
    requires s != ""
    ensures var i := Find(s, sep);
            Split(s, sep) == if i == |s| then [s] else [s[..i]] + Split(s[i + 1..], sep)
  {
  }

  /** One `getline`: the token that starts at `pos`, and what is left. */
  lemma SplitStep(s: string, sep: char, pos: nat)
    requires pos < |s|
    ensures var i := pos + Find(s[pos..], sep);
            Split(s[pos..], sep) == [s[pos..i]] + (if i == |s| then [] else Split(s[i + 1..], sep))
  {
    hide Split, Find;
    var n := Find(s[pos..], sep);
    SplitUnfold(s[pos..], sep);
    assert s[pos..][..n] == s[pos..pos + n];
    if n < |s| - pos {
      assert s[pos..][n + 1..] == s[pos + n + 1..];
    } else {
      assert s[pos..pos + n] == s[pos..];
    }
  }

  /** Reads `input` token by token as a stream does and appends the tokens. */
  method SplitString(input: string, sep: char, tokens: seq<string>) returns (tokens': seq<string>)
    ensures tokens' == tokens + Split(input, sep)
  {
    hide Split, Find;
    tokens' := tokens;
    var pos := 0;
    assert input[0..] == input;
    SplitEmpty(sep);
    while pos < |input|
      invariant pos <= |input|
      invariant tokens' + Split(input[pos..], sep) == tokens + Split(input, sep)
    {
      SplitStep(input, sep, pos);
      var i := pos + Find(input[pos..], sep);
      tokens' := tokens' + [input[pos..i]];
      pos := if i == |input| then i else i + 1;
      assert input[|input|..] == "";
    }
    assert input[pos..] == "";
  }

  lemma {:induction false} FindUnique(s: string, c: char, i: nat)
    requires i <= |s| && c !in s[..i] && (i < |s| ==> s[i] == c)
    ensures Find(s, c) == i
  {
    var j := Find(s, c);
    assert j < |s| ==> s[..j + 1][j] == c;
  }

  lemma SplitLast(s: string, sep: char)
    requires s != "" && sep !in s
    ensures Split(s, sep) == [s]
  {
    FindUnique(s, sep, |s|);
  }

  lemma SplitEmpty(sep: char)
    ensures Split("", sep) == []
  {
  }

  lemma SplitFirst(a: string, sep: char, rest: string)
    requires sep !in a
    ensures Split(a + [sep] + rest, sep) == [a] + Split(rest, sep)
  {
    var s := a + [sep] + rest;
    assert s[..|a|] == a && s[|a| + 1..] == rest;
    FindUnique(s, sep, |a|);
  }

  lemma SplitTwo(a: string, b: string, sep: char)
    requires sep !in a && sep !in b && b != ""
    ensures Split(a + [sep] + b, sep) == [a, b]
  {
    hide Split;
    SplitFirst(a, sep, b);
    SplitLast(b, sep);
  }

  lemma SplitThree(a: string, b: string, c: string, sep: char)
    requires sep !in a && sep !in b && sep !in c && c != ""
    ensures Split(a + [sep] + (b + [sep] + c), sep) == [a, b, c]
  {
    hide Split;
    SplitFirst(a, sep, b + [sep] + c);
    SplitTwo(b, c, sep);
  }

  /** Splitting undoes joining, unless the last token is empty: that one is lost. */
  lemma {:induction false} SplitJoin(tokens: seq<string>, sep: char)
    requires tokens != [] && forall t <- tokens :: sep !in t
    ensures Split(JoinWith(tokens, [sep]), sep) ==
      if tokens[|tokens| - 1] == "" then tokens[..|tokens| - 1] else tokens
  {
    hide Split, Find;
    if |tokens| == 1 {
      if tokens[0] != "" {
        SplitLast(tokens[0], sep);
      } else {
        SplitEmpty(sep);
      }
    } else {
      SplitFirst(tokens[0], sep, JoinWith(tokens[1..], [sep]));
      SplitJoin(tokens[1..], sep);
    }
  }

  // ----- Case -----

  /** The lower-case form of an ASCII letter, any other character itself. */
  function FoldedChar(c: char): char {
    if 'A' <= c <= 'Z' then (c as int - 'A' as int + 'a' as int) as char else c
  }

  /** The case-folded form of a word. */
  function Folded(word: string): (w: string)
    ensures |w| == |word|
  {
    if word == "" then "" else Folded(word[..|word| - 1]) + [FoldedChar(word[|word| - 1])]
  }

  lemma FoldedAt(x: string, i: nat)
    requires i < |x|
    ensures Folded(x)[i] == FoldedChar(x[i])
    decreases |x|
  {
    if i < |x| - 1 {
      FoldedAt(x[..|x| - 1], i);
    }
  }

  lemma FoldedIs(x: string, w: string)
    requires |x| == |w| && forall i | 0 <= i < |x| :: FoldedChar(x[i]) == w[i]
    ensures Folded(x) == w
  {
    forall i | 0 <= i < |x| ensures Folded(x)[i] == w[i] {
      FoldedAt(x, i);
    }
  }

  /** Lowers a string where it stands. */
  method ToLower(input: array<char>)
    modifies input
    ensures input[..] == Folded(old(input[..]))
  {
    for i := 0 to input.Length
      invariant forall k | 0 <= k < i :: input[k] == FoldedChar(old(input[k]))
      invariant forall k | i <= k < input.Length :: input[k] == old(input[k])
    {
      input[i] := FoldedChar(input[i]);
    }
    FoldedIs(old(input[..]), input[..]);
  }
}
