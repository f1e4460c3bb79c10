/** The words that the HTTP parser recognises byte by byte: methods, header names, `chunked`. */
module HttpRecognisers {
  import opened Options
  import opened Traces
  import opened HttpTypes
  import opened HttpVisit
  import opened HttpRun

  // ----- Methods -----

  /** Method and index after one more byte of a method name; none if the byte is an error. */
  function NextMethod(m: Method, i: nat, c: char): Option<Method> {
    if c == '\0' then None
    else if c == At(MethodName(m), i) then Some(m)
    else if SwitchMethod(m, i, c).0 then Some(SwitchMethod(m, i, c).1)
    else None
  }

  /** The method followed after a whole word. */
  function FollowMethod(word: string): Option<Method> {
    if word == "" then None
    else if |word| == 1 then if FirstMethod(word[0]).0 then Some(FirstMethod(word[0]).1) else None
    else
      match FollowMethod(word[..|word| - 1])
      case None => None
      case Some(m) => NextMethod(m, |word| - 1, word[|word| - 1])
  }

  /** The method under whose name a name is first looked for, and up to which byte the two agree. */
  function Parent(m: Method): (Method, nat) {
    match m
    case PUT => (POST, 1) case PATCH => (POST, 1) case PROPFIND => (POST, 1) case PURGE => (PUT, 2)
    case CHECKOUT => (CONNECT, 1) case COPY => (CONNECT, 2)
    case MOVE => (MKCOL, 1) case MERGE => (MKCOL, 1) case MSEARCH => (MKCOL, 1)
    case MKACTIVITY => (MKCOL, 2) case MKCALENDAR => (MKCOL, 3)
    case SEARCH => (SUBSCRIBE, 1) case SOURCE => (SUBSCRIBE, 1) case REBIND => (REPORT, 2)
    case PROPPATCH => (PROPFIND, 4) case LINK => (LOCK, 1)
    case UNSUBSCRIBE => (UNLOCK, 2) case UNBIND => (UNLOCK, 2) case UNLINK => (UNLOCK, 3)
    case _ => (m, 0)
  }

  function Depth(m: Method): nat {
    if m.PURGE? || m.PROPPATCH? then 2 else if Parent(m).1 > 0 then 1 else 0
  }

  lemma ParentBytes(m: Method)
    requires Parent(m).1 > 0
    ensures var (p, k) := Parent(m);
            var (n, o) := (MethodName(m), MethodName(p));
            && k <= 4 && k < |n| && k < |o|
            && n[0] == o[0] && (k > 1 ==> n[1] == o[1]) && (k > 2 ==> n[2] == o[2]) && (k > 3 ==> n[3] == o[3])
  {
  }

  lemma ParentDepth(m: Method)
    requires Parent(m).1 > 0
    ensures Depth(Parent(m).0) < Depth(m)
  {
  }

  lemma ParentDiffers(m: Method)
    requires Parent(m).1 > 0
    ensures var (p, k) := Parent(m);
            k < |MethodName(m)| && k < |MethodName(p)| && MethodName(m)[k] != MethodName(p)[k]
  {
  }

  lemma ParentSwitches(m: Method)
    requires Parent(m).1 > 0 && Parent(m).1 < |MethodName(m)|
    ensures SwitchMethod(Parent(m).0, Parent(m).1, MethodName(m)[Parent(m).1]) == (true, m)
  {
  }

  lemma ParentFacts(m: Method)
    requires Parent(m).1 > 0
    ensures var (p, k) := Parent(m);
            && Depth(p) < Depth(m)
            && k < |MethodName(m)| && k < |MethodName(p)|
            && MethodName(m)[k] != MethodName(p)[k] && SwitchMethod(p, k, MethodName(m)[k]) == (true, m)
  {
    hide MethodName, SwitchMethod, Depth, Parent;
    ParentDepth(m);
    ParentDiffers(m);
    ParentSwitches(m);
  }

  lemma ParentPrefix(m: Method)
    requires Parent(m).1 > 0
    ensures var (p, k) := Parent(m);
            k < |MethodName(m)| && k < |MethodName(p)| && MethodName(m)[..k] == MethodName(p)[..k]
  {
    hide MethodName;
    ParentBytes(m);
    var (p, k) := Parent(m);
    var n, o := MethodName(m), MethodName(p);
    assert forall j | 0 <= j < k :: n[..k][j] == o[..k][j];
  }

  lemma SwitchesToChild(m: Method, i: nat, c: char)
    requires SwitchMethod(m, i, c).0
    ensures Parent(SwitchMethod(m, i, c).1) == (m, i) && i > 0
  {
  }

  lemma SwitchByte(m: Method, i: nat, c: char)
    requires SwitchMethod(m, i, c).0
    ensures var m' := SwitchMethod(m, i, c).1; i < |MethodName(m')| && c == MethodName(m')[i]
  {
  }

  lemma SwitchFacts(m: Method, i: nat, c: char)
    requires SwitchMethod(m, i, c).0
    ensures var m' := SwitchMethod(m, i, c).1;
            Parent(m') == (m, i) && i < |MethodName(m')| && c == MethodName(m')[i] && i > 0
  {
    hide MethodName, SwitchMethod, Parent;
    SwitchesToChild(m, i, c);
    SwitchByte(m, i, c);
  }

  lemma NextIsPrefix(m: Method, i: nat, c: char)
    requires i <= |MethodName(m)|
    ensures match NextMethod(m, i, c)
            case None => true
            case Some(m') => i < |MethodName(m')| && MethodName(m')[..i] == MethodName(m)[..i] && MethodName(m')[i] == c
  {
    hide MethodName, SwitchMethod, Parent;
    if c != '\0' && c != At(MethodName(m), i) && SwitchMethod(m, i, c).0 {
      SwitchFacts(m, i, c);
      ParentPrefix(SwitchMethod(m, i, c).1);
    }
  }

  /** A word that is followed to a method begins the name of that method. */
  lemma {:induction false} FollowsIsPrefix(word: string)
    ensures match FollowMethod(word)
            case None => true
            case Some(m) => 0 < |word| <= |MethodName(m)| && word == MethodName(m)[..|word|]
  {
    hide MethodName, NextMethod, FirstMethod;
    if |word| == 1 {
      FirstFacts(word[0]);
    } else if word != "" {
      var front, c := word[..|word| - 1], word[|word| - 1];
      FollowsIsPrefix(front);
      if FollowMethod(front).Some? {
        NextIsPrefix(FollowMethod(front).value, |front|, c);
        assert word == front + [c];
      }
    }
  }

  lemma FirstFacts(c: char)
    ensures FirstMethod(c).0 ==> MethodName(FirstMethod(c).1)[0] == c
  {
  }

  lemma RootFirst(m: Method)
    requires Parent(m).1 == 0
    ensures FirstMethod(MethodName(m)[0]) == (true, m)
  {
  }

  lemma ParentOfParent(m: Method)
    requires Parent(m).1 > 0
    ensures Parent(Parent(m).0).1 < Parent(m).1
  {
  }

  /** Every name is followed to its own method. */
  lemma {:induction false} NameIsFollowed(m: Method, j: nat)
    requires Parent(m).1 < j <= |MethodName(m)|
    ensures FollowMethod(MethodName(m)[..j]) == Some(m)
    decreases Depth(m), j
  {
    hide MethodName, SwitchMethod, FirstMethod, Parent, Depth;
    var name := MethodName(m);
    var (p, k) := Parent(m);
    var front := name[..j][..j - 1];
    assert front == name[..j - 1];
    NamesHaveNoZero(m);
    if j - 1 > k {
      NameIsFollowed(m, j - 1);
    } else if k == 0 {
      RootFirst(m);
    } else {
      ParentFacts(m);
      ParentPrefix(m);
      ParentOfParent(m);
      NameIsFollowed(p, k);
    }
  }

  lemma NamesHaveNoZero(m: Method)
    ensures '\0' !in MethodName(m)
  {
  }

  lemma NamesHaveNoSpace(m: Method)
    ensures ' ' !in MethodName(m)
  {
  }

  /** The fields after the bytes of a method name followed to `m`. */
  function InMethod(f: Fields, word: string, m: Method): Fields {
    f.(flags := NO_FLAGS, contentLength := ULLONG_MAX, verb := m, index := |word|, state := ReqMethod,
      nread := f.nread + |word|)
  }

  lemma {:induction false} MethodRun(cfg: Settings, f: Fields, t: Trace, word: string)
    requires Valid(f) && f.errno.OK? && f.state.StartReq? && f.nread + |word| <= MAX_HEADER_SIZE
    requires word != "" && !IsLineEnd(word[0]) && ' ' !in word
    ensures match FollowMethod(word)
            case None => Run(cfg, Stream(f, t), word).Failed?
            case Some(m) => Run(cfg, Stream(f, t), word)
                            == Ready(Stream(InMethod(f, word, m), Emit(t, Note(OnMessageBegin))))
  {
    hide Emit, Run, Step, MethodName, SwitchMethod, FirstMethod;
    var s := Stream(f, t);
    if |word| == 1 {
      assert word == [word[0]];
      RunOne(cfg, s, word[0]);
      PlainStep(cfg, f, t, word[0]);
      FirstIsAlpha(word[0]);
    } else {
      var front, c := word[..|word| - 1], word[|word| - 1];
      MethodRun(cfg, f, t, front);
      RunLast(cfg, s, word);
      FollowsIsPrefix(front);
      if FollowMethod(front).Some? {
        MethodByte(cfg, InMethod(f, front, FollowMethod(front).value), Emit(t, Note(OnMessageBegin)), c);
      }
    }
  }

  lemma MethodByte(cfg: Settings, f: Fields, t: Trace, c: char)
    requires Valid(f) && f.errno.OK? && f.state.ReqMethod? && f.nread < MAX_HEADER_SIZE
    ensures c != ' ' ==>
      match NextMethod(f.verb, f.index, c)
      case None => Step(cfg, Stream(f, t), c).Failed?
      case Some(m) => Step(cfg, Stream(f, t), c)
                      == Ready(Stream(f.(verb := m, index := f.index + 1, nread := f.nread + 1), t))
    ensures c == ' ' ==> if f.index < |MethodName(f.verb)| then Step(cfg, Stream(f, t), c).Failed? else
      Step(cfg, Stream(f, t), c)
      == Ready(Stream(f.(state := ReqSpacesBeforeUrl, index := f.index + 1, nread := f.nread + 1), t))
  {
    hide Emit, Step, MethodName, SwitchMethod, Sound;
    PlainStep(cfg, f, t, c);
    SwitchIsUpper(f.verb, f.index, c);
    NamesHaveNoZero(f.verb);
    NamesHaveNoSpace(f.verb);
  }

  lemma FirstIsAlpha(c: char)
    ensures FirstMethod(c).0 ==> IsAlpha(c)
  {
  }

  lemma SwitchIsUpper(m: Method, i: nat, c: char)
    ensures SwitchMethod(m, i, c).0 ==> 'A' <= c <= 'Z' || c == '-'
  {
  }

  /** The 34 words of `HTTP_METHOD_MAP`, each with its method. */
  predicate IsWordOf(word: string, m: Method) {
    || (word == "DELETE" && m.DELETE?) || (word == "GET" && m.GET?) || (word == "HEAD" && m.HEAD?)
    || (word == "POST" && m.POST?) || (word == "PUT" && m.PUT?) || (word == "CONNECT" && m.CONNECT?)
    || (word == "OPTIONS" && m.OPTIONS?) || (word == "TRACE" && m.TRACE?) || (word == "COPY" && m.COPY?)
    || (word == "LOCK" && m.LOCK?) || (word == "MKCOL" && m.MKCOL?) || (word == "MOVE" && m.MOVE?)
    || (word == "PROPFIND" && m.PROPFIND?) || (word == "PROPPATCH" && m.PROPPATCH?) || (word == "SEARCH" && m.SEARCH?)
    || (word == "UNLOCK" && m.UNLOCK?) || (word == "BIND" && m.BIND?) || (word == "REBIND" && m.REBIND?)
    || (word == "UNBIND" && m.UNBIND?) || (word == "ACL" && m.ACL?) || (word == "REPORT" && m.REPORT?)
    || (word == "MKACTIVITY" && m.MKACTIVITY?) || (word == "CHECKOUT" && m.CHECKOUT?) || (word == "MERGE" && m.MERGE?)
    || (word == "M-SEARCH" && m.MSEARCH?) || (word == "NOTIFY" && m.NOTIFY?) || (word == "SUBSCRIBE" && m.SUBSCRIBE?)
    || (word == "UNSUBSCRIBE" && m.UNSUBSCRIBE?) || (word == "PATCH" && m.PATCH?) || (word == "PURGE" && m.PURGE?)
    || (word == "MKCALENDAR" && m.MKCALENDAR?) || (word == "LINK" && m.LINK?) || (word == "UNLINK" && m.UNLINK?)
    || (word == "SOURCE" && m.SOURCE?)
  }

  lemma WordIsName(word: string, m: Method)
    ensures IsWordOf(word, m) <==> word == MethodName(m)
  {
  }

  /**
   A word and a space get through the method state exactly when the word is one of the 34 names,
   and then `method` is its code.
   */
  lemma MethodsAreRecognisedExactly(cfg: Settings, f: Fields, t: Trace, word: string)
    requires Valid(f) && f.errno.OK? && f.state.StartReq? && f.nread + |word| + 1 <= MAX_HEADER_SIZE
    requires word != "" && !IsLineEnd(word[0]) && ' ' !in word
    ensures var r := Run(cfg, Stream(f, t), word + " ");
            && (r.Ready? || r.Failed?)
            && (r.Ready? <==> exists m: Method :: IsWordOf(word, m))
            && (r.Ready? ==> r.s.f.state.ReqSpacesBeforeUrl? && IsWordOf(word, r.s.f.verb)
                             && r.s.trace == Emit(t, Note(OnMessageBegin)))
  {
    hide Emit, Run, Step, MethodName, SwitchMethod, FirstMethod, IsWordOf;
    forall m: Method ensures IsWordOf(word, m) <==> word == MethodName(m) {
      WordIsName(word, m);
    }
    MethodRun(cfg, f, t, word);
    RunLast(cfg, Stream(f, t), word + " ");
    assert (word + " ")[..|word|] == word;
    FollowsIsPrefix(word);
    if FollowMethod(word).Some? {
      var g := InMethod(f, word, FollowMethod(word).value);
      MethodByte(cfg, g, Emit(t, Note(OnMessageBegin)), ' ');
      if |word| == |MethodName(g.verb)| {
        assert MethodName(g.verb)[..|word|] == MethodName(g.verb);
      }
    }
    forall m: Method | word == MethodName(m) ensures FollowMethod(word) == Some(m) {
      ParentShort(m);
      NameIsFollowed(m, |word|);
      assert MethodName(m)[..|word|] == word;
    }
  }

  lemma ParentShort(m: Method)
    ensures Parent(m).1 < |MethodName(m)|
  {
  }
}
