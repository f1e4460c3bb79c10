/**
 Maximum bipartite matching as googlemock computes it: one depth-first search for
 an augmenting path from each left node, over two mutually referring vectors.
 */
module Matching {

  /** The sentinel the vectors hold for a node without a partner. */
  const UNUSED: int := -1

  /** A bipartite graph between `lhs` elements and `rhs` matchers. */
  datatype MatchMatrix = MatchMatrix(lhs: nat, rhs: nat, edges: set<(nat, nat)>) {
    predicate HasEdge(l: nat, r: nat) {
      (l, r) in edges
    }
  }

  /** A matching uses edges of the graph only and no node twice. */
  ghost predicate IsMatching(g: MatchMatrix, m: set<(nat, nat)>) {
    && (forall e <- m :: e.0 < g.lhs && e.1 < g.rhs && e in g.edges)
    && NodesDistinct(m)
  }

  ghost predicate IsMaximum(g: MatchMatrix, m: set<(nat, nat)>) {
    IsMatching(g, m) && forall other: set<(nat, nat)> | IsMatching(g, other) :: |other| <= |m|
  }

  // ----- The two vectors -----

  /** Every used entry of `left` names an edge whose right end names it back. */
  ghost predicate LeftSound(g: MatchMatrix, left: seq<int>, right: seq<int>) {
    && |left| == g.lhs && |right| == g.rhs
    && forall l: nat | l < g.lhs && left[l] != UNUSED ::
         0 <= left[l] < g.rhs && g.HasEdge(l, left[l]) && right[left[l]] == l
  }

  /** Every used entry of `right`, other than entry `stale`, names a left node that names it back. */
  ghost predicate RightSoundBut(g: MatchMatrix, left: seq<int>, right: seq<int>, stale: int) {
    && |left| == g.lhs && |right| == g.rhs
    && forall r: nat | r < g.rhs && r != stale && right[r] != UNUSED ::
         0 <= right[r] < g.lhs && left[right[r]] == r
  }

  /** The invariant the source states for the vectors: unused or mutually referent. */
  ghost predicate Mutual(g: MatchMatrix, left: seq<int>, right: seq<int>) {
    LeftSound(g, left, right) && RightSoundBut(g, left, right, UNUSED)
  }

  /** The matching that a `left` vector stands for. */
  ghost function Pairs(left: seq<int>): set<(nat, nat)> {
    set l: nat | l < |left| && left[l] >= 0 :: (l, left[l] as nat)
  }

  // ----- Dead regions: the certificate of optimality -----

  /** All edges out of `S` end in `T`, and every node of `T` is matched into `S`. */
  ghost predicate Dead(g: MatchMatrix, right: seq<int>, S: set<nat>, T: set<nat>) {
    && |right| == g.rhs
    && (forall l <- S :: l < g.lhs)
    && (forall r <- T :: r < g.rhs && right[r] >= 0 && right[r] as nat in S)
    && (forall l: nat, r: nat | l in S && r < g.rhs && g.HasEdge(l, r) :: r in T)
  }

  /** All right neighbours of `l` are marked. */
  ghost predicate Exhausted(g: MatchMatrix, seen: seq<bool>, l: int) {
    |seen| == g.rhs && 0 <= l && forall r: nat | r < g.rhs && g.HasEdge(l, r) :: seen[r]
  }

  ghost function Marked(seen: seq<bool>): set<nat> {
    set r: nat | r < |seen| && seen[r]
  }

  ghost function Unmarked(seen: seq<bool>): set<nat> {
    set r: nat | r < |seen| && !seen[r]
  }

  /** What a failed search establishes for the right nodes that it marked. */
  ghost predicate SearchedInVain(g: MatchMatrix, right: seq<int>, before: seq<bool>, after: seq<bool>) {
    && |right| == |before| == |after| == g.rhs
    && (forall r: nat | r < g.rhs && before[r] :: after[r])
    && (forall r: nat | r < g.rhs && after[r] && !before[r] :: Exhausted(g, after, right[r]))
  }

  /** A failed search from `l` with nothing marked before enlarges the dead region by `l`. */
  lemma FailedSearchExtendsDead(g: MatchMatrix, left: seq<int>, right: seq<int>,
                                before: seq<bool>, after: seq<bool>, l: nat, S: set<nat>, T: set<nat>)
    returns (S': set<nat>, T': set<nat>)
    requires Mutual(g, left, right) && l < g.lhs && Dead(g, right, S, T)
    requires SearchedInVain(g, right, before, after) && Marked(before) == {}
    requires Exhausted(g, after, l)
    ensures Dead(g, right, S', T') && S <= S' && T <= T' && l in S'
  {
    var partners := set r | r in Marked(after) && right[r] >= 0 :: right[r] as nat;
    S', T' := S + {l} + partners, T + Marked(after);
    forall r | r in T' ensures r < g.rhs && right[r] >= 0 && right[r] as nat in S' {
      if r !in T {
        assert !before[r] by { assert r !in Marked(before); }
        assert Exhausted(g, after, right[r]);
      }
    }
    forall k: nat, r: nat | k in S' && r < g.rhs && g.HasEdge(k, r) ensures r in T' {
      if k in partners {
        var q :| q in Marked(after) && right[q] >= 0 && right[q] as nat == k;
        assert !before[q] by { assert q !in Marked(before); }
        assert Exhausted(g, after, right[q]);
      }
    }
  }

  // ----- Counting -----

  ghost function Lefts(n: nat): (ls: set<nat>)
    ensures forall l :: l in ls <==> 0 <= l < n
  {
    if n == 0 then {} else Lefts(n - 1) + {n - 1}
  }

  /** The pairs of `m` whose left node lies in `S`. */
  ghost function From(m: set<(nat, nat)>, S: set<nat>): set<(nat, nat)> {
    set e | e in m && e.0 in S
  }

  ghost predicate NodesDistinct(m: set<(nat, nat)>) {
    forall d, e | d in m && e in m && d != e :: d.0 != e.0 && d.1 != e.1
  }

  ghost function End(e: (nat, nat), leftEnd: bool): nat {
    if leftEnd then e.0 else e.1
  }

  lemma {:induction false} AtMost(m: set<(nat, nat)>, leftEnd: bool, ends: set<nat>)
    requires NodesDistinct(m)
    requires forall e <- m :: End(e, leftEnd) in ends
    ensures |m| <= |ends|
    decreases |m|
  {
    if m != {} {
      var e :| e in m;
      AtMost(m - {e}, leftEnd, ends - {End(e, leftEnd)});
    }
  }

  lemma {:induction false} AtLeast(m: set<(nat, nat)>, leftEnd: bool, ends: set<nat>)
    requires forall n <- ends :: exists e <- m :: End(e, leftEnd) == n
    ensures |ends| <= |m|
    decreases |ends|
  {
    if ends != {} {
      var n :| n in ends;
      var e :| e in m && End(e, leftEnd) == n;
      forall k <- ends - {n} ensures exists d <- m - {e} :: End(d, leftEnd) == k {
        var d :| d in m && End(d, leftEnd) == k;
        assert d in m - {e};
      }
      AtLeast(m - {e}, leftEnd, ends - {n});
    }
  }

  lemma SplitBySource(m: set<(nat, nat)>, S: set<nat>, rest: set<nat>)
    requires S !! rest && forall e <- m :: e.0 in S || e.0 in rest
    ensures |m| == |From(m, S)| + |From(m, rest)|
  {
    assert m == From(m, S) + From(m, rest);
  }

  lemma PairsAreMatching(g: MatchMatrix, left: seq<int>, right: seq<int>)
    requires Mutual(g, left, right)
    ensures IsMatching(g, Pairs(left))
  {
    forall d, e | d in Pairs(left) && e in Pairs(left) && d != e ensures d.0 != e.0 && d.1 != e.1 {
      assert right[left[d.0]] == d.0 && right[left[e.0]] == e.0;
    }
  }

  /** No matching has more than |T| pairs from `S` and one pair from each node outside `S`. */
  lemma DeadRegionBoundsEveryMatching(g: MatchMatrix, right: seq<int>, S: set<nat>, T: set<nat>, m: set<(nat, nat)>)
    requires Dead(g, right, S, T) && IsMatching(g, m)
    ensures |m| <= |T| + |Lefts(g.lhs) - S|
  {
    var rest := Lefts(g.lhs) - S;
    SplitBySource(m, S, rest);
    AtMost(From(m, S), false, T);
    AtMost(From(m, rest), true, rest);
  }

  /** The current matching reaches that bound when the unmatched left nodes all lie in `S`. */
  lemma DeadRegionIsSaturated(g: MatchMatrix, left: seq<int>, right: seq<int>, S: set<nat>, T: set<nat>)
    requires Mutual(g, left, right) && Dead(g, right, S, T)
    requires forall l: nat | l < g.lhs && left[l] == UNUSED :: l in S
    ensures |Pairs(left)| >= |T| + |Lefts(g.lhs) - S|
  {
    var m, rest := Pairs(left), Lefts(g.lhs) - S;
    SplitBySource(m, S, rest);
    forall r <- T ensures exists e <- From(m, S) :: End(e, false) == r {
      assert left[right[r]] == r;
      assert (right[r] as nat, r) in From(m, S) && End((right[r] as nat, r), false) == r;
    }
    AtLeast(From(m, S), false, T);
    forall l <- rest ensures exists e <- From(m, rest) :: End(e, true) == l {
      assert (l, left[l] as nat) in From(m, rest) && End((l, left[l] as nat), true) == l;
    }
    AtLeast(From(m, rest), true, rest);
  }

  /** The certificate: when every unmatched left node lies in a dead region, no matching is larger. */
  lemma DeadRegionCertifiesMaximum(g: MatchMatrix, left: seq<int>, right: seq<int>, S: set<nat>, T: set<nat>)
    requires Mutual(g, left, right) && Dead(g, right, S, T)
    requires forall l: nat | l < g.lhs && left[l] == UNUSED :: l in S
    ensures IsMaximum(g, Pairs(left))
  {
    PairsAreMatching(g, left, right);
    DeadRegionIsSaturated(g, left, right, S, T);
    forall other: set<(nat, nat)> | IsMatching(g, other) ensures |other| <= |Pairs(left)| {
      DeadRegionBoundsEveryMatching(g, right, S, T, other);
    }
  }

  // ----- What one successful search does -----

  /**
   The step from (`left`, `right`) to (`left'`, `right'`) made by a successful search from `ilhs`
   that started with the marks `seen`: `ilhs` gets a partner not marked before, no other left node
   becomes matched or unmatched, and nodes whose partner was marked before keep their entries. The
   old partner of `ilhs` is left stale for the caller, which takes it over.
   */
  ghost predicate Augmented(g: MatchMatrix, left: seq<int>, right: seq<int>, seen: seq<bool>,
                            left': seq<int>, right': seq<int>, ilhs: nat)
    requires Mutual(g, left, right) && ilhs < g.lhs && |seen| == g.rhs
  {
    && LeftSound(g, left', right')
    && RightSoundBut(g, left', right', left[ilhs])
    && left'[ilhs] != UNUSED
    && !seen[left'[ilhs]]
    && (forall l: nat | l < g.lhs && l != ilhs :: (left'[l] == UNUSED) == (left[l] == UNUSED))
    && (forall l: nat | l < g.lhs && l != ilhs && left[l] != UNUSED && seen[left[l]] :: left'[l] == left[l])
    && (forall r: nat | r < g.rhs && seen[r] :: right'[r] == right[r])
  }

  ghost predicate DeadUntouched(left: seq<int>, right: seq<int>, left': seq<int>, right': seq<int>,
                                S: set<nat>, T: set<nat>)
  {
    && (forall l <- S :: l < |left| && l < |left'| && left'[l] == left[l])
    && (forall r <- T :: r < |right| && r < |right'| && right'[r] == right[r])
  }

  /** Linking to an unused right node. */
  lemma LinkToFree(g: MatchMatrix, left: seq<int>, right: seq<int>, seen: seq<bool>, ilhs: nat, r: nat)
    requires Mutual(g, left, right) && ilhs < g.lhs && |seen| == g.rhs && r < g.rhs
    requires g.HasEdge(ilhs, r) && !seen[r] && right[r] == UNUSED
    ensures Augmented(g, left, right, seen, left[ilhs := r], right[r := ilhs], ilhs)
  {
  }

  /** Linking to a right node whose partner has just found another one. */
  lemma LinkToReleased(g: MatchMatrix, left: seq<int>, right: seq<int>, seen: seq<bool>, mid: seq<bool>,
                       left1: seq<int>, right1: seq<int>, ilhs: nat, r: nat)
    requires Mutual(g, left, right) && ilhs < g.lhs && |seen| == |mid| == g.rhs && r < g.rhs
    requires g.HasEdge(ilhs, r) && !seen[r] && mid[r] && right[r] != UNUSED
    requires forall q: nat | q < g.rhs && seen[q] :: mid[q]
    requires left[ilhs] != UNUSED ==> seen[left[ilhs]]
    requires Augmented(g, left, right, mid, left1, right1, right[r])
    ensures Augmented(g, left, right, seen, left1[ilhs := r], right1[r := ilhs], ilhs)
  {
  }

  // ----- The algorithm -----

  class MaxBipartiteMatchState {
    const graph: MatchMatrix
    const left: array<int>
    const right: array<int>

    constructor (g: MatchMatrix)
      ensures graph == g && fresh(left) && fresh(right) && Valid()
      ensures forall l | 0 <= l < g.lhs :: left[l] == UNUSED
    {
      graph := g;
      left := new int[g.lhs](_ => UNUSED);
      right := new int[g.rhs](_ => UNUSED);
    }

    ghost predicate Shape()
      reads left, right
    {
      left != right && left.Length == graph.lhs && right.Length == graph.rhs
    }

    ghost predicate Valid()
      reads left, right
    {
      Shape() && Mutual(graph, left[..], right[..])
    }

    /**
     Depth-first search from left node `ilhs` to a right node without partner. `S` and `T`
     are any dead region: a search never succeeds from inside it and never changes it.
     */
    method TryAugment(ilhs: nat, seen: array<bool>, ghost S: set<nat>, ghost T: set<nat>) returns (found: bool)
      requires Valid() && ilhs < graph.lhs && seen.Length == graph.rhs
      requires left[ilhs] != UNUSED ==> seen[left[ilhs]]
      requires Dead(graph, right[..], S, T)
      modifies left, right, seen
      decreases Unmarked(seen[..])
      ensures Shape()
      ensures forall r: nat | r < graph.rhs && old(seen[r]) :: seen[r]
      // a failed search changes neither vector and leaves nothing reachable unmarked
      ensures !found ==> left[..] == old(left[..]) && right[..] == old(right[..])
      ensures !found ==> SearchedInVain(graph, right[..], old(seen[..]), seen[..])
      ensures !found ==> Exhausted(graph, seen[..], ilhs)
      ensures found ==> Augmented(graph, old(left[..]), old(right[..]), old(seen[..]), left[..], right[..], ilhs)
      ensures ilhs in S ==> !found
      ensures DeadUntouched(old(left[..]), old(right[..]), left[..], right[..], S, T)
    {
      ghost var before := seen[..];
      for irhs := 0 to graph.rhs
        invariant left[..] == old(left[..]) && right[..] == old(right[..])
        invariant SearchedInVain(graph, right[..], before, seen[..])
        invariant forall r: nat | r < irhs && graph.HasEdge(ilhs, r) :: seen[r]
      {
        if seen[irhs] || !graph.HasEdge(ilhs, irhs) {
          continue;
        }
        seen[irhs] := true;
        ghost var mid := seen[..];
        assert irhs in Unmarked(before) && irhs !in Unmarked(mid);
        var reached := right[irhs] == UNUSED;
        if reached {
          LinkToFree(graph, left[..], right[..], before, ilhs, irhs);
        } else {
          reached := TryAugment(right[irhs], seen, S, T);
          if reached {
            LinkToReleased(graph, old(left[..]), old(right[..]), before, mid, left[..], right[..], ilhs, irhs);
          }
        }
        if reached {
          left[ilhs] := irhs;
          right[irhs] := ilhs;
          return true;
        }
      }
      return false;
    }

    /** One search from every left node, each tried only once; then the pairs in left order. */
    method Compute() returns (result: seq<(nat, nat)>)
      requires Valid() && forall l | 0 <= l < graph.lhs :: left[l] == UNUSED
      modifies left, right
      ensures Valid()
      ensures Listed(result) == Pairs(left[..]) && |result| == |Pairs(left[..])|
      ensures IsMaximum(graph, Listed(result))
    {
      ghost var S, T := {}, {};
      for ilhs := 0 to graph.lhs
        invariant Valid() && Dead(graph, right[..], S, T)
        invariant forall l | ilhs <= l < graph.lhs :: left[l] == UNUSED
        invariant forall l: nat | l < ilhs && left[l] == UNUSED :: l in S
      {
        assert left[ilhs] == UNUSED;
        var seen := new bool[graph.rhs](_ => false);
        ghost var before := seen[..];
        var found := TryAugment(ilhs, seen, S, T);
        if !found {
          S, T := FailedSearchExtendsDead(graph, left[..], right[..], before, seen[..], ilhs, S, T);
        }
      }
      DeadRegionCertifiesMaximum(graph, left[..], right[..], S, T);
      result := ListPairs();
    }

    /** The used entries of `left`, in order. */
    method ListPairs() returns (result: seq<(nat, nat)>)
      requires Valid()
      ensures Listed(result) == Pairs(left[..]) && |result| == |Pairs(left[..])|
    {
      result := [];
      for ilhs := 0 to left.Length
        invariant Listed(result) == Pairs(left[..ilhs]) && |result| == |Pairs(left[..ilhs])|
      {
        var irhs := left[ilhs];
        if irhs == UNUSED {
          assert Pairs(left[..ilhs + 1]) == Pairs(left[..ilhs]);
          continue;
        }
        assert Pairs(left[..ilhs + 1]) == Pairs(left[..ilhs]) + {(ilhs, irhs as nat)};
        result := result + [(ilhs, irhs as nat)];
      }
      assert left[..left.Length] == left[..];
    }
  }

  ghost function Listed(pairs: seq<(nat, nat)>): set<(nat, nat)> {
    set p | p in pairs
  }

  method FindMaxBipartiteMatching(g: MatchMatrix) returns (pairs: seq<(nat, nat)>)
    ensures IsMaximum(g, Listed(pairs)) && |pairs| == |Listed(pairs)|
  {
    var state := new MaxBipartiteMatchState(g);
    pairs := state.Compute();
  }

  /** Some matching gives every matcher an element of its own. */
  ghost predicate Saturable(g: MatchMatrix) {
    exists m: set<(nat, nat)> :: IsMatching(g, m) && |m| == g.rhs
  }

  lemma MatchingIsAtMostRhs(g: MatchMatrix, m: set<(nat, nat)>)
    requires IsMatching(g, m)
    ensures |m| <= g.rhs
  {
    LeftsSize(g.rhs);
    AtMost(m, false, Lefts(g.rhs));
  }

  lemma {:induction false} LeftsSize(n: nat)
    ensures |Lefts(n)| == n
  {
    if n > 0 {
      LeftsSize(n - 1);
    }
  }

  /** Without the explanation it writes, FindPairing decides whether every matcher can be satisfied. */
  method FindPairing(g: MatchMatrix) returns (result: bool)
    ensures result <==> Saturable(g)
  {
    var matches := FindMaxBipartiteMatching(g);
    result := |matches| == g.rhs;
    forall m: set<(nat, nat)> | IsMatching(g, m) ensures |m| <= g.rhs {
      MatchingIsAtMostRhs(g, m);
    }
  }

  ghost predicate ElementMatched(g: MatchMatrix, l: nat, upTo: nat) {
    exists r: nat :: r < upTo && (l, r) in g.edges
  }

  ghost predicate MatcherMatched(g: MatchMatrix, r: nat, upTo: nat) {
    exists l: nat :: l < upTo && (l, r) in g.edges
  }

  /** The pre-check never rejects a matrix that a pairing could satisfy. */
  lemma PreCheckIsNecessary(g: MatchMatrix)
    requires g.lhs == g.rhs && Saturable(g)
    ensures forall l: nat | l < g.lhs :: ElementMatched(g, l, g.rhs)
    ensures forall r: nat | r < g.rhs :: MatcherMatched(g, r, g.lhs)
  {
    var m: set<(nat, nat)> :| IsMatching(g, m) && |m| == g.rhs;
    LeftsSize(g.rhs);
    forall l: nat | l < g.lhs ensures ElementMatched(g, l, g.rhs) {
      if forall e <- m :: e.0 != l {
        AtMost(m, true, Lefts(g.rhs) - {l});
      }
    }
    forall r: nat | r < g.rhs ensures MatcherMatched(g, r, g.lhs) {
      if forall e <- m :: e.1 != r {
        AtMost(m, false, Lefts(g.rhs) - {r});
      }
    }
  }

  /** The cheap check made first: no element and no matcher is without an edge. */
  method VerifyAllElementsAndMatchersAreMatched(g: MatchMatrix) returns (result: bool)
    ensures result <==>
      && (forall l: nat | l < g.lhs :: ElementMatched(g, l, g.rhs))
      && (forall r: nat | r < g.rhs :: MatcherMatched(g, r, g.lhs))
  {
    var elementMatched := new bool[g.lhs](_ => false);
    var matcherMatched := new bool[g.rhs](_ => false);
    for l := 0 to g.lhs
      invariant forall k: nat | k < g.lhs :: elementMatched[k] <==> k < l && ElementMatched(g, k, g.rhs)
      invariant forall q: nat | q < g.rhs :: matcherMatched[q] <==> MatcherMatched(g, q, l)
    {
      for r := 0 to g.rhs
        invariant forall k: nat | k < g.lhs && k != l :: elementMatched[k] <==> k < l && ElementMatched(g, k, g.rhs)
        invariant elementMatched[l] <==> ElementMatched(g, l, r)
        invariant forall q: nat | q < g.rhs :: matcherMatched[q] <==> MatcherMatched(g, q, if q < r then l + 1 else l)
      {
        var matched := g.HasEdge(l, r);
        elementMatched[l] := elementMatched[l] || matched;
        matcherMatched[r] := matcherMatched[r] || matched;
      }
    }
    result := true;
    for mi := 0 to g.rhs
      invariant result <==> forall r: nat | r < mi :: matcherMatched[r]
    {
      if !matcherMatched[mi] {
        result := false;
      }
    }
    for ei := 0 to g.lhs
      invariant result <==>
                (forall r: nat | r < g.rhs :: matcherMatched[r]) && (forall l: nat | l < ei :: elementMatched[l])
    {
      if !elementMatched[ei] {
        result := false;
      }
    }
  }
}
