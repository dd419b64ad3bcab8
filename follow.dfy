/**
  FOLLOW sets (get_follow_set): a `while True` loop seeded with the end marker
  for the start symbol that, for every position i of every production A -> p
  whose symbol p[i] is not a terminal, adds FIRST(p[i+1..]) minus the marker
  to FOLLOW(p[i]), and also FOLLOW(A) when p[i] is last or FIRST(p[i+1..])
  holds the marker.  FIRST of the empty suffix is the defaultdict's empty set.
 */
module FollowSets {
  import opened Symbols

  type SeqFirstMap = map<Production, set<Symbol>>

  function GetSeq(SF: SeqFirstMap, s: Production): set<Symbol>
  {
    if s in SF then SF[s] else {}
  }

  /** Position `i` of `A -> p` adds nothing to `F` (lines 121-133). */
  ghost predicate FollowAt(T: set<Symbol>, SF: SeqFirstMap, F: SetMap, A: Symbol, p: Production, i: nat)
    requires i < |p|
  {
    p[i] !in T ==>
      && GetSeq(SF, p[i + 1..]) - {Eps} <= Get(F, p[i])
      && ((i + 1 == |p| || Eps in GetSeq(SF, p[i + 1..])) ==> Get(F, A) <= Get(F, p[i]))
  }

  ghost predicate RuleFollowClosed(T: set<Symbol>, SF: SeqFirstMap, F: SetMap, A: Symbol, p: Production)
  {
    forall i :: 0 <= i < |p| ==> FollowAt(T, SF, F, A, p, i)
  }

  /** `F` is seeded for the start symbol and closed under every production. */
  ghost predicate FollowClosed(g: Grammar, T: set<Symbol>, SF: SeqFirstMap, begin: Symbol, F: SetMap)
  {
    && End in Get(F, begin)
    && forall a, b :: 0 <= a < |g| && 0 <= b < |g[a].1| ==> RuleFollowClosed(T, SF, F, g[a].0, g[a].1[b])
  }

  ghost predicate FollowClosedUpTo(g: Grammar, T: set<Symbol>, SF: SeqFirstMap, F: SetMap, n: int, m: int)
  {
    forall a, b :: Visited(g, a, b, n, m) ==> RuleFollowClosed(T, SF, F, g[a].0, g[a].1[b])
  }

  /** FOLLOW keys: the start symbol and the symbols of the grammar. */
  ghost function FollowKeys(g: Grammar, begin: Symbol): set<Symbol>
  {
    {begin} + Alphabet(g)
  }

  /** FOLLOW entries: the end marker and what FIRST of some suffix holds besides the marker. */
  ghost function FollowUniverse(SF: SeqFirstMap): set<Symbol>
  {
    {End} + set s, t | s in SF && t in SF[s] && t != Eps :: t
  }

  /** What position `i` of `A -> p` adds to FOLLOW(p[i]) stays below every map above `f` that it leaves unchanged. */
  lemma FollowAddBelow(T: set<Symbol>, SF: SeqFirstMap, f: SetMap, A: Symbol, p: Production, i: nat, nw: set<Symbol>)
    requires i < |p| && p[i] !in T
    requires nw <= GetSeq(SF, p[i + 1..]) - {Eps} ||
             ((i + 1 == |p| || Eps in GetSeq(SF, p[i + 1..])) && nw <= Get(f, A))
    ensures forall F :: Below(f, F) && FollowAt(T, SF, F, A, p, i) ==> Below(AddTo(f, p[i], nw), F)
  {
    forall F | Below(f, F) && FollowAt(T, SF, F, A, p, i) ensures Below(AddTo(f, p[i], nw), F) {
      assert Get(f, A) <= Get(F, A);
      AddBelow(f, F, p[i], nw);
    }
  }

  /** Position `i` of `A -> p` within a pass (lines 121-133). */
  method FollowPosition(T: set<Symbol>, SF: SeqFirstMap, follow: SetMap, A: Symbol, p: Production, i: nat,
                        ghost K: set<Symbol>, ghost U: set<Symbol>)
    returns (f: SetMap, added: bool)
    requires i < |p| && p[i] in K && Bounded(K, U, follow)
    requires forall s, t :: s in SF && t in SF[s] && t != Eps ==> t in U
    ensures Bounded(K, U, f) && Below(follow, f)
    ensures added ==> Missing(K, U, f) < Missing(K, U, follow)
    ensures !added ==> f == follow && FollowAt(T, SF, follow, A, p, i)
    ensures forall F :: Below(follow, F) && FollowAt(T, SF, F, A, p, i) ==> Below(f, F)
  {
    f, added := follow, false;
    if p[i] in T {
      return;
    }
    var X := p[i];
    var beta := p[i + 1..];
    if i + 1 == |p| || Eps in GetSeq(SF, beta) {
      var nw := Get(f, A) - Get(f, X);
      if nw != {} {
        assert nw <= U by {
          if A in f {
            assert f[A] <= U;
          }
        }
        AddEntries(K, U, f, X, nw);
        FollowAddBelow(T, SF, f, A, p, i, nw);
        f := AddTo(f, X, nw);
        added := true;
      } else {
        assert forall t :: t in Get(f, A) ==> t in Get(f, X) by {
          forall t | t in Get(f, A) ensures t in Get(f, X) {
            assert t !in nw;
          }
        }
      }
    }
    var nw := GetSeq(SF, beta) - {Eps} - Get(f, X);
    if nw != {} {
      assert nw <= U;
      AddEntries(K, U, f, X, nw);
      MissingAntitone(K, U, follow, f);
      FollowAddBelow(T, SF, f, A, p, i, nw);
      f := AddTo(f, X, nw);
      added := true;
    }
  }

  /** The loop over the positions of one production `A -> p` within a pass (lines 120-133). */
  method FollowRuleStep(T: set<Symbol>, SF: SeqFirstMap, follow: SetMap, A: Symbol, p: Production,
                        ghost K: set<Symbol>, ghost U: set<Symbol>)
    returns (f: SetMap, added: bool)
    requires Bounded(K, U, follow)
    requires forall i :: 0 <= i < |p| ==> p[i] in K
    requires forall s, t :: s in SF && t in SF[s] && t != Eps ==> t in U
    ensures Bounded(K, U, f) && Below(follow, f)
    ensures Missing(K, U, f) <= Missing(K, U, follow)
    ensures added ==> Missing(K, U, f) < Missing(K, U, follow)
    ensures !added ==> f == follow && RuleFollowClosed(T, SF, follow, A, p)
    ensures forall F :: Below(follow, F) && RuleFollowClosed(T, SF, F, A, p) ==> Below(f, F)
  {
    f, added := follow, false;
    for i := 0 to |p|
      invariant Bounded(K, U, f) && Below(follow, f)
      invariant Missing(K, U, f) <= Missing(K, U, follow)
      invariant added ==> Missing(K, U, f) < Missing(K, U, follow)
      invariant !added ==> f == follow && forall i' :: 0 <= i' < i ==> FollowAt(T, SF, follow, A, p, i')
      invariant forall F :: Below(follow, F) && RuleFollowClosed(T, SF, F, A, p) ==> Below(f, F)
    {
      var next, a := FollowPosition(T, SF, f, A, p, i, K, U);
      MissingAntitone(K, U, f, next);
      forall F | Below(follow, F) && RuleFollowClosed(T, SF, F, A, p) ensures Below(next, F) {
        assert FollowAt(T, SF, F, A, p, i);
      }
      f := next;
      if a {
        added := true;
      }
    }
  }

  /**
    get_follow_set (lines 114-137).  The loop ends, and its result is the least
    map seeded with the end marker for `begin` and closed under every
    production; no entry holds the empty-string marker.
   */
  method FollowFixpoint(g: Grammar, T: set<Symbol>, SF: SeqFirstMap, begin: Symbol) returns (follow: SetMap)
    ensures FollowClosed(g, T, SF, begin, follow)
    ensures forall F :: FollowClosed(g, T, SF, begin, F) ==> Below(follow, F)
    ensures forall k :: Eps !in Get(follow, k)
    ensures Bounded(FollowKeys(g, begin), FollowUniverse(SF), follow)
  {
    ghost var K := FollowKeys(g, begin);
    ghost var U := FollowUniverse(SF);
    follow := map[begin := {End}];
    while true
      invariant Bounded(K, U, follow)
      invariant End in Get(follow, begin)
      invariant forall F :: FollowClosed(g, T, SF, begin, F) ==> Below(follow, F)
      decreases Missing(K, U, follow)
    {
      var flag := true;
      ghost var start := follow;
      for n := 0 to |g|
        invariant Bounded(K, U, follow) && Below(start, follow)
        invariant Missing(K, U, follow) <= Missing(K, U, start)
        invariant !flag ==> Missing(K, U, follow) < Missing(K, U, start)
        invariant flag ==> follow == start && FollowClosedUpTo(g, T, SF, follow, n, 0)
        invariant forall F :: FollowClosed(g, T, SF, begin, F) ==> Below(follow, F)
      {
        var rules := g[n].1;
        for m := 0 to |rules|
          invariant Bounded(K, U, follow) && Below(start, follow)
          invariant Missing(K, U, follow) <= Missing(K, U, start)
          invariant !flag ==> Missing(K, U, follow) < Missing(K, U, start)
          invariant flag ==> follow == start && FollowClosedUpTo(g, T, SF, follow, n, m)
          invariant forall F :: FollowClosed(g, T, SF, begin, F) ==> Below(follow, F)
        {
          var production := rules[m];
          forall i | 0 <= i < |production| ensures production[i] in K {
            assert g[n] in g && production in g[n].1 && production[i] in production;
          }
          var f, a := FollowRuleStep(T, SF, follow, g[n].0, production, K, U);
          forall F | FollowClosed(g, T, SF, begin, F) ensures Below(f, F) {
            assert RuleFollowClosed(T, SF, F, g[n].0, g[n].1[m]);
          }
          MissingAntitone(K, U, start, follow);
          follow := f;
          if a {
            flag := false;
          }
          assert flag ==> forall a', b' :: Visited(g, a', b', n, m + 1) ==>
            Visited(g, a', b', n, m) || (a' == n && b' == m);
        }
        assert forall a', b' :: Visited(g, a', b', n + 1, 0) ==> Visited(g, a', b', n, |rules|);
      }
      if flag {
        assert forall a', b' :: 0 <= a' < |g| && 0 <= b' < |g[a'].1| ==> Visited(g, a', b', |g|, 0);
        break;
      }
    }
    assert Eps !in U;
  }
}
