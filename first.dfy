/**
  FIRST sets (get_first_set).

  Phase one is a `while True` loop over every production of every nonterminal
  that grows FIRST(X) until a whole pass leaves `flag` set.  The flag is also
  cleared whenever a production headed by a nonterminal turns out wholly
  nullable, even when FIRST(X) already holds the empty-string marker, so such a
  pass never leaves the loop: a pass that changes nothing but clears the flag
  would repeat forever.  `FirstFixpoint` stops there and reports
  `converged == false`.

  Phase two computes FIRST of every non-empty suffix of every production.
 */
module FirstSets {
  import opened Symbols

  /** FIRST entries are terminals or the empty-string marker. */
  function Universe(T: set<Symbol>): set<Symbol>
  {
    T + {Eps}
  }

  /** The first `n` symbols of `p` all have the empty-string marker in their FIRST entry. */
  ghost predicate NullablePrefix(F: SetMap, p: Production, n: nat)
    requires n <= |p|
  {
    forall j :: 0 <= j < n ==> Eps in Get(F, p[j])
  }

  /** What the cascade at lines 74-90 demands once the first `n` symbols are nullable. */
  ghost predicate CascadeAt(T: set<Symbol>, NT: set<Symbol>, F: SetMap, X: Symbol, p: Production, n: nat)
    requires 1 <= n <= |p|
  {
    && (n == |p| ==> Eps in Get(F, X))
    && (n < |p| && p[n] in NT ==> Get(F, p[n]) - {Eps} <= Get(F, X))
    && (n < |p| && p[n] !in NT && p[n] in T ==> p[n] in Get(F, X))
  }

  /** Processing production `X -> p` against `F` would add nothing to `F`. */
  ghost predicate RuleClosed(T: set<Symbol>, NT: set<Symbol>, F: SetMap, X: Symbol, p: Production)
    requires |p| > 0
  {
    && ((p[0] in T || p[0] == Eps) ==> p[0] in Get(F, X))
    && (p[0] in NT ==>
          && Get(F, p[0]) - {Eps} <= Get(F, X)
          && forall n :: 1 <= n <= |p| && NullablePrefix(F, p, n) ==> CascadeAt(T, NT, F, X, p, n))
  }

  /** Processing `p` against a stable `F` reaches line 80 and clears the flag. */
  ghost predicate Spins(NT: set<Symbol>, F: SetMap, p: Production)
    requires |p| > 0
  {
    p[0] in NT && NullablePrefix(F, p, |p|)
  }

  ghost predicate Closed(T: set<Symbol>, NT: set<Symbol>, g: Grammar, F: SetMap)
    requires AllNonEmpty(g)
  {
    forall a, b :: 0 <= a < |g| && 0 <= b < |g[a].1| ==> RuleClosed(T, NT, F, g[a].0, g[a].1[b])
  }

  ghost predicate NoSpin(NT: set<Symbol>, g: Grammar, F: SetMap)
    requires AllNonEmpty(g)
  {
    forall a, b :: 0 <= a < |g| && 0 <= b < |g[a].1| ==> !Spins(NT, F, g[a].1[b])
  }

  ghost predicate ClosedUpTo(T: set<Symbol>, NT: set<Symbol>, g: Grammar, F: SetMap, n: int, m: int)
    requires AllNonEmpty(g)
  {
    forall a, b :: Visited(g, a, b, n, m) ==> RuleClosed(T, NT, F, g[a].0, g[a].1[b])
  }

  ghost predicate SpinUpTo(NT: set<Symbol>, g: Grammar, F: SetMap, n: int, m: int)
    requires AllNonEmpty(g)
  {
    exists a, b :: Visited(g, a, b, n, m) && Spins(NT, F, g[a].1[b])
  }

  /**
    One production `X -> p` of one pass (lines 62-90).  `cleared` says whether
    the pass's flag was cleared, `added` whether FIRST grew (a modelling
    variable: the source has only the flag).
   */
  method RuleStep(T: set<Symbol>, NT: set<Symbol>, first: SetMap, X: Symbol, p: Production)
    returns (f: SetMap, cleared: bool, added: bool)
    requires |p| > 0 && X in NT && Bounded(NT, Universe(T), first)
    ensures Bounded(NT, Universe(T), f) && Below(first, f)
    ensures Missing(NT, Universe(T), f) <= Missing(NT, Universe(T), first)
    ensures added ==> cleared && Missing(NT, Universe(T), f) < Missing(NT, Universe(T), first)
    ensures !added ==> f == first && RuleClosed(T, NT, first, X, p) && (cleared <==> Spins(NT, first, p))
    ensures forall F :: Below(first, F) && RuleClosed(T, NT, F, X, p) ==> Below(f, F)
  {
    var U := Universe(T);
    f, cleared, added := first, false, false;
    var h := p[0];
    if (h in T || h == Eps) && h !in Get(f, X) {
      assert h in {h} - Get(f, X);
      AddEntries(NT, U, f, X, {h});
      forall F | Below(first, F) && RuleClosed(T, NT, F, X, p) ensures Below(AddTo(f, X, {h}), F) {
        AddBelow(f, F, X, {h});
      }
      f := AddTo(f, X, {h});
      cleared, added := true, true;
    } else if h in NT {
      var nw := Get(f, h) - {Eps} - Get(f, X);
      if nw != {} {
        AddEntries(NT, U, f, X, nw);
        forall F | Below(first, F) && RuleClosed(T, NT, F, X, p) ensures Below(AddTo(f, X, nw), F) {
          assert Get(f, h) <= Get(F, h);
          AddBelow(f, F, X, nw);
        }
        f := AddTo(f, X, nw);
        cleared, added := true, true;
      }
      var i := 0;
      while i < |p|
        invariant 0 <= i <= |p|
        invariant Bounded(NT, U, f) && Below(first, f)
        invariant Missing(NT, U, f) <= Missing(NT, U, first)
        invariant added ==> cleared && Missing(NT, U, f) < Missing(NT, U, first)
        invariant !added ==> f == first
        invariant NullablePrefix(f, p, i)
        invariant !added ==> Get(f, h) - {Eps} <= Get(f, X)
        invariant !added ==> forall n :: 1 <= n <= i ==> CascadeAt(T, NT, f, X, p, n)
        invariant !added ==> (cleared <==> i == |p|)
        invariant forall F :: Below(first, F) && RuleClosed(T, NT, F, X, p) ==> Below(f, F)
      {
        if Eps !in Get(f, p[i]) {
          break;
        }
        assert NullablePrefix(f, p, i + 1);
        ghost var f0 := f;
        var S: set<Symbol> := {};
        if i + 1 == |p| {
          cleared := true;
          S := {Eps};
        } else if p[i + 1] in NT {
          S := Get(f, p[i + 1]) - {Eps} - Get(f, X);
        } else if p[i + 1] in T && p[i + 1] !in Get(f, X) {
          S := {p[i + 1]};
        }
        if S - Get(f, X) != {} {
          assert S <= U by {
            if i + 1 < |p| && p[i + 1] in NT && p[i + 1] in f {
              assert f[p[i + 1]] <= U;
            }
          }
          AddEntries(NT, U, f, X, S);
          MissingAntitone(NT, U, first, f);
          CascadeBelow(T, NT, first, f0, X, p, i, S);
          f := AddTo(f, X, S);
          cleared, added := true, true;
          NullableGrows(f0, f, p, i + 1);
        } else if !added {
          CascadeSettled(T, NT, f, X, p, i, S);
        }
        i := i + 1;
      }
    }
  }

  lemma NullableGrows(f0: SetMap, f: SetMap, p: Production, n: nat)
    requires n <= |p| && Below(f0, f) && NullablePrefix(f0, p, n)
    ensures NullablePrefix(f, p, n)
  {
    forall j | 0 <= j < n ensures Eps in Get(f, p[j]) {
      assert Get(f0, p[j]) <= Get(f, p[j]);
    }
  }

  /** When the cascade step at `i` adds nothing, `f` already meets what it demands. */
  lemma CascadeSettled(T: set<Symbol>, NT: set<Symbol>, f: SetMap, X: Symbol, p: Production, i: nat, S: set<Symbol>)
    requires i < |p|
    requires i + 1 == |p| ==> S == {Eps}
    requires i + 1 < |p| && p[i + 1] in NT ==> S == Get(f, p[i + 1]) - {Eps} - Get(f, X)
    requires i + 1 < |p| && p[i + 1] !in NT && p[i + 1] in T && p[i + 1] !in Get(f, X) ==> S == {p[i + 1]}
    requires S - Get(f, X) == {}
    ensures CascadeAt(T, NT, f, X, p, i + 1)
  {
    forall x | x in S ensures x in Get(f, X) {
      assert x !in S - Get(f, X);
    }
  }

  /**
    What the cascade adds once `p[..i + 1]` is nullable stays below every map
    that lies above the pass's start and is closed under `X -> p`.
   */
  lemma CascadeBelow(T: set<Symbol>, NT: set<Symbol>, first: SetMap, f0: SetMap, X: Symbol, p: Production,
                     i: nat, S: set<Symbol>)
    requires i < |p| && p[0] in NT && NullablePrefix(f0, p, i + 1)
    requires i + 1 == |p| ==> S <= {Eps}
    requires i + 1 < |p| && p[i + 1] in NT ==> S <= Get(f0, p[i + 1]) - {Eps}
    requires i + 1 < |p| && p[i + 1] !in NT ==> S <= {p[i + 1]} && (S != {} ==> p[i + 1] in T)
    requires forall F :: Below(first, F) && RuleClosed(T, NT, F, X, p) ==> Below(f0, F)
    ensures forall F :: Below(first, F) && RuleClosed(T, NT, F, X, p) ==> Below(AddTo(f0, X, S), F)
  {
    forall F | Below(first, F) && RuleClosed(T, NT, F, X, p) ensures Below(AddTo(f0, X, S), F) {
      NullableGrows(f0, F, p, i + 1);
      assert CascadeAt(T, NT, F, X, p, i + 1);
      if i + 1 < |p| && p[i + 1] in NT {
        assert Get(f0, p[i + 1]) <= Get(F, p[i + 1]);
      }
      AddBelow(f0, F, X, S);
    }
  }

  /**
    Phase one of get_first_set (lines 58-92).  The result is the least map
    closed under every production; `converged` is false exactly when the
    source's loop would never end.
   */
  method FirstFixpoint(g: Grammar, T: set<Symbol>, NT: set<Symbol>) returns (first: SetMap, converged: bool)
    requires AllNonEmpty(g)
    requires forall a :: 0 <= a < |g| ==> g[a].0 in NT
    ensures Bounded(NT, Universe(T), first)
    ensures Closed(T, NT, g, first)
    ensures forall F :: Closed(T, NT, g, F) ==> Below(first, F)
    ensures converged <==> NoSpin(NT, g, first)
  {
    var U := Universe(T);
    first := map[];
    while true
      invariant Bounded(NT, U, first)
      invariant forall F :: Closed(T, NT, g, F) ==> Below(first, F)
      decreases Missing(NT, U, first)
    {
      var flag, added := true, false;
      ghost var start := first;
      var n := 0;
      while n < |g|
        invariant 0 <= n <= |g|
        invariant Bounded(NT, U, first) && Below(start, first)
        invariant Missing(NT, U, first) <= Missing(NT, U, start)
        invariant added ==> !flag && Missing(NT, U, first) < Missing(NT, U, start)
        invariant !added ==> first == start && ClosedUpTo(T, NT, g, first, n, 0)
        invariant !added ==> (flag <==> !SpinUpTo(NT, g, first, n, 0))
        invariant forall F :: Closed(T, NT, g, F) ==> Below(first, F)
      {
        var rules := g[n].1;
        var m := 0;
        while m < |rules|
          invariant 0 <= m <= |rules|
          invariant Bounded(NT, U, first) && Below(start, first)
          invariant Missing(NT, U, first) <= Missing(NT, U, start)
          invariant added ==> !flag && Missing(NT, U, first) < Missing(NT, U, start)
          invariant !added ==> first == start && ClosedUpTo(T, NT, g, first, n, m)
          invariant !added ==> (flag <==> !SpinUpTo(NT, g, first, n, m))
          invariant forall F :: Closed(T, NT, g, F) ==> Below(first, F)
        {
          ghost var before := first;
          var f, c, a := RuleStep(T, NT, first, g[n].0, rules[m]);
          forall F | Closed(T, NT, g, F) ensures Below(f, F) {
            assert RuleClosed(T, NT, F, g[n].0, rules[m]);
          }
          MissingAntitone(NT, U, start, before);
          first := f;
          if c {
            flag := false;
          }
          if a {
            added := true;
          }
          assert !added ==> forall a', b' :: Visited(g, a', b', n, m + 1) ==>
            Visited(g, a', b', n, m) || (a' == n && b' == m);
          m := m + 1;
        }
        assert forall a', b' :: Visited(g, a', b', n + 1, 0) ==> Visited(g, a', b', n, |rules|);
        assert forall a', b' :: Visited(g, a', b', n, |rules|) ==> Visited(g, a', b', n + 1, 0);
        n := n + 1;
      }
      if flag {
        assert forall a', b' :: 0 <= a' < |g| && 0 <= b' < |g[a'].1| ==> Visited(g, a', b', |g|, 0);
        converged := true;
        return;
      }
      if !added {
        // this pass changed nothing yet cleared the flag: every further pass is the same
        assert forall a', b' :: 0 <= a' < |g| && 0 <= b' < |g[a'].1| ==> Visited(g, a', b', |g|, 0);
        converged := false;
        return;
      }
    }
  }

  // ---------------------------------------------------------------------
  // Phase two: FIRST of production suffixes (lines 95-109)

  /** The contribution of the cascade at lines 103-109 from index `j` on. */
  function CascadeFrom(F: SetMap, s: Production, j: nat): set<Symbol>
    requires j < |s|
    decreases |s| - j
  {
    if Eps !in Get(F, s[j]) then {}
    else if j + 1 == |s| then {Eps}
    else (Get(F, s[j + 1]) - {Eps}) + CascadeFrom(F, s, j + 1)
  }

  /** FIRST of the symbol sequence `s` as lines 99-109 compute it. */
  function SeqFirst(T: set<Symbol>, F: SetMap, s: Production): set<Symbol>
    requires |s| > 0
  {
    if s[0] in T || s[0] == Eps then {s[0]}
    else (Get(F, s[0]) - {Eps}) + CascadeFrom(F, s, 0)
  }

  /** The loop of lines 99-109 for one suffix. */
  method FirstOfSequence(T: set<Symbol>, F: SetMap, s: Production) returns (r: set<Symbol>)
    requires |s| > 0
    ensures r == SeqFirst(T, F, s)
  {
    if s[0] in T || s[0] == Eps {
      r := {s[0]};
      return;
    }
    r := Get(F, s[0]) - {Eps};
    var j := 0;
    while j < |s|
      invariant 0 <= j <= |s|
      invariant j < |s| ==> SeqFirst(T, F, s) == r + CascadeFrom(F, s, j)
      invariant j == |s| ==> SeqFirst(T, F, s) == r
    {
      if Eps !in Get(F, s[j]) {
        break;
      } else if j + 1 == |s| {
        r := r + {Eps};
      } else {
        r := r + (Get(F, s[j + 1]) - {Eps});
      }
      j := j + 1;
    }
  }

  /** `s` is a non-empty suffix of a production of `g`. */
  ghost predicate IsSuffix(g: Grammar, s: Production)
  {
    exists a, b, i :: 0 <= a < |g| && 0 <= b < |g[a].1| && 0 <= i < |g[a].1[b]| && s == g[a].1[b][i..]
  }

  /** `s` is a non-empty suffix of a production of one of the first `n` entries of `g`. */
  ghost predicate SuffixBefore(g: Grammar, n: int, s: Production)
  {
    exists a, b, i :: 0 <= a < n && a < |g| && 0 <= b < |g[a].1| && 0 <= i < |g[a].1[b]| && s == g[a].1[b][i..]
  }

  /** `s` is a non-empty suffix of one of the first `m` productions of `rules`. */
  ghost predicate RuleSuffixBefore(rules: Rules, m: int, s: Production)
  {
    exists b, i :: 0 <= b < m && b < |rules| && 0 <= i < |rules[b]| && s == rules[b][i..]
  }

  /** `s` is the suffix of `p` from one of the first `k` positions. */
  ghost predicate ProductionSuffixBefore(p: Production, k: int, s: Production)
  {
    exists i :: 0 <= i < k && i < |p| && s == p[i..]
  }

  lemma ProductionSuffixStep(p: Production, k: nat)
    requires k < |p|
    ensures forall s :: ProductionSuffixBefore(p, k + 1, s) <==> ProductionSuffixBefore(p, k, s) || s == p[k..]
  {
    assert ProductionSuffixBefore(p, k + 1, p[k..]);
    forall s | ProductionSuffixBefore(p, k + 1, s) && s != p[k..] ensures ProductionSuffixBefore(p, k, s) {
      var i :| 0 <= i < k + 1 && i < |p| && s == p[i..];
      assert i < k;
    }
  }

  lemma RuleSuffixStep(rules: Rules, m: nat)
    requires m < |rules|
    ensures forall s :: RuleSuffixBefore(rules, m + 1, s) <==>
      RuleSuffixBefore(rules, m, s) || ProductionSuffixBefore(rules[m], |rules[m]|, s)
  {
    forall s | ProductionSuffixBefore(rules[m], |rules[m]|, s) ensures RuleSuffixBefore(rules, m + 1, s) {
      var i :| 0 <= i < |rules[m]| && s == rules[m][i..];
    }
  }

  lemma SuffixStep(g: Grammar, n: nat)
    requires n < |g|
    ensures forall s :: SuffixBefore(g, n + 1, s) <==> SuffixBefore(g, n, s) || RuleSuffixBefore(g[n].1, |g[n].1|, s)
  {
    forall s | RuleSuffixBefore(g[n].1, |g[n].1|, s) ensures SuffixBefore(g, n + 1, s) {
      var b, i :| 0 <= b < |g[n].1| && 0 <= i < |g[n].1[b]| && s == g[n].1[b][i..];
    }
  }

  /** Phase two of get_first_set: FIRST of every non-empty production suffix. */
  method SequenceFirst(g: Grammar, T: set<Symbol>, F: SetMap) returns (sf: map<Production, set<Symbol>>)
    ensures forall s :: s in sf <==> IsSuffix(g, s)
    ensures forall s :: s in sf ==> |s| > 0 && sf[s] == SeqFirst(T, F, s)
  {
    sf := map[];
    for n := 0 to |g|
      invariant forall s :: s in sf ==> |s| > 0 && sf[s] == SeqFirst(T, F, s)
      invariant forall s :: s in sf <==> SuffixBefore(g, n, s)
    {
      var rules := g[n].1;
      for m := 0 to |rules|
        invariant forall s :: s in sf ==> |s| > 0 && sf[s] == SeqFirst(T, F, s)
        invariant forall s :: s in sf <==> SuffixBefore(g, n, s) || RuleSuffixBefore(rules, m, s)
      {
        var production := rules[m];
        for i := 0 to |production|
          invariant forall s :: s in sf ==> |s| > 0 && sf[s] == SeqFirst(T, F, s)
          invariant forall s :: s in sf <==>
            SuffixBefore(g, n, s) || RuleSuffixBefore(rules, m, s) || ProductionSuffixBefore(production, i, s)
        {
          var sequence := production[i..];
          var r := FirstOfSequence(T, F, sequence);
          sf := sf[sequence := r];
          ProductionSuffixStep(production, i);
        }
        RuleSuffixStep(rules, m);
      }
      SuffixStep(g, n);
    }
  }

  // ---------------------------------------------------------------------
  // What FIRST of a sequence means

  lemma {:induction false} CascadeNullable(F: SetMap, s: Production, j: nat)
    requires j < |s|
    ensures Eps in CascadeFrom(F, s, j) <==> forall i :: j <= i < |s| ==> Eps in Get(F, s[i])
    decreases |s| - j
  {
    if Eps in Get(F, s[j]) && j + 1 < |s| {
      CascadeNullable(F, s, j + 1);
    }
  }

  lemma {:induction false} CascadeMembers(F: SetMap, s: Production, j: nat, t: Symbol)
    requires j < |s| && t != Eps
    ensures t in CascadeFrom(F, s, j) <==>
      exists i :: j < i < |s| && (forall k :: j <= k < i ==> Eps in Get(F, s[k])) && t in Get(F, s[i])
    decreases |s| - j
  {
    if Eps in Get(F, s[j]) && j + 1 < |s| {
      CascadeMembers(F, s, j + 1, t);
      if t in CascadeFrom(F, s, j + 1) {
        var i :| j + 1 < i < |s| && (forall k :: j + 1 <= k < i ==> Eps in Get(F, s[k])) && t in Get(F, s[i]);
        assert forall k :: j <= k < i ==> Eps in Get(F, s[k]);
      }
      if exists i :: j < i < |s| && (forall k :: j <= k < i ==> Eps in Get(F, s[k])) && t in Get(F, s[i]) {
        var i :| j < i < |s| && (forall k :: j <= k < i ==> Eps in Get(F, s[k])) && t in Get(F, s[i]);
        if i > j + 1 {
          assert forall k :: j + 1 <= k < i ==> Eps in Get(F, s[k]);
        }
      }
    }
  }

  /**
    Lines 99-109: FIRST of a sequence headed by a terminal or the marker is just
    its head; FIRST of one headed by anything else holds the marker exactly when
    every symbol's FIRST entry does, and otherwise holds what the FIRST entries
    of its nullable prefix and the first symbol after it hold.  A terminal
    after a nullable prefix contributes its FIRST entry, which is empty.
   */
  lemma SeqFirstMeaning(T: set<Symbol>, F: SetMap, s: Production)
    requires |s| > 0
    ensures s[0] in T || s[0] == Eps ==> SeqFirst(T, F, s) == {s[0]}
    ensures s[0] !in T && s[0] != Eps ==> (Eps in SeqFirst(T, F, s) <==> NullablePrefix(F, s, |s|))
    ensures s[0] !in T && s[0] != Eps ==> forall t :: t != Eps ==>
      (t in SeqFirst(T, F, s) <==> exists i :: 0 <= i < |s| && NullablePrefix(F, s, i) && t in Get(F, s[i]))
  {
    if s[0] !in T && s[0] != Eps {
      CascadeNullable(F, s, 0);
      forall t | t != Eps
        ensures t in SeqFirst(T, F, s) <==> exists i :: 0 <= i < |s| && NullablePrefix(F, s, i) && t in Get(F, s[i])
      {
        CascadeMembers(F, s, 0, t);
        if t in Get(F, s[0]) {
          assert NullablePrefix(F, s, 0);
        }
      }
    }
  }

  /**
    With FIRST entries only for nonterminals, a sequence is nullable only when
    it is the marker itself or consists of nullable nonterminals; in particular
    a sequence holding a terminal that is not also a nonterminal never is.
   */
  lemma NullableSequence(T: set<Symbol>, NT: set<Symbol>, F: SetMap, s: Production)
    requires |s| > 0 && Bounded(NT, Universe(T), F)
    requires Eps in SeqFirst(T, F, s) && s[0] != Eps
    ensures s[0] !in T && forall i :: 0 <= i < |s| ==> s[i] in NT && Eps in Get(F, s[i])
  {
    SeqFirstMeaning(T, F, s);
    forall i | 0 <= i < |s| ensures s[i] in NT && Eps in Get(F, s[i]) {
      assert Eps in Get(F, s[i]);
    }
  }

  /** FIRST("A" "b") with FIRST(A) = {a, marker} is {a}: the terminal b is not added. */
  lemma TerminalAfterNullablePrefix()
    ensures SeqFirst({"a", "b", End}, map["A" := {"a", Eps}], ["A", "b"]) == {"a"}
  {
  }
}
