/**
  Left-recursion elimination (left_recursion), which rewrites the grammar in
  place.  For each key N = nts[i] in the original key order, the productions of
  every earlier key nts[j] are first substituted into those of N that begin with
  nts[j]; the substituted list stays in the grammar.  Then, if some production
  of N begins with N, N is given the fresh nonterminal N' = N + "'": N gets
  beta N' for each production beta not beginning with N, and N' gets alpha N'
  for each tail alpha of a production N alpha, followed by the single
  production of the empty-string marker.  The fresh entries are added to the
  grammar only after every original key has been processed.
 */
module LeftRecursion {
  import opened Symbols

  // ---------------------------------------------------------------------
  // Specification functions, one per loop of the source

  /** The productions of `pj`, each followed by the tail of `removed` (line 41). */
  function Splice(pj: Rules, removed: Production): Rules
    requires |removed| > 0
  {
    seq(|pj|, m requires 0 <= m < |pj| => pj[m] + removed[1..])
  }

  /**
    The loop of lines 36-41 from index `k` on, over the range `n` fixed when the
    loop was entered.  A production at index `k` beginning with `nj` is deleted
    and the productions of `pj`, each followed by its tail, are appended; the
    production that shifts into slot `k` is then not looked at.  An index past
    the end of the list, or an empty production, raises IndexError (None).
   */
  function SubstituteFrom(pi: Rules, nj: Symbol, pj: Rules, k: nat, n: nat): Option<Rules>
    decreases n - k
  {
    if k >= n then Some(pi)
    else if k >= |pi| || |pi[k]| == 0 then None
    else if pi[k][0] == nj then SubstituteFrom(pi[..k] + pi[k + 1..] + Splice(pj, pi[k]), nj, pj, k + 1, n)
    else SubstituteFrom(pi, nj, pj, k + 1, n)
  }

  /** The loop of lines 34-41 from `j` on: substitutes `nts[j]`, ..., `nts[i - 1]` into `pi`. */
  function SubstituteEarlier(g: Grammar, nts: seq<Symbol>, i: nat, pi: Rules, j: nat): Option<Rules>
    requires i <= |nts|
    decreases i - j
  {
    if j >= i then Some(pi)
    else
      match SubstituteFrom(pi, nts[j], Lookup(g, nts[j]), 0, |pi|)
      case None => None
      case Some(next) => SubstituteEarlier(g, nts, i, next, j + 1)
  }

  predicate NonEmptyRules(rules: Rules)
  {
    forall x :: 0 <= x < |rules| ==> |rules[x]| > 0
  }

  /** The productions of `rules` beginning with `N`, in order (`l1`, lines 42-48). */
  function Recursive(rules: Rules, N: Symbol): (l1: Rules)
    ensures forall x :: 0 <= x < |l1| ==> |l1[x]| > 0 && l1[x][0] == N
    decreases |rules|
  {
    if rules == [] then []
    else
      var x := rules[|rules| - 1];
      Recursive(rules[..|rules| - 1], N) + (if |x| > 0 && x[0] == N then [x] else [])
  }

  /** The other productions of `rules`, in order (`l2`, lines 42-48). */
  function NonRecursive(rules: Rules, N: Symbol): (l2: Rules)
    ensures forall x :: 0 <= x < |l2| ==> |l2[x]| > 0 && l2[x][0] != N
    decreases |rules|
  {
    if rules == [] then []
    else
      var x := rules[|rules| - 1];
      NonRecursive(rules[..|rules| - 1], N) + (if |x| > 0 && x[0] != N then [x] else [])
  }

  /** Each production of `l2` followed by the fresh symbol, in order (line 52). */
  function Extend(l2: Rules, primed: Symbol): Rules
  {
    seq(|l2|, m requires 0 <= m < |l2| => l2[m] + [primed])
  }

  /** Each production of `l1` without its first symbol and followed by the fresh symbol, in order (line 53). */
  function Tails(l1: Rules, primed: Symbol): Rules
    requires NonEmptyRules(l1)
  {
    seq(|l1|, m requires 0 <= m < |l1| => l1[m][1..] + [primed])
  }

  /** No production of `rules` is empty or begins with `N`. */
  ghost predicate Plain(N: Symbol, rules: Rules)
  {
    forall p :: p in rules ==> |p| > 0 && p[0] != N
  }

  /** Every production of `rules` ends with `primed`. */
  ghost predicate EndsWithAll(rules: Rules, primed: Symbol)
  {
    forall p :: p in rules ==> |p| > 0 && p[|p| - 1] == primed
  }

  /** The shape of the productions of a fresh `N'`: each ends with `N'`, except a final `[𝜺]`. */
  ghost predicate PrimedRules(primed: Symbol, rules: Rules)
  {
    && |rules| > 1
    && rules[|rules| - 1] == [Eps]
    && forall m :: 0 <= m < |rules| - 1 ==> |rules[m]| > 0 && rules[m][|rules[m]| - 1] == primed
  }

  /** The outcome of processing one key: its new productions, and those of its fresh symbol if one is made. */
  datatype Rewrite = Rewrite(rules: Rules, primed: Option<Rules>)

  /** Lines 33-54 for `N = nts[i]`; None on IndexError. */
  function EliminateAt(g: Grammar, nts: seq<Symbol>, i: nat): Option<Rewrite>
    requires i < |nts|
  {
    var N := nts[i];
    match SubstituteEarlier(g, nts, i, Lookup(g, N), 0)
    case None => None
    case Some(pi) =>
      if !NonEmptyRules(pi) then None
      else if |Recursive(pi, N)| == 0 then Some(Rewrite(pi, None))
      else
        FilterMembers(pi, N);
        var primed := Prime(N);
        Some(Rewrite(Extend(NonRecursive(pi, N), primed), Some(Tails(Recursive(pi, N), primed) + [[Eps]])))
  }

  /**
    After one key N is processed no production of N is empty or begins with
    N; when a fresh symbol is made every production of N ends with it and its
    own productions have the primed shape; without a fresh symbol, N keeps its
    substituted list.
   */
  lemma EliminateAtShape(g: Grammar, nts: seq<Symbol>, i: nat)
    requires i < |nts| && EliminateAt(g, nts, i).Some?
    ensures Plain(nts[i], EliminateAt(g, nts, i).value.rules)
    ensures EliminateAt(g, nts, i).value.primed.Some? ==>
              && EndsWithAll(EliminateAt(g, nts, i).value.rules, Prime(nts[i]))
              && PrimedRules(Prime(nts[i]), EliminateAt(g, nts, i).value.primed.value)
    ensures EliminateAt(g, nts, i).value.primed.None? ==>
              SubstituteEarlier(g, nts, i, Lookup(g, nts[i]), 0) == Some(EliminateAt(g, nts, i).value.rules)
  {
    var N := nts[i];
    var pi := SubstituteEarlier(g, nts, i, Lookup(g, N), 0).value;
    FilterMembers(pi, N);
    if |Recursive(pi, N)| == 0 {
      RecursiveEmpty(pi, N);
    } else {
      ExtendShape(NonRecursive(pi, N), N, Prime(N));
      TailsShape(Recursive(pi, N), Prime(N));
    }
  }

  /**
    The content of the rewrite of N, in terms of its list `pi` after
    substitution: a fresh N' is made exactly when some production of `pi`
    begins with N; then N gets `beta N'` for each production `beta` of `pi`
    not beginning with N, in order, and N' gets `alpha N'` for each tail
    `alpha` of a production `N alpha` of `pi`, in order, followed by `[𝜺]`.
   */
  lemma EliminateAtContent(g: Grammar, nts: seq<Symbol>, i: nat)
    requires i < |nts| && EliminateAt(g, nts, i).Some?
    ensures var pi := SubstituteEarlier(g, nts, i, Lookup(g, nts[i]), 0);
      pi.Some? && NonEmptyRules(pi.value)
    ensures var pi := SubstituteEarlier(g, nts, i, Lookup(g, nts[i]), 0).value;
      var rw := EliminateAt(g, nts, i).value;
      && (rw.primed.Some? <==> Recursive(pi, nts[i]) != [])
      && (rw.primed.Some? ==> rw.rules == Extend(NonRecursive(pi, nts[i]), Prime(nts[i])))
      && (rw.primed.Some? ==> rw.primed.value == Tails(Recursive(pi, nts[i]), Prime(nts[i])) + [[Eps]])
    ensures var pi := SubstituteEarlier(g, nts, i, Lookup(g, nts[i]), 0).value;
      var rw := EliminateAt(g, nts, i).value;
      rw.primed.Some? ==>
        && (forall q :: q in rw.rules <==> exists b :: b in pi && |b| > 0 && b[0] != nts[i] && q == b + [Prime(nts[i])])
        && (forall q :: q in rw.primed.value <==>
              q == [Eps] || exists b :: b in pi && |b| > 0 && b[0] == nts[i] && q == b[1..] + [Prime(nts[i])])
  {
    var N := nts[i];
    var pi := SubstituteEarlier(g, nts, i, Lookup(g, N), 0).value;
    RewriteMembers(pi, N, Prime(N));
  }

  /** The members of the lists built for N and N' from `pi` (lines 52-54). */
  lemma RewriteMembers(pi: Rules, N: Symbol, primed: Symbol)
    ensures forall q :: q in Extend(NonRecursive(pi, N), primed) <==>
      exists b :: b in pi && |b| > 0 && b[0] != N && q == b + [primed]
    ensures forall q :: q in Tails(Recursive(pi, N), primed) + [[Eps]] <==>
      q == [Eps] || exists b :: b in pi && |b| > 0 && b[0] == N && q == b[1..] + [primed]
  {
    FilterMembers(pi, N);
    ExtendMembers(NonRecursive(pi, N), primed);
    TailsMembers(Recursive(pi, N), primed);
  }

  lemma ExtendMembers(l2: Rules, primed: Symbol)
    ensures forall q :: q in Extend(l2, primed) <==> exists b :: b in l2 && q == b + [primed]
  {
    forall q | q in Extend(l2, primed) ensures exists b :: b in l2 && q == b + [primed] {
      var m :| 0 <= m < |l2| && Extend(l2, primed)[m] == q;
      assert l2[m] in l2;
    }
    forall b | b in l2 ensures b + [primed] in Extend(l2, primed) {
      var m :| 0 <= m < |l2| && l2[m] == b;
      assert Extend(l2, primed)[m] == b + [primed];
    }
  }

  lemma TailsMembers(l1: Rules, primed: Symbol)
    requires NonEmptyRules(l1)
    ensures forall q :: q in Tails(l1, primed) <==> exists b :: b in l1 && |b| > 0 && q == b[1..] + [primed]
  {
    forall q | q in Tails(l1, primed) ensures exists b :: b in l1 && |b| > 0 && q == b[1..] + [primed] {
      var m :| 0 <= m < |l1| && Tails(l1, primed)[m] == q;
      assert l1[m] in l1;
    }
    forall b | b in l1 && |b| > 0 ensures b[1..] + [primed] in Tails(l1, primed) {
      var m :| 0 <= m < |l1| && l1[m] == b;
      assert Tails(l1, primed)[m] == b[1..] + [primed];
    }
  }

  lemma ExtendShape(l2: Rules, N: Symbol, primed: Symbol)
    requires forall p :: p in l2 ==> |p| > 0 && p[0] != N
    ensures Plain(N, Extend(l2, primed)) && EndsWithAll(Extend(l2, primed), primed)
  {
    forall p | p in Extend(l2, primed) ensures |p| > 0 && p[0] != N && p[|p| - 1] == primed {
      var m :| 0 <= m < |l2| && Extend(l2, primed)[m] == p;
      assert l2[m] in l2;
    }
  }

  lemma TailsShape(l1: Rules, primed: Symbol)
    requires NonEmptyRules(l1) && |l1| > 0
    ensures PrimedRules(primed, Tails(l1, primed) + [[Eps]])
  {
  }

  /** The fresh entries once key `N` has been rewritten by `rw`. */
  function NextFresh(nw: Grammar, N: Symbol, rw: Rewrite): Grammar
  {
    if rw.primed.Some? then Put(nw, Prime(N), rw.primed.value) else nw
  }

  /** One iteration of the loop over `i`: the grammar `gi` and the fresh entries `nw` once `nts[i]` is processed. */
  function Advance(gi: Grammar, nw: Grammar, nts: seq<Symbol>, i: nat): Option<(Grammar, Grammar)>
    requires i < |nts|
  {
    match EliminateAt(gi, nts, i)
    case None => None
    case Some(rw) => Some((Put(gi, nts[i], rw.rules), NextFresh(nw, nts[i], rw)))
  }

  /** The grammar and the fresh entries after the first `i` keys have been processed. */
  function Eliminated(g: Grammar, nts: seq<Symbol>, i: nat): Option<(Grammar, Grammar)>
    requires i <= |nts|
    decreases i
  {
    if i == 0 then Some((g, []))
    else
      match Eliminated(g, nts, i - 1)
      case None => None
      case Some((gi, nw)) => Advance(gi, nw, nts, i - 1)
  }

  /** The grammar once left_recursion returns, or None when it raises IndexError. */
  function LeftRecursionResult(g: Grammar): Option<Grammar>
  {
    match Eliminated(g, Keys(g), |g|)
    case None => None
    case Some((gn, nw)) => Some(UpdateAll(gn, nw))
  }

  /** The rewrite of the key `g[i].0` in the grammar reached after the first `i` keys; None on IndexError. */
  function RewriteAt(g: Grammar, i: nat): Option<Rewrite>
    requires i < |g|
  {
    match Eliminated(g, Keys(g), i)
    case None => None
    case Some(st) => EliminateAt(st.0, Keys(g), i)
  }

  // ---------------------------------------------------------------------
  // The loops

  /** Lines 36-41 for one earlier nonterminal `nj` with productions `pj`. */
  method Substitute(pi: Rules, nj: Symbol, pj: Rules) returns (r: Option<Rules>)
    ensures r == SubstituteFrom(pi, nj, pj, 0, |pi|)
  {
    var cur := pi;
    var n := |cur|;
    for k := 0 to n
      invariant SubstituteFrom(pi, nj, pj, 0, n) == SubstituteFrom(cur, nj, pj, k, n)
    {
      if k >= |cur| || |cur[k]| == 0 {
        return None;
      }
      if cur[k][0] == nj {
        var removed := cur[k];
        cur := cur[..k] + cur[k + 1..];
        ghost var base := cur;
        for t := 0 to |pj|
          invariant cur == base + Splice(pj, removed)[..t]
        {
          cur := cur + [pj[t] + removed[1..]];
          assert Splice(pj, removed)[..t + 1] == Splice(pj, removed)[..t] + [pj[t] + removed[1..]];
        }
        assert Splice(pj, removed)[..|pj|] == Splice(pj, removed);
      }
    }
    return Some(cur);
  }

  /** Lines 42-48: splits `pi` into the productions beginning with `N` and the others. */
  method Split(pi: Rules, N: Symbol) returns (r: Option<(Rules, Rules)>)
    ensures r.Some? <==> NonEmptyRules(pi)
    ensures r.Some? ==> r.value == (Recursive(pi, N), NonRecursive(pi, N))
    ensures r.Some? ==> multiset(pi) == multiset(r.value.0) + multiset(r.value.1)
    ensures r.Some? ==> forall p :: p in r.value.0 <==> p in pi && p[0] == N
    ensures r.Some? ==> forall p :: p in r.value.1 <==> p in pi && p[0] != N
  {
    var l1: Rules := [];
    var l2: Rules := [];
    for x := 0 to |pi|
      invariant NonEmptyRules(pi[..x])
      invariant l1 == Recursive(pi[..x], N) && l2 == NonRecursive(pi[..x], N)
    {
      assert pi[..x + 1][..x] == pi[..x];
      if |pi[x]| == 0 {
        return None;
      }
      if pi[x][0] == N {
        l1 := l1 + [pi[x]];
      } else {
        l2 := l2 + [pi[x]];
      }
    }
    assert pi[..|pi|] == pi;
    Partition(pi, N);
    FilterMembers(pi, N);
    return Some((l1, l2));
  }

  lemma EliminatedStep(g: Grammar, nts: seq<Symbol>, i: nat, st: (Grammar, Grammar))
    requires i < |nts| && Eliminated(g, nts, i) == Some(st)
    ensures Eliminated(g, nts, i + 1) == Advance(st.0, st.1, nts, i)
  {
  }

  lemma AdvanceSome(gi: Grammar, nw: Grammar, nts: seq<Symbol>, i: nat)
    requires i < |nts| && Advance(gi, nw, nts, i).Some?
    ensures EliminateAt(gi, nts, i).Some?
    ensures Advance(gi, nw, nts, i).value ==
              (Put(gi, nts[i], EliminateAt(gi, nts, i).value.rules), NextFresh(nw, nts[i], EliminateAt(gi, nts, i).value))
  {
  }

  /** Once an iteration raises IndexError, so does the whole loop. */
  lemma {:induction false} EliminatedNone(g: Grammar, nts: seq<Symbol>, i: nat)
    requires i <= |nts| && Eliminated(g, nts, i).None?
    ensures Eliminated(g, nts, |nts|).None?
    decreases |nts| - i
  {
    if i < |nts| {
      EliminatedNoneStep(g, nts, i);
      EliminatedNone(g, nts, i + 1);
    }
  }

  lemma EliminatedNoneStep(g: Grammar, nts: seq<Symbol>, i: nat)
    requires i < |nts| && Eliminated(g, nts, i).None?
    ensures Eliminated(g, nts, i + 1).None?
  {
  }

  /** One iteration of the loop of lines 32-54, for `N = nts[i]`. */
  method EliminateKey(grammar: Grammar, added: Grammar, nts: seq<Symbol>, i: nat)
    returns (r: Option<(Grammar, Grammar)>)
    requires i < |nts|
    ensures r == Advance(grammar, added, nts, i)
  {
    var N := nts[i];
    var pi := Lookup(grammar, N);
    for j := 0 to i
      invariant SubstituteEarlier(grammar, nts, i, Lookup(grammar, N), 0) == SubstituteEarlier(grammar, nts, i, pi, j)
    {
      var pj := Lookup(grammar, nts[j]);
      var next := Substitute(pi, nts[j], pj);
      if next.None? {
        return None;
      }
      pi := next.value;
    }
    var substituted := Put(grammar, N, pi);
    var split := Split(pi, N);
    if split.None? {
      return None;
    }
    var (l1, l2) := split.value;
    if |l1| == 0 {
      return Some((substituted, added));
    }
    var newSymbol := N + "'";
    assert newSymbol == Prime(N);
    var extended := Put(substituted, N, Extend(l2, newSymbol));
    PutPut(grammar, N, pi, Extend(l2, newSymbol));
    var tails := Put(added, newSymbol, Tails(l1, newSymbol));
    var closed := Put(tails, newSymbol, Lookup(tails, newSymbol) + [[Eps]]);
    PutPut(added, newSymbol, Tails(l1, newSymbol), Tails(l1, newSymbol) + [[Eps]]);
    return Some((extended, closed));
  }

  /** left_recursion (lines 29-55): None when it raises IndexError. */
  method EliminateLeftRecursion(g: Grammar) returns (r: Option<Grammar>)
    ensures r == LeftRecursionResult(g)
  {
    var processed := ProcessKeys(g);
    if processed.None? {
      return None;
    }
    var grammar := Update(processed.value.0, processed.value.1);
    return Some(grammar);
  }

  /** The loop of lines 32-54 over the original keys, in order. */
  method ProcessKeys(g: Grammar) returns (r: Option<(Grammar, Grammar)>)
    ensures r == Eliminated(g, Keys(g), |g|)
  {
    var grammar := g;
    var nonTerminals := Keys(grammar);
    var added: Grammar := [];
    for i := 0 to |nonTerminals|
      invariant nonTerminals == Keys(g)
      invariant Eliminated(g, nonTerminals, i) == Some((grammar, added))
    {
      var step := EliminateKey(grammar, added, nonTerminals, i);
      EliminatedStep(g, nonTerminals, i, (grammar, added));
      if step.None? {
        EliminatedNone(g, nonTerminals, i + 1);
        return None;
      }
      grammar, added := step.value.0, step.value.1;
    }
    return Some((grammar, added));
  }

  /** The fresh entries merged into the grammar (line 55), one entry at a time. */
  method Update(g: Grammar, nw: Grammar) returns (result: Grammar)
    ensures result == UpdateAll(g, nw)
  {
    result := g;
    for e := 0 to |nw|
      invariant UpdateAll(result, nw[e..]) == UpdateAll(g, nw)
    {
      assert nw[e..][1..] == nw[e + 1..];
      result := Put(result, nw[e].0, nw[e].1);
    }
    assert nw[|nw|..] == [];
  }

  // ---------------------------------------------------------------------
  // Properties

  /** `l1` holds exactly the productions of `rules` beginning with `N`, and `l2` exactly the other non-empty ones. */
  lemma FilterMembers(rules: Rules, N: Symbol)
    ensures forall p :: p in Recursive(rules, N) <==> p in rules && |p| > 0 && p[0] == N
    ensures forall p :: p in NonRecursive(rules, N) <==> p in rules && |p| > 0 && p[0] != N
  {
    forall p ensures p in Recursive(rules, N) <==> p in rules && |p| > 0 && p[0] == N {
      RecursiveMember(rules, N, p);
    }
    forall p ensures p in NonRecursive(rules, N) <==> p in rules && |p| > 0 && p[0] != N {
      NonRecursiveMember(rules, N, p);
    }
  }

  lemma {:induction false} RecursiveMember(rules: Rules, N: Symbol, p: Production)
    ensures p in Recursive(rules, N) <==> p in rules && |p| > 0 && p[0] == N
    decreases |rules|
  {
    if rules != [] {
      var init, x := rules[..|rules| - 1], rules[|rules| - 1];
      RecursiveMember(init, N, p);
      var last: Rules := if |x| > 0 && x[0] == N then [x] else [];
      assert Recursive(rules, N) == Recursive(init, N) + last;
      assert rules == init + [x];
      assert p in Recursive(init, N) + last <==> p in Recursive(init, N) || p in last;
      assert p in rules <==> p in init || p == x;
    }
  }

  lemma {:induction false} NonRecursiveMember(rules: Rules, N: Symbol, p: Production)
    ensures p in NonRecursive(rules, N) <==> p in rules && |p| > 0 && p[0] != N
    decreases |rules|
  {
    if rules != [] {
      var init, x := rules[..|rules| - 1], rules[|rules| - 1];
      NonRecursiveMember(init, N, p);
      var last: Rules := if |x| > 0 && x[0] != N then [x] else [];
      assert NonRecursive(rules, N) == NonRecursive(init, N) + last;
      assert rules == init + [x];
      assert p in NonRecursive(init, N) + last <==> p in NonRecursive(init, N) || p in last;
      assert p in rules <==> p in init || p == x;
    }
  }

  /** With no empty production, every production lands in exactly one of `l1` and `l2`, as often as it occurs. */
  lemma {:induction false} Partition(rules: Rules, N: Symbol)
    requires NonEmptyRules(rules)
    ensures multiset(rules) == multiset(Recursive(rules, N)) + multiset(NonRecursive(rules, N))
    decreases |rules|
  {
    if rules != [] {
      var init := rules[..|rules| - 1];
      assert NonEmptyRules(init) by {
        forall x | 0 <= x < |init| ensures |init[x]| > 0 {
          assert init[x] == rules[x];
        }
      }
      Partition(init, N);
      assert rules == init + [rules[|rules| - 1]];
    }
  }

  /** With no production beginning with `N`, the list is already plain. */
  lemma {:induction false} RecursiveEmpty(rules: Rules, N: Symbol)
    requires NonEmptyRules(rules) && Recursive(rules, N) == []
    ensures Plain(N, rules)
    decreases |rules|
  {
    if rules != [] {
      var init := rules[..|rules| - 1];
      assert NonEmptyRules(init) by {
        forall x | 0 <= x < |init| ensures |init[x]| > 0 {
          assert init[x] == rules[x];
        }
      }
      RecursiveEmpty(init, N);
      forall p | p in rules ensures |p| > 0 && p[0] != N {
        if p != rules[|rules| - 1] {
          assert p in init;
        }
      }
    }
  }

  /** The state of an original key once processed, given the fresh entries `nw`. */
  ghost predicate Done(N: Symbol, rules: Rules, nw: Grammar)
  {
    && Plain(N, rules)
    && (Prime(N) in Keys(nw) ==> EndsWithAll(rules, Prime(N)) && PrimedRules(Prime(N), Lookup(nw, Prime(N))))
  }

  /** The grammar after `i` keys: same keys, and the keys not yet processed unchanged. */
  ghost predicate GrammarProgress(g: Grammar, i: nat, gi: Grammar)
  {
    && DistinctKeys(gi) && Keys(gi) == Keys(g)
    && forall a :: i <= a < |g| ==> Lookup(gi, g[a].0) == Lookup(g, g[a].0)
  }

  /** `x` is the fresh symbol of one of the first `i` keys of `g`. */
  ghost predicate FreshOf(g: Grammar, i: nat, x: Symbol)
  {
    exists a :: 0 <= a < i && a < |g| && x == Prime(g[a].0)
  }

  /** The fresh entries after `i` keys: distinct fresh symbols of processed keys, each of primed shape. */
  ghost predicate FreshProgress(g: Grammar, i: nat, nw: Grammar)
  {
    && DistinctKeys(nw)
    && (forall x :: x in Keys(nw) ==> FreshOf(g, i, x))
    && (forall x :: x in Keys(nw) ==> PrimedRules(x, Lookup(nw, x)))
  }

  /** Every processed key is done. */
  ghost predicate DoneProgress(g: Grammar, i: nat, gi: Grammar, nw: Grammar)
  {
    forall a :: 0 <= a < i && a < |g| ==> Done(g[a].0, Lookup(gi, g[a].0), nw)
  }

  /** In `gi`, `N` has the productions of `rw`, and `nw` has the fresh `N'` exactly when `rw` made one, with its productions. */
  ghost predicate StepContent(N: Symbol, rw: Rewrite, gi: Grammar, nw: Grammar)
  {
    && Lookup(gi, N) == rw.rules
    && (Prime(N) in Keys(nw) <==> rw.primed.Some?)
    && (rw.primed.Some? ==> Lookup(nw, Prime(N)) == rw.primed.value)
  }

  /** Every processed key holds its own rewrite. */
  ghost predicate ContentProgress(g: Grammar, i: nat, gi: Grammar, nw: Grammar)
  {
    forall a :: 0 <= a < i && a < |g| ==> RewriteAt(g, a).Some? && StepContent(g[a].0, RewriteAt(g, a).value, gi, nw)
  }

  lemma GrammarStep(g: Grammar, i: nat, gi: Grammar, rules: Rules)
    requires DistinctKeys(g) && i < |g| && GrammarProgress(g, i, gi)
    ensures GrammarProgress(g, i + 1, Put(gi, g[i].0, rules))
    ensures forall a :: 0 <= a < |g| && a != i ==> Lookup(Put(gi, g[i].0, rules), g[a].0) == Lookup(gi, g[a].0)
    ensures Lookup(Put(gi, g[i].0, rules), g[i].0) == rules
  {
    var N := g[i].0;
    assert N in Keys(gi) by {
      assert Keys(g)[i] == N;
    }
    PutKeys(gi, N, rules);
    PutLookup(gi, N, rules);
    assert forall a :: 0 <= a < |g| && a != i ==> g[a].0 != N;
  }

  lemma FreshStep(g: Grammar, i: nat, nw: Grammar, rw: Rewrite)
    requires DistinctKeys(g) && i < |g| && FreshProgress(g, i, nw)
    requires rw.primed.Some? ==> PrimedRules(Prime(g[i].0), rw.primed.value)
    ensures FreshProgress(g, i + 1, NextFresh(nw, g[i].0, rw))
    ensures Prime(g[i].0) !in Keys(nw)
    ensures forall a :: 0 <= a < i ==> Prime(g[a].0) != Prime(g[i].0)
    ensures forall x :: x != Prime(g[i].0) ==>
              (x in Keys(NextFresh(nw, g[i].0, rw)) <==> x in Keys(nw)) &&
              Lookup(NextFresh(nw, g[i].0, rw), x) == Lookup(nw, x)
  {
    var N := g[i].0;
    var nw' := NextFresh(nw, N, rw);
    forall a | 0 <= a < i ensures Prime(g[a].0) != Prime(N) {
      if Prime(g[a].0) == Prime(N) {
        PrimeInjective(g[a].0, N);
      }
    }
    assert Prime(N) !in Keys(nw);
    if rw.primed.Some? {
      PutKeys(nw, Prime(N), rw.primed.value);
      PutLookup(nw, Prime(N), rw.primed.value);
    }
    forall x | x in Keys(nw') ensures FreshOf(g, i + 1, x) {
      if x != Prime(N) {
        assert x in Keys(nw);
      }
    }
  }

  lemma DoneStep(g: Grammar, i: nat, gi: Grammar, nw: Grammar, rw: Rewrite)
    requires DistinctKeys(g) && i < |g| && GrammarProgress(g, i, gi) && FreshProgress(g, i, nw)
    requires DoneProgress(g, i, gi, nw)
    requires Plain(g[i].0, rw.rules)
    requires rw.primed.Some? ==> EndsWithAll(rw.rules, Prime(g[i].0)) && PrimedRules(Prime(g[i].0), rw.primed.value)
    ensures DoneProgress(g, i + 1, Put(gi, g[i].0, rw.rules), NextFresh(nw, g[i].0, rw))
  {
    var N := g[i].0;
    var gi' := Put(gi, N, rw.rules);
    var nw' := NextFresh(nw, N, rw);
    GrammarStep(g, i, gi, rw.rules);
    FreshStep(g, i, nw, rw);
    if rw.primed.Some? {
      PutLookup(nw, Prime(N), rw.primed.value);
      PutKeys(nw, Prime(N), rw.primed.value);
    }
    forall a | 0 <= a < i + 1 && a < |g| ensures Done(g[a].0, Lookup(gi', g[a].0), nw') {
      if a < i {
        assert Done(g[a].0, Lookup(gi, g[a].0), nw);
      }
    }
  }

  /** What is known after the first `i` keys have been processed. */
  lemma {:induction false} EliminatedFacts(g: Grammar, i: nat, st: (Grammar, Grammar))
    requires DistinctKeys(g) && i <= |g| && Eliminated(g, Keys(g), i) == Some(st)
    ensures GrammarProgress(g, i, st.0) && FreshProgress(g, i, st.1) && DoneProgress(g, i, st.0, st.1)
    decreases i
  {
    if i > 0 {
      var nts := Keys(g);
      var prev := Eliminated(g, nts, i - 1).value;
      EliminatedStep(g, nts, i - 1, prev);
      AdvanceSome(prev.0, prev.1, nts, i - 1);
      var rw := EliminateAt(prev.0, nts, i - 1).value;
      assert st == (Put(prev.0, nts[i - 1], rw.rules), NextFresh(prev.1, nts[i - 1], rw));
      EliminateAtShape(prev.0, nts, i - 1);
      EliminatedFacts(g, i - 1, prev);
      ProgressStep(g, i - 1, prev.0, prev.1, nts[i - 1], rw);
    }
  }

  lemma ContentStep(g: Grammar, i: nat, gi: Grammar, nw: Grammar, rw: Rewrite)
    requires DistinctKeys(g) && i < |g| && GrammarProgress(g, i, gi) && FreshProgress(g, i, nw)
    requires ContentProgress(g, i, gi, nw) && RewriteAt(g, i) == Some(rw)
    requires rw.primed.Some? ==> PrimedRules(Prime(g[i].0), rw.primed.value)
    ensures ContentProgress(g, i + 1, Put(gi, g[i].0, rw.rules), NextFresh(nw, g[i].0, rw))
  {
    var N := g[i].0;
    var gi' := Put(gi, N, rw.rules);
    var nw' := NextFresh(nw, N, rw);
    GrammarStep(g, i, gi, rw.rules);
    FreshStep(g, i, nw, rw);
    if rw.primed.Some? {
      PutKeys(nw, Prime(N), rw.primed.value);
      PutLookup(nw, Prime(N), rw.primed.value);
    }
    assert StepContent(N, rw, gi', nw');
    forall a | 0 <= a < i ensures RewriteAt(g, a).Some? && StepContent(g[a].0, RewriteAt(g, a).value, gi', nw') {
      var M := g[a].0;
      assert StepContent(M, RewriteAt(g, a).value, gi, nw);
      assert Prime(M) != Prime(N);
      StepContentFrame(M, RewriteAt(g, a).value, gi, nw, gi', nw');
    }
  }

  /** A key's content carries over to states that agree with the old ones on the key and on its fresh symbol. */
  lemma StepContentFrame(M: Symbol, rw: Rewrite, gi: Grammar, nw: Grammar, gi': Grammar, nw': Grammar)
    requires StepContent(M, rw, gi, nw)
    requires Lookup(gi', M) == Lookup(gi, M)
    requires Prime(M) in Keys(nw') <==> Prime(M) in Keys(nw)
    requires Lookup(nw', Prime(M)) == Lookup(nw, Prime(M))
    ensures StepContent(M, rw, gi', nw')
  {
  }

  /** What the first `i` keys hold once processed. */
  lemma {:induction false} EliminatedContent(g: Grammar, i: nat, st: (Grammar, Grammar))
    requires DistinctKeys(g) && i <= |g| && Eliminated(g, Keys(g), i) == Some(st)
    ensures ContentProgress(g, i, st.0, st.1)
    decreases i
  {
    if i > 0 {
      var nts := Keys(g);
      var prev := Eliminated(g, nts, i - 1).value;
      EliminatedStep(g, nts, i - 1, prev);
      AdvanceSome(prev.0, prev.1, nts, i - 1);
      var rw := EliminateAt(prev.0, nts, i - 1).value;
      assert RewriteAt(g, i - 1) == Some(rw);
      assert st == (Put(prev.0, nts[i - 1], rw.rules), NextFresh(prev.1, nts[i - 1], rw));
      EliminateAtShape(prev.0, nts, i - 1);
      EliminatedFacts(g, i - 1, prev);
      EliminatedContent(g, i - 1, prev);
      ContentStep(g, i - 1, prev.0, prev.1, rw);
    }
  }

  lemma ProgressStep(g: Grammar, i: nat, gi: Grammar, nw: Grammar, N: Symbol, rw: Rewrite)
    requires DistinctKeys(g) && i < |g| && N == g[i].0
    requires GrammarProgress(g, i, gi) && FreshProgress(g, i, nw) && DoneProgress(g, i, gi, nw)
    requires Plain(N, rw.rules)
    requires rw.primed.Some? ==> EndsWithAll(rw.rules, Prime(N)) && PrimedRules(Prime(N), rw.primed.value)
    ensures GrammarProgress(g, i + 1, Put(gi, N, rw.rules))
    ensures FreshProgress(g, i + 1, NextFresh(nw, N, rw))
    ensures DoneProgress(g, i + 1, Put(gi, N, rw.rules), NextFresh(nw, N, rw))
  {
    GrammarStep(g, i, gi, rw.rules);
    FreshStep(g, i, nw, rw);
    DoneStep(g, i, gi, nw, rw);
  }

  /** Every production of the rewritten grammar has a first symbol. */
  lemma LeftRecursionNonEmpty(g: Grammar)
    requires DistinctKeys(g) && LeftRecursionResult(g).Some?
    ensures DistinctKeys(LeftRecursionResult(g).value)
    ensures AllNonEmpty(LeftRecursionResult(g).value)
    ensures forall x :: x in Keys(g) ==> x in Keys(LeftRecursionResult(g).value)
  {
    var (gn, nw) := Eliminated(g, Keys(g), |g|).value;
    EliminatedFacts(g, |g|, (gn, nw));
    MergedNonEmpty(g, gn, nw);
    assert LeftRecursionResult(g).value == UpdateAll(gn, nw);
  }

  lemma MergedNonEmpty(g: Grammar, gn: Grammar, nw: Grammar)
    requires GrammarProgress(g, |g|, gn) && FreshProgress(g, |g|, nw) && DoneProgress(g, |g|, gn, nw)
    ensures DistinctKeys(UpdateAll(gn, nw))
    ensures AllNonEmpty(UpdateAll(gn, nw))
    ensures forall x :: x in Keys(g) ==> x in Keys(UpdateAll(gn, nw))
  {
    var h := UpdateAll(gn, nw);
    UpdateAllKeys(gn, nw);
    UpdateAllLookup(gn, nw);
    forall a, b | 0 <= a < |h| && 0 <= b < |h[a].1| ensures |h[a].1[b]| > 0 {
      LookupAt(h, a);
      EntryNonEmpty(g, gn, nw, h[a].0);
    }
  }

  lemma EntryNonEmpty(g: Grammar, gn: Grammar, nw: Grammar, x: Symbol)
    requires GrammarProgress(g, |g|, gn) && FreshProgress(g, |g|, nw) && DoneProgress(g, |g|, gn, nw)
    requires x in Keys(gn) || x in Keys(nw)
    ensures NonEmptyRules(if x in Keys(nw) then Lookup(nw, x) else Lookup(gn, x))
  {
    if x in Keys(nw) {
      assert PrimedRules(x, Lookup(nw, x));
    } else {
      var c :| 0 <= c < |g| && Keys(g)[c] == x;
      assert Done(g[c].0, Lookup(gn, g[c].0), nw);
      var rules := Lookup(gn, x);
      assert forall m :: 0 <= m < |rules| ==> rules[m] in rules;
    }
  }

  /** `h` keeps the keys of `g` first and in order, and adds only fresh symbols of keys of `g` after them. */
  ghost predicate KeepsKeys(g: Grammar, h: Grammar)
  {
    && |g| <= |h| && Keys(h)[..|g|] == Keys(g)
    && forall b :: |g| <= b < |h| ==> FreshOf(g, |g|, h[b].0)
  }

  /**
    No production of a key N of `g` is empty or begins with N in `h`, and where
    `h` has the fresh N', every production of N ends with N' and those of N'
    have the primed shape.
   */
  ghost predicate ShapedRules(g: Grammar, h: Grammar)
  {
    && (forall N :: N in Keys(g) ==> Plain(N, Lookup(h, N)))
    && (forall N :: N in Keys(g) && Prime(N) in Keys(h) ==>
          EndsWithAll(Lookup(h, N), Prime(N)) && PrimedRules(Prime(N), Lookup(h, Prime(N))))
  }

  /**
    Every original key N holds in `h` the productions its own rewrite gave it
    (`RewriteAt`, whose content `EliminateAtContent` states), and `h` has the
    fresh N' exactly when that rewrite made one, with the rewrite's productions
    for it.
   */
  ghost predicate RewrittenAs(g: Grammar, h: Grammar)
  {
    forall a :: 0 <= a < |g| ==> RewriteAt(g, a).Some? && StepContent(g[a].0, RewriteAt(g, a).value, h, h)
  }

  /**
    When no original key N has its fresh symbol N' among the original keys,
    the rewritten grammar keeps the original keys first and in order, adds only
    fresh symbols after them, and every original key and fresh symbol has the
    shape of `ShapedRules`.
   */
  lemma LeftRecursionShape(g: Grammar)
    requires DistinctKeys(g)
    requires forall N :: N in Keys(g) ==> Prime(N) !in Keys(g)
    requires LeftRecursionResult(g).Some?
    ensures KeepsKeys(g, LeftRecursionResult(g).value)
    ensures ShapedRules(g, LeftRecursionResult(g).value)
    ensures RewrittenAs(g, LeftRecursionResult(g).value)
  {
    var (gn, nw) := Eliminated(g, Keys(g), |g|).value;
    EliminatedFacts(g, |g|, (gn, nw));
    EliminatedContent(g, |g|, (gn, nw));
    FreshDisjoint(g, gn, nw);
    UpdateAllFresh(gn, nw);
    ShapeKeys(g, gn, nw);
    ShapeDone(g, gn, nw);
    ShapeContent(g, gn, nw);
    assert LeftRecursionResult(g).value == gn + nw;
  }

  /** Fresh symbols of keys of `g` are not keys of `g`, nor of a grammar with the same keys. */
  lemma FreshDisjoint(g: Grammar, gn: Grammar, nw: Grammar)
    requires forall N :: N in Keys(g) ==> Prime(N) !in Keys(g)
    requires Keys(gn) == Keys(g)
    requires forall x :: x in Keys(nw) ==> FreshOf(g, |g|, x)
    ensures DisjointKeys(gn, nw)
    ensures forall x :: x in Keys(nw) ==> x !in Keys(g)
  {
    forall x | x in Keys(nw) ensures x !in Keys(g) {
      assert FreshOf(g, |g|, x);
      var a :| 0 <= a < |g| && a < |g| && x == Prime(g[a].0);
      assert g[a].0 in Keys(g);
    }
    forall i, j | 0 <= i < |gn| && 0 <= j < |nw| ensures gn[i].0 != nw[j].0 {
      assert gn[i].0 == Keys(g)[i] && gn[i].0 in Keys(g);
      assert nw[j].0 == Keys(nw)[j] && nw[j].0 in Keys(nw);
    }
  }

  /** The productions of the keys of `g` in `gn + nw`, and of their fresh symbols. */
  lemma ShapeDone(g: Grammar, gn: Grammar, nw: Grammar)
    requires DistinctKeys(gn) && DistinctKeys(nw) && Keys(gn) == Keys(g) && DisjointKeys(gn, nw)
    requires forall N :: N in Keys(g) ==> Prime(N) !in Keys(g)
    requires DoneProgress(g, |g|, gn, nw)
    ensures ShapedRules(g, gn + nw)
  {
    UpdateAllFresh(gn, nw);
    UpdateAllLookup(gn, nw);
    KeysAppend(gn, nw);
    forall N | N in Keys(g) ensures Done(N, Lookup(gn + nw, N), nw) {
      var c :| 0 <= c < |g| && Keys(g)[c] == N;
      assert Done(g[c].0, Lookup(gn, g[c].0), nw);
      assert N !in Keys(nw) by {
        DisjointNotIn(gn, nw, c);
      }
    }
    forall N | N in Keys(g) && Prime(N) in Keys(gn + nw) ensures Prime(N) in Keys(nw) {
      assert Prime(N) !in Keys(gn);
    }
  }

  /** The rewrites recorded in `gn` and `nw` are those of `gn + nw`. */
  lemma ShapeContent(g: Grammar, gn: Grammar, nw: Grammar)
    requires DistinctKeys(gn) && DistinctKeys(nw) && Keys(gn) == Keys(g) && DisjointKeys(gn, nw)
    requires forall N :: N in Keys(g) ==> Prime(N) !in Keys(g)
    requires ContentProgress(g, |g|, gn, nw)
    ensures RewrittenAs(g, gn + nw)
  {
    UpdateAllFresh(gn, nw);
    UpdateAllLookup(gn, nw);
    KeysAppend(gn, nw);
    forall a | 0 <= a < |g| ensures RewriteAt(g, a).Some? && StepContent(g[a].0, RewriteAt(g, a).value, gn + nw, gn + nw) {
      var N := g[a].0;
      assert StepContent(N, RewriteAt(g, a).value, gn, nw);
      assert N in Keys(g) by {
        assert Keys(g)[a] == N;
      }
      assert N !in Keys(nw) by {
        DisjointNotIn(gn, nw, a);
        assert gn[a].0 == Keys(gn)[a];
      }
      assert Prime(N) !in Keys(gn);
    }
  }

  /** The keys of `gn + nw`: those of `g` first, then fresh symbols of keys of `g`. */
  lemma ShapeKeys(g: Grammar, gn: Grammar, nw: Grammar)
    requires Keys(gn) == Keys(g)
    requires forall x :: x in Keys(nw) ==> FreshOf(g, |g|, x)
    ensures KeepsKeys(g, gn + nw)
  {
    var h := gn + nw;
    assert |gn| == |g|;
    assert Keys(h)[..|g|] == Keys(g) by {
      forall i | 0 <= i < |g| ensures Keys(h)[i] == Keys(g)[i] {
        assert h[i] == gn[i];
      }
    }
    forall b | |g| <= b < |h| ensures FreshOf(g, |g|, h[b].0) {
      assert h[b] == nw[b - |g|];
      assert h[b].0 == Keys(nw)[b - |g|];
    }
  }

  // ---------------------------------------------------------------------
  // The fixed range of lines 36-41

  /**
    After a deletion the production shifted into the deleted slot is skipped:
    in [[A, x], [A, y]] only the first A-production is substituted.
   */
  lemma SkippedProduction()
    ensures SubstituteFrom([["A", "x"], ["A", "y"]], "A", [["b"]], 0, 2) == Some([["A", "y"], ["b", "x"]])
  {
    var spliced := Splice([["b"]], ["A", "x"]);
    assert |spliced| == 1;
    assert ["A", "x"][1..] == ["x"];
    assert spliced[0] == ["b"] + ["x"];
    assert ["b"] + ["x"] == ["b", "x"];
    assert spliced == [["b", "x"]];
    var once := [["A", "y"], ["b", "x"]];
    assert [["A", "x"], ["A", "y"]][..0] + [["A", "x"], ["A", "y"]][1..] + [["b", "x"]] == once;
  }

  /** Substituting a nonterminal without productions shrinks the list under the fixed range: IndexError. */
  lemma SubstituteNothing()
    ensures SubstituteFrom([["A", "x"], ["c"]], "A", [], 0, 2) == None
  {
    assert Splice([], ["A", "x"]) == [];
    assert [["A", "x"], ["c"]][..0] + [["A", "x"], ["c"]][1..] + [] == [["c"]];
  }

  /** When the substituted productions are non-empty and there is at least one, the range never overruns. */
  lemma {:induction false} SubstituteDefined(pi: Rules, nj: Symbol, pj: Rules, k: nat, n: nat)
    requires NonEmptyRules(pi) && NonEmptyRules(pj) && |pj| > 0 && n <= |pi|
    ensures SubstituteFrom(pi, nj, pj, k, n).Some?
    ensures NonEmptyRules(SubstituteFrom(pi, nj, pj, k, n).value)
    decreases n - k
  {
    if k < n && pi[k][0] == nj {
      var next := pi[..k] + pi[k + 1..] + Splice(pj, pi[k]);
      assert NonEmptyRules(next) by {
        forall x | 0 <= x < |next| ensures |next[x]| > 0 {
          if x < k {
            assert next[x] == pi[x];
          } else if x < |pi| - 1 {
            assert next[x] == pi[x + 1];
          }
        }
      }
      SubstituteDefined(next, nj, pj, k + 1, n);
    } else if k < n {
      SubstituteDefined(pi, nj, pj, k + 1, n);
    }
  }

  /** Substitution deletes only productions beginning with `nj`: every other production stays. */
  lemma {:induction false} SubstituteKeeps(pi: Rules, nj: Symbol, pj: Rules, k: nat, n: nat)
    requires SubstituteFrom(pi, nj, pj, k, n).Some?
    ensures forall p :: p in pi && |p| > 0 && p[0] != nj ==> p in SubstituteFrom(pi, nj, pj, k, n).value
    decreases n - k
  {
    if k < n && pi[k][0] == nj {
      var next := pi[..k] + pi[k + 1..] + Splice(pj, pi[k]);
      SubstituteKeeps(next, nj, pj, k + 1, n);
      forall p | p in pi && |p| > 0 && p[0] != nj ensures p in next {
        var x :| 0 <= x < |pi| && pi[x] == p;
        if x < k {
          assert next[x] == p;
        } else {
          assert x != k;
          assert next[x - 1] == p;
        }
      }
    } else if k < n {
      SubstituteKeeps(pi, nj, pj, k + 1, n);
    }
  }
}
