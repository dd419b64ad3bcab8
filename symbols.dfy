/**
  Symbols, productions and grammars of the LL(1) parser generator, and the
  dictionary operations the generator performs on them.

  A grammar is a Python dict from nonterminal to its list of productions; its
  key order matters to left-recursion elimination, so it is modelled as a
  sequence of (key, productions) pairs with distinct keys.  FIRST and FOLLOW
  tables are defaultdicts of sets: a lookup of an absent key yields the empty
  set (`Get`).
 */
module Symbols {

  type Symbol = string
  type Production = seq<Symbol>
  type Rules = seq<Production>
  type Grammar = seq<(Symbol, Rules)>
  type SetMap = map<Symbol, set<Symbol>>

  datatype Option<T> = None | Some(value: T)

  /** The end-of-input marker. */
  const End: Symbol := "#"

  /** The empty-string marker (U+1D73A MATHEMATICAL ITALIC SMALL EPSILON). */
  const Eps: Symbol := "\U{1D73A}"

  /** The fresh nonterminal introduced for a left-recursive nonterminal `n`. */
  function Prime(n: Symbol): Symbol
  {
    n + "'"
  }

  lemma PrimeInjective(a: Symbol, b: Symbol)
    requires Prime(a) == Prime(b)
    ensures a == b
  {
    assert a == Prime(a)[..|a|];
    assert b == Prime(b)[..|b|];
  }

  // ---------------------------------------------------------------------
  // The grammar as an ordered dictionary

  function Keys(g: Grammar): (ks: seq<Symbol>)
    ensures |ks| == |g|
    ensures forall i :: 0 <= i < |g| ==> ks[i] == g[i].0
  {
    seq(|g|, i requires 0 <= i < |g| => g[i].0)
  }

  predicate DistinctKeys(g: Grammar)
  {
    forall i, j :: 0 <= i < j < |g| ==> g[i].0 != g[j].0
  }

  /** Position of key `k` in `g`, or -1 when `k` is not a key. */
  function IndexOf(g: Grammar, k: Symbol): (r: int)
    ensures -1 <= r < |g|
    ensures r >= 0 ==> g[r].0 == k && forall i :: 0 <= i < r ==> g[i].0 != k
    ensures r < 0 ==> forall i :: 0 <= i < |g| ==> g[i].0 != k
  {
    if |g| == 0 then -1
    else if g[0].0 == k then 0
    else
      var r := IndexOf(g[1..], k);
      if r < 0 then -1 else r + 1
  }

  /** `g[k]`; every caller in the generator looks up a key that is present. */
  function Lookup(g: Grammar, k: Symbol): Rules
  {
    var i := IndexOf(g, k);
    if i < 0 then [] else g[i].1
  }

  /** Dictionary assignment `g[k] = v`: an existing key keeps its position. */
  function Put(g: Grammar, k: Symbol, v: Rules): Grammar
  {
    var i := IndexOf(g, k);
    if i < 0 then g + [(k, v)] else g[i := (k, v)]
  }

  /** The dictionary merge of `nw` into `g`: the entries of `nw` are assigned one by one, in order. */
  function UpdateAll(g: Grammar, nw: Grammar): Grammar
    decreases |nw|
  {
    if nw == [] then g else UpdateAll(Put(g, nw[0].0, nw[0].1), nw[1..])
  }

  /** Where `Put` leaves the key: at its old position, or appended. */
  lemma IndexOfPut(g: Grammar, k: Symbol, v: Rules)
    ensures IndexOf(Put(g, k, v), k) == if IndexOf(g, k) < 0 then |g| else IndexOf(g, k)
  {
    var h := Put(g, k, v);
    var i := IndexOf(g, k);
    var j := if i < 0 then |g| else i;
    assert h[j].0 == k;
    assert forall a :: 0 <= a < j ==> h[a] == g[a];
  }

  /** A second assignment to the same key overrides the first. */
  lemma PutPut(g: Grammar, k: Symbol, v: Rules, w: Rules)
    ensures Put(Put(g, k, v), k, w) == Put(g, k, w)
    ensures Lookup(Put(g, k, v), k) == v
  {
    IndexOfPut(g, k, v);
  }

  /** Assigning a key that is not present appends it. */
  lemma PutFresh(g: Grammar, k: Symbol, v: Rules)
    requires k !in Keys(g)
    ensures Put(g, k, v) == g + [(k, v)]
  {
    assert forall i :: 0 <= i < |g| ==> Keys(g)[i] != k;
  }

  lemma KeysAppend(g: Grammar, h: Grammar)
    ensures Keys(g + h) == Keys(g) + Keys(h)
  {
  }

  lemma DistinctKeysTail(g: Grammar)
    requires DistinctKeys(g) && g != []
    ensures DistinctKeys(g[1..])
  {
  }

  /** No key of `g` is a key of `h`. */
  ghost predicate DisjointKeys(g: Grammar, h: Grammar)
  {
    forall i, j :: 0 <= i < |g| && 0 <= j < |h| ==> g[i].0 != h[j].0
  }

  lemma DisjointHead(g: Grammar, h: Grammar)
    requires DisjointKeys(g, h) && h != []
    ensures h[0].0 !in Keys(g)
  {
  }

  lemma DisjointNotIn(g: Grammar, h: Grammar, i: nat)
    requires DisjointKeys(g, h) && i < |g|
    ensures g[i].0 !in Keys(h)
  {
  }

  /** Moving the first entry of `h` to the end of `g` keeps the two disjoint. */
  lemma DisjointShift(g: Grammar, h: Grammar)
    requires DistinctKeys(h) && DisjointKeys(g, h) && h != []
    ensures DisjointKeys(g + [h[0]], h[1..])
  {
  }

  lemma LookupAt(g: Grammar, i: nat)
    requires DistinctKeys(g) && i < |g|
    ensures IndexOf(g, g[i].0) == i && Lookup(g, g[i].0) == g[i].1
  {
  }

  /** `Put` keeps the keys distinct and appends the key only when it is new. */
  lemma PutKeys(g: Grammar, k: Symbol, v: Rules)
    requires DistinctKeys(g)
    ensures DistinctKeys(Put(g, k, v))
    ensures Keys(Put(g, k, v)) == if k in Keys(g) then Keys(g) else Keys(g) + [k]
  {
    var h := Put(g, k, v);
    if IndexOf(g, k) >= 0 {
      assert k in Keys(g);
      assert Keys(h) == Keys(g);
    } else {
      assert k !in Keys(g);
      assert Keys(h) == Keys(g) + [k];
    }
  }

  /** After `Put`, the key maps to the new productions and every other key is unchanged. */
  lemma PutLookup(g: Grammar, k: Symbol, v: Rules)
    requires DistinctKeys(g)
    ensures forall x :: Lookup(Put(g, k, v), x) == if x == k then v else Lookup(g, x)
  {
    var h := Put(g, k, v);
    var i := IndexOf(g, k);
    PutKeys(g, k, v);
    forall x ensures Lookup(h, x) == if x == k then v else Lookup(g, x) {
      var j := IndexOf(g, x);
      if x == k {
        LookupAt(h, if i >= 0 then i else |g|);
      } else if j >= 0 {
        LookupAt(h, j);
      } else {
        assert forall a :: 0 <= a < |h| ==> h[a].0 != x;
      }
    }
  }

  /** The entries of `g` after the first have the same productions in `g[1..]`. */
  lemma LookupTail(g: Grammar)
    requires DistinctKeys(g) && g != []
    ensures Lookup(g, g[0].0) == g[0].1
    ensures forall x :: x in Keys(g[1..]) ==> Lookup(g[1..], x) == Lookup(g, x)
  {
    LookupAt(g, 0);
    DistinctKeysTail(g);
    forall x | x in Keys(g[1..]) ensures Lookup(g[1..], x) == Lookup(g, x) {
      var b :| 0 <= b < |g[1..]| && Keys(g[1..])[b] == x;
      LookupAt(g[1..], b);
      LookupAt(g, b + 1);
    }
  }

  /** `Keys(nw)` is its first key followed by the keys of the rest. */
  lemma KeysCons(nw: Grammar)
    requires nw != []
    ensures Keys(nw) == [nw[0].0] + Keys(nw[1..])
  {
  }

  lemma {:induction false} UpdateAllKeys(g: Grammar, nw: Grammar)
    requires DistinctKeys(g)
    ensures DistinctKeys(UpdateAll(g, nw))
    ensures forall x :: x in Keys(UpdateAll(g, nw)) <==> x in Keys(g) || x in Keys(nw)
    decreases |nw|
  {
    if nw != [] {
      PutKeys(g, nw[0].0, nw[0].1);
      UpdateAllKeys(Put(g, nw[0].0, nw[0].1), nw[1..]);
      KeysCons(nw);
    }
  }

  lemma {:induction false} UpdateAllLookup(g: Grammar, nw: Grammar)
    requires DistinctKeys(g) && DistinctKeys(nw)
    ensures forall x :: Lookup(UpdateAll(g, nw), x) == if x in Keys(nw) then Lookup(nw, x) else Lookup(g, x)
    decreases |nw|
  {
    if nw != [] {
      var k, v, rest := nw[0].0, nw[0].1, nw[1..];
      PutKeys(g, k, v);
      PutLookup(g, k, v);
      UpdateAllLookup(Put(g, k, v), rest);
      KeysCons(nw);
      DistinctKeysTail(nw);
      LookupTail(nw);
    }
  }

  /** Entries under keys that are all new are appended, in order. */
  lemma {:induction false} UpdateAllFresh(g: Grammar, nw: Grammar)
    requires DistinctKeys(nw) && DisjointKeys(g, nw)
    ensures UpdateAll(g, nw) == g + nw
    decreases |nw|
  {
    if nw != [] {
      DisjointHead(g, nw);
      PutFresh(g, nw[0].0, nw[0].1);
      DistinctKeysTail(nw);
      DisjointShift(g, nw);
      UpdateAllFresh(g + [nw[0]], nw[1..]);
      assert g + [nw[0]] + nw[1..] == g + nw;
    }
  }

  // ---------------------------------------------------------------------
  // Symbols occurring in a grammar

  function KeySet(g: Grammar): set<Symbol>
  {
    set r | r in g :: r.0
  }

  ghost function Alphabet(g: Grammar): set<Symbol>
  {
    set r, p, s | r in g && p in r.1 && s in p :: s
  }

  /** Every production has a first symbol (the source indexes `production[0]`). */
  ghost predicate AllNonEmpty(g: Grammar)
  {
    forall a, b :: 0 <= a < |g| && 0 <= b < |g[a].1| ==> |g[a].1[b]| > 0
  }

  /** Productions (a, b) visited before position (n, m) of a pass over `g`. */
  ghost predicate Visited(g: Grammar, a: int, b: int, n: int, m: int)
  {
    0 <= a < |g| && 0 <= b < |g[a].1| && (a < n || (a == n && b < m))
  }

  // ---------------------------------------------------------------------
  // Maps from symbols to sets of symbols (defaultdict(set))

  function Get(m: SetMap, k: Symbol): set<Symbol>
  {
    if k in m then m[k] else {}
  }

  /** Adds the symbols `S` to the set of `k`, a missing key reading as the empty set. */
  function AddTo(m: SetMap, k: Symbol, S: set<Symbol>): SetMap
  {
    m[k := Get(m, k) + S]
  }

  /** `F1` is pointwise contained in `F2`. */
  ghost predicate Below(F1: SetMap, F2: SetMap)
  {
    forall k :: Get(F1, k) <= Get(F2, k)
  }

  /** Keys of `F` lie in `K` and every entry lies in `U`. */
  ghost predicate Bounded(K: set<Symbol>, U: set<Symbol>, F: SetMap)
  {
    forall k :: k in F ==> k in K && F[k] <= U
  }

  /** The pairs (k, t) of K x U still absent from `F`: the measure of a fixed-point loop. */
  ghost function Missing(K: set<Symbol>, U: set<Symbol>, F: SetMap): set<(Symbol, Symbol)>
  {
    set k, t | k in K && t in U && t !in Get(F, k) :: (k, t)
  }

  lemma MissingAntitone(K: set<Symbol>, U: set<Symbol>, F1: SetMap, F2: SetMap)
    requires Below(F1, F2)
    ensures Missing(K, U, F2) <= Missing(K, U, F1)
  {
    forall pr | pr in Missing(K, U, F2) ensures pr in Missing(K, U, F1) {
      var (k, t) := pr;
      assert Get(F1, k) <= Get(F2, k);
    }
  }

  /** Adding the entries `S` to `F[k]` keeps the bounds and, if one is new, shrinks the measure. */
  lemma AddEntries(K: set<Symbol>, U: set<Symbol>, F: SetMap, k: Symbol, S: set<Symbol>)
    requires Bounded(K, U, F) && k in K && S <= U
    ensures Bounded(K, U, AddTo(F, k, S))
    ensures Below(F, AddTo(F, k, S))
    ensures Missing(K, U, AddTo(F, k, S)) <= Missing(K, U, F)
    ensures S - Get(F, k) != {} ==> Missing(K, U, AddTo(F, k, S)) < Missing(K, U, F)
  {
    var F' := AddTo(F, k, S);
    assert Below(F, F') by {
      forall x ensures Get(F, x) <= Get(F', x) {
      }
    }
    MissingAntitone(K, U, F, F');
    if S - Get(F, k) != {} {
      var t :| t in S - Get(F, k);
      assert (k, t) in Missing(K, U, F);
      assert (k, t) !in Missing(K, U, F');
    }
  }

  /** Adding entries that `F` already has keeps `F` above the result. */
  lemma AddBelow(f: SetMap, F: SetMap, k: Symbol, S: set<Symbol>)
    requires Below(f, F) && S <= Get(F, k)
    ensures Below(AddTo(f, k, S), F)
  {
    forall x ensures Get(AddTo(f, k, S), x) <= Get(F, x) {
      assert Get(f, x) <= Get(F, x);
    }
  }

  // ---------------------------------------------------------------------
  // Sequence helpers

  function Reverse<T>(s: seq<T>): (r: seq<T>)
    ensures |r| == |s|
    ensures forall i :: 0 <= i < |s| ==> r[i] == s[|s| - 1 - i]
  {
    if s == [] then [] else Reverse(s[1..]) + [s[0]]
  }
}
