/**
  Symbol classification, run by the parser's constructor on the grammar that
  left-recursion elimination produced: the nonterminals are the grammar's keys,
  the terminals are the end marker plus every production symbol that is not
  upper case.  Upper case is Python's `str.isupper`, kept abstract as `upper`.
 */
module Classification {
  import opened Symbols

  /** The end marker and every symbol of a production of `g` that is not upper case. */
  ghost function Terminals(g: Grammar, upper: Symbol -> bool): set<Symbol>
  {
    {End} + set s | s in Alphabet(g) && !upper(s)
  }

  method Classify(g: Grammar, upper: Symbol -> bool) returns (terminals: set<Symbol>, nonTerminals: set<Symbol>)
    ensures terminals == Terminals(g, upper) && nonTerminals == KeySet(g)
    ensures End in terminals
    ensures forall r, p, s :: r in g && p in r.1 && s in p && !upper(s) ==> s in terminals
    ensures forall s :: s in terminals ==> s == End || (s in Alphabet(g) && !upper(s))
    ensures forall s :: s in nonTerminals <==> exists r :: r in g && r.0 == s
  {
    terminals := {End};
    nonTerminals := {};
    for n := 0 to |g|
      invariant End in terminals
      invariant forall a, p, s :: 0 <= a < n && p in g[a].1 && s in p && !upper(s) ==> s in terminals
      invariant forall s :: s in terminals ==> s == End || (s in Alphabet(g) && !upper(s))
      invariant forall s :: s in nonTerminals <==> exists a :: 0 <= a < n && g[a].0 == s
    {
      nonTerminals := nonTerminals + {g[n].0};
      var rules := g[n].1;
      for m := 0 to |rules|
        invariant End in terminals
        invariant forall a, p, s :: 0 <= a < n && p in g[a].1 && s in p && !upper(s) ==> s in terminals
        invariant forall b, s :: 0 <= b < m && s in rules[b] && !upper(s) ==> s in terminals
        invariant forall s :: s in terminals ==> s == End || (s in Alphabet(g) && !upper(s))
      {
        var production := rules[m];
        for q := 0 to |production|
          invariant End in terminals
          invariant forall a, p, s :: 0 <= a < n && p in g[a].1 && s in p && !upper(s) ==> s in terminals
          invariant forall b, s :: 0 <= b < m && s in rules[b] && !upper(s) ==> s in terminals
          invariant forall c :: 0 <= c < q && !upper(production[c]) ==> production[c] in terminals
          invariant forall s :: s in terminals ==> s == End || (s in Alphabet(g) && !upper(s))
        {
          var i := production[q];
          if !upper(i) {
            assert g[n] in g && production in g[n].1 && i in production;
            terminals := terminals + {i};
          }
        }
      }
    }
    forall r, p, s | r in g && p in r.1 && s in p && !upper(s) ensures s in terminals {
      var a :| 0 <= a < |g| && g[a] == r;
    }
    forall s ensures s in nonTerminals <==> exists r :: r in g && r.0 == s {
      if s in nonTerminals {
        var a :| 0 <= a < |g| && g[a].0 == s;
        assert g[a] in g;
      }
    }
  }
}
