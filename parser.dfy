/**
  The parser object built by the constructor (lines 9-27): left-recursion
  elimination on the grammar, symbol classification of the result, FIRST,
  FOLLOW and the analysis table.  The object is not changed after it is
  built, so it is a value here; the recogniser runs on its nonterminals and
  table.  The constructor fails where the source would fail: an IndexError
  inside left_recursion, or a FIRST loop that would never leave.
 */
module LL1Parser {
  import opened Symbols
  import opened LeftRecursion
  import opened Classification
  import opened FirstSets
  import opened FollowSets
  import opened ParseTable
  import opened Recognizer

  datatype Parser = Parser(
    begin: Symbol,
    grammar: Grammar,
    terminals: set<Symbol>,
    nonTerminals: set<Symbol>,
    first: SetMap,
    seqFirst: SeqFirstMap,
    follow: SetMap,
    table: Table)

  datatype Fault =
    | IndexError        // left_recursion indexes past a list (lines 37-39, 45)
    | FirstDiverges     // get_first_set's loop never finds a pass that leaves its flag set

  datatype Built = Ready(parser: Parser) | Failed(fault: Fault)

  /** `F` is the least FIRST map closed under the productions of `g`. */
  ghost predicate LeastFirst(g: Grammar, T: set<Symbol>, NT: set<Symbol>, F: SetMap)
    requires AllNonEmpty(g)
  {
    Closed(T, NT, g, F) && forall F' :: Closed(T, NT, g, F') ==> Below(F, F')
  }

  /** Two least FIRST maps agree on every entry, so on which productions spin. */
  lemma LeastSpins(g: Grammar, T: set<Symbol>, NT: set<Symbol>, F1: SetMap, F2: SetMap)
    requires AllNonEmpty(g) && LeastFirst(g, T, NT, F1) && LeastFirst(g, T, NT, F2)
    ensures forall k :: Get(F1, k) == Get(F2, k)
    ensures NoSpin(NT, g, F1) == NoSpin(NT, g, F2)
  {
    assert Below(F1, F2) && Below(F2, F1);
    forall a, b | 0 <= a < |g| && 0 <= b < |g[a].1| ensures Spins(NT, F1, g[a].1[b]) == Spins(NT, F2, g[a].1[b]) {
      var p := g[a].1[b];
      assert NullablePrefix(F1, p, |p|) == NullablePrefix(F2, p, |p|);
    }
  }

  /** What every stage guarantees about the parts of a parser once it is built. */
  ghost predicate Assembled(p: Parser)
  {
    && DistinctKeys(p.grammar) && AllNonEmpty(p.grammar)
    && End in p.terminals
    && (forall s :: s in p.nonTerminals <==> exists r :: r in p.grammar && r.0 == s)
    && Bounded(p.nonTerminals, Universe(p.terminals), p.first)
    && LeastFirst(p.grammar, p.terminals, p.nonTerminals, p.first)
    && NoSpin(p.nonTerminals, p.grammar, p.first)
    && (forall s :: s in p.seqFirst <==> IsSuffix(p.grammar, s))
    && (forall s :: s in p.seqFirst ==> |s| > 0 && p.seqFirst[s] == SeqFirst(p.terminals, p.first, s))
    && FollowClosed(p.grammar, p.terminals, p.seqFirst, p.begin, p.follow)
    && (forall F :: FollowClosed(p.grammar, p.terminals, p.seqFirst, p.begin, F) ==> Below(p.follow, F))
    && (forall k :: Eps !in Get(p.follow, k))
    && (forall A, t :: Cell(p.table, A, t) ==
          if A in p.nonTerminals then LastClaim(p.seqFirst, p.follow, A, Lookup(p.grammar, A), t) else None)
  }

  /**
    Parser.__init__ (lines 9-27).  It fails with IndexError exactly when
    left-recursion elimination does; it fails with FirstDiverges only when the
    least FIRST map of the rewritten grammar leaves some production wholly
    nullable behind a nonterminal; otherwise the parser holds the rewritten
    grammar, the symbols classified by `upper`, and the FIRST, FOLLOW and table
    the stages compute.
   */
  method NewParser(begin: Symbol, g: Grammar, upper: Symbol -> bool) returns (r: Built)
    requires DistinctKeys(g)
    ensures r == Failed(IndexError) <==> LeftRecursionResult(g).None?
    ensures LeftRecursionResult(g).Some? ==>
      var h := LeftRecursionResult(g).value;
      && AllNonEmpty(h)
      && (exists F :: LeastFirst(h, Terminals(h, upper), KeySet(h), F))
      && forall F :: LeastFirst(h, Terminals(h, upper), KeySet(h), F) ==>
           (r == Failed(FirstDiverges) <==> !NoSpin(KeySet(h), h, F))
    ensures r.Ready? ==>
      && LeftRecursionResult(g).Some?
      && r.parser.begin == begin
      && r.parser.grammar == LeftRecursionResult(g).value
      && r.parser.terminals == Terminals(r.parser.grammar, upper)
      && r.parser.nonTerminals == KeySet(r.parser.grammar)
      && (forall x :: x in Keys(g) ==> x in Keys(r.parser.grammar))
      && (forall s :: s in r.parser.terminals ==> s == End || (s in Alphabet(r.parser.grammar) && !upper(s)))
      && (forall e, q, s :: e in r.parser.grammar && q in e.1 && s in q && !upper(s) ==> s in r.parser.terminals)
      && Assembled(r.parser)
  {
    var h := EliminateLeftRecursion(g);
    if h.None? {
      return Failed(IndexError);
    }
    var grammar := h.value;
    LeftRecursionNonEmpty(g);
    var terminals, nonTerminals := Classify(grammar, upper);
    forall a | 0 <= a < |grammar| ensures grammar[a].0 in nonTerminals {
      assert grammar[a] in grammar;
    }
    var first, converged := FirstFixpoint(grammar, terminals, nonTerminals);
    assert LeastFirst(grammar, terminals, nonTerminals, first);
    forall F | LeastFirst(grammar, terminals, nonTerminals, F)
      ensures NoSpin(nonTerminals, grammar, F) == NoSpin(nonTerminals, grammar, first)
    {
      LeastSpins(grammar, terminals, nonTerminals, F, first);
    }
    if !converged {
      return Failed(FirstDiverges);
    }
    var seqFirst := SequenceFirst(grammar, terminals, first);
    var follow := FollowFixpoint(grammar, terminals, seqFirst, begin);
    var table := BuildTable(grammar, nonTerminals, seqFirst, follow);
    r := Ready(Parser(begin, grammar, terminals, nonTerminals, first, seqFirst, follow, table));
  }

  // ---------------------------------------------------------------------
  // The recogniser on a built parser

  /** The run of analysis(inp) on `p` for at most `fuel` iterations. */
  function Analyse(p: Parser, inp: string, fuel: nat): (Verdict, seq<TraceRow>)
  {
    Run(p.nonTerminals, p.table, [End, p.begin], InputStack(inp), None, 0, fuel)
  }

  /** Every cell of a built parser's table is a production of its row's nonterminal. */
  lemma CellIsProduction(p: Parser, A: Symbol, t: Symbol)
    requires Assembled(p) && Cell(p.table, A, t).Some?
    ensures A in p.nonTerminals && Cell(p.table, A, t).value in Lookup(p.grammar, A)
    ensures |Cell(p.table, A, t).value| > 0
  {
    CellFromGrammar(p.table, p.grammar, p.nonTerminals, p.seqFirst, p.follow, A, t);
    var q := Cell(p.table, A, t).value;
    var i := IndexOf(p.grammar, A);
    LookupAt(p.grammar, i);
    assert q in p.grammar[i].1;
  }

  /**
    A "no productions" stop names a nonterminal on top of the stack and a
    lookahead that no production of that nonterminal selects.
   */
  lemma NoProductionUnclaimed(p: Parser, inp: string, fuel: nat)
    requires Assembled(p) && Analyse(p, inp, fuel).0.NoProduction?
    ensures var v := Analyse(p, inp, fuel).0;
      && v.nonTerminal in p.nonTerminals
      && forall q :: q in Lookup(p.grammar, v.nonTerminal) ==> v.lookahead !in Select(p.seqFirst, p.follow, v.nonTerminal, q)
  {
    var v := Analyse(p, inp, fuel).0;
    var X, a := v.nonTerminal, v.lookahead;
    RunNoProduction(p.nonTerminals, p.table, [End, p.begin], InputStack(inp), None, 0, fuel);
    if Cell(p.table, X, a).Some? {
      CellIsProduction(p, X, a);
    }
    var rules := Lookup(p.grammar, X);
    LastClaimNone(p.seqFirst, p.follow, X, rules, a);
    forall q | q in rules ensures a !in Select(p.seqFirst, p.follow, X, q) {
      var i :| 0 <= i < |rules| && rules[i] == q;
    }
  }

  /** Every production a run applies is a production of the grammar for the nonterminal it replaces. */
  lemma AppliedFromGrammar(p: Parser, inp: string, fuel: nat, i: nat)
    requires Assembled(p) && i < |Analyse(p, inp, fuel).1|
    requires Analyse(p, inp, fuel).1[i].applied.Some?
    ensures var ap := Analyse(p, inp, fuel).1[i].applied.value;
      ap.lhs in p.nonTerminals && ap.rhs in Lookup(p.grammar, ap.lhs)
  {
    var rows := Analyse(p, inp, fuel).1;
    RunRows(p.nonTerminals, p.table, [End, p.begin], InputStack(inp), None, 0, fuel);
    RunChained(p.nonTerminals, p.table, [End, p.begin], InputStack(inp), None, 0, fuel);
    assert i > 0;
    var prev := rows[i - 1];
    assert Step(p.nonTerminals, p.table, prev.symbols, prev.inputs) == Next(rows[i].symbols, rows[i].inputs, rows[i].applied);
    var ap := rows[i].applied.value;
    var a := prev.inputs[|prev.inputs| - 1];
    assert Cell(p.table, ap.lhs, a) == Some(ap.rhs);
    CellIsProduction(p, ap.lhs, a);
  }
}
