/**
  The LL(1) analysis table (create_analysis_table).  For every nonterminal A
  and every production p of A, in order, p is written into the cell (A, t) of
  every terminal t of FIRST(p) other than the empty-string marker, and, when
  FIRST(p) holds the marker, into the cell of every symbol of FOLLOW(A).  A
  later write overwrites an earlier one, so a cell holds the LAST production of
  A claiming it; rows are independent of each other, which makes the result
  independent of the order in which the nonterminal set is iterated.
 */
module ParseTable {
  import opened Symbols
  import opened FollowSets

  type TableRow = map<Symbol, Production>
  type Table = map<Symbol, TableRow>

  /** The row of `A`, empty when absent (the inner defaultdict). */
  function Row(table: Table, A: Symbol): TableRow
  {
    if A in table then table[A] else map[]
  }

  /** `table[A][t]`, where an absent cell is the defaultdict's empty list. */
  function Cell(table: Table, A: Symbol, t: Symbol): Option<Production>
  {
    if t in Row(table, A) then Some(Row(table, A)[t]) else None
  }

  /** The columns written for `A -> p` when `done` is the part of FIRST(p) already iterated. */
  function Claimed(follow: SetMap, A: Symbol, done: set<Symbol>): set<Symbol>
  {
    (done - {Eps}) + (if Eps in done then Get(follow, A) else {})
  }

  /** The columns written for `A -> p`: its selection set. */
  function Select(SF: SeqFirstMap, follow: SetMap, A: Symbol, p: Production): set<Symbol>
  {
    Claimed(follow, A, GetSeq(SF, p))
  }

  /** The last production of `rules` whose selection set holds `t`. */
  function LastClaim(SF: SeqFirstMap, follow: SetMap, A: Symbol, rules: Rules, t: Symbol): Option<Production>
    decreases |rules|
  {
    if rules == [] then None
    else if t in Select(SF, follow, A, rules[|rules| - 1]) then Some(rules[|rules| - 1])
    else LastClaim(SF, follow, A, rules[..|rules| - 1], t)
  }

  /** Writes `p` into the cells `(A, t)` for the columns `cols`, one at a time. */
  method WriteColumns(table: Table, A: Symbol, cols: set<Symbol>, p: Production) returns (result: Table)
    ensures forall B, t :: Cell(result, B, t) == if B == A && t in cols then Some(p) else Cell(table, B, t)
  {
    result := table;
    var todo := cols;
    while todo != {}
      invariant todo <= cols
      invariant forall B, t :: Cell(result, B, t) == if B == A && t in cols - todo then Some(p) else Cell(table, B, t)
      decreases todo
    {
      var i :| i in todo;
      ghost var before := result;
      result := result[A := Row(result, A)[i := p]];
      todo := todo - {i};
      forall B, t ensures Cell(result, B, t) == if B == A && t in cols - todo then Some(p) else Cell(table, B, t) {
        assert Cell(before, B, t) == if B == A && t in cols - (todo + {i}) then Some(p) else Cell(table, B, t);
      }
    }
  }

  /** The loop over FIRST(p) for one production `A -> p` (lines 143-150). */
  method WriteProduction(table: Table, SF: SeqFirstMap, follow: SetMap, A: Symbol, p: Production)
    returns (result: Table)
    ensures forall B, t :: Cell(result, B, t) ==
              if B == A && t in Select(SF, follow, A, p) then Some(p) else Cell(table, B, t)
  {
    result := table;
    var firsts := GetSeq(SF, p);
    var todo := firsts;
    while todo != {}
      invariant todo <= firsts
      invariant forall B, t :: Cell(result, B, t) ==
                  if B == A && t in Claimed(follow, A, firsts - todo) then Some(p) else Cell(table, B, t)
      decreases todo
    {
      var terminal :| terminal in todo;
      ghost var before := result;
      if terminal == Eps {
        result := WriteColumns(result, A, Get(follow, A), p);
      } else {
        result := result[A := Row(result, A)[terminal := p]];
      }
      todo := todo - {terminal};
      forall B, t ensures Cell(result, B, t) ==
        if B == A && t in Claimed(follow, A, firsts - todo) then Some(p) else Cell(table, B, t)
      {
        assert Cell(before, B, t) ==
          if B == A && t in Claimed(follow, A, firsts - (todo + {terminal})) then Some(p) else Cell(table, B, t);
      }
    }
    assert firsts - todo == firsts;
  }

  /**
    create_analysis_table (lines 139-152): every cell of a nonterminal's row is
    the last of its productions claiming that column; there are no other cells.
   */
  method BuildTable(g: Grammar, NT: set<Symbol>, SF: SeqFirstMap, follow: SetMap) returns (table: Table)
    ensures forall A, t :: Cell(table, A, t) ==
              if A in NT then LastClaim(SF, follow, A, Lookup(g, A), t) else None
  {
    table := map[];
    var todo := NT;
    while todo != {}
      invariant todo <= NT
      invariant forall A, t :: Cell(table, A, t) ==
                  if A in NT - todo then LastClaim(SF, follow, A, Lookup(g, A), t) else None
      decreases todo
    {
      var nonTerminal :| nonTerminal in todo;
      var rules := Lookup(g, nonTerminal);
      ghost var start := table;
      for m := 0 to |rules|
        invariant forall A, t :: Cell(table, A, t) ==
                    if A == nonTerminal then LastClaim(SF, follow, A, rules[..m], t) else Cell(start, A, t)
      {
        ghost var before := table;
        table := WriteProduction(table, SF, follow, nonTerminal, rules[m]);
        assert rules[..m + 1][..m] == rules[..m];
        forall A, t ensures Cell(table, A, t) ==
          if A == nonTerminal then LastClaim(SF, follow, A, rules[..m + 1], t) else Cell(start, A, t)
        {
          assert Cell(before, A, t) ==
            if A == nonTerminal then LastClaim(SF, follow, A, rules[..m], t) else Cell(start, A, t);
        }
      }
      assert rules[..|rules|] == rules;
      todo := todo - {nonTerminal};
    }
  }

  // ---------------------------------------------------------------------
  // Properties of the cells

  /** The cell is empty exactly when no production claims the column. */
  lemma {:induction false} LastClaimNone(SF: SeqFirstMap, follow: SetMap, A: Symbol, rules: Rules, t: Symbol)
    ensures LastClaim(SF, follow, A, rules, t) == None <==>
      forall i :: 0 <= i < |rules| ==> t !in Select(SF, follow, A, rules[i])
    decreases |rules|
  {
    if rules != [] {
      var init := rules[..|rules| - 1];
      LastClaimNone(SF, follow, A, init, t);
      assert forall i :: 0 <= i < |init| ==> init[i] == rules[i];
    }
  }

  /** A filled cell holds the last production claiming it. */
  lemma {:induction false} LastClaimSome(SF: SeqFirstMap, follow: SetMap, A: Symbol, rules: Rules, t: Symbol)
    requires LastClaim(SF, follow, A, rules, t).Some?
    ensures exists i :: 0 <= i < |rules| && rules[i] == LastClaim(SF, follow, A, rules, t).value
              && t in Select(SF, follow, A, rules[i])
              && forall j :: i < j < |rules| ==> t !in Select(SF, follow, A, rules[j])
    decreases |rules|
  {
    var n := |rules| - 1;
    if t in Select(SF, follow, A, rules[n]) {
      assert rules[n] == LastClaim(SF, follow, A, rules, t).value;
    } else {
      var init := rules[..n];
      LastClaimSome(SF, follow, A, init, t);
      var i :| 0 <= i < |init| && init[i] == LastClaim(SF, follow, A, init, t).value
        && t in Select(SF, follow, A, init[i])
        && forall j :: i < j < |init| ==> t !in Select(SF, follow, A, init[j]);
      assert rules[i] == init[i];
      assert forall j :: i < j < |rules| ==> t !in Select(SF, follow, A, rules[j]) by {
        forall j | i < j < |rules| ensures t !in Select(SF, follow, A, rules[j]) {
          if j < n {
            assert rules[j] == init[j];
          }
        }
      }
    }
  }

  /**
    When the selection sets of the productions of `A` are pairwise disjoint
    (the grammar is LL(1) for `A`), a production fills a cell exactly when its
    selection set holds the column.
   */
  lemma LL1Cells(SF: SeqFirstMap, follow: SetMap, A: Symbol, rules: Rules, t: Symbol, k: nat)
    requires k < |rules|
    requires forall i, j :: 0 <= i < j < |rules| && rules[i] != rules[j] ==>
      Select(SF, follow, A, rules[i]) !! Select(SF, follow, A, rules[j])
    ensures LastClaim(SF, follow, A, rules, t) == Some(rules[k]) <==> t in Select(SF, follow, A, rules[k])
  {
    if t in Select(SF, follow, A, rules[k]) {
      LastClaimSome(SF, follow, A, rules, t);
      var i :| 0 <= i < |rules| && rules[i] == LastClaim(SF, follow, A, rules, t).value
        && t in Select(SF, follow, A, rules[i])
        && forall j :: i < j < |rules| ==> t !in Select(SF, follow, A, rules[j]);
      assert k <= i;
      if k < i {
        assert rules[k] == rules[i];
      }
    } else if LastClaim(SF, follow, A, rules, t) == Some(rules[k]) {
      LastClaimSome(SF, follow, A, rules, t);
    }
  }

  /** A column claimed by the `k`-th production is filled by it or by a later production. */
  lemma LastClaimLater(SF: SeqFirstMap, follow: SetMap, A: Symbol, rules: Rules, t: Symbol, k: nat)
    requires k < |rules| && t in Select(SF, follow, A, rules[k])
    ensures exists j :: k <= j < |rules| && LastClaim(SF, follow, A, rules, t) == Some(rules[j])
  {
    LastClaimNone(SF, follow, A, rules, t);
    LastClaimSome(SF, follow, A, rules, t);
    var i :| 0 <= i < |rules| && rules[i] == LastClaim(SF, follow, A, rules, t).value
      && t in Select(SF, follow, A, rules[i])
      && forall j :: i < j < |rules| ==> t !in Select(SF, follow, A, rules[j]);
    assert k <= i;
  }

  /**
    In a table built by `BuildTable`, for the `k`-th production p of A, every
    terminal of FIRST(p) and, when FIRST(p) holds the empty-string marker, every
    symbol of FOLLOW(A) has its cell filled by p or by a later production of A.
   */
  lemma CellLaterProduction(table: Table, g: Grammar, NT: set<Symbol>, SF: SeqFirstMap, follow: SetMap,
                            A: Symbol, k: nat, t: Symbol)
    requires forall B, u :: Cell(table, B, u) == if B in NT then LastClaim(SF, follow, B, Lookup(g, B), u) else None
    requires A in NT && k < |Lookup(g, A)|
    requires var p := Lookup(g, A)[k];
      (t in GetSeq(SF, p) && t != Eps) || (Eps in GetSeq(SF, p) && t in Get(follow, A))
    ensures exists j :: k <= j < |Lookup(g, A)| && Cell(table, A, t) == Some(Lookup(g, A)[j])
  {
    LastClaimLater(SF, follow, A, Lookup(g, A), t, k);
  }

  /** Every cell of a table built by `BuildTable` holds a production of its row's nonterminal. */
  lemma CellFromGrammar(table: Table, g: Grammar, NT: set<Symbol>, SF: SeqFirstMap, follow: SetMap, A: Symbol, t: Symbol)
    requires forall B, u :: Cell(table, B, u) == if B in NT then LastClaim(SF, follow, B, Lookup(g, B), u) else None
    requires Cell(table, A, t).Some?
    ensures A in NT && Cell(table, A, t).value in Lookup(g, A)
    ensures t in Select(SF, follow, A, Cell(table, A, t).value)
  {
    LastClaimSome(SF, follow, A, Lookup(g, A), t);
  }

  /** No column is the empty-string marker when no FOLLOW set holds it. */
  lemma NoEpsColumn(table: Table, g: Grammar, NT: set<Symbol>, SF: SeqFirstMap, follow: SetMap, A: Symbol)
    requires forall B, u :: Cell(table, B, u) == if B in NT then LastClaim(SF, follow, B, Lookup(g, B), u) else None
    requires forall k :: Eps !in Get(follow, k)
    ensures Cell(table, A, Eps) == None
  {
    if A in NT {
      LastClaimNone(SF, follow, A, Lookup(g, A), Eps);
    }
  }
}
