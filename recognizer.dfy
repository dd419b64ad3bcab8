/**
  The table-driven recogniser (analysis).  The symbol stack starts as
  ["#", begin] and the input stack holds the characters of the input followed
  by "#", reversed, so that both tops are the last elements.  At each step a
  row of the trace is recorded; then equal tops that are "#" accept, other
  equal tops are both popped, a nonterminal on top is replaced by the symbols
  of its table cell for the lookahead (pushed in reverse, the empty-string
  marker omitted), a missing cell stops with "no production", and any other
  top stops with "bad behavior".  The source loops without bound; the model
  runs for at most `fuel` steps.
 */
module Recognizer {
  import opened Symbols
  import opened ParseTable

  /** A production applied at a step: shown in the next row of the trace. */
  datatype Applied = Applied(lhs: Symbol, rhs: Production)

  /** One row of the trace: step number, symbol stack, input stack, production applied before it. */
  datatype TraceRow = TraceRow(step: nat, symbols: seq<Symbol>, inputs: seq<Symbol>, applied: Option<Applied>)

  datatype Verdict =
    | Accept
    | NoProduction(nonTerminal: Symbol, lookahead: Symbol)
    | BadBehavior(top: Symbol, lookahead: Symbol)
    | EmptyStack
    | OutOfFuel

  datatype Outcome =
    | Halt(verdict: Verdict)
    | Next(symbols: seq<Symbol>, inputs: seq<Symbol>, applied: Option<Applied>)

  /** The characters of `s`, each as a one-character symbol. */
  function Chars(s: string): (r: seq<Symbol>)
    ensures |r| == |s| && forall i :: 0 <= i < |s| ==> r[i] == [s[i]]
  {
    seq(|s|, i requires 0 <= i < |s| => [s[i]])
  }

  /** The initial input stack. */
  function InputStack(inp: string): seq<Symbol>
  {
    Reverse(Chars(inp + "#"))
  }

  /** What the inner loop pushes for production `p`: its symbols in reverse, without the marker. */
  function Pushed(p: Production): seq<Symbol>
  {
    if p == [] then [] else Pushed(p[1..]) + (if p[0] == Eps then [] else [p[0]])
  }

  /** The symbols that production `p` derives: `p` without the empty-string marker. */
  function Body(p: Production): (r: seq<Symbol>)
    ensures forall x :: x in r <==> x in p && x != Eps
  {
    if p == [] then [] else (if p[0] == Eps then [] else [p[0]]) + Body(p[1..])
  }

  /** One iteration of the loop (lines 172-193), after the row is recorded. */
  function Step(NT: set<Symbol>, table: Table, symbols: seq<Symbol>, inputs: seq<Symbol>): Outcome
  {
    if |symbols| == 0 || |inputs| == 0 then Halt(EmptyStack)
    else
      var X := symbols[|symbols| - 1];
      var a := inputs[|inputs| - 1];
      if X == a && X == End then Halt(Accept)
      else if X == a then Next(symbols[..|symbols| - 1], inputs[..|inputs| - 1], None)
      else if X in NT then
        match Cell(table, X, a)
        case Some(p) =>
          if p == [] then Halt(NoProduction(X, a))
          else Next(symbols[..|symbols| - 1] + Pushed(p), inputs, Some(Applied(X, p)))
        case None => Halt(NoProduction(X, a))
      else Halt(BadBehavior(X, a))
  }

  /** The rows `rows` followed by the rows of the run `r`. */
  function Prepend(rows: seq<TraceRow>, r: (Verdict, seq<TraceRow>)): (Verdict, seq<TraceRow>)
  {
    (r.0, rows + r.1)
  }

  /** The loop from a configuration, for at most `fuel` iterations: the verdict and the rows recorded. */
  function Run(NT: set<Symbol>, table: Table, symbols: seq<Symbol>, inputs: seq<Symbol>,
               applied: Option<Applied>, count: nat, fuel: nat): (Verdict, seq<TraceRow>)
    decreases fuel
  {
    if fuel == 0 then (OutOfFuel, [])
    else
      var row := TraceRow(count, symbols, inputs, applied);
      match Step(NT, table, symbols, inputs)
      case Halt(v) => (v, [row])
      case Next(s, i, ap) => Prepend([row], Run(NT, table, s, i, ap, count + 1, fuel - 1))
  }

  /** The inner loop of lines 183-187: pushes the symbols of `p` from last to first, skipping the marker. */
  method PushReversed(symbols: seq<Symbol>, p: Production) returns (result: seq<Symbol>)
    ensures result == symbols + Pushed(p)
  {
    result := symbols;
    var k := |p|;
    while k > 0
      invariant 0 <= k <= |p|
      invariant result == symbols + Pushed(p[k..])
    {
      k := k - 1;
      assert p[k..][1..] == p[k + 1..];
      if p[k] == Eps {
        continue;
      }
      result := result + [p[k]];
    }
    assert p[0..] == p;
  }

  /** The body of the loop of lines 172-193 after the row is recorded: which branch is taken and what it does. */
  method Transition(NT: set<Symbol>, table: Table, symbols: seq<Symbol>, inputS: seq<Symbol>) returns (out: Outcome)
    ensures out == Step(NT, table, symbols, inputS)
  {
    if |symbols| == 0 || |inputS| == 0 {
      return Halt(EmptyStack);
    }
    var X := symbols[|symbols| - 1];
    var a := inputS[|inputS| - 1];
    if X == a && X == End {
      out := Halt(Accept);
    } else if X == a {
      out := Next(symbols[..|symbols| - 1], inputS[..|inputS| - 1], None);
    } else if X in NT {
      var pro := Cell(table, X, a);
      if pro.Some? && pro.value != [] {
        var p := pro.value;
        var pushed := PushReversed(symbols[..|symbols| - 1], p);
        out := Next(pushed, inputS, Some(Applied(X, p)));
      } else {
        out := Halt(NoProduction(X, a));
      }
    } else {
      out := Halt(BadBehavior(X, a));
    }
  }

  /** analysis (lines 162-193), with at most `fuel` iterations of its loop. */
  method Analysis(begin: Symbol, NT: set<Symbol>, table: Table, inp: string, fuel: nat)
    returns (verdict: Verdict, trace: seq<TraceRow>)
    ensures (verdict, trace) == Run(NT, table, [End, begin], InputStack(inp), None, 0, fuel)
  {
    var symbols := [End, begin];
    var inputS := InputStack(inp);
    verdict, trace := Loop(NT, table, symbols, inputS, fuel);
  }

  /** The loop of lines 167-193 from the stacks `symbols` and `inputS`, for at most `fuel` iterations. */
  method Loop(NT: set<Symbol>, table: Table, symbols: seq<Symbol>, inputS: seq<Symbol>, fuel: nat)
    returns (verdict: Verdict, trace: seq<TraceRow>)
    ensures (verdict, trace) == Run(NT, table, symbols, inputS, None, 0, fuel)
  {
    var symbols, inputS := symbols, inputS;
    var count: nat := 0;
    var left: nat := fuel;
    var production: Option<Applied> := None;
    trace := [];
    ghost var top := Run(NT, table, symbols, inputS, production, count, left);
    assert trace + top.1 == top.1;
    while left > 0
      invariant top == Prepend(trace, Run(NT, table, symbols, inputS, production, count, left))
    {
      ghost var before := trace;
      ghost var row := TraceRow(count, symbols, inputS, production);
      trace := trace + [TraceRow(count, symbols, inputS, production)];
      var out := Transition(NT, table, symbols, inputS);
      if out.Halt? {
        verdict := out.verdict;
        RunHaltsAt(NT, table, top, before, row, left);
        return;
      }
      RunNextAt(NT, table, top, before, row, left);
      symbols, inputS, production := out.symbols, out.inputs, out.applied;
      count, left := count + 1, left - 1;
    }
    assert trace + [] == trace;
    verdict := OutOfFuel;
  }

  /** One iteration that halts records its row and stops: the trace so far, then the row. */
  lemma RunHaltsAt(NT: set<Symbol>, table: Table, top: (Verdict, seq<TraceRow>), before: seq<TraceRow>,
                   row: TraceRow, fuel: nat)
    requires fuel > 0 && Step(NT, table, row.symbols, row.inputs).Halt?
    requires top == Prepend(before, Run(NT, table, row.symbols, row.inputs, row.applied, row.step, fuel))
    ensures top == (Step(NT, table, row.symbols, row.inputs).verdict, before + [row])
  {
  }

  /** One iteration that goes on records its row and continues from the next configuration. */
  lemma RunNextAt(NT: set<Symbol>, table: Table, top: (Verdict, seq<TraceRow>), before: seq<TraceRow>,
                  row: TraceRow, fuel: nat)
    requires fuel > 0 && Step(NT, table, row.symbols, row.inputs).Next?
    requires top == Prepend(before, Run(NT, table, row.symbols, row.inputs, row.applied, row.step, fuel))
    ensures var st := Step(NT, table, row.symbols, row.inputs);
      top == Prepend(before + [row], Run(NT, table, st.symbols, st.inputs, st.applied, row.step + 1, fuel - 1))
  {
    var st := Step(NT, table, row.symbols, row.inputs);
    var r := Run(NT, table, st.symbols, st.inputs, st.applied, row.step + 1, fuel - 1);
    assert before + ([row] + r.1) == (before + [row]) + r.1;
  }

  // ---------------------------------------------------------------------
  // The trace is a run of the machine

  /** Each row's configuration steps to the next row's. */
  ghost predicate Chained(NT: set<Symbol>, table: Table, rows: seq<TraceRow>)
  {
    forall i :: 0 <= i < |rows| - 1 ==>
      Step(NT, table, rows[i].symbols, rows[i].inputs) == Next(rows[i + 1].symbols, rows[i + 1].inputs, rows[i + 1].applied)
  }

  /**
    The rows recorded from a configuration: the first is that configuration,
    they are numbered consecutively, the fuel bounds their number and is used
    up exactly when the verdict is `OutOfFuel`.
   */
  lemma {:induction false} RunRows(NT: set<Symbol>, table: Table, symbols: seq<Symbol>, inputs: seq<Symbol>,
                                  applied: Option<Applied>, count: nat, fuel: nat)
    ensures var r := Run(NT, table, symbols, inputs, applied, count, fuel);
              && |r.1| <= fuel
              && (fuel > 0 ==> |r.1| > 0 && r.1[0] == TraceRow(count, symbols, inputs, applied))
              && (forall i :: 0 <= i < |r.1| ==> r.1[i].step == count + i)
              && (r.0 == OutOfFuel ==> |r.1| == fuel)
    decreases fuel
  {
    if fuel > 0 {
      var st := Step(NT, table, symbols, inputs);
      if st.Next? {
        RunRows(NT, table, st.symbols, st.inputs, st.applied, count + 1, fuel - 1);
      }
    }
  }

  /** Each recorded row steps to the next one. */
  lemma {:induction false} RunChained(NT: set<Symbol>, table: Table, symbols: seq<Symbol>, inputs: seq<Symbol>,
                                     applied: Option<Applied>, count: nat, fuel: nat)
    ensures Chained(NT, table, Run(NT, table, symbols, inputs, applied, count, fuel).1)
    decreases fuel
  {
    if fuel > 0 {
      var st := Step(NT, table, symbols, inputs);
      if st.Next? {
        RunChained(NT, table, st.symbols, st.inputs, st.applied, count + 1, fuel - 1);
        RunRows(NT, table, st.symbols, st.inputs, st.applied, count + 1, fuel - 1);
        var rows := Run(NT, table, st.symbols, st.inputs, st.applied, count + 1, fuel - 1).1;
        var all := [TraceRow(count, symbols, inputs, applied)] + rows;
        assert Run(NT, table, symbols, inputs, applied, count, fuel).1 == all;
        forall j | 0 <= j < |all| - 1
          ensures Step(NT, table, all[j].symbols, all[j].inputs) == Next(all[j + 1].symbols, all[j + 1].inputs, all[j + 1].applied)
        {
          assert all[j + 1] == rows[j];
          if j > 0 {
            assert all[j] == rows[j - 1];
          }
        }
      }
    }
  }

  /** Unless the fuel ran out, the last row halts with the verdict. */
  lemma {:induction false} RunHalts(NT: set<Symbol>, table: Table, symbols: seq<Symbol>, inputs: seq<Symbol>,
                                   applied: Option<Applied>, count: nat, fuel: nat)
    ensures EndsHalted(NT, table, Run(NT, table, symbols, inputs, applied, count, fuel))
    decreases fuel
  {
    if fuel > 0 {
      var row := TraceRow(count, symbols, inputs, applied);
      var st := Step(NT, table, symbols, inputs);
      if st.Next? {
        RunHalts(NT, table, st.symbols, st.inputs, st.applied, count + 1, fuel - 1);
        ContinuedRun(NT, table, row, fuel);
      } else {
        HaltedRun(NT, table, row, fuel);
      }
    }
  }

  /** A run whose first step goes on ends in a halting row when the rest of the run does. */
  lemma ContinuedRun(NT: set<Symbol>, table: Table, row: TraceRow, fuel: nat)
    requires fuel > 0 && Step(NT, table, row.symbols, row.inputs).Next?
    requires var st := Step(NT, table, row.symbols, row.inputs);
      EndsHalted(NT, table, Run(NT, table, st.symbols, st.inputs, st.applied, row.step + 1, fuel - 1))
    ensures EndsHalted(NT, table, Run(NT, table, row.symbols, row.inputs, row.applied, row.step, fuel))
  {
    var st := Step(NT, table, row.symbols, row.inputs);
    var rest := Run(NT, table, st.symbols, st.inputs, st.applied, row.step + 1, fuel - 1);
    RunOnNext(NT, table, row, fuel);
    if rest.1 != [] {
      LastOfPrepend(row, rest.1);
    }
  }

  /** A run whose first step halts records one row, which halts with the run's verdict. */
  lemma HaltedRun(NT: set<Symbol>, table: Table, row: TraceRow, fuel: nat)
    requires fuel > 0 && Step(NT, table, row.symbols, row.inputs).Halt?
    ensures EndsHalted(NT, table, Run(NT, table, row.symbols, row.inputs, row.applied, row.step, fuel))
  {
    RunOnHalt(NT, table, row, fuel);
  }

  lemma RunOnHalt(NT: set<Symbol>, table: Table, row: TraceRow, fuel: nat)
    requires fuel > 0 && Step(NT, table, row.symbols, row.inputs).Halt?
    ensures Run(NT, table, row.symbols, row.inputs, row.applied, row.step, fuel) ==
              (Step(NT, table, row.symbols, row.inputs).verdict, [row])
  {
  }

  lemma RunOnNext(NT: set<Symbol>, table: Table, row: TraceRow, fuel: nat)
    requires fuel > 0 && Step(NT, table, row.symbols, row.inputs).Next?
    ensures var st := Step(NT, table, row.symbols, row.inputs);
              Run(NT, table, row.symbols, row.inputs, row.applied, row.step, fuel) ==
              Prepend([row], Run(NT, table, st.symbols, st.inputs, st.applied, row.step + 1, fuel - 1))
  {
  }

  /** Unless the fuel ran out, the last row of the run `r` halts with its verdict. */
  ghost predicate EndsHalted(NT: set<Symbol>, table: Table, r: (Verdict, seq<TraceRow>))
  {
    r.0 != OutOfFuel ==> |r.1| > 0 && Halts(NT, table, r.1[|r.1| - 1], r.0)
  }

  /** The step from the configuration of `row` halts with `v`. */
  ghost predicate Halts(NT: set<Symbol>, table: Table, row: TraceRow, v: Verdict)
  {
    Step(NT, table, row.symbols, row.inputs) == Halt(v)
  }

  lemma LastOfPrepend(row: TraceRow, rows: seq<TraceRow>)
    requires rows != []
    ensures ([row] + rows)[|rows|] == rows[|rows| - 1]
  {
  }

  // ---------------------------------------------------------------------
  // The input stack only ever loses its top

  /** A run that stops for want of a production stops on a nonterminal whose cell is empty. */
  lemma RunNoProduction(NT: set<Symbol>, table: Table, symbols: seq<Symbol>, inputs: seq<Symbol>,
                        applied: Option<Applied>, count: nat, fuel: nat)
    requires Run(NT, table, symbols, inputs, applied, count, fuel).0.NoProduction?
    ensures var v := Run(NT, table, symbols, inputs, applied, count, fuel).0;
      v.nonTerminal in NT && (Cell(table, v.nonTerminal, v.lookahead) == None || Cell(table, v.nonTerminal, v.lookahead) == Some([]))
  {
    RunHalts(NT, table, symbols, inputs, applied, count, fuel);
  }

  /** `inputs` is what is left of the initial input stack: one of its non-empty prefixes. */
  ghost predicate InputsLeft(inp: string, inputs: seq<Symbol>)
  {
    1 <= |inputs| <= |InputStack(inp)| && inputs == InputStack(inp)[..|inputs|]
  }

  lemma StepKeepsInputs(NT: set<Symbol>, table: Table, inp: string, symbols: seq<Symbol>, inputs: seq<Symbol>)
    requires InputsLeft(inp, inputs)
    requires Step(NT, table, symbols, inputs).Next?
    ensures InputsLeft(inp, Step(NT, table, symbols, inputs).inputs)
  {
    var IS := InputStack(inp);
    assert IS[0] == End;
    var n := |inputs|;
    if n == 1 {
      assert inputs[0] == End;
    } else {
      assert inputs[..n - 1] == IS[..n - 1];
    }
  }

  lemma {:induction false} ChainKeepsInputs(NT: set<Symbol>, table: Table, inp: string, rows: seq<TraceRow>, n: nat)
    requires Chained(NT, table, rows) && n < |rows|
    requires InputsLeft(inp, rows[0].inputs)
    ensures InputsLeft(inp, rows[n].inputs)
  {
    if n > 0 {
      ChainKeepsInputs(NT, table, inp, rows, n - 1);
      assert Step(NT, table, rows[n - 1].symbols, rows[n - 1].inputs) == Next(rows[n].symbols, rows[n].inputs, rows[n].applied);
      StepKeepsInputs(NT, table, inp, rows[n - 1].symbols, rows[n - 1].inputs);
    }
  }

  // ---------------------------------------------------------------------
  // Every step is a derivation step

  /** The input consumed once the input stack is down to `n` symbols. */
  function Consumed(inp: string, n: nat): seq<Symbol>
  {
    var w := Chars(inp + "#");
    if n <= |w| then w[..|w| - n] else []
  }

  /** The sentential form of a row: consumed input followed by the symbol stack read from the top. */
  function FormOf(inp: string, symbols: seq<Symbol>, inputs: seq<Symbol>): seq<Symbol>
  {
    Consumed(inp, |inputs|) + Reverse(symbols)
  }

  function Form(inp: string, row: TraceRow): seq<Symbol>
  {
    FormOf(inp, row.symbols, row.inputs)
  }

  /**
    Between two rows the form is unchanged (a match), or the nonterminal right
    after the consumed input is replaced by the body of the production applied,
    which is the table's cell for that nonterminal and the lookahead.
   */
  ghost predicate DerivationStep(inp: string, table: Table, cur: TraceRow, next: TraceRow)
  {
    var k := |Consumed(inp, |cur.inputs|)|;
    var f := Form(inp, cur);
    match next.applied
    case None => Form(inp, next) == f
    case Some(ap) =>
      && |cur.inputs| > 0 && k < |f| && f[k] == ap.lhs
      && Cell(table, ap.lhs, cur.inputs[|cur.inputs| - 1]) == Some(ap.rhs)
      && Form(inp, next) == f[..k] + Body(ap.rhs) + f[k + 1..]
  }

  lemma {:induction false} ReverseAppend<T>(a: seq<T>, b: seq<T>)
    ensures Reverse(a + b) == Reverse(b) + Reverse(a)
  {
    var l, r := Reverse(a + b), Reverse(b) + Reverse(a);
    assert |l| == |r|;
    forall i | 0 <= i < |l| ensures l[i] == r[i] {
      if i < |b| {
        assert l[i] == (a + b)[|a| + |b| - 1 - i];
      } else {
        assert l[i] == (a + b)[|a| + |b| - 1 - i];
      }
    }
  }

  lemma {:induction false} PushedBody(p: Production)
    ensures Reverse(Pushed(p)) == Body(p)
    decreases |p|
  {
    if p != [] {
      PushedBody(p[1..]);
      var h := if p[0] == Eps then [] else [p[0]];
      ReverseAppend(Pushed(p[1..]), h);
      assert Reverse(h) == h;
    }
  }

  /** Popping the top `X` of the input stack moves `X` to the end of the consumed input. */
  lemma ConsumedStep(inp: string, iota: seq<Symbol>, X: Symbol)
    requires InputsLeft(inp, iota + [X])
    ensures Consumed(inp, |iota|) == Consumed(inp, |iota| + 1) + [X]
  {
    var w := Chars(inp + "#");
    var n := |iota| + 1;
    assert X == (iota + [X])[n - 1] == InputStack(inp)[n - 1] == w[|w| - n];
    assert w[..|w| - n + 1] == w[..|w| - n] + [X];
  }

  lemma MatchForm(inp: string, sigma: seq<Symbol>, X: Symbol, iota: seq<Symbol>)
    requires InputsLeft(inp, iota + [X])
    ensures FormOf(inp, sigma + [X], iota + [X]) == FormOf(inp, sigma, iota)
  {
    ConsumedStep(inp, iota, X);
    ReverseSnoc(sigma, X);
  }

  lemma ReverseSnoc(sigma: seq<Symbol>, X: Symbol)
    ensures Reverse(sigma + [X]) == [X] + Reverse(sigma)
  {
    ReverseAppend(sigma, [X]);
    assert Reverse([X]) == [X];
  }

  lemma ReversePushed(sigma: seq<Symbol>, p: Production)
    ensures Reverse(sigma + Pushed(p)) == Body(p) + Reverse(sigma)
  {
    ReverseAppend(sigma, Pushed(p));
    PushedBody(p);
  }

  /** What a step that goes on does to the two stacks. */
  lemma StepNextShape(NT: set<Symbol>, table: Table, cur: TraceRow, next: TraceRow)
    requires Step(NT, table, cur.symbols, cur.inputs) == Next(next.symbols, next.inputs, next.applied)
    ensures |cur.symbols| > 0 && |cur.inputs| > 0
    ensures var X, a := cur.symbols[|cur.symbols| - 1], cur.inputs[|cur.inputs| - 1];
      match next.applied
      case None =>
        X == a && next.symbols == cur.symbols[..|cur.symbols| - 1] && next.inputs == cur.inputs[..|cur.inputs| - 1]
      case Some(ap) =>
        && ap.lhs == X && Cell(table, X, a) == Some(ap.rhs)
        && next.symbols == cur.symbols[..|cur.symbols| - 1] + Pushed(ap.rhs) && next.inputs == cur.inputs
  {
  }

  lemma MatchDerives(inp: string, table: Table, cur: TraceRow, next: TraceRow)
    requires InputsLeft(inp, cur.inputs) && |cur.symbols| > 0 && next.applied.None?
    requires cur.symbols[|cur.symbols| - 1] == cur.inputs[|cur.inputs| - 1]
    requires next.symbols == cur.symbols[..|cur.symbols| - 1] && next.inputs == cur.inputs[..|cur.inputs| - 1]
    ensures DerivationStep(inp, table, cur, next)
  {
    var s, n := cur.symbols, |cur.inputs|;
    var X := s[|s| - 1];
    assert s == s[..|s| - 1] + [X];
    assert cur.inputs == cur.inputs[..n - 1] + [X];
    MatchForm(inp, s[..|s| - 1], X, cur.inputs[..n - 1]);
  }

  lemma ExpandDerives(inp: string, table: Table, cur: TraceRow, next: TraceRow)
    requires |cur.symbols| > 0 && |cur.inputs| > 0 && next.applied.Some?
    requires var ap := next.applied.value;
      && ap.lhs == cur.symbols[|cur.symbols| - 1]
      && Cell(table, ap.lhs, cur.inputs[|cur.inputs| - 1]) == Some(ap.rhs)
      && next.symbols == cur.symbols[..|cur.symbols| - 1] + Pushed(ap.rhs) && next.inputs == cur.inputs
    ensures DerivationStep(inp, table, cur, next)
  {
    var s := cur.symbols;
    var sigma := s[..|s| - 1];
    var X := s[|s| - 1];
    assert s == sigma + [X];
    var C := Consumed(inp, |cur.inputs|);
    ReverseSnoc(sigma, X);
    ReversePushed(sigma, next.applied.value.rhs);
    var f := Form(inp, cur);
    assert f[..|C|] == C && f[|C| + 1..] == Reverse(sigma);
  }

  lemma StepDerives(NT: set<Symbol>, table: Table, inp: string, cur: TraceRow, next: TraceRow)
    requires InputsLeft(inp, cur.inputs)
    requires Step(NT, table, cur.symbols, cur.inputs) == Next(next.symbols, next.inputs, next.applied)
    ensures DerivationStep(inp, table, cur, next)
  {
    StepNextShape(NT, table, cur, next);
    if next.applied.None? {
      MatchDerives(inp, table, cur, next);
    } else {
      ExpandDerives(inp, table, cur, next);
    }
  }

  lemma {:induction false} ChainDerives(NT: set<Symbol>, table: Table, inp: string, rows: seq<TraceRow>)
    requires Chained(NT, table, rows) && |rows| > 0
    requires InputsLeft(inp, rows[0].inputs)
    ensures forall i :: 0 <= i < |rows| - 1 ==> DerivationStep(inp, table, rows[i], rows[i + 1])
  {
    forall i | 0 <= i < |rows| - 1 ensures DerivationStep(inp, table, rows[i], rows[i + 1]) {
      ChainKeepsInputs(NT, table, inp, rows, i);
      StepDerives(NT, table, inp, rows[i], rows[i + 1]);
    }
  }

  // ---------------------------------------------------------------------
  // Acceptance

  /** The bottom "#" of the symbol stack is its only "#". */
  ghost predicate BottomMarked(symbols: seq<Symbol>)
  {
    |symbols| > 0 && symbols[0] == End && End !in symbols[1..]
  }

  /** No cell of the table mentions "#". */
  ghost predicate NoEndInCells(table: Table)
  {
    forall A, t :: Cell(table, A, t).Some? ==> End !in Cell(table, A, t).value
  }

  lemma PushedSymbols(p: Production)
    ensures forall x :: x in Pushed(p) ==> x in p
  {
    PushedBody(p);
    forall x | x in Pushed(p) ensures x in p {
      var i :| 0 <= i < |Pushed(p)| && Pushed(p)[i] == x;
      assert Reverse(Pushed(p))[|Pushed(p)| - 1 - i] == x;
    }
  }

  lemma StepKeepsBottom(NT: set<Symbol>, table: Table, symbols: seq<Symbol>, inputs: seq<Symbol>)
    requires BottomMarked(symbols) && End !in NT && NoEndInCells(table)
    requires Step(NT, table, symbols, inputs).Next?
    ensures BottomMarked(Step(NT, table, symbols, inputs).symbols)
  {
    var s := symbols;
    var next := Step(NT, table, symbols, inputs).symbols;
    assert |s| > 1 by {
      if |s| == 1 {
        assert s[0] == End;
      }
    }
    assert s[1..|s| - 1] == s[1..][..|s| - 2];
    if Step(NT, table, symbols, inputs).applied.Some? {
      var p := Step(NT, table, symbols, inputs).applied.value.rhs;
      PushedSymbols(p);
      assert next == s[..|s| - 1] + Pushed(p);
      assert next[1..] == s[1..|s| - 1] + Pushed(p);
    }
  }

  lemma {:induction false} ChainKeepsBottom(NT: set<Symbol>, table: Table, rows: seq<TraceRow>, n: nat)
    requires Chained(NT, table, rows) && n < |rows|
    requires BottomMarked(rows[0].symbols) && End !in NT && NoEndInCells(table)
    ensures BottomMarked(rows[n].symbols)
  {
    if n > 0 {
      ChainKeepsBottom(NT, table, rows, n - 1);
      assert Step(NT, table, rows[n - 1].symbols, rows[n - 1].inputs) == Next(rows[n].symbols, rows[n].inputs, rows[n].applied);
      StepKeepsBottom(NT, table, rows[n - 1].symbols, rows[n - 1].inputs);
    }
  }

  /** A step that goes on keeps "#" at the bottom of the symbol stack; only "#" not being a nonterminal is needed. */
  lemma StepKeepsEnd(NT: set<Symbol>, table: Table, symbols: seq<Symbol>, inputs: seq<Symbol>)
    requires |symbols| > 0 && symbols[0] == End && End !in NT
    requires Step(NT, table, symbols, inputs).Next?
    ensures var next := Step(NT, table, symbols, inputs).symbols; |next| > 0 && next[0] == End
  {
  }

  /** "#" stays at the bottom of the symbol stack for the whole trace, whatever the cells hold. */
  lemma {:induction false} ChainKeepsEnd(NT: set<Symbol>, table: Table, rows: seq<TraceRow>, n: nat)
    requires Chained(NT, table, rows) && n < |rows|
    requires |rows[0].symbols| > 0 && rows[0].symbols[0] == End && End !in NT
    ensures |rows[n].symbols| > 0 && rows[n].symbols[0] == End
  {
    if n > 0 {
      ChainKeepsEnd(NT, table, rows, n - 1);
      assert Step(NT, table, rows[n - 1].symbols, rows[n - 1].inputs) == Next(rows[n].symbols, rows[n].inputs, rows[n].applied);
      StepKeepsEnd(NT, table, rows[n - 1].symbols, rows[n - 1].inputs);
    }
  }

  /**
    Acceptance is decided by the tops alone: with S -> i, the input "i#x" is
    accepted after three rows while "x" and the final "#" are still unread.
   */
  lemma AcceptBeforeEnd()
    ensures var r := Run({"S"}, map["S" := map["i" := ["i"]]], [End, "S"], InputStack("i#x"), None, 0, 10);
      && r.0 == Accept
      && |r.1| == 3
      && r.1[2].inputs == [End, "x", End]
  {
  }

  /**
    Soundness of acceptance: when "#" is neither a nonterminal, nor in any
    cell, nor in the input, an accepted run's trace is a derivation that starts
    from the start symbol followed by "#" and ends in the input followed by "#",
    each step replacing one nonterminal by the body of its table cell.
   */
  lemma AcceptedDerivation(begin: Symbol, NT: set<Symbol>, table: Table, inp: string, fuel: nat)
    requires End !in NT && NoEndInCells(table) && begin != End && '#' !in inp
    requires Run(NT, table, [End, begin], InputStack(inp), None, 0, fuel).0 == Accept
    ensures var rows := Run(NT, table, [End, begin], InputStack(inp), None, 0, fuel).1;
      && |rows| > 0
      && Form(inp, rows[0]) == [begin, End]
      && Form(inp, rows[|rows| - 1]) == Chars(inp + "#")
      && forall i :: 0 <= i < |rows| - 1 ==> DerivationStep(inp, table, rows[i], rows[i + 1])
  {
    var IS := InputStack(inp);
    RunRows(NT, table, [End, begin], IS, None, 0, fuel);
    RunChained(NT, table, [End, begin], IS, None, 0, fuel);
    RunHalts(NT, table, [End, begin], IS, None, 0, fuel);
    var rows := Run(NT, table, [End, begin], IS, None, 0, fuel).1;
    InitialRow(begin, inp);
    ChainDerives(NT, table, inp, rows);
    ChainKeepsInputs(NT, table, inp, rows, |rows| - 1);
    ChainKeepsBottom(NT, table, rows, |rows| - 1);
    AcceptedForm(NT, table, inp, rows[|rows| - 1]);
  }

  /** The first row: "#" only at the bottom of the symbol stack, the whole input left, the form `begin #`. */
  lemma InitialRow(begin: Symbol, inp: string)
    requires begin != End
    ensures InputsLeft(inp, InputStack(inp)) && BottomMarked([End, begin])
    ensures FormOf(inp, [End, begin], InputStack(inp)) == [begin, End]
  {
    var IS := InputStack(inp);
    assert IS[..|IS|] == IS;
    assert [End, begin][1..] == [begin];
    assert Consumed(inp, |IS|) == [];
    assert Reverse([End, begin]) == [begin, End];
  }

  /** At acceptance both stacks are down to "#", so the form is the whole input followed by "#". */
  lemma AcceptedForm(NT: set<Symbol>, table: Table, inp: string, last: TraceRow)
    requires '#' !in inp && BottomMarked(last.symbols) && InputsLeft(inp, last.inputs)
    requires Step(NT, table, last.symbols, last.inputs) == Halt(Accept)
    ensures Form(inp, last) == Chars(inp + "#")
  {
    AcceptTops(NT, table, last.symbols, last.inputs);
    BottomOnly(last.symbols);
    InputBottomOnly(inp, last.inputs);
    EndForm(inp);
  }

  lemma AcceptTops(NT: set<Symbol>, table: Table, symbols: seq<Symbol>, inputs: seq<Symbol>)
    requires Step(NT, table, symbols, inputs) == Halt(Accept)
    ensures |symbols| > 0 && symbols[|symbols| - 1] == End
    ensures |inputs| > 0 && inputs[|inputs| - 1] == End
  {
  }

  /** A symbol stack marked at the bottom with "#" on top is just "#". */
  lemma BottomOnly(s: seq<Symbol>)
    requires BottomMarked(s) && s[|s| - 1] == End
    ensures s == [End]
  {
  }

  /** Without "#" in the input, the only "#" of the input stack is at its bottom. */
  lemma InputBottomOnly(inp: string, inputs: seq<Symbol>)
    requires '#' !in inp && InputsLeft(inp, inputs) && inputs[|inputs| - 1] == End
    ensures |inputs| == 1
  {
    var w := inp + "#";
    var k := |inputs| - 1;
    var IS := InputStack(inp);
    assert IS[k] == End;
    assert Chars(w)[|w| - 1 - k] == End;
    assert w[|w| - 1 - k] == '#' by {
      assert [w[|w| - 1 - k]] == End;
    }
  }

  /** The form of the stacks ["#"] and ["#"]: the whole input followed by "#". */
  lemma EndForm(inp: string)
    ensures FormOf(inp, [End], [End]) == Chars(inp + "#")
  {
    var w := Chars(inp + "#");
    assert w[|w| - 1] == End;
    assert Reverse([End]) == [End];
    assert w == w[..|w| - 1] + [End];
  }
}
