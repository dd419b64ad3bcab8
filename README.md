# LL(1) parser generator, modelled in Dafny

This project models the `Parser` class of `parser.py`, an LL(1) parser
generator. It takes a grammar given as a dictionary from nonterminal to a
list of productions, each a list of symbols. Building a parser runs five
stages in turn:

- it eliminates left recursion from the grammar;
- it classifies the symbols into terminals and nonterminals;
- it computes FIRST for every nonterminal and every production suffix, by fixed-point iteration;
- it computes FOLLOW, also by fixed-point iteration;
- it fills the predictive analysis table.

`analysis` then runs a table-driven stack machine on an input string and
records one trace row per step.

Modules, one per stage, in the order the constructor runs them:

| file | module | models |
|---|---|---|
| `symbols.dfy` | `Symbols` | symbols, the `#` end marker and `𝜺`, the grammar as an ordered list of (key, productions) entries (dictionary order is insertion order), set-valued maps with a missing key read as the empty set (`defaultdict(set)`) |
| `leftrec.dfy` | `LeftRecursion` | `left_recursion` |
| `classify.dfy` | `Classification` | the classification loop of `__init__` |
| `first.dfy` | `FirstSets` | `get_first_set`, both the fixed point over nonterminals and FIRST of suffixes |
| `follow.dfy` | `FollowSets` | `get_follow_set` |
| `table.dfy` | `ParseTable` | `create_analysis_table` |
| `recognizer.dfy` | `Recognizer` | the stack machine of `analysis` |
| `parser.dfy` | `LL1Parser` | `__init__`: the stages composed into one parser value, and properties of the recogniser run on it |

The loops of the source are methods with loop invariants. Each method is
proved equal to a specification function, or proved to meet a
least-fixed-point characterisation, and lemmas state what the source
promises about those functions. The parser is never changed after
`__init__`, so it is a value (`LL1Parser.Parser`). The source mutates the
grammar dictionary in place during left-recursion elimination; the model
computes the new grammar as a value and returns it.

Where the code departs from the textbook algorithm, the model follows the code:

- **Substitution with a fixed range.** The substitution loop of
  `left_recursion` (lines 36-41) iterates over a range fixed at loop entry
  while deleting from and appending to the list. The production shifted into
  a deleted slot is skipped (`LeftRecursion.SkippedProduction`). An index
  past the shrunken list, or an empty production, raises IndexError
  (`LeftRecursion.SubstituteNothing`).
- **The FIRST loop may not end.** The FIRST loop clears its flag on every
  pass over a production that is wholly nullable behind a nonterminal
  (line 80), even when `𝜺` is already present, so it does not always
  terminate. The model stops at the first pass that adds nothing and reports
  `FirstDiverges` when that pass cleared the flag.
- **FIRST of a suffix skips a terminal after a nullable prefix.** It adds
  FIRST of the next single symbol (line 109). For a terminal that is the
  empty set, so a terminal after a nullable prefix is not added
  (`FirstSets.TerminalAfterNullablePrefix`).
- **The recogniser checks equal tops first.** Equal tops are popped before
  the top is checked for being a nonterminal (lines 172-177).
- **Acceptance does not check that the input is used up.** The recogniser accepts
  as soon as both tops are `#` (lines 172-173). An input that contains `#`
  can therefore be accepted with characters still unread
  (`Recognizer.AcceptBeforeEnd`). This is why `Recognizer.AcceptedDerivation`
  requires `#` not to occur in the input.

## Model

| member | source | states |
|---|---|---|
| Classification.Classify | parser.py:13-23 | the terminals are `Terminals(g, upper)`, and the nonterminals are the grammar's key set. Stated separately: `#` is a terminal; every non-upper symbol of a production is a terminal; every terminal is `#` or a non-upper symbol that occurs in the grammar; the nonterminals are exactly the grammar's keys |
| LeftRecursion.Substitute | parser.py:36-41 | the in-place loop over the fixed range computes `SubstituteFrom`: deletes a production beginning with the earlier key, appends that key's productions with the deleted tail, skips the shifted slot, and fails on an index past the list or an empty production |
| LeftRecursion.Split | parser.py:42-48 | when no production is empty, splits the list, in order, into the productions beginning with the key and the rest; each list holds exactly those members of the input, and together they are a multiset partition of it. Fails exactly when some production is empty |
| LeftRecursion.EliminateKey | parser.py:33-54 | one iteration of the outer loop equals `Advance`: the substituted list, rewritten with the fresh `N'`, replaces the key's entry, and the fresh entry is queued |
| LeftRecursion.ProcessKeys | parser.py:30-54 | the outer loop over the original keys in order equals `Eliminated` after all keys |
| LeftRecursion.Update | parser.py:55 | `dict.update`: equals `UpdateAll`, which overwrites existing keys in place and appends new keys in order |
| LeftRecursion.EliminateLeftRecursion | parser.py:29-55 | the whole rewrite equals `LeftRecursionResult`, None exactly when the source raises IndexError |
| LeftRecursion.EliminateAtShape | parser.py:42-54 | after a key N is processed none of its productions is empty or begins with N; with a fresh `N'` every production of N ends with `N'` and those of `N'` end with `N'` except a final `[𝜺]`; without one, N keeps its substituted list |
| LeftRecursion.EliminateAtContent | parser.py:33-54 | the substituted list `pi` of N exists and has no empty production; a fresh `N'` is made exactly when some production of `pi` begins with N. Then N's productions are `beta N'` for the productions `beta` of `pi` not beginning with N, in order. The productions of `N'` are `alpha N'` for the tails `alpha` of the productions `N alpha` of `pi`, in order, then `[𝜺]`. The same content is also stated as membership in terms of `pi` |
| LeftRecursion.RewriteMembers | parser.py:52-54 | a production is in N's new list exactly when it is `beta N'` for a production `beta` of `pi` not beginning with N; it is in the list of `N'` exactly when it is `[𝜺]` or `alpha N'` for a production `N alpha` of `pi` |
| LeftRecursion.LeftRecursionNonEmpty | parser.py:29-55 | the rewritten grammar has distinct keys, no empty production, and keeps every original key |
| LeftRecursion.LeftRecursionShape | parser.py:29-55 | the original keys stay first and in order, only fresh `N'` symbols are appended after them, no original key has a production beginning with itself, and each `N'` has the shape above. `RewrittenAs`: each original key holds exactly the productions of its own rewrite (the content of `EliminateAtContent`, computed in the grammar reached after the keys before it); its `N'` is a key of the result exactly when that rewrite made one, and then holds the rewrite's productions for it |
| LeftRecursion.SkippedProduction | parser.py:36-41 | in `[[A, x], [A, y]]` only the first A-production is substituted: the second shifts into the deleted slot and is skipped |
| LeftRecursion.SubstituteNothing | parser.py:36-41 | substituting a key with no productions shrinks the list under the fixed range and raises IndexError |
| LeftRecursion.SubstituteDefined | parser.py:36-41 | when the substituted productions are non-empty and there is at least one, the range never overruns and no empty production appears |
| LeftRecursion.SubstituteKeeps | parser.py:36-41 | substitution deletes only productions beginning with the substituted key; every other production stays |
| LeftRecursion.FilterMembers | parser.py:44-48 | a production is in `l1` exactly when it is in the list and begins with the key, and in `l2` exactly when it is in the list, non-empty, and begins with another symbol |
| LeftRecursion.Partition | parser.py:44-48 | when no production is empty, the list is, as a multiset, `l1` plus `l2`: every production lands in exactly one of them, as often as it occurs |
| LeftRecursion.RecursiveEmpty | parser.py:49-50 | when `l1` is empty, no production of the key begins with it |
| FirstSets.RuleStep | parser.py:62-90 | one production's part of a pass: only grows FIRST within its bounds; adding something strictly shrinks the measure and clears the flag; adding nothing leaves the production closed and clears the flag exactly when the production spins (wholly nullable behind a nonterminal); stays below every closed map above the input |
| FirstSets.FirstFixpoint | parser.py:57-92 | the loop ends; its map is closed under every production and below every closed map (the least fixed point); it reports convergence exactly when no production spins, the case where the source loops for ever |
| FirstSets.FirstOfSequence | parser.py:98-109 | FIRST of one suffix equals `SeqFirst` |
| FirstSets.SequenceFirst | parser.py:94-109 | the map has exactly the non-empty production suffixes as keys, each mapped to its `SeqFirst` |
| FirstSets.SeqFirstMeaning | parser.py:98-109 | a suffix headed by a terminal or `𝜺` has FIRST `{head}`; otherwise `𝜺` is in it exactly when every symbol is nullable, and a non-`𝜺` symbol is in it exactly when it is in FIRST of a symbol behind a nullable prefix |
| FirstSets.CascadeNullable | parser.py:103-107 | the cascade adds `𝜺` exactly when every symbol from its start is nullable |
| FirstSets.CascadeMembers | parser.py:103-109 | the cascade adds a non-`𝜺` symbol exactly when it is in FIRST of a later symbol behind a nullable run |
| FirstSets.NullableSequence | parser.py:99-107 | for a bounded FIRST map, a suffix not headed by `𝜺` holds `𝜺` only when all of its symbols are nullable nonterminals |
| FirstSets.TerminalAfterNullablePrefix | parser.py:103-109 | FIRST of `A b` with `A` nullable and FIRST(A) = {a, 𝜺} is `{a}`: the terminal `b` is not added |
| FollowSets.FollowPosition | parser.py:121-133 | one position: only grows FOLLOW within its bounds; adding something strictly shrinks the measure; adding nothing means the position's closure conditions hold; stays below every map above the input that satisfies them |
| FollowSets.FollowRuleStep | parser.py:120-133 | one production's part of a pass, with the same guarantees for all of its positions |
| FollowSets.FollowFixpoint | parser.py:113-137 | the loop ends; the result holds `#` for the start symbol, is closed under every production (FIRST of the rest minus `𝜺`, and FOLLOW of the left side when the rest is nullable or empty), is below every such map, holds no `𝜺`, and its keys and entries stay within the grammar's symbols and the FIRST entries |
| ParseTable.WriteColumns | parser.py:147-148 | writes the production into the given columns of its row and changes no other cell |
| ParseTable.WriteProduction | parser.py:143-150 | one production writes itself into exactly the columns it selects (FIRST minus `𝜺`, plus FOLLOW of its left side when `𝜺` is in FIRST) and changes no other cell |
| ParseTable.BuildTable | parser.py:139-152 | every cell of a nonterminal's row holds the last of its productions that selects that column, and every other row is empty |
| ParseTable.LastClaimNone | parser.py:141-150 | a cell is empty exactly when no production of its nonterminal selects its column |
| ParseTable.LastClaimSome | parser.py:141-150 | a filled cell holds a production that selects its column and that no later production overwrites |
| ParseTable.LL1Cells | parser.py:141-150 | when distinct productions select disjoint columns (LL(1)), a cell holds a production exactly when that production selects the column |
| ParseTable.LastClaimLater | parser.py:141-150 | a production that selects a column leaves in that cell itself or a later production |
| ParseTable.CellLaterProduction | parser.py:143-150 | for t in FIRST(p) other than `𝜺`, and for t in FOLLOW(A) when `𝜺` is in FIRST(p), cell (A, t) holds p or a later production of A |
| ParseTable.CellFromGrammar | parser.py:141-150 | a filled cell is in a nonterminal's row and holds one of its productions, which selects the cell's column |
| ParseTable.NoEpsColumn | parser.py:146-150 | when FOLLOW holds no `𝜺`, no cell has a `𝜺` column |
| Recognizer.PushReversed | parser.py:183-187 | pushes the production's symbols from last to first, skipping `𝜺` |
| Recognizer.Transition | parser.py:171-193 | one iteration equals `Step`: accept on `#` over `#`, pop both on equal tops, expand a nonterminal by its non-empty cell, stop with "no production" on an empty or missing cell, stop with bad behaviour otherwise |
| Recognizer.Loop | parser.py:165-193 | the loop from a configuration equals `Run`, recording one row before each step |
| Recognizer.Analysis | parser.py:162-193 | starts from the symbol stack `[#, begin]` and the reversed characters of the input followed by `#`, and equals `Run` from there |
| Recognizer.Body | parser.py:184-187 | the symbols a production derives are those of the production other than `𝜺` |
| Recognizer.PushedBody | parser.py:184-187 | what is pushed, read from the top, is the production's body |
| Recognizer.RunRows | parser.py:167-170 | the first row is the starting configuration, rows are numbered consecutively, there are at most `fuel` of them, and exactly `fuel` when the fuel runs out |
| Recognizer.RunChained | parser.py:167-193 | each row's configuration steps to the next row's |
| Recognizer.RunHalts | parser.py:172-193 | unless the fuel runs out, the last row's configuration halts with the run's verdict |
| Recognizer.RunNoProduction | parser.py:179-190 | a "no production" stop has a nonterminal on top whose cell for the lookahead is empty or missing |
| Recognizer.StepKeepsInputs | parser.py:172-187 | the input stack stays a non-empty prefix of the initial one: `#` is never popped |
| Recognizer.ChainKeepsEnd | parser.py:172-187 | when `#` is not a nonterminal, every row's symbol stack still has `#` at the bottom, whatever the cells hold |
| Recognizer.ChainKeepsBottom | parser.py:172-187 | when `#` is neither a nonterminal nor in any cell, the symbol stack keeps `#` at the bottom and nowhere else |
| Recognizer.StepNextShape | parser.py:174-187 | a step that goes on is a match, which pops both tops, or an expansion of the top nonterminal by its cell for the lookahead, which leaves the input unchanged |
| Recognizer.StepDerives | parser.py:174-187 | every step that goes on is a leftmost derivation step on the consumed input followed by the stack read from the top |
| Recognizer.AcceptedDerivation | parser.py:162-193 | when `#` is not in the input, is not a nonterminal, is in no table cell, and is not the start symbol, an accepted run is a leftmost derivation from `begin #` to the input followed by `#`, each expansion using the table's cell for its lookahead |
| Recognizer.AcceptBeforeEnd | parser.py:172-173 | with S -> i, the input `i#x` is accepted after three rows with `x` and the final `#` still unread: acceptance looks only at the two tops |
| LL1Parser.NewParser | parser.py:9-27 | the constructor fails with IndexError exactly when left-recursion elimination does. Otherwise, take the rewritten grammar with its classified terminals `Terminals(h, upper)` and nonterminals (its keys). A least FIRST map exists, and the constructor fails with FirstDiverges exactly when that map leaves a production spinning, where the source loops for ever. A built parser keeps the start symbol and the rewritten grammar, has exactly those terminals and nonterminals, and holds the least FIRST, the suffix FIRST map, the least FOLLOW and the table of last claims |
| LL1Parser.LeastSpins | parser.py:57-92 | two least FIRST maps have the same entries, so the same productions spin |
| LL1Parser.CellIsProduction | parser.py:139-152 | in a built parser every filled cell holds a non-empty production of its row's nonterminal |
| LL1Parser.NoProductionUnclaimed | parser.py:179-190 | a "no production" stop names a nonterminal, and no production of it selects the lookahead |
| LL1Parser.AppliedFromGrammar | parser.py:179-187 | every production a run applies is a production of the grammar for the nonterminal it replaces |

## Left out

- Printing is not modelled: the `rich` console and tables, the `print` calls, `show` and the `__main__` block do no computation the other stages use.
- Trace rows hold the step number, both stacks and the applied production as an (A, p) pair. The source's `"".join` display strings and its `A -> p` text are not modelled.
- `str.isupper` is a parameter `upper`, because Unicode case rules are outside the model.
- The dictionary and sets are modelled as values. The source mutates the grammar dictionary in place and aliases it with the constructor's argument; the model returns the new grammar instead.
- The dictionary's iteration order is modelled as list order. `set` iteration order (`self._nonTerminals` at line 141, FIRST and FOLLOW entries at lines 143 and 147) is not modelled. The result does not depend on it: the writes of one production all store that same production, and rows of different nonterminals are independent.
- Recognizer.Analysis: runs for at most `fuel` iterations (`OutOfFuel`), because the source's `while True` has no bound of its own.
- FirstSets.FirstFixpoint: reports a pass that adds nothing but clears the flag as `converged = false` instead of looping for ever.
- Recognizer.Analysis: reports Python's IndexError on an empty stack as `EmptyStack`, and the input as one symbol per character.
- LeftRecursion.LeftRecursionShape: requires that no original key N already has N' as a key too. Without that, the fresh entry would overwrite an original one, so the shape is stated under this precondition only.
- The `if terminal not in ...` guard at line 144 never fires, and has no counterpart in the model.
