# LL(1) parser core in Dafny

This project models the analytical engine of the Java class `LL1Parser`, which is a hand-written variant of predictive parsing from section 4.4 of Aho, Lam, Sethi and Ullman, *Compilers*. The model covers:

- the terminal alphabet;
- FIRST;
- FOLLOW;
- LL(1) table construction;
- the table-driven stack recogniser.

The model follows the code as written, not the textbook.

Symbols are `char`:

- an upper-case letter `A`..`Z` is a nonterminal;
- `/` is the empty production;
- `$` marks the end of input and the bottom of the stack.

A grammar is `Grammar(start, rules)`. `rules` maps every nonterminal to its productions in list order. Its key set is the set of nonterminals, as in the constructor's `nonTerminals = grammar.keySet()`.

The files:

- `wrappers.dfy`: `Option`.
- `grammar.dfy` (`Grammars`): the grammar and its well-formedness conditions, the terminal alphabet, the loop that computes it, the ascending key order of the `TreeMap`, and `indexOf`.
- `first.dfy` (`FirstSets`): FIRST, computed by plain recursion as the code does it. Fuel bounds the nonterminal expansions, and `None` stands for a missing rule (a `NullPointerException`) or for running out of fuel.
- `follow.dfy` (`FollowSets`): FOLLOW as one pass over the rules in ascending key order.
  - Only the first occurrence of the nonterminal in each production counts.
  - A non-trailing occurrence adds FIRST of the rest. When that contains `/`, `/` is dropped from the whole set and FOLLOW of the left-hand side is added.
  - A trailing occurrence adds FIRST of the left-hand side.
  - Fuel bounds the nested FOLLOW calls.
- `table.dfy` (`ParseTables`): the table.
  - There is one row for every key and for the start symbol, and the columns range over the terminals: a row holds only the terminals whose cell is filled.
  - A one-symbol production equal to the column goes straight into its cell.
  - Otherwise the cell holds the last production in list order whose FIRST contains the column, or whose FIRST contains `/` when the column is in FOLLOW of the row.
- `derivation.dfy` (`Derivations`): derivations of a grammar, rewriting one nonterminal at any position per step; they state what acceptance means.
- `recognizer.dfy` (`Recognizer`): the pushdown loop.
  - The stack is a sequence with its top at the end, starting as `$` under the start symbol. The current token is the character at the cursor, or `$` past the end.
  - The four printed messages are a `Verdict`.
  - `Run` is the loop bounded by fuel. `Analyze` builds the table, then runs the loop.
- `examples.dfy` (`Examples`): the grammars `S -> a` and `S -> aA, A -> bA | /`, worked out completely.

## Where the code departs from textbook LL(1) recognition

`Main.java:6` asks for an LL(1) grammar, but for such grammars the code does not always behave like a textbook LL(1) recogniser. The model follows the code in each of these cases:

- A textbook LL(1) recogniser accepts `a` for `S -> aA, A -> bA | /`, because FOLLOW(A) = `{$}` puts `/` in cell (A, $). This code rejects `a` with "unexpected token $ for non-terminal A". Columns are only ever terminals, and in a grammar without `$` in its productions `$` never is one, so a nonterminal on top at the end of input always fails (`Recognizer.EndOfInputRejects`, `Examples.RepeatAnalyze`).
- On the same grammar the code reports that `ab` is produced. That verdict is correct, but the run derives only the prefix `a` and stops with `b` unread. FOLLOW(A) comes out as `{a, b, /}`, not the textbook `{$}`, because the trailing `A` of `bA` and of `aA` adds FIRST(A) and FIRST(S) rather than FOLLOW of the left-hand side. Column `b` of row A first receives `bA`, and then `/` overwrites it. The empty production therefore pops `A`, and the stack is down to `$` before `b` is read (`Examples.RepeatFollowA`, `Examples.RepeatTable`).
- A textbook recogniser for `S -> a` rejects `aa` because of the trailing input. The code reports that `aa` is produced, because the loop stops as soon as the stack is `$` (`Examples.TrailingInputAccepted`). This is logged under Findings.

## Model

| member | source | states |
|---|---|---|
| Grammars.CalculateTerminals | Forditoprogramok/src/LL1Parser.java:73-86 | the three nested loops collect exactly the non-upper-case characters that occur in some production of some rule |
| Grammars.TerminalsExactly | Forditoprogramok/src/LL1Parser.java:73-86 | a character is a terminal if and only if it is not upper case and occurs in a production, so no nonterminal is a terminal and `/` is one whenever a rule has an empty alternative |
| Grammars.EndMarkerNotTerminal | Forditoprogramok/src/LL1Parser.java:73-86 | in a grammar whose productions never mention `$`, `$` is not a terminal |
| Grammars.Ascending | Forditoprogramok/src/LL1Parser.java:116 | the rules are visited in the sorted-map order: every key once, in strictly ascending order |
| Grammars.IndexOf | Forditoprogramok/src/LL1Parser.java:120 | `indexOf` returns -1 exactly when the symbol is absent, and otherwise the position of its first occurrence |
| FirstSets.First | Forditoprogramok/src/LL1Parser.java:88-109 | FIRST never holds a nonterminal; `/` is in FIRST only if the string can vanish (it is empty, starts with `/`, or starts with a nonterminal followed by a string that can vanish) |
| FirstSets.FirstWithin | Forditoprogramok/src/LL1Parser.java:88-109 | FIRST of a string made of nonterminals and the grammar's terminals lies within the terminals plus `/` |
| FirstSets.FirstOfAll | Forditoprogramok/src/LL1Parser.java:96-100 | the union over a rule's productions succeeds exactly when FIRST of each production does, and contains each of them |
| FirstSets.FirstOfAllMember | Forditoprogramok/src/LL1Parser.java:96-100 | every member of the union comes from FIRST of some production |
| FirstSets.FirstBaseCases | Forditoprogramok/src/LL1Parser.java:90-107 | FIRST of the empty string and of `/` is `{/}`; a string led by a terminal `c` has FIRST exactly `{c}`; a leading nonterminal without a rule fails |
| FirstSets.FirstLeadingNonterminal | Forditoprogramok/src/LL1Parser.java:95-104 | for a leading nonterminal X, a symbol is in FIRST exactly when it is not `/` and begins a production of X, or some production of X can begin with `/` and the symbol begins the rest; this covers `/` itself, which is in the result exactly when some production of X and the rest can both begin with it |
| FirstSets.FirstMonotone | Forditoprogramok/src/LL1Parser.java:88-109 | a FIRST set once computed is the same for any larger bound on recursion depth |
| FollowSets.Follow | Forditoprogramok/src/LL1Parser.java:111-134 | FOLLOW of the start symbol contains `$` |
| FollowSets.FollowMembers | Forditoprogramok/src/LL1Parser.java:111-134 | a symbol other than `/` is in FOLLOW(n) exactly when it is `$` and n is the start symbol, or some production of some rule contributes it through its first occurrence of n: FIRST of what follows, plus FOLLOW of the left-hand side when that can begin with `/`; an occurrence in last position, and also an empty production, contributes FIRST of the left-hand side |
| FollowSets.FollowWithin | Forditoprogramok/src/LL1Parser.java:111-134 | when every rule is for an upper-case nonterminal, FOLLOW lies within the terminals, `/` and `$`, so it never holds a nonterminal |
| FollowSets.FollowStepAt | Forditoprogramok/src/LL1Parser.java:119-130 | a production `u n v` with no `n` in `u` updates FOLLOW through this first occurrence alone: by FIRST(v) when `v` is not empty, trading a `/` in it for FOLLOW of the left-hand side after dropping `/` from the whole set, and by FIRST of the left-hand side when `v` is empty, whatever occurrences `v` itself holds |
| FollowSets.FollowStepAbsent | Forditoprogramok/src/LL1Parser.java:119-130 | a non-empty production not mentioning the nonterminal leaves its FOLLOW set unchanged (an empty production is not covered: its `indexOf` of -1 equals its length minus one, so it adds FIRST of the left-hand side) |
| FollowSets.FollowProdsAbsent | Forditoprogramok/src/LL1Parser.java:118-131 | a rule whose productions are all non-empty and none of which mentions the nonterminal leaves its FOLLOW set unchanged |
| FollowSets.FollowMonotone | Forditoprogramok/src/LL1Parser.java:111-134 | a FOLLOW set once computed is the same for any larger recursion bound |
| ParseTables.Choose | Forditoprogramok/src/LL1Parser.java:152-157 | the loop over a row's productions yields the last production selected for the column, or leaves the cell as it was when none is selected |
| ParseTables.Cell | Forditoprogramok/src/LL1Parser.java:147-159 | a computed cell exists only for a nonterminal with a rule, and any production it holds is one of that rule's |
| ParseTables.BuildTable | Forditoprogramok/src/LL1Parser.java:136-162 | the table is built exactly when every cell computes; its rows are the keys plus the start symbol; its columns are terminals; each stored production belongs to its row's rule |
| ParseTables.TableCell | Forditoprogramok/src/LL1Parser.java:147-159 | cell (A,t) is `t` when A has the production `t`; otherwise it is present exactly when some production is selected for `t`, and then it holds the last one selected |
| ParseTables.BuildTableExactly | Forditoprogramok/src/LL1Parser.java:136-162 | any table with the grammar's rows whose cells agree with the cell computation is the built table |
| ParseTables.StartWithoutRule | Forditoprogramok/src/LL1Parser.java:138-148 | a start symbol without a rule still gets a row, and the table can then be built only when there are no terminals |
| ParseTables.NoEndMarkerColumn | Forditoprogramok/src/LL1Parser.java:147 | when no production mentions `$`, no row has a `$` column |
| ParseTables.CellMonotone | Forditoprogramok/src/LL1Parser.java:147-159 | a cell once computed is the same for any larger recursion bound |
| ParseTables.BuildTableMonotone | Forditoprogramok/src/LL1Parser.java:136-162 | a table once built is the same for any larger recursion bound |
| ParseTables.BuildTableDeterministic | Forditoprogramok/src/LL1Parser.java:136-162 | building the table twice yields the same table |
| Recognizer.Init | Forditoprogramok/src/LL1Parser.java:169-174 | the stack starts with `$` at the bottom and does not yet accept |
| Recognizer.Step | Forditoprogramok/src/LL1Parser.java:176-216 | a step keeps `$` at the bottom, moves the cursor by zero or one, never stops with success, reports a missing cell only for the nonterminal on top, and reports "does not produce" only when the current token is `$`, which may also be a `$` inside the word |
| Recognizer.TerminalOnTop | Forditoprogramok/src/LL1Parser.java:180-197 | a terminal on top is matched exactly when it equals the token, which pops it and advances the cursor by one; otherwise the verdict is "does not produce" at `$` and "unexpected token" before it |
| Recognizer.ExpandPushesProduction | Forditoprogramok/src/LL1Parser.java:200-211 | expanding a nonterminal pops it, pushes nothing for `/`, leaves the state unchanged for an empty production (which pushes one empty token that is neither a terminal nor a nonterminal), and otherwise pushes the production so that it reads from the top down with its leftmost symbol on top, the rest of the stack and the cursor unchanged |
| Recognizer.SpinNeverEnds | Forditoprogramok/src/LL1Parser.java:176-216 | a state that a step leaves unchanged, as an unknown top symbol or an empty production leaves it, never reaches a verdict, whatever the bound on steps |
| Recognizer.NoColumnStops | Forditoprogramok/src/LL1Parser.java:200-215 | a nonterminal on top whose row lacks the current token stops the run with an unexpected token naming both |
| Recognizer.EndOfInputRejects | Forditoprogramok/src/LL1Parser.java:200-215 | in a grammar whose rules are all for upper-case nonterminals and whose productions never mention `$`, a nonterminal on top at the end of input ends the run with "unexpected token $" for that nonterminal |
| Recognizer.InitClassified | Forditoprogramok/src/LL1Parser.java:169-174 | the initial stack of a well-formed grammar holds only `$` and the start symbol, which has a rule |
| Recognizer.StepKeepsClassified | Forditoprogramok/src/LL1Parser.java:176-216 | for a well-formed grammar every stack symbol above `$` is a terminal or a key of the grammar, so each step that carries on matches or expands |
| Recognizer.ReachClassified | Forditoprogramok/src/LL1Parser.java:176-216 | on a well-formed grammar, every state the loop reaches from a classified one is classified, so a non-accepting state has a terminal or a nonterminal with a rule on top |
| Recognizer.AnalyzeNeverStalls | Forditoprogramok/src/LL1Parser.java:165-216 | from the initial state of a well-formed grammar, the loop never reaches a top symbol that is neither a terminal nor a nonterminal with a rule, so the branch that would spin forever is never taken |
| Recognizer.Run | Forditoprogramok/src/LL1Parser.java:176-219 | a missing-cell verdict names a nonterminal with a rule whose row lacks the token |
| Recognizer.Analyze | Forditoprogramok/src/LL1Parser.java:165-220 | a verdict is reached only after the table is built, and a missing-cell verdict names a row that lacks the token |
| Recognizer.StepSound | Forditoprogramok/src/LL1Parser.java:180-211 | every step keeps the sentential form (tokens read, then the stack from the top down) or rewrites one of its nonterminals by one of its productions |
| Recognizer.MatchKeepsForm | Forditoprogramok/src/LL1Parser.java:180-190 | matching a terminal moves it from the stack to the read part and keeps the sentential form |
| Recognizer.ExpandRewritesForm | Forditoprogramok/src/LL1Parser.java:200-211 | replacing the nonterminal on top by a production of its rule rewrites that nonterminal in the sentential form |
| Recognizer.RunSound | Forditoprogramok/src/LL1Parser.java:176-219 | a run that reports `Produced` has derived some prefix of the word from the start symbol |
| Recognizer.AnalyzeSound | Forditoprogramok/src/LL1Parser.java:165-220 | `Produced` means that some prefix of the word, not necessarily all of it, is in the language |
| Recognizer.RunComplete | Forditoprogramok/src/LL1Parser.java:176-219 | the loop with the complete-input test keeps the missing-cell guarantee of the loop as written |
| Recognizer.RunCompleteAgrees | Forditoprogramok/src/LL1Parser.java:176-219 | the corrected loop agrees with the loop as written except that a `Produced` of the latter may become an unexpected token |
| Recognizer.RunCompleteSound | Forditoprogramok/src/LL1Parser.java:176-219 | with the complete-input test, `Produced` means the whole word is derivable |
| Recognizer.AnalyzeCompleteSound | Forditoprogramok/src/LL1Parser.java:165-220 | with the complete-input test, the analysis reports `Produced` only for words in the language |
| Examples.SingleTable | Forditoprogramok/src/LL1Parser.java:136-162 | the table of `S -> a` is the single cell (S, a) holding `a` |
| Examples.SingleRuns | Forditoprogramok/src/LL1Parser.java:176-219 | on `S -> a` and the word `aa`, the loop as written reports `Produced` and the corrected loop an unexpected `a` |
| Examples.TrailingInputAccepted | Forditoprogramok/src/LL1Parser.java:176-219 | `S -> a` reports `aa` as produced, though `aa` is not in its language |
| Examples.SingleNotAa | Forditoprogramok/src/LL1Parser.java:176-219 | `aa` is not in the language of `S -> a` |
| Examples.TrailingInputRejected | Forditoprogramok/src/LL1Parser.java:176-219 | with the complete-input test, `S -> a` rejects `aa` at its second `a` |
| Examples.RepeatTerminals | Forditoprogramok/src/LL1Parser.java:73-86 | the terminals of the grammar with S -> aA and A -> bA or `/` are `a`, `b` and `/` |
| Examples.RepeatFirst | Forditoprogramok/src/LL1Parser.java:88-109 | on that grammar, FIRST(A) = {b, /} and FIRST(S) = {a} |
| Examples.RepeatFollowA | Forditoprogramok/src/LL1Parser.java:128-129 | on that grammar, FOLLOW(A) = {a, b, /}: the trailing case adds FIRST of the left-hand sides |
| Examples.RepeatFollowS | Forditoprogramok/src/LL1Parser.java:111-134 | on that grammar, FOLLOW(S) = {$} |
| Examples.RepeatTable | Forditoprogramok/src/LL1Parser.java:148-157 | the table of that grammar, whose cell (A, b) holds `/` because the later production overwrites `bA` |
| Examples.RepeatAnalyze | Forditoprogramok/src/LL1Parser.java:165-220 | on that grammar `ab` is produced, `a` is rejected with `$` unexpected for A, and `ac` with `c` unexpected for A |

## Left out

- Reading the grammar (`readGrammar`, file and `Scanner` I/O): the grammar is an input value. `Grammars.WellFormed` states what the lemmas that need it assume of a grammar; the loader does not check it. The loader only guarantees that productions are non-empty, since they come from splitting a line at whitespace; the model also covers empty productions, as FOLLOW and the loop treat them.
- `NumberedProduction`, `numberedGrammar` and `convertGrammarToNumberedGrammar`: process-wide diagnostic state that nothing reads.
- `drawParseTable` and `Main.java`: printing and a hard-coded call sequence.
- The printed messages: they are the `Verdict` values, and the printing itself is left out.
- The empty word: `Analyze` requires a non-empty word, because Java splits `""` into one empty token that is no character.
- `Character.isUpperCase`: only `A` to `Z` count as nonterminals.
- Termination: FIRST, FOLLOW, table construction and the loop are bounded by fuel. `None` stands both for running out of fuel and for the `NullPointerException` of a missing rule. The code diverges on left recursion, on cyclic FOLLOW dependencies, and on a stack symbol that is neither a terminal nor a key; these appear only as the fuel running out.
- Iteration order of the `HashSet` of terminals and of the `HashMap` rows: cells do not depend on it, so the table is a map.
- Recognizer.Analyze: its contract does not state completeness, i.e. that every word of an LL(1) grammar is produced. The code does not have this property (`Examples.RepeatAnalyze`), and no weaker form is proved.

## Findings

| source | as written | input that shows it | evidently intended | confidence | as-written member | corrected member |
|---|---|---|---|---|---|---|
| Forditoprogramok/src/LL1Parser.java:176-219 | the loop stops with "Grammar produces" as soon as the stack is `$`, whether or not input remains unread | grammar `S -> a`, word `aa` | report success only when the whole word has been read, and otherwise reject the first unread character | high; not executed | Examples.TrailingInputAccepted | Recognizer.AnalyzeCompleteSound |
