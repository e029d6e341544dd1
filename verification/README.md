# A verified model of a student compiler toolchain

The repository is a compiler course project in four stages, written in C++
with a Python test harness. This project models the core of each stage in
Dafny and proves properties of the model.

- **Lexical analyser generator.** A regular expression reader turns each
  pattern into a tree of alternatives, concatenations and starred groups
  (`lab1_regex.dfy`). An ε-NFA is built from the tree and run on a word
  (`lab1_nka.dfy`). The generator writes C++ statements that rebuild these
  automata in the generated lexer (`lab1_filegen.dfy`).
- **LR(1) parser generator.** The grammar is read and split into
  productions (`lab2_grammar.dfy`, `lab2_utils.dfy`), and FIRST sets are
  computed (`lab2_first.dfy`). An ε-NFA of LR(1) items is built
  (`lab2_enka.dfy`), its ε-environments are computed (`lab2_closure.dfy`),
  and the subset construction turns it into a DFA (`lab2_dka.dfy`). The
  table-driven parser reads the ACTION/GOTO table and runs it, recovering
  from errors at synchronisation tokens (`lab2_parser.dfy`).
- **Semantic checker for a C subset.** Types and conversions
  (`lab3_types.dfy`), scoped symbol tables and the error report
  (`lab3_data.dfy`), validation of constants (`lab3_validator.dfy`), the
  expression rules (`lab3_expr.dfy`), and the statement and declaration
  rules, the dispatch from a node's symbol to its rule, and the final checks
  for `main` and undefined functions (`lab3_checker.dfy`). The checker runs
  on the parse tree and symbol table of the code generator stage: the
  tree reader and the name normalisation the checker calls are defined only
  in `Lab4/src/Data.hpp`.
- **FRISC code generator for expressions.** The indentation-based parse
  tree reader (`lab4_tree.dfy`), the symbol table with name normalisation
  (`lab4_table.dfy`), and the expression routines. These fold constants
  into 32-bit values and emit FRISC instructions (`lab4_codegen.dfy`).
- **Test harness.** It builds the analyser, walks the test folders, polls
  the simulator, decodes register R6 as a two's-complement number and
  tallies the results (`harness.dfy`).

`text.dfy` holds string and number helpers shared by all stages:
decimal printing and reading, word splitting and 32-bit wrap-around.
`wrappers.dfy` holds `Option` and `Result`.

Where the source is evidently wrong, the model keeps the behaviour as
written in a member whose name ends in `AsWritten`. It proves the
discrepancy on a concrete input, and the rest of the model uses the
corrected member (see "## Findings"). Some other behaviour looks unintended
but its intent is unclear, so the model follows the code as written. The
lemmas that state it say so in their doc comments:

- `Checker.ParameterListRejected`: a parameter's type is read before any
  rule sets it.
- `Checker.DuplicateCheckSeesOneName`: the duplicate-parameter check never
  fires.
- `CheckerRules.DeclaredArrayInitializedAsScalar`: an initialised array is
  checked as a scalar.
- `Codegen.CallTargetIsEmpty`: a call goes to `F_` with an empty name.

## Model

| member | source | states |
|---|---|---|
| Harness.DecodeRegister | Lab4/teo-test-selenium.py:206-213 | Decoding R6's display succeeds exactly when the text is non-empty and all hex. The value is the raw hex value, less 2^(4·len) exactly when the top bit is set, so it always lies in the signed range of 4·len bits |
| Harness.HexValue | Lab4/teo-test-selenium.py:208 | `int(text, 16)` of a hex text of n digits is below 2^(4n) |
| Harness.EncodeRegister | Lab4/teo-test-selenium.py:204 | The simulator shows a register as exactly L hex digits |
| Harness.EncodeValue | Lab4/teo-test-selenium.py:204-208 | Reading the L-digit display back with base 16 gives the register value modulo 2^(4L) |
| Harness.DecodeEncode | Lab4/teo-test-selenium.py:204-213 | Round trip: for every v in the signed range of 4L bits, decoding the L-digit display of v gives v back |
| Harness.FirstReady | Lab4/teo-test-selenium.py:186-192 | The first poll index at or after k whose Load button is enabled, or limit+1 when none is. Every earlier poll saw it disabled |
| Harness.Poll | Lab4/teo-test-selenium.py:182-192 | The wait loop is stuck exactly when no poll from 0 to the limit sees Load enabled. Otherwise it stops at the first enabled poll, with counter equal to that index. It polls at most limit+1 times |
| Harness.BuildSimulatorConfig | Lab4/teo-test-selenium.py:87-97 | The simulator document carries the FRISC text as its program, cpuFreq "1000", memSize "256" and no I/O units |
| Harness.RunCase | Lab4/teo-test-selenium.py:136-231 | One folder passes exactly when both fixtures exist, generation succeeds, no automation step raises, the run finishes within the poll limit, R6 decodes, and it equals the stripped integer in test.out. Stop is clicked once, and only for a stalled run |
| Harness.RunCasePasses | Lab4/teo-test-selenium.py:202-222 | A run that finishes with R6 showing any 32-bit v, against a test.out holding v's decimal spelling, passes |
| Harness.RunCaseMismatch | Lab4/teo-test-selenium.py:218-225 | A finished run whose decoded R6 differs from the expected integer fails, and the failure carries both numbers |
| Harness.FailedNames | Lab4/teo-test-selenium.py:129-231 | Each folder adds at most one name to tests_failed |
| Harness.TallyCoversEveryFolder | Lab4/teo-test-selenium.py:125-234 | Every folder is counted exactly once, as passed or as failed |
| Harness.RunAll | Lab4/teo-test-selenium.py:125-234 | The loop from FIRST_FOLDER_OFFSET gives passed plus failed equal to the total it reports. The failed list holds exactly the failing folders, in run order. There are no more stop clicks than failures |
| Harness.Insert | Lab4/teo-test-selenium.py:120 | Inserting into a sorted list keeps it sorted and adds exactly that one element |
| Harness.SortNames | Lab4/teo-test-selenium.py:119-120 | `all_items.sort()`: the result is sorted and is a permutation of the listing |
| Harness.KeepFolders | Lab4/teo-test-selenium.py:121-123 | The filter keeps each test folder with its multiplicity, drops everything else, and keeps the order |
| Harness.TestFolders | Lab4/teo-test-selenium.py:119-123 | The test folders are sorted. They are exactly the listed directories other than .DS_Store, each as often as listed |
| Harness.RunHarness | Lab4/teo-test-selenium.py:99-146 | A failed build ends everything with its stderr, before any folder runs. Otherwise every test folder is run and the tally covers them all |
| Harness.SummaryLine | Lab4/teo-test-selenium.py:234-236 | The final report line starts with "Execution finished: " |
| Harness.SummaryLineReadsBack | Lab4/teo-test-selenium.py:234-236 | The report line carries both counts: after "Execution finished: ", the text before the first '/' spells the number passed, and the text between it and " tests passed." spells the number of folders less the offset |
| Harness.SummaryLineCounts | Lab4/teo-test-selenium.py:234-236 | Two report lines are equal exactly when they report the same number passed out of the same number of folders |
| Harness.ReportParts | Lab4/teo-test-selenium.py:236 | In an f-string of the form opening, x, '/', y, closing, the first '/' after the opening separates the spelling of x from the spelling of y |
| Harness.ReportCounts | Lab4/teo-test-selenium.py:236 | Lines of that form with the same opening and closing are equal exactly when both counts are equal |
| Harness.StrLessEqTotal | Lab4/teo-test-selenium.py:120 | Python's string order, which the sort uses, is total |
| Harness.StrLessEqTrans | Lab4/teo-test-selenium.py:120 | That order is transitive |
| Regexes.Delimiter | Lab1-LexicalAnalyzer/src/Regex.cpp:58-68 | deliminator() fails exactly on an atomic node. Otherwise it gives the bar character for alternatives and the NUL join for concatenations |
| Regexes.StripKleen | Lab1-LexicalAnalyzer/src/Regex.cpp:139-142 | The whole trailing run of '*' is removed and nothing else: what remains is a prefix that no longer ends in '*' |
| Regexes.AddChild | Lab1-LexicalAnalyzer/src/Regex.cpp:196-211 | Adding a child only extends the children. Children that are non-empty and not flattenable stay that way |
| Regexes.Grouped | Lab1-LexicalAnalyzer/src/Regex.cpp:126-160 | A separator or join node gets the kind found and exactly the collected children. It is well shaped, and it is empty when it has no children (line 159) |
| Regexes.Parse | Lab1-LexicalAnalyzer/src/Regex.cpp:42-50 | The child constructor: an empty span gives an empty node. Any node it returns is well shaped, meaning no empty children and no child that should have been flattened |
| Regexes.AssertType | Lab1-LexicalAnalyzer/src/Regex.cpp:126-160 | The separator pass, then the join pass, then the atom. Every result is well shaped |
| Regexes.Atom | Lab1-LexicalAnalyzer/src/Regex.cpp:137-157 | The atomic case, including a bracketed pattern collapsing into its inside, gives a well-shaped node |
| Regexes.Vectorize | Lab1-LexicalAnalyzer/src/Regex.cpp:166-238 | The collected children stay well formed for the delimiter. "Delimiter found" is never reset. With no delimiter there are no children |
| Regexes.CText | Lab1-LexicalAnalyzer/src/Regex.cpp:32-34 | strlen cuts the text at its first NUL, so the prefix kept holds no NUL |
| Regexes.FromString | Lab1-LexicalAnalyzer/src/Regex.cpp:29-36 | Regex(std::string) returns only well-shaped trees |
| Regexes.FromCString | Lab1-LexicalAnalyzer/src/Regex.cpp:39 | Regex(const char*) returns only well-shaped trees, flagged as string constants |
| Regexes.Reduce | Lab1-LexicalAnalyzer/src/Regex.cpp:78-93 | reduce() of a starred node ends in '*' |
| Regexes.ReduceShape | Lab1-LexicalAnalyzer/src/Regex.cpp:78-93 | reduce() of a group is its children's reductions joined by the delimiter, bracketed when it is an unconstant alternative or starred, then '*' when starred. An atom is its text, then '*' when starred. A starred group starts with '(' and has ')' just before the star |
| Regexes.FaultStops | Lab1-LexicalAnalyzer/src/Regex.cpp:173-187 | A brace or bracket fault ahead of the scan position makes vectorize_string throw |
| Regexes.ThrowsEverywhere | Lab1-LexicalAnalyzer/src/Regex.cpp:166-217 | A pattern with any brace or bracket fault fails through every constructor |
| Regexes.UnbalancedBracketsThrow | Lab1-LexicalAnalyzer/src/Regex.cpp:184-216 | Unbalanced brackets, either a ')' too many or a '(' left open, make the reader throw |
| Regexes.ImproperIncludeThrows | Lab1-LexicalAnalyzer/src/Regex.cpp:173-217 | A nested '{', a stray '}' or an unclosed '{' makes the reader throw |
| Regexes.SplitsIff | Lab1-LexicalAnalyzer/src/Regex.cpp:189-196 | A pass that succeeds reports "delimiter found" exactly when one was already found or a split point lies ahead. Delimiters inside brackets or braces do not count |
| Regexes.NoSplitPass | Lab1-LexicalAnalyzer/src/Regex.cpp:166-237 | Conversely, a fault-free pass with no split point ahead collects nothing and leaves the flag as it was |
| Regexes.KindBySplitPoints | Lab1-LexicalAnalyzer/src/Regex.cpp:126-158 | The top-level split points fix a parsed pattern's kind. A bar character outside brackets and braces makes it a separator node. Otherwise a join point makes it a join node. Otherwise it is read as an atom |
| Regexes.StripStars | Lab1-LexicalAnalyzer/src/Regex.cpp:139-141 | A pattern ending in a run of stars after a non-star loses exactly that run |
| Regexes.KleenRunCollapses | Lab1-LexicalAnalyzer/src/Regex.cpp:139-145 | A symbol followed by k stars is one atom, starred when k > 0, and reduces to the symbol with at most one '*' |
| Regexes.ParenthesisedCollapses | Lab1-LexicalAnalyzer/src/Regex.cpp:143-157 | "(t)" followed by stars takes over the inside's kind, span and children, and is starred if either is. It is empty if the inside is, and fails if the inside fails |
| Regexes.FlattenKeepsReduce | Lab1-LexicalAnalyzer/src/Regex.cpp:201-211 | With the corrected rule, flattening a child with the same delimiter leaves the parent's reduction unchanged, and an empty child is dropped |
| Regexes.AddChildAsWritten | Lab1-LexicalAnalyzer/src/Regex.cpp:201-211 | As written, a same-delimiter child is flattened even when starred. The result agrees with AddChild on every other child |
| Regexes.FlattenDropsKleenAsWritten | Lab1-LexicalAnalyzer/src/Regex.cpp:203-210 | Counterexample: as written, the starred group (ab)* under a concatenation loses its star, so the parent reduces as "ab". AddChild keeps the starred group |
| Regexes.SymbolsConcatenate | Lab1-LexicalAnalyzer/src/Regex.cpp:166-237 | Two or more plain symbols parse as a join node with one atom per symbol |
| Regexes.StarredPairParse | Lab1-LexicalAnalyzer/src/Regex.cpp:143-157 | "(ab)*" parses as the starred concatenation of a and b |
| Nka.At | Lab1-LexicalAnalyzer/src/automata.cpp:85-91 | get(id) answers the stored state for an id inside the vector |
| Nka.MakeState | Lab1-LexicalAnalyzer/src/automata.cpp:93-96 | make_state appends one blank state and returns the old size as its id. Every earlier state and edge is kept |
| Nka.Pad | Lab1-LexicalAnalyzer/src/automata.cpp:105-106 | link's loop grows the vector to the size needed. The old states are kept, and the new ones are blank |
| Nka.Link | Lab1-LexicalAnalyzer/src/automata.cpp:104-111 | link grows the vector to cover both ids and adds the edge s1 to s2 on the symbol, as an ε-edge for EPS. Kleen marks are kept, as is validity |
| Nka.LinkAddsOneEdge | Lab1-LexicalAnalyzer/src/automata.cpp:104-111 | After link, an edge exists exactly when it existed before or is the one linked |
| Nka.Add | Lab1-LexicalAnalyzer/src/automata.cpp:98-102 | add creates one state, reached from the given state on the symbol, and returns its id |
| Nka.MarkKleen | Lab1-LexicalAnalyzer/src/automata.cpp:199-200 | Marking a starred part's exit changes no edge and sets its mark |
| Nka.Symbol | Lab1-LexicalAnalyzer/src/Regex.hpp:101 | The symbol an atom contributes, what get() answers. No file defines get(), so the definition is assumed: the atom's first character, or EPS for an empty span |
| Nka.Build | Lab1-LexicalAnalyzer/src/automata.cpp:179-206 | parseRegex only adds states, and returns an exit that exists |
| Nka.BuildBody | Lab1-LexicalAnalyzer/src/automata.cpp:182-197 | The three cases of the switch only add states, and return an exit that exists |
| Nka.Branch | Lab1-LexicalAnalyzer/src/automata.cpp:186-187 | Each alternative enters at the one state it creates first, and its exit exists |
| Nka.Alternatives | Lab1-LexicalAnalyzer/src/automata.cpp:184-188 | A separator node gets one (entry, exit) pair per alternative |
| Nka.Sequence | Lab1-LexicalAnalyzer/src/automata.cpp:189-193 | A join node chains its pieces. With no pieces the exit is the entry and nothing is added |
| Nka.BuildGrows | Lab1-LexicalAnalyzer/src/automata.cpp:179-206 | Building keeps every earlier state and edge, and keeps every edge pointing inside the vector |
| Nka.BodyGrows | Lab1-LexicalAnalyzer/src/automata.cpp:182-197 | The same for the switch alone |
| Nka.AlternativesGrows | Lab1-LexicalAnalyzer/src/automata.cpp:184-188 | The same for the alternatives loop |
| Nka.SequenceGrows | Lab1-LexicalAnalyzer/src/automata.cpp:189-193 | The same for the join loop |
| Nka.AlternativesShareExit | Lab1-LexicalAnalyzer/src/automata.cpp:185-187 | Every alternative is entered by ε from the node's entry, and leaves by ε into the one shared return state |
| Nka.AlternativesEntryBound | Lab1-LexicalAnalyzer/src/automata.cpp:186-187 | Every alternative's entry is a state the call creates |
| Nka.AlternativesFreshEntries | Lab1-LexicalAnalyzer/src/automata.cpp:186-187 | The entries are distinct and increase in creation order |
| Nka.KleenLoopsBack | Lab1-LexicalAnalyzer/src/automata.cpp:199-203 | A starred part is marked at its exit, loops back by ε to its entry, and returns the entry as its exit |
| Nka.GetTransitions | Lab1-LexicalAnalyzer/src/automata.cpp:113-116 | For any vector of states (the object after operator= is `Assign`), get_transitions gives the ε-set for EPS and otherwise the row for the symbol. It fails (out_of_range) exactly when that row is missing. What it returns is exactly the set of successors |
| Nka.TransitionSymbols | Lab1-LexicalAnalyzer/src/automata.cpp:118-124 | For any vector of states, EPS is reported exactly when there is an ε-edge or an EPS row. Any other symbol is reported exactly when it has a row |
| Nka.SymbolsAreEdges | Lab1-LexicalAnalyzer/src/automata.cpp:118-124 | In a valid vector, including the one `Assign` leaves, the symbols reported are exactly those on which an edge leaves |
| Nka.FromRegex | Lab1-LexicalAnalyzer/src/automata.cpp:41-44 | The states operator=(Regex) builds before its reset(): a well-formed automaton whose start is state 0 |
| Nka.Assign | Lab1-LexicalAnalyzer/src/automata.cpp:41-46 | The whole of operator=(Regex), reset() included: the built states, each with the ε-set the walk from the start left in it. The result is well formed, the walk's sets are sound, and state 0 holds itself and is evaluated |
| Nka.InstallValid | Lab1-LexicalAnalyzer/src/automata.cpp:136-143 | Writing the walk's sets back into the states keeps every ε-edge inside the vector |
| Nka.AssignedStartReportsEps | Lab1-LexicalAnalyzer/src/automata.cpp:113-124 | After operator=, the start state reports EPS, and its ε-transitions hold itself |
| Nka.AssignedSymbolA | Lab1-LexicalAnalyzer/src/automata.cpp:113-146 | For the pattern "a", the built start state reports only 'a', and after reset() it reports EPS and 'a', with get_transitions(0, EPS) = {0} |
| Nka.FromPattern | Lab1-LexicalAnalyzer/src/automata.cpp:26-28 | operator=(std::string) succeeds exactly when the pattern parses, and otherwise fails with the parser's exception. On success the object is the one operator=(Regex) leaves after its reset(), and state 0 holds itself in its ε-set |
| Nka.Closure | Lab1-LexicalAnalyzer/src/automata.cpp:132-146 | The corrected get_eps_neighbors: the ε-reachable states of x, always including x |
| Nka.Close | Lab1-LexicalAnalyzer/src/automata.cpp:148-155 | The corrected unionize: it contains the set it is given |
| Nka.CloseClosedUnder | Lab1-LexicalAnalyzer/src/automata.cpp:132-155 | The corrected union of closures is closed under ε: with each state it holds, it holds that state's whole ε-closure, which the walk as written fails to store on an ε-cycle |
| Nka.AcceptingClosed | Lab1-LexicalAnalyzer/src/automata.cpp:70-73 | For a closed set, push_sym's count is nonzero exactly when the end state is in the set |
| Nka.AcceptingReachesEnd | Lab1-LexicalAnalyzer/src/automata.cpp:139-140 | A closed set with an acceptable member contains the end state |
| Nka.RunIsClosed | Lab1-LexicalAnalyzer/src/automata.cpp:168-177 | Every set that a non-empty word reaches is the closure of a set of states |
| Nka.AcceptsIffEnd | Lab1-LexicalAnalyzer/src/automata.cpp:54-74 | A word is accepted exactly when consuming it from the start set reaches the end state |
| Nka.Reset | Lab1-LexicalAnalyzer/src/automata.cpp:80-83 | reset leaves one stack entry, and it holds the start state |
| Nka.PushSymAsWritten | Lab1-LexicalAnalyzer/src/automata.cpp:62-74 | As written, push_sym appends an entry but consumes from and reports on the FIRST entry, because currentState() is stack.front() |
| Nka.PushSym | Lab1-LexicalAnalyzer/src/automata.cpp:66-74 | Corrected push_sym: the entry appended is the newest entry consumed on the symbol, and the answer is whether that entry holds an acceptable state |
| Nka.PopSym | Lab1-LexicalAnalyzer/src/automata.cpp:76-78 | pop_sym removes exactly one entry |
| Nka.PushThenPop | Lab1-LexicalAnalyzer/src/automata.cpp:66-78 | pop_sym after push_sym restores the stack, both as written and corrected |
| Nka.EvalRuns | Lab1-LexicalAnalyzer/src/automata.cpp:54-60 | The corrected eval answers whether the word is accepted. For the empty word, ret is never set |
| Nka.EvalAsWrittenIgnoresInput | Lab1-LexicalAnalyzer/src/automata.cpp:54-74 | eval as written gives the same answer for every non-empty word: whether the start set accepts |
| Nka.EvalAsWrittenRejectsA | Lab1-LexicalAnalyzer/src/automata.cpp:62-74 | Counterexample: for the pattern "a" and the word "a", the corrected eval accepts and eval as written rejects |
| Nka.FreshMemo | Lab1-LexicalAnalyzer/src/automata.cpp:41-46 | A freshly built automaton stores the ε-sets as built and has no evaluated or acceptable flag set |
| Nka.GetEpsNeighbors | Lab1-LexicalAnalyzer/src/automata.cpp:132-146 | The walk as written. It marks x evaluated and answers x's stored set, which always holds x. An already-evaluated state answers its stored set plus itself and changes no flag |
| Nka.EvaluateEps | Lab1-LexicalAnalyzer/src/automata.cpp:136-141 | The first visit stores the union as x's set and answers it |
| Nka.Unionize | Lab1-LexicalAnalyzer/src/automata.cpp:148-155 | unionize as written contains its argument and only adds evaluated flags |
| Nka.UnionLoop | Lab1-LexicalAnalyzer/src/automata.cpp:151-152 | The loop of unionize only grows the union and the evaluated flags |
| Nka.ConsumeAsWritten | Lab1-LexicalAnalyzer/src/automata.cpp:168-177 | consume as written contains every successor on the symbol |
| Nka.ResetAsWritten | Lab1-LexicalAnalyzer/src/automata.cpp:80-83 | reset through the walk leaves one entry holding the start state, which is now evaluated |
| Nka.GetEpsSound | Lab1-LexicalAnalyzer/src/automata.cpp:132-146 | The walk as written never answers a state outside x's ε-closure, and never flags a state that cannot reach the end |
| Nka.ConsumeAsWrittenSound | Lab1-LexicalAnalyzer/src/automata.cpp:168-177 | consume as written never leaves the corrected consume's set |
| Nka.ResetAsWrittenSound | Lab1-LexicalAnalyzer/src/automata.cpp:80-83 | reset as written never leaves the start state's ε-closure |
| Nka.GetEpsFrozen | Lab1-LexicalAnalyzer/src/automata.cpp:136-143 | Once a state is evaluated and holds itself, no later walk changes its stored set or its acceptable flag |
| Nka.UnionLoopFrozen | Lab1-LexicalAnalyzer/src/automata.cpp:151-152 | The same across the loop of unionize |
| Nka.CycleReset | Lab1-LexicalAnalyzer/src/automata.cpp:132-146 | On the ε-cycle 0→1→0 with 0→2→3, reset stores {0, 1, 2} for state 1 and leaves it unflagged |
| Nka.WalkMissesReachableAsWritten | Lab1-LexicalAnalyzer/src/automata.cpp:132-146 | Counterexample: after reset, state 1's stored set misses the end state 3 and 1 is never flagged acceptable, though its ε-closure is {0, 1, 2, 3} |
| FileGen.ConvertToRaw | Lab1-LexicalAnalyzer/src/filegen_defs.hpp:33-40 | The output is the input lengthened by one backslash per double quote, backslash or single quote. Every such character comes out as the second half of a backslash pair |
| FileGen.RawRoundTrip | Lab1-LexicalAnalyzer/src/filegen_defs.hpp:33-40 | Reading the escaped literal back, with each backslash pair standing for its second character, gives the original text |
| FileGen.RawOnto | Lab1-LexicalAnalyzer/src/filegen_defs.hpp:33-40 | Every well-escaped body is the escaping of what it reads back to |
| FileGen.RawConcat | Lab1-LexicalAnalyzer/src/filegen_defs.hpp:35-38 | Escaping works character by character, so it distributes over concatenation |
| FileGen.RawPlain | Lab1-LexicalAnalyzer/src/filegen_defs.hpp:35-38 | Text with no special character is copied unchanged |
| FileGen.CStr | Lab1-LexicalAnalyzer/src/filegen_defs.hpp:20-26 | What %s prints of an argument: the prefix before its first NUL |
| FileGen.IdStatementRoundTrip | Lab1-LexicalAnalyzer/src/filegen_defs.hpp:20-23 | Every "AUTOMATA[%d]..." statement gives back its id (the digits up to the first ']') and its printed string argument |
| FileGen.IdStatementInjective | Lab1-LexicalAnalyzer/src/filegen_defs.hpp:20-23 | Two statements from the same template are equal only when their ids and printed arguments are |
| FileGen.AddCommand | Lab1-LexicalAnalyzer/src/filegen_defs.hpp:20 | add_command's line reads back as the automaton id and the command text |
| FileGen.InitAutomata | Lab1-LexicalAnalyzer/src/filegen_defs.hpp:22 | init_automata's line reads back as the id and the pattern |
| FileGen.SetName | Lab1-LexicalAnalyzer/src/filegen_defs.hpp:23 | set_name's line reads back as the id and the name |
| FileGen.SetNameInjective | Lab1-LexicalAnalyzer/src/filegen_defs.hpp:23 | Different ids or names give different set_name lines |
| FileGen.WrappedRoundTrip | Lab1-LexicalAnalyzer/src/filegen_defs.hpp:24-26 | A fixed head, the printed argument and a fixed tail read back as the argument |
| FileGen.SetStart | Lab1-LexicalAnalyzer/src/filegen_defs.hpp:24 | set_start's line reads back as the state name |
| FileGen.AddState | Lab1-LexicalAnalyzer/src/filegen_defs.hpp:25 | add_state's line reads back as the state name |
| FileGen.AddSymbol | Lab1-LexicalAnalyzer/src/filegen_defs.hpp:26 | add_symbol's line reads back as the token name |
| FileGen.NameIdRoundTrip | Lab1-LexicalAnalyzer/src/filegen_defs.hpp:21 | A "TABLE[...].push_back(%d);" statement gives back its state name and its id. The id is read after the last '(' |
| FileGen.AddAutomata | Lab1-LexicalAnalyzer/src/filegen_defs.hpp:21 | add_automata's line reads back as the state and the id |
| FileGen.AddAutomataInjective | Lab1-LexicalAnalyzer/src/filegen_defs.hpp:21 | Different states or ids give different add_automata lines |
| Text.IntToDecimal | Lab4/src/izrazProcessor.cpp:12 | to_string of an integer: non-empty, with a leading '-' exactly when the value is negative |
| Text.NatToDecimal | Lab4/src/izrazProcessor.cpp:12 | The digits of a natural number: non-empty, all digits, no leading zero |
| Text.DecimalRoundTrip | Lab4/src/izrazProcessor.cpp:12 | Reading the digits that to_string prints gives the number back |
| Text.Wrap32 | Lab4/src/izrazProcessor.cpp:8-9 | Storing into a 32-bit int keeps the value modulo 2^32 in the signed range, and leaves a value that already fits unchanged |
| Text.Stoi | Lab3/src/SemanticAnalyzer.hpp:13-25 | stoi succeeds only with the leading integer of the text, and only when it fits an int. Otherwise it throws (None) |
| Text.LeadingIntegerOfDecimal | Lab3/src/SemanticAnalyzer.hpp:15 | stoi's reading gives back the decimal spelling of any integer |
| Text.PythonInt | Lab4/teo-test-selenium.py:216 | int() of stripped text succeeds only on non-empty text |
| Text.PythonIntOfDecimal | Lab4/teo-test-selenium.py:216 | int() reads back the decimal spelling of any integer |
| Text.TrimLeft | Lab4/teo-test-selenium.py:216 | The leading white space, all of it and nothing more, is removed |
| Text.TrimRight | Lab4/teo-test-selenium.py:216 | The trailing white space, all of it and nothing more, is removed |
| Text.Strip | Lab4/teo-test-selenium.py:216 | str.strip() leaves text that neither starts nor ends with white space |
| Text.Fields | Lab3/src/Data.hpp:100-102 | Reading words with `>>` gives non-empty words without white space |
| Text.FieldsCons | Lab3/src/Data.hpp:100-102 | A word followed by white space or by nothing is the first word read |
| Text.FieldsSkipSpace | Lab3/src/Data.hpp:100-102 | `>>` skips leading white space |
| Text.FieldsThree | Lab3/src/Data.hpp:100-102 | Three space-free words joined by single spaces read back as exactly those three words |
| Text.StrLessTotal | Lab2-SyntaxAnalyzer/src/automat.hpp:194 | std::string's order compares any two different strings |
| Text.StrLessTransitive | Lab2-SyntaxAnalyzer/src/automat.hpp:194 | std::string's order is transitive |
| Text.SortedStrings | Lab2-SyntaxAnalyzer/src/automat.hpp:194 | Iterating a std::set of strings visits each member once, in strictly ascending order |
| LrUtils.EpsIsEndSym | Lab2-SyntaxAnalyzer/src/utils.hpp:29-30 | eps and end_sym are both "$", so they cannot be told apart |
| LrUtils.MakeUnion | Lab2-SyntaxAnalyzer/src/utils.hpp:37-43 | make_union holds exactly the elements of either set |
| LrUtils.Reverse | Lab2-SyntaxAnalyzer/src/utils.hpp:45-51 | reverse has the same length, with element i taken from the mirrored position |
| LrUtils.ReverseReverse | Lab2-SyntaxAnalyzer/src/utils.hpp:45-51 | reverse is its own inverse |
| LrUtils.ReverseByLoop | Lab2-SyntaxAnalyzer/src/utils.hpp:45-51 | The index loop of reverse computes the reversal |
| LrUtils.ToInt | Lab2-SyntaxAnalyzer/src/utils.hpp:102-108 | to_int always yields a 32-bit int: each step's value·10 + (c − '0') is stored into the int |
| LrUtils.ToIntOfDigits | Lab2-SyntaxAnalyzer/src/utils.hpp:102-108 | On digits whose value fits an int, to_int is the decimal value |
| LrUtils.ConsumeNextWord | Lab2-SyntaxAnalyzer/src/utils.hpp:121-134 | The word holds no delimiter. With a delimiter, word + delimiter + rest is the input. Without one, the word is the whole input and nothing remains |
| LrUtils.Words | Lab2-SyntaxAnalyzer/src/utils.hpp:145-152 | forEachWord hands on only non-empty words without the delimiter |
| LrUtils.WordsOfWord | Lab2-SyntaxAnalyzer/src/utils.hpp:145-152 | Text without a delimiter is one word, or none when empty |
| LrUtils.FieldsOfJoin | Lab2-SyntaxAnalyzer/src/utils.hpp:169-177 | Joining space-free words with single spaces and reading them back gives the words |
| LrUtils.ConcatToStringReversed | Lab2-SyntaxAnalyzer/src/utils.hpp:169-177 | concatToString_r joins the elements from last to first, with the delimiter between neighbours and none after the last |
| Grammars.CharAt | Lab2-SyntaxAnalyzer/src/grammar.hpp:41-43 | `line[i]` for i up to the length: the character itself, and the terminating NUL at the length |
| Grammars.Split | Lab2-SyntaxAnalyzer/src/grammar.hpp:62-70 | The character loop cuts the text into at least one piece, none holding the delimiter. Empty pieces are kept |
| Grammars.SplitJoin | Lab2-SyntaxAnalyzer/src/grammar.hpp:62-70 | Joining the pieces with the delimiter rebuilds the text |
| Grammars.SplitOfJoin | Lab2-SyntaxAnalyzer/src/grammar.hpp:62-70 | Splitting delimiter-free pieces joined by the delimiter gives the pieces back |
| Grammars.SplitOfPiece | Lab2-SyntaxAnalyzer/src/grammar.hpp:62-70 | Text without the delimiter is one piece |
| Grammars.FirstNonEmpty | Lab2-SyntaxAnalyzer/src/grammar.hpp:95 | The first non-empty piece, or "" exactly when every piece is empty |
| Grammars.ReadSymbol | Lab2-SyntaxAnalyzer/src/grammar.hpp:86-105 | readSymbol throws exactly on a line shorter than removeFirst. Every piece after the prefix joins the container. The result is the first non-empty piece that a space ends |
| Grammars.ReadSymbolFirst | Lab2-SyntaxAnalyzer/src/grammar.hpp:43-44 | "%V a" declares a but gives "" as the start symbol. "%V a ..." gives a as the start symbol |
| Grammars.ProductionOf | Lab2-SyntaxAnalyzer/src/grammar.hpp:58-72 | A production line's symbols after the first character are stored reversed |
| Grammars.AddProduction | Lab2-SyntaxAnalyzer/src/grammar.hpp:74-75 | The production is appended to its left side's list and numbered with the next id. Nothing else changes |
| Grammars.ReadLinesNumbered | Lab2-SyntaxAnalyzer/src/grammar.hpp:39-79 | Reading lines keeps every stored production numbered below the counter. The counter grows by the number of production lines |
| Grammars.ParseGrammarNumbered | Lab2-SyntaxAnalyzer/src/grammar.hpp:25-84 | After the constructor, the ids run from 0 to the number of production lines, and every production has one |
| Grammars.ProductionLineRule | Lab2-SyntaxAnalyzer/src/grammar.hpp:56-76 | A line " X Y Z" appends [Z, Y, X] to the current left side, with id ID_global, and leaves the current left side as it was |
| Grammars.AddNewStartSymbol | Lab2-SyntaxAnalyzer/src/grammar.hpp:192-197 | The new symbol becomes the start symbol and joins the nonterminals. Its only production is the old start symbol. Nothing else changes |
| Grammars.AddNewStartSymbolKeepsOthers | Lab2-SyntaxAnalyzer/src/grammar.hpp:192-197 | Every other symbol keeps its productions |
| Grammars.StartItem | Lab2-SyntaxAnalyzer/src/grammar.hpp:211-217 | An item built from a right side has nothing before the dot |
| Grammars.SymbolAfterDot | Lab2-SyntaxAnalyzer/src/grammar.hpp:248-250 | The next symbol is the back of after_dot, or end_sym when after_dot is empty |
| Grammars.ShiftDotR | Lab2-SyntaxAnalyzer/src/grammar.hpp:237-241 | shift_dot_r moves the next symbol to the end of before_dot. The left side and the lookahead are kept |
| Grammars.ShiftDotL | Lab2-SyntaxAnalyzer/src/grammar.hpp:242-246 | shift_dot_l moves the last symbol before the dot back to after_dot. The left side and the lookahead are kept |
| Grammars.ShiftDotRoundTrip | Lab2-SyntaxAnalyzer/src/grammar.hpp:237-246 | shift_dot_l undoes shift_dot_r, and shift_dot_r undoes shift_dot_l |
| Grammars.ShiftDotKeepsRightSide | Lab2-SyntaxAnalyzer/src/grammar.hpp:237-241 | Moving the dot keeps the production's right side, read in order |
| Grammars.CompleteItems | Lab2-SyntaxAnalyzer/src/grammar.hpp:252-254 | isComplete holds exactly when after_dot is empty or its next symbol is "$" itself |
| Grammars.ShiftAll | Lab2-SyntaxAnalyzer/src/grammar.hpp:237-254 | Moving the dot over the whole right side completes the item and leaves the right side in order before the dot |
| FirstSets.BeginsSym | Lab2-SyntaxAnalyzer/src/grammar.hpp:107-125 | startsWith(sym1, sym2) caches its answer under (sym1, sym2) and answers from the cache when an entry exists. A symbol always begins with itself. Cached entries are never changed |
| FirstSets.BeginsAny | Lab2-SyntaxAnalyzer/src/grammar.hpp:118-121 | The loop over sym1's productions only raises the entry to true, and changes no other entry |
| FirstSets.BeginsWord | Lab2-SyntaxAnalyzer/src/grammar.hpp:127-142 | startsWith(word, sym2) only adds cache entries. On the empty word it answers whether sym2 is the end marker |
| FirstSets.StartsWith | Lab2-SyntaxAnalyzer/src/grammar.hpp:107-125 | The public query answers from the cache when it can, caches what it computes, and never changes the FIRST cache |
| FirstSets.IsVanishing | Lab2-SyntaxAnalyzer/src/grammar.hpp:147-149 | isVanishing(sym) is startsWith(sym, "$"), and its answer is cached |
| FirstSets.IsVanishingWord | Lab2-SyntaxAnalyzer/src/grammar.hpp:144-146 | isVanishing(word) only adds cache entries. The empty word vanishes |
| FirstSets.FirstSym | Lab2-SyntaxAnalyzer/src/grammar.hpp:168-186 | startsWith(sym) caches its set and answers from the cache. For a symbol with no productions it is {sym} for a terminal and {} otherwise. Every cached set holds terminals only |
| FirstSets.FirstOfProductions | Lab2-SyntaxAnalyzer/src/grammar.hpp:176-182 | The union over sym's productions is cached under sym, and the caches only grow |
| FirstSets.FirstAll | Lab2-SyntaxAnalyzer/src/grammar.hpp:178-179 | The union only grows the accumulated set, and stays within the terminals |
| FirstSets.FirstWord | Lab2-SyntaxAnalyzer/src/grammar.hpp:151-166 | FIRST of a word only grows the accumulated set and stays within the terminals. The empty word adds nothing |
| FirstSets.First | Lab2-SyntaxAnalyzer/src/grammar.hpp:168-186 | The public startsWith(sym): cached, answered from the cache when present, and a subset of the terminals |
| FirstSets.FirstOfWord | Lab2-SyntaxAnalyzer/src/grammar.hpp:151-166 | The public startsWith(word) is a subset of the terminals. The empty word has the empty FIRST set |
| FirstSetsFacts.FirstWordUnion | Lab2-SyntaxAnalyzer/src/grammar.hpp:151-166 | FIRST of a word, read from the stored word's back, is the union of its symbols' FIRST sets down to and including the first symbol that cannot vanish. Every symbol passed over vanishes |
| FirstSetsFacts.EmptyWordBegins | Lab2-SyntaxAnalyzer/src/grammar.hpp:141 | The empty word begins with the end marker and with no other symbol |
| FirstSetsFacts.LeftRecursionEnds | Lab2-SyntaxAnalyzer/src/grammar.hpp:111-121 | For A -> A b or A -> c, startsWith(A, c) terminates and answers true: the pending false entry for (A, c) stops the left recursion |
| FirstSetsFacts.FirstOfOneSymbol | Lab2-SyntaxAnalyzer/src/grammar.hpp:151-166 | FIRST of a one-symbol word is that symbol's FIRST set |
| FirstSetsFacts.PendingAHidesB | Lab2-SyntaxAnalyzer/src/grammar.hpp:170-172 | While A's empty entry is pending, FIRST(B) for B -> A finds that entry and is {} |
| FirstSetsFacts.FirstAFromEmpty | Lab2-SyntaxAnalyzer/src/grammar.hpp:168-186 | From empty caches, FIRST(A) for A -> B, A -> c and B -> A is {c}, and it leaves B -> {} cached |
| FirstSetsFacts.FirstBFromEmpty | Lab2-SyntaxAnalyzer/src/grammar.hpp:168-186 | From empty caches, FIRST(B) is {c} |
| FirstSetsFacts.FirstDependsOnQueryOrder | Lab2-SyntaxAnalyzer/src/grammar.hpp:168-186 | Because entries are cached while pending, FIRST(B) is {} when asked after FIRST(A), and {c} when asked first |
| EpsEnvironment.Row | Lab2-SyntaxAnalyzer/src/automat.hpp:111-113 | A state without an entry in the transition map has an empty row, and a state with one has exactly its stored row |
| EpsEnvironment.GetNextSkips | Lab2-SyntaxAnalyzer/src/automat.hpp:98-108 | get_next skips states without a transition on the symbol: adding such a state to the current set leaves the result unchanged |
| EpsEnvironment.GetNextUnion | Lab2-SyntaxAnalyzer/src/automat.hpp:98-108 | get_next distributes over union of the current set, so the successors of a set are the successors of its states taken one at a time |
| EpsEnvironment.GetNextSingle | Lab2-SyntaxAnalyzer/src/automat.hpp:98-108 | For one state, get_next is its target set on the symbol when the transition exists and empty otherwise; for the empty set it is empty |
| EpsEnvironment.GetNextContains | Lab2-SyntaxAnalyzer/src/automat.hpp:98-108 | Every target of every state of the current set that has the transition appears in the result |
| EpsEnvironment.GetNextMono | Lab2-SyntaxAnalyzer/src/automat.hpp:98-108 | A larger current set never yields fewer successors |
| EpsEnvironment.GetNextWithin | Lab2-SyntaxAnalyzer/src/automat.hpp:98-108 | When every transition target is one of the n states, so is every successor get_next returns |
| EpsEnvironment.AscendingSorted | Lab2-SyntaxAnalyzer/src/automat.hpp:133-137 | The iteration over an ε-set (a std::set of ints) visits only members of the set, strictly increasing |
| EpsEnvironment.AscendingComplete | Lab2-SyntaxAnalyzer/src/automat.hpp:133-137 | The iteration over an ε-set visits every member in range |
| EpsEnvironment.SetEps | Lab2-SyntaxAnalyzer/src/automat.hpp:128-141 | Writing a state's ε-set installs exactly the new set and leaves every other state's row and every other symbol of that state untouched |
| EpsEnvironment.ComputeEnv | Lab2-SyntaxAnalyzer/src/automat.hpp:120-143 | computeEpsilonEnvironment(s): a state with no ε-set gets the set holding only itself; an already evaluated state returns its stored set with nothing changed; afterwards s is evaluated, has an ε-set, returns that set, and rows of states evaluated before are kept |
| EpsEnvironment.Walk | Lab2-SyntaxAnalyzer/src/automat.hpp:130-142 | The walk of a freshly marked state leaves every other evaluated state's row as it was, and the returned set is the one stored for s |
| EpsEnvironment.EnvLoop | Lab2-SyntaxAnalyzer/src/automat.hpp:132-141 | Joining the environments of the ε-successors never shrinks the ε-set of s and leaves every other evaluated row as it was |
| EpsEnvironment.AllEnvs | Lab2-SyntaxAnalyzer/src/automat.hpp:82-84 | The constructor's loop over every state leaves each state with an ε-set that contains the state itself and keeps rows already evaluated |
| EpsEnvironment.ComputeEnvironments | Lab2-SyntaxAnalyzer/src/automat.hpp:82-84 | After all environments are computed every state has an ε-set containing itself, and targets stay among the n states |
| EpsEnvironment.AllEnvsKeeps | Lab2-SyntaxAnalyzer/src/automat.hpp:82-84 | Once a state is evaluated, computing the environments of the remaining states never rewrites its row |
| EpsEnvironment.Closure | Lab2-SyntaxAnalyzer/src/automat.hpp:120-143 | The ε-closure the method is meant to compute contains the state itself |
| EpsEnvironment.ClosureClosed | Lab2-SyntaxAnalyzer/src/automat.hpp:120-143 | The closure contains the ε-successors of each of its states |
| EpsEnvironment.ClosureLeast | Lab2-SyntaxAnalyzer/src/automat.hpp:120-143 | The closure is contained in every ε-closed set that holds the state, so it is exactly the set of ε-reachable states |
| EpsEnvironment.ClosureIncludesSuccessors | Lab2-SyntaxAnalyzer/src/automat.hpp:132-141 | The environment of a state includes the environment of every state in it, which is what the recursive join is meant to achieve |
| EpsEnvironment.WithClosures | Lab2-SyntaxAnalyzer/src/automat.hpp:82-84 | The corrected environment pass: every state's ε-set becomes its ε-closure, and every non-ε transition is kept exactly |
| EpsEnvironment.WithClosuresWF | Lab2-SyntaxAnalyzer/src/automat.hpp:82-84 | Replacing ε-sets by closures keeps every transition target among the n states |
| EpsEnvironment.CycleWalkOne | Lab2-SyntaxAnalyzer/src/automat.hpp:128-136 | On an ε-cycle 0 to 1 to 0 entered from 0, the walk of 1 finds 0 already evaluated and stores for 1 only 0's partial set plus 1 |
| EpsEnvironment.CycleLoopZero | Lab2-SyntaxAnalyzer/src/automat.hpp:132-141 | The loop of 0 visits 1 then 2, and 2's walk leaves 1's partial set alone |
| EpsEnvironment.CycleWalkZero | Lab2-SyntaxAnalyzer/src/automat.hpp:120-143 | After the walk of 0 the stored set of 1 is still the partial set, without 3 |
| EpsEnvironment.CycleKeepsOne | Lab2-SyntaxAnalyzer/src/automat.hpp:82-84 | The rest of the constructor's loop keeps 1's partial ε-set {0, 1, 2} |
| EpsEnvironment.EnvMissesReachableAsWritten | Lab2-SyntaxAnalyzer/src/automat.hpp:120-143 | On ε-edges 0 to 1, 0 to 2, 1 to 0 and 2 to 3 the method stores {0, 1, 2} for state 1 while 3 is ε-reachable from 1: the memo returns a set still under construction |
| EpsEnvironment.ClosureOfShape | Lab2-SyntaxAnalyzer/src/automat.hpp:120-143 | On that cycle with 2 to 3, the ε-closure of 1 is {0, 1, 2, 3} |
| EpsEnvironment.ClosureOfCycle | Lab2-SyntaxAnalyzer/src/automat.hpp:120-143 | On the example the ε-closure of 1 is {0, 1, 2, 3} |
| Enka.GetState | Lab2-SyntaxAnalyzer/src/automat.hpp:146-152 | getState returns the number already given to a known item with nothing changed; an unseen item gets the next number id, the counter grows by one, and afterwards the two maps translate the item and its number both ways |
| Enka.GetStateStable | Lab2-SyntaxAnalyzer/src/automat.hpp:146-152 | Asking again for the same item returns the same number and changes nothing |
| Enka.AddTrans | Lab2-SyntaxAnalyzer/src/automat.hpp:68-77 | Inserting into transitions[state][sym] adds the target to the existing set or creates the set holding it alone, and leaves every other state and symbol unchanged |
| Enka.AddTransWF | Lab2-SyntaxAnalyzer/src/automat.hpp:68-77 | Adding a transition to a state in use keeps every target among the states in use |
| Enka.Lookahead | Lab2-SyntaxAnalyzer/src/automat.hpp:56-63 | The lookahead T of rule c is drawn from the terminals and the item's own lookahead; when nothing follows the next symbol it is exactly the item's lookahead, and the FIRST caches stay consistent. Its value: it holds FIRST of what follows the next symbol, holds the item's lookahead when that part vanishes, and holds nothing else. The caches are those the vanishing test leaves after FIRST ran |
| Enka.ExpandedGrows | Lab2-SyntaxAnalyzer/src/automat.hpp:39-79 | A state whose dot move and rule c transitions are present keeps them as the automaton grows |
| Enka.AddInitialItem | Lab2-SyntaxAnalyzer/src/automat.hpp:66-71 | Rule c for one production: afterwards the initial item of the production is a state with an ε-transition from the current state, every newly numbered state is queued, and no other state's transitions change |
| Enka.AddInitialItems | Lab2-SyntaxAnalyzer/src/automat.hpp:64-74 | Rule c for every production of the next symbol in order: each one's initial item is ε-linked from the current state and every newly numbered state is queued |
| Enka.Expand | Lab2-SyntaxAnalyzer/src/automat.hpp:46-78 | The inner loop over one state leaves it expanded (dot move and rule c present), only grows the automaton, and every state it numbers is either queued or already expanded |
| Enka.ExpandRound | Lab2-SyntaxAnalyzer/src/automat.hpp:48-77 | One round of the inner loop expands the current state and returns the state of the item with the dot moved one symbol right (rule b) |
| Enka.Drain | Lab2-SyntaxAnalyzer/src/automat.hpp:39-79 | When the worklist empties, every numbered state is expanded, the registry stays consistent and all targets are states in use |
| Enka.StartState | Lab2-SyntaxAnalyzer/src/automat.hpp:30-36 | The start exists exactly when the start symbol has a production; it is state 0, holds the item of the first production with lookahead the end marker, and the start symbol is the only symbol recorded |
| Enka.Build | Lab2-SyntaxAnalyzer/src/automat.hpp:26-85 | No automaton when the start symbol has no production; otherwise state 0 holds the start item, every state is expanded, and every state has an ε-set containing itself |
| Enka.WithClosuresGrows | Lab2-SyntaxAnalyzer/src/automat.hpp:82-84 | Replacing each ε-set by its closure only adds transitions, so every expanded state stays expanded |
| Dka.GotoWithin | Lab2-SyntaxAnalyzer/src/automat.hpp:196 | The set reached on a symbol, eps_of(get_next(current, sym)), stays among the ε-NFA's states |
| Dka.ItemsOf | Lab2-SyntaxAnalyzer/src/automat.hpp:190-191 | The items of a DKA state are exactly the items of its ε-NFA states: each state's item is in the set and each item comes from one of the states |
| Dka.RowEntry | Lab2-SyntaxAnalyzer/src/automat.hpp:196-208 | An empty target set adds no transition; a known set gets a transition to its number with nothing else changed; a new set is numbered and the transition points at that number |
| Dka.RowEntryKeeps | Lab2-SyntaxAnalyzer/src/automat.hpp:194-209 | After each symbol the row built so far is correct for the symbols seen, the numbering stays a bijection with the list of sets, and earlier numbers never change |
| Dka.MakeRow | Lab2-SyntaxAnalyzer/src/automat.hpp:194-209 | The loop over the symbols leaves a row with an entry for exactly the symbols whose target set is non-empty, each pointing at that set's number, and only appends new sets |
| Dka.Record | Lab2-SyntaxAnalyzer/src/automat.hpp:187-208 | Recording a processed set stores its items under its number when it has states, its row when the row is non-empty, and changes no other number's entries |
| Dka.SymbolOrder | Lab2-SyntaxAnalyzer/src/automat.hpp:194 | The symbols are visited in strictly increasing string order, each symbol of the ε-NFA exactly once |
| Dka.BuildDka | Lab2-SyntaxAnalyzer/src/automat.hpp:171-211 | The DKA constructor numbers the start set 0; each number names a distinct set; each non-empty set's state holds exactly its items; each state's row is complete over the symbols; every state number is below the size |
| Dka.BuildDone | Lab2-SyntaxAnalyzer/src/automat.hpp:180-210 | When the queue of sets empties, every numbered set has been processed, so its items and its row are in place |
| Dka.RunSetsEmpty | Lab2-SyntaxAnalyzer/src/automat.hpp:196 | From the empty set of ε-NFA states no word reaches a state |
| Dka.DkaSimulates | Lab2-SyntaxAnalyzer/src/automat.hpp:171-211 | The subset construction is faithful: reading a word in the DKA from a set's number reaches the number of the set of ε-NFA states the word reaches, and the DKA gets stuck exactly when that set is empty |
| LrParser.SizeT | Lab2-SyntaxAnalyzer/src/analizator/analizator-v3.cpp:150-155 | A position expression converted to size_t is below 2^64 and is unchanged when already in range, so npos arithmetic wraps as in C++ |
| LrParser.Find | Lab2-SyntaxAnalyzer/src/analizator/analizator-v3.cpp:150-151 | find(c, from) returns npos or a position at or after from holding c, with no earlier occurrence from there on |
| LrParser.FindArrow | Lab2-SyntaxAnalyzer/src/analizator/analizator-v3.cpp:117 | find("->") returns npos or a position where "->" starts |
| LrParser.Substr | Lab2-SyntaxAnalyzer/src/analizator/analizator-v3.cpp:153-155 | substr(pos, count) throws exactly when pos is past the end; otherwise it returns the piece starting at pos, at most count long, cut at the end of the string |
| LrParser.ParseAction | Lab2-SyntaxAnalyzer/src/analizator/analizator-v3.cpp:155-161 | An AKCIJA action without a space is the accept form: the whole text as the name and the argument -1 |
| LrParser.ParseGoto | Lab2-SyntaxAnalyzer/src/analizator/analizator-v3.cpp:182-184 | A NOVO STANJE action always goes through stoi; without a space the npos+1 wrap makes the whole text both name and number, and stoi's failure is an error |
| LrParser.ActionWithArgument | Lab2-SyntaxAnalyzer/src/analizator/analizator-v3.cpp:156-161 | An action written "name number" reads back as that name and number in both tables, and fails exactly when stoi rejects the number |
| LrParser.LinePiecesOf | Lab2-SyntaxAnalyzer/src/analizator/analizator-v3.cpp:150-155 | A line "a b c" with no spaces in a or b splits back into exactly a, b and c |
| LrParser.ParseTableLineOf | Lab2-SyntaxAnalyzer/src/analizator/analizator-v3.cpp:150-163 | A table line written as the decimal state, the symbol and the action reads back as that state and symbol with the action's parse |
| LrParser.AcceptLineValue | Lab2-SyntaxAnalyzer/src/analizator/analizator-v3.cpp:156-158 | A line whose action has no space reads as that action with argument -1 |
| LrParser.Tokens | Lab2-SyntaxAnalyzer/src/analizator/analizator-v3.cpp:124-136 | The right-side loop yields only non-empty tokens without spaces |
| LrParser.TokensAreSplit | Lab2-SyntaxAnalyzer/src/analizator/analizator-v3.cpp:124-136 | The right-side loop is exactly splitting at every space and dropping the empty pieces, in order |
| LrParser.Section | Lab2-SyntaxAnalyzer/src/analizator/analizator-v3.cpp:102-104 | A section is the run of non-empty lines from the current position; the empty line ending it is consumed, and the end of input also ends it |
| LrParser.SkipHeader | Lab2-SyntaxAnalyzer/src/analizator/analizator-v3.cpp:101 | A header line is consumed when there is one, and nothing is consumed at the end of input |
| LrParser.EnterLines | Lab2-SyntaxAnalyzer/src/analizator/analizator-v3.cpp:144-164 | Entering a section keeps every key already present and succeeds only when every line parses |
| LrParser.EnterLinesLast | Lab2-SyntaxAnalyzer/src/analizator/analizator-v3.cpp:163 | Each entered line's key is in the table, holding that line's value unless a later line has the same key |
| LrParser.EnterLinesKeeps | Lab2-SyntaxAnalyzer/src/analizator/analizator-v3.cpp:163 | A key no line of the section mentions keeps its value |
| LrParser.StateNode | Lab2-SyntaxAnalyzer/src/analizator/analizator-v3.cpp:46-47 | A state node carries the state, an empty symbol and no children |
| LrParser.SymbolNode | Lab2-SyntaxAnalyzer/src/analizator/analizator-v3.cpp:44-45 | A symbol node carries state -1, the symbol, the line as its content and no children |
| LrParser.ParserInput | Lab2-SyntaxAnalyzer/src/analizator/analizator-v3.cpp:231-236 | The parser's input is the lines read, in order, followed by one line holding the end marker |
| LrParser.EndMarkerLine | Lab2-SyntaxAnalyzer/src/analizator/analizator-v3.cpp:248-251 | The first word of the appended line is the end marker |
| LrParser.Recover | Lab2-SyntaxAnalyzer/src/analizator/analizator-v3.cpp:266-283 | Recovery pops exactly the entries above the nearest one with an action on the sync symbol, keeps the rest, and fails exactly when no entry has one |
| LrParser.PopChildrenSpec | Lab2-SyntaxAnalyzer/src/analizator/analizator-v3.cpp:324-336 | Popping for a right side of n symbols succeeds exactly when the stack has 2n entries, removes those entries, and lists the symbol nodes bottom to top as the children |
| LrParser.ShiftStep | Lab2-SyntaxAnalyzer/src/analizator/analizator-v3.cpp:296-306 | A shift pushes the symbol node holding the line, then the new state, and consumes one input line |
| LrParser.ReduceStep | Lab2-SyntaxAnalyzer/src/analizator/analizator-v3.cpp:308-360 | A reduction with enough entries and a STAVI goto replaces the 2n top entries by the new node, whose children are the popped symbols in order, and the goto state; the line is not consumed and the node becomes the root |
| LrParser.ReduceFails | Lab2-SyntaxAnalyzer/src/analizator/analizator-v3.cpp:312-349 | An unknown production throws from at(); otherwise a reduction returns null exactly on underflow, on a stack emptied by the pops, or on a missing goto |
| LrParser.SyncRecovery | Lab2-SyntaxAnalyzer/src/analizator/analizator-v3.cpp:262-284 | A sync symbol without an action returns null exactly when no stack entry has an action on it; otherwise the stack is cut to one whose top has one and the same line is read again |
| LrParser.SkipStep | Lab2-SyntaxAnalyzer/src/analizator/analizator-v3.cpp:287-290 | A symbol without an action that is not a sync symbol is skipped and nothing else changes |
| LrParser.AcceptStep | Lab2-SyntaxAnalyzer/src/analizator/analizator-v3.cpp:362-364 | Accept returns the node of the most recent reduction |
| LrParser.StepKeepsShape | Lab2-SyntaxAnalyzer/src/analizator/analizator-v3.cpp:240-369 | Every round keeps states and symbol nodes alternating on an odd-length stack, so the empty-stack error at the top of the loop never happens |
| LrParser.RecoverKeepsShape | Lab2-SyntaxAnalyzer/src/analizator/analizator-v3.cpp:266-278 | Recovery stops at a state entry, so the alternation survives it |
| LrParser.ShiftKeepsShape | Lab2-SyntaxAnalyzer/src/analizator/analizator-v3.cpp:304-305 | Pushing a symbol node and then a state keeps the alternation |
| LrParser.ReduceKeepsShape | Lab2-SyntaxAnalyzer/src/analizator/analizator-v3.cpp:324-358 | A reduction that continues keeps the alternation |
| LrParser.PrintFromRoot | Lab2-SyntaxAnalyzer/src/analizator/analizator-v3.cpp:377-389 | The node's line is depth spaces, then its content when it has no children or its symbol otherwise. It is followed by the lines of its children, each one space deeper. A node prints one line exactly when it has no children |
| LrParser.PrintTree | Lab2-SyntaxAnalyzer/src/analizator/analizator-v3.cpp:377-378 | A null root prints nothing, and any tree prints at least its root's line |
| LrParser.LeafPrintsLine | Lab2-SyntaxAnalyzer/src/analizator/analizator-v3.cpp:379-381 | A leaf read from the input prints as its input line |
| LrParser.EmptyReductionPrintsBlank | Lab2-SyntaxAnalyzer/src/analizator/analizator-v3.cpp:379-384 | A node reduced by an empty right side has no children, so it counts as a terminal and prints only its indentation, without its symbol |
| CTypes.ValueType | Lab3/src/Types.hpp:73-74 | The variable-type constructor gives a non-function type with exactly the requested base, const flag and array flag |
| CTypes.ArrayType | Lab3/src/Types.hpp:227-230 | makeArrayType gives a non-function array type with the requested base and const flag |
| CTypes.FunctionType | Lab3/src/Types.hpp:77-78 | The function-type constructor always gives a function type returning the requested base; a non-empty parameter list is kept and an empty one becomes the single parameter VOID |
| CTypes.NumericAsWrittenDiffers | Lab3/src/Types.hpp:184-188 | isNumericType as spelled, where the conjunction binds tighter than the disjunction, differs from the intended test exactly on char arrays and char-returning functions |
| CTypes.CharArrayIsLValueAsWritten | Lab3/src/Types.hpp:102 | As written a non-const char array is an l-value and converts to itself, so assigning one char array to another passes; with the intended test it is not an l-value |
| CTypes.LValueShapes | Lab3/src/Types.hpp:102 | With the intended numeric test, a type is an l-value exactly when it is a plain non-const int or char value |
| CTypes.CompatibleReflexive | Lab3/src/Types.hpp:203-204 | Every type converts implicitly to itself |
| CTypes.CompatibleRejectsShapes | Lab3/src/Types.hpp:207-210 | Two different types never convert when either is void, either is a function, or one is an array and the other is not |
| CTypes.CompatibleSameBase | Lab3/src/Types.hpp:212-214 | Between two values or two arrays of the same base, conversion holds exactly when the types are equal or the source is not const |
| CTypes.CompatibleAcrossBases | Lab3/src/Types.hpp:216-223 | Across different bases the only conversion is from a plain non-const char to a plain non-const int |
| CTypes.ConstConvertsOnlyToItself | Lab3/src/Types.hpp:200-224 | A const type converts only to itself |
| CTypes.CompatibleAntisymmetric | Lab3/src/Types.hpp:200-224 | Conversion never goes both ways between two different types |
| CTypes.CompatibleNotTransitive | Lab3/src/Types.hpp:200-224 | The relation is not transitive: char converts to int and int to const int, but char does not convert to const int |
| CTypes.BaseName | Lab3/src/Types.hpp:149-162 | The name of a basic type is one of the three keywords, each at least three characters |
| CTypes.BaseNameRoundTrip | Lab3/src/Types.hpp:149-162 | A base name reads back as its basic type and is not wrapped in const( ) or niz( ) |
| CTypes.InnerRoundTrip | Lab3/src/Types.hpp:165-167 | A base name with or without the const( ) wrapper reads back as the value type with that const flag |
| CTypes.ValueTypeStringRoundTrip | Lab3/src/Types.hpp:163-182 | The printed form of a value or array type determines the type: reading it back gives the type itself, with const always inside niz |
| CTypes.VoidFunctionString | Lab3/src/Types.hpp:170-180 | A function with no parameters prints as funkcija(void -> r) |
| CTypes.PairFunctionString | Lab3/src/Types.hpp:237-247 | A two-parameter function prints its parameters last first, joined by a comma, inside brackets |
| Scopes.Insert | Lab3/src/Data.hpp:22-29 | insert succeeds exactly when the name is not yet declared in this scope; a refused insert changes nothing, a successful one adds exactly that entry, and the parent link is kept |
| Scopes.CreateChildScope | Lab3/src/Data.hpp:44-47 | createChildScope gives an empty scope whose parent is the current one |
| Scopes.Chain | Lab3/src/Data.hpp:31-42 | The scopes visible from a table start with its own symbols and continue through its parents |
| Scopes.FirstIn | Lab3/src/Data.hpp:31-42 | The reference search: no result exactly when no visible scope declares the name, otherwise the entry of the innermost scope that does |
| Scopes.LookupIsFirstIn | Lab3/src/Data.hpp:31-42 | lookup, searching this scope and then the parent recursively, agrees with the reference search over the scope chain |
| Scopes.LookupNone | Lab3/src/Data.hpp:31-42 | lookup returns null exactly when no visible scope declares the name |
| Scopes.InsertExisting | Lab3/src/Data.hpp:25-26 | Inserting a name already declared in the scope is refused, and the earlier entry is still what lookup finds |
| Scopes.InsertThenLookup | Lab3/src/Data.hpp:22-42 | After a successful insert lookup finds the new entry, and every other name is found as before |
| Scopes.Shadowing | Lab3/src/Data.hpp:34-39 | An entry in the inner scope hides one for the same name in an enclosing scope |
| Scopes.ChildScopeLookup | Lab3/src/Data.hpp:44-47 | A fresh child scope sees exactly what its parent sees |
| Scopes.ParseNodeNameShape | Lab3/src/Data.hpp:130-141 | parseNodeName is non-empty exactly for a line starting with '<' that contains '>', and is then the prefix of the line up to and including the first '>' |
| Scopes.ParseNodeNameOf | Lab3/src/Data.hpp:130-141 | A non-terminal name followed by anything reads back as that name |
| Scopes.LineContent | Lab3/src/Data.hpp:144-147 | parseContent is empty for a line starting with '<' and the line itself otherwise |
| Scopes.ErrorChildTexts | Lab3/src/Data.hpp:94-124 | reportError prints one text per child, in order |
| Scopes.ErrorLine | Lab3/src/Data.hpp:88-125 | The error line starts with the node's symbol followed by " ::= " |
| Scopes.ErrorChildTextIsField | Lab3/src/Data.hpp:96-122 | A child's printed text is a single non-empty word when its content or symbol has no whitespace |
| Scopes.TokenTextNoSpace | Lab3/src/Data.hpp:105 | TOKEN(line,lexeme) built from three words without spaces has no spaces |
| Scopes.ErrorLineFields | Lab3/src/Data.hpp:88-125 | Splitting the error line at whitespace gives the symbol, "::=", and one field per child in order, so the line determines the production printed |
| Scopes.ErrorChildTextOfTerminal | Lab3/src/Data.hpp:96-105 | A terminal child with content "TOKEN line lexeme" prints as TOKEN(line,lexeme) |
| Validator.ValidateNumConstant | Lab3/src/SemanticAnalyzer.hpp:11-26 | A number constant, when accepted, has type int |
| Validator.NumConstantOfDecimal | Lab3/src/SemanticAnalyzer.hpp:11-26 | The decimal spelling of a number is accepted exactly when the number fits an int: stoi throws out_of_range beyond it and the exception rejects the constant |
| Validator.NumConstantNeedsDigit | Lab3/src/SemanticAnalyzer.hpp:13-25 | A unit with no digit makes stoi throw invalid_argument, so it is rejected |
| Validator.ValidateCharConstantAsWritten | Lab3/src/SemanticAnalyzer.hpp:28-45 | validateCharConstant as spelled, with the else bound to the inner if; when it accepts, the type is char |
| Validator.ValidateCharConstant | Lab3/src/SemanticAnalyzer.hpp:28-45 | validateCharConstant as intended; when it accepts, the type is char |
| Validator.CharConstantPlain | Lab3/src/SemanticAnalyzer.hpp:32-36 | A quoted single character is a char constant in both versions, since every char code passes the int range check |
| Validator.CharConstantEscape | Lab3/src/SemanticAnalyzer.hpp:37-39 | As intended, a quoted escape is accepted exactly when its letter is t, n, 0, a quote, a double quote or a backslash |
| Validator.CharConstantEscapeAsWritten | Lab3/src/SemanticAnalyzer.hpp:37-41 | As written, every quoted escape is rejected, valid ones included, while the intended version accepts the valid ones |
| Validator.CharConstantVersionsAgree | Lab3/src/SemanticAnalyzer.hpp:28-45 | The two versions differ only on quoted escapes: on every other unit, including bodies of other lengths that both accept, they agree |
| Validator.ValidateNizZnakova | Lab3/src/SemanticAnalyzer.hpp:47-71 | A string literal is accepted exactly when every backslash starts a valid two-character escape, and its type is then const char array |
| Validator.WellEscapedConcat | Lab3/src/SemanticAnalyzer.hpp:49-67 | After a well-escaped prefix the scan's verdict depends only on the rest |
| Validator.TrailingBackslash | Lab3/src/SemanticAnalyzer.hpp:53-56 | A backslash at the very end is rejected |
| Validator.NoBackslashAccepted | Lab3/src/SemanticAnalyzer.hpp:63-66 | Text without a backslash is always accepted |
| Validator.EscapePair | Lab3/src/SemanticAnalyzer.hpp:51-61 | A backslash pair in front of an accepted rest is accepted exactly when its letter is a valid escape |
| Expressions.LookupGood | Lab3/src/izrazProcessor.cpp:37-58 | In a table whose declared arrays all have a non-void base, every entry an identifier can find has such a type |
| Expressions.PrimarySound | Lab3/src/izrazProcessor.cpp:5-104 | Every primary expression the checker accepts has a good type, and it is marked assignable only when its type is an l-value type |
| Expressions.PostfixSound | Lab3/src/izrazProcessor.cpp:106-235 | The same for postfix expressions: indexing, calls and increments never mark a non-l-value type assignable |
| Expressions.UnarySound | Lab3/src/izrazProcessor.cpp:271-325 | The same for unary expressions |
| Expressions.CastSound | Lab3/src/izrazProcessor.cpp:350-412 | The same for cast expressions |
| Expressions.BinarySound | Lab3/src/izrazProcessor.cpp:490-889 | The same for every binary level from multiplicative up to logical or |
| Expressions.OperandSound | Lab3/src/izrazProcessor.cpp:490-889 | The same for the right operand of a binary level, which is an expression of the level below |
| Expressions.AssignSound | Lab3/src/izrazProcessor.cpp:891-945 | The same for assignment expressions |
| Expressions.CommaSound | Lab3/src/izrazProcessor.cpp:947-977 | In a well-formed table every expression the checker accepts has a good type, and whatever it marks assignable is a non-const plain int or char |
| Expressions.AssignTargetIsLValue | Lab3/src/izrazProcessor.cpp:908-940 | The left side of every accepted assignment has an l-value type, so a const name, an array or a function is never assigned to; the result has the left side's type and is not assignable |
| Expressions.ArgListCollects | Lab3/src/izrazProcessor.cpp:237-269 | An accepted argument list records the type of every argument, first to last, one per argument |
| Expressions.UnitProductionsCopy | Lab3/src/izrazProcessor.cpp:499-504 | Every unit production copies its child's type and l-value unchanged |
| Expressions.IdentifierRule | Lab3/src/izrazProcessor.cpp:37-61 | An identifier is accepted exactly when the scoped lookup finds it; it takes the entry's type and is assignable exactly when that type is an l-value type |
| Expressions.BinaryRule | Lab3/src/izrazProcessor.cpp:508-535 | A binary expression is accepted exactly when both operands convert to int and the operator belongs to the level; the result is an int and not assignable |
| Expressions.IntConvertibleShapes | Lab3/src/izrazProcessor.cpp:144 | Exactly plain non-const int and char values convert implicitly to int |
| Expressions.IndexRule | Lab3/src/izrazProcessor.cpp:134-156 | Indexing is accepted exactly when the operand is an array and the index converts to int; the result is the element type, assignable exactly when not const |
| Expressions.NoArgCallRule | Lab3/src/izrazProcessor.cpp:159-179 | A call without arguments is accepted exactly when the callee is a function whose parameter list is void; the result is its return type, not assignable |
| Expressions.CallRule | Lab3/src/izrazProcessor.cpp:182-215 | A call with arguments is accepted exactly when the callee is a function, the counts match and each argument converts to its parameter; the result is the return type, not assignable |
| Expressions.PostfixIncDecRule | Lab3/src/izrazProcessor.cpp:218-232 | Postfix ++ and -- are accepted exactly on an assignable operand that converts to int; the result is an int, not assignable |
| Expressions.PrefixIncDecRule | Lab3/src/izrazProcessor.cpp:289-305 | Prefix ++ and -- follow the same rule |
| Expressions.AssignRule | Lab3/src/izrazProcessor.cpp:908-941 | An assignment is accepted exactly when the left side is assignable, the operator is =, and the right side converts to the left side's type; the result has the left side's type |
| Expressions.CastRule | Lab3/src/izrazProcessor.cpp:368-408 | A cast to void is rejected; an accepted cast has the target type, is not assignable, and has a numeric source or target |
| Expressions.TypeNameRule | Lab3/src/izrazProcessor.cpp:432-452 | const void is rejected; const int and const char give the const value type |
| Expressions.CommaRule | Lab3/src/izrazProcessor.cpp:966-973 | A comma expression is accepted exactly when both sides are, and takes the type of the last operand without being assignable |
| Checker.InsertGlobalOnlyGlobal | Lab3/src/deklaracijaProcessor.cpp:413-438 | A prototype's name enters the global scope as an insert there would put it, while the scope chain keeps its length and the current scope keeps its names |
| Checker.MarkDefinedLookup | Lab3/src/deklaracijaProcessor.cpp:65-73 | Marking the entry that lookup returned changes that entry only: the name then finds the same entry, now defined, and no scope is added or lost |
| Checker.ParamDecl | Lab3/src/deklaracijaProcessor.cpp:153-205 | A parameter with fewer than two children is skipped; a void parameter is reported; an accepted parameter contributes one type and its name was not visible in any scope |
| Checker.ParameterListRejected | Lab3/src/deklaracijaProcessor.cpp:153-175 | Because a parameter's type is read before any rule sets it, it is void, so any parameter list whose first parameter has a name is reported |
| Checker.DuplicateCheckSeesOneName | Lab3/src/deklaracijaProcessor.cpp:137-149 | On the left-recursive tree of a list the duplicate check sees only the last parameter's name, so it never reports a repeated name |
| Checker.SpecifiedType | Lab3/src/deklaracijaProcessor.cpp:244-256 | The type a declaration hands down is never a function or an array type |
| Checker.FirstRule | Lab3/src/SemanticAnalyzer.hpp:177-314 | The dispatch chain picks a rule whose symbol is the node's, and picks none exactly when no rule has that symbol |
| Checker.FirstUndefined | Lab3/src/SemanticAnalyzer.hpp:329-339 | No function is reported exactly when every global function is defined; otherwise the reported name is an undefined function that comes first in key order |
| CheckerRules.EveryRuleOrdered | Lab3/src/SemanticAnalyzer.hpp:177-314 | Every rule of the checker appears in the dispatch chain |
| CheckerRules.DispatchExact | Lab3/src/SemanticAnalyzer.hpp:177-314 | A symbol goes to the rule for that very symbol, and a symbol is ignored exactly when no rule is for it |
| CheckerRules.DeclaratorsNotDispatched | Lab3/src/SemanticAnalyzer.hpp:177-314 | The declarator, initialiser and expression-list symbols have no rule, so walking such a node directly leaves the table as it was |
| CheckerRules.UnhandledNodesSkip | Lab3/src/SemanticAnalyzer.hpp:79-84 | A node without a rule leaves the table as it was, and walking the children of a terminal does nothing |
| CheckerRules.TerminalWalk | Lab3/src/SemanticAnalyzer.hpp:79-84 | From any child position onward, the walk of a terminal's children leaves the table as it was |
| CheckerRules.ExprStatementRule | Lab3/src/naredbaProcessor.cpp:109-118 | An empty expression statement has type int; otherwise it is accepted exactly when its expression is, and it has the expression's type |
| CheckerRules.BranchRule | Lab3/src/naredbaProcessor.cpp:25-33 | An accepted if has a condition that converts to int; with such a condition the statement is accepted exactly when its children are |
| CheckerRules.WhileRule | Lab3/src/naredbaProcessor.cpp:40-47 | An accepted while has a condition that converts to int |
| CheckerRules.ForRule | Lab3/src/naredbaProcessor.cpp:48-59 | An accepted for has a condition statement that converts to int, and an empty condition always does |
| CheckerRules.LoopChecksBody | Lab3/src/naredbaProcessor.cpp:38-60 | Once the header is accepted, the corrected loop rule is accepted exactly when its body is, and yields the body's table |
| CheckerRules.ForBodySkippedAsWritten | Lab3/src/naredbaProcessor.cpp:48-59 | As written, a for loop with a step expression walks the closing parenthesis instead of the body, so a body that is reported is accepted there, but not by the corrected rule |
| CheckerRules.LoopVersionsAgree | Lab3/src/naredbaProcessor.cpp:38-60 | The as-written and corrected loop rules agree on every production except the for loop with a step expression |
| CheckerRules.BreakContinueRule | Lab3/src/naredbaProcessor.cpp:67-81 | break and continue are accepted exactly when a loop statement lies on the path from the node up to, but not including, the root |
| CheckerRules.InsideLoopOfEnter | Lab3/src/naredbaProcessor.cpp:67-81 | Every node below a loop statement that is not the root counts as inside a loop |
| CheckerRules.ReturnRule | Lab3/src/naredbaProcessor.cpp:83-104 | return is reported outside a function; inside one it is accepted exactly when its value converts to the return type, the value being void when absent |
| CheckerRules.BareReturn | Lab3/src/naredbaProcessor.cpp:83-104 | A return without a value is accepted in a void function and in no other |
| CheckerRules.ScalarDeclaratorRule | Lab3/src/deklaracijaProcessor.cpp:351-369 | A plain name is accepted exactly when its type is not void and it is not visible in any scope; the name then finds an undefined entry of that type |
| CheckerRules.ArrayDeclaratorRule | Lab3/src/deklaracijaProcessor.cpp:372-411 | An array is accepted exactly when its size is between 1 and 1024; the name then finds an array entry of the handed-down base and const-ness that records the size |
| CheckerRules.DeclaratorRejections | Lab3/src/deklaracijaProcessor.cpp:351-402 | A void object or array is reported, and so is a name already visible in any scope |
| CheckerRules.PrototypeRule | Lab3/src/deklaracijaProcessor.cpp:413-438 | A function declarator is always accepted: it declares a function taking void in the global scope and leaves the scope chain as deep as it was |
| CheckerRules.ConstNeedsInitializer | Lab3/src/deklaracijaProcessor.cpp:327-331 | A const object without an initialiser is reported |
| CheckerRules.InitializerRule | Lab3/src/deklaracijaProcessor.cpp:307-322 | An initialised non-array is accepted exactly when its initialiser is accepted and is char-based for a char, or converts to the declared type otherwise |
| CheckerRules.ArrayInitializerUnchecked | Lab3/src/deklaracijaProcessor.cpp:299-305 | When the type handed down is an array type, an initialised declarator is accepted exactly when its initialiser is, whatever the sizes, since the size comparison only chooses between two ways of returning |
| CheckerRules.DeclaredArrayInitializedAsScalar | Lab3/src/deklaracijaProcessor.cpp:290-321 | The array declarator does not change the type its parent reads, so a declared array with a braced list or a string literal as initialiser is reported |
| CheckerRules.StringInitializerSize | Lab3/src/deklaracijaProcessor.cpp:482-492 | A string literal initialiser counts the characters between the quotes plus the terminating NUL, each of type char |
| CheckerRules.BracedListSize | Lab3/src/deklaracijaProcessor.cpp:503-527 | A braced initialiser list counts its elements and lists each element's type in order |
| CheckerRules.DeclarationTypeRule | Lab3/src/deklaracijaProcessor.cpp:236-263 | A declaration of const int hands a const int value type to each of its declarators |
| CheckerRules.ConstReturnRejected | Lab3/src/deklaracijaProcessor.cpp:32-35 | A function definition with a const return type is reported |
| CheckerRules.RedefinitionRejected | Lab3/src/deklaracijaProcessor.cpp:38-42 | A definition of a name that is already defined is reported |
| CheckerRules.DefinitionWithParametersRejected | Lab3/src/deklaracijaProcessor.cpp:44-62 | A new definition whose parameter list names a parameter is reported, because the parameters read as void |
| CheckerRules.DefineRule | Lab3/src/deklaracijaProcessor.cpp:65-73 | Defining a declared function is accepted exactly when the types agree, and the entry then becomes defined |
| CheckerRules.DefineNewRule | Lab3/src/deklaracijaProcessor.cpp:74-87 | Defining a new function is accepted and enters it as defined with the definition's type |
| CheckerRules.MainRule | Lab3/src/SemanticAnalyzer.hpp:317-327 | main passes exactly when it returns int and takes void |
| CheckerRules.AnalyzeVerdicts | Lab3/src/SemanticAnalyzer.hpp:167-174 | The program is accepted exactly when the walk succeeds, main is proper and every global function is defined; a reported production means the walk failed, and an undefined function named is the first in key order |
| CheckerRules.StrLessOrder | Lab3/src/SemanticAnalyzer.hpp:329-339 | The key order of the global names is a strict total order |
| NormTable.ExtractIdentifierAsWritten | Lab4/src/Data.hpp:8-16 | As written, a name that does not begin with IDN is left as it is |
| NormTable.ExtractIdentifier | Lab4/src/Data.hpp:8-16 | The corrected normalisation leaves every name that is not a terminal line of IDN as it is, and cuts a terminal line down to a single word |
| NormTable.ExtractOfTerminal | Lab4/src/Data.hpp:8-16 | Both versions read the terminal line of an identifier as that identifier |
| NormTable.ExtractIdempotent | Lab4/src/Data.hpp:8-16 | Normalising a normalised name changes nothing |
| NormTable.ExtractAsWrittenLosesIdnName | Lab4/src/Data.hpp:8-16 | As written, a plain identifier that begins with IDN normalises to the empty name; the corrected version keeps it |
| NormTable.LookupAsWrittenLosesIdnNames | Lab4/src/Data.hpp:50-62 | As written, an identifier named IDNa declared in the global scope is not found from an inner scope, because the parent scope normalises it a second time; the corrected lookup finds it |
| NormTable.NormLookupIsLookup | Lab4/src/Data.hpp:50-62 | Lookup that normalises again in each parent scope is plain scoped lookup of the normalised name: innermost scope first, then outward |
| NormTable.NormInsert | Lab4/src/Data.hpp:33-48 | Insert is refused exactly when the current scope already holds a defined entry for the normalised name; an accepted insert sets that one name and a refused one changes nothing |
| NormTable.NormInsertThenLookup | Lab4/src/Data.hpp:33-62 | After an accepted insert, any spelling of the same identifier finds the new entry |
| NormTable.DefinitionReplacesDeclaration | Lab4/src/Data.hpp:37-43 | A definition inserted over an undefined declaration of the same name is accepted and replaces it |
| Tree.MakeNode | Lab4/src/Data.hpp:104-113 | A new node has no children and keeps its content; with empty content it keeps the given symbol and has no line number or lexeme |
| Tree.MakeNodeOfTerminalLine | Lab4/src/Data.hpp:104-113 | A terminal line "TOKEN line lexeme" gives a node whose symbol, line number and lexical unit are those three words |
| Tree.MakeNodeWords | Lab4/src/Data.hpp:104-113 | A node built from a content line holds its first three words as symbol, line number and lexical unit |
| Tree.IndentationLevel | Lab4/src/Data.hpp:177-183 | The indentation is the length of the longest run of spaces the line starts with |
| Tree.ParseContent | Lab4/src/Data.hpp:167-174 | A line splits into its leading spaces and a text that does not start with a space, and the two put back together give the line |
| Tree.ParseContentOfIndented | Lab4/src/Data.hpp:167-174 | Reading a text indented by d spaces gives d and the text back |
| Tree.PopTo | Lab4/src/Data.hpp:148-149 | After the pop loop the top of the stack is indented strictly less than the new line, and the stack has not grown |
| Tree.PopToKeepsIncreasing | Lab4/src/Data.hpp:148-149 | The pop loop keeps the stack's indentations strictly increasing |
| Tree.StepKeepsIncreasing | Lab4/src/Data.hpp:144-162 | Reading one line keeps the stack's indentations strictly increasing |
| Tree.TerminalLineAttachesToTop | Lab4/src/Data.hpp:151-154 | A terminal line becomes the last child of the open node it is indented under |
| Tree.StepOnTerminal | Lab4/src/Data.hpp:144-154 | A terminal line pops the stack and appends a node made from its content to the new top |
| Tree.PrintNoStop | Lab4/src/Data.hpp:144 | The printed form of a tree never contains a line that would end the reading loop early |
| Tree.RunPrint | Lab4/src/Data.hpp:144-162 | Reading the printed form of a subtree on top of a stack attaches exactly that subtree to the open node it belongs to, leaving the frames below alone |
| Tree.RunPrintTerminal | Lab4/src/Data.hpp:151-154 | Reading the line of a terminal appends the terminal to the open node above it |
| Tree.BuildTreeOfPrint | Lab4/src/Data.hpp:134-164 | Reading the printed form of any tree the reader can produce gives back that tree: printing and building are inverses |
| Tree.ChildTexts | Lab4/src/Data.hpp:185-202 | The report has one text per child, in child order |
| Tree.ReportLine | Lab4/src/Data.hpp:185-202 | An error report starts with the node's symbol and the production arrow |
| Tree.ReportLineFields | Lab4/src/Data.hpp:185-202 | Split at spaces, an error report gives back the node's symbol, the arrow and one field per child in order |
| Codegen.RenderPutsLabelsFirst | Lab4/src/izrazProcessor.cpp:255-275 | Every emitted line is nonempty, and a line starts in the first column exactly when it is a SKIP_ or CONTINUE_ label |
| Codegen.Apply | Lab4/src/izrazProcessor.cpp:194-376 | Every operation the walk folds yields a value in the range of a 32-bit int |
| Codegen.SignedByte | Lab4/src/izrazProcessor.cpp:16-23 | A character read as a signed char lies in -128..127, and an ASCII character is its own code |
| Codegen.Emit | Lab4/src/FRISCGenerator.hpp:21-23 | With code on, exactly the given instructions are appended; with code off nothing changes; no label number is taken |
| Codegen.Stoll | Lab4/src/izrazProcessor.cpp:6-9 | Reading a number succeeds exactly when the lexeme starts with an integer that fits a long long, and yields that integer; otherwise it throws with the lexeme |
| Codegen.Visit | Lab4/src/izrazProcessor.cpp:5-421 | A visit only appends to the output and never gives a label number back, and with code off it leaves the output as it was |
| Codegen.VisitPrimary | Lab4/src/izrazProcessor.cpp:5-39 | The same for primary expressions |
| Codegen.VisitBinary | Lab4/src/izrazProcessor.cpp:194-376 | The same for the additive, relational and bitwise productions |
| Codegen.VisitComma | Lab4/src/izrazProcessor.cpp:402-421 | The same for the comma production |
| Codegen.VisitUnary | Lab4/src/izrazProcessor.cpp:122-152 | The same for a unary operator applied to an operand |
| Codegen.VisitPostfix | Lab4/src/izrazProcessor.cpp:41-86 | The same for indexing and for the two call forms |
| Codegen.ArgList | Lab4/src/izrazProcessor.cpp:88-119 | The list of argument values has one entry per argument and ends with the value of the last argument; the output is only appended to |
| Codegen.UnaryOperator | Lab4/src/izrazProcessor.cpp:154-176 | Reading an operator succeeds exactly when the node has a child, and keeps that child's content as the name |
| Codegen.OperatorCodes | Lab4/src/izrazProcessor.cpp:154-176 | PLUS, MINUS, OP_TILDA and OP_NEG are coded 1, -1, 2 and 3, whatever follows the token name, so no two share a code |
| Codegen.Fold | Lab4/src/izrazProcessor.cpp:194-232 | A binary node has a folded value exactly when its operator is known and both operands have values |
| Codegen.QuietAgrees | Lab4/src/izrazProcessor.cpp:5-421 | A visit with code off computes the same values and names, or fails the same way, as a visit with code on, whatever the output so far; this is what the name-only pass of a call relies on |
| Codegen.QuietUnit | Lab4/src/izrazProcessor.cpp:186-200 | The same for a unit production |
| Codegen.QuietPrimary | Lab4/src/izrazProcessor.cpp:5-39 | The same for primary expressions |
| Codegen.QuietBinary | Lab4/src/izrazProcessor.cpp:194-376 | The same for the binary productions |
| Codegen.QuietComma | Lab4/src/izrazProcessor.cpp:402-421 | The same for the comma production |
| Codegen.QuietUnary | Lab4/src/izrazProcessor.cpp:122-152 | The same for unary expressions |
| Codegen.QuietPostfix | Lab4/src/izrazProcessor.cpp:41-86 | The same for postfix expressions |
| Codegen.FreshCompare | Lab4/src/izrazProcessor.cpp:255-275 | A comparison block defines exactly one CONTINUE_ label, the one whose number it takes from the counter |
| Codegen.LabelsInOrder | Lab4/src/izrazProcessor.cpp:5-421 | The CONTINUE_ labels a visit emits are exactly the numbers the label counter moved past, each once and in increasing order, so no label is defined twice |
| Codegen.LabelsPrimary | Lab4/src/izrazProcessor.cpp:5-39 | The same for primary expressions |
| Codegen.LabelsBinary | Lab4/src/izrazProcessor.cpp:194-376 | The same for the binary productions |
| Codegen.LabelsRelational | Lab4/src/izrazProcessor.cpp:234-278 | A comparison takes one new label after those of its operands |
| Codegen.LabelsFolding | Lab4/src/izrazProcessor.cpp:194-232 | An additive or bitwise node takes no label of its own |
| Codegen.LabelsOperands | Lab4/src/izrazProcessor.cpp:194-376 | The two operand visits of a binary node, with the PUSH between them, define exactly the labels they take |
| Codegen.LabelsComma | Lab4/src/izrazProcessor.cpp:402-421 | The same for the comma production |
| Codegen.LabelsUnary | Lab4/src/izrazProcessor.cpp:122-152 | The same for unary expressions |
| Codegen.LabelsPostfix | Lab4/src/izrazProcessor.cpp:41-86 | The same for postfix expressions |
| Codegen.RelJumpAsWrittenMergesOperators | Lab4/src/izrazProcessor.cpp:255-266 | As written, the token of <= selects the jump of <, and the token of >= selects the jump of > |
| Codegen.LessOrEqualReadAsLess | Lab4/src/izrazProcessor.cpp:255-266 | For the token line OP_LTE 3 <= the jump as written is JP_SLT, while the intended one is JP_SLE |
| Codegen.RelJumpPicksToken | Lab4/src/izrazProcessor.cpp:255-266 | With the longer token names matched first, each of the four relational tokens selects its own jump |
| Codegen.CharConstantValue | Lab4/src/izrazProcessor.cpp:16-23 | A character constant folds to the signed code of the lexeme's second character and loads it into R6, so every escape sequence folds to the backslash, 92 |
| Codegen.IdentifierValue | Lab4/src/izrazProcessor.cpp:24-32 | An identifier folds to 0, keeps its name, and loads its global into R6 |
| Codegen.NumberOutOfRange | Lab4/src/izrazProcessor.cpp:6-9 | A number too large for a long long stops the walk with the exception of stoll |
| Codegen.CallTargetIsEmpty | Lab4/src/izrazProcessor.cpp:66-84 | When the callee is an ordinary postfix expression, both call forms call F_ with an empty name, because neither reads a name that any visit has set |
| Codegen.ChainVisit | Lab4/src/izrazProcessor.cpp:186-200 | A chain of unit productions passes the value and the code of the node at its bottom through unchanged |
| Codegen.TermRuns | Lab4/src/izrazProcessor.cpp:5-421 | For every constant expression over numbers, unary minus, plus, minus and the bitwise operators, parsed at any level, the walk folds it to its value in 32-bit C arithmetic, and the code emitted leaves that value in R6 with the stack as it was and no label used |
| Codegen.HomeRuns | Lab4/src/izrazProcessor.cpp:186-376 | The same for an expression read at or above its own grammar level |
| Codegen.ParenRuns | Lab4/src/izrazProcessor.cpp:33-38 | The same for an expression read below its own level, inside parentheses |
| Codegen.ParenStep | Lab4/src/izrazProcessor.cpp:33-38 | A parenthesised primary expression is visited as the expression inside it |
| Codegen.BuildRuns | Lab4/src/izrazProcessor.cpp:5-376 | The same for an expression's own production |
| Codegen.NumberStep | Lab4/src/izrazProcessor.cpp:6-14 | A number folds to its value cut to 32 bits and emits one MOVE of that value into R6 |
| Codegen.LitRuns | Lab4/src/izrazProcessor.cpp:6-14 | A literal that fits a long long folds to its 32-bit value, and its code loads that value into R6 |
| Codegen.ExecMove | Lab4/src/izrazProcessor.cpp:12-14 | MOVE of a 32-bit value into R6 sets R6 and nothing else |
| Codegen.MinusStep | Lab4/src/izrazProcessor.cpp:122-152 | A unary minus negates its operand's folded value and appends the two negating instructions |
| Codegen.BinaryStep | Lab4/src/izrazProcessor.cpp:194-232 | An additive or bitwise node folds its operator over its operands' values, and appends POP R0 and the operation after the operands' code |
| Codegen.ExecBinary | Lab4/src/izrazProcessor.cpp:200-231 | Left operand code, PUSH R6, right operand code, POP R0 and the operation leave the operation on the two values in R6 and the stack as it was |
| Codegen.MinusRuns | Lab4/src/izrazProcessor.cpp:122-152 | A negated constant expression folds to the negation of its value, and its code leaves that negation in R6 |
| Codegen.MinusNodeRuns | Lab4/src/izrazProcessor.cpp:122-152 | A unary minus over an operand whose code leaves v in R6 folds to the negation of v and leaves it in R6 |
| Codegen.EvalMinus | Lab4/src/izrazProcessor.cpp:140-141 | The value of a negation is the 32-bit negation of its operand's value |
| Codegen.MinusExec | Lab4/src/izrazProcessor.cpp:141-147 | The operand's code followed by the negation leaves the negated operand in R6 |
| Codegen.SubFromZero | Lab4/src/izrazProcessor.cpp:144-146 | Subtracting from zero in 32-bit arithmetic is negation |
| Codegen.StepNegate | Lab4/src/izrazProcessor.cpp:144-146 | SUB R0, R6, R6 with R0 cleared negates R6 |
| Codegen.StepClear | Lab4/src/izrazProcessor.cpp:144-146 | MOVE of 0 into R0 clears R0 and nothing else |
| Codegen.ExecNegate | Lab4/src/izrazProcessor.cpp:144-146 | The two negating instructions negate R6, clear R0 and leave the rest alone |
| Codegen.BinaryToken | Lab4/src/izrazProcessor.cpp:211-229 | The walk reads a binary expression's operator token back as that expression's operation |
| Codegen.EvalBinary | Lab4/src/izrazProcessor.cpp:194-376 | The value of a binary expression is its operation applied to the values of its operands |
| Codegen.BinaryExec | Lab4/src/izrazProcessor.cpp:200-231 | The code a binary node appends runs as left operand, push, right operand, pop and operate |
| Codegen.BinaryRuns | Lab4/src/izrazProcessor.cpp:194-376 | A binary constant expression folds to its value, and its code leaves that value in R6 with the stack as it was |

## Left out

- Input and output are not modelled: browser driving, sleeps, the `g++` builds, file reads and writes, JSON dumps, the generated lexer's output files, and the debug printers (`printStackDebug`, `printLoaded`, `printTree`). The parser's printed tree (`printFromRoot`) is modelled as a list of lines (`LrParser.PrintFromRoot`), and writing it out is not. What the harness observes comes in as a `CaseEnv` parameter. What the generator writes is the returned text.
- Harness.RunCase: every exception from the browser automation becomes one flag, `automationFails`. The exception's kind and message are not modelled.
- Harness.DecodeRegister: accepts only a non-empty run of hexadecimal digits. Python's `int(text, 16)` also accepts surrounding whitespace, a sign, a `0x` prefix and `_` separators. The simulator's register display contains none of these.
- Text.PythonInt: handles an optional sign followed by decimal digits, after `Strip`. It does not model `_` separators or non-ASCII digits, which Python's `int` also accepts.
- Child access out of range in the C++ sources (`children[i]` past the end, a read past a string's end) is undefined behaviour. The model returns an error value instead: `Err` in the checker and the tree reader, `Fault` in the code generator, `None` elsewhere.
- Calls to `exit(0)` after an error report become a result that carries the reported node or line. No code after the report runs.
- Nka.Unionize: the source iterates an `unordered_set`, whose order is unspecified. The model visits states in ascending order. As-written ε-walks (`GetEpsNeighbors`) can store different sets under another order; the counterexample in "## Findings" is built for ascending order.
- `std::hash`/`equal_to` specialisations, unordered containers, raw `char*` memory in the regex reader and `cin.seekg` tree reading become strings, sequences, sets and maps.
- Nka.Build: an atom contributes the symbol `Regex::get()` answers. The header declares `get()`, but no file of the repository defines it. `Nka.Symbol` assumes the atom's first character, or EPS for an empty span.
- Regexes.AssertType, Regexes.Atom: the `kleen` field (`Regex.hpp:54`) is assigned only on the starred path, so an unstarred node's flag is uninitialised in C++. The model reads it as false, which is what every use of the flag expects.
- Expressions: the `isLValue` field of Lab4's node data (`Lab4/src/Data.hpp:94`) is uninitialised until a rule sets it. The model reads an unset flag as false (`UNSET` in `lab3_expr.dfy`).
- Nka.GetTransitions, Nka.TransitionSymbols: the queries are modelled on the object `operator=` leaves (`Nka.Assign`). The empty rows that `consume` inserts into the map through `next[s]` while a word is run are not modelled. Such a row makes `get_transitions` answer an empty set where the model fails with `out_of_range`, and `get_transition_symbols` report that symbol.
- Enka.Lookahead: C++ leaves the evaluation order of `make_union`'s two arguments unspecified. The FIRST and vanishing caches depend on that order (see `FirstSetsFacts.FirstDependsOnQueryOrder`). The model asks `startsWith` first. Under the other order both the caches left behind and, through them, later FIRST answers can differ, so the model promises nothing about that order.
- LrUtils.ToInt: `value * 10 + digit` can overflow a signed `int`, which is undefined behaviour in C++. The model wraps it to 32 bits, which is what the compiled code does on the usual targets. It does not claim anything about other compilers.
- Enka.Build, Enka.Drain: the worklist is bounded by a `fuel` parameter, and the result is `None` when the fuel runs out. The source loops until the queue is empty. Its termination (finitely many LR(1) items over a finite grammar) is not proved, so the lemmas speak only of runs that finish.
- LrParser.Run, LrParser.Parse: the parser loop is bounded by `fuel` and yields `OutOfFuel` when the bound is reached. The source loops until the input ends or an error stops it. No lemma bounds the number of steps.
- Codegen.Fold: signed overflow in `+`, `-` and unary minus is undefined behaviour in C++. The model wraps to 32 bits (`Wrap32`, `Neg32`), which is what the compiled code does on the usual targets.
- Codegen.Exec: the small FRISC interpreter covers only the register instructions that constant expressions emit. Memory, calls, jumps and the 20-bit immediate width of `MOVE` are not modelled.
- Codegen: `evaluatedValue` that is read before it is set becomes `None`. Productions other than the unit production of the equality, logical, multiplicative, cast and assignment expressions leave their attributes unset, as in the source. Copying `lineNumber` upward is not modelled.
- Codegen.CharConstantValue: a character constant is one byte, read as a signed `char`. Wider or multi-byte characters are not modelled.
- `stoll` and `stoi` throw on bad or out-of-range text. The model returns `Fault` in the code generator and `Err` in the checker.
- Lab4's `FRISCGenerator` (traversal and `ofstream` emission), declarations and statements, and its mostly empty `naredbaProcessor.cpp` are not modelled. `Codegen.Emit` stands for the single emission call.
- Lab3's own `buildTree` and `printTree` in `Lab3/src/Data.hpp` are not modelled separately. The checker runs on the tree and table of `lab4_tree.dfy` and `lab4_table.dfy`, which read the same format.
- The superseded and duplicate variants (Lab1 `Analyzer.cpp`, `eNKA.hpp`, the old `automata.hpp`, the Lab2 `Grammar.hpp`/`Automat.hpp`/`GSA.cpp`, the Lab3 `Procesori-NOVO.cpp`), the drivers (`main.cpp`, `Generator.cpp`, `Main.cpp`, `run.py`) and the shell-and-diff test scripts are not part of this model.

## Findings

Each row pairs a member that keeps the code as written with the corrected member. The rest of the model uses the corrected one: the checker's dispatch calls `Checker.Loop`, `Enka.Build` finishes with `EpsEnvironment.WithClosures`, the expression rules use `CTypes.LValue`, and the validator uses `Validator.ValidateCharConstant`.

| source | as written | input that shows it | evidently intended | confidence | as-written member | corrected member |
|---|---|---|---|---|---|---|
| Lab3/src/Types.hpp:184-188 | in the numeric test the conjunction binds tighter than the disjunction, so every type whose base is `char` counts as numeric, arrays and functions included, and a non-const `char` array passes the l-value test | a non-const `char` array on the left of `=` | only plain `int` and `char` values are numeric, and only non-const ones are l-values | not executed | CTypes.CharArrayIsLValueAsWritten | CTypes.LValueShapes |
| Lab3/src/SemanticAnalyzer.hpp:37-41 | the `else` binds to the inner `if`, so a two-character body that starts with a backslash is rejected whether or not the escape is valid | `'\n'` | the listed escapes (t, n, 0, quote, double quote, backslash) are accepted | not executed | Validator.CharConstantEscapeAsWritten | Validator.CharConstantEscape |
| Lab1-LexicalAnalyzer/src/Regex.cpp:201-211 | a child whose kind matches the parent's delimiter is flattened into its parts even when it is starred, so the star is lost | `(ab)*c` | a starred group is kept whole | not executed | Regexes.FlattenDropsKleenAsWritten | Regexes.FlattenKeepsReduce |
| Lab4/src/Data.hpp:8-16 | a name that begins with `IDN` is taken for a terminal line, so an identifier whose own name begins with `IDN` normalises to the empty string and is not found from an inner scope | a global named `IDNa` looked up from a function body | only a terminal line `IDN <line> <name>` is cut down to its name | not executed | NormTable.LookupAsWrittenLosesIdnNames | NormTable.NormLookupIsLookup |
| Lab3/src/naredbaProcessor.cpp:55-58 | the seven-child `for` walks `children[5]`, the closing parenthesis, instead of the body | a `for (a; b; c)` whose body holds an error | the body `children[6]` is walked | not executed | CheckerRules.ForBodySkippedAsWritten | CheckerRules.LoopChecksBody |
| Lab1-LexicalAnalyzer/src/automata.cpp:62-74 | the run pushes each new state set at the back but reads the current one from the front, so it always answers for the start set | the pattern `a` on the word `a` | the answer is for the set last pushed | not executed | Nka.EvalAsWrittenRejectsA | Nka.EvalRuns |
| Lab1-LexicalAnalyzer/src/automata.cpp:132-146 | the ε-walk marks a state evaluated before its successors are done, so on an ε-cycle a state stores an incomplete set and its acceptable flag is wrong | ε-edges 0 to 1, 0 to 2, 1 to 0, 2 to 3, with 3 the end state | each state stores its full ε-closure | not executed | Nka.WalkMissesReachableAsWritten | Nka.CloseClosedUnder |
| Lab2-SyntaxAnalyzer/src/automat.hpp:120-143 | the environment recursion skips a state already visited, so on an ε-cycle an environment is left short | ε-edges 0 to 1, 0 to 2, 1 to 0, 2 to 3 | every environment is the full ε-closure | not executed | EpsEnvironment.EnvMissesReachableAsWritten | EpsEnvironment.ClosureLeast |
| Lab4/src/izrazProcessor.cpp:255-266 | the relational operator is picked by a substring search on the token line, so `<=` gets the jump of `<` and `>=` the jump of `>` | `1 <= 1` | each operator gets its own jump | not executed | Codegen.LessOrEqualReadAsLess | Codegen.RelJumpPicksToken |
