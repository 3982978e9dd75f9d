# Formula engine verification

A Dafny model of a spreadsheet-style formula engine: documents of rows
(entities) under schemas, whose cells hold values or formulas. The engine
calculates a whole document, keeps the result up to date after edits, parses,
prints, binds and projects formulas, and compares two documents. This project
states what each of those must compute and proves that the engine's algorithms
compute it.

Run `dafny verify dfyconfig.toml` in this directory.

## How the model is built

There are three layers of the same computation.

* The **specification**. `Evaluator` is the simple form of the evaluator: a
  number or a failure as a function of a snapshot of cell outcomes, walking every
  row every time; `Meaning` restates its walks about rows and cells themselves,
  and `Operations.EvaluatorIsTheOne` shows that it is the only evaluation that obeys
  a table of clauses, one for each form of formula. `Matching` says which cells a
  criterion matches, `Chains` what the static walks collect, `Typing` which
  formulas are typed, and `EarlyFailures` what fails before any evaluation.
  `Solutions.Solves` says what a calculation of a document is,
  without an algorithm: every node has the outcome its declared reads give it,
  and every member of a cycle fails with its complete class.
  `Solutions.OneSolution` proves that a document has exactly one such result.
* The **fast form**. `DependencyGraphs.DependencyGraph` (seven cross-linked
  maps), `ColumnCaches.ColumnCache` (columns, criterion indexes and memoised
  conditionals), `Cycles` (Kosaraju's algorithm on the formula/column graph),
  `Scheduling` (the counting schedule) and `Calculations.FullCalculation`.
* The **retained form**. `Retained.RetainedCalculationState` and `RootImpact`
  edit the graph in place and recompute only the dirty part.

`Reference` models the expanded per-cell pipeline of the repository's
differential test and proves that it gives the same result as the fast form.
`FormulaParser`, `UnboundFormulas`, `Binding` and `Projection` cover the text of
formulas; `Impacts` and `CanonicalDelta` cover the comparison of documents;
`Compatibility` covers the single error derived from a set of failures.

Objects the source updates in place are classes with the source's fields;
loops over queues, stacks, counters and buffers are methods with invariants;
recursion over expressions is a function. A method's `ensures` ties its result
or the new state to a specification function or predicate, and the lemmas beside
it prove what the source promises about that specification.

Modelling decisions:

* Ids are natural numbers, compared as the source compares its ordered ids.
  A `BTreeMap` iterated in order is read through `Ordered.Least`,
  `Ordered.Ascending` or `FieldOrder.LeastCell`. Where the source pops from an
  ordered set only to pick the next item of work, the model picks any item, so
  the theorems hold for every order.
* Numbers are an abstract type. `Model.Rules` carries uninterpreted `add`,
  division, averaging and rounding, with no law of associativity or
  commutativity, so "the same additions in the same order" has content. A result
  that is not finite is a failure, as in the source.
* Text spellings (number text, dates, lower-casing, decimal digits) are
  parameters, `Model.Rules` and `UnboundFormulas.Spelling`. The round-trip
  theorems assume `WrittenTexts.Faithful` (a printed number reads back as
  itself) and `Projection.DigitsSpelled` (a small integer prints as its digits);
  `Decimals.DecimalIsFaithful` gives a spelling that meets both.
* `Writings.Writing` is one way of writing formulas down: function names in any
  case, redundant parentheses left out, equality tests quoted, singular
  conditionals. The parser is proved against every writing; the canonical print
  is one of them (`Writings.CanonicalText`).
* `Coverage.Covers` is what the caller of `update` owes, spelled out: the schemas
  did not change; every cell whose stored value changed is a root; for a row that
  was added, removed or moved between schemas, its stored cells on both sides and
  every cell of it that a formula names are roots, and some root names the row.

Places where the code and its surroundings differ, or where a natural
expectation is false of the code:

* A conditional aggregate walks the rows of its first criterion's schema for all
  its columns, while dependencies are declared per column's own schema.
  Validation and binding refuse a conditional over several schemas, but the
  calculation itself does not check. `MixedSchemas.MixedSchemasDependOnOrder`
  gives a document without early failures or cycles whose records differ between
  the two orders that the declared dependencies of its two formulas allow.
  `Locality.NodeDeclaresIsExact` gives the exact condition: the declared columns
  decide what the evaluator's walk computes if and only if each column it reads,
  taken in the first criterion's schema, is among them; `Propagation.DeclaringIsBlamingLive`
  gives the same condition for blaming no failed cell. `Solutions.Coherent` asks
  it of every formula, and `Solutions.AnyOrderSolves` shows that with it no order
  matters. What goes wrong without it is shown by example:
  `BlameLoops.ChainRepeats` (two failures blame each other, so the assertion
  behind the single error fails), `BlameLoops.BlameIsNotRequired` (a failure
  blames a failed cell that is not required), `BlameLoops.TwoSolutions`,
  `MixedEdits.UpdateDiffersFromRebuild` and `MixedEdits.UndeclaredChangeHasNoCause`.
* An accepted formula may have a canonical print that is refused. The parser
  counts no node for the number in a quoted equality test and none for the value
  column a singular conditional leaves out, while the canonical print spells both
  out. `FormulaParser.PrintAndParse` and `Projection.ProjectParseBind` say exactly
  when a print is accepted; `PrintBudgets.PrintIsRefused` gives a formula of 143
  nodes that is accepted and whose print, of 271, is not, and
  `PrintBudgets.ProjectionIsRefused` takes it through binding and projection.
* A formula's value may change without a cause in the list of impacts, because a
  row that only one document has contributes no changed field
  (`AddedRows.AddedRowHasNoCause`). `Impacts.ImpactsHaveCauses` says that for
  coherent documents this is the only way, whatever happened to the field
  definitions: `Stability.NumbersAgree` shows that two evaluations over the same
  cells that both succeed give one number.
* The transition's affected calculations are the reverse closure of the roots
  together with the promoted column readers, and exclude those readers. The
  model states it that way (`Retained.RetainedCalculationState.Update`).

## Model

| member | source | states |
|---|---|---|
| Retained.Replay | crates/formula-engine/src/lib.rs:983-1085 | after any run of edits whose roots cover them, the state kept by `update` equals a rebuild of the last document in nodes, values, failures and graph |
| Retained.RetainedCalculationState.Rebuild | crates/formula-engine/src/lib.rs:983-1005 | a rebuilt state reflects its document: all nodes, the one solution, the exact graph |
| Retained.RetainedCalculationState.Update | crates/formula-engine/src/lib.rs:1014-1085 | a covered edit keeps the state right; the affected formulas are the reverse closure of the promoted roots in the old and in the new graph; while something fails before and after, a formula is reported if and only if its failure changed, came or went; while nothing does, if and only if its value did; when the calculation starts or stops failing, all formulas of both documents are |
| Retained.RetainedCalculationState.RecomputeDirty | crates/formula-engine/src/lib.rs:1152-1199 | recomputing only the dirty nodes solves the whole new document and leaves every record outside the dirty set alone |
| Retained.Recompute | crates/formula-engine/src/lib.rs:1152-1199 | the same for the value and failure maps on their own |
| Retained.RetainedCalculationState.ChangedProjections | crates/formula-engine/src/lib.rs:1053-1068 | given records that agree off the dirty set, the fields it lists are exactly the formulas whose entry in the failure map (while failing) or in the value map (while complete) changed, or all formulas when the whole state starts or stops failing |
| Retained.DirtyReports | crates/formula-engine/src/lib.rs:1053-1068 | comparing the projections of dirty formulas only is enough: none whose record changed is omitted, and none is listed in vain unless the failed status flipped |
| Retained.NoRootsNoChange | crates/formula-engine/src/lib.rs:1019-1029 | an edit covered by no roots changes no node, no record and no edge, so the early return is right |
| Retained.StatesOfOneDocument | crates/formula-engine/src/lib.rs:927-937 | two states that reflect one document are equal in all four parts |
| RootImpact.WithColumnTotalRoots | crates/formula-engine/src/lib.rs:1087-1109 | adds exactly the readers of columns of a schema some root's row belongs to on either side |
| RootImpact.UpdateDependencyImpact | crates/formula-engine/src/lib.rs:1111-1150 | the edited graph is the new document's exact graph, and the dirty set is sound: it holds the promoted roots and is closed under dependents |
| RootImpact.EditGraph | crates/formula-engine/src/lib.rs:1117-1136 | editing in place gives the graph a fresh build would make, even when a row moved between two tracked columns |
| RootImpact.ReplaceRoots | crates/formula-engine/src/lib.rs:1117-1122 | every root has its new edges and remembered schema, and every schema whose rows may have changed is collected |
| RootImpact.ClosuresCoincide | crates/formula-engine/src/lib.rs:1111-1150 | the reverse closures of the promoted roots in the old and in the new graph are the same set |
| RootImpact.DirtyIsClosed | crates/formula-engine/src/lib.rs:1111-1150 | promoted roots with their closure are closed under dependents in both graphs, so no clean formula reads a dirty one |
| Coverage.UndisturbedOutcome | crates/formula-engine/src/lib.rs:1006-1013 | a node outside the dirty set has the same outcome in both documents |
| Coverage.UndisturbedClass | crates/formula-engine/src/lib.rs:1152-1199 | a clean formula is on a cycle in one document just when it is in the other, with the same class |
| Coverage.DirtyCycles | crates/formula-engine/src/lib.rs:1165-1189 | cycle detection within the dirty formulas finds exactly the document's cycles through them |
| DependencyGraphs.DependencyGraph.New | crates/formula-engine/src/lib.rs:1755-1769 | the built graph is exact: reader maps are inverses without empty sets, slots are the rows of each read column's schema, slot columns lead back |
| DependencyGraphs.DependencyGraph.InsertEdges | crates/formula-engine/src/lib.rs:1771-1793 | a formula's edges are added to both directions at once, and a newly read column gets its slots |
| DependencyGraphs.DependencyGraph.RemoveEdges | crates/formula-engine/src/lib.rs:1812-1842 | its edges leave both directions, and a column without readers loses its slots |
| DependencyGraphs.DependencyGraph.ReplaceFormula | crates/formula-engine/src/lib.rs:1812-1846 | exactly one formula's edges become those of the new document |
| DependencyGraphs.DependencyGraph.EnsureColumnSlots | crates/formula-engine/src/lib.rs:1795-1810 | a new column's slots are every row of its schema in the new document and lead back to it; every other slot, and a column that has slots already, stays as it is |
| DependencyGraphs.DependencyGraph.RefreshColumnSlots | crates/formula-engine/src/lib.rs:1848-1865 | clearing all touched columns before refilling any makes every slot current, also for a row moved between two of them |
| DependencyGraphs.DependencyGraph.ReverseClosure | crates/formula-engine/src/lib.rs:1967-1987 | returns exactly the formulas with a path of one or more expanded edges to a root |
| DependencyGraphs.ExpansionIsExact | crates/formula-engine/src/lib.rs:1912-1936 | one column edge stands for exactly the per-row edges it replaces |
| DependencyGraphs.DependentsAreExact | crates/formula-engine/src/lib.rs:1938-1945 | the direct dependents of a cell are exactly the formulas whose expanded dependencies hold it |
| DependencyGraphs.ExactIsUnique | crates/formula-engine/src/lib.rs:1745-1753 | a document has one exact graph, so equal documents have equal graphs whatever their history |
| Calculations.FullCalculation | crates/formula-engine/src/lib.rs:1670-1682 | the phases together compute the document's one solution and its exact graph |
| Calculations.AssignCycleFailures | crates/formula-engine/src/lib.rs:2126-2149 | exactly the eligible formulas on a cycle are failed, each with its complete class |
| Calculations.PhasesStartPass | crates/formula-engine/src/lib.rs:2151-2163 | after the failures and the initial values, every node but the unfailed formulas is settled, and no settled one waits for those |
| Solutions.OneSolution | crates/formula-engine/src/lib.rs:1670-1682 | a document has at most one solution |
| Solutions.DocumentIsWellPosed | crates/formula-engine/src/lib.rs:2126-2149 | once cyclic formulas are failed, the remaining ones do not wait for each other in a circle and depend on nothing but their declared reads |
| Solutions.AnyOrderSolves | crates/formula-engine/src/lib.rs:2208-2302 | taken in any order in which each formula comes after what it declares, the evaluations end in the one solution |
| Systems.RunSolves | crates/formula-engine/src/lib.rs:2208-2302 | a run over any such order solves a well-posed system |
| Pregraph.PregraphFailures | crates/formula-engine/src/lib.rs:2026-2124 | every node gets the failure its document decides, structure and type before columns before targets; `EarlyFailures.EarlyFailuresMean` says which |
| EarlyFailures.EarlyFailuresMean | crates/formula-engine/src/lib.rs:2026-2124 | the early failures are exactly those of a table over the document: the first limit breached, a place that holds the wrong form, every column that is missing or not numeric, every target that is missing or holds something else |
| EarlyFailures.InvalidTargetsMean | crates/formula-engine/src/lib.rs:2059-2122 | a target is invalid when it is the node's own cell, a cell its formula names or the first bad cell of a column it sums: missing without a definition, not numeric where a number field is needed, and, if every evaluation reads it, not numeric when it holds anything else and missing when it is required and empty |
| EarlyFailures.ColumnFailuresMean | crates/formula-engine/src/lib.rs:2304-2331 | a column the formula reads fails it when its schema or field is missing, when it holds references, or when some node computes with it and it holds no numbers |
| EarlyFailures.FirstBreachMeans | crates/formula-engine/src/lib.rs:842-863 | the limit reported is that of the first node in pre-order that is too deep or one too many |
| EarlyFailures.DepthsAreChains | crates/formula-engine/src/lib.rs:842-863 | a formula has a node at a depth just when a chain of that many nodes leads down to one |
| EarlyFailures.UnnameableColumnsFail | crates/formula-engine/src/lib.rs:807-821 | the columns a projection refuses are exactly those that fail the formula early |
| EarlyFailures.MissingReferencesFail | crates/formula-engine/src/lib.rs:2350-2366 | the references a projection refuses are exactly the named cells without a definition |
| EarlyFailures.AuthoredFailsForTargetsOnly | crates/formula-engine/src/lib.rs:2026-2124 | a formula that binding can produce fails early for its targets only |
| Chains.UnconditionalMeans | crates/semantic-core/src/model.rs:905-927 | a cell is read on every evaluation if and only if a chain of children leads from the formula to a reference to it, through no ISBLANK and out of every IF by its condition |
| Chains.UsesMean | crates/semantic-core/src/model.rs:929-963 | a reference needs a number field unless the last ISBLANK or conditional on its chain is an ISBLANK, or a conditional it is a whole criterion of |
| Chains.DirectMeans | crates/formula-engine/src/lib.rs:866-900 | the direct references are the cells that chains of children lead to |
| Chains.ColumnsMean | crates/semantic-core/src/model.rs:991-1019 | the columns read are those of the totals, aggregates, value columns and criteria that chains lead to |
| Chains.NumericColumnsMean | crates/semantic-core/src/model.rs:965-989 | the columns read as numbers are those of the totals, aggregates and value columns |
| Chains.TotalColumnsMean | crates/formula-engine/src/lib.rs:2059-2122 | the columns summed whole are those of the totals |
| Chains.RequiredMeans | crates/formula-engine/src/evaluation.rs:270-345 | a failed cell is required if and only if the ways an evaluation takes, through each IF's condition and selected branch, lead to a reference to it or to a column whose first failed cell it is |
| Chains.OutcomeMeans | crates/formula-engine/src/lib.rs:2239-2267 | a formula fails with exactly the failed cells it requires, and gives what it evaluates to when it requires none |
| Typing.TypedMeans | crates/semantic-core/src/model.rs:850-903 | a formula is typed if and only if every place in it that needs a number holds a number form and every place that needs a condition a condition form, AND and OR have arguments, ISBLANK a reference and ROUND at most ten digits; its type is then that of its form |
| Typing.TypesAreApart | crates/formula-engine/src/evaluation.rs:350-429 | what is typed as a number never evaluates as a condition, and the other way round |
| Typing.TypedGoesWrongInConditionals | crates/formula-engine/src/evaluation.rs:350-733 | a typed formula ends in a type mismatch only where a conditional aggregate below it does |
| Operations.EvaluatorIsTheOne | crates/formula-engine/src/evaluation.rs:350-733 | the evaluator obeys the clause of every form of formula, and no other evaluation does: the operator's rule over its operands in their order, the first failing operand, division by zero exactly for a zero divisor, a failure exactly for a result that is not finite, IF by its condition, comparison by rank, each aggregate a fold over the column's values, zero for an optional empty number cell, ISBLANK for a row that holds nothing there |
| Operations.RowOutcomeMeans | crates/formula-engine/src/evaluation.rs:540-646 | a row is looked at criterion by criterion up to the first that it does not meet or that cannot be read; a row that meets all adds its value, or nothing when that cell is blank |
| Operations.CountMeans | crates/formula-engine/src/evaluation.rs:497-568 | a count with one relational test is the number of rows whose value stands in that order to the operand, or the failure of the first row that cannot be compared |
| Pregraph.NodeTargets | crates/formula-engine/src/lib.rs:2059-2122 | the recorded targets are exactly the node's invalid ones, as `EarlyFailures.InvalidTargetsMean` describes them, with each column's first bad cell looked up once |
| Pregraph.BadTargetsAreBad | crates/formula-engine/src/lib.rs:2350-2389 | whatever check found a target, its failure is its failure as a numeric reference, so the order of checks does not matter |
| Pregraph.SamePregraph | crates/formula-engine/src/lib.rs:2026-2124 | a node's early failure rests on its own cell and its declared reads only |
| Components.StronglyConnected | crates/formula-engine/src/lib.rs:2443-2495 | returns every mutual-reachability class of a closed graph, pairwise disjoint |
| Components.DepthFirstFinishOrder | crates/formula-engine/src/lib.rs:2391-2423 | lists every node exactly once, and an edge to a node that finishes later means that node reaches everything finished in between |
| Components.GatheredIsClass | crates/formula-engine/src/lib.rs:2478-2495 | what the backward sweep gathers from the latest unassigned node is that node's class |
| Cycles.CyclicComponents | crates/formula-engine/src/lib.rs:2425-2521 | on the formula/column graph it returns exactly the mutual-reachability classes of the expanded graph that hold a cycle, pairwise disjoint |
| Cycles.MembersAreAClass | crates/formula-engine/src/lib.rs:2425-2521 | the cells of a class of the formula/column graph are a class of the expanded graph |
| Cycles.LoneCell | crates/formula-engine/src/lib.rs:2506-2518 | a formula alone in its class is on a cycle just when it names itself |
| Cycles.LargeComponent | crates/formula-engine/src/lib.rs:2506-2518 | a class of several nodes holds a cycle, also when it is one formula and a column it is a slot of |
| Scheduling.EvaluateRemainingFormulas | crates/formula-engine/src/lib.rs:2208-2302 | whatever ready formula is taken next, the loop ends with the document's solution and changes no record of a settled node |
| Scheduling.EvaluateNext | crates/formula-engine/src/lib.rs:2238-2296 | each step takes a pending formula with settled dependencies out for good, keeps every counter right and every cache entry fresh |
| Scheduling.RemainingCounts | crates/formula-engine/src/lib.rs:2170-2206 | the counters start as the numbers of pending cells and unsettled columns each formula awaits |
| Scheduling.Settle | crates/formula-engine/src/lib.rs:2269-2296 | releasing readers and columns keeps the counters equal to what is still awaited, so none underflows |
| Scheduling.ReadyReadsSettled | crates/formula-engine/src/lib.rs:2215-2243 | a formula with a zero count reads only settled cells |
| Scheduling.NothingReadyMeansDone | crates/formula-engine/src/lib.rs:2297-2302 | when nothing is ready nothing is pending: the final assertion always holds |
| Scheduling.NothingLeft | crates/formula-engine/src/lib.rs:2297-2302 | and the records then solve the document |
| Scheduling.CacheSurvives | crates/formula-engine/src/evaluation.rs:79-180 | every cache entry equals a fresh computation at every later point of the pass |
| Systems.SomethingIsReady | crates/formula-engine/src/lib.rs:2208-2302 | pending formulas of an acyclic system cannot all wait for each other |
| Systems.SolutionIsUnique | crates/formula-engine/src/lib.rs:2208-2302 | an acyclic system of outcomes has one solution |
| ColumnCaches.ColumnCache.Fill | crates/formula-engine/src/evaluation.rs:137-173 | the column's entry equals a fresh read of its cells in entity order; other entries stay |
| ColumnCaches.ColumnCache.CriterionIndexOf | crates/formula-engine/src/evaluation.rs:88-135 | the index files every row under exactly its cell's keys, in entity order, and is marked for scanning when a cell may fail |
| ColumnCaches.FileRowFiles | crates/formula-engine/src/evaluation.rs:126-132 | filing a row appends it under each of its cell's keys and nowhere else |
| Evaluation.EvaluateNumber | crates/formula-engine/src/evaluation.rs:350-429 | the cached evaluation of a number equals the simple one, which `Operations.EvaluatorIsTheOne` describes |
| Evaluation.EvaluateCondition | crates/formula-engine/src/evaluation.rs:686-733 | the cached evaluation of a condition equals the simple one |
| Evaluation.FailedRequiredReferences | crates/formula-engine/src/evaluation.rs:270-345 | the stack walk returns exactly the failed references on the branches an evaluation takes |
| Evaluation.Conditional | crates/formula-engine/src/evaluation.rs:431-470 | a conditional through memo and index equals the full walk over all rows: same first error, same order of additions |
| Evaluation.WalkOfCandidates | crates/formula-engine/src/evaluation.rs:472-536 | dropping rows that the first criterion cleanly rejects changes neither the matched rows, the order of the values nor the first error |
| Evaluation.DroppedRowsAreRejected | crates/formula-engine/src/evaluation.rs:472-493 | a row that shares no key with the test is rejected without an error |
| Evaluation.Candidates | crates/formula-engine/src/evaluation.rs:472-493 | the candidates are exactly the rows filed under the test's keys, in entity order; none are given when the column needs a scan |
| Evaluation.MergeIds | crates/formula-engine/src/evaluation.rs:745-766 | merging two disjoint increasing lists gives the increasing list of both |
| Matching.NumbersStandInOrder | crates/semantic-core/src/criterion.rs:338-391 | for a number cell and a number operand exactly one of `<`, `=` and `>` matches, decided by their order; `<=`, `>=` and `<>` follow from those three |
| Matching.DatesStandInOrder | crates/semantic-core/src/criterion.rs:338-391 | the same for two dates, by year, then month, then day |
| Matching.OnlyNumbersAndDatesAreOrdered | crates/semantic-core/src/criterion.rs:338-350 | a relational test matches no blank, text or boolean, and no number against a date |
| Matching.EqualityMeans | crates/semantic-core/src/criterion.rs:250-336 | an equality test matches a blank just when it is the empty text, a boolean just when it is that boolean, and a text by its pattern; `<>` is its opposite |
| Matching.NumericText | crates/semantic-core/src/criterion.rs:316-336 | a text equals a number just when it reads as that number |
| Matching.PatternMeans | crates/semantic-core/src/criterion.rs:427-502 | a pattern matches a text if and only if the folded text splits into pieces that fit it: any for `*`, one character for `?`, and the folded character for any other, with `~` making the wildcard after it an ordinary one |
| Matching.CriterionTextMeans | crates/semantic-core/src/criterion.rs:136-170 | a criterion text is its operator and what the rest reads as, a number before a date before a truth value before text; only a relational operator on text or a truth value is refused |
| Criteria.KeysNeverMiss | crates/semantic-core/src/criterion.rs:250-336 | a keyed test never matches a blank, and a cell it matches shares a key with it |
| Criteria.KeysAreExclusive | crates/semantic-core/src/criterion.rs:69-90 | a test has one or two keys, and no cell is filed under both |
| Criteria.PlainPattern | crates/semantic-core/src/criterion.rs:427-502 | without wildcards a pattern matches exactly the cells with the same lower case |
| Wildcards.GreedyMatch | crates/semantic-core/src/criterion.rs:427-463 | the greedy matcher, which only ever retries its last star, decides exactly the recursive meaning of the pattern |
| Wildcards.TakeStar | crates/semantic-core/src/criterion.rs:444-448 | giving up earlier stars for a new one loses no match |
| Meaning.ColumnCellsMean | crates/formula-engine/src/lib.rs:2332-2346 | a column's cells are exactly its non-blank slots, in entity order |
| Meaning.ReadColumnMeans | crates/formula-engine/src/evaluation.rs:137-173 | a column read holds its values and their running sum in entity order, the first failed cell and the first cell without a value |
| Meaning.RowMatchesMeans | crates/formula-engine/src/evaluation.rs:540-568 | a row matches when it meets every criterion; otherwise the first criterion it does not meet rejects it or fails |
| Meaning.WalkMeans | crates/formula-engine/src/evaluation.rs:497-536 | a conditional's walk counts exactly the matching rows and lists their values in entity order, or stops with the failure of the first failing row |
| Meaning.ConditionalSumMeans | crates/formula-engine/src/evaluation.rs:497-536 | a conditional sum adds the matching rows' values in entity order |
| Meaning.ConnectiveMeans | crates/formula-engine/src/evaluation.rs:700-708 | AND and OR evaluate every argument: they hold when all, or some, do, and fail with the first failing argument |
| Locality.SameOutcome | crates/formula-engine/src/lib.rs:866-900 | two snapshots that agree on a formula's declared reads give it the same outcome |
| Locality.NodeDeclaresIsExact | crates/formula-engine/src/evaluation.rs:497-568 | snapshots that agree on a conditional's declared columns give the same walk, for every choice of tests, if and only if each column it walks, taken in the first criterion's schema, is declared |
| Locality.OneSchemaDeclares | crates/semantic-core/src/validation.rs:828-846 | the one-schema rule that validation enforces is sufficient |
| MixedSchemas.MixedSchemasDependOnOrder | crates/formula-engine/src/evaluation.rs:540-568 | a document whose formulas all reach evaluation and are on no cycle, and whose records differ between the two orders its declared dependencies allow |
| MixedEdits.UpdateDiffersFromRebuild | crates/formula-engine/src/lib.rs:1014-1085 | without declared reads, an update whose roots cover the edit counts a row that a rebuild, taking formulas in the same least-first order, fails on |
| Propagation.NumberReadsLive | crates/formula-engine/src/evaluation.rs:270-429 | when an expression declares what it reads and no failed reference is required, the number depends on no failed cell and blames none, for every nesting |
| Propagation.ConditionReadsLive | crates/formula-engine/src/evaluation.rs:686-733 | the same for conditions that declare what they read |
| Propagation.OutcomeBlames | crates/formula-engine/src/evaluation.rs:270-345 | a formula that declares what it reads and is failed by its dependencies blames declared reads only, and among the failed ones exactly the required ones |
| Propagation.DeclaringIsBlamingLive | crates/formula-engine/src/evaluation.rs:497-568 | a conditional over columns without failed cells blames no failed cell, for every snapshot and every choice of tests, if and only if it declares each column it walks |
| BlameLoops.BlameIsNotRequired | crates/formula-engine/src/evaluation.rs:497-568 | at the end of a calculation, a conditional that declares less than it walks requires no failed cell and blames one |
| Rounding.RoundDecimal | crates/formula-engine/src/evaluation.rs:785-825 | gives the nearest multiple of the last kept place, ties away from zero, growing by a digit only when all kept digits were nines |
| Rounding.Carry | crates/formula-engine/src/evaluation.rs:795-810 | the carry loop turns the digits of a number into those of the next one |
| Rounding.NextIsOneMore | crates/formula-engine/src/evaluation.rs:795-810 | those digits are worth exactly one more, with one digit more only after all nines |
| Rounding.NearestIsUnique | crates/formula-engine/src/evaluation.rs:785-825 | the nearest multiple with ties away from zero is one number |
| Reference.ReferenceCalculation | crates/formula-engine/src/column_graph_differential.rs:43-209 | the expanded pipeline, with one column cache for the whole pass, computes the document's solution and its expanded dependencies |
| Reference.ExpandedCyclicComponents | crates/formula-engine/src/column_graph_differential.rs:211-306 | the expanded cycle detection returns the same cyclic classes |
| Reference.ExpandedAffectedBy | crates/formula-engine/src/column_graph_differential.rs:308-331 | sweeping until nothing is added finds exactly the formulas that reach the changed cell |
| Reference.FailedAmongRequired | crates/formula-engine/src/evaluation.rs:197-345 | the failed members of the required references are the failed required references |
| Reference.AllRequiredReferences | crates/formula-engine/src/evaluation.rs:197-262 | the expanded walk collects the references of the selected branches, failed or not, and the first failed cell of each column |
| Reference.Differential | crates/formula-engine/src/column_graph_differential.rs:547-585 | for every document whose formulas declare what they read, both pipelines give the same values, failures, expanded dependencies and affected formulas |
| Compatibility.ChainNeverRepeats | crates/formula-engine/src/lib.rs:1359-1418 | in a solved document whose formulas declare what they read, following failed dependencies from any node never comes back |
| Compatibility.CoherentNeverRepeats | crates/formula-engine/src/lib.rs:1364-1369 | so the code's assertion holds for every such document |
| BlameLoops.ChainRepeats | crates/formula-engine/src/lib.rs:1364-1369 | a document without early failures or cycles, with one order to evaluate in, whose calculation ends in two failures that blame each other: the walk comes back and the assertion fails |
| BlameLoops.TwoSolutions | crates/formula-engine/src/lib.rs:1670-1682 | the same document has a second solution, so one solution needs declared reads too |
| Compatibility.RootCause | crates/formula-engine/src/lib.rs:1359-1418 | for any failures, the walk ends at the root cause, which a chain of distinct failed nodes leads to from the least failed cell and which blames no failed cell, or fails the assertion exactly when it comes back |
| Compatibility.NextBlamedMeans | crates/formula-engine/src/lib.rs:1401-1418 | the walk goes from a failure to the first of the cells it blames that failed too, and ends where none did |
| Compatibility.RootCauseIsUnique | crates/formula-engine/src/lib.rs:1359-1418 | a set of failures has one root cause |
| Compatibility.CycleWitness | crates/formula-engine/src/lib.rs:1455-1506 | the witness is a closed path of real edges inside the component, repeating only its start; the fallback is never reached |
| Compatibility.Search | crates/formula-engine/src/lib.rs:1469-1500 | the breadth-first search finds a way back to the start or has expanded everything it visited |
| Compatibility.CompatibilityError | crates/formula-engine/src/lib.rs:1359-1450 | for the failures of any document: no error exactly when the walk comes back, otherwise the error explains the failure of the root cause by its least target or column, its cycle witness, or its kind |
| Compatibility.RunIsFormed | crates/formula-engine/src/lib.rs:1359-1450 | whatever order a document is evaluated in, its failures have the form the error needs: no empty blame, no empty target, complete cycle classes |
| FormulaParser.PrintAndParse | crates/formula-engine/src/parser.rs:129-330 | the canonical print of a well-formed formula is accepted, as that formula, if and only if its parser nodes, its depth and its length are within the limits; otherwise it is refused |
| FormulaParser.ParseExpression | crates/formula-engine/src/parser.rs:129-143 | what is accepted is well formed and within every limit; any legible writing of a formula is accepted as that formula if and only if it fits, and refused otherwise |
| FormulaParser.Reparse | crates/formula-engine/src/parser.rs:129-330 | the canonical print of whatever was accepted is accepted again as the same formula if and only if the parser counts at most 256 nodes on it |
| FormulaParser.Parser.ParseLevel | crates/formula-engine/src/parser.rs:431-511 | each precedence level reads a chain of its operators, left to right, as the tree it was written from, with or without the redundant parentheses; it fails only over a budget |
| FormulaParser.Parser.ParseUnary | crates/formula-engine/src/parser.rs:513-536 | a negative literal is read back as the literal, or refused for the nesting or node budget |
| FormulaParser.Parser.ParsePrimary | crates/formula-engine/src/parser.rs:538-550 | every form is recognised by how its writing starts |
| FormulaParser.Parser.ParseNumber | crates/formula-engine/src/parser.rs:552-608 | reads a printed literal whole and as the same number |
| FormulaParser.Parser.ParseReference | crates/formula-engine/src/parser.rs:610-688 | reads every printed reference and column aggregate back |
| FormulaParser.Parser.ParseFunction | crates/formula-engine/src/parser.rs:700-757 | reads every call back as the call it was, under any spelling of its name |
| FormulaParser.Parser.ParseExtended | crates/formula-engine/src/parser.rs:759-818 | the same for IF, AND, OR, NOT, ROUND and ISBLANK |
| FormulaParser.Parser.ParseConditional | crates/formula-engine/src/parser.rs:820-882 | a conditional aggregate in its plural or its singular form gives one tree |
| FormulaParser.Parser.ParsePlural | crates/formula-engine/src/parser.rs:832-882 | SUMIFS, AVERAGEIFS and COUNTIFS: the value column and then the criteria, each argument counted |
| FormulaParser.Parser.ParseSingular | crates/formula-engine/src/parser.rs:832-882 | SUMIF, AVERAGEIF and COUNTIF give the tree of the plural form with one criterion; a left-out value column is the criterion's |
| FormulaParser.Parser.ParseCriterionLiteral | crates/formula-engine/src/parser.rs:957-1001 | reads a quoted test back as its operator and operand: blank tests, numeric tests, and equality with a number |
| FormulaParser.Parser.ParseColumnArgument | crates/formula-engine/src/parser.rs:896-942 | reads a column argument back and counts it as one node |
| Writings.CanonicalText | crates/formula-engine/src/parser.rs:171-330 | the canonical print is one writing, and what the parser counts on it is `ParserNodes` |
| WrittenTexts.ShapeIsChain | crates/formula-engine/src/parser.rs:431-511 | a formula written without redundant parentheses is its first operand and the operators of its level, grouped to the left |
| PrintBudgets.PrintIsRefused | crates/formula-engine/src/parser.rs:957-1001 | a formula that is accepted with quoted tests while its canonical print is refused |
| PrintBudgets.CrowdedFits | crates/formula-engine/src/parser.rs:1038-1047 | its two node counts lie on the two sides of the limit, and nothing else of it is over a limit |
| PrintBudgets.ProjectionIsRefused | crates/formula-engine/src/lib.rs:72-108 | the same formula binds, and its projection is refused |
| Decimals.DecimalIsFaithful | crates/formula-engine/src/parser.rs:328-341 | plain decimal spelling meets what the round trips ask of the spellings |
| UnboundFormulas.NestingWithinDepth | crates/formula-engine/src/parser.rs:1021-1036 | the parser's nesting never exceeds the depth of the formula, so the nesting budget always suffices |
| UnboundFormulas.NodesWithinParserNodes | crates/formula-engine/src/parser.rs:1038-1047 | the parser counts at least the nodes of the formula |
| UnboundFormulas.ValidateStructure | crates/formula-engine/src/parser.rs:147-170 | the stack walk accepts exactly the formulas within the node, depth and printed-length limits |
| Expressions.WithinLimits | crates/formula-engine/src/lib.rs:842-863 | no breach is found just when every depth and the node count are within the limits |
| Binding.Build | crates/semantic-core/src/address.rs:79-184 | an index builds if and only if no two schemas, fields of a schema or entities share a key, and then inverts them exactly |
| Binding.AddressResolvesBack | crates/semantic-core/src/address.rs:247-302 | the address of an existing field resolves back to it |
| Binding.ResolvedIsCurrent | crates/formula-engine/src/lib.rs:111-151 | a resolved address is the current address of what it resolved to |
| Binding.ColumnResolvesBack | crates/semantic-core/src/address.rs:228-245 | the address of an existing column resolves back to it |
| Binding.BindExpression | crates/formula-engine/src/lib.rs:92-109 | a formula binds exactly when it is within the limits, every target binds and its type, as `Typing.TypedMeans` describes it, is a number |
| Projection.ProjectParseBind | crates/formula-engine/src/lib.rs:526-796 | projecting, parsing and binding a well-typed formula with numeric targets gives the same formula if and only if keys are unique, the keys it names are identifiers and the projection is within the limits |
| Projection.Rebind | crates/formula-engine/src/lib.rs:72-108 | whatever was bound survives projection, parsing and binding if and only if its projection is within the limits, whatever other keys the document has |
| Projection.BoundIsNamed | crates/formula-engine/src/lib.rs:352-446 | projecting what a tree was bound to gives that tree |
| Projection.UnbindIsWellFormed | crates/semantic-core/src/address.rs:228-302 | in a document whose keys are all identifiers, every authored formula projects to a tree the parser can produce |
| Projection.ProjectExpression | crates/formula-engine/src/lib.rs:526-619 | text is produced exactly when limits, index and targets allow; otherwise the refusal lists every missing target or column |
| Projection.BindsBack | crates/formula-engine/src/lib.rs:352-446 | binding the projected tree gives the formula back |
| Projection.RendersCanonically | crates/formula-engine/src/lib.rs:621-796 | the rendered text is the canonical print of the projected tree |
| Projection.BoundIsAuthored | crates/formula-engine/src/lib.rs:352-446 | whatever binds has existing targets of the types its places ask for |
| Projection.ProjectedDepth | crates/formula-engine/src/lib.rs:842-863 | a formula within the depth limit projects to a tree within it |
| Impacts.ChangedFields | crates/diff-engine/src/lib.rs:524-587 | collects exactly the fields of rows on both sides whose stored value changed |
| Impacts.ReachingFields | crates/formula-engine/src/lib.rs:1994-2009 | gives each target exactly the changed fields that reach it |
| Impacts.FormulaImpacts | crates/diff-engine/src/lib.rs:339-379 | lists once, in order, every cell that is a formula in either document and has two values that differ, and no other, with exactly its causes in either document |
| Impacts.UnreachedKeepsValue | crates/diff-engine/src/lib.rs:291-387 | a formula that neither changed nor reads, directly or not, a changed cell or an added, removed or moved row keeps its value where both documents give one, and its whole record when the definitions stay |
| Stability.NumbersAgree | crates/formula-engine/src/evaluation.rs:270-429 | over the same stored cells, two evaluations of a number that both succeed give one number, whatever the field definitions and failures |
| Stability.ConditionsAgree | crates/formula-engine/src/evaluation.rs:686-733 | the same for conditions |
| Impacts.ImpactsHaveCauses | crates/diff-engine/src/lib.rs:291-387 | every impact names a cause, or reads a row that was added, removed or moved; field definitions may change |
| Impacts.UnreadRowsNeedNoCause | crates/diff-engine/src/lib.rs:291-387 | when no formula reads the rows that came or went, every impact on a row that stayed names a cause |
| AddedRows.AddedRowHasNoCause | crates/diff-engine/src/lib.rs:524-587 | two documents that differ in one added row: the count over its column changes, and names no cause |
| MixedEdits.UndeclaredChangeHasNoCause | crates/diff-engine/src/lib.rs:291-387 | with every row in place, a change in an undeclared cell changes a count and is not named |
| CanonicalDelta.CompareStates | crates/diff-engine/src/canonical_delta.rs:376-706 | the list holds exactly the facts that hold between the two states, strictly increasing by key |
| FactOrders.FactsInOrder | crates/diff-engine/src/canonical_delta.rs:226-293 | in a canonical list facts stand by what they are about, title, schema, field, entity, value, definition, then by ids, then creations before deletions before changes |
| FactOrders.KeysFollowFacts | crates/diff-engine/src/canonical_delta.rs:226-293 | one key is less than another just when its fact is to be listed first |
| CanonicalDelta.CanonicalDeltaOf | crates/diff-engine/src/canonical_delta.rs:324-420 | contract and ids first, then core validity, calculation, complete constraints and saved definitions, each of both states before the next: a refusal names the first side that fails at the first stage that any fails; otherwise the facts, which are none exactly when the states are equal |
| CanonicalDelta.CanonicalDeltaWithCalculations | crates/diff-engine/src/canonical_delta.rs:343-420 | with calculations given, the answer to the same question |
| CanonicalDelta.AnswerIsUnique | crates/diff-engine/src/canonical_delta.rs:324-420 | there is one answer, so both entry points agree when the calculations are the ones that would be made |
| CanonicalDelta.DeltaDeterminesAfter | crates/diff-engine/src/canonical_delta.rs:376-706 | the facts and the before state determine the after state |
| CanonicalDelta.DeltaDeterminesBefore | crates/diff-engine/src/canonical_delta.rs:376-706 | the facts and the after state determine the before state |
| CanonicalDelta.EmptyDeltaMeansEqual | crates/diff-engine/src/canonical_delta.rs:376-411 | no facts if and only if no difference |
| CanonicalDelta.IncreasingFactsAreUnique | crates/diff-engine/src/canonical_delta.rs:226-293 | one set of facts has one canonical list |
| CanonicalDelta.SortIsIncreasing | crates/diff-engine/src/canonical_delta.rs:226-293 | sorting facts with different keys loses none and gives a strictly increasing list |

## Left out

- Work counters, walk counters and forced-walk switches: they count, and change no result.
- `exact_sum`, `average` and other binary64 arithmetic: uninterpreted operations of `Model.Rules`, since they rest on rounding-error terms. A column total is still the same sequence of additions in both forms.
- Number, date, boolean and percent spellings: parameters, assumed faithful only where a round trip needs it.
- Error wording and positions of parse errors: a parse error is one value. Positions are character positions, where the source counts bytes.
- `render_text`, headings and the change list of the first diff version beyond its changed fields and formula impacts.
- Sorted vectors of affected formulas and causes are sets; membership is what is stated.
- Entities, schemas and fields are stored under their own ids; a map whose key differs from the id inside is not part of this model.
- Whether a document validates for the canonical delta, in its core, its constraints and its saved definitions, is a parameter; validation is modelled only where calculation and binding rely on it.
- The three loops of comparison, additive and multiplicative operators are one method indexed by level.
- The stack of `validate_expression_structure` is a recursive list of depths in evaluation order.
- The theorems of `Solutions`, `Scheduling`, `Calculations`, `Coverage`, `Retained`, `Reference`, `Impacts` and `Compatibility.ChainNeverRepeats` assume `Solutions.Coherent`, and those of `Propagation` that the expression declares what it reads: without it a formula may read cells it does not declare, and the examples above fail.
- Reference.Differential: requires `Solutions.Coherent`; whether the two pipelines also agree on other documents when both take formulas least first is not stated.
- Projection.ProjectParseBind: what the text of a key that is no identifier parses to, if anything, is not stated beyond that it is not the formula it came from.
- FormulaParser.ParseExpression: texts with other spacing than the canonical one, and literals in other spellings than the printed one, are shown to give well-formed formulas within the limits only.
- Merging documents, patches, storage, adapters and the user interface.
