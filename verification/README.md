# TinySQL: a Dafny model of its hard parts

The project models nine parts of the TinySQL engine and proves, for all inputs or over all
runs, what each of them is for. The transactions, loops and mutable objects of the Go code are
methods and classes; expression rewriting and the specifications are functions; the two
concurrent protocols, the DDL queues and the resumable reorganization are transition systems
with an invariant that every step keeps.

| file | part |
|---|---|
| `Wrappers.dfy`, `Expressions.dfy` | optional values; expressions in three-valued logic, folding, substitution, splitting |
| `DisjointSet.dfy`, `ConstantPropagation.dfy`, `OuterJoinPropagation.dfy`, `ConstraintPropagation.dfy` | the condition solvers |
| `ChunkRows.dfy`, `MergeJoinInner.dfy`, `MergeJoin.dfy` | the merge join |
| `Projection.dfy` | the parallel projection |
| `DDLQueue.dfy` | the two DDL job queues |
| `Backfill.dfy`, `ReorgResume.dfy` | index backfilling and its resume point |
| `SchemaValidator.dfy` | the schema validator |
| `TopN.dfy`, `RowHashMap.dfy`, `VecEval.dfy` | the heap, the hash table, vectorized filters |
| `UnionScan.dfy`, `Replace.dfy` | transaction-local reads and REPLACE |

`dafny verify dfyconfig.toml` checks all files together.

## Conventions

- One value type stands for all SQL types: an integer or NULL. `=` is true exactly when both sides are the same value, and other builtins are a parameter of every theorem.
- A row of the solvers is a map from column IDs; a missing column is NULL. Column numbers are the table of the solver, and its constants are looked up by column.
- A child executor is the list of chunks it will deliver. Chunk sizes, capacities and the order of environment events are arbitrary.
- Handles are 64-bit (`Int64`), so every `+ 1` on one is proved not to overflow. TopN models the unsigned addition and the conversion of the offset to a signed integer.
- The environment's part (ownership, failing commits, timeouts, the state a DDL job reaches, whether a chunk is full) is a parameter or an action.

## Results that differ from what one might expect

- Constant propagation over an outer join does not keep every query: line 451 of `expression/constant_propagation.go` lets a filter over both sides be carried into the join. `MixedFilterAddsRow` calls the solver at such an input, `PropConstOverOuterJoin` has the exact condition, `CarriesTooMuch` of the inputs, and filters on outer columns never meet it.
- A schema validator whose maximum delta count is below one loses changes; `EnqueueIsSoundExactly` says exactly when.
- TopN needs an offset below 2^63, which is converted to a signed cursor, and a sum of offset and count from 1 up to 2^64 - 1. `Drain` says exactly which rows are returned otherwise, `ServesEveryChild` that no other limits serve every child, and `NegativeCursorPanics`, `ZeroLimitPanics` and `WrappedLimitLosesRow` are instances.
- A merged delta of the validator names only tables that its last step changed, so a failing check is never a false alarm about a kept version.

## Model

| member | source | states |
|---|---|---|
| Expressions.EvalReadsColumns | expression/expression.go:139-162 | an expression has the same value on two rows that agree on its columns |
| Expressions.NewFunctionSound | expression/scalar_function.go:107-138 | building a function folds constants without changing the value or the columns it reads |
| Expressions.SubstituteSound | expression/util.go:150-176 | substituting constants for columns keeps the value on every row that has those constants |
| Expressions.SubstituteShape | expression/util.go:150-176 | after substitution no substituted column is left, no new one appears, the depth does not grow, and an expression without such a column is returned unchanged |
| Expressions.SubstituteFolds | expression/util.go:150-176 | an expression without foldable functions has none after substitution: every function whose arguments became constants is folded |
| Expressions.TryToReplaceSound | expression/constant_propagation.go:96-139 | replacing a column by another keeps the value on every row where the two are equal |
| Expressions.TryToReplaceShape | expression/constant_propagation.go:96-139 | a replacement reads only the old columns and the target, and is no deeper |
| Expressions.TryToReplaceComplete | expression/constant_propagation.go:96-139 | a condition that may be replaced is replaced exactly when it mentions the source column, and then no longer mentions it |
| Expressions.ReplacesExactly | expression/constant_propagation.go:96-139 | a replacement happens exactly in a function that mentions the column and holds no IS NULL or unfoldable function, and it renames the column everywhere and changes nothing else |
| Expressions.SplitAndHolds | expression/expression.go:412-430 | a condition is true exactly when all items of its AND split are true |
| Expressions.SplitOrHolds | expression/expression.go:412-436 | a condition is true exactly when some item of its OR split is true |
| Expressions.SplitShape | expression/expression.go:412-424 | split items read no new column, and the items of a split condition are strictly less deep |
| Expressions.SplitLeaves | expression/expression.go:412-436 | splitting yields exactly the leaves of the tree of AND or OR nodes at the root, to any depth |
| Expressions.ComposeConditionHolds | expression/expression.go:344-357 | nothing is composed of an empty list; a composed AND is true exactly when all conditions are, a composed OR when one is |
| Expressions.ComposeBalanced | expression/expression.go:343-357 | up to 2^k conditions are composed into a tree that is at most k levels deeper |
| Expressions.ValidEqualCondHolds | expression/constant_propagation.go:67-86 | a recognized equation is true exactly when the column has the constant |
| Expressions.EquationForms | expression/constant_propagation.go:67-86 | exactly the equations of a column and a constant are recognized, either way round |
| DisjointSet.CompressKeepsForest | util/disjointset/int_set.go:36-42 | pointing an element at its root keeps the forest and every root |
| DisjointSet.LinkKeepsForest | util/disjointset/int_set.go:31-34 | linking two roots yields the forest in which exactly the two sets are merged |
| DisjointSet.IntSet.FindRoot | util/disjointset/int_set.go:36-42 | returns the root, and path compression changes no element's root |
| DisjointSet.IntSet.Union | util/disjointset/int_set.go:31-34 | merges exactly the two sets |
| ConstantPropagation.ColumnTable.TryToUpdateEQList | expression/constant_propagation.go:53-64 | NULL and a second constant are contradictions; otherwise the constant is recorded once |
| ConstantPropagation.PropConstSolver.PickNewEQConds | expression/constant_propagation.go:238-272 | records every new column constant, or replaces conditions that contradict each other by false; equivalent either way |
| ConstantPropagation.PropConstSolver.PropagateConstantEQ | expression/constant_propagation.go:147-179 | the conditions stay equivalent and at the end none mentions a column that another one pins; the cap of 100 rounds is never what stops it |
| ConstantPropagation.MergeKeepsChained | expression/constant_propagation.go:190-202 | after each union, columns share a set only when a chain of the equations seen so far links them |
| ConstantPropagation.PropConstSolver.LinkColumns | expression/constant_propagation.go:187-209 | two columns are in one set exactly when a chain of equations links them, and then they are equal wherever the conditions hold |
| ConstantPropagation.PropConstSolver.DerivePair | expression/constant_propagation.go:210-226 | adds every replacement in both directions for one pair of equal columns, each implied by the conditions |
| ConstantPropagation.PropConstSolver.PropagateColumnEQ | expression/constant_propagation.go:187-228 | only implied conditions are added, and for every chain of equal columns all replacements between its ends are present |
| ConstantPropagation.PropConstSolver.Collect | expression/constant_propagation.go:274-281 | the conditions are exactly the leaves of the given AND trees, so equivalent and none an AND, and every column is numbered |
| ConstantPropagation.PropConstSolver.Solve | expression/constant_propagation.go:274-294 | over 100 columns the input is returned; otherwise the result is equivalent and went through all three phases, no condition is an AND, every leaf of the input that equates a column with a constant is there, and no other condition mentions that column, unless the result is false |
| ConstantPropagation.SolutionFound | expression/constant_propagation.go:274-294 | the equations among the leaves of the input pass through all phases unchanged |
| ConstantPropagation.LinkedForms | expression/constant_propagation.go:187-228 | for every chain of equations between columns, each condition that mentions one end and may be renamed is there renamed to the other end |
| ConstantPropagation.SolveOr | expression/constant_propagation.go:534-545 | an OR condition stays equivalent, and each of its items went through the constant, the column and the OR phase by itself |
| ConstantPropagation.PropagateConstantDNF | expression/constant_propagation.go:534-545 | each condition stays true on the same rows; every item of an OR condition went through all three phases, to any depth; other conditions stay; the recursion terminates by depth |
| ConstantPropagation.PropagateConstant | expression/constant_propagation.go:297-299 | for every condition list and row all inputs are true iff all outputs are; with at most 100 columns no output is an AND, every column = constant leaf of the input is among the outputs and no other output mentions its column, or the output is false; the items of OR conditions, to any depth, likewise |
| OuterJoinPropagation.RewriteKeepsQueryExactly | expression/constant_propagation.go:434-531 | a rewriting of the join conditions that carries filter conditions keeps the query over all relations if and only if no outer row passes the filter NULL-extended while a match of it fails a carried condition |
| OuterJoinPropagation.ExtraRow | expression/constant_propagation.go:434-465 | where that condition fails, two one-row relations give a row more than the query |
| OuterJoinPropagation.OuterFiltersSafe | expression/constant_propagation.go:434-465 | conditions that read outer columns only are always safe to carry |
| OuterJoinPropagation.NothingSubstituted | expression/constant_propagation.go:384-403 | without a constant of an outer column and without a false condition the constant phase changes nothing |
| OuterJoinPropagation.ConstantPhaseKeeps | expression/constant_propagation.go:384-403 | the constant phase keeps all leaves of the filter, and all leaves of the join that equate an outer column with a constant, unless they become false; no condition is an AND |
| OuterJoinPropagation.LinkForms | expression/constant_propagation.go:407-431 | a join equation is recognized exactly when it equates an outer and an inner column, either way round |
| OuterJoinPropagation.JoinForms | expression/constant_propagation.go:467-504 | said on the syntax of the join conditions: each inner column equated with an outer one is NOT NULL, and along every chain of such equations the conditions of the outer column are stated of the inner one |
| OuterJoinPropagation.MixedFilterCarried | expression/constant_propagation.go:434-465 | at a concrete input the filter over both sides is what is carried |
| OuterJoinPropagation.MixedFilterAddsRow | expression/constant_propagation.go:553-568 | at that input the rewritten query returns a NULL-extended row that the query does not: the two are not the same query |
| OuterJoinPropagation.OuterJoinSolver.PickOne | expression/constant_propagation.go:323-369 | one condition: a new outer constant is recorded, a contradiction makes the list false |
| OuterJoinPropagation.OuterJoinSolver.PickEQCondsOnOuterCol | expression/constant_propagation.go:323-369 | all constants of outer columns in the list are recorded, or the list is false |
| OuterJoinPropagation.OuterJoinSolver.PickNewEQConds | expression/constant_propagation.go:371-382 | looks at the filter first; a contradiction in the filter empties the query |
| OuterJoinPropagation.OuterJoinSolver.SubstituteRound | expression/constant_propagation.go:384-403 | one round keeps the rewriting relation and makes progress |
| OuterJoinPropagation.OuterJoinSolver.PropagateConstantEQ | expression/constant_propagation.go:384-403 | the lists are those of a function of the inputs; join conditions end without any outer column that is pinned; filters are untouched or false; the cap never stops it |
| OuterJoinPropagation.OuterJoinSolver.LinkColumns | expression/constant_propagation.go:467-490 | two columns are in one set exactly when a chain of join equations across the two sides links them; the inner column of each such equation is NOT NULL in the catalog or by an added condition |
| OuterJoinPropagation.OuterJoinSolver.DeriveConds | expression/constant_propagation.go:434-465 | carries every condition inside the two schemas from an outer column to its equal inner column, and no filter besides those |
| OuterJoinPropagation.CarriedOverChains | expression/constant_propagation.go:489-503 | the filters carried by the visited column pairs are exactly those with a chain of join equations whose ends replace each other in them |
| OuterJoinPropagation.OuterJoinSolver.PropagateColumnEQ | expression/constant_propagation.go:467-504 | for every chain of join equations from an outer to an inner column, all conditions are carried over, and the carried filters are exactly those with such a chain |
| OuterJoinPropagation.OuterJoinSolver.Solve | expression/constant_propagation.go:506-531 | filters stay equivalent and join conditions are rewritten up to the carried filters; with at most 100 columns the constant phase is the function of the inputs and the other phases were completed on its lists, otherwise nothing changes |
| OuterJoinPropagation.PropConstOverOuterJoin | expression/constant_propagation.go:553-568 | the rewritten query returns the same rows over all outer and inner relations if and only if no filter that the inputs let it carry (CarriedFilters) fails on a match of an outer row that passes the filters extended by NULLs; with at most 100 columns each inner column that a join condition equates with an outer one, in either order, is NOT NULL and has every renamable condition of the outer column, along chains too |
| ConstraintPropagation.RewriteKeepsJustified | expression/constraint_propagation.go:164-174 | tombstoning a condition keeps every tombstoned one implied by live ones, also when its substituted form was already there but tombstoned |
| ConstraintPropagation.LiveEntailsAll | expression/constraint_propagation.go:50-66 | the live conditions are true exactly when all ever appended are |
| ConstraintPropagation.ExprSet.Append | expression/constraint_propagation.go:38-47 | appends exactly the expressions not seen before, tombstoned ones included |
| ConstraintPropagation.ExprSet.RuleConstantFalse | expression/constraint_propagation.go:148-162 | a false condition sets the flag, and the set keeps its meaning |
| ConstraintPropagation.ExprSet.RuleColumnEQConst | expression/constraint_propagation.go:164-174 | a rewritten condition is tombstoned and its substitution appended; the set keeps its meaning and the pair has nothing left |
| ConstraintPropagation.ExprSet.IterOnce | expression/constraint_propagation.go:120-136 | after a pass without growth no live pair has anything left to propagate |
| ConstraintPropagation.ExprSet.FixPoint | expression/constraint_propagation.go:109-118 | terminates, because live column occurrences fall, with nothing left to propagate |
| ConstraintPropagation.ExprSet.Slice | expression/constraint_propagation.go:50-66 | compacts in place to the live conditions in order, or to false |
| ConstraintPropagation.PropagateConstant | expression/constraint_propagation.go:92-107 | true on exactly the input's rows, and no condition mentions a column that another pins |
| MergeJoinInner.InnerTable.ReallocReaderResult | executor/merge_join.go:164-185 | a chunk is reused or taken only when no pointer of the group or of the next key leads into it |
| MergeJoinInner.InnerTable.NextRow | executor/merge_join.go:129-150 | returns the next row without a NULL key, in order |
| MergeJoinInner.InnerTable.RowsWithSameKey | executor/merge_join.go:102-127 | returns the maximal run of equal keys, and the pointed-to rows stay what they were |
| ChunkRows.CompareTransitive | executor/merge_join.go:210-218 | key comparison, column by column with NULL first, is a total order |
| ChunkRows.CompareMeaning | executor/merge_join.go:210-218 | one key is smaller exactly when the first column in which they differ is, NULL being smallest |
| MergeJoin.MatchesSkipNulls | executor/joiner.go:225-250 | inner rows with a NULL key take no part in a join |
| MergeJoin.DropGroup | executor/merge_join.go:263-321 | letting a group go that no further outer row reaches changes nothing that is still to be emitted |
| MergeJoin.MissOuter | executor/merge_join.go:263-321 | an outer row that is filtered out, has no group or precedes it contributes exactly its default row |
| MergeJoin.MatchPart | executor/merge_join.go:263-321 | joining part of a group leaves exactly the rest to be emitted |
| MergeJoin.MatchRest | executor/merge_join.go:263-321 | joining the rest of a group finishes the outer row, with a default row iff nothing matched |
| MergeJoin.MergeJoinExec.TryToMatchInners | executor/joiner.go:225-250 | joins as many rows of the group as fit and reports whether one passed the conditions |
| MergeJoin.MergeJoinExec.CompareRows | executor/merge_join.go:323-339 | decides between skipping the group, missing the outer row and matching |
| MergeJoin.MergeJoinExec.JoinToChunk | executor/merge_join.go:263-321 | what was emitted and what remains always add up; it stops only when the chunk is full or nothing remains |
| MergeJoin.MergeJoinExec.FetchNextOuterRows | executor/merge_join.go:354-373 | the next outer chunk with its filter results, nothing lost |
| MergeJoin.MergeJoinExec.Next | executor/merge_join.go:246-261 | results so far are a prefix of the nested-loop join, and a short chunk means all of it |
| MergeJoin.Drain | executor/merge_join.go:246-321 | for any chunking of sorted children and any capacities the concatenated results equal the nested-loop join and are the join of their kind: inner rows are pairs with equal keys without NULL that meet the conditions, on the sides outerIsRight says; an outer join has every outer row, with defaults exactly when it is filtered out or meets no inner row |
| MergeJoin.NestedLoopIsJoin | executor/joiner.go:220-406 | the nested loop is the inner, left outer or right outer join of the two lists, said of rows and keys only |
| Projection.InitialInv | executor/projection.go:209-256 | the protocol invariant holds after preparation |
| Projection.FetcherKeepsInv | executor/projection.go:312-347 | every statement of the fetcher keeps it |
| Projection.WorkerKeepsInv | executor/projection.go:373-402 | every statement of a worker keeps it |
| Projection.ConsumerKeepsInv | executor/projection.go:187-207 | every statement of the consumer keeps it; its receive on the closed channel changes nothing |
| Projection.QuitKeepsInv | executor/projection.go:412-434 | leaving through finishCh keeps it |
| Projection.ReturnsProjectionsInOrder | executor/projection.go:187-207 | in every run of n workers the k-th chunk returned is the projection of the k-th child chunk, and the one after the last is empty |
| Projection.SendsNeverBlock | executor/projection.go:312-402 | under the invariant each send finds room in its channel |
| Projection.OneWriter | executor/projection.go:312-402 | under the invariant at most one goroutine is about to write a buffer |
| Projection.NoDeadlock | executor/projection.go:187-402 | under the invariant some goroutine can take a step until everything is returned |
| Projection.ReachableStatesAreSafe | executor/projection.go:187-402 | the same in every reachable state: no send blocks, one writer, no deadlock, and the consumer sees the closed channel only after everything was returned |
| Projection.BoundedAfterFinish | executor/projection.go:271-290 | after finishCh closes at most 81n + 56 more steps are taken, however much the child still has |
| Projection.FinishedMeansGone | executor/projection.go:271-290 | where nothing can go on after finishCh closes, the fetcher and all workers are gone |
| Projection.CloseReturns | executor/projection.go:271-290 | from every reachable state in which finishCh is closed each run is bounded and, where it stops, has ended all goroutines that Close waits for |
| DDLQueue.DependenceRule | parser/model/ddl.go:279-316 | two jobs depend on each other exactly by the documented rule: same table, or same database that one creates or drops |
| DDLQueue.DependenceFails | parser/model/ddl.go:279-316 | the dependence is undecided exactly when a rename's arguments are needed for it and do not decode |
| DDLQueue.DependencyIsLargest | ddl/ddl_worker.go:147-179 | the stored ID is that of the largest pending job depended on in the other queue, and zero only if there is none |
| DDLQueue.Meta.GetAllDDLJobsInQueue | structure/list.go:141-158 | lists a queue from its newest job to its oldest |
| DDLQueue.Meta.BuildJobDependence | ddl/ddl_worker.go:149-179 | finds that dependency, or fails when a rename's arguments do not decode |
| DDLQueue.Meta.AddDDLJob | ddl/ddl_worker.go:182-202 | takes a new largest ID and appends the job with its dependency to its queue, or changes nothing |
| DDLQueue.Meta.IsDependencyJobDone | ddl/ddl_worker.go:275-290 | done exactly when there is no dependency or it is in the history |
| DDLQueue.Meta.FinishDDLJob | ddl/ddl_worker.go:257-273 | moves the head of the queue to the history |
| DDLQueue.Meta.HandleDDLJob | ddl/ddl_worker.go:308-369 | one transaction of a worker in all its outcomes: nothing unless this is the owner past its first round and the head's dependency is in the history; a done or rolled-back head moves to the history, others run and are rewritten, cancelled, or left |
| DDLQueue.HandleEffect | ddl/ddl_worker.go:308-369 | which of the three effects a transaction has, by the head's state and what running it yields; a moved head is Synced if it was Done, RollbackDone if it was, and else Cancelled |
| DDLQueue.SubmitKeepsInv | ddl/ddl_worker.go:182-202 | submission keeps the queue invariant: ascending IDs, dependencies older and in the other queue or history, no job lost |
| DDLQueue.WorkKeepsInv | ddl/ddl_worker.go:300-399 | a worker's transaction keeps it |
| DDLQueue.CancelKeepsInv | util/admin/admin.go:100-163 | marking a job as cancelling keeps it |
| DDLQueue.HeadNeedsDone | ddl/ddl_worker.go:275-343 | when a head may run, every job it needed at submission is in the history, although only the largest is stored |
| DDLQueue.DependencyFinishesFirst | ddl/ddl_worker.go:147-343 | over every run: a pending job that a submitted one depends on is in the history before that one runs |
| DDLQueue.HistoryTellsOutcome | ddl/ddl_worker.go:257-343 | over every run the history has each job with the type and IDs submitted, Synced exactly when it left its queue as Done, RollbackDone exactly when it left so, Cancelled otherwise; index jobs wait in one queue and all others in the other |
| DDLQueue.EndIsFinal | ddl/ddl_worker.go:337-343 | over every run a job pending as Done is recorded as Synced and as nothing else, whatever is cancelled or fails in between; likewise RollbackDone |
| DDLQueue.NoDeadlock | ddl/ddl_worker.go:149-290 | in every reachable state with a pending job one of the two heads is not held up |
| DDLQueue.AllJobsCanFinish | ddl/ddl_worker.go:300-399 | from every such state the workers can finish all jobs |
| Backfill.RowsInMeaning | ddl/index.go:1298-1353 | a range scan returns exactly the rows of the range, ascending |
| Backfill.DoneHandlePasses | ddl/index.go:725-740 | the handle after a finished range lies past all its rows, except that MaxInt64 is not stepped over |
| Backfill.ConflictIsDuplicate | ddl/index.go:798-859 | indexing rows in turn clashes exactly when two different rows of a unique index have the same values without NULL, counting existing entries |
| Backfill.IndexedHas | ddl/index.go:865-921 | without a duplicate every row ends with an entry that points at it |
| Backfill.IndexedFrame | ddl/index.go:865-921 | no other entry changes |
| Backfill.IndexGrows | table/tables/index.go:161-183 | without a duplicate the index keeps its entries, gains one for each row, with the handle in the key unless the index is unique and no value is NULL, and no others |
| Backfill.AddedCounts | ddl/index.go:893-915 | the count of added entries is the number of rows, for a unique index of those without an entry |
| Backfill.AddIndexWorker.GetNextHandle | ddl/index.go:725-740 | the handle after the last record, or after the range, without int64 overflow |
| Backfill.AddIndexWorker.FetchRowColVals | ddl/index.go:748-787 | reads the first rows of the range, a full batch or all; with a positive batch size done only if all were read |
| Backfill.CheckKeys | ddl/index.go:815-856 | accepts exactly the batches without a duplicate and marks exactly the rows that have their entry |
| Backfill.AddIndexWorker.CheckUniqueKey | ddl/index.go:798-859 | the same for the fetched batch; a non-unique index accepts all |
| Backfill.CreateEntries | ddl/index.go:888-915 | writes the entries of all rows of the batch, the marked ones being there already |
| Backfill.AddIndexWorker.BackfillIndexInTxn | ddl/index.go:865-921 | a batch is indexed as a whole or not at all, and a duplicate is reported exactly when there is one |
| Backfill.AddIndexWorker.HandleBackfillTask | ddl/index.go:924-965 | scans a prefix of the range's rows, each once and ascending, and all of them without an error; the index gains exactly their entries and the count is that of the new ones; a duplicate error only for two rows with the same values without NULL, other errors only if the environment stopped it |
| Backfill.BackfillFromEmpty | ddl/index.go:924-965 | from an empty index an existing key is reported only for two rows of the range with different handles and the same values without NULL, and without an error there are none and every row has its entry |
| ReorgResume.WaitTaskResults | ddl/index.go:1062-1090 | the next handle, the count and the error are those up to the first failed worker |
| ReorgResume.BuildTasks | ddl/index.go:1128-1150 | one task for each of the first ranges, the others remain |
| ReorgResume.GetTableRange | ddl/reorg.go:310-334 | the range covers every row |
| ReorgResume.RunTask | ddl/index.go:924-965 | a backfill task takes no entry away, and afterwards its result may be reported: without an error every row of its range has its entry |
| ReorgResume.CoveredAfter | ddl/index.go:1062-1125 | after the first n tasks succeed no row below the n-th next handle lacks its entry |
| ReorgResume.BatchKeepsOK | ddl/index.go:1094-1169 | ending a batch, with or without an error, keeps the resume invariant |
| ReorgResume.StepKeepsInv | ddl/reorg.go:110-161 | so do starting, splitting, timing out, collecting, quitting and crashing, of any number of owners |
| ReorgResume.ErrorStopsAdvancement | ddl/index.go:1062-1112 | an error of worker i persists the end of worker i-1's range |
| ReorgResume.SuccessAdvances | ddl/index.go:1062-1169 | a batch without an error moves the handle to report past its last range, a timeout persists it, and the next batch starts at that range's end or the backfilling ends |
| ReorgResume.JobCanComplete | ddl/reorg.go:110-161 | an owner without a running batch can start over from any state and complete the job |
| ReorgResume.ResumeMissesNoRow | ddl/reorg.go:110-161 | over any interleaving the persisted handle is never above a row without its entry, and a completed job has missed no row |
| SchemaValidator.AnswersAsHistory | domain/schema_validator.go:158-186 | the queue reports no change exactly when the version is not older than its oldest entry and the whole history has no later change of the tables |
| SchemaValidator.EnqueueKeeps | domain/schema_validator.go:223-249 | merging and dropping keep the queue true to the history when it may hold an entry |
| SchemaValidator.EnqueueForgetsLittle | domain/schema_validator.go:223-249 | only the oldest entry is given up, and only when the queue is full |
| SchemaValidator.EnqueueGrows | domain/schema_validator.go:223-249 | the queue grows exactly when it has room and the change does not take in the last entry, and ends with the change |
| SchemaValidator.EnqueueIsSoundExactly | domain/schema_validator.go:223-228 | a change is lost if and only if the maximum is below one, the queue holds something and the change names a table |
| SchemaValidator.HasRelatedTableID | domain/schema_validator.go:144-153 | whether two lists share a table |
| SchemaValidator.ContainIn | domain/schema_validator.go:254-274 | inclusion, refused for a longer list |
| SchemaValidator.Validator.FindNewerDeltas | domain/schema_validator.go:179-186 | the entries newer than a version |
| SchemaValidator.Validator.IsRelatedTablesChanged | domain/schema_validator.go:158-177 | the answer of the queue as specified |
| SchemaValidator.Validator.EnqueueDelta | domain/schema_validator.go:223-249 | appends, merges or drops as specified |
| SchemaValidator.Validator.Update | domain/schema_validator.go:121-142 | keeps the validator true to the history when the maximum is at least one or the queue is empty; ignored while stopped |
| SchemaValidator.Validator.Check | domain/schema_validator.go:189-221 | for an older version success exactly if the tables are untouched since and the version is not older than the oldest kept change; the other branches by lease and expiry |
| SchemaValidator.Validator.Stop | domain/schema_validator.go:94-102 | forgets the queue, keeps the history |
| SchemaValidator.Validator.Restart | domain/schema_validator.go:104-110 | starts again with what is there |
| SchemaValidator.Validator.Reset | domain/schema_validator.go:112-119 | forgets the queue without claiming that nothing changed |
| TopN.LessRow | executor/sort.go:123-137 | true exactly when some sort item decides: all earlier ones are equal and there the value is smaller, NULL being smallest, or larger if the item is descending |
| TopN.GreaterRow | executor/sort.go:169-183 | the same with the rows exchanged |
| TopN.LeTransitive | executor/sort.go:123-183 | the order of rows is transitive, and total by LeTotal |
| TopN.OrderedMeaning | executor/sort.go:123-183 | the order in which rows are sorted is that one |
| TopN.Down | executor/sort.go:163-201 | sifting down restores the heap and permutes the rows |
| TopN.HeapPop | executor/sort.go:259-264 | removes a greatest row and keeps the heap |
| TopN.DoCompaction | executor/sort.go:308-318 | the pointed-to rows are the same, in the same order |
| TopN.InitPointers | executor/sort.go:97-105 | a pointer to every row in order |
| TopN.AppendRow | util/chunk/list.go:67-82 | the new pointer leads to the row and no other pointer changes |
| TopN.ReplaceGreatest | executor/sort.go:289-302 | after an eviction no dropped row is smaller than a kept one |
| TopN.TopNExec.LoadChunksUntilTotalLimit | executor/sort.go:235-255 | keeps all rows read, and reads on only below the limit |
| TopN.TopNExec.ProcessChildChk | executor/sort.go:289-302 | panics exactly when nothing may be kept and there is a row; otherwise kept and dropped rows still make up the input, and no dropped row is smaller than a kept one |
| TopN.TopNExec.ProcessNext | executor/sort.go:266-284 | after each chunk at most four times as many rows are in memory as are kept |
| TopN.TopNExec.ExecuteTopN | executor/sort.go:259-287 | panics exactly when nothing may be kept and rows are left; otherwise the kept rows are the first of a sort of the whole input |
| TopN.TopNExec.Next | executor/sort.go:209-233 | panics exactly on a negative cursor or in the first call as above; otherwise returns the next rows past the offset, an empty result only at their end |
| TopN.Drain | executor/sort.go:209-318 | for all 64-bit offsets and counts, any chunking and any capacities: all results together are the slice [Offset, Offset+Count) of a sort of the whole input if and only if Served; otherwise a panic or no row |
| TopN.ServesEveryChild | executor/sort.go:209-232 | every child is served if and only if Offset is below 2^63 and the sum is at least 1 and below 2^64 |
| TopN.SliceExactly | executor/sort.go:209-232 | what is kept past the offset is the wanted slice exactly when the sum does not wrap around or no row lies past the offset |
| TopN.NegativeCursorPanics | executor/sort.go:213-228 | an offset of 2^63 panics without any row |
| TopN.ZeroLimitPanics | executor/sort.go:289-292 | offset and count zero panic on the first row |
| TopN.WrappedLimitLosesRow | executor/sort.go:212-225 | offset 2 and count 2^64 - 1 return nothing of three rows |
| RowHashMap.ChainDescends | executor/hash_table.go:199-272 | chains are acyclic, visit different entries and never the null address |
| RowHashMap.ChainsDisjoint | executor/hash_table.go:247-256 | the chains of two keys share no entry |
| RowHashMap.ChainStays | executor/hash_table.go:199-214 | growth of the store changes no chain |
| RowHashMap.PutEntry | executor/hash_table.go:199-214 | a new address that is not null, every old address as before, slices doubling from 64 to 8192 |
| RowHashMap.RowMap.constructor | executor/hash_table.go:190-197 | an empty map with the null entry reserved |
| RowHashMap.RowMap.Put | executor/hash_table.go:247-256 | appends the pointer to the key's sequence and changes no other |
| RowHashMap.RowMap.Get | executor/hash_table.go:259-272 | the key's pointers in insertion order |
| RowHashMap.ReverseInPlace | executor/hash_table.go:266-270 | the reversed sequence |
| RowHashMap.HashRowContainer.PutChunk | executor/hash_table.go:146-169 | every row without a NULL key is stored under its hash value, in order |
| RowHashMap.HashRowContainer.GetMatchedRows | executor/hash_table.go:110-134 | exactly the build rows without NULL in the key that hash to the probe's value and equal its key, in build order; whenever equal keys hash equally, all that equal it |
| VecEval.EvalIn | expression/builtin_other.go:87-123 | the row form of IN: a match wins over NULL, NULL over a miss |
| VecEval.InMeaning | expression/builtin_other.go:87-123 | on 64-bit values IN is true exactly when an item is the same number, each read by its own unsigned flag, and NULL exactly when the operand is or no item matches and one is NULL |
| VecEval.EvalBool | expression/expression.go:139-162 | true exactly when no filter is NULL or zero |
| VecEval.LocalSliceBuffer.Get | expression/builtin_vectorized.go:73-87 | a buffer that is not free any more: the oldest released one, or a new one |
| VecEval.LocalSliceBuffer.Put | expression/builtin_vectorized.go:89-106 | releases a buffer; growth keeps the order of the ring |
| VecEval.AndInto | expression/builtin_op_vec.go:151-190 | the row form of AND at every position, NULL bits included |
| VecEval.OrInto | expression/builtin_op_vec.go:29-66 | the row form of OR |
| VecEval.NotInto | expression/builtin_op_vec.go:248-267 | the row form of NOT |
| VecEval.IsNullInto | expression/builtin_op_vec.go:91-106 | the row form of IS NULL |
| VecEval.MergeNulls | util/chunk/column.go:559-574 | NULL where either column is |
| VecEval.InItem | expression/builtin_other_vec_generated.go:49-80 | one list item against the operand, for all rows |
| VecEval.VecEvalInt | expression/builtin_op_vec.go:29-267 | the vector of an expression holds its row value for every selected row, and no buffer in use is handed out again |
| VecEval.VecIn | expression/builtin_other_vec_generated.go:24-87 | the same for IN, whose two buffers stay apart |
| VecEval.ToBool | expression/expression.go:281-296 | -1 for NULL, 0 for zero, 1 otherwise |
| VecEval.Narrow | expression/expression.go:244-266 | keeps, in place and in order, the rows that are not zero and marks the NULL ones |
| VecEval.NarrowStep | expression/expression.go:231-269 | the selection is then what the filters so far leave |
| VecEval.VecEvalBool | expression/expression.go:205-279 | selects exactly the rows for which EvalBool is true |
| UnionScan.DirtyTable.AddRow | executor/union_scan.go:66-68 | the handle is written, also after a delete |
| UnionScan.DirtyTable.DeleteRow | executor/union_scan.go:71-74 | the handle is deleted |
| UnionScan.DirtyTable.MaskIsTouched | executor/union_scan.go:209-219 | the handles that hide a snapshot row are exactly those the transaction touched |
| UnionScan.CompareRows | executor/union_scan.go:256-280 | compares the index columns and then the handle |
| UnionScan.ScanOrder | executor/union_scan.go:237-280 | rows with different handles never compare as equal |
| UnionScan.ScanMeaning | executor/union_scan.go:237-280 | the first index column in which two rows differ decides their order, NULL being smallest, and then the handle; a descending scan goes the other way |
| UnionScan.MergeIsOverlay | executor/union_scan.go:160-196 | the merge holds both lists' rows, each once, in order |
| UnionScan.MergeUnique | executor/union_scan.go:160-196 | each handle appears once |
| UnionScan.UnionScanExec.GetSnapshotRow | executor/union_scan.go:198-225 | the next snapshot row that the transaction did not touch |
| UnionScan.UnionScanExec.GetOneRow | executor/union_scan.go:160-196 | the next row of the merge |
| UnionScan.UnionScanExec.Next | executor/union_scan.go:141-157 | the next rows of the merge, as many as fit |
| UnionScan.Drain | executor/union_scan.go:141-280 | for any chunking and capacities: in order, each handle once, the snapshot rows left alone and the rows written; when both sides read one range of a table, exactly the rows of the range that the transaction sees |
| Replace.RemoveKeepsIndex | executor/replace.go:75-78 | removing a row keeps a unique index consistent |
| Replace.AddKeepsIndex | executor/replace.go:126-130 | adding a row whose key is free keeps it consistent |
| Replace.EqualRowIsOnlyConflict | executor/replace.go:66-73 | a row equal to the new one is the only one in its way |
| Replace.EqualAfterRemoval | executor/replace.go:108-124 | the unchanged exit never follows a removal |
| Replace.Table.RemoveRow | executor/replace.go:53-81 | removes the row unless it equals the new one |
| Replace.Table.RemoveIndexRow | executor/replace.go:140-161 | finds a row with one of the distinct keys, if there is one, and deals with it |
| Replace.Table.RemoveDuplicates | executor/replace.go:108-124 | terminates with nothing in the way, or at the new row itself |
| Replace.Table.ReplaceRow | executor/replace.go:84-132 | the table is the old one without every row that has the new row's handle or its values, none NULL, in the columns of a unique index, plus the new row; afterwards no two rows share such values while rows with a NULL there may be alike; indices consistent; affected rows counted |

## Left out

- Errors of expression evaluation, warnings and the type system: conditions are total, and collation, floating point and mixed-type comparison are one value type.
- The null-rejection mode of constant folding and the planner rules that call the solvers.
- Left and right outer hash join probing, hash aggregation, batched selection and vectorized LENGTH, which are unfinished or shadow their own result.
- Agreement of row and vector arithmetic, whose overflow tests differ.
- Panic recovery, logging, failpoints, tickers, etcd, owner election, session pools and requests to the store.
- Codecs: record and index keys are values, so key encoding is injective by construction; prefix indexes are not modelled.
- ConstantPropagation.ColumnTable.TryToUpdateEQList: constants are compared as values, without the collation and type rules of datums.
- Projection.ReturnsProjectionsInOrder: runs without an evaluation error; the chunk an error would carry is not modelled.
- DDLQueue.Meta.HandleDDLJob: what a job does to the schema is reduced to the state it reaches, and waiting for other servers to see a new schema takes no part.
- Backfill.AddIndexWorker.HandleBackfillTask: rows do not change during a task; entries that concurrent statements wrote before it are part of the index it starts from.
- Backfill.AddIndexWorker.FetchRowColVals: decoding a row cannot fail. The tasks built on it ask for a batch size of at least one; lines 49-57 of `sessionctx/variable/varsutil.go` keep it at 32 or more.
- ReorgResume.BuildTasks: a region boundary that is not a record key, at which the original stops with an error, is the action of a failing split.
- SchemaValidator.Validator.Check: nothing is claimed about the branch for an unchanged schema between a restart and the next update, since the expiry is the old one.
- TopN.TopNExec.ExecuteTopN: the library's sort is any function that sorts, so the order of equal rows is not fixed.
- RowHashMap.PutEntry: slice indices are unbounded, where the original has 32 bits for them.
- VecEval.VecEvalInt: all nodes draw on one allocator, where the original has one for each builtin and a global one; sharing one makes reuse of a buffer more likely, not less. The pools of selection and zero slices are values.
- UnionScan.Drain: reading the transaction's buffer is an input in scan order; that it holds all writes of the range is the hypothesis of the last clause.
- Replace.Table.ReplaceRow: non-unique indexes, which follow the rows in the same way, and auto-increment bookkeeping are not modelled.
