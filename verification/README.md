# Skifer: a verified model of its core

Skifer turns SQL into declarative pipeline schemas, orders materialized tables by
what they read, and optimizes Gold models from recorded usage under human
supervision. This project models the parts where its correctness lives, in Dafny,
and proves what those parts promise, over all inputs and all runs.

| module | what it models |
|---|---|
| `SqlValues`, `SqlQuery`, `Joins`, `Draft` | rows with NULLs, three-valued predicates, the seven join kinds as an evaluator, draft filters |
| `MapperWhere`, `MapperFrom`, `MapperSelect`, `Literals` | the mapper's loops over WHERE, FROM and scalar expressions, and literals read as numbers |
| `Chains`, `Pushing` | chains of equality joins whose keys may be merged, and filters that move through them |
| `Loading` | the executors' loading of tables by name, an earlier alias first |
| `BareNames`, `BareExact` | what a bare column name means after joins that merge keys |
| `WhereMeaning`, `PushDown`, `PushDownTheorem` | what a query and its draft return, on either engine, and a condition under which they agree |
| `PushDownRuns` | when the draft of a query runs at all |
| `ChainWitness`, `ChainCases`, `PushDownWitness`, `PushDownExact` | tables on which an unsafe chain shows, and the exact condition |
| `PushDownExamples`, `PushDownCases` | the failing inputs named below |
| `Dag` | the depth-first cycle search over materialized tables |
| `Lexer`, `Splitter`, `SplitterTheorem`, `StatementTexts`, `Resplit` | the statement splitter, its trivia scanner, a reference lexer |
| `Workflow`, `WorkflowAnswers`, `WorkflowRuns` | the proposal lifecycle on disk, with failing and stopping writes, when its commands succeed, and its runs |
| `Iso`, `Usage`, `Store` | the usage store, whose range queries compare printed times |
| `Percentile`, `Windows`, `Grouping`, `Aggregator` | windowed usage patterns |
| `Evaluator`, `EvaluatorTheorem`, `EvaluatorMeaning` | before/after evaluation of a delivered proposal |
| `Paging` | cursor pagination of the model catalog |
| `Prelude`, `Sequences`, `Ordering` | options, numerals, filtering and mapping, total orders and sorting |

The loops and objects of the source are methods and classes proved against
recursive specifications; the theorems are about those specifications.

## Results worth knowing

Some promises hold only under a condition. Each is stated as an if-and-only-if,
with the failing input where it fails.

- **Push-down.** `_map_from_and_joins` marks only the base alias as nullable for a
  RIGHT or FULL join (src/skifer/analyzer/mapper.py:466-473), although such a join
  pads every table joined before it. `a JOIN b ... FULL JOIN c ... WHERE b.x IS NULL`
  is therefore filtered too early.
- **Merged keys.** Both engines join USING the keys when the two key lists are equal
  (src/skifer/core/sql_compiler.py:404-406, src/skifer/core/interpreter.py:523-524),
  also where the query says `ON a.id = b.id`. After a RIGHT or FULL join the merged
  column holds the right side's value, and later joins match by it:
  `a RIGHT JOIN b ON a.id = b.id LEFT JOIN c ON a.id = c.id` finds rows of c that the
  query does not (`PushDownExamples.RightThenLeftIsNotPreserved`).
- **Join spellings.** LEFT OUTER and RIGHT OUTER, when the parser reports a side and
  the kind OUTER, are not in the lookup and become inner joins
  (`MapperFrom.JoinTypeMeaning`). LEFT OUTER never comes out right, RIGHT OUTER only
  if a later join drops the rows it should pad (`PushDownExact.OuterWordIsLost`).
- **Table names.** Both engines look a table up among the aliases already loaded
  (src/skifer/core/interpreter.py:400-402, src/skifer/core/sql_compiler.py:440-443).
  `FROM x AS b JOIN b AS c` reads x for c (`PushDownExamples.TakenAliasIsNotPreserved`),
  and a filter moved to `emp` also filters `emp AS m`, joined later
  (`PushDownCases.FilterReachesSecondReading`).
- **Shared columns in WHERE.** A filter moved to its table always means that table. A
  left-over one is applied by bare name and means its table exactly when the merged
  column does (`BareExact.MergedReadsExactly`). `a LEFT JOIN b ON a.k = b.k WHERE b.k IS
  NULL` is tested on the merged key and finds nothing (`PushDownCases.MergedKeyAntiJoin`).
- **The exact condition** (`PushDownExact.PushDownExactly`). On each engine, for tables of
  distinct names, the draft agrees with the query for every WHERE clause it can answer and
  every database on which both run if and only if the join list is safe
  (`PushDownExact.Safe`), or no such database exists. A later INNER, SEMI or RIGHT join
  drops the rows that a RIGHT or FULL join pads unless it matches them by keys that join
  merged. Safe means: no LEFT OUTER; a RIGHT OUTER has its padded rows dropped later; every
  RIGHT or FULL join of the draft has its padded rows dropped later, or comes after no
  INNER, CROSS or RIGHT join and has them match later exactly what they match in the query;
  and a table whose name is an earlier alias is that very table, with no filter in reach.
  Safe lists are right for all names, also of tables joined with themselves
  (`PushDownExact.SafeIsAlwaysPreserved`).
- **OR groups.** A group naming one alias is moved to that table even when another of
  its columns is unqualified and belongs elsewhere; the draft then refers to a column
  the table lacks (`PushDownRuns.FiltersRunExactly`,
  `PushDownExamples.MixedGroupDoesNotRun`). A left-over filter fails too on a column that is
  not one column after the joins, or that a data-frame join dropped.
- **NOT over NOT LIKE.** A NOT over a LIKE node that carries its own negation loses
  one of the two (`WhereMeaning.ConditionMeaning`).
- **Scalar chains.** Only the head of a cast's type is recorded, TRY_CAST as CAST, of
  ROUND's digits only a name (without a minus sign), and extra arguments are dropped. Both
  engines compile DATETIME to TIMESTAMP and a COALESCE literal that reads as a number to
  that number (src/skifer/core/sql_compiler.py:93-100, 154, 165), so '00000' becomes 0. The
  value is kept if and only if there is none of these (`MapperSelect.ScalarChainExactly`).
- **Splitter.** At slash-star-slash the splitter closes the comment it has just
  opened, since the star is taken twice (`Lexer.CodeAgrees`); a newline after a
  backslash in a literal is not counted (`SplitterTheorem.StatementLineExactly`,
  `SplitterTheorem.EscapedNewlineLosesLine`).
- **Repeated targets.** `build_dag` keeps the last statement of a target, which can
  hide a cycle. The check is right about the declared reads, whatever they are, if and
  only if the targets are distinct or all the same (`Dag.CheckAgreesExactly`).
- **Acceptance.** Drift is checked before the status, so a rejected or delivered
  proposal can become stale. A stopped acceptance blocks its output path
  (`WorkflowRuns.StoppedAcceptBlocksItsOutput`). A rejection whose status write fails
  or stops leaves a decision that acceptance ignores
  (`WorkflowRuns.HalfRejectedIsAcceptable`), and only such a rejection does
  (`WorkflowRuns.DecisionsDisagreeExactly`).
- **Delivered outputs.** The output may be any free path, also a file of the proposal. At
  its own delivery record it is overwritten in the same call
  (`WorkflowRuns.AcceptedOutputExactly`), at its own evaluation by the first measurement
  (`WorkflowRuns.EvaluationOutputIsReplaced`). An output that is no proposal file holds the
  generated schema from then on (`WorkflowRuns.DeliveryCanBeLoaded`).
- **Unchanged usage.** An unchanged window is inconclusive, also at a zero baseline,
  unless a threshold ratio is zero (`EvaluatorTheorem.UnchangedUsage`).
- **Paging.** Exact if and only if no key is repeated before the last entry
  (`Paging.PagingExactly`).

The mapper's theorems are about accepted queries whose tables have distinct aliases and
whose joins have spellings that SQL gives a meaning (`PushDown.NamedChain`). Databases hold
one relation for each table name. They and the query fit when rows have exactly their
table's columns, ON finds its columns, and USING finds single ones (`PushDown.Accepted`).
A WHERE clause is answerable when its qualified columns are in their visible tables, any
other in exactly one visible table (`PushDown.FoundWhere`), and the columns of conjuncts
left over still mean their tables by bare name (`PushDown.LeftOversMean`).

## Model

| member | source | states |
|---|---|---|
| `MapperWhere.MapWhereClause` | src/skifer/analyzer/mapper.py:859-945 | accepts exactly the clauses whose top conjuncts are supported comparisons and at most one OR of at most 8 branches, each an AND of supported comparisons, told by syntax alone; any other is refused with what its first unfitting conjunct is refused for; an accepted one has the filters of `MapWhere`, which `ClauseMeaning` and `PushDownExactly` are about |
| `MapperWhere.MapBranchAtoms` | src/skifer/analyzer/mapper.py:904-919 | one OR branch: all of its ANDed comparisons mapped, or nothing |
| `MapperWhere.SupportedExactly` | src/skifer/analyzer/mapper.py:763-821 | a comparison is mapped if and only if, under parentheses and at most one NOT, it is a column IS NULL, IN literals, BETWEEN two literals or LIKE a literal, or without NOT compares a column with a literal |
| `MapperWhere.MapTopConjuncts` | src/skifer/analyzer/mapper.py:876-945 | the loop over the conjuncts, with its early returns, yields the filters of `MapConjuncts` or its first residue |
| `MapperWhere.MappedExactly` | src/skifer/analyzer/mapper.py:859-945 | the specification accepts and refuses exactly so |
| `MapperWhere.NothingRefused` | src/skifer/analyzer/mapper.py:880-938 | going through the conjuncts in order meets no refusal if and only if each is supported and at most one is an OR |
| `WhereMeaning.ConditionMeaning` | src/skifer/analyzer/mapper.py:763-821 | a mapped comparison has the three-valued truth of the SQL comparison on its column, if and only if it is not a NOT over a LIKE that carries its own negation (or the value is NULL) |
| `WhereMeaning.FlattenAndMeaning` | src/skifer/analyzer/mapper.py:566-572 | a predicate is true exactly when all its flattened AND parts are, through any parentheses |
| `WhereMeaning.FlattenOrMeaning` | src/skifer/analyzer/mapper.py:575-581 | a predicate is true exactly when one of its flattened OR branches is |
| `WhereMeaning.AliasIsTable` | src/skifer/analyzer/mapper.py:824-843 | if an alias is found for a comparison, all its columns resolve to that table, also where several tables show the column |
| `WhereMeaning.GroupMeaning` | src/skifer/analyzer/mapper.py:893-919 | on columns read by any names that find them, the disjunction is true exactly when some mapped branch has all its filters true |
| `WhereMeaning.PlaceGroupMeaning` | src/skifer/analyzer/mapper.py:921-925 | a group moved to its sole table, with all its columns there, adds exactly the truth of the disjunction to what the tables accept; a group left over adds it to what `where_groups` accepts, wherever its columns are read right |
| `WhereMeaning.PlaceFilterMeaning` | src/skifer/analyzer/mapper.py:929-943 | likewise for one comparison, with no condition where it is pushed to its table |
| `WhereMeaning.ClauseMeaning` | src/skifer/analyzer/mapper.py:876-945 | for every accepted WHERE over any number of tables, with columns that several tables show: a joined row that satisfies it passes every filter moved to a table; and where the left-over columns mean their tables by bare name, it satisfies it if and only if it passes the moved and the left-over filters |
| `MapperFrom.DefaultAlias` | src/skifer/analyzer/mapper.py:518-525 | the loop ends for every finite set of taken names and returns the name's last segment, or that with the least number behind an underscore that makes it free |
| `MapperFrom.FirstFree` | src/skifer/analyzer/mapper.py:518-525 | the result is not taken and every earlier candidate is; termination by the shrinking set of taken candidates |
| `MapperFrom.LastSegmentMeaning` | src/skifer/analyzer/mapper.py:518-520 | the last segment is what follows the last dot, or all of a name without one |
| `MapperFrom.JoinTypeMeaning` | src/skifer/analyzer/mapper.py:379-398 | the join lookup keeps SQL's meaning of a spelling if and only if it is not LEFT OUTER or RIGHT OUTER, which fall through to inner |
| `MapperFrom.MapEquiJoinCondition` | src/skifer/analyzer/mapper.py:528-554 | the loop over the ON conjuncts finds keys if and only if the ON is an AND, in any parentheses, of equalities between a column of each table; they are those of `EquiKeys`, base side first |
| `PushDown.EquiKeysMeaning` | src/skifer/analyzer/mapper.py:528-554 | on every joined row, the key pairs match if and only if every ON conjunct is true |
| `MapperFrom.MapFromAndJoins` | src/skifer/analyzer/mapper.py:401-515 | accepts exactly the FROM clauses of plain tables, joined by CROSS, by USING or by key equalities with the base under the aliases given or chosen, and refuses any other for its first such join; the tables, joins and nullable aliases are what `MapFrom` specifies |
| `MapperFrom.MapJoinList` | src/skifer/analyzer/mapper.py:448-515 | the loop over the joins grows the tables, the joins and the nullable aliases, or stops at the same residue |
| `MapperFrom.JoinsAccepted` | src/skifer/analyzer/mapper.py:448-515 | joins are mapped up to the first that is not supported, with each joined table under its given alias or the first free name |
| `PushDown.MapFromShape` | src/skifer/analyzer/mapper.py:401-515 | an accepted FROM keeps the query's tables and joins in the query's order, with their kinds |
| `Chains.ExecutedChain` | src/skifer/core/sql_compiler.py:382-413 | over any tables, joining by column names as SQL reads them (after a join USING k the one column k is the base's, the right side's after RIGHT, the first value that is not NULL after FULL) gives the rows of joining by the keys of the first table present in a row, wherever that table's join merged them all |
| `BareNames.MergedReads` | src/skifer/core/sql_compiler.py:404-413 | on every row of any key chain over any tables, the one merged column k has the value of table i, when table i is the base or was joined by an inner or right join on k and every later right or full join on k has what it pads dropped again |
| `BareExact.MergedReadsExactly` | src/skifer/core/sql_compiler.py:404-413 | and only then: for any other chain there are tables on which the merged column differs from the column of table i |
| `BareNames.BareReads` | src/skifer/core/interpreter.py:538-553 | so a left-over filter, which the executors apply by bare name, reads its own table's value on every row wherever the bare name means that table |
| `PushDown.FromFaithful` | src/skifer/analyzer/mapper.py:401-515 | an accepted FROM clause is mapped to joins on the query's own keys; over any tables, the query's joins (ON predicates on qualified columns, USING on merged ones) and the executed draft's are two key chains over those same keys, which differ only in the kind the lookup finds and in the keys that are merged |
| `PushDownTheorem.NullableRecorded` | src/skifer/analyzer/mapper.py:466-473 | the right alias of every LEFT and FULL join and the base alias for every RIGHT and FULL join are recorded as nullable |
| `PushDown.MapSelect` | src/skifer/analyzer/mapper.py:80-131 | the FROM and WHERE parts of the statement mapping compute `MapStatement`; a statement is mapped if and only if its FROM and its WHERE are supported |
| `PushDown.DraftOrder` | src/skifer/core/interpreter.py:494-518 | read from the join list, the draft's base table, join order and kinds are the query's |
| `Loading.LoadFrames` | src/skifer/core/interpreter.py:396-450 | the loading loop leaves under every alias the rows of `Loaded`: an earlier alias of the table's name is read instead of the store, already filtered, and the table's own filters are then skipped |
| `Loading.LoadedExactly` | src/skifer/core/interpreter.py:400-440 | a table named like an earlier alias has that table's rows, filtered once more in SQL and not at all on data frames; any other has its own stored rows, filtered |
| `Loading.AllLoadedIsOwn` | src/skifer/core/interpreter.py:399-440 | every table is given its own stored and filtered rows when each table named like an earlier alias is that very table and no filter comes in or gets lost |
| `PushDownTheorem.SafeNamesLoadOwn` | src/skifer/core/sql_compiler.py:440-443 | that is so for every WHERE clause when a table whose name is an earlier alias is that very table, which no WHERE clause can put a filter on |
| `Pushing.CarriesOn` | src/skifer/core/sql_compiler.py:404-406 | rows that match join n by merged keys also match every later join that the rows join n pads can match, so they are dropped only together |
| `Pushing.RowsNotKilled` | src/skifer/core/interpreter.py:520-530 | in any chain over any tables, no row is left whose first table a later INNER, SEMI or RIGHT join cannot match by merged keys |
| `Pushing.PushBelowJoins` | src/skifer/analyzer/mapper.py:859-945 | if whatever a join pads is dropped by a later join, or matches later exactly what it does in the query with no filter below it, then filtering the tables, merging keys and joining gives the rows of joining and then filtering, in order |
| `PushDownTheorem.FiltersArePlaced` | src/skifer/analyzer/mapper.py:940-943 | what the mapper moves to a table is only the base no RIGHT or FULL join pads, or the right side of an INNER, CROSS or RIGHT join |
| `PushDownTheorem.PushDownPreserves` | src/skifer/analyzer/mapper.py:859-945 | for one WHERE clause, on either engine, whatever the tables are called: if loading gives every table its own rows, the left-over columns mean their tables by bare name, and the joins satisfy that condition for the filters this clause moved, the draft returns the query's rows, in order |
| `PushDownRuns.FiltersRunExactly` | src/skifer/analyzer/mapper.py:921-925 | where loading gives every table its own rows, every filter of the draft finds its column if and only if each OR group moved to a table mentions columns of that table alone and every column of a left-over conjunct is one column after the joins |
| `PushDownRuns.DraftRunsExactly` | src/skifer/core/interpreter.py:494-553 | the draft of an accepted query then runs if and only if, besides that, the engine has its joins and every key looked up by bare name is one column |
| `PushDownRuns.UnjoinableNeverRuns` | src/skifer/core/interpreter.py:520-530 | a join list that is not joinable, judged by its key and table names alone, has no database on which query and draft both run, however its tables are loaded |
| `PushDownRuns.OwnColumnMeans` | src/skifer/core/interpreter.py:538-553 | a left-over column that one visible table alone shows means that table by its bare name wherever the draft runs; only keys that several tables share can mean another |
| `PushDownExamples.MixedGroupDoesNotRun` | src/skifer/analyzer/mapper.py:921-925 | `a JOIN b ... WHERE a.x = '1' OR y = '1'` with y a column of b is mapped, and its draft does not run, on any database with such columns |
| `ChainCases.TableMatters` | src/skifer/core/interpreter.py:494-530 | in any chain of joins, of whatever kinds, every joined table matters: there are rows of the others over which giving it one row changes the result |
| `PushDownExact.LeftIsLost` | src/skifer/analyzer/mapper.py:379-398 | a left join that became inner loses the left rows without a partner |
| `PushDownExact.LeakIsLost` | src/skifer/core/interpreter.py:523-524 | if a later join on an equally named key matches rows that a RIGHT or FULL join padded, and the query's ON does not, there is a database of distinct tables, each with one content, on which the draft is wrong, without any WHERE clause |
| `PushDownExact.PushedBelowLasting` | src/skifer/analyzer/mapper.py:466-473 | after an INNER, CROSS or RIGHT join, a RIGHT or FULL join whose padded rows last makes the mapper answer `x.c IS NULL` wrongly, on a database of distinct tables whose rows have exactly their table's columns |
| `PushDownExact.RightIsLost` | src/skifer/analyzer/mapper.py:379-398 | a right join that became inner loses rows, unless a later join drops every row it pads |
| `PushDownExact.CaptureIsLost` | src/skifer/core/interpreter.py:400-402 | a table whose name is the alias of an earlier one is never read by the draft, so there are two databases that the draft cannot tell apart and the query can, whatever the joins |
| `PushDownExamples.RightThenLeftIsNotPreserved` | src/skifer/core/interpreter.py:523-524 | for all names and both engines, `a RIGHT JOIN b ON a.k = b.k LEFT JOIN c ON a.k = c.k` is not preserved |
| `PushDownExamples.RightThenLeftUsingIsPreserved` | src/skifer/core/sql_compiler.py:404-406 | the same joins written USING (k) are preserved for every WHERE clause and database |
| `PushDownExamples.TakenAliasIsNotPreserved` | src/skifer/core/interpreter.py:400-402 | for all names and both engines, `FROM x AS b JOIN b AS c ON b.k = c.k` is not preserved, without any WHERE clause (a name of several parts is safe in SQL and is left out here) |
| `PushDownCases.FilterReachesSecondReading` | src/skifer/core/sql_compiler.py:440-443 | for all distinct names of one part and both engines, `FROM t LEFT SEMI JOIN t AS m ON t.g = m.h` is not preserved: the filter that WHERE t.d = '1' moves to t also filters m |
| `PushDownCases.MergedKeyAntiJoin` | src/skifer/core/sql_compiler.py:404-413 | for `a LEFT JOIN b ON a.k = b.k WHERE b.k IS NULL` there is a database on which query and draft run, the query has rows and the draft, testing the merged key, has none |
| `PushDownExact.SafeIsAlwaysPreserved` | src/skifer/analyzer/mapper.py:401-945 | for tables of any names, also repeated ones: if the join list and its names are safe, or no database runs both, the draft returns the query's rows for every WHERE clause it can answer and every database on which both run |
| `PushDownExact.PushDownExactly` | src/skifer/analyzer/mapper.py:401-945 | for tables of distinct names, if and only if; safe is a condition on kinds, key names and table names: no LEFT OUTER became inner, every join whose padding was lost is undone later, what the draft pads is undone later or leaks into no later match and follows no INNER, CROSS or RIGHT join, and no table is named like an earlier alias |
| `PushDownExact.OuterWordIsLost` | src/skifer/analyzer/mapper.py:379-398 | a joinable list of distinct tables that is always preserved holds no LEFT OUTER, and a RIGHT OUTER only where a later join drops the rows it should pad |
| `MapperSelect.MapScalarChain` | src/skifer/analyzer/mapper.py:651-695 | accepts exactly a column under functions, casts, ROUND and COALESCE with one literal; the loop collects operations outside in and reverses them, with an invariant that relates the collected part to the recursive meaning of the chain |
| `MapperSelect.ChainKeepsValue` | src/skifer/analyzer/mapper.py:651-695 | for every accepted plain expression, row and reading of the functions, the operations compile and, applied left to right as the executors read their texts, give the expression's value, NULLs included |
| `MapperSelect.ScalarChainExactly` | src/skifer/analyzer/mapper.py:651-695 | the chain compiles to the expression's value for all rows and readings if and only if every cast is a CAST to a type without parameters other than DATETIME, every ROUND has no digits or an integer, no function has an extra argument, and every COALESCE literal is its own reading as a number or stands on another COALESCE, behind which it is never used |
| `MapperSelect.LostSign` | src/skifer/analyzer/mapper.py:671-682 | ROUND(x, -2) is recorded as round:2 and does not keep the value |
| `MapperSelect.LostParameters` | src/skifer/analyzer/mapper.py:671-682 | nor does CAST(x AS DECIMAL(10, 2)), recorded as cast:decimal |
| `MapperSelect.LostLiteral` | src/skifer/core/sql_compiler.py:93-100 | nor does COALESCE(x, '00000'), recorded as coalesce:00000 and compiled to the number 0 |
| `MapperSelect.LostDatetime` | src/skifer/core/sql_compiler.py:154 | nor does CAST(x AS DATETIME), compiled to a cast to TIMESTAMP |
| `Literals.ReadingSettles` | src/skifer/core/sql_compiler.py:93-100 | the text of a literal read as a number is read as the same number again, for all texts with signs, blanks and underscores, so only the first reading can change it |
| `Literals.ReadIntScans` | src/skifer/core/sql_compiler.py:93-100 | `int()` is read from the left: white space, an optional sign, digits with single underscores between them, white space |
| `Dag.BuildDag` | src/skifer/analyzer/dag.py:101-148 | told on the statements: accepts if and only if there is no closed walk along what the last statement of each target reads, and, with one statement for each target, along what any statement reads; otherwise reports such a walk; accepted, there is a node for each statement with a target, in order, with its target, path, flag and, sorted, all it reads but itself |
| `Dag.SearchAll` | src/skifer/analyzer/dag.py:144-146 | no cycle reported means none exists; a reported one is genuine |
| `Dag.CycleSearch.Visit` | src/skifer/analyzer/dag.py:128-142 | white, gray and black: the path stays a walk without repeats, finished tables come after what they read, and each call finds a cycle or finishes its table, with the white tables as the measure |
| `Dag.CycleSearch.PathBackTo` | src/skifer/analyzer/dag.py:131-133 | meeting a gray table yields the closed walk from it back to itself |
| `Dag.CycleSearch.Open` | src/skifer/analyzer/dag.py:134-135 | pushing a white table keeps the invariant and shrinks the white tables |
| `Dag.CycleSearch.Close` | src/skifer/analyzer/dag.py:141-142 | popping a table whose reads are all finished keeps the invariant |
| `Dag.FinishedIsAcyclic` | src/skifer/analyzer/dag.py:128-146 | an order in which every table comes after what it reads rules out every cycle |
| `Dag.LastCyclesAreCycles` | src/skifer/analyzer/dag.py:122-148 | what the last statements of their targets read is read, and if every target has one statement that is all; so closed walks are the same |
| `Dag.NodesDescribe` | src/skifer/analyzer/dag.py:108-120 | each statement with a target has its node, in order, which reads exactly what the statement reads without its own target, in strict order |
| `Dag.CyclesAreLastCycles` | src/skifer/analyzer/dag.py:122-139 | the searched graph's cycles are exactly the closed walks along what the last statement of each target reads |
| `Dag.RepeatedTargetHidesCycle` | src/skifer/analyzer/dag.py:122 | for every target list with a repeated target beside another one there are statements whose reads have a cycle that the search does not see |
| `Dag.CheckAgreesExactly` | src/skifer/analyzer/dag.py:115-148 | for a given list of targets, the check accepts exactly the statements whose reads have no cycle, whatever they read, if and only if the targets are distinct or all the same |
| `Splitter.StripLeadingTrivia` | src/skifer/analyzer/frontends.py:45-80 | the scanner returns the newlines and the rest that the recursive trivia specification gives |
| `Splitter.SkipOne` | src/skifer/analyzer/frontends.py:57-79 | one turn of the trivia scanner skips and counts what `Skip` specifies, which `SkipMeaning` holds against the reference lexer |
| `Splitter.SplitSqlText` | src/skifer/analyzer/frontends.py:101-147 | the four-state loop, with escapes, comments and line counting, returns the statements of the recursive `Pieces`, which `SplitMeaning` and the laws on cuts and lines are about |
| `StatementTexts.SkipMeaning` | src/skifer/analyzer/frontends.py:57-79 | one turn passes only white space or a comment as the reference lexer reads it, leaves that lexer in code behind it, and stops if and only if the next character is neither |
| `StatementTexts.TriviaMeaning` | src/skifer/analyzer/frontends.py:45-80 | the scan stops at the first character of a piece that is neither white space nor comment, which the reference lexer reads outside literals, or at the end |
| `StatementTexts.SplitMeaning` | src/skifer/analyzer/frontends.py:101-161 | for every text there is a statement for each piece with such a character and no other, in order; its text runs from that character to the last that is no white space, with the path and the piece's line plus the newlines before it |
| `StatementTexts.StatesOnce` | src/skifer/analyzer/frontends.py:150-161 | which determines the statement |
| `Splitter.AppendStatement` | src/skifer/analyzer/frontends.py:150-161 | a raw piece adds its stripped statement, on its line plus the leading newlines, or nothing |
| `SplitterTheorem.PiecesRejoin` | src/skifer/analyzer/frontends.py:115-147 | the raw pieces joined by semicolons are the text, for every text |
| `Lexer.CodeAgrees` | src/skifer/analyzer/frontends.py:121-143 | the splitter's states and a reference recursive lexer agree on every character if and only if no comment is opened at slash-star-slash |
| `Lexer.WithoutSlashStarSlash` | src/skifer/analyzer/frontends.py:124-126 | a text without those three characters is tidy |
| `SplitterTheorem.CutsMatchReference` | src/skifer/analyzer/frontends.py:115-146 | on tidy text the cuts are exactly the semicolons the reference lexer sees outside literals and comments |
| `SplitterTheorem.CutsAreCodeSemicolons` | src/skifer/analyzer/frontends.py:115-146 | on any text the cuts are exactly the semicolons read in the default state |
| `SplitterTheorem.UntidyCutsInComment` | src/skifer/analyzer/frontends.py:124-142 | a semicolon inside the comment of slash-star-slash-semicolon is cut |
| `SplitterTheorem.TriviaLinesExact` | src/skifer/analyzer/frontends.py:45-80 | the trivia scanner counts every newline it passes, once |
| `SplitterTheorem.StatementLineExactly` | src/skifer/analyzer/frontends.py:107-161 | every statement stands in the text, and its line is 1 plus the offset plus the newlines before it if and only if no earlier piece holds a backslash-newline inside a literal |
| `SplitterTheorem.EscapedNewlineLosesLine` | src/skifer/analyzer/frontends.py:107-161 | of a quoted backslash-newline, a semicolon and b, the statement b stands behind a newline and is given the first line |
| `Resplit.ResplitStable` | src/skifer/analyzer/frontends.py:101-161 | for every tidy text, joining the statement texts with newline, semicolon, newline and splitting again returns the same texts |
| `Resplit.UntidyResplitDiffers` | src/skifer/analyzer/frontends.py:101-161 | on an untidy text the splitter and the trivia scanner disagree and re-splitting changes the result |
| `Workflow.AdaptiveWorkflow.Accept` | src/skifer/adaptive/workflow.py:138-211 | the whole new disk and the reply are those of `AcceptStep`, for every failure or stop of every write |
| `WorkflowAnswers.DriftIsRefused` | src/skifer/adaptive/workflow.py:280-292 | a loadable proposal, whatever its status, with readable source hashes that are not all current is not accepted: no file is created, and with its status write done the disk changes only in that it is stale |
| `WorkflowAnswers.StaleIsRefused` | src/skifer/adaptive/workflow.py:280-284 | a stale proposal is refused and nothing changes |
| `WorkflowAnswers.AcceptReturnsExactly` | src/skifer/adaptive/workflow.py:138-211 | acceptance returns if and only if the proposal is proposed, current, has its schema, the output is free, the clock works and every write is done, or it is accepted, current and the output holds the schema as asked for; the new disk is given for both |
| `WorkflowAnswers.ConflictsExactly` | src/skifer/adaptive/workflow.py:150-164 | a current proposal with a schema is in conflict if and only if the output exists and is no identical repeat, or is free and the status is not proposed |
| `WorkflowAnswers.AcceptErrorsExactly` | src/skifer/adaptive/workflow.py:138-164 | what else acceptance of a loadable proposal raises, and exactly when: stale, unreadable sources, no schema, an output that cannot be compared |
| `WorkflowAnswers.UnloadableIsRefused` | src/skifer/adaptive/workflow.py:146 | a proposal that cannot be loaded is refused for that, and nothing changes |
| `WorkflowAnswers.RejectReturnsExactly` | src/skifer/adaptive/workflow.py:213-234 | rejection returns if and only if there is a reason and the proposal is proposed and both writes are done, or it was rejected for the same reason; with the new disk |
| `WorkflowAnswers.RejectErrorsExactly` | src/skifer/adaptive/workflow.py:213-230 | exactly when a rejection raises a blank reason, a malformed decision or a conflict, none of which changes anything |
| `WorkflowAnswers.RecordReturnsExactly` | src/skifer/adaptive/workflow.py:253-278 | measurement returns if and only if the proposal is accepted or measured and both writes are done, or this very evaluation is there; with the new disk |
| `WorkflowAnswers.RecordErrorsExactly` | src/skifer/adaptive/workflow.py:253-273 | exactly when a measurement raises a conflict or a malformed evaluation, neither of which changes anything |
| `WorkflowAnswers.DeliveryLoadsExactly` | src/skifer/adaptive/workflow.py:236-251 | a delivery loads if and only if an accepted or measured proposal has its own record, and it is that record |
| `Prelude.StripMeaning` | src/skifer/adaptive/workflow.py:214-233 | a stripped reason is the reason between the white space around it |
| `Prelude.StripEnds` | src/skifer/adaptive/workflow.py:214-233 | a stripped reason has no white space at its ends and is empty only of a blank text |
| `Workflow.AdaptiveWorkflow.RecordDelivery` | src/skifer/adaptive/workflow.py:183-203 | delivery record, then status; a failure of either removes the output and the record |
| `Workflow.AdaptiveWorkflow.AssertCurrentOrMarkStale` | src/skifer/adaptive/workflow.py:280-292 | drift marks the proposal stale and raises, whatever its status |
| `Workflow.AdaptiveWorkflow.Reject` | src/skifer/adaptive/workflow.py:213-234 | the whole new disk and the reply are those of `RejectStep` |
| `Workflow.AdaptiveWorkflow.RecordOutcome` | src/skifer/adaptive/workflow.py:253-278 | the whole new disk and the reply are those of `RecordStep` |
| `WorkflowRuns.StepIsGood` | src/skifer/adaptive/workflow.py:138-292 | every command, failing or stopping anywhere, keeps every file but the four its proposal writes, moves the status only along the lifecycle and keeps every proposal's status backed by its files |
| `WorkflowRuns.ReachableIsBacked` | src/skifer/adaptive/workflow.py:138-278 | in every reachable state accepted and measured have a delivery record, and the output it names holds the generated schema unless it is itself a proposal file; measured has an evaluation, rejected a decision |
| `WorkflowRuns.HistoryFollowsLifecycle` | src/skifer/adaptive/workflow.py:138-292 | between any two moments of any run: stale is never left, rejected only becomes stale, accepted and measured never go back |
| `WorkflowRuns.MeasuredWasAccepted` | src/skifer/adaptive/workflow.py:253-278 | a measured proposal was accepted at an earlier moment |
| `WorkflowRuns.RunKeeps` | src/skifer/adaptive/workflow.py:169-176 | over a run no file that is not a proposal's own, and no generated schema, is changed or removed once it is there |
| `WorkflowRuns.StepKeeps` | src/skifer/adaptive/workflow.py:169-176 | nor by one command, whatever fails or stops |
| `WorkflowRuns.DeliveryCanBeLoaded` | src/skifer/adaptive/workflow.py:236-251 | an accepted or measured proposal's delivery loads, and an output that is no proposal file holds the generated schema in that and every later state |
| `WorkflowRuns.AcceptedOutputExactly` | src/skifer/adaptive/workflow.py:166-203 | when acceptance returns with a new output, the output holds the schema if and only if it is not the proposal's own delivery record |
| `WorkflowRuns.EvaluationOutputIsReplaced` | src/skifer/adaptive/workflow.py:253-278 | accepted to its own evaluation.json, a proposal can be measured, and its delivered output is then the evaluation |
| `WorkflowRuns.FailedAcceptIsUndone` | src/skifer/adaptive/workflow.py:166-211 | a failed acceptance whose clean-up works restores the disk, but for a delivery record left by an earlier stopped acceptance |
| `WorkflowRuns.AcceptIsIdempotent` | src/skifer/adaptive/workflow.py:150-157 | repeating a returned acceptance, asking for identical content, changes nothing if and only if the output was there before or is not the proposal's own delivery record |
| `WorkflowRuns.StoppedAcceptBlocksItsOutput` | src/skifer/adaptive/workflow.py:150-160 | an acceptance that stopped after creating its output cannot be repeated for that output |
| `WorkflowRuns.RepeatsChangeNothing` | src/skifer/adaptive/workflow.py:213-278 | repeating a rejection or a measurement that returned changes nothing |
| `WorkflowRuns.HalfRejectedIsAcceptable` | src/skifer/adaptive/workflow.py:229-234 | for every disk and every rejection whose decision is written and whose status write fails or stops: it does not return, changes the decision alone, and every later acceptance replies and does what it would have without it, unless its output is that decision file, when it does not return |
| `WorkflowRuns.HalfRejectedIsAccepted` | src/skifer/adaptive/workflow.py:229-234 | so, with a schema, current sources, a free path other than the decision file and no failure, the proposal is accepted with its decision beside it |
| `WorkflowRuns.DecisionWasLeft` | src/skifer/adaptive/workflow.py:210-235 | in every reachable state a decision beside an accepted, measured or proposed proposal is the reason of an earlier such rejection in the run, whose position is returned |
| `WorkflowRuns.DecisionsDisagreeExactly` | src/skifer/adaptive/workflow.py:210-235 | in every reachable state a proposal that is not rejected or stale has a decision if and only if such a rejection came before |
| `Iso.TextOrderIsTimeOrder` | src/skifer/adaptive/store.py:178-217 | for all UTC instants, comparing the isoformat texts compares the instants, with the fraction printed or left out |
| `Iso.InstantsAreDistinct` | src/skifer/adaptive/store.py:65-84 | different instants print differently |
| `Iso.IsoRoundTrip` | src/skifer/adaptive/store.py:99-127 | the printed text reads back as the same instant |
| `Iso.IsoDate` | src/skifer/adaptive/store.py:65-84 | the printed date, place by place |
| `Iso.IsoTime` | src/skifer/adaptive/store.py:65-84 | the printed time, place by place, six digits of fraction or none, and the UTC offset |
| `Iso.SameDayDistance` | src/skifer/adaptive/store.py:178-217 | on one day instants are as far apart as their clocks |
| `Iso.NextDayIsADayLater` | src/skifer/adaptive/store.py:178-217 | calendar days follow one another on the time line 86400 seconds apart, over ends of months and years and leap days |
| `Store.RowRoundTrip` | src/skifer/adaptive/store.py:65-127 | a stored event is read back unchanged |
| `Store.SqliteUsageEventStore.Append` | src/skifer/adaptive/store.py:167-176 | INSERT OR IGNORE: the table holds the first event appended under each id, whatever the run of appends |
| `Store.SqliteUsageEventStore.ListEvents` | src/skifer/adaptive/store.py:178-217 | refuses blank partitions and non-positive limits and nothing else; otherwise returns exactly the first-appended events inside the inclusive instant bounds and partitions, newest first then by id descending, a limit giving a prefix |
| `Store.ClausesMeanRange` | src/skifer/adaptive/store.py:187-203 | the text clauses of the query select exactly the events of the range, as instants |
| `Store.QueryMeaning` | src/skifer/adaptive/store.py:204-217 | sorting and limiting the selected rows and converting them gives that answer |
| `Usage.FirstOfEachMembers` | src/skifer/adaptive/store.py:167-176 | what is kept is exactly the events that were the first of their id |
| `Ordering.LexExactly` | src/skifer/adaptive/store.py:209 | texts, lists and keys compare lexicographically: a prefix first, else by the first elements that differ |
| `Windows.ParseWindows` | src/skifer/adaptive/aggregator.py:93-116 | rejects at the first text that is no window or repeats one, with that text; otherwise all of them, strictly ordered by days |
| `Windows.WindowText` | src/skifer/adaptive/aggregator.py:17 | a window's text is the decimal numeral of its positive number of days, and d, both ways |
| `Percentile.NearestRankMeaning` | src/skifer/adaptive/aggregator.py:128-137 | the nearest-rank value is observed, and is the one value that at least rank values do not exceed and fewer than rank are below |
| `Percentile.RankInRange` | src/skifer/adaptive/aggregator.py:136 | the rank is a position, grows with p, and is 1 at 0 and n at 100 |
| `Percentile.RankIsLeast` | src/skifer/adaptive/aggregator.py:136 | the rank is the least k of at least 1 with 100 k at least p n |
| `Percentile.NearestRankBounds` | src/skifer/adaptive/aggregator.py:128-137 | monotone in p, the minimum at 0 and the maximum at 100 |
| `Percentile.NearestRankForgetsOrder` | src/skifer/adaptive/aggregator.py:135-137 | the order of the values does not matter |
| `Percentile.NearestRankMonotone` | src/skifer/adaptive/aggregator.py:128-137 | raising values never lowers it |
| `Aggregator.GroupEvents` | src/skifer/adaptive/aggregator.py:178-193 | the grouping loop holds, for each key that occurs in the window, the in-window events with that key in order |
| `Aggregator.WindowIsDays` | src/skifer/adaptive/aggregator.py:177-182 | an event is in a window if and only if it is not after now and at most the window's days times 86400000000 microseconds before it |
| `Aggregator.KeyMeaning` | src/skifer/adaptive/aggregator.py:183-192 | two events share a pattern exactly when partition, fingerprint and status agree and each of the four id lists holds the same ids, in whatever order |
| `Aggregator.KeyOrder` | src/skifer/adaptive/aggregator.py:183-195 | keys compare by environment, consumer class, the four id lists, fingerprint, and failures before successes |
| `Aggregator.WindowByWindow` | src/skifer/adaptive/aggregator.py:175-241 | the patterns of a list of windows are those of its windows, one after the other |
| `Aggregator.PatternsOfGroups` | src/skifer/adaptive/aggregator.py:195-241 | the loop over the sorted keys yields a pattern for each group that reaches the minimum count |
| `Aggregator.Aggregate` | src/skifer/adaptive/aggregator.py:166-243 | one bounded read, then every window: the result is that of the store's whole history of first-appended events |
| `Aggregator.ReadIsEnough` | src/skifer/adaptive/aggregator.py:168-170 | each window's patterns from the bounded read are those from the whole history |
| `Aggregator.WindowConserves` | src/skifer/adaptive/aggregator.py:175-241 | the patterns list the ids of the in-window events of large enough groups exactly as often as they occur, and the counts sum to their number; with minimum 1 these are all in-window events |
| `Aggregator.EachEventInOnePattern` | src/skifer/adaptive/aggregator.py:175-241 | with distinct ids and minimum 1, each in-window id is in exactly one pattern |
| `Aggregator.AggregationForgetsOrder` | src/skifer/adaptive/aggregator.py:166-243 | the whole result is the same for every order of the events read |
| `Aggregator.PatternsReportGroups` | src/skifer/adaptive/aggregator.py:195-241 | patterns come in strict key order; each spans its window's days, counts its group and lists the group's ids, and has a percentile only for successes with enough durations, the nearest rank of them |
| `Evaluator.MetricsOf` | src/skifer/adaptive/evaluator.py:405-433 | every metrics record built passes the record's own count and rate checks |
| `Evaluator.Evaluate` | src/skifer/adaptive/evaluator.py:238-397 | every evaluation built passes its own checks: reasons given, a recommendation exactly for a regression; what it measures, its outcome and reasons are pinned by the laws of `EvaluatorMeaning` |
| `EvaluatorMeaning.VerdictExactly` | src/skifer/adaptive/evaluator.py:300-397 | with enough data, the outcome is regressed if and only if the after failure rate is at least the before rate plus the regression ratio or the duration is slower (any positive one after a zero baseline, at least 1 + ratio times otherwise), and improved if and only if not so, the baseline is positive and the after duration at most 1 - ratio times it; without enough data it is inconclusive; a review is recommended, in the source's words, for a regression alone |
| `EvaluatorMeaning.EvaluationMeasures` | src/skifer/adaptive/evaluator.py:285-313 | with evidence, the metrics count the events of its partition in the window's days before the delivery, without its instant, and from that instant to now; the durations are the nearest rank of the timed successes |
| `EvaluatorMeaning.NoEvidence` | src/skifer/adaptive/evaluator.py:270-283 | without evidence nothing is counted and the outcome is inconclusive for that reason |
| `EvaluatorMeaning.MissingDataNamed` | src/skifer/adaptive/evaluator.py:435-450 | the reasons name exactly the sides with too few events or durations |
| `EvaluatorMeaning.ReasonsExactly` | src/skifer/adaptive/evaluator.py:314-397 | with enough data the reasons are exactly the two durations with their ratio, the two failure rates, and that the change is not significant if the outcome is inconclusive |
| `EvaluatorMeaning.ReadReachesBack` | src/skifer/adaptive/evaluator.py:252-264 | the single read reaches back to the window before the delivery and, from now and from the delivery, as far as the store keeps events |
| `Evaluator.InsufficientReasons` | src/skifer/adaptive/evaluator.py:435-450 | there is a reason exactly when a side has too few events or too few durations |
| `Evaluator.Conclude` | src/skifer/adaptive/evaluator.py:314-397 | the evaluation built passes its checks, and a verdict other than inconclusive has the minimum of events and of durations on both sides |
| `EvaluatorTheorem.EvaluationErrors` | src/skifer/adaptive/evaluator.py:246-293 | there is no evaluation exactly for a mismatched proposal, a future delivery, or evidence of several partitions, each with its error |
| `EvaluatorTheorem.VerdictsHaveData` | src/skifer/adaptive/evaluator.py:270-328 | an improvement or regression rests on evidence that was read and on enough data on both sides |
| `Evaluator.WindowsSplitAtDelivery` | src/skifer/adaptive/evaluator.py:294-311 | no event is on both sides, one at the delivery instant is after it, and none in range is lost |
| `Evaluator.BoundedReadIsEnough` | src/skifer/adaptive/evaluator.py:253-313 | for one partition the metrics and evaluation from the single range read are those of the whole history |
| `EvaluatorTheorem.EvaluationForgetsOrder` | src/skifer/adaptive/evaluator.py:238-397 | the evaluation does not depend on the order of the events |
| `EvaluatorTheorem.StoreReadIsEnough` | src/skifer/adaptive/evaluator.py:253-271 | what the store returns is evaluated as the part of its history in the range, and as the whole history when the evidence lies in the range |
| `EvaluatorTheorem.OutcomeMonotone` | src/skifer/adaptive/evaluator.py:300-397 | raising the durations of succeeded events after the delivery never moves the outcome up regressed, inconclusive, improved, zero baseline included, and changes no error |
| `EvaluatorMeaning.FailuresNeverHelp` | src/skifer/adaptive/evaluator.py:300-397 | turning succeeded events without durations after the delivery into failed ones never moves the outcome up, and changes no error |
| `EvaluatorTheorem.UnchangedUsage` | src/skifer/adaptive/evaluator.py:330-397 | unchanged usage is regressed if and only if the regression ratio is zero, and improved if and only if only the improvement ratio is zero and the baseline is not |
| `Paging.PagingExactly` | src/skifer/agentic/data_service.py:250-265 | following the cursors from none, for every schedule of valid limits, sees every model once, in the order `CatalogOrder` describes, and ends, if and only if no key is repeated before the last entry |
| `Paging.CatalogOrder` | src/skifer/agentic/data_service.py:388-392 | the entries are those of the catalog in the order of their keys, equal keys in their given order |
| `Paging.RefusedExactly` | src/skifer/agentic/data_service.py:250-258 | a page is refused if and only if the scope is missing, the limit is not in 1 to the maximum, a key is missing, or the cursor leads to no position of this catalog, in this order |
| `Paging.PageExactly` | src/skifer/agentic/data_service.py:250-265 | a page holds the entries from its start, as many as the limit allows, the number of all models as total, and a cursor carrying its last key exactly when models are left |
| `Paging.WalkFrom` | src/skifer/agentic/data_service.py:250-265 | a walk of any length from any issued position has seen exactly the entries that follow it, at least one a page |
| `Paging.WalkStuck` | src/skifer/agentic/data_service.py:258-260 | with a key repeated before the last entry, pages of one never end |
| `Paging.CursorReads` | src/skifer/agentic/data_service.py:467-512 | every issued cursor is accepted and leads behind the first entry with its key |
| `Paging.CursorDecodesExactly` | src/skifer/agentic/data_service.py:467-512 | it decodes to the end of the page that issued it if and only if that page's last key did not occur before |
| `Paging.DecodeCursor` | src/skifer/agentic/data_service.py:484-512 | an accepted position is inside the catalog and not its end |
| `Paging.CursorAcceptedExactly` | src/skifer/agentic/data_service.py:484-512 | a cursor is accepted at a position exactly when it carries what is written for that position of this catalog: key, fingerprint, signature and version, and the key did not occur before |
| `Paging.JoinInjective` | src/skifer/agentic/data_service.py:514-516 | the text the fingerprint digests determines the keys, when none contains the separator |
| `Paging.StaleCursorRejected` | src/skifer/agentic/data_service.py:494-499 | a cursor issued for another catalog is rejected when the digest tells the two apart |
| `Ordering.SortSorts` | src/skifer/agentic/data_service.py:388-392 | sorting orders the entries and keeps each of them |

## Left out

- Parsing and printing of SQL, notebook extraction and target or CTE detection: the
  model starts from small syntax trees.
- The text encoding of filter values (`col:op:value`, comma-joined lists): filters
  stay structured, so values with commas are not an issue here.
- The non-blocking `not_in_nullable_pitfall` residue, and residue messages: only the
  blocking residues decide acceptance.
- ROW_NUMBER deduplication, GROUP BY, HAVING, CASE and the select list beyond scalar
  chains.
- PushDownExact.PushDownExactly: the only-if half is for tables of distinct names, because a
  table joined with itself has one content under both aliases and may hide the difference
  (`t RIGHT JOIN t AS u ... LEFT JOIN t AS v`, all on one key). The same holds for the
  lemmas `LeftIsLost`, `RightIsLost`, `LeakIsLost`, `PushedBelowLasting`, `CaptureIsLost`
  and `OuterWordIsLost` of that module.
- PushDownRuns.DraftRunsExactly: only where loading gives every table its own rows, as a
  table read under an earlier alias may lack the columns; likewise `FiltersRunExactly`.
- PushDownExamples.TakenAliasIsNotPreserved: not for a name of several parts, which in SQL
  never means an alias; likewise `FilterReachesSecondReading`.
- Redirecting table names (sandboxes), frames and partial pipelines loaded beforehand, and
  SQL's comparison of names without regard to case.
- An unqualified WHERE column that several visible tables show, which USING allows; a merged
  key as a column of the result, as a joined row keeps one part per table. A USING key that
  the base table lacks and another joined table owns.
- The table that a select-list column is read from once its qualifier is dropped.
- A source table with a column named `_cross`, on which data frames could join a CROSS
  join as if it were an equality.
- Values are compared through their text and by two arbitrary relations (order and
  LIKE); types, casts between them and errors at run time are not modelled.
- The interpreter's projections, quality checks, deduplication and development limits.
- Semantic draft artifacts, listing and diffing of proposals, directory creation, and
  malformed stored JSON in the proposal workflow.
- Concurrent workflows on one proposal directory: the code takes no lock, so runs are
  sequential. A write is one step that happens, fails or stops.
- Conversion of instants to UTC and arithmetic that leaves the calendar: instants are
  given in UTC, and the start of a bounded read is passed in as an instant.
- Text formats `fromisoformat` accepts beyond the printed one, the Delta store, and
  retention.
- Floating-point rounding: percentiles, rates and ratios are exact reals.
- Durations in the reasons of an evaluation are kept as values, not as formatted text.
- SHA-256, base64 and JSON in cursors: a codec with a left inverse and an arbitrary
  digest. Catalog entries with fields of the wrong type other than the key.
- Python's limit on the length of numerals in `int()`.
- How the SQL parser names types and computed expressions: type names and the names read
  off computed digits are given. A numeral in parentheses or behind a constant function
  counts as computed. `int()` reads ASCII digits here, with signs, blanks and underscores,
  and `float()` is any function that gives its own result back. Operation arguments with
  commas.
- Two paths that name one file, outputs that are directories, and generated schemas that
  are themselves the workflow's JSON.
