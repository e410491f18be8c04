# A verified model of RustyDB

RustyDB is an in-memory SQL and key-value engine. Much of it exists to be fast or durable: B-tree indexes
behind Bloom filters, hash joins, hashed grouping, a constant folder, a plan cache, an optimistic transaction
protocol, write-ahead logs, snapshots and point-in-time restore. Each of these must agree with something
simple. This project states the simple meaning, models the fast or durable path as the code has it, and proves
that the two agree, or gives the exact condition under which they do.

`dafny verify dfyconfig.toml` checks everything.

## How the model is built

**Meaning.** `Values`, `Relations` and `Evaluator` give SQL its meaning on *plain* tables (a schema and rows):
three-valued logic, `EvalExpr` and `ExecQuery` over mutually recursive expressions and queries, with common
table expressions, derived tables, joins, grouping, ordering and nested subqueries. `Statements`, `Ddl` and
`SchemaInvariants` do the same for INSERT, UPDATE, DELETE, CREATE, DROP and ALTER, and say declaratively when a
catalog satisfies its constraints. `ValueLaws` and `RelationLaws` tie three-valued logic, comparison,
coercion, division, IN, ORDER BY, MIN and MAX to definitions of their own. `DeclaredKeys` says what PRIMARY KEY and
UNIQUE declare, and when that is enforced. The same evaluator run on *indexed* tables is what the engine executes:
it scans only the candidates that an index probe leaves.

**Fast paths.** `Planner` is the constant folder; `OptimizerSound` and `StatementSound` show that folding keeps
the meaning. `Bloom`, `Tables`, `TableEngine` and `IndexScan` are the indexed table; `JoinSplit` and
`ProbedJoins` say what joins make of a scan that skips rows; `IndexedEval`, `Execute`, `Engine` and
`CatalogEngine` carry index probes through every query and statement. `HashJoin`, `Grouping`,
`Like`, `Plans`, `Calendar` and `Wire` are self-contained algorithms with their specifications.
`Parameters`, `CheckExpressions`, `Prepared` and `CheckText` treat prepared statements.

**Durability.** `Wal` is a log of lines with torn and unterminated tails, and with lines that are not text; `Utf8`
says which cuts of a line leave text. `Transactions` is the step machine:
begin, execute, query, commit, rollback, autocommit, save, open, and a crash in the middle of any of them. It is
written over an abstract `Language` of statements, so `Serializability` and `Durability` prove their theorems
once; `SqlDurability` instantiates them with the engine's own execution (optimized when live, raw when
replayed). `KeptMeanings` carries what every statement keeps through every run, and `SqlKeys` uses it for declared
keys. `Replays`, `ReplayableSql` and `TornText` decide when a log can be replayed at all. `Database` has the code's own classes and
methods, and `DatabaseSteps` shows that any sequence of calls is a run of the machine. `KvLog` and `KvRuns` are
the key-value store; `Restore` and `RestoreHistory` are point-in-time restore for both.

**Limits.** `Limits`, `KeyLimits`, `ProbeLimits`, `QueryLimits`, `ReplayLimits`, `ReplayRun` and
`UnopenableDatabase` hold concrete inputs on which an unconditional claim fails, beside the exact conditions.

Findings that the theorems make precise:

- Folding gives NULL for any NULL operand, so `NULL OR TRUE`, `NULL AND FALSE` and `NULL / 0` change meaning
  (`OptimizerSound.FoldBinaryFaithful` is an equivalence; `Limits.FoldingLosesRows` shows lost rows).
- An index probe with a literal of the other number type can miss rows (`IndexScan.ProbeExactness`), and a probe
  ignores column qualifiers, so a query can lose rows (`QueryLimits.RowIsLost`). A comparison is exact if and
  only if its name means the table's own column, or no column, or its literal can match nothing or admits all keys
  (`ProbeLimits.ProbeIsExactIffSafe`).
- A probe under a RIGHT JOIN makes padded rows that a full scan does not have. The result is the same when both
  executions succeed, but an evaluation on a padded row can fail (`QueryLimits.RightJoinCanFail`); the indexed
  execution of a successful query succeeds if and only if none does (`ProbedJoins.SomeSucceedIffPaddingDoes`).
- Sorting takes a key that failed for equal to all others, so an order can depend on an index
  (`QueryLimits.SortingSwallowsFailure`).
- Live execution is optimized and replay is not. A statement can be accepted live and fail in replay. There is a
  run with four acknowledged commits and one crash on a clean log after which the database can only fail to
  open (`UnopenableDatabase.RunsCanEndUnopenable`). A log of text opens if and only if no logged statement fails as
  written on the tables where it was accepted (`Replays.OpensIffNothingFails`); for statements whose replay comes to
  a full scan, if and only if none fails on full scans (`ReplayableSql.SqlOpensIffNothingFails`).
- Both logs are read as UTF-8 lines, and a line that is not UTF-8 is an error. A crash that tears a record within a
  character therefore makes the database unopenable, acknowledged commits and all, if and only if every line before
  the torn one is a record (`Durability.CutIsFatal`, `UnopenableDatabase.TearsCanEndUnopenable`), and the key-value
  store in any case (`KvRuns.CutEndsTheStore`). Records of ASCII text cannot be torn so (`TornText.CutIffNotAscii`).
- A CHECK at a column is kept twice, so each placeholder in it takes two values, of which the first is never
  used; text and count agree if and only if no such CHECK holds a placeholder (`CheckText.TextDecidesCount`).
- An acknowledged commit survives a crash if and only if the log it was appended to was clean
  (`Durability.CommitSurvivesIffClean`); the same holds for a synchronous key-value write
  (`KvLog.SyncedSurvivesIffTerminated`).
- A synchronous key-value write may overtake queued ones; memory and log stay in agreement if and only if it
  commutes with them (`KvLog.OvertakingIsExact`).
- Two indexes under one name leave only the later one in force (`DeclaredKeys.NamesDecide`). CREATE TABLE accepts two
  constraints of one name, and rows can then repeat a declared key (`KeyLimits.HiddenIndexAllowsDuplicates`). A
  declared key is enforced if and only if a unique index in force looks at its columns only
  (`DeclaredKeys.EnforcedIffGuarded`); with distinct index names every declared key is, in every run
  (`SqlKeys.DeclaredKeysHoldInRuns`).
- Negative clock fields in a recovery timestamp are accepted (`Calendar.NegativeHourIsDayBefore`), and years are not
  limited to four digits (`Calendar.NeverOverflows` gives the exact range without overflow).
- The comment above the checksum test in `replay_wal` speaks of a partial trailing record; the code stops at the
  first line that is no record wherever it is, and that is what `Wal.Readable` does.

## Model

| member | source | states |
|---|---|---|
| Like.MatchesIsMeaning | src/sql/types.rs:672-694 | the recurrence of the LIKE table decides exactly the declarative relation: `%` stands for any text, `_` for one character, anything else for itself |
| Like.LikeTable | src/sql/types.rs:675-693 | after the nested loops, cell (i, j) is set if and only if the first i characters match the first j pattern characters declaratively |
| Like.RunLikeMatch | src/sql/types.rs:672-694 | the answer is that of the declarative relation on case-folded text and pattern |
| ValueLaws.AndIsAgreement | src/sql/types.rs:191-199 | AND is known exactly when all ways its UNKNOWN operands may turn out agree, and then it is what they agree on |
| ValueLaws.OrIsAgreement | src/sql/types.rs:200-207 | the same for OR |
| ValueLaws.NotIsAgreement | src/sql/types.rs:208-215 | the same for NOT |
| ValueLaws.ComparisonIsOrder | src/sql/types.rs:122-170 | the comparison operators are those of one order, numbers being equal by amount across INTEGER and FLOAT; incomparable values are only different; exactly NULL makes them UNKNOWN |
| ValueLaws.ComparisonIsTransitive | src/sql/types.rs:157-170 | that order is transitive across number types |
| ValueLaws.TextOrderIsLexicographic | src/sql/types.rs:157-170 | texts are ordered by their first difference |
| ValueLaws.CoercionKeepsValue | src/sql/types.rs:52-73 | a value is coerced exactly when it is compatible, to the type asked for, and stays SQL-equal |
| ValueLaws.DivisionTruncates | src/sql/executor.rs:2690-2704 | integer division leaves a remainder smaller than the divisor with the sign of the dividend |
| RelationLaws.InIsDisjunction | src/sql/executor.rs:2706-2730 | IN is the three-valued disjunction of the equalities in every case but NULL IN (), and NOT IN is its negation |
| RelationLaws.SubqueryMembershipIsIn | src/sql/executor.rs:2546-2590 | membership in a subquery, decided by a set of hash keys, is IN over the list of its first cells |
| RelationLaws.SortIsStable | src/sql/executor.rs:2775-2804 | ORDER BY keeps rows with their multiplicity, leaves no row directly behind a greater one, and keeps rows with equal keys in order |
| RelationLaws.SortIsOrder | src/sql/executor.rs:2775-2804 | with keys that were evaluated and one kind of value in each position, no row stands anywhere behind a greater one, and by the first key NULLs come first ascending and last descending |
| RelationLaws.MinIsLeast | src/sql/executor.rs:2643-2646 | MIN of values of one kind is among them and at most each of them |
| RelationLaws.MaxIsGreatest | src/sql/executor.rs:2647-2650 | MAX of values of one kind is among them and at least each of them |
| Bloom.Insert | src/sql/executor.rs:80-85 | the inserted key passes afterwards and no key that passed before stops passing, down to the bits of the words |
| Bloom.Empty | src/sql/executor.rs:55-68 | a fresh filter passes no key |
| Tables.ColumnIndex | src/sql/types.rs:552-556 | finds the first column of that name ignoring case, and fails only when there is none |
| Tables.KeyOf | src/sql/executor.rs:221-231 | a key has one part per key column, each taken from that column of the row |
| TableEngine.EntriesAppend | src/sql/executor.rs:244-262 | adding one key and id to the entries of the old rows gives exactly the entries declared by the extended rows |
| TableEngine.EntriesReplace | src/sql/executor.rs:285-330 | removing the old key and adding the new one gives exactly the declared entries of the changed rows, without empty buckets |
| TableEngine.AppendToIndex | src/sql/executor.rs:244-262 | the index agrees with the extended rows, Bloom filter included |
| TableEngine.MoveInIndex | src/sql/executor.rs:285-330 | the index agrees with the rows after one of them changed |
| TableEngine.LiveTable.BuildIndex | src/sql/executor.rs:185-214 | an index built from scratch holds exactly the declared entries and its filter passes every present key |
| TableEngine.LiveTable.RebuildIndex | src/sql/executor.rs:185-214 | afterwards there is one index for each definition in force, and all agree with the rows |
| TableEngine.LiveTable.InsertRowIndexed | src/sql/executor.rs:233-263 | succeeds exactly on rows that fit the schema, appends row and id, keeps every index equal to a rebuild, ids increasing and below the next id; a refused row changes nothing |
| TableEngine.LiveTable.ReplaceRowIndexed | src/sql/executor.rs:266-334 | replaces exactly that row in place and keeps every index equal to a rebuild; a refusal changes nothing |
| TableEngine.LiveTable.FindRowId | src/sql/executor.rs:354-357 | binary search over the increasing ids finds the position of an id, or there is none |
| TableEngine.LiveTable.IndexConflicts | src/sql/executor.rs:338-358 | through filter, key map and binary search: exactly the positions that share a NULL-free key of that index |
| TableEngine.LiveTable.UniqueConflictPositions | src/sql/executor.rs:336-360 | exactly the positions of rows that share a NULL-free key with the new row on some unique index in force |
| TableEngine.LiveTable.CandidateIds | src/sql/executor.rs:362-433 | the loop over indexes returns the ids of the best-scoring probe, the first on a tie |
| IndexScan.ProbeExactness | src/sql/executor.rs:18-43 | a probe of a typed column with a literal misses no cell that SQL comparison accepts if and only if the literal's number type is safe for that operator |
| IndexScan.ConjunctsHold | src/sql/executor.rs:460-490 | every comparison collected from a selection is TRUE on each row on which the selection is TRUE |
| IndexScan.ProbeFindsRow | src/sql/executor.rs:392-425 | a probe returns the id of every row whose key it admits, Bloom filter included |
| IndexScan.CandidatesAreComplete | src/sql/executor.rs:362-433 | whichever index wins, the candidates contain every row on which the selection is TRUE, for typed literals and columns that are the table's own |
| JoinSplit.JoinIsRowByRow | src/sql/executor.rs:2067-2126 | a join of any type is, left row by left row in order, what each left row alone yields, followed for RIGHT by the right rows that met no partner; it fails exactly when some left row alone fails |
| JoinSplit.JoinKeepsSame | src/sql/executor.rs:2067-2126 | two executions of a join of any type whose left sides keep the same rows under a test on the first table keep the same output rows in the same order, RIGHT joins included |
| ProbedJoins.ProbeMade | src/sql/executor.rs:362-433 | whichever probe is made, the scan keeps in order every row that the probed comparisons do not rule out |
| ProbedJoins.SomeSucceedIffPaddingDoes | src/sql/executor.rs:1895-1904 | when joins and WHERE succeed on all rows of the first table, they succeed on the probed ones if and only if no evaluation on a row padded by a RIGHT join fails, and always without RIGHT joins |
| IndexedEval.ProbedPipeline | src/sql/executor.rs:1871-1910 | for joins of every type, when both succeed, joining and filtering only candidate rows gives the same rows in the same order as joining and filtering all of them |
| IndexedEval.ProbedSucceeds | src/sql/executor.rs:1871-1910 | and the probed execution succeeds whenever full scans do, if nothing fails on rows that RIGHT joins pad |
| IndexedEval.ExprRefines | src/sql/executor.rs:2397-2544 | an expression whose subqueries use indexes has the value it has on full scans |
| IndexedEval.SortSettled | src/sql/executor.rs:1946-1971 | ORDER BY keys with subqueries that succeed on full scans sort the rows as full scans do |
| IndexedEval.JoinsRefine | src/sql/executor.rs:2067-2126 | a chain of joins over sources that use indexes gives the relation of full scans |
| IndexedEval.AggregateRefines | src/sql/executor.rs:2260-2317 | the same for grouping, HAVING and aggregate projection |
| IndexedEval.QueryRefines | src/sql/executor.rs:1871-1971 | a query run with index scans at every level gives the same columns, rows and order as full scans, through CTEs, derived tables, joins of every type, grouping, ordering and nested subqueries, whenever both succeed; success on full scans is enough when nothing fails on padded rows |
| OptimizerSound.FoldBinaryFaithful | src/sql/planner.rs:229-248 | folding two literals agrees with evaluating them if and only if they are none of NULL OR TRUE, NULL AND FALSE and NULL / 0, in either order where it applies |
| OptimizerSound.FoldKeepsShape | src/sql/planner.rs:124-227 | folding keeps the output name of an expression, whether it is a column or an aggregate, and which columns it resolves |
| OptimizerSound.FoldSound | src/sql/planner.rs:124-227 | a folded expression has the same value or the same failure on every row and group |
| OptimizerSound.AggregateSound | src/sql/planner.rs:69-111 | grouping, HAVING and aggregates of the optimized query give the same relation or failure |
| OptimizerSound.OptimizeSound | src/sql/planner.rs:69-111 | the optimized query gives the same relation (names, rows, order) or the same failure as the original, at every level of nesting |
| StatementSound.InsertSound | src/sql/planner.rs:14-42 | optimizing INSERT, with its upsert assignments bound to incoming rows, changes neither rows nor failure |
| StatementSound.OptimizedStatementSound | src/sql/planner.rs:14-66 | an optimized write has the same effect on the catalog or the same failure, constraint checks included |
| Execute.UpdateRefines | src/sql/executor.rs:1725-1775 | UPDATE over index candidates changes exactly the rows a full scan would, with the same count |
| Execute.DeleteRefines | src/sql/executor.rs:1799-1836 | DELETE over index candidates removes exactly the rows a full scan would |
| Execute.StoredWriteRefines | src/sql/executor.rs:740-755 | whenever a write succeeds on full scans and on the stored, indexed tables, it has the same effect on both; success on full scans is enough when nothing fails on padded rows |
| Engine.InsertOne | src/sql/executor.rs:1600-1656 | one row of INSERT or upsert, through the conflict lookup, has the declared effect and keeps the indexes |
| Engine.ExecuteInsert | src/sql/executor.rs:1534-1662 | the loop with incremental indexes succeeds exactly when the declarative insertion does, with the same rows and count, and leaves indexes in agreement |
| Engine.UpdateInPlace | src/sql/executor.rs:1725-1775 | the in-place loop leaves the rows and the count of the row-by-row definition, or fails with it |
| Engine.ExecuteUpdate | src/sql/executor.rs:1711-1782 | probed update in place followed by a rebuild has the specified effect and leaves indexes in agreement |
| Engine.SplitRows | src/sql/executor.rs:1799-1836 | deletion keeps the surviving rows in order and their ids strictly increasing |
| Engine.ExecuteDelete | src/sql/executor.rs:1784-1858 | probed deletion followed by a rebuild has the specified effect and leaves indexes in agreement |
| Engine.EntriesDecideUnique | src/sql/executor.rs:2860-2877 | looking only at index buckets decides uniqueness: all NULL-free buckets are small if and only if no two rows share a key |
| Engine.ValidateUnique | src/sql/executor.rs:2860-2877 | the check on index entries accepts exactly the tables in which no two rows share a NULL-free key of a unique index in force |
| Engine.ValidateTable | src/sql/executor.rs:2824-2960 | accepts exactly the tables whose rows fit the schema, falsify no CHECK, repeat no unique key and have all their parents |
| Engine.ValidateCatalog | src/sql/executor.rs:2824-2833 | accepts exactly the catalogs in which every table satisfies its constraints declaratively |
| SchemaInvariants.DataStatementKeepsTypes | src/sql/executor.rs:1534-1858 | INSERT, upsert, UPDATE and DELETE leave every cell NULL or of its column's type |
| SchemaInvariants.CreateTableKeepsOk | src/sql/executor.rs:874-994 | a created table's constraints and indexes name only columns that exist |
| SchemaInvariants.ModifyColumnKeepsOk | src/sql/executor.rs:1233-1269 | changing a column coerces every row to the new type and keeps all references |
| SchemaInvariants.OperationKeepsOk | src/sql/executor.rs:1128-1370 | every ALTER operation keeps rows typed and every index and constraint on existing columns |
| SchemaInvariants.AlterTableKeepsOk | src/sql/executor.rs:1106-1126 | a whole ALTER statement does, including the foreign keys of other tables that follow a rename |
| SchemaInvariants.WritesKeepOk | src/sql/executor.rs:785-872 | every write statement keeps that invariant for the whole catalog |
| DeclaredKeys.RefreshDeclaresKeys | src/sql/executor.rs:1409-1453 | after the refresh that ends every ALTER operation, each PRIMARY KEY and UNIQUE has a unique index definition over its columns, and the columns of a PRIMARY KEY are NOT NULL |
| DeclaredKeys.SchemaChangeKeepsKeys | src/sql/executor.rs:874-1126 | CREATE, DROP and ALTER keep that for every table, DROP INDEX and renames in other tables included |
| DeclaredKeys.NamesDecide | src/sql/executor.rs:185-214 | all index definitions are in force if and only if no two different ones share a name |
| DeclaredKeys.EnforcedIffGuarded | src/sql/executor.rs:2860-2877 | the check of unique indexes rules out a repeated key over all rows that fit a schema if and only if some unique index in force looks at columns of that key only |
| DeclaredKeys.PrimaryKeyIdentifies | src/sql/executor.rs:898-918 | a guarded PRIMARY KEY gives every row a NULL-free key of its own |
| CatalogEngine.RebuildTable | src/sql/executor.rs:1409-1453 | a table whose schema or rows changed gets fresh indexes that agree with them and keeps its row ids |
| CatalogEngine.ExecuteSchema | src/sql/executor.rs:785-872 | a schema statement has its declared effect on the meaning and leaves all indexes in agreement |
| CatalogEngine.ExecuteWrite | src/sql/executor.rs:785-872 | any write has its declared effect on the meaning and leaves all indexes in agreement |
| CatalogEngine.ConstraintsIgnoreStore | src/sql/executor.rs:2824-2960 | constraints hold of stored tables exactly when they hold of their meaning |
| CatalogEngine.ExecuteCatalog | src/sql/executor.rs:740-755 | a write is applied and validated or refused as a whole; an accepted one leaves a valid store whose rows fit their schemas, falsify no CHECK, have all their parents and repeat no key of a unique index in force |
| Wal.ReadablePrefix | src/sql/database.rs:429-467 | reading stops at the first line that is not a record, and everything before it is read |
| Wal.AppendFailsIffCut | src/sql/database.rs:429-433 | an append makes a log unreadable if and only if it ends within a character and every line before it is a record |
| Wal.AppendReads | src/sql/database.rs:408-427 | an append onto a clean log adds its record exactly when all of it arrives; onto a spoiled log it adds nothing, and it destroys a whole last line without newline |
| Serializability.DiskAppend | src/sql/database.rs:408-427 | how far replay reaches after a whole, torn or unterminated append, for any log |
| Serializability.OpenReaches | src/sql/database.rs:527-572 | opening reaches exactly the durable version, in any state a crash can leave, also between the rename of the snapshot and the archiving of the log |
| Serializability.StepKeeps | src/sql/database.rs:973-1045 | every step keeps the invariant: the published catalog is the outcome of the committed lists, one version each, and a session is its snapshot plus its own logged writes |
| Serializability.RunsAreSerial | src/sql/database.rs:357-397 | the invariant holds in every state of every run, crashes included |
| Serializability.CommittedReadsAreSerial | src/sql/database.rs:988-1035 | every read of a transaction that commits, a read-only one too, is the read at its place in the serial order, and the version advances by exactly one |
| Durability.StepMeans | src/sql/database.rs:429-467 | every dependable step keeps published, session and recoverable tables equal to the serial effect of their histories, optimized or replayed |
| Durability.FailsIffUnreadable | src/sql/database.rs:246-298 | a database reached by dependable statements fails to open if and only if reading its log gets to a line that is not text, and then it never opens |
| Durability.AlwaysOpens | src/sql/database.rs:246-298 | and it never fails to open when its log is text |
| Durability.CutIsFatal | src/sql/database.rs:408-433 | in every run, a crash leaves an unopenable database if and only if it tears a record within a character and every line before that is a record |
| Durability.CrashKeepsAcknowledged | src/sql/database.rs:357-397 | a crash at any point over a clean log keeps every acknowledged commit durable |
| Durability.RecoveryIsExact | src/sql/database.rs:527-572 | crash and open give exactly the acknowledged commits in version order plus at most the one logged but unacknowledged, and their serial tables |
| Durability.OpenedIsSerial | src/sql/database.rs:429-467 | whatever a crash left, the opened tables are the serial effect of a first part of the history, and the version counts it |
| Durability.NothingIsLost | src/sql/database.rs:276-284 | over whole runs, acknowledged commits only grow as long as each crash strikes a clean log |
| Durability.RunsArePublished | src/sql/database.rs:988-1035 | in every state of every dependable run the published tables are the serial fold of the history and the version is its length |
| Durability.CommitSurvivesIffClean | src/sql/database.rs:276-284 | an acknowledged commit is there after a restart if and only if the log it was appended to was clean |
| Durability.CommittedReadsMean | src/sql/database.rs:850-864 | a committed read answers its query on the serial tables at its place, extended by the transaction's own earlier writes |
| SqlDurability.SqlIsLawful | src/sql/executor.rs:740-755 | the engine's statements satisfy the laws the machine needs: every accepted write, live or replayed, leaves valid tables |
| SqlDurability.DependableExecutes | src/sql/database.rs:344-372 | a dependable statement has the same effect optimized and raw, with and without indexes |
| SqlDurability.SureIsDependable | src/sql/executor.rs:740-755 | a statement without folding traps that succeeds on full scans is dependable when every probe it may make is exact and nothing fails on padded rows |
| SqlDurability.QueryAnswers | src/sql/database.rs:357-365 | an optimized, indexed query answers what the query as written means on full scans |
| SqlDurability.ReachableCatalogsAreValid | src/sql/executor.rs:740-755 | in every run, whatever is executed and wherever crashes strike, the rows of every published and every session catalog fit their schemas, falsify no CHECK, have all their parents and repeat no key of a unique index in force, and all indexes agree with them |
| KeptMeanings.HoldsInRuns | src/sql/database.rs:246-397 | whatever every statement keeps of the meaning of tables, live and in replay, holds of every published and every session catalog in every run |
| SqlKeys.RunsKeepKeysDeclared | src/sql/executor.rs:937-990 | in every run each PRIMARY KEY and UNIQUE constraint has its unique index definition, and PRIMARY KEY columns are NOT NULL |
| SqlKeys.DeclaredKeysHoldInRuns | src/sql/executor.rs:2860-2877 | in every run no two rows of a table share a NULL-free key of a declared PRIMARY KEY or UNIQUE that an index in force guards, a guarded PRIMARY KEY identifies each row, and with distinct index names all are guarded |
| SqlDurability.SqlRunsAreSerial | src/sql/database.rs:988-1035 | the published SQL tables of every dependable run are the serial outcome on full scans of the committed statements as written |
| SqlDurability.SqlRecovers | src/sql/database.rs:246-298 | such a database opens after every crash that does not tear a record within a character, and loses no acknowledged commit when each crash struck a clean log |
| Database.LoadTable | src/sql/executor.rs:153-183 | loading keeps rows and ids, rebuilds every index and recomputes the next id as one past the greatest |
| Database.SqlDatabase.LogTransaction | src/sql/database.rs:408-427 | replay finds the new record, behind all earlier ones, if and only if the log was clean, and the log is then clean again |
| Database.SqlDatabase.ExecuteAutocommit | src/sql/database.rs:357-397 | logs and publishes an accepted write as the next version, saves after a schema statement, and changes nothing on an error |
| Database.SqlSession.ExecuteInside | src/sql/database.rs:850-864 | runs the optimized statement on the transaction's own catalog and logs its text only when it succeeds |
| Database.SqlSession.QueryInside | src/sql/database.rs:850-864 | reads the transaction's own catalog and leaves it unchanged |
| Database.SqlSession.Commit | src/sql/database.rs:988-1035 | fails exactly on a version conflict, publishes one new version when something was written, leaves everything as it was otherwise |
| Database.ReplayRecord | src/sql/database.rs:437-467 | skips old records, refuses a version gap, replays raw statements in order and counts schema statements one by one |
| Database.ReplayWal | src/sql/database.rs:429-467 | the loop replays exactly the readable records, and fails where the next line is not text |
| Database.LoadSnapshot | src/sql/database.rs:527-572 | the snapshot's meaning and versions with indexes rebuilt, or an empty catalog |
| Database.Open | src/sql/database.rs:527-572 | snapshot, rebuilt indexes and replay give a catalog the machine's open step allows, and an error only where it does |
| DatabaseSteps.AutocommitIsStep | src/sql/database.rs:357-397 | the method's effect is an autocommit step, followed by a save step after a schema statement |
| DatabaseSteps.ExecuteIsStep | src/sql/database.rs:850-864 | executing in a session is an execute step |
| DatabaseSteps.CommitIsStep | src/sql/database.rs:988-1035 | the commit method is a commit step |
| DatabaseSteps.OpenIsStep | src/sql/database.rs:527-572 | opening is an open step |
| DatabaseSteps.OneCall | src/sql/database.rs:357-397 | what any method's contract promises (begin, execute, query, commit, rollback, autocommit, save) prolongs a run of the machine by one step, or by two for a schema statement |
| DatabaseSteps.CallsAreRun | src/sql/database.rs:850-1045 | any sequence of calls, over any number of sessions, continues the run that led to the open database, so what holds of all runs holds of all uses of the methods |
| KvLog.ReplayIsIdempotent | src/persistence.rs:225-275 | replaying any Set, Delete and Clear log onto its own outcome changes nothing, so replaying an old log over a newer snapshot is harmless |
| KvLog.OvertakingIsExact | src/persistence.rs:202-222 | writing one operation ahead of queued sets gives the same data as behind them if and only if it does not overtake a different last word on its key, or any entry for a clear |
| KvLog.RecoveredAppend | src/persistence.rs:208-222 | an appended record adds its operation to what recovery finds; a torn one adds nothing |
| KvLog.LoggedIsApplied | src/persistence.rs:351-362 | writing the queue record by record applies it in order and continues the sequence numbers |
| KvLog.FlushedOperations | src/persistence.rs:278-337 | after the rename and before the archiving, snapshot plus old log recover what the log recovered |
| KvLog.PersistenceManager.ScanMaxSequence | src/persistence.rs:383-403 | finds the greatest sequence number among snapshot and legible lines, as far as the log is text |
| KvLog.PersistenceManager.LogOperationSync | src/persistence.rs:208-222 | recovery finds the operation after all earlier ones when the log ended with a newline |
| KvLog.PersistenceManager.Flush | src/persistence.rs:351-362 | empties the queue into the log in order |
| KvLog.PersistenceManager.CreateSnapshot | src/persistence.rs:278-337 | flush, rename, archive, with the files as they are between the last two |
| KvLog.PersistenceManager.Recover | src/persistence.rs:225-275 | fails exactly when some line is not text; otherwise the entries of the snapshot and then the operations of all legible lines, skipping torn ones |
| KvLog.KVStore.Open | src/kvstore.rs:41-69 | rebuilds the recovered map, and fails exactly when some line of the log is not text |
| KvLog.KVStore.LogAndApply | src/kvstore.rs:72-86 | log first, then memory; the two still agree if and only if nothing was overtaken |
| KvLog.KVStore.Set | src/kvstore.rs:72-86 | memory gets the entry; agreement as above |
| KvLog.KVStore.Delete | src/kvstore.rs:132-143 | memory loses the key and the answer says whether it was there |
| KvLog.KVStore.Clear | src/kvstore.rs:156-166 | memory is empty; agreement survives if and only if nothing was queued |
| KvLog.KVStore.SetAsync | src/kvstore.rs:89-103 | memory is updated at once and always stays in agreement with log and queue |
| KvLog.KVStore.Flush | src/kvstore.rs:210-219 | with agreement, a crash right after recovers memory |
| KvLog.KVStore.Snapshot | src/kvstore.rs:169-183 | recovers memory afterwards, and with agreement also between rename and archiving, for entries listed in any order |
| KvLog.SyncedSurvivesIffTerminated | src/persistence.rs:208-222 | a synced record can be read back if and only if the log ended with a newline |
| KvRuns.StepKeepsSound | src/kvstore.rs:72-183 | every call and every crash inside one keeps memory equal to log then queue, and the sequence numbers gapless |
| KvRuns.MemoryIsLogThenQueue | src/persistence.rs:202-222 | in every run without overtaking, with restarts and crashes, memory is what the log gives once the queue is written; with an empty queue a crash recovers memory |
| KvRuns.CrashLosesOnlyTheQueue | src/persistence.rs:225-337 | a crash at any point, torn lines included, loses at most an end of the queue, and nothing between rename and archiving; the next open finds exactly that, unless the line is torn within a character |
| KvRuns.CutEndsTheStore | src/persistence.rs:252-256 | after a crash that tears a record within a character every later open fails |
| KvRuns.NoSequenceIsMissing | src/persistence.rs:383-403 | archive and log together hold the records 1, 2, 3 and so on without a gap, through snapshots, crashes and restarts |
| Restore.CollectRecords | src/recovery.rs:396-445 | reads each segment up to its first line that is not text, fails exactly when some line so read is a record with a failed checksum, and otherwise collects each record once by its number |
| Restore.SegmentsDoNotMatter | src/recovery.rs:396-445 | for records of one lineage, splitting and duplicating them across segments changes nothing |
| Restore.SelectRecords | src/recovery.rs:252-276 | succeeds exactly when no number up to the end of the target is missing, and yields the consecutive records from the base |
| Restore.PointReached | src/recovery.rs:316-327 | the end of the selection equals the requested point if and only if every record up to it is present |
| Restore.TimestampReached | src/recovery.rs:256-258 | for a time target the selection is the longest prefix not later than the cutoff |
| Restore.Restore | src/recovery.rs:171-327 | an exact target succeeds if and only if it is not before the base and both engines have every record up to it, and then reaches it; a time target restores in each engine the longest prefix not later than the cutoff |
| Restore.RestoredSqlOpens | src/sql/database.rs:429-467 | opening SQL files made of the records of a history after the base gives the state after exactly those commits |
| Restore.RestoredKvOpens | src/persistence.rs:225-275 | opening key-value files made of the operations after the base gives the data after exactly those operations |
| RestoreHistory.SplitsDoNotMatter | src/recovery.rs:396-445 | segments of one history that hold the same numbers give the same records, however these are split, ordered or duplicated |
| RestoreHistory.CompleteIffHeld | src/recovery.rs:316-327 | restore to a point misses nothing if and only if the segments hold every number up to it somewhere |
| RestoreHistory.HeldHasNoGap | src/recovery.rs:252-276 | restore to a time or to the latest state finds no gap when the segments hold every number after the base |
| RestoreHistory.WrittenIsPast | src/recovery.rs:252-276 | from segments whose sound lines are records of one history, a successful restore writes exactly the part of it from the base to where the target says |
| RestoreHistory.EndIsExact | src/recovery.rs:252-276 | when the segments hold everything after the base, a time target ends before the first entry of the history that is too late, and the latest target at its end |
| RestoreHistory.RestoreIsExact | src/recovery.rs:171-327 | after a successful restore to any target, opening gives in SQL exactly the serial outcome of the first commits of the history and in the key-value store exactly the data of the first operations, each up to where the target says |
| Plans.Oldest | src/sql/database.rs:205-214 | finds an entry whose last use is the least |
| Plans.PlanCache.Get | src/sql/database.rs:189-198 | hits exactly on the same text at the same catalog version, touches the entry on a hit and drops it on an outdated version |
| Plans.PlanCache.Insert | src/sql/database.rs:200-223 | replaces, adds, or evicts the least recently used entry first when full; a capacity of zero keeps nothing |
| Plans.NeverTooMany | src/sql/database.rs:200-223 | a cache that holds the most recently requested texts has at most capacity entries |
| Plans.Inserted | src/sql/database.rs:200-223 | evicting by clock keeps exactly the capacity most recently requested distinct texts |
| Plans.PlanStore.ParseCached | src/sql/database.rs:332-351 | every call returns the optimized parse of its text or its failure, and the cache holds exactly the capacity most recently requested parseable texts since the last clear |
| Plans.PlanStore.Clear | src/sql/database.rs:225-227 | forgets all plans and the requests before it |
| HashJoin.HashJoinKeyRespects | src/sql/executor.rs:2231-2237 | non-NULL values that SQL calls equal have equal hash keys |
| HashJoin.BuildTable | src/sql/executor.rs:2178-2186 | each key's bucket lists, in order, the right rows with that non-NULL key |
| HashJoin.JoinLeftRow | src/sql/executor.rs:2189-2215 | one left row meets exactly its SQL-equal partners in right order, collisions filtered out, and marks them |
| HashJoin.HashJoin | src/sql/executor.rs:2170-2229 | for any respecting key function, the same row sequence as the nested loop on column equality, LEFT and RIGHT padding included |
| HashJoin.NestedLoop | src/sql/executor.rs:2090-2125 | the loops produce the declared join rows, or fail when some pair fails |
| HashJoin.Join | src/sql/executor.rs:2067-2126 | whichever path is taken, the result is the declared join |
| HashJoin.HashPathIsExact | src/sql/executor.rs:2128-2168 | comparing the two found columns is the same as evaluating the condition on every pair of rows if and only if both names resolve in the combined columns |
| Grouping.RowKeyInjective | src/sql/executor.rs:2743-2755 | equal row keys mean equal rows, although the separator is not escaped |
| Grouping.DistinctKeepsFirst | src/sql/executor.rs:1942-1945 | DISTINCT keeps exactly the first occurrence of each row, in order |
| Grouping.Distinct | src/sql/executor.rs:1942-1945 | the loop with its set of seen keys computes that |
| Grouping.GroupsPartition | src/sql/executor.rs:2266-2285 | the groups hold exactly the rows of each key, in source order and multiplicity, sorted by key |
| Grouping.GroupByIdentity | src/sql/executor.rs:2266-2285 | each group is non-empty and holds exactly the rows with the same grouping values |
| Grouping.GroupByKeys | src/sql/executor.rs:2266-2285 | the loop over rows builds those groups |
| Calendar.NextDayIsNext | src/recovery.rs:691-699 | the day after a date, by leap years and month lengths of section 5.7 and Appendix C of RFC 3339, has the next number |
| Calendar.OnlyCount | src/recovery.rs:691-699 | any numbering that is 0 on 1970-01-01 and steps by one a day is the day-by-day count |
| Calendar.CountsDays | src/recovery.rs:691-699 | the date counted n days from 1970-01-01, forwards or backwards, is numbered n |
| Calendar.StrictlyIncreasing | src/recovery.rs:691-699 | a later date has a greater number |
| Calendar.DatesDiffer | src/recovery.rs:691-699 | two valid dates have the same number exactly when they are equal |
| Calendar.NeverOverflows | src/recovery.rs:691-699 | each operation of the computation, one by one, fits 32 bits on every date of a year if and only if the year is from -5877640 to 5879609 |
| Calendar.EqualInstants | src/recovery.rs:672-677 | two timestamps have the same Unix time exactly when they are the same date and second in UTC |
| Calendar.RecoveryTimeIsInstant | src/recovery.rs:672-685 | the result is that instant in milliseconds, and it is refused exactly before the epoch |
| Calendar.NegativeHourIsDayBefore | src/recovery.rs:638-677 | an hour from -24 to -1 is accepted like the hour 24 later on the day before |
| Wire.LenencRoundTrip | src/wire/protocol.rs:68-88 | every 64-bit length-encoded integer is read back from any surroundings and consumed exactly |
| Wire.ReadLenencInt | src/wire/protocol.rs:113-158 | the reader with its advancing position computes the specified read, truncated input included |
| Wire.CellRoundTrip | src/wire/protocol.rs:418-428 | each non-NULL value is read back by its column type and consumed exactly |
| Wire.BuildBinaryRow | src/wire/protocol.rs:410-430 | the loop produces a header byte, a bitmap whose bit i + 2 is set exactly for NULL values, and the values in order |
| Wire.BinaryRowRoundTrip | src/wire/protocol.rs:410-430 | a decoder that knows the column types recovers every value and consumes the packet exactly |
| Parameters.FoldBind | src/sql/planner.rs:124-227 | folding before binding makes no difference to folding after it, for every expression and all values |
| Parameters.OptimizeBind | src/sql/planner.rs:69-111 | the same for whole queries |
| Parameters.OptimizeIdempotent | src/sql/planner.rs:69-111 | optimizing an optimized query changes nothing |
| Parameters.OptimizeKeeps | src/sql/planner.rs:69-111 | optimizing keeps the sequence of placeholders |
| Parameters.NumberQuery | src/sql/parser.rs:616-682 | the visitor numbers placeholders consecutively in visit order through every nested part of a query |
| Parameters.BoundQuery | src/sql/parser.rs:488-503 | binding enough values leaves no placeholder in a query |
| Prepared.NumbersAreExact | src/sql/parser.rs:505-571 | the placeholders of any statement become 0 to n - 1, each exactly once and in visit order, and the count is n |
| Prepared.BindingIsComplete | src/sql/parser.rs:488-503 | binding succeeds exactly with n values, and then no placeholder is left, in CREATE TABLE and ALTER TABLE as well |
| CheckExpressions.OperationsReplace | src/sql/parser.rs:538-566 | rewriting the CHECK expressions of ALTER operations in visit order puts each in its own place and changes nothing else |
| CheckText.ConvertColumnDef | src/sql/parser.rs:684-744 | the loop over column options keeps each CHECK twice, in order: at the column and as a constraint of the table |
| CheckText.ParsedPlaceholders | src/sql/parser.rs:413-440 | a statement holds each placeholder of its text once, and those of CHECKs at columns once more |
| CheckText.TextDecidesCount | src/sql/parser.rs:488-513 | how many values a statement takes, by its text; it is the number of placeholders of the text if and only if no CHECK at a column holds one |
| CheckText.ConstraintsTakeLaterValues | src/sql/parser.rs:523-537 | in CREATE TABLE the first values go to the copies at the columns, and the constraints that are enforced take the ones after them |
| CheckText.OneCheckTakesTwo | src/sql/parser.rs:704-711 | a INT CHECK (a > ?) has one placeholder; it refuses one value and takes two |
| Prepared.PreparedPlanIsExact | src/sql/database.rs:866-915 | a plan that was optimized, bound and optimized again is the optimized bound statement, for all statements and values |
| Prepared.OptimizingKeepsPlaceholders | src/sql/planner.rs:14-66 | optimizing keeps the placeholders and their count, and is idempotent |
| KeyLimits.HiddenIndexAllowsDuplicates | src/sql/executor.rs:874-994 | CREATE TABLE t (a INT, b INT, CONSTRAINT k UNIQUE (a), CONSTRAINT k UNIQUE (b)) and INSERT INTO t VALUES (1, 1), (1, 2) are both accepted, and two rows share the key of the first constraint |
| Limits.FoldingLosesRows | src/sql/planner.rs:229-232 | WHERE NULL OR TRUE keeps every row, and its folded form keeps none |
| Limits.QualifierIsIgnored | src/sql/executor.rs:460-490 | a comparison on another table's column narrows the scan of this table and excludes a row on which the selection is TRUE |
| QueryLimits.RowIsLost | src/sql/executor.rs:1871-1971 | and a query of that kind returns one row on full scans and none through the index |
| ProbeLimits.ProbeIsExactIffSafe | src/sql/executor.rs:460-490 | over all tables that fit a schema, NOT NULL included, and all joined rows that start with them, a compared name excludes no row on which the comparison is TRUE if and only if it resolves to this table's own column with a safe number type, or to no column, or the literal can match nothing or admits every key of the column |
| QueryLimits.RightJoinCanFail | src/sql/executor.rs:1871-1910 | t RIGHT JOIN u ON t.id = u.k WHERE t.id = 5 AND 1 / u.x > 0 is empty on full scans and fails through the index on t.id, for one row in each table |
| QueryLimits.SortingSwallowsFailure | src/sql/executor.rs:2775-2804 | a key subquery that fails on full scans and is empty through the index puts the same rows into another order, and neither sort fails |
| QueryLimits.SubqueryDiffers | src/sql/executor.rs:1871-1971 | there is such a subquery |
| ReplayLimits.DeletionIsOrdinary | src/sql/planner.rs:124-227 | the statement of the next two rows has no folding trap; folding it only reveals a literal to the index |
| ReplayLimits.LiveIsAccepted | src/sql/database.rs:332-351 | the optimized statement is executed and can be acknowledged, on tables that satisfy everything |
| ReplayLimits.ReplayIsRefused | src/sql/database.rs:450-459 | the same statement as written fails on every store of the same tables |
| Replays.OpensIffNothingFails | src/sql/database.rs:429-467 | a database whose readable log was accepted record by record opens if and only if reading gets to no line that is not text and no logged statement fails as written on the tables where it was accepted, and otherwise only fails to open |
| ReplayableSql.ExecutesSomehow | src/sql/executor.rs:740-755 | execution of any write on any valid store has an outcome |
| ReplayableSql.DependableReplaysPlainly | src/sql/database.rs:429-467 | replay of a dependable statement comes, on every store of the tables, to what it does on full scans, and to what live execution did |
| ReplayableSql.SqlOpensIffNothingFails | src/sql/database.rs:429-467 | for logged statements whose replay comes to full scans: the database opens if and only if its log is readable as text and none of them fails, as written, on full scans of the tables where it was accepted |
| Utf8.PrefixIsTextIffBoundary | src/sql/database.rs:429-433 | the first bytes of an encoded text are UTF-8, by sections 3 and 4 of RFC 3629, if and only if they end with a character |
| Utf8.ContinuedIsTextIffBoth | src/sql/database.rs:408-433 | a torn line that is continued by another is text if and only if both parts are |
| TornText.CutIffNotAscii | src/sql/database.rs:408-433 | some cut of a record's line is not text if and only if the record has a character outside ASCII |
| TornText.AsciiRunsOpen | src/sql/database.rs:246-298 | a run of dependable statements never fails to open when the records that crashes tore, at whatever byte, were ASCII |
| UnopenableDatabase.TearsCanEndUnopenable | src/sql/database.rs:408-433 | there is a run of the engine with one acknowledged and saved commit and one crash that tears the next record within a character, after which no open succeeds |
| ReplayRun.OneRecordNeverOpens | src/sql/database.rs:429-467 | a snapshot and one logged statement that cannot be replayed on its tables leave failing to open as the only step of opening |
| UnopenableDatabase.RunsCanEndUnopenable | src/sql/database.rs:357-397 | there is a run of the engine (create a table and an index, insert, save, delete, crash) with four acknowledged commits and a clean log at the crash, after which no open succeeds |

## Left out

Contracts that say less than one might wish:

- IndexedEval.QueryRefines: for queries that succeed on full scans; an index can also skip a row whose evaluation fails, and then the indexed query succeeds where the full scan does not. Subqueries of ORDER BY keys are to succeed on full scans; QueryLimits.SortingSwallowsFailure shows why.
- Execute.StoredWriteRefines: one direction, for the same reason: a write may succeed through an index and fail on full scans.
- SqlDurability.SqlRecovers: the condition on statements is sufficient and not necessary; a statement with a folding trap may happen to be harmless on the tables it meets. UnopenableDatabase shows that some condition is needed, and Replays.OpensIffNothingFails and ReplayableSql.SqlOpensIffNothingFails are exact for one log.
- IndexScan.CandidatesAreComplete: for selections whose probed columns are the scanned table's own; ProbeLimits.ProbeIsExactIffSafe is exact for one comparison.
- CheckText.ConvertColumnDef: options that the code refuses and unsupported referential actions are not in the model's text.
- RestoreHistory.RestoreIsExact: the SQL commits are dependable ones, as in SqlDurability; the base snapshots are those of the same histories.
- CatalogEngine.ExecuteSchema: the effect of DDL is computed on values and the touched tables are then rebuilt, where the code edits the table in place operation by operation; row ids and contents are those of the code.
- Prepared.NumbersAreExact: the visitors rewrite trees in place; here they pass the counter along and return the rewritten tree.
- Database.LoadTable: without the repairs for files of older versions (missing constraints, missing automatic indexes, missing row ids).
- Grouping.RowKeyInjective: for floats that are 64-bit values; a text's length is counted in characters, where the code counts UTF-8 bytes.
- Grouping.GroupsPartition: groups come in the order of the model's float keys, which differs from the order of the code's hexadecimal keys when a grouping value is a float.
- Plans.PlanStore.ParseCached: the text is taken as it comes; trimming it is left to the caller.
- ProbeLimits.ProbeIsExactIffSafe: for columns declared with one of the four types that SQL text can name.
- Calendar.RecoveryTimeIsInstant: the numeric part of the timestamp parser, without splitting its text; a leap second (60) is refused by the code and outside the hypotheses, and for negative clock fields Calendar.NegativeHourIsDayBefore says what happens.
- Restore.Restore: for records whose base is the version before theirs, as both engines write them; checksums of backup files and legacy log formats are not modelled.
- KvRuns.CrashLosesOnlyTheQueue: the last crash may tear a line, earlier ones leave whole lines; KvLog.SyncedSurvivesIffTerminated says what happens otherwise.

Simplifications of the whole model:

- Error messages: every failure is one value `Err`, so "the same failure" means failing in the same cases.
- Floats are real numbers: no rounding, no NaN, no negative zero; row keys name a float by its multiple of 2 to the minus 1074.
- Integers are unbounded: no 64-bit overflow in SQL arithmetic, no saturation of versions, row ids and sequence numbers. The calendar is the exception.
- Identifier and LIKE case folding is ASCII; Unicode folding and collation are not modelled.
- ORDER BY is a stable sort; the code's selection of the first rows for LIMIT may order ties differently.
- The iteration order of hash maps is a given sequence (indexes of a table) or does not matter (tables of a catalog).
- SQL text parsing is a given function; its result for one text never changes.
- CHECK expressions hold no subqueries (a hypothesis on statements).
- Files, fsync, JSON and checksums: a log is a sequence of lines that are records, other text or no text, the text of a record is a given function, a rename is one step, and writes that fail without a crash are not modelled. A legible key-value line with a wrong checksum does not occur.
- Each call is one step: no interleaving inside a call, no background flush thread, no locks.
- Archived SQL log segments in the transaction machine: the machine keeps what opening reads; Restore treats segments.
- EXPLAIN, SHOW, USE, SET and other session statements, result formatting, the subquery cache, the scratch-buffer pool, the primary-key index field, and the sizing of Bloom filters: no hard property.
- HTTP and wire connection loops, authentication, the command line and data-directory locks are not part of this model.
