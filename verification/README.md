# Ledgr: the migrator, the commit checks and the throttle, modelled in Dafny

Ledgr is a self-hosted finance application. Four of its parts decide something
that is hard to take back: the database migrator that runs at every start, the
check that a commit only moves code, the ratchets that let lists and limits
shrink but never grow, and the request limiter behind the sign-in form. This
project models those four and proves what they promise, for every database,
journal, diff, run of commits and run of requests. `dafny verify dfyconfig.toml`
checks all of it.

## The database migrator

`Schema` is a database: tables with rows and cells, columns, indexes, the NOT NULL
columns, and each kind of migration statement, which applies or fails with an
error code. `Replay` is the PostgreSQL squash replay: a savepoint per statement,
"already done" errors skipped. `ReplayTables` says where it leaves the tables, for
any journal; `ReplayRows` which rows stop it and what it does to every cell;
`Convergence` which NOT NULLs and indexes there are at the end, and so exactly when
it ends at the last snapshot. `Recreate` is the SQLite replay (a table recreate as
a unit), `SqliteTables` and `SqliteColumns` where that leaves the tables and which
dropped columns come back, `SqliteRows` which rows stop it, `SqliteIndexes` which
indexes are there after it. `UpgradeGate` is everything decided before a change:
what a database lacks, what is recorded and pending, where an unrecorded database
stands, and who is refused. `Migration` is one start as a function of the database
and of where an outside failure strikes; `Migrator` is the code that runs, a
`Connection` class whose methods change database, migration rows and backups query
by query, any of which can throw, and it is proved to do exactly what
`Migration.Migrate` says. `SquashTheorems`, `SquashSqlite`, `PendingTheorems` and
`PendingSqlite` put replay and protocol together: when a start commits on each
dialect, and where the database is then.

A file's hash stands for its text. The theorems say which hypotheses they use:
every entry has its file, hashes are distinct, an entry's `idx` is its place and
it has one snapshot; a fresh install runs the journal without an error; no table
or column that the journal drops is made again (an index name may be, as
`holding_observations_simplefin_idx` is); on PostgreSQL, the statements are plain
(no table rename, no copy: the repository has neither there); and the database is
lawful, that is, its rows satisfy its own unique indexes and NOT NULLs; on SQLite,
a journal is plain statements and recreates as drizzle-kit writes them, and, for the
columns that come back, a recreate drops only what is in the table then.

## Is this commit only a move?

`Diffs` reads a unified diff back into both sides of each file, `ParseDiff` is
the ratchets' own reading, and each is proved against what was rendered, with any
`diff --git` and `@@` lines and git's notes on a missing last newline, and the two
readings against each other. `InOrder` is the longest in-order matching, `MatchCode`
the matching of all changed lines in place and in moved runs, `Procedures` the
matching of new router parts with the properties that left a router. Lines,
tokens, positions and statement boundaries are given.

## The ratchets

`Groups` is the union-find that joins moved files; `Lists` has counts by key and
their sums. `Counts` compares lint suppressions, the calculation register and
function lengths, `CodeLimits` page budgets and lists, `Layers` the known layer
violations, `SizeBaseline` the recorded sizes, their lowering, moving and
splitting. Where the source loops over a map or a set, the model takes its keys
in any order. The main results are about whole runs of commits. Four promises do
not hold of every input: a list of unregistered exports, a list of entries without
counts, a list of layer violations and the recorded files can grow with nothing to
report, and for each there is the exact condition.

## The limiter and the sign-in throttle

`RateLimit` is the fixed-window store with its purge timer, `SignIn` the attempts
counted on it per address and per email, and which refusals are logged as locks. Runs are sequences of events at
non-decreasing times, in any interleaving; an `admit` reads the clock once; a
key's limit is at least 1, and its limit and window do not change.

## Where the code and its documentation differ

- `schemaLabel` (db-migrate.ts:517-525) says a database is never labelled at or
  after a drop it is not past. The code looks only at what each entry itself
  drops: `UpgradeGate.NeutralEntryHidesADrop` is a database labelled past one,
  and `UpgradeGate.LabelSafety` says exactly which journals are safe.
- The limiter's comment (src/lib/rate-limit.ts:7-10) puts the worst case at twice
  the limit. In an interval as long as the window it is one fewer, and no
  smaller: `RateLimit.FewerThanTwiceTheLimit`, `RateLimit.TheBoundIsMet`.
- A limiter's caller can log once per key and window (src/lib/rate-limit.ts:33-35).
  An email's lock is not logged as one when an address that is let in past the ten
  takes the mark: `SignIn.EmailLockCanGoUnlogged`, and exactly when it is:
  `SignIn.LockIsMetAtTheLimit`. An address's always is:
  `SignIn.AddressLockIsLoggedOnce`.
- `listRises` says no list gains an entry (scripts/ratchets/code-limits.ts:274).
  Two uncounted entries can be one old entry:
  `CodeLimits.UncountedEntriesCanMultiply`. A list's entries are different old
  entries if and only if no part of the old listing that tells the same of the new
  one is shorter: `CodeLimits.DistinctPastsExactly`.
- `applyEntryMoves` says the list can't grow (scripts/check-layers.ts:104-107).
  It cannot if and only if the base list repeats no entry of the rule:
  `Layers.RepeatsCanSplit`.
- The register "only shrinks" (scripts/ratchets/counts.ts:144) if and only if its
  new state writes no entry twice: `Counts.RepeatsAreUnseen`.
- `sizeRises` says no recorded file rises (scripts/ratchets/counts.ts:22-24). That
  is so per commit and group, `Counts.NoRiseKeepsFiles`; the recorded total can
  grow by the lines of new files within the limit, and by no more,
  `Counts.FilesGrowByFreeLines`; nothing can be gained if and only if there are
  none, `Counts.GainedIfAndOnlyIfFree`.
- A squash replay ignores `unique_violation` (db-migrate.ts:795), so a unique index
  can be skipped because of the rows; the snapshot check then rolls the recovery
  back. `Convergence.ReplayConverges` and `SquashTheorems.SquashEndsAtLastSnapshot`
  say exactly for which rows.
- A squash replay that meets a table rename already done makes the old table
  again: `ReplayTables.RenameLeavesOldTable`, and exactly when:
  `ReplayTables.TablesConverge`.
- A recreate "drops only the columns its own journal entry drops"
  (db-migrate.ts:1456-1459), so on SQLite a replay can bring a dropped column back
  and still count as complete: `SquashSqlite.DroppedColumnCanComeBack`. It is enough
  that ADD COLUMN gave a table the column, a recreate dropped it and the table has any
  later column: `SqliteColumns.AddedColumnComesBack`. Exactly when that happens, and
  exactly which columns come back: `SqliteColumns.SqliteColumnsExactly`.

## Model

| member | source | states |
|---|---|---|
| `Schema.ExecShape` | db-migrate.ts:801-822 | a statement that applies to a database changes its tables, columns, indexes and NOT NULLs exactly as it changes a schema without rows |
| `Schema.PlainKeepsCells` | db-migrate.ts:801-822 | a statement other than a copy or a rename keeps rows and cells of every column that is there before and after |
| `Schema.NullsAreRefused` | db-migrate.ts:788-822 | rows refuse a statement for a null if and only if it would leave one in a NOT NULL column, so no statement that applies ever leaves one |
| `Schema.PlainStaysLawful` | db-migrate.ts:801-822 | a statement other than a copy or a rename that applies leaves no null in a NOT NULL column and no two rows that agree, non-null, on a unique index |
| `Schema.CopyOverwritesNothing` | db-migrate.ts:1460-1485 | a copy that applies overwrites no row: those there keep their cells, and the new ones have theirs in the columns copied |
| `Replay.StopsOnlyAtNulls` | db-migrate.ts:788-796 | a PostgreSQL replay is stopped by a statement if and only if some row breaks a NOT NULL of it: one put on a column with a null, one a new column without a default comes with, or one of the table rows are copied to |
| `ReplayTables.PrefixTables` | db-migrate.ts:788-823 | within the part the database is past, a table it has keeps its columns and regains exactly those the journal adds and has not dropped yet; any other table is as the journal has it; and besides there are those that renames left behind |
| `ReplayTables.TailTables` | db-migrate.ts:788-823 | past that part the tables are the journal's and those left behind |
| `ReplayTables.TablesConverge` | db-migrate.ts:788-823 | any journal, renames included: unless a NOT NULL stops the replay, it ends with the last snapshot's tables and columns if and only if no statement the database is past renames a table to a name it still has; the tables it has besides are those that such renames left behind |
| `ReplayTables.NoNotNullNeverStops` | db-migrate.ts:788-823 | a journal that puts NOT NULL on no column, adds no NOT NULL column without a default and copies no rows never stops the replay, whatever the database |
| `ReplayRows.ReplayThrough` | db-migrate.ts:788-823 | told from the rows at the start: the replay gets as far as statement k if and only if no row breaks a NOT NULL before k, by a null of its own, the null default of a column the journal adds, or being there where a NOT NULL column without a default is added; then every row and cell of every table it had is kept |
| `ReplayRows.ReplayStaysLawful` | db-migrate.ts:801-823 | so a database stays lawful through any part of a replay of plain statements, whatever it skips |
| `Convergence.PrefixStopsAtRevoked` | db-migrate.ts:788-823 | within the part it is past, a lawful database can only be stopped at a NOT NULL the journal takes back before there, or on a column it drops before there |
| `Convergence.PrefixIndexes` | db-migrate.ts:788-823 | within that part each index is the database's or the journal's, and one that stays from there on is there |
| `Convergence.TailIndexes` | db-migrate.ts:788-823 | past that part the indexes are the snapshot's but for the unique ones that two rows of the start clash on, names used again included |
| `Convergence.ReplayConverges` | db-migrate.ts:788-823 | a lawful database at any statement of a plain journal, replayed from the start: it gets through if and only if no row breaks a NOT NULL of the journal; then it has the last snapshot's tables, columns and NOT NULLs with every kept cell, and is exactly at the last snapshot if and only if no two of its rows agree, non-null, on a unique index made since that stays |
| `ReplayTables.RenameLeavesOldTable` | db-migrate.ts:788-796 | an example with a rename: any database past it gets the old table again |
| `Recreate.UnitTableIs` | db-migrate.ts:1502 | a statement starts a recreate if and only if it creates a table called `__new_` and a name that is not empty |
| `Recreate.UnitEnd` | db-migrate.ts:1502-1513 | a recreate ends at the first later rename of its new table to the final name |
| `Recreate.StepAt` | db-migrate.ts:1501-1536 | each step takes at least one statement, a recreate at least two |
| `Recreate.PlanIsWhole` | db-migrate.ts:1501-1536 | the steps of a file are the file: every statement once and in order, each alone or inside its recreate |
| `Recreate.StandardIsOneStep` | db-migrate.ts:1502-1513 | a recreate as drizzle-kit writes it is found, whole, as one step |
| `Recreate.RestOfUnit` | db-migrate.ts:1475 | with the new table made, the rest of the unit fails for a column the old one lacks, else fails with a NOT NULL violation for a row with a null where the new table takes none, else copies every row over and puts the new table in the old one's place |
| `Recreate.RecreateIsWholeOrNothing` | db-migrate.ts:1456-1485 | a recreate fits when the old table has the new one's columns and no others but the entry's own drops. Where it does not fit, the database is exactly as it was; where it fits and a row has a null in a column the new table makes NOT NULL, it stops the replay; else it runs whole, every row, kept cell and other table kept, the old indexes gone and the new NOT NULLs there |
| `Recreate.UnitStrictly` | db-migrate.ts:1592-1598 | where it fits, a recreate applied as a pending migration fails or does exactly what it does in a replay |
| `Recreate.StepSpares` | db-migrate.ts:1491-1537 | one step keeps every row and cell of a column it does not itself drop |
| `Recreate.FileSpares` | db-migrate.ts:1491-1537 | a whole file does, whatever else the database holds and however far past the file it is |
| `SqliteTables.PrefixCovers` | db-migrate.ts:1491-1537 | within the part a SQLite database is past, a table it has keeps all its columns and can regain only those ADD COLUMN gave it; any other table is as the journal has it |
| `SqliteTables.SqliteTablesConverge` | db-migrate.ts:1491-1537 | the tables of any step of a journal of plain statements and standard recreates, after a replay: the last snapshot's tables, each with all its columns, and each exactly unless a column that ADD COLUMN gave it was dropped by a recreate before there; a column more is such a one or one the table had since |
| `SqliteColumns.BackIs` | db-migrate.ts:1456-1485 | a column comes back if and only if a recreate has blocked and that one or a later recreate of the table drops it; a recreate blocks when it drops a column that the database had or ADD COLUMN gave the table, and does not fit what the database has with what was added |
| `SqliteColumns.SqliteColumnsExactly` | db-migrate.ts:1491-1537 | each of the last snapshot's tables ends with its columns there and exactly those that came back; the tables are the last snapshot's if and only if no recreate the database is past, of a table still there at the end, blocks |
| `SqliteColumns.AddedColumnComesBack` | db-migrate.ts:1456-1459 | an example: a column is added, dropped by a recreate, another is added, and the first one is back |
| `SqliteRows.StepStops` | db-migrate.ts:1478 | a step stops a SQLite replay if and only if the schema allows it and a row refuses it, by a NOT NULL or a unique index; otherwise its effect on the schema does not depend on the rows |
| `SqliteRows.OwnThrough` | db-migrate.ts:1491-1537 | told from the rows at the start: the replay gets as far as step k if and only if no row stops it before, at a recreate whose NOT NULL it breaks, a NOT NULL column without a default, or a unique index two rows clash on; then every row and cell of a column it had is kept |
| `SqliteRows.SqliteReplayConverges` | db-migrate.ts:1491-1537 | a SQLite database with the tables of any step: it gets through if and only if no row of its own stops it; then its schema, indexes and NOT NULLs included, is what the steps make of the one it had, cells are kept, and its tables are the last snapshot's if and only if no recreate blocks |
| `SqliteIndexes.IndexesThere` | db-migrate.ts:1491-1537 | where an index name always means the same index, a replay that gets through leaves all of the last snapshot's indexes there |
| `UpgradeGate.MissingFromSnapshot` | db-migrate.ts:490-504 | lists exactly the tables, and the columns of tables there, that the database lacks; none if and only if it holds the snapshot |
| `UpgradeGate.LackingIsTheDifference` | db-migrate.ts:490-504 | what is lacking is the difference of the tables, and of the columns of each table that is there |
| `UpgradeGate.PendingJournalEntries` | db-migrate.ts:986-1005 | the tags not recorded, in journal order, and the last recorded one |
| `UpgradeGate.PendingIsSuffix` | db-migrate.ts:986-1005 | when exactly the first n entries are recorded, the pending tags are the remaining suffix in order and the last applied tag is entry n - 1's |
| `UpgradeGate.FirstAreRecorded` | db-migrate.ts:898-905 | with no recovery needed, the distinct rows are exactly the first hashes (pigeonhole) |
| `UpgradeGate.RecordedIsPrefix` | db-migrate.ts:898-905 | with something recorded and nothing to recover from, the recorded hashes are the first `appliedCount` journal hashes, each once, and what is pending is the rest of the journal in order |
| `UpgradeGate.NothingToRecover` | db-migrate.ts:898-905 | both ways, with all files there and distinct hashes: with rows recorded there is nothing to recover from if and only if they are as many of the first journal hashes, each once; with none, if and only if there is no data |
| `UpgradeGate.RecoveryWithFilesMissing` | db-migrate.ts:898-905 | and for a journal some of whose files are missing: no more rows than entries, no data without rows, and each file there among the first entries recorded |
| `UpgradeGate.LabelIndex` | db-migrate.ts:540-551 | the label is the last entry the database has reached: all of its snapshot and nothing it drops |
| `UpgradeGate.SchemaLabel` | db-migrate.ts:526-552 | the scan computes that label |
| `UpgradeGate.LabelExactness` | db-migrate.ts:516-552 | every database at a snapshot is labelled with it, if and only if each entry shows from every earlier snapshot |
| `UpgradeGate.MarkedJournalsLabelExactly` | db-migrate.ts:516-552 | which holds when each later entry adds a name no earlier snapshot has or drops a column every earlier one has |
| `UpgradeGate.LabelSafety` | db-migrate.ts:521-525 | no database at a snapshot is labelled at or past a drop it is not past, if and only if after a drop every later entry shows too |
| `UpgradeGate.NeutralEntryHidesADrop` | db-migrate.ts:521-525 | the counterexample: a drop followed by an entry that changes no column |
| `UpgradeGate.AssertNotFromNewerRelease` | db-migrate.ts:580-602 | refuses exactly a database that recorded every file of this journal and a migration it does not have |
| `UpgradeGate.DroppedAfterBaseline` | db-migrate.ts:555-578 | collects exactly the baseline names some later snapshot lacks, or with the database given, some later snapshot it holds in full |
| `UpgradeGate.AssertSupportedUpgradePath` | db-migrate.ts:614-651 | the checks in order give the answer that `UpgradeGate.RefusedExactly` describes |
| `UpgradeGate.RefusedExactly` | db-migrate.ts:580-651 | exactly who gets which of the three refusals: nobody without data; a newer release's if it records properly more than the journal's hashes; else, with the baseline unrecorded, an older one's if it lacks something of the baseline that every later snapshot has, and an unknown one's if it lacks something that every later snapshot it holds in full has |
| `UpgradeGate.BaselineRecordedAccepted` | db-migrate.ts:630 | with the baseline recorded, a database is let through if and only if it does not record properly more than the journal's hashes; so always while a file is pending |
| `UpgradeGate.ClearedJournalAccepted` | db-migrate.ts:605-613 | a database exactly at any entry's snapshot with its hashes cleared is let through |
| `UpgradeGate.AcceptedWithoutBaseline` | db-migrate.ts:605-651 | without the baseline hash, accepted if and only if it is not from a newer release and whatever it lacks of the baseline is lacked by a later snapshot it holds in full; so each baseline column is there or absent from such a snapshot |
| `Migration.SquashLeavesNothingPending` | db-migrate.ts:855-861 | after a squash commits, every file is recorded, in journal order, the last snapshot held and nothing pending |
| `Migration.AllOrNothing` | db-migrate.ts:922-958 | wherever a start throws, schema, rows and data are exactly as before or complete: every file recorded and the whole last snapshot held; at most one of the two transactions changes anything |
| `Migration.BackedUpBeforeAnyChange` | db-migrate.ts:1007-1029 | an existing install is changed only after a backup of exactly what was there, or under the override; a refused one is not touched or backed up |
| `Migration.SuccessSettles` | db-migrate.ts:1090-1151 | a start without an error leaves exactly the journal's hashes recorded, each once |
| `Migration.SettledStartsAreIdle` | db-migrate.ts:898-905 | a start on such an install changes nothing and writes no backup, wherever it throws |
| `Migration.SecondStartChangesNothing` | db-migrate.ts:861 | so a second start after a successful one changes nothing |
| `Migrator.Connection.ReplayStatementsPg` | db-migrate.ts:801-823 | replays a file as `Replay.ReplayAll` does, or stops where that stops, or a query threw |
| `Migrator.Connection.ReplayRecreateSqlite` | db-migrate.ts:1460-1485 | replays one recreate under one savepoint, as `Recreate.ReplayUnit` does |
| `Migrator.Connection.ReplaySingleSqlite` | db-migrate.ts:1531-1536 | replays one statement outside a recreate |
| `Migrator.Connection.ReplayStatementsSqlite` | db-migrate.ts:1491-1537 | finds and replays the steps of a file as its plan says |
| `Migrator.Connection.ApplyStatements` | db-migrate.ts:825-837 | a pending file: all statements apply, or the first error stops it |
| `Migrator.Connection.Rollback` | db-migrate.ts:955-958 | restores database and rows to what they were at BEGIN |
| `Migrator.Connection.ReplayJournal` | db-migrate.ts:930-946 | clears the rows, replays every file there is and records its hash, in order |
| `Migrator.Connection.ApplyPending` | db-migrate.ts:1125-1139 | applies and records exactly the files not recorded before, in order |
| `Migrator.Connection.Finish` | db-migrate.ts:947-958 | commits only a run that went through with the whole last snapshot held; anything else is rolled back |
| `Migrator.Connection.WriteBackup` | db-migrate.ts:922-925 | a backup of the database as it is, under the label |
| `Migrator.Connection.HandleSquashUpgrade` | db-migrate.ts:863-981 | the recovery as `Migration.Squash` says, its reads before the backup included, throwing exactly when a query threw |
| `Migrator.Connection.RunPending` | db-migrate.ts:1057-1160 | the pending stage as `Migration.Pending` says, the drift check when nothing is pending included |
| `Migrator.Connection.Run` | db-migrate.ts:1044-1160 | a whole start: database, rows, backups and error are those of `Migration.Migrate`, with an outside failure if and only if a query threw |
| `SquashTheorems.EntriesReplayFlat` | db-migrate.ts:930-946 | on PostgreSQL the recovery is one replay of the journal's statements end to end |
| `SquashTheorems.SquashIsTheOnlyChange` | db-migrate.ts:861 | after a committed recovery the rest of the start changes nothing: the database is the replay's and the rows are the journal's hashes in order |
| `SquashTheorems.RecoveryReplay` | db-migrate.ts:930-953 | the recovery's replay gets through with the last snapshot held if and only if the database's rows break no NOT NULL of the journal and clash on no unique index made since |
| `SquashTheorems.SquashEndsAtLastSnapshot` | db-migrate.ts:849-862 | a lawful PostgreSQL database at any statement of the journal, in need of a recovery and let through: with nothing failing outside and a backup or the override, the recovery commits if and only if its rows allow it in that sense; whenever it commits, the database is exactly at the last snapshot with every kept cell; and when it does not, nothing has changed |
| `SquashTheorems.ClearedJournalRecovers` | db-migrate.ts:849-862 | so a database exactly at any entry whose migration rows are cleared recovers, to exactly the last snapshot, if and only if its rows allow it |
| `SquashTheorems.NothingToRefuse` | db-migrate.ts:849-862 | which they do whatever they are when the journal asks for no NOT NULL that rows can break and makes no unique index from there on |
| `SquashSqlite.EntriesReplaySteps` | db-migrate.ts:1491-1537 | on SQLite the recovery is one replay of the journal's steps end to end |
| `SquashSqlite.RecreateBySnapshots` | db-migrate.ts:1456-1522 | told by the snapshots, whatever the table has: an entry's recreate runs if and only if the table has the new one's columns and besides only columns that the snapshot before has and the entry's has not; else nothing changes; where it runs, a null the new table does not take stops the replay, and otherwise the table has exactly the new columns |
| `SquashSqlite.RecreateFollowsSnapshots` | db-migrate.ts:1512-1522 | so a table exactly as the snapshot before has it is left exactly as the entry's has it, or stops the replay at a null; one with a column neither has is left alone |
| `SquashSqlite.SqliteRecoveryReplay` | db-migrate.ts:1681-1707 | the recovery's replay gets through with the last snapshot held if and only if no row of the database stops it and the last snapshot's indexes are there after it |
| `SquashSqlite.SqliteSquashTables` | db-migrate.ts:1623-1719 | a SQLite database with the tables of any step of the journal, in need of a recovery and let through: with nothing failing outside and a backup or the override, the recovery commits if and only if its rows and indexes allow it in that sense, and otherwise nothing has changed; whenever it commits, each of the last snapshot's tables has its columns and exactly those that came back, none if and only if no recreate blocks, and every cell is kept |
| `SquashSqlite.RowsDecideSqlite` | db-migrate.ts:1681-1707 | where an index name always means the same index, the rows alone decide that |
| `SquashSqlite.SquashKeepsForeignColumns` | db-migrate.ts:1456-1459 | a SQLite database keeps through a recovery every row and cell of a column that no entry drops by a statement and no snapshot drops against the one before, whatever release it came from |
| `SquashSqlite.DroppedColumnCanComeBack` | db-migrate.ts:1456-1459 | the price of that, as an example: a SQLite database exactly at the last snapshot gets a column back that the journal dropped, with the replay complete |
| `SquashTheorems.BackupIsLabelledWhereItStands` | db-migrate.ts:909-925 | the backup of a database at entry i's snapshot, journal cleared, carries entry i's tag |
| `PendingTheorems.StrictRunFollows` | db-migrate.ts:825-837 | on either dialect, recreates and renames included: a database at a snapshot is at the journal's own snapshot after every statement that applies |
| `PendingTheorems.StrictRunDecided` | db-migrate.ts:825-837 | a database at any statement of a plain journal takes the rest, none skipped, if and only if its rows break no NOT NULL and clash on no unique index made from there on; then its rows and cells are kept |
| `PendingTheorems.GoesStraightToPending` | db-migrate.ts:1090-1116 | an install that records the journal's beginning, or nothing and has no data, with an entry pending, needs no recovery and is not refused |
| `PendingTheorems.PendingDecides` | db-migrate.ts:1090-1151 | so, wherever the start throws, its pending files alone decide: they commit exactly when they apply with the last snapshot held, and are recorded after the rest in journal order; an install with data is backed up first, under the tag of the last entry recorded |
| `PendingTheorems.PendingEndsAtLastSnapshot` | db-migrate.ts:1117-1151 | a database on either dialect at the snapshot of its recorded entries is neither refused nor recovered, and is exactly at the last snapshot once its pending migrations commit; on PostgreSQL, with nothing failing outside and a backup written or not needed, they commit if and only if its rows take the rest |
| `PendingTheorems.FreshInstallCommits` | db-migrate.ts:1117-1151 | so a fresh PostgreSQL install always commits, exactly at the last snapshot |
| `PendingSqlite.StepsRunStrictly` | db-migrate.ts:1592-1598 | a SQLite database exactly at a step of the journal takes the rest, none skipped, if and only if none of its rows refuses a statement or recreate from there on; then it is exactly at the journal's own schema, cells kept |
| `PendingSqlite.SqlitePendingCommits` | db-migrate.ts:1784-1835 | a SQLite database exactly where its rows say is neither refused nor recovered; with nothing failing outside and a backup written or not needed, its pending migrations commit if and only if none of its rows refuses one of their steps, and it is exactly at the last snapshot then |
| `PendingSqlite.FreshSqliteCommits` | db-migrate.ts:1784-1835 | so a fresh SQLite install always commits, exactly at the last snapshot |
| `Diffs.ReadDiff` | scripts/check-commit.ts:294-336 | the loop reads a diff as the line-by-line reader does |
| `Diffs.ReadOne` | scripts/check-commit.ts:327-333 | a hunk line is read by its mark alone, whatever its own text looks like |
| `Diffs.ReadNotes` | scripts/check-commit.ts:327-335 | git's notes on a missing last newline are read past and do not end a group |
| `Diffs.ReadFile` | scripts/check-commit.ts:306-335 | one rendered file, whatever its `diff --git` line, other headers and hunk headers, reads back as itself, with the group numbers of its changes |
| `Diffs.RoundTrip` | scripts/check-commit.ts:293-336 | any edit scripts rendered as a diff, with any names on the git lines, any text on the `@@` lines and notes on missing newlines, read back to exactly both sides' hunk lines, the removed and added lines marked and each maximal run one group |
| `Diffs.PrintedRoundTrip` | scripts/check-commit.ts:293-336 | so does the text git prints, whose last line is empty |
| `InOrder.BuildTable` | scripts/check-commit.ts:1190-1198 | the table holds the length of a longest matching of every two tails |
| `InOrder.NoneLonger` | scripts/check-commit.ts:1190-1198 | no matching of two tails is longer than that |
| `InOrder.LongestInOrder` | scripts/check-commit.ts:1186-1208 | the pairs have equal keys and increase strictly on both sides, and no such pairing is longer |
| `MatchCode.PairingStaysSound` | scripts/check-commit.ts:1244-1247 | one more pair of unused lines with equal keys keeps the pairing one to one |
| `MatchCode.MatchInPlace` | scripts/check-commit.ts:1221-1249 | the first pass pairs changed lines one to one, keys kept, each within its own change group and in order on both sides, and each group by a longest in-order matching |
| `MatchCode.NoLongerMatching` | scripts/check-commit.ts:1186-1249 | told by the changed lines alone: no matching of a group's changed lines, in order on both sides and with equal keys, is longer than the pairs the pass leaves within that group |
| `MatchCode.CollectSources` | scripts/check-commit.ts:1252-1262 | every open old line is listed under its key, files and lines in order |
| `MatchCode.MeasureRun` | scripts/check-commit.ts:1281-1289 | how far the lines agree from there |
| `MatchCode.BestRun` | scripts/check-commit.ts:1278-1291 | the longest run there is from a new line, over all old lines, and the first of those as long |
| `MatchCode.TakeRun` | scripts/check-commit.ts:1297-1302 | pairs the run line by line, consecutive on both sides |
| `MatchCode.CollectStatements` | scripts/check-commit.ts:1155-1161 | the first statement that starts on each line and the last that ends on each |
| `MatchCode.WholeMeans` | scripts/check-commit.ts:1263-1268 | a run is whole if and only if, on both sides, some statement starts on its first line and that one or a later one ends on its last |
| `MatchCode.MatchMoved` | scripts/check-commit.ts:1269-1311 | scanning a file keeps all of that, each run it takes is the first longest on what the earlier ones left, and no wanted line it passed has an open old line left |
| `MatchCode.AddOpenOld` | scripts/check-commit.ts:1312-1320 | adds exactly the old lines still open |
| `MatchCode.LeftoversAreTheDifference` | scripts/check-commit.ts:1210-1218 | what an exhausted pairing leaves of each key is the difference of its two multiplicities |
| `MatchCode.NothingLeftWhenBalanced` | scripts/check-commit.ts:1210-1218 | nothing is left if and only if every key is as often on both sides |
| `MatchCode.MatchCode` | scripts/check-commit.ts:1210-1323 | the whole check: a one-to-one, key-preserving pairing, each change group matched in order as long as can be, every other pair on a run consecutive on both sides, the runs taken from top to bottom, each the longest there is from its line on what the earlier ones left and the first of those; the broken runs; the lines moved between files; and as unexplained exactly the multiset difference |
| `Procedures.PickInOrder` | scripts/check-commit.ts:984-997 | finds every key if and only if they are a subsequence of the literal's removed, unclaimed properties, and takes the earliest places |
| `Procedures.FirstUnclaimed` | scripts/check-commit.ts:1000-1006 | the first mount not claimed |
| `Procedures.TryLiteral` | scripts/check-commit.ts:982-1037 | finds the part's move from a literal if there is one: whole, from another file, the earliest unclaimed places and mount, no line cut before; and none only when there is none |
| `Procedures.OneCandidate` | scripts/check-commit.ts:982-1026 | a part has at most one such move from a literal |
| `Procedures.AddMove` | scripts/check-commit.ts:1038-1042 | so one more keeps all moves apart |
| `Procedures.RecordCuts` | scripts/check-commit.ts:1038-1040 | every cut of every move is among the recorded spans |
| `Procedures.CutMovedProcedures` | scripts/check-commit.ts:962-1075 | no property, mount or line is used by two parts, each part's properties come in their old order from one literal, and each part gets the first move there is for it after the parts before it, none only when there is none |
| `Procedures.MovesAreWhole` | scripts/check-commit.ts:982-1026 | spelled out: each property of a moved part was, token for token and in the same order, a removed one of one literal of another file, and the mount is one that mounts it there |
| `Procedures.NothingIsUsedTwice` | scripts/check-commit.ts:1041-1042 | no property or mount is used by two parts |
| `Procedures.NoLineIsCutTwice` | scripts/check-commit.ts:1008-1037 | and whatever two moves cut on one side of a file, properties, mounts or the parts themselves, shares no line |
| `Procedures.ApartShareNoLine` | scripts/check-commit.ts:953-960 | which is what the comparison of two spans says |
| `Procedures.CutsAre` | scripts/check-commit.ts:1038-1040 | the recorded spans are those of the moves made and no others |
| `Procedures.PlaceIsFound` | scripts/check-commit.ts:982-1037 | a part whose properties are all there, in order, among those removed from a literal of another file that mounts it, moves from there when nothing is claimed or cut yet |
| `Groups.Forest.Find` | scripts/ratchets/moves.ts:85-91 | terminates, returns the representative, points the file at it, and changes nobody's representative |
| `Groups.Forest.Join` | scripts/ratchets/moves.ts:92-96 | the files of one representative get the other's, the rest keep theirs |
| `Groups.JoinedPartition` | scripts/ratchets/moves.ts:92-96 | if the partition was connectedness by the pairs so far, it is connectedness by one pair more |
| `Groups.GroupsOf` | scripts/ratchets/moves.ts:82-98 | two files share a representative if and only if a chain of moves connects them |
| `Groups.PartitionIsDetermined` | scripts/ratchets/moves.ts:82-98 | so the groups do not depend on the order the moves are read in |
| `Lists.SumsByKey` | scripts/ratchets/moves.ts:101-112 | one pass gives each key the sum of its counts, and no other key |
| `Lists.TotalsFollowSums` | scripts/ratchets/moves.ts:100-112 | if no key's sum is larger, the total is not |
| `ParseDiff.Parse` | scripts/ratchets/moves.ts:23-51 | the loop parses a diff as the line-by-line parser does |
| `ParseDiff.ParseRoundTrip` | scripts/ratchets/moves.ts:22-51 | any edit scripts rendered and parsed give each file exactly its added and deleted lines, in order, and list exactly the files that have one |
| `ParseDiff.ParsersAgree` | scripts/check-commit.ts:294-336 | both parsers over the text git prints for any edit scripts: for every file name, the texts the commit check marks as changed in the files of that name, one after another, are the added and deleted lines the ratchets parse, which are the ones the scripts have |
| `Counts.SuppressionRises` | scripts/ratchets/counts.ts:97-134 | a rise for exactly the groups and rules whose count is larger, by how much |
| `Counts.NoRiseKeepsTotals` | scripts/ratchets/counts.ts:97-134 | without one, no rule's count over the repository is larger, whatever the groups |
| `Counts.SuppressionsNeverGrow` | scripts/ratchets/counts.ts:97-134 | over any run of commits, whatever each one's moves |
| `Counts.ExportRises` | scripts/ratchets/counts.ts:176-193 | exactly the new exports after their symbol has used up the exports it lost, in order; for each symbol, as many as its new exports exceed those it lost |
| `Counts.RegisterRises` | scripts/ratchets/counts.ts:154-195 | exactly the lowered risks, the rows added to the high-risk list and, last and in order, the unmatched new exports; none if and only if no risk is lowered, no high-risk row added and no symbol gains exports |
| `Counts.RisksAreOrdered` | scripts/ratchets/counts.ts:141 | high is above medium, medium above low, anything else below |
| `Counts.ShrinkingRegisterIsNoRise` | scripts/ratchets/counts.ts:154-195 | dropping rows and exports is never a rise |
| `Counts.MovedExportIsNoRise` | scripts/ratchets/counts.ts:142-147 | nor is an export that moved to another path |
| `Counts.RegisterNeverGrows` | scripts/ratchets/counts.ts:142-147 | over any run of registers without repeated entries, no symbol has more unregistered exports and the high-risk list gains no row |
| `Counts.RisksNeverLowered` | scripts/ratchets/counts.ts:142-147 | over any run without a rise, a row that is there throughout never has its risk lowered: high stays high, medium never becomes low |
| `Counts.RepeatsAreUnseen` | scripts/ratchets/counts.ts:142-147 | a register has no more unregistered exports of any symbol than any base it has no rise against, if and only if it writes no entry twice |
| `Counts.RepeatedEntryIsUnseen` | scripts/ratchets/counts.ts:181-183 | an example: an entry written twice grows the list without a rise |
| `Counts.FileRises` | scripts/ratchets/counts.ts:32-53 | exactly the groups whose files, new ones within the limit left out, have more lines than the base recorded |
| `Counts.CountedFrom401` | scripts/ratchets/counts.ts:21-31 | a new file counts from 401 lines, a recorded one whatever its length |
| `Counts.NoRiseKeepsFiles` | scripts/ratchets/counts.ts:21-25 | without one, those files have no more lines over the repository than were recorded |
| `Counts.OnlyFreeLinesAreGained` | scripts/ratchets/counts.ts:21-25 | and the recorded total grows by no more than the lines of new files within the limit |
| `Counts.FilesGrowByFreeLines` | scripts/ratchets/counts.ts:21-25 | nor does it over any run of commits, by more than those lines added up |
| `Counts.GainedIfAndOnlyIfFree` | scripts/ratchets/counts.ts:21-25 | that bound is met: for any head without a rise some base with the same files makes it an equality; so the head has no more lines than any base with these files it has no rise against, if and only if it has no line in a new file within the limit |
| `Counts.FreePartsAddUp` | scripts/ratchets/counts.ts:22-23 | an example: a part within the limit is free when first recorded |
| `Counts.FunctionRises` | scripts/ratchets/counts.ts:54-92 | exactly the groups whose recorded functions grew in total or whose longest one did |
| `Counts.FunctionsNeverGrow` | scripts/ratchets/counts.ts:54-92 | over any run, neither the total nor the longest recorded function grows |
| `CodeLimits.BundleRises` | scripts/ratchets/code-limits.ts:100-134 | exactly the limits that are looser, page by page; what that means is `CodeLimits.NoRiseIsNoLooser` |
| `CodeLimits.AboveAllowsMore` | scripts/ratchets/code-limits.ts:100-134 | a limit is above another if and only if it allows some size the other does not |
| `CodeLimits.NoRiseIsNoLooser` | scripts/ratchets/code-limits.ts:70-135 | there is no rise if and only if neither the default nor the chunk limit is looser and no page, listed or not, before or after, is held to a looser limit than before |
| `CodeLimits.PageBudgetNeverRises` | scripts/ratchets/code-limits.ts:70-135 | over any run, a page that is there throughout is never held to a looser limit, listed, unlisted or listed again |
| `CodeLimits.Trace` | scripts/ratchets/code-limits.ts:289-304 | the walk ends, also on moves in a circle |
| `CodeLimits.TracedExactly` | scripts/ratchets/code-limits.ts:289-304 | it finds an old entry if and only if the entry was there itself or under the name of a file any number of moves back |
| `CodeLimits.ListRises` | scripts/ratchets/code-limits.ts:305-328 | exactly the entries that were not there and the old entries whose summed count is larger, with the excess; none if and only if there is no such entry |
| `CodeLimits.ShrinkingIsNoRise` | scripts/ratchets/code-limits.ts:273-328 | dropping entries and lowering counts is never a rise |
| `CodeLimits.ListsNeverGrow` | scripts/ratchets/code-limits.ts:273-277 | over any run, whatever the moves, no list's total count grows |
| `CodeLimits.UncountedEntriesCanMultiply` | scripts/ratchets/code-limits.ts:313 | two entries without a count can be one old entry, and the list is longer |
| `CodeLimits.DistinctPastsExactly` | scripts/ratchets/code-limits.ts:273-277 | list by list, without a rise: its entries are different old entries if and only if no part of the old listing that shows no rise either, with every entry traced as before, has fewer entries in that list |
| `CodeLimits.ListsNeverLengthen` | scripts/ratchets/code-limits.ts:273-277 | over any run without a rise in which a list's entries are different old entries each time, the list never has more entries |
| `CodeLimits.DistinctPastsDoNotMultiply` | scripts/ratchets/code-limits.ts:273-277 | if no two entries of a listing are the same old one, all its lists together have no more entries |
| `Layers.ApplyEntryMoves` | scripts/check-layers.ts:111-135 | each trailer re-points the first entry it fits that is gone from the list, and is an error only when none fits and none is on the new edge |
| `Layers.OneMoreTrailer` | scripts/check-layers.ts:111-135 | one more trailer moves the first entry on its old edge that is gone from the current list, and no other; it is an error if and only if there is none and no entry is on the new edge |
| `Layers.MovesKeepRules` | scripts/check-layers.ts:104-135 | the list keeps its length and each place its rule, and entries still on the current list stay |
| `Layers.Renamed` | scripts/check-layers.ts:185-194 | each path is replaced by its new one on both ends of every edge; length and rules stay |
| `Layers.RenamedBack` | scripts/check-layers.ts:185-194 | renamed and renamed back one to one, a list is as it was |
| `Layers.CompareWithKnown` | scripts/check-layers.ts:138-172 | exactly the found but not listed, the added, the stale and the bad trailers; nothing if and only if the comparison is clean |
| `Layers.CleanWithoutMoves` | scripts/check-layers.ts:138-172 | without trailers a comparison is clean if and only if found and listed are the same and every listed entry of a base rule is on the base list |
| `Layers.CleanListNeverGrows` | scripts/check-layers.ts:138-172 | with nothing to report, found and listed are the same set, and a rule of the base has no more distinct entries than the base list |
| `Layers.RuleNeverGrows` | scripts/check-layers.ts:104-108 | over any run of clean comparisons of lists without repeats of a rule, that rule's entries never grow |
| `Layers.RepeatsCanSplit` | scripts/check-layers.ts:104-108 | a base list repeats no entry of a rule if and only if no clean comparison against it, for any known list and trailers, has more distinct entries of that rule |
| `Layers.RepeatedBaseEntryCanSplit` | scripts/check-layers.ts:104-108 | an example: an entry listed twice becomes two |
| `SizeBaseline.Check` | scripts/check-size-baseline.ts:209-247 | reports exactly what is over the limit, longer, shorter or gone |
| `SizeBaseline.NothingFailsIfExact` | scripts/check-size-baseline.ts:209-247 | nothing is reported if and only if every recorded file and function is measured at exactly what is recorded and no other file is over 400 lines |
| `SizeBaseline.Lowered` | scripts/check-size-baseline.ts:250-265 | computes the lowered baseline |
| `SizeBaseline.LoweredPassesUnlessGrown` | scripts/check-size-baseline.ts:249-265 | after lowering nothing is reported if and only if nothing had grown |
| `SizeBaseline.LoweredOnlyOnce` | scripts/check-size-baseline.ts:249-265 | lowering again changes nothing, and lowering adds no entry and raises none |
| `SizeBaseline.Moved` | scripts/check-size-baseline.ts:268-290 | applies the pairs in order and counts the refused ones |
| `SizeBaseline.OnePair` | scripts/check-size-baseline.ts:276-287 | a pair is applied if and only if the old file is gone, the new one measured and nothing recorded under the new path; then the old path's entries are under the new one; else nothing moves and it is a problem |
| `SizeBaseline.RenamedMoves` | scripts/check-size-baseline.ts:283-286 | an applied pair takes the old path's entry to the new path unchanged and touches no other |
| `SizeBaseline.MovesConserve` | scripts/check-size-baseline.ts:267-290 | any pairs leave the same entries under one-to-one new names, every count kept |
| `SizeBaseline.CarriedEntry` | scripts/check-size-baseline.ts:311-333 | the entry taken over is the one the order of its own key, a renamed body and a single same tail gives, if there is one |
| `SizeBaseline.CarriedExactly` | scripts/check-size-baseline.ts:311-333 | there is such an entry, and one only, if and only if the own key is unused, or the renamed body gives an unused one, or, with no rename, exactly one unused entry has the same tail |
| `SizeBaseline.RerootedText` | scripts/check-size-baseline.ts:322-327 | under a renamed body, the written key changes only in the body's name |
| `SizeBaseline.RecordFunctions` | scripts/check-size-baseline.ts:376-400 | each new function entry of a part comes from an old entry not used before, its own, the renamed body's or one with its tail, no longer than that and its signature lines |
| `SizeBaseline.Recorded` | scripts/check-size-baseline.ts:335-405 | without a problem: each part at its size, every new function from an old entry of its own (injectively), no longer than that and its signature, and parts plus remainder within the old entry plus the carried lines; and a problem only when a file does not fit or a function was not carried and its own entry is missing, taken or too short |
| `SizeBaseline.SplitByNameFits` | scripts/check-size-baseline.ts:376-400 | a split that moves each function under its own name, no two with the same tail, is no problem for its functions when none is longer than it was and its signature lines |
| `SizeBaseline.LinesAreTheTotal` | scripts/check-size-baseline.ts:335-405 | the lines a split adds up are the measured ones of its files |
| `RateLimit.Limiter.Hit` | src/lib/rate-limit.ts:37-65 | one request: a new window when the old one has ended, else counted in place; the verdict |
| `RateLimit.RequestsAreCounted` | src/lib/rate-limit.ts:32-65 | in any run, clears and purges included, a request that is the n-th of its key in its window, by their times, succeeds if and only if n is within the limit, with the rest of the limit remaining, and is the first exceedance if and only if n is the limit and one |
| `RateLimit.CountsAreRequests` | src/lib/rate-limit.ts:67-71 | and the count is that of the requests in the window open then |
| `RateLimit.Limiter.Count` | src/lib/rate-limit.ts:67-71 | the requests of the current window |
| `RateLimit.Limiter.Clear` | src/lib/rate-limit.ts:73-76 | forgets one key |
| `RateLimit.Limiter.Purge` | src/lib/rate-limit.ts:18-24 | removes exactly the entries whose window has ended |
| `RateLimit.SuccessesWithinAllowance` | src/lib/rate-limit.ts:5-10 | from any state, the successes still possible in an interval are at most its allowance |
| `RateLimit.FewerThanTwiceTheLimit` | src/lib/rate-limit.ts:5-10 | over any run without clears of a key, any half-open interval of its window's length has fewer than twice the limit |
| `RateLimit.TheBoundIsMet` | src/lib/rate-limit.ts:5-10 | for every limit, and a window of 2 ms or more, some run has one fewer than twice the limit |
| `RateLimit.ExceedsOncePerWindow` | src/lib/rate-limit.ts:32-35 | the first exceedance is reported at most once in a window |
| `RateLimit.ExceedanceIsReported` | src/lib/rate-limit.ts:32-35 | and exactly once if the requests of the window exceed the limit |
| `RateLimit.ReportedOncePerWindow` | src/lib/rate-limit.ts:32-35 | so too in the window that a request opens |
| `RateLimit.SameLiveStep` | src/lib/rate-limit.ts:18-24 | stores that agree on live windows answer a request alike and still agree |
| `RateLimit.PurgesAreUnseen` | src/lib/rate-limit.ts:18-24 | wherever the timer fires, callers are told exactly what they would be told if it never did |
| `SignIn.KeysAreApart` | src/server/local-admin-login.ts:61-62 | an address's count and an email's are never the same entry |
| `SignIn.Throttle.Take` | src/server/local-admin-login.ts:64-67 | one attempt counted on a key |
| `SignIn.Throttle.Admit` | src/server/local-admin-login.ts:73-99 | which lock refuses an attempt, whether it is logged as the one that met the lock, and what is counted then |
| `SignIn.Throttle.Verified` | src/server/local-admin-login.ts:122-144 | only a sign-in clears the two counts |
| `SignIn.AddressWindow` | src/server/local-admin-login.ts:73-99 | in an address's window at most what is left of its five is still admitted |
| `SignIn.AddressWindowExactly` | src/server/local-admin-login.ts:73-99 | and exactly that many, or as many as are made that no email's lock refuses |
| `SignIn.AtMostFivePerAddress` | src/server/local-admin-login.ts:7-8 | at most five attempts of an address are admitted in a window |
| `SignIn.StepSpendsPotential` | src/server/local-admin-login.ts:76-82 | an admitted attempt past an email's ten uses up a clean address |
| `SignIn.AtMostTenAndOnePerAddress` | src/server/local-admin-login.ts:8-10 | in an email's window at most ten attempts and one per distinct address are admitted |
| `SignIn.RefusalKeepsEveryEnd` | src/server/local-admin-login.ts:71 | a refused attempt changes nothing but the count on the key that refused it, one more, and no window's end |
| `SignIn.BelowBothLimits` | src/server/local-admin-login.ts:76-83 | below five on the address and ten on the email an attempt is admitted |
| `SignIn.LockEndsOnTime` | src/server/local-admin-login.ts:11 | a locked address stays locked through any run of attempts and is free the moment its window ends |
| `SignIn.EmailLockEndsOnTime` | src/server/local-admin-login.ts:8-11 | a locked email lets in exactly the addresses without an attempt of their own, refuses one below its five by the email's lock and any other by its own, and refuses nobody once its window has ended |
| `SignIn.MarksStay` | src/server/local-admin-login.ts:64-67 | after any attempts and purges a window is marked as exceeded if and only if more than its limit is counted on it |
| `SignIn.LockIsMetAtTheLimit` | src/server/local-admin-login.ts:84-93 | so a refusal is logged as the lock if and only if exactly the limit was counted before it |
| `SignIn.AddressLockIsLoggedOnce` | src/server/local-admin-login.ts:84-93 | in an address's window the lock is logged exactly once if it refuses anything |
| `SignIn.EmailLockCanGoUnlogged` | src/server/local-admin-login.ts:84-98 | an example: an address let in past an email's ten takes the mark, and the refusals after it are logged as throttled only |

## Left out

- Migrator.Connection.Run: the migrations table is created outside both transactions, so it can be there after a failed start; a COMMIT that throws counts as rolled back (its outcome can be unknown); a backup is a copy of the database and rows, without its file, its pruning and, on SQLite, its lack of a label.
- Recreate.RecreateIsWholeOrNothing: the unit drizzle-kit writes (create, copy, drop, rename); a unit with other statements is replayed the same way but not characterised.
- SqliteTables.SqliteTablesConverge: bounds the columns of a table that regains one, also where an entry drops a column before its recreate; `SqliteColumns.SqliteColumnsExactly` says which there are where it does not.
- SquashSqlite.SqliteSquashTables: gives the indexes and NOT NULLs at the end as what the steps make of those at the start, and compares with the last snapshot only what the code checks, tables, columns and index names; the foreign-key check of the transaction, which can also refuse it, is not part of the model, nor for PendingSqlite.SqlitePendingCommits.
- Replay.StopsOnlyAtNulls: a foreign key or a check that a statement adds can stop the code too; neither is part of the model.
- Convergence.ReplayConverges: partial unique indexes, checks, foreign keys, changed defaults and INSERT, UPDATE or DELETE statements are not part of the model.
- Diffs.RoundTrip: a name git quotes (`core.quotePath`) and diffs of merges.
- Data converters before and after a file's SQL.
- IF EXISTS and IF NOT EXISTS forms, and SQL text: splitting files and recognising statements and error messages.
- `detectSchemaEra`: the label it would give is a parameter. Drizzle's own `migrate()` afterwards, the demo schemas, the upgrade banner and the tax-data reconcile.
- MatchCode.MatchCode: reports positions; turning them into file and line numbers, and the order of the two kinds of lines in one list, are left to the caller.
- Procedures.CutMovedProcedures: which node would mount a part, in the order they are met, is given, as are tokens and line spans.
- Import lines, re-exports, moved function bodies (`cutMovedBodies`), path normalisation (`withoutPaths`, `renamedNames`) and the wording of every report.
- `attributeMoves` and trailers: the move maps, entry moves and renames are inputs; `known-renamed.ts` lets two trailers name one entry and promises nothing one to one.
- `coverageRises` and the order `sortViolations` gives: single comparisons that would only add easy members.
- Counts.SuppressionRises: a group and a rule are a pair; the source joins them with a NUL character.
- SizeBaseline.Recorded: problems are counted, not worded; a key's dots beyond the first are part of its rest.
- Password hashing and its timing, the client address, the log's wording and the admin lookup.
