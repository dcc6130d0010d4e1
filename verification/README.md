# Celebration backend core, modelled in Dafny

This project models the data-keeping core of a small celebration web backend. The backend stores guest
messages and photo memories in a SQLite database, in two content tables, `messages` and
`memories`. The core has four parts:

- **Backup restoration** (`backup_restoration.py`). At startup, the store is repopulated from a
  `backup.sql` dump when the dump exists and both content tables are empty. The dump itself is
  written by `create_backup`: a header, `BEGIN TRANSACTION;`, one `INSERT` per row of each table,
  and `COMMIT;`. Every value is quote-doubled, and NULL is written as a bare keyword.
- **Schema migration** (`db_Setup.py`). `migrate_database` appends the declared columns
  `storage_type` and `file_size` to `memories` when the live schema lacks them. It does one
  ALTER at a time, reports a failed ALTER and goes on, and commits once at the end.
- **JSON to SQL conversion** (`json-to-sql.py`). Exported message and memory lists become a SQL
  script shaped like the dump.
- **Keep-alive pinger** (`keep_alive.py`). Its bookkeeping is modelled:
  - the active flag, the success, failure and request counters, and the thread list;
  - the retry schedule with exponential backoff, 5·2^r seconds capped at 60;
  - the critical alert after `failure_threshold` consecutive failures;
  - the rule that a response with status 500 or above is a failure;
  - the log-level filter.

Modules, one per file:

| file | module | what it holds |
|---|---|---|
| `wrappers.dfy` | `Wrappers` | `Option` |
| `sql_literal.dfy` | `SqlLiteral` | The quote-doubling rule and its inverse. The literal encoder (NULL or a quoted text) and its decoder. The INSERT line. |
| `store.dfy` | `Store` | The store, kept abstract: tables, statements, `Step`/`Run` and a `Database` connection class. A connection's changes become durable only at a commit; closing it drops what was not committed. |
| `backup_restoration.dfy` | `BackupRestoration` | The restore decision, the dump, the restore, the `BackupRestorer` class and `AutoRestoreBackupOnInit`. |
| `db_setup.dfy` | `Migration` | The migration plan, its closed form `Outcome`, and the imperative `MigrateDatabase`. |
| `json_to_sql.dfy` | `JsonToSql` | The converter's per-record literals, its sections and its script. |
| `keep_alive.dfy` | `KeepAlive` | The ping decision and its properties, and the `BackendKeepAlive` class. |

Inputs the model takes as parameters:
- the outcome of every HTTP request;
- the current time;
- whether the backup file exists or could be opened;
- the parsed JSON lists, as `None` when a file could not be loaded;
- the ALTERs the store refuses for reasons outside the model, as the set `rejected`.

Where the code does less than a restore or migration would be expected to do, the model follows the code:
- **Atomic failure.** A restore whose script fails is not rolled back by the code. The earlier
  inserts stay in the connection and are dropped only because the connection is closed without a
  commit. `FailedRestoreDiscarded` and `AutoRestoreBackupOnInit` state this effect. It holds only
  for a script that fails. A dump cut off after whole INSERT lines, so with no COMMIT line, runs to
  completion. Restore's own `conn.commit()` then makes durable exactly the rows read before the
  cut (`TruncatedDumpCommitted`).
- **Column defaults.** The migration issues no separate default backfill. It relies on the
  ALTER's own `DEFAULT`, which the model does not represent (see "Left out").
- **A missing `memories` table is not fatal.** Introspection then returns no columns, every
  ALTER fails, and the run reports both columns as failed.

## Model

| member | source | states |
|---|---|---|
| SqlLiteral.Escape | backup_restoration.py:181 | Quote doubling never shortens a text and leaves a quote-free text unchanged. |
| SqlLiteral.EscapeWellEscaped | backup_restoration.py:181 | Every escaped text has its quotes in doubled pairs. |
| SqlLiteral.UnescapeEscape | backup_restoration.py:181 | Undoubling an escaped text gives back the original. |
| SqlLiteral.EscapeUnescape | backup_restoration.py:181 | Every well-escaped text is the escape of its undoubling, so the escape maps onto exactly the well-escaped texts. |
| SqlLiteral.EscapeInjective | backup_restoration.py:181 | Distinct texts escape to distinct texts. |
| SqlLiteral.Encode | backup_restoration.py:180-183 | A value is written as `NULL` exactly when it is NULL. Any other value is wrapped in quotes, so NULL and the text "NULL" stay apart. |
| SqlLiteral.EncodeDecode | backup_restoration.py:180-183 | Decoding an encoded value gives the value back. |
| SqlLiteral.DecodeEncode | backup_restoration.py:180-183 | Every decodable literal is the encoding of what it decodes to. |
| SqlLiteral.EncodeInjective | backup_restoration.py:180-183 | Distinct values get distinct literals. |
| SqlLiteral.EncodeAllDecodes | backup_restoration.py:180-184 | A row's VALUES list has one literal per column value, and each literal decodes to that value. |
| SqlLiteral.ScriptLayout | backup_restoration.py:169-201 | Layout of a five-line header, two blocks of lines, a blank line, and a blank line plus COMMIT: its length, where each block's lines sit, and that COMMIT is last. |
| Store.Columns | backup_restoration.py:176-177 | table_info of a missing table lists no columns. |
| Store.Count | backup_restoration.py:55-60 | COUNT(*) succeeds exactly on an existing table. |
| Store.RowForAllColumns | backup_restoration.py:184 | An INSERT listing every column of its table, in table order, stores the row exactly as given. |
| Store.Step | backup_restoration.py:102 | Within the failures the model represents, a statement fails exactly when it is an INSERT into a missing table or with columns the table lacks. Only COMMIT changes what is durable. An INSERT creates and drops no table. |
| Store.RunStopsAtFailure | backup_restoration.py:102 | A script that stops names one of its own statements, and that statement fails in the state reached. |
| Store.StoppedBeforeCommit | backup_restoration.py:102-103 | A script that stops before any COMMIT has changed nothing durable. |
| Store.RunConcat | backup_restoration.py:102 | Running two scripts back to back is running their concatenation; a failure's position is counted in the whole script. |
| Store.RunTransaction | backup_restoration.py:171-201 | BEGIN, two batches that complete, then COMMIT: the script completes, and the result is durable. |
| Store.StepPreservesWellFormed | backup_restoration.py:102 | A statement that runs keeps every table's rows as wide as its columns, and its column names distinct. |
| Store.RunPreservesWellFormed | backup_restoration.py:102 | The same holds for a whole script, whether it completes or stops. |
| Store.WithColumn | db_Setup.py:30-31 | An added column goes last. Every row keeps its place and its values, and gains NULL in the new column. |
| Store.WithColumnWellFormed | db_Setup.py:30-31 | Adding a column the table lacks keeps the table well formed. |
| Store.Database.constructor | backup_restoration.py:227 | A fresh connection sees exactly the durable store. |
| Store.Database.CountRows | backup_restoration.py:55-60 | Returns the row count, or failure for a missing table. |
| Store.Database.TableInfo | db_Setup.py:17-18 | Returns the live column names of the table. |
| Store.Database.Select | backup_restoration.py:174-177 | Returns the table's columns and rows, or failure for a missing table. |
| Store.Database.Commit | backup_restoration.py:103 | Makes the connection's view durable and counts one commit. |
| Store.Database.Close | backup_restoration.py:238 | Discards every uncommitted change. |
| Store.Database.Execute | backup_restoration.py:102 | Runs one statement as Step says and reports whether it ran. |
| Store.Database.ExecuteScript | backup_restoration.py:102 | Runs statements in order until one fails. Reports the failing position; the effects of earlier statements stay. |
| Store.Database.AddColumn | db_Setup.py:29-34 | Succeeds exactly when the table exists, lacks the column, and the store does not refuse. On success the column is appended; on failure the table is untouched. Nothing is committed. |
| BackupRestoration.ShouldRestoreRule | backup_restoration.py:47-76 | Restore exactly when the backup exists and both tables can be counted and hold zero rows. A failed count means do not restore. |
| BackupRestoration.NoBackupNoRestore | backup_restoration.py:47-49 | Without a backup file the answer is no. |
| BackupRestoration.PopulatedNeverRestored | backup_restoration.py:64-69 | A content table with at least one row vetoes restoration, so a restore never merges into existing data. |
| BackupRestoration.InsertsFor | backup_restoration.py:179-184 | One INSERT per row, in row order, each naming the table's columns. |
| BackupRestoration.DumpLayout | backup_restoration.py:167-201 | The dump has 8 lines besides one INSERT line per row. BEGIN follows the header; the messages inserts, then the memories inserts, sit at fixed positions; COMMIT is last. |
| BackupRestoration.DumpLinesHoldScript | backup_restoration.py:167-201 | With comment and blank lines dropped, the dump file's lines are exactly the rendered statements of the dump script. |
| BackupRestoration.InsertsRun | backup_restoration.py:184 | One table's inserts, run against that table with its columns, append exactly the dumped rows in order. |
| BackupRestoration.TwoTablesRun | backup_restoration.py:171-201 | A transaction holding the inserts of two distinct tables completes, and leaves both tables' rows durable. |
| BackupRestoration.DumpRoundTrip | backup_restoration.py:147-201 | Restoring a dump into a store whose two tables are empty, with the same columns, completes. It yields exactly the dumped rows of both tables, committed. |
| BackupRestoration.RestoreOfDump | backup_restoration.py:97-123 | Restoring a dump into such a store returns success, and counts exactly the dumped messages plus the dumped memories. |
| BackupRestoration.FailedRestoreDiscarded | backup_restoration.py:100-131 | A restore whose script fails before its only COMMIT leaves the durable store and the commit count as they were. |
| BackupRestoration.TruncatedDumpCommitted | backup_restoration.py:100-123 | A dump cut off after any number k of whole INSERT lines, so with no COMMIT, completes. Restore's commit then makes durable exactly the first k dumped rows, messages first and then memories. |
| BackupRestoration.DumpCommitsOnlyAtEnd | backup_restoration.py:171-201 | The dump's only COMMIT is its last statement. |
| BackupRestoration.BackupRestorer.constructor | backup_restoration.py:21-32 | Records the paths and whether the backup file exists; no record has been restored yet. |
| BackupRestoration.BackupRestorer.ShouldRestore | backup_restoration.py:34-76 | Answers as ShouldRestoreRule on the connection's current tables. |
| BackupRestoration.BackupRestorer.Restore | backup_restoration.py:78-131 | Within the failures the model represents, succeeds exactly when the file exists and is read, the whole script runs, and both tables can be counted. Leaves the store as AfterRestore says: a completed script committed, a failed one uncommitted. On success, records the content rows now present; otherwise keeps the old count. |
| BackupRestoration.BackupRestorer.GetStatus | backup_restoration.py:133-145 | Reports whether the file exists, both paths, and the restored count. |
| BackupRestoration.BackupRestorer.CreateBackup | backup_restoration.py:147-209 | Within the failures the model represents, succeeds exactly when the output is writable and both tables exist. On success the lines written are the dump of the current tables. A missing table stops the dump after what was already written. |
| BackupRestoration.AutoRestoreBackupOnInit | backup_restoration.py:212-243 | Restores only when the decision says so, then closes the connection. Afterwards the store holds what was durable, and the restored count is set only by a successful restore. Without a connection nothing is restored. |
| Migration.PlanMembers | db_Setup.py:27-28 | The columns the run tries to add are exactly the declared names absent from the live schema. |
| Migration.KeepMembers | db_Setup.py:29-34 | An ALTER that the store refuses is the only reason a planned column is not added. |
| Migration.RejectionIsLocal | db_Setup.py:27-36 | A refused ALTER costs only its own column: every other planned column is still added. |
| Migration.AllDeclaredPresent | db_Setup.py:22-36 | Without refusals, every declared column is present after the run. |
| Migration.MigrationIdempotent | db_Setup.py:27-36 | A second run adds nothing and leaves the column list as the first run left it. |
| Migration.OutcomeColumns | db_Setup.py:27-43 | After a run, memories has its old columns followed by the added ones, in declared order. |
| Migration.MigrateColumn | db_Setup.py:28-36 | One loop turn: a declared column the schema has is skipped. A missing one is added, or reported as failed, with the other tables untouched. Nothing durable changes in a turn. |
| Migration.MigrateDatabase | db_Setup.py:9-47 | The run's added and failed lists and the resulting tables are Outcome of the starting tables. The result is committed exactly once. |
| JsonToSql.EscapedField | json-to-sql.py:20-22 | A free-text field converts exactly when it is a string or absent (then ''). Its doubled form is well escaped, and undoubling it gives back the field's text. |
| JsonToSql.SectionStopsAtFailure | json-to-sql.py:15-31 | A section holds the lines of its leading convertible elements, in order. It stops exactly at the first element that raises, and keeps the lines already appended. |
| JsonToSql.SectionComplete | json-to-sql.py:19-28 | A list whose every element converts yields one line per element. |
| JsonToSql.ConvertedLayout | json-to-sql.py:7-59 | The script is the five-line header, the messages lines, a blank line, the memories lines, a blank line and COMMIT. |
| JsonToSql.ConvertedLineCount | json-to-sql.py:7-66 | With both lists loaded and every element convertible, the script has 8 lines plus one per record. |
| JsonToSql.MessagesErrorIsolated | json-to-sql.py:30-36 | Whatever happens in the messages section, the memories section and the closing COMMIT follow it unchanged. |
| JsonToSql.QuotedEscapedDecodes | json-to-sql.py:20-27 | A quote-doubled field in quotes reads back as the original text. |
| JsonToSql.QuotedPlainDecodes | json-to-sql.py:23-27 | A field written without doubling reads back as its text when it holds no quote. |
| JsonToSql.QuotedPlainOnlyWhen | json-to-sql.py:23-27 | The converse: a field written without doubling that holds a quote never reads back as its text. |
| JsonToSql.MessageFieldsRecovered | json-to-sql.py:19-28 | A message converts exactly when its three free-text fields are strings or absent. Each of their literals then reads back as the original, and created_at does too when it is quote-free. |
| JsonToSql.MessageLineIsDumpLine | json-to-sql.py:25-28 | With a quote-free created_at, a converted message's VALUES are exactly the dump encoder's literals for that row. |
| JsonToSql.MemoryFieldsRecovered | json-to-sql.py:40-53 | A memory converts exactly when its four free-text fields are strings or absent. Each of their literals then reads back as the original. |
| JsonToSql.TypeDefault | json-to-sql.py:45 | A memory without `type` is written as `'photo'`. |
| JsonToSql.StorageTypeDefault | json-to-sql.py:46 | A memory without `storage_type` is written as `'cloudinary'`. |
| JsonToSql.CreatedAtDefault | json-to-sql.py:48 | A memory without `created_at` is written as `''`. |
| JsonToSql.FileSizeRule | json-to-sql.py:47 | file_size is written unquoted. A missing or falsy value is written as 0; any other value as its Python text. |
| JsonToSql.ConvertSection | json-to-sql.py:15-31 | The loop appends exactly the section's lines. A file that could not be loaded adds nothing. |
| JsonToSql.JsonToSqlLines | json-to-sql.py:4-63 | The lines built are the converted script, and the file text is those lines joined by newlines. |
| KeepAlive.MakeRequest | keep_alive.py:338-362 | A request succeeds exactly when a response arrives with status below 500; the status is passed through. |
| KeepAlive.BackoffRange | keep_alive.py:250-254 | Every retry waits between 5 and 60 seconds. |
| KeepAlive.BackoffMonotone | keep_alive.py:251-254 | A later retry never waits less than an earlier one. |
| KeepAlive.BackoffSchedule | keep_alive.py:251-254 | The waits are 5, 10, 20 and 40 seconds, then 60 from the fifth retry on. |
| KeepAlive.SuccessCounts | keep_alive.py:205-211 | A success zeroes the failure count and adds one success and one request. It neither retries nor alerts. |
| KeepAlive.FailureCounts | keep_alive.py:232-236 | A failed regular ping adds exactly one failure. A failed startup ping changes no counter. |
| KeepAlive.RetryGuard | keep_alive.py:249-273 | A retry is scheduled exactly when the ping failed with retries left. It repeats the same ping type with the next retry count, after a wait of 5 to 60 seconds. |
| KeepAlive.AlertRule | keep_alive.py:280-282 | The alert fires exactly when a failed non-startup ping brings the failure count to or past the threshold, so every further failure alerts again. |
| KeepAlive.RequestsTrackSuccesses | keep_alive.py:207-211 | Only successes count as requests, so a ping keeps the request count equal to the success count. |
| KeepAlive.ChainBounded | keep_alive.py:249-273 | A ping and its retries make at most max_retries + 1 attempts. |
| KeepAlive.ChainAllFail | keep_alive.py:232-273 | When every attempt fails, the chain makes exactly max_retries + 1 attempts. A regular chain counts one failure per attempt; a startup chain changes no counter. |
| KeepAlive.ChainQuiet | keep_alive.py:232-282 | A chain raises no alert while even all its attempts failing would stay below the threshold. |
| KeepAlive.DefaultChainNeverAlerts | keep_alive.py:39-40 | With the defaults (3 retries, threshold 5), a single chain started from fresh counters never alerts. |
| KeepAlive.ReplayCounts | keep_alive.py:205-236 | Over any run of pings: successes and requests both grow by the number of successes. The failure count is the number of non-startup failures since the last success. |
| KeepAlive.AlertMeansConsecutiveFailures | keep_alive.py:280-282 | From fresh counters, a ping alerts exactly when it is a failed non-startup ping ending at least threshold consecutive non-startup failures. |
| KeepAlive.LogTarget | keep_alive.py:458-467 | A message is dropped exactly when it is debug and verbose is off. Each of debug (when verbose), info, warning, error and critical logs at its own level. An unknown level logs at info. |
| KeepAlive.BackendKeepAlive.NewThreads | keep_alive.py:135-169 | start launches three threads, in this order. KeepAlive-Primary pings as primary at the primary interval. KeepAlive-Secondary pings as secondary at the secondary interval. KeepAlive-Health runs health checks at the health-check interval. |
| KeepAlive.BackendKeepAlive.constructor | keep_alive.py:59-78 | The settings are stored; the system starts inactive, with zero counters, no ping time and no threads. |
| KeepAlive.BackendKeepAlive.Start | keep_alive.py:98-133 | On a running system nothing changes. Otherwise it becomes active with zeroed counters and the start time set. The three loop threads are appended to the thread list, and a startup ping with retry count 0 is scheduled after the given delay. |
| KeepAlive.BackendKeepAlive.Ping | keep_alive.py:191-284 | Succeeds exactly when the request succeeds. Counters, retry and alert are as PingDecision says; the ping time is recorded only on success; requests stay equal to successes. |
| KeepAlive.BackendKeepAlive.Stop | keep_alive.py:392-399 | Afterwards the system is inactive, and nothing else changes. |

## Left out

- SQL text is not parsed. A restore consumes the dump as a sequence of statements.
  `DumpLinesHoldScript` ties the text `create_backup` writes to those statements. A hand-edited
  dump file, or any SQL other than BEGIN, INSERT and COMMIT, is outside the model.
- The row order of the dump is not modelled. The source reads rows `ORDER BY created_at DESC`; the
  model writes them in the order the store holds them. The restored row set is the same.
- SQLite's type affinity is not modelled. Every stored value is NULL or text, because `str(val)`
  is what the dump writes, and numbers round-trip as their text.
- Store.WithColumn gives existing rows NULL in the new column. Column `DEFAULT` clauses are not
  modelled, so the `storage_type` default of `'cloudinary'` is not visible.
- Store.Step: constraint failures are not modelled (and so neither in BackupRestorer.Restore). These are the schema's PRIMARY KEY and NOT NULL
  constraints, for example a restore whose dumped `id` already exists. Transaction-state errors,
  such as a BEGIN inside an open transaction, are not modelled either. In the model an INSERT
  fails only on a missing table or an unknown column.
- BackupRestoration.BackupRestorer.CreateBackup: the `ORDER BY created_at` query fails on a table
  without that column. The model does not represent that failure, and a dump then succeeds
  whenever both tables exist.
- Python's implicit transactions and SQLite's autocommit are not modelled. `executescript`'s
  initial commit is not modelled either. Durability is modelled only through explicit COMMIT and
  `conn.commit()`.
- Migration.MigrateDatabase: every ALTER stays uncommitted until the final `conn.commit()`. Under
  Python's sqlite3 default transaction handling an ALTER opens no transaction, so SQLite makes it
  durable as soon as it succeeds. The final state is the same. A run that stops between two ALTERs
  keeps the earlier one in the source but not in the model.
- Timestamps, output file names, elapsed times and every log or print message are left out. The
  dump's `Generated` stamp is a parameter.
- File I/O is not modelled. File existence, readability and writability are parameters. The JSON
  files arrive parsed, or as `None` when they could not be loaded. A file whose object lacks the
  `messages` or `memories` key gives an empty list.
- JsonToSql.MessageFieldsRecovered: `created_at`, and for memories `type` and `storage_type`, are
  not quote-doubled by the source. They decode back only when quote-free. The lemmas state
  the recovery only for that case, and `QuotedPlainOnlyWhen` shows that a quote breaks it.
- Threads, timers, sleeping, locks and the network are not modelled. `_keep_alive_loop`'s sleep
  and its exception pause are left out. The outcome of each request is an input, and a retry is
  returned as a `ScheduledPing` instead of being started on a timer.
- `_check_health`, the keep-alive `get_status`, uptime statistics, `init_app` and the Flask routes
  are not part of this model. The webhook post of `_handle_critical_failure` is not modelled
  either; only the decision to raise the alert is.
- KeepAlive.MakeRequest keeps the kind of the error only, not the exception text. A 5xx error is
  re-wrapped by the generic handler at keep_alive.py:361-362.
- Latent defects in code the model does not run are noted, not modelled:
  - `os` is not imported, but keep_alive.py:95 uses it;
  - `jsonify` is not imported, but keep_alive.py:483 uses it;
  - backup_restoration.py:89 passes an extra argument to `logger.warning`. Logging reports this
    and does not raise.
