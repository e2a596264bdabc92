# MySQL-to-BigQuery batch loaders, modelled in Dafny

Three Python scripts copy tables from a MySQL inventory database into a
BigQuery dataset:

- `ti_db_inventory_to_BQ.py` loads a fixed list of tables in full or, with
  `--daily`, only yesterday's rows of `backup_log` and `daily_log` and still
  all of `servers_temp`;
- `etl_mysql_to_bigquery.py` loads today's rows of every table its schema
  file declares;
- `etl_daily_log.py` backfills `daily_log` with everything before
  2025-03-07.

The first two scripts discover their tables by listing the database and
keeping the allowed ones; the backfill works on `daily_log` alone. For each
table a script extracts a date window, reshapes the columns, stages the
batch as a JSON file and submits a load job with a write policy. After the
last table the first two scripts delete old dump files; the backfill does
not. This project models
the decision logic of that pipeline as pure functions. The database, the
warehouse, the clock and the file system are replaced by parameters. A run
is a sequence of observable actions plus the exception it ends with, if any.

Modules, one per component:

- `Outcomes`: `Option`, `Result`, and one `Failure` case per exception the
  scripts can raise.
- `Text`: `strip`, one-character `split`, and fixed-width decimal fields.
- `Seqs`: subsequences and the order-preserving list filter.
- `Calendar`: proleptic Gregorian dates, the day before a date, date
  order, and the `%Y-%m-%d` text form.
- `Timestamps`: the `%Y-%m-%d %H:%M:%S` rewrite of datetime columns.
- `Credentials`: the `KEY=VALUE` credentials file of the inventory script.
- `Tables`: a batch as column names and rows, with `astype(bool)`,
  `rename` and `drop(errors='ignore')`.
- `Transform`: each script's `transform_data` as a declarative spec.
- `Schema`: `get_schema_from_config`.
- `Catalog`: `get_mysql_tables`.
- `Extract`: `extract_from_mysql`, meaning the windows, the row selection
  and the datetime rewrite.
- `Actions`: the observable actions and the fail-fast loop.
- `Load`: `load_to_bigquery`, meaning the plans, the staging names and the
  staging file's lifecycle.
- `Janitor`: `cleanup_old_files`.
- `Pipeline`: `run_etl` for each of the three scripts.
- `Scenarios`: a worked backfill on a two-row `daily_log`.

Four facts about the code shape the model:

- The schema is looked up inside `load_to_bigquery`, so only after
  extraction and the transform.
- Staging files are written to the system temporary directory. The sweep
  only looks at the dumps directory, so it never deletes a staging file
  left behind by a failed job.
- The sweep's loop sits inside a single `try`. The first entry whose
  modification time cannot be read, or that cannot be deleted, therefore
  ends the whole sweep instead of being skipped.
- The sweep runs only when every table went through, because it is the
  last statement of the `try` in `run_etl`.

## Model

| member | source | states |
|---|---|---|
| Text.Split | ti_db_inventory_to_BQ.py:31 | `split('=')` yields one more part than the text has separators, no part holds the separator, and joining the parts with it gives back the text |
| Text.Strip | ti_db_inventory_to_BQ.py:31-32 | `strip()` returns a slice of the text that has only whitespace before and after it and no whitespace at either end |
| Text.StripUnique | ti_db_inventory_to_BQ.py:31-32 | that slice is unique: any slice with only whitespace around it and none at its ends is what `strip()` returns |
| Text.StripAround | ti_db_inventory_to_BQ.py:31-32 | around a character that is not whitespace, `strip()` cuts exactly the leading whitespace of the text before it and the trailing whitespace of the text after it |
| Text.StripKeepsCount | ti_db_inventory_to_BQ.py:30-31 | stripping keeps every `=` of a line, so testing for `=` before or after the strip agrees |
| Text.NumberOfDigits | ti_db_inventory_to_BQ.py:84 | a number written in a fixed-width decimal field that is wide enough reads back as the same number |
| Credentials.ParseLine | ti_db_inventory_to_BQ.py:30-32 | a line without `=` is skipped; a line with exactly one `=` yields a stripped key and value that contain no `=`; a line with two or more `=` fails the two-way unpack |
| Credentials.LoadCredentials | ti_db_inventory_to_BQ.py:27-35 | the file fails exactly when some line is malformed, and it reports the first such line; otherwise every key holds the value of its last assignment, and the user and password default to `""` |
| Credentials.ParseWrittenLine | ti_db_inventory_to_BQ.py:29-32 | a line written as `key=value` plus a newline is read back as that entry |
| Credentials.ParseAssignment | ti_db_inventory_to_BQ.py:30-32 | a line holding one `=` stores the text before it, stripped, under the text after it, stripped, whatever whitespace surrounds either |
| Credentials.Collect | ti_db_inventory_to_BQ.py:28-32 | the loop over the classified lines stops at the first malformed one and otherwise leaves each assigned key holding its last assignment |
| Calendar.Yesterday | ti_db_inventory_to_BQ.py:84 | the day before a date is a valid date whose ordinal is one less; only 0001-01-01 has none, where Python overflows |
| Calendar.YesterdayIsImmediate | ti_db_inventory_to_BQ.py:84 | no valid date lies strictly between a date and the day before it |
| Calendar.BeforeIffOrdinal | etl_daily_log.py:48 | the field-by-field date comparison agrees with the day-count order, and equal ordinals mean equal dates |
| Calendar.FormatDate | etl_mysql_to_bigquery.py:67 | `%Y-%m-%d` is ten characters, with dashes at 4 and 7 and digits everywhere else |
| Calendar.ParseFormatDate | etl_mysql_to_bigquery.py:67-68 | the store reads a formatted date literal back as the same date |
| Calendar.FormatDateInjective | etl_mysql_to_bigquery.py:140 | distinct dates have distinct text forms |
| Timestamps.FormatTimestamp | etl_daily_log.py:53-54 | the rewritten datetime is 19 characters, with `-` at 4 and 7, a space at 10, `:` at 13 and 16, and digits elsewhere; it starts with the date's own text |
| Timestamps.ParseFormatTimestamp | etl_daily_log.py:53-54 | reading the rewritten text back gives the instant truncated to whole seconds |
| Timestamps.FormatTimestampSameSecond | etl_daily_log.py:53-54 | two instants are rewritten to the same text exactly when they agree to the second |
| Tables.ToBool | ti_db_inventory_to_BQ.py:113 | `astype(bool)` always yields a boolean and leaves a boolean as it was |
| Tables.CoerceColumn | ti_db_inventory_to_BQ.py:112-113 | only cells under the named column become booleans, by truthiness; an absent column changes nothing |
| Tables.Coerce | ti_db_inventory_to_BQ.py:109-113 | every cell under a listed column becomes its truthiness, every other cell and every column name stays |
| Tables.Rename | ti_db_inventory_to_BQ.py:116-123 | each column is renamed in place when it is a key of the mapping; rows are untouched |
| Tables.Drop | ti_db_inventory_to_BQ.py:124 | the columns left are exactly those at the positions of names not dropped, in their order and with their cells; no dropped name and no new column appears; dropping names that are not there returns the table unchanged |
| Transform.ApplyCells | ti_db_inventory_to_BQ.py:105-127 | the transform keeps, in order, the columns whose new names are not dropped; each carries its new name and its cells, turned into booleans when the column is one to coerce |
| Transform.ApplySettles | ti_db_inventory_to_BQ.py:105-127 | under a spec whose new names are not renamed again, the output has nothing left to rename or drop and its flag columns hold booleans |
| Transform.SettledIsFixed | etl_mysql_to_bigquery.py:86-111 | a batch with nothing left to rename, drop or coerce comes back unchanged |
| Transform.TransformsIdempotent | etl_daily_log.py:66-83 | for every script and every table, transforming twice equals transforming once |
| Transform.UnlistedTablesUnchanged | ti_db_inventory_to_BQ.py:105-127 | a table that no branch names comes back as it went in |
| Transform.FlagTablesCoerced | etl_mysql_to_bigquery.py:89-94 | `servers_temp` and `database_list` keep their columns; present flag columns become booleans and every other cell stays |
| Transform.DailyLogRenamedInPlace | etl_mysql_to_bigquery.py:96-105 | the seven-key `daily_log` rename keeps the cells and renames each present source column in place, leaving no source name behind |
| Transform.InventoryDailyLogShape | ti_db_inventory_to_BQ.py:115-124 | the inventory `daily_log` transform keeps every column but `fileName`, in order and with its cells, renames the six source columns in place, and leaves no source name and no `fileName` |
| Schema.Fields | ti_db_inventory_to_BQ.py:137-140 | the field list is built in declared order, and it fails exactly when some entry lacks "name" or "type" |
| Schema.Lookup | ti_db_inventory_to_BQ.py:132-142 | an undeclared table raises the not-found error, and only then; a malformed entry raises a key error; otherwise the result is the declared fields in order |
| Seqs.Filter | ti_db_inventory_to_BQ.py:193 | the list comprehension with a condition keeps the source order and holds exactly the elements that pass the condition |
| Seqs.FilterCounts | etl_mysql_to_bigquery.py:178 | the comprehension keeps each passing element as often as the source holds it, and drops every other element entirely |
| Catalog.Discover | ti_db_inventory_to_BQ.py:185-194 | the discovered tables are a subsequence of the base tables, holding exactly the allowed ones |
| Catalog.DiscoverCounts | etl_mysql_to_bigquery.py:170-179 | each allowed table is discovered as often as the source lists it, and nothing else is discovered |
| Extract.SelectsFormattedDate | ti_db_inventory_to_BQ.py:85 | a window written with a date's text selects exactly the rows whose day equals it or precedes it |
| Extract.InventoryWindow | ti_db_inventory_to_BQ.py:83-87 | daily mode on `backup_log` or `daily_log` filters `backup_date` on the day before today; every other case is unfiltered |
| Extract.IncrementalDateColumn | etl_mysql_to_bigquery.py:194 | `database_list` is filtered on `creation_date`, every other table on `backup_date` |
| Extract.IncrementalWindow | etl_mysql_to_bigquery.py:67-68 | the incremental query always selects today's rows on the table's date column |
| Extract.HistoricalWindow | etl_daily_log.py:48 | the backfill query is `DATE(backup_date) < '2025-03-07'`, and its literal reads as the cutoff date |
| Extract.HistoricalWindowBoundary | etl_daily_log.py:48 | 2025-03-05 is before the cutoff; 2025-03-07 and 2025-03-08 are not |
| Extract.SelectRowsSpec | ti_db_inventory_to_BQ.py:89 | the store returns a subsequence of the table holding every matching row as often as the table does, and nothing else |
| Extract.SelectRows | ti_db_inventory_to_BQ.py:89 | every returned row is as wide as the header and matches the window, and there are never more rows than the table holds |
| Extract.NormalizeRow | ti_db_inventory_to_BQ.py:92-93 | each datetime becomes 19-character text that reads back as the same instant to the second, and every other cell keeps its value |
| Extract.ExtractBatch | ti_db_inventory_to_BQ.py:77-100 | filtering on a missing column raises; otherwise the batch keeps the table's columns and holds one normalised row per selected row, in order |
| Actions.FailFast | ti_db_inventory_to_BQ.py:200-217 | the loop fails exactly when some stretch fails, its failure is the first one, and its actions are those of every stretch up to and including the failing one |
| Actions.BeganConcat | ti_db_inventory_to_BQ.py:204-205 | stretches that each begin one table begin the tables in order |
| Load.TableRef | ti_db_inventory_to_BQ.py:147 | the table reference is the warehouse's project, `.`, its dataset, `.` and the table name, each at its fixed position |
| Load.IncrementalStagingName | etl_mysql_to_bigquery.py:140 | the staging name is the prefix, the run date, `_`, the table and `.json`, at fixed positions |
| Load.HistoricalStagingName | etl_daily_log.py:112 | the backfill staging name is 48 characters: the historical prefix, the run date, then `_daily_log.json` |
| Load.InventoryStagingName | ti_db_inventory_to_BQ.py:161-162 | the inventory staging file is `tmp`, the generated stem and `.json`, so the stem can be read back from the name |
| Load.InventoryStagingNamesDistinct | ti_db_inventory_to_BQ.py:161-162 | different stems give different staging files |
| Load.IncrementalStagingNamesDistinct | etl_mysql_to_bigquery.py:140-141 | two incremental staging names are equal only for the same date and table |
| Load.HistoricalNameNeverIncremental | etl_daily_log.py:112-113 | the backfill's staging name never equals an incremental staging name, whatever the dates and table |
| Load.InventoryPlan | ti_db_inventory_to_BQ.py:153-159 | the inventory load appends exactly in daily mode and is day-partitioned on `BackupDate` exactly for `daily_log` |
| Load.IncrementalPlan | etl_mysql_to_bigquery.py:128-141 | the incremental load skips empty batches, always appends and is never partitioned |
| Load.HistoricalPlan | etl_daily_log.py:100-113 | the backfill load skips empty batches, always truncates and is never partitioned |
| Load.LoadBatch | etl_mysql_to_bigquery.py:125-168 | a guarded empty batch does nothing; a schema failure comes before any file or job; otherwise the file is staged and the job submitted; a failed job leaves the file; on success or a failed count read the file is removed first |
| Load.LoadSucceeds | etl_daily_log.py:97-136 | a load that is not skipped, of a declared table whose job and count read succeed, stages the batch, submits one job with the declared schema and the plan's policy to the table's reference, removes the staging file and succeeds |
| Load.SchemaBeforeStaging | etl_daily_log.py:104-117 | an unresolvable schema means no staging file and no job, and the call fails unless the empty guard returned first |
| Load.StagingLeftBehindIffJobFails | etl_mysql_to_bigquery.py:143-159 | the staging file outlives the call exactly when the job failed |
| Load.LoadBatchActions | ti_db_inventory_to_BQ.py:144-183 | a load only stages, submits and removes; its job carries the table and the plan's policy; it fails only about its table, for want of a schema exactly when the table is undeclared and not skipped |
| Janitor.Sweep | ti_db_inventory_to_BQ.py:63-75 | the sweep stops exactly when some entry raises, and deletes, in listing order, the deletable expired JSON files before the first such entry |
| Janitor.SweepRemovesOnlyExpired | etl_mysql_to_bigquery.py:50-56 | every deleted name is a `*.json` file strictly older than seven days |
| Janitor.SweepCompleteWithoutErrors | etl_mysql_to_bigquery.py:52-56 | with no failing entry, every deletable expired JSON file is deleted |
| Janitor.SweepStopsAtFirstError | etl_mysql_to_bigquery.py:48-58 | nothing after the first failing entry is deleted, whatever it is |
| Pipeline.Batch | etl_mysql_to_bigquery.py:60-84 | extraction fails, with an extraction error for its table, exactly when the script has no window for the table, the table is missing, or the window filters on a column the table lacks; otherwise the batch has the table's columns and holds each selected row, normalised, in the store's order |
| Pipeline.Deliver | ti_db_inventory_to_BQ.py:208-209 | after the transform comes exactly the load of the transformed batch with the script's plan, warehouse and the table's load outcome, whose failure is the step's; it begins no table, never sweeps and follows the script's policy |
| Pipeline.Work | etl_mysql_to_bigquery.py:196-201 | a failed extraction ends the iteration after the query with that failure; a non-empty batch is transformed with the script's spec and then loaded with its plan, and the load's failure is the iteration's; it never begins another table or sweeps, follows the policy, and fails only about its table |
| Pipeline.UndeclaredTableFails | etl_mysql_to_bigquery.py:196-199 | a non-empty batch fails for want of a schema exactly when the schema file does not declare its table |
| Pipeline.ProcessTable | ti_db_inventory_to_BQ.py:204-211 | an iteration begins its table, and only it, and then does exactly what that table's extract-transform-load does, with the same failure |
| Pipeline.FailedAt | ti_db_inventory_to_BQ.py:204-209 | the first failing table is a well-defined position: every earlier table succeeds |
| Pipeline.RunTables | ti_db_inventory_to_BQ.py:200-217 | tables are begun in order up to and including the first failing one, whose failure is the loop's; the actions are those of each iteration in turn up to that one; nothing is swept and every job follows the policy |
| Pipeline.Conclude | ti_db_inventory_to_BQ.py:204-217 | the sweep after the loop keeps the loop's outcome and the tables it began, and adds one sweep, as the last action, exactly when the loop went through; the loop's actions are a prefix of the result and nothing else is added |
| Pipeline.RunEtl | etl_mysql_to_bigquery.py:184-207 | a failed discovery ends the run with no action; the backfill is `Began("daily_log")` followed by exactly that table's iteration, fails exactly as it does and never sweeps; a discovering run starts with the whole table loop's actions and carries its outcome; a discovering script sweeps once, as its last action, exactly when the run succeeds; every job follows the script's policy |
| Pipeline.TablesInDiscoveryOrder | ti_db_inventory_to_BQ.py:198-217 | a whole run begins the discovered tables in order, up to and including the first failure, and re-raises that failure |
| Pipeline.EmptyBatchSkipped | etl_mysql_to_bigquery.py:197-201 | an empty batch is neither transformed, staged nor loaded, and the table counts as done |
| Pipeline.LoadedTable | ti_db_inventory_to_BQ.py:204-209 | a table with a non-empty batch whose load goes through is begun, queried, transformed, staged with its transformed batch, submitted with the declared schema and the plan's policy, and its staging file removed, with no failure |
| Pipeline.HistoricalLoaded | etl_daily_log.py:142-150 | such a backfill run is exactly that one iteration, with the cutoff query, the historical staging name, the configured warehouse and a truncating, unpartitioned job |
| Pipeline.IncrementalNeverMissesSchema | etl_mysql_to_bigquery.py:172-178 | the incremental script only discovers declared tables, so its runs never fail for want of a schema |
| Scenarios.BackfillSelectsEarlierDay | etl_daily_log.py:48 | of a 2025-03-05 row and a 2025-03-08 row, the backfill query returns only the first |
| Scenarios.BackfillBatch | etl_daily_log.py:41-58 | the backfill batch of that table is the one earlier row with its datetime rewritten |
| Scenarios.BackfillRenamesColumns | etl_daily_log.py:69-77 | `backup_date`, `server` and `fileName` reach the warehouse as `BackupDate`, `Server` and `FileName` |
| Scenarios.BackfillExtracts | etl_daily_log.py:41-58 | on the example table the backfill extracts the three columns and the one early row, normalised |
| Scenarios.BackfillStaged | etl_daily_log.py:66-80 | whatever the rows, the backfill transform of the example columns only renames them to `BackupDate`, `Server` and `FileName` |
| Scenarios.BackfillRun | etl_daily_log.py:142-150 | the whole backfill on the example table, when `daily_log` is declared and the job succeeds: it begins and queries `daily_log`, transforms it, stages the one early row under the warehouse's names and the historical staging name, submits a truncating, unpartitioned job, removes the file and succeeds without a sweep |

## Left out

- Database access, meaning engine creation, `quote_plus`, `read_sql` and `dispose`. Each table's contents are a parameter, and a missing table models any query error.
- The BigQuery client. The job's and the row-count read's outcome per table is a parameter, and the row count itself is only logged.
- File I/O: writing the JSON staging file, `glob` and `getmtime`. The dumps listing, with each entry's age and deletability, is a parameter.
- Logging, `argparse`, `os.makedirs`, and reading the JSON configuration and schema files. The schema file's contents are a parameter.
- The credentials file is read at import time, outside `run_etl`. It is modelled on its own and does not feed the pipeline model.
- `NamedTemporaryFile`'s random name is a parameter, the generated stem.
- Floats, NaN and `DATE`-typed columns. A cell is an integer, text, a boolean or a datetime, and only datetimes have a day.
- MySQL's coercion of text columns to dates in `DATE(...)`. A non-datetime cell has a `NULL` day and matches no filter.
- Clock reads: one `today` serves every table of a run. The time between `CURRENT_DATE` and each `datetime.now()` is not modelled, so neither is a run that crosses midnight.
- Calendar.FormatDate: pads years below 1000 to four digits, as the store's literals need; `strftime('%Y')` on glibc does not pad them.
- Janitor.Sweep: an entry's age is given directly in microseconds. Local-time effects of `fromtimestamp`, such as daylight-saving shifts, are not modelled.
- Transform exceptions are not modelled: on the modelled values none of the transforms can raise.
- Pipeline.Deliver: states only that a missing-schema failure implies the table is undeclared. The converse does not hold for an arbitrary transformed batch, which is a free parameter here and may be empty under a guarding plan; it is stated for the load in Load.LoadBatchActions and for a non-empty batch in Pipeline.UndeclaredTableFails.
- Extract.NormalizeRow: rewrites every datetime cell. The scripts rewrite only columns pandas types as `datetime64[ns]`, which hold instants from 1677-09-21 to 2262-04-11; columns with datetimes outside that range, or mixed with other values, keep `object` type and are not rewritten. That case is not modelled.
- Pipeline.ProcessTable: the backfill script has no "Processing table" log line. Its run still starts with the same `Began` action, so that all three scripts share one trace shape.
- The `__main__` blocks, which only call `run_etl` and log its outcome.
