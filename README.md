# Snowflake retention sync, modelled in Dafny

The retention sync is a command-line job. It lists the databases and schemas of a
Snowflake account and keeps only those on two optional allow-lists. For every
table it reads the Time Travel retention period and a few size figures from
`SHOW TABLES`. It logs a histogram of retention periods and, unless it runs dry,
writes each table's figures to DataHub as custom properties on the table's
dataset. The success and failure counts are logged at the end.

This project models the decision layer of `snowflake_retention_sync.py`, which
sits between the warehouse cursor and the DataHub emitter:

- `SnowflakeTables` (`snowflake_table.dfy`): the `SnowflakeTable` record and the
  mapping of one `SHOW TABLES` row onto it. A row can become a record, be
  skipped, or raise an error that escapes the loop.
- `Extractor` (`extractor.dfy`): the allow-list filters and the
  `RetentionExtractor` class with its four query methods. The walk over
  databases, schemas and tables is also given as a specification function.
  The warehouse is a `Warehouse` value that holds the answer to every listing
  query. `None` stands for a query that raises `ProgrammingError`.
- `Syncer` (`syncer.dfy`): the dataset name, the custom-properties map, and the
  `RetentionSyncer` class with `SyncTable` and `SyncAll`. The DataHub server is a
  `DataHub` object. It records every write it receives in `received`, in order,
  and accepts or rejects each write by an oracle `accepts: Proposal -> bool`.
  The syncer owns an `Emitter` bound to that server, and `Emitter.Emit` is the
  only method that changes the server's state. The clock is an oracle
  `now: nat -> string`, which gives the timestamp of the i-th write.
- `RetentionSync` (`retention_sync.dfy`): the flow of `main`. It covers the
  required-argument check, the comma-split filters, extraction, the retention
  histogram (a dict, modelled as its items in insertion order), the sorted
  report, the dry-run switch and the sync. `Run` returns how the run ends.
- `PyText` (`pytext.dfy`) and `Wrappers` (`wrappers.dfy`): the Python string
  built-ins the code relies on (`upper`, `lower`, `split`, `str(int)`, `int(str)`),
  plus `Option` and `Fallible`. `Fallible` is a result cut short by an escaping
  exception.

Where the code and its surrounding documentation disagree, the model follows the
code:

- The column comment at `snowflake_retention_sync.py:154-155` puts `comment` at
  position 5, `rows` at 7, `bytes` at 8 and `retention_time` at 10. The code
  reads retention from position 5, the row count from 6 and the size from 7.
  The model reads the positions the code reads.
  `CellsPastBytesUnread` and `MapRowsReadUpToBytes` show that nothing past
  position 7 is read, so a `retention_time` at position 10 never reaches the
  record. `NonNumericRetentionSkipped` shows that a row whose position 5 holds
  text `int()` rejects, such as a table comment, is skipped.
- A retention value that `int()` cannot convert does not default to one day. The
  `ValueError` skips the whole row. Only a NULL retention defaults to one.
- The written value is a custom property holding the decimal string of the
  retention. It is not a structured property and not a floating-point number.
- A row with fewer than two cells makes the error handler's own `row[1]` raise
  `IndexError`. That exception is not caught in the loop, so it escapes
  extraction and the run ends with exit status 1. The model carries this as
  `Aborted`.

## Model

| member | source | states |
|---|---|---|
| SnowflakeTables.MapRow | snowflake_retention_sync.py:156-170 | the error escapes exactly when the row has at most one cell. A record is built exactly when the row reaches position 7 and all three conversions succeed. Names are the `str` of cells 2, 3 and 1. Retention is 1 for NULL, otherwise `int(row[5])`. Row count and size are absent exactly when their cell is NULL. `created_on` is absent exactly when cell 0 is falsy, and is non-empty otherwise |
| SnowflakeTables.MapRowsAppend | snowflake_retention_sync.py:156-170 | rows are handled one at a time: the records of `a + b` are those of `a` followed by those of `b`, so a skipped row does not affect later rows |
| SnowflakeTables.MapRowsAbortedIff | snowflake_retention_sync.py:168-170 | a table listing aborts exactly when one of its rows has at most one cell |
| SnowflakeTables.MapRowsCompleted | snowflake_retention_sync.py:156-173 | a completed listing holds one record per parsed row, never more records than rows, and each record is the mapping of one of the rows |
| SnowflakeTables.CellsPastBytesUnread | snowflake_retention_sync.py:154-165 | changing any cell past position 7, such as the `retention_time` the column comment puts at 10, leaves the row's outcome unchanged |
| SnowflakeTables.MapRowsReadUpToBytes | snowflake_retention_sync.py:156-170 | two listings whose rows agree up to position 7 give the same records, or both abort |
| SnowflakeTables.NonNumericRetentionSkipped | snowflake_retention_sync.py:162-170 | a row reaching position 7 whose retention cell is text that `int()` rejects, such as a table comment, is skipped |
| Extractor.Keep | snowflake_retention_sync.py:111 | the filtered list holds exactly the listed names that the allow-list contains, and it is no longer than the listing |
| Extractor.KeepPreservesOrder | snowflake_retention_sync.py:111 | filtering keeps listing order (a subsequence) and keeps each allowed name as many times as it was listed |
| Extractor.FilterAllowed | snowflake_retention_sync.py:110-115 | an empty allow-list keeps every name; otherwise a name is kept exactly when it is both listed and allowed |
| Extractor.InformationSchemaIff | snowflake_retention_sync.py:192 | the skipped schema names are exactly the upper/lower-case variants of `INFORMATION_SCHEMA` |
| Extractor.RetentionExtractor.constructor | snowflake_retention_sync.py:58-75 | an absent filter is stored as the empty allow-list |
| Extractor.RetentionExtractor.GetDatabases | snowflake_retention_sync.py:102-122 | a failing `SHOW DATABASES` gives the empty list; otherwise the listing after the database allow-list |
| Extractor.RetentionExtractor.GetSchemas | snowflake_retention_sync.py:124-142 | a failing `SHOW SCHEMAS` gives the empty list; otherwise the listing after the schema allow-list |
| Extractor.RetentionExtractor.GetTablesWithRetention | snowflake_retention_sync.py:144-179 | a failing `SHOW TABLES` gives no records; otherwise the records of the rows in row order, or an abort when a row's error escapes |
| Extractor.RetentionExtractor.ExtractSchemas | snowflake_retention_sync.py:188-196 | the inner loop appends the records of every schema of one database except `INFORMATION_SCHEMA`, in schema order |
| Extractor.RetentionExtractor.ExtractAllRetentionData | snowflake_retention_sync.py:181-199 | the result is the walk: per-schema record lists concatenated in database order, then schema order, skipping `INFORMATION_SCHEMA` |
| Extractor.WalkSchemasStep | snowflake_retention_sync.py:190-196 | one more schema adds its records to the walk, or adds nothing when it is `INFORMATION_SCHEMA` |
| Extractor.WalkDatabasesStep | snowflake_retention_sync.py:187-196 | one more database adds the walk of its filtered schemas |
| Extractor.WalkSchemasAbortPersists | snowflake_retention_sync.py:190-196 | once an error escapes in a database's schema loop, the rest of that loop cannot undo it |
| Extractor.WalkDatabasesAbortPersists | snowflake_retention_sync.py:187-196 | once an error escapes, the rest of the walk cannot undo it |
| Extractor.ExtractionAbortsAt | snowflake_retention_sync.py:187-196 | an error escaping from any walked schema's table listing aborts the whole extraction |
| Extractor.ExtractionIgnoresInformationSchema | snowflake_retention_sync.py:190-193 | whatever the allow-lists say, the contents of `INFORMATION_SCHEMA` listings never change the extraction |
| Extractor.ExtractionSound | snowflake_retention_sync.py:181-199 | every extracted record comes from a row of the listing of an allowed database and an allowed schema of it, and that schema is not `INFORMATION_SCHEMA` |
| Syncer.DatasetNameParts | snowflake_retention_sync.py:215 | the dataset name is the lower-cased database, schema and table joined by dots, and it holds no upper-case letter |
| Syncer.CustomProperties | snowflake_retention_sync.py:222-234 | the keys are exactly retention and sync time, plus row count and size when known, plus creation time when non-empty. The retention, row count and size values are `str()` of the table's numbers. The sync-time value is the timestamp. A creation-time value is the table's |
| Syncer.CustomPropertiesReadBack | snowflake_retention_sync.py:224-232 | the retention, row count and size values are decimal strings that read back as the table's numbers |
| Syncer.CreatedOnWrittenIff | snowflake_retention_sync.py:163-234 | for a record mapped from a row, `created_on` is written exactly when the row's first cell is truthy |
| Syncer.CountTrueBounds | snowflake_retention_sync.py:257-265 | successes never exceed the writes. They equal the writes exactly when all succeed, and are zero exactly when all fail |
| Syncer.ProposalsAt | snowflake_retention_sync.py:259-260 | the i-th write of a sync is the write for the i-th table at the i-th clock reading |
| Syncer.AcceptedAt | snowflake_retention_sync.py:259-260 | the i-th outcome of a sync is whether the server accepts the i-th write |
| Syncer.DataHub.constructor | snowflake_retention_sync.py:209 | a server starts with no writes received and keeps its acceptance oracle |
| Syncer.Emitter.constructor | snowflake_retention_sync.py:209 | the emitter is bound to the given server |
| Syncer.Emitter.Emit | snowflake_retention_sync.py:246 | the server's log grows by exactly the sent write, and the result is whether the server accepted it |
| Syncer.RetentionSyncer.constructor | snowflake_retention_sync.py:205-209 | the syncer keeps its environment label and builds an emitter bound to the server |
| Syncer.RetentionSyncer.SyncTable | snowflake_retention_sync.py:211-253 | the server receives exactly one write, the table's custom properties under its dataset name and environment, and the result is whether the server accepted it |
| Syncer.RetentionSyncer.SyncAll | snowflake_retention_sync.py:255-266 | the server receives each table's write once, in table order, the i-th at the i-th clock reading, and nothing else. The stats hold exactly `success` and `failed`, which add up to the number of tables, and `success` counts the writes the server accepted |
| RetentionSync.ParseFilter | snowflake_retention_sync.py:315-316 | no allow-list exactly when the argument is absent or empty. Otherwise the comma-free parts, which joined by commas give the argument back |
| RetentionSync.ParseFilterOfJoined | snowflake_retention_sync.py:315-316 | a non-empty argument written as comma-free names joined by commas parses back to exactly those names |
| PyText.JoinSplit | snowflake_retention_sync.py:315-316 | joining the parts of a split gives back the string |
| PyText.SplitJoin | snowflake_retention_sync.py:315-316 | splitting a join of separator-free parts gives back the parts |
| PyText.ParseDecimalRoundTrip | snowflake_retention_sync.py:224-232 | `int(str(n)) == n` for every integer |
| RetentionSync.CountRetentionPositiveIff | snowflake_retention_sync.py:340-342 | a retention has a non-zero count exactly when some table has it |
| RetentionSync.Tally | snowflake_retention_sync.py:342 | counting one more table raises the total count by one |
| RetentionSync.TallyKeepsHistogram | snowflake_retention_sync.py:341-342 | counting the next table keeps the dict an exact histogram of the tables counted so far |
| RetentionSync.RetentionSummary | snowflake_retention_sync.py:340-342 | the dict has distinct keys. Each key maps to the number of tables with that retention, which is positive. Every retention that occurs is a key. The counts add up to the number of tables |
| RetentionSync.InsertItem | snowflake_retention_sync.py:345 | inserting an item with a new key into a sorted list keeps it sorted, adds exactly that item, and adds its count to the total |
| RetentionSync.Report | snowflake_retention_sync.py:345 | `sorted(items())` is strictly ascending by retention and holds exactly the dict's items with the same total |
| RetentionSync.ReportOfHistogram | snowflake_retention_sync.py:340-346 | the logged report lists every occurring retention once, in ascending order, with its exact positive table count, and the counts add up to the number of tables |
| RetentionSync.Run | snowflake_retention_sync.py:274-370 | exits with status 1 exactly when a required value is missing or empty, the connection fails, or extraction aborts. Finishes quietly with no tables. On a dry run it reports and the server receives nothing. Otherwise it reports, the server receives each table's write once in order, and the stats are those of `SyncAll` |

## Left out

- Connecting, closing, cursors and the SQL text sent to the warehouse: `connect` is
  modelled only by whether it succeeds (`connects`), and every listing query only
  by its result. A failing `close()` of the extractor or the syncer is not
  modelled.
- Warehouse errors other than `ProgrammingError`. Such an error escapes to `main`
  and ends the run with status 1. The model has no input for it. The same holds
  for a `SHOW DATABASES` or `SHOW SCHEMAS` row too short for its `row[1]`
  projection: listings are given as their name column.
- Cell values other than integers, strings and NULL. Floats, decimals and
  datetimes are represented by their `str()` text, so `int()` on a float cell is
  not modelled.
- `make_dataset_urn`, `DatasetPropertiesClass`, `MetadataChangeProposalWrapper`
  and the REST transport of `emit_mcp`: DataHub SDK internals. A write is the
  `Proposal` value (dataset name, environment, custom properties). Whether the
  server accepts it is the `accepts` oracle of the `DataHub` object. The GMS
  URL and token are not modelled, and constructing the emitter is assumed to
  succeed.
- `datetime.now().isoformat()`: the clock is the `now` oracle.
- Logging, `--verbose`, argparse and environment-variable defaults: the parsed
  values are the `Args` value, and the logged histogram is the `report` carried
  by the outcome.
- `create_retention_property.py` and `fix_retention_property_filters.py` are not
  part of this model: they only build fixed SDK objects and send them over the
  network.
- PyText.ParseInt: accepts an optional sign followed by ASCII digits. Python's
  `int()` also accepts surrounding whitespace, underscores between digits and
  non-ASCII digits, which are not modelled.
- PyText.Upper: maps ASCII letters only. Python's `str.upper` also maps other
  scripts, so a schema name such as `ınformatıon_schema` (dotless ı) is skipped
  by Python but not by the model.
- PyText.Lower: maps ASCII letters only, for the same reason.
