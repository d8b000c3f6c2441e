# App-metrics dashboard: a verified model of its data pipeline and KPIs

This project models the core of a small application-metrics dashboard. One table,
`login`, holds one synthetic telemetry row per minute, with these columns:

- timestamp;
- response time;
- request and response size;
- HTTP status;
- region.

Several programs work on that table:

- **Backfill script** (`backend/data_generation.py`). It empties the table, then writes one row
  per minute from 2025-01-01T00:00Z up to today's UTC midnight. Rows are buffered and flushed in
  batches of 10 000. At the end it checks the stored row count.
- **Seeding script** (`data_generation.py`). It inserts one row per minute for the seven days
  before "now". It commits right after iterations i = 0, 500, 1000, ... (21 times over the week) and once more
  at the end.
- **Daily refill** (`api/cron_fill.py` and the `/cron_fill` route of `backend/app.py`). It
  deletes yesterday's half-open UTC window. It then inserts one row per minute of that window
  with an `INSERT ... SELECT` over `generate_series`.
- **Metrics route** (`/metrics` in `app.py` and `backend/app.py`). It returns the rows of an
  inclusive timestamp range in ascending order, with their count.
- **Connection rule.** Every `get_conn` refuses a missing `DATABASE_URL` and appends
  `sslmode=require` when the string does not contain `sslmode=`.
- **Dashboard KPIs** (`frontend/script.js`):
  - the error count and the total;
  - the distinct regions in first-occurrence order;
  - the errors per region;
  - the last ten records shown in the table.

## How the model reads the source

- **Time** is an integer number of minutes since the Unix epoch, in UTC. A midnight is a
  multiple of 1440, and 2025-01-01 is day 20089.
- **Randomness** is a parameter. Each generator takes `draws: nat -> Draw`, which gives the
  values drawn for each iteration. The properties are proved for every possible draw.
- **Floating point.** Values are `real`s. Python's `int()` is truncation toward zero
  (`Telemetry.Trunc`). SQL `random()` is a real in `[0, 1)` (`DailyFill.Unit`).
- **The table** is the class `LoginTable.Table`, whose field `rows` is a sequence. Each
  `DELETE` and `INSERT` the programs issue is one method that reassigns it. `SELECT COUNT(*)`
  is the method `Table.Count`, which only reads. The `/metrics` SELECT is the function
  `Metrics.GetMetrics` over a snapshot of the rows.
- **The backfill loop** is imperative. It is a `for` loop with its invariants over a growable
  array buffer (`Backfill.RowBuffer`). The script's progress prints become the list of
  `inserted` values after each flush.
- **The seeding loop** is imperative. Its commits become a returned log.
- **Database failures** in the refill are a `DailyFill.DbFault` parameter. The refill runs in
  autocommit mode, so a failed statement leaves the statements before it in effect.
- **Duplicated code.** The four copies of `get_conn` share one rule, `ConnString.Normalize`.
  The two identical `get_metrics` routes share one function, `Metrics.GetMetrics`.

## Model

| member | source | states |
|---|---|---|
| Seqs.Filter | frontend/script.js:22 | the result has the input's elements that pass the condition and no others, so it is no longer than the input |
| Telemetry.Clamp | backend/data_generation.py:17 | with ordered bounds the result lies in `[lo, hi]`; a value already in range is returned unchanged; below the range gives `lo`, above it gives `hi` |
| Telemetry.Trunc | backend/data_generation.py:53-55 | `int()` on a float truncates toward zero: the floor for non-negative values, the ceiling for negative ones |
| Telemetry.ClampTruncInRange | backend/data_generation.py:53-55 | clamping into integer bounds and then truncating stays inside those bounds, for any real input |
| ConnString.SliceOfTail | backend/app.py:26 | a window of the string without its first character is the window of the whole string one position further on |
| ConnString.ContainsIff | backend/app.py:26 | Python's `in` on strings holds exactly when the substring occurs at some index |
| ConnString.ContainsInSuffix | backend/app.py:26-27 | a substring of a suffix is a substring of the whole string |
| ConnString.Normalize | backend/app.py:26-27 | the input is a prefix of the result; the result equals the input exactly when the input already contains `sslmode=`; otherwise it is the input plus `&` (if it has a `?`) or `?`, plus `sslmode=require` |
| ConnString.NormalizeHasSslMode | backend/app.py:26-27 | the normalised string always contains `sslmode=` |
| ConnString.NormalizeIdempotent | backend/app.py:26-27 | normalising twice gives the same string as normalising once |
| ConnString.Connect | backend/app.py:21-29 | succeeds exactly when DATABASE_URL is set and non-empty; otherwise fails with "DATABASE_URL not set"; on success it returns the normalised string, which extends the variable and contains `sslmode=`. The same rule appears at api/cron_fill.py:5-11, app.py:13-21 and backend/data_generation.py:9-15 |
| LoginTable.DeleteWindow | api/cron_fill.py:20 | the rows kept by the half-open DELETE are exactly the rows outside `[start, end)`, and there are no more of them than before |
| LoginTable.InWindow | api/cron_fill.py:20 | the rows of the half-open window `[start, end)` are exactly those with `start <= timestamp < end` |
| LoginTable.Between | backend/app.py:51 | `WHERE timestamp BETWEEN start AND end` selects exactly the rows with `start <= timestamp <= end`, both ends included |
| LoginTable.SortedCons | backend/app.py:52 | a row no later than every row of an ascending sequence can go in front of it |
| LoginTable.FirstIsEarliest | backend/app.py:52 | in an ascending sequence no row is earlier than the first |
| LoginTable.InsertMultiset | backend/app.py:52 | the insertion step adds exactly the one row to the multiset of rows |
| LoginTable.InsertLowerBound | backend/app.py:52 | a lower bound of the row and of the sequence bounds the result of the insertion |
| LoginTable.InsertSorted | backend/app.py:52 | inserting into an ascending sequence keeps it ascending |
| LoginTable.SortByTimestamp | backend/app.py:52 | `ORDER BY timestamp ASC` returns an ascending permutation of its input |
| LoginTable.Table.DeleteAll | backend/data_generation.py:23 | the table is empty afterwards |
| LoginTable.Table.DeleteRange | api/cron_fill.py:20 | exactly the rows of `[start, end)` are removed; the others stay, in their order |
| LoginTable.Table.Insert | data_generation.py:42 | the row is appended at the end |
| LoginTable.Table.InsertMany | backend/data_generation.py:62 | the batch is appended at the end in its order |
| LoginTable.Table.Count | backend/data_generation.py:76-77 | returns the number of rows |
| Backfill.Synthesize | backend/data_generation.py:53-57 | the row has the given timestamp; response time, request and response size lie in `[50,900]`, `[10,300]` and `[20,400]` for any `z`; status and region are the picked entries of the constant tuples |
| Backfill.Plan | backend/data_generation.py:47-68 | the loop generates one row per iteration; `Backfill.PlanShape` states the timestamps and bounds |
| Backfill.PlanShape | backend/data_generation.py:47-68 | the loop's rows carry timestamps `start + k` for `0 <= k < total_minutes`: strictly increasing, never reaching `end`, and all within bounds |
| Backfill.PlanSnoc | backend/data_generation.py:59 | one more iteration appends exactly one more row |
| Backfill.Progress | backend/data_generation.py:61-74 | every counter value reported after a flush is positive and at most the number of minutes; `Backfill.ProgressShape` states the schedule |
| Backfill.ProgressShape | backend/data_generation.py:61-74 | the `inserted` values reported after each flush: every in-loop flush writes exactly 10 000 rows; the tail flush writes 1 to 9 999 rows and is skipped when nothing is left; the counter strictly increases and ends at `total_minutes` |
| Backfill.ProgressFromFlushes | backend/data_generation.py:61-74 | full batches followed by a tail shorter than a batch give exactly that flush schedule |
| Backfill.CheckCount | backend/data_generation.py:76-79 | the check fails exactly when the count differs from `total_minutes`, and it reports both numbers |
| Backfill.RowBuffer.constructor | backend/data_generation.py:45 | the buffer starts empty |
| Backfill.RowBuffer.Contents | backend/data_generation.py:59-66 | the buffered rows are as many as the buffer's length |
| Backfill.RowBuffer.Append | backend/data_generation.py:59 | the row is appended after the rows already buffered; the array grows when full |
| Backfill.RowBuffer.Clear | backend/data_generation.py:66 | the buffer is empty afterwards and keeps its array |
| Backfill.Flush | backend/data_generation.py:62-66 | `executemany` then `batch.clear()`: the buffered rows go to the end of the table in their order, the count is their number, and the buffer is left empty in the same array |
| Backfill.Step | backend/data_generation.py:50-68 | one iteration generates the row of minute `start + i`, buffers it and flushes a full buffer, keeping the loop invariant: table plus buffer hold the first `i + 1` planned rows, fewer than 10 000 are buffered, and every flush so far wrote a full batch |
| Backfill.WriteMinutes | backend/data_generation.py:44-74 | starting from the emptied table: afterwards the table holds exactly the planned rows in generation order, `inserted` equals the number of minutes, and the reported counters follow the flush schedule. The loop invariant keeps table plus buffer equal to the rows generated so far, with fewer than 10 000 rows buffered |
| Backfill.Run | backend/data_generation.py:20-79 | a missing DATABASE_URL fails before any change; an end not after 2025-01-01 fails after the table has already been emptied; otherwise the run succeeds with `total_minutes` rows, which are exactly the planned ones, so the final count check never fails |
| Seeding.Synthesize | data_generation.py:36-40 | each clipped normal draw, truncated, lies in `[50,900]`, `[10,300]` or `[20,400]`; status and region are picked from the constant lists |
| Seeding.Plan | data_generation.py:33-42 | the loop inserts one row per iteration; `Seeding.WeekShape` states the timestamps and bounds |
| Seeding.WeekShape | data_generation.py:25-34 | 10 080 rows stamped `now - 7 days + i` minutes, strictly increasing, the last one a minute before `now`, all within bounds |
| Seeding.CommitLog | data_generation.py:44-48 | one in-loop commit per started block of 500 iterations, the k-th after iteration `500 k`, then the final commit last |
| Seeding.CommitLogExact | data_generation.py:44-48 | an in-loop commit follows iteration `i` exactly when `i % 500 == 0`; the commits come in loop order, and the final commit comes last |
| Seeding.WeekCommits | data_generation.py:26-48 | over the week there are 21 in-loop commits, at `i = 0, 500, ..., 10000`, plus the final one |
| Seeding.CommitCount | data_generation.py:44-45 | the loop's bound on the last commit fixes the number of in-loop commits |
| Seeding.Run | data_generation.py:33-48 | the week's rows are appended in order, after the rows already in the table; the commits issued are the commit log |
| DailyFill.Yesterday | api/cron_fill.py:15-17 | both ends are UTC midnights one day apart, and the current instant lies in the day after the window |
| DailyFill.GenerateSeries | api/cron_fill.py:31 | `generate_series(lo, hi)` gives every integer from `lo` to `hi` inclusive, in order, and nothing when `lo > hi` |
| DailyFill.Round | api/cron_fill.py:26-28 | `round` lands within half a unit of its argument |
| DailyFill.ArrayIndex | api/cron_fill.py:29-30 | `1 + floor(random() * n)` is a valid 1-based index into an array of `n` entries |
| DailyFill.SqlRow | api/cron_fill.py:24-30 | each SELECT row has the series timestamp, all three sizes within bounds, and a status and region from the arrays |
| DailyFill.SeriesRows | api/cron_fill.py:22-32 | the `INSERT ... SELECT` adds one row per minute of the window, and none for an empty window |
| DailyFill.SeriesRowsShape | api/cron_fill.py:22-32 | the insert adds 1440 rows for the one-day window, the k-th at `start + k`, strictly increasing, all inside `[start, end)`, every minute present, all within bounds |
| DailyFill.Refill | api/cron_fill.py:20-32 | delete-then-insert leaves the kept rows plus the inserted ones, and no other rows |
| DailyFill.RefillWindow | api/cron_fill.py:20-32 | after delete-then-insert the window holds exactly the inserted series (1440 rows), whatever it held before |
| DailyFill.RefillOutside | api/cron_fill.py:20-32 | delete-then-insert leaves every row outside the window as it was, in the same order |
| DailyFill.RefillTwice | api/cron_fill.py:13-37 | refilling twice is exactly one refill with the second draws; the outside rows, the 1440-row window and the total count are as after the first run |
| CronHandler.Sanitize | api/cron_fill.py:36 | same length; every `"` becomes `'` and every other character is kept; no `"` is left |
| CronHandler.SanitizeIdempotent | api/cron_fill.py:36 | replacing twice is replacing once, and a message without `"` is unchanged |
| CronHandler.ErrorResponse | api/cron_fill.py:37 | status 500 with the JSON content type; the body is the template's prefix, then the sanitised message (`Sanitize`), then the template's suffix, and the middle contains no `"` |
| CronHandler.ErrorBodyQuotes | api/cron_fill.py:36-37 | the error body is the template's prefix, then the message character by character with each `"` replaced by `'`, then the template's suffix; no `"` is left between them |
| CronHandler.Handler | api/cron_fill.py:13-37 | status 200 with `{"ok":true}` exactly when the connection succeeds and no statement fails, and then the table is the refill of yesterday; a missing DATABASE_URL, or a failing connect or delete, gives a 500 with the sanitised message and an unchanged table; a failing insert gives a 500 with the window already deleted |
| CronHandler.HandlerTwice | api/cron_fill.py:13-37 | two successful runs at any two instants of the same UTC day leave the table exactly as one refill with the second run's draws: the window holds 1440 rows, the outside rows are as before, and the row count is that of a single run |
| Metrics.GetMetrics | backend/app.py:36-68 | errors are passed through as `{ok: False, error}`; on success `count` is the number of rows returned, and the rows are an ascending permutation of exactly the rows with `start <= timestamp <= end`. app.py:28-60 is the same route |
| Metrics.BetweenLastMinute | backend/app.py:51 | the inclusive range up to `end - 1` minute selects the same rows as the half-open window up to `end` |
| Metrics.ReadAfterRefill | backend/app.py:36-68 | reading a freshly refilled day from its first minute to its last returns 1440 rows, exactly the inserted ones |
| BackendApi.CronFill | backend/app.py:71-99 | a missing DATABASE_URL answers `{ok: False, "DATABASE_URL not set"}` before any change; with no failure the answer carries the window and the table is its refill; a failing connect or delete leaves the table unchanged; a failing insert leaves the window deleted |
| Dashboard.ErrorCount | frontend/script.js:22 | the count is at most the number of records, and it is zero exactly when no record has status `>= 400` |
| Dashboard.Total | frontend/script.js:23 | `total` is never below `errorCount` |
| Dashboard.ErrorCountBounds | frontend/script.js:22-23 | `errorCount <= total`, with equality exactly when every request failed |
| Dashboard.Distinct | frontend/script.js:48 | `[...new Set(s)]` has no duplicates and contains exactly the values of `s` |
| Dashboard.FirstIndex | frontend/script.js:48 | the first position holding the value: it holds it, and no earlier position does |
| Dashboard.FirstIndexSnoc | frontend/script.js:48 | appending a value does not move an existing first occurrence |
| Dashboard.OrderSnoc | frontend/script.js:48 | first-occurrence order survives appending to the source, and a new value may join at the end |
| Dashboard.DistinctOrder | frontend/script.js:48 | the distinct values come in the order of their first occurrences |
| Dashboard.RegionsOf | frontend/script.js:48 | `data.map(d => d.region)` keeps length and position |
| Dashboard.Regions | frontend/script.js:48 | `regions` has no duplicates and holds exactly the values of `data.map(d => d.region)` |
| Dashboard.RegionsSpec | frontend/script.js:48 | `regions` has no duplicates, names exactly the regions occurring in the data, in first-occurrence order |
| Dashboard.RegionErrors | frontend/script.js:49 | a region's error count never exceeds the total error count |
| Dashboard.ErrorsOver | frontend/script.js:49 | entry `i` of `errorByRegion` is the error count of `regions[i]` |
| Dashboard.ErrorsByRegion | frontend/script.js:49 | `errorByRegion` has one entry per region of `regions`, and entry `i` is the error count of `regions[i]` |
| Dashboard.SumErrorsOver | frontend/script.js:49 | over distinct regions, the per-region counts add up to the errors in those regions |
| Dashboard.ErrorsByRegionSum | frontend/script.js:22-49 | the entries of `errorByRegion` add up to `errorCount` |
| Dashboard.Slice | frontend/script.js:65 | `slice` never returns more records than the array holds |
| Dashboard.LastTen | frontend/script.js:65 | `data.slice(-10)` is the last `min(10, data.length)` records in their original order |
| Dashboard.RecentRows | frontend/script.js:65-74 | the table body gets at most ten rows, and no more than there are records |
| Dashboard.RecentRowsSpec | frontend/script.js:65-74 | the table body gets one row per record of the last ten, neither reordered nor filtered |

## Left out

- Database I/O: the drivers, cursors, transactions and the SQL engine are not modelled. The table is a sequence. Each DELETE and INSERT is a method that reassigns it, COUNT is a method that only reads it, and the `/metrics` SELECT is a function of a snapshot. The seeding script's commits are only a log.
- Connection details: the seeding script connects with separate user, password and host variables; the model does not represent them.
- Random number generation and the Box-Muller transform (`math.log`, `sqrt`, `cos`), `np.random.normal` and SQL `random()`: the draws are parameters, so every property holds for any draw.
- Clocks and time zones: `datetime.now`, `datetime.utcnow` and the dates are integer minutes or days passed in. The seconds and microseconds of `utcnow()` in the seeding script are dropped, so its timestamps are whole minutes.
- ISO formatting of the instants returned by `/cron_fill` and parsing of the `/metrics` query parameters: the model returns the minute values.
- The `id` column and the dict-row shape of `/metrics` results: rows carry the six stored columns.
- Progress `print`s: they become the returned progress and commit logs.
- FastAPI routing, CORS, `load_dotenv` and `os.getenv`: the variable is an `Option<string>` parameter. The `/` route returns a constant and is not modelled.
- Browser code: DOM manipulation, Chart.js, `toLocaleTimeString`, `toFixed`, the float average `avgResponse` and the error-rate percentage are UI and floating-point work. The hard-coded data array is replaced by an arbitrary sequence. The time cell shows the stored timestamp text.
- DailyFill.Round: models `round` for the non-negative values the SELECT uses, rounding halves up. Tie-breaking does not affect the bounds.
- LoginTable.SortByTimestamp: the order among rows with equal timestamps is left open, as in SQL; the contract promises only an ascending permutation.
- Backfill.Run: connection and statement failures after `get_conn`, except the count check, are not modelled in the backfill script; likewise for the seeding script.
- Backfill.Run: it assumes no other writer between the delete and the final count; the table is the only state.
- CronHandler.Response: the handler returns its body as bytes (`b'...'` and `.encode()`); the model keeps it as a string of characters, so lengths count characters, not UTF-8 bytes.
- CronHandler.Sanitize: like the source, it replaces only `"`; backslashes and control characters such as newlines pass through, so the error body need not be valid JSON, and no contract claims that it is.
- BackendApi.CronFill: the connection string is checked but not used further; the call to the driver is left out.
