# Stock pipeline model

A Dafny model of `stock_pipeline.py`, a small extract-transform-load job. Once
a minute it fetches the latest daily MSFT price bar from a market-data
provider, normalises it to the six columns Date, Open, High, Low, Close,
Volume and appends it to a warehouse table.

The model follows the program's structure, one module per concern:

- `Wrappers` holds `Option` and `Result`. `Errors` holds the exceptions the pipeline raises.
- `Dates` holds calendar dates and the `YYYY-MM-DD` form that `strftime('%Y-%m-%d')` writes and `pd.to_datetime` reads.
- `Frames` holds DataFrames: column labels, rows keyed by an index value, and cells as opaque values.
- `Fetch` holds `fetch_stock_data`, a retry loop over the provider's answers.
- `Transform` holds `process_data`: `reset_index`, date formatting, the missing-column check and the projection.
- `Load` holds both definitions of `upload_to_bigquery`.
- `Scheduler` holds `main` and the outer `while True` loop.

The outside world is passed in as data:

- the provider's answer to each attempt is a `Fetch.Response`;
- the outcome of each warehouse load job is a `Load.JobOutcome`;
- the warehouse table is a sequence of records, passed in and returned;
- every `time.sleep` becomes an entry in a returned list of pauses, in seconds.

The retry loops of `fetch_stock_data` and of the retrying upload are methods
with loops. Each is proved equal to a recursive specification function,
`Fetch.FetchFrom` or `Load.RetryFrom`. `main` has no loop. It is a method
proved equal to the function `Scheduler.CycleOf`, which composes fetch,
process and upload. The `while True` loop is the method
`Scheduler.RunScheduler`. Its contract states the whole run directly: the
chain of tables the completed cycles produced, the failing cycle's error,
and the exact list of pauses, given by the recursive function
`Scheduler.SleepLog`. The properties of the program are lemmas about these
functions.

In three places the code does not do what its design or its comments
describe. The model follows the code in each case:

- `upload_to_bigquery` is defined twice (lines 15-32 and 82-103). Python binds the name to the second definition, so `main` calls the loader that does not retry. The retrying loader is modelled as well, as `Load.UploadWithRetry`, but nothing calls it.
- The retrying loader's comment calls its backoff exponential. The code waits `(attempt + 1) * 5` seconds, which is linear: 5 s, then 10 s.
- The outer loop does not sleep after a failing cycle. `main` re-raises its exception, nothing catches it, and the loop ends before `time.sleep(60)`.

## Model

| member | source | states |
|---|---|---|
| Frames.IsEmptyNoCells | stock_pipeline.py:45 | `DataFrame.empty` (the predicate `Frames.IsEmpty`): a well-formed frame is empty exactly when it holds no cell at all; the same test guards `process_data` (line 68) and the live loader (line 84) |
| Fetch.FinalError | stock_pipeline.py:51-64 | after the last failed attempt the error names 3 attempts; it is the network error exactly when the last failure was a `RequestException`; an empty frame is reported with "No data received from yfinance" |
| Fetch.FetchStockData | stock_pipeline.py:35-64 | the loop's result, pauses and call count equal the recursive specification `FetchFrom`; 1 to 3 provider calls; a returned frame is never empty |
| Fetch.FetchFirstSuccess | stock_pipeline.py:40-49 | `k` failed attempts then a non-empty frame: that frame is returned after exactly `k` pauses of 5 s and `k + 1` calls |
| Fetch.FetchFirstSuccessFrom | stock_pipeline.py:40-62 | the same property from any starting attempt `a`: `k - a` pauses of 5 s |
| Fetch.FetchAllFail | stock_pipeline.py:51-64 | three failed attempts: no value is returned; the error names 3 attempts; it is "Network error" exactly when the third failure was a `RequestException` and "Failed to fetch" otherwise; pauses are [5, 5], with none after the last failure |
| Fetch.FetchAllFailFrom | stock_pipeline.py:51-64 | the same property from any starting attempt |
| Fetch.FetchEmptyIsError | stock_pipeline.py:45-46 | an empty frame is handled the same as a provider exception with the text "No data received from yfinance" |
| Fetch.FetchIgnoresLaterResponses | stock_pipeline.py:37-40 | answers beyond the third are never consulted |
| Fetch.FetchRunShape | stock_pipeline.py:38-62 | at most 3 calls; one 5 s pause fewer than calls; a returned frame is one of the first three answers and is non-empty |
| Dates.FormatIso | stock_pipeline.py:72 | `strftime('%Y-%m-%d')` yields 10 characters: digits, '-' at positions 4 and 7, digits |
| Dates.ParseIso | stock_pipeline.py:72 | a parsed text has the `YYYY-MM-DD` shape |
| Dates.ParseFormatIso | stock_pipeline.py:72 | parsing a formatted date gives back the date |
| Dates.FormatParseIso | stock_pipeline.py:72 | formatting a parsed text gives back the text, so the form is canonical |
| Dates.FormatIsoExample | stock_pipeline.py:72 | 1 May 2024 is written "2024-05-01" |
| Transform.IndexLabel | stock_pipeline.py:71 | `reset_index` labels the new column with the index's name; an unnamed index is labelled "index", or "level_0" exactly when "index" is already a column |
| Transform.ToDatetime | stock_pipeline.py:72 | `pd.to_datetime` keeps a Timestamp's date, rejects a number, and reads text only as the date whose `YYYY-MM-DD` form it is |
| Transform.ToDatetimeText | stock_pipeline.py:72 | text converts to a given date exactly when it is that date's `YYYY-MM-DD` form |
| Transform.ResetIndex | stock_pipeline.py:71 | `reset_index` fails exactly when the index label is already a column; otherwise the label is put first among the columns, each row's key becomes its cell, the other cells are kept and the row count is unchanged |
| Transform.FormatRow | stock_pipeline.py:72 | one row's Date cell becomes text holding the same date; the key and the other cells are unchanged |
| Transform.FormatDates | stock_pipeline.py:72 | fails exactly when some Date cell is not a date; otherwise every Date cell is text of the same date and nothing else changes |
| Transform.MissingFrom | stock_pipeline.py:75 | a name is reported exactly when it is required and not a column |
| Transform.MissingFromOrdered | stock_pipeline.py:74-75 | the reported names keep the required order |
| Transform.NoneMissing | stock_pipeline.py:75-77 | nothing is reported when every required name is a column |
| Transform.Project | stock_pipeline.py:80 | `df[required_columns]` has exactly the six columns in order, the same rows and keys, and the same cells under those columns |
| Transform.ProcessData | stock_pipeline.py:66-80 | "No data to process" exactly for absent or empty input; on success the columns are exactly Date, Open, High, Low, Close, Volume, the row count is unchanged and every Date is `YYYY-MM-DD` text; a missing-columns error names at least one column, only required names in required order, and never Date |
| Transform.ProcessProviderFrame | stock_pipeline.py:66-80 | a provider frame with all five value columns is processed; each row becomes its session date as `YYYY-MM-DD` text plus its own Open to Volume cells, and nothing else |
| Transform.ProcessedRecords | stock_pipeline.py:66-80 | processing a provider frame hands the loader one normalised record per input row, in order |
| Transform.ProcessReportsMissing | stock_pipeline.py:72-78 | with some value column absent, processing raises the missing-columns error; it names exactly the absent value columns, in required order |
| Load.Upload | stock_pipeline.py:82-103 | "No data to upload" exactly for absent or empty input; succeeds exactly when the input is non-empty and the job completes; the new table is the old one followed by the frame's rows; otherwise the job's error is raised |
| Load.UploadRefusesEmptyFirst | stock_pipeline.py:84-85 | an empty input gives "No data to upload" whatever the table and the job: nothing is contacted |
| Load.Backoff | stock_pipeline.py:27-30 | pause `i` after attempt `a + i` is `(a + i + 1) * 5` seconds |
| Load.UploadWithRetry | stock_pipeline.py:15-32 | the loop's outcome equals the specification `RetryFrom`; it only appends; it runs at most `max_retries` jobs; after its first job it pauses on the linear schedule; with `max_retries == 0` it returns without loading |
| Load.RetryUntilLoaded | stock_pipeline.py:20-30 | unavailable errors and then a completed job: the frame is appended after pauses of 5, 10, ... seconds, one for each unavailable attempt |
| Load.RetryOtherErrorPropagates | stock_pipeline.py:20-32 | any error other than "service unavailable" propagates at once, with no further attempt and no pause after it |
| Load.RetryExhausted | stock_pipeline.py:26-32 | unavailable on every attempt: the last unavailable error is re-raised, with no pause after it |
| Load.DefaultRetrySchedule | stock_pipeline.py:15-32 | with the default three attempts, unavailable twice and then completed: it waits 5 s, then 10 s, and appends the frame after 3 jobs |
| Load.RetryRunShape | stock_pipeline.py:18-32 | the new table is the old one or the old one followed by the frame; at most `max_retries` jobs; one pause fewer than jobs, on the linear schedule; no jobs and no change when no attempt is left |
| Scheduler.RunCycle | stock_pipeline.py:105-125 | `main()`'s table, the steps it enters and its pauses equal the specification `CycleOf` |
| Scheduler.CycleShortCircuits | stock_pipeline.py:111-125 | processing is entered exactly when the fetch succeeded and uploading exactly when processing also succeeded; a failing cycle re-raises that step's error unchanged |
| Scheduler.CycleAppendsNormalRows | stock_pipeline.py:111-121 | a successful cycle only appends at least one row, and every appended row has exactly the six normalised columns |
| Scheduler.FetchedWellFormed | stock_pipeline.py:113 | a frame the fetch step hands on is one the provider returned: well formed and non-empty |
| Scheduler.CycleDelays | stock_pipeline.py:111-125 | a cycle pauses only inside `fetch_stock_data`: its pauses are exactly the fetch's |
| Scheduler.SleepLogSnoc | stock_pipeline.py:128-131 | completing one more cycle extends the pause log with that cycle's fetch pauses and then the 60 s wait |
| Scheduler.HistoryStep | stock_pipeline.py:128-129 | a cycle that completes on the last table of a history extends the history by its new table |
| Scheduler.HistoryAppends | stock_pipeline.py:127-131 | along any chain of completed cycles the table is only appended to, and every appended row has exactly the six normalised columns |
| Scheduler.RunScheduler | stock_pipeline.py:127-131 | the loop stops at the first failing cycle and reports its error, taken against the table the earlier cycles left; every environment is used exactly when no cycle fails; each completed cycle turns one table into the next; the table is only appended to, with six-column rows; the pauses are, in order, each completed cycle's fetch pauses followed by the 60 s wait, then the failing cycle's fetch pauses with no wait after them |
| Scheduler.ExampleFrameShape | stock_pipeline.py:43 | the example provider answer, one session on 2024-05-01 with extra Dividends and Stock Splits columns, is provider-shaped and non-empty |
| Scheduler.ExampleProcessed | stock_pipeline.py:66-80 | that session is processed into exactly one record: Date "2024-05-01", then the given Open, High, Low, Close and Volume |
| Scheduler.EndToEndExample | stock_pipeline.py:105-121 | first fetch attempt succeeds and the load job completes: the cycle appends exactly that one record to the table |

## Left out

- Printing: every `print` is omitted, along with the `main` message that goes with a re-raise.
- Real time: `time.sleep` is not modelled as time passing. Each pause is recorded as a number of seconds.
- The infinite loop: `while True` is modelled over a finite sequence of cycle environments. It ends at the first failing cycle or when the sequence runs out.
- Library calls: the yfinance call, the BigQuery client and load job, `service_account.Credentials` and `load_dotenv` are foreign calls. They are not modelled. Their observable outcomes are supplied as oracle values.
- Credential, client and configuration failures: a failure to read credentials or to build a client or job in the live loader is one `Failed` job outcome.
- The retrying loader's clients: `bigquery.Client()` and `LoadJobConfig` are built before its retry loop. A failure there is not modelled.
- Configuration plumbing: the credentials filename and the project, dataset and table identifiers are not modelled. Neither is the `GCP_PROJECT_ID` lookup. The warehouse table is a single value.
- Prices and volumes are floats and integers from the provider. They are opaque cells and are never computed on.
- Date conversion: `pd.to_datetime` accepts only Timestamps and canonical `YYYY-MM-DD` text. Every other value is a conversion error, including numbers and other date spellings that pandas would parse.
- Timezones and time of day are not modelled. A Timestamp's clock part is kept opaque and dropped by formatting.
- Fetch.FetchStockData: requires at least three provider answers, because each attempt needs an outcome; the provider's own behaviour is not modelled.
- Scheduler.RunCycle: requires every frame the provider returns to be well formed: unique column labels and one cell per column in each row. pandas allows repeated labels, and `df[required_columns]` would then select every column of a repeated name. Such frames are not modelled.
- Load.UploadWithRetry: models `max_retries` as a natural number. A negative value, which the loop would treat like 0, is not modelled.
- The `yf.py` script only prints attributes fetched through yfinance. It is not part of this model.
