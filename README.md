# ccxt-download, modelled in Dafny

This project models the core of `ccxt-download`. The package downloads
market data from cryptocurrency exchanges through ccxt and stores it as
one file per partition (a symbol, a data type and a time window) in a
download directory. It reads such files back with `load_data`.

Six modules:

- `Wrappers` holds `Option`.
- `Strings` models the Python `str` operations the code uses: `in`,
  `replace`, `split`, `join` and `lower`.
- `Calendar` models instants in integer milliseconds (UTC),
  `strftime("%Y-%m-%d")` and whole-day steps.
- `Tables` models a table as a sequence of rows, each with an index
  timestamp and column values. It also models `sort_index` and
  `drop_duplicates`.
- `Utilities` models `src/ccxt_download/utilities.py`:
  - `format_str` and `unformat_str`;
  - `filename_builder`;
  - `generate_date_range`;
  - `load_data`, with its file filter, its candidate-path loops, its load
    loop and its clean-up.
- `Public` models `src/ccxt_download/public.py`:
  - `_check_to_proceed`, over a `Disk` class whose `files` map is updated
    in place;
  - the paging loop of the three helpers, over an `Exchange` class that
    answers requests through a provider function and logs every call;
  - the window filter and the meta columns of the three helpers;
  - the chunk loops of `candles`, `trades` and `funding`;
  - the task collection and the run of `download_async`.

The loops of the source are `while`/`for` loops in methods. Each method is
proved equal to a specification function. The properties the code
promises are lemmas about those functions.

The specification functions, and the code each one stands for:

- `Utilities.Escape` and `Utilities.Unescape`: what `format_str` and
  `unformat_str` compute (utilities.py:10-22).
- `Utilities.DictSet` and `Utilities.Reversed`: a dict as its items in
  insertion order, and the dict comprehension that reverses
  `STR_CONVERSIONS` (utilities.py:19).
- `Utilities.FileName`: `filename_builder` (utilities.py:25-43), built
  from `RawName` and `PathJoin`.
- `Utilities.DateRange`: `generate_date_range` (utilities.py:46-56).
- `Tables.SortByIndex`, `Tables.DropDuplicates` and `Tables.Clean`:
  `sort_index`, `drop_duplicates` and the two together (utilities.py:152-154).
- `Calendar.DateLabel`: `strftime("%Y-%m-%d")` of an instant.
  `Calendar.DaysFromCivil` is an independent reference: the day number of
  a calendar date.
- `Public.IncompleteSibling`, `Public.Proceeds` and `Public.AfterCheck`:
  the sibling name, the answer and the directory left by
  `_check_to_proceed` (public.py:191-205).
- `Public.Paged`: the paging loop of the three helpers (public.py:332-346).
- `Public.InWindow`: the window filter (public.py:353).
- `Public.Partition`: one helper call after its name is built
  (public.py:312-371).

## Model

| member | source | states |
|---|---|---|
| Utilities.DictSetItems | src/ccxt_download/utilities.py:19 | `d[k] = v` on a dict keeps its keys distinct. Afterwards the dict holds (k, v) and every old item whose key is not k. |
| Utilities.DictSetAppend | src/ccxt_download/utilities.py:19 | Setting a key that is not yet in the dict appends the item at the end. |
| Utilities.Reversed | src/ccxt_download/utilities.py:19 | The reversed dict has no key twice. |
| Utilities.ReversedItems | src/ccxt_download/utilities.py:19 | The reversed dict maps v to k exactly when (k, v) is a pair of the table and no later pair has the value v. A value shared by several keys ends up mapped to the last of them. |
| Utilities.ReversedOfDistinct | src/ccxt_download/utilities.py:19 | With no value repeated, the reversed dict is the table with each pair swapped, in the same order. |
| Utilities.ReversedConversions | src/ccxt_download/constants.py:9 | The reversed `STR_CONVERSIONS` maps "%2F" to "/" and then "%3A" to ":". |
| Utilities.EscapeSafe | src/ccxt_download/utilities.py:10-14 | After the escape, no "/" and no ":" is left, and the escape adds no ".". |
| Utilities.EscapePrefix | src/ccxt_download/utilities.py:10-14 | A string without "%", "2", "F", "3" and "A" that starts the escape of t also starts t. |
| Utilities.EscapeMatchIsOriginal | src/ccxt_download/utilities.py:10-14 | The escape creates no new occurrence of a string without "%", "2", "F", "3" and "A". Every such occurrence in the escaped string is in the original. |
| Utilities.EscapeByTable | src/ccxt_download/utilities.py:12-13 | Applying the `STR_CONVERSIONS` table entry by entry ("/" then ":") is the same as replacing each "/" by "%2F" and each ":" by "%3A". |
| Utilities.FormatStr | src/ccxt_download/utilities.py:10-14 | The loop over the table computes the character-wise escape, and its result has no "/" and no ":". |
| Utilities.UnescapeByTwoPasses | src/ccxt_download/utilities.py:19-21 | `unformat_str` first turns "%2F" into "/" and then "%3A" into ":". |
| Utilities.UnformatStr | src/ccxt_download/utilities.py:17-22 | The loop over the reversed table computes the unescape. Given the escape of any x without "%", it returns x. |
| Utilities.UnescapeEscape | src/ccxt_download/utilities.py:17-22 | `unformat_str(format_str(x)) == x` for every x without "%". |
| Utilities.UnescapeNotInverseOnPercent | src/ccxt_download/utilities.py:17-22 | The inverse fails once "%" is allowed: `format_str("%2F")` is "%2F", and `unformat_str` of that is "/". |
| Utilities.FlatName | src/ccxt_download/utilities.py:39-42 | `os.path.join` puts the directory, then a "/" when the directory lacks one, in front of the name. The escaped name has no "/" or ":" and ends in ".csv.gz". |
| Utilities.FileNameLayout | src/ccxt_download/utilities.py:25-43 | The path `FileName` builds is the directory prefix plus `Escape` of the raw name. That name has no "/" or ":" and ends in ".csv.gz". When the raw name has no "%", unescaping the name gives the raw name back. |
| Utilities.FileNameParts | src/ccxt_download/utilities.py:34-41 | Each part of the name is escaped on its own. A date label, or a verbatim start such as "*" with no "/" or ":", passes through unchanged. |
| Utilities.DateLabelIsSafe | src/ccxt_download/utilities.py:35 | A date label contains no "/", ":" or ".". |
| Utilities.DateRangeAt | src/ccxt_download/utilities.py:46-56 | For each k below the day count, the range has that many entries, and entry k is the label of start + k days, which is before end. |
| Utilities.GenerateDateRange | src/ccxt_download/utilities.py:46-56 | The loop that steps one day at a time returns exactly that range. |
| Utilities.StepDays | src/ccxt_download/utilities.py:51-56 | The `while current_dt < end_dt` loop, for any per-day label, collects the label of every day start before the end in increasing order. |
| Utilities.FilterFiles | src/ccxt_download/utilities.py:75-82 | The nested loops output each file, in input order, once for each match string it contains. |
| Utilities.MatchCountPositive | src/ccxt_download/utilities.py:78-80 | A file is counted at least once exactly when some match string occurs in it. |
| Utilities.FilteredMembership | src/ccxt_download/utilities.py:75-82 | A file is in the output exactly when it is in the input and contains a match string, so files that match nothing are dropped. |
| Utilities.FilteredMultiplicity | src/ccxt_download/utilities.py:75-82 | A file occurs in the output as often as in the input, times the number of match strings it contains. |
| Utilities.FilteredConcat | src/ccxt_download/utilities.py:77-81 | The filter works file by file, so it keeps the input order. |
| Utilities.CrossProduct | src/ccxt_download/utilities.py:90-101 | The nested date/symbol loops, given the query's name builder, produce the date-major list of built names. |
| Utilities.CrossNamesLength | src/ccxt_download/utilities.py:90-101 | There are \|dates\| × \|symbols\| candidates. |
| Utilities.CrossNamesAt | src/ccxt_download/utilities.py:90-101 | Position i·\|symbols\| + j holds the `filename_builder` name of date i and symbol j. |
| Utilities.GlobSymbols | src/ccxt_download/utilities.py:118-130 | The loop concatenates, in symbol order, the glob results of the wildcard names for each symbol. |
| Utilities.GlobEachConcat | src/ccxt_download/utilities.py:118-130 | Globbing a list of symbols distributes over concatenation of the list. |
| Utilities.GlobEachMembership | src/ccxt_download/utilities.py:118-130 | A path is collected exactly when the glob of some symbol's wildcard name returns it. |
| Utilities.LoadFiles | src/ccxt_download/utilities.py:144-150 | The load loop concatenates the rows of the readable files in candidate order. A file whose read fails adds nothing. |
| Utilities.ReadableConcat | src/ccxt_download/utilities.py:144-150 | Loading works file by file: loading a + b is loading a, then loading b. |
| Utilities.UnreadableSkipped | src/ccxt_download/utilities.py:147-150 | An unreadable file anywhere in the list is skipped without affecting the others. |
| Utilities.ReadableOrigin | src/ccxt_download/utilities.py:144-150 | Every loaded row comes from a readable candidate file. |
| Utilities.LoadData | src/ccxt_download/utilities.py:59-156 | `load_data` picks the candidate list of its branch and loads it. The result is cleaned, sorted by index, and has no two rows with equal column values. |
| Tables.SortByIndex | src/ccxt_download/utilities.py:153 | The sorted table is ordered by index and is a permutation of its input. |
| Tables.DropDuplicatesDistinct | src/ccxt_download/utilities.py:154 | After `DropDuplicates`, no two rows have equal column values. |
| Tables.DropDuplicatesCovers | src/ccxt_download/utilities.py:154 | Every column tuple of the input is still present. |
| Tables.DropDuplicatesKeepsFirst | src/ccxt_download/utilities.py:154 | A row is kept exactly when it is the first occurrence of its column values. |
| Tables.DropDuplicatesSorted | src/ccxt_download/utilities.py:153-154 | Dropping duplicates keeps a sorted table sorted. |
| Tables.CleanSpec | src/ccxt_download/utilities.py:152-154 | The table `Clean` returns: <br>- is sorted by index; <br>- has distinct column values; <br>- keeps exactly the input's column tuples; <br>- holds only input rows. |
| Calendar.DateLabel | src/ccxt_download/utilities.py:35 | A label has ten characters, with "-" at positions 4 and 7. |
| Calendar.CivilRoundTrip | src/ccxt_download/utilities.py:35 | The date of every day number is a real date: a month from 1 to 12 and a day within that month's length. Counting calendar days from 1970-01-01 to it gives the day number back. |
| Calendar.DaysFromCivilNext | src/ccxt_download/utilities.py:35 | The reference day count follows the calendar: the day after a real date is a real date, and its day number is one more. |
| Calendar.LabelRoundTrip | src/ccxt_download/utilities.py:35 | For years 1 to 9999, reading the year, month and day back out of a label gives the day the instant falls in. |
| Calendar.DateLabelInjective | src/ccxt_download/utilities.py:35 | For years 1 to 9999, two instants get the same label exactly when they fall in the same UTC day. |
| Calendar.EpochExample | src/ccxt_download/utilities.py:35 | 1970-01-01 is day 0. |
| Calendar.CivilExample | src/ccxt_download/utilities.py:35 | Day 19601 is 2023-09-01. |
| Calendar.DateLabelChars | src/ccxt_download/utilities.py:35 | Every character of a label is a digit or "-". |
| Calendar.LabelExample | src/ccxt_download/utilities.py:35 | The instant 1 693 526 400 000 ms gets the label "2023-09-01". |
| Calendar.DayStepsLength | src/ccxt_download/utilities.py:46-56 | A day loop takes exactly `DayCount` steps: ceil((end - start) / 1 day), and none when start >= end. |
| Calendar.DayCount | src/ccxt_download/utilities.py:53-55 | The number of whole-day steps before end is 0 when start >= end. Otherwise the last step is before end and one more step would reach it. |
| Calendar.DayStepsAt | src/ccxt_download/public.py:423-442 | Step k of a day loop is taken at start + k days, which lies in [start, end). |
| Calendar.DayWindowsCover | src/ccxt_download/public.py:423-442 | The one-day windows of a day loop cover every instant of [start, end). |
| Public.Disk.Remove | src/ccxt_download/public.py:202 | `os.remove` deletes exactly that file. |
| Public.Disk.Write | src/ccxt_download/public.py:371 | `to_parquet` creates or overwrites exactly that file. |
| Public.CheckToProceed | src/ccxt_download/public.py:191-205 | It answers False exactly when the file exists and its name lacks "incomplete". It deletes the incomplete sibling if present and leaves every other file alone. |
| Public.IncompleteSiblingIsReplace | src/ccxt_download/public.py:198 | The sibling `IncompleteSibling` computes is the name with each ".parquet" replaced by "_incomplete.parquet". A name without ".parquet" is its own sibling. |
| Public.IncompleteSiblingOfParquet | src/ccxt_download/public.py:198 | For a stem without ".", the sibling of "stem.parquet" is "stem_incomplete.parquet". |
| Public.CheckRemovesCompleteFile | src/ccxt_download/public.py:191-205 | For an existing name that lacks ".parquet" and "incomplete", the check answers False and deletes that same file, so a second check answers True. |
| Public.RawNameNoParquet | src/ccxt_download/utilities.py:34-41 | The raw name contains no ".parquet" when none of its parts does: the lower-cased exchange, the type id, the data type, a verbatim start and the symbol. A date label has no ".". |
| Public.BuiltNameHasNoParquet | src/ccxt_download/utilities.py:25-43 | A built name contains no ".parquet" when none of its parts does: the lower-cased exchange, the symbol, the data type, the type id, a verbatim start and the directory. |
| Public.PageLimitSpansWindow | src/ccxt_download/public.py:334-335 | The candle limit (end - current) div timeframe + 1 is at least 1. That many candles cover what is left of the window, and one fewer do not. |
| Public.PagedRequestsInWindow | src/ccxt_download/public.py:333-346 | In the loop `Paged` specifies, a request is sent exactly when the window is not empty, and the first request is at the window start. Every request uses a cursor in [start, end) and that cursor's limit: the candle limit, 1000 for trades, none for funding. |
| Public.PagedRequestsChained | src/ccxt_download/public.py:343-346 | Each next cursor is one past the last record of a non-empty page. The loop stops on an empty page or when the cursor reaches end. |
| Public.PagedRowsAreResponses | src/ccxt_download/public.py:345 | The gathered records are the pages answered to the requests, concatenated in order. |
| Public.Exchange.Fetch | src/ccxt_download/public.py:336-342 | A fetch returns the exchange's page for the request and logs the call. |
| Public.Paginate | src/ccxt_download/public.py:332-346 | The paging loop gathers exactly the specified records and sends exactly the specified requests. This holds for `fetch_ohlcv` and, likewise, for the trades (481-492) and funding (627-638) loops. |
| Public.InWindowMembership | src/ccxt_download/public.py:353 | A fetched record is kept by `InWindow` exactly when its timestamp lies in [start_ts, end_ts). The same filter is at 501 and 647. |
| Public.InWindowConcat | src/ccxt_download/public.py:353 | The window filter keeps the order of the fetched records. |
| Public.FetchPartition | src/ccxt_download/public.py:312-371 | A helper's body after the name is built: check, page, filter, add meta columns, save. Its outcome, the directory it leaves and the calls it makes are as specified. |
| Public.PartitionSkips | src/ccxt_download/public.py:312-358 | A `Partition` is skipped exactly when its file exists and is not marked incomplete. Then it sends no request. With no data in the window, no file is written. |
| Public.PartitionSavedRows | src/ccxt_download/public.py:353-371 | A saved table is not empty and is written to the partition's file. Each row lies in the window and is a fetched record with the meta columns (exchange, and symbol for candles) appended. |
| Public.PartitionFrame | src/ccxt_download/public.py:191-205 | A partition changes only its own file or that file's incomplete sibling. |
| Public.CandleHelper | src/ccxt_download/public.py:291-376 | `_candle_helper` runs the partition of one window of candles on its built file name. |
| Public.TradesHelper | src/ccxt_download/public.py:448-521 | `_trades_helper` runs the one-day trades partition on its built file name. |
| Public.FundingHelper | src/ccxt_download/public.py:594-669 | `_funding_helper` runs the one-day funding partition on its built file name. |
| Public.CompletePartitionIsDeleted | src/ccxt_download/public.py:191-205 | When the lower-cased exchange name, the symbol, a candle timeframe and the directory contain no ".parquet", a complete existing partition is skipped with no request, yet its file is deleted, so the next run fetches it again. |
| Public.AlignedStartsShape | src/ccxt_download/public.py:264-285 | The candle chunk starts begin at the aligned start and increase, each by at most one window. All lie before end, and the last window reaches end. |
| Public.AlignedWindowsCover | src/ccxt_download/public.py:264-285 | The candle windows cover every instant from the aligned start to end. |
| Public.CandleTasks | src/ccxt_download/public.py:260-288 | The `candles` loop appends one candle task per aligned window, in order. |
| Public.DailyTasks | src/ccxt_download/public.py:423-445 | The day loop appends one task per day, in order. |
| Public.DailyJobsAt | src/ccxt_download/public.py:423-445 | The trades and funding chunk starts are start + k days for each k with that instant before end, in increasing order. There are ceil((end - start) / 1 day) of them, each one day long. |
| Public.TradeTasks | src/ccxt_download/public.py:379-445 | `trades` appends the daily trades tasks. |
| Public.FundingTasks | src/ccxt_download/public.py:524-591 | `funding` appends the daily funding tasks. |
| Public.CollectTasks | src/ccxt_download/public.py:167-183 | The nested loops collect the tasks data type by data type, then symbol by symbol. |
| Public.JobsForShape | src/ccxt_download/public.py:260-285 | Every task one call appends is well formed, belongs to that symbol and data type, and starts before end. |
| Public.SymbolJobsMembership | src/ccxt_download/public.py:170-183 | A task is in a data type's list exactly when one of the symbols produced it. |
| Public.AllJobsMembership | src/ccxt_download/public.py:169-183 | A task is in the download's list exactly when one of the data types produced it. |
| Public.AllJobsConcat | src/ccxt_download/public.py:169 | The task list is grouped by data type, in the given order. |
| Public.AllJobsShape | src/ccxt_download/public.py:167-183 | Every collected task is well formed, for a requested symbol and data type, and starts before end. |
| Public.RunJob | src/ccxt_download/public.py:173 | A task runs the helper its data type names. |
| Public.RunTasks | src/ccxt_download/public.py:185 | Running the task list, in list order, yields the specified outcomes, directory and calls. |
| Public.DownloadAsync | src/ccxt_download/public.py:103-188 | `download_async` collects well-formed tasks, runs them all, and leaves the specified outcomes, directory and calls. |
| Public.RunJobsOutcomes | src/ccxt_download/public.py:185 | There is one outcome per task. |
| Public.RunJobsFrame | src/ccxt_download/public.py:185 | A run leaves alone every file that is neither a task's file nor such a file's incomplete sibling. |
| Public.RunJobsOrigin | src/ccxt_download/public.py:185 | Every file present after a run existed before or is the file of one of the tasks. |
| Public.DuplicateJobDeletes | src/ccxt_download/public.py:185-205 | Run in list order, a task listed twice whose first run saves a file without ".parquet" or "incomplete" in its name leaves that file deleted. |

## Left out

- Concurrency: `asyncio.run`, `asyncio.gather` and the `AsyncLimiter` rate limiter, whose default is 100 calls per 30 seconds. Tasks run one after another, in list order. Interleavings of concurrent helpers are not modelled. This changes the final directory in one case: a task listed twice, from a repeated symbol or data type. Under `asyncio.gather` both copies pass `_check_to_proceed` before either fetch returns, so both proceed and the file ends up written. Run in order, the second copy finds the complete file, skips and deletes it (`DuplicateJobDeletes`).
- Failing fetches: the provider is a total function, so a fetch never raises. In the source, a network error or an exchange error raises out of the helper. A fetch happens only after `_check_to_proceed` answered True, so the file was absent or has "incomplete" in its name. What a raised error loses is what the check deleted: an existing file whose name contains "incomplete", or, for a ".parquet" name, its `_incomplete.parquet` sibling. An existing complete file is deleted only on the skip path, where nothing is fetched (`CompletePartitionIsDeleted`). The error also aborts `asyncio.gather` before `exchange.close` (public.py:185-188). None of this is modelled.
- Network calls: creating the ccxt exchange, `load_markets`, `exchange.close` and `get_symbols` (utilities.py:159-171). Each fetch call is a request answered by a provider function, not a network call.
- Paginate: terminates only under the `Progressing` assumption on the provider. The last record of a non-empty page must not be before `since`. The Python loop, given an exchange that breaks this, can loop forever. That case is not modelled.
- pandas and file I/O: `read_csv`, `to_parquet`, DataFrame columns and `os.mkdir`. A table is a sequence of rows with an integer index and string column values, and the directory is a map from path to table. `glob.glob` and `read_csv` are function parameters of `LoadData`; a `None` read stands for a read that raises.
- Tables.SortByIndex: modelled as a stable insertion sort whose lemmas claim only "sorted by index" and "a permutation". pandas' default sort is not stable, so the order among equal timestamps is not claimed.
- The conversion of the timestamp column to a datetime index, and the dropped "timestamp" column: a row's index is its integer timestamp.
- Timestamp arithmetic: parsing date strings, timezone localisation, and the float arithmetic `timestamp() * 1000` and `total_seconds() * 1000` (public.py:78-86, 326-331). Instants are integer milliseconds, one day is 86 400 000 ms, and the candle limit uses integer division. Python truncates there; for the positive operands of the loop the two agree.
- Calendar.DateLabel: years are printed as four zero-padded digits of the year modulo 10000. The C library's `%Y` does not zero-pad years before 1000 on every platform. LabelRoundTrip and DateLabelInjective hold for years 1 to 9999, the years Python's `datetime` can hold.
- Utilities.DictSet: a dict is modelled as its items in insertion order. Hashing is left out.
- Strings.Lower: lowers ASCII letters only.
- Zero-length timeframes: `ValidEndpoint`, `CandleHelper` and `ValidTimeframe` require a timeframe length above zero. A zero length would raise `ZeroDivisionError` in the candle limit at public.py:335; that case is excluded.
- Undefined candle helpers: `timedelta_from_str`, `_period_start` and `_timestep_from_timedelta` are imported from utilities but are not defined in utilities.py. A `Timeframe` carries the timeframe name, its length in ms, the window length and the alignment function. `ValidTimeframe` assumes the alignment moves an instant back by less than one window, which is what keeps the chunk loop finite. The `KeyError` for an unknown timeframe is not modelled. Timeframes whose alignment breaks this assumption are excluded. For example, a daily or coarser timeframe aligned to the start of a period longer than its window (such as a January alignment with a window of about a month) would map `current_dt + timestep` back to `current_dt`, and the `while` loop at public.py:264-285 would never end. Whether any real timeframe behaves like this is unknown, because `_period_start` is not defined in utilities.py.
- The window_length argument: `_candle_helper` passes `window_length` to `filename_builder`, whose signature (utilities.py:25-32) has no such parameter. As written, that call would raise a `TypeError`. The model builds the name `filename_builder` gives without it.
- The `tasks=None` path of `candles`, `trades` and `funding`, which awaits the first chunk and returns its result, is not modelled; `download_async` always passes a list.
- Unknown data types: a data type string that names no function, where `globals().get` returns `None` and the call raises, cannot occur. Data types are the `DataType` datatype.
- Per-data-type options and the `verbose` flag are not modelled.
- The `download` wrapper (public.py:23-100) is left out: it parses dates, builds the limiter and calls `asyncio.run`. `DownloadAsync` takes instants directly.
- Logging and printing are not modelled.
- The two discarded filter expressions at public.py:648-649 are no-ops and are not modelled.
- The exchange name `Literal` list of `constants.py` is not modelled.
- The example scripts are not modelled.
