# Hungry News ingestion, modelled in Dafny

Hungry News collects headlines from RSS feeds (Channel NewsAsia sections and
the BBC), rates each with a classifier on an impact scale, and stores them.
This project models the four ingestion scripts of the repository and proves
what they guarantee.

- **The AWS Lambda ingester** (`lambda/lambda_function.py`) keeps one MySQL
  table per Monday-to-Sunday week, named `ddmmyy-ddmmyy`. Each run first
  creates the current Singapore week's table. It then drops every table
  whose end date lies more than 90 days in the past. Last, it files each
  feed item into the table of its publish week. An item is filed only when
  its impact is at least 2 and no title already in that table scores above 55
  against it. The database is a class `LambdaStore.Database` whose single
  field maps table names to rows. `LambdaIngest` holds two things:
  - the handler's loops, as methods on that class;
  - a pure fold `Run` that the methods are proved equal to, together with
    the properties proved about that fold.
- **The CSV merge** `append_to_csv` is shared by `machine_learning/app/main.py`
  (threshold 55) and `news_backend/app/main.py` (threshold 80), and is
  modelled in `CsvMerge`. New rows that are fuzzily similar to an old title
  or an old description are dropped. The survivors follow the old rows, and
  rows whose title was seen before are removed, keeping the first.
- **The two collection scripts** (`MlMain`, `BackendMain`) build the headline
  list that is merged.
  - The first sanitises with `html.unescape` plus `strip`. It prefers the
    page's meta description and announces each impact-3 title once.
  - The second unescapes each entry's title and summary in place and
    classifies the summary.
- **The dataset builder** (`machine_learning/app/fetch_dataset.py`,
  `FetchDataset`):
  - repairs titles with a fixed, ordered table of six mojibake
    replacements;
  - keeps a title only if it is neither already seen nor
    (case-insensitively) similar above 80 to a seen title.

Dates are Python proleptic ordinals (`Calendar`), with 0001-01-01 as day 1
and `weekday() = (n + 6) % 7`. Instants are UTC microseconds paired with a
UTC offset (`WeekTables.Stamp`). `strftime('%d%m%y')` and
`strptime(..., '%d%m%y')` are modelled after CPython, including the order in
which its regular expression tries one- and two-digit groups.

The following foreign functions are parameters:
- fuzzywuzzy's `token_sort_ratio` and `ratio`, as scores in 0..100;
- the classifier;
- `html.unescape` and `str.lower`;
- the RSS date parser;
- the meta-description fetch.

The clock is an argument. Feed contents are arguments: a sequence of feeds,
each with its name and its entries. A missing RSS field is `None`.

Two behaviours of the code worth noting:
- The lambda creates an item's weekly table before it classifies the item
  (lines 128-130). So a table can be created, and stay empty, for an item
  that is then discarded for low impact or as a duplicate.
- `is_similar`'s docstring in `machine_learning/app/main.py` mentions 65%,
  but the code's threshold is 55. The model uses 55.

## Model

| member | source | states |
|---|---|---|
| WeekTables.WeekStartIsMonday | lambda/lambda_function.py:52-53 | the start of the week is a Monday (weekday 0) on or before the date, and the date is at most 6 days after it |
| WeekTables.WeekTableName | lambda/lambda_function.py:52-54 | the name of the week that starts on a given Monday exists iff its Sunday is no later than 9999-12-31, and has the shape `ddmmyy-ddmmyy`: six digits, `-`, six digits |
| WeekTables.TableName | lambda/lambda_function.py:50-54 | `get_table_name` is defined iff the Sunday of the date's week is no later than 9999-12-31, and yields a `ddmmyy-ddmmyy` name; the lemmas below prove that it is constant on a week, differs between weeks and decodes back to the week |
| WeekTables.CurrentWeekTableName | lambda/lambda_function.py:56-61 | `get_current_week_table_name` gives the `ddmmyy-ddmmyy` name of the week of today's Singapore date, defined unless that week runs past 9999-12-31; CurrentTableNotExpired proves that the same run never drops it |
| WeekTables.SameWeekSameTable | lambda/lambda_function.py:50-54 | any two dates of one Monday-to-Sunday week get the same table name |
| WeekTables.SameTableSameWeek | lambda/lambda_function.py:50-54 | conversely, for weeks within 1969-2068, dates with the same table name lie in the same week |
| WeekTables.WeekTableNameInjective | lambda/lambda_function.py:54 | within 1969-2068, different weeks have different table names |
| WeekTables.EndDate | lambda/lambda_function.py:223-226 | a name without `-` has no end date |
| WeekTables.WeekTableNameDecodes | lambda/lambda_function.py:223-226 | splitting a generated name at `-` gives exactly two parts; they parse back to the week's Monday and Sunday, and the end date read is the Sunday (weeks within 1969-2068) |
| WeekTables.Expired | lambda/lambda_function.py:221-227 | only a name that contains `-` can be expired; WeekTableExpiry gives the exact condition for generated names |
| WeekTables.WeekTableExpiry | lambda/lambda_function.py:221-227 | for weeks within 1969-2068, a week's table is expired iff its Sunday, at midnight, is earlier than now minus 90 days |
| WeekTables.WeekTableNotExpired | lambda/lambda_function.py:226-228 | a week's table is not dropped while its Sunday at midnight is no earlier than now minus 90 days |
| WeekTables.CurrentTableNotExpired | lambda/lambda_function.py:92-97 | the current Singapore week's table is never expired by the same run, for any local clock within a day of UTC |
| Calendar.DdmmyyRoundTrip | lambda/lambda_function.py:224-226 | `strptime(strftime(d, '%d%m%y'), '%d%m%y') == d` for dates in 1969-2068 |
| Calendar.DdmmyyDigits | lambda/lambda_function.py:54 | a `%d%m%y` text is six decimal digits (so it holds no `-`) |
| Calendar.FromOrdinalInverse | lambda/lambda_function.py:52-54 | the calendar date of a day number is valid and converts back to that day number |
| LambdaIngest.IsSimilar | lambda/lambda_function.py:39-47 | true iff some existing `(title, source)` entry's title, whatever its source, scores strictly above 55; false for an empty table |
| LambdaStore.TitlesAndSources | lambda/lambda_function.py:233-237 | one `(title, source)` pair per row, in row order |
| LambdaStore.Database.TableExists | lambda/lambda_function.py:190-194 | true iff the table is present; nothing changes |
| LambdaStore.Database.CreateTable | lambda/lambda_function.py:196-213 | adds an empty table under a name not yet present; no other table changes |
| LambdaStore.Database.ExistingTitlesAndSources | lambda/lambda_function.py:233-237 | returns the table's `(title, source)` pairs |
| LambdaStore.Database.InsertNews | lambda/lambda_function.py:240-246 | appends the row at the end of its table; no other table changes |
| LambdaStore.Database.DropTable | lambda/lambda_function.py:228 | removes exactly that table |
| LambdaStore.Database.DeleteOldTables | lambda/lambda_function.py:215-231 | drops exactly the tables whose name has `-` and whose second component parses as `%d%m%y` to a date before now minus 90 days; every other table stays with its rows |
| LambdaIngest.PrepareTables | lambda/lambda_function.py:92-97 | the tables become the old ones plus the current week's (empty if new), minus the expired ones |
| LambdaIngest.PrepareKeepsFresh | lambda/lambda_function.py:92-97 | after preparation a table is present iff it was present or is the current one, and is not expired; kept tables keep their rows |
| LambdaIngest.PrepareKeepsCurrent | lambda/lambda_function.py:92-97 | the current week's table is among the tables the feed loop starts from (weeks within 1969-2068, clock within a day of UTC) |
| LambdaIngest.LocateItem | lambda/lambda_function.py:109-126 | decides the item's table: skipped for a missing link, a `/videos/` link, no `published`, an unparsable date or a week past year 9999; BBC dates are converted to Singapore time |
| LambdaIngest.FileItem | lambda/lambda_function.py:128-154 | the table is created if missing; the row is inserted and an impact-3 title collected exactly when a title is present, impact is at least 2 and no title in the table scores above 55 |
| LambdaIngest.ProcessItem | lambda/lambda_function.py:106-158 | one item's effect on the database and on `high_impact_titles` equals the specification step |
| LambdaIngest.IngestFeed | lambda/lambda_function.py:106-158 | the item loop over one feed leaves the database and the titles as the specification fold says |
| LambdaIngest.IngestAll | lambda/lambda_function.py:102-158 | the feed loop leaves the database and the titles as the specification fold says |
| LambdaIngest.LambdaHandler | lambda/lambda_function.py:64-188 | the run leaves the tables and returns the high-impact titles that `Run` describes |
| LambdaIngest.IngestFeedsAccounted | lambda/lambda_function.py:102-158 | the feed loop preserves the run invariant: tables only grow at their ends by logged inserts, which are admitted and novel, and the collected titles match the log |
| LambdaIngest.IngestGuarantees | lambda/lambda_function.py:106-154 | after the loop every prior table is present and only grew at its end. Every inserted row has impact at least 2 and no `/videos/` link. It sits in the table of its publish week, which exists, and a BBC row carries the Singapore offset. Its title scores at most 55 against every earlier title of its table, including titles inserted earlier in the run. `high_impact_titles` is exactly the inserted impact-3 titles, in insertion order |
| Similarity.IsSimilar | machine_learning/app/main.py:22-27 | true iff some entry scores strictly above the threshold (55 in this script); false for an empty list; the scan stops right after the first hit; `news_backend/app/main.py:21-26` is the same scan at threshold 80 |
| Text.StripEnds | machine_learning/app/main.py:20 | `strip()` leaves no whitespace at either end |
| Text.StripSlice | machine_learning/app/main.py:20 | `strip()` removes only whitespace, and only at the ends |
| MlMain.Sanitize | machine_learning/app/main.py:18-20 | the sanitised text has no leading or trailing whitespace |
| CsvMerge.FilterNew | machine_learning/app/main.py:39-43 | the loop collects exactly the survivors of the fuzzy filter, in order |
| CsvMerge.SurvivorsAreNovel | machine_learning/app/main.py:39-43 | a new row survives iff its title is similar to no old title and its description to no old description (threshold 55 here, 80 in `news_backend/app/main.py:38-42`) |
| CsvMerge.SurvivorsConcat | machine_learning/app/main.py:41-46 | the verdict on a new row depends only on the old rows: filtering a concatenation filters each part separately |
| CsvMerge.DedupSameTitles | machine_learning/app/main.py:45-48 | deduplication keeps every title that occurs and no other |
| CsvMerge.DedupDistinct | machine_learning/app/main.py:45-48 | deduplicated rows have pairwise distinct titles |
| CsvMerge.DedupKeepsFirst | machine_learning/app/main.py:45-48 | each kept row is the first row of the input with its title |
| CsvMerge.DedupInOrder | machine_learning/app/main.py:45-48 | kept rows appear in the order of their first occurrences |
| CsvMerge.DedupPrefix | machine_learning/app/main.py:45-46 | deduplicating `a + b` extends the deduplication of `a`; the rows after it come from `b` with titles not in `a` |
| CsvMerge.MergeDistinct | news_backend/app/main.py:44-46 | the written file has pairwise distinct titles, with or without an existing file |
| CsvMerge.MergeOldFirst | news_backend/app/main.py:44 | old rows (deduplicated) come first in their order; every later row is a surviving new row whose title is not an old title |
| CsvMerge.MergeKeepsOldRows | machine_learning/app/main.py:45-46 | an old row that is the first with its title (in particular one whose title is unique in the file) is written back unchanged |
| CsvMerge.AppendToCsv | machine_learning/app/main.py:29-51 | writes the merge of the existing rows and the headlines, or the headlines deduplicated when there is no file; fails (nothing written) on an empty headline list; `news_backend/app/main.py:28-49` is the same merge at threshold 80 |
| MlMain.ItemOutcomeFields | machine_learning/app/main.py:76-103 | an item is skipped iff it has neither summary nor link, and crashes iff it has one but no title. Otherwise its headline has the feed's name as source and the classifier's impact for the sanitised title. Its description is the meta description if non-empty, else the sanitised summary, else `""` |
| MlMain.HeadlineStripped | machine_learning/app/main.py:77-91 | every headline's title and description have no surrounding whitespace |
| MlMain.ProcessItem | machine_learning/app/main.py:76-92 | the item body computes the outcome the specification gives |
| MlMain.FeedHeadlinesFromItems | machine_learning/app/main.py:75-103 | a feed crashes iff one of its items does; otherwise every headline comes from one of its items and carries the feed's name |
| MlMain.AnnouncedOnce | machine_learning/app/main.py:94-96 | the announced titles are pairwise distinct and are exactly the titles of impact-3 headlines |
| MlMain.CrashPropagates | machine_learning/app/main.py:77 | an item without a title ends the whole run |
| MlMain.CollectHeadlines | machine_learning/app/main.py:72-103 | the loop builds `all_headlines` and the announcements as specified, and reports a crash exactly when the specification crashes |
| MlMain.Run | machine_learning/app/main.py:60-106 | the file written is the merge, at threshold 55, of the collected headlines, or nothing when the run crashes; the titles announced are exactly those of `Announced`, each impact-3 title once, in order |
| BackendMain.WithSummary | news_backend/app/main.py:67 | keeps exactly the entries that have a summary, never more entries than there were |
| BackendMain.FeedHeadlinesSpec | news_backend/app/main.py:66-76 | a feed crashes iff an entry has a summary but no title. Otherwise there is exactly one headline per entry with a summary, in order. Title and description equal the entry's fields after unescaping, impact is the classifier's on the unescaped summary, and the source is the feed's name |
| BackendMain.ProcessFeed | news_backend/app/main.py:66-79 | each entry with a summary is rewritten in place with its unescaped title and summary, and the headlines are collected. On a crash, the culprit is the first entry with a summary and no title; the entries before it are rewritten and the rest unchanged |
| BackendMain.CollectCrashes | news_backend/app/main.py:63-68 | a crashing feed ends the run |
| BackendMain.Run | news_backend/app/main.py:51-80 | the file written is the merge, at threshold 80, of all feeds' headlines, or nothing when the run crashes |
| FetchDataset.ReplacementsSound | machine_learning/app/fetch_dataset.py:34-41 | the six keys and values are non-empty, and no replacement character occurs in any key |
| FetchDataset.SanitizeText | machine_learning/app/fetch_dataset.py:42-44 | the loop applies the replacements in table order, each to all occurrences |
| FetchDataset.ApplyAllUnchanged | machine_learning/app/fetch_dataset.py:42-43 | a text containing none of the keys is returned unchanged |
| FetchDataset.ApplyAllKeepsAbsent | machine_learning/app/fetch_dataset.py:42-43 | replacements whose values avoid a string never create it |
| FetchDataset.ApplyAllRemovesKeys | machine_learning/app/fetch_dataset.py:42-43 | after the table is applied, none of its keys occurs |
| FetchDataset.SanitizeUnchanged | machine_learning/app/fetch_dataset.py:32-44 | `sanitize_text` returns its input unchanged when the input contains none of the six keys |
| FetchDataset.SanitizeRemovesKeys | machine_learning/app/fetch_dataset.py:32-44 | none of the six keys remains after `sanitize_text` |
| FetchDataset.SanitizeIdempotent | machine_learning/app/fetch_dataset.py:32-44 | `sanitize_text` is idempotent |
| Text.ReplaceRemovesKey | machine_learning/app/fetch_dataset.py:43 | after `str.replace(k, v)`, where `v` shares no character with `k`, `k` no longer occurs |
| Text.ReplaceCreatesNothing | machine_learning/app/fetch_dataset.py:43 | `str.replace(k, v)` creates no occurrence of a string whose characters `v` avoids |
| FetchDataset.FetchRss | machine_learning/app/fetch_dataset.py:14-23 | every entry is rewritten in place with its summary and title unescaped where present |
| FetchDataset.IsSimilar | machine_learning/app/fetch_dataset.py:25-30 | true iff `ratio` of the lower-cased forms exceeds 80 for some existing title; false for an empty list |
| FetchDataset.SimilarityIgnoresCase | machine_learning/app/fetch_dataset.py:25-30 | the verdict depends only on the lower-cased forms of the title and the existing titles |
| FetchDataset.AdmitSpec | machine_learning/app/fetch_dataset.py:53-62 | an entry crashes iff it has no title. Otherwise an article is added iff the repaired title is neither seen nor similar to a seen title. The article has impact 0, the feed as source, and the repaired summary or `'no description'` as description |
| FetchDataset.AdmitCurated | machine_learning/app/fetch_dataset.py:54-62 | admitting an entry only appends and keeps titles distinct, mutually dissimilar and impact 0 |
| FetchDataset.GatherCurated | machine_learning/app/fetch_dataset.py:52-62 | a feed's entries keep that invariant and only append |
| FetchDataset.CollectCurated | machine_learning/app/fetch_dataset.py:50-62 | a run's articles never repeat a title. No title is similar to an earlier one, and every impact is 0 |
| FetchDataset.GatherCrashes | machine_learning/app/fetch_dataset.py:53 | an entry without a title ends the feed |
| FetchDataset.CollectCrashes | machine_learning/app/fetch_dataset.py:53 | a crashing feed ends the run |
| FetchDataset.AdmitEntry | machine_learning/app/fetch_dataset.py:53-62 | the entry body (exact check first, fuzzy check only if unseen) computes the specified admission, and `titles_seen` stays the titles of `articles` |
| FetchDataset.GatherFeed | machine_learning/app/fetch_dataset.py:51-62 | one feed: fetched with in-place unescaping, then every entry in order, as specified |
| FetchDataset.Run | machine_learning/app/fetch_dataset.py:46-62 | `articles` is the specified collection (or the run crashes), and `articles[i].title == titles_seen[i]` throughout |

## Left out

- I/O is not modelled: MySQL connections, cursors and commits, S3 and model loading, feed fetching and parsing, HTTP requests, BeautifulSoup, and CSV reading and writing. Tables, feeds and CSV rows are in-memory values, and foreign functions are parameters.
- Database errors are not modelled: the `statusCode` 500 path, and a failing `CREATE TABLE` or `INSERT` inside the item loop. Inserts always succeed, so MySQL column widths (`VARCHAR(255)`, `VARCHAR(50)`) and strict-mode truncation errors are not modelled.
- `SHOW TABLES LIKE` treats `_` and `%` as wildcards and may ignore case. Generated names contain neither wildcard, so `LambdaStore.Database.TableExists` is exact membership.
- The clock is one reading `now` for both uses in a lambda run. The naive local clock of `delete_old_tables` is that reading shifted by a `localOffset` parameter. Asia/Singapore is a fixed UTC+8, without the historic offsets pytz knows.
- `strptime` is modelled for ASCII digits only. CPython also accepts other Unicode decimal digits in `%d%m%y`.
- WeekTables.SameTableSameWeek, WeekTables.WeekTableNameDecodes, WeekTables.WeekTableNotExpired, WeekTables.CurrentTableNotExpired and LambdaIngest.PrepareKeepsCurrent assume weeks within 1969-2068. Outside that range `%y` reads a year back in the other century, so a table named in 2069 or later would parse as 1969 and be dropped.
- Calendar.DdmmyyRoundTrip: stated for dates in 1969-2068 only, for the same reason.
- LambdaIngest.LambdaHandler requires the Singapore date to lie before the last week of year 9999. There the source's `get_current_week_table_name` raises `OverflowError`.
- The item's `summary` (`description`) in the lambda is read but never stored, so it is not modelled.
- Log and print output is not modelled, except the announcements of `machine_learning/app/main.py`, which model `logged_titles`. This covers the "High impact news" lines of `news_backend/app/main.py` and the lambda's final listing.
- pandas details are not modelled: reading back `NaN` for empty CSV cells, dtype conversion of columns, and the CSV quoting. Old rows are taken as read, with string titles and descriptions.
- MlMain.CollectHeadlines: says nothing about the announcements of a run that crashes part-way, since that run writes no file.
- Concurrent runs, transactions and rollback are not modelled. The code has none.
- The model files (`model.py`, `random_forest.py`), the demo `similarity_checker.py`, `rss_fetcher.py` and the Android app are not part of this model.
