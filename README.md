# music_project: count-then-top-K per partition, in Dafny

music_project reads a daily log of stream events. Each line is `sng_id|user_id|country`.
The program writes two rankings:

- per country, the 50 most streamed songs, one `.txt` file per country;
- per user, the 50 most streamed songs, as a CSV file.

It has two engines with the same meaning: an eager pandas pipeline (`main_pandas.py`) and a
lazy polars pipeline (`main_polars.py`). This project models both over one abstract
sequence of rows, `Records.Row` (song, user and country, each possibly null).

The modules follow the pipeline:

- `Text`: Python's `str.split`, `str.join` and `os.path.basename`, decimal rendering of a rank, and the parsers that read those back.
- `DateToken`: `extract_date_from_path`. Its body is the same in both engines, so one function models both.
- `Records`: the null markers of the reader and the two quality filters.
- `TopK`: entries `(song, count)`, a stable descending sort, and `IsTopK`. `IsTopK` says what any top-`k` choice satisfies, whatever its tie-break. `NLargest` is the tie-break pandas applies: the candidates of a key come out of `groupby(["sng_id", key])` sorted by song id, and `nlargest(keep='first')` keeps the earlier, so the smaller song id wins a tie.
- `GroupBy`: counting per `(song, key)`, grouping by key, and the per-key top-`k`. One aggregation models both `aggregate_transform` and `stack_transforms`.
- `Ranking`: the country line `key|song:1,song:2,...`, and a parser that reads it back.
- `Pandas` and `Polars`: the two engines.

The main results:

- The two filter orders keep the same rows (`Records.FiltersCommute`).
- Per key, the aggregation keeps `min(best_of, distinct songs)` entries with exact counts and no repeated song. No kept count is below a count left out (`Pandas.AggregateTransformSpec`, `Polars.StackTransformsSpec`).
- At a tie on the boundary the smaller song id is kept (`Pandas.AggregateTransformSpec`, `TopK.NLargestKeepsFirst`). Any other tie-break gives the same multiset of counts (`Polars.TopKChoiceCounts`).
- Every line reads back to its key and its songs ranked `1..n` in non-increasing count order, with no trailing comma.
- On the same aggregated table, both engines write the same country files (`Polars.LazyFilesAgree`). For the same input they write the same files when polars `top_k` breaks ties as pandas `nlargest` does (`Polars.CountryFilesAgree`). polars does not fix that choice, so only the counts are certain to agree.

Two behaviours of the code that a reader might not expect are stated as lemmas:

- A file name with no `-` yields its whole stem as the date token. The integration test's input `./output/sample_data_20230101.log` therefore yields `sample_data_20230101`, so the output is named `users_top50_sample_data_20230101.csv`, not the `users_top50_20230101.csv` the test looks for (`DateToken.TestFileName`).
- The token `NA` is a null marker, so rows from Namibia (country code `NA`) never pass the quality check (`Records.NaCountryIsNull`).

The code writes the country line with no trailing comma, and the model follows the code.

## Model

| member | source | states |
|---|---|---|
| Text.Split | src/music_project/main_pandas.py:80 | `str.split` with one separator never returns an empty list |
| Text.SplitExcludes | src/music_project/main_pandas.py:80 | no field of a split holds the separator |
| Text.JoinSplit | src/music_project/main_pandas.py:80-83 | joining the fields of a split with the separator restores the text |
| Text.SplitJoin | src/music_project/main_polars.py:39 | splitting a join of separator-free parts gives the parts back |
| Text.FirstField | src/music_project/main_pandas.py:80 | `split(sep)[0]`: the longest prefix free of the separator, followed by the separator when shorter, the whole text when none occurs |
| Text.LastField | src/music_project/main_pandas.py:83 | `split(sep)[-1]`: the longest suffix free of the separator, preceded by the separator when shorter, the whole text when none occurs |
| Text.Join | src/music_project/main_pandas.py:187 | `str.join`: its contract is stated by `Text.SplitJoin` (splitting the join of separator-free parts gives them back) and `Text.JoinExcludes` |
| Text.JoinExcludes | src/music_project/main_polars.py:39 | a join of parts free of a character other than the separator is free of that character |
| Text.Basename | src/music_project/main_pandas.py:77 | POSIX `os.path.basename`: the suffix after the last `/`, holding no `/` |
| Text.LessTotal | src/music_project/main_pandas.py:139 | Python's string order `<`, by which `groupby` sorts song ids, is total: two different ids compare one way |
| Text.LessAsymmetric | src/music_project/main_pandas.py:139 | no two ids are each below the other |
| Text.LessTransitive | src/music_project/main_pandas.py:139 | the string order is transitive |
| Text.NatToString | src/music_project/main_pandas.py:189 | a rank is rendered as a non-empty string of decimal digits without leading zero |
| Text.ParseNatToString | src/music_project/main_polars.py:39 | reading the rendered rank back gives the rank |
| DateToken.Stem | src/music_project/main_polars.py:18-20 | the basename up to its first `.`: no `/` or `.`, a prefix of the basename followed by `.` when shorter |
| DateToken.ExtractDateFromPath | src/music_project/main_pandas.py:77-86 | the token holds no `-`, `.` or `/`; it is the stem's suffix after its last `-`; it is the whole stem when the stem has no `-` |
| DateToken.FirstFieldAt | src/music_project/main_pandas.py:80 | in `a.b` with no `.` in `a`, the part before the first `.` is `a` |
| DateToken.LastFieldAt | src/music_project/main_pandas.py:83 | in `a-b` with no `-` in `b`, the part after the last `-` is `b` |
| DateToken.BareDatedName | src/music_project/main_pandas.py:77-86 | a bare name `<prefix>-<date>.<ext>` yields exactly `<date>` when the date has no `-` and prefix and date have no `.` or `/` |
| DateToken.DatedName | src/music_project/main_polars.py:18-24 | a path `dir/<prefix>-<date>.<ext>` yields exactly `<date>` when the date has no `-` and prefix and date have no `.` or `/` |
| DateToken.UndatedName | src/music_project/main_pandas.py:83 | a path whose stem has no `-` yields the whole stem |
| DateToken.BareFileName | src/music_project/main_pandas.py:80-83 | `sample_data-20230101.log` yields `20230101` |
| DateToken.NestedPath | src/music_project/main_pandas.py:77-83 | `/a/b/c-99.csv` yields `99` |
| DateToken.TestFileName | src/tests/test_main_transform.py:29 | the test's file `./output/sample_data_20230101.log` yields `sample_data_20230101`, which differs from the `20230101` the test expects |
| Records.ReadRow | src/music_project/main_pandas.py:25-33 | one line read into a row, each field mapped through the null markers; its contract is stated by `Records.ReadRowValid` and `Records.NaCountryIsNull` |
| Records.ReadField | src/music_project/main_pandas.py:32 | a field is null exactly when its token is one of `NaN`, `null`, `nan`, `Nan`, `NA` or empty; otherwise it is the token itself |
| Records.NaCountryIsNull | src/music_project/main_polars.py:63 | a line with country `NA` is never valid |
| Records.ReadRowValid | src/music_project/main_pandas.py:52-56 | a line passes the quality check iff no field is a null marker and the country has two characters |
| Records.FilterCountryLength | src/music_project/main_pandas.py:52 | each row is kept as often as it occurs iff its country has length 2, otherwise never |
| Records.DropNulls | src/music_project/main_pandas.py:56 | each row is kept as often as it occurs iff no field is null, otherwise never |
| Records.FiltersCommute | src/music_project/main_polars.py:87-88 | dropping nulls then filtering on length gives the same sequence as the reverse order |
| Pandas.DataQualityCheck | src/music_project/main_pandas.py:52-56 | the kept rows are a sub-multiset of the input: a valid row is kept exactly as often as it occurs, an invalid row never |
| GroupBy.Project | src/music_project/main_pandas.py:139 | each `(song, key)` event occurs as often as rows carry that song and key |
| GroupBy.GroupCounts | src/music_project/main_pandas.py:139-140 | one row per `(song, key)` that occurs, none twice, with `stream_count` equal to its number of events |
| GroupBy.KeyGroupMembers | src/music_project/main_pandas.py:141 | the group of a key holds exactly the table's rows under that key |
| GroupBy.KeyGroupSongsDistinct | src/music_project/main_pandas.py:141 | within a key's group no song repeats |
| GroupBy.TableKeys | src/music_project/main_polars.py:113 | the keys of a table, each once, exactly those some row carries |
| GroupBy.TableKeysOrder | src/music_project/main_polars.py:113 | of two listed keys, the one listed first has its first row earlier in the table |
| TopK.SortDesc | src/music_project/main_polars.py:38 | `sorted(..., reverse=True)` by count: a permutation of its input in non-increasing count order |
| TopK.SortDescStable | src/music_project/main_polars.py:38 | the sort is stable: entries of equal count keep their relative order |
| TopK.SortDescOfSorted | src/music_project/main_pandas.py:191 | sorting a sequence already in non-increasing count order leaves it unchanged |
| TopK.SelectTop | src/music_project/main_pandas.py:142 | `nlargest(k, keep='first')` on candidates in the given order: a top-`k` selection (sub-multiset, `min(k, n)` entries, dominating every entry left out) in non-increasing count order |
| TopK.SortBySong | src/music_project/main_pandas.py:139 | the candidates in the order `groupby` leaves them: a permutation in non-decreasing song id order |
| TopK.SortDescRanked | src/music_project/main_pandas.py:142 | sorting song-ordered candidates by count ranks them by count, then by song id |
| TopK.NLargest | src/music_project/main_pandas.py:139-142 | `nlargest(k, keep='first')` on the song-ordered candidates: a top-`k` selection, ranked by count then song id |
| TopK.NLargestKeepsFirst | src/music_project/main_pandas.py:139-142 | a kept entry and a left-out entry of the same count: the kept song id is the smaller |
| TopK.TopKCountsAgree | src/music_project/main_polars.py:93 | any two top-`k` selections of the same candidates have the same multiset of counts |
| GroupBy.TopPerKey | src/music_project/main_pandas.py:141-143 | the per-key selections concatenated; its contract is stated by `GroupBy.KeyGroupTopPerKey` and `GroupBy.TopPerKeyDistinct` |
| GroupBy.KeyGroupTopPerKey | src/music_project/main_pandas.py:141-143 | in the combined result, one key's rows are exactly that key's `nlargest` selection, and a key not listed has none |
| GroupBy.TopPerKeyDistinct | src/music_project/main_pandas.py:141-143 | the combined result holds no combination twice and only listed keys |
| GroupBy.Aggregate | src/music_project/main_pandas.py:139-143 | count, then top-`k` per key; its contract is stated by `GroupBy.AggregateSpec`, `GroupBy.AggregateRows` and `GroupBy.AggregateDistinct` |
| GroupBy.SelectionSpec | src/music_project/main_polars.py:89-94 | any top-`k` choice for a key has `min(k, distinct songs)` entries, each an occurring song with its exact count, no song twice, dominating every song left out |
| GroupBy.SelectionTies | src/music_project/main_pandas.py:139-142 | a song of the key left out at the count of a kept one has the larger id |
| GroupBy.AggregateSpec | src/music_project/main_pandas.py:139-143 | the aggregate per key meets the same properties, is ranked by count then song id, and a song left out at a kept count has the larger id |
| GroupBy.AggregateRows | src/music_project/main_pandas.py:139-140 | every row of the aggregate is an occurring combination with its exact count |
| GroupBy.AggregateDistinct | src/music_project/main_pandas.py:143 | no `(song, key)` combination occurs twice in the aggregate |
| Pandas.RowCountPositive | src/music_project/main_pandas.py:140 | a combination has a positive count iff some row carries it |
| Pandas.AggregateTransform | src/music_project/main_pandas.py:125-144 | `aggregate_transform`; its contract is stated by `Pandas.AggregateTransformSpec` and `Pandas.AggregateTransformRows` |
| Pandas.AggregateTransformSpec | src/music_project/main_pandas.py:138-144 | per key: `min(best_of, distinct songs)` rows (none for an absent key), each count the exact number of rows and at least 1, every song from a row with that key, songs distinct, descending counts, no kept count below a song left out, and a song left out at a kept count has the larger id |
| Pandas.AggregateTransformRows | src/music_project/main_pandas.py:139-143 | the result has each `(song, key)` at most once, with its exact row count, at least 1 |
| Pandas.SaveFileLine | src/music_project/main_pandas.py:187-196 | the line of one key; its contract is stated by `Pandas.SaveFileLineSpec` |
| Pandas.SaveFile | src/music_project/main_pandas.py:180-182 | one file per distinct key of the result, in order, named `{key}_top50_{date}.txt` and holding that key's line |
| Pandas.FileNameInjective | src/music_project/main_pandas.py:182 | two keys with the same file name are the same key |
| Pandas.SaveFileOnePerKey | src/music_project/main_pandas.py:177-182 | no two files share a name; every key of the result has its file with its line; every file belongs to a key of the result |
| Pandas.SaveFileLineSpec | src/music_project/main_pandas.py:187-196 | the line reads back as the key and the group's songs ranked `1..n`; the order is a permutation of the group, non-increasing in count, stable among equal counts |
| Pandas.SaveFileKeepsSelectionOrder | src/music_project/main_pandas.py:191-193 | on the aggregate's output the re-sort changes nothing: the line ranks songs in the order `nlargest` chose |
| Ranking.ItemRoundTrip | src/music_project/main_pandas.py:189 | an item `song:rank` of a song free of `,`, `:` and `|` reads back as that song and rank |
| Ranking.RankedList | src/music_project/main_polars.py:39 | the ranked list `song:1,song:2,...`; its contract is stated by `Ranking.RankedListRoundTrip` |
| Ranking.RankedListRoundTrip | src/music_project/main_polars.py:39 | the joined ranked list reads back as the songs in order with ranks `1..n`, and holds no `|` |
| Ranking.FormatLine | src/music_project/main_pandas.py:187-196 | `key|` and the ranked list; its contract is stated by `Ranking.FormatLineRoundTrip` and `Ranking.NoTrailingComma` |
| Ranking.FormatLineRoundTrip | src/music_project/main_pandas.py:187-196 | the line `key|...` reads back as the key and the songs ranked `1..n` |
| Ranking.NoTrailingComma | src/music_project/main_pandas.py:187-196 | a non-empty line ends with a digit of the last rank, never with `,` |
| Polars.QualityFilter | src/music_project/main_polars.py:87-88 | `drop_nulls` then the length filter; its contract is stated by `Polars.QualityFilterAgrees` |
| Polars.QualityFilterAgrees | src/music_project/main_polars.py:87-88 | the lazy filters keep exactly the rows of the eager quality check, in the same order |
| Polars.StackTransforms | src/music_project/main_polars.py:69-96 | `stack_transforms`; its contract is stated by `Polars.StackTransformsAgrees` and `Polars.StackTransformsSpec` |
| Polars.StackTransformsAgrees | src/music_project/main_polars.py:86-96 | `stack_transforms` produces the same table as `aggregate_transform` after `data_quality_check` |
| Polars.StackTransformsSpec | src/music_project/main_polars.py:89-94 | per key: `min(best_of, distinct songs of valid rows)` rows with exact counts of valid rows, at least 1, from valid input rows, songs distinct, dominating every song left out |
| Polars.TopKChoiceCounts | src/music_project/main_polars.py:86-96 | whatever `top_k` picks at a tied boundary, its per-key multiset of counts equals that of `aggregate_transform` |
| Polars.Zip | src/music_project/main_polars.py:38 | `zip` pairs the columns, as long as the shorter one; its song and count columns are the prefixes of the two inputs |
| Polars.ResultsList | src/music_project/main_polars.py:38 | `results_list` is a permutation of the zipped pairs in non-increasing count order |
| Polars.ReduceSaveUdf | src/music_project/main_polars.py:27-40 | `reduce_save_udf`; its contract is stated by `Polars.ReduceSaveUdfSpec` |
| Polars.ReduceSaveUdfSpec | src/music_project/main_polars.py:38-40 | the output reads back as every zipped song once, ranked `1..n` with `n` the input length, in non-increasing count order, equal counts in input order |
| Polars.LazyFormat | src/music_project/main_polars.py:113-117 | one result per key of the table, the `i`-th for the `i`-th key of `GroupBy.TableKeys` |
| Polars.LazyFormatOrder | src/music_project/main_polars.py:113 | `maintain_order=True`: of two results, the earlier one's key first occurs earlier in the table |
| Polars.LazyTransformCountry | src/music_project/main_polars.py:142-145 | `stack_transforms` then `lazy_format`; its contract is stated by `Polars.CountryFilesAgree` |
| Polars.FileSave | src/music_project/main_polars.py:173-179 | one file per result row, named `{country}_top50_{date}.txt` and holding `{country}|results` |
| Polars.FileSaveLine | src/music_project/main_polars.py:179 | `{country}|results`; its contract is stated by `Polars.FileSaveLineAgrees` |
| Polars.FileSaveLineAgrees | src/music_project/main_polars.py:179 | the line `{country}|results` equals the line the eager engine writes for that key |
| Polars.LazyFilesAgree | src/music_project/main_polars.py:172-179 | on the same table, `lazy_format` then `file_save` writes exactly the files of `save_file` |
| Polars.FileSaveOnePerKey | src/music_project/main_polars.py:172-179 | no two files written share a name, and every key of the table has its file holding the eager line |
| Polars.CountryFilesAgree | src/music_project/main_polars.py:172-179 | for every input, both engines write the same country files with the same names and lines, with `top_k` choosing as `nlargest` does |

## Left out

- Reading the log: `pd.read_table` and `pl.scan_csv` (delimiter parsing, skipping bad lines, dtype coercion) are library behaviour. Only the null-marker mapping is modelled (`Records.ReadField`, `Records.ReadRow`). A log is a sequence of rows.
- Writing files: the model returns each country file as a name and its content. The output folder, `os.path.join` and the file system are not modelled.
- The user ranking's CSV output (`to_csv`, `write_csv`) is not modelled. Its content is the aggregate over `ByUser`, which `Pandas.AggregateTransformSpec` and `Polars.StackTransformsSpec` cover.
- `show_graph`, `collect(streaming=True)`, the thread and chunk settings, and the command line in `main.py` are not modelled. They are execution settings and glue without effect on the results.
- Key order: pandas `groupby(key)` visits keys in sorted order, and polars `groupby` without `maintain_order` in no fixed order. The model visits keys in order of first appearance. Each key's selection and each file's name and content are the same either way; only the order in which files are written and table rows are listed differs. Within a key, the model orders candidates by song id as pandas does.
- Polars.StackTransforms: polars `top_k` does not fix which songs win a tie at the `k`-th count. The model gives it the choice of pandas `nlargest(keep='first')`, the smaller song id (`TopK.NLargest`). The choice-independent facts are stated for every top-`k` selection (`TopK.IsTopK`, `GroupBy.SelectionSpec`, `Polars.TopKChoiceCounts`).
- Polars.CountryFilesAgree: holds for a polars run whose `top_k` breaks ties as `nlargest` does. For any other tie choice only the per-key counts are known to agree (`Polars.TopKChoiceCounts`).
- Pandas.SaveFileLine: pandas `sort_values` is not stable by default. The model uses the same stable sort as polars `sorted`, so among equal counts the written order is the model's choice.
- Text.Basename: models POSIX `os.path.basename`, which splits only at `/`. On Windows `ntpath.basename` also splits at `\`, and that is not modelled.
- Records.FilterCountryLength: polars `str.lengths()` counts bytes and pandas `str.len()` counts characters. The model counts characters, which is exact for ASCII country codes only.
- Ranking.ParseLine: the read-back lemmas require song ids free of `,`, `:` and `|`, and a key free of `|`. With such characters the line is still written as the code writes it, but it is ambiguous.
- The `schema=` argument of `stack_transforms`, which names a `country` column even when grouping by user, is a library schema detail and not modelled.
- `stream_count` is a 32-bit unsigned integer in polars. The model's counts are unbounded; a count can only overflow past 2^32 - 1 rows.
