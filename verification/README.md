# P2000 harvester and analysis filters, modelled in Dafny

This project models the parts of the P2000 harvester and its analysis
scripts that have behaviour worth stating:

- **The harvest loop** (`harvest_p2000` and `signal_handler` in
  `harvester.py`). It fetches listing pages 1, 2, … of the P2000 feed. It
  extracts the dispatch rows of each page with one fixed regular expression
  and appends them to a tab-separated file, flushing after every page. It
  stops at the page limit, at the first page without rows, or at the first
  loop head after Ctrl+C. A page that cannot be fetched is skipped, not
  retried.
- **The row pattern** (`harvester.py:29`). The model scans left to right,
  without overlaps, for that one pattern: its three lazy capturing groups
  `(.*?)`, its two lazy uncaptured `.*?` inside the class attributes, and the
  timestamp group.
- **The whole-word test filter** (`test_filter_regex.py`) and the cleaning
  step of the analysis (`eda_filter_advanced.py`). The cleaning step reads
  timestamps as `%d-%m-%Y %H:%M:%S`, drops the exact message
  "TESTOPROEP MOB", and drops messages containing the word "test" in any
  letter case.
- **Region-name normalisation** (`get_official_name` and `region_mapping`
  in `eda_map_visualization.py`). This includes splitting the per-region
  totals into matches and mismatches against the boundary names.

## Modules

- `text.dfy` (`Text`): an optional value, the ASCII word characters,
  Python's `str.lower()` and `str.strip()`, and decimal numbers.
- `seqs.dfy` (`Seqs`): a dataframe `filter` as a function on sequences.
  - Partition, subsequence and idempotence lemmas about it.
- `tsv.dfy` (`Tsv`): the lines `csv.writer(f, delimiter='\t')` writes.
- `row_pattern.dfy` (`RowPattern`): the row pattern, `findall` and the
  markup of a listing row.
  - Extraction inverts rendering.
- `harvester.dfy` (`Harvester`): the harvest.
  - The network and the arrival of interrupts are a parameter, `Env`.
  - The `keep_running` flag is a `Control` object.
  - The output file is a `Sink` object: the rows written, plus how many of
    them have been flushed.
  - `Run` is the specification of the whole harvest as a function.
  - `Harvest` is the loop, as a method proved against `Run`.
- `word_filter.dfy` (`WordFilter`): `(?i)\btest\b` and the six-message check
  of `run_test`.
- `timestamp.dfy` (`Timestamp`): the timestamp layout and reading it.
- `cleaning.dfy` (`Cleaning`): `df_clean` and the rows-removed count.
- `regions.dfy` (`Regions`): the lookup table, `get_official_name`, and the
  matches/mismatches split.

## Flushing and quoting

- **The header is not flushed when it is written.** The header row
  (`harvester.py:43`) is only written into the buffer. The first flush
  (`harvester.py:71`) happens after the first page with rows. Before that,
  the header may be held only in the buffer. `Harvest` keeps this
  invariant: at every loop head, either everything written is flushed, or
  only the header has been written.
- **A flush is not a durable write.** `f.flush()` hands the buffer to the
  operating system; it is not an `fsync`. `Sink.Flush` therefore models
  "flushed out of the buffer", not durability on disk.
- **Fields are quoted when needed.** `csv.writer` quotes a field holding a
  tab, a quote or a line break, and the extracted fields may hold a tab, a
  quote or a carriage return. The `Sink` stores each row as its list of
  fields and leaves serialisation out; only `Tsv.SplitJoin` assumes plain
  fields (`Tsv.Plain`).

## Model

| member | source | states |
|---|---|---|
| Text.LowerChar | eda_map_visualization.py:89 | `str.lower()` on one character moves an ASCII or Latin-1 capital up by 32 and leaves every other character alone |
| Text.Lower | eda_map_visualization.py:89 | lower-casing keeps the length, leaves no ASCII or Latin-1 capital, moves every capital up by 32, and changes no other character |
| Text.LowerIdempotent | eda_map_visualization.py:89 | lower-casing a lower-cased string changes nothing |
| Text.StripLeft | eda_map_visualization.py:89 | the result is a suffix; everything dropped is white space; the result does not start with white space |
| Text.StripRight | eda_map_visualization.py:89 | the result is a prefix; everything dropped is white space; the result does not end with white space |
| Text.StripLowerCommute | eda_map_visualization.py:89 | lower-casing then stripping equals stripping then lower-casing |
| Text.Decimal | harvester.py:46 | the page number is written as a non-empty run of digits with no leading zero |
| Text.ParseDecimalOfDecimal | harvester.py:46 | reading back the digits of a page number gives the number |
| Text.DecimalInjective | harvester.py:46 | different page numbers are written differently |
| Seqs.Filter | test_filter_regex.py:21-23 | the rows kept are no more than the input, all satisfy the predicate, and all come from the input |
| Seqs.FilterCounts | test_filter_regex.py:21-23 | each row satisfying the predicate is kept exactly as often as it occurs; no other row is kept |
| Seqs.FilterIsSubsequence | test_filter_regex.py:21-23 | the rows kept are an order-preserving subsequence of the input |
| Seqs.FilterIdempotent | eda_filter_advanced.py:13-16 | filtering twice with the same predicate equals filtering once |
| Seqs.FilterPartition | eda_map_visualization.py:99-100 | a predicate and its negation split the rows: the sizes and the multisets add up to the input |
| Tsv.SplitJoin | harvester.py:41 | splitting a tab-joined line at tabs gives back exactly the fields written, for fields without tab, quote or line break |
| RowPattern.LazyChain | harvester.py:29 | a chain of lazy groups yields one group per terminator, ends within the text, no group contains a newline, and the text matched is exactly the groups, each followed by its terminator |
| RowPattern.MatchAt | harvester.py:29 | a match at a position ends after it; its row has the timestamp shape and newline-free fields; the text matched is that row's markup, with the class attributes it skipped |
| RowPattern.MatchSpellsRender | harvester.py:29 | the text spanned by the timestamp cell and the five groups with their terminators is the markup of the captured row |
| RowPattern.FindAll | harvester.py:60 | every row `findall` returns has the timestamp shape and no newline in any field |
| RowPattern.FindAllRowsAreRendered | harvester.py:60 | whatever markup surrounds them, every row `findall` returns is the markup of that row found somewhere in the page |
| RowPattern.Extract | harvester.py:60 | the rows of a page all have the shape `DD-MM-YYYY HH:MM:SS` and newline-free fields |
| RowPattern.MatchAtRender | harvester.py:29 | the pattern reads a rendered listing row back as exactly its row and ends right after it |
| RowPattern.FindAllAtMatch | harvester.py:60 | where a match starts, `findall` records it and resumes after it, with no overlap |
| RowPattern.FindAllSkips | harvester.py:60 | text without `<` contains no match, and the scan moves past it |
| RowPattern.FindAllRenderPage | harvester.py:60 | `findall` over rendered rows returns those rows, in document order |
| RowPattern.ExtractRenderPage | harvester.py:28-29 | extraction inverts rendering: leading text without `<` followed by rendered rows yields exactly those rows |
| RowPattern.CommentListingRenderable | harvester.py:28 | the example row in the comment is one the pattern reads back unambiguously |
| RowPattern.CommentTimestampShape | harvester.py:28 | the example timestamp has the shape the pattern requires |
| RowPattern.CommentExample | harvester.py:28-29 | the example markup extracts to exactly `("01-01-2026 22:43:11", "Brandweer", "Brabant Noord", message)` |
| Harvester.PageUrlRoundTrip | harvester.py:46 | the page number can be read back out of the page address |
| Harvester.PageUrlInjective | harvester.py:46 | different pages have different addresses |
| Harvester.DataLinesConcat | harvester.py:66-67 | the lines of two batches of rows are the lines of the first batch, then those of the second |
| Harvester.Run | harvester.py:45-73 | at most `maxPage - page + 1` pages are fetched; the counter ends one past the last page fetched, except after an empty page; a cleared flag fetches nothing |
| Harvester.RunFetchesInOrder | harvester.py:35-73 | the i-th page fetched is `page + i`: strictly increasing, one after the other |
| Harvester.RunFailedStep | harvester.py:53-58 | a failed fetch adds no rows, records the page as fetched and continues with the next page |
| Harvester.RunRowsStep | harvester.py:60-73 | a page with rows contributes exactly its rows, ahead of those of later pages |
| Harvester.RunEmptyStep | harvester.py:60-64 | a page without rows ends the harvest, for that reason, with no rows from it and without advancing the counter |
| Harvester.RunRowsArePageRows | harvester.py:66-68 | the rows written are the rows of the pages fetched, page by page, in page order, then in document order |
| Harvester.RunStopsOnlyAsStated | harvester.py:45-64 | an empty page stops only at the last page fetched, the page limit only past `maxPage`, and an interrupt only at a loop head after it was delivered |
| Harvester.RunContinuesOnlyPastRows | harvester.py:53-73 | every page fetched before the last one either failed or had rows |
| Harvester.FailedPagesAreSkipped | harvester.py:53-58 | a run of n failed pages adds no rows and moves the counter on by n; the harvest then goes on as if it had started after them |
| Harvester.InterruptStopsFetching | harvester.py:45 | after an interrupt delivered before the loop head of page q, no page from q on is fetched |
| Harvester.FetchedUrlsDistinct | harvester.py:46 | no address is requested twice in one harvest |
| Harvester.Control.constructor | harvester.py:11 | the flag starts out true |
| Harvester.Control.SignalHandler | harvester.py:13-17 | the handler clears the flag and changes nothing else |
| Harvester.Sink.Open | harvester.py:40 | opening creates an empty file with nothing flushed |
| Harvester.Sink.WriteRow | harvester.py:67 | a row is appended after the rows already written; the flushed part is unchanged |
| Harvester.Sink.Flush | harvester.py:71 | flushing changes no row and leaves nothing in the buffer |
| Harvester.Sink.Close | harvester.py:40 | leaving the `with` block flushes everything and closes the file |
| Harvester.WriteRows | harvester.py:66-68 | the matches are appended in order, one line each; the count grows by their number; nothing more is flushed |
| Harvester.WritePage | harvester.py:66-71 | after a page's rows are written and flushed, the file is the header and all rows so far, the count is their number, and everything is flushed |
| Harvester.HarvestPage | harvester.py:46-73 | one iteration: the page is recorded as fetched; the rows written and pages fetched so far, followed by the rest of the harvest, are still what `Run` gives, and so is the way the harvest ends; an interrupt delivered meanwhile clears the flag, also when the page was empty and ended the harvest |
| Harvester.Harvest | harvester.py:35-81 | the closed file holds the header and then exactly the rows of `Run`, all flushed; the count returned is their number; the pages fetched are those of `Run`; the flag is never set back to true, and it ends cleared exactly when `Run` ends by interrupt or an interrupt arrived while the final, empty page was handled; then a later harvest in the same process fetches nothing |
| WordFilter.FirstMatch | test_filter_regex.py:19 | the leftmost whole-word match at or after a position, or none at all |
| WordFilter.ContainsTest | test_filter_regex.py:19-22 | true exactly when some position holds "test" in any letter case, with a non-word character or the text's edge on both sides |
| WordFilter.CaseInsensitive | test_filter_regex.py:19 | texts equal up to letter case are judged alike |
| WordFilter.NoLetterT | test_filter_regex.py:7 | a message with no `t` or `T` is kept |
| WordFilter.LeadingWord | test_filter_regex.py:10 | "test bla bla" matches: the start of the text is a boundary |
| WordFilter.WordBeforeColon | test_filter_regex.py:9 | "This is a Test: run" matches: a capitalised word followed by `:` |
| WordFilter.NoWordInPlainMessage | test_filter_regex.py:7 | "This is a valid message" does not match |
| WordFilter.NoWordAsPrefix | test_filter_regex.py:8 | "TESTOPROEP MOB" does not match: "test" starts a longer word |
| WordFilter.NoWordInLongerWord | test_filter_regex.py:11 | "Don't touch my testicles" does not match |
| WordFilter.NoWordAsSuffix | test_filter_regex.py:12 | "A contest is fun" does not match: "test" ends a longer word |
| WordFilter.Ids | test_filter_regex.py:29 | the id list has one id per remaining row, in row order |
| WordFilter.SampleVerdicts | test_filter_regex.py:7-12 | the verdict on each of the six samples is as the script's comments say |
| WordFilter.RunTestPasses | test_filter_regex.py:33-35 | the ids remaining are exactly `[1, 2, 5, 6]` |
| Timestamp.DaysInMonth | eda_filter_advanced.py:12 | a month has 28 to 31 days, and 29 exactly for February of a leap year |
| Timestamp.Padded | eda_filter_advanced.py:12 | a zero-padded field is exactly as wide as its field and all digits |
| Timestamp.ParsePadded | eda_filter_advanced.py:12 | reading a zero-padded field gives back its number |
| Timestamp.PaddedParse | eda_filter_advanced.py:12 | a digit run is the zero-padded form of the number it reads as |
| Timestamp.Format | eda_filter_advanced.py:12 | the text for any six numbers fitting their widths has the shape `DD-MM-YYYY HH:MM:SS` |
| Timestamp.Parse | eda_filter_advanced.py:12 | a timestamp that is read names a moment that exists and has the layout's shape |
| Timestamp.FieldsOfFormat | eda_filter_advanced.py:12 | the numbers at the digit positions of a written text are the numbers written |
| Timestamp.ParseFormat | eda_filter_advanced.py:12 | a written text is read back as its moment if that moment exists, and is refused otherwise |
| Timestamp.FormatParse | eda_filter_advanced.py:12 | every text that is read is the text of the moment read, so no two texts read as the same moment |
| Timestamp.ShapeDetermined | eda_filter_advanced.py:12 | two texts of the layout's shape with the same six numbers are equal |
| Timestamp.ShapeIsNotRange | harvester.py:29 | the row pattern accepts "31-02-2026 25:61:61", which names no moment and is refused when read |
| Timestamp.LeapDay | eda_filter_advanced.py:12 | 29 February 2024 is read as that moment |
| Timestamp.NoLeapDay | eda_filter_advanced.py:12 | 29 February 2026 is refused |
| Cleaning.ParseRows | eda_filter_advanced.py:4-12 | every non-empty timestamp is read, or the step fails if even one cannot be; an empty field of any column is read as null; each row keeps its other columns |
| Cleaning.KeepRows | eda_filter_advanced.py:13-16 | the rows kept are no more than the input and all satisfy the keep condition |
| Cleaning.Clean | eda_filter_advanced.py:4-17 | cleaning succeeds exactly when every non-empty timestamp reads; then every row kept has a non-empty message that satisfies the keep condition, so a row with an empty message is removed |
| Cleaning.RowsRemovedAreFailures | eda_filter_advanced.py:20-22 | "Rows Removed" is exactly the number of rows that fail the keep condition |
| Cleaning.KeepRowsExactly | eda_filter_advanced.py:13-16 | the cleaned rows are an order-preserving subsequence; every row passing is kept as often as it occurs; no failing row is kept |
| Cleaning.KeepRowsIdempotent | eda_filter_advanced.py:13-16 | cleaning twice equals cleaning once |
| Cleaning.TestCallDroppedByExactComparison | eda_filter_advanced.py:14 | "TESTOPROEP MOB" has no whole-word "test", and it is the exact comparison that drops it |
| Cleaning.ExactComparisonOnly | eda_filter_advanced.py:14 | the comparison is exact and case-sensitive: "testoproep mob" and "TESTOPROEP MOB 2" are kept |
| Regions.OfficialName | eda_map_visualization.py:87-90 | a missing name gives "Unknown"; a present name gives an official name from the table or the name as given |
| Regions.NormalisedIsKey | eda_map_visualization.py:89 | a lower-case name without surrounding white space is its own lookup key |
| Regions.EveryEntryReachable | eda_map_visualization.py:58-85 | every key of the table is already lower-case and stripped, so looking it up gives its entry |
| Regions.KeyOf | eda_map_visualization.py:89 | the key of a name is its lower-case form when that form has no surrounding white space |
| Regions.FixedByEntry | eda_map_visualization.py:90 | a name whose key maps to that same name is returned unchanged |
| Regions.FixedByFallback | eda_map_visualization.py:90 | a name whose key is not in the table is returned unchanged, surrounding white space and letter case included |
| Regions.ValuesAreFixedPoints | eda_map_visualization.py:58-90 | every official name in the table is mapped to itself |
| Regions.PaddedKey | eda_map_visualization.py:89 | a name with one space on either side has the key of its lower-case form |
| Regions.PaddedNameFound | eda_map_visualization.py:89-90 | " Brabant Noord " gives "Brabant-Noord" |
| Regions.UnknownNameKept | eda_map_visualization.py:90 | " Onbekend " is not in the table and comes back unchanged, not lower-cased or stripped |
| Regions.ManyToOne | eda_map_visualization.py:65-66 | "Friesland" and "FRYSLÂN" both give "Fryslân": the table is many-to-one |
| Regions.Idempotent | eda_map_visualization.py:87-90 | applying `get_official_name` to its own result changes nothing, "Unknown" included |
| Regions.Named | eda_map_visualization.py:92-93 | the named rows are no more than the totals, and each carries the name computed from its region |
| Regions.NamedRows | eda_map_visualization.py:92-93 | every named row comes from a row of the totals, and every row with a region is named; rows without one are dropped |
| Regions.Normalize | eda_map_visualization.py:92-93 | each remaining row carries the official name of its region |
| Regions.NormalizeRows | eda_map_visualization.py:92-93 | `dropna` keeps every row that has a region, now with its official name, and adds none |
| Regions.NamesOfNormalized | eda_map_visualization.py:92-93 | every named row carries an official name from the table or its own region as written |
| Regions.Matches | eda_map_visualization.py:99 | every match has an official name among the boundary names |
| Regions.Mismatches | eda_map_visualization.py:100 | no mismatch has an official name among the boundary names |
| Regions.MatchesPartition | eda_map_visualization.py:99-100 | matches and mismatches together hold every row as often as it occurs; a row is in the matches exactly when its name is a boundary name, and in the mismatches exactly when it is not |

## Left out

- Network I/O is a parameter (`Env.net`). This covers `urlopen`, reading
  the response and decoding it as UTF-8 with errors ignored, and the PDOK
  boundary request. The boundary names are a parameter of `Matches` and
  `Mismatches`.
- The delivery of signals is a parameter (`Env.sigint`). The model states
  before which loop head an interrupt arrives; registering the handler with
  `signal.signal` is not modelled.
- Sleeping between pages and after an error carries no logic and is not
  modelled. The same goes for every progress and summary message printed.
- The command line is not modelled: argparse, the default page limit and
  the clock-derived default file name.
- `Harvester.Harvest`: the `IOError` and other-exception handlers are not
  modelled. The model's file operations cannot fail.
- `Harvester.Harvest` returns the file's rows and flush state, not its bytes
  on disk. `Sink.Flush` is "out of the write buffer", and `fsync`
  durability is not claimed.
- `Tsv.SplitJoin`: `csv.writer` quotes fields holding a tab, a quote or a
  line break. This quoting is not modelled; such fields are excluded instead.
- `RowPattern.MatchAt` is not a general regular-expression engine. It is the
  one pattern, specialised. `.` excludes only `\n`, as in Python. The model
  narrows `\d` to the ASCII digits; in a `str` pattern Python's `\d` also
  matches every other Unicode decimal digit (such as U+0660).
- `WordFilter.ContainsTest`: the word characters of `\b` are ASCII letters,
  digits and `_`. The library's Unicode word characters, such as accented
  letters next to "test", are not modelled.
- `Text.LowerChar` lower-cases ASCII and Latin-1 capitals only. Other
  scripts, and the multi-character or context-dependent cases of
  `str.lower()`, are not modelled. The table and the examples need only
  Latin-1.
- `Timestamp.Parse` requires the exact 19-character layout and does not
  accept a leap second (second 60). The dataframe library's parser may be
  more lenient in corner cases; that is not modelled.
- `Regions.Normalize` takes the per-region totals as given. Reading the file
  (`read_csv`), `group_by(...).len()`, sorting by total and the conversion
  to pandas are library calls and are not modelled.
- Finding the newest file (`glob`, `getmtime`) is not modelled. Neither is
  building and saving the map (folium).
- Not modelled, being thin scripts over the dataframe library:
  `eda_template.py`, `eda_filter_test.py`, `eda_region_stats.py` and the
  top-20 listings of `eda_filter_advanced.py`.
- `eda_filter_comprehensive.py` is not modelled. It is an incomplete
  fragment whose only logic is a substring filter.
