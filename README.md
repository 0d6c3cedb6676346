# miwear log extraction, modelled in Dafny

`miwear/html.py` reads a text log from a MiWear watch and extracts two kinds of records:

- **AppID records**: `on_ui_create: create view 0x…:{app, page}` lines, with the id looked up in a constant directory of 98 apps.
- **Screen-state records**: `async_apply_screen_state_change: Screen state: FROM-->TO, source: SRC` lines.

From the records it prints statistics, writes CSV text and fills the figures of an HTML page. This project models that engine and proves what it computes.

The model has these parts, one module each:

- **`AppDirectory`**:
  - `APP_NAME_TO_ID` as a literal table, with `APP_ID_TO_NAME` as its reverse;
  - the name lookup, with its `Unknown(appid=<decimal>)` fallback.
- **`LineSearch`**: Python's `re.search` on the two patterns, which share the shape `\[(timestamp)\].*BODY`.
  - The earliest `[` that starts a full match wins.
  - The greedy `.*` (which does not cross a `\n`) then takes the *last* body start on that line that completes the match.
  - The scanner is generic in the body.
- **`AppIdLog` and `ScreenLog`**: the two `parse_line` matchers.
  - Each body is a hand-written scanner (`CreateBody`, `TransitionBody`).
  - Each is proved equal to a declarative shape predicate that spells out the regex (`CreateShape`, `TransitionShape`).
  - Each matcher is then characterised completely: when it returns None, and which fields it returns otherwise.
  - The examples in the doc comments are proved to parse as documented.
- **`Analysis`**: `BaseAnalyzer` as a class.
  - Its `entries` field is reset, then appended to in a loop over the lines of the file.
  - The loop is proved equal to `Collect`, the in-order subsequence of successful parses.
- **`Order` and `Tally`**: supporting definitions.
  - `Order` provides `sorted` (an insertion sort proved sorted and a permutation), string order, tuple order and `sorted(set(…))`.
  - `Tally` provides the `d[k] = d.get(k, 0) + 1` counting loop.
- **`Report`**: the statistics of `print_summary`, `export_to_html` and `main`:
  - the count maps in key order;
  - the time range;
  - the distinct-id count;
  - the unrun apps;
  - the ON/OFF counts;
  - the unknown ids.
- **`Duration`**: `strptime(…, "%m/%d %H:%M:%S")` in the non-leap year 1900, the subtraction, and the `HH:MM:SS` formatting with floor division.
  - A reader proves that the text gives back the difference.
- **`Page`**: the dictionaries `export_to_html` returns, without their `rows` HTML.
- **`Csv`**: the text the CSV exporters write.
  - A CSV reader proves that every record an analyze call produces comes back from that text.
- **`Text` and `Options`**: ASCII character classes, decimal numbers, `strip`, `split` and `join`, and `Option`.

The log file is a parameter, `Option<seq<string>>`:

- None stands for a file that cannot be opened.
- Otherwise it holds the lines `for line in f` yields, each with its line terminator.
- The "file exists" test of `export_to_csv_append` is a boolean parameter.

## Model

| member | source | states |
|---|---|---|
| AppDirectory.AppTableIds | miwear/html.py:28-127 | the table has 98 items; items 0..0x5F carry ids 0..0x5F in order, then WF_JUMP_APP is 0x00FF and OFFLOAD is 0x1000 |
| AppDirectory.AppTableNamesDistinct | miwear/html.py:28-127 | no name occurs twice in the table, so the dict literal loses no item |
| AppDirectory.AppTableIdsDistinct | miwear/html.py:28-130 | no id occurs twice, so the reversed dict loses no item |
| AppDirectory.ToMapDistinct | miwear/html.py:28-130 | a dict built from items with distinct keys maps each item's key to that item's value and has one entry per item |
| AppDirectory.DirectoryIds | miwear/html.py:130 | an id is in APP_ID_TO_NAME exactly when it is below 0x60, or is 0x00FF or 0x1000 |
| AppDirectory.DirectorySizes | miwear/html.py:28-130 | both dicts have 98 entries |
| AppDirectory.ToMapSwappedInverse | miwear/html.py:130 | `{v: k for k, v in d.items()}` is a two-sided inverse of d when keys and values are both distinct |
| AppDirectory.DirectoryInverse | miwear/html.py:28-130 | APP_ID_TO_NAME and APP_NAME_TO_ID are inverse bijections between 98 names and 98 ids |
| AppDirectory.DirectoryNamesUnreserved | miwear/html.py:28-127 | no directory name starts with "Unknown" or with "MI_" |
| AppDirectory.AppNameUnknownIff | miwear/html.py:184 | a record's app_name starts with "Unknown" exactly when its id is missing from the directory |
| AppDirectory.AppNameRoundTrip | miwear/html.py:184 | a known id's name maps back to the id; an unknown id's name is "Unknown(appid=" + digits + ")", and those digits read back as the id |
| AppDirectory.AppNameInjective | miwear/html.py:184 | different ids never get the same name, whether known or not (also line 261) |
| AppDirectory.AppNameExamples | miwear/html.py:38-44 | decimal 15 names SPORTS (0x000F) and CLOCK is 9, not 15 (also line 184) |
| AppDirectory.AppNameUnknownExample | miwear/html.py:184 | the id 0x9999 is named "Unknown(appid=39321)", in decimal |
| AppDirectory.AppNameNoMiPrefix | miwear/html.py:184 | no name a record can have starts with "MI_" (also line 288) |
| AppDirectory.AppNameFitsField | miwear/html.py:184 | a record's name contains neither a comma nor a line break (also line 292) |
| Text.Decimal | miwear/html.py:184 | `str(n)` is a non-empty run of digits without a leading zero (also line 292) |
| Text.DecimalRoundTrip | miwear/html.py:228 | `int(str(n)) == n` (also line 184) |
| Text.LeadingZero | miwear/html.py:228 | `int` ignores leading zeros of a digit string |
| Text.DecimalInjective | miwear/html.py:184 | distinct numbers have distinct decimal texts |
| Text.DecimalExample | miwear/html.py:184 | 39321 prints as "39321" |
| Text.StripIsTrimmedSlice | miwear/html.py:230 | `strip()` returns a slice of the line with only whitespace cut off either side, and starts and ends with a non-space (also line 426) |
| Text.StripIdempotent | miwear/html.py:230 | stripping a stripped line changes nothing (also line 426) |
| Text.SplitJoin | miwear/html.py:291-292 | splitting `sep.join(fields)` at sep gives back the fields when no field holds sep (also lines 491-492) |
| Text.JoinExcludes | miwear/html.py:291-292 | a character absent from every field and different from the separator is absent from the joined line |
| Order.StrLessIsStrictTotalOrder | miwear/html.py:348 | Python's string comparison is irreflexive, transitive and total on distinct strings (also lines 458, 467) |
| Order.PairLessIsStrictTotalOrder | miwear/html.py:348 | the order `sorted` uses on (name, id) tuples is a strict total order |
| Order.SortSorted | miwear/html.py:260 | `sorted` yields an ascending sequence when its items are pairwise comparable (also lines 348, 458, 467) |
| Order.SortPermutation | miwear/html.py:260 | `sorted` yields a permutation of its input (also lines 348, 458, 467) |
| Order.SortMembers | miwear/html.py:260 | `sorted` keeps the length and the members (also line 348) |
| Order.Dedup | miwear/html.py:1186 | `set(…)`: no member twice, and the same members as the input |
| Order.SortedSet | miwear/html.py:1186 | `sorted(set(xs))` is strictly ascending, holds no duplicate, and holds exactly the members of xs |
| Order.DistinctCard | miwear/html.py:311 | a sequence without duplicates has as many distinct members as it has items |
| Tally.CountBy | miwear/html.py:255-257 | the counting loop leaves a dict whose keys are exactly the keys seen, each mapped to the number of times it occurred (also lines 452-455, 462-464) |
| Tally.Histogram | miwear/html.py:260 | `sorted(stats.items())`: keys strictly ascending, and (k, c) is an item iff k occurs c times (also lines 458, 467) |
| Tally.Summarize | miwear/html.py:255-260 | the counting loop followed by the sort gives the Histogram (also lines 452-458, 462-467) |
| Tally.HistogramTotal | miwear/html.py:255-257 | the counts add up to the number of records |
| Tally.HistogramOccurrences | miwear/html.py:255-257 | every listed count is positive and equals the number of occurrences of its key |
| LineSearch.CoversUpToLineEnd | miwear/html.py:223 | `.*` from k can end exactly at the positions up to the first line break (also line 417) |
| LineSearch.Search | miwear/html.py:224 | None iff no (header, body) pair matches; otherwise a match at the leftmost header, with the last possible body start there (also line 418) |
| LineSearch.SearchFound | miwear/html.py:224 | the found match as positions: it matches, no header before it matches, and no later body start at its header matches (also line 418) |
| AppIdLog.CreateBodySound | miwear/html.py:223 | a body the scanner accepts has the regex's shape, and its captures are the two id digit runs |
| AppIdLog.CreateBodyComplete | miwear/html.py:223 | every position where the body's shape holds is accepted by the scanner, with those captures |
| AppIdLog.CreateMatchAtIff | miwear/html.py:223-224 | the scanner matches at (header i, body j) exactly when the declarative regex shape does |
| AppIdLog.ParseAppLineNone | miwear/html.py:224-232 | parse_line returns None exactly when no header and body in the line form a match |
| AppIdLog.ParseAppLineSome | miwear/html.py:224-230 | a parsed record comes from the leftmost matching header and the last matching body; its ids are the decimal values of the captured digits, and raw_line is the stripped line |
| AppIdLog.ParseAppLineTimestamp | miwear/html.py:223 | a parsed timestamp has the shape DD/DD DD:DD:DD (also line 227) |
| AppIdLog.CreateExampleParses | miwear/html.py:222 | the example line parses as ("01/02 04:23:33", 15, 5) with raw_line the line without its line break, and is named SPORTS |
| ScreenLog.TransitionBodySound | miwear/html.py:417 | a body the scanner accepts has the regex's shape, and its captures are the from, to and source runs of word characters |
| ScreenLog.TransitionBodyComplete | miwear/html.py:417 | every position where the body's shape holds is accepted, and the greedy source run is maximal |
| ScreenLog.TransitionMatchAtIff | miwear/html.py:417-418 | the scanner matches at (header i, body j) exactly when the declarative regex shape does |
| ScreenLog.ParseScreenLineNone | miwear/html.py:418-429 | parse_line returns None exactly when no header and body in the line form a match |
| ScreenLog.ParseScreenLineSome | miwear/html.py:418-427 | a parsed record comes from the leftmost matching header and the last matching body; its fields are the three captured runs and the stripped line |
| ScreenLog.ParseScreenLineFields | miwear/html.py:417 | the timestamp has the DD/DD DD:DD:DD shape and the three captures are non-empty runs of word characters (also lines 421-424) |
| ScreenLog.ScreenExampleParses | miwear/html.py:416 | the example line parses as ("01/02 05:51:19", ON, OFF, TOUCH_PALM) with raw_line the line without its line break |
| Analysis.Collect | miwear/html.py:149-152 | the records of the file are never more than its lines; what they are is stated by Analysis.CollectPicks and Analysis.PicksUnique, and how many by Analysis.CollectCount |
| Analysis.CollectPicks | miwear/html.py:149-152 | the records are the parses that succeeded, in line order, picked out by increasing line indices, with every successful line picked |
| Analysis.PicksUnique | miwear/html.py:149-152 | any ordered pick of exactly the successful lines is the Collect result |
| Analysis.CollectCount | miwear/html.py:149-152 | the number of records is the number of lines that parse |
| Analysis.CollectAppend | miwear/html.py:149-152 | reading two stretches of lines gives the records of the first followed by those of the second |
| Analysis.CollectFrom | miwear/html.py:150-152 | every record is the parse of some line |
| Analysis.CollectEnds | miwear/html.py:149-152 | the first and last records come from the first and last lines that parse |
| Analysis.AppEntriesTimestamps | miwear/html.py:149-152 | every AppID record of a file has a well-shaped timestamp (also line 227) |
| Analysis.ScreenEntriesFields | miwear/html.py:149-152 | every screen record of a file has a well-shaped timestamp and word-character fields (also lines 421-424) |
| Analysis.Analyzer.constructor | miwear/html.py:136-138 | a new analyzer has its name, its parser and no records |
| Analysis.Analyzer.Analyze | miwear/html.py:144-157 | entries is replaced by the records of the file's lines, in order, or by none when the file cannot be opened; the result is entries, so two runs on the same lines agree |
| Analysis.NewAppIdAnalyzer | miwear/html.py:209-210 | AppIDAnalyzer() is named "AppIDAnalyzer", uses the AppID matcher, and starts empty |
| Analysis.NewScreenStateAnalyzer | miwear/html.py:403-404 | ScreenStateAnalyzer() is named "ScreenStateAnalyzer", uses the screen matcher, and starts empty |
| Report.AppStats | miwear/html.py:254-260 | app_stats in sorted order: ids strictly ascending, counts adding up to the number of records |
| Report.AppStatsCounts | miwear/html.py:254-257 | (id, c) is listed iff the id occurs c > 0 times among the records |
| Report.TransitionStats | miwear/html.py:451-458 | transition_stats in sorted order: keys strictly ascending, counts adding up to the number of records |
| Report.TransitionStatsCounts | miwear/html.py:452-455 | (key, c) is listed iff c > 0 records have from + "-->" + to equal to key |
| Report.TransitionKeyInjective | miwear/html.py:454 | for word-character states the key FROM-->TO determines both states |
| Report.SourceStats | miwear/html.py:461-467 | source_stats in sorted order: keys strictly ascending, counts adding up to the number of records |
| Report.SourceStatsCounts | miwear/html.py:462-464 | (source, c) is listed iff c > 0 records have that source |
| Report.NameLines | miwear/html.py:260-262 | the printing loop names each (id, count) item in order |
| Report.AppSummary | miwear/html.py:254-262 | the counting loop and listing give the named sorted app_stats |
| Report.SummaryNamesDistinct | miwear/html.py:260-262 | the summary lists no app name twice |
| Report.ScreenSummary | miwear/html.py:451-468 | the two counting loops and listings give the sorted transition and source stats |
| Report.TimeRange | miwear/html.py:248-249 | there is a range exactly when there are records (also lines 265-267) |
| Report.TimeRangeAppend | miwear/html.py:265-267 | the range of two stretches runs from the first one's start to the second one's end |
| Report.AppTimeRange | miwear/html.py:265-267 | the AppID range is the first and last record's timestamps |
| Report.ScreenTimeRange | miwear/html.py:470-473 | the screen range is the first and last record's timestamps |
| Report.TimeRangeOfLines | miwear/html.py:149-152 | the range of a file's records is the timestamps of its first and last lines that parse (also lines 265-267) |
| Report.CountToOccurrences | miwear/html.py:544-545 | on_count and off_count count the records whose to_state is ON and OFF, respectively |
| Report.OnOffBound | miwear/html.py:544-545 | on_count + off_count never exceeds the number of records |
| Report.AppIdsMembers | miwear/html.py:311 | the set of record ids holds exactly the ids the records carry (also line 346) |
| Report.StatKeysMembers | miwear/html.py:311 | the ids in app_stats are exactly the set of record ids (also lines 255-257) |
| Report.RunAppsCount | miwear/html.py:311 | run_apps equals the number of app_stats items and is at most the number of records |
| Report.Select | miwear/html.py:348-350 | the filter keeps exactly the rows whose id is (or is not) in the given set |
| Report.SelectSorted | miwear/html.py:348-350 | filtering a sorted list keeps it sorted |
| Report.SelectRanCount | miwear/html.py:348-350 | given distinct ids, the rows kept for having run number as many as the run ids present among the rows |
| Report.UnrunMembers | miwear/html.py:346-350 | unrun_apps holds exactly the directory items whose id no record carries |
| Report.UnrunSorted | miwear/html.py:348 | unrun_apps is in ascending (name, id) order and holds no item twice |
| Report.UnrunCount | miwear/html.py:346-350 | the size of unrun_apps is 98 minus the number of run ids that are in the directory |
| Report.SelectUnrun | miwear/html.py:347-350 | the append loop builds the rows whose id did not run |
| Report.UnrunApps | miwear/html.py:346-350 | the loop over `sorted(APP_NAME_TO_ID.items())` builds unrun_apps |
| Report.UnknownList | miwear/html.py:1178-1182 | the unknown-id list holds exactly the record ids missing from the directory |
| Report.UnknownIds | miwear/html.py:1186 | the printed ids are sorted, distinct, and exactly the record ids missing from the directory |
| Report.UnknownNoteShown | miwear/html.py:1181-1183 | the note is printed iff some record's name starts with "Unknown" |
| Report.RunIdsSplit | miwear/html.py:311 | run_apps counts the run ids that are in the directory plus the unknown ids (also lines 1178-1186) |
| Report.UnrunRunUnknown | miwear/html.py:311 | unrun apps plus run apps equal 98 plus the number of unknown ids (also lines 346-350, 1178-1186) |
| Duration.DaysBeforeTable | miwear/html.py:321-322 | the days before each month of 1900, which is not a leap year, sum to 365 |
| Duration.ParseTimestamp | miwear/html.py:321-322 | a parsed timestamp has the two-digit shape and valid month, day, hour, minute and second |
| Duration.StampRoundTrip | miwear/html.py:321-323 | converting valid fields to seconds since the start of the year and back gives the fields |
| Duration.ParseTimestampInverse | miwear/html.py:321-323 | a parsed time lies within the year and converts back to the fields of the text |
| Duration.ParseTimestampInjective | miwear/html.py:321-323 | two texts that parse to the same time are the same text |
| Duration.InvalidTimestamps | miwear/html.py:321-322 | 02/29, month 13, day 0, 04/31, hour 24, minute 60 and second 60 fail to parse, and the duration is then "N/A" (also lines 329-330) |
| Duration.Parts | miwear/html.py:325-327 | hours*3600 + minutes*60 + seconds equals the difference, minutes and seconds lie in 0..59, and hours is negative iff the difference is |
| Duration.DurationText | miwear/html.py:316-330 | the duration is "N/A" exactly when one of the two timestamps fails to parse |
| Duration.DurationRoundTrip | miwear/html.py:328 | reading a formatted duration back gives the seconds it was written from |
| Duration.DurationTextReadsBack | miwear/html.py:321-328 | for two valid timestamps the duration text reads back as end minus start in seconds |
| Duration.DurationTextTail | miwear/html.py:328 | a formatted duration ends in ":MM:SS" with two digits each |
| Duration.ExampleSeconds | miwear/html.py:321-322 | the example timestamps convert to seconds since the start of 1900 |
| Duration.DurationExample | miwear/html.py:316-328 | 01/02 04:23:33 to 01/02 05:51:19 is "01:27:46" |
| Duration.NegativeDurationExample | miwear/html.py:325-328 | one second backwards is "-1:59:59", by floor division |
| Page.GuardedDurationIsDuration | miwear/html.py:317 | the "N/A" guard of the AppID page never changes the duration |
| Page.ExportAppHtml | miwear/html.py:305-360 | the AppID page figures, or None where it prints "No data to export" |
| Page.AppPageCounts | miwear/html.py:305-313 | the page exists iff there are records; total, run_apps and the time range are those of the records (also lines 353-356) |
| Page.AppPageDuration | miwear/html.py:316-330 | time_duration is the duration text of the two timestamps, and "N/A" iff one does not parse (also line 357) |
| Page.AppPageUnrun | miwear/html.py:345-350 | unrun_apps holds exactly the directory items no record ran, and its size plus run_apps is 98 plus the unknown ids (also line 359) |
| Page.ScreenPageCounts | miwear/html.py:538-545 | the page exists iff there are records; the ON and OFF counts are occurrence counts whose sum is at most total, and the time range is that of the records (also lines 583-588) |
| Page.ScreenPageDuration | miwear/html.py:562-580 | the unguarded screen duration equals the guarded AppID one, and is "N/A" iff a timestamp does not parse (also line 589) |
| Csv.LinesSnoc | miwear/html.py:284-293 | writing one more record appends its line |
| Csv.TableRoundTrip | miwear/html.py:283-293 | splitting the written text at line breaks and commas gives back the rows, when no field holds either |
| Csv.WriteRows | miwear/html.py:284-293 | the writing loop produces one line per record, in record order (also lines 490-493) |
| Csv.CsvRoundTrip | miwear/html.py:283-293 | a reader given the header and the lines recovers every record, in order (also lines 489-493) |
| Csv.RemoveMiAbsent | miwear/html.py:287 | `replace("MI_", "")` leaves a name without "MI_" unchanged |
| Csv.RemoveMiExample | miwear/html.py:287 | "MI_SPORTS" becomes "SPORTS" and "A_MI_B" becomes "A_B" |
| Csv.DisplayNameUnchanged | miwear/html.py:285-290 | the display name always equals the app name, because no name starts with "MI_" |
| Csv.ExportAppCsv | miwear/html.py:277-293 | None without records; otherwise the header line and then one line per record |
| Csv.AppCsvReadsBack | miwear/html.py:283-293 | the AppID CSV of a file's records reads back as each record's timestamp, ids and name |
| Csv.ExportScreenCsv | miwear/html.py:483-493 | None without records; otherwise the header line and then one line per record |
| Csv.ScreenCsvReadsBack | miwear/html.py:489-493 | the screen CSV of a file's records reads back as each record's four fields |
| Csv.ExportScreenCsvAppend | miwear/html.py:505-526 | the appended text: "\n\n" if the file existed, the title line, then the screen CSV text |
| Csv.ScreenCsvAppendReadsBack | miwear/html.py:519-526 | the appended text starts with the optional "\n\n" and the title line, and the rest reads back as every record of the analyzed lines, in order |

## Left out

- File I/O is not modelled: `open`, the `errors="ignore"` decoding and the file writes. Analyze takes the file's lines, or None when opening fails. The exporters return the text they would write. The existence check of `export_to_csv_append` is the `fileExists` parameter.
- Printing is not modelled: print_entries, the `print` calls and `__str__` of both record classes. The model keeps the values the summary prints, not the printed text.
- argparse, the control flow of `main` and `webbrowser.open` are not modelled. From `main`, only the unknown-id list (lines 1178-1187) is.
- The HTML `rows` strings built in both `export_to_html` methods and `generate_unified_html` are not modelled. They are templating, and the page records carry every other dictionary entry.
- The `try`/`except Exception` blocks are not modelled. The file-not-found path of `analyze` is the None file.
- AppIdLog.ParseAppLine: does not model the ValueError that `int()` raises on a captured digit run longer than Python's `int_max_str_digits` limit (4300 digits by default since 3.11); the model reads any digit run, because the limit depends on the interpreter's version and settings.
- Analysis.Analyzer.Analyze: does not model the early stop when `parse_line` raises. The source's `except Exception` then keeps the records of the lines before the failing one and reads no further; the model always collects over every line.
- The legacy wrappers (lines 367-397) are not separate members. Each builds an AppIDAnalyzer and calls the matching modelled operation.
- Python's `\d`, `\w`, `\s` and `str.strip` also accept non-ASCII digits, letters and spaces; the model uses the ASCII classes only.
- Duration.ParseTimestamp accepts only the two-digit `MM/DD HH:MM:SS` shape that both matchers capture. `strptime` would also accept one-digit fields, but it never sees them here.
- Duration.DurationText models `timedelta.total_seconds()` as integer seconds. The difference of two whole-second times has no fraction, so `int(…)` changes nothing.
- Page.AppPageDuration states the duration through Duration.DurationText. It does not unfold the formatted text: Duration.DurationTextReadsBack proves that the text reads back as the difference in seconds.
