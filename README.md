# YugabyteDB log analyzer, modelled in Dafny

The analyzer reads the log files of a YugabyteDB universe. These are glog lines of the masters and
tablet servers (`I0923 14:23:45.123456 …`) and PostgreSQL lines (`2023-09-23 14:23:45.123 UTC …`).
It does four things:

- It works out each file's metadata: its first and last time stamp, its log type and the node it
  came from.
- It drops the files outside the selected nodes, types and time window.
- It runs a set of known-issue regular expressions over every line that falls in the window.
- It reports, for each message, how often it occurred, when it was first and last seen, and a
  histogram of hits per hour.

The repository holds several generations of that pipeline:

- `analyzer.py` and `log_analyzer.py`: single-process and worker-pool scripts that build one table
  per file.
- `log_analyzer_v2.py`: adds a per-node summary and merges the workers' results in the main
  process.
- `log_analyzer_v3.py`: analyzes by node, log type and sub-type and nests the results.
- `log_lib.py`: the shared time-stamp reader, file metadata and file filters.
- `utils/arg_parser_helper.py` and `utils/input_helper.py`: the two command-line front ends.
- `utils/helper.py` and `utils/render.py`: the index page of analysis reports.

The model has one Dafny module per source file, plus shared modules:

| module | what it holds |
|---|---|
| `Calendar` | `datetime` stamps, their `strptime`/`strftime` text forms and their order |
| `Text` | the Python string operations the scripts use |
| `Seqs` | list comprehensions and `sorted` |
| `Dicts` | insertion-ordered dictionaries |
| `Occurrences` | the per-message count, first and last time and histogram that every revision keeps |
| `Ranking` | the order of a table by count, first or last occurrence |

How each kind of source code is modelled:

- **Line loops and filters** are methods with loop invariants. Each is proved equal to a function
  that specifies it. The properties the source promises are then lemmas about that function.
- **Worker objects** are classes. A worker's module-level result lists are fields, and each of its
  methods updates them.
- **Parsing and lookups** are plain functions. Each function's `ensures` states what the result
  means.
- **What cannot be modelled as code is a parameter.** This covers the regular-expression engine, the
  current year and the file system's answers (open, read, is-directory). Each is a function value
  or a plain value passed in.

## Model

| member | source | states |
|---|---|---|
| LogLib.TimeFromLine | log_lib.py:25-39 | a stamp read from a line is a real date and time; an empty line has none; a glog line's stamp is put in the current year |
| LogLib.GlogLineTime | log_lib.py:28-31 | a glog line `Xmmdd HH:MM:SS…` yields exactly that month, day and time in the current year, for every date valid in 1900 |
| LogLib.DatabaseLineTime | log_lib.py:33-36 | a PostgreSQL line `YYYY-MM-DD HH:MM:SS` followed by a fraction or a space yields exactly that stamp, year included |
| LogLib.GlogLeapDayRejected | log_lib.py:28-31 | a glog line dated 29 February never yields a stamp, because `strptime` checks it in 1900 |
| LogLib.HeadScan | log_lib.py:71-77 | the start stamp is the first of the first ten lines that parses; no stamp means none of them parsed; a fault means some line raised |
| LogLib.LastLines | log_lib.py:79 | the deque keeps the last `min(n, 10)` lines of the rest of the file, which are a suffix of it |
| LogLib.TailScan | log_lib.py:80-85 | the end stamp comes from the last line of that suffix that parses, and every later line fails to parse |
| LogLib.ScanEnds | log_lib.py:69-88 | the head loop followed by the tail loop computes exactly the start and end stamps of the specification |
| LogLib.ReadHead | log_lib.py:71-77 | the imperative head loop stops at the first line that parses, or after ten lines, as the head specification says |
| LogLib.FillRing | log_lib.py:79 | after filling, the ring buffer of ten holds each of the last ten lines at its position modulo ten |
| LogLib.ScanRing | log_lib.py:80-85 | walking the ring backwards from the newest line finds the end stamp that the tail specification gives |
| LogLib.Restamp | log_lib.py:94-98 | both stamps move to the current year; if the start date is not valid that year, both are kept unchanged; if only the end date is not valid, the end is kept |
| LogLib.GetFileMetadata | log_lib.py:41-123 | the method returns the metadata of the specification function: none when the file cannot be opened or read, otherwise start and end stamps (or the 1 January and 31 December defaults), log type and node name |
| LogLib.LibScanCompletes | log_lib.py:69-88 | the reader never raises on any line, so the scan of a readable file always completes |
| LogLib.LibMetadataAlwaysFound | log_lib.py:41-123 | every readable file has metadata |
| LogLib.FirstLabel | log_lib.py:101-110 | the label is that of the first table entry whose key occurs in the path, or the fallback when none does |
| LogLib.LogTypeIsFirstLabel | log_lib.py:101-110 | the log type is `postgres`, `yb-controller`, `yb-tserver` or `yb-master`, tried in that order, else `unknown` |
| LogLib.FirstNode | log_lib.py:115-120 | a node name found is a path segment of the node-name shape that appears between two slashes in the path |
| LogLib.NodeNameFound | log_lib.py:115-120 | any path with a node-shaped segment between slashes has a node name |
| LogLib.FilterByTime | log_lib.py:125-138 | the kept files are, in order, those whose span overlaps the window; the removed files are the rest |
| LogLib.FilterByNode | log_lib.py:140-150 | the kept files are those whose node name contains one of the comma-separated selectors; the removed files are the rest |
| LogLib.EmptySelectorKeepsAll | log_lib.py:144-146 | an empty selector list keeps every file, because `"" in name` always holds |
| LogLib.SelectedTypes | log_lib.py:155-158 | a type is selected exactly when one of the given codes maps to it; unknown codes are ignored |
| LogLib.FilterByType | log_lib.py:152-168 | the kept files are those of a selected type with hidden names dropped; the removed files are those of an unselected type |
| LogLib.TypeFilterPlacement | log_lib.py:159-165 | a file is removed exactly when its type is not selected, and kept exactly when its type is selected and its name does not start with '.'; a hidden file of a selected type is in neither list |
| AnalyzerV2.InitialTimeParses | log_analyzer_v2.py:391 | the initial previous time `0101 00:00` parses to 1 January 1900, 00:00 |
| AnalyzerV2.ParseLine | log_analyzer_v2.py:341-356 | a non-empty line always yields a valid whole-minute stamp in 1900, because the fallback always parses |
| AnalyzerV2.GlogShortLine | log_analyzer_v2.py:342-345 | a glog line yields its own month, day, hour and minute |
| AnalyzerV2.DatabaseShortLine | log_analyzer_v2.py:349-355 | a PostgreSQL line with a fraction yields its date and minute in 1900 when that date exists in 1900, and otherwise the previous time |
| AnalyzerV2.FallbackKeepsPrevious | log_analyzer_v2.py:346-355 | a line with no second word yields the previous line's time |
| AnalyzerV2.StampAt | log_analyzer_v2.py:404-406 | the stamp of the k-th line, with each line's time becoming the next line's fallback, is a valid stamp in 1900 |
| AnalyzerV2.ScanInWindow | log_analyzer_v2.py:404-439 | every hit the line loop records has a time inside the window |
| AnalyzerV2.AppendInWindow | log_analyzer_v2.py:416-430 | the hits of one line in the window keep the property that all hits lie in the window |
| AnalyzerV2.ScanStopsAtLateLine | log_analyzer_v2.py:412-414 | the loop stops at the first line after the end of the window: the lines after it do not change the result |
| AnalyzerV2.RestampedWindowSkipsAll | log_analyzer_v2.py:408-410 | a window moved to a year after 1900 lies after every line stamp, so every line is skipped and no hit is recorded |
| AnalyzerV2.RulesFor | log_analyzer_v2.py:381-388 | a file is analyzed exactly when its base name contains `postgresql`, `tserver` or `master`; PostgreSQL files get the PostgreSQL rules and the others get the universe rules |
| AnalyzerV2.Worker.AnalyzeLogFile | log_analyzer_v2.py:375-455 | the worker's result equals the specification: an unsupported or unopenable file gives an incomplete result and leaves the lists alone; a hit whose message has no solution (outside histogram mode) makes the worker raise; otherwise the lists are updated with the file's errors and, when it had no hits, its name |
| AnalyzerV2.Worker.AnalyzeLines | log_analyzer_v2.py:403-455 | the line loop's results, chart, node details and error list equal those computed from the file's hits in the window, or the worker raises when one of those hits has no solution |
| AnalyzerV2.UnsolvedHitCrashes | log_analyzer_v2.py:473-477 | the worker raises exactly when some hit in the window has a message without a solution and histogram mode is off; a completed worker's node details hold only messages that have one |
| AnalyzerV2.ScanFile | log_analyzer_v2.py:403-439 | the loop's table, bar chart, node details and error list are the tabulation, plot and names of the window's hits |
| AnalyzerV2.RecordHit | log_analyzer_v2.py:419-438 | recording one hit keeps the tables equal to the tabulation and plot of the hits so far |
| AnalyzerV2.ClassifyLine | log_analyzer_v2.py:416-439 | trying every rule on a line extends the tables by exactly that line's hits |
| AnalyzerV2.MergeOccurrence | log_analyzer_v2.py:673-686 | the merged count is the sum; the merged first time is the earlier of the two and the last time the later, in text order |
| AnalyzerV2.MergeOccurrenceCommutes | log_analyzer_v2.py:673-686 | merging two statistics does not depend on their order |
| AnalyzerV2.MergedTimesAreExtremes | log_analyzer_v2.py:676-686 | on `MMDD HH:MM` texts, the text comparison picks the earlier stamp as first and the later as last |
| AnalyzerV2.MergeTables | log_analyzer_v2.py:669-688 | a merged node table has the messages of both |
| AnalyzerV2.MergeNodes | log_analyzer_v2.py:665-688 | merged node details have the nodes of both |
| AnalyzerV2.MergeResults | log_analyzer_v2.py:651-691 | the main process's loop over the worker results computes the specified fold |
| AnalyzerV2.MergeNodeDetails | log_analyzer_v2.py:664-688 | the loop over nodes computes the specified node merge |
| AnalyzerV2.MergeNodesStep | log_analyzer_v2.py:666-688 | merging one more node updates only that node's table |
| AnalyzerV2.MergeTableInto | log_analyzer_v2.py:669-688 | the loop over messages computes the specified table merge |
| AnalyzerV2.MergeTablesStep | log_analyzer_v2.py:669-688 | merging one more message updates only that message's statistics |
| AnalyzerV2.IncompleteResultAborts | log_analyzer_v2.py:386-401 | one incomplete worker result, which cannot be unpacked into four values, stops the whole merge |
| AnalyzerV2.MergedLists | log_analyzer_v2.py:652-653 | when every result is complete, a message or file is in the merged list exactly when it is in the initial list or in some worker's list |
| AnalyzerV2.MergeStepHistogram | log_analyzer_v2.py:654-662 | adding one worker's chart gives the chart of all the hits so far |
| AnalyzerV2.MergedHistogram | log_analyzer_v2.py:654-662 | the merged histogram is the chart of all the workers' hits together |
| AnalyzerV2.WalkUp | log_analyzer_v2.py:184-188 | a directory found ends with the node name and is a prefix of the starting directory |
| AnalyzerV2.GetNodeDirectory | log_analyzer_v2.py:180-189 | the loop over the metadata returns the specified node directory |
| AnalyzerV2.RelativeWalkEnds | log_analyzer_v2.py:185-186 | the walk up from a relative directory always ends |
| AnalyzerV2.AbsoluteWalkNeverEmpty | log_analyzer_v2.py:185-186 | the walk up from an absolute directory never reaches the empty string: it loops at `/` when no ancestor matches |
| AnalyzerV2.RelativeLookupEnds | log_analyzer_v2.py:180-189 | with relative paths only, the lookup always ends |
| AnalyzerV2.AbsoluteLookupNeverMisses | log_analyzer_v2.py:180-189 | with absolute paths and a file of that node, the lookup never answers "not found": it either finds the directory or loops forever |
| AnalyzerV2.Subtract | log_analyzer_v2.py:546 | no removed file survives the subtraction |
| AnalyzerV2.SubtractAgrees | log_analyzer_v2.py:545-546 | subtracting the removed list keeps the same files as the filter's own test |
| AnalyzerV2.SubtractRejected | log_analyzer_v2.py:545-546 | subtracting a filter's removed list keeps exactly the files the filter accepts |
| AnalyzerV2.HiddenFileStillAnalyzed | log_analyzer_v2.py:553-554 | a hidden file of a selected type is not in the type filter's kept list, yet the main script still analyzes it |
| AnalyzerV3.DefaultsParse | log_analyzer_v3.py:123-129 | the default bounds `0101 00:00` and `1231 23:59` parse to the first and last minute of the year |
| AnalyzerV3.ShortInYear | log_analyzer_v3.py:185-186 | parsing `MMDD HH:MM` in 1900 and moving it to the current year equals parsing it in the current year, whenever the first succeeds |
| AnalyzerV3.ShortTextOf | log_analyzer_v3.py:369 | a stamp printed as `MMDD HH:MM` reads back as the same date and time in 1900 |
| AnalyzerV3.StampLine | log_analyzer_v3.py:181-200 | a non-empty line always yields a valid whole-minute stamp in the current year whose date also exists in 1900 |
| AnalyzerV3.GlogLineStamp | log_analyzer_v3.py:182-186 | a glog line yields its own month, day, hour and minute in the current year |
| AnalyzerV3.DatabaseLineStamp | log_analyzer_v3.py:190-199 | a PostgreSQL line yields its date and minute in the current year when that date exists in 1900, and otherwise the previous time |
| AnalyzerV3.FallbackStamp | log_analyzer_v3.py:187-199 | a line with no second word yields the previous line's time in the current year |
| AnalyzerV3.StartAndEndTimes | log_analyzer_v3.py:116-134 | a missing bound takes its default; the short texts are the given or default texts, and each long stamp is its short text parsed in the current year |
| AnalyzerV3.ReadFileInfo | log_analyzer_v3.py:217-303 | the method returns the specified metadata: none when the file cannot be opened or read, otherwise stamps, log type, sub-type and node name |
| AnalyzerV3.EmptyFileHasNoInfo | log_analyzer_v3.py:233-239 | an empty file has no metadata: `getTimeFromLog` fails on the empty first line with an error that escapes the head loop |
| AnalyzerV3.FileInfoOfLines | log_analyzer_v3.py:233-258 | a file of non-empty lines has metadata: its start is the first line's stamp and its end is the last line's stamp, or 31 December 23:59 when the file has one line |
| AnalyzerV3.InfoValid | log_analyzer_v3.py:252-258 | every stamp in the metadata is a real date and time |
| AnalyzerV3.TypeOfIsFirstLabel | log_analyzer_v3.py:263-274 | the log type is the first of `postgres`, `yb-controller`, `yb-tserver`, `yb-master` and `YBA` whose key occurs in the path, else `unknown`; it agrees with the shared library wherever that one knows the type |
| AnalyzerV3.SubTypeIsFirstLabel | log_analyzer_v3.py:276-290 | the sub-type is the first of `INFO`, `WARN`, `ERROR`, `FATAL` found in the path, then `INFO` for PostgreSQL and application logs, else `unknown` |
| AnalyzerV3.FilterLogs | log_analyzer_v3.py:335-340 | the loop keeps the specified files, in dictionary order |
| AnalyzerV3.KeptIff | log_analyzer_v3.py:339 | a file is kept exactly when its first or its last stamp lies inside the window |
| AnalyzerV3.FirstMatchIsFirst | log_analyzer_v3.py:371-388 | the message counted for a line is that of the first rule matching it; no message is counted exactly when no rule matches |
| AnalyzerV3.FindRule | log_analyzer_v3.py:371-388 | the loop over the patterns stops at the first match and returns it |
| AnalyzerV3.LinesInWindow | log_analyzer_v3.py:366-388 | every sighting of a file is a whole-minute stamp in the current year inside the window |
| AnalyzerV3.PreviousAt | log_analyzer_v3.py:365-369 | the previous time carried to every line parses, so the fallback never fails |
| AnalyzerV3.LinesKeepEarlier | log_analyzer_v3.py:366-388 | reading more lines only adds sightings after those already found |
| AnalyzerV3.InWindowLineCounted | log_analyzer_v3.py:368-388 | every non-empty line in the window that some rule matches is counted under its first matching rule, at its own stamp |
| AnalyzerV3.NoteEntry | log_analyzer_v3.py:375-382 | noting a sighting adds its message if it is new, counts it once more otherwise, and leaves every other message unchanged |
| AnalyzerV3.NoteBounds | log_analyzer_v3.py:375-381 | after noting, the message's first time is at or before the sighting and its last time at or after it; each bound either stays or becomes the sighting's time |
| AnalyzerV3.StatsCount | log_analyzer_v3.py:375-388 | a message has statistics exactly when it was sighted, and its count is the number of its sightings |
| AnalyzerV3.StatsBounds | log_analyzer_v3.py:375-381 | a message's first and last times are times at which it was sighted, and every sighting lies between them |
| AnalyzerV3.HistogramTotal | log_analyzer_v3.py:383-387 | the hour buckets of a message add up to its count |
| AnalyzerV3.StatsAreValid | log_analyzer_v3.py:375-387 | every statistic built from sightings holds real stamps |
| AnalyzerV3.ReportOnStep | log_analyzer_v3.py:401-407 | formatting one more message adds exactly that message's entry |
| AnalyzerV3.FormatMessages | log_analyzer_v3.py:399-407 | the loop formats every message of the statistics into the specified report |
| AnalyzerV3.ReportOfSightings | log_analyzer_v3.py:354-407 | a message is reported exactly when it was sighted; its count is the number of sightings, its buckets add up to the count, and its ISO times are those of its earliest and latest sighting |
| AnalyzerV3.RulesFor | log_analyzer_v3.py:344-349 | PostgreSQL logs get the PostgreSQL rules and every other log type gets the universe rules |
| AnalyzerV3.FileInWindow | log_analyzer_v3.py:359-397 | the sightings of a file, whether it opens or not, all lie inside the window |
| AnalyzerV3.FilesInWindow | log_analyzer_v3.py:359-397 | the sightings of all the kept files lie inside the window |
| AnalyzerV3.NodeSightings | log_analyzer_v3.py:333-397 | every sighting of a node's analysis lies inside the window, in the current year |
| AnalyzerV3.NodeReport | log_analyzer_v3.py:409-414 | the result names the node and log type it was asked for |
| AnalyzerV3.ReportInWindow | log_analyzer_v3.py:333-414 | every reported message was sighted, its first and last times lie inside the window, and its start time is the ISO form of its first sighting |
| AnalyzerV3.AnalyzeFile | log_analyzer_v3.py:359-397 | the per-line loop leaves the statistics of all sightings so far, and those sightings are the specified ones |
| AnalyzerV3.AnalyzeNodeLogs | log_analyzer_v3.py:333-414 | the method returns the specified node report |
| AnalyzerV3.EntryOf | log_analyzer_v3.py:440-443 | the stored texts of a file's stamps read back as stamps |
| AnalyzerV3.FileSound | log_analyzer_v3.py:430-443 | adding a file keeps the nested metadata well formed and readable |
| AnalyzerV3.FileAt | log_analyzer_v3.py:430-443 | adding a file sets exactly its own (node, type, sub-type, path) entry and changes no other |
| AnalyzerV3.MetadataOf | log_analyzer_v3.py:428-443 | the nested metadata is well formed at every level and every entry reads back |
| AnalyzerV3.BuildMetadata | log_analyzer_v3.py:428-443 | the loop over the file list builds the specified metadata |
| AnalyzerV3.MetadataAt | log_analyzer_v3.py:428-443 | a file is under (node, type, sub-type) exactly when it is listed, has metadata and has those labels; its entry holds its stamps |
| AnalyzerV3.LaterSubTypeReplaces | log_analyzer_v3.py:460-467 | a log type reports a message exactly when one of its sub-types does, and the entry kept is that of the last such sub-type |
| AnalyzerV3.ResultsKeys | log_analyzer_v3.py:456-458 | the nested result has exactly the metadata's nodes, each with its node's results |
| AnalyzerV3.NodeResultsDomain | log_analyzer_v3.py:459-464 | a node's result has exactly the node's log types |
| AnalyzerV3.NodeResultsValues | log_analyzer_v3.py:459-467 | each log type's entry is the merge of its sub-types' reports |
| AnalyzerV3.Summarize | log_analyzer_v3.py:451-467 | the main loop over nodes, types and sub-types builds the specified nested result from the node analysis |
| AnalyzerV3.SummarizeWith | log_analyzer_v3.py:456-467 | the loop over nodes builds the specified nested result |
| AnalyzerV3.SummarizeNode | log_analyzer_v3.py:459-467 | the loop over a node's log types builds its specified results |
| AnalyzerV3.SummarizeType | log_analyzer_v3.py:460-467 | the loop over sub-types merges their reports as specified |
| AnalyzerV3.ReportBucket | log_analyzer_v3.py:461 | one call of the node analysis on a bucket returns that bucket's report |
| LogAnalyzerV1.Given | log_analyzer.py:37-48 | an option counts as given exactly when it is present and not empty |
| LogAnalyzerV1.BoundsOf | log_analyzer.py:36-56 | a start always exists, parsed from the option or from the time a week ago; a given end is parsed, a missing one stays open; startup fails exactly when a given start does not parse |
| LogAnalyzerV1.DefaultStartIsWeekAgo | log_analyzer.py:50-55 | without `--start-time` the window starts a week ago, cut to the minute and moved to 1900; startup fails when that date is 29 February |
| LogAnalyzerV1.DefaultTimeParses | log_analyzer.py:161 | the fallback time `0101 00:00` parses to 1 January 1900 |
| LogAnalyzerV1.GlogReading | log_analyzer.py:124-125 | a stamp read from a line's first two words is a whole-minute stamp in 1900 |
| LogAnalyzerV1.GetTimeFromLog | log_analyzer.py:122-128 | every line yields a valid whole-minute stamp in 1900 |
| LogAnalyzerV1.LineTime | log_analyzer.py:161-180 | the previous time is never updated, so a line that cannot be read always gets 1 January 00:00 |
| LogAnalyzerV1.FirstCharacterIgnored | log_analyzer.py:124 | any first character (not only a severity letter) followed by `MMDD HH:MM` yields that stamp |
| LogAnalyzerV1.DatabaseLineUnread | log_analyzer.py:122-128 | a PostgreSQL line is never read and always gets 1 January 00:00 |
| LogAnalyzerV1.WordlessLineIsNewYear | log_analyzer.py:122-128 | a line without a space gets 1 January 00:00 |
| LogAnalyzerV1.FileHitsAppend | log_analyzer.py:179-202 | the hits of two consecutive parts of a file are the hits of the first part followed by those of the second |
| LogAnalyzerV1.EveryLineCounted | log_analyzer.py:179-202 | each line contributes exactly its own hits, in place |
| LogAnalyzerV1.HitsAdmitted | log_analyzer.py:183 | every recorded hit has a time the window admits |
| LogAnalyzerV1.TableOf | log_analyzer.py:209-218 | the table has one row per sorted entry |
| LogAnalyzerV1.SortedTable | log_analyzer.py:203-218 | rows are ordered by count (largest first), by last occurrence or by first occurrence, as the sort option asks |
| LogAnalyzerV1.RowIffHit | log_analyzer.py:185-218 | a message has a row exactly when it was hit at least once |
| LogAnalyzerV1.RowOfHit | log_analyzer.py:185-218 | a message's row holds its number of hits and the times of its first and last hits |
| LogAnalyzerV1.TableEmptyIffNoHits | log_analyzer.py:219 | the table is empty exactly when the file has no hits |
| LogAnalyzerV1.AnalysisClean | log_analyzer.py:219-233 | a file joins the list of files with no errors exactly when it has no hits |
| LogAnalyzerV1.Worker.constructor | log_analyzer.py:59-62 | a worker starts with empty module-level lists |
| LogAnalyzerV1.Worker.AnalyzeLogFiles | log_analyzer.py:160-236 | the worker's result and its new lists are those of the specification: a file that cannot be opened gives no outcome and leaves the lists alone, a read failure returns the lists unchanged with an empty chart, otherwise the table, chart and lists of the file's hits |
| LogAnalyzerV1.Collected | log_analyzer.py:286 | the pool hands back every call's outcome in order exactly when no call raised; one raising call leaves nothing to merge |
| LogAnalyzerV1.BuildTable | log_analyzer.py:209-218 | the loop builds the specified table |
| LogAnalyzerV1.ScanLines | log_analyzer.py:179-202 | the line loop's results, chart, message order and error list are the tabulation, plot, messages and names of the file's hits |
| LogAnalyzerV1.ScanRules | log_analyzer.py:181-202 | trying every rule on a line extends the tables by exactly that line's hits when it is in the window, and by nothing otherwise |
| LogAnalyzerV1.CountStep | log_analyzer.py:185-195 | counting one hit increments its message's count, sets its first time only when unset and always sets its last time |
| LogAnalyzerV1.CountHit | log_analyzer.py:185-195 | the counting step keeps the results equal to the tabulation of the hits so far |
| LogAnalyzerV1.NoteHit | log_analyzer.py:185-202 | recording one hit keeps every table equal to that of the hits so far |
| LogAnalyzerV1.MergeResults | log_analyzer.py:286-297 | the main process's loop computes the specified fold of the workers' results |
| LogAnalyzerV1.MergedLists | log_analyzer.py:287-288 | a message or file is in a merged list exactly when it is in the initial list or in some worker's list |
| LogAnalyzerV1.MergedHistogram | log_analyzer.py:289-297 | the merged histogram is the chart of all the workers' hits together |
| Analyzer.BoundsOf | analyzer.py:30-44 | startup succeeds exactly when every given bound parses as `MMDD HH:MM`; a missing bound leaves that side of the window open |
| Analyzer.GetTimeFromLog | analyzer.py:136-139 | a line yields a stamp exactly when its first two words read as `MMDD HH:MM` after the first character, and then it is that stamp in 1900; otherwise the call raises |
| Analyzer.LineShapes | analyzer.py:136-139 | a glog line yields its own time, while a PostgreSQL line makes the call raise |
| Analyzer.InWindow | analyzer.py:151 | with no bound every line is in the window without being read; with a bound, the test raises exactly when the line has no stamp, and otherwise says whether the window admits it |
| Analyzer.OccurrenceTime | analyzer.py:160 | the recorded time is the first word without its first character, a space and the second word; it raises exactly when the line has fewer than two words |
| Analyzer.UnmatchedLineSkipped | analyzer.py:149-151 | a line no rule matches adds nothing and never raises, because the window is checked only after a match |
| Analyzer.AdmittedLineHits | analyzer.py:149-163 | a line the window admits adds one hit per matching rule, in rule order |
| Analyzer.NoBoundsNeverStamps | analyzer.py:151 | without bounds the analysis never fails for want of a stamp |
| Analyzer.RulesNeverStamp | analyzer.py:151 | without bounds the rule loop never fails for want of a stamp |
| Analyzer.LinesSolved | analyzer.py:152-158 | every message recorded has a troubleshooting entry, because looking up a missing one raises |
| Analyzer.RulesSolved | analyzer.py:152-158 | the rule loop records only messages that have a troubleshooting entry |
| Analyzer.SolvedTable | analyzer.py:170-181 | the table has one row per sorted entry |
| Analyzer.SortedTable | analyzer.py:164-181 | rows are ordered by count (largest first), by last occurrence or by first occurrence, as the sort option asks |
| Analyzer.RowIffHit | analyzer.py:152-181 | a message has a row exactly when it was hit |
| Analyzer.RowOfHit | analyzer.py:152-181 | a message's row holds its number of hits, its first and last occurrence times and its troubleshooting tip |
| Analyzer.AnalysisSolved | analyzer.py:141-181 | a file whose scan completes is reported as the sorted table of its hits, each with a tip |
| Analyzer.TimesNone | analyzer.py:159-163 | a message never hit has no occurrence times |
| Analyzer.NoIssuesIff | analyzer.py:205-228 | the "no issues" message is shown exactly when the file cannot be decoded or has no hits |
| Analyzer.TableEmptyIffNoHits | analyzer.py:170-181 | the table is empty exactly when there are no hits |
| Analyzer.AnalyzeLogFiles | analyzer.py:141-181 | the line loop with its nested rule loop computes the specified report |
| Analyzer.TryRule | analyzer.py:149-163 | one rule on one line either fails as the specification says or extends the tables by that rule's hit |
| Analyzer.BuildTable | analyzer.py:170-181 | the loop builds the specified table |
| Occurrences.Times | log_analyzer.py:185-195 | a message's hit times are drawn from the file's hits |
| Occurrences.TimesAppend | log_analyzer.py:179-195 | the hit times of two consecutive runs of hits are those of the first run followed by those of the second |
| Occurrences.TabulateTimes | log_analyzer.py:185-195 | a message has an entry exactly when it was hit; its count is its number of hits and its first and last times are those of its first and last hit in file order |
| Occurrences.Messages | log_analyzer.py:185-190 | the table's keys, without repeats, are exactly the messages that were hit |
| Occurrences.Bucket | log_analyzer.py:199 | the hour bucket is the time with its last three characters (`:MM`) cut off |
| Occurrences.Bump | log_analyzer.py:200-202 | bumping a bucket adds one to it, creating it at zero first, and leaves every other bucket alone |
| Occurrences.PlotTimes | log_analyzer.py:198-202 | a message has a chart row exactly when it was hit, and the row counts its hits per hour bucket |
| Occurrences.TotalBump | log_analyzer.py:200-202 | each bump adds exactly one to the row's total |
| Occurrences.TotalBuckets | log_analyzer.py:198-202 | the buckets of a list of times add up to the number of times |
| Occurrences.BucketTotalIsCount | log_analyzer.py:185-202 | a message is charted exactly when it is tabulated, and its buckets add up to its count |
| Occurrences.EmptyTableIffNoHits | log_analyzer.py:219 | the table is empty exactly when there are no hits |
| Occurrences.MergeRow | log_analyzer.py:291-295 | a merged row has the buckets of both rows |
| Occurrences.MergeCharts | log_analyzer.py:289-297 | a merged chart has the messages of both charts |
| Occurrences.MergeRowEmpty | log_analyzer.py:291-295 | merging with an empty row changes nothing |
| Occurrences.MergeRowBump | log_analyzer.py:291-295 | merging commutes with adding one hit |
| Occurrences.BucketsAppend | log_analyzer.py:291-295 | the buckets of two runs of times merge into the buckets of both runs together |
| Occurrences.MergePlots | log_analyzer.py:289-297 | merging two workers' charts gives the chart of their hits together |
| Occurrences.TotalMergeRow | log_analyzer.py:291-295 | a merged row's total is the sum of the two totals |
| Occurrences.MergeChartsCommute | log_analyzer.py:289-297 | the merged histogram does not depend on the order in which the workers' charts arrive |
| Occurrences.MergeRowCommute | log_analyzer.py:291-295 | merging two rows does not depend on their order |
| Occurrences.MergeHistogram | log_analyzer.py:289-297 | the loop over a worker's chart computes the specified merge |
| Occurrences.MergeRowInto | log_analyzer.py:291-295 | the loop over one message's buckets computes the specified row merge |
| Occurrences.AllHitsMatched | log_analyzer.py:181-196 | a line gets one hit per matching rule, in rule order, so a line matching k rules counts k times |
| Occurrences.AllHitsTimes | log_analyzer.py:192 | all of a line's hits carry the line's time |
| Ranking.SortKeyOf | log_analyzer.py:203-208 | `NO` sorts by count, `LO` by last occurrence, and anything else (including no option) by first occurrence |
| Ranking.Items | log_analyzer.py:203-208 | the items pair each message with its own statistics, in dictionary order |
| Ranking.PrecedesIsStrict | log_analyzer.py:203-208 | each sort key orders the items strictly |
| Ranking.Rank | log_analyzer.py:203-208 | the sorted items are a permutation of the items, ordered by count (largest first), by last or by first occurrence |
| Ranking.RankHoldsEntries | log_analyzer.py:203-210 | every message of the table appears in the sorted list with its own statistics, and nothing else does |
| Render.Unwrapped | utils/render.py:40-45 | a path is unwrapped only from the whole text `PosixPath('…')` or `WindowsPath('…')` (optionally followed by one newline), and the inner path holds no newline |
| Render.UnwrapRepr | utils/render.py:40-42 | the `repr` of any single-line path unwraps to that path |
| Render.AbsoluteNotWrapped | utils/render.py:43-45 | a plain absolute path is used as it is |
| Render.LeadingDigits | utils/render.py:61 | the run of digits at the start of the file name is maximal |
| Render.TicketOfName | utils/render.py:61-68 | a ticket found is a non-empty run of digits followed by a hyphen at the start of the file name |
| Render.TicketOfNameNone | utils/render.py:61-68 | no ticket is found exactly when no hyphen in the name is preceded only by digits |
| Render.TicketOfDigitsName | utils/render.py:61-65 | a name `<digits>-<rest>` yields those digits |
| Render.ExtractTicketId | utils/render.py:34-68 | a non-string yields nothing; an empty path yields nothing; otherwise the ticket is read from the base name of the unwrapped path, and any ticket is a non-empty run of digits |
| Render.TicketOfReport | utils/render.py:48-65 | a report `<dir>/<digits>-<rest>` yields those digits |
| Render.ReprSameTicket | utils/render.py:40-68 | a path and its `PosixPath`/`WindowsPath` wrapping yield the same ticket |
| Render.ItemOf | utils/render.py:110-130 | an entry holds the ticket or `N/A` with the relative path, or `Error` with the file name when the relative path cannot be computed |
| Render.ItemsOf | utils/render.py:109-130 | there is one entry per report file, in file order |
| Render.PrepareTemplateData | utils/render.py:108-135 | the loop and the sort return the entries sorted by case number |
| Render.TemplateDataEntries | utils/render.py:108-135 | the template gets exactly one entry per file, ordered by case number |
| Helper.PathParts | utils/helper.py:55 | the slash-free components of the path, with leading and trailing slashes stripped |
| Helper.CaseNumberFromPath | utils/helper.py:54-60 | a case number exists exactly when the path has more than two components, and it is the second one |
| Helper.CaseNumberOfLogDir | utils/helper.py:55-57 | for `/<base>/<case>/<rest>` the case number is `<case>` |
| Helper.NoCaseNumberInTwoComponents | utils/helper.py:56-60 | a path of two components has no case number, with or without a trailing slash |
| Helper.CaseNumberFromFilename | utils/helper.py:76-80 | a case number exists exactly when the name contains a hyphen; it is the text before the first hyphen |
| Helper.CaseNumberIsFirstPiece | utils/helper.py:77 | the case number is the first piece of the name split at hyphens |
| Helper.Collected | utils/helper.py:141-150 | only HTML reports other than the index page, with a non-empty case number, are collected |
| Helper.AnalysisItems | utils/helper.py:141-152 | the items are a permutation of the collected entries, sorted by case number |
| Helper.GetAnalysisItems | utils/helper.py:136-157 | a missing or unreadable directory gives no items; otherwise the sorted collected entries |
| Helper.AnalysisItemsIff | utils/helper.py:141-152 | a file is listed exactly when it is in the directory and qualifies, and its entry holds its case number |
| Helper.CollectedHas | utils/helper.py:141-150 | a file is collected exactly when it is in the directory and qualifies, with its case number |
| Calendar.DaysInMonth | log_lib.py:94-98 | a month has 28 to 31 days, and 29 exactly for February of a leap year |
| Calendar.BeforeTotal | log_lib.py:132 | any two stamps are equal or one is strictly before the other, never both |
| Calendar.BeforeTransitive | log_analyzer_v3.py:339 | "at or before" is transitive |
| Calendar.WithYear | log_lib.py:95-96 | `replace(year=…)` succeeds exactly when the day exists in that year, and changes only the year |
| Calendar.DefaultYearDateValidEverywhere | utils/input_helper.py:31-35 | a date that exists in 1900 exists in every year, so the `replace` after a 1900 parse never fails |
| Calendar.Pad2 | log_analyzer_v2.py:406 | `%02d` gives two digits that read back as the number |
| Calendar.Pad4 | utils/arg_parser_helper.py:49 | the current year's four digits, for years 1000 to 9999, read back as the number |
| Calendar.Pad2Num2 | log_analyzer_v2.py:345 | reading two digits and printing them back gives the same text |
| Calendar.Pad4Num4 | utils/arg_parser_helper.py:49 | reading four digits and printing them back gives the same text |
| Calendar.Pad2Order | log_analyzer_v2.py:678 | two-digit texts compare as their numbers do |
| Calendar.FormatShort | log_analyzer_v2.py:406 | `%m%d %H:%M` prints ten characters with the space and colon in place |
| Calendar.ParseShort | log_analyzer_v2.py:345 | a stamp parsed from `MMDD HH:MM` is a real date and time in the given year, to the minute |
| Calendar.ParseFormatShort | log_analyzer_v2.py:405-406 | printing a whole-minute stamp and parsing it in its year gives it back |
| Calendar.FormatParseShort | log_analyzer_v2.py:405-406 | parsing a text and printing the stamp gives the text back |
| Calendar.ReparseShort | log_analyzer_v2.py:352-353 | printing a full stamp as `MMDD HH:MM` and parsing it in 1900 keeps the date and minute, or fails on 29 February |
| Calendar.ShortOrder | log_analyzer_v2.py:678-684 | comparing `MMDD HH:MM` texts compares the month, day, hour and minute |
| Calendar.ShortBeforeIsBefore | log_analyzer_v2.py:409-413 | within one year and to the minute, the text order is the stamp order |
| Calendar.ParseGlogSeconds | log_lib.py:29-30 | a stamp parsed from `MMDD HH:MM:SS` is a real date and time in 1900 |
| Calendar.FormatFull | log_lib.py:130-131 | `%Y-%m-%d %H:%M:%S` prints nineteen characters with the separators in place |
| Calendar.ParseFull | log_lib.py:36 | a stamp parsed from `YYYY-MM-DD HH:MM:SS` is a real date and time |
| Calendar.ParseFormatFull | log_lib.py:130-131 | printing a stamp in full and parsing it back gives it back |
| Calendar.ParseFullFraction | log_analyzer_v2.py:351 | `%Y-%m-%d %H:%M:%S.%f` accepts one to six fraction digits after the dot |
| Calendar.ParseCompact | utils/arg_parser_helper.py:49 | a stamp parsed from `YYYYMMDD HH:MM` is a real date and time to the minute |
| Calendar.CompactIsShortInYear | utils/arg_parser_helper.py:47-49 | putting a four-digit year in front of `MMDD HH:MM` and parsing the whole equals parsing the short text in that year |
| Calendar.FormatIso | log_analyzer_v3.py:354-357 | the ISO form has the `T` and the trailing `Z` in place |
| Calendar.HourKey | log_analyzer_v3.py:374-384 | the hour key ends in `:00:00Z` |
| Calendar.HourKeyInjective | log_analyzer_v3.py:374-387 | two stamps share an hour bucket exactly when they agree on year, month, day and hour |
| ArgParserHelper.ParseCommaSeparatedList | utils/arg_parser_helper.py:53-60 | a missing or empty argument gives no items; otherwise one stripped item per comma-separated piece, empty items kept, none holding a comma |
| ArgParserHelper.CommaListRoundTrip | utils/arg_parser_helper.py:53-60 | a list written without whitespace comes back piece by piece, and joining the items with commas restores it |
| ArgParserHelper.ThreeItems | utils/arg_parser_helper.py:60 | three plain words joined by commas come back as those three words |
| ArgParserHelper.DefaultTypes | utils/arg_parser_helper.py:89-94 | the default `pg,ts,ms` becomes the list `pg`, `ts`, `ms` |
| ArgParserHelper.ParseDatetime | utils/arg_parser_helper.py:40-51 | a time is accepted exactly when it is a valid date and time in the current year, and then it is that stamp |
| ArgParserHelper.LeapDayAcceptedInLeapYear | utils/arg_parser_helper.py:47-51 | `0229 HH:MM` is accepted exactly in a leap year |
| ArgParserHelper.ParseDatetimeOfFormat | utils/arg_parser_helper.py:40-51 | a whole-minute stamp of the current year, printed as `MMDD HH:MM`, is read back as itself |
| ArgParserHelper.ListOption | utils/arg_parser_helper.py:95-100 | a list option left out stays absent; a given one is parsed as a comma-separated list |
| ArgParserHelper.TimeOption | utils/arg_parser_helper.py:101-114 | a time option left out stays absent; a given one is accepted exactly when it parses, and otherwise is reported as a bad time |
| ArgParserHelper.ParseArguments | utils/arg_parser_helper.py:64-162 | the arguments are accepted exactly when one source is given and exists as the right kind of path, every time parses and the start is before the end; a missing source is reported as such; on success the types default to `pg`, `ts`, `ms`, threads to 5, and both times lie in the current year in order |
| InputHelper.CommaSeparatedList | utils/input_helper.py:42-51 | a missing or empty argument gives no items; every item is non-empty and holds no comma |
| InputHelper.CommaSeparatedListHas | utils/input_helper.py:48-51 | an item is listed exactly when it is a non-empty stripped piece of the argument |
| InputHelper.CommaListRoundTrip | utils/input_helper.py:42-51 | a list without whitespace or empty pieces comes back piece by piece, and joining it restores the argument |
| InputHelper.DropsEmptyItems | utils/input_helper.py:50-51 | this list is the other front end's list with the empty items dropped |
| InputHelper.ValidateDatetimeFormat | utils/input_helper.py:18-40 | a time is accepted exactly when it is valid in 1900, and then it is that stamp moved to the current year |
| InputHelper.LeapDayAlwaysRejected | utils/input_helper.py:31 | `0229 HH:MM` is rejected whatever the current year, since 1900 was not a leap year |
| InputHelper.AgreesWithParseDatetime | utils/input_helper.py:18-40 | the two front ends read every time alike, except 29 February, which only the other one accepts, and only in a leap year |
| InputHelper.ListOption | utils/input_helper.py:100-106 | a list option left out stays absent; a given one is parsed with empty items dropped |
| InputHelper.TimeOption | utils/input_helper.py:107-120 | a time option left out stays absent; a given one is accepted exactly when it is valid, and otherwise is reported as a bad time |
| InputHelper.ParseArguments | utils/input_helper.py:55-163 | the arguments are accepted exactly when a non-empty source is given, every time is valid and the start is before the end; a missing source is reported as such; on success the types default to `pg`, `ts`, `ms`, threads to 5, and both times lie in the current year in order |

## Left out

- **File system and archives.** Walking directories, gzip and tar extraction, and opening files are
  not modelled. A file's content is given as a value: unreadable, not decodable as text, or its
  lines. `os.path.isdir`/`is_file` are predicate parameters. `os.path.relpath` is an input of each
  report file.
- **Rule matching.** The regular-expression tables and `re.search` are a parameter: a function from
  (pattern, line, ignore-case) to a boolean. The known-issue patterns themselves are not part of
  this model.
- **The node-name regular expression** is modelled by a segment predicate: `yb-…n<digits>` or
  `yb-master-<digits>_…`/`yb-tserver-<digits>_…`. `\d` is read as the ASCII digits only.
- **Clock.** `datetime.now()` is a parameter: the current year, or the stamp a week ago in
  `log_analyzer.py`.
- **Concurrency.** `multiprocessing.Pool` is a sequential fold over the workers' results, in
  submission order. The spinner threads and the write lock are not modelled.
- **Output.** HTML, Markdown, JSON and `tabulate` output are not modelled: no report text, no
  escaping, no HTML ids. The value written is modelled instead.
- **JSON key order.** The nested JSON of `log_analyzer_v3.py` is modelled as Dafny maps, whose
  order is not modelled. The `logMessages` wrapper level of the nested results is left out.
- **Node details, gflags, version lookup and tablet counts** (`getNodeDetails`, `getGFlags`,
  `getVersion` in `log_analyzer_v2.py`) are not modelled, nor the metadata summary table at
  `log_analyzer_v2.py:570-574`.
- **`strptime` leniency.** `strptime` accepts one-digit fields such as `923 1:5`. The model accepts
  only the two-digit forms (four digits for the year), which are the forms the logs and the
  scripts' own `strftime` produce. Microseconds are dropped.
- **Sort stability.** Python's `sorted` is stable. `Ranking.Rank`, `Helper.AnalysisItems` and
  `Render.PrepareTemplateData` prove ordered output and a permutation of the input, but not the
  order among equal keys.
- **Integer conversion.** `int()` on the `-p` option is taken as already done: the option is an
  optional integer.
- **argparse.** The order among argparse's own parse-time errors is simplified, as is its
  conversion of string defaults. `Path` normalisation of `-d`/`-s` is not modelled. `--help` and the
  remaining flags are carried through unchanged or left out.
- **analyzer.py's `--html`, histogram and word-count options** are not modelled; they only print.
- ArgParserHelper.ParseDatetime: requires a current year of four digits (1000 to 9999), because the
  model builds the `%Y` prefix as four digits. Python prints years below 1000 with fewer digits.
- InputHelper.ValidateDatetimeFormat: requires a current year from 1 to 9999, the years
  `datetime` supports.
- AnalyzerV2.Worker.AnalyzeLogFile: the `solution` field that each hit writes into the node's
  details (`log_analyzer_v2.py:439`, set again in the merge at `:688`) is not carried. Its text is
  `getSolution(message)`, a function of the message alone. The `KeyError` from a missing entry is
  modelled as a worker that raises. The lists the worker had already appended to before the
  failing lookup are not modelled, because `pool.starmap` re-raises and the run ends.
- AnalyzerV2.Worker.AnalyzeLogFile: requires every line to be non-empty. Iterating over a text file
  never yields an empty line, so `line[0]` never raises in the source. The same holds for
  `AnalyzerV2.ScanFile` and the other line loops.
- AnalyzerV2.AbsoluteLookupNeverMisses: the lookup of an absolute path whose ancestors never end
  with the node name loops forever at `/` in the source. The model returns an explicit `Diverges`
  outcome instead of running forever.
- AnalyzerV3.FileInWindow: a file that fails to decode part-way through keeps, in the source, the
  sightings made before the error. The model treats such a file as contributing no sightings.
- AnalyzerV3.StartAndEndTimes: requires each given bound to be empty or a valid `MMDD HH:MM` in
  1900. Any other value makes the source raise at start-up, which is not modelled.
- Render.LeadingDigits: `\d` at `utils/render.py:61` matches any Unicode decimal digit. The model
  accepts only the ASCII digits `0`-`9`.
- Render.TicketOfName: a file name starting with non-ASCII decimal digits before a hyphen yields a
  ticket in the source and none in the model, for the reason given for `Render.LeadingDigits`.
- Render.ExtractTicketId: the same restriction to ASCII digits applies to the ticket it returns.
- Analyzer.AnalyzeLogFiles: the troubleshooting lookup `solutions[message]` is a map parameter. A
  message missing from it makes the analysis fail; that is the outcome the model gives.
- **Helpers without a row.** Generic lemmas about strings, sequences, maps and dictionaries in
  `Text`, `Seqs`, `Dicts` and `Base` have no row. These include split and join, strip, filter,
  lexicographic order and insertion-ordered maps. They model Python built-ins, not repository code.
  The one-step lemmas `Occurrences.Snoc`, `Occurrences.AllHitsSnoc` and `Render.TicketOfUnwrapped`
  have no row either: they only serve the proofs of the loops and lemmas that use them.
