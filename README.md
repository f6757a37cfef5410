# Access-log analysis, modelled in Dafny

This project models `log_analysis.py`, a batch report generator for web-server
access logs. The program reads a log file. It keeps each line that fits one fixed
access-log pattern, as a record with the fields `ip`, `method`, `endpoint` and
`status`. From those records it computes three results:

- the number of requests per client address, most requests first;
- the most accessed endpoint;
- the addresses with more failed logins (status `401`) than a threshold.

It writes all three to a CSV report.

The model has one module per stage:

- `Wrappers` (`wrappers.dfy`): the `Option` type. It stands for "no match" and
  for "no endpoint".
- `LogLine` (`log_line.dfy`): the regular expression of `parse_log_file`. It is
  a hand-written matcher over strings. A relation `Matches(line, p)` says when
  the pieces `p` spell `line` in the pattern's shape. `TriedNoLater` is the
  order in which Python's backtracking engine tries the ways of cutting a line:
  1. the longest timestamp first (`\[.*\]` is greedy);
  2. then the shortest endpoint (`.+?` is lazy);
  3. then the longest HTTP version (`HTTP.*"` is greedy).

  The matcher finds a cut exactly when one exists, and the cut it finds is the
  first one the engine tries. No other cut is tried as early.
- `LogLoader` (`log_loader.dfy`): how `readlines` cuts text into lines, and the
  loop that keeps the records of the matching lines in file order. The loop is
  a method.
- `Counter` (`counter.dfy`): the parts of `collections.Counter` in use.
  - A counter is a sequence of `(key, count)` entries in first-seen order.
  - `most_common()` is a stable sort by count, largest first.
  - `most_common(1)` is the first entry of largest count.
- `Analysis` (`analysis.dfy`): `count_requests_per_ip`,
  `find_most_frequent_endpoint` and `detect_suspicious_activity`.
  - The loop that builds the `defaultdict` is a method. The dict is kept as
    its keys in insertion order plus a map from key to value.
  - The filtering comprehension is a second method.
- `Report` (`report.dfy`): `save_results_to_csv`.
  - A `RowWriter` class stands for the CSV writer and collects the rows it is
    given.
  - `ReadReport` reads the rows back, and two lemmas make it an exact inverse
    of the layout.
- `Pipeline` (`pipeline.dfy`): `main` without its console output, using the
  threshold constant `5`.

Two facts about the pattern shape the model:

- The endpoint group `(?P<endpoint>.+?)` is lazy, so the shortest endpoint
  that lets the rest of the line match wins.
- The status group `\d+` accepts any non-empty digit run, not only
  three-digit codes.

## Model

| member | source | states |
|---|---|---|
| LogLine.LeadingDigitsSpec | log_analysis.py:19 | `\d+` takes a maximal run: what it measures is all digits, and the next character (if any) is not a digit |
| LogLine.LineLengthSpec | log_analysis.py:19 | `.*` cannot pass a line feed: the measured part has none, and a line feed or the end follows it |
| LogLine.DottedPrefixSound | log_analysis.py:19 | the prefix the address reader accepts is `n` non-empty digit runs joined by `.` |
| LogLine.DottedPrefixFinds | log_analysis.py:19 | conversely, `n` dotted digit runs followed by a non-digit are accepted with exactly their length |
| LogLine.ReadStatusSound | log_analysis.py:19 | a status reading spells `" <status> <rest>` with a non-empty digit-run status |
| LogLine.ReadStatusFinds | log_analysis.py:19 | every valid status reading is found, with the same status and rest |
| LogLine.FindTailSound | log_analysis.py:19 | a version reading spells `<version>" <status> <rest>` with no line feed in the version and a digit-run status |
| LogLine.FindTailBest | log_analysis.py:19 | greedy `HTTP.*"`: when any version reading exists one is found, and it is at least as long as every other |
| LogLine.FindTargetSound | log_analysis.py:19 | an endpoint reading is non-empty, holds no line feed, and is followed by ` HTTP` and a valid tail |
| LogLine.FindTargetBest | log_analysis.py:19 | lazy `.+?`: the endpoint found is no longer than any valid one; at equal length its version is the longest |
| LogLine.ReadRequestSound | log_analysis.py:19 | a request reading starts with `GET ` or `POST ` and continues with a valid endpoint reading |
| LogLine.ReadRequestBest | log_analysis.py:19 | any valid request reading implies one is found, with the same method and a cut tried no later |
| LogLine.FindBracketSound | log_analysis.py:19 | a timestamp reading has no line feed and is followed by `] "` and a valid request reading |
| LogLine.FindBracketBest | log_analysis.py:19 | greedy `\[.*\]`: any valid reading implies one is found, and it is tried no later than that reading |
| LogLine.MatchPartsSound | log_analysis.py:18-21 | a reading the matcher returns spells the line and every group has the pattern's shape |
| LogLine.MatchPartsFirst | log_analysis.py:18-21 | whenever the line can be read as the pattern, the matcher returns a reading tried no later than that one |
| LogLine.SameLengthsSameParts | log_analysis.py:19 | two readings of one line with equal timestamp, endpoint and version lengths are equal |
| LogLine.FirstReadingUnique | log_analysis.py:18-21 | two readings each tried no later than the other are the same, so the first reading is unique |
| LogLine.MatchPartsIsFirstReading | log_analysis.py:18-21 | no match exactly when no reading exists; otherwise the result is a reading tried no later than every reading |
| LogLine.MatchLine | log_analysis.py:18-23 | a record has a dotted-quad address, GET or POST, a non-empty endpoint and a digit status, and the line starts with `<ip> - - [` |
| LogLine.RecordShape | log_analysis.py:19 | every reading of a line has those group shapes and that line start |
| LogLine.MatchLineIffShape | log_analysis.py:18-22 | a line yields a record exactly when it can be read as the pattern, and the record holds the groups of the first reading |
| LogLine.StatusFollowedBySpace | log_analysis.py:19 | the status of a record stands in the line right after `" ` and right before a space |
| LogLoader.ReadLinesJoined | log_analysis.py:13-14 | cutting text into lines loses nothing: the lines joined are the text |
| LogLoader.ReadLinesShape | log_analysis.py:13-14 | every line is non-empty with a line feed at most at its end, and every line but the last ends with one |
| LogLoader.ParseLogLines | log_analysis.py:16-24 | the loop's result is the records of the matching lines in order, and nothing for the others |
| LogLoader.ParseLogFile | log_analysis.py:10-24 | `parse_log_file` keeps the records of the matching lines of the text |
| LogLoader.KeptAppend | log_analysis.py:17-23 | lines are handled independently: the records of two texts in sequence are the records of each in sequence |
| LogLoader.KeptMembers | log_analysis.py:17-23 | a record is kept exactly when some line matches and yields it |
| LogLoader.KeptAtMostLines | log_analysis.py:17-23 | there are never more records than lines |
| LogLoader.KeptWellFormed | log_analysis.py:19-23 | every kept record has a dotted-quad address, GET or POST, a non-empty endpoint and a digit status |
| Counter.BumpSpec | log_analysis.py:29 | counting one more key raises that key's count by one, or appends it with count one, and leaves the other entries unchanged |
| Counter.BumpAt | log_analysis.py:29 | with distinct keys, exactly the entry whose key is counted goes up by one; every other entry stays as it was |
| Counter.TallyKeys | log_analysis.py:29 | a counter holds each key once, and exactly the keys of its input |
| Counter.TallyOrder | log_analysis.py:29 | a counter's keys are in the order of their first occurrence |
| Counter.TallyCounts | log_analysis.py:29 | each count is the number of occurrences of its key |
| Counter.TallyTotal | log_analysis.py:29 | the counts add up to the input length |
| Counter.SortPerm | log_analysis.py:30 | `most_common()` is a permutation of the counter's entries |
| Counter.InsertRanked | log_analysis.py:30 | inserting an entry seen later than all others into a ranked list keeps it ranked |
| Counter.SortRanked | log_analysis.py:30 | `most_common()` is ordered by count descending, and equal counts stay in first-seen order |
| Counter.SortTotal | log_analysis.py:30 | sorting keeps the sum of the counts |
| Counter.FirstMaxIndexSpec | log_analysis.py:36 | the entry `max` picks has the largest count, and every entry before it a smaller one |
| Counter.FirstMaxIsHead | log_analysis.py:36 | `most_common(1)` is the head of `most_common()`: the stable sort puts the first entry of largest count in front |
| Analysis.NoRecordsResults | log_analysis.py:26-46 | with no records there are no request counts, no endpoint and no flagged address, at any threshold |
| Analysis.MostCommonSpec | log_analysis.py:29-30 | `Counter(xs).most_common()` lists each element of `xs` once with its occurrences, ranked, with counts summing to the length of `xs` |
| Analysis.CountRequestsPerIpSpec | log_analysis.py:26-30 | every address with a request appears once with its number of records; counts are non-increasing, ties in first-appearance order, and the total is the number of records |
| Analysis.MostCommonOneSpec | log_analysis.py:35-37 | `most_common(1)` is empty exactly for empty input; otherwise an element with its count, which no count exceeds, and on ties the first seen |
| Analysis.FindMostFrequentEndpointSpec | log_analysis.py:32-37 | `None` exactly when there are no records; otherwise a requested endpoint with its count, maximal, and on ties the one requested first |
| Analysis.FindMostFrequentEndpointIsHead | log_analysis.py:35-37 | the endpoint found is the head of the full endpoint ranking |
| Analysis.AddRepeatedFailure | log_analysis.py:45 | `failed_attempts[ip] += 1` on a present key is one more count for that key in the counter the dict holds |
| Analysis.AddFirstFailure | log_analysis.py:45 | on an absent key the dict gains that key last, with value 1, as the counter does |
| Analysis.CountFailedLogins | log_analysis.py:42-45 | the loop leaves a dict with keys in first-failure order whose entries are the counter of the failed-login addresses |
| Analysis.KeepAbove | log_analysis.py:46 | the comprehension keeps, in dict order, the entries whose count exceeds the threshold |
| Analysis.DetectSuspiciousActivity | log_analysis.py:39-46 | the result is the counter of failed-login addresses filtered by count above the threshold |
| Analysis.AboveMembers | log_analysis.py:46 | an entry is kept exactly when it is present and its count is strictly above the threshold |
| Analysis.AboveInOrder | log_analysis.py:46 | filtering keeps first-seen order |
| Analysis.AboveAbove | log_analysis.py:46 | filtering at a lower and then a higher threshold is filtering at the higher one |
| Analysis.SuspiciousSpec | log_analysis.py:39-46 | an address is flagged exactly when its number of `401` records exceeds the threshold; it appears once, with that number, in order of first failure |
| Analysis.SuspiciousEntries | log_analysis.py:42-46 | the flagged entries are exactly the address/failure-count pairs whose count exceeds the threshold |
| Analysis.SuspiciousMonotone | log_analysis.py:46 | raising the threshold only drops entries: the result at the higher threshold is the lower result filtered again, a sub-map of it |
| Analysis.FailedLoginsCount | log_analysis.py:43-45 | an address's failure count is the number of its records whose status is exactly `401` |
| Analysis.RepeatedFailures | log_analysis.py:42-46 | `n` failed logins from one address are flagged, with count `n`, exactly when `n` exceeds the threshold |
| Report.DecimalRoundTrip | log_analysis.py:57 | a count is written as canonical decimal text, with no leading zero, that reads back as the count |
| Report.DecimalReadBack | log_analysis.py:57 | canonical decimal text is the text written for its own value |
| Report.RowWriter.WriteRow | log_analysis.py:55 | `writerow` appends exactly one row |
| Report.RowWriter.WriteRows | log_analysis.py:57 | `writerows` on pairs appends one `[key, count]` row per pair, in order |
| Report.WriteRequestsSection | log_analysis.py:54-58 | title, column header, one row per address, blank row |
| Report.WriteEndpointSection | log_analysis.py:60-65 | title; header and endpoint row only when there is an endpoint; blank row |
| Report.WriteSuspiciousSection | log_analysis.py:67-71 | title and column header always, then one row per flagged address in dict order |
| Report.SaveResultsToCsv | log_analysis.py:48-71 | the writer receives exactly the three sections, in order |
| Report.EmptyReport | log_analysis.py:55-71 | with empty results the report is the three titles, two column headers and two blank rows |
| Report.DataRowsRoundTrip | log_analysis.py:57 | data rows read back as the pairs that were written |
| Report.RequestsRoundTrip | log_analysis.py:54-58 | the request section reads back as its counts, whatever follows it |
| Report.EndpointRoundTrip | log_analysis.py:60-65 | the endpoint section reads back as the endpoint or its absence |
| Report.SuspiciousRoundTrip | log_analysis.py:67-71 | the last section reads back as the flagged addresses |
| Report.ReportRoundTrip | log_analysis.py:55-71 | the rows of a report read back as exactly the results written, whatever the addresses and endpoints are |
| Report.ReportReadBack | log_analysis.py:55-71 | only a report reads back: rows that read as some results are the rows written for them |
| Report.ReportLayout | log_analysis.py:55-71 | the row at each position: titles, headers, data rows, blank separators, and the endpoint header exactly when there is an endpoint |
| Pipeline.RunAnalysis | log_analysis.py:73-101 | `main` writes the report of the three analyses of the loaded records at threshold 5 |
| Pipeline.ReportForSpec | log_analysis.py:76-81 | the written report reads back as the per-address counts (summing to the record count), an endpoint missing only for no records, and the addresses with more than 5 failures |
| Pipeline.NoRecordsReport | log_analysis.py:55-71 | with no matching line the report still has every title and column header and no data rows |

## Left out

- Reading the file is not modelled (`open` and `readlines`, log_analysis.py:13-14). The file's text is a parameter; `ReadLines` models how `readlines` cuts it. Text-mode newline translation (`\r\n` to `\n`) is assumed already done on that text.
- Opening the output file and the `csv.writer` object are not modelled (log_analysis.py:51-52). A `RowWriter` collects the rows instead. CSV quoting, escaping and line terminators are not modelled, because a row is its list of fields.
- The console output of `main` is left out (log_analysis.py:84-98, 102), because it is formatting for display only.
- Failures to open either file are not modelled. They are I/O errors that end the run.
- `LOG_FILE` and `OUTPUT_FILE` (log_analysis.py:5-6) become the text and writer parameters. `FAILED_LOGIN_THRESHOLD` is `Pipeline.FailedLoginThreshold`. The analyses take the threshold as any integer, as Python does.
- `LogLine.IsDigit` accepts only the ASCII digits `0`-`9`. Python's `\d` on `str` patterns also accepts other Unicode decimal digits.
- The implementations of `re`, `collections.Counter` and `heapq` are not modelled. Only the matching and ordering they produce are. `most_common()` is modelled by an insertion sort, because every stable sort by count gives the same list.
- The record field `method` is named `verb`, because `method` is a Dafny keyword.
- The lists of `(key, count)` tuples and the result dict of `detect_suspicious_activity` are both sequences of `Entry` values. The keys are proved distinct, and dict order is sequence order.
- `if most_frequent_endpoint:` (log_analysis.py:62) is modelled as "is not `None`". The value tested there is an `(endpoint, count)` pair, and a two-element tuple is always truthy, so the two mean the same here.
