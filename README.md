# Robot log analyzer, modelled in Dafny

`analyze_robot_logs` in `log-parser.py` reads a robot fleet's log file and
reports, per robot, three kinds of problem: sustained resource overuse,
repeated pick failures and reporting gaps. It works in three stages, and the
model follows them module by module:

1. **Entry reconstruction** (`reconstruct.dfy`, module `Reconstruct`). Each
   physical line is stripped; blank lines are skipped; a line that starts
   with a `YYYY-MM-DDTHH:MM:SSZ` timestamp starts a new logical entry, any
   other line is appended to the pending entry after one space. The loop is
   the method `ReconstructEntries`, proved equal to the left fold `Entries`,
   about which the lemmas speak.
2. **Per-record tracking** (`parse.dfy`, module `Parse`, and `tracking.dfy`,
   module `Tracking`). Each entry is split by the four-field `log_pattern`,
   its timestamp is converted (exact format, real calendar), and the
   component and message give an optional reading: three percentages for
   `RESOURCES`, two counts for `PICKS`. The class `Tracker` holds the
   `robots` table (a `map` from robot id to `Robot`) and the global clock
   `last_log_time`; its methods update them in place as the loop body does
   (with the malformed-numeral reading of line 74 skipped rather than
   raised, see "## Findings") and are proved equal to the fold `TrackAll`. The lemmas then
   say what the table means in terms of each robot's own records: the clock
   is the latest accepted time, `last_seen` is the time of the robot's last
   record, each streak is the trailing run of qualifying readings, and an
   alert is present exactly when a long enough run ever occurred.
3. **Report** (`report.dfy`, module `Report`). Robots are visited in sorted
   id order; a reporting-gap alert is added when the robot has been silent
   for more than 30 minutes of the global clock; each alert list is sorted
   and `found_issues` records whether any list is non-empty.

`analyzer.dfy` (module `Analyzer`) chains the three stages, and
`scenarios.dfy` works through concrete cases of the streak rules.
`text.dfy` holds Python's string behaviour the analyzer relies on
(`str.strip`, `\S`, digits, `str()` of an integer, ordering and sorting of
strings); `timestamps.dfy` the timestamp prefix test and `strptime`.

Times are whole seconds since 0001-01-01T00:00:00; percentages are exact
decimals (`Decimal(mantissa, scale)`), so "above 85" is exact.

Continuation lines before the first timestamped line are not dropped:
`"" + " " + line` is a non-empty buffer, so they form an entry starting with
a space, which never matches `log_pattern`. `EntriesShape` and
`Analyzer.LeadingFragmentIgnored` state both facts.

## Model

| member | source | states |
|---|---|---|
| Text.Strip | log-parser.py:24 | the stripped line is a slice of the line with only whitespace cut from either end; it is empty exactly when the line is all whitespace, and otherwise starts and ends with a non-space |
| Text.NatToString | log-parser.py:113 | the decimal text of the minute count reads back as the same number and has no leading zero |
| Text.SortStrings | log-parser.py:118 | `sort()` on strings yields a sorted permutation of its input (code-point order) |
| Text.ElementsOf | log-parser.py:107 | `list(set)` holds every element of the set exactly once |
| Text.LessTotal | log-parser.py:103 | string order is total, so sorting ids is well defined |
| Text.NotLessTransitive | log-parser.py:103 | "not smaller" is transitive, the property sorting relies on |
| Timestamps.TimestampPrefixIff | log-parser.py:7 | `timestamp_pattern.match` succeeds exactly when the text has at least 20 characters laid out as four digits, `-`, two digits, `-`, two digits, `T`, two digits, `:`, two digits, `:`, two digits, `Z` |
| Timestamps.ParseTimestamp | log-parser.py:49-52 | on the zero-padded 20-character timestamp shape with upper-case `T` and `Z` (the only text that reaches it), `strptime` succeeds exactly when the fields form a valid date and time (seconds 0-59); the text is then the formatting of those fields and the result is their instant |
| Timestamps.FormatParses | log-parser.py:50 | conversely, every valid date and time with a four-digit year, formatted, is accepted and gives its own instant |
| Timestamps.SecondsOrder | log-parser.py:55 | instants compare as the date-times do, field by field, and distinct date-times are distinct instants, so `curr_time > last_log_time` is chronological order |
| Reconstruct.ReconstructEntries | log-parser.py:19-38 | the line loop and final flush produce exactly the entries of the fold `Entries` |
| Reconstruct.BufferEmptyUntilText | log-parser.py:20-35 | the buffer stays empty, and nothing is emitted, exactly until the first non-blank line |
| Reconstruct.FeedFlush | log-parser.py:24-35 | a blank line changes nothing; a timestamped line adds one entry; a continuation line extends the last entry by one space and the line |
| Reconstruct.EntriesKeepText | log-parser.py:24-38 | joining the entries with single spaces gives back the non-blank lines in order, nothing lost or added (one extra leading space when the text opens with continuation lines) |
| Reconstruct.EntriesShape | log-parser.py:29-38 | entries are non-empty; all but the first start with a timestamp; the first starts with a space exactly when continuation lines come first; there is one entry per timestamped line plus that leading one |
| Reconstruct.ContinuationJoins | log-parser.py:29-35 | a timestamped line followed by one continuation line gives a single entry, the two lines joined by one space |
| Parse.Token | log-parser.py:8 | `(\S+) ` takes a non-empty whitespace-free token followed by one space |
| Parse.MessageOf | log-parser.py:8 | `(.*)$` takes the rest of the entry, allowing one final newline |
| Parse.ParseEntry | log-parser.py:43-47 | a match means the entry is the four fields and the message laid out with single spaces |
| Parse.LayoutParses | log-parser.py:8 | conversely, the layout of well-formed fields always matches and gives those fields back |
| Parse.LeadingSpaceRejected | log-parser.py:43-45 | an entry that starts with a space never matches |
| Parse.SearchFrom | log-parser.py:72 | `re.search` gives the match at the leftmost position where one exists, and none exactly when no position matches |
| Parse.SearchIsLeftmost | log-parser.py:72 | whenever position k is the leftmost match, the search gives the match at k |
| Parse.LeftmostExists | log-parser.py:72 | if some position matches, a leftmost matching position exists at or before it |
| Parse.ResourceGroupsIff | log-parser.py:9 | `res_pattern` matches with groups g1, g2, g3 exactly when they are digit-and-dot runs and the text starts with "CPU: g1%, RAM: g2%, DISK: g3%" |
| Parse.PickGroupsIff | log-parser.py:10 | `pick_pattern` matches with groups g1, g2 exactly when they are digit runs and the text starts with "Attempts: g1, Successful: g2" |
| Parse.ParseNumeral | log-parser.py:74 | `float()` of a digit-and-dot run succeeds exactly when it has at most one dot and at least one digit; the value of `whole.frac` is the decimal whole·10^|frac| + frac at scale |frac|, that of a digit run its integer value |
| Parse.DecimalValue | log-parser.py:74 | the decimal `whole·10^n + frac` at scale n has the real value whole + frac / 10^n |
| Parse.Above85Value | log-parser.py:75 | the exact decimal test equals `value > 85` on the number's real value |
| Parse.ResourceSearchAsWritten | log-parser.py:72-74 | no match exactly when no position matches; at the leftmost match, readings exactly when `float()` accepts all three groups, the readings being those three values, and a `float()` error exactly when one group is rejected |
| Parse.PickCounts | log-parser.py:84-86 | no counts exactly when no position matches `pick_pattern`; otherwise the integer values of the two digit groups at the leftmost match |
| Parse.RepeatedDotAborts | log-parser.py:74 | as written, a CPU field with two dots makes `float()` raise, ending the analysis |
| Parse.RepeatedDotExample | log-parser.py:74 | the message "CPU: 1.2.3%, RAM: 1%, DISK: 1%" raises as written and gives no reading when corrected |
| Parse.ResourceReadings | log-parser.py:72-74 | the corrected reading is present exactly when the as-written search gives readings, with the same values, and never raises |
| Parse.UpperChar | log-parser.py:71 | among characters whose upper case is a single ASCII capital, a character changes under `upper()` exactly when it is a lower-case ASCII letter, dotless i or long s, and then becomes a capital |
| Parse.ComponentIsIff | log-parser.py:71-83 | `comp.upper() == 'RESOURCES'` (or `'PICKS'`) holds exactly when `comp` has the same length and each character is the capital or one of its lower-case variants |
| Parse.ReadingOf | log-parser.py:71-86 | a record has resource readings exactly when its component is RESOURCES (any case) and the message holds the three percentages; pick counts likewise for PICKS |
| Parse.Classify | log-parser.py:43-52 | an entry is accepted exactly when it matches `log_pattern` and its timestamp parses; the record carries that time, the robot id and the reading |
| Tracking.Tracker.constructor | log-parser.py:13-14 | the table starts empty and the clock unset |
| Tracking.Tracker.Process | log-parser.py:42-95 | one loop iteration changes the table and clock as `Track` says: nothing for a rejected entry |
| Tracking.Tracker.Accept | log-parser.py:55-95 | clock raised to the record's time if later; robot created if new; `last_seen` set; streaks and alerts updated as `Observe` says |
| Tracking.Tracker.ProcessAll | log-parser.py:42-95 | the whole loop leaves the state `TrackFrom` describes |
| Tracking.TrackAllIsApplyAll | log-parser.py:43-52 | entries that do not match or whose timestamp does not parse change nothing: the loop is a fold over the accepted records only |
| Tracking.ClockIsLatest | log-parser.py:55-56 | `last_log_time` is unset exactly when no record was accepted, and otherwise is the latest accepted time |
| Tracking.RobotIsFoldOfOwnRecords | log-parser.py:59-68 | a robot is in the table exactly when it has an accepted record, and its entry depends only on its own records in file order |
| Tracking.InterleavingIrrelevant | log-parser.py:59-95 | reordering records of different robots, keeping each robot's order, gives the same table |
| Tracking.LastSeenNotAfterClock | log-parser.py:55-68 | every robot's `last_seen` is at or before the clock, so the silence is never negative |
| Tracking.RobotFoldMeaning | log-parser.py:68-95 | `last_seen` is the time of the robot's last record; each streak is the number of qualifying readings since the last non-qualifying one of its kind (other records leave it alone); the overuse alert is present iff 3 overuses ever came in a row, the pick alert iff 5 failures did; no other alert exists |
| Tracking.HasRunStep | log-parser.py:76-78 | a run of n appears after one more reading exactly when it was there before or the trailing run has reached n |
| Tracking.AlertsSticky | log-parser.py:64-92 | alerts are never removed, whatever records follow |
| Report.Truncate | log-parser.py:113 | `int()` of a real truncates toward zero: the result lies within one of the value, on the side of zero |
| Report.GapAlertInjective | log-parser.py:113 | different minute counts give different gap alert texts |
| Report.GapMeaning | log-parser.py:111-113 | the gap alert fires exactly when the silence exceeds 1800 seconds, and shows floor(seconds / 60), at least 30 |
| Report.RobotAlerts | log-parser.py:107-118 | a robot's printed alerts are its sticky alerts plus the gap alert when silent, in sorted order |
| Report.SortedKeys | log-parser.py:103 | `sorted(robots.keys())` lists every id once in strictly increasing order |
| Report.BuildReport | log-parser.py:101-118 | one row per robot, ids strictly increasing, each row's alerts as `RobotAlerts`; `found_issues` iff some row has alerts |
| Report.FoundIssuesMeaning | log-parser.py:115-116 | `found_issues` holds iff some robot has a sticky alert or has been silent for more than 1800 seconds |
| Analyzer.AnalyzeRobotLogs | log-parser.py:5-131 | the returned table is the fold of the tracker over the reconstructed entries, and the report is that of the table and final clock |
| Analyzer.LeadingFragmentIgnored | log-parser.py:29-45 | continuation lines before the first timestamp form an entry that is rejected and creates no state |
| Scenarios.ThresholdIsStrict | log-parser.py:75 | 85 and 85.0 are not overuse; 85.1 is |
| Scenarios.ResetBreaksStreak | log-parser.py:75-80 | CPU 95, 95, 10, 95, 95 raises no alert (the 10 resets the streak); one more 95 raises it |
| Scenarios.FifthFailureAlerts | log-parser.py:89-95 | four failing pick reports raise nothing, the fifth raises the alert, and an idle report resets the streak |

## Left out

- `run_cli` (log-parser.py:133-164), the interactive command loop, is not part of this model.
- Opening and reading the file (log-parser.py:22-23): the file is given as its sequence of lines; a missing file and decoding errors are not modelled.
- The `print` calls (log-parser.py:16, 98-99, 121-127, 129-130): the report is the returned sequence of rows (robot id and its sorted alerts; an empty list is the "OK / nominal" line) plus the `found_issues` flag, which decides the final "no active issues" line.
- `\d`, `int()`, `float()` and `strptime` also accept non-ASCII decimal digits; the model treats only `0`-`9` as digits.
- `float()` rounding: percentages are exact decimals, so a numeral within float rounding of 85 (such as 85.0000000000000001, which Python reads as 85.0) counts as above 85 in the model but not in Python.
- `time_since_last` is modelled as an exact real; for instants in `datetime`'s range the float division cannot cross 30 or a whole minute, so the outcome is the same.
- `datetime` objects are instants in seconds since 0001-01-01 (proleptic Gregorian calendar); only comparisons and differences of them are used.
- Timestamps.ParseTimestamp: accepts only zero-padded fields, while `strptime` also accepts some unpadded ones (such as `2024-1-05T00:00:00Z`) or that write the `T`/`Z` separators in lower case (`strptime` matches its literals case-insensitively); such text never reaches it, because the first token of an entry that is parsed starts with the padded 20-character prefix that the case-sensitive `timestamp_pattern` accepted.
- Analyzer.AnalyzeRobotLogs: continues past the `float()` `ValueError` at log-parser.py:74 (a malformed `[\d.]+` group, see "## Findings") and the `int()` `ValueError` at log-parser.py:86 (a count longer than 4300 digits, refused by Python 3.11 and later), where the program stops with the exception; the model skips such a reading, and integers are unbounded.
- Parse.UpperChar: models `str.upper()` per character only for the characters whose upper case is a single ASCII capital (ASCII letters, dotless i and long s); characters that change to something else (`é` to `É`) are mapped to themselves, and multi-character upper cases (`ß` to `SS`, ligatures such as `ﬁ` to `FI`) are not modelled. Neither can turn a component into `RESOURCES` or `PICKS`, since no other character upper-cases to an ASCII capital and no such expansion occurs in either name, so both comparisons are the same.

## Findings

| source | as written | input that shows it | evidently intended | confidence | as-written member | corrected member |
|---|---|---|---|---|---|---|
| log-parser.py:74 | `float()` of each `[\d.]+` group runs outside any `try`, so a group with two dots or without a digit raises `ValueError` and ends the whole analysis | a RESOURCES entry whose message is "CPU: 1.2.3%, RAM: 1%, DISK: 1%" | skip the malformed reading, as a malformed timestamp is skipped at log-parser.py:49-52 | not executed | Parse.RepeatedDotAborts | Parse.ResourceReadings |
