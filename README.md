# sasutils SES text parsers, modelled in Dafny

`sasutils/ses.py` reads SCSI Enclosure Services (SES-2) data by running the `sg_ses` and
`lsscsi` tools and parsing the text they print. This project models that parsing and
proves what it computes:

- The element-descriptor scanner `_ses_get_ed_line` walks the lines of
  `sg_ses --page=ed --join`. It remembers the element type and descriptor of the latest
  section header and attaches them to every other line, stripped. It is modelled as a
  method with a loop (`EdScanner.ScanElementDescriptors`). The method is proved equal to
  a fold, `Scan`, whose behaviour the lemmas beside it describe without recursion.
- The two generators built on the scanner are modelled as filter-maps over its items:
  - `ses_get_ed_metrics`, which yields key, value and unit records.
  - `ses_get_ed_status`, which yields status records.
- The four one-shot queries are modelled as find-first loops over standard output:
  - the subenclosure nickname;
  - the enclosure WWN;
  - the front-panel LED id of Xyratex enclosures;
  - the enclosure device for a WWN, which runs the WWN query on each device that
    `lsscsi -g` lists. That lookup is modelled as a function parameter.

Running a tool is a value: `ToolRun = LaunchFailed | Ran(stdout, stderr)`. The lines come
already decoded and split. A query that can raise returns `Result<Option<T>, Fault>`.

Each regular expression is modelled in three parts:

- an executable matcher that returns match positions;
- a ghost predicate saying which positions form a match (`HeaderAt`, `MetricAt`, ...);
- lemmas proving the matcher sound, complete, and that it picks the match Python's `re`
  picks.

`re.match` is anchored at the start of the line. `re.search` takes the leftmost start.
Quantifiers are greedy with backtracking. `.` is any character but a line feed. `$` holds
at the end or before a final line feed. `\s` and `str.strip()` use the `str.isspace()`
table.

Modules, in dependency order:

- `Wrappers`: `Option` and `Result`.
- `Text`: Python's character classes, greedy runs, `strip`, `replace`, `in`, `int(_, 16)`.
- `Streams`: the generic filter-map and find-first loops.
- `Process`: tool runs and faults.
- `ScalarPatterns`: the nickname, WWN, LED-id and `/dev/sgN` patterns.
- `ReportPatterns`: the header, metric and status patterns of the element-descriptor page.
- `EdScanner`: `_ses_get_ed_line`.
- `EdRecords`: `ses_get_ed_metrics` and `ses_get_ed_status`.
- `Queries`: the four one-shot queries.
- `LedFinding`: the LED-id discrepancy and its corrected reading.
- `OutputExamples`: concrete tool output and what each query returns for it.
- `ReportExamples`: a concrete header, status line and metric lines of the element-descriptor page.

## Model

| member | source | states |
|---|---|---|
| EdScanner.ScanElementDescriptors | sasutils/ses.py:146-159 | The loop's yielded triples are exactly `Scan(lines)`. A header sets the context; every other line is yielded stripped, with the current context. |
| EdScanner.Scan | sasutils/ses.py:149-159 | No more items than lines. Every item's context is either `(None, None)` or a normalised header pair. |
| EdScanner.ContextOf | sasutils/ses.py:146-157 | The context after any prefix is `(None, None)` or two normalised texts: no spaces, and no dots in the descriptor. |
| EdScanner.ScanLength | sasutils/ses.py:149-159 | One item per line that is not a header candidate, empty lines included. Exactly the header candidates are dropped, matched or not. |
| EdScanner.ScanEntry | sasutils/ses.py:151-159 | A non-candidate line at `i` gives item number `Kept(lines[..i])`: its stripped text, with the context the lines before it set. |
| EdScanner.KeptMonotone | sasutils/ses.py:149-159 | Items keep input order: an earlier kept line has a smaller item index than any later line. |
| EdScanner.ScanPrefix | sasutils/ses.py:149-159 | The scan streams: what a prefix of the output yields is a prefix of what the whole yields. |
| EdScanner.ContextIsLatestHeader | sasutils/ses.py:146-157 | The context at a line is the one set by the latest earlier header whose pattern matched. A candidate whose pattern fails changes nothing. |
| EdScanner.ContextBeforeAnyHeader | sasutils/ses.py:146-147 | Before the first matched header, the context is `(None, None)`. |
| EdScanner.IsHeaderCandidate | sasutils/ses.py:151 | True if and only if the line is non-empty, does not start with a space, and has `Element type:` at some position. |
| EdScanner.HeaderContext | sasutils/ses.py:153-157 | Defined exactly when the header pattern matches somewhere. Then, for the match `re.search` returns, the element type is `ElementTypeOf` of group 2 and the descriptor is `DescriptorOf` of group 1. Both are set and normalised. |
| EdScanner.ElementTypeOf | sasutils/ses.py:155 | The result has no space. It has the length of group 2 stripped, and each character is that text's with a space made `_`. |
| EdScanner.DescriptorOf | sasutils/ses.py:156-157 | The result has no space and no dot. It has the length of group 1 stripped, and each character is that text's with a space or dot made `_`. |
| ReportPatterns.MatchHeader | sasutils/ses.py:153 | Every match found satisfies `HeaderAt`: a `[^\[]+` group, `[`, `.*`, `]`, `[\s,]*`, the label, `\s*`, then `(.+)`. |
| ReportPatterns.MatchHeaderComplete | sasutils/ses.py:153 | If the pattern matches anywhere, a match is found, and it is as Python prefers: leftmost start, then the longest `.*`, `\s*` and `(.+)`. |
| ReportPatterns.MatchHeaderChosen | sasutils/ses.py:153 | The matcher succeeds if and only if some positions match, and it returns the match preferred to every other one. |
| ReportPatterns.MatchMetric | sasutils/ses.py:169 | Every match found satisfies `MetricAt`, so whitespace separates value and unit. The unit is a maximal word run. |
| ReportPatterns.MatchMetricComplete | sasutils/ses.py:169 | If the pattern matches anywhere, a match is found with the leftmost start. At that start, key, value and unit are those of any match there, and the unit is longest. |
| ReportPatterns.MatchMetricChosen | sasutils/ses.py:169 | The matcher succeeds if and only if some positions match, and it returns the match preferred to every other one. |
| ReportPatterns.MetricKeyIsWholeWord | sasutils/ses.py:169 | The key found by the search starts at a word boundary. |
| ReportPatterns.MatchStatus | sasutils/ses.py:184 | Every match found is the label, `\s*`, then a non-empty run of non-line-feed characters. |
| ReportPatterns.MatchStatusComplete | sasutils/ses.py:184 | If the pattern matches anywhere, a match is found, and it is as Python prefers: first label, longest `\s*`, longest `(.+)`. |
| ReportPatterns.MatchStatusChosen | sasutils/ses.py:184 | The matcher succeeds if and only if some positions match, and it returns the match preferred to every other one. |
| ReportPatterns.StatusMatchesIffLabelFollowed | sasutils/ses.py:184 | On a line without a line feed, the pattern matches if and only if `status:` occurs with at least one character after it. |
| EdRecords.MetricOf | sasutils/ses.py:169-174 | Defined exactly when the metric pattern matches somewhere. The record copies the item's context. Its key, value and unit are the text of groups 1, 2 and 4 of the match `re.search` returns, so the value keeps its signs and decimal point. The key and unit are `\w+` words, and the value is a whole `[-+]*[0-9]+(\.[0-9]+)?` numeral. |
| EdRecords.MetricsEntry | sasutils/ses.py:167-174 | Every matching item yields its record, right after the records of the items before it. |
| EdRecords.MetricsOrigin | sasutils/ses.py:167-174 | Record `k` comes from an item with exactly `k` records before it, and carries that item's context. |
| EdRecords.MetricsAppend | sasutils/ses.py:167-174 | The records of two runs of items are those of the first followed by those of the second. |
| EdRecords.MetricsWellFormed | sasutils/ses.py:169-174 | Every record has a word key, a numeral value and a word unit. |
| EdRecords.EdMetrics | sasutils/ses.py:139-174 | A launch failure raises. Otherwise standard error is ignored and at most one record is yielded per output line. |
| EdRecords.EdMetricsOfLine | sasutils/ses.py:146-174 | From the raw output: a matching non-candidate line gives a record with the context of the latest matched header before it. |
| EdRecords.StatusOf | sasutils/ses.py:184-188 | Defined exactly when the status pattern matches somewhere. The record copies the item's context. Its status is group 1 of the match `re.search` returns, with every space made `_`; it is non-empty with no spaces. |
| EdRecords.StatusOfIff | sasutils/ses.py:184-186 | A scanned text yields a status record if and only if `status:` occurs in it followed by at least one character. |
| EdRecords.StatusesEntry | sasutils/ses.py:182-188 | Every matching item yields its record, right after the records of the items before it. |
| EdRecords.StatusesOrigin | sasutils/ses.py:182-188 | Record `k` comes from an item with exactly `k` records before it, and carries that item's context. |
| EdRecords.StatusesAppend | sasutils/ses.py:182-188 | The status records of two runs of items are those of the first followed by those of the second. |
| EdRecords.EdStatus | sasutils/ses.py:139-188 | A launch failure raises. Otherwise standard error is ignored and at most one record is yielded per output line. |
| EdRecords.EdStatusOfLine | sasutils/ses.py:146-188 | From the raw output: a non-candidate line whose stripped text has a status match gives a status record with the context of the latest matched header before it. |
| Text.Strip | sasutils/ses.py:159 | The result is a slice of the input with every leading and trailing whitespace character removed, and no more. |
| Text.Replace | sasutils/ses.py:186 | Same length; each character equal to `from` becomes `to`, and the others stay. |
| Text.StripIs | sasutils/ses.py:159 | A non-empty slice that `s` has only whitespace around, and that starts and ends with non-whitespace, is what `strip()` returns. |
| Text.ParseHex | sasutils/ses.py:132 | `int(_, 16)` of a string of hexadecimal digits is below 16 to the power of its length. |
| Text.ParseHexConcat | sasutils/ses.py:132 | Hexadecimal is positional: the value of `a + b` is the value of `a` times 16 to the power of the length of `b`, plus the value of `b`. |
| Text.ParseHexLeadingZero | sasutils/ses.py:132 | A leading `0` does not change the value. |
| Text.ContainsIff | sasutils/ses.py:151 | `sub in s` holds if and only if `sub` occurs in `s` at some position. |
| Streams.FindFirst | sasutils/ses.py:52-56 | The result is `f` of the first input on which `f` succeeds, or `None` when it succeeds on none. |
| Streams.FindFirstStops | sasutils/ses.py:52-56 | The loop returns at the first success: the inputs after it do not matter. |
| Streams.FilterMapAppend | sasutils/ses.py:167-174 | A generator over two runs of inputs yields the items of the first run, then those of the second. |
| Streams.FilterMapAll | sasutils/ses.py:167-174 | Every item yielded satisfies whatever `f` guarantees of its successes. |
| Streams.FilterMapOrigin | sasutils/ses.py:167-174 | Item `k` is `f` of an input with exactly `k` items before it. |
| ScalarPatterns.MatchNickname | sasutils/ses.py:54 | A match found is leading whitespace, the label, `\s*`, then a non-empty run of non-blanks. |
| ScalarPatterns.MatchNicknameComplete | sasutils/ses.py:54 | If the anchored pattern matches, a match is found with the longest `\s*` and then the longest capture. |
| ScalarPatterns.MatchNicknameChosen | sasutils/ses.py:54 | The matcher succeeds if and only if some positions match, and it returns the match preferred to every other one. |
| ScalarPatterns.NicknameOf | sasutils/ses.py:54-56 | `None` exactly when the pattern does not match the line. Otherwise the nickname is group 1 of the match `re.match` returns; it is non-empty and has no space. |
| ScalarPatterns.NicknameOfLine | sasutils/ses.py:54-56 | A nickname line (whitespace, the label, whitespace, a word, then a space or the end) gives exactly that word. |
| ScalarPatterns.MatchWwn | sasutils/ses.py:105 | A match found is anchored, and its `\w+` capture runs to the end of the line or to a final line feed. |
| ScalarPatterns.MatchWwnComplete | sasutils/ses.py:105 | Whenever the whole-line pattern matches at some positions, the matcher returns those positions. |
| ScalarPatterns.WwnDigitsOfLine | sasutils/ses.py:105 | A WWN line (whitespace, the label, a word, optionally a final line feed) gives exactly that word. |
| ScalarPatterns.MatchLed | sasutils/ses.py:130 | A match found is anchored, and its capture is a maximal non-empty run of the capture's class. |
| ScalarPatterns.MatchLedComplete | sasutils/ses.py:130 | If the anchored pattern matches, a match is found with a capture at least as long. |
| ScalarPatterns.MatchDev | sasutils/ses.py:78 | A match found has `/dev/sg` after a line-feed-free prefix, followed by digits. |
| ScalarPatterns.MatchDevComplete | sasutils/ses.py:78 | If the pattern matches, a match is found with the longest `.*`, then the longest digit run. |
| ScalarPatterns.MatchDevChosen | sasutils/ses.py:78 | The matcher succeeds if and only if some positions match, and it returns the match preferred to every other one. |
| ScalarPatterns.DeviceOf | sasutils/ses.py:78-79 | Defined exactly when the device pattern matches. The device is the `sgN` after the `/dev/` of the match `re.match` returns: the last `/dev/sgN` on the line, with all its digits. It is `sg` followed by at least one decimal digit. |
| Queries.QueryNickname | sasutils/ses.py:41-56 | A launch failure gives `None` and standard error never matters. The result is the first stdout capture, or `None` with no match. It is non-empty and has no space. |
| Queries.WwnOf | sasutils/ses.py:105-107 | Defined exactly when the WWN pattern matches. The result is `0x` followed by word characters. |
| Queries.WwnOfLine | sasutils/ses.py:105-107 | A WWN line gives `0x` followed by exactly its word. |
| Queries.QueryEnclosureWwn | sasutils/ses.py:91-107 | A launch failure gives `None`. Any stderr line raises before stdout is read. Otherwise the result is the first WWN found. |
| Queries.LedIdOf | sasutils/ses.py:130-132 | Defined exactly when the LED pattern matches with a `[0-9]+` capture. The value is that capture read as hexadecimal. |
| Queries.QueryLedId | sasutils/ses.py:116-132 | A launch failure gives `None`. Any stderr line raises. Otherwise the result is the first LED id found. |
| Queries.LineVerdict | sasutils/ses.py:76-82 | A line without `enclosu` is skipped. Without `/dev/sgN` it raises. Otherwise the device is returned if its WWN is the target, a lookup failure propagates, and any other WWN moves on. |
| Queries.Resolve | sasutils/ses.py:75-83 | A device returned is `sg` followed by at least one character, every one of them a decimal digit. |
| Queries.QueryEnclosureFromWwn | sasutils/ses.py:63-83 | A launch failure gives `None`. Any stderr line raises. Otherwise the result is the resolver over stdout. |
| Queries.ResolveFinds | sasutils/ses.py:75-82 | The first enclosure line whose device has the target WWN gives that device, if no earlier line ended the loop. |
| Queries.ResolveReturnsMatch | sasutils/ses.py:75-83 | A returned device comes from an enclosure line whose WWN is the target, and every line before it let the loop go on. |
| Queries.ResolveNone | sasutils/ses.py:75-83 | `None` if and only if no line raises or matches the target. |
| Queries.ResolveRaisesOnMissingDevice | sasutils/ses.py:77-79 | An enclosure line without `/dev/sgN` raises, unless an earlier line ended the loop. |
| Queries.ResolvePropagatesLookupFailure | sasutils/ses.py:80 | A WWN lookup that raises ends the call with the same failure. |
| Queries.ResolveByWwnQuery | sasutils/ses.py:75-82 | With the WWN query as the lookup: after lines that let the loop go on, an enclosure line whose device's run prints no stderr and whose first WWN line gives the target makes the resolver return that device. |
| LedFinding.LedFieldOfLine | sasutils/ses.py:130 | An LED line (whitespace, the label, a run of the class, then a character outside it or the end) captures exactly the run. |
| LedFinding.ParseHexTwo | sasutils/ses.py:131-132 | `int(_, 16)` of two hexadecimal digits is 16 times the first plus the second. |
| LedFinding.LedIdDropsHexLetter | sasutils/ses.py:129-132 | As written, a byte of a decimal digit then `a`-`f` reads as the digit alone, which differs from the byte's value. |
| LedFinding.LedIdOfCorrected | sasutils/ses.py:129-132 | The corrected reading is defined exactly when the pattern matches with a hexadecimal capture, and is that capture's value. |
| LedFinding.LedIdCorrectedReadsByte | sasutils/ses.py:129-132 | Corrected: any two hexadecimal digits read as the byte's value, so `0a` gives 10. |
| LedFinding.LedIdReadingsAgreeOnDecimal | sasutils/ses.py:130-132 | On a byte of two decimal digits, the as-written and corrected readings agree. |
| LedFinding.QueryLedIdCorrected | sasutils/ses.py:116-132 | Same launch and stderr rules as the LED query, with the corrected reading of each line. |
| OutputExamples.NicknameExample | sasutils/ses.py:52-56 | Output with `  nickname: ABC123` after lines without a nickname gives `ABC123`, whatever follows and whatever is on stderr. |
| OutputExamples.NicknameTabExample | sasutils/ses.py:54 | `  nickname:` followed only by a tab gives the nickname `\t`: `\s*` gives the tab back to `([^ ]+)`. |
| OutputExamples.WwnExample | sasutils/ses.py:103-107 | `  enclosure logical identifier (hex): 5000c5001234abcd` gives `0x5000c5001234abcd`. |
| OutputExamples.LedExample | sasutils/ses.py:127-132 | As written, the status `01 00 00 0a` gives LED id 0. |
| OutputExamples.LedExampleCorrected | sasutils/ses.py:129-132 | Corrected, the status `01 00 00 0a` gives LED id 10. |
| OutputExamples.LedDecimalExample | sasutils/ses.py:130-132 | The status `01 00 00 12` gives LED id 18: decimal digits still read in base 16. |
| OutputExamples.DeviceExample | sasutils/ses.py:78-79 | The `lsscsi -g` line `[0:0:12:0]  enclosu  HGST  H4060-J  2033  -  /dev/sg12` gives the device `sg12`. |
| ReportExamples.DescriptorExample | sasutils/ses.py:156-157 | Group 1 `Voltage  3.30V ` normalises to the descriptor `Voltage__3_30V`. |
| ReportExamples.ElementTypeExample | sasutils/ses.py:155 | Group 2 `Voltage sensor` normalises to the element type `Voltage_sensor`. |
| ReportExamples.HeaderMatchExample | sasutils/ses.py:153 | On `Voltage  3.30V [6,0]  Element type: Voltage sensor`, group 1 is `Voltage  3.30V ` and group 2 is `Voltage sensor`. |
| ReportExamples.HeaderExample | sasutils/ses.py:151-157 | That line is a header, and it sets the context `("Voltage_sensor", "Voltage__3_30V")`. |
| ReportExamples.HeaderLineStep | sasutils/ses.py:151-157 | Reading that header line yields nothing and sets the context `("Voltage_sensor", "Voltage__3_30V")`, whatever the context was. |
| ReportExamples.StatusLineStep | sasutils/ses.py:158-159 | Reading `  status: OK` yields `status: OK` with the current context. |
| ReportExamples.ScanExample | sasutils/ses.py:149-159 | That header followed by `  status: OK` scans to one item: `status: OK` with the header's context. |
| ReportExamples.StatusMatchExample | sasutils/ses.py:184 | On `status: OK` the status pattern captures `OK`. |
| ReportExamples.StatusOfExample | sasutils/ses.py:184-188 | The scanned `status: OK` gives the status `OK` with its item's context. |
| ReportExamples.EdStatusExample | sasutils/ses.py:177-188 | Those two lines give exactly one status record, `("Voltage_sensor", "Voltage__3_30V", "OK")`, whatever standard error holds. |
| ReportExamples.SpacedStatusMatchExample | sasutils/ses.py:184 | On `status: Not installed` the capture runs across the inner space to the end of the line. |
| ReportExamples.SpacedStatusExample | sasutils/ses.py:184-188 | `status: Not installed` gives the status `Not_installed`, with its item's context. |
| ReportExamples.MetricExample | sasutils/ses.py:169-174 | `Temperature=25 C` gives key `Temperature`, value `25` and unit `C`, with its item's context. |
| ReportExamples.SignedMetricMatchExample | sasutils/ses.py:169 | On `Voltage: -3.30 V` the value group spans the sign, the integer part and the fraction. |
| ReportExamples.SignedMetricExample | sasutils/ses.py:169-174 | `Voltage: -3.30 V` gives key `Voltage`, value `-3.30` and unit `V`, with its item's context. |
| ReportExamples.MetricNeedsSpaceExample | sasutils/ses.py:169 | `Temperature=25C` gives no record: the pattern needs whitespace between value and unit. |

## Left out

- Starting the tools (`subprocess.Popen`, `communicate`) and UTF-8 decoding are process I/O. A run is the value `ToolRun`; its lines come already decoded.
- `splitlines()` is not modelled. The lines are inputs, so the extra separators Python splits on (such as `\r`, `\x0b`, `\x1c`, `\x85` and `\u2028`) are assumed already split.
- The `@retry` decorator is not modelled. It retries failing calls with random sleeps, so a failure of the WWN lookup inside the resolver is final in the model.
- The `interprocess_locked` file lock is a cross-process concurrency concern.
- Logging calls are side effects only. Standard-error lines that are only logged do not change any result.
- Exception types are abstracted into `Fault`:
  - `raise subprocess.CalledProcessError` without arguments really raises `TypeError`; it becomes `ToolReportedError`.
  - `mobj.group(1)` on a `None` match raises `AttributeError`; it becomes `NoDevicePath`.
  - The `OSError` that `_ses_get_ed_line` does not catch becomes `LaunchError`.
- `\w` and `\d` are ASCII only here. Python's `str` patterns also accept other Unicode letters and digits.
- The WWN lookup is a function parameter (`lookup`). `Queries.WwnLookup` fits the WWN query to it, and `Queries.ResolveByWwnQuery` uses that. The target `wwn` is a string, so a caller passing `None` (which would match a device whose WWN query returned `None`) is not modelled.
- Generators are modelled as whole lists, not lazy streams. `EdScanner.ScanPrefix` states the streaming order instead.
- The LED query is kept as written (`[0-9]+`). The comment at sasutils/ses.py:129 says the last two digits hold the id in hexadecimal, so `01 00 00 0a` should read as 10. Only the corrected reading gives that; see Findings.
- The three queries that raise on standard error do so on its first line. The model raises whenever standard error is non-empty, which is the same condition.

## Findings

| source | as written | input that shows it | evidently intended | confidence | as-written member | corrected member |
|---|---|---|---|---|---|---|
| sasutils/ses.py:130-132 | the LED id is captured with `[0-9]+` and read with `int(_, 16)` | `  Vendor specific element type, status in hex: 01 00 00 0a` gives 0 | the last byte read as hexadecimal, 10, as the comment at line 129 says | not executed | LedFinding.LedIdDropsHexLetter | LedFinding.LedIdOfCorrected |
