# tail's forward engine and the BSD `_strptime`, modelled in Dafny

This project models two C components of a userland port of FreeBSD tools.

**tail's forward engine** (`src.freebsd/coreutils/tail/forward.c`):

- `forward()` positions a stream according to the style `-c +N`, `-n +N`, `-c N` or `-n N`. It then copies the rest of the stream to standard output.
- `rlines()` finds the last N lines of a regular file by scanning backwards for newlines.
- `show()` drains one followed file. It writes a `==> name <==` header when output switches to another file, and it closes the file on a read error.
- `follow()` positions every file, then repeats an iteration for as long as it runs. With `-F`, the iteration re-opens every path and adopts files that appeared or were replaced. It then shows every open file.

**`_strptime`** (`src.freebsd/compat/strptime.c`) parses a date string against a format:

- It walks the format and matches literal characters and whitespace.
- It runs one conversion per `%` directive: numbers with their ranges, locale names, `%p` and `%z`, and the nested formats `%D %F %R %T`.
- After the walk it derives the missing calendar fields: the year from century and year, the day of the year from the date or from a week number, then the month, the day of the month and the weekday.

## How the model is organised

| file | module | what it holds |
|---|---|---|
| `wrappers.dfy` | `Wrappers` | The `Option` datatype both halves use. |
| `tail_forward.dfy` | `TailForward` | Streams as values, output as a trace of events. `forward()` and `rlines()` are methods with loops, each proved equal to a pure specification (`PositionSpec`, `ForwardSpec`, `SkipLines`, `LastLinesStart`). Lemmas state what each style does. |
| `tail_follow.dfy` | `TailFollow` | Class `Follower`, whose `array<FileInfo>` plays the C `files` array and whose field `last` plays the static `last` (an index, -1 for NULL). `Show`, `Probe`, `Iterate` and `Start` are proved equal to functions on an abstract state (`ShowSpec`, `ProbeOne`, `FollowIteration`, `StartSpec`). Lemmas about those functions give the properties. |
| `strptime_calendar.dfy` | `StrptimeCalendar` | C's truncating `%`, `isleap`, `first_wday_of`, the `start_of_month` table and the month search. |
| `strptime.dfy` | `Strptime` | The parser as functions: `ParseSpec` walks the format, `ConvSpec` is the switch, `DeriveSpec` is the code after the loop. |
| `strptime_engine.dfy` | `StrptimeEngine` | The loops of `_strptime` as methods (the digit loops, the name searches, the format walk, the month search), each proved equal to its function. |
| `strptime_facts.dfy` | `StrptimeFacts` | What `_strptime` promises, proved about the functions. |
| `strptime_examples.dfy` | `StrptimeExamples` | A worked input for the second finding below. |

Environment effects become values:
- Each stream carries its bytes and its cursor, plus flags saying whether a read at its end fails and whether it can seek.
- `fileargs_fopen` and `fstat` in `follow()` become one `Open` value per file and iteration (`Got(handle, stat)` or `Gone(enoent)`).
- The status that `bytes()` and `lines()` return becomes a parameter.
- The locale tables (`nl_langinfo` day names, month names, AM/PM strings) become a `Locale` parameter.
- Output is a sequence of events: a byte, a file header, a read-error report, or a delegated display.
- The C `struct tm` becomes the `Tm` datatype. `_strptime` returns the updated `tm` inside its outcome.

## Model

| member | source | states |
|---|---|---|
| TailForward.ReadAll | src.freebsd/coreutils/tail/forward.c:168-174 | the copy loop and the discarding loops read exactly the remaining bytes, in order, and leave the stream drained |
| TailForward.CountNLAppend | src.freebsd/coreutils/tail/forward.c:124 | the newline count over a concatenation is the sum of the counts |
| TailForward.SkipLinesSpec | src.freebsd/coreutils/tail/forward.c:113-127 | skipping N lines lands just past the N-th newline (which is a newline), or at the end when fewer than N newlines remain |
| TailForward.BackScanSpec | src.freebsd/coreutils/tail/forward.c:198-212 | the backward scan stops just past the index holding the N-th newline from the back, or at 0 when there are fewer |
| TailForward.LastLinesStartSpec | src.freebsd/coreutils/tail/forward.c:196-212 | the scan begins at size-2, so a trailing newline is not counted: the start index follows the N-th newline before the last byte, or is 0 |
| TailForward.RLinesScan | src.freebsd/coreutils/tail/forward.c:182-227 | rlines: an empty file shows nothing; otherwise the bytes from LastLinesStart to the end are shown and the cursor is put at the end, or the failed seek is reported |
| TailForward.PositionSpec | src.freebsd/coreutils/tail/forward.c:93-166 | every style keeps the stream's data, its failing, seekOk and isStdin flags; the cursor moves, and the error flag may be raised by a read that reached the end |
| TailForward.ForwardSpec | src.freebsd/coreutils/tail/forward.c:89-176 | forward keeps the stream's data and identity |
| TailForward.SkipBytes | src.freebsd/coreutils/tail/forward.c:104-111 | the discarding loop of -c +N either advances by off bytes or drains the stream and reports a read error at its end |
| TailForward.SkippingStep | src.freebsd/coreutils/tail/forward.c:116-126 | one byte of the -n +N loop keeps its invariant: a newline brings the count left down by one |
| TailForward.SkippingFound | src.freebsd/coreutils/tail/forward.c:124-125 | the loop stops at the off-th newline, which is where SkipLines lands |
| TailForward.SkippingEof | src.freebsd/coreutils/tail/forward.c:117-122 | reaching EOF with newlines still to skip means the rest held fewer than off newlines |
| TailForward.SkipNewlines | src.freebsd/coreutils/tail/forward.c:113-127 | -n +N lands past the off-th newline, or drains the stream and reports a read error at its end |
| TailForward.SkipAll | src.freebsd/coreutils/tail/forward.c:135-140 | -c 0 and -n 0 on anything but a non-empty regular file read everything, show nothing, and report a read error only when one occurred |
| TailForward.Position | src.freebsd/coreutils/tail/forward.c:93-166 | the positioning switch equals PositionSpec |
| TailForward.Forward | src.freebsd/coreutils/tail/forward.c:89-176 | forward equals ForwardSpec: positioning, then every remaining byte, then the error check |
| TailForward.FBytesZeroKeepsCursor | src.freebsd/coreutils/tail/forward.c:95-96 | -c +0 leaves the cursor and writes nothing |
| TailForward.FBytesRegularClamps | src.freebsd/coreutils/tail/forward.c:97-103 | -c +N on a non-empty regular file seeks to min(N, size) |
| TailForward.FBytesStreamDiscards | src.freebsd/coreutils/tail/forward.c:104-111 | -c +N on anything else discards min(N, remaining) bytes and fails only on a read error at the end |
| TailForward.FLinesPastNewline | src.freebsd/coreutils/tail/forward.c:113-127 | -n +N stops just past the N-th newline, having counted exactly N, or at the end |
| TailForward.RBytesFromEnd | src.freebsd/coreutils/tail/forward.c:129-134 | -c N on a non-empty regular file seeks N bytes back from the end when N fits, and otherwise leaves the cursor |
| TailForward.RBytesWholeFile | src.freebsd/coreutils/tail/forward.c:129-134 | a count of at least the file size shows the whole file |
| TailForward.RLinesZeroShowsNothing | src.freebsd/coreutils/tail/forward.c:146-151 | -n 0 on a non-empty regular file seeks to the end and shows nothing |
| TailForward.RLinesShowsLastLines | src.freebsd/coreutils/tail/forward.c:145-153 | -n N shows exactly the bytes from the line after the N-th newline back (a trailing newline excluded), or the whole file |
| TailForward.FiveLinesLastTwo | src.freebsd/coreutils/tail/forward.c:145-153 | -n 2 on "a\nb\nc\nd\ne\n" shows "d\ne\n" |
| TailForward.PositionWritesNoHeader | src.freebsd/coreutils/tail/forward.c:93-166 | positioning writes no file header |
| TailForward.ForwardWritesNoHeader | src.freebsd/coreutils/tail/forward.c:89-176 | forward writes no file header; headers are the caller's |
| TailFollow.LastHeaderAppend | src.freebsd/coreutils/tail/forward.c:235-239 | the last header of a concatenation is the second part's, if it has one |
| TailFollow.ShowSpec | src.freebsd/coreutils/tail/forward.c:230-252 | show changes only file i, keeps its name and stat, answers true exactly when the handle survives, and a surviving handle is at its end with its error flag clear |
| TailFollow.ShowHeaderRule | src.freebsd/coreutils/tail/forward.c:234-239 | show writes one header exactly when a byte is shown, the output last came from another file, and headers are on; the header comes first |
| TailFollow.ShowTracksLast | src.freebsd/coreutils/tail/forward.c:238 | last becomes i exactly when show displays a byte |
| TailFollow.ShowPayload | src.freebsd/coreutils/tail/forward.c:234-242 | the bytes show writes are exactly the stream's remaining bytes |
| TailFollow.ShowErrorCloses | src.freebsd/coreutils/tail/forward.c:244-251 | show fails exactly on a read error: it closes the file and reports last; otherwise the handle stays at its end |
| TailFollow.ShowKeepsTrack | src.freebsd/coreutils/tail/forward.c:235-239 | with headers on, show keeps last naming the file that wrote the last header |
| TailFollow.CopyingStep | src.freebsd/coreutils/tail/forward.c:234-242 | one byte of the copy loop of show keeps its invariant |
| TailFollow.CopyingEnd | src.freebsd/coreutils/tail/forward.c:234-243 | at EOF the copy loop has written the header, if any, and all remaining bytes |
| TailFollow.Put | src.freebsd/coreutils/tail/forward.c:235-241 | one pass of the loop body writes the header when the source changes and headers are on, then the byte, and sets last to i |
| TailFollow.CopyRest | src.freebsd/coreutils/tail/forward.c:234-243 | the copy loop drains the stream, writes the header and the remaining bytes, and moves last to i only when a byte was shown |
| TailFollow.ShowOutcome | src.freebsd/coreutils/tail/forward.c:234-249 | the output of the copy loop followed by the error report is what ShowSpec writes |
| TailFollow.StartUpTo | src.freebsd/coreutils/tail/forward.c:267-275 | the positioning pass touches only the files already passed, renames none of them and leaves last alone |
| TailFollow.LastOpen | src.freebsd/coreutils/tail/forward.c:268-271 | the index of the last open file before j: it is open and every later one is closed, or -1 |
| TailFollow.StartSpec | src.freebsd/coreutils/tail/forward.c:266-279 | the preamble of follow, with last set to the last file positioned, keeps the state well formed |
| TailFollow.StartAsWritten | src.freebsd/coreutils/tail/forward.c:279 | the preamble as written, last being the final element of the array |
| TailFollow.StartHeaders | src.freebsd/coreutils/tail/forward.c:268-275 | with headers on, the last header the positioning pass writes is that of the last open file |
| TailFollow.StartTracks | src.freebsd/coreutils/tail/forward.c:266-279 | the loop is entered exactly with -F or some open file, and then last names the writer of the last header |
| TailFollow.PositionFile | src.freebsd/coreutils/tail/forward.c:272-274 | one file of the positioning pass: its header when on, then forward on its stream |
| TailFollow.StartUpToStep | src.freebsd/coreutils/tail/forward.c:268-275 | one more file of the positioning pass: unchanged when closed, positioned with its header otherwise |
| TailFollow.TwoFiles | src.freebsd/coreutils/tail/forward.c:266-279 | the two files a (open, empty) and b (not yet there) are well formed |
| TailFollow.StartLastCounterexample | src.freebsd/coreutils/tail/forward.c:279 | with tail -F -c +0 a b and b missing at start, the code as written shows b's first byte under a's header; the corrected preamble writes b's header first |
| TailFollow.ProbeOne | src.freebsd/coreutils/tail/forward.c:283-326 | one file of the -F pass changes only that file and keeps its name |
| TailFollow.ProbeUpTo | src.freebsd/coreutils/tail/forward.c:283-326 | the -F pass touches only the files already passed |
| TailFollow.DrainUpTo | src.freebsd/coreutils/tail/forward.c:329-330 | the display pass touches only the files already passed and renames none |
| TailFollow.ProbeClosed | src.freebsd/coreutils/tail/forward.c:284-295 | a closed file adopts the new handle and stat when opening and fstat succeed, and stays closed otherwise; nothing is written |
| TailFollow.ProbeSkipsStdin | src.freebsd/coreutils/tail/forward.c:296-297 | standard input is never probed |
| TailFollow.ProbeVanished | src.freebsd/coreutils/tail/forward.c:298-311 | a vanished path is reported unless errno was ENOENT; the old handle is drained and the file closed |
| TailFollow.ProbeReplaced | src.freebsd/coreutils/tail/forward.c:314-322 | a replaced file (other inode or device, or no links) is drained, then adopts the new handle and stat |
| TailFollow.ProbeUnchanged | src.freebsd/coreutils/tail/forward.c:323-325 | the same file at the path: nothing changes |
| TailFollow.DrainExtends | src.freebsd/coreutils/tail/forward.c:329-330 | the display pass only appends to the output |
| TailFollow.DrainInOrder | src.freebsd/coreutils/tail/forward.c:329-330 | the display pass shows every open file's remaining bytes, file after file in array order |
| TailFollow.DrainLeavesNothing | src.freebsd/coreutils/tail/forward.c:329-330 | after the display pass every file still open is at its end with its error flag clear |
| TailFollow.ProbeClosedKeepsTrack | src.freebsd/coreutils/tail/forward.c:284-295 | reopening a closed file keeps last naming the writer of the last header |
| TailFollow.ProbeGoneKeepsTrack | src.freebsd/coreutils/tail/forward.c:298-311 | the report and the drain of a vanished file keep last naming the writer of the last header |
| TailFollow.ProbeGotKeepsTrack | src.freebsd/coreutils/tail/forward.c:314-325 | draining a replaced file and adopting its successor keep last naming the writer of the last header |
| TailFollow.ProbeKeepsTrack | src.freebsd/coreutils/tail/forward.c:283-326 | with headers on, a probe keeps last naming the writer of the last header |
| TailFollow.ProbeUpToKeepsTrack | src.freebsd/coreutils/tail/forward.c:283-326 | the same for the whole -F pass |
| TailFollow.DrainKeepsTrack | src.freebsd/coreutils/tail/forward.c:329-330 | the same for the display pass |
| TailFollow.IterationKeepsTrack | src.freebsd/coreutils/tail/forward.c:281-333 | a whole iteration of the loop keeps last naming the writer of the last header, so a header is written exactly when output switches files |
| TailFollow.Follower.constructor | src.freebsd/coreutils/tail/forward.c:64 | a follower starts with last NULL and nothing written |
| TailFollow.Follower.Show | src.freebsd/coreutils/tail/forward.c:230-252 | show on the array equals ShowSpec |
| TailFollow.Follower.Probe | src.freebsd/coreutils/tail/forward.c:283-326 | one probe on the array equals ProbeOne |
| TailFollow.Follower.Iterate | src.freebsd/coreutils/tail/forward.c:282-330 | one iteration on the array equals FollowIteration |
| TailFollow.Follower.Start | src.freebsd/coreutils/tail/forward.c:266-279 | the preamble on the array equals StartSpec |
| TailFollow.Follower.PositionAll | src.freebsd/coreutils/tail/forward.c:267-275 | the positioning loop equals StartUpTo and answers the index of the last open file |
| TailFollow.Follower.PositionStep | src.freebsd/coreutils/tail/forward.c:269-274 | one turn of the positioning loop advances StartUpTo by one file |
| TailFollow.Follower.ProbeAll | src.freebsd/coreutils/tail/forward.c:283-326 | the -F loop equals ProbeUpTo |
| TailFollow.Follower.DisplayAll | src.freebsd/coreutils/tail/forward.c:329-330 | the display loop equals DrainUpTo |
| StrptimeCalendar.CRem | src.freebsd/compat/strptime.c:62 | C's remainder: below the divisor in size, the mathematical one for a non-negative dividend, never positive for a non-positive one |
| StrptimeCalendar.CRemQuotient | src.freebsd/compat/strptime.c:62 | with C's truncating quotient, quotient times divisor plus CRem gives the dividend back, for negative dividends too |
| StrptimeCalendar.IsLeapIff | src.freebsd/compat/strptime.c:62 | isleap with C's remainder is the Gregorian rule for every year, negative ones included |
| StrptimeCalendar.FirstWdayRange | src.freebsd/compat/strptime.c:79-86 | first_wday_of is a weekday 0..6 for years from 1 |
| StrptimeCalendar.FirstWdayNext | src.freebsd/compat/strptime.c:79-86 | Gauss's formula moves on by the length of the year: 1 January of the next year is 365 or 366 days later |
| StrptimeCalendar.MonthLength | src.freebsd/compat/strptime.c:99-102 | the Gregorian month lengths, 28..31 days |
| StrptimeCalendar.StartOfMonthSums | src.freebsd/compat/strptime.c:99-102 | each row of start_of_month starts at 0, adds the month lengths and ends at the length of the year |
| StrptimeCalendar.StartOfMonthMonotone | src.freebsd/compat/strptime.c:99-102 | each row is strictly increasing |
| StrptimeCalendar.SearchFrom | src.freebsd/compat/strptime.c:669-672 | the month search, bounded at the end of the row, answers an index from its start to 13 |
| StrptimeCalendar.SearchFromBrackets | src.freebsd/compat/strptime.c:669-672 | the index found brackets yday: the entry before is at most yday and the entry at it exceeds yday |
| StrptimeCalendar.SearchAsWritten | src.freebsd/compat/strptime.c:669-672 | the search as written, with the read past the row as an outcome |
| StrptimeCalendar.SearchAsWrittenAgrees | src.freebsd/compat/strptime.c:669-672 | the search as written reads past the row exactly when yday reaches the length of the year, and otherwise agrees with the bounded search |
| Strptime.DigitOf | src.freebsd/compat/strptime.c:230-231 | a digit's value is 0..9 |
| Strptime.ToLower | src.freebsd/compat/strptime.c:345 | case folding maps NUL, and only NUL, to NUL |
| Strptime.PrefixInside | src.freebsd/compat/strptime.c:345-355 | a name strncasecmp accepts lies inside the input |
| Strptime.SkipSpace | src.freebsd/compat/strptime.c:115-119 | the whitespace loop stops at the first character that is not whitespace, and everything skipped is whitespace |
| Strptime.DigitRun | src.freebsd/compat/strptime.c:229-231 | a digit loop takes only digits, at most the width, and stops before a digit only at the width |
| Strptime.DecValue | src.freebsd/compat/strptime.c:229-231 | the value of n digits is below 10^n |
| Strptime.ConvSpec | src.freebsd/compat/strptime.c:120-619 | the switch: a letter it does not name, or NUL, gives NULL, and a conversion never answers a parsed result early |
| Strptime.Modifiers | src.freebsd/compat/strptime.c:120-125 | the E and O modifiers are skipped and the conversion letter is the character before the new format position |
| Strptime.StepSpec | src.freebsd/compat/strptime.c:109-619 | one turn of the loop moves forward in input and format, or ends without a parsed result |
| Strptime.WithYear | src.freebsd/compat/strptime.c:622-631 | with neither century nor year given the year field is left alone |
| Strptime.DeriveSpec | src.freebsd/compat/strptime.c:620-696 | the derivation returns the input position it was given and keeps the GMT flag; the month search in it is the bounded one (see Findings) |
| StrptimeEngine.SkipSpaces | src.freebsd/compat/strptime.c:115-119 | the whitespace loop equals SkipSpace |
| StrptimeEngine.ReadNumber | src.freebsd/compat/strptime.c:229-231 | the digit loop of width w advances by DigitRun and computes the decimal value of the digits read |
| StrptimeEngine.DigitStep | src.freebsd/compat/strptime.c:230-231 | one more digit multiplies the value so far by ten and adds the digit |
| StrptimeEngine.ReadZoneDigits | src.freebsd/compat/strptime.c:589-600 | the %z digit loop equals ZoneDigits |
| StrptimeEngine.FindDay | src.freebsd/compat/strptime.c:342-351 | the day-name loop equals DaySearch |
| StrptimeEngine.FindMonthName | src.freebsd/compat/strptime.c:446-472 | the two month-name loops equal MonthSearch |
| StrptimeEngine.NumConvert | src.freebsd/compat/strptime.c:143-547 | the numeric cases equal NumConv |
| StrptimeEngine.ConvertCentury | src.freebsd/compat/strptime.c:143-159 | %C equals CenturyConv |
| StrptimeEngine.ConvertYday | src.freebsd/compat/strptime.c:225-242 | %j equals YdayConv |
| StrptimeEngine.ConvertMinSec | src.freebsd/compat/strptime.c:244-271 | %M and %S equal MinSecConv |
| StrptimeEngine.ConvertHour | src.freebsd/compat/strptime.c:273-310 | %H %I %k %l equal HourConv |
| StrptimeEngine.ConvertWeek | src.freebsd/compat/strptime.c:360-389 | %U and %W equal WeekConv |
| StrptimeEngine.ConvertWday | src.freebsd/compat/strptime.c:391-404 | %u and %w equal WdayConv |
| StrptimeEngine.ConvertMday | src.freebsd/compat/strptime.c:406-441 | %d and %e equal MdayConv |
| StrptimeEngine.ConvertMonth | src.freebsd/compat/strptime.c:482-499 | %m equals MonthConv |
| StrptimeEngine.ConvertYear | src.freebsd/compat/strptime.c:525-547 | %Y and %y equal YearConv |
| StrptimeEngine.NameConvert | src.freebsd/compat/strptime.c:340-480 | %A %a %B %b %h equal NameConv |
| StrptimeEngine.ZoneConvert | src.freebsd/compat/strptime.c:577-609 | %z equals Zone |
| StrptimeEngine.Convert | src.freebsd/compat/strptime.c:120-619 | the switch equals ConvSpec |
| StrptimeEngine.Step | src.freebsd/compat/strptime.c:109-619 | one turn of the while loop equals StepSpec |
| StrptimeEngine.Parse | src.freebsd/compat/strptime.c:88-697 | _strptime equals ParseSpec; the month search in it is the bounded one (see Findings) |
| StrptimeEngine.FindMonth | src.freebsd/compat/strptime.c:668-672 | the month search, bounded at the end of the row, equals SearchFrom |
| StrptimeEngine.Derive | src.freebsd/compat/strptime.c:620-696 | the code after the loop equals DeriveSpec; the month search in it is the bounded one (see Findings) |
| StrptimeEngine.DeriveCalendar | src.freebsd/compat/strptime.c:666-694 | the calendar phase equals CalendarPhase; the month search in it is the bounded one (see Findings) |
| StrptimeEngine.DeriveMonth | src.freebsd/compat/strptime.c:667-682 | the month step equals MonthFrom applied to the bounded search |
| StrptimeEngine.DeriveYday | src.freebsd/compat/strptime.c:633-664 | the day-of-year step equals YdayPhase |
| StrptimeEngine.DeriveDays | src.freebsd/compat/strptime.c:683-693 | the day-of-month and weekday step equals DayPhase |
| StrptimeFacts.StepShift | src.freebsd/compat/strptime.c:108-110 | one turn of the loop reads the format only from its position on |
| StrptimeFacts.ScanShift | src.freebsd/compat/strptime.c:108-110 | dropping the part of the format already walked does not change the result |
| StrptimeFacts.ParseLiteral | src.freebsd/compat/strptime.c:112-119 | an ordinary format character must equal the next input character, otherwise the result is NULL |
| StrptimeFacts.ParseSpace | src.freebsd/compat/strptime.c:113-116 | a whitespace format character skips any run of input whitespace, an empty one included |
| StrptimeFacts.ParseUnknown | src.freebsd/compat/strptime.c:617-618 | a conversion letter the switch does not name gives NULL |
| StrptimeFacts.ParseEmpty | src.freebsd/compat/strptime.c:108-110 | an empty format consumes nothing and leaves tm and the GMT flag alone |
| StrptimeFacts.NumberDigits | src.freebsd/compat/strptime.c:229-231 | a number takes only digits, at most the width, at least one when a digit is there, and stops before a digit only at the width |
| StrptimeFacts.CenturyDigits | src.freebsd/compat/strptime.c:143-159 | %C accepts exactly when a digit follows, reads up to two of them and marks the year given |
| StrptimeFacts.MonthRange | src.freebsd/compat/strptime.c:482-499 | %m accepts exactly 1..12 and stores the month from 0, changing nothing else |
| StrptimeFacts.MdayRange | src.freebsd/compat/strptime.c:406-441 | %d and %e accept exactly 1..31, %e after one whitespace character |
| StrptimeFacts.YdayRange | src.freebsd/compat/strptime.c:225-242 | %j accepts exactly 1..366 and stores the day of the year from 0 |
| StrptimeFacts.HourRange | src.freebsd/compat/strptime.c:273-310 | %H and %k accept exactly 0..23, %I and %l accept exactly 1..12; %k and %l after a blank read one digit |
| StrptimeFacts.MinSecRange | src.freebsd/compat/strptime.c:244-271 | %M accepts 0..59 and %S 0..60; the end of input or whitespace lets them pass unchanged |
| StrptimeFacts.WeekRange | src.freebsd/compat/strptime.c:360-389 | %U and %W accept exactly 0..53 and record Sunday or Monday as the first day of the week |
| StrptimeFacts.WdayRange | src.freebsd/compat/strptime.c:391-404 | %u accepts exactly 1..7 and %w exactly 0..6; both store the weekday from Sunday as 0, so 7 is Sunday |
| StrptimeFacts.YearDigits | src.freebsd/compat/strptime.c:525-547 | %Y %y pass unchanged at the end of input or before whitespace and fail on any other non-digit; on digits %Y splits up to four into century and year within it, %y keeps the century, and only century, year and the year flag change |
| StrptimeFacts.DaySearchFirst | src.freebsd/compat/strptime.c:342-351 | the day search finds nothing exactly when no day's full or abbreviated name starts the input, and otherwise the first day that matches, with the full name tried first |
| StrptimeFacts.DayName | src.freebsd/compat/strptime.c:340-358 | %A and %a fail exactly when no day name matches; otherwise they store the first matching day, mark the weekday given and consume its name |
| StrptimeFacts.FullMonthFirst | src.freebsd/compat/strptime.c:446-460 | the full-name loop finds the first month whose full name matches, and with O only for %B |
| StrptimeFacts.AbMonthFirst | src.freebsd/compat/strptime.c:465-472 | the abbreviation loop finds the first month whose abbreviated name matches |
| StrptimeFacts.MonthName | src.freebsd/compat/strptime.c:443-480 | %B %b %h fail exactly when no full name matches and, without O, no abbreviation does; the full name wins, else the first abbreviation |
| StrptimeFacts.AmPmClock | src.freebsd/compat/strptime.c:312-338 | %p refuses an hour over 12 or no AM/PM match; AM maps 1..12 into 0..11 and PM into 12..23, keeping the hour modulo 12; an hour below 1 is kept by AM and moved on by 12 by PM; only the hour changes |
| StrptimeFacts.ZoneDigitsForm | src.freebsd/compat/strptime.c:589-600 | %z accepts HHMM, or HH with no third digit after it, and fails exactly otherwise |
| StrptimeFacts.ZoneOffset | src.freebsd/compat/strptime.c:577-609 | an accepted %z has a sign and HHMM or HH, subtracts the signed hours and minutes read from the input, sets GMT and changes nothing else, and lies between -12:00 and +14:00 with fewer than 60 minutes |
| StrptimeFacts.ZoneAccepts | src.freebsd/compat/strptime.c:577-609 | %z fails without a sign or without HHMM/HH digits; with them it is accepted exactly when the offset is at most 1400 (1200 for '-') with minutes below 60, and then gives the new hour, minute and GMT flag |
| StrptimeFacts.YearPivot | src.freebsd/compat/strptime.c:625-627 | without a century, a two-digit year below 69 is in the 2000s and any other in the 1900s |
| StrptimeFacts.YearWithCentury | src.freebsd/compat/strptime.c:622-629 | with a century, the year is the century's hundreds plus the year within it, none counting as 0 |
| StrptimeFacts.YearRoundTrip | src.freebsd/compat/strptime.c:541-543 | splitting a %Y value into century and year and assembling them gives it back |
| StrptimeFacts.SearchInside | src.freebsd/compat/strptime.c:669-672 | for a day inside a row that starts at 0, the search stops inside the row at the first entry above it |
| StrptimeFacts.MonthOfYday | src.freebsd/compat/strptime.c:669-686 | for a day inside the year, the search stops one past the month that contains it, and the day of the month is inside that month |
| StrptimeFacts.SearchPast | src.freebsd/compat/strptime.c:669-672 | from any index up to the month containing yday, the search arrives one past that month |
| StrptimeFacts.MonthRoundTrip | src.freebsd/compat/strptime.c:633-686 | the day of the year a date gives leads the search back to that month and day |
| StrptimeFacts.WeekdayContinues | src.freebsd/compat/strptime.c:673-692 | a day counted past the end of a year falls on the same weekday as that many days into the next year |
| StrptimeFacts.KnownNewYears | src.freebsd/compat/strptime.c:79-86 | first_wday_of gives Thursday for 1970, Saturday for 2000, Wednesday for 2020 and Friday for 2021 |
| StrptimeFacts.DeriveFromDate | src.freebsd/compat/strptime.c:633-692 | year, month and day of the month give the day of the year from the table and, unless given, the weekday from Gauss's formula |
| StrptimeFacts.WeekDay | src.freebsd/compat/strptime.c:639-663 | %U/%W week 0 is refused when the year starts on the first day of the week; in week 0 otherwise, a given weekday before 1 January is refused and without one the day is 1 January, and the day of the year is stated exactly; on success only the day of the year changes and is never negative; from week 1 it lies in that week and on the weekday given, or on the first day of the week |
| StrptimeFacts.DeriveShape | src.freebsd/compat/strptime.c:633-694 | with the day of the year given, the derivation goes straight to the calendar phase |
| StrptimeFacts.MonthStep | src.freebsd/compat/strptime.c:667-681 | inside the year, the month is the search index minus one |
| StrptimeFacts.WrapStep | src.freebsd/compat/strptime.c:673-681 | past the end of the year, the date moves to January of the next year, the day of the year reduced by the year's length |
| StrptimeFacts.DayPhaseFacts | src.freebsd/compat/strptime.c:683-693 | a missing day of the month is counted from the start of the month, a missing weekday from Gauss's formula |
| StrptimeFacts.MonthInside | src.freebsd/compat/strptime.c:669-672 | for a day inside the year, the search stops between 1 and 12 |
| StrptimeFacts.DayAfterSearch | src.freebsd/compat/strptime.c:680-693 | after the search, the day of the month counts from the start of the month found |
| StrptimeFacts.CalendarFromYday | src.freebsd/compat/strptime.c:666-694 | the calendar phase sets month, day of the month and weekday and nothing else |
| StrptimeFacts.CalendarDate | src.freebsd/compat/strptime.c:666-694 | the date found lies in the year, its day lies inside its month, and it gives back the day of the year |
| StrptimeFacts.DeriveFromYday | src.freebsd/compat/strptime.c:620-696 | year and day of the year give the month that contains the day, the day inside it that gives back the day of the year, and the weekday |
| StrptimeFacts.CalendarWrap | src.freebsd/compat/strptime.c:673-693 | a day past the end of the year becomes that many days into January of the next year |
| StrptimeFacts.DeriveWrap | src.freebsd/compat/strptime.c:666-694 | past the end of the year, the date is carried into January of the next year on the right weekday |
| StrptimeExamples.CommonYearOverrun | src.freebsd/compat/strptime.c:669-672 | day 366 of 2021 makes the search as written read past the row |
| StrptimeExamples.DayPastCommonYear | src.freebsd/compat/strptime.c:620-696 | century 20, year 21 and day of the year 365 derive 1 January 2022, a Saturday |
| StrptimeExamples.Digits2021 | src.freebsd/compat/strptime.c:534-540 | %Y reads 2021 from "2021 366" |
| StrptimeExamples.Digits366 | src.freebsd/compat/strptime.c:229-231 | %j reads 366 |
| StrptimeExamples.YearStep | src.freebsd/compat/strptime.c:525-547 | %Y splits 2021 into century 20 and year 21 |
| StrptimeExamples.YdayStep | src.freebsd/compat/strptime.c:225-242 | %j with 366 stores day of the year 365 |
| StrptimeExamples.ParseDay366 | src.freebsd/compat/strptime.c:88-697 | "%Y %j" on "2021 366" consumes the input and gives 1 January 2022, a Saturday, with the other tm fields left alone |

## Left out

- Memory mapping in rlines() (maparound, mapprint, munmap) is not modelled. The file is one byte sequence, so the mapping failures and the exit(1) after mapprint are not modelled.
- bytes() and lines() in read.c are not part of this model. forward() delegates to them, and the model records a `Delegated` event, drains the stream and takes their status as a parameter.
- Output errors (putchar returning EOF, oerr) and fflush are not modelled; standard output always accepts bytes.
- The text printfn and ierr write is not modelled; a header and a read error are events naming the file.
- follow()'s endless loop and usleep: the model proves one iteration (`Follower.Iterate`) and the preamble (`Follower.Start`), and the invariant `Tracks` that every iteration keeps.
- fileargs_fopen, fstat and errno are values given to each iteration: one `Open` per file, `Got(handle, stat)` or `Gone(enoent)`.
- The cached Stat: the model needs the size in it to be the stream's own size (`Describes`), since forward() is called with the fstat of the stream.
- fclose of the probe handle is not modelled; only the handles the files keep are tracked.
- %c %x %X %r %+ (nl_langinfo formats), %Z (time zone names, tzset) and %s (strtol and localtime): the model answers `Unmodelled(c)` instead of parsing them.
- strptime_bsd and strptime, the wrappers around _strptime (they convert the GMT flag through timegm and localtime_r), are not modelled.
- Locale: isspace, isdigit and tolower are ASCII as in the C locale. The locale's strings are a parameter.
- When _strptime returns NULL after it already wrote some tm fields, the model answers `Null` without those partial writes.
- int overflow is not modelled: numbers, years and days of the year are unbounded.
- `Undefined` is a guard the parser never reaches: the functions that index `start_of_month` by tm_mon do so only when the month flag is set, and only a conversion storing 0..11 or the month search sets it, so the index is always in range. The model keeps the guard, which in C would be an out-of-range read, but does not prove it unreachable; likewise a negative tm_yday never reaches the table. The month search is different: `ParseSpec`, `DeriveSpec`, `CalendarPhase` and the engine's `Parse`, `Derive`, `DeriveCalendar` and `FindMonth` use the bounded search `SearchFrom`, that is the corrected code of the second finding. The unbounded search as written is `SearchAsWritten`.
- A followed file does not grow: a stream's data is fixed, and new data reaches the model only through a new `Open` value of the -F pass. The growth of a file between iterations, and the stdio end-of-file flag that stays set until show()'s clearerr, are left to the caller of `Follower.Iterate`.
- TailForward.Delegate: the model lets bytes() or lines() succeed on a stream whose reads fail at their end, which then also gets a read-error report. In C they return non-zero on ferror, so forward() never reaches that report; the status parameter is the caller's to choose consistently.
- tm_isdst and the other tm fields the core never writes are not in `Tm`; tm is returned as a value, not written through a pointer.
- Strptime.CenturyConv, YdayConv, MinSecConv, HourConv, WeekConv, WdayConv, MdayConv, MonthConv, YearConv, NumConv, DaySearch, FullMonthSearch, AbMonthSearch, MonthSearch, NameConv, AmPm, ZoneDigits, Zone, ScanSpec and ParseSpec: their own ensures only bound the input position. What each accepts and stores is the contract of the StrptimeFacts lemma named after it in the table.
- Spec functions whose own ensures only bound their result, with the lemmas in the table that carry their meaning: Strptime.AssembleYear (strptime.c:622-631; YearPivot, YearWithCentury, YearRoundTrip), WeekYday (639-663; WeekDay), YdayPhase (633-664; DeriveFromDate, WeekDay, DeriveShape), MonthFrom (673-681; MonthStep, WrapStep), DayPhase (683-693; DayPhaseFacts, DayAfterSearch), CalendarPhase (666-694; CalendarFromYday, CalendarDate, CalendarWrap, DeriveFromYday), CompositeStep (167-210; only StrptimeEngine.Step, since the nested call is ParseSpec on the expansion itself and no separate lemma relates %D, %F, %R or %T to their expansions), TailFollow.FollowIteration (forward.c:281-333; IterationKeepsTrack, Follower.Iterate) and ShowEvents (forward.c:234-243; ShowHeaderRule, ShowPayload, CopyRest).

## Findings

| source | as written | input that shows it | evidently intended | confidence | as-written member | corrected member |
|---|---|---|---|---|---|---|
| src.freebsd/coreutils/tail/forward.c:279 | `last = --file` points last at the final element of the array, whether or not that file is open and was positioned | `tail -F -c +0 a b` where a is an empty file and b does not exist yet: the preamble writes `==> a <==`, then b appears and its bytes are shown under a's header | last names the file whose header was written last, that is the last file positioned | not executed | TailFollow.StartAsWritten, TailFollow.StartLastCounterexample | TailFollow.StartSpec, TailFollow.Follower.Start, TailFollow.StartTracks |
| src.freebsd/compat/strptime.c:669-672 | the month search reads `start_of_month[leap][i]` with no bound on i, so a day of the year at or past the length of the year reads beyond the row; lines 673-679 then expect `i > 12` | `_strptime("2021 366", "%Y %j", ...)`: tm_yday 365 in a common year reads `start_of_month[0][13]`; `%Y %U %w` on "2020 53 6" in a leap year reads beyond the whole array | the search stops at index 13, and lines 673-679 carry the date into 1 January of the next year | not executed | StrptimeCalendar.SearchAsWritten, StrptimeExamples.CommonYearOverrun | StrptimeCalendar.SearchFrom, StrptimeEngine.FindMonth, StrptimeFacts.DeriveWrap, StrptimeExamples.ParseDay366 |
