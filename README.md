# Hourly rotating CSV store — Dafny model

This project models the store subscriber of a radar telemetry pipeline
(`subscribers/store/main.go`). The subscriber receives gzip-compressed
batches of CSV records from a message broker. It keeps the records of
the radar it is configured for and appends each record to an hourly file
named `fr-YYYYMMDD_HH00.csv`. A file is written under a `.tmp` name. When
a record arrives whose timestamp reaches the end of the current hour, the
program means to rename the open file to its final name and open the next
one. As written, the rename always targets the startup window's file, so
only that file is ever finalized and the second roll-over into a new hour
ends the process (see the paragraph on `main.go:313` below and Findings).

The model covers:

- `genFileName`: a UTC instant becomes the calendar hour it starts, then
  the file name. The calendar conversion is written out (days since
  1970-01-01 to year, month and day). It always gives a valid date of the
  proleptic Gregorian calendar. It is proved to be a bijection between day
  numbers and valid dates, so distinct hours get distinct names.
- `nextRollOver`: the hour holding a clock reading, as epoch milliseconds.
  The wall clock is a sequence of readings `clock(0), clock(1), …`. Each
  call of `nextRollOver` consumes one reading.
- The per-line step. A line is split on `,`, and a line with a single
  field is skipped. The second field is parsed with `strconv.ParseInt`,
  modelled after Go's own digit loop, including the value it returns
  together with an error. When the timestamp reaches `nextRoll`, the
  writer rolls over: close, rename, clock reading, new name, open. The
  line is then appended with one `"\n"`.
- The receive loop: the `id` property filter, decompression, the
  per-line loop and the acknowledgement of each message.
- `consume`, the unused duplicate of the loop body, as a method that
  opens a fresh file and runs the same step.

The file system is a map from path to content. Opening in append/create
mode keeps existing content. A rename fails when its source is missing.
Closing only marks the handle closed. `log.Fatal` and a panic end the
process: the state records `exited`, and nothing happens after it.

The writer is modelled twice:

- as step functions on a `WriterState` value, where the properties are
  proved (`Writer`, `WriterLemmas`, `Ingest`);
- as classes whose fields the methods update in place
  (`Writer.RotatingWriter`, `Ingest.Subscriber`). Their methods are
  proved to perform exactly those steps.

The model follows the program as written, including the shadowed
`fullpath` at `main.go:313`. Because of it, the path renamed at every
roll-over stays the startup path (see Findings). The corrected step is
modelled separately in `Findings`.

Three behaviours of the program deserve a note:

- A payload on which `gzip.NewReader` fails yields a nil reader, and
  `ioutil.ReadAll` on it panics, so the process ends. The message is
  neither skipped nor acknowledged.
- A record whose timestamp does not parse is still written, with the
  value `ParseInt` returned (0 for a syntax error). Only the error is
  logged; the record is not dropped.
- The `id` filter is always applied. A message without an `id` property
  matches only an empty configured radar id, because a missing map key
  reads as `""`.

## Model

| member | source | states |
|---|---|---|
| Calendar.CivilFromDays | subscribers/store/main.go:43-46 | the date of a day number is a valid Gregorian date: month 1..12, day between 1 and the month's length, February having 29 days exactly in leap years |
| Calendar.DaysCivilRoundTrip | subscribers/store/main.go:43-46 | turning a day number into year, month and day and back gives the same day number, for every day |
| Calendar.CivilDaysRoundTrip | subscribers/store/main.go:43-46 | turning a valid date into its day number and back gives the same date, so the conversion is onto the valid dates |
| Decimal.NatToString | subscribers/store/main.go:49-66 | strconv.Itoa of a non-negative value is a non-empty digit string without a leading zero (except "0") |
| Decimal.Itoa | subscribers/store/main.go:49-66 | strconv.Itoa, the year and the two-digit fields of the file name; its digits read back to the number (DigitsValueOfNatToString) and ParseInt reads every int64 back (ParseIntItoa) |
| Decimal.DigitsValueOfNatToString | subscribers/store/main.go:49-66 | reading back the digits strconv.Itoa writes gives the number |
| Decimal.ParseUintFrom | subscribers/store/main.go:284 | the digit loop returns a value at least its start and at most MaxUint64 when it succeeds, MaxUint64 on overflow and 0 on a syntax error |
| Decimal.ParseUintFromDigits | subscribers/store/main.go:284 | on a digit string the loop returns the string's value when it fits in 64 bits and the range error with MaxUint64 otherwise |
| Decimal.ParseUint | subscribers/store/main.go:284 | strconv.ParseUint(s, 10, 64) as ParseInt calls it: an empty string is a syntax error, otherwise the digit loop, whose results ParseUintFrom, ParseUintFromDigits and ParseUintFromNonDigit state |
| Decimal.ParseUintFromNonDigit | subscribers/store/main.go:284-287 | a string holding a non-digit never parses without an error |
| Decimal.ParseInt | subscribers/store/main.go:284-287 | strconv.ParseInt(s, 10, 64) always returns a value within int64, 0 with a syntax error, and with a range error the bound of the sign: MinInt64 after a `-`, MaxInt64 otherwise |
| Decimal.ParseIntDigits | subscribers/store/main.go:284-287 | on a digit string ParseInt returns its value when it is at most MaxInt64, and MaxInt64 with a range error otherwise |
| Decimal.ParseIntSignedDigits | subscribers/store/main.go:284-287 | a `+` or `-` followed by digits parses to the signed value when it fits in int64, and otherwise to MaxInt64 or MinInt64 with a range error |
| Decimal.ParseIntOkIsNumeral | subscribers/store/main.go:284-287 | ParseInt succeeds only on an optional sign followed by at least one digit and nothing else, and then returns their signed value |
| Decimal.ParseIntTrailingNonDigit | subscribers/store/main.go:284-287 | "12x" and "1.5" are syntax errors with value 0 |
| Decimal.ParseUintFromConcat | subscribers/store/main.go:284 | the digit loop on two strings joined continues from the value the first reached, or keeps the first one's error |
| Decimal.DigitsThenNonDigit | subscribers/store/main.go:284-291 | a field of digits followed by a non-digit, such as "1677999600000.0", gives 0 with a syntax error when the digits fit in 64 bits and MaxInt64 with a range error when they do not |
| Decimal.ParseIntNoLeadingDigit | subscribers/store/main.go:284-287 | an empty field, or one that has no digit after an optional sign, gives 0 with a syntax error |
| Decimal.ParseIntItoa | subscribers/store/main.go:284 | every int64 written by strconv.Itoa parses back to itself without error |
| Text.Split | subscribers/store/main.go:272-275 | strings.Split yields at least one field and no field holds the separator |
| Text.JoinSplit | subscribers/store/main.go:272-275 | joining the fields of a split with the separator gives back the input: splitting loses and reorders nothing |
| Text.SplitJoin | subscribers/store/main.go:272-275 | splitting a join of separator-free fields gives back the fields |
| Text.SingleFieldIffNoSeparator | subscribers/store/main.go:275-280 | a split has exactly one field if and only if the separator does not occur |
| Rollover.NextRollOver | subscribers/store/main.go:73-87 | the window holds the reading: start <= now < close, close = start + 3600000 ms, start is on an hour boundary |
| Rollover.WindowIsTruncation | subscribers/store/main.go:76-83 | the window start is the only hour boundary within an hour at or before the reading, i.e. the reading truncated to the UTC hour |
| Rollover.NextRollOverMonotone | subscribers/store/main.go:73-87 | a later reading never gives an earlier window start or roll-over time |
| Rollover.StampOf | subscribers/store/main.go:43-46 | the calendar fields of an instant have month 1..12, a day within that month of that year, and hour 0..23 |
| Rollover.StampStartOf | subscribers/store/main.go:43-46 | the calendar hour of an instant begins at the instant truncated to the hour |
| Rollover.Pad2TwoDigits | subscribers/store/main.go:49-64 | month, day and hour are written as exactly two digits whose value is the number |
| Rollover.GenFileName | subscribers/store/main.go:41-69 | genFileName: "fr-", the year, the padded month, day and hour, "00.csv"; DecodeGenFileName, GenFileNameInjective and GenFileNameExample state what it produces |
| Rollover.DecodeGenFileName | subscribers/store/main.go:41-69 | every generated name decodes back to the year, month, day and hour of its window: "fr-", the year, two-digit month, day and hour, "00.csv" |
| Rollover.GenFileNameInjective | subscribers/store/main.go:41-69 | two hour-aligned instants with the same file name are equal |
| Rollover.StampOfExample | subscribers/store/main.go:43-46 | 1677999600000 ms is 2023-03-05 hour 7 |
| Rollover.GenFileNameExample | subscribers/store/main.go:41-69 | the window starting at 1677999600000 ms is named fr-20230305_0700.csv |
| Disk.Rename | subscribers/store/main.go:294-297 | os.Rename succeeds exactly when the source exists; the target then holds the source's content, the source is gone and other files are unchanged |
| Disk.OpenAppend | subscribers/store/main.go:235 | os.OpenFile with O_APPEND and O_CREATE: a missing file is created empty, an existing one keeps its content (StartOpensStagingFile, StepRollOver) |
| Disk.Append | subscribers/store/main.go:321 | File.WriteString on a file opened for appending adds the text after the content (StepWithinWindow, StepRollOver) |
| Writer.FullPath | subscribers/store/main.go:234 | filepath.Join of the configured directory and the file name; a staging path is never a final path (TmpPathIsNotFinal) and distinct windows get distinct staging paths (TmpPathsDiffer) |
| Writer.Start | subscribers/store/main.go:231-238 | the state before the receive loop: the first clock reading's window and its staging file opened; StartOpensStagingFile states it |
| Writer.Roll | subscribers/store/main.go:292-317 | the roll-over block: close, rename of the startup staging file, clock reading, new name and staging file; RollRenamesStartFile and StepRollOverFails state it |
| Writer.StepLine | subscribers/store/main.go:274-321 | the step for one line; StepSkipsLineWithoutComma, StepWithinWindow, StepRollOver, StepRollOverFails, StepRollsIff and StepLineInvariant state it |
| Writer.StepLines | subscribers/store/main.go:272-323 | the loop over the lines of a payload; StepLinesInvariant, StepLinesWritesKeptLines and StepLinesWritesPrefix state it |
| Writer.RotatingWriter.constructor | subscribers/store/main.go:231-238 | the writer starts in the window of the first clock reading, with that window's staging file opened for appending |
| Writer.RotatingWriter.WriteLine | subscribers/store/main.go:274-321 | one iteration of the line loop updates the fields exactly as the step function says, with the block-local `fullpath` leaving the renamed path unchanged |
| Writer.RotatingWriter.RollOver | subscribers/store/main.go:291-318 | the roll-over block updates the fields exactly as the roll-over function says: close, rename of the outer `fullpath`'s staging file (the process ends when it fails), one clock reading, new window and name, and the new staging file opened through a block-local path |
| Writer.RotatingWriter.WriteLines | subscribers/store/main.go:272-323 | the line loop performs the steps for all lines in order and stops early only once the process has ended |
| Writer.Consume | subscribers/store/main.go:89-168 | consume opens a fresh writer for the current window and runs the same steps over the lines of its argument |
| Writer.StepLinesAfterExit | subscribers/store/main.go:295-297 | once log.Fatal has ended the process, later lines change nothing |
| WriterLemmas.KeptIffComma | subscribers/store/main.go:275-280 | a line is written if and only if it contains a comma |
| WriterLemmas.TimestampOfItoa | subscribers/store/main.go:282-284 | a line whose second field is the decimal form of n has timestamp n, whatever its other fields |
| WriterLemmas.TmpPathIsNotFinal | subscribers/store/main.go:234-235 | a staging path never equals a final file path |
| WriterLemmas.TmpPathsDiffer | subscribers/store/main.go:313-314 | different windows have different staging paths |
| WriterLemmas.StartOpensStagingFile | subscribers/store/main.go:231-238 | startup keeps what an earlier run left in the staging file, touches no other file, and establishes the writer invariant |
| WriterLemmas.StepSkipsLineWithoutComma | subscribers/store/main.go:275-280 | a line without a comma changes nothing |
| WriterLemmas.StepWithinWindow | subscribers/store/main.go:291-321 | a timestamp below nextRoll appends the line and one newline to the open file; window, name and handle are unchanged |
| WriterLemmas.StepRollOver | subscribers/store/main.go:291-321 | at or after nextRoll the startup staging file is renamed, the new window comes from the next clock reading rather than the record, the line is the first thing in the new staging file when that file was absent or was the renamed one, and follows its earlier content otherwise, and every other file is unchanged |
| WriterLemmas.RollRenamesStartFile | subscribers/store/main.go:292-318 | the roll-over alone renames the startup staging file to the startup path and opens the staging file of the next clock reading's window, empty when it was absent or was the renamed file and keeping its content otherwise, and changes no other file |
| WriterLemmas.StepRollOverFails | subscribers/store/main.go:293-297 | when the staging file to rename is gone the process ends without writing the line |
| WriterLemmas.StepRollsIff | subscribers/store/main.go:291 | the writer rolls over (reads the clock or ends) if and only if the timestamp is at least nextRoll, so a timestamp equal to nextRoll rolls |
| WriterLemmas.StepUnparsableTimestamp | subscribers/store/main.go:284-291 | a timestamp with a syntax error is not dropped: with a positive nextRoll the line is appended to the open file without a roll-over |
| WriterLemmas.StepLineInvariant | subscribers/store/main.go:274-321 | every step keeps the writer invariant and never goes back on a clock reading |
| WriterLemmas.StepLinesInvariant | subscribers/store/main.go:274-323 | the invariant holds after any sequence of lines, and the renamed path stays the startup path |
| WriterLemmas.NextRollNeverDecreases | subscribers/store/main.go:299 | with a clock that never runs backwards, nextRoll and the window start never decrease |
| WriterLemmas.StepLinesWritesKeptLines | subscribers/store/main.go:274-323 | unless the process ends, exactly the lines with a comma are written, in order, unchanged, each followed by one newline |
| WriterLemmas.StepLinesWritesPrefix | subscribers/store/main.go:274-323 | also when the process ends, what is written is the lines with a comma among some first lines, in order, unchanged, each followed by one newline |
| Ingest.Subscriber.constructor | subscribers/store/main.go:231-238 | the receive loop starts with the startup writer and no acknowledgements |
| Ingest.PropertyId | subscribers/store/main.go:261 | props["id"], "" for a missing key (MissingIdMatchesOnlyEmptyRadarId) |
| Ingest.Process | subscribers/store/main.go:255-327 | one iteration of the receive loop; FilteredMessageOnlyAcked and ProcessExitWrites state it |
| Ingest.ProcessAll | subscribers/store/main.go:254-328 | the receive loop over a sequence of messages; AcksEveryMessageOnce, ProcessAllWrites and ProcessAllWritesPrefix state it |
| Ingest.Subscriber.Receive | subscribers/store/main.go:255-327 | one message is filtered on its id, decompressed, written line by line and acknowledged, or ends the process, as the step function says |
| Ingest.Subscriber.Run | subscribers/store/main.go:254-328 | the receive loop processes the messages in order until the process ends |
| Ingest.ProcessAllAfterExit | subscribers/store/main.go:295-297 | after the process has ended, later messages change nothing |
| Ingest.FilteredMessageOnlyAcked | subscribers/store/main.go:261-327 | a message for another radar is acknowledged and writes nothing |
| Ingest.MissingIdMatchesOnlyEmptyRadarId | subscribers/store/main.go:261 | a message without an id property is processed if and only if the configured radar id is empty |
| Ingest.AcksEveryMessageOnce | subscribers/store/main.go:254-328 | the acknowledgements are a prefix of the messages, in order, each once; all are acknowledged if and only if the process has not ended |
| Ingest.ProcessAllWrites | subscribers/store/main.go:261-327 | unless the process ends, the lines written are exactly the comma-holding lines of the matching messages, in arrival order |
| Ingest.ProcessExitWrites | subscribers/store/main.go:261-327 | one message, whether or not it ends the process, only adds to the writes, and adds a prefix of the comma-holding lines it holds when it matches |
| Ingest.ProcessAllWritesPrefix | subscribers/store/main.go:254-328 | also when the process ends, the lines written extend those of the acknowledged messages and are a prefix of those of all messages: a message is acknowledged only after all its lines are written |
| Ingest.ProcessInvariant | subscribers/store/main.go:255-327 | one message keeps the writer invariant and never goes back on a clock reading |
| Ingest.ProcessAllInvariant | subscribers/store/main.go:254-328 | the writer invariant, including the renamed path staying the startup path, holds after any sequence of messages |
| Ingest.ProcessAllNextRollNeverDecreases | subscribers/store/main.go:254-328 | with a clock that never runs backwards, nextRoll and the window start never decrease across messages |
| Findings.ShadowedSecondRollOverExits | subscribers/store/main.go:294-313 | as written, a roll-over into a second new window renames the already renamed startup staging file and ends the process |
| Findings.ShadowingExample | subscribers/store/main.go:294-313 | with the clock at 00:00 and then 01:00, a payload stamped 01:00 and 02:00 ends the process after writing one line |
| Findings.StartReach | subscribers/store/main.go:231-238 | startup is a reachable state |
| Findings.StepReach | subscribers/store/main.go:274-321 | as written, every step keeps the invariant and, once the open file belongs to a window other than the startup one, the startup staging file stays absent |
| Findings.StepLinesReach | subscribers/store/main.go:272-323 | the same over any sequence of lines |
| Findings.ProcessReach | subscribers/store/main.go:255-327 | the same over one message, whatever its id and payload |
| Findings.ProcessAllReach | subscribers/store/main.go:254-328 | the same over any sequence of messages, so every state of the receive loop is reachable in this sense |
| Findings.MovedRollOverExits | subscribers/store/main.go:291-297 | as written, in every reachable state whose open file is not the startup window's, a line reaching nextRoll renames the missing startup staging file and ends the process, writing nothing and touching no file |
| Findings.RollCorrectedRenamesOpenFile | subscribers/store/main.go:293-317 | with `fullpath` assigned, the roll-over renames the open staging file to its own final name, removes it unless the next window is the same, keeps the content of an existing staging file of a different next window, and changes no other file |
| Findings.CorrectedRollOverPublishesOpenFile | subscribers/store/main.go:291-321 | with `fullpath` assigned, the content of the open file is published under its window's name, the old staging file is gone, the line is the whole content of the next staging file when that file was absent or was the open one and follows its earlier content otherwise, and no other file changes |
| Findings.CorrectedStepTracks | subscribers/store/main.go:291-321 | with `fullpath` assigned, one step never ends the process and keeps `fullpath` on the open window |
| Findings.CorrectedNeverExits | subscribers/store/main.go:274-323 | with `fullpath` assigned, no sequence of lines ends the process |
| Findings.StartTracks | subscribers/store/main.go:231-238 | startup satisfies the corrected invariant |
| Scenario.SplitOneLine | subscribers/store/main.go:272 | a newline-terminated line splits into the line and an empty last field |
| Scenario.SplitTwoLines | subscribers/store/main.go:272 | two newline-terminated lines split into both lines and an empty last field |
| Scenario.Timestamps | subscribers/store/main.go:275-284 | the sample records are kept and carry timestamps 1000, 1001 and 3600000 |
| Scenario.FirstPayload | subscribers/store/main.go:274-321 | a payload of two records before nextRoll appends both, in order, to the open file |
| Scenario.SecondPayload | subscribers/store/main.go:291-321 | a payload with one record at nextRoll finalizes the open file and starts the new staging file with the record |
| Scenario.TwoMessages | subscribers/store/main.go:231-321 | two records of the first hour then one of the next: the first hour's file holds the first two records and the next staging file begins with the third |
| Scenario.EndToEnd | subscribers/store/main.go:231-321 | the payloads "A,1000,x\nA,1001,y\n" then "A,3600000,z\n" leave the file of the 00:00 window holding exactly the first payload, and the staging file of the 01:00 window holding exactly the second |

## Left out

- The broker client, the subscription and the buffered channel (`main.go:203-228`) are left out. The stream is a sequence of messages, each a property map and a payload, and an acknowledgement is an appended event.
- gzip decompression (`main.go:264-267`) is a parameter `inflate`: `None` when `gzip.NewReader` fails, otherwise whatever `ioutil.ReadAll` returned.
- Ingest.Process: `string(result)` turns bytes into a Go string, and the model splits a sequence of characters instead. This does not change what is split or written, because `"\n"` and `","` are single bytes in UTF-8 and never occur inside a multi-byte character.
- Configuration loading, log-level selection and all logging (`main.go:181-200`) are left out; none of them changes state.
- The `time.Now()` calls made only for debug output (`main.go:103`, `147`, `244`, `304`) consume no clock reading, since their values are only logged.
- Writer.RotatingWriter.WriteLine: a failing `os.OpenFile` (the panics at `main.go:236-238` and `315-317`) is not modelled. Opening in append/create mode always succeeds in the model.
- Writer.RotatingWriter.WriteLine: errors of `File.WriteString` and `File.Close`, which the program ignores, are not modelled. Writing always succeeds.
- File permission bits (0644 at startup, 0600 after a roll-over), fsync and durability are left out.
- Writer.FullPath: `filepath.Join` also cleans the path (`..`, repeated `/`). The model joins a non-empty directory and a name with one `/` and does not clean.
- Rollover.NextRollOver: the int64 overflow of `UnixNano()` outside the years 1678–2262 is not modelled. Instants are unbounded integers of milliseconds.
- Disk: a file is one string, not a list of lines. Every write appends a line ending in `"\n"`, so the two agree.
- The display-only subscriber (`subscribers/dumper/main.go`) and the publisher (`publisher/pulsar.go`) are not part of this model.

## Findings

| source | as written | input that shows it | evidently intended | confidence | as-written member | corrected member |
|---|---|---|---|---|---|---|
| subscribers/store/main.go:313 | `fullpath := …` declares a new variable inside the roll-over block. The rename at `main.go:294` keeps using the startup path, and the same happens in `consume` at `main.go:156` | The clock reads 00:00, then 01:00 on 1970-01-01. A payload holds `a,3600000` then `b,7200000`. The first roll-over renames the startup staging file. The second renames it again, `os.Rename` fails and `log.Fatal` ends the process. In general, in every state the receive loop reaches, once a roll-over has opened a window other than the startup one, the next roll-over, in the same message or a later one and after any number of lines in between, ends the process. In a live run, this happens at the second hourly roll-over | `fullpath = …`, so that each roll-over renames the file that is open | high, not executed | Findings.MovedRollOverExits | Findings.CorrectedNeverExits |
