# sitt — a verified model of the day planner core

sitt keeps one day as a list of entries. Each entry is a half-open minute
interval `[from, to)` with a name. A name of `""` marks free time. A new
day is a single unnamed entry covering `[0, 1440)`. Inserting an entry
clamps it to the day. It then crops or splits the entries it overlaps and
removes the entries it covers. A one-line command such as
`work from 15:00 to 16:30` or `then work for 15m` is turned into such an
entry.

The Dafny model has these modules:

- `Int64` (`int64.dfy`) models Go's 64-bit `int`: wrap-around of `+`, `-` and `*`, and truncating `/` and `%`.
- `Text` (`text.dfy`) models the library behaviour the core relies on:
  - `strconv.Atoi`;
  - `%d` and `%02d`;
  - `strings.Cut`;
  - `strings.Fields`, which reads back what `Join` writes;
  - counting line breaks.
- `Day` (`day.dfy`) holds the entry type shared by both packages and the invariant of a day (`Tiles`: the entries cover `[0, 1440)` in order, without gaps or overlaps). It also holds:
  - the reference definition of insertion, `Inserted` (clamp, keep what lies before the new interval, the new entry, then what lies after it), with its lemmas;
  - `FilledTo`;
  - `Clock` (`Minute.String`).
- `Engine` (`engine.dfy`) holds the imperative `Insert` algorithm and the `FilledUpTo` loop, each proved equal to its reference definition. `schedule.go` and `timetable.go` carry the same code, so both classes call these methods.
- `Schedule` (`schedule.dfy`) holds the class `Schedule` and its text view: `View`, `durationString`, and the empty and closing lines.
- `Timetable` (`timetable.dfy`) holds the class `Timetable` and its `String`. Each row keeps the doubled `" : "` separator that the source writes.
- `Command` (`command.dfy`) holds:
  - the word parsers;
  - the parser loop `ParseCommand`;
  - the state machine `GenerateEntryFromCommand`, proved equal to the grammar `Interpret`;
  - the round trips between the readers of times and durations and the text that `Minute.String` and `durationString` write.
- `CommandExamples` (`command_examples.dfy`) states the examples of `command/command_test.go` as lemmas, and a few readings that follow from `strconv.Atoi` and `strings.Cut`.
- `DayExamples` (`day_examples.dfy`) states insertions and `FilledUpTo` on concrete days.

## Model

| member | source | states |
|---|---|---|
| Int64.Wrap | schedule/schedule.go:59 | the stored value lies in the 64-bit range, equals the exact result when that is in range, and differs from it by a multiple of 2^64 |
| Int64.QuotRem | schedule/schedule.go:61-62 | `/` and `%` by a positive number recombine to the dividend, with a remainder smaller than the divisor and both results taking the dividend's sign (truncation toward zero) |
| Day.NewDay | schedule/schedule.go:186-194 | a new day (one unnamed entry from 0 to 1440) satisfies the day invariant |
| Day.Clamp | schedule/schedule.go:77-78 | a start below 0 becomes 0 and an end past 1440 becomes 1440; the name and any start or end already in range are unchanged |
| Day.EmptyEntry | schedule/schedule.go:192-194 | the entry has no name and, for from < to, covers exactly [from, to) |
| Day.InsertedTiles | schedule/schedule.go:76-173 | inserting any entry into a day that tiles [0, 1440) gives a day that still tiles it |
| Day.OverwritePlacesOnce | schedule/schedule.go:76-173 | after an insertion the new entry appears exactly once, and every other entry lies wholly before or wholly after it |
| Day.ContainedDropped | schedule/schedule.go:90-94 | every old entry lying inside the new interval (other than the new entry itself) is gone after the insertion |
| Day.SplitCase | schedule/schedule.go:109-128 | an entry strictly containing the new interval is split into a part before and a part after, with the new entry between and the rest of the day unchanged |
| Day.CropCase | schedule/schedule.go:130-172 | otherwise the result is the entries before the start entry, the start entry cut at the new start (if it sticks out), the new entry, the end entry cut at the new end (if it sticks out), and the entries after it |
| Day.InsertedIdempotent | schedule/schedule.go:76-173 | inserting the same entry twice gives the same day as inserting it once |
| Day.OverwriteBefore | schedule/schedule.go:130-172 | overwriting again keeps the part of the day before the new interval unchanged |
| Day.OverwriteAfter | schedule/schedule.go:130-172 | overwriting again keeps the part of the day after the new interval unchanged |
| Day.OverwriteIdempotent | schedule/schedule.go:130-172 | overwriting an interval a second time with the same entry changes nothing |
| Day.FilledToLastNamed | schedule/schedule.go:175-184 | `FilledUpTo` is the end of the last named entry at index 1 or later, or 0 when there is none |
| Day.Clock | schedule/schedule.go:20-25 | for 0 <= m < 6000 the text is five characters "HH:MM" whose digits read back as m / 60 and m % 60 |
| Day.ClockNoLineBreak | schedule/schedule.go:20-25 | a rendered minute never contains a line break |
| Engine.Classification | schedule/schedule.go:89-104 | on a day that tiles, only the entry holding the new start can overhang it, only the entry holding the new end can overhang that, and exactly the entries between them that overhang neither are inside |
| Engine.ScanIndices | schedule/schedule.go:89-104 | the four indices are the last entry overhanging the start, the last overhanging the end, and the first and last entries inside, with -1 when there is none |
| Engine.ScanOutcome | schedule/schedule.go:89-158 | on a day that tiles, the start entry p and end entry q satisfy p <= q; the start is cropped exactly when p sticks out before the new start, and the end exactly when q sticks out past the new end; the delete range is empty at both ends or at neither; and whichever index each `switch` falls back to is p or q |
| Engine.Classify | schedule/schedule.go:84-104 | the classification loop returns exactly the four scan indices |
| Engine.Splice | schedule/schedule.go:140-171 | keeping the cropped day up to `includeToInclusive` and from `includeFromInclusive` on, around the new entry, gives the shape stated by `Day.CropCase` |
| Engine.SplitAround | schedule/schedule.go:109-128 | the split branch yields the reference insertion |
| Engine.CropAround | schedule/schedule.go:130-172 | the crop-and-rebuild branch yields the reference insertion |
| Engine.Insert | schedule/schedule.go:76-173 | the whole algorithm yields `Inserted` (clamp, then overwrite) |
| Engine.FilledUpTo | schedule/schedule.go:175-184 | the backward scan returns `FilledTo` |
| Schedule.LengthText | schedule/schedule.go:58-73 | the text is empty exactly when the length is not positive, and holds no line break |
| Schedule.DurationText | schedule/schedule.go:58-73 | an entry's duration text is empty exactly when its 64-bit length `To - From` is not positive |
| Schedule.ShownName | schedule/schedule.go:42-45 | a non-empty name is shown as is, and an unnamed entry is shown as "---" |
| Schedule.Line | schedule/schedule.go:39-50 | a view line starts with the entry's start time and ends with a line break |
| Schedule.LineNewlines | schedule/schedule.go:39-50 | a view line holds exactly one line break when the name holds none |
| Schedule.ListedStep | schedule/schedule.go:34-37 | walking the entries lists each one in order, except an unnamed entry at index 0 |
| Schedule.LinesListedStep | schedule/schedule.go:34-51 | each loop step adds that entry's line, except for an unnamed entry at index 0 |
| Schedule.ViewLineCount | schedule/schedule.go:27-56 | the view has one line per listed entry plus the closing line, or a single line for an empty day |
| Schedule.ViewShape | schedule/schedule.go:30-55 | a day of two or more entries is never shown as empty: its view is its lines followed by the closing line |
| Schedule.ViewEndsWithLineBreak | schedule/schedule.go:27-56 | every view, the empty message included, is non-empty and ends with a line break |
| Schedule.NewViewIsEmpty | schedule/schedule.go:30-31 | a new day is shown as the empty message |
| Schedule.Schedule.constructor | schedule/schedule.go:186-190 | a new schedule holds the single free entry and is valid |
| Schedule.Schedule.Insert | schedule/schedule.go:76-173 | the entries become `Inserted(old entries, newEntry)` and the schedule stays valid |
| Schedule.Schedule.FilledUpTo | schedule/schedule.go:175-184 | returns `FilledTo` of the entries |
| Schedule.ListEntry | schedule/schedule.go:34-50 | one loop step adds the entry's line to the buffer, except for an unnamed entry at index 0 |
| Schedule.ListedLines | schedule/schedule.go:33-51 | the loop over the entries builds the lines of the listed entries |
| Schedule.Schedule.View | schedule/schedule.go:27-56 | the text is `ViewText` of the entries: the empty message, or the loop's lines followed by the closing line |
| Timetable.Row | timetable/timetable.go:29-36 | a row starts with the start time followed by '-' and ends with a line break |
| Timetable.RowNewlines | timetable/timetable.go:29-36 | a row holds exactly one line break when the name holds none |
| Timetable.TableLineCount | timetable/timetable.go:27-39 | the text has exactly one line per entry, unnamed entries included |
| Timetable.TableTextOfNew | timetable/timetable.go:152-160 | an empty list renders as nothing, and a new timetable as the single row of the free entry |
| Timetable.Timetable.constructor | timetable/timetable.go:152-156 | a new timetable holds the single free entry and is valid |
| Timetable.Timetable.Insert | timetable/timetable.go:42-139 | the entries become `Inserted(old entries, newEntry)` and the timetable stays valid |
| Timetable.Timetable.FilledUpTo | timetable/timetable.go:141-150 | returns `FilledTo` of the entries |
| Timetable.Timetable.String | timetable/timetable.go:27-39 | the buffer built in the loop is `TableText` of the entries |
| Text.Fields | command/command.go:66 | every word is non-empty and holds no white space |
| Text.FieldsJoin | command/command.go:66 | splitting words joined by single spaces gives the words back |
| Text.Decimal | schedule/schedule.go:66-70 | `%d` of a non-negative number is a non-empty string of digits |
| Text.Pad2 | schedule/schedule.go:24 | `%02d` of a number from 0 to 99 is two digits that read back as the number |
| Text.Atoi | command/command.go:299 | a number read is in the 64-bit range and is smaller in size than 10 to the length of the text |
| Text.AtoiSigned | command/command.go:268 | a leading `+` keeps the number and a leading `-` negates it |
| Text.Cut | command/command.go:266 | a found separator splits the word around its first occurrence; otherwise the whole word is the part before |
| Text.AtoiDecimal | command/command.go:268 | `Atoi` reads back every decimal text in the 64-bit range |
| Command.KeywordOf | command/command.go:48-55 | a word is in the keyword table exactly when it spells one of the five keywords |
| Command.IsKeyword | command/command.go:339-341 | a word is a keyword exactly when some keyword is spelled that way |
| Command.Parsers | command/command.go:57-62 | the four parsers are time, duration, keyword and name, in that order |
| Command.MinFromHour | command/command.go:359-361 | hours become hours * 60 whenever that fits in 64 bits |
| Command.TimeMinutes | command/command.go:296-333 | a time read is between 0 and 1440, comes from a word of 1, 2, 4 or 5 characters, and every refusal is an invalid-time error |
| Command.DurationMinutes | command/command.go:261-294 | a duration read from a word of at most 17 characters is positive, and every refusal is an invalid-duration error |
| Command.ShortCountsFit | command/command.go:289-293 | counts below 10^16 that are not both zero give a positive total without wrap-around |
| Command.ParseTime | command/command.go:226-244 | a time part uses one word and lies within the day; only an empty word list is "too short" |
| Command.ParseDuration | command/command.go:246-259 | a duration part uses one word and is positive for a word of at most 17 characters |
| Command.ParseKeyword | command/command.go:213-224 | it succeeds exactly on a keyword, and the part spells that word |
| Command.ParseName | command/command.go:196-211 | it succeeds exactly on a non-keyword; the name is the word itself, or "" for "clear" |
| Command.KeywordNotTimeOrDuration | command/command.go:57-62 | no keyword reads as a time or a duration, so the keyword parser is reached for it |
| Command.KeywordParts | command/command.go:57-62 | a word becomes a keyword part exactly when it is a keyword, and a name part never names a keyword |
| Command.PartOrder | command/command.go:177-185 | a word's part comes from the first parser, in the order time, duration, keyword, name, that accepts it, and every earlier parser refuses it |
| Command.Parts | command/command.go:172-194 | there is one part per word |
| Command.FirstAccepting | command/command.go:177-185 | the first parser in the order time, duration, keyword, name to accept yields the word's part and uses one word |
| Command.SomeParserAccepts | command/command.go:186-190 | the keyword or the name parser always accepts a word, so the "failed to parse token" error never occurs |
| Command.ParseCommand | command/command.go:172-194 | the loop always succeeds, with one part per word in order |
| Command.AfterThen | command/command.go:82-98 | after "then": no part left or a part that is not a name is refused; an accepted entry starts at the "then" time and takes the name that follows |
| Command.AfterName | command/command.go:110-126 | after a leading name: fewer than two parts, or anything but "from" and a time, is refused; an accepted entry keeps the name and starts at that time |
| Command.Ending | command/command.go:128-155 | fewer than two parts is refused, and so is a first part other than "for", "until" or "to"; an accepted entry has exactly the end clause left, keeps the name and start, and is not empty |
| Command.Finish | command/command.go:156-169 | the entry is accepted exactly when no part is left over and `From < To` |
| Command.Interpret | command/command.go:79-169 | an accepted entry always has `From < To` |
| Command.InterpretAccepts | command/command.go:79-169 | a command yields an entry exactly when it is "then NAME END" or "NAME from TIME END" (END being "for DURATION" or "until"/"to" TIME) and the entry is not empty |
| Command.GenerateEntryFromCommand | command/command.go:65-170 | the flag-driven loop over the parts returns exactly what the grammar `Interpret` gives for the words of the command |
| Command.NowIsCurrentMinute | command/command.go:233-235 | "now" is read as the current minute of the day |
| Command.ReadHour | command/command.go:298-309 | a whole hour from 0 to 24, written with one or two digits, reads as hours * 60 |
| Command.ReadSignedHour | command/command.go:298-309 | "+H" reads as H hours; "-H" is refused for H > 0, and "-0" reads as 0 |
| Command.ReadShortClock | command/command.go:311-329 | an unpadded "H:MM" reads as H * 60 + MM |
| Command.ReadClockParts | command/command.go:311-329 | four or five characters split at the first colon into an hour and a minute in range read as hour * 60 + minute |
| Command.ReadClock | command/command.go:311-329 | a zero-padded "HH:MM" within the day reads as HH * 60 + MM |
| Command.TimeRoundTrip | command/command.go:296-333 | reading the text of any minute of the day from 0 to 1440 gives that minute back |
| Command.ReadHoursMinutes | command/command.go:266-293 | "{h}h{m}m" reads as h * 60 + m |
| Command.ReadDurationPrefix | command/command.go:266-293 | "{h}h{m}m" followed by any text reads as h * 60 + m, whatever follows the 'm'; no hours and no minutes is refused |
| Command.ReadHoursPrefix | command/command.go:266-293 | "{h}h" followed by text without an 'm' reads as h hours: that text is no minutes at all |
| Command.NegativeHoursRefused | command/command.go:266-293 | a negative number of hours is refused, whatever follows the 'h' |
| Command.NegativeMinutesRefused | command/command.go:266-293 | a negative number of minutes is refused, whatever follows the 'm' |
| Command.LengthRoundTrip | command/command.go:261-294 | reading the text `durationString` writes for any positive length gives the length back |
| Command.DurationRoundTrip | command/command.go:261-294 | an entry's duration text reads back as its length whenever that is positive |
| CommandExamples.ValidHours | command/command_test.go:64-66 | "1", "01" and "17" read as whole hours |
| CommandExamples.Midnight | command/command_test.go:63 | "00:00" is minute 0 |
| CommandExamples.ThreePm | command/command_test.go:67 | "15:00" is minute 900 |
| CommandExamples.HalfPastThreePm | command/command_test.go:68 | "15:30" is minute 930 |
| CommandExamples.FourPm | command/command_test.go:38 | "16:00" is minute 960 |
| CommandExamples.EndOfDay | command/command_test.go:69 | "24:00" is minute 1440 |
| CommandExamples.HalfPastMidnight | command/command_test.go:70 | "00:30" is minute 30 |
| CommandExamples.HalfPastFourPm | command/command_test.go:16 | "16:30" is minute 990 |
| CommandExamples.InvalidShortTimes | command/command_test.go:87 | "", ":", "-1" and "25" are refused |
| CommandExamples.PastEndOfDay | command/command_test.go:87 | "24:30" is refused |
| CommandExamples.TooManyMinutes | command/command_test.go:87 | "00:89" is refused |
| CommandExamples.NegativeMinutes | command/command_test.go:87 | "15:-2" is refused |
| CommandExamples.FifteenMinutes | command/command_test.go:99 | "15m" is 15 minutes |
| CommandExamples.OneHour | command/command_test.go:100 | "1h" is 60 minutes |
| CommandExamples.TenHours | command/command_test.go:101 | "10h" is 600 minutes |
| CommandExamples.OneMinute | command/command_test.go:102 | "1m" is 1 minute |
| CommandExamples.FiveHoursFiveMinutes | command/command_test.go:103 | "5h5m" is 305 minutes |
| CommandExamples.TenHoursTenMinutes | command/command_test.go:104 | "10h10m" is 610 minutes |
| CommandExamples.FortyFiveMinutes | command/command_test.go:17 | "45m" is 45 minutes |
| CommandExamples.NothingDurations | command/command_test.go:121 | "", "10" and "0h0m" are refused |
| CommandExamples.NegativeHours | command/command_test.go:121 | "-1h" is refused |
| CommandExamples.HomeIsNoDuration | command/command_test.go:121 | "home" is refused |
| CommandExamples.NegativeMinuteCount | command/command_test.go:121 | "-30m" is refused |
| CommandExamples.NegativeMinutesDuration | command/command_test.go:121 | "10h-2m" is refused |
| CommandExamples.SignedHour | command/command.go:298-309 | "+1" is minute 60 |
| CommandExamples.UnpaddedClock | command/command.go:311-329 | "9:30" is minute 570 |
| CommandExamples.TrailingTextIgnored | command/command.go:281-285 | "1h30mx" is 90 minutes |
| CommandExamples.UnmarkedMinutesIgnored | command/command.go:279-285 | "2h30" is 120 minutes |
| CommandExamples.NegativeHoursWithMinutes | command/command.go:287-289 | "-1h90m" is refused |
| CommandExamples.ThenForShape | command/command.go:79-169 | "then NAME for D" runs from the "then" time for D minutes |
| CommandExamples.ThenUntilShape | command/command.go:79-169 | "then NAME until T" and "then NAME to T" run from the "then" time to T |
| CommandExamples.FromForShape | command/command.go:79-169 | "NAME from F for D" runs from F for D minutes |
| CommandExamples.FromUntilShape | command/command.go:79-169 | "NAME from F until T" and "NAME from F to T" run from F to T |
| CommandExamples.ThenWorkForParts | command/command_test.go:36 | the words of "then work for 15m" parse as keyword, name, keyword, duration 15 |
| CommandExamples.ThenWorkUntilParts | command/command_test.go:37 | the words of "then work until 15:00" parse as keyword, name, keyword, time 900 |
| CommandExamples.WorkFromForParts | command/command_test.go:39 | the words of "work from 15:00 for 45m" parse as name, keyword, time 900, keyword, duration 45 |
| CommandExamples.WorkFromToFourParts | command/command_test.go:38 | the words of "work from 15:00 to 16:00" parse as name, keyword, time 900, keyword, time 960 |
| CommandExamples.WorkFromToParts | command/command_test.go:16 | the words of "work from 15:00 to 16:30" parse as name, keyword, time 900, keyword, time 990 |
| CommandExamples.ThenWorkFor | command/command_test.go:14 | "then work for 15m" with "then" at 01:00 gives work from 60 to 75 |
| CommandExamples.ThenWorkUntil | command/command_test.go:15 | "then work until 15:00" gives work from 60 to 900 |
| CommandExamples.WorkFromTo | command/command_test.go:16 | "work from 15:00 to 16:30" gives work from 900 to 990 |
| CommandExamples.WorkFromFor | command/command_test.go:17 | "work from 15:00 for 45m" gives work from 900 to 945 |
| CommandExamples.WorkFromToFour | command/command_test.go:38 | "work from 15:00 to 16:00" gives work from 900 to 960 |
| DayExamples.WorkDay | schedule/schedule.go:76-173 | inserting work from 10:00 to 16:00 into a new day splits its free entry into free time, the work and free time, and the day stays valid |
| DayExamples.LunchSplitsWork | schedule/schedule.go:109-128 | in the working day, lunch from 11:00 to 12:00 splits the work from 10:00 to 16:00 into 10:00-11:00 and 12:00-16:00 around it |
| DayExamples.EarlierStartCrops | schedule/schedule.go:130-172 | work from 09:00 to 12:00 ends the free morning at 09:00 and starts the old work entry at 12:00 |
| DayExamples.WholeDayReplaced | schedule/schedule.go:76-173 | an entry reaching past both ends of any valid day replaces it with that entry clamped to [0, 1440) |
| DayExamples.SleepAllDay | schedule/schedule.go:76-173 | sleep from -60 to 1500 leaves the single entry "sleep" from 0 to 1440 |
| DayExamples.MorningFilledTo | schedule/schedule.go:175-184 | a day whose last named entry ends at 10:00 is filled up to 600 |
| DayExamples.FirstEntryIgnored | schedule/schedule.go:175-184 | a named entry at index 0 is never inspected, so a day named only there is filled up to 0 |

## Left out

- `storage/storage.go` (JSON persistence) and `main.go` (the terminal loop) are not part of this model.
- `time.Now()`, which "now" reads, becomes the parameter `now` (a minute of the day). The "15:04" formatting of the clock is `Clock`.
- Engine.Insert: it is proved only for a day that tiles [0, 1440), the form that `New` creates and `Insert` keeps. A list loaded from storage in some other shape is not covered. The class methods `Schedule.Schedule.Insert` and `Timetable.Timetable.Insert` carry the same requirement as their class invariant.
- Command.DurationMinutes: positivity is stated only for words of at most 17 characters. For longer words the 64-bit sum `minFromHour(hours) + minutes` can wrap around; that wrap-around is modelled, but no bound on it is stated.
- Error values are datatypes (`ParseError`, `CommandError`); the wording of the Go error messages is not modelled.
- The `any` in `CmdPart.Value` becomes the `Part` datatype, so the type assertions `part.Value.(string)` and `part.Value.(sdl.Minute)` cannot fail in the model.
- The packages `schedule` and `timetable` each declare their own `Minute` and `Entry` types, with identical fields; the model uses one `Entry` for both.
- Go measures `len(token)` in bytes; the model counts characters, which is the same for ASCII input.
- `strings.Fields` splits on Unicode white space; the model lists those characters explicitly.
- The command examples are stated on their word lists. `Text.FieldsJoin` shows that splitting the command text gives those lists back.
- The printing in `TestParseCommand` and the commented-out debug `Printf` calls in `Insert` are not modelled.
