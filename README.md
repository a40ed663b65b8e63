# TeamCal core rules, modelled in Dafny

TeamCal is a small Flask application for team calendars, timesheets and leave
requests. Its logic is spread over the server (`routes.py`, `models.py`,
the helpers under `utils/`) and the browser scripts under `static/js/`. This
project models the deterministic rules inside that glue and proves what they
promise:

- the hand-written mail template renderer (`render_template` in
  `utils/email_service1.py`);
- civil-date arithmetic as JavaScript's `Date` performs it: the analytics
  quick ranges, the start of the week, the inclusive leave-day count;
- the duration formulas and text formats of the timesheet page and of the
  `TimesheetEntry`, `LeaveDay`, `BreakEntry` and `Invoice` records;
- the two CSV exports: the timesheet one doubles the quotes in the notes field
  as section 2 rule 7 of RFC 4180 asks, but wraps the location without
  escaping and leaves the clock texts unquoted; the analytics one wraps fields
  without escaping;
  a small CSV reader is the partner both are proved against;
- the calendar event table of `routes.py`: listing with typed ids
  (`avail-N`, `busy-N`, `leave-N`), update and delete under the
  owner-or-admin rule, and creation with the server's defaults; and the
  calendar page that builds the requests and decodes those ids;
- the leave-request page: the day counter, the start-date rule, submission
  validation, badges, action buttons and the statistics cards;
- the timezone helper's defaulting and offset table;
- the mail service's recipient handling, header and envelope assembly,
  validation failures, log truncation and the two notification functions.

"Now", the signed-in user, the values of form inputs, server responses and
SMTP failures are parameters. Where the source changes state, the model does
too: the event table (`Events.EventStore`), the mailer and its log
(`Email.Mailer`), the calendar page globals (`Calendar.CalendarPage`), the
leave form and statistics cards (`LeaveRequests.LeaveForm`,
`LeaveRequests.StatisticsCards`) and the analytics date inputs
(`Analytics.DateFilter`) are classes; the template renderer
(`Template.RenderTemplate`) and the timesheet statistics
(`Timesheet.CalculateStats`) are methods with loops. Each is proved against
functions on values, and those functions carry the lemmas.

Dates are `(year, month 0-11, day)` triples with a day number counted from
1970-01-01, which was a Thursday; JavaScript's browser clock is taken to be
in UTC. Times of day are minutes; instants are milliseconds or, in
`models.py`, microseconds.

Files: `wrappers.dfy` (Option, Result), `text.dfy` (decimal texts, split,
join, string order), `civil_date.dfy`, `time_of_day.dfy`, `csv.dfy`,
`template.dfy`, `analytics.dfy`, `timesheet.dfy`, `leave_requests.dfy`,
`models.dfy`, `events.dfy`, `calendar.dfy`, `timezone.dfy`, `email.dfy`.

## Model

| member | source | states |
|---|---|---|
| Template.Pieces | utils/email_service1.py:103 | the pieces of a text around the non-overlapping occurrences of a pattern, left to right; the first piece is a prefix of the text |
| Template.BlockEnd | utils/email_service1.py:110-111 | a block starts at 0 exactly when the opening marker is there and a closing marker follows; its end is just past the first closing marker (the non-greedy match) |
| Template.RenderTemplate | utils/email_service1.py:98-116 | the two loops over the context compute `Render`: every substitution first, then every conditional, in context order |
| Template.ReplaceIsJoinOfPieces | utils/email_service1.py:103 | `str.replace` is the join of the pieces with the replacement; joining them back with the pattern restores the text; no piece contains the pattern |
| Template.ReplaceAbsent | utils/email_service1.py:103 | a pattern that does not occur leaves the text unchanged |
| Template.ReplaceSkip | utils/email_service1.py:103 | a character that does not start the pattern is copied |
| Template.ReplaceKeepsPrefix | utils/email_service1.py:103 | a prefix in which the pattern does not start is kept verbatim |
| Template.RemoveBlocksAt | utils/email_service1.py:110-111 | a block at the start is deleted with both markers and removal goes on after it |
| Template.RemoveBlocksSkip | utils/email_service1.py:110-111 | a character that does not open a block is kept |
| Template.RemoveBlocksKeepsPrefix | utils/email_service1.py:110-111 | a prefix without an opening marker is kept verbatim |
| Template.RemoveBlocksFirst | utils/email_service1.py:110-111 | text before the first block is kept, the block up to the first endif is deleted, removal goes on after it |
| Template.RemoveBlocksNoClose | utils/email_service1.py:110-111 | without any closing marker nothing is removed |
| Template.RemoveBlocksNoOpen | utils/email_service1.py:110-111 | without any opening marker nothing is removed |
| Template.RenderEmptyContext | utils/email_service1.py:100-116 | an empty context returns the template unchanged |
| Template.SubstituteReplacesEveryPlaceholder | utils/email_service1.py:101-103 | each `{{ key }}` becomes the value's text, `''` for None, and no placeholder for the key is left in any piece |
| Template.SubstituteAllWithoutPlaceholders | utils/email_service1.py:101-103 | a template with no placeholder of any context key passes substitution unchanged |
| Template.PlaceholdersApart | utils/email_service1.py:101-103 | two `{{ key }}` placeholders of brace-free keys never overlap: they are apart, or the same key at the same place |
| Template.ReplaceKeepsOccurrence | utils/email_service1.py:103 | an occurrence of a text that no occurrence of the pattern overlaps is still found after `str.replace` |
| Template.SubstituteKeepsPlaceholder | utils/email_service1.py:102-103 | substituting one key keeps every placeholder of a different key |
| Template.SubstituteAllKeepsAbsentPlaceholder | utils/email_service1.py:101-103 | placeholders of keys the context does not hold survive the first pass, whatever other keys are substituted around them |
| Template.FalsyKeyDeletesBlock | utils/email_service1.py:109-111 | for a falsy value, text before the first `{% if key %}` is kept and that block up to the first `{% endif %}` is deleted with both markers |
| Template.FalsyKeyWithoutEndIf | utils/email_service1.py:109-111 | a falsy key keeps its `{% if key %}` marker when no `{% endif %}` is left |
| Template.TruthyKeyUnwraps | utils/email_service1.py:112-114 | for a truthy value the result is the text with every `{% if key %}` and then every `{% endif %}` replaced by nothing; the enclosed text is kept |
| Template.ReplaceCanSplice | utils/email_service1.py:114 | removing a pattern can join its halves around it into a new occurrence |
| Template.EndIfCanReappear | utils/email_service1.py:114 | `{% en{% endif %}dif %}` becomes `{% endif %}` after the truthy branch's strip |
| Csv.DoubleQuotes | static/js/timesheet.js:417 | `replace(/"/g, '""')`: a text without `"` is unchanged and nothing gets shorter |
| Csv.QuoteRawIsQuoteWithoutQuotes | static/js/timesheet.js:416-417 | the unescaped wrap of the location field and the escaped wrap of the notes agree on texts without `"` |
| Csv.ReadQuotedOfDoubled | static/js/timesheet.js:417 | un-doubling a doubled field recovers the original text and the rest |
| Csv.ReadPlainOf | static/js/timesheet.js:410 | a text without comma or line feed reads back as itself |
| Csv.ReadFieldOfCell | static/js/timesheet.js:416-417 | every readable cell reads back as its text |
| Csv.ReadRecordOfCells | static/js/timesheet.js:418 | a comma-joined line of readable cells reads back as their texts |
| Csv.ReadTableOfEncoded | static/js/timesheet.js:409-419 | lines joined with `\n` read back as the table of texts |
| Csv.PlainCommaSplits | static/js/timesheet.js:411-418 | an unquoted cell holding a comma is written exactly like two cells split at that comma |
| Csv.WrappedQuoteBreaksReading | static/js/availability_analytics.js:222-231 | a field `a"b` wrapped without escaping does not read back as itself |
| Csv.ReadTableWithHeader | static/js/timesheet.js:409-419 | a header line plus data lines reads back as the header and the rows' texts |
| CivilDate.DaysInMonth | static/js/availability_analytics.js:54-57 | month lengths lie in 28..31 and February has 29 days exactly in leap years |
| CivilDate.Weekday | static/js/timesheet.js:387 | `getDay()`: 0..6, with day 0 (1970-01-01) a Thursday |
| CivilDate.NormalizeDay | static/js/availability_analytics.js:54-77 | an out-of-range day of the month rolls over like `new Date(y, m, d)` into a valid date |
| CivilDate.NormalizeDayNumber | static/js/availability_analytics.js:54-77 | the rolled-over date has the same day number as the out-of-range one |
| CivilDate.ConstructorYear | static/js/availability_analytics.js:55 | the `Date` constructor reads years 0..99 as 1900..1999 |
| CivilDate.MakeDate | static/js/availability_analytics.js:54-77 | `new Date(y, m, d)` is a valid date |
| CivilDate.MakeDateNumber | static/js/availability_analytics.js:54-77 | `new Date(y, m, d)` has the day number of day d of the normalised year and month |
| CivilDate.DayZeroIsLastDay | static/js/availability_analytics.js:56 | day 0 of the next month is the last day of this one, December included |
| CivilDate.SetDate | static/js/timesheet.js:388-389 | `setDate(n)` moves the date by `n - getDate()` days |
| CivilDate.FormatIso | static/js/availability_analytics.js:82-83 | the `YYYY-MM-DD` text of a date input |
| CivilDate.ParseIso | static/js/leave_requests.js:39-40 | reading a `YYYY-MM-DD` input gives a valid date |
| CivilDate.ParseIsoOfFormatIso | static/js/leave_requests.js:39-40 | writing a date and reading it back gives the date |
| CivilDate.IsoOrder | static/js/leave_requests.js:19 | the string order of `YYYY-MM-DD` texts is the order of the dates |
| CivilDate.DayNumberOrder | models.py:219 | day numbers order dates as `date` comparison does |
| Analytics.MonthStart | static/js/availability_analytics.js:55 | `new Date(y, m, 1)` is day 1 of month m |
| Analytics.MonthEnd | static/js/availability_analytics.js:56 | `new Date(y, m + 1, 0)` is the last day of month m |
| Analytics.CurrentMonthRange | static/js/availability_analytics.js:54-57 | day 1 to the last day of today's month |
| Analytics.LastMonthRange | static/js/availability_analytics.js:58-61 | the whole previous month; January wraps to December of the previous year |
| Analytics.CurrentQuarterRange | static/js/availability_analytics.js:62-66 | with q = month / 3, day 1 of month 3q to the last day of month 3q+2 |
| Analytics.LastQuarterRange | static/js/availability_analytics.js:67-73 | from April on, day 1 of the previous quarter's first month to the last day of its third month, same year |
| Analytics.LastQuarterWraps | static/js/availability_analytics.js:67-73 | in January to March, October 1 to December 31 of the previous year |
| Analytics.CurrentYearRange | static/js/availability_analytics.js:74-77 | January 1 to December 31 |
| Analytics.QuickRangeKnownChoices | static/js/availability_analytics.js:53-79 | a range exists exactly for the five named presets |
| Analytics.QuickRangeShape | static/js/availability_analytics.js:53-83 | every preset starts on day 1 of a month, ends on the last day of a month, and start is not after end |
| Analytics.QuickRangeYears | static/js/availability_analytics.js:53-77 | for today in years 1..9999 both ends have four-digit years |
| Analytics.DateFilter.constructor | static/js/availability_analytics.js:82-83 | the two date inputs start with the given values |
| Analytics.DateFilter.HandleQuickDateRange | static/js/availability_analytics.js:45-84 | a preset writes its start and end as `YYYY-MM-DD`; an unknown one leaves both inputs unchanged |
| Analytics.StatusClass | static/js/availability_analytics.js:196-207 | `success` for availability, `warning` for busy, `danger` for leave, and `secondary` exactly for any other type |
| Analytics.StatusClassDistinguishesTypes | static/js/availability_analytics.js:198-203 | the three known types get three different classes |
| Analytics.Row | static/js/availability_analytics.js:222-231 | an export line has exactly 8 fields, each wrapped in `"` without escaping |
| Analytics.Rows | static/js/availability_analytics.js:217-232 | one line per entry, in order |
| Analytics.TextsOfRow | static/js/availability_analytics.js:222-231 | a line carries the entry's eight fields in header order |
| Analytics.HeaderReadable | static/js/availability_analytics.js:215 | the header names can be read back |
| Analytics.RowsReadable | static/js/availability_analytics.js:222-231 | lines whose fields contain no `"` can be read back |
| Analytics.TextsOfRows | static/js/availability_analytics.js:217-232 | the table's texts are the entries' fields |
| Analytics.ExportReadsBackWith | static/js/availability_analytics.js:214-232 | any readable header above the lines reads back as header plus fields |
| Analytics.ExportReadsBack | static/js/availability_analytics.js:214-232 | export of a non-empty list produces a file that reads back as the header and the entries' fields |
| Analytics.ExportEmpty | static/js/availability_analytics.js:210-213 | no data, no file |
| Timesheet.JsRem | static/js/timesheet.js:107 | JavaScript's `%`: the Euclidean remainder on non-negative operands, a non-positive one on negative |
| Timesheet.CounterSplitsMinutes | static/js/timesheet.js:105-107 | the live counter's hours and minutes are the elapsed whole minutes, minutes in 0..59 |
| Timesheet.ParseCounterText | static/js/timesheet.js:109-110 | the `HH:MM` counter text, zero-padded, reads back as those hours and minutes |
| Timesheet.ClockOutAgreesWithCounter | static/js/timesheet.js:157-160 | the clock-out summary has hours*60+minutes equal to the whole minutes, minutes below 60, and agrees with the counter |
| Timesheet.ClockOutBeforeClockIn | static/js/timesheet.js:158-160 | a negative elapsed time gives negative minutes, as JavaScript's `%` does |
| Timesheet.HoursMinutes | static/js/timesheet.js:339 | the `Hh Mm` text starts with a digit |
| Timesheet.ParseHoursMinutesOf | static/js/timesheet.js:339 | the `Hh Mm` text reads back as its hours and minutes |
| Timesheet.TableDurationCases | static/js/timesheet.js:338-340 | `Active` exactly for a non-positive duration of an active entry, `--` for one of a finished entry, otherwise `d div 60`h `d mod 60`m |
| Timesheet.TeamDurationShown | static/js/timesheet.js:271-276 | a team member's duration text appears exactly when clocked in with a positive duration, in the table's format |
| Timesheet.StartOfWeek | static/js/timesheet.js:385-390 | the start of the week is a valid instant |
| Timesheet.StartOfWeekIsSunday | static/js/timesheet.js:385-390 | it is the Sunday 0-6 days on or before the date, with no Sunday in between, at the same time of day |
| Timesheet.SundaysApart | static/js/timesheet.js:387-388 | no Sunday falls within the six days after a Sunday |
| Timesheet.CalculateStats | static/js/timesheet.js:362-379 | the loop computes the total of entries dated today and the total of entries dated at or after the start of the week (as written, at now's time of day) |
| Timesheet.DayTotalAppend | static/js/timesheet.js:369-374 | the today total of a concatenation is the sum of the totals |
| Timesheet.WeekTotalCoversToday | static/js/timesheet.js:366-379 | the week total counted by calendar day is never less than today's total |
| Timesheet.TotalFromAtMidnight | static/js/timesheet.js:376 | at exactly midnight the code's week total equals the calendar-day week total |
| Timesheet.SundayEntryMissed | static/js/timesheet.js:364-377 | on a Sunday after midnight, an entry dated today counts for today but not for the week |
| Timesheet.Cents | static/js/timesheet.js:415 | `(d / 60).toFixed(2)` as hundredths of an hour: the nearest, within a third of a hundredth |
| Timesheet.CentsNearest | static/js/timesheet.js:415 | that rounding is unique |
| Timesheet.ParseCentsOfCentsText | static/js/timesheet.js:415 | the two-decimal text reads back as its hundredths |
| Timesheet.DurationFieldReadsBack | static/js/timesheet.js:415 | the duration field is empty exactly for zero minutes, otherwise the rounded hours |
| Timesheet.CentsTextPlain | static/js/timesheet.js:415 | a two-decimal text needs no quoting |
| Timesheet.DurationFieldPlain | static/js/timesheet.js:415 | the duration field needs no quoting |
| Timesheet.DownloadRow | static/js/timesheet.js:411-418 | a download line has exactly 6 fields carrying the entry's values, location and notes quoted, notes escaped; the clock texts are unquoted as written, or quoted and escaped in the corrected download |
| Timesheet.DownloadRows | static/js/timesheet.js:411-418 | one line per entry, in order |
| Timesheet.DownloadHeaderReadable | static/js/timesheet.js:408 | the six header names can be read back |
| Timesheet.ClockCell | static/js/timesheet.js:413-414 | a clock cell carries the clock text, and a quoted one always reads back |
| Timesheet.DownloadRowReadable | static/js/timesheet.js:411-418 | every cell of a downloadable entry's line reads back |
| Timesheet.DownloadRowsReadable | static/js/timesheet.js:411-418 | lines of downloadable entries can be read back, and none is empty |
| Timesheet.DownloadTexts | static/js/timesheet.js:411-418 | the table's texts are the entries' values |
| Timesheet.DownloadReadsBackWith | static/js/timesheet.js:408-419 | any readable header above the lines reads back as header plus values |
| Timesheet.DownloadReadsBack | static/js/timesheet.js:408-419 | the file reads back as the 6-column header and each entry's values, the notes un-doubled |
| Timesheet.ClockInWrittenAsTwoCells | static/js/timesheet.js:413 | an unquoted clock-in text `day,time` is written exactly like the two cells `day` and `time` |
| Timesheet.SevenCellsReadBack | static/js/timesheet.js:411-418 | such a line of seven readable cells reads back as its seven texts |
| Timesheet.LocaleClockSplitsLine | static/js/timesheet.js:413 | a clock-in text with a comma makes the entry's line read back as seven fields, not its six |
| Timesheet.LocaleClockBreaksDownload | static/js/timesheet.js:413 | the clock-in text `1/15/2024, 9:00:00 AM` gives a line of seven fields |
| Timesheet.QuotedDownloadReadsBack | static/js/timesheet.js:408-419 | with the clock texts quoted and escaped, the file reads back as the header and each entry's six values, whatever the locale texts hold |
| Models.TruncMinutes | models.py:248-249 | `int()` of elapsed minutes truncates toward zero on both signs |
| Models.Duration | models.py:244-249 | a timesheet entry's duration is never negative |
| Models.IsActive | models.py:252-254 | an entry is active exactly when it has no clock-out |
| Models.ActiveEntryHasNoDuration | models.py:246-247 | an active entry has duration 0 |
| Models.DurationIsWholeMinutes | models.py:248-249 | the duration is positive exactly when a whole minute was worked after the break, and then it is the truncated worked minutes |
| Models.DurationAtMostElapsed | models.py:248-249 | with a non-negative break, never more than the elapsed whole minutes |
| Models.DurationDaysCases | models.py:216-220 | same-day leave lasts 1 day; a missing date gives 0 |
| Models.DurationDaysOfReversedDates | models.py:219 | an end before the start gives at most 0 days |
| Models.DurationDaysSplit | models.py:219 | splitting a leave at consecutive days adds the two counts |
| Models.CanApprove | models.py:223-225 | `can_approve` holds exactly for `pending` |
| Models.CanApproveExcludesApproved | models.py:223-230 | `can_approve` and `is_approved` never hold together |
| Models.CanDownload | models.py:70-72 | `can_download` holds exactly for `accounts_approved` and `paid` |
| Models.CanDownloadStates | models.py:41 | of the six workflow states only the fourth and sixth allow a download |
| Models.BreakIsActive | models.py:278-280 | a break is active exactly when it has no end |
| Models.EndedBreakKeepsDuration | models.py:270-280 | ending a break at t fixes the duration it showed at t, and ends its activity |
| Models.BreakDurationMinutes | models.py:275 | a finished break lasts the truncated whole minutes between its start and its end |
| LeaveRequests.CeilDays | static/js/leave_requests.js:44 | `Math.ceil(ms / day)`: the least number of days covering the time |
| LeaveRequests.CeilDaysOfWhole | static/js/leave_requests.js:44 | whole days count exactly |
| LeaveRequests.DaysLabelParts | static/js/leave_requests.js:45 | the label starts with the count and ends in `s` exactly when the count is not 1 |
| LeaveRequests.ZeroDaysLabel | static/js/leave_requests.js:47 | the label for 0 is `0 days` |
| LeaveRequests.OneDayLabel | static/js/leave_requests.js:45 | the label for 1 is `1 day` |
| LeaveRequests.LeaveDaysOfInputs | static/js/leave_requests.js:38-45 | for end not before start the count is end - start + 1 days |
| LeaveRequests.InputDayOfFormatIso | static/js/leave_requests.js:39-40 | a written date input reads back as its day number |
| LeaveRequests.LeaveDaysOfDates | static/js/leave_requests.js:38-45 | two date inputs in order count end - start + 1 days |
| LeaveRequests.LeaveDaysMatchesDurationDays | static/js/leave_requests.js:42-45 | the page's counter agrees with `LeaveDay.duration_days` and is at least 1 |
| LeaveRequests.LeaveDaysOfDuration | static/js/leave_requests.js:42-45 | the counter equals a given positive `duration_days` |
| LeaveRequests.SameDayIsOneDay | static/js/leave_requests.js:42-45 | equal dates show `1 day` |
| LeaveRequests.EndBeforeStartIsZeroDays | static/js/leave_requests.js:46-47 | an end before the start shows `0 days` |
| LeaveRequests.LeaveDaysTextIsLabel | static/js/leave_requests.js:38-48 | the text shown is the label of the count, and exists exactly when the count does |
| LeaveRequests.EmptyInputLeavesCount | static/js/leave_requests.js:38 | nothing is computed exactly when an input is empty |
| LeaveRequests.LeaveForm.constructor | static/js/leave_requests.js:14-15 | both inputs empty, both minimums today, no count shown |
| LeaveRequests.LeaveForm.ShowModal | static/js/leave_requests.js:53-57 | both inputs set to today and the count recomputed |
| LeaveRequests.LeaveForm.CalculateLeaveDays | static/js/leave_requests.js:34-50 | the count text is recomputed from the inputs, and kept when an input is empty |
| LeaveRequests.LeaveForm.OnStartDateChange | static/js/leave_requests.js:17-23 | the end minimum becomes the start, an earlier end is raised to it, so afterwards the end is not before the start, and the count is recomputed |
| LeaveRequests.LeaveForm.OnEndDateChange | static/js/leave_requests.js:25 | a new end recomputes the count |
| LeaveRequests.StartRuleOrdersDates | static/js/leave_requests.js:19-20 | the end kept after the rule is on or after the start |
| LeaveRequests.StartRuleCountsAtLeastOneDay | static/js/leave_requests.js:17-22 | after the rule the count is at least 1 |
| LeaveRequests.ValidateLeaveRequest | static/js/leave_requests.js:64-80 | submission goes ahead exactly when start, end, type and reason are non-empty and the end is not before the start; contact may be empty |
| LeaveRequests.ValidationOrder | static/js/leave_requests.js:72-80 | the missing-field message wins exactly when a required field is empty; contact never matters |
| LeaveRequests.SameDayPassesDateCheck | static/js/leave_requests.js:77 | a same-day request passes the date check |
| LeaveRequests.StatusBadges | static/js/leave_requests.js:276-294 | the badge list is exactly: Approved then HR Approved when HR approved; Rejected then HR Rejected when HR rejected; otherwise Pending Approval alone. Two badges exactly when HR agreed with the status |
| LeaveRequests.ActionButtons | static/js/leave_requests.js:297-310 | the buttons appear exactly for `pending`, and address the request |
| LeaveRequests.AllSucceededTotal | static/js/leave_requests.js:403-416 | with all three responses successful, the monthly count is their sum |
| LeaveRequests.FailedResponseDropsCount | static/js/leave_requests.js:410-413 | a failed response contributes nothing |
| LeaveRequests.StatisticsCards.constructor | static/js/leave_requests.js:401-404 | no card written yet |
| LeaveRequests.Reached | static/js/leave_requests.js:402-419 | the loop gets through the responses up to the first that threw, and that one threw |
| LeaveRequests.StatisticsCards.UpdateStatistics | static/js/leave_requests.js:401-420 | successful statuses' cards get their counts, failed ones keep theirs, and the monthly card gets the sum over the successes; from the first request that throws on, the remaining cards and the monthly card keep their text |
| TimeOfDay.MinuteOfDay | routes.py:201-202 | a time of day is a minute in 0..1439 |
| TimeOfDay.ClockText | static/js/calendar.js:139-140 | the `HH:MM` text of a time input |
| Text.TwoDigitsIsPadStart | static/js/timesheet.js:110 | the two-digit text of 0..99 is `n.toString().padStart(2, '0')` |
| TimeOfDay.TimeText | routes.py:155-156 | `str(time)` is the `HH:MM` text followed by `:00` |
| TimeOfDay.ParseClockText | routes.py:201-202 | `strptime(…, '%H:%M')` yields only valid times |
| TimeOfDay.ParseClockTextOfClockText | routes.py:201-202 | a written time reads back as itself |
| TimeOfDay.ClockTextOfParseClockText | routes.py:201-202 | what is read is exactly what was written |
| TimeOfDay.ClockOrder | static/js/calendar.js:168 | string order on `HH:MM` texts is the order of the times |
| TimeOfDay.ClockTextInjective | static/js/calendar.js:168 | equal texts are equal times |
| Events.ParseEventType | routes.py:261-268 | only `availability`, `busy` and `leave` name a table |
| Events.ParseEventTypeOfName | routes.py:159 | each event's `type` names its own table |
| Events.IdPrefix | routes.py:153 | id prefixes are non-empty and contain no dash |
| Events.IdPrefixInjective | routes.py:153-180 | the three prefixes differ |
| Events.EventIdParts | static/js/calendar.js:265 | splitting `avail-N` at dashes gives the prefix and N |
| Events.DecodeEventIdOfEventId | routes.py:153-180 | a typed id decodes to its table and row id |
| Events.EventIdInjective | routes.py:153-180 | typed ids are equal exactly for the same table and row |
| Events.ToEvent | routes.py:148-188 | each row lists as an event of its table, row id, owner and date; leave events have no times |
| Events.SlotEventTexts | routes.py:152-174 | id, title, start, end, colour and description of availability and busy events |
| Events.LeaveEventTexts | routes.py:179-188 | id, title, bare-date start, all-day flag, colour and notes of leave events |
| Events.ToEventAddressesRecord | routes.py:153-186 | an event's id and type lead back to its row |
| Events.ValidRowsListable | routes.py:148-188 | stored rows can be listed |
| Events.RowsOfMembers | routes.py:150 | `filter_by(user_id=…)`: exactly the user's rows |
| Events.EventsOfRows | routes.py:151-160 | one event per row |
| Events.EventsOfRowsFrom | routes.py:151-160 | every listed event comes from one of the rows |
| Events.EventsOfRowsOwner | routes.py:158 | every event of a user's rows carries that user's id |
| Events.UserEventsOwner | routes.py:148-188 | every event listed for a user carries that user's id |
| Events.EventsOfSelectedUsers | routes.py:148-188 | every listed event belongs to a selected user |
| Events.FindUser | routes.py:142 | `User.query.get`: the user with the id, or none exists |
| Events.SelectUsersCases | routes.py:138-146 | a non-admin gets only themself, an admin with no filter or `all` gets every user, an admin with a number gets that user or an error |
| Events.NonAdminSeesOwnEvents | routes.py:138-188 | a non-admin sees only their own events, whatever the filter |
| Events.DateField | routes.py:200 | `strptime(…, '%Y-%m-%d')` on a key yields a valid date, or fails |
| Events.ClockField | routes.py:201-202 | `strptime(…, '%H:%M')` on a key yields a valid time, or fails |
| Events.TextField | routes.py:224-225 | `data.get(key, default)` |
| Events.UpdatedRecord | routes.py:275-288 | an update keeps the table, id and owner and sets the date |
| Events.UpdatedRecordFields | routes.py:275-288 | availability gets start and end, busy start, end, title (default Busy) and description (default empty), leave leave type (default Leave) and notes (default empty); every other field is kept |
| Events.UpdatedRecordValid | routes.py:275-288 | an update keeps a row valid |
| Events.IndexOfId | routes.py:262-266 | `get_or_404`: the position of the row with the id, or none exists |
| Events.NextId | routes.py:206-209 | a new row's id exceeds every stored id |
| Events.ReplaceKeepsWellFormed | routes.py:290 | replacing a row by a valid one of the same table and id keeps ids unique |
| Events.RemoveKeepsWellFormed | routes.py:312-313 | deleting a row keeps the table well formed |
| Events.RemoveExactlyOne | routes.py:312-313 | deleting removes exactly the addressed row |
| Events.AppendKeepsWellFormed | routes.py:206-207 | adding a row with a fresh id keeps the table well formed |
| Events.EventStore.constructor | routes.py:150-177 | three empty tables |
| Events.EventStore.SetTable | routes.py:150-177 | one table is replaced and the others keep their rows |
| Events.EventStore.GetEvents | routes.py:130-190 | the events of the selected users' rows, user by user, availability then busy then leave; an unknown user id fails |
| Events.AppendUserEvents | routes.py:148-188 | one user's three kinds of events are appended in order |
| Events.AppendEvents | routes.py:151-160 | one event per row is appended |
| Events.EventStore.UpdateEvent | routes.py:257-293 | unknown type 400 and nothing changes; missing row 400; neither owner nor admin 403 and nothing changes; a bad field 400 and nothing changes; otherwise only the addressed row is replaced |
| Events.EventStore.DeleteEvent | routes.py:297-317 | unknown type 400, missing row 400, neither owner nor admin 403, each changing nothing; otherwise exactly the addressed row is gone and other tables are untouched |
| Events.EventStore.AddAvailability | routes.py:194-211 | a well-formed request appends the slot with `recurring` defaulting to false and a fresh id; a bad field gives 400 and nothing changes |
| Events.EventStore.AddBusySlot | routes.py:215-233 | a well-formed request appends the slot with title defaulting to Busy and description to empty; a bad field gives 400 and nothing changes |
| Calendar.CapitalizeFirst | static/js/calendar.js:312-314 | only the first character is upper-cased; the length and the rest are kept |
| Calendar.CapitalizeFirstIdempotent | static/js/calendar.js:312-314 | capitalising twice is capitalising once; the empty string stays empty |
| Calendar.CapitalizedTypeNames | static/js/calendar.js:312-314 | the three type names display as Availability, Busy, Leave |
| Calendar.EmptyDateRejectedFirst | static/js/calendar.js:157-160 | an empty date is rejected before anything else |
| Calendar.TimesRequiredForSlots | static/js/calendar.js:162-166 | availability and busy need both times; leave needs none |
| Calendar.SlotOrderRule | static/js/calendar.js:168-171 | a busy slot is accepted exactly when its start is before its end in time; availability gets no order check |
| Calendar.BusyPayloadAsServerReadsIt | static/js/calendar.js:143-148 | the server reads a busy payload back as the form's times, title (Busy when empty) and description, with no `recurring` |
| Calendar.SecondSegment | static/js/calendar.js:265 | an id without a dash gives `undefined` |
| Calendar.DeleteTargetAddressesRow | static/js/calendar.js:263-267 | the type and second id segment the delete request sends name the event's table and row |
| Calendar.DeleteVisibleMatchesServerRule | static/js/calendar.js:240-249 | the delete button shows exactly when the server would allow the delete: own event or admin |
| Calendar.CalendarPage.constructor | static/js/calendar.js:2-3 | no type and no selection; the form defaults to today, 09:00 to 17:00 |
| Calendar.CalendarPage.PickDate | static/js/calendar.js:20-23 | a clicked date fills the date field only |
| Calendar.CalendarPage.ShowAddModal | static/js/calendar.js:78-124 | the type is set and the form gets that type's defaults |
| Calendar.CalendarPage.AddEvent | static/js/calendar.js:130-174 | a rejected form gives its alert; otherwise the payload for the type's endpoint carries exactly the type's fields |
| Calendar.CalendarPage.ShowEventDetails | static/js/calendar.js:199-254 | the event is selected and the delete button follows the visibility rule |
| Calendar.CalendarPage.DeleteEvent | static/js/calendar.js:256-267 | a request is made exactly when an event is selected and the user confirms, for its type and second id segment |
| Calendar.DefaultFormsAccepted | static/js/calendar.js:95-124 | each type's default form passes validation |
| Timezone.UserTimezone | utils/timezone_helper.py:13-20 | never `UTC` or empty: a missing, empty or `UTC` zone becomes Asia/Kolkata, any other is kept |
| Timezone.UserTimezoneIdempotent | utils/timezone_helper.py:13-20 | storing the shown zone shows the same zone |
| Timezone.DisplayName | utils/timezone_helper.py:70-72 | a supported key's label, any other key unchanged |
| Timezone.DisplayNames | utils/timezone_helper.py:6-11 | the four labels |
| Timezone.LookupOffset | utils/timezone_helper.py:84-86 | `timezone_map.get`: an entry with the key, or none has it |
| Timezone.DetectTimezone | utils/timezone_helper.py:74-86 | the guess is always a supported key |
| Timezone.DetectTimezoneCases | utils/timezone_helper.py:77-86 | 0 gives UTC, -60 Europe/Berlin, -330 Asia/Kolkata, anything else UTC |
| Timezone.WestOfUtcIsUtc | utils/timezone_helper.py:86 | a positive browser offset always gives UTC |
| Email.AsList | utils/email_service.py:195 | a single address becomes a one-element list, a list is kept |
| Email.OptionalList | utils/email_service.py:196-202 | a missing cc or bcc becomes the empty list; a non-empty one is normalised |
| Email.RecipientTextIsToHeader | utils/email_service.py:236 | the recipient text of a failure log is the To list joined with `, ` |
| Email.LogBody | utils/email_service.py:251 | the logged body is a prefix of the body, the whole of it up to 500 characters and exactly 500 beyond |
| Email.MailOfHeaders | utils/email_service.py:205-221 | From, To and Subject headers, Cc exactly when the cc list is non-empty, never Bcc; the envelope is to, then cc, then bcc |
| Email.SendMail | utils/email_service.py:186-227 | a mail goes out exactly when credentials and a recipient are present and SMTP does not fail |
| Email.SendOutcomeAgreesWithEffects | utils/email_service.py:186-240 | missing credentials are reported before a missing recipient; success exactly when a mail goes out; every returned outcome is logged as sent or failed with its error, the To text and the truncated body |
| Email.OptSeq | utils/email_service.py:230-239 | at most one mail or log entry per call |
| Email.SkippedExactlyWhenEmpty | utils/email_service.py:279-293 | only an empty address is skipped; a missing one becomes unknown@example.com and is not |
| Email.Addressed | utils/email_service.py:276-293 | the addresses mailed, none empty, at most one per recipient |
| Email.NoticeLogsFollowRecipients | utils/email_service.py:276-321 | one log entry per addressed recipient, in order |
| Email.NoticeMailsGoToAddressed | utils/email_service.py:276-321 | each notice goes to one addressed, accepted recipient with no Cc; without credentials nothing is sent |
| Email.StatusText | utils/email_service.py:342 | `Approved` exactly for approved, otherwise `Rejected` |
| Email.StatusClass | utils/email_service.py:343 | `approved` exactly for approved, otherwise `rejected` |
| Email.StatusMappingIsBinary | utils/email_service.py:342-359 | the subject is "Your Leave Request has been " with the status text; only approved and rejected map to themselves; pending reads Rejected |
| Email.Mailer.constructor | utils/email_service.py:170-260 | nothing sent, nothing logged |
| Email.Mailer.LogEmail | utils/email_service.py:242-260 | one entry with the truncated body is appended; nothing is sent |
| Email.Mailer.Failed | utils/email_service.py:234-240 | a failure is logged as failed with its error and returned; with no recipient the handler itself raises |
| Email.Mailer.SendEmail | utils/email_service.py:170-240 | the result, the mails sent and the entries logged are those of the send rule |
| Email.Mailer.SendLeaveRequestNotification | utils/email_service.py:263-326 | for both dates present, the mails and log entries of every recipient in order are appended; otherwise nothing happens |
| Email.Mailer.Notify | utils/email_service.py:276-321 | one recipient's mail and log entry, or none when skipped |
| Email.Mailer.SendLeaveStatusUpdate | utils/email_service.py:329-371 | the employee gets the status subject through the send rule; a handler failure is returned with the status-update prefix |

## Left out

- Everything that touches the page (DOM updates, Bootstrap modals, alerts, `setInterval`), `fetch`, Flask routing, `flask_login` and SQLAlchemy sessions: only their effect on values and in-memory tables is modelled. All of `static/js/analytics.js`, `forms.py`, `app.py` and `main.py` are not part of this model.
- SMTP delivery is a parameter (`smtpFailure`); the SMTP credentials and sender are a parameter (`SmtpConfig`), not the module's defaults. Jinja's `render_template_string` is a parameter (`render`).
- The pytz conversions of `utils/timezone_helper.py` (lines 22-68) depend on a foreign library and time-zone data.
- Clock reads (`new Date()`, `datetime.now()`, `datetime.utcnow()`) are parameters; the active-break branch of `BreakEntry.duration` (models.py:272-274) is its finished branch at "now".
- Float displays: `toFixed(1)` hours in `calculateStats` and the invoice money fields. `toFixed(2)` in the timesheet download is modelled on whole minutes, with the nearest hundredth (ties cannot occur).
- Locale output (`toLocaleDateString`, `toLocaleTimeString`, `toLocaleString`, `strftime('%d %B %Y')`) is represented by given texts.
- `toISOString().split('T')[0]`, which can shift a local-midnight date by a day: the browser's clock is taken to be UTC, so dates are the intended civil dates.
- Analytics.DateFilter.HandleQuickDateRange: requires today's year in 1..9999, because `YYYY-MM-DD` is only modelled for four-digit years.
- Analytics.ExportReadsBack: holds only for fields without a `"`; the export does not escape them (Csv.WrappedQuoteBreaksReading).
- Timesheet.DownloadReadsBack: holds for entries whose date and locale clock texts contain no comma, line feed or `"`, and whose location contains no `"` (`Downloadable`); the notes may contain anything. This excludes common `toLocaleString()` output such as `1/15/2024, 9:00:00 AM` (Timesheet.LocaleClockSplitsLine); Timesheet.QuotedDownloadReadsBack drops that condition for the corrected download.
- Events.DateField, Events.ClockField: `strptime` is modelled on the fixed-width forms only; it also accepts single-digit fields, which are left out.
- Events.SelectUsers, Calendar.CurrentUserId: `int()` and `parseInt` are modelled on optional sign and decimal digits; whitespace, underscores and `parseInt`'s number prefix are left out.
- Events.EventStore.UpdateEvent, Events.EventStore.AddAvailability, Events.EventStore.AddBusySlot: exception texts are abstracted to the failing field; `get_or_404` inside the `try` becomes the 400 reply.
- routes.py reads `leave.date` (routes.py:182) and writes `event.date` on a leave (routes.py:275) while `LeaveDay` declares only `start_date` and `end_date` (models.py:180-230). As written, `get_events` raises `AttributeError` at routes.py:182 for any selected user who has a leave row. The write in `update_event` sets an attribute that is not a mapped column, so the commit does not persist it. Events.LeaveEventTexts, Events.ToEvent and the leave branch of Events.EventStore.UpdateEvent describe the `date` column routes.py assumes exists, kept on each leave row. `add_leave_day` is not modelled.
- Calendar.CapitalizeFirst: upper-casing is modelled on ASCII letters only.
- `form.reset()` in the calendar page is modelled as empty inputs.
- Timezone.DetectTimezone: the offset is a whole number of minutes; the table's keys are kept as minutes east of UTC so that 5.5 hours stays exact.
- Email.Mailer.SendLeaveStatusUpdate: the text of the exception raised when the address is `None` is a parameter (`raisedText`), not Python's `TypeError` message.
- Email.Mailer.LogEmail: a failure to write the log (caught and printed in the source) is not modelled.
- `get_events` reads `start` and `end` arguments it never uses; they are not modelled.
- Template.TruthyKeyUnwraps: does not promise that no `{% endif %}` remains, because one `str.replace` pass can splice a new one together (Template.EndIfCanReappear).
- Template.SubstituteAllKeepsAbsentPlaceholder: holds only for keys without `{` or `}`. `render_template(template_str, **context)` (utils/email_service1.py:98) accepts any string key through `**{...}`, so a braced key such as `"a{"` is not covered; both call sites (utils/email_service1.py:151-162 and 200-212) pass identifier keyword names, which hold no braces.
- Template.RenderTemplate: context keys are matched literally; a key containing regular-expression metacharacters is left out.
- `send_invoice_approval_notification` and the two duplicate definitions in `utils/email_service1.py` other than `render_template` are not part of this model.

## Findings

| source | as written | input that shows it | evidently intended | confidence | as-written member | corrected member |
|---|---|---|---|---|---|---|
| static/js/timesheet.js:364-376 | `thisWeek` is the Sunday at now's time of day, and `entryDate >= thisWeek` compares it with the entry's midnight, so entries dated on that Sunday fall outside the week unless now is exactly midnight | now is a Sunday at 10:00 and one entry, dated that Sunday, lasts 30 minutes: today shows 30 minutes, the week 0 | the week counts every entry dated from its Sunday on, so the week total is never below today's | not executed | Timesheet.SundayEntryMissed | Timesheet.WeekTotalCoversToday |
| static/js/timesheet.js:413-414 | the clock-in and clock-out texts from `toLocaleString()` are joined into the line unquoted | an entry clocked in at `1/15/2024, 9:00:00 AM` (the en-US form): its line reads back as seven fields under the six-column header | the clock texts are quoted like the notes, so every line reads back as its six fields | not executed | Timesheet.LocaleClockSplitsLine | Timesheet.QuotedDownloadReadsBack |
