/**
 * The timesheet page (static/js/timesheet.js): the running duration
 * counter, the clock-out summary, the duration column of the entries
 * table and of the team list, the start of the week, the day and week
 * totals, and the CSV download.
 *
 * Moments are civil dates with the milliseconds into the day, the browser
 * assumed to run in UTC; "now" is a parameter.
 */
module Timesheet {
  import opened Wrappers
  import opened Text
  import opened CivilDate
  import opened Csv

  const MillisPerHour: int := 3600000
  const MillisPerMinute: int := 60000

  /** JavaScript's `%`: the remainder carries the sign of the dividend. */
  function JsRem(a: int, b: int): (r: int)
    requires b > 0
    ensures a >= 0 ==> r == a % b
    ensures a < 0 ==> -b < r <= 0
  {
    if a >= 0 then a % b else -((-a) % b)
  }

  // ---------------------------------------------------------------------------
  // Running counter `HH:MM`

  /** Whole hours, and minutes of the hour begun, `diffMs` after clocking in. */
  function CounterParts(diffMs: int): (int, int)
  {
    (diffMs / MillisPerHour, JsRem(diffMs, MillisPerHour) / MillisPerMinute)
  }

  /** The counter text: both numbers padded to at least two characters. */
  function CounterText(diffMs: int): string
  {
    var (hours, minutes) := CounterParts(diffMs);
    PadStart(IntToString(hours), 2, '0') + ":" + PadStart(IntToString(minutes), 2, '0')
  }

  /** After clocking in, the counter splits the whole minutes elapsed into hours and 0..59 minutes. */
  lemma {:induction false} CounterSplitsMinutes(diffMs: int)
    requires diffMs >= 0
    ensures var (hours, minutes) := CounterParts(diffMs);
      hours >= 0 && 0 <= minutes < 60 && hours * 60 + minutes == diffMs / MillisPerMinute
  {
    var h, r := diffMs / MillisPerHour, diffMs % MillisPerHour;
    var m, r2 := r / MillisPerMinute, r % MillisPerMinute;
    assert diffMs == MillisPerMinute * (h * 60 + m) + r2;
    DivOfSum(diffMs, h * 60 + m, r2);
  }

  lemma {:induction false} DivOfSum(a: int, q: int, r: int)
    requires a == MillisPerMinute * q + r && 0 <= r < MillisPerMinute
    ensures a / MillisPerMinute == q
  {
  }

  /** Reads `H:M` back into the two numbers. */
  function ParseClock(s: string): Option<(nat, nat)>
  {
    var parts := SplitOn(s, ':');
    if |parts| != 2 then None
    else
      match (ParseNat(parts[0]), ParseNat(parts[1]))
      case (Some(h), Some(m)) => Some((h, m))
      case _ => None
  }

  /** `H:M` with any two strings of digits reads back as their values. */
  lemma {:induction false} ParseClockOfDigits(a: string, b: string)
    requires |a| > 0 && AllDigits(a) && |b| > 0 && AllDigits(b)
    ensures ParseClock(a + ":" + b) == Some((DigitsValue(a), DigitsValue(b)))
  {
    DigitsExclude(a, ':');
    DigitsExclude(b, ':');
    SplitOnTwo(a, b, ':');
    assert a + ":" + b == a + [':'] + b;
  }

  /** Two numbers padded to two characters and joined by `:` read back as the numbers. */
  lemma {:induction false} ParseClockOfPadded(hours: nat, minutes: nat)
    ensures ParseClock(PadStart(IntToString(hours), 2, '0') + ":" + PadStart(IntToString(minutes), 2, '0'))
      == Some((hours, minutes))
  {
    ParseNatOfPadded(hours, 2);
    ParseNatOfPadded(minutes, 2);
    ParseClockOfDigits(PadStart(NatToString(hours), 2, '0'), PadStart(NatToString(minutes), 2, '0'));
  }

  /** The counter text reads back as the hours and minutes it shows. */
  lemma {:induction false} ParseCounterText(diffMs: int)
    requires diffMs >= 0
    ensures var (hours, minutes) := CounterParts(diffMs);
      hours >= 0 && minutes >= 0 && ParseClock(CounterText(diffMs)) == Some((hours, minutes))
  {
    CounterSplitsMinutes(diffMs);
    var (hours, minutes) := CounterParts(diffMs);
    ParseClockOfPadded(hours, minutes);
  }

  // ---------------------------------------------------------------------------
  // Clock-out summary `H hours M minutes`

  /** Whole minutes elapsed split by floor division into hours and a JavaScript remainder. */
  function ClockOutParts(diffMs: int): (int, int)
  {
    var totalMinutes := diffMs / MillisPerMinute;
    (totalMinutes / 60, JsRem(totalMinutes, 60))
  }

  function ClockOutText(diffMs: int): string
  {
    var (hours, minutes) := ClockOutParts(diffMs);
    IntToString(hours) + " hours " + IntToString(minutes) + " minutes"
  }

  /** After clocking in, the summary splits the whole minutes into hours and 0..59 minutes, like the counter. */
  lemma {:induction false} ClockOutAgreesWithCounter(diffMs: int)
    requires diffMs >= 0
    ensures var (hours, minutes) := ClockOutParts(diffMs);
      0 <= minutes < 60 && hours * 60 + minutes == diffMs / MillisPerMinute
    ensures ClockOutParts(diffMs) == CounterParts(diffMs)
  {
    CounterSplitsMinutes(diffMs);
  }

  /**
   * Before the clock-in moment the two roundings disagree: hours are rounded
   * down and minutes toward zero, so the shown parts add up to one hour less
   * than the elapsed minutes whenever these are not whole hours.
   */
  lemma {:induction false} ClockOutBeforeClockIn(diffMs: int)
    requires diffMs / MillisPerMinute < 0 && (diffMs / MillisPerMinute) % 60 != 0
    ensures var (hours, minutes) := ClockOutParts(diffMs);
      -60 < minutes < 0 && hours * 60 + minutes == diffMs / MillisPerMinute - 60
  {
    var t := diffMs / MillisPerMinute;
    var q, r := (-t) / 60, (-t) % 60;
    assert -t == 60 * q + r;
    assert t == 60 * (-q - 1) + (60 - r);
    assert t / 60 == -q - 1;
  }

  // ---------------------------------------------------------------------------
  // Duration columns `Hh Mm`

  function HoursMinutes(hours: nat, minutes: nat): (s: string)
    ensures |s| >= 4 && IsDigit(s[0])
  {
    NatToString(hours) + "h " + NatToString(minutes) + "m"
  }

  /** Reads `Hh Mm` back into the two numbers. */
  function ParseHoursMinutes(s: string): Option<(nat, nat)>
  {
    var parts := SplitOn(s, ' ');
    if |parts| != 2 then None
    else
      var a, b := parts[0], parts[1];
      if |a| < 1 || a[|a| - 1] != 'h' || |b| < 1 || b[|b| - 1] != 'm' then None
      else
        match (ParseNat(a[..|a| - 1]), ParseNat(b[..|b| - 1]))
        case (Some(h), Some(m)) => Some((h, m))
        case _ => None
  }

  /** `Hh Mm` with any two strings of digits reads back as their values. */
  lemma {:induction false} ParseHoursMinutesOfDigits(h: string, m: string)
    requires |h| > 0 && AllDigits(h) && |m| > 0 && AllDigits(m)
    ensures ParseHoursMinutes(h + "h " + m + "m") == Some((DigitsValue(h), DigitsValue(m)))
  {
    var a, b := h + ['h'], m + ['m'];
    assert ' ' !in a && ' ' !in b by {
      DigitsExclude(h, ' ');
      DigitsExclude(m, ' ');
    }
    SplitOnTwo(a, b, ' ');
    assert a[..|a| - 1] == h && b[..|b| - 1] == m;
    assert h + "h " + m + "m" == a + [' '] + b;
  }

  lemma {:induction false} ParseHoursMinutesOf(hours: nat, minutes: nat)
    ensures ParseHoursMinutes(HoursMinutes(hours, minutes)) == Some((hours, minutes))
  {
    DigitsValueOfNatToString(hours);
    DigitsValueOfNatToString(minutes);
    ParseHoursMinutesOfDigits(NatToString(hours), NatToString(minutes));
  }

  /** `updateTimesheetTable`: the duration cell of an entry, `duration` in minutes. */
  function TableDuration(duration: int, isActive: bool): string
  {
    if duration > 0 then HoursMinutes(duration / 60, duration % 60)
    else if isActive then "Active"
    else "--"
  }

  /**
   * A positive duration is shown as hours and 0..59 minutes that add up to
   * it; otherwise the cell says whether the entry is still open.
   */
  lemma {:induction false} TableDurationCases(duration: int, isActive: bool)
    ensures TableDuration(duration, isActive) == "Active" <==> duration <= 0 && isActive
    ensures TableDuration(duration, isActive) == "--" <==> duration <= 0 && !isActive
    ensures duration > 0 ==>
      ParseHoursMinutes(TableDuration(duration, isActive)) == Some((duration / 60, duration % 60))
      && duration % 60 < 60 && (duration / 60) * 60 + duration % 60 == duration
  {
    if duration > 0 {
      ParseHoursMinutesOf(duration / 60, duration % 60);
      var s := TableDuration(duration, isActive);
      assert IsDigit(s[0]);
      assert s[0] != "Active"[0] && s[0] != "--"[0];
    }
  }

  /** `updateTeamStatusDisplay`: the duration text of a team member, empty unless shown. */
  function TeamDuration(isClockedIn: bool, currentDuration: int): string
  {
    if isClockedIn && currentDuration > 0 then HoursMinutes(currentDuration / 60, currentDuration % 60)
    else ""
  }

  /** The team list shows a duration exactly for a clocked-in member with time on the clock, as the table does. */
  lemma {:induction false} TeamDurationShown(isClockedIn: bool, currentDuration: int)
    ensures TeamDuration(isClockedIn, currentDuration) != "" <==> isClockedIn && currentDuration > 0
    ensures TeamDuration(isClockedIn, currentDuration) != "" ==>
      TeamDuration(isClockedIn, currentDuration) == TableDuration(currentDuration, true)
  {
  }

  // ---------------------------------------------------------------------------
  // Start of the week

  /** A moment: the civil date and the milliseconds into that day. */
  datatype Moment = Moment(date: Date, millis: int)

  predicate ValidMoment(t: Moment)
  {
    ValidDate(t.date) && 0 <= t.millis < MillisPerDay
  }

  /** Milliseconds since 1970-01-01T00:00Z, the value `>=` compares. */
  function EpochMillis(t: Moment): int
    requires ValidMoment(t)
  {
    DayNumber(t.date) * MillisPerDay + t.millis
  }

  /** `getStartOfWeek`: the date moved back by its weekday, the time of day kept. */
  function StartOfWeek(t: Moment): (r: Moment)
    requires ValidMoment(t)
    ensures ValidMoment(r)
  {
    var d := t.date;
    Moment(SetDate(d, d.day - Weekday(DayNumber(d))), t.millis)
  }

  /**
   * The start of the week is the Sunday on or before the date, the latest
   * such Sunday, at the same time of day.
   */
  lemma {:induction false} StartOfWeekIsSunday(t: Moment)
    requires ValidMoment(t)
    ensures var n, s := DayNumber(t.date), DayNumber(StartOfWeek(t).date);
      Weekday(s) == 0 && 0 <= n - s <= 6
      && (forall k :: s < k <= n ==> Weekday(k) != 0)
    ensures StartOfWeek(t).millis == t.millis
  {
    var n := DayNumber(t.date);
    var s := DayNumber(StartOfWeek(t).date);
    assert s == n - Weekday(n);
    DayBackToSunday(n);
    forall k | s < k <= n ensures Weekday(k) != 0 {
      SundaysApart(s, k);
    }
  }

  /** Going back `Weekday(n)` days from day number `n` lands on a Sunday. */
  lemma {:induction false} DayBackToSunday(n: int)
    ensures Weekday(n - Weekday(n)) == 0 && (n - Weekday(n) + 4) % 7 == 0
  {
    var w := Weekday(n);
    assert (n - w) % 7 == 3;
  }

  lemma {:induction false} SundaysApart(s: int, k: int)
    requires (s + 4) % 7 == 0 && s < k < s + 7
    ensures Weekday(k) != 0
  {
    var a := (s + 4) / 7;
    assert s + 4 == 7 * a;
    assert k + 4 == 7 * a + (k - s);
  }

  // ---------------------------------------------------------------------------
  // Today and this week

  /** An entry as `calculateStats` reads it: its `YYYY-MM-DD` date and minutes worked. */
  datatype StatEntry = StatEntry(date: string, duration: int)

  /** `new Date(entry.date)` on a date-only text is midnight UTC of that day; other text is an invalid date. */
  function EntryDay(e: StatEntry): Option<int>
  {
    match ParseIso(e.date)
    case Some(d) => Some(DayNumber(d))
    case None => None
  }

  /** `entryDate.toDateString() === today`. */
  predicate OnDay(e: StatEntry, day: int) { EntryDay(e) == Some(day) }

  /** `entryDate >= thisWeek` with `thisWeek` the start of the week at now's time of day. */
  predicate FromMoment(e: StatEntry, start: Moment)
    requires ValidMoment(start)
  {
    EntryDay(e).Some? && EntryDay(e).value * MillisPerDay >= EpochMillis(start)
  }

  /** Minutes of the entries dated `day`. */
  function DayTotal(entries: seq<StatEntry>, day: int): int
  {
    if |entries| == 0 then 0
    else
      var last := entries[|entries| - 1];
      DayTotal(entries[..|entries| - 1], day) + (if OnDay(last, day) then last.duration else 0)
  }

  /** Minutes of the entries whose midnight is not before `start`. */
  function TotalFrom(entries: seq<StatEntry>, start: Moment): int
    requires ValidMoment(start)
  {
    if |entries| == 0 then 0
    else
      var last := entries[|entries| - 1];
      TotalFrom(entries[..|entries| - 1], start) + (if FromMoment(last, start) then last.duration else 0)
  }

  /** `calculateStats`: the minutes of today and of this week, added up entry by entry. */
  method CalculateStats(entries: seq<StatEntry>, now: Moment) returns (todayMinutes: int, weekMinutes: int)
    requires ValidMoment(now)
    ensures todayMinutes == DayTotal(entries, DayNumber(now.date))
    ensures weekMinutes == TotalFrom(entries, StartOfWeek(now))
  {
    var today := DayNumber(now.date);
    var thisWeek := StartOfWeek(now);
    todayMinutes, weekMinutes := 0, 0;
    var i := 0;
    while i < |entries|
      invariant 0 <= i <= |entries|
      invariant todayMinutes == DayTotal(entries[..i], today)
      invariant weekMinutes == TotalFrom(entries[..i], thisWeek)
    {
      var entry := entries[i];
      assert entries[..i + 1][..i] == entries[..i];
      if OnDay(entry, today) {
        todayMinutes := todayMinutes + entry.duration;
      }
      if FromMoment(entry, thisWeek) {
        weekMinutes := weekMinutes + entry.duration;
      }
      i := i + 1;
    }
    assert entries[..i] == entries;
  }

  /** The day total adds up over a concatenation of entry lists. */
  lemma {:induction false} DayTotalAppend(a: seq<StatEntry>, b: seq<StatEntry>, day: int)
    ensures DayTotal(a + b, day) == DayTotal(a, day) + DayTotal(b, day)
    decreases |b|
  {
    if |b| > 0 {
      assert (a + b)[..|a + b| - 1] == a + b[..|b| - 1];
      DayTotalAppend(a, b[..|b| - 1], day);
    } else {
      assert a + b == a;
    }
  }

  /** Dated on or after the day `weekStart`, whatever the time of day. */
  predicate InWeek(e: StatEntry, weekStart: int)
  {
    EntryDay(e).Some? && EntryDay(e).value >= weekStart
  }

  /**
   * The week total as evidently intended: every entry dated from the
   * Sunday that starts the week on.
   */
  function WeekTotal(entries: seq<StatEntry>, now: Moment): int
    requires ValidMoment(now)
  {
    if |entries| == 0 then 0
    else
      var last := entries[|entries| - 1];
      var start := DayNumber(StartOfWeek(now).date);
      WeekTotal(entries[..|entries| - 1], now) + (if InWeek(last, start) then last.duration else 0)
  }

  /**
   * On the corrected total, today's minutes are part of the week's: with
   * durations that are never negative, the week total is at least the day total.
   */
  lemma {:induction false} WeekTotalCoversToday(entries: seq<StatEntry>, now: Moment)
    requires ValidMoment(now)
    requires forall k :: 0 <= k < |entries| ==> entries[k].duration >= 0
    ensures WeekTotal(entries, now) >= DayTotal(entries, DayNumber(now.date))
    decreases |entries|
  {
    if |entries| > 0 {
      var last := entries[|entries| - 1];
      WeekTotalCoversToday(entries[..|entries| - 1], now);
      StartOfWeekIsSunday(now);
      if OnDay(last, DayNumber(now.date)) {
        assert InWeek(last, DayNumber(StartOfWeek(now).date));
      }
    }
  }

  /** At midnight the comparison as written and the corrected week agree. */
  lemma {:induction false} TotalFromAtMidnight(entries: seq<StatEntry>, now: Moment)
    requires ValidMoment(now) && now.millis == 0
    ensures TotalFrom(entries, StartOfWeek(now)) == WeekTotal(entries, now)
    decreases |entries|
  {
    if |entries| > 0 {
      TotalFromAtMidnight(entries[..|entries| - 1], now);
    }
  }

  /**
   * As written, an entry dated on the Sunday that starts the week is left
   * out of the week total at any moment after midnight, though it counts
   * for today.
   */
  lemma {:induction false} SundayEntryMissed(now: Moment, e: StatEntry)
    requires ValidMoment(now) && now.millis > 0
    requires Weekday(DayNumber(now.date)) == 0
    requires EntryDay(e) == Some(DayNumber(now.date)) && e.duration > 0
    ensures DayTotal([e], DayNumber(now.date)) == e.duration
    ensures TotalFrom([e], StartOfWeek(now)) == 0
    ensures WeekTotal([e], now) == e.duration
  {
    StartOfWeekIsSunday(now);
    assert [e][..0] == [];
  }

  // ---------------------------------------------------------------------------
  // CSV download

  /**
   * One entry of the download. The clock texts are the browser's locale
   * rendering of the two moments, `None` when the moment is missing.
   */
  datatype CsvEntry = CsvEntry(
    date: string, clockIn: Option<string>, clockOut: Option<string>,
    duration: nat, location: Option<string>, notes: Option<string>)

  /**
   * Hundredths of an hour nearest to `minutes`/60: `toFixed(2)` rounds to
   * the nearest hundredth, and `5*minutes/3` is never half-way between two.
   */
  function Cents(minutes: nat): (c: nat)
    ensures -1 <= 3 * c - 5 * minutes <= 1
  {
    (5 * minutes + 1) / 3
  }

  /** The nearest hundredth is the only one within a third of a hundredth. */
  lemma {:induction false} CentsNearest(minutes: nat, c: nat)
    requires -1 <= 3 * c - 5 * minutes <= 1
    ensures c == Cents(minutes)
  {
  }

  /** A number of hundredths written with two decimals, as `toFixed(2)` writes it. */
  function CentsText(c: nat): string
  {
    NatToString(c / 100) + "." + TwoDigits(c % 100)
  }

  /** Reads `I.FF` back into hundredths. */
  function ParseCents(s: string): Option<nat>
  {
    var parts := SplitOn(s, '.');
    if |parts| != 2 || |parts[1]| != 2 then None
    else
      match (ParseNat(parts[0]), ParseNat(parts[1]))
      case (Some(i), Some(f)) => Some(100 * i + f)
      case _ => None
  }

  lemma {:induction false} ParseCentsOfCentsText(c: nat)
    ensures ParseCents(CentsText(c)) == Some(c)
  {
    var a, b := NatToString(c / 100), TwoDigits(c % 100);
    assert CentsText(c) == a + ['.'] + b;
    TwoDigitsValue(c % 100);
    ParseNatOfNatToString(c / 100);
    DigitsExclude(a, '.');
    DigitsExclude(b, '.');
    SplitOnTwo(a, b, '.');
  }

  /** `entry.duration ? (entry.duration / 60).toFixed(2) : ''`. */
  function DurationField(minutes: nat): string
  {
    if minutes == 0 then "" else CentsText(Cents(minutes))
  }

  /** A duration field is empty for no minutes, else reads back as the nearest hundredth of an hour. */
  lemma {:induction false} DurationFieldReadsBack(minutes: nat)
    ensures minutes == 0 <==> DurationField(minutes) == ""
    ensures minutes > 0 ==> ParseCents(DurationField(minutes)) == Some(Cents(minutes))
  {
    if minutes > 0 {
      ParseCentsOfCentsText(Cents(minutes));
    }
  }

  lemma {:induction false} CentsTextPlain(c: nat)
    ensures Readable(Plain(CentsText(c)))
  {
    var a, b := NatToString(c / 100), TwoDigits(c % 100);
    var t := a + "." + b;
    assert t == CentsText(c);
    assert forall i :: 0 <= i < |t| ==> IsDigit(t[i]) || t[i] == '.' by {
      forall i | 0 <= i < |t| ensures IsDigit(t[i]) || t[i] == '.' {
        if i < |a| { assert t[i] == a[i]; }
        else if i > |a| { assert t[i] == b[i - |a| - 1]; }
      }
    }
  }

  lemma {:induction false} DurationFieldPlain(minutes: nat)
    ensures Readable(Plain(DurationField(minutes)))
  {
    if minutes > 0 {
      CentsTextPlain(Cents(minutes));
    }
  }

  const DownloadHeader: seq<string> :=
    ["Date", "Clock In", "Clock Out", "Duration (Hours)", "Location", "Notes"]

  /** The six texts of an entry's line, in header order. */
  function DownloadFields(e: CsvEntry): seq<string>
  {
    [e.date, e.clockIn.GetOr(""), e.clockOut.GetOr(""), DurationField(e.duration),
     e.location.GetOr(""), e.notes.GetOr("")]
  }

  /** A clock text, written as it is or, with `quoted`, quoted and escaped. */
  function ClockCell(text: string, quoted: bool): (c: Cell)
    ensures c.text == text
    ensures quoted ==> Readable(c)
  {
    if quoted then Escaped(text) else Plain(text)
  }

  /**
   * The location is quoted as it is; the notes are quoted with every `"`
   * doubled. `downloadCSV` writes the clock texts unquoted (`quoteClocks`
   * false); quoting them as well is what keeps their commas inside the field.
   */
  function DownloadRow(e: CsvEntry, quoteClocks: bool): (r: seq<Cell>)
    ensures |r| == 6
    ensures Texts(r) == DownloadFields(e)
  {
    var r := [Plain(e.date), ClockCell(e.clockIn.GetOr(""), quoteClocks), ClockCell(e.clockOut.GetOr(""), quoteClocks),
      Plain(DurationField(e.duration)), Wrapped(e.location.GetOr("")), Escaped(e.notes.GetOr(""))];
    assert Texts(r)[1] == DownloadFields(e)[1] && Texts(r)[2] == DownloadFields(e)[2];
    assert Texts(r)[5] == DownloadFields(e)[5];
    r
  }

  function DownloadRows(entries: seq<CsvEntry>, quoteClocks: bool): (r: seq<seq<Cell>>)
    ensures |r| == |entries|
    ensures forall k :: 0 <= k < |entries| ==> r[k] == DownloadRow(entries[k], quoteClocks)
  {
    if |entries| == 0 then [] else [DownloadRow(entries[0], quoteClocks)] + DownloadRows(entries[1..], quoteClocks)
  }

  /** `downloadCSV`: the header line and one line per entry, joined by line feeds. */
  function DownloadCsv(entries: seq<CsvEntry>): string
  {
    EncodeTable([PlainCells(DownloadHeader)] + DownloadRows(entries, false))
  }

  /** The same file with the clock texts quoted and escaped like the notes. */
  function QuotedDownloadCsv(entries: seq<CsvEntry>): string
  {
    EncodeTable([PlainCells(DownloadHeader)] + DownloadRows(entries, true))
  }

  function AllDownloadFields(entries: seq<CsvEntry>): (r: seq<seq<string>>)
    ensures |r| == |entries|
    ensures forall k :: 0 <= k < |entries| ==> r[k] == DownloadFields(entries[k])
  {
    if |entries| == 0 then [] else [DownloadFields(entries[0])] + AllDownloadFields(entries[1..])
  }

  /**
   * What the download can carry: the date holds no separator or quote, the
   * location no quote, and unquoted clock texts no separator or quote.
   */
  predicate Downloadable(e: CsvEntry, quoteClocks: bool)
  {
    Readable(Plain(e.date))
    && (quoteClocks || (Readable(Plain(e.clockIn.GetOr(""))) && Readable(Plain(e.clockOut.GetOr("")))))
    && '"' !in e.location.GetOr("")
  }

  lemma {:induction false} DownloadHeaderReadable()
    ensures forall i :: 0 <= i < |DownloadHeader| ==> Readable(Plain(DownloadHeader[i]))
  {
    forall i | 0 <= i < |DownloadHeader| ensures Readable(Plain(DownloadHeader[i])) {
      var t := DownloadHeader[i];
      forall j | 0 <= j < |t| ensures t[j] != ',' && t[j] != '\n' && t[j] != '"' {
      }
    }
  }

  /** Every cell of a downloadable entry's line reads back. */
  lemma {:induction false} DownloadRowReadable(e: CsvEntry, quoteClocks: bool)
    requires Downloadable(e, quoteClocks)
    ensures forall i :: 0 <= i < 6 ==> Readable(DownloadRow(e, quoteClocks)[i])
  {
    DurationFieldPlain(e.duration);
  }

  lemma {:induction false} DownloadRowsReadable(entries: seq<CsvEntry>, quoteClocks: bool, rows: seq<seq<Cell>>)
    requires rows == DownloadRows(entries, quoteClocks)
    requires forall k :: 0 <= k < |entries| ==> Downloadable(entries[k], quoteClocks)
    ensures forall k :: 0 <= k < |rows| ==> |rows[k]| >= 1
    ensures forall k, i :: 0 <= k < |rows| && 0 <= i < |rows[k]| ==> Readable(rows[k][i])
  {
    forall k, i | 0 <= k < |rows| && 0 <= i < |rows[k]| ensures Readable(rows[k][i]) {
      DownloadRowReadable(entries[k], quoteClocks);
    }
  }

  lemma {:induction false} DownloadTexts(entries: seq<CsvEntry>, quoteClocks: bool)
    ensures TableTexts(DownloadRows(entries, quoteClocks)) == AllDownloadFields(entries)
  {
    var t := TableTexts(DownloadRows(entries, quoteClocks));
    assert forall k :: 0 <= k < |t| ==> t[k] == AllDownloadFields(entries)[k];
  }

  /** The round trip for any header line of readable names. */
  lemma {:induction false} DownloadReadsBackWith(header: seq<string>, entries: seq<CsvEntry>, quoteClocks: bool)
    requires |header| >= 1
    requires forall i :: 0 <= i < |header| ==> Readable(Plain(header[i]))
    requires forall k :: 0 <= k < |entries| ==> Downloadable(entries[k], quoteClocks)
    ensures ReadTable(EncodeTable([PlainCells(header)] + DownloadRows(entries, quoteClocks)))
      == Some([header] + AllDownloadFields(entries))
  {
    var rows := DownloadRows(entries, quoteClocks);
    DownloadRowsReadable(entries, quoteClocks, rows);
    ReadTableWithHeader(header, rows);
    DownloadTexts(entries, quoteClocks);
  }

  /**
   * Reading the download back gives the six header names and the six
   * fields of every entry; notes come back whole whatever quotes, commas or
   * line breaks they hold.
   */
  lemma {:induction false} DownloadReadsBack(entries: seq<CsvEntry>)
    requires forall k :: 0 <= k < |entries| ==> Downloadable(entries[k], false)
    ensures ReadTable(DownloadCsv(entries)) == Some([DownloadHeader] + AllDownloadFields(entries))
  {
    DownloadHeaderReadable();
    DownloadReadsBackWith(DownloadHeader, entries, false);
  }

  /** The unquoted clock-in text `day,time` is written as the two cells `day` and `time`. */
  lemma {:induction false} ClockInWrittenAsTwoCells(e: CsvEntry, day: string, time: string)
    requires e.clockIn == Some(day + "," + time)
    ensures EncodeRecord(DownloadRow(e, false)) == EncodeRecord([Plain(e.date), Plain(day), Plain(time),
      Plain(e.clockOut.GetOr("")), Plain(DurationField(e.duration)), Wrapped(e.location.GetOr("")),
      Escaped(e.notes.GetOr(""))])
  {
    var post := [Plain(e.clockOut.GetOr("")), Plain(DurationField(e.duration)),
      Wrapped(e.location.GetOr("")), Escaped(e.notes.GetOr(""))];
    assert ClockCell(e.clockIn.GetOr(""), false) == Plain(day + "," + time);
    assert DownloadRow(e, false) == [Plain(e.date)] + [Plain(day + "," + time)] + post;
    PlainCommaSplits([Plain(e.date)], day, time, post);
    var seven := [Plain(e.date), Plain(day), Plain(time), Plain(e.clockOut.GetOr("")),
      Plain(DurationField(e.duration)), Wrapped(e.location.GetOr("")), Escaped(e.notes.GetOr(""))];
    assert [Plain(e.date)] + [Plain(day), Plain(time)] + post == seven;
  }

  /** A line of five plain cells, a wrapped one and an escaped one reads back as its seven texts. */
  lemma {:induction false} SevenCellsReadBack(a: string, b: string, c: string, d: string, f: string, loc: string, notes: string)
    requires Readable(Plain(a)) && Readable(Plain(b)) && Readable(Plain(c)) && Readable(Plain(d)) && Readable(Plain(f))
    requires '"' !in loc
    ensures ReadRecord(EncodeRecord([Plain(a), Plain(b), Plain(c), Plain(d), Plain(f), Wrapped(loc), Escaped(notes)]))
      == Some(([a, b, c, d, f, loc, notes], ""))
  {
    var cells := [Plain(a), Plain(b), Plain(c), Plain(d), Plain(f), Wrapped(loc), Escaped(notes)];
    var fields := [a, b, c, d, f, loc, notes];
    assert forall i :: 0 <= i < |cells| ==> Readable(cells[i]);
    ReadRecordOfCells(cells, "");
    assert EncodeRecord(cells) + "" == EncodeRecord(cells);
    assert forall i :: 0 <= i < 7 ==> Texts(cells)[i] == fields[i];
    assert Texts(cells) == fields;
  }

  /**
   * A clock text with a comma in it, as `toLocaleString()` writes one
   * (`1/15/2024, 9:00:00 AM`), is read back as two fields: the line of the
   * entry has seven fields under a header of six.
   */
  lemma {:induction false} LocaleClockSplitsLine(e: CsvEntry, day: string, time: string)
    requires e.clockIn == Some(day + "," + time)
    requires Readable(Plain(day)) && Readable(Plain(time))
    requires Readable(Plain(e.date)) && Readable(Plain(e.clockOut.GetOr(""))) && '"' !in e.location.GetOr("")
    ensures ReadRecord(EncodeRecord(DownloadRow(e, false))) == Some(([e.date, day, time, e.clockOut.GetOr(""),
      DurationField(e.duration), e.location.GetOr(""), e.notes.GetOr("")], ""))
    ensures ReadRecord(EncodeRecord(DownloadRow(e, false))) != Some((DownloadFields(e), ""))
  {
    ClockInWrittenAsTwoCells(e, day, time);
    DurationFieldPlain(e.duration);
    SevenCellsReadBack(e.date, day, time, e.clockOut.GetOr(""), DurationField(e.duration),
      e.location.GetOr(""), e.notes.GetOr(""));
  }

  /** The line of an entry clocked in at `1/15/2024, 9:00:00 AM` does not read back as its six fields. */
  lemma {:induction false} LocaleClockBreaksDownload(e: CsvEntry)
    requires e.clockIn == Some("1/15/2024, 9:00:00 AM")
    requires Readable(Plain(e.date)) && Readable(Plain(e.clockOut.GetOr(""))) && '"' !in e.location.GetOr("")
    ensures ReadRecord(EncodeRecord(DownloadRow(e, false))).Some?
    ensures |ReadRecord(EncodeRecord(DownloadRow(e, false))).value.0| == 7
  {
    var day, time := "1/15/2024", " 9:00:00 AM";
    assert day + "," + time == "1/15/2024, 9:00:00 AM";
    forall j | 0 <= j < |day| ensures day[j] != ',' && day[j] != '\n' && day[j] != '"' {}
    forall j | 0 <= j < |time| ensures time[j] != ',' && time[j] != '\n' && time[j] != '"' {}
    LocaleClockSplitsLine(e, day, time);
  }

  /**
   * With the clock texts quoted and escaped, the download reads back as the
   * header and every entry's six fields, whatever the locale writes.
   */
  lemma {:induction false} QuotedDownloadReadsBack(entries: seq<CsvEntry>)
    requires forall k :: 0 <= k < |entries| ==> Downloadable(entries[k], true)
    ensures ReadTable(QuotedDownloadCsv(entries)) == Some([DownloadHeader] + AllDownloadFields(entries))
  {
    DownloadHeaderReadable();
    DownloadReadsBackWith(DownloadHeader, entries, true);
  }
}
