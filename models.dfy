/**
 * The computed properties of the records in models.py: the minutes worked
 * on a timesheet entry, the length of a leave request, the approval and
 * download predicates, and the length of a break.
 *
 * Moments are whole microseconds since the epoch, the resolution of a
 * Python `datetime`; dates are civil dates.
 */
module Models {
  import opened Wrappers
  import opened CivilDate

  const MicrosPerMinute: int := 60000000

  /** `int(elapsed.total_seconds() / 60)`: whole minutes, rounded toward zero. */
  function TruncMinutes(micros: int): (q: int)
    ensures micros >= 0 ==> 0 <= q && MicrosPerMinute * q <= micros < MicrosPerMinute * (q + 1)
    ensures micros < 0 ==> q <= 0 && MicrosPerMinute * (q - 1) < micros <= MicrosPerMinute * q
  {
    if micros >= 0 then micros / MicrosPerMinute else -((-micros) / MicrosPerMinute)
  }

  // ---------------------------------------------------------------------------
  // TimesheetEntry

  /** A clock-in, the clock-out once there is one, and the break in minutes. */
  datatype TimesheetEntry = TimesheetEntry(clockIn: int, clockOut: Option<int>, breakDuration: int)

  /** The time on the clock less the break, in microseconds. */
  function Worked(clockIn: int, clockOut: int, breakDuration: int): int
  {
    clockOut - clockIn - breakDuration * MicrosPerMinute
  }

  /** `duration`: 0 while clocked in, else the whole minutes worked, never below 0. */
  function Duration(e: TimesheetEntry): (d: int)
    ensures d >= 0
  {
    match e.clockOut
    case None => 0
    case Some(out) =>
      var minutes := TruncMinutes(Worked(e.clockIn, out, e.breakDuration));
      if minutes > 0 then minutes else 0
  }

  /** `is_active`: still clocked in. */
  predicate IsActive(e: TimesheetEntry) { e.clockOut.None? }

  /** An active entry has no duration yet. */
  lemma {:induction false} ActiveEntryHasNoDuration(e: TimesheetEntry)
    requires IsActive(e)
    ensures Duration(e) == 0
  {
  }

  /**
   * A finished entry's duration is the number of whole minutes worked:
   * positive exactly when at least a minute was worked, and then the
   * largest count of minutes that fits in the time worked.
   */
  lemma {:induction false} DurationIsWholeMinutes(e: TimesheetEntry)
    requires e.clockOut.Some?
    ensures var w, d := Worked(e.clockIn, e.clockOut.value, e.breakDuration), Duration(e);
      (d > 0 <==> w >= MicrosPerMinute)
      && (d > 0 ==> MicrosPerMinute * d <= w < MicrosPerMinute * (d + 1))
  {
  }

  /** A break that is not negative never makes the duration longer than the time on the clock. */
  lemma {:induction false} DurationAtMostElapsed(e: TimesheetEntry)
    requires e.clockOut.Some? && e.clockOut.value >= e.clockIn && e.breakDuration >= 0
    ensures Duration(e) <= TruncMinutes(e.clockOut.value - e.clockIn)
  {
    var elapsed := e.clockOut.value - e.clockIn;
    var w := Worked(e.clockIn, e.clockOut.value, e.breakDuration);
    assert w <= elapsed;
    var d, q := Duration(e), TruncMinutes(elapsed);
    if d > 0 {
      assert MicrosPerMinute * d <= w < MicrosPerMinute * (q + 1);
    }
  }

  // ---------------------------------------------------------------------------
  // LeaveDay

  /**
   * A leave request: its dates (a Python `date` is always a valid date)
   * and its `approved_status`.
   */
  datatype LeaveDay = LeaveDay(startDate: Option<Date>, endDate: Option<Date>, approvedStatus: string)

  predicate ValidLeave(l: LeaveDay)
  {
    (l.startDate.Some? ==> ValidDate(l.startDate.value)) && (l.endDate.Some? ==> ValidDate(l.endDate.value))
  }

  /** `duration_days`: days from the start to the end, counting both, or 0 when a date is missing. */
  function DurationDays(l: LeaveDay): int
    requires ValidLeave(l)
  {
    if l.startDate.Some? && l.endDate.Some? then
      DayNumber(l.endDate.value) - DayNumber(l.startDate.value) + 1
    else 0
  }

  /** A one-day leave counts 1; a leave without both dates counts 0. */
  lemma {:induction false} DurationDaysCases(l: LeaveDay)
    requires ValidLeave(l)
    ensures l.startDate.Some? && l.startDate == l.endDate ==> DurationDays(l) == 1
    ensures l.startDate.None? || l.endDate.None? ==> DurationDays(l) == 0
  {
  }

  /**
   * An end before the start is not refused: the count is then 0 or
   * negative, one less for every further day back.
   */
  lemma {:induction false} DurationDaysOfReversedDates(l: LeaveDay)
    requires ValidLeave(l) && l.startDate.Some? && l.endDate.Some?
    requires DateBefore(l.endDate.value, l.startDate.value)
    ensures DurationDays(l) <= 0
  {
    DayNumberBefore(l.endDate.value, l.startDate.value);
  }

  /** Splitting a leave after any day of it splits its count. */
  lemma {:induction false} DurationDaysSplit(start: Date, middle: Date, next: Date, end: Date, status: string)
    requires ValidDate(start) && ValidDate(middle) && ValidDate(next) && ValidDate(end)
    requires DayNumber(next) == DayNumber(middle) + 1
    ensures DurationDays(LeaveDay(Some(start), Some(end), status))
      == DurationDays(LeaveDay(Some(start), Some(middle), status))
       + DurationDays(LeaveDay(Some(next), Some(end), status))
  {
  }

  /** `can_approve`: the request still waits for a decision. */
  predicate CanApprove(l: LeaveDay) { l.approvedStatus == "pending" }

  /** `is_approved`: the request was approved. */
  predicate IsApproved(l: LeaveDay) { l.approvedStatus == "approved" }

  /** A request that can still be approved is not approved, and the reverse. */
  lemma {:induction false} CanApproveExcludesApproved(l: LeaveDay)
    ensures !(CanApprove(l) && IsApproved(l))
    ensures CanApprove(l) ==> l.approvedStatus !in ["approved", "rejected"]
  {
  }

  // ---------------------------------------------------------------------------
  // Invoice

  /** The workflow states an invoice's `status` takes. */
  const InvoiceStatuses: seq<string> :=
    ["draft", "pending", "manager_approved", "accounts_approved", "rejected", "paid"]

  /** `can_download`. */
  predicate CanDownload(status: string) { status in ["accounts_approved", "paid"] }

  /** Of the workflow states, exactly the accounts-approved and paid ones allow a download. */
  lemma {:induction false} CanDownloadStates(i: nat)
    requires i < |InvoiceStatuses|
    ensures CanDownload(InvoiceStatuses[i]) <==> i == 3 || i == 5
  {
    var s := InvoiceStatuses[i];
    if i == 0 { assert s == "draft" && s[0] == 'd'; }
    else if i == 1 { assert s == "pending" && s[0] == 'p' && s[1] == 'e'; }
    else if i == 2 { assert s == "manager_approved" && s[0] == 'm'; }
    else if i == 4 { assert s == "rejected" && s[0] == 'r'; }
  }

  // ---------------------------------------------------------------------------
  // BreakEntry

  /** A break's start and, once it is over, its end. */
  datatype BreakEntry = BreakEntry(breakStart: int, breakEnd: Option<int>)

  /** `duration`: whole minutes up to the end, or up to `now` while the break goes on. */
  function BreakDuration(b: BreakEntry, now: int): int
  {
    match b.breakEnd
    case Some(end) => TruncMinutes(end - b.breakStart)
    case None => TruncMinutes(now - b.breakStart)
  }

  /** `is_active`: the break has no end yet. */
  predicate BreakIsActive(b: BreakEntry) { b.breakEnd.None? }

  /** Ending a break at `t` fixes its duration at what it showed at `t`. */
  lemma {:induction false} EndedBreakKeepsDuration(start: int, t: int, now: int)
    ensures BreakDuration(BreakEntry(start, Some(t)), now) == BreakDuration(BreakEntry(start, None), t)
    ensures !BreakIsActive(BreakEntry(start, Some(t))) && BreakIsActive(BreakEntry(start, None))
  {
  }

  /** A finished break counts its whole minutes; one ending before it starts counts 0 or less. */
  lemma {:induction false} BreakDurationMinutes(b: BreakEntry, now: int)
    requires b.breakEnd.Some?
    ensures var len, d := b.breakEnd.value - b.breakStart, BreakDuration(b, now);
      (len >= 0 ==> d >= 0 && MicrosPerMinute * d <= len < MicrosPerMinute * (d + 1))
      && (len < 0 ==> d <= 0)
  {
  }
}
