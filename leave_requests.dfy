/**
 * The leave requests page (static/js/leave_requests.js): the day count of
 * the request form, the start-date rule, the checks before a request is
 * sent, the status badges and action buttons of a listed request, and the
 * statistics cards.
 *
 * Date inputs hold `YYYY-MM-DD` text or nothing; `new Date` of such a
 * text is midnight UTC of that day.
 */
module LeaveRequests {
  import opened Wrappers
  import opened Text
  import opened CivilDate
  import Models

  // ---------------------------------------------------------------------------
  // Day count

  /** `new Date(value)` of a date input: its day number, or `None` for an invalid date. */
  function InputDay(value: string): Option<int>
  {
    match ParseIso(value)
    case Some(d) => Some(DayNumber(d))
    case None => None
  }

  /** `Math.ceil(ms / 86400000)` for a span that is not negative. */
  function CeilDays(ms: nat): (days: nat)
    ensures MillisPerDay * days >= ms
    ensures days > 0 ==> MillisPerDay * (days - 1) < ms
  {
    (ms + MillisPerDay - 1) / MillisPerDay
  }

  /** A whole number of days rounds up to itself. */
  lemma {:induction false} CeilDaysOfWhole(k: nat)
    ensures CeilDays(k * MillisPerDay) == k
  {
    var days := CeilDays(k * MillisPerDay);
    assert MillisPerDay * days >= MillisPerDay * k;
  }

  /** `${n} day${n !== 1 ? 's' : ''}`. */
  function DaysLabel(n: int): string
  {
    IntToString(n) + " day" + (if n != 1 then "s" else "")
  }

  /** The label reads back as its number, and says `day` exactly for one. */
  lemma {:induction false} DaysLabelParts(n: int)
    ensures SplitOn(DaysLabel(n), ' ')[0] == IntToString(n)
    ensures ParseInt(SplitOn(DaysLabel(n), ' ')[0]) == Some(n)
    ensures DaysLabel(n)[|DaysLabel(n)| - 1] == 's' <==> n != 1
  {
    var a, b := IntToString(n), "day" + (if n != 1 then "s" else "");
    assert ' ' !in a by {
      if n >= 0 {
        DigitsExclude(NatToString(n), ' ');
      } else {
        DigitsExclude(NatToString(-n), ' ');
        assert a == "-" + NatToString(-n);
      }
    }
    assert ' ' !in b;
    assert DaysLabel(n) == a + [' '] + b;
    SplitOnTwo(a, b, ' ');
    ParseIntOfIntToString(n);
  }

  /**
   * The number `calculateLeaveDays` shows: nothing unless both inputs hold
   * a value; then the count of days from start to end, both included, or 0
   * when the end comes first or a value is not a date.
   */
  function LeaveDayCount(startValue: string, endValue: string): Option<nat>
  {
    if startValue == "" || endValue == "" then None
    else
      match (InputDay(startValue), InputDay(endValue))
      case (Some(s), Some(e)) =>
        if e >= s then Some(CeilDays((e - s) * MillisPerDay) + 1) else Some(0)
      case _ => Some(0)
  }

  /** `calculateLeaveDays`: the text it puts in the total-days field, if any. */
  function LeaveDaysText(startValue: string, endValue: string): Option<string>
  {
    match LeaveDayCount(startValue, endValue)
    case Some(n) => if n == 0 then Some("0 days") else Some(DaysLabel(n))
    case None => None
  }

  /** The fixed `0 days` text is what the label would say for 0. */
  lemma {:induction false} ZeroDaysLabel()
    ensures DaysLabel(0) == "0 days"
  {
    assert IntToString(0) == NatToString(0) == [DigitChar(0)] == "0";
  }

  /** Two inputs that read as days `s <= e` count the days from `s` to `e`, both included. */
  lemma {:induction false} LeaveDaysOfInputs(startValue: string, endValue: string, s: int, e: int)
    requires startValue != "" && endValue != ""
    requires InputDay(startValue) == Some(s) && InputDay(endValue) == Some(e) && s <= e
    ensures LeaveDayCount(startValue, endValue) == Some(e - s + 1)
  {
    CeilDaysOfWhole(e - s);
  }

  /** An ISO date text reads back as the date's day number. */
  lemma {:induction false} InputDayOfFormatIso(d: Date)
    requires ValidDate(d) && 0 <= d.year <= 9999
    ensures FormatIso(d) != "" && InputDay(FormatIso(d)) == Some(DayNumber(d))
  {
    ParseIsoOfFormatIso(d);
  }

  /** Two ISO dates `s <= e` days apart count the days from `s` to `e`, both included. */
  lemma {:induction false} LeaveDaysOfDates(start: Date, end: Date, s: int, e: int)
    requires ValidDate(start) && 0 <= start.year <= 9999
    requires ValidDate(end) && 0 <= end.year <= 9999
    requires s == DayNumber(start) && e == DayNumber(end) && s <= e
    ensures LeaveDayCount(FormatIso(start), FormatIso(end)) == Some(e - s + 1)
  {
    InputDayOfFormatIso(start);
    InputDayOfFormatIso(end);
    LeaveDaysOfInputs(FormatIso(start), FormatIso(end), s, e);
  }

  /**
   * For two dates with the end not before the start, the form counts the
   * same days as the server's `duration_days`, at least 1.
   */
  lemma {:induction false} LeaveDaysMatchesDurationDays(start: Date, end: Date, status: string)
    requires ValidDate(start) && 0 <= start.year <= 9999
    requires ValidDate(end) && 0 <= end.year <= 9999
    requires DayNumber(start) <= DayNumber(end)
    ensures var n := Models.DurationDays(Models.LeaveDay(Some(start), Some(end), status));
      n >= 1 && LeaveDayCount(FormatIso(start), FormatIso(end)) == Some(n)
  {
    var n := Models.DurationDays(Models.LeaveDay(Some(start), Some(end), status));
    LeaveDaysOfDuration(start, end, status, n);
  }

  /** The step of the lemma above, with the server's count named. */
  lemma {:induction false} LeaveDaysOfDuration(start: Date, end: Date, status: string, n: int)
    requires ValidDate(start) && 0 <= start.year <= 9999
    requires ValidDate(end) && 0 <= end.year <= 9999
    requires n == Models.DurationDays(Models.LeaveDay(Some(start), Some(end), status)) && n >= 1
    ensures LeaveDayCount(FormatIso(start), FormatIso(end)) == Some(n)
  {
    var s, e := DayNumber(start), DayNumber(end);
    assert n == e - s + 1;
    LeaveDaysOfDates(start, end, s, e);
  }

  /** One day is labelled `1 day`. */
  lemma {:induction false} OneDayLabel()
    ensures DaysLabel(1) == "1 day"
  {
    assert IntToString(1) == NatToString(1) == [DigitChar(1)] == "1";
  }

  /** The same date twice shows `1 day`. */
  lemma {:induction false} SameDayIsOneDay(d: Date)
    requires ValidDate(d) && 0 <= d.year <= 9999
    ensures LeaveDaysText(FormatIso(d), FormatIso(d)) == Some("1 day")
  {
    InputDayOfFormatIso(d);
    LeaveDaysOfInputs(FormatIso(d), FormatIso(d), DayNumber(d), DayNumber(d));
    OneDayLabel();
  }

  /** An end before the start shows `0 days`. */
  lemma {:induction false} EndBeforeStartIsZeroDays(start: Date, end: Date)
    requires ValidDate(start) && 0 <= start.year <= 9999
    requires ValidDate(end) && 0 <= end.year <= 9999
    requires DayNumber(end) < DayNumber(start)
    ensures LeaveDayCount(FormatIso(start), FormatIso(end)) == Some(0)
    ensures LeaveDaysText(FormatIso(start), FormatIso(end)) == Some("0 days")
  {
    InputDayOfFormatIso(start);
    InputDayOfFormatIso(end);
  }

  /** Whatever the count, the text is the label of that count. */
  lemma {:induction false} LeaveDaysTextIsLabel(startValue: string, endValue: string)
    ensures LeaveDaysText(startValue, endValue).Some? <==> LeaveDayCount(startValue, endValue).Some?
    ensures LeaveDayCount(startValue, endValue).Some? ==>
      LeaveDaysText(startValue, endValue) == Some(DaysLabel(LeaveDayCount(startValue, endValue).value))
  {
    ZeroDaysLabel();
  }

  /** With an input empty, the count is left as it was. */
  lemma {:induction false} EmptyInputLeavesCount(startValue: string, endValue: string)
    ensures LeaveDaysText(startValue, endValue).None? <==> startValue == "" || endValue == ""
    ensures LeaveDayCount(startValue, endValue).None? <==> startValue == "" || endValue == ""
  {
  }

  // ---------------------------------------------------------------------------
  // The request form

  /** The two date inputs of the request form, the end input's `min`, and the day-count text. */
  class LeaveForm {
    var startValue: string
    var endValue: string
    var startMin: string
    var endMin: string
    var totalDays: string

    /** The page opens with both minimums at today. */
    constructor(today: string)
      ensures startValue == "" && endValue == ""
      ensures startMin == today && endMin == today && totalDays == ""
    {
      startValue, endValue, startMin, endMin, totalDays := "", "", today, today, "";
    }

    /** `showLeaveRequestModal`: both dates are set to today, then counted. */
    method ShowModal(today: string)
      modifies this
      ensures startValue == today && endValue == today
      ensures startMin == old(startMin) && endMin == old(endMin)
      ensures totalDays == LeaveDaysText(today, today).GetOr(old(totalDays))
    {
      startValue, endValue := today, today;
      CalculateLeaveDays();
    }

    /** `calculateLeaveDays` on the current inputs. */
    method CalculateLeaveDays()
      modifies this
      ensures startValue == old(startValue) && endValue == old(endValue)
      ensures startMin == old(startMin) && endMin == old(endMin)
      ensures totalDays == LeaveDaysText(startValue, endValue).GetOr(old(totalDays))
    {
      var text := LeaveDaysText(startValue, endValue);
      if text.Some? {
        totalDays := text.value;
      }
    }

    /**
     * The start input's change handler: the end may not be earlier than the
     * start, so an earlier (or empty) end is raised to the start.
     */
    method OnStartDateChange(value: string)
      modifies this
      ensures startValue == value && endMin == value && startMin == old(startMin)
      ensures endValue == (if LexLess(old(endValue), value) then value else old(endValue))
      ensures !LexLess(endValue, startValue)
      ensures totalDays == LeaveDaysText(startValue, endValue).GetOr(old(totalDays))
    {
      startValue := value;
      endMin := value;
      if LexLess(endValue, value) {
        endValue := value;
        LexIrreflexive(value);
      }
      CalculateLeaveDays();
    }

    /** The end input's change handler. */
    method OnEndDateChange(value: string)
      modifies this
      ensures endValue == value && startValue == old(startValue)
      ensures startMin == old(startMin) && endMin == old(endMin)
      ensures totalDays == LeaveDaysText(startValue, endValue).GetOr(old(totalDays))
    {
      endValue := value;
      CalculateLeaveDays();
    }
  }

  /**
   * On dates, the start-date rule leaves an end that is not before the
   * start: string comparison of the ISO texts is date comparison.
   */
  lemma {:induction false} StartRuleOrdersDates(start: Date, end: Date)
    requires ValidDate(start) && 0 <= start.year <= 9999
    requires ValidDate(end) && 0 <= end.year <= 9999
    ensures var kept := if LexLess(FormatIso(end), FormatIso(start)) then start else end;
      DayNumber(kept) >= DayNumber(start)
  {
    IsoOrder(end, start);
  }

  /** After the start-date rule on two dates, the form never shows `0 days`. */
  lemma {:induction false} StartRuleCountsAtLeastOneDay(start: Date, end: Date)
    requires ValidDate(start) && 0 <= start.year <= 9999
    requires ValidDate(end) && 0 <= end.year <= 9999
    ensures var kept := if LexLess(FormatIso(end), FormatIso(start)) then start else end;
      var c := LeaveDayCount(FormatIso(start), FormatIso(kept));
      c.Some? && c.value >= 1
  {
    StartRuleOrdersDates(start, end);
    var kept := if LexLess(FormatIso(end), FormatIso(start)) then start else end;
    LeaveDaysMatchesDurationDays(start, kept, "pending");
  }

  // ---------------------------------------------------------------------------
  // Submission checks

  /** What `submitLeaveRequest` sends once the checks pass. */
  datatype LeaveSubmission = LeaveSubmission(
    startDate: string, endDate: string, leaveType: string, reason: string, contact: string)

  const RequiredFieldsMessage: string := "Please fill in all required fields"
  const DateOrderMessage: string := "End date must be after start date"

  /** `new Date(endDate) < new Date(startDate)`: false when either is not a date. */
  predicate EndsBeforeStart(startDate: string, endDate: string)
  {
    match (InputDay(startDate), InputDay(endDate))
    case (Some(s), Some(e)) => e < s
    case _ => false
  }

  /** The checks before any request is made, with the alert each failure shows. */
  function ValidateLeaveRequest(startDate: string, endDate: string, leaveType: string, reason: string, contact: string)
    : (r: Result<LeaveSubmission, string>)
    ensures r.Ok? <==> startDate != "" && endDate != "" && leaveType != "" && reason != ""
                       && !EndsBeforeStart(startDate, endDate)
    ensures r.Ok? ==> r.value == LeaveSubmission(startDate, endDate, leaveType, reason, contact)
    ensures r.Err? ==> r.error in [RequiredFieldsMessage, DateOrderMessage]
  {
    if startDate == "" || endDate == "" || leaveType == "" || reason == "" then Err(RequiredFieldsMessage)
    else if EndsBeforeStart(startDate, endDate) then Err(DateOrderMessage)
    else Ok(LeaveSubmission(startDate, endDate, leaveType, reason, contact))
  }

  /** A missing field is reported first; the contact may be left empty. */
  lemma {:induction false} ValidationOrder(startDate: string, endDate: string, leaveType: string, reason: string, contact: string)
    ensures var r := ValidateLeaveRequest(startDate, endDate, leaveType, reason, contact);
      (r == Err(RequiredFieldsMessage) <==> startDate == "" || endDate == "" || leaveType == "" || reason == "")
      && (r.Ok? ==> ValidateLeaveRequest(startDate, endDate, leaveType, reason, "").Ok?)
  {
    assert RequiredFieldsMessage != DateOrderMessage by {
      assert RequiredFieldsMessage[0] != DateOrderMessage[0];
    }
  }

  /** A day-long request of any date passes the date check. */
  lemma {:induction false} SameDayPassesDateCheck(d: Date)
    requires ValidDate(d) && 0 <= d.year <= 9999
    ensures !EndsBeforeStart(FormatIso(d), FormatIso(d))
  {
    ParseIsoOfFormatIso(d);
  }

  // ---------------------------------------------------------------------------
  // Status badges and action buttons

  /**
   * The badges a request can show: `Approved`, `HR Approved`, `Rejected`,
   * `HR Rejected` and `Pending Approval`.
   */
  datatype Badge = Approved | HrApproved | Rejected | HrRejected | PendingApproval

  /** `getStatusBadges`: the status badge, then an HR badge when HR agreed. */
  method StatusBadges(status: string, hrStatus: string) returns (badges: seq<Badge>)
    ensures badges == (if status == "approved" then [Approved] + (if hrStatus == "approved" then [HrApproved] else [])
                       else if status == "rejected" then [Rejected] + (if hrStatus == "rejected" then [HrRejected] else [])
                       else [PendingApproval])
    ensures 1 <= |badges| <= 2
    ensures |badges| == 2 <==> status in ["approved", "rejected"] && hrStatus == status
    ensures badges[0] == (if status == "approved" then Approved
                          else if status == "rejected" then Rejected
                          else PendingApproval)
    ensures HrApproved in badges <==> status == "approved" && hrStatus == "approved"
    ensures HrRejected in badges <==> status == "rejected" && hrStatus == "rejected"
    ensures PendingApproval in badges <==> |badges| == 1 && status != "approved" && status != "rejected"
  {
    if status == "approved" {
      badges := [Approved];
      if hrStatus == "approved" {
        badges := badges + [HrApproved];
      }
    } else if status == "rejected" {
      badges := [Rejected];
      if hrStatus == "rejected" {
        badges := badges + [HrRejected];
      }
    } else {
      badges := [PendingApproval];
    }
  }

  /** What `getActionButtons` renders: nothing, or the approve and reject buttons of request `id`. */
  datatype Actions = NoActions | ApproveReject(requestId: int)

  function ActionButtons(requestId: int, status: string): (r: Actions)
    ensures r == NoActions <==> status != "pending"
    ensures r != NoActions ==> r == ApproveReject(requestId)
  {
    if status != "pending" then NoActions else ApproveReject(requestId)
  }

  // ---------------------------------------------------------------------------
  // Statistics cards

  /**
   * One of the three list requests: the answer that came back, whether it
   * succeeded and how many requests it listed, or the exception that
   * `fetch` or `response.json()` threw.
   */
  datatype ListResponse = Listed(success: bool, count: nat) | Threw

  predicate Succeeded(r: ListResponse) { r.Listed? && r.success }

  const Statuses: seq<string> := ["pending", "approved", "rejected"]

  /** The counts of the responses that succeeded, added up. */
  function SucceededTotal(responses: seq<ListResponse>): nat
  {
    if |responses| == 0 then 0
    else
      var last := responses[|responses| - 1];
      SucceededTotal(responses[..|responses| - 1]) + (if Succeeded(last) then last.count else 0)
  }

  /**
   * How many responses the loop gets through: it stops at the first one
   * that threw, and the `catch` skips everything after it.
   */
  function Reached(responses: seq<ListResponse>): (n: nat)
    ensures n <= |responses|
    ensures forall j :: 0 <= j < n ==> responses[j].Listed?
    ensures n < |responses| ==> responses[n].Threw?
    decreases |responses|
  {
    if |responses| == 0 || responses[0].Threw? then 0
    else
      var n := Reached(responses[1..]);
      assert forall j :: 1 <= j < n + 1 ==> responses[j] == responses[1..][j - 1];
      n + 1
  }

  /** When every list request succeeds, the monthly card is the sum of the three counts. */
  lemma {:induction false} AllSucceededTotal(responses: seq<ListResponse>)
    requires |responses| == 3 && forall i :: 0 <= i < 3 ==> Succeeded(responses[i])
    ensures Reached(responses) == 3
    ensures SucceededTotal(responses) == responses[0].count + responses[1].count + responses[2].count
  {
    assert responses[..3] == responses;
    assert responses[..2][..1] == responses[..1];
    assert responses[..1][..0] == [];
    assert SucceededTotal(responses[..1]) == responses[0].count;
    assert SucceededTotal(responses[..2]) == responses[0].count + responses[1].count;
  }

  /** A failed request drops exactly its own count from the total. */
  lemma {:induction false} FailedResponseDropsCount(responses: seq<ListResponse>, i: nat)
    requires i < |responses|
    ensures SucceededTotal(responses[i := Listed(false, 0)])
      == SucceededTotal(responses) - (if Succeeded(responses[i]) then responses[i].count else 0)
    decreases |responses|
  {
    var n := |responses| - 1;
    var failed := responses[i := Listed(false, 0)];
    if i < n {
      assert failed[..n] == responses[..n][i := Listed(false, 0)];
      FailedResponseDropsCount(responses[..n], i);
    } else {
      assert failed[..n] == responses[..n];
    }
  }

  /** The count cards of the page, by status, and the monthly card. */
  class StatisticsCards {
    var counts: map<string, nat>
    var monthlyCount: Option<nat>

    constructor()
      ensures counts == map[] && monthlyCount == None
    {
      counts, monthlyCount := map[], None;
    }

    /**
     * `updateStatistics`: a card is set for each list request that
     * succeeded, the others keep their text, and the monthly card shows the
     * sum of the counts that came back. A request that throws ends the
     * `try`: its card, the cards after it and the monthly card keep their text.
     */
    method UpdateStatistics(responses: seq<ListResponse>)
      requires |responses| == |Statuses|
      modifies this
      ensures monthlyCount == (if Reached(responses) == |responses| then Some(SucceededTotal(responses))
                               else old(monthlyCount))
      ensures forall i :: 0 <= i < Reached(responses) && Succeeded(responses[i]) ==>
        Statuses[i] in counts && counts[Statuses[i]] == responses[i].count
      ensures forall i :: 0 <= i < |Statuses| && (Reached(responses) <= i || !Succeeded(responses[i])) ==>
        (Statuses[i] in counts <==> Statuses[i] in old(counts))
        && (Statuses[i] in counts ==> counts[Statuses[i]] == old(counts)[Statuses[i]])
      ensures forall k :: k !in Statuses ==>
        (k in counts <==> k in old(counts)) && (k in counts ==> counts[k] == old(counts)[k])
    {
      var monthly := 0;
      var i := 0;
      while i < |Statuses|
        invariant 0 <= i <= |Statuses| && i <= Reached(responses)
        invariant monthly == SucceededTotal(responses[..i])
        invariant monthlyCount == old(monthlyCount)
        invariant forall j :: 0 <= j < i && Succeeded(responses[j]) ==>
          Statuses[j] in counts && counts[Statuses[j]] == responses[j].count
        invariant forall j :: i <= j < |Statuses| || (0 <= j < i && !Succeeded(responses[j])) ==>
          (Statuses[j] in counts <==> Statuses[j] in old(counts))
          && (Statuses[j] in counts ==> counts[Statuses[j]] == old(counts)[Statuses[j]])
        invariant forall k :: k !in Statuses ==>
          (k in counts <==> k in old(counts)) && (k in counts ==> counts[k] == old(counts)[k])
      {
        if responses[i].Threw? {
          return;
        }
        assert responses[..i + 1][..i] == responses[..i];
        if responses[i].success {
          counts := counts[Statuses[i] := responses[i].count];
          monthly := monthly + responses[i].count;
        }
        i := i + 1;
      }
      assert responses[..i] == responses;
      monthlyCount := Some(monthly);
    }
  }
}
