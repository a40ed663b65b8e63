/**
 * The calendar page (calendar.js): the add-event form and the request it
 * sends, the event details dialog's delete button, the delete request it
 * builds from a listed event's id, and `capitalizeFirst`.
 *
 * The form's inputs and the page's data attributes are values the page
 * holds; the requests are returned rather than sent.
 */
module Calendar {
  import opened Wrappers
  import opened Text
  import opened TimeOfDay
  import opened Events

  // ---------------------------------------------------------------------------
  // capitalizeFirst

  /** `str.charAt(0).toUpperCase() + str.slice(1)`. */
  function CapitalizeFirst(s: string): (r: string)
    ensures |r| == |s|
    ensures |s| > 0 ==> r[0] == UpperAscii(s[0]) && r[1..] == s[1..]
  {
    if |s| == 0 then "" else [UpperAscii(s[0])] + s[1..]
  }

  /** Capitalising twice is capitalising once, and the empty text stays empty. */
  lemma {:induction false} CapitalizeFirstIdempotent(s: string)
    ensures CapitalizeFirst(CapitalizeFirst(s)) == CapitalizeFirst(s)
    ensures CapitalizeFirst("") == ""
  {
  }

  /** The success alert names the kind of event with a capital: `Availability`, `Busy`, `Leave`. */
  lemma {:induction false} CapitalizedTypeNames()
    ensures CapitalizeFirst(TypeName(Availability)) == "Availability"
    ensures CapitalizeFirst(TypeName(Busy)) == "Busy"
    ensures CapitalizeFirst(TypeName(Leave)) == "Leave"
  {
  }

  // ---------------------------------------------------------------------------
  // The add-event form

  /** The values of the form's inputs. */
  datatype Form = Form(date: string, startTime: string, endTime: string, title: string,
                       description: string, leaveType: string)

  const NoDateMessage: string := "Please select a date."
  const NoTimesMessage: string := "Please select start and end times."
  const TimeOrderMessage: string := "End time must be after start time."

  /** The availability and busy forms ask for times; the leave form does not. */
  predicate HasTimes(t: Option<EventType>) { t == Some(Availability) || t == Some(Busy) }

  /**
   * The alert `addEvent` shows instead of sending, if any: a missing date
   * first, then a missing time, then (busy slots only) a start that is not
   * before the end as strings compare.
   */
  function Rejection(t: Option<EventType>, f: Form): Option<string>
  {
    if f.date == "" then Some(NoDateMessage)
    else if HasTimes(t) && (f.startTime == "" || f.endTime == "") then Some(NoTimesMessage)
    else if t == Some(Busy) && !LexLess(f.startTime, f.endTime) then Some(TimeOrderMessage)
    else None
  }

  /** An empty date is refused whatever else the form holds. */
  lemma {:induction false} EmptyDateRejectedFirst(t: Option<EventType>, f: Form)
    requires f.date == ""
    ensures Rejection(t, f) == Some(NoDateMessage)
  {
  }

  /** A slot needs both times; a leave request needs neither. */
  lemma {:induction false} TimesRequiredForSlots(t: Option<EventType>, f: Form)
    requires f.date != ""
    ensures HasTimes(t) && (f.startTime == "" || f.endTime == "") ==> Rejection(t, f) == Some(NoTimesMessage)
    ensures t == Some(Leave) ==> Rejection(t, f).None?
  {
  }

  /**
   * On the `HH:MM` values of time inputs, a busy slot is accepted exactly
   * when it starts before it ends; an availability slot is accepted in any
   * order, even one that ends before it starts.
   */
  lemma {:induction false} SlotOrderRule(f: Form, a: Clock, b: Clock)
    requires f.date != "" && ValidClock(a) && ValidClock(b)
    requires f.startTime == ClockText(a) && f.endTime == ClockText(b)
    ensures Rejection(Some(Busy), f).None? <==> MinuteOfDay(a) < MinuteOfDay(b)
    ensures Rejection(Some(Availability), f).None?
  {
    ClockOrder(a, b);
  }

  /** The body `addEvent` posts: the date and type, then the fields of the type. */
  datatype Payload = Payload(date: string, eventType: Option<EventType>, startTime: Option<string>,
                             endTime: Option<string>, title: Option<string>, description: Option<string>,
                             leaveType: Option<string>, notes: Option<string>)

  datatype Submission = Submission(endpoint: string, payload: Payload)

  /** `/api/${currentEventType}`; before any dialog was opened the type is `null`. */
  function Endpoint(t: Option<EventType>): string
  {
    match t
    case Some(k) => "/api/" + TypeName(k)
    case None => "/api/null"
  }

  /** `JSON.stringify(eventData)` as the server reads it: the fields that are present. */
  function PayloadData(p: Payload): EventData
  {
    var fields := map["date" := p.date];
    var fields := if p.startTime.Some? then fields["start_time" := p.startTime.value] else fields;
    var fields := if p.endTime.Some? then fields["end_time" := p.endTime.value] else fields;
    var fields := if p.title.Some? then fields["title" := p.title.value] else fields;
    var fields := if p.description.Some? then fields["description" := p.description.value] else fields;
    var fields := if p.leaveType.Some? then fields["leave_type" := p.leaveType.value] else fields;
    var fields := if p.notes.Some? then fields["notes" := p.notes.value] else fields;
    EventData(fields, None)
  }

  /**
   * What `add_busy_slot` reads from the body of an accepted busy form: the
   * times as typed, and a title that is `Busy` when the form's was empty,
   * whichever side supplies the default.
   */
  lemma {:induction false} BusyPayloadAsServerReadsIt(f: Form, p: Payload, a: Clock, b: Clock)
    requires ValidClock(a) && ValidClock(b) && f.startTime == ClockText(a) && f.endTime == ClockText(b)
    requires p == Payload(f.date, Some(Busy), Some(f.startTime), Some(f.endTime),
                          Some(if f.title == "" then "Busy" else f.title), Some(f.description), None, None)
    ensures ClockField(PayloadData(p), "start_time") == Some(a)
    ensures ClockField(PayloadData(p), "end_time") == Some(b)
    ensures TextField(PayloadData(p), "title", "Busy") == (if f.title == "" then "Busy" else f.title)
    ensures TextField(PayloadData(p), "description", "") == f.description
    ensures "recurring" !in PayloadData(p).fields
  {
    ParseClockTextOfClockText(a);
    ParseClockTextOfClockText(b);
  }

  // ---------------------------------------------------------------------------
  // The delete request

  /** `DELETE /api/events/${eventType}/${actualId}`. */
  datatype DeleteRequest = DeleteRequest(eventType: string, actualId: string)

  /** `eventId.split('-')[1]`, which is `undefined` (written into the URL as such) without a dash. */
  function SecondSegment(id: string): (r: string)
    ensures '-' !in id ==> r == "undefined"
  {
    var parts := SplitOn(id, '-');
    if |parts| >= 2 then parts[1] else "undefined"
  }

  /** The request for deleting event `e`. */
  function DeleteTarget(e: CalendarEvent): DeleteRequest
  {
    DeleteRequest(TypeOf(e), SecondSegment(IdOf(e)))
  }

  /**
   * The request built from a listed event addresses exactly its row: the
   * type names the table and the second segment of `avail-N`, `busy-N` or
   * `leave-N` is `N`.
   */
  lemma {:induction false} DeleteTargetAddressesRow(u: User, r: Record)
    requires Listable(r)
    ensures var d := DeleteTarget(ToEvent(u, r));
      ParseEventType(d.eventType) == Some(KindOf(r)) && ParseNat(d.actualId) == Some(r.id)
  {
    EventIdParts(KindOf(r), r.id);
    ParseNatOfNatToString(r.id);
    ParseEventTypeOfName(KindOf(r));
  }

  /** `parseInt(document.body.dataset.currentUserId) || 0`. */
  function CurrentUserId(text: string): int
  {
    ParseInt(text).GetOr(0)
  }

  /** The delete button is shown for the viewer's own events and for administrators. */
  predicate DeleteVisible(e: CalendarEvent, userIdText: string, isAdminText: string)
  {
    e.userId == CurrentUserId(userIdText) || isAdminText == "true"
  }

  /**
   * On a page rendered for user `u`, the button is shown exactly when the
   * server's owner-or-administrator rule lets `u` delete the event.
   */
  lemma {:induction false} DeleteVisibleMatchesServerRule(e: CalendarEvent, u: User)
    ensures DeleteVisible(e, NatToString(u.id), if u.isAdmin then "true" else "false")
      <==> e.userId == u.id || u.isAdmin
  {
    ParseNatOfNatToString(u.id);
    assert "false" != "true" by { assert "false"[0] != "true"[0]; }
  }

  // ---------------------------------------------------------------------------
  // The page

  /** The page's globals `currentEventType` and `selectedEvent`, the form, and the delete button. */
  class CalendarPage {
    var currentEventType: Option<EventType>
    var selectedEvent: Option<CalendarEvent>
    var form: Form
    var deleteVisible: bool

    /** Page load and `initializeModalHandlers`: today's date and 09:00 to 17:00 in the form. */
    constructor(today: string)
      ensures currentEventType.None? && selectedEvent.None? && !deleteVisible
      ensures form == Form(today, "09:00", "17:00", "", "", "")
    {
      currentEventType := None;
      selectedEvent := None;
      form := Form(today, "09:00", "17:00", "", "", "");
      deleteVisible := false;
    }

    /** `dateClick`: the clicked day goes into the date input. */
    method PickDate(dateStr: string)
      modifies this
      ensures form == old(form).(date := dateStr)
      ensures currentEventType == old(currentEventType) && selectedEvent == old(selectedEvent)
      ensures deleteVisible == old(deleteVisible)
    {
      form := form.(date := dateStr);
    }

    /**
     * `showAddModal`: the form is reset to empty inputs and today's date,
     * then given the defaults of the kind of event.
     */
    method ShowAddModal(eventType: EventType, today: string)
      modifies this
      ensures currentEventType == Some(eventType)
      ensures form == match eventType
        case Availability => Form(today, "09:00", "17:00", "", "", "")
        case Busy => Form(today, "10:00", "11:00", "Meeting", "", "")
        case Leave => Form(today, "", "", "", "", "Leave")
      ensures selectedEvent == old(selectedEvent) && deleteVisible == old(deleteVisible)
    {
      currentEventType := Some(eventType);
      form := Form(today, "", "", "", "", "");
      match eventType {
        case Availability =>
          form := form.(startTime := "09:00", endTime := "17:00");
        case Busy =>
          form := form.(title := "Meeting", startTime := "10:00", endTime := "11:00");
        case Leave =>
          form := form.(leaveType := "Leave");
      }
    }

    /**
     * `addEvent`: the payload is filled in field by field for the current
     * type, then checked; either the alert shown or the request sent.
     */
    method AddEvent() returns (r: Result<Submission, string>)
      ensures Rejection(currentEventType, form).Some? ==> r == Err(Rejection(currentEventType, form).value)
      ensures Rejection(currentEventType, form).None? ==> r.Ok? && r.value.endpoint == Endpoint(currentEventType)
      ensures r.Ok? ==>
        var p, t := r.value.payload, currentEventType;
        p.date == form.date && p.eventType == t
        && p.startTime == (if HasTimes(t) then Some(form.startTime) else None)
        && p.endTime == (if HasTimes(t) then Some(form.endTime) else None)
        && p.title == (if t == Some(Busy) then Some(if form.title == "" then "Busy" else form.title) else None)
        && p.description == (if t == Some(Busy) then Some(form.description) else None)
        && p.leaveType == (if t == Some(Leave) then Some(form.leaveType) else None)
        && p.notes == (if t == Some(Leave) then Some(form.description) else None)
    {
      var p := Payload(form.date, currentEventType, None, None, None, None, None, None);
      match currentEventType {
        case Some(Availability) =>
          p := p.(startTime := Some(form.startTime), endTime := Some(form.endTime));
        case Some(Busy) =>
          p := p.(startTime := Some(form.startTime), endTime := Some(form.endTime));
          p := p.(title := Some(if form.title == "" then "Busy" else form.title));
          p := p.(description := Some(form.description));
        case Some(Leave) =>
          p := p.(leaveType := Some(form.leaveType), notes := Some(form.description));
        case None =>
      }
      if p.date == "" {
        return Err(NoDateMessage);
      }
      if HasTimes(currentEventType) && (p.startTime.value == "" || p.endTime.value == "") {
        return Err(NoTimesMessage);
      }
      if currentEventType == Some(Busy) && !LexLess(p.startTime.value, p.endTime.value) {
        return Err(TimeOrderMessage);
      }
      return Ok(Submission(Endpoint(currentEventType), p));
    }

    /** `showEventDetails`: the event is selected and the delete button shown or hidden. */
    method ShowEventDetails(e: CalendarEvent, userIdText: string, isAdminText: string)
      modifies this
      ensures selectedEvent == Some(e)
      ensures deleteVisible == DeleteVisible(e, userIdText, isAdminText)
      ensures currentEventType == old(currentEventType) && form == old(form)
    {
      selectedEvent := Some(e);
      var currentUserId := CurrentUserId(userIdText);
      var isAdmin := isAdminText == "true";
      if e.userId == currentUserId || isAdmin {
        deleteVisible := true;
      } else {
        deleteVisible := false;
      }
    }

    /** `deleteEvent`: nothing without a selected event or without confirmation. */
    method DeleteEvent(confirmed: bool) returns (r: Option<DeleteRequest>)
      ensures r.None? <==> selectedEvent.None? || !confirmed
      ensures r.Some? ==> r.value == DeleteTarget(selectedEvent.value)
    {
      if selectedEvent.None? {
        return None;
      }
      if !confirmed {
        return None;
      }
      var e := selectedEvent.value;
      var actualId := SecondSegment(IdOf(e));
      return Some(DeleteRequest(TypeOf(e), actualId));
    }
  }

  /** The default busy form (10:00 to 11:00) and the default availability form pass the checks. */
  lemma {:induction false} DefaultFormsAccepted(today: string)
    requires today != ""
    ensures Rejection(Some(Availability), Form(today, "09:00", "17:00", "", "", "")).None?
    ensures Rejection(Some(Busy), Form(today, "10:00", "11:00", "Meeting", "", "")).None?
    ensures Rejection(Some(Leave), Form(today, "", "", "", "", "Leave")).None?
  {
    assert "10:00"[1] < "11:00"[1];
    assert LexLess("10:00", "11:00") by {
      assert "10:00"[1..] == "0:00" && "11:00"[1..] == "1:00";
    }
  }
}
