/**
 * The calendar's event endpoints in routes.py, over an in-memory copy of
 * the three event tables: listing events for the calendar (`get_events`),
 * adding availability and busy slots, and updating and deleting an event
 * under the owner-or-admin rule.
 *
 * The signed-in user and the request body are parameters. A table's rows
 * are kept in the order the database returns them, ids unique.
 */
module Events {
  import opened Wrappers
  import opened Text
  import opened CivilDate
  import opened TimeOfDay

  // ---------------------------------------------------------------------------
  // Event types and ids

  /** The three kinds of calendar event, one table each. */
  datatype EventType = Availability | Busy | Leave

  /** The `<event_type>` segment of the update and delete URLs, and an event's `type`. */
  function TypeName(t: EventType): string
  {
    match t
    case Availability => "availability"
    case Busy => "busy"
    case Leave => "leave"
  }

  /** The `if`/`elif` chain on `event_type`: the three names, and nothing else. */
  function ParseEventType(s: string): (r: Option<EventType>)
    ensures r.Some? ==> TypeName(r.value) == s
    ensures r.None? ==> s != "availability" && s != "busy" && s != "leave"
  {
    if s == "availability" then Some(Availability)
    else if s == "busy" then Some(Busy)
    else if s == "leave" then Some(Leave)
    else None
  }

  lemma {:induction false} ParseEventTypeOfName(t: EventType)
    ensures ParseEventType(TypeName(t)) == Some(t)
  {
    match t
    case Availability =>
    case Busy =>
      assert "busy"[0] != "availability"[0];
    case Leave =>
      assert "leave"[0] != "availability"[0] && "leave"[0] != "busy"[0];
  }

  /** The prefix of a listed event's `id`. */
  function IdPrefix(t: EventType): (p: string)
    ensures |p| >= 1 && '-' !in p
  {
    match t
    case Availability => "avail"
    case Busy => "busy"
    case Leave => "leave"
  }

  /** The prefixes tell the types apart. */
  lemma {:induction false} IdPrefixInjective(t: EventType, u: EventType)
    ensures IdPrefix(t) == IdPrefix(u) <==> t == u
  {
  }

  /** `f'avail-{slot.id}'`, `f'busy-{slot.id}'`, `f'leave-{leave.id}'`. */
  function EventId(t: EventType, id: nat): string
  {
    IdPrefix(t) + "-" + NatToString(id)
  }

  /** An event id is its prefix and the record id, split at the one dash. */
  lemma {:induction false} EventIdParts(t: EventType, id: nat)
    ensures SplitOn(EventId(t, id), '-') == [IdPrefix(t), NatToString(id)]
  {
    var p, n := IdPrefix(t), NatToString(id);
    DigitsExclude(n, '-');
    assert EventId(t, id) == p + ['-'] + n;
    SplitOnTwo(p, n, '-');
  }

  /** Reads an event id back: the type from the prefix, the record id from the rest. */
  function DecodeEventId(s: string): Option<(EventType, nat)>
  {
    var parts := SplitOn(s, '-');
    if |parts| != 2 then None
    else
      var t := if parts[0] == "avail" then Some(Availability)
               else if parts[0] == "busy" then Some(Busy)
               else if parts[0] == "leave" then Some(Leave)
               else None;
      match (t, ParseNat(parts[1]))
      case (Some(k), Some(n)) => Some((k, n))
      case _ => None
  }

  /** Event ids read back as the type and record they were built from, so no two events share one. */
  lemma {:induction false} DecodeEventIdOfEventId(t: EventType, id: nat)
    ensures DecodeEventId(EventId(t, id)) == Some((t, id))
  {
    EventIdParts(t, id);
    ParseNatOfNatToString(id);
    IdPrefixInjective(t, Availability);
    IdPrefixInjective(t, Busy);
  }

  lemma {:induction false} EventIdInjective(t: EventType, a: nat, u: EventType, b: nat)
    ensures EventId(t, a) == EventId(u, b) <==> t == u && a == b
  {
    DecodeEventIdOfEventId(t, a);
    DecodeEventIdOfEventId(u, b);
  }

  /** The colour each kind of event is drawn in. */
  function Colour(t: EventType): string
  {
    match t
    case Availability => "#28a745"
    case Busy => "#dc3545"
    case Leave => "#ffc107"
  }

  // ---------------------------------------------------------------------------
  // Records and listed events

  datatype User = User(id: nat, username: string, isAdmin: bool)

  /** A row of `AvailabilitySlot`, `BusySlot` or (as routes.py reads it) `LeaveDay`. */
  datatype Record =
    | AvailabilitySlot(id: nat, userId: nat, date: Date, startTime: Clock, endTime: Clock, recurring: bool)
    | BusySlot(id: nat, userId: nat, date: Date, startTime: Clock, endTime: Clock, title: string, description: string)
    | LeaveRecord(id: nat, userId: nat, date: Date, leaveType: string, notes: string)

  function KindOf(r: Record): EventType
  {
    match r
    case AvailabilitySlot(_, _, _, _, _, _) => Availability
    case BusySlot(_, _, _, _, _, _, _) => Busy
    case LeaveRecord(_, _, _, _, _) => Leave
  }

  /** What listing a row needs: a date in the ranges of its ISO form and, on slots, two times of day. */
  predicate Listable(r: Record)
  {
    0 <= r.date.year <= 9999 && 0 <= r.date.month < 12 && 1 <= r.date.day <= 31
    && (!r.LeaveRecord? ==> ValidClock(r.startTime) && ValidClock(r.endTime))
  }

  /** A Python `date` (years 1 to 9999) and, on slots, two `time`s. */
  predicate ValidRecord(r: Record)
  {
    Listable(r) && ValidDate(r.date) && 1 <= r.date.year
  }

  /**
   * The dictionary `get_events` appends for one row, by what it is built
   * from; the texts it holds are the functions below.
   */
  datatype CalendarEvent = CalendarEvent(
    kind: EventType, rowId: nat, userId: nat, username: string, caption: string,
    date: Date, times: Option<(Clock, Clock)>, description: Option<string>, notes: Option<string>)

  /** `f'{slot.date}T{slot.start_time}'`. */
  function Moment(d: Date, c: Clock): string
    requires 0 <= d.year <= 9999 && 0 <= d.month < 12 && 1 <= d.day <= 31 && ValidClock(c)
  {
    FormatIso(d) + "T" + TimeText(c)
  }

  predicate ListableEvent(e: CalendarEvent)
  {
    0 <= e.date.year <= 9999 && 0 <= e.date.month < 12 && 1 <= e.date.day <= 31
    && (e.times.Some? ==> ValidClock(e.times.value.0) && ValidClock(e.times.value.1))
  }

  /** `id`. */
  function IdOf(e: CalendarEvent): string { EventId(e.kind, e.rowId) }

  /** `title`: the user's name, a dash, and `Available`, the slot's title or the leave type. */
  function TitleOf(e: CalendarEvent): string { e.username + " - " + e.caption }

  /** `start`: the date and start time of a slot, the bare date of a leave day. */
  function StartOf(e: CalendarEvent): string
    requires ListableEvent(e)
  {
    if e.times.Some? then Moment(e.date, e.times.value.0) else FormatIso(e.date)
  }

  /** `end`, which a leave day does not have. */
  function EndOf(e: CalendarEvent): Option<string>
    requires ListableEvent(e)
  {
    if e.times.Some? then Some(Moment(e.date, e.times.value.1)) else None
  }

  /** `allDay`, present (and true) on leave days only. */
  function AllDayOf(e: CalendarEvent): bool { e.kind == Leave }

  /** `color`. */
  function ColourOf(e: CalendarEvent): string { Colour(e.kind) }

  /** `type`. */
  function TypeOf(e: CalendarEvent): string { TypeName(e.kind) }

  /** The event listed for row `r` of user `u`. */
  function ToEvent(u: User, r: Record): (e: CalendarEvent)
    requires Listable(r)
    ensures ListableEvent(e)
    ensures e.kind == KindOf(r) && e.rowId == r.id && e.userId == u.id && e.username == u.username
    ensures e.date == r.date && (e.times.None? <==> r.LeaveRecord?)
  {
    match r
    case AvailabilitySlot(id, _, d, s, t, _) =>
      CalendarEvent(Availability, id, u.id, u.username, "Available", d, Some((s, t)), None, None)
    case BusySlot(id, _, d, s, t, title, description) =>
      CalendarEvent(Busy, id, u.id, u.username, title, d, Some((s, t)), Some(description), None)
    case LeaveRecord(id, _, d, leaveType, notes) =>
      CalendarEvent(Leave, id, u.id, u.username, leaveType, d, None, None, Some(notes))
  }

  /** The texts of a listed slot: its id, title, start, end and colour. */
  lemma {:induction false} SlotEventTexts(u: User, r: Record)
    requires Listable(r) && !r.LeaveRecord?
    ensures var e := ToEvent(u, r);
      IdOf(e) == IdPrefix(KindOf(r)) + "-" + NatToString(r.id)
      && TitleOf(e) == u.username + " - " + (if r.BusySlot? then r.title else "Available")
      && StartOf(e) == FormatIso(r.date) + "T" + TimeText(r.startTime)
      && EndOf(e) == Some(FormatIso(r.date) + "T" + TimeText(r.endTime))
      && !AllDayOf(e) && ColourOf(e) == (if r.BusySlot? then "#dc3545" else "#28a745")
      && e.description == (if r.BusySlot? then Some(r.description) else None)
  {
  }

  /** The texts of a listed leave day: no end, all day, its notes. */
  lemma {:induction false} LeaveEventTexts(u: User, r: Record)
    requires Listable(r) && r.LeaveRecord?
    ensures var e := ToEvent(u, r);
      IdOf(e) == "leave-" + NatToString(r.id) && TitleOf(e) == u.username + " - " + r.leaveType
      && StartOf(e) == FormatIso(r.date) && EndOf(e).None? && AllDayOf(e)
      && ColourOf(e) == "#ffc107" && e.notes == Some(r.notes)
  {
  }

  /** A listed event names its table and row: its id and type lead back to the record. */
  lemma {:induction false} ToEventAddressesRecord(u: User, r: Record)
    requires Listable(r)
    ensures DecodeEventId(IdOf(ToEvent(u, r))) == Some((KindOf(r), r.id))
    ensures ParseEventType(TypeOf(ToEvent(u, r))) == Some(KindOf(r))
  {
    DecodeEventIdOfEventId(KindOf(r), r.id);
    ParseEventTypeOfName(KindOf(r));
  }

  predicate AllValid(rows: seq<Record>) { forall i :: 0 <= i < |rows| ==> ValidRecord(rows[i]) }

  predicate AllListable(rows: seq<Record>) { forall i :: 0 <= i < |rows| ==> Listable(rows[i]) }

  lemma {:induction false} ValidRowsListable(rows: seq<Record>)
    requires AllValid(rows)
    ensures AllListable(rows)
  {
  }

  /** `filter_by(user_id=…)`: the rows of one user, in table order. */
  function RowsOf(rows: seq<Record>, userId: nat): (r: seq<Record>)
    ensures AllListable(rows) ==> AllListable(r)
    ensures |r| <= |rows|
  {
    if |rows| == 0 then []
    else
      var last := rows[|rows| - 1];
      RowsOf(rows[..|rows| - 1], userId) + (if last.userId == userId then [last] else [])
  }

  /** The filtered rows are exactly the table's rows of that user. */
  lemma {:induction false} RowsOfMembers(rows: seq<Record>, userId: nat)
    ensures forall x :: x in RowsOf(rows, userId) <==> x in rows && x.userId == userId
    decreases |rows|
  {
    if |rows| > 0 {
      var n := |rows| - 1;
      RowsOfMembers(rows[..n], userId);
      assert rows == rows[..n] + [rows[n]];
    }
  }

  /** The events of some rows of one user, in order. */
  function EventsOfRows(u: User, rows: seq<Record>): (es: seq<CalendarEvent>)
    requires AllListable(rows)
    ensures |es| == |rows|
  {
    if |rows| == 0 then [] else EventsOfRows(u, rows[..|rows| - 1]) + [ToEvent(u, rows[|rows| - 1])]
  }

  /** Each event of some rows is the event of one of them. */
  lemma {:induction false} EventsOfRowsFrom(u: User, rows: seq<Record>, e: CalendarEvent)
    requires AllListable(rows) && e in EventsOfRows(u, rows)
    ensures exists r :: r in rows && Listable(r) && e == ToEvent(u, r)
    decreases |rows|
  {
    var n := |rows| - 1;
    if e in EventsOfRows(u, rows[..n]) {
      EventsOfRowsFrom(u, rows[..n], e);
      var r :| r in rows[..n] && Listable(r) && e == ToEvent(u, r);
      assert r in rows;
    } else {
      assert rows[n] in rows;
    }
  }

  /** Everything one user contributes: availability, then busy slots, then leave. */
  function UserEvents(u: User, availability: seq<Record>, busy: seq<Record>, leave: seq<Record>): seq<CalendarEvent>
    requires AllListable(availability) && AllListable(busy) && AllListable(leave)
  {
    EventsOfRows(u, RowsOf(availability, u.id)) + EventsOfRows(u, RowsOf(busy, u.id)) + EventsOfRows(u, RowsOf(leave, u.id))
  }

  /** The list `get_events` returns for the selected users, user by user. */
  function EventsOf(users: seq<User>, availability: seq<Record>, busy: seq<Record>, leave: seq<Record>): seq<CalendarEvent>
    requires AllListable(availability) && AllListable(busy) && AllListable(leave)
  {
    if |users| == 0 then []
    else EventsOf(users[..|users| - 1], availability, busy, leave) + UserEvents(users[|users| - 1], availability, busy, leave)
  }

  /** One more user adds that user's events at the end. */
  lemma {:induction false} EventsOfStep(users: seq<User>, i: nat, availability: seq<Record>, busy: seq<Record>,
                                        leave: seq<Record>, before: seq<CalendarEvent>, after: seq<CalendarEvent>)
    requires AllListable(availability) && AllListable(busy) && AllListable(leave)
    requires i < |users| && before == EventsOf(users[..i], availability, busy, leave)
    requires after == before + UserEvents(users[i], availability, busy, leave)
    ensures after == EventsOf(users[..i + 1], availability, busy, leave)
  {
    assert users[..i + 1][..i] == users[..i];
  }

  function UserIds(users: seq<User>): set<nat> { set u | u in users :: u.id }

  /** Every event of one user's rows carries that user's id. */
  lemma {:induction false} EventsOfRowsOwner(u: User, rows: seq<Record>, e: CalendarEvent)
    requires AllListable(rows) && e in EventsOfRows(u, rows)
    ensures e.userId == u.id
  {
    EventsOfRowsFrom(u, rows, e);
  }

  /** The events one user contributes all carry that user's id. */
  lemma {:induction false} UserEventsOwner(u: User, availability: seq<Record>, busy: seq<Record>, leave: seq<Record>, e: CalendarEvent)
    requires AllListable(availability) && AllListable(busy) && AllListable(leave)
    requires e in UserEvents(u, availability, busy, leave)
    ensures e.userId == u.id
  {
    var a, b, l := RowsOf(availability, u.id), RowsOf(busy, u.id), RowsOf(leave, u.id);
    assert AllListable(a) && AllListable(b) && AllListable(l);
    if e in EventsOfRows(u, a) {
      EventsOfRowsOwner(u, a, e);
    } else if e in EventsOfRows(u, b) {
      EventsOfRowsOwner(u, b, e);
    } else {
      EventsOfRowsOwner(u, l, e);
    }
  }

  /** Every listed event belongs to one of the selected users. */
  lemma {:induction false} EventsOfSelectedUsers(users: seq<User>, availability: seq<Record>, busy: seq<Record>,
                                                 leave: seq<Record>, e: CalendarEvent)
    requires AllListable(availability) && AllListable(busy) && AllListable(leave)
    requires e in EventsOf(users, availability, busy, leave)
    ensures e.userId in UserIds(users)
    decreases |users|
  {
    var n := |users| - 1;
    var last := users[n];
    if e in EventsOf(users[..n], availability, busy, leave) {
      EventsOfSelectedUsers(users[..n], availability, busy, leave, e);
      assert UserIds(users[..n]) <= UserIds(users) by {
        forall x | x in UserIds(users[..n]) ensures x in UserIds(users) {
          var v :| v in users[..n] && v.id == x;
          assert v in users;
        }
      }
    } else {
      UserEventsOwner(last, availability, busy, leave, e);
      assert last in users;
    }
  }

  // ---------------------------------------------------------------------------
  // Whose events are listed

  /**
   * The users `get_events` lists. `None` is a request the handler does
   * not survive: a filter `int()` refuses, or the id of no user.
   */
  function SelectUsers(viewer: User, userFilter: Option<string>, allUsers: seq<User>): Option<seq<User>>
  {
    if viewer.isAdmin && userFilter.Some? && userFilter.value != "" then
      if userFilter.value == "all" then Some(allUsers)
      else
        match ParseInt(userFilter.value)
        case None => None
        case Some(n) => match FindUser(allUsers, n)
          case Some(u) => Some([u])
          case None => None
    else if viewer.isAdmin then Some(allUsers)
    else Some([viewer])
  }

  /** `User.query.get(id)`. */
  function FindUser(users: seq<User>, id: int): (r: Option<User>)
    ensures r.Some? ==> r.value in users && r.value.id == id
    ensures r.None? ==> forall u :: u in users ==> u.id != id
  {
    if |users| == 0 then None
    else if users[0].id == id then Some(users[0])
    else FindUser(users[1..], id)
  }

  /** The three ways an administrator sees users, and the one way everybody else does. */
  lemma {:induction false} SelectUsersCases(viewer: User, userFilter: Option<string>, allUsers: seq<User>)
    ensures !viewer.isAdmin ==> SelectUsers(viewer, userFilter, allUsers) == Some([viewer])
    ensures viewer.isAdmin && (userFilter.None? || userFilter == Some("") || userFilter == Some("all"))
      ==> SelectUsers(viewer, userFilter, allUsers) == Some(allUsers)
    ensures viewer.isAdmin && userFilter.Some? && userFilter.value != "all" && userFilter.value != ""
      ==> match SelectUsers(viewer, userFilter, allUsers)
          case Some(us) => |us| == 1 && us[0] in allUsers && Some(us[0].id) == ParseInt(userFilter.value)
          case None => ParseInt(userFilter.value).None? || forall u :: u in allUsers ==> Some(u.id) != ParseInt(userFilter.value)
  {
  }

  /** Whatever filter they send, a user who is not an administrator sees only their own events. */
  lemma {:induction false} NonAdminSeesOwnEvents(viewer: User, userFilter: Option<string>, allUsers: seq<User>,
                              availability: seq<Record>, busy: seq<Record>, leave: seq<Record>, e: CalendarEvent)
    requires !viewer.isAdmin
    requires AllListable(availability) && AllListable(busy) && AllListable(leave)
    requires e in EventsOf(SelectUsers(viewer, userFilter, allUsers).value, availability, busy, leave)
    ensures e.userId == viewer.id
  {
    EventsOfSelectedUsers([viewer], availability, busy, leave, e);
  }

  // ---------------------------------------------------------------------------
  // Request bodies

  /** The JSON body: its string fields, and `recurring` when the caller sent one. */
  datatype EventData = EventData(fields: map<string, string>, recurring: Option<bool>)

  /** Why a request failed. `NotFound` is `get_or_404`'s error, caught like any other. */
  datatype Failure = InvalidEventType | AccessDenied | NotFound | BadField(name: string)

  /** A JSON reply and its HTTP status. */
  datatype Reply = Success(id: Option<nat>) | Fail(status: nat, failure: Failure)

  /** `strptime(data[key], '%Y-%m-%d')`; `None` for a missing key or a text that is not a date. */
  function DateField(data: EventData, key: string): (r: Option<Date>)
    ensures r.Some? ==> ValidDate(r.value) && 1 <= r.value.year <= 9999
  {
    if key !in data.fields then None
    else match ParseIso(data.fields[key])
      case Some(d) => if d.year >= 1 then Some(d) else None
      case None => None
  }

  /** `strptime(data[key], '%H:%M')`. */
  function ClockField(data: EventData, key: string): (r: Option<Clock>)
    ensures r.Some? ==> ValidClock(r.value)
  {
    if key !in data.fields then None else ParseClockText(data.fields[key])
  }

  /** `data.get(key, default)`. */
  function TextField(data: EventData, key: string, default: string): (r: string)
    ensures key !in data.fields ==> r == default
    ensures key in data.fields ==> r == data.fields[key]
  {
    if key in data.fields then data.fields[key] else default
  }

  /**
   * `update_event`'s writes to a row: the date always, then the fields of
   * its kind; `BadField` names the first field that does not parse.
   */
  function UpdatedRecord(r: Record, data: EventData): (u: Result<Record, string>)
    ensures u.Ok? ==> KindOf(u.value) == KindOf(r) && u.value.id == r.id && u.value.userId == r.userId
    ensures u.Ok? ==> DateField(data, "date").Some? && u.value.date == DateField(data, "date").value
  {
    match DateField(data, "date")
    case None => Err("date")
    case Some(d) =>
      match r
      case LeaveRecord(id, userId, _, _, _) =>
        Ok(LeaveRecord(id, userId, d, TextField(data, "leave_type", "Leave"), TextField(data, "notes", "")))
      case _ =>
        match (ClockField(data, "start_time"), ClockField(data, "end_time"))
        case (None, _) => Err("start_time")
        case (Some(_), None) => Err("end_time")
        case (Some(s), Some(e)) =>
          match r
          case AvailabilitySlot(id, userId, _, _, _, recurring) =>
            Ok(AvailabilitySlot(id, userId, d, s, e, recurring))
          case BusySlot(id, userId, _, _, _, _, _) =>
            Ok(BusySlot(id, userId, d, s, e, TextField(data, "title", "Busy"), TextField(data, "description", "")))
  }

  /** The fields an update writes, by kind, and that it leaves `recurring` alone. */
  lemma {:induction false} UpdatedRecordFields(r: Record, data: EventData)
    requires UpdatedRecord(r, data).Ok?
    ensures var u := UpdatedRecord(r, data).value;
      (r.AvailabilitySlot? ==> u == AvailabilitySlot(r.id, r.userId, u.date, ClockField(data, "start_time").value,
                                                     ClockField(data, "end_time").value, r.recurring))
      && (r.BusySlot? ==> u == BusySlot(r.id, r.userId, u.date, ClockField(data, "start_time").value,
                                        ClockField(data, "end_time").value,
                                        TextField(data, "title", "Busy"), TextField(data, "description", "")))
      && (r.LeaveRecord? ==> u == LeaveRecord(r.id, r.userId, u.date, TextField(data, "leave_type", "Leave"),
                                              TextField(data, "notes", "")))
  {
  }

  /** An update of a valid row gives a valid row. */
  lemma {:induction false} UpdatedRecordValid(r: Record, data: EventData)
    requires ValidRecord(r) && UpdatedRecord(r, data).Ok?
    ensures ValidRecord(UpdatedRecord(r, data).value)
  {
  }

  /** Per table: rows of the table's kind, valid, ids unique. */
  predicate WellFormed(rows: seq<Record>, t: EventType)
  {
    AllValid(rows)
    && (forall i :: 0 <= i < |rows| ==> KindOf(rows[i]) == t)
    && (forall i, j :: 0 <= i < j < |rows| ==> rows[i].id != rows[j].id)
  }

  /** `query.get(id)`: where the row with that id is. */
  function IndexOfId(rows: seq<Record>, id: nat): (r: Option<nat>)
    ensures r.Some? ==> r.value < |rows| && rows[r.value].id == id
    ensures r.None? ==> forall k :: 0 <= k < |rows| ==> rows[k].id != id
  {
    if |rows| == 0 then None
    else if rows[|rows| - 1].id == id then Some(|rows| - 1)
    else IndexOfId(rows[..|rows| - 1], id)
  }

  /** The next row id: one past the largest in the table. */
  function NextId(rows: seq<Record>): (n: nat)
    ensures forall k :: 0 <= k < |rows| ==> rows[k].id < n
  {
    if |rows| == 0 then 1
    else
      var rest := NextId(rows[..|rows| - 1]);
      if rows[|rows| - 1].id < rest then rest else rows[|rows| - 1].id + 1
  }

  /** Replacing a row by one of the same kind and id keeps a table well formed. */
  lemma {:induction false} ReplaceKeepsWellFormed(rows: seq<Record>, t: EventType, i: nat, r: Record)
    requires WellFormed(rows, t) && i < |rows|
    requires ValidRecord(r) && KindOf(r) == t && r.id == rows[i].id
    ensures WellFormed(rows[i := r], t)
  {
  }

  /** Removing row `i` keeps a table well formed. */
  lemma {:induction false} RemoveKeepsWellFormed(rows: seq<Record>, t: EventType, i: nat)
    requires WellFormed(rows, t) && i < |rows|
    ensures WellFormed(rows[..i] + rows[i + 1..], t)
  {
    var rows' := rows[..i] + rows[i + 1..];
    assert forall k :: 0 <= k < |rows'| ==> rows'[k] == rows[if k < i then k else k + 1];
  }

  /** The rows left after removing row `i` are the rows before it and the rows after it. */
  lemma {:induction false} RemovedRows(rows: seq<Record>, i: nat)
    requires i < |rows|
    ensures var rows' := rows[..i] + rows[i + 1..];
      |rows'| == |rows| - 1
      && (forall k :: 0 <= k < i ==> rows'[k] == rows[k])
      && (forall k :: i <= k < |rows'| ==> rows'[k] == rows[k + 1])
  {
  }

  /** Removing row `i` leaves no row with its id: the ids are unique. */
  lemma {:induction false} RemoveDropsId(rows: seq<Record>, t: EventType, i: nat, x: Record)
    requires WellFormed(rows, t) && i < |rows| && x in rows[..i] + rows[i + 1..]
    ensures x in rows && x.id != rows[i].id
  {
    var rows' := rows[..i] + rows[i + 1..];
    RemovedRows(rows, i);
    var k :| 0 <= k < |rows'| && rows'[k] == x;
    if k < i {
      assert rows[k] == x && rows[k].id != rows[i].id;
    } else {
      assert rows[k + 1] == x && rows[i].id != rows[k + 1].id;
    }
  }

  /** Removing row `i` keeps every row with another id. */
  lemma {:induction false} RemoveKeepsOthers(rows: seq<Record>, i: nat, x: Record)
    requires i < |rows| && x in rows && x.id != rows[i].id
    ensures x in rows[..i] + rows[i + 1..]
  {
    var rows' := rows[..i] + rows[i + 1..];
    RemovedRows(rows, i);
    var k :| 0 <= k < |rows| && rows[k] == x;
    if k < i {
      assert rows'[k] == x;
    } else {
      assert rows'[k - 1] == x;
    }
  }

  /**
   * Removing row `i` takes out exactly the row with its id: every other
   * row stays, and no row with that id is left.
   */
  lemma {:induction false} RemoveExactlyOne(rows: seq<Record>, t: EventType, i: nat)
    requires WellFormed(rows, t) && i < |rows|
    ensures forall x :: x in rows[..i] + rows[i + 1..] <==> x in rows && x.id != rows[i].id
  {
    forall x | x in rows[..i] + rows[i + 1..] ensures x in rows && x.id != rows[i].id {
      RemoveDropsId(rows, t, i, x);
    }
    forall x | x in rows && x.id != rows[i].id ensures x in rows[..i] + rows[i + 1..] {
      RemoveKeepsOthers(rows, i, x);
    }
  }

  /** Appending a row with a new id keeps a table well formed. */
  lemma {:induction false} AppendKeepsWellFormed(rows: seq<Record>, t: EventType, r: Record)
    requires WellFormed(rows, t) && ValidRecord(r) && KindOf(r) == t && r.id == NextId(rows)
    ensures WellFormed(rows + [r], t)
  {
  }

  // ---------------------------------------------------------------------------
  // The event tables

  class EventStore {
    var availability: seq<Record>
    var busy: seq<Record>
    var leave: seq<Record>

    predicate Valid()
      reads this
    {
      WellFormed(availability, Availability) && WellFormed(busy, Busy) && WellFormed(leave, Leave)
    }

    /** The table of one kind of event. */
    function Table(t: EventType): seq<Record>
      reads this
    {
      match t
      case Availability => availability
      case Busy => busy
      case Leave => leave
    }

    constructor()
      ensures Valid() && availability == [] && busy == [] && leave == []
    {
      availability, busy, leave := [], [], [];
    }

    /** Writes one kind's table. */
    method SetTable(t: EventType, rows: seq<Record>)
      modifies this
      ensures Table(t) == rows
      ensures forall k :: k != t ==> Table(k) == old(Table(k))
      ensures availability == if t == Availability then rows else old(availability)
      ensures busy == if t == Busy then rows else old(busy)
      ensures leave == if t == Leave then rows else old(leave)
    {
      match t {
        case Availability => availability := rows;
        case Busy => busy := rows;
        case Leave => leave := rows;
      }
    }

    /**
     * `get_events`: the selected users' events, user by user, each user's
     * availability, then busy slots, then leave; `None` where the handler
     * fails.
     */
    method GetEvents(viewer: User, userFilter: Option<string>, allUsers: seq<User>) returns (r: Option<seq<CalendarEvent>>)
      requires Valid()
      ensures SelectUsers(viewer, userFilter, allUsers).None? ==> r.None?
      ensures SelectUsers(viewer, userFilter, allUsers).Some? ==>
        r == Some(EventsOf(SelectUsers(viewer, userFilter, allUsers).value, availability, busy, leave))
    {
      var selected := SelectUsers(viewer, userFilter, allUsers);
      if selected.None? {
        return None;
      }
      var users := selected.value;
      ValidRowsListable(availability);
      ValidRowsListable(busy);
      ValidRowsListable(leave);
      var events: seq<CalendarEvent> := [];
      var i := 0;
      while i < |users|
        invariant 0 <= i <= |users|
        invariant events == EventsOf(users[..i], availability, busy, leave)
      {
        ghost var before := events;
        events := AppendUserEvents(events, users[i], availability, busy, leave);
        EventsOfStep(users, i, availability, busy, leave, before, events);
        i := i + 1;
      }
      assert users[..i] == users;
      return Some(events);
    }

    /**
     * `update_event`: the type must be known, the row must exist, and the
     * requester must own it or be an administrator; then the row gets the
     * new fields, or nothing is stored when a field does not parse.
     */
    method UpdateEvent(eventType: string, eventId: nat, data: EventData, requester: User) returns (reply: Reply)
      requires Valid()
      modifies this
      ensures Valid()
      ensures ParseEventType(eventType).None? ==> reply == Fail(400, InvalidEventType) && unchanged(this)
      ensures ParseEventType(eventType).Some? ==>
        var t := ParseEventType(eventType).value;
        match IndexOfId(old(Table(t)), eventId)
        case None => reply == Fail(400, NotFound) && unchanged(this)
        case Some(i) =>
          var row := old(Table(t))[i];
          if row.userId != requester.id && !requester.isAdmin then
            reply == Fail(403, AccessDenied) && unchanged(this)
          else
            match UpdatedRecord(row, data)
            case Err(field) => reply == Fail(400, BadField(field)) && unchanged(this)
            case Ok(updated) =>
              reply == Success(Some(eventId)) && Table(t) == old(Table(t))[i := updated]
              && forall k :: k != t ==> Table(k) == old(Table(k))
    {
      var kind := ParseEventType(eventType);
      if kind.None? {
        return Fail(400, InvalidEventType);
      }
      var t := kind.value;
      var rows := Table(t);
      var found := IndexOfId(rows, eventId);
      if found.None? {
        return Fail(400, NotFound);
      }
      var i := found.value;
      var row := rows[i];
      if row.userId != requester.id && !requester.isAdmin {
        return Fail(403, AccessDenied);
      }
      var updated := UpdatedRecord(row, data);
      if updated.Err? {
        return Fail(400, BadField(updated.error));
      }
      UpdatedRecordValid(row, data);
      ReplaceKeepsWellFormed(rows, t, i, updated.value);
      SetTable(t, rows[i := updated.value]);
      return Success(Some(eventId));
    }

    /** `delete_event`: the same checks as an update, then the row goes. */
    method DeleteEvent(eventType: string, eventId: nat, requester: User) returns (reply: Reply)
      requires Valid()
      modifies this
      ensures Valid()
      ensures ParseEventType(eventType).None? ==> reply == Fail(400, InvalidEventType) && unchanged(this)
      ensures ParseEventType(eventType).Some? ==>
        var t := ParseEventType(eventType).value;
        match IndexOfId(old(Table(t)), eventId)
        case None => reply == Fail(400, NotFound) && unchanged(this)
        case Some(i) =>
          var row := old(Table(t))[i];
          if row.userId != requester.id && !requester.isAdmin then
            reply == Fail(403, AccessDenied) && unchanged(this)
          else
            reply == Success(None) && Table(t) == old(Table(t))[..i] + old(Table(t))[i + 1..]
            && (forall x :: x in Table(t) <==> x in old(Table(t)) && x.id != eventId)
            && forall k :: k != t ==> Table(k) == old(Table(k))
    {
      var kind := ParseEventType(eventType);
      if kind.None? {
        return Fail(400, InvalidEventType);
      }
      var t := kind.value;
      var rows := Table(t);
      var found := IndexOfId(rows, eventId);
      if found.None? {
        return Fail(400, NotFound);
      }
      var i := found.value;
      if rows[i].userId != requester.id && !requester.isAdmin {
        return Fail(403, AccessDenied);
      }
      RemoveKeepsWellFormed(rows, t, i);
      RemoveExactlyOne(rows, t, i);
      SetTable(t, rows[..i] + rows[i + 1..]);
      return Success(None);
    }

    /** `add_availability`: a new slot of the signed-in user; `recurring` is false unless sent. */
    method AddAvailability(data: EventData, user: User) returns (reply: Reply)
      requires Valid()
      modifies this
      ensures Valid() && busy == old(busy) && leave == old(leave)
      ensures match (DateField(data, "date"), ClockField(data, "start_time"), ClockField(data, "end_time"))
        case (Some(d), Some(s), Some(e)) =>
          var id := NextId(old(availability));
          reply == Success(Some(id))
          && availability == old(availability) + [AvailabilitySlot(id, user.id, d, s, e, data.recurring.GetOr(false))]
        case _ => reply.Fail? && reply.status == 400 && availability == old(availability)
    {
      match (DateField(data, "date"), ClockField(data, "start_time"), ClockField(data, "end_time")) {
        case (Some(d), Some(s), Some(e)) =>
          var id := NextId(availability);
          var slot := AvailabilitySlot(id, user.id, d, s, e, data.recurring.GetOr(false));
          AppendKeepsWellFormed(availability, Availability, slot);
          availability := availability + [slot];
          reply := Success(Some(id));
        case (None, _, _) =>
          reply := Fail(400, BadField("date"));
        case (_, None, _) =>
          reply := Fail(400, BadField("start_time"));
        case _ =>
          reply := Fail(400, BadField("end_time"));
      }
    }

    /** `add_busy_slot`: a new busy slot; the title defaults to `Busy`, the description to empty. */
    method AddBusySlot(data: EventData, user: User) returns (reply: Reply)
      requires Valid()
      modifies this
      ensures Valid() && availability == old(availability) && leave == old(leave)
      ensures match (DateField(data, "date"), ClockField(data, "start_time"), ClockField(data, "end_time"))
        case (Some(d), Some(s), Some(e)) =>
          var id := NextId(old(busy));
          reply == Success(Some(id))
          && busy == old(busy) + [BusySlot(id, user.id, d, s, e, TextField(data, "title", "Busy"),
                                           TextField(data, "description", ""))]
        case _ => reply.Fail? && reply.status == 400 && busy == old(busy)
    {
      match (DateField(data, "date"), ClockField(data, "start_time"), ClockField(data, "end_time")) {
        case (Some(d), Some(s), Some(e)) =>
          var id := NextId(busy);
          var slot := BusySlot(id, user.id, d, s, e, TextField(data, "title", "Busy"), TextField(data, "description", ""));
          AppendKeepsWellFormed(busy, Busy, slot);
          busy := busy + [slot];
          reply := Success(Some(id));
        case (None, _, _) =>
          reply := Fail(400, BadField("date"));
        case (_, None, _) =>
          reply := Fail(400, BadField("start_time"));
        case _ =>
          reply := Fail(400, BadField("end_time"));
      }
    }
  }

  /** The body of `get_events`' outer loop: one user's three queries and their loops. */
  method AppendUserEvents(events: seq<CalendarEvent>, user: User, availability: seq<Record>, busy: seq<Record>,
                          leave: seq<Record>) returns (out: seq<CalendarEvent>)
    requires AllListable(availability) && AllListable(busy) && AllListable(leave)
    ensures out == events + UserEvents(user, availability, busy, leave)
  {
    var a, b, l := RowsOf(availability, user.id), RowsOf(busy, user.id), RowsOf(leave, user.id);
    out := AppendEvents(events, user, a);
    out := AppendEvents(out, user, b);
    out := AppendEvents(out, user, l);
    var ea, eb, el := EventsOfRows(user, a), EventsOfRows(user, b), EventsOfRows(user, l);
    assert events + ea + eb + el == events + (ea + eb + el);
  }

  /** Appends the events of some rows one at a time, as the inner loops of `get_events` do. */
  method AppendEvents(events: seq<CalendarEvent>, u: User, rows: seq<Record>) returns (out: seq<CalendarEvent>)
    requires AllListable(rows)
    ensures out == events + EventsOfRows(u, rows)
  {
    out := events;
    var j := 0;
    while j < |rows|
      invariant 0 <= j <= |rows|
      invariant out == events + EventsOfRows(u, rows[..j])
    {
      assert rows[..j + 1][..j] == rows[..j];
      out := out + [ToEvent(u, rows[j])];
      j := j + 1;
    }
    assert rows[..j] == rows;
  }
}
