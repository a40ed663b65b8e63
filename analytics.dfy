/**
 * The availability analytics page (static/js/availability_analytics.js):
 * the quick date-range presets that fill the two date inputs, the badge
 * class of an entry type, and the CSV export of the loaded entries.
 */
module Analytics {
  import opened Wrappers
  import opened Text
  import opened CivilDate
  import opened Csv

  // ---------------------------------------------------------------------------
  // Quick date ranges

  /** The options of the quick-range select that the page knows. */
  datatype Preset = CurrentMonth | LastMonth | CurrentQuarter | LastQuarter | CurrentYear

  /** The `case` labels of the switch; any other value falls to `default`. */
  function ParsePreset(choice: string): Option<Preset>
  {
    if choice == "current_month" then Some(CurrentMonth)
    else if choice == "last_month" then Some(LastMonth)
    else if choice == "current_quarter" then Some(CurrentQuarter)
    else if choice == "last_quarter" then Some(LastQuarter)
    else if choice == "current_year" then Some(CurrentYear)
    else None
  }

  /** The first and last day preset `p` selects for `today`. */
  function PresetRange(p: Preset, today: Date): (Date, Date)
    requires ValidDate(today)
  {
    var y, m := today.year, today.month;
    match p
    case CurrentMonth => (MakeDate(y, m, 1), MakeDate(y, m + 1, 0))
    case LastMonth => (MakeDate(y, m - 1, 1), MakeDate(y, m, 0))
    case CurrentQuarter =>
      var quarter := m / 3;
      (MakeDate(y, quarter * 3, 1), MakeDate(y, quarter * 3 + 3, 0))
    case LastQuarter =>
      var lastQuarter := m / 3 - 1;
      var year := if lastQuarter < 0 then y - 1 else y;
      var qStart := if lastQuarter < 0 then 3 else lastQuarter;
      (MakeDate(year, qStart * 3, 1), MakeDate(year, qStart * 3 + 3, 0))
    case CurrentYear => (MakeDate(y, 0, 1), MakeDate(y, 11, 31))
  }

  /**
   * The first and last day the selected option gives for `today`, or `None`
   * for an option the page does not know.
   */
  function QuickRange(choice: string, today: Date): Option<(Date, Date)>
    requires ValidDate(today)
  {
    match ParsePreset(choice)
    case Some(p) => Some(PresetRange(p, today))
    case None => None
  }

  /** The first day of month `m` of the year the constructor reads `y` as. */
  lemma {:induction false} MonthStart(y: int, m: int)
    requires 0 <= m < 12
    ensures MakeDate(y, m, 1) == Date(ConstructorYear(y), m, 1)
  {
  }

  /** Day 0 of the month after `m` is the last day of month `m`. */
  lemma {:induction false} MonthEnd(y: int, m: int)
    requires 0 <= m < 12
    ensures MakeDate(y, m + 1, 0) == Date(ConstructorYear(y), m, DaysInMonth(ConstructorYear(y), m))
  {
    DayZeroIsLastDay(ConstructorYear(y), m);
  }

  /** `current_month`: the whole of today's month. */
  lemma {:induction false} CurrentMonthRange(today: Date)
    requires ValidDate(today)
    ensures var y := ConstructorYear(today.year);
      PresetRange(CurrentMonth, today)
        == (Date(y, today.month, 1), Date(y, today.month, DaysInMonth(y, today.month)))
  {
    MonthStart(today.year, today.month);
    MonthEnd(today.year, today.month);
  }

  /** `last_month`: the whole month before, with January going back to December of the year before. */
  lemma {:induction false} LastMonthRange(today: Date)
    requires ValidDate(today)
    ensures var y := ConstructorYear(today.year);
      today.month > 0 ==>
        PresetRange(LastMonth, today)
          == (Date(y, today.month - 1, 1), Date(y, today.month - 1, DaysInMonth(y, today.month - 1)))
    ensures today.month == 0 ==>
        PresetRange(LastMonth, today)
          == (Date(ConstructorYear(today.year) - 1, 11, 1), Date(ConstructorYear(today.year) - 1, 11, 31))
  {
    if today.month > 0 {
      MonthStart(today.year, today.month - 1);
      MonthEnd(today.year, today.month - 1);
    } else {
      assert (0 - 1) / 12 == -1 && (0 - 1) % 12 == 11;
      DayZeroIsLastDay(ConstructorYear(today.year) - 1, 11);
    }
  }

  /** `current_quarter`: from the first day of month 3q to the last day of month 3q+2. */
  lemma {:induction false} CurrentQuarterRange(today: Date)
    requires ValidDate(today)
    ensures var y, q := ConstructorYear(today.year), today.month / 3;
      PresetRange(CurrentQuarter, today)
        == (Date(y, 3 * q, 1), Date(y, 3 * q + 2, DaysInMonth(y, 3 * q + 2)))
  {
    var q := today.month / 3;
    MonthStart(today.year, q * 3);
    MonthEnd(today.year, q * 3 + 2);
  }

  /** `last_quarter` after the first quarter: the quarter before, in the same year. */
  lemma {:induction false} LastQuarterRange(today: Date)
    requires ValidDate(today) && today.month >= 3
    ensures var y, q := ConstructorYear(today.year), today.month / 3;
      PresetRange(LastQuarter, today)
        == (Date(y, 3 * (q - 1), 1), Date(y, 3 * q - 1, DaysInMonth(y, 3 * q - 1)))
  {
    var q := today.month / 3;
    var first := (q - 1) * 3;
    assert 1 <= q <= 3 && first == 3 * (q - 1) && first + 2 == 3 * q - 1;
    assert PresetRange(LastQuarter, today) == (MakeDate(today.year, first, 1), MakeDate(today.year, first + 2 + 1, 0));
    MonthStart(today.year, first);
    MonthEnd(today.year, first + 2);
  }

  /** `last_quarter` in the first quarter: October 1 to December 31 of the year before. */
  lemma {:induction false} LastQuarterWraps(today: Date)
    requires ValidDate(today) && today.month < 3
    ensures var y := ConstructorYear(today.year - 1);
      PresetRange(LastQuarter, today) == (Date(y, 9, 1), Date(y, 11, 31))
  {
    assert today.month / 3 - 1 < 0;
    MonthStart(today.year - 1, 9);
    MonthEnd(today.year - 1, 11);
  }

  /** `current_year`: January 1 to December 31. */
  lemma {:induction false} CurrentYearRange(today: Date)
    requires ValidDate(today)
    ensures var y := ConstructorYear(today.year);
      PresetRange(CurrentYear, today) == (Date(y, 0, 1), Date(y, 11, 31))
  {
    var y := ConstructorYear(today.year);
    MonthStart(today.year, 0);
    assert 11 / 12 == 0 && 11 % 12 == 11;
    NormalizeValid(Date(y, 11, 31));
  }

  /** Each `case` label selects its preset; the five presets, and nothing else, select a range. */
  lemma {:induction false} QuickRangeKnownChoices(choice: string, today: Date)
    requires ValidDate(today)
    ensures ParsePreset("current_month") == Some(CurrentMonth) && ParsePreset("last_month") == Some(LastMonth)
    ensures ParsePreset("current_quarter") == Some(CurrentQuarter) && ParsePreset("last_quarter") == Some(LastQuarter)
    ensures ParsePreset("current_year") == Some(CurrentYear)
    ensures QuickRange(choice, today).Some?
        <==> choice in ["current_month", "last_month", "current_quarter", "last_quarter", "current_year"]
  {
  }

  /**
   * Every preset runs from the first day of a month to the last day of a
   * month, and never ends before it starts.
   */
  lemma {:induction false} QuickRangeShape(p: Preset, today: Date)
    requires ValidDate(today)
    ensures var (start, end) := PresetRange(p, today);
      start.day == 1 && end.day == DaysInMonth(end.year, end.month)
      && DayNumber(start) <= DayNumber(end)
  {
    var y, m, q := ConstructorYear(today.year), today.month, today.month / 3;
    match p
    case CurrentMonth =>
      CurrentMonthRange(today);
      MonthSpanOrdered(y, m, m);
    case LastMonth =>
      LastMonthRange(today);
      if m > 0 {
        MonthSpanOrdered(y, m - 1, m - 1);
      } else {
        MonthSpanOrdered(y - 1, 11, 11);
      }
    case CurrentQuarter =>
      CurrentQuarterRange(today);
      MonthSpanOrdered(y, 3 * q, 3 * q + 2);
    case LastQuarter =>
      if m >= 3 {
        LastQuarterRange(today);
        MonthSpanOrdered(y, 3 * (q - 1), 3 * q - 1);
      } else {
        LastQuarterWraps(today);
        MonthSpanOrdered(ConstructorYear(today.year - 1), 9, 11);
      }
    case CurrentYear =>
      CurrentYearRange(today);
      MonthSpanOrdered(y, 0, 11);
  }

  /** The first day of a month comes no later than the last day of the same or a later month of that year. */
  lemma {:induction false} MonthSpanOrdered(y: int, m: int, k: int)
    requires 0 <= m <= k < 12
    ensures DayNumber(Date(y, m, 1)) <= DayNumber(Date(y, k, DaysInMonth(y, k)))
  {
    DaysBeforeMonthMonotone(y, m, k);
  }

  /** The two date inputs of the page, holding `YYYY-MM-DD` text. */
  class DateFilter {
    var startDate: string
    var endDate: string

    constructor(start: string, end: string)
      ensures startDate == start && endDate == end
    {
      startDate := start;
      endDate := end;
    }

    /**
     * `handleQuickDateRange`: a known preset writes both inputs, an unknown
     * one leaves them alone.
     */
    method HandleQuickDateRange(choice: string, today: Date)
      requires ValidDate(today) && 1 <= today.year <= 9999
      modifies this
      ensures QuickRange(choice, today).None? ==> startDate == old(startDate) && endDate == old(endDate)
      ensures QuickRange(choice, today).Some? ==>
        var (start, end) := QuickRange(choice, today).value;
        0 <= start.year <= 9999 && 0 <= end.year <= 9999
        && startDate == FormatIso(start) && endDate == FormatIso(end)
    {
      var preset := ParsePreset(choice);
      if preset.None? {
        return;
      }
      var (start, end) := PresetRange(preset.value, today);
      QuickRangeYears(preset.value, today);
      startDate := FormatIso(start);
      endDate := FormatIso(end);
    }
  }

  /** For a year 1..9999 the presets stay within years the ISO form can write. */
  lemma {:induction false} QuickRangeYears(p: Preset, today: Date)
    requires ValidDate(today) && 1 <= today.year <= 9999
    ensures var (start, end) := PresetRange(p, today);
      0 <= start.year <= 9999 && 0 <= end.year <= 9999
  {
    match p
    case CurrentMonth => CurrentMonthRange(today);
    case LastMonth => LastMonthRange(today);
    case CurrentQuarter => CurrentQuarterRange(today);
    case LastQuarter => if today.month >= 3 { LastQuarterRange(today); } else { LastQuarterWraps(today); }
    case CurrentYear => CurrentYearRange(today);
  }

  // ---------------------------------------------------------------------------
  // Badge class

  /** `getStatusClass`: the Bootstrap colour of an entry type. */
  function StatusClass(entryType: string): (r: string)
    ensures r in ["success", "warning", "danger", "secondary"]
    ensures r == "secondary" <==> entryType !in ["availability", "busy", "leave"]
    ensures entryType == "availability" ==> r == "success"
    ensures entryType == "busy" ==> r == "warning"
    ensures entryType == "leave" ==> r == "danger"
  {
    if entryType == "availability" then "success"
    else if entryType == "busy" then "warning"
    else if entryType == "leave" then "danger"
    else "secondary"
  }

  /** Each type has its own class: the mapping loses nothing on the three known types. */
  lemma {:induction false} StatusClassDistinguishesTypes(a: string, b: string)
    requires a in ["availability", "busy", "leave"] && b in ["availability", "busy", "leave"]
    ensures StatusClass(a) == StatusClass(b) <==> a == b
  {
  }

  // ---------------------------------------------------------------------------
  // CSV export

  /**
   * One loaded entry, with its two dates already rendered: `dateText` is the
   * `YYYY-MM-DD` form, `endDateText` the browser's locale form.
   */
  datatype Entry = Entry(
    dateText: string, endDateText: string, username: string, entryType: string,
    startTime: Option<string>, endTime: Option<string>, status: string, notes: Option<string>)

  /** `value || ''` on a value that may be missing. */
  function OrEmpty(v: Option<string>): string { v.GetOr("") }

  const Header: seq<string> :=
    ["Date/Start Date", "End Date", "User", "Type", "Start Time", "End Time", "Status", "Notes"]

  /** The eight fields of an entry, in header order. */
  function Fields(e: Entry): seq<string>
  {
    [e.dateText, e.endDateText, e.username, e.entryType,
     OrEmpty(e.startTime), OrEmpty(e.endTime), e.status, OrEmpty(e.notes)]
  }

  /** Each field wrapped in quotes, nothing escaped. */
  function Row(e: Entry): (r: seq<Cell>)
    ensures |r| == 8
    ensures forall i :: 0 <= i < 8 ==> r[i] == Wrapped(Fields(e)[i])
  {
    [Wrapped(e.dateText), Wrapped(e.endDateText), Wrapped(e.username), Wrapped(e.entryType),
     Wrapped(OrEmpty(e.startTime)), Wrapped(OrEmpty(e.endTime)), Wrapped(e.status), Wrapped(OrEmpty(e.notes))]
  }

  function Rows(data: seq<Entry>): (r: seq<seq<Cell>>)
    ensures |r| == |data|
    ensures forall k :: 0 <= k < |data| ==> r[k] == Row(data[k])
  {
    if |data| == 0 then [] else [Row(data[0])] + Rows(data[1..])
  }

  /** `exportToCSV`: nothing for no data, else the header line and one line per entry. */
  function ExportCsv(data: seq<Entry>): Option<string>
  {
    if |data| == 0 then None
    else Some(EncodeTable([PlainCells(Header)] + Rows(data)))
  }

  function AllFields(data: seq<Entry>): (r: seq<seq<string>>)
    ensures |r| == |data|
    ensures forall k :: 0 <= k < |data| ==> r[k] == Fields(data[k])
  {
    if |data| == 0 then [] else [Fields(data[0])] + AllFields(data[1..])
  }

  lemma {:induction false} TextsOfRow(e: Entry)
    ensures Texts(Row(e)) == Fields(e)
  {
    var t := Texts(Row(e));
    assert forall i :: 0 <= i < 8 ==> t[i] == Fields(e)[i];
  }

  lemma {:induction false} HeaderReadable()
    ensures forall i :: 0 <= i < |Header| ==> Readable(Plain(Header[i]))
  {
    forall i | 0 <= i < |Header| ensures Readable(Plain(Header[i])) {
      var t := Header[i];
      forall j | 0 <= j < |t| ensures t[j] != ',' && t[j] != '\n' && t[j] != '"' {
      }
    }
  }

  lemma {:induction false} RowsReadable(data: seq<Entry>)
    requires forall k, i :: 0 <= k < |data| && 0 <= i < 8 ==> '"' !in Fields(data[k])[i]
    ensures var rows := Rows(data);
      forall k, i :: 0 <= k < |rows| && 0 <= i < |rows[k]| ==> Readable(rows[k][i])
  {
    var rows := Rows(data);
    forall k, i | 0 <= k < |rows| && 0 <= i < |rows[k]| ensures Readable(rows[k][i]) {
      assert rows[k][i] == Wrapped(Fields(data[k])[i]);
    }
  }

  lemma {:induction false} TextsOfRows(data: seq<Entry>)
    ensures TableTexts(Rows(data)) == AllFields(data)
  {
    var t := TableTexts(Rows(data));
    forall k | 0 <= k < |t| ensures t[k] == AllFields(data)[k] {
      TextsOfRow(data[k]);
    }
  }

  /** The round trip for any header line of readable names. */
  lemma {:induction false} ExportReadsBackWith(header: seq<string>, data: seq<Entry>)
    requires |header| >= 1
    requires forall i :: 0 <= i < |header| ==> Readable(Plain(header[i]))
    requires forall k, i :: 0 <= k < |data| && 0 <= i < 8 ==> '"' !in Fields(data[k])[i]
    ensures ReadTable(EncodeTable([PlainCells(header)] + Rows(data))) == Some([header] + AllFields(data))
  {
    RowsReadable(data);
    ReadTableWithHeader(header, Rows(data));
    TextsOfRows(data);
  }

  /**
   * Reading the export back gives the header and, in order, the eight
   * fields of each entry, as long as no field holds a `"`.
   */
  lemma {:induction false} ExportReadsBack(data: seq<Entry>)
    requires |data| > 0
    requires forall k, i :: 0 <= k < |data| && 0 <= i < 8 ==> '"' !in Fields(data[k])[i]
    ensures ExportCsv(data).Some?
    ensures ReadTable(ExportCsv(data).value) == Some([Header] + AllFields(data))
  {
    HeaderReadable();
    ExportReadsBackWith(Header, data);
  }

  /** No data, no export. */
  lemma {:induction false} ExportEmpty()
    ensures ExportCsv([]).None?
  {
  }
}
