/**
 * Civil dates the way the dashboard's JavaScript computes them, with the
 * browser assumed to run in UTC.
 *
 * Months are numbered 0..11 as `Date.prototype.getMonth` numbers them.  A
 * date is identified with its day number, the count of days since
 * 1970-01-01 (a Thursday).  `new Date(y, m, d)` is modelled as ECMAScript's
 * MakeDay does it: a year argument 0..99 means 1900+y, the month is brought
 * into 0..11 by moving whole years, and the day may then run over into
 * neighbouring months in either direction (day 0 is the last day of the
 * month before).
 */
module CivilDate {
  import opened Wrappers
  import opened Text

  const MillisPerDay: int := 86400000

  /** A calendar date: year, month 0..11 and day of the month. */
  datatype Date = Date(year: int, month: int, day: int)

  predicate IsLeap(y: int)
  {
    y % 4 == 0 && (y % 100 != 0 || y % 400 == 0)
  }

  function DaysInMonth(y: int, m: int): (n: int)
    requires 0 <= m < 12
    ensures 28 <= n <= 31
    ensures m == 1 ==> (n == 29 <==> IsLeap(y))
  {
    if m == 1 then (if IsLeap(y) then 29 else 28)
    else if m == 3 || m == 5 || m == 8 || m == 10 then 30
    else 31
  }

  function YearLength(y: int): int { if IsLeap(y) then 366 else 365 }

  predicate ValidDate(d: Date)
  {
    0 <= d.month < 12 && 1 <= d.day <= DaysInMonth(d.year, d.month)
  }

  /** Days from 1970-01-01 to January 1 of year `y` (negative before 1970). */
  function DaysBeforeYear(y: int): int
    decreases if y >= 1970 then y - 1970 else 1970 - y
  {
    if y == 1970 then 0
    else if y > 1970 then DaysBeforeYear(y - 1) + YearLength(y - 1)
    else DaysBeforeYear(y + 1) - YearLength(y)
  }

  lemma {:induction false} DaysBeforeYearStep(y: int)
    ensures DaysBeforeYear(y + 1) == DaysBeforeYear(y) + YearLength(y)
  {
  }

  /** Days from January 1 to the first of month `m` of year `y`. */
  function DaysBeforeMonth(y: int, m: int): int
    requires 0 <= m <= 12
  {
    if m == 0 then 0 else DaysBeforeMonth(y, m - 1) + DaysInMonth(y, m - 1)
  }

  lemma {:induction false} DaysBeforeDecember(y: int)
    ensures DaysBeforeMonth(y, 11) + 31 == YearLength(y)
    ensures DaysBeforeMonth(y, 12) == YearLength(y)
  {
    var f := DaysInMonth(y, 1);
    assert DaysBeforeMonth(y, 1) == 31;
    assert DaysBeforeMonth(y, 2) == 31 + f;
    assert DaysBeforeMonth(y, 3) == 62 + f;
    assert DaysBeforeMonth(y, 4) == 92 + f;
    assert DaysBeforeMonth(y, 5) == 123 + f;
    assert DaysBeforeMonth(y, 6) == 153 + f;
    assert DaysBeforeMonth(y, 7) == 184 + f;
    assert DaysBeforeMonth(y, 8) == 215 + f;
    assert DaysBeforeMonth(y, 9) == 245 + f;
    assert DaysBeforeMonth(y, 10) == 276 + f;
    assert DaysBeforeMonth(y, 11) == 306 + f;
  }

  /**
   * The day number of `year`/`month`/`day` where `day` may lie outside the
   * month: day 0 is the day before the first, day 32 of a 31-day month the
   * first of the next.
   */
  function DayNumber(d: Date): int
    requires 0 <= d.month < 12
  {
    DaysBeforeYear(d.year) + DaysBeforeMonth(d.year, d.month) + d.day - 1
  }

  /** `getDay()`: 0 for Sunday up to 6 for Saturday; day 0 was a Thursday. */
  function Weekday(n: int): (w: int)
    ensures 0 <= w < 7
    ensures (n - w) % 7 == 3
  {
    (n + 4) % 7
  }

  /**
   * Moves a day running over its month into the month it lands in,
   * as MakeDay followed by the date decomposition does.
   */
  function NormalizeDay(y: int, m: int, d: int): (r: Date)
    requires 0 <= m < 12
    ensures ValidDate(r)
    decreases if d < 1 then 1 else 0, if d < 1 then 1 - d else d
  {
    if d < 1 then
      if m == 0 then NormalizeDay(y - 1, 11, d + 31)
      else NormalizeDay(y, m - 1, d + DaysInMonth(y, m - 1))
    else if d > DaysInMonth(y, m) then
      if m == 11 then NormalizeDay(y + 1, 0, d - 31)
      else NormalizeDay(y, m + 1, d - DaysInMonth(y, m))
    else Date(y, m, d)
  }

  /** Rolling a day over into the month it lands in keeps its day number. */
  lemma {:induction false} NormalizeDayNumber(y: int, m: int, d: int)
    requires 0 <= m < 12
    ensures DayNumber(NormalizeDay(y, m, d)) == DayNumber(Date(y, m, d))
    decreases if d < 1 then 1 else 0, if d < 1 then 1 - d else d
  {
    if d < 1 {
      if m == 0 {
        DaysBeforeDecember(y - 1);
        DaysBeforeYearStep(y - 1);
        NormalizeDayNumber(y - 1, 11, d + 31);
      } else {
        NormalizeDayNumber(y, m - 1, d + DaysInMonth(y, m - 1));
      }
    } else if d > DaysInMonth(y, m) {
      if m == 11 {
        DaysBeforeDecember(y);
        DaysBeforeYearStep(y);
        NormalizeDayNumber(y + 1, 0, d - 31);
      } else {
        NormalizeDayNumber(y, m + 1, d - DaysInMonth(y, m));
      }
    }
  }

  /** A date already in range is kept. */
  lemma {:induction false} NormalizeValid(d: Date)
    requires ValidDate(d)
    ensures NormalizeDay(d.year, d.month, d.day) == d
  {
  }

  /** Two valid dates with the same day number are the same date. */
  lemma {:induction false} DayNumberInjective(a: Date, b: Date)
    requires ValidDate(a) && ValidDate(b) && DayNumber(a) == DayNumber(b)
    ensures a == b
  {
    if DateBefore(a, b) {
      DayNumberBefore(a, b);
    } else if DateBefore(b, a) {
      DayNumberBefore(b, a);
    }
  }

  lemma {:induction false} DaysBeforeMonthMonotone(y: int, m: int, k: int)
    requires 0 <= m <= k <= 12
    ensures DaysBeforeMonth(y, m) <= DaysBeforeMonth(y, k)
    decreases k - m
  {
    if m < k { DaysBeforeMonthMonotone(y, m, k - 1); }
  }

  lemma {:induction false} DaysBeforeYearMonotone(y: int, z: int)
    requires y <= z
    ensures DaysBeforeYear(y) <= DaysBeforeYear(z)
    decreases z - y
  {
    if y < z {
      DaysBeforeYearMonotone(y, z - 1);
      DaysBeforeYearStep(z - 1);
    }
  }

  /** A valid date's day number lies inside its year. */
  lemma {:induction false} YearBounds(d: Date)
    requires ValidDate(d)
    ensures DaysBeforeYear(d.year) <= DayNumber(d) < DaysBeforeYear(d.year) + YearLength(d.year)
  {
    DaysBeforeMonthMonotone(d.year, 0, d.month);
    DaysBeforeMonthMonotone(d.year, d.month + 1, 12);
    DaysBeforeDecember(d.year);
  }

  /** `a` comes before `b` on the calendar: by year, then month, then day. */
  predicate DateBefore(a: Date, b: Date)
  {
    a.year < b.year || (a.year == b.year && (a.month < b.month || (a.month == b.month && a.day < b.day)))
  }

  lemma {:induction false} DayNumberBefore(a: Date, b: Date)
    requires ValidDate(a) && ValidDate(b) && DateBefore(a, b)
    ensures DayNumber(a) < DayNumber(b)
  {
    YearBounds(a);
    YearBounds(b);
    if a.year < b.year {
      DaysBeforeYearStep(a.year);
      DaysBeforeYearMonotone(a.year + 1, b.year);
    } else if a.month < b.month {
      DaysBeforeMonthMonotone(a.year, a.month + 1, b.month);
    }
  }

  /** Day numbers order valid dates as the calendar does. */
  lemma {:induction false} DayNumberOrder(a: Date, b: Date)
    requires ValidDate(a) && ValidDate(b)
    ensures DayNumber(a) < DayNumber(b) <==> DateBefore(a, b)
  {
    if DateBefore(a, b) {
      DayNumberBefore(a, b);
    } else if DateBefore(b, a) {
      DayNumberBefore(b, a);
    }
  }

  /** The year the `Date` constructor uses: 0..99 are read as 1900..1999. */
  function ConstructorYear(y: int): (r: int)
    ensures 0 <= y <= 99 ==> r == 1900 + y
    ensures !(0 <= y <= 99) ==> r == y
  {
    if 0 <= y <= 99 then 1900 + y else y
  }

  /** `new Date(y, m, d)` with the browser in UTC. */
  function MakeDate(y: int, m: int, d: int): (r: Date)
    ensures ValidDate(r)
  {
    NormalizeDay(ConstructorYear(y) + m / 12, m % 12, d)
  }

  /** `new Date(y, m, d)` is the day `d - 1` days after the first of the normalised year and month. */
  lemma {:induction false} MakeDateNumber(y: int, m: int, d: int)
    ensures DayNumber(MakeDate(y, m, d)) == DayNumber(Date(ConstructorYear(y) + m / 12, m % 12, d))
  {
    NormalizeDayNumber(ConstructorYear(y) + m / 12, m % 12, d);
  }

  /** Day 0 of the month after `m` is the last day of month `m`. */
  lemma {:induction false} DayZeroIsLastDay(y: int, m: int)
    requires 0 <= m < 12
    ensures m < 11 ==> NormalizeDay(y, m + 1, 0) == Date(y, m, DaysInMonth(y, m))
    ensures m == 11 ==> NormalizeDay(y + 1, 0, 0) == Date(y, 11, 31)
  {
  }

  /** `d.setDate(day)` on a valid date: the same month, with the day run over. */
  function SetDate(d: Date, day: int): (r: Date)
    requires ValidDate(d)
    ensures ValidDate(r)
    ensures DayNumber(r) == DayNumber(d) - d.day + day
  {
    NormalizeDayNumber(d.year, d.month, day);
    NormalizeDay(d.year, d.month, day)
  }

  // ---------------------------------------------------------------------------
  // `YYYY-MM-DD`, the value of an HTML date input and of `toISOString().split('T')[0]`

  /**
   * `YYYY-MM-DD` from a year below 10000 and a month and day below 100: each
   * field is its decimal rendering zero-padded to the field's width
   * (`Text.FourDigitsIsPadStart`, `Text.TwoDigitsIsPadStart`).
   */
  function IsoText(y: nat, m: nat, d: nat): (s: string)
    requires y < 10000 && m < 100 && d < 100
    ensures |s| == 10 && s[4] == '-' && s[7] == '-'
    ensures s[..4] == FourDigits(y) && s[5..7] == TwoDigits(m) && s[8..] == TwoDigits(d)
  {
    var s := FourDigits(y) + ['-'] + TwoDigits(m) + ['-'] + TwoDigits(d);
    assert s[..4] == FourDigits(y) && s[5..7] == TwoDigits(m) && s[8..] == TwoDigits(d);
    s
  }

  /** The ISO form of a date of years 0..9999; the month is written 1..12. */
  function FormatIso(d: Date): (s: string)
    requires 0 <= d.year <= 9999 && 0 <= d.month < 12 && 1 <= d.day <= 31
    ensures |s| == 10 && s[4] == '-' && s[7] == '-'
  {
    IsoText(d.year, d.month + 1, d.day)
  }

  /** Reads `YYYY-MM-DD`; anything else, or a day the month does not have, is refused. */
  function ParseIso(s: string): (r: Option<Date>)
    ensures r.Some? ==> ValidDate(r.value) && 0 <= r.value.year <= 9999
  {
    if |s| != 10 || s[4] != '-' || s[7] != '-' then None
    else
      match (ParseNat(s[..4]), ParseNat(s[5..7]), ParseNat(s[8..]))
      case (Some(y), Some(m), Some(d)) =>
        if 1 <= m <= 12 && 1 <= d <= DaysInMonth(y, m - 1) then
          assert y < 10000 by { DigitsValueBound(s[..4]); }
          Some(Date(y, m - 1, d))
        else None
      case _ => None
  }

  /** Writing a date in ISO form and reading it back gives the date. */
  lemma {:induction false} ParseIsoOfFormatIso(d: Date)
    requires ValidDate(d) && 0 <= d.year <= 9999
    ensures ParseIso(FormatIso(d)) == Some(d)
  {
    var s := FormatIso(d);
    assert ParseNat(s[..4]) == Some(d.year) by { FourDigitsValue(d.year); }
    assert ParseNat(s[5..7]) == Some(d.month + 1) by { TwoDigitsValue(d.month + 1); }
    assert ParseNat(s[8..]) == Some(d.day) by { TwoDigitsValue(d.day); }
  }

  lemma {:induction false} AppendAssoc(p: string, q: string, r: string)
    ensures p + q + r == p + (q + r)
  {
  }

  /** Equal-width digit strings with the same value are the same string. */
  lemma {:induction false} DigitsInjective(a: string, b: string)
    requires |a| == |b| && AllDigits(a) && AllDigits(b)
    ensures a == b <==> DigitsValue(a) == DigitsValue(b)
  {
    if a != b {
      LexTrichotomy(a, b);
      LexDigits(a, b);
      LexDigits(b, a);
    }
  }

  /** A leading digit field of fixed width and a separator decide first; the rest decides on a tie. */
  lemma {:induction false} LexOfField(x: string, r: string, y: string, q: string, sep: char)
    requires |x| == |y| && AllDigits(x) && AllDigits(y)
    ensures LexLess(x + [sep] + r, y + [sep] + q)
      <==> (DigitsValue(x) < DigitsValue(y) || (DigitsValue(x) == DigitsValue(y) && LexLess(r, q)))
  {
    var dash := [sep];
    LexIrreflexive(dash);
    LexAppend(dash, r, dash, q);
    AppendAssoc(x, dash, r);
    AppendAssoc(y, dash, q);
    LexAppend(x, dash + r, y, dash + q);
    LexDigits(x, y);
    DigitsInjective(x, y);
  }

  /** The three digit fields of the ISO form of `d` and their values. */
  lemma {:induction false} IsoFields(d: Date)
    requires 0 <= d.year <= 9999 && 0 <= d.month < 12 && 1 <= d.day <= 31
    ensures var y, m, dd := FourDigits(d.year), TwoDigits(d.month + 1), TwoDigits(d.day);
      FormatIso(d) == y + ['-'] + (m + ['-'] + dd)
      && DigitsValue(y) == d.year && DigitsValue(m) == d.month + 1 && DigitsValue(dd) == d.day
  {
    var y, m, dd := FourDigits(d.year), TwoDigits(d.month + 1), TwoDigits(d.day);
    FourDigitsValue(d.year);
    TwoDigitsValue(d.month + 1);
    TwoDigitsValue(d.day);
    AppendAssoc(y + ['-'], m, ['-']);
    AppendAssoc(y + ['-'], m + ['-'], dd);
  }

  /**
   * On `YYYY-MM-DD` texts, JavaScript's string comparison is the order of
   * the dates: the fixed widths line the fields up.
   */
  lemma {:induction false} IsoOrder(a: Date, b: Date)
    requires ValidDate(a) && 0 <= a.year <= 9999
    requires ValidDate(b) && 0 <= b.year <= 9999
    ensures LexLess(FormatIso(a), FormatIso(b)) <==> DayNumber(a) < DayNumber(b)
  {
    var ya, ma, da := FourDigits(a.year), TwoDigits(a.month + 1), TwoDigits(a.day);
    var yb, mb, db := FourDigits(b.year), TwoDigits(b.month + 1), TwoDigits(b.day);
    var ra, rb := ma + ['-'] + da, mb + ['-'] + db;
    var later := a.month < b.month || (a.month == b.month && a.day < b.day);
    assert LexLess(ra, rb) <==> later by {
      IsoFields(a);
      IsoFields(b);
      LexOfField(ma, da, mb, db, '-');
      LexDigits(da, db);
    }
    assert LexLess(FormatIso(a), FormatIso(b)) <==> a.year < b.year || (a.year == b.year && LexLess(ra, rb)) by {
      IsoFields(a);
      IsoFields(b);
      LexOfField(ya, ra, yb, rb, '-');
    }
    DayNumberOrder(a, b);
  }
}
