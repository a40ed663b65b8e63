/**
 * Times of day as the calendar handles them: the `HH:MM` value of an HTML
 * time input, which the server reads with `strptime(…, '%H:%M')`, and the
 * `HH:MM:SS` text Python's `str` gives a `time` when an event is listed.
 */
module TimeOfDay {
  import opened Wrappers
  import opened Text
  import opened CivilDate

  /** A time of day to the minute. */
  datatype Clock = Clock(hour: int, minute: int)

  predicate ValidClock(c: Clock) { 0 <= c.hour < 24 && 0 <= c.minute < 60 }

  /** Minutes since midnight. */
  function MinuteOfDay(c: Clock): (n: int)
    requires ValidClock(c)
    ensures 0 <= n < 24 * 60
  {
    c.hour * 60 + c.minute
  }

  /** The `HH:MM` text of a time input. */
  function ClockText(c: Clock): (s: string)
    requires ValidClock(c)
    ensures |s| == 5 && s[2] == ':'
    ensures s[..2] == TwoDigits(c.hour) && s[3..] == TwoDigits(c.minute)
  {
    var h, m := TwoDigits(c.hour), TwoDigits(c.minute);
    var s := h + [':'] + m;
    assert s[2] == ':' && s[..2] == h && s[3..] == m;
    s
  }

  /** `str(time)`: `HH:MM:SS`, the seconds always zero here. */
  function TimeText(c: Clock): (s: string)
    requires ValidClock(c)
    ensures |s| == 8 && s[..5] == ClockText(c) && s[5..] == ":00"
  {
    ClockText(c) + [':', '0', '0']
  }

  /** `strptime(s, '%H:%M')` on two-digit fields; anything else is refused. */
  function ParseClockText(s: string): (r: Option<Clock>)
    ensures r.Some? ==> ValidClock(r.value)
  {
    if |s| != 5 || s[2] != ':' then None
    else
      match (ParseNat(s[..2]), ParseNat(s[3..]))
      case (Some(h), Some(m)) => if h < 24 && m < 60 then Some(Clock(h, m)) else None
      case _ => None
  }

  /** Writing a time and reading it back gives the time. */
  lemma {:induction false} ParseClockTextOfClockText(c: Clock)
    requires ValidClock(c)
    ensures ParseClockText(ClockText(c)) == Some(c)
  {
    TwoDigitsValue(c.hour);
    TwoDigitsValue(c.minute);
  }

  /** Only the texts of times are read: the parse is injective and onto the written forms. */
  lemma {:induction false} ClockTextOfParseClockText(s: string)
    requires ParseClockText(s).Some?
    ensures ClockText(ParseClockText(s).value) == s
  {
    var c := ParseClockText(s).value;
    var h, m := s[..2], s[3..];
    var h', m' := TwoDigits(c.hour), TwoDigits(c.minute);
    TwoDigitsValue(c.hour);
    TwoDigitsValue(c.minute);
    DigitsInjective(h, h');
    DigitsInjective(m, m');
    assert s == h + [':'] + m;
  }

  /**
   * On `HH:MM` texts, JavaScript's string comparison is the order of the
   * times: both fields are zero-padded to the same width.
   */
  lemma {:induction false} ClockOrder(a: Clock, b: Clock)
    requires ValidClock(a) && ValidClock(b)
    ensures LexLess(ClockText(a), ClockText(b)) <==> MinuteOfDay(a) < MinuteOfDay(b)
  {
    var ha, ma, hb, mb := TwoDigits(a.hour), TwoDigits(a.minute), TwoDigits(b.hour), TwoDigits(b.minute);
    TwoDigitsValue(a.hour);
    TwoDigitsValue(a.minute);
    TwoDigitsValue(b.hour);
    TwoDigitsValue(b.minute);
    assert ClockText(a) == ha + [':'] + ma && ClockText(b) == hb + [':'] + mb;
    LexOfField(ha, ma, hb, mb, ':');
    LexDigits(ma, mb);
  }

  /** Equal texts are equal times, so `>=` on the texts is `>=` on the times. */
  lemma {:induction false} ClockTextInjective(a: Clock, b: Clock)
    requires ValidClock(a) && ValidClock(b)
    ensures ClockText(a) == ClockText(b) <==> a == b
  {
    ParseClockTextOfClockText(a);
    ParseClockTextOfClockText(b);
  }
}
