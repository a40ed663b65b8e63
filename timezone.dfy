/**
 * The pure part of utils/timezone_helper.py: the supported zones and their
 * display names, the zone a user is shown in, and the zone guessed from a
 * browser's UTC offset.
 */
module Timezone {
  import opened Wrappers

  /** `SUPPORTED_TIMEZONES`: zone key to display name. */
  const SupportedTimezones: map<string, string> := map[
    "UTC" := "UTC",
    "Asia/Kolkata" := "India Standard Time (IST)",
    "Europe/Berlin" := "Central European Time (CET)",
    "Europe/London" := "Greenwich Mean Time (GMT)"
  ]

  /** The zone shown when the user has none, or has `UTC`. */
  const DefaultTimezone: string := "Asia/Kolkata"

  /**
   * `get_user_timezone`: the user's stored zone (`None` when the attribute
   * is missing or `None`), except that a missing, empty or `UTC` zone
   * becomes India Standard Time.
   */
  function UserTimezone(stored: Option<string>): (r: string)
    ensures r != "UTC" && r != ""
    ensures stored.Some? && stored.value != "" && stored.value != "UTC" ==> r == stored.value
    ensures stored.None? || stored.value == "" || stored.value == "UTC" ==> r == DefaultTimezone
  {
    if stored.Some? && stored.value != "" then
      if stored.value == "UTC" then DefaultTimezone else stored.value
    else DefaultTimezone
  }

  /** Storing the zone a user is shown in and asking again gives the same zone. */
  lemma {:induction false} UserTimezoneIdempotent(stored: Option<string>)
    ensures UserTimezone(Some(UserTimezone(stored))) == UserTimezone(stored)
  {
  }

  /** `get_timezone_display_name`: the label of a supported zone, any other key itself. */
  function DisplayName(key: string): (r: string)
    ensures key !in SupportedTimezones ==> r == key
    ensures key in SupportedTimezones ==> r == SupportedTimezones[key]
  {
    if key in SupportedTimezones then SupportedTimezones[key] else key
  }

  /** The four labels. */
  lemma {:induction false} DisplayNames()
    ensures DisplayName("UTC") == "UTC"
    ensures DisplayName("Asia/Kolkata") == "India Standard Time (IST)"
    ensures DisplayName("Europe/Berlin") == "Central European Time (CET)"
    ensures DisplayName("Europe/London") == "Greenwich Mean Time (GMT)"
  {
  }

  /**
   * `timezone_map`, its keys `-offset_minutes / 60` written as minutes east
   * of UTC (0, 1 and 5.5 hours), so that the lookup stays exact.
   */
  const OffsetZones: seq<(int, string)> := [(0, "UTC"), (60, "Europe/Berlin"), (330, "Asia/Kolkata")]

  /** The zone whose key is `minutesEast`, if any. */
  function LookupOffset(zones: seq<(int, string)>, minutesEast: int): (r: Option<string>)
    ensures r.Some? ==> exists k :: 0 <= k < |zones| && zones[k] == (minutesEast, r.value)
    ensures r.None? ==> forall k :: 0 <= k < |zones| ==> zones[k].0 != minutesEast
  {
    if |zones| == 0 then None
    else if zones[0].0 == minutesEast then Some(zones[0].1)
    else
      var r := LookupOffset(zones[1..], minutesEast);
      assert forall k :: 1 <= k < |zones| ==> zones[k] == zones[1..][k - 1];
      r
  }

  /**
   * `detect_timezone_from_offset`: the browser reports minutes behind UTC,
   * so the offset is negated; an offset not in the map gives `UTC`.
   */
  function DetectTimezone(offsetMinutes: int): (r: string)
    ensures r in SupportedTimezones
  {
    var r := LookupOffset(OffsetZones, -offsetMinutes).GetOr("UTC");
    assert r in {"UTC", "Europe/Berlin", "Asia/Kolkata"};
    r
  }

  /** The three offsets the map knows, and `UTC` for every other. */
  lemma {:induction false} DetectTimezoneCases(offsetMinutes: int)
    ensures offsetMinutes == 0 ==> DetectTimezone(offsetMinutes) == "UTC"
    ensures offsetMinutes == -60 ==> DetectTimezone(offsetMinutes) == "Europe/Berlin"
    ensures offsetMinutes == -330 ==> DetectTimezone(offsetMinutes) == "Asia/Kolkata"
    ensures offsetMinutes !in {0, -60, -330} ==> DetectTimezone(offsetMinutes) == "UTC"
  {
  }

  /** A zone with a positive browser offset (west of UTC) is never guessed as anything but `UTC`. */
  lemma {:induction false} WestOfUtcIsUtc(offsetMinutes: int)
    requires offsetMinutes > 0
    ensures DetectTimezone(offsetMinutes) == "UTC"
  {
    DetectTimezoneCases(offsetMinutes);
  }
}
