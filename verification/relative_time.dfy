/** `formatRelativeTime` of lib/utils.ts, which labels a feed entry's
    creation time relative to now. The model returns which label is chosen
    (its bucket, unit and signed value); the English wording produced by
    `Intl.RelativeTimeFormat` and `Intl.DateTimeFormat` is not modelled. */
module RelativeTime {
  import opened JsMath

  datatype Unit = Minute | Hour | Day | Week

  datatype Bucket =
    | UnknownTime
    | JustNow
    | Relative(value: int, unit: Unit)
    | Today
    | Yesterday
    | Tomorrow
    | AbsoluteDate

  const OneMinute: int := 60
  const OneHour: int := OneMinute * 60
  const OneDay: int := OneHour * 24
  const OneWeek: int := OneDay * 7
  const OneMonth: int := OneDay * 30

  /** Whole seconds from `now` to `timestamp` (both in milliseconds), rounded
      the way `Math.round` rounds: halves go up. */
  function Seconds(timestamp: int, now: int): (r: int)
    ensures 1000 * r - 500 <= timestamp - now < 1000 * r + 500
  {
    Round((timestamp - now) as real / 1000.0)
  }

  /** `Math.round(s / unit)`: the whole number of units nearest to `s`,
      halves rounding up. */
  function Per(s: int, unit: int): (r: int)
    requires unit > 0
    ensures r as real - 0.5 <= s as real / unit as real < r as real + 0.5
  {
    Round(s as real / unit as real)
  }

  /** The bucket for a non-zero timestamp lying `s` seconds from now. The
      "Today" label is never produced: beyond a day of distance the day
      count cannot round to 0. */
  function Classify(s: int): (r: Bucket)
    ensures r != UnknownTime && r != Today
    ensures r == JustNow <==> -45 < s < 45
    ensures r.Relative? ==> r.value != 0 && (r.value > 0 <==> s > 0)
  {
    var abs := Abs(s);
    if abs < 45 then JustNow
    else if abs < OneHour then Relative(Per(s, OneMinute), Minute)
    else if abs < OneDay then Relative(Per(s, OneHour), Hour)
    else
      var dayDiff := Per(s, OneDay);
      if dayDiff == 0 then Today
      else if dayDiff == -1 then Yesterday
      else if dayDiff == 1 then Tomorrow
      else if Abs(dayDiff) < 7 then Relative(dayDiff, Day)
      else if abs < OneMonth then Relative(Per(s, OneWeek), Week)
      else AbsoluteDate
  }

  /** Minutes are shown from 45 s to just under an hour, as 1 to 60. */
  lemma MinuteRange(s: int)
    ensures var r := Classify(s);
      (r.Relative? && r.unit == Minute <==> 45 <= Abs(s) < OneHour)
      && (r.Relative? && r.unit == Minute ==> r.value == Per(s, OneMinute) && 1 <= Abs(r.value) <= 60)
  {
  }

  /** Hours are shown from one hour to just under a day, as 1 to 24. */
  lemma HourRange(s: int)
    ensures var r := Classify(s);
      (r.Relative? && r.unit == Hour <==> OneHour <= Abs(s) < OneDay)
      && (r.Relative? && r.unit == Hour ==> r.value == Per(s, OneHour) && 1 <= Abs(r.value) <= 24)
  {
  }

  /** "Yesterday" covers a day to a day and a half in the past, both ends
      included; "Tomorrow" a day to just under a day and a half ahead: at
      exactly 129600 s ahead the day count rounds up to 2. */
  lemma NeighbourDays(s: int)
    ensures Classify(s) == Yesterday <==> -129600 <= s <= -86400
    ensures Classify(s) == Tomorrow <==> 86400 <= s < 129600
  {
  }

  /** Days are shown, as 2 to 6 with the sign of `s`, from a day and a half
      to just under six and a half days ahead, and from just over a day and
      a half to six and a half days back. */
  lemma DayRange(s: int)
    ensures var r := Classify(s);
      (r.Relative? && r.unit == Day <==> 129600 <= s < 561600 || -561600 <= s < -129600)
      && (r.Relative? && r.unit == Day ==> r.value == Per(s, OneDay) && 2 <= Abs(r.value) <= 6)
  {
  }

  /** Weeks fill the rest of the first 30 days, as 1 to 4; from 30 days on
      the absolute date is shown. */
  lemma WeekRange(s: int)
    ensures var r := Classify(s);
      (r.Relative? && r.unit == Week <==> 561600 <= s < OneMonth || -OneMonth < s < -561600)
      && (r.Relative? && r.unit == Week ==> r.value == Per(s, OneWeek) && 1 <= Abs(r.value) <= 4)
      && (r == AbsoluteDate <==> Abs(s) >= OneMonth)
  {
  }

  /** The label for `timestamp`, given the clock reading `now`: a zero
      (falsy) timestamp is unknown; any other is classified by its distance
      from now in seconds. */
  function FormatRelativeTime(timestamp: int, now: int): (r: Bucket)
    ensures r == UnknownTime <==> timestamp == 0
    ensures r != Today
    ensures r == JustNow <==> timestamp != 0 && -45 < Seconds(timestamp, now) < 45
    ensures r == AbsoluteDate <==> timestamp != 0 && Abs(Seconds(timestamp, now)) >= OneMonth
  {
    if timestamp == 0 then UnknownTime else Classify(Seconds(timestamp, now))
  }

  /** Within a minute and a half of now, in milliseconds, the label is "Just
      now" exactly when the distance rounds below 45 seconds: from 44.5 s
      in the past to just under 44.5 s in the future. */
  lemma JustNowWindow(timestamp: int, now: int)
    requires timestamp != 0
    ensures FormatRelativeTime(timestamp, now) == JustNow <==> -44500 <= timestamp - now < 44500
  {
    var s := Seconds(timestamp, now);
    var x := (timestamp - now) as real / 1000.0;
    assert s as real - 0.5 <= x < s as real + 0.5;
  }

  /** A day ago to the millisecond is "Yesterday"; a day ahead is
      "Tomorrow". */
  lemma OneDayEitherWay(now: int)
    requires now != 86400000 && now != -86400000
    ensures FormatRelativeTime(now - 86400000, now) == Yesterday
    ensures FormatRelativeTime(now + 86400000, now) == Tomorrow
  {
    assert Seconds(now - 86400000, now) == -86400;
    assert Seconds(now + 86400000, now) == 86400;
  }
}
