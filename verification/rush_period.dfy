/** The rush-period rule that decides whether rush-only stations are open. The clock reading
    is passed in: `weekday` as `datetime.weekday()` gives it (0 = Monday, 6 = Sunday),
    `hour` in 0..23 and `minute` in 0..59. */
module RushPeriod {

  /** The rule as the source writes it: an hour test and a minute test, both applied to the
      same reading, so the minute test cuts every hour of a window short. */
  function IsRushPeriod(weekday: nat, hour: nat, minute: nat): (r: bool)
    ensures weekday >= 5 ==> !r
    ensures r ==> weekday < 5
    ensures r ==> (5 <= hour < 9 && minute < 10) || (14 <= hour < 18 && minute < 18)
    ensures weekday < 5 && 5 <= hour < 9 && minute < 10 ==> r
    ensures weekday < 5 && 14 <= hour < 18 && minute < 18 ==> r
  {
    if weekday < 5 then
      (5 <= hour < 9 && minute < 10) || (14 <= hour < 18 && minute < 18)
    else
      false
  }

  /** Minutes since midnight. */
  function MinuteOfDay(hour: nat, minute: nat): nat { hour * 60 + minute }

  /** The windows the function's own documentation announces: 5:00 up to 9:10 and
      14:00 up to 18:18 on weekdays, each end excluded. */
  function IsRushPeriodIntended(weekday: nat, hour: nat, minute: nat): (r: bool)
    requires minute < 60
    ensures weekday >= 5 ==> !r
    ensures weekday < 5 && 5 <= hour < 9 ==> r
    ensures weekday < 5 && 14 <= hour < 18 ==> r
    ensures r ==> 5 <= hour <= 9 || 14 <= hour <= 18
  {
    var t := MinuteOfDay(hour, minute);
    weekday < 5 && ((300 <= t < 550) || (840 <= t < 1098))
  }

  /** Every reading the source counts as rush hour lies in the announced windows. */
  lemma AsWrittenWithinIntended(weekday: nat, hour: nat, minute: nat)
    requires minute < 60
    ensures IsRushPeriod(weekday, hour, minute) ==> IsRushPeriodIntended(weekday, hour, minute)
  {
  }

  /** The announced windows end at 9:10 and 18:18, minute for minute. */
  lemma IntendedWindowEnds(weekday: nat)
    requires weekday < 5
    ensures IsRushPeriodIntended(weekday, 9, 9) && !IsRushPeriodIntended(weekday, 9, 10)
    ensures IsRushPeriodIntended(weekday, 18, 17) && !IsRushPeriodIntended(weekday, 18, 18)
    ensures !IsRushPeriodIntended(weekday, 4, 59) && !IsRushPeriodIntended(weekday, 13, 59)
  {
  }

  /** A Monday at 05:30 and at 09:05 lies inside the announced morning window, yet the
      source answers false for both. */
  lemma MinuteTestNarrowsWindow()
    ensures IsRushPeriodIntended(0, 5, 30) && !IsRushPeriod(0, 5, 30)
    ensures IsRushPeriodIntended(0, 9, 5) && !IsRushPeriod(0, 9, 5)
    ensures IsRushPeriodIntended(0, 17, 45) && !IsRushPeriod(0, 17, 45)
  {
  }
}
