/**
 * Step (1) of `saveBars`: a day of index bars is published only if it holds
 * exactly one bar per minute of the day (by count), its first bar falls on
 * midnight and its last bar on 23:59. The checks run in that order and the
 * first failing one is reported; times are compared with PHP's `%`.
 */
module DayValidator {
  import opened Wrappers
  import opened Bars
  import Php
  import Dates

  datatype Rejection =
    | WrongBarCount(size: int)   // "Invalid number of bars"
    | NoDayStart(first: Bar)     // "No beginning bars"
    | NoDayEnd(last: Bar)        // "No ending bars"

  /** The three conditions `saveBars` insists on. */
  predicate CompleteDay(bars: seq<Bar>)
  {
    && |bars| == Dates.MinutesPerDay
    && Php.Mod(bars[0].time, Dates.DAY) == 0
    && Php.Mod(bars[|bars| - 1].time, Dates.DAY) == Dates.LastMinuteOffset
  }

  function Validate(bars: seq<Bar>): (r: Option<Rejection>)
    ensures r.None? <==> CompleteDay(bars)
    ensures |bars| != 1440 ==> r == Some(WrongBarCount(|bars|))
    ensures |bars| == 1440 && Php.Mod(bars[0].time, Dates.DAY) != 0 ==> r == Some(NoDayStart(bars[0]))
    ensures |bars| == 1440 && Php.Mod(bars[0].time, Dates.DAY) == 0
            && Php.Mod(bars[1439].time, Dates.DAY) != Dates.LastMinuteOffset
            ==> r == Some(NoDayEnd(bars[1439]))
  {
    var size := |bars|;
    if size != Dates.MinutesPerDay then Some(WrongBarCount(size))
    else if Php.Mod(bars[0].time, Dates.DAY) != 0 then Some(NoDayStart(bars[0]))
    else if Php.Mod(bars[size - 1].time, Dates.DAY) != Dates.LastMinuteOffset then Some(NoDayEnd(bars[size - 1]))
    else None
  }

  /** Minute-by-minute bars of the day starting at midnight `day` (from 1970 on). */
  predicate MinuteSeries(day: int, bars: seq<Bar>)
  {
    && day >= 0 && day % Dates.DAY == 0
    && |bars| == Dates.MinutesPerDay
    && forall i :: 0 <= i < |bars| ==> bars[i].time == day + Dates.MINUTE * i
  }

  /** A gapless minute series of one day always passes the validator. */
  lemma MinuteSeriesIsAccepted(day: int, bars: seq<Bar>)
    requires MinuteSeries(day, bars)
    ensures Validate(bars).None?
  {
    assert bars[1439].time == day + 86340;
    Php.ModAgreesOnNonNegative(bars[0].time, Dates.DAY);
    Php.ModAgreesOnNonNegative(bars[1439].time, Dates.DAY);
  }

  /**
   * Only the count and the two end bars are inspected: a day whose interior
   * minutes are all stamped midnight is accepted as well.
   */
  lemma InteriorIsNotInspected()
    ensures var bars := seq(1440, i => Bar(if i == 1439 then 86340 else 0, 1, 1, 1, 1, 0));
      Validate(bars).None? && bars[1].time == bars[2].time
  {
  }

  /** Before 1970 PHP's `%` is negative, so even a gapless day is rejected. */
  lemma PreEpochDayIsRejected()
    ensures var bars := seq(1440, i => Bar(-86400 + 60 * i, 1, 1, 1, 1, 0));
      Validate(bars) == Some(NoDayEnd(bars[1439]))
  {
  }
}
