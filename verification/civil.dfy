/**
 * Proleptic Gregorian calendar arithmetic on day numbers (days since
 * 1970-01-01), as used by PHP's GMT `date()` and `iDate()` to turn a Unix
 * timestamp into year, month and day. Integer-only, after H. Hinnant's
 * civil-from-days algorithm; day numbers may be negative.
 */
module Civil {

  datatype Date = Date(year: int, month: int, day: int)

  /** Gregorian leap-year rule (proleptic; year 0 is a leap year). */
  predicate IsLeapYear(y: int)
  {
    y % 4 == 0 && (y % 100 != 0 || y % 400 == 0)
  }

  function DaysInMonth(y: int, m: int): int
  {
    if m == 2 then (if IsLeapYear(y) then 29 else 28)
    else if m == 4 || m == 6 || m == 9 || m == 11 then 30
    else 31
  }

  /** A date that exists in the calendar. */
  predicate Valid(d: Date)
  {
    1 <= d.month <= 12 && 1 <= d.day <= DaysInMonth(d.year, d.month)
  }

  /** Day numbers 0 .. 146096 of a 400-year era, counted from a 1 March. */
  predicate InEra(doe: int) { 0 <= doe < 146097 }

  /** First day-of-era of year-of-era `yoe` (years start on 1 March). */
  function YearStart(yoe: int): int
  {
    365 * yoe + yoe / 4 - yoe / 100
  }

  /**
   * Splits a day-of-era into its year of the era (0 .. 399) and the day of
   * that March-based year: centuries of 36524 days (the last one one day
   * longer), four-year cycles of 1461 days, years of 365 days (the fourth one
   * of a cycle one day longer).
   */
  function SplitEra(doe: int): (r: (int, int))
    requires InEra(doe)
    ensures 0 <= r.0 < 400 && 0 <= r.1 <= 365
    ensures YearStart(r.0) + r.1 == doe
    ensures r.1 == 365 ==> IsLeapYear(r.0 + 1)
  {
    var c := if doe / 36524 < 3 then doe / 36524 else 3;
    var r1 := doe - 36524 * c;
    var q := r1 / 1461;
    var r2 := r1 - 1461 * q;
    var y4 := if r2 / 365 < 3 then r2 / 365 else 3;
    assert 0 <= q <= 24 && 0 <= y4 <= 3;
    var yoe := 100 * c + 4 * q + y4;
    assert yoe / 4 == 25 * c + q;
    assert yoe / 100 == c;
    (yoe, r2 - 365 * y4)
  }

  /** Length of month `mp` of a March-based year (0 is March, 11 is February). */
  function MarchMonthLength(mp: int, leap: bool): int
  {
    if mp == 11 then (if leap then 29 else 28)
    else if mp == 1 || mp == 3 || mp == 6 || mp == 8 then 30
    else 31
  }

  /** `(153 * mp + 2) / 5` is the first day of month `mp`, and months split the year. */
  lemma MonthSplit(doy: int, leap: bool)
    requires 0 <= doy <= 365
    requires doy == 365 ==> leap
    ensures var mp := (5 * doy + 2) / 153;
      var dd := doy - (153 * mp + 2) / 5 + 1;
      0 <= mp <= 11 && 1 <= dd <= MarchMonthLength(mp, leap)
  {
    var mp := (5 * doy + 2) / 153;
    assert 153 * mp <= 5 * doy + 2 < 153 * mp + 153;
    assert 0 <= mp <= 11;
    var start := (153 * mp + 2) / 5;
    assert 5 * start <= 153 * mp + 2 < 5 * start + 5;
    if mp == 0 { assert start == 0; }
    else if mp == 1 { assert start == 31; }
    else if mp == 2 { assert start == 61; }
    else if mp == 3 { assert start == 92; }
    else if mp == 4 { assert start == 122; }
    else if mp == 5 { assert start == 153; }
    else if mp == 6 { assert start == 184; }
    else if mp == 7 { assert start == 214; }
    else if mp == 8 { assert start == 245; }
    else if mp == 9 { assert start == 275; }
    else if mp == 10 { assert start == 306; }
    else { assert start == 337; }
  }

  /** The leap-year rule repeats every 400 years. */
  lemma LeapPeriodic(y: int, era: int)
    ensures IsLeapYear(y + era * 400) == IsLeapYear(y)
  {
    assert y + era * 400 == y + 4 * (era * 100);
    assert (y + era * 400) % 4 == y % 4;
    assert y + era * 400 == y + 100 * (era * 4);
    assert (y + era * 400) % 100 == y % 100;
    assert (y + era * 400) % 400 == y % 400;
  }

  /** The date of day `doy` of the March-based year `yoe` of era `era`. */
  function DateInEra(era: int, yoe: int, doy: int): (d: Date)
    requires 0 <= yoe < 400 && 0 <= doy <= 365
    requires doy == 365 ==> IsLeapYear(yoe + 1)
    ensures Valid(d)
  {
    MonthSplit(doy, IsLeapYear(yoe + 1));
    LeapPeriodic(yoe + 1, era);
    var mp := (5 * doy + 2) / 153;
    var dd := doy - (153 * mp + 2) / 5 + 1;
    var m := if mp < 10 then mp + 3 else mp - 9;
    Date(yoe + era * 400 + (if m <= 2 then 1 else 0), m, dd)
  }

  function CivilFromDays(z: int): (d: Date)
    ensures Valid(d)
  {
    var z' := z + 719468;
    var (yoe, doy) := SplitEra(z' % 146097);
    DateInEra(z' / 146097, yoe, doy)
  }

  function DaysFromCivil(d: Date): int
  {
    var y := d.year - (if d.month <= 2 then 1 else 0);
    var era := y / 400;
    var yoe := y - era * 400;
    var mp := if d.month > 2 then d.month - 3 else d.month + 9;
    var doy := (153 * mp + 2) / 5 + d.day - 1;
    var doe := YearStart(yoe) + doy;
    era * 146097 + doe - 719468
  }

  /** `y / 400` of a year `yoe + era * 400` with `yoe` in its era. */
  lemma EraOfYear(yoe: int, era: int)
    requires 0 <= yoe < 400
    ensures (yoe + era * 400) / 400 == era
  {
  }

  /** Counting the days back from a date in an era recovers its era, year and day. */
  lemma DaysOfDateInEra(era: int, yoe: int, doy: int)
    requires 0 <= yoe < 400 && 0 <= doy <= 365
    requires doy == 365 ==> IsLeapYear(yoe + 1)
    ensures DaysFromCivil(DateInEra(era, yoe, doy)) == era * 146097 + YearStart(yoe) + doy - 719468
  {
    MonthSplit(doy, IsLeapYear(yoe + 1));
    var mp := (5 * doy + 2) / 153;
    var d := DateInEra(era, yoe, doy);
    var y := d.year - (if d.month <= 2 then 1 else 0);
    assert y == yoe + era * 400;
    EraOfYear(yoe, era);
    assert (if d.month > 2 then d.month - 3 else d.month + 9) == mp;
  }

  lemma RoundTrip(z: int)
    ensures DaysFromCivil(CivilFromDays(z)) == z
  {
    var z' := z + 719468;
    assert z' == z' / 146097 * 146097 + z' % 146097;
    var (yoe, doy) := SplitEra(z' % 146097);
    DaysOfDateInEra(z' / 146097, yoe, doy);
  }
}
