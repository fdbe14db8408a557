/**
 * Unix timestamps, trading days and the GMT date strings both scripts build
 * from them (`date('Y/m/d')`, `iDate('m')`, `gmDate('m')` with the default
 * time zone set to GMT).
 */
module Dates {
  import Civil
  import Php

  const MINUTE := 60
  const HOUR := 60 * MINUTE
  const DAY := 24 * HOUR

  /** `1*DAY/MINUTES`: the number of M1 bars of a complete day. */
  const MinutesPerDay := DAY / MINUTE

  /** `23*HOURS+59*MINUTES`: offset of the last M1 bar of a day. */
  const LastMinuteOffset := 23 * HOUR + 59 * MINUTE

  /** Calendar date of a timestamp in GMT. */
  function GmDate(t: int): (d: Civil.Date)
    ensures Civil.Valid(d)
  {
    Civil.CivilFromDays(t / DAY)
  }

  /** `iDate('m', t)` / `(int) gmDate('m', t)`. */
  function Month(t: int): (m: int)
    ensures 1 <= m <= 12
  {
    GmDate(t).month
  }

  /** `date('Y', ...)`: at least four digits, a leading '-' before year 0. */
  function YearText(y: int): (s: string)
    ensures 4 <= |s|
  {
    if y < 0 then "-" + Php.PadNat(-y, 4) else Php.PadNat(y, 4)
  }

  /** Two-digit month or day number. */
  function TwoDigits(n: int): (s: string)
    requires 1 <= n <= 31
    ensures |s| == 2 && Php.AllDigits(s)
  {
    assert n >= 10 ==> |Php.NatToString(n)| == |Php.NatToString(n / 10)| + 1;
    Php.PadNat(n, 2)
  }

  /** `date('Y/m/d', t)`: the date segment of every history path. */
  function DirDate(t: int): (s: string)
    ensures 10 <= |s|
    ensures s[|s| - 3] == '/' && s[|s| - 6] == '/'
  {
    var d := GmDate(t);
    YearText(d.year) + "/" + TwoDigits(d.month) + "/" + TwoDigits(d.day)
  }

  lemma YearTextInjective(a: int, b: int)
    requires YearText(a) == YearText(b)
    ensures a == b
  {
    var s := YearText(a);
    assert a >= 0 ==> Php.IsDigit(s[0]);
    assert b >= 0 ==> Php.IsDigit(YearText(b)[0]);
    if a < 0 {
      assert b < 0;
      assert Php.PadNat(-a, 4) == s[1..] == Php.PadNat(-b, 4);
      Php.PadNatInjective(-a, -b, 4);
    } else {
      assert b >= 0;
      Php.PadNatInjective(a, b, 4);
    }
  }

  /** The date string determines the calendar date. */
  lemma DirDateInjective(t1: int, t2: int)
    requires DirDate(t1) == DirDate(t2)
    ensures GmDate(t1) == GmDate(t2)
  {
    var d1, d2 := GmDate(t1), GmDate(t2);
    var s := DirDate(t1);
    var n := |s|;
    var y1, m1, e1 := YearText(d1.year), TwoDigits(d1.month), TwoDigits(d1.day);
    var y2, m2, e2 := YearText(d2.year), TwoDigits(d2.month), TwoDigits(d2.day);
    assert s == y1 + "/" + m1 + "/" + e1 == y2 + "/" + m2 + "/" + e2;
    assert |y1| == |y2| == n - 6;
    assert y1 == s[..n - 6] == y2;
    assert m1 == s[n - 5..n - 3] == m2;
    assert e1 == s[n - 2..] == e2;
    YearTextInjective(d1.year, d2.year);
    Php.PadNatInjective(d1.month, d2.month, 2);
    Php.PadNatInjective(d1.day, d2.day, 2);
  }

  /** Two timestamps share a date directory exactly when they fall on the same GMT day. */
  lemma DirDateIdentifiesDay(t1: int, t2: int)
    ensures DirDate(t1) == DirDate(t2) <==> t1 / DAY == t2 / DAY
  {
    if DirDate(t1) == DirDate(t2) {
      DirDateInjective(t1, t2);
      Civil.RoundTrip(t1 / DAY);
      Civil.RoundTrip(t2 / DAY);
    }
  }

  /**
   * `$t - $t%DAY`: midnight of the timestamp's day for times from 1970 on;
   * before 1970 PHP's truncating `%` gives the midnight at or after it instead.
   */
  function FloorToDay(t: int): (r: int)
    ensures r % DAY == 0
    ensures t >= 0 ==> r <= t < r + DAY
    ensures t < 0 ==> t <= r < t + DAY
  {
    t - Php.Mod(t, DAY)
  }
}
