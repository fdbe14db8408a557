/**
 * The day loop both scripts share, `for ($day=$startDay, $lastMonth=-1;
 * $day < $today; $day+=1*DAY)`: which days it visits, on which of them it
 * reports a new month, and which of them are trading days.
 */
module DayWalk {
  import Dates

  /** The days the loop visits, in order. */
  function Days(start: int, today: int): (ds: seq<int>)
    ensures forall i :: 0 <= i < |ds| ==> ds[i] == start + i * Dates.DAY && ds[i] < today
    ensures start + |ds| * Dates.DAY >= today
    ensures forall i :: 0 <= i < |ds| ==> start <= ds[i]
    decreases today - start
  {
    if start >= today then []
    else
      var rest := Days(start + Dates.DAY, today);
      var ds := [start] + rest;
      assert forall i :: 1 <= i < |ds| ==> ds[i] == rest[i - 1];
      ds
  }

  predicate Increasing(s: seq<int>)
  {
    forall i, j :: 0 <= i < j < |s| ==> s[i] < s[j]
  }

  /** A day is visited exactly when it lies in [start, today) on the start's time of day. */
  lemma InDays(start: int, today: int, d: int)
    ensures d in Days(start, today) <==> start <= d < today && (d - start) % Dates.DAY == 0
  {
    var ds := Days(start, today);
    assert Dates.DAY == 86400;
    if start <= d < today && (d - start) % 86400 == 0 {
      var i := (d - start) / 86400;
      assert d == start + i * 86400;
      assert i < |ds|;
      assert ds[i] == d;
    }
    if d in ds {
      var i :| 0 <= i < |ds| && ds[i] == d;
      assert d - start == i * 86400;
    }
  }

  lemma DaysIncrease(start: int, today: int)
    ensures Increasing(Days(start, today))
  {
  }

  /**
   * The days on which `$month != $lastMonth` holds, `$lastMonth` being the
   * month of the previous visited day (initially `last`).
   */
  function MonthChanges(ds: seq<int>, last: int): (r: seq<int>)
  {
    if ds == [] then []
    else
      var m := Dates.Month(ds[0]);
      (if m != last then [ds[0]] else []) + MonthChanges(ds[1..], m)
  }

  /**
   * Starting from `$lastMonth = -1`, a month line is reported for the first
   * day visited and for every later day whose month differs from that of the
   * day before it.
   */
  lemma {:induction false} MonthChangesOfDays(start: int, today: int, last: int, d: int)
    ensures d in MonthChanges(Days(start, today), last) <==>
      d in Days(start, today) &&
      (if d == start then Dates.Month(d) != last else Dates.Month(d) != Dates.Month(d - Dates.DAY))
    decreases today - start
  {
    var ds := Days(start, today);
    if start < today {
      var m := Dates.Month(start);
      var rest := Days(start + Dates.DAY, today);
      assert ds == [start] + rest;
      assert ds[1..] == rest;
      assert MonthChanges(ds, last) == (if m != last then [start] else []) + MonthChanges(rest, m);
      MonthChangesOfDays(start + Dates.DAY, today, m, d);
      assert forall i :: 0 <= i < |rest| ==> start < rest[i];
      assert d in ds <==> d == start || d in rest;
    }
  }

  lemma FirstDayStartsAMonth(start: int, today: int)
    requires start < today
    ensures MonthChanges(Days(start, today), -1)[0] == start
  {
  }

  /** `if (!isWeekend($day))`: the visited days that are processed. */
  function Trading(ds: seq<int>, isWeekend: int -> bool): (r: seq<int>)
    ensures forall d :: d in r <==> d in ds && !isWeekend(d)
    ensures Increasing(ds) ==> Increasing(r)
    ensures |r| <= |ds|
  {
    if ds == [] then []
    else
      var rest := Trading(ds[1..], isWeekend);
      assert forall d :: d in ds <==> d == ds[0] || d in ds[1..];
      assert Increasing(ds) ==> forall d :: d in rest ==> ds[0] < d by {
        if Increasing(ds) {
          forall d | d in rest
            ensures ds[0] < d
          {
            var i :| 0 <= i < |ds[1..]| && ds[1..][i] == d;
            assert ds[i + 1] == d;
          }
        }
      }
      if isWeekend(ds[0]) then rest
      else
        var r := [ds[0]] + rest;
        assert Increasing(ds) ==> Increasing(r) by {
          if Increasing(ds) {
            forall i, j | 0 <= i < j < |r|
              ensures r[i] < r[j]
            {
              assert r[j] == rest[j - 1];
              assert r[j] in rest;
              if i > 0 { assert r[i] == rest[i - 1]; }
            }
          }
        }
        r
  }
}
