/**
 * The bar construction shared by `calculateUSDFX6` and the `calculate*LFX`
 * functions: one index bar per AUDUSD bar, carrying AUDUSD's time; open and
 * close each come from the calculator's float formula applied to the member
 * prices of that minute; high, low and ticks are derived from open and close.
 */
module IndexEngine {
  import opened Wrappers
  import opened Bars
  import Dates
  import DayValidator
  import Packer

  datatype Field = Open | Close

  function PriceOf(b: Bar, f: Field): int
  {
    match f
    case Open => b.open
    case Close => b.close
  }

  /**
   * The float part of a calculator, `round(pow(...) ...)`, left abstract: the
   * index symbol and one minute's member prices, in the order the calculator
   * reads them. A member without a bar at that minute contributes None (PHP
   * reads null there).
   */
  type PriceFormula = (string, seq<Option<int>>) -> int

  function Max(a: int, b: int): int { if a >= b then a else b }
  function Min(a: int, b: int): int { if a <= b then a else b }
  function Abs(a: int): int { if a >= 0 then a else -a }

  /** `high = max`, `low = min`, `ticks = abs(open-close) << 1`. */
  function IndexBar(time: int, open: int, close: int): (b: Bar)
    ensures b.time == time && b.open == open && b.close == close
    ensures IndexShaped(b)
    ensures b.ticks >= 0 && b.ticks % 2 == 0
  {
    Bar(time, open, Max(open, close), Min(open, close), close, 2 * Abs(open - close))
  }

  predicate HasInputs(bars: map<string, seq<Bar>>, inputs: seq<string>)
  {
    |inputs| > 0 && forall k :: 0 <= k < |inputs| ==> inputs[k] in bars
  }

  /** `$SYMBOL[$i]['open']` (or `'close'`) for every input symbol, in order. */
  function PricesAt(bars: map<string, seq<Bar>>, inputs: seq<string>, i: int, f: Field): (ps: seq<Option<int>>)
    requires HasInputs(bars, inputs)
    ensures |ps| == |inputs|
    ensures forall k :: 0 <= k < |inputs| ==>
      ps[k] == if 0 <= i < |bars[inputs[k]]| then Some(PriceOf(bars[inputs[k]][i], f)) else None
  {
    seq(|inputs|, k requires 0 <= k < |inputs| =>
      var s := bars[inputs[k]];
      if 0 <= i < |s| then Some(PriceOf(s[i], f)) else None)
  }

  /** The index bars of one day, walking the first input (AUDUSD). */
  function Calculate(index: string, inputs: seq<string>, bars: map<string, seq<Bar>>, formula: PriceFormula): (r: seq<Bar>)
    requires HasInputs(bars, inputs)
    ensures |r| == |bars[inputs[0]]|
    ensures forall i :: 0 <= i < |r| ==> r[i].time == bars[inputs[0]][i].time
    ensures forall i :: 0 <= i < |r| ==> IndexShaped(r[i])
    ensures forall i :: 0 <= i < |r| ==>
      && r[i].open == formula(index, PricesAt(bars, inputs, i, Open))
      && r[i].close == formula(index, PricesAt(bars, inputs, i, Close))
  {
    var driver := bars[inputs[0]];
    var r := seq(|driver|, i requires 0 <= i < |driver| =>
      IndexBar(driver[i].time,
               formula(index, PricesAt(bars, inputs, i, Open)),
               formula(index, PricesAt(bars, inputs, i, Close))));
    assert forall i :: 0 <= i < |r| ==> IndexShaped(r[i]) && r[i].time == driver[i].time by {
      forall i | 0 <= i < |r|
        ensures IndexShaped(r[i]) && r[i].time == driver[i].time
      {
        var b := IndexBar(driver[i].time,
                          formula(index, PricesAt(bars, inputs, i, Open)),
                          formula(index, PricesAt(bars, inputs, i, Close)));
        assert r[i] == b;
      }
    }
    r
  }

  /**
   * Whatever the formula yields, a gapless AUDUSD day gives an index day that
   * passes the validator and packs to 1440 records of 24 bytes.
   */
  lemma CompleteDriverDayIsPublishable(index: string, inputs: seq<string>, bars: map<string, seq<Bar>>,
                                       formula: PriceFormula, day: int)
    requires HasInputs(bars, inputs)
    requires DayValidator.MinuteSeries(day, bars[inputs[0]])
    ensures DayValidator.Validate(Calculate(index, inputs, bars, formula)).None?
    ensures |Packer.Pack(Calculate(index, inputs, bars, formula))| == 34560
  {
    var r := Calculate(index, inputs, bars, formula);
    assert DayValidator.MinuteSeries(day, r);
    DayValidator.MinuteSeriesIsAccepted(day, r);
  }
}
