/** The M1 bar record shared by the MyFX history files and the index calculators. */
module Bars {

  /** One minute of history: integer fixed-point prices and a tick count. */
  datatype Bar = Bar(time: int, open: int, high: int, low: int, close: int, ticks: int)

  /** The shape of every bar the index calculators produce. */
  predicate IndexShaped(b: Bar)
  {
    && b.low <= b.open <= b.high
    && b.low <= b.close <= b.high
    && (b.high == b.open || b.high == b.close)
    && (b.low == b.open || b.low == b.close)
    && b.ticks == 2 * (b.high - b.low)
  }
}
