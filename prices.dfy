/** Price bars and the column views the indicator code reads from a bar table. */
module Prices {

  /** A value that may be undefined; `None` stands where the source holds NaN. */
  datatype Option<T> = None | Some(value: T)

  /** One sampled interval: `time` is a day number for daily bars and a
      minute stamp for intraday bars. */
  datatype Bar = Bar(time: int, open: real, high: real, low: real, close: real)

  /** The range invariant every bar from the data provider satisfies. */
  predicate WellFormed(b: Bar) {
    b.low <= b.open <= b.high && b.low <= b.close <= b.high
  }

  predicate AllWellFormed(bars: seq<Bar>) {
    forall i :: 0 <= i < |bars| ==> WellFormed(bars[i])
  }

  function Highs(bars: seq<Bar>): (r: seq<real>)
    ensures |r| == |bars| && forall i :: 0 <= i < |bars| ==> r[i] == bars[i].high
  {
    seq(|bars|, i requires 0 <= i < |bars| => bars[i].high)
  }

  function Lows(bars: seq<Bar>): (r: seq<real>)
    ensures |r| == |bars| && forall i :: 0 <= i < |bars| ==> r[i] == bars[i].low
  {
    seq(|bars|, i requires 0 <= i < |bars| => bars[i].low)
  }

  function Closes(bars: seq<Bar>): (r: seq<real>)
    ensures |r| == |bars| && forall i :: 0 <= i < |bars| ==> r[i] == bars[i].close
  {
    seq(|bars|, i requires 0 <= i < |bars| => bars[i].close)
  }
}
