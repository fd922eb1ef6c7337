/** Assembly of the technical-indicator table for a daily bar series. The
    moving averages, RSI and MACD come from a foreign library and are taken
    as given, aligned with the bars; the histogram is doubled for display
    and K, D, J come from the KDJ oscillator. */
module Indicators {
  import opened Prices
  import Oscillator

  /** What the foreign library returns for one bar series. */
  datatype LibraryOutputs = LibraryOutputs(
    macd: seq<Option<real>>, macdSignal: seq<Option<real>>, macdHist: seq<Option<real>>,
    ma5: seq<Option<real>>, ma10: seq<Option<real>>, ma20: seq<Option<real>>, ma30: seq<Option<real>>,
    ma60: seq<Option<real>>, ma120: seq<Option<real>>, ma250: seq<Option<real>>,
    rsi: seq<Option<real>>)

  /** The indicator table; every column is aligned with the bar series. */
  datatype Tech = Tech(
    macd: seq<Option<real>>, macdSignal: seq<Option<real>>, macdHist: seq<Option<real>>,
    ma5: seq<Option<real>>, ma10: seq<Option<real>>, ma20: seq<Option<real>>, ma30: seq<Option<real>>,
    ma60: seq<Option<real>>, ma120: seq<Option<real>>, ma250: seq<Option<real>>,
    rsi: seq<Option<real>>, k: seq<Option<real>>, d: seq<Option<real>>, j: seq<Option<real>>)

  /** The library produces one value (or NaN) per input bar. */
  predicate LibraryAligned(lib: LibraryOutputs, n: nat) {
    && |lib.macd| == n && |lib.macdSignal| == n && |lib.macdHist| == n
    && |lib.ma5| == n && |lib.ma10| == n && |lib.ma20| == n && |lib.ma30| == n
    && |lib.ma60| == n && |lib.ma120| == n && |lib.ma250| == n && |lib.rsi| == n
  }

  predicate TechAligned(tech: Tech, n: nat) {
    && |tech.macd| == n && |tech.macdSignal| == n && |tech.macdHist| == n
    && |tech.ma5| == n && |tech.ma10| == n && |tech.ma20| == n && |tech.ma30| == n
    && |tech.ma60| == n && |tech.ma120| == n && |tech.ma250| == n && |tech.rsi| == n
    && |tech.k| == n && |tech.d| == n && |tech.j| == n
  }

  /** The library's histogram is the MACD line minus its signal line. */
  predicate HistIsSpread(lib: LibraryOutputs)
    requires LibraryAligned(lib, |lib.macd|)
  {
    forall i :: 0 <= i < |lib.macd| && lib.macdHist[i].Some? ==>
      lib.macd[i].Some? && lib.macdSignal[i].Some? &&
      lib.macdHist[i].value == lib.macd[i].value - lib.macdSignal[i].value
  }

  /** A column multiplied by two; NaN stays NaN. */
  function Doubled(xs: seq<Option<real>>): (r: seq<Option<real>>)
    ensures |r| == |xs|
    ensures forall i :: 0 <= i < |xs| ==> (r[i].Some? <==> xs[i].Some?)
    ensures forall i :: 0 <= i < |xs| && r[i].Some? ==> r[i].value == 2.0 * xs[i].value
  {
    seq(|xs|, i requires 0 <= i < |xs| => if xs[i].Some? then Some(xs[i].value * 2.0) else None)
  }

  method GetIndicators(bars: seq<Bar>, lib: LibraryOutputs) returns (tech: Tech)
    requires LibraryAligned(lib, |bars|)
    ensures TechAligned(tech, |bars|)
    ensures tech.macd == lib.macd && tech.macdSignal == lib.macdSignal
    ensures tech.macdHist == Doubled(lib.macdHist)
    ensures HistIsSpread(lib) ==>
              forall i :: 0 <= i < |bars| && tech.macdHist[i].Some? ==>
                tech.macdHist[i].value == 2.0 * (tech.macd[i].value - tech.macdSignal[i].value)
    ensures && tech.ma5 == lib.ma5 && tech.ma10 == lib.ma10 && tech.ma20 == lib.ma20
            && tech.ma30 == lib.ma30 && tech.ma60 == lib.ma60 && tech.ma120 == lib.ma120
            && tech.ma250 == lib.ma250 && tech.rsi == lib.rsi
    ensures tech.k == Oscillator.Smooth(Oscillator.Rsv(Highs(bars), Lows(bars), Closes(bars)), Oscillator.Seed)
    ensures tech.d == Oscillator.Smooth(tech.k, Oscillator.Seed)
    ensures tech.j == Oscillator.JLine(tech.k, tech.d)
  {
    var hist := Doubled(lib.macdHist);
    var k, d, j := Oscillator.Kdj(Highs(bars), Lows(bars), Closes(bars));
    assert HistIsSpread(lib) ==>
      forall i :: 0 <= i < |bars| && hist[i].Some? ==>
        hist[i].value == 2.0 * (lib.macd[i].value - lib.macdSignal[i].value);
    tech := Tech(lib.macd, lib.macdSignal, hist,
                 lib.ma5, lib.ma10, lib.ma20, lib.ma30, lib.ma60, lib.ma120, lib.ma250,
                 lib.rsi, k, d, j);
  }
}
