/** Tri-state colour labels: session over session, bar by bar, histogram
    sign, index change sign. */
module Colors {
  import opened Prices
  import Indicators

  datatype Color = Green | Red | Grey

  /** Up, down or flat: `a` compared with the reference `b`. */
  function Movement(a: real, b: real): (r: Color)
    ensures r == Green <==> a > b
    ensures r == Red <==> a < b
    ensures r == Grey <==> a == b
  {
    if a > b then Green else if a < b then Red else Grey
  }

  lemma MovementSymmetry(a: real, b: real)
    ensures Movement(a, a) == Grey
    ensures Movement(a, b) == Red <==> Movement(b, a) == Green
  {
  }

  /** The live-price colour: the current session's last close against the
      previous session's last close. Callers pass two non-empty sessions. */
  function LivePriceColor(df: seq<Bar>, prevDf: seq<Bar>): (r: Color)
    requires |df| > 0 && |prevDf| > 0
    ensures r == Green <==> df[|df| - 1].close > prevDf[|prevDf| - 1].close
    ensures r == Red <==> df[|df| - 1].close < prevDf[|prevDf| - 1].close
    ensures r == Grey <==> df[|df| - 1].close == prevDf[|prevDf| - 1].close
  {
    Movement(df[|df| - 1].close, prevDf[|prevDf| - 1].close)
  }

  /** Overwrite the labels selected by a boolean mask. */
  method Paint(color: array<Color>, mask: seq<bool>, c: Color)
    requires |mask| == color.Length
    modifies color
    ensures forall i :: 0 <= i < color.Length ==> color[i] == (if mask[i] then c else old(color[i]))
  {
    for i := 0 to color.Length
      invariant forall k :: 0 <= k < i ==> color[k] == (if mask[k] then c else old(color[k]))
      invariant forall k :: i <= k < color.Length ==> color[k] == old(color[k])
    {
      if mask[i] {
        color[i] := c;
      }
    }
  }

  /** One label per bar: green, red or grey as the close is above, below or
      equal to the open. A table with no bars yields an empty numeric array,
      which rejects a colour name: `None` stands for that error. */
  method VolColor(bars: seq<Bar>) returns (labels: Option<seq<Color>>)
    ensures labels.None? <==> bars == []
    ensures labels.Some? ==> |labels.value| == |bars|
    ensures labels.Some? ==>
              forall i :: 0 <= i < |bars| ==> labels.value[i] == Movement(bars[i].close, bars[i].open)
  {
    if bars == [] {
      return None;
    }
    var color := new Color[|bars|](_ => Green);
    Paint(color, seq(|bars|, i requires 0 <= i < |bars| => bars[i].close > bars[i].open), Green);
    Paint(color, seq(|bars|, i requires 0 <= i < |bars| => bars[i].close < bars[i].open), Red);
    Paint(color, seq(|bars|, i requires 0 <= i < |bars| => bars[i].close == bars[i].open), Grey);
    labels := Some(color[..]);
  }

  /** One label per histogram entry by its sign; an undefined entry fails
      all three comparisons and keeps the initial green. An empty table is
      the same error as in `VolColor`. */
  method MacdHistColor(tech: Indicators.Tech) returns (labels: Option<seq<Color>>)
    ensures labels.None? <==> tech.macdHist == []
    ensures labels.Some? ==> |labels.value| == |tech.macdHist|
    ensures labels.Some? ==>
              forall i :: 0 <= i < |tech.macdHist| && tech.macdHist[i].None? ==> labels.value[i] == Green
    ensures labels.Some? ==>
              forall i :: 0 <= i < |tech.macdHist| && tech.macdHist[i].Some? ==>
                labels.value[i] == Movement(tech.macdHist[i].value, 0.0)
  {
    var hist := tech.macdHist;
    if hist == [] {
      return None;
    }
    var n := |hist|;
    var color := new Color[n](_ => Green);
    Paint(color, seq(n, i requires 0 <= i < n => hist[i].Some? && hist[i].value > 0.0), Green);
    Paint(color, seq(n, i requires 0 <= i < n => hist[i].Some? && hist[i].value < 0.0), Red);
    Paint(color, seq(n, i requires 0 <= i < n => hist[i].Some? && hist[i].value == 0.0), Grey);
    labels := Some(color[..]);
  }

  /** Text style of a market index quote: colour, 15px, bold. */
  datatype Style = Style(color: Color, fontSizePx: nat, bold: bool)

  /** The style for a signed change string such as "-12.30 (-0.1%)".
      An empty string has no first character: `None` stands for that error. */
  function MarketIndexStyle(change: string): (r: Option<Style>)
    ensures r.None? <==> change == []
    ensures r.Some? ==> r.value.fontSizePx == 15 && r.value.bold
    ensures r.Some? ==> (r.value.color == Red <==> change[0] == '-')
    ensures r.Some? ==> (r.value.color == Green <==> change[0] == '+')
  {
    if change == [] then None
    else if change[0] == '-' then Some(Style(Red, 15, true))
    else if change[0] == '+' then Some(Style(Green, 15, true))
    else Some(Style(Grey, 15, true))
  }
}
