# Lazyman stock research: indicator and session core

A Dafny model of the computational core of a stock-research dashboard.
The dashboard reads daily and one-minute price bars for a ticker. From them
it computes technical indicators and picks the trading sessions to compare.
The model covers:

- **KDJ stochastic oscillator.** RSV (raw stochastic value) is the close's
  position inside the 9-bar low/high range, in percent. K smooths RSV as
  K = RSV/3 + 2/3 of the previous K, seeded at 50. D applies the same
  smoothing to K, and J = 3K - 2D. Where an input is undefined, the output
  is undefined and the accumulator holds its value.
- **Indicator assembly.** The library MACD histogram is doubled for
  display. K, D and J are wired in beside the library's moving averages and
  RSI, which the model takes as given.
- **Session resolver (`live_price_df`).** It steps back one calendar day at
  a time from today until a one-day intraday fetch has bars, under a retry
  counter. Then it searches for the session before that one.
- **Classifiers.** These give green/red/grey labels: the live price against
  the previous close, each bar's close against its open, and the sign of
  the MACD histogram. Index-quote styles come from the sign character of
  the change string. The market-status line comes from an "AT CLOSE"
  prefix test.
- **Chart range breaks.** These are the calendar days between the first
  and the last daily bar that carry no bar.

Prices are `real`, NaN is `Option.None`, and 1/3 and 2/3 are exact. Days are
integers: day numbers for chart bars, and days before today for the
resolver. The fetch `ticker.history` is the parameter `fetch: nat -> seq<Bar>`.

Modules: `Prices` (bars, columns), `Oscillator` (KDJ), `Indicators`
(`get_indicators`), `Colors` (classifiers), `MarketStatus` (status line), `Sessions` (`live_price_df`),
`ChartBreaks` (range breaks).

What the resolver does, set against the source's own comments:

- The comment at line 667 says the retry counter `step` decides whether
  the ticker is valid. The current side fetches days 0 through 6, seven
  fetches at most. When days 0-5 are empty it stops with `step` at 6 and
  keeps day 6's result, which may have bars (lines 666-674).
- The comment at line 680 says that with `step > 5` `prev_df` "will be set
  empty". The code does not clear it: it fetches the day before the current
  day once (day 7) and keeps that result, bars or not (lines 676-683). The
  comment holds for a ticker with no bars on days 0-7, where both sessions
  come back empty; `Sessions.LivePriceDf` states both cases.
- The search for the previous session has no retry limit once the current
  side found a session in time (lines 681-687); see Findings.

## Model

| member | source | states |
|---|---|---|
| Oscillator.MinOf | lazyman_stock_research.py:918 | the window minimum is one of the window's lows and no low is below it |
| Oscillator.MaxOf | lazyman_stock_research.py:919 | the window maximum is one of the window's highs and no high is above it |
| Oscillator.Rsv | lazyman_stock_research.py:918-920 | RSV has one entry per bar, each the 9-bar stochastic value at that position |
| Oscillator.RsvUndefinedWhere | lazyman_stock_research.py:918-920 | RSV is undefined exactly at the first 8 positions and where the 9-bar high equals the 9-bar low |
| Oscillator.RsvAtInRange | lazyman_stock_research.py:918-920 | at a bar whose close lies between its low and high, a defined RSV lies in [0, 100] |
| Oscillator.RsvInRange | lazyman_stock_research.py:918-920 | on bars with low <= close <= high every defined RSV lies in [0, 100] |
| Oscillator.Smooth | lazyman_stock_research.py:922-929 | the smoothed series has the input's length and is defined exactly where the input is |
| Oscillator.SmoothScan | lazyman_stock_research.py:922-938 | the accumulate-and-append loop (seed 50, advance on defined input, hold on NaN) yields the smoothing function |
| Oscillator.Kdj | lazyman_stock_research.py:917-944 | K is the smoothing of RSV and D the smoothing of K; J = 3K - 2D; all three have the input's length; all are undefined at the first 8 positions; K is defined exactly where RSV is; D and J are defined exactly where K is |
| Oscillator.CarryIsLastDefined | lazyman_stock_research.py:922-929 | the accumulator after any prefix equals the last defined output so far, or 50 if none |
| Oscillator.SmoothAt | lazyman_stock_research.py:922-929 | at an undefined input the output is undefined; at a defined input x the output is x/3 + 2/3 of the last defined output before it (or of 50) |
| Oscillator.SmoothIgnoresGaps | lazyman_stock_research.py:922-938 | deleting the undefined entries from the input gives exactly the defined outputs: a gap holds the accumulator and never resets it |
| Oscillator.CarryIgnoresGaps | lazyman_stock_research.py:922-938 | the final accumulator is the same with or without the undefined entries |
| Oscillator.SmoothInRange | lazyman_stock_research.py:926 | if the seed and every defined input lie in [0, 100], so do the accumulator and every defined output |
| Oscillator.KdjInRange | lazyman_stock_research.py:917-943 | on well-formed bars every defined K and D lies in [0, 100], and J is defined exactly where K is |
| Oscillator.JLine | lazyman_stock_research.py:940 | J is defined exactly where both K and D are, and there equals 3K - 2D |
| Indicators.Doubled | lazyman_stock_research.py:952 | the doubled histogram keeps NaN entries undefined and doubles every defined one |
| Indicators.GetIndicators | lazyman_stock_research.py:946-975 | every column has the bars' length; the histogram is doubled (so 2 x (MACD - signal) when the library's histogram is that spread); MAs, RSI, MACD and signal pass through; K, D, J come from the KDJ computation on the high, low and close columns |
| Colors.Movement | lazyman_stock_research.py:694-699 | green, red or grey exactly when the first value is above, below or equal to the reference |
| Colors.MovementSymmetry | lazyman_stock_research.py:694-699 | a value against itself is grey, and a is red against b exactly when b is green against a |
| Colors.LivePriceColor | lazyman_stock_research.py:692-700 | the movement of the last close against the previous session's last close: green/red/grey exactly when it is above/below/equal; both sessions are non-empty, as the callers check |
| Colors.Paint | lazyman_stock_research.py:980-982 | a masked assignment overwrites exactly the masked labels and leaves the rest |
| Colors.VolColor | lazyman_stock_research.py:978-983 | one label per bar, the movement of the close against the open; a table with no bars is an error |
| Colors.MacdHistColor | lazyman_stock_research.py:985-990 | one label per histogram entry: undefined entries stay green, defined ones get the movement of the value against 0; an empty table is an error |
| Colors.MarketIndexStyle | lazyman_stock_research.py:776-785 | red exactly for a leading '-', green exactly for a leading '+', grey otherwise, always 15px bold; an empty string is an error |
| MarketStatus.Upper | lazyman_stock_research.py:1639 | upper-casing keeps the length and maps each ASCII letter to its capital |
| MarketStatus.MarketStatusLine | lazyman_stock_research.py:1639-1642 | the line reads AT CLOSE exactly when the status has at least 8 characters whose upper-case forms spell "AT CLOSE"; otherwise AT OPEN |
| Sessions.ScanCurrent | lazyman_stock_research.py:668-674 | the current-side stop day is the first day with bars among 0..5, or day 6 when days 0..5 are all empty |
| Sessions.ExhaustedIff | lazyman_stock_research.py:668-674 | the counter passes 5 exactly when days 0..5 are all empty; otherwise the stop day has bars |
| Sessions.SearchCurrent | lazyman_stock_research.py:659-674 | probes days 0, 1, ... in order, at most 7 fetches, stops at the first day with bars; step > 5 exactly when days 0..5 were empty, and df is that stop day's result |
| Sessions.LivePriceDf | lazyman_stock_research.py:658-689 | the previous side always fetches the day before the current day first. If the current side was exhausted, that single result is returned. Otherwise the result is the first earlier day with bars, every day probed between is empty, and both sessions are non-empty. A ticker with no bars on days 0-7 gets two empty sessions |
| Sessions.PrevSearchCanRunForever | lazyman_stock_research.py:681-687 | a ticker with bars only today has no earlier day with bars, so the previous-side loop has nothing to stop on |
| Sessions.LivePriceDfCapped | lazyman_stock_research.py:676-689 | with the current side's budget on the previous side, the resolver stops for every fetch, after at most 7 fetches per side; it returns the first earlier day with bars within the budget, as the as-written resolver does |
| ChartBreaks.DateRange | lazyman_stock_research.py:1453 | the range lists every day from first to last once, in order, and is empty when first is after last |
| ChartBreaks.Missing | lazyman_stock_research.py:1459 | a day is kept exactly when it is in the range and not observed |
| ChartBreaks.MissingAscending | lazyman_stock_research.py:1459 | filtering an ascending range keeps it ascending |
| ChartBreaks.RangeBreaks | lazyman_stock_research.py:1453-1459 | an empty bar table is an error (no first row) |
| ChartBreaks.RangeBreaksExact | lazyman_stock_research.py:1453-1459 | a day is a break exactly when it lies between the first and last bar dates and no bar carries it; no bar date is a break; breaks are ascending |

## Left out

- Sessions.LivePriceDf: requires that an earlier day has bars whenever the current side found a session within its budget. Without such a day the source loops forever (see Findings).
- Oscillator.Rsv: a flat 9-bar window (high equal to low) gives an undefined RSV. numpy gives 0/0 = NaN there when the close equals that level. It gives plus or minus infinity otherwise, which only bars with a close outside their own range can produce. Infinities are not modelled.
- NaN inside the input price columns is not modelled: the high, low and close columns are taken as defined reals. The data provider is assumed to deliver finite prices.
- IEEE floating point is not modelled: prices are exact reals, and 1/3 and 2/3 are exact rationals.
- The internals of the foreign TA library (MACD, MA, RSI) are not modelled. Their outputs are inputs to `GetIndicators`, one entry per bar.
- Network I/O is not modelled: the yfinance quote and history calls, the index-page scraping and the ticker-list download. `ticker.history` is the `fetch` parameter. A fetch that raises is not modelled.
- The clock, time zones and `strftime` are not modelled: days are integers (days before today for the resolver, day numbers for the chart).
- MarketStatus.Upper: upper-cases ASCII letters only. Python's `str.upper` also maps non-ASCII letters, some to different lengths.
- Colors.MarketIndexStyle: returns the style as a colour, a size and a bold flag, not the CSS dictionary. The values are the same.
- The bars' volume column is not modelled: nothing in this core reads it.
- Chart figures, Dash layout, cards and callbacks are presentation only. The fundamentals table formatting depends on float formatting. Neither is modelled.

## Findings

| source | as written | input that shows it | evidently intended | confidence | as-written member | corrected member |
|---|---|---|---|---|---|---|
| lazyman_stock_research.py:681-687 | the previous-side loop steps back one day at a time, with no retry limit, while the fetched day is empty and the current side was not exhausted | a ticker with intraday bars today and on no earlier day (listed today): every earlier day is empty, so the loop never ends | the same retry budget as the current side, so that the resolver always returns | medium; not executed | Sessions.PrevSearchCanRunForever | Sessions.LivePriceDfCapped |
