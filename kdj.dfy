/** The KDJ stochastic oscillator: raw stochastic value over a 9-bar window,
    then two rounds of 1/3 : 2/3 smoothing seeded at 50 that hold their
    accumulator through undefined inputs. */
module Oscillator {
  import opened Prices

  /** Length of the trailing high/low window. */
  const Window: nat := 9
  /** Value the K and D accumulators hold before the first defined input. */
  const Seed: real := 50.0

  // ---------------------------------------------------------------------------
  // Windowed extremes (the rolling(9).min() / rolling(9).max() of the bar table)

  function MinOf(s: seq<real>): (r: real)
    requires |s| > 0
    ensures r in s && forall i :: 0 <= i < |s| ==> r <= s[i]
  {
    if |s| == 1 then s[0]
    else
      var m := MinOf(s[1..]);
      if s[0] <= m then s[0] else m
  }

  function MaxOf(s: seq<real>): (r: real)
    requires |s| > 0
    ensures r in s && forall i :: 0 <= i < |s| ==> s[i] <= r
  {
    if |s| == 1 then s[0]
    else
      var m := MaxOf(s[1..]);
      if s[0] >= m then s[0] else m
  }

  /** The 9 bars ending at position `i`. */
  function Trailing(xs: seq<real>, i: nat): (w: seq<real>)
    requires Window - 1 <= i < |xs|
    ensures |w| == Window && forall k :: 0 <= k < Window ==> w[k] == xs[i + 1 - Window + k]
  {
    xs[i + 1 - Window .. i + 1]
  }

  /** Raw stochastic value at position `i`: undefined before the window is
      full, and undefined when the window's high equals its low (0/0). */
  function RsvAt(high: seq<real>, low: seq<real>, close: seq<real>, i: nat): Option<real>
    requires |high| == |low| == |close| && i < |close|
  {
    if i < Window - 1 then None
    else
      var l9 := MinOf(Trailing(low, i));
      var h9 := MaxOf(Trailing(high, i));
      if h9 == l9 then None
      else Some(100.0 * ((close[i] - l9) / (h9 - l9)))
  }

  function Rsv(high: seq<real>, low: seq<real>, close: seq<real>): (r: seq<Option<real>>)
    requires |high| == |low| == |close|
    ensures |r| == |close|
    ensures forall i :: 0 <= i < |close| ==> r[i] == RsvAt(high, low, close, i)
  {
    seq(|close|, i requires 0 <= i < |close| => RsvAt(high, low, close, i))
  }

  lemma RsvUndefinedWhere(high: seq<real>, low: seq<real>, close: seq<real>, i: nat)
    requires |high| == |low| == |close| && i < |close|
    ensures Rsv(high, low, close)[i].None? <==>
              (i < Window - 1 || MaxOf(Trailing(high, i)) == MinOf(Trailing(low, i)))
  {
  }

  /** When the bar at `i` has its close between its low and its high, a
      defined RSV there lies in [0, 100]. */
  lemma RsvAtInRange(high: seq<real>, low: seq<real>, close: seq<real>, i: nat)
    requires |high| == |low| == |close| && i < |close|
    requires low[i] <= close[i] <= high[i]
    ensures var r := RsvAt(high, low, close, i); r.Some? ==> 0.0 <= r.value <= 100.0
  {
    if Window - 1 <= i {
      var l9 := MinOf(Trailing(low, i));
      var h9 := MaxOf(Trailing(high, i));
      assert Trailing(low, i)[Window - 1] == low[i];
      assert Trailing(high, i)[Window - 1] == high[i];
      if h9 != l9 {
        FractionInUnit(close[i] - l9, h9 - l9);
      }
    }
  }

  /** With low <= close <= high on every bar, each defined RSV lies in [0, 100]. */
  lemma RsvInRange(bars: seq<Bar>, i: nat)
    requires AllWellFormed(bars) && i < |bars|
    ensures var r := Rsv(Highs(bars), Lows(bars), Closes(bars))[i];
            r.Some? ==> 0.0 <= r.value <= 100.0
  {
    assert WellFormed(bars[i]);
    RsvAtInRange(Highs(bars), Lows(bars), Closes(bars), i);
  }

  lemma FractionInUnit(a: real, b: real)
    requires 0.0 <= a <= b && b > 0.0
    ensures 0.0 <= 100.0 * (a / b) <= 100.0
  {
    assert a / b <= 1.0 by {
      assert a / b * b == a;
    }
  }

  // ---------------------------------------------------------------------------
  // The skip-and-hold smoothing shared by K (over RSV) and D (over K)

  /** One smoothing update: a convex combination of the new input and the
      accumulator. */
  function Step(acc: real, x: real): real {
    1.0 / 3.0 * x + 2.0 / 3.0 * acc
  }

  /** The accumulator after scanning `xs`: it advances at defined inputs and
      holds at undefined ones. */
  function Carry(xs: seq<Option<real>>, seed: real): real {
    if xs == [] then seed
    else
      var acc := Carry(xs[..|xs| - 1], seed);
      match xs[|xs| - 1]
      case None => acc
      case Some(x) => Step(acc, x)
  }

  /** The smoothed series: undefined where the input is undefined, otherwise
      the accumulator just after that position. */
  function Smooth(xs: seq<Option<real>>, seed: real): (r: seq<Option<real>>)
    ensures |r| == |xs|
    ensures forall i :: 0 <= i < |xs| ==> (r[i].Some? <==> xs[i].Some?)
  {
    if xs == [] then []
    else
      Smooth(xs[..|xs| - 1], seed) + [if xs[|xs| - 1].None? then None else Some(Carry(xs, seed))]
  }

  /** The last defined entry of `ys` before position `n`, or `seed` if none. */
  function LastDefined(ys: seq<Option<real>>, n: nat, seed: real): real
    requires n <= |ys|
  {
    if n == 0 then seed
    else if ys[n - 1].Some? then ys[n - 1].value
    else LastDefined(ys, n - 1, seed)
  }

  /** J = 3K - 2D, undefined wherever either operand is. */
  function JLine(k: seq<Option<real>>, d: seq<Option<real>>): (j: seq<Option<real>>)
    requires |k| == |d|
    ensures |j| == |k|
    ensures forall i :: 0 <= i < |k| ==> (j[i].Some? <==> k[i].Some? && d[i].Some?)
    ensures forall i :: 0 <= i < |k| && j[i].Some? ==> j[i].value == 3.0 * k[i].value - 2.0 * d[i].value
  {
    seq(|k|, i requires 0 <= i < |k| =>
      if k[i].Some? && d[i].Some? then Some(3.0 * k[i].value - 2.0 * d[i].value) else None)
  }

  /** One smoothing scan as the source runs it: the accumulator starts at
      the seed, advances at each defined input and is appended; an undefined
      input appends an undefined output and leaves the accumulator alone. */
  method SmoothScan(xs: seq<Option<real>>) returns (out: seq<Option<real>>)
    ensures out == Smooth(xs, Seed)
  {
    var acc := Seed;
    out := [];
    for t := 0 to |xs|
      invariant acc == Carry(xs[..t], Seed)
      invariant out == Smooth(xs[..t], Seed)
    {
      assert xs[..t + 1][..t] == xs[..t];
      if xs[t].Some? {
        acc := 1.0 / 3.0 * xs[t].value + 2.0 / 3.0 * acc;
        out := out + [Some(acc)];
      } else {
        out := out + [None];
      }
    }
    assert xs[..|xs|] == xs;
  }

  /** The KDJ computation: K is the scan over RSV, D the scan over K, and
      J = 3K - 2D. */
  method Kdj(high: seq<real>, low: seq<real>, close: seq<real>)
    returns (k: seq<Option<real>>, d: seq<Option<real>>, j: seq<Option<real>>)
    requires |high| == |low| == |close|
    ensures k == Smooth(Rsv(high, low, close), Seed)
    ensures d == Smooth(k, Seed)
    ensures j == JLine(k, d)
    ensures |k| == |d| == |j| == |close|
    ensures forall i :: 0 <= i < |close| && i < Window - 1 ==> k[i].None? && d[i].None? && j[i].None?
    ensures forall i :: 0 <= i < |close| ==>
              && (k[i].Some? <==> Rsv(high, low, close)[i].Some?)
              && (d[i].Some? <==> k[i].Some?)
              && (j[i].Some? <==> k[i].Some?)
  {
    var rsv := Rsv(high, low, close);
    k := SmoothScan(rsv);
    d := SmoothScan(k);
    j := JLine(k, d);
  }

  // ---------------------------------------------------------------------------
  // What the smoothing means

  lemma {:induction false} SmoothPrefix(xs: seq<Option<real>>, seed: real, n: nat)
    requires n <= |xs|
    ensures Smooth(xs[..n], seed) == Smooth(xs, seed)[..n]
    decreases |xs| - n
  {
    if n < |xs| {
      var ys := xs[..|xs| - 1];
      assert xs[..n] == ys[..n];
      SmoothPrefix(ys, seed, n);
    } else {
      assert xs[..n] == xs;
    }
  }

  lemma {:induction false} LastDefinedPrefix(ys: seq<Option<real>>, zs: seq<Option<real>>, n: nat, seed: real)
    requires n <= |ys| && n <= |zs| && ys[..n] == zs[..n]
    ensures LastDefined(ys, n, seed) == LastDefined(zs, n, seed)
  {
    if n > 0 {
      assert ys[n - 1] == ys[..n][n - 1] == zs[..n][n - 1] == zs[n - 1];
      assert ys[..n - 1] == ys[..n][..n - 1];
      assert zs[..n - 1] == zs[..n][..n - 1];
      LastDefinedPrefix(ys, zs, n - 1, seed);
    }
  }

  /** The accumulator after a prefix is the last defined output so far, or
      the seed when nothing has been defined yet. */
  lemma {:induction false} CarryIsLastDefined(xs: seq<Option<real>>, seed: real)
    ensures Carry(xs, seed) == LastDefined(Smooth(xs, seed), |xs|, seed)
  {
    if xs != [] {
      var n := |xs|;
      var ys := xs[..n - 1];
      CarryIsLastDefined(ys, seed);
      var s := Smooth(xs, seed);
      assert s[..n - 1] == Smooth(ys, seed);
      if xs[n - 1].None? {
        LastDefinedPrefix(s, Smooth(ys, seed), n - 1, seed);
      }
    }
  }

  /** The smoothing recurrence, position by position: undefined input gives
      undefined output; a defined input x gives x/3 + 2/3 of the last defined
      output before it (or of the seed), so a gap never resets the seed. */
  lemma SmoothAt(xs: seq<Option<real>>, seed: real, i: nat)
    requires i < |xs|
    ensures xs[i].None? ==> Smooth(xs, seed)[i].None?
    ensures xs[i].Some? ==>
              Smooth(xs, seed)[i] == Some(Step(LastDefined(Smooth(xs, seed), i, seed), xs[i].value))
  {
    var s := Smooth(xs, seed);
    SmoothPrefix(xs, seed, i + 1);
    var p := xs[..i + 1];
    assert p[..i] == xs[..i];
    assert Smooth(p, seed)[i] == s[i];
    if xs[i].Some? {
      CarryIsLastDefined(xs[..i], seed);
      SmoothPrefix(xs, seed, i);
      LastDefinedPrefix(Smooth(xs[..i], seed), s, i, seed);
    }
  }

  /** The input with its undefined entries deleted. */
  function Compact(xs: seq<Option<real>>): (r: seq<Option<real>>)
    ensures forall i :: 0 <= i < |r| ==> r[i].Some?
  {
    if xs == [] then []
    else Compact(xs[..|xs| - 1]) + (if xs[|xs| - 1].None? then [] else [xs[|xs| - 1]])
  }

  lemma {:induction false} CarryIgnoresGaps(xs: seq<Option<real>>, seed: real)
    ensures Carry(xs, seed) == Carry(Compact(xs), seed)
  {
    if xs != [] {
      var ys := xs[..|xs| - 1];
      CarryIgnoresGaps(ys, seed);
      if xs[|xs| - 1].Some? {
        var c := Compact(xs);
        assert c == Compact(ys) + [xs[|xs| - 1]];
        assert c[..|c| - 1] == Compact(ys);
        assert c[|c| - 1] == xs[|xs| - 1];
        assert Carry(c, seed) == Step(Carry(Compact(ys), seed), xs[|xs| - 1].value);
      } else {
        assert Compact(xs) == Compact(ys);
      }
    }
  }

  /** Gap invariance: the defined outputs are exactly the outputs the
      smoothing gives on the input with its gaps deleted. */
  lemma {:induction false} SmoothIgnoresGaps(xs: seq<Option<real>>, seed: real)
    ensures Compact(Smooth(xs, seed)) == Smooth(Compact(xs), seed)
  {
    if xs != [] {
      var n := |xs|;
      var ys := xs[..n - 1];
      SmoothIgnoresGaps(ys, seed);
      var s := Smooth(xs, seed);
      assert s[..n - 1] == Smooth(ys, seed);
      if xs[n - 1].Some? {
        var c := Compact(xs);
        assert c == Compact(ys) + [xs[n - 1]];
        assert c[..|c| - 1] == Compact(ys);
        CarryIgnoresGaps(xs, seed);
        assert s == Smooth(ys, seed) + [Some(Carry(xs, seed))];
        assert Compact(s) == Compact(Smooth(ys, seed)) + [Some(Carry(xs, seed))] by {
          assert s[..n - 1] == Smooth(ys, seed);
        }
      } else {
        assert Compact(xs) == Compact(ys);
        assert Compact(s) == Compact(Smooth(ys, seed));
      }
    }
  }

  // ---------------------------------------------------------------------------
  // Ranges

  predicate Percent(v: real) { 0.0 <= v <= 100.0 }

  predicate DefinedInRange(xs: seq<Option<real>>) {
    forall i :: 0 <= i < |xs| && xs[i].Some? ==> Percent(xs[i].value)
  }

  lemma {:induction false} SmoothInRange(xs: seq<Option<real>>, seed: real)
    requires Percent(seed) && DefinedInRange(xs)
    ensures Percent(Carry(xs, seed))
    ensures DefinedInRange(Smooth(xs, seed))
  {
    if xs != [] {
      var ys := xs[..|xs| - 1];
      assert DefinedInRange(ys) by {
        forall i | 0 <= i < |ys| && ys[i].Some? ensures Percent(ys[i].value) {
          assert ys[i] == xs[i];
        }
      }
      SmoothInRange(ys, seed);
    }
  }

  /** On well-formed bars every defined K and D lies in [0, 100], and J is
      defined exactly where K is. */
  lemma KdjInRange(bars: seq<Bar>)
    requires AllWellFormed(bars)
    ensures var k := Smooth(Rsv(Highs(bars), Lows(bars), Closes(bars)), Seed);
            var d := Smooth(k, Seed);
            && DefinedInRange(k) && DefinedInRange(d)
            && forall i :: 0 <= i < |bars| ==> (JLine(k, d)[i].Some? <==> k[i].Some?)
  {
    var rsv := Rsv(Highs(bars), Lows(bars), Closes(bars));
    forall i | 0 <= i < |rsv| && rsv[i].Some? ensures Percent(rsv[i].value) {
      RsvInRange(bars, i);
    }
    SmoothInRange(rsv, Seed);
    SmoothInRange(Smooth(rsv, Seed), Seed);
  }
}
