/** The trading-session resolver behind the live-price chart: find the most
    recent day with intraday bars and the session before it by stepping
    back one calendar day at a time. Days are counted backwards from today
    (0 is today, 1 yesterday, ...); the one-day intraday fetch is the
    parameter `fetch`, which yields no bars for a closed market, missing
    data or an invalid ticker. */
module Sessions {
  import opened Prices

  /** The current side gives up once its retry counter exceeds this. */
  const Budget: nat := 5

  type Fetch = nat -> seq<Bar>

  /** The days lo, lo+1, ..., hi in probing order. */
  function Days(lo: nat, hi: nat): (r: seq<nat>)
    requires lo <= hi + 1
    ensures |r| == hi + 1 - lo && forall i :: 0 <= i < |r| ==> r[i] == lo + i
  {
    seq(hi + 1 - lo, i requires 0 <= i < hi + 1 - lo => lo + i)
  }

  /** Where the current-side search stops when it has reached day `back`:
      the first day with bars, or day Budget + 1 once the budget is spent,
      whatever that day returned. */
  function ScanCurrent(fetch: Fetch, back: nat): (r: nat)
    requires back <= Budget + 1
    ensures back <= r <= Budget + 1
    ensures forall d :: back <= d < r ==> fetch(d) == []
    ensures r <= Budget ==> fetch(r) != []
    decreases Budget + 1 - back
  {
    if back == Budget + 1 || fetch(back) != [] then back else ScanCurrent(fetch, back + 1)
  }

  function CurrentBack(fetch: Fetch): nat {
    ScanCurrent(fetch, 0)
  }

  /** Days 0 .. Budget all came back empty: the ticker is treated as invalid. */
  predicate Exhausted(fetch: Fetch) {
    forall d :: 0 <= d <= Budget ==> fetch(d) == []
  }

  /** The budget runs out exactly when days 0 .. Budget are all empty; the
      search then rests on day Budget + 1 whether or not that day has bars. */
  lemma ExhaustedIff(fetch: Fetch)
    ensures CurrentBack(fetch) == Budget + 1 <==> Exhausted(fetch)
    ensures CurrentBack(fetch) <= Budget ==> fetch(CurrentBack(fetch)) != []
  {
  }

  /** The current-side search, as a loop over `step`: day `step` is fetched
      after `step` retries. */
  method SearchCurrent(fetch: Fetch) returns (df: seq<Bar>, step: nat, ghost probes: seq<nat>)
    ensures step == CurrentBack(fetch) && df == fetch(step)
    ensures probes == Days(0, step) && |probes| <= Budget + 2
    ensures step > Budget <==> Exhausted(fetch)
  {
    step := 0;
    df := fetch(0);
    probes := [0];
    while df == []
      invariant step <= Budget
      invariant df == fetch(step)
      invariant forall d :: 0 <= d < step ==> fetch(d) == []
      invariant probes == Days(0, step)
      decreases Budget + 1 - step
    {
      df := fetch(step + 1);
      probes := probes + [step + 1];
      step := step + 1;
      if step > Budget {
        break;
      }
    }
    ExhaustedIff(fetch);
  }

  /** The as-written previous-side loop stops only if an earlier day has
      bars (or the current side exhausted its budget). */
  ghost predicate PrevSearchEnds(fetch: Fetch) {
    CurrentBack(fetch) <= Budget ==> exists p: nat :: p > CurrentBack(fetch) && fetch(p) != []
  }

  /** The resolver as written: `df` is the current session, `prevDf` the
      previous one. The previous side always fetches the day before the
      current day once; after an exhausted current side it keeps that
      single result, otherwise it steps back with no cap until a day has
      bars. */
  method LivePriceDf(fetch: Fetch)
    returns (df: seq<Bar>, prevDf: seq<Bar>,
             ghost curBack: nat, ghost prevBack: nat, ghost probes: seq<nat>, ghost prevProbes: seq<nat>)
    requires PrevSearchEnds(fetch)
    ensures curBack == CurrentBack(fetch) && df == fetch(CurrentBack(fetch))
    ensures Exhausted(fetch) ==> prevDf == fetch(CurrentBack(fetch) + 1)
    ensures (forall d :: 0 <= d <= Budget + 2 ==> fetch(d) == []) ==> df == [] && prevDf == []
    ensures probes == Days(0, curBack) && |probes| <= Budget + 2
    ensures prevBack > curBack && prevDf == fetch(prevBack)
    ensures prevProbes == Days(curBack + 1, prevBack)
    ensures Exhausted(fetch) ==> prevBack == curBack + 1
    ensures !Exhausted(fetch) ==> df != [] && prevDf != []
    ensures !Exhausted(fetch) ==> forall d :: curBack < d < prevBack ==> fetch(d) == []
  {
    var step;
    df, step, probes := SearchCurrent(fetch);
    curBack := step;
    var back := step + 1;
    prevDf := fetch(back);
    prevProbes := [back];
    ghost var bound: nat := back;
    if step <= Budget {
      bound :| bound > step && fetch(bound) != [];
    }
    while prevDf == []
      invariant back > step
      invariant prevDf == fetch(back)
      invariant prevProbes == Days(step + 1, back)
      invariant step > Budget ==> back == step + 1
      invariant step <= Budget ==> back <= bound && forall d :: step < d < back ==> fetch(d) == []
      decreases if step > Budget then 0 else bound - back
    {
      if step > Budget {
        break;
      } else {
        back := back + 1;
        prevDf := fetch(back);
        prevProbes := prevProbes + [back];
      }
    }
    prevBack := back;
  }

  /** A ticker with bars today and on no earlier day (listed today, say):
      the as-written previous-side loop never finds a day with bars, so it
      never stops. */
  lemma PrevSearchCanRunForever()
    ensures var fetch: Fetch := d => if d == 0 then [Bar(0, 1.0, 1.0, 1.0, 1.0)] else [];
            CurrentBack(fetch) == 0 && !PrevSearchEnds(fetch)
  {
    var fetch: Fetch := d => if d == 0 then [Bar(0, 1.0, 1.0, 1.0, 1.0)] else [];
    assert fetch(0) != [];
    assert CurrentBack(fetch) == 0;
  }

  /** The resolver with the previous side given the same retry budget as the
      current side. It needs no precondition: it stops for every `fetch`,
      after at most Budget + 2 fetches per side, and when an earlier day
      with bars lies within the budget it returns the same session as the
      as-written resolver. */
  method LivePriceDfCapped(fetch: Fetch)
    returns (df: seq<Bar>, prevDf: seq<Bar>,
             ghost curBack: nat, ghost prevBack: nat, ghost probes: seq<nat>, ghost prevProbes: seq<nat>)
    ensures curBack == CurrentBack(fetch) && df == fetch(CurrentBack(fetch))
    ensures !Exhausted(fetch) ==> df != []
    ensures Exhausted(fetch) ==> prevDf == fetch(CurrentBack(fetch) + 1)
    ensures probes == Days(0, curBack) && |probes| <= Budget + 2
    ensures curBack < prevBack <= curBack + Budget + 2 && prevDf == fetch(prevBack)
    ensures prevProbes == Days(curBack + 1, prevBack) && |prevProbes| <= Budget + 2
    ensures Exhausted(fetch) ==> prevBack == curBack + 1
    ensures !Exhausted(fetch) ==> forall d :: curBack < d < prevBack ==> fetch(d) == []
    ensures !Exhausted(fetch) && prevDf == [] ==> prevBack == curBack + Budget + 2
  {
    var step;
    df, step, probes := SearchCurrent(fetch);
    curBack := step;
    var back := step + 1;
    prevDf := fetch(back);
    prevProbes := [back];
    var prevStep := 0;
    while prevDf == []
      invariant prevStep <= Budget && back == step + 1 + prevStep
      invariant prevDf == fetch(back)
      invariant prevProbes == Days(step + 1, back)
      invariant step > Budget ==> back == step + 1
      invariant forall d :: step < d < back ==> fetch(d) == []
      decreases Budget + 1 - prevStep
    {
      if step > Budget {
        break;
      }
      back := back + 1;
      prevDf := fetch(back);
      prevProbes := prevProbes + [back];
      prevStep := prevStep + 1;
      if prevStep > Budget {
        break;
      }
    }
    prevBack := back;
  }
}
