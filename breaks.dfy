/** The range breaks of the daily chart: calendar days between the first
    and the last bar on which there is no bar (weekends, holidays), so the
    chart's date axis can skip them. Days are day numbers. */
module ChartBreaks {
  import opened Prices

  /** Every day from `first` to `last`, both included; none when
      `first` is after `last`. */
  function DateRange(first: int, last: int): (r: seq<int>)
    ensures |r| == if first > last then 0 else last - first + 1
    ensures forall i :: 0 <= i < |r| ==> r[i] == first + i
    decreases last - first
  {
    if first > last then [] else [first] + DateRange(first + 1, last)
  }

  /** The entries of `days` that are not observed, in their order. */
  function Missing(days: seq<int>, observed: seq<int>): (r: seq<int>)
    ensures |r| <= |days|
    ensures forall x :: x in r <==> x in days && x !in observed
  {
    if days == [] then []
    else (if days[0] in observed then [] else [days[0]]) + Missing(days[1..], observed)
  }

  predicate Ascending(s: seq<int>) {
    forall i, j :: 0 <= i < j < |s| ==> s[i] < s[j]
  }

  lemma {:induction false} MissingAscending(days: seq<int>, observed: seq<int>)
    requires Ascending(days)
    ensures Ascending(Missing(days, observed))
  {
    if days != [] {
      var rest := days[1..];
      assert Ascending(rest) by {
        forall i, j | 0 <= i < j < |rest| ensures rest[i] < rest[j] {
          assert rest[i] == days[i + 1] && rest[j] == days[j + 1];
        }
      }
      MissingAscending(rest, observed);
      var tail := Missing(rest, observed);
      forall x | x in tail ensures days[0] < x {
        var k :| 0 <= k < |rest| && rest[k] == x;
        assert rest[k] == days[k + 1];
      }
      var r := Missing(days, observed);
      if days[0] in observed {
        assert r == tail;
      } else {
        assert r == [days[0]] + tail;
        forall i, j | 0 <= i < j < |r| ensures r[i] < r[j] {
          if i == 0 {
            assert r[j] == tail[j - 1] && r[j] in tail;
          } else {
            assert r[i] == tail[i - 1] && r[j] == tail[j - 1];
          }
        }
      }
    }
  }

  /** The break days of a chart over bars dated `dates` (first and last bar
      bound the range). A table with no bars has no first row: `None`
      stands for that error. */
  function RangeBreaks(dates: seq<int>): (r: Option<seq<int>>)
    ensures r.None? <==> dates == []
  {
    if dates == [] then None
    else Some(Missing(DateRange(dates[0], dates[|dates| - 1]), dates))
  }

  /** A day is a break exactly when it lies between the first and the last
      bar and no bar carries it; in particular no bar date is a break. The
      breaks come out in ascending order. */
  lemma RangeBreaksExact(dates: seq<int>)
    requires dates != []
    ensures forall d :: d in RangeBreaks(dates).value <==>
              dates[0] <= d <= dates[|dates| - 1] && d !in dates
    ensures forall i :: 0 <= i < |dates| ==> dates[i] !in RangeBreaks(dates).value
    ensures Ascending(RangeBreaks(dates).value)
  {
    var all := DateRange(dates[0], dates[|dates| - 1]);
    forall d ensures d in all <==> dates[0] <= d <= dates[|dates| - 1] {
      if dates[0] <= d <= dates[|dates| - 1] {
        assert all[d - dates[0]] == d;
      }
    }
    MissingAscending(all, dates);
  }
}
