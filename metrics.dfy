/** The dashboard over the sorted ledger: the date/type filter with its
    defaults, the KPI cards and the cumulative-PnL series of the chart.
    Everything here is a pure function of the rows and the filter inputs;
    "now minus one month" and "now minus one year" are parameters. */
module Metrics {
  import opened Trades
  import Ledgers

  // ---------------------------------------------------------------------
  // Boolean masks: `df[mask]`

  /** `a` is `b` with some rows left out and the rest in their order. */
  predicate IsSubsequence(a: seq<Trade>, b: seq<Trade>)
    decreases |b|
  {
    a == [] || (b != [] && ((a[0] == b[0] && IsSubsequence(a[1..], b[1..])) || IsSubsequence(a, b[1..])))
  }

  /** The rows on which the mask holds, in their order. */
  function Select(s: seq<Trade>, keep: Trade -> bool): (r: seq<Trade>)
    ensures |r| <= |s|
    ensures IsSubsequence(r, s)
  {
    if s == [] then []
    else if keep(s[0]) then [s[0]] + Select(s[1..], keep)
    else Select(s[1..], keep)
  }

  /** The selection holds exactly the rows the mask accepts: each row value
      occurs in it as often as in the input when the mask holds of it, and
      not at all otherwise. */
  lemma {:induction false} SelectExact(s: seq<Trade>, keep: Trade -> bool)
    ensures forall x :: x in Select(s, keep) <==> x in s && keep(x)
    ensures forall x :: multiset(Select(s, keep))[x] == if keep(x) then multiset(s)[x] else 0
  {
    if s != [] {
      SelectExact(s[1..], keep);
      assert s == [s[0]] + s[1..];
    }
  }

  lemma {:induction false} SelectAppend(s: seq<Trade>, x: Trade, keep: Trade -> bool)
    ensures Select(s + [x], keep) == Select(s, keep) + (if keep(x) then [x] else [])
  {
    if s != [] {
      assert (s + [x])[1..] == s[1..] + [x];
      SelectAppend(s[1..], x, keep);
    }
  }

  /** A mask that implies another selects a subsequence of what the other selects. */
  lemma {:induction false} SelectWeaker(s: seq<Trade>, p: Trade -> bool, q: Trade -> bool)
    requires forall x :: p(x) ==> q(x)
    ensures IsSubsequence(Select(s, p), Select(s, q))
  {
    if s != [] {
      SelectWeaker(s[1..], p, q);
      if !p(s[0]) && q(s[0]) {
        var a := Select(s[1..], p);
        assert Select(s, q)[1..] == Select(s[1..], q);
        assert a == [] || IsSubsequence(a, Select(s, q)[1..]);
      }
    }
  }

  lemma {:induction false} SubsequenceMembers(a: seq<Trade>, b: seq<Trade>)
    requires IsSubsequence(a, b)
    ensures forall x :: x in a ==> x in b
    decreases |b|
  {
    if a != [] {
      if a[0] == b[0] && IsSubsequence(a[1..], b[1..]) {
        SubsequenceMembers(a[1..], b[1..]);
        assert a == [a[0]] + a[1..];
      } else {
        SubsequenceMembers(a, b[1..]);
      }
    }
  }

  /** Leaving rows out of a timestamp-ordered table keeps it ordered. */
  lemma {:induction false} SubsequenceSorted(a: seq<Trade>, b: seq<Trade>)
    requires IsSubsequence(a, b) && SortedByTime(b)
    ensures SortedByTime(a)
    decreases |b|
  {
    if a != [] {
      if a[0] == b[0] && IsSubsequence(a[1..], b[1..]) {
        SubsequenceSorted(a[1..], b[1..]);
        SubsequenceMembers(a[1..], b[1..]);
        forall j | 0 < j < |a| ensures a[0].timestamp <= a[j].timestamp {
          assert a[j] in a[1..];
          var k :| 0 <= k < |b[1..]| && b[1..][k] == a[j];
          assert b[k + 1] == a[j];
        }
      } else {
        SubsequenceSorted(a, b[1..]);
      }
    }
  }

  // ---------------------------------------------------------------------
  // The filter (app.py:54-58)

  /** The sidebar filter: start date, end date and selected trade types. */
  datatype FilterSpec = FilterSpec(startDate: Day, endDate: Day, types: set<string>)

  /** The filter mask: the timestamp lies between midnight of the start
      date and midnight of the end date, both included, and the type is
      selected. */
  predicate InWindow(spec: FilterSpec, t: Trade) {
    Midnight(spec.startDate) <= t.timestamp <= Midnight(spec.endDate) && t.tradeType in spec.types
  }

  /** `filtered_df`: exactly the rows inside the window, in ledger order. */
  function Filter(rows: seq<Trade>, spec: FilterSpec): (r: seq<Trade>)
    ensures IsSubsequence(r, rows)
    ensures forall t :: t in r ==> InWindow(spec, t)
    ensures forall t :: t in rows && InWindow(spec, t) ==> t in r
    ensures forall t :: multiset(r)[t] == if InWindow(spec, t) then multiset(rows)[t] else 0
  {
    SelectExact(rows, t => InWindow(spec, t));
    Select(rows, t => InWindow(spec, t))
  }

  /** Filtering a sorted ledger gives a sorted subset. */
  lemma FilterSorted(rows: seq<Trade>, spec: FilterSpec)
    requires SortedByTime(rows)
    ensures SortedByTime(Filter(rows, spec))
  {
    SubsequenceSorted(Filter(rows, spec), rows);
  }

  /** The end bound is midnight of the end date, so a trade later on that
      same date is not shown. */
  lemma EndDateAfterMidnightExcluded(spec: FilterSpec, t: Trade, rows: seq<Trade>)
    requires DayOf(t.timestamp) == spec.endDate && TimeOfDayOf(t.timestamp) > 0
    ensures t !in Filter(rows, spec)
  {
  }

  /** The earliest timestamp (`df['Date'].min()`). */
  function MinTimestamp(s: seq<Trade>): (m: int)
    requires s != []
    ensures forall t :: t in s ==> m <= t.timestamp
    ensures exists t :: t in s && t.timestamp == m
  {
    if |s| == 1 then s[0].timestamp
    else
      var m' := MinTimestamp(s[1..]);
      assert forall t :: t in s ==> t == s[0] || t in s[1..];
      if s[0].timestamp <= m' then s[0].timestamp else m'
  }

  /** The latest timestamp (`df['Date'].max()`). */
  function MaxTimestamp(s: seq<Trade>): (m: int)
    requires s != []
    ensures forall t :: t in s ==> t.timestamp <= m
    ensures exists t :: t in s && t.timestamp == m
  {
    if |s| == 1 then s[0].timestamp
    else
      var m' := MaxTimestamp(s[1..]);
      assert forall t :: t in s ==> t == s[0] || t in s[1..];
      if s[0].timestamp >= m' then s[0].timestamp else m'
  }

  /** The trade types present (`df['Trade Type'].unique()`). */
  function TypesPresent(s: seq<Trade>): (types: set<string>)
    ensures forall t :: t in s ==> t.tradeType in types
    ensures forall ty :: ty in types ==> exists t :: t in s && t.tradeType == ty
  {
    set t | t in s :: t.tradeType
  }

  /** The filter before the user touches it: the date of the earliest row,
      the date of the latest row, and every type present. */
  function DefaultFilter(rows: seq<Trade>): (spec: FilterSpec)
    requires rows != []
    ensures forall t :: t in rows ==> Midnight(spec.startDate) <= t.timestamp && t.tradeType in spec.types
    ensures forall t :: t in rows ==> DayOf(t.timestamp) <= spec.endDate
    ensures exists t :: t in rows && DayOf(t.timestamp) == spec.startDate
    ensures exists t :: t in rows && DayOf(t.timestamp) == spec.endDate
    ensures forall ty :: ty in spec.types ==> exists t :: t in rows && t.tradeType == ty
  {
    FilterSpec(DayOf(MinTimestamp(rows)), DayOf(MaxTimestamp(rows)), TypesPresent(rows))
  }

  /** With the default filter a row is shown exactly when it is no later
      than midnight of the latest row's date. */
  lemma DefaultFilterKeeps(rows: seq<Trade>)
    requires rows != []
    ensures forall t :: t in Filter(rows, DefaultFilter(rows))
                        <==> t in rows && t.timestamp <= Midnight(DayOf(MaxTimestamp(rows)))
  {
  }

  /** So when the latest row is not at midnight, the default filter hides
      it (and every row at the same instant). */
  lemma DefaultFilterHidesLatest(rows: seq<Trade>)
    requires rows != []
    requires TimeOfDayOf(MaxTimestamp(rows)) > 0
    ensures forall t :: t in rows && t.timestamp == MaxTimestamp(rows)
                        ==> t !in Filter(rows, DefaultFilter(rows))
  {
  }

  // ---------------------------------------------------------------------
  // KPIs over the filtered rows (app.py:62-69)

  /** `['PnL'].sum()`. */
  function TotalPnl(s: seq<Trade>): (total: int)
  {
    if s == [] then 0 else s[0].pnl + TotalPnl(s[1..])
  }

  lemma {:induction false} TotalPnlAppend(a: seq<Trade>, b: seq<Trade>)
    ensures TotalPnl(a + b) == TotalPnl(a) + TotalPnl(b)
  {
    if a == [] {
      assert a + b == b;
    } else {
      assert (a + b)[1..] == a[1..] + b;
      TotalPnlAppend(a[1..], b);
    }
  }

  /** The mask `df['Date'] >= threshold`. */
  function AtOrAfter(threshold: int): Trade -> bool {
    (t: Trade) => t.timestamp >= threshold
  }

  /** PnL of the rows at or after a threshold ("PnL This Month" with the
      threshold one month back, "PnL This Year" with one year back). */
  function PnlSince(s: seq<Trade>, threshold: int): (total: int)
  {
    TotalPnl(Select(s, AtOrAfter(threshold)))
  }

  /** A month back is never earlier than a year back, so the rows summed
      for the month are among those summed for the year. */
  lemma MonthWithinYear(s: seq<Trade>, monthStart: int, yearStart: int)
    requires monthStart >= yearStart
    ensures IsSubsequence(Select(s, AtOrAfter(monthStart)), Select(s, AtOrAfter(yearStart)))
  {
    SelectWeaker(s, AtOrAfter(monthStart), AtOrAfter(yearStart));
  }

  /** The number of leading rows before the threshold. */
  function RowsBefore(s: seq<Trade>, threshold: int): (k: nat)
    ensures k <= |s|
    ensures forall i :: 0 <= i < k ==> s[i].timestamp < threshold
    ensures k < |s| ==> s[k].timestamp >= threshold
  {
    if s == [] || s[0].timestamp >= threshold then 0 else 1 + RowsBefore(s[1..], threshold)
  }

  /** On sorted rows the rows at or after a threshold are the suffix after
      the leading rows before it. */
  lemma {:induction false} SinceIsSuffix(s: seq<Trade>, threshold: int)
    requires SortedByTime(s)
    ensures Select(s, AtOrAfter(threshold)) == s[RowsBefore(s, threshold)..]
  {
    if s != [] {
      if s[0].timestamp >= threshold {
        AllKept(s, AtOrAfter(threshold));
      } else {
        SinceIsSuffix(s[1..], threshold);
        assert s[1..][RowsBefore(s, threshold) - 1..] == s[RowsBefore(s, threshold)..];
      }
    }
  }

  /** So on sorted rows the period PnL is the total PnL minus that of the
      rows before the threshold. */
  lemma PnlSinceFromTotal(s: seq<Trade>, threshold: int)
    requires SortedByTime(s)
    ensures PnlSince(s, threshold) == TotalPnl(s) - TotalPnl(s[..RowsBefore(s, threshold)])
  {
    var k := RowsBefore(s, threshold);
    SinceIsSuffix(s, threshold);
    assert s == s[..k] + s[k..];
    TotalPnlAppend(s[..k], s[k..]);
  }

  lemma {:induction false} AllKept(s: seq<Trade>, keep: Trade -> bool)
    requires forall i :: 0 <= i < |s| ==> keep(s[i])
    ensures Select(s, keep) == s
  {
    if s != [] {
      AllKept(s[1..], keep);
    }
  }

  /** A winning trade: PnL strictly above zero. */
  predicate IsWin(t: Trade) {
    t.pnl > 0
  }

  /** The win rate in percent: 0 when there are no trades, otherwise the
      share of trades with positive PnL, so that the rate times the number
      of trades is 100 times the number of wins; a zero-PnL trade is not a
      win. */
  function WinRate(s: seq<Trade>): (rate: real)
    ensures 0.0 <= rate <= 100.0
    ensures s == [] ==> rate == 0.0
    ensures rate * |s| as real == 100.0 * |Select(s, IsWin)| as real
  {
    var wins := |Select(s, IsWin)|;
    if |s| > 0 then
      var w, n := wins as real, |s| as real;
      PercentOf(w, n);
      (w / n) * 100.0
    else
      assert wins == 0;
      0.0
  }

  lemma PercentOf(part: real, whole: real)
    requires 0.0 <= part <= whole && whole > 0.0
    ensures 0.0 <= (part / whole) * 100.0 <= 100.0
    ensures (part / whole) * 100.0 * whole == 100.0 * part
  {
    var q := part / whole;
    assert q * whole == part;
    assert q <= 1.0;
  }

  // ---------------------------------------------------------------------
  // The chart series (app.py:83)

  /** `['PnL'].cumsum()`: running PnL totals over the filtered rows: the
      first is the first row's PnL and each later one adds that row's PnL to
      the one before. */
  function CumulativePnl(s: seq<Trade>): (c: seq<int>)
    ensures |c| == |s|
    ensures s != [] ==> c[0] == s[0].pnl
    ensures forall i :: 0 < i < |s| ==> c[i] == c[i - 1] + s[i].pnl
  {
    if s == [] then []
    else
      var init := s[..|s| - 1];
      var c := CumulativePnl(init);
      var r := c + [(if c == [] then 0 else c[|c| - 1]) + s[|s| - 1].pnl];
      forall i | 0 < i < |s| ensures r[i] == r[i - 1] + s[i].pnl {
        if i < |init| {
          assert r[i] == c[i] && r[i - 1] == c[i - 1] && s[i] == init[i];
        }
      }
      r
  }

  /** Each running total is the PnL sum of the rows up to and including it:
      the series starts from zero at the first filtered row. */
  lemma {:induction false} CumulativeIsPrefixSum(s: seq<Trade>)
    ensures forall i :: 0 <= i < |s| ==> CumulativePnl(s)[i] == TotalPnl(s[..i + 1])
  {
    if s != [] {
      var init := s[..|s| - 1];
      CumulativeIsPrefixSum(init);
      var c := CumulativePnl(s);
      forall i | 0 <= i < |s| ensures c[i] == TotalPnl(s[..i + 1]) {
        if i < |init| {
          assert s[..i + 1] == init[..i + 1];
          assert c[..|init|] == CumulativePnl(init);
        } else if i == 0 {
          assert s[..1] == [s[0]];
        } else {
          assert s[..i + 1] == s[..i] + [s[i]];
          assert s[..i] == init[..i];
          TotalPnlAppend(s[..i], [s[i]]);
          assert c[..|init|] == CumulativePnl(init);
        }
      }
    }
  }

  /** The last running total is the PnL of the whole filtered set. */
  lemma CumulativeEndsAtTotal(s: seq<Trade>)
    requires s != []
    ensures CumulativePnl(s)[|s| - 1] == TotalPnl(s)
  {
    CumulativeIsPrefixSum(s);
    assert s[..|s|] == s;
  }

  // ---------------------------------------------------------------------
  // The page (app.py:48, 60-96)

  /** One point of the line chart: the row's timestamp and the running PnL. */
  datatype Point = Point(timestamp: int, cumulativePnl: int)

  /** The five KPI cards and the chart series. */
  datatype Report = Report(balance: int, monthlyPnl: int, yearlyPnl: int, winRate: real,
                           totalTrades: nat, series: seq<Point>)

  /** The KPIs of a filtered set; `None` when it is empty, since the page
      then shows a warning and computes nothing. */
  function Summarize(sub: seq<Trade>, monthStart: int, yearStart: int): (r: Option<Report>)
    ensures r.None? <==> sub == []
    ensures r.Some? ==> r.value.balance == sub[|sub| - 1].balance
    ensures r.Some? ==> r.value.totalTrades == |sub| && 0.0 <= r.value.winRate <= 100.0
    ensures r.Some? ==> r.value.winRate == WinRate(sub)
    ensures r.Some? ==> r.value.monthlyPnl == PnlSince(sub, monthStart)
                        && r.value.yearlyPnl == PnlSince(sub, yearStart)
    ensures r.Some? ==> |r.value.series| == |sub|
    ensures r.Some? ==> forall i :: 0 <= i < |sub| ==>
                          r.value.series[i] == Point(sub[i].timestamp, TotalPnl(sub[..i + 1]))
  {
    if sub == [] then None
    else
      Some(Report(
        sub[|sub| - 1].balance,
        PnlSince(sub, monthStart),
        PnlSince(sub, yearStart),
        WinRate(sub),
        |sub|,
        Series(sub)))
  }

  /** The points of the cumulative-PnL chart, one per row. */
  function Series(sub: seq<Trade>): (points: seq<Point>)
    ensures |points| == |sub|
    ensures forall i :: 0 <= i < |sub| ==> points[i] == Point(sub[i].timestamp, TotalPnl(sub[..i + 1]))
  {
    var c := CumulativePnl(sub);
    CumulativeIsPrefixSum(sub);
    seq(|sub|, i requires 0 <= i < |sub| => Point(sub[i].timestamp, c[i]))
  }

  /** What the page shows: the prompt to add a first trade for an empty
      ledger, the "no data" warning when the filter leaves nothing, and the
      report otherwise. */
  datatype Page = AddFirstTrade | NoDataForFilters | Dashboard(report: Report)

  /** The page over the ledger as it stands after `sort_values` (app.py:50):
      the balance card then shows the balance of a latest row in the window. */
  function Render(rows: seq<Trade>, spec: FilterSpec, monthStart: int, yearStart: int): (p: Page)
    requires SortedByTime(rows)
    ensures p.AddFirstTrade? <==> rows == []
    ensures p.NoDataForFilters? <==> rows != [] && forall t :: t in rows ==> !InWindow(spec, t)
    ensures p.Dashboard? ==> Some(p.report) == Summarize(Filter(rows, spec), monthStart, yearStart)
    ensures p.Dashboard? ==>
              exists t :: t in rows && InWindow(spec, t) && t.balance == p.report.balance
                          && forall u :: u in rows && InWindow(spec, u) ==> u.timestamp <= t.timestamp
  {
    if rows == [] then AddFirstTrade
    else
      var sub := Filter(rows, spec);
      match Summarize(sub, monthStart, yearStart)
      case None => NoDataForFilters
      case Some(report) =>
        LastInWindowIsLatest(rows, spec);
        Dashboard(report)
  }

  /** The last filtered row of a sorted ledger is in the window and no row
      in the window is later. */
  lemma LastInWindowIsLatest(rows: seq<Trade>, spec: FilterSpec)
    requires SortedByTime(rows)
    requires Filter(rows, spec) != []
    ensures var sub := Filter(rows, spec);
            var last := sub[|sub| - 1];
            last in rows && InWindow(spec, last)
            && forall u :: u in rows && InWindow(spec, u) ==> u.timestamp <= last.timestamp
  {
    var sub := Filter(rows, spec);
    FilterSorted(rows, spec);
    SortedLastIsMax(sub);
    assert sub[|sub| - 1] in sub;
  }

  /** One run of the page: the table is sorted in place (app.py:50), then
      filtered and summarised. */
  method ShowPage(ledger: Ledgers.Ledger, spec: FilterSpec, monthStart: int, yearStart: int)
    returns (p: Page)
    modifies ledger
    ensures SortedByTime(ledger.rows) && multiset(ledger.rows) == multiset(old(ledger.rows))
    ensures p == Render(ledger.rows, spec, monthStart, yearStart)
  {
    ledger.SortByDate();
    p := Render(ledger.rows, spec, monthStart, yearStart);
  }

  /** The displayed balance is the balance typed with the latest entry: after
      appending a row strictly later than every other and sorting, a filter
      that lets that row through shows its balance. */
  lemma LatestEntryBalanceShown(before: seq<Trade>, t: Trade, after: seq<Trade>,
                                spec: FilterSpec, monthStart: int, yearStart: int)
    requires SortedByTime(after)
    requires multiset(after) == multiset(before) + multiset{t}
    requires forall x :: x in before ==> x.timestamp < t.timestamp
    requires InWindow(spec, t)
    ensures Summarize(Filter(after, spec), monthStart, yearStart).Some?
    ensures Summarize(Filter(after, spec), monthStart, yearStart).value.balance == t.balance
  {
    Ledgers.LatestTradeIsLast(before, t, after);
    var init := after[..|after| - 1];
    assert after == init + [t];
    SelectAppend(init, t, x => InWindow(spec, x));
  }

  /** On the sorted ledger the balance card shows the balance of a latest
      row of the filtered set. */
  lemma ShownBalanceIsLatest(rows: seq<Trade>, spec: FilterSpec, monthStart: int, yearStart: int)
    requires SortedByTime(rows)
    requires Filter(rows, spec) != []
    ensures var sub := Filter(rows, spec);
            Summarize(sub, monthStart, yearStart).value.balance == sub[|sub| - 1].balance
            && sub[|sub| - 1].timestamp == MaxTimestamp(sub)
  {
    FilterSorted(rows, spec);
    SortedLastIsMax(Filter(rows, spec));
  }

  lemma SortedLastIsMax(s: seq<Trade>)
    requires SortedByTime(s) && s != []
    ensures s[|s| - 1].timestamp == MaxTimestamp(s)
  {
    var m := MaxTimestamp(s);
    assert s[|s| - 1] in s;
    var t :| t in s && t.timestamp == m;
    var k :| 0 <= k < |s| && s[k] == t;
    assert s[k].timestamp <= s[|s| - 1].timestamp;
  }

  /** The win rate of three trades with PnL 10.00, -5.00 and 3.00 is 200/3 percent. */
  lemma WinRateExample()
    ensures WinRate([Trade(0, "00:00:00", "Long", "", 1000, 0),
                     Trade(1, "00:00:01", "Short", "", -500, 0),
                     Trade(2, "00:00:02", "Long", "", 300, 0)]) == 200.0 / 3.0
  {
  }
}
