# Trading journal: ledger and dashboard model

A Dafny model of the trade-ledger core of the trading-journal dashboard
(`app.py`). The app keeps a table of trades with six columns: Date, Time,
Trade Type, Description, PnL and Balance. On each page run it does the following:

- It loads the table from its store, or starts with an empty one when there is no file.
- When the entry form is submitted, it appends the new trade and re-sorts the
  table by timestamp.
- It filters the table by a date window and a set of trade types.
- It shows five KPI cards for the filtered rows: the balance, PnL this month,
  PnL this year, the win rate and the number of trades.
- It draws a line chart of the cumulative PnL.

Modules:

- `Trades` (`trades.dfy`) holds the trade record and the timestamp arithmetic.
  A date is a day number. A timestamp is whole seconds: `day * 86400` plus the
  time of day. Money is integer cents. This module also holds the `HH:MM:SS`
  Time column and the row built from the entry form.
- `Ledgers` (`ledger.dfy`) holds the ledger table as a class `Ledger` with a
  `rows: seq<Trade>` field. The table is created empty or from stored rows.
  `Append` adds one entry and re-sorts. `SortByDate` is the in-place sort. Both
  are implemented with the sort function `SortByTime`, and both ensure that the
  table ends up as a sorted permutation of its rows (plus the new row for
  `Append`).
- `Metrics` (`metrics.dfy`) holds what the dashboard computes, as pure
  functions with lemmas:
  - the boolean mask `df[cond]`, as `Select`;
  - the sidebar filter and its defaults;
  - the KPIs and the cumulative series;
  - the page's three outcomes: the prompt to add a first trade, the no-data
    warning, and the dashboard;
  - one run of the page over the `Ledger` (`ShowPage`): the in-place sort,
    then the filter and the KPIs.

Behaviour kept exactly as the code has it:

- The balance stored with a trade is the value typed into the form. It is
  never derived from PnL, and no other row's balance changes on append.
- The sort by timestamp is not promised to be stable. Rows with equal
  timestamps may come out in any order.
- The end of the date window is midnight of the end date. A trade later on the
  end date is not shown. This holds for the default end date too, which is the
  date of the latest trade, so by default the latest trade is hidden unless it
  was entered at exactly 00:00:00 (`DefaultFilterHidesLatest`).
- A trade with zero PnL is not a win. The win rate of no trades is 0.

`app.py` has no way to edit or delete a trade, no reset of the ledger, no
confirmation step, no validation of the entered values and no default trade
type; the model has none either.

## Model

| member | source | states |
|---|---|---|
| `Trades.DayOf` | app.py:54-55 | The date of a timestamp is the day whose midnight is at or before it and whose next midnight is after it (floor division, as `.date()` gives). |
| `Trades.TimeOfDayOf` | app.py:33 | Every timestamp is midnight of its date plus its time of day. |
| `Trades.Timestamp` | app.py:33 | Combining a date and a time of day gives an instant from which the same date and the same time of day are read back; it lies within that date. |
| `Trades.FormatTime` | app.py:36 | The Time column is eight characters `HH:MM:SS` with colons at positions 2 and 5, and it parses back to the same time of day. |
| `Trades.ParseTimeCanonical` | app.py:36 | Any string read as a time is exactly the formatted form of that time, so each time of day has one spelling in the Time column. |
| `Trades.NewTrade` | app.py:33-41 | The new row's timestamp has the entered date and time of day, its Time column reads back as the entered time, and its type, description, PnL and balance are the entered values verbatim. |
| `Ledgers.SortByTime` | app.py:43 | Sorting by Date gives the same rows as a multiset, in non-decreasing timestamp order; nothing about the order of equal timestamps. |
| `Ledgers.InsertByTime` | app.py:42-43 | Inserting one row into an ordered table keeps it ordered and adds exactly that row. |
| `Ledgers.LatestTradeIsLast` | app.py:42-43 | After appending a row strictly later than every existing row and sorting, that row is the last one. |
| `Ledgers.Ledger.constructor` | app.py:26-29 | With no stored file the table is empty; otherwise it holds the stored rows in stored order. |
| `Ledgers.Ledger.SortByDate` | app.py:49-50 | The in-place sort leaves the table ordered by timestamp and a permutation of what it was. |
| `Ledgers.Ledger.Append` | app.py:32-43 | The table grows by exactly one row and is ordered by timestamp; as a multiset it is the old table plus the row built from the entered values, so no existing row, balance included, is changed. |
| `Metrics.Select` | app.py:58 | A boolean mask keeps an order-preserving subsequence of the table, no longer than the table. |
| `Metrics.SelectExact` | app.py:58 | The masked table holds exactly the rows the mask accepts: each accepted row value as often as in the table, each rejected one not at all. |
| `Metrics.SubsequenceSorted` | app.py:50-58 | Leaving rows out of an ordered table keeps it ordered. |
| `Metrics.Filter` | app.py:58 | The filtered table is an order-preserving subsequence of the ledger; every kept row lies between midnight of the start date and midnight of the end date and has a selected type; every ledger row that does is kept, with its multiplicity. |
| `Metrics.FilterSorted` | app.py:50-58 | Filtering the sorted ledger gives a sorted table. |
| `Metrics.EndDateAfterMidnightExcluded` | app.py:58 | A row on the end date with a time of day after midnight is not in the filtered table. |
| `Metrics.MinTimestamp` | app.py:54 | The earliest timestamp is the timestamp of some row and at most every row's. |
| `Metrics.MaxTimestamp` | app.py:55 | The latest timestamp is the timestamp of some row and at least every row's. |
| `Metrics.TypesPresent` | app.py:56 | The default type selection holds every row's type and only types that occur. |
| `Metrics.DefaultFilter` | app.py:54-56 | The default start date is the date of some row and no row is earlier; the default end date is the date of some row and no row's date is later; the default types are exactly the types that occur. |
| `Metrics.DefaultFilterKeeps` | app.py:54-58 | With the default filter a row is shown exactly when its timestamp is at most midnight of the latest row's date. |
| `Metrics.DefaultFilterHidesLatest` | app.py:55-58 | When the latest timestamp is not at midnight, every row at that timestamp is hidden by the default filter. |
| `Metrics.MonthWithinYear` | app.py:63-64 | With the month threshold not before the year threshold, the rows summed for PnL this month are a subsequence of those summed for PnL this year. |
| `Metrics.SinceIsSuffix` | app.py:63-64 | On sorted rows, the rows at or after a threshold are the suffix after the leading rows before it. |
| `Metrics.PnlSinceFromTotal` | app.py:63-64 | On sorted rows, the period PnL is the total PnL minus the PnL of the rows before the threshold. |
| `Metrics.WinRate` | app.py:67-69 | The win rate lies in [0, 100], is 0 with no trades, and times the number of trades equals 100 times the number of trades with PnL strictly above zero. |
| `Metrics.WinRateExample` | app.py:67-69 | Three trades with PnL 10.00, -5.00 and 3.00 have a win rate of 200/3 percent. |
| `Metrics.CumulativePnl` | app.py:83 | The cumulative series has one value per filtered row; the first is that row's PnL and each later one is the previous plus that row's PnL. |
| `Metrics.CumulativeIsPrefixSum` | app.py:83 | Each value of the cumulative series is the PnL sum of the filtered rows up to and including its row. |
| `Metrics.CumulativeEndsAtTotal` | app.py:83 | The last value of the cumulative series is the PnL sum of the whole filtered table. |
| `Metrics.Summarize` | app.py:60-69 | KPIs exist exactly when the filtered table is non-empty; then the balance is the last row's balance, the trade count is the number of rows, the month and year PnL are the sums at or after their thresholds, the win rate is `WinRate` of the rows (in [0, 100], and times the trade count it is 100 times the number of winning trades) and the chart points pair each row's timestamp with its running PnL. |
| `Metrics.Series` | app.py:83 | The chart has one point per filtered row, pairing its timestamp with the PnL sum of the rows up to and including it. |
| `Metrics.Render` | app.py:48-96 | On the ledger as sorted at line 50, the page prompts for a first trade exactly when the ledger is empty, warns of no data exactly when no row passes the filter, and otherwise shows the report of the filtered table, whose balance is that of a row in the window that no row in the window is later than. |
| `Metrics.LastInWindowIsLatest` | app.py:50-62 | On the sorted ledger the last filtered row is a ledger row inside the window, and no row inside the window is later. |
| `Metrics.ShowPage` | app.py:48-96 | One page run sorts the ledger in place into a sorted permutation of its rows and shows the page of that sorted table. |
| `Metrics.LatestEntryBalanceShown` | app.py:40-62 | After appending a trade later than all others and sorting, any filter that lets it through shows the balance that was typed for it. |
| `Metrics.ShownBalanceIsLatest` | app.py:50-62 | On the sorted ledger the balance card shows the balance of the last filtered row, which has the latest timestamp of the filtered rows. |

## Left out

- Persistence: reading and writing `trades.csv` (`read_csv`, `to_csv`, the file-existence check, date parsing) is not modelled. The constructor takes the stored rows, or none when there is no file. `df['Date'] = pd.to_datetime(...)` (app.py:49) is the identity on this model's integer timestamps.
- The Streamlit widgets, sidebar, KPI card formatting (`$...,.2f`, `%.2f%%`), messages and raw-data expander are presentation. Only the page's three outcomes are modelled, in `Render`.
- Chart drawing with matplotlib is not modelled. Only the series it plots is.
- The clock and calendar offsets (`pd.Timestamp.now() - DateOffset(months=1 / years=1)`) are not modelled. The two thresholds are parameters. That the month threshold is not before the year threshold is assumed where it is used (`MonthWithinYear`).
- Floating-point PnL and balance are integer cents, and the win rate is an exact `real`. Float rounding of sums and of the win rate is not captured.
- Times are whole seconds. Sub-second parts of the entered time, which the timestamp would keep and the `HH:MM:SS` column drops, are not modelled.
- The order of `unique()` types in the multiselect options is not modelled. The selection is a set, which is all that `isin` uses.
- Stored rows are taken as they come. Their Time column is not checked against their timestamp.
