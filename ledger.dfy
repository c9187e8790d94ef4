/** The ledger table (`df` in app.py): loaded from the store or empty,
    extended by one row per submitted entry and kept in timestamp order. */
module Ledgers {
  import opened Trades

  /** Puts `t` into a timestamp-ordered sequence at a place that keeps it
      ordered. */
  function InsertByTime(s: seq<Trade>, t: Trade): (r: seq<Trade>)
    requires SortedByTime(s)
    ensures SortedByTime(r)
    ensures multiset(r) == multiset(s) + multiset{t}
    ensures r[0] == t || (s != [] && r[0] == s[0])
  {
    if s == [] || t.timestamp <= s[0].timestamp then
      ConsSorted(t, s);
      [t] + s
    else
      var rest := InsertByTime(s[1..], t);
      assert s == [s[0]] + s[1..];
      ConsSorted(s[0], rest);
      [s[0]] + rest
  }

  /** A row no later than the first of an ordered sequence can go in front. */
  lemma ConsSorted(x: Trade, s: seq<Trade>)
    requires SortedByTime(s)
    requires s != [] ==> x.timestamp <= s[0].timestamp
    ensures SortedByTime([x] + s)
  {
    var r := [x] + s;
    forall i, j | 0 <= i < j < |r| ensures r[i].timestamp <= r[j].timestamp {
      if i == 0 {
        assert x.timestamp <= s[0].timestamp <= s[j - 1].timestamp;
      } else {
        assert r[i] == s[i - 1] && r[j] == s[j - 1];
      }
    }
  }

  /** What `sort_values('Date')` yields: the same rows, as a multiset, in
      non-decreasing timestamp order. Rows with equal timestamps may come
      out in any order; no stability is promised. */
  function SortByTime(s: seq<Trade>): (r: seq<Trade>)
    ensures SortedByTime(r)
    ensures multiset(r) == multiset(s)
  {
    if s == [] then []
    else
      assert s == s[..|s| - 1] + [s[|s| - 1]];
      InsertByTime(SortByTime(s[..|s| - 1]), s[|s| - 1])
  }

  /** A sorted sequence that holds the rows of `before` plus `t`, where `t`
      is strictly later than every row of `before`, ends with `t`. */
  lemma LatestTradeIsLast(before: seq<Trade>, t: Trade, after: seq<Trade>)
    requires SortedByTime(after)
    requires multiset(after) == multiset(before) + multiset{t}
    requires forall x :: x in before ==> x.timestamp < t.timestamp
    ensures after != [] && after[|after| - 1] == t
  {
    assert t in multiset(after);
    assert after[|after| - 1] in multiset(after);
  }

  class Ledger {
    /** The rows of the table, in their current order. */
    var rows: seq<Trade>

    /** Loading the store at start-up: the stored rows in stored order when
        the file exists, and an empty table with the six columns when it
        does not. */
    constructor (stored: Option<seq<Trade>>)
      ensures rows == if stored.Some? then stored.value else []
    {
      rows := if stored.Some? then stored.value else [];
    }

    /** `df.sort_values('Date', inplace=True)`. */
    method SortByDate()
      modifies this
      ensures SortedByTime(rows)
      ensures multiset(rows) == multiset(old(rows))
    {
      rows := SortByTime(rows);
    }

    /** Submitting the entry form: the new row is appended and the whole
        table is re-sorted. The table grows by exactly one row, that row
        carries the entered values (the balance as typed, not derived), and
        every other row is kept unchanged. */
    method Append(date: Day, time: TimeOfDay, tradeType: string, description: string,
                  pnl: int, balance: int)
      modifies this
      ensures |rows| == |old(rows)| + 1
      ensures SortedByTime(rows)
      ensures multiset(rows)
              == multiset(old(rows)) + multiset{NewTrade(date, time, tradeType, description, pnl, balance)}
    {
      var t := NewTrade(date, time, tradeType, description, pnl, balance);
      rows := rows + [t];
      SortByDate();
      assert |multiset(rows)| == |multiset(old(rows))| + 1;
    }
  }
}
