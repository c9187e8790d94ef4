/** A trade record of the ledger, its timestamp and its "HH:MM:SS" time column.

    Times are whole seconds: a date is a day number (days after an epoch,
    negative before it), a timestamp is `day * 86400 + second of the day`.
    Money (PnL, balance) is in integer cents. */
module Trades {

  datatype Option<T> = None | Some(value: T)

  const SecondsPerDay: int := 86400

  /** A time of day, in seconds after midnight. */
  type TimeOfDay = s: int | 0 <= s < 86400

  /** A calendar date, as a day number. */
  type Day = int

  /** The first instant of a date: what a bare date becomes as a timestamp. */
  function Midnight(d: Day): int {
    d * SecondsPerDay
  }

  /** The date a timestamp falls on. */
  function DayOf(ts: int): (d: Day)
    ensures Midnight(d) <= ts < Midnight(d + 1)
  {
    ts / SecondsPerDay
  }

  /** The time of day of a timestamp. */
  function TimeOfDayOf(ts: int): (t: TimeOfDay)
    ensures ts == Midnight(DayOf(ts)) + t
  {
    ts % SecondsPerDay
  }

  /** The timestamp of a date and a time of day, combined as one instant. */
  function Timestamp(d: Day, t: TimeOfDay): (ts: int)
    ensures DayOf(ts) == d && TimeOfDayOf(ts) == t
    ensures Midnight(d) <= ts < Midnight(d + 1)
  {
    Midnight(d) + t
  }

  /** One row of the ledger: the six columns Date, Time, Trade Type,
      Description, PnL and Balance. */
  datatype Trade = Trade(
    timestamp: int,
    time: string,
    tradeType: string,
    description: string,
    pnl: int,
    balance: int)

  // ---------------------------------------------------------------------
  // The Time column: "HH:MM:SS"

  function Digit(n: int): (c: char)
    requires 0 <= n < 10
  {
    ('0' as int + n) as char
  }

  function DigitValue(c: char): (r: Option<int>)
    ensures r.Some? ==> 0 <= r.value < 10 && Digit(r.value) == c
  {
    if '0' <= c <= '9' then Some(c as int - '0' as int) else None
  }

  /** Two decimal digits with a leading zero. */
  function TwoDigits(n: int): (r: string)
    requires 0 <= n < 100
    ensures |r| == 2
  {
    [Digit(n / 10), Digit(n % 10)]
  }

  function TwoDigitsValue(s: string): (r: Option<int>)
    requires |s| == 2
    ensures r.Some? ==> 0 <= r.value < 100 && TwoDigits(r.value) == s
  {
    match (DigitValue(s[0]), DigitValue(s[1]))
    case (Some(hi), Some(lo)) => Some(10 * hi + lo)
    case _ => None
  }

  /** Reads a "HH:MM:SS" string back as a time of day; `None` for anything
      that is not two digits per field with hours below 24 and minutes and
      seconds below 60. */
  function ParseTime(s: string): (r: Option<TimeOfDay>)
  {
    if |s| == 8 && s[2] == ':' && s[5] == ':' then
      match (TwoDigitsValue(s[0..2]), TwoDigitsValue(s[3..5]), TwoDigitsValue(s[6..8]))
      case (Some(h), Some(m), Some(sec)) =>
        if h < 24 && m < 60 && sec < 60 then Some(h * 3600 + m * 60 + sec) else None
      case _ => None
    else None
  }

  /** The time of day formatted for the Time column (`strftime("%H:%M:%S")`):
      eight characters that read back as the same time. */
  function FormatTime(t: TimeOfDay): (r: string)
    ensures |r| == 8 && r[2] == ':' && r[5] == ':'
    ensures ParseTime(r) == Some(t)
  {
    var h, m, sec := t / 3600, t / 60 % 60, t % 60;
    ClockSplit(t);
    var r := TwoDigits(h) + ":" + TwoDigits(m) + ":" + TwoDigits(sec);
    assert r[0..2] == TwoDigits(h) && r[3..5] == TwoDigits(m) && r[6..8] == TwoDigits(sec);
    TwoDigitsRoundTrip(h);
    TwoDigitsRoundTrip(m);
    TwoDigitsRoundTrip(sec);
    r
  }

  lemma TwoDigitsRoundTrip(n: int)
    requires 0 <= n < 100
    ensures TwoDigitsValue(TwoDigits(n)) == Some(n)
  {
  }

  /** A string the parser accepts is exactly the formatted form of the time
      it denotes: the Time column has one spelling per time of day. */
  lemma ParseTimeCanonical(s: string)
    requires ParseTime(s).Some?
    ensures FormatTime(ParseTime(s).value) == s
  {
    var h, m, sec := TwoDigitsValue(s[0..2]).value, TwoDigitsValue(s[3..5]).value, TwoDigitsValue(s[6..8]).value;
    ClockJoin(h, m, sec);
    var t := h * 3600 + m * 60 + sec;
    assert FormatTime(t) == TwoDigits(h) + ":" + TwoDigits(m) + ":" + TwoDigits(sec);
    assert s == s[0..2] + ":" + s[3..5] + ":" + s[6..8];
  }

  /** Splitting a time of day into hours, minutes and seconds and joining
      them again gives it back. */
  lemma ClockSplit(t: TimeOfDay)
    ensures t / 3600 < 24 && t / 60 % 60 < 60
    ensures t / 3600 * 3600 + t / 60 % 60 * 60 + t % 60 == t
  {
    var q := t / 60;
    assert t == q * 60 + t % 60;
    assert q == q / 60 * 60 + q % 60;
    assert t / 3600 == q / 60;
  }

  /** Joining hours, minutes and seconds and splitting again gives them back. */
  lemma ClockJoin(h: int, m: int, sec: int)
    requires 0 <= h < 24 && 0 <= m < 60 && 0 <= sec < 60
    ensures var t := h * 3600 + m * 60 + sec;
            0 <= t < 86400 && t / 3600 == h && t / 60 % 60 == m && t % 60 == sec
  {
    var t := h * 3600 + m * 60 + sec;
    assert t == (h * 60 + m) * 60 + sec;
    assert t / 60 == h * 60 + m;
    assert t % 60 == sec;
    assert (h * 60 + m) / 60 == h && (h * 60 + m) % 60 == m;
    assert t / 3600 == h;
  }

  // ---------------------------------------------------------------------
  // A new entry (app.py:33-41)

  /** The row built from the entry form: the timestamp combines the entered
      date and time, the Time column is the time as "HH:MM:SS", and the type,
      description, PnL and balance are stored exactly as entered. */
  function NewTrade(date: Day, time: TimeOfDay, tradeType: string, description: string,
                    pnl: int, balance: int): (t: Trade)
    ensures DayOf(t.timestamp) == date && TimeOfDayOf(t.timestamp) == time
    ensures ParseTime(t.time) == Some(time)
    ensures t.tradeType == tradeType && t.description == description
    ensures t.pnl == pnl && t.balance == balance
  {
    Trade(Timestamp(date, time), FormatTime(time), tradeType, description, pnl, balance)
  }

  /** Non-decreasing timestamps, the order `sort_values('Date')` produces. */
  predicate SortedByTime(s: seq<Trade>) {
    forall i, j :: 0 <= i < j < |s| ==> s[i].timestamp <= s[j].timestamp
  }
}
