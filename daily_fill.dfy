/** The incremental "yesterday" fill shared by the serverless handler and the API's
    `/cron_fill` route: delete the half-open window `[midnight(today - 1), midnight(today))`,
    then insert one row per minute of it with an `INSERT ... SELECT` over `generate_series`. */
module DailyFill {
  import opened Telemetry
  import opened Seqs
  import opened LoginTable

  /** A value of SQL `random()`: a real in `[0, 1)`. */
  type Unit = r: real | 0.0 <= r < 1.0

  /** The five `random()` calls the SELECT makes for one row. */
  datatype Draw = Draw(responseTime: Unit, requestSize: Unit, responseSize: Unit, status: Unit, region: Unit)

  /** A half-open window of minutes. */
  datatype Window = Window(start: int, end: int)

  /** Where a database call can fail; the connection is in autocommit mode, so a statement
      that failed changed nothing and the statements before it stay done. */
  datatype DbFault = NoFault | ConnectFails(message: string) | DeleteFails(message: string) | InsertFails(message: string)

  /** Yesterday in UTC for the instant `now`: from the midnight before the current date's
      midnight up to the current date's midnight. */
  function Yesterday(now: int): (w: Window)
    ensures w.end % MINUTES_PER_DAY == 0 && w.start % MINUTES_PER_DAY == 0
    ensures w.end <= now < w.end + MINUTES_PER_DAY
    ensures w.end - w.start == MINUTES_PER_DAY
  {
    var today := now / MINUTES_PER_DAY;
    Window((today - 1) * MINUTES_PER_DAY, today * MINUTES_PER_DAY)
  }

  /** `generate_series(lo, hi, 1)`: every integer from `lo` up to and including `hi`. */
  function GenerateSeries(lo: int, hi: int): (s: seq<int>)
    ensures |s| == if lo <= hi then hi - lo + 1 else 0
    ensures forall k :: 0 <= k < |s| ==> s[k] == lo + k
    decreases hi - lo
  {
    if lo > hi then [] else [lo] + GenerateSeries(lo + 1, hi)
  }

  /** `round()` of a non-negative double, halves rounded up. */
  function Round(x: real): (n: int)
    ensures x - 0.5 < n as real <= x + 0.5
  {
    (x + 0.5).Floor
  }

  /** `(ARRAY[...])[1 + floor(random() * n)]`: the 1-based index such a draw selects. */
  function ArrayIndex(u: Unit, n: nat): (i: int)
    requires n > 0
    ensures 1 <= i <= n
  {
    assert u * n as real < n as real by {
      assert (1.0 - u) * n as real > 0.0;
    }
    1 + (u * n as real).Floor
  }

  /** One row of the SELECT; a value drawn as `lo + round(span * random())` lies in `[lo, lo + span]`. */
  function SqlRow(ts: int, d: Draw): (r: Row)
    ensures r.timestamp == ts && WellFormed(r)
  {
    Row(ts,
        50 + Round(850.0 * d.responseTime),
        10 + Round(290.0 * d.requestSize),
        20 + Round(380.0 * d.responseSize),
        STATUS_CODES[ArrayIndex(d.status, 6) - 1],
        REGIONS[ArrayIndex(d.region, 3) - 1])
  }

  /** The rows the `INSERT ... SELECT FROM generate_series(start, end - 1 minute, 1 minute)` adds. */
  function SeriesRows(w: Window, draws: nat -> Draw): (rows: seq<Row>)
    ensures |rows| == if w.start < w.end then w.end - w.start else 0
  {
    var series := GenerateSeries(w.start, w.end - 1);
    seq(|series|, (k: int) requires 0 <= k < |series| => SqlRow(series[k], draws(k)))
  }

  /** Some row is stamped with minute `t`. */
  ghost predicate HasMinute(rows: seq<Row>, t: int)
  {
    exists k :: 0 <= k < |rows| && rows[k].timestamp == t
  }

  /** The series of a one-day window: 1440 rows, the k-th at `start + k`, strictly increasing,
      all inside `[start, end)`, every minute of the window present, all within bounds. */
  lemma SeriesRowsShape(w: Window, draws: nat -> Draw)
    requires w.end - w.start == MINUTES_PER_DAY
    ensures var rows := SeriesRows(w, draws);
      && |rows| == MINUTES_PER_DAY
      && (forall k :: 0 <= k < |rows| ==> rows[k].timestamp == w.start + k)
      && (forall i, j :: 0 <= i < j < |rows| ==> rows[i].timestamp < rows[j].timestamp)
      && (forall r :: r in rows ==> w.start <= r.timestamp < w.end && WellFormed(r))
      && (forall t :: w.start <= t < w.end ==> HasMinute(rows, t))
  {
    var rows := SeriesRows(w, draws);
    var series := GenerateSeries(w.start, w.end - 1);
    forall k | 0 <= k < |rows|
      ensures rows[k].timestamp == w.start + k && WellFormed(rows[k])
    {
      assert rows[k] == SqlRow(series[k], draws(k));
    }
    forall t | w.start <= t < w.end
      ensures HasMinute(rows, t)
    {
      assert rows[t - w.start].timestamp == t;
    }
  }

  /** The table after the delete and the insert. */
  function Refill(rows: seq<Row>, w: Window, draws: nat -> Draw): (after: seq<Row>)
    ensures |after| == |DeleteWindow(rows, w.start, w.end)| + |SeriesRows(w, draws)|
  {
    DeleteWindow(rows, w.start, w.end) + SeriesRows(w, draws)
  }

  /** After a refill the window holds exactly the inserted series, whatever it held before. */
  lemma RefillWindow(rows: seq<Row>, w: Window, draws: nat -> Draw)
    requires w.end - w.start == MINUTES_PER_DAY
    ensures InWindow(Refill(rows, w, draws), w.start, w.end) == SeriesRows(w, draws)
    ensures |InWindow(Refill(rows, w, draws), w.start, w.end)| == MINUTES_PER_DAY
  {
    var kept := DeleteWindow(rows, w.start, w.end);
    var added := SeriesRows(w, draws);
    SeriesRowsShape(w, draws);
    FilterAppend(kept, added, (r: Row) => w.start <= r.timestamp < w.end);
    FilterNone(kept, (r: Row) => w.start <= r.timestamp < w.end);
    FilterAll(added, (r: Row) => w.start <= r.timestamp < w.end);
  }

  /** A refill leaves every row outside the window as it was, in the same order. */
  lemma RefillOutside(rows: seq<Row>, w: Window, draws: nat -> Draw)
    requires w.end - w.start == MINUTES_PER_DAY
    ensures DeleteWindow(Refill(rows, w, draws), w.start, w.end) == DeleteWindow(rows, w.start, w.end)
  {
    var kept := DeleteWindow(rows, w.start, w.end);
    var added := SeriesRows(w, draws);
    SeriesRowsShape(w, draws);
    FilterAppend(kept, added, (r: Row) => !(w.start <= r.timestamp < w.end));
    FilterAll(kept, (r: Row) => !(w.start <= r.timestamp < w.end));
    FilterNone(added, (r: Row) => !(w.start <= r.timestamp < w.end));
  }

  /** Refilling is idempotent: a second refill of the same window is a single refill with the
      second draws, so it leaves the rows outside the window and the total row count as the
      first did. */
  lemma RefillTwice(rows: seq<Row>, w: Window, first: nat -> Draw, second: nat -> Draw)
    requires w.end - w.start == MINUTES_PER_DAY
    ensures var once := Refill(rows, w, first);
      var twice := Refill(once, w, second);
      && twice == Refill(rows, w, second)
      && DeleteWindow(twice, w.start, w.end) == DeleteWindow(once, w.start, w.end)
      && |InWindow(twice, w.start, w.end)| == |InWindow(once, w.start, w.end)| == MINUTES_PER_DAY
      && |twice| == |once|
  {
    var once := Refill(rows, w, first);
    RefillOutside(rows, w, first);
    RefillOutside(once, w, second);
    RefillWindow(rows, w, first);
    RefillWindow(once, w, second);
    SeriesRowsShape(w, first);
    SeriesRowsShape(w, second);
  }
}
