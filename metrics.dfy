/** The `/metrics` route of both API versions: the rows of an inclusive timestamp range,
    in ascending order, with their count. */
module Metrics {
  import opened Wrappers
  import opened Seqs
  import opened Telemetry
  import opened LoginTable
  import opened DailyFill
  import ConnString

  /** The JSON object the route returns. */
  datatype Response =
    | MetricsOk(count: nat, start: int, end: int, data: seq<Row>)
    | MetricsErr(error: string)

  /** `get_metrics` over a snapshot of the table. `fault` is the message of an exception
      raised while connecting or querying, if any; a missing DATABASE_URL is the one
      `get_conn` raises. */
  function GetMetrics(rows: seq<Row>, env: Option<string>, fault: Option<string>, start: int, end: int)
    : (resp: Response)
    ensures resp.MetricsErr? <==> !ConnString.Configured(env) || fault.Some?
    ensures !ConnString.Configured(env) ==> resp == MetricsErr(ConnString.NOT_SET)
    ensures ConnString.Configured(env) && fault.Some? ==> resp == MetricsErr(fault.value)
    ensures resp.MetricsOk? ==>
      && resp.start == start && resp.end == end
      && resp.count == |resp.data|
      && Sorted(resp.data)
      && multiset(resp.data) == multiset(Between(rows, start, end))
      && (forall r :: r in resp.data <==> r in rows && start <= r.timestamp <= end)
  {
    match ConnString.Connect(env)
    case Err(e) => MetricsErr(e)
    case Ok(_) =>
      if fault.Some? then MetricsErr(fault.value)
      else
        var data := SortByTimestamp(Between(rows, start, end));
        assert forall r :: r in data <==> r in multiset(Between(rows, start, end));
        assert forall r :: r in Between(rows, start, end) <==> r in rows && start <= r.timestamp <= end;
        MetricsOk(|data|, start, end, data)
  }

  /** Up to the last minute inclusive is up to the next minute exclusive. */
  lemma BetweenLastMinute(rows: seq<Row>, start: int, end: int)
    ensures Between(rows, start, end - 1) == InWindow(rows, start, end)
  {
    FilterSame(rows, (r: Row) => start <= r.timestamp <= end - 1, (r: Row) => start <= r.timestamp < end);
  }

  /** Reading a one-day window back after a refill, from its first minute to its last one
      inclusive, returns 1440 rows: exactly the inserted ones, no gaps or duplicates. */
  lemma ReadAfterRefill(rows: seq<Row>, env: Option<string>, w: Window, draws: nat -> Draw)
    requires ConnString.Configured(env)
    requires w.end - w.start == MINUTES_PER_DAY
    ensures var resp := GetMetrics(Refill(rows, w, draws), env, None, w.start, w.end - 1);
      && resp.MetricsOk?
      && resp.count == MINUTES_PER_DAY
      && multiset(resp.data) == multiset(SeriesRows(w, draws))
  {
    var after := Refill(rows, w, draws);
    var added := SeriesRows(w, draws);
    BetweenLastMinute(after, w.start, w.end);
    RefillWindow(rows, w, draws);
    var resp := GetMetrics(after, env, None, w.start, w.end - 1);
    assert multiset(resp.data) == multiset(added);
    assert |resp.data| == |multiset(resp.data)| == |multiset(added)| == |added|;
  }
}
