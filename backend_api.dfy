/** The API's own `/cron_fill` route: the same refill as the serverless handler, but it
    checks DATABASE_URL itself and answers with a JSON object instead of raising. */
module BackendApi {
  import opened Wrappers
  import opened LoginTable
  import opened DailyFill
  import ConnString

  /** `{ok: True, start, end}` or `{ok: False, error}`; the instants stay in minutes. */
  datatype CronResult = CronOk(start: int, end: int) | CronErr(error: string)

  /** The route. `now` is the minute the clock reads; `fault` says which database call,
      if any, raises. */
  method CronFill(table: Table, env: Option<string>, now: int, fault: DbFault, draws: nat -> Draw)
    returns (result: CronResult)
    modifies table
    ensures var w := Yesterday(now);
      && (result.CronOk? <==> ConnString.Configured(env) && fault == NoFault)
      && (result.CronOk? ==>
            result == CronOk(w.start, w.end) && table.rows == Refill(old(table.rows), w, draws))
      && (!ConnString.Configured(env) ==>
            result == CronErr(ConnString.NOT_SET) && table.rows == old(table.rows))
      && (ConnString.Configured(env) && (fault.ConnectFails? || fault.DeleteFails?) ==>
            result == CronErr(fault.message) && table.rows == old(table.rows))
      && (ConnString.Configured(env) && fault.InsertFails? ==>
            result == CronErr(fault.message)
            && table.rows == DeleteWindow(old(table.rows), w.start, w.end))
  {
    if !ConnString.Configured(env) {
      result := CronErr(ConnString.NOT_SET);
      return;
    }
    var dsn := ConnString.Normalize(env.value);
    var w := Yesterday(now);
    if fault.ConnectFails? || fault.DeleteFails? {
      result := CronErr(fault.message);
      return;
    }
    table.DeleteRange(w.start, w.end);
    if fault.InsertFails? {
      result := CronErr(fault.message);
      return;
    }
    table.InsertMany(SeriesRows(w, draws));
    result := CronOk(w.start, w.end);
  }
}
