/** The serverless `handler`: refill yesterday's window and answer with an HTTP status,
    a JSON content type and a hand-built JSON body. */
module CronHandler {
  import opened Wrappers
  import opened Telemetry
  import opened LoginTable
  import opened DailyFill
  import ConnString

  /** The `(status, headers, body)` triple the handler returns. */
  datatype Response = Response(status: int, contentType: string, body: string)

  const JSON: string := "application/json"
  const OK_BODY: string := "{\"ok\":true}"
  const ERROR_PREFIX: string := "{\"ok\":false,\"error\":\""
  const ERROR_SUFFIX: string := "\"}"

  /** `str(e).replace('"', "'")`. */
  function Sanitize(message: string): (r: string)
    ensures |r| == |message| && '"' !in r
    ensures forall i :: 0 <= i < |message| ==>
      r[i] == (if message[i] == '"' then '\'' else message[i])
  {
    if message == [] then []
    else [if message[0] == '"' then '\'' else message[0]] + Sanitize(message[1..])
  }

  /** Replacing again changes nothing, and a message without `"` is kept as it is. */
  lemma SanitizeIdempotent(message: string)
    ensures Sanitize(Sanitize(message)) == Sanitize(message)
    ensures '"' !in message ==> Sanitize(message) == message
  {
  }

  /** The status-500 answer. */
  function ErrorResponse(message: string): (resp: Response)
    ensures resp.status == 500 && resp.contentType == JSON
    ensures |resp.body| == |ERROR_PREFIX| + |message| + |ERROR_SUFFIX|
    ensures resp.body[..|ERROR_PREFIX|] == ERROR_PREFIX
    ensures resp.body[|ERROR_PREFIX|..|resp.body| - |ERROR_SUFFIX|] == Sanitize(message)
    ensures resp.body[|resp.body| - |ERROR_SUFFIX|..] == ERROR_SUFFIX
    ensures '"' !in resp.body[|ERROR_PREFIX|..|resp.body| - |ERROR_SUFFIX|]
  {
    var body := ERROR_PREFIX + Sanitize(message) + ERROR_SUFFIX;
    assert body[|ERROR_PREFIX|..|body| - |ERROR_SUFFIX|] == Sanitize(message);
    Response(500, JSON, body)
  }

  /** Whatever the message, the error body is the template around a copy of the message in
      which each double quote has become a single quote, so no double quote is left between
      the template's parts. Backslashes and control characters are not escaped, so this is
      not a promise that the body is valid JSON. */
  lemma ErrorBodyQuotes(message: string)
    ensures var body := ErrorResponse(message).body;
      && |body| == |ERROR_PREFIX| + |message| + |ERROR_SUFFIX|
      && body[..|ERROR_PREFIX|] == ERROR_PREFIX
      && body[|body| - |ERROR_SUFFIX|..] == ERROR_SUFFIX
      && (forall i :: 0 <= i < |message| ==>
            body[|ERROR_PREFIX| + i] == (if message[i] == '"' then '\'' else message[i]))
      && (forall i :: |ERROR_PREFIX| <= i < |body| - |ERROR_SUFFIX| ==> body[i] != '"')
  {
    var clean := Sanitize(message);
    var body := ERROR_PREFIX + clean + ERROR_SUFFIX;
    forall i | 0 <= i < |message|
      ensures body[|ERROR_PREFIX| + i] == (if message[i] == '"' then '\'' else message[i])
    {
      assert body[|ERROR_PREFIX| + i] == clean[i];
    }
    forall i | |ERROR_PREFIX| <= i < |body| - |ERROR_SUFFIX|
      ensures body[i] != '"'
    {
      assert body[i] == clean[i - |ERROR_PREFIX|];
    }
  }

  /** The handler. `now` is the minute `datetime.now(timezone.utc)` reads; `fault` says which
      database call, if any, raises. Any exception becomes a 500 with the sanitised message. */
  method Handler(table: Table, env: Option<string>, now: int, fault: DbFault, draws: nat -> Draw)
    returns (resp: Response)
    modifies table
    ensures var w := Yesterday(now);
      && (resp.status == 200 <==> ConnString.Configured(env) && fault == NoFault)
      && (resp.status == 200 ==>
            resp == Response(200, JSON, OK_BODY) && table.rows == Refill(old(table.rows), w, draws))
      && (!ConnString.Configured(env) ==>
            resp == ErrorResponse(ConnString.NOT_SET) && table.rows == old(table.rows))
      && (ConnString.Configured(env) && (fault.ConnectFails? || fault.DeleteFails?) ==>
            resp == ErrorResponse(fault.message) && table.rows == old(table.rows))
      && (ConnString.Configured(env) && fault.InsertFails? ==>
            resp == ErrorResponse(fault.message)
            && table.rows == DeleteWindow(old(table.rows), w.start, w.end))
  {
    var w := Yesterday(now);
    var conn := ConnString.Connect(env);
    if conn.Err? {
      resp := ErrorResponse(conn.error);
      return;
    }
    if fault.ConnectFails? || fault.DeleteFails? {
      resp := ErrorResponse(fault.message);
      return;
    }
    table.DeleteRange(w.start, w.end);
    if fault.InsertFails? {
      resp := ErrorResponse(fault.message);
      return;
    }
    table.InsertMany(SeriesRows(w, draws));
    resp := Response(200, JSON, OK_BODY);
  }

  /** Two successful invocations at instants `now` and `later` of the same UTC day leave the
      table as one invocation with the second run's draws would: the window ends with exactly
      1440 rows, the rows outside it are those of before the first run, and the row count is
      the one the first run left. */
  method HandlerTwice(table: Table, env: Option<string>, now: int, later: int, first: nat -> Draw, second: nat -> Draw)
    returns (r1: Response, r2: Response)
    requires ConnString.Configured(env)
    requires now / MINUTES_PER_DAY == later / MINUTES_PER_DAY
    modifies table
    ensures r1.status == 200 && r2.status == 200
    ensures var w := Yesterday(now);
      && table.rows == Refill(old(table.rows), w, second)
      && |table.rows| == |Refill(old(table.rows), w, first)|
      && DeleteWindow(table.rows, w.start, w.end) == DeleteWindow(old(table.rows), w.start, w.end)
      && |InWindow(table.rows, w.start, w.end)| == MINUTES_PER_DAY
  {
    ghost var before := table.rows;
    r1 := Handler(table, env, now, NoFault, first);
    assert Yesterday(later) == Yesterday(now);
    r2 := Handler(table, env, later, NoFault, second);
    RefillTwice(before, Yesterday(now), first, second);
    RefillOutside(before, Yesterday(now), first);
  }
}
