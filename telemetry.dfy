/** The vocabulary of the `login` table: one synthetic telemetry row per minute.
    Instants are whole minutes since 1970-01-01T00:00Z; a UTC midnight is a
    multiple of MINUTES_PER_DAY. */
module Telemetry {

  const MINUTES_PER_DAY: int := 1440

  /** The status codes and regions every generator draws from, in the order the scripts list them. */
  const STATUS_CODES: seq<int> := [200, 201, 400, 404, 500, 504]
  const REGIONS: seq<string> := ["EU", "US", "APAC"]

  /** What `random.choice` picks: a position in STATUS_CODES or REGIONS. */
  type StatusPick = k: int | 0 <= k < 6
  type RegionPick = k: int | 0 <= k < 3

  /** One row of the `login` table. The `id` column is assigned by the database and not modelled. */
  datatype Row = Row(
    timestamp: int,
    responseTimeMs: int,
    requestSizeKb: int,
    responseSizeKb: int,
    statusCode: int,
    region: string)

  /** The bounds every generator enforces on a row. */
  predicate WellFormed(r: Row)
  {
    && 50 <= r.responseTimeMs <= 900
    && 10 <= r.requestSizeKb <= 300
    && 20 <= r.responseSizeKb <= 400
    && r.statusCode in STATUS_CODES
    && r.region in REGIONS
  }

  function Max(a: real, b: real): real { if a >= b then a else b }

  function Min(a: real, b: real): real { if a <= b then a else b }

  /** `max(lo, min(hi, v))`, also the semantics of `np.clip` for ordered bounds. */
  function Clamp(v: real, lo: real, hi: real): (r: real)
    ensures lo <= hi ==> lo <= r <= hi
    ensures lo <= v <= hi ==> r == v
    ensures v < lo ==> r == lo
    ensures lo <= hi && hi < v ==> r == hi
    ensures hi < lo ==> r == lo
  {
    Max(lo, Min(hi, v))
  }

  /** Python's `int()` on a float: truncation toward zero. */
  function Trunc(x: real): (n: int)
    ensures 0.0 <= x ==> n as real <= x < n as real + 1.0
    ensures x < 0.0 ==> n as real - 1.0 < x <= n as real
  {
    if x >= 0.0 then x.Floor else -((-x).Floor)
  }

  /** A clamp into integer bounds followed by `int()` stays inside the bounds, whatever the input. */
  lemma ClampTruncInRange(v: real, lo: int, hi: int)
    requires 0 <= lo <= hi
    ensures lo <= Trunc(Clamp(v, lo as real, hi as real)) <= hi
  {
  }
}
