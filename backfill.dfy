/** The full backfill script: empty the `login` table, then write one synthetic row per
    minute from 2025-01-01T00:00Z up to (not including) today's UTC midnight, in batches
    of BATCH_SIZE rows, and check the stored count at the end. */
module Backfill {
  import opened Wrappers
  import opened Telemetry
  import opened LoginTable
  import ConnString

  const BATCH_SIZE: nat := 10000

  /** 2025-01-01T00:00Z: day 20089 of the Unix epoch. */
  const START: int := 20089 * MINUTES_PER_DAY

  /** The random draws of one iteration: the normal variate `z` that the Box-Muller step
      yields from `u1` and `u2` (any real), and the two `random.choice` picks. */
  datatype Draw = Draw(z: real, status: StatusPick, region: RegionPick)

  /** The RuntimeErrors the script raises. */
  datatype Failure =
    | DatabaseUrlNotSet
    | EndNotAfterStart
    | CountMismatch(expected: int, actual: int)

  /** One row: the three sizes share the same `z`, each clamped and truncated by `int()`. */
  function Synthesize(ts: int, d: Draw): (r: Row)
    ensures r.timestamp == ts && WellFormed(r)
    ensures r.statusCode == STATUS_CODES[d.status] && r.region == REGIONS[d.region]
  {
    ClampTruncInRange(250.0 + 80.0 * d.z, 50, 900);
    ClampTruncInRange(120.0 + 40.0 * d.z, 10, 300);
    ClampTruncInRange(200.0 + 60.0 * d.z, 20, 400);
    Row(ts,
        Trunc(Clamp(250.0 + 80.0 * d.z, 50.0, 900.0)),
        Trunc(Clamp(120.0 + 40.0 * d.z, 10.0, 300.0)),
        Trunc(Clamp(200.0 + 60.0 * d.z, 20.0, 400.0)),
        STATUS_CODES[d.status],
        REGIONS[d.region])
  }

  /** The rows the loop produces for `n` minutes from `start`, the k-th from the k-th draw. */
  function Plan(start: int, n: nat, draws: nat -> Draw): (p: seq<Row>)
    ensures |p| == n
  {
    seq(n, (k: int) requires 0 <= k < n => Synthesize(start + k, draws(k)))
  }

  /** The planned rows carry the minute axis `start, start + 1, ..., start + n - 1`:
      one row per minute, strictly increasing, never `start + n`, all within bounds. */
  lemma PlanShape(start: int, n: nat, draws: nat -> Draw)
    ensures |Plan(start, n, draws)| == n
    ensures forall k :: 0 <= k < n ==> Plan(start, n, draws)[k].timestamp == start + k
    ensures forall i, j :: 0 <= i < j < n ==>
      Plan(start, n, draws)[i].timestamp < Plan(start, n, draws)[j].timestamp
    ensures forall r :: r in Plan(start, n, draws) ==>
      start <= r.timestamp < start + n && WellFormed(r)
  {
    var p := Plan(start, n, draws);
    forall k | 0 <= k < n
      ensures p[k].timestamp == start + k && WellFormed(p[k])
    {
      assert p[k] == Synthesize(start + k, draws(k));
    }
  }

  /** One more iteration appends one more row. */
  lemma PlanSnoc(start: int, n: nat, draws: nat -> Draw)
    ensures Plan(start, n + 1, draws) == Plan(start, n, draws) + [Synthesize(start + n, draws(n))]
  {
    assert Plan(start, n + 1, draws)[..n] == Plan(start, n, draws);
  }

  /** The progress counter after each flush: the in-loop flushes, one per full batch,
      then the tail flush when a partial batch is left. */
  function Progress(n: nat): (p: seq<nat>)
    ensures forall k :: 0 <= k < |p| ==> 0 < p[k] <= n
  {
    seq(n / BATCH_SIZE, (k: int) => (k + 1) * BATCH_SIZE)
      + (if n % BATCH_SIZE == 0 then [] else [n])
  }

  /** The flush schedule: every in-loop flush writes exactly BATCH_SIZE rows, the tail flush
      writes between 1 and BATCH_SIZE - 1 and happens only when a tail is left, the counter
      strictly increases, and its last value is the number of rows. */
  lemma ProgressShape(n: nat)
    ensures var p := Progress(n);
      && |p| == (n + BATCH_SIZE - 1) / BATCH_SIZE
      && (forall k :: 0 < k < |p| ==> p[k - 1] < p[k])
      && (forall k :: 0 <= k < n / BATCH_SIZE ==> p[k] == (k + 1) * BATCH_SIZE)
      && (n % BATCH_SIZE != 0 ==>
            p[|p| - 1] == n && 1 <= n - (|p| - 1) * BATCH_SIZE < BATCH_SIZE)
      && (n > 0 ==> p[|p| - 1] == n)
      && (n == 0 <==> p == [])
  {
    var p := Progress(n);
    var q := n / BATCH_SIZE;
    assert n == q * BATCH_SIZE + n % BATCH_SIZE;
    if n % BATCH_SIZE == 0 {
      assert (n + BATCH_SIZE - 1) / BATCH_SIZE == q;
      if n > 0 {
        assert p[|p| - 1] == q * BATCH_SIZE;
      }
    } else {
      assert (n + BATCH_SIZE - 1) / BATCH_SIZE == q + 1;
      assert p[q] == n;
      assert q > 0 ==> p[q - 1] == q * BATCH_SIZE;
    }
  }

  /** The loop's flush log, completed by the tail flush, is the schedule `Progress`:
      `n` rows split into |full| full batches and a tail of `tail` rows. */
  lemma ProgressFromFlushes(full: seq<nat>, tail: nat, n: nat)
    requires n == |full| * BATCH_SIZE + tail && tail < BATCH_SIZE
    requires forall k :: 0 <= k < |full| ==> full[k] == (k + 1) * BATCH_SIZE
    ensures full + (if tail == 0 then [] else [n]) == Progress(n)
  {
    assert n / BATCH_SIZE == |full| && n % BATCH_SIZE == tail;
    assert full == seq(n / BATCH_SIZE, (k: int) => (k + 1) * BATCH_SIZE);
  }

  /** The final consistency check: the stored count, or a mismatch. */
  function CheckCount(expected: nat, actual: nat): (r: Result<nat, Failure>)
    ensures r.Ok? <==> actual == expected
    ensures r.Ok? ==> r.value == expected
    ensures r.Err? ==> r.error == CountMismatch(expected, actual)
  {
    if actual != expected then Err(CountMismatch(expected, actual)) else Ok(actual)
  }

  /** The `batch` list: a growable array of rows. */
  class RowBuffer {
    var data: array<Row>
    var len: nat

    ghost predicate Valid()
      reads this
    {
      len <= data.Length
    }

    /** The rows buffered so far, in the order they were appended. */
    function Contents(): (s: seq<Row>)
      reads this, data
      requires Valid()
      ensures |s| == len
    {
      data[..len]
    }

    constructor ()
      ensures Valid() && fresh(data) && Contents() == []
    {
      data := new Row[16];
      len := 0;
    }

    /** `batch.append(row)`: grows the array when it is full. */
    method Append(x: Row)
      requires Valid()
      modifies this, data
      ensures Valid() && Contents() == old(Contents()) + [x]
      ensures data == old(data) || fresh(data)
    {
      ghost var before := data[..len];
      if len == data.Length {
        var grown := new Row[2 * data.Length + 1];
        var k := 0;
        while k < len
          invariant 0 <= k <= len
          invariant forall i :: 0 <= i < k ==> grown[i] == data[i]
          modifies grown
        {
          grown[k] := data[k];
          k := k + 1;
        }
        assert grown[..len] == data[..len];
        data := grown;
      }
      assert data[..len] == before;
      data[len] := x;
      len := len + 1;
      assert data[..len] == before + [x];
    }

    /** `batch.clear()`. */
    method Clear()
      requires Valid()
      modifies this
      ensures Valid() && Contents() == [] && data == old(data)
    {
      len := 0;
    }
  }

  /** `cur.executemany(sql, batch)` followed by `batch.clear()`: the buffered rows go to the
      end of the table, in their order, and the buffer is left empty. */
  method Flush(table: Table, buffer: RowBuffer) returns (count: nat)
    requires buffer.Valid()
    modifies table, buffer
    ensures table.rows == old(table.rows) + old(buffer.Contents())
    ensures count == |old(buffer.Contents())|
    ensures buffer.Valid() && buffer.Contents() == [] && buffer.data == old(buffer.data)
  {
    var batch := buffer.Contents();
    table.InsertMany(batch);
    count := |batch|;
    buffer.Clear();
  }

  /** What holds after `i` iterations: the table and the buffer together hold the first `i`
      planned rows, the buffer holds fewer than BATCH_SIZE of them, and every flush so far
      wrote a full batch. */
  ghost predicate LoopInvariant(table: Table, buffer: RowBuffer, start: int, i: nat, draws: nat -> Draw,
                                inserted: nat, progress: seq<nat>)
    reads table, buffer, buffer.data
  {
    && buffer.Valid()
    && table.rows + buffer.Contents() == Plan(start, i, draws)
    && inserted == |table.rows| == |progress| * BATCH_SIZE
    && buffer.len < BATCH_SIZE
    && forall k :: 0 <= k < |progress| ==> progress[k] == (k + 1) * BATCH_SIZE
  }

  /** One iteration of the loop: generate the row of minute `start + i`, buffer it, and
      flush when the buffer is full. */
  method Step(table: Table, buffer: RowBuffer, start: int, i: nat, draws: nat -> Draw,
              inserted: nat, progress: seq<nat>)
    returns (inserted': nat, progress': seq<nat>)
    requires LoopInvariant(table, buffer, start, i, draws, inserted, progress)
    modifies table, buffer, buffer.data
    ensures LoopInvariant(table, buffer, start, i + 1, draws, inserted', progress')
    ensures buffer.data == old(buffer.data) || fresh(buffer.data)
  {
    var row := Synthesize(start + i, draws(i));
    ghost var generated := table.rows + buffer.Contents();
    buffer.Append(row);
    PlanSnoc(start, i, draws);
    assert table.rows + buffer.Contents() == generated + [row] == Plan(start, i + 1, draws);
    inserted', progress' := inserted, progress;
    if buffer.len >= BATCH_SIZE {
      var count := Flush(table, buffer);
      inserted' := inserted + count;
      progress' := progress + [inserted'];
    }
  }

  /** The generation loop and the tail flush over an emptied table: `n` rows from `start`,
      buffered and flushed every BATCH_SIZE rows. `inserted` is the script's counter and
      `progress` its value after each flush. */
  method WriteMinutes(table: Table, start: int, n: nat, draws: nat -> Draw)
    returns (inserted: nat, progress: seq<nat>)
    requires table.rows == []
    modifies table
    ensures table.rows == Plan(start, n, draws)
    ensures inserted == n && progress == Progress(n)
  {
    var buffer := new RowBuffer();
    inserted := 0;
    progress := [];
    for i := 0 to n
      invariant fresh(buffer) && fresh(buffer.data)
      invariant LoopInvariant(table, buffer, start, i, draws, inserted, progress)
    {
      inserted, progress := Step(table, buffer, start, i, draws, inserted, progress);
    }

    ProgressFromFlushes(progress, buffer.len, n);
    if buffer.len > 0 {
      var count := Flush(table, buffer);
      inserted := inserted + count;
      progress := progress + [inserted];
    }
  }

  /** The script, from `get_conn()` to the final count check. `today` is the UTC date
      (in days since the epoch) that `datetime.now(timezone.utc)` yields. The returned
      `progress` lists the counter `inserted` after each flush, as the script reports it. */
  method Run(table: Table, env: Option<string>, today: int, draws: nat -> Draw)
    returns (outcome: Result<nat, Failure>, progress: seq<nat>)
    modifies table
    ensures !ConnString.Configured(env) ==>
      outcome == Err(DatabaseUrlNotSet) && table.rows == old(table.rows) && progress == []
    ensures ConnString.Configured(env) && today * MINUTES_PER_DAY <= START ==>
      outcome == Err(EndNotAfterStart) && table.rows == [] && progress == []
    ensures ConnString.Configured(env) && START < today * MINUTES_PER_DAY ==>
      var total := today * MINUTES_PER_DAY - START;
      && outcome == Ok(total)
      && table.rows == Plan(START, total, draws)
      && progress == Progress(total)
  {
    progress := [];
    var conn := ConnString.Connect(env);
    if conn.Err? {
      outcome := Err(DatabaseUrlNotSet);
      return;
    }
    table.DeleteAll();

    var start := START;
    var end := today * MINUTES_PER_DAY;
    if end <= start {
      outcome := Err(EndNotAfterStart);
      return;
    }
    var totalMinutes := end - start;

    var inserted;
    inserted, progress := WriteMinutes(table, start, totalMinutes, draws);

    var count := table.Count();
    outcome := CheckCount(totalMinutes, count);
  }
}
