/** The older seeding script: one row per minute for the seven days before "now",
    one INSERT per minute, a commit right after iterations i = 0, 500, 1000, ... and a
    final commit. It does
    not empty the table first. */
module Seeding {
  import opened Telemetry
  import opened LoginTable

  const TOTAL_MINUTES: nat := 7 * 24 * 60
  const COMMIT_EVERY: nat := 500

  /** The draws of one iteration: three independent normal variates (any reals) and the
      two `random.choice` picks. */
  datatype Draw = Draw(
    responseTime: real,
    requestSize: real,
    responseSize: real,
    status: StatusPick,
    region: RegionPick)

  /** A `conn.commit()`: one inside the loop after row `i`, or the one after the loop. */
  datatype Commit = InLoop(i: nat) | Final

  /** One row: each variate clipped by `np.clip` and truncated by `int()`. */
  function Synthesize(ts: int, d: Draw): (r: Row)
    ensures r.timestamp == ts && WellFormed(r)
    ensures r.statusCode == STATUS_CODES[d.status] && r.region == REGIONS[d.region]
  {
    ClampTruncInRange(d.responseTime, 50, 900);
    ClampTruncInRange(d.requestSize, 10, 300);
    ClampTruncInRange(d.responseSize, 20, 400);
    Row(ts,
        Trunc(Clamp(d.responseTime, 50.0, 900.0)),
        Trunc(Clamp(d.requestSize, 10.0, 300.0)),
        Trunc(Clamp(d.responseSize, 20.0, 400.0)),
        STATUS_CODES[d.status],
        REGIONS[d.region])
  }

  /** The rows of iterations `0 .. n - 1`, the i-th stamped `start + i` minutes. */
  function Plan(start: int, n: nat, draws: nat -> Draw): (p: seq<Row>)
    ensures |p| == n
  {
    seq(n, (i: int) requires 0 <= i < n => Synthesize(start + i, draws(i)))
  }

  /** The week's rows: 10080 of them, stamped `now - 7 days + i` minutes, strictly increasing
      and distinct, the last one minute before `now`, all within bounds. */
  lemma WeekShape(now: int, draws: nat -> Draw)
    ensures var p := Plan(now - 7 * MINUTES_PER_DAY, TOTAL_MINUTES, draws);
      && TOTAL_MINUTES == 10080 && |p| == TOTAL_MINUTES
      && (forall i :: 0 <= i < |p| ==> p[i].timestamp == now - 7 * MINUTES_PER_DAY + i)
      && (forall i, j :: 0 <= i < j < |p| ==> p[i].timestamp < p[j].timestamp)
      && p[|p| - 1].timestamp == now - 1
      && (forall r :: r in p ==> WellFormed(r))
  {
    var start := now - 7 * MINUTES_PER_DAY;
    var p := Plan(start, TOTAL_MINUTES, draws);
    forall i | 0 <= i < |p|
      ensures p[i].timestamp == start + i && WellFormed(p[i])
    {
      assert p[i] == Synthesize(start + i, draws(i));
    }
  }

  /** The commits of an `n`-iteration run: one at every `i` with `i % 500 == 0`, then the final one. */
  function CommitLog(n: nat): (log: seq<Commit>)
    ensures |log| == (n + COMMIT_EVERY - 1) / COMMIT_EVERY + 1
    ensures log[|log| - 1] == Final
    ensures forall k :: 0 <= k < |log| - 1 ==> log[k] == InLoop(COMMIT_EVERY * k)
  {
    seq((n + COMMIT_EVERY - 1) / COMMIT_EVERY, (k: int) requires 0 <= k => InLoop(COMMIT_EVERY * k)) + [Final]
  }

  /** The in-loop commits happen exactly at the iterations with `i % 500 == 0`, in order,
      and the final commit comes last. */
  lemma {:induction false} CommitLogExact(n: nat)
    ensures forall i :: 0 <= i < n ==> (i % COMMIT_EVERY == 0 <==> InLoop(i) in CommitLog(n))
    ensures forall c :: c in CommitLog(n) && c.InLoop? ==> c.i < n && c.i % COMMIT_EVERY == 0
    ensures forall a, b :: 0 <= a < b < |CommitLog(n)| - 1 ==> CommitLog(n)[a].i < CommitLog(n)[b].i
    ensures CommitLog(n)[|CommitLog(n)| - 1] == Final
  {
    var log := CommitLog(n);
    var m := (n + COMMIT_EVERY - 1) / COMMIT_EVERY;
    assert |log| == m + 1;
    forall k | 0 <= k < m
      ensures log[k] == InLoop(COMMIT_EVERY * k) && COMMIT_EVERY * k < n
    {
      assert (COMMIT_EVERY * k) / COMMIT_EVERY == k;
    }
    forall i | 0 <= i < n
      ensures i % COMMIT_EVERY == 0 <==> InLoop(i) in log
    {
      if i % COMMIT_EVERY == 0 {
        var k := i / COMMIT_EVERY;
        assert i == COMMIT_EVERY * k;
        assert k < m;
        assert log[k] == InLoop(i);
      }
      if InLoop(i) in log {
        var k :| 0 <= k < |log| && log[k] == InLoop(i);
        assert i == COMMIT_EVERY * k;
      }
    }
  }

  /** Over the fixed week: 21 in-loop commits, at `i = 0, 500, ..., 10000`, and the final one. */
  lemma WeekCommits()
    ensures |CommitLog(TOTAL_MINUTES)| == 22
    ensures CommitLog(TOTAL_MINUTES)[0] == InLoop(0)
    ensures CommitLog(TOTAL_MINUTES)[20] == InLoop(10000)
    ensures CommitLog(TOTAL_MINUTES)[21] == Final
  {
  }

  /** The in-loop commit count read off the loop's bound on the last commit. */
  lemma CommitCount(n: nat, m: nat)
    requires (m - 1) * COMMIT_EVERY < n <= m * COMMIT_EVERY
    ensures m == (n + COMMIT_EVERY - 1) / COMMIT_EVERY
  {
  }

  /** The script. `now` is the `datetime.utcnow()` reading in minutes. The returned log lists
      the commits in the order they are issued. */
  method Run(table: Table, now: int, draws: nat -> Draw) returns (commits: seq<Commit>)
    modifies table
    ensures table.rows == old(table.rows) + Plan(now - 7 * MINUTES_PER_DAY, TOTAL_MINUTES, draws)
    ensures commits == CommitLog(TOTAL_MINUTES)
  {
    var startTime := now - 7 * MINUTES_PER_DAY;
    commits := [];
    for i := 0 to TOTAL_MINUTES
      invariant table.rows == old(table.rows) + Plan(startTime, i, draws)
      invariant forall k :: 0 <= k < |commits| ==> commits[k] == InLoop(COMMIT_EVERY * k)
      invariant (|commits| - 1) * COMMIT_EVERY < i <= |commits| * COMMIT_EVERY
    {
      var ts := startTime + i;
      var row := Synthesize(ts, draws(i));
      table.Insert(row);
      assert Plan(startTime, i + 1, draws) == Plan(startTime, i, draws) + [row];
      if i % COMMIT_EVERY == 0 {
        assert i == |commits| * COMMIT_EVERY;
        commits := commits + [InLoop(i)];
      }
    }
    CommitCount(TOTAL_MINUTES, |commits|);
    assert commits == seq((TOTAL_MINUTES + COMMIT_EVERY - 1) / COMMIT_EVERY,
                          (k: int) requires 0 <= k => InLoop(COMMIT_EVERY * k));
    commits := commits + [Final];
  }
}
