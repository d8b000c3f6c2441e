/** The dashboard's KPI pipelines over the records it displays: the error count, the total,
    the distinct regions, the errors per region and the last ten records of the table. */
module Dashboard {
  import opened Seqs

  /** One record as the dashboard reads it. */
  datatype Record = Record(id: int, timestamp: string, responseTimeMs: int, statusCode: int, region: string)

  /** A request counts as an error from status 400 on. */
  predicate IsError(d: Record)
  {
    d.statusCode >= 400
  }

  /** `data.filter(d => d.status_code >= 400).length`. */
  function ErrorCount(data: seq<Record>): (n: nat)
    ensures n <= |data|
    ensures n == 0 <==> forall d :: d in data ==> !IsError(d)
  {
    var errors := Filter(data, IsError);
    assert errors != [] ==> errors[0] in errors;
    |errors|
  }

  /** `data.length`. */
  function Total(data: seq<Record>): (n: nat)
    ensures ErrorCount(data) <= n
  {
    |data|
  }

  /** The error count never exceeds the total, and reaches it exactly when every request failed. */
  lemma {:induction false} ErrorCountBounds(data: seq<Record>)
    ensures ErrorCount(data) <= Total(data)
    ensures ErrorCount(data) == Total(data) <==> forall d :: d in data ==> IsError(d)
  {
    if data != [] {
      ErrorCountBounds(data[1..]);
      assert forall d :: d in data[1..] ==> d in data;
      assert data == [data[0]] + data[1..];
    }
  }

  /** `[...new Set(s)]`: each value once, kept at the place it first occurs. */
  function Distinct(s: seq<string>): (r: seq<string>)
    ensures NoDuplicates(r)
    ensures forall x :: x in r <==> x in s
  {
    if s == [] then []
    else
      var rest := Distinct(s[..|s| - 1]);
      assert forall x :: x in s <==> x in s[..|s| - 1] || x == s[|s| - 1] by {
        assert s == s[..|s| - 1] + [s[|s| - 1]];
      }
      if s[|s| - 1] in rest then rest else rest + [s[|s| - 1]]
  }

  /** The position of the first occurrence of `x`. */
  function FirstIndex(s: seq<string>, x: string): (i: nat)
    requires x in s
    ensures i < |s| && s[i] == x
    ensures forall j :: 0 <= j < i ==> s[j] != x
  {
    if s[0] == x then 0 else 1 + FirstIndex(s[1..], x)
  }

  /** Appending cannot move a first occurrence that is already there. */
  lemma FirstIndexSnoc(s: seq<string>, y: string, x: string)
    requires x in s
    ensures FirstIndex(s + [y], x) == FirstIndex(s, x)
  {
    var i := FirstIndex(s, x);
    var j := FirstIndex(s + [y], x);
    assert (s + [y])[i] == x;
  }

  /** The values of `r` all occur in `s`, and in `r` they come in the order of their first
      occurrences in `s`. */
  ghost predicate FirstOccurrenceOrder(s: seq<string>, r: seq<string>)
  {
    && (forall x :: x in r ==> x in s)
    && forall i, j :: 0 <= i < j < |r| ==> FirstIndex(s, r[i]) < FirstIndex(s, r[j])
  }

  /** Appending `y` to `s` keeps the order, and a new `y` may join at the end. */
  lemma OrderSnoc(s: seq<string>, y: string, r: seq<string>)
    requires FirstOccurrenceOrder(s, r)
    ensures FirstOccurrenceOrder(s + [y], r)
    ensures y !in s ==> FirstOccurrenceOrder(s + [y], r + [y])
  {
    forall k | 0 <= k < |r|
      ensures FirstIndex(s + [y], r[k]) == FirstIndex(s, r[k]) < |s|
    {
      FirstIndexSnoc(s, y, r[k]);
    }
    if y !in s {
      var t := r + [y];
      assert FirstIndex(s + [y], y) == |s|;
      forall i, j | 0 <= i < j < |t|
        ensures FirstIndex(s + [y], t[i]) < FirstIndex(s + [y], t[j])
      {
        assert t[i] == r[i];
        if j < |r| {
          assert t[j] == r[j];
        }
      }
    }
  }

  /** The distinct values come in the order of their first occurrences. */
  lemma {:induction false} DistinctOrder(s: seq<string>)
    ensures FirstOccurrenceOrder(s, Distinct(s))
  {
    if s != [] {
      var init := s[..|s| - 1];
      var y := s[|s| - 1];
      assert s == init + [y];
      DistinctOrder(init);
      OrderSnoc(init, y, Distinct(init));
    }
  }

  /** `data.map(d => d.region)`. */
  function RegionsOf(data: seq<Record>): (s: seq<string>)
    ensures |s| == |data| && forall k :: 0 <= k < |data| ==> s[k] == data[k].region
  {
    seq(|data|, (k: int) requires 0 <= k < |data| => data[k].region)
  }

  /** `regions`: the distinct regions of the data, in first-occurrence order. */
  function Regions(data: seq<Record>): (regions: seq<string>)
    ensures NoDuplicates(regions)
    ensures forall r :: r in regions <==> r in RegionsOf(data)
  {
    Distinct(RegionsOf(data))
  }

  /** The regions list names each region of the data once, names nothing else, and follows the
      order in which the regions first appear. */
  lemma RegionsSpec(data: seq<Record>)
    ensures var regions := Regions(data);
      && NoDuplicates(regions)
      && (forall r :: r in regions <==> exists d :: d in data && d.region == r)
      && (forall i, j :: 0 <= i < j < |regions| ==>
            FirstIndex(RegionsOf(data), regions[i]) < FirstIndex(RegionsOf(data), regions[j]))
  {
    var regions := Regions(data);
    var names := RegionsOf(data);
    assert regions == Distinct(names);
    DistinctOrder(names);
    forall r
      ensures r in names <==> exists d :: d in data && d.region == r
    {
      if r in names {
        var k :| 0 <= k < |names| && names[k] == r;
        assert data[k] in data;
      }
      if exists d :: d in data && d.region == r {
        var d :| d in data && d.region == r;
        var k :| 0 <= k < |data| && data[k] == d;
        assert names[k] == r;
      }
    }
  }

  /** `data.filter(d => d.region === r && d.status_code >= 400).length`. */
  function RegionErrors(data: seq<Record>, r: string): (n: nat)
    ensures n <= ErrorCount(data)
  {
    FilterSplit(data, IsError, (d: Record) => d.region == r && IsError(d), (d: Record) => d.region != r && IsError(d));
    |Filter(data, (d: Record) => d.region == r && IsError(d))|
  }

  /** One error count per region of `regions`, in the same order. */
  function ErrorsOver(data: seq<Record>, regions: seq<string>): (counts: seq<nat>)
    ensures |counts| == |regions|
    ensures forall i :: 0 <= i < |regions| ==> counts[i] == RegionErrors(data, regions[i])
  {
    seq(|regions|, (i: int) requires 0 <= i < |regions| => RegionErrors(data, regions[i]))
  }

  /** `errorByRegion`. */
  function ErrorsByRegion(data: seq<Record>): (counts: seq<nat>)
    ensures |counts| == |Regions(data)|
    ensures forall i :: 0 <= i < |counts| ==> counts[i] == RegionErrors(data, Regions(data)[i])
  {
    ErrorsOver(data, Regions(data))
  }

  /** The errors whose region is in `names`. */
  ghost function ErrorsIn(data: seq<Record>, names: set<string>): nat
  {
    |Filter(data, (d: Record) => d.region in names && IsError(d))|
  }

  /** Summing the per-region counts of distinct regions counts the errors in those regions. */
  lemma {:induction false} SumErrorsOver(data: seq<Record>, regions: seq<string>)
    requires NoDuplicates(regions)
    ensures Sum(ErrorsOver(data, regions)) == ErrorsIn(data, set r | r in regions)
  {
    if regions == [] {
      var names := set r | r in regions;
      assert names == {};
      FilterNone(data, (d: Record) => d.region in names && IsError(d));
    } else {
      var init := regions[..|regions| - 1];
      var last := regions[|regions| - 1];
      assert regions == init + [last];
      SumErrorsOver(data, init);
      var counts := ErrorsOver(data, regions);
      assert counts[..|counts| - 1] == ErrorsOver(data, init);
      var before := set r | r in init;
      var after := set r | r in regions;
      assert last !in before;
      assert after == before + {last};
      FilterSplit(data,
        (d: Record) => d.region in after && IsError(d),
        (d: Record) => d.region in before && IsError(d),
        (d: Record) => d.region == last && IsError(d));
    }
  }

  /** The entries of `errorByRegion` add up to `errorCount`. */
  lemma ErrorsByRegionSum(data: seq<Record>)
    ensures Sum(ErrorsByRegion(data)) == ErrorCount(data)
  {
    var regions := Regions(data);
    RegionsSpec(data);
    SumErrorsOver(data, regions);
    var names := set r | r in regions;
    forall d | d in data
      ensures (d.region in names && IsError(d)) == IsError(d)
    {
      assert d.region in regions;
    }
    FilterSame(data, (d: Record) => d.region in names && IsError(d), IsError);
  }

  /** JavaScript's `Array.prototype.slice(begin)`: a negative `begin` counts from the end,
      and both directions stop at the ends of the array. */
  function Slice<T>(s: seq<T>, begin: int): (r: seq<T>)
    ensures |r| <= |s|
  {
    var from := if begin < 0 then (if |s| + begin < 0 then 0 else |s| + begin)
                else (if begin > |s| then |s| else begin);
    s[from..]
  }

  /** `data.slice(-10)` is the last `min(10, data.length)` records, in their original order. */
  lemma LastTen<T>(data: seq<T>)
    ensures var last := Slice(data, -10);
      && |last| == (if |data| < 10 then |data| else 10)
      && last == data[|data| - |last|..]
      && (forall k :: 0 <= k < |last| ==> last[k] == data[|data| - |last| + k])
  {
  }

  /** The five cells of one table row. */
  datatype TableRow = TableRow(id: int, time: string, region: string, status: int, responseTimeMs: int)

  /** The cells built from one record; the time is shown as the stored timestamp text. */
  function Cells(d: Record): TableRow
  {
    TableRow(d.id, d.timestamp, d.region, d.statusCode, d.responseTimeMs)
  }

  /** The rows the table body receives, one per record of `data.slice(-10)`. */
  function RecentRows(data: seq<Record>): (rows: seq<TableRow>)
    ensures |rows| <= 10 && |rows| <= |data|
  {
    var last := Slice(data, -10);
    seq(|last|, (k: int) requires 0 <= k < |last| => Cells(last[k]))
  }

  /** The table shows the last ten records (fewer if there are fewer), one row per record,
      neither reordered nor filtered. */
  lemma RecentRowsSpec(data: seq<Record>)
    ensures var rows := RecentRows(data);
      var shown := if |data| < 10 then |data| else 10;
      && |rows| == shown
      && (forall k :: 0 <= k < shown ==> rows[k] == Cells(data[|data| - shown + k]))
  {
    var shown := if |data| < 10 then |data| else 10;
    var last := Slice(data, -10);
    assert last == data[|data| - shown..];
    var rows := RecentRows(data);
    assert |rows| == shown;
    forall k | 0 <= k < shown
      ensures rows[k] == Cells(data[|data| - shown + k])
    {
      assert rows[k] == Cells(last[k]);
      assert last[k] == data[|data| - shown + k];
    }
  }
}
