/** The data-quality report of validate.py: five SQL aggregates over one
    transformed batch, restated as functions over its records. The batch
    has already been cleaned, so every record has a sensor, a reading type
    and a timestamp (whole seconds); only the value may be NULL. */
module Validate {
  import opened Wrappers
  import opened Seqs
  import Transform

  const SecondsPerHour: int := 3600

  /** One row of the `readings` table. */
  datatype Record = Record(sensorId: string, readingType: string, timestamp: int, value: Option<real>)

  /** The table with the DuckDB type names of its `value` and `timestamp`
      columns, which are the same for every row. */
  datatype Table = Table(valueType: string, timestampType: string, records: seq<Record>)

  // ---------------------------------------------------------------------
  // SQL building blocks
  // ---------------------------------------------------------------------

  /** `SUM(<boolean expression>)`: NULLs are skipped and a sum over no
      non-NULL input is NULL; otherwise the number of true rows. */
  function SumWhere(rs: seq<Record>, flag: Record -> Option<bool>): (r: Option<nat>)
    ensures r.None? <==> forall x | x in rs :: flag(x).None?
    ensures r.Some? ==> r.value == |Filter(rs, Holds(flag))|
  {
    if rs == [] then None
    else
      var rest := SumWhere(rs[1..], flag);
      var tail := Filter(rs[1..], Holds(flag));
      assert forall x | x in rs :: x == rs[0] || x in rs[1..];
      assert |Filter(rs, Holds(flag))| == (if Holds(flag)(rs[0]) then 1 else 0) + |tail|;
      assert |tail| > 0 ==> tail[0] in tail;
      if flag(rs[0]).None? then rest
      else Some((if flag(rs[0]) == Some(true) then 1 else 0) + (if rest.Some? then rest.value else 0))
  }

  /** The rows a flag is true on. */
  function Holds(flag: Record -> Option<bool>): Record -> bool
  {
    (x: Record) => flag(x) == Some(true)
  }

  /** A flag that does not depend on the row. */
  function Always(b: bool): Record -> Option<bool>
  {
    (x: Record) => Some(b)
  }

  /** A sum of one constant flag over `n` rows. */
  lemma {:induction false} SumWhereConstant(rs: seq<Record>, b: bool)
    ensures SumWhere(rs, Always(b)) == if rs == [] then None else Some(if b then |rs| else 0)
  {
    var kept := Filter(rs, Holds(Always(b)));
    if b {
      FilterKeepsAll(rs, Holds(Always(b)));
    } else {
      FilterNone(rs, Holds(Always(b)));
    }
    assert rs != [] ==> rs[0] in rs && Always(b)(rs[0]).Some?;
  }

  function TypeIs(t: string): Record -> bool
  {
    (x: Record) => x.readingType == t
  }

  /** `WHERE reading_type = t`. */
  function OfType(rs: seq<Record>, t: string): (r: seq<Record>)
    ensures forall x | x in r :: x in rs && x.readingType == t
    ensures forall x | x in rs && x.readingType == t :: x in r
  {
    Filter(rs, TypeIs(t))
  }

  /** `ROUND(x, 2)`: to the nearest hundredth, halves away from zero. */
  function Round2(x: real): (r: real)
    ensures x >= 0.0 ==> r >= 0.0
    ensures x <= 0.0 ==> r <= 0.0
  {
    if x >= 0.0 then ((x * 100.0 + 0.5).Floor as real) / 100.0
    else -(((-x) * 100.0 + 0.5).Floor as real) / 100.0
  }

  /** Rounding yields a whole number of hundredths; with `Round2Error`
      this makes the result the nearest hundredth. */
  lemma {:induction false} Round2Hundredths(x: real)
    ensures (Round2(x) * 100.0).Floor as real == Round2(x) * 100.0
  {
    var f := ((if x >= 0.0 then x else -x) * 100.0 + 0.5).Floor;
    if x >= 0.0 {
      assert Round2(x) == f as real / 100.0;
      WholeHundredths(f);
    } else {
      assert Round2(x) == (-f) as real / 100.0;
      WholeHundredths(-f);
    }
  }

  lemma {:induction false} WholeHundredths(f: int)
    ensures ((f as real / 100.0) * 100.0).Floor as real == (f as real / 100.0) * 100.0
  {
    assert (f as real / 100.0) * 100.0 == f as real;
  }

  /** Rounding moves a value by at most half a hundredth. */
  lemma {:induction false} Round2Error(x: real)
    ensures -0.005 <= Round2(x) - x <= 0.005
  {
    var y := if x >= 0.0 then x else -x;
    var f := (y * 100.0 + 0.5).Floor as real;
    assert y * 100.0 - 0.5 < f <= y * 100.0 + 0.5;
  }

  /** `ROUND(100.0 * count / total, 2)`. */
  function Percent(count: nat, total: nat): (p: real)
    requires total > 0
    ensures count <= total ==> 0.0 <= p <= 100.0
  {
    var x := 100.0 * count as real / total as real;
    assert count <= total ==> x <= 100.0 by {
      if count <= total {
        assert x * total as real == 100.0 * count as real;
      }
    }
    assert x >= 0.0;
    var f := (x * 100.0 + 0.5).Floor;
    assert count <= total ==> f <= 10000;
    Round2(x)
  }

  // ---------------------------------------------------------------------
  // TypeValidation
  // ---------------------------------------------------------------------

  const ValueTypes: set<string> := {"DOUBLE", "FLOAT"}
  const TimestampTypes: set<string> := {"TIMESTAMP", "VARCHAR"}

  datatype TypeReport = TypeReport(totalRecords: nat, invalidValueType: Option<nat>, invalidTimestampType: Option<nat>)

  /** Row count and the rows whose column type is not an accepted one. A
      column has one type, so a count is either zero or every row, and both
      counts are NULL on an empty table. */
  function TypeValidation(t: Table): (r: TypeReport)
    ensures r.totalRecords == |t.records|
    ensures r.invalidValueType ==
      if t.records == [] then None
      else Some(if t.valueType in ValueTypes then 0 else |t.records|)
    ensures r.invalidTimestampType ==
      if t.records == [] then None
      else Some(if t.timestampType in TimestampTypes then 0 else |t.records|)
  {
    SumWhereConstant(t.records, t.valueType !in ValueTypes);
    SumWhereConstant(t.records, t.timestampType !in TimestampTypes);
    TypeReport(
      |t.records|,
      SumWhere(t.records, Always(t.valueType !in ValueTypes)),
      SumWhere(t.records, Always(t.timestampType !in TimestampTypes)))
  }

  // ---------------------------------------------------------------------
  // RangeValidation and AnomalyStats
  // ---------------------------------------------------------------------

  /** EXPECTED_RANGE of validate.py, in dictionary order. It is wider than
      the one transform.py flags anomalies with. */
  const ExpectedRange: seq<(string, real, real)> := [("temperature", 0.0, 50.0), ("humidity", 0.0, 100.0)]

  /** `value < lo OR value > hi`, NULL when the value is: true exactly
      for a known value outside the closed interval [lo, hi]. */
  function OutOfRangeFlag(lo: real, hi: real): (r: Record -> Option<bool>)
    ensures forall x: Record ::
      && (r(x).None? <==> x.value.None?)
      && (r(x) == Some(true) <==> x.value.Some? && !(lo <= x.value.value <= hi))
  {
    (x: Record) => if x.value.None? then None else Some(x.value.value < lo || x.value.value > hi)
  }

  /** A record of type `t` whose value is known and outside [lo, hi]. */
  predicate IsOutOfRange(x: Record, t: string, lo: real, hi: real)
  {
    x.readingType == t && x.value.Some? && (x.value.value < lo || hi < x.value.value)
  }

  function OutOfRangeOf(t: string, lo: real, hi: real): Record -> bool
  {
    (x: Record) => IsOutOfRange(x, t, lo, hi)
  }

  datatype RangeRow = RangeRow(readingType: string, total: nat, outOfRange: Option<nat>)

  /** One range query: the rows of type `t` and how many lie outside the
      closed range; NULL when no row of the type has a value. */
  function RangeCheck(rs: seq<Record>, t: string, lo: real, hi: real): (row: RangeRow)
    ensures row.readingType == t
    ensures row.total == |OfType(rs, t)|
    ensures row.outOfRange.None? <==> forall x | x in rs && x.readingType == t :: x.value.None?
    ensures row.outOfRange.Some? ==>
      row.outOfRange.value == |Filter(rs, OutOfRangeOf(t, lo, hi))| <= row.total
  {
    var group := OfType(rs, t);
    var sum := SumWhere(group, OutOfRangeFlag(lo, hi));
    FilterFilter(rs, TypeIs(t), Holds(OutOfRangeFlag(lo, hi)), OutOfRangeOf(t, lo, hi));
    RangeRow(t, |group|, sum)
  }

  /** The range queries, one row per EXPECTED_RANGE entry in order. */
  function RangeValidation(rs: seq<Record>): (r: seq<RangeRow>)
    ensures |r| == |ExpectedRange|
    ensures forall i | 0 <= i < |r| ::
      r[i] == RangeCheck(rs, ExpectedRange[i].0, ExpectedRange[i].1, ExpectedRange[i].2)
  {
    seq(|ExpectedRange|, i requires 0 <= i < |ExpectedRange| =>
      RangeCheck(rs, ExpectedRange[i].0, ExpectedRange[i].1, ExpectedRange[i].2))
  }

  datatype AnomalyRow = AnomalyRow(readingType: string, total: nat, anomalies: Option<nat>, anomalyPercent: Option<real>)

  /** One anomaly query: the same count as the range query, and its share
      of the rows of the type. */
  function AnomalyCheck(rs: seq<Record>, t: string, lo: real, hi: real): (row: AnomalyRow)
    ensures row.readingType == t
    ensures row.total == RangeCheck(rs, t, lo, hi).total
    ensures row.anomalies == RangeCheck(rs, t, lo, hi).outOfRange
    ensures row.anomalyPercent.Some? <==> row.anomalies.Some?
    ensures row.anomalyPercent.Some? ==>
      row.total > 0 && 0.0 <= row.anomalyPercent.value <= 100.0 &&
      row.anomalyPercent.value == Percent(row.anomalies.value, row.total)
  {
    var group := OfType(rs, t);
    var anomalies := SumWhere(group, OutOfRangeFlag(lo, hi));
    var percent := if anomalies.None? then None else Some(Percent(anomalies.value, |group|));
    AnomalyRow(t, |group|, anomalies, percent)
  }

  /** The `UNION ALL` of the anomaly queries. */
  function AnomalyStats(rs: seq<Record>): (r: seq<AnomalyRow>)
    ensures |r| == |ExpectedRange|
    ensures forall i | 0 <= i < |r| ::
      r[i] == AnomalyCheck(rs, ExpectedRange[i].0, ExpectedRange[i].1, ExpectedRange[i].2)
  {
    seq(|ExpectedRange|, i requires 0 <= i < |ExpectedRange| =>
      AnomalyCheck(rs, ExpectedRange[i].0, ExpectedRange[i].1, ExpectedRange[i].2))
  }

  /** The two reports agree: every type's anomaly count is its out-of-range
      count, and both lie within the type's row count. */
  lemma {:induction false} AnomaliesAreOutOfRange(rs: seq<Record>)
    ensures forall i | 0 <= i < |ExpectedRange| ::
      && RangeValidation(rs)[i].readingType == AnomalyStats(rs)[i].readingType == ExpectedRange[i].0
      && AnomalyStats(rs)[i].anomalies == RangeValidation(rs)[i].outOfRange
      && AnomalyStats(rs)[i].total == RangeValidation(rs)[i].total
      && (RangeValidation(rs)[i].outOfRange.Some? ==>
            RangeValidation(rs)[i].outOfRange.value <= RangeValidation(rs)[i].total)
  {
    forall i | 0 <= i < |ExpectedRange|
      ensures AnomalyStats(rs)[i].anomalies == RangeValidation(rs)[i].outOfRange
    {
      var e := ExpectedRange[i];
      assert AnomalyStats(rs)[i] == AnomalyCheck(rs, e.0, e.1, e.2);
      assert RangeValidation(rs)[i] == RangeCheck(rs, e.0, e.1, e.2);
    }
  }

  // ---------------------------------------------------------------------
  // MissingValues
  // ---------------------------------------------------------------------

  /** `value IS NULL OR value != value`; NaN is stored as NULL. */
  const MissingFlag: Record -> Option<bool> := (x: Record) => Some(x.value.None?)

  const IsMissing: Record -> bool := (x: Record) => x.value.None?

  datatype MissingRow = MissingRow(readingType: string, total: nat, missingValueCount: nat, missingPercentage: real)

  /** The `reading_type` column. */
  function ReadingTypes(rs: seq<Record>): (r: seq<string>)
    ensures forall t | t in r :: exists x | x in rs :: x.readingType == t
    ensures forall x | x in rs :: x.readingType in r
  {
    if rs == [] then []
    else
      assert forall x | x in rs :: x == rs[0] || x in rs[1..];
      [rs[0].readingType] + ReadingTypes(rs[1..])
  }

  /** The reading types present, each once, in order of first appearance. */
  function TypesPresent(rs: seq<Record>): (r: seq<string>)
    ensures NoDuplicates(r)
    ensures forall i | 0 <= i < |r| :: exists x | x in rs :: x.readingType == r[i]
    ensures forall x | x in rs :: x.readingType in r
  {
    var r := DedupeFrom(ReadingTypes(rs), {});
    assert forall i | 0 <= i < |r| :: r[i] in r;
    r
  }

  /** One `GROUP BY reading_type` row: `value IS NULL OR value != value` is
      never NULL, so over a non-empty group its SUM is a number. */
  function MissingFor(rs: seq<Record>, t: string): (row: MissingRow)
    requires exists x | x in rs :: x.readingType == t
    ensures row.readingType == t
    ensures row.total == |OfType(rs, t)| >= 1
    ensures row.missingValueCount == |Filter(OfType(rs, t), IsMissing)| <= row.total
    ensures 0.0 <= row.missingPercentage <= 100.0
    ensures row.missingPercentage == Percent(row.missingValueCount, row.total)
  {
    var group := OfType(rs, t);
    var x :| x in rs && x.readingType == t;
    assert x in group;
    var sum := SumWhere(group, MissingFlag);
    assert sum.Some?;
    FilterCongruent(group, Holds(MissingFlag), IsMissing);
    MissingRow(t, |group|, sum.value, Percent(sum.value, |group|))
  }

  /** The missing-value profile: one row per reading type present. */
  function MissingProfile(rs: seq<Record>): (r: seq<MissingRow>)
    ensures |r| == |TypesPresent(rs)|
    ensures forall i | 0 <= i < |r| :: r[i] == MissingFor(rs, TypesPresent(rs)[i])
  {
    var ts := TypesPresent(rs);
    seq(|ts|, i requires 0 <= i < |ts| => MissingFor(rs, ts[i]))
  }

  /** Each reading type present has exactly one profile row, with at least
      one record. */
  lemma {:induction false} MissingProfileCoversTypes(rs: seq<Record>)
    ensures forall x | x in rs :: exists i | 0 <= i < |MissingProfile(rs)| ::
      MissingProfile(rs)[i].readingType == x.readingType
    ensures forall i, j | 0 <= i < j < |MissingProfile(rs)| ::
      MissingProfile(rs)[i].readingType != MissingProfile(rs)[j].readingType
    ensures forall i | 0 <= i < |MissingProfile(rs)| ::
      && MissingProfile(rs)[i].readingType == TypesPresent(rs)[i]
      && 1 <= MissingProfile(rs)[i].total
      && MissingProfile(rs)[i].missingValueCount <= MissingProfile(rs)[i].total
  {
    var ts := TypesPresent(rs);
    var r := MissingProfile(rs);
    forall x | x in rs ensures exists i | 0 <= i < |r| :: r[i].readingType == x.readingType {
      assert x.readingType in ts;
      var i :| 0 <= i < |ts| && ts[i] == x.readingType;
      assert r[i].readingType == ts[i];
    }
    forall i, j | 0 <= i < j < |r| ensures r[i].readingType != r[j].readingType {
      assert r[i].readingType == ts[i] && r[j].readingType == ts[j];
    }
  }

  // ---------------------------------------------------------------------
  // HourlyGaps
  // ---------------------------------------------------------------------

  /** `DATE_TRUNC('hour', t)`. */
  function TruncHour(t: int): (h: int)
    ensures h % SecondsPerHour == 0
    ensures h <= t < h + SecondsPerHour
  {
    t - t % SecondsPerHour
  }

  /** `generate_series(start, stop, INTERVAL 1 HOUR)`: every hour from
      `start` up to and including the last one not after `stop`. */
  function Grid(start: int, stop: int): (g: seq<int>)
    requires start <= stop
    ensures |g| >= 1 && g[0] == start
    ensures forall k | 0 <= k < |g| :: g[k] == start + k * SecondsPerHour && g[k] <= stop
    ensures stop < start + |g| * SecondsPerHour
    ensures forall i, j | 0 <= i < j < |g| :: g[i] < g[j]
  {
    var n := (stop - start) / SecondsPerHour + 1;
    seq(n, k requires 0 <= k < n => start + k * SecondsPerHour)
  }

  /** How many readings fall into the hour bucket `slot`. */
  function Matches(stamps: seq<int>, slot: int): nat
  {
    if stamps == [] then 0
    else (if TruncHour(stamps[0]) == slot then 1 else 0) + Matches(stamps[1..], slot)
  }

  /** `COUNT(e.expected_time)` after the left join: a slot with m >= 1
      matching readings yields m joined rows, an empty slot one row. */
  function ExpectedCount(stamps: seq<int>, grid: seq<int>): (r: nat)
    ensures r >= |grid|
  {
    if grid == [] then 0
    else
      var m := Matches(stamps, grid[0]);
      (if m == 0 then 1 else m) + ExpectedCount(stamps, grid[1..])
  }

  /** `COUNT(r.timestamp)`: the joined rows that carry a reading, never
      more than the joined rows. */
  function ActualCount(stamps: seq<int>, grid: seq<int>): (r: nat)
    ensures r <= ExpectedCount(stamps, grid)
  {
    if grid == [] then 0 else Matches(stamps, grid[0]) + ActualCount(stamps, grid[1..])
  }

  /** The slots no reading falls into. */
  function EmptySlots(grid: seq<int>, stamps: seq<int>): (r: seq<int>)
    ensures forall s | s in r :: s in grid && Matches(stamps, s) == 0
    ensures forall s | s in grid && Matches(stamps, s) == 0 :: s in r
  {
    Filter(grid, (s: int) => Matches(stamps, s) == 0)
  }

  /** The counting identity: `missing_hours` (expected minus actual) is the
      number of empty slots, so it is never negative. */
  lemma {:induction false} MissingIsEmptySlots(stamps: seq<int>, grid: seq<int>)
    ensures ExpectedCount(stamps, grid) == ActualCount(stamps, grid) + |EmptySlots(grid, stamps)|
  {
    if grid != [] {
      MissingIsEmptySlots(stamps, grid[1..]);
    }
  }

  datatype GapCounts = GapCounts(expectedCount: nat, actualCount: nat, missingHours: int)

  function CountsOver(stamps: seq<int>, grid: seq<int>): (c: GapCounts)
    ensures c.missingHours == |EmptySlots(grid, stamps)| >= 0
    ensures c.expectedCount == c.actualCount + c.missingHours
  {
    MissingIsEmptySlots(stamps, grid);
    var e := ExpectedCount(stamps, grid);
    var a := ActualCount(stamps, grid);
    GapCounts(e, a, e - a)
  }

  function MinOf(xs: seq<int>): (m: int)
    requires |xs| > 0
    ensures m in xs && forall x | x in xs :: m <= x
  {
    if |xs| == 1 then xs[0]
    else
      var rest := MinOf(xs[1..]);
      assert forall x | x in xs :: x == xs[0] || x in xs[1..];
      if xs[0] <= rest then xs[0] else rest
  }

  function MaxOf(xs: seq<int>): (m: int)
    requires |xs| > 0
    ensures m in xs && forall x | x in xs :: x <= m
  {
    if |xs| == 1 then xs[0]
    else
      var rest := MaxOf(xs[1..]);
      assert forall x | x in xs :: x == xs[0] || x in xs[1..];
      if xs[0] >= rest then xs[0] else rest
  }

  /** The gap counts of one group as the query computes them: the grid runs
      from the group's raw minimum timestamp to its maximum. */
  function GroupGapsAsWritten(stamps: seq<int>): (c: GapCounts)
    requires |stamps| > 0
    ensures c.expectedCount == c.actualCount + c.missingHours
    ensures c.missingHours == |EmptySlots(Grid(MinOf(stamps), MaxOf(stamps)), stamps)| >= 0
    ensures MinOf(stamps) % SecondsPerHour != 0 ==>
      c.actualCount == 0 && c.expectedCount == c.missingHours >= 1
  {
    var grid := Grid(MinOf(stamps), MaxOf(stamps));
    assert MinOf(stamps) % SecondsPerHour != 0 ==>
      ActualCount(stamps, grid) == 0 && grid[0] in EmptySlots(grid, stamps) by {
      if MinOf(stamps) % SecondsPerHour != 0 {
        UnalignedGridNeverMatches(stamps, grid, MinOf(stamps));
      }
    }
    CountsOver(stamps, grid)
  }

  /** Every slot of a grid that starts off the hour is off the hour, while
      every bucket is on it: no reading matches any slot. */
  lemma {:induction false} UnalignedGridNeverMatches(stamps: seq<int>, grid: seq<int>, start: int)
    requires start % SecondsPerHour != 0
    requires forall k | 0 <= k < |grid| :: grid[k] == start + k * SecondsPerHour
    ensures ActualCount(stamps, grid) == 0
    ensures forall s | s in grid :: Matches(stamps, s) == 0
  {
    forall s | s in grid ensures Matches(stamps, s) == 0 {
      var k :| 0 <= k < |grid| && grid[k] == s;
      assert s % SecondsPerHour == start % SecondsPerHour;
      NoBucketOffHour(stamps, s);
    }
    ActualZero(stamps, grid);
  }

  lemma {:induction false} NoBucketOffHour(stamps: seq<int>, s: int)
    requires s % SecondsPerHour != 0
    ensures Matches(stamps, s) == 0
  {
    if stamps != [] {
      NoBucketOffHour(stamps[1..], s);
    }
  }

  lemma {:induction false} ActualZero(stamps: seq<int>, grid: seq<int>)
    requires forall s | s in grid :: Matches(stamps, s) == 0
    ensures ActualCount(stamps, grid) == 0
  {
    if grid != [] {
      assert grid[0] in grid;
      assert forall s | s in grid[1..] :: s in grid;
      ActualZero(stamps, grid[1..]);
    }
  }

  /** The gap counts of one group with the grid starting at the hour of the
      group's minimum, so that grid slots and reading buckets line up. Every
      reading then lands in exactly one slot. */
  function GroupGaps(stamps: seq<int>): (c: GapCounts)
    requires |stamps| > 0
    ensures c.expectedCount == c.actualCount + c.missingHours
    ensures c.missingHours == |EmptySlots(Grid(TruncHour(MinOf(stamps)), MaxOf(stamps)), stamps)| >= 0
    ensures c.actualCount == |stamps|
  {
    var grid := Grid(TruncHour(MinOf(stamps)), MaxOf(stamps));
    EveryBucketInGrid(stamps, grid);
    ActualCountsBuckets(stamps, grid);
    InGridCountsAll(stamps, grid);
    CountsOver(stamps, grid)
  }

  /** The readings whose bucket is one of `grid`'s slots. */
  function InGrid(stamps: seq<int>, grid: seq<int>): nat
  {
    if stamps == [] then 0
    else (if TruncHour(stamps[0]) in grid then 1 else 0) + InGrid(stamps[1..], grid)
  }

  /** Every reading's bucket lies on the hour-aligned grid. */
  lemma {:induction false} EveryBucketInGrid(stamps: seq<int>, grid: seq<int>)
    requires |stamps| > 0
    requires grid == Grid(TruncHour(MinOf(stamps)), MaxOf(stamps))
    ensures forall t | t in stamps :: TruncHour(t) in grid
  {
    var start := TruncHour(MinOf(stamps));
    forall t | t in stamps ensures TruncHour(t) in grid {
      var h := TruncHour(t);
      var k := (h - start) / SecondsPerHour;
      assert start <= h by { HourMonotone(MinOf(stamps), t); }
      assert (h - start) % SecondsPerHour == 0;
      assert h == start + k * SecondsPerHour;
      assert h <= MaxOf(stamps);
      assert k < |grid|;
      assert grid[k] == h;
    }
  }

  lemma {:induction false} HourMonotone(a: int, b: int)
    requires a <= b
    ensures TruncHour(a) <= TruncHour(b)
  {
    var d := TruncHour(a) - TruncHour(b);
    assert d < SecondsPerHour;
    assert d % SecondsPerHour == 0;
    assert d == SecondsPerHour * (d / SecondsPerHour);
  }

  /** Summing the matches over distinct slots counts the readings whose
      bucket is among them. */
  lemma {:induction false} ActualCountsBuckets(stamps: seq<int>, grid: seq<int>)
    requires forall i, j | 0 <= i < j < |grid| :: grid[i] < grid[j]
    ensures ActualCount(stamps, grid) == InGrid(stamps, grid)
    decreases |grid|
  {
    if grid == [] {
      InGridEmpty(stamps);
    } else {
      assert forall i, j | 0 <= i < j < |grid[1..]| :: grid[1..][i] == grid[i + 1] && grid[1..][j] == grid[j + 1];
      ActualCountsBuckets(stamps, grid[1..]);
      assert grid[0] !in grid[1..];
      InGridSplit(stamps, grid);
    }
  }

  lemma {:induction false} InGridEmpty(stamps: seq<int>)
    ensures InGrid(stamps, []) == 0
  {
    if stamps != [] { InGridEmpty(stamps[1..]); }
  }

  lemma {:induction false} InGridSplit(stamps: seq<int>, grid: seq<int>)
    requires grid != [] && grid[0] !in grid[1..]
    ensures InGrid(stamps, grid) == Matches(stamps, grid[0]) + InGrid(stamps, grid[1..])
  {
    if stamps != [] {
      InGridSplit(stamps[1..], grid);
      assert TruncHour(stamps[0]) in grid <==> TruncHour(stamps[0]) == grid[0] || TruncHour(stamps[0]) in grid[1..];
    }
  }

  lemma {:induction false} InGridCountsAll(stamps: seq<int>, grid: seq<int>)
    requires forall t | t in stamps :: TruncHour(t) in grid
    ensures InGrid(stamps, grid) == |stamps|
  {
    if stamps != [] {
      assert forall t | t in stamps[1..] :: t in stamps;
      InGridCountsAll(stamps[1..], grid);
    }
  }

  /** A grid starting at `a` and one starting at `b` agree when `a == b`:
      for a group whose minimum is on the hour both computations coincide. */
  lemma {:induction false} AlignedGroupUnaffected(stamps: seq<int>)
    requires |stamps| > 0 && MinOf(stamps) % SecondsPerHour == 0
    ensures GroupGapsAsWritten(stamps) == GroupGaps(stamps)
  {
    assert TruncHour(MinOf(stamps)) == MinOf(stamps);
  }

  /** One sensor, one type, readings at hours 00, 01, 03 and 04 of the
      epoch day: five slots, four readings, one missing hour. */
  lemma {:induction false} WorkedExample()
    ensures GroupGaps([0, 3600, 10800, 14400]) == GapCounts(5, 4, 1)
    ensures GroupGapsAsWritten([0, 3600, 10800, 14400]) == GapCounts(5, 4, 1)
  {
    var stamps := [0, 3600, 10800, 14400];
    assert MinOf(stamps) == 0 && MaxOf(stamps) == 14400;
    assert TruncHour(0) == 0;
    HourGrid(0, 14400, 4);
    WorkedExampleSlots();
    AlignedGroupUnaffected(stamps);
  }

  /** A grid whose stop lies `hours` whole hours, and less than one more,
      after its start has `hours + 1` slots. */
  lemma {:induction false} HourGrid(start: int, stop: int, hours: nat)
    requires start + hours * SecondsPerHour <= stop < start + (hours + 1) * SecondsPerHour
    ensures |Grid(start, stop)| == hours + 1
  {
    var g := Grid(start, stop);
    assert g[|g| - 1] <= stop;
  }

  lemma {:induction false} WorkedExampleSlots()
    ensures EmptySlots(Grid(0, 14400), [0, 3600, 10800, 14400]) == [7200]
  {
    var stamps := [0, 3600, 10800, 14400];
    var grid := Grid(0, 14400);
    assert grid == [0, 3600, 7200, 10800, 14400];
    assert Matches(stamps, 7200) == 0;
    assert Matches(stamps, 0) == 1 && Matches(stamps, 3600) == 1;
    assert Matches(stamps, 10800) == 1 && Matches(stamps, 14400) == 1;
  }

  /** The same readings after the pipeline's +5h30m shift sit on the half
      hour. The query as written matches none of them and reports all five
      slots as missing. */
  lemma {:induction false} ShiftedExampleAsWritten()
    ensures GroupGapsAsWritten([19800, 23400, 30600, 34200]) == GapCounts(5, 0, 5)
  {
    var stamps := [19800, 23400, 30600, 34200];
    assert MinOf(stamps) == 19800 && MaxOf(stamps) == 34200;
    var raw := Grid(19800, 34200);
    assert |raw| == 5;
    UnalignedGridNeverMatches(stamps, raw, 19800);
    FilterKeepsAll(raw, (s: int) => Matches(stamps, s) == 0);
  }

  /** With the hour-aligned grid the shifted readings give back the counts
      of the unshifted ones: five slots, four readings, one missing hour. */
  lemma {:induction false} ShiftedExampleCorrected()
    ensures GroupGaps([19800, 23400, 30600, 34200]) == GapCounts(5, 4, 1)
  {
    var stamps := [19800, 23400, 30600, 34200];
    assert MinOf(stamps) == 19800 && MaxOf(stamps) == 34200;
    assert TruncHour(19800) == 18000;
    HourGrid(18000, 34200, 4);
    ShiftedExampleSlots();
  }

  lemma {:induction false} ShiftedExampleSlots()
    ensures EmptySlots(Grid(18000, 34200), [19800, 23400, 30600, 34200]) == [25200]
  {
    var stamps := [19800, 23400, 30600, 34200];
    var grid := Grid(18000, 34200);
    assert grid == [18000, 21600, 25200, 28800, 32400];
    assert TruncHour(19800) == 18000 && TruncHour(23400) == 21600;
    assert TruncHour(30600) == 28800 && TruncHour(34200) == 32400;
    assert Matches(stamps, 18000) == 1 && Matches(stamps, 21600) == 1;
    assert Matches(stamps, 28800) == 1 && Matches(stamps, 32400) == 1;
    assert Matches(stamps, 25200) == 0;
  }

  /** Readings taken on the hour, once shifted by the pipeline's time-zone
      offset, never match the grid the query builds: the report as written
      counts every slot of every such group as missing. */
  lemma {:induction false} ShiftedReadingsNeverMatch(raw: seq<int>)
    requires |raw| > 0 && forall t | t in raw :: t % SecondsPerHour == 0
    ensures var shifted := seq(|raw|, i requires 0 <= i < |raw| => raw[i] + Transform.TimezoneOffset);
      GroupGapsAsWritten(shifted).actualCount == 0
  {
    var shifted := seq(|raw|, i requires 0 <= i < |raw| => raw[i] + Transform.TimezoneOffset);
    var m := MinOf(shifted);
    var i :| 0 <= i < |shifted| && shifted[i] == m;
    assert raw[i] in raw;
    Transform.ShiftLeavesHalfHour(raw[i]);
    assert Transform.Shift(Transform.At(raw[i])).seconds == m;
  }

  datatype GroupKey = GroupKey(sensorId: string, readingType: string)

  function KeyOf(x: Record): GroupKey
  {
    GroupKey(x.sensorId, x.readingType)
  }

  function KeyIs(k: GroupKey): Record -> bool
  {
    (x: Record) => KeyOf(x) == k
  }

  /** The (sensor_id, reading_type) column pair. */
  function Keys(rs: seq<Record>): (r: seq<GroupKey>)
    ensures forall k | k in r :: exists x | x in rs :: KeyOf(x) == k
    ensures forall x | x in rs :: KeyOf(x) in r
  {
    if rs == [] then []
    else
      assert forall x | x in rs :: x == rs[0] || x in rs[1..];
      [KeyOf(rs[0])] + Keys(rs[1..])
  }

  /** The (sensor_id, reading_type) groups, each once, in order of first
      appearance. */
  function GroupKeys(rs: seq<Record>): (r: seq<GroupKey>)
    ensures NoDuplicates(r)
    ensures forall i | 0 <= i < |r| :: exists x | x in rs :: KeyOf(x) == r[i]
    ensures forall x | x in rs :: KeyOf(x) in r
  {
    var r := DedupeFrom(Keys(rs), {});
    assert forall i | 0 <= i < |r| :: r[i] in r;
    r
  }

  /** The timestamps of one group, in row order. */
  function GroupStamps(rs: seq<Record>, k: GroupKey): (r: seq<int>)
    ensures (exists x | x in rs :: KeyOf(x) == k) ==> |r| > 0
    ensures |r| == |Filter(rs, KeyIs(k))|
    ensures forall t | t in r :: exists x | x in rs :: KeyOf(x) == k && x.timestamp == t
  {
    if rs == [] then []
    else
      assert forall x | x in rs :: x == rs[0] || x in rs[1..];
      (if KeyOf(rs[0]) == k then [rs[0].timestamp] else []) + GroupStamps(rs[1..], k)
  }

  datatype GapRow = GapRow(sensorId: string, readingType: string, counts: GapCounts)

  /** The hourly-gap report as the query computes it: one row per group,
      carrying the counts over the grid from the group's raw minimum. */
  function HourlyGapsAsWritten(rs: seq<Record>): (r: seq<GapRow>)
    ensures |r| == |GroupKeys(rs)|
    ensures forall i | 0 <= i < |r| ::
      && GroupKey(r[i].sensorId, r[i].readingType) == GroupKeys(rs)[i]
      && |GroupStamps(rs, GroupKeys(rs)[i])| > 0
      && r[i].counts == GroupGapsAsWritten(GroupStamps(rs, GroupKeys(rs)[i]))
      && r[i].counts.expectedCount == r[i].counts.actualCount + r[i].counts.missingHours
      && r[i].counts.missingHours >= 0
  {
    var ks := GroupKeys(rs);
    seq(|ks|, i requires 0 <= i < |ks| =>
      GapRow(ks[i].sensorId, ks[i].readingType, GroupGapsAsWritten(GroupStamps(rs, ks[i]))))
  }

  /** The hourly-gap report with hour-aligned grids: one row per group, the
      counting identity holds and every record of the group is counted. */
  function HourlyGaps(rs: seq<Record>): (r: seq<GapRow>)
    ensures |r| == |GroupKeys(rs)|
    ensures forall i | 0 <= i < |r| ::
      && GroupKey(r[i].sensorId, r[i].readingType) == GroupKeys(rs)[i]
      && r[i].counts.expectedCount == r[i].counts.actualCount + r[i].counts.missingHours
      && r[i].counts.missingHours >= 0
      && r[i].counts.actualCount == |Filter(rs, KeyIs(GroupKeys(rs)[i]))|
  {
    var ks := GroupKeys(rs);
    seq(|ks|, i requires 0 <= i < |ks| =>
      GapRow(ks[i].sensorId, ks[i].readingType, GroupGaps(GroupStamps(rs, ks[i]))))
  }

  // ---------------------------------------------------------------------
  // validate_data_quality
  // ---------------------------------------------------------------------

  datatype QualityReport = QualityReport(
    typeValidation: TypeReport,
    rangeValidation: seq<RangeRow>,
    hourlyGaps: seq<GapRow>,
    missingValues: seq<MissingRow>,
    anomalyStats: seq<AnomalyRow>)

  /** `validate_data_quality`: the five sheets of the report. The gap
      sheet is the query's, over grids from each group's raw minimum
      (`HourlyGapsAsWritten`); the missing-value sheet is
      `MissingProfile`, with one row per type present. */
  function ValidateDataQuality(t: Table): (r: QualityReport)
    ensures r.typeValidation == TypeValidation(t)
    ensures r.rangeValidation == RangeValidation(t.records)
    ensures r.anomalyStats == AnomalyStats(t.records)
    ensures r.typeValidation.totalRecords == |t.records|
    ensures |r.rangeValidation| == |r.anomalyStats| == |ExpectedRange|
    ensures forall i | 0 <= i < |ExpectedRange| ::
      && r.rangeValidation[i].readingType == r.anomalyStats[i].readingType == ExpectedRange[i].0
      && r.anomalyStats[i].anomalies == r.rangeValidation[i].outOfRange
    ensures r.hourlyGaps == HourlyGapsAsWritten(t.records)
    ensures r.missingValues == MissingProfile(t.records)
  {
    AnomaliesAreOutOfRange(t.records);
    QualityReport(
      TypeValidation(t),
      RangeValidation(t.records),
      HourlyGapsAsWritten(t.records),
      MissingProfile(t.records),
      AnomalyStats(t.records))
  }

  /** A gap sheet with one row per group, in group order, has a row for
      the sensor and type of every record. */
  lemma {:induction false} GapSheetCoversGroups(rs: seq<Record>, sheet: seq<GapRow>)
    requires |sheet| == |GroupKeys(rs)|
    requires forall i | 0 <= i < |sheet| :: GroupKey(sheet[i].sensorId, sheet[i].readingType) == GroupKeys(rs)[i]
    ensures forall x | x in rs :: exists i | 0 <= i < |sheet| ::
      sheet[i].sensorId == x.sensorId && sheet[i].readingType == x.readingType
  {
    var ks := GroupKeys(rs);
    forall x | x in rs ensures exists i | 0 <= i < |sheet| ::
      sheet[i].sensorId == x.sensorId && sheet[i].readingType == x.readingType
    {
      assert KeyOf(x) in ks;
      var i :| 0 <= i < |ks| && ks[i] == KeyOf(x);
      assert GroupKey(sheet[i].sensorId, sheet[i].readingType) == KeyOf(x);
    }
  }

  /** The report with the hour-aligned gap grid: every other sheet is the
      query's, and the gap sheet is `HourlyGaps`, which counts every record
      of a group as a reading. */
  function ValidateDataQualityCorrected(t: Table): (r: QualityReport)
    ensures r.hourlyGaps == HourlyGaps(t.records)
    ensures r.(hourlyGaps := []) == ValidateDataQuality(t).(hourlyGaps := [])
  {
    ValidateDataQuality(t).(hourlyGaps := HourlyGaps(t.records))
  }

  /** When every reading is on the hour, every group's minimum is, and the
      report as written and the corrected one agree. */
  lemma {:induction false} AlignedReportsAgree(t: Table)
    requires forall x | x in t.records :: x.timestamp % SecondsPerHour == 0
    ensures ValidateDataQuality(t) == ValidateDataQualityCorrected(t)
  {
    var rs := t.records;
    var ks := GroupKeys(rs);
    var written, corrected := HourlyGapsAsWritten(rs), HourlyGaps(rs);
    forall i | 0 <= i < |ks| ensures written[i] == corrected[i] {
      var stamps := GroupStamps(rs, ks[i]);
      var m := MinOf(stamps);
      var x :| x in rs && KeyOf(x) == ks[i] && x.timestamp == m;
      AlignedGroupUnaffected(stamps);
    }
    assert written == corrected;
  }
}
