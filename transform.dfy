/** The per-file transformation pipeline of transform.py: cleaning, the
    fixed time-zone shift and the derived columns (calibrated value, day,
    daily average, 7-row rolling average, anomaly flag). Values are exact
    reals, timestamps whole seconds since the epoch. */
module Transform {
  import opened Wrappers
  import opened Seqs
  import opened Stats

  /** TIMEZONE_OFFSET: 5 hours 30 minutes, in seconds. */
  const TimezoneOffset: int := 5 * 3600 + 30 * 60
  const SecondsPerDay: int := 86400

  /** A timestamp cell: null (NaT), an instant, a non-null string that
      `pd.to_datetime` turns into NaT without raising (such as "" or "NaT"),
      or a cell that makes `pd.to_datetime` raise for its batch. */
  datatype Stamp = Missing | At(seconds: int) | NullText | Unparsable

  /** One row of a raw batch; every cell may be null. */
  datatype Reading = Reading(
    sensorId: Option<string>,
    timestamp: Stamp,
    readingType: Option<string>,
    value: Option<real>,
    batteryLevel: Option<real>)

  // ---------------------------------------------------------------------
  // Configuration tables
  // ---------------------------------------------------------------------

  /** EXPECTED_RANGE of transform.py: the closed physical-plausibility
      interval per reading type; other types have none. The types with a
      range are exactly the calibrated ones, and every range is a proper
      interval. */
  function PlausibleRange(readingType: string): (r: Option<(real, real)>)
    ensures r.Some? ==> r.value.0 < r.value.1
    ensures r.Some? <==> CalibrationFor(readingType) != Calibration(1.0, 0.0)
  {
    if readingType == "temperature" then Some((10.0, 50.0))
    else if readingType == "humidity" then Some((20.0, 90.0))
    else None
  }

  datatype Calibration = Calibration(multiplier: real, offset: real)

  /** CALIBRATION_PARAMS, with the pass-through default of `normalize_value`. */
  function CalibrationFor(readingType: string): (c: Calibration)
    ensures c.multiplier > 0.0
  {
    if readingType == "temperature" then Calibration(1.02, -0.5)
    else if readingType == "humidity" then Calibration(0.97, 1.0)
    else Calibration(1.0, 0.0)
  }

  /** `normalize_value`: the linear calibration of a raw value. A type
      without a plausible range has no calibration entry either, and
      passes through unchanged. */
  function NormalizeValue(readingType: string, value: real): (r: real)
    ensures PlausibleRange(readingType).None? ==> r == value
  {
    var c := CalibrationFor(readingType);
    value * c.multiplier + c.offset
  }

  /** The calibration is invertible: the raw value is recovered from the
      calibrated one with the same table entry. */
  lemma {:induction false} NormalizeRoundTrip(readingType: string, value: real)
    ensures var c := CalibrationFor(readingType);
      (NormalizeValue(readingType, value) - c.offset) / c.multiplier == value
  {
    var c := CalibrationFor(readingType);
    assert NormalizeValue(readingType, value) - c.offset == value * c.multiplier;
  }

  /** Calibration keeps the order of values of one reading type. */
  lemma {:induction false} NormalizeMonotone(readingType: string, v: real, w: real)
    requires v < w
    ensures NormalizeValue(readingType, v) < NormalizeValue(readingType, w)
  {
    var c := CalibrationFor(readingType);
    assert w * c.multiplier - v * c.multiplier == (w - v) * c.multiplier;
  }

  /** The calibration table, entry by entry; unknown types pass through. */
  lemma {:induction false} CalibrationTable(readingType: string, v: real)
    ensures readingType == "temperature" ==> NormalizeValue(readingType, v) == v * 1.02 - 0.5
    ensures readingType == "humidity" ==> NormalizeValue(readingType, v) == v * 0.97 + 1.0
    ensures readingType != "temperature" && readingType != "humidity" ==>
      NormalizeValue(readingType, v) == v
  {
  }

  /** `is_anomalous`: the raw value lies outside the closed plausible
      range; only a type with a range can be anomalous. */
  predicate IsAnomalous(readingType: string, value: real)
    ensures IsAnomalous(readingType, value) ==> PlausibleRange(readingType).Some?
  {
    match PlausibleRange(readingType)
    case None => false
    case Some(range) => !(range.0 <= value <= range.1)
  }

  /** The flag reads the raw value, not the calibrated one: a humidity of 91
      is flagged although it calibrates into range, and a temperature of 50
      is not flagged although it calibrates out of range. Types without a
      range are never flagged. */
  lemma {:induction false} AnomalyIgnoresCalibration(readingType: string, v: real)
    ensures IsAnomalous("humidity", 91.0) && !IsAnomalous("humidity", NormalizeValue("humidity", 91.0))
    ensures !IsAnomalous("temperature", 50.0) && IsAnomalous("temperature", NormalizeValue("temperature", 50.0))
    ensures PlausibleRange(readingType).None? ==> !IsAnomalous(readingType, v)
  {
  }

  // ---------------------------------------------------------------------
  // clean_data
  // ---------------------------------------------------------------------

  /** The columns `clean_data` requires to be non-null. */
  predicate HasCriticalFields(r: Reading)
  {
    r.sensorId.Some? && !r.timestamp.Missing? && r.readingType.Some? && r.value.Some?
  }

  /** The non-null values of the rows of one reading type, in row order:
      the group `groupby('reading_type')['value']` hands to the z-score. */
  function TypeValues(rows: seq<Reading>, readingType: string): (r: seq<real>)
    ensures |r| <= |rows|
    ensures forall x | x in rows && x.readingType == Some(readingType) && x.value.Some? ::
      x.value.value in r
  {
    if rows == [] then []
    else
      var head := rows[0];
      (if head.readingType == Some(readingType) && head.value.Some? then [head.value.value] else [])
      + TypeValues(rows[1..], readingType)
  }

  /** The outlier test of one row against its reading type's group in `rows`. */
  predicate PassesZScore(rows: seq<Reading>, r: Reading)
  {
    r.readingType.Some? && r.value.Some? &&
    WithinThreeSigma(TypeValues(rows, r.readingType.value), r.value.value)
  }

  /** `drop_duplicates()`: every row once, at its first occurrence. */
  function DropDuplicates(rows: seq<Reading>): (r: seq<Reading>)
    ensures forall x :: x in r <==> x in rows
    ensures NoDuplicates(r)
    ensures forall i, j | 0 <= i < j < |r| :: FirstIndex(rows, r[i]) < FirstIndex(rows, r[j])
  {
    DedupeFrom(rows, {})
  }

  /** `dropna(subset=[sensor_id, timestamp, reading_type, value])`. */
  function DropMissing(rows: seq<Reading>): (r: seq<Reading>)
    ensures forall x :: x in r <==> x in rows && HasCriticalFields(x)
    ensures SubseqOf(r, rows)
  {
    FilterIsSubseq(rows, HasCriticalFields);
    Filter(rows, HasCriticalFields)
  }

  /** The rows the z-score is computed over: distinct rows with no missing
      critical field, in the order of their first occurrence. */
  function Candidates(rows: seq<Reading>): (r: seq<Reading>)
    ensures forall x :: x in r <==> x in rows && HasCriticalFields(x)
    ensures NoDuplicates(r)
    ensures SubseqOf(r, DropDuplicates(rows))
  {
    SubseqNoDuplicates(DropMissing(DropDuplicates(rows)), DropDuplicates(rows));
    DropMissing(DropDuplicates(rows))
  }

  /** `clean_data`: drop duplicates, drop rows missing a critical field, then
      drop rows more than three standard deviations from their type's mean. */
  function CleanData(rows: seq<Reading>): (r: seq<Reading>)
    ensures SubseqOf(r, rows)
    ensures SubseqOf(r, DropDuplicates(rows))
    ensures NoDuplicates(r)
    ensures forall x | x in r ::
      x in rows && HasCriticalFields(x) &&
      WithinThreeSigma(TypeValues(Candidates(rows), x.readingType.value), x.value.value)
    ensures forall x | x in rows && HasCriticalFields(x) && PassesZScore(Candidates(rows), x) ::
      x in r
  {
    var distinct := DropDuplicates(rows);
    var complete := DropMissing(distinct);
    var kept := Filter(complete, (x: Reading) => PassesZScore(complete, x));
    FilterIsSubseq(distinct, HasCriticalFields);
    FilterIsSubseq(complete, (x: Reading) => PassesZScore(complete, x));
    SubseqTrans(complete, distinct, rows);
    SubseqTrans(kept, complete, rows);
    SubseqTrans(kept, complete, distinct);
    SubseqNoDuplicates(complete, distinct);
    SubseqNoDuplicates(kept, complete);
    kept
  }

  lemma {:induction false} TypeValuesConstant(rows: seq<Reading>, readingType: string, c: real)
    requires forall x | x in rows && x.readingType == Some(readingType) :: x.value == Some(c)
    ensures forall i | 0 <= i < |TypeValues(rows, readingType)| :: TypeValues(rows, readingType)[i] == c
  {
    if rows != [] {
      assert forall x | x in rows[1..] :: x in rows;
      TypeValuesConstant(rows[1..], readingType, c);
    }
  }

  /** The rows the z-score sees are rows of the batch with every critical field. */
  lemma {:induction false} CandidatesComplete(rows: seq<Reading>)
    ensures forall x | x in Candidates(rows) :: x in rows && HasCriticalFields(x)
  {
    var distinct := DropDuplicates(rows);
    assert forall x | x in Candidates(rows) :: x in distinct && HasCriticalFields(x);
  }

  /** When every complete row of a reading type carries the same value (in
      particular when the type has a single row) the group's standard
      deviation is zero or undefined, and cleaning removes the whole type. */
  lemma {:induction false} ConstantTypeDropped(rows: seq<Reading>, readingType: string, c: real)
    requires forall x | x in rows && HasCriticalFields(x) && x.readingType == Some(readingType) ::
      x.value == Some(c)
    ensures forall x | x in CleanData(rows) :: x.readingType != Some(readingType)
  {
    var cand := Candidates(rows);
    var group := TypeValues(cand, readingType);
    CandidatesComplete(rows);
    TypeValuesConstant(cand, readingType, c);
    if |group| > 0 {
      ConstantGroup(group, c);
    }
    assert !WithinThreeSigma(group, c);
  }

  /** Where a reading type has at most ten complete distinct rows and they do
      not all agree, cleaning keeps every one of them: no value can be more
      than (n-1)/sqrt(n) < 3 sample standard deviations from the mean. So a
      single extreme value among ten readings is never removed. */
  lemma {:induction false} SmallTypeGroupKept(rows: seq<Reading>, readingType: string)
    requires 2 <= |TypeValues(Candidates(rows), readingType)| <= 10
    requires SqDev(TypeValues(Candidates(rows), readingType), Mean(TypeValues(Candidates(rows), readingType))) > 0.0
    ensures forall x | x in Candidates(rows) && x.readingType == Some(readingType) :: x in CleanData(rows)
  {
    var cand := Candidates(rows);
    var group := TypeValues(cand, readingType);
    CandidatesComplete(rows);
    forall x | x in cand && x.readingType == Some(readingType)
      ensures x in CleanData(rows)
    {
      assert x.value.value in group;
      SmallGroupKeepsAll(group, x.value.value);
    }
  }

  // ---------------------------------------------------------------------
  // process_timestamps
  // ---------------------------------------------------------------------

  /** Parsing, then adding the offset to an instant: a string that parses
      to NaT becomes NaT, and NaT stays NaT. */
  function Shift(s: Stamp): (r: Stamp)
    ensures r.At? <==> s.At?
    ensures s.NullText? ==> r == Missing
    ensures s.Missing? || s.Unparsable? ==> r == s
    ensures s.At? ==> r.seconds - s.seconds == 19800
  {
    match s
    case At(t) => At(t + TimezoneOffset)
    case NullText => Missing
    case _ => s
  }

  /** `process_timestamps`: parse (raising on an unparsable string, since
      `pd.to_datetime` is called without `errors='coerce'`), then add 5h30m. */
  function ProcessTimestamps(rows: seq<Reading>): (r: Result<seq<Reading>>)
    ensures r.Success? <==> forall i | 0 <= i < |rows| :: !rows[i].timestamp.Unparsable?
    ensures r.Success? ==> |r.value| == |rows|
    ensures r.Success? ==> forall i | 0 <= i < |rows| ::
      r.value[i] == rows[i].(timestamp := Shift(rows[i].timestamp))
  {
    if exists i | 0 <= i < |rows| :: rows[i].timestamp.Unparsable? then
      Failure("unparsable timestamp")
    else
      Success(seq(|rows|, i requires 0 <= i < |rows| => rows[i].(timestamp := Shift(rows[i].timestamp))))
  }

  /** Every instant moves by exactly 19800 seconds, and shifting back
      recovers it. */
  lemma {:induction false} ShiftIsExact(t: int)
    ensures Shift(At(t)) == At(t + 19800)
    ensures Shift(At(t)).seconds - TimezoneOffset == t
  {
  }

  /** A reading taken on the hour is no longer on the hour after the shift:
      it lands on the half hour. */
  lemma {:induction false} ShiftLeavesHalfHour(t: int)
    requires t % 3600 == 0
    ensures Shift(At(t)).seconds % 3600 == 1800
  {
    assert t + TimezoneOffset == (t / 3600 + 5) * 3600 + 1800;
  }

  // ---------------------------------------------------------------------
  // add_derived_fields
  // ---------------------------------------------------------------------

  /** A row after parsing and calibration, before the group columns. */
  datatype Base = Base(
    sensorId: string,
    timestamp: int,
    readingType: string,
    value: real,
    batteryLevel: Option<real>,
    normalizedValue: real,
    date: int)

  /** A row with its daily average merged in. */
  datatype Merged = Merged(base: Base, dailyAvg: real)

  /** A row of the transformed batch. */
  datatype Derived = Derived(base: Base, dailyAvg: real, rolling7dAvg: real, anomalousReading: bool)

  predicate IsParsed(r: Reading)
  {
    r.timestamp.At?
  }

  /** The columns `add_derived_fields` reads besides the timestamp. */
  predicate Derivable(r: Reading)
  {
    r.sensorId.Some? && r.readingType.Some? && r.value.Some?
  }

  /** Calibrated value and day number of one parsed row. The day is the
      floor of the seconds by 86400, the day index of the civil date. */
  function ToBase(r: Reading): (b: Base)
    requires Derivable(r) && IsParsed(r)
    ensures b.normalizedValue == NormalizeValue(b.readingType, b.value)
    ensures b.date * SecondsPerDay <= b.timestamp < (b.date + 1) * SecondsPerDay
  {
    Base(r.sensorId.value, r.timestamp.seconds, r.readingType.value, r.value.value, r.batteryLevel,
         NormalizeValue(r.readingType.value, r.value.value), r.timestamp.seconds / SecondsPerDay)
  }

  /** `dropna(subset=['timestamp'])` followed by the per-row columns. */
  function ToBases(rows: seq<Reading>): (r: seq<Base>)
    requires forall x | x in rows :: Derivable(x)
    ensures |r| == |Filter(rows, IsParsed)|
    ensures forall x | x in rows && IsParsed(x) :: ToBase(x) in r
    ensures forall b | b in r :: b.normalizedValue == NormalizeValue(b.readingType, b.value)
    ensures forall b | b in r :: exists x | x in rows && IsParsed(x) :: b == ToBase(x)
  {
    if rows == [] then []
    else
      var rest := ToBases(rows[1..]);
      if IsParsed(rows[0]) then [ToBase(rows[0])] + rest else rest
  }

  // --- daily_avg -------------------------------------------------------

  datatype DailyKey = DailyKey(sensorId: string, readingType: string, date: int)

  function KeyOf(b: Base): DailyKey
  {
    DailyKey(b.sensorId, b.readingType, b.date)
  }

  function KeysOf(bs: seq<Base>): (r: seq<DailyKey>)
    ensures |r| == |bs|
    ensures forall i | 0 <= i < |bs| :: r[i] == KeyOf(bs[i])
  {
    if bs == [] then [] else [KeyOf(bs[0])] + KeysOf(bs[1..])
  }

  /** The calibrated values of one (sensor, type, day) group, in row order. */
  function GroupValues(bs: seq<Base>, k: DailyKey): (r: seq<real>)
    ensures k in KeysOf(bs) ==> |r| > 0
  {
    if bs == [] then []
    else (if KeyOf(bs[0]) == k then [bs[0].normalizedValue] else []) + GroupValues(bs[1..], k)
  }

  /** The `groupby(...).mean().reset_index()` table: each key of the batch
      at most once, carrying its group's mean (`KeyInTable` shows every key
      of the batch is there). */
  function DailyTable(bs: seq<Base>): (t: seq<(DailyKey, real)>)
    ensures forall i | 0 <= i < |t| :: t[i].0 in KeysOf(bs) && t[i].1 == Mean(GroupValues(bs, t[i].0))
    ensures DistinctKeys(t)
  {
    var ks := DedupeFrom(KeysOf(bs), {});
    seq(|ks|, i requires 0 <= i < |ks| => (ks[i], Mean(GroupValues(bs, ks[i]))))
  }

  /** The table entries whose key is `k`. */
  function Matches(table: seq<(DailyKey, real)>, k: DailyKey): seq<real>
  {
    if table == [] then []
    else (if table[0].0 == k then [table[0].1] else []) + Matches(table[1..], k)
  }

  /** `pd.merge(df, daily_avg, how='left')`: every left row once per
      matching table entry, in left order. A left row without an entry
      would be dropped here, where pandas keeps it with NaN, so this is the
      left join only for a table that covers every key, as the daily table
      does (`KeyListed`). */
  function LeftMerge(bs: seq<Base>, table: seq<(DailyKey, real)>): (r: seq<Merged>)
    ensures forall m | m in r :: m.base in bs && m.dailyAvg in Matches(table, KeyOf(m.base))
  {
    if bs == [] then []
    else
      var ms := Matches(table, KeyOf(bs[0]));
      seq(|ms|, j requires 0 <= j < |ms| => Merged(bs[0], ms[j])) + LeftMerge(bs[1..], table)
  }

  /** Daily averages broadcast back onto the rows: the merge neither adds nor
      removes rows, and every row receives the mean calibrated value of all
      rows sharing its sensor, type and day. */
  function MergeDailyAverages(bs: seq<Base>): (r: seq<Merged>)
    ensures |r| == |bs|
    ensures forall i | 0 <= i < |bs| ::
      r[i].base == bs[i] && r[i].dailyAvg == Mean(GroupValues(bs, KeyOf(bs[i])))
  {
    var table := DailyTable(bs);
    MatchesInTable(bs);
    LeftMergeOneToOne(bs, table);
    LeftMerge(bs, table)
  }

  /** The keys of a table are pairwise distinct. */
  predicate DistinctKeys(table: seq<(DailyKey, real)>)
  {
    forall i, j | 0 <= i < j < |table| :: table[i].0 != table[j].0
  }

  lemma {:induction false} MatchesUnique(table: seq<(DailyKey, real)>, k: DailyKey, v: real)
    requires DistinctKeys(table)
    requires exists i | 0 <= i < |table| :: table[i] == (k, v)
    ensures Matches(table, k) == [v]
  {
    var t := table[1..];
    assert DistinctKeys(t) by {
      forall i, j | 0 <= i < j < |t| ensures t[i].0 != t[j].0 {
        assert t[i] == table[i + 1] && t[j] == table[j + 1];
      }
    }
    if table[0] == (k, v) {
      forall i | 0 <= i < |t| ensures t[i].0 != k {
        assert t[i] == table[i + 1];
      }
      MatchesAbsent(t, k);
    } else {
      var i :| 0 <= i < |table| && table[i] == (k, v);
      assert i > 0 && table[0].0 != k;
      assert t[i - 1] == (k, v);
      MatchesUnique(t, k, v);
    }
  }

  lemma {:induction false} MatchesAbsent(table: seq<(DailyKey, real)>, k: DailyKey)
    requires forall i | 0 <= i < |table| :: table[i].0 != k
    ensures Matches(table, k) == []
  {
    if table != [] {
      assert forall i | 0 <= i < |table[1..]| :: table[1..][i] == table[i + 1];
      MatchesAbsent(table[1..], k);
    }
  }

  /** Every key of the batch has exactly one table entry: its group mean. */
  lemma {:induction false} MatchesInTable(bs: seq<Base>)
    ensures forall b | b in bs :: Matches(DailyTable(bs), KeyOf(b)) == [Mean(GroupValues(bs, KeyOf(b)))]
  {
    forall b | b in bs ensures Matches(DailyTable(bs), KeyOf(b)) == [Mean(GroupValues(bs, KeyOf(b)))] {
      var i :| 0 <= i < |bs| && bs[i] == b;
      KeyInTable(bs, i);
    }
  }

  lemma {:induction false} KeyInTable(bs: seq<Base>, i: nat)
    requires i < |bs|
    ensures Matches(DailyTable(bs), KeyOf(bs[i])) == [Mean(GroupValues(bs, KeyOf(bs[i])))]
  {
    var k := KeyOf(bs[i]);
    var table := DailyTable(bs);
    var j := KeyListed(bs, i);
    assert table[j] == (k, Mean(GroupValues(bs, k)));
    MatchesUnique(table, k, Mean(GroupValues(bs, k)));
  }

  /** The key of row i has an entry in the daily table. */
  lemma {:induction false} KeyListed(bs: seq<Base>, i: nat) returns (j: nat)
    requires i < |bs|
    ensures j < |DailyTable(bs)| && DailyTable(bs)[j].0 == KeyOf(bs[i])
  {
    var ks := DedupeFrom(KeysOf(bs), {});
    assert KeysOf(bs)[i] == KeyOf(bs[i]);
    assert KeyOf(bs[i]) in ks;
    j :| 0 <= j < |ks| && ks[j] == KeyOf(bs[i]);
  }

  /** A left merge against a table holding exactly one entry per left key
      keeps the left rows, in order, each with its entry. */
  lemma {:induction false} LeftMergeOneToOne(bs: seq<Base>, table: seq<(DailyKey, real)>)
    requires forall b | b in bs :: |Matches(table, KeyOf(b))| == 1
    ensures |LeftMerge(bs, table)| == |bs|
    ensures forall i | 0 <= i < |bs| ::
      LeftMerge(bs, table)[i] == Merged(bs[i], Matches(table, KeyOf(bs[i]))[0])
  {
    if bs != [] {
      var tl := LeftMerge(bs[1..], table);
      assert forall b | b in bs[1..] :: b in bs;
      LeftMergeOneToOne(bs[1..], table);
      var m := LeftMergeHead(bs, table);
      forall i | 0 <= i < |bs|
        ensures LeftMerge(bs, table)[i] == Merged(bs[i], Matches(table, KeyOf(bs[i]))[0])
      {
        if i > 0 {
          assert bs[i] == bs[1..][i - 1];
          assert LeftMerge(bs, table)[i] == tl[i - 1];
        }
      }
    }
  }

  /** The first row of a left merge, when its key has one entry. */
  lemma {:induction false} LeftMergeHead(bs: seq<Base>, table: seq<(DailyKey, real)>) returns (m: Merged)
    requires bs != [] && |Matches(table, KeyOf(bs[0]))| == 1
    ensures m == Merged(bs[0], Matches(table, KeyOf(bs[0]))[0])
    ensures LeftMerge(bs, table) == [m] + LeftMerge(bs[1..], table)
  {
    var ms := Matches(table, KeyOf(bs[0]));
    m := Merged(bs[0], ms[0]);
    var head := seq(|ms|, j requires 0 <= j < |ms| => Merged(bs[0], ms[j]));
    assert head == [m];
  }

  // --- sort_values(['sensor_id', 'timestamp']) ------------------------

  /** Python's string order: lexicographic by code point. */
  predicate StrLess(a: string, b: string)
  {
    if a == [] then b != []
    else if b == [] then false
    else if a[0] == b[0] then StrLess(a[1..], b[1..])
    else a[0] < b[0]
  }

  lemma {:induction false} StrLessIrreflexive(a: string)
    ensures !StrLess(a, a)
  {
    if a != [] { StrLessIrreflexive(a[1..]); }
  }

  lemma {:induction false} StrLessTransitive(a: string, b: string, c: string)
    requires StrLess(a, b) && StrLess(b, c)
    ensures StrLess(a, c)
  {
    if a != [] && b != [] && c != [] && a[0] == b[0] && b[0] == c[0] {
      StrLessTransitive(a[1..], b[1..], c[1..]);
    }
  }

  lemma {:induction false} StrLessTotal(a: string, b: string)
    requires a != b
    ensures StrLess(a, b) || StrLess(b, a)
  {
    if a != [] && b != [] && a[0] == b[0] {
      assert a == [a[0]] + a[1..] && b == [b[0]] + b[1..];
      StrLessTotal(a[1..], b[1..]);
    }
  }

  /** The sort key order on (sensor_id, timestamp). */
  predicate SortsBefore(x: Base, y: Base)
  {
    StrLess(x.sensorId, y.sensorId) || (x.sensorId == y.sensorId && x.timestamp <= y.timestamp)
  }

  lemma {:induction false} SortsBeforeTotal(x: Base, y: Base)
    ensures SortsBefore(x, y) || SortsBefore(y, x)
  {
    if x.sensorId != y.sensorId { StrLessTotal(x.sensorId, y.sensorId); }
  }

  lemma {:induction false} SortsBeforeTransitive(x: Base, y: Base, z: Base)
    requires SortsBefore(x, y) && SortsBefore(y, z)
    ensures SortsBefore(x, z)
  {
    if StrLess(x.sensorId, y.sensorId) && StrLess(y.sensorId, z.sensorId) {
      StrLessTransitive(x.sensorId, y.sensorId, z.sensorId);
    }
  }

  predicate Sorted(s: seq<Merged>)
  {
    forall i, j | 0 <= i < j < |s| :: SortsBefore(s[i].base, s[j].base)
  }

  /** Inserts `x` before the first row it sorts before or ties with. */
  function Insert(x: Merged, s: seq<Merged>): (r: seq<Merged>)
    requires Sorted(s)
    ensures Sorted(r)
    ensures multiset(r) == multiset(s) + multiset{x}
  {
    if s == [] then [x]
    else if SortsBefore(x.base, s[0].base) then
      LeadsSorted(x, s);
      ConsSorted(x, s);
      [x] + s
    else
      var rest := Insert(x, s[1..]);
      assert s == [s[0]] + s[1..];
      HeadLeadsInsert(x, s, rest);
      ConsSorted(s[0], rest);
      [s[0]] + rest
  }

  /** A row sorting before the head of a sorted sequence sorts before all of it. */
  lemma {:induction false} LeadsSorted(x: Merged, s: seq<Merged>)
    requires Sorted(s) && s != [] && SortsBefore(x.base, s[0].base)
    ensures forall k | 0 <= k < |s| :: SortsBefore(x.base, s[k].base)
  {
    forall k | 1 <= k < |s| ensures SortsBefore(x.base, s[k].base) {
      SortsBeforeTransitive(x.base, s[0].base, s[k].base);
    }
  }

  /** When `x` does not sort before the head, the head sorts before every
      row of the insertion into the tail. */
  lemma {:induction false} HeadLeadsInsert(x: Merged, s: seq<Merged>, rest: seq<Merged>)
    requires Sorted(s) && s != [] && !SortsBefore(x.base, s[0].base)
    requires multiset(rest) == multiset(s[1..]) + multiset{x}
    ensures forall k | 0 <= k < |rest| :: SortsBefore(s[0].base, rest[k].base)
  {
    SortsBeforeTotal(x.base, s[0].base);
    forall k | 0 <= k < |rest| ensures SortsBefore(s[0].base, rest[k].base) {
      assert rest[k] in multiset(rest);
      assert rest[k] == x || rest[k] in s[1..];
    }
  }

  /** A row that sorts before every row of a sorted sequence can lead it. */
  lemma {:induction false} ConsSorted(h: Merged, t: seq<Merged>)
    requires Sorted(t)
    requires forall k | 0 <= k < |t| :: SortsBefore(h.base, t[k].base)
    ensures Sorted([h] + t)
  {
    var r := [h] + t;
    forall i, j | 0 <= i < j < |r| ensures SortsBefore(r[i].base, r[j].base) {
      if i == 0 {
        assert r[j] == t[j - 1];
      } else {
        assert r[i] == t[i - 1] && r[j] == t[j - 1];
      }
    }
  }

  /** A stable insertion sort by (sensor_id, timestamp). */
  function SortByKey(s: seq<Merged>): (r: seq<Merged>)
    ensures Sorted(r)
    ensures multiset(r) == multiset(s)
  {
    if s == [] then []
    else
      assert s == [s[0]] + s[1..];
      Insert(s[0], SortByKey(s[1..]))
  }

  // --- stability --------------------------------------------------------

  /** The rows whose sort key is (sensorId, timestamp), in order. */
  function KeyRows(bs: seq<Base>, sensorId: string, timestamp: int): seq<Base>
  {
    if bs == [] then []
    else
      (if bs[0].sensorId == sensorId && bs[0].timestamp == timestamp then [bs[0]] else [])
        + KeyRows(bs[1..], sensorId, timestamp)
  }

  lemma {:induction false} BasesOfCons(m: Merged, s: seq<Merged>)
    ensures BasesOf([m] + s) == [m.base] + BasesOf(s)
  {
    assert ([m] + s)[1..] == s;
  }

  lemma {:induction false} KeyRowsCons(b: Base, bs: seq<Base>, sensorId: string, timestamp: int)
    ensures KeyRows([b] + bs, sensorId, timestamp) == KeyRows([b], sensorId, timestamp) + KeyRows(bs, sensorId, timestamp)
  {
    assert ([b] + bs)[1..] == bs;
    assert [b][1..] == [];
  }

  lemma {:induction false} ConsKeyRows(m: Merged, s: seq<Merged>, sensorId: string, timestamp: int)
    ensures KeyRows(BasesOf([m] + s), sensorId, timestamp)
      == KeyRows([m.base], sensorId, timestamp) + KeyRows(BasesOf(s), sensorId, timestamp)
  {
    BasesOfCons(m, s);
    KeyRowsCons(m.base, BasesOf(s), sensorId, timestamp);
  }

  /** Insertion puts the new row in front of every row with its key. */
  lemma {:induction false} InsertStable(x: Merged, s: seq<Merged>, sensorId: string, timestamp: int)
    requires Sorted(s)
    ensures KeyRows(BasesOf(Insert(x, s)), sensorId, timestamp)
      == KeyRows([x.base], sensorId, timestamp) + KeyRows(BasesOf(s), sensorId, timestamp)
  {
    if s == [] {
      ConsKeyRows(x, s, sensorId, timestamp);
    } else if SortsBefore(x.base, s[0].base) {
      ConsKeyRows(x, s, sensorId, timestamp);
    } else {
      var rest := InsertBehind(x, s);
      var head := KeyRows([s[0].base], sensorId, timestamp);
      var mine := KeyRows([x.base], sensorId, timestamp);
      var tail := KeyRows(BasesOf(s[1..]), sensorId, timestamp);
      InsertStable(x, s[1..], sensorId, timestamp);
      ConsKeyRows(s[0], rest, sensorId, timestamp);
      ConsKeyRows(s[0], s[1..], sensorId, timestamp);
      TiedKeysOrdered(x.base, s[0].base, sensorId, timestamp);
      SwapEmpty(head, mine, tail);
    }
  }

  lemma {:induction false} SwapEmpty(a: seq<Base>, b: seq<Base>, c: seq<Base>)
    requires a == [] || b == []
    ensures a + (b + c) == b + (a + c)
  {
    if a == [] {
      assert a + (b + c) == b + c == b + (a + c);
    } else {
      assert a + (b + c) == a + c == b + (a + c);
    }
  }

  /** A row that does not sort before the head is inserted behind it. */
  lemma {:induction false} InsertBehind(x: Merged, s: seq<Merged>) returns (rest: seq<Merged>)
    requires Sorted(s) && s != [] && !SortsBefore(x.base, s[0].base)
    ensures Sorted(s[1..]) && rest == Insert(x, s[1..])
    ensures Insert(x, s) == [s[0]] + rest && s == [s[0]] + s[1..]
  {
    rest := Insert(x, s[1..]);
  }

  /** Two rows in strict key order do not both carry the same key. */
  lemma {:induction false} TiedKeysOrdered(x: Base, y: Base, sensorId: string, timestamp: int)
    requires !SortsBefore(x, y)
    ensures KeyRows([x], sensorId, timestamp) == [] || KeyRows([y], sensorId, timestamp) == []
  {
    assert [x][1..] == [] && [y][1..] == [];
  }

  /** The sort is stable: rows with equal (sensor_id, timestamp) keep their
      input order. */
  lemma {:induction false} SortByKeyStable(s: seq<Merged>, sensorId: string, timestamp: int)
    ensures KeyRows(BasesOf(SortByKey(s)), sensorId, timestamp) == KeyRows(BasesOf(s), sensorId, timestamp)
  {
    if s != [] {
      SortByKeyStable(s[1..], sensorId, timestamp);
      InsertStable(s[0], SortByKey(s[1..]), sensorId, timestamp);
      assert s == [s[0]] + s[1..];
      BasesOfCons(s[0], s[1..]);
      KeyRowsCons(s[0].base, BasesOf(s[1..]), sensorId, timestamp);
    }
  }

  /** Permuting rows permutes their bases: every row keeps its base, once. */
  lemma {:induction false} PermutedBases(a: seq<Merged>, b: seq<Merged>)
    requires multiset(a) == multiset(b)
    ensures multiset(BasesOf(a)) == multiset(BasesOf(b))
  {
    var base := (m: Merged) => m.base;
    PermutedMap(base, a, b);
    assert BasesOf(a) == MapSeq(base, a);
    assert BasesOf(b) == MapSeq(base, b);
  }

  // --- rolling_7d_avg --------------------------------------------------

  /** The calibrated values of one sensor's rows, in row order. */
  function SensorValues(bs: seq<Base>, sensorId: string): seq<real>
  {
    if bs == [] then []
    else (if bs[0].sensorId == sensorId then [bs[0].normalizedValue] else []) + SensorValues(bs[1..], sensorId)
  }

  lemma {:induction false} SensorValuesConcat(a: seq<Base>, b: seq<Base>, sensorId: string)
    ensures SensorValues(a + b, sensorId) == SensorValues(a, sensorId) + SensorValues(b, sensorId)
  {
    if a == [] {
      assert a + b == b;
    } else {
      assert (a + b)[0] == a[0] && (a + b)[1..] == a[1..] + b;
      var head := if a[0].sensorId == sensorId then [a[0].normalizedValue] else [];
      assert SensorValues(a + b, sensorId) == head + SensorValues(a[1..] + b, sensorId);
      assert SensorValues(a, sensorId) == head + SensorValues(a[1..], sensorId);
      SensorValuesConcat(a[1..], b, sensorId);
    }
  }

  function Max(a: int, b: int): int { if a < b then b else a }

  /** `rolling(window=7, min_periods=1).mean()` over one series. */
  function RollingMeans(xs: seq<real>): (r: seq<real>)
    ensures |r| == |xs|
  {
    seq(|xs|, i requires 0 <= i < |xs| => Mean(xs[Max(0, i - 6)..i + 1]))
  }

  /** The last seven (or fewer) values of a non-empty series. */
  function LastSeven(xs: seq<real>): seq<real>
    requires |xs| > 0
  {
    xs[Max(0, |xs| - 7)..]
  }

  function BasesOf(s: seq<Merged>): (r: seq<Base>)
    ensures |r| == |s|
    ensures forall i | 0 <= i < |s| :: r[i] == s[i].base
  {
    if s == [] then [] else [s[0].base] + BasesOf(s[1..])
  }

  /** The rolling value pandas assigns to row j: the rolling mean of the
      row's sensor series at the row's rank within that series. It is the
      mean of the last seven (or fewer) values of that sensor up to and
      including row j. */
  function RollingAt(bs: seq<Base>, j: int): (v: real)
    requires 0 <= j < |bs|
    ensures |SensorValues(bs[..j + 1], bs[j].sensorId)| > 0
    ensures v == Mean(LastSeven(SensorValues(bs[..j + 1], bs[j].sensorId)))
  {
    RollingAtRank(bs, j);
    RollingMeans(SensorValues(bs, bs[j].sensorId))[|SensorValues(bs[..j], bs[j].sensorId)|]
  }

  /** `groupby('sensor_id')['normalized_value'].transform(rolling mean)`.
      Reading types are not separated: a sensor's series mixes them. */
  function RollingColumn(bs: seq<Base>): (r: seq<real>)
    ensures |r| == |bs|
    ensures forall j | 0 <= j < |bs| ::
      |SensorValues(bs[..j + 1], bs[j].sensorId)| > 0 &&
      r[j] == Mean(LastSeven(SensorValues(bs[..j + 1], bs[j].sensorId)))
  {
    var r := seq(|bs|, j requires 0 <= j < |bs| => RollingAt(bs, j));
    assert forall j | 0 <= j < |bs| ::
      r[j] == RollingAt(bs, j) && |SensorValues(bs[..j + 1], bs[j].sensorId)| > 0;
    r
  }

  /** The rank of row j within its sensor's series is the number of earlier
      rows of that sensor, and the rolling mean at that rank is the mean of
      the last seven values of the series up to and including row j. */
  lemma {:induction false} RollingAtRank(bs: seq<Base>, j: nat)
    requires j < |bs|
    ensures |SensorValues(bs[..j], bs[j].sensorId)| < |SensorValues(bs, bs[j].sensorId)|
    ensures var id := bs[j].sensorId;
      var upTo := SensorValues(bs[..j + 1], id);
      |upTo| > 0 &&
      RollingMeans(SensorValues(bs, id))[|SensorValues(bs[..j], id)|] == Mean(LastSeven(upTo))
  {
    var id := bs[j].sensorId;
    var all := SensorValues(bs, id);
    var before := SensorValues(bs[..j], id);
    var upTo := SensorValues(bs[..j + 1], id);
    assert bs[..j + 1] == bs[..j] + [bs[j]];
    SensorValuesConcat(bs[..j], [bs[j]], id);
    assert upTo == before + [bs[j].normalizedValue];
    assert bs == bs[..j + 1] + bs[j + 1..];
    SensorValuesConcat(bs[..j + 1], bs[j + 1..], id);
    assert all[..|upTo|] == upTo;
    var i := |before|;
    assert all[Max(0, i - 6)..i + 1] == upTo[Max(0, |upTo| - 7)..];
  }

  /** Sorting the merged rows keeps, row for row, a batch row and its
      daily average. */
  lemma {:induction false} SortedKeepsAverages(bs: seq<Base>, sorted: seq<Merged>)
    requires multiset(sorted) == multiset(MergeDailyAverages(bs))
    ensures |sorted| == |bs|
    ensures forall i | 0 <= i < |sorted| ::
      sorted[i].base in bs && sorted[i].dailyAvg == Mean(GroupValues(bs, KeyOf(sorted[i].base)))
  {
    var merged := MergeDailyAverages(bs);
    assert |sorted| == |merged| by {
      assert |multiset(sorted)| == |multiset(merged)|;
    }
    forall i | 0 <= i < |sorted|
      ensures sorted[i].base in bs && sorted[i].dailyAvg == Mean(GroupValues(bs, KeyOf(sorted[i].base)))
    {
      assert sorted[i] in multiset(merged);
      var k :| 0 <= k < |merged| && merged[k] == sorted[i];
    }
  }

  /** `add_derived_fields`: drop unparsed timestamps, calibrate, date, merge
      the daily averages, sort by (sensor_id, timestamp), add the rolling
      average and the anomaly flag. */
  function AddDerivedFields(rows: seq<Reading>): (r: seq<Derived>)
    requires forall x | x in rows :: Derivable(x)
    ensures |r| == |Filter(rows, IsParsed)|
    ensures forall i, j | 0 <= i < j < |r| :: SortsBefore(r[i].base, r[j].base)
    ensures forall i | 0 <= i < |r| ::
      && r[i].base in ToBases(rows)
      && r[i].base.normalizedValue == NormalizeValue(r[i].base.readingType, r[i].base.value)
      && r[i].dailyAvg == Mean(GroupValues(ToBases(rows), KeyOf(r[i].base)))
      && r[i].anomalousReading == IsAnomalous(r[i].base.readingType, r[i].base.value)
    ensures forall j | 0 <= j < |r| ::
      var upTo := SensorValues(DerivedBases(r)[..j + 1], r[j].base.sensorId);
      |upTo| > 0 && r[j].rolling7dAvg == Mean(LastSeven(upTo))
    ensures multiset(DerivedBases(r)) == multiset(ToBases(rows))
    ensures forall sensorId: string, timestamp: int ::
      KeyRows(DerivedBases(r), sensorId, timestamp) == KeyRows(ToBases(rows), sensorId, timestamp)
  {
    var bs := ToBases(rows);
    var sorted := SortByKey(MergeDailyAverages(bs));
    SortedKeepsAverages(bs, sorted);
    DeriveRowsRolling(sorted);
    DeriveKeepsRows(bs);
    DeriveKeepsTies(bs);
    DeriveRows(sorted)
  }

  /** Merging, sorting and deriving keep every base row exactly once. */
  lemma {:induction false} DeriveKeepsRows(bs: seq<Base>)
    ensures multiset(DerivedBases(DeriveRows(SortByKey(MergeDailyAverages(bs))))) == multiset(bs)
  {
    var merged := MergeDailyAverages(bs);
    var sorted := SortByKey(merged);
    PermutedBases(sorted, merged);
    assert BasesOf(merged) == bs;
    assert DerivedBases(DeriveRows(sorted)) == BasesOf(sorted);
  }

  /** Rows with equal (sensor_id, timestamp) come out in their input order. */
  lemma {:induction false} DeriveKeepsTies(bs: seq<Base>)
    ensures forall sensorId: string, timestamp: int ::
      KeyRows(DerivedBases(DeriveRows(SortByKey(MergeDailyAverages(bs)))), sensorId, timestamp)
        == KeyRows(bs, sensorId, timestamp)
  {
    var merged := MergeDailyAverages(bs);
    var sorted := SortByKey(merged);
    assert BasesOf(merged) == bs;
    assert DerivedBases(DeriveRows(sorted)) == BasesOf(sorted);
    forall sensorId: string, timestamp: int
      ensures KeyRows(BasesOf(sorted), sensorId, timestamp) == KeyRows(bs, sensorId, timestamp)
    {
      SortByKeyStable(merged, sensorId, timestamp);
    }
  }

  /** The sorted rows with the rolling average and the anomaly flag added. */
  function DeriveRows(sorted: seq<Merged>): (r: seq<Derived>)
    ensures |r| == |sorted|
    ensures forall i | 0 <= i < |r| ::
      && r[i].base == sorted[i].base
      && r[i].dailyAvg == sorted[i].dailyAvg
      && r[i].anomalousReading == IsAnomalous(sorted[i].base.readingType, sorted[i].base.value)
  {
    var rolling := RollingColumn(BasesOf(sorted));
    seq(|sorted|, i requires 0 <= i < |sorted| =>
      Derived(sorted[i].base, sorted[i].dailyAvg, rolling[i],
              IsAnomalous(sorted[i].base.readingType, sorted[i].base.value)))
  }

  /** Each derived row's rolling average is the mean of the last seven (or
      fewer) values of its sensor up to and including that row. */
  lemma {:induction false} DeriveRowsRolling(sorted: seq<Merged>)
    ensures var r := DeriveRows(sorted);
      forall j | 0 <= j < |r| ::
        var upTo := SensorValues(DerivedBases(r)[..j + 1], r[j].base.sensorId);
        |upTo| > 0 && r[j].rolling7dAvg == Mean(LastSeven(upTo))
  {
    var r := DeriveRows(sorted);
    var rolling := RollingColumn(BasesOf(sorted));
    assert DerivedBases(r) == BasesOf(sorted);
    assert forall j | 0 <= j < |r| :: r[j].rolling7dAvg == rolling[j];
  }

  /** The base rows of a derived batch: those of the merged rows it was
      derived from. */
  function DerivedBases(s: seq<Derived>): (r: seq<Base>)
    ensures |r| == |s|
    ensures forall i | 0 <= i < |s| :: r[i] == s[i].base
  {
    BasesOf(seq(|s|, i requires 0 <= i < |s| => Merged(s[i].base, s[i].dailyAvg)))
  }

  // ---------------------------------------------------------------------
  // transform_file
  // ---------------------------------------------------------------------

  /** `transform_file`: clean, shift the timestamps, derive the columns, in
      that order. Raises exactly when a cleaned row holds an unparsable
      timestamp; otherwise one row comes out per cleaned row whose timestamp
      is an instant, and a cleaned row whose string parses to NaT is lost. */
  function TransformFile(rows: seq<Reading>): (r: Result<seq<Derived>>)
    ensures r.Success? <==> forall x | x in CleanData(rows) :: !x.timestamp.Unparsable?
    ensures r.Success? ==> |r.value| == |Filter(CleanData(rows), IsParsed)|
    ensures r.Success? ==>
      (|r.value| == |CleanData(rows)| <==> forall x | x in CleanData(rows) :: !x.timestamp.NullText?)
    ensures r.Success? ==>
      && ProcessTimestamps(CleanData(rows)).Success?
      && (forall x | x in ProcessTimestamps(CleanData(rows)).value :: Derivable(x))
      && r.value == AddDerivedFields(ProcessTimestamps(CleanData(rows)).value)
  {
    var cleaned := CleanData(rows);
    match ProcessTimestamps(cleaned)
    case Failure(e) => Failure(e)
    case Success(shifted) =>
      ShiftedRowsDerivable(cleaned, shifted);
      ParsedCount(cleaned);
      Success(AddDerivedFields(shifted))
  }

  /** The shifted rows are complete, and exactly those whose cleaned
      timestamp was an instant are parsed. */
  lemma {:induction false} ShiftedRowsDerivable(cleaned: seq<Reading>, shifted: seq<Reading>)
    requires forall x | x in cleaned :: HasCriticalFields(x)
    requires |shifted| == |cleaned|
    requires forall i | 0 <= i < |cleaned| ::
      shifted[i] == cleaned[i].(timestamp := Shift(cleaned[i].timestamp))
    ensures forall x | x in shifted :: Derivable(x)
    ensures |Filter(shifted, IsParsed)| == |Filter(cleaned, IsParsed)|
  {
    forall x | x in shifted ensures Derivable(x) {
      var i :| 0 <= i < |shifted| && shifted[i] == x;
      assert cleaned[i] in cleaned;
    }
    FilterPointwise(shifted, IsParsed, cleaned, IsParsed);
  }

  /** Among complete rows none of which raises, every row parses exactly
      when none holds a string that parses to NaT. */
  lemma {:induction false} ParsedCount(cleaned: seq<Reading>)
    requires forall x | x in cleaned :: HasCriticalFields(x) && !x.timestamp.Unparsable?
    ensures |Filter(cleaned, IsParsed)| == |cleaned| <==> forall x | x in cleaned :: !x.timestamp.NullText?
  {
    if forall x | x in cleaned :: !x.timestamp.NullText? {
      FilterKeepsAll(cleaned, IsParsed);
    } else {
      var x :| x in cleaned && x.timestamp.NullText?;
      FilterDrops(cleaned, IsParsed, x);
    }
  }
}
