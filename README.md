# Sensor-batch ingestion, transformation and quality report, in Dafny

This project models the core of a small sensor-data pipeline written in
Python with pandas and DuckDB. The pipeline has three parts:

- **ingest.py**: the incremental ingestion driver. It reads a sorted listing of raw
  batch files and a checkpoint file naming the last committed batch. It runs
  every newer `.parquet` batch through the transform. It adds up the
  per-file counts and advances the checkpoint after each file that produced
  rows.
- **transform.py**: the per-batch pipeline.
  - Cleaning: drop exact duplicates, drop rows that lack a critical field, and
    remove z-score outliers per reading type.
  - The fixed +05:30 time-zone shift.
  - The derived columns: calibrated value, calendar day, daily average per
    (sensor, type, day), a 7-row rolling mean per sensor, and the anomaly flag.
- **validate.py**: the data-quality report over a transformed batch. It has five
  sheets: type conformity, range conformity, hourly gaps per (sensor, type),
  the missing-value profile, and the anomaly profile.

Modelling choices:

- **Files and modules.** Each source file is a Dafny module: `Ingest`,
  `Transform` and `Validate`. Three small modules support them: `Wrappers`
  (Option and Result), `Seqs` (order-preserving filter, de-duplication and
  subsequences) and `Stats` (sum, mean, squared deviation and Samuelson's
  inequality).
- **Values and time.** Values are exact reals; a null or NaN cell is `None`.
  Timestamps are whole seconds since the epoch.
- **Pure logic.** Table operations are functions over sequences of rows.
- **The checkpoint file** is a class, `Ingest.CheckpointStore`, whose methods
  read and overwrite its contents.
- **The ingestion loop** is `Ingest.IngestAll`. It is a method with a `while`
  loop, proved equal to the fold `Ingest.Run` of the per-file step
  `Ingest.Step`. The properties of the loop are lemmas about that fold.

The model follows the code, including where its comments or the
pipeline's evident intent say otherwise. The hourly-gap sheet is modelled
as written, and its corrected form is kept beside it (see Findings).
These are the places where the code does something surprising:

- **Small groups keep their outliers.** The z-score is computed over the
  distinct rows that have all critical fields. A reading type with 2 to
  10 such rows whose values are not all equal never loses a row to the
  filter. pandas uses the sample standard deviation, and by Samuelson's
  inequality |z| <= (n-1)/sqrt(n) < 3 for n <= 10. Such a 10-row group
  with one wild value therefore keeps that value
  (`Transform.SmallTypeGroupKept`). A type with a single such row, or
  with all values equal, has an undefined z-score and loses every row
  (`Transform.ConstantTypeDropped`).
- **Failed files can be passed over.** A file that fails with (0, 0) is
  passed over for good once a later file commits, because the checkpoint
  then moves past it (`Ingest.PassedOverNotRetried`).
- **Skipped is always zero.** `process_file` always returns 0 skipped rows,
  so the run's skipped total stays 0 (`Ingest.SkippedStaysZero`). The row
  filter's `processed_count` and `skipped` are computed and never used:
  only the filtered rows reach the summary log, and the transform re-reads
  the unfiltered file.
- **A transform exception ends the run.** `process_file` catches read
  errors only. An exception from the transform, such as a timestamp string
  that does not parse, escapes it and ends the whole run
  (`Ingest.AbortIsFinal`, `Ingest.ProcessFileTransforms`).
- **A timestamp string that parses to NaT is lost after cleaning.** A
  non-null string such as `""` or `"NaT"` survives `dropna` and joins its
  type's z-score group. `pd.to_datetime` turns it into NaT without raising,
  and `add_derived_fields` then drops the row. The count `process_file`
  returns is then below the number of cleaned rows
  (`Transform.TransformFile`, `Ingest.ProcessFileTransforms`).
- **The gap grid is misaligned.** The hourly-gap query starts its grid at
  the raw minimum timestamp, not at its hour (see Findings).
- **A name with surrounding whitespace breaks the checkpoint order.** The
  checkpoint is written as the raw name but read back stripped. Over
  [" z.parquet", "a.parquet", "z.parquet"], after the first file commits a
  rerun would start at position 3 and skip the two files not yet run
  (`Ingest.UnstrippedNameMovesBack`). Over [" b.parquet"], the committed
  file reads back as "b.parquet", which is not listed, so a rerun
  processes it again (`Ingest.UnstrippedNameRetried`).

## Model

| member | source | states |
|---|---|---|
| Transform.PlausibleRange | transform.py:9-12 | each range is a proper interval, and exactly the calibrated types have one |
| Transform.NormalizeValue | transform.py:40-42 | a type without a calibration entry passes through unchanged (its partners NormalizeRoundTrip and NormalizeMonotone state the rest) |
| Transform.IsAnomalous | transform.py:70-72 | only a type with a range can be flagged; a type missing from EXPECTED_RANGE gets the infinite default range and never is |
| Transform.CalibrationFor | transform.py:40-42 | every calibration multiplier, including the pass-through default, is positive |
| Transform.CalibrationTable | transform.py:15-18 | temperature is calibrated as v*1.02-0.5 and humidity as v*0.97+1.0; every other type passes through unchanged |
| Transform.NormalizeRoundTrip | transform.py:40-42 | the raw value is recovered from the calibrated one with the same table entry |
| Transform.NormalizeMonotone | transform.py:40-42 | calibration is strictly increasing, so it preserves the order of readings |
| Transform.AnomalyIgnoresCalibration | transform.py:69-74 | the flag judges the raw value, not the calibrated one, and the two can disagree in both directions; a type without a range is never anomalous |
| Transform.TypeValues | transform.py:35 | the z-score group of a type holds every non-null value of that type |
| Transform.DropDuplicates | transform.py:29 | every row of the batch once, no duplicates, in the order of first occurrences (keep='first') |
| Transform.DropMissing | transform.py:32 | exactly the rows with all four critical fields, in their original order |
| Transform.Candidates | transform.py:29-32 | the distinct rows with all critical fields, as an ordered subsequence of the de-duplicated batch |
| Transform.CandidatesComplete | transform.py:29-32 | rows that survive de-duplication and dropna come from the batch and have all four critical fields |
| Transform.CleanData | transform.py:28-38 | the result keeps rows in their original order, is an ordered subsequence of the first-occurrence de-duplication, and has no duplicates; every kept row has its critical fields and is within three standard deviations of its type's mean; every such row with a defined z-score is kept |
| Transform.TypeValuesConstant | transform.py:35 | a type whose rows all carry one value has a constant z-score group |
| Transform.ConstantTypeDropped | transform.py:35-36 | a type with zero spread loses every row, because its z-score is undefined and fails the threshold |
| Transform.SmallTypeGroupKept | transform.py:35-36 | a type with 2 to 10 values and nonzero spread keeps every row |
| Transform.ProcessTimestamps | transform.py:78-87 | succeeds exactly when no timestamp is an unparsable string; then row i is row i with its timestamp shifted and everything else unchanged |
| Transform.Shift | transform.py:80-84 | an instant moves forward by exactly 19800 seconds; a string that parses to NaT becomes NaT; NaT stays NaT |
| Transform.ShiftIsExact | transform.py:21 | the shift adds exactly 19800 seconds and is undone by subtracting TIMEZONE_OFFSET |
| Transform.ShiftLeavesHalfHour | transform.py:84 | a reading taken on the hour sits on the half hour after the shift |
| Transform.ToBase | transform.py:52-55 | the derived row carries the calibrated value, and its day contains its timestamp |
| Transform.ToBases | transform.py:46-52 | exactly the rows with a parsed timestamp are kept, each as its derived row, calibrated |
| Transform.ShiftedRowsDerivable | transform.py:78-87 | cleaned rows, once shifted, are complete, and as many of them hold an instant as before the shift |
| Transform.ParsedCount | transform.py:46-49 | among cleaned rows none of which raises, all hold an instant exactly when none holds a string that parses to NaT |
| Transform.KeysOf | transform.py:57 | the daily key of row i is computed from row i |
| Transform.GroupValues | transform.py:57 | a key present in the batch has a non-empty group |
| Transform.DailyTable | transform.py:57-58 | the groupby table holds only keys of the batch, each at most once, with its group's mean |
| Transform.LeftMerge | transform.py:59 | every merged row is a left row joined with one of its key's table entries |
| Transform.MatchesUnique | transform.py:59 | in a table with distinct keys, a key that has an entry joins exactly once, with that entry's value |
| Transform.MatchesAbsent | transform.py:59 | a key no table entry carries has no partner in the join |
| Transform.KeyListed | transform.py:57 | the key of every row of the batch has an entry in the daily table |
| Transform.KeyInTable | transform.py:57-59 | the key of any row joins exactly once, with its group's mean |
| Transform.MatchesInTable | transform.py:57-59 | every row's key joins exactly once, with its group's mean |
| Transform.LeftMergeOneToOne | transform.py:59 | a left merge in which every key matches once keeps row count and order and attaches the match |
| Transform.MergeDailyAverages | transform.py:57-59 | row i keeps its fields and gains the mean calibrated value of its (sensor, type, day) group |
| Transform.StrLessIrreflexive | transform.py:62 | no string sorts before itself |
| Transform.StrLessTransitive | transform.py:62 | string order is transitive |
| Transform.StrLessTotal | transform.py:62 | of two different strings one sorts first |
| Transform.SortsBeforeTotal | transform.py:62 | the (sensor_id, timestamp) order is total |
| Transform.SortsBeforeTransitive | transform.py:62 | the (sensor_id, timestamp) order is transitive |
| Transform.LeadsSorted | transform.py:62 | a row that sorts before the head of a sorted list sorts before all of it |
| Transform.HeadLeadsInsert | transform.py:62 | the head of a sorted list sorts before every row of the rest with the inserted row |
| Transform.ConsSorted | transform.py:62 | a row that sorts before every row of a sorted list can be put in front of it |
| Transform.Insert | transform.py:62 | insertion into a sorted list keeps it sorted and adds exactly the new row |
| Transform.SortByKey | transform.py:62 | the result is sorted by (sensor_id, timestamp) and is a permutation of the input |
| Transform.InsertStable | transform.py:62 | insertion puts the new row in front of every row with its (sensor_id, timestamp) |
| Transform.SortByKeyStable | transform.py:62 | the sort is stable: the rows with any one (sensor_id, timestamp) come out in their input order |
| Transform.PermutedBases | transform.py:59-62 | permuting merged rows permutes their base rows: each base row keeps its multiplicity |
| Transform.SensorValuesConcat | transform.py:65 | a sensor's series of a concatenation is the concatenation of its series |
| Transform.RollingMeans | transform.py:65-67 | one rolling mean per value of the series |
| Transform.BasesOf | transform.py:62-65 | row i of the base column is the base of merged row i |
| Transform.RollingAt | transform.py:65-67 | the rolling mean of row j is the mean of the last (at most) seven values of its sensor up to and including row j |
| Transform.RollingColumn | transform.py:65-67 | the rolling mean of every row is that window mean |
| Transform.RollingAtRank | transform.py:65-67 | that window mean is the rolling mean of the sensor's own series at the row's rank within its sensor |
| Transform.SortedKeepsAverages | transform.py:57-62 | sorting keeps every row's daily average equal to its group's mean |
| Transform.DeriveRows | transform.py:69-74 | row i keeps its fields and daily average and gains the anomaly flag of its raw value |
| Transform.DeriveRowsRolling | transform.py:64-67 | every derived row carries the 7-row window mean of its sensor |
| Transform.DerivedBases | transform.py:62-65 | row i of the base column is the base of derived row i |
| Transform.DeriveKeepsRows | transform.py:57-74 | merging, sorting and deriving keep every parsed row exactly once |
| Transform.DeriveKeepsTies | transform.py:59-62 | after merging and sorting, rows with equal (sensor_id, timestamp) keep their input order |
| Transform.AddDerivedFields | transform.py:44-76 | each parsed row appears exactly once (as a multiset of base rows); rows are sorted by (sensor_id, timestamp), and rows with equal keys keep their input order; each row is calibrated and carries its daily group mean, its 7-row rolling mean and the anomaly flag of its raw value |
| Transform.TransformFile | transform.py:89-94 | fails exactly when a cleaned row has an unparsable timestamp; otherwise the shifted rows are complete, the result is `add_derived_fields` of them, with one row per cleaned row whose timestamp is an instant, and it has one row per cleaned row exactly when no cleaned timestamp is a string that parses to NaT |
| Stats.DevIsSum | transform.py:35 | the sum of deviations from m is the sum minus n*m |
| Stats.DevFromMeanIsZero | transform.py:35 | deviations from the mean sum to zero |
| Stats.ConcatSums | transform.py:35 | deviations and squared deviations add up over a concatenation |
| Stats.QuadraticMeanStep | transform.py:35 | one induction step of the quadratic-mean inequality |
| Stats.DevSquaredBound | transform.py:35 | (sum of deviations)^2 <= n * (sum of squared deviations) |
| Stats.Samuelson | transform.py:35-36 | n*(x_k - mean)^2 <= (n-1) * (sum of squared deviations) |
| Stats.SamuelsonAround | transform.py:35-36 | the same bound about any centre the deviations sum to zero around |
| Stats.SamuelsonHead | transform.py:35-36 | the same bound for the first value |
| Stats.MoveToFront | transform.py:35 | moving a value to the front changes neither deviation sum |
| Stats.ConstantGroup | transform.py:35 | a constant group has mean c and zero spread |
| Stats.MeanBetween | transform.py:57 | a mean lies between the bounds of its values |
| Stats.SumBetween | transform.py:57 | a sum lies between n*lo and n*hi |
| Stats.SqDevNonNegative | transform.py:35 | the sum of squared deviations is non-negative |
| Stats.SmallGroupWithinThreeSigma | transform.py:35-36 | with at most ten values, every z^2 is at most 9 |
| Stats.SmallGroupAround | transform.py:35-36 | the same about any centre the deviations sum to zero around |
| Stats.SmallGroupKeepsAll | transform.py:35-36 | every value of a group of 2 to 10 values with nonzero spread passes the three-sigma test |
| Validate.SumWhere | validate.py:22-23 | SQL SUM of a boolean is NULL exactly when every flag is NULL; otherwise it is the number of true rows |
| Validate.SumWhereConstant | validate.py:22-23 | a flag that is the same for every row sums to NULL on an empty table, and otherwise to 0 or the row count |
| Validate.TypeValidation | validate.py:19-26 | total_records is the row count; each invalid count is 0 or every row, according to the column's type, and NULL on an empty table |
| Validate.OfType | validate.py:37 | `WHERE reading_type = t` keeps exactly the rows of type t |
| Validate.Round2 | validate.py:87 | ROUND(x, 2) keeps the sign of x (0 stays 0) |
| Validate.Round2Hundredths | validate.py:87 | ROUND(x, 2) is a whole number of hundredths, so with its error bound it is the nearest hundredth |
| Validate.Round2Error | validate.py:87 | ROUND(x, 2) moves a value by at most 0.005 |
| Validate.Percent | validate.py:87 | a rounded share of a total is between 0 and 100 |
| Validate.OutOfRangeFlag | validate.py:35 | `value < lo OR value > hi` is NULL exactly for a NULL value, and true exactly for a value outside the closed interval [lo, hi] |
| Validate.RangeCheck | validate.py:31-38 | total is the row count of the type; out_of_range is NULL exactly when no value is present; otherwise it counts the rows outside [lo, hi] and is at most total |
| Validate.RangeValidation | validate.py:29-40 | one range row per EXPECTED_RANGE entry, in order |
| Validate.AnomalyCheck | validate.py:95-103 | total and anomalies equal the range check's; the percentage is present exactly when anomalies are, and lies in [0, 100] |
| Validate.AnomalyStats | validate.py:94-106 | one anomaly row per EXPECTED_RANGE entry, in order |
| Validate.AnomaliesAreOutOfRange | validate.py:94-106 | the anomaly sheet and the range sheet count the same rows |
| Validate.ReadingTypes | validate.py:89 | the listed types are exactly the types that occur |
| Validate.TypesPresent | validate.py:89 | GROUP BY reading_type yields each type that occurs, once |
| Validate.MissingFor | validate.py:84-88 | total >= 1; missing_value_count is the number of NULL or NaN values, at most total; the percentage is its rounded share, in [0, 100] |
| Validate.MissingProfile | validate.py:83-91 | one missing-value row per type present |
| Validate.MissingProfileCoversTypes | validate.py:83-91 | every type of the batch has a row, no type has two, and every total is positive |
| Validate.TruncHour | validate.py:73 | DATE_TRUNC('hour', t) is on the hour and is the last hour not after t |
| Validate.Grid | validate.py:55-59 | generate_series yields the hourly steps from start up to stop, increasing, ending within an hour of stop |
| Validate.HourGrid | validate.py:55-59 | a span of h whole hours (and less than h+1) has h+1 grid slots |
| Validate.ExpectedCount | validate.py:66 | COUNT(e.expected_time) after the left join is at least the number of grid slots |
| Validate.ActualCount | validate.py:67 | COUNT(r.timestamp) never exceeds COUNT(e.expected_time) |
| Validate.EmptySlots | validate.py:63-74 | the empty slots are exactly the grid slots no reading falls into |
| Validate.MissingIsEmptySlots | validate.py:66-68 | expected_count is actual_count plus the number of empty slots |
| Validate.CountsOver | validate.py:63-74 | missing_hours is the number of empty slots, hence never negative, and expected = actual + missing |
| Validate.MinOf | validate.py:56 | MIN is an element no greater than any other |
| Validate.MaxOf | validate.py:57 | MAX is an element no smaller than any other |
| Validate.GroupGapsAsWritten | validate.py:51-74 | as written, with the grid starting at the raw minimum: the counting identity holds, and a minimum off the hour gives actual_count 0 and every slot missing |
| Validate.UnalignedGridNeverMatches | validate.py:55-73 | no bucket meets a grid that starts off the hour |
| Validate.NoBucketOffHour | validate.py:73 | no reading falls into a slot that is off the hour |
| Validate.ActualZero | validate.py:67 | with no matches in any slot, actual_count is 0 |
| Validate.GroupGaps | validate.py:51-74 | corrected, with the grid starting at the hour of the minimum: the counting identity holds and actual_count is the number of readings |
| Validate.EveryBucketInGrid | validate.py:55-73 | on the corrected grid every reading's bucket is a slot |
| Validate.HourMonotone | validate.py:73 | truncation to the hour is monotone |
| Validate.ActualCountsBuckets | validate.py:67-73 | on a strictly increasing grid, actual_count is the number of readings whose bucket is a slot |
| Validate.InGridEmpty | validate.py:67-73 | no reading's bucket is a slot of an empty grid |
| Validate.InGridSplit | validate.py:67-73 | the readings in a grid are those in its first slot plus those in the rest |
| Validate.InGridCountsAll | validate.py:67-73 | when every bucket is a slot, every reading is counted |
| Validate.AlignedGroupUnaffected | validate.py:55-59 | when the minimum is on the hour, the query as written and the corrected one agree |
| Validate.WorkedExample | validate.py:43-75 | readings at hours 00, 01, 03 and 04 give expected 5, actual 4, missing 1, both from the query as written and on the corrected grid |
| Validate.WorkedExampleSlots | validate.py:63-74 | hour 02 is the one empty slot of that example |
| Validate.ShiftedExampleAsWritten | validate.py:55-59 | the same readings after the +05:30 shift give expected 5, actual 0, missing 5 with the query as written |
| Validate.ShiftedExampleCorrected | validate.py:51-74 | the shifted readings give expected 5, actual 4, missing 1 with the corrected grid |
| Validate.ShiftedExampleSlots | validate.py:63-74 | one slot of the shifted example's corrected grid is empty |
| Validate.ShiftedReadingsNeverMatch | validate.py:55-59 | any group of on-the-hour readings, once shifted by the pipeline, gets actual_count 0 from the query as written |
| Validate.Keys | validate.py:61 | the listed keys are exactly the (sensor, type) pairs that occur |
| Validate.GroupKeys | validate.py:61 | GROUP BY sensor_id, reading_type yields each pair that occurs, once |
| Validate.GroupStamps | validate.py:44-61 | a group's timestamps are one per record of the group, and there is at least one |
| Validate.HourlyGapsAsWritten | validate.py:43-80 | one row per group, in group order; row i carries group i's key and exactly the counts of the query as written over that group's timestamps, so a group whose minimum is off the hour gets actual_count 0 |
| Validate.HourlyGaps | validate.py:43-80 | one row per group, in group order, with the counting identity; every record of the group is counted as actual |
| Validate.ValidateDataQuality | validate.py:11-106 | each of the five sheets is its query: the type sheet is `TypeValidation` (total_records is the row count), the range and anomaly sheets are `RangeValidation` and `AnomalyStats` (one row per EXPECTED_RANGE entry, counting the same out-of-range rows), the gap sheet is the query as written and the missing-value sheet is the per-type profile |
| Validate.GapSheetCoversGroups | validate.py:61-74 | a gap sheet with one row per group in group order has a row for the sensor and type of every record |
| Validate.ValidateDataQualityCorrected | validate.py:55-59 | the report with the hour-aligned grid differs from the query's only in its gap sheet, which counts every record as a reading |
| Validate.AlignedReportsAgree | validate.py:55-59 | when every reading is on the hour, the report as written and the corrected report are equal |
| Ingest.AllPresent | ingest.py:37 | true exactly when every required name occurs among the columns |
| Ingest.IsValidSchema | ingest.py:36-37 | true exactly when every expected column name occurs among the columns |
| Ingest.SchemaIgnoresOrderAndExtras | ingest.py:34-37 | a schema is valid exactly when the five expected names occur, in any order, with any extra columns |
| Ingest.MissingBatteryRejected | ingest.py:34-37 | a batch without battery_level is rejected; a reordered one with an extra column is accepted |
| Ingest.TrimStart | ingest.py:26 | removes exactly the leading whitespace |
| Ingest.TrimEnd | ingest.py:26 | removes exactly the trailing whitespace |
| Ingest.Strip | ingest.py:26 | str.strip: the result is a contiguous slice with no surrounding whitespace, and every character outside it is whitespace |
| Ingest.StripIdempotent | ingest.py:26 | stripping twice is stripping once |
| Ingest.TrimmedIsFixed | ingest.py:26 | a string without surrounding whitespace is its own strip |
| Ingest.LoadName | ingest.py:23-27 | a missing file reads as ""; a name read back never starts or ends with whitespace |
| Ingest.CheckpointRoundTrip | ingest.py:23-31 | a name written by update_checkpoint is read back unchanged by get_last_checkpoint |
| Ingest.CheckpointStore.constructor | ingest.py:19 | the store starts with the given contents (None for a missing file) |
| Ingest.CheckpointStore.Load | ingest.py:23-27 | returns "" for a missing file and otherwise the stripped contents |
| Ingest.CheckpointStore.Advance | ingest.py:29-31 | the file now holds exactly the given name |
| Ingest.IndexOf | ingest.py:96 | files.index returns a position holding the name |
| Ingest.IndexOfIsFirst | ingest.py:96 | no earlier position holds the name |
| Ingest.StartIndex | ingest.py:96 | the start is just after the checkpoint's position when the checkpoint is listed, and 0 otherwise |
| Ingest.Eligible | ingest.py:96-97 | new_files is a suffix of the listing |
| Ingest.EligibleAfterCheckpoint | ingest.py:96-97 | with distinct names, the checkpoint file is never eligible; a checkpoint not in the listing makes every file eligible; otherwise exactly the files after it are |
| Ingest.StartAfterFile | ingest.py:96 | with distinct names, a checkpoint naming file p starts at p+1 |
| Ingest.IsValidRow | ingest.py:66-69 | a row that passes the filter has a reading type, and that type has a plausible range |
| Ingest.RowFilterCounts | ingest.py:66-72 | processed_count is the number of rows passing the filter, and processed + skipped is the row count |
| Ingest.ProcessFile | ingest.py:52-89 | an unreadable file or a schema mismatch gives (0, 0); any counts returned have skipped = 0 |
| Ingest.ProcessFileTransforms | ingest.py:77-89 | a well-formed batch raises exactly when a cleaned row has an unparsable timestamp; otherwise it returns (number of cleaned rows whose timestamp is an instant, 0), whatever the row filter said, and that is the number of cleaned rows exactly when none holds a string that parses to NaT |
| Ingest.EndsWith | ingest.py:104 | a name that ends with the suffix is some prefix followed by the suffix |
| Ingest.Step | ingest.py:103-112 | a non-parquet name or an ended run changes nothing; the checkpoint stays or moves to this file, and a move counts one more file |
| Ingest.Run | ingest.py:103-112 | an ended run stays as it is; total_files grows by at most the number of names run; a moved checkpoint names a file of the list |
| Ingest.RunSnoc | ingest.py:103-112 | running one more file is one more loop step |
| Ingest.RunConcat | ingest.py:103-112 | running two lists in turn is running their concatenation |
| Ingest.AbortIsFinal | ingest.py:107 | once an exception has escaped, later files change nothing |
| Ingest.SkippedStaysZero | ingest.py:107-111 | the skipped total of any run over batch files is 0 |
| Ingest.RunTotals | ingest.py:99-112 | in a run that does not end early, total_files counts the committed files, total_processed adds their counts, and the checkpoint names the last committed file (or is unchanged) |
| Ingest.CheckpointStep | ingest.py:108-112 | one more file leaves the checkpoint alone or moves it onto that file |
| Ingest.PositionOfFile | ingest.py:96 | with a well-formed listing, a checkpoint naming file p makes a rerun start at p+1 |
| Ingest.LastMove | ingest.py:108-112 | the last file that moved the checkpoint lies before the files run so far |
| Ingest.CheckpointAtLastMove | ingest.py:108-112 | the checkpoint names the last file that moved it, or is the starting one |
| Ingest.LastMoveMonotone | ingest.py:103-112 | the last move never goes back as more files run |
| Ingest.PositionAfter | ingest.py:94-112 | after i files a rerun would start just after the last file that moved the checkpoint |
| Ingest.EligibleAt | ingest.py:96-97 | the k-th new file is the listing's file k places after the start |
| Ingest.PositionOfEligible | ingest.py:96-97 | a checkpoint naming the k-th new file makes a rerun start k+1 files later |
| Ingest.CheckpointMonotone | ingest.py:94-112 | the checkpoint's position in the listing never moves back during a run and never falls behind its start |
| Ingest.RerunStartsAfter | ingest.py:94-112 | after a file commits, a rerun starts past it |
| Ingest.LaterStartExcludes | ingest.py:96-97 | a run that starts later never sees an earlier run's passed-over file |
| Ingest.RerunSkipsCommitted | ingest.py:94-112 | a file this run committed is not reprocessed by a rerun over the same listing |
| Ingest.PassedOverNotRetried | ingest.py:94-112 | a file at or before one this run committed is out of a rerun's reach, even one that returned (0, 0) and so was never committed |
| Ingest.UnstrippedNameRetried | ingest.py:26-31 | over the listing [" b.parquet"] with the file committing, the checkpoint holds " b.parquet" and a rerun's new files are the whole listing again |
| Ingest.UnstrippedNameMovesBack | ingest.py:26-31 | over the listing [" z.parquet", "a.parquet", "z.parquet"] with every file committing, a rerun would start at position 3 after one file and at 2 after two: the checkpoint position moves back |
| Ingest.IngestAll | ingest.py:92-116 | the loop leaves the checkpoint and the four totals equal to the fold of the per-file step over new_files |

## Left out

- File and database I/O is not modelled. This covers DuckDB connections,
  `read_parquet`, `to_parquet`, the Excel and CSV writers, `os.listdir`
  and `os.makedirs`. The batch contents, the directory listing (already
  sorted) and the checkpoint file are given as values and objects.
- Logging and `log_summary` are not modelled: they only write to the log.
- loader.py (`save_transformed_data`) is not part of this model, and
  neither is the call to `validate_data_quality` inside `process_file`.
  The transform's output is only counted, and the report is modelled
  separately as `Validate.ValidateDataQuality`.
- Ingest.IngestAll: takes `process`, the result of `process_file` for
  each name, instead of the batch contents. For batches on disk this is
  `Ingest.Outcomes(disk)`, which applies `Ingest.ProcessFile`. The name is
  passed as-is rather than joined to the raw-data directory.
- Ingest.ProcessFile: an exception raised while saving or validating the
  output is not modelled. Only the transform's parse failure ends the run.
- Floating point is not modelled. Values are exact reals, so NaN and
  infinities do not occur. A null value and a NaN value are both `None`,
  because NaN is stored as NULL in the batch file.
- Transform.CleanData: the z-score test `abs((v - mean)/std) <= 3` is
  stated without the square root, as `(v - mean)^2 * (n - 1) <= 9 *
  squared deviations`, with `n >= 2` and a nonzero spread. This is the
  same test for exact reals.
- Transform.ProcessTimestamps: the ISO-8601 string formatting is not
  modelled, and neither is the `dtype == object` check. Timestamps stay
  as seconds. An unparsable string makes `pd.to_datetime` raise, which
  is `Failure`. `Unparsable` marks a cell that makes the call raise given
  the rest of its batch: pandas 2 infers the date format from the first
  non-null string and raises on a later string that does not match it, so
  whether a cell raises is a property of the batch, not of the cell alone.
- Transform.AddDerivedFields: the calendar day is `timestamp div 86400`,
  the UTC day of the shifted seconds. The strftime parsing is not
  modelled.
- Transform.RollingMeans: states only the length. The window contents
  are stated per row by `Transform.RollingAt` and `Transform.RollingAtRank`.
  The window is 7 rows, as the code computes it, not 7 days as its
  comment says.
- Transform.MergeDailyAverages: the row order of the GROUP BY result is
  not modelled. It does not affect the merged columns.
- Validate.TypeValidation: DuckDB's `typeof` names are given as the
  column types of the table.
- Validate: records are taken to have a sensor, a reading type and a
  timestamp. The report only runs on transformed batches, whose cleaning
  guarantees them.
- Validate.HourlyGaps: the group order of the GROUP BY output is the order
  in which groups first appear, not DuckDB's unspecified order.
- Validate.MissingProfile: likewise, its types come in the order in which
  they first appear, not DuckDB's unspecified order.
- Validate.ValidateDataQuality: the `CAST(timestamp AS TIMESTAMP)` of the
  gap query is the identity on seconds. A TIMESTAMPTZ column would be cast
  in the session's time zone, which is not modelled.
- Ingest.CheckpointMonotone, Ingest.RerunSkipsCommitted and
  Ingest.PassedOverNotRetried: they require a listing of distinct names
  that `strip()` leaves unchanged. A name with leading or trailing
  whitespace breaks them, as `Ingest.UnstrippedNameMovesBack` and
  `Ingest.UnstrippedNameRetried` show.
- Duplicate checking compares all modelled columns. Columns beyond the
  five of the schema are not modelled.

## Findings

| source | as written | input that shows it | evidently intended | confidence | as-written member | corrected member |
|---|---|---|---|---|---|---|
| validate.py:55-59 | the hourly grid of a group starts at the group's raw `MIN(timestamp)` and steps by one hour, while readings join on `DATE_TRUNC('hour', timestamp)`; when the minimum is not on the hour, no slot is on the hour and no reading ever matches. Every group whose raw readings are all on the hour is such a group once transform.py has shifted them by +05:30, taking the `CAST` at validate.py:48 as the identity on the stored instants (it depends on the session time zone for a TIMESTAMPTZ column) | one group with readings at 05:30, 06:30, 08:30 and 09:30 (19800, 23400, 30600, 34200 s): as written expected 5, actual 0, missing 5 | the grid starts at `DATE_TRUNC('hour', MIN(timestamp))`, giving expected 5, actual 4, missing 1, and every reading is counted | high; not executed | Validate.GroupGapsAsWritten, Validate.ShiftedExampleAsWritten, Validate.ShiftedReadingsNeverMatch | Validate.GroupGaps, Validate.HourlyGaps, Validate.ShiftedExampleCorrected |
