/** The incremental ingestion driver of ingest.py: a sorted listing of raw
    batch files, a checkpoint naming the last file committed, and a loop
    that runs every newer `.parquet` file through the transform and adds up
    its counts. The directory listing, the checkpoint file and the batch
    files are given as values; the checkpoint file is the `CheckpointStore`
    object. */
module Ingest {
  import opened Wrappers
  import opened Seqs
  import Transform

  // ---------------------------------------------------------------------
  // Schema check
  // ---------------------------------------------------------------------

  /** EXPECTED_COLUMNS. */
  const ExpectedColumns: seq<string> := ["sensor_id", "timestamp", "reading_type", "value", "battery_level"]

  /** `all(col in columns for col in required)`, one column at a time. */
  function AllPresent(required: seq<string>, columns: seq<string>): (b: bool)
    ensures b <==> forall c | c in required :: c in columns
  {
    if required == [] then true
    else
      assert forall c | c in required :: c == required[0] || c in required[1..];
      required[0] in columns && AllPresent(required[1..], columns)
  }

  /** `is_valid_schema`. */
  function IsValidSchema(columns: seq<string>): (b: bool)
    ensures b <==> forall c | c in ExpectedColumns :: c in columns
  {
    AllPresent(ExpectedColumns, columns)
  }

  /** Only which columns are present matters: neither their order nor
      extra columns change the verdict, and dropping a required column is
      always rejected. */
  lemma {:induction false} SchemaIgnoresOrderAndExtras(columns: seq<string>, other: seq<string>)
    ensures (forall c | c in columns :: c in other) ==> (IsValidSchema(columns) ==> IsValidSchema(other))
    ensures IsValidSchema(columns) <==>
      "sensor_id" in columns && "timestamp" in columns && "reading_type" in columns &&
      "value" in columns && "battery_level" in columns
  {
    assert forall c | c in ExpectedColumns ::
      c == "sensor_id" || c == "timestamp" || c == "reading_type" || c == "value" || c == "battery_level";
    assert ExpectedColumns[4] == "battery_level";
  }

  /** A batch without `battery_level` is rejected. */
  lemma {:induction false} MissingBatteryRejected()
    ensures !IsValidSchema(["sensor_id", "timestamp", "reading_type", "value"])
    ensures IsValidSchema(["battery_level", "value", "reading_type", "timestamp", "sensor_id", "site"])
  {
    assert ExpectedColumns[4] == "battery_level";
    SchemaIgnoresOrderAndExtras(["sensor_id", "timestamp", "reading_type", "value"], []);
    SchemaIgnoresOrderAndExtras(["battery_level", "value", "reading_type", "timestamp", "sensor_id", "site"], []);
  }

  // ---------------------------------------------------------------------
  // Checkpoint
  // ---------------------------------------------------------------------

  /** The characters Python's `str.isspace` accepts. */
  predicate IsSpace(c: char)
  {
    c == ' ' || '\t' <= c <= '\r' || '\U{001c}' <= c <= '\U{001f}' || c == '\U{0085}' || c == '\U{00a0}' ||
    c == '\U{1680}' || '\U{2000}' <= c <= '\U{200a}' || c == '\U{2028}' || c == '\U{2029}' ||
    c == '\U{202f}' || c == '\U{205f}' || c == '\U{3000}'
  }

  function TrimStart(s: string): (r: string)
    ensures |r| <= |s| && r == s[|s| - |r|..]
    ensures r == [] || !IsSpace(r[0])
    ensures forall k | 0 <= k < |s| - |r| :: IsSpace(s[k])
  {
    if s == [] || !IsSpace(s[0]) then s
    else
      var r := TrimStart(s[1..]);
      assert forall k | 1 <= k < |s| - |r| :: s[k] == s[1..][k - 1];
      r
  }

  function TrimEnd(s: string): (r: string)
    ensures |r| <= |s| && r == s[..|r|]
    ensures r == [] || !IsSpace(r[|r| - 1])
    ensures forall k | |r| <= k < |s| :: IsSpace(s[k])
  {
    if s == [] || !IsSpace(s[|s| - 1]) then s
    else
      var r := TrimEnd(s[..|s| - 1]);
      assert forall k | |r| <= k < |s| - 1 :: s[k] == s[..|s| - 1][k];
      r
  }

  /** `str.strip()`: the longest slice without surrounding whitespace. */
  function Strip(s: string): (r: string)
    ensures r == [] || (!IsSpace(r[0]) && !IsSpace(r[|r| - 1]))
    ensures var end := |TrimEnd(s)|;
      && |r| <= end <= |s| && r == s[end - |r|..end]
      && forall k | 0 <= k < |s| && !(end - |r| <= k < end) :: IsSpace(s[k])
  {
    var e := TrimEnd(s);
    var r := TrimStart(e);
    assert r == s[|e| - |r|..|e|];
    r
  }

  /** Stripping a stripped name changes nothing. */
  lemma {:induction false} StripIdempotent(s: string)
    ensures Strip(Strip(s)) == Strip(s)
  {
    TrimmedIsFixed(Strip(s));
  }

  lemma {:induction false} TrimmedIsFixed(s: string)
    requires s == [] || (!IsSpace(s[0]) && !IsSpace(s[|s| - 1]))
    ensures Strip(s) == s
  {
  }

  /** `get_last_checkpoint`: the stripped file contents, or "" when the
      checkpoint file does not exist. */
  function LoadName(contents: Option<string>): (r: string)
    ensures contents.None? ==> r == ""
    ensures r == [] || (!IsSpace(r[0]) && !IsSpace(r[|r| - 1]))
  {
    match contents
    case None => ""
    case Some(s) => Strip(s)
  }

  /** `update_checkpoint` followed by `get_last_checkpoint` gives back the
      name, for a name without surrounding whitespace. */
  lemma {:induction false} CheckpointRoundTrip(name: string)
    requires name == [] || (!IsSpace(name[0]) && !IsSpace(name[|name| - 1]))
    ensures LoadName(Some(name)) == name
  {
    TrimmedIsFixed(name);
  }

  /** The checkpoint file. */
  class CheckpointStore {
    var contents: Option<string>

    constructor(initial: Option<string>)
      ensures contents == initial
    {
      contents := initial;
    }

    /** `get_last_checkpoint`. */
    method Load() returns (name: string)
      ensures name == LoadName(contents)
    {
      match contents
      case None => name := "";
      case Some(s) => name := Strip(s);
    }

    /** `update_checkpoint`: overwrites the file with the name. */
    method Advance(name: string)
      modifies this
      ensures contents == Some(name)
    {
      contents := Some(name);
    }
  }

  // ---------------------------------------------------------------------
  // Eligible files
  // ---------------------------------------------------------------------

  /** `files.index(name)`: a position of `name`, the first one by
      `IndexOfIsFirst`. */
  function IndexOf(files: seq<string>, name: string): (i: nat)
    requires name in files
    ensures i < |files| && files[i] == name
  {
    if files[0] == name then 0 else IndexOf(files[1..], name) + 1
  }

  lemma {:induction false} IndexOfIsFirst(files: seq<string>, name: string)
    requires name in files
    ensures forall q | 0 <= q < IndexOf(files, name) :: files[q] != name
  {
    if files[0] != name {
      assert name in files[1..];
      IndexOfIsFirst(files[1..], name);
      assert forall q | 1 <= q < IndexOf(files, name) :: files[q] == files[1..][q - 1];
    }
  }

  /** Where the run starts: just after the checkpoint when the listing holds
      it, otherwise at the beginning. */
  function StartIndex(files: seq<string>, last: string): (start: nat)
    ensures start <= |files|
    ensures last in files ==> 1 <= start && files[start - 1] == last
    ensures last !in files ==> start == 0
  {
    if last in files then IndexOf(files, last) + 1 else 0
  }

  /** `new_files`. */
  function Eligible(files: seq<string>, last: string): (r: seq<string>)
    ensures |r| <= |files| && r == files[|files| - |r|..]
  {
    files[StartIndex(files, last)..]
  }

  /** The checkpoint itself is never reprocessed, and without a checkpoint
      (or with one the listing no longer holds) the whole listing is. */
  lemma {:induction false} EligibleAfterCheckpoint(files: seq<string>, last: string)
    requires NoDuplicates(files)
    ensures last !in Eligible(files, last)
    ensures last !in files ==> Eligible(files, last) == files
    ensures last in files ==> |Eligible(files, last)| == |files| - IndexOf(files, last) - 1
  {
    if last in files {
      var i := IndexOf(files, last);
      forall k | i + 1 <= k < |files| ensures files[k] != last {
        assert files[i] != files[k];
      }
      assert forall x | x in Eligible(files, last) :: exists k | i + 1 <= k < |files| :: files[k] == x;
    }
  }

  /** With a duplicate-free listing, the run restarts just after any file
      it names. */
  lemma {:induction false} StartAfterFile(files: seq<string>, p: nat)
    requires NoDuplicates(files) && p < |files|
    ensures StartIndex(files, files[p]) == p + 1
  {
    var i := IndexOf(files, files[p]);
    assert files[i] == files[p];
  }

  // ---------------------------------------------------------------------
  // process_file
  // ---------------------------------------------------------------------

  /** VALID_READING_TYPES. */
  const ValidReadingTypes: set<string> := {"temperature", "humidity"}

  /** The row filter of `process_file`: a known reading type and both
      `value` and `battery_level` present. */
  predicate IsValidRow(r: Transform.Reading)
    ensures IsValidRow(r) ==> r.readingType.Some? && Transform.PlausibleRange(r.readingType.value).Some?
  {
    r.readingType.Some? && r.readingType.value in ValidReadingTypes &&
    r.value.Some? && r.batteryLevel.Some?
  }

  /** `processed_count` and `skipped` of the row filter. `process_file`
      computes them and never uses them: only the filtered rows reach the
      summary log, the transform re-reads the unfiltered file, and the
      counts it returns come from the transform. */
  function RowFilterCounts(rows: seq<Transform.Reading>): (counts: (nat, nat))
    ensures counts.0 + counts.1 == |rows|
    ensures counts.0 == |Filter(rows, IsValidRow)|
    ensures forall x | x in rows && IsValidRow(x) :: x in Filter(rows, IsValidRow)
  {
    var processed := |Filter(rows, IsValidRow)|;
    (processed, |rows| - processed)
  }

  /** What `read_parquet` gives: an error, or the columns and rows. */
  datatype FileRead = Unreadable | Loaded(columns: seq<string>, rows: seq<Transform.Reading>)

  /** `(processed, skipped)`, or an exception that escapes `process_file`. */
  datatype FileResult = Counts(processed: nat, skipped: nat) | Aborted

  /** `process_file`. A read failure or a schema mismatch gives (0, 0); the
      transform re-reads the same file, so every row, including those the
      row filter rejects, reaches it; its exception ends the run; otherwise
      the count is the number of transformed rows and skipped is 0. */
  function ProcessFile(f: FileRead): (r: FileResult)
    ensures f.Unreadable? ==> r == Counts(0, 0)
    ensures f.Loaded? && !IsValidSchema(f.columns) ==> r == Counts(0, 0)
    ensures r.Counts? ==> r.skipped == 0
  {
    match f
    case Unreadable => Counts(0, 0)
    case Loaded(columns, rows) =>
      if !IsValidSchema(columns) then Counts(0, 0)
      else
        match Transform.TransformFile(rows)
        case Failure(_) => Aborted
        case Success(out) => Counts(|out|, 0)
  }

  /** A well-formed batch ends the run exactly when a cleaned row carries a
      timestamp that raises; otherwise its count is the number of cleaned
      rows whose timestamp is an instant, whatever the row filter says of
      them: readings of a type outside VALID_READING_TYPES are still
      transformed and counted, while a cleaned row whose timestamp string
      parses to NaT is dropped and not counted. */
  lemma {:induction false} ProcessFileTransforms(columns: seq<string>, rows: seq<Transform.Reading>)
    requires IsValidSchema(columns)
    ensures ProcessFile(Loaded(columns, rows)).Aborted? <==>
      exists x | x in Transform.CleanData(rows) :: x.timestamp.Unparsable?
    ensures ProcessFile(Loaded(columns, rows)).Counts? ==>
      ProcessFile(Loaded(columns, rows)) == Counts(|Filter(Transform.CleanData(rows), Transform.IsParsed)|, 0)
    ensures ProcessFile(Loaded(columns, rows)).Counts? ==>
      (ProcessFile(Loaded(columns, rows)).processed == |Transform.CleanData(rows)| <==>
       forall x | x in Transform.CleanData(rows) :: !x.timestamp.NullText?)
  {
  }

  // ---------------------------------------------------------------------
  // ingest_all
  // ---------------------------------------------------------------------

  function EndsWith(s: string, suffix: string): (b: bool)
    ensures b ==> |suffix| <= |s| && s == s[..|s| - |suffix|] + suffix
  {
    |suffix| <= |s| && s[|s| - |suffix|..] == suffix
  }

  /** The driver's state: the checkpoint file's contents, the three totals,
      and whether an exception has ended the run. */
  datatype RunState = RunState(
    checkpoint: Option<string>,
    totalFiles: nat,
    totalProcessed: nat,
    totalSkipped: nat,
    aborted: bool)

  /** One pass of the loop body. */
  function Step(s: RunState, file: string, result: FileResult): (r: RunState)
    ensures s.aborted || !EndsWith(file, ".parquet") ==> r == s
    ensures r.checkpoint == s.checkpoint || r.checkpoint == Some(file)
    ensures r.checkpoint != s.checkpoint ==> r.totalFiles == s.totalFiles + 1
  {
    if s.aborted || !EndsWith(file, ".parquet") then s
    else
      match result
      case Aborted => s.(aborted := true)
      case Counts(processed, skipped) =>
        if processed + skipped > 0 then
          RunState(Some(file), s.totalFiles + 1, s.totalProcessed + processed, s.totalSkipped + skipped, false)
        else s
  }

  /** The state after running the loop body over `files` in order. */
  function Run(s: RunState, files: seq<string>, outcome: string -> FileResult): (r: RunState)
    ensures s.aborted ==> r == s
    ensures r.totalFiles <= s.totalFiles + |files|
    ensures r.checkpoint != s.checkpoint ==> r.checkpoint.Some? && r.checkpoint.value in files
  {
    if files == [] then s
    else
      var last := files[|files| - 1];
      Step(Run(s, files[..|files| - 1], outcome), last, outcome(last))
  }

  function Initial(contents: Option<string>): RunState
  {
    RunState(contents, 0, 0, 0, false)
  }

  /** Whether the loop commits `file`: a `.parquet` file whose processing
      returns positive counts. */
  predicate IsCommitted(file: string, outcome: string -> FileResult)
  {
    EndsWith(file, ".parquet") &&
    match outcome(file)
    case Aborted => false
    case Counts(p, k) => p + k > 0
  }

  predicate IsAborting(file: string, outcome: string -> FileResult)
  {
    EndsWith(file, ".parquet") && outcome(file).Aborted?
  }

  /** The files committed, in order. */
  function Committed(files: seq<string>, outcome: string -> FileResult): seq<string>
  {
    if files == [] then []
    else
      var last := files[|files| - 1];
      Committed(files[..|files| - 1], outcome) + (if IsCommitted(last, outcome) then [last] else [])
  }

  /** The processed counts of the committed files, added up. */
  function ProcessedTotal(files: seq<string>, outcome: string -> FileResult): nat
  {
    if files == [] then 0
    else
      var last := files[|files| - 1];
      ProcessedTotal(files[..|files| - 1], outcome) +
      (if IsCommitted(last, outcome) then outcome(last).processed else 0)
  }

  /** Running one more file is one more step. */
  lemma {:induction false} RunSnoc(s: RunState, files: seq<string>, i: nat, outcome: string -> FileResult)
    requires i < |files|
    ensures Run(s, files[..i + 1], outcome) == Step(Run(s, files[..i], outcome), files[i], outcome(files[i]))
  {
    assert files[..i + 1][..i] == files[..i];
  }

  lemma {:induction false} RunConcat(s: RunState, a: seq<string>, b: seq<string>, outcome: string -> FileResult)
    ensures Run(s, a + b, outcome) == Run(Run(s, a, outcome), b, outcome)
    decreases |b|
  {
    if b == [] {
      assert a + b == a;
    } else {
      var n := |b| - 1;
      assert (a + b)[..|a + b| - 1] == a + b[..n];
      assert (a + b)[|a + b| - 1] == b[n];
      RunConcat(s, a, b[..n], outcome);
    }
  }

  /** An exception ends the run: nothing after it changes the state. */
  lemma {:induction false} AbortIsFinal(s: RunState, files: seq<string>, outcome: string -> FileResult)
    requires s.aborted
    ensures Run(s, files, outcome) == s
  {
    if files != [] {
      AbortIsFinal(s, files[..|files| - 1], outcome);
    }
  }

  /** The result `process_file` gives for each file name. */
  function Outcomes(disk: string -> FileRead): string -> FileResult
  {
    file => ProcessFile(disk(file))
  }

  /** `total_skipped` stays 0: every path of `process_file` returns 0 skipped. */
  lemma {:induction false} SkippedStaysZero(contents: Option<string>, files: seq<string>, disk: string -> FileRead)
    ensures Run(Initial(contents), files, Outcomes(disk)).totalSkipped == 0
  {
    if files != [] {
      SkippedStaysZero(contents, files[..|files| - 1], disk);
    }
  }

  /** A run that ends without an exception has met none, has counted
      exactly the committed files and their rows, and leaves the checkpoint
      at the last committed file, or where it was when none was committed. */
  lemma {:induction false} RunTotals(contents: Option<string>, files: seq<string>, outcome: string -> FileResult)
    requires !Run(Initial(contents), files, outcome).aborted
    ensures forall f | f in files :: !IsAborting(f, outcome)
    ensures Run(Initial(contents), files, outcome).totalFiles == |Committed(files, outcome)|
    ensures Run(Initial(contents), files, outcome).totalProcessed == ProcessedTotal(files, outcome)
    ensures Run(Initial(contents), files, outcome).checkpoint ==
      if Committed(files, outcome) == [] then contents
      else Some(Committed(files, outcome)[|Committed(files, outcome)| - 1])
  {
    if files != [] {
      var init, n := files[..|files| - 1], |files| - 1;
      RunTotals(contents, init, outcome);
      assert forall f | f in files :: f in init || f == files[n];
    }
  }

  /** A listing a rerun can find its checkpoint in: no name twice and no
      name that `strip()` would change. */
  predicate WellFormedListing(files: seq<string>)
  {
    NoDuplicates(files) && forall f | f in files :: f == [] || (!IsSpace(f[0]) && !IsSpace(f[|f| - 1]))
  }

  /** Where a run over `files` would start from a checkpoint file. */
  function Position(files: seq<string>, contents: Option<string>): nat
  {
    StartIndex(files, LoadName(contents))
  }

  /** The checkpoint after the first i eligible files. */
  function CheckpointAfter(files: seq<string>, contents: Option<string>, outcome: string -> FileResult, i: nat): Option<string>
    requires i <= |Eligible(files, LoadName(contents))|
  {
    Run(Initial(contents), Eligible(files, LoadName(contents))[..i], outcome).checkpoint
  }

  /** One more file either leaves the checkpoint alone or moves it onto
      that file. */
  lemma {:induction false} CheckpointStep(s: RunState, files: seq<string>, outcome: string -> FileResult, i: nat)
    requires i < |files|
    ensures Run(s, files[..i + 1], outcome).checkpoint == Run(s, files[..i], outcome).checkpoint ||
      Run(s, files[..i + 1], outcome).checkpoint == Some(files[i])
  {
    var prefix := files[..i + 1];
    assert prefix[..i] == files[..i] && prefix[i] == files[i];
  }

  /** With a well-formed listing, a checkpoint naming a file of the listing
      makes a rerun start just after it. */
  lemma {:induction false} PositionOfFile(files: seq<string>, p: nat)
    requires WellFormedListing(files) && p < |files|
    ensures Position(files, Some(files[p])) == p + 1
  {
    CheckpointRoundTrip(files[p]);
    StartAfterFile(files, p);
  }

  /** The index of the last of the first i files that moved the
      checkpoint, or -1 when none did. */
  function LastMove(s: RunState, files: seq<string>, outcome: string -> FileResult, i: nat): (k: int)
    requires i <= |files|
    ensures -1 <= k < i
  {
    if i == 0 then -1
    else if Run(s, files[..i], outcome).checkpoint != Run(s, files[..i - 1], outcome).checkpoint then i - 1
    else LastMove(s, files, outcome, i - 1)
  }

  /** The checkpoint names the last file that moved it, or is still the
      one the run started from. */
  lemma {:induction false} CheckpointAtLastMove(s: RunState, files: seq<string>, outcome: string -> FileResult, i: nat)
    requires i <= |files|
    ensures Run(s, files[..i], outcome).checkpoint ==
      if LastMove(s, files, outcome, i) < 0 then s.checkpoint else Some(files[LastMove(s, files, outcome, i)])
  {
    if i == 0 {
      assert files[..0] == [];
    } else {
      CheckpointAtLastMove(s, files, outcome, i - 1);
      CheckpointStep(s, files, outcome, i - 1);
    }
  }

  lemma {:induction false} LastMoveMonotone(s: RunState, files: seq<string>, outcome: string -> FileResult, i: nat, j: nat)
    requires i <= j <= |files|
    ensures LastMove(s, files, outcome, i) <= LastMove(s, files, outcome, j)
    decreases j - i
  {
    if i < j {
      LastMoveMonotone(s, files, outcome, i, j - 1);
    }
  }

  /** After i eligible files a rerun would start just after the last of
      them that moved the checkpoint, or where this run started. */
  lemma {:induction false} PositionAfter(files: seq<string>, contents: Option<string>, outcome: string -> FileResult, i: nat)
    requires WellFormedListing(files)
    requires i <= |Eligible(files, LoadName(contents))|
    ensures Position(files, CheckpointAfter(files, contents, outcome, i)) ==
      Position(files, contents) + LastMove(Initial(contents), Eligible(files, LoadName(contents)), outcome, i) + 1
  {
    var e := Eligible(files, LoadName(contents));
    CheckpointAtLastMove(Initial(contents), e, outcome, i);
    var k := LastMove(Initial(contents), e, outcome, i);
    if k >= 0 {
      PositionOfEligible(files, contents, k);
    }
  }

  /** A checkpoint naming the k-th eligible file makes a rerun start k + 1
      files later than this run did. */
  lemma {:induction false} PositionOfEligible(files: seq<string>, contents: Option<string>, k: nat)
    requires WellFormedListing(files)
    requires k < |Eligible(files, LoadName(contents))|
    ensures Position(files, Some(Eligible(files, LoadName(contents))[k])) == Position(files, contents) + k + 1
  {
    var last := LoadName(contents);
    EligibleAt(files, last, k);
    PositionOfFile(files, StartIndex(files, last) + k);
  }

  /** The k-th new file is the listing's file k places after the start. */
  lemma {:induction false} EligibleAt(files: seq<string>, last: string, k: nat)
    requires k < |Eligible(files, last)|
    ensures StartIndex(files, last) + k < |files|
    ensures Eligible(files, last)[k] == files[StartIndex(files, last) + k]
  {
    var start := StartIndex(files, last);
    assert Eligible(files, last) == files[start..];
  }

  /** The checkpoint's position in the listing never moves back: after
      more of the eligible files have run, a rerun would start no earlier,
      and never before where this run started. */
  lemma {:induction false} CheckpointMonotone(files: seq<string>, contents: Option<string>, outcome: string -> FileResult, i: nat, j: nat)
    requires WellFormedListing(files)
    requires i <= j <= |Eligible(files, LoadName(contents))|
    ensures Position(files, contents) <= Position(files, CheckpointAfter(files, contents, outcome, i))
    ensures Position(files, CheckpointAfter(files, contents, outcome, i)) <= Position(files, CheckpointAfter(files, contents, outcome, j))
  {
    PositionAfter(files, contents, outcome, i);
    PositionAfter(files, contents, outcome, j);
    LastMoveMonotone(Initial(contents), Eligible(files, LoadName(contents)), outcome, i, j);
  }

  /** A rerun over the same listing does not reprocess a file this run
      committed. */
  lemma {:induction false} RerunSkipsCommitted(files: seq<string>, contents: Option<string>, outcome: string -> FileResult, k: nat)
    requires WellFormedListing(files)
    requires k < |Eligible(files, LoadName(contents))|
    requires CheckpointAfter(files, contents, outcome, k + 1) == Some(Eligible(files, LoadName(contents))[k])
    ensures Eligible(files, LoadName(contents))[k] !in
      Eligible(files, LoadName(CheckpointAfter(files, contents, outcome, |Eligible(files, LoadName(contents))|)))
  {
    var e := Eligible(files, LoadName(contents));
    RerunStartsAfter(files, contents, outcome, k);
    LaterStartExcludes(files, LoadName(contents), LoadName(CheckpointAfter(files, contents, outcome, |e|)), k);
  }

  /** A file at or before one this run committed is out of a rerun's
      reach, whether it was committed itself or not: a file that returned
      (0, 0) and was followed by a committed file is not retried. */
  lemma {:induction false} PassedOverNotRetried(files: seq<string>, contents: Option<string>, outcome: string -> FileResult, k: nat, j: nat)
    requires WellFormedListing(files)
    requires k <= j < |Eligible(files, LoadName(contents))|
    requires CheckpointAfter(files, contents, outcome, j + 1) == Some(Eligible(files, LoadName(contents))[j])
    ensures Eligible(files, LoadName(contents))[k] !in
      Eligible(files, LoadName(CheckpointAfter(files, contents, outcome, |Eligible(files, LoadName(contents))|)))
  {
    var e := Eligible(files, LoadName(contents));
    RerunStartsAfter(files, contents, outcome, j);
    LaterStartExcludes(files, LoadName(contents), LoadName(CheckpointAfter(files, contents, outcome, |e|)), k);
  }

  /** A run that starts more than k files later than another never sees
      the other's k-th file. */
  lemma {:induction false} LaterStartExcludes(files: seq<string>, first: string, later: string, k: nat)
    requires NoDuplicates(files)
    requires StartIndex(files, first) + k < StartIndex(files, later)
    ensures Eligible(files, first)[k] !in Eligible(files, later)
  {
    var q := StartIndex(files, later);
    EligibleAt(files, first, k);
    assert Eligible(files, later) == files[q..];
    NotInSuffix(files, StartIndex(files, first) + k, q);
  }

  /** Without `WellFormedListing` the position can move back. A name
      with leading whitespace is written to the checkpoint file as it is
      but read back stripped. Over this listing, committing every file
      puts a rerun's start at 3 after the first file and at 2 after the
      second. */
  lemma {:induction false} UnstrippedNameMovesBack()
    ensures var files := [" z.parquet", "a.parquet", "z.parquet"];
      var outcome := (f: string) => Counts(1, 0);
      && Position(files, CheckpointAfter(files, None, outcome, 1)) == 3
      && Position(files, CheckpointAfter(files, None, outcome, 2)) == 2
  {
    var files := [" z.parquet", "a.parquet", "z.parquet"];
    assert |files| == 3 && files[0] == " z.parquet" && files[1] == "a.parquet" && files[2] == "z.parquet";
    UnstrippedListing(files);
    UnstrippedRun(files, (f: string) => Counts(1, 0));
  }

  /** Without `WellFormedListing` a committed file can also be processed
      again. Over the listing [" b.parquet"], committing the file writes
      " b.parquet" to the checkpoint file, which reads back as "b.parquet".
      That name is not listed, so a rerun starts from the beginning. */
  lemma {:induction false} UnstrippedNameRetried()
    ensures var files := [" b.parquet"];
      var outcome := (f: string) => Counts(1, 0);
      && CheckpointAfter(files, None, outcome, 1) == Some(files[0])
      && Eligible(files, LoadName(CheckpointAfter(files, None, outcome, 1))) == files
  {
    var files := [" b.parquet"];
    assert |files| == 1 && files[0] == " b.parquet";
    RetriedListing(files);
    RetriedRun(files, (f: string) => Counts(1, 0));
  }

  /** Committing the only file of a listing whose name does not read back
      as itself leaves the whole listing eligible again. */
  lemma {:induction false} RetriedRun(files: seq<string>, outcome: string -> FileResult)
    requires |files| == 1 && "" !in files && EndsWith(files[0], ".parquet")
    requires outcome(files[0]) == Counts(1, 0)
    requires LoadName(Some(files[0])) !in files
    ensures CheckpointAfter(files, None, outcome, 1) == Some(files[0])
    ensures Eligible(files, LoadName(CheckpointAfter(files, None, outcome, 1))) == files
  {
    var s := Initial(None);
    assert Eligible(files, LoadName(None)) == files;
    assert Run(s, files[..0], outcome) == s by {
      assert files[..0] == [];
    }
    CommitStep(s, files, 0, outcome);
    assert files[..1] == files;
  }

  /** What the second counterexample needs of its listing. */
  lemma {:induction false} RetriedListing(files: seq<string>)
    requires |files| == 1 && files[0] == " b.parquet"
    ensures "" !in files && EndsWith(files[0], ".parquet")
    ensures LoadName(Some(files[0])) !in files
  {
    var name := files[0];
    PaddedName(name);
    var t := name[1..];
    assert name == [' '] + t;
    StripLeadingSpace(name, t);
    OnlyName(files, t);
  }

  lemma {:induction false} PaddedName(name: string)
    requires name == " b.parquet"
    ensures |name| == 10 && name[0] == ' ' && name[1] == 'b' && name[9] == 't'
    ensures EndsWith(name, ".parquet")
  {
    assert name[2..] == ".parquet";
  }

  /** A one-name listing holds neither "" nor a name of another length. */
  lemma {:induction false} OnlyName(files: seq<string>, t: string)
    requires |files| == 1 && files[0] != [] && |t| != |files[0]|
    ensures "" !in files && t !in files
  {
    assert files == [files[0]];
  }

  /** What the counterexample needs of its listing. */
  lemma {:induction false} UnstrippedListing(files: seq<string>)
    requires |files| == 3
    requires files[0] == " z.parquet" && files[1] == "a.parquet" && files[2] == "z.parquet"
    ensures "" !in files
    ensures EndsWith(files[0], ".parquet") && EndsWith(files[1], ".parquet")
    ensures Position(files, Some(files[0])) == 3
    ensures Position(files, Some(files[1])) == 2
  {
    NameEnds(files[0], files[1], files[2]);
    ParquetNames(files[0], files[1]);
    StripLeadingSpace(files[0], files[2]);
    TrimmedIsFixed(files[1]);
    DistinctByHead(files);
    UnstrippedPositions(files);
  }

  lemma {:induction false} NameEnds(a: string, b: string, c: string)
    requires a == " z.parquet" && b == "a.parquet" && c == "z.parquet"
    ensures |a| == 10 && |b| == 9 && |c| == 9
    ensures a[0] == ' ' && b[0] == 'a' && c[0] == 'z' && b[8] == 't' && c[8] == 't'
    ensures a == [' '] + c
  {
  }

  lemma {:induction false} ParquetNames(a: string, b: string)
    requires a == " z.parquet" && b == "a.parquet"
    ensures EndsWith(a, ".parquet") && EndsWith(b, ".parquet")
  {
    assert a[2..] == ".parquet" && b[1..] == ".parquet";
  }

  /** Committing every file of a listing without the "" name moves the
      checkpoint onto each file in turn. */
  lemma {:induction false} UnstrippedRun(files: seq<string>, outcome: string -> FileResult)
    requires |files| >= 2 && "" !in files
    requires EndsWith(files[0], ".parquet") && EndsWith(files[1], ".parquet")
    requires outcome(files[0]) == Counts(1, 0) && outcome(files[1]) == Counts(1, 0)
    ensures CheckpointAfter(files, None, outcome, 1) == Some(files[0])
    ensures CheckpointAfter(files, None, outcome, 2) == Some(files[1])
  {
    var s := Initial(None);
    assert Eligible(files, LoadName(None)) == files by {
      assert LoadName(None) !in files;
    }
    assert Run(s, files[..0], outcome) == s by {
      assert files[..0] == [];
    }
    CommitStep(s, files, 0, outcome);
    CommitStep(s, files, 1, outcome);
  }

  /** A `.parquet` file with positive counts, reached by a run that has not
      ended, becomes the checkpoint. */
  lemma {:induction false} CommitStep(s: RunState, files: seq<string>, i: nat, outcome: string -> FileResult)
    requires i < |files| && !Run(s, files[..i], outcome).aborted
    requires EndsWith(files[i], ".parquet") && outcome(files[i]) == Counts(1, 0)
    ensures Run(s, files[..i + 1], outcome).checkpoint == Some(files[i])
    ensures !Run(s, files[..i + 1], outcome).aborted
  {
    RunSnoc(s, files, i, outcome);
  }

  lemma {:induction false} UnstrippedPositions(files: seq<string>)
    requires |files| == 3 && NoDuplicates(files)
    requires Strip(files[0]) == files[2] && Strip(files[1]) == files[1]
    ensures Position(files, Some(files[0])) == 3
    ensures Position(files, Some(files[1])) == 2
  {
    StartAfterFile(files, 2);
    StartAfterFile(files, 1);
  }

  lemma {:induction false} DistinctByHead(files: seq<string>)
    requires |files| == 3 && files[0] != [] && files[1] != [] && files[2] != []
    requires files[0][0] == ' ' && files[1][0] == 'a' && files[2][0] == 'z'
    ensures NoDuplicates(files) && "" !in files
  {
    assert files == [files[0], files[1], files[2]];
  }

  /** One leading space before a name without surrounding whitespace is
      all that `strip()` removes. */
  lemma {:induction false} StripLeadingSpace(s: string, t: string)
    requires t != [] && !IsSpace(t[0]) && !IsSpace(t[|t| - 1])
    requires s == [' '] + t
    ensures Strip(s) == t
  {
    assert !IsSpace(s[|s| - 1]);
    assert TrimEnd(s) == s;
    assert IsSpace(s[0]) && s[1..] == t && !IsSpace(t[0]);
    assert TrimStart(s) == t;
  }

  lemma {:induction false} RerunStartsAfter(files: seq<string>, contents: Option<string>, outcome: string -> FileResult, k: nat)
    requires WellFormedListing(files)
    requires k < |Eligible(files, LoadName(contents))|
    requires CheckpointAfter(files, contents, outcome, k + 1) == Some(Eligible(files, LoadName(contents))[k])
    ensures Position(files, contents) + k <
      Position(files, CheckpointAfter(files, contents, outcome, |Eligible(files, LoadName(contents))|))
  {
    PositionOfEligible(files, contents, k);
    CheckpointMonotone(files, contents, outcome, k + 1, |Eligible(files, LoadName(contents))|);
  }

  /** `ingest_all`: load the checkpoint, slice the listing after it, run
      every `.parquet` file, and advance the checkpoint after each file
      with positive counts. An exception from a file ends the loop.
      `process` is `process_file` for each name of the listing: for batch
      files on disk it is `Outcomes(disk)`. */
  method IngestAll(store: CheckpointStore, files: seq<string>, process: string -> FileResult)
    returns (totalFiles: nat, totalProcessed: nat, totalSkipped: nat, aborted: bool)
    modifies store
    ensures var s := Run(Initial(old(store.contents)), Eligible(files, LoadName(old(store.contents))), process);
      && store.contents == s.checkpoint
      && totalFiles == s.totalFiles
      && totalProcessed == s.totalProcessed
      && totalSkipped == s.totalSkipped
      && aborted == s.aborted
  {
    ghost var start := store.contents;
    var lastFile := store.Load();
    var newFiles := files[StartIndex(files, lastFile)..];
    totalFiles, totalProcessed, totalSkipped, aborted := 0, 0, 0, false;
    var i := 0;
    while i < |newFiles| && !aborted
      invariant 0 <= i <= |newFiles|
      invariant RunState(store.contents, totalFiles, totalProcessed, totalSkipped, aborted)
        == Run(Initial(start), newFiles[..i], process)
    {
      var file := newFiles[i];
      ghost var before := RunState(store.contents, totalFiles, totalProcessed, totalSkipped, aborted);
      RunSnoc(Initial(start), newFiles, i, process);
      if EndsWith(file, ".parquet") {
        var result := process(file);
        match result
        case Aborted =>
          aborted := true;
        case Counts(processed, skipped) =>
          if processed + skipped > 0 {
            totalFiles := totalFiles + 1;
            totalProcessed := totalProcessed + processed;
            totalSkipped := totalSkipped + skipped;
            store.Advance(file);
          }
      }
      assert RunState(store.contents, totalFiles, totalProcessed, totalSkipped, aborted)
        == Step(before, file, process(file));
      i := i + 1;
    }
    if i < |newFiles| {
      assert newFiles == newFiles[..i] + newFiles[i..];
      RunConcat(Initial(start), newFiles[..i], newFiles[i..], process);
      AbortIsFinal(Run(Initial(start), newFiles[..i], process), newFiles[i..], process);
    }
    assert newFiles[..|newFiles|] == newFiles;
  }
}
