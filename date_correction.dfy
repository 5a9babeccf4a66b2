/**
  The repair of gridVeg_additional_species: a preview of the corrections
  (the species rows dated after 2024-12-31 joined to the survey metadata),
  a stop after the preview on a dry run, a verified backup to Cloud Storage,
  one UPDATE that copies the metadata date and its year into the corrupted
  rows, and two checks on the updated table. The table is an array updated
  in place; the object listing of the backup, the clock and CURRENT_DATE()
  are parameters.
 */
module DateCorrection {
  import opened Relational
  import opened Dates
  import opened Records

  // ---- The preview query ----

  /** The GROUP BY key of `to_fix`: survey_ID, incorrect date, correct date, incorrect year. */
  datatype FixKey = FixKey(surveyId: string, incorrectDate: Date, correctDate: Option<Date>, incorrectYear: Option<int>)

  type PreviewGroup = Counted<FixKey>

  /** `a.date > '2024-12-31'`: the rows the repair looks at. */
  predicate PastCutoff(r: SpeciesRow) {
    SqlAfter(r.date, Cutoff)
  }

  /** The inner-join rows of one species row: one per metadata row of its survey. */
  function FixKeysFor(r: SpeciesRow, metadata: seq<SurveyDate>): (k: seq<FixKey>)
    ensures PastCutoff(r) ==> (
      && |k| == |RowsFor(metadata, r.surveyId)|
      && forall i :: 0 <= i < |k| ==>
           k[i] == FixKey(r.surveyId, r.date.value, RowsFor(metadata, r.surveyId)[i].date, r.year))
    ensures !PastCutoff(r) ==> k == []
  {
    if PastCutoff(r) then
      var ms := RowsFor(metadata, r.surveyId);
      seq(|ms|, i requires 0 <= i < |ms| => FixKey(r.surveyId, r.date.value, ms[i].date, r.year))
    else []
  }

  function FixKeys(rows: seq<SpeciesRow>, metadata: seq<SurveyDate>): seq<FixKey> {
    FlatMap(rows, (r: SpeciesRow) => FixKeysFor(r, metadata))
  }

  /** The preview: one group per key with its `affected_rows`. */
  function Preview(rows: seq<SpeciesRow>, metadata: seq<SurveyDate>): seq<PreviewGroup> {
    GroupBy(FixKeys(rows, metadata))
  }

  /** `EXTRACT(YEAR FROM m.date)` of a preview group. */
  function CorrectYear(g: PreviewGroup): (y: Option<int>)
    ensures y.Some? <==> g.key.correctDate.Some?
    ensures y.Some? ==> y.value == g.key.correctDate.value.year
  {
    YearOf(g.key.correctDate)
  }

  /** `preview_df['affected_rows'].sum()` is the number of joined rows. */
  lemma PreviewTotal(rows: seq<SpeciesRow>, metadata: seq<SurveyDate>)
    ensures SumOf(Preview(rows, metadata), CountOf) == |FixKeys(rows, metadata)|
  {
    GroupBySum(FixKeys(rows, metadata), (k: FixKey) => true, CountOf);
    FilterAll(FixKeys(rows, metadata), (k: FixKey) => true);
  }

  /** A preview key of one species row names that row and one of its metadata rows. */
  lemma FixKeyOrigin(r: SpeciesRow, metadata: seq<SurveyDate>, k: FixKey)
    requires k in FixKeysFor(r, metadata)
    ensures PastCutoff(r) && k.surveyId == r.surveyId && r.date == Some(k.incorrectDate) && r.year == k.incorrectYear
    ensures SurveyDate(k.surveyId, k.correctDate) in metadata
  {
    var ks := FixKeysFor(r, metadata);
    var j :| 0 <= j < |ks| && ks[j] == k;
    assert RowsFor(metadata, r.surveyId)[j] in RowsFor(metadata, r.surveyId);
  }

  /** Metadata exists for every survey_ID that the preview reports, and only rows past the cutoff are reported. */
  lemma {:induction false} PreviewGroupSound(rows: seq<SpeciesRow>, metadata: seq<SurveyDate>, g: PreviewGroup)
    requires g in Preview(rows, metadata)
    ensures g.count >= 1
    ensures Before(Cutoff, g.key.incorrectDate)
    ensures SurveyDate(g.key.surveyId, g.key.correctDate) in metadata
    ensures exists r :: r in rows && r.surveyId == g.key.surveyId && r.date == Some(g.key.incorrectDate) && r.year == g.key.incorrectYear
  {
    var keys := FixKeys(rows, metadata);
    GroupByMember(keys, g);
    var f := (r: SpeciesRow) => FixKeysFor(r, metadata);
    FlatMapMember(rows, f, g.key);
    var i :| 0 <= i < |rows| && g.key in f(rows[i]);
    FixKeyOrigin(rows[i], metadata, g.key);
    assert rows[i] in rows;
    assert Occurrences(keys, g.key) >= 1 by {
      OccurrencesFilter(keys, g.key);
      assert g.key in Filter(keys, y => y == g.key);
    }
  }

  // ---- The UPDATE statement ----

  /** The rows `UPDATE ... FROM gridVeg_survey_metadata m WHERE a.survey_ID = m.survey_ID AND a.date > '2024-12-31'` touches. */
  predicate Targeted(metadata: seq<SurveyDate>, r: SpeciesRow) {
    PastCutoff(r) && RowsFor(metadata, r.surveyId) != []
  }

  function TargetedBy(metadata: seq<SurveyDate>): SpeciesRow -> bool {
    (r: SpeciesRow) => Targeted(metadata, r)
  }

  /** A targeted row that joins more than one metadata row: BigQuery refuses the UPDATE. */
  predicate Ambiguous(metadata: seq<SurveyDate>, r: SpeciesRow) {
    PastCutoff(r) && |RowsFor(metadata, r.surveyId)| > 1
  }

  /** `SET date = m.date, year = EXTRACT(YEAR FROM m.date)` on a targeted row;
      every other row and every other column is left as it was. */
  function UpdatedRow(metadata: seq<SurveyDate>, r: SpeciesRow): (u: SpeciesRow)
    ensures !Targeted(metadata, r) ==> u == r
    ensures Targeted(metadata, r) ==>
      exists m :: m in metadata && m.surveyId == r.surveyId && u == r.(date := m.date, year := YearOf(m.date))
    ensures u.surveyId == r.surveyId && u.gridPoint == r.gridPoint && u.species == r.species
  {
    if Targeted(metadata, r) then
      var m := RowsFor(metadata, r.surveyId)[0];
      assert m in RowsFor(metadata, r.surveyId);
      r.(date := m.date, year := YearOf(m.date))
    else r
  }

  /** The effect of the UPDATE on the whole table; None when it is refused. */
  function UpdateResult(rows: seq<SpeciesRow>, metadata: seq<SurveyDate>): (r: Option<seq<SpeciesRow>>)
    ensures r.None? <==> exists i :: 0 <= i < |rows| && Ambiguous(metadata, rows[i])
    ensures r.Some? ==> |r.value| == |rows| && forall i :: 0 <= i < |rows| ==> r.value[i] == UpdatedRow(metadata, rows[i])
  {
    if exists i :: 0 <= i < |rows| && Ambiguous(metadata, rows[i]) then None
    else Some(seq(|rows|, i requires 0 <= i < |rows| => UpdatedRow(metadata, rows[i])))
  }

  /** With one metadata row per survey_ID the UPDATE is never refused. */
  lemma UpdateNeverRefusedWithUniqueMetadata(rows: seq<SpeciesRow>, metadata: seq<SurveyDate>)
    requires UniqueSurveys(metadata)
    ensures UpdateResult(rows, metadata).Some?
  {
    forall i | 0 <= i < |rows| ensures !Ambiguous(metadata, rows[i]) {
      RowsForUnique(metadata, rows[i].surveyId);
    }
  }

  /** With one metadata row per survey_ID the preview total is the number of rows the UPDATE changes. */
  lemma PreviewTotalIsUpdateCount(rows: seq<SpeciesRow>, metadata: seq<SurveyDate>)
    requires UniqueSurveys(metadata)
    ensures SumOf(Preview(rows, metadata), CountOf) == |Filter(rows, TargetedBy(metadata))|
  {
    PreviewTotal(rows, metadata);
    forall i | 0 <= i < |rows|
      ensures |FixKeysFor(rows[i], metadata)| == if TargetedBy(metadata)(rows[i]) then 1 else 0
    {
      RowsForUnique(metadata, rows[i].surveyId);
    }
    FlatMapLengthFilter(rows, (r: SpeciesRow) => FixKeysFor(r, metadata), TargetedBy(metadata));
  }

  /** No metadata date lies past the cutoff (a NULL date included). */
  predicate MetadataNotPastCutoff(metadata: seq<SurveyDate>) {
    forall i :: 0 <= i < |metadata| ==> !SqlAfter(metadata[i].date, Cutoff)
  }

  /** When the metadata itself is clean, the rows still past the cutoff after
      the UPDATE are exactly those whose survey has no metadata row. */
  lemma {:induction false} RemainingFutureRowsLackMetadata(rows: seq<SpeciesRow>, metadata: seq<SurveyDate>, i: int)
    requires MetadataNotPastCutoff(metadata)
    requires UpdateResult(rows, metadata).Some? && 0 <= i < |rows|
    ensures PastCutoff(UpdateResult(rows, metadata).value[i]) <==> PastCutoff(rows[i]) && !HasSurvey(metadata, rows[i].surveyId)
  {
    var r := rows[i];
    HasSurveyIffRowsFor(metadata, r.surveyId);
    if Targeted(metadata, r) {
      var m :| m in metadata && m.surveyId == r.surveyId && UpdatedRow(metadata, r) == r.(date := m.date, year := YearOf(m.date));
      var k :| 0 <= k < |metadata| && metadata[k] == m;
    }
  }

  /** A second run of the UPDATE changes nothing when the metadata is clean. */
  lemma {:induction false} UpdateIdempotent(rows: seq<SpeciesRow>, metadata: seq<SurveyDate>)
    requires MetadataNotPastCutoff(metadata)
    requires UpdateResult(rows, metadata).Some?
    ensures UpdateResult(UpdateResult(rows, metadata).value, metadata) == UpdateResult(rows, metadata)
  {
    var once := UpdateResult(rows, metadata).value;
    forall i | 0 <= i < |once| ensures !PastCutoff(once[i]) || !HasSurvey(metadata, once[i].surveyId) {
      RemainingFutureRowsLackMetadata(rows, metadata, i);
    }
    forall i | 0 <= i < |once| ensures !Targeted(metadata, once[i]) && !Ambiguous(metadata, once[i]) {
      HasSurveyIffRowsFor(metadata, once[i].surveyId);
    }
    assert UpdateResult(once, metadata).value == once;
  }

  /** `EXTRACT(YEAR FROM date) != year`, not true when either is NULL. */
  predicate YearMismatch(r: SpeciesRow) {
    r.date.Some? && r.year.Some? && r.date.value.year != r.year.value
  }

  /** The UPDATE repairs the year of every row it touches, so the year check
      after it finds no more mismatches than there were before. */
  lemma UpdateFixesYears(rows: seq<SpeciesRow>, metadata: seq<SurveyDate>)
    requires UpdateResult(rows, metadata).Some?
    ensures var after := UpdateResult(rows, metadata).value;
      (forall i :: 0 <= i < |rows| && Targeted(metadata, rows[i]) ==> !YearMismatch(after[i]))
      && |Filter(after, YearMismatch)| <= |Filter(rows, YearMismatch)|
  {
    var after := UpdateResult(rows, metadata).value;
    FilterSizeAtMost(rows, after, YearMismatch, YearMismatch);
  }

  /** `date > CURRENT_DATE()`. */
  function AfterDay(today: Date): SpeciesRow -> bool {
    (r: SpeciesRow) => SqlAfter(r.date, today)
  }

  // ---- Backup location ----
  /** The extraction target: the backup prefix in the bucket, then the CSV shard pattern. */
  function BackupUri(bucket: string, dataset: string, table: string, timestamp: string): string {
    "gs://" + bucket + "/backups/" + dataset + "/" + table + "/" + timestamp + "/*.csv"
  }

  /** The prefix the verification lists: `backups/{dataset}/{table}/{timestamp}/`. */
  function BackupPrefix(dataset: string, table: string, timestamp: string): string {
    "backups/" + dataset + "/" + table + "/" + timestamp + "/"
  }

  /** The listing looks exactly where the extraction wrote. */
  lemma {:induction false} BackupUriUnderPrefix(bucket: string, dataset: string, table: string, timestamp: string)
    ensures BackupUri(bucket, dataset, table, timestamp) == "gs://" + bucket + "/" + BackupPrefix(dataset, table, timestamp) + "*.csv"
  {
    assert "gs://" + bucket + "/" + BackupPrefix(dataset, table, timestamp) + "*.csv"
        == "gs://" + bucket + "/" + ("backups/" + dataset + "/" + table + "/" + timestamp + "/") + "*.csv";
  }

  // ---- The workflow ----

  datatype Failure =
    | EmptyPreview                   // `.iloc[0]` of an empty preview raises IndexError
    | MissingBucket                  // `create_backup` without a bucket name
    | BackupVerificationFailed       // no object under the backup prefix
    | AmbiguousMetadata              // the UPDATE matched a row to several metadata rows
    | UpdateRejected                 // the UPDATE text still holds its `{project}.{dataset}.{table}` placeholders
    | DateValidationFailed(count: nat)
    | YearValidationFailed(count: nat)

  datatype Phase = Idle | Previewed | DryRunDone | BackedUp | Updated | Completed | Aborted(failure: Failure)

  /** What the run is given from outside: the flags, the clock and the storage listing. */
  datatype RunConfig = RunConfig(
    dryRun: bool, bucket: string, dataset: string, table: string,
    timestamp: string, listedObjects: nat, today: Date)

  /** Where the run ends, what the table then holds, and the backup written. */
  datatype Outcome = Outcome(phase: Phase, rows: seq<SpeciesRow>, backupUri: Option<string>)

  /** The two post-UPDATE checks: future dates first, then years. */
  function Validation(rows: seq<SpeciesRow>, today: Date): (p: Phase)
    ensures p == Completed <==> Filter(rows, AfterDay(today)) == [] && Filter(rows, YearMismatch) == []
    ensures p != Completed ==> p.Aborted?
  {
    var future := |Filter(rows, AfterDay(today))|;
    var years := |Filter(rows, YearMismatch)|;
    if future > 0 then Aborted(DateValidationFailed(future))
    else if years > 0 then Aborted(YearValidationFailed(years))
    else Completed
  }

  /** The run gets past the preview, the dry-run stop and the verified
      backup, and reaches the UPDATE. */
  predicate ReachesUpdate(rows: seq<SpeciesRow>, metadata: seq<SurveyDate>, cfg: RunConfig) {
    Preview(rows, metadata) != [] && !cfg.dryRun && cfg.bucket != "" && cfg.listedObjects > 0
  }

  /**
    `fix_dates` with the UPDATE formatted like the preview and the year
    check are: the intended repair. The table changes only when the run
    reaches the UPDATE and BigQuery accepts it.
   */
  function FixDates(rows: seq<SpeciesRow>, metadata: seq<SurveyDate>, cfg: RunConfig): (o: Outcome)
    ensures o.backupUri.Some? <==> ReachesUpdate(rows, metadata, cfg)
    ensures !ReachesUpdate(rows, metadata, cfg) ==> o.rows == rows && (o.phase == DryRunDone || o.phase.Aborted?)
    ensures ReachesUpdate(rows, metadata, cfg) ==>
      (o.phase == Aborted(AmbiguousMetadata) <==> UpdateResult(rows, metadata).None?)
    ensures ReachesUpdate(rows, metadata, cfg) && UpdateResult(rows, metadata).Some? ==>
      o.rows == UpdateResult(rows, metadata).value && o.phase == Validation(o.rows, cfg.today)
  {
    if Preview(rows, metadata) == [] then Outcome(Aborted(EmptyPreview), rows, None)
    else if cfg.dryRun then Outcome(DryRunDone, rows, None)
    else if cfg.bucket == "" then Outcome(Aborted(MissingBucket), rows, None)
    else if cfg.listedObjects == 0 then Outcome(Aborted(BackupVerificationFailed), rows, None)
    else
      var uri := BackupUri(cfg.bucket, cfg.dataset, cfg.table, cfg.timestamp);
      match UpdateResult(rows, metadata)
      case None => Outcome(Aborted(AmbiguousMetadata), rows, Some(uri))
      case Some(after) => Outcome(Validation(after, cfg.today), after, Some(uri))
  }

  /**
    `fix_dates` as written: `update_query` is sent without `.format()`, so
    BigQuery is asked to update the table literally named
    `{project}.{dataset}.{table}` and rejects the statement; `job.result()`
    raises. No run changes the table, and no live run completes.
   */
  function FixDatesAsWritten(rows: seq<SpeciesRow>, metadata: seq<SurveyDate>, cfg: RunConfig): (o: Outcome)
    ensures o.rows == rows
    ensures o.phase == Aborted(UpdateRejected) <==> ReachesUpdate(rows, metadata, cfg)
    ensures !ReachesUpdate(rows, metadata, cfg) ==> o == FixDates(rows, metadata, cfg)
    ensures o.backupUri == FixDates(rows, metadata, cfg).backupUri
  {
    if Preview(rows, metadata) == [] then Outcome(Aborted(EmptyPreview), rows, None)
    else if cfg.dryRun then Outcome(DryRunDone, rows, None)
    else if cfg.bucket == "" then Outcome(Aborted(MissingBucket), rows, None)
    else if cfg.listedObjects == 0 then Outcome(Aborted(BackupVerificationFailed), rows, None)
    else Outcome(Aborted(UpdateRejected), rows, Some(BackupUri(cfg.bucket, cfg.dataset, cfg.table, cfg.timestamp)))
  }

  /** As written, the only run that exits 0 is a dry run with a non-empty
      preview: every live run fails, at the latest on the UPDATE, after the
      backup has been written, and leaves the table as it was. */
  lemma AsWrittenOnlyDryRunSucceeds(rows: seq<SpeciesRow>, metadata: seq<SurveyDate>, cfg: RunConfig)
    ensures var o := FixDatesAsWritten(rows, metadata, cfg);
      && (ExitStatus(o.phase) == 0 <==> cfg.dryRun && Preview(rows, metadata) != [])
      && o.phase != Completed
      && (ReachesUpdate(rows, metadata, cfg) ==>
            o.backupUri == Some(BackupUri(cfg.bucket, cfg.dataset, cfg.table, cfg.timestamp)))
  {
  }

  /** The corrected run differs from the run as written only from the
      UPDATE on: there it applies the statement, or is refused on an
      ambiguous match. */
  lemma CorrectedRunDiffersOnlyAtUpdate(rows: seq<SpeciesRow>, metadata: seq<SurveyDate>, cfg: RunConfig)
    requires FixDates(rows, metadata, cfg) != FixDatesAsWritten(rows, metadata, cfg)
    ensures ReachesUpdate(rows, metadata, cfg)
    ensures FixDatesAsWritten(rows, metadata, cfg).phase == Aborted(UpdateRejected)
    ensures var o := FixDates(rows, metadata, cfg);
      o.phase == Aborted(AmbiguousMetadata) || Some(o.rows) == UpdateResult(rows, metadata)
  {
  }

  /** A dry run never backs up and never changes the table. */
  lemma DryRunChangesNothing(rows: seq<SpeciesRow>, metadata: seq<SurveyDate>, cfg: RunConfig)
    requires cfg.dryRun
    ensures var o := FixDates(rows, metadata, cfg);
      o.rows == rows && o.backupUri == None && (o.phase == DryRunDone || o.phase == Aborted(EmptyPreview))
  {
  }

  /** The table changes only after a verified backup, and then only by the UPDATE. */
  lemma {:induction false} NoUpdateWithoutBackup(rows: seq<SpeciesRow>, metadata: seq<SurveyDate>, cfg: RunConfig)
    ensures var o := FixDates(rows, metadata, cfg);
      o.rows != rows ==>
        !cfg.dryRun && cfg.bucket != "" && cfg.listedObjects > 0
        && o.backupUri == Some(BackupUri(cfg.bucket, cfg.dataset, cfg.table, cfg.timestamp))
        && Some(o.rows) == UpdateResult(rows, metadata)
  {
  }

  /** The checks run on the updated table and do not roll it back: a row past
      CURRENT_DATE() that no metadata row corrects fails the run after the
      table has been changed. */
  lemma {:induction false} ValidationFailureKeepsUpdate(rows: seq<SpeciesRow>, metadata: seq<SurveyDate>, cfg: RunConfig, i: int)
    requires Preview(rows, metadata) != [] && !cfg.dryRun && cfg.bucket != "" && cfg.listedObjects > 0
    requires UpdateResult(rows, metadata).Some?
    requires 0 <= i < |rows| && SqlAfter(rows[i].date, cfg.today) && !HasSurvey(metadata, rows[i].surveyId)
    ensures var o := FixDates(rows, metadata, cfg);
      o.phase.Aborted? && o.phase.failure.DateValidationFailed? && Some(o.rows) == UpdateResult(rows, metadata)
  {
    var after := UpdateResult(rows, metadata).value;
    HasSurveyIffRowsFor(metadata, rows[i].surveyId);
    assert after[i] == rows[i];
    assert after[i] in Filter(after, AfterDay(cfg.today));
  }

  /** `main`: any exception out of `fix_dates` exits with status 1. */
  function ExitStatus(p: Phase): (code: int)
    ensures code == 1 <==> p.Aborted?
    ensures code == 0 <==> !p.Aborted?
  {
    if p.Aborted? then 1 else 0
  }

  /** A run that completes leaves no date after CURRENT_DATE() and no year out of step with its date. */
  lemma CompletedRunIsClean(rows: seq<SpeciesRow>, metadata: seq<SurveyDate>, cfg: RunConfig)
    requires FixDates(rows, metadata, cfg).phase == Completed
    ensures var o := FixDates(rows, metadata, cfg);
      ExitStatus(o.phase) == 0
      && forall i :: 0 <= i < |o.rows| ==> !SqlAfter(o.rows[i].date, cfg.today) && !YearMismatch(o.rows[i])
  {
    var o := FixDates(rows, metadata, cfg);
    assert o.phase == Validation(o.rows, cfg.today);
    ValidationPassedClean(o.rows, cfg.today);
  }

  /** Checks that both pass leave no date after the day and no year out of step. */
  lemma ValidationPassedClean(rows: seq<SpeciesRow>, today: Date)
    requires Validation(rows, today) == Completed
    ensures forall i :: 0 <= i < |rows| ==> !SqlAfter(rows[i].date, today) && !YearMismatch(rows[i])
  {
    forall i | 0 <= i < |rows| ensures !SqlAfter(rows[i].date, today) && !YearMismatch(rows[i]) {
      assert rows[i] !in Filter(rows, AfterDay(today));
      assert rows[i] !in Filter(rows, YearMismatch);
    }
  }

  /**
    The repair as it runs against the table: the rows are an array that the
    UPDATE rewrites in place, and the phase records how far the run got.
   */
  class DateFixer {
    const table: array<SpeciesRow>
    const metadata: seq<SurveyDate>
    var phase: Phase
    var preview: seq<PreviewGroup>
    var backupUri: Option<string>

    constructor (rows: seq<SpeciesRow>, metadata: seq<SurveyDate>)
      ensures fresh(table) && table[..] == rows && this.metadata == metadata
      ensures phase == Idle && preview == [] && backupUri == None
    {
      table := new SpeciesRow[|rows|](i requires 0 <= i < |rows| => rows[i]);
      this.metadata := metadata;
      phase := Idle;
      preview := [];
      backupUri := None;
    }

    /** Runs the preview query. */
    method GeneratePreview()
      requires phase == Idle
      modifies this
      ensures preview == Preview(table[..], metadata)
      ensures phase == if preview == [] then Aborted(EmptyPreview) else Previewed
      ensures backupUri == old(backupUri)
    {
      preview := Preview(table[..], metadata);
      phase := if preview == [] then Aborted(EmptyPreview) else Previewed;
    }

    /** `create_backup`: the extraction is not modelled; `listedObjects` is
        what the listing of the backup prefix returns. */
    method CreateBackup(bucket: string, dataset: string, tableName: string, timestamp: string, listedObjects: nat)
      returns (uri: Option<string>)
      requires phase == Previewed
      modifies this
      ensures uri.Some? <==> bucket != "" && listedObjects > 0
      ensures uri.Some? ==> uri.value == BackupUri(bucket, dataset, tableName, timestamp)
      ensures phase == if bucket == "" then Aborted(MissingBucket)
                       else if listedObjects == 0 then Aborted(BackupVerificationFailed)
                       else BackedUp
      ensures backupUri == uri && preview == old(preview)
    {
      if bucket == "" {
        phase := Aborted(MissingBucket);
        uri := None;
      } else if listedObjects == 0 {
        phase := Aborted(BackupVerificationFailed);
        uri := None;
      } else {
        BackupUriUnderPrefix(bucket, dataset, tableName, timestamp);
        uri := Some(BackupUri(bucket, dataset, tableName, timestamp));
        phase := BackedUp;
      }
      backupUri := uri;
    }

    /** True when some row past the cutoff joins several metadata rows. */
    method FindAmbiguous() returns (found: bool)
      ensures found <==> exists i :: 0 <= i < table.Length && Ambiguous(metadata, table[i])
    {
      found := false;
      var i := 0;
      while i < table.Length
        invariant 0 <= i <= table.Length
        invariant found <==> exists k :: 0 <= k < i && Ambiguous(metadata, table[k])
      {
        if Ambiguous(metadata, table[i]) {
          found := true;
        }
        i := i + 1;
      }
    }

    /** The UPDATE statement, applied row by row; refused as a whole when a
        row is ambiguous. */
    method ApplyUpdate()
      requires phase == BackedUp
      modifies this, table
      ensures UpdateResult(old(table[..]), metadata).None? ==> table[..] == old(table[..]) && phase == Aborted(AmbiguousMetadata)
      ensures UpdateResult(old(table[..]), metadata).Some? ==> table[..] == UpdateResult(old(table[..]), metadata).value && phase == Updated
      ensures backupUri == old(backupUri) && preview == old(preview)
    {
      ghost var before := table[..];
      var ambiguous := FindAmbiguous();
      if ambiguous {
        phase := Aborted(AmbiguousMetadata);
        return;
      }
      assert UpdateResult(before, metadata).Some?;
      var i := 0;
      while i < table.Length
        invariant 0 <= i <= table.Length
        invariant forall k :: 0 <= k < i ==> table[k] == UpdatedRow(metadata, before[k])
        invariant forall k :: i <= k < table.Length ==> table[k] == before[k]
        modifies table
      {
        var row := table[i];
        assert row == before[i];
        table[i] := UpdatedRow(metadata, row);
        i := i + 1;
      }
      assert table[..] == UpdateResult(before, metadata).value;
      phase := Updated;
    }

    /** `validate_dates`: the number of rows dated after `today`. */
    method CountAfter(today: Date) returns (n: nat)
      ensures n == |Filter(table[..], AfterDay(today))|
    {
      n := 0;
      var i := 0;
      while i < table.Length
        invariant 0 <= i <= table.Length
        invariant n == |Filter(table[..i], AfterDay(today))|
      {
        assert table[..i + 1] == table[..i] + [table[i]];
        FilterConcat(table[..i], [table[i]], AfterDay(today));
        if SqlAfter(table[i].date, today) {
          n := n + 1;
        }
        i := i + 1;
      }
      assert table[..i] == table[..];
    }

    /** The year check: the number of rows whose year differs from their date's. */
    method CountYearMismatches() returns (n: nat)
      ensures n == |Filter(table[..], YearMismatch)|
    {
      n := 0;
      var i := 0;
      while i < table.Length
        invariant 0 <= i <= table.Length
        invariant n == |Filter(table[..i], YearMismatch)|
      {
        assert table[..i + 1] == table[..i] + [table[i]];
        FilterConcat(table[..i], [table[i]], YearMismatch);
        if YearMismatch(table[i]) {
          n := n + 1;
        }
        i := i + 1;
      }
      assert table[..i] == table[..];
    }

    /** The two checks after the UPDATE. */
    method Validate(today: Date)
      requires phase == Updated
      modifies this
      ensures phase == Validation(table[..], today)
      ensures backupUri == old(backupUri) && preview == old(preview)
    {
      var future := CountAfter(today);
      if future > 0 {
        phase := Aborted(DateValidationFailed(future));
        return;
      }
      var years := CountYearMismatches();
      if years > 0 {
        phase := Aborted(YearValidationFailed(years));
        return;
      }
      phase := Completed;
    }

    /** `fix_dates` up to the UPDATE: the preview, the dry-run stop and the
        verified backup. The table itself is not touched. */
    method PrepareUpdate(cfg: RunConfig)
      requires phase == Idle && backupUri == None
      modifies this
      ensures preview == Preview(table[..], metadata)
      ensures phase == BackedUp <==> ReachesUpdate(table[..], metadata, cfg)
      ensures phase == BackedUp ==> backupUri == Some(BackupUri(cfg.bucket, cfg.dataset, cfg.table, cfg.timestamp))
      ensures phase != BackedUp ==>
        phase == FixDates(table[..], metadata, cfg).phase && backupUri == None
    {
      GeneratePreview();
      if phase != Previewed {
        return;
      }
      if cfg.dryRun {
        phase := DryRunDone;
        return;
      }
      var uri := CreateBackup(cfg.bucket, cfg.dataset, cfg.table, cfg.timestamp, cfg.listedObjects);
    }

    /** The UPDATE as the script sends it, unformatted: BigQuery rejects it
        and the table is left as it was. */
    method SendUnformattedUpdate()
      requires phase == BackedUp
      modifies this
      ensures phase == Aborted(UpdateRejected)
      ensures backupUri == old(backupUri) && preview == old(preview)
    {
      phase := Aborted(UpdateRejected);
    }

    /** `fix_dates` as written, followed by `main`'s exit status: the table
        never changes, and every live run exits 1. */
    method RunAsWritten(cfg: RunConfig) returns (exitStatus: int)
      requires phase == Idle && backupUri == None
      modifies this
      ensures var o := FixDatesAsWritten(table[..], metadata, cfg);
        phase == o.phase && backupUri == o.backupUri
      ensures table[..] == old(table[..])
      ensures preview == Preview(table[..], metadata)
      ensures exitStatus == ExitStatus(phase)
      ensures exitStatus == 0 <==> cfg.dryRun && preview != []
    {
      PrepareUpdate(cfg);
      if phase == BackedUp {
        SendUnformattedUpdate();
      }
      exitStatus := ExitStatus(phase);
    }

    /** `fix_dates` with the UPDATE formatted, followed by `main`'s exit
        status. */
    method Run(cfg: RunConfig) returns (exitStatus: int)
      requires phase == Idle && backupUri == None
      modifies this, table
      ensures var o := FixDates(old(table[..]), metadata, cfg);
        phase == o.phase && table[..] == o.rows && backupUri == o.backupUri
      ensures preview == Preview(old(table[..]), metadata)
      ensures exitStatus == ExitStatus(phase)
    {
      PrepareUpdate(cfg);
      if phase != BackedUp {
        exitStatus := ExitStatus(phase);
        return;
      }
      ApplyUpdate();
      if phase != Updated {
        exitStatus := ExitStatus(phase);
        return;
      }
      Validate(cfg.today);
      exitStatus := ExitStatus(phase);
    }
  }
}
