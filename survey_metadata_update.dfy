/**
  The survey-metadata upload: the FileMaker export is renamed to the
  warehouse's column names, given an empty survey_sequence column, put in
  table order, checked for missing cells, optionally backed up, and
  appended to the table.
 */
module SurveyMetadataUpdate {
  import opened Relational
  import opened Dates
  import opened Frames
  import opened Uploads

  const MetadataRenames: map<string, string> := map[
    "__kp_Survey" := "survey_ID",
    "_kf_Site" := "grid_point",
    "SurveyYear" := "year",
    "SurveyDate" := "date",
    "Surveyor1" := "surveyor"]

  /** The table's columns, in table order. */
  const MetadataColumns: seq<string> :=
    ["survey_ID", "grid_point", "year", "date", "survey_sequence", "surveyor"]

  /** The columns that must have no missing cell; survey_sequence is not among them. */
  const RequiredColumns: seq<string> := ["survey_ID", "grid_point", "year", "date", "surveyor"]

  // ---- Transform ----

  /** `transform_data`: rename, add survey_sequence with no value in any row,
      then keep the table's columns in table order. None when a column the
      table needs is missing after the rename (a KeyError). */
  function TransformData(df: Frame): (r: Option<Frame>)
    ensures var renamed := Rename(df, MetadataRenames);
      r.None? <==> !HasColumns(renamed, RequiredColumns)
    ensures r.Some? ==> Names(r.value) == MetadataColumns && r.value.height == df.height
    ensures r.Some? ==> |r.value.columns[4].cells| == df.height
    ensures r.Some? ==> forall i :: 0 <= i < |r.value.columns[4].cells| ==> r.value.columns[4].cells[i] == Null
    ensures var renamed := Rename(df, MetadataRenames);
      r.Some? ==> forall k :: 0 <= k < |MetadataColumns| && k != 4 ==>
        HasColumn(renamed, MetadataColumns[k]) && r.value.columns[k].cells == ColumnOf(renamed, MetadataColumns[k])
  {
    var renamed := Rename(df, MetadataRenames);
    var withSequence := Assign(renamed, "survey_sequence", seq(renamed.height, i => Null));
    SequenceColumnAdded(renamed);
    Select(withSequence, MetadataColumns)
  }

  /** Adding survey_sequence leaves every other column, and whether it
      exists, as it was. */
  lemma SequenceColumnAdded(renamed: Frame)
    ensures var withSequence := Assign(renamed, "survey_sequence", seq(renamed.height, i => Null));
      && (HasColumns(withSequence, MetadataColumns) <==> HasColumns(renamed, RequiredColumns))
      && HasColumn(withSequence, MetadataColumns[4])
      && ColumnOf(withSequence, MetadataColumns[4]) == seq(renamed.height, i => Null)
      && (HasColumns(renamed, RequiredColumns) ==> forall k :: 0 <= k < |MetadataColumns| && k != 4 ==>
            HasColumn(renamed, MetadataColumns[k]) && HasColumn(withSequence, MetadataColumns[k])
            && ColumnOf(withSequence, MetadataColumns[k]) == ColumnOf(renamed, MetadataColumns[k]))
  {
    var withSequence := Assign(renamed, "survey_sequence", seq(renamed.height, i => Null));
    forall k | 0 <= k < |MetadataColumns| && k != 4
      ensures MetadataColumns[k] == RequiredColumns[if k < 4 then k else 4]
      ensures HasColumn(withSequence, MetadataColumns[k]) <==> HasColumn(renamed, MetadataColumns[k])
      ensures HasColumn(renamed, MetadataColumns[k]) ==>
        ColumnOf(withSequence, MetadataColumns[k]) == ColumnOf(renamed, MetadataColumns[k])
    {
      AssignOther(renamed, "survey_sequence", seq(renamed.height, i => Null), MetadataColumns[k]);
    }
    if HasColumns(withSequence, MetadataColumns) {
      forall k | 0 <= k < |RequiredColumns| ensures HasColumn(renamed, RequiredColumns[k]) {
        assert RequiredColumns[k] == MetadataColumns[if k < 4 then k else 5];
      }
    }
  }

  // ---- Validation ----

  /** `validate_data`: every required column has a value in every row. */
  function ValidateData(df: Frame): (ok: bool)
    requires HasColumns(df, RequiredColumns)
    ensures ok <==> forall k :: 0 <= k < |RequiredColumns| ==> NoNulls(ColumnOf(df, RequiredColumns[k]))
  {
    assert HasColumn(df, RequiredColumns[0]) && HasColumn(df, RequiredColumns[1]) && HasColumn(df, RequiredColumns[2]);
    assert HasColumn(df, RequiredColumns[3]) && HasColumn(df, RequiredColumns[4]);
    NoNulls(ColumnOf(df, "survey_ID")) && NoNulls(ColumnOf(df, "grid_point"))
    && NoNulls(ColumnOf(df, "year")) && NoNulls(ColumnOf(df, "date"))
    && NoNulls(ColumnOf(df, "surveyor"))
  }

  lemma MetadataColumnsDistinct()
    ensures NoDuplicates(MetadataColumns)
  {
  }

  /** In a frame with the table's columns, each name finds its own column. */
  lemma InTableOrder(r: Frame)
    requires Names(r) == MetadataColumns
    ensures forall k :: 0 <= k < |MetadataColumns| ==>
      HasColumn(r, MetadataColumns[k]) && ColumnOf(r, MetadataColumns[k]) == r.columns[k].cells
  {
    MetadataColumnsDistinct();
    DistinctNamesFindColumns(r);
    forall k | 0 <= k < |MetadataColumns| ensures r.columns[k].name == MetadataColumns[k] {
      assert Names(r)[k] == r.columns[k].name;
    }
  }

  /** A frame in table order whose survey_sequence has no value and whose
      other columns are those of `renamed`. */
  lemma TableOrderColumns(r: Frame, renamed: Frame, h: nat)
    requires Names(r) == MetadataColumns
    requires |r.columns[4].cells| == h && forall i :: 0 <= i < h ==> r.columns[4].cells[i] == Null
    requires forall k :: 0 <= k < |MetadataColumns| && k != 4 ==>
      HasColumn(renamed, MetadataColumns[k]) && r.columns[k].cells == ColumnOf(renamed, MetadataColumns[k])
    ensures && HasColumns(r, RequiredColumns) && HasColumns(renamed, RequiredColumns)
      && (forall k :: 0 <= k < |RequiredColumns| ==> ColumnOf(r, RequiredColumns[k]) == ColumnOf(renamed, RequiredColumns[k]))
      && HasColumn(r, "survey_sequence")
      && ColumnOf(r, "survey_sequence") == seq(h, i => Null)
  {
    InTableOrder(r);
    forall k | 0 <= k < |RequiredColumns|
      ensures HasColumn(r, RequiredColumns[k]) && HasColumn(renamed, RequiredColumns[k])
      ensures ColumnOf(r, RequiredColumns[k]) == ColumnOf(renamed, RequiredColumns[k])
    {
      var m := if k < 4 then k else 5;
      assert RequiredColumns[k] == MetadataColumns[m];
      assert ColumnOf(r, MetadataColumns[m]) == r.columns[m].cells;
    }
    assert ColumnOf(r, MetadataColumns[4]) == r.columns[4].cells;
  }

  /** The transformed frame holds the renamed input's required columns
      unchanged, and a survey_sequence column with no value in it. */
  lemma TransformedColumns(df: Frame)
    requires TransformData(df).Some?
    ensures var r := TransformData(df).value;
      var renamed := Rename(df, MetadataRenames);
      && HasColumns(r, RequiredColumns) && HasColumns(renamed, RequiredColumns)
      && (forall k :: 0 <= k < |RequiredColumns| ==> ColumnOf(r, RequiredColumns[k]) == ColumnOf(renamed, RequiredColumns[k]))
      && HasColumn(r, "survey_sequence")
      && ColumnOf(r, "survey_sequence") == seq(df.height, i => Null)
  {
    TableOrderColumns(TransformData(df).value, Rename(df, MetadataRenames), df.height);
  }

  /** Checking the transformed frame is checking the renamed input's
      required columns; survey_sequence, always empty, is not checked, and
      would fail every non-empty frame if it were. */
  lemma ValidationReadsInputColumns(df: Frame)
    requires TransformData(df).Some?
    ensures var r := TransformData(df).value;
      var renamed := Rename(df, MetadataRenames);
      && HasColumns(r, RequiredColumns) && HasColumns(renamed, RequiredColumns) && HasColumn(r, "survey_sequence")
      && (ValidateData(r) <==> ValidateData(renamed))
      && (df.height > 0 ==> !NoNulls(ColumnOf(r, "survey_sequence")))
  {
    TransformedColumns(df);
    var r := TransformData(df).value;
    if df.height > 0 {
      assert ColumnOf(r, "survey_sequence")[0] == Null;
    }
  }

  // ---- Records for the load job ----

  /** The record rewrite: the "date" field, when it holds a timestamp, becomes
      its `YYYY-MM-DD` text; every other field is left alone. */
  function DateToText(f: Field): (g: Field)
    ensures g.key == f.key
    ensures f.key == "date" && f.value.Stamp? ==> g.value.Text? && ParseIso(g.value.s) == Some(f.value.d)
    ensures !(f.key == "date" && f.value.Stamp?) ==> g == f
  {
    if f.key == "date" && f.value.Stamp? then
      ParseFormatIso(f.value.d);
      Field(f.key, Text(FormatIso(f.value.d)))
    else f
  }

  function DateRecord(r: Record): (c: Record)
    ensures |c| == |r| && forall j :: 0 <= j < |c| ==> c[j] == DateToText(r[j])
  {
    seq(|r|, j requires 0 <= j < |r| => DateToText(r[j]))
  }

  /** Rewriting a record twice gives the same record as once. */
  lemma DateRecordIdempotent(r: Record)
    ensures DateRecord(DateRecord(r)) == DateRecord(r)
  {
    var once := DateRecord(r);
    forall j | 0 <= j < |once| ensures DateToText(once[j]) == once[j] {
    }
  }

  /** The loop over `records` in `upload_to_bigquery`, assigning `record["date"]` in place. */
  method PrepareRecords(records: array<Record>)
    modifies records
    ensures forall i :: 0 <= i < records.Length ==> records[i] == DateRecord(old(records[i]))
  {
    for i := 0 to records.Length
      invariant forall k :: 0 <= k < i ==> records[k] == DateRecord(old(records[k]))
      invariant forall k :: i <= k < records.Length ==> records[k] == old(records[k])
    {
      var record := records[i];
      for j := 0 to |record|
        invariant |record| == |old(records[i])|
        invariant forall l :: 0 <= l < j ==> record[l] == DateToText(old(records[i])[l])
        invariant forall l :: j <= l < |record| ==> record[l] == old(records[i])[l]
      {
        record := record[j := DateToText(record[j])];
      }
      records[i] := record;
    }
  }

  // ---- Backup and run ----

  /** `backup_table`: the extract lands under the table's own name and the
      fixed table type "survey_metadata". */
  function BackupLocation(bucket: string, tableId: string, timestamp: string): (path: string)
    ensures forall project, table :: tableId == project + "." + table && (forall i :: 0 <= i < |table| ==> table[i] != '.') ==>
      path == "gs://" + bucket + "/backups/" + table + "/" + "survey_metadata" + "/" + timestamp + "/backup_*.csv"
  {
    forall project, table | tableId == project + "." + table && (forall i :: 0 <= i < |table| ==> table[i] != '.')
      ensures BackupPath(bucket, tableId, "survey_metadata", timestamp)
        == "gs://" + bucket + "/backups/" + table + "/" + "survey_metadata" + "/" + timestamp + "/backup_*.csv"
    {
      BackupPathNamesTable(bucket, project, table, "survey_metadata", timestamp);
    }
    BackupPath(bucket, tableId, "survey_metadata", timestamp)
  }

  /** `main` once the frame is checked: nothing when it fails the check,
      otherwise the dry-run summary, or the backup (when a bucket is given)
      and the load. A failed backup ends the run before the load. */
  function ValidatedSteps(valid: bool, dryRun: bool, backupBucket: bool, backupOk: bool, loadOk: bool): (steps: seq<Step>)
    ensures forall s :: s in steps ==> s.table == SurveyMetadata
    ensures |steps| <= 2
  {
    if !valid then []
    else if dryRun then [DryRunSummary(SurveyMetadata)]
    else if backupBucket && !backupOk then [Backup(SurveyMetadata, false)]
    else (if backupBucket then [Backup(SurveyMetadata, true)] else []) + [Load(SurveyMetadata, loadOk)]
  }

  /** What `transform_data` and `validate_data` make of the export: None
      when the transform raises, otherwise whether the frame passes. */
  function Verdict(df: Frame): (v: Option<bool>)
    ensures v.None? <==> !HasColumns(Rename(df, MetadataRenames), RequiredColumns)
    ensures v.Some? ==> (v.value <==> ValidateData(Rename(df, MetadataRenames)))
  {
    match TransformData(df)
    case None => None
    case Some(r) =>
      ValidationReadsInputColumns(df);
      Some(ValidateData(r))
  }

  /** `main`: a transform that raises ends the process with status 1 before
      anything is started; every other run, including one whose check,
      backup or load fails, returns normally. */
  function Workflow(df: Frame, dryRun: bool, backupBucket: bool, backupOk: bool, loadOk: bool): (r: Run)
    ensures r.exitCode == 1 ==> r.steps == []
    ensures r.exitCode == 0 || r.exitCode == 1
  {
    match Verdict(df)
    case None => Run([], 1)
    case Some(valid) => Run(ValidatedSteps(valid, dryRun, backupBucket, backupOk, loadOk), 0)
  }

  /** The process exits 1 exactly when a required column is missing after
      the rename. */
  lemma ExitStatus(df: Frame, dryRun: bool, backupBucket: bool, backupOk: bool, loadOk: bool)
    ensures Workflow(df, dryRun, backupBucket, backupOk, loadOk).exitCode == 1 <==>
      !HasColumns(Rename(df, MetadataRenames), RequiredColumns)
    ensures Workflow(df, dryRun, backupBucket, backupOk, loadOk).exitCode in {0, 1}
  {
  }

  /** A frame that fails the check starts nothing, and a dry run starts no job. */
  lemma StepsNeedValidFrame(valid: bool, dryRun: bool, backupBucket: bool, backupOk: bool, loadOk: bool)
    ensures !valid ==> ValidatedSteps(valid, dryRun, backupBucket, backupOk, loadOk) == []
    ensures dryRun ==> forall s :: s in ValidatedSteps(valid, dryRun, backupBucket, backupOk, loadOk) ==> !IsJob(s)
  {
  }

  /** A frame that cannot be built or fails the check starts nothing, and a
      dry run starts no job. */
  lemma NothingBeforeValidation(df: Frame, dryRun: bool, backupBucket: bool, backupOk: bool, loadOk: bool)
    ensures var renamed := Rename(df, MetadataRenames);
      !HasColumns(renamed, RequiredColumns) || !ValidateData(renamed) ==>
        Workflow(df, dryRun, backupBucket, backupOk, loadOk).steps == []
    ensures dryRun ==> forall s :: s in Workflow(df, dryRun, backupBucket, backupOk, loadOk).steps ==> !IsJob(s)
  {
    match Verdict(df)
    case None =>
      assert Workflow(df, dryRun, backupBucket, backupOk, loadOk).steps == [];
    case Some(valid) =>
      StepsNeedValidFrame(valid, dryRun, backupBucket, backupOk, loadOk);
  }

  /** On the checked frame the load happens exactly when the check passed,
      the run is live and the backup (if any) succeeded, and follows it. */
  lemma StepsGated(valid: bool, dryRun: bool, backupBucket: bool, backupOk: bool, loadOk: bool)
    ensures Loads(ValidatedSteps(valid, dryRun, backupBucket, backupOk, loadOk), SurveyMetadata) <==>
      valid && !dryRun && (backupBucket ==> backupOk)
    ensures backupBucket && Loads(ValidatedSteps(valid, dryRun, backupBucket, backupOk, loadOk), SurveyMetadata) ==>
      Precedes(ValidatedSteps(valid, dryRun, backupBucket, backupOk, loadOk), Backup(SurveyMetadata, true), Load(SurveyMetadata, loadOk))
  {
    var steps := ValidatedSteps(valid, dryRun, backupBucket, backupOk, loadOk);
    if Loads(steps, SurveyMetadata) {
      var ok :| Load(SurveyMetadata, ok) in steps;
    }
    if valid && !dryRun && (backupBucket ==> backupOk) {
      var backup := if backupBucket then [Backup(SurveyMetadata, true)] else [];
      assert steps[|backup|] == Load(SurveyMetadata, loadOk);
      if backupBucket {
        assert steps[0] == Backup(SurveyMetadata, true);
      }
    }
  }

  /** The table is appended to exactly when the export has every required
      column, none of them has a missing cell, the run is live, and the
      backup (if a bucket is given) succeeded; the backup then comes first. */
  lemma LoadIsGated(df: Frame, dryRun: bool, backupBucket: bool, backupOk: bool, loadOk: bool)
    ensures var renamed := Rename(df, MetadataRenames);
      Loads(Workflow(df, dryRun, backupBucket, backupOk, loadOk).steps, SurveyMetadata) <==>
        HasColumns(renamed, RequiredColumns) && ValidateData(renamed) && !dryRun && (backupBucket ==> backupOk)
    ensures backupBucket && Loads(Workflow(df, dryRun, backupBucket, backupOk, loadOk).steps, SurveyMetadata) ==>
      Precedes(Workflow(df, dryRun, backupBucket, backupOk, loadOk).steps, Backup(SurveyMetadata, true), Load(SurveyMetadata, loadOk))
  {
    match Verdict(df)
    case None =>
      assert Workflow(df, dryRun, backupBucket, backupOk, loadOk).steps == [];
    case Some(valid) =>
      StepsGated(valid, dryRun, backupBucket, backupOk, loadOk);
  }
}
