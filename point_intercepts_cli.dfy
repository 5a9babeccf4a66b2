/**
  The flag-driven point-intercepts upload: the exported point-intercept
  sheet becomes the vegetation table and the ground-cover table. Both
  frames are validated; then, unless it is a dry run, the target table is
  backed up (when a bucket is given) and the rows are appended.
 */
module PointInterceptsCli {
  import opened Relational
  import opened Dates
  import opened Frames
  import opened Uploads

  const VegetationRenames: map<string, string> := map[
    "Survey Data::__kp_Survey" := "survey_ID",
    "Survey Data::_kf_Site" := "grid_point",
    "Survey Data::SurveyDate" := "date",
    "Survey Data::SurveyYear" := "year",
    "PointTrans" := "transect_point",
    "Height" := "height_intercept_1",
    "_kf_Hit1_serial" := "intercept_1",
    "_kf_Hit2_serial" := "intercept_2",
    "_kf_Hit3_serial" := "intercept_3",
    "_kf_Hit4_serial" := "intercept_4"]

  const GroundRenames: map<string, string> := map[
    "Survey Data::__kp_Survey" := "survey_ID",
    "Survey Data::_kf_Site" := "grid_point",
    "Survey Data::SurveyDate" := "date",
    "Survey Data::SurveyYear" := "year",
    "PointTrans" := "transect_point",
    "_kf_Hit1_serial" := "intercept_1",
    "GroundCover" := "intercept_ground_code"]

  /** The nullable numeric columns of the vegetation table. */
  const NumericColumns: seq<string> :=
    ["height_intercept_1", "intercept_1", "intercept_2", "intercept_3", "intercept_4"]

  /** The ground-cover table's columns, in table order. */
  const GroundColumns: seq<string> :=
    ["survey_ID", "grid_point", "date", "year", "transect_point", "intercept_1", "intercept_ground_code"]

  /** The columns whose null counts the vegetation report prints. */
  const VegetationReported: seq<string> :=
    ["survey_ID", "grid_point", "date", "year", "transect_point", "intercept_1"]

  // ---- Transforms ----

  /** One numeric cell: the markers "" and "NA" become missing, then the
      text is coerced to a number. */
  function NumericCell(v: Value): (r: Value)
    ensures r.Null? || r.Int?
    ensures v.Int? ==> r == v
    ensures v == Text("") || v == Text("NA") || v.Null? ==> r == Null
  {
    CoerceNumeric(NullifyMarkers(v))
  }

  lemma NumericColumnsDistinct()
    ensures NoDuplicates(NumericColumns)
  {
  }

  /** The loop of `transform_vegetation_data` over the numeric columns. */
  method ConvertNumericColumns(f: Frame) returns (out: Frame)
    requires HasColumns(f, NumericColumns)
    ensures out == MapColumns(f, NumericColumns, NumericCell)
    ensures Names(out) == Names(f)
    ensures forall k :: 0 <= k < |NumericColumns| ==>
      HasColumn(out, NumericColumns[k])
      && ColumnOf(out, NumericColumns[k]) == MapCells(ColumnOf(f, NumericColumns[k]), NumericCell)
  {
    out := f;
    assert NumericColumns[..0] == [];
    for k := 0 to |NumericColumns|
      invariant HasColumns(f, NumericColumns[..k])
      invariant out == MapColumns(f, NumericColumns[..k], NumericCell)
    {
      MapColumnsSnoc(f, NumericColumns, k, NumericCell);
      out := MapColumn(out, NumericColumns[k], NumericCell);
    }
    assert NumericColumns[..|NumericColumns|] == NumericColumns;
    NumericColumnsDistinct();
    MapColumnsConverts(f, NumericColumns, NumericCell);
  }

  /** `transform_vegetation_data` as a value: rename, then convert the
      numeric columns. None when a column it reads is missing (KeyError).
      The date and grid_point/year conversions are not modelled. */
  function TransformedVegetation(df: Frame): (r: Option<Frame>)
    ensures var renamed := Rename(df, VegetationRenames);
      r.None? <==>
        !HasColumn(renamed, "date") || !HasColumn(renamed, "grid_point") || !HasColumn(renamed, "year")
        || !HasColumns(renamed, NumericColumns)
    ensures r.Some? ==> Names(r.value) == Names(Rename(df, VegetationRenames)) && r.value.height == df.height
  {
    var renamed := Rename(df, VegetationRenames);
    if !HasColumn(renamed, "date") || !HasColumn(renamed, "grid_point") || !HasColumn(renamed, "year")
       || !HasColumns(renamed, NumericColumns) then None
    else Some(MapColumns(renamed, NumericColumns, NumericCell))
  }

  /** The transformed vegetation frame holds each numeric column converted
      cell by cell, and every other column as it was. */
  lemma TransformedVegetationCells(df: Frame)
    requires TransformedVegetation(df).Some?
    ensures var renamed, r := Rename(df, VegetationRenames), TransformedVegetation(df).value;
      && (forall k :: 0 <= k < |NumericColumns| ==>
            HasColumn(r, NumericColumns[k])
            && ColumnOf(r, NumericColumns[k]) == MapCells(ColumnOf(renamed, NumericColumns[k]), NumericCell))
      && forall x :: HasColumn(renamed, x) && x !in NumericColumns ==>
            HasColumn(r, x) && ColumnOf(r, x) == ColumnOf(renamed, x)
  {
    var renamed := Rename(df, VegetationRenames);
    NumericColumnsDistinct();
    MapColumnsConverts(renamed, NumericColumns, NumericCell);
    forall x | HasColumn(renamed, x) && x !in NumericColumns
      ensures HasColumn(MapColumns(renamed, NumericColumns, NumericCell), x)
        && ColumnOf(MapColumns(renamed, NumericColumns, NumericCell), x) == ColumnOf(renamed, x)
    {
      MapColumnsUnlisted(renamed, NumericColumns, NumericCell, x);
    }
  }

  /** `transform_vegetation_data`, with its loop over the numeric columns. */
  method TransformVegetation(df: Frame) returns (out: Option<Frame>)
    ensures out == TransformedVegetation(df)
  {
    var renamed := Rename(df, VegetationRenames);
    if !HasColumn(renamed, "date") || !HasColumn(renamed, "grid_point") || !HasColumn(renamed, "year")
       || !HasColumns(renamed, NumericColumns) {
      return None;
    }
    var converted := ConvertNumericColumns(renamed);
    return Some(converted);
  }

  /** `transform_ground_data`: rename, turn "" into NA in intercept_1 and cast
      it to Int64, then keep the seven ground-cover columns. None when a
      column is missing or a cell cannot be cast. */
  function TransformGround(df: Frame): (r: Option<Frame>)
    ensures var renamed := Rename(df, GroundRenames);
      r.None? <==> (
        || !HasColumns(renamed, GroundColumns)
        || CastCells(MapCells(ColumnOf(renamed, "intercept_1"), EmptyToNull)).None?)
    ensures r.Some? ==> Names(r.value) == GroundColumns
    ensures var renamed := Rename(df, GroundRenames);
      r.Some? ==> forall k :: 0 <= k < |GroundColumns| ==>
        r.value.columns[k].cells ==
          if GroundColumns[k] == "intercept_1" then MapCells(ColumnOf(renamed, "intercept_1"), EmptyToNull)
          else ColumnOf(renamed, GroundColumns[k])
  {
    var renamed := Rename(df, GroundRenames);
    if !HasColumns(renamed, GroundColumns) then None
    else
      assert HasColumn(renamed, GroundColumns[5]);
      match CastCells(MapCells(ColumnOf(renamed, "intercept_1"), EmptyToNull))
      case None => None
      case Some(cells) =>
        var cast := MapColumn(renamed, "intercept_1", EmptyToNull);
        SameNamesSameColumns(renamed, cast);
        assert forall k :: 0 <= k < |GroundColumns| && GroundColumns[k] != "intercept_1" ==>
          ColumnOf(cast, GroundColumns[k]) == ColumnOf(renamed, GroundColumns[k]) by {
          forall k | 0 <= k < |GroundColumns| && GroundColumns[k] != "intercept_1"
            ensures ColumnOf(cast, GroundColumns[k]) == ColumnOf(renamed, GroundColumns[k])
          {
            MapColumnOther(renamed, "intercept_1", EmptyToNull, GroundColumns[k]);
          }
        }
        assert HasColumns(cast, GroundColumns);
        Select(cast, GroundColumns)
  }

  // ---- Validation ----

  /** `validate_vegetation_data`: grid_point, date, year and transect_point
      have no missing cell and every text transect point is well formed;
      intercept_1 may be missing. */
  function ValidateVegetation(df: Frame): (ok: bool)
    requires HasColumns(df, VegetationReported)
    ensures ok <==>
      && NoNulls(ColumnOf(df, "grid_point")) && NoNulls(ColumnOf(df, "date"))
      && NoNulls(ColumnOf(df, "year")) && NoNulls(ColumnOf(df, "transect_point"))
      && forall i :: 0 <= i < |ColumnOf(df, "transect_point")| && ColumnOf(df, "transect_point")[i].Text? ==>
           IsTransectPoint(ColumnOf(df, "transect_point")[i].s)
  {
    assert HasColumn(df, VegetationReported[1]) && HasColumn(df, VegetationReported[2]);
    assert HasColumn(df, VegetationReported[3]) && HasColumn(df, VegetationReported[4]);
    var tp := ColumnOf(df, "transect_point");
    forall i | 0 <= i < |tp| && tp[i].Text? ensures MatchesTransect(tp[i].s) <==> IsTransectPoint(tp[i].s) {
      MatchesTransectIff(tp[i].s);
    }
    NoNulls(ColumnOf(df, "grid_point")) && NoNulls(ColumnOf(df, "date"))
    && NoNulls(ColumnOf(df, "year")) && NoNulls(tp)
    && TransectColumnOk(tp)
  }

  /** `validate_ground_data`: as for vegetation, and intercept_ground_code
      must be present too. */
  function ValidateGround(df: Frame): (ok: bool)
    requires HasColumns(df, GroundColumns)
    ensures HasColumn(df, "grid_point") && HasColumn(df, "date") && HasColumn(df, "year")
    ensures HasColumn(df, "transect_point") && HasColumn(df, "intercept_ground_code")
    ensures ok <==>
      && NoNulls(ColumnOf(df, "grid_point")) && NoNulls(ColumnOf(df, "date"))
      && NoNulls(ColumnOf(df, "year")) && NoNulls(ColumnOf(df, "transect_point"))
      && NoNulls(ColumnOf(df, "intercept_ground_code"))
      && forall i :: 0 <= i < |ColumnOf(df, "transect_point")| && ColumnOf(df, "transect_point")[i].Text? ==>
           IsTransectPoint(ColumnOf(df, "transect_point")[i].s)
  {
    assert HasColumn(df, GroundColumns[1]) && HasColumn(df, GroundColumns[2]) && HasColumn(df, GroundColumns[3]);
    assert HasColumn(df, GroundColumns[4]) && HasColumn(df, GroundColumns[6]);
    var tp := ColumnOf(df, "transect_point");
    forall i | 0 <= i < |tp| && tp[i].Text? ensures MatchesTransect(tp[i].s) <==> IsTransectPoint(tp[i].s) {
      MatchesTransectIff(tp[i].s);
    }
    NoNulls(ColumnOf(df, "grid_point")) && NoNulls(ColumnOf(df, "date"))
    && NoNulls(ColumnOf(df, "year")) && NoNulls(tp)
    && NoNulls(ColumnOf(df, "intercept_ground_code"))
    && TransectColumnOk(tp)
  }

  /** The vegetation verdict reads only grid_point, date, year and transect_point. */
  lemma ValidateVegetationReads(a: Frame, b: Frame)
    requires HasColumns(a, VegetationReported) && HasColumns(b, VegetationReported)
    requires HasColumn(a, "grid_point") && HasColumn(a, "date") && HasColumn(a, "year") && HasColumn(a, "transect_point")
    requires HasColumn(b, "grid_point") && HasColumn(b, "date") && HasColumn(b, "year") && HasColumn(b, "transect_point")
    requires ColumnOf(a, "grid_point") == ColumnOf(b, "grid_point") && ColumnOf(a, "date") == ColumnOf(b, "date")
    requires ColumnOf(a, "year") == ColumnOf(b, "year") && ColumnOf(a, "transect_point") == ColumnOf(b, "transect_point")
    ensures ValidateVegetation(a) == ValidateVegetation(b)
  {
  }

  /** Replacing the intercept_1 cells, whatever they become, does not change the vegetation verdict. */
  lemma InterceptIgnored(df: Frame, cells: seq<Value>)
    requires HasColumns(df, VegetationReported)
    ensures HasColumns(Assign(df, "intercept_1", cells), VegetationReported)
    ensures ValidateVegetation(Assign(df, "intercept_1", cells)) == ValidateVegetation(df)
  {
    var r := Assign(df, "intercept_1", cells);
    assert HasColumn(df, VegetationReported[0]) && HasColumn(df, VegetationReported[1]) && HasColumn(df, VegetationReported[2]);
    assert HasColumn(df, VegetationReported[3]) && HasColumn(df, VegetationReported[4]);
    AssignOther(df, "intercept_1", cells, "survey_ID");
    AssignOther(df, "intercept_1", cells, "grid_point");
    AssignOther(df, "intercept_1", cells, "date");
    AssignOther(df, "intercept_1", cells, "year");
    AssignOther(df, "intercept_1", cells, "transect_point");
    AssignKeepsColumns(df, "intercept_1", cells, VegetationReported);
    ValidateVegetationReads(df, r);
  }

  /** Blanking every intercept_1 cell does not change the vegetation verdict. */
  lemma MissingInterceptAllowed(df: Frame)
    requires HasColumns(df, VegetationReported)
    ensures var blank := Assign(df, "intercept_1", seq(df.height, i => Null));
      HasColumns(blank, VegetationReported) && ValidateVegetation(blank) == ValidateVegetation(df)
  {
    InterceptIgnored(df, seq(df.height, i => Null));
  }

  /** A transformed ground frame has every column the ground check reads. */
  lemma TransformedGroundIsCheckable(df: Frame)
    requires TransformGround(df).Some?
    ensures HasColumns(TransformGround(df).value, GroundColumns)
  {
    var r := TransformGround(df).value;
    forall k | 0 <= k < |GroundColumns| ensures HasColumn(r, GroundColumns[k]) {
      assert r.columns[k].name == Names(r)[k];
    }
  }

  // ---- Records for the load job ----

  /** One value of a record: missing becomes None, a timestamp its `YYYY-MM-DD` text. */
  function LoadValue(v: Value): (r: Value)
    ensures !r.Stamp?
    ensures v.Stamp? ==> r.Text? && ParseIso(r.s) == Some(v.d)
    ensures !v.Stamp? ==> r == v
  {
    match v
    case Stamp(d) => ParseFormatIso(d); Text(FormatIso(d))
    case _ => v
  }

  function LoadRecord(r: Record): (c: Record)
    ensures |c| == |r|
    ensures forall j :: 0 <= j < |c| ==> c[j] == Field(r[j].key, LoadValue(r[j].value))
  {
    seq(|r|, j requires 0 <= j < |r| => Field(r[j].key, LoadValue(r[j].value)))
  }

  /** The converted records keep their keys, hold no timestamp, and give
      back every original date. */
  lemma LoadRecordKeepsData(r: Record, j: int)
    requires 0 <= j < |r|
    ensures LoadRecord(r)[j].key == r[j].key && !LoadRecord(r)[j].value.Stamp?
    ensures r[j].value.Stamp? ==> ParseIso(LoadRecord(r)[j].value.s) == Some(r[j].value.d)
    ensures !r[j].value.Stamp? ==> LoadRecord(r)[j].value == r[j].value
  {
  }

  /** The loop over `records` in `upload_to_bigquery`, rewriting each dict in place. */
  method PrepareRecords(records: array<Record>)
    modifies records
    ensures forall i :: 0 <= i < records.Length ==> records[i] == LoadRecord(old(records[i]))
  {
    for i := 0 to records.Length
      invariant forall k :: 0 <= k < i ==> records[k] == LoadRecord(old(records[k]))
      invariant forall k :: i <= k < records.Length ==> records[k] == old(records[k])
    {
      var record := records[i];
      for j := 0 to |record|
        invariant |record| == |old(records[i])|
        invariant forall l :: 0 <= l < j ==> record[l] == Field(old(records[i])[l].key, LoadValue(old(records[i])[l].value))
        invariant forall l :: j <= l < |record| ==> record[l] == old(records[i])[l]
      {
        record := record[j := Field(record[j].key, LoadValue(record[j].value))];
      }
      records[i] := record;
    }
  }

  // ---- The run ----

  datatype Flags = Flags(dryRun: bool, backupBucket: bool, skipGroundTable: bool, groundTableNamed: bool)

  /** What the outside world answers: the backup and load jobs. */
  datatype Outcomes = Outcomes(
    vegetationBackupOk: bool, groundBackupOk: bool,
    vegetationLoadOk: bool, groundLoadOk: bool)

  /** The vegetation frame was built and passed its check. A missing column
      raises inside the transform or the check, which ends the run as a
      failed check does. */
  predicate VegetationValid(df: Frame) {
    && TransformedVegetation(df).Some?
    && HasColumns(TransformedVegetation(df).value, VegetationReported)
    && ValidateVegetation(TransformedVegetation(df).value)
  }

  /** The ground frame was built and passed its check. */
  predicate GroundValid(df: Frame) {
    && TransformGround(df).Some?
    && (TransformedGroundIsCheckable(df); ValidateGround(TransformGround(df).value))
  }

  /** `main` reaches `process_ground_table`: a live run whose vegetation
      backup (if any) succeeded, with a named ground table not skipped. */
  predicate GroundReached(flags: Flags, o: Outcomes) {
    && !flags.dryRun && (flags.backupBucket ==> o.vegetationBackupOk)
    && !flags.skipGroundTable && flags.groundTableNamed
  }

  /** `process_ground_table` in a live run, given whether the ground
      transform raises and whether its frame is valid. The exception is
      caught nowhere, so it leaves `main` and the process exits with
      status 1. */
  function ProcessGround(flags: Flags, groundRaises: bool, groundValid: bool, o: Outcomes): (r: Run)
    ensures r.exitCode == 1 <==> groundRaises
    ensures r.exitCode == 0 <==> !groundRaises
    ensures forall s :: s in r.steps ==> s.table == Ground
    ensures Loads(r.steps, Ground) <==> !groundRaises && groundValid && (flags.backupBucket ==> o.groundBackupOk)
  {
    if groundRaises then Run([], 1)
    else if !groundValid then Run([], 0)
    else if flags.backupBucket && !o.groundBackupOk then Run([Backup(Ground, false)], 0)
    else Run((if flags.backupBucket then [Backup(Ground, true)] else []) + [Load(Ground, o.groundLoadOk)], 0)
  }

  /** `main` once the verdicts on the two frames are known. */
  function RunOf(flags: Flags, vegetationValid: bool, groundRaises: bool, groundValid: bool, o: Outcomes): Run {
    if !vegetationValid then Run([], 1)
    else if flags.dryRun then Run([DryRunSummary(Vegetation)], 0)
    else if flags.backupBucket && !o.vegetationBackupOk then Run([Backup(Vegetation, false)], 0)
    else
      var backup := if flags.backupBucket then [Backup(Vegetation, true)] else [];
      var ground := if GroundReached(flags, o) then ProcessGround(flags, groundRaises, groundValid, o) else Run([], 0);
      Run(backup + [Load(Vegetation, o.vegetationLoadOk)] + ground.steps, ground.exitCode)
  }

  /** `main` once the sheet is read: the verdicts come from the frames. */
  function Workflow(flags: Flags, df: Frame, o: Outcomes): Run {
    RunOf(flags, VegetationValid(df), TransformGround(df).None?, GroundValid(df), o)
  }

  /** The load steps of a run, in terms of the verdicts. */
  lemma RunOfLoads(flags: Flags, v: bool, raises: bool, g: bool, o: Outcomes)
    ensures Loads(RunOf(flags, v, raises, g, o).steps, Vegetation) <==>
      v && !flags.dryRun && (flags.backupBucket ==> o.vegetationBackupOk)
    ensures flags.backupBucket && Loads(RunOf(flags, v, raises, g, o).steps, Vegetation) ==>
      Precedes(RunOf(flags, v, raises, g, o).steps, Backup(Vegetation, true), Load(Vegetation, o.vegetationLoadOk))
    ensures Loads(RunOf(flags, v, raises, g, o).steps, Ground) <==>
      v && GroundReached(flags, o) && !raises && g && (flags.backupBucket ==> o.groundBackupOk)
  {
    var steps := RunOf(flags, v, raises, g, o).steps;
    if !v || flags.dryRun || (flags.backupBucket && !o.vegetationBackupOk) {
      assert steps == [] || steps == [DryRunSummary(Vegetation)] || steps == [Backup(Vegetation, false)];
    } else {
      var backup := if flags.backupBucket then [Backup(Vegetation, true)] else [];
      var ground := if GroundReached(flags, o) then ProcessGround(flags, raises, g, o) else Run([], 0);
      assert steps == backup + [Load(Vegetation, o.vegetationLoadOk)] + ground.steps;
      LiveRunLoads(flags, backup, raises, g, o, ground.steps);
    }
  }

  /** The load steps of a live run that reached the vegetation load. */
  lemma LiveRunLoads(flags: Flags, backup: seq<Step>, raises: bool, g: bool, o: Outcomes, ground: seq<Step>)
    requires backup == if flags.backupBucket then [Backup(Vegetation, true)] else []
    requires ground == if GroundReached(flags, o) then ProcessGround(flags, raises, g, o).steps else []
    ensures Loads(backup + [Load(Vegetation, o.vegetationLoadOk)] + ground, Vegetation)
    ensures flags.backupBucket ==>
      Precedes(backup + [Load(Vegetation, o.vegetationLoadOk)] + ground, Backup(Vegetation, true), Load(Vegetation, o.vegetationLoadOk))
    ensures Loads(backup + [Load(Vegetation, o.vegetationLoadOk)] + ground, Ground) <==>
      GroundReached(flags, o) && !raises && g && (flags.backupBucket ==> o.groundBackupOk)
  {
    var steps := backup + [Load(Vegetation, o.vegetationLoadOk)] + ground;
    assert steps[|backup|] == Load(Vegetation, o.vegetationLoadOk);
    if flags.backupBucket {
      assert steps[0] == Backup(Vegetation, true);
    }
    LoadsConcat(backup + [Load(Vegetation, o.vegetationLoadOk)], ground, Ground);
    LoadsConcat(backup, [Load(Vegetation, o.vegetationLoadOk)], Ground);
    if Loads(backup, Ground) {
      var ok :| Load(Ground, ok) in backup;
    }
    if Loads([Load(Vegetation, o.vegetationLoadOk)], Ground) {
      var ok :| Load(Ground, ok) in [Load(Vegetation, o.vegetationLoadOk)];
    }
    if Loads(ground, Ground) {
      var ok :| Load(Ground, ok) in ground;
    }
    if GroundReached(flags, o) && !raises && g && (flags.backupBucket ==> o.groundBackupOk) {
      assert ground[|ground| - 1] == Load(Ground, o.groundLoadOk);
    }
  }

  /** The run exits with status 1 exactly when the vegetation frame cannot be
      built or fails its check, or when the ground stage is reached and the
      ground transform raises; a failed job does not change the status. */
  lemma ExitStatus(flags: Flags, df: Frame, o: Outcomes)
    ensures Workflow(flags, df, o).exitCode ==
      (if !VegetationValid(df) || (GroundReached(flags, o) && TransformGround(df).None?) then 1 else 0)
    ensures !VegetationValid(df) ==> Workflow(flags, df, o).steps == []
  {
    RunOfExit(flags, VegetationValid(df), TransformGround(df).None?, GroundValid(df), o);
  }

  /** The exit status of a run, in terms of the verdicts. */
  lemma RunOfExit(flags: Flags, v: bool, raises: bool, g: bool, o: Outcomes)
    ensures RunOf(flags, v, raises, g, o).exitCode == (if !v || (GroundReached(flags, o) && raises) then 1 else 0)
    ensures !v ==> RunOf(flags, v, raises, g, o).steps == []
  {
  }

  /** A ground transform that raises after the vegetation load crashes the
      run: the vegetation rows were already handed to the load job, nothing
      touches the ground table, and the status is 1. */
  lemma GroundTransformCrashAfterVegetationLoad(flags: Flags, df: Frame, o: Outcomes)
    requires VegetationValid(df) && GroundReached(flags, o) && TransformGround(df).None?
    ensures Workflow(flags, df, o).exitCode == 1
    ensures Workflow(flags, df, o).steps ==
      (if flags.backupBucket then [Backup(Vegetation, true)] else []) + [Load(Vegetation, o.vegetationLoadOk)]
  {
  }

  /** A dry run starts no job at all, and never touches the ground table. */
  lemma DryRunStartsNoJob(flags: Flags, df: Frame, o: Outcomes)
    requires flags.dryRun
    ensures forall s :: s in Workflow(flags, df, o).steps ==> !IsJob(s) && s.table == Vegetation
    ensures Workflow(flags, df, o).exitCode == (if VegetationValid(df) then 0 else 1)
  {
  }

  /** The vegetation rows are loaded only after validation passed, in a
      live run, and after a successful backup when a bucket is given. */
  lemma VegetationLoadIsGated(flags: Flags, df: Frame, o: Outcomes)
    ensures Loads(Workflow(flags, df, o).steps, Vegetation) <==>
      VegetationValid(df) && !flags.dryRun && (flags.backupBucket ==> o.vegetationBackupOk)
    ensures flags.backupBucket && Loads(Workflow(flags, df, o).steps, Vegetation) ==>
      Precedes(Workflow(flags, df, o).steps, Backup(Vegetation, true), Load(Vegetation, o.vegetationLoadOk))
  {
    RunOfLoads(flags, VegetationValid(df), TransformGround(df).None?, GroundValid(df), o);
  }

  /** The ground rows are loaded exactly when the vegetation stage reached
      its load and then `process_ground_table`, the ground transform did
      not raise, its frame is valid and its backup (if any) succeeded. */
  lemma GroundLoadIsGated(flags: Flags, df: Frame, o: Outcomes)
    ensures Loads(Workflow(flags, df, o).steps, Ground) <==>
      && VegetationValid(df) && GroundReached(flags, o)
      && GroundValid(df) && (flags.backupBucket ==> o.groundBackupOk)
  {
    RunOfLoads(flags, VegetationValid(df), TransformGround(df).None?, GroundValid(df), o);
  }

  /** A failed vegetation load is only logged: the ground table is processed
      all the same, and the exit status does not change. */
  lemma FailedVegetationLoadStillProcessesGround(flags: Flags, df: Frame, o: Outcomes)
    ensures Loads(Workflow(flags, df, o.(vegetationLoadOk := false)).steps, Ground)
        == Loads(Workflow(flags, df, o.(vegetationLoadOk := true)).steps, Ground)
    ensures Workflow(flags, df, o.(vegetationLoadOk := false)).exitCode
        == Workflow(flags, df, o.(vegetationLoadOk := true)).exitCode
  {
    var v, raises, g := VegetationValid(df), TransformGround(df).None?, GroundValid(df);
    RunOfLoads(flags, v, raises, g, o.(vegetationLoadOk := false));
    RunOfLoads(flags, v, raises, g, o.(vegetationLoadOk := true));
    RunOfExit(flags, v, raises, g, o.(vegetationLoadOk := false));
    RunOfExit(flags, v, raises, g, o.(vegetationLoadOk := true));
  }
}
