/**
  The prompt-driven point-intercepts upload. It builds the same two tables
  as the flag-driven script, but keeps only the first eight characters of
  survey_ID, requires intercept_1 in the vegetation frame, and asks the
  operator at each step; each answer is a boolean here.
 */
module PointInterceptsPrompted {
  import opened Relational
  import opened Dates
  import opened Frames
  import opened Uploads
  import Cli = PointInterceptsCli

  const InterceptColumns: seq<string> := ["intercept_1", "intercept_2", "intercept_3", "intercept_4"]

  // ---- Transforms ----

  /** `.str[:8]`: the first eight characters of the survey UUID. */
  function SurveyIdPrefix(v: Value): (r: Value)
    ensures v.Text? ==> r == Text(if |v.s| <= 8 then v.s else v.s[..8])
    ensures !v.Text? ==> r == Null
  {
    Truncate(v, 8)
  }

  /** Every cell survives `replace("", pd.NA).astype("Int64")`. */
  predicate Castable(cells: seq<Value>) {
    forall i :: 0 <= i < |cells| ==> CastInt64(EmptyToNull(cells[i])).Some?
  }

  /** `df[name] = df[name].replace("", pd.NA).astype("Int64")`; None when the cast raises. */
  function CastColumn(f: Frame, name: string): (r: Option<Frame>)
    requires HasColumn(f, name)
    ensures r.None? <==> !Castable(ColumnOf(f, name))
    ensures r.Some? ==> r.value == MapColumn(f, name, EmptyToNull)
  {
    match CastCells(MapCells(ColumnOf(f, name), EmptyToNull))
    case None => None
    case Some(_) => Some(MapColumn(f, name, EmptyToNull))
  }

  /** Casting column k of the loop: it still holds its original cells, and
      the cast extends the columns mapped so far by one. */
  lemma CastStep(f: Frame, names: seq<string>, k: int)
    requires HasColumns(f, names) && NoDuplicates(names) && 0 <= k < |names|
    ensures HasColumns(f, names[..k]) && HasColumns(f, names[..k + 1])
    ensures var cur := MapColumns(f, names[..k], EmptyToNull);
      && HasColumn(cur, names[k])
      && ColumnOf(cur, names[k]) == ColumnOf(f, names[k])
      && MapColumns(f, names[..k + 1], EmptyToNull) == MapColumn(cur, names[k], EmptyToNull)
  {
    MapColumnsSnoc(f, names, k, EmptyToNull);
    assert names[k] !in names[..k] by {
      forall l | 0 <= l < k ensures names[..k][l] != names[k] {
        assert names[..k][l] == names[l];
      }
    }
    MapColumnsUnlisted(f, names[..k], EmptyToNull, names[k]);
  }

  /** Every listed column survives the cast. */
  predicate AllCastable(f: Frame, names: seq<string>)
    requires HasColumns(f, names)
  {
    forall k :: 0 <= k < |names| ==> Castable(ColumnOf(f, names[k]))
  }

  /** All four intercept columns survive the cast. */
  predicate InterceptsCastable(f: Frame)
    requires HasColumns(f, InterceptColumns)
  {
    AllCastable(f, InterceptColumns)
  }

  /** The loop over the intercept columns; the first failing cast ends it. */
  method CastColumns(f: Frame, names: seq<string>) returns (r: Option<Frame>)
    requires HasColumns(f, names) && NoDuplicates(names)
    ensures r.None? <==> !AllCastable(f, names)
    ensures r.Some? ==> r.value == MapColumns(f, names, EmptyToNull)
  {
    var cur := f;
    assert names[..0] == [];
    for k := 0 to |names|
      invariant HasColumns(f, names[..k])
      invariant cur == MapColumns(f, names[..k], EmptyToNull)
      invariant forall l :: 0 <= l < k ==> Castable(ColumnOf(f, names[l]))
    {
      CastStep(f, names, k);
      var next := CastColumn(cur, names[k]);
      if next.None? {
        assert !Castable(ColumnOf(f, names[k]));
        return None;
      }
      cur := next.value;
    }
    assert names[..|names|] == names;
    return Some(cur);
  }

  lemma InterceptColumnsDistinct()
    ensures NoDuplicates(InterceptColumns)
  {
  }

  /** After the cast and the survey_ID cut, each intercept column holds its
      cells with "" made NA and survey_ID holds its cut cells. */
  lemma {:induction false} VegetationColumns(renamed: Frame)
    requires HasColumns(renamed, InterceptColumns) && HasColumn(renamed, "survey_ID")
    ensures var f := MapColumns(renamed, InterceptColumns, EmptyToNull);
      HasColumn(f, "survey_ID") &&
      var out := MapColumn(f, "survey_ID", SurveyIdPrefix);
      && Names(out) == Names(renamed)
      && ColumnOf(out, "survey_ID") == MapCells(ColumnOf(renamed, "survey_ID"), SurveyIdPrefix)
      && forall k :: 0 <= k < |InterceptColumns| ==>
           HasColumn(out, InterceptColumns[k])
           && ColumnOf(out, InterceptColumns[k]) == MapCells(ColumnOf(renamed, InterceptColumns[k]), EmptyToNull)
  {
    assert "survey_ID" !in InterceptColumns;
    InterceptColumnsDistinct();
    MapColumnsThenOther(renamed, InterceptColumns, EmptyToNull, "survey_ID", SurveyIdPrefix);
  }

  /** `transform_vegetation_data` as a value: rename, cast the intercept
      columns, then cut survey_ID to eight characters. None when a column it
      reads is missing (KeyError) or a cast raises. */
  function TransformedVegetation(df: Frame): (r: Option<Frame>)
    ensures var renamed := Rename(df, Cli.VegetationRenames);
      r.None? <==>
        || !HasColumn(renamed, "date") || !HasColumn(renamed, "grid_point")
        || !HasColumn(renamed, "height_intercept_1") || !HasColumn(renamed, "survey_ID")
        || !HasColumns(renamed, InterceptColumns)
        || !InterceptsCastable(renamed)
    ensures var renamed := Rename(df, Cli.VegetationRenames);
      r.Some? ==> (
        && Names(r.value) == Names(renamed)
        && HasColumn(r.value, "survey_ID")
        && ColumnOf(r.value, "survey_ID") == MapCells(ColumnOf(renamed, "survey_ID"), SurveyIdPrefix)
        && forall k :: 0 <= k < |InterceptColumns| ==>
             HasColumn(r.value, InterceptColumns[k])
             && ColumnOf(r.value, InterceptColumns[k]) == MapCells(ColumnOf(renamed, InterceptColumns[k]), EmptyToNull))
  {
    var renamed := Rename(df, Cli.VegetationRenames);
    if || !HasColumn(renamed, "date") || !HasColumn(renamed, "grid_point")
       || !HasColumn(renamed, "height_intercept_1") || !HasColumn(renamed, "survey_ID")
       || !HasColumns(renamed, InterceptColumns) then None
    else if !InterceptsCastable(renamed) then None
    else
      VegetationColumns(renamed);
      Some(MapColumn(MapColumns(renamed, InterceptColumns, EmptyToNull), "survey_ID", SurveyIdPrefix))
  }

  /** `transform_vegetation_data`, with its loop over the intercept columns. */
  method TransformVegetation(df: Frame) returns (r: Option<Frame>)
    ensures r == TransformedVegetation(df)
  {
    var renamed := Rename(df, Cli.VegetationRenames);
    if || !HasColumn(renamed, "date") || !HasColumn(renamed, "grid_point")
       || !HasColumn(renamed, "height_intercept_1") || !HasColumn(renamed, "survey_ID")
       || !HasColumns(renamed, InterceptColumns) {
      return None;
    }
    InterceptColumnsDistinct();
    var cast := CastColumns(renamed, InterceptColumns);
    if cast.None? {
      return None;
    }
    VegetationColumns(renamed);
    return Some(MapColumn(cast.value, "survey_ID", SurveyIdPrefix));
  }

  /** `transform_ground_data`: rename, cast intercept_1, cut survey_ID; all
      columns are kept. None when a column it reads is missing or the cast
      raises. */
  function TransformGround(df: Frame): (r: Option<Frame>)
    ensures var renamed := Rename(df, Cli.GroundRenames);
      r.None? <==>
        || !HasColumn(renamed, "date") || !HasColumn(renamed, "grid_point")
        || !HasColumn(renamed, "intercept_1") || !HasColumn(renamed, "survey_ID")
        || !Castable(ColumnOf(renamed, "intercept_1"))
    ensures var renamed := Rename(df, Cli.GroundRenames);
      r.Some? ==> (
        && Names(r.value) == Names(renamed)
        && HasColumn(r.value, "survey_ID") && HasColumn(r.value, "intercept_1")
        && ColumnOf(r.value, "survey_ID") == MapCells(ColumnOf(renamed, "survey_ID"), SurveyIdPrefix)
        && ColumnOf(r.value, "intercept_1") == MapCells(ColumnOf(renamed, "intercept_1"), EmptyToNull))
  {
    var renamed := Rename(df, Cli.GroundRenames);
    if || !HasColumn(renamed, "date") || !HasColumn(renamed, "grid_point")
       || !HasColumn(renamed, "intercept_1") || !HasColumn(renamed, "survey_ID") then None
    else
      match CastColumn(renamed, "intercept_1")
      case None => None
      case Some(f) =>
        MapColumnOther(renamed, "intercept_1", EmptyToNull, "survey_ID");
        MapColumnOther(f, "survey_ID", SurveyIdPrefix, "intercept_1");
        Some(MapColumn(f, "survey_ID", SurveyIdPrefix))
  }

  /** Every survey_ID the transforms produce is at most eight characters and
      a prefix of the original; cutting again changes nothing. */
  lemma SurveyIdPrefixBounds(v: Value)
    ensures SurveyIdPrefix(v).Text? ==> |SurveyIdPrefix(v).s| <= 8 && SurveyIdPrefix(v).s <= v.s
    ensures SurveyIdPrefix(SurveyIdPrefix(v)) == SurveyIdPrefix(v)
  {
    TruncateIdempotent(v, 8);
  }

  // ---- Validation ----

  /** `validate_vegetation_data`: grid_point, date, year, transect_point and
      intercept_1 have no missing cell and every text transect point matches. */
  function ValidateVegetation(df: Frame): (ok: bool)
    requires HasColumns(df, Cli.VegetationReported)
    ensures assert HasColumn(df, Cli.VegetationReported[5]);
      ok <==> Cli.ValidateVegetation(df) && NoNulls(ColumnOf(df, "intercept_1"))
  {
    assert HasColumn(df, Cli.VegetationReported[1]) && HasColumn(df, Cli.VegetationReported[2]);
    assert HasColumn(df, Cli.VegetationReported[3]) && HasColumn(df, Cli.VegetationReported[4]);
    assert HasColumn(df, Cli.VegetationReported[5]);
    NoNulls(ColumnOf(df, "grid_point")) && NoNulls(ColumnOf(df, "date"))
    && NoNulls(ColumnOf(df, "year")) && NoNulls(ColumnOf(df, "transect_point"))
    && NoNulls(ColumnOf(df, "intercept_1"))
    && TransectColumnOk(ColumnOf(df, "transect_point"))
  }

  /** Blanking every intercept_1 cell of a non-empty frame leaves the
      flag-driven verdict as it was but fails this check. */
  lemma MissingInterceptRejected(df: Frame)
    requires HasColumns(df, Cli.VegetationReported) && df.height > 0
    ensures var blank := Assign(df, "intercept_1", seq(df.height, i => Null));
      && HasColumns(blank, Cli.VegetationReported)
      && Cli.ValidateVegetation(blank) == Cli.ValidateVegetation(df)
      && !ValidateVegetation(blank)
  {
    Cli.MissingInterceptAllowed(df);
    var blank := Assign(df, "intercept_1", seq(df.height, i => Null));
    assert ColumnOf(blank, "intercept_1")[0] == Null;
  }

  // ---- The run ----

  /** The operator's answers, in the order they are asked. */
  datatype Answers = Answers(
    vegetationDryRun: bool, vegetationUploadDespiteFailedBackup: bool, vegetationProceed: bool,
    groundDryRun: bool, groundUploadDespiteFailedBackup: bool, groundProceed: bool)

  /** What one table's block did, and whether `main` returned there. */
  datatype Stage = Stage(steps: seq<Step>, returned: bool)

  /** The vegetation verdict `main` branches on; None when building or
      checking the frame raises. */
  function VegetationCheck(df: Frame): Option<bool> {
    match TransformedVegetation(df)
    case None => None
    case Some(v) => if HasColumns(v, Cli.VegetationReported) then Some(ValidateVegetation(v)) else None
  }

  /** The ground verdict `main` branches on; None when building or checking
      the frame raises. */
  function GroundCheck(df: Frame): Option<bool> {
    match TransformGround(df)
    case None => None
    case Some(g) => if HasColumns(g, Cli.GroundColumns) then Some(Cli.ValidateGround(g)) else None
  }

  /** One table's block of `main`. */
  function TableBlock(t: Table, valid: bool, backupBucket: bool, backupOk: bool, loadOk: bool,
                      dryRun: bool, uploadDespiteFailedBackup: bool, proceed: bool): Stage
  {
    if !valid then Stage([], false)
    else if dryRun then Stage([DryRunSummary(t)], false)
    else if backupBucket && !backupOk && !uploadDespiteFailedBackup then Stage([Backup(t, false)], true)
    else
      var backup := if backupBucket then [Backup(t, backupOk)] else [];
      Stage(backup + (if proceed then [Load(t, loadOk)] else []), false)
  }

  function VegetationStage(backupBucket: bool, valid: bool, a: Answers, o: Cli.Outcomes): Stage {
    TableBlock(Vegetation, valid, backupBucket, o.vegetationBackupOk, o.vegetationLoadOk,
               a.vegetationDryRun, a.vegetationUploadDespiteFailedBackup, a.vegetationProceed)
  }

  function GroundStage(backupBucket: bool, valid: bool, a: Answers, o: Cli.Outcomes): Stage {
    TableBlock(Ground, valid, backupBucket, o.groundBackupOk, o.groundLoadOk,
               a.groundDryRun, a.groundUploadDespiteFailedBackup, a.groundProceed)
  }

  /** `main` given the two verdicts, None standing for a transform or check
      that raised: the vegetation block, then the ground block unless `main`
      returned. An exception is caught nowhere: it ends the run there with
      status 1. */
  function RunOf(backupBucket: bool, vegetation: Option<bool>, ground: Option<bool>, a: Answers, o: Cli.Outcomes): Run {
    match vegetation
    case None => Run([], 1)
    case Some(vegetationOk) =>
      var veg := VegetationStage(backupBucket, vegetationOk, a, o);
      if veg.returned then Run(veg.steps, 0)
      else
        match ground
        case None => Run(veg.steps, 1)
        case Some(groundOk) => Run(veg.steps + GroundStage(backupBucket, groundOk, a, o).steps, 0)
  }

  /** `main` once the sheet is read: the verdicts come from the frames. */
  function Workflow(backupBucket: bool, df: Frame, a: Answers, o: Cli.Outcomes): Run {
    RunOf(backupBucket, VegetationCheck(df), GroundCheck(df), a, o)
  }

  /** `main` returned in the vegetation block. */
  predicate ReturnedEarly(backupBucket: bool, df: Frame, a: Answers, o: Cli.Outcomes) {
    VegetationCheck(df).Some? && VegetationStage(backupBucket, VegetationCheck(df).value, a, o).returned
  }

  /** Every step of a block concerns that block's table. */
  lemma TableBlockConcerns(t: Table, valid: bool, backupBucket: bool, backupOk: bool, loadOk: bool,
                           dryRun: bool, uploadDespiteFailedBackup: bool, proceed: bool)
    ensures var steps := TableBlock(t, valid, backupBucket, backupOk, loadOk, dryRun, uploadDespiteFailedBackup, proceed).steps;
      forall s :: s in steps ==> s.table == t
  {
  }

  /** A block loads its own table exactly when the frame is valid, the
      operator did not choose the dry run, a failed backup was waved through
      and the upload was confirmed; it loads no other table. */
  lemma TableBlockLoads(t: Table, valid: bool, backupBucket: bool, backupOk: bool, loadOk: bool,
                        dryRun: bool, uploadDespiteFailedBackup: bool, proceed: bool)
    ensures var steps := TableBlock(t, valid, backupBucket, backupOk, loadOk, dryRun, uploadDespiteFailedBackup, proceed).steps;
      && (Loads(steps, t) <==> valid && !dryRun && (backupBucket && !backupOk ==> uploadDespiteFailedBackup) && proceed)
      && forall u :: u != t ==> !Loads(steps, u)
  {
    var steps := TableBlock(t, valid, backupBucket, backupOk, loadOk, dryRun, uploadDespiteFailedBackup, proceed).steps;
    TableBlockConcerns(t, valid, backupBucket, backupOk, loadOk, dryRun, uploadDespiteFailedBackup, proceed);
    if Loads(steps, t) {
      var ok :| Load(t, ok) in steps;
    }
    if valid && !dryRun && (backupBucket && !backupOk ==> uploadDespiteFailedBackup) && proceed {
      assert Load(t, loadOk) in steps;
    }
    forall u, ok | Load(u, ok) in steps ensures u == t {
      assert Load(u, ok).table == t;
    }
  }

  /** A table is loaded exactly when its frame was built and is valid, the
      operator did not choose the dry run, a failed backup was waved
      through, and the upload was confirmed; for the ground table, `main`
      must also have neither raised nor returned in the vegetation block. */
  lemma LoadIsGated(backupBucket: bool, df: Frame, a: Answers, o: Cli.Outcomes)
    ensures Loads(Workflow(backupBucket, df, a, o).steps, Vegetation) <==>
      VegetationCheck(df) == Some(true) && !a.vegetationDryRun
      && (backupBucket && !o.vegetationBackupOk ==> a.vegetationUploadDespiteFailedBackup)
      && a.vegetationProceed
    ensures Loads(Workflow(backupBucket, df, a, o).steps, Ground) <==>
      VegetationCheck(df).Some? && !ReturnedEarly(backupBucket, df, a, o)
      && GroundCheck(df) == Some(true) && !a.groundDryRun
      && (backupBucket && !o.groundBackupOk ==> a.groundUploadDespiteFailedBackup)
      && a.groundProceed
  {
    RunOfLoads(backupBucket, VegetationCheck(df), GroundCheck(df), a, o);
  }

  /** The load steps of a run, in terms of the verdicts. */
  lemma RunOfLoads(backupBucket: bool, vegetation: Option<bool>, ground: Option<bool>, a: Answers, o: Cli.Outcomes)
    ensures Loads(RunOf(backupBucket, vegetation, ground, a, o).steps, Vegetation) <==>
      vegetation == Some(true) && !a.vegetationDryRun
      && (backupBucket && !o.vegetationBackupOk ==> a.vegetationUploadDespiteFailedBackup)
      && a.vegetationProceed
    ensures Loads(RunOf(backupBucket, vegetation, ground, a, o).steps, Ground) <==>
      vegetation.Some? && !VegetationStage(backupBucket, vegetation.value, a, o).returned
      && ground == Some(true) && !a.groundDryRun
      && (backupBucket && !o.groundBackupOk ==> a.groundUploadDespiteFailedBackup)
      && a.groundProceed
  {
    match vegetation
    case None =>
      assert RunOf(backupBucket, None, ground, a, o).steps == [];
    case Some(v) =>
      if VegetationStage(backupBucket, v, a, o).returned || ground.None? {
        StopAfterVegetation(backupBucket, v, ground, a, o);
      } else {
        var g := ground.value;
        assert ground == Some(g);
        ThroughBothBlocks(backupBucket, v, g, a, o);
      }
  }

  /** A run that stops after the vegetation block loads what that block loads. */
  lemma StopAfterVegetation(backupBucket: bool, v: bool, ground: Option<bool>, a: Answers, o: Cli.Outcomes)
    requires VegetationStage(backupBucket, v, a, o).returned || ground.None?
    ensures Loads(RunOf(backupBucket, Some(v), ground, a, o).steps, Vegetation) <==>
      v && !a.vegetationDryRun
      && (backupBucket && !o.vegetationBackupOk ==> a.vegetationUploadDespiteFailedBackup)
      && a.vegetationProceed
    ensures !Loads(RunOf(backupBucket, Some(v), ground, a, o).steps, Ground)
  {
    assert RunOf(backupBucket, Some(v), ground, a, o).steps == VegetationStage(backupBucket, v, a, o).steps;
    ReturnedLoads(backupBucket, v, a, o, RunOf(backupBucket, Some(v), ground, a, o).steps);
  }

  /** A run through both blocks loads a table exactly when its block does. */
  lemma ThroughBothBlocks(backupBucket: bool, v: bool, g: bool, a: Answers, o: Cli.Outcomes)
    requires !VegetationStage(backupBucket, v, a, o).returned
    ensures Loads(RunOf(backupBucket, Some(v), Some(g), a, o).steps, Vegetation) <==>
      v && !a.vegetationDryRun
      && (backupBucket && !o.vegetationBackupOk ==> a.vegetationUploadDespiteFailedBackup)
      && a.vegetationProceed
    ensures Loads(RunOf(backupBucket, Some(v), Some(g), a, o).steps, Ground) <==>
      g && !a.groundDryRun
      && (backupBucket && !o.groundBackupOk ==> a.groundUploadDespiteFailedBackup)
      && a.groundProceed
  {
    assert RunOf(backupBucket, Some(v), Some(g), a, o).steps ==
      VegetationStage(backupBucket, v, a, o).steps + GroundStage(backupBucket, g, a, o).steps;
    BothBlocksLoad(backupBucket, v, g, a, o, RunOf(backupBucket, Some(v), Some(g), a, o).steps);
  }

  /** The vegetation block alone loads vegetation exactly as its verdicts say, and never ground. */
  lemma ReturnedLoads(backupBucket: bool, v: bool, a: Answers, o: Cli.Outcomes, steps: seq<Step>)
    requires steps == VegetationStage(backupBucket, v, a, o).steps
    ensures Loads(steps, Vegetation) <==>
      v && !a.vegetationDryRun
      && (backupBucket && !o.vegetationBackupOk ==> a.vegetationUploadDespiteFailedBackup)
      && a.vegetationProceed
    ensures !Loads(steps, Ground)
  {
    TableBlockLoads(Vegetation, v, backupBucket, o.vegetationBackupOk, o.vegetationLoadOk,
                    a.vegetationDryRun, a.vegetationUploadDespiteFailedBackup, a.vegetationProceed);
  }

  /** A run through both blocks loads a table exactly when its block does. */
  lemma BothBlocksLoad(backupBucket: bool, v: bool, g: bool, a: Answers, o: Cli.Outcomes, steps: seq<Step>)
    requires steps == VegetationStage(backupBucket, v, a, o).steps + GroundStage(backupBucket, g, a, o).steps
    ensures Loads(steps, Vegetation) <==>
      v && !a.vegetationDryRun
      && (backupBucket && !o.vegetationBackupOk ==> a.vegetationUploadDespiteFailedBackup)
      && a.vegetationProceed
    ensures Loads(steps, Ground) <==>
      g && !a.groundDryRun
      && (backupBucket && !o.groundBackupOk ==> a.groundUploadDespiteFailedBackup)
      && a.groundProceed
  {
    var veg := VegetationStage(backupBucket, v, a, o).steps;
    var gr := GroundStage(backupBucket, g, a, o).steps;
    TableBlockLoads(Vegetation, v, backupBucket, o.vegetationBackupOk, o.vegetationLoadOk,
                    a.vegetationDryRun, a.vegetationUploadDespiteFailedBackup, a.vegetationProceed);
    TableBlockLoads(Ground, g, backupBucket, o.groundBackupOk, o.groundLoadOk,
                    a.groundDryRun, a.groundUploadDespiteFailedBackup, a.groundProceed);
    LoadsConcat(veg, gr, Vegetation);
    LoadsConcat(veg, gr, Ground);
  }

  /** The run exits with status 1 exactly when building or checking the
      vegetation frame raises, or when the ground block is reached and
      building or checking the ground frame raises. A vegetation frame that
      cannot be built stops the run before any step. */
  lemma ExitStatus(backupBucket: bool, df: Frame, a: Answers, o: Cli.Outcomes)
    ensures Workflow(backupBucket, df, a, o).exitCode ==
      (if VegetationCheck(df).None? || (!ReturnedEarly(backupBucket, df, a, o) && GroundCheck(df).None?) then 1 else 0)
    ensures VegetationCheck(df).None? ==> Workflow(backupBucket, df, a, o).steps == []
  {
  }

  /** An intercept cell the Int64 cast rejects crashes `main` in the
      vegetation transform: nothing is uploaded, the ground block never
      runs, and the status is 1. */
  lemma UncastableInterceptStopsRun(backupBucket: bool, df: Frame, a: Answers, o: Cli.Outcomes)
    requires HasColumns(Rename(df, Cli.VegetationRenames), InterceptColumns)
    requires !InterceptsCastable(Rename(df, Cli.VegetationRenames))
    ensures Workflow(backupBucket, df, a, o) == Run([], 1)
    ensures !Loads(Workflow(backupBucket, df, a, o).steps, Ground)
  {
  }

  /** `main` returns in the vegetation block only when a live, valid upload's
      backup failed and the operator declined to go on; the ground table is
      then not touched at all. */
  lemma DeclinedAfterFailedBackupSkipsGround(backupBucket: bool, df: Frame, a: Answers, o: Cli.Outcomes)
    ensures ReturnedEarly(backupBucket, df, a, o) <==>
      VegetationCheck(df) == Some(true) && !a.vegetationDryRun && backupBucket && !o.vegetationBackupOk
      && !a.vegetationUploadDespiteFailedBackup
    ensures ReturnedEarly(backupBucket, df, a, o) ==>
      Workflow(backupBucket, df, a, o) == Run([Backup(Vegetation, false)], 0)
  {
  }

  /** A vegetation frame that was built but failed its check does not stop
      the run: what follows is exactly the ground block. */
  lemma GroundBlockFollowsInvalidVegetation(backupBucket: bool, df: Frame, a: Answers, o: Cli.Outcomes)
    requires VegetationCheck(df) == Some(false)
    ensures Workflow(backupBucket, df, a, o) ==
      if GroundCheck(df).None? then Run([], 1)
      else Run(GroundStage(backupBucket, GroundCheck(df).value, a, o).steps, 0)
  {
    InvalidVegetationRun(backupBucket, GroundCheck(df), a, o);
  }

  lemma InvalidVegetationRun(backupBucket: bool, ground: Option<bool>, a: Answers, o: Cli.Outcomes)
    ensures RunOf(backupBucket, Some(false), ground, a, o) ==
      if ground.None? then Run([], 1)
      else Run(GroundStage(backupBucket, ground.value, a, o).steps, 0)
  {
    if ground.Some? {
      assert [] + GroundStage(backupBucket, ground.value, a, o).steps == GroundStage(backupBucket, ground.value, a, o).steps;
    }
  }

  /** Choosing the dry run for a table starts no job on it. */
  lemma DryRunAnswerStartsNoJob(backupBucket: bool, valid: bool, a: Answers, o: Cli.Outcomes)
    ensures a.vegetationDryRun ==> forall s :: s in VegetationStage(backupBucket, valid, a, o).steps ==> !IsJob(s)
    ensures a.groundDryRun ==> forall s :: s in GroundStage(backupBucket, valid, a, o).steps ==> !IsJob(s)
  {
  }

  /** An upload the operator waves through after a failed backup still
      comes after that backup attempt. */
  lemma UploadDespiteFailedBackupFollowsIt(backupBucket: bool, df: Frame, a: Answers, o: Cli.Outcomes)
    requires backupBucket && VegetationCheck(df) == Some(true) && !a.vegetationDryRun && !o.vegetationBackupOk
    requires a.vegetationUploadDespiteFailedBackup && a.vegetationProceed
    ensures Precedes(Workflow(backupBucket, df, a, o).steps, Backup(Vegetation, false), Load(Vegetation, o.vegetationLoadOk))
  {
    WavedThroughOrder(GroundCheck(df), a, o);
  }

  lemma WavedThroughOrder(ground: Option<bool>, a: Answers, o: Cli.Outcomes)
    requires !a.vegetationDryRun && !o.vegetationBackupOk
    requires a.vegetationUploadDespiteFailedBackup && a.vegetationProceed
    ensures Precedes(RunOf(true, Some(true), ground, a, o).steps, Backup(Vegetation, false), Load(Vegetation, o.vegetationLoadOk))
  {
    var steps := RunOf(true, Some(true), ground, a, o).steps;
    assert steps[0] == Backup(Vegetation, false) && steps[1] == Load(Vegetation, o.vegetationLoadOk);
  }
}
