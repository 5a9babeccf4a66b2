/**
  The local repair of a downloaded gridVeg_additional_species frame: every
  row's date is replaced by the metadata date of its survey_ID (looked up
  through metadata indexed by survey_ID) and the year is recomputed from it.
  The work is done on a copy, so the caller's species frame is unchanged;
  only the returned frame is new.
 */
module LocalDateFix {
  import opened Relational
  import opened Dates
  import opened Records
  import DateCorrection

  /** The date `map` finds for a survey_ID: the date of its metadata row, or
      NaT when there is none (or that row's date is missing). */
  function MappedDate(metadata: seq<SurveyDate>, id: string): (d: Option<Date>)
    ensures !HasSurvey(metadata, id) ==> d == None
    ensures UniqueSurveys(metadata) ==> forall m :: m in metadata && m.surveyId == id ==> d == m.date
  {
    HasSurveyIffRowsFor(metadata, id);
    var ms := RowsFor(metadata, id);
    if ms == [] then None
    else
      assert ms[0] in ms;
      if UniqueSurveys(metadata) then (RowsForUnique(metadata, id); ms[0].date) else ms[0].date
  }

  /** The row of the returned frame: same columns, date and year reassigned. */
  function FixedRow(metadata: seq<SurveyDate>, r: SpeciesRow): SpeciesRow {
    var d := MappedDate(metadata, r.surveyId);
    r.(date := d, year := YearOf(d))
  }

  /** A row the closing check reports as having a missing date. */
  predicate DateMissing(r: SpeciesRow) {
    r.date.None?
  }

  /** What the function as written raises. */
  datatype FixError =
    | DuplicateSurveyIds   // `map` through an index that repeats a survey_ID
    | YearCastFailed       // `.dt.year.astype("int32")` on a missing date

  datatype Outcome = Fixed(rows: seq<SpeciesRow>) | Raised(error: FixError)

  /** The repair as written: a missing date is cast to int32 before the
      missing-date check can see it, so the run raises instead. */
  function FixDatesAsWritten(metadata: seq<SurveyDate>, species: seq<SpeciesRow>): (o: Outcome)
    ensures o == Raised(DuplicateSurveyIds) <==> !UniqueSurveys(metadata)
    ensures o == Raised(YearCastFailed) <==>
      UniqueSurveys(metadata) && exists i :: 0 <= i < |species| && MappedDate(metadata, species[i].surveyId).None?
    ensures o.Fixed? ==> Some(o.rows) == FixDates(metadata, species)
  {
    if !UniqueSurveys(metadata) then Raised(DuplicateSurveyIds)
    else if exists i :: 0 <= i < |species| && MappedDate(metadata, species[i].surveyId).None? then Raised(YearCastFailed)
    else Fixed(FixDates(metadata, species).value)
  }

  /** Whenever the function as written returns, no row lacks a date: the
      missing-date warning it ends with can never be issued. */
  lemma MissingDateWarningUnreachable(metadata: seq<SurveyDate>, species: seq<SpeciesRow>)
    requires FixDatesAsWritten(metadata, species).Fixed?
    ensures Filter(FixDatesAsWritten(metadata, species).rows, DateMissing) == []
  {
    var rows := FixDatesAsWritten(metadata, species).rows;
    forall i | 0 <= i < |rows| ensures !DateMissing(rows[i]) {
      assert !MappedDate(metadata, species[i].surveyId).None?;
    }
    FilterNone(rows, DateMissing);
  }

  /** One species row whose survey_ID has no metadata is enough to make the
      function as written raise rather than warn. */
  lemma UnmatchedSurveyRaises()
    ensures FixDatesAsWritten([], [SpeciesRow("S", None, Some(Ymd(2031, 6, 12)), Some(2031), None)]) == Raised(YearCastFailed)
  {
    var species := [SpeciesRow("S", None, Some(Ymd(2031, 6, 12)), Some(2031), None)];
    assert UniqueSurveys([]);
    assert MappedDate([], species[0].surveyId).None?;
  }

  /**
    The repair as intended: year is recomputed as a nullable integer, so a
    survey_ID without a metadata date yields a row with a missing date and
    year, which the closing check reports. None when metadata repeats a
    survey_ID (the lookup is then not a function).
   */
  function FixDates(metadata: seq<SurveyDate>, species: seq<SpeciesRow>): (r: Option<seq<SpeciesRow>>)
    ensures r.None? <==> !UniqueSurveys(metadata)
    ensures r.Some? ==> |r.value| == |species|
    ensures r.Some? ==> forall i :: 0 <= i < |species| ==>
      var u := r.value[i];
      && u.surveyId == species[i].surveyId && u.gridPoint == species[i].gridPoint && u.species == species[i].species
      && (forall m :: m in metadata && m.surveyId == u.surveyId ==> u.date == m.date)
      && (!HasSurvey(metadata, u.surveyId) ==> u.date == None)
      && u.year == YearOf(u.date)
  {
    if !UniqueSurveys(metadata) then None
    else Some(seq(|species|, i requires 0 <= i < |species| => FixedRow(metadata, species[i])))
  }

  /** The warned rows are exactly those whose survey has no metadata date. */
  lemma {:induction false} WarnedRowsLackMetadataDate(metadata: seq<SurveyDate>, species: seq<SpeciesRow>, i: int)
    requires FixDates(metadata, species).Some? && 0 <= i < |species|
    ensures FixDates(metadata, species).value[i] in Filter(FixDates(metadata, species).value, DateMissing)
      <==> forall m :: m in metadata && m.surveyId == species[i].surveyId ==> m.date == None
  {
    var id := species[i].surveyId;
    HasSurveyIffRowsFor(metadata, id);
    if HasSurvey(metadata, id) {
      var k :| 0 <= k < |metadata| && metadata[k].surveyId == id;
      assert metadata[k] in metadata;
    }
  }

  /** Year and date agree in every row of the result: the year check of the
      warehouse repair holds for it. */
  lemma FixedYearsAgree(metadata: seq<SurveyDate>, species: seq<SpeciesRow>)
    requires FixDates(metadata, species).Some?
    ensures Filter(FixDates(metadata, species).value, DateCorrection.YearMismatch) == []
  {
    FilterNone(FixDates(metadata, species).value, DateCorrection.YearMismatch);
  }

  /** Running the repair on its own output changes nothing. */
  lemma FixDatesIdempotent(metadata: seq<SurveyDate>, species: seq<SpeciesRow>)
    requires FixDates(metadata, species).Some?
    ensures FixDates(metadata, FixDates(metadata, species).value) == FixDates(metadata, species)
  {
    var once := FixDates(metadata, species).value;
    var twice := FixDates(metadata, once).value;
    forall i | 0 <= i < |once| ensures twice[i] == once[i] {
      assert once[i] == FixedRow(metadata, species[i]);
      assert twice[i] == FixedRow(metadata, once[i]);
    }
    assert twice == once;
  }

  /** On every row the warehouse UPDATE touches, the local repair writes the
      same date and year; on other rows it still overwrites the date. */
  lemma {:induction false} AgreesWithWarehouseUpdate(metadata: seq<SurveyDate>, species: seq<SpeciesRow>, i: int)
    requires UniqueSurveys(metadata) && 0 <= i < |species|
    requires DateCorrection.Targeted(metadata, species[i])
    ensures DateCorrection.UpdateResult(species, metadata).Some?
    ensures FixDates(metadata, species).value[i] == DateCorrection.UpdateResult(species, metadata).value[i]
  {
    DateCorrection.UpdateNeverRefusedWithUniqueMetadata(species, metadata);
    var r := species[i];
    var m :| m in metadata && m.surveyId == r.surveyId
      && DateCorrection.UpdatedRow(metadata, r) == r.(date := m.date, year := YearOf(m.date));
  }
}
