/**
  The first investigation of the gridVeg dates: the per-date counts of the
  species table and the records affected by the transformation error, the
  DD-MM-YY pattern check against the metadata for the ten earliest
  corrupted rows, and how much of the species table the metadata covers.
 */
module DateCoverage {
  import opened Relational
  import opened Dates
  import opened Sorting
  import opened Records

  // ---- analyze_dates ----

  /** One row of `SELECT date, COUNT(*) ... GROUP BY date`. */
  type DateGroup = Counted<Option<Date>>

  function DateColumn(species: seq<SpeciesRow>): (c: seq<Option<Date>>)
    ensures |c| == |species| && forall i :: 0 <= i < |c| ==> c[i] == species[i].date
  {
    seq(|species|, i requires 0 <= i < |species| => species[i].date)
  }

  function GroupDateKey(g: DateGroup): SortKey {
    SortKey(0, g.key)
  }

  /** `df["date"].dt.year > 2024`; a NaT year compares false. */
  predicate IsAffected(d: Option<Date>) {
    d.Some? && d.value.year > 2024
  }

  predicate IsAffectedGroup(g: DateGroup) {
    IsAffected(g.key)
  }

  function AffectedCount(g: DateGroup): nat {
    if IsAffectedGroup(g) then g.count else 0
  }

  datatype DateAnalysis = DateAnalysis(groups: seq<DateGroup>, affected: seq<DateGroup>, affectedRecords: nat)

  /**
    `analyze_dates`: one group per distinct date (NULL included) with its
    row count, in date order; the groups after 2024; and the sum of their
    counts, which is the number of species rows dated after 2024.
   */
  function AnalyzeDates(species: seq<SpeciesRow>): (r: DateAnalysis)
    ensures multiset(r.groups) == multiset(GroupBy(DateColumn(species)))
    ensures forall g :: g in r.affected <==> g in r.groups && IsAffected(g.key)
    ensures r.affectedRecords == |Filter(DateColumn(species), IsAffected)|
  {
    var column := DateColumn(species);
    var unsorted := GroupBy(column);
    var groups := SortBy(unsorted, GroupDateKey);
    var affected := Filter(groups, IsAffectedGroup);
    SumOfFilter(groups, IsAffectedGroup, CountOf, AffectedCount);
    SumOfPermutation(groups, unsorted, AffectedCount);
    GroupBySum(column, IsAffected, AffectedCount);
    DateAnalysis(groups, affected, SumOf(affected, CountOf))
  }

  /** The groups are exactly the dates of the table, each with its row count. */
  lemma DateGroupsComplete(species: seq<SpeciesRow>, g: DateGroup)
    ensures g in AnalyzeDates(species).groups <==>
      g.key in DateColumn(species) && g.count == Occurrences(DateColumn(species), g.key)
  {
    var groups := AnalyzeDates(species).groups;
    GroupByMember(DateColumn(species), g);
    assert g in groups <==> g in multiset(groups);
    assert g in GroupBy(DateColumn(species)) <==> g in multiset(GroupBy(DateColumn(species)));
  }

  lemma AnalyzeDatesOrdered(species: seq<SpeciesRow>)
    ensures var groups := AnalyzeDates(species).groups;
      forall i, j :: 0 <= i < j < |groups| ==> DateAtMost(groups[i].key, groups[j].key)
  {
    var column := DateColumn(species);
    var groups := AnalyzeDates(species).groups;
    SortBySorted(GroupBy(column), GroupDateKey);
    forall i, j | 0 <= i < j < |groups| ensures DateAtMost(groups[i].key, groups[j].key) {
      assert KeyAtMost(GroupDateKey(groups[i]), GroupDateKey(groups[j]));
    }
  }

  // ---- analyze_with_metadata ----

  /** One row of the pattern query, `pattern_check` as a flag. */
  datatype PatternRow = PatternRow(
    surveyId: string,
    incorrectDate: Date,
    correctDate: Option<Date>,
    originalFormat: Option<string>,
    transformedDate: string,
    confirmsPattern: bool)

  function PatternRowOf(id: string, incorrect: Date, correct: Option<Date>): PatternRow {
    PatternRow(id, incorrect, correct,
      if correct.Some? then Some(FormatDdMmYy(correct.value)) else None,
      FormatIso(incorrect),
      ConfirmsPattern(incorrect, correct))
  }

  predicate IsFutureRow(a: SpeciesRow) {
    SqlAfter(a.date, Cutoff)
  }

  /** The joined rows of one species row: one per metadata row of its survey, or one with a NULL correct date. */
  function PatternRowsFor(a: SpeciesRow, metadata: seq<SurveyDate>): (r: seq<PatternRow>)
    ensures IsFutureRow(a) ==> |r| >= 1 && forall x :: x in r <==>
      exists m :: m in LeftJoinDates(metadata, a.surveyId) && x == PatternRowOf(a.surveyId, a.date.value, m)
    ensures !IsFutureRow(a) ==> r == []
  {
    if IsFutureRow(a) then
      var ms := LeftJoinDates(metadata, a.surveyId);
      var r := seq(|ms|, i requires 0 <= i < |ms| => PatternRowOf(a.surveyId, a.date.value, ms[i]));
      assert forall x :: x in r <==> exists m :: m in ms && x == PatternRowOf(a.surveyId, a.date.value, m) by {
        forall x ensures x in r <==> exists m :: m in ms && x == PatternRowOf(a.surveyId, a.date.value, m) {
          if exists m :: m in ms && x == PatternRowOf(a.surveyId, a.date.value, m) {
            var m :| m in ms && x == PatternRowOf(a.surveyId, a.date.value, m);
            var i :| 0 <= i < |ms| && ms[i] == m;
            assert r[i] == x;
          }
        }
      }
      r
    else []
  }

  /** The CTE: species rows dated after the cutoff LEFT JOIN the metadata. */
  function PatternJoin(species: seq<SpeciesRow>, metadata: seq<SurveyDate>): seq<PatternRow> {
    FlatMap(Filter(species, IsFutureRow), (a: SpeciesRow) => PatternRowsFor(a, metadata))
  }

  function IncorrectDateKey(r: PatternRow): SortKey {
    SortKey(0, Some(r.incorrectDate))
  }

  /** What one row of the pattern query states. */
  predicate PatternRowSound(r: PatternRow, species: seq<SpeciesRow>, metadata: seq<SurveyDate>) {
    Before(Cutoff, r.incorrectDate)
    && (exists a :: a in species && a.surveyId == r.surveyId && a.date == Some(r.incorrectDate))
    && r.correctDate in LeftJoinDates(metadata, r.surveyId)
    && r.transformedDate == FormatIso(r.incorrectDate)
    && r.originalFormat == (if r.correctDate.Some? then Some(FormatDdMmYy(r.correctDate.value)) else None)
    && (r.confirmsPattern <==> r.correctDate.Some? && r.correctDate.value.day == r.incorrectDate.year - 2000)
  }

  lemma {:induction false} PatternJoinSound(species: seq<SpeciesRow>, metadata: seq<SurveyDate>, r: PatternRow)
    requires r in PatternJoin(species, metadata)
    ensures PatternRowSound(r, species, metadata)
  {
    var future := Filter(species, IsFutureRow);
    FlatMapMember(future, (a: SpeciesRow) => PatternRowsFor(a, metadata), r);
    var i :| 0 <= i < |future| && r in PatternRowsFor(future[i], metadata);
    var a := future[i];
    assert a in future;
    var m :| m in LeftJoinDates(metadata, a.surveyId) && r == PatternRowOf(a.surveyId, a.date.value, m);
  }

  /** The first ten rows by incorrect date: rows of the input, in date order,
      and none left out is dated earlier than one kept. */
  lemma FirstTenByDate(joined: seq<PatternRow>, out: seq<PatternRow>)
    requires out == Take(SortBy(joined, IncorrectDateKey), 10)
    ensures forall r :: r in out ==> r in joined
    ensures forall i, j :: 0 <= i < j < |out| ==> !Before(out[j].incorrectDate, out[i].incorrectDate)
    ensures forall i, x :: 0 <= i < |out| && x in joined && x !in out ==> !Before(x.incorrectDate, out[i].incorrectDate)
  {
    var sorted := SortBy(joined, IncorrectDateKey);
    SortBySorted(joined, IncorrectDateKey);
    TakeSortedLowest(sorted, IncorrectDateKey, 10);
    forall r | r in out ensures r in joined {
      assert r in multiset(sorted);
    }
    forall i, j | 0 <= i < j < |out| ensures !Before(out[j].incorrectDate, out[i].incorrectDate) {
      assert KeyAtMost(IncorrectDateKey(out[i]), IncorrectDateKey(out[j]));
    }
    forall i, x | 0 <= i < |out| && x in joined && x !in out
      ensures !Before(x.incorrectDate, out[i].incorrectDate)
    {
      assert x in multiset(sorted);
      var k :| 0 <= k < |sorted| && sorted[k] == x;
      assert KeyAtMost(IncorrectDateKey(out[i]), IncorrectDateKey(sorted[k]));
    }
  }

  /**
    The pattern query: the first ten rows of the join by incorrect date.
    Only rows dated after the cutoff appear, and no row left out is dated
    earlier than one shown.
   */
  function PatternQuery(species: seq<SpeciesRow>, metadata: seq<SurveyDate>): (out: seq<PatternRow>)
    ensures |out| == if |PatternJoin(species, metadata)| < 10 then |PatternJoin(species, metadata)| else 10
    ensures forall r :: r in out ==> PatternRowSound(r, species, metadata)
    ensures forall i, j :: 0 <= i < j < |out| ==> !Before(out[j].incorrectDate, out[i].incorrectDate)
    ensures forall i, x :: 0 <= i < |out| && x in PatternJoin(species, metadata) && x !in out ==>
      !Before(x.incorrectDate, out[i].incorrectDate)
  {
    var joined := PatternJoin(species, metadata);
    var out := Take(SortBy(joined, IncorrectDateKey), 10);
    FirstTenByDate(joined, out);
    forall r | r in out ensures PatternRowSound(r, species, metadata) {
      PatternJoinSound(species, metadata, r);
    }
    out
  }

  /** A row the print loop cannot show: `correct_date` is NULL, and its
      `strftime` raises. */
  predicate LacksCorrectDate(r: PatternRow) {
    r.correctDate.None?
  }

  /** The loop printing `rows`: None at the first row without a correct
      date, otherwise the rows, all printed. */
  function PrintRows(rows: seq<PatternRow>): (r: Option<seq<PatternRow>>)
    ensures r.None? <==> exists i :: 0 <= i < |rows| && LacksCorrectDate(rows[i])
    ensures r.Some? ==> r.value == rows
  {
    if rows == [] then Some([])
    else if LacksCorrectDate(rows[0]) then None
    else match PrintRows(rows[1..])
      case None => None
      case Some(rest) => Some([rows[0]] + rest)
  }

  /**
    `analyze_with_metadata`: the pattern query's rows, printed one by one.
    None when a row shown has a NULL correct date, whose `strftime` raises
    and ends the script.
   */
  function AnalyzeWithMetadata(species: seq<SpeciesRow>, metadata: seq<SurveyDate>): (r: Option<seq<PatternRow>>)
    ensures r.None? <==> exists i :: 0 <= i < |PatternQuery(species, metadata)| && LacksCorrectDate(PatternQuery(species, metadata)[i])
    ensures r.Some? ==> r.value == PatternQuery(species, metadata)
  {
    PrintRows(PatternQuery(species, metadata))
  }

  /** A sound pattern row of a survey with metadata rows, all dated, has a
      correct date. */
  lemma SoundRowHasDate(r: PatternRow, species: seq<SpeciesRow>, metadata: seq<SurveyDate>)
    requires PatternRowSound(r, species, metadata)
    requires forall i :: 0 <= i < |species| && IsFutureRow(species[i]) ==> HasSurvey(metadata, species[i].surveyId)
    requires forall j :: 0 <= j < |metadata| ==> metadata[j].date.Some?
    ensures !LacksCorrectDate(r)
  {
    var a :| a in species && a.surveyId == r.surveyId && a.date == Some(r.incorrectDate);
    var k :| 0 <= k < |species| && species[k] == a;
    assert IsFutureRow(species[k]);
    HasSurveyIffRowsFor(metadata, r.surveyId);
    var ms := RowsFor(metadata, r.surveyId);
    var dates := LeftJoinDates(metadata, r.surveyId);
    var j :| 0 <= j < |dates| && dates[j] == r.correctDate;
    assert ms[j] in metadata;
  }

  /** With a metadata row, and a date in it, for every survey dated after
      the cutoff, every row is shown. */
  lemma CompleteMetadataPrints(species: seq<SpeciesRow>, metadata: seq<SurveyDate>)
    requires forall i :: 0 <= i < |species| && IsFutureRow(species[i]) ==> HasSurvey(metadata, species[i].surveyId)
    requires forall j :: 0 <= j < |metadata| ==> metadata[j].date.Some?
    ensures AnalyzeWithMetadata(species, metadata) == Some(PatternQuery(species, metadata))
  {
    var out := PatternQuery(species, metadata);
    forall i | 0 <= i < |out| ensures !LacksCorrectDate(out[i]) {
      assert out[i] in out;
      SoundRowHasDate(out[i], species, metadata);
    }
  }

  /** A sound pattern row of a survey with no metadata row has no correct date. */
  lemma UnmatchedRowLacksDate(r: PatternRow, species: seq<SpeciesRow>, metadata: seq<SurveyDate>)
    requires PatternRowSound(r, species, metadata)
    requires !HasSurvey(metadata, r.surveyId)
    ensures LacksCorrectDate(r)
  {
    HasSurveyIffRowsFor(metadata, r.surveyId);
  }

  /** A row shown for a survey with no metadata row stops the script. */
  lemma UnmatchedShownRowRaises(species: seq<SpeciesRow>, metadata: seq<SurveyDate>, i: nat)
    requires i < |PatternQuery(species, metadata)|
    requires !HasSurvey(metadata, PatternQuery(species, metadata)[i].surveyId)
    ensures AnalyzeWithMetadata(species, metadata).None?
  {
    var out := PatternQuery(species, metadata);
    assert out[i] in out;
    UnmatchedRowLacksDate(out[i], species, metadata);
  }

  // ---- analyze_metadata_coverage ----

  /** One row of `additional_species_dates a LEFT JOIN survey_metadata m`. */
  datatype CoverageRow = CoverageRow(speciesDate: Option<Date>, metadataDate: Option<Date>)

  function CoverageRowsFor(a: SurveyDate, metadata: seq<SurveyDate>): (r: seq<CoverageRow>)
    ensures |r| == |LeftJoinDates(metadata, a.surveyId)|
    ensures forall i :: 0 <= i < |r| ==> r[i] == CoverageRow(a.date, LeftJoinDates(metadata, a.surveyId)[i])
  {
    var ms := LeftJoinDates(metadata, a.surveyId);
    seq(|ms|, i requires 0 <= i < |ms| => CoverageRow(a.date, ms[i]))
  }

  function CoverageJoin(species: seq<SpeciesRow>, metadata: seq<SurveyDate>): seq<CoverageRow> {
    FlatMap(Distinct(SpeciesDates(species)), (a: SurveyDate) => CoverageRowsFor(a, metadata))
  }

  predicate HasMetadataDate(r: CoverageRow) {
    r.metadataDate.Some?
  }

  predicate LacksMetadataDate(r: CoverageRow) {
    r.metadataDate.None?
  }

  predicate FutureWithoutMetadata(r: CoverageRow) {
    SqlAfter(r.speciesDate, Cutoff) && r.metadataDate.None?
  }

  /** The four COUNTIF aggregates; the coverage ratio is matched over total. */
  datatype Coverage = Coverage(total: nat, matched: nat, unmatched: nat, futureWithoutMetadata: nat)

  /**
    `analyze_metadata_coverage`. Every joined row has a metadata date or
    has none, so matched and unmatched make up the total; the future rows
    without metadata are among the unmatched; and every distinct (survey_ID,
    date) of the species table contributes at least one row.
   */
  function AnalyzeMetadataCoverage(species: seq<SpeciesRow>, metadata: seq<SurveyDate>): (c: Coverage)
    ensures var join := CoverageJoin(species, metadata);
      c.total == |join| && c.matched == |Filter(join, HasMetadataDate)|
      && c.unmatched == |Filter(join, LacksMetadataDate)|
      && c.futureWithoutMetadata == |Filter(join, FutureWithoutMetadata)|
    ensures c.matched + c.unmatched == c.total
    ensures c.futureWithoutMetadata <= c.unmatched
    ensures c.matched <= c.total
    ensures c.total >= |Distinct(SpeciesDates(species))|
  {
    var keys := Distinct(SpeciesDates(species));
    var join := CoverageJoin(species, metadata);
    TwoWayPartition(join, HasMetadataDate, LacksMetadataDate);
    FilterMonotone(join, FutureWithoutMetadata, LacksMetadataDate);
    FlatMapLengthAtLeast(keys, (a: SurveyDate) => CoverageRowsFor(a, metadata));
    Coverage(|join|, |Filter(join, HasMetadataDate)|, |Filter(join, LacksMetadataDate)|,
      |Filter(join, FutureWithoutMetadata)|)
  }

  /** When the metadata has at most one row per survey_ID, the total is the
      number of distinct (survey_ID, date) pairs of the species table. */
  lemma {:induction false} CoverageTotalWithUniqueMetadata(species: seq<SpeciesRow>, metadata: seq<SurveyDate>)
    requires UniqueSurveys(metadata)
    ensures AnalyzeMetadataCoverage(species, metadata).total == |Distinct(SpeciesDates(species))|
  {
    var keys := Distinct(SpeciesDates(species));
    forall i | 0 <= i < |keys| ensures |CoverageRowsFor(keys[i], metadata)| == 1 {
      RowsForUnique(metadata, keys[i].surveyId);
    }
    FlatMapConstantLength(keys, (a: SurveyDate) => CoverageRowsFor(a, metadata), 1);
  }
}
