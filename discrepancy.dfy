/**
  The follow-up investigation of the gridVeg dates: species and metadata
  rows grouped by (survey_ID, date) with their counts, LEFT JOINed on
  survey_ID with the precedence Missing in Metadata, then Date Mismatch,
  then Match; the date-component differences of the mismatches; the
  survey_ID set differences; the +11 year offset test; and the DD-MM-YY
  reconstruction test.
 */
module Discrepancy {
  import opened Relational
  import opened Dates
  import opened Sorting
  import opened Records
  import Pattern = DatePatternAnalysis

  datatype Status = MissingInMetadata | DateMismatch | Match

  /** The CASE for `status`: `m.survey_ID IS NULL` first. */
  function StatusOf(joined: bool, speciesDate: Option<Date>, metadataDate: Option<Date>): Status {
    if !joined then MissingInMetadata
    else if SqlDiffer(speciesDate, metadataDate) then DateMismatch
    else Match
  }

  /** The two investigations classify a date on or before the cutoff alike:
      a joined row is a mismatch here exactly when it is one in the pattern
      analysis, and a row without metadata, reported missing here, is a
      Match there. */
  lemma AgreesWithPatternAnalysis(joined: bool, speciesDate: Option<Date>, metadataDate: Option<Date>)
    requires !SqlAfter(speciesDate, Cutoff)
    ensures joined ==>
      (StatusOf(joined, speciesDate, metadataDate) == DateMismatch <==> Pattern.StatusOf(speciesDate, metadataDate) == Pattern.DateMismatch)
    ensures joined ==>
      (StatusOf(joined, speciesDate, metadataDate) == Match <==> Pattern.StatusOf(speciesDate, metadataDate) == Pattern.Match)
    ensures !joined ==> StatusOf(joined, speciesDate, metadataDate) == MissingInMetadata && Pattern.StatusOf(speciesDate, None) == Pattern.Match
  {
  }

  /** One `GROUP BY survey_ID, date` group with its `COUNT(*)`. */
  type Group = Counted<SurveyDate>

  /** The species group counts add up to the number of species rows. */
  lemma SpeciesGroupsTotal(species: seq<SpeciesRow>)
    ensures SumOf(GroupBy(SpeciesDates(species)), CountOf) == |species|
  {
    GroupBySum(SpeciesDates(species), (x: SurveyDate) => true, CountOf);
    FilterAll(SpeciesDates(species), (x: SurveyDate) => true);
  }

  /** One row of the query result; `metadataCount` is NULL when the LEFT JOIN
      found no metadata row. */
  datatype DiscrepancyRow = DiscrepancyRow(
    surveyId: string,
    speciesDate: Option<Date>,
    metadataDate: Option<Date>,
    speciesCount: nat,
    metadataCount: Option<nat>,
    status: Status)

  function MatchingGroups(ms: seq<Group>, id: string): (r: seq<Group>)
    ensures forall x :: x in r <==> x in ms && x.key.surveyId == id
  {
    Filter(ms, (m: Group) => m.key.surveyId == id)
  }

  /** The result rows for one species group `a`, given its matching metadata groups. */
  function RowsForGroup(a: Group, ms: seq<Group>): (r: seq<DiscrepancyRow>)
    ensures ms == [] ==> r == [DiscrepancyRow(a.key.surveyId, a.key.date, None, a.count, None, MissingInMetadata)]
    ensures ms != [] ==> |r| == |ms| && forall i :: 0 <= i < |r| ==>
      r[i] == DiscrepancyRow(a.key.surveyId, a.key.date, ms[i].key.date, a.count, Some(ms[i].count),
                             StatusOf(true, a.key.date, ms[i].key.date))
  {
    if ms == [] then
      [DiscrepancyRow(a.key.surveyId, a.key.date, None, a.count, None, MissingInMetadata)]
    else
      seq(|ms|, i requires 0 <= i < |ms| =>
        DiscrepancyRow(a.key.surveyId, a.key.date, ms[i].key.date, a.count, Some(ms[i].count),
                       StatusOf(true, a.key.date, ms[i].key.date)))
  }

  /** The grouped LEFT JOIN before ORDER BY: each species group, in group
      order, followed by its rows against the matching metadata groups. */
  function JoinGroups(species: seq<SpeciesRow>, metadata: seq<SurveyDate>): seq<DiscrepancyRow> {
    var ms := GroupBy(metadata);
    FlatMap(GroupBy(SpeciesDates(species)), (a: Group) => RowsForGroup(a, MatchingGroups(ms, a.key.surveyId)))
  }

  function SpeciesDateKey(r: DiscrepancyRow): SortKey {
    SortKey(0, r.speciesDate)
  }

  /** What a result row says about the two tables. */
  predicate RowSound(r: DiscrepancyRow, species: seq<SpeciesRow>, metadata: seq<SurveyDate>) {
    var a := SurveyDate(r.surveyId, r.speciesDate);
    a in SpeciesDates(species)
    && r.speciesCount == Occurrences(SpeciesDates(species), a)
    && (r.metadataCount.None? <==> !HasSurvey(metadata, r.surveyId))
    && (r.metadataCount.None? ==> r.metadataDate.None?)
    && (r.metadataCount.Some? ==>
          SurveyDate(r.surveyId, r.metadataDate) in metadata
          && r.metadataCount.value == Occurrences(metadata, SurveyDate(r.surveyId, r.metadataDate)))
    && r.status == StatusOf(r.metadataCount.Some?, r.speciesDate, r.metadataDate)
  }

  lemma {:induction false} MissingMeansNoSurvey(metadata: seq<SurveyDate>, id: string)
    ensures MatchingGroups(GroupBy(metadata), id) == [] <==> !HasSurvey(metadata, id)
  {
    var ms := GroupBy(metadata);
    if HasSurvey(metadata, id) {
      var i :| 0 <= i < |metadata| && metadata[i].surveyId == id;
      assert metadata[i] in Distinct(metadata);
      var j :| 0 <= j < |Distinct(metadata)| && Distinct(metadata)[j] == metadata[i];
      assert ms[j] in MatchingGroups(ms, id);
    }
    if MatchingGroups(ms, id) != [] {
      var g := MatchingGroups(ms, id)[0];
      assert g in MatchingGroups(ms, id);
      GroupByMember(metadata, g);
      var i :| 0 <= i < |metadata| && metadata[i] == g.key;
    }
  }

  /** The rows one species group produces are sound. */
  lemma RowsForGroupSound(species: seq<SpeciesRow>, metadata: seq<SurveyDate>, a: Group, r: DiscrepancyRow)
    requires a.key in SpeciesDates(species) && a.count == Occurrences(SpeciesDates(species), a.key)
    requires r in RowsForGroup(a, MatchingGroups(GroupBy(metadata), a.key.surveyId))
    ensures RowSound(r, species, metadata)
  {
    var mg := MatchingGroups(GroupBy(metadata), a.key.surveyId);
    MissingMeansNoSurvey(metadata, a.key.surveyId);
    var rows := RowsForGroup(a, mg);
    var k :| 0 <= k < |rows| && rows[k] == r;
    if mg != [] {
      assert mg[k] in mg;
      GroupByMember(metadata, mg[k]);
    }
  }

  lemma {:induction false} JoinGroupsSound(species: seq<SpeciesRow>, metadata: seq<SurveyDate>, r: DiscrepancyRow)
    requires r in JoinGroups(species, metadata)
    ensures RowSound(r, species, metadata)
  {
    var ms := GroupBy(metadata);
    var gs := GroupBy(SpeciesDates(species));
    var f := (a: Group) => RowsForGroup(a, MatchingGroups(ms, a.key.surveyId));
    FlatMapMember(gs, f, r);
    var i :| 0 <= i < |gs| && r in f(gs[i]);
    assert gs[i] in gs;
    GroupByMember(SpeciesDates(species), gs[i]);
    RowsForGroupSound(species, metadata, gs[i], r);
  }

  lemma {:induction false} JoinGroupsComplete(species: seq<SpeciesRow>, metadata: seq<SurveyDate>, x: SurveyDate)
    requires x in SpeciesDates(species)
    ensures exists r :: r in JoinGroups(species, metadata) && r.surveyId == x.surveyId && r.speciesDate == x.date
  {
    var ms := GroupBy(metadata);
    var gs := GroupBy(SpeciesDates(species));
    var f := (a: Group) => RowsForGroup(a, MatchingGroups(ms, a.key.surveyId));
    assert x in Distinct(SpeciesDates(species));
    var i :| 0 <= i < |Distinct(SpeciesDates(species))| && Distinct(SpeciesDates(species))[i] == x;
    var r := f(gs[i])[0];
    assert r in f(gs[i]);
    FlatMapMember(gs, f, r);
  }

  /**
    `compare_dates_between_tables`: the grouped LEFT JOIN in ORDER BY
    species date (NULLs first). Every row is sound, and every (survey_ID,
    date) pair of the species table appears. The rows are exactly those of
    the join, each as often as the join yields it.
   */
  function CompareDatesBetweenTables(species: seq<SpeciesRow>, metadata: seq<SurveyDate>): (out: seq<DiscrepancyRow>)
    ensures multiset(out) == multiset(JoinGroups(species, metadata))
    ensures forall r :: r in out ==> RowSound(r, species, metadata)
    ensures forall x :: x in SpeciesDates(species) ==>
      exists r :: r in out && r.surveyId == x.surveyId && r.speciesDate == x.date
  {
    var joined := JoinGroups(species, metadata);
    var out := SortBy(joined, SpeciesDateKey);
    forall r | r in out ensures RowSound(r, species, metadata) {
      assert r in multiset(out);
      JoinGroupsSound(species, metadata, r);
    }
    forall x | x in SpeciesDates(species)
      ensures exists r :: r in out && r.surveyId == x.surveyId && r.speciesDate == x.date
    {
      JoinGroupsComplete(species, metadata, x);
      var r :| r in joined && r.surveyId == x.surveyId && r.speciesDate == x.date;
      assert r in multiset(joined);
    }
    out
  }

  lemma CompareDatesBetweenTablesOrdered(species: seq<SpeciesRow>, metadata: seq<SurveyDate>)
    ensures var out := CompareDatesBetweenTables(species, metadata);
      forall i, j :: 0 <= i < j < |out| ==> DateAtMost(out[i].speciesDate, out[j].speciesDate)
  {
    var out := CompareDatesBetweenTables(species, metadata);
    SortBySorted(JoinGroups(species, metadata), SpeciesDateKey);
    forall i, j | 0 <= i < j < |out| ensures DateAtMost(out[i].speciesDate, out[j].speciesDate) {
      assert KeyAtMost(SpeciesDateKey(out[i]), SpeciesDateKey(out[j]));
    }
  }

  // ---- analyze_discrepancies ----

  function MonthOf(d: Option<Date>): (m: Option<int>)
    ensures m.Some? <==> d.Some?
    ensures m.Some? ==> 1 <= m.value <= 12 && m.value == d.value.month
  {
    if d.Some? then Some(d.value.month) else None
  }

  function DayOf(d: Option<Date>): (n: Option<int>)
    ensures n.Some? <==> d.Some?
    ensures n.Some? ==> 1 <= n.value <= 31 && n.value == d.value.day
  {
    if d.Some? then Some(d.value.day) else None
  }

  /** Column subtraction: NaN when either side is missing. */
  function Minus(a: Option<int>, b: Option<int>): (r: Option<int>)
    ensures r.Some? <==> a.Some? && b.Some?
    ensures r.Some? ==> r.value + b.value == a.value
  {
    if a.Some? && b.Some? then Some(a.value - b.value) else None
  }

  /** Metadata minus species, component by component. */
  datatype ComponentDiff = ComponentDiff(years: Option<int>, months: Option<int>, days: Option<int>)

  function DiffOf(r: DiscrepancyRow): ComponentDiff {
    ComponentDiff(
      Minus(YearOf(r.metadataDate), YearOf(r.speciesDate)),
      Minus(MonthOf(r.metadataDate), MonthOf(r.speciesDate)),
      Minus(DayOf(r.metadataDate), DayOf(r.speciesDate)))
  }

  /** The differences of two present dates are all zero exactly when the dates are equal;
      so a Date Mismatch row always shows a non-zero difference. */
  lemma {:induction false} DiffZeroIffSameDate(r: DiscrepancyRow)
    requires r.speciesDate.Some? && r.metadataDate.Some?
    ensures DiffOf(r) == ComponentDiff(Some(0), Some(0), Some(0)) <==> r.speciesDate == r.metadataDate
    ensures SqlDiffer(r.speciesDate, r.metadataDate) ==> DiffOf(r) != ComponentDiff(Some(0), Some(0), Some(0))
  {
    var s, m := r.speciesDate.value, r.metadataDate.value;
    if DiffOf(r) == ComponentDiff(Some(0), Some(0), Some(0)) {
      assert s.year == m.year && s.month == m.month && s.day == m.day;
      assert s == m;
    }
  }

  /** The `suspicious` mask: species day above 12 or species month above 12. */
  predicate Suspicious(r: DiscrepancyRow) {
    var d, m := DayOf(r.speciesDate), MonthOf(r.speciesDate);
    (d.Some? && d.value > 12) || (m.Some? && m.value > 12)
  }

  /** The month test can never fire: a row is suspicious exactly when its
      species day is above 12. */
  lemma SuspiciousIffDayAbove12(r: DiscrepancyRow)
    ensures Suspicious(r) <==> r.speciesDate.Some? && r.speciesDate.value.day > 12
  {
  }

  function OfStatus(rows: seq<DiscrepancyRow>, s: Status): (r: seq<DiscrepancyRow>)
    ensures forall x :: x in r <==> x in rows && x.status == s
  {
    Filter(rows, (x: DiscrepancyRow) => x.status == s)
  }

  datatype DiscrepancyReport = DiscrepancyReport(
    total: nat, missing: nat, mismatches: nat, matches: nat,
    diffs: seq<ComponentDiff>, suspicious: nat, suspiciousSample: seq<DiscrepancyRow>)

  /** `analyze_discrepancies`: the status distribution and, over the Date
      Mismatch rows, the component differences and the suspicious rows. */
  function AnalyzeDiscrepancies(rows: seq<DiscrepancyRow>): (r: DiscrepancyReport)
    ensures r.total == |rows| && r.missing + r.mismatches + r.matches == r.total
    ensures r.missing == |OfStatus(rows, MissingInMetadata)| && r.mismatches == |OfStatus(rows, DateMismatch)|
      && r.matches == |OfStatus(rows, Match)|
    ensures |r.diffs| == r.mismatches
      && forall i :: 0 <= i < |r.diffs| ==> r.diffs[i] == DiffOf(OfStatus(rows, DateMismatch)[i])
    ensures r.suspicious == |Filter(OfStatus(rows, DateMismatch), Suspicious)| && r.suspicious <= r.mismatches
    ensures r.suspiciousSample == Take(Filter(OfStatus(rows, DateMismatch), Suspicious), 5) && |r.suspiciousSample| <= 5
    ensures forall x :: x in r.suspiciousSample ==> x in rows && x.status == DateMismatch && Suspicious(x)
  {
    var mismatches := OfStatus(rows, DateMismatch);
    var suspicious := Filter(mismatches, Suspicious);
    ThreeWayPartition(rows,
      (x: DiscrepancyRow) => x.status == MissingInMetadata,
      (x: DiscrepancyRow) => x.status == DateMismatch,
      (x: DiscrepancyRow) => x.status == Match);
    DiscrepancyReport(|rows|, |OfStatus(rows, MissingInMetadata)|, |mismatches|, |OfStatus(rows, Match)|,
      seq(|mismatches|, i requires 0 <= i < |mismatches| => DiffOf(mismatches[i])),
      |suspicious|, Take(suspicious, 5))
  }

  // ---- analyze_survey_id_patterns ----

  function SurveyIds(t: seq<SurveyDate>): (ids: seq<string>)
    ensures forall id :: id in ids <==> HasSurvey(t, id)
    ensures NoDuplicates(ids)
  {
    var all := seq(|t|, i requires 0 <= i < |t| => t[i].surveyId);
    assert forall id :: id in all <==> HasSurvey(t, id) by {
      forall id ensures id in all <==> HasSurvey(t, id) {
        if id in all {
          var i :| 0 <= i < |all| && all[i] == id;
        }
        if HasSurvey(t, id) {
          var i :| 0 <= i < |t| && t[i].surveyId == id;
          assert all[i] == id;
        }
      }
    }
    Distinct(all)
  }

  /** The two location groups of the UNION ALL, 'Only in Additional Species' first. */
  datatype SurveyIdPatterns = SurveyIdPatterns(onlyInSpecies: seq<string>, onlyInMetadata: seq<string>)

  /** `analyze_survey_id_patterns`: the survey_IDs of each table missing from the other. */
  function AnalyzeSurveyIdPatterns(species: seq<SpeciesRow>, metadata: seq<SurveyDate>): (p: SurveyIdPatterns)
    ensures forall id :: id in p.onlyInSpecies <==> HasSurvey(SpeciesDates(species), id) && !HasSurvey(metadata, id)
    ensures forall id :: id in p.onlyInMetadata <==> HasSurvey(metadata, id) && !HasSurvey(SpeciesDates(species), id)
    ensures NoDuplicates(p.onlyInSpecies) && NoDuplicates(p.onlyInMetadata)
  {
    var s, m := SurveyIds(SpeciesDates(species)), SurveyIds(metadata);
    var onlyS := Filter(s, (id: string) => id !in m);
    var onlyM := Filter(m, (id: string) => id !in s);
    FilterKeepsNoDuplicates(s, (id: string) => id !in m);
    FilterKeepsNoDuplicates(m, (id: string) => id !in s);
    SurveyIdPatterns(onlyS, onlyM)
  }


  /** The two investigations agree: a comparison row is Missing in Metadata
      exactly when its survey_ID is listed as only in the species table. */
  lemma MissingIffOnlyInSpecies(species: seq<SpeciesRow>, metadata: seq<SurveyDate>, r: DiscrepancyRow)
    requires r in CompareDatesBetweenTables(species, metadata)
    ensures r.status == MissingInMetadata <==> r.surveyId in AnalyzeSurveyIdPatterns(species, metadata).onlyInSpecies
  {
    assert RowSound(r, species, metadata);
    SoundRowMissingIff(species, metadata, r);
  }

  /** A sound row is Missing in Metadata exactly when its survey_ID is in
      the species table only. */
  lemma SoundRowMissingIff(species: seq<SpeciesRow>, metadata: seq<SurveyDate>, r: DiscrepancyRow)
    requires RowSound(r, species, metadata)
    ensures r.status == MissingInMetadata <==> r.surveyId in AnalyzeSurveyIdPatterns(species, metadata).onlyInSpecies
  {
    var a := SurveyDate(r.surveyId, r.speciesDate);
    var i :| 0 <= i < |SpeciesDates(species)| && SpeciesDates(species)[i] == a;
    assert HasSurvey(SpeciesDates(species), r.surveyId);
  }

  // ---- analyze_year_offset_pattern ----

  /** `species_date + DateOffset(years=11)` raises for this row. */
  predicate ShiftFails(r: DiscrepancyRow) {
    r.speciesDate.Some? && AddYears(r.speciesDate.value, 11).None?
  }

  /** The shifted species date equals the metadata date (NaT never equals). */
  predicate MatchesAfterShift(r: DiscrepancyRow) {
    r.speciesDate.Some? && r.metadataDate.Some? && AddYears(r.speciesDate.value, 11) == r.metadataDate
  }

  datatype YearOffsetReport = YearOffsetReport(yearDifferences: seq<Option<int>>, matched: nat, total: nat)

  /** `analyze_year_offset_pattern`; None when the shift leaves the date range. */
  function AnalyzeYearOffsetPattern(rows: seq<DiscrepancyRow>): (r: Option<YearOffsetReport>)
    ensures r.None? <==> exists x :: x in rows && x.status == DateMismatch && ShiftFails(x)
    ensures r.Some? ==>
      var ms := OfStatus(rows, DateMismatch);
      r.value.total == |ms|
      && r.value.matched == |Filter(ms, MatchesAfterShift)|
      && |r.value.yearDifferences| == |ms|
      && forall i :: 0 <= i < |ms| ==> r.value.yearDifferences[i] == Minus(YearOf(ms[i].metadataDate), YearOf(ms[i].speciesDate))
  {
    var ms := OfStatus(rows, DateMismatch);
    if exists x :: x in ms && ShiftFails(x) then None
    else
      Some(YearOffsetReport(
        seq(|ms|, i requires 0 <= i < |ms| => Minus(YearOf(ms[i].metadataDate), YearOf(ms[i].speciesDate))),
        |Filter(ms, MatchesAfterShift)|, |ms|))
  }

  predicate YearDifference11(r: DiscrepancyRow) {
    Minus(YearOf(r.metadataDate), YearOf(r.speciesDate)) == Some(11)
  }

  predicate IsEleven(y: Option<int>) {
    y == Some(11)
  }

  /** Every row that matches after the shift has a year difference of 11, so
      the matches are bounded by the number of 11s in the year histogram. */
  lemma {:induction false} ShiftMatchesHaveDifference11(rows: seq<DiscrepancyRow>)
    requires AnalyzeYearOffsetPattern(rows).Some?
    ensures var rep := AnalyzeYearOffsetPattern(rows).value;
      rep.matched <= |Filter(rep.yearDifferences, IsEleven)| <= rep.total
  {
    var rep := AnalyzeYearOffsetPattern(rows).value;
    var ms := OfStatus(rows, DateMismatch);
    FilterMonotone(ms, MatchesAfterShift, YearDifference11);
    FilterSizeAlike(ms, rep.yearDifferences, YearDifference11, IsEleven);
  }


  // ---- analyze_date_format_pattern ----

  datatype FormatReport = FormatReport(reconstructed: seq<Option<Date>>, matched: nat, total: nat)

  /** The reconstruction raises for this row, as written. */
  predicate ReconstructionFails(r: DiscrepancyRow) {
    r.speciesDate.Some? && ReconstructAsWritten(r.speciesDate.value).None?
  }

  function ReconstructedAsWritten(r: DiscrepancyRow): Option<Date> {
    if r.speciesDate.Some? then ReconstructAsWritten(r.speciesDate.value) else None
  }

  /** The `matches` mask as written: a reconstruction equal to the metadata date. */
  predicate MatchesAsWritten(r: DiscrepancyRow) {
    ReconstructedAsWritten(r).Some? && ReconstructedAsWritten(r) == r.metadataDate
  }

  /**
    `analyze_date_format_pattern` as written: the day of the reconstructed
    date is the species year, so `pd.to_datetime` raises (None) as soon as one
    mismatch has an impossible reconstruction.
   */
  function AnalyzeDateFormatPatternAsWritten(rows: seq<DiscrepancyRow>): (r: Option<FormatReport>)
    ensures r.None? <==> exists x :: x in rows && x.status == DateMismatch && ReconstructionFails(x)
    ensures r.Some? ==>
      var ms := OfStatus(rows, DateMismatch);
      r.value.total == |ms| && r.value.matched <= r.value.total
      && r.value.matched == |Filter(ms, MatchesAsWritten)|
      && |r.value.reconstructed| == |ms|
      && forall i :: 0 <= i < |ms| ==> r.value.reconstructed[i] == ReconstructedAsWritten(ms[i])
  {
    var ms := OfStatus(rows, DateMismatch);
    if exists x :: x in ms && ReconstructionFails(x) then None
    else
      Some(FormatReport(
        seq(|ms|, i requires 0 <= i < |ms| => ReconstructedAsWritten(ms[i])),
        |Filter(ms, MatchesAsWritten)|,
        |ms|))
  }

  /** As written, a single mismatch whose species date is after year 31 (every
      date of the survey era) makes the analysis raise. */
  lemma DateFormatAsWrittenRaises(rows: seq<DiscrepancyRow>, x: DiscrepancyRow)
    requires x in rows && x.status == DateMismatch
    requires x.speciesDate.Some? && x.speciesDate.value.year > 31
    ensures AnalyzeDateFormatPatternAsWritten(rows).None?
  {
    ReconstructAsWrittenRejectsRealYears(x.speciesDate.value);
  }

  function Reconstructed(r: DiscrepancyRow): Option<Date> {
    if r.speciesDate.Some? then Reconstruct(r.speciesDate.value) else None
  }

  /** The `matches` mask as intended: a real reconstructed day equal to the metadata date. */
  predicate ReconstructionMatches(r: DiscrepancyRow) {
    Reconstructed(r).Some? && Reconstructed(r) == r.metadataDate
  }

  /** The species date is the DD-MM-YY misreading of the 21st-century metadata date. */
  predicate IsMisreading(r: DiscrepancyRow) {
    r.speciesDate.Some? && r.metadataDate.Some?
    && 2000 <= r.metadataDate.value.year <= 2099
    && r.speciesDate.value == Misread(r.metadataDate.value)
  }

  /**
    The reconstruction as intended: the day is the species year less 2000,
    and a reconstruction that names no real day counts as no match.
   */
  function AnalyzeDateFormatPattern(rows: seq<DiscrepancyRow>): (r: FormatReport)
    ensures var ms := OfStatus(rows, DateMismatch);
      r.total == |ms| && r.matched <= r.total
      && r.matched == |Filter(ms, ReconstructionMatches)|
      && |r.reconstructed| == |ms|
      && (forall i :: 0 <= i < |ms| ==> r.reconstructed[i] == Reconstructed(ms[i]))
      && |Filter(ms, IsMisreading)| <= r.matched
  {
    var ms := OfStatus(rows, DateMismatch);
    forall i | 0 <= i < |ms| && IsMisreading(ms[i]) ensures ReconstructionMatches(ms[i]) {
      ReconstructUndoesMisread(ms[i].metadataDate.value);
    }
    FilterMonotone(ms, IsMisreading, ReconstructionMatches);
    FormatReport(
      seq(|ms|, i requires 0 <= i < |ms| => Reconstructed(ms[i])),
      |Filter(ms, ReconstructionMatches)|,
      |ms|)
  }

  // ---- main ----

  datatype Investigation = Investigation(
    discrepancies: seq<DiscrepancyRow>, report: DiscrepancyReport,
    yearPattern: YearOffsetReport, surveyPatterns: SurveyIdPatterns)

  /** `main`: the comparison, the year offset test and the survey_ID patterns
      (the date-format test is not called). None when the year shift raises. */
  function InvestigateFurther(species: seq<SpeciesRow>, metadata: seq<SurveyDate>): (r: Option<Investigation>)
    ensures var d := CompareDatesBetweenTables(species, metadata);
      r.None? <==> AnalyzeYearOffsetPattern(d).None?
    ensures r.Some? ==> (r.value.discrepancies == CompareDatesBetweenTables(species, metadata)
      && r.value.report == AnalyzeDiscrepancies(r.value.discrepancies)
      && Some(r.value.yearPattern) == AnalyzeYearOffsetPattern(r.value.discrepancies)
      && r.value.surveyPatterns == AnalyzeSurveyIdPatterns(species, metadata))
  {
    var d := CompareDatesBetweenTables(species, metadata);
    var y := AnalyzeYearOffsetPattern(d);
    if y.None? then None
    else Some(Investigation(d, AnalyzeDiscrepancies(d), y.value, AnalyzeSurveyIdPatterns(species, metadata)))
  }
}
