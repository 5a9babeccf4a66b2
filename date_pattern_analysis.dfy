/**
  The cross-table date comparison of the gridVeg pattern analysis: the
  species table (DISTINCT survey, date, year) LEFT JOINed on survey_ID to the
  survey metadata, point-intercept and ground-cover dates; a CASE status
  with the precedence Future Date, then Date Mismatch, then Match; a window
  count per status; ORDER BY status rank and species date; and the status
  partition of the report.
 */
module DatePatternAnalysis {
  import opened Relational
  import opened Dates
  import opened Sorting
  import opened Records

  datatype Status = FutureDate | DateMismatch | Match

  /** The CASE for `status`. A NULL metadata date never differs, so it falls
      through to Match. */
  function StatusOf(speciesDate: Option<Date>, metadataDate: Option<Date>): Status {
    if SqlAfter(speciesDate, Cutoff) then FutureDate
    else if SqlDiffer(speciesDate, metadataDate) then DateMismatch
    else Match
  }

  /** The separate CASE of the ORDER BY clause: 1, 2 or 3. */
  function OrderRank(speciesDate: Option<Date>, metadataDate: Option<Date>): int {
    if SqlAfter(speciesDate, Cutoff) then 1
    else if SqlDiffer(speciesDate, metadataDate) then 2
    else 3
  }

  function RankOf(s: Status): int {
    match s
    case FutureDate => 1
    case DateMismatch => 2
    case Match => 3
  }

  /** The three CASE expressions of the query agree: the ORDER BY rank is the
      status's position in the precedence. */
  lemma OrderRankFollowsStatus(speciesDate: Option<Date>, metadataDate: Option<Date>)
    ensures OrderRank(speciesDate, metadataDate) == RankOf(StatusOf(speciesDate, metadataDate))
  {
  }

  /** Precedence: a date past the cutoff is Future Date even when it also
      differs from the metadata date. */
  lemma FutureDateWins(speciesDate: Date, metadataDate: Option<Date>)
    requires Before(Cutoff, speciesDate)
    ensures StatusOf(Some(speciesDate), metadataDate) == FutureDate
  {
  }

  /** Without a metadata date (no metadata row, or a NULL date) a date on or
      before the cutoff is Match. */
  lemma MissingMetadataIsMatch(speciesDate: Option<Date>)
    requires !SqlAfter(speciesDate, Cutoff)
    ensures StatusOf(speciesDate, None) == Match
  {
  }

  /** Match means: not past the cutoff, and no two non-NULL dates that differ. */
  lemma {:induction false} MatchMeaning(speciesDate: Option<Date>, metadataDate: Option<Date>)
    ensures StatusOf(speciesDate, metadataDate) == Match <==>
      !SqlAfter(speciesDate, Cutoff) && (speciesDate.None? || metadataDate.None? || speciesDate == metadataDate)
  {
  }

  /** `SELECT DISTINCT survey_ID, date, year` of the species table. */
  datatype SpeciesKey = SpeciesKey(surveyId: string, date: Option<Date>, year: Option<int>)

  function SpeciesKeys(species: seq<SpeciesRow>): seq<SpeciesKey> {
    Distinct(seq(|species|, i requires 0 <= i < |species| => SpeciesKey(species[i].surveyId, species[i].date, species[i].year)))
  }

  /** One row of the joined FROM clause, before the CASE is applied. */
  datatype JoinedRow = JoinedRow(
    surveyId: string,
    speciesDate: Option<Date>,
    metadataDate: Option<Date>,
    interceptDate: Option<Date>,
    groundDate: Option<Date>)

  /** The joined ground-cover rows for one species key, metadata date and
      intercept date. */
  function GroundRows(a: SpeciesKey, m: Option<Date>, p: Option<Date>, gs: seq<Option<Date>>): (r: seq<JoinedRow>)
    ensures |r| == |gs|
    ensures forall k :: 0 <= k < |r| ==> r[k] == JoinedRow(a.surveyId, a.date, m, p, gs[k])
  {
    seq(|gs|, k requires 0 <= k < |gs| => JoinedRow(a.surveyId, a.date, m, p, gs[k]))
  }

  function InterceptRows(a: SpeciesKey, m: Option<Date>, ps: seq<Option<Date>>, gs: seq<Option<Date>>): seq<JoinedRow> {
    FlatMap(ps, (p: Option<Date>) => GroundRows(a, m, p, gs))
  }

  /** The joined rows for one species key: every combination of the matching
      metadata, intercept and ground dates (a NULL for a side with no match). */
  function JoinFor(a: SpeciesKey, ms: seq<Option<Date>>, ps: seq<Option<Date>>, gs: seq<Option<Date>>): seq<JoinedRow> {
    FlatMap(ms, (m: Option<Date>) => InterceptRows(a, m, ps, gs))
  }

  lemma {:induction false} JoinForSize(a: SpeciesKey, ms: seq<Option<Date>>, ps: seq<Option<Date>>, gs: seq<Option<Date>>)
    ensures |JoinFor(a, ms, ps, gs)| == |ms| * (|ps| * |gs|)
  {
    forall i | 0 <= i < |ms| ensures |InterceptRows(a, ms[i], ps, gs)| == |ps| * |gs| {
      FlatMapConstantLength(ps, (p: Option<Date>) => GroundRows(a, ms[i], p, gs), |gs|);
    }
    FlatMapConstantLength(ms, (m: Option<Date>) => InterceptRows(a, m, ps, gs), |ps| * |gs|);
  }

  /** The FROM clause: DISTINCT species keys LEFT JOIN the DISTINCT (survey, date)
      pairs of each of the three other tables. */
  function Joined(species: seq<SpeciesRow>, metadata: seq<SurveyDate>, intercept: seq<SurveyDate>, ground: seq<SurveyDate>): seq<JoinedRow> {
    var m, p, g := Distinct(metadata), Distinct(intercept), Distinct(ground);
    FlatMap(SpeciesKeys(species), (a: SpeciesKey) =>
      JoinFor(a, LeftJoinDates(m, a.surveyId), LeftJoinDates(p, a.surveyId), LeftJoinDates(g, a.surveyId)))
  }

  /** How many joined rows a species key yields: the product, over the three
      joined tables, of its number of distinct matching rows (at least one). */
  lemma {:induction false} JoinedRowsPerKey(a: SpeciesKey, metadata: seq<SurveyDate>, intercept: seq<SurveyDate>, ground: seq<SurveyDate>)
    ensures var m, p, g := RowsFor(Distinct(metadata), a.surveyId), RowsFor(Distinct(intercept), a.surveyId), RowsFor(Distinct(ground), a.surveyId);
      |JoinFor(a, LeftJoinDates(Distinct(metadata), a.surveyId), LeftJoinDates(Distinct(intercept), a.surveyId), LeftJoinDates(Distinct(ground), a.surveyId))|
      == (if m == [] then 1 else |m|) * ((if p == [] then 1 else |p|) * (if g == [] then 1 else |g|))
  {
    JoinForSize(a, LeftJoinDates(Distinct(metadata), a.surveyId), LeftJoinDates(Distinct(intercept), a.surveyId), LeftJoinDates(Distinct(ground), a.surveyId));
  }

  /** One row of the query result. */
  datatype ComparisonRow = ComparisonRow(
    surveyId: string,
    speciesDate: Option<Date>,
    metadataDate: Option<Date>,
    interceptDate: Option<Date>,
    groundDate: Option<Date>,
    status: Status,
    categoryCount: nat)

  function Unannotated(r: ComparisonRow): JoinedRow {
    JoinedRow(r.surveyId, r.speciesDate, r.metadataDate, r.interceptDate, r.groundDate)
  }

  function OrderKey(j: JoinedRow): SortKey {
    SortKey(OrderRank(j.speciesDate, j.metadataDate), j.speciesDate)
  }

  /** The result rows with status `s`, in result order. */
  function WithStatus(rows: seq<ComparisonRow>, s: Status): (r: seq<ComparisonRow>)
    ensures forall x :: x in r <==> x in rows && x.status == s
  {
    Filter(rows, (x: ComparisonRow) => x.status == s)
  }

  /** Number of result rows with status `s`. */
  function CountStatus(rows: seq<ComparisonRow>, s: Status): nat {
    |WithStatus(rows, s)|
  }


  /** The CASE applied to one joined row; the window count is filled in later. */
  function Classify(j: JoinedRow): (r: ComparisonRow)
    ensures Unannotated(r) == j
  {
    ComparisonRow(j.surveyId, j.speciesDate, j.metadataDate, j.interceptDate, j.groundDate, StatusOf(j.speciesDate, j.metadataDate), 0)
  }

  /** `COUNT(*) OVER (PARTITION BY status)`: each row carries the size of its
      status group; nothing else changes. */
  function Annotate(rows: seq<ComparisonRow>): (out: seq<ComparisonRow>)
    ensures |out| == |rows|
    ensures forall i :: 0 <= i < |out| ==> out[i] == rows[i].(categoryCount := out[i].categoryCount)
    ensures forall i :: 0 <= i < |out| ==> out[i].categoryCount == CountStatus(out, out[i].status)
  {
    var out := seq(|rows|, i requires 0 <= i < |rows| => rows[i].(categoryCount := CountStatus(rows, rows[i].status)));
    forall i | 0 <= i < |out| ensures out[i].categoryCount == CountStatus(out, out[i].status) {
      var s := out[i].status;
      FilterSizeAlike(rows, out, (r: ComparisonRow) => r.status == s, (r: ComparisonRow) => r.status == s);
    }
    out
  }

  function Strip(rows: seq<ComparisonRow>): (r: seq<JoinedRow>)
    ensures |r| == |rows| && forall i :: 0 <= i < |r| ==> r[i] == Unannotated(rows[i])
  {
    seq(|rows|, i requires 0 <= i < |rows| => Unannotated(rows[i]))
  }

  /** `compare_dates_across_tables`: the joined rows with their status and
      window count, in ORDER BY order. */
  function CompareDatesAcrossTables(species: seq<SpeciesRow>, metadata: seq<SurveyDate>, intercept: seq<SurveyDate>, ground: seq<SurveyDate>): (out: seq<ComparisonRow>)
    ensures multiset(Strip(out)) == multiset(Joined(species, metadata, intercept, ground))
    ensures forall i :: 0 <= i < |out| ==> out[i].status == StatusOf(out[i].speciesDate, out[i].metadataDate)
    ensures forall i :: 0 <= i < |out| ==> out[i].categoryCount == CountStatus(out, out[i].status)
  {
    var sorted := SortBy(Joined(species, metadata, intercept, ground), OrderKey);
    var out := Annotate(seq(|sorted|, i requires 0 <= i < |sorted| => Classify(sorted[i])));
    assert Strip(out) == sorted;
    out
  }

  /** The report is in ORDER BY order: Future Date rows, then Date Mismatch,
      then Match, and by species date (NULLs first) within each status. */
  lemma {:induction false} CompareDatesOrdered(species: seq<SpeciesRow>, metadata: seq<SurveyDate>, intercept: seq<SurveyDate>, ground: seq<SurveyDate>)
    ensures var out := CompareDatesAcrossTables(species, metadata, intercept, ground);
      forall i, j :: 0 <= i < j < |out| ==>
        RankOf(out[i].status) <= RankOf(out[j].status) &&
        (out[i].status == out[j].status ==> DateAtMost(out[i].speciesDate, out[j].speciesDate))
  {
    var joined := Joined(species, metadata, intercept, ground);
    var sorted := SortBy(joined, OrderKey);
    SortBySorted(joined, OrderKey);
    var out := CompareDatesAcrossTables(species, metadata, intercept, ground);
    assert Strip(out) == sorted;
    forall i, j | 0 <= i < j < |out|
      ensures RankOf(out[i].status) <= RankOf(out[j].status) &&
        (out[i].status == out[j].status ==> DateAtMost(out[i].speciesDate, out[j].speciesDate))
    {
      assert sorted[i] == Unannotated(out[i]) && sorted[j] == Unannotated(out[j]);
      assert KeyAtMost(OrderKey(sorted[i]), OrderKey(sorted[j]));
      OrderRankFollowsStatus(sorted[i].speciesDate, sorted[i].metadataDate);
      OrderRankFollowsStatus(sorted[j].speciesDate, sorted[j].metadataDate);
    }
  }

  /** The report of `analyze_results`: the count behind each printed line and
      the first five Future Date and Date Mismatch rows. */
  datatype Summary = Summary(
    total: nat, future: nat, mismatches: nat, matches: nat,
    futureSample: seq<ComparisonRow>, mismatchSample: seq<ComparisonRow>)

  /**
    `analyze_results`. The percentages divide by the row count with Python
    integers, so an empty result raises ZeroDivisionError: None.
   */
  function AnalyzeResults(rows: seq<ComparisonRow>): (r: Option<Summary>)
    ensures r.None? <==> rows == []
    ensures r.Some? ==> (r.value.total == |rows|
      && r.value.future == CountStatus(rows, FutureDate)
      && r.value.mismatches == CountStatus(rows, DateMismatch)
      && r.value.matches == CountStatus(rows, Match))
    ensures r.Some? ==> r.value.future + r.value.mismatches + r.value.matches == r.value.total
    ensures r.Some? ==> (r.value.futureSample == Take(WithStatus(rows, FutureDate), 5)
      && r.value.mismatchSample == Take(WithStatus(rows, DateMismatch), 5))
    ensures r.Some? ==> |r.value.futureSample| <= 5 && forall x :: x in r.value.futureSample ==> x in rows && x.status == FutureDate
    ensures r.Some? ==> |r.value.mismatchSample| <= 5 && forall x :: x in r.value.mismatchSample ==> x in rows && x.status == DateMismatch
  {
    if rows == [] then None
    else
      var future := WithStatus(rows, FutureDate);
      var mismatches := WithStatus(rows, DateMismatch);
      ThreeWayPartition(rows,
        (x: ComparisonRow) => x.status == FutureDate,
        (x: ComparisonRow) => x.status == DateMismatch,
        (x: ComparisonRow) => x.status == Match);
      Some(Summary(|rows|, |future|, |mismatches|, CountStatus(rows, Match), Take(future, 5), Take(mismatches, 5)))
  }
}
