/**
  Rows of the gridVeg tables the date investigation and repair read.
  Every column is nullable in the warehouse schemas; survey_ID is kept
  non-NULL here (a NULL key never joins and is not modelled).
 */
module Records {
  import opened Relational
  import opened Dates

  /** A row of gridVeg_additional_species, the table whose dates are corrupted. */
  datatype SpeciesRow = SpeciesRow(
    surveyId: string,
    gridPoint: Option<int>,
    date: Option<Date>,
    year: Option<int>,
    species: Option<int>)

  /** The (survey_ID, date) columns of gridVeg_survey_metadata, the trusted
      reference, and of the intercept and ground-cover tables. */
  datatype SurveyDate = SurveyDate(surveyId: string, date: Option<Date>)

  /** The (survey_ID, date) projection of the species table. */
  function SpeciesDates(species: seq<SpeciesRow>): (r: seq<SurveyDate>)
    ensures |r| == |species|
    ensures forall i :: 0 <= i < |r| ==> r[i] == SurveyDate(species[i].surveyId, species[i].date)
  {
    seq(|species|, i requires 0 <= i < |species| => SurveyDate(species[i].surveyId, species[i].date))
  }

  /** The rows of `t` for survey `id`, in table order (`ON a.survey_ID = t.survey_ID`). */
  function RowsFor(t: seq<SurveyDate>, id: string): (r: seq<SurveyDate>)
    ensures forall i :: 0 <= i < |r| ==> r[i].surveyId == id
    ensures forall x :: x in r <==> x in t && x.surveyId == id
  {
    Filter(t, SurveyIs(id))
  }

  function SurveyIs(id: string): SurveyDate -> bool {
    (x: SurveyDate) => x.surveyId == id
  }

  /** No two rows share a survey_ID: the table is a function of survey_ID. */
  predicate UniqueSurveys(t: seq<SurveyDate>) {
    forall i, j :: 0 <= i < j < |t| ==> t[i].surveyId != t[j].surveyId
  }

  lemma {:induction false} RowsForUnique(t: seq<SurveyDate>, id: string)
    requires UniqueSurveys(t)
    ensures |RowsFor(t, id)| <= 1
  {
    if t != [] {
      var tail := t[1..];
      assert UniqueSurveys(tail) by {
        forall i, j | 0 <= i < j < |tail| ensures tail[i].surveyId != tail[j].surveyId {
          assert tail[i] == t[i + 1] && tail[j] == t[j + 1];
        }
      }
      if t[0].surveyId == id {
        forall i | 0 <= i < |tail| ensures !SurveyIs(id)(tail[i]) {
          assert tail[i] == t[i + 1];
        }
        FilterNone(tail, SurveyIs(id));
      } else {
        RowsForUnique(tail, id);
      }
    }
  }

  predicate HasSurvey(t: seq<SurveyDate>, id: string) {
    exists i :: 0 <= i < |t| && t[i].surveyId == id
  }

  lemma {:induction false} HasSurveyIffRowsFor(t: seq<SurveyDate>, id: string)
    ensures HasSurvey(t, id) <==> RowsFor(t, id) != []
  {
    if HasSurvey(t, id) {
      var i :| 0 <= i < |t| && t[i].surveyId == id;
      assert t[i] in RowsFor(t, id);
    }
    if RowsFor(t, id) != [] {
      var x := RowsFor(t, id)[0];
      assert x in t;
      var i :| 0 <= i < |t| && t[i] == x;
    }
  }

  /**
    The right-hand dates a LEFT JOIN on survey_ID pairs with a row of survey
    `id`: one per matching row, or a single NULL when nothing matches.
   */
  function LeftJoinDates(t: seq<SurveyDate>, id: string): (r: seq<Option<Date>>)
    ensures |r| == if RowsFor(t, id) == [] then 1 else |RowsFor(t, id)|
    ensures RowsFor(t, id) == [] ==> r == [None]
    ensures RowsFor(t, id) != [] ==> forall i :: 0 <= i < |r| ==> r[i] == RowsFor(t, id)[i].date
  {
    var m := RowsFor(t, id);
    if m == [] then [None] else seq(|m|, i requires 0 <= i < |m| => m[i].date)
  }
}
