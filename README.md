# gridVeg date repair and ingestion, modelled in Dafny

A model of the scripts behind the MPG Ranch data warehouse's vegetation
grid data. These scripts cover three kinds of work:

- They find and repair dates that were corrupted in the
  `gridVeg_additional_species` table. A DD-MM-YY date was read as
  YYYY-MM-DD, so dates landed after 2024.
- The trusted reference is `gridVeg_survey_metadata`, joined on `survey_ID`.
- Other scripts upload the point-intercept and survey-metadata tables. They
  validate, back up to Cloud Storage and then append.

The model has one module per concern:

- `Relational`: `Option`, filters, `DISTINCT`, `GROUP BY` counts and joins
  over sequences.
- `Dates`: BigQuery DATE values, SQL comparisons that are never true on
  NULL, pandas `DateOffset(years=n)`, the `%Y-%m-%d` and `%d-%m-%y`
  renderings, and the DD-MM-YY hypothesis.
- `Sorting`: a stable `ORDER BY` with NULLs first.
- `Records`: the rows of the species and metadata tables.
- `Frames`: a small pandas frame model. It covers column renames, column
  selection, assignment, `replace`, `to_numeric(errors="coerce")`, the
  `Int64` cast, `.str[:8]` and `to_dict("records")`.
- `Uploads`: the backup path, the steps a run takes, and the transect-point
  rule.

The other modules each follow one script:

- `DatePatternAnalysis`: `src/data/analyze_gridveg_dates_pattern.py`.
  Its CASE precedence is Future Date, then Date Mismatch, then Match.
- `Discrepancy`: `src/data/investigate_further_gridveg_dates.py` and its
  identical copy `src/investigate_further_gridveg_dates.py`. Its CASE
  precedence is Missing in Metadata, then Date Mismatch, then Match.
- `DateCoverage`: `src/data/investigate_gridveg_dates.py`.
- `DateCorrection`: the warehouse repair, `src/data/fix_gridveg_dates.py`.
  - Its `DateFixer` class holds the table as an array and a phase.
  - The UPDATE is a loop over the array.
  - The script sends the UPDATE with its table placeholders unformatted,
    so BigQuery rejects it. `FixDatesAsWritten` and `RunAsWritten` model
    the run as written. `FixDates` and `Run` model it with the statement
    formatted like the preview (see "## Findings").
  - The cutoff `'2024-12-31'` and today's date `CURRENT_DATE()` are
    separate values.
- `LocalDateFix`: the repair of a downloaded frame,
  `src/fix_gridveg_dates.py`.
- `PointInterceptsCli`: the flag-driven uploader,
  `src/point_intercepts_update.py`.
- `PointInterceptsPrompted`: the prompt-driven uploader,
  `src/data/point_intercepts_update.py`.
- `SurveyMetadataUpdate`: `src/data/survey_metadata_update.py`.

Things taken from outside the model:

- The BigQuery and Cloud Storage services become values:
  - the table is a sequence or array of rows;
  - a backup verification is the number of objects the listing returns;
  - a backup or load job is a success flag.
- The clock becomes a timestamp string and a `today` date.
- The operator's answers and the command-line flags are booleans.

## Model

| member | source | states |
|---|---|---|
| Relational.Filter | src/data/fix_gridveg_dates.py:121-122 | A `WHERE` clause or boolean mask: the rows kept are exactly the input rows that satisfy the condition, and there are never more of them. |
| Relational.GroupBy | src/data/fix_gridveg_dates.py:114-124 | `GROUP BY` with `COUNT(*)`: one group per distinct value, no value grouped twice, each with the number of times the value occurs. SQL promises no group order, and the contract states none. |
| Relational.Take | src/data/investigate_gridveg_dates.py:80 | `LIMIT n` and `.head(n)`: the first n rows, or all of them when there are fewer. |
| Dates.DaysInMonth | src/data/investigate_further_gridveg_dates.py:208-214 | Month lengths of the Gregorian calendar: 28 to 31 days, and February has 29 exactly in leap years. |
| Dates.PastCutoffIffYearAfter2024 | src/data/investigate_gridveg_dates.py:40-44 | `date > '2024-12-31'` and `date.year > 2024` select the same dates, so the affected-date filter and the SQL cutoff agree. |
| Dates.YearOf | src/data/fix_gridveg_dates.py:172 | `EXTRACT(YEAR FROM d)` is NULL exactly for a NULL date and otherwise the date's year. |
| Dates.AddYears | src/data/investigate_further_gridveg_dates.py:185 | `DateOffset(years=n)` keeps the month. It keeps the day, except that 29 February in a common target year becomes 28 February. It fails exactly when the year leaves the date range. |
| Dates.AddYearsUndo | src/data/investigate_further_gridveg_dates.py:185-189 | Shifting by n years and then by -n gives the original date back, unless 29 February was clamped. |
| Dates.LeapDayShiftIsNotReversible | src/data/investigate_further_gridveg_dates.py:185-189 | The clamp loses information: 2024-02-29 plus 11 years is 2035-02-28, and that minus 11 years is 2024-02-28. |
| Dates.DigitChar | src/data/investigate_gridveg_dates.py:57-58 | A digit value renders as an ASCII digit. |
| Dates.DigitValue | src/data/investigate_gridveg_dates.py:73-74 | An ASCII digit reads as a value from 0 to 9. |
| Dates.Pad2 | src/data/investigate_gridveg_dates.py:57 | Two-digit zero padding: two digits that read back as the number. |
| Dates.Pad4 | src/data/investigate_gridveg_dates.py:58 | Four-digit zero padding: four digits that read back as the number. |
| Dates.FormatIso | src/data/investigate_gridveg_dates.py:58 | `FORMAT_DATE('%Y-%m-%d', d)` and `strftime("%Y-%m-%d")` give ten characters with dashes at positions 4 and 7. |
| Dates.FormatDdMmYy | src/data/investigate_gridveg_dates.py:57 | `FORMAT_DATE('%d-%m-%y', d)` gives eight characters with dashes at positions 2 and 5. |
| Dates.ParseIso | src/point_intercepts_update.py:302-303 | Reading `YYYY-MM-DD` succeeds only on text of that shape that names a real day. |
| Dates.ParseFormatIso | src/point_intercepts_update.py:302-303 | Rendering a date as `YYYY-MM-DD` loses nothing: parsing the text gives back the date. |
| Dates.Misread | src/data/investigate_gridveg_dates.py:72-77 | The hypothesised corruption: the day becomes the two-digit year after 2000, and the two-digit year becomes the day. |
| Dates.ReconstructAsWritten | src/data/investigate_further_gridveg_dates.py:203-214 | The reconstruction as written: year is day + 2000, month is unchanged, and day is the full year. It fails exactly when that is not a real day. |
| Dates.ReconstructAsWrittenRejectsRealYears | src/data/investigate_further_gridveg_dates.py:203-214 | As written, the reconstruction fails for every date after year 31. Every corrupted date is such a date. |
| Dates.Reconstruct | src/data/investigate_further_gridveg_dates.py:203-214 | The intended reconstruction: year is day + 2000, month is unchanged, and day is year - 2000. It fails exactly when that is not a real day. |
| Dates.ReconstructUndoesMisread | src/data/investigate_further_gridveg_dates.py:203-214 | The intended reconstruction undoes the corruption for every 21st-century date whose misreading is a real day. |
| Dates.ReconstructionConfirmsPattern | src/data/investigate_gridveg_dates.py:72-77 | The SQL pattern check (correct day = incorrect year - 2000) accepts every reconstruction and every date corrupted as hypothesised. |
| Records.SpeciesDates | src/data/investigate_gridveg_dates.py:101-107 | The (survey_ID, date) projection of the species table, row by row. |
| Records.RowsFor | src/data/investigate_gridveg_dates.py:113-116 | `ON a.survey_ID = m.survey_ID`: exactly the rows of the table with that survey_ID. |
| Records.RowsForUnique | src/fix_gridveg_dates.py:110-113 | If no survey_ID repeats, at most one row matches. |
| Records.HasSurveyIffRowsFor | src/data/investigate_further_gridveg_dates.py:42 | `m.survey_ID IS NULL` after the LEFT JOIN holds exactly when no row has that survey_ID. |
| Records.LeftJoinDates | src/data/investigate_gridveg_dates.py:61-63 | LEFT JOIN: one right-hand date per matching row, or a single NULL when nothing matches. |
| Sorting.SortBy | src/data/analyze_gridveg_dates_pattern.py:84-90 | ORDER BY returns a permutation of its input. |
| Sorting.SortBySorted | src/data/analyze_gridveg_dates_pattern.py:84-90 | ORDER BY output is ordered by rank, then by date with NULLs first. |
| Sorting.InsertSorted | src/data/analyze_gridveg_dates_pattern.py:84-90 | Inserting into an ordered sequence keeps it ordered. |
| Sorting.TakeSortedLowest | src/data/investigate_gridveg_dates.py:79-80 | `LIMIT n` of an ordered result is still ordered, and no row left out sorts before a row kept. |
| DatePatternAnalysis.OrderRankFollowsStatus | src/data/analyze_gridveg_dates_pattern.py:68-90 | The ORDER BY CASE gives 1, 2 or 3 as the status is Future Date, Date Mismatch or Match, so the three CASE expressions agree. |
| DatePatternAnalysis.FutureDateWins | src/data/analyze_gridveg_dates_pattern.py:68-72 | A species date after 2024-12-31 is Future Date, even when it also differs from the metadata date. |
| DatePatternAnalysis.MissingMetadataIsMatch | src/data/analyze_gridveg_dates_pattern.py:68-72 | A date on or before the cutoff with no metadata date is Match, because `!=` against NULL is not true. |
| DatePatternAnalysis.MatchMeaning | src/data/analyze_gridveg_dates_pattern.py:68-72 | Match holds exactly when the date is not past the cutoff and no two non-NULL dates differ. |
| DatePatternAnalysis.StatusOf | src/data/analyze_gridveg_dates_pattern.py:68-72 | The CASE: Future Date after the cutoff, then Date Mismatch when both dates are present and differ, and Match otherwise. No ensures; `FutureDateWins`, `MissingMetadataIsMatch` and `MatchMeaning` state its meaning. |
| DatePatternAnalysis.GroundRows | src/data/analyze_gridveg_dates_pattern.py:83 | The ground-cover LEFT JOIN gives one joined row per ground date. |
| DatePatternAnalysis.JoinForSize | src/data/analyze_gridveg_dates_pattern.py:80-83 | The three LEFT JOINs give one row per combination of metadata, intercept and ground dates. |
| DatePatternAnalysis.JoinedRowsPerKey | src/data/analyze_gridveg_dates_pattern.py:33-61 | Each DISTINCT species key yields the product, over the three joined tables, of its number of distinct matches (at least one each). |
| DatePatternAnalysis.Classify | src/data/analyze_gridveg_dates_pattern.py:62-72 | The CASE adds a status and nothing else changes. |
| DatePatternAnalysis.Annotate | src/data/analyze_gridveg_dates_pattern.py:73-79 | `COUNT(*) OVER (PARTITION BY status)`: every row carries the number of rows with its status, and nothing else changes. |
| DatePatternAnalysis.Strip | src/data/analyze_gridveg_dates_pattern.py:62-67 | Dropping the computed columns gives back the joined rows. |
| DatePatternAnalysis.CompareDatesAcrossTables | src/data/analyze_gridveg_dates_pattern.py:30-93 | The result is a permutation of the joined rows. Each row has the status of the CASE and the size of its status group. |
| DatePatternAnalysis.CompareDatesOrdered | src/data/analyze_gridveg_dates_pattern.py:84-90 | The result lists Future Date rows, then Date Mismatch rows, then Match rows. Within a status, rows are ascending by species date with NULLs first. |
| DatePatternAnalysis.AnalyzeResults | src/data/analyze_gridveg_dates_pattern.py:95-127 | On an empty result, the division by the total raises. Otherwise the three status counts partition the total. Each sample is the first five rows of its status, in result order (`head()`). |
| Discrepancy.AgreesWithPatternAnalysis | src/data/investigate_further_gridveg_dates.py:41-45 | For a date on or before the cutoff, a joined row is a mismatch here exactly when it is one in the pattern analysis, and likewise for Match. A row with no metadata is Missing here and Match there. |
| Discrepancy.StatusOf | src/data/investigate_further_gridveg_dates.py:41-45 | The CASE: Missing in Metadata when no metadata row joined, then Date Mismatch, then Match. No ensures; `AgreesWithPatternAnalysis` and `MissingIffOnlyInSpecies` state its meaning. |
| Discrepancy.SpeciesGroupsTotal | src/data/investigate_further_gridveg_dates.py:15-24 | The `species_record_count` values of the (survey_ID, date) groups add up to the number of species rows. |
| Discrepancy.MatchingGroups | src/data/investigate_further_gridveg_dates.py:52-54 | The metadata groups joined to a survey_ID are exactly those with that survey_ID. |
| Discrepancy.RowsForGroup | src/data/investigate_further_gridveg_dates.py:34-54 | A species group with no metadata group gives one Missing in Metadata row. Otherwise it gives one row per metadata group, with that group's date and count and the CASE status. |
| Discrepancy.JoinGroups | src/data/investigate_further_gridveg_dates.py:15-54 | The grouped LEFT JOIN before ORDER BY: each species group, in order, followed by its rows against the matching metadata groups. No ensures; `JoinGroupsSound`, `JoinGroupsComplete` and `CompareDatesBetweenTables` state what it yields. |
| Discrepancy.MissingMeansNoSurvey | src/investigate_further_gridveg_dates.py:41-45 | No metadata group matches exactly when the metadata has no row with that survey_ID. |
| Discrepancy.JoinGroupsSound | src/data/investigate_further_gridveg_dates.py:15-54 | Every result row names a species (survey_ID, date) group and its true row count. Its status follows the CASE: Missing exactly when the survey has no metadata, otherwise Date Mismatch exactly when the dates differ. |
| Discrepancy.RowsForGroupSound | src/data/investigate_further_gridveg_dates.py:15-54 | Each row one species group contributes to the LEFT JOIN is sound. |
| Discrepancy.JoinGroupsComplete | src/data/investigate_further_gridveg_dates.py:52-54 | Every (survey_ID, date) of the species table appears in the result. |
| Discrepancy.CompareDatesBetweenTables | src/investigate_further_gridveg_dates.py:12-64 | `compare_dates_between_tables`: every row is sound, and every species (survey_ID, date) is represented. The rows are the grouped join's rows, each exactly as often as the join yields it, reordered by species date. |
| Discrepancy.CompareDatesBetweenTablesOrdered | src/data/investigate_further_gridveg_dates.py:55 | The result is ascending by species date, NULLs first. |
| Discrepancy.MonthOf | src/data/investigate_further_gridveg_dates.py:47 | `EXTRACT(MONTH ...)` is NULL for NULL and otherwise the month, from 1 to 12. |
| Discrepancy.DayOf | src/data/investigate_further_gridveg_dates.py:48 | `EXTRACT(DAY ...)` is NULL for NULL and otherwise the day, from 1 to 31. |
| Discrepancy.Minus | src/data/investigate_further_gridveg_dates.py:83-91 | Column subtraction is missing when either side is, and otherwise is the difference. |
| Discrepancy.DiffZeroIffSameDate | src/data/investigate_further_gridveg_dates.py:83-91 | For two present dates, the metadata-minus-species component differences are all zero exactly when the dates are equal. So every Date Mismatch row shows a non-zero difference. |
| Discrepancy.SuspiciousIffDayAbove12 | src/data/investigate_further_gridveg_dates.py:96-99 | A row is suspicious exactly when its species day is above 12. The month test can never fire. |
| Discrepancy.Suspicious | src/data/investigate_further_gridveg_dates.py:96-99 | The mask: the species day or the species month is above 12. No ensures; `SuspiciousIffDayAbove12` states that only the day test can fire. |
| Discrepancy.OfStatus | src/data/investigate_further_gridveg_dates.py:79 | `df[df['status'] == s]`: exactly the rows with that status. |
| Discrepancy.AnalyzeDiscrepancies | src/data/investigate_further_gridveg_dates.py:67-106 | The status counts partition the rows. The differences are taken over the Date Mismatch rows, in order. The suspicious count is the number of Date Mismatch rows with species day or month above 12. The sample is the first five of them, in order. |
| Discrepancy.SurveyIds | src/data/investigate_further_gridveg_dates.py:112-118 | `SELECT DISTINCT survey_ID`: each survey_ID of the table, once. |
| Discrepancy.AnalyzeSurveyIdPatterns | src/investigate_further_gridveg_dates.py:109-139 | "Only in Additional Species" and "Only in Metadata" are the two set differences of the distinct survey_IDs, without repeats. |
| Discrepancy.MissingIffOnlyInSpecies | src/data/investigate_further_gridveg_dates.py:41-45 | A comparison row is Missing in Metadata exactly when its survey_ID is listed as only in the species table. |
| Discrepancy.SoundRowMissingIff | src/data/investigate_further_gridveg_dates.py:41-45 | A sound comparison row is Missing in Metadata exactly when its survey_ID occurs in the species table only. |
| Discrepancy.AnalyzeYearOffsetPattern | src/investigate_further_gridveg_dates.py:171-195 | It uses only the Date Mismatch rows. It counts those whose date plus 11 years equals the metadata date, over the mismatch count. It fails exactly when a shift leaves the date range. |
| Discrepancy.ShiftMatchesHaveDifference11 | src/data/investigate_further_gridveg_dates.py:176-189 | Every row that matches after the shift has a year difference of 11, so the matches are at most the 11s of the histogram. |
| Discrepancy.MatchesAfterShift | src/data/investigate_further_gridveg_dates.py:183-189 | The species date shifted by 11 years equals the metadata date. A NaT never equals. No ensures; `ShiftMatchesHaveDifference11` states its consequence. |
| Discrepancy.AnalyzeDateFormatPatternAsWritten | src/investigate_further_gridveg_dates.py:198-232 | As written: it raises exactly when one mismatch cannot be reconstructed. Otherwise each Date Mismatch row is reconstructed with the full year as the day, and the match count is the number of mismatches whose reconstruction equals the metadata date. |
| Discrepancy.DateFormatAsWrittenRaises | src/data/investigate_further_gridveg_dates.py:203-214 | One Date Mismatch row dated after year 31 makes the analysis as written raise. |
| Discrepancy.ReconstructedAsWritten | src/data/investigate_further_gridveg_dates.py:203-214 | The reconstruction as written, with the species year as the day. No ensures; `AnalyzeDateFormatPatternAsWritten` and `DateFormatAsWrittenRaises` state its effect. |
| Discrepancy.Reconstructed | src/data/investigate_further_gridveg_dates.py:203-214 | The reconstruction as intended, with the species year less 2000 as the day. No ensures; `AnalyzeDateFormatPattern` states its effect. |
| Discrepancy.AnalyzeDateFormatPattern | src/data/investigate_further_gridveg_dates.py:198-232 | As intended: each mismatch is reconstructed with day = year - 2000. The match count is the number of mismatches whose reconstruction is a real date equal to the metadata date, so every genuine misreading is counted. |
| Discrepancy.InvestigateFurther | src/investigate_further_gridveg_dates.py:235-253 | `main` runs the comparison, the year-offset test and the survey_ID patterns, but never the date-format test. It fails exactly when the year shift fails. |
| DateCoverage.DateColumn | src/data/investigate_gridveg_dates.py:23-28 | The date column of the species table, row by row. |
| DateCoverage.AnalyzeDates | src/data/investigate_gridveg_dates.py:20-46 | There is one group per distinct date, with its row count. The affected groups are those after 2024. Their counts add up to the number of species rows dated after 2024. |
| DateCoverage.DateGroupsComplete | src/data/investigate_gridveg_dates.py:23-29 | A (date, count) pair is a group exactly when the date occurs in the table that many times. |
| DateCoverage.AnalyzeDatesOrdered | src/data/investigate_gridveg_dates.py:29 | The groups are in ascending date order, NULL first. |
| DateCoverage.PatternRowsFor | src/data/investigate_gridveg_dates.py:52-65 | A species row after the cutoff gives one pattern row per LEFT JOIN match, or one with a NULL correct date. Any other row gives none. |
| DateCoverage.PatternJoin | src/data/investigate_gridveg_dates.py:52-65 | The CTE: the species rows after the cutoff, each followed by its LEFT JOIN rows. No ensures; `PatternRowsFor` and `PatternJoinSound` state what it yields. |
| DateCoverage.PatternJoinSound | src/data/investigate_gridveg_dates.py:52-77 | Every pattern row is dated after the cutoff and comes from a species row. Its correct date is a LEFT JOIN match. Its two renderings are `%d-%m-%y` and `%Y-%m-%d`. It confirms the pattern exactly when the correct day is the incorrect year - 2000, so a missing date gives Pattern Mismatch. |
| DateCoverage.AnalyzeWithMetadata | src/data/investigate_gridveg_dates.py:49-95 | It fails exactly when some row shown has a NULL correct date, whose `strftime` raises at line 92. Otherwise it returns the pattern query's rows. |
| DateCoverage.PatternQuery | src/data/investigate_gridveg_dates.py:51-83 | At most ten rows, all sound and ascending by incorrect date. No row left out is dated before a row shown. |
| DateCoverage.PrintRows | src/data/investigate_gridveg_dates.py:88-93 | The print loop fails exactly when some row lacks a correct date. Otherwise every row is printed. |
| DateCoverage.SoundRowHasDate | src/data/investigate_gridveg_dates.py:52-65 | A pattern row has a correct date when its survey has metadata rows and none of them has a NULL date. |
| DateCoverage.CompleteMetadataPrints | src/data/investigate_gridveg_dates.py:49-95 | With a dated metadata row for every survey after the cutoff, the analysis returns every row of the query. |
| DateCoverage.UnmatchedRowLacksDate | src/data/investigate_gridveg_dates.py:61-63 | A pattern row whose survey has no metadata row has a NULL correct date. |
| DateCoverage.UnmatchedShownRowRaises | src/data/investigate_gridveg_dates.py:61-92 | One row shown for a survey without metadata makes the analysis fail. |
| DateCoverage.FirstTenByDate | src/data/investigate_gridveg_dates.py:79-80 | The first ten rows by incorrect date are input rows, ascending, and no row left out is dated earlier than one kept. |
| DateCoverage.CoverageRowsFor | src/data/investigate_gridveg_dates.py:113-116 | Each distinct (survey_ID, date) gives one joined row per metadata match, or one NULL row. |
| DateCoverage.CoverageJoin | src/data/investigate_gridveg_dates.py:101-116 | The distinct (survey_ID, date) pairs of the species table, each followed by its LEFT JOIN rows. No ensures; `CoverageRowsFor`, `AnalyzeMetadataCoverage` and `CoverageTotalWithUniqueMetadata` state what it yields. |
| DateCoverage.AnalyzeMetadataCoverage | src/data/investigate_gridveg_dates.py:98-136 | matched + unmatched = total, future without metadata ≤ unmatched, and the total is at least the number of distinct (survey_ID, date) pairs. The coverage is matched over total. |
| DateCoverage.CoverageTotalWithUniqueMetadata | src/data/investigate_gridveg_dates.py:109 | With one metadata row per survey_ID, the total is the number of distinct (survey_ID, date) pairs. |
| DateCorrection.FixKeysFor | src/data/fix_gridveg_dates.py:106-124 | A species row after the cutoff gives one preview key per inner-join match, carrying the survey, both dates and the old year. Any other row gives none. |
| DateCorrection.Preview | src/data/fix_gridveg_dates.py:106-125 | The preview: one group per distinct (survey_ID, incorrect date, correct date, incorrect year) of the INNER JOIN past the cutoff, with its `affected_rows` count. The count comes from `GroupBy`'s contract. |
| DateCorrection.CorrectYear | src/data/fix_gridveg_dates.py:113 | `EXTRACT(YEAR FROM m.date)` of a preview group. |
| DateCorrection.PreviewTotal | src/data/fix_gridveg_dates.py:141 | The sum of `affected_rows` is the number of joined rows. |
| DateCorrection.PreviewGroupSound | src/data/fix_gridveg_dates.py:106-125 | Every preview group counts at least one row, is dated after the cutoff, names a metadata row of its survey, and comes from a species row with that date and year. |
| DateCorrection.UpdatedRow | src/data/fix_gridveg_dates.py:168-176 | As intended, with the statement formatted: a row with a metadata match dated after 2024-12-31 takes the metadata date and its year. Every other row is unchanged, and survey_ID, grid_point and species are always kept. |
| DateCorrection.Targeted | src/data/fix_gridveg_dates.py:174-175 | The UPDATE's `WHERE`: a row dated after 2024-12-31 whose survey_ID has a metadata row. |
| DateCorrection.Ambiguous | src/data/fix_gridveg_dates.py:168-180 | A row past the cutoff that joins several metadata rows. BigQuery refuses an UPDATE in which a target row matches more than one source row. |
| DateCorrection.UpdateResult | src/data/fix_gridveg_dates.py:168-180 | As intended, with the statement formatted: the UPDATE is refused exactly when a targeted row matches several metadata rows. Otherwise every row is updated as `UpdatedRow` says. |
| DateCorrection.UpdateNeverRefusedWithUniqueMetadata | src/data/fix_gridveg_dates.py:168-176 | As intended, with the statement formatted: with one metadata row per survey_ID, the UPDATE always runs. |
| DateCorrection.PreviewTotalIsUpdateCount | src/data/fix_gridveg_dates.py:141 | With one metadata row per survey_ID, the preview total is the number of rows the UPDATE changes. |
| DateCorrection.RemainingFutureRowsLackMetadata | src/data/fix_gridveg_dates.py:168-176 | When no metadata date is past the cutoff, a row is still past it after the UPDATE exactly when it was before and its survey has no metadata. |
| DateCorrection.UpdateIdempotent | src/data/fix_gridveg_dates.py:168-176 | With clean metadata, running the UPDATE a second time changes nothing. |
| DateCorrection.UpdateFixesYears | src/data/fix_gridveg_dates.py:168-198 | Every updated row's year agrees with its date, so the year check finds no more mismatches than before. |
| DateCorrection.BackupUriUnderPrefix | src/data/fix_gridveg_dates.py:50-53 | The verification lists exactly the prefix the extraction writes under: `gs://{bucket}/` + that prefix + `*.csv`. |
| DateCorrection.Validation | src/data/fix_gridveg_dates.py:84-96 | The two checks pass exactly when no date is after CURRENT_DATE() and no year differs from its date's year. Otherwise the run aborts. |
| DateCorrection.DryRunChangesNothing | src/data/fix_gridveg_dates.py:160-162 | A dry run makes no backup and does not change the table. It ends after the preview, or fails on an empty preview. |
| DateCorrection.NoUpdateWithoutBackup | src/data/fix_gridveg_dates.py:46-47 | As intended, with the statement formatted: the table changes only in a live run with a bucket and a non-empty backup listing. It then holds exactly the UPDATE's result, with the backup URI recorded. |
| DateCorrection.ValidationFailureKeepsUpdate | src/data/fix_gridveg_dates.py:183 | As intended, with the statement formatted: a row after CURRENT_DATE() that no metadata row corrects fails the date check after the table has already changed. Nothing rolls the change back. |
| DateCorrection.ExitStatus | src/data/fix_gridveg_dates.py:222-233 | The process exits with status 1 exactly when `fix_dates` raised. |
| DateCorrection.CompletedRunIsClean | src/data/fix_gridveg_dates.py:183-200 | A completed run exits 0 and leaves no date after CURRENT_DATE() and no year out of step with its date. |
| DateCorrection.ValidationPassedClean | src/data/fix_gridveg_dates.py:183-200 | When both checks pass, no row is dated after the day and no year is out of step with its date. |
| DateCorrection.FixDates | src/data/fix_gridveg_dates.py:101-200 | The corrected run, with the UPDATE formatted. A backup URI is recorded exactly when the run gets past the preview, the dry-run stop and the verified backup. Before that point the table is unchanged and the run ends dry or aborted. Past it, an ambiguous match aborts. Otherwise the table is the UPDATE's result and the phase is the verdict of the two checks. |
| DateCorrection.FixDatesAsWritten | src/data/fix_gridveg_dates.py:101-180 | The run as written never changes the table. It aborts with the UPDATE rejected exactly when it gets past the preview, the dry-run stop and the verified backup. Short of that it is the corrected run, and the backup URI always agrees with it. |
| DateCorrection.AsWrittenOnlyDryRunSucceeds | src/data/fix_gridveg_dates.py:160-233 | As written, the process exits 0 exactly on a dry run with a non-empty preview, and no run completes. A live run that reaches the UPDATE has already written the backup. |
| DateCorrection.CorrectedRunDiffersOnlyAtUpdate | src/data/fix_gridveg_dates.py:165-180 | Where the corrected run and the run as written differ, the run reached the UPDATE. As written it is rejected. Corrected, it is refused on an ambiguous match or leaves the UPDATE's result. |
| DateCorrection.DateFixer.constructor | src/data/fix_gridveg_dates.py:101-103 | The table array holds the given rows, in the Idle phase with no preview and no backup. |
| DateCorrection.DateFixer.GeneratePreview | src/data/fix_gridveg_dates.py:106-148 | The preview is the grouped inner join. An empty preview aborts, because `.iloc[0]` raises. |
| DateCorrection.DateFixer.CreateBackup | src/data/fix_gridveg_dates.py:36-81 | The backup succeeds exactly when a bucket is named and the listing is non-empty, and then returns the URI. Otherwise the phase records which check failed. |
| DateCorrection.DateFixer.FindAmbiguous | src/data/fix_gridveg_dates.py:168-176 | The loop reports exactly whether some targeted row matches several metadata rows. |
| DateCorrection.DateFixer.ApplyUpdate | src/data/fix_gridveg_dates.py:168-180 | As intended, with the statement formatted: after the in-place loop the array is the UPDATE's result, or it is unchanged and the run aborts when the UPDATE is refused. |
| DateCorrection.DateFixer.CountAfter | src/data/fix_gridveg_dates.py:84-93 | The count of rows dated after `today`. |
| DateCorrection.DateFixer.CountYearMismatches | src/data/fix_gridveg_dates.py:186-194 | The count of rows whose year differs from their date's year. |
| DateCorrection.DateFixer.Validate | src/data/fix_gridveg_dates.py:183-198 | The phase becomes the verdict of the two checks on the updated array. |
| DateCorrection.DateFixer.PrepareUpdate | src/data/fix_gridveg_dates.py:105-165 | The preview, the dry-run stop and the backup. The phase is BackedUp, with the URI recorded, exactly when the run reaches the UPDATE. Otherwise the phase is the corrected run's, with no backup. |
| DateCorrection.DateFixer.SendUnformattedUpdate | src/data/fix_gridveg_dates.py:168-180 | The UPDATE as sent, with its placeholders unformatted: the run aborts with the UPDATE rejected. The table is not in the method's `modifies` clause. |
| DateCorrection.DateFixer.RunAsWritten | src/data/fix_gridveg_dates.py:101-233 | The script's run: phase and backup URI as `FixDatesAsWritten` says, and the array unchanged. The exit status is 0 exactly on a dry run with a non-empty preview. |
| DateCorrection.DateFixer.Run | src/data/fix_gridveg_dates.py:101-233 | As intended, with the UPDATE formatted: the whole run leaves the phase, the array and the backup URI as the specification function `FixDates` says. The preview is the grouped join of the original rows. Its exit status follows the phase. |
| LocalDateFix.MappedDate | src/fix_gridveg_dates.py:110-113 | `map` through metadata indexed by survey_ID gives NaT for an unknown survey. With unique survey_IDs it gives that survey's metadata date. |
| LocalDateFix.FixDatesAsWritten | src/fix_gridveg_dates.py:85-133 | As written, the repair raises on a repeated metadata survey_ID. It raises on any row without a mapped date, because of the int32 cast. Otherwise it returns what the intended repair returns. |
| LocalDateFix.MissingDateWarningUnreachable | src/fix_gridveg_dates.py:127-131 | Whenever the function as written returns, no row lacks a date, so its missing-date warning is never issued. |
| LocalDateFix.UnmatchedSurveyRaises | src/fix_gridveg_dates.py:116 | One species row whose survey has no metadata makes the function as written raise. |
| LocalDateFix.FixDates | src/fix_gridveg_dates.py:96-116 | It fails exactly when metadata repeats a survey_ID. Otherwise it keeps the same rows in the same order, and only date and year change. The date is each survey's metadata date (NaT when absent), unconditionally, and the year is that date's year. |
| LocalDateFix.WarnedRowsLackMetadataDate | src/fix_gridveg_dates.py:127-131 | A row is warned about exactly when no metadata row of its survey has a date. |
| LocalDateFix.FixedYearsAgree | src/fix_gridveg_dates.py:116 | No output row's year differs from its date's year. |
| LocalDateFix.FixDatesIdempotent | src/fix_gridveg_dates.py:110-116 | Repairing the output again changes nothing. |
| LocalDateFix.AgreesWithWarehouseUpdate | src/fix_gridveg_dates.py:110-116 | On every row the warehouse UPDATE touches, the local repair writes the same date and year. |
| Frames.Names | src/point_intercepts_update.py:169-179 | The column names of a frame, in order. |
| Frames.FirstIndex | src/point_intercepts_update.py:193-202 | `df[name]` finds the first column of that name. |
| Frames.Rename | src/point_intercepts_update.py:88-101 | `rename(columns=...)`: the same cells, each listed name replaced and other names kept. |
| Frames.Select | src/point_intercepts_update.py:169-179 | `df[list]` fails exactly when a listed column is missing. Otherwise the frame has exactly those columns, in that order, with their cells. |
| Frames.Assign | src/data/survey_metadata_update.py:68 | `df[name] = cells` replaces the column, or appends it when absent. Every other column is kept. |
| Frames.DistinctNamesFindColumns | src/data/survey_metadata_update.py:71-79 | With distinct names, each column is found by its own name. |
| Frames.AssignOther | src/data/survey_metadata_update.py:68 | Assigning one column does not change whether another exists, nor its cells. |
| Frames.FirstIndexIs | src/data/survey_metadata_update.py:71-79 | A name at a position with no earlier column of the same name is found there. |
| Frames.MapCells | src/data/point_intercepts_update.py:104 | A column operation applies cell by cell. |
| Frames.MapColumn | src/data/point_intercepts_update.py:104 | Rewriting one column keeps the names, the height and every other column. |
| Frames.MapColumns | src/point_intercepts_update.py:118-130 | A loop over a list of columns keeps the names and the height. |
| Frames.MapColumnsSnoc | src/point_intercepts_update.py:118-130 | One more column of the loop is one more column rewrite. |
| Frames.MapColumnOther | src/data/point_intercepts_update.py:104-107 | Rewriting a column leaves every other column's cells as they were. |
| Frames.MapColumnsKeepsOthers | src/point_intercepts_update.py:118-130 | The loop leaves every unlisted column as it was. |
| Frames.MapColumnsUnlisted | src/data/point_intercepts_update.py:102-107 | An unlisted column keeps its cells through the loop. |
| Frames.InitOfDistinct | src/point_intercepts_update.py:111-117 | Dropping the last name of a distinct list keeps it distinct and present. |
| Frames.MapColumnsConverts | src/point_intercepts_update.py:118-130 | With distinct listed columns, each listed column is converted exactly once. |
| Frames.SameNamesSameColumns | src/point_intercepts_update.py:118-130 | Frames with the same names find each column at the same position. |
| Frames.NullifyMarkers | src/point_intercepts_update.py:120 | `replace(["", "NA"], None)`: a cell is missing afterwards exactly when it was missing, "" or "NA". Other cells are unchanged. |
| Frames.EmptyToNull | src/data/point_intercepts_update.py:104 | `replace("", pd.NA)`: a cell is missing afterwards exactly when it was missing or "". Other cells are unchanged. |
| Frames.CoerceNumeric | src/point_intercepts_update.py:128-130 | `to_numeric(errors="coerce")` keeps integers, reads decimal text, and turns anything else into a missing value. |
| Frames.CoerceNumericIdempotent | src/point_intercepts_update.py:128-130 | Coercing twice is coercing once. |
| Frames.CastInt64 | src/data/point_intercepts_update.py:104 | `astype("Int64")` accepts exactly missing and integer cells. |
| Frames.CastAfterEmptyToNull | src/data/point_intercepts_update.py:104 | After `replace("", NA)`, the cast fails exactly on text other than "" and on timestamps. |
| Frames.CastCells | src/data/point_intercepts_update.py:134-136 | Casting a column fails when any cell fails, and otherwise leaves every cell as it was. |
| Frames.Truncate | src/data/point_intercepts_update.py:107 | `.str[:n]` keeps the first n characters of text and makes other cells missing. |
| Frames.TruncateIdempotent | src/data/point_intercepts_update.py:139 | Cutting twice is cutting once. |
| Frames.ToRecords | src/point_intercepts_update.py:295 | `to_dict("records")`: one record per row, with one field per column in order. |
| Uploads.LastSegment | src/point_intercepts_update.py:384 | `split(".")[-1]` is never longer than the name. |
| Uploads.LastSegmentIsSuffix | src/point_intercepts_update.py:384 | `split(".")[-1]`: a dot-free suffix of the name that is either the whole name or starts right after a dot. |
| Uploads.LastSegmentSnoc | src/point_intercepts_update.py:384 | Appending a character extends the last segment, unless the character is a dot, which starts a new segment. |
| Uploads.LastSegmentAfterDot | src/data/survey_metadata_update.py:207 | Dot-free text after a dot is the last segment. |
| Uploads.LastSegmentOfQualifiedName | src/data/point_intercepts_update.py:294-296 | For `project.dataset.table`, the last segment is the table name. |
| Uploads.BackupPath | src/point_intercepts_update.py:383-385 | Every backup path starts `gs://{bucket}/backups/` and ends `/backup_*.csv`. |
| Uploads.BackupPathNamesTable | src/point_intercepts_update.py:383-385 | The backup path is `gs://{bucket}/backups/{table}/{table type}/{timestamp}/backup_*.csv`, using the table's own name. |
| Uploads.MatchesTransectSound | src/point_intercepts_update.py:230 | Every cell the check accepts is a transect point. |
| Uploads.MatchesTransectComplete | src/data/point_intercepts_update.py:179 | Every transect point passes the check. |
| Uploads.MatchesTransectIff | src/point_intercepts_update.py:285 | `^[NSEW]\d{1,2}$` accepts exactly a direction and one or two digits, optionally followed by one newline, which `$` lets through. |
| Uploads.MatchesTransect | src/point_intercepts_update.py:230 | `re.match` with `^[NSEW]\d{1,2}$`, read left to right. No ensures; `MatchesTransectIff` states exactly what it accepts. |
| Uploads.TransectColumnOk | src/point_intercepts_update.py:230 | `.str.match(...).all()`: every text cell matches, and other cells are skipped. No ensures; a definition over `MatchesTransect`. |
| Uploads.TransectExamples | src/data/point_intercepts_update.py:223 | "N1", "W12" and "E7\n" pass, and "N123", "X1", "S" and "N1\n\n" fail. |
| PointInterceptsCli.NumericCell | src/point_intercepts_update.py:118-130 | A numeric cell ends up missing or an integer. "", "NA" and missing become missing, and integers are kept. |
| PointInterceptsCli.NumericColumnsDistinct | src/point_intercepts_update.py:111-117 | The five numeric columns are distinct. |
| PointInterceptsCli.ConvertNumericColumns | src/point_intercepts_update.py:111-130 | The loop converts each of the five numeric columns cell by cell and keeps every column name. |
| PointInterceptsCli.TransformedVegetation | src/point_intercepts_update.py:83-140 | It fails, as a KeyError would, exactly when date, grid_point, year or a numeric column is missing after the rename. Otherwise the column names and the height are kept. |
| PointInterceptsCli.TransformedVegetationCells | src/point_intercepts_update.py:111-130 | Each numeric column holds its renamed cells converted one by one. Every other column is exactly as renamed. |
| PointInterceptsCli.TransformVegetation | src/point_intercepts_update.py:83-140 | The method, with its loop, computes exactly TransformedVegetation. It also fails on a missing column. |
| PointInterceptsCli.TransformGround | src/point_intercepts_update.py:143-181 | It fails exactly when a ground column is missing or an intercept_1 cell cannot be cast. Otherwise it keeps exactly the seven ground columns in order, with intercept_1's "" turned into missing. |
| PointInterceptsCli.ValidateVegetation | src/point_intercepts_update.py:184-232 | Valid exactly when grid_point, date, year and transect_point have no missing cell and every text transect point is well formed. intercept_1 may be missing. |
| PointInterceptsCli.ValidateGround | src/point_intercepts_update.py:235-287 | The same as the vegetation check, and intercept_ground_code must have no missing cell either. |
| PointInterceptsCli.MissingInterceptAllowed | src/point_intercepts_update.py:219-227 | Blanking every intercept_1 cell leaves the vegetation verdict unchanged. |
| PointInterceptsCli.InterceptIgnored | src/point_intercepts_update.py:219-227 | Whatever intercept_1 holds, the vegetation verdict is the same. |
| PointInterceptsCli.ValidateVegetationReads | src/point_intercepts_update.py:184-232 | Two frames that agree on grid_point, date, year and transect_point get the same vegetation verdict. |
| PointInterceptsCli.TransformedGroundIsCheckable | src/point_intercepts_update.py:169-179 | A transformed ground frame has every column the ground check reads. |
| PointInterceptsCli.VegetationValid | src/point_intercepts_update.py:479-484 | The vegetation frame is built and passes its check. No ensures; `ExitStatus` and `VegetationLoadIsGated` state what rests on it. |
| PointInterceptsCli.GroundValid | src/point_intercepts_update.py:406-411 | The ground frame is built and passes its check. No ensures; `GroundLoadIsGated` states what rests on it. |
| PointInterceptsCli.ProcessGround | src/point_intercepts_update.py:403-442 | It exits 1 exactly when the ground transform raises. Every step concerns the ground table. Ground is loaded exactly when the transform succeeds, the frame is valid and any backup succeeded. |
| PointInterceptsCli.RunOf | src/point_intercepts_update.py:445-524 | `main` over the verdicts on the two frames. No ensures; `RunOfLoads`, `RunOfExit`, `LiveRunLoads` and the gating lemmas state its meaning. |
| PointInterceptsCli.Workflow | src/point_intercepts_update.py:445-524 | `main` once the sheet is read, with the verdicts taken from the frame. No ensures; `ExitStatus`, `VegetationLoadIsGated`, `GroundLoadIsGated` and `GroundTransformCrashAfterVegetationLoad` state its meaning. |
| PointInterceptsCli.LoadValue | src/point_intercepts_update.py:298-305 | Before the load, no timestamp is left. A timestamp becomes `YYYY-MM-DD` text that parses back to it, and missing values stay missing. |
| PointInterceptsCli.LoadRecord | src/point_intercepts_update.py:299-305 | A record keeps its keys in order, with each value converted. |
| PointInterceptsCli.LoadRecordKeepsData | src/point_intercepts_update.py:298-305 | Each converted field keeps its key and gives back its original date. |
| PointInterceptsCli.PrepareRecords | src/point_intercepts_update.py:298-305 | After the nested in-place loop, every record is the converted original. |
| PointInterceptsCli.ExitStatus | src/point_intercepts_update.py:445-524 | The run exits 1 exactly in two cases. One is that the vegetation frame cannot be built or fails validation; the run then starts nothing. The other is that `process_ground_table` is reached and the ground transform raises. A failed load job never changes the status. |
| PointInterceptsCli.GroundTransformCrashAfterVegetationLoad | src/point_intercepts_update.py:403-406 | When `process_ground_table` is reached and the ground transform raises, the run exits 1. By then it has made the vegetation backup (if any) and started the vegetation load, and it never touches the ground table. |
| PointInterceptsCli.DryRunStartsNoJob | src/point_intercepts_update.py:491-499 | A dry run starts no job and never touches the ground table. It exits 0 exactly when the vegetation frame is valid. |
| PointInterceptsCli.VegetationLoadIsGated | src/point_intercepts_update.py:484-520 | Vegetation is loaded exactly when it is valid, the run is live, and any backup succeeded. With a bucket, the load comes after the successful backup. |
| PointInterceptsCli.GroundLoadIsGated | src/point_intercepts_update.py:403-442 | Ground is loaded exactly when the vegetation load was reached, the ground table is named and not skipped, the ground frame is valid, and any ground backup succeeded. |
| PointInterceptsCli.FailedVegetationLoadStillProcessesGround | src/point_intercepts_update.py:372-375 | A failed vegetation load is only logged. Whether ground is loaded and the exit status do not depend on it. |
| PointInterceptsPrompted.SurveyIdPrefix | src/data/point_intercepts_update.py:107 | survey_ID keeps its first eight characters, and a non-text cell becomes missing. |
| PointInterceptsPrompted.CastColumn | src/data/point_intercepts_update.py:134-136 | `replace("", NA).astype("Int64")` on one column fails exactly when a cell cannot be cast, and otherwise rewrites that column alone. |
| PointInterceptsPrompted.CastStep | src/data/point_intercepts_update.py:103-104 | The next column of the loop still holds its original cells, and casting it extends the loop by one. |
| PointInterceptsPrompted.CastColumns | src/data/point_intercepts_update.py:102-104 | The loop over distinct columns fails exactly when one of them cannot be cast. Otherwise its result is every listed column rewritten. |
| PointInterceptsPrompted.InterceptColumnsDistinct | src/data/point_intercepts_update.py:102 | The four intercept columns are distinct. |
| PointInterceptsPrompted.VegetationColumns | src/data/point_intercepts_update.py:102-107 | After the casts, survey_ID and every intercept column are still present with the expected cells. |
| Frames.MapColumnsThenOther | src/data/point_intercepts_update.py:102-107 | Converting distinct listed columns and then one unlisted column gives each column its own conversion of its original cells. |
| PointInterceptsPrompted.TransformedVegetation | src/data/point_intercepts_update.py:72-109 | It fails exactly when a column it reads is missing (date, grid_point, height_intercept_1, survey_ID, an intercept) or an intercept cannot be cast. Otherwise the names are kept, survey_ID is cut to eight characters, and each intercept column has "" turned into missing. |
| PointInterceptsPrompted.TransformVegetation | src/data/point_intercepts_update.py:72-109 | The method, with its loop, computes exactly TransformedVegetation. |
| PointInterceptsPrompted.TransformGround | src/data/point_intercepts_update.py:112-141 | It fails exactly when date, grid_point, intercept_1 or survey_ID is missing, or intercept_1 cannot be cast. Otherwise the names are kept, survey_ID is cut, and intercept_1 has "" turned into missing. |
| PointInterceptsPrompted.SurveyIdPrefixBounds | src/data/point_intercepts_update.py:139 | Every produced survey_ID is at most eight characters and a prefix of the original, and cutting again changes nothing. |
| PointInterceptsPrompted.ValidateVegetation | src/data/point_intercepts_update.py:144-181 | Valid exactly when the flag-driven check passes and intercept_1 has no missing cell. |
| PointInterceptsPrompted.MissingInterceptRejected | src/data/point_intercepts_update.py:168-176 | For a non-empty frame, blanking intercept_1 keeps the flag-driven verdict but fails this stricter check. |
| PointInterceptsPrompted.TableBlockConcerns | src/data/point_intercepts_update.py:347-416 | Every step of a table's block concerns that table. |
| PointInterceptsPrompted.TableBlock | src/data/point_intercepts_update.py:349-381 | One table's block of `main`: nothing on a failed check, the dry-run summary, a return after a failed backup the operator does not override, or the backup and, when confirmed, the load. No ensures; `TableBlockConcerns` and `TableBlockLoads` state its meaning. |
| PointInterceptsPrompted.VegetationCheck | src/data/point_intercepts_update.py:348-349 | The vegetation verdict: None when building or checking the frame raises. No ensures; `UncastableInterceptStopsRun` and `ExitStatus` state what rests on it. |
| PointInterceptsPrompted.GroundCheck | src/data/point_intercepts_update.py:389-390 | The ground verdict: None when building or checking the frame raises. No ensures; `ExitStatus` states what rests on it. |
| PointInterceptsPrompted.RunOf | src/data/point_intercepts_update.py:314-416 | `main` over the two verdicts: the vegetation block, then the ground block unless `main` returned. A verdict of None ends the run there with status 1. No ensures; the lemmas below state its meaning. |
| PointInterceptsPrompted.Workflow | src/data/point_intercepts_update.py:314-416 | `main` once the sheet is read, with the verdicts taken from the frame. No ensures; `LoadIsGated`, `ExitStatus` and `UncastableInterceptStopsRun` state its meaning. |
| PointInterceptsPrompted.LoadIsGated | src/data/point_intercepts_update.py:347-416 | A table is loaded exactly when its frame was built and is valid, the operator declined the dry run, any failed backup was waved through, and the upload was confirmed. Ground also needs the vegetation block to have neither raised nor returned. |
| PointInterceptsPrompted.ExitStatus | src/data/point_intercepts_update.py:314-416 | The run exits 1 exactly in two cases. One is that building or checking the vegetation frame raises; the run then starts nothing. The other is that the ground block is reached and building or checking the ground frame raises. |
| PointInterceptsPrompted.UncastableInterceptStopsRun | src/data/point_intercepts_update.py:102-104 | An intercept cell the cast rejects ends the whole run with status 1, before any step. The ground block is never reached. |
| PointInterceptsPrompted.TableBlockLoads | src/data/point_intercepts_update.py:347-416 | A table block loads its table exactly when the frame is valid, no dry run was chosen, a failed backup was waved through and the upload was confirmed. It loads no other table. |
| PointInterceptsPrompted.DeclinedAfterFailedBackupSkipsGround | src/data/point_intercepts_update.py:361-371 | `main` returns in the vegetation block exactly when a live, valid upload's backup failed and the operator declined to continue. The run is then that one failed backup, with status 0. |
| PointInterceptsPrompted.GroundBlockFollowsInvalidVegetation | src/data/point_intercepts_update.py:384-389 | When the vegetation frame is built but fails validation, the run is exactly the ground block with status 0. If the ground frame raises instead, the run has no step and status 1. |
| PointInterceptsPrompted.DryRunAnswerStartsNoJob | src/data/point_intercepts_update.py:238-265 | Answering "y" to the dry-run prompt starts no job on that table. |
| PointInterceptsPrompted.UploadDespiteFailedBackupFollowsIt | src/data/point_intercepts_update.py:361-381 | An upload waved through after a failed backup comes after the backup attempt. |
| SurveyMetadataUpdate.TransformData | src/data/survey_metadata_update.py:45-81 | It fails exactly when a renamed required column is missing. Otherwise the columns are exactly survey_ID, grid_point, year, date, survey_sequence and surveyor, in that order. survey_sequence is all missing, the other columns are the renamed input's, and the height is kept. |
| SurveyMetadataUpdate.SequenceColumnAdded | src/data/survey_metadata_update.py:68 | Adding survey_sequence leaves every other column, and whether it exists, as it was. |
| SurveyMetadataUpdate.ValidateData | src/data/survey_metadata_update.py:104-114 | Valid exactly when survey_ID, grid_point, year, date and surveyor have no missing cell. survey_sequence is not checked. |
| SurveyMetadataUpdate.MetadataColumnsDistinct | src/data/survey_metadata_update.py:71-78 | The six table columns are distinct. |
| SurveyMetadataUpdate.InTableOrder | src/data/survey_metadata_update.py:71-79 | In a frame with the table's columns, each name finds its own column. |
| SurveyMetadataUpdate.TransformedColumns | src/data/survey_metadata_update.py:50-79 | Each required column of the transformed frame is the renamed input's column. |
| SurveyMetadataUpdate.TableOrderColumns | src/data/survey_metadata_update.py:68-79 | A frame in table order whose survey_sequence is empty and whose other columns are the renamed input's holds every required column unchanged. |
| SurveyMetadataUpdate.ValidationReadsInputColumns | src/data/survey_metadata_update.py:84-114 | Checking the transformed frame is checking the renamed input, and survey_sequence would never pass a null check on a non-empty frame. |
| SurveyMetadataUpdate.DateToText | src/data/survey_metadata_update.py:167-168 | Only a "date" field holding a timestamp is rewritten, to `YYYY-MM-DD` text that parses back to it. Keys never change. |
| SurveyMetadataUpdate.DateRecord | src/data/survey_metadata_update.py:166-168 | A record's fields are rewritten one by one, in order. |
| SurveyMetadataUpdate.DateRecordIdempotent | src/data/survey_metadata_update.py:166-168 | Rewriting twice is rewriting once. |
| SurveyMetadataUpdate.PrepareRecords | src/data/survey_metadata_update.py:163-168 | After the in-place loop, every record is its rewritten original. |
| SurveyMetadataUpdate.BackupLocation | src/data/survey_metadata_update.py:206-208 | For `project.table`, the path is `gs://{bucket}/backups/{table}/survey_metadata/{timestamp}/backup_*.csv`. |
| SurveyMetadataUpdate.ValidatedSteps | src/data/survey_metadata_update.py:241-258 | Once the frame is checked, at most two steps, all on the survey-metadata table. |
| SurveyMetadataUpdate.Verdict | src/data/survey_metadata_update.py:238-241 | None exactly when a required column is missing after the rename, which is the KeyError of `transform_data`. Otherwise the result is whether the renamed export passes `validate_data`. |
| SurveyMetadataUpdate.Workflow | src/data/survey_metadata_update.py:224-258 | `main` once the export is read. A crash starts nothing, and the exit status is 0 or 1. |
| SurveyMetadataUpdate.ExitStatus | src/data/survey_metadata_update.py:238-243 | The process exits 1 exactly when a required column is missing after the rename. A failed check, backup or load returns normally with status 0. |
| SurveyMetadataUpdate.StepsNeedValidFrame | src/data/survey_metadata_update.py:241-250 | Once the frame is checked, a failing frame starts nothing and a dry run starts no job. |
| SurveyMetadataUpdate.StepsGated | src/data/survey_metadata_update.py:249-258 | Once the frame is checked, the load happens exactly when the check passed, the run is live and any backup succeeded, and it follows the backup. |
| SurveyMetadataUpdate.NothingBeforeValidation | src/data/survey_metadata_update.py:238-250 | An export missing a required column, or one with a missing cell in a required column, starts nothing. A dry run starts no job. |
| SurveyMetadataUpdate.LoadIsGated | src/data/survey_metadata_update.py:238-258 | Over the export itself, the table is appended to exactly when every required column is present and has no missing cell, the run is live, and any backup succeeded. With a bucket, the load follows the successful backup. |

## Left out

- Printing, logging, plotting (`plot_discrepancies`) and CSV output are I/O. They are not modelled.
- The float percentages of the reports are left out. The model keeps the integer counts they are built from.
- argparse, `input()` prompts and the environment are not modelled. Flags and answers are booleans, and the timestamp is a string.
- The clock is a parameter. CURRENT_DATE() is `today`, and `datetime.now()` is a timestamp string.
- The BigQuery and Cloud Storage clients are not modelled:
  - the BigQuery table is a sequence or array;
  - an extract job is a success flag;
  - the backup listing is an object count;
  - a load job is a success flag, and its rows are not appended anywhere.
- The column named `__kp_Survey` in the pattern query is taken to be the survey_ID column.
- pandas Timestamp bounds (years 1677 to 2262) are not modelled. Dates range over BigQuery's years 1 to 9999.
- Only `DateOffset` beyond that range fails in the model.
- `pd.to_datetime` on text is left out, and so is `pd.to_numeric` on grid_point and year. The model assumes the frames arrive with these columns already converted, or leaves them as they are. `to_numeric(errors="coerce")` is decimal digits only, with no sign, fraction or exponent.
- The float cast of `height_intercept_1` in the prompt-driven script is not modelled (src/data/point_intercepts_update.py:97-99). That column keeps its cells.
- `downcast="float"` for `height_intercept_1` is not modelled (src/point_intercepts_update.py:123-125). That column passes through the same integer coercion as the intercept columns.
- The metadata frame's `pd.to_datetime` at src/fix_gridveg_dates.py:99 mutates the caller's frame. This is not modelled: metadata dates are already dates.
- The `isinstance(value, pd.Int64Dtype)` branch of the record conversion is not modelled (src/point_intercepts_update.py:304-305). No cell value is a dtype, so it never runs.
- `STRING_AGG` sample dates and the `metadata_record_count` column are not considered beyond carrying the count.
- The `NOT IN` with a NULL survey_ID is not modelled, because survey_ID is never NULL here.
- Missing columns:
  - `df[name]` on a missing column raises KeyError. In the transforms of both point-intercept scripts and of the survey-metadata script, a missing column gives `None`. In the two point-intercept scripts, that `None` ends the run with status 1.
  - Elsewhere, where a function reads fixed columns of a frame that its caller built, the column's presence is a `requires`.
- Duplicate column names are not modelled, and neither are key collisions in `to_dict`.
- The preview's window columns are not modelled: the min and max dates, and the five-row sample print. The preview is a sequence of groups in no particular order.
- `load_or_download_data` and `download_table_to_csv` are file I/O and are not modelled.
- The scripts for exploration, images and `additional_species` fall outside the date repair and ingestion core, and are not modelled.
- Each script has its own CASE precedence; the model follows it.
- `pd.to_datetime` and `pd.to_numeric` raising on a date or grid_point cell are not modelled. The model treats these conversions as ones that always succeed (see above), so only the intercept casts and missing columns make a transform fail.
- Discrepancy.AnalyzeSurveyIdPatterns does not state the `ORDER BY location, survey_ID` of src/investigate_further_gridveg_dates.py:131. It keeps the two locations apart, but within each it promises only the members and no duplicates, not the order.
- Uploads.TransectColumnOk does not model `.str.match` raising AttributeError on a column that holds no text cell at all. Its non-text cells are skipped, as pandas skips their NaN results.
- PointInterceptsCli.TransformVegetation does not model the date, grid_point and year conversions at src/point_intercepts_update.py:104-108. It does model the numeric-column loop.
- DatePatternAnalysis.AnalyzeResults does not model the percentage values. It states only the counts and samples they come from.
- DateCorrection.DateFixer.CreateBackup does not model the extract job. A successful extraction is assumed, and only the listing count decides.
- DateCorrection.UpdateResult describes the UPDATE with its table placeholders formatted. The script sends it unformatted, so BigQuery rejects it and the table never changes. `FixDatesAsWritten` models that run.
- DateCorrection.UpdateNeverRefusedWithUniqueMetadata holds for the formatted UPDATE only. As written, every UPDATE is rejected, whatever the metadata (`FixDatesAsWritten`).
- DateCorrection.NoUpdateWithoutBackup is about the corrected run. As written, no run changes the table at all (`FixDatesAsWritten`, whose ensures states `o.rows == rows`).
- DateCorrection.ValidationFailureKeepsUpdate is about the corrected run. As written, validation is never reached: the run aborts on the rejected UPDATE (`AsWrittenOnlyDryRunSucceeds`).
- DateCorrection.DateFixer.ApplyUpdate is the formatted UPDATE. The statement the script sends is `DateFixer.SendUnformattedUpdate`.
- DateCorrection.DateFixer.Run is the corrected run. The script as written is `DateFixer.RunAsWritten`.
- Frames.CoerceNumeric reads only unsigned decimal text as a number. pandas reads "-3" as -3 and "1.5" as 1.5, so in the model a signed intercept becomes missing where the script keeps it.
- PointInterceptsCli.TransformedVegetation inherits this from `Frames.CoerceNumeric`. In the script, a fractional intercept such as "1.5" makes the following `astype("Int64")` raise, so the run exits 1 before anything is loaded. The model turns that cell into a missing value, and the run may go on to load the table.
- Frames.Truncate yields a missing value for a non-text cell. pandas `.str[:8]` instead raises AttributeError on a column with no text cell at all.
- PointInterceptsPrompted.SurveyIdPrefix inherits this from `Frames.Truncate`: a survey_ID column with no text cell does not make the transform fail in the model, although in the script it raises and the run exits 1.
- Uploads.MatchesTransectIff treats `\d` as ASCII digits. Python `re` also accepts other Unicode decimal digits.

## Findings

| source | as written | input that shows it | evidently intended | confidence | as-written member | corrected member |
|---|---|---|---|---|---|---|
| src/data/investigate_further_gridveg_dates.py:203-214 (same in src/investigate_further_gridveg_dates.py) | The DD-MM-YY reconstruction uses the full species year as the day, so a date of the survey era becomes day 2031 and `pd.to_datetime` raises | A Date Mismatch row with species date 2031-06-12 | The day should be the species year less 2000, as the SQL pattern check at src/data/investigate_gridveg_dates.py:72-77 does | not executed | Discrepancy.DateFormatAsWrittenRaises | Discrepancy.AnalyzeDateFormatPattern |
| src/fix_gridveg_dates.py:116, 127-131 | `.dt.year.astype("int32")` raises on NaT, so a survey_ID without metadata aborts the run and the missing-date warning below it can never be reached | Species row survey "S" dated 2031-06-12, empty metadata | A nullable year, so that the unmatched row is kept with a missing date and reported | not executed | LocalDateFix.UnmatchedSurveyRaises | LocalDateFix.FixDates |
| src/data/fix_gridveg_dates.py:168-180 | `update_query` is never passed through `.format()`, unlike the preview and the year check, so BigQuery is asked to update a table literally named `{project}.{dataset}.{table}`. It rejects the statement, `job.result()` raises and `main` exits 1 | Any live run with a non-empty preview, a bucket and a non-empty backup listing | The statement formatted with the project, dataset and table, so that the matched rows take their metadata dates | not executed | DateCorrection.FixDatesAsWritten | DateCorrection.FixDates |
