/**
  Calendar dates as BigQuery DATE values and pandas Timestamps without a
  time part: year, month and day, with the proleptic Gregorian leap rule.
  Also the date arithmetic the scripts use: SQL comparisons in which NULL
  never compares true, pandas `DateOffset(years=n)`, the `%Y-%m-%d` and
  `%d-%m-%y` renderings, and the DD-MM-YY corruption hypothesis.
 */
module Dates {
  import opened Relational

  datatype Ymd = Ymd(year: int, month: int, day: int)

  predicate IsLeapYear(y: int) {
    y % 4 == 0 && (y % 100 != 0 || y % 400 == 0)
  }

  function DaysInMonth(y: int, m: int): (n: int)
    requires 1 <= m <= 12
    ensures 28 <= n <= 31
    ensures m == 2 ==> (n == 29 <==> IsLeapYear(y))
  {
    if m == 2 then (if IsLeapYear(y) then 29 else 28)
    else if m == 4 || m == 6 || m == 9 || m == 11 then 30
    else 31
  }

  /** A day of BigQuery's DATE range, 0001-01-01 through 9999-12-31. */
  predicate IsCalendarDate(d: Ymd) {
    1 <= d.year <= 9999 && 1 <= d.month <= 12 && 1 <= d.day <= DaysInMonth(d.year, d.month)
  }

  type Date = d: Ymd | IsCalendarDate(d) witness Ymd(2000, 1, 1)

  /** Chronological order. */
  predicate Before(a: Ymd, b: Ymd) {
    a.year < b.year || (a.year == b.year && (a.month < b.month || (a.month == b.month && a.day < b.day)))
  }

  /** The literal '2024-12-31' that the queries compare against. */
  const Cutoff: Date := Ymd(2024, 12, 31)

  /** `date > '2024-12-31'` and `date.year > 2024` select the same dates. */
  lemma PastCutoffIffYearAfter2024(d: Date)
    ensures Before(Cutoff, d) <==> d.year > 2024
  {
  }

  /** SQL `a > b` with `a` nullable: NULL compares neither true nor false,
      and a WHERE or CASE treats that as not true. */
  predicate SqlAfter(a: Option<Date>, b: Date) {
    a.Some? && Before(b, a.value)
  }

  /** SQL `a != b` on two nullable dates, read the same way. */
  predicate SqlDiffer(a: Option<Date>, b: Option<Date>) {
    a.Some? && b.Some? && a.value != b.value
  }

  /** `EXTRACT(YEAR FROM d)` and pandas `.dt.year`: NULL for a NULL date. */
  function YearOf(d: Option<Date>): (y: Option<int>)
    ensures y.Some? <==> d.Some?
    ensures y.Some? ==> y.value == d.value.year
  {
    match d
    case None => None
    case Some(v) => Some(v.year)
  }

  /**
    pandas `date + DateOffset(years=n)`: the same month and day `n` years on,
    a 29 February landing in a common year becomes 28 February. None stands
    for a result outside the DATE range, where the addition raises.
   */
  function AddYears(d: Date, n: int): (r: Option<Date>)
    ensures r.Some? <==> 1 <= d.year + n <= 9999
    ensures r.Some? ==> r.value.year == d.year + n && r.value.month == d.month
    ensures r.Some? ==> r.value.day == if d.month == 2 && d.day == 29 && !IsLeapYear(d.year + n) then 28 else d.day
  {
    var y := d.year + n;
    if 1 <= y <= 9999 then
      var last := DaysInMonth(y, d.month);
      Some(Ymd(y, d.month, if d.day <= last then d.day else last))
    else None
  }

  /** Shifting back undoes a shift except where 29 February was clamped. */
  lemma {:induction false} AddYearsUndo(d: Date, n: int)
    requires 1 <= d.year + n <= 9999
    requires !(d.month == 2 && d.day == 29 && !IsLeapYear(d.year + n))
    ensures AddYears(d, n).Some? && AddYears(AddYears(d, n).value, -n) == Some(d)
  {
    var e := AddYears(d, n).value;
    assert e == d.(year := d.year + n);
  }

  /** The clamp loses information: 2024-02-29 + 11 years - 11 years is 2024-02-28. */
  lemma LeapDayShiftIsNotReversible()
    ensures AddYears(Ymd(2024, 2, 29), 11) == Some(Ymd(2035, 2, 28))
    ensures AddYears(Ymd(2035, 2, 28), -11) == Some(Ymd(2024, 2, 28))
  {
  }

  // ---- Text renderings ----

  function DigitChar(n: int): (c: char)
    requires 0 <= n <= 9
    ensures '0' <= c <= '9'
  {
    (48 + n) as char
  }

  predicate IsDigit(c: char) {
    '0' <= c <= '9'
  }

  function DigitValue(c: char): (n: int)
    requires IsDigit(c)
    ensures 0 <= n <= 9
  {
    c as int - 48
  }

  /** Value of a string of ASCII digits, most significant first. */
  function DigitsValue(s: string): (n: nat)
    requires forall i :: 0 <= i < |s| ==> IsDigit(s[i])
    decreases |s|
  {
    if s == [] then 0 else 10 * DigitsValue(s[..|s| - 1]) + DigitValue(s[|s| - 1])
  }

  function Pad2(n: int): (s: string)
    requires 0 <= n <= 99
    ensures |s| == 2 && IsDigit(s[0]) && IsDigit(s[1])
    ensures DigitsValue(s) == n
  {
    var s := [DigitChar(n / 10), DigitChar(n % 10)];
    assert s[..1] == [s[0]] && [s[0]][..0] == [];
    assert DigitsValue(s[..1]) == n / 10;
    s
  }

  /** Two more digits shift the value by two places. */
  lemma DigitsValueAppend2(a: string, b: string)
    requires forall i :: 0 <= i < |a| ==> IsDigit(a[i])
    requires |b| == 2 && IsDigit(b[0]) && IsDigit(b[1])
    ensures forall i :: 0 <= i < |a + b| ==> IsDigit((a + b)[i])
    ensures DigitsValue(a + b) == 100 * DigitsValue(a) + DigitsValue(b)
  {
    var ab, a0 := a + b, a + [b[0]];
    assert ab[..|ab| - 1] == a0 && ab[|ab| - 1] == b[1];
    assert a0[..|a|] == a && a0[|a|] == b[0];
    assert DigitsValue(ab) == 10 * DigitsValue(a0) + DigitValue(b[1]);
    assert DigitsValue(a0) == 10 * DigitsValue(a) + DigitValue(b[0]);
    assert b[..1] == [b[0]] && [b[0]][..0] == [];
    assert DigitsValue([b[0]]) == DigitValue(b[0]);
    assert DigitsValue(b) == 10 * DigitsValue(b[..1]) + DigitValue(b[1]);
  }

  function Pad4(n: int): (s: string)
    requires 0 <= n <= 9999
    ensures |s| == 4 && forall i :: 0 <= i < 4 ==> IsDigit(s[i])
    ensures DigitsValue(s) == n
  {
    var hi, lo := Pad2(n / 100), Pad2(n % 100);
    DigitsValueAppend2(hi, lo);
    hi + lo
  }

  /** `strftime("%Y-%m-%d")` and BigQuery `FORMAT_DATE('%Y-%m-%d', d)`. */
  function FormatIso(d: Date): (s: string)
    ensures |s| == 10 && s[4] == '-' && s[7] == '-'
  {
    Pad4(d.year) + "-" + Pad2(d.month) + "-" + Pad2(d.day)
  }

  /** BigQuery `FORMAT_DATE('%d-%m-%y', d)`: two-digit day, month and year. */
  function FormatDdMmYy(d: Date): (s: string)
    ensures |s| == 8 && s[2] == '-' && s[5] == '-'
  {
    Pad2(d.day) + "-" + Pad2(d.month) + "-" + Pad2(d.year % 100)
  }

  /** Reads `YYYY-MM-DD` back; None unless the text is that shape and names a real day. */
  function ParseIso(s: string): (r: Option<Date>)
    ensures r.Some? ==> |s| == 10 && s[4] == '-' && s[7] == '-'
  {
    if |s| == 10 && s[4] == '-' && s[7] == '-'
       && (forall i :: 0 <= i < 10 && i != 4 && i != 7 ==> IsDigit(s[i]))
    then
      var d := Ymd(DigitsValue(s[..4]), DigitsValue(s[5..7]), DigitsValue(s[8..]));
      if IsCalendarDate(d) then Some(d) else None
    else None
  }

  /** Rendering a date as `YYYY-MM-DD` loses nothing. */
  lemma {:induction false} ParseFormatIso(d: Date)
    ensures ParseIso(FormatIso(d)) == Some(d)
  {
    var y, m, dd := Pad4(d.year), Pad2(d.month), Pad2(d.day);
    var s := FormatIso(d);
    assert s == y + "-" + m + "-" + dd;
    assert s[..4] == y;
    assert s[5..7] == m;
    assert s[8..] == dd;
    forall i | 0 <= i < 10 && i != 4 && i != 7 ensures IsDigit(s[i]) {
      if i < 4 { assert s[i] == y[i]; }
      else if i < 7 { assert s[i] == m[i - 5]; }
      else { assert s[i] == dd[i - 8]; }
    }
  }

  // ---- The DD-MM-YY corruption hypothesis ----

  /**
    The corruption the investigation scripts look for: a DD-MM-YY date whose
    day was taken as a two-digit year in the 2000s and whose two-digit year
    was taken as the day. The result need not be a real day.
   */
  function Misread(c: Date): (m: Ymd)
    ensures m.year - 2000 == c.day && m.month == c.month && m.day == c.year % 100
  {
    Ymd(2000 + c.day, c.month, c.year % 100)
  }

  /**
    The reconstruction as the investigation script builds it: year from the
    day plus 2000, month unchanged, and the FULL year as the day. None where
    that is no real day, where the date assembly raises.
   */
  function ReconstructAsWritten(d: Date): (r: Option<Date>)
    ensures r.Some? ==> r.value == Ymd(d.day + 2000, d.month, d.year)
    ensures r.None? <==> !IsCalendarDate(Ymd(d.day + 2000, d.month, d.year))
  {
    var c := Ymd(d.day + 2000, d.month, d.year);
    if IsCalendarDate(c) then Some(c) else None
  }

  /** As written, every date after year 31 (so every corrupted date) fails. */
  lemma ReconstructAsWrittenRejectsRealYears(d: Date)
    requires d.year > 31
    ensures ReconstructAsWritten(d) == None
  {
  }

  /** The reconstruction as the hypothesis intends it: the day is the year less 2000. */
  function Reconstruct(d: Date): (r: Option<Date>)
    ensures r.Some? ==> r.value.year == d.day + 2000 && r.value.month == d.month && r.value.day == d.year - 2000
    ensures r.None? <==> !IsCalendarDate(Ymd(d.day + 2000, d.month, d.year - 2000))
  {
    var c := Ymd(d.day + 2000, d.month, d.year - 2000);
    if IsCalendarDate(c) then Some(c) else None
  }

  /** The intended reconstruction undoes the corruption for every 21st-century date. */
  lemma {:induction false} ReconstructUndoesMisread(c: Date)
    requires 2000 <= c.year <= 2099
    requires IsCalendarDate(Misread(c))
    ensures Reconstruct(Misread(c)) == Some(c)
  {
    var m: Date := Misread(c);
    assert c.year % 100 == c.year - 2000;
    assert Ymd(m.day + 2000, m.month, m.year - 2000) == c;
  }

  /**
    The SQL pattern check: the day of the correct date equals the corrupted
    year less 2000. A NULL correct date never confirms.
   */
  predicate ConfirmsPattern(incorrect: Date, correct: Option<Date>) {
    correct.Some? && correct.value.day == incorrect.year - 2000
  }

  /** The SQL check is the day part of the intended reconstruction, and it
      accepts every date corrupted as hypothesised. */
  lemma {:induction false} ReconstructionConfirmsPattern(incorrect: Date, correct: Date)
    ensures Reconstruct(incorrect) == Some(correct) ==> ConfirmsPattern(incorrect, Some(correct))
    ensures IsCalendarDate(Misread(correct)) ==> ConfirmsPattern(Misread(correct), Some(correct))
  {
  }
}
