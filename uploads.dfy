/**
  What the three upload scripts share: where a backup goes, the steps a
  run takes against BigQuery and Cloud Storage, and the transect-point
  format both point-intercept validators check.
 */
module Uploads {
  import opened Dates
  import opened Frames

  // ---- Backup location ----

  /** `table_id.split(".")[-1]`: the text after the last dot, or all of it. */
  function LastSegment(s: string): (r: string)
    ensures |r| <= |s|
    decreases |s|
  {
    if s == [] || s[|s| - 1] == '.' then []
    else LastSegment(s[..|s| - 1]) + [s[|s| - 1]]
  }

  /** The last segment is a dot-free suffix that is the whole name or follows a dot. */
  lemma {:induction false} LastSegmentIsSuffix(s: string)
    ensures var r := LastSegment(s);
      && (forall i :: 0 <= i < |r| ==> r[i] != '.')
      && (forall i :: 0 <= i < |r| ==> r[i] == s[|s| - |r| + i])
      && (|r| < |s| ==> s[|s| - |r| - 1] == '.')
    decreases |s|
  {
    if s != [] && s[|s| - 1] != '.' {
      var init := s[..|s| - 1];
      LastSegmentIsSuffix(init);
      var p := LastSegment(init);
      assert LastSegment(s) == p + [s[|s| - 1]];
      forall i | 0 <= i < |p| ensures p[i] == s[|s| - |p| - 1 + i] {
        assert init[|init| - |p| + i] == s[|init| - |p| + i];
      }
    }
  }

  lemma LastSegmentSnoc(a: string, x: char)
    ensures LastSegment(a + [x]) == if x == '.' then [] else LastSegment(a) + [x]
  {
    assert (a + [x])[..|a|] == a;
  }

  /** Appending text without a dot after a dot: the appended text is the last segment. */
  lemma {:induction false} LastSegmentAfterDot(a: string, table: string)
    requires |a| > 0 && a[|a| - 1] == '.'
    requires forall i :: 0 <= i < |table| ==> table[i] != '.'
    ensures LastSegment(a + table) == table
    decreases |table|
  {
    if table == [] {
      assert a + table == a;
    } else {
      var init, last := table[..|table| - 1], table[|table| - 1];
      assert forall i :: 0 <= i < |init| ==> init[i] != '.' by {
        forall i | 0 <= i < |init| ensures init[i] != '.' {
          assert init[i] == table[i];
        }
      }
      LastSegmentAfterDot(a, init);
      assert table == init + [last];
      assert a + table == (a + init) + [last];
      LastSegmentSnoc(a + init, last);
      calc {
        LastSegment(a + table);
        LastSegment((a + init) + [last]);
        LastSegment(a + init) + [last];
        init + [last];
      }
    }
  }

  /** For `project.dataset.table`, the last segment is the table name. */
  lemma LastSegmentOfQualifiedName(prefix: string, table: string)
    requires forall i :: 0 <= i < |table| ==> table[i] != '.'
    ensures LastSegment(prefix + "." + table) == table
  {
    LastSegmentAfterDot(prefix + ".", table);
  }

  /** `gs://{bucket}/backups/{table name}/{table type}/{timestamp}/backup_*.csv`. */
  function BackupPath(bucket: string, tableId: string, tableType: string, timestamp: string): (path: string)
    ensures var prefix := "gs://" + bucket + "/backups/";
      |prefix| <= |path| && path[..|prefix|] == prefix
    ensures |path| >= 13 && path[|path| - 13..] == "/backup_*.csv"
  {
    "gs://" + bucket + "/backups/" + LastSegment(tableId) + "/" + tableType + "/" + timestamp + "/backup_*.csv"
  }

  /** Backups of two tables of one dataset land in different folders: the
      path keeps the table name and the table type. */
  lemma BackupPathNamesTable(bucket: string, project: string, table: string, tableType: string, timestamp: string)
    requires forall i :: 0 <= i < |table| ==> table[i] != '.'
    ensures BackupPath(bucket, project + "." + table, tableType, timestamp)
      == "gs://" + bucket + "/backups/" + table + "/" + tableType + "/" + timestamp + "/backup_*.csv"
  {
    LastSegmentOfQualifiedName(project, table);
  }

  // ---- Steps of a run ----

  datatype Table = Vegetation | Ground | SurveyMetadata

  /** What a run does against BigQuery and Cloud Storage, in order. */
  datatype Step =
    | DryRunSummary(table: Table)            // the dry-run summary; no job is created
    | Backup(table: Table, succeeded: bool)  // the extract job to the backup path
    | Load(table: Table, succeeded: bool)    // the load job; a failure is only logged

  /** The steps a run took and the status the process exits with. */
  datatype Run = Run(steps: seq<Step>, exitCode: int)

  predicate IsJob(s: Step) {
    s.Backup? || s.Load?
  }

  /** Step `a` happens strictly before step `b`. */
  predicate Precedes(steps: seq<Step>, a: Step, b: Step) {
    exists i, j :: 0 <= i < j < |steps| && steps[i] == a && steps[j] == b
  }

  predicate Loads(steps: seq<Step>, t: Table) {
    exists ok :: Load(t, ok) in steps
  }

  /** A run made of two parts loads a table exactly when one of the parts does. */
  lemma LoadsConcat(a: seq<Step>, b: seq<Step>, t: Table)
    ensures Loads(a + b, t) <==> Loads(a, t) || Loads(b, t)
  {
    if Loads(a + b, t) {
      var ok :| Load(t, ok) in a + b;
      assert Load(t, ok) in a || Load(t, ok) in b;
    }
    if Loads(a, t) {
      var ok :| Load(t, ok) in a;
      assert Load(t, ok) in a + b;
    }
    if Loads(b, t) {
      var ok :| Load(t, ok) in b;
      assert Load(t, ok) in a + b;
    }
  }

  // ---- Transect points ----

  predicate IsDirection(c: char) {
    c == 'N' || c == 'S' || c == 'E' || c == 'W'
  }

  predicate AllDigits(s: string) {
    forall i :: 0 <= i < |s| ==> IsDigit(s[i])
  }

  /** What `re.match(r"^[NSEW]\d{1,2}$", s)` accepts: a direction, one or
      two digits, and possibly one newline, which `$` lets through at the end. */
  ghost predicate IsTransectPoint(s: string) {
    exists c: char, digits: string :: IsDirection(c) && 1 <= |digits| <= 2 && AllDigits(digits)
      && (s == [c] + digits || s == [c] + digits + "\n")
  }

  /** The check itself, read left to right: drop one final newline, then a
      direction and one or two digits. */
  function MatchesTransect(s: string): bool {
    var t := if |s| > 0 && s[|s| - 1] == '\n' then s[..|s| - 1] else s;
    2 <= |t| <= 3 && IsDirection(t[0]) && AllDigits(t[1..])
  }

  lemma MatchesTransectSound(s: string)
    requires MatchesTransect(s)
    ensures IsTransectPoint(s)
  {
    var t := if |s| > 0 && s[|s| - 1] == '\n' then s[..|s| - 1] else s;
    assert s == [t[0]] + t[1..] || s == [t[0]] + t[1..] + "\n";
  }

  lemma MatchesTransectComplete(s: string, c: char, digits: string)
    requires IsDirection(c) && 1 <= |digits| <= 2 && AllDigits(digits)
    requires s == [c] + digits || s == [c] + digits + "\n"
    ensures MatchesTransect(s)
  {
    var t := if |s| > 0 && s[|s| - 1] == '\n' then s[..|s| - 1] else s;
    assert s[|s| - 1] == '\n' <==> s == [c] + digits + "\n" by {
      if s == [c] + digits {
        assert s[|s| - 1] == digits[|digits| - 1];
      }
    }
    assert t == [c] + digits;
    assert t[1..] == digits;
  }

  /** The check accepts exactly the transect points. */
  lemma MatchesTransectIff(s: string)
    ensures MatchesTransect(s) <==> IsTransectPoint(s)
  {
    if MatchesTransect(s) {
      MatchesTransectSound(s);
    }
    if IsTransectPoint(s) {
      var c: char, digits: string :| IsDirection(c) && 1 <= |digits| <= 2 && AllDigits(digits)
        && (s == [c] + digits || s == [c] + digits + "\n");
      MatchesTransectComplete(s, c, digits);
    }
  }

  /** Examples of the rule: one optional final newline is let through. */
  lemma TransectExamples()
    ensures MatchesTransect("N1") && MatchesTransect("W12") && MatchesTransect("E7\n")
    ensures !MatchesTransect("N123") && !MatchesTransect("X1") && !MatchesTransect("S") && !MatchesTransect("N1\n\n")
  {
    assert "N1\n\n"[..3][1..][1] == '\n';
  }

  /** `df["transect_point"].str.match(...).all()`: text cells must match;
      other cells give NaN, which `all()` skips. */
  predicate TransectColumnOk(cells: seq<Value>) {
    forall i :: 0 <= i < |cells| ==> cells[i].Text? ==> MatchesTransect(cells[i].s)
  }
}
