/**
  The few pandas operations the upload scripts use: a data frame of named
  columns, renaming, column selection, column assignment, cell conversions
  and the conversion of a frame to one record per row.
 */
module Frames {
  import opened Relational
  import opened Dates

  /** A cell: missing (NaN, NaT, None, pd.NA), text, an integer or a timestamp. */
  datatype Value = Null | Text(s: string) | Int(i: int) | Stamp(d: Date)

  datatype Column = Column(name: string, cells: seq<Value>)

  /** A data frame with `height` rows. */
  datatype Frame = Frame(height: nat, columns: seq<Column>)

  /** Every column has one cell per row. */
  predicate Rectangular(f: Frame) {
    forall j :: 0 <= j < |f.columns| ==> |f.columns[j].cells| == f.height
  }

  function Names(f: Frame): (n: seq<string>)
    ensures |n| == |f.columns|
    ensures forall j :: 0 <= j < |n| ==> n[j] == f.columns[j].name
  {
    seq(|f.columns|, j requires 0 <= j < |f.columns| => f.columns[j].name)
  }

  predicate HasColumn(f: Frame, name: string) {
    exists j :: 0 <= j < |f.columns| && f.columns[j].name == name
  }

  predicate HasColumns(f: Frame, names: seq<string>) {
    forall k :: 0 <= k < |names| ==> HasColumn(f, names[k])
  }

  /** Position of the first column called `name`. */
  function FirstIndex(cols: seq<Column>, name: string): (j: nat)
    requires exists k :: 0 <= k < |cols| && cols[k].name == name
    ensures j < |cols| && cols[j].name == name
    ensures forall k :: 0 <= k < j ==> cols[k].name != name
  {
    if cols[0].name == name then 0
    else
      assert forall k :: 1 <= k < |cols| ==> cols[k] == cols[1..][k - 1];
      1 + FirstIndex(cols[1..], name)
  }

  /** `df[name]`. */
  function ColumnOf(f: Frame, name: string): seq<Value>
    requires HasColumn(f, name)
  {
    f.columns[FirstIndex(f.columns, name)].cells
  }

  /** `df.rename(columns=renames)`: names not in the mapping are kept. */
  function Rename(f: Frame, renames: map<string, string>): (r: Frame)
    ensures r.height == f.height && |r.columns| == |f.columns|
    ensures forall j :: 0 <= j < |r.columns| ==>
      r.columns[j].cells == f.columns[j].cells
      && r.columns[j].name == (if f.columns[j].name in renames then renames[f.columns[j].name] else f.columns[j].name)
  {
    Frame(f.height, seq(|f.columns|, j requires 0 <= j < |f.columns| =>
      var c := f.columns[j];
      Column(if c.name in renames then renames[c.name] else c.name, c.cells)))
  }

  /** `df[names]`: exactly the listed columns, in the listed order; a
      missing name raises KeyError. */
  function Select(f: Frame, names: seq<string>): (r: Option<Frame>)
    ensures r.None? <==> !HasColumns(f, names)
    ensures r.Some? ==> Names(r.value) == names && r.value.height == f.height
    ensures r.Some? ==> forall k :: 0 <= k < |names| ==> r.value.columns[k].cells == ColumnOf(f, names[k])
  {
    if HasColumns(f, names) then
      Some(Frame(f.height, seq(|names|, k requires 0 <= k < |names| => Column(names[k], ColumnOf(f, names[k])))))
    else None
  }

  /** `df[name] = cells`: replaces the column in place, or appends it. */
  function Assign(f: Frame, name: string, cells: seq<Value>): (r: Frame)
    ensures r.height == f.height && HasColumn(r, name) && ColumnOf(r, name) == cells
    ensures HasColumn(f, name) ==> Names(r) == Names(f)
    ensures !HasColumn(f, name) ==> Names(r) == Names(f) + [name]
    ensures forall j :: 0 <= j < |f.columns| && f.columns[j].name != name ==> r.columns[j] == f.columns[j]
  {
    if HasColumn(f, name) then
      var j := FirstIndex(f.columns, name);
      var r := Frame(f.height, f.columns[j := Column(name, cells)]);
      assert FirstIndex(r.columns, name) == j by {
        assert r.columns[j].name == name;
        assert forall k :: 0 <= k < j ==> r.columns[k].name != name;
        FirstIndexIs(r.columns, name, j);
      }
      assert Names(r) == Names(f);
      r
    else
      var r := Frame(f.height, f.columns + [Column(name, cells)]);
      assert r.columns[|f.columns|].name == name;
      FirstIndexIs(r.columns, name, |f.columns|);
      assert Names(r) == Names(f) + [name];
      r
  }

  /** Assigning a column keeps every column that was there. */
  lemma AssignKeepsColumns(f: Frame, name: string, cells: seq<Value>, names: seq<string>)
    requires HasColumns(f, names)
    ensures HasColumns(Assign(f, name, cells), names)
  {
    forall k | 0 <= k < |names| ensures HasColumn(Assign(f, name, cells), names[k]) {
      if names[k] != name {
        AssignOther(f, name, cells, names[k]);
      }
    }
  }

  /** In a frame whose names are distinct, name k finds column k. */
  lemma DistinctNamesFindColumns(f: Frame)
    requires NoDuplicates(Names(f))
    ensures forall k :: 0 <= k < |f.columns| ==>
      HasColumn(f, f.columns[k].name) && FirstIndex(f.columns, f.columns[k].name) == k
  {
    forall k | 0 <= k < |f.columns|
      ensures HasColumn(f, f.columns[k].name) && FirstIndex(f.columns, f.columns[k].name) == k
    {
      forall l | 0 <= l < k ensures f.columns[l].name != f.columns[k].name {
        assert Names(f)[l] != Names(f)[k];
      }
      FirstIndexIs(f.columns, f.columns[k].name, k);
    }
  }

  /** Assigning one column leaves every other column, and whether it exists, as it was. */
  lemma AssignOther(f: Frame, name: string, cells: seq<Value>, x: string)
    requires x != name
    ensures HasColumn(Assign(f, name, cells), x) <==> HasColumn(f, x)
    ensures HasColumn(f, x) ==> ColumnOf(Assign(f, name, cells), x) == ColumnOf(f, x)
  {
    var r := Assign(f, name, cells);
    if HasColumn(f, name) {
      SameNamesSameColumns(f, r);
      if HasColumn(f, x) {
        var j := FirstIndex(f.columns, x);
        assert r.columns[j] == f.columns[j];
      }
    } else {
      if HasColumn(r, x) {
        var j :| 0 <= j < |r.columns| && r.columns[j].name == x;
        assert Names(r)[j] == x && Names(r)[|f.columns|] == name;
        assert j < |f.columns| && f.columns[j].name == Names(f)[j];
      }
      if HasColumn(f, x) {
        var j := FirstIndex(f.columns, x);
        assert r.columns[j] == f.columns[j];
        forall k | 0 <= k < j ensures r.columns[k].name != x {
          assert r.columns[k] == f.columns[k];
        }
        FirstIndexIs(r.columns, x, j);
      }
    }
  }

  lemma {:induction false} FirstIndexIs(cols: seq<Column>, name: string, j: nat)
    requires j < |cols| && cols[j].name == name
    requires forall k :: 0 <= k < j ==> cols[k].name != name
    ensures FirstIndex(cols, name) == j
  {
    if j > 0 {
      FirstIndexIs(cols[1..], name, j - 1);
    }
  }

  function MapCells(cells: seq<Value>, g: Value -> Value): (r: seq<Value>)
    ensures |r| == |cells| && forall i :: 0 <= i < |r| ==> r[i] == g(cells[i])
  {
    seq(|cells|, i requires 0 <= i < |cells| => g(cells[i]))
  }

  /** `df[name] = df[name].<cellwise conversion>`. */
  function MapColumn(f: Frame, name: string, g: Value -> Value): (r: Frame)
    requires HasColumn(f, name)
    ensures Names(r) == Names(f) && r.height == f.height
    ensures ColumnOf(r, name) == MapCells(ColumnOf(f, name), g)
    ensures forall j :: 0 <= j < |f.columns| && f.columns[j].name != name ==> r.columns[j] == f.columns[j]
  {
    Assign(f, name, MapCells(ColumnOf(f, name), g))
  }

  /** The same cellwise conversion applied to each listed column in turn. */
  function MapColumns(f: Frame, names: seq<string>, g: Value -> Value): (r: Frame)
    requires HasColumns(f, names)
    ensures Names(r) == Names(f) && r.height == f.height
    decreases |names|
  {
    if names == [] then f
    else
      var prev := MapColumns(f, names[..|names| - 1], g);
      SameNamesSameColumns(f, prev);
      MapColumn(prev, names[|names| - 1], g)
  }

  /** One more name converts one more column. */
  lemma MapColumnsSnoc(f: Frame, names: seq<string>, k: int, g: Value -> Value)
    requires HasColumns(f, names) && 0 <= k < |names|
    ensures HasColumns(f, names[..k]) && HasColumns(f, names[..k + 1])
    ensures HasColumn(MapColumns(f, names[..k], g), names[k])
    ensures MapColumns(f, names[..k + 1], g) == MapColumn(MapColumns(f, names[..k], g), names[k], g)
  {
    assert names[..k + 1][..k] == names[..k];
    SameNamesSameColumns(f, MapColumns(f, names[..k], g));
  }

  /** Converting one column leaves every other column where it was. */
  lemma MapColumnOther(f: Frame, name: string, g: Value -> Value, x: string)
    requires HasColumn(f, name) && HasColumn(f, x) && x != name
    ensures HasColumn(MapColumn(f, name, g), x) && ColumnOf(MapColumn(f, name, g), x) == ColumnOf(f, x)
  {
    var r := MapColumn(f, name, g);
    SameNamesSameColumns(f, r);
    var j := FirstIndex(f.columns, x);
    assert r.columns[j] == f.columns[j];
  }

  /** Columns that are not listed are left as they were. */
  lemma {:induction false} MapColumnsKeepsOthers(f: Frame, names: seq<string>, g: Value -> Value)
    requires HasColumns(f, names)
    ensures var r := MapColumns(f, names, g);
      forall j :: 0 <= j < |f.columns| && f.columns[j].name !in names ==> r.columns[j] == f.columns[j]
    decreases |names|
  {
    if names != [] {
      var init, last := names[..|names| - 1], names[|names| - 1];
      assert HasColumns(f, init) by {
        forall k | 0 <= k < |init| ensures HasColumn(f, init[k]) { assert init[k] == names[k]; }
      }
      MapColumnsKeepsOthers(f, init, g);
      var prev := MapColumns(f, init, g);
      var r := MapColumn(prev, last, g);
      assert r == MapColumns(f, names, g);
      forall j | 0 <= j < |f.columns| && f.columns[j].name !in names ensures r.columns[j] == f.columns[j] {
        assert f.columns[j].name !in init && f.columns[j].name != last;
        assert prev.columns[j].name == Names(prev)[j];
      }
    }
  }

  /** A column that is not listed keeps its cells. */
  lemma MapColumnsUnlisted(f: Frame, names: seq<string>, g: Value -> Value, x: string)
    requires HasColumns(f, names) && HasColumn(f, x) && x !in names
    ensures HasColumn(MapColumns(f, names, g), x) && ColumnOf(MapColumns(f, names, g), x) == ColumnOf(f, x)
  {
    var r := MapColumns(f, names, g);
    SameNamesSameColumns(f, r);
    MapColumnsKeepsOthers(f, names, g);
    var j := FirstIndex(f.columns, x);
    assert r.columns[j] == f.columns[j];
  }

  /** Dropping the last name of a list without repeats. */
  lemma InitOfDistinct(f: Frame, names: seq<string>)
    requires HasColumns(f, names) && NoDuplicates(names) && names != []
    ensures var init := names[..|names| - 1];
      HasColumns(f, init) && NoDuplicates(init) && names[|names| - 1] !in init
  {
    var init, last := names[..|names| - 1], names[|names| - 1];
    forall k | 0 <= k < |init| ensures HasColumn(f, init[k]) && init[k] != last {
      assert init[k] == names[k];
    }
    forall k, l | 0 <= k < l < |init| ensures init[k] != init[l] {
      assert init[k] == names[k] && init[l] == names[l];
    }
  }

  /** Converting one more column of a frame whose earlier columns are converted. */
  lemma MapColumnsConvertsStep(f: Frame, prev: Frame, names: seq<string>, g: Value -> Value)
    requires names != [] && HasColumns(f, names) && names[|names| - 1] !in names[..|names| - 1]
    requires HasColumn(prev, names[|names| - 1]) && HasColumn(f, names[|names| - 1])
    requires ColumnOf(prev, names[|names| - 1]) == ColumnOf(f, names[|names| - 1])
    requires forall k :: 0 <= k < |names| - 1 ==>
      HasColumn(prev, names[k]) && ColumnOf(prev, names[k]) == MapCells(ColumnOf(f, names[k]), g)
    ensures var r := MapColumn(prev, names[|names| - 1], g);
      forall k :: 0 <= k < |names| ==>
        HasColumn(r, names[k]) && ColumnOf(r, names[k]) == MapCells(ColumnOf(f, names[k]), g)
  {
    var last := names[|names| - 1];
    var r := MapColumn(prev, last, g);
    forall k | 0 <= k < |names|
      ensures HasColumn(r, names[k]) && ColumnOf(r, names[k]) == MapCells(ColumnOf(f, names[k]), g)
    {
      if k < |names| - 1 {
        assert names[k] == names[..|names| - 1][k];
        MapColumnOther(prev, last, g, names[k]);
      } else {
        SameNamesSameColumns(prev, r);
      }
    }
  }

  /** The frame after all listed columns is the frame after all but the last, then the last. */
  lemma MapColumnsUnfold(f: Frame, names: seq<string>, g: Value -> Value)
    requires HasColumns(f, names) && names != []
    ensures HasColumns(f, names[..|names| - 1])
    ensures HasColumn(MapColumns(f, names[..|names| - 1], g), names[|names| - 1])
    ensures MapColumns(f, names, g) == MapColumn(MapColumns(f, names[..|names| - 1], g), names[|names| - 1], g)
  {
    MapColumnsSnoc(f, names, |names| - 1, g);
    assert names[..|names| - 1 + 1] == names;
  }

  /** When no name repeats, each listed column is converted exactly once. */
  lemma {:induction false} MapColumnsConverts(f: Frame, names: seq<string>, g: Value -> Value)
    requires HasColumns(f, names) && NoDuplicates(names)
    ensures var r := MapColumns(f, names, g);
      forall k :: 0 <= k < |names| ==>
        HasColumn(r, names[k]) && ColumnOf(r, names[k]) == MapCells(ColumnOf(f, names[k]), g)
    decreases |names|
  {
    if names != [] {
      var init, last := names[..|names| - 1], names[|names| - 1];
      InitOfDistinct(f, names);
      MapColumnsConverts(f, init, g);
      MapColumnsUnlisted(f, init, g, last);
      MapColumnsUnfold(f, names, g);
      var prev := MapColumns(f, init, g);
      forall k | 0 <= k < |names| - 1
        ensures HasColumn(prev, names[k]) && ColumnOf(prev, names[k]) == MapCells(ColumnOf(f, names[k]), g)
      {
        assert names[k] == init[k];
      }
      MapColumnsConvertsStep(f, prev, names, g);
    }
  }

  /** Converting the listed columns and then one more, unlisted column:
      each column holds its own conversion of its original cells. */
  lemma MapColumnsThenOther(f: Frame, names: seq<string>, g: Value -> Value, x: string, h: Value -> Value)
    requires HasColumns(f, names) && NoDuplicates(names) && HasColumn(f, x) && x !in names
    ensures var m := MapColumns(f, names, g);
      HasColumn(m, x) &&
      var out := MapColumn(m, x, h);
      && Names(out) == Names(f)
      && ColumnOf(out, x) == MapCells(ColumnOf(f, x), h)
      && forall k :: 0 <= k < |names| ==>
           HasColumn(out, names[k]) && ColumnOf(out, names[k]) == MapCells(ColumnOf(f, names[k]), g)
  {
    var m := MapColumns(f, names, g);
    MapColumnsUnlisted(f, names, g, x);
    MapColumnsConverts(f, names, g);
    var out := MapColumn(m, x, h);
    forall k | 0 <= k < |names|
      ensures HasColumn(out, names[k]) && ColumnOf(out, names[k]) == MapCells(ColumnOf(f, names[k]), g)
    {
      MapColumnOther(m, x, h, names[k]);
    }
  }

  /** Two frames with the same column names find a name in the same place. */
  lemma SameNamesSameColumns(f: Frame, r: Frame)
    requires Names(r) == Names(f)
    ensures forall x :: HasColumn(f, x) <==> HasColumn(r, x)
    ensures forall x :: HasColumn(f, x) ==> FirstIndex(r.columns, x) == FirstIndex(f.columns, x)
  {
    forall x ensures HasColumn(f, x) <==> HasColumn(r, x) {
      if HasColumn(f, x) {
        var j :| 0 <= j < |f.columns| && f.columns[j].name == x;
        assert r.columns[j].name == Names(r)[j];
      }
      if HasColumn(r, x) {
        var j :| 0 <= j < |r.columns| && r.columns[j].name == x;
        assert f.columns[j].name == Names(f)[j];
      }
    }
    forall x | HasColumn(f, x) ensures FirstIndex(r.columns, x) == FirstIndex(f.columns, x) {
      var j := FirstIndex(f.columns, x);
      assert r.columns[j].name == Names(r)[j];
      forall k | 0 <= k < j ensures r.columns[k].name != x {
        assert r.columns[k].name == Names(f)[k];
      }
      FirstIndexIs(r.columns, x, j);
    }
  }

  /** `Series.notnull().all()`. */
  predicate NoNulls(cells: seq<Value>) {
    forall i :: 0 <= i < |cells| ==> cells[i] != Null
  }

  // ---- Cell conversions ----

  /** `replace(["", "NA"], None)`. */
  function NullifyMarkers(v: Value): (r: Value)
    ensures r == Null <==> v == Null || v == Text("") || v == Text("NA")
    ensures r != Null ==> r == v
  {
    if v == Text("") || v == Text("NA") then Null else v
  }

  /** `replace("", pd.NA)`. */
  function EmptyToNull(v: Value): (r: Value)
    ensures r == Null <==> v == Null || v == Text("")
    ensures r != Null ==> r == v
  {
    if v == Text("") then Null else v
  }

  predicate IsDecimal(s: string) {
    |s| > 0 && forall i :: 0 <= i < |s| ==> IsDigit(s[i])
  }

  /** `pd.to_numeric(errors="coerce")` for integers: unsigned decimal text
      is read as a number, any other text or a timestamp becomes missing. */
  function CoerceNumeric(v: Value): (r: Value)
    ensures r.Null? || r.Int?
    ensures v.Int? ==> r == v
    ensures v.Text? && IsDecimal(v.s) ==> r == Int(DigitsValue(v.s))
    ensures v.Null? || (v.Text? && !IsDecimal(v.s)) || v.Stamp? ==> r == Null
  {
    match v
    case Null => Null
    case Int(_) => v
    case Text(s) => if IsDecimal(s) then Int(DigitsValue(s)) else Null
    case Stamp(_) => Null
  }

  /** Coercing twice is coercing once. */
  lemma CoerceNumericIdempotent(v: Value)
    ensures CoerceNumeric(CoerceNumeric(v)) == CoerceNumeric(v)
  {
  }

  /** `.astype("Int64")`: missing and integer cells convert, text and
      timestamps raise (None). */
  function CastInt64(v: Value): (r: Option<Value>)
    ensures r.Some? <==> v.Null? || v.Int?
    ensures r.Some? ==> r.value == v
  {
    if v.Null? || v.Int? then Some(v) else None
  }

  /** The Int64 cast after `replace("", pd.NA)` fails exactly on a non-empty
      text or a timestamp. */
  lemma CastAfterEmptyToNull(v: Value)
    ensures CastInt64(EmptyToNull(v)).None? <==> (v.Text? && v.s != "") || v.Stamp?
  {
  }

  /** Casting every cell of a column: None when one cell cannot be cast. */
  function CastCells(cells: seq<Value>): (r: Option<seq<Value>>)
    ensures r.None? <==> exists i :: 0 <= i < |cells| && CastInt64(cells[i]).None?
    ensures r.Some? ==> r.value == cells
  {
    if exists i :: 0 <= i < |cells| && CastInt64(cells[i]).None? then None else Some(cells)
  }

  /** `.str[:n]`: text is cut to its first `n` characters; a cell that is
      not text yields NaN. */
  function Truncate(v: Value, n: nat): (r: Value)
    ensures v.Text? ==> r.Text? && |r.s| == (if |v.s| < n then |v.s| else n) && r.s == v.s[..|r.s|]
    ensures !v.Text? ==> r == Null
  {
    if v.Text? then Text(if |v.s| <= n then v.s else v.s[..n]) else Null
  }

  /** Truncating again changes nothing. */
  lemma TruncateIdempotent(v: Value, n: nat)
    ensures Truncate(Truncate(v, n), n) == Truncate(v, n)
  {
  }

  // ---- Records ----

  datatype Field = Field(key: string, value: Value)

  /** One `dict` of `df.to_dict("records")`, keys in column order. */
  type Record = seq<Field>

  function ToRecords(f: Frame): (r: seq<Record>)
    requires Rectangular(f)
    ensures |r| == f.height
    ensures forall i :: 0 <= i < |r| ==> (
      && |r[i]| == |f.columns|
      && forall j :: 0 <= j < |f.columns| ==> r[i][j] == Field(f.columns[j].name, f.columns[j].cells[i]))
  {
    seq(f.height, i requires 0 <= i < f.height =>
      seq(|f.columns|, j requires 0 <= j < |f.columns| => Field(f.columns[j].name, f.columns[j].cells[i])))
  }
}
